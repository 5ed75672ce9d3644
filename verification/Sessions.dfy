/** Connections that are kept open: init() between two requests drops what is buffered behind the
    first one.  Responses are taken to be sent completely; the answers of do_request do not close. */
module Sessions {
  import opened Common
  import opened CString
  import opened RequestParser
  import opened Observation
  import opened ChunkIndependence
  import opened ChunkedRuns
  import opened Reference
  import opened BodyScan
  import opened StreamCuts
  import opened BenchRoundTrip

  // -------------------------------------------------------------- what is meant

  /** The bytes behind the first request of an input. */
  function Behind(s: seq<char>): (r: seq<char>)
    ensures Meaning(s).Accepted? ==> |r| < |s|
  {
    match FirstLine(s)
    case None => []
    case Some((line, rest)) =>
      var (c, m, u) := MeaningOfRequestLine(Str(line, 0));
      BehindHeaders(rest, View(m, m == Post, Some(u), None, false, 0, None))
  }

  function BehindHeaders(r: seq<char>, v: View): (b: seq<char>)
    ensures |b| <= |r|
    decreases |r|
  {
    match FirstLine(r)
    case None => []
    case Some((line, rest)) =>
      var t := Str(line, 0);
      if t != [] then BehindHeaders(rest, MeaningOfHeader(t, v))
      else if 0 <= v.clen <= |rest| then rest[v.clen..]
      else []
  }

  /** The requests of an input, up to the first that does not keep the connection open. */
  function Requests(s: seq<char>): seq<View>
    decreases |s|
  {
    match Meaning(s)
    case Accepted(v) => [v] + if v.linger then Requests(Behind(s)) else []
    case _ => []
  }

  // ---------------------------------------------------------- what the server does

  /** Read, process_read, and behind a request that lingers init(). */
  function Session(p: Parser, chunks: seq<seq<char>>): seq<View>
    requires WF(p)
    decreases |chunks|
  {
    if chunks == [] then []
    else
      AppendWF(p, chunks[0]);
      var (c, q) := Loop(Append(p, chunks[0]), LineOk, AsWritten);
      InitWF();
      match c
      case NoRequest => Session(q, chunks[1..])
      case GetRequest => [Observe(q)] + if q.linger then Session(Init(), chunks[1..]) else []
      case _ => []
  }

  /** How many reads the first request takes. */
  function Reads(p: Parser, chunks: seq<seq<char>>): (n: nat)
    requires WF(p)
    ensures n <= |chunks| && (chunks != [] ==> n > 0)
    decreases |chunks|
  {
    if chunks == [] then 0
    else
      AppendWF(p, chunks[0]);
      var (c, q) := Loop(Append(p, chunks[0]), LineOk, AsWritten);
      if c == NoRequest then 1 + Reads(q, chunks[1..]) else 1
  }

  /** No byte of the next request is buffered at init(); the reads of each request fit the buffer,
      do not show, and meet nothing undefined. */
  predicate Clean(chunks: seq<seq<char>>)
    decreases |chunks|
  {
    InitWF();
    chunks != [] ==>
      var n := Reads(Init(), chunks);
      var s := Flatten(chunks[..n]);
      && |s| < READ_BUFF_SIZE && Uncut(chunks[..n])
      && Run(Init(), chunks[..n], AsWritten).0 != Undefined && !Meaning(s).Garbled?
      && (Meaning(s).Accepted? ==> Behind(s) == [] && Clean(chunks[n..]))
  }

  // -------------------------------------------------- later bytes do not matter

  lemma {:induction false} FirstLineMore(x: seq<char>, y: seq<char>)
    requires FirstLine(x).Some?
    ensures var (line, rest) := FirstLine(x).value; FirstLine(x + y) == Some((line, rest + y))
  {
    hide FirstLine;
    var (line, rest) := FirstLine(x).value;
    FirstLineText(x) by {
      assert FirstLine(x).Some?;
    }
    assert x + y == line + "\r\n" + (rest + y);
    FirstLineIs(line, rest + y);
  }

  lemma {:induction false} HeadersMore(x: seq<char>, at: nat, v: View, y: seq<char>)
    requires MeaningOfHeaders(x, at, v).Accepted? && BehindHeaders(x, v) == []
    ensures MeaningOfHeaders(x + y, at, v) == MeaningOfHeaders(x, at, v) && BehindHeaders(x + y, v) == y
    decreases |x|
  {
    hide FirstLine, Str, MeaningOfHeader;
    var (line, rest) := FirstLine(x).value;
    FirstLineMore(x, y);
    FirstLineText(x);
    var t := Str(line, 0);
    if t != [] {
      HeadersMore(rest, at + |line| + 2, MeaningOfHeader(t, v), y);
    } else {
      assert (rest + y)[|rest|..] == y;
      assert |rest| == v.clen ==> (rest + y)[..v.clen] == rest == rest[..v.clen];
    }
  }

  /** A request that ends with its bytes is the first one of every longer input. */
  lemma {:induction false} RequestMore(x: seq<char>, y: seq<char>)
    requires Meaning(x).Accepted? && Behind(x) == []
    ensures Meaning(x + y) == Meaning(x) && Behind(x + y) == y
  {
    hide FirstLine, Str, MeaningOfHeaders, BehindHeaders, MeaningOfRequestLine;
    var (line, rest) := FirstLine(x).value;
    FirstLineMore(x, y);
    var (c, m, u) := MeaningOfRequestLine(Str(line, 0));
    HeadersMore(rest, |line| + 2, View(m, m == Post, Some(u), None, false, 0, None), y);
  }

  lemma {:induction false} RejectedMore(x: seq<char>, y: seq<char>)
    requires Meaning(x).Rejected?
    ensures Meaning(x + y).Rejected?
  {
    hide FirstLine, Str, MeaningOfRequestLine, MeaningOfHeaders;
    var (line, rest) := FirstLine(x).value;
    var (c, m, u) := MeaningOfRequestLine(Str(line, 0));
    if c == NoRequest {
      NeverRejected(rest, |line| + 2, View(m, m == Post, Some(u), None, false, 0, None));
    }
    FirstLineMore(x, y);
  }

  lemma {:induction false} NeverRejected(r: seq<char>, at: nat, v: View)
    ensures !MeaningOfHeaders(r, at, v).Rejected?
    decreases |r|
  {
    hide FirstLine, Str, MeaningOfHeader;
    if FirstLine(r).Some? {
      var (line, rest) := FirstLine(r).value;
      FirstLineText(r);
      if Str(line, 0) != [] {
        NeverRejected(rest, at + |line| + 2, MeaningOfHeader(Str(line, 0), v));
      }
    }
  }

  // ------------------------------------------------------------------ in order

  /** A session is the run of its first request, and what follows. */
  lemma {:induction false} SessionStep(p: Parser, chunks: seq<seq<char>>)
    requires WF(p)
    ensures WF(Init())
    ensures var n := Reads(p, chunks); var (c, q) := Run(p, chunks[..n], AsWritten);
      && Session(p, chunks)
         == (if c != GetRequest then [] else [Observe(q)] + if q.linger then Session(Init(), chunks[n..]) else [])
      && (c == NoRequest ==> n == |chunks|)
    decreases |chunks|
  {
    hide WF, Loop, Observe;
    InitWF();
    if chunks != [] {
      AppendWF(p, chunks[0]);
      var (c, q) := Loop(Append(p, chunks[0]), LineOk, AsWritten);
      var n := Reads(p, chunks);
      assert chunks[..n][0] == chunks[0] && chunks[..n][1..] == chunks[1..][..n - 1];
      if c == NoRequest {
        SessionStep(q, chunks[1..]);
        assert chunks[n..] == chunks[1..][n - 1..];
      } else {
        assert chunks[n..] == chunks[1..];
      }
    }
  }

  lemma {:induction false} FlattenSplit(chunks: seq<seq<char>>, n: nat)
    requires n <= |chunks|
    ensures Flatten(chunks) == Flatten(chunks[..n]) + Flatten(chunks[n..])
  {
    if n == 0 {
      assert chunks[..0] == [] && chunks[0..] == chunks;
    } else {
      FlattenSplit(chunks[1..], n - 1);
      assert chunks[..n][0] == chunks[0] && chunks[..n][1..] == chunks[1..][..n - 1];
      assert chunks[1..][n - 1..] == chunks[n..];
    }
  }

  /** A connection that is kept open answers the requests of its input in order, each with what it
      means, when no byte of the next one is buffered at init(). */
  lemma {:induction false} SessionInOrder(chunks: seq<seq<char>>)
    requires Clean(chunks)
    ensures WF(Init()) && Session(Init(), chunks) == Requests(Flatten(chunks))
    decreases |chunks|
  {
    hide WF, Run, Meaning, Behind, Uncut, Observe, Loop, Reads, Session;
    InitWF();
    var n := Reads(Init(), chunks);
    if chunks == [] {
      NothingRead();
    } else {
      var mine, rest := chunks[..n], chunks[n..];
      var x := Flatten(mine);
      FlattenSplit(chunks, n);
      SessionStep(Init(), chunks);
      ReadsComputeMeaning(mine);
      match Meaning(x)
      case Accepted(v) =>
        ObserveLinger(Run(Init(), mine, AsWritten).1);
        RequestMore(x, Flatten(rest));
        SessionInOrder(rest);
      case Rejected =>
        RejectedMore(x, Flatten(rest));
      case Unfinished(_) =>
        assert n == |chunks| && mine == chunks;
      case Ill =>
    }
  }

  lemma NothingRead()
    ensures WF(Init()) && Session(Init(), []) == [] && Requests(Flatten([])) == []
  {
  }

  lemma ObserveLinger(p: Parser)
    ensures Observe(p).linger == p.linger
  {
  }

  // ------------------------------------------------------- what init() drops

  /** Whatever is buffered behind a request that lingers is gone. */
  lemma {:induction false} LeftoverIsDropped(x: seq<char>, chunks: seq<seq<char>>)
    requires Meaning(x).Accepted? && Meaning(x).view.linger && |x| < READ_BUFF_SIZE
    ensures WF(Init()) && Session(Init(), [x] + chunks) == [Meaning(x).view] + Session(Init(), chunks)
  {
    hide WF, Meaning, Observe, Loop;
    InitWF();
    ProcessReadComputesMeaning(x, AsWritten);
    ObserveLinger(ProcessRead(Append(Init(), x)).1);
    assert ([x] + chunks)[0] == x && ([x] + chunks)[1..] == chunks;
  }

  /** A request for a page with a one-letter name. */
  function Asking(c: char): seq<char> {
    "GET /" + [c] + " HTTP/1.1"
  }

  function PageView(c: char): View {
    View(Get, false, Some("/" + [c]), None, false, 0, None)
  }

  const END: seq<char> := "\r\n" + ("" + "\r\n" + [])

  lemma {:induction false} PageLine(c: char)
    requires 'a' <= c <= 'z'
    ensures Plain("/" + [c]) && NoBreak(Asking(c)) && NoNul(Asking(c))
    ensures MeaningOfRequestLine(Asking(c)) == (NoRequest, Get, "/" + [c])
  {
    hide Path;
    var target := "/" + [c];
    assert Asking(c) == "GET" + " " + target + " HTTP/1.1";
    RequestLineText(target);
    RequestLineMeaning(target);
    PathOfPath(target);
  }

  lemma {:induction false} PageMeaning(c: char)
    requires 'a' <= c <= 'z'
    ensures Meaning(Asking(c) + END) == Accepted(PageView(c))
  {
    hide MeaningOfRequestLine, FirstLine, Str, MeaningOfHeaders;
    PageLine(c);
    assert Asking(c) + END == Asking(c) + "\r\n" + ("" + "\r\n" + []);
    FirstLineIs(Asking(c), "" + "\r\n" + []);
    WholeStr(Asking(c));
    LastStep(|Asking(c)| + 2, PageView(c));
  }

  /** A request line behind other bytes of the same line is not one. */
  lemma {:induction false} PrefixedLine(d: seq<char>, c: char)
    requires d != [] && NoNul(d) && 'a' <= c <= 'z'
    ensures MeaningOfRequestLine(d + Asking(c)).0 != NoRequest
  {
    hide Path;
    var t := d + Asking(c);
    var i := Scan(t, 0, BlankOrNul);
    var k := |d| + 3;
    assert t[k] == Asking(c)[3] == ' ';
    if i < |d| {
      var r := t[i + 1..];
      assert r[k - i - 1] == t[k];
      ScanStopsBy(r, 0, BlankOrNul, k - i - 1);
    } else {
      assert forall j :: |d| <= j < k ==> t[j] == Asking(c)[j - |d|];
      ScanIs(t, |d|, BlankOrNul, k);
      ScanResume(t, 0, BlankOrNul, |d|);
      assert t[..i][i - 3] == 'G' && t[..i][i - 2] == 'E';
      assert |t[..i]| >= 4;
      assert Lower('E') != Lower('S');
    }
  }

  /** What an input means is decided by the page its first line asks for. */
  lemma {:induction false} UrlStays(r: seq<char>, at: nat, v: View)
    ensures var m := MeaningOfHeaders(r, at, v);
      && (m.Accepted? ==> m.view.url == v.url)
      && (m.Garbled? ==> m.view.clen < 0)
    decreases |r|
  {
    hide FirstLine, Str, Classify, Atol, Skip, EqCI;
    if FirstLine(r).Some? {
      var (line, rest) := FirstLine(r).value;
      FirstLineText(r);
      if Str(line, 0) != [] {
        UrlStays(rest, at + |line| + 2, MeaningOfHeader(Str(line, 0), v));
      }
    }
  }

  /** The first line of an input that is taken for a request for page c. */
  lemma {:induction false} AsksFor(s: seq<char>, c: char)
    requires Meant(Some(PageView(c)), Meaning(s))
    ensures FirstLine(s).Some?
    ensures var (code, m, u) := MeaningOfRequestLine(Str(FirstLine(s).value.0, 0)); code == NoRequest && u == "/" + [c]
  {
    hide FirstLine, Str, MeaningOfRequestLine, MeaningOfHeaders;
    var (line, rest) := FirstLine(s).value;
    var (code, m, u) := MeaningOfRequestLine(Str(line, 0));
    UrlStays(rest, |line| + 2, View(m, m == Post, Some(u), None, false, 0, None));
  }

  /** Behind bytes that end no line, the next request is on a bad line, or on one with them. */
  lemma {:induction false} SpoiledLine(d: seq<char>, c: char)
    requires d != [] && FirstLine(d) == None && 'a' <= c <= 'z'
    ensures var f := FirstLine(d + (Asking(c) + END));
      f == None || (NoBreak(d) && f.value.0 == d + Asking(c))
  {
    hide Scan;
    var s := d + (Asking(c) + END);
    var k := Scan(d, 0, Break);
    if k < |d| {
      ScanPrefix(d, s, 0, Break);
      assert s[|d|] == 'G';
    } else {
      PageLine(c);
      assert NoBreak(d + Asking(c));
      assert s == (d + Asking(c)) + "\r\n" + ("" + "\r\n" + []);
      FirstLineIs(d + Asking(c), "" + "\r\n" + []);
    }
  }

  /** Behind any bytes the next request is not told by its own page alone. */
  lemma {:induction false} LineIgnoresPage(d: seq<char>, c: char)
    requires d != [] && 'a' <= c <= 'z' && FirstLine(d + (Asking(c) + END)).Some?
    ensures var t := Str(FirstLine(d + (Asking(c) + END)).value.0, 0);
      || MeaningOfRequestLine(t).0 != NoRequest
      || t == if FirstLine(d).Some? then Str(FirstLine(d).value.0, 0) else Str(d, 0)
  {
    hide FirstLine, Scan, MeaningOfRequestLine, Asking;
    if FirstLine(d).Some? {
      FirstLineMore(d, Asking(c) + END);
    } else {
      SpoiledLine(d, c);
      if NoNul(d) {
        PageLine(c);
        WholeStr(d + Asking(c));
        PrefixedLine(d, c);
      } else {
        var i :| 0 <= i < |d| && d[i] == NUL;
        ScanStopsBy(d, 0, Nul, i);
        StrPrefix(d, d + Asking(c), 0);
      }
    }
  }

  lemma LettersDiffer()
    ensures "/" + ['a'] != "/" + ['b']
  {
    assert ("/" + ['a'])[1] != ("/" + ['b'])[1];
  }

  /** The answer behind the first one */
  function Second(answers: seq<View>): Option<View> {
    if |answers| > 1 then Some(answers[1]) else None
  }

  /** An answer is the one that is meant, with a negative length up to the strings that are cut. */
  predicate Meant(o: Option<View>, m: Verdict) {
    match m
    case Accepted(v) => o == Some(v)
    case Garbled(v, _) => o.Some? && o.value == v.(url := o.value.url, host := o.value.host)
    case _ => o == None
  }

  lemma {:induction false} AgreesIsMeant(r: (Code, Parser), m: Verdict)
    ensures Agrees(r, m) ==> Meant(if r.0 == GetRequest then Some(Observe(r.1)) else None, m)
  {
    hide Observe;
  }

  /** The answer to the read behind init() */
  function NextAnswer(r: seq<char>): Option<View> {
    ReceivedWF(r);
    var (c, q) := ProcessRead(Append(Init(), r));
    if c == GetRequest then Some(Observe(q)) else None
  }

  lemma {:induction false} NextIsMeant(r: seq<char>)
    ensures Meant(NextAnswer(r), Meaning(r))
  {
    hide WF, Meaning, Meant, Agrees, Observe, Loop;
    ProcessReadComputesMeaning(r, AsWritten);
    AgreesIsMeant(ProcessRead(Append(Init(), r)), Meaning(r));
  }

  /** The exact condition at init(): the next read is answered as it is meant, whatever it brings, if
      and only if nothing is buffered behind the request before it. */
  lemma {:induction false} NextAnsweredIff(d: seq<char>)
    ensures (forall r: seq<char> | |r| < READ_BUFF_SIZE :: Meant(NextAnswer(r), Meaning(d + r))) <==> d == []
  {
    hide Meaning, Meant, Asking, NextAnswer;
    if d == [] {
      forall r: seq<char> | |r| < READ_BUFF_SIZE ensures Meant(NextAnswer(r), Meaning(d + r)) {
        assert [] + r == r;
        NextIsMeant(r);
      }
    } else {
      PageLength('a');
      PageLength('b');
      PageAnswered('a');
      PageAnswered('b');
      OnePageMeant(d);
    }
  }

  /** A session of two reads, the first of which brings a whole request that lingers. */
  lemma {:induction false} SecondOf(x: seq<char>, r: seq<char>)
    requires Meaning(x).Accepted? && Meaning(x).view.linger && |x| < READ_BUFF_SIZE
    ensures WF(Init()) && Second(Session(Init(), [x, r])) == NextAnswer(r)
  {
    hide WF, Meaning, Observe, Loop;
    LeftoverIsDropped(x, [r]);
    assert [x] + [r] == [x, r];
    ReceivedWF(r);
    var none: seq<seq<char>> := [r][1..];
    assert none == [];
  }

  /** The same on a session: behind a request that lingers the next answer is the one that is meant by
      the bytes behind that request, whatever is read next, if and only if that request was read
      without any of them. */
  lemma {:induction false} SecondAnswerIff(x: seq<char>)
    requires Meaning(x).Accepted? && Meaning(x).view.linger && |x| < READ_BUFF_SIZE
    ensures WF(Init())
    ensures
      (forall r: seq<char> | |r| < READ_BUFF_SIZE ::
         Meant(Second(Session(Init(), [x, r])), Meaning(Behind(x) + r)))
      <==> Behind(x) == []
  {
    hide WF, Meaning, Session, Behind, Meant, NextAnswer;
    InitWF();
    forall r: seq<char> ensures Second(Session(Init(), [x, r])) == NextAnswer(r) {
      SecondOf(x, r);
    }
    NextAnsweredIff(Behind(x));
  }

  lemma {:induction false} OnePageMeant(d: seq<char>)
    requires d != []
    ensures !Meant(Some(PageView('a')), Meaning(d + (Asking('a') + END)))
         || !Meant(Some(PageView('b')), Meaning(d + (Asking('b') + END)))
  {
    hide Meaning, Meant, FirstLine, MeaningOfRequestLine, Str, Asking;
    if Meant(Some(PageView('a')), Meaning(d + (Asking('a') + END)))
      && Meant(Some(PageView('b')), Meaning(d + (Asking('b') + END))) {
      AsksFor(d + (Asking('a') + END), 'a');
      AsksFor(d + (Asking('b') + END), 'b');
      LineIgnoresPage(d, 'a');
      LineIgnoresPage(d, 'b');
      LettersDiffer();
      assert false;
    }
  }

  lemma PageLength(c: char)
    ensures |Asking(c) + END| < READ_BUFF_SIZE
  {
  }

  lemma {:induction false} PageAnswered(c: char)
    requires 'a' <= c <= 'z'
    ensures NextAnswer(Asking(c) + END) == Some(PageView(c))
  {
    hide WF, Loop, Meaning, Observe;
    ProcessReadComputesMeaning(Asking(c) + END, AsWritten);
    PageMeaning(c);
  }

  // ------------------------------------------------------------- whole requests

  lemma {:induction false} FirstLineShort(r: seq<char>, m: nat)
    requires FirstLine(r).Some? && m < |FirstLine(r).value.0| + 2
    ensures m <= |r| && FirstLine(r[..m]) == None
  {
    var (line, rest) := FirstLine(r).value;
    FirstLineText(r);
    var k := Scan(r[..m], 0, Break);
    assert forall j :: 0 <= j < |line| ==> r[j] == line[j];
    assert k < m ==> r[..m][k] == r[k];
  }

  /** A part of a request that is not all of it waits for more, with the same body so far. */
  lemma {:induction false} HeadersWait(r: seq<char>, at: nat, v: View, m: nat)
    requires MeaningOfHeaders(r, at, v).Accepted? && BehindHeaders(r, v) == [] && m < |r|
    ensures var u := MeaningOfHeaders(r[..m], at, v); u.Unfinished? && u.clen <= |r|
    ensures BodyIn(r[..m], v).Some? ==>
      && BodyIn(r, v).Some? && |r| - |BodyIn(r, v).value.0| <= m
      && BodyIn(r, v).value.1 == |BodyIn(r, v).value.0|
      && BodyIn(r[..m], v) == Some((BodyIn(r, v).value.0[..m - (|r| - |BodyIn(r, v).value.0|)], BodyIn(r, v).value.1))
    decreases |r|
  {
    hide FirstLine, Str, MeaningOfHeader;
    var (line, rest) := FirstLine(r).value;
    FirstLineText(r);
    if m < |line| + 2 {
      FirstLineShort(r, m);
    } else {
      FirstLinePart(r, m);
      if Str(line, 0) != [] {
        HeadersWait(rest, at + |line| + 2, MeaningOfHeader(Str(line, 0), v), m - |line| - 2);
      }
    }
  }

  lemma {:induction false} RequestWaits(s: seq<char>, m: nat)
    requires Meaning(s).Accepted? && Behind(s) == [] && m < |s|
    ensures var u := Meaning(s[..m]); u.Unfinished? && u.clen <= |s|
    ensures BodyOf(s[..m]).Some? ==>
      && BodyOf(s).Some? && |s| - |BodyOf(s).value.0| <= m
      && BodyOf(s).value.1 == |BodyOf(s).value.0|
      && BodyOf(s[..m]) == Some((BodyOf(s).value.0[..m - (|s| - |BodyOf(s).value.0|)], BodyOf(s).value.1))
  {
    hide FirstLine, Str, MeaningOfRequestLine, MeaningOfHeaders, BehindHeaders, BodyIn;
    var (line, rest) := FirstLine(s).value;
    FirstLineText(s);
    if m < |line| + 2 {
      FirstLineShort(s, m);
    } else {
      FirstLinePart(s, m);
      var (c, q, u) := MeaningOfRequestLine(Str(line, 0));
      HeadersWait(rest, |line| + 2, View(q, q == Post, Some(u), None, false, 0, None), m - |line| - 2);
    }
  }

  lemma {:induction false} BoundariesPart(at: nat, g: seq<seq<char>>, n: nat, lo: nat, hi: int, b: seq<char>, k: nat)
    requires n <= |g| && k <= |b| && at + |Flatten(g[..n])| == lo + k
    requires BoundariesStop(at, g, lo, hi, b)
    ensures BoundariesStop(at, g[..n], lo, hi, b[..k])
    decreases n
  {
    if n > 1 {
      assert g[..n][1..] == g[1..][..n - 1] && g[..n][0] == g[0];
      BoundariesPart(at + |g[0]|, g[1..], n - 1, lo, hi, b, k);
    }
  }

  /** The reads of one request, the last of which brings its last byte; none that cuts its body shows. */
  predicate Whole(g: seq<seq<char>>) {
    && g != [] && g[|g| - 1] != [] && |Flatten(g)| < READ_BUFF_SIZE && Uncut(g)
    && Meaning(Flatten(g)).Accepted? && Behind(Flatten(g)) == []
  }

  lemma {:induction false} LastIsMissing(g: seq<seq<char>>, n: nat)
    requires n < |g| && g[|g| - 1] != []
    ensures Flatten(g[..n]) <= Flatten(g) && |Flatten(g[..n])| < |Flatten(g)|
  {
    FlattenSplit(g, n);
    FlattenSplit(g[n..], |g| - n - 1);
    var last := g[n..][|g| - n - 1..];
    assert last == [g[|g| - 1]];
    assert Flatten(last) == g[|g| - 1] + Flatten(last[1..]);
  }

  lemma {:induction false} PartIsUncut(g: seq<seq<char>>, n: nat)
    requires Whole(g) && n < |g|
    ensures Uncut(g[..n])
  {
    hide Meaning, Behind, BodyOf, StopsScan, StopsAt, Flatten, BoundariesStop;
    var s, x := Flatten(g), Flatten(g[..n]);
    LastIsMissing(g, n);
    assert x == s[..|x|];
    RequestWaits(s, |x|);
    if BodyOf(x).Some? {
      var (b, clen) := BodyOf(s).value;
      var at := |s| - |b|;
      if StopsScan(b, clen) {
        StopsScanAll(0, g, at, clen, b);
      }
      BoundariesPart(0, g, n, at, at + clen, b, |x| - at);
    }
  }

  lemma {:induction false} PartWaits(g: seq<seq<char>>, n: nat)
    requires Whole(g) && 0 < n < |g|
    ensures WF(Init()) && Run(Init(), g[..n], AsWritten).0 == NoRequest
  {
    hide Meaning, Behind, Uncut, WF, Run, Loop, Observe;
    var s, x := Flatten(g), Flatten(g[..n]);
    LastIsMissing(g, n);
    assert x == s[..|x|];
    RequestWaits(s, |x|);
    PartIsUncut(g, n) by {
      assert Whole(g);
    }
    ReadsComputeMeaning(g[..n]);
    SameBuffer(Append(Init(), x));
  }

  lemma SameBuffer(p: Parser)
    requires WF(p)
    ensures |ProcessRead(p).1.buf| == |p.buf|
  {
  }

  lemma {:induction false} ReadsOfRun(p: Parser, g: seq<seq<char>>, more: seq<seq<char>>)
    requires WF(p) && Run(p, g, AsWritten).0 != NoRequest
    ensures Reads(p, g + more) <= |g|
    decreases |g|
  {
    hide WF, Loop, Observe;
    AppendWF(p, g[0]);
    assert (g + more)[1..] == g[1..] + more;
    var (c, q) := Loop(Append(p, g[0]), LineOk, AsWritten);
    if c == NoRequest {
      ReadsOfRun(q, g[1..], more);
    }
  }

  /** The server takes exactly the reads of a request for it. */
  lemma {:induction false} WholeReads(g: seq<seq<char>>, more: seq<seq<char>>)
    requires Whole(g)
    ensures WF(Init()) && Reads(Init(), g + more) == |g|
    ensures Run(Init(), g, AsWritten).0 == GetRequest
  {
    hide Meaning, Behind, Uncut, WF, Run, Loop, Observe, Reads, Session;
    InitWF();
    ReadsComputeMeaning(g);
    ReadsOfRun(Init(), g, more);
    SessionStep(Init(), g + more);
    var n := Reads(Init(), g + more);
    if n < |g| {
      assert (g + more)[..n] == g[..n];
      ReadsAreSome(g + more);
      PartWaits(g, n) by {
        assert Whole(g);
      }
    }
  }

  lemma ReadsAreSome(chunks: seq<seq<char>>)
    requires chunks != [] && WF(Init())
    ensures Reads(Init(), chunks) > 0
  {
  }

  function Concat(groups: seq<seq<seq<char>>>): seq<seq<char>> {
    if groups == [] then [] else groups[0] + Concat(groups[1..])
  }

  lemma {:induction false} WholeIsClean(groups: seq<seq<seq<char>>>)
    requires forall i :: 0 <= i < |groups| ==> Whole(groups[i])
    ensures Clean(Concat(groups))
    decreases |groups|
  {
    hide Meaning, Behind, Uncut, WF, Run, Reads;
    if groups != [] {
      var g, more := groups[0], Concat(groups[1..]);
      assert Whole(g);
      WholeReads(g, more);
      WholeIsClean(groups[1..]);
      assert (g + more)[..|g|] == g && (g + more)[|g|..] == more;
    }
  }

  /** The meaning of each request, up to the first that does not linger */
  function Views(groups: seq<seq<seq<char>>>): seq<View>
    requires forall i :: 0 <= i < |groups| ==> Whole(groups[i])
  {
    if groups == [] then []
    else
      assert Whole(groups[0]);
      var v := Meaning(Flatten(groups[0])).view;
      [v] + if v.linger then Views(groups[1..]) else []
  }

  /** A client that sends each request in reads of its own, cut as it likes where no body is cut, is
      answered in order, request by request, up to the first that does not linger. */
  lemma {:induction false} RequestsInOrder(groups: seq<seq<seq<char>>>)
    requires forall i :: 0 <= i < |groups| ==> Whole(groups[i])
    ensures WF(Init()) && Session(Init(), Concat(groups)) == Views(groups)
    decreases |groups|
  {
    hide Meaning, Behind, Uncut, WF, Run, Reads, Observe, Session;
    InitWF();
    if groups == [] {
      NothingRead();
    } else {
      var g, more := groups[0], Concat(groups[1..]);
      assert Whole(g);
      WholeReads(g, more);
      SessionStep(Init(), g + more);
      assert (g + more)[..|g|] == g && (g + more)[|g|..] == more;
      ReadsComputeMeaning(g);
      ObserveLinger(Run(Init(), g, AsWritten).1);
      RequestsInOrder(groups[1..]);
    }
  }
}
