/** What a request means, defined on the plain input without a buffer, indices or in-place
    writes; process_read is proved to compute it. */
module Reference {
  import opened Common
  import opened CString
  import opened RequestParser
  import opened Observation
  import opened ChunkIndependence
  import opened ChunkedRuns

  // ------------------------------------------------------------- the meaning

  /** The first line and what follows its CR LF; None when no line is complete or the first
      line break is not CR LF. */
  function FirstLine(r: seq<char>): Option<(seq<char>, seq<char>)> {
    var k := Scan(r, 0, Break);
    if k + 1 < |r| && r[k] == CR && r[k + 1] == LF then Some((r[..k], r[k + 2..])) else None
  }

  /** The path in a request target, from the first '/' behind the host in absolute form. */
  function Path(target: seq<char>): (Code, seq<char>) {
    match StripOne(target, "http://")
    case None => (Undefined, [])
    case Some(u) =>
      match StripOne(u, "https://")
      case None => (BadRequest, [])
      case Some(path) =>
        if path == [] || path[0] != '/' then (BadRequest, [])
        else (NoRequest, if |path| == 1 then "/judge.html" else path)
  }

  function StripOne(target: seq<char>, scheme: seq<char>): Option<seq<char>> {
    if HasPrefixCI(target, scheme) then
      var k := Scan(target, |scheme|, SlashOrNul);
      if k < |target| then Some(target[k..]) else None
    else Some(target)
  }

  /** Method, target and version are separated by single blanks; names match in any case. */
  function MeaningOfRequestLine(t: seq<char>): (Code, Method, seq<char>) {
    var i := Scan(t, 0, BlankOrNul);
    if i == |t| then (BadRequest, Get, [])
    else if EqCI(t[..i], "GET") then MeaningOfTarget(t[i + 1..], Get)
    else if EqCI(t[..i], "POST") then MeaningOfTarget(t[i + 1..], Post)
    else (BadRequest, Get, [])
  }

  function MeaningOfTarget(t: seq<char>, m: Method): (Code, Method, seq<char>) {
    var j := Scan(t, 0, BlankOrNul);
    if j == |t| || !EqCI(t[j + 1..], "HTTP/1.1") then (BadRequest, m, [])
    else (Path(t[..j]).0, m, Path(t[..j]).1)
  }

  function MeaningOfHeader(t: seq<char>, v: View): View {
    var f := Classify(t);
    var value := t[Skip(t, NameLength(f), Blank)..];
    match f
    case Connection => if EqCI(value, "keep-alive") then v.(linger := true) else v
    case ContentLength => v.(clen := ToInt32(Atol(value)))
    case Host => v.(host := Some(value))
    case _ => v
  }

  /** `Garbled`: a negative content length, for which the terminator of the body is written into
      bytes already parsed, at position `cut`. */
  datatype Verdict = Unfinished(clen: int) | Rejected | Garbled(view: View, cut: nat) | Ill | Accepted(view: View)

  function MeaningOfBody(r: seq<char>, at: nat, v: View): Verdict {
    if at + v.clen > INT_MAX || at + v.clen < 0 then Ill
    else if v.clen < 0 then Garbled(v, at + v.clen)
    else if |r| < v.clen then Unfinished(v.clen)
    else Accepted(v.(body := Some(Str(r[..v.clen], 0))))
  }

  function MeaningOfHeaders(r: seq<char>, at: nat, v: View): Verdict
    decreases |r|
  {
    match FirstLine(r)
    case None => Unfinished(0)
    case Some((line, rest)) =>
      var t := Str(line, 0);
      if t != [] then MeaningOfHeaders(rest, at + |line| + 2, MeaningOfHeader(t, v))
      else if v.clen == 0 then Accepted(v)
      else MeaningOfBody(rest, at + |line| + 2, v)
  }

  function Meaning(s: seq<char>): Verdict {
    match FirstLine(s)
    case None => Unfinished(0)
    case Some((line, rest)) =>
      var (c, m, u) := MeaningOfRequestLine(Str(line, 0));
      match c
      case NoRequest => MeaningOfHeaders(rest, |line| + 2, View(m, m == Post, Some(u), None, false, 0, None))
      case Undefined => Ill
      case _ => Rejected
  }

  // ------------------------------------------------------ strings inside the buffer

  /** A scan of a C string in place is the scan of the string itself. */
  lemma {:induction false} ScanShift(s: seq<char>, i: nat, t: seq<char>, j: nat, stop: Bytes)
    requires j <= |t| && i + |t| < |s| && s[i..i + |t|] == t && stop.Has(s[i + |t|])
    ensures Scan(s, i + j, stop) == i + Scan(t, j, stop)
  {
    hide Scan;
    var n := Scan(t, j, stop);
    assert forall m :: 0 <= m < |t| ==> s[i + m] == t[m] by {
      forall m | 0 <= m < |t| ensures s[i + m] == t[m] {
        assert s[i..i + |t|][m] == s[i + m];
      }
    }
    forall m | i + j <= m < i + n ensures !stop.Has(s[m]) {
      assert s[i + (m - i)] == t[m - i];
    }
    assert n < |t| ==> s[i + n] == t[n];
    ScanIs(s, i + j, stop, i + n);
  }

  /** The C string at `i` and what the scan that found its end says. */
  lemma {:induction false} StrFacts(s: seq<char>, i: nat)
    requires i <= |s| && Scan(s, i, Nul) < |s|
    ensures var t := Str(s, i);
      i + |t| < |s| && s[i..i + |t|] == t && s[i + |t|] == NUL && forall k :: 0 <= k < |t| ==> t[k] != NUL
  {
  }

  lemma SliceOfStr(s: seq<char>, i: nat, j: nat)
    requires i <= |s| && j <= |Str(s, i)|
    ensures i + j <= |s| && s[i..i + j] == Str(s, i)[..j]
  {
  }

  /** The tail of a C string is the C string behind its head. */
  lemma {:induction false} StrTail(s: seq<char>, i: nat, j: nat)
    requires i <= |s| && Scan(s, i, Nul) < |s| && j <= |Str(s, i)|
    ensures Str(s, i + j) == Str(s, i)[j..] && Scan(s, i + j, Nul) == Scan(s, i, Nul)
  {
    var n := Scan(s, i, Nul);
    ScanIs(s, i + j, Nul, n);
  }

  lemma {:induction false} SkipShift(s: seq<char>, i: nat, t: seq<char>, j: nat)
    requires j <= |t| && i + |t| < |s| && s[i..i + |t|] == t && s[i + |t|] == NUL
    ensures Skip(s, i + j, Blank) == i + Skip(t, j, Blank)
  {
    hide Skip;
    var n := Skip(t, j, Blank);
    forall m | 0 <= m < |t| ensures s[i + m] == t[m] {
      assert s[i..i + |t|][m] == s[i + m];
    }
    forall m | i + j <= m < i + n ensures Blank.Has(s[m]) {
      assert s[i + (m - i)] == t[m - i];
    }
    assert n < |t| ==> s[i + n] == t[n];
    SkipIs(s, i + j, Blank, i + n);
  }

  // ----------------------------------------------------------- the request line

  lemma {:induction false} StripRefines(buf: seq<char>, url: nat, scheme: seq<char>)
    requires url <= |buf| && Scan(buf, url, Nul) < |buf|
    ensures var (u, t) := (StripScheme(buf, url, scheme), StripOne(Str(buf, url), scheme));
      && (u == NULL <==> t == None)
      && (u != NULL ==> Str(buf, u) == t.value)
  {
    hide HasPrefixCI, Scan;
    var t := Str(buf, url);
    StrFacts(buf, url);
    if HasPrefixCI(t, scheme) {
      PrefixIsShorter(t, scheme);
      ScanShift(buf, url, t, |scheme|, SlashOrNul);
      var k := Scan(t, |scheme|, SlashOrNul);
      StrTail(buf, url, k);
      assert k < |t| ==> buf[url..url + |t|][k] == buf[url + k];
    }
  }

  /** A parser of the request line yields the code and, if it goes on, the path. */
  predicate Yields(r: (Code, Parser), c: Code, path: seq<char>) {
    r.0 == c && (c == NoRequest ==> Text(r.1.buf, r.1.url) == Some(path))
  }

  lemma {:induction false} PathRefines(p: Parser)
    requires Cut(p)
    ensures var (c, path) := Path(Str(p.buf, p.url)); Yields(ParseUrl(p), c, path)
  {
    hide Scan, EqCI, HasPrefixCI, WelcomePage, StripScheme, StripOne, Str;
    StripRefines(p.buf, p.url, "http://");
    var u := StripScheme(p.buf, p.url, "http://");
    CutMoves(p);
    if u != NULL {
      StripRefines(p.buf, u, "https://");
      var v := StripScheme(p.buf, u, "https://");
      if v != NULL {
        StrFacts(p.buf, v);
        var (c, w) := FindPath(p.buf, p.url);
        assert w == v;
        if c == NoRequest {
          WelcomeRefines(p.(url := v));
        }
      }
    }
  }

  lemma {:induction false} WelcomeRefines(p: Parser)
    requires Cut(p) && p.buf[p.url] == '/'
    ensures Str(WelcomePage(p).buf, p.url) == if |Str(p.buf, p.url)| == 1 then "/judge.html" else Str(p.buf, p.url)
  {
    hide Scan, EqCI;
    StrFacts(p.buf, p.url);
    if |Str(p.buf, p.url)| == 1 {
      RewriteFits(p);
      WelcomeText(Overwrite(p.buf, p.url + 1, JUDGE), p.url);
    }
  }

  lemma {:induction false} WelcomeText(b: seq<char>, url: nat)
    requires url + 1 + |JUDGE| <= |b| && b[url] == '/'
    requires forall i :: url + 1 <= i < url + 1 + |JUDGE| ==> b[i] == JUDGE[i - (url + 1)]
    ensures Str(b, url) == "/judge.html"
  {
    hide Scan;
    var page := "/judge.html\0";
    forall k | 0 <= k < 12 ensures b[url + k] == page[k] {
      if k > 0 {
        assert b[url + k] == JUDGE[k - 1];
      }
    }
    assert b[url..url + 12] == page;
    assert forall k :: 0 <= k < 11 ==> page[k] != NUL;
    forall k | url <= k < url + 11 ensures !Nul.Has(b[k]) {
      assert b[url + (k - url)] == page[k - url];
    }
    ScanIs(b, url, Nul, url + 11);
    assert b[url..url + 11] == b[url..url + 12][..11] == "/judge.html";
  }

  lemma {:induction false} ParseVersionStep(p: Parser, j: nat)
    requires 0 < p.url && LineAt(p, p.url)
    requires j == Scan(p.buf, p.url, BlankOrNul) < p.check - 2 && p.buf[j] != NUL
    ensures var q := SplitVersion(p, j);
      if EqCI(Str(q.buf, q.version), "HTTP/1.1") then Cut(q) && ParseVersion(p) == ParseUrl(q)
      else ParseVersion(p) == (BadRequest, q)
  {
    hide Scan, EqCI, ParseUrl, Str;
  }

  lemma {:induction false} TargetRefines(p: Parser, m: Method)
    requires 0 < p.url && LineAt(p, p.url)
    requires Scan(p.buf, p.url, Nul) < |p.buf|
    ensures var (c, m', path) := MeaningOfTarget(Str(p.buf, p.url), m);
      m' == m && Yields(ParseVersion(p), c, path)
  {
    hide Scan, EqCI, ParseUrl, Path, SplitVersion, Text, Str, Cut;
    var t := Str(p.buf, p.url);
    StrFacts(p.buf, p.url);
    ScanShift(p.buf, p.url, t, 0, BlankOrNul);
    var j := Scan(t, 0, BlankOrNul);
    if j < |t| {
      assert p.buf[p.url..p.url + |t|][j] == p.buf[p.url + j];
      TargetWithVersion(p, m, j);
    }
  }

  lemma {:induction false} TargetWithVersion(p: Parser, m: Method, j: nat)
    requires 0 < p.url && LineAt(p, p.url)
    requires Scan(p.buf, p.url, Nul) < |p.buf| && j < |Str(p.buf, p.url)|
    requires Scan(Str(p.buf, p.url), 0, BlankOrNul) == j && Scan(p.buf, p.url, BlankOrNul) == p.url + j
    requires p.buf[p.url + j] != NUL
    ensures var (c, m', path) := MeaningOfTarget(Str(p.buf, p.url), m);
      m' == m && Yields(ParseVersion(p), c, path)
  {
    hide Scan, EqCI, ParseUrl, Path, SplitVersion, Text, Str, ParseVersion;
    SplitRefines(p, j);
    ParseVersionStep(p, p.url + j);
    var q := SplitVersion(p, p.url + j);
    if EqCI(Str(q.buf, q.version), "HTTP/1.1") {
      PathRefines(q);
    }
  }

  lemma {:induction false} ParseVersionKeepsMethod(p: Parser)
    requires 0 < p.url && LineAt(p, p.url)
    ensures ParseVersion(p).1.meth == p.meth && ParseVersion(p).1.cgi == p.cgi
  {
    hide Scan, EqCI, FindPath, Str;
  }

  lemma {:induction false} SplitRefines(p: Parser, j: nat)
    requires 0 < p.url && LineAt(p, p.url)
    requires Scan(p.buf, p.url, Nul) < |p.buf|
    requires j < |Str(p.buf, p.url)| && p.url + j == Scan(p.buf, p.url, BlankOrNul)
    requires p.buf[p.url + j] != NUL
    ensures p.url + j < p.check - 2
    ensures var (q, t) := (SplitVersion(p, p.url + j), Str(p.buf, p.url));
      Str(q.buf, q.url) == t[..j] && Str(q.buf, q.version) == t[j + 1..]
  {
    hide Scan;
    ScanStopsBy(p.buf, p.url, BlankOrNul, p.check - 2);
    var q, t := SplitVersion(p, p.url + j), Str(p.buf, p.url);
    SliceOfStr(p.buf, p.url, j);
    assert q.buf[p.url..p.url + j] == p.buf[p.url..p.url + j];
    StrTail(p.buf, p.url, j + 1);
    var n := Scan(p.buf, p.url, Nul);
    ScanIs(q.buf, q.version, Nul, n);
    assert q.buf[q.version..n] == p.buf[q.version..n];
  }

  lemma {:induction false} RequestLineRefines(p: Parser, text: nat)
    requires LineAt(p, text)
    ensures var (c, m, path) := MeaningOfRequestLine(Str(p.buf, text)); var r := ParseRequestLine(p, text);
      Yields(r, c, path) && (c == NoRequest ==> r.1.meth == m && r.1.cgi == (p.cgi || m == Post))
  {
    hide Scan, EqCI, ParseVersion, MeaningOfTarget, Text;
    ScanStopsBy(p.buf, text, Nul, p.check - 2);
    ScanStopsBy(p.buf, text, BlankOrNul, p.check - 2);
    var t := Str(p.buf, text);
    StrFacts(p.buf, text);
    ScanShift(p.buf, text, t, 0, BlankOrNul);
    var i := Scan(t, 0, BlankOrNul);
    if i < |t| {
      assert p.buf[text..text + |t|][i] == p.buf[text + i];
      SliceOfStr(p.buf, text, i);
      RequestLineWithTarget(p, text, i);
    }
  }

  lemma {:induction false} RequestLineWithTarget(p: Parser, text: nat, i: nat)
    requires LineAt(p, text) && Scan(p.buf, text, Nul) < |p.buf| && i < |Str(p.buf, text)|
    requires Scan(Str(p.buf, text), 0, BlankOrNul) == i && Scan(p.buf, text, BlankOrNul) == text + i < p.check - 2
    requires p.buf[text + i] != NUL && p.buf[text..text + i] == Str(p.buf, text)[..i]
    ensures var (c, m, path) := MeaningOfRequestLine(Str(p.buf, text)); var r := ParseRequestLine(p, text);
      Yields(r, c, path) && (c == NoRequest ==> r.1.meth == m && r.1.cgi == (p.cgi || m == Post))
  {
    hide Scan, EqCI, ParseVersion, MeaningOfTarget, Text, Str;
    NameCut(p, text, i);
    var q := p.(buf := p.buf[text + i := NUL], url := text + i + 1);
    ParseVersionKeepsMethod(q.(meth := Get));
    ParseVersionKeepsMethod(q.(meth := Post, cgi := true));
    TargetRefines(q.(meth := Get), Get);
    TargetRefines(q.(meth := Post, cgi := true), Post);
  }

  /** Cutting off the method leaves the rest of the line as the C string behind it. */
  lemma {:induction false} NameCut(p: Parser, text: nat, i: nat)
    requires LineAt(p, text) && Scan(p.buf, text, Nul) < |p.buf| && i < |Str(p.buf, text)|
    ensures var b := p.buf[text + i := NUL];
      Scan(b, text + i + 1, Nul) < |b| && Str(b, text + i + 1) == Str(p.buf, text)[i + 1..]
  {
    hide Scan;
    var b, n := p.buf[text + i := NUL], Scan(p.buf, text, Nul);
    ScanIs(b, text + i + 1, Nul, n);
    assert b[text + i + 1..n] == p.buf[text + i + 1..n];
  }

  // ---------------------------------------------------------------- the headers

  lemma {:induction false} HeaderRefines(p: Parser, text: nat)
    requires LineAt(p, text) && WF(p) && p.start == p.check && p.state == Header && text > 0
    requires Str(p.buf, text) != []
    ensures var (c, q) := ParseHeader(p, text);
      c == NoRequest && q.state == Header && Observe(q) == MeaningOfHeader(Str(p.buf, text), Observe(p))
  {
    hide Scan, EqCI, Classify, Atol, Skip, ParseHeader, MeaningOfHeader, Observe, WF;
    ScanStopsBy(p.buf, text, Nul, p.check - 2);
    var t := Str(p.buf, text);
    var n := NameLength(Classify(t));
    StrFacts(p.buf, text);
    SkipShift(p.buf, text, t, n);
    StrTail(p.buf, text, Skip(t, n, Blank));
    NonEmpty(t);
    NoBodyPointer(p);
    HeaderCases(p, text);
  }

  lemma {:induction false} HeaderCases(p: Parser, text: nat)
    requires LineAt(p, text) && p.state == Header && p.body == NULL && Str(p.buf, text) != []
    requires var t := Str(p.buf, text); var n := NameLength(Classify(t));
      && text + n <= |p.buf| && Classify(t) != NoField
      && Skip(p.buf, text + n, Blank) == text + Skip(t, n, Blank)
      && Str(p.buf, Skip(p.buf, text + n, Blank)) == t[Skip(t, n, Blank)..]
    ensures var (c, q) := ParseHeader(p, text);
      c == NoRequest && q.state == Header && Observe(q) == MeaningOfHeader(Str(p.buf, text), Observe(p))
  {
    hide Scan, EqCI, Classify, Atol, Skip, Text, Str, ToInt32;
    var value := Skip(p.buf, text + NameLength(Classify(Str(p.buf, text))), Blank);
    TextIs(p.buf, value);
    TextNull(p.buf);
  }

  lemma NoBodyPointer(p: Parser)
    requires WF(p)
    ensures p.body == NULL
  {
  }

  lemma NonEmpty(t: seq<char>)
    requires t != []
    ensures Classify(t) != NoField
  {
  }

  lemma TextIs(buf: seq<char>, i: nat)
    requires i <= |buf|
    ensures Text(buf, i) == Some(Str(buf, i))
  {
  }

  lemma TextNull(buf: seq<char>)
    ensures Text(buf, NULL) == None
  {
  }

  // ------------------------------------------------------------------ the loop

  /** A scan of the rest of the buffer in place is the scan of that rest. */
  lemma {:induction false} ScanRest(s: seq<char>, i: nat, stop: Bytes)
    requires i <= |s|
    ensures Scan(s, i, stop) == i + Scan(s[i..], 0, stop)
  {
    hide Scan;
    var r := s[i..];
    var k := Scan(r, 0, stop);
    assert forall m :: 0 <= m < |r| ==> r[m] == s[i + m];
    forall m | i <= m < i + k ensures !stop.Has(s[m]) {
      assert s[i + (m - i)] == r[m - i];
    }
    ScanIs(s, i, stop, i + k);
  }

  /** The first line of the rest of a buffer, and what is behind it once it is cut off in place. */
  lemma {:induction false} FirstLineAt(buf: seq<char>, i: nat)
    requires i <= |buf|
    ensures var k := Scan(buf, i, Break); var f := FirstLine(buf[i..]);
      && (f.Some? <==> k + 1 < |buf| && buf[k] == CR && buf[k + 1] == LF)
      && (f.Some? ==>
            var b := buf[k := NUL][k + 1 := NUL];
            f.value.0 == buf[i..k] == b[i..k] && f.value.1 == buf[k + 2..] == b[k + 2..])
  {
    hide Scan;
    ScanRest(buf, i, Break);
    var r, k := buf[i..], Scan(buf, i, Break);
    assert k < |buf| ==> r[k - i] == buf[k];
    assert k + 1 < |buf| ==> r[k - i + 1] == buf[k + 1];
    if k + 1 < |buf| {
      assert r[..k - i] == buf[i..k] && r[k - i + 2..] == buf[k + 2..];
    }
  }

  /** The line that parse_line delivers, and what is left, are those of the plain input. */
  lemma {:induction false} LineRefines(p: Parser)
    requires WF(p)
    ensures var (s, q) := ParseLine(p); var f := FirstLine(p.buf[p.check..]);
      && (s == LineOk <==> f != None)
      && (s == LineOk ==>
            && q == p.(buf := q.buf, check := p.check + |f.value.0| + 2)
            && q.buf[q.check..] == f.value.1
            && Str(q.buf, p.check) == Str(f.value.0, 0))
  {
    hide Scan, WF, ParseLine, Str, FirstLine;
    LineShape(p);
    FirstLineAt(p.buf, p.check);
    if ParseLine(p).0 == LineOk {
      var k := Scan(p.buf, p.check, Break);
      CutLineText(p.buf, p.check, k - p.check);
      assert p.buf[p.check..][..k - p.check] == p.buf[p.check..k];
    }
  }

  lemma {:induction false} CutLineText(buf: seq<char>, at: nat, k: nat)
    requires at + k + 1 < |buf|
    ensures Str(buf[at + k := NUL][at + k + 1 := NUL], at) == Str(buf[at..][..k], 0)
  {
    hide Scan;
    var b, line := buf[at + k := NUL][at + k + 1 := NUL], buf[at..][..k];
    assert b[at..at + k] == line;
    ScanShift(b, at, line, 0, Nul);
    var n := Scan(line, 0, Nul);
    assert b[at..at + n] == b[at..at + k][..n] == line[..n];
  }

  /** A string at `ptr` behind a terminator at position k. */
  function CutText(t: Option<seq<char>>, ptr: int, k: nat): Option<seq<char>> {
    match t
    case None => None
    case Some(x) => if ptr <= k < ptr + |x| then Some(x[..k - ptr]) else t
  }

  /** A view whose url or host, where the parser has them, is cut at position k. */
  function Truncated(v: View, p: Parser, k: nat): View {
    v.(url := CutText(v.url, p.url, k), host := CutText(v.host, p.host, k))
  }

  predicate Agrees(r: (Code, Parser), m: Verdict) {
    match m
    case Unfinished(clen) => r.0 == NoRequest || (r.0 == Undefined && clen > INT_MAX - |r.1.buf|)
    case Rejected => r.0 == BadRequest && !r.1.linger
    case Ill => r.0 == Undefined
    case Garbled(v, k) => r.0 == GetRequest && Observe(r.1) == Truncated(v, r.1, k)
    case Accepted(v) => r.0 == GetRequest && Observe(r.1) == v
  }

  lemma {:induction false} BodyRefines(p: Parser, v: Variant)
    requires WF(p) && p.state == Content && p.start == p.check
    ensures Agrees(Loop(p, LineOk, v), MeaningOfBody(p.buf[p.check..], p.check, Observe(p)))
  {
    hide Scan, ParseLine, LineTurn, Observe, Truncated, Settled, Str;
    ObserveLength(p);
    ContentWF(p);
    var (c, q) := ContentTurn(p);
    if c == NoRequest {
      assert Incomplete(p);
      IncompleteStays(p, LineOk);
    } else if c == GetRequest && p.clen >= 0 {
      BodyObserved(p);
    } else if c == GetRequest {
      GarbledObserved(p);
    }
  }

  /** A terminator in front of the body cuts the string it falls into. */
  lemma {:induction false} GarbledObserved(p: Parser)
    requires WF(p) && p.state == Content && p.start == p.check
    requires p.clen < 0 <= p.check + p.clen && p.check + p.clen <= INT_MAX
    ensures Observe(ContentTurn(p).1) == Truncated(Observe(p), ContentTurn(p).1, p.check + p.clen)
  {
    hide Scan, Text, Str;
    var k := p.check + p.clen;
    CutString(p.buf, p.url, p.start, k);
    CutString(p.buf, p.host, p.start, k);
  }

  lemma {:induction false} CutString(buf: seq<char>, ptr: int, limit: nat, k: nat)
    requires limit <= |buf| && Settled(buf, ptr, limit) && k < |buf|
    ensures Text(buf[k := NUL], ptr) == CutText(Text(buf, ptr), ptr, k)
  {
    hide Scan;
    if ptr != NULL {
      var b, n := buf[k := NUL], Scan(buf, ptr, Nul);
      var m := if ptr <= k < n then k else n;
      ScanIs(b, ptr, Nul, m);
      assert b[ptr..m] == buf[ptr..m];
      assert m == k ==> Str(buf, ptr)[..k - ptr] == buf[ptr..k];
    }
  }

  /** A complete body is the text from m_start_line on, which need not be where m_check_index is. */
  lemma {:induction false} BodyObserved(p: Parser)
    requires WF(p) && p.state == Content && p.clen >= 0
    requires p.check + p.clen <= |p.buf| && p.check + p.clen <= INT_MAX
    ensures Observe(ContentTurn(p).1) == Observe(p).(body := Some(Str(p.buf[p.start..][..p.clen], 0)))
  {
    hide Scan, Str;
    var k := p.start + p.clen;
    var q := ContentTurn(p).1;
    assert q.buf == Terminate(p.buf, k);
    assert q.buf[..p.start] == p.buf[..p.start];
    SettledFrame(p.buf, q.buf, p.url, p.start, p.start);
    SettledFrame(p.buf, q.buf, p.host, p.start, p.start);
    TerminatedText(p.buf, p.start, k);
  }

  /** The C string at the start of a terminated body is that of its bytes. */
  lemma {:induction false} TerminatedText(buf: seq<char>, i: nat, k: nat)
    requires i <= k <= |buf|
    ensures Str(Terminate(buf, k), i) == Str(buf[i..][..k - i], 0)
  {
    hide Scan;
    var b, t := Terminate(buf, k), buf[i..][..k - i];
    assert b[i..k] == t;
    if k < |b| {
      ScanShift(b, i, t, 0, Nul);
      var n := Scan(t, 0, Nul);
      assert b[i..i + n] == b[i..k][..n] == t[..n];
    } else {
      SuffixText(b, i);
      assert b[i..] == t;
    }
  }

  lemma {:induction false} SuffixText(s: seq<char>, i: nat)
    requires i <= |s|
    ensures Str(s, i) == Str(s[i..], 0)
  {
    var n := Scan(s[i..], 0, Nul);
    assert forall m :: 0 <= m < |s| - i ==> s[i..][m] == s[i + m];
    forall m | i <= m < i + n ensures !Nul.Has(s[m]) {
      assert s[i..][m - i] == s[m];
    }
    ScanIs(s, i, Nul, i + n);
    assert s[i..i + n] == s[i..][..n];
  }

  /** The turn on a header line, or on the blank line that ends them. */
  lemma {:induction false} HeaderTurnRefines(p: Parser)
    requires WF(p) && p.state == Header && p.start == p.check > 0 && FirstLine(p.buf[p.check..]).Some?
    ensures var (line, rest) := FirstLine(p.buf[p.check..]).value; var t := Str(line, 0);
      var (more, c, q) := LineTurn(p);
      && q.check == p.check + |line| + 2 && q.start == q.check && q.buf[q.check..] == rest && WF(q)
      && Observe(q) == (if t != [] then MeaningOfHeader(t, Observe(p)) else Observe(p))
      && c == (if t != [] || p.clen != 0 then NoRequest else GetRequest) && more == (c == NoRequest)
      && q.state == (if t == [] && p.clen != 0 then Content else Header)
  {
    hide Scan, ParseLine, ParseHeader, Observe, Settled, MeaningOfHeader, FirstLine, Str;
    LineRefines(p);
    LineWF(p);
    var q := ParseLine(p).1;
    var q1 := q.(start := q.check);
    LineObserve(p);
    ObserveStart(q);
    DispatchWF(q1, p.start);
    if Str(q.buf, p.check) != [] {
      HeaderRefines(q1, p.start);
      HeaderKeeps(q1, p.start);
    } else {
      EndOfHeaders(q1, p.start);
      ObserveState(q1, Content);
    }
  }

  lemma {:induction false} HeadersRefine(p: Parser, v: Variant)
    requires WF(p) && p.state == Header && p.start == p.check > 0
    ensures Agrees(Loop(p, LineOk, v), MeaningOfHeaders(p.buf[p.check..], p.check, Observe(p)))
    decreases |p.buf| - p.check
  {
    hide Loop, LineTurn, Observe, WF, MeaningOfHeader, MeaningOfBody, FirstLine, Str;
    LoopTurn(p, v);
    ObserveLength(p);
    if FirstLine(p.buf[p.check..]).Some? {
      HeaderTurnRefines(p);
      var (more, c, q) := LineTurn(p);
      if q.state == Content {
        BodyRefines(q, v);
      } else if more {
        HeadersRefine(q, v);
      }
    } else {
      NoLine(p);
    }
  }

  lemma HeaderKeeps(p: Parser, text: nat)
    requires LineAt(p, text)
    ensures ParseHeader(p, text).1.start == p.start && ParseHeader(p, text).1.buf == p.buf
  {
  }

  lemma EndOfHeaders(p: Parser, text: nat)
    requires LineAt(p, text) && Str(p.buf, text) == []
    ensures ParseHeader(p, text) == if p.clen != 0 then (NoRequest, p.(state := Content)) else (GetRequest, p)
  {
  }

  lemma ObserveLength(p: Parser)
    ensures Observe(p).clen == p.clen
  {
  }

  lemma ObserveState(p: Parser, state: CheckState)
    ensures Observe(p.(state := state)) == Observe(p)
  {
  }

  /** The turn on the first line. */
  lemma {:induction false} FirstTurnRefines(s: seq<char>)
    requires WF(Append(Init(), s)) && FirstLine(s).Some?
    ensures var (line, rest) := FirstLine(s).value;
      var (c', m, u) := MeaningOfRequestLine(Str(line, 0));
      var (more, c, q) := LineTurn(Append(Init(), s));
      && c == c' && c in {NoRequest, BadRequest, Undefined} && more == (c == NoRequest) && !q.linger
      && (more ==>
            && WF(q) && q.state == Header && q.start == q.check == |line| + 2
            && q.buf[q.check..] == rest
            && Observe(q) == View(m, m == Post, Some(u), None, false, 0, None))
  {
    hide Scan, ParseLine, ParseRequestLine, Settled, MeaningOfRequestLine, FirstLine, Observe, Str;
    var p := Append(Init(), s);
    assert p.buf[p.check..] == s;
    LineRefines(p);
    LineWF(p);
    var q := ParseLine(p).1;
    var q1 := q.(start := q.check);
    RequestLineRefines(q1, 0);
    RequestLineWF(q1, 0);
    var (c, q2) := ParseRequestLine(q1, 0);
    if c == NoRequest {
      assert q2.buf[q2.check..] == q1.buf[q1.check..];
      RequestLineObserved(q1, q2);
    }
  }

  /** process_read computes the meaning of what was received. */
  lemma {:induction false} ProcessReadComputesMeaning(s: seq<char>, v: Variant)
    ensures WF(Append(Init(), s))
    ensures Agrees(Loop(Append(Init(), s), LineOk, v), Meaning(s))
  {
    hide LineTurn, Loop, MeaningOfRequestLine, FirstLine, MeaningOfHeaders, Observe, WF, Str, Scan, Settled, Agrees;
    ReceivedWF(s);
    var p := Append(Init(), s);
    LoopTurn(p, v);
    if FirstLine(s).Some? {
      FirstTurnRefines(s);
      var (more, c, q) := LineTurn(p);
      if more {
        HeadersRefine(q, v);
      } else {
        EndsThere((c, q), c);
      }
    } else {
      NoLine(p);
      EndsThere((NoRequest, LineTurn(p).2), NoRequest);
    }
  }

  /** Verdicts that are reached on the first line. */
  lemma EndsThere(r: (Code, Parser), c: Code)
    requires r.0 == c && (c == BadRequest ==> !r.1.linger)
    ensures c == NoRequest ==> Agrees(r, Unfinished(0))
    ensures c == BadRequest ==> Agrees(r, Rejected)
    ensures c == Undefined ==> Agrees(r, Ill)
  {
  }

  lemma ReceivedWF(s: seq<char>)
    ensures WF(Append(Init(), s))
  {
    AppendWF(Init(), s);
  }

  lemma {:induction false} NoLine(p: Parser)
    requires WF(p) && FirstLine(p.buf[p.check..]) == None
    ensures !LineTurn(p).0 && LineTurn(p).1 == NoRequest
  {
    hide FirstLine, ParseLine;
    LineRefines(p);
  }

  lemma RequestLineObserved(p: Parser, q: Parser)
    requires p.host == NULL && p.body == NULL && p.clen == 0 && !p.linger && !p.cgi
    requires RequestLineKeeps(p, NoRequest, q)
    ensures Observe(q) == View(q.meth, q.cgi, Text(q.buf, q.url), None, false, 0, None)
  {
  }

  /** The null m_url is reached exactly by an absolute-form http target without a '/' behind the host. */
  lemma {:induction false} UndefinedTargetIff(target: seq<char>)
    requires NoNul(target)
    ensures Path(target).0 == Undefined <==>
      HasPrefixCI(target, "http://") && forall i :: 7 <= i < |target| ==> target[i] != '/'
  {
    hide HasPrefixCI;
    if HasPrefixCI(target, "http://") {
      PrefixIsShorter(target, "http://");
      var k := Scan(target, 7, SlashOrNul);
      assert k < |target| ==> target[k] == '/';
    }
  }

  /** When a body is handed over, and what is written then: one NUL, m_content_length behind
      m_start_line, inside the buffer; the call is undefined when the sum overflows or that place lies
      before the buffer. */
  lemma {:induction false} TerminatorInRange(p: Parser)
    requires WF(p) && p.state == Content && |p.buf| < READ_BUFF_SIZE
    ensures var (c, q) := ContentTurn(p);
      && (c == Undefined <==>
            p.check + p.clen > INT_MAX || (p.check + p.clen <= |p.buf| && p.start + p.clen < 0))
      && (c == GetRequest <==> p.check + p.clen <= |p.buf| && 0 <= p.start + p.clen)
      && (c == GetRequest ==>
            && |q.buf| == |p.buf| && q.body == p.start && p.start + p.clen <= |p.buf|
            && (forall i :: 0 <= i < |p.buf| ==> q.buf[i] == if i == p.start + p.clen then NUL else p.buf[i]))
  {
    Ordered(p);
  }

  // ------------------------------------------------------- lines of a known text

  predicate NoBreak(s: seq<char>) {
    forall i :: 0 <= i < |s| ==> !Break.Has(s[i])
  }

  predicate NoNul(s: seq<char>) {
    forall i :: 0 <= i < |s| ==> s[i] != NUL
  }

  /** No blank, line break or NUL. */
  predicate Plain(s: seq<char>) {
    forall i :: 0 <= i < |s| ==> !Blank.Has(s[i]) && !Break.Has(s[i]) && s[i] != NUL
  }

  lemma {:induction false} FirstLineIs(line: seq<char>, rest: seq<char>)
    requires NoBreak(line)
    ensures FirstLine(line + "\r\n" + rest) == Some((line, rest))
  {
    var r := line + "\r\n" + rest;
    assert forall i :: 0 <= i < |line| ==> r[i] == line[i];
    assert r[|line|] == CR && r[|line| + 1] == LF;
    ScanIs(r, 0, Break, |line|);
    assert r[..|line|] == line && r[|line| + 2..] == rest;
  }

  lemma {:induction false} WholeStr(t: seq<char>)
    requires NoNul(t)
    ensures Str(t, 0) == t
  {
    ScanIs(t, 0, Nul, |t|);
  }

  lemma {:induction false} JoinPlain(a: seq<char>, b: seq<char>)
    requires NoBreak(a) && NoNul(a) && NoBreak(b) && NoNul(b)
    ensures NoBreak(a + b) && NoNul(a + b)
  {
  }

  lemma {:induction false} ClassifyConnection(value: seq<char>)
    ensures Classify("Connection:" + value) == Connection
  {
    assert ("Connection:" + value)[..11] == "Connection:";
  }

  lemma {:induction false} ClassifyContentLength(value: seq<char>)
    ensures Classify("Content-Length:" + value) == ContentLength
  {
    var t := "Content-Length:" + value;
    assert t[..15] == "Content-Length:";
    DiffersAt(t, "Connection:", 3);
  }

  lemma {:induction false} ClassifyHost(value: seq<char>)
    ensures Classify("Host:" + value) == Host
  {
    var t := "Host:" + value;
    assert t[..5] == "Host:";
    DiffersAt(t, "Connection:", 0);
    DiffersAt(t, "Content-Length:", 0);
  }

  lemma {:induction false} DiffersAt(t: seq<char>, name: seq<char>, k: nat)
    requires k < |name| && (k < |t| ==> Lower(t[k]) != Lower(name[k]))
    ensures !HasPrefixCI(t, name)
  {
    if |name| <= |t| {
      assert t[..|name|][k] == t[k];
    }
  }

  /** One header line in front of others */
  lemma {:induction false} HeaderStep(line: seq<char>, rest: seq<char>, at: nat, v: View, w: View)
    requires line != [] && NoBreak(line) && NoNul(line) && MeaningOfHeader(line, v) == w
    ensures MeaningOfHeaders(line + "\r\n" + rest, at, v) == MeaningOfHeaders(rest, at + |line| + 2, w)
  {
    hide FirstLine, MeaningOfHeader, Str;
    FirstLineIs(line, rest);
    WholeStr(line);
  }
}
