/** The request side of http_conn as functions on values: the splitter `parse_line`, the three
    parsers and the loop of `process_read`, each from one parser state to the next.
    `buf` is the part of m_read_buf that has been received, m_read_buf[..m_read_index]; the bytes
    behind it are NUL.  Pointers into the buffer are positions; NULL is -1. */
module RequestParser {
  import opened CString

  const READ_BUFF_SIZE := 2048
  const NULL := -1

  datatype CheckState = RequestLine | Header | Content
  datatype LineStatus = LineOk | LineBad | LineOpen
  datatype Method = Get | Post

  /** HTTP_CODE, and `Undefined` for the calls whose behaviour C++ leaves undefined. */
  datatype Code = NoRequest | GetRequest | BadRequest | NoResource | ForbiddenRequest
                | FileRequest | InternalError | ClosedConnection | Undefined

  /** How the CONTENT case goes on when the body is incomplete: `AsWritten` falls back into
      parse_line, `Repaired` leaves the loop. */
  datatype Variant = AsWritten | Repaired

  datatype Parser = Parser(
    buf: seq<char>, check: nat, start: nat, state: CheckState,
    meth: Method, cgi: bool, url: int, version: int,
    clen: int, linger: bool, host: int, body: int)

  /** The state set by init(). */
  function Init(): Parser {
    Parser([], 0, 0, RequestLine, Get, false, NULL, NULL, 0, false, NULL, NULL)
  }

  /** A read: more bytes arrive behind the ones already buffered. */
  function Append(p: Parser, e: seq<char>): Parser {
    p.(buf := p.buf + e)
  }

  /** A pointer kept over calls is NULL or a C string that ends before `limit`. */
  predicate Settled(buf: seq<char>, ptr: int, limit: nat)
    requires limit <= |buf|
  {
    ptr == NULL || (0 <= ptr < limit && Scan(buf, ptr, Nul) < limit)
  }

  /** What every reachable state satisfies: the indices are ordered, the byte before the next
      one to examine is no CR, no line break lies between the start of the line and that
      byte, and the pointers to url and host end before the current line. */
  predicate WF(p: Parser) {
    && p.start <= p.check <= |p.buf|
    && (p.check > 0 ==> p.buf[p.check - 1] != CR)
    && (p.state != Content ==> forall i :: p.start <= i < p.check ==> !Break.Has(p.buf[i]))
    && Settled(p.buf, p.url, p.start)
    && Settled(p.buf, p.host, p.start)
    && (p.state != RequestLine ==> p.url != NULL)
    && -INT_MAX - 1 <= p.clen <= INT_MAX
    && p.body == NULL
  }

  /** parse_line */
  function ParseLine(p: Parser): (r: (LineStatus, Parser))
    requires p.check <= |p.buf|
    ensures r.1.check <= |r.1.buf| == |p.buf| && p.check <= r.1.check && r.1.start == p.start
    ensures r.0 == LineOk ==> p.check < r.1.check
  {
    var k := Scan(p.buf, p.check, Break);
    if k == |p.buf| then
      (LineOpen, p.(check := k))
    else if p.buf[k] == CR then
      if k + 1 == |p.buf| then (LineOpen, p.(check := k))
      else if p.buf[k + 1] == LF then (LineOk, p.(buf := p.buf[k := NUL][k + 1 := NUL], check := k + 2))
      else (LineBad, p.(check := k))
    else if k > 1 && p.buf[k - 1] == CR then
      (LineOk, p.(buf := p.buf[k - 1 := NUL][k := NUL], check := k + 1))
    else
      (LineBad, p.(check := k))
  }

  /** The line at `text` has been split off: two NULs end it, just before `check`. */
  predicate LineAt(p: Parser, text: nat) {
    && text + 2 <= p.check <= |p.buf|
    && p.buf[p.check - 2] == NUL && p.buf[p.check - 1] == NUL
  }

  /** What the parsers of the request line leave alone, and where they leave m_url. */
  predicate RequestLineKeeps(p: Parser, c: Code, q: Parser) {
    && c in {NoRequest, BadRequest, Undefined}
    && p.check <= |p.buf| && |q.buf| == |p.buf|
    && q == p.(buf := q.buf, url := q.url, version := q.version, meth := q.meth, cgi := q.cgi, state := q.state)
    && (forall i :: p.check <= i < |p.buf| ==> q.buf[i] == p.buf[i])
    && p.check > 0 && q.buf[p.check - 1] == NUL
    && (q.url == NULL || 0 <= q.url < p.check)
    && (c == NoRequest ==> q.state == Header && q.url != NULL)
  }

  /** parse_request_line */
  function ParseRequestLine(p: Parser, text: nat): (r: (Code, Parser))
    requires LineAt(p, text)
    ensures |r.1.buf| == |p.buf| && r.1.check == p.check && r.1.start == p.start
  {
    ScanStopsBy(p.buf, text, BlankOrNul, p.check - 2);
    var i := Scan(p.buf, text, BlankOrNul);
    if p.buf[i] == NUL then
      (BadRequest, p.(url := NULL))
    else
      var name := p.buf[text..i];
      var q := p.(buf := p.buf[i := NUL], url := i + 1);
      if EqCI(name, "GET") then ParseVersion(q.(meth := Get))
      else if EqCI(name, "POST") then ParseVersion(q.(meth := Post, cgi := true))
      else (BadRequest, q)
  }

  /** m_version starts behind the blank at j, which becomes the end of m_url. */
  function SplitVersion(p: Parser, j: nat): (q: Parser)
    requires 0 < p.url && LineAt(p, p.url)
    requires j == Scan(p.buf, p.url, BlankOrNul) < p.check - 2 && p.buf[j] != NUL
    ensures q == p.(buf := p.buf[j := NUL], version := j + 1)
    ensures Scan(q.buf, q.url, Nul) == j && LineAt(q, q.url)
  {
    var q := p.(buf := p.buf[j := NUL], version := j + 1);
    ScanIs(q.buf, p.url, Nul, j);
    q
  }

  /** parse_request_line from the search for the version on */
  function ParseVersion(p: Parser): (r: (Code, Parser))
    requires 0 < p.url && LineAt(p, p.url)
    ensures |r.1.buf| == |p.buf| && r.1.check == p.check && r.1.start == p.start
  {
    ScanStopsBy(p.buf, p.url, BlankOrNul, p.check - 2);
    var j := Scan(p.buf, p.url, BlankOrNul);
    if p.buf[j] == NUL then
      (BadRequest, p.(version := NULL))
    else
      CutReady(p, j);
      var q := SplitVersion(p, j);
      if IsVersion(q) then ParseUrl(q) else (BadRequest, q)
  }

  /** The version is HTTP/1.1, in some mix of cases. */
  predicate IsVersion(p: Parser)
    requires 0 <= p.version <= |p.buf|
  {
    EqCI(Str(p.buf, p.version), "HTTP/1.1")
  }

  lemma {:induction false} CutReady(p: Parser, j: nat)
    requires 0 < p.url && LineAt(p, p.url)
    requires j == Scan(p.buf, p.url, BlankOrNul) < p.check - 2 && p.buf[j] != NUL
    ensures IsVersion(SplitVersion(p, j)) ==> Cut(SplitVersion(p, j))
  {
    hide Scan, EqCI, Str;
  }

  /** Where the path starts behind an absolute-form prefix; NULL when no '/' follows the host. */
  function StripScheme(buf: seq<char>, url: nat, scheme: seq<char>): (u: int)
    requires url <= |buf| && Scan(buf, url, Nul) < |buf|
    ensures u == NULL || (url <= u <= Scan(buf, url, Nul) == Scan(buf, u, Nul))
  {
    if HasPrefixCI(Str(buf, url), scheme) then
      var k := Scan(buf, url + |scheme|, SlashOrNul);
      var e := Scan(buf, url, Nul);
      ScanIs(buf, url + |scheme|, Nul, e);
      ScanStopsBy(buf, url + |scheme|, SlashOrNul, e);
      ScanIs(buf, k, Nul, e);
      if buf[k] == '/' then k else NULL
    else url
  }

  /** The request line has been cut: m_url is a C string and m_version, right behind it, is
      "HTTP/1.1" in some mix of cases. */
  predicate Cut(p: Parser) {
    && 0 <= p.url < p.version < p.check && LineAt(p, p.url)
    && Scan(p.buf, p.url, Nul) == p.version - 1
    && IsVersion(p)
  }

  /** Where the path of the request target starts once absolute-form prefixes are stripped.
      Comparing a null m_url with "https://" is undefined. */
  function FindPath(buf: seq<char>, url: nat): (r: (Code, int))
    requires url <= |buf| && Scan(buf, url, Nul) < |buf|
    ensures r.0 in {NoRequest, BadRequest, Undefined}
    ensures r.1 == NULL || url <= r.1 <= Scan(buf, url, Nul)
    ensures r.0 == NoRequest ==>
      url <= r.1 < Scan(buf, url, Nul) == Scan(buf, r.1, Nul) && buf[r.1] == '/'
  {
    var u := StripScheme(buf, url, "http://");
    if u == NULL then (Undefined, NULL)
    else
      var v := StripScheme(buf, u, "https://");
      if v == NULL || buf[v] != '/' then (BadRequest, v) else (NoRequest, v)
  }

  /** "/" becomes "/judge.html", in place. */
  function WelcomePage(p: Parser): (q: Parser)
    requires Cut(p)
    ensures |q.buf| == |p.buf| && q == p.(buf := q.buf)
    ensures forall i :: 0 <= i <= p.url || p.check <= i < |p.buf| ==> q.buf[i] == p.buf[i]
    ensures q.buf[p.check - 1] == NUL
  {
    if |Str(p.buf, p.url)| == 1 then
      RewriteFits(p);
      p.(buf := Overwrite(p.buf, p.url + 1, JUDGE))
    else p
  }

  lemma {:induction false} CutMoves(p: Parser)
    requires Cut(p)
    ensures var (c, v) := FindPath(p.buf, p.url); c == NoRequest ==> Cut(p.(url := v))
  {
    hide FindPath, EqCI, Scan, Str;
  }

  /** parse_request_line from the absolute-form prefixes on */
  function ParseUrl(p: Parser): (r: (Code, Parser))
    requires Cut(p)
    ensures |r.1.buf| == |p.buf| && r.1.check == p.check && r.1.start == p.start
  {
    var (c, v) := FindPath(p.buf, p.url);
    CutMoves(p);
    if c == NoRequest then (c, WelcomePage(p.(url := v)).(state := Header)) else (c, p.(url := v))
  }

  /** What strcat writes behind the "/". */
  const JUDGE: seq<char> := "judge.html\0"

  /** The in-place rewriting of "/" to "/judge.html" stays below m_check_index: the last byte it
      writes is at most the second NUL of the line itself, so the next line is never touched. */
  lemma {:induction false} RewriteFits(p: Parser)
    requires Cut(p) && |Str(p.buf, p.url)| == 1
    ensures p.url + 2 == p.version
    ensures p.url + 1 + |JUDGE| <= p.check
  {
    var e := Scan(p.buf, p.version, Nul);
    assert |Str(p.buf, p.version)| == 8 == e - p.version;
    ScanStopsBy(p.buf, p.version, Nul, if p.version <= p.check - 2 then p.check - 2 else p.check - 1);
  }

  function Overwrite(s: seq<char>, at: nat, t: seq<char>): (r: seq<char>)
    requires at + |t| <= |s|
    ensures |r| == |s|
    ensures forall i :: 0 <= i < at || at + |t| <= i < |s| ==> r[i] == s[i]
    ensures forall i :: at <= i < at + |t| ==> r[i] == t[i - at]
  {
    s[..at] + t + s[at + |t|..]
  }

  datatype Field = NoField | Connection | ContentLength | Host | Other

  /** Which branch of parse_headers a line takes; an empty line ends the headers. */
  function Classify(line: seq<char>): (f: Field)
    ensures |line| >= NameLength(f)
  {
    if line == [] then NoField
    else if HasPrefixCI(line, "Connection:") then Connection
    else if HasPrefixCI(line, "Content-Length:") then ContentLength
    else if HasPrefixCI(line, "Host:") then Host
    else Other
  }

  function NameLength(f: Field): nat {
    match f
    case Connection => 11
    case ContentLength => 15
    case Host => 5
    case _ => 0
  }

  /** parse_headers */
  function ParseHeader(p: Parser, text: nat): (r: (Code, Parser))
    requires LineAt(p, text)
    ensures r.1 == p.(state := r.1.state, clen := r.1.clen, linger := r.1.linger, host := r.1.host)
    ensures r.0 == NoRequest || (r.0 == GetRequest && r.1 == p)
    ensures r.0 == NoRequest && r.1.state != p.state ==> r.1 == p.(state := Content) && p.clen != 0
    ensures r.1.clen == p.clen || -INT_MAX - 1 <= r.1.clen <= INT_MAX
    ensures r.1.host == p.host || text <= r.1.host < p.check
  {
    ScanStopsBy(p.buf, text, Nul, p.check - 2);
    var f := Classify(Str(p.buf, text));
    SkipStopsBy(p.buf, text + NameLength(f), Blank, p.check - 2);
    var value := Skip(p.buf, text + NameLength(f), Blank);
    match f
    case NoField => if p.clen != 0 then (NoRequest, p.(state := Content)) else (GetRequest, p)
    case Connection => (NoRequest, if EqCI(Str(p.buf, value), "keep-alive") then p.(linger := true) else p)
    case ContentLength => (NoRequest, p.(clen := ToInt32(Atol(Str(p.buf, value)))))
    case Host => (NoRequest, p.(host := value))
    case Other => (NoRequest, p)
  }

  /** parse_content.  The sum of two ints may overflow and a negative length may put the
      terminator before the buffer: both are undefined. */
  function ParseContent(p: Parser, text: nat): (r: (Code, Parser))
    requires text <= p.check <= |p.buf|
    ensures |r.1.buf| == |p.buf| && r.1.check == p.check && r.1.start == p.start
    ensures r.0 == NoRequest ==> r.1 == p
    ensures r.0 in {NoRequest, GetRequest, Undefined}
  {
    if p.check + p.clen > INT_MAX then
      (Undefined, p)
    else if |p.buf| >= p.check + p.clen then
      var k := text + p.clen;
      if k < 0 then (Undefined, p)
      else (GetRequest, p.(buf := if k < |p.buf| then p.buf[k := NUL] else p.buf, body := text))
    else
      (NoRequest, p)
  }

  // ------------------------------------------------ what the steps keep

  lemma InitWF()
    ensures WF(Init())
  {
  }

  lemma Ordered(p: Parser)
    requires WF(p)
    ensures p.start <= p.check <= |p.buf|
  {
  }

  lemma {:induction false} SettledByNul(buf: seq<char>, ptr: int, limit: nat)
    requires 0 <= ptr < limit <= |buf| && buf[limit - 1] == NUL
    ensures Settled(buf, ptr, limit)
  {
    ScanStopsBy(buf, ptr, Nul, limit - 1);
  }

  /** A string settled below `limit` stays settled, and the same, when nothing below changes. */
  lemma {:induction false} SettledFrame(a: seq<char>, b: seq<char>, ptr: int, limit: nat, limit': nat)
    requires limit <= limit' <= |b| && limit <= |a| && a[..limit] == b[..limit]
    requires Settled(a, ptr, limit)
    ensures Settled(b, ptr, limit')
    ensures ptr != NULL ==> Scan(b, ptr, Nul) == Scan(a, ptr, Nul) && Str(b, ptr) == Str(a, ptr)
  {
    if ptr != NULL {
      var k := Scan(a, ptr, Nul);
      assert forall j :: ptr <= j <= k ==> b[j] == b[..limit][j] == a[..limit][j] == a[j];
      ScanIs(b, ptr, Nul, k);
      assert a[ptr..k] == a[..limit][ptr..k] == b[..limit][ptr..k] == b[ptr..k];
    }
  }

  /** In a reachable state a complete line ends in CR LF at the first line break, so the
      branch of parse_line for an LF found behind a CR never delivers a line. */
  lemma {:induction false} LineShape(p: Parser)
    requires WF(p)
    ensures var (s, q) := ParseLine(p); var k := Scan(p.buf, p.check, Break);
      && (s == LineOk <==> k + 1 < |p.buf| && p.buf[k] == CR && p.buf[k + 1] == LF)
      && (s == LineOk ==> q == p.(buf := p.buf[k := NUL][k + 1 := NUL], check := k + 2))
      && (s != LineOk ==> q == p.(check := k))
  {
    hide Settled, Scan;
    var k := Scan(p.buf, p.check, Break);
    assert k > p.check ==> !Break.Has(p.buf[k - 1]);
  }

  lemma {:induction false} LineWF(p: Parser)
    requires WF(p)
    ensures var (s, q) := ParseLine(p);
      if s == LineOk then LineAt(q, q.start) && WF(q.(start := q.check)) else WF(q)
  {
    hide ParseLine, Scan;
    LineShape(p);
    var (s, q) := ParseLine(p);
    if s == LineOk {
      assert q.buf[..q.start] == p.buf[..p.start];
      SettledFrame(p.buf, q.buf, p.url, p.start, q.check);
      SettledFrame(p.buf, q.buf, p.host, p.start, q.check);
    } else {
      assert forall i :: p.check <= i < q.check ==> !Break.Has(p.buf[i]);
    }
  }

  lemma {:induction false} ParseUrlKeeps(p: Parser)
    requires Cut(p)
    ensures var (c, q) := ParseUrl(p); RequestLineKeeps(p, c, q)
  {
    hide FindPath, WelcomePage, EqCI, Scan, Str;
  }

  lemma {:induction false} ParseVersionKeeps(p: Parser)
    requires 0 < p.url && LineAt(p, p.url)
    ensures var (c, q) := ParseVersion(p); RequestLineKeeps(p, c, q)
  {
    hide ParseUrl, EqCI, Scan, Str;
    ScanStopsBy(p.buf, p.url, BlankOrNul, p.check - 2);
    var j := Scan(p.buf, p.url, BlankOrNul);
    if p.buf[j] != NUL {
      var q := SplitVersion(p, j);
      if EqCI(Str(q.buf, j + 1), "HTTP/1.1") {
        ParseUrlKeeps(q);
      }
    }
  }

  lemma {:induction false} ParseRequestLineKeeps(p: Parser, text: nat)
    requires LineAt(p, text)
    ensures var (c, q) := ParseRequestLine(p, text); RequestLineKeeps(p, c, q)
  {
    hide ParseVersion, EqCI, Scan, Str;
    ScanStopsBy(p.buf, text, BlankOrNul, p.check - 2);
    var i := Scan(p.buf, text, BlankOrNul);
    if p.buf[i] != NUL {
      var q := p.(buf := p.buf[i := NUL], url := i + 1);
      ParseVersionKeeps(q.(meth := Get));
      ParseVersionKeeps(q.(meth := Post, cgi := true));
    }
  }

  lemma {:induction false} RequestLineWF(p: Parser, text: nat)
    requires LineAt(p, text) && WF(p) && p.start == p.check
    ensures var (c, q) := ParseRequestLine(p, text); RequestLineKeeps(p, c, q) && (c == NoRequest ==> WF(q))
  {
    hide ParseRequestLine;
    ParseRequestLineKeeps(p, text);
    var (c, q) := ParseRequestLine(p, text);
    if c == NoRequest {
      SettledByNul(q.buf, q.url, q.start);
      if q.host != NULL {
        SettledByNul(q.buf, q.host, q.start);
      }
    }
  }

  lemma {:induction false} HeaderWF(p: Parser, text: nat)
    requires p.state == Header
    requires LineAt(p, text) && WF(p) && p.start == p.check
    ensures WF(ParseHeader(p, text).1)
  {
    var q := ParseHeader(p, text).1;
    assert q.state != RequestLine ==> q.url != NULL;
    if q.host != p.host {
      SettledByNul(q.buf, q.host, q.start);
    }
  }

  lemma {:induction false} ContentWF(p: Parser)
    requires WF(p) && p.state == Content
    ensures WF(p.(start := p.check))
  {
    SettledFrame(p.buf, p.buf, p.url, p.start, p.check);
    SettledFrame(p.buf, p.buf, p.host, p.start, p.check);
  }

  /** The body of the loop of process_read, on the line at `text`; `p.start` is already moved. */
  function Dispatch(p: Parser, text: nat): (r: (Code, Parser))
    requires Dispatchable(p, text)
    ensures |r.1.buf| == |p.buf| && r.1.check == p.check
  {
    match p.state
    case RequestLine => ParseRequestLine(p, text)
    case Header => ParseHeader(p, text)
    case Content => ParseContent(p, text)
  }

  lemma {:induction false} DispatchWF(p: Parser, text: nat)
    requires WF(p) && p.start == p.check
    requires Dispatchable(p, text)
    ensures Dispatch(p, text).0 == NoRequest ==> WF(Dispatch(p, text).1)
  {
    hide ParseRequestLine, ParseHeader, WF, LineAt;
    match p.state
    case RequestLine => RequestLineWF(p, text);
    case Header => HeaderWF(p, text);
    case Content =>
  }

  /** The line at `text` is one that Dispatch can be given. */
  predicate Dispatchable(p: Parser, text: nat) {
    if p.state == Content then text <= p.check <= |p.buf| else LineAt(p, text)
  }

  lemma {:induction false} TurnKeeps(p: Parser)
    requires WF(p)
    ensures var (s, q) := ParseLine(p); var q1 := q.(start := q.check);
      && p.check <= |p.buf|
      && (s != LineOk ==> WF(q))
      && (s == LineOk ==>
            && Dispatchable(q1, q.start)
            && (Dispatch(q1, q.start).0 == NoRequest ==> WF(Dispatch(q1, q.start).1))
            && (p.state == Content ==> Dispatch(q1, q.start).1.state == Content))
  {
    hide WF, ParseLine, Dispatch;
    Ordered(p);
    LineWF(p);
    var (s, q) := ParseLine(p);
    if s == LineOk {
      StateKept(p);
      DispatchWF(q.(start := q.check), q.start);
      ContentKept(q.(start := q.check), q.start);
    }
  }

  lemma StateKept(p: Parser)
    requires p.check <= |p.buf|
    ensures ParseLine(p).1.state == p.state
  {
  }

  lemma ContentKept(p: Parser, text: nat)
    requires Dispatchable(p, text)
    ensures p.state == Content ==> Dispatch(p, text).1.state == Content
  {
  }

  /** One evaluation of parse_line by the loop condition and, for a complete line, of the loop
      body; the first component says whether the loop goes on. */
  function LineTurn(p: Parser): (r: (bool, Code, Parser))
    requires WF(p)
    ensures |r.2.buf| == |p.buf| && p.check <= r.2.check <= |p.buf|
    ensures r.1 == NoRequest ==> WF(r.2)
    ensures r.0 ==> r.1 == NoRequest && p.check < r.2.check
    ensures r.0 && p.state == Content ==> r.2.state == Content
  {
    TurnKeeps(p);
    var (s, q) := ParseLine(p);
    if s != LineOk then (false, NoRequest, q)
    else
      var (c, q2) := Dispatch(q.(start := q.check), q.start);
      (c == NoRequest, c, q2)
  }

  /** The turn that the loop condition grants the CONTENT case without a new line. */
  function ContentTurn(p: Parser): (r: (Code, Parser))
    requires WF(p) && p.state == Content
    ensures |r.1.buf| == |p.buf| && p.check == r.1.check
    ensures r.0 == NoRequest ==> WF(r.1) && r.1.state == Content
  {
    ContentWF(p);
    ParseContent(p.(start := p.check), p.start)
  }

  /** The loop of process_read, entered with line_status `ls`.  The CONTENT case leaves LINE_OPEN
      behind, the other two the LINE_OK of parse_line. */
  function Loop(p: Parser, ls: LineStatus, v: Variant): (r: (Code, Parser))
    requires WF(p)
    ensures |r.1.buf| == |p.buf| && p.check <= r.1.check <= |p.buf|
    ensures r.0 == NoRequest ==> WF(r.1)
    decreases |p.buf| - p.check, if ls == LineOk && p.state == Content then 1 else 0
  {
    if p.state == Content && ls == LineOk then
      var (c, q) := ContentTurn(p);
      if c == NoRequest && v == AsWritten then Loop(q, LineOpen, v) else (c, q)
    else
      var (more, c, q) := LineTurn(p);
      if more then Loop(q, if p.state == Content then LineOpen else LineOk, v) else (c, q)
  }

  /** One turn of the loop before the body. */
  lemma LoopTurn(p: Parser, v: Variant)
    requires WF(p) && p.state != Content
    ensures var (more, c, q) := LineTurn(p);
      Loop(p, LineOk, v) == if more then Loop(q, LineOk, v) else (c, q)
  {
    hide LineTurn, WF;
  }

  /** How often the loop body of process_read runs. */
  function Turns(p: Parser, ls: LineStatus, v: Variant): nat
    requires WF(p)
    decreases |p.buf| - p.check, if ls == LineOk && p.state == Content then 1 else 0
  {
    if p.state == Content && ls == LineOk then
      var (c, q) := ContentTurn(p);
      1 + if c == NoRequest && v == AsWritten then Turns(q, LineOpen, v) else 0
    else
      var (more, c, q) := LineTurn(p);
      if more then 1 + Turns(q, if p.state == Content then LineOpen else LineOk, v)
      else if ParseLine(p).0 == LineOk then 1
      else 0
  }

  /** Every turn but the free one of the CONTENT case consumes at least the CR LF of a line. */
  lemma {:induction false} TurnsBound(p: Parser, ls: LineStatus, v: Variant)
    requires WF(p) && (ls == LineOk || p.state == Content)
    ensures 2 * Turns(p, ls, v) <= |p.buf| - p.check + if ls == LineOk then 2 else 0
    decreases |p.buf| - p.check, if ls == LineOk && p.state == Content then 1 else 0
  {
    if p.state == Content && ls == LineOk {
      var (c, q) := ContentTurn(p);
      if c == NoRequest && v == AsWritten {
        TurnsBound(q, LineOpen, v);
      }
    } else {
      LineShape(p);
      hide ParseLine, Scan, WF;
      var (more, c, q) := LineTurn(p);
      if more {
        TurnsBound(q, if p.state == Content then LineOpen else LineOk, v);
      }
    }
  }

  /** process_read, with do_request left to the caller: `GetRequest` hands over to it. */
  function ProcessRead(p: Parser): (Code, Parser)
    requires WF(p)
  {
    Loop(p, LineOk, AsWritten)
  }

  /** A call of process_read runs its loop body at most once per two unexamined bytes, plus once. */
  lemma {:induction false} ProcessReadTurns(p: Parser)
    requires WF(p)
    ensures Turns(p, LineOk, AsWritten) <= (|p.buf| - p.check) / 2 + 1
  {
    TurnsBound(p, LineOk, AsWritten);
  }
}
