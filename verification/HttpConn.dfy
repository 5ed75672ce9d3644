/** The connection object of the server: its read side works in place on one buffer and is proved
    against the functions of RequestParser. */
module HttpConnection {
  import opened Common
  import opened CString
  import P = RequestParser
  import C = ChunkIndependence

  /** One answer of recv on a non-blocking socket. */
  datatype Recv = Received(bytes: seq<char>) | WouldBlock | Failed

  /** What one call of read() takes from the socket, and whether it ends in EAGAIN.  recv gets at
      most the room left; a full buffer makes it return 0, as does a closed peer. */
  function Drain(room: nat, answers: seq<Recv>): (r: (bool, seq<char>))
    ensures |r.1| <= room && (r.0 ==> |r.1| < room)
    decreases |answers|
  {
    if answers == [] || answers[0].WouldBlock? then (room > 0, [])
    else if answers[0].Failed? then (false, [])
    else
      var b := answers[0].bytes;
      if room == 0 || b == [] then (false, [])
      else
        var n := if |b| < room then |b| else room;
        var (ok, more) := Drain(room - n, answers[1..]);
        (ok, b[..n] + more)
  }

  class HttpConn {
    const readBuf: array<char>
    var readIndex: nat
    var checkIndex: nat
    var startLine: nat
    var checkState: P.CheckState
    var meth: P.Method
    var cgi: bool
    var url: int
    var version: int
    var contentLength: int
    var linger: bool
    var host: int
    var body: int

    /** The abstract parser state. */
    function Parser(): P.Parser
      requires readIndex <= readBuf.Length
      reads this, readBuf
    {
      P.Parser(readBuf[..readIndex], checkIndex, startLine, checkState, meth, cgi, url, version,
               contentLength, linger, host, body)
    }

    predicate Shape()
      reads this
    {
      readBuf.Length == P.READ_BUFF_SIZE && checkIndex <= readIndex <= readBuf.Length
    }

    /** Between two calls: the parser state is well formed and only NULs follow the received bytes. */
    ghost predicate Valid()
      reads this, readBuf
    {
      && Shape()
      && P.WF(Parser())
      && forall i :: readIndex <= i < readBuf.Length ==> readBuf[i] == NUL
    }

    /** parse_line */
    method ParseLine() returns (s: P.LineStatus)
      requires Shape()
      modifies readBuf, `checkIndex
      ensures Shape()
      ensures (s, Parser()) == P.ParseLine(old(Parser()))
      ensures forall i :: readIndex <= i < readBuf.Length ==> readBuf[i] == old(readBuf[i])
    {
      hide Scan, P.WF;
      ghost var p := Parser();
      while checkIndex < readIndex
        invariant old(checkIndex) <= checkIndex <= readIndex
        invariant forall j :: old(checkIndex) <= j < checkIndex ==> !Break.Has(readBuf[j])
        invariant readBuf[..] == old(readBuf[..])
      {
        var temp := readBuf[checkIndex];
        if temp == CR {
          ScanIs(p.buf, p.check, Break, checkIndex);
          if checkIndex + 1 == readIndex {
            return P.LineOpen;
          } else if readBuf[checkIndex + 1] == LF {
            StoreNuls(checkIndex);
            checkIndex := checkIndex + 2;
            return P.LineOk;
          } else {
            return P.LineBad;
          }
        } else if temp == LF {
          ScanIs(p.buf, p.check, Break, checkIndex);
          if checkIndex > 1 && readBuf[checkIndex - 1] == CR {
            StoreNuls(checkIndex - 1);
            checkIndex := checkIndex + 1;
            return P.LineOk;
          } else {
            return P.LineBad;
          }
        }
        checkIndex := checkIndex + 1;
      }
      ScanIs(p.buf, p.check, Break, checkIndex);
      return P.LineOpen;
    }
  
    /** The two NULs that end a line */
    method StoreNuls(at: nat)
      requires at + 1 < readIndex <= readBuf.Length
      modifies readBuf
      ensures readBuf[..readIndex] == old(readBuf[..readIndex])[at := NUL][at + 1 := NUL]
      ensures forall i :: readIndex <= i < readBuf.Length ==> readBuf[i] == old(readBuf[i])
    {
      readBuf[at] := NUL;
      readBuf[at + 1] := NUL;
    }

    /** parse_request_line, on the line that starts at `text` */
    method ParseRequestLine(text: nat) returns (c: P.Code)
      requires Shape() && P.LineAt(Parser(), text)
      modifies readBuf, `url, `version, `meth, `cgi, `checkState
      ensures (c, Parser()) == P.ParseRequestLine(old(Parser()), text)
      ensures forall i :: readIndex <= i < readBuf.Length ==> readBuf[i] == old(readBuf[i])
    {
      hide Scan, Str, EqCI, P.ParseVersion;
      ghost var p := Parser();
      ScanStopsBy(p.buf, text, BlankOrNul, checkIndex - 2);
      var i := Scan(readBuf[..readIndex], text, BlankOrNul);
      if readBuf[i] == NUL {
        url := P.NULL;
        return P.BadRequest;
      }
      readBuf[i] := NUL;
      url := i + 1;
      assert readBuf[..readIndex] == p.buf[i := NUL];
      var name := readBuf[text..i];
      assert name == p.buf[text..i];
      if EqCI(name, "GET") {
        meth := P.Get;
      } else if EqCI(name, "POST") {
        meth := P.Post;
        cgi := true;
      } else {
        return P.BadRequest;
      }
      c := ParseVersion();
    }

    /** parse_request_line from the search for the version on */
    method ParseVersion() returns (c: P.Code)
      requires Shape() && 0 < url && P.LineAt(Parser(), url)
      modifies readBuf, `url, `version, `checkState
      ensures (c, Parser()) == P.ParseVersion(old(Parser()))
      ensures forall i :: readIndex <= i < readBuf.Length ==> readBuf[i] == old(readBuf[i])
    {
      hide Scan, Str, EqCI, P.ParseUrl;
      ghost var p := Parser();
      ScanStopsBy(p.buf, url, BlankOrNul, checkIndex - 2);
      var j := Scan(readBuf[..readIndex], url, BlankOrNul);
      if readBuf[j] == NUL {
        version := P.NULL;
        return P.BadRequest;
      }
      readBuf[j] := NUL;
      version := j + 1;
      assert readBuf[..readIndex] == p.buf[j := NUL];
      assert Parser() == P.SplitVersion(p, j);
      if !EqCI(Str(readBuf[..readIndex], version), "HTTP/1.1") {
        return P.BadRequest;
      }
      c := ParseUrl();
    }

    /** parse_request_line from the absolute-form prefixes on */
    method ParseUrl() returns (c: P.Code)
      requires Shape() && P.Cut(Parser())
      modifies readBuf, `url, `checkState
      ensures (c, Parser()) == P.ParseUrl(old(Parser()))
      ensures forall i :: readIndex <= i < readBuf.Length ==> readBuf[i] == old(readBuf[i])
    {
      hide Scan, Str, EqCI, HasPrefixCI, P.WelcomePage, P.StripScheme;
      ghost var p := Parser();
      P.CutMoves(p);
      url := P.StripScheme(readBuf[..readIndex], url, "http://");
      if url == P.NULL {
        return P.Undefined;
      }
      url := P.StripScheme(readBuf[..readIndex], url, "https://");
      if url == P.NULL || readBuf[url] != '/' {
        return P.BadRequest;
      }
      assert Parser() == p.(url := P.FindPath(p.buf, p.url).1);
      AppendWelcome();
      checkState := P.Header;
      return P.NoRequest;
    }

    /** The strcat of parse_request_line, which never writes at or behind m_check_index. */
    method AppendWelcome()
      requires Shape() && P.Cut(Parser())
      modifies readBuf
      ensures Parser() == P.WelcomePage(old(Parser()))
      ensures forall i :: checkIndex <= i < readBuf.Length ==> readBuf[i] == old(readBuf[i])
    {
      hide Scan, Str, EqCI, P.Overwrite;
      ghost var p := Parser();
      if |Str(readBuf[..readIndex], url)| == 1 {
        P.RewriteFits(p);
        StoreAt(url + 1, P.JUDGE);
      }
    }

    /** The bytes of `t`, from position `at` on */
    method StoreAt(at: nat, t: seq<char>)
      requires readIndex <= readBuf.Length && at + |t| <= readIndex
      modifies readBuf
      ensures readBuf[..readIndex] == P.Overwrite(old(readBuf[..readIndex]), at, t)
      ensures forall i :: at + |t| <= i < readBuf.Length ==> readBuf[i] == old(readBuf[i])
    {
      forall k | at <= k < at + |t| {
        readBuf[k] := t[k - at];
      }
      assert readBuf[..readIndex] == P.Overwrite(old(readBuf[..readIndex]), at, t);
    }

    /** parse_headers */
    method ParseHeaders(text: nat) returns (c: P.Code)
      requires Shape() && P.LineAt(Parser(), text)
      modifies `checkState, `linger, `contentLength, `host
      ensures (c, Parser()) == P.ParseHeader(old(Parser()), text)
    {
      hide Scan, Skip, EqCI, P.Classify, Atol;
      ghost var p := Parser();
      ScanStopsBy(p.buf, text, Nul, p.check - 2);
      var line := Str(readBuf[..readIndex], text);
      var f := P.Classify(line);
      var value := text + P.NameLength(f);
      SkipStopsBy(p.buf, value, Blank, p.check - 2);
      value := Skip(readBuf[..readIndex], value, Blank);
      match f
      case NoField =>
        if contentLength != 0 {
          checkState := P.Content;
          return P.NoRequest;
        }
        return P.GetRequest;
      case Connection =>
        if EqCI(Str(readBuf[..readIndex], value), "keep-alive") {
          linger := true;
        }
        return P.NoRequest;
      case ContentLength =>
        contentLength := ToInt32(Atol(Str(readBuf[..readIndex], value)));
        return P.NoRequest;
      case Host =>
        host := value;
        return P.NoRequest;
      case Other =>
        return P.NoRequest;
    }

    /** parse_content.  The terminator goes to at most m_read_index, which a successful read keeps
        below the size of the buffer. */
    method ParseContent(text: nat) returns (c: P.Code)
      requires Shape() && text <= checkIndex && readIndex < readBuf.Length
      modifies readBuf, `body
      ensures (c, Parser()) == P.ParseContent(old(Parser()), text)
      ensures forall i :: readIndex <= i < readBuf.Length ==> readBuf[i] == old(readBuf[i]) || readBuf[i] == NUL
    {
      ghost var p := Parser();
      if checkIndex + contentLength > INT_MAX {
        return P.Undefined;
      }
      if readIndex >= checkIndex + contentLength {
        var k := text + contentLength;
        if k < 0 {
          return P.Undefined;
        }
        readBuf[k] := NUL;
        body := text;
        assert readBuf[..readIndex] == if k < readIndex then p.buf[k := NUL] else p.buf;
        return P.GetRequest;
      }
      return P.NoRequest;
    }
  
    /** The switch of process_read. */
    method Dispatch(text: nat) returns (c: P.Code)
      requires Shape() && readIndex < readBuf.Length
      requires if checkState == P.Content then text <= checkIndex else P.LineAt(Parser(), text)
      modifies this`checkState, this`meth, this`cgi, this`url, this`version, this`contentLength,
               this`linger, this`host, this`body, readBuf
      ensures (c, Parser()) == P.Dispatch(old(Parser()), text)
      ensures forall i :: readIndex <= i < readBuf.Length ==> readBuf[i] == old(readBuf[i]) || readBuf[i] == NUL
    {
      hide P.ParseRequestLine, P.ParseHeader, P.ParseContent;
      match checkState
      case RequestLine =>
        c := ParseRequestLine(text);
      case Header =>
        c := ParseHeaders(text);
      case Content =>
        c := ParseContent(text);
    }

    /** A loop condition that calls parse_line and, for a complete line, the loop body. */
    method LineTurn() returns (more: bool, c: P.Code)
      requires Valid() && readIndex < readBuf.Length
      modifies this`checkIndex, this`startLine, this`checkState, this`meth, this`cgi, this`url,
               this`version, this`contentLength, this`linger, this`host, this`body, readBuf
      ensures (more, c, Parser()) == P.LineTurn(old(Parser()))
      ensures forall i :: readIndex <= i < readBuf.Length ==> readBuf[i] == NUL
    {
      hide Scan, P.ParseLine, P.Dispatch, P.WF;
      P.LineWF(Parser());
      P.Ordered(Parser());
      var lineStatus := ParseLine();
      if lineStatus != P.LineOk {
        return false, P.NoRequest;
      }
      var text := startLine;
      startLine := checkIndex;
      P.Ordered(Parser());
      c := Dispatch(text);
      more := c == P.NoRequest;
    }

    /** The loop body in the CONTENT state, entered without a new line. */
    method ContentTurn() returns (c: P.Code)
      requires Valid() && readIndex < readBuf.Length && checkState == P.Content
      modifies this`startLine, this`body, readBuf
      ensures (c, Parser()) == P.ContentTurn(old(Parser()))
      ensures forall i :: readIndex <= i < readBuf.Length ==> readBuf[i] == NUL
    {
      hide P.WF, P.ParseContent;
      P.Ordered(Parser());
      var text := startLine;
      startLine := checkIndex;
      c := ParseContent(text);
    }

    /** process_read: GetRequest stands for the call of do_request. */
    method ProcessRead() returns (c: P.Code)
      requires Valid() && readIndex < readBuf.Length
      modifies this`checkIndex, this`startLine, this`checkState, this`meth, this`cgi, this`url,
               this`version, this`contentLength, this`linger, this`host, this`body, readBuf
      ensures (c, Parser()) == P.ProcessRead(old(Parser()))
      ensures c == P.NoRequest ==> Valid()
      ensures checkIndex <= readIndex
      ensures forall i :: readIndex <= i < readBuf.Length ==> readBuf[i] == NUL
    {
      hide P.LineTurn, P.ContentTurn, P.WF;
      var lineStatus := P.LineOk;
      while true
        invariant Valid()
        invariant P.Loop(Parser(), lineStatus, P.AsWritten) == P.ProcessRead(old(Parser()))
        decreases readIndex - checkIndex, if lineStatus == P.LineOk && checkState == P.Content then 1 else 0
      {
        var inBody := checkState == P.Content;
        if inBody && lineStatus == P.LineOk {
          c := ContentTurn();
          if c != P.NoRequest {
            return;
          }
        } else {
          var more;
          more, c := LineTurn();
          if !more {
            return;
          }
        }
        lineStatus := if inBody then P.LineOpen else P.LineOk;
      }
    }

    /** init() */
    constructor ()
      ensures Valid() && Parser() == P.Init() && fresh(readBuf)
    {
      readBuf := new char[P.READ_BUFF_SIZE](_ => NUL);
      readIndex, checkIndex, startLine, checkState := 0, 0, 0, P.RequestLine;
      meth, cgi, url, version, contentLength := P.Get, false, P.NULL, P.NULL, 0;
      linger, host, body := false, P.NULL, P.NULL;
    }

    /** init(): the connection is reused for its next request. */
    method Reset()
      requires readBuf.Length == P.READ_BUFF_SIZE
      modifies this, readBuf
      ensures Valid() && Parser() == P.Init()
    {
      hide P.WF;
      P.InitWF();
      Bzero();
      readIndex, checkIndex, startLine, checkState := 0, 0, 0, P.RequestLine;
      meth, cgi, url, version, contentLength := P.Get, false, P.NULL, P.NULL, 0;
      linger, host, body := false, P.NULL, P.NULL;
    }

    /** bzero on m_read_buf */
    method Bzero()
      modifies readBuf
      ensures forall i :: 0 <= i < readBuf.Length ==> readBuf[i] == NUL
    {
      forall i | 0 <= i < readBuf.Length {
        readBuf[i] := NUL;
      }
    }

    /** read(): a successful read appends what the socket delivered and leaves room for the
        terminator parse_content may write at m_read_index. */
    method Read(answers: seq<Recv>) returns (ok: bool)
      requires Valid()
      modifies `readIndex, readBuf
      ensures ok == Drain(readBuf.Length - old(readIndex), answers).0
      ensures Valid() && (ok ==> readIndex < readBuf.Length)
      ensures Parser() == P.Append(old(Parser()), Drain(readBuf.Length - old(readIndex), answers).1)
    {
      hide P.WF, Drain, Onto;
      ghost var p := Parser();
      ghost var room := readBuf.Length - readIndex;
      assert P.Append(p, []) == p;
      DrainStops(room, answers, []);
      if readIndex >= P.READ_BUFF_SIZE {
        return false;
      }
      var rest := answers;
      ghost var got: seq<char> := [];
      while true
        invariant |got| <= room
        invariant readIndex == |p.buf| + |got| <= readBuf.Length && Parser() == P.Append(p, got)
        invariant Drain(room, answers) == Onto(got, Drain(room - |got|, rest))
        invariant forall k :: readIndex <= k < readBuf.Length ==> readBuf[k] == NUL
        decreases |rest|
      {
        C.AppendWF(p, got);
        DrainStops(room - |got|, rest, got);
        if readIndex == readBuf.Length {
          return false;
        } else if rest == [] || rest[0].WouldBlock? {
          return true;
        } else if rest[0].Failed? || rest[0].bytes == [] {
          return false;
        }
        var taken := Receive(rest[0].bytes);
        DrainTakes(p, got, room - |got|, rest);
        got := got + taken;
        rest := rest[1..];
      }
    }

    /** recv: as many bytes as fit are stored behind the received ones. */
    method Receive(bytes: seq<char>) returns (taken: seq<char>)
      requires readBuf.Length == P.READ_BUFF_SIZE && readIndex <= readBuf.Length
      modifies `readIndex, readBuf
      ensures var room := readBuf.Length - old(readIndex); taken == if |bytes| < room then bytes else bytes[..room]
      ensures readIndex == old(readIndex) + |taken|
      ensures Parser() == P.Append(old(Parser()), taken)
      ensures forall k :: readIndex <= k < readBuf.Length ==> readBuf[k] == old(readBuf[k])
    {
      var room := readBuf.Length - readIndex;
      taken := if |bytes| < room then bytes else bytes[..room];
      var at := readIndex;
      forall k | at <= k < at + |taken| {
        readBuf[k] := taken[k - at];
      }
      readIndex := readIndex + |taken|;
      assert readBuf[..readIndex] == old(readBuf[..readIndex]) + taken;
    }
  }

  /** What was received before a later part of the same call. */
  function Onto(got: seq<char>, r: (bool, seq<char>)): (bool, seq<char>) {
    (r.0, got + r.1)
  }

  lemma DrainStops(room: nat, answers: seq<Recv>, got: seq<char>)
    ensures Onto([], Drain(room, answers)) == Drain(room, answers)
    ensures room == 0 ==> Onto(got, Drain(room, answers)) == (false, got)
    ensures answers == [] || answers[0].WouldBlock? ==> Onto(got, Drain(room, answers)) == (room > 0, got)
    ensures answers != [] && (answers[0].Failed? || answers[0] == Received([])) ==>
      Onto(got, Drain(room, answers)) == (false, got)
  {
    assert [] + Drain(room, answers).1 == Drain(room, answers).1;
    assert got + [] == got;
  }

  lemma DrainTakes(p: P.Parser, got: seq<char>, room: nat, answers: seq<Recv>)
    requires room > 0 && answers != [] && answers[0].Received? && answers[0].bytes != []
    ensures
      var b := answers[0].bytes;
      var taken := if |b| < room then b else b[..room];
      && Onto(got, Drain(room, answers)) == Onto(got + taken, Drain(room - |taken|, answers[1..]))
      && P.Append(P.Append(p, got), taken) == P.Append(p, got + taken)
  {
    var b := answers[0].bytes;
    var taken := if |b| < room then b else b[..room];
    var more := Drain(room - |taken|, answers[1..]).1;
    assert b[..|taken|] == taken;
    assert got + (taken + more) == (got + taken) + more;
    assert p.buf + (got + taken) == (p.buf + got) + taken;
  }

  // --------------------------------------------------------------- what read() takes

  /** recv answers with these pieces, and then as `rest` says. */
  function Answers(pieces: seq<seq<char>>, rest: seq<Recv>): seq<Recv> {
    if pieces == [] then rest else [Received(pieces[0])] + Answers(pieces[1..], rest)
  }

  lemma {:induction false} DrainOne(room: nat, b: seq<char>, rest: seq<Recv>)
    requires b != []
    ensures |b| <= room ==>
      var (ok, more) := Drain(room - |b|, rest);
      Drain(room, [Received(b)] + rest) == (ok, b + more)
    ensures room < |b| ==> Drain(room, [Received(b)] + rest) == (false, b[..room])
  {
    assert ([Received(b)] + rest)[1..] == rest;
    DrainStops(0, rest, []);
    assert b[..|b|] == b;
    if room < |b| {
      assert b[..room] + [] == b[..room];
    }
  }

  lemma DrainLast(room: nat, last: Recv, more: seq<Recv>)
    ensures last.WouldBlock? ==> Drain(room, [last] + more) == (room > 0, [])
    ensures last.Failed? || last == Received([]) ==> Drain(room, [last] + more) == (false, [])
  {
    assert ([last] + more)[0] == last;
  }

  /** read() takes the pieces that arrive, in order.  It succeeds if they leave room and the socket has
      no more for now, and fails if they do not, or the peer has closed, or recv reports an error. */
  lemma {:induction false} DrainIs(room: nat, pieces: seq<seq<char>>, last: Recv, more: seq<Recv>)
    requires forall i :: 0 <= i < |pieces| ==> pieces[i] != []
    requires last.WouldBlock? || last.Failed? || last == Received([])
    ensures Drain(room, Answers(pieces, [last] + more)) ==
      if |Flatten(pieces)| < room then (last.WouldBlock?, Flatten(pieces)) else (false, Flatten(pieces)[..room])
    decreases |pieces|
  {
    hide Drain;
    if pieces == [] {
      DrainLast(room, last, more);
      assert room == 0 ==> Flatten(pieces)[..0] == [];
    } else {
      var b, rest := pieces[0], pieces[1..];
      DrainOne(room, b, Answers(rest, [last] + more));
      if |b| <= room {
        DrainIs(room - |b|, rest, last, more);
        if |Flatten(pieces)| >= room {
          assert Flatten(pieces)[..room] == b + Flatten(rest)[..room - |b|];
        }
      } else {
        assert Flatten(pieces)[..room] == b[..room];
      }
    }
  }
}
