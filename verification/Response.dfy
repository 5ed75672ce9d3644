/** The response printer of http_conn: a fixed-size buffer filled by add_response, the two iovecs
    set up by process_write, and the round trip through the server's own parser. */
module Response {
  import opened Common
  import opened CString
  import opened RequestParser
  import opened Observation
  import opened Reference
  import W = ShortWrite

  const WRITE_BUFF_SIZE := 1024

  const FORM_500: seq<char> := "There was an unusual problem serving the request file.\n"
  const FORM_404: seq<char> := "The requested file was not found on this server.\n"
  const FORM_403: seq<char> := "You do not have permission to get file form this server.\n"
  const EMPTY_PAGE: seq<char> := "<html><body></body></html>"

  // -------------------------------------------------------------- what is printed

  /** The status line without its CR LF. */
  function StatusText(status: nat, title: seq<char>): seq<char> {
    "HTTP/1.1" + " " + FormatInt(status) + " " + title
  }

  function StatusLine(status: nat, title: seq<char>): seq<char> {
    StatusText(status, title) + "\r\n"
  }

  function LengthHeader(n: int): seq<char> {
    "Content-Length:" + FormatInt(n) + "\r\n"
  }

  function LingerHeader(linger: bool): seq<char> {
    "Connection:" + (if linger then "keep-alive" else "close") + "\r\n"
  }

  function Headers(n: int, linger: bool): seq<char> {
    LengthHeader(n) + (LingerHeader(linger) + "\r\n")
  }

  function Status(c: Code): nat {
    match c
    case InternalError => 500
    case BadRequest => 404
    case ForbiddenRequest => 403
    case _ => 200
  }

  function Title(c: Code): seq<char> {
    match c
    case InternalError => "Internal Error"
    case BadRequest => "Not Found"
    case ForbiddenRequest => "Forbidden"
    case _ => "OK"
  }

  /** The page printed into the buffer: FILE_REQUEST has one only for an empty file. */
  function Page(c: Code, size: nat): seq<char> {
    match c
    case InternalError => FORM_500
    case BadRequest => FORM_404
    case ForbiddenRequest => FORM_403
    case _ => if size == 0 then EMPTY_PAGE else []
  }

  /** What process_write leaves in the buffer.  FILE_REQUEST with an empty file prints its page
      as well, but falls through to failure. */
  function Reply(c: Code, linger: bool, size: nat): seq<char> {
    if c in {InternalError, BadRequest, ForbiddenRequest, FileRequest} then
      var page := Page(c, size);
      StatusLine(Status(c), Title(c)) + Headers(if page != [] then |page| else ToInt32(size), linger) + page
    else []
  }

  /** The codes that get a response; every other one closes the connection. */
  predicate Answered(c: Code, size: nat) {
    c in {InternalError, BadRequest, ForbiddenRequest} || (c == FileRequest && size != 0)
  }

  /** What add_response makes of a call: `TooLong` is its result false; `Overrun` is the call with
      m_write_index at the end of the buffer, for which vsnprintf gets a negative size. */
  datatype Outcome = Printed | TooLong | Overrun

  /** The write buffer and m_write_index after a call. */
  datatype Print = Print(outcome: Outcome, buf: seq<char>, at: nat)

  /** add_response, on the formatted text.  vsnprintf stores at most WRITE_BUFF_SIZE -
      m_write_index - 2 bytes and a NUL but reports the full length; m_write_index moves by that
      length unless it exceeds the room. */
  function PrintText(buf: seq<char>, at: nat, text: seq<char>): (p: Print)
    requires at <= |buf|
    ensures p.at <= |p.buf| == |buf| && p.buf[..at] == buf[..at]
  {
    if at == |buf| then Print(Overrun, buf, at)
    else
      var room := |buf| - at - 1;
      var n := if |text| < room then |text| else room - 1;
      var b := if room == 0 then buf else buf[..at] + text[..n] + [NUL] + buf[at + n + 1..];
      if |text| > |buf| - at then Print(TooLong, b, at) else Print(Printed, b, at + |text|)
  }

  /** A further text, printed when the one before it was. */
  function AndThen(p: Print, text: seq<char>): (q: Print)
    requires p.at <= |p.buf|
    ensures q.at <= |q.buf| == |p.buf|
  {
    if p.outcome == Printed then PrintText(p.buf, p.at, text) else p
  }

  function PrintHeaders(buf: seq<char>, at: nat, n: int, linger: bool): (p: Print)
    requires at <= |buf|
    ensures p.at <= |p.buf| == |buf|
  {
    AndThen(AndThen(PrintText(buf, at, LengthHeader(n)), LingerHeader(linger)), "\r\n")
  }

  /** The printed text is what was there followed by the new one. */
  predicate Appends(buf: seq<char>, at: nat, text: seq<char>, p: Print)
    requires at <= |buf|
  {
    p.outcome == Printed && p.at <= |p.buf| && p.buf[..p.at] == buf[..at] + text
  }

  lemma {:induction false} PrintCut(buf: seq<char>, at: nat, text: seq<char>)
    requires at + 1 < |buf| && NoNul(text) && |buf| - at - 2 < |text| <= |buf| - at
    ensures PrintText(buf, at, text).outcome == Printed && !Appends(buf, at, text, PrintText(buf, at, text))
  {
    var p := PrintText(buf, at, text);
    assert p.buf[..p.at][|buf| - 2] == p.buf[|buf| - 2] == NUL;
    assert (buf[..at] + text)[|buf| - 2] == text[|buf| - 2 - at];
  }

  lemma {:induction false} PrintLast(buf: seq<char>, at: nat, text: seq<char>)
    requires at + 1 == |buf| && |text| == 1
    ensures PrintText(buf, at, text) == Print(Printed, buf, |buf|)
    ensures Appends(buf, at, text, PrintText(buf, at, text)) <==> text == buf[at..]
  {
    assert buf[..|buf|] == buf == buf[..at] + buf[at..];
    assert (buf[..at] + text)[at..] == text;
  }

  /** What a call stores: as much of the text as leaves two bytes of the room, then a NUL; every other
      byte stays as it was. */
  lemma {:induction false} PrintStores(buf: seq<char>, at: nat, text: seq<char>)
    requires at <= |buf|
    ensures var p := PrintText(buf, at, text); var n := if |text| <= |buf| - at - 2 then |text| else |buf| - at - 2;
      && (at + 1 >= |buf| ==> p.buf == buf)
      && (at + 1 < |buf| ==>
            && p.buf[at..at + n] == text[..n] && p.buf[at + n] == NUL
            && p.buf[..at] == buf[..at] && p.buf[at + n + 1..] == buf[at + n + 1..])
      && (p.outcome == Overrun <==> at == |buf|)
      && (p.outcome == TooLong <==> at < |buf| && |text| > |buf| - at)
      && p.at == if p.outcome == Printed then at + |text| else at
  {
  }

  /** A text without NUL is printed as it is if and only if two bytes of the room are left over; one
      that misses the room by one or two bytes is cut and still counted.  In front of the last byte
      nothing is stored, and it is as it should be only if it was there before. */
  lemma {:induction false} PrintIff(buf: seq<char>, at: nat, text: seq<char>)
    requires at <= |buf| && NoNul(text) && text != []
    ensures var p := PrintText(buf, at, text);
      && (p.outcome == Printed <==> at < |buf| && |text| <= |buf| - at)
      && (Appends(buf, at, text, p) <==> |text| <= |buf| - at - 2 || (at + 1 == |buf| && text == buf[at..]))
  {
    PrintOutcome(buf, at, text);
    hide PrintText;
    if at < |buf| && |text| <= |buf| - at {
      if |text| <= |buf| - at - 2 {
        PrintFits(buf, at, text);
      } else if at + 1 < |buf| {
        PrintCut(buf, at, text);
      } else {
        PrintLast(buf, at, text);
      }
    }
  }

  lemma PrintOutcome(buf: seq<char>, at: nat, text: seq<char>)
    requires at <= |buf|
    ensures PrintText(buf, at, text).outcome == Printed <==> at < |buf| && |text| <= |buf| - at
  {
  }

  lemma {:induction false} PrintFits(buf: seq<char>, at: nat, text: seq<char>)
    requires at + |text| + 2 <= |buf|
    ensures Appends(buf, at, text, PrintText(buf, at, text)) && PrintText(buf, at, text).at == at + |text|
  {
  }

  /** Each header is printed only behind a success, and the result is that of the last one tried. */
  lemma {:induction false} HeadersStop(buf: seq<char>, at: nat, n: int, linger: bool)
    requires at <= |buf|
    ensures var p := PrintText(buf, at, LengthHeader(n));
      var q := PrintText(p.buf, p.at, LingerHeader(linger));
      var r := PrintHeaders(buf, at, n, linger);
      && (p.outcome != Printed ==> r == p)
      && (p.outcome == Printed && q.outcome != Printed ==> r == q)
      && (p.outcome == Printed && q.outcome == Printed ==> r == PrintText(q.buf, q.at, "\r\n"))
  {
    hide PrintText;
  }

  lemma {:induction false} PrintHeadersFits(buf: seq<char>, at: nat, n: int, linger: bool)
    requires at + 55 <= |buf| && -INT_MAX - 1 <= n <= INT_MAX
    ensures Appends(buf, at, Headers(n, linger), PrintHeaders(buf, at, n, linger))
    ensures PrintHeaders(buf, at, n, linger).at == at + |Headers(n, linger)|
  {
    hide PrintText, LengthHeader, LingerHeader;
    HeadersFit(n, linger);
    var p := PrintText(buf, at, LengthHeader(n));
    PrintFits(buf, at, LengthHeader(n));
    var q := PrintText(p.buf, p.at, LingerHeader(linger));
    PrintFits(p.buf, p.at, LingerHeader(linger));
    PrintFits(q.buf, q.at, "\r\n");
    assert buf[..at] + LengthHeader(n) + LingerHeader(linger) + "\r\n" == buf[..at] + Headers(n, linger);
  }

  /** Status line and headers in an empty buffer of the size of this one */
  lemma {:induction false} PrintHead(buf: seq<char>, status: nat, title: seq<char>, n: int, linger: bool)
    requires |buf| == WRITE_BUFF_SIZE && 100 <= status <= 999 && |title| <= 20 && -INT_MAX - 1 <= n <= INT_MAX
    ensures var p := PrintText(buf, 0, StatusLine(status, title)); var q := PrintHeaders(p.buf, p.at, n, linger);
      q.buf[..q.at] == StatusLine(status, title) + Headers(n, linger) && q.at <= 89
  {
    hide Headers, StatusLine, PrintText, PrintHeaders;
    StatusFits(status, title);
    HeadersFit(n, linger);
    PrintFits(buf, 0, StatusLine(status, title));
    var p := PrintText(buf, 0, StatusLine(status, title));
    assert buf[..0] + StatusLine(status, title) == StatusLine(status, title);
    PrintHeadersFits(p.buf, p.at, n, linger);
  }

  lemma {:induction false} HeadersFit(n: int, linger: bool)
    requires -INT_MAX - 1 <= n <= INT_MAX
    ensures |LengthHeader(n)| <= 28 && |LingerHeader(linger)| <= 23 && |Headers(n, linger)| <= 53
  {
    AtolFormatInt(n);
  }

  class HttpReply {
    const writeBuf: array<char>
    var writeIndex: nat
    var linger: bool
    var file: seq<char>
    var iv0: W.Iov
    var iv1: W.Iov
    var ivCount: nat
    var bytesToSend: int
    var bytesHaveSend: int

    predicate Valid()
      reads this
    {
      writeBuf.Length == WRITE_BUFF_SIZE && writeIndex <= writeBuf.Length
    }

    function Text(): seq<char>
      requires writeIndex <= writeBuf.Length
      reads this, writeBuf
    {
      writeBuf[..writeIndex]
    }

    /** init(), for the fields of the write side */
    constructor (keepAlive: bool, contents: seq<char>)
      ensures Valid() && fresh(writeBuf) && Text() == [] && bytesToSend == bytesHaveSend == 0
      ensures linger == keepAlive && file == contents
    {
      writeBuf := new char[WRITE_BUFF_SIZE](_ => NUL);
      writeIndex, bytesToSend, bytesHaveSend := 0, 0, 0;
      linger, file := keepAlive, contents;
      iv0, iv1, ivCount := W.Iov(0, 0), W.Iov(0, 0), 0;
    }

    /** add_response */
    method AddResponse(text: seq<char>) returns (r: Outcome)
      requires Valid()
      modifies `writeIndex, writeBuf
      ensures Valid() && Print(r, writeBuf[..], writeIndex) == PrintText(old(writeBuf[..]), old(writeIndex), text)
    {
      var at := writeIndex;
      if at == writeBuf.Length {
        return Overrun;
      }
      var room := writeBuf.Length - at - 1;
      if room > 0 {
        var n := if |text| < room - 1 then |text| else room - 1;
        forall k | at <= k < at + n {
          writeBuf[k] := text[k - at];
        }
        writeBuf[at + n] := NUL;
        ghost var b := old(writeBuf[..]);
        assert writeBuf[..] == b[..at] + text[..n] + [NUL] + b[at + n + 1..];
      }
      if |text| > writeBuf.Length - at {
        return TooLong;
      }
      writeIndex := at + |text|;
      return Printed;
    }

    /** add_status_line */
    method AddStatusLine(status: nat, title: seq<char>) returns (r: Outcome)
      requires Valid()
      modifies `writeIndex, writeBuf
      ensures Valid()
      ensures Print(r, writeBuf[..], writeIndex)
           == PrintText(old(writeBuf[..]), old(writeIndex), StatusLine(status, title))
    {
      r := AddResponse("HTTP/1.1" + " " + FormatInt(status) + " " + title + "\r\n");
    }

    /** add_headers: each part only when the one before it was printed */
    method AddHeaders(n: int) returns (r: Outcome)
      requires Valid()
      modifies `writeIndex, writeBuf
      ensures Valid()
      ensures Print(r, writeBuf[..], writeIndex) == PrintHeaders(old(writeBuf[..]), old(writeIndex), n, linger)
    {
      hide PrintText, LengthHeader, LingerHeader;
      r := AddContentLength(n);
      if r == Printed {
        r := AddLinger();
      }
      if r == Printed {
        r := AddResponse("\r\n");
      }
    }

    /** add_content_length */
    method AddContentLength(n: int) returns (r: Outcome)
      requires Valid()
      modifies `writeIndex, writeBuf
      ensures Valid()
      ensures Print(r, writeBuf[..], writeIndex) == PrintText(old(writeBuf[..]), old(writeIndex), LengthHeader(n))
    {
      r := AddResponse("Content-Length:" + FormatInt(n) + "\r\n");
    }

    /** add_linger */
    method AddLinger() returns (r: Outcome)
      requires Valid()
      modifies `writeIndex, writeBuf
      ensures Valid()
      ensures Print(r, writeBuf[..], writeIndex) == PrintText(old(writeBuf[..]), old(writeIndex), LingerHeader(linger))
    {
      r := AddResponse("Connection:" + (if linger then "keep-alive" else "close") + "\r\n");
    }

    /** Status line and headers, whose results process_write ignores */
    method AddHead(status: nat, title: seq<char>, n: int)
      requires Valid() && writeIndex == 0
      requires 100 <= status <= 999 && |title| <= 20 && -INT_MAX - 1 <= n <= INT_MAX
      modifies `writeIndex, writeBuf
      ensures Valid() && Text() == StatusLine(status, title) + Headers(n, linger) && writeIndex <= 89
    {
      hide Headers, StatusLine, PrintText, PrintHeaders;
      PrintHead(writeBuf[..], status, title, n, linger);
      var _ := AddStatusLine(status, title);
      var _ := AddHeaders(n);
      BufferText();
    }

    lemma BufferText()
      requires Valid()
      ensures writeBuf[..][..writeIndex] == Text()
    {
    }

    /** The three parts of a page, printed into an empty buffer; the last one is add_content. */
    method AddPage(status: nat, title: seq<char>, content: seq<char>) returns (ok: bool)
      requires Valid() && writeIndex == 0
      requires 100 <= status <= 999 && |title| <= 20 && |content| <= 100
      modifies `writeIndex, writeBuf
      ensures Valid() && ok && Text() == StatusLine(status, title) + Headers(|content|, linger) + content
    {
      hide Headers, StatusLine, PrintText;
      AddHead(status, title, |content|);
      BufferText();
      PrintFits(writeBuf[..], writeIndex, content);
      var r := AddResponse(content);
      BufferText();
      ok := r == Printed;
    }

    /** process_write, on a freshly initialised connection */
    method ProcessWrite(c: Code) returns (ok: bool)
      requires Valid() && writeIndex == 0
      modifies `writeIndex, `iv0, `iv1, `ivCount, `bytesToSend, writeBuf
      ensures Valid() && ok == Answered(c, |file|)
      ensures Text() == Reply(c, linger, |file|)
      ensures ok && c != FileRequest ==>
        iv0 == W.Iov(0, writeIndex) && ivCount == 1 && bytesToSend == writeIndex
      ensures ok && c == FileRequest ==>
        && iv0 == W.Iov(0, writeIndex) && iv1 == W.Iov(0, |file|) && ivCount == 2
        && bytesToSend == ToInt32(writeIndex + |file|)
      ensures !ok ==> bytesToSend == old(bytesToSend)
      ensures ok && old(bytesHaveSend) == 0 && (c == FileRequest ==> writeIndex + |file| <= INT_MAX) ==>
        W.Ready(Writer())
    {
      hide StatusLine, Headers, StatusText, FormatInt, LengthHeader, LingerHeader;
      match c {
      case InternalError =>
        ok := AddPage(500, "Internal Error", FORM_500);
      case BadRequest =>
        ok := AddPage(404, "Not Found", FORM_404);
      case ForbiddenRequest =>
        ok := AddPage(403, "Forbidden", FORM_403);
      case FileRequest =>
        if |file| != 0 {
          AddHead(200, "OK", ToInt32(|file|));
          ivCount := 2;
          iv0 := W.Iov(0, writeIndex);
          iv1 := W.Iov(0, |file|);
          bytesToSend := ToInt32(writeIndex + |file|);
          return true;
        } else {
          ok := AddPage(200, "OK", EMPTY_PAGE);
          return false;
        }
      case _ =>
        return false;
      }
      iv0 := W.Iov(0, writeIndex);
      ivCount := 1;
      bytesToSend := writeIndex;
      return true;
    }

    function Writer(): W.Writer
      requires writeIndex <= writeBuf.Length
      reads this, writeBuf
    {
      W.Writer(Text(), file, iv0, iv1, ivCount, bytesToSend, bytesHaveSend)
    }

    /** init(): nothing to send any more. */
    method Reset()
      requires Valid()
      modifies `writeIndex, `linger, `file, `bytesToSend, `bytesHaveSend, writeBuf
      ensures Valid() && Text() == [] && !linger && file == [] && bytesToSend == bytesHaveSend == 0
    {
      forall i | 0 <= i < writeBuf.Length {
        writeBuf[i] := NUL;
      }
      writeIndex, linger, file := 0, false, [];
      bytesToSend, bytesHaveSend := 0, 0;
    }

    /** The bookkeeping behind a writev that took t bytes. */
    method Advance(t: nat)
      requires Valid()
      modifies `iv0, `iv1, `bytesToSend, `bytesHaveSend
      ensures Writer() == W.Step(old(Writer()), t, W.AsWritten)
    {
      bytesHaveSend := bytesHaveSend + t;
      bytesToSend := bytesToSend - t;
      if bytesHaveSend >= iv0.len {
        iv0 := iv0.(len := 0);
        iv1 := W.Iov(bytesHaveSend - writeIndex, bytesToSend);
      } else {
        iv0 := W.Iov(bytesHaveSend, iv0.len - bytesHaveSend);
      }
    }

    /** write().  `keep` is its result: whether the connection stays open; `wire` is what reaches
        the socket.  A call with nothing to send, and a finished response on a connection that
        lingers, prepare for the next request. */
    method Write(answers: seq<W.Answer>) returns (o: W.Outcome, keep: bool, rearm: Interest, wire: seq<char>)
      requires Valid()
      modifies `iv0, `iv1, `bytesToSend, `bytesHaveSend, `writeIndex, `linger, `file, writeBuf
      ensures Valid()
      ensures old(bytesToSend) == 0 ==>
        o == W.Done && keep && rearm == ReadInterest && wire == [] && Text() == [] && bytesToSend == bytesHaveSend == 0
      ensures old(bytesToSend) != 0 ==>
        var (o', w', wire') := W.Call(old(Writer()), answers, W.AsWritten);
        && o == o' && wire == wire'
        && (o == W.Done ==> rearm == ReadInterest && keep == old(linger))
        && (o == W.Suspended ==> rearm == WriteInterest && keep)
        && (o in {W.Failed, W.Undefined} ==> rearm == NoInterest && !keep)
        && (o == W.Done && keep ==> Text() == [] && bytesToSend == bytesHaveSend == 0)
        && (!(o == W.Done && keep) ==> Writer() == w')
    {
      hide W.Call, W.InRange, W.Offered;
      if bytesToSend == 0 {
        Reset();
        return W.Done, true, ReadInterest, [];
      }
      o, wire := Transfer(answers);
      match o
      case Done =>
        rearm := ReadInterest;
        keep := linger;
        if keep {
          Reset();
        }
      case Suspended =>
        rearm, keep := WriteInterest, true;
      case _ =>
        rearm, keep := NoInterest, false;
    }

    /** The loop of write() */
    method Transfer(answers: seq<W.Answer>) returns (o: W.Outcome, wire: seq<char>)
      requires Valid()
      modifies `iv0, `iv1, `bytesToSend, `bytesHaveSend
      ensures (o, Writer(), wire) == W.Call(old(Writer()), answers, W.AsWritten)
    {
      hide W.Call, W.Step, W.InRange, W.Offered, W.Taken;
      wire := [];
      var rest := answers;
      ghost var all := W.Call(Writer(), answers, W.AsWritten);
      assert [] + all.2 == all.2;
      while true
        invariant Valid()
        invariant var (o', w', more) := W.Call(Writer(), rest, W.AsWritten); all == (o', w', wire + more)
        decreases |rest|
      {
        ghost var w := Writer();
        CallStops(w, rest);
        assert wire + [] == wire;
        if !W.InRange(Writer()) {
          return W.Undefined, wire;
        } else if |W.Offered(Writer())| == 0 {
          return W.Spinning, wire;
        } else if rest == [] || rest[0].Again? {
          return W.Suspended, wire;
        } else if rest[0].Error? {
          return W.Failed, wire;
        }
        var t := W.Taken(Writer(), rest[0].n);
        var out := W.Offered(Writer())[..t];
        Advance(t);
        CallTook(w, rest);
        ghost var more := W.Call(Writer(), rest[1..], W.AsWritten).2;
        assert wire + (out + more) == wire + out + more;
        wire := wire + out;
        rest := rest[1..];
        if bytesToSend <= 0 {
          return W.Done, wire;
        }
      }
    }
  }

  lemma CallStops(w: W.Writer, answers: seq<W.Answer>)
    ensures !W.InRange(w) ==> W.Call(w, answers, W.AsWritten) == (W.Undefined, w, [])
    ensures W.InRange(w) && W.Offered(w) == [] ==> W.Call(w, answers, W.AsWritten) == (W.Spinning, w, [])
    ensures W.InRange(w) && W.Offered(w) != [] && (answers == [] || answers[0].Again?) ==>
              W.Call(w, answers, W.AsWritten) == (W.Suspended, w, [])
    ensures W.InRange(w) && W.Offered(w) != [] && answers != [] && answers[0].Error? ==>
              W.Call(w, answers, W.AsWritten) == (W.Failed, w, [])
  {
  }

  /** What the connection is registered for when write() or process() returns. */
  datatype Interest = NoInterest | ReadInterest | WriteInterest

  lemma CallTook(w: W.Writer, answers: seq<W.Answer>)
    requires W.InRange(w) && W.Offered(w) != [] && answers != [] && answers[0].Took?
    ensures
      var t := W.Taken(w, answers[0].n);
      var next := W.Step(w, t, W.AsWritten);
      W.Call(w, answers, W.AsWritten) ==
        if next.toSend <= 0 then (W.Done, next, W.Offered(w)[..t])
        else
          var (o, end, more) := W.Call(next, answers[1..], W.AsWritten);
          (o, end, W.Offered(w)[..t] + more)
  {
  }

  lemma {:induction false} StatusFits(status: nat, title: seq<char>)
    requires 100 <= status <= 999 && |title| <= 20
    ensures |StatusLine(status, title)| <= 36
  {
    DecimalLength(status, 1000, 3);
  }

  // ------------------------------------------------------------- the round trip

  /** The value of a header starts right behind its name. */
  lemma {:induction false} ValueStart(name: seq<char>, value: seq<char>)
    requires value != [] && !Blank.Has(value[0])
    ensures Skip(name + value, |name|, Blank) == |name| && (name + value)[|name|..] == value
  {
    assert (name + value)[|name|] == value[0];
    SkipIs(name + value, |name|, Blank, |name|);
  }

  lemma {:induction false} NumberPlain(n: int)
    requires -INT_MAX - 1 <= n <= INT_MAX
    ensures var t := FormatInt(n); t != [] && NoBreak(t) && NoNul(t) && !Blank.Has(t[0]) && Atol(t) == n
  {
    hide FormatInt, Atol;
    AtolFormatInt(n);
  }

  lemma LiteralLine(s: seq<char>)
    requires s in ["Content-Length:", "Connection:", "close", "keep-alive"]
    ensures NoBreak(s) && NoNul(s) && !Blank.Has(s[0])
  {
  }

  lemma {:induction false} LengthHeaderMeaning(n: int, v: View)
    requires -INT_MAX - 1 <= n <= INT_MAX
    ensures var line := "Content-Length:" + FormatInt(n);
      NoBreak(line) && NoNul(line) && MeaningOfHeader(line, v) == v.(clen := n)
  {
    hide FormatInt, Atol, NoBreak, NoNul, Classify, Skip, EqCI;
    NumberPlain(n);
    LiteralLine("Content-Length:");
    JoinPlain("Content-Length:", FormatInt(n));
    ClassifyContentLength(FormatInt(n));
    ValueStart("Content-Length:", FormatInt(n));
  }

  lemma {:induction false} LingerHeaderMeaning(linger: bool, v: View)
    requires !v.linger
    ensures var line := "Connection:" + if linger then "keep-alive" else "close";
      NoBreak(line) && NoNul(line) && MeaningOfHeader(line, v) == v.(linger := linger)
  {
    hide NoBreak, NoNul, Classify, Skip, EqCI;
    var value := if linger then "keep-alive" else "close";
    LiteralLine(value);
    LiteralLine("Connection:");
    JoinPlain("Connection:", value);
    ClassifyConnection(value);
    ValueStart("Connection:", value);
    KeepAliveIs(value);
  }

  lemma KeepAliveIs(value: seq<char>)
    requires value == "keep-alive" || value == "close"
    ensures EqCI(value, "keep-alive") <==> value == "keep-alive"
  {
  }

  /** The printed headers are read back as the content length and the linger flag. */
  lemma {:induction false} HeadersMeaning(n: int, linger: bool, body: seq<char>, at: nat, v: View)
    requires -INT_MAX - 1 <= n <= INT_MAX && v.clen == 0 && !v.linger
    ensures var w := v.(clen := n, linger := linger);
      MeaningOfHeaders(Headers(n, linger) + body, at, v)
        == if n == 0 then Accepted(w) else MeaningOfBody(body, at + |Headers(n, linger)|, w)
  {
    hide FirstLine, MeaningOfHeader, MeaningOfBody, FormatInt, Str;
    var l1 := "Content-Length:" + FormatInt(n);
    var l2 := "Connection:" + if linger then "keep-alive" else "close";
    var r3 := "" + "\r\n" + body;
    var r2 := l2 + "\r\n" + r3;
    assert Headers(n, linger) + body == l1 + "\r\n" + r2;
    LengthHeaderMeaning(n, v);
    FirstLineIs(l1, r2);
    WholeStr(l1);
    var v1 := v.(clen := n);
    LingerHeaderMeaning(linger, v1);
    FirstLineIs(l2, r3);
    WholeStr(l2);
    FirstLineIs("", body);
    WholeStr("");
    var w := v1.(linger := linger);
    var at2 := at + |l1| + 2;
    assert MeaningOfHeaders(r3, at2 + |l2| + 2, w)
      == if n == 0 then Accepted(w) else MeaningOfBody(body, at2 + |l2| + 4, w);
    assert MeaningOfHeaders(r2, at2, v1) == MeaningOfHeaders(r3, at2 + |l2| + 2, w);
  }

  /** Fed to the server's own parser behind any first line, the headers of a response give back
      the content length and the linger flag, and end where the body starts. */
  lemma {:induction false} HeadersRoundTrip(p: Parser, n: nat, linger: bool, body: seq<char>)
    requires WF(p) && p.state == Header && p.start == p.check > 0 && p.clen == 0 && !p.linger
    requires n <= INT_MAX && |p.buf| <= INT_MAX
    requires p.buf[p.check..] == Headers(n, linger) + body && |body| == n
    ensures var (c, q) := Loop(p, LineOk, AsWritten);
      && c == GetRequest && q.clen == n && q.linger == linger
      && (n > 0 ==> Observe(q).body == Some(Str(body, 0)))
  {
    hide Headers, Loop, Settled;
    HeadersRefine(p, AsWritten);
    HeadersMeaning(n, linger, body, p.check, Observe(p));
    assert body[..n] == body;
    assert |p.buf[p.check..]| == |Headers(n, linger)| + n;
  }

  lemma {:induction false} StatusTextNoBreak(status: nat, title: seq<char>)
    requires NoBreak(title)
    ensures NoBreak(StatusText(status, title))
  {
    DecimalRoundTrip(status);
    assert NoBreak(FormatInt(status));
    assert NoBreak("HTTP/1.1" + " " + FormatInt(status));
  }

  /** What follows the blank line of an answered request. */
  function ReplyBody(c: Code, file: seq<char>): seq<char> {
    if c == FileRequest then file else Page(c, |file|)
  }

  /** Every answer, with the file that is sent behind it, reads back as a status line and headers
      that announce exactly the bytes behind the blank line. */
  lemma {:induction false} ReplyReadsBack(c: Code, linger: bool, file: seq<char>, v: View)
    requires Answered(c, |file|) && |file| <= INT_MAX && v.clen == 0 && !v.linger
    ensures
      var line, body := StatusText(Status(c), Title(c)), ReplyBody(c, file);
      var out := Reply(c, linger, |file|) + if c == FileRequest then file else [];
      var rest := Headers(|body|, linger) + body;
      && |body| > 0
      && FirstLine(out) == Some((line, rest))
      && MeaningOfHeaders(rest, |line| + 2, v)
         == MeaningOfBody(body, |line| + 2 + |Headers(|body|, linger)|, v.(clen := |body|, linger := linger))
  {
    hide Headers, StatusText, MeaningOfHeaders, MeaningOfBody, FirstLine, NoBreak;
    hide Reply, Title, Status, ReplyBody, Page;
    var line, body := StatusText(Status(c), Title(c)), ReplyBody(c, file);
    var rest := Headers(|body|, linger) + body;
    ReplyIs(c, linger, file);
    TitleNoBreak(c);
    StatusTextNoBreak(Status(c), Title(c));
    FirstLineIs(line, rest);
    HeadersMeaning(|body|, linger, body, |line| + 2, v);
  }

  lemma {:induction false} ReplyIs(c: Code, linger: bool, file: seq<char>)
    requires Answered(c, |file|) && |file| <= INT_MAX
    ensures var line, body := StatusText(Status(c), Title(c)), ReplyBody(c, file);
      && 0 < |body| <= INT_MAX
      && Reply(c, linger, |file|) + (if c == FileRequest then file else [])
         == line + "\r\n" + (Headers(|body|, linger) + body)
  {
    hide Headers, StatusText, Title, Status;
    var line, body := StatusText(Status(c), Title(c)), ReplyBody(c, file);
    var head := Headers(|body|, linger);
    if c == FileRequest {
      Regroup(line + "\r\n", head, []);
      Regroup(line + "\r\n", head, file);
    } else {
      Regroup(line + "\r\n", head, body);
    }
  }

  lemma Regroup(a: seq<char>, b: seq<char>, c: seq<char>)
    ensures a + b + c == a + (b + c) && a + b + [] == a + b && c + [] == c
  {
  }

  lemma TitleNoBreak(c: Code)
    ensures NoBreak(Title(c))
  {
  }

  // -------------------------------------------------------- the text of the replies

  /** Status line, headers, blank line and page, as they go out. */
  function ReplyParts(status: seq<char>, length: seq<char>, linger: bool, page: seq<char>): seq<seq<char>> {
    ["HTTP/1.1 ", status, "\r\n", "Content-Length:", length, "\r\n",
     "Connection:", if linger then "keep-alive" else "close", "\r\n", "\r\n", page]
  }

  lemma {:induction false} FlattenStep(x: seq<char>, rest: seq<seq<char>>)
    ensures Flatten([x] + rest) == x + Flatten(rest)
  {
    assert ([x] + rest)[1..] == rest;
  }

  lemma {:induction false} FlattenThree(a: seq<char>, b: seq<char>, c: seq<char>, rest: seq<seq<char>>)
    ensures Flatten([a, b, c] + rest) == a + b + c + Flatten(rest)
  {
    assert [a, b, c] + rest == [a] + ([b] + ([c] + rest));
    FlattenStep(a, [b] + ([c] + rest));
    FlattenStep(b, [c] + rest);
    FlattenStep(c, rest);
  }

  lemma {:induction false} PartsFlat(status: seq<char>, length: seq<char>, linger: bool, page: seq<char>)
    ensures Flatten(ReplyParts(status, length, linger, page))
         == "HTTP/1.1 " + status + "\r\n"
            + ("Content-Length:" + length + "\r\n"
               + ("Connection:" + (if linger then "keep-alive" else "close") + "\r\n" + ("\r\n" + page)))
  {
    hide Flatten;
    var keep := if linger then "keep-alive" else "close";
    var r3 := ["\r\n"] + [page];
    var r2 := ["Connection:", keep, "\r\n"] + r3;
    var r1 := ["Content-Length:", length, "\r\n"] + r2;
    assert ReplyParts(status, length, linger, page) == ["HTTP/1.1 ", status, "\r\n"] + r1;
    FlattenThree("HTTP/1.1 ", status, "\r\n", r1);
    FlattenThree("Content-Length:", length, "\r\n", r2);
    FlattenThree("Connection:", keep, "\r\n", r3);
    FlattenStep("\r\n", [page]);
    FlattenOne(page);
  }

  lemma FlattenOne(x: seq<char>)
    ensures Flatten([x]) == x
  {
    assert [x][1..] == [];
  }

  lemma {:induction false} StatusParts(status: nat, title: seq<char>, digits: seq<char>)
    requires FormatInt(status) == digits
    ensures StatusLine(status, title) == "HTTP/1.1 " + (digits + (" " + title)) + "\r\n"
  {
    assert "HTTP/1.1" + " " == "HTTP/1.1 ";
  }

  lemma {:induction false} WholeReply(status: nat, title: seq<char>, n: int, linger: bool, page: seq<char>,
                                      digits: seq<char>, length: seq<char>)
    requires FormatInt(status) == digits && FormatInt(n) == length
    ensures StatusLine(status, title) + Headers(n, linger) + page
         == Flatten(ReplyParts(digits + (" " + title), length, linger, page))
  {
    hide FormatInt, Flatten, StatusLine;
    StatusParts(status, title, digits);
    PartsFlat(digits + (" " + title), length, linger, page);
    HeaderGroups(StatusLine(status, title), LengthHeader(n), LingerHeader(linger), page);
  }

  lemma HeaderGroups(a: seq<char>, b: seq<char>, c: seq<char>, page: seq<char>)
    ensures a + (b + (c + "\r\n")) + page == a + (b + (c + ("\r\n" + page)))
  {
  }

  lemma Numbers()
    ensures FormatInt(200) == "200" && FormatInt(403) == "403" && FormatInt(404) == "404" && FormatInt(500) == "500"
    ensures FormatInt(26) == "26" && FormatInt(49) == "49" && FormatInt(55) == "55" && FormatInt(57) == "57"
  {
    assert Decimal(20) == "20" && Decimal(40) == "40" && Decimal(50) == "50";
  }

  lemma PageLengths()
    ensures |FORM_404| == 49 && |FORM_403| == 57 && |FORM_500| == 55 && |EMPTY_PAGE| == 26
  {
  }

  /** The replies, byte by byte: a code that process_write does not know prints nothing. */
  lemma {:induction false} RepliesAre(linger: bool, size: nat)
    ensures Reply(BadRequest, linger, size) == Flatten(ReplyParts("404" + (" " + "Not Found"), "49", linger,
                                                         "The requested file was not found on this server.\n"))
    ensures Reply(ForbiddenRequest, linger, size) == Flatten(ReplyParts("403" + (" " + "Forbidden"), "57", linger,
                                                         "You do not have permission to get file form this server.\n"))
    ensures Reply(InternalError, linger, size) == Flatten(ReplyParts("500" + (" " + "Internal Error"), "55", linger,
                                                         "There was an unusual problem serving the request file.\n"))
    ensures Reply(FileRequest, linger, 0) == Flatten(ReplyParts("200" + (" " + "OK"), "26", linger,
                                                       "<html><body></body></html>"))
    ensures size > 0 ==>
      Reply(FileRequest, linger, size)
      == Flatten(ReplyParts("200" + (" " + "OK"), FormatInt(ToInt32(size)), linger, []))
    ensures forall c :: c in {NoRequest, GetRequest, NoResource, ClosedConnection, Undefined} ==>
      Reply(c, linger, size) == []
  {
    hide FormatInt, Flatten, StatusLine, Headers, ReplyParts;
    Numbers();
    PageLengths();
    WholeReply(404, "Not Found", 49, linger, FORM_404, "404", "49");
    WholeReply(403, "Forbidden", 57, linger, FORM_403, "403", "57");
    WholeReply(500, "Internal Error", 55, linger, FORM_500, "500", "55");
    WholeReply(200, "OK", 26, linger, EMPTY_PAGE, "200", "26");
    WholeReply(200, "OK", ToInt32(size), linger, [], "200", FormatInt(ToInt32(size)));
  }

  /** The page for a resource that is not there, on a connection that is then closed. */
  function NotFoundReply(): seq<char> {
    Flatten(ReplyParts("404" + (" " + "Not Found"), "49", false, "The requested file was not found on this server.\n"))
  }

  lemma {:induction false} NotFoundIs(size: nat)
    ensures Reply(BadRequest, false, size) == NotFoundReply() && NotFoundReply() != []
  {
    hide Flatten, ReplyParts, Reply;
    RepliesAre(false, size);
    ReplyStart(BadRequest, false, size);
  }

  /** The status code of an answer can be read back from its first line. */
  lemma {:induction false} StatusReadsBack(c: Code)
    requires c in {InternalError, BadRequest, ForbiddenRequest, FileRequest}
    ensures var line := StatusText(Status(c), Title(c));
      && |line| > 9 && line[..9] == "HTTP/1.1 "
      && Atol(line[9..])
         == match c case InternalError => 500 case BadRequest => 404 case ForbiddenRequest => 403 case _ => 200
  {
    hide Atol, Decimal, Title;
    StatusNumber(Status(c), Title(c));
  }

  lemma {:induction false} StatusNumber(status: nat, title: seq<char>)
    requires status <= INT_MAX
    ensures var line := StatusText(status, title);
      |line| > 9 && line[..9] == "HTTP/1.1 " && Atol(line[9..]) == status
  {
    hide Atol, Decimal;
    var rest := " " + title;
    var front := "HTTP/1.1" + " ";
    assert front == "HTTP/1.1 ";
    assert StatusText(status, title) == front + (Decimal(status) + rest);
    DecimalRoundTrip(status);
    assert StatusText(status, title)[9..] == [] + (Decimal(status) + rest);
    AtolText([], status, rest);
    SaturateIs(status);
  }

  // ------------------------------------------------- responses that do not arrive

  /** The state process_write leaves for an answered code. */
  function Prepared(c: Code, linger: bool, file: seq<char>): W.Writer
    requires Answered(c, |file|)
  {
    var head := Reply(c, linger, |file|);
    if c == FileRequest
    then W.Writer(head, file, W.Iov(0, |head|), W.Iov(0, |file|), 2, |head| + |file|, 0)
    else W.Writer(head, file, W.Iov(0, |head|), W.Iov(0, 0), 1, |head|, 0)
  }

  lemma {:induction false} ReplyStart(c: Code, linger: bool, size: nat)
    requires Answered(c, size)
    ensures |Reply(c, linger, size)| >= 8
  {
    hide FormatInt, Headers, Title;
    assert |"HTTP/1.1"| == 8;
  }

  /** No file arrives whole when two writes end inside its head: the kernel takes a byte, a byte, all
      that is offered of the head with one byte of the file, and the file. */
  lemma {:induction false} FileCutTwice(linger: bool, file: seq<char>)
    requires file != []
    ensures
      var w := Prepared(FileRequest, linger, file);
      var calls := [[W.Took(1), W.Took(1), W.Took(|w.head| - 2), W.Took(|file|)]];
      && W.Ready(w) && W.Calls(w, calls, W.AsWritten).0 == W.Done && W.InsideCalls(w, calls, W.AsWritten) == 2
      && W.Calls(w, calls, W.AsWritten).2 == w.head[..|w.head| - 1] + [file[0]] + file
  {
    hide W.Calls, W.InsideCalls, Reply;
    ReplyStart(FileRequest, linger, |file|);
    W.HeadCutTwice(Prepared(FileRequest, linger, file));
  }

  /** An error page never arrives when two writes end inside it, and the main loop never returns from
      write(). */
  lemma {:induction false} PageSpins(c: Code, linger: bool)
    requires Answered(c, 0)
    ensures
      var w := Prepared(c, linger, []);
      var calls := [[W.Took(1), W.Took(1), W.Took(|w.head| - 3)]];
      W.Ready(w) && W.Calls(w, calls, W.AsWritten).0 == W.Spinning
  {
    hide W.Calls, Reply;
    ReplyStart(c, linger, 0);
    W.SpinsForEver(Prepared(c, linger, []));
  }

  lemma {:induction false} JoinNoNul(a: seq<char>, b: seq<char>)
    requires NoNul(a) && NoNul(b)
    ensures NoNul(a + b)
  {
  }

  lemma FileHeadLiterals()
    ensures NoNul("HTTP/1.1" + " ") && NoNul(" ") && NoNul("OK") && NoNul("\r\n") && NoNul("Content-Length:")
    ensures NoNul("Connection:" + "keep-alive") && NoNul("Connection:" + "close")
  {
  }

  lemma {:induction false} FileHeadNoNul(linger: bool, size: nat)
    requires size > 0
    ensures NoNul(Reply(FileRequest, linger, size))
  {
    hide NoNul, FormatInt;
    FileHeadLiterals();
    NumberPlain(200);
    NumberPlain(ToInt32(size));
    JoinNoNul("HTTP/1.1" + " ", FormatInt(200));
    JoinNoNul("HTTP/1.1" + " " + FormatInt(200), " ");
    JoinNoNul("HTTP/1.1" + " " + FormatInt(200) + " ", "OK");
    JoinNoNul(StatusText(200, "OK"), "\r\n");
    JoinNoNul("Content-Length:", FormatInt(ToInt32(size)));
    JoinNoNul("Content-Length:" + FormatInt(ToInt32(size)), "\r\n");
    JoinNoNul("Connection:" + (if linger then "keep-alive" else "close"), "\r\n");
    JoinNoNul(LingerHeader(linger), "\r\n");
    JoinNoNul(LengthHeader(ToInt32(size)), LingerHeader(linger) + "\r\n");
    JoinNoNul(StatusLine(200, "OK"), Headers(ToInt32(size), linger));
    assert Reply(FileRequest, linger, size) == StatusLine(200, "OK") + Headers(ToInt32(size), linger);
  }

  /** The exact condition on the kernel for the files of a length: whatever the file, a transfer that
      completes has sent head and file, if and only if at most one short write ends strictly inside
      the head or the transfer never completes. */
  lemma {:induction false} FileDeliveredIff(linger: bool, file: seq<char>, calls: seq<seq<W.Answer>>)
    requires file != []
    ensures
      (forall f: seq<char> | |f| == |file| ::
         var w := Prepared(FileRequest, linger, f);
         W.Calls(w, calls, W.AsWritten).0 == W.Done ==>
           W.Calls(w, calls, W.AsWritten).2 == Reply(FileRequest, linger, |f|) + f)
      <==>
        var w := Prepared(FileRequest, linger, file);
        W.Calls(w, calls, W.AsWritten).0 == W.Done ==> W.InsideCalls(w, calls, W.AsWritten) <= 1
  {
    hide W.Calls, W.InsideCalls, Reply;
    var w := Prepared(FileRequest, linger, file);
    FileHeadNoNul(linger, |file|);
    W.ScheduleIff(w, calls);
    assert forall f: seq<char> | |f| == |file| :: Prepared(FileRequest, linger, f) == w.(file := f);
  }
}
