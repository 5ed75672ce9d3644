/** process(): one request from the bytes in the buffer to the response that is ready to be sent. */
module Process {
  import opened CString
  import P = RequestParser
  import H = HttpConnection
  import R = Response
  import W = ShortWrite

  /** What do_request can answer. */
  predicate Answerable(c: P.Code) {
    c in {P.NoResource, P.ForbiddenRequest, P.BadRequest, P.FileRequest}
  }

  /** What process_read returns: the codes behind do_request are not among them. */
  lemma {:induction false} CodesOf(p: P.Parser, ls: P.LineStatus, v: P.Variant)
    requires P.WF(p)
    ensures P.Loop(p, ls, v).0 in {P.NoRequest, P.GetRequest, P.BadRequest, P.Undefined}
    decreases |p.buf| - p.check, if ls == P.LineOk && p.state == P.Content then 1 else 0
  {
    hide P.WF, P.ParseLine, P.ParseRequestLine, P.ParseHeader;
    if p.state == P.Content && ls == P.LineOk {
      var (c, q) := P.ContentTurn(p);
      if c == P.NoRequest && v == P.AsWritten {
        CodesOf(q, P.LineOpen, v);
      }
    } else {
      TurnCodes(p);
      var (more, c, q) := P.LineTurn(p);
      if more {
        CodesOf(q, if p.state == P.Content then P.LineOpen else P.LineOk, v);
      }
    }
  }

  lemma {:induction false} TurnCodes(p: P.Parser)
    requires P.WF(p)
    ensures P.LineTurn(p).1 in {P.NoRequest, P.GetRequest, P.BadRequest, P.Undefined}
  {
    hide P.WF, P.ParseLine, P.ParseRequestLine;
    P.TurnKeeps(p);
    var (s, q) := P.ParseLine(p);
    var q1 := q.(start := q.check);
    if s == P.LineOk && q1.state == P.RequestLine {
      P.ParseRequestLineKeeps(q1, q.start);
    }
  }

  /** process(), for a request whose do_request answers `served` with the file `file`.  `open`
      says whether the connection is still open; a parse that is undefined returns at once. */
  method Process(conn: H.HttpConn, reply: R.HttpReply, served: P.Code, file: seq<char>)
    returns (open: bool, rearm: R.Interest)
    requires conn.Valid() && conn.readIndex < conn.readBuf.Length
    requires reply.Valid() && reply.writeIndex == 0 && reply.bytesHaveSend == 0
    requires conn.readBuf != reply.writeBuf && Answerable(served)
    modifies conn, conn.readBuf, reply, reply.writeBuf
    ensures conn.Shape() && reply.Valid()
    ensures conn.Parser() == P.ProcessRead(old(conn.Parser())).1
    ensures P.ProcessRead(old(conn.Parser())).0 == P.NoRequest ==>
      open && rearm == R.ReadInterest && conn.Valid() && unchanged(reply, reply.writeBuf)
    ensures P.ProcessRead(old(conn.Parser())).0 in {P.NoRequest, P.GetRequest, P.BadRequest, P.Undefined}
    ensures P.ProcessRead(old(conn.Parser())).0 == P.BadRequest ==>
      && open && rearm == R.WriteInterest && W.Ready(reply.Writer())
      && reply.Text() == W.Stream(reply.Writer()) == R.Reply(P.BadRequest, conn.linger, |file|)
    ensures P.ProcessRead(old(conn.Parser())).0 == P.GetRequest ==>
      && open == R.Answered(served, |file|) && (open ==> rearm == R.WriteInterest)
      && reply.Text() == R.Reply(served, conn.linger, |file|)
      && (open && |reply.Text()| + |file| <= INT_MAX ==>
            && W.Ready(reply.Writer())
            && W.Stream(reply.Writer()) == reply.Text() + if served == P.FileRequest then file else [])
  {
    hide P.Loop, P.WF, R.Reply, W.Ready;
    CodesOf(conn.Parser(), P.LineOk, P.AsWritten);
    var c := conn.ProcessRead();
    if c == P.NoRequest {
      return true, R.ReadInterest;
    }
    if c == P.Undefined {
      return false, R.NoInterest;
    }
    reply.linger, reply.file := conn.linger, file;
    var code := if c == P.GetRequest then served else c;
    open := reply.ProcessWrite(code);
    rearm := if open then R.WriteInterest else R.NoInterest;
  }
}
