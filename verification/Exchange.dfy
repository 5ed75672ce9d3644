/** A whole exchange on the objects: what is read, processed and written for one request. */
module Exchange {
  import opened Common
  import opened CString
  import opened ChunkIndependence
  import opened ChunkedRuns
  import opened Reference
  import opened BodyScan
  import P = RequestParser
  import H = HttpConnection
  import R = Response
  import W = ShortWrite
  import X = Process

  /** What the read() calls of a connection take, one after the other. */
  function Received(room: nat, answers: seq<seq<H.Recv>>): (chunks: seq<seq<char>>)
    ensures |chunks| == |answers|
    decreases |answers|
  {
    if answers == [] then []
    else
      var b := H.Drain(room, answers[0]).1;
      [b] + Received(room - |b|, answers[1..])
  }

  /** Every one of them ends because the socket has no more bytes for now. */
  predicate AllRead(room: nat, answers: seq<seq<H.Recv>>)
    decreases |answers|
  {
    answers != [] ==>
      var (ok, b) := H.Drain(room, answers[0]);
      ok && AllRead(room - |b|, answers[1..])
  }

  /** The bytes of the response to a request that means this: a request that is refused gets the page for
      a resource that is not there, and is not asked of do_request. */
  function Expected(m: Verdict, served: P.Code, file: seq<char>): seq<char> {
    match m
    case Accepted(v) => R.Reply(served, v.linger, |file|) + if served == P.FileRequest then file else []
    case Rejected => R.NotFoundReply()
    case _ => []
  }

  /** A request that gets an answer */
  predicate Answered(m: Verdict, served: P.Code, file: seq<char>) {
    || m.Rejected?
    || (m.Accepted? && R.Answered(served, |file|) && X.Answerable(served) && |file| <= INT_MAX - R.WRITE_BUFF_SIZE)
  }

  lemma {:induction false} ReceivedFits(room: nat, answers: seq<seq<H.Recv>>)
    requires AllRead(room, answers)
    ensures |Flatten(Received(room, answers))| <= room
    ensures answers != [] ==> |Flatten(Received(room, answers))| < room
    decreases |answers|
  {
    if answers != [] {
      var b := H.Drain(room, answers[0]).1;
      ReceivedFits(room - |b|, answers[1..]);
      assert Received(room, answers)[1..] == Received(room - |b|, answers[1..]);
      if answers[1..] == [] {
        assert Flatten(Received(room - |b|, answers[1..])) == [];
      }
    }
  }

  /** One more read and process_read of a run. */
  lemma {:induction false} RunStep(p: P.Parser, room: nat, answers: seq<seq<H.Recv>>)
    requires P.WF(p) && answers != []
    ensures var b := H.Drain(room, answers[0]).1; P.WF(P.Append(p, b))
    ensures var b := H.Drain(room, answers[0]).1; var (c, q) := P.ProcessRead(P.Append(p, b));
      Run(p, Received(room, answers), P.AsWritten)
      == if c == P.NoRequest then Run(q, Received(room - |b|, answers[1..]), P.AsWritten) else (c, q)
  {
    hide P.WF, P.Loop;
    var b := H.Drain(room, answers[0]).1;
    AppendWF(p, b);
    assert Received(room, answers)[1..] == Received(room - |b|, answers[1..]);
  }

  lemma {:induction false} RequestIs(answers: seq<seq<H.Recv>>, m: Verdict)
    requires AllRead(P.READ_BUFF_SIZE, answers) && Uncut(Received(P.READ_BUFF_SIZE, answers))
    requires Meaning(Flatten(Received(P.READ_BUFF_SIZE, answers))) == m && (m.Accepted? || m.Rejected?)
    ensures P.WF(P.Init())
    ensures var (c, q) := Run(P.Init(), Received(P.READ_BUFF_SIZE, answers), P.AsWritten);
      && (m.Accepted? ==> c == P.GetRequest && q.linger == m.view.linger)
      && (m.Rejected? ==> c == P.BadRequest && !q.linger)
  {
    hide P.WF, P.Loop, Run, Uncut, AllRead, MeaningOfHeaders, MeaningOfRequestLine;
    ReceivedFits(P.READ_BUFF_SIZE, answers);
    var chunks := Received(P.READ_BUFF_SIZE, answers);
    SomethingRead(chunks);
    ReadsComputeMeaning(chunks);
  }

  lemma SomethingRead(chunks: seq<seq<char>>)
    requires Meaning(Flatten(chunks)).Accepted? || Meaning(Flatten(chunks)).Rejected?
    ensures chunks != []
  {
  }

  /** read() and process() until the request is complete: the response to what it means is ready. */
  method Receive(conn: H.HttpConn, reply: R.HttpReply, answers: seq<seq<H.Recv>>, served: P.Code, file: seq<char>,
                 ghost m: Verdict)
    requires conn.Valid() && conn.Parser() == P.Init()
    requires reply.Valid() && reply.writeIndex == 0 && reply.bytesHaveSend == 0 && conn.readBuf != reply.writeBuf
    requires Answered(m, served, file) && X.Answerable(served)
    requires AllRead(P.READ_BUFF_SIZE, answers) && Uncut(Received(P.READ_BUFF_SIZE, answers))
    requires Meaning(Flatten(Received(P.READ_BUFF_SIZE, answers))) == m
    modifies conn, conn.readBuf, reply, reply.writeBuf
    ensures reply.Valid() && W.Ready(reply.Writer()) && W.Stream(reply.Writer()) == Expected(m, served, file)
  {
    hide P.WF, P.Loop, R.Reply, R.NotFoundReply, W.Ready, Run, Meaning, Uncut, Received, AllRead, H.Drain;
    RequestIs(answers, m);
    R.NotFoundIs(|file|);
    ghost var all := Run(P.Init(), Received(P.READ_BUFF_SIZE, answers), P.AsWritten);
    var rest := answers;
    while true
      invariant conn.Valid()
      invariant reply.Valid() && reply.writeIndex == 0 && reply.bytesHaveSend == 0
      invariant AllRead(P.READ_BUFF_SIZE - conn.readIndex, rest)
      invariant Run(conn.Parser(), Received(P.READ_BUFF_SIZE - conn.readIndex, rest), P.AsWritten) == all
      decreases |rest|
    {
      ghost var p, room := conn.Parser(), P.READ_BUFF_SIZE - conn.readIndex;
      NotAtTheEnd(p, room, rest);
      RunStep(p, room, rest);
      NextRead(room, rest);
      var _ := conn.Read(rest[0]);
      var open, rearm := X.Process(conn, reply, served, file);
      if rearm == R.WriteInterest {
        return;
      }
      rest := rest[1..];
    }
  }

  lemma NotAtTheEnd(p: P.Parser, room: nat, answers: seq<seq<H.Recv>>)
    requires P.WF(p) && Run(p, Received(room, answers), P.AsWritten).0 != P.NoRequest
    ensures answers != []
  {
  }

  lemma NextRead(room: nat, answers: seq<seq<H.Recv>>)
    requires AllRead(room, answers) && answers != []
    ensures var (ok, b) := H.Drain(room, answers[0]); ok && AllRead(room - |b|, answers[1..])
  {
  }

  lemma {:induction false} SuspendedHasMore(w: W.Writer, answers: seq<W.Answer>)
    requires w.toSend > 0
    ensures W.Call(w, answers, W.AsWritten).0 == W.Suspended ==> W.Call(w, answers, W.AsWritten).1.toSend > 0
    decreases |answers|
  {
    hide W.InRange, W.Offered, W.Step;
    if W.InRange(w) && W.Offered(w) != [] && answers != [] && answers[0].Took? {
      var next := W.Step(w, W.Taken(w, answers[0].n), W.AsWritten);
      if next.toSend > 0 {
        SuspendedHasMore(next, answers[1..]);
      }
    }
  }

  /** write() until the response is sent or the transfer fails: as many calls as there are. */
  method Send(reply: R.HttpReply, calls: seq<seq<W.Answer>>) returns (o: W.Outcome, wire: seq<char>)
    requires reply.Valid() && reply.Writer().toSend > 0
    modifies reply, reply.writeBuf
    ensures var (o', end, out) := W.Calls(old(reply.Writer()), calls, W.AsWritten); o == o' && wire == out
  {
    hide W.Call;
    wire := [];
    var rest := calls;
    ghost var all := W.Calls(reply.Writer(), calls, W.AsWritten);
    assert [] + all.2 == all.2;
    while rest != []
      invariant reply.Valid() && reply.Writer().toSend > 0
      invariant var (o', end, more) := W.Calls(reply.Writer(), rest, W.AsWritten); all == (o', end, wire + more)
      decreases |rest|
    {
      SuspendedHasMore(reply.Writer(), rest[0]);
      var keep, rearm, out;
      ghost var w := reply.Writer();
      o, keep, rearm, out := reply.Write(rest[0]);
      ghost var more := W.Calls(W.Call(w, rest[0], W.AsWritten).1, rest[1..], W.AsWritten).2;
      assert wire + (out + more) == wire + out + more;
      wire := wire + out;
      if o != W.Suspended {
        return;
      }
      rest := rest[1..];
    }
    assert wire + [] == wire;
    o := W.Suspended;
  }

  lemma SomethingExpected(m: Verdict, served: P.Code, file: seq<char>)
    requires Answered(m, served, file)
    ensures Expected(m, served, file) != []
  {
    hide R.Reply, R.NotFoundReply;
    R.NotFoundIs(|file|);
    if m.Accepted? {
      R.ReplyStart(served, m.view.linger, |file|);
    }
  }

  /** From the reads to the wire: when no boundary between the reads of a request shows and at most one
      short write ends strictly inside the head, the socket gets a prefix of the response to what the
      request means, and exactly that response when the transfer completes. */
  method Serve(conn: H.HttpConn, reply: R.HttpReply, answers: seq<seq<H.Recv>>, served: P.Code, file: seq<char>,
               calls: seq<seq<W.Answer>>, ghost m: Verdict) returns (o: W.Outcome, wire: seq<char>, ghost w: W.Writer)
    requires conn.Valid() && conn.Parser() == P.Init()
    requires reply.Valid() && reply.writeIndex == 0 && reply.bytesHaveSend == 0 && conn.readBuf != reply.writeBuf
    requires Answered(m, served, file) && X.Answerable(served)
    requires AllRead(P.READ_BUFF_SIZE, answers) && Uncut(Received(P.READ_BUFF_SIZE, answers))
    requires Meaning(Flatten(Received(P.READ_BUFF_SIZE, answers))) == m
    modifies conn, conn.readBuf, reply, reply.writeBuf
    ensures W.Ready(w) && W.Stream(w) == Expected(m, served, file)
    ensures W.InsideCalls(w, calls, W.AsWritten) <= 1 ==>
      wire <= Expected(m, served, file) && (o == W.Done <==> wire == Expected(m, served, file))
  {
    hide R.Reply, Received, AllRead, Uncut, Meaning, W.Calls, W.InsideCalls, P.WF;
    Receive(conn, reply, answers, served, file, m);
    w := reply.Writer();
    SomethingExpected(m, served, file);
    o, wire := Send(reply, calls);
    if W.InsideCalls(w, calls, W.AsWritten) <= 1 {
      W.ShortWritesDeliver(w, calls, W.AsWritten);
    }
  }
}
