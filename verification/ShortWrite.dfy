/** The resumable scatter/gather writer: how write() moves the two iovecs after a short writev,
    and exactly when the bytes that reach the socket are those of the response. */
module ShortWrite {

  /** One iovec: an offset into the write buffer or the mapped file, and a length. */
  datatype Iov = Iov(base: int, len: int)

  /** `AsWritten` compares and shortens the first iovec by its current length, `Repaired` by the
      length of the head. */
  datatype Variant = AsWritten | Repaired

  /** What write() works on: `head` is m_write_buff[..m_write_index]. */
  datatype Writer = Writer(head: seq<char>, file: seq<char>, iv0: Iov, iv1: Iov, count: nat,
                           toSend: int, sent: int)

  /** An answer of writev: bytes taken, a full socket buffer, or an error. */
  datatype Answer = Took(n: nat) | Again | Error

  /** `Spinning`: there is something left to send but nothing is offered, so that writev takes no
      byte and the loop of write() goes round for ever. */
  datatype Outcome = Done | Suspended | Failed | Spinning | Undefined

  /** The bytes the response consists of. */
  function Stream(w: Writer): seq<char> {
    if w.count == 2 then w.head + w.file else w.head
  }

  /** A state process_write leaves behind: nothing sent, the first iovec is the head, the second,
      when there is one, the file. */
  predicate Ready(w: Writer) {
    && w.sent == 0 && w.toSend == |Stream(w)|
    && w.iv0 == Iov(0, |w.head|) && (w.count == 2 ==> w.iv1 == Iov(0, |w.file|))
  }

  predicate Within(v: Iov, s: seq<char>) {
    0 <= v.len && (v.len > 0 ==> 0 <= v.base && v.base + v.len <= |s|)
  }

  /** The iovecs point into the response; otherwise writev is handed foreign memory. */
  predicate InRange(w: Writer) {
    Within(w.iv0, w.head) && (w.count == 2 ==> Within(w.iv1, w.file))
  }

  function Bytes(v: Iov, s: seq<char>): (b: seq<char>)
    requires Within(v, s)
    ensures |b| == v.len
  {
    if v.len == 0 then [] else s[v.base..v.base + v.len]
  }

  /** The bytes the next writev is offered. */
  function Offered(w: Writer): seq<char>
    requires InRange(w)
  {
    Bytes(w.iv0, w.head) + if w.count == 2 then Bytes(w.iv1, w.file) else []
  }

  /** How many bytes writev takes: some prefix of the offer, and at least one byte of it. */
  function Taken(w: Writer, n: nat): (t: nat)
    requires InRange(w)
    ensures t <= |Offered(w)| && (|Offered(w)| > 0 ==> t > 0)
    ensures 0 < n <= |Offered(w)| ==> t == n
  {
    var most := |Offered(w)|;
    if n > most then most else if n == 0 && most > 0 then 1 else n
  }

  /** The bookkeeping of write() after a writev that took t bytes. */
  function Step(w: Writer, t: nat, v: Variant): Writer {
    var sent := w.sent + t;
    var toSend := w.toSend - t;
    var reference := if v == AsWritten then w.iv0.len else |w.head|;
    if sent >= reference then
      w.(iv0 := w.iv0.(len := 0), iv1 := Iov(sent - |w.head|, toSend), sent := sent, toSend := toSend)
    else
      w.(iv0 := Iov(sent, reference - sent), sent := sent, toSend := toSend)
  }

  /** One call of write() with bytes left to send; the kernel answers one writev after the other
      and is full when the answers end. */
  function Call(w: Writer, answers: seq<Answer>, v: Variant): (Outcome, Writer, seq<char>)
    decreases |answers|
  {
    if !InRange(w) then (Undefined, w, [])
    else if Offered(w) == [] then (Spinning, w, [])
    else if answers == [] || answers[0].Again? then (Suspended, w, [])
    else if answers[0].Error? then (Failed, w, [])
    else
      var t := Taken(w, answers[0].n);
      var out := Offered(w)[..t];
      var next := Step(w, t, v);
      if next.toSend <= 0 then (Done, next, out)
      else
        var (o, end, more) := Call(next, answers[1..], v);
        (o, end, out + more)
  }

  /** A response from its first write() to its end, over any number of suspensions. */
  function Calls(w: Writer, calls: seq<seq<Answer>>, v: Variant): (Outcome, Writer, seq<char>)
    decreases |calls|
  {
    if calls == [] then (Suspended, w, [])
    else
      var (o, next, out) := Call(w, calls[0], v);
      if o == Suspended then
        var (o', end, more) := Calls(next, calls[1..], v);
        (o', end, out + more)
      else (o, next, out)
  }

  // ------------------------------------------------------------- the good states

  /** The iovecs offer exactly the rest of the response. */
  predicate Exact(w: Writer) {
    && 0 <= w.sent && 0 <= w.toSend && w.sent + w.toSend == |Stream(w)|
    && InRange(w) && Offered(w) == Stream(w)[w.sent..]
  }

  /** The states of a correct transfer: the head is untouched, or partly sent, or gone. */
  predicate Good(w: Writer) {
    && 0 <= w.sent && 0 <= w.toSend && w.sent + w.toSend == |Stream(w)|
    && (if w.sent < |w.head|
        then w.iv0 == Iov(w.sent, |w.head| - w.sent) && (w.count == 2 ==> w.iv1 == Iov(0, |w.file|))
        else w.iv0.len == 0 && (w.count == 2 ==> w.iv1 == Iov(w.sent - |w.head|, w.toSend)))
  }

  lemma {:induction false} GoodIsExact(w: Writer)
    requires Good(w)
    ensures Exact(w)
  {
    if w.sent < |w.head| {
      assert Bytes(w.iv0, w.head) == w.head[w.sent..];
    } else if w.count == 2 {
      assert Stream(w)[w.sent..] == w.file[w.sent - |w.head|..];
    }
  }

  /** The guard of the failing case: the head is already partly sent and this write ends inside
      it again. */
  predicate SecondInside(w: Writer, t: nat) {
    0 < w.sent && w.sent + t < |w.head|
  }

  /** A short write keeps the transfer correct if and only if it is not a second one that ends
      strictly inside the head. */
  lemma {:induction false} StepExactIff(w: Writer, t: nat)
    requires Good(w) && 0 < t <= |Offered(w)|
    ensures Exact(Step(w, t, AsWritten)) <==> !SecondInside(w, t)
    ensures Exact(Step(w, t, AsWritten)) ==> Good(Step(w, t, AsWritten))
  {
    GoodIsExact(w);
    var next := Step(w, t, AsWritten);
    if SecondInside(w, t) {
      if InRange(next) {
        assert |Offered(next)| != |Stream(next)[next.sent..]|;
      }
    } else {
      GoodIsExact(next);
    }
  }

  lemma {:induction false} StepRepaired(w: Writer, t: nat)
    requires Good(w) && t <= |Offered(w)|
    ensures Good(Step(w, t, Repaired))
  {
    GoodIsExact(w);
  }

  // --------------------------------------------------------- exactly which runs

  function Sum(ts: seq<nat>): nat {
    if ts == [] then 0 else ts[0] + Sum(ts[1..])
  }

  /** How many of the writes `ts`, made after `sent` bytes, end strictly inside a head of `head` bytes. */
  function InsideCount(sent: int, head: nat, ts: seq<nat>): nat
    decreases |ts|
  {
    if ts == [] then 0
    else (if sent + ts[0] < head then 1 else 0) + InsideCount(sent + ts[0], head, ts[1..])
  }

  /** Before and after every one of the writes the iovecs offer exactly the rest of the response. */
  predicate AllExact(w: Writer, ts: seq<nat>)
    decreases |ts|
  {
    Exact(w) && (ts != [] ==> AllExact(Step(w, ts[0], AsWritten), ts[1..]))
  }

  predicate Fits(w: Writer, inside: nat) {
    inside + (if 0 < w.sent < |w.head| then 1 else 0) <= 1
  }

  lemma {:induction false} RunExactIff(w: Writer, ts: seq<nat>)
    requires Good(w) && (forall i :: 0 <= i < |ts| ==> 0 < ts[i]) && Sum(ts) <= w.toSend
    ensures AllExact(w, ts) <==> Fits(w, InsideCount(w.sent, |w.head|, ts))
    decreases |ts|
  {
    hide InRange, Offered, Exact;
    GoodIsExact(w);
    if ts != [] {
      var next := Step(w, ts[0], AsWritten);
      OfferedIsRest(w);
      StepExactIff(w, ts[0]);
      if Exact(next) {
        RunExactIff(next, ts[1..]);
        if next.sent >= |w.head| {
          NoneInsideBehind(next.sent, |w.head|, ts[1..]);
        }
      }
    } else {
      assert AllExact(w, ts);
    }
  }

  lemma {:induction false} NoneInsideBehind(sent: int, head: nat, ts: seq<nat>)
    requires sent >= head
    ensures InsideCount(sent, head, ts) == 0
    decreases |ts|
  {
    if ts != [] {
      NoneInsideBehind(sent + ts[0], head, ts[1..]);
    }
  }

  lemma OfferedIsRest(w: Writer)
    requires Exact(w)
    ensures InRange(w) && |Offered(w)| == w.toSend && Stream(w)[w.sent..] == Offered(w)
  {
  }

  /** From the state of process_write the writer is exact throughout a run of short writes if and
      only if at most one of them ends strictly inside the head. */
  lemma {:induction false} ResponseExactIff(w: Writer, ts: seq<nat>)
    requires Ready(w) && (forall i :: 0 <= i < |ts| ==> 0 < ts[i]) && Sum(ts) <= w.toSend
    ensures AllExact(w, ts) <==> InsideCount(0, |w.head|, ts) <= 1
  {
    RunExactIff(w, ts);
  }

  // --------------------------------------------------------- what reaches the socket

  /** How many writevs of one call end strictly inside the head. */
  function InsideCall(w: Writer, answers: seq<Answer>, v: Variant): nat
    decreases |answers|
  {
    if !InRange(w) || Offered(w) == [] || answers == [] || !answers[0].Took? then 0
    else
      var next := Step(w, Taken(w, answers[0].n), v);
      (if next.sent < |w.head| then 1 else 0) +
      if next.toSend <= 0 then 0 else InsideCall(next, answers[1..], v)
  }

  function InsideCalls(w: Writer, calls: seq<seq<Answer>>, v: Variant): nat
    decreases |calls|
  {
    if calls == [] then 0
    else
      var (o, next, out) := Call(w, calls[0], v);
      InsideCall(w, calls[0], v) + if o == Suspended then InsideCalls(next, calls[1..], v) else 0
  }

  /** Two states of one transfer */
  predicate Same(a: Writer, b: Writer) {
    a.head == b.head && a.file == b.file && a.count == b.count
  }

  /** The bytes a transfer has sent between two of its states are that part of the response. */
  predicate Sends(w: Writer, o: Outcome, end: Writer, out: seq<char>) {
    && o != Undefined && o != Spinning && Good(end)
    && Same(w, end)
    && 0 <= w.sent <= end.sent <= |Stream(w)|
    && out == Stream(w)[w.sent..end.sent]
    && (o == Done <==> end.toSend == 0)
  }

  lemma {:induction false} SendsTrans(w: Writer, m: Writer, a: seq<char>, o: Outcome, end: Writer, b: seq<char>)
    requires 0 <= w.sent <= m.sent <= |Stream(w)| && Same(w, m)
    requires a == Stream(w)[w.sent..m.sent] && Sends(m, o, end, b)
    ensures Sends(w, o, end, a + b)
  {
  }

  /** One writev that keeps the transfer correct sends the next bytes of the response. */
  lemma {:induction false} StepSends(w: Writer, t: nat, v: Variant)
    requires Good(w) && InRange(w) && 0 < t <= |Offered(w)| && |Offered(w)| == w.toSend
    requires Stream(w)[w.sent..] == Offered(w) && (v == AsWritten ==> !SecondInside(w, t))
    ensures var next := Step(w, t, v);
      && Good(next) && next.sent == w.sent + t && next.toSend == w.toSend - t
      && Same(w, next) && |w.head| <= |Stream(w)|
      && 0 <= next.sent <= |Stream(w)| && next.sent + next.toSend == |Stream(w)|
      && Offered(w)[..t] == Stream(w)[w.sent..next.sent]
  {
    hide Exact, Good, InRange, Offered;
    if v == AsWritten {
      StepExactIff(w, t);
    } else {
      StepRepaired(w, t);
    }
    hide Step;
    StepCounts(w, t, v);
    GoodBounds(w);
    GoodBounds(Step(w, t, v));
    assert Offered(w)[..t] == Stream(w)[w.sent..][..t] == Stream(w)[w.sent..w.sent + t];
  }

  lemma {:induction false} CallSends(w: Writer, answers: seq<Answer>, v: Variant)
    requires Good(w) && w.toSend > 0
    requires v == AsWritten ==> Fits(w, InsideCall(w, answers, v))
    ensures var (o, end, out) := Call(w, answers, v);
      && Sends(w, o, end, out)
      && forall k: nat :: v == AsWritten && Fits(w, InsideCall(w, answers, v) + k) ==> Fits(end, k)
    decreases |answers|
  {
    hide Exact, Good, InRange, Offered, Step, Sends;
    GoodIsExact(w);
    OfferedIsRest(w);
    GoodBounds(w);
    SendsNothing(w);
    if answers != [] && answers[0].Took? {
      var t := Taken(w, answers[0].n);
      var next := Step(w, t, v);
      StepCounts(w, t, v);
      StepSends(w, t, v);
      SendsNothing(next);
      if next.toSend > 0 {
        CallSends(next, answers[1..], v);
        var (o, end, more) := Call(next, answers[1..], v);
        SendsTrans(w, next, Offered(w)[..t], o, end, more);
      } else {
        SendsTrans(w, next, Offered(w)[..t], Done, next, []);
        assert Offered(w)[..t] + [] == Offered(w)[..t];
      }
    }
  }

  lemma SendsNothing(w: Writer)
    requires Good(w)
    ensures w.toSend > 0 ==> Sends(w, Suspended, w, []) && Sends(w, Failed, w, [])
    ensures w.toSend <= 0 ==> Sends(w, Done, w, [])
  {
    GoodBounds(w);
    assert Stream(w)[w.sent..w.sent] == [];
  }

  lemma GoodBounds(w: Writer)
    requires Good(w)
    ensures 0 <= w.sent <= |Stream(w)| && w.sent + w.toSend == |Stream(w)|
  {
  }

  lemma StepCounts(w: Writer, t: nat, v: Variant)
    ensures var next := Step(w, t, v);
      next.sent == w.sent + t && next.toSend == w.toSend - t && Same(w, next)
  {
  }

  lemma {:induction false} CallsSend(w: Writer, calls: seq<seq<Answer>>, v: Variant)
    requires Good(w) && w.toSend > 0
    requires v == AsWritten ==> Fits(w, InsideCalls(w, calls, v))
    ensures var (o, end, out) := Calls(w, calls, v); Sends(w, o, end, out)
    decreases |calls|
  {
    hide Good, Call, InsideCall;
    GoodBounds(w);
    if calls != [] {
      CallSends(w, calls[0], v);
      var (o, next, out) := Call(w, calls[0], v);
      if o == Suspended {
        GoodBounds(next);
        CallsSend(next, calls[1..], v);
        var (o', end, more) := Calls(next, calls[1..], v);
        SendsTrans(w, next, out, o', end, more);
      }
    }
  }

  /** Over any number of write() calls, suspended by full socket buffers wherever the kernel likes,
      the bytes handed to the socket are a prefix of head ++ file, all of it on completion, and the
      two counters always add up to its length, as long as at most one short write ends strictly
      inside the head.  With the repaired step the condition goes away. */
  lemma {:induction false} ShortWritesDeliver(w: Writer, calls: seq<seq<Answer>>, v: Variant)
    requires Ready(w) && w.toSend > 0
    requires v == AsWritten ==> InsideCalls(w, calls, v) <= 1
    ensures var (o, end, out) := Calls(w, calls, v);
      && o != Undefined && o != Spinning
      && out <= Stream(w) && |out| == end.sent && end.sent + end.toSend == |Stream(w)|
      && (o == Done <==> out == Stream(w))
  {
    CallsSend(w, calls, v);
    GoodBounds(Calls(w, calls, v).1);
  }

  /** writev takes these numbers of bytes, and then answers as `rest` says. */
  function Takes(ts: seq<nat>, rest: seq<Answer>): seq<Answer> {
    if ts == [] then rest else [Took(ts[0])] + Takes(ts[1..], rest)
  }

  /** A call ended so and sent the next n bytes of the response. */
  predicate Sent(w: Writer, r: (Outcome, Writer, seq<char>), o: Outcome, n: nat) {
    && r.0 == o && 0 <= w.sent && r.1.sent == w.sent + n <= |Stream(w)|
    && r.2 == Stream(w)[w.sent..w.sent + n]
  }

  lemma {:induction false} SentOn(w: Writer, next: Writer, t: nat, r: (Outcome, Writer, seq<char>), o: Outcome, n: nat)
    requires Same(w, next) && 0 <= w.sent && next.sent == w.sent + t <= |Stream(w)| && Sent(next, r, o, n)
    ensures Sent(w, (r.0, r.1, Stream(w)[w.sent..next.sent] + r.2), o, t + n)
  {
    var s := Stream(w);
    assert s[w.sent..next.sent] + s[next.sent..next.sent + n] == s[w.sent..next.sent + n];
  }

  /** What one call makes of the answers of the kernel: it sends as many bytes as writev takes, is done
      when none is left, waits when the socket is full, and fails when writev does. */
  lemma {:induction false} CallIs(w: Writer, ts: seq<nat>, last: Answer, more: seq<Answer>)
    requires Good(w) && w.toSend > 0 && (last.Again? || last.Error?)
    requires (forall i :: 0 <= i < |ts| ==> 0 < ts[i]) && Sum(ts) <= w.toSend
    requires Fits(w, InsideCount(w.sent, |w.head|, ts))
    ensures Sent(w, Call(w, Takes(ts, [last] + more), AsWritten),
                 if Sum(ts) == w.toSend then Done else if last.Again? then Suspended else Failed, Sum(ts))
    decreases |ts|
  {
    hide Good, InRange, Offered, Step, Exact, Call, Sent;
    GoodIsExact(w);
    OfferedIsRest(w);
    GoodBounds(w);
    if ts == [] {
      CallStopsAt(w, last, more);
    } else {
      var rest := Takes(ts[1..], [last] + more);
      CallFirst(w, ts[0], rest);
      StepCounts(w, ts[0], AsWritten);
      StepSends(w, ts[0], AsWritten);
      var next := Step(w, ts[0], AsWritten);
      if next.toSend > 0 {
        if next.sent >= |w.head| {
          NoneInsideBehind(next.sent, |w.head|, ts[1..]);
        }
        CallIs(next, ts[1..], last, more);
        SentOn(w, next, ts[0], Call(next, rest, AsWritten),
               if Sum(ts) == w.toSend then Done else if last.Again? then Suspended else Failed, Sum(ts[1..]));
      } else {
        NothingMore(ts[1..]);
        SentAll(w, next, ts[0]);
      }
    }
  }

  lemma SentAll(w: Writer, next: Writer, t: nat)
    requires 0 <= w.sent && next.sent == w.sent + t <= |Stream(w)|
    ensures Sent(w, (Done, next, Stream(w)[w.sent..next.sent]), Done, t)
  {
  }

  lemma {:induction false} CallFirst(w: Writer, t: nat, rest: seq<Answer>)
    requires InRange(w) && 0 < t <= |Offered(w)|
    ensures var next := Step(w, t, AsWritten);
      Call(w, [Took(t)] + rest, AsWritten) ==
        if next.toSend <= 0 then (Done, next, Offered(w)[..t])
        else
          var (o, end, out) := Call(next, rest, AsWritten);
          (o, end, Offered(w)[..t] + out)
  {
    assert ([Took(t)] + rest)[1..] == rest;
  }

  lemma {:induction false} CallStopsAt(w: Writer, last: Answer, more: seq<Answer>)
    requires InRange(w) && Offered(w) != [] && (last.Again? || last.Error?)
    requires 0 <= w.sent <= |Stream(w)|
    ensures Sent(w, Call(w, [last] + more, AsWritten), if last.Again? then Suspended else Failed, 0)
  {
    assert ([last] + more)[0] == last;
  }

  lemma {:induction false} NothingMore(ts: seq<nat>)
    requires Sum(ts) <= 0 && forall i :: 0 <= i < |ts| ==> 0 < ts[i]
    ensures ts == []
  {
  }

  // ------------------------------------------------------------ what is lost otherwise

  /** The states behind a second write inside the head: the first iovec ends too early, or is gone
      although the head is not. */
  predicate Lossy(w: Writer) {
    && 0 <= w.sent < |w.head| && w.toSend == |Stream(w)| - w.sent
    && (if w.iv0.len == 0 then w.iv1 == Iov(w.sent - |w.head|, w.toSend)
        else
          && w.iv0.base == w.sent && 0 < w.iv0.len < |w.head| - w.sent
          && (w.count == 2 ==> w.iv1 == Iov(0, |w.file|)))
  }

  /** The first m bytes of the file were sent while the last g bytes of the head were missing, and
      the last g of those bytes are sent again in their place. */
  predicate Shifted(w: Writer, end: Writer, out: seq<char>, g: nat, m: nat) {
    && w.count == 2 && 0 < g <= m <= |w.file| && 0 <= w.sent && w.sent + g <= |w.head|
    && |w.head| + m - g <= end.sent <= |w.head| + |w.file|
    && out == w.head[w.sent..|w.head| - g] + w.file[..m] + w.file[m - g..end.sent - |w.head|]
  }

  /** What is certain from a lossy state on: the transfer does not complete and stays in such a
      state, or it goes on with a part of the file in place of the end of the head. */
  ghost predicate Loses(w: Writer, o: Outcome, end: Writer, out: seq<char>) {
    || (o != Done && (o == Suspended ==>
          Lossy(end) && Same(w, end) && 0 <= w.sent <= end.sent <= |w.head| && out == w.head[w.sent..end.sent]))
    || (o != Undefined && o != Spinning && Good(end) && Same(w, end) && (o == Done <==> end.toSend == 0)
        && exists g: nat, m: nat :: Shifted(w, end, out, g, m))
  }

  lemma {:induction false} SecondInsideLoses(w: Writer, t: nat)
    requires Good(w) && 0 < t && SecondInside(w, t)
    ensures Lossy(Step(w, t, AsWritten))
  {
  }

  lemma {:induction false} LossyOffer(w: Writer)
    requires Lossy(w) && InRange(w) && Offered(w) != []
    ensures w.iv0.len > 0 && w.iv0.base == w.sent && w.sent + w.iv0.len < |w.head|
    ensures Offered(w) == w.head[w.sent..w.sent + w.iv0.len] + if w.count == 2 then w.file else []
  {
    assert w.file[0..|w.file|] == w.file;
  }

  /** A writev that stays inside the shortened first iovec. */
  lemma {:induction false} LossyShort(w: Writer, t: nat)
    requires Lossy(w) && w.iv0.len > 0 && 0 < t <= w.iv0.len
    ensures var next := Step(w, t, AsWritten);
      Lossy(next) && Same(w, next) && next.sent == w.sent + t && next.toSend > 0
  {
  }

  /** A writev that goes on into the file: it covers up the missing end of the head, or the second
      iovec ends up in front of the file. */
  lemma {:induction false} LossyLong(w: Writer, t: nat)
    requires Lossy(w) && w.iv0.len > 0 && w.count == 2 && w.iv0.len < t <= w.iv0.len + |w.file|
    ensures var next := Step(w, t, AsWritten); var g := |w.head| - w.sent - w.iv0.len; var m := t - w.iv0.len;
      && Same(w, next) && next.sent == w.sent + t && next.toSend > 0
      && (if m < g then !InRange(next) else Good(next) && next.sent == |w.head| + m - g)
  {
  }

  lemma {:induction false} ShiftStarts(w: Writer, next: Writer, n: nat, t: nat)
    requires w.count == 2 && 0 <= w.sent && w.sent + n < |w.head| && n < t <= n + |w.file|
    requires var g := |w.head| - w.sent - n; g <= t - n && next.sent == |w.head| + (t - n) - g
    ensures Shifted(w, next, (w.head[w.sent..w.sent + n] + w.file)[..t], |w.head| - w.sent - n, t - n)
  {
    assert (w.head[w.sent..w.sent + n] + w.file)[..t] == w.head[w.sent..w.sent + n] + w.file[..t - n] + [];
  }

  /** The bytes sent behind a shift are those of the file. */
  lemma {:induction false} ShiftOn(w: Writer, x: Writer, a: seq<char>, end: Writer, b: seq<char>, g: nat, m: nat)
    requires Shifted(w, x, a, g, m) && Same(w, x) && x.sent <= end.sent <= |Stream(w)|
    requires b == Stream(w)[x.sent..end.sent]
    ensures Shifted(w, end, a + b, g, m)
  {
    var h := |w.head|;
    FileInStream(w, x.sent - h, end.sent - h);
    JoinParts(w.head[w.sent..h - g] + w.file[..m], w.file, m - g, x.sent - h, end.sent - h);
  }

  /** Two parts of a sequence that meet, behind other bytes */
  lemma JoinParts(a: seq<char>, s: seq<char>, i: int, j: int, k: int)
    requires 0 <= i <= j <= k <= |s|
    ensures (a + s[i..j]) + s[j..k] == a + s[i..k]
  {
  }

  lemma FileInStream(w: Writer, i: int, j: int)
    requires w.count == 2 && 0 <= i <= j <= |w.file|
    ensures |Stream(w)| == |w.head| + |w.file|
    ensures Stream(w)[|w.head| + i..|w.head| + j] == w.file[i..j]
  {
  }

  /** Bytes of the head that were sent before. */
  lemma {:induction false} LosesOn(w: Writer, x: Writer, a: seq<char>, o: Outcome, end: Writer, b: seq<char>)
    requires 0 <= w.sent <= x.sent <= |w.head| && Same(w, x)
    requires a == w.head[w.sent..x.sent] && Loses(x, o, end, b)
    ensures Loses(w, o, end, a + b)
  {
    hide Lossy, Good;
    if exists g: nat, m: nat :: Shifted(x, end, b, g, m) {
      var g: nat, m: nat :| Shifted(x, end, b, g, m);
      ShiftBefore(w, x, a, end, b, g, m);
    }
  }

  lemma {:induction false} ShiftBefore(w: Writer, x: Writer, a: seq<char>, end: Writer, b: seq<char>, g: nat, m: nat)
    requires 0 <= w.sent <= x.sent <= |w.head| && Same(w, x)
    requires a == w.head[w.sent..x.sent] && Shifted(x, end, b, g, m)
    ensures Shifted(w, end, a + b, g, m)
  {
    Prepend(w.head, w.sent, x.sent, |w.head| - g, w.file[..m], w.file[m - g..end.sent - |w.head|]);
  }

  lemma Prepend(s: seq<char>, i: int, j: int, k: int, q: seq<char>, r: seq<char>)
    requires 0 <= i <= j <= k <= |s|
    ensures s[i..j] + (s[j..k] + q + r) == s[i..k] + q + r
  {
    assert s[i..j] + s[j..k] == s[i..k];
  }

  lemma {:induction false} LossyCall(w: Writer, answers: seq<Answer>)
    requires Lossy(w)
    ensures var (o, end, out) := Call(w, answers, AsWritten); Loses(w, o, end, out)
    decreases |answers|
  {
    hide Lossy, InRange, Offered, Step, Good, Loses;
    if InRange(w) && Offered(w) != [] && answers != [] && answers[0].Took? {
      var t := Taken(w, answers[0].n);
      LossyOffer(w);
      var n: nat := w.iv0.len;
      var next, out := Step(w, t, AsWritten), Offered(w)[..t];
      LossyBounds(w);
      if t <= n {
        LossyShort(w, t);
        assert out == w.head[w.sent..next.sent];
        LossyCall(next, answers[1..]);
        var (o, end, more) := Call(next, answers[1..], AsWritten);
        LosesOn(w, next, out, o, end, more);
      } else {
        LossyLong(w, t);
        if t - n < |w.head| - w.sent - n {
          StopsUndefined(w, Call(w, answers, AsWritten).1, Call(w, answers, AsWritten).2);
        } else {
          ShiftStarts(w, next, n, t);
          BehindTheHead(w, next, out, answers[1..], |w.head| - w.sent - n, t - n);
        }
      }
    } else {
      LossyStops(w, answers);
    }
  }

  lemma StopsUndefined(w: Writer, end: Writer, out: seq<char>)
    ensures Loses(w, Undefined, end, out)
  {
  }

  lemma LossyStops(w: Writer, answers: seq<Answer>)
    requires Lossy(w) && !(InRange(w) && Offered(w) != [] && answers != [] && answers[0].Took?)
    ensures var (o, end, out) := Call(w, answers, AsWritten); Loses(w, o, end, out)
  {
  }

  lemma LossyBounds(w: Writer)
    requires Lossy(w)
    ensures 0 <= w.sent < |w.head|
  {
  }

  /** The rest of a call behind a shift. */
  lemma {:induction false} BehindTheHead(w: Writer, x: Writer, a: seq<char>, answers: seq<Answer>, g: nat, m: nat)
    requires Good(x) && x.toSend > 0 && Same(w, x) && |w.head| <= x.sent && Shifted(w, x, a, g, m)
    ensures var (o, end, more) := Call(x, answers, AsWritten); Loses(w, o, end, a + more)
  {
    hide Good, Call, InsideCall, Shifted;
    InsideBounds(x, answers);
    CallSends(x, answers, AsWritten);
    var (o, end, more) := Call(x, answers, AsWritten);
    ShiftOn(w, x, a, end, more, g, m);
  }

  lemma {:induction false} BehindTheHeadCalls(w: Writer, x: Writer, a: seq<char>, calls: seq<seq<Answer>>,
                                              g: nat, m: nat)
    requires Good(x) && x.toSend > 0 && Same(w, x) && |w.head| <= x.sent && Shifted(w, x, a, g, m)
    ensures var (o, end, more) := Calls(x, calls, AsWritten); Loses(w, o, end, a + more)
  {
    hide Good, Calls, InsideCalls, Shifted;
    NoneInsideCalls(x, calls);
    CallsSend(x, calls, AsWritten);
    var (o, end, more) := Calls(x, calls, AsWritten);
    ShiftOn(w, x, a, end, more, g, m);
  }

  lemma {:induction false} LossyCalls(w: Writer, calls: seq<seq<Answer>>)
    requires Lossy(w)
    ensures var (o, end, out) := Calls(w, calls, AsWritten); Loses(w, o, end, out)
    decreases |calls|, 0
  {
    hide Lossy, Call, Loses;
    LossyBounds(w);
    if calls == [] {
      LossyWaits(w);
    } else {
      LossyCall(w, calls[0]);
      var (o, next, out) := Call(w, calls[0], AsWritten);
      if o == Suspended {
        GoesOn(w, next, out, calls[1..]);
      }
    }
  }

  lemma LossyWaits(w: Writer)
    requires Lossy(w)
    ensures Loses(w, Suspended, w, [])
  {
    assert w.head[w.sent..w.sent] == [];
  }

  /** The calls behind a suspension. */
  lemma {:induction false} GoesOn(w: Writer, next: Writer, out: seq<char>, calls: seq<seq<Answer>>)
    requires Loses(w, Suspended, next, out)
    ensures var (o, end, more) := Calls(next, calls, AsWritten); Loses(w, o, end, out + more)
    decreases |calls|, 1
  {
    hide Calls, Lossy, Good;
    var (o, end, more) := Calls(next, calls, AsWritten);
    if exists g: nat, m: nat :: Shifted(w, next, out, g, m) {
      var g: nat, m: nat :| Shifted(w, next, out, g, m);
      if Good(next) && Same(w, next) && next.toSend != 0 {
        GoodBounds(next);
        BehindTheHeadCalls(w, next, out, calls, g, m);
      } else {
        LossyCalls(next, calls);
        LosesOn(w, next, out, o, end, more);
      }
    } else {
      LossyCalls(next, calls);
      LosesOn(w, next, out, o, end, more);
    }
  }

  /** Writes behind the head end nowhere inside it; a call that sends nothing makes none. */
  lemma {:induction false} InsideBounds(w: Writer, answers: seq<Answer>)
    ensures w.sent >= |w.head| ==> InsideCall(w, answers, AsWritten) == 0
    ensures var end := Call(w, answers, AsWritten).1;
      end.head == w.head && w.sent + InsideCall(w, answers, AsWritten) <= end.sent
    decreases |answers|
  {
    hide InRange, Offered;
    if InRange(w) && Offered(w) != [] && answers != [] && answers[0].Took? {
      InsideBounds(Step(w, Taken(w, answers[0].n), AsWritten), answers[1..]);
    }
  }

  lemma {:induction false} NoneInsideCalls(w: Writer, calls: seq<seq<Answer>>)
    requires w.sent >= |w.head|
    ensures InsideCalls(w, calls, AsWritten) == 0
    decreases |calls|
  {
    hide Call, InsideCall;
    if calls != [] {
      InsideBounds(w, calls[0]);
      NoneInsideCalls(Call(w, calls[0], AsWritten).1, calls[1..]);
    }
  }

  lemma {:induction false} CallLoses(w: Writer, answers: seq<Answer>)
    requires Good(w) && w.toSend > 0
    requires !Fits(w, InsideCall(w, answers, AsWritten))
    ensures var (o, end, out) := Call(w, answers, AsWritten); Loses(w, o, end, out)
    decreases |answers|
  {
    hide Exact, Good, InRange, Offered, Step, Lossy, Loses;
    GoodIsExact(w);
    OfferedIsRest(w);
    GoodBounds(w);
    var t := Taken(w, answers[0].n);
    var next, out := Step(w, t, AsWritten), Offered(w)[..t];
    StepCounts(w, t, AsWritten);
    HeadInStream(w);
    InsideBounds(next, answers[1..]);
    if SecondInside(w, t) {
      SecondInsideLoses(w, t);
      LossyCall(next, answers[1..]);
    } else {
      StepExactIff(w, t);
      GoodBounds(next);
      CallLoses(next, answers[1..]);
    }
    PartOfHead(w, w.sent, next.sent);
    assert out == Stream(w)[w.sent..next.sent];
    var (o, end, more) := Call(next, answers[1..], AsWritten);
    LosesOn(w, next, out, o, end, more);
  }

  lemma HeadInStream(w: Writer)
    ensures |w.head| <= |Stream(w)|
  {
  }

  lemma PartOfHead(w: Writer, i: int, j: int)
    requires 0 <= i <= j <= |w.head|
    ensures j <= |Stream(w)| && Stream(w)[i..j] == w.head[i..j]
  {
  }

  lemma {:induction false} CallsLose(w: Writer, calls: seq<seq<Answer>>)
    requires Good(w) && w.toSend > 0
    requires !Fits(w, InsideCalls(w, calls, AsWritten))
    ensures var (o, end, out) := Calls(w, calls, AsWritten); Loses(w, o, end, out)
    decreases |calls|
  {
    hide Good, Call, InsideCall, Lossy, Loses;
    GoodBounds(w);
    var (o, next, out) := Call(w, calls[0], AsWritten);
    if !Fits(w, InsideCall(w, calls[0], AsWritten)) {
      CallLoses(w, calls[0]);
      if o == Suspended {
        GoesOn(w, next, out, calls[1..]);
      }
    } else {
      CallSends(w, calls[0], AsWritten);
      InsideBounds(w, calls[0]);
      GoodBounds(next);
      if next.sent >= |w.head| {
        NoneInsideCalls(next, calls[1..]);
      }
      CallsLose(next, calls[1..]);
      var (o', end, more) := Calls(next, calls[1..], AsWritten);
      PartOfHead(w, w.sent, next.sent);
      LosesOn(w, next, out, o', end, more);
    }
  }

  /** Whether a shift shows depends on the bytes alone. */
  lemma {:induction false} ShiftShowsIff(w: Writer, end: Writer, out: seq<char>, g: nat, m: nat)
    requires Shifted(w, end, out, g, m) && w.sent == 0 && end.sent == |Stream(w)|
    ensures out == Stream(w) <==> w.file[..m] == (w.head[|w.head| - g..] + w.file)[..m]
  {
    var h, rest := |w.head|, w.head[|w.head| - g..] + w.file;
    assert Stream(w) == w.head[..h - g] + rest;
    assert out == w.head[..h - g] + (w.file[..m] + w.file[m - g..]);
    assert rest == rest[..m] + w.file[m - g..];
    SamePrefix(w.head[..h - g], w.file[..m] + w.file[m - g..], rest);
    if w.file[..m] + w.file[m - g..] == rest {
      assert w.file[..m] == (w.file[..m] + w.file[m - g..])[..m];
    }
  }

  lemma SamePrefix(a: seq<char>, b: seq<char>, c: seq<char>)
    ensures a + b == a + c <==> b == c
  {
    assert (a + b)[|a|..] == b && (a + c)[|a|..] == c;
  }

  /** A whole response with a shift, and when that does not show. */
  predicate WhollyShifted(w: Writer, end: Writer, out: seq<char>, g: nat, m: nat) {
    && Shifted(w, end, out, g, m) && end.sent == |Stream(w)|
    && (out == Stream(w) <==> w.file[..m] == (w.head[|w.head| - g..] + w.file)[..m])
  }

  /** Exactly what a transfer that completes has sent: the response if at most one short write ended
      strictly inside the head.  Behind two, only a response with a file completes, and the last g
      bytes of its head are lost and g bytes of the file sent twice; that is the response itself only
      if the file begins with those bytes of the head and repeats them. */
  lemma {:induction false} CompletedSends(w: Writer, calls: seq<seq<Answer>>)
    requires Ready(w) && w.toSend > 0 && Calls(w, calls, AsWritten).0 == Done
    ensures var (o, end, out) := Calls(w, calls, AsWritten);
      if InsideCalls(w, calls, AsWritten) <= 1 then out == Stream(w)
      else exists g: nat, m: nat :: WhollyShifted(w, end, out, g, m)
  {
    hide Calls, InsideCalls, Good, Lossy, Shifted;
    ReadyIsGood(w);
    if InsideCalls(w, calls, AsWritten) <= 1 {
      ShortWritesDeliver(w, calls, AsWritten);
    } else {
      CallsLose(w, calls);
      var (o, end, out) := Calls(w, calls, AsWritten);
      var g: nat, m: nat :| Shifted(w, end, out, g, m);
      GoodBounds(end);
      ShiftShowsIff(w, end, out, g, m) by {
        assert Shifted(w, end, out, g, m);
      }
      assert WhollyShifted(w, end, out, g, m) by {
        assert Shifted(w, end, out, g, m);
      }
    }
  }

  lemma ShiftBounds(w: Writer, end: Writer, out: seq<char>, g: nat, m: nat)
    requires Shifted(w, end, out, g, m)
    ensures w.count == 2 && 0 < g <= m <= |w.file| && g <= |w.head|
  {
  }

  /** The first byte of the file is not one of the head, as with a page that starts with '<'. */
  predicate FileApart(w: Writer) {
    w.count == 2 && w.file != [] ==> w.file[0] !in w.head
  }

  /** Exactly when such a response arrives: a transfer that completes has sent it if and only if at
      most one short write ended strictly inside the head. */
  lemma {:induction false} DeliversIff(w: Writer, calls: seq<seq<Answer>>)
    requires Ready(w) && w.toSend > 0 && FileApart(w)
    ensures var (o, end, out) := Calls(w, calls, AsWritten);
      o == Done ==> (out == Stream(w) <==> InsideCalls(w, calls, AsWritten) <= 1)
  {
    hide Calls, InsideCalls, Shifted;
    var (o, end, out) := Calls(w, calls, AsWritten);
    if o == Done {
      CompletedSends(w, calls);
      if InsideCalls(w, calls, AsWritten) > 1 {
        var g: nat, m: nat :| WhollyShifted(w, end, out, g, m);
        ShiftBounds(w, end, out, g, m);
        assert (w.head[|w.head| - g..] + w.file)[..m][0] == w.head[|w.head| - g];
        assert w.file[..m][0] == w.file[0];
      }
    }
  }

  lemma ReadyIsGood(w: Writer)
    requires Ready(w)
    ensures Good(w)
  {
  }

  // --------------------------------------------------------- for every file of a length

  /** What a call does depends on the lengths only, except for the bytes it sends. */
  lemma {:induction false} CallLengths(w: Writer, f: seq<char>, answers: seq<Answer>)
    requires |f| == |w.file|
    ensures var (o, end, out) := Call(w, answers, AsWritten);
      var (o', end', out') := Call(w.(file := f), answers, AsWritten);
      o' == o && end' == end.(file := f) && Same(w, end)
    ensures InsideCall(w.(file := f), answers, AsWritten) == InsideCall(w, answers, AsWritten)
    decreases |answers|
  {
    hide Offered, InRange, Step;
    OfferLength(w, f);
    if InRange(w) && Offered(w) != [] && answers != [] && answers[0].Took? {
      StepLengths(w, f, Taken(w, answers[0].n));
      CallLengths(Step(w, Taken(w, answers[0].n), AsWritten), f, answers[1..]);
    }
  }

  lemma StepLengths(w: Writer, f: seq<char>, t: nat)
    ensures Step(w.(file := f), t, AsWritten) == Step(w, t, AsWritten).(file := f) && Same(w, Step(w, t, AsWritten))
  {
  }

  lemma OfferLength(w: Writer, f: seq<char>)
    requires |f| == |w.file|
    ensures InRange(w.(file := f)) <==> InRange(w)
    ensures InRange(w) ==> |Offered(w.(file := f))| == |Offered(w)|
  {
  }

  lemma {:induction false} CallsLengths(w: Writer, f: seq<char>, calls: seq<seq<Answer>>)
    requires |f| == |w.file|
    ensures Calls(w.(file := f), calls, AsWritten).0 == Calls(w, calls, AsWritten).0
    ensures InsideCalls(w.(file := f), calls, AsWritten) == InsideCalls(w, calls, AsWritten)
    decreases |calls|
  {
    hide Call, InsideCall;
    if calls != [] {
      CallLengths(w, f, calls[0]);
      CallsLengths(Call(w, calls[0], AsWritten).1, f, calls[1..]);
    }
  }

  /** The exact condition on the kernel alone: for a head without NUL, the short writes deliver every
      file of a length if and only if at most one of them ends strictly inside the head, or the
      transfer never completes. */
  lemma {:induction false} ScheduleIff(w: Writer, calls: seq<seq<Answer>>)
    requires Ready(w) && w.toSend > 0 && '\0' !in w.head
    ensures
      (forall f: seq<char> | |f| == |w.file| ::
         var (o, end, out) := Calls(w.(file := f), calls, AsWritten); o == Done ==> out == Stream(w.(file := f)))
      <==> (Calls(w, calls, AsWritten).0 == Done ==> InsideCalls(w, calls, AsWritten) <= 1)
  {
    hide Calls, InsideCalls;
    if Calls(w, calls, AsWritten).0 == Done ==> InsideCalls(w, calls, AsWritten) <= 1 {
      forall f: seq<char> | |f| == |w.file|
        ensures var (o, end, out) := Calls(w.(file := f), calls, AsWritten); o == Done ==> out == Stream(w.(file := f))
      {
        CallsLengths(w, f, calls);
        if Calls(w, calls, AsWritten).0 == Done {
          CompletedSends(w.(file := f), calls);
        }
      }
    } else {
      var f := seq(|w.file|, _ => '\0');
      CallsLengths(w, f, calls);
      DeliversIff(w.(file := f), calls);
    }
  }

  // ------------------------------------------------------------------ runs that fail

  /** A writev that takes n bytes of its offer */
  predicate Moves(w: Writer, n: nat, next: Writer, out: seq<char>) {
    InRange(w) && 0 < n <= |Offered(w)| && next == Step(w, n, AsWritten) && out == Offered(w)[..n]
  }

  lemma {:induction false} CallMoves(w: Writer, n: nat, answers: seq<Answer>, next: Writer, out: seq<char>)
    requires Moves(w, n, next, out) && next.toSend > 0
    ensures var (o, end, more) := Call(next, answers, AsWritten);
      Call(w, [Took(n)] + answers, AsWritten) == (o, end, out + more)
    ensures InsideCall(w, [Took(n)] + answers, AsWritten)
         == (if next.sent < |w.head| then 1 else 0) + InsideCall(next, answers, AsWritten)
  {
    assert ([Took(n)] + answers)[1..] == answers;
  }

  lemma {:induction false} OneCall(w: Writer, answers: seq<Answer>)
    requires Call(w, answers, AsWritten).0 != Suspended
    ensures Calls(w, [answers], AsWritten) == Call(w, answers, AsWritten)
    ensures InsideCalls(w, [answers], AsWritten) == InsideCall(w, answers, AsWritten)
  {
  }

  /** Two writes of one byte each, at the start of a response */
  lemma {:induction false} TwoBytes(w: Writer)
    requires Ready(w) && |w.head| >= 4 && (w.count == 1 || w.count == 2)
    ensures
      var w1 := w.(iv0 := Iov(1, |w.head| - 1), toSend := w.toSend - 1, sent := 1);
      var w2 := w.(iv0 := Iov(2, |w.head| - 3), toSend := w.toSend - 2, sent := 2);
      Moves(w, 1, w1, w.head[..1]) && Moves(w1, 1, w2, w.head[1..2])
      && InRange(w2) && Offered(w2) == w.head[2..|w.head| - 1] + if w.count == 2 then w.file else []
  {
    assert w.file[0..|w.file|] == w.file;
  }

  /** Two writes inside the head of any response with a file, and the last byte of the head is lost
      while the file starts twice. */
  lemma {:induction false} HeadCutTwice(w: Writer)
    requires Ready(w) && |w.head| >= 4 && w.count == 2 && w.file != []
    ensures
      var calls := [[Took(1), Took(1), Took(|w.head| - 2), Took(|w.file|)]];
      var (o, end, out) := Calls(w, calls, AsWritten);
      o == Done && InsideCalls(w, calls, AsWritten) == 2 && out == w.head[..|w.head| - 1] + [w.file[0]] + w.file
  {
    hide Call, InsideCall, InRange, Offered, Step, Calls, InsideCalls;
    var h := |w.head|;
    var w1 := w.(iv0 := Iov(1, h - 1), toSend := w.toSend - 1, sent := 1);
    var w2 := w.(iv0 := Iov(2, h - 3), toSend := w.toSend - 2, sent := 2);
    var w3 := w.(iv0 := Iov(2, 0), iv1 := Iov(0, |w.file|), toSend := |w.file|, sent := h);
    TwoBytes(w);
    EarlyFile(w2, w3);
    WholeFile(w3);
    CallMoves(w2, h - 2, [Took(|w.file|)], w3, w.head[2..h - 1] + [w.file[0]]);
    CallMoves(w1, 1, [Took(h - 2), Took(|w.file|)], w2, w.head[1..2]);
    CallMoves(w, 1, [Took(1), Took(h - 2), Took(|w.file|)], w1, w.head[..1]);
    assert [Took(h - 2)] + [Took(|w.file|)] == [Took(h - 2), Took(|w.file|)];
    assert [Took(1)] + [Took(h - 2), Took(|w.file|)] == [Took(1), Took(h - 2), Took(|w.file|)];
    assert [Took(1)] + [Took(1), Took(h - 2), Took(|w.file|)] == [Took(1), Took(1), Took(h - 2), Took(|w.file|)];
    assert w.head[..1] + (w.head[1..2] + (w.head[2..h - 1] + [w.file[0]] + w.file))
        == w.head[..h - 1] + [w.file[0]] + w.file;
    OneCall(w, [Took(1), Took(1), Took(h - 2), Took(|w.file|)]);
  }

  lemma {:induction false} EarlyFile(w2: Writer, w3: Writer)
    requires |w2.head| >= 4 && w2.count == 2 && w2.file != [] && w2.sent == 2 && w2.iv0 == Iov(2, |w2.head| - 3)
    requires w2.toSend == |w2.head| + |w2.file| - 2 && InRange(w2)
    requires Offered(w2) == w2.head[2..|w2.head| - 1] + w2.file
    requires w3 == w2.(iv0 := Iov(2, 0), iv1 := Iov(0, |w2.file|), toSend := |w2.file|, sent := |w2.head|)
    ensures Moves(w2, |w2.head| - 2, w3, w2.head[2..|w2.head| - 1] + [w2.file[0]])
  {
    hide InRange, Offered;
    var a, f, n := w2.head[2..|w2.head| - 1], w2.file, |w2.head| - 2;
    assert (a + f)[..n] == a + f[..1] == a + [f[0]];
  }

  /** Only the file is left, and one writev takes all of it. */
  lemma {:induction false} WholeFile(w: Writer)
    requires w.count == 2 && w.file != [] && w.iv0.len == 0 && w.iv1 == Iov(0, |w.file|) && w.toSend == |w.file|
    requires w.sent >= |w.head|
    ensures var (o, end, out) := Call(w, [Took(|w.file|)], AsWritten); o == Done && out == w.file
    ensures InsideCall(w, [Took(|w.file|)], AsWritten) == 0
  {
    assert Offered(w) == w.file;
    assert w.file[..|w.file|] == w.file;
  }

  /** Two writes inside any response without a file, and write() never returns. */
  lemma {:induction false} SpinsForEver(w: Writer)
    requires Ready(w) && |w.head| >= 4 && w.count == 1
    ensures var (o, end, out) := Calls(w, [[Took(1), Took(1), Took(|w.head| - 3)]], AsWritten);
      o == Spinning && out == w.head[..|w.head| - 1]
  {
    hide Call, InsideCall, InRange, Offered, Step, Calls;
    var h := |w.head|;
    var w1 := w.(iv0 := Iov(1, h - 1), toSend := w.toSend - 1, sent := 1);
    var w2 := w.(iv0 := Iov(2, h - 3), toSend := w.toSend - 2, sent := 2);
    var w3 := w.(iv0 := Iov(2, 0), iv1 := Iov(-1, 1), toSend := 1, sent := h - 1);
    TwoBytes(w);
    NothingOffered(w2, w3);
    CallMoves(w2, h - 3, [], w3, w.head[2..h - 1]);
    CallMoves(w1, 1, [Took(h - 3)], w2, w.head[1..2]);
    CallMoves(w, 1, [Took(1), Took(h - 3)], w1, w.head[..1]);
    assert [Took(h - 3)] + [] == [Took(h - 3)] && [Took(1)] + [Took(h - 3)] == [Took(1), Took(h - 3)];
    assert [Took(1)] + [Took(1), Took(h - 3)] == [Took(1), Took(1), Took(h - 3)];
    assert w.head[..1] + (w.head[1..2] + (w.head[2..h - 1] + [])) == w.head[..h - 1];
    OneCall(w, [Took(1), Took(1), Took(h - 3)]);
  }

  /** A third write that ends in front of the missing bytes of the head, and writev is handed memory in
      front of the file. */
  lemma {:induction false} ForeignMemory(w: Writer)
    requires Ready(w) && |w.head| >= 4 && w.count == 2
    ensures Calls(w, [[Took(1), Took(1), Took(|w.head| - 3)]], AsWritten).0 == Undefined
  {
    hide Call, InsideCall, InRange, Offered, Step, Calls;
    var h, f := |w.head|, |w.file|;
    var w1 := w.(iv0 := Iov(1, h - 1), toSend := w.toSend - 1, sent := 1);
    var w2 := w.(iv0 := Iov(2, h - 3), toSend := w.toSend - 2, sent := 2);
    var w3 := w.(iv0 := Iov(2, 0), iv1 := Iov(-1, f + 1), toSend := f + 1, sent := h - 1);
    TwoBytes(w);
    BeforeTheFile(w2, w3);
    CallMoves(w2, h - 3, [], w3, w.head[2..h - 1]);
    CallMoves(w1, 1, [Took(h - 3)], w2, w.head[1..2]);
    CallMoves(w, 1, [Took(1), Took(h - 3)], w1, w.head[..1]);
    assert [Took(h - 3)] + [] == [Took(h - 3)] && [Took(1)] + [Took(h - 3)] == [Took(1), Took(h - 3)];
    assert [Took(1)] + [Took(1), Took(h - 3)] == [Took(1), Took(1), Took(h - 3)];
    OneCall(w, [Took(1), Took(1), Took(h - 3)]);
  }

  lemma {:induction false} BeforeTheFile(w2: Writer, w3: Writer)
    requires |w2.head| >= 4 && w2.count == 2 && w2.sent == 2 && w2.iv0 == Iov(2, |w2.head| - 3)
    requires w2.toSend == |w2.head| + |w2.file| - 2 && InRange(w2)
    requires Offered(w2) == w2.head[2..|w2.head| - 1] + w2.file
    requires w3 == w2.(iv0 := Iov(2, 0), iv1 := Iov(-1, |w2.file| + 1), toSend := |w2.file| + 1, sent := |w2.head| - 1)
    ensures Moves(w2, |w2.head| - 3, w3, w2.head[2..|w2.head| - 1])
    ensures Call(w3, [], AsWritten) == (Undefined, w3, [])
  {
    assert Offered(w2)[..|w2.head| - 3] == w2.head[2..|w2.head| - 1];
  }

  lemma {:induction false} NothingOffered(w2: Writer, w3: Writer)
    requires |w2.head| >= 4 && w2.count == 1 && w2.sent == 2 && w2.iv0 == Iov(2, |w2.head| - 3)
    requires w2.toSend == |w2.head| - 2 && InRange(w2) && Offered(w2) == w2.head[2..|w2.head| - 1] + []
    requires w3 == w2.(iv0 := Iov(2, 0), iv1 := Iov(-1, 1), toSend := 1, sent := |w2.head| - 1)
    ensures Moves(w2, |w2.head| - 3, w3, w2.head[2..|w2.head| - 1])
    ensures Call(w3, [], AsWritten) == (Spinning, w3, [])
  {
  }
}
