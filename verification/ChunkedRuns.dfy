/** Chunk independence of process_read over whole runs of reads. */
module ChunkedRuns {
  import opened Common
  import opened CString
  import opened RequestParser
  import opened Observation
  import opened ChunkIndependence

  // ------------------------------------------------------------------ one call

  /** The state in which a call first reaches the CONTENT case, if it does. */
  function BodyHead(p: Parser): (r: Option<Parser>)
    requires WF(p)
    ensures r.Some? ==> WF(r.value) && r.value.state == Content && |r.value.buf| == |p.buf|
    decreases |p.buf| - p.check
  {
    if p.state == Content then Some(p)
    else
      var (more, c, q) := LineTurn(p);
      if more then BodyHead(q) else None
  }

  predicate Incomplete(p: Parser) {
    |p.buf| < p.check + p.clen <= INT_MAX
  }

  /** A call that stops with an incomplete body is harmless when parse_line, evaluated on the
      body by the loop condition, stops at its first byte: no body byte is there yet, or the
      first one is a line break that does not start CR LF. */
  predicate Harmless(p: Parser)
    requires WF(p)
  {
    match BodyHead(p)
    case None => true
    case Some(q) => Incomplete(q) ==> ParseLine(q).1.check == q.check
  }

  /** m_start_line and m_check_index agree between calls once the body has been reached. */
  predicate Fresh(p: Parser) {
    p.state == Content ==> p.start == p.check
  }

  /** A turn before the body that delivers a line does the same when more bytes are there; one
      that does not is repeated with those bytes, from where it stopped. */
  lemma {:induction false} TurnAppend(p: Parser, e: seq<char>)
    requires WF(p) && p.state != Content
    ensures WF(Append(p, e))
    ensures var (more, c, q) := LineTurn(p);
      && (c != NoRequest ==>
            LineTurn(Append(p, e)) == (more, c, Append(q, e)) && Observe(Append(q, e)) == Observe(q))
      && (c == NoRequest ==> WF(Append(q, e)))
      && (more ==> LineTurn(Append(p, e)) == (true, NoRequest, Append(q, e)))
      && (c == NoRequest && !more ==> q.state == p.state && LineTurn(Append(p, e)) == LineTurn(Append(q, e)))
  {
    hide ParseLine, Dispatch, WF, Observe;
    LineWF(p);
    AppendWF(p, e);
    LineAppend(p, e);
    ParseLineState(p);
    var (s, q) := ParseLine(p);
    if s == LineOk {
      var q1 := q.(start := q.check);
      DispatchAppend(q1, q.start, e);
      DispatchObserveAppend(q1, q.start, e);
      assert Append(q, e).(start := q.check) == Append(q1, e);
      if Dispatch(q1, q.start).0 == NoRequest {
        DispatchWF(q1, q.start);
        AppendWF(Dispatch(q1, q.start).1, e);
      }
    } else {
      AppendWF(q, e);
    }
  }

  lemma ParseLineState(p: Parser)
    requires p.check <= |p.buf|
    ensures ParseLine(p).1 == p.(buf := ParseLine(p).1.buf, check := ParseLine(p).1.check)
  {
  }

  lemma {:induction false} LineObserve(p: Parser)
    requires WF(p) && ParseLine(p).0 == LineOk
    ensures var q := ParseLine(p).1; WF(q.(start := q.check)) && Observe(q) == Observe(p)
  {
    LineWF(p);
    LineShape(p);
    hide Scan, ParseLine;
    var q := ParseLine(p).1;
    assert q.buf[..p.start] == p.buf[..p.start];
    SettledFrame(p.buf, q.buf, p.url, p.start, p.start);
    SettledFrame(p.buf, q.buf, p.host, p.start, p.start);
  }

  /** While the body is incomplete the loop only moves m_check_index and m_start_line: it never
      hands the request over, and m_check_index ends at or behind the first line break. */
  lemma {:induction false} IncompleteStays(p: Parser, ls: LineStatus)
    requires WF(p) && p.state == Content && Incomplete(p)
    ensures var (c, q) := Loop(p, ls, AsWritten);
      && c in {NoRequest, Undefined}
      && (c == Undefined ==> p.clen > INT_MAX - |p.buf|)
      && q.state == Content && q.clen == p.clen && q.check >= ParseLine(p).1.check
      && (c == NoRequest ==> Observe(q) == Observe(p))
    decreases |p.buf| - p.check, if ls == LineOk then 1 else 0
  {
    hide ParseLine, Settled, Observe, Scan;
    if ls == LineOk {
      ContentWF(p);
      ParseLineStart(p);
      ObserveStart(p);
      IncompleteStays(p.(start := p.check), LineOpen);
    } else {
      LineWF(p);
      ParseLineState(p);
      var (s, q) := ParseLine(p);
      if s == LineOk {
        LineObserve(p);
        ObserveStart(q);
        var p2 := q.(start := q.check);
        if p2.check + p2.clen <= INT_MAX {
          IncompleteStays(p2, LineOpen);
        }
      } else {
        ObserveOpen(p);
      }
    }
  }

  lemma ParseLineStart(p: Parser)
    requires p.check <= |p.buf|
    ensures ParseLine(p.(start := p.check)).1.check == ParseLine(p).1.check
  {
  }

  lemma ObserveStart(p: Parser)
    ensures Observe(p.(start := p.check)) == Observe(p)
  {
  }

  lemma ObserveOpen(p: Parser)
    requires WF(p) && ParseLine(p).0 != LineOk
    ensures Observe(ParseLine(p).1) == Observe(p)
  {
    LineShape(p);
  }

  /** While the scan of an incomplete body goes on, more bytes that do not fill the buffer do
      not change where it becomes undefined. */
  lemma {:induction false} ScanBodyAppend(p: Parser, e: seq<char>)
    requires WF(p) && p.state == Content && Incomplete(p)
    requires Loop(p, LineOpen, AsWritten).0 != NoRequest && |p.buf| + |e| < READ_BUFF_SIZE
    ensures WF(Append(p, e)) && Loop(Append(p, e), LineOpen, AsWritten).0 == Undefined
    decreases |p.buf| - p.check
  {
    hide ParseLine, Settled, Observe, Scan;
    AppendWF(p, e);
    IncompleteStays(p, LineOpen);
    LineWF(p);
    LineAppend(p, e);
    ParseLineState(p);
    var q := ParseLine(p).1;
    var p2 := q.(start := q.check);
    assert Append(q, e).(start := q.check) == Append(p2, e);
    if p2.check + p2.clen <= INT_MAX {
      ScanBodyAppend(p2, e);
    }
  }

  /** Whatever ends a request, later bytes do not change the outcome. */
  lemma {:induction false} FinalAppend(p: Parser, v: Variant, e: seq<char>)
    requires WF(p)
    requires Loop(p, LineOk, v).0 != NoRequest && |p.buf| + |e| < READ_BUFF_SIZE
    ensures WF(Append(p, e))
    ensures SameOutcome(Loop(Append(p, e), LineOk, v), Loop(p, LineOk, v))
    decreases |p.buf| - p.check
  {
    hide ParseLine, Settled, Observe, Scan, LineTurn;
    AppendWF(p, e);
    if p.state != Content {
      TurnAppend(p, e);
      var (more, c, q) := LineTurn(p);
      if more {
        FinalAppend(q, v, e);
      }
    } else {
      ContentWF(p);
      var p1 := p.(start := p.check);
      if ContentTurn(p).0 == NoRequest {
        IncompleteStays(p1, LineOpen);
        ScanBodyAppend(p1, e);
        assert Append(p1, e) == Append(p, e).(start := p.check);
      } else {
        ContentAppend(p1, p.start, e);
      }
    }
  }

  /** A call that wants more bytes can be forgotten: running it before the next bytes arrive or
      only once on all of them gives the same state. */
  lemma {:induction false} Resume(p: Parser, v: Variant, e: seq<char>)
    requires WF(p) && Fresh(p)
    requires Loop(p, LineOk, v).0 == NoRequest
    requires v == AsWritten ==> Harmless(p)
    ensures var q := Loop(p, LineOk, v).1;
      && WF(Append(p, e)) && WF(Append(q, e)) && Fresh(q)
      && Loop(Append(q, e), LineOk, v) == Loop(Append(p, e), LineOk, v)
      && BodyHead(Append(q, e)) == BodyHead(Append(p, e))
    decreases |p.buf| - p.check
  {
    hide ParseLine, WF, Observe, Scan, LineTurn;
    AppendWF(p, e);
    AppendWF(Loop(p, LineOk, v).1, e);
    if p.state != Content {
      TurnAppend(p, e);
      var (more, c, q) := LineTurn(p);
      if more {
        LineTurnFresh(p);
        Resume(q, v, e);
      }
    } else {
      StuckBody(p, v);
    }
  }

  lemma {:induction false} LineTurnFresh(p: Parser)
    requires WF(p) && p.state != Content
    ensures Fresh(LineTurn(p).2)
  {
    hide ParseLine, WF, ParseRequestLine, ParseHeader;
    LineWF(p);
    ParseLineState(p);
    var (s, q) := ParseLine(p);
    if s == LineOk {
      var q1 := q.(start := q.check);
      if p.state == RequestLine {
        ParseRequestLineKeeps(q1, q.start);
      }
    }
  }

  /** In the CONTENT state a harmless call leaves the state as it was. */
  lemma {:induction false} StuckBody(p: Parser, v: Variant)
    requires WF(p) && Fresh(p) && p.state == Content
    requires Loop(p, LineOk, v).0 == NoRequest
    requires v == AsWritten ==> Harmless(p)
    ensures Loop(p, LineOk, v).1 == p
  {
    hide Settled, Observe, Scan;
    if v == AsWritten {
      LineShape(p);
      LineWF(p);
    }
  }

  // ------------------------------------------- exactly when a boundary is harmless

  /** The part of a call before the body depends only on bytes that later bytes do not change. */
  lemma {:induction false} HeadAppend(p: Parser, e: seq<char>)
    requires WF(p) && Fresh(p) && BodyHead(p).Some?
    ensures var q := BodyHead(p).value;
      && Fresh(q) && WF(Append(p, e)) && WF(Append(q, e))
      && BodyHead(Append(p, e)) == Some(Append(q, e))
      && Loop(p, LineOk, AsWritten) == Loop(q, LineOk, AsWritten)
      && Loop(Append(p, e), LineOk, AsWritten) == Loop(Append(q, e), LineOk, AsWritten)
    decreases |p.buf| - p.check
  {
    hide ParseLine, WF, Observe, Scan, LineTurn;
    AppendWF(p, e);
    if p.state != Content {
      TurnAppend(p, e);
      LineTurnFresh(p);
      HeadAppend(LineTurn(p).2, e);
    }
  }

  /** The bytes that make the buffered part of the body complete. */
  function Missing(q: Parser): (e: seq<char>)
    requires Incomplete(q)
    ensures |q.buf| + |e| == q.check + q.clen
  {
    seq(q.check + q.clen - |q.buf|, _ => 'x')
  }

  /** A boundary that is not harmless shows as soon as the body is just complete. */
  lemma {:induction false} HarmfulBoundary(p: Parser, e: seq<char>)
    requires WF(p) && Fresh(p) && Loop(p, LineOk, AsWritten).0 == NoRequest
    requires !Harmless(p) && |p.buf| + |e| == BodyHead(p).value.check + BodyHead(p).value.clen < READ_BUFF_SIZE
    ensures var q := Loop(p, LineOk, AsWritten).1;
      && WF(Append(p, e)) && WF(Append(q, e))
      && Loop(Append(p, e), LineOk, AsWritten).0 == GetRequest
      && Loop(Append(q, e), LineOk, AsWritten).0 == NoRequest
  {
    hide ParseLine, Settled, Observe, Scan, LineTurn;
    var h := BodyHead(p).value;
    HeadAppend(p, e);
    var q := Loop(p, LineOk, AsWritten).1;
    IncompleteStays(h, LineOk);
    AppendWF(q, e);
    IncompleteStays(Append(q, e), LineOk);
  }

  /** Two results that differ at most in m_start_line, which nothing but a complete body reads. */
  predicate UpToStart(a: (Code, Parser), b: (Code, Parser)) {
    a.0 == b.0 && a.1 == b.1.(start := a.1.start)
  }

  lemma UpToStartSame(a: (Code, Parser), b: (Code, Parser))
    requires UpToStart(a, b)
    ensures SameOutcome(a, b) && a.1.check == b.1.check
  {
  }

  /** The scan of a body that stays incomplete is taken up where it stopped. */
  lemma {:induction false} ScanResumes(h: Parser, e: seq<char>)
    requires WF(h) && h.state == Content && |h.buf| + |e| < h.check + h.clen
    requires Loop(h, LineOpen, AsWritten).0 == NoRequest
    ensures var q := Loop(h, LineOpen, AsWritten).1; var q1 := q.(start := q.check);
      && q.state == Content && q.clen == h.clen
      && WF(q1) && WF(Append(h, e)) && WF(Append(q1, e))
      && UpToStart(Loop(Append(q1, e), LineOpen, AsWritten), Loop(Append(h, e), LineOpen, AsWritten))
    decreases |h.buf| - h.check
  {
    hide ParseLine, WF, Observe, Scan, Loop;
    AppendWF(h, e);
    LineWF(h);
    LineAppend(h, e);
    OpenTurn(h);
    OpenTurn(Append(h, e));
    var (s, q) := ParseLine(h);
    if s == LineOk {
      var p2 := q.(start := q.check);
      assert Append(q, e).(start := q.check) == Append(p2, e);
      ScanResumes(p2, e);
    } else {
      ContentWF(q);
      var q1 := q.(start := q.check);
      AppendWF(q1, e);
      AppendWF(q, e);
      assert Append(q1, e) == Append(q, e).(start := q.check);
      OpenTurn(Append(q, e));
      StartIsIdle(Append(q, e), q.check);
    }
  }

  /** The line a body is scanned from does not matter while the body stays incomplete. */
  lemma {:induction false} StartIsIdle(p: Parser, start: nat)
    requires WF(p) && WF(p.(start := start)) && p.state == Content && |p.buf| < p.check + p.clen
    ensures UpToStart(Loop(p.(start := start), LineOpen, AsWritten), Loop(p, LineOpen, AsWritten))
  {
    hide Settled, Observe, Scan, ParseLine, Loop;
    LineWF(p);
    ParseLineState(p);
    SameLine(p, start);
    OpenTurn(p);
    OpenTurn(p.(start := start));
  }

  lemma SameLine(p: Parser, start: nat)
    requires p.check <= |p.buf|
    ensures var (s, q) := ParseLine(p); ParseLine(p.(start := start)) == (s, q.(start := start))
  {
  }

  /** A scan of an incomplete body, one line at a time. */
  lemma {:induction false} OpenTurn(p: Parser)
    requires WF(p) && p.state == Content && |p.buf| < p.check + p.clen
    ensures var (s, q) := ParseLine(p); var q1 := q.(start := q.check);
      && q == p.(buf := q.buf, check := q.check)
      && (s != LineOk ==> Loop(p, LineOpen, AsWritten) == (NoRequest, q))
      && (s == LineOk ==>
            && WF(q1)
            && Loop(p, LineOpen, AsWritten)
               == if q1.check + q1.clen > INT_MAX then (Undefined, q1) else Loop(q1, LineOpen, AsWritten))
  {
    hide Settled, Observe, Scan, ParseLine;
    LineWF(p);
    ParseLineState(p);
  }

  /** A call with an incomplete body: the loop body runs once, then the scan. */
  lemma {:induction false} FirstTurn(p: Parser)
    requires WF(p) && p.state == Content && |p.buf| < p.check + p.clen
    ensures WF(p.(start := p.check))
    ensures Loop(p, LineOk, AsWritten) ==
      if p.check + p.clen > INT_MAX then (Undefined, p.(start := p.check))
      else Loop(p.(start := p.check), LineOpen, AsWritten)
  {
    hide Settled, ParseLine;
    ContentWF(p);
  }

  /** A boundary in a body that stays incomplete shows only if m_check_index has run so far that
      its sum with the length overflows. */
  lemma {:induction false} LateBoundary(h: Parser, e: seq<char>)
    requires WF(h) && h.state == Content && |h.buf| + |e| < h.check + h.clen
    requires Loop(h, LineOk, AsWritten).0 == NoRequest
    ensures var q := Loop(h, LineOk, AsWritten).1;
      && WF(Append(h, e)) && WF(Append(q, e)) && q.state == Content && q.clen == h.clen && h.check <= q.check
      && Loop(Append(h, e), LineOk, AsWritten).0 in {NoRequest, Undefined}
      && (q.check + q.clen <= INT_MAX ==>
            UpToStart(Loop(Append(q, e), LineOk, AsWritten), Loop(Append(h, e), LineOk, AsWritten)))
      && (q.check + q.clen > INT_MAX ==>
            && Loop(Append(q, e), LineOk, AsWritten).0 == Undefined
            && (Loop(Append(h, e), LineOk, AsWritten).0 == NoRequest ==>
                  q.check <= Loop(Append(h, e), LineOk, AsWritten).1.check))
  {
    hide WF, Loop, ParseLine, Observe;
    FirstTurn(h);
    AppendWF(h, e);
    FirstTurn(Append(h, e));
    IncompleteStays(Append(h, e), LineOk);
    var h1 := h.(start := h.check);
    assert Append(h, e).(start := h.check) == Append(h1, e);
    ScanResumes(h1, e);
    var q := Loop(h1, LineOpen, AsWritten).1;
    AppendWF(q, e);
    FirstTurn(Append(q, e));
    assert Append(q, e).(start := q.check) == Append(q.(start := q.check), e);
  }

  /** The body can never become complete in a buffer of READ_BUFF_SIZE bytes, and the call has not
      moved m_check_index so far that its sum with the length overflows. */
  predicate TooLong(p: Parser)
    requires WF(p)
  {
    match BodyHead(p)
    case None => false
    case Some(q) =>
      READ_BUFF_SIZE <= q.check + q.clen && Loop(p, LineOk, AsWritten).1.check + q.clen <= INT_MAX
  }

  lemma {:induction false} TooLongBoundary(p: Parser, e: seq<char>)
    requires WF(p) && Fresh(p) && Loop(p, LineOk, AsWritten).0 == NoRequest
    requires TooLong(p) && |p.buf| + |e| < READ_BUFF_SIZE
    ensures var q := Loop(p, LineOk, AsWritten).1;
      && WF(Append(p, e)) && WF(Append(q, e))
      && SameOutcome(Loop(Append(q, e), LineOk, AsWritten), Loop(Append(p, e), LineOk, AsWritten))
  {
    hide Loop, WF, ParseLine, Observe, BodyHead;
    var h := BodyHead(p).value;
    HeadAppend(p, e);
    LateBoundary(h, e);
    var q := Loop(h, LineOk, AsWritten).1;
    UpToStartSame(Loop(Append(q, e), LineOk, AsWritten), Loop(Append(h, e), LineOk, AsWritten));
  }

  /** A boundary behind which the next sum overflows shows at once, without any further byte. */
  lemma {:induction false} OverflowBoundary(p: Parser)
    requires WF(p) && Fresh(p) && |p.buf| < READ_BUFF_SIZE && Loop(p, LineOk, AsWritten).0 == NoRequest
    requires !Harmless(p) && !TooLong(p) && READ_BUFF_SIZE <= BodyHead(p).value.check + BodyHead(p).value.clen
    ensures var q := Loop(p, LineOk, AsWritten).1;
      && WF(Append(p, [])) && WF(Append(q, []))
      && Loop(Append(q, []), LineOk, AsWritten).0 == Undefined
      && Loop(Append(p, []), LineOk, AsWritten).0 == NoRequest
  {
    hide Loop, WF, ParseLine, Observe, BodyHead;
    var h := BodyHead(p).value;
    HeadAppend(p, []);
    LateBoundary(h, []);
    assert Append(p, []) == p;
  }

  /** The exact condition: cutting the input behind p.buf is invisible to every continuation
      that fits the buffer if and only if the call is harmless or its body can never fit. */
  lemma {:induction false} BoundaryIff(p: Parser)
    requires WF(p) && Fresh(p) && |p.buf| < READ_BUFF_SIZE
    requires Loop(p, LineOk, AsWritten).0 == NoRequest
    ensures forall e: seq<char> :: WF(Append(p, e)) && WF(Append(Loop(p, LineOk, AsWritten).1, e))
    ensures
      (forall e: seq<char> | |p.buf| + |e| < READ_BUFF_SIZE ::
         SameOutcome(Loop(Append(Loop(p, LineOk, AsWritten).1, e), LineOk, AsWritten),
                     Loop(Append(p, e), LineOk, AsWritten)))
      <==> Harmless(p) || TooLong(p)
  {
    hide ParseLine, WF, Observe, Scan, LineTurn, Loop, BodyHead, TooLong;
    var q := Loop(p, LineOk, AsWritten).1;
    forall e: seq<char> ensures WF(Append(p, e)) && WF(Append(q, e)) {
      AppendWF(p, e);
      AppendWF(q, e);
    }
    if Harmless(p) {
      forall e: seq<char> | |p.buf| + |e| < READ_BUFF_SIZE
        ensures SameOutcome(Loop(Append(q, e), LineOk, AsWritten), Loop(Append(p, e), LineOk, AsWritten))
      {
        Resume(p, AsWritten, e);
      }
    } else if TooLong(p) {
      forall e: seq<char> | |p.buf| + |e| < READ_BUFF_SIZE
        ensures SameOutcome(Loop(Append(q, e), LineOk, AsWritten), Loop(Append(p, e), LineOk, AsWritten))
      {
        TooLongBoundary(p, e);
      }
    } else {
      var e := [];
      if BodyHead(p).value.check + BodyHead(p).value.clen < READ_BUFF_SIZE {
        e := Missing(BodyHead(p).value);
        HarmfulBoundary(p, e);
      } else {
        OverflowBoundary(p);
      }
      assert |p.buf| + |e| < READ_BUFF_SIZE;
      assert !SameOutcome(Loop(Append(q, e), LineOk, AsWritten), Loop(Append(p, e), LineOk, AsWritten));
    }
  }

  // ------------------------------------------------------------------ whole runs

  /** One read and one call of process_read after the other, until a call ends the request. */
  function Run(p: Parser, chunks: seq<seq<char>>, v: Variant): (Code, Parser)
    requires WF(p)
    decreases |chunks|
  {
    if chunks == [] then (NoRequest, p)
    else
      AppendWF(p, chunks[0]);
      var (c, q) := Loop(Append(p, chunks[0]), LineOk, v);
      if c == NoRequest then Run(q, chunks[1..], v) else (c, q)
  }

  /** Cut off behind its first k bytes, this body stops parse_line at the first one. */
  predicate StopsAt(body: seq<char>, k: nat) {
    body != [] && (body[0] == LF || (body[0] == CR && (k == 1 || |body| == 1 || body[1] != LF)))
  }

  /** Every boundary strictly between the positions lo and hi of the input, where this body is, cuts
      off a part that stops parse_line at once. */
  predicate BoundariesStop(at: nat, chunks: seq<seq<char>>, lo: nat, hi: int, body: seq<char>)
    decreases |chunks|
  {
    |chunks| <= 1 ||
    (var b := at + |chunks[0]|; (lo < b < hi ==> StopsAt(body, b - lo)) && BoundariesStop(b, chunks[1..], lo, hi, body))
  }

  /** However an incomplete part of this body is cut off, parse_line stops at its first byte. */
  predicate StopsScan(body: seq<char>, clen: int) {
    clen <= 1 ||
    (body != [] && (body[0] == LF || (body[0] == CR && (clen == 2 || |body| == 1 || body[1] != LF))))
  }

  lemma {:induction false} StopsScanAll(at: nat, chunks: seq<seq<char>>, lo: nat, clen: int, body: seq<char>)
    requires StopsScan(body, clen)
    ensures BoundariesStop(at, chunks, lo, lo + clen, body)
    decreases |chunks|
  {
    if |chunks| > 1 {
      StopsScanAll(at + |chunks[0]|, chunks[1..], lo, clen, body);
    }
  }

  /** The body is incomplete in the end, and either the scan of it overflows in one call too, or it
      never comes near an overflow. */
  predicate Unfinishable(q: Parser)
    requires WF(q)
  {
    && |q.buf| < q.check + q.clen
    && var (c, r) := Loop(q, LineOk, AsWritten);
       c == Undefined || r.check + q.clen <= INT_MAX
  }

  /** The boundaries of a run are harmless for the code as written when the request has no body,
      or each of them that cuts the body cuts off a part that stops parse_line at once, or the body
      stays incomplete. */
  predicate CutsHarmless(p: Parser, chunks: seq<seq<char>>)
    requires WF(Append(p, Flatten(chunks)))
  {
    match BodyHead(Append(p, Flatten(chunks)))
    case None => true
    case Some(q) =>
      || BoundariesStop(|p.buf|, chunks, q.check, q.check + q.clen, q.buf[q.check..])
      || Unfinishable(q)
  }

  /** A first chunk that is not harmless ends inside a body behind a part that does not stop
      parse_line. */
  lemma {:induction false} HarmfulStart(p: Parser, e: seq<char>)
    requires WF(p) && Fresh(p) && WF(Append(p, e)) && !Harmless(p)
    ensures BodyHead(Append(p, e)).Some?
    ensures var q := BodyHead(Append(p, e)).value;
      q.check < |p.buf| < q.check + q.clen && !StopsAt(q.buf[q.check..], |p.buf| - q.check)
  {
    hide ParseLine, WF, Observe, Scan, LineTurn, Loop, BodyHead, StopsAt;
    HeadAppend(p, e);
    var q := BodyHead(p).value;
    Ordered(q);
    NoBodyYet(q);
    StopsAtOnceIff(q, e);
  }

  /** A harmless one that ends inside a body ends behind a part that does. */
  lemma {:induction false} HarmlessStart(p: Parser, e: seq<char>)
    requires WF(p) && Fresh(p) && WF(Append(p, e)) && Harmless(p)
    requires BodyHead(p).Some? && Incomplete(BodyHead(p).value) && BodyHead(p).value.check < |p.buf|
    ensures BodyHead(Append(p, e)).Some?
    ensures var q := BodyHead(Append(p, e)).value;
      q.check < |p.buf| && StopsAt(q.buf[q.check..], |p.buf| - q.check)
  {
    hide ParseLine, WF, Observe, Scan, LineTurn, Loop, BodyHead, StopsAt;
    HeadAppend(p, e);
    StopsAtOnceIff(BodyHead(p).value, e);
  }

  lemma {:induction false} StopsAtOnceIff(q: Parser, e: seq<char>)
    requires WF(q) && q.check < |q.buf|
    ensures ParseLine(q).1.check == q.check <==> StopsAt((q.buf + e)[q.check..], |q.buf| - q.check)
  {
    LineShape(q);
    hide WF, ParseLine, Scan;
    var b := (q.buf + e)[q.check..];
    assert forall i :: 0 <= i < |q.buf| - q.check ==> b[i] == q.buf[q.check + i];
    if Break.Has(q.buf[q.check]) {
      ScanIs(q.buf, q.check, Break, q.check);
    }
  }

  lemma NoBodyYet(q: Parser)
    requires q.check <= |q.buf|
    ensures q.check == |q.buf| ==> ParseLine(q).1.check == q.check
  {
  }

  /** Reads behind a call that left an incomplete body, for a body that stays incomplete. */
  lemma {:induction false} UnfinishedRun(x: Parser, chunks: seq<seq<char>>)
    requires WF(x) && x.state == Content && |chunks| > 0 && |x.buf| + |Flatten(chunks)| < READ_BUFF_SIZE
    requires Loop(x, LineOk, AsWritten).0 == NoRequest
    requires WF(Append(x, Flatten(chunks))) && Unfinishable(Append(x, Flatten(chunks)))
    ensures SameOutcome(Run(Loop(x, LineOk, AsWritten).1, chunks, AsWritten),
                        Loop(Append(x, Flatten(chunks)), LineOk, AsWritten))
    decreases |chunks|
  {
    hide WF, Loop, ParseLine, Observe;
    var all, rest := Flatten(chunks), Flatten(chunks[1..]);
    var q := Loop(x, LineOk, AsWritten).1;
    LateBoundary(x, all);
    var y := Append(q, chunks[0]);
    AppendWF(q, chunks[0]);
    assert Append(q, all) == Append(y, rest);
    if q.check + q.clen > INT_MAX {
      LateBoundary(x, chunks[0]);
    } else {
      UpToStartSame(Loop(Append(q, all), LineOk, AsWritten), Loop(Append(x, all), LineOk, AsWritten));
      if Loop(y, LineOk, AsWritten).0 != NoRequest {
        FinalAppend(y, AsWritten, rest);
      } else if |chunks| == 1 {
        assert Append(y, rest) == y;
      } else {
        UnfinishedRun(y, chunks[1..]);
      }
    }
  }

  /** Chunk independence from any state between two calls. */
  lemma {:induction false} RunIsOneCall(p: Parser, chunks: seq<seq<char>>, v: Variant)
    requires WF(p) && Fresh(p) && |chunks| > 0
    requires |p.buf| + |Flatten(chunks)| < READ_BUFF_SIZE
    requires WF(Append(p, Flatten(chunks)))
    requires v == AsWritten ==> CutsHarmless(p, chunks)
    ensures SameOutcome(Run(p, chunks, v), Loop(Append(p, Flatten(chunks)), LineOk, v))
    decreases |chunks|
  {
    hide ParseLine, WF, Observe, Scan, LineTurn, Loop, BodyHead;
    var a, rest := Append(p, chunks[0]), Flatten(chunks[1..]);
    AppendWF(p, chunks[0]);
    assert Append(p, Flatten(chunks)) == Append(a, rest);
    var (c, q) := Loop(a, LineOk, v);
    if c != NoRequest {
      FinalAppend(a, v, rest);
    } else if |chunks| == 1 {
      assert Append(a, rest) == a;
    } else {
      if v == AsWritten && !Harmless(a) {
        HarmfulStart(a, rest);
        HeadAppend(a, rest);
        UnfinishedRun(BodyHead(a).value, chunks[1..]);
      } else {
        Resume(a, v, rest);
        RunIsOneCall(q, chunks[1..], v);
      }
    }
  }

  /** Chunk independence of the code as written: a request without a body, or whose body is not
      cut by a boundary that shows, or stays incomplete, has the outcome of one piece. */
  lemma {:induction false} ChunkIndependent(chunks: seq<seq<char>>)
    requires |chunks| > 0 && |Flatten(chunks)| < READ_BUFF_SIZE
    ensures WF(Init()) && WF(Append(Init(), Flatten(chunks)))
    ensures CutsHarmless(Init(), chunks) ==>
      SameOutcome(Run(Init(), chunks, AsWritten), ProcessRead(Append(Init(), Flatten(chunks))))
  {
    AppendWF(Init(), Flatten(chunks));
    if CutsHarmless(Init(), chunks) {
      RunIsOneCall(Init(), chunks, AsWritten);
    }
  }

  /** With the repaired CONTENT case every way of cutting every input is invisible. */
  lemma {:induction false} RepairedChunkIndependent(chunks: seq<seq<char>>)
    requires |chunks| > 0 && |Flatten(chunks)| < READ_BUFF_SIZE
    ensures WF(Init()) && WF(Append(Init(), Flatten(chunks)))
    ensures SameOutcome(Run(Init(), chunks, Repaired), Loop(Append(Init(), Flatten(chunks)), LineOk, Repaired))
  {
    AppendWF(Init(), Flatten(chunks));
    RunIsOneCall(Init(), chunks, Repaired);
  }
}
