/** The body of a request on the plain input: where it is, what parse_line makes of one that is
    incomplete, and which reads do not show. */
module BodyScan {
  import opened Common
  import opened CString
  import opened RequestParser
  import opened Observation
  import opened ChunkedRuns
  import opened Reference

  /** The bytes behind the blank line and the content length, for a request with a body. */
  function BodyIn(r: seq<char>, v: View): (b: Option<(seq<char>, int)>)
    ensures b.Some? ==> |b.value.0| <= |r|
    decreases |r|
  {
    match FirstLine(r)
    case None => None
    case Some((line, rest)) =>
      var t := Str(line, 0);
      if t != [] then BodyIn(rest, MeaningOfHeader(t, v))
      else if v.clen == 0 then None
      else Some((rest, v.clen))
  }

  function BodyOf(s: seq<char>): (b: Option<(seq<char>, int)>)
    ensures b.Some? ==> |b.value.0| <= |s|
  {
    match FirstLine(s)
    case None => None
    case Some((line, rest)) =>
      var (c, m, u) := MeaningOfRequestLine(Str(line, 0));
      if c == NoRequest then BodyIn(rest, View(m, m == Post, Some(u), None, false, 0, None)) else None
  }

  predicate HeadIs(h: Option<Parser>, b: Option<(seq<char>, int)>) {
    match (h, b)
    case (None, None) => true
    case (Some(q), Some((rest, clen))) => q.check <= |q.buf| && q.buf[q.check..] == rest && q.clen == clen
    case _ => false
  }

  lemma {:induction false} HeadersHeadRefines(p: Parser)
    requires WF(p) && p.state == Header && p.start == p.check > 0
    ensures HeadIs(BodyHead(p), BodyIn(p.buf[p.check..], Observe(p)))
    decreases |p.buf| - p.check
  {
    hide LineTurn, Observe, WF, MeaningOfHeader, FirstLine, Str;
    ObserveLength(p);
    Ordered(p);
    if FirstLine(p.buf[p.check..]).Some? {
      HeaderTurnRefines(p);
      var (more, c, q) := LineTurn(p);
      ObserveLength(q);
      if q.state == Header && more {
        HeadersHeadRefines(q);
      }
    } else {
      NoLine(p);
    }
  }

  /** The CONTENT state is reached exactly for the inputs with a body, at its first byte. */
  lemma {:induction false} BodyHeadRefines(s: seq<char>)
    ensures WF(Append(Init(), s)) && HeadIs(BodyHead(Append(Init(), s)), BodyOf(s))
  {
    hide Scan, LineTurn, Settled, MeaningOfRequestLine, FirstLine, BodyIn, Observe, WF, Str;
    ReceivedWF(s);
    var p := Append(Init(), s);
    if FirstLine(s).Some? {
      FirstTurnRefines(s);
      if LineTurn(p).0 {
        HeadersHeadRefines(LineTurn(p).2);
      }
    } else {
      NoLine(p);
    }
  }

  // ----------------------------------------------- the scan of an incomplete body

  /** How many bytes the complete lines at the front take. */
  function LineEnd(r: seq<char>): (n: nat)
    ensures n <= |r|
    decreases |r|
  {
    match FirstLine(r)
    case None => 0
    case Some((line, rest)) => |line| + 2 + LineEnd(rest)
  }

  /** Where parse_line stops when it is called again and again. */
  function ScanEnd(r: seq<char>): (n: nat)
    ensures LineEnd(r) <= n <= |r|
    decreases |r|
  {
    match FirstLine(r)
    case None => Scan(r, 0, Break)
    case Some((line, rest)) => |line| + 2 + ScanEnd(rest)
  }

  /** The scan of an incomplete body ends where the plain bytes say, and overflows exactly if the
      sum does at the end of its complete lines. */
  lemma {:induction false} ScanEnds(h: Parser)
    requires WF(h) && h.state == Content && |h.buf| < h.check + h.clen <= INT_MAX
    ensures var b := h.buf[h.check..]; var (c, r) := Loop(h, LineOpen, AsWritten);
      && c == (if h.check + LineEnd(b) + h.clen > INT_MAX then Undefined else NoRequest)
      && (c == NoRequest ==> r.check == h.check + ScanEnd(b))
    decreases |h.buf| - h.check
  {
    hide Loop, WF, ParseLine, FirstLine, Scan, Str;
    Ordered(h);
    OpenTurn(h);
    LineRefines(h);
    var (s, q) := ParseLine(h);
    if s == LineOk {
      var q1 := q.(start := q.check);
      if q1.check + q1.clen <= INT_MAX {
        ScanEnds(q1);
      }
    } else {
      LineStops(h);
    }
  }

  lemma {:induction false} LineStops(h: Parser)
    requires WF(h) && ParseLine(h).0 != LineOk
    ensures h.check <= |h.buf| && ParseLine(h).1.check == h.check + Scan(h.buf[h.check..], 0, Break)
  {
    LineShape(h);
    ScanRest(h.buf, h.check, Break);
  }

  /** The same for a whole call. */
  lemma {:induction false} CallEnds(h: Parser)
    requires WF(h) && h.state == Content && |h.buf| < h.check + h.clen
    ensures h.check <= |h.buf|
    ensures var b := h.buf[h.check..]; var (c, r) := Loop(h, LineOk, AsWritten);
      && c == (if h.check + LineEnd(b) + h.clen > INT_MAX then Undefined else NoRequest)
      && (c == NoRequest ==> r.check == h.check + ScanEnd(b))
  {
    hide Loop, WF, FirstLine, Scan;
    Ordered(h);
    FirstTurn(h);
    if h.check + h.clen <= INT_MAX {
      ScanEnds(h.(start := h.check));
    }
  }

  /** On one call the repaired loop differs from the one as written only where the scan of an
      incomplete body, which it leaves out, overflows. */
  lemma {:induction false} RepairIff(p: Parser)
    requires WF(p) && |p.buf| < READ_BUFF_SIZE
    ensures SameOutcome(Loop(p, LineOk, Repaired), Loop(p, LineOk, AsWritten)) <==>
      match BodyHead(p)
      case None => true
      case Some(h) => Incomplete(h) ==> h.check + LineEnd(h.buf[h.check..]) + h.clen <= INT_MAX
    decreases |p.buf| - p.check
  {
    hide ParseLine, Settled, Observe, Scan, LineTurn, FirstLine;
    if p.state != Content {
      if LineTurn(p).0 {
        RepairIff(LineTurn(p).2);
      }
    } else if ContentTurn(p).0 == NoRequest {
      CallEnds(p);
      IncompleteStays(p, LineOk);
      ObserveStart(p);
    }
  }

  // ------------------------------------------------------------------ which reads show

  /** For an input with such a body no way of cutting it can be seen: the body stops parse_line at
      its first byte; or it is incomplete, and its scan overflows in one piece too, or nowhere. */
  predicate Unseen(s: seq<char>) {
    match BodyOf(s)
    case None => true
    case Some((b, clen)) =>
      var at := |s| - |b|;
      || StopsScan(b, clen)
      || (|b| < clen && (at + LineEnd(b) + clen > INT_MAX || at + ScanEnd(b) + clen <= INT_MAX))
  }

  /** Every boundary between two reads that falls inside the body cuts off a part that stops parse_line
      at once, or no boundary can be seen. */
  predicate Uncut(chunks: seq<seq<char>>) {
    match BodyOf(Flatten(chunks))
    case None => true
    case Some((b, clen)) =>
      var at := |Flatten(chunks)| - |b|;
      BoundariesStop(0, chunks, at, at + clen, b) || Unseen(Flatten(chunks))
  }

  lemma {:induction false} UncutIsHarmless(chunks: seq<seq<char>>)
    requires Uncut(chunks) && WF(Append(Init(), Flatten(chunks)))
    ensures CutsHarmless(Init(), chunks)
  {
    hide Loop, BodyOf, BodyHead, Flatten, BoundariesStop, WF, StopsScan;
    var s := Flatten(chunks);
    BodyHeadRefines(s);
    BodyHeadFacts(Append(Init(), s));
    if BodyOf(s).Some? {
      var q := BodyHead(Append(Init(), s)).value;
      if StopsScan(q.buf[q.check..], q.clen) {
        StopsScanAll(0, chunks, q.check, q.clen, q.buf[q.check..]);
      }
      if |q.buf| < q.check + q.clen {
        CallEnds(q);
      }
    }
  }

  lemma {:induction false} BodyHeadFacts(p: Parser)
    requires WF(p)
    ensures BodyHead(p).Some? ==>
      var h := BodyHead(p).value; |h.buf| == |p.buf| && h.state == Content && WF(h) && h.check <= |h.buf|
  {
  }

  /** Chunk independence of the code as written, in terms of the input alone, and what the
      outcome is. */
  lemma {:induction false} ReadsComputeMeaning(chunks: seq<seq<char>>)
    requires |chunks| > 0 && |Flatten(chunks)| < READ_BUFF_SIZE && Uncut(chunks)
    ensures WF(Init()) && WF(Append(Init(), Flatten(chunks)))
    ensures SameOutcome(Run(Init(), chunks, AsWritten), ProcessRead(Append(Init(), Flatten(chunks))))
    ensures Agrees(ProcessRead(Append(Init(), Flatten(chunks))), Meaning(Flatten(chunks)))
  {
    hide Run, Loop, Meaning, Flatten, CutsHarmless, Uncut, WF, SameOutcome, Agrees;
    ChunkIndependent(chunks);
    ProcessReadComputesMeaning(Flatten(chunks), AsWritten);
    UncutIsHarmless(chunks);
  }
}
