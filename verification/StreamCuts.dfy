/** For which inputs the reads cannot be seen: the exact condition on a request with a body, and a
    request for which two reads show. */
module StreamCuts {
  import opened Common
  import opened CString
  import opened RequestParser
  import opened Observation
  import opened ChunkIndependence
  import opened ChunkedRuns
  import opened Reference
  import opened BodyScan

  // ------------------------------------------------------------ parts of an input

  lemma {:induction false} FirstLinePart(r: seq<char>, m: nat)
    requires FirstLine(r).Some? && |FirstLine(r).value.0| + 2 <= m <= |r|
    ensures var (line, rest) := FirstLine(r).value;
      FirstLine(r[..m]) == Some((line, rest[..m - |line| - 2]))
  {
    var (line, rest) := FirstLine(r).value;
    FirstLineText(r);
    ScanIs(r[..m], 0, Break, |line|);
    assert r[..m][..|line|] == line;
    assert r[..m][|line| + 2..] == rest[..m - |line| - 2];
  }

  lemma FirstLineText(r: seq<char>)
    requires FirstLine(r).Some?
    ensures var (line, rest) := FirstLine(r).value;
      && NoBreak(line) && |r| == |line| + 2 + |rest| && r[..|line|] == line
      && r[|line|] == CR && r[|line| + 1] == LF && rest == r[|line| + 2..]
  {
  }

  /** A part of a request that holds its headers has the same content length and the same start of
      the body. */
  lemma {:induction false} BodyInPart(r: seq<char>, v: View, k: nat)
    requires BodyIn(r, v).Some? && k <= |BodyIn(r, v).value.0|
    ensures var (b, clen) := BodyIn(r, v).value; BodyIn(r[..|r| - |b| + k], v) == Some((b[..k], clen))
    decreases |r|
  {
    hide FirstLine, MeaningOfHeader, Str;
    var (b, clen) := BodyIn(r, v).value;
    var (line, rest) := FirstLine(r).value;
    var t := Str(line, 0);
    FirstLineText(r);
    if t != [] {
      BodyInPart(rest, MeaningOfHeader(t, v), k);
    }
    FirstLinePart(r, |r| - |b| + k);
  }

  lemma {:induction false} BodyOfPart(s: seq<char>, k: nat)
    requires BodyOf(s).Some? && k <= |BodyOf(s).value.0|
    ensures var (b, clen) := BodyOf(s).value; BodyOf(s[..|s| - |b| + k]) == Some((b[..k], clen))
  {
    hide FirstLine, MeaningOfRequestLine, BodyIn, Str;
    var (b, clen) := BodyOf(s).value;
    var (line, rest) := FirstLine(s).value;
    var (c, m, u) := MeaningOfRequestLine(Str(line, 0));
    FirstLineText(s);
    BodyInPart(rest, View(m, m == Post, Some(u), None, false, 0, None), k);
    FirstLinePart(s, |s| - |b| + k);
  }

  // ------------------------------------------------------------- cuts that show

  /** The next bytes of a body that make parse_line move on when they arrive alone: a byte that is
      no line break, or a CR LF that does not complete the body; none where it is stopped. */
  function Unit(b: seq<char>, c: nat, clen: int): (u: nat)
    requires c < |b|
    ensures c + u <= |b|
  {
    if !Break.Has(b[c]) then 1
    else if clen >= 3 && c + 1 < |b| && b[c] == CR && b[c + 1] == LF then 2
    else 0
  }

  /** The reads that show: one for each unit, an empty one where parse_line is stopped, and the rest. */
  function Pieces(b: seq<char>, c: nat, clen: int): seq<seq<char>>
    requires c <= |b|
    decreases |b| - c
  {
    if c == |b| then []
    else
      var u := Unit(b, c, clen);
      if u == 0 then [[], b[c..]] else [b[c..c + u]] + Pieces(b, c + u, clen)
  }

  lemma {:induction false} FlattenPieces(b: seq<char>, c: nat, clen: int)
    requires c <= |b|
    ensures Flatten(Pieces(b, c, clen)) == b[c..]
    decreases |b| - c
  {
    if c < |b| {
      var u := Unit(b, c, clen);
      if u == 0 {
        FlattenTwo([], b[c..]);
      } else {
        FlattenPieces(b, c + u, clen);
        FlattenCons(b[c..c + u], Pieces(b, c + u, clen));
      }
    }
  }

  lemma FlattenCons(x: seq<char>, rest: seq<seq<char>>)
    ensures Flatten([x] + rest) == x + Flatten(rest)
  {
    assert ([x] + rest)[1..] == rest;
  }

  lemma FlattenTwo(a: seq<char>, b: seq<char>)
    ensures Flatten([a, b]) == a + b
  {
    assert [a, b][1..] == [b] && [b][1..] == [];
    assert Flatten([b]) == b + Flatten([]) == b;
  }

  lemma {:induction false} RunCons(p: Parser, x: seq<char>, rest: seq<seq<char>>)
    requires WF(p)
    ensures WF(Append(p, x))
    ensures var (c, q) := Loop(Append(p, x), LineOk, AsWritten);
      Run(p, [x] + rest, AsWritten) == if c == NoRequest then Run(q, rest, AsWritten) else (c, q)
  {
    hide WF, Loop;
    AppendWF(p, x);
    assert ([x] + rest)[1..] == rest;
  }

  /** Between two calls with an incomplete body, all bytes run over. */
  predicate RunOver(p: Parser, n: nat, clen: int) {
    WF(p) && p.state == Content && p.check == |p.buf| == n && p.clen == clen
  }

  /** A unit that arrives alone is run over too. */
  lemma {:induction false} UnitRunsOver(p: Parser, x: seq<char>, n: nat, clen: int)
    requires RunOver(p, n, clen) && 2 <= clen && n + |x| + clen <= INT_MAX
    requires (|x| == 1 && !Break.Has(x[0])) || (x == [CR, LF] && clen >= 3)
    ensures WF(Append(p, x))
    ensures var (c, q) := Loop(Append(p, x), LineOk, AsWritten); c == NoRequest && RunOver(q, n + |x|, clen)
  {
    hide Loop, ParseLine, Scan, Observe, WF;
    AppendWF(p, x);
    var y := Append(p, x);
    IncompleteStays(y, LineOk);
    LineShape(y);
    assert y.buf[n] == x[0];
    if |x| == 1 {
      ScanIs(y.buf, n, Break, n + 1);
    } else {
      ScanIs(y.buf, n, Break, n);
      assert y.buf[n + 1] == x[1];
    }
  }

  /** The result shows the cuts: the request is not recognised, or has another body. */
  predicate Shows(r: (Code, Parser), b: seq<char>, clen: int)
    requires 0 <= clen <= |b|
  {
    || r.0 == NoRequest
    || (r.0 == GetRequest && clen < |b| && Observe(r.1).body != Some(Str(b[..clen], 0)))
  }

  /** Where parse_line is stopped, the text that starts there is not the body. */
  lemma {:induction false} OtherText(b: seq<char>, c: nat, clen: int)
    requires 2 <= clen && c + clen <= |b| && !StopsScan(b, clen) && Unit(b, c, clen) == 0
    ensures Str(b[c..][..clen], 0) != Str(b[..clen], 0)
  {
    hide Scan;
    var x, y := b[..clen], b[c..][..clen];
    StartOfText(x);
    StartOfText(y);
  }

  /** The first two bytes of a C string. */
  lemma {:induction false} StartOfText(x: seq<char>)
    requires |x| >= 2
    ensures var t := Str(x, 0);
      && (x[0] == NUL ==> t == [])
      && (x[0] != NUL ==> |t| >= 1 && t[0] == x[0])
      && (x[0] != NUL && x[1] == NUL ==> |t| == 1)
      && (x[0] != NUL && x[1] != NUL ==> |t| >= 2 && t[1] == x[1])
  {
    hide Scan;
    var k := Scan(x, 0, Nul);
    assert x[0] == NUL ==> k == 0 by {
      if x[0] == NUL { ScanIs(x, 0, Nul, 0); }
    }
    if x[0] != NUL && x[1] == NUL {
      ScanIs(x, 0, Nul, 1);
    }
  }

  /** Where parse_line is stopped, one idle call and the rest of the bytes show. */
  lemma {:induction false} StoppedShows(p: Parser, b: seq<char>, c: nat, clen: int, at: nat)
    requires 2 <= clen <= |b| && !StopsScan(b, clen) && at + |b| < READ_BUFF_SIZE
    requires c < |b| && RunOver(p, at + c, clen) && Unit(b, c, clen) == 0
    ensures Shows(Run(p, [[], b[c..]], AsWritten), b, clen)
  {
    hide Loop, WF, ParseLine, Observe, StopsScan, Str, Scan, Unit, Run;
    IdleCall(p);
    var p1 := p.(start := p.check);
    assert Append(p, []) == p;
    RunCons(p, [], [b[c..]]);
    assert [[]] + [b[c..]] == [[], b[c..]];
    RunCons(p1, b[c..], []);
    assert [b[c..]] + [] == [b[c..]];
    var y := Append(p1, b[c..]);
    AppendWF(p1, b[c..]);
    assert y.buf[y.check..] == b[c..];
    if c + clen <= |b| {
      BodyObserved(y);
      WholeBody(y);
      OtherText(b, c, clen);
      StopIsLater(b, c, clen);
    } else {
      IncompleteStays(y, LineOk);
      RunNone(Loop(y, LineOk, AsWritten).1);
    }
  }

  lemma RunNone(p: Parser)
    requires WF(p)
    ensures Run(p, [], AsWritten) == (NoRequest, p)
  {
  }

  lemma StopIsLater(b: seq<char>, c: nat, clen: int)
    requires 2 <= clen <= |b| && !StopsScan(b, clen) && c < |b| && Unit(b, c, clen) == 0
    ensures c > 0
  {
  }

  lemma {:induction false} WholeBody(y: Parser)
    requires WF(y) && y.state == Content && y.check + y.clen <= |y.buf| <= INT_MAX && 0 <= y.clen
    ensures Loop(y, LineOk, AsWritten) == ContentTurn(y) && ContentTurn(y).0 == GetRequest
  {
    hide WF;
    Ordered(y);
  }

  /** A call without new bytes only moves m_start_line. */
  lemma {:induction false} IdleCall(p: Parser)
    requires WF(p) && p.state == Content && p.check == |p.buf| && 0 < p.clen && p.check + p.clen <= INT_MAX
    ensures WF(p.(start := p.check)) && Loop(p, LineOk, AsWritten) == (NoRequest, p.(start := p.check))
  {
    hide Loop, WF;
    FirstTurn(p);
    OpenTurn(p.(start := p.check));
  }

  lemma {:induction false} PiecesShow(p: Parser, b: seq<char>, c: nat, clen: int, at: nat)
    requires 2 <= clen <= |b| && !StopsScan(b, clen) && at + |b| < READ_BUFF_SIZE
    requires c <= |b| && RunOver(p, at + c, clen)
    ensures Shows(Run(p, Pieces(b, c, clen), AsWritten), b, clen)
    decreases |b| - c
  {
    hide Run, Loop, StopsScan, Shows, Observe, WF;
    if c == |b| {
      RunNone(p);
      NotRecognised(p, b, clen);
    } else {
      var u := Unit(b, c, clen);
      if u == 0 {
        StoppedShows(p, b, c, clen, at);
      } else {
        UnitRunsOver(p, b[c..c + u], at + c, clen);
        RunCons(p, b[c..c + u], Pieces(b, c + u, clen));
        PiecesShow(Loop(Append(p, b[c..c + u]), LineOk, AsWritten).1, b, c + u, clen, at);
      }
    }
  }

  lemma NotRecognised(p: Parser, b: seq<char>, clen: int)
    requires 0 <= clen <= |b|
    ensures Shows((NoRequest, p), b, clen)
  {
  }

  /** The reads of the headers, and of the body in pieces. */
  function ShowingCut(s: seq<char>): seq<seq<char>>
    requires BodyOf(s).Some?
  {
    var (b, clen) := BodyOf(s).value;
    [s[..|s| - |b|]] + Pieces(b, 0, clen)
  }

  /** A request with a complete body that does not stop parse_line can be read in pieces so that it
      is not recognised or has another body. */
  lemma {:induction false} CutShows(s: seq<char>)
    requires BodyOf(s).Some? && |s| < READ_BUFF_SIZE
    requires var (b, clen) := BodyOf(s).value; 2 <= clen <= |b| && !StopsScan(b, clen)
    ensures Flatten(ShowingCut(s)) == s && |ShowingCut(s)| > 0
    ensures WF(Init()) && WF(Append(Init(), s))
    ensures var (b, clen) := BodyOf(s).value;
      && Shows(Run(Init(), ShowingCut(s), AsWritten), b, clen)
      && ProcessRead(Append(Init(), s)).0 == GetRequest
      && Observe(ProcessRead(Append(Init(), s)).1).body == Some(Str(b[..clen], 0))
  {
    hide WF, Loop, Observe, ParseLine, BodyHead, StopsScan, BodyOf, Str, Run, Shows, Pieces;
    InitWF();
    var (b, clen) := BodyOf(s).value;
    var at := |s| - |b|;
    FlattenPieces(b, 0, clen);
    FlattenCons(s[..at], Pieces(b, 0, clen));
    BodySuffix(s);
    HeadersRead(s);
    RunCons(Init(), s[..at], Pieces(b, 0, clen));
    PiecesShow(Loop(Append(Init(), s[..at]), LineOk, AsWritten).1, b, 0, clen, at);
    OneRead(s);
  }

  /** The bytes of a body are the end of the input. */
  lemma {:induction false} BodySuffix(s: seq<char>)
    requires BodyOf(s).Some?
    ensures var b := BodyOf(s).value.0; s == s[..|s| - |b|] + b
  {
    hide BodyIn, MeaningOfRequestLine, FirstLine, Str;
    var (line, rest) := FirstLine(s).value;
    var (c, m, u) := MeaningOfRequestLine(Str(line, 0));
    FirstLineText(s);
    BodyInSuffix(rest, View(m, m == Post, Some(u), None, false, 0, None));
  }

  lemma {:induction false} BodyInSuffix(r: seq<char>, v: View)
    requires BodyIn(r, v).Some?
    ensures var b := BodyIn(r, v).value.0; b == r[|r| - |b|..]
    decreases |r|
  {
    hide MeaningOfHeader, FirstLine, Str;
    var (line, rest) := FirstLine(r).value;
    FirstLineText(r);
    if Str(line, 0) != [] {
      BodyInSuffix(rest, MeaningOfHeader(Str(line, 0), v));
    }
  }

  /** The call on the headers alone leaves a state in which the body is to be read. */
  lemma {:induction false} HeadersRead(s: seq<char>)
    requires BodyOf(s).Some? && |s| < READ_BUFF_SIZE && 0 < BodyOf(s).value.1 < READ_BUFF_SIZE
    ensures var (b, clen) := BodyOf(s).value; var at := |s| - |b|; var p := Append(Init(), s[..at]);
      && WF(p) && Loop(p, LineOk, AsWritten).0 == NoRequest
      && RunOver(Loop(p, LineOk, AsWritten).1, at, clen)
  {
    hide WF, Loop, Observe, ParseLine, BodyHead, BodyOf;
    var (b, clen) := BodyOf(s).value;
    var at := |s| - |b|;
    BodyOfPart(s, 0);
    BodyHeadRefines(s[..at]);
    var p := Append(Init(), s[..at]);
    BodyHeadFacts(p);
    var h := BodyHead(p).value;
    HeadAppend(p, []);
    IncompleteStays(h, LineOk);
  }

  /** One call on a complete request. */
  lemma {:induction false} OneRead(s: seq<char>)
    requires BodyOf(s).Some? && |s| < READ_BUFF_SIZE && 0 < BodyOf(s).value.1 <= |BodyOf(s).value.0|
    ensures WF(Append(Init(), s))
    ensures var (b, clen) := BodyOf(s).value; var (c, q) := ProcessRead(Append(Init(), s));
      c == GetRequest && Observe(q).body == Some(Str(b[..clen], 0))
  {
    hide WF, Loop, Observe, ParseLine, BodyHead, BodyOf, Str;
    BodyHeadRefines(s);
    var p := Append(Init(), s);
    BodyHeadFacts(p);
    var h := BodyHead(p).value;
    HeadAppend(p, []);
    assert Append(p, []) == p;
    WholeBody(h);
    BodyObserved(h);
  }

  /** An incomplete body whose scan ends too far for the sum with its length: a read without new
      bytes is enough. */
  lemma {:induction false} OverflowShows(s: seq<char>)
    requires BodyOf(s).Some? && |s| < READ_BUFF_SIZE
    requires var (b, clen) := BodyOf(s).value; var at := |s| - |b|;
      |b| < clen && at + LineEnd(b) + clen <= INT_MAX < at + ScanEnd(b) + clen
    ensures WF(Init()) && WF(Append(Init(), s)) && Flatten([s, []]) == s
    ensures ProcessRead(Append(Init(), s)).0 == NoRequest && Run(Init(), [s, []], AsWritten).0 == Undefined
  {
    hide WF, Loop, Observe, ParseLine, BodyHead, BodyOf, LineEnd, ScanEnd, Run;
    InitWF();
    FlattenTwo(s, []);
    assert s + [] == s;
    BodyHeadRefines(s);
    var p := Append(Init(), s);
    BodyHeadFacts(p);
    var h := BodyHead(p).value;
    HeadAppend(p, []);
    CallEnds(h);
    IncompleteStays(h, LineOk);
    var q := Loop(h, LineOk, AsWritten).1;
    RunCons(Init(), s, [[]]);
    assert [s] + [[]] == [s, []];
    RunCons(q, [], []);
    var none: seq<seq<char>> := [];
    assert [[]] + none == [[]] && Append(q, []) == q;
    FirstTurn(q);
  }

  /** The exact condition, for every input: no way of cutting it into reads can be seen if and only
      if it has no body, or its body stops parse_line at its first byte, or stays incomplete without
      coming near an overflow that one call does not meet. */
  lemma {:induction false} CutsInvisibleIff(s: seq<char>)
    requires |s| < READ_BUFF_SIZE
    ensures WF(Init()) && WF(Append(Init(), s))
    ensures
      (forall chunks | |chunks| > 0 && Flatten(chunks) == s ::
         SameOutcome(Run(Init(), chunks, AsWritten), ProcessRead(Append(Init(), s))))
      <==> Unseen(s)
  {
    hide Run, Loop, BodyOf, Flatten, BoundariesStop, WF, Observe, StopsScan, LineEnd, ScanEnd, ShowingCut;
    InitWF();
    ReceivedWF(s);
    if Unseen(s) {
      forall chunks | |chunks| > 0 && Flatten(chunks) == s
        ensures SameOutcome(Run(Init(), chunks, AsWritten), ProcessRead(Append(Init(), s)))
      {
        ReadsComputeMeaning(chunks);
      }
    } else {
      var (b, clen) := BodyOf(s).value;
      LongerThanOne(b, clen);
      var chunks := [s, []];
      if |b| < clen {
        OverflowShows(s);
      } else {
        CutShows(s);
        chunks := ShowingCut(s);
      }
      assert |chunks| > 0 && Flatten(chunks) == s;
      assert !SameOutcome(Run(Init(), chunks, AsWritten), ProcessRead(Append(Init(), s)));
    }
  }

  lemma LongerThanOne(b: seq<char>, clen: int)
    requires !StopsScan(b, clen)
    ensures clen >= 2
  {
  }

  // ------------------------------------------------------------------ a given cut

  lemma {:induction false} HeadIsBehind(p: Parser)
    requires WF(p) && BodyHead(p).Some?
    ensures p.check <= BodyHead(p).value.check
    decreases |p.buf| - p.check
  {
    hide WF, LineTurn;
    if p.state != Content {
      HeadIsBehind(LineTurn(p).2);
    }
  }

  /** The line that was open ends behind the bytes that were there. */
  lemma {:induction false} OpenLineEnds(p: Parser, e: seq<char>)
    requires WF(p) && WF(Append(p, e)) && ParseLine(p).0 != LineOk && ParseLine(Append(p, e)).0 == LineOk
    ensures |p.buf| < ParseLine(Append(p, e)).1.check
  {
    Ordered(p);
    LineShape(p);
    LineShape(Append(p, e));
    hide WF, ParseLine, Scan;
    if Scan(p.buf, p.check, Break) < |p.buf| {
      ScanPrefix(p.buf, p.buf + e, p.check, Break);
    } else {
      assert forall j :: p.check <= j < |p.buf| ==> (p.buf + e)[j] == p.buf[j];
      ScanResume(p.buf + e, p.check, Break, |p.buf|);
    }
  }

  lemma {:induction false} TurnDelivers(p: Parser)
    requires WF(p) && p.state != Content
    ensures LineTurn(p).0 ==> ParseLine(p).0 == LineOk && LineTurn(p).2.check == ParseLine(p).1.check
    ensures !LineTurn(p).0 && LineTurn(p).1 == NoRequest ==> ParseLine(p).0 != LineOk
  {
    hide ParseLine, WF, ParseRequestLine, ParseHeader;
  }

  /** A call that has not come to the body leaves the rest of the headers to later bytes. */
  lemma {:induction false} HeadNotYet(p: Parser, e: seq<char>)
    requires WF(p) && WF(Append(p, e)) && BodyHead(p) == None && BodyHead(Append(p, e)).Some?
    ensures Loop(p, LineOk, AsWritten).0 == NoRequest && |p.buf| < BodyHead(Append(p, e)).value.check
    decreases |p.buf| - p.check
  {
    hide WF, LineTurn, ParseLine, Observe;
    TurnAppend(p, e);
    var (more, c, q) := LineTurn(p);
    if more {
      HeadNotYet(q, e);
    } else {
      TurnDelivers(p);
      TurnDelivers(Append(p, e));
      OpenLineEnds(p, e);
      HeadIsBehind(LineTurn(Append(p, e)).2);
    }
  }

  /** A body that stays incomplete is never handed over. */
  lemma {:induction false} NeverRecognised(q: Parser, chunks: seq<seq<char>>)
    requires WF(q) && q.state == Content && |q.buf| + |Flatten(chunks)| < q.check + q.clen
    ensures Run(q, chunks, AsWritten).0 != GetRequest
    decreases |chunks|
  {
    hide WF, Loop, ParseLine, Observe;
    if chunks != [] {
      var y := Append(q, chunks[0]);
      AppendWF(q, chunks[0]);
      FirstTurn(y);
      if y.check + y.clen <= INT_MAX {
        IncompleteStays(y, LineOk);
        CheckGrows(y);
        if Loop(y, LineOk, AsWritten).0 == NoRequest {
          NeverRecognised(Loop(y, LineOk, AsWritten).1, chunks[1..]);
        }
      }
    }
  }

  lemma CheckGrows(y: Parser)
    requires WF(y)
    ensures WF(Loop(y, LineOk, AsWritten).1) || Loop(y, LineOk, AsWritten).0 != NoRequest
    ensures y.check <= Loop(y, LineOk, AsWritten).1.check && |Loop(y, LineOk, AsWritten).1.buf| == |y.buf|
  {
  }

  lemma {:induction false} BoundariesBehind(at: nat, chunks: seq<seq<char>>, lo: nat, hi: int, body: seq<char>)
    requires at >= hi
    ensures BoundariesStop(at, chunks, lo, hi, body)
    decreases |chunks|
  {
    if |chunks| > 1 {
      BoundariesBehind(at + |chunks[0]|, chunks[1..], lo, hi, body);
    }
  }

  /** Reads that cut the body behind a part that does not stop parse_line: the request is never
      recognised. */
  lemma {:induction false} ShowingRun(p: Parser, chunks: seq<seq<char>>)
    requires WF(p) && Fresh(p) && |p.buf| + |Flatten(chunks)| < READ_BUFF_SIZE && WF(Append(p, Flatten(chunks)))
    requires BodyHead(Append(p, Flatten(chunks))).Some?
    requires var w := BodyHead(Append(p, Flatten(chunks))).value;
      && |w.buf| == w.check + w.clen && 0 < w.clen
      && !BoundariesStop(|p.buf|, chunks, w.check, w.check + w.clen, w.buf[w.check..])
    ensures Run(p, chunks, AsWritten).0 != GetRequest
    decreases |chunks|
  {
    hide WF, Loop, ParseLine, Observe, BodyHead, StopsAt, Harmless;
    var a, rest := Append(p, chunks[0]), Flatten(chunks[1..]);
    AppendWF(p, chunks[0]);
    assert Append(p, Flatten(chunks)) == Append(a, rest);
    var w := BodyHead(Append(a, rest)).value;
    BodyHeadFacts(Append(a, rest));
    if BodyHead(a) == None {
      HeadNotYet(a, rest);
      NoHeadHarmless(a);
      Resume(a, AsWritten, rest);
      ShowingRun(Loop(a, LineOk, AsWritten).1, chunks[1..]);
    } else {
      HeadAppend(a, rest);
      var h := BodyHead(a).value;
      BodyHeadFacts(a);
      if rest == [] {
        BoundariesBehind(|a.buf|, chunks[1..], w.check, w.check + w.clen, w.buf[w.check..]);
      } else {
        IncompleteStays(h, LineOk);
        CheckGrows(h);
        if Harmless(a) {
          if h.check < |a.buf| {
            HarmlessStart(a, rest);
          }
          Resume(a, AsWritten, rest);
          ShowingRun(Loop(a, LineOk, AsWritten).1, chunks[1..]);
        } else {
          HarmfulMoves(a);
          NeverRecognised(Loop(a, LineOk, AsWritten).1, chunks[1..]);
        }
      }
    }
  }

  lemma NoHeadHarmless(p: Parser)
    requires WF(p) && BodyHead(p) == None
    ensures Harmless(p)
  {
  }

  lemma HarmfulMoves(p: Parser)
    requires WF(p) && !Harmless(p)
    ensures BodyHead(p).Some? && BodyHead(p).value.check < ParseLine(BodyHead(p).value).1.check
  {
    LineShape(BodyHead(p).value);
  }

  /** The exact condition for given reads of an input that ends with its body: they have the outcome of
      one read if and only if each of them that ends inside the body ends behind a part that stops
      parse_line at its first byte. */
  lemma {:induction false} CutInvisibleIff(chunks: seq<seq<char>>)
    requires |chunks| > 0 && |Flatten(chunks)| < READ_BUFF_SIZE
    requires BodyOf(Flatten(chunks)).Some? && 0 < BodyOf(Flatten(chunks)).value.1 == |BodyOf(Flatten(chunks)).value.0|
    ensures WF(Init()) && WF(Append(Init(), Flatten(chunks)))
    ensures var s := Flatten(chunks); var (b, clen) := BodyOf(s).value;
      SameOutcome(Run(Init(), chunks, AsWritten), ProcessRead(Append(Init(), s)))
      <==> BoundariesStop(0, chunks, |s| - |b|, |s|, b)
  {
    hide WF, Loop, Run, Observe, BodyOf, BodyHead, Flatten, BoundariesStop;
    var s := Flatten(chunks);
    var (b, clen) := BodyOf(s).value;
    InitWF();
    ReceivedWF(s);
    if BoundariesStop(0, chunks, |s| - |b|, |s|, b) {
      ReadsComputeMeaning(chunks);
    } else {
      OneRead(s);
      BodyHeadRefines(s);
      BodyHeadFacts(Append(Init(), s));
      ShowingRun(Init(), chunks);
    }
  }

  // ------------------------------------------------------------ a concrete request

  const POST_LINE: seq<char> := "POST /2 HTTP/1.1"
  const LENGTH_LINE: seq<char> := "Content-Length:2"
  const POST_HEAD: seq<char> := POST_LINE + "\r\n" + (LENGTH_LINE + "\r\n" + ("" + "\r\n" + []))

  lemma {:induction false} PostTarget()
    ensures MeaningOfTarget("/2 HTTP/1.1", Post) == (NoRequest, Post, "/2")
  {
    var t := "/2 HTTP/1.1";
    ScanIs(t, 0, BlankOrNul, 2);
    assert t[..2] == "/2" && t[3..] == "HTTP/1.1";
    DiffersAt("/2", "http://", 0);
    DiffersAt("/2", "https://", 0);
  }

  lemma {:induction false} PostLine()
    ensures NoBreak(POST_LINE) && NoNul(POST_LINE)
    ensures MeaningOfRequestLine(POST_LINE) == (NoRequest, Post, "/2")
  {
    hide MeaningOfTarget;
    ScanIs(POST_LINE, 0, BlankOrNul, 4);
    assert POST_LINE[..4] == "POST" && POST_LINE[5..] == "/2 HTTP/1.1";
    PostTarget();
  }

  lemma LengthLineParts()
    ensures LENGTH_LINE == "Content-Length:" + "2" && |LENGTH_LINE| == 16 && LENGTH_LINE[15..] == "2"
    ensures NoBreak("Content-Length:") && NoNul("Content-Length:") && NoBreak("2") && NoNul("2")
    ensures FormatInt(2) == "2" && LENGTH_LINE[15] == '2'
  {
  }

  lemma {:induction false} LengthLine(v: View)
    ensures NoBreak(LENGTH_LINE) && NoNul(LENGTH_LINE)
    ensures MeaningOfHeader(LENGTH_LINE, v) == v.(clen := 2)
  {
    hide NoBreak, NoNul, FormatInt, Atol, Classify, Skip, EqCI;
    LengthLineParts();
    JoinPlain("Content-Length:", "2");
    ClassifyContentLength("2");
    SkipIs(LENGTH_LINE, 15, Blank, 15);
    AtolFormatInt(2);
  }

  lemma {:induction false} PostHead(b: seq<char>)
    ensures BodyOf(POST_HEAD + b) == Some((b, 2))
  {
    hide FirstLine, MeaningOfRequestLine, MeaningOfHeader, Str;
    var r2 := "" + "\r\n" + b;
    var r1 := LENGTH_LINE + "\r\n" + r2;
    assert POST_HEAD + b == POST_LINE + "\r\n" + r1;
    PostLine();
    FirstLineIs(POST_LINE, r1);
    WholeStr(POST_LINE);
    FirstLineIs(LENGTH_LINE, r2);
    WholeStr(LENGTH_LINE);
    var v := View(Post, true, Some("/2"), None, false, 0, None);
    LengthLine(v);
    FirstLineIs("", b);
    WholeStr("");
    assert BodyIn(r2, v.(clen := 2)) == Some((b, 2));
    assert BodyIn(r1, v) == Some((b, 2));
  }

  /** A body whose bytes arrive alone is never recognised, although it is in one read. */
  lemma {:induction false} CutBodyShows()
    ensures WF(Init()) && WF(Append(Init(), POST_HEAD + "ab"))
    ensures ProcessRead(Append(Init(), POST_HEAD + "ab")).0 == GetRequest
    ensures Run(Init(), [POST_HEAD, "a", "b"], AsWritten).0 == NoRequest
  {
    hide WF, Loop, Run, BodyOf, Observe, Pieces;
    var s := POST_HEAD + "ab";
    PostHead("ab");
    CutShows(s);
    assert s[..|s| - 2] == POST_HEAD;
    PiecesOfTwo();
    assert ShowingCut(s) == [POST_HEAD, "a", "b"];
  }

  lemma PiecesOfTwo()
    ensures Pieces("ab", 0, 2) == ["a", "b"]
  {
    assert "ab"[1..2] == "b" && "ab"[0..1] == "a" && Pieces("ab", 2, 2) == [];
    assert Pieces("ab", 1, 2) == ["b"] + Pieces("ab", 2, 2);
    assert Pieces("ab", 0, 2) == ["a"] + Pieces("ab", 1, 2);
  }
}
