/** Conservation of the line splitter: what parse_line delivers, over any number of reads, is the
    one way to cut the input at CR LF. */
module LineSplitting {
  import opened Common
  import opened CString
  import opened RequestParser
  import opened ChunkIndependence
  import opened ChunkedRuns
  import opened Reference

  /** The lines of an input and the part that no CR LF ends yet. */
  function Split(s: seq<char>): (seq<seq<char>>, seq<char>)
    decreases |s|
  {
    match FirstLine(s)
    case None => ([], s)
    case Some((line, rest)) => var (lines, tail) := Split(rest); ([line] + lines, tail)
  }

  function Join(lines: seq<seq<char>>, tail: seq<char>): seq<char> {
    if lines == [] then tail else lines[0] + "\r\n" + Join(lines[1..], tail)
  }

  /** Nothing is lost or invented, and no delivered line holds a line break. */
  lemma {:induction false} SplitConserves(s: seq<char>)
    ensures var (lines, tail) := Split(s);
      && Join(lines, tail) == s
      && (forall i :: 0 <= i < |lines| ==> NoBreak(lines[i]))
      && FirstLine(tail) == None
    decreases |s|
  {
    match FirstLine(s)
    case None =>
    case Some((line, rest)) =>
      SplitConserves(rest);
      assert s == line + "\r\n" + rest;
      assert Split(s).0[1..] == Split(rest).0;
  }

  /** There is only one such way to cut an input. */
  lemma {:induction false} SplitUnique(lines: seq<seq<char>>, tail: seq<char>)
    requires forall i :: 0 <= i < |lines| ==> NoBreak(lines[i])
    requires FirstLine(tail) == None
    ensures Split(Join(lines, tail)) == (lines, tail)
  {
    if lines != [] {
      var rest := Join(lines[1..], tail);
      FirstLineIs(lines[0], rest);
      SplitUnique(lines[1..], tail);
      assert [lines[0]] + lines[1..] == lines;
    }
  }

  /** parse_line until it delivers no line; each line is taken off as process_read does. */
  function Deliver(p: Parser): (r: (seq<seq<char>>, Parser))
    requires WF(p) && p.state == RequestLine
    ensures WF(r.1) && r.1.state == RequestLine
    decreases |p.buf| - p.check
  {
    LineWF(p);
    ParseLineState(p);
    var (s, q) := ParseLine(p);
    if s == LineOk then
      var (lines, end) := Deliver(q.(start := q.check));
      ([q.buf[q.start..q.check - 2]] + lines, end)
    else ([], q)
  }

  /** The reads of a connection: after each one the complete lines are taken off. */
  function DeliverRun(p: Parser, chunks: seq<seq<char>>): (seq<seq<char>>, Parser)
    requires WF(p) && p.state == RequestLine
    decreases |chunks|
  {
    if chunks == [] then ([], p)
    else
      AppendWF(p, chunks[0]);
      var (lines, q) := Deliver(Append(p, chunks[0]));
      var (more, end) := DeliverRun(q, chunks[1..]);
      (lines + more, end)
  }

  /** The part of the buffer that parse_line has not examined, and the current line so far. */
  function Undelivered(p: Parser): seq<char>
    requires p.start <= p.check <= |p.buf|
  {
    p.buf[p.start..]
  }

  lemma {:induction false} DeliverIsSplit(p: Parser)
    requires WF(p) && p.state == RequestLine
    ensures Deliver(p).0 == Split(Undelivered(p)).0 && Undelivered(Deliver(p).1) == Split(Undelivered(p)).1
    decreases |p.buf| - p.check
  {
    hide Scan, WF, ParseLine, FirstLine;
    Ordered(p);
    LineWF(p);
    ParseLineState(p);
    LineFromStart(p);
    Ordered(Deliver(p).1);
    if ParseLine(p).0 == LineOk {
      var q := ParseLine(p).1;
      DeliverIsSplit(q.(start := q.check));
    }
  }

  /** parse_line sees the same lines from m_check_index as from the start of the line. */
  lemma {:induction false} LineFromStart(p: Parser)
    requires WF(p) && p.state != Content
    ensures var (s, q) := ParseLine(p); var f := FirstLine(Undelivered(p));
      && (s == LineOk <==> f != None)
      && (s == LineOk ==>
            q.check >= q.start + 2 && f.value.0 == q.buf[q.start..q.check - 2] && f.value.1 == q.buf[q.check..])
      && (s != LineOk ==> q.buf == p.buf && q.start == p.start)
  {
    hide Scan, WF, ParseLine, FirstLine;
    Ordered(p);
    LineShape(p);
    NoBreakSoFar(p);
    FirstLineAt(p.buf, p.start);
  }

  lemma {:induction false} NoBreakSoFar(p: Parser)
    requires WF(p) && p.state != Content
    ensures p.start <= p.check <= |p.buf| && Scan(p.buf, p.start, Break) == Scan(p.buf, p.check, Break)
  {
    ScanResume(p.buf, p.start, Break, p.check);
  }

  lemma {:induction false} DeliverAppend(p: Parser, e: seq<char>)
    requires WF(p) && p.state == RequestLine
    ensures WF(Append(p, e)) && WF(Append(Deliver(p).1, e))
    ensures var (lines, q) := Deliver(p);
      Deliver(Append(p, e)) == (lines + Deliver(Append(q, e)).0, Deliver(Append(q, e)).1)
    decreases |p.buf| - p.check
  {
    hide Scan, WF, ParseLine;
    AppendWF(p, e);
    LineWF(p);
    LineAppend(p, e);
    ParseLineState(p);
    var (s, q) := ParseLine(p);
    if s == LineOk {
      var q1 := q.(start := q.check);
      DeliverAppend(q1, e);
      assert Append(q, e).(start := q.check) == Append(q1, e);
      var line := q.buf[q.start..q.check - 2];
      assert (q.buf + e)[q.start..q.check - 2] == line;
      var (lines, end) := Deliver(q1);
      assert [line] + (lines + Deliver(Append(end, e)).0) == ([line] + lines) + Deliver(Append(end, e)).0;
    } else {
      AppendWF(q, e);
      assert [] + Deliver(Append(q, e)).0 == Deliver(Append(q, e)).0;
      assert Deliver(Append(p, e)) == Deliver(Append(q, e));
    }
  }

  lemma {:induction false} DeliverRunAppends(p: Parser, chunks: seq<seq<char>>)
    requires WF(p) && p.state == RequestLine && Deliver(p) == ([], p)
    ensures WF(Append(p, Flatten(chunks)))
    ensures DeliverRun(p, chunks) == Deliver(Append(p, Flatten(chunks)))
    decreases |chunks|
  {
    hide Deliver, WF;
    if chunks == [] {
      assert Append(p, []) == p;
    } else {
      AppendWF(p, chunks[0]);
      AppendWF(p, Flatten(chunks));
      var a := Append(p, chunks[0]);
      var (lines, q) := Deliver(a);
      DeliverIdle(a);
      DeliverRunAppends(q, chunks[1..]);
      DeliverAppend(a, Flatten(chunks[1..]));
      assert Append(a, Flatten(chunks[1..])) == Append(p, Flatten(chunks));
    }
  }

  lemma {:induction false} DeliverIdle(p: Parser)
    requires WF(p) && p.state == RequestLine
    ensures Deliver(Deliver(p).1) == ([], Deliver(p).1)
    decreases |p.buf| - p.check
  {
    hide Scan, Settled, ParseLine;
    LineWF(p);
    ParseLineState(p);
    LineAppend(p, []);
    var (s, q) := ParseLine(p);
    if s == LineOk {
      DeliverIdle(q.(start := q.check));
    } else {
      assert Append(p, []) == p && Append(q, []) == q;
    }
  }

  /** Over every sequence of reads the delivered lines, rejoined with CR LF, and the undelivered
      rest of the buffer are the bytes that were read; no delivered line holds a line break. */
  lemma {:induction false} ReadsConserveInput(chunks: seq<seq<char>>)
    ensures WF(Init())
    ensures var (lines, q) := DeliverRun(Init(), chunks);
      && q.start <= q.check <= |q.buf|
      && Join(lines, Undelivered(q)) == Flatten(chunks)
      && (forall i :: 0 <= i < |lines| ==> NoBreak(lines[i]))
  {
    var s := Flatten(chunks);
    DeliverNothing();
    DeliverRunAppends(Init(), chunks);
    var p := Append(Init(), s);
    assert Undelivered(p) == s;
    DeliverIsSplit(p);
    SplitConserves(s);
  }

  lemma DeliverNothing()
    ensures WF(Init()) && Deliver(Init()) == ([], Init())
  {
  }

  /** A bad line stays bad: whatever arrives later, parse_line stops at the same byte. */
  lemma {:induction false} BadLineAbsorbs(p: Parser, e: seq<char>)
    requires WF(p) && ParseLine(p).0 == LineBad
    ensures var q := ParseLine(p).1;
      WF(Append(q, e)) && ParseLine(Append(q, e)) == (LineBad, Append(q, e))
  {
    hide Scan, Settled, ParseLine;
    LineWF(p);
    LineAppend(p, e);
    AppendWF(ParseLine(p).1, e);
  }
}
