/** The logger: rotation of its files, the choice between queue and file, and who can lose a
    message between full() and push(). */
module LogFile {
  import opened Common
  import opened BlockQueue

  datatype Date = Date(year: int, month: int, day: int)

  /** The file that is open: the date in its name, and the suffix that numbers it; 0 has none. */
  datatype File = File(date: Date, index: int)

  // ------------------------------------------------------------------- rotation

  /** m_count, m_today and the open file. */
  datatype Rotation = Rotation(count: int, today: int, file: File)

  /** The first locked section of write_log. */
  function Rotate(r: Rotation, now: Date, split: int): Rotation
    requires split > 0
  {
    var count := r.count + 1;
    if r.today != now.day || count % split == 0 then
      if r.today != now.day then Rotation(0, now.day, File(now, 0))
      else Rotation(count, r.today, File(now, count / split))
    else r.(count := count)
  }

  /** The suffix of the open file is the number of full files of its day. */
  predicate RotationInv(r: Rotation, split: int)
    requires split > 0
  {
    r.count >= 0 && r.file.index == r.count / split && r.file.date.day == r.today
  }

  /** The quotient moves exactly when the remainder becomes zero. */
  lemma {:induction false} QuotientMoves(n: int, d: int)
    requires n >= 0 && d > 0
    ensures (n + 1) / d == if (n + 1) % d == 0 then n / d + 1 else n / d
  {
    var q, r := n / d, n % d;
    assert n == q * d + r && 0 <= r < d;
    if r + 1 < d {
      DivisionIs(n + 1, d, q, r + 1);
    } else {
      assert n + 1 == (q + 1) * d;
      DivisionIs(n + 1, d, q + 1, 0);
    }
  }

  lemma {:induction false} AtLeastOne(k: int, d: int)
    requires k >= 1 && d > 0
    ensures k * d >= d
  {
    assert k * d == (k - 1) * d + d;
    assert (k - 1) * d >= 0;
  }

  lemma {:induction false} DivisionIs(n: int, d: int, q: int, r: int)
    requires d > 0 && 0 <= r < d && n == q * d + r
    ensures n / d == q && n % d == r
  {
    SameQuotient(n / d, n % d, q, r, d);
  }

  lemma {:induction false} SameQuotient(a: int, b: int, q: int, r: int, d: int)
    requires d > 0 && 0 <= r < d && 0 <= b < d && a * d + b == q * d + r
    ensures a == q && b == r
  {
    assert (a - q) * d == r - b && (q - a) * d == b - r;
    if a > q {
      AtLeastOne(a - q, d);
    } else if a < q {
      AtLeastOne(q - a, d);
    }
  }

  lemma {:induction false} RotateKeeps(r: Rotation, now: Date, split: int)
    requires split > 0 && RotationInv(r, split)
    ensures RotationInv(Rotate(r, now, split), split)
  {
    QuotientMoves(r.count, split);
    if r.today != now.day {
      DivisionIs(0, split, 0, 0);
    }
  }

  function RotateAll(r: Rotation, dates: seq<Date>, split: int): Rotation
    requires split > 0
    decreases |dates|
  {
    if dates == [] then r else RotateAll(Rotate(r, dates[0], split), dates[1..], split)
  }

  /** However many messages are logged on whatever days, the open file is numbered by the messages
      of its day; n messages on the day of the last one move the count by n. */
  lemma {:induction false} RotationOverRuns(r: Rotation, dates: seq<Date>, split: int)
    requires split > 0 && RotationInv(r, split)
    ensures RotationInv(RotateAll(r, dates, split), split)
    ensures (forall i :: 0 <= i < |dates| ==> dates[i].day == r.today) ==>
      var n := RotateAll(r, dates, split);
      && n.today == r.today && n.count == r.count + |dates| && n.file.index == (r.count + |dates|) / split
    decreases |dates|
  {
    if dates != [] {
      RotateKeeps(r, dates[0], split);
      RotationOverRuns(Rotate(r, dates[0], split), dates[1..], split);
    }
  }

  /** The file that is open behind n messages of one day, the first of which made the count 1 + base: the
      one that the last message with a full count opened, with the date of that message. */
  function OpenFile(base: nat, dates: seq<Date>, split: int, before: File): File
    requires split > 0
  {
    var last := (base + |dates|) / split * split;
    if base < last <= base + |dates| then File(dates[last - base - 1], last / split) else before
  }

  lemma {:induction false} RotateSnoc(r: Rotation, dates: seq<Date>, d: Date, split: int)
    requires split > 0
    ensures RotateAll(r, dates + [d], split) == Rotate(RotateAll(r, dates, split), d, split)
    decreases |dates|
  {
    hide Rotate;
    if dates == [] {
      assert dates + [d] == [d];
      assert RotateAll(Rotate(r, d, split), [], split) == Rotate(r, d, split);
    } else {
      assert (dates + [d])[1..] == dates[1..] + [d];
      RotateSnoc(Rotate(r, dates[0], split), dates[1..], d, split);
    }
  }

  /** The last full count, one message on */
  lemma {:induction false} LastFull(n: int, split: int)
    requires n >= 0 && split > 0
    ensures (n + 1) % split == 0 ==> (n + 1) / split * split == n + 1
    ensures (n + 1) % split != 0 ==> (n + 1) / split * split == n / split * split
    ensures 0 <= n / split * split <= n && (n / split * split) / split == n / split
  {
    QuotientMoves(n, split);
    var q := n / split;
    assert q * split + n % split == n;
    DivisionIs(q * split, split, q, 0);
    assert (n + 1) / split * split + (n + 1) % split == n + 1;
  }

  /** Messages of one day: the count goes up by one with each, and the open file is the last full one. */
  lemma {:induction false} OneDay(r: Rotation, dates: seq<Date>, split: int)
    requires split > 0 && r.count >= 0 && forall i :: 0 <= i < |dates| ==> dates[i].day == r.today
    ensures RotateAll(r, dates, split)
         == Rotation(r.count + |dates|, r.today, OpenFile(r.count, dates, split, r.file))
    decreases |dates|
  {
    if dates == [] {
      LastFull(r.count, split);
    } else {
      var n := |dates| - 1;
      var front, d := dates[..n], dates[n];
      assert front + [d] == dates;
      OneDay(r, front, split);
      RotateSnoc(r, front, d, split);
      LastFull(r.count + n, split);
      SameFile(r.count, front, d, split, r.file);
    }
  }

  lemma {:induction false} SameFile(base: nat, front: seq<Date>, d: Date, split: int, before: File)
    requires split > 0
    ensures OpenFile(base, front + [d], split, before)
         == if (base + |front| + 1) % split == 0 then File(d, (base + |front| + 1) / split)
            else OpenFile(base, front, split, before)
  {
    LastFull(base + |front|, split);
  }

  /** Whatever the dates: when the day last changed at message k, the count is the number of messages
      behind it, and the open file carries the whole date, and the number, of the last message that
      made the count full, or of message k. */
  lemma {:induction false} LastDayDecides(r: Rotation, dates: seq<Date>, k: nat, split: int)
    requires split > 0 && k < |dates|
    requires dates[k].day != RotateAll(r, dates[..k], split).today
    requires forall i :: k < i < |dates| ==> dates[i].day == dates[k].day
    ensures var n := |dates| - k - 1;
      RotateAll(r, dates, split) == Rotation(n, dates[k].day, OpenFile(0, dates[k + 1..], split, File(dates[k], 0)))
  {
    hide OpenFile;
    var s := RotateAll(r, dates[..k], split);
    var first := Rotate(s, dates[k], split);
    assert first == Rotation(0, dates[k].day, File(dates[k], 0));
    RotateConcat(r, dates[..k], dates[k..], split);
    assert dates[..k] + dates[k..] == dates && dates[k..][0] == dates[k] && dates[k..][1..] == dates[k + 1..];
    OneDay(first, dates[k + 1..], split);
  }

  lemma {:induction false} RotateConcat(r: Rotation, a: seq<Date>, b: seq<Date>, split: int)
    requires split > 0
    ensures RotateAll(r, a + b, split) == RotateAll(RotateAll(r, a, split), b, split)
    decreases |a|
  {
    hide Rotate;
    if a == [] {
      assert a + b == b;
    } else {
      assert (a + b)[1..] == a[1..] + b;
      RotateConcat(Rotate(r, a[0], split), a[1..], b, split);
    }
  }

  /** m_today is the day of the last message. */
  lemma {:induction false} TodayIsLast(r: Rotation, dates: seq<Date>, split: int)
    requires split > 0
    ensures RotateAll(r, dates, split).today == if dates == [] then r.today else dates[|dates| - 1].day
    decreases |dates|
  {
    if dates != [] {
      var n := |dates| - 1;
      assert dates[..n] + [dates[n]] == dates;
      RotateSnoc(r, dates[..n], dates[n], split);
    }
  }

  class Log {
    const isAsync: bool
    const splitLines: int
    const queue: BlockQueue<string>
    var count: int
    var today: int
    var file: File
    /** What fputs wrote, and where. */
    var written: seq<(File, string)>

    ghost predicate Valid()
      reads this, queue
    {
      splitLines > 0 && queue.Valid() && RotationInv(Rotation(count, today, file), splitLines)
    }

    constructor (asynchronous: bool, split: int, capacity: int, now: Date)
      requires split > 0 && capacity > 0
      ensures Valid() && queue.Contents() == [] && written == []
      ensures count == 0 && file == File(now, 0) && isAsync == asynchronous
    {
      isAsync, splitLines := asynchronous, split;
      queue := new BlockQueue<string>(capacity);
      count, today, file, written := 0, now.day, File(now, 0), [];
      DivisionIs(0, split, 0, 0);
    }

    /** write_log on the formatted line.  Other threads may rotate the file, as `dates` says, before
        the line is written, and use the queue, as `ops` says, between full() and push().  The line
        goes to the file that is open then, or to the queue unless the others have filled it. */
    method WriteLog(now: Date, line: string, dates: seq<Date>, ops: seq<Op<string>>)
      requires Valid()
      modifies this, queue, queue.slots
      ensures Valid()
      ensures Rotation(count, today, file) == RotateAll(old(Rotation(count, today, file)), [now] + dates, splitLines)
      ensures isAsync && |old(queue.Contents())| < queue.maxSize ==>
        var q := ApplyAll(old(queue.Contents()), ops, queue.maxSize);
        queue.Contents() == (if |q| < queue.maxSize then q + [line] else q) && written == old(written)
      ensures !(isAsync && |old(queue.Contents())| < queue.maxSize) ==>
        queue.Contents() == old(queue.Contents()) && written == old(written) + [(file, line)]
    {
      hide Rotate, RotationInv;
      RotateFile(now);
      RotateMore(dates);
      assert ([now] + dates)[1..] == dates;
      var full := queue.Full();
      if isAsync && !full {
        queue.Others(ops);
        var _ := queue.Push(line);
      } else {
        written := written + [(file, line)];
      }
    }

    /** The rotations of other threads */
    method RotateMore(dates: seq<Date>)
      requires splitLines > 0 && RotationInv(Rotation(count, today, file), splitLines)
      modifies `count, `today, `file
      ensures RotationInv(Rotation(count, today, file), splitLines)
      ensures Rotation(count, today, file) == RotateAll(old(Rotation(count, today, file)), dates, splitLines)
    {
      hide Rotate, RotationInv;
      var rest := dates;
      ghost var end := RotateAll(Rotation(count, today, file), dates, splitLines);
      while rest != []
        invariant RotationInv(Rotation(count, today, file), splitLines)
        invariant RotateAll(Rotation(count, today, file), rest, splitLines) == end
        decreases |rest|
      {
        RotateFile(rest[0]);
        rest := rest[1..];
      }
    }

    /** The first locked section of write_log */
    method RotateFile(now: Date)
      requires splitLines > 0 && RotationInv(Rotation(count, today, file), splitLines)
      modifies `count, `today, `file
      ensures Rotation(count, today, file) == Rotate(old(Rotation(count, today, file)), now, splitLines)
      ensures RotationInv(Rotation(count, today, file), splitLines)
    {
      hide RotationInv;
      RotateKeeps(Rotation(count, today, file), now, splitLines);
      count := count + 1;
      if today != now.day || count % splitLines == 0 {
        if today != now.day {
          file := File(now, 0);
          today := now.day;
          count := 0;
        } else {
          file := File(now, count / splitLines);
        }
      }
    }
  }

  // ------------------------------------------------ between full() and push()

  /** A producer has seen room for its message, or is elsewhere. */
  datatype Producer = Elsewhere | SawRoom(line: string)

  /** `logged` is every line a producer has come with, `pushed` what went into the queue, and `drained` what
      came out of it. */
  datatype State = State(producers: map<nat, Producer>, queue: seq<string>, file: seq<string>, lost: seq<string>,
                         logged: seq<string>, pushed: seq<string>, drained: seq<string>)

  datatype Step =
    | Check(p: nat, line: string)   // full(): on to push(), or to fputs
    | Push(p: nat)                  // push(), whose result is ignored
    | Drain                         // async_write_log pops and writes

  function Initial(producers: set<nat>): State {
    State(map p | p in producers :: Elsewhere, [], [], [], [], [], [])
  }

  function Next(s: State, e: Step, cap: nat): Option<State> {
    match e
    case Check(p, line) =>
      if p !in s.producers || !s.producers[p].Elsewhere? then None
      else
        var n := s.(logged := s.logged + [line]);
        if |s.queue| < cap then Some(n.(producers := s.producers[p := SawRoom(line)]))
        else Some(n.(file := s.file + [line]))
    case Push(p) =>
      if p !in s.producers || !s.producers[p].SawRoom? then None
      else
        var n := s.(producers := s.producers[p := Elsewhere]);
        var line := s.producers[p].line;
        if |s.queue| < cap then Some(n.(queue := s.queue + [line], pushed := s.pushed + [line]))
        else Some(n.(lost := s.lost + [line]))
    case Drain =>
      if s.queue == [] then None
      else Some(s.(queue := s.queue[1..], file := s.file + [s.queue[0]], drained := s.drained + [s.queue[0]]))
  }

  function Exec(producers: set<nat>, steps: seq<Step>, cap: nat): Option<State>
    decreases |steps|
  {
    if steps == [] then Some(Initial(producers))
    else
      match Exec(producers, steps[..|steps| - 1], cap)
      case None => None
      case Some(s) => Next(s, steps[|steps| - 1], cap)
  }

  /** The line a producer is about to push. */
  function InHand(s: State, p: nat): seq<string> {
    if p in s.producers && s.producers[p].SawRoom? then [s.producers[p].line] else []
  }

  /** With one producer the room it has seen is still there, and every line it has come with is in
      the file, in the queue or in its hands. */
  predicate RoomKept(s: State, p: nat, cap: nat) {
    && s.producers.Keys <= {p} && s.lost == []
    && (InHand(s, p) != [] ==> |s.queue| < cap)
    && multiset(s.logged) == multiset(s.file) + multiset(s.queue) + multiset(InHand(s, p))
  }

  lemma {:induction false} CheckKeeps(s: State, p: nat, e: Step, cap: nat)
    requires RoomKept(s, p, cap) && e.Check? && Next(s, e, cap).Some?
    ensures RoomKept(Next(s, e, cap).value, p, cap)
  {
    assert multiset(s.logged + [e.line]) == multiset(s.logged) + multiset([e.line]);
    assert multiset(s.file + [e.line]) == multiset(s.file) + multiset([e.line]);
    assert e.p == p;
    assert InHand(s, p) == [];
    MultisetNil();
  }

  lemma MultisetNil()
    ensures var none: seq<string> := []; multiset(none) == multiset{}
  {
  }

  lemma {:induction false} PushKeeps(s: State, p: nat, e: Step, cap: nat)
    requires RoomKept(s, p, cap) && e.Push? && Next(s, e, cap).Some?
    ensures RoomKept(Next(s, e, cap).value, p, cap)
  {
    assert e.p == p;
    var line := s.producers[p].line;
    assert multiset(s.queue + [line]) == multiset(s.queue) + multiset([line]);
    MultisetNil();
  }

  lemma {:induction false} DrainKeeps(s: State, p: nat, e: Step, cap: nat)
    requires RoomKept(s, p, cap) && e.Drain? && Next(s, e, cap).Some?
    ensures RoomKept(Next(s, e, cap).value, p, cap)
  {
    assert s.queue == [s.queue[0]] + s.queue[1..];
    assert multiset(s.queue) == multiset([s.queue[0]]) + multiset(s.queue[1..]);
    assert multiset(s.file + [s.queue[0]]) == multiset(s.file) + multiset([s.queue[0]]);
  }

  /** In every interleaving of one producer with the thread that drains the queue no line is lost. */
  lemma {:induction false} OneProducerLosesNothing(p: nat, steps: seq<Step>, cap: nat)
    requires Exec({p}, steps, cap).Some?
    ensures RoomKept(Exec({p}, steps, cap).value, p, cap)
    decreases |steps|
  {
    hide Next;
    if steps != [] {
      OneProducerLosesNothing(p, steps[..|steps| - 1], cap);
      var s, e := Exec({p}, steps[..|steps| - 1], cap).value, steps[|steps| - 1];
      match e
      case Check(_, _) => CheckKeeps(s, p, e, cap);
      case Push(_) => PushKeeps(s, p, e, cap);
      case Drain => DrainKeeps(s, p, e, cap);
    } else {
      MultisetNil();
    }
  }

  /** A sequence with some of its elements left out */
  predicate Within(s: seq<string>, t: seq<string>)
    decreases |t|
  {
    s == [] || (t != [] &&
      if s[|s| - 1] == t[|t| - 1] then Within(s[..|s| - 1], t[..|t| - 1]) else Within(s, t[..|t| - 1]))
  }

  /** Lines leave the queue in the order in which they came, and reach the file in that order, with any
      number of producers and whatever is written directly in between. */
  lemma {:induction false} DrainedInOrder(producers: set<nat>, steps: seq<Step>, cap: nat)
    requires Exec(producers, steps, cap).Some?
    ensures var s := Exec(producers, steps, cap).value;
      s.drained + s.queue == s.pushed && |s.queue| <= cap && Within(s.drained, s.file)
    decreases |steps|
  {
    if steps != [] {
      DrainedInOrder(producers, steps[..|steps| - 1], cap);
      var s, e := Exec(producers, steps[..|steps| - 1], cap).value, steps[|steps| - 1];
      match e
      case Check(_, line) => WithinMore(s.drained, s.file, line);
      case Push(p) =>
        if p in s.producers && s.producers[p].SawRoom? {
          var line := s.producers[p].line;
          assert s.drained + (s.queue + [line]) == s.drained + s.queue + [line];
        }
      case Drain =>
        if s.queue != [] {
          assert s.drained + [s.queue[0]] + s.queue[1..] == s.drained + s.queue;
          WithinBoth(s.drained, s.file, s.queue[0]);
        }
    }
  }

  lemma {:induction false} WithinBoth(s: seq<string>, t: seq<string>, x: string)
    requires Within(s, t)
    ensures Within(s + [x], t + [x])
  {
    assert (s + [x])[..|s|] == s && (t + [x])[..|t|] == t;
  }

  lemma {:induction false} WithinMore(s: seq<string>, t: seq<string>, x: string)
    requires Within(s, t)
    ensures Within(s, t + [x])
    decreases |t|, 1
  {
    assert (t + [x])[..|t|] == t;
    if s != [] && s[|s| - 1] == x {
      WithinFront(s, t);
    }
  }

  lemma {:induction false} WithinFront(s: seq<string>, t: seq<string>)
    requires s != [] && Within(s, t)
    ensures Within(s[..|s| - 1], t)
    decreases |t|, 0
  {
    var a, b := s[..|s| - 1], t[..|t| - 1];
    if s[|s| - 1] == t[|t| - 1] {
      WithinMore(a, b, t[|t| - 1]);
    } else {
      WithinFront(s, b);
      WithinMore(a, b, t[|t| - 1]);
    }
    assert b + [t[|t| - 1]] == t;
  }

  lemma {:induction false} OneMoreStep(producers: set<nat>, steps: seq<Step>, e: Step, cap: nat)
    returns (more: seq<Step>)
    requires Exec(producers, steps, cap).Some? && Next(Exec(producers, steps, cap).value, e, cap).Some?
    ensures Exec(producers, more, cap) == Next(Exec(producers, steps, cap).value, e, cap)
  {
    hide Next;
    more := steps + [e];
    assert more[..|more| - 1] == steps;
  }

  predicate Resting(s: State, n: nat) {
    |s.queue| == n && s.lost == [] && forall p :: p in s.producers ==> s.producers[p].Elsewhere?
  }

  lemma {:induction false} Fill(producers: set<nat>, p: nat, cap: nat, n: nat) returns (steps: seq<Step>)
    requires p in producers && n < cap
    ensures var s := Exec(producers, steps, cap); s.Some? && s.value.producers.Keys == producers && Resting(s.value, n)
  {
    if n == 0 {
      steps := [];
    } else {
      steps := Fill(producers, p, cap, n - 1);
      steps := OneMoreStep(producers, steps, Check(p, "a"), cap);
      steps := OneMoreStep(producers, steps, Push(p), cap);
    }
  }

  /** Two producers that both see the last place lose a message. */
  lemma {:induction false} TwoProducersCanLose(producers: set<nat>, p: nat, q: nat, cap: nat) returns (steps: seq<Step>)
    requires {p, q} <= producers && p != q && cap > 0
    ensures var s := Exec(producers, steps, cap); s.Some? && s.value.lost != []
  {
    steps := Fill(producers, p, cap, cap - 1);
    steps := OneMoreStep(producers, steps, Check(p, "a"), cap);
    steps := OneMoreStep(producers, steps, Check(q, "b"), cap);
    steps := OneMoreStep(producers, steps, Push(p), cap);
    steps := OneMoreStep(producers, steps, Push(q), cap);
  }

  lemma {:induction false} NoProducer(steps: seq<Step>, cap: nat)
    requires Exec({}, steps, cap).Some?
    ensures var s := Exec({}, steps, cap).value; s.producers.Keys == {} && s.lost == []
    decreases |steps|
  {
    if steps != [] {
      NoProducer(steps[..|steps| - 1], cap);
    }
  }

  /** No interleaving loses a message exactly when there is at most one producer. */
  lemma {:induction false} LosslessIff(producers: set<nat>, cap: nat)
    requires cap > 0
    ensures (forall steps :: Exec(producers, steps, cap).Some? ==> Exec(producers, steps, cap).value.lost == [])
      <==> |producers| <= 1
  {
    hide Next;
    if producers == {} {
      forall steps | Exec(producers, steps, cap).Some? ensures Exec(producers, steps, cap).value.lost == [] {
        NoProducer(steps, cap);
      }
    } else {
      var p :| p in producers;
      var others := producers - {p};
      assert producers == {p} + others;
      if others == {} {
        assert producers == {p};
        forall steps | Exec(producers, steps, cap).Some? ensures Exec(producers, steps, cap).value.lost == [] {
          OneProducerLosesNothing(p, steps, cap);
        }
      } else {
        var q :| q in others;
        var steps := TwoProducersCanLose(producers, p, q, cap);
        assert |others| > 0;
      }
    }
  }
}
