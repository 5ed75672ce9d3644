/** The blocking queue of the logger: a ring with indices that start at -1, refined to a bounded
    first-in first-out queue. */
module BlockQueue {

  // ------------------------------------------------------------- the bounded queue

  /** What other threads do while a pop waits with the mutex released. */
  datatype Op<T> = DoPush(item: T) | DoPop | DoClear

  function Apply<T>(q: seq<T>, op: Op<T>, cap: nat): seq<T> {
    match op
    case DoPush(x) => if |q| >= cap then q else q + [x]
    case DoPop => if q == [] then q else q[1..]
    case DoClear => []
  }

  function ApplyAll<T>(q: seq<T>, ops: seq<Op<T>>, cap: nat): seq<T>
    decreases |ops|
  {
    if ops == [] then q else ApplyAll(Apply(q, ops[0], cap), ops[1..], cap)
  }

  /** One return of the condition variable: whether it reports success, and what happened meanwhile. */
  datatype Wake<T> = Wake(success: bool, ops: seq<Op<T>>)

  datatype PopResult<T> = Popped(item: T) | Refused | StillWaiting

  /** pop: an item at once if there is one.  A successful wait makes it give up, whatever arrived;
      a failed one makes it look again. */
  function PopSpec<T>(q: seq<T>, wakes: seq<Wake<T>>, cap: nat): (PopResult<T>, seq<T>)
    decreases |wakes|
  {
    if q != [] then (Popped(q[0]), q[1..])
    else if wakes == [] then (StillWaiting, q)
    else
      var after := ApplyAll(q, wakes[0].ops, cap);
      if wakes[0].success then (Refused, after) else PopSpec(after, wakes[1..], cap)
  }

  /** The pop with a timeout waits at most once, and takes what is there when the wait fails. */
  function TimedPopSpec<T>(q: seq<T>, wake: Wake<T>, cap: nat): (PopResult<T>, seq<T>) {
    var after := if q == [] then ApplyAll(q, wake.ops, cap) else q;
    if (q == [] && wake.success) || after == [] then (Refused, after) else (Popped(after[0]), after[1..])
  }

  /** The queue with its history since the last clear. */
  datatype History<T> = History(q: seq<T>, pushed: seq<T>, popped: seq<T>)

  function Record<T>(h: History<T>, op: Op<T>, cap: nat): History<T> {
    match op
    case DoPush(x) => if |h.q| >= cap then h else History(h.q + [x], h.pushed + [x], h.popped)
    case DoPop => if h.q == [] then h else History(h.q[1..], h.pushed, h.popped + [h.q[0]])
    case DoClear => History([], [], [])
  }

  function RecordAll<T>(ops: seq<Op<T>>, cap: nat): History<T>
    decreases |ops|
  {
    if ops == [] then History([], [], []) else Record(RecordAll(ops[..|ops| - 1], cap), ops[|ops| - 1], cap)
  }

  /** First in, first out, nothing lost: what was popped followed by what is queued is what was
      accepted since the last clear, in order. */
  lemma {:induction false} FirstInFirstOut<T>(ops: seq<Op<T>>, cap: nat)
    ensures var h := RecordAll(ops, cap); h.popped + h.q == h.pushed && |h.q| <= cap
    decreases |ops|
  {
    if ops != [] {
      FirstInFirstOut(ops[..|ops| - 1], cap);
      var h, op := RecordAll(ops[..|ops| - 1], cap), ops[|ops| - 1];
      if op.DoPush? {
        assert h.popped + (h.q + [op.item]) == h.popped + h.q + [op.item];
      } else if op.DoPop? && h.q != [] {
        assert h.popped + [h.q[0]] + h.q[1..] == h.popped + h.q;
      }
    }
  }

  /** The recorded queue is the one the operations leave. */
  lemma {:induction false} RecordIsApply<T>(ops: seq<Op<T>>, cap: nat)
    ensures RecordAll(ops, cap).q == ApplyAll([], ops, cap)
    decreases |ops|
  {
    if ops != [] {
      var front, op := ops[..|ops| - 1], ops[|ops| - 1];
      RecordIsApply(front, cap);
      ApplySnoc([], front, op, cap);
      assert front + [op] == ops;
    }
  }

  lemma {:induction false} ApplySnoc<T>(q: seq<T>, ops: seq<Op<T>>, op: Op<T>, cap: nat)
    ensures ApplyAll(q, ops + [op], cap) == Apply(ApplyAll(q, ops, cap), op, cap)
    decreases |ops|
  {
    if ops == [] {
      assert ops + [op] == [op];
    } else {
      assert (ops + [op])[1..] == ops[1..] + [op];
      ApplySnoc(Apply(q, ops[0], cap), ops[1..], op, cap);
    }
  }

  /** Everything the other threads do during some of the waits of a pop. */
  function OpsOf<T>(wakes: seq<Wake<T>>): seq<Op<T>> {
    if wakes == [] then [] else wakes[0].ops + OpsOf(wakes[1..])
  }

  lemma {:induction false} ApplyConcat<T>(q: seq<T>, a: seq<Op<T>>, b: seq<Op<T>>, cap: nat)
    ensures ApplyAll(q, a + b, cap) == ApplyAll(ApplyAll(q, a, cap), b, cap)
    decreases |a|
  {
    if a == [] {
      assert a + b == b;
    } else {
      assert (a + b)[1..] == a[1..] + b;
      ApplyConcat(Apply(q, a[0], cap), a[1..], b, cap);
    }
  }

  /** A pop takes effect at one moment, behind n of the waits: it takes the oldest item of the queue
      it finds there, or it leaves that queue as it is.  It gives up exactly when a wait succeeds,
      whether or not something has arrived, and it takes an item only if every wait failed. */
  lemma {:induction false} PopIsOneStep<T>(q: seq<T>, wakes: seq<Wake<T>>, cap: nat) returns (n: nat)
    ensures n <= |wakes|
    ensures var before := ApplyAll(q, OpsOf(wakes[..n]), cap); var (r, after) := PopSpec(q, wakes, cap);
      match r
      case Popped(x) =>
        && before != [] && x == before[0] && after == Apply(before, DoPop, cap)
        && forall i :: 0 <= i < n ==> !wakes[i].success
      case Refused => n > 0 && wakes[n - 1].success && q == [] && after == before
      case StillWaiting => n == |wakes| && after == before == []
    decreases |wakes|
  {
    if q != [] || wakes == [] {
      n := 0;
      assert wakes[..0] == [];
    } else {
      var after := ApplyAll(q, wakes[0].ops, cap);
      var m := 0;
      if !wakes[0].success {
        m := PopIsOneStep(after, wakes[1..], cap);
      }
      n := m + 1;
      assert wakes[..n][1..] == wakes[1..][..m];
      assert m == 0 ==> OpsOf(wakes[1..][..m]) == [];
      ApplyConcat(q, wakes[0].ops, OpsOf(wakes[1..][..m]), cap);
      assert forall i :: 0 < i < n ==> wakes[i] == wakes[1..][i - 1];
    }
  }

  /** The pop with a timeout takes effect at one moment too, behind at most one wait: it takes the
      oldest item it finds there, or leaves the queue alone.  It gives up exactly when it had to wait
      and the wait succeeded or left it without an item. */
  lemma {:induction false} TimedPopIsOneStep<T>(q: seq<T>, wake: Wake<T>, cap: nat)
    ensures var before := ApplyAll(q, if q == [] then wake.ops else [], cap);
      var (r, after) := TimedPopSpec(q, wake, cap);
      && (r.Popped? ==> before != [] && r.item == before[0] && after == Apply(before, DoPop, cap))
      && (r.Refused? ==> after == before)
      && !r.StillWaiting?
      && (r.Refused? <==> q == [] && (wake.success || before == []))
  {
  }

  // ------------------------------------------------------------------- the ring

  /** x % m for the values that occur: indices one past a slot. */
  lemma {:induction false} Wrap(x: int, m: int)
    requires 0 <= x <= m && 0 < m
    ensures x % m == if x == m then 0 else x
  {
    if x < m {
      assert x / m == 0;
    }
  }

  /** The slot of the i-th element behind index `front`. */
  function Slot(front: int, i: int, m: int): (s: int)
    requires -1 <= front < m && 0 <= i < m
    ensures 0 <= s < m
  {
    var x := front + 1 + i;
    if x < m then x else x - m
  }

  lemma {:induction false} SlotIsMod(front: int, i: int, m: int)
    requires -1 <= front < m && 0 <= i < m
    ensures Slot(front, i, m) == (front + 1 + i) % m
  {
    var x := front + 1 + i;
    if x < m {
      Wrap(x, m);
    } else {
      Wrap(x - m, m);
      assert x == (x - m) + m;
      ModPlus(x - m, m);
    }
  }

  lemma {:induction false} ModPlus(x: int, m: int)
    requires 0 <= x < m
    ensures (x + m) % m == x
  {
    assert (x + m) / m == 1 by {
      assert 1 * m <= x + m < 2 * m;
    }
  }

  class BlockQueue<T(0)> {
    const slots: array<T>
    const maxSize: int
    var size: int
    var front: int
    var back: int

    ghost predicate Valid()
      reads this
    {
      && 0 < maxSize == slots.Length && 0 <= size <= maxSize
      && -1 <= front < maxSize && -1 <= back < maxSize
      && (back == front + size || back == front + size - maxSize)
      && (size > 0 ==> 0 <= back)
    }

    /** The slots behind m_front, in order. */
    ghost function Contents(): (c: seq<T>)
      requires Valid()
      reads this, slots
      ensures |c| == size
    {
      seq(size, i requires 0 <= i < size && Valid() reads this, slots => slots[Slot(front, i, maxSize)])
    }

    /** The contents are the slots behind m_front, counted modulo the capacity. */
    lemma ContentsAt(i: nat)
      requires Valid() && i < size
      ensures Contents()[i] == slots[(front + 1 + i) % maxSize]
    {
      SlotIsMod(front, i, maxSize);
    }

    /** m_back and m_front + m_size are the same slot. */
    lemma Congruent()
      requires Valid()
      ensures (front + size - back) % maxSize == 0
    {
      if back != front + size {
        ModPlus(0, maxSize);
      }
    }

    constructor (capacity: int)
      requires capacity > 0
      ensures Valid() && Contents() == [] && maxSize == capacity && fresh(slots)
    {
      slots := new T[capacity];
      maxSize, size, front, back := capacity, 0, -1, -1;
    }

    method Clear()
      requires Valid()
      modifies this
      ensures Valid() && Contents() == []
    {
      size, front, back := 0, -1, -1;
    }

    method Full() returns (r: bool)
      requires Valid()
      ensures r <==> |Contents()| == maxSize
    {
      r := size >= maxSize;
    }

    method Empty() returns (r: bool)
      requires Valid()
      ensures r <==> Contents() == []
    {
      r := size <= 0;
    }

    method Size() returns (n: int)
      requires Valid()
      ensures n == |Contents()|
    {
      n := size;
    }

    /** back: the newest element. */
    method Back() returns (r: bool, value: T)
      requires Valid()
      ensures r <==> Contents() != []
      ensures r ==> value == Contents()[|Contents()| - 1]
    {
      if size == 0 {
        value := slots[0];
        return false, value;
      }
      value := slots[back];
      return true, value;
    }

    method Push(item: T) returns (r: bool)
      requires Valid()
      modifies this, slots
      ensures Valid()
      ensures r <==> |old(Contents())| < maxSize
      ensures Contents() == Apply(old(Contents()), DoPush(item), maxSize)
    {
      if size >= maxSize {
        return false;
      }
      Wrap(back + 1, maxSize);
      ghost var before := Contents();
      back := (back + 1) % maxSize;
      slots[back] := item;
      size := size + 1;
      assert back == Slot(front, size - 1, maxSize);
      assert forall i :: 0 <= i < size - 1 ==> Slot(front, i, maxSize) != back;
      assert Contents() == before + [item];
      return true;
    }

    /** The last three statements of both pops */
    method Take() returns (item: T)
      requires Valid() && Contents() != []
      modifies `size, `front
      ensures Valid() && item == old(Contents())[0] && Contents() == old(Contents())[1..]
    {
      Wrap(front + 1, maxSize);
      ghost var before := Contents();
      front := (front + 1) % maxSize;
      item := slots[front];
      size := size - 1;
      assert forall i :: 0 <= i < size ==> Contents()[i] == before[i + 1];
    }

    /** The other threads, while the mutex is released. */
    method Others(ops: seq<Op<T>>)
      requires Valid()
      modifies this, slots
      ensures Valid() && Contents() == ApplyAll(old(Contents()), ops, maxSize)
    {
      var rest := ops;
      while rest != []
        invariant Valid() && ApplyAll(Contents(), rest, maxSize) == ApplyAll(old(Contents()), ops, maxSize)
        decreases |rest|
      {
        match rest[0] {
          case DoPush(x) =>
            var _ := Push(x);
          case DoPop =>
            if size > 0 {
              var _ := Take();
            }
          case DoClear =>
            Clear();
        }
        rest := rest[1..];
      }
    }

    method Pop(wakes: seq<Wake<T>>) returns (r: PopResult<T>)
      requires Valid()
      modifies this, slots
      ensures Valid() && (r, Contents()) == PopSpec(old(Contents()), wakes, maxSize)
    {
      var rest := wakes;
      while size <= 0
        invariant Valid() && PopSpec(Contents(), rest, maxSize) == PopSpec(old(Contents()), wakes, maxSize)
        decreases |rest|
      {
        if rest == [] {
          return StillWaiting;
        }
        Others(rest[0].ops);
        if rest[0].success {
          return Refused;
        }
        rest := rest[1..];
      }
      var item := Take();
      return Popped(item);
    }

    method PopTimed(wake: Wake<T>) returns (r: PopResult<T>)
      requires Valid()
      modifies this, slots
      ensures Valid() && (r, Contents()) == TimedPopSpec(old(Contents()), wake, maxSize)
    {
      if size <= 0 {
        Others(wake.ops);
        if wake.success {
          return Refused;
        }
      }
      if size <= 0 {
        return Refused;
      }
      var item := Take();
      return Popped(item);
    }
  }
}
