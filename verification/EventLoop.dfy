/** The main loop: open descriptors, timers and the user count, over whole runs of events. */
module EventLoop {
  import opened Common
  import opened TimerList

  const MAX_FD := 65535
  const TIMESLOT := 5
  const IDLE_LIMIT := 3 * TIMESLOT

  /** A node of the timer list: the timer, the descriptor of its user data and its expiry. */
  datatype Entry<T> = Entry(id: T, fd: int, expire: int)

  /** `timerOf` is users_timer; `workerClosed` counts the connections closed by workers, which
      leave their timer behind. */
  datatype State<T> = State(open: set<int>, timerOf: map<int, T>, list: seq<Entry<T>>, count: int,
                            clock: int, workerClosed: nat)

  /** `Gone` is a hang-up, a failed read or a failed write; `Active` a read or a write that succeeds. */
  datatype Event<T> =
    | Accept(fd: int, now: int, id: T)
    | Gone(fd: int)
    | Active(fd: int, now: int)
    | Tick(now: int)
    | WorkerClose(fd: int)

  function Initial<T>(): State<T> {
    State({}, map[], [], 0, 0, 0)
  }

  function Expiries<T>(list: seq<Entry<T>>): (k: seq<int>)
    ensures |k| == |list| && forall i :: 0 <= i < |k| ==> k[i] == list[i].expire
  {
    seq(|list|, i requires 0 <= i < |list| => list[i].expire)
  }

  function Fds<T>(list: seq<Entry<T>>): (k: seq<int>)
    ensures |k| == |list| && forall i :: 0 <= i < |k| ==> k[i] == list[i].fd
  {
    seq(|list|, i requires 0 <= i < |list| => list[i].fd)
  }

  function Put<T>(list: seq<Entry<T>>, e: Entry<T>): seq<Entry<T>> {
    Insert(list, Place(Expiries(list), e.expire), e)
  }

  /** The place of a timer in the list; the length of the list when it is not there. */
  function Find<T(==)>(list: seq<Entry<T>>, id: T): (k: nat)
    ensures k <= |list|
    ensures k < |list| ==> list[k].id == id
    ensures forall i :: 0 <= i < k ==> list[i].id != id
  {
    if list == [] || list[0].id == id then 0 else 1 + Find(list[1..], id)
  }

  predicate HasTimer<T(==)>(s: State<T>, fd: int) {
    fd in s.timerOf && Find(s.list, s.timerOf[fd]) < |s.list|
      && s.list[Find(s.list, s.timerOf[fd])].fd == fd
  }

  /** What the kernel and the clock allow: new descriptors are not open, events arrive for
      descriptors with a timer, time does not run backwards.  A new timer is not one of the list.  A
      worker may close any connection, also one that has been closed before: cb_func leaves m_sockfd. */
  predicate Enabled<T(==)>(s: State<T>, e: Event<T>) {
    match e
    case Accept(fd, now, id) => 0 <= fd < MAX_FD && fd !in s.open && s.clock <= now && Find(s.list, id) == |s.list|
    case Gone(fd) => HasTimer(s, fd)
    case Active(fd, now) => HasTimer(s, fd) && s.clock <= now
    case Tick(now) => s.clock <= now
    case WorkerClose(_) => true
  }

  /** The timers tick calls back at time `now`. */
  function Fired<T>(s: State<T>, now: int): seq<Entry<T>> {
    s.list[..Place(Expiries(s.list), now)]
  }

  function Step<T(==)>(s: State<T>, e: Event<T>): State<T>
    requires Inv(s) && Enabled(s, e)
  {
    match e
    case Accept(fd, now, id) =>
      if s.count >= MAX_FD then s.(clock := now)
      else s.(open := s.open + {fd}, timerOf := s.timerOf[fd := id],
              list := Put(s.list, Entry(id, fd, now + IDLE_LIMIT)), count := s.count + 1, clock := now)
    case Gone(fd) =>
      s.(open := s.open - {fd}, list := Remove(s.list, Find(s.list, s.timerOf[fd])), count := s.count - 1)
    case Active(fd, now) =>
      var k := Find(s.list, s.timerOf[fd]);
      s.(list := Put(Remove(s.list, k), s.list[k].(expire := now + IDLE_LIMIT)), clock := now)
    case Tick(now) =>
      var n := Place(Expiries(s.list), now);
      s.(open := s.open - SetOf(Fds(Fired(s, now))), list := s.list[n..], count := s.count - n, clock := now)
    case WorkerClose(fd) =>
      s.(open := s.open - {fd}, count := s.count - 1, workerClosed := s.workerClosed + 1)
  }

  // ------------------------------------------------------------- every run

  predicate DistinctIds<T(==)>(list: seq<Entry<T>>) {
    forall i, j :: 0 <= i < j < |list| ==> list[i].id != list[j].id
  }

  /** Every open descriptor has its timer in the list, the list is sorted, and the count differs
      from its length by the closes of workers. */
  predicate Inv<T(==)>(s: State<T>) {
    && (forall fd :: fd in s.open ==> HasTimer(s, fd))
    && DistinctIds(s.list)
    && Sorted(Expiries(s.list))
    && s.count + s.workerClosed == |s.list|
  }

  /** The timer of an open descriptor, known to users_timer. */
  predicate Current<T(==)>(s: State<T>, x: Entry<T>) {
    x.fd in s.open && x.fd in s.timerOf && s.timerOf[x.fd] == x.id
  }

  /** Open descriptors, list nodes and users_timer entries are in bijection. */
  predicate Bijective<T(==)>(s: State<T>) {
    && Inv(s)
    && forall k :: 0 <= k < |s.list| ==> Current(s, s.list[k])
  }

  lemma {:induction false} FindIs<T>(list: seq<Entry<T>>, id: T, k: nat)
    requires DistinctIds(list) && k < |list| && list[k].id == id
    ensures Find(list, id) == k
  {
  }

  lemma {:induction false} PutShape<T>(list: seq<Entry<T>>, e: Entry<T>) returns (p: nat)
    ensures p <= |list| && |Put(list, e)| == |list| + 1
    ensures forall j {:trigger Put(list, e)[j]} :: 0 <= j <= |list| ==>
      Put(list, e)[j] == if j < p then list[j] else if j == p then e else list[j - 1]
    ensures Sorted(Expiries(list)) ==> Sorted(Expiries(Put(list, e)))
  {
    p := Place(Expiries(list), e.expire);
    if Sorted(Expiries(list)) {
      InsertSorted(Expiries(list), e.expire);
      assert Expiries(Put(list, e)) == Insert(Expiries(list), p, e.expire);
    }
  }

  /** Putting an entry keeps every other one findable, with its data. */
  lemma {:induction false} FindInPut<T>(list: seq<Entry<T>>, e: Entry<T>, id: T)
    requires DistinctIds(list) && Find(list, e.id) == |list|
    ensures DistinctIds(Put(list, e))
    ensures var k := Find(Put(list, e), id);
      if id == e.id then k <= |list| && Put(list, e)[k] == e
      else if Find(list, id) < |list| then k <= |list| && Put(list, e)[k] == list[Find(list, id)]
      else k == |list| + 1
  {
    var p := PutShape(list, e);
    hide Put, Find;
    var now := Put(list, e);
    var k := Find(list, id);
    if id == e.id {
      assert now[p] == e;
      FindIs(now, id, p);
    } else if k < |list| {
      assert now[if k < p then k else k + 1] == list[k];
      FindIs(now, id, if k < p then k else k + 1);
    } else {
      NotFound(now, id);
    }
  }

  lemma {:induction false} NotFound<T>(list: seq<Entry<T>>, id: T)
    requires forall j :: 0 <= j < |list| ==> list[j].id != id
    ensures Find(list, id) == |list|
  {
  }

  lemma {:induction false} FindInRemove<T>(list: seq<Entry<T>>, n: nat, id: T)
    requires DistinctIds(list) && n < |list|
    ensures DistinctIds(Remove(list, n))
    ensures var k := Find(Remove(list, n), id);
      if Find(list, id) < |list| && Find(list, id) != n
      then k < |list| - 1 && Remove(list, n)[k] == list[Find(list, id)]
      else k == |list| - 1
  {
    var now := Remove(list, n);
    assert forall j {:trigger now[j]} :: 0 <= j < |now| ==> now[j] == if j < n then list[j] else list[j + 1];
    var k := Find(list, id);
    if k < |list| && k != n {
      FindIs(now, id, if k < n then k else k - 1);
    } else {
      forall j | 0 <= j < |now| ensures now[j].id != id {
        if j >= n && k == n {
          assert list[j + 1].id != list[n].id;
        }
      }
      NotFound(now, id);
    }
  }

  lemma {:induction false} FindInDrop<T>(list: seq<Entry<T>>, n: nat, id: T)
    requires DistinctIds(list) && n <= |list|
    ensures DistinctIds(list[n..])
    ensures n <= Find(list, id) < |list| ==>
      var k := Find(list[n..], id); k < |list| - n && list[n..][k] == list[Find(list, id)]
  {
    var k := Find(list, id);
    if n <= k < |list| {
      assert list[n..][k - n] == list[k];
      FindIs(list[n..], id, k - n);
    }
  }

  // --------------------------------------------------------- one step at a time

  lemma {:induction false} AcceptKeeps<T>(s: State<T>, e: Event<T>)
    requires Inv(s) && e.Accept? && Enabled(s, e)
    ensures Inv(Step(s, e)) && (Bijective(s) ==> Bijective(Step(s, e)))
  {
    hide Find, Sorted, Put;
    var n := Step(s, e);
    if s.count < MAX_FD {
      var x := Entry(e.id, e.fd, e.now + IDLE_LIMIT);
      var p := PutShape(s.list, x);
      FindInPut(s.list, x, e.id);
      forall fd | fd in n.open ensures HasTimer(n, fd) {
        if fd != e.fd {
          assert HasTimer(s, fd);
          FindInPut(s.list, x, s.timerOf[fd]);
        }
      }
    }
  }

  lemma {:induction false} GoneKeeps<T>(s: State<T>, e: Event<T>)
    requires Inv(s) && e.Gone? && Enabled(s, e)
    ensures HasTimer(s, e.fd) && Inv(Step(s, e))
  {
    assert HasTimer(s, e.fd);
    hide Find, Remove, Sorted;
    var k := Find(s.list, s.timerOf[e.fd]);
    var n := Step(s, e);
    RemoveSorted(s.list, k);
    FindInRemove(s.list, k, s.timerOf[e.fd]);
    forall fd | fd in n.open ensures HasTimer(n, fd) {
      assert HasTimer(s, fd);
      FindInRemove(s.list, k, s.timerOf[fd]);
    }
  }

  lemma {:induction false} RemoveSorted<T>(list: seq<Entry<T>>, k: nat)
    requires Sorted(Expiries(list)) && k < |list|
    ensures Sorted(Expiries(Remove(list, k)))
  {
    RemoveKeepsOrder(Expiries(list), k);
    assert Expiries(Remove(list, k)) == Remove(Expiries(list), k);
  }

  /** In a bijective state two timers are not for one descriptor. */
  lemma {:induction false} OneTimer<T>(s: State<T>, i: nat, j: nat)
    requires Bijective(s) && i < |s.list| && j < |s.list| && s.list[i].fd == s.list[j].fd
    ensures i == j
  {
    assert Current(s, s.list[i]) && Current(s, s.list[j]);
  }

  /** The entry of a list without its k-th one, in the list. */
  function Old(k: nat, j: nat): nat {
    if j < k then j else j + 1
  }

  lemma {:induction false} GoneBijective<T>(s: State<T>, e: Event<T>)
    requires Bijective(s) && e.Gone? && Enabled(s, e)
    ensures HasTimer(s, e.fd) && Inv(Step(s, e)) && Bijective(Step(s, e))
  {
    hide Find, Remove, Sorted, Inv;
    GoneKeeps(s, e) by {
      assert Inv(s);
    }
    var k := Find(s.list, s.timerOf[e.fd]);
    var n := Step(s, e);
    forall j | 0 <= j < |n.list|
      ensures Current(n, n.list[j])
    {
      assert n.list[j] == s.list[Old(k, j)];
      if s.list[Old(k, j)].fd == e.fd {
        OneTimer(s, Old(k, j), k);
      }
    }
  }

  /** Moving the k-th timer to its new place keeps every timer findable. */
  lemma {:induction false} FindInMove<T>(list: seq<Entry<T>>, k: nat, x: Entry<T>, id: T)
    requires DistinctIds(list) && k < |list| && x.id == list[k].id && Find(list, id) < |list|
    ensures var now := Put(Remove(list, k), x);
      && DistinctIds(now) && |now| == |list|
      && Find(now, id) < |list|
      && now[Find(now, id)] == if id == x.id then x else list[Find(list, id)]
  {
    hide Find, Remove, Put;
    var rest := Remove(list, k);
    FindIs(list, x.id, k);
    FindInRemove(list, k, x.id);
    FindInRemove(list, k, id);
    var p := PutShape(rest, x);
    FindInPut(rest, x, id);
  }

  lemma {:induction false} MoveKeeps<T>(list: seq<Entry<T>>, k: nat, x: Entry<T>)
    requires DistinctIds(list) && Sorted(Expiries(list)) && k < |list| && x.id == list[k].id
    ensures var now := Put(Remove(list, k), x); DistinctIds(now) && Sorted(Expiries(now)) && |now| == |list|
  {
    hide Find, Remove, Put, Sorted;
    FindIs(list, x.id, k);
    FindInMove(list, k, x, x.id);
    RemoveSorted(list, k);
    var p := PutShape(Remove(list, k), x);
  }

  lemma {:induction false} ActiveHasTimer<T>(s: State<T>, e: Event<T>, fd: int)
    requires Inv(s) && e.Active? && Enabled(s, e) && (fd in s.open || fd == e.fd)
    ensures HasTimer(s, e.fd) && HasTimer(s, fd) && HasTimer(Step(s, e), fd)
  {
    hide Find, Remove, Put, Sorted, DistinctIds;
    assert HasTimer(s, e.fd) && HasTimer(s, fd);
    var k := Find(s.list, s.timerOf[e.fd]);
    var x := s.list[k].(expire := e.now + IDLE_LIMIT);
    FindInMove(s.list, k, x, s.timerOf[fd]);
  }

  lemma {:induction false} ActiveKeeps<T>(s: State<T>, e: Event<T>)
    requires Inv(s) && e.Active? && Enabled(s, e)
    ensures HasTimer(s, e.fd) && Inv(Step(s, e))
  {
    hide Find, Remove, Sorted, Put, DistinctIds, HasTimer;
    var n := Step(s, e);
    ActiveHasTimer(s, e, e.fd);
    forall fd | fd in n.open ensures HasTimer(n, fd) {
      ActiveHasTimer(s, e, fd);
    }
    TimerPlace(s, e.fd);
    var k := Find(s.list, s.timerOf[e.fd]);
    MoveKeeps(s.list, k, s.list[k].(expire := e.now + IDLE_LIMIT));
  }

  lemma TimerPlace<T>(s: State<T>, fd: int)
    requires HasTimer(s, fd)
    ensures fd in s.timerOf
    ensures var k := Find(s.list, s.timerOf[fd]); k < |s.list| && s.list[k].id == s.timerOf[fd] && s.list[k].fd == fd
  {
  }

  lemma {:induction false} ActiveBijective<T>(s: State<T>, e: Event<T>)
    requires Bijective(s) && e.Active? && Enabled(s, e)
    ensures HasTimer(s, e.fd) && Inv(Step(s, e)) && Bijective(Step(s, e))
  {
    hide Find, Remove, Put, Sorted, Inv;
    ActiveKeeps(s, e) by {
      assert Inv(s);
    }
    var k := Find(s.list, s.timerOf[e.fd]);
    var rest := Remove(s.list, k);
    var x := s.list[k].(expire := e.now + IDLE_LIMIT);
    var n := Step(s, e);
    var p := PutShape(rest, x);
    forall j | 0 <= j < |n.list|
      ensures Current(n, n.list[j])
    {
      if j != p {
        var i := if j < p then j else j - 1;
        assert n.list[j] == rest[i] == s.list[Old(k, i)];
      } else {
        assert n.list[j] == x && Current(s, s.list[k]);
      }
    }
  }

  lemma {:induction false} FiredFds<T>(s: State<T>, now: int, i: nat)
    requires i < Place(Expiries(s.list), now)
    ensures s.list[i].fd in Fds(Fired(s, now))
  {
    assert Fds(Fired(s, now))[i] == s.list[i].fd;
  }

  lemma {:induction false} TickKeeps<T>(s: State<T>, e: Event<T>)
    requires Inv(s) && e.Tick? && Enabled(s, e)
    ensures Inv(Step(s, e))
  {
    hide Find, Fds, Fired, Sorted;
    var m := Place(Expiries(s.list), e.now);
    var n := Step(s, e);
    DropSorted(s.list, m);
    forall fd | fd in n.open ensures HasTimer(n, fd) {
      assert HasTimer(s, fd);
      var k := Find(s.list, s.timerOf[fd]);
      if k < m {
        FiredFds(s, e.now, k);
      }
      FindInDrop(s.list, m, s.timerOf[fd]);
    }
    DropDistinct(s.list, m);
  }

  lemma DropDistinct<T>(list: seq<Entry<T>>, m: nat)
    requires DistinctIds(list) && m <= |list|
    ensures DistinctIds(list[m..])
  {
  }

  lemma {:induction false} DropSorted<T>(list: seq<Entry<T>>, m: nat)
    requires Sorted(Expiries(list)) && m <= |list|
    ensures Sorted(Expiries(list[m..]))
  {
    assert Expiries(list[m..]) == Expiries(list)[m..];
  }

  lemma {:induction false} TickBijective<T>(s: State<T>, e: Event<T>)
    requires Bijective(s) && e.Tick? && Enabled(s, e)
    ensures Inv(Step(s, e)) && Bijective(Step(s, e))
  {
    hide Find, Sorted, Inv;
    TickKeeps(s, e) by {
      assert Inv(s);
    }
    var m := Place(Expiries(s.list), e.now);
    var n := Step(s, e);
    forall j | 0 <= j < |n.list|
      ensures Current(n, n.list[j])
    {
      assert n.list[j] == s.list[m + j] && Current(s, s.list[m + j]);
      forall i | 0 <= i < m ensures Fds(Fired(s, e.now))[i] != s.list[m + j].fd {
        if s.list[i].fd == s.list[m + j].fd {
          OneTimer(s, i, m + j);
        }
      }
    }
  }

  lemma {:induction false} StepKeeps<T>(s: State<T>, e: Event<T>)
    requires Inv(s) && Enabled(s, e)
    ensures Inv(Step(s, e))
    ensures Step(s, e).workerClosed == s.workerClosed + if e.WorkerClose? then 1 else 0
    ensures Bijective(s) && !e.WorkerClose? ==> Bijective(Step(s, e))
  {
    hide Find, Put, Remove, Sorted, HasTimer;
    match e
    case Accept(_, _, _) =>
      AcceptKeeps(s, e);
    case Gone(_) =>
      GoneKeeps(s, e);
      if Bijective(s) {
        GoneBijective(s, e);
      }
    case Active(_, _) =>
      ActiveKeeps(s, e);
      if Bijective(s) {
        ActiveBijective(s, e);
      }
    case Tick(_) =>
      TickKeeps(s, e);
      if Bijective(s) {
        TickBijective(s, e);
      }
    case WorkerClose(_) =>
      WorkerCloseKeeps(s, e);
  }

  lemma {:induction false} WorkerCloseKeeps<T>(s: State<T>, e: Event<T>)
    requires Inv(s) && Enabled(s, e) && e.WorkerClose?
    ensures Inv(Step(s, e))
  {
    hide Find, Sorted;
    var n := Step(s, e);
    forall fd | fd in n.open ensures HasTimer(n, fd) {
      assert HasTimer(s, fd);
    }
  }

  // ----------------------------------------------------------------- whole runs

  function Front<T>(ev: seq<Event<T>>): seq<Event<T>>
    requires ev != []
  {
    ev[..|ev| - 1]
  }

  function Last<T>(ev: seq<Event<T>>): Event<T>
    requires ev != []
  {
    ev[|ev| - 1]
  }

  /** A sequence of events that the kernel and the clock allow, from the start of the server. */
  predicate Possible<T(==)>(ev: seq<Event<T>>)
    decreases |ev|, 0
  {
    ev != [] ==> Possible(Front(ev)) && Enabled(Run(Front(ev)), Last(ev))
  }

  function Run<T(==)>(ev: seq<Event<T>>): (s: State<T>)
    requires Possible(ev)
    ensures Inv(s)
    decreases |ev|, 1
  {
    if ev == [] then Initial()
    else
      StepKeeps(Run(Front(ev)), Last(ev));
      Step(Run(Front(ev)), Last(ev))
  }

  function WorkerCloses<T>(ev: seq<Event<T>>): nat
    decreases |ev|
  {
    if ev == [] then 0 else WorkerCloses(Front(ev)) + if Last(ev).WorkerClose? then 1 else 0
  }

  lemma {:induction false} RunCounts<T>(ev: seq<Event<T>>)
    requires Possible(ev)
    ensures Run(ev).workerClosed == WorkerCloses(ev)
    ensures WorkerCloses(ev) == 0 ==> Bijective(Run(ev))
    decreases |ev|
  {
    hide Inv, Step, Enabled;
    if ev == [] {
      InitialBijective<T>();
    } else {
      RunCounts(Front(ev));
      StepKeeps(Run(Front(ev)), Last(ev));
    }
  }

  lemma InitialBijective<T>()
    ensures Bijective(Initial<T>())
  {
  }

  lemma {:induction false} SetOfDistinct(s: seq<int>)
    requires Distinct(s)
    ensures |SetOf(s)| == |s|
  {
    if s == [] {
      assert SetOf(s) == {};
    } else {
      SetOfDistinct(s[1..]);
      assert SetOf(s) == {s[0]} + SetOf(s[1..]);
      assert s[0] !in s[1..] by {
        forall j | 1 <= j < |s| ensures s[j] != s[0] {
        }
      }
    }
  }

  lemma {:induction false} BijectionCounts<T>(s: State<T>)
    requires Bijective(s)
    ensures |s.open| == |s.list|
    ensures Distinct(Fds(s.list)) && s.open == SetOf(Fds(s.list))
  {
    hide Find, Sorted;
    var fds := Fds(s.list);
    forall i, j | 0 <= i < j < |fds| ensures fds[i] != fds[j] {
      if fds[i] == fds[j] {
        OneTimer(s, i, j);
      }
    }
    forall fd | fd in s.open ensures fd in fds {
      assert HasTimer(s, fd);
      assert fds[Find(s.list, s.timerOf[fd])] == fd;
    }
    forall fd | fd in fds ensures fd in s.open {
      var k :| 0 <= k < |fds| && fds[k] == fd;
      assert Current(s, s.list[k]);
    }
    SetOfDistinct(fds);
    assert s.open == SetOf(fds);
  }

  /** In every run the user count is the length of the timer list less the connections that
      workers closed; it is the length of the list exactly when no worker closed one, and then
      open descriptors, list nodes and users_timer entries are in bijection. */
  lemma {:induction false} Accounting<T>(ev: seq<Event<T>>)
    requires Possible(ev)
    ensures var s := Run(ev);
      && s.count == |s.list| - WorkerCloses(ev)
      && (s.count == |s.list| <==> WorkerCloses(ev) == 0)
      && (WorkerCloses(ev) == 0 ==>
            Bijective(s) && |s.open| == |s.list| == s.count && s.open == SetOf(Fds(s.list)))
  {
    hide Run, WorkerCloses, HasTimer, Sorted, DistinctIds, Possible, Current, Fds;
    RunCounts(ev);
    if WorkerCloses(ev) == 0 {
      BijectionCounts(Run(ev));
    }
  }

  /** The user count never exceeds the limit. */
  lemma {:induction false} CountBounded<T>(ev: seq<Event<T>>)
    requires Possible(ev)
    ensures Run(ev).count <= MAX_FD
    decreases |ev|
  {
    hide Inv, Enabled, Find, Put, Remove;
    if ev != [] {
      CountBounded(Front(ev));
      assert Run(ev) == Step(Run(Front(ev)), Last(ev));
    }
  }

  // -------------------------------------------------------------- idle timeouts

  /** The time of the last accept, read or write of a descriptor. */
  function LastActive<T>(ev: seq<Event<T>>, fd: int): int
    decreases |ev|
  {
    if ev == [] then 0
    else
      match Last(ev)
      case Accept(f, now, _) => if f == fd then now else LastActive(Front(ev), fd)
      case Active(f, now) => if f == fd then now else LastActive(Front(ev), fd)
      case _ => LastActive(Front(ev), fd)
  }

  function TimerOf<T(==)>(s: State<T>, fd: int): Entry<T>
    requires HasTimer(s, fd)
  {
    s.list[Find(s.list, s.timerOf[fd])]
  }

  /** How one event moves the timer of a descriptor that stays open. */
  lemma {:induction false} StepTimer<T>(s: State<T>, e: Event<T>, fd: int)
    requires Inv(s) && Enabled(s, e) && Inv(Step(s, e)) && fd in Step(s, e).open
    ensures HasTimer(Step(s, e), fd)
    ensures fd !in s.open ==> e.Accept? && e.fd == fd && TimerOf(Step(s, e), fd).expire == e.now + IDLE_LIMIT
    ensures fd in s.open ==>
      && HasTimer(s, fd) && !(e.Accept? && e.fd == fd)
      && TimerOf(Step(s, e), fd).expire
         == if e.Active? && e.fd == fd then e.now + IDLE_LIMIT else TimerOf(s, fd).expire
  {
    hide Find, Put, Remove, Sorted;
    assert HasTimer(Step(s, e), fd);
    if fd in s.open {
      assert HasTimer(s, fd);
      StepTimerOld(s, e, fd);
    } else {
      var x := Entry(e.id, e.fd, e.now + IDLE_LIMIT);
      FindInPut(s.list, x, e.id);
    }
  }

  lemma {:induction false} StepTimerOld<T>(s: State<T>, e: Event<T>, fd: int)
    requires Inv(s) && Enabled(s, e) && fd in s.open && fd in Step(s, e).open
    requires HasTimer(s, fd) && HasTimer(Step(s, e), fd)
    ensures TimerOf(Step(s, e), fd).expire
         == if e.Active? && e.fd == fd then e.now + IDLE_LIMIT else TimerOf(s, fd).expire
  {
    hide Find, Put, Remove, Sorted, Fired;
    var id := s.timerOf[fd];
    match e
    case Accept(f, now, i) =>
      FindInPut(s.list, Entry(i, f, now + IDLE_LIMIT), id);
    case Gone(f) =>
      assert HasTimer(s, f);
      FindInRemove(s.list, Find(s.list, s.timerOf[f]), id);
    case Active(f, now) =>
      assert HasTimer(s, f);
      var k := Find(s.list, s.timerOf[f]);
      FindInMove(s.list, k, s.list[k].(expire := now + IDLE_LIMIT), id);
    case Tick(now) =>
      var m := Place(Expiries(s.list), now);
      if Find(s.list, id) < m {
        FiredFds(s, now, Find(s.list, id));
      }
      FindInDrop(s.list, m, id);
    case WorkerClose(_) =>
  }

  /** The expiry of an open connection is its last activity plus the idle limit. */
  lemma {:induction false} ExpiryIsActivity<T>(ev: seq<Event<T>>, fd: int)
    requires Possible(ev) && fd in Run(ev).open
    ensures HasTimer(Run(ev), fd) && TimerOf(Run(ev), fd).expire == LastActive(ev, fd) + IDLE_LIMIT
    decreases |ev|
  {
    hide Find, Step, Enabled, Sorted, DistinctIds;
    if ev != [] {
      var s, e := Run(Front(ev)), Last(ev);
      assert Inv(Run(ev));
      StepTimer(s, e, fd);
      if fd in s.open {
        ExpiryIsActivity(Front(ev), fd);
      }
    }
  }

  /** A tick at time t calls back the timers in front, ascending: exactly the nodes of the list
      whose expiry is not later than t. */
  lemma {:induction false} TickFires<T>(s: State<T>, t: int)
    requires Inv(s)
    ensures var f := Fired(s, t); var n := |f|;
      && n <= |s.list| && f == s.list[..n]
      && Sorted(Expiries(f)) && DistinctIds(f)
      && (forall i {:trigger s.list[i]} :: 0 <= i < |s.list| ==> (i < n <==> s.list[i].expire <= t))
  {
    var m := Place(Expiries(s.list), t);
    InsertSorted(Expiries(s.list), t);
    assert forall i :: 0 <= i < |s.list| ==> Expiries(s.list)[i] == s.list[i].expire;
    assert Expiries(Fired(s, t)) == Expiries(s.list)[..m];
  }

  /** A timer that a worker's close left behind, for a descriptor that has been given out again. */
  predicate StaleTimer<T(==)>(s: State<T>, fd: int, t: int)
    requires fd in s.timerOf
  {
    exists k :: 0 <= k < |s.list| && s.list[k].fd == fd && s.list[k].id != s.timerOf[fd] && s.list[k].expire <= t
  }

  /** What a tick closes: the descriptors of the timers it calls back, their own or a stale one. */
  lemma {:induction false} TickCloses<T>(s: State<T>, t: int, fd: int)
    requires Inv(s) && fd in s.open
    ensures HasTimer(s, fd)
    ensures fd in Fds(Fired(s, t)) <==> TimerOf(s, fd).expire <= t || StaleTimer(s, fd, t)
  {
    hide Find, Sorted, Place;
    assert HasTimer(s, fd);
    TickFires(s, t);
    var f := Fired(s, t);
    var own := Find(s.list, s.timerOf[fd]);
    if fd in Fds(f) {
      var i :| 0 <= i < |f| && Fds(f)[i] == fd;
      assert f[i] == s.list[i];
      if s.list[i].id == s.timerOf[fd] {
        FindIs(s.list, s.timerOf[fd], i);
      }
    } else {
      forall k | 0 <= k < |s.list| && s.list[k].expire <= t ensures s.list[k].fd != fd {
        assert Fds(f)[k] == s.list[k].fd;
      }
      assert s.list[own].fd == fd;
    }
  }

  /** The idle guarantee over whole runs: a tick at time t closes an open connection if and only if
      it was last accepted, read or written not later than t - 3 * TIMESLOT, or a stale timer for
      its descriptor has expired; so every connection that stays open was active since. */
  lemma {:induction false} IdleGuarantee<T>(ev: seq<Event<T>>, t: int)
    requires Possible(ev) && Run(ev).clock <= t
    ensures Possible(ev + [Tick(t)])
    ensures var (s, n) := (Run(ev), Run(ev + [Tick(t)]));
      && n.open <= s.open
      && forall fd :: fd in s.open ==>
           && fd in s.timerOf
           && (fd !in n.open <==> LastActive(ev, fd) <= t - IDLE_LIMIT || StaleTimer(s, fd, t))
  {
    hide Find, Sorted, DistinctIds, LastActive, Place, StaleTimer, Fired, Fds;
    var s := Run(ev);
    var all := ev + [Tick(t)];
    assert Front(all) == ev && Last(all) == Tick(t);
    assert Possible(all);
    var n := Run(all);
    assert n.open == s.open - SetOf(Fds(Fired(s, t)));
    forall fd | fd in s.open
      ensures fd in s.timerOf && (fd !in n.open <==> LastActive(ev, fd) <= t - IDLE_LIMIT || StaleTimer(s, fd, t))
    {
      ExpiryIsActivity(ev, fd);
      TickCloses(s, t, fd);
    }
  }

  /** Stale timers come from workers that close connections. */
  lemma {:induction false} NoStaleTimer<T>(ev: seq<Event<T>>, fd: int, t: int)
    requires Possible(ev) && fd in Run(ev).open && WorkerCloses(ev) == 0
    ensures fd in Run(ev).timerOf && !StaleTimer(Run(ev), fd, t)
  {
    hide Find, Sorted, DistinctIds;
    RunCounts(ev);
    var s := Run(ev);
    assert HasTimer(s, fd);
    forall k | 0 <= k < |s.list| && s.list[k].fd == fd ensures s.list[k].id == s.timerOf[fd] {
      assert Current(s, s.list[k]);
    }
  }

  lemma {:induction false} OneMore<T>(ev: seq<Event<T>>, e: Event<T>) returns (more: seq<Event<T>>)
    requires Possible(ev) && Enabled(Run(ev), e)
    ensures more == ev + [e] && Possible(more) && Run(more) == Step(Run(ev), e)
  {
    hide Step, Enabled;
    more := ev + [e];
    assert Front(more) == ev && Last(more) == e;
  }

  lemma {:induction false} AddFirst<T>(e: Entry<T>)
    ensures Put([], e) == [e]
  {
  }

  lemma {:induction false} AddSecond<T>(d: Entry<T>, e: Entry<T>)
    requires d.expire <= e.expire
    ensures Put([d], e) == [d, e]
  {
    assert Expiries([d])[1..] == [];
  }

  /** A worker closes a connection, say one whose page does not exist; the next connection gets its
      descriptor and is closed by the timer of the first one after a second, although it may be idle
      for fifteen. */
  lemma {:induction false} ClosedEarly(fd: int) returns (ev: seq<Event<int>>)
    requires 0 <= fd < MAX_FD
    ensures ev == [Accept(fd, 0, 1), WorkerClose(fd), Accept(fd, 14, 2)] && Possible(ev) && Possible(ev + [Tick(15)])
    ensures fd in Run(ev).open && LastActive(ev, fd) == 14 && fd !in Run(ev + [Tick(15)]).open
  {
    hide Run, Possible, Inv, Put, StaleTimer, Find;
    NothingYet<int>();
    var a, b := Entry(1, fd, 15), Entry(2, fd, 29);
    AddFirst(a);
    AddSecond(a, b);
    NotFound<int>([], 1);
    NotFound([a], 2);
    ev := OneMore([], Accept(fd, 0, 1));
    ev := OneMore(ev, WorkerClose(fd));
    ev := OneMore(ev, Accept(fd, 14, 2));
    var s := Run(ev);
    assert s.list == [a, b] && s.timerOf[fd] == 2 && fd in s.open && s.clock == 14;
    assert s.list[0].fd == fd;
    Stale(s, fd, 15, 0);
    LastOne(ev, fd);
    IdleGuarantee(ev, 15);
  }

  /** A tick closes a connection that a worker is processing; the worker closes it again, and the user
      count, lowered twice, ends below zero. */
  lemma {:induction false} ClosedTwice(fd: int) returns (ev: seq<Event<int>>)
    requires 0 <= fd < MAX_FD
    ensures ev == [Accept(fd, 0, 1), Tick(15), WorkerClose(fd)] && Possible(ev)
    ensures Run(ev).open == {} && Run(ev).list == [] && Run(ev).count == -1
  {
    hide Run, Possible, Inv, Put, Find;
    NothingYet<int>();
    AddFirst(Entry(1, fd, 15));
    NotFound<int>([], 1);
    ev := OneMore([], Accept(fd, 0, 1));
    var s := Run(ev);
    assert s.list == [Entry(1, fd, 15)] && s.open == {fd} && s.count == 1;
    OneFires(s, fd);
    ev := OneMore(ev, Tick(15));
    ev := OneMore(ev, WorkerClose(fd));
  }

  lemma {:induction false} OneFires(s: State<int>, fd: int)
    requires s.list == [Entry(1, fd, 15)]
    ensures Place(Expiries(s.list), 15) == 1 && fd in Fds(Fired(s, 15))
  {
    PlaceIs(Expiries(s.list), 15, 1);
    assert Fds(Fired(s, 15))[0] == fd;
  }

  lemma NothingYet<T>()
    ensures Possible<T>([]) && Run<T>([]) == Initial<T>()
  {
  }

  lemma Stale<T>(s: State<T>, fd: int, t: int, k: nat)
    requires fd in s.timerOf && k < |s.list|
    requires s.list[k].fd == fd && s.list[k].id != s.timerOf[fd] && s.list[k].expire <= t
    ensures StaleTimer(s, fd, t)
  {
  }

  lemma LastOne<T>(ev: seq<Event<T>>, fd: int)
    requires ev != [] && Last(ev).Accept? && Last(ev).fd == fd
    ensures LastActive(ev, fd) == Last(ev).now
  {
  }
}
