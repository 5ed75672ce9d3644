/** The handlers of the main loop on the real timer list, proved against the steps of EventLoop. */
module Server {
  import opened Common
  import opened TimerList
  import E = EventLoop

  /** The list of timers as entries. */
  function Entries(nodes: seq<UtilTimer>, keys: seq<int>): (r: seq<E.Entry<UtilTimer>>)
    requires |nodes| == |keys|
    ensures |r| == |nodes|
    ensures forall i {:trigger r[i]} :: 0 <= i < |r| ==> r[i] == E.Entry(nodes[i], nodes[i].userData, keys[i])
  {
    seq(|nodes|, i requires 0 <= i < |nodes| => E.Entry(nodes[i], nodes[i].userData, keys[i]))
  }

  lemma {:induction false} EntriesExpire(nodes: seq<UtilTimer>, keys: seq<int>)
    requires |nodes| == |keys|
    ensures E.Expiries(Entries(nodes, keys)) == keys
  {
    var r := Entries(nodes, keys);
    assert forall i :: 0 <= i < |r| ==> r[i].expire == keys[i];
  }

  lemma {:induction false} EntriesInsert(nodes: seq<UtilTimer>, keys: seq<int>, k: nat, x: UtilTimer, e: int)
    requires |nodes| == |keys| && k <= |nodes|
    ensures Entries(Insert(nodes, k, x), Insert(keys, k, e))
         == Insert(Entries(nodes, keys), k, E.Entry(x, x.userData, e))
  {
    hide Insert;
    var a := Entries(Insert(nodes, k, x), Insert(keys, k, e));
    var b := Insert(Entries(nodes, keys), k, E.Entry(x, x.userData, e));
    forall i | 0 <= i < |a| ensures a[i] == b[i] {
    }
  }

  lemma {:induction false} EntriesRemove(nodes: seq<UtilTimer>, keys: seq<int>, k: nat)
    requires |nodes| == |keys| && k < |nodes|
    ensures Entries(Remove(nodes, k), Remove(keys, k)) == Remove(Entries(nodes, keys), k)
  {
    hide Remove;
    var a, b := Entries(Remove(nodes, k), Remove(keys, k)), Remove(Entries(nodes, keys), k);
    forall i | 0 <= i < |a| ensures a[i] == b[i] {
    }
  }

  lemma {:induction false} EntriesDrop(nodes: seq<UtilTimer>, keys: seq<int>, k: nat)
    requires |nodes| == |keys| && k <= |nodes|
    ensures Entries(nodes[k..], keys[k..]) == Entries(nodes, keys)[k..]
  {
  }

  /** A timer is found in the entries where it is in the nodes. */
  lemma {:induction false} FindNode(nodes: seq<UtilTimer>, keys: seq<int>, x: UtilTimer)
    requires |nodes| == |keys|
    ensures var k := E.Find(Entries(nodes, keys), x);
      (x in nodes ==> k < |nodes| && nodes[k] == x) && (x !in nodes ==> k == |nodes|)
  {
    var r := Entries(nodes, keys);
    var k := E.Find(r, x);
    if x in nodes {
      var i :| 0 <= i < |nodes| && nodes[i] == x;
      assert r[i].id == x;
    }
  }

  predicate AtMost(keys: seq<int>, limit: int) {
    forall i :: 0 <= i < |keys| ==> keys[i] <= limit
  }

  lemma {:induction false} InsertAtMost(keys: seq<int>, k: nat, e: int, limit: int)
    requires AtMost(keys, limit) && k <= |keys| && e <= limit
    ensures AtMost(Insert(keys, k, e), limit)
  {
  }

  lemma {:induction false} RemoveAtMost(keys: seq<int>, k: nat, limit: int)
    requires AtMost(keys, limit) && k < |keys|
    ensures AtMost(Remove(keys, k), limit)
  {
  }

  /** The step of a connection that is accepted, on nodes and keys. */
  lemma {:induction false} AcceptStep(s: E.State<UtilTimer>, nodes: seq<UtilTimer>, keys: seq<int>,
                                      fd: int, now: int, t: UtilTimer)
    requires |nodes| == |keys| && s.list == Entries(nodes, keys) && E.Inv(s)
    requires 0 <= fd < E.MAX_FD && fd !in s.open && s.clock <= now && s.count < E.MAX_FD
    requires t !in nodes && t.userData == fd
    ensures E.Find(s.list, t) == |s.list| && E.Enabled(s, E.Accept(fd, now, t))
    ensures var e := now + E.IDLE_LIMIT; var k := Place(keys, e); var n := E.Step(s, E.Accept(fd, now, t));
      && E.Inv(n)
      && n == E.State(s.open + {fd}, s.timerOf[fd := t], Entries(Insert(nodes, k, t), Insert(keys, k, e)),
                      s.count + 1, now, s.workerClosed)
  {
    hide Insert, Place, E.Inv, E.Find;
    FindNode(nodes, keys, t);
    EntriesExpire(nodes, keys);
    EntriesInsert(nodes, keys, Place(keys, now + E.IDLE_LIMIT), t, now + E.IDLE_LIMIT);
    E.StepKeeps(s, E.Accept(fd, now, t));
  }

  /** The step of a connection that is closed by its timer. */
  lemma {:induction false} GoneStep(s: E.State<UtilTimer>, nodes: seq<UtilTimer>, keys: seq<int>, fd: int)
    returns (k: nat)
    requires |nodes| == |keys| && s.list == Entries(nodes, keys) && E.Inv(s) && E.HasTimer(s, fd)
    ensures fd in s.timerOf && k < |nodes| && nodes[k] == s.timerOf[fd] && nodes[k].userData == fd
    ensures E.Enabled(s, E.Gone(fd))
    ensures var n := E.Step(s, E.Gone(fd));
      && E.Inv(n)
      && n == E.State(s.open - {fd}, s.timerOf, Entries(Remove(nodes, k), Remove(keys, k)),
                      s.count - 1, s.clock, s.workerClosed)
  {
    hide Remove, E.Inv, E.Find, E.HasTimer, Entries;
    E.TimerPlace(s, fd);
    k := E.Find(s.list, s.timerOf[fd]);
    EntriesRemove(nodes, keys, k);
    E.StepKeeps(s, E.Gone(fd));
  }

  /** The step of a connection whose timer is pushed back. */
  lemma {:induction false} ActiveStep(s: E.State<UtilTimer>, nodes: seq<UtilTimer>, keys: seq<int>, fd: int, now: int)
    returns (k: nat)
    requires |nodes| == |keys| && s.list == Entries(nodes, keys) && E.Inv(s) && E.HasTimer(s, fd) && s.clock <= now
    ensures fd in s.timerOf && k < |nodes| && nodes[k] == s.timerOf[fd]
    ensures E.Enabled(s, E.Active(fd, now))
    ensures var e := now + E.IDLE_LIMIT; var others := Remove(keys, k); var p := Place(others, e);
      var n := E.Step(s, E.Active(fd, now));
      && E.Inv(n)
      && n == E.State(s.open, s.timerOf, Entries(Insert(Remove(nodes, k), p, nodes[k]), Insert(others, p, e)),
                      s.count, now, s.workerClosed)
  {
    hide Remove, Insert, Place, E.Inv, E.Find, E.HasTimer, Entries;
    E.TimerPlace(s, fd);
    k := E.Find(s.list, s.timerOf[fd]);
    var e := now + E.IDLE_LIMIT;
    EntriesRemove(nodes, keys, k);
    EntriesExpire(Remove(nodes, k), Remove(keys, k));
    EntriesInsert(Remove(nodes, k), Remove(keys, k), Place(Remove(keys, k), e), nodes[k], e);
    E.StepKeeps(s, E.Active(fd, now));
  }

  function UserData(nodes: seq<UtilTimer>): (r: seq<int>)
    ensures |r| == |nodes| && forall i :: 0 <= i < |r| ==> r[i] == nodes[i].userData
  {
    seq(|nodes|, i requires 0 <= i < |nodes| => nodes[i].userData)
  }

  /** The step of a tick. */
  lemma {:induction false} TickStep(s: E.State<UtilTimer>, nodes: seq<UtilTimer>, keys: seq<int>, now: int)
    requires |nodes| == |keys| && s.list == Entries(nodes, keys) && E.Inv(s) && s.clock <= now
    ensures E.Enabled(s, E.Tick(now))
    ensures var m := Place(keys, now); var n := E.Step(s, E.Tick(now));
      && E.Inv(n)
      && n == E.State(s.open - SetOf(UserData(nodes[..m])), s.timerOf, Entries(nodes[m..], keys[m..]),
                      s.count - m, now, s.workerClosed)
  {
    hide Place, E.Inv;
    EntriesExpire(nodes, keys);
    EntriesDrop(nodes, keys, Place(keys, now));
    var f := E.Fired(s, now);
    assert E.Fds(f) == UserData(nodes[..Place(keys, now)]);
    E.StepKeeps(s, E.Tick(now));
  }

  class EventServer {
    const timers: SortTimerList
    var timerOf: map<int, UtilTimer>
    var userCount: int
    /** The descriptors the kernel has open. */
    ghost var open: set<int>
    ghost var clock: int
    ghost var workerClosed: nat

    ghost function State(): E.State<UtilTimer>
      requires |timers.nodes| == |timers.keys|
      reads this, timers
    {
      E.State(open, timerOf, Entries(timers.nodes, timers.keys), userCount, clock, workerClosed)
    }

    ghost predicate Valid()
      reads this, timers, timers.nodes
    {
      && timers.Valid()
      && E.Inv(State())
      && AtMost(timers.keys, clock + E.IDLE_LIMIT)
    }

    constructor ()
      ensures Valid() && State() == E.Initial()
    {
      timers := new SortTimerList();
      timerOf, userCount := map[], 0;
      open, clock, workerClosed := {}, 0, 0;
    }

    /** cb_func */
    method CbFunc(fd: int)
      modifies `open, `userCount
      ensures open == old(open) - {fd} && userCount == old(userCount) - 1
    {
      open := open - {fd};
      userCount := userCount - 1;
    }

    /** A new connection: refused when the table is full, else registered with a timer. */
    method OnAccept(fd: int, now: int) returns (timer: UtilTimer?)
      requires Valid() && 0 <= fd < E.MAX_FD && fd !in open && clock <= now
      modifies this, timers, timers.nodes
      ensures Valid()
      ensures timer == null <==> old(userCount) >= E.MAX_FD
      ensures timer == null ==> State() == old(State()).(clock := now)
      ensures timer != null ==> fresh(timer)
      ensures timer != null ==>
        && E.Find(old(State()).list, timer) == |old(State()).list|
        && State() == E.Step(old(State()), E.Accept(fd, now, timer))
    {
      hide E.Inv, E.Step, E.Enabled, E.Find, Entries, AtMost, Sorted;
      if userCount >= E.MAX_FD {
        RefusedStep(State(), fd, now);
        LaterAtMost(timers.keys, clock, now);
        clock := now;
        return null;
      }
      timer := new UtilTimer(fd, now + E.IDLE_LIMIT);
      Register(timer, fd, now);
    }

    /** A connection that is accepted: its timer goes to users_timer and into the list. */
    method Register(timer: UtilTimer, fd: int, now: int)
      requires Valid() && 0 <= fd < E.MAX_FD && fd !in open && clock <= now && userCount < E.MAX_FD
      requires timer !in timers.nodes && timer.next == null && timer.prev == null
      requires timer.userData == fd && timer.expire == now + E.IDLE_LIMIT
      modifies this, timers, timers.nodes, timer
      ensures Valid()
      ensures E.Find(old(State()).list, timer) == |old(State()).list|
      ensures State() == E.Step(old(State()), E.Accept(fd, now, timer))
    {
      hide E.Inv, E.Step, E.Enabled, E.Find, Insert, Place, AtMost, Sorted, Entries;
      AcceptStep(State(), timers.nodes, timers.keys, fd, now, timer);
      LaterAtMost(timers.keys, clock, now);
      InsertAtMost(timers.keys, Place(timers.keys, timer.expire), timer.expire, now + E.IDLE_LIMIT);
      clock := now;
      open := open + {fd};
      userCount := userCount + 1;
      timerOf := timerOf[fd := timer];
      ghost var s', nodes, keys := E.Step(old(State()), E.Accept(fd, now, timer)), timers.nodes, timers.keys;
      ghost var e := now + E.IDLE_LIMIT;
      timers.AddTimer(timer);
      assert timers.nodes == Insert(nodes, Place(keys, e), timer);
      assert timers.keys == Insert(keys, Place(keys, e), e);
      assert State() == s';
    }

    /** A hang-up, a failed read or a failed write: the timer closes the connection and goes. */
    method OnGone(fd: int)
      requires Valid() && E.HasTimer(State(), fd)
      modifies this, timers, timers.nodes
      ensures Valid()
      ensures State() == E.Step(old(State()), E.Gone(fd))
    {
      hide E.Inv, E.Step, E.Enabled, E.Find, Remove;
      ghost var k := GoneStep(State(), timers.nodes, timers.keys, fd);
      RemoveAtMost(timers.keys, k, clock + E.IDLE_LIMIT);
      var timer := timerOf[fd];
      CbFunc(fd);
      timers.DelTimer(timer, k);
    }

    /** A successful read or write: the timer is pushed back. */
    method OnActive(fd: int, now: int)
      requires Valid() && E.HasTimer(State(), fd) && clock <= now
      modifies this, timers, timers.nodes
      ensures Valid()
      ensures State() == E.Step(old(State()), E.Active(fd, now))
    {
      hide E.Inv, E.Step, E.Enabled, E.Find, Remove, Insert, Place, AtMost, Sorted, Entries;
      ghost var k := ActiveStep(State(), timers.nodes, timers.keys, fd, now);
      ghost var e := now + E.IDLE_LIMIT;
      LaterAtMost(timers.keys, clock, now);
      RemoveAtMost(timers.keys, k, e);
      InsertAtMost(Remove(timers.keys, k), Place(Remove(timers.keys, k), e), e, e);
      var timer := timerOf[fd];
      clock := now;
      timers.Delay(timer, k, now + E.IDLE_LIMIT);
      ghost var s', nodes, keys := E.Step(old(State()), E.Active(fd, now)), timers.nodes, timers.keys;
      timers.AdjustTimer(timer, k);
      assert timer.expire == e;
      assert timers.nodes == Insert(Remove(nodes, k), Place(Remove(keys, k), e), timer);
      assert timers.keys == Insert(Remove(keys, k), Place(Remove(keys, k), e), e);
      assert State() == s';
    }

    /** close_conn, called by a worker, also for a connection that is closed already: the count goes
        down, the timer stays. */
    method OnWorkerClose(fd: int)
      requires Valid()
      modifies `open, `userCount, `workerClosed
      ensures Valid()
      ensures State() == E.Step(old(State()), E.WorkerClose(fd))
    {
      hide E.Inv, AtMost, Entries;
      E.StepKeeps(State(), E.WorkerClose(fd));
      open := open - {fd};
      userCount := userCount - 1;
      workerClosed := workerClosed + 1;
    }

    /** timer_handler: a tick, with its call-backs. */
    method OnTick(now: int) returns (fired: seq<UtilTimer>)
      requires Valid() && clock <= now
      modifies this, timers, timers.nodes
      ensures Valid()
      ensures fired == old(timers.nodes)[..Place(old(timers.keys), now)]
      ensures State() == E.Step(old(State()), E.Tick(now))
    {
      hide E.Inv, E.Step, E.Enabled, Place, Sorted, AtMost, Entries;
      TickStep(State(), timers.nodes, timers.keys, now);
      LaterAtMost(timers.keys, clock, now);
      DropAtMost(timers.keys, Place(timers.keys, now), now + E.IDLE_LIMIT);
      clock := now;
      fired := timers.Tick(now);
      CallBack(fired);
    }

    /** The call-backs of a tick */
    method CallBack(fired: seq<UtilTimer>)
      modifies `open, `userCount
      ensures open == old(open) - SetOf(UserData(fired)) && userCount == old(userCount) - |fired|
    {
      var i := 0;
      while i < |fired|
        invariant i <= |fired| && open == old(open) - SetOf(UserData(fired[..i])) && userCount == old(userCount) - i
      {
        CbFunc(fired[i].userData);
        UserDataSnoc(fired, i);
        i := i + 1;
      }
      assert fired[..|fired|] == fired;
    }
  }

  lemma DropAtMost(keys: seq<int>, k: nat, limit: int)
    requires AtMost(keys, limit) && k <= |keys|
    ensures AtMost(keys[k..], limit)
  {
  }

  lemma {:induction false} UserDataSnoc(nodes: seq<UtilTimer>, i: nat)
    requires i < |nodes|
    ensures SetOf(UserData(nodes[..i + 1])) == SetOf(UserData(nodes[..i])) + {nodes[i].userData}
  {
    assert UserData(nodes[..i + 1]) == UserData(nodes[..i]) + [nodes[i].userData];
  }

  lemma {:induction false} RefusedStep(s: E.State<UtilTimer>, fd: int, now: int)
    requires E.Inv(s) && s.count >= E.MAX_FD && s.clock <= now
    ensures E.Inv(s.(clock := now))
  {
    var n := s.(clock := now);
    forall fd | fd in n.open ensures E.HasTimer(n, fd) {
      assert E.HasTimer(s, fd);
    }
  }

  lemma LaterAtMost(keys: seq<int>, clock: int, now: int)
    requires AtMost(keys, clock + E.IDLE_LIMIT) && clock <= now
    ensures AtMost(keys, now + E.IDLE_LIMIT)
  {
  }
}
