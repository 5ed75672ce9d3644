/** Who holds a connection: epoll (armed, one-shot), the main loop, the work queue or a worker, in
    every interleaving of the main loop with any number of workers. */
module Ownership {
  import opened Common

  /** `Closing` is between close_conn and the modfd at the end of process(). */
  datatype Worker = Free | Processing(fd: int) | Closing(fd: int)

  /** `queued` and `taken` are the connections that have been put into the queue and taken out of it. */
  datatype State = State(open: set<int>, armed: set<int>, main: Option<int>, queue: seq<int>, workers: map<nat, Worker>,
                         queued: seq<int>, taken: seq<int>)

  datatype Step =
    | Accept(fd: int)        // init(): addfd with EPOLLONESHOT
    | Event(fd: int)         // epoll_wait hands the connection to the main loop and disarms it
    | Enqueue                // read() succeeds and append() takes the connection
    | Drop                   // read() succeeds and the work queue is full
    | MainRearm              // write() re-arms
    | MainClose              // hang-up, failed read or failed write: cb_func closes
    | Take(t: nat)           // a worker takes the front of the queue
    | WorkerRearm(t: nat)    // process() re-arms
    | WorkerClose(t: nat)    // process() calls close_conn
    | WorkerEnd(t: nat)      // ... and then modfd on m_sockfd, which a new connection may have set again
    | TickClose(fd: int)     // tick closes an idle connection

  function Initial(workers: set<nat>): State {
    State({}, {}, None, [], map t | t in workers :: Free, [], [])
  }

  function Arm(s: State, fd: int): State {
    if fd in s.open then s.(armed := s.armed + {fd}) else s
  }

  function Close(s: State, fd: int): State {
    s.(open := s.open - {fd}, armed := s.armed - {fd})
  }

  function Goto(s: State, t: nat, w: Worker): State {
    s.(workers := s.workers[t := w])
  }

  /** The step, if it is possible: the kernel reuses only descriptors that are not open, the main
      loop does one thing at a time. */
  function Next(s: State, e: Step): Option<State> {
    match e
    case Accept(fd) =>
      if s.main == None && fd !in s.open then Some(s.(open := s.open + {fd}, armed := s.armed + {fd})) else None
    case Event(fd) =>
      if s.main == None && fd in s.armed then Some(s.(armed := s.armed - {fd}, main := Some(fd))) else None
    case Enqueue =>
      if s.main.Some?
      then Some(s.(queue := s.queue + [s.main.value], queued := s.queued + [s.main.value], main := None))
      else None
    case Drop => if s.main.Some? then Some(s.(main := None)) else None
    case MainRearm => if s.main.Some? then Some(Arm(s, s.main.value).(main := None)) else None
    case MainClose => if s.main.Some? then Some(Close(s, s.main.value).(main := None)) else None
    case TickClose(fd) => if s.main == None && fd in s.open then Some(Close(s, fd)) else None
    case _ => if e.t in s.workers then WorkerNext(s, e, s.workers[e.t]) else None
  }

  function WorkerNext(s: State, e: Step, w: Worker): Option<State>
    requires (e.Take? || e.WorkerRearm? || e.WorkerClose? || e.WorkerEnd?) && e.t in s.workers && s.workers[e.t] == w
  {
    match (e, w)
    case (Take(t), Free) =>
      if s.queue == [] then None
      else Some(Goto(s, t, Processing(s.queue[0])).(queue := s.queue[1..], taken := s.taken + [s.queue[0]]))
    case (WorkerRearm(t), Processing(fd)) => Some(Goto(Arm(s, fd), t, Free))
    case (WorkerClose(t), Processing(fd)) => Some(Goto(Close(s, fd), t, Closing(fd)))
    case (WorkerEnd(t), Closing(fd)) => Some(Goto(Arm(s, fd), t, Free))
    case _ => None
  }

  // ---------------------------------------------------------------- holders

  function Hands(m: map<nat, Worker>, fd: int): set<nat> {
    set t | t in m && m[t] != Free && m[t].fd == fd
  }

  /** In how many places a connection is held. */
  function Holders(s: State, fd: int): nat {
    (if fd in s.armed then 1 else 0) + (if s.main == Some(fd) then 1 else 0)
    + multiset(s.queue)[fd] + |Hands(s.workers, fd)|
  }

  ghost predicate OneHolder(s: State) {
    forall fd :: Holders(s, fd) <= 1
  }

  /** The guard of the failing case: a descriptor number is reused while the object of its last
      connection is still queued or in the hands of a worker. */
  predicate ReusesHeld(s: State, e: Step) {
    e.Accept? && Holders(s, e.fd) > 0
  }

  function Holds(w: Worker, fd: int): nat {
    if w != Free && w.fd == fd then 1 else 0
  }

  lemma {:induction false} HandsMove(m: map<nat, Worker>, t: nat, w: Worker, fd: int)
    requires t in m
    ensures |Hands(m[t := w], fd)| == |Hands(m, fd)| - Holds(m[t], fd) + Holds(w, fd)
  {
    var rest := Hands(m, fd) - {t};
    assert Hands(m[t := w], fd) == if Holds(w, fd) == 1 then rest + {t} else rest;
    assert Hands(m, fd) == if Holds(m[t], fd) == 1 then rest + {t} else rest;
  }

  lemma {:induction false} HoldersWorkerStep(s: State, e: Step, fd: int)
    requires s.armed <= s.open && Next(s, e).Some? && (e.Take? || e.WorkerRearm? || e.WorkerClose? || e.WorkerEnd?)
    ensures Next(s, e).value.armed <= Next(s, e).value.open && Holders(Next(s, e).value, fd) <= Holders(s, fd)
  {
    hide Hands;
    HandsMove(s.workers, e.t, Next(s, e).value.workers[e.t], fd);
    if e.Take? {
      QueueTake(s.queue, fd);
    }
  }

  lemma QueueTake(q: seq<int>, fd: int)
    requires q != []
    ensures multiset(q)[fd] == multiset(q[1..])[fd] + if q[0] == fd then 1 else 0
  {
    assert q == [q[0]] + q[1..];
  }

  /** Every step but accept leaves a connection in no more places than before; accept adds one. */
  lemma {:induction false} HoldersStep(s: State, e: Step, fd: int)
    requires s.armed <= s.open && Next(s, e).Some?
    ensures var n := Next(s, e).value;
      && n.armed <= n.open
      && Holders(n, fd) <= Holders(s, fd) + (if e == Accept(fd) then 1 else 0)
      && (e == Accept(fd) ==> Holders(n, fd) == Holders(s, fd) + 1)
  {
    hide Hands, WorkerNext;
    if e.Take? || e.WorkerRearm? || e.WorkerClose? || e.WorkerEnd? {
      HoldersWorkerStep(s, e, fd);
    }
  }

  /** A step keeps one holder for every connection if and only if it does not reuse a held
      descriptor. */
  lemma {:induction false} StepIff(s: State, e: Step)
    requires OneHolder(s) && s.armed <= s.open && Next(s, e).Some?
    ensures OneHolder(Next(s, e).value) <==> !ReusesHeld(s, e)
  {
    hide Holders, Next;
    var n := Next(s, e).value;
    forall fd ensures Holders(n, fd) <= Holders(s, fd) + (if e == Accept(fd) then 1 else 0)
      && (e == Accept(fd) ==> Holders(n, fd) == Holders(s, fd) + 1)
    {
      HoldersStep(s, e, fd);
    }
    if ReusesHeld(s, e) {
      assert Holders(n, e.fd) > 1;
    } else {
      forall fd ensures Holders(n, fd) <= 1 {
        assert Holders(s, fd) <= 1;
      }
    }
  }

  // -------------------------------------------------------------- whole runs

  function Exec(workers: set<nat>, steps: seq<Step>): Option<State>
    decreases |steps|
  {
    if steps == [] then Some(Initial(workers))
    else
      match Exec(workers, steps[..|steps| - 1])
      case None => None
      case Some(s) => Next(s, steps[|steps| - 1])
  }

  /** Every connection has at most one holder after every step of the run. */
  ghost predicate AlwaysOne(workers: set<nat>, steps: seq<Step>)
    requires Exec(workers, steps).Some?
    decreases |steps|
  {
    OneHolder(Exec(workers, steps).value) && (steps != [] ==> AlwaysOne(workers, steps[..|steps| - 1]))
  }

  /** No step of the run reuses a held descriptor. */
  predicate NeverReuses(workers: set<nat>, steps: seq<Step>)
    requires Exec(workers, steps).Some?
    decreases |steps|
  {
    steps != [] ==>
      var before := steps[..|steps| - 1];
      NeverReuses(workers, before) && !ReusesHeld(Exec(workers, before).value, steps[|steps| - 1])
  }

  lemma {:induction false} InitialOne(workers: set<nat>)
    ensures OneHolder(Initial(workers)) && Initial(workers).armed <= Initial(workers).open
  {
    forall fd ensures Holders(Initial(workers), fd) <= 1 {
      assert Hands(Initial(workers).workers, fd) == {};
    }
  }

  lemma {:induction false} ArmedIsOpen(workers: set<nat>, steps: seq<Step>)
    requires Exec(workers, steps).Some?
    ensures Exec(workers, steps).value.armed <= Exec(workers, steps).value.open
    decreases |steps|
  {
    hide Next;
    if steps != [] {
      ArmedIsOpen(workers, steps[..|steps| - 1]);
      HoldersStep(Exec(workers, steps[..|steps| - 1]).value, steps[|steps| - 1], 0);
    }
  }

  /** In every interleaving: each connection always has at most one holder if and only if no
      accept reuses a descriptor that is still held. */
  lemma {:induction false} OneHolderIff(workers: set<nat>, steps: seq<Step>)
    requires Exec(workers, steps).Some?
    ensures AlwaysOne(workers, steps) <==> NeverReuses(workers, steps)
    decreases |steps|
  {
    hide Next, OneHolder, ReusesHeld;
    if steps == [] {
      InitialOne(workers);
    } else {
      var before := steps[..|steps| - 1];
      OneHolderIff(workers, before);
      ArmedIsOpen(workers, before);
      if AlwaysOne(workers, before) {
        StepIff(Exec(workers, before).value, steps[|steps| - 1]);
      }
    }
  }

  lemma {:induction false} QueuedTwice(q: seq<int>, i: nat, j: nat)
    requires i < j < |q|
    ensures q[i] == q[j] ==> multiset(q)[q[i]] >= 2
  {
    assert q == q[..i] + [q[i]] + q[i + 1..j] + [q[j]] + q[j + 1..];
  }

  lemma {:induction false} TwoHands(m: map<nat, Worker>, t: nat, u: nat)
    requires t in m && u in m && t != u && m[t] != Free && m[u] != Free
    ensures m[t].fd == m[u].fd ==> |Hands(m, m[t].fd)| >= 2
  {
    var h := Hands(m, m[t].fd);
    if m[t].fd == m[u].fd {
      assert h == {t, u} + (h - {t, u});
    }
  }

  lemma {:induction false} OneHand(m: map<nat, Worker>, t: nat)
    requires t in m && m[t] != Free
    ensures |Hands(m, m[t].fd)| >= 1
  {
    assert t in Hands(m, m[t].fd);
  }

  /** What one holder means: nothing is queued twice, no two workers have the same connection, and
      a connection with a worker is neither queued nor armed nor with the main loop. */
  lemma {:induction false} OneHolderMeans(s: State)
    requires OneHolder(s)
    ensures forall i, j :: 0 <= i < j < |s.queue| ==> s.queue[i] != s.queue[j]
    ensures forall t, u ::
      t in s.workers && u in s.workers && t != u && s.workers[t] != Free && s.workers[u] != Free ==>
      s.workers[t].fd != s.workers[u].fd
    ensures forall t :: t in s.workers && s.workers[t] != Free ==>
      var fd := s.workers[t].fd; fd !in s.queue && fd !in s.armed && s.main != Some(fd)
  {
    hide Hands;
    forall i, j | 0 <= i < j < |s.queue| ensures s.queue[i] != s.queue[j] {
      assert Holders(s, s.queue[i]) <= 1;
      QueuedTwice(s.queue, i, j);
    }
    forall t | t in s.workers && s.workers[t] != Free
      ensures var fd := s.workers[t].fd; fd !in s.queue && fd !in s.armed && s.main != Some(fd)
    {
      assert Holders(s, s.workers[t].fd) <= 1;
      OneHand(s.workers, t);
    }
    forall t, u | t in s.workers && u in s.workers && t != u && s.workers[t] != Free && s.workers[u] != Free
      ensures s.workers[t].fd != s.workers[u].fd
    {
      assert Holders(s, s.workers[t].fd) <= 1;
      TwoHands(s.workers, t, u);
    }
  }

  // ------------------------------------------------------- none is lost

  /** Every open connection is somewhere. */
  ghost predicate Kept(s: State) {
    forall fd :: fd in s.open ==> Holders(s, fd) >= 1
  }

  /** A worker that takes, re-arms, closes or ends keeps every open connection held. */
  lemma {:induction false} WorkerKeeps(s: State, e: Step, fd: int)
    requires Next(s, e).Some? && (e.Take? || e.WorkerRearm? || e.WorkerClose? || e.WorkerEnd?)
    requires fd in Next(s, e).value.open && Holders(s, fd) >= 1
    ensures Holders(Next(s, e).value, fd) >= 1
  {
    hide Hands;
    HandsMove(s.workers, e.t, Next(s, e).value.workers[e.t], fd);
    if e.Take? {
      QueueTake(s.queue, fd);
    }
  }

  lemma {:induction false} MainKeeps(s: State, e: Step, fd: int)
    requires Next(s, e).Some? && !(e.Take? || e.WorkerRearm? || e.WorkerClose? || e.WorkerEnd?) && !e.Drop?
    requires fd in Next(s, e).value.open && (fd in s.open ==> Holders(s, fd) >= 1)
    ensures Holders(Next(s, e).value, fd) >= 1
  {
    hide Hands;
  }

  /** Only a full work queue loses a connection: every other step keeps each open connection held, and
      that one does not if and only if it is open and nobody else holds it. */
  lemma {:induction false} KeptIff(s: State, e: Step)
    requires Kept(s) && Next(s, e).Some?
    ensures Kept(Next(s, e).value) <==> !(e.Drop? && s.main.value in s.open && Holders(s, s.main.value) == 1)
  {
    hide Holders, Next;
    var n := Next(s, e).value;
    if e.Drop? {
      forall fd ensures n.open == s.open && Holders(n, fd) == Holders(s, fd) - (if s.main == Some(fd) then 1 else 0) {
        DropStep(s, fd);
      }
      DropHas(s);
      assert s.main.value in n.open ==> Holders(n, s.main.value) == Holders(s, s.main.value) - 1;
    } else {
      forall fd | fd in n.open ensures Holders(n, fd) >= 1 {
        if e.Take? || e.WorkerRearm? || e.WorkerClose? || e.WorkerEnd? {
          WorkerOpens(s, e);
          WorkerKeeps(s, e, fd);
        } else {
          MainKeeps(s, e, fd);
        }
      }
    }
  }

  lemma DropStep(s: State, fd: int)
    requires Next(s, Drop).Some?
    ensures var n := Next(s, Drop).value;
      n.open == s.open && Holders(n, fd) == Holders(s, fd) - (if s.main == Some(fd) then 1 else 0)
  {
  }

  lemma DropHas(s: State)
    requires Next(s, Drop).Some?
    ensures s.main.Some?
  {
  }

  lemma WorkerOpens(s: State, e: Step)
    requires Next(s, e).Some? && (e.Take? || e.WorkerRearm? || e.WorkerClose? || e.WorkerEnd?)
    ensures Next(s, e).value.open <= s.open
  {
  }

  predicate NeverDrops(steps: seq<Step>) {
    forall i :: 0 <= i < |steps| ==> !steps[i].Drop?
  }

  /** In every interleaving in which the work queue is never full each open connection is held. */
  lemma {:induction false} NoneIsLost(workers: set<nat>, steps: seq<Step>)
    requires Exec(workers, steps).Some? && NeverDrops(steps)
    ensures Kept(Exec(workers, steps).value)
    decreases |steps|
  {
    hide Next, Holders;
    if steps != [] {
      var before := steps[..|steps| - 1];
      NoneIsLost(workers, before);
      KeptIff(Exec(workers, before).value, steps[|steps| - 1]);
    }
  }

  /** And exactly by one holder, when no held descriptor is reused. */
  lemma {:induction false} ExactlyOneHolder(workers: set<nat>, steps: seq<Step>, fd: int)
    requires Exec(workers, steps).Some? && NeverDrops(steps) && NeverReuses(workers, steps)
    requires fd in Exec(workers, steps).value.open
    ensures Holders(Exec(workers, steps).value, fd) == 1
  {
    hide Exec, Holders;
    NoneIsLost(workers, steps);
    OneHolderIff(workers, steps);
    LastIsOne(workers, steps);
  }

  lemma LastIsOne(workers: set<nat>, steps: seq<Step>)
    requires Exec(workers, steps).Some? && AlwaysOne(workers, steps)
    ensures OneHolder(Exec(workers, steps).value)
  {
  }

  /** When the queue is full the connection that was read is forgotten: it stays open, and no event of it
      will ever be reported. */
  lemma {:induction false} DropLoses(fd: int) returns (steps: seq<Step>)
    ensures steps == [Accept(fd), Event(fd), Drop]
    ensures var s := Exec({}, steps); s.Some? && fd in s.value.open && Holders(s.value, fd) == 0
  {
    hide Exec;
    NothingYet({});
    steps := OneMoreStep({}, [], Accept(fd));
    steps := OneMoreStep({}, steps, Event(fd));
    steps := OneMoreStep({}, steps, Drop);
    assert Hands(map[], fd) == {};
  }

  /** Workers take the connections in the order in which they were queued. */
  lemma {:induction false} TakenInOrder(workers: set<nat>, steps: seq<Step>)
    requires Exec(workers, steps).Some?
    ensures var s := Exec(workers, steps).value; s.taken + s.queue == s.queued
    decreases |steps|
  {
    if steps != [] {
      var before := steps[..|steps| - 1];
      TakenInOrder(workers, before);
      var s := Exec(workers, before).value;
      if s.queue != [] {
        assert s.taken + [s.queue[0]] + s.queue[1..] == s.taken + s.queue;
      }
      if s.main.Some? {
        assert s.taken + (s.queue + [s.main.value]) == s.taken + s.queue + [s.main.value];
      }
    }
  }

  // ------------------------------------------- which runs never reuse a held one

  /** No timer closes a connection that is queued or being processed, and no descriptor is reused
      while the worker that closed it is still in process(). */
  predicate Careful(s: State, e: Step) {
    && (e.TickClose? ==> e.fd !in s.queue && forall t :: t in s.workers ==> s.workers[t] != Processing(e.fd))
    && (e.Accept? ==> forall t :: t in s.workers ==> s.workers[t] != Closing(e.fd))
  }

  predicate CarefulRun(workers: set<nat>, steps: seq<Step>)
    requires Exec(workers, steps).Some?
    decreases |steps|
  {
    steps != [] ==>
      var before := steps[..|steps| - 1];
      CarefulRun(workers, before) && Careful(Exec(workers, before).value, steps[|steps| - 1])
  }

  /** What is held is open, unless its worker has just closed it. */
  predicate HeldIsOpen(s: State) {
    && s.armed <= s.open
    && (s.main.Some? ==> s.main.value in s.open)
    && (forall fd :: fd in s.queue ==> fd in s.open)
    && (forall t :: t in s.workers && s.workers[t].Processing? ==> s.workers[t].fd in s.open)
  }

  lemma {:induction false} CarefulStep(s: State, e: Step)
    requires OneHolder(s) && HeldIsOpen(s) && Careful(s, e) && Next(s, e).Some?
    ensures !ReusesHeld(s, e) && HeldIsOpen(Next(s, e).value)
  {
    OneHolderMeans(s);
    if e.Accept? {
      assert Hands(s.workers, e.fd) == {};
      assert e.fd !in s.queue;
    } else if e.MainClose? {
      assert Holders(s, s.main.value) <= 1;
    }
  }

  lemma {:induction false} CarefulRunsAreGood(workers: set<nat>, steps: seq<Step>)
    requires Exec(workers, steps).Some? && CarefulRun(workers, steps)
    ensures HeldIsOpen(Exec(workers, steps).value) && OneHolder(Exec(workers, steps).value)
    ensures NeverReuses(workers, steps)
    decreases |steps|
  {
    hide Next, OneHolder, ReusesHeld, HeldIsOpen, Careful;
    if steps == [] {
      InitialOne(workers);
      InitialOpen(workers);
    } else {
      var before := steps[..|steps| - 1];
      CarefulRunsAreGood(workers, before);
      ArmedIsOpen(workers, before);
      CarefulStep(Exec(workers, before).value, steps[|steps| - 1]);
      StepIff(Exec(workers, before).value, steps[|steps| - 1]);
    }
  }

  lemma InitialOpen(workers: set<nat>)
    ensures HeldIsOpen(Initial(workers))
  {
  }

  /** The one-shot guarantee: in every careful interleaving each connection is at every moment in
      at most one of epoll, the main loop, the queue and a worker. */
  lemma {:induction false} CarefulRunsHaveOneHolder(workers: set<nat>, steps: seq<Step>)
    requires Exec(workers, steps).Some? && CarefulRun(workers, steps)
    ensures AlwaysOne(workers, steps)
  {
    CarefulRunsAreGood(workers, steps);
    OneHolderIff(workers, steps);
  }

  lemma {:induction false} OneMoreStep(workers: set<nat>, steps: seq<Step>, e: Step) returns (more: seq<Step>)
    requires Exec(workers, steps).Some? && Next(Exec(workers, steps).value, e).Some?
    ensures Exec(workers, more) == Next(Exec(workers, steps).value, e)
    ensures more == steps + [e]
  {
    hide Next;
    more := steps + [e];
    assert more[..|more| - 1] == steps;
  }

  /** Without that care it fails: a timer closes a queued connection, its number is reused, and
      the new connection is armed while its object is still queued. */
  lemma {:induction false} ClosedWhileQueued(fd: int) returns (steps: seq<Step>)
    ensures steps == [Accept(fd), Event(fd), Enqueue, TickClose(fd), Accept(fd)]
    ensures var s := Exec({}, steps);
      s.Some? && fd in s.value.armed && fd in s.value.queue && !OneHolder(s.value)
  {
    hide Exec, OneHolder, Holders;
    NothingYet({});
    steps := OneMoreStep({}, [], Accept(fd));
    steps := OneMoreStep({}, steps, Event(fd));
    steps := OneMoreStep({}, steps, Enqueue);
    steps := OneMoreStep({}, steps, TickClose(fd));
    steps := OneMoreStep({}, steps, Accept(fd));
    HeldTwice(Exec({}, steps).value, fd);
  }

  /** It also fails without any timer: a worker closes its connection, the number is reused before
      the worker has come to its modfd, and the new connection is armed while it is still held. */
  lemma {:induction false} ReusedBeforeModfd(fd: int, t: nat) returns (steps: seq<Step>)
    ensures steps == [Accept(fd), Event(fd), Enqueue, Take(t), WorkerClose(t), Accept(fd)]
    ensures var s := Exec({t}, steps);
      s.Some? && fd in s.value.armed && t in s.value.workers && s.value.workers[t] == Closing(fd) && !OneHolder(s.value)
  {
    hide Exec, OneHolder, Holders;
    NothingYet({t});
    steps := OneMoreStep({t}, [], Accept(fd));
    steps := OneMoreStep({t}, steps, Event(fd));
    steps := OneMoreStep({t}, steps, Enqueue);
    steps := OneMoreStep({t}, steps, Take(t));
    steps := OneMoreStep({t}, steps, WorkerClose(t));
    steps := OneMoreStep({t}, steps, Accept(fd));
    ArmedWithWorker(Exec({t}, steps).value, fd, t);
  }

  lemma ArmedWithWorker(s: State, fd: int, t: nat)
    requires fd in s.armed && t in s.workers && s.workers[t] == Closing(fd)
    ensures !OneHolder(s)
  {
    OneHand(s.workers, t);
    assert Holders(s, fd) > 1;
  }

  lemma NothingYet(workers: set<nat>)
    ensures Exec(workers, []) == Some(Initial(workers))
  {
  }

  lemma HeldTwice(s: State, fd: int)
    requires fd in s.armed && fd in s.queue
    ensures !OneHolder(s)
  {
    assert Holders(s, fd) > 1;
  }
}
