/** The worker pool and the database connection pool as one interleaving system: any number of
    appending threads and workers, one step for each semaphore operation and each critical
    section. */
module Pools {
  import opened Common

  const NULL_TASK: nat := 0

  /** Where a worker is in `work`, and inside the connectionRAII of its loop body. */
  datatype Worker =
    | AtTop                          // before m_queuesem.wait()
    | HasToken                       // past the wait, before the critical section
    | HasTask(task: nat)             // before the size check of getConnection
    | MayWait(task: nat)             // before reserve.wait()
    | HasConToken(task: nat)         // past it, before the critical section
    | Working(task: nat, con: int)   // in process() with a connection
    | NoCon(task: nat)               // in process() with the NULL of an empty pool
    | Returned                       // connection pushed back, before reserve.post()
    | Crashed                        // front() of an empty list

  /** An appending thread: `Pushed` is between push_back and m_queuesem.post(). */
  datatype Appender = Idle | Pushed

  datatype Config = Config(workers: set<nat>, appenders: set<nat>, maxRequest: nat, cons: seq<int>)

  /** The histories: tasks that append accepted, that workers took, whose process() has returned, and
      connections that were handed out and given back. */
  datatype State = State(
    workers: map<nat, Worker>, appenders: map<nat, Appender>,
    queue: seq<nat>, queueSem: nat,
    conList: seq<int>, reserve: nat, freeConn: int, curConn: int,
    accepted: seq<nat>, dequeued: seq<nat>, finished: seq<nat>,
    given: seq<int>, returned: seq<int>)

  datatype Step =
    | Append(a: nat, task: nat) | PostTask(a: nat)
    | WaitTask(t: nat) | TakeTask(t: nat)
    | CheckFree(t: nat) | WaitCon(t: nat) | TakeCon(t: nat)
    | PutCon(t: nat) | PostCon(t: nat) | FinishWithout(t: nat)

  /** The state behind the constructors and init: all connections idle, the semaphore at their number. */
  function Initial(c: Config): State {
    State(map t | t in c.workers :: AtTop, map a | a in c.appenders :: Idle,
          [], 0, c.cons, |c.cons|, |c.cons|, 0, [], [], [], [], [])
  }

  /** The step of a thread, if it can make it: a semaphore at zero makes it wait. */
  function Next(c: Config, s: State, e: Step): Option<State> {
    match e
    case Append(a, task) =>
      if a !in s.appenders || !s.appenders[a].Idle? then None
      else if |s.queue| >= c.maxRequest then Some(s)
      else Some(s.(queue := s.queue + [task], accepted := s.accepted + [task], appenders := s.appenders[a := Pushed]))
    case PostTask(a) =>
      if a !in s.appenders || !s.appenders[a].Pushed? then None
      else Some(s.(queueSem := s.queueSem + 1, appenders := s.appenders[a := Idle]))
    case _ => if e.t !in s.workers then None else WorkerNext(s, e, s.workers[e.t])
  }

  function Goto(s: State, t: nat, w: Worker): State {
    s.(workers := s.workers[t := w])
  }

  function WorkerNext(s: State, e: Step, w: Worker): Option<State>
    requires !e.Append? && !e.PostTask? && e.t in s.workers && w == s.workers[e.t]
  {
    match (e, w)
    case (WaitTask(t), AtTop) =>
      if s.queueSem == 0 then None else Some(Goto(s, t, HasToken).(queueSem := s.queueSem - 1))
    case (TakeTask(t), HasToken) =>
      if s.queue == [] then Some(Goto(s, t, AtTop))
      else
        var task := s.queue[0];
        Some(Goto(s, t, if task == NULL_TASK then AtTop else HasTask(task))
             .(queue := s.queue[1..], dequeued := s.dequeued + [task]))
    case (CheckFree(t), HasTask(task)) =>
      Some(Goto(s, t, if s.conList == [] then NoCon(task) else MayWait(task)))
    case (WaitCon(t), MayWait(task)) =>
      if s.reserve == 0 then None else Some(Goto(s, t, HasConToken(task)).(reserve := s.reserve - 1))
    case (TakeCon(t), HasConToken(task)) =>
      if s.conList == [] then Some(Goto(s, t, Crashed))
      else Some(Goto(s, t, Working(task, s.conList[0]))
                .(conList := s.conList[1..], freeConn := s.freeConn - 1, curConn := s.curConn + 1,
                  given := s.given + [s.conList[0]]))
    case (PutCon(t), Working(task, con)) =>
      Some(Goto(s, t, Returned).(conList := s.conList + [con], freeConn := s.freeConn + 1, curConn := s.curConn - 1,
                                 finished := s.finished + [task], returned := s.returned + [con]))
    case (PostCon(t), Returned) =>
      Some(Goto(s, t, AtTop).(reserve := s.reserve + 1))
    case (FinishWithout(t), NoCon(task)) =>
      Some(Goto(s, t, AtTop).(finished := s.finished + [task]))
    case _ => None
  }

  /** The state behind an interleaving, if every one of its steps can be made. */
  function Exec(c: Config, steps: seq<Step>): Option<State>
    decreases |steps|
  {
    if steps == [] then Some(Initial(c))
    else
      match Exec(c, steps[..|steps| - 1])
      case None => None
      case Some(s) => Next(c, s, steps[|steps| - 1])
  }

  // ------------------------------------------------------------------- counting

  datatype Kind = KToken | KConToken | KWorking | KReturned | KOther

  function KindOf(w: Worker): Kind {
    match w
    case HasToken => KToken
    case HasConToken(_) => KConToken
    case Working(_, _) => KWorking
    case Returned => KReturned
    case _ => KOther
  }

  function At(m: map<nat, Worker>, k: Kind): set<nat> {
    set t | t in m && KindOf(m[t]) == k
  }

  function Pending(m: map<nat, Appender>): set<nat> {
    set a | a in m && m[a].Pushed?
  }

  lemma {:induction false} AtMove(m: map<nat, Worker>, t: nat, w: Worker, k: Kind)
    requires t in m
    ensures |At(m[t := w], k)| == |At(m, k)| - (if KindOf(m[t]) == k then 1 else 0) + (if KindOf(w) == k then 1 else 0)
  {
    var rest := At(m, k) - {t};
    assert At(m[t := w], k) == if KindOf(w) == k then rest + {t} else rest;
    assert At(m, k) == if KindOf(m[t]) == k then rest + {t} else rest;
  }

  lemma {:induction false} PendingMove(m: map<nat, Appender>, a: nat, w: Appender)
    requires a in m
    ensures |Pending(m[a := w])| == |Pending(m)| - (if m[a].Pushed? then 1 else 0) + (if w.Pushed? then 1 else 0)
  {
    var rest := Pending(m) - {a};
    assert Pending(m[a := w]) == if w.Pushed? then rest + {a} else rest;
    assert Pending(m) == if m[a].Pushed? then rest + {a} else rest;
  }

  // ------------------------------------------------------------------ invariants

  /** The connections in the hands of workers. */
  function Held(m: map<nat, Worker>): set<int> {
    set t | t in m && m[t].Working? :: m[t].con
  }

  /** Tasks: the semaphore and the threads between its operations and the list account for the
      queue, which stays within its limit; taken and queued tasks are the accepted ones, in order. */
  predicate QueueInv(c: Config, s: State) {
    && |s.queue| == s.queueSem + |At(s.workers, KToken)| + |Pending(s.appenders)|
    && |s.queue| <= c.maxRequest
    && s.dequeued + s.queue == s.accepted
  }

  /** Connections: the same for the reserve semaphore, and the two counters. */
  predicate CountInv(c: Config, s: State) {
    && |s.conList| == s.reserve + |At(s.workers, KConToken)| + |At(s.workers, KReturned)|
    && s.freeConn == |s.conList|
    && s.curConn == |At(s.workers, KWorking)|
    && s.freeConn + s.curConn == |c.cons|
  }

  /** Idle and handed-out connections partition the initial ones; no two workers hold the same. */
  predicate PartitionInv(c: Config, s: State) {
    && Distinct(s.conList)
    && SetOf(s.conList) + Held(s.workers) == SetOf(c.cons)
    && SetOf(s.conList) !! Held(s.workers)
    && (forall t, u :: t in s.workers && u in s.workers && t != u && s.workers[t].Working? && s.workers[u].Working?
          ==> s.workers[t].con != s.workers[u].con)
  }

  function TaskOf(w: Worker): Option<nat> {
    match w
    case HasTask(task) => Some(task)
    case MayWait(task) => Some(task)
    case HasConToken(task) => Some(task)
    case Working(task, _) => Some(task)
    case NoCon(task) => Some(task)
    case _ => None
  }

  /** The workers that have this task in their hands */
  function Doing(m: map<nat, Worker>, task: nat): set<nat> {
    set t | t in m && TaskOf(m[t]) == Some(task)
  }

  function Count(s: seq<nat>, task: nat): nat {
    multiset(s)[task]
  }

  /** Every task that was taken, unless it is null, is as often as it was taken in the hands of a worker
      or finished. */
  predicate TaskDone(s: State, task: nat) {
    |Doing(s.workers, task)| + Count(s.finished, task) == if task == NULL_TASK then 0 else Count(s.dequeued, task)
  }

  ghost predicate TaskInv(s: State) {
    forall task :: TaskDone(s, task)
  }

  /** Connections are handed out in the order in which they came to the list. */
  predicate ConOrder(c: Config, s: State) {
    s.given + s.conList == c.cons + s.returned
  }

  predicate Threads(c: Config, s: State) {
    && s.workers.Keys == c.workers && s.appenders.Keys == c.appenders
    && (forall t :: t in s.workers ==> !s.workers[t].Crashed?)
  }

  ghost predicate Inv(c: Config, s: State) {
    Threads(c, s) && QueueInv(c, s) && CountInv(c, s) && PartitionInv(c, s) && TaskInv(s) && ConOrder(c, s)
  }

  lemma {:induction false} InitialInv(c: Config)
    requires Distinct(c.cons)
    ensures Inv(c, Initial(c))
  {
    var s := Initial(c);
    assert At(s.workers, KToken) == {} && At(s.workers, KConToken) == {};
    assert At(s.workers, KWorking) == {} && At(s.workers, KReturned) == {};
    assert Pending(s.appenders) == {} && Held(s.workers) == {};
    assert [] + s.queue == s.queue;
    assert s.given + s.conList == c.cons + s.returned;
    forall task ensures TaskDone(s, task) {
      assert Doing(s.workers, task) == {};
    }
  }

  /** A worker that neither gets nor gives up a connection leaves the holdings alone. */
  lemma {:induction false} HeldStays(m: map<nat, Worker>, t: nat, w: Worker)
    requires t in m && !m[t].Working? && !w.Working?
    ensures Held(m[t := w]) == Held(m)
  {
    var n := m[t := w];
    forall x | x in Held(m) ensures x in Held(n) {
      var u :| u in m && m[u].Working? && m[u].con == x;
      assert n[u] == m[u];
    }
    forall x | x in Held(n) ensures x in Held(m) {
      var u :| u in n && n[u].Working? && n[u].con == x;
      assert n[u] == m[u];
    }
  }

  lemma {:induction false} HeldGains(m: map<nat, Worker>, t: nat, w: Worker)
    requires t in m && !m[t].Working? && w.Working?
    ensures Held(m[t := w]) == Held(m) + {w.con}
  {
    var n := m[t := w];
    forall x | x in Held(m) ensures x in Held(n) {
      var u :| u in m && m[u].Working? && m[u].con == x;
      assert n[u] == m[u];
    }
    forall x | x in Held(n) ensures x in Held(m) + {w.con} {
      var u :| u in n && n[u].Working? && n[u].con == x;
      assert u != t ==> n[u] == m[u];
    }
    assert n[t] == w;
  }

  lemma {:induction false} HeldLoses(m: map<nat, Worker>, t: nat, w: Worker)
    requires t in m && m[t].Working? && !w.Working?
    requires forall u :: u in m && u != t && m[u].Working? ==> m[u].con != m[t].con
    ensures Held(m[t := w]) == Held(m) - {m[t].con} && m[t].con in Held(m)
  {
    var n := m[t := w];
    forall x | x in Held(m) - {m[t].con} ensures x in Held(n) {
      var u :| u in m && m[u].Working? && m[u].con == x;
      assert n[u] == m[u];
    }
    forall x | x in Held(n) ensures x in Held(m) - {m[t].con} {
      var u :| u in n && n[u].Working? && n[u].con == x;
      assert n[u] == m[u];
    }
  }

  lemma {:induction false} TailSet(s: seq<int>)
    requires Distinct(s) && s != []
    ensures Distinct(s[1..]) && SetOf(s[1..]) == SetOf(s) - {s[0]} && s[0] in SetOf(s)
  {
    assert s == [s[0]] + s[1..];
    forall x | x in SetOf(s) - {s[0]} ensures x in SetOf(s[1..]) {
      var i :| 0 <= i < |s| && s[i] == x;
      assert s[1..][i - 1] == x;
    }
    forall x | x in SetOf(s[1..]) ensures x in SetOf(s) - {s[0]} {
      var i :| 0 <= i < |s| - 1 && s[1..][i] == x;
      assert s[i + 1] == x;
    }
  }

  lemma {:induction false} SnocSet(s: seq<int>, x: int)
    requires Distinct(s) && x !in SetOf(s)
    ensures Distinct(s + [x]) && SetOf(s + [x]) == SetOf(s) + {x}
  {
  }

  // ------------------------------------------------------ every step keeps them

  lemma {:induction false} MoveCounts(m: map<nat, Worker>, t: nat, w: Worker)
    requires t in m
    ensures forall k {:trigger At(m, k)} {:trigger At(m[t := w], k)} ::
      |At(m[t := w], k)| == |At(m, k)| - (if KindOf(m[t]) == k then 1 else 0) + (if KindOf(w) == k then 1 else 0)
  {
    forall k {
      AtMove(m, t, w, k);
    }
  }

  lemma {:induction false} InKind(m: map<nat, Worker>, t: nat)
    requires t in m
    ensures |At(m, KindOf(m[t]))| > 0
  {
    assert t in At(m, KindOf(m[t]));
  }

  /** A worker past its semaphore finds a task. */
  lemma {:induction false} TokenMeansTask(c: Config, s: State, t: nat)
    requires QueueInv(c, s) && t in s.workers && s.workers[t].HasToken?
    ensures s.queue != []
  {
    InKind(s.workers, t);
  }

  /** A worker past the reserve semaphore finds a connection. */
  lemma {:induction false} TokenMeansCon(c: Config, s: State, t: nat)
    requires CountInv(c, s) && t in s.workers && s.workers[t].HasConToken?
    ensures s.conList != []
  {
    InKind(s.workers, t);
  }

  lemma {:induction false} QueueKept(c: Config, s: State, e: Step)
    requires Inv(c, s) && Next(c, s, e).Some?
    ensures QueueInv(c, Next(c, s, e).value)
  {
    hide TaskInv, ConOrder, PartitionInv, CountInv, At, Pending;
    if e.Append? {
      PendingMove(s.appenders, e.a, Pushed);
      assert s.dequeued + (s.queue + [e.task]) == s.dequeued + s.queue + [e.task];
    } else if e.PostTask? {
      PendingMove(s.appenders, e.a, Idle);
    } else {
      MoveCounts(s.workers, e.t, Next(c, s, e).value.workers[e.t]);
      if e.TakeTask? {
        TokenMeansTask(c, s, e.t);
        assert s.dequeued + [s.queue[0]] + s.queue[1..] == s.dequeued + s.queue;
      }
    }
  }

  lemma {:induction false} CountKept(c: Config, s: State, e: Step)
    requires Inv(c, s) && Next(c, s, e).Some?
    ensures CountInv(c, Next(c, s, e).value)
  {
    hide TaskInv, ConOrder, PartitionInv, QueueInv, At, Pending;
    if !e.Append? && !e.PostTask? {
      MoveCounts(s.workers, e.t, Next(c, s, e).value.workers[e.t]);
      if e.TakeCon? {
        TokenMeansCon(c, s, e.t);
      }
    }
  }

  lemma {:induction false} ThreadsKept(c: Config, s: State, e: Step)
    requires Inv(c, s) && Next(c, s, e).Some?
    ensures Threads(c, Next(c, s, e).value)
  {
    hide TaskInv, ConOrder, PartitionInv, QueueInv, At, Pending;
    if e.TakeCon? && s.workers[e.t].HasConToken? {
      TokenMeansCon(c, s, e.t);
    }
  }

  lemma {:induction false} PartitionKept(c: Config, s: State, e: Step)
    requires Inv(c, s) && Next(c, s, e).Some?
    ensures PartitionInv(c, Next(c, s, e).value)
  {
    hide TaskInv, ConOrder, QueueInv, At, Pending, Held, SetOf;
    match e
    case Append(_, _) =>
    case PostTask(_) =>
    case TakeCon(t) =>
      TokenMeansCon(c, s, t);
      TailSet(s.conList);
      HeldGains(s.workers, t, Working(s.workers[t].task, s.conList[0]));
      HolderIn(s.workers);
    case PutCon(t) =>
      HeldLoses(s.workers, t, Returned);
      SnocSet(s.conList, s.workers[t].con);
    case _ =>
      HeldStays(s.workers, e.t, Next(c, s, e).value.workers[e.t]);
  }

  lemma {:induction false} DoingMove(m: map<nat, Worker>, t: nat, w: Worker, task: nat)
    requires t in m
    ensures |Doing(m[t := w], task)|
         == |Doing(m, task)| - (if TaskOf(m[t]) == Some(task) then 1 else 0)
            + (if TaskOf(w) == Some(task) then 1 else 0)
  {
    var rest := Doing(m, task) - {t};
    assert Doing(m[t := w], task) == if TaskOf(w) == Some(task) then rest + {t} else rest;
    assert Doing(m, task) == if TaskOf(m[t]) == Some(task) then rest + {t} else rest;
  }

  lemma CountSnoc(s: seq<nat>, x: nat, task: nat)
    ensures Count(s + [x], task) == Count(s, task) + if x == task then 1 else 0
  {
  }

  lemma {:induction false} TaskKept(c: Config, s: State, e: Step, task: nat)
    requires Inv(c, s) && Next(c, s, e).Some?
    ensures TaskDone(Next(c, s, e).value, task)
  {
    hide PartitionInv, CountInv, QueueInv, Doing, Count, ConOrder;
    assert TaskDone(s, task);
    if !e.Append? && !e.PostTask? {
      var n := Next(c, s, e).value;
      DoingMove(s.workers, e.t, n.workers[e.t], task);
      if e.TakeTask? && s.queue != [] {
        CountSnoc(s.dequeued, s.queue[0], task);
      } else if e.PutCon? || e.FinishWithout? {
        CountSnoc(s.finished, TaskOf(s.workers[e.t]).value, task);
      } else if e.TakeCon? {
        TokenMeansCon(c, s, e.t);
      }
    }
  }

  lemma {:induction false} ConOrderKept(c: Config, s: State, e: Step)
    requires Inv(c, s) && Next(c, s, e).Some?
    ensures ConOrder(c, Next(c, s, e).value)
  {
    hide PartitionInv, CountInv, QueueInv, TaskInv;
    if e.TakeCon? && s.conList != [] {
      assert s.given + [s.conList[0]] + s.conList[1..] == s.given + s.conList;
    } else if e.PutCon? && s.workers[e.t].Working? {
      var con := s.workers[e.t].con;
      assert s.given + (s.conList + [con]) == s.given + s.conList + [con];
      assert c.cons + (s.returned + [con]) == c.cons + s.returned + [con];
    }
  }

  lemma HolderIn(m: map<nat, Worker>)
    ensures forall t :: t in m && m[t].Working? ==> m[t].con in Held(m)
  {
  }

  lemma {:induction false} StepKeeps(c: Config, s: State, e: Step)
    requires Inv(c, s) && Next(c, s, e).Some?
    ensures Inv(c, Next(c, s, e).value)
  {
    hide Next, Threads, QueueInv, CountInv, PartitionInv, ConOrder, TaskDone;
    forall task ensures TaskDone(Next(c, s, e).value, task) {
      TaskKept(c, s, e, task);
    }
    ConOrderKept(c, s, e);
    QueueKept(c, s, e);
    CountKept(c, s, e);
    ThreadsKept(c, s, e);
    PartitionKept(c, s, e);
  }

  /** Every interleaving keeps the token counts, the order of the tasks and the partition of the
      connections. */
  lemma {:induction false} EveryInterleaving(c: Config, steps: seq<Step>)
    requires Distinct(c.cons) && Exec(c, steps).Some?
    ensures Inv(c, Exec(c, steps).value)
    decreases |steps|
  {
    hide Inv, Next;
    if steps == [] {
      InitialInv(c);
    } else {
      EveryInterleaving(c, steps[..|steps| - 1]);
      StepKeeps(c, Exec(c, steps[..|steps| - 1]).value, steps[|steps| - 1]);
    }
  }

  // ------------------------------------------------------------- never blocking

  /** No worker has been handed NULL, none is about to be, and none waits at the semaphore. */
  predicate Unblocked(s: State) {
    forall t :: t in s.workers ==>
      && !s.workers[t].NoCon?
      && (s.workers[t].HasTask? ==> s.conList != [])
      && (s.workers[t].MayWait? ==> s.reserve > 0)
  }

  lemma {:induction false} Subset(a: set<nat>, b: set<nat>)
    requires a <= b
    ensures |a| <= |b|
  {
    assert b == a + (b - a);
  }

  /** A worker without a connection leaves at most the other workers' tokens outstanding. */
  lemma {:induction false} Outstanding(c: Config, s: State, t: nat)
    requires Threads(c, s) && t in s.workers && KindOf(s.workers[t]) == KOther
    ensures |At(s.workers, KWorking)| + |At(s.workers, KConToken)| + |At(s.workers, KReturned)| < |c.workers|
  {
    var a, b, d := At(s.workers, KWorking), At(s.workers, KConToken), At(s.workers, KReturned);
    assert a !! b && (a + b) !! d;
    Subset(a + b + d, c.workers - {t});
  }

  lemma {:induction false} EnoughConnections(c: Config, s: State, t: nat)
    requires Inv(c, s) && |c.workers| <= |c.cons|
    requires t in s.workers && (s.workers[t].HasTask? || s.workers[t].MayWait?)
    ensures s.conList != [] && s.reserve > 0
  {
    Outstanding(c, s, t);
  }

  lemma {:induction false} NoNullHandedOut(c: Config, steps: seq<Step>)
    requires Distinct(c.cons) && |c.workers| <= |c.cons| && Exec(c, steps).Some?
    ensures forall t :: t in Exec(c, steps).value.workers ==> !Exec(c, steps).value.workers[t].NoCon?
    decreases |steps|
  {
    hide QueueInv, CountInv, PartitionInv;
    if steps != [] {
      var before, e := steps[..|steps| - 1], steps[|steps| - 1];
      NoNullHandedOut(c, before);
      EveryInterleaving(c, before);
      var s := Exec(c, before).value;
      if e.CheckFree? && e.t in s.workers && s.workers[e.t].HasTask? {
        EnoughConnections(c, s, e.t);
      }
    }
  }

  /** With at most as many workers as connections no interleaving blocks or hands out NULL. */
  lemma {:induction false} NeverBlocks(c: Config, steps: seq<Step>)
    requires Distinct(c.cons) && |c.workers| <= |c.cons| && Exec(c, steps).Some?
    ensures Unblocked(Exec(c, steps).value)
  {
    hide QueueInv, CountInv, PartitionInv;
    NoNullHandedOut(c, steps);
    EveryInterleaving(c, steps);
    var s := Exec(c, steps).value;
    forall t | t in s.workers && (s.workers[t].HasTask? || s.workers[t].MayWait?)
      ensures s.conList != [] && s.reserve > 0
    {
      EnoughConnections(c, s, t);
    }
  }

  /** The safety the token counts give: a taken list is never empty, no connection is in two
      hands, and every accepted task is taken once, in order. */
  lemma {:induction false} TokensAreGood(c: Config, steps: seq<Step>, t: nat)
    requires Distinct(c.cons) && Exec(c, steps).Some?
    ensures var s := Exec(c, steps).value;
      && (t in s.workers && s.workers[t].HasToken? ==> s.queue != [])
      && (t in s.workers && s.workers[t].HasConToken? ==> s.conList != [])
      && (t in s.workers && s.workers[t].Working? ==>
            && s.workers[t].con !in s.conList && s.workers[t].con in c.cons
            && forall u :: u in s.workers && u != t && s.workers[u].Working? ==> s.workers[u].con != s.workers[t].con)
      && s.dequeued + s.queue == s.accepted && |s.queue| <= c.maxRequest
  {
    hide At, Pending;
    EveryInterleaving(c, steps);
    var s := Exec(c, steps).value;
    if t in s.workers {
      if s.workers[t].HasToken? {
        TokenMeansTask(c, s, t);
      } else if s.workers[t].HasConToken? {
        TokenMeansCon(c, s, t);
      } else if s.workers[t].Working? {
        HolderIn(s.workers);
        assert s.workers[t].con in SetOf(s.conList) + Held(s.workers);
      }
    }
  }

  /** Every task that append accepted is, in every interleaving, as often as it was accepted in the queue,
      in the hands of a worker, or finished; none is processed twice and none is forgotten. */
  lemma {:induction false} EachTaskOnce(c: Config, steps: seq<Step>, task: nat)
    requires Distinct(c.cons) && Exec(c, steps).Some? && task != NULL_TASK
    ensures var s := Exec(c, steps).value;
      Count(s.accepted, task) == Count(s.queue, task) + |Doing(s.workers, task)| + Count(s.finished, task)
  {
    hide At, Pending, Exec;
    EveryInterleaving(c, steps);
    var s := Exec(c, steps).value;
    assert TaskDone(s, task);
    CountConcat(s.dequeued, s.queue, task);
  }

  lemma CountConcat(a: seq<nat>, b: seq<nat>, task: nat)
    ensures Count(a + b, task) == Count(a, task) + Count(b, task)
  {
  }

  // ------------------------------------------------ too few connections do block

  lemma {:induction false} OneMoreStep(c: Config, steps: seq<Step>, e: Step) returns (more: seq<Step>)
    requires Exec(c, steps).Some? && Next(c, Exec(c, steps).value, e).Some?
    ensures Exec(c, more) == Next(c, Exec(c, steps).value, e)
  {
    hide Next;
    more := steps + [e];
    assert more[..|more| - 1] == steps;
  }

  /** The first k workers of `ws` hold the first k connections; everyone else is at rest. */
  predicate Saturated(c: Config, s: State, ws: seq<nat>, k: nat) {
    && k <= |ws| && k <= |c.cons|
    && s.workers.Keys == c.workers && s.appenders.Keys == c.appenders
    && (forall a :: a in s.appenders ==> s.appenders[a].Idle?)
    && (forall i {:trigger ws[i]} :: k <= i < |ws| ==> ws[i] in s.workers && s.workers[ws[i]].AtTop?)
    && s.queue == [] && s.queueSem == 0 && s.conList == c.cons[k..] && s.reserve == |c.cons| - k
  }

  /** A worker at rest is given a task, up to the size check. */
  lemma {:induction false} GiveTask(c: Config, steps: seq<Step>, a: nat, t: nat) returns (more: seq<Step>)
    requires Exec(c, steps).Some? && c.maxRequest > 0
    requires var s := Exec(c, steps).value;
      && a in s.appenders && s.appenders[a].Idle? && t in s.workers && s.workers[t].AtTop?
      && s.queue == [] && s.queueSem == 0
    ensures Exec(c, more).Some?
    ensures var (s, n) := (Exec(c, steps).value, Exec(c, more).value);
      && n.workers == s.workers[t := HasTask(1)] && n.appenders == s.appenders
      && n.queue == [] && n.queueSem == 0 && n.conList == s.conList && n.reserve == s.reserve
  {
    more := OneMoreStep(c, steps, Append(a, 1));
    more := OneMoreStep(c, more, PostTask(a));
    more := OneMoreStep(c, more, WaitTask(t));
    more := OneMoreStep(c, more, TakeTask(t));
    var s := Exec(c, steps).value;
    assert s.appenders[a := Pushed][a := Idle] == s.appenders;
    assert s.workers[t := HasToken][t := HasTask(1)] == s.workers[t := HasTask(1)];
  }

  /** A worker with a task gets the first connection. */
  lemma {:induction false} GiveConnection(c: Config, steps: seq<Step>, t: nat) returns (more: seq<Step>)
    requires Exec(c, steps).Some?
    requires var s := Exec(c, steps).value;
      t in s.workers && s.workers[t].HasTask? && s.conList != [] && s.reserve > 0
    ensures Exec(c, more).Some?
    ensures var (s, n) := (Exec(c, steps).value, Exec(c, more).value);
      && n.workers == s.workers[t := Working(s.workers[t].task, s.conList[0])] && n.appenders == s.appenders
      && n.queue == s.queue && n.queueSem == s.queueSem && n.conList == s.conList[1..] && n.reserve == s.reserve - 1
  {
    var s := Exec(c, steps).value;
    more := OneMoreStep(c, steps, CheckFree(t));
    more := OneMoreStep(c, more, WaitCon(t));
    more := OneMoreStep(c, more, TakeCon(t));
    var task := s.workers[t].task;
    assert s.workers[t := MayWait(task)][t := HasConToken(task)][t := Working(task, s.conList[0])]
        == s.workers[t := Working(task, s.conList[0])];
  }

  lemma {:induction false} Saturate(c: Config, ws: seq<nat>, a: nat, k: nat) returns (steps: seq<Step>)
    requires c.maxRequest > 0 && a in c.appenders && k <= |ws| && k <= |c.cons|
    requires (forall i, j :: 0 <= i < j < |ws| ==> ws[i] != ws[j]) && (forall i :: 0 <= i < |ws| ==> ws[i] in c.workers)
    ensures Exec(c, steps).Some? && Saturated(c, Exec(c, steps).value, ws, k)
  {
    if k == 0 {
      steps := [];
    } else {
      hide Exec;
      steps := Saturate(c, ws, a, k - 1);
      var t := ws[k - 1];
      steps := GiveTask(c, steps, a, t);
      steps := GiveConnection(c, steps, t);
      assert c.cons[k - 1..][1..] == c.cons[k..];
      var n := Exec(c, steps).value;
      assert n.workers.Keys == c.workers;
      forall i | k <= i < |ws| ensures ws[i] in n.workers && n.workers[ws[i]].AtTop? {
        assert ws[k - 1] != ws[i];
      }
    }
  }

  lemma {:induction false} SomeWorkers(all: set<nat>, n: nat) returns (ws: seq<nat>)
    requires n <= |all|
    ensures |ws| == n && (forall i, j :: 0 <= i < j < n ==> ws[i] != ws[j]) && (forall i :: 0 <= i < n ==> ws[i] in all)
  {
    if n == 0 {
      ws := [];
    } else {
      var t :| t in all;
      ws := SomeWorkers(all - {t}, n - 1);
      ws := ws + [t];
    }
  }

  /** One worker more than there are connections, and some interleaving hands out NULL. */
  lemma {:induction false} TooManyWorkers(c: Config, a: nat) returns (steps: seq<Step>, t: nat)
    requires c.maxRequest > 0 && a in c.appenders && |c.workers| > |c.cons|
    ensures Exec(c, steps).Some? && t in Exec(c, steps).value.workers && Exec(c, steps).value.workers[t].NoCon?
  {
    var n := |c.cons|;
    var ws := SomeWorkers(c.workers, n + 1);
    t := ws[n];
    steps := Saturate(c, ws, a, n);
    steps := GiveTask(c, steps, a, t);
    steps := OneMoreStep(c, steps, CheckFree(t));
  }

  /** The pools compose without blocking exactly when there is a connection for every worker. */
  lemma {:induction false} NeverBlocksIff(c: Config)
    requires Distinct(c.cons) && c.maxRequest > 0 && c.appenders != {}
    ensures (forall steps :: Exec(c, steps).Some? ==> Unblocked(Exec(c, steps).value)) <==> |c.workers| <= |c.cons|
  {
    hide Exec, Next;
    if |c.workers| <= |c.cons| {
      forall steps | Exec(c, steps).Some? ensures Unblocked(Exec(c, steps).value) {
        NeverBlocks(c, steps);
      }
    } else {
      var a :| a in c.appenders;
      var steps, t := TooManyWorkers(c, a);
      assert !Unblocked(Exec(c, steps).value);
    }
  }
}
