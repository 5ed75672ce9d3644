/** The main loop with its clock and the holders of connections in one run: a timer takes a connection
    from the queue or a worker only when it has been there for long, or when the timer is stale. */
module TimedOwnership {
  import opened Common
  import O = Ownership
  import E = EventLoop

  /** One step of the run; a tick closes all its connections at once. */
  datatype Act = Do(step: O.Step, now: int, id: nat) | Ticked(now: int)

  /** `readAt` is when each connection was last read and queued, `touched` when it was last accepted, or
      read or written with success. */
  datatype Joint = Joint(own: O.State, ev: seq<E.Event<nat>>, readAt: map<int, int>, touched: map<int, int>)

  function Initial(workers: set<nat>): Joint {
    Joint(O.Initial(workers), [], map[], map[])
  }

  /** What a step is to the main loop and its timers. */
  function EventOf(s: O.State, step: O.Step, now: int, id: nat): Option<E.Event<nat>> {
    match step
    case Accept(fd) => Some(E.Accept(fd, now, id))
    case Enqueue => if s.main.Some? then Some(E.Active(s.main.value, now)) else None
    case Drop => if s.main.Some? then Some(E.Active(s.main.value, now)) else None
    case MainRearm => if s.main.Some? then Some(E.Active(s.main.value, now)) else None
    case MainClose => if s.main.Some? then Some(E.Gone(s.main.value)) else None
    case WorkerClose(t) =>
      if t in s.workers && s.workers[t].Processing? then Some(E.WorkerClose(s.workers[t].fd)) else None
    case _ => None
  }

  function CloseAll(s: O.State, fds: set<int>): O.State {
    s.(open := s.open - fds, armed := s.armed - fds)
  }

  /** The descriptors a tick closes. */
  function Closes(ev: seq<E.Event<nat>>, now: int): set<int>
    requires E.Possible(ev)
  {
    SetOf(E.Fds(E.Fired(E.Run(ev), now)))
  }

  /** An accept, a successful read, whether the queue has room or not, and a successful write count. */
  function Touch(j: Joint, step: O.Step, now: int): map<int, int> {
    match step
    case Accept(fd) => j.touched[fd := now]
    case Enqueue => if j.own.main.Some? then j.touched[j.own.main.value := now] else j.touched
    case Drop => if j.own.main.Some? then j.touched[j.own.main.value := now] else j.touched
    case MainRearm => if j.own.main.Some? then j.touched[j.own.main.value := now] else j.touched
    case _ => j.touched
  }

  function Next(j: Joint, a: Act): Option<Joint>
    requires E.Possible(j.ev)
  {
    match a
    case Ticked(now) =>
      if j.own.main.Some? || now < E.Run(j.ev).clock then None
      else Some(j.(own := CloseAll(j.own, Closes(j.ev, now)), ev := j.ev + [E.Tick(now)]))
    case Do(step, now, id) =>
      if step.TickClose? || (step.Accept? && E.Run(j.ev).count >= E.MAX_FD) then None
      else
        match O.Next(j.own, step)
        case None => None
        case Some(o) =>
          var readAt := if step.Enqueue? && j.own.main.Some? then j.readAt[j.own.main.value := now] else j.readAt;
          var touched := Touch(j, step, now);
          match EventOf(j.own, step, now, id)
          case None => Some(Joint(o, j.ev, readAt, touched))
          case Some(e) =>
            if E.Enabled(E.Run(j.ev), e) then Some(Joint(o, j.ev + [e], readAt, touched)) else None
  }

  // ------------------------------------------------------------------- the runs

  /** A connection that is queued or being processed. */
  predicate Held(s: O.State, fd: int) {
    fd in s.queue || exists t :: t in s.workers && s.workers[t] == O.Processing(fd)
  }

  /** Every held connection was read, not later than its last activity; both models have the same
      descriptors open and the same activity. */
  predicate Inv(j: Joint) {
    && E.Possible(j.ev)
    && j.own.open == E.Run(j.ev).open
    && (forall fd :: fd in j.readAt ==> j.readAt[fd] <= E.LastActive(j.ev, fd) <= E.Run(j.ev).clock)
    && (forall fd :: fd in j.touched ==> j.touched[fd] == E.LastActive(j.ev, fd))
    && j.own.open <= j.touched.Keys
    && (forall fd :: fd in j.own.queue ==> fd in j.readAt)
    && (forall t :: t in j.own.workers && j.own.workers[t].Processing? ==> j.own.workers[t].fd in j.readAt)
  }

  lemma {:induction false} Snoc(ev: seq<E.Event<nat>>, e: E.Event<nat>)
    requires E.Possible(ev) && E.Enabled(E.Run(ev), e)
    ensures E.Possible(ev + [e]) && E.Run(ev + [e]) == E.Step(E.Run(ev), e)
    ensures var more := ev + [e];
      forall fd {:trigger E.LastActive(more, fd)} ::
        E.LastActive(more, fd) == if (e.Accept? || e.Active?) && e.fd == fd then e.now else E.LastActive(ev, fd)
  {
    hide E.Step, E.Enabled;
    assert E.Front(ev + [e]) == ev && E.Last(ev + [e]) == e;
  }

  /** Time does not run backwards, and no activity is later than the clock. */
  lemma {:induction false} ClockGrows(s: E.State<nat>, e: E.Event<nat>)
    requires E.Inv(s) && E.Enabled(s, e)
    ensures s.clock <= E.Step(s, e).clock
    ensures e.Accept? || e.Active? || e.Tick? ==> E.Step(s, e).clock == e.now
  {
    hide E.Find, E.Put;
  }

  /** What a step of the main loop does to the open descriptors. */
  lemma {:induction false} OpenStep(s: E.State<nat>, e: E.Event<nat>)
    requires E.Inv(s) && E.Enabled(s, e)
    ensures E.Step(s, e).open ==
      match e
      case Accept(fd, _, _) => if s.count >= E.MAX_FD then s.open else s.open + {fd}
      case Gone(fd) => s.open - {fd}
      case Active(_, _) => s.open
      case Tick(now) => s.open - SetOf(E.Fds(E.Fired(s, now)))
      case WorkerClose(fd) => s.open - {fd}
  {
    hide E.Find, E.Put;
  }

  lemma {:induction false} TickKeeps(j: Joint, now: int)
    requires Inv(j) && Next(j, Ticked(now)).Some?
    ensures Inv(Next(j, Ticked(now)).value)
  {
    hide E.Step, E.Run, E.LastActive, E.Fired, E.Fds, E.Inv;
    var s, e := E.Run(j.ev), E.Tick(now);
    Snoc(j.ev, e);
    RunInv(j.ev);
    OpenStep(s, e);
    ClockGrows(s, e);
  }

  lemma RunInv(ev: seq<E.Event<nat>>)
    requires E.Possible(ev)
    ensures E.Inv(E.Run(ev))
  {
  }

  /** What a step of the holders does to queue, workers and open descriptors. */
  lemma {:induction false} OwnStep(s: O.State, step: O.Step, now: int, id: nat)
    requires !step.TickClose? && O.Next(s, step).Some?
    ensures var n := O.Next(s, step).value; var e := EventOf(s, step, now, id);
      && (forall fd :: fd in n.queue ==> fd in s.queue || (step.Enqueue? && s.main == Some(fd)))
      && (forall t :: t in n.workers && n.workers[t].Processing? ==>
            (t in s.workers && s.workers[t] == n.workers[t]) || n.workers[t].fd in s.queue)
      && n.open == (match e
         case None => s.open
         case Some(Accept(fd, _, _)) => s.open + {fd}
         case Some(Gone(fd)) => s.open - {fd}
         case Some(WorkerClose(fd)) => s.open - {fd}
         case Some(_) => s.open)
  {
  }

  lemma {:induction false} DoKeeps(j: Joint, a: Act)
    requires Inv(j) && a.Do? && Next(j, a).Some?
    ensures Inv(Next(j, a).value)
  {
    hide E.Step, E.Run, E.LastActive, E.Fired, E.Fds, E.Inv, O.Next, E.Enabled;
    OwnStep(j.own, a.step, a.now, a.id);
    RunInv(j.ev);
    var e := EventOf(j.own, a.step, a.now, a.id);
    if e.Some? {
      Snoc(j.ev, e.value);
      OpenStep(E.Run(j.ev), e.value);
      ClockGrows(E.Run(j.ev), e.value);
      ActiveLater(j, e.value);
    }
  }

  /** The last activity of a connection is not later than its next one. */
  lemma {:induction false} ActiveLater(j: Joint, e: E.Event<nat>)
    requires Inv(j) && E.Enabled(E.Run(j.ev), e)
    ensures e.Accept? || e.Active? ==> E.Run(j.ev).clock <= e.now
  {
  }

  /** The time bound: a tick closes a queued or processed connection only if it was read at least 3 *
      TIMESLOT ago, or a stale timer for it has expired. */
  lemma {:induction false} HeldForLong(j: Joint, now: int, fd: int)
    requires Inv(j) && Next(j, Ticked(now)).Some? && Held(j.own, fd) && fd in j.own.open
    requires fd !in Next(j, Ticked(now)).value.own.open
    ensures fd in j.readAt && fd in E.Run(j.ev).timerOf
    ensures j.readAt[fd] <= now - E.IDLE_LIMIT || E.StaleTimer(E.Run(j.ev), fd, now)
  {
    hide E.Step, E.Run, E.LastActive, E.Fired, E.Fds, E.StaleTimer, E.Inv;
    E.IdleGuarantee(j.ev, now);
    RunInv(j.ev);
    Snoc(j.ev, E.Tick(now));
    OpenStep(E.Run(j.ev), E.Tick(now));
  }

  // --------------------------------------------------------------- prompt runs

  /** Every connection that is still held at a tick was read less than 3 * TIMESLOT ago and has no
      expired stale timer; no descriptor is reused while the worker that closed it is in process(). */
  predicate Prompt(j: Joint, a: Act)
    requires Inv(j)
  {
    match a
    case Ticked(now) =>
      forall fd :: fd in j.readAt && Held(j.own, fd) && fd in E.Run(j.ev).timerOf ==>
        j.readAt[fd] > now - E.IDLE_LIMIT && !E.StaleTimer(E.Run(j.ev), fd, now)
    case Do(step, _, _) =>
      step.Accept? ==> forall t :: t in j.own.workers ==> j.own.workers[t] != O.Closing(step.fd)
  }

  /** The states of a run, if every one of its steps can be made. */
  function Exec(workers: set<nat>, acts: seq<Act>): (j: Option<Joint>)
    ensures j.Some? ==> Inv(j.value)
    decreases |acts|
  {
    if acts == [] then
      InitialInv(workers);
      Some(Initial(workers))
    else
      match Exec(workers, acts[..|acts| - 1])
      case None => None
      case Some(j) =>
        StepKeeps(j, acts[|acts| - 1]);
        Next(j, acts[|acts| - 1])
  }

  lemma InitialInv(workers: set<nat>)
    ensures Inv(Initial(workers))
  {
    hide E.Run, E.Possible, E.LastActive, E.Inv, E.Step;
    E.NothingYet<nat>();
  }

  lemma IsPossible(j: Joint)
    requires Inv(j)
    ensures E.Possible(j.ev)
  {
  }

  lemma {:induction false} StepKeeps(j: Joint, a: Act)
    requires Inv(j)
    ensures Next(j, a).Some? ==> Inv(Next(j, a).value)
  {
    hide Next, Inv;
    IsPossible(j);
    if Next(j, a).Some? {
      match a
      case Ticked(now) => TickKeeps(j, now);
      case Do(_, _, _) => DoKeeps(j, a);
    }
  }

  predicate PromptRun(workers: set<nat>, acts: seq<Act>)
    requires Exec(workers, acts).Some?
    decreases |acts|
  {
    acts != [] ==>
      var before := acts[..|acts| - 1];
      PromptRun(workers, before) && Prompt(Exec(workers, before).value, acts[|acts| - 1])
  }

  /** A tick that closes nothing that is held leaves one holder. */
  lemma {:induction false} CloseUnheld(s: O.State, fds: set<int>)
    requires O.OneHolder(s) && O.HeldIsOpen(s) && s.main == None
    requires forall fd :: fd in fds && fd in s.open ==> !Held(s, fd)
    ensures O.OneHolder(CloseAll(s, fds)) && O.HeldIsOpen(CloseAll(s, fds))
  {
    hide O.Hands;
    var n := CloseAll(s, fds);
    forall fd ensures O.Holders(n, fd) <= 1 {
      assert O.Holders(s, fd) <= 1;
    }
  }

  lemma {:induction false} PromptStep(j: Joint, a: Act)
    requires Inv(j) && O.OneHolder(j.own) && O.HeldIsOpen(j.own) && Prompt(j, a) && Next(j, a).Some?
    ensures O.OneHolder(Next(j, a).value.own) && O.HeldIsOpen(Next(j, a).value.own)
  {
    hide O.OneHolder, O.Next, Inv, E.Possible, E.Run, E.StaleTimer;
    IsPossible(j);
    match a
    case Ticked(now) =>
      forall fd | fd in Closes(j.ev, now) && fd in j.own.open ensures !Held(j.own, fd) {
        if Held(j.own, fd) {
          HeldForLong(j, now, fd);
        }
      }
      CloseUnheld(j.own, Closes(j.ev, now));
    case Do(step, _, _) =>
      O.CarefulStep(j.own, step);
      O.StepIff(j.own, step);
  }

  /** The one-shot guarantee with the clock: in every run in which requests are answered within 3 *
      TIMESLOT of their read, no stale timer expires for one that is not, and no descriptor is
      reused too early, each connection has at most one holder. */
  lemma {:induction false} PromptRunsHaveOneHolder(workers: set<nat>, acts: seq<Act>)
    requires Exec(workers, acts).Some? && PromptRun(workers, acts)
    ensures O.OneHolder(Exec(workers, acts).value.own) && O.HeldIsOpen(Exec(workers, acts).value.own)
    decreases |acts|
  {
    hide O.OneHolder, O.HeldIsOpen, Next, Inv, Prompt;
    if acts == [] {
      O.InitialOne(workers);
      O.InitialOpen(workers);
    } else {
      var before := acts[..|acts| - 1];
      PromptRunsHaveOneHolder(workers, before);
      PromptStep(Exec(workers, before).value, acts[|acts| - 1]);
    }
  }

  predicate NeverDrops(acts: seq<Act>) {
    forall i :: 0 <= i < |acts| ==> !(acts[i].Do? && acts[i].step.Drop?)
  }

  lemma {:induction false} CloseKeeps(s: O.State, fds: set<int>)
    requires O.Kept(s)
    ensures O.Kept(CloseAll(s, fds))
  {
    hide O.Hands;
    var n := CloseAll(s, fds);
    forall fd | fd in n.open ensures O.Holders(n, fd) >= 1 {
      assert O.Holders(s, fd) >= 1;
    }
  }

  /** And none of them is lost, when the work queue is never full. */
  lemma {:induction false} NoneIsLost(workers: set<nat>, acts: seq<Act>)
    requires Exec(workers, acts).Some? && NeverDrops(acts)
    ensures O.Kept(Exec(workers, acts).value.own)
    decreases |acts|
  {
    hide O.Kept, Next, Inv;
    if acts == [] {
      NothingOpen(workers);
    } else {
      var before, a := acts[..|acts| - 1], acts[|acts| - 1];
      NoneIsLost(workers, before);
      KeepsAll(Exec(workers, before).value, a);
    }
  }

  lemma {:induction false} KeepsAll(j: Joint, a: Act)
    requires Inv(j) && O.Kept(j.own) && Next(j, a).Some? && !(a.Do? && a.step.Drop?)
    ensures O.Kept(Next(j, a).value.own)
  {
    hide O.Kept, O.Next, Inv, E.Possible, E.Run, O.Holders;
    IsPossible(j);
    match a
    case Ticked(now) => CloseKeeps(j.own, Closes(j.ev, now));
    case Do(step, _, _) => O.KeptIff(j.own, step);
  }

  lemma NothingOpen(workers: set<nat>)
    ensures O.Kept(O.Initial(workers))
  {
  }

  /** In such a run each open connection has exactly one holder. */
  lemma {:induction false} ExactlyOneHolder(workers: set<nat>, acts: seq<Act>, fd: int)
    requires Exec(workers, acts).Some? && PromptRun(workers, acts) && NeverDrops(acts)
    requires fd in Exec(workers, acts).value.own.open
    ensures O.Holders(Exec(workers, acts).value.own, fd) == 1
  {
    hide Exec, O.Holders;
    PromptRunsHaveOneHolder(workers, acts);
    NoneIsLost(workers, acts);
  }
}
