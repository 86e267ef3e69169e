/**
 * The scheduler, its workers, their fibers, the event slots and the sleep timers as one interleaved
 * machine. A step is what happens between two acquisitions of the scheduler's lock, or one change of
 * the fiber that a thread runs.
 */
module SchedulerSpec {
  datatype Option<+T> = None | Some(value: T)

  type Fiber = nat

  datatype FState = INIT | HOLD | EXEC | TERM | READY | EXCEPT

  /** Something to schedule: a fiber, a callback that schedules a fiber, or any other callback. */
  datatype Item = Vacant | Plain | Resume(fiber: Fiber) | Wake(fiber: Fiber)

  /** FiberAndThread: the pin is the index of the worker that alone may take it. */
  datatype Task = Task(item: Item, pin: Option<nat>)

  /**
   * Where a worker is in `run`. `Run` says which fiber it runs, whether that is its callback fiber,
   * which fiber the running callback is still going to schedule, and whether the fiber has handed
   * itself to an event, a timer or the queue, so that the next thing it does is yield to HOLD. An idle
   * fiber that looks whether to end reads one thing after the other: `Asked` has found no timer,
   * `Cleared` no event either.
   */
  datatype Pc =
    | NotStarted
    | Skipped
    | Scan
    | Picked(task: Task)
    | Run(fiber: Fiber, cb: bool, wake: Option<Fiber>, bound: bool)
    | Returned(fiber: Fiber, cb: bool, ready: bool)
    | Requeue(fiber: Fiber, cb: bool)
    | Nothing
    | Idle(held: seq<Item>)
    | Asked
    | Cleared
    | Left

  datatype Worker = Worker(pc: Pc, idleDone: bool, cbFiber: Option<Fiber>)

  datatype State = State(
    fibers: map<Fiber, FState>,
    queue: seq<Task>,            // m_fibers
    workers: seq<Worker>,
    root: Option<nat>,           // the worker that the caller of stop becomes
    active: int,                 // m_activeThreadCount
    slots: seq<Item>,            // event contexts
    timers: seq<Item>,           // in the order of their deadlines
    polls: bool,                 // the idle fibers are those of IOManager
    stopped: bool,               // m_autoStop and m_stopping
    failed: bool,                // an assertion has failed
    granted: multiset<Fiber>,    // handles made so far: at creation, when waiting, when yielding
    resumed: multiset<Fiber>,    // fibers switched to so far by their handle
    dropped: multiset<Fiber>)    // handles destroyed by delEvent

  datatype Action =
    | Outside(task: Task)
    | OutsideFire(slot: nat)
    | Stop
    | Start(w: nat)
    | Skip(w: nat)
    | Take(w: nat)
    | Go(w: nat, made: Fiber)
    | Spawn(w: nat, task: Task)
    | WakeUp(w: nat)
    | Await(w: nat, slot: nat)
    | OnEvent(w: nat, slot: nat)
    | Sleep(w: nat, at: nat)
    | OnTimer(w: nat, at: nat)
    | CancelTimer(w: nat, at: nat)
    | Reschedule(w: nat, pin: Option<nat>)
    | Fire(w: nat, slot: nat)
    | Remove(w: nat, slot: nat)
    | YieldHold(w: nat)
    | YieldReady(w: nat)
    | Finish(w: nat, thrown: bool)
    | Decrement(w: nat)
    | PutBack(w: nat)
    | Enter(w: nat)
    | AskTimers(w: nat)
    | AskEvents(w: nat)
    | Decline(w: nat)
    | IdleExit(w: nat)
    | Collect(w: nat, count: nat)
    | Batch(w: nat)
    | Back(w: nat)

  /** Scheduler::stopping. */
  predicate Stopping(s: State) {
    s.stopped && s.queue == [] && s.active == 0
  }

  /** m_pendingEventCount is 0. */
  predicate NoEvents(s: State) {
    forall i :: 0 <= i < |s.slots| ==> s.slots[i] == Vacant
  }

  /** Whether the scan of worker `w` takes this task: not another's, and not a fiber still running. */
  predicate Takeable(fibers: map<Fiber, FState>, t: Task, w: nat) {
    && (t.pin == None || t.pin == Some(w))
    && !(t.item.Resume? && t.item.fiber in fibers && fibers[t.item.fiber] == EXEC)
  }

  /** The scan: the first task that can be taken, or the end. */
  function FirstTakeable(fibers: map<Fiber, FState>, q: seq<Task>, w: nat): (n: nat)
    ensures n <= |q|
    ensures forall i :: 0 <= i < n ==> !Takeable(fibers, q[i], w)
    ensures n < |q| ==> Takeable(fibers, q[n], w)
  {
    if q == [] || Takeable(fibers, q[0], w) then 0 else 1 + FirstTakeable(fibers, q[1..], w)
  }

  predicate Free(pc: Pc) {
    pc.Run? && pc.wake.None? && !pc.bound
  }

  /** An idle worker puts a recurring timer back when it has collected its callback. */
  predicate Rearms(pc: Pc) {
    pc.Idle? && Plain in pc.held
  }

  /** A new fiber or a callback: what a program may schedule besides what the runtime schedules. */
  predicate Fresh(s: State, t: Task) {
    t.item == Plain || (t.item.Resume? && t.item.fiber !in s.fibers)
  }

  predicate At(s: State, w: nat) {
    w < |s.workers|
  }

  predicate Enabled(s: State, a: Action) {
    match a
    case Outside(task) => !s.stopped && Fresh(s, task)
    case OutsideFire(slot) => !s.stopped && slot < |s.slots| && s.slots[slot] != Vacant
    case Stop => true
    case Start(w) => At(s, w) && s.workers[w].pc == NotStarted && (s.root == Some(w) ==> s.stopped)
    case Skip(w) => At(s, w) && s.workers[w].pc == NotStarted && s.root == Some(w) && Stopping(s)
    case Take(w) => At(s, w) && s.workers[w].pc == Scan
    case Go(w, made) => At(s, w) && s.workers[w].pc.Picked? && made !in s.fibers
    case Spawn(w, task) => At(s, w) && Free(s.workers[w].pc) && Fresh(s, task)
    case WakeUp(w) => At(s, w) && s.workers[w].pc.Run? && s.workers[w].pc.wake.Some?
    case Await(w, slot) => At(s, w) && Free(s.workers[w].pc) && slot < |s.slots| && s.slots[slot] == Vacant
    case OnEvent(w, slot) => At(s, w) && Free(s.workers[w].pc) && slot < |s.slots| && s.slots[slot] == Vacant
    case Sleep(w, at) => At(s, w) && Free(s.workers[w].pc) && at <= |s.timers|
    case OnTimer(w, at) => At(s, w) && (Free(s.workers[w].pc) || Rearms(s.workers[w].pc)) && at <= |s.timers|
    case CancelTimer(w, at) => At(s, w) && Free(s.workers[w].pc) && at < |s.timers| && s.timers[at] == Plain
    case Reschedule(w, _) => At(s, w) && Free(s.workers[w].pc)
    case Fire(w, slot) =>
      && At(s, w) && (Free(s.workers[w].pc) || s.workers[w].pc.Idle?)
      && slot < |s.slots| && s.slots[slot] != Vacant
    case Remove(w, slot) => At(s, w) && Free(s.workers[w].pc) && slot < |s.slots| && s.slots[slot] != Vacant
    case YieldHold(w) => At(s, w) && s.workers[w].pc.Run? && s.workers[w].pc.wake.None?
    case YieldReady(w) => At(s, w) && Free(s.workers[w].pc)
    case Finish(w, _) => At(s, w) && Free(s.workers[w].pc)
    case Decrement(w) => At(s, w) && s.workers[w].pc.Returned?
    case PutBack(w) => At(s, w) && s.workers[w].pc.Requeue?
    case Enter(w) => At(s, w) && s.workers[w].pc == Nothing
    case AskTimers(w) => At(s, w) && s.workers[w].pc == Idle([]) && s.polls
    case AskEvents(w) => At(s, w) && s.workers[w].pc == Asked
    case Decline(w) => At(s, w) && s.workers[w].pc == Cleared && !Stopping(s)
    case IdleExit(w) => At(s, w) && s.workers[w].pc == (if s.polls then Cleared else Idle([])) && Stopping(s)
    case Collect(w, count) => At(s, w) && s.workers[w].pc == Idle([]) && count <= |s.timers|
    case Batch(w) => At(s, w) && s.workers[w].pc.Idle?
    case Back(w) => At(s, w) && s.workers[w].pc == Idle([])
  }

  function SetPc(s: State, w: nat, pc: Pc): State
    requires At(s, w)
  {
    s.(workers := s.workers[w := s.workers[w].(pc := pc)])
  }

  function Push(s: State, t: Task): State {
    s.(queue := s.queue + [t])
  }

  function FiberOf(s: State, w: nat): Fiber
    requires At(s, w) && s.workers[w].pc.Run?
  {
    s.workers[w].pc.fiber
  }

  function Admit(s: State, t: Task): State {
    var s1 := Push(s, t);
    if t.item.Resume?
    then s1.(fibers := s.fibers[t.item.fiber := INIT], granted := s.granted + multiset{t.item.fiber})
    else s1
  }

  function Release(s: State, slot: nat): State
    requires slot < |s.slots|
  {
    Push(s, Task(s.slots[slot], None)).(slots := s.slots[slot := Vacant])
  }

  /** Lines 139-156 of scheduler.cpp. */
  function AfterTake(s: State, w: nat): State
    requires At(s, w)
  {
    var n := FirstTakeable(s.fibers, s.queue, w);
    if n == |s.queue| then SetPc(s, w, Nothing)
    else SetPc(s, w, Picked(s.queue[n])).(queue := s.queue[..n] + s.queue[n + 1..], active := s.active + 1)
  }

  /** Lines 162-163: a finished fiber is passed over, any other is switched to. */
  function AfterGoFiber(s: State, w: nat, f: Fiber): State
    requires At(s, w) && f in s.fibers
  {
    if s.fibers[f] == TERM || s.fibers[f] == EXCEPT then
      SetPc(s, w, Scan).(active := s.active - 1, dropped := s.dropped + multiset{f})
    else
      SetPc(s, w, Run(f, false, None, false)).(fibers := s.fibers[f := EXEC], resumed := s.resumed + multiset{f},
        failed := s.failed || s.fibers[f] == EXEC)
  }

  /** Lines 173-179: the worker's callback fiber is reset if it has one, or made. */
  function AfterGoCallback(s: State, w: nat, item: Item, made: Fiber): State
    requires At(s, w)
  {
    var wake := if item.Wake? then Some(item.fiber) else None;
    match s.workers[w].cbFiber
    case Some(f) =>
      SetPc(s, w, Run(f, true, wake, false)).(fibers := s.fibers[f := EXEC],
        failed := s.failed || f !in s.fibers || s.fibers[f] !in {TERM, EXCEPT, INIT})
    case None =>
      s.(fibers := s.fibers[made := EXEC],
         workers := s.workers[w := s.workers[w].(pc := Run(made, true, wake, false), cbFiber := Some(made))])
  }

  function AfterGo(s: State, w: nat, made: Fiber): State
    requires At(s, w) && s.workers[w].pc.Picked?
  {
    var item := s.workers[w].pc.task.item;
    if item.Resume? then
      if item.fiber in s.fibers then AfterGoFiber(s, w, item.fiber) else s.(failed := true)
    else if item == Vacant then s.(failed := true)
    else AfterGoCallback(s, w, item, made)
  }

  /** The running fiber hands itself out and is bound to yield. */
  function Bind(s: State, w: nat): State
    requires At(s, w) && s.workers[w].pc.Run?
  {
    SetPc(s, w, s.workers[w].pc.(bound := true)).(granted := s.granted + multiset{FiberOf(s, w)})
  }

  /** The callback fiber is given up when it is still in use after a callback. */
  function Quit(worker: Worker, cb: bool, pc: Pc): Worker {
    Worker(pc, worker.idleDone, if cb then None else worker.cbFiber)
  }

  /** Yield to HOLD, the switch back, and lines 165-169 or 180-189. */
  function AfterYieldHold(s: State, w: nat): State
    requires At(s, w) && s.workers[w].pc.Run?
  {
    var f := FiberOf(s, w);
    s.(fibers := s.fibers[f := HOLD], active := s.active - 1,
       failed := s.failed || f !in s.fibers || s.fibers[f] != EXEC,
       workers := s.workers[w := Quit(s.workers[w], s.workers[w].pc.cb, Scan)])
  }

  function AfterYieldReady(s: State, w: nat): State
    requires At(s, w) && s.workers[w].pc.Run?
  {
    var f := FiberOf(s, w);
    SetPc(s, w, Returned(f, s.workers[w].pc.cb, true)).(fibers := s.fibers[f := READY],
      failed := s.failed || f !in s.fibers || s.fibers[f] != EXEC, granted := s.granted + multiset{f})
  }

  function AfterFinish(s: State, w: nat, thrown: bool): State
    requires At(s, w) && s.workers[w].pc.Run?
  {
    var f := FiberOf(s, w);
    SetPc(s, w, Returned(f, s.workers[w].pc.cb, false)).(fibers := s.fibers[f := if thrown then EXCEPT else TERM])
  }

  /** Lines 165-166 and 180-186: the count goes down before a READY fiber goes back. */
  function AfterDecrement(s: State, w: nat): State
    requires At(s, w) && s.workers[w].pc.Returned?
  {
    var f, cb := s.workers[w].pc.fiber, s.workers[w].pc.cb;
    var s1 := s.(active := s.active - 1);
    if f in s.fibers && s.fibers[f] == READY then SetPc(s1, w, Requeue(f, cb))
    else if cb then SetPc(s1, w, Scan).(fibers := s.fibers[f := INIT])
    else SetPc(s1, w, Scan)
  }

  /** Lines 167 and 183-184. */
  function AfterPutBack(s: State, w: nat): State
    requires At(s, w) && s.workers[w].pc.Requeue?
  {
    var f, cb := s.workers[w].pc.fiber, s.workers[w].pc.cb;
    Push(s, Task(Resume(f), None)).(workers := s.workers[w := Quit(s.workers[w], cb, Scan)])
  }

  function Next(s: State, a: Action): State
    requires Enabled(s, a)
  {
    match a
    case Outside(task) => Admit(s, task)
    case OutsideFire(slot) => Release(s, slot)
    case Stop => s.(stopped := true)
    case Start(w) => SetPc(s, w, Scan)
    case Skip(w) => SetPc(s, w, Skipped)
    case Take(w) => AfterTake(s, w)
    case Go(w, made) => AfterGo(s, w, made)
    case Spawn(w, task) => Admit(s, task)
    case WakeUp(w) =>
      Push(SetPc(s, w, s.workers[w].pc.(wake := None)), Task(Resume(s.workers[w].pc.wake.value), None))
    case Await(w, slot) => Bind(s, w).(slots := s.slots[slot := Resume(FiberOf(s, w))])
    case OnEvent(w, slot) => s.(slots := s.slots[slot := Plain])
    case Sleep(w, at) => Bind(s, w).(timers := s.timers[..at] + [Wake(FiberOf(s, w))] + s.timers[at..])
    case OnTimer(w, at) => s.(timers := s.timers[..at] + [Plain] + s.timers[at..])
    case CancelTimer(w, at) => s.(timers := s.timers[..at] + s.timers[at + 1..])
    case Reschedule(w, pin) => Push(Bind(s, w), Task(Resume(FiberOf(s, w)), pin))
    case Fire(w, slot) => Release(s, slot)
    case Remove(w, slot) =>
      s.(slots := s.slots[slot := Vacant], dropped := s.dropped + Refs(s.slots[slot]))
    case YieldHold(w) => AfterYieldHold(s, w)
    case YieldReady(w) => AfterYieldReady(s, w)
    case Finish(w, thrown) => AfterFinish(s, w, thrown)
    case Decrement(w) => AfterDecrement(s, w)
    case PutBack(w) => AfterPutBack(s, w)
    case Enter(w) => SetPc(s, w, if s.workers[w].idleDone then Left else Idle([]))
    case AskTimers(w) => SetPc(s, w, if s.timers == [] then Asked else Idle([]))
    case AskEvents(w) => SetPc(s, w, if NoEvents(s) then Cleared else Idle([]))
    case Decline(w) => SetPc(s, w, Idle([]))
    case IdleExit(w) => s.(workers := s.workers[w := Worker(Scan, true, s.workers[w].cbFiber)])
    case Collect(w, count) => SetPc(s, w, Idle(s.timers[..count])).(timers := s.timers[count..])
    case Batch(w) => SetPc(s, w, Idle([])).(queue := s.queue + Tasks(s.workers[w].pc.held))
    case Back(w) => SetPc(s, w, Scan)
  }

  function Tasks(items: seq<Item>): seq<Task> {
    seq(|items|, i requires 0 <= i < |items| => Task(items[i], None))
  }

  /** The fibers that an item can bring back. */
  function Refs(item: Item): multiset<Fiber> {
    match item
    case Resume(f) => multiset{f}
    case Wake(f) => multiset{f}
    case _ => multiset{}
  }

  /** A scheduler of `n` workers with a table of `m` event slots, nothing scheduled yet. */
  function Initial(n: nat, m: nat, root: Option<nat>, polls: bool): State {
    State(map[], [], seq(n, _ => Worker(NotStarted, false, None)), root, 0, seq(m, _ => Vacant), [], polls,
          false, false, multiset{}, multiset{}, multiset{})
  }
}
