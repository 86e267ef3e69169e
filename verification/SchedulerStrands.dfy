/**
 * What shutting down can leave behind, as runs from the start of a scheduler with two workers and one
 * event slot. One worker runs a fiber that yields to go on; between its counting down and putting the
 * fiber back, stopping is true and the other worker ends its idle fiber. The first then does the same
 * while the other holds the fiber, and what the fiber schedules or registers after that nobody takes.
 */
module SchedulerStrands {
  import opened SchedulerSpec
  import opened SchedulerInv
  import opened SR = SchedulerRuns

  const START: State := Initial(2, 1, None, true)

  /** A run from the start. */
  predicate Path(run: seq<Action>, s: State) {
    Reaches(START, run, s)
  }

  lemma {:induction false} RunAppend(s: State, run: seq<Action>, a: Action)
    requires Legal(s, run) && Enabled(SR.Run(s, run), a)
    ensures Legal(s, run + [a]) && SR.Run(s, run + [a]) == Next(SR.Run(s, run), a)
    decreases |run|
  {
    if run == [] {
      assert [a][1..] == [] && run + [a] == [a];
    } else {
      assert (run + [a])[0] == run[0] && (run + [a])[1..] == run[1..] + [a];
      RunAppend(Next(s, run[0]), run[1..], a);
    }
  }

  /** One fiber and two workers in one event slot's company. */
  predicate Shape(s: State, f: FState, q: seq<Task>, ws: seq<Worker>, active: int, slot: Item) {
    && s.fibers == map[0 := f] && s.queue == q && s.workers == ws && s.active == active
    && s.slots == [slot] && s.timers == [] && s.root == None && s.polls && s.stopped
  }

  /** The path so far, and one step more. */
  lemma {:induction false} Then(run: seq<Action>, s: State, a: Action) returns (run': seq<Action>, s': State)
    requires Path(run, s) && Enabled(s, a)
    ensures Path(run', s') && s' == Next(s, a)
  {
    RunAppend(START, run, a);
    run', s' := run + [a], Next(s, a);
  }

  const MINE: Task := Task(Resume(0), None)

  /** A worker that has found its idle fiber ended, or not. */
  function On(pc: Pc, idleDone: bool): Worker {
    Worker(pc, idleDone, None)
  }

  const RUNNING: Pc := Pc.Run(0, false, None, false)

  // What single steps do to such a state.

  lemma {:induction false} TakesMine(s: State, w: nat, f: FState, ws: seq<Worker>, done: bool)
    requires w < |ws| && ws[w] == On(Scan, done) && f != EXEC && Shape(s, f, [MINE], ws, 0, Vacant)
    ensures Enabled(s, Take(w)) && Shape(Next(s, Take(w)), f, [], ws[w := On(Picked(MINE), done)], 1, Vacant)
  {
  }

  lemma {:induction false} TakesNothing(s: State, w: nat, f: FState, q: seq<Task>, ws: seq<Worker>, done: bool,
        active: int, slot: Item)
    requires w < |ws| && ws[w] == On(Scan, done) && Shape(s, f, q, ws, active, slot)
    requires q == [] || (|q| == 1 && q[0].pin.Some? && q[0].pin.value != w)
    ensures Enabled(s, Take(w)) && Shape(Next(s, Take(w)), f, q, ws[w := On(Nothing, done)], active, slot)
  {
  }

  lemma {:induction false} Goes(s: State, w: nat, f: FState, ws: seq<Worker>, done: bool)
    requires w < |ws| && ws[w] == On(Picked(MINE), done) && f in {INIT, READY} && Shape(s, f, [], ws, 1, Vacant)
    ensures Enabled(s, Go(w, 1)) && Shape(Next(s, Go(w, 1)), EXEC, [], ws[w := On(RUNNING, done)], 1, Vacant)
  {
  }

  lemma {:induction false} YieldsReady(s: State, w: nat, ws: seq<Worker>, done: bool)
    requires w < |ws| && ws[w] == On(RUNNING, done) && Shape(s, EXEC, [], ws, 1, Vacant)
    ensures Enabled(s, YieldReady(w))
    ensures Shape(Next(s, YieldReady(w)), READY, [], ws[w := On(Returned(0, false, true), done)], 1, Vacant)
  {
  }

  lemma {:induction false} CountsDown(s: State, w: nat, f: FState, q: seq<Task>, ws: seq<Worker>, done: bool)
    requires w < |ws| && ws[w] == On(Returned(0, false, f == READY), done) && Shape(s, f, q, ws, 1, Vacant)
    ensures Enabled(s, Decrement(w))
    ensures var pc := if f == READY then Requeue(0, false) else Scan;
            Shape(Next(s, Decrement(w)), f, q, ws[w := On(pc, done)], 0, Vacant)
  {
  }

  lemma {:induction false} PutsBack(s: State, w: nat, ws: seq<Worker>, done: bool)
    requires w < |ws| && ws[w] == On(Requeue(0, false), done) && Shape(s, READY, [], ws, 0, Vacant)
    ensures Enabled(s, PutBack(w)) && Shape(Next(s, PutBack(w)), READY, [MINE], ws[w := On(Scan, done)], 0, Vacant)
  {
  }

  lemma {:induction false} EntersIdle(s: State, w: nat, f: FState, q: seq<Task>, ws: seq<Worker>, done: bool,
        active: int, slot: Item)
    requires w < |ws| && ws[w] == On(Nothing, done) && Shape(s, f, q, ws, active, slot)
    ensures Enabled(s, Enter(w))
    ensures Shape(Next(s, Enter(w)), f, q, ws[w := On(if done then Left else Idle([]), done)], active, slot)
  {
  }

  lemma {:induction false} Asks(s: State, w: nat, f: FState, ws: seq<Worker>, active: int)
    requires w < |ws| && ws[w] == On(Idle([]), false) && Shape(s, f, [], ws, active, Vacant)
    ensures Enabled(s, AskTimers(w)) && Shape(Next(s, AskTimers(w)), f, [], ws[w := On(Asked, false)], active, Vacant)
  {
  }

  lemma {:induction false} AsksAgain(s: State, w: nat, f: FState, ws: seq<Worker>, active: int)
    requires w < |ws| && ws[w] == On(Asked, false) && Shape(s, f, [], ws, active, Vacant)
    ensures Enabled(s, AskEvents(w))
    ensures Shape(Next(s, AskEvents(w)), f, [], ws[w := On(Cleared, false)], active, Vacant)
  {
  }

  lemma {:induction false} ExitsIdle(s: State, w: nat, f: FState, ws: seq<Worker>)
    requires w < |ws| && ws[w] == On(Cleared, false) && Shape(s, f, [], ws, 0, Vacant)
    ensures Enabled(s, IdleExit(w)) && Shape(Next(s, IdleExit(w)), f, [], ws[w := On(Scan, true)], 0, Vacant)
  {
  }

  // The runs.

  /** From the start to two workers scanning for the one fiber, after stop. */
  lemma {:induction false} Begins() returns (run: seq<Action>, s: State)
    ensures Path(run, s) && Shape(s, INIT, [MINE], [On(Scan, false), On(Scan, false)], 0, Vacant)
  {
    hide Legal, SR.Run, Path, Stopping;
    run, s := [], START;
    assert Path(run, s) by {
      StartIsPath();
    }
    run, s := Then(run, s, Outside(MINE));
    run, s := Then(run, s, Start(0));
    run, s := Then(run, s, Start(1));
    run, s := Then(run, s, Stop);
  }

  lemma {:induction false} StartIsPath()
    ensures Path([], START)
  {
  }

  /** The worker `w` takes the fiber, runs it until it yields to go on, and counts down. */
  lemma {:induction false} Window(run: seq<Action>, s: State, w: nat, f: FState, ws: seq<Worker>, done: bool)
    returns (run': seq<Action>, s': State)
    requires Path(run, s) && w < |ws| && f in {INIT, READY} && ws[w] == On(Scan, done)
    requires Shape(s, f, [MINE], ws, 0, Vacant)
    ensures Path(run', s') && Stopping(s')
    ensures Shape(s', READY, [], ws[w := On(Requeue(0, false), done)], 0, Vacant)
  {
    hide Enabled, Next, Path;
    TakesMine(s, w, f, ws, done);
    run', s' := Then(run, s, Take(w));
    Goes(s', w, f, ws[w := On(Picked(MINE), done)], done);
    run', s' := Then(run', s', Go(w, 1));
    assert s'.workers == ws[w := On(RUNNING, done)];
    YieldsReady(s', w, ws[w := On(RUNNING, done)], done);
    run', s' := Then(run', s', YieldReady(w));
    assert s'.workers == ws[w := On(Returned(0, false, true), done)];
    CountsDown(s', w, READY, [], ws[w := On(Returned(0, false, true), done)], done);
    run', s' := Then(run', s', Decrement(w));
    assert s'.workers == ws[w := On(Requeue(0, false), done)];
  }

  /** In the window the other worker ends its idle fiber. */
  lemma {:induction false} EndsIdle(run: seq<Action>, s: State, w: nat, f: FState, ws: seq<Worker>)
    returns (run': seq<Action>, s': State)
    requires Path(run, s) && w < |ws| && ws[w] == On(Scan, false) && Shape(s, f, [], ws, 0, Vacant)
    ensures Path(run', s') && Shape(s', f, [], ws[w := On(Scan, true)], 0, Vacant)
  {
    hide Enabled, Next, Path;
    TakesNothing(s, w, f, [], ws, false, 0, Vacant);
    run', s' := Then(run, s, Take(w));
    EntersIdle(s', w, f, [], ws[w := On(Nothing, false)], false, 0, Vacant);
    run', s' := Then(run', s', Enter(w));
    assert s'.workers == ws[w := On(Idle([]), false)];
    Asks(s', w, f, ws[w := On(Idle([]), false)], 0);
    run', s' := Then(run', s', AskTimers(w));
    assert s'.workers == ws[w := On(Asked, false)];
    AsksAgain(s', w, f, ws[w := On(Asked, false)], 0);
    run', s' := Then(run', s', AskEvents(w));
    assert s'.workers == ws[w := On(Cleared, false)];
    ExitsIdle(s', w, f, ws[w := On(Cleared, false)]);
    run', s' := Then(run', s', IdleExit(w));
    assert s'.workers == ws[w := On(Scan, true)];
  }

  /**
   * Stopping is true while a worker holds a fiber that yielded to go on, between counting down and
   * putting it back.
   */
  lemma {:induction false} StoppingWhileHolding() returns (run: seq<Action>, s: State)
    ensures Path(run, s) && Stopping(s)
    ensures At(s, 0) && s.workers[0].pc == Requeue(0, false) && 0 in s.fibers && s.fibers[0] == READY
  {
    hide Path, Next, Enabled, Stopping;
    run, s := Begins();
    run, s := Window(run, s, 0, INIT, [On(Scan, false), On(Scan, false)], false);
  }

  /** Both idle fibers can have ended with one worker running the fiber and the other about to scan. */
  lemma {:induction false} OneRuns() returns (run: seq<Action>, s: State)
    ensures Path(run, s) && Shape(s, EXEC, [], [On(Scan, true), On(RUNNING, true)], 1, Vacant)
  {
    hide Path, Next, Enabled, Stopping, Shape;
    var held := On(Requeue(0, false), false);
    run, s := Begins();
    run, s := Window(run, s, 0, INIT, [On(Scan, false), On(Scan, false)], false);
    Swap(s, READY, [], [On(Scan, false), On(Scan, false)][0 := held], [held, On(Scan, false)], 0, Vacant);
    run, s := EndsIdle(run, s, 1, READY, [held, On(Scan, false)]);
    Swap(s, READY, [], [held, On(Scan, false)][1 := On(Scan, true)], [held, On(Scan, true)], 0, Vacant);
    PutsBack(s, 0, [held, On(Scan, true)], false);
    run, s := Then(run, s, PutBack(0));
    Swap(s, READY, [MINE], [held, On(Scan, true)][0 := On(Scan, false)], [On(Scan, false), On(Scan, true)], 0, Vacant);
    run, s := SecondWindow(run, s);
  }

  /** Or about to leave. */
  lemma {:induction false} BothDone() returns (run: seq<Action>, s: State)
    ensures Path(run, s) && Shape(s, EXEC, [], [On(Nothing, true), On(RUNNING, true)], 1, Vacant)
  {
    hide Path, Next, Enabled, Stopping, Shape;
    var ws := [On(Scan, true), On(RUNNING, true)];
    run, s := OneRuns();
    TakesNothing(s, 0, EXEC, [], ws, true, 1, Vacant);
    run, s := Then(run, s, Take(0));
    Swap(s, EXEC, [], ws[0 := On(Nothing, true)], [On(Nothing, true), On(RUNNING, true)], 1, Vacant);
  }

  /** The same sequence of workers, written differently. */
  lemma {:induction false} Swap(s: State, f: FState, q: seq<Task>, ws: seq<Worker>, ws': seq<Worker>, active: int,
        slot: Item)
    requires Shape(s, f, q, ws, active, slot) && ws == ws'
    ensures Shape(s, f, q, ws', active, slot)
  {
  }

  lemma {:induction false} SecondWindow(run: seq<Action>, s: State) returns (run': seq<Action>, s': State)
    requires Path(run, s) && Shape(s, READY, [MINE], [On(Scan, false), On(Scan, true)], 0, Vacant)
    ensures Path(run', s') && Shape(s', EXEC, [], [On(Scan, true), On(RUNNING, true)], 1, Vacant)
  {
    hide Path, Next, Enabled, Stopping, Shape;
    var scan, held, picked := On(Scan, true), On(Requeue(0, false), true), On(Picked(MINE), true);
    run', s' := Window(run, s, 1, READY, [On(Scan, false), scan], true);
    Swap(s', READY, [], [On(Scan, false), scan][1 := held], [On(Scan, false), held], 0, Vacant);
    run', s' := EndsIdle(run', s', 0, READY, [On(Scan, false), held]);
    Swap(s', READY, [], [On(Scan, false), held][0 := scan], [scan, held], 0, Vacant);
    PutsBack(s', 1, [scan, held], true);
    run', s' := Then(run', s', PutBack(1));
    Swap(s', READY, [MINE], [scan, held][1 := scan], [scan, scan], 0, Vacant);
    TakesMine(s', 1, READY, [scan, scan], true);
    run', s' := Then(run', s', Take(1));
    Swap(s', READY, [], [scan, scan][1 := picked], [scan, picked], 1, Vacant);
    Goes(s', 1, READY, [scan, picked], true);
    run', s' := Then(run', s', Go(1, 1));
    Swap(s', EXEC, [], [scan, picked][1 := On(RUNNING, true)], [scan, On(RUNNING, true)], 1, Vacant);
  }

  /** With both about to leave, they leave. */
  lemma {:induction false} BothLeave(run: seq<Action>, s: State, f: FState, q: seq<Task>, slot: Item)
    returns (run': seq<Action>, s': State)
    requires Path(run, s) && Shape(s, f, q, [On(Nothing, true), On(Scan, true)], 0, slot)
    requires q == [] || (|q| == 1 && q[0].pin == Some(0))
    ensures Path(run', s') && AllGone(s') && s'.queue == q && s'.slots == [slot] && s'.fibers == map[0 := f]
  {
    hide Path, Next, Enabled, Stopping;
    var ws := [On(Nothing, true), On(Scan, true)];
    TakesNothing(s, 1, f, q, ws, true, 0, slot);
    run', s' := Then(run, s, Take(1));
    EntersIdle(s', 1, f, q, ws[1 := On(Nothing, true)], true, 0, slot);
    run', s' := Then(run', s', Enter(1));
    assert s'.workers == [On(Nothing, true), On(Left, true)];
    EntersIdle(s', 0, f, q, [On(Nothing, true), On(Left, true)], true, 0, slot);
    run', s' := Then(run', s', Enter(0));
  }

  lemma {:induction false} SpawnsPinned(s: State, a: Worker)
    requires Shape(s, EXEC, [], [a, On(RUNNING, true)], 1, Vacant)
    ensures Enabled(s, Spawn(1, Task(Plain, Some(0))))
    ensures var pinned := Task(Plain, Some(0));
            Shape(Next(s, Spawn(1, pinned)), EXEC, [pinned], [a, On(RUNNING, true)], 1, Vacant)
  {
  }

  lemma {:induction false} Finishes(s: State, q: seq<Task>, a: Worker)
    requires Shape(s, EXEC, q, [a, On(RUNNING, true)], 1, Vacant)
    ensures Enabled(s, Finish(1, false))
    ensures Shape(Next(s, Finish(1, false)), TERM, q, [a, On(Returned(0, false, false), true)], 1, Vacant)
  {
  }

  /** A task pinned to a worker can outlive all workers. */
  lemma {:induction false} PinnedTaskStranded() returns (run: seq<Action>, s: State)
    ensures Path(run, s) && AllGone(s) && s.queue == [Task(Plain, Some(0))]
  {
    hide Path, Next, Enabled, Stopping, Shape, AllGone;
    var pinned, idle := [Task(Plain, Some(0))], On(Nothing, true);
    run, s := BothDone();
    SpawnsPinned(s, idle);
    run, s := Then(run, s, Spawn(1, Task(Plain, Some(0))));
    Finishes(s, pinned, idle);
    run, s := Then(run, s, Finish(1, false));
    CountsDown(s, 1, TERM, pinned, [idle, On(Returned(0, false, false), true)], true);
    run, s := Then(run, s, Decrement(1));
    Swap(s, TERM, pinned, [idle, On(Returned(0, false, false), true)][1 := On(Scan, true)], [idle, On(Scan, true)],
        0, Vacant);
    run, s := BothLeave(run, s, TERM, pinned, Vacant);
  }

  const BOUND: Pc := Pc.Run(0, false, None, true)

  const PINNED: Task := Task(Resume(0), Some(0))

  lemma {:induction false} Reschedules(s: State, a: Worker)
    requires Shape(s, EXEC, [], [a, On(RUNNING, true)], 1, Vacant)
    ensures Enabled(s, Reschedule(1, Some(0)))
    ensures Shape(Next(s, Reschedule(1, Some(0))), EXEC, [PINNED], [a, On(BOUND, true)], 1, Vacant)
  {
  }

  lemma {:induction false} PassesOver(s: State)
    requires Shape(s, EXEC, [PINNED], [On(Scan, true), On(BOUND, true)], 1, Vacant)
    ensures Enabled(s, Take(0))
    ensures Shape(Next(s, Take(0)), EXEC, [PINNED], [On(Nothing, true), On(BOUND, true)], 1, Vacant)
  {
  }

  lemma {:induction false} Holds(s: State)
    requires Shape(s, EXEC, [PINNED], [On(Nothing, true), On(BOUND, true)], 1, Vacant)
    ensures Enabled(s, YieldHold(1))
    ensures Shape(Next(s, YieldHold(1)), HOLD, [PINNED], [On(Nothing, true), On(Scan, true)], 0, Vacant)
  {
  }

  /**
   * So can a fiber that schedules itself on a worker which has not left yet: the worker's last look
   * passes over it because it is still running.
   */
  lemma {:induction false} PinnedFiberStranded() returns (run: seq<Action>, s: State)
    ensures Path(run, s) && AllGone(s) && s.queue == [PINNED] && 0 in s.fibers && s.fibers[0] == HOLD
  {
    hide Path, Next, Enabled, Stopping, Shape, AllGone;
    run, s := OneRuns();
    Reschedules(s, On(Scan, true));
    run, s := Then(run, s, Reschedule(1, Some(0)));
    PassesOver(s);
    run, s := Then(run, s, Take(0));
    Holds(s);
    run, s := Then(run, s, YieldHold(1));
    run, s := BothLeave(run, s, HOLD, [PINNED], Vacant);
  }

  lemma {:induction false} AwaitsAndHolds(s: State, a: Worker)
    requires Shape(s, EXEC, [], [a, On(RUNNING, true)], 1, Vacant)
    ensures Enabled(s, Await(1, 0)) && Enabled(Next(s, Await(1, 0)), YieldHold(1))
    ensures Shape(Next(Next(s, Await(1, 0)), YieldHold(1)), HOLD, [], [a, On(Scan, true)], 0, Resume(0))
  {
  }

  /** A fiber waiting for an event can outlive all workers, although each has asked whether anybody waits. */
  lemma {:induction false} WaiterStranded() returns (run: seq<Action>, s: State)
    ensures Path(run, s) && AllGone(s) && s.slots == [Resume(0)] && 0 in s.fibers && s.fibers[0] == HOLD
  {
    hide Path, Next, Enabled, Stopping, Shape, AllGone;
    run, s := BothDone();
    AwaitsAndHolds(s, On(Nothing, true));
    run, s := Then(run, s, Await(1, 0));
    run, s := Then(run, s, YieldHold(1));
    run, s := BothLeave(run, s, HOLD, [], Resume(0));
  }

  lemma {:induction false} FirstAwaits(s: State, b: Worker)
    requires Shape(s, EXEC, [], [On(RUNNING, false), b], 1, Vacant)
    ensures Enabled(s, Await(0, 0)) && Enabled(Next(s, Await(0, 0)), YieldHold(0))
    ensures Shape(Next(Next(s, Await(0, 0)), YieldHold(0)), HOLD, [], [On(Scan, false), b], 0, Resume(0))
  {
  }

  lemma {:induction false} MayExit(s: State, a: Worker)
    requires Shape(s, HOLD, [], [a, On(Cleared, false)], 0, Resume(0))
    ensures Enabled(s, IdleExit(1)) && !NobodyWaits(s)
  {
    assert s.slots[0] != Vacant;
  }

  /** An idle fiber can end while somebody waits: the fiber registers between two of its reads. */
  lemma {:induction false} EndsWhileWaiting() returns (run: seq<Action>, s: State)
    ensures Path(run, s) && Enabled(s, IdleExit(1)) && !NobodyWaits(s)
  {
    hide Path, Next, Enabled, Stopping, Shape;
    var scan, running := On(Scan, false), On(RUNNING, false);
    run, s := Begins();
    TakesMine(s, 0, INIT, [scan, scan], false);
    run, s := Then(run, s, Take(0));
    Swap(s, INIT, [], [scan, scan][0 := On(Picked(MINE), false)], [On(Picked(MINE), false), scan], 1, Vacant);
    Goes(s, 0, INIT, [On(Picked(MINE), false), scan], false);
    run, s := Then(run, s, Go(0, 1));
    Swap(s, EXEC, [], [On(Picked(MINE), false), scan][0 := running], [running, scan], 1, Vacant);
    TakesNothing(s, 1, EXEC, [], [running, scan], false, 1, Vacant);
    run, s := Then(run, s, Take(1));
    Swap(s, EXEC, [], [running, scan][1 := On(Nothing, false)], [running, On(Nothing, false)], 1, Vacant);
    EntersIdle(s, 1, EXEC, [], [running, On(Nothing, false)], false, 1, Vacant);
    run, s := Then(run, s, Enter(1));
    var idle, asked, cleared := On(Idle([]), false), On(Asked, false), On(Cleared, false);
    Swap(s, EXEC, [], [running, On(Nothing, false)][1 := idle], [running, idle], 1, Vacant);
    Asks(s, 1, EXEC, [running, idle], 1);
    run, s := Then(run, s, AskTimers(1));
    Swap(s, EXEC, [], [running, idle][1 := asked], [running, asked], 1, Vacant);
    AsksAgain(s, 1, EXEC, [running, asked], 1);
    run, s := Then(run, s, AskEvents(1));
    Swap(s, EXEC, [], [running, asked][1 := cleared], [running, cleared], 1, Vacant);
    FirstAwaits(s, cleared);
    run, s := Then(run, s, Await(0, 0));
    run, s := Then(run, s, YieldHold(0));
    MayExit(s, scan);
  }
}
