/**
 * Each step of the scheduler keeps its invariant. A step changes one worker, and with it at most the
 * state of one fiber, the queue, an event slot or the timers. `Deltas` and `Pushes` say what that does
 * to every count of SchedulerInv at once, `FiberMoves` that a fiber which a worker has to itself can
 * change its state without anybody else minding, and `StillWatched` that a worker which is going to
 * look at the queue again keeps it watched. Where the proof of a step is long, what it does to the
 * handles and owners of every fiber (`Tokens`) and what it leaves in the places that refer to fibers
 * (`Places`) are lemmas of their own.
 */
module SchedulerSteps {
  import opened SchedulerSpec
  import opened SchedulerInv

  /** One worker changes: every count changes by what it contributes. */
  lemma {:induction false} Deltas(ws: seq<Worker>, w: nat, x: Worker)
    requires w < |ws|
    ensures forall k, f :: Total(k, ws[w := x], f) == Total(k, ws, f) - Measure(k, ws[w], f) + Measure(k, x, f)
  {
    hide *;
    forall k, f ensures Total(k, ws[w := x], f) == Total(k, ws, f) - Measure(k, ws[w], f) + Measure(k, x, f) {
      TotalUpdate(k, ws, w, x, f);
    }
  }

  lemma {:induction false} Pushes(q: seq<Task>, t: Task)
    ensures forall f :: QueueCount(q + [t], f) == QueueCount(q, f) + RefsOf(t.item, f)
  {
    hide *;
    forall f ensures QueueCount(q + [t], f) == QueueCount(q, f) + RefsOf(t.item, f) {
      QueueCountPush(q, t, f);
    }
  }

  /** Where worker `w` has the only handle or ownership, nothing else refers to the fiber. */
  lemma {:induction false} Sole(s: State, w: nat, f: Fiber)
    requires Inv(s) && At(s, w) && Measure(HELD, s.workers[w], f) + Measure(OWN, s.workers[w], f) >= 1
    ensures Measure(HELD, s.workers[w], f) + Measure(OWN, s.workers[w], f) == 1
    ensures forall i :: 0 <= i < |s.queue| ==> RefsOf(s.queue[i].item, f) == 0
    ensures forall i :: 0 <= i < |s.slots| ==> RefsOf(s.slots[i], f) == 0
    ensures forall i :: 0 <= i < |s.timers| ==> RefsOf(s.timers[i], f) == 0
    ensures forall j :: 0 <= j < |s.workers| && j != w ==>
              Measure(HELD, s.workers[j], f) == 0 && Measure(OWN, s.workers[j], f) == 0
  {
    hide Measure, Total, QueueCount, ItemCount, Places, Runners, Kept, Watched;
    assert TokenOf(s, f);
    TotalHas(HELD, s.workers, w, f);
    TotalHas(OWN, s.workers, w, f);
    forall i | 0 <= i < |s.queue| ensures RefsOf(s.queue[i].item, f) == 0 {
      QueueCountHas(s.queue, i, f);
    }
    forall i | 0 <= i < |s.slots| ensures RefsOf(s.slots[i], f) == 0 {
      ItemCountHas(s.slots, i, f);
    }
    forall i | 0 <= i < |s.timers| ensures RefsOf(s.timers[i], f) == 0 {
      ItemCountHas(s.timers, i, f);
    }
    forall j | 0 <= j < |s.workers| && j != w
      ensures Measure(HELD, s.workers[j], f) == 0 && Measure(OWN, s.workers[j], f) == 0
    {
      TotalHasTwo(HELD, s.workers, w, j, f);
      TotalHasTwo(OWN, s.workers, w, j, f);
      TotalHas(HELD, s.workers, j, f);
      TotalHas(OWN, s.workers, j, f);
    }
  }

  /** No other worker runs a fiber that `w` runs, and none runs one that is not EXEC. */
  lemma {:induction false} OthersDoNotRun(s: State, w: nat, f: Fiber)
    requires Inv(s) && At(s, w)
    requires Measure(RUNS, s.workers[w], f) == 1 || f !in s.fibers || s.fibers[f] != EXEC
    ensures forall j :: 0 <= j < |s.workers| && j != w ==> Measure(RUNS, s.workers[j], f) == 0
  {
    hide Measure, Total, Places, Tokens, Kept, Watched;
    forall j | 0 <= j < |s.workers| && j != w ensures Measure(RUNS, s.workers[j], f) == 0 {
      TotalHasTwo(RUNS, s.workers, w, j, f);
    }
  }

  /** What a worker says about its fibers does not depend on a live fiber it does not refer to. */
  lemma {:induction false} WorkerElsewhere(fibers: map<Fiber, FState>, worker: Worker, f: Fiber, x: FState)
    requires WorkerOk(fibers, worker)
    requires Measure(HELD, worker, f) == 0 && Measure(OWN, worker, f) == 0 && Measure(RUNS, worker, f) == 0
    ensures WorkerOk(fibers[f := x], worker)
  {
    if worker.pc.Idle? {
      var held := worker.pc.held;
      forall i | 0 <= i < |held| ensures TimerOk(fibers[f := x], held[i]) {
        ItemCountHas(held, i, f);
      }
    }
  }

  /** Changing the state of a fiber that `w` has to itself concerns nobody else. */
  lemma {:induction false} FiberMoves(s: State, w: nat, f: Fiber, x: FState)
    requires Inv(s) && At(s, w) && Measure(HELD, s.workers[w], f) + Measure(OWN, s.workers[w], f) >= 1
    requires f in s.fibers
    requires Measure(RUNS, s.workers[w], f) == 1 || s.fibers[f] != EXEC
    ensures var fibers := s.fibers[f := x];
            && QueueOk(fibers, s.queue) && SlotsOk(fibers, s.slots) && TimersOk(fibers, s.timers)
            && forall j :: 0 <= j < |s.workers| && j != w ==> WorkerOk(fibers, s.workers[j])
    ensures Measure(HELD, s.workers[w], f) + Measure(OWN, s.workers[w], f) == 1
  {
    hide Measure, Total, Tokens, Kept, Watched, Runners, WorkerOk;
    Sole(s, w, f);
    OthersDoNotRun(s, w, f);
    forall j | 0 <= j < |s.workers| && j != w ensures WorkerOk(s.fibers[f := x], s.workers[j]) {
      WorkerElsewhere(s.fibers, s.workers[j], f, x);
    }
  }

  /** A step after which its worker is still about to look at the queue keeps the queue watched. */
  lemma {:induction false} StillWatched(s: State, s': State, w: nat)
    requires Watched(s) && At(s, w) && At(s', w) && s'.stopped == s.stopped && |s'.workers| == |s.workers|
    requires forall j :: 0 <= j < |s.workers| && j != w ==> s'.workers[j] == s.workers[j]
    requires Staying(s'.workers[w]) && s'.workers[w].idleDone == s.workers[w].idleDone
    ensures Watched(s')
  {
  }

  /** A switch to a fiber by its handle: it is not running anywhere, so the assertion in swapIn holds. */
  lemma {:induction false} GoFiberKeeps(s: State, w: nat, f: Fiber)
    requires Inv(s) && At(s, w) && s.workers[w].pc.Picked? && s.workers[w].pc.task.item == Resume(f)
    ensures f in s.fibers && s.fibers[f] != EXEC && s.fibers[f] != TERM && s.fibers[f] != EXCEPT
    ensures Inv(AfterGoFiber(s, w, f))
  {
    hide Total, Handles, Tokens;
    assert WorkerOk(s.fibers, s.workers[w]);
    var s' := AfterGoFiber(s, w, f);
    GoFiberTokens(s, w, f);
    Deltas(s.workers, w, s'.workers[w]);
    FiberMoves(s, w, f, EXEC);
    StillWatched(s, s', w);
  }

  lemma {:induction false} GoFiberTokens(s: State, w: nat, f: Fiber)
    requires Inv(s) && At(s, w) && s.workers[w].pc.Picked? && s.workers[w].pc.task.item == Resume(f) && f in s.fibers
    ensures var s' := AfterGoFiber(s, w, f);
            Tokens(s') && forall g: Fiber :: g != f ==> Handles(s', g) == Handles(s, g)
  {
    hide Total, QueueCount, ItemCount, Runners, Kept, Watched;
    assert WorkerOk(s.fibers, s.workers[w]);
    var s' := AfterGoFiber(s, w, f);
    Deltas(s.workers, w, s'.workers[w]);
    forall g: Fiber ensures TokenOf(s', g) && (g != f ==> Handles(s', g) == Handles(s, g)) {
      assert TokenOf(s, g);
    }
  }

  /** What refers to known fibers does not mind a new one. */
  lemma {:induction false} NewFiber(s: State, f: Fiber, x: FState)
    requires Places(s) && f !in s.fibers
    ensures Places(s.(fibers := s.fibers[f := x]))
  {
  }

  lemma {:induction false} GoReuseKeeps(s: State, w: nat, item: Item, made: Fiber)
    requires Inv(s) && At(s, w) && s.workers[w].pc.Picked? && s.workers[w].pc.task.item == item
    requires !item.Resume? && s.workers[w].cbFiber.Some?
    ensures s.workers[w].cbFiber.value in s.fibers && s.fibers[s.workers[w].cbFiber.value] == INIT
    ensures Inv(AfterGoCallback(s, w, item, made))
  {
    hide Total, QueueCount, ItemCount;
    assert WorkerOk(s.fibers, s.workers[w]);
    var s', f := AfterGoCallback(s, w, item, made), s.workers[w].cbFiber.value;
    Deltas(s.workers, w, s'.workers[w]);
    FiberMoves(s, w, f, EXEC);
    StillWatched(s, s', w);
    forall g: Fiber ensures TokenOf(s', g) {
      assert TokenOf(s, g);
    }
  }

  lemma {:induction false} GoMakeKeeps(s: State, w: nat, item: Item, made: Fiber)
    requires Inv(s) && At(s, w) && s.workers[w].pc.Picked? && s.workers[w].pc.task.item == item
    requires !item.Resume? && s.workers[w].cbFiber.None? && made !in s.fibers
    ensures Inv(AfterGoCallback(s, w, item, made))
  {
    hide Total, QueueCount, ItemCount;
    assert WorkerOk(s.fibers, s.workers[w]);
    var s' := AfterGoCallback(s, w, item, made);
    Deltas(s.workers, w, s'.workers[w]);
    NewFiber(s, made, EXEC);
    assert TokenOf(s, made);
    StillWatched(s, s', w);
    forall g: Fiber ensures TokenOf(s', g) {
      assert TokenOf(s, g);
    }
  }

  /** A callback: the worker's callback fiber is INIT, so the assertion in reset holds. */
  lemma {:induction false} GoCallbackKeeps(s: State, w: nat, item: Item, made: Fiber)
    requires Inv(s) && At(s, w) && s.workers[w].pc.Picked? && s.workers[w].pc.task.item == item
    requires !item.Resume? && made !in s.fibers
    ensures s.workers[w].cbFiber.Some? ==>
              s.workers[w].cbFiber.value in s.fibers && s.fibers[s.workers[w].cbFiber.value] == INIT
    ensures Inv(AfterGoCallback(s, w, item, made))
  {
    hide Inv, AfterGoCallback;
    if s.workers[w].cbFiber.Some? {
      GoReuseKeeps(s, w, item, made);
    } else {
      GoMakeKeeps(s, w, item, made);
    }
  }

  /** Queueing a task while some worker is staying keeps the queue watched. */
  lemma {:induction false} AdmitKeeps(s: State, t: Task, w: nat)
    requires Inv(s) && Fresh(s, t) && At(s, w) && Staying(s.workers[w])
    ensures Inv(Admit(s, t))
  {
    hide Total, QueueCount, ItemCount;
    var s' := Admit(s, t);
    Pushes(s.queue, t);
    if t.item.Resume? {
      NewFiber(s, t.item.fiber, INIT);
      assert TokenOf(s, t.item.fiber);
    }
    forall g: Fiber ensures TokenOf(s', g) {
      assert TokenOf(s, g);
    }
  }

  lemma {:induction false} ReleaseKeeps(s: State, slot: nat, w: nat)
    requires Inv(s) && slot < |s.slots| && s.slots[slot] != Vacant && At(s, w) && Staying(s.workers[w])
    ensures Inv(Release(s, slot))
  {
    hide Total, QueueCount, ItemCount;
    var s' := Release(s, slot);
    Pushes(s.queue, Task(s.slots[slot], None));
    forall g: Fiber ensures TokenOf(s', g) && Handles(s', g) == Handles(s, g) {
      assert TokenOf(s, g);
      ItemCountUpdate(s.slots, slot, Vacant, g);
    }
  }

  lemma {:induction false} TotalWitness(k: Kind, ws: seq<Worker>, f: Fiber) returns (w: nat)
    requires Total(k, ws, f) > 0
    ensures w < |ws| && Measure(k, ws[w], f) > 0
  {
    hide Measure;
    if Measure(k, ws[0], f) > 0 {
      w := 0;
    } else {
      w := TotalWitness(k, ws[1..], f);
      w := w + 1;
    }
  }

  /** A scan that finds nothing leaves only pinned tasks, or fibers that another worker is running. */
  lemma {:induction false} EmptyScan(s: State, w: nat) returns (j: nat)
    requires Inv(s) && At(s, w) && s.workers[w].pc == Scan && Unpinned(s.queue)
    requires FirstTakeable(s.fibers, s.queue, w) == |s.queue|
    ensures j < |s.workers| && j != w && Staying(s.workers[j])
  {
    hide Total, QueueCount, ItemCount, Tokens, Kept, Watched;
    var i :| 0 <= i < |s.queue| && s.queue[i].pin == None;
    assert !Takeable(s.fibers, s.queue[i], w);
    j := TotalWitness(RUNS, s.workers, s.queue[i].item.fiber);
  }

  lemma {:induction false} TakeNothingKeeps(s: State, w: nat)
    requires Inv(s) && At(s, w) && s.workers[w].pc == Scan && FirstTakeable(s.fibers, s.queue, w) == |s.queue|
    ensures Inv(AfterTake(s, w))
  {
    hide Total, QueueCount, ItemCount;
    var s' := AfterTake(s, w);
    Deltas(s.workers, w, s'.workers[w]);
    assert WorkerOk(s.fibers, s.workers[w]);
    if Unpinned(s.queue) {
      var j := EmptyScan(s, w);
      assert Staying(s'.workers[j]);
    }
    forall g: Fiber ensures TokenOf(s', g) {
      assert TokenOf(s, g);
    }
  }

  lemma {:induction false} TakeOneKeeps(s: State, w: nat)
    requires Inv(s) && At(s, w) && s.workers[w].pc == Scan && FirstTakeable(s.fibers, s.queue, w) < |s.queue|
    ensures Inv(AfterTake(s, w))
  {
    hide Total, QueueCount, ItemCount;
    var s', n := AfterTake(s, w), FirstTakeable(s.fibers, s.queue, w);
    Deltas(s.workers, w, s'.workers[w]);
    assert WorkerOk(s.fibers, s.workers[w]);
    forall i | 0 <= i < |s'.queue| ensures TaskOk(s'.fibers, s'.queue[i]) {
      assert s'.queue[i] == s.queue[if i < n then i else i + 1];
    }
    assert WorkerOk(s'.fibers, s'.workers[w]);
    StillWatched(s, s', w);
    forall g: Fiber ensures TokenOf(s', g) && Handles(s', g) == Handles(s, g) {
      assert TokenOf(s, g);
      QueueCountRemove(s.queue, n, g);
    }
  }

  lemma {:induction false} WakeUpTokens(s: State, w: nat)
    requires Inv(s) && Enabled(s, WakeUp(w))
    ensures var s' := Next(s, WakeUp(w));
            Tokens(s') && forall f: Fiber :: Handles(s', f) == Handles(s, f)
  {
    hide Total, QueueCount, ItemCount, Places, Runners, Kept, Watched;
    var s', g := Next(s, WakeUp(w)), s.workers[w].pc.wake.value;
    Deltas(s.workers, w, s'.workers[w]);
    Pushes(s.queue, Task(Resume(g), None));
    forall f: Fiber ensures TokenOf(s', f) && Handles(s', f) == Handles(s, f) {
      assert TokenOf(s, f);
    }
  }

  lemma {:induction false} WakeUpKeeps(s: State, w: nat)
    requires Inv(s) && Enabled(s, WakeUp(w))
    ensures Inv(Next(s, WakeUp(w)))
  {
    hide Total, Handles, Tokens;
    var s' := Next(s, WakeUp(w));
    WakeUpTokens(s, w);
    Deltas(s.workers, w, s'.workers[w]);
    assert WorkerOk(s.fibers, s.workers[w]);
    StillWatched(s, s', w);
  }

  // A running fiber hands itself out.

  lemma {:induction false} AwaitKeeps(s: State, w: nat, slot: nat)
    requires Inv(s) && Enabled(s, Await(w, slot))
    ensures Inv(Next(s, Await(w, slot)))
  {
    hide Total, QueueCount, ItemCount;
    var s', f := Next(s, Await(w, slot)), FiberOf(s, w);
    Deltas(s.workers, w, s'.workers[w]);
    assert WorkerOk(s.fibers, s.workers[w]);
    StillWatched(s, s', w);
    forall g: Fiber ensures TokenOf(s', g) && Handles(s', g) >= Handles(s, g) {
      assert TokenOf(s, g);
      ItemCountUpdate(s.slots, slot, Resume(f), g);
    }
  }

  lemma {:induction false} SleepKeeps(s: State, w: nat, at: nat)
    requires Inv(s) && Enabled(s, Sleep(w, at))
    ensures Inv(Next(s, Sleep(w, at)))
  {
    hide Total, QueueCount, ItemCount;
    var s', f := Next(s, Sleep(w, at)), FiberOf(s, w);
    Deltas(s.workers, w, s'.workers[w]);
    assert WorkerOk(s.fibers, s.workers[w]);
    StillWatched(s, s', w);
    forall g: Fiber ensures TokenOf(s', g) && Handles(s', g) >= Handles(s, g) {
      assert TokenOf(s, g);
      ItemCountInsert(s.timers, at, Wake(f), g);
    }
  }

  lemma {:induction false} RescheduleTokens(s: State, w: nat, pin: Option<nat>)
    requires Inv(s) && Enabled(s, Reschedule(w, pin))
    ensures var s', f := Next(s, Reschedule(w, pin)), FiberOf(s, w);
            Tokens(s') && forall g: Fiber :: Handles(s', g) == Handles(s, g) + Bit(g == f)
  {
    hide Total, QueueCount, ItemCount, Runners, Kept, Watched;
    var s', f := Next(s, Reschedule(w, pin)), FiberOf(s, w);
    Deltas(s.workers, w, s'.workers[w]);
    Pushes(s.queue, Task(Resume(f), pin));
    assert WorkerOk(s.fibers, s.workers[w]);
    forall g: Fiber ensures TokenOf(s', g) && Handles(s', g) == Handles(s, g) + Bit(g == f) {
      assert TokenOf(s, g);
    }
  }

  lemma {:induction false} RescheduleKeeps(s: State, w: nat, pin: Option<nat>)
    requires Inv(s) && Enabled(s, Reschedule(w, pin))
    ensures Inv(Next(s, Reschedule(w, pin)))
  {
    hide Total, Handles, Tokens;
    var s' := Next(s, Reschedule(w, pin));
    RescheduleTokens(s, w, pin);
    Deltas(s.workers, w, s'.workers[w]);
    assert WorkerOk(s.fibers, s.workers[w]);
    StillWatched(s, s', w);
  }

  // Callbacks and deletions.

  lemma {:induction false} OnEventKeeps(s: State, w: nat, slot: nat)
    requires Inv(s) && Enabled(s, OnEvent(w, slot))
    ensures Inv(Next(s, OnEvent(w, slot)))
  {
    hide Total, QueueCount, ItemCount;
    var s' := Next(s, OnEvent(w, slot));
    forall g: Fiber ensures TokenOf(s', g) && Handles(s', g) == Handles(s, g) {
      assert TokenOf(s, g);
      ItemCountUpdate(s.slots, slot, Plain, g);
    }
  }

  lemma {:induction false} OnTimerKeeps(s: State, w: nat, at: nat)
    requires Inv(s) && Enabled(s, OnTimer(w, at))
    ensures Inv(Next(s, OnTimer(w, at)))
  {
    hide Total, QueueCount, ItemCount;
    var s' := Next(s, OnTimer(w, at));
    forall g: Fiber ensures TokenOf(s', g) && Handles(s', g) == Handles(s, g) {
      assert TokenOf(s, g);
      ItemCountInsert(s.timers, at, Plain, g);
    }
  }

  /** A timer that brings no fiber back may be cancelled, as a blocking call does after its wait. */
  lemma {:induction false} CancelTimerKeeps(s: State, w: nat, at: nat)
    requires Inv(s) && Enabled(s, CancelTimer(w, at))
    ensures Inv(Next(s, CancelTimer(w, at)))
  {
    hide Total, QueueCount, ItemCount;
    var s' := Next(s, CancelTimer(w, at));
    assert s.timers == s'.timers[..at] + [Plain] + s'.timers[at..];
    forall g: Fiber ensures TokenOf(s', g) && Handles(s', g) == Handles(s, g) {
      assert TokenOf(s, g);
      ItemCountInsert(s'.timers, at, Plain, g);
    }
  }

  lemma {:induction false} RemoveKeeps(s: State, w: nat, slot: nat)
    requires Inv(s) && Enabled(s, Remove(w, slot))
    ensures Inv(Next(s, Remove(w, slot)))
  {
    hide Total, QueueCount, ItemCount;
    var s' := Next(s, Remove(w, slot));
    assert SlotOk(s.fibers, s.slots[slot]);
    forall g: Fiber ensures TokenOf(s', g) && Handles(s', g) == Handles(s, g) - RefsOf(s.slots[slot], g) {
      assert TokenOf(s, g);
      ItemCountUpdate(s.slots, slot, Vacant, g);
    }
  }

  // A fiber gives up its thread.

  /** Whoever does not run a fiber does not mind its being held instead of running. */
  lemma {:induction false} HoldsElsewhere(fibers: map<Fiber, FState>, worker: Worker, f: Fiber)
    requires WorkerOk(fibers, worker) && f in fibers && fibers[f] == EXEC && Measure(RUNS, worker, f) == 0
    ensures WorkerOk(fibers[f := HOLD], worker)
  {
  }

  lemma {:induction false} YieldHoldKeeps(s: State, w: nat)
    requires Inv(s) && Enabled(s, YieldHold(w))
    ensures Inv(AfterYieldHold(s, w))
  {
    hide Total, QueueCount, ItemCount;
    var s', f := AfterYieldHold(s, w), FiberOf(s, w);
    Deltas(s.workers, w, s'.workers[w]);
    assert WorkerOk(s.fibers, s.workers[w]);
    OthersDoNotRun(s, w, f);
    forall j | 0 <= j < |s'.workers| ensures WorkerOk(s'.fibers, s'.workers[j]) {
      if j != w {
        assert WorkerOk(s.fibers, s.workers[j]);
        HoldsElsewhere(s.fibers, s.workers[j], f);
      }
    }
    StillWatched(s, s', w);
    forall g: Fiber ensures TokenOf(s', g) && Handles(s', g) == Handles(s, g) {
      assert TokenOf(s, g);
    }
  }

  lemma {:induction false} YieldReadyPlaces(s: State, w: nat)
    requires Inv(s) && Enabled(s, YieldReady(w))
    ensures Places(AfterYieldReady(s, w)) && WorkerOk(s.fibers, s.workers[w])
  {
    FiberMoves(s, w, FiberOf(s, w), READY);
  }

  lemma {:induction false} YieldReadyTokens(s: State, w: nat)
    requires Inv(s) && Enabled(s, YieldReady(w))
    ensures var s', f := AfterYieldReady(s, w), FiberOf(s, w);
            Tokens(s') && forall g: Fiber :: Handles(s', g) == Handles(s, g) + Bit(g == f)
  {
    hide Total, QueueCount, ItemCount, Places, Runners, Kept, Watched;
    var s', f := AfterYieldReady(s, w), FiberOf(s, w);
    Deltas(s.workers, w, s'.workers[w]);
    YieldReadyPlaces(s, w);
    forall g: Fiber ensures TokenOf(s', g) && Handles(s', g) == Handles(s, g) + Bit(g == f) {
      assert TokenOf(s, g);
    }
  }

  lemma {:induction false} YieldReadyKeeps(s: State, w: nat)
    requires Inv(s) && Enabled(s, YieldReady(w))
    ensures Inv(AfterYieldReady(s, w))
  {
    hide Total, Handles, Places, Tokens, WorkerOk;
    var s', f := AfterYieldReady(s, w), FiberOf(s, w);
    YieldReadyPlaces(s, w);
    YieldReadyTokens(s, w);
    Deltas(s.workers, w, s'.workers[w]);
    StillWatched(s, s', w);
  }

  lemma {:induction false} FinishTokens(s: State, w: nat, thrown: bool)
    requires Inv(s) && Enabled(s, Finish(w, thrown))
    ensures var s' := AfterFinish(s, w, thrown);
            Tokens(s') && forall g: Fiber :: Handles(s', g) == Handles(s, g)
  {
    hide Total, QueueCount, ItemCount, Runners, Kept, Watched;
    var s' := AfterFinish(s, w, thrown);
    assert WorkerOk(s.fibers, s.workers[w]);
    Deltas(s.workers, w, s'.workers[w]);
    forall g: Fiber ensures TokenOf(s', g) && Handles(s', g) == Handles(s, g) {
      assert TokenOf(s, g);
    }
  }

  lemma {:induction false} FinishKeeps(s: State, w: nat, thrown: bool)
    requires Inv(s) && Enabled(s, Finish(w, thrown))
    ensures Inv(AfterFinish(s, w, thrown))
  {
    hide Total, Handles, Tokens;
    var s', f := AfterFinish(s, w, thrown), FiberOf(s, w);
    FinishTokens(s, w, thrown);
    Deltas(s.workers, w, s'.workers[w]);
    assert WorkerOk(s.fibers, s.workers[w]);
    FiberMoves(s, w, f, s'.fibers[f]);
    StillWatched(s, s', w);
  }

  /** Counting down after the callback fiber has ended: it is reset for the next callback. */
  lemma {:induction false} ResetTokens(s: State, w: nat)
    requires Inv(s) && Enabled(s, Decrement(w)) && !s.workers[w].pc.ready && s.workers[w].pc.cb
    ensures var s' := AfterDecrement(s, w);
            Tokens(s') && forall g: Fiber :: Handles(s', g) == Handles(s, g)
  {
    hide Total, QueueCount, ItemCount, Runners, Kept, Watched;
    var s' := AfterDecrement(s, w);
    Deltas(s.workers, w, s'.workers[w]);
    assert WorkerOk(s.fibers, s.workers[w]);
    forall g: Fiber ensures TokenOf(s', g) && Handles(s', g) == Handles(s, g) {
      assert TokenOf(s, g);
    }
  }

  lemma {:induction false} ResetKeeps(s: State, w: nat)
    requires Inv(s) && Enabled(s, Decrement(w)) && !s.workers[w].pc.ready && s.workers[w].pc.cb
    ensures Inv(AfterDecrement(s, w))
  {
    hide Total, Handles, Tokens;
    var s', f := AfterDecrement(s, w), s.workers[w].pc.fiber;
    ResetTokens(s, w);
    Deltas(s.workers, w, s'.workers[w]);
    assert WorkerOk(s.fibers, s.workers[w]);
    FiberMoves(s, w, f, INIT);
    StillWatched(s, s', w);
  }

  lemma {:induction false} DecrementTokens(s: State, w: nat)
    requires Inv(s) && Enabled(s, Decrement(w)) && (s.workers[w].pc.ready || !s.workers[w].pc.cb)
    ensures var s' := AfterDecrement(s, w);
            Tokens(s') && forall g: Fiber :: Handles(s', g) == Handles(s, g)
  {
    hide Total, QueueCount, ItemCount, Runners, Kept, Watched;
    assert WorkerOk(s.fibers, s.workers[w]);
    var s' := AfterDecrement(s, w);
    Deltas(s.workers, w, s'.workers[w]);
    forall g: Fiber ensures TokenOf(s', g) && Handles(s', g) == Handles(s, g) {
      assert TokenOf(s, g);
    }
  }

  lemma {:induction false} DecrementKeeps(s: State, w: nat)
    requires Inv(s) && Enabled(s, Decrement(w))
    ensures Inv(AfterDecrement(s, w))
  {
    hide Total, Handles, Tokens;
    assert WorkerOk(s.fibers, s.workers[w]);
    if !s.workers[w].pc.ready && s.workers[w].pc.cb {
      hide Inv, AfterDecrement;
      ResetKeeps(s, w);
    } else {
      var s' := AfterDecrement(s, w);
      DecrementTokens(s, w);
      Deltas(s.workers, w, s'.workers[w]);
      StillWatched(s, s', w);
    }
  }

  lemma {:induction false} PutBackKeeps(s: State, w: nat)
    requires Inv(s) && Enabled(s, PutBack(w))
    ensures Inv(AfterPutBack(s, w))
  {
    hide Total, QueueCount, ItemCount;
    var s', f := AfterPutBack(s, w), s.workers[w].pc.fiber;
    Deltas(s.workers, w, s'.workers[w]);
    Pushes(s.queue, Task(Resume(f), None));
    assert WorkerOk(s.fibers, s.workers[w]);
    StillWatched(s, s', w);
    forall g: Fiber ensures TokenOf(s', g) && Handles(s', g) == Handles(s, g) {
      assert TokenOf(s, g);
    }
  }

  // Idling.

  /** A worker moves between places where it holds nothing. */
  lemma {:induction false} MoveKeeps(s: State, w: nat, x: Worker)
    requires Inv(s) && At(s, w)
    requires s.workers[w].pc in {NotStarted, Scan, Nothing, Idle([]), Asked, Cleared}
    requires x.pc in {Skipped, Scan, Idle([]), Asked, Cleared, Left}
    requires x.cbFiber == s.workers[w].cbFiber
    requires Watched(s.(workers := s.workers[w := x]))
    ensures Inv(s.(workers := s.workers[w := x]))
  {
    hide Total, QueueCount;
    var s' := s.(workers := s.workers[w := x]);
    Deltas(s.workers, w, x);
    assert WorkerOk(s.fibers, s.workers[w]);
    forall g: Fiber ensures TokenOf(s', g) && Handles(s', g) == Handles(s, g) {
      assert TokenOf(s, g);
    }
  }

  lemma {:induction false} CollectPlaces(s: State, w: nat, count: nat)
    requires Inv(s) && Enabled(s, Collect(w, count))
    ensures Places(Next(s, Collect(w, count)))
  {
    assert WorkerOk(s.fibers, s.workers[w]);
  }

  lemma {:induction false} Splits(items: seq<Item>, n: nat)
    requires n <= |items|
    ensures forall g :: ItemCount(items, g) == ItemCount(items[..n], g) + ItemCount(items[n..], g)
  {
    hide *;
    forall g ensures ItemCount(items, g) == ItemCount(items[..n], g) + ItemCount(items[n..], g) {
      assert items == items[..n] + items[n..];
      ItemCountAppend(items[..n], items[n..], g);
    }
  }

  lemma {:induction false} CollectTokens(s: State, w: nat, count: nat)
    requires Inv(s) && Enabled(s, Collect(w, count))
    ensures var s' := Next(s, Collect(w, count));
            Tokens(s') && forall g: Fiber :: Handles(s', g) == Handles(s, g)
  {
    hide Total, QueueCount, Places, Runners, Kept, Watched;
    var s' := Next(s, Collect(w, count));
    Deltas(s.workers, w, s'.workers[w]);
    Splits(s.timers, count);
    forall g: Fiber ensures TokenOf(s', g) && Handles(s', g) == Handles(s, g) {
      assert TokenOf(s, g);
    }
  }

  lemma {:induction false} CollectKeeps(s: State, w: nat, count: nat)
    requires Inv(s) && Enabled(s, Collect(w, count))
    ensures Inv(Next(s, Collect(w, count)))
  {
    var s' := Next(s, Collect(w, count));
    CollectPlaces(s, w, count);
    CollectTokens(s, w, count);
    hide Total, Handles, Places, Tokens;
    Deltas(s.workers, w, s'.workers[w]);
    StillWatched(s, s', w);
  }

  lemma {:induction false} Joins(q: seq<Task>, held: seq<Item>)
    ensures forall g :: QueueCount(q + Tasks(held), g) == QueueCount(q, g) + ItemCount(held, g)
  {
    hide *;
    forall g ensures QueueCount(q + Tasks(held), g) == QueueCount(q, g) + ItemCount(held, g) {
      QueueCountAppend(q, Tasks(held), g);
      QueueCountTasks(held, g);
    }
  }

  lemma {:induction false} BatchTokens(s: State, w: nat)
    requires Inv(s) && Enabled(s, Batch(w))
    ensures var s' := Next(s, Batch(w));
            Tokens(s') && forall g: Fiber :: Handles(s', g) == Handles(s, g)
  {
    hide Total, QueueCount, Places, Runners, Kept, Watched;
    var s', held := Next(s, Batch(w)), s.workers[w].pc.held;
    Deltas(s.workers, w, s'.workers[w]);
    Joins(s.queue, held);
    forall g: Fiber ensures TokenOf(s', g) && Handles(s', g) == Handles(s, g) {
      assert TokenOf(s, g);
    }
  }

  lemma {:induction false} BatchKeeps(s: State, w: nat)
    requires Inv(s) && Enabled(s, Batch(w))
    ensures Inv(Next(s, Batch(w)))
  {
    hide Total, Handles, Tokens;
    var s' := Next(s, Batch(w));
    BatchTokens(s, w);
    Deltas(s.workers, w, s'.workers[w]);
    assert WorkerOk(s.fibers, s.workers[w]);
    StillWatched(s, s', w);
  }

  lemma {:induction false} StopKeeps(s: State)
    requires Inv(s)
    ensures Inv(s.(stopped := true))
  {
    hide Total, QueueCount, ItemCount;
    var s' := s.(stopped := true);
    forall g: Fiber ensures TokenOf(s', g) && Handles(s', g) == Handles(s, g) {
      assert TokenOf(s, g);
    }
  }

  /** Before stop every worker is staying, and there is one. */
  lemma {:induction false} SomeoneStays(s: State)
    requires Watched(s) && !s.stopped
    ensures At(s, 0) && Staying(s.workers[0])
  {
  }

  lemma {:induction false} GoKeeps(s: State, w: nat, made: Fiber)
    requires Inv(s) && Enabled(s, Go(w, made))
    ensures Inv(AfterGo(s, w, made))
  {
    hide Tokens, Kept, Runners, Total;
    var item := s.workers[w].pc.task.item;
    assert WorkerOk(s.fibers, s.workers[w]);
    if item.Resume? {
      GoFiberKeeps(s, w, item.fiber);
    } else {
      GoCallbackKeeps(s, w, item, made);
    }
  }

  lemma {:induction false} IdleMovesKeep(s: State, a: Action)
    requires Inv(s) && Enabled(s, a)
    requires || a.Start? || a.Skip? || a.Enter? || a.AskTimers? || a.AskEvents? || a.Decline? || a.IdleExit? || a.Back?
    ensures Inv(Next(s, a))
  {
    hide Tokens, Kept, Runners, Total, Places;
    var s', x := Next(s, a), Next(s, a).workers[a.w];
    assert s' == s.(workers := s.workers[a.w := x]);
    assert Watched(s') by {
      if a.Enter? && Unpinned(s.queue) {
        var j :| 0 <= j < |s.workers| && Staying(s.workers[j]);
        assert Staying(s'.workers[if x.pc.Left? then j else a.w]);
      } else if a.Start? || a.Back? || a.AskTimers? || a.AskEvents? || a.Decline? {
        StillWatched(s, s', a.w);
      }
    }
    MoveKeeps(s, a.w, x);
  }

  /** Every step keeps the invariant. */
  lemma {:induction false} StepKeepsInv(s: State, a: Action)
    requires Inv(s) && Enabled(s, a)
    ensures Inv(Next(s, a))
  {
    hide Inv;
    match a
    case Outside(task) =>
      OutsideMeetsWorker(s);
      AdmitKeeps(s, task, 0);
    case OutsideFire(slot) =>
      OutsideMeetsWorker(s);
      ReleaseKeeps(s, slot, 0);
    case Stop => StopKeeps(s);
    case Take(w) =>
      if FirstTakeable(s.fibers, s.queue, w) == |s.queue| {
        TakeNothingKeeps(s, w);
      } else {
        TakeOneKeeps(s, w);
      }
    case Go(w, made) => GoKeeps(s, w, made);
    case Spawn(w, task) => AdmitKeeps(s, task, w);
    case WakeUp(w) => WakeUpKeeps(s, w);
    case Await(w, slot) => AwaitKeeps(s, w, slot);
    case OnEvent(w, slot) => OnEventKeeps(s, w, slot);
    case Sleep(w, at) => SleepKeeps(s, w, at);
    case OnTimer(w, at) => OnTimerKeeps(s, w, at);
    case CancelTimer(w, at) => CancelTimerKeeps(s, w, at);
    case Reschedule(w, pin) => RescheduleKeeps(s, w, pin);
    case Fire(w, slot) => ReleaseKeeps(s, slot, w);
    case Remove(w, slot) => RemoveKeeps(s, w, slot);
    case YieldHold(w) => YieldHoldKeeps(s, w);
    case YieldReady(w) => YieldReadyKeeps(s, w);
    case Finish(w, thrown) => FinishKeeps(s, w, thrown);
    case Decrement(w) => DecrementKeeps(s, w);
    case PutBack(w) => PutBackKeeps(s, w);
    case Collect(w, count) => CollectKeeps(s, w, count);
    case Batch(w) => BatchKeeps(s, w);
    case _ => IdleMovesKeep(s, a);
  }

  lemma {:induction false} OutsideMeetsWorker(s: State)
    requires Inv(s) && !s.stopped
    ensures At(s, 0) && Staying(s.workers[0])
  {
    SomeoneStays(s);
  }
}
