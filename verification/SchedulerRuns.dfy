/** All interleavings of the workers. */
module SchedulerRuns {
  import opened SchedulerSpec
  import opened SchedulerInv
  import opened SchedulerSteps

  predicate Legal(s: State, run: seq<Action>)
    decreases |run|
  {
    run == [] || (Enabled(s, run[0]) && Legal(Next(s, run[0]), run[1..]))
  }

  function Run(s: State, run: seq<Action>): State
    requires Legal(s, run)
    decreases |run|
  {
    if run == [] then s else Run(Next(s, run[0]), run[1..])
  }

  lemma {:induction false} RunKeepsInv(s: State, run: seq<Action>)
    requires Inv(s) && Legal(s, run)
    ensures Inv(Run(s, run))
    decreases |run|
  {
    hide Inv;
    if run != [] {
      StepKeepsInv(s, run[0]);
      RunKeepsInv(Next(s, run[0]), run[1..]);
    }
  }

  lemma {:induction false} NothingCounted(k: Kind, ws: seq<Worker>, f: Fiber)
    requires forall w :: 0 <= w < |ws| ==> Measure(k, ws[w], f) == 0
    ensures Total(k, ws, f) == 0
  {
    hide Measure;
    if ws != [] {
      NothingCounted(k, ws[1..], f);
    }
  }

  lemma {:induction false} NoItems(items: seq<Item>, f: Fiber)
    requires forall i :: 0 <= i < |items| ==> RefsOf(items[i], f) == 0
    ensures ItemCount(items, f) == 0
  {
    if items != [] {
      NoItems(items[1..], f);
    }
  }

  lemma {:induction false} InitialInv(n: nat, m: nat, root: Option<nat>, polls: bool)
    requires n > 0
    ensures Inv(Initial(n, m, root, polls))
  {
    hide Total, ItemCount;
    var s := Initial(n, m, root, polls);
    forall f: Fiber, k
      ensures Total(k, s.workers, f) == 0 && ItemCount(s.slots, f) == 0 && ItemCount(s.timers, f) == 0
    {
      NothingCounted(k, s.workers, f);
      NoItems(s.slots, f);
      NoItems(s.timers, f);
    }
    forall f: Fiber ensures TokenOf(s, f) {
    }
  }

  /** A state that some scheduler starts in. */
  ghost predicate IsInitial(s: State) {
    exists n: nat, m: nat, root: Option<nat>, polls: bool :: n > 0 && s == Initial(n, m, root, polls)
  }

  /** A state that some run of some scheduler reaches. */
  ghost predicate Reachable(s: State) {
    exists s0: State, run: seq<Action> :: IsInitial(s0) && Reaches(s0, run, s)
  }

  predicate Reaches(s0: State, run: seq<Action>, s: State) {
    Legal(s0, run) && Run(s0, run) == s
  }

  lemma {:induction false} ReachableInv(s: State)
    requires Reachable(s)
    ensures Inv(s)
  {
    hide Inv;
    var s0: State, run: seq<Action> :| IsInitial(s0) && Reaches(s0, run, s);
    var n: nat, m: nat, root: Option<nat>, polls: bool :| n > 0 && s0 == Initial(n, m, root, polls);
    InitialInv(n, m, root, polls);
    RunKeepsInv(s0, run);
  }

  // The states on the way.

  lemma {:induction false} Prefix(s: State, run: seq<Action>, k: nat)
    requires Legal(s, run) && k <= |run|
    ensures Legal(s, run[..k])
    ensures k < |run| ==> Enabled(Run(s, run[..k]), run[k])
    ensures k < |run| ==> Legal(s, run[..k + 1]) && Run(s, run[..k + 1]) == Next(Run(s, run[..k]), run[k])
    decreases k
  {
    hide Next, Enabled;
    if k == 0 {
      assert run[..0] == [];
      if run != [] {
        assert run[..1][0] == run[0] && run[..1][1..] == [];
      }
    } else {
      assert run[..k][0] == run[0] && run[..k][1..] == run[1..][..k - 1];
      if k < |run| {
        assert run[..k + 1][0] == run[0] && run[..k + 1][1..] == run[1..][..k];
      }
      Prefix(Next(s, run[0]), run[1..], k - 1);
    }
  }

  /** The state after the first `k` steps. */
  function StateAt(s: State, run: seq<Action>, k: nat): State
    requires Legal(s, run) && k <= |run|
  {
    Prefix(s, run, k);
    Run(s, run[..k])
  }

  /** One step further. */
  lemma {:induction false} StepAt(s: State, run: seq<Action>, k: nat)
    requires Legal(s, run) && k < |run|
    ensures Enabled(StateAt(s, run, k), run[k])
    ensures StateAt(s, run, k + 1) == Next(StateAt(s, run, k), run[k])
  {
    hide Next, Enabled;
    Prefix(s, run, k);
  }

  lemma {:induction false} EndsAt(s: State, run: seq<Action>)
    requires Legal(s, run)
    ensures StateAt(s, run, 0) == s && StateAt(s, run, |run|) == Run(s, run)
  {
    assert run[..0] == [] && run[..|run|] == run;
  }

  lemma {:induction false} ReachableAt(s: State, run: seq<Action>, k: nat)
    requires IsInitial(s) && Legal(s, run) && k <= |run|
    ensures Reachable(StateAt(s, run, k))
  {
    Prefix(s, run, k);
    assert Reaches(s, run[..k], StateAt(s, run, k));
  }

  // No fiber is resumed while it runs.

  /**
   * In every run a worker about to switch to a fiber finds it neither running nor finished, no worker
   * runs it, and no other handle on it exists; and no assertion has failed.
   */
  lemma {:induction false} ResumesAreSafe(s: State, w: nat, f: Fiber)
    requires Reachable(s) && At(s, w) && s.workers[w].pc.Picked? && s.workers[w].pc.task.item == Resume(f)
    ensures !s.failed && f in s.fibers && s.fibers[f] in {INIT, HOLD, READY}
    ensures forall j :: 0 <= j < |s.workers| ==> !(s.workers[j].pc.Run? && s.workers[j].pc.fiber == f)
    ensures Handles(s, f) == 1
  {
    hide Total, ItemCount, QueueCount;
    ReachableInv(s);
    GoFiberKeeps(s, w, f);
    assert TokenOf(s, f);
    TotalHas(HELD, s.workers, w, f);
    forall j | 0 <= j < |s.workers| ensures !(s.workers[j].pc.Run? && s.workers[j].pc.fiber == f) {
      assert WorkerOk(s.fibers, s.workers[j]);
    }
  }

  /** A worker about to run a callback can reset its callback fiber. */
  lemma {:induction false} CallbackFiberIsFree(s: State, w: nat)
    requires Reachable(s) && At(s, w) && s.workers[w].pc.Picked? && !s.workers[w].pc.task.item.Resume?
    ensures s.workers[w].cbFiber.Some? ==>
              s.workers[w].cbFiber.value in s.fibers && s.fibers[s.workers[w].cbFiber.value] == INIT
  {
    ReachableInv(s);
    assert WorkerOk(s.fibers, s.workers[w]);
  }

  /** Two workers never run the same fiber. */
  lemma {:induction false} OneRunner(s: State, i: nat, j: nat)
    requires Reachable(s) && i < |s.workers| && j < |s.workers| && s.workers[i].pc.Run? && s.workers[j].pc.Run?
    requires s.workers[i].pc.fiber == s.workers[j].pc.fiber
    ensures i == j
  {
    ReachableInv(s);
    var f := s.workers[i].pc.fiber;
    assert Total(RUNS, s.workers, f) == Bit(f in s.fibers && s.fibers[f] == EXEC);
    if i != j {
      TotalHasTwo(RUNS, s.workers, i, j, f);
    }
  }

  // Every wait is ended once.

  /**
   * A fiber has at most one handle over queue, event slots, timers and what workers hold. Each handle
   * ever made for it was used for one switch to it, was deleted with its event, or is still there: no
   * wait is ended twice, and none is lost.
   */
  lemma {:induction false} WaitsEndOnce(s: State, f: Fiber)
    requires Reachable(s)
    ensures Handles(s, f) <= 1
    ensures s.granted[f] == s.resumed[f] + s.dropped[f] + Handles(s, f)
  {
    ReachableInv(s);
    assert TokenOf(s, f);
  }

  /** The same, place by place. */
  lemma {:induction false} HandlesAreDistinct(s: State, f: Fiber)
    requires Reachable(s)
    ensures forall i, j :: 0 <= i < j < |s.queue| ==>
              !(RefsOf(s.queue[i].item, f) == 1 && RefsOf(s.queue[j].item, f) == 1)
    ensures forall i, j :: 0 <= i < |s.queue| && 0 <= j < |s.slots| ==>
              !(RefsOf(s.queue[i].item, f) == 1 && s.slots[j] == Resume(f))
    ensures forall i, j :: 0 <= i < j < |s.slots| ==> !(s.slots[i] == Resume(f) && s.slots[j] == Resume(f))
    ensures forall i, j :: 0 <= i < |s.slots| && 0 <= j < |s.timers| ==>
              !(s.slots[i] == Resume(f) && s.timers[j] == Wake(f))
    ensures forall i, j :: 0 <= i < |s.queue| && 0 <= j < |s.timers| ==>
              !(RefsOf(s.queue[i].item, f) == 1 && s.timers[j] == Wake(f))
  {
    WaitsEndOnce(s, f);
    forall i, j | 0 <= i < j < |s.queue| ensures !(RefsOf(s.queue[i].item, f) == 1 && RefsOf(s.queue[j].item, f) == 1) {
      QueueCountTwo(s.queue, i, j, f);
    }
    forall i, j | 0 <= i < j < |s.slots| ensures !(s.slots[i] == Resume(f) && s.slots[j] == Resume(f)) {
      ItemCountTwo(s.slots, i, j, f);
    }
    forall i | 0 <= i < |s.queue| ensures RefsOf(s.queue[i].item, f) <= QueueCount(s.queue, f) {
      QueueCountHas(s.queue, i, f);
    }
    forall i | 0 <= i < |s.slots| ensures RefsOf(s.slots[i], f) <= ItemCount(s.slots, f) {
      ItemCountHas(s.slots, i, f);
    }
    forall i | 0 <= i < |s.timers| ensures RefsOf(s.timers[i], f) <= ItemCount(s.timers, f) {
      ItemCountHas(s.timers, i, f);
    }
  }

  lemma {:induction false} QueueCountTwo(q: seq<Task>, i: nat, j: nat, f: Fiber)
    requires i < j < |q|
    ensures RefsOf(q[i].item, f) + RefsOf(q[j].item, f) <= QueueCount(q, f)
  {
    if i == 0 {
      QueueCountHas(q[1..], j - 1, f);
    } else {
      QueueCountTwo(q[1..], i - 1, j - 1, f);
    }
  }

  lemma {:induction false} ItemCountTwo(items: seq<Item>, i: nat, j: nat, f: Fiber)
    requires i < j < |items|
    ensures RefsOf(items[i], f) + RefsOf(items[j], f) <= ItemCount(items, f)
  {
    if i == 0 {
      ItemCountHas(items[1..], j - 1, f);
    } else {
      ItemCountTwo(items[1..], i - 1, j - 1, f);
    }
  }

  // The count of active threads.

  /** It is the number of workers between taking a task and counting down, and counting down never underflows. */
  lemma {:induction false} ActiveIsExact(s: State)
    requires Reachable(s)
    ensures s.active == Total(BUSY, s.workers, 0)
    ensures forall w :: 0 <= w < |s.workers| ==>
              (s.workers[w].pc.Picked? || s.workers[w].pc.Run? || s.workers[w].pc.Returned?) ==> s.active > 0
  {
    ReachableInv(s);
    forall w | 0 <= w < |s.workers| && (s.workers[w].pc.Picked? || s.workers[w].pc.Run? || s.workers[w].pc.Returned?)
      ensures s.active > 0
    {
      TotalHas(BUSY, s.workers, w, 0);
    }
  }

  // Shutting down.

  predicate AllGone(s: State) {
    forall w :: 0 <= w < |s.workers| ==> s.workers[w].pc.Left? || s.workers[w].pc.Skipped?
  }

  /**
   * Once every worker has left its loop, every task still queued is pinned to a worker, no fiber is
   * running and none that yielded to go on is left behind.
   */
  lemma {:induction false} NothingStranded(s: State)
    requires Reachable(s) && AllGone(s)
    ensures forall i :: 0 <= i < |s.queue| ==> s.queue[i].pin.Some?
    ensures forall f :: f in s.fibers ==> s.fibers[f] != EXEC && s.fibers[f] != READY
    ensures s.active == 0
  {
    hide Total, ItemCount, QueueCount;
    ReachableInv(s);
    forall k, f ensures k != OWN ==> Total(k, s.workers, f) == 0 {
      if k != OWN {
        NothingCounted(k, s.workers, f);
      }
    }
    assert !Unpinned(s.queue) by {
      assert forall w :: 0 <= w < |s.workers| ==> !Staying(s.workers[w]);
    }
    forall f | f in s.fibers && s.fibers[f] == READY ensures false {
      forall i | 0 <= i < |s.queue| ensures RefsOf(s.queue[i].item, f) == 0 {
        assert TaskOk(s.fibers, s.queue[i]);
      }
      NoTasks(s.queue, f);
      NoItems(s.slots, f);
      NoItems(s.timers, f);
    }
  }

  lemma {:induction false} NoTasks(q: seq<Task>, f: Fiber)
    requires forall i :: 0 <= i < |q| ==> RefsOf(q[i].item, f) == 0
    ensures QueueCount(q, f) == 0
  {
    if q != [] {
      NoTasks(q[1..], f);
    }
  }

  /** Nothing runs, nothing is queued or held, and nothing waits. */
  predicate Quiet(s: State) {
    && s.stopped && s.queue == [] && s.timers == [] && NoEvents(s)
    && (forall w :: 0 <= w < |s.workers| ==> Still(s.workers[w].pc))
  }

  predicate Still(pc: Pc) {
    pc in {NotStarted, Skipped, Scan, Nothing, Idle([]), Asked, Cleared, Left}
  }

  lemma {:induction false} QuietMoves(s: State, w: nat, x: Worker)
    requires Quiet(s) && At(s, w) && Still(x.pc)
    ensures Quiet(s.(workers := s.workers[w := x]))
  {
  }

  /** In a quiet state workers only move between scanning, idling and leaving. */
  lemma {:induction false} OnlyIdling(s: State, a: Action)
    requires Quiet(s) && Enabled(s, a) && !a.Stop?
    ensures || a.Start? || a.Skip? || a.Take? || a.Enter? || a.AskTimers? || a.AskEvents? || a.Decline? || a.IdleExit?
            || a.Collect? || a.Batch? || a.Back?
    ensures At(s, a.w) && Still(s.workers[a.w].pc)
  {
  }

  lemma {:induction false} QuietStays(s: State, a: Action)
    requires Quiet(s) && Enabled(s, a)
    ensures Quiet(Next(s, a))
  {
    if !a.Stop? {
      OnlyIdling(s, a);
      hide Quiet, Stopping;
      assert Quiet(s);
      assert s.queue == [] && s.timers == [] by {
        QuietIsEmpty(s);
      }
      if a.Collect? || a.Batch? {
        assert Next(s, a) == s.(workers := s.workers[a.w := Next(s, a).workers[a.w]]);
      }
      QuietMoves(s, a.w, Next(s, a).workers[a.w]);
    }
  }

  lemma {:induction false} QuietIsEmpty(s: State)
    requires Quiet(s)
    ensures s.queue == [] && s.timers == []
  {
  }

  /** Once it is quiet it stays quiet: if one idle fiber ends in a quiet state, nothing is left behind. */
  lemma {:induction false} QuietForGood(s: State, run: seq<Action>, k: nat, l: nat)
    requires Legal(s, run) && k <= l <= |run| && Quiet(StateAt(s, run, k))
    ensures Quiet(StateAt(s, run, l))
    decreases l
  {
    hide Next, Enabled, Quiet;
    if k < l {
      QuietForGood(s, run, k, l - 1);
      StepAt(s, run, l - 1);
      QuietStays(StateAt(s, run, l - 1), run[l - 1]);
    }
  }

  predicate Asleep(pc: Pc) {
    pc.NotStarted? || pc.Skipped?
  }

  /** The worker that takes the step. */
  function By(a: Action): Option<nat> {
    if a.Outside? || a.OutsideFire? || a.Stop? then None else Some(a.w)
  }

  /**
   * A step changes the worker that takes it and no other.
   * Only the end of an idle fiber is noted, only a worker that noted it leaves, none falls asleep again,
   * and none comes back that was not going to look at the queue again.
   */
  predicate MarksKept(ws: seq<Worker>, ws': seq<Worker>, a: Action) {
    |ws'| == |ws| && forall w :: 0 <= w < |ws| ==>
      && ws'[w].idleDone == (ws[w].idleDone || (a.IdleExit? && a.w == w))
      && (ws'[w].pc.Left? ==> ws[w].pc.Left? || ws[w].idleDone)
      && (Asleep(ws'[w].pc) ==> Asleep(ws[w].pc))
      && (Staying(ws'[w]) ==> Staying(ws[w]))
      && (Staying(ws[w]) && !Staying(ws'[w]) ==> (a.Skip? || a.Take?) && a.w == w)
      && (By(a) != Some(w) ==> ws'[w] == ws[w])
      && (By(a) == Some(w) && (ws'[w].pc.Asked? || ws'[w].pc.Cleared?) ==> a.AskTimers? || a.AskEvents?)
  }

  lemma {:induction false} FlagsKept(s: State, a: Action)
    requires Enabled(s, a)
    ensures MarksKept(s.workers, Next(s, a).workers, a)
  {
    hide MarksKept, Next, Stopping, Fresh;
    match a
    case Take(w) => TakeMarks(s, w);
    case Go(w, made) => GoMarks(s, w, made);
    case YieldHold(w) => YieldMarks(s, a);
    case YieldReady(w) => YieldMarks(s, a);
    case Finish(w, _) => YieldMarks(s, a);
    case Decrement(w) => ReturnMarks(s, a);
    case PutBack(w) => ReturnMarks(s, a);
    case IdleExit(w) => ExitMarks(s, w);
    case Enter(w) => MoveMarks(s, a, w);
    case Start(w) => MoveMarks(s, a, w);
    case Skip(w) => MoveMarks(s, a, w);
    case WakeUp(w) => MoveMarks(s, a, w);
    case Await(w, _) => BindMarks(s, a, w);
    case Sleep(w, _) => BindMarks(s, a, w);
    case Reschedule(w, _) => BindMarks(s, a, w);
    case Collect(w, _) => MoveMarks(s, a, w);
    case Batch(w) => MoveMarks(s, a, w);
    case Back(w) => MoveMarks(s, a, w);
    case AskTimers(w) => MoveMarks(s, a, w);
    case AskEvents(w) => MoveMarks(s, a, w);
    case Decline(w) => MoveMarks(s, a, w);
    case _ => StillMarks(s, a);
  }

  lemma {:induction false} TakeMarks(s: State, w: nat)
    requires Enabled(s, Take(w))
    ensures MarksKept(s.workers, Next(s, Take(w)).workers, Take(w))
  {
    hide MarksKept, FirstTakeable;
    PcMarks(s.workers, w, Next(s, Take(w)).workers[w].pc, Take(w));
  }

  lemma {:induction false} GoMarks(s: State, w: nat, made: Fiber)
    requires Enabled(s, Go(w, made))
    ensures MarksKept(s.workers, Next(s, Go(w, made)).workers, Go(w, made))
  {
    hide MarksKept, AfterGoFiber, AfterGoCallback;
    var item := s.workers[w].pc.task.item;
    SameMarks(s.workers, Go(w, made));
    if item.Resume? && item.fiber in s.fibers {
      GoFiberMarks(s, w, item.fiber, made);
    } else if !item.Resume? && item != Vacant {
      GoCallbackMarks(s, w, item, made);
    }
  }

  lemma {:induction false} SameMarks(ws: seq<Worker>, a: Action)
    requires !a.IdleExit? && forall w :: 0 <= w < |ws| && By(a) == Some(w) ==> !ws[w].pc.Asked? && !ws[w].pc.Cleared?
    ensures MarksKept(ws, ws, a)
  {
  }

  lemma {:induction false} GoFiberMarks(s: State, w: nat, f: Fiber, made: Fiber)
    requires At(s, w) && f in s.fibers && s.workers[w].pc.Picked?
    ensures MarksKept(s.workers, AfterGoFiber(s, w, f).workers, Go(w, made))
  {
  }

  lemma {:induction false} GoCallbackMarks(s: State, w: nat, item: Item, made: Fiber)
    requires At(s, w) && s.workers[w].pc.Picked?
    ensures MarksKept(s.workers, AfterGoCallback(s, w, item, made).workers, Go(w, made))
  {
  }

  lemma {:induction false} YieldMarks(s: State, a: Action)
    requires Enabled(s, a) && (a.YieldHold? || a.YieldReady? || a.Finish?)
    ensures MarksKept(s.workers, Next(s, a).workers, a)
  {
  }

  lemma {:induction false} ReturnMarks(s: State, a: Action)
    requires Enabled(s, a) && (a.Decrement? || a.PutBack?)
    ensures MarksKept(s.workers, Next(s, a).workers, a)
  {
    hide MarksKept;
    if a.Decrement? {
      PcMarks(s.workers, a.w, Next(s, a).workers[a.w].pc, a);
    } else {
      PutBackMarks(s, a.w);
    }
  }

  lemma {:induction false} PutBackMarks(s: State, w: nat)
    requires Enabled(s, PutBack(w))
    ensures MarksKept(s.workers, Next(s, PutBack(w)).workers, PutBack(w))
  {
  }

  lemma {:induction false} ExitMarks(s: State, w: nat)
    requires Enabled(s, IdleExit(w))
    ensures MarksKept(s.workers, Next(s, IdleExit(w)).workers, IdleExit(w))
  {
  }

  lemma {:induction false} PcMarks(ws: seq<Worker>, w: nat, pc: Pc, a: Action)
    requires w < |ws| && !a.IdleExit? && (pc.Left? ==> ws[w].idleDone) && (Asleep(pc) ==> Asleep(ws[w].pc))
    requires Staying(ws[w].(pc := pc)) ==> Staying(ws[w])
    requires Staying(ws[w]) && !Staying(ws[w].(pc := pc)) ==> (a.Skip? || a.Take?) && a.w == w
    requires By(a) == Some(w) && (pc.Asked? || pc.Cleared? ==> a.AskTimers? || a.AskEvents?)
    ensures MarksKept(ws, ws[w := ws[w].(pc := pc)], a)
  {
  }

  lemma {:induction false} MoveMarks(s: State, a: Action, w: nat)
    requires Enabled(s, a) && At(s, w)
    requires || a.Enter? || a.Start? || a.Skip? || a.WakeUp? || a.Collect? || a.Batch? || a.Back? || a.AskTimers?
             || a.AskEvents? || a.Decline?
    requires a.w == w
    ensures MarksKept(s.workers, Next(s, a).workers, a)
  {
    hide MarksKept, Stopping;
    PcMarks(s.workers, w, Next(s, a).workers[w].pc, a);
  }

  lemma {:induction false} BindMarks(s: State, a: Action, w: nat)
    requires Enabled(s, a) && At(s, w) && (a.Await? || a.Sleep? || a.Reschedule?) && a.w == w
    ensures MarksKept(s.workers, Next(s, a).workers, a)
  {
    hide MarksKept;
    PcMarks(s.workers, w, Next(s, a).workers[w].pc, a);
  }

  lemma {:induction false} StillMarks(s: State, a: Action)
    requires Enabled(s, a)
    requires || a.Outside? || a.OutsideFire? || a.Stop? || a.Spawn? || a.OnEvent? || a.OnTimer? || a.CancelTimer?
             || a.Fire? || a.Remove?
    ensures MarksKept(s.workers, Next(s, a).workers, a)
  {
    assert Next(s, a).workers == s.workers;
  }

  /** No timer is armed and no event registered. */
  predicate NobodyWaits(s: State) {
    s.timers == [] && NoEvents(s)
  }
}
