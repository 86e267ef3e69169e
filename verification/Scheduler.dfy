/** The scheduler of scheduler.cpp over fiber objects, updated in place, against the machine of SchedulerSpec. */
module Schedulers {
  import S = SchedulerSpec
  import opened SchedulerInv
  import opened SchedulerRuns
  import opened SchedulerSteps

  /** fiber.cpp, without the stacks: what happens to m_state. */
  class Fiber {
    const id: nat
    var state: S.FState

    constructor (id: nat)
      ensures this.id == id && state == S.INIT
    {
      this.id := id;
      state := S.INIT;
    }

    /** reset: only a fiber that ended or never ran may get another callback. */
    method Reset()
      requires state == S.TERM || state == S.EXCEPT || state == S.INIT
      modifies this
      ensures state == S.INIT
    {
      state := S.INIT;
    }

    /** swapIn: only a fiber that is not running may be switched to. */
    method SwapIn()
      requires state != S.EXEC
      modifies this
      ensures state == S.EXEC
    {
      state := S.EXEC;
    }

    method YieldToReady()
      requires state == S.EXEC
      modifies this
      ensures state == S.READY
    {
      state := S.READY;
    }

    method YieldToHold()
      requires state == S.EXEC
      modifies this
      ensures state == S.HOLD
    {
      state := S.HOLD;
    }

    /** The end of MainFunc, reached by returning or by a thrown object that is no standard exception. */
    method End(thrown: bool)
      modifies this
      ensures state == if thrown then S.EXCEPT else S.TERM
    {
      state := if thrown then S.EXCEPT else S.TERM;
    }
  }

  /** A callback, or the bound call of `schedule` with a fiber that the hooked sleep stores in a timer. */
  datatype Callback = Code | ScheduleFiber(f: Fiber)

  datatype FiberAndThread = FiberAndThread(fiber: S.Option<Fiber>, cb: S.Option<Callback>, thread: S.Option<nat>)

  const NO_TASK: FiberAndThread := FiberAndThread(S.None, S.None, S.None)

  /** The task that a queue element stands for; one with neither fiber nor callback stands for none. */
  function ItemOf(ft: FiberAndThread): S.Item {
    if ft.fiber.Some? then S.Resume(ft.fiber.value.id)
    else if ft.cb.None? then S.Vacant
    else if ft.cb.value == Code then S.Plain
    else S.Wake(ft.cb.value.f.id)
  }

  function TaskOf(ft: FiberAndThread): S.Task {
    S.Task(ItemOf(ft), ft.thread)
  }

  /** The fibers that an element refers to are objects of the pool. */
  ghost predicate Owned(ft: FiberAndThread, pool: set<Fiber>) {
    && (ft.fiber.Some? ==> ft.fiber.value in pool)
    && (ft.cb.Some? && ft.cb.value.ScheduleFiber? ==> ft.cb.value.f in pool)
  }

  /** The local variables of `run` on one thread, and what its current fiber was switched to for. */
  class Worker {
    var ft: FiberAndThread
    var current: S.Option<Fiber>   // the fiber switched to
    var job: S.Option<Callback>    // the callback that the callback fiber was given
    var cbFiber: S.Option<Fiber>
    var idleDone: bool             // the idle fiber is TERM

    constructor ()
      ensures ft == NO_TASK && current.None? && job.None? && cbFiber.None? && !idleDone
    {
      ft, current, job, cbFiber, idleDone := NO_TASK, S.None, S.None, S.None, false;
    }
  }

  /** The objects of the pool are in the states that the machine has them in. */
  ghost predicate Mirrors(pool: set<Fiber>, fibers: map<S.Fiber, S.FState>)
    reads pool
  {
    && (forall f :: f in pool ==> f.id in fibers && fibers[f.id] == f.state)
    && (forall f, g :: f in pool && g in pool && f.id == g.id ==> f == g)
  }

  lemma {:induction false} MirrorsNewcomer(pool: set<Fiber>, fibers: map<S.Fiber, S.FState>, f: Fiber)
    requires Mirrors(pool, fibers) && f.id !in fibers
    ensures Mirrors(pool + {f}, fibers[f.id := f.state])
  {
  }

  twostate lemma MirrorsUpdate(pool: set<Fiber>, new fibers: map<S.Fiber, S.FState>, new f: Fiber)
    requires old(Mirrors(pool, fibers)) && f in pool && forall g :: g in pool && g != f ==> unchanged(g)
    ensures Mirrors(pool, fibers[f.id := f.state])
  {
  }

  ghost predicate Lists(queue: seq<FiberAndThread>, q: seq<S.Task>, pool: set<Fiber>) {
    |queue| == |q| && forall i :: 0 <= i < |q| ==>
      Owned(queue[i], pool) && TaskOf(queue[i]) == q[i] && (queue[i].fiber.Some? <==> queue[i].cb.None?)
  }

  lemma {:induction false} ListsLength(queue: seq<FiberAndThread>, q: seq<S.Task>, pool: set<Fiber>)
    requires Lists(queue, q, pool)
    ensures |queue| == |q|
  {
  }

  /** An element, and the list without it. */
  lemma {:induction false} ListsAt(queue: seq<FiberAndThread>, q: seq<S.Task>, pool: set<Fiber>, n: nat)
    requires Lists(queue, q, pool) && |queue| == |q| && n < |q|
    ensures Owned(queue[n], pool) && TaskOf(queue[n]) == q[n] && (queue[n].fiber.Some? <==> queue[n].cb.None?)
    ensures Lists(queue[..n] + queue[n + 1..], q[..n] + q[n + 1..], pool)
  {
    var r, t := queue[..n] + queue[n + 1..], q[..n] + q[n + 1..];
    forall i | 0 <= i < |t| ensures r[i] == queue[if i < n then i else i + 1] && t[i] == q[if i < n then i else i + 1] {
    }
  }

  /** The elements that hold something, in order and for any thread. */
  function Filled(fts: seq<FiberAndThread>): (r: seq<FiberAndThread>)
    ensures |r| <= |fts|
    ensures forall i :: 0 <= i < |r| ==> r[i].thread.None? && (r[i].fiber.Some? || r[i].cb.Some?)
  {
    if fts == [] then []
    else (if fts[0].fiber.Some? || fts[0].cb.Some? then [fts[0].(thread := S.None)] else []) + Filled(fts[1..])
  }

  lemma {:induction false} FilledSnoc(fts: seq<FiberAndThread>, ft: FiberAndThread)
    ensures Filled(fts + [ft]) ==
              Filled(fts) + if ft.fiber.Some? || ft.cb.Some? then [ft.(thread := S.None)] else []
  {
    if fts == [] {
      assert fts + [ft] == [ft] && [ft][1..] == [];
    } else {
      assert (fts + [ft])[1..] == fts[1..] + [ft];
      FilledSnoc(fts[1..], ft);
    }
  }

  /** Where every element holds something none is left out. */
  lemma {:induction false} FilledKeepsAll(fts: seq<FiberAndThread>)
    requires forall i :: 0 <= i < |fts| ==> fts[i].fiber.Some? || fts[i].cb.Some?
    ensures |Filled(fts)| == |fts| && forall i :: 0 <= i < |fts| ==> Filled(fts)[i] == fts[i].(thread := S.None)
  {
    if fts != [] {
      FilledKeepsAll(fts[1..]);
    }
  }

  ghost predicate Names(f: S.Option<Fiber>, id: S.Option<S.Fiber>, pool: set<Fiber>) {
    if f.None? then id.None? else f.value in pool && id == S.Some(f.value.id)
  }

  /** The local variables of a worker are those of its place in the loop. */
  ghost predicate Embodies(t: Worker, w: S.Worker, pool: set<Fiber>)
    reads t
  {
    && t.idleDone == w.idleDone && Names(t.cbFiber, w.cbFiber, pool)
    && (match w.pc
        case Picked(task) => Owned(t.ft, pool) && TaskOf(t.ft) == task && (t.ft.fiber.Some? <==> t.ft.cb.None?)
        case Run(f, cb, wake, _) =>
          && Names(t.current, S.Some(f), pool) && (cb <==> t.job.Some?)
          && (wake.Some? ==>
                t.job.Some? && t.job.value.ScheduleFiber? && t.job.value.f in pool && t.job.value.f.id == wake.value)
        case Returned(f, cb, _) => Names(t.current, S.Some(f), pool) && (cb <==> t.job.Some?)
        case Requeue(f, cb) => Names(t.current, S.Some(f), pool) && (cb <==> t.job.Some?)
        case _ => true)
  }

  /** What switching to the callback fiber changes: this worker and the state of that fiber. */
  lemma {:induction false} CallbackEffect(s: S.State, w: nat, item: S.Item, made: nat)
    requires S.At(s, w)
    ensures var s', x := S.AfterGoCallback(s, w, item, made), s.workers[w];
            var f := if x.cbFiber.Some? then x.cbFiber.value else made;
            var wake := if item.Wake? then S.Some(item.fiber) else S.None;
            && s'.queue == s.queue && s'.active == s.active && s'.stopped == s.stopped
            && s'.fibers == s.fibers[f := S.EXEC]
            && s'.workers == s.workers[w := S.Worker(S.Run(f, true, wake, false), x.idleDone, S.Some(f))]
  {
  }

  lemma {:induction false} DecrementEffect(s: S.State, w: nat)
    requires S.Enabled(s, S.Decrement(w))
    ensures var s', pc := S.AfterDecrement(s, w), s.workers[w].pc;
            var again := pc.fiber in s.fibers && s.fibers[pc.fiber] == S.READY;
            && s'.queue == s.queue && s'.active == s.active - 1 && s'.stopped == s.stopped
            && s'.workers == s.workers[w := s.workers[w].(pc :=
                               if again then S.Requeue(pc.fiber, pc.cb) else S.Scan)]
  {
  }

  lemma {:induction false} TakeEffect(s: S.State, w: nat)
    requires S.At(s, w)
    ensures var s', n := S.AfterTake(s, w), S.FirstTakeable(s.fibers, s.queue, w);
            && n <= |s.queue| && s'.fibers == s.fibers && s'.stopped == s.stopped
            && s'.queue == (if n == |s.queue| then s.queue else s.queue[..n] + s.queue[n + 1..])
            && s'.active == s.active + (if n == |s.queue| then 0 else 1)
            && s'.workers == s.workers[w := s.workers[w].(pc :=
                               if n == |s.queue| then S.Nothing else S.Picked(s.queue[n]))]
  {
  }

  /** What asking changes: where this worker is, and whether its idle fiber has ended. */
  lemma {:induction false} AskEffect(s: S.State, w: nat)
    requires S.At(s, w) && s.workers[w].pc == if s.polls then S.Cleared else S.Idle([])
    ensures S.Enabled(s, AfterAsking(s, w))
    ensures var s', x := S.Next(s, AfterAsking(s, w)), s.workers[w];
            && s'.fibers == s.fibers && s'.queue == s.queue && s'.active == s.active && s'.stopped == s.stopped
            && (S.Stopping(s) ==> s'.workers == s.workers[w := S.Worker(S.Scan, true, x.cbFiber)])
            && (!S.Stopping(s) ==>
                  s'.workers == s.workers[w := x.(pc := if s.polls then S.Idle([]) else S.Scan)])
  {
  }

  lemma {:induction false} WakeOf(ft: FiberAndThread)
    ensures ItemOf(ft).Wake? ==>
              ft.cb.Some? && ft.cb.value.ScheduleFiber? && ft.cb.value.f.id == ItemOf(ft).fiber
  {
  }

  class Scheduler {
    var fibers: seq<FiberAndThread>
    var workers: seq<Worker>
    var active: int
    var autoStop: bool
    var stopping: bool
    ghost var pool: set<Fiber>
    ghost var state: S.State

    ghost predicate Valid()
      reads this, pool, workers
    {
      && Inv(state) && active == state.active && (autoStop && stopping) == state.stopped
      && Mirrors(pool, state.fibers) && Lists(fibers, state.queue, pool)
      && |workers| == |state.workers|
      && (forall i, j :: 0 <= i < j < |workers| ==> workers[i] != workers[j])
      && (forall i :: 0 <= i < |workers| ==> Embodies(workers[i], state.workers[i], pool))
    }

    /** A scheduler whose `threads` workers have not started; with a root, the first of them is the caller of stop. */
    constructor (threads: nat, ghost slots: nat, ghost root: S.Option<nat>, ghost polls: bool)
      requires threads > 0
      ensures Valid() && state == S.Initial(threads, slots, root, polls)
      ensures forall i :: 0 <= i < |workers| ==> fresh(workers[i])
    {
      fibers, workers, active := [], [], 0;
      autoStop, stopping := false, true;
      pool := {};
      state := S.Initial(threads, slots, root, polls);
      new;
      for i := 0 to threads
        invariant fibers == [] && active == 0 && !autoStop && pool == {}
        invariant state == S.Initial(threads, slots, root, polls)
        invariant |workers| == i
        invariant forall j :: 0 <= j < i ==> fresh(workers[j]) && Embodies(workers[j], state.workers[j], pool)
        invariant forall j, k :: 0 <= j < k < i ==> workers[j] != workers[k]
      {
        var t := new Worker();
        workers := workers + [t];
      }
      InitialInv(threads, slots, root, polls);
    }

    /** scheduleNoLock: says whether the queue was empty before. */
    method ScheduleNoLock(ft: FiberAndThread) returns (needTickle: bool)
      modifies this`fibers
      ensures needTickle <==> old(fibers) == []
      ensures fibers == old(fibers) + if ft.fiber.Some? || ft.cb.Some? then [ft] else []
    {
      needTickle := fibers == [];
      if ft.fiber.Some? || ft.cb.Some? {
        fibers := fibers + [ft];
      }
    }

    /**
     * The batch form of schedule: one lock around all of them. The handles are swapped out of the
     * caller's, those that hold nothing are passed over, and no task is pinned.
     */
    method ScheduleAll(fts: array<FiberAndThread>) returns (needTickle: bool)
      modifies this`fibers, fts
      ensures fibers == old(fibers) + Filled(old(fts[..]))
      ensures forall i :: 0 <= i < fts.Length ==> fts[i] == NO_TASK
      ensures needTickle <==> old(fibers) == [] && fts.Length > 0
    {
      needTickle := false;
      ghost var all := fts[..];
      for i := 0 to fts.Length
        invariant fibers == old(fibers) + Filled(all[..i])
        invariant forall j :: 0 <= j < fts.Length ==> fts[j] == if j < i then NO_TASK else all[j]
        invariant needTickle <==> old(fibers) == [] && i > 0
      {
        var ft := fts[i].(thread := S.None);
        fts[i] := NO_TASK;
        var need := ScheduleNoLock(ft);
        needTickle := need || needTickle;
        assert all[..i + 1] == all[..i] + [all[i]];
        FilledSnoc(all[..i], all[i]);
      }
      assert all[..fts.Length] == all;
    }

    /** The scan of lines 139-156 as a search; `skipped` asks for a tickle of the other threads. */
    method Scan(w: nat) returns (n: nat, skipped: bool)
      requires Mirrors(pool, state.fibers) && Lists(fibers, state.queue, pool)
      requires QueueOk(state.fibers, state.queue)
      ensures n == S.FirstTakeable(state.fibers, state.queue, w)
      ensures skipped <==> exists i :: 0 <= i < n && fibers[i].thread.Some? && fibers[i].thread != S.Some(w)
    {
      n, skipped := 0, false;
      while n < |fibers|
        invariant n <= |fibers|
        invariant forall i :: 0 <= i < n ==> !S.Takeable(state.fibers, state.queue[i], w)
        invariant skipped <==> exists i :: 0 <= i < n && fibers[i].thread.Some? && fibers[i].thread != S.Some(w)
      {
        var it := fibers[n];
        assert TaskOf(it) == state.queue[n] && TaskOk(state.fibers, state.queue[n]);
        if it.thread.Some? && it.thread.value != w {
          n := n + 1;
          skipped := true;
          continue;
        }
        assert it.fiber.Some? || it.cb.Some?;
        if it.fiber.Some? && it.fiber.value.state == S.EXEC {
          n := n + 1;
          continue;
        }
        break;
      }
      FirstIs(state.fibers, state.queue, w, n);
    }

    /** Taking a task: lines 136-157. */
    method Take(w: nat) returns (isActive: bool, tickleMe: bool)
      requires Valid() && S.Enabled(state, S.Take(w))
      modifies this`fibers, this`active, this`state, workers[w]
      ensures Valid() && state == S.AfterTake(old(state), w)
      ensures isActive <==> state.workers[w].pc.Picked?
    {
      hide Inv, Mirrors, Lists, S.AfterTake, S.FirstTakeable, S.Takeable, TaskOf, Owned, Names, QueueOk;
      StepKeepsInv(state, S.Take(w));
      TakeEffect(state, w);
      assert QueueOk(state.fibers, state.queue) by {
        QueueIsOk(state);
      }
      var t := workers[w];
      t.ft := NO_TASK;
      var n;
      n, tickleMe := Scan(w);
      isActive := n < |fibers|;
      assert |fibers| == |state.queue| by {
        ListsLength(fibers, state.queue, pool);
      }
      if isActive {
        ListsAt(fibers, state.queue, pool, n);
        t.ft := fibers[n];
        fibers := fibers[..n] + fibers[n + 1..];
        active := active + 1;
      }
      state := S.AfterTake(state, w);
      assert Mirrors(pool, state.fibers);
      assert Lists(fibers, state.queue, pool);
      assert Embodies(t, state.workers[w], pool);
      assert forall i :: 0 <= i < |workers| && i != w ==> Embodies(workers[i], state.workers[i], pool);
    }

    /** Lines 162-163: switches to a fiber that was taken. */
    method SwitchTo(w: nat, f: Fiber)
      requires Valid() && S.At(state, w) && state.workers[w].pc.Picked? && f in pool
      requires workers[w].ft.fiber == S.Some(f) && f.state in {S.INIT, S.HOLD, S.READY}
      requires Inv(S.AfterGoFiber(state, w, f.id))
      modifies this`state, f, workers[w]
      ensures Valid() && state == S.AfterGoFiber(old(state), w, f.id)
    {
      hide Inv, Lists;
      var t := workers[w];
      ghost var s := state;
      f.SwapIn();
      MirrorsUpdate(pool, s.fibers, f);
      t.current, t.job := S.Some(f), S.None;
      state := S.AfterGoFiber(s, w, f.id);
      assert Mirrors(pool, state.fibers);
      assert Embodies(t, state.workers[w], pool);
      assert forall i :: 0 <= i < |workers| && i != w ==> Embodies(workers[i], state.workers[i], pool);
    }

    /** Lines 173-179 up to the switch and the change of state in it: the callback fiber, made or reset first. */
    method CallbackFiber(t: Worker, made: nat) returns (f: Fiber)
      requires Mirrors(pool, state.fibers) && Lists(fibers, state.queue, pool) && made !in state.fibers
      requires t.cbFiber.Some? ==> t.cbFiber.value in pool && t.cbFiber.value.state == S.INIT
      modifies this`pool, pool, t`cbFiber
      ensures f in pool && f.id == (if old(t.cbFiber).Some? then old(t.cbFiber).value.id else made)
      ensures t.cbFiber == S.Some(f) && old(pool) <= pool && forall g :: g in pool && g !in old(pool) ==> fresh(g)
      ensures Mirrors(pool, state.fibers[f.id := S.EXEC]) && Lists(fibers, state.queue, pool)
    {
      if t.cbFiber.Some? {
        f := t.cbFiber.value;
        f.Reset();
        f.SwapIn();
        MirrorsUpdate(pool, state.fibers, f);
      } else {
        f := new Fiber(made);
        f.SwapIn();
        MirrorsNewcomer(pool, state.fibers, f);
        pool := pool + {f};
        t.cbFiber := S.Some(f);
      }
    }

    /** Lines 173-179: switches to the callback fiber. */
    method StartCallback(w: nat, made: nat, ghost item: S.Item)
      requires Valid() && S.At(state, w) && state.workers[w].pc.Picked? && item == ItemOf(workers[w].ft)
      requires workers[w].ft.fiber.None? && workers[w].ft.cb.Some? && made !in state.fibers
      requires workers[w].cbFiber.Some? ==> workers[w].cbFiber.value.state == S.INIT
      requires Inv(S.AfterGoCallback(state, w, item, made))
      modifies this`state, this`pool, pool, workers[w]
      ensures Valid() && state == S.AfterGoCallback(old(state), w, item, made)
      ensures forall f :: f in pool && f !in old(pool) ==> fresh(f)
    {
      hide Inv, Lists, Mirrors, S.AfterGoCallback, ItemOf;
      CallbackEffect(state, w, item, made);
      WakeOf(workers[w].ft);
      var t := workers[w];
      var f := CallbackFiber(t, made);
      t.current, t.job := S.Some(f), t.ft.cb;
      t.ft := NO_TASK;
      state := S.AfterGoCallback(state, w, item, made);
      assert Embodies(t, state.workers[w], pool);
      assert forall i :: 0 <= i < |workers| && i != w ==> Embodies(workers[i], state.workers[i], pool);
    }

    /**
     * Lines 162 and 172-196: does what the task taken asks for. The last branch, for a fiber that has
     * ended, is never taken. `made` is an unused number.
     */
    method Begin(w: nat, made: nat)
      requires Valid() && S.Enabled(state, S.Go(w, made))
      modifies this`active, this`state, this`pool, pool, workers[w]
      ensures Valid() && state == S.AfterGo(old(state), w, made)
      ensures forall f :: f in pool && f !in old(pool) ==> fresh(f)
    {
      hide Inv, Lists;
      var t := workers[w];
      ghost var task := state.workers[w].pc.task;
      GoKeeps(state, w, made);
      PickedIsOk(state, w, task);
      if t.ft.fiber.Some? && t.ft.fiber.value.state != S.TERM && t.ft.fiber.value.state != S.EXCEPT {
        SwitchTo(w, t.ft.fiber.value);
      } else if t.ft.cb.Some? {
        StartCallback(w, made, task.item);
      } else {
        assert false;
      }
    }

    /** The callback of a sleep timer: schedules the fiber that it was bound to. */
    method RunJob(w: nat)
      requires Valid() && S.Enabled(state, S.WakeUp(w))
      modifies this`fibers, this`state
      ensures Valid() && state == S.Next(old(state), S.WakeUp(w))
    {
      hide Inv, Mirrors;
      StepKeepsInv(state, S.WakeUp(w));
      var job := workers[w].job.value;
      var _ := ScheduleNoLock(FiberAndThread(S.Some(job.f), S.None, S.None));
      state := S.Next(state, S.WakeUp(w));
      assert Embodies(workers[w], state.workers[w], pool);
      assert forall i :: 0 <= i < |workers| && i != w ==> Embodies(workers[i], state.workers[i], pool);
    }

    /** YieldToHold on the running fiber, and the state written once more after the switch back. */
    method Hold(t: Worker, ghost w: nat)
      requires Inv(state) && S.Enabled(state, S.YieldHold(w)) && Mirrors(pool, state.fibers)
      requires Embodies(t, state.workers[w], pool)
      modifies pool
      ensures Mirrors(pool, S.AfterYieldHold(state, w).fibers)
    {
      hide Inv;
      RunsExec(state, w);
      var f := t.current.value;
      f.YieldToHold();
      f.state := S.HOLD;
      MirrorsUpdate(pool, state.fibers, f);
    }

    /** YieldToHold on the running fiber, the switch back, and lines 165-169 or 180-189. */
    method YieldToHold(w: nat)
      requires Valid() && S.Enabled(state, S.YieldHold(w))
      modifies this`active, this`state, pool, workers[w]
      ensures Valid() && state == S.AfterYieldHold(old(state), w)
    {
      hide Inv, Lists, Mirrors;
      var t := workers[w];
      YieldHoldKeeps(state, w);
      Hold(t, w);
      active := active - 1;
      if t.job.Some? {
        t.cbFiber := S.None;
      }
      t.ft := NO_TASK;
      state := S.AfterYieldHold(state, w);
      assert Embodies(t, state.workers[w], pool);
      assert forall i :: 0 <= i < |workers| && i != w ==> Embodies(workers[i], state.workers[i], pool);
    }

    /** YieldToReady on the running fiber, up to the switch back. */
    method YieldToReady(w: nat)
      requires Valid() && S.Enabled(state, S.YieldReady(w))
      modifies this`state, pool
      ensures Valid() && state == S.AfterYieldReady(old(state), w)
    {
      hide Inv;
      ghost var s := state;
      YieldReadyKeeps(s, w);
      RunsExec(s, w);
      var f := workers[w].current.value;
      f.YieldToReady();
      MirrorsUpdate(pool, s.fibers, f);
      state := S.AfterYieldReady(s, w);
      assert Embodies(workers[w], state.workers[w], pool);
      assert forall i :: 0 <= i < |workers| && i != w ==> Embodies(workers[i], state.workers[i], pool);
    }

    /** The running fiber's callback ends. */
    method End(w: nat, thrown: bool)
      requires Valid() && S.Enabled(state, S.Finish(w, thrown))
      modifies this`state, pool
      ensures Valid() && state == S.AfterFinish(old(state), w, thrown)
    {
      hide Inv;
      ghost var s := state;
      FinishKeeps(s, w, thrown);
      RunsExec(s, w);
      var f := workers[w].current.value;
      f.End(thrown);
      MirrorsUpdate(pool, s.fibers, f);
      state := S.AfterFinish(s, w, thrown);
      assert Embodies(workers[w], state.workers[w], pool);
      assert forall i :: 0 <= i < |workers| && i != w ==> Embodies(workers[i], state.workers[i], pool);
    }

    /** After the switch back: what becomes of the fiber that came back. */
    method CameBack(t: Worker, ghost w: nat) returns (again: bool)
      requires Inv(state) && S.Enabled(state, S.Decrement(w)) && Mirrors(pool, state.fibers)
      requires Embodies(t, state.workers[w], pool)
      modifies pool
      ensures Mirrors(pool, S.AfterDecrement(state, w).fibers)
      ensures again <==> S.AfterDecrement(state, w).workers[w].pc.Requeue?
    {
      hide Inv;
      ReturnedIsOk(state, w);
      var f := t.current.value;
      again := f.state == S.READY;
      if !again && t.job.Some? {
        f.Reset();
        MirrorsUpdate(pool, state.fibers, f);
      }
    }

    /** After the switch back: lines 165-166, or 180-182 and 185-186. */
    method CountDown(w: nat) returns (again: bool)
      requires Valid() && S.Enabled(state, S.Decrement(w))
      modifies this`active, this`state, pool
      ensures Valid() && state == S.AfterDecrement(old(state), w)
      ensures again <==> state.workers[w].pc.Requeue?
    {
      hide Inv, Lists, Mirrors, S.AfterDecrement;
      DecrementKeeps(state, w);
      DecrementEffect(state, w);
      active := active - 1;
      again := CameBack(workers[w], w);
      state := S.AfterDecrement(state, w);
      assert Embodies(workers[w], state.workers[w], pool);
      assert forall i :: 0 <= i < |workers| && i != w ==> Embodies(workers[i], state.workers[i], pool);
    }

    /** Lines 167 or 183-184: the fiber that yielded to go on back to the queue. */
    method PutBack(w: nat)
      requires Valid() && S.Enabled(state, S.PutBack(w))
      modifies this`fibers, this`state, workers[w]
      ensures Valid() && state == S.AfterPutBack(old(state), w)
    {
      hide Inv, Mirrors;
      PutBackKeeps(state, w);
      var t := workers[w];
      var _ := ScheduleNoLock(FiberAndThread(t.current, S.None, S.None));
      if t.job.Some? {
        t.cbFiber := S.None;
      }
      t.ft := NO_TASK;
      state := S.AfterPutBack(state, w);
      assert Embodies(t, state.workers[w], pool);
      assert forall i :: 0 <= i < |workers| && i != w ==> Embodies(workers[i], state.workers[i], pool);
    }

    /** schedule of a new fiber by a running one. */
    method ScheduleFiber(w: nat, id: nat, thread: S.Option<nat>)
      requires Valid() && S.Enabled(state, S.Spawn(w, S.Task(S.Resume(id), thread)))
      modifies this`fibers, this`state, this`pool
      ensures Valid() && state == S.Next(old(state), S.Spawn(w, S.Task(S.Resume(id), thread)))
      ensures forall f :: f in pool && f !in old(pool) ==> fresh(f)
    {
      hide Inv;
      StepKeepsInv(state, S.Spawn(w, S.Task(S.Resume(id), thread)));
      var f := new Fiber(id);
      MirrorsNewcomer(pool, state.fibers, f);
      pool := pool + {f};
      var _ := ScheduleNoLock(FiberAndThread(S.Some(f), S.None, thread));
      state := S.Admit(state, S.Task(S.Resume(id), thread));
      assert forall i :: 0 <= i < |workers| ==> Embodies(workers[i], state.workers[i], pool);
    }

    /** stop, as far as it changes what the workers see. */
    method Stop()
      requires Valid()
      modifies this`autoStop, this`stopping, this`state
      ensures Valid() && state == S.Next(old(state), S.Stop)
    {
      hide Inv, Mirrors, Lists;
      StepKeepsInv(state, S.Stop);
      autoStop := true;
      stopping := true;
      state := S.Next(state, S.Stop);
    }

    /** Scheduler::stopping. */
    method IsStopping() returns (now: bool)
      requires Valid()
      ensures now <==> S.Stopping(state)
    {
      now := autoStop && stopping && fibers == [] && active == 0;
    }

    /**
     * The idle fiber of a worker asks whether it is stopping; for IOManager this is what is left to ask
     * when there is no timer and no event. It ends if so; otherwise the base class gives the thread
     * back, and IOManager goes on to wait for events.
     */
    method Idle(w: nat)
      requires Valid() && w < |workers|
      requires state.workers[w].pc == if state.polls then S.Cleared else S.Idle([])
      modifies this`state, workers[w]
      ensures Valid() && state == S.Next(old(state), AfterAsking(old(state), w))
    {
      hide Inv, Mirrors, Lists, S.Next;
      AskEffect(state, w);
      var now := IsStopping();
      ghost var step := AfterAsking(state, w);
      StepKeepsInv(state, step);
      state := S.Next(state, step);
      if now {
        workers[w].idleDone := true;
      }
      assert Embodies(workers[w], state.workers[w], pool);
      assert forall i :: 0 <= i < |workers| && i != w ==> Embodies(workers[i], state.workers[i], pool);
    }
  }

  function AfterAsking(s: S.State, w: nat): S.Action {
    if S.Stopping(s) then S.IdleExit(w) else if s.polls then S.Decline(w) else S.Back(w)
  }

  lemma {:induction false} QueueIsOk(s: S.State)
    requires Inv(s)
    ensures QueueOk(s.fibers, s.queue)
  {
  }

  lemma {:induction false} FirstIs(fibers: map<S.Fiber, S.FState>, q: seq<S.Task>, w: nat, n: nat)
    requires n <= |q| && (forall i :: 0 <= i < n ==> !S.Takeable(fibers, q[i], w))
    requires n < |q| ==> S.Takeable(fibers, q[n], w)
    ensures n == S.FirstTakeable(fibers, q, w)
  {
    if n > 0 {
      FirstIs(fibers, q[1..], w, n - 1);
    }
  }

  lemma {:induction false} PickedIsOk(s: S.State, w: nat, t: S.Task)
    requires Inv(s) && S.At(s, w) && s.workers[w].pc == S.Picked(t)
    ensures t.item != S.Vacant
    ensures t.item.Resume? ==> t.item.fiber in s.fibers && s.fibers[t.item.fiber] in {S.INIT, S.HOLD, S.READY}
    ensures !t.item.Resume? && s.workers[w].cbFiber.Some? ==>
              s.workers[w].cbFiber.value in s.fibers && s.fibers[s.workers[w].cbFiber.value] == S.INIT
  {
    assert WorkerOk(s.fibers, s.workers[w]);
  }

  lemma {:induction false} RunsExec(s: S.State, w: nat)
    requires Inv(s) && S.At(s, w) && s.workers[w].pc.Run?
    ensures s.workers[w].pc.fiber in s.fibers && s.fibers[s.workers[w].pc.fiber] == S.EXEC
    ensures s.workers[w].pc.cb ==> s.workers[w].cbFiber == S.Some(s.workers[w].pc.fiber)
  {
    assert WorkerOk(s.fibers, s.workers[w]);
  }

  lemma {:induction false} ReturnedIsOk(s: S.State, w: nat)
    requires Inv(s) && S.At(s, w) && s.workers[w].pc.Returned?
    ensures var f := s.workers[w].pc.fiber;
            && f in s.fibers && s.fibers[f] in {S.READY, S.TERM, S.EXCEPT}
            && (s.workers[w].pc.cb ==> s.workers[w].cbFiber == S.Some(f))
  {
    assert WorkerOk(s.fibers, s.workers[w]);
  }
}
