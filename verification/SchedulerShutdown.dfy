/** When shutting down leaves nothing behind. */
module SchedulerShutdown {
  import opened SchedulerSpec
  import opened SchedulerInv
  import opened SchedulerSteps
  import opened SR = SchedulerRuns

  // Tasks that no worker will take.

  /** The worker that a step queues a task for, if it is for one alone. */
  function PinOf(a: Action): Option<nat> {
    match a
    case Outside(task) => task.pin
    case Spawn(_, task) => task.pin
    case Reschedule(_, pin) => pin
    case _ => None
  }

  /** No worker of that number is going to look at the queue again. */
  predicate Gone(s: State, v: nat) {
    v >= |s.workers| || !Staying(s.workers[v])
  }

  predicate QueuedFor(q: seq<Task>, v: nat) {
    exists i :: 0 <= i < |q| && q[i].pin == Some(v)
  }

  /** The step queues a task for a worker that will not look, or is a worker's last look, past a task for it. */
  predicate Loses(s: State, a: Action) {
    || (PinOf(a).Some? && Gone(s, PinOf(a).value))
    || (a.Take? && At(s, a.w) && s.workers[a.w].idleDone && FirstTakeable(s.fibers, s.queue, a.w) == |s.queue|
        && QueuedFor(s.queue, a.w))
  }

  /** Every task for one worker alone is for one that is going to look. */
  ghost predicate NoneLost(s: State) {
    forall v: nat :: QueuedFor(s.queue, v) ==> !Gone(s, v)
  }

  /** What both states have in the queue, in the event slots and among the timers is the same. */
  predicate SamePlaces(s: State, s': State) {
    s'.queue == s.queue && s'.slots == s.slots && s'.timers == s.timers && s'.polls == s.polls
  }

  lemma {:induction false} GoLeavesPlaces(s: State, w: nat, made: Fiber)
    requires Enabled(s, Go(w, made))
    ensures var s' := Next(s, Go(w, made)); SamePlaces(s, s')
  {
  }

  lemma {:induction false} SwitchLeavesPlaces(s: State, a: Action)
    requires Enabled(s, a) && (a.YieldHold? || a.YieldReady? || a.Finish? || a.Decrement?)
    ensures var s' := Next(s, a); SamePlaces(s, s')
  {
  }

  /** Every step but a taking appends to the queue, if anything, tasks with its own pin. */
  lemma {:induction false} OnlyAppends(s: State, a: Action)
    requires Enabled(s, a) && !a.Take?
    ensures s.queue <= Next(s, a).queue
    ensures forall i :: |s.queue| <= i < |Next(s, a).queue| ==> Next(s, a).queue[i].pin == PinOf(a)
    ensures PinOf(a).Some? ==> |Next(s, a).queue| > |s.queue|
  {
    if a.Go? || a.YieldHold? || a.YieldReady? || a.Finish? || a.Decrement? || Idles(a) {
      hide Next, Enabled;
      MovingLeavesPlaces(s, a);
    }
  }

  lemma {:induction false} MovingLeavesPlaces(s: State, a: Action)
    requires Enabled(s, a) && (a.Go? || a.YieldHold? || a.YieldReady? || a.Finish? || a.Decrement? || Idles(a))
    ensures SamePlaces(s, Next(s, a)) && PinOf(a).None?
  {
    hide Next, Enabled;
    if a.Go? {
      GoLeavesPlaces(s, a.w, a.made);
    } else if Idles(a) {
      IdlingLeavesPlaces(s, a);
    } else {
      SwitchLeavesPlaces(s, a);
    }
  }

  predicate Idles(a: Action) {
    || a.Stop? || a.Start? || a.Skip? || a.Enter? || a.AskTimers? || a.AskEvents? || a.Decline? || a.IdleExit?
    || a.Back?
  }

  lemma {:induction false} IdlingLeavesPlaces(s: State, a: Action)
    requires Enabled(s, a) && Idles(a)
    ensures var s' := Next(s, a); SamePlaces(s, s')
  {
  }

  lemma {:induction false} TakeRemoves(s: State, w: nat)
    requires Enabled(s, Take(w))
    ensures var n, q := FirstTakeable(s.fibers, s.queue, w), Next(s, Take(w)).queue;
            && q == (if n == |s.queue| then s.queue else s.queue[..n] + s.queue[n + 1..])
            && (n < |s.queue| ==> s.queue[n].pin == None || s.queue[n].pin == Some(w))
  {
  }

  /** What is queued for a worker was, or is queued by this step. */
  lemma {:induction false} QueuedBefore(s: State, a: Action, v: nat)
    requires Enabled(s, a) && QueuedFor(Next(s, a).queue, v)
    ensures QueuedFor(s.queue, v) || PinOf(a) == Some(v)
  {
    hide Next, Enabled, FirstTakeable;
    var q := Next(s, a).queue;
    var i :| 0 <= i < |q| && q[i].pin == Some(v);
    if a.Take? {
      TakeRemoves(s, a.w);
      var n := FirstTakeable(s.fibers, s.queue, a.w);
      assert q[i] == s.queue[if i < n then i else i + 1];
    } else {
      OnlyAppends(s, a);
      assert i < |s.queue| ==> s.queue[i] == q[i];
    }
  }

  /** A worker stops looking only with its last look, or when it is not needed at all. */
  lemma {:induction false} StaysUnless(s: State, a: Action, v: nat)
    requires Enabled(s, a) && v < |s.workers| && Staying(s.workers[v])
    ensures v < |Next(s, a).workers|
    ensures !Staying(Next(s, a).workers[v]) ==>
              || (a == Skip(v) && s.queue == [])
              || (a == Take(v) && s.workers[v].idleDone && FirstTakeable(s.fibers, s.queue, v) == |s.queue|)
  {
    hide Next, FirstTakeable;
    FlagsKept(s, a);
    if a == Skip(v) {
      SkipKeepsQueue(s, v);
    } else if a == Take(v) && !Staying(Next(s, a).workers[v]) {
      LastLook(s, v);
    }
  }

  lemma {:induction false} LastLook(s: State, w: nat)
    requires Enabled(s, Take(w)) && !Staying(Next(s, Take(w)).workers[w])
    ensures s.workers[w].idleDone && FirstTakeable(s.fibers, s.queue, w) == |s.queue|
  {
  }

  lemma {:induction false} NoneLostStays(s: State, a: Action)
    requires Enabled(s, a) && NoneLost(s) && !Loses(s, a)
    ensures NoneLost(Next(s, a))
  {
    hide Next, Enabled, FirstTakeable;
    forall v: nat | QueuedFor(Next(s, a).queue, v) ensures !Gone(Next(s, a), v) {
      QueuedBefore(s, a, v);
      assert !Gone(s, v);
      StaysUnless(s, a, v);
      if a == Skip(v) {
        SkipKeepsQueue(s, v);
      }
    }
  }

  lemma {:induction false} SkipKeepsQueue(s: State, w: nat)
    requires Enabled(s, Skip(w))
    ensures Next(s, Skip(w)).queue == s.queue == []
  {
  }

  /** A worker that is not going to look does not change its mind. */
  lemma {:induction false} GoneStays(s: State, a: Action, v: nat)
    requires Enabled(s, a) && Gone(s, v)
    ensures Gone(Next(s, a), v)
  {
    hide Next;
    FlagsKept(s, a);
  }

  /** And what is queued for it alone stays there. */
  lemma {:induction false} LostStays(s: State, a: Action, v: nat)
    requires Enabled(s, a) && Gone(s, v) && QueuedFor(s.queue, v)
    ensures Gone(Next(s, a), v) && QueuedFor(Next(s, a).queue, v)
  {
    hide Next, Enabled, FirstTakeable, Staying;
    GoneStays(s, a, v);
    var q := Next(s, a).queue;
    var i :| 0 <= i < |s.queue| && s.queue[i].pin == Some(v);
    if a.Take? {
      TakerStays(s, a.w);
      TakeRemoves(s, a.w);
      WithoutOne(s.queue, FirstTakeable(s.fibers, s.queue, a.w), i);
    } else {
      OnlyAppends(s, a);
      assert q[i] == s.queue[i];
    }
  }

  lemma {:induction false} TakerStays(s: State, w: nat)
    requires Enabled(s, Take(w))
    ensures w < |s.workers| && Staying(s.workers[w])
  {
  }

  lemma {:induction false} WithoutOne(q: seq<Task>, n: nat, i: nat)
    requires n <= |q| && i < |q|
    ensures n < |q| && i != n ==> q[i] in q[..n] + q[n + 1..]
  {
    if n < |q| && i != n {
      assert (q[..n] + q[n + 1..])[if i < n then i else i - 1] == q[i];
    }
  }

  lemma {:induction false} LosesOne(s: State, a: Action)
    requires Enabled(s, a) && Loses(s, a)
    ensures exists v: nat :: Gone(Next(s, a), v) && QueuedFor(Next(s, a).queue, v)
  {
    var q := Next(s, a).queue;
    if PinOf(a).Some? && Gone(s, PinOf(a).value) {
      var v := PinOf(a).value;
      OnlyAppends(s, a);
      GoneStays(s, a, v);
      assert q[|q| - 1].pin == Some(v);
    } else {
      assert Gone(Next(s, a), a.w) && q == s.queue;
    }
  }

  /** The run up to step `k` has lost nothing. */
  lemma {:induction false} NothingLostYet(s0: State, run: seq<Action>, k: nat)
    requires IsInitial(s0) && Legal(s0, run) && k <= |run|
    requires forall j :: 0 <= j < k ==> !Loses(StateAt(s0, run, j), run[j])
    ensures NoneLost(StateAt(s0, run, k))
    decreases k
  {
    hide Next, Enabled, Loses, Legal;
    if k == 0 {
      EndsAt(s0, run);
      InitiallyNoneLost(s0);
    } else {
      NothingLostYet(s0, run, k - 1);
      StepAt(s0, run, k - 1);
      NoneLostStays(StateAt(s0, run, k - 1), run[k - 1]);
    }
  }

  lemma {:induction false} InitiallyNoneLost(s0: State)
    requires IsInitial(s0)
    ensures NoneLost(s0)
  {
  }

  lemma {:induction false} LostForGood(s0: State, run: seq<Action>, k: nat, v: nat, l: nat)
    requires Legal(s0, run) && k <= l <= |run|
    requires Gone(StateAt(s0, run, k), v) && QueuedFor(StateAt(s0, run, k).queue, v)
    ensures Gone(StateAt(s0, run, l), v) && QueuedFor(StateAt(s0, run, l).queue, v)
    decreases l
  {
    hide Next, Enabled, Legal, Gone, QueuedFor;
    if k < l {
      LostForGood(s0, run, k, v, l - 1);
      StepAt(s0, run, l - 1);
      LostStays(StateAt(s0, run, l - 1), run[l - 1], v);
    }
  }

  lemma {:induction false} FirstIsQueued(q: seq<Task>)
    ensures q == [] || q[0].pin.None? || QueuedFor(q, q[0].pin.value)
  {
  }

  predicate LosesNothing(s0: State, run: seq<Action>)
    requires Legal(s0, run)
  {
    forall k :: 0 <= k < |run| ==> !Loses(StateAt(s0, run, k), run[k])
  }

  /**
   * When every worker has left its loop, nothing at all is queued if and only if no step queued a task
   * for one worker alone that was not going to look any more, and no worker's last look passed over
   * such a task.
   */
  lemma {:induction false} NoTaskLeftIff(s0: State, run: seq<Action>)
    requires IsInitial(s0) && Legal(s0, run) && AllGone(SR.Run(s0, run))
    ensures SR.Run(s0, run).queue == [] <==> LosesNothing(s0, run)
  {
    hide Next, Enabled, Loses, Legal, SR.Run;
    var s := SR.Run(s0, run);
    EndsAt(s0, run);
    if LosesNothing(s0, run) {
      NothingLostYet(s0, run, |run|);
      FirstIsQueued(s.queue);
      ReachableAt(s0, run, |run|);
      NothingStranded(s);
    } else {
      var k :| 0 <= k < |run| && Loses(StateAt(s0, run, k), run[k]);
      StepAt(s0, run, k);
      LosesOne(StateAt(s0, run, k), run[k]);
      var v: nat :| Gone(StateAt(s0, run, k + 1), v) && QueuedFor(StateAt(s0, run, k + 1).queue, v);
      LostForGood(s0, run, k + 1, v, |run|);
    }
  }

  // As long as tasks are pinned early.

  /** Nothing is pinned once the first idle fiber has ended. */
  predicate PinsEarly(run: seq<Action>) {
    forall i, j :: 0 <= i < j < |run| && run[i].IdleExit? ==> PinOf(run[j]) == None
  }

  predicate SomeDone(s: State) {
    exists w :: 0 <= w < |s.workers| && s.workers[w].idleDone
  }

  predicate AllAsleep(s: State) {
    forall w :: 0 <= w < |s.workers| ==> Asleep(s.workers[w].pc)
  }

  /** Workers leave only by way of their idle fibers, or were never needed. */
  predicate Leaving(s: State) {
    && (forall w :: 0 <= w < |s.workers| && s.workers[w].pc.Left? ==> s.workers[w].idleDone)
    && (AllAsleep(s) ==> NobodyWaits(s))
    && (AllAsleep(s) && (exists w :: 0 <= w < |s.workers| && s.workers[w].pc.Skipped?) ==> s.stopped && s.queue == [])
  }

  /** While all are asleep only the outside acts. */
  lemma {:induction false} AsleepBefore(s: State, a: Action)
    requires Enabled(s, a) && AllAsleep(Next(s, a))
    ensures AllAsleep(s) && (a.Outside? || a.OutsideFire? || a.Stop? || a.Skip?)
  {
    FlagsKept(s, a);
    forall w | 0 <= w < |s.workers| ensures Asleep(s.workers[w].pc) {
      assert Asleep(Next(s, a).workers[w].pc);
    }
  }

  lemma {:induction false} StepKeepsLeaving(s: State, a: Action)
    requires Leaving(s) && Enabled(s, a)
    ensures Leaving(Next(s, a))
  {
    hide Next, Enabled, NobodyWaits;
    FlagsKept(s, a);
    if AllAsleep(Next(s, a)) {
      AsleepBefore(s, a);
      AsleepStep(s, a);
    }
  }

  lemma {:induction false} AsleepStep(s: State, a: Action)
    requires Leaving(s) && Enabled(s, a) && AllAsleep(s) && (a.Outside? || a.OutsideFire? || a.Stop? || a.Skip?)
    ensures NobodyWaits(Next(s, a))
    ensures (exists w :: 0 <= w < |s.workers| && Next(s, a).workers[w].pc.Skipped?) ==>
              Next(s, a).stopped && Next(s, a).queue == []
  {
  }

  lemma {:induction false} LeavingAt(s0: State, run: seq<Action>, k: nat)
    requires IsInitial(s0) && Legal(s0, run) && k <= |run|
    ensures Leaving(StateAt(s0, run, k)) && |StateAt(s0, run, k).workers| == |s0.workers| > 0
    decreases k
  {
    hide Next, Enabled, Legal, Leaving;
    if k == 0 {
      EndsAt(s0, run);
      StartsLeaving(s0);
    } else {
      LeavingAt(s0, run, k - 1);
      StepAt(s0, run, k - 1);
      StepKeepsLeaving(StateAt(s0, run, k - 1), run[k - 1]);
      FlagsKept(StateAt(s0, run, k - 1), run[k - 1]);
    }
  }

  lemma {:induction false} StartsLeaving(s0: State)
    requires IsInitial(s0)
    ensures Leaving(s0) && !SomeDone(s0) && s0.workers != []
  {
  }

  /** When all are gone, one of them has ended its idle fiber, or none was ever started. */
  lemma {:induction false} GoneHow(s: State)
    requires Leaving(s) && AllGone(s) && s.workers != []
    ensures SomeDone(s) || (NobodyWaits(s) && s.queue == [])
  {
    if !SomeDone(s) {
      assert s.workers[0].pc.Skipped?;
    }
  }

  /** A worker that has ended its idle fiber did so in some step. */
  lemma {:induction false} DoneBy(s0: State, run: seq<Action>, k: nat, w: nat) returns (e: nat)
    requires IsInitial(s0) && Legal(s0, run) && k <= |run|
    requires w < |StateAt(s0, run, k).workers| && StateAt(s0, run, k).workers[w].idleDone
    ensures e < k && run[e] == IdleExit(w)
    decreases k
  {
    hide Next, Enabled, Legal;
    if k == 0 {
      EndsAt(s0, run);
      StartsLeaving(s0);
      assert false;
    } else {
      StepAt(s0, run, k - 1);
      FlagsKept(StateAt(s0, run, k - 1), run[k - 1]);
      e := k - 1;
      if run[k - 1] != IdleExit(w) {
        e := DoneBy(s0, run, k - 1, w);
      }
    }
  }

  /** When all are gone and some task is left, an idle fiber has ended. */
  lemma {:induction false} SomeExit(s0: State, run: seq<Action>) returns (w: nat, e: nat)
    requires IsInitial(s0) && Legal(s0, run) && AllGone(SR.Run(s0, run))
    requires SR.Run(s0, run).queue != [] || !NobodyWaits(SR.Run(s0, run))
    ensures e < |run| && run[e] == IdleExit(w)
  {
    hide Next, Enabled, Legal, NobodyWaits;
    EndsAt(s0, run);
    LeavingAt(s0, run, |run|);
    GoneHow(SR.Run(s0, run));
    w :| 0 <= w < |SR.Run(s0, run).workers| && SR.Run(s0, run).workers[w].idleDone;
    e := DoneBy(s0, run, |run|, w);
  }

  lemma {:induction false} EmptyAtExit(s: State, w: nat)
    requires Enabled(s, IdleExit(w))
    ensures s.queue == [] && Next(s, IdleExit(w)).queue == [] && !Loses(s, IdleExit(w))
  {
  }

  /** After an idle fiber has ended, only what is pinned from there on is queued for one worker alone. */
  lemma {:induction false} UnpinnedSince(s0: State, run: seq<Action>, w: nat, e: nat, k: nat, v: nat)
    requires Legal(s0, run) && e < k <= |run| && run[e] == IdleExit(w)
    requires forall j :: e < j < k ==> PinOf(run[j]) == None
    ensures !QueuedFor(StateAt(s0, run, k).queue, v)
    decreases k
  {
    hide Next, Enabled, Legal;
    StepAt(s0, run, k - 1);
    if e == k - 1 {
      EmptyAtExit(StateAt(s0, run, e), w);
    } else {
      UnpinnedSince(s0, run, w, e, k - 1, v);
      if QueuedFor(StateAt(s0, run, k).queue, v) {
        QueuedBefore(StateAt(s0, run, k - 1), run[k - 1], v);
      }
    }
  }

  /** If nothing is pinned after the first idle fiber has ended, no task at all is left behind. */
  lemma {:induction false} NoTaskStranded(s0: State, run: seq<Action>)
    requires IsInitial(s0) && Legal(s0, run) && PinsEarly(run) && AllGone(SR.Run(s0, run))
    ensures SR.Run(s0, run).queue == []
  {
    hide Next, Enabled, Legal, Loses;
    NoTaskLeftIff(s0, run);
    if SR.Run(s0, run).queue != [] {
      var w, e := SomeExit(s0, run);
      var k :| 0 <= k < |run| && Loses(StateAt(s0, run, k), run[k]);
      StepAt(s0, run, e);
      EmptyAtExit(StateAt(s0, run, e), w);
      StepAt(s0, run, k);
      if k < e {
        LosesOne(StateAt(s0, run, k), run[k]);
        var v: nat :| Gone(StateAt(s0, run, k + 1), v) && QueuedFor(StateAt(s0, run, k + 1).queue, v);
        LostForGood(s0, run, k + 1, v, e);
      } else {
        LosesHow(StateAt(s0, run, k), run[k]);
        UnpinnedSince(s0, run, w, e, k, if run[k].Take? then run[k].w else 0);
      }
    }
  }

  lemma {:induction false} LosesHow(s: State, a: Action)
    requires Loses(s, a)
    ensures PinOf(a).Some? || (a.Take? && QueuedFor(s.queue, a.w))
  {
  }
}
