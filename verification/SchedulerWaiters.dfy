/** When shutting down leaves nobody waiting. */
module SchedulerWaiters {
  import opened SchedulerSpec
  import opened SchedulerInv
  import opened SchedulerShutdown
  import opened SR = SchedulerRuns

  // What is registered and taken out.

  /** An event or a timer is registered. */
  predicate Registers(a: Action) {
    TimersIn(a) + EventsIn(a) > 0
  }

  function TimersIn(a: Action): nat {
    if a.Sleep? || a.OnTimer? then 1 else 0
  }

  function TimersOut(a: Action): nat {
    if a.Collect? then a.count else if a.CancelTimer? then 1 else 0
  }

  function EventsIn(a: Action): nat {
    if a.Await? || a.OnEvent? then 1 else 0
  }

  function EventsOut(a: Action): nat {
    if a.Fire? || a.OutsideFire? || a.Remove? then 1 else 0
  }

  function Sum(f: Action -> nat, run: seq<Action>): nat {
    if run == [] then 0 else f(run[0]) + Sum(f, run[1..])
  }

  function Taken(slots: seq<Item>): nat {
    if slots == [] then 0 else (if slots[0] == Vacant then 0 else 1) + Taken(slots[1..])
  }

  lemma {:induction false} TakenUpdate(slots: seq<Item>, i: nat, x: Item)
    requires i < |slots|
    ensures Taken(slots[i := x]) + (if slots[i] == Vacant then 0 else 1)
         == Taken(slots) + (if x == Vacant then 0 else 1)
  {
    if i > 0 {
      assert slots[i := x][1..] == slots[1..][i - 1 := x];
      TakenUpdate(slots[1..], i - 1, x);
    } else {
      assert slots[0 := x][1..] == slots[1..];
    }
  }

  lemma {:induction false} NoneTaken(slots: seq<Item>)
    ensures Taken(slots) == 0 <==> forall i :: 0 <= i < |slots| ==> slots[i] == Vacant
  {
    if slots != [] {
      NoneTaken(slots[1..]);
      assert forall i :: 0 < i < |slots| ==> slots[i] == slots[1..][i - 1];
    }
  }

  lemma {:induction false} StepBalance(s: State, a: Action)
    requires Enabled(s, a)
    ensures |Next(s, a).timers| + TimersOut(a) == |s.timers| + TimersIn(a)
    ensures Taken(Next(s, a).slots) + EventsOut(a) == Taken(s.slots) + EventsIn(a)
  {
    hide Next, Enabled, Taken;
    if TimersIn(a) + TimersOut(a) > 0 || a.Collect? {
      TimerStep(s, a);
    } else if EventsIn(a) + EventsOut(a) > 0 {
      EventStep(s, a);
      TakenUpdate(s.slots, a.slot, Next(s, a).slots[a.slot]);
    } else {
      OtherStep(s, a);
    }
  }

  lemma {:induction false} TimerStep(s: State, a: Action)
    requires Enabled(s, a) && (a.Sleep? || a.OnTimer? || a.Collect? || a.CancelTimer?)
    ensures |Next(s, a).timers| + TimersOut(a) == |s.timers| + TimersIn(a) && Next(s, a).slots == s.slots
    ensures Next(s, a).polls == s.polls
  {
  }

  lemma {:induction false} EventStep(s: State, a: Action)
    requires Enabled(s, a) && (a.Await? || a.OnEvent? || a.Fire? || a.OutsideFire? || a.Remove?)
    ensures a.slot < |s.slots| && |Next(s, a).slots| == |s.slots| && Next(s, a).timers == s.timers
    ensures Next(s, a).polls == s.polls
    ensures Next(s, a).slots == s.slots[a.slot := Next(s, a).slots[a.slot]]
    ensures s.slots[a.slot] == Vacant <==> a.Await? || a.OnEvent?
    ensures Next(s, a).slots[a.slot] == Vacant <==> !(a.Await? || a.OnEvent?)
  {
  }

  lemma {:induction false} OtherStep(s: State, a: Action)
    requires Enabled(s, a) && TimersIn(a) + TimersOut(a) + EventsIn(a) + EventsOut(a) == 0 && !a.Collect?
    ensures Next(s, a).timers == s.timers && Next(s, a).slots == s.slots && Next(s, a).polls == s.polls
  {
    if a.Go? {
      GoLeavesPlaces(s, a.w, a.made);
    } else if a.YieldHold? || a.YieldReady? || a.Finish? || a.Decrement? {
      SwitchLeavesPlaces(s, a);
    } else if Idles(a) {
      IdlingLeavesPlaces(s, a);
    }
  }

  /** Timers and events are accounted for over every stretch of a run. */
  lemma {:induction false} RunBalance(s: State, run: seq<Action>)
    requires Legal(s, run)
    ensures |SR.Run(s, run).timers| + Sum(TimersOut, run) == |s.timers| + Sum(TimersIn, run)
    ensures Taken(SR.Run(s, run).slots) + Sum(EventsOut, run) == Taken(s.slots) + Sum(EventsIn, run)
    decreases |run|
  {
    if run != [] {
      hide Next, Enabled, Taken;
      StepBalance(s, run[0]);
      RunBalance(Next(s, run[0]), run[1..]);
    }
  }

  // The reads of an idle fiber that ends.

  /** Before step `k` worker `w` has asked for timers in step `i`, and found none. */
  predicate AskedAt(s0: State, run: seq<Action>, w: nat, i: nat, k: nat)
    requires Legal(s0, run)
  {
    && i < k <= |run| && run[i] == AskTimers(w) && StateAt(s0, run, i).timers == []
    && forall l :: i < l < k ==> By(run[l]) != Some(w)
  }

  /** Then it has asked for events in step `j`, and found none. */
  predicate ClearedAt(s0: State, run: seq<Action>, w: nat, i: nat, j: nat, k: nat)
    requires Legal(s0, run)
  {
    && j < k <= |run| && AskedAt(s0, run, w, i, j) && run[j] == AskEvents(w) && NoEvents(StateAt(s0, run, j))
    && forall l :: j < l < k ==> By(run[l]) != Some(w)
  }

  /** A successful check: it began in step `i`, and the idle fiber ended with it in step `e`. */
  predicate EndedBy(s0: State, run: seq<Action>, w: nat, i: nat, j: nat, e: nat)
    requires Legal(s0, run)
  {
    e < |run| && run[e] == IdleExit(w) && ClearedAt(s0, run, w, i, j, e)
  }

  lemma {:induction false} AsksFrom(s: State, a: Action, w: nat)
    requires Enabled(s, a) && w < |s.workers|
    ensures w < |Next(s, a).workers|
    ensures By(a) != Some(w) ==> Next(s, a).workers[w] == s.workers[w]
    ensures By(a) == Some(w) && Next(s, a).workers[w].pc == Asked ==> a == AskTimers(w) && s.timers == []
    ensures By(a) == Some(w) && Next(s, a).workers[w].pc == Cleared ==>
              a == AskEvents(w) && s.workers[w].pc == Asked && NoEvents(s)
  {
    FlagsKept(s, a);
    if !a.AskTimers? && !a.AskEvents? {
      hide Next;
    }
  }

  /** What a worker in the middle of a check has found. */
  lemma {:induction false} FoundNone(s0: State, run: seq<Action>, w: nat, k: nat) returns (i: nat, j: nat)
    requires IsInitial(s0) && Legal(s0, run) && k <= |run| && w < |StateAt(s0, run, k).workers|
    ensures StateAt(s0, run, k).workers[w].pc == Asked ==> AskedAt(s0, run, w, i, k)
    ensures StateAt(s0, run, k).workers[w].pc == Cleared ==> ClearedAt(s0, run, w, i, j, k)
    decreases k
  {
    hide Next, Enabled, Legal;
    i, j := 0, 0;
    if k == 0 {
      EndsAt(s0, run);
    } else {
      StepAt(s0, run, k - 1);
      FlagsKept(StateAt(s0, run, k - 1), run[k - 1]);
      AsksFrom(StateAt(s0, run, k - 1), run[k - 1], w);
      i, j := FoundNone(s0, run, w, k - 1);
      if By(run[k - 1]) == Some(w) {
        if run[k - 1].AskTimers? {
          i := k - 1;
        } else {
          j := k - 1;
        }
      }
    }
  }

  lemma {:induction false} PollsStays(s: State, a: Action)
    requires Enabled(s, a)
    ensures Next(s, a).polls == s.polls
  {
    hide Next, Enabled;
    if TimersIn(a) + TimersOut(a) > 0 || a.Collect? {
      TimerStep(s, a);
    } else if EventsIn(a) + EventsOut(a) > 0 {
      EventStep(s, a);
    } else {
      OtherStep(s, a);
    }
  }

  lemma {:induction false} PollsAt(s0: State, run: seq<Action>, k: nat)
    requires Legal(s0, run) && k <= |run|
    ensures StateAt(s0, run, k).polls == s0.polls
    decreases k
  {
    hide Next, Enabled, Legal;
    if k == 0 {
      EndsAt(s0, run);
    } else {
      StepAt(s0, run, k - 1);
      PollsAt(s0, run, k - 1);
      PollsStays(StateAt(s0, run, k - 1), run[k - 1]);
    }
  }

  /** An idle fiber of IOManager ends only with a successful check. */
  lemma {:induction false} ExitIsChecked(s0: State, run: seq<Action>, w: nat, e: nat) returns (i: nat, j: nat)
    requires IsInitial(s0) && s0.polls && Legal(s0, run) && e < |run| && run[e] == IdleExit(w)
    ensures EndedBy(s0, run, w, i, j, e)
  {
    StepAt(s0, run, e);
    PollsAt(s0, run, e);
    i, j := FoundNone(s0, run, w, e);
  }

  lemma {:induction false} Suffix(s: State, run: seq<Action>, k: nat)
    requires Legal(s, run) && k <= |run|
    ensures Legal(StateAt(s, run, k), run[k..]) && SR.Run(StateAt(s, run, k), run[k..]) == SR.Run(s, run)
    decreases k
  {
    hide Next, Enabled;
    if k == 0 {
      EndsAt(s, run);
      assert run[0..] == run;
    } else {
      assert run[..k][0] == run[0] && run[..k][1..] == run[1..][..k - 1];
      assert run[1..][k - 1..] == run[k..];
      Prefix(s, run, k);
      Suffix(Next(s, run[0]), run[1..], k - 1);
    }
  }

  /** As many timers taken out as armed since the one read, as many events as registered since the other. */
  predicate Settled(run: seq<Action>, i: nat, j: nat)
    requires i <= |run| && j <= |run|
  {
    && Sum(TimersIn, run[i..]) == Sum(TimersOut, run[i..])
    && Sum(EventsIn, run[j..]) == Sum(EventsOut, run[j..])
  }

  /** After any successful check, nobody waits exactly when everything registered since is taken out. */
  lemma {:induction false} NobodyWaitsIff(s0: State, run: seq<Action>, w: nat, i: nat, j: nat, e: nat)
    requires Legal(s0, run) && EndedBy(s0, run, w, i, j, e)
    ensures NobodyWaits(SR.Run(s0, run)) <==> Settled(run, i, j)
  {
    hide Next, Enabled, Legal, SR.Run;
    Suffix(s0, run, i);
    RunBalance(StateAt(s0, run, i), run[i..]);
    Suffix(s0, run, j);
    RunBalance(StateAt(s0, run, j), run[j..]);
    NoneTaken(StateAt(s0, run, j).slots);
    NoneTaken(SR.Run(s0, run).slots);
  }

  /**
   * When every worker has left its loop, nobody is left waiting if and only if everything that was
   * registered since the reads of any successful check has been taken out.
   */
  lemma {:induction false} NobodyLeftIff(s0: State, run: seq<Action>)
    requires IsInitial(s0) && s0.polls && Legal(s0, run) && AllGone(SR.Run(s0, run))
    ensures NobodyWaits(SR.Run(s0, run)) <==>
              forall w, i, j, e :: EndedBy(s0, run, w, i, j, e) ==> Settled(run, i, j)
  {
    hide Next, Enabled, Legal, SR.Run, NobodyWaits, Settled;
    forall w, i, j, e | EndedBy(s0, run, w, i, j, e)
      ensures NobodyWaits(SR.Run(s0, run)) <==> Settled(run, i, j)
    {
      NobodyWaitsIff(s0, run, w, i, j, e);
    }
    if !NobodyWaits(SR.Run(s0, run)) {
      var w, e := SomeExit(s0, run);
      var i, j := ExitIsChecked(s0, run, w, e);
      assert EndedBy(s0, run, w, i, j, e);
    }
  }

  lemma {:induction false} SumNone(f: Action -> nat, run: seq<Action>)
    requires forall k :: 0 <= k < |run| ==> f(run[k]) == 0
    ensures Sum(f, run) == 0
  {
    if run != [] {
      SumNone(f, run[1..]);
    }
  }

  lemma {:induction false} SumSome(f: Action -> nat, run: seq<Action>, k: nat)
    requires k < |run|
    ensures Sum(f, run) >= f(run[k])
  {
    if k > 0 {
      SumSome(f, run[1..], k - 1);
    }
  }

  /** If nobody registers once a successful check has begun, nobody is left waiting. */
  lemma {:induction false} NoWaiterStranded(s0: State, run: seq<Action>, w: nat, i: nat, j: nat, e: nat)
    requires Legal(s0, run) && EndedBy(s0, run, w, i, j, e)
    requires forall k :: i <= k < |run| ==> !Registers(run[k])
    ensures NobodyWaits(SR.Run(s0, run))
  {
    hide Next, Enabled, Legal, SR.Run;
    Suffix(s0, run, i);
    RunBalance(StateAt(s0, run, i), run[i..]);
    SumNone(TimersIn, run[i..]);
    Suffix(s0, run, j);
    RunBalance(StateAt(s0, run, j), run[j..]);
    SumNone(EventsIn, run[j..]);
    NoneTaken(StateAt(s0, run, j).slots);
    NoneTaken(SR.Run(s0, run).slots);
  }

  /** If nothing is taken out since then, somebody is left waiting exactly when somebody has registered. */
  lemma {:induction false} WaiterStrandedIff(s0: State, run: seq<Action>, w: nat, i: nat, j: nat, e: nat)
    requires Legal(s0, run) && EndedBy(s0, run, w, i, j, e)
    requires forall k :: i <= k < |run| ==> TimersOut(run[k]) == EventsOut(run[k]) == 0
    ensures !NobodyWaits(SR.Run(s0, run)) <==> exists k :: i <= k < |run| && Registers(run[k])
  {
    hide Next, Enabled, Legal, SR.Run;
    if k :| i <= k < |run| && Registers(run[k]) {
      Suffix(s0, run, i);
      RunBalance(StateAt(s0, run, i), run[i..]);
      SumNone(TimersOut, run[i..]);
      SumNone(EventsOut, run[i..]);
      assert run[i..][k - i] == run[k];
      SumSome(TimersIn, run[i..], k - i);
      SumSome(EventsIn, run[i..], k - i);
      NoneTaken(SR.Run(s0, run).slots);
    } else {
      NoWaiterStranded(s0, run, w, i, j, e);
    }
  }

  /** Shutting down leaves nothing at all behind if and only if both hold. */
  lemma {:induction false} OrderlyShutdownIff(s0: State, run: seq<Action>)
    requires IsInitial(s0) && s0.polls && Legal(s0, run) && AllGone(SR.Run(s0, run))
    ensures Quiet(SR.Run(s0, run)) <==>
              (LosesNothing(s0, run) && forall w, i, j, e :: EndedBy(s0, run, w, i, j, e) ==> Settled(run, i, j))
  {
    hide Next, Enabled, Legal, SR.Run, EndedBy, Settled, LosesNothing;
    NoTaskLeftIff(s0, run);
    NobodyLeftIff(s0, run);
    EndsAt(s0, run);
    ReachableAt(s0, run, |run|);
    GoneIsStill(SR.Run(s0, run));
  }

  lemma {:induction false} GoneIsStill(s: State)
    requires Reachable(s) && AllGone(s)
    ensures s.stopped && forall w :: 0 <= w < |s.workers| ==> Still(s.workers[w].pc)
  {
    ReachableInv(s);
    assert s.stopped by {
      assert !Staying(s.workers[0]);
    }
  }
}
