/** Runs of the event table. */
module EventRuns {
  import opened EventTable

  ghost predicate Waiting(t: Table, r: nat) {
    exists slot :: slot in t.slots && t.slots[slot].reg == r
  }

  ghost predicate Handed(t: Table, r: nat) {
    exists k :: 0 <= k < |t.handed| && t.handed[k].reg == r
  }

  /** Registrations are numbered apart, and each one made has a place. */
  ghost predicate Inv(t: Table) {
    && (forall a :: a in t.slots ==> t.slots[a].reg < t.next && t.slots[a].reg !in t.removed)
    && (forall a, b :: a in t.slots && b in t.slots && a != b ==> t.slots[a].reg != t.slots[b].reg)
    && (forall k :: 0 <= k < |t.handed| ==> t.handed[k].reg < t.next && t.handed[k].reg !in t.removed)
    && (forall i, j :: 0 <= i < j < |t.handed| ==> t.handed[i].reg != t.handed[j].reg)
    && (forall a, k :: a in t.slots && 0 <= k < |t.handed| ==> t.slots[a].reg != t.handed[k].reg)
    && (forall r :: r in t.removed ==> r < t.next)
    && (forall r: nat :: r < t.next ==> Waiting(t, r) || Handed(t, r) || r in t.removed)
    && (forall c :: c in t.calls && t.calls[c].due ==> t.calls[c].cancelled)
  }

  lemma {:induction false} EmptyInv()
    ensures Inv(EMPTY_TABLE)
  {
  }

  lemma {:induction false} TriggerKeepsInv(t: Table, slot: Slot)
    requires Inv(t)
    ensures Inv(Trigger(t, slot))
  {
    if slot in t.slots {
      TriggerKeepsPlaces(t, slot);
      hide Waiting, Handed;
      assert t.slots[slot].reg !in t.removed;
    }
  }

  /** Whatever has a place keeps one. */
  lemma {:induction false} TriggerKeepsPlaces(t: Table, slot: Slot)
    requires slot in t.slots
    ensures var t' := Trigger(t, slot);
            forall r: nat :: Waiting(t, r) || Handed(t, r) ==> Waiting(t', r) || Handed(t', r)
  {
    var t' := Trigger(t, slot);
    assert t'.handed[|t.handed|] == t.slots[slot];
    forall r: nat | Waiting(t, r) || Handed(t, r) ensures Waiting(t', r) || Handed(t', r) {
      if Waiting(t, r) {
        var a :| a in t.slots && t.slots[a].reg == r;
        assert a != slot ==> a in t'.slots;
      } else {
        var k :| 0 <= k < |t.handed| && t.handed[k].reg == r;
        assert t'.handed[k].reg == r;
      }
    }
  }

  lemma {:induction false} DropKeepsInv(t: Table, slot: Slot)
    requires Inv(t)
    ensures Inv(Drop(t, slot))
  {
    var t' := Drop(t, slot);
    if slot in t.slots {
      forall r: nat | r < t.next ensures Waiting(t', r) || Handed(t', r) || r in t'.removed {
        if Waiting(t, r) {
          var a :| a in t.slots && t.slots[a].reg == r;
          assert a != slot ==> a in t'.slots;
        } else if Handed(t, r) {
          assert t'.handed == t.handed;
        }
      }
    }
  }

  lemma {:induction false} RegisterKeepsInv(t: Table, slot: Slot, scheduler: nat, handle: Handle)
    requires Inv(t) && slot !in t.slots
    ensures Inv(Register(t, slot, scheduler, handle))
  {
    var t' := Register(t, slot, scheduler, handle);
    assert slot in t'.slots && t'.slots[slot].reg == t.next;
    forall r: nat | r < t'.next ensures Waiting(t', r) || Handed(t', r) || r in t'.removed {
      if r < t.next && Waiting(t, r) {
        var a :| a in t.slots && t.slots[a].reg == r;
        assert a in t'.slots && t'.slots[a] == t.slots[a];
      } else if r < t.next && Handed(t, r) {
        assert t'.handed == t.handed;
      }
    }
  }

  /** Records of the blocking calls have no part in it. */
  lemma {:induction false} CallsKeepInv(t: Table, calls: map<nat, Call>)
    requires Inv(t) && forall c :: c in calls && calls[c].due ==> calls[c].cancelled
    ensures Inv(t.(calls := calls))
  {
    var t' := t.(calls := calls);
    forall r: nat | r < t.next ensures Waiting(t', r) || Handed(t', r) || r in t'.removed {
      assert Waiting(t, r) ==> Waiting(t', r);
      assert Handed(t, r) ==> Handed(t', r);
    }
  }

  lemma {:induction false} TriggerAllKeepsInv(t: Table, fd: nat, hit: set<Event>)
    requires Inv(t)
    ensures Inv(TriggerAll(t, fd, hit))
  {
    hide Inv;
    var t1 := if READ in hit then Trigger(t, Slot(fd, READ)) else t;
    TriggerKeepsInv(t, Slot(fd, READ));
    TriggerKeepsInv(t1, Slot(fd, WRITE));
  }

  lemma {:induction false} StepKeepsInv(t: Table, a: Action)
    requires Inv(t) && Enabled(t, a)
    ensures Inv(Next(t, a))
  {
    match a
    case Add(slot, scheduler, handle, _) => RegisterKeepsInv(t, slot, scheduler, handle);
    case Del(slot, _) => DropKeepsInv(t, slot);
    case Cancel(slot, _) => TriggerKeepsInv(t, slot);
    case CancelAll(fd, _) => TriggerAllKeepsInv(t, fd, {READ, WRITE});
    case Ready(fd, bits, hangup, _) => TriggerAllKeepsInv(t, fd, Real(bits, hangup));
    case _ => CallStepKeepsInv(t, a);
  }

  /** The steps of the blocking calls. */
  lemma {:induction false} CallStepKeepsInv(t: Table, a: Action)
    requires Inv(t) && Enabled(t, a) && (a.Begin? || a.Timeout? || a.Strike? || a.End?)
    ensures Inv(Next(t, a))
  {
    DueIsMarked(t, a);
    hide Inv, Trigger;
    match a
    case Begin(call, slot) => CallsKeepInv(t, t.calls[call := Call(slot, false, false, true)]);
    case Timeout(call) => CallsKeepInv(t, t.calls[call := Mark(t.calls[call])]);
    case Strike(call, fail) =>
      var calls := t.calls[call := t.calls[call].(due := false)];
      CallsKeepInv(t, calls);
      TriggerKeepsInv(t.(calls := calls), t.calls[call].slot);
    case End(call) => CallsKeepInv(t, t.calls[call := t.calls[call].(live := false)]);
  }

  lemma {:induction false} DueIsMarked(t: Table, a: Action)
    requires Inv(t) && Enabled(t, a)
    ensures forall c :: c in Next(t, a).calls && Next(t, a).calls[c].due ==> Next(t, a).calls[c].cancelled
  {
  }

  /** Each registration made is in exactly one of its three places, and there only once. */
  lemma {:induction false} ExactlyOnePlace(t: Table, r: nat)
    requires Inv(t) && r < t.next
    ensures Waiting(t, r) || Handed(t, r) || r in t.removed
    ensures !(Waiting(t, r) && Handed(t, r)) && !(Waiting(t, r) && r in t.removed) && !(Handed(t, r) && r in t.removed)
    ensures forall a, b :: a in t.slots && b in t.slots && t.slots[a].reg == r && t.slots[b].reg == r ==> a == b
    ensures forall i, j :: 0 <= i < |t.handed| && 0 <= j < |t.handed| ==>
              t.handed[i].reg == r && t.handed[j].reg == r ==> i == j
  {
  }

  // Runs.

  predicate Legal(t: Table, run: seq<Action>)
    decreases |run|
  {
    run == [] || (Enabled(t, run[0]) && Legal(Next(t, run[0]), run[1..]))
  }

  function Run(t: Table, run: seq<Action>): Table
    requires Legal(t, run)
    decreases |run|
  {
    if run == [] then t else Run(Next(t, run[0]), run[1..])
  }

  lemma {:induction false} RunKeepsInv(t: Table, run: seq<Action>)
    requires Inv(t) && Legal(t, run)
    ensures Inv(Run(t, run))
    decreases |run|
  {
    if run != [] {
      StepKeepsInv(t, run[0]);
      RunKeepsInv(Next(t, run[0]), run[1..]);
    }
  }

  lemma {:induction false} RunAppend(t: Table, a: seq<Action>, b: seq<Action>)
    requires Legal(t, a + b)
    ensures Legal(t, a) && Legal(Run(t, a), b) && Run(t, a + b) == Run(Run(t, a), b)
    decreases |a|
  {
    if a == [] {
      assert a + b == b;
    } else {
      assert (a + b)[0] == a[0] && (a + b)[1..] == a[1..] + b;
      RunAppend(Next(t, a[0]), a[1..], b);
    }
  }

  /** In every run of a fresh table each registration has exactly one place. */
  lemma {:induction false} WholeRun(run: seq<Action>, r: nat)
    requires Legal(EMPTY_TABLE, run) && r < Run(EMPTY_TABLE, run).next
    ensures var t := Run(EMPTY_TABLE, run);
            if Waiting(t, r) then !Handed(t, r) && r !in t.removed
            else if Handed(t, r) then r !in t.removed
            else r in t.removed
  {
    RunKeepsInv(EMPTY_TABLE, run);
    ExactlyOnePlace(Run(EMPTY_TABLE, run), r);
  }

  /** Which slots an action may empty. */
  predicate Targets(t: Table, a: Action, slot: Slot) {
    match a
    case Del(s, fail) => !fail && s == slot
    case Cancel(s, fail) => !fail && s == slot
    case CancelAll(fd, fail) => !fail && fd == slot.fd
    case Ready(fd, bits, hangup, fail) => !fail && fd == slot.fd && slot.event in Real(bits, hangup)
    case Strike(call, fail) => !fail && call in t.calls && t.calls[call].due && t.calls[call].slot == slot
    case _ => false
  }

  /** A registration stays in its slot until an action targets it; nothing else empties a slot. */
  lemma {:induction false} Untargeted(t: Table, a: Action, slot: Slot)
    requires Enabled(t, a) && slot in t.slots && !Targets(t, a, slot)
    ensures slot in Next(t, a).slots && Next(t, a).slots[slot] == t.slots[slot]
    ensures t.handed <= Next(t, a).handed && t.removed <= Next(t, a).removed
  {
  }

  lemma {:induction false} UntargetedRun(t: Table, run: seq<Action>, slot: Slot)
    requires Legal(t, run) && slot in t.slots
    requires forall k :: 0 <= k < |run| && Legal(t, run[..k]) ==> !Targets(Run(t, run[..k]), run[k], slot)
    ensures slot in Run(t, run).slots && Run(t, run).slots[slot] == t.slots[slot]
    decreases |run|
  {
    if run != [] {
      assert run[..0] == [];
      Untargeted(t, run[0], slot);
      var t1, rest := Next(t, run[0]), run[1..];
      forall k | 0 <= k < |rest| && Legal(t1, rest[..k]) ensures !Targets(Run(t1, rest[..k]), rest[k], slot) {
        assert run[..k + 1][0] == run[0] && run[..k + 1][1..] == rest[..k];
      }
      UntargetedRun(t1, rest, slot);
    }
  }

  /** Whatever comes first takes the waiter out: every action but a deletion hands it over. */
  lemma {:induction false} TargetTakesOut(t: Table, a: Action, slot: Slot)
    requires Inv(t) && Enabled(t, a) && slot in t.slots && Targets(t, a, slot)
    ensures slot !in Next(t, a).slots && t.handed <= Next(t, a).handed
    ensures if a.Del? then t.slots[slot].reg in Next(t, a).removed
            else exists k :: |t.handed| <= k < |Next(t, a).handed| && Next(t, a).handed[k] == t.slots[slot]
  {
    var t' := Next(t, a);
    if !a.Del? {
      var k := if slot.event == WRITE then |t'.handed| - 1 else |t.handed|;
      assert t'.handed[k] == t.slots[slot];
    }
  }

  lemma {:induction false} HistoryGrows(t: Table, run: seq<Action>)
    requires Legal(t, run)
    ensures t.handed <= Run(t, run).handed && t.removed <= Run(t, run).removed && t.next <= Run(t, run).next
    decreases |run|
  {
    if run != [] {
      HistoryGrows(Next(t, run[0]), run[1..]);
    }
  }

  /** `w` was handed over at place `k` and at no other. */
  ghost predicate OnlyHanding(t: Table, k: nat, w: Waiter) {
    && k < |t.handed| && t.handed[k] == w
    && forall j :: 0 <= j < |t.handed| && t.handed[j].reg == w.reg ==> j == k
  }

  /**
   * The first action to target a registration decides: if it is not a deletion the waiter it was made
   * for is handed over there, once, and nothing that comes later hands it over again.
   */
  lemma {:induction false} FirstWakes(t: Table, before: seq<Action>, a: Action, after: seq<Action>, slot: Slot)
    requires Inv(t) && slot in t.slots && Legal(t, before + [a] + after)
    requires forall k :: 0 <= k < |before| && Legal(t, before[..k]) ==> !Targets(Run(t, before[..k]), before[k], slot)
    requires Legal(t, before) && Targets(Run(t, before), a, slot) && !a.Del?
    ensures var s, m := Run(t, before + [a] + after), Run(t, before);
            && Enabled(m, a)
            && (exists k :: |m.handed| <= k < |Next(m, a).handed| <= |s.handed| && OnlyHanding(s, k, t.slots[slot]))
  {
    hide Inv, Next, Targets, OnlyHanding;
    var m, s := Run(t, before), Run(t, before + [a] + after);
    assert before + [a] + after == before + ([a] + after);
    RunAppend(t, before, [a] + after);
    RunAppend(m, [a], after);
    assert [a][0] == a && [a][1..] == [];
    var m1 := Next(m, a);
    assert Legal(m1, []) && Run(m, [a]) == m1;
    UntargetedRun(t, before, slot);
    RunKeepsInv(t, before);
    TargetTakesOut(m, a, slot);
    HistoryGrows(m1, after);
    RunKeepsInv(t, before + [a] + after);
    var k :| |m.handed| <= k < |m1.handed| && m1.handed[k] == t.slots[slot];
    OnlyOnce(s, k);
  }

  lemma {:induction false} OnlyOnce(t: Table, k: nat)
    requires Inv(t) && k < |t.handed|
    ensures OnlyHanding(t, k, t.handed[k])
  {
  }

  /** A registration that is out of its slot stays out, and is not handed over again. */
  lemma {:induction false} OutStaysOut(t: Table, run: seq<Action>, r: nat)
    requires Inv(t) && Legal(t, run) && r < t.next && !Waiting(t, r)
    ensures var s := Run(t, run);
            && !Waiting(s, r) && t.handed <= s.handed
            && forall k :: |t.handed| <= k < |s.handed| ==> s.handed[k].reg != r
  {
    var s := Run(t, run);
    HistoryGrows(t, run);
    RunKeepsInv(t, run);
    if Handed(t, r) {
      var k :| 0 <= k < |t.handed| && t.handed[k].reg == r;
      assert s.handed[k].reg == r;
    } else {
      assert r in s.removed;
    }
  }

  // Time-outs of blocking calls.

  /** No callback of the call's timers will do anything any more. */
  predicate TimedOut(t: Table, call: nat) {
    call in t.calls && !t.calls[call].due && (t.calls[call].cancelled || !t.calls[call].live)
  }

  /** Once a call has timed out or returned, its record stays so. */
  lemma {:induction false} SpentStays(t: Table, run: seq<Action>, call: nat)
    requires Legal(t, run) && call in t.calls && (t.calls[call].cancelled || !t.calls[call].live)
    ensures var c, d := t.calls[call], Run(t, run).calls;
            && call in d && d[call].slot == c.slot && (d[call].cancelled || !d[call].live) && (d[call].due ==> c.due)
    decreases |run|
  {
    if run != [] {
      SpentStays(Next(t, run[0]), run[1..], call);
    }
  }

  /**
   * However many timers a blocking call has armed over its retries, only the first of them to fire
   * while the call is in progress does anything; the others, and any that fire after it returned,
   * leave every registration alone.
   */
  lemma {:induction false} OneTimeoutPerCall(t: Table, first: Action, run: seq<Action>, call: nat)
    requires (first.Timeout? || first.End?) && first.call == call
    requires Enabled(t, first) && Legal(Next(t, first), run)
    ensures var s := Run(Next(t, first), run);
            Enabled(s, Timeout(call)) && Next(s, Timeout(call)) == s
  {
    SpentStays(Next(t, first), run, call);
    var s := Run(Next(t, first), run);
    assert s.calls[call := s.calls[call]] == s.calls;
  }

  /** And that one cancels the event once. */
  lemma {:induction false} OneStrikePerCall(t: Table, call: nat, fail: bool, run: seq<Action>, again: bool)
    requires Inv(t) && Enabled(t, Strike(call, fail)) && Legal(Next(t, Strike(call, fail)), run)
    ensures !Enabled(Run(Next(t, Strike(call, fail)), run), Strike(call, again))
  {
    SpentStays(Next(t, Strike(call, fail)), run, call);
  }

  /** Nothing but the call's own time-out reaches the slot. */
  predicate LeftToTimeout(t: Table, run: seq<Action>, slot: Slot, call: nat) {
    forall k :: 0 <= k < |run| && Legal(t, run[..k]) && Targets(Run(t, run[..k]), run[k], slot) ==>
                  run[k].Strike? && run[k].call == call
  }

  /** A registration made when the call has timed out already is not woken by any of its timers. */
  lemma {:induction false} LostTimeout(t: Table, run: seq<Action>, slot: Slot, call: nat)
    requires slot in t.slots && TimedOut(t, call) && Legal(t, run) && LeftToTimeout(t, run, slot, call)
    ensures slot in Run(t, run).slots && Run(t, run).slots[slot] == t.slots[slot]
  {
    forall k | 0 <= k < |run| && Legal(t, run[..k]) ensures !Targets(Run(t, run[..k]), run[k], slot) {
      SpentStays(t, run[..k], call);
    }
    UntargetedRun(t, run, slot);
  }

  /**
   * A time-out can still end the wait exactly if the call has not timed out before the registration
   * was made, or its callback has yet to cancel the event.
   */
  lemma {:induction false} TimeoutEndsWaitIff(t: Table, slot: Slot, call: nat)
    requires slot in t.slots && call in t.calls && t.calls[call].slot == slot
    ensures (exists run :: Legal(t, run) && LeftToTimeout(t, run, slot, call) && slot !in Run(t, run).slots)
       <==> !TimedOut(t, call)
  {
    if TimedOut(t, call) {
      forall run | Legal(t, run) && LeftToTimeout(t, run, slot, call) ensures slot in Run(t, run).slots {
        LostTimeout(t, run, slot, call);
      }
    } else {
      var run := if t.calls[call].due then [Strike(call, false)] else [Timeout(call), Strike(call, false)];
      RunOfOne(if t.calls[call].due then t else Next(t, Timeout(call)), Strike(call, false));
      assert t.calls[call].due || run[1..] == [Strike(call, false)];
      assert Legal(t, run) && slot !in Run(t, run).slots;
      assert LeftToTimeout(t, run, slot, call);
    }
  }

  lemma {:induction false} LeftRest(t: Table, run: seq<Action>, slot: Slot, call: nat)
    requires run != [] && Legal(t, run) && LeftToTimeout(t, run, slot, call)
    ensures LeftToTimeout(Next(t, run[0]), run[1..], slot, call)
    ensures Targets(t, run[0], slot) ==> run[0] == Strike(call, false)
  {
    assert run[..0] == [];
    var t1, rest := Next(t, run[0]), run[1..];
    forall k | 0 <= k < |rest| && Legal(t1, rest[..k]) && Targets(Run(t1, rest[..k]), rest[k], slot)
      ensures rest[k].Strike? && rest[k].call == call
    {
      assert run[..k + 1][0] == run[0] && run[..k + 1][1..] == rest[..k];
      assert run[k + 1] == rest[k];
    }
  }

  lemma {:induction false} KeepsSlot(t: Table, a: Action, call: nat)
    requires Enabled(t, a) && call in t.calls
    ensures call in Next(t, a).calls && Next(t, a).calls[call].slot == t.calls[call].slot
  {
  }

  lemma {:induction false} HeldIsNotHanded(t: Table, slot: Slot)
    requires Inv(t) && slot in t.slots
    ensures t.slots[slot] !in t.handed && Waiting(t, t.slots[slot].reg)
  {
  }

  lemma {:induction false} HandedIsOut(t: Table, k: nat)
    requires Inv(t) && k < |t.handed|
    ensures t.handed[k].reg < t.next && !Waiting(t, t.handed[k].reg)
  {
  }

  /**
   * Left to the time-out, a wait has ended after a run exactly if the run has the callback cancel the
   * event, which it can only while it is due, and the kernel accept that. Then the waiter is handed over.
   */
  lemma {:induction false} EndedByTimeoutIff(t: Table, run: seq<Action>, slot: Slot, call: nat)
    requires Inv(t) && slot in t.slots && call in t.calls && t.calls[call].slot == slot
    requires Legal(t, run) && LeftToTimeout(t, run, slot, call)
    ensures !Waiting(Run(t, run), t.slots[slot].reg) <==> Strike(call, false) in run
    ensures t.slots[slot] in Run(t, run).handed <==> Strike(call, false) in run
    decreases |run|
  {
    hide Inv, Next, LeftToTimeout;
    HeldIsNotHanded(t, slot);
    if run == [] {
      return;
    }
    var t1, rest, w := Next(t, run[0]), run[1..], t.slots[slot];
    assert run == [run[0]] + rest;
    KeepsSlot(t, run[0], call);
    StepKeepsInv(t, run[0]);
    LeftRest(t, run, slot, call);
    if Targets(t, run[0], slot) {
      TargetTakesOut(t, run[0], slot);
      var k :| |t.handed| <= k < |t1.handed| && t1.handed[k] == w;
      HandedIsOut(t1, k);
      OutStaysOut(t1, rest, w.reg);
      assert Run(t1, rest).handed[k] == w;
    } else {
      Untargeted(t, run[0], slot);
      EndedByTimeoutIff(t1, rest, slot, call);
    }
  }

  lemma {:induction false} RunOfOne(t: Table, a: Action)
    requires Enabled(t, a)
    ensures Legal(t, [a]) && Run(t, [a]) == Next(t, a)
  {
    assert [a][1..] == [];
  }

  /** A run of a fresh table, step by step. */
  lemma {:induction false} RunSnoc(run: seq<Action>, a: Action)
    requires Legal(EMPTY_TABLE, run) && Enabled(Run(EMPTY_TABLE, run), a)
    ensures Legal(EMPTY_TABLE, run + [a]) && Run(EMPTY_TABLE, run + [a]) == Next(Run(EMPTY_TABLE, run), a)
  {
    RunOfOne(Run(EMPTY_TABLE, run), a);
    LegalAppend(EMPTY_TABLE, run, [a]);
    RunAppend(EMPTY_TABLE, run, [a]);
  }

  lemma {:induction false} LegalAppend(t: Table, a: seq<Action>, b: seq<Action>)
    requires Legal(t, a) && Legal(Run(t, a), b)
    ensures Legal(t, a + b)
    decreases |a|
  {
    if a == [] {
      assert a + b == b;
    } else {
      assert (a + b)[0] == a[0] && (a + b)[1..] == a[1..] + b;
      LegalAppend(Next(t, a[0]), a[1..], b);
    }
  }

  /** A call whose timer fires between arming it and registering: the registration has no time-out. */
  lemma {:induction false} EarlyTimeoutIsLost(slot: Slot, call: nat, scheduler: nat, handle: Handle)
    ensures var run := [Begin(call, slot), Timeout(call), Strike(call, false), Add(slot, scheduler, handle, false)];
            && Legal(EMPTY_TABLE, run) && slot in Run(EMPTY_TABLE, run).slots
            && TimedOut(Run(EMPTY_TABLE, run), call) && Run(EMPTY_TABLE, run).calls[call].live
  {
    RunSnoc([], Begin(call, slot));
    RunSnoc([] + [Begin(call, slot)], Timeout(call));
    RunSnoc([] + [Begin(call, slot)] + [Timeout(call)], Strike(call, false));
    RunSnoc([] + [Begin(call, slot)] + [Timeout(call)] + [Strike(call, false)], Add(slot, scheduler, handle, false));
    assert [] + [Begin(call, slot)] + [Timeout(call)] + [Strike(call, false)] + [Add(slot, scheduler, handle, false)]
        == [Begin(call, slot), Timeout(call), Strike(call, false), Add(slot, scheduler, handle, false)];
  }

  /** So has one whose time-out comes while epoll_ctl refuses to change the event. */
  lemma {:induction false} RefusedTimeoutIsLost(slot: Slot, call: nat, scheduler: nat, handle: Handle)
    ensures var run := [Begin(call, slot), Add(slot, scheduler, handle, false), Timeout(call), Strike(call, true)];
            && Legal(EMPTY_TABLE, run) && slot in Run(EMPTY_TABLE, run).slots
            && TimedOut(Run(EMPTY_TABLE, run), call) && Run(EMPTY_TABLE, run).calls[call].live
  {
    RunSnoc([], Begin(call, slot));
    RunSnoc([] + [Begin(call, slot)], Add(slot, scheduler, handle, false));
    RunSnoc([] + [Begin(call, slot)] + [Add(slot, scheduler, handle, false)], Timeout(call));
    RunSnoc([] + [Begin(call, slot)] + [Add(slot, scheduler, handle, false)] + [Timeout(call)], Strike(call, true));
    assert [] + [Begin(call, slot)] + [Add(slot, scheduler, handle, false)] + [Timeout(call)] + [Strike(call, true)]
        == [Begin(call, slot), Add(slot, scheduler, handle, false), Timeout(call), Strike(call, true)];
  }

  // Where dispatch fails.

  /** A hang-up on a descriptor with one direction registered ends in the failing assertion. */
  lemma {:induction false} HangupAborts(slot: Slot, scheduler: nat, handle: Handle, bits: set<Event>)
    ensures var run := [Add(slot, scheduler, handle, false)];
            Legal(EMPTY_TABLE, run) && Aborts(Run(EMPTY_TABLE, run), slot.fd, bits, true, false)
  {
    RunOfOne(EMPTY_TABLE, Add(slot, scheduler, handle, false));
    var t := Run(EMPTY_TABLE, [Add(slot, scheduler, handle, false)]);
    var e, other := slot.event, if slot.event == READ then WRITE else READ;
    assert Slot(slot.fd, e) in t.slots && Slot(slot.fd, other) !in t.slots;
    assert e in Real(bits, true) && other in Real(bits, true);
  }

  /**
   * So does a report of both directions when one of the two registrations is cancelled between
   * epoll_wait and dispatch, although the report was true of the registrations when it was made.
   */
  lemma {:induction false} CancelledReportAborts(fd: nat, scheduler: nat, r: Handle, w: Handle)
    ensures var both := [Add(Slot(fd, READ), scheduler, r, false), Add(Slot(fd, WRITE), scheduler, w, false)];
            && Legal(EMPTY_TABLE, both) && Enabled(Run(EMPTY_TABLE, both), Ready(fd, {READ, WRITE}, false, false))
            && Legal(EMPTY_TABLE, both + [Cancel(Slot(fd, WRITE), false)])
            && Aborts(Run(EMPTY_TABLE, both + [Cancel(Slot(fd, WRITE), false)]), fd, {READ, WRITE}, false, false)
  {
    var reading := Add(Slot(fd, READ), scheduler, r, false);
    var both := [reading, Add(Slot(fd, WRITE), scheduler, w, false)];
    RunOfOne(EMPTY_TABLE, reading);
    RunSnoc([reading], Add(Slot(fd, WRITE), scheduler, w, false));
    assert [reading] + [Add(Slot(fd, WRITE), scheduler, w, false)] == both;
    RunSnoc(both, Cancel(Slot(fd, WRITE), false));
    var t := Run(EMPTY_TABLE, both + [Cancel(Slot(fd, WRITE), false)]);
    assert Slot(fd, READ) in t.slots && Slot(fd, WRITE) !in t.slots;
    assert READ in Real({READ, WRITE}, false) && WRITE in Real({READ, WRITE}, false);
  }
}
