/** The timer objects and their manager, updated in place, against the state machine of TimerSpec. */
module Timers {
  import opened TimerSpec
  import opened TimerRuns

  class Timer {
    const id: Id  // the address
    const recurring: bool
    var ms: nat
    var next: nat
    var cb: Option<Callback>

    constructor (id: Id, ms: nat, callback: Callback, recurring: bool, created: nat)
      ensures this.id == id && Image(this) == Rec(created + ms, ms, recurring, Some(callback))
    {
      this.id := id;
      this.recurring := recurring;
      this.ms := ms;
      next := created + ms;
      cb := Some(callback);
    }
  }

  function Image(t: Timer): Rec
    reads t
  {
    Rec(t.next, t.ms, t.recurring, t.cb)
  }

  /** The objects in `made` carry the records `recs`, one object to an address. */
  ghost predicate Mirrors(made: set<Timer>, recs: map<Id, Rec>)
    reads made
  {
    && (forall t :: t in made ==> t.id in recs && recs[t.id] == Image(t))
    && (forall t, u :: t in made && u in made && t.id == u.id ==> t == u)
  }

  lemma {:induction false} MirrorsNewcomer(made: set<Timer>, recs: map<Id, Rec>, t: Timer)
    requires Mirrors(made, recs) && t.id !in recs
    ensures Mirrors(made + {t}, recs[t.id := Image(t)])
  {
  }

  lemma {:induction false} MirrorsAt(made: set<Timer>, recs: map<Id, Rec>, t: Timer)
    requires Mirrors(made, recs) && t in made
    ensures t.id in recs && recs[t.id] == Image(t)
  {
  }

  /** Changing one object changes one record. */
  twostate lemma MirrorsUpdate(made: set<Timer>, new recs: map<Id, Rec>, new t: Timer)
    requires old(Mirrors(made, recs)) && t in made && forall u :: u in made && u != t ==> Image(u) == old(Image(u))
    ensures Mirrors(made, recs[t.id := Image(t)])
  {
  }

  ghost predicate Lists(timers: seq<Timer>, q: seq<Id>, made: set<Timer>) {
    |timers| == |q| && forall i :: 0 <= i < |q| ==> timers[i] in made && timers[i].id == q[i]
  }

  /** Walks the set to the first timer that is not before `k`. */
  method LowerBoundOf(timers: seq<Timer>, k: Key, ghost made: set<Timer>, ghost recs: map<Id, Rec>, ghost q: seq<Id>)
    returns (n: nat)
    requires Mirrors(made, recs) && Lists(timers, q, made) && Known(recs, q)
    ensures n == LowerBound(recs, q, k)
  {
    n := 0;
    while n < |timers| && Before(Some(Key(timers[n].next, timers[n].id)), Some(k))
      invariant n <= |timers|
      invariant forall i :: 0 <= i < n ==> Less(KeyOf(recs, q[i]), k)
    {
      n := n + 1;
    }
    LowerBoundIs(recs, q, k, n);
  }

  /** Resetting leaves a deadline at most the new period ahead. */
  lemma {:induction false} ResetInRange(s: State, id: Id, ms: nat, fromNow: bool)
    requires Inv(s) && Armed(s, id)
    ensures s.recs[id].ms <= s.recs[id].next
    ensures ms <= ResetRec(s.recs[id], s.clock, ms, fromNow).next <= s.clock + ms
  {
  }

  lemma {:induction false} RefreshEffect(s: State, id: Id)
    requires Inv(s) && id in s.recs
    ensures Armed(s, id) ==>
              var s', r := AfterRefresh(s, id), s.recs[id];
              && s'.recs == s.recs[id := r.(next := s.clock + r.ms)] && s'.tickled == s.tickled
              && Known(s'.recs, Unlinked(s, id)) && s'.queue == TimerSpec.Insert(s'.recs, Unlinked(s, id), id)
    ensures !Armed(s, id) ==> AfterRefresh(s, id) == s
  {
    if Armed(s, id) {
      UnlinkedKeeps(s, id);
    }
  }

  lemma {:induction false} DueAreArmed(s: State, now: nat)
    requires Inv(s)
    ensures var due := s.queue[..DueCount(s.recs, s.queue, now)];
            forall i :: 0 <= i < |due| ==> Armed(s, due[i])
  {
    forall i | 0 <= i < DueCount(s.recs, s.queue, now) ensures Armed(s, s.queue[i]) {
      assert s.queue[i] in s.queue;
    }
  }

  /** What a collection leaves, and the callbacks it adds to the log. */
  lemma {:induction false} CollectEffect(s: State, now: nat)
    requires Inv(s)
    ensures var it := DueCount(s.recs, s.queue, now);
            var due, s' := s.queue[..it], AfterCollect(s, now);
            && Known(s.recs, s.queue[it..]) && Known(s.recs, due)
            && (var b := Rearm(Book(s.recs, s.queue[it..]), due, now); s'.recs == b.recs && s'.queue == b.queue)
            && s'.tickled == s.tickled && |s'.log| == |s.log| + |due|
            && forall k :: 0 <= k < |due| ==> due[k] in s.recs && Some(s'.log[|s.log| + k].cb) == s.recs[due[k]].cb
  {
    DueAreArmed(s, now);
  }

  lemma {:induction false} RearmNext(b: Book, due: seq<Id>, k: nat, now: nat)
    requires Known(b.recs, b.queue) && Known(b.recs, due) && Distinct(due) && k < |due|
    ensures var b1 := RearmOne(b, due[k], now);
            && Known(b1.recs, b1.queue) && b1.recs.Keys == b.recs.Keys
            && Rearm(b, due[k..], now) == Rearm(b1, due[k + 1..], now)
            && forall i :: k < i < |due| ==> b1.recs[due[i]] == b.recs[due[i]]
  {
    assert due[k..][0] == due[k] && due[k..][1..] == due[k + 1..];
  }

  class TimerManager {
    var timers: seq<Timer>  // m_timers, in the order of the comparator
    var tickled: bool
    ghost var made: set<Timer>
    ghost var state: State

    ghost predicate Valid()
      reads this, made
    {
      && Inv(state) && tickled == state.tickled
      && Mirrors(made, state.recs) && Lists(timers, state.queue, made)
    }

    constructor ()
      ensures Valid() && state == INITIAL && made == {}
    {
      timers := [];
      tickled := false;
      made := {};
      state := INITIAL;
    }

    /** Time passes. */
    ghost method Elapse(ms: nat)
      requires Valid()
      modifies this`state
      ensures Valid() && state == AfterTick(old(state), ms)
    {
      TickKeepsInv(state, ms);
      state := AfterTick(state, ms);
    }

    /** m_timers.find, for a timer that has its callback: its place. */
    method Position(t: Timer) returns (n: nat)
      requires Valid() && t in made && t.cb.Some?
      ensures n == Find(state.recs, state.queue, t.id) && n < |timers| && timers[n] == t
    {
      n := LowerBoundOf(timers, Key(t.next, t.id), made, state.recs, state.queue);
      MemberIsFound(state, t.id);
    }

    /** m_timers.erase of an armed timer, the object itself left as it is. */
    method Unlink(t: Timer)
      requires Valid() && t in made && t.cb.Some?
      modifies this`timers
      ensures Lists(timers, Unlinked(state, t.id), made)
    {
      var n := Position(t);
      timers := timers[..n] + timers[n + 1..];
    }

    /** m_timers.insert of a timer that carries its new record. */
    method Link(t: Timer, ghost recs: map<Id, Rec>, ghost q: seq<Id>) returns (front: bool)
      requires t in made && t.id in recs && Known(recs, q)
      requires Mirrors(made, recs) && Lists(timers, q, made)
      modifies this`timers
      ensures Lists(timers, TimerSpec.Insert(recs, q, t.id), made)
      ensures front <==> LowerBound(recs, q, KeyOf(recs, t.id)) == 0
    {
      var n := LowerBoundOf(timers, Key(t.next, t.id), made, recs, q);
      timers := timers[..n] + [t] + timers[n..];
      front := n == 0;
    }

    /** The locked addTimer: inserts, and says whether to notify. */
    method Insert(t: Timer, ghost s: State, ghost recs: map<Id, Rec>, ghost q: seq<Id>) returns (notify: bool)
      requires t in made && t.id in recs && Known(recs, q) && tickled == s.tickled
      requires Mirrors(made, recs) && Lists(timers, q, made) && Inv(Store(s, recs, q, t.id))
      modifies this
      ensures Valid() && made == old(made) && state == Store(s, recs, q, t.id)
      ensures notify <==> state.notices > s.notices
    {
      hide Inv;
      var front := Link(t, recs, q);
      notify := front && !tickled;
      if notify {
        tickled := true;
      }
      state := Store(s, recs, q, t.id);
    }

    /**
     * addTimer: `created` is when the timer read the clock, before the lock. The address is one no
     * other timer has.
     */
    method AddTimer(id: Id, ms: nat, callback: Callback, recurring: bool, created: nat)
      returns (t: Timer, notify: bool)
      requires Valid() && id !in state.recs && created <= state.clock
      modifies this
      ensures Valid() && fresh(t) && made == old(made) + {t} && t.id == id
      ensures state == AfterAdd(old(state), id, Rec(created + ms, ms, recurring, Some(callback)))
      ensures notify <==> state.notices > old(state).notices
    {
      hide Inv, Mirrors;
      t := new Timer(id, ms, callback, recurring, created);
      ghost var r := Image(t);
      AddKeepsInv(state, id, r);
      MirrorsNewcomer(made, state.recs, t);
      made := made + {t};
      ghost var recs := state.recs[id := r];
      notify := Insert(t, state, recs, state.queue);
    }

    method Cancel(t: Timer) returns (done: bool)
      requires Valid() && t in made
      modifies this, t
      ensures Valid() && made == old(made) && state == AfterCancel(old(state), t.id)
      ensures done <==> Armed(old(state), t.id)
    {
      hide Inv;
      done := t.cb.Some?;
      CancelKeepsInv(state, t.id);
      if done {
        Unlink(t);
        ghost var s' := AfterCancel(state, t.id);
        t.cb := None;
        state := s';
      }
    }

    method Refresh(t: Timer, now: nat) returns (done: bool)
      requires Valid() && t in made && now == state.clock
      modifies this, t
      ensures Valid() && made == old(made) && state == AfterRefresh(old(state), t.id)
      ensures done <==> Armed(old(state), t.id)
    {
      hide Inv, Lists, Mirrors, TimerSpec.Insert, AfterRefresh, Unlinked;
      MirrorsAt(made, state.recs, t);
      done := t.cb.Some?;
      RefreshKeepsInv(state, t.id);
      RefreshEffect(state, t.id);
      if done {
        ghost var s' := AfterRefresh(state, t.id);
        UnlinkedKeeps(state, t.id);
        ghost var q := Unlinked(state, t.id);
        Unlink(t);
        t.next := now + t.ms;
        MirrorsUpdate(made, state.recs, t);
        var _ := Link(t, s'.recs, q);
        state := s';
      }
    }

    method Reset(t: Timer, ms: nat, fromNow: bool, now: nat) returns (done: bool, notify: bool)
      requires Valid() && t in made && now == state.clock
      modifies this, t
      ensures Valid() && made == old(made) && state == AfterReset(old(state), t.id, ms, fromNow)
      ensures done <==> Armed(old(state), t.id) || (ms == old(t.ms) && !fromNow)
      ensures notify <==> state.notices > old(state).notices
    {
      hide Inv, Lists, TimerSpec.Insert;
      done, notify := true, false;
      if ms != t.ms || fromNow {
        done := t.cb.Some?;
        if done {
          ResetInRange(state, t.id, ms, fromNow);
          ghost var s, r, q := state, ResetRec(state.recs[t.id], state.clock, ms, fromNow), Unlinked(state, t.id);
          RestoreKeepsInv(s, t.id, r);
          UnlinkedKeeps(state, t.id);
          Unlink(t);
          var start := if fromNow then now else t.next - t.ms;
          t.ms := ms;
          t.next := start + t.ms;
          ghost var recs := s.recs[t.id := r];
          MirrorsUpdate(made, s.recs, t);
          notify := Insert(t, s, recs, q);
        }
      }
    }

    method HasTimer() returns (some: bool)
      requires Valid()
      ensures some <==> exists id :: Armed(state, id)
    {
      some := timers != [];
      if some {
        assert Armed(state, timers[0].id) by {
          assert state.queue[0] in state.queue;
        }
      } else {
        assert forall id :: Armed(state, id) ==> id in state.queue;
      }
    }

    /** getNextTimer: how long until the first deadline; none stands for the all-ones value. */
    method GetNextTimer(now: nat) returns (wait: Option<nat>)
      requires Valid() && now == state.clock
      modifies this`tickled, this`state
      ensures Valid() && state == AfterReport(old(state))
      ensures wait.None? <==> forall id :: !Armed(state, id)
      ensures wait.Some? ==> forall id :: Armed(state, id) ==>
                wait.value == 0 || now + wait.value <= state.recs[id].next
      ensures wait.Some? && wait.value == 0 ==> exists id :: Armed(state, id) && state.recs[id].next <= now
      ensures wait.Some? && wait.value > 0 ==> exists id :: Armed(state, id) && state.recs[id].next == now + wait.value
    {
      ReportKeepsInv(state);
      state := AfterReport(state);
      tickled := false;
      if timers == [] {
        wait := None;
        assert forall id :: Armed(state, id) ==> id in state.queue;
      } else {
        var first := timers[0];
        assert Armed(state, first.id) by {
          assert state.queue[0] in state.queue;
        }
        wait := Some(if now >= first.next then 0 else first.next - now);
        forall id | Armed(state, id) ensures first.next <= state.recs[id].next {
          var i :| 0 <= i < |state.queue| && state.queue[i] == id;
        }
      }
    }

    /** One expired timer: rearmed and put back, or disarmed. */
    method ExpireOne(timer: Timer, now: nat, ghost b: Book) returns (cb: Callback)
      requires Known(b.recs, b.queue) && timer in made && Mirrors(made, b.recs) && Lists(timers, b.queue, made)
      requires timer.id in b.recs && b.recs[timer.id].cb.Some?
      modifies this`timers, timer
      ensures cb == b.recs[timer.id].cb.value
      ensures var b' := RearmOne(b, timer.id, now); Mirrors(made, b'.recs) && Lists(timers, b'.queue, made)
    {
      ghost var b' := RearmOne(b, timer.id, now);
      cb := timer.cb.value;
      if timer.recurring {
        timer.next := now + timer.ms;
        MirrorsUpdate(made, b.recs, timer);
        var _ := Link(timer, b'.recs, b.queue);
      } else {
        timer.cb := None;
      }
    }

    /** Rearms or disarms the expired timers one by one, collecting their callbacks. */
    method Expire(expired: seq<Timer>, now: nat, ghost b0: Book, ghost due: seq<Id>) returns (cbs: seq<Callback>)
      requires Known(b0.recs, b0.queue) && Known(b0.recs, due) && Distinct(due)
      requires forall i :: 0 <= i < |due| ==> b0.recs[due[i]].cb.Some?
      requires Mirrors(made, b0.recs) && Lists(timers, b0.queue, made) && Lists(expired, due, made)
      modifies this`timers, made
      ensures var b := Rearm(b0, due, now); Mirrors(made, b.recs) && Lists(timers, b.queue, made)
      ensures |cbs| == |due| && forall i :: 0 <= i < |due| ==> cbs[i] == b0.recs[due[i]].cb.value
    {
      hide Mirrors, RearmOne;
      cbs := [];
      ghost var b := b0;
      for k := 0 to |expired|
        invariant Known(b.recs, b.queue) && b.recs.Keys == b0.recs.Keys
        invariant Rearm(b, due[k..], now) == Rearm(b0, due, now)
        invariant Mirrors(made, b.recs) && Lists(timers, b.queue, made)
        invariant forall i :: k <= i < |due| ==> b.recs[due[i]] == b0.recs[due[i]]
        invariant |cbs| == k && forall i :: 0 <= i < k ==> cbs[i] == b0.recs[due[i]].cb.value
      {
        var timer := expired[k];
        RearmNext(b, due, k, now);
        ghost var b1 := RearmOne(b, timer.id, now);
        var cb := ExpireOne(timer, now, b);
        cbs := cbs + [cb];
        b := b1;
      }
      assert due[|due|..] == [];
    }

    /** How many timers have expired: the scan from the probe's place over the equal deadlines. */
    method Expired(now: nat, probe: Id) returns (it: nat)
      requires Valid()
      ensures it == DueCount(state.recs, state.queue, now)
    {
      it := 0;
      if timers != [] && timers[0].next <= now {
        ProbeIrrelevant(state.recs, state.queue, now, probe);
        it := LowerBoundOf(timers, Key(now, probe), made, state.recs, state.queue);
        while it < |timers| && timers[it].next == now
          invariant it <= DueCount(state.recs, state.queue, now)
        {
          it := it + 1;
        }
      }
    }

    /** The expired timers out of the set, rearmed or disarmed, and their callbacks. */
    method Harvest(now: nat, probe: Id) returns (cbs: seq<Callback>)
      requires Valid() && now <= state.clock
      modifies this`timers, made
      ensures var it := DueCount(state.recs, state.queue, now);
              var due, rest := state.queue[..it], state.queue[it..];
              && (forall i :: 0 <= i < |due| ==> Armed(state, due[i]))
              && |cbs| == |due| && (forall i :: 0 <= i < |due| ==> cbs[i] == state.recs[due[i]].cb.value)
              && var b := Rearm(Book(state.recs, rest), due, now);
                 Mirrors(made, b.recs) && Lists(timers, b.queue, made)
    {
      hide Inv, Mirrors, Rearm;
      DueAreFirst(state, now);
      DueAreArmed(state, now);
      var it := Expired(now, probe);
      ghost var due, rest := state.queue[..it], state.queue[it..];
      var expired := timers[..it];
      timers := timers[it..];
      cbs := Expire(expired, now, Book(state.recs, rest), due);
    }

    /** listExpiredCb: `now` was read before the locks, and `probe` is the address of the probe timer. */
    method ListExpiredCb(now: nat, probe: Id) returns (cbs: seq<Callback>)
      requires Valid() && now <= state.clock
      modifies this, made
      ensures Valid() && made == old(made) && state == AfterCollect(old(state), now)
      ensures |cbs| == |state.log| - |old(state).log|
      ensures forall k :: 0 <= k < |cbs| ==> cbs[k] == state.log[|old(state).log| + k].cb
    {
      hide Inv, Mirrors, Lists, Rearm, DueCount, AfterCollect;
      DueAreFirst(state, now);
      DueAreArmed(state, now);
      CollectEffect(state, now);
      CollectKeepsInv(state, now);
      cbs := Harvest(now, probe);
      state := AfterCollect(state, now);
    }
  }

  // Whole runs of the object.

  /** `handles` has the object of every timer made. */
  ghost predicate Handled(handles: map<Id, Timer>, recs: map<Id, Rec>, made: set<Timer>) {
    forall id :: id in recs ==> id in handles && handles[id] in made && handles[id].id == id
  }

  lemma {:induction false} KeysAfter(s: State, a: Action)
    requires Inv(s) && Enabled(s, a)
    ensures Next(s, a).recs.Keys == s.recs.Keys + if a.Add? then {a.id} else {}
  {
  }

  /** One operation; `now` is the time, which is also when its callers read the clock. */
  method Perform(m: TimerManager, handles: map<Id, Timer>, a: Action, now: nat, probe: Id)
    returns (handles': map<Id, Timer>)
    requires m.Valid() && Enabled(m.state, a) && now == m.state.clock && Handled(handles, m.state.recs, m.made)
    modifies m, m.made
    ensures m.Valid() && m.state == Next(old(m.state), a) && Handled(handles', m.state.recs, m.made)
    ensures forall t :: t in m.made && t !in old(m.made) ==> fresh(t)
  {
    hide Inv, Mirrors, Lists, AfterAdd, AfterCancel, AfterRefresh, AfterReset, AfterReport, AfterCollect;
    KeysAfter(m.state, a);
    handles' := handles;
    match a
    case Tick(ms) => m.Elapse(ms);
    case Add(id, period, callback, repeat, created) =>
      var t, _ := m.AddTimer(id, period, callback, repeat, created);
      handles' := handles[id := t];
    case Cancel(id) => var _ := m.Cancel(handles[id]);
    case Refresh(id) => var _ := m.Refresh(handles[id], now);
    case Reset(id, period, fromNow) => var _, _ := m.Reset(handles[id], period, fromNow, now);
    case Report => var _ := m.GetNextTimer(now);
    case Collect(then_) => var _ := m.ListExpiredCb(then_, probe);
  }

  lemma {:induction false} RunSnoc(s: State, run: seq<Action>, k: nat)
    requires Inv(s) && Legal(s, run) && k < |run|
    ensures Legal(s, run[..k]) && Legal(s, run[..k + 1]) && Enabled(Run(s, run[..k]), run[k])
    ensures Run(s, run[..k + 1]) == Next(Run(s, run[..k]), run[k])
    decreases k
  {
    hide Inv, Next, Enabled;
    StepKeepsInv(s, run[0]);
    if k == 0 {
      assert run[..1][1..] == [] && run[..1][0] == run[0];
    } else {
      assert run[..k][1..] == run[1..][..k - 1] && run[..k + 1][1..] == run[1..][..k];
      RunSnoc(Next(s, run[0]), run[1..], k - 1);
    }
  }

  lemma {:induction false} ClockAfter(s: State, a: Action)
    requires Inv(s) && Enabled(s, a)
    ensures Next(s, a).clock == s.clock + if a.Tick? then a.ms else 0
  {
  }

  /**
   * Whatever is done to a fresh manager, in any order and with any address for the probe timers, it
   * ends in the state of the machine, so that what holds of every run of the machine holds of it.
   */
  method Replay(run: seq<Action>, probes: seq<Id>) returns (m: TimerManager)
    requires Inv(INITIAL) && Legal(INITIAL, run) && |probes| == |run|
    ensures m.Valid() && fresh(m) && m.state == Run(INITIAL, run)
  {
    hide Inv, Next, Enabled, Mirrors, Lists, Legal;
    m := new TimerManager();
    var handles, clock := map[], 0;
    assert Legal(INITIAL, run[..0]) && Run(INITIAL, run[..0]) == INITIAL by {
      NothingRun(run);
    }
    for k := 0 to |run|
      invariant Legal(INITIAL, run[..k]) && m.Valid() && m.state == Run(INITIAL, run[..k]) && clock == m.state.clock
      invariant Handled(handles, m.state.recs, m.made) && fresh(m) && forall t :: t in m.made ==> fresh(t)
    {
      RunSnoc(INITIAL, run, k);
      ClockAfter(m.state, run[k]);
      handles := Perform(m, handles, run[k], clock, probes[k]);
      clock := clock + if run[k].Tick? then run[k].ms else 0;
    }
    assert run[..|run|] == run;
  }

  lemma {:induction false} NothingRun(run: seq<Action>)
    requires Inv(INITIAL)
    ensures Legal(INITIAL, run[..0]) && Run(INITIAL, run[..0]) == INITIAL
  {
  }
}
