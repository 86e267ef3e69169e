/** All runs of the timers. */
module TimerRuns {
  import opened TimerSpec

  // One step.

  lemma {:induction false} InitialInv()
    ensures Inv(INITIAL)
  {
  }

  lemma {:induction false} TickKeepsInv(s: State, ms: nat)
    requires Inv(s)
    ensures Inv(AfterTick(s, ms))
  {
    var s' := AfterTick(s, ms);
    assert s'.recs == s.recs && s'.queue == s.queue && s'.log == s.log;
    SortedElsewhere(s.recs, s'.recs, s'.queue);
  }

  lemma {:induction false} ReportKeepsInv(s: State)
    requires Inv(s)
    ensures Inv(AfterReport(s))
  {
    var s' := AfterReport(s);
    forall i | 0 <= i < |s.queue| ensures s.recs[s.queue[0]].next <= s.recs[s.queue[i]].next {
      if i > 0 {
        assert Less(KeyOf(s.recs, s.queue[0]), KeyOf(s.recs, s.queue[i]));
      }
    }
  }

  lemma {:induction false} UnlinkedKeeps(s: State, id: Id)
    requires Inv(s) && Armed(s, id)
    ensures var q := Unlinked(s, id);
            Known(s.recs, q) && Sorted(s.recs, q) && (forall x :: x in q <==> x in s.queue && x != id)
  {
    MemberIsFound(s, id);
    RemoveKeepsSorted(s.recs, s.queue, Find(s.recs, s.queue, id));
  }

  lemma {:induction false} CancelKeepsInv(s: State, id: Id)
    requires Inv(s) && id in s.recs
    ensures Inv(AfterCancel(s, id))
  {
    if Armed(s, id) {
      UnlinkedKeeps(s, id);
      var s' := AfterCancel(s, id);
      SortedElsewhere(s.recs, s'.recs, s'.queue);
      forall i | 0 <= i < |s'.queue| ensures s'.queue[i] in s.queue {
        assert s'.queue[i] in s'.queue;
      }
    }
  }

  /** Putting a timer outside the set into it, with a new key, keeps the set in order. */
  lemma {:induction false} RelinkKeeps(recs: map<Id, Rec>, q: seq<Id>, id: Id, r: Rec)
    requires Known(recs, q) && Sorted(recs, q) && id !in q
    ensures var recs' := recs[id := r];
            && Known(recs', q)
            && var q' := Insert(recs', q, id);
               Known(recs', q') && Sorted(recs', q') && (forall x :: x in q' <==> x in q || x == id)
  {
    var recs' := recs[id := r];
    SortedElsewhere(recs, recs', q);
    InsertKeepsSorted(recs', q, id);
  }

  /** The set after insertion starts with the newcomer, or with what it started with before. */
  lemma {:induction false} FrontOfInsert(recs: map<Id, Rec>, q: seq<Id>, id: Id)
    requires Known(recs, q) && id in recs
    ensures var n := LowerBound(recs, q, KeyOf(recs, id));
            if n == 0 then Insert(recs, q, id)[0] == id
            else Insert(recs, q, id)[0] == q[0] && recs[q[0]].next <= recs[id].next
  {
  }

  /** A new deadline that is announced, or that is not before the reported one, leaves nothing unannounced. */
  lemma {:induction false} StoreKeepsAnnounced(s: State, recs: map<Id, Rec>, q: seq<Id>, id: Id)
    requires Known(recs, q) && Sorted(recs, q) && id in recs && id !in q
    requires !s.tickled ==> forall i :: 0 <= i < |q| ==> s.reported.Some? && s.reported.value <= recs[q[i]].next
    ensures var s' := Store(s, recs, q, id);
            Known(s'.recs, s'.queue) && (!s'.tickled ==> Announced(s'))
  {
    var s' := Store(s, recs, q, id);
    InsertKeepsSorted(recs, q, id);
    if !s'.tickled {
      FrontOfInsert(recs, q, id);
      forall i | 0 <= i < |s'.queue| ensures s.reported.Some? && s.reported.value <= recs[s'.queue[i]].next {
        assert s'.queue[i] in s'.queue;
        if s'.queue[i] != id {
          var j :| 0 <= j < |q| && q[j] == s'.queue[i];
        }
      }
    }
  }

  lemma {:induction false} AddKeepsInv(s: State, id: Id, r: Rec)
    requires Inv(s) && id !in s.recs
    requires r.cb.Some? && r.ms <= r.next <= s.clock + r.ms
    ensures Inv(AfterAdd(s, id, r))
  {
    assert id !in s.queue;
    RelinkKeeps(s.recs, s.queue, id, r);
    SortedElsewhere(s.recs, s.recs[id := r], s.queue);
    StoreKeepsAnnounced(s, s.recs[id := r], s.queue, id);
  }

  /** Refreshing never moves a deadline earlier. */
  lemma {:induction false} RefreshNotEarlier(s: State, id: Id)
    requires Inv(s) && Armed(s, id)
    ensures AfterRefresh(s, id).recs[id].next >= s.recs[id].next
  {
  }

  lemma {:induction false} RefreshKeepsInv(s: State, id: Id)
    requires Inv(s) && id in s.recs
    ensures Inv(AfterRefresh(s, id))
  {
    if Armed(s, id) {
      UnlinkedKeeps(s, id);
      var q, s' := Unlinked(s, id), AfterRefresh(s, id);
      RelinkKeeps(s.recs, q, id, s'.recs[id]);
      RefreshNotEarlier(s, id);
      forall i | !s.tickled && 0 <= i < |s'.queue|
        ensures s.reported.Some? && s.reported.value <= s'.recs[s'.queue[i]].next
      {
        assert s'.queue[i] in s'.queue;
        var j :| 0 <= j < |s.queue| && s.queue[j] == s'.queue[i];
      }
    }
  }

  /** Taking an armed timer out and storing it with a new record keeps the invariant. */
  lemma {:induction false} RestoreKeepsInv(s: State, id: Id, r: Rec)
    requires Inv(s) && Armed(s, id) && r.cb.Some? && r.ms <= r.next <= s.clock + r.ms
    ensures Inv(AfterMove(s, id, r))
  {
    UnlinkedKeeps(s, id);
    var q, recs := Unlinked(s, id), s.recs[id := r];
    RelinkKeeps(s.recs, q, id, r);
    SortedElsewhere(s.recs, recs, q);
    forall i | !s.tickled && 0 <= i < |q| ensures s.reported.Some? && s.reported.value <= recs[q[i]].next {
      assert q[i] in q;
      var j :| 0 <= j < |s.queue| && s.queue[j] == q[i];
    }
    StoreKeepsAnnounced(s, recs, q, id);
  }

  lemma {:induction false} ResetKeepsInv(s: State, id: Id, ms: nat, fromNow: bool)
    requires Inv(s) && id in s.recs
    ensures Inv(AfterReset(s, id, ms, fromNow))
  {
    var r := s.recs[id];
    if !(ms == r.ms && !fromNow) && Armed(s, id) {
      RestoreKeepsInv(s, id, ResetRec(r, s.clock, ms, fromNow));
    }
  }

  // Collecting.

  predicate Distinct(ids: seq<Id>) {
    forall i, j :: 0 <= i < j < |ids| ==> ids[i] != ids[j]
  }

  /** What rearming does to one record. */
  function Rearmed(r: Rec, now: nat): Rec {
    if r.recurring then r.(next := now + r.ms) else r.(cb := None)
  }

  lemma {:induction false} RearmKeeps(b: Book, ids: seq<Id>, now: nat)
    requires Known(b.recs, b.queue) && Sorted(b.recs, b.queue) && Known(b.recs, ids) && Distinct(ids)
    requires forall i :: 0 <= i < |ids| ==> ids[i] !in b.queue
    ensures var b' := Rearm(b, ids, now);
            && Sorted(b'.recs, b'.queue)
            && (forall x :: x in b.recs && x in ids ==> b'.recs[x] == Rearmed(b.recs[x], now))
            && (forall x :: x in b.recs && x !in ids ==> b'.recs[x] == b.recs[x])
            && (forall x :: x in b'.queue <==> x in b.queue || (x in ids && b.recs[x].recurring))
    decreases |ids|
  {
    if ids != [] {
      var id := ids[0];
      var b1 := RearmOne(b, id, now);
      if b.recs[id].recurring {
        RelinkKeeps(b.recs, b.queue, id, b1.recs[id]);
      } else {
        SortedElsewhere(b.recs, b1.recs, b.queue);
      }
      RearmKeeps(b1, ids[1..], now);
      assert forall x :: x in ids <==> x == id || x in ids[1..];
    }
  }

  lemma {:induction false} CollectKeeps(s: State, now: nat)
    requires Inv(s) && now <= s.clock
    ensures var s' := AfterCollect(s, now);
            && Known(s'.recs, s'.queue) && Sorted(s'.recs, s'.queue) && s'.recs.Keys == s.recs.Keys
            && (forall x :: x in s.recs ==>
                  s'.recs[x] == if Armed(s, x) && s.recs[x].next <= now then Rearmed(s.recs[x], now) else s.recs[x])
            && (forall x :: x in s.recs ==> (x in s'.queue <==> s'.recs[x].cb.Some?))
  {
    var n := DueCount(s.recs, s.queue, now);
    var due, rest, s' := s.queue[..n], s.queue[n..], AfterCollect(s, now);
    DueAreFirst(s, now);
    assert forall x :: x in s.recs ==> (s.recs[x].cb.Some? <==> x in s.queue);
    hide Inv, Sorted, DueCount, Rearm, Distinct, Insert;
    forall i | 0 <= i < |due| ensures due[i] !in rest {
      assert due[i] in due;
    }
    RearmKeeps(Book(s.recs, rest), due, now);
    forall x | x in s.recs
      ensures s'.recs[x] == if Armed(s, x) && s.recs[x].next <= now then Rearmed(s.recs[x], now) else s.recs[x]
      ensures x in s'.queue <==> s'.recs[x].cb.Some?
    {
      assert x in due <==> Armed(s, x) && s.recs[x].next <= now;
      assert x in rest <==> Armed(s, x) && s.recs[x].next > now;
    }
  }

  lemma {:induction false} RestIsLater(recs: map<Id, Rec>, q: seq<Id>, now: nat)
    requires Known(recs, q) && Sorted(recs, q)
    ensures forall i :: DueCount(recs, q, now) <= i < |q| ==> recs[q[i]].next > now
  {
    var n := DueCount(recs, q, now);
    forall i | n <= i < |q| ensures recs[q[i]].next > now {
      if i > n {
        assert Less(KeyOf(recs, q[n]), KeyOf(recs, q[i]));
      }
    }
  }

  /** The due timers are exactly those at the front, and they come in order of their deadlines. */
  lemma {:induction false} DueAreFirst(s: State, now: nat)
    requires Inv(s)
    ensures var n := DueCount(s.recs, s.queue, now);
            && Known(s.recs, s.queue[..n]) && Known(s.recs, s.queue[n..])
            && Sorted(s.recs, s.queue[..n]) && Sorted(s.recs, s.queue[n..])
            && Distinct(s.queue[..n])
            && (forall x :: x in s.queue[..n] <==> x in s.queue && s.recs[x].next <= now)
            && (forall x :: x in s.queue[n..] <==> x in s.queue && s.recs[x].next > now)
  {
    SortedIsDistinct(s.recs, s.queue[..DueCount(s.recs, s.queue, now)]);
    SplitByDue(s.recs, s.queue, now);
  }

  lemma {:induction false} SplitByDue(recs: map<Id, Rec>, q: seq<Id>, now: nat)
    requires Known(recs, q) && Sorted(recs, q)
    ensures var n := DueCount(recs, q, now);
            && (forall x :: x in q[..n] <==> x in q && recs[x].next <= now)
            && (forall x :: x in q[n..] <==> x in q && recs[x].next > now)
  {
    var n := DueCount(recs, q, now);
    RestIsLater(recs, q, now);
    hide Sorted, DueCount;
    forall x | x in q ensures recs[x].next <= now ==> x in q[..n]
    ensures recs[x].next > now ==> x in q[n..] {
      var i :| 0 <= i < |q| && q[i] == x;
      assert if i < n then q[..n][i] == x else q[n..][i - n] == x;
    }
  }

  lemma {:induction false} SortedIsDistinct(recs: map<Id, Rec>, q: seq<Id>)
    requires Known(recs, q) && Sorted(recs, q)
    ensures Distinct(q)
  {
    forall i, j | 0 <= i < j < |q| ensures q[i] != q[j] {
      assert Less(KeyOf(recs, q[i]), KeyOf(recs, q[j]));
    }
  }

  lemma {:induction false} CollectKeepsInv(s: State, now: nat)
    requires Inv(s) && now <= s.clock
    ensures Inv(AfterCollect(s, now))
  {
    var s' := AfterCollect(s, now);
    CollectKeeps(s, now);
    forall i | !s.tickled && 0 <= i < |s'.queue|
      ensures s.reported.Some? && s.reported.value <= s'.recs[s'.queue[i]].next
    {
      var x := s'.queue[i];
      assert x in s'.queue;
      assert x in s.queue;
      var j :| 0 <= j < |s.queue| && s.queue[j] == x;
    }
  }

  /** Every operation keeps the invariant. */
  lemma {:induction false} StepKeepsInv(s: State, a: Action)
    requires Inv(s) && Enabled(s, a)
    ensures Inv(Next(s, a))
  {
    hide Inv;
    match a
    case Tick(ms) => TickKeepsInv(s, ms);
    case Add(id, period, callback, repeat, created) =>
      AddKeepsInv(s, id, Rec(created + period, period, repeat, Some(callback)));
    case Cancel(id) => CancelKeepsInv(s, id);
    case Refresh(id) => RefreshKeepsInv(s, id);
    case Reset(id, period, fromNow) => ResetKeepsInv(s, id, period, fromNow);
    case Report => ReportKeepsInv(s);
    case Collect(now) => CollectKeepsInv(s, now);
  }

  /** Every timer due by `now` is at the front. */
  lemma {:induction false} DueIsAtFront(s: State, now: nat, x: Id) returns (i: nat)
    requires Inv(s) && Armed(s, x) && s.recs[x].next <= now
    ensures i < DueCount(s.recs, s.queue, now) && s.queue[i] == x
  {
    DueAreFirst(s, now);
    var due := s.queue[..DueCount(s.recs, s.queue, now)];
    assert x in due;
    i :| 0 <= i < |due| && due[i] == x;
  }

  /**
   * A collection hands out exactly one callback for each timer due by `now`, in order of the
   * deadlines, and for no other timer.
   */
  lemma {:induction false} CollectIsExact(s: State, now: nat)
    requires Inv(s) && now <= s.clock
    ensures var log := AfterCollect(s, now).log;
            && s.log <= log
            && (forall k :: |s.log| <= k < |log| ==>
                  && Armed(s, log[k].id) && s.recs[log[k].id].next <= now
                  && log[k] == Fire(log[k].id, s.recs[log[k].id].cb.value, now, s.recs[log[k].id].next))
            && (forall i, j :: |s.log| <= i < j < |log| ==>
                  log[i].id != log[j].id && log[i].deadline <= log[j].deadline)
    ensures forall x :: Armed(s, x) && s.recs[x].next <= now ==>
              exists k :: |s.log| <= k < |AfterCollect(s, now).log| && AfterCollect(s, now).log[k].id == x
  {
    var n, log := DueCount(s.recs, s.queue, now), AfterCollect(s, now).log;
    var due, m := s.queue[..n], |s.log|;
    DueAreFirst(s, now);
    DueKeysRise(s, now);
    hide Sorted, DueCount, Rearm, Inv;
    forall k | m <= k < |log| ensures log[k].id == due[k - m] && due[k - m] in due {
    }
    EachDueIsLogged(s, now);
  }

  lemma {:induction false} EachDueIsLogged(s: State, now: nat)
    requires Inv(s) && now <= s.clock
    ensures forall x :: Armed(s, x) && s.recs[x].next <= now ==>
              exists k :: |s.log| <= k < |AfterCollect(s, now).log| && AfterCollect(s, now).log[k].id == x
  {
    var log := AfterCollect(s, now).log;
    forall x | Armed(s, x) && s.recs[x].next <= now ensures exists k :: |s.log| <= k < |log| && log[k].id == x {
      var i := DueIsAtFront(s, now, x);
      assert log[|s.log| + i].id == x;
    }
  }

  lemma {:induction false} DueKeysRise(s: State, now: nat)
    requires Inv(s)
    ensures var n := DueCount(s.recs, s.queue, now);
            forall i, j :: 0 <= i < j < n ==> s.recs[s.queue[i]].next <= s.recs[s.queue[j]].next
  {
    forall i, j | 0 <= i < j < DueCount(s.recs, s.queue, now)
      ensures s.recs[s.queue[i]].next <= s.recs[s.queue[j]].next
    {
      assert Less(KeyOf(s.recs, s.queue[i]), KeyOf(s.recs, s.queue[j]));
    }
  }

  lemma {:induction false} AtLeastDue(recs: map<Id, Rec>, q: seq<Id>, now: nat, n: nat)
    requires Known(recs, q) && n <= |q| && forall i :: 0 <= i < n ==> recs[q[i]].next <= now
    ensures DueCount(recs, q, now) >= n
  {
    if n > 0 {
      AtLeastDue(recs, q[1..], now, n - 1);
    }
  }

  /** The probe's address only moves the start of the scan for equal deadlines, never its end. */
  lemma {:induction false} ProbeIrrelevant(recs: map<Id, Rec>, q: seq<Id>, now: nat, probe: Id)
    requires Known(recs, q) && Sorted(recs, q)
    ensures LowerBound(recs, q, Key(now, probe)) <= DueCount(recs, q, now)
    ensures forall i :: LowerBound(recs, q, Key(now, probe)) <= i < DueCount(recs, q, now) ==> recs[q[i]].next == now
  {
    var n, d := LowerBound(recs, q, Key(now, probe)), DueCount(recs, q, now);
    assert forall i :: 0 <= i < n ==> Less(KeyOf(recs, q[i]), Key(now, probe));
    AtLeastDue(recs, q, now, n);
    forall i | n <= i < d ensures recs[q[i]].next == now {
      if i > n {
        assert Less(KeyOf(recs, q[n]), KeyOf(recs, q[i]));
      }
    }
  }

  // Runs.

  predicate Legal(s: State, run: seq<Action>)
    requires Inv(s)
    decreases |run|
  {
    run == [] || (Enabled(s, run[0]) && (StepKeepsInv(s, run[0]); Legal(Next(s, run[0]), run[1..])))
  }

  function Run(s: State, run: seq<Action>): (s': State)
    requires Inv(s) && Legal(s, run)
    ensures Inv(s')
    decreases |run|
  {
    if run == [] then s else StepKeepsInv(s, run[0]); Run(Next(s, run[0]), run[1..])
  }

  /** The record of a timer after one step, as far as it matters to when it fires. */
  lemma {:induction false} StepOnRecord(s: State, a: Action, id: Id)
    requires Inv(s) && Enabled(s, a) && id in s.recs
    ensures var s' := Next(s, a);
            && id in s'.recs && s'.recs[id].recurring == s.recs[id].recurring
            && (s.recs[id].cb.None? ==> s'.recs[id].cb.None?)
            && (a.Cancel? && a.id == id ==> s'.recs[id].cb.None?)
            && (!(a.Reset? && a.id == id) ==> s'.recs[id].ms == s.recs[id].ms)
            && (!(a.Reset? && a.id == id) && !a.Collect? ==> s'.recs[id].next >= s.recs[id].next)
            && (!a.Collect? ==> s'.log == s.log)
  {
    if a.Collect? {
      CollectKeeps(s, a.now);
    }
  }

  /** What has fired stays in the log. */
  lemma {:induction false} LogGrows(s: State, run: seq<Action>)
    requires Inv(s) && Legal(s, run)
    ensures s.log <= Run(s, run).log
    decreases |run|
  {
    if run != [] {
      StepKeepsInv(s, run[0]);
      if run[0].Collect? {
        CollectIsExact(s, run[0].now);
      }
      LogGrows(Next(s, run[0]), run[1..]);
    }
  }

  /** A timer without its callback, cancelled or spent, stays without it and never fires again. */
  lemma {:induction false} DisarmedStays(s: State, run: seq<Action>, id: Id)
    requires Inv(s) && Legal(s, run) && id in s.recs && s.recs[id].cb.None?
    ensures var s' := Run(s, run);
            && id in s'.recs && s'.recs[id].cb.None? && s.log <= s'.log
            && forall k :: |s.log| <= k < |s'.log| ==> s'.log[k].id != id
    decreases |run|
  {
    if run != [] {
      var s1 := Next(s, run[0]);
      StepKeepsInv(s, run[0]);
      StepOnRecord(s, run[0], id);
      if run[0].Collect? {
        CollectIsExact(s, run[0].now);
      }
      DisarmedStays(s1, run[1..], id);
    }
  }

  /** After a cancel that returned true the timer is never collected. */
  lemma {:induction false} CancelledNeverFires(s: State, id: Id, run: seq<Action>)
    requires Inv(s) && Armed(s, id) && Legal(s, [Cancel(id)] + run)
    ensures var s' := Run(s, [Cancel(id)] + run);
            s.log <= s'.log && forall k :: |s.log| <= k < |s'.log| ==> s'.log[k].id != id
  {
    var all := [Cancel(id)] + run;
    assert all[1..] == run;
    StepKeepsInv(s, Cancel(id));
    StepOnRecord(s, Cancel(id), id);
    DisarmedStays(Next(s, Cancel(id)), run, id);
  }

  /** Fires of one timer lie its period apart, and its next deadline keeps that distance too. */
  predicate Paced(s: State, id: Id) {
    id in s.recs ==>
      && (s.recs[id].cb.Some? ==> forall k :: 0 <= k < |s.log| && s.log[k].id == id ==>
            s.log[k].at + s.recs[id].ms <= s.recs[id].next)
      && (forall i, j :: 0 <= i < j < |s.log| && s.log[i].id == id && s.log[j].id == id ==>
            s.recs[id].recurring && s.log[i].at + s.recs[id].ms <= s.log[j].at)
      && (!s.recs[id].recurring && s.recs[id].cb.Some? ==> forall k :: 0 <= k < |s.log| ==> s.log[k].id != id)
  }

  lemma {:induction false} StepKeepsPaced(s: State, a: Action, id: Id)
    requires Inv(s) && Enabled(s, a) && Paced(s, id) && !(a.Reset? && a.id == id)
    ensures Paced(Next(s, a), id)
  {
    if id in s.recs {
      StepOnRecord(s, a, id);
      if a.Collect? {
        CollectIsExact(s, a.now);
        CollectKeeps(s, a.now);
      }
    } else if a.Collect? {
      CollectKeeps(s, a.now);
    }
  }

  /**
   * From before a timer is made, in every run that does not reset it: two of its fires lie at least
   * its period apart, and it has two fires only if it is recurring.
   */
  lemma {:induction false} FiresArePaced(s: State, run: seq<Action>, id: Id)
    requires Inv(s) && Legal(s, run) && Paced(s, id)
    requires forall k :: 0 <= k < |run| ==> !(run[k].Reset? && run[k].id == id)
    ensures Paced(Run(s, run), id)
    decreases |run|
  {
    if run != [] {
      StepKeepsInv(s, run[0]);
      StepKeepsPaced(s, run[0], id);
      FiresArePaced(Next(s, run[0]), run[1..], id);
    }
  }

  /** Resetting does not give a one-shot a second life. */
  predicate OneShotsOnce(s: State) {
    && (forall k :: 0 <= k < |s.log| && s.log[k].id in s.recs && !s.recs[s.log[k].id].recurring ==>
       s.recs[s.log[k].id].cb.None?)
    && (forall i, j :: 0 <= i < j < |s.log| && s.log[i].id == s.log[j].id && s.log[i].id in s.recs ==>
       s.recs[s.log[i].id].recurring)
  }

  lemma {:induction false} StepKeepsOneShots(s: State, a: Action)
    requires Inv(s) && Enabled(s, a) && OneShotsOnce(s)
    ensures OneShotsOnce(Next(s, a))
  {
    var s' := Next(s, a);
    forall id | id in s.recs ensures StepFacts(s, s', id) {
      StepOnRecord(s, a, id);
    }
    if a.Collect? {
      CollectIsExact(s, a.now);
      CollectKeeps(s, a.now);
    } else {
      assert s'.log == s.log by {
        if id :| id in s.recs {
          StepOnRecord(s, a, id);
        }
      }
    }
  }

  predicate StepFacts(s: State, s': State, id: Id)
    requires id in s.recs
  {
    id in s'.recs && s'.recs[id].recurring == s.recs[id].recurring && (s.recs[id].cb.None? ==> s'.recs[id].cb.None?)
  }

  /** In every run a one-shot timer is collected at most once. */
  lemma {:induction false} OneShotsFireOnce(s: State, run: seq<Action>)
    requires Inv(s) && Legal(s, run) && OneShotsOnce(s)
    ensures OneShotsOnce(Run(s, run))
    decreases |run|
  {
    if run != [] {
      StepKeepsInv(s, run[0]);
      StepKeepsOneShots(s, run[0]);
      OneShotsFireOnce(Next(s, run[0]), run[1..]);
    }
  }

  /**
   * In every run of a fresh manager: no timer fires before its deadline, at most one front
   * notification falls between two reports, and without one nothing stored is due before the
   * deadline last reported.
   */
  lemma {:induction false} WholeRun(run: seq<Action>)
    requires Inv(INITIAL) && Legal(INITIAL, run)
    ensures var s := Run(INITIAL, run);
            && (forall k :: 0 <= k < |s.log| ==> s.log[k].deadline <= s.log[k].at)
            && s.notices <= 1
            && (s.notices == 0 ==> forall id :: Armed(s, id) ==>
                  s.reported.Some? && s.reported.value <= s.recs[id].next)
    ensures OneShotsOnce(Run(INITIAL, run))
  {
    var s := Run(INITIAL, run);
    OneShotsFireOnce(INITIAL, run);
    forall id | !s.tickled && Armed(s, id) ensures s.reported.Some? && s.reported.value <= s.recs[id].next {
      var i :| 0 <= i < |s.queue| && s.queue[i] == id;
    }
  }
}
