/** The timers of timer.cpp as a state machine: the ordered set, the announcement flag and the clock. */
module TimerSpec {
  datatype Option<+T> = None | Some(value: T)

  /** A timer is named by its address, which also breaks ties in the order. */
  type Id = nat

  type Callback = nat

  /** A timer is armed as long as it has its callback. */
  datatype Rec = Rec(next: nat, ms: nat, recurring: bool, cb: Option<Callback>)

  /** One callback handed out: whose, when, and for which deadline. */
  datatype Fire = Fire(id: Id, cb: Callback, at: nat, deadline: nat)

  datatype State = State(
    recs: map<Id, Rec>,       // every timer made so far
    queue: seq<Id>,           // the ordered set
    tickled: bool,            // m_tickled
    clock: nat,               // the largest time read so far
    reported: Option<nat>,    // the deadline last reported, none for "no timer"
    notices: nat,             // front notifications since that report
    log: seq<Fire>)           // callbacks handed out so far

  const INITIAL: State := State(map[], [], false, 0, None, 0, [])

  datatype Action =
    | Tick(ms: nat)
    | Add(id: Id, period: nat, callback: Callback, repeat: bool, created: nat)
    | Cancel(id: Id)
    | Refresh(id: Id)
    | Reset(id: Id, period: nat, fromNow: bool)
    | Report
    | Collect(now: nat)

  // The order of the set.

  datatype Key = Key(next: nat, id: Id)

  /** Comparator: null before everything, then by deadline, then by address. */
  predicate Before(l: Option<Key>, r: Option<Key>) {
    if l.None? && r.None? then false
    else if l.None? then true
    else if r.None? then false
    else if l.value.next < r.value.next then true
    else if r.value.next < l.value.next then false
    else l.value.id < r.value.id
  }

  /** The comparator is a strict total order: what the set needs to be one. */
  lemma {:induction false} BeforeIsStrictTotal(a: Option<Key>, b: Option<Key>, c: Option<Key>)
    ensures !(Before(a, b) && Before(b, a))
    ensures Before(a, b) && Before(b, c) ==> Before(a, c)
    ensures Before(a, b) || Before(b, a) || a == b
  {
  }

  predicate Less(a: Key, b: Key) {
    Before(Some(a), Some(b))
  }

  function KeyOf(recs: map<Id, Rec>, id: Id): Key
    requires id in recs
  {
    Key(recs[id].next, id)
  }

  predicate Known(recs: map<Id, Rec>, q: seq<Id>) {
    forall i :: 0 <= i < |q| ==> q[i] in recs
  }

  predicate Sorted(recs: map<Id, Rec>, q: seq<Id>)
    requires Known(recs, q)
  {
    forall i, j :: 0 <= i < j < |q| ==> Less(KeyOf(recs, q[i]), KeyOf(recs, q[j]))
  }

  /** lower_bound: how many leading elements are before `k`. */
  function LowerBound(recs: map<Id, Rec>, q: seq<Id>, k: Key): (n: nat)
    requires Known(recs, q)
    ensures n <= |q|
    ensures forall i :: 0 <= i < n ==> Less(KeyOf(recs, q[i]), k)
    ensures n < |q| ==> !Less(KeyOf(recs, q[n]), k)
  {
    if q != [] && Less(KeyOf(recs, q[0]), k) then 1 + LowerBound(recs, q[1..], k) else 0
  }

  lemma {:induction false} LowerBoundIs(recs: map<Id, Rec>, q: seq<Id>, k: Key, n: nat)
    requires Known(recs, q) && n <= |q|
    requires (forall i :: 0 <= i < n ==> Less(KeyOf(recs, q[i]), k)) && (n < |q| ==> !Less(KeyOf(recs, q[n]), k))
    ensures LowerBound(recs, q, k) == n
  {
    if n > 0 {
      LowerBoundIs(recs, q[1..], k, n - 1);
    }
  }

  /** find: the position with the key of `id`, or the end. */
  function Find(recs: map<Id, Rec>, q: seq<Id>, id: Id): (n: nat)
    requires Known(recs, q) && id in recs
    ensures n <= |q|
  {
    var n := LowerBound(recs, q, KeyOf(recs, id));
    if n < |q| && !Less(KeyOf(recs, id), KeyOf(recs, q[n])) then n else |q|
  }

  function RemoveAt(q: seq<Id>, n: nat): seq<Id>
    requires n < |q|
  {
    q[..n] + q[n + 1..]
  }

  function InsertAt(q: seq<Id>, n: nat, id: Id): seq<Id>
    requires n <= |q|
  {
    q[..n] + [id] + q[n..]
  }

  /** insert: in front of the first element that is not before it. */
  function Insert(recs: map<Id, Rec>, q: seq<Id>, id: Id): seq<Id>
    requires Known(recs, q) && id in recs
  {
    InsertAt(q, LowerBound(recs, q, KeyOf(recs, id)), id)
  }

  /** In a sorted queue an element is found where it is. */
  lemma {:induction false} FindsMember(recs: map<Id, Rec>, q: seq<Id>, n: nat)
    requires Known(recs, q) && Sorted(recs, q) && n < |q|
    ensures Find(recs, q, q[n]) == n
  {
    assert forall i :: 0 <= i < n ==> Less(KeyOf(recs, q[i]), KeyOf(recs, q[n]));
    LowerBoundIs(recs, q, KeyOf(recs, q[n]), n);
  }

  lemma {:induction false} RemoveKeepsSorted(recs: map<Id, Rec>, q: seq<Id>, n: nat)
    requires Known(recs, q) && Sorted(recs, q) && n < |q|
    ensures Known(recs, RemoveAt(q, n)) && Sorted(recs, RemoveAt(q, n))
    ensures forall x :: x in RemoveAt(q, n) <==> x in q && x != q[n]
  {
    var r := RemoveAt(q, n);
    forall i | 0 <= i < |r| ensures r[i] == q[if i < n then i else i + 1] {
    }
    forall j | 0 <= j < |q| && j != n ensures q[j] != q[n] {
      assert if j < n then Less(KeyOf(recs, q[j]), KeyOf(recs, q[n])) else Less(KeyOf(recs, q[n]), KeyOf(recs, q[j]));
    }
    forall x | x in q && x != q[n] ensures x in r {
      var i :| 0 <= i < |q| && q[i] == x;
      assert r[if i < n then i else i - 1] == x;
    }
    forall x | x in r ensures x in q && x != q[n] {
      var i :| 0 <= i < |r| && r[i] == x;
      assert r[i] == q[if i < n then i else i + 1];
    }
  }

  lemma {:induction false} InsertKeepsSorted(recs: map<Id, Rec>, q: seq<Id>, id: Id)
    requires Known(recs, q) && Sorted(recs, q) && id in recs && id !in q
    ensures Known(recs, Insert(recs, q, id)) && Sorted(recs, Insert(recs, q, id))
    ensures forall x :: x in Insert(recs, q, id) <==> x in q || x == id
  {
    var n := LowerBound(recs, q, KeyOf(recs, id));
    var r := Insert(recs, q, id);
    forall i | 0 <= i < |r| ensures r[i] == if i < n then q[i] else if i == n then id else q[i - 1] {
    }
    forall i | n <= i < |q| ensures Less(KeyOf(recs, id), KeyOf(recs, q[i])) {
      BeforeIsStrictTotal(Some(KeyOf(recs, id)), Some(KeyOf(recs, q[n])), Some(KeyOf(recs, q[i])));
    }
    forall x | x in q ensures x in r {
      var i :| 0 <= i < |q| && q[i] == x;
      assert r[if i < n then i else i + 1] == x;
    }
    assert r[n] == id;
  }

  /** Keys of members alone decide sortedness. */
  lemma {:induction false} SortedElsewhere(recs: map<Id, Rec>, recs': map<Id, Rec>, q: seq<Id>)
    requires Known(recs, q) && Sorted(recs, q)
    requires forall x :: x in q ==> x in recs' && recs'[x].next == recs[x].next
    ensures Known(recs', q) && Sorted(recs', q)
  {
  }

  // The operations.

  predicate Armed(s: State, id: Id) {
    id in s.recs && s.recs[id].cb.Some?
  }

  /**
   * What every run keeps. The set is strictly ordered and holds exactly the timers that have a
   * callback; no deadline lies further ahead than its period; and while no notification is pending,
   * nothing stored is due before the deadline last reported.
   */
  predicate Inv(s: State) {
    && Known(s.recs, s.queue) && Sorted(s.recs, s.queue)
    && (forall id :: id in s.recs ==> (s.recs[id].cb.Some? <==> id in s.queue))
    && (forall id :: id in s.recs ==> s.recs[id].ms <= s.recs[id].next <= s.clock + s.recs[id].ms)
    && (!s.tickled ==> Announced(s))
    && s.notices == (if s.tickled then 1 else 0)
    && (forall k :: 0 <= k < |s.log| ==> s.log[k].deadline <= s.log[k].at <= s.clock && s.log[k].id in s.recs)
  }

  /** No stored timer is due before the reported deadline; with none reported, none is stored. */
  predicate Announced(s: State)
    requires Known(s.recs, s.queue)
  {
    forall i :: 0 <= i < |s.queue| ==> s.reported.Some? && s.reported.value <= s.recs[s.queue[i]].next
  }

  /** How many timers at the front of the set are due. */
  function DueCount(recs: map<Id, Rec>, q: seq<Id>, now: nat): (n: nat)
    requires Known(recs, q)
    ensures n <= |q|
    ensures forall i :: 0 <= i < n ==> recs[q[i]].next <= now
    ensures n < |q| ==> recs[q[n]].next > now
  {
    if q != [] && recs[q[0]].next <= now then 1 + DueCount(recs, q[1..], now) else 0
  }

  datatype Book = Book(recs: map<Id, Rec>, queue: seq<Id>)

  /** One collected timer: a recurring one goes back in with a new deadline, a one-shot is disarmed. */
  function RearmOne(b: Book, id: Id, now: nat): Book
    requires Known(b.recs, b.queue) && id in b.recs
  {
    var r := b.recs[id];
    if r.recurring then
      var recs := b.recs[id := r.(next := now + r.ms)];
      Book(recs, Insert(recs, b.queue, id))
    else
      Book(b.recs[id := r.(cb := None)], b.queue)
  }

  function Rearm(b: Book, ids: seq<Id>, now: nat): (b': Book)
    requires Known(b.recs, b.queue) && Known(b.recs, ids)
    ensures Known(b'.recs, b'.queue) && b'.recs.Keys == b.recs.Keys
    decreases |ids|
  {
    if ids == [] then b else Rearm(RearmOne(b, ids[0], now), ids[1..], now)
  }

  function Fires(recs: map<Id, Rec>, ids: seq<Id>, now: nat): (fs: seq<Fire>)
    requires Known(recs, ids) && forall i :: 0 <= i < |ids| ==> recs[ids[i]].cb.Some?
    ensures |fs| == |ids|
    ensures forall i :: 0 <= i < |ids| ==>
              fs[i] == Fire(ids[i], recs[ids[i]].cb.value, now, recs[ids[i]].next)
  {
    seq(|ids|, i requires 0 <= i < |ids| => Fire(ids[i], recs[ids[i]].cb.value, now, recs[ids[i]].next))
  }

  /** addTimer: insert, and notify when the newcomer is first and nobody has been notified yet. */
  function Store(s: State, recs: map<Id, Rec>, q: seq<Id>, id: Id): State
    requires Known(recs, q) && id in recs
  {
    var front := LowerBound(recs, q, KeyOf(recs, id)) == 0 && !s.tickled;
    s.(recs := recs, queue := Insert(recs, q, id), tickled := s.tickled || front,
       notices := s.notices + if front then 1 else 0)
  }

  predicate Enabled(s: State, a: Action) {
    match a
    case Tick(_) => true
    case Add(id, _, _, _, created) => id !in s.recs && created <= s.clock
    case Cancel(id) => id in s.recs
    case Refresh(id) => id in s.recs
    case Reset(id, _, _) => id in s.recs
    case Report => true
    case Collect(now) => now <= s.clock
  }

  function Unlinked(s: State, id: Id): seq<Id>
    requires Inv(s) && Armed(s, id)
  {
    MemberIsFound(s, id);
    RemoveAt(s.queue, Find(s.recs, s.queue, id))
  }

  /** The lookups of cancel, refresh and reset always find an armed timer. */
  lemma {:induction false} MemberIsFound(s: State, id: Id)
    requires Inv(s) && Armed(s, id)
    ensures Find(s.recs, s.queue, id) < |s.queue| && s.queue[Find(s.recs, s.queue, id)] == id
  {
    var n :| 0 <= n < |s.queue| && s.queue[n] == id;
    FindsMember(s.recs, s.queue, n);
  }

  function AfterTick(s: State, ms: nat): State {
    s.(clock := s.clock + ms)
  }

  function AfterAdd(s: State, id: Id, r: Rec): State
    requires Inv(s)
  {
    Store(s, s.recs[id := r], s.queue, id)
  }

  function AfterCancel(s: State, id: Id): State
    requires Inv(s) && id in s.recs
  {
    if Armed(s, id) then s.(recs := s.recs[id := s.recs[id].(cb := None)], queue := Unlinked(s, id)) else s
  }

  function AfterRefresh(s: State, id: Id): State
    requires Inv(s) && id in s.recs
  {
    if Armed(s, id) then
      var recs := s.recs[id := s.recs[id].(next := s.clock + s.recs[id].ms)];
      MemberIsFound(s, id);
      s.(recs := recs, queue := Insert(recs, Unlinked(s, id), id))
    else s
  }

  /** The record that reset leaves: the new period counted from now or from where the old one started. */
  function ResetRec(r: Rec, clock: nat, ms: nat, fromNow: bool): Rec
    requires r.ms <= r.next
  {
    r.(ms := ms, next := (if fromNow then clock else r.next - r.ms) + ms)
  }

  /** Out of the set and back in with another record, as a newcomer. */
  function AfterMove(s: State, id: Id, r: Rec): State
    requires Inv(s) && Armed(s, id)
  {
    Store(s, s.recs[id := r], Unlinked(s, id), id)
  }

  function AfterReset(s: State, id: Id, ms: nat, fromNow: bool): State
    requires Inv(s) && id in s.recs
  {
    if ms == s.recs[id].ms && !fromNow then s
    else if Armed(s, id) then AfterMove(s, id, ResetRec(s.recs[id], s.clock, ms, fromNow))
    else s
  }

  function AfterReport(s: State): State
    requires Inv(s)
  {
    s.(tickled := false, notices := 0, reported := if s.queue == [] then None else Some(s.recs[s.queue[0]].next))
  }

  function AfterCollect(s: State, now: nat): State
    requires Inv(s)
  {
    var n := DueCount(s.recs, s.queue, now);
    var b := Rearm(Book(s.recs, s.queue[n..]), s.queue[..n], now);
    s.(recs := b.recs, queue := b.queue, log := s.log + Fires(s.recs, s.queue[..n], now))
  }

  function Next(s: State, a: Action): State
    requires Inv(s) && Enabled(s, a)
  {
    match a
    case Tick(ms) => AfterTick(s, ms)
    case Add(id, period, callback, repeat, created) =>
      AfterAdd(s, id, Rec(created + period, period, repeat, Some(callback)))
    case Cancel(id) => AfterCancel(s, id)
    case Refresh(id) => AfterRefresh(s, id)
    case Reset(id, period, fromNow) => AfterReset(s, id, period, fromNow)
    case Report => AfterReport(s)
    case Collect(now) => AfterCollect(s, now)
  }
}
