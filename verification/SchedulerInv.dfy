/** What every step of the scheduler keeps. */
module SchedulerInv {
  import opened SchedulerSpec

  // Counting, for one fiber, the handles that can bring it back and the places that own it.

  function RefsOf(item: Item, f: Fiber): nat {
    if (item.Resume? || item.Wake?) && item.fiber == f then 1 else 0
  }

  function ItemCount(items: seq<Item>, f: Fiber): nat {
    if items == [] then 0 else RefsOf(items[0], f) + ItemCount(items[1..], f)
  }

  function QueueCount(q: seq<Task>, f: Fiber): nat {
    if q == [] then 0 else RefsOf(q[0].item, f) + QueueCount(q[1..], f)
  }

  datatype Kind = HELD | OWN | RUNS | BUSY

  /** Whether the worker is in between switching to its callback fiber and being done with it. */
  predicate UsesCallbackFiber(pc: Pc) {
    (pc.Run? && pc.cb) || (pc.Returned? && pc.cb) || (pc.Requeue? && pc.cb)
  }

  function Bit(b: bool): nat {
    if b then 1 else 0
  }

  /** Handles on `f` that a worker holds. */
  function HeldBy(worker: Worker, f: Fiber): nat {
    match worker.pc
    case Picked(t) => RefsOf(t.item, f)
    case Run(_, _, wake, _) => Bit(wake == Some(f))
    case Returned(g, _, ready) => Bit(ready && g == f)
    case Requeue(g, _) => Bit(g == f)
    case Idle(held) => ItemCount(held, f)
    case _ => 0
  }

  function Measure(k: Kind, worker: Worker, f: Fiber): nat {
    match k
    case HELD => HeldBy(worker, f)
    case OWN =>
      Bit(worker.pc.Run? && worker.pc.fiber == f && !worker.pc.bound)
      + Bit(worker.pc.Returned? && worker.pc.fiber == f && !worker.pc.ready)
      + Bit(worker.cbFiber == Some(f) && !UsesCallbackFiber(worker.pc))
    case RUNS => Bit(worker.pc.Run? && worker.pc.fiber == f)
    case BUSY => Bit(worker.pc.Picked? || worker.pc.Run? || worker.pc.Returned?)
  }

  function Total(k: Kind, ws: seq<Worker>, f: Fiber): nat {
    if ws == [] then 0 else Measure(k, ws[0], f) + Total(k, ws[1..], f)
  }

  function Handles(s: State, f: Fiber): nat {
    QueueCount(s.queue, f) + ItemCount(s.slots, f) + ItemCount(s.timers, f) + Total(HELD, s.workers, f)
  }

  lemma {:induction false} ItemCountAppend(a: seq<Item>, b: seq<Item>, f: Fiber)
    ensures ItemCount(a + b, f) == ItemCount(a, f) + ItemCount(b, f)
  {
    if a == [] {
      assert a + b == b;
    } else {
      assert (a + b)[0] == a[0] && (a + b)[1..] == a[1..] + b;
      ItemCountAppend(a[1..], b, f);
    }
  }

  lemma {:induction false} ItemCountUpdate(items: seq<Item>, i: nat, x: Item, f: Fiber)
    requires i < |items|
    ensures ItemCount(items[i := x], f) + RefsOf(items[i], f) == ItemCount(items, f) + RefsOf(x, f)
  {
    if i > 0 {
      assert items[i := x][1..] == items[1..][i - 1 := x];
      ItemCountUpdate(items[1..], i - 1, x, f);
    } else {
      assert items[0 := x][1..] == items[1..];
    }
  }

  lemma {:induction false} ItemCountInsert(items: seq<Item>, i: nat, x: Item, f: Fiber)
    requires i <= |items|
    ensures ItemCount(items[..i] + [x] + items[i..], f) == ItemCount(items, f) + RefsOf(x, f)
  {
    assert items == items[..i] + items[i..];
    ItemCountAppend(items[..i], items[i..], f);
    ItemCountAppend(items[..i] + [x], items[i..], f);
    ItemCountAppend(items[..i], [x], f);
  }

  lemma {:induction false} ItemCountHas(items: seq<Item>, i: nat, f: Fiber)
    requires i < |items|
    ensures RefsOf(items[i], f) <= ItemCount(items, f)
  {
    if i > 0 {
      ItemCountHas(items[1..], i - 1, f);
    }
  }

  lemma {:induction false} QueueCountAppend(a: seq<Task>, b: seq<Task>, f: Fiber)
    ensures QueueCount(a + b, f) == QueueCount(a, f) + QueueCount(b, f)
  {
    if a == [] {
      assert a + b == b;
    } else {
      assert (a + b)[0] == a[0] && (a + b)[1..] == a[1..] + b;
      QueueCountAppend(a[1..], b, f);
    }
  }

  lemma {:induction false} QueueCountPush(q: seq<Task>, t: Task, f: Fiber)
    ensures QueueCount(q + [t], f) == QueueCount(q, f) + RefsOf(t.item, f)
  {
    QueueCountAppend(q, [t], f);
  }

  lemma {:induction false} QueueCountRemove(q: seq<Task>, n: nat, f: Fiber)
    requires n < |q|
    ensures QueueCount(q[..n] + q[n + 1..], f) + RefsOf(q[n].item, f) == QueueCount(q, f)
  {
    assert q == q[..n] + ([q[n]] + q[n + 1..]);
    QueueCountAppend(q[..n], [q[n]] + q[n + 1..], f);
    QueueCountAppend([q[n]], q[n + 1..], f);
    QueueCountAppend(q[..n], q[n + 1..], f);
  }

  lemma {:induction false} QueueCountTasks(items: seq<Item>, f: Fiber)
    ensures QueueCount(Tasks(items), f) == ItemCount(items, f)
  {
    if items != [] {
      assert Tasks(items)[1..] == Tasks(items[1..]);
      QueueCountTasks(items[1..], f);
    }
  }

  lemma {:induction false} QueueCountHas(q: seq<Task>, i: nat, f: Fiber)
    requires i < |q|
    ensures RefsOf(q[i].item, f) <= QueueCount(q, f)
  {
    if i > 0 {
      QueueCountHas(q[1..], i - 1, f);
    }
  }

  lemma {:induction false} TotalUpdate(k: Kind, ws: seq<Worker>, w: nat, x: Worker, f: Fiber)
    requires w < |ws|
    ensures Total(k, ws[w := x], f) + Measure(k, ws[w], f) == Total(k, ws, f) + Measure(k, x, f)
  {
    hide Measure;
    if w > 0 {
      assert ws[w := x][1..] == ws[1..][w - 1 := x];
      TotalUpdate(k, ws[1..], w - 1, x, f);
    } else {
      assert ws[0 := x][1..] == ws[1..];
    }
  }

  lemma {:induction false} TotalHas(k: Kind, ws: seq<Worker>, i: nat, f: Fiber)
    requires i < |ws|
    ensures Measure(k, ws[i], f) <= Total(k, ws, f)
  {
    hide Measure;
    if i > 0 {
      TotalHas(k, ws[1..], i - 1, f);
    }
  }

  lemma {:induction false} TotalHasTwo(k: Kind, ws: seq<Worker>, i: nat, j: nat, f: Fiber)
    requires i < |ws| && j < |ws| && i != j
    ensures Measure(k, ws[i], f) + Measure(k, ws[j], f) <= Total(k, ws, f)
  {
    hide Measure;
    if i == 0 {
      TotalHas(k, ws[1..], j - 1, f);
    } else if j == 0 {
      TotalHas(k, ws[1..], i - 1, f);
    } else {
      TotalHasTwo(k, ws[1..], i - 1, j - 1, f);
    }
  }

  // The invariant.

  /** Every fiber has at most one handle or owner, and each handle made is used, dropped or still there. */
  ghost predicate Tokens(s: State) {
    forall f: Fiber :: TokenOf(s, f)
  }

  predicate TokenOf(s: State, f: Fiber) {
    && Handles(s, f) + Total(OWN, s.workers, f) <= 1
    && (f !in s.fibers ==> Handles(s, f) + Total(OWN, s.workers, f) == 0)
    && s.granted[f] == s.resumed[f] + s.dropped[f] + Handles(s, f)
  }

  /** A fiber is EXEC exactly while one worker runs it. */
  ghost predicate Runners(s: State) {
    forall f: Fiber :: Total(RUNS, s.workers, f) == Bit(f in s.fibers && s.fibers[f] == EXEC)
  }

  /** The fiber is waiting, or about to. */
  predicate Waits(fibers: map<Fiber, FState>, f: Fiber) {
    f in fibers && (fibers[f] == EXEC || fibers[f] == HOLD)
  }

  predicate TaskOk(fibers: map<Fiber, FState>, t: Task) {
    match t.item
    case Vacant => false
    case Plain => true
    case Resume(f) =>
      && f in fibers && fibers[f] != TERM && fibers[f] != EXCEPT
      && (t.pin.Some? ==> fibers[f] != READY)
    case Wake(f) => Waits(fibers, f)
  }

  predicate SlotOk(fibers: map<Fiber, FState>, item: Item) {
    !item.Wake? && (item.Resume? ==> Waits(fibers, item.fiber))
  }

  predicate TimerOk(fibers: map<Fiber, FState>, item: Item) {
    item == Plain || (item.Wake? && Waits(fibers, item.fiber))
  }

  predicate WorkerOk(fibers: map<Fiber, FState>, worker: Worker) {
    && (match worker.pc
        case Picked(t) => TaskOk(fibers, t) && (t.item.Resume? ==> fibers[t.item.fiber] != EXEC)
        case Run(f, cb, wake, bound) =>
          && f in fibers && fibers[f] == EXEC && (cb ==> worker.cbFiber == Some(f))
          && (wake.Some? ==> Waits(fibers, wake.value) && !bound)
        case Returned(f, cb, ready) =>
          && f in fibers && (if ready then fibers[f] == READY else fibers[f] == TERM || fibers[f] == EXCEPT)
          && (cb ==> worker.cbFiber == Some(f))
        case Requeue(f, cb) => f in fibers && fibers[f] == READY && (cb ==> worker.cbFiber == Some(f))
        case Idle(held) => forall i :: 0 <= i < |held| ==> TimerOk(fibers, held[i])
        case _ => true)
    && (worker.cbFiber.Some? && !UsesCallbackFiber(worker.pc) ==>
          worker.cbFiber.value in fibers && fibers[worker.cbFiber.value] == INIT)
  }

  predicate QueueOk(fibers: map<Fiber, FState>, q: seq<Task>) {
    forall i :: 0 <= i < |q| ==> TaskOk(fibers, q[i])
  }

  predicate SlotsOk(fibers: map<Fiber, FState>, items: seq<Item>) {
    forall i :: 0 <= i < |items| ==> SlotOk(fibers, items[i])
  }

  predicate TimersOk(fibers: map<Fiber, FState>, items: seq<Item>) {
    forall i :: 0 <= i < |items| ==> TimerOk(fibers, items[i])
  }

  predicate WorkersOk(fibers: map<Fiber, FState>, ws: seq<Worker>) {
    forall w :: 0 <= w < |ws| ==> WorkerOk(fibers, ws[w])
  }

  predicate Places(s: State) {
    && QueueOk(s.fibers, s.queue) && SlotsOk(s.fibers, s.slots)
    && TimersOk(s.fibers, s.timers) && WorkersOk(s.fibers, s.workers)
  }

  /** A fiber that yielded to go on is never lost. */
  ghost predicate Kept(s: State) {
    forall f :: f in s.fibers && s.fibers[f] == READY ==> Handles(s, f) >= 1
  }

  /** The worker has not made up its mind to leave. */
  predicate Staying(worker: Worker) {
    !worker.pc.Left? && !worker.pc.Skipped? && !(worker.pc.Nothing? && worker.idleDone)
  }

  predicate Unpinned(q: seq<Task>) {
    exists i :: 0 <= i < |q| && q[i].pin == None
  }

  /** As long as a task that any worker may take is queued, some worker will look at the queue again. */
  ghost predicate Watched(s: State) {
    && s.workers != []
    && (Unpinned(s.queue) ==> exists w :: 0 <= w < |s.workers| && Staying(s.workers[w]))
    && (!s.stopped ==> forall w :: 0 <= w < |s.workers| ==> Staying(s.workers[w]) && !s.workers[w].idleDone)
  }

  ghost predicate Inv(s: State) {
    && !s.failed && Tokens(s) && Runners(s) && Places(s) && Kept(s) && Watched(s)
    && s.active == Total(BUSY, s.workers, 0)
  }
}
