/**
 * The event registrations of iomanager.cpp as a state machine: which waiter sits in which slot, what
 * has been handed to a scheduler, and the time-outs of the blocking calls of hook.cpp.
 */
module EventTable {
  datatype Event = READ | WRITE

  datatype Slot = Slot(fd: nat, event: Event)

  datatype Handle = OfFiber(fiber: nat) | OfCallback(callback: nat)

  /** One registration: its number, and what to schedule where. */
  datatype Waiter = Waiter(reg: nat, scheduler: nat, handle: Handle)

  /**
   * The timer_info of one blocking call; it is live until the call returns. `due`: the callback of a
   * time-out has set the mark and has still to cancel the event.
   */
  datatype Call = Call(slot: Slot, cancelled: bool, due: bool, live: bool)

  datatype Table = Table(
    slots: map<Slot, Waiter>,  // what the event contexts hold
    handed: seq<Waiter>,       // what was passed to schedule, in order
    removed: set<nat>,         // registrations taken out by delEvent
    next: nat,                 // registrations made so far
    calls: map<nat, Call>)

  const EMPTY_TABLE: Table := Table(map[], [], {}, 0, map[])

  /** `fail` is what epoll_ctl does on the call, for a reason outside this program. */
  datatype Action =
    | Add(slot: Slot, scheduler: nat, handle: Handle, fail: bool)
    | Del(slot: Slot, fail: bool)
    | Cancel(slot: Slot, fail: bool)
    | CancelAll(fd: nat, fail: bool)
    | Ready(fd: nat, bits: set<Event>, hangup: bool, fail: bool)
    | Begin(call: nat, slot: Slot)
    | Timeout(call: nat)
    | Strike(call: nat, fail: bool)
    | End(call: nat)

  /** What a report of epoll_wait counts as: an error or hang-up stands for both directions. */
  function Real(bits: set<Event>, hangup: bool): set<Event> {
    if hangup then {READ, WRITE} else bits
  }

  /**
   * When dispatch reaches a failing assertion: some reported direction is registered and some is
   * not, and the kernel accepted the new interest mask.
   */
  predicate Aborts(t: Table, fd: nat, bits: set<Event>, hangup: bool, fail: bool) {
    var hit := Real(bits, hangup);
    && !fail
    && (exists e :: e in hit && Slot(fd, e) in t.slots)
    && (exists e :: e in hit && Slot(fd, e) !in t.slots)
  }

  predicate Enabled(t: Table, a: Action) {
    match a
    case Add(slot, _, _, _) => slot !in t.slots
    case Ready(fd, bits, hangup, fail) => !Aborts(t, fd, bits, hangup, fail)
    case Begin(call, _) => call !in t.calls
    case Timeout(call) => call in t.calls
    case Strike(call, _) => call in t.calls && t.calls[call].due
    case End(call) => call in t.calls
    case _ => true
  }

  /** triggerEvent, where there is something to trigger. */
  function Trigger(t: Table, slot: Slot): Table {
    if slot in t.slots then t.(slots := t.slots - {slot}, handed := t.handed + [t.slots[slot]]) else t
  }

  function TriggerAll(t: Table, fd: nat, hit: set<Event>): Table {
    var t1 := if READ in hit then Trigger(t, Slot(fd, READ)) else t;
    if WRITE in hit then Trigger(t1, Slot(fd, WRITE)) else t1
  }

  function Drop(t: Table, slot: Slot): Table {
    if slot in t.slots then t.(slots := t.slots - {slot}, removed := t.removed + {t.slots[slot].reg}) else t
  }

  function Register(t: Table, slot: Slot, scheduler: nat, handle: Handle): Table {
    t.(slots := t.slots[slot := Waiter(t.next, scheduler, handle)], next := t.next + 1)
  }

  /** The timer callback of a blocking call sets the mark: nothing once the call returned or was timed out. */
  function Mark(c: Call): Call {
    if c.live && !c.cancelled then c.(cancelled := true, due := true) else c
  }

  /** What the callback does next, by then perhaps to another registration of the same event. */
  function CancelMarked(t: Table, call: nat, fail: bool): Table
    requires call in t.calls
  {
    var t1 := t.(calls := t.calls[call := t.calls[call].(due := false)]);
    if fail then t1 else Trigger(t1, t.calls[call].slot)
  }

  function Next(t: Table, a: Action): Table
    requires Enabled(t, a)
  {
    match a
    case Add(slot, scheduler, handle, fail) => if fail then t else Register(t, slot, scheduler, handle)
    case Del(slot, fail) => if fail then t else Drop(t, slot)
    case Cancel(slot, fail) => if fail then t else Trigger(t, slot)
    case CancelAll(fd, fail) => if fail then t else TriggerAll(t, fd, {READ, WRITE})
    case Ready(fd, bits, hangup, fail) => if fail then t else TriggerAll(t, fd, Real(bits, hangup))
    case Begin(call, slot) => t.(calls := t.calls[call := Call(slot, false, false, true)])
    case Timeout(call) => t.(calls := t.calls[call := Mark(t.calls[call])])
    case Strike(call, fail) => CancelMarked(t, call, fail)
    case End(call) => t.(calls := t.calls[call := t.calls[call].(live := false)])
  }
}
