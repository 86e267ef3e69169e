/** The blocking calls of hook.cpp. */
module Hook {
  // A call arms a timer, registers, yields, is woken and tries again. The timers and the event table
  // are the machines of TimerSpec and EventTable; what everybody else does to them between two
  // critical sections of the call is any run of theirs.

  import T = TimerSpec
  import TR = TimerRuns
  import E = EventTable
  import ER = EventRuns

  datatype Errno = OK | INTERRUPTED | AGAIN | OTHER

  /** One return of the original function. */
  datatype Sys = Sys(n: int, errno: Errno)

  /** What FdMgr knows of the descriptor. */
  datatype Fd = Untracked | Tracked(closed: bool, socket: bool, userNonblock: bool)

  /** One call, with the fiber that makes it; `timeout` is none for the all-ones value. */
  datatype Io = Io(slot: E.Slot, scheduler: nat, fiber: nat, call: nat, callback: nat, timeout: T.Option<nat>)

  datatype World = World(s: T.State, t: E.Table)

  /** What the others do in the meantime. */
  datatype Segment = Segment(timers: seq<T.Action>, events: seq<E.Action>)

  /**
   * Around one wait: the address and clock reading of the timer, what happens between arming it and
   * registering, whether epoll_ctl fails, what happens until the fiber runs again, and what happens
   * between its looking at the mark and its next call of the original function.
   */
  datatype Round = Round(address: T.Id, created: nat, gap: Segment, fail: bool, wait: Segment, after: Segment)

  /** `Unfinished`: the script of the world ends, or is not possible, before the call returns. */
  datatype Result = Returned(n: int) | TimedOut | Refused | BadFd | Aborted | Unfinished

  /** `calls` counts the returns passed over, `regs` are the registrations that were waited for. */
  datatype Outcome = Outcome(r: Result, calls: nat, w: World, regs: seq<nat>)

  predicate Interrupted(s: Sys) {
    s.n == -1 && s.errno == INTERRUPTED
  }

  predicate WouldBlock(s: Sys) {
    s.n == -1 && s.errno == AGAIN
  }

  /** The descriptors for which the call is passed on as it is. */
  predicate PassedOn(hooked: bool, fd: Fd) {
    !hooked || fd.Untracked? || (!fd.closed && (!fd.socket || fd.userNonblock))
  }

  // One wait, as a function of the world.

  /** The world does not end the call. */
  predicate LeavesCall(run: seq<E.Action>, call: nat) {
    forall i :: 0 <= i < |run| ==> !(run[i].End? && run[i].call == call)
  }

  predicate TimesOut(run: seq<E.Action>, call: nat) {
    exists i :: 0 <= i < |run| && run[i].Timeout? && run[i].call == call
  }

  /** One of these timers has been collected. */
  predicate Fired(log: seq<T.Fire>, ids: set<T.Id>) {
    exists k :: 0 <= k < |log| && log[k].id in ids
  }

  /** The callback of a time-out runs only after one of the call's timers has been collected. */
  function Advance(io: Io, armed: set<T.Id>, g: Segment, w: World): (r: T.Option<World>)
    requires T.Inv(w.s)
    ensures r.Some? ==> T.Inv(r.value.s)
  {
    if && TR.Legal(w.s, g.timers) && ER.Legal(w.t, g.events) && LeavesCall(g.events, io.call)
       && (TimesOut(g.events, io.call) ==> Fired(TR.Run(w.s, g.timers).log, armed))
    then T.Some(World(TR.Run(w.s, g.timers), ER.Run(w.t, g.events)))
    else T.None
  }

  function TimerOf(io: Io, round: Round): T.Action
    requires io.timeout.Some?
  {
    T.Add(round.address, io.timeout.value, io.callback, false, round.created)
  }

  /** addConditionTimer, if there is a time-out; none if the script's timer cannot be made. */
  function Arm(io: Io, round: Round, s: T.State): (r: T.Option<T.State>)
    requires T.Inv(s)
    ensures r.Some? ==> T.Inv(r.value)
  {
    if io.timeout.None? then T.Some(s)
    else if T.Enabled(s, TimerOf(io, round)) then
      TR.StepKeepsInv(s, TimerOf(io, round));
      T.Some(T.Next(s, TimerOf(io, round)))
    else T.None
  }

  /** timer->cancel(), if there is a timer. */
  function Disarm(io: Io, round: Round, s: T.State): (s': T.State)
    requires T.Inv(s)
    ensures T.Inv(s')
  {
    if io.timeout.Some? && round.address in s.recs then
      TR.StepKeepsInv(s, T.Cancel(round.address));
      T.Next(s, T.Cancel(round.address))
    else s
  }

  function Registration(io: Io, t: E.Table): E.Action {
    E.Add(io.slot, io.scheduler, E.OfFiber(io.fiber), false)
  }

  /** The waiter that the registration made on `t` is for. */
  function WaiterOn(io: Io, t: E.Table): E.Waiter {
    E.Waiter(t.next, io.scheduler, E.OfFiber(io.fiber))
  }

  predicate MarkedIn(t: E.Table, call: nat) {
    call in t.calls && t.calls[call].cancelled
  }

  /**
   * `Impossible`: the script cannot be played. `Hangs`: it never wakes the fiber. `Marked`: the fiber is
   * woken, and the call has timed out.
   */
  datatype Turn =
    | Impossible
    | Hangs(w: World)
    | Occupied(w: World)
    | Denied(w: World)
    | Marked(w: World, reg: nat)
    | Retry(w: World, reg: nat)

  /** Up to the registration. */
  function Armed(io: Io, armed: set<T.Id>, round: Round, w: World): (r: T.Option<World>)
    requires T.Inv(w.s)
    ensures r.Some? ==> T.Inv(r.value.s)
  {
    match Arm(io, round, w.s)
    case None => T.None
    case Some(s1) => Advance(io, armed, round.gap, World(s1, w.t))
  }

  /** From the registration on. */
  function Slept(io: Io, armed: set<T.Id>, round: Round, w: World): (r: T.Option<World>)
    requires T.Inv(w.s) && io.slot !in w.t.slots
    ensures r.Some? ==> T.Inv(r.value.s)
  {
    Advance(io, armed, round.wait, World(w.s, E.Next(w.t, Registration(io, w.t))))
  }

  function TakeTurn(io: Io, armed: set<T.Id>, round: Round, w: World): (r: Turn)
    requires T.Inv(w.s)
    ensures !r.Impossible? ==> T.Inv(r.w.s)
  {
    match Armed(io, armed, round, w)
    case None => Impossible
    case Some(w2) =>
      if io.slot in w2.t.slots then Occupied(w2)
      else if round.fail then Denied(World(Disarm(io, round, w2.s), w2.t))
      else
        match Slept(io, armed, round, w2)
        case None => Impossible
        case Some(w4) =>
          var w5 := World(Disarm(io, round, w4.s), w4.t);
          if WaiterOn(io, w2.t) !in w4.t.handed then Hangs(w4)
          else if MarkedIn(w5.t, io.call) then Marked(w5, w2.t.next)
          else
            match Advance(io, armed, round.after, w5)
            case None => Impossible
            case Some(w6) => Retry(w6, w2.t.next)
  }

  /** The fiber registers and yields, and its registration is not handed over. */
  predicate NeverWoken(io: Io, armed: set<T.Id>, round: Round, w: World)
    requires T.Inv(w.s)
  {
    var w2 := Armed(io, armed, round, w);
    && w2.Some? && io.slot !in w2.value.t.slots && !round.fail
    && var w4 := Slept(io, armed, round, w2.value);
       w4.Some? && WaiterOn(io, w2.value.t) !in w4.value.t.handed
  }

  /**
   * The timer of the script can be made, the others can move as it says, and if the fiber is woken and
   * not timed out they can move on.
   */
  predicate Playable(io: Io, armed: set<T.Id>, round: Round, w: World)
    requires T.Inv(w.s)
  {
    var w2 := Armed(io, armed, round, w);
    && w2.Some?
    && (io.slot !in w2.value.t.slots && !round.fail ==>
          var w4 := Slept(io, armed, round, w2.value);
          && w4.Some?
          && (WaiterOn(io, w2.value.t) in w4.value.t.handed && !MarkedIn(w4.value.t, io.call) ==>
                Advance(io, armed, round.after, World(Disarm(io, round, w4.value.s), w4.value.t)).Some?))
  }

  // The whole call.

  /** The addresses of the timers made for the first `n` waits. */
  function Made(timeout: T.Option<nat>, world: seq<Round>, n: nat): set<T.Id>
    requires n <= |world|
  {
    if timeout.None? || n == 0 then {} else Made(timeout, world, n - 1) + {world[n - 1].address}
  }

  /** How many of the first `n` returns would block: each of them is followed by a wait. */
  function Blocked(sys: seq<Sys>, n: nat): nat
    requires n <= |sys|
  {
    if n == 0 then 0 else Blocked(sys, n - 1) + if WouldBlock(sys[n - 1]) then 1 else 0
  }

  datatype Place = Place(calls: nat, waits: nat, w: World, regs: seq<nat>)

  predicate Within(sys: seq<Sys>, world: seq<Round>, p: Place) {
    p.calls <= |sys| && p.waits <= |world| && T.Inv(p.w.s)
  }

  function TurnAt(io: Io, world: seq<Round>, p: Place): (r: Turn)
    requires p.waits < |world| && T.Inv(p.w.s)
    ensures !r.Impossible? ==> T.Inv(r.w.s)
  {
    TakeTurn(io, Made(io.timeout, world, p.waits + 1), world[p.waits], p.w)
  }

  /** Where the call is when it makes up its mind: the retries up to there. */
  function Last(io: Io, sys: seq<Sys>, world: seq<Round>, p: Place): (q: Place)
    requires Within(sys, world, p)
    ensures Within(sys, world, q)
    decreases |sys| - p.calls
  {
    if p.calls == |sys| then p
    else if Interrupted(sys[p.calls]) then Last(io, sys, world, p.(calls := p.calls + 1))
    else if !WouldBlock(sys[p.calls]) || p.waits == |world| then p
    else
      var turn := TurnAt(io, world, p);
      if turn.Retry?
      then Last(io, sys, world, Place(p.calls + 1, p.waits + 1, turn.w, p.regs + [turn.reg]))
      else p
  }

  /** The call returns: its timer_info goes. */
  function Left(io: Io, w: World): World {
    if io.call in w.t.calls then World(w.s, E.Next(w.t, E.End(io.call))) else w
  }

  /** What it answers there. */
  function Answer(io: Io, sys: seq<Sys>, world: seq<Round>, p: Place): Outcome
    requires Within(sys, world, p)
  {
    if p.calls == |sys| then Outcome(Unfinished, p.calls, p.w, p.regs)
    else if !WouldBlock(sys[p.calls]) then Outcome(Returned(sys[p.calls].n), p.calls, Left(io, p.w), p.regs)
    else if p.waits == |world| then Outcome(Unfinished, p.calls, p.w, p.regs)
    else
      match TurnAt(io, world, p)
      case Impossible => Outcome(Unfinished, p.calls, p.w, p.regs)
      case Hangs(_) => Outcome(Unfinished, p.calls, p.w, p.regs)
      case Occupied(w) => Outcome(Aborted, p.calls, w, p.regs)
      case Denied(w) => Outcome(Refused, p.calls + 1, Left(io, w), p.regs)
      case Marked(w, reg) => Outcome(TimedOut, p.calls + 1, Left(io, w), p.regs + [reg])
      case Retry(_, _) => Outcome(Unfinished, p.calls, p.w, p.regs)  // not at the last place
  }

  function Start(io: Io, w: World): Place
    requires io.call !in w.t.calls
  {
    Place(0, 0, World(w.s, E.Next(w.t, E.Begin(io.call, io.slot))), [])
  }

  /** A call that is not passed on, on an open descriptor. */
  function Outcomes(io: Io, sys: seq<Sys>, world: seq<Round>, w: World): Outcome
    requires T.Inv(w.s) && io.call !in w.t.calls
  {
    Answer(io, sys, world, Last(io, sys, world, Start(io, w)))
  }

  /** do_io, statement by statement, does what the functions above say. */
  method DoIo(hooked: bool, fd: Fd, io: Io, sys: seq<Sys>, world: seq<Round>, w0: World) returns (o: Outcome)
    requires T.Inv(w0.s) && io.call !in w0.t.calls
    ensures PassedOn(hooked, fd) ==>
              o == Outcome(if sys == [] then Unfinished else Returned(sys[0].n), 0, w0, [])
    ensures !PassedOn(hooked, fd) && fd.closed ==> o == Outcome(BadFd, 0, w0, [])
    ensures !PassedOn(hooked, fd) && !fd.closed ==> o == Outcomes(io, sys, world, w0)
  {
    hide T.Inv, T.Next, T.Enabled, E.Next, Advance, Made;
    if PassedOn(hooked, fd) {
      return Outcome(if sys == [] then Unfinished else Returned(sys[0].n), 0, w0, []);
    }
    if fd.closed {
      return Outcome(BadFd, 0, w0, []);
    }
    var calls, k, w, regs := 0, 0, Start(io, w0).w, [];
    while true
      invariant Within(sys, world, Place(calls, k, w, regs))
      invariant Last(io, sys, world, Start(io, w0)) == Last(io, sys, world, Place(calls, k, w, regs))
      decreases |sys| - calls
    {
      while calls < |sys| && Interrupted(sys[calls])
        invariant Within(sys, world, Place(calls, k, w, regs))
        invariant Last(io, sys, world, Start(io, w0)) == Last(io, sys, world, Place(calls, k, w, regs))
      {
        calls := calls + 1;
      }
      if calls == |sys| {
        return Outcome(Unfinished, calls, w, regs);
      }
      if !WouldBlock(sys[calls]) {
        return Outcome(Returned(sys[calls].n), calls, Left(io, w), regs);
      }
      if k == |world| {
        return Outcome(Unfinished, calls, w, regs);
      }
      var round, armed := world[k], Made(io.timeout, world, k + 1);
      ghost var turn := TurnAt(io, world, Place(calls, k, w, regs));
      var s1 := Arm(io, round, w.s);
      if s1.None? {
        return Outcome(Unfinished, calls, w, regs);
      }
      var w2 := Advance(io, armed, round.gap, World(s1.value, w.t));
      if w2.None? {
        return Outcome(Unfinished, calls, w, regs);
      }
      if io.slot in w2.value.t.slots {
        return Outcome(Aborted, calls, w2.value, regs);
      }
      if round.fail {
        return Outcome(Refused, calls + 1, Left(io, World(Disarm(io, round, w2.value.s), w2.value.t)), regs);
      }
      var t3 := E.Next(w2.value.t, Registration(io, w2.value.t));
      var w4 := Advance(io, armed, round.wait, World(w2.value.s, t3));
      if w4.None? || WaiterOn(io, w2.value.t) !in w4.value.t.handed {
        return Outcome(Unfinished, calls, w, regs);
      }
      var w5 := World(Disarm(io, round, w4.value.s), w4.value.t);
      if MarkedIn(w5.t, io.call) {
        return Outcome(TimedOut, calls + 1, Left(io, w5), regs + [w2.value.t.next]);
      }
      var w6 := Advance(io, armed, round.after, w5);
      if w6.None? {
        return Outcome(Unfinished, calls, w, regs);
      }
      assert turn == Retry(w6.value, w2.value.t.next);
      calls, k, w, regs := calls + 1, k + 1, w6.value, regs + [w2.value.t.next];
    }
  }

  // What every call keeps, whatever the world does.

  /** The waiter of a registration, once handed over, wakes this fiber. */
  ghost predicate Woke(io: Io, t: E.Table, reg: nat) {
    exists k :: 0 <= k < |t.handed| && t.handed[k] == E.Waiter(reg, io.scheduler, E.OfFiber(io.fiber))
  }

  /** Registrations made one after the other, every one of them handed over for the fiber. */
  ghost predicate WokeInTurn(io: Io, t: E.Table, regs: seq<nat>) {
    && (forall i :: 0 <= i < |regs| ==> regs[i] < t.next && Woke(io, t, regs[i]))
    && (forall i, j :: 0 <= i < j < |regs| ==> regs[i] < regs[j])
  }

  /** Timers that the call has made, all of them without a callback now. */
  ghost predicate Spent(s: T.State, made: set<T.Id>) {
    forall id :: id in made ==> id in s.recs && s.recs[id].cb.None?
  }

  /** In the middle of a call. */
  ghost predicate Underway(io: Io, w: World, made: set<T.Id>, armed: set<T.Id>, regs: seq<nat>) {
    && T.Inv(w.s) && ER.Inv(w.t) && io.call in w.t.calls && w.t.calls[io.call].live
    && Spent(w.s, made) && WokeInTurn(io, w.t, regs)
    && (MarkedIn(w.t, io.call) ==> Fired(w.s.log, armed))
  }

  lemma {:induction false} CallStays(t: E.Table, run: seq<E.Action>, call: nat)
    requires ER.Legal(t, run) && LeavesCall(run, call) && call in t.calls && t.calls[call].live
    ensures var t' := ER.Run(t, run); call in t'.calls && t'.calls[call].live
    decreases |run|
  {
    if run != [] {
      assert !(run[0].End? && run[0].call == call);
      CallStays(E.Next(t, run[0]), run[1..], call);
    }
  }

  /** Nothing but the callback of one of its timers marks a call as timed out. */
  lemma {:induction false} MarkedByTimeout(t: E.Table, run: seq<E.Action>, call: nat)
    requires ER.Legal(t, run) && call in t.calls && !t.calls[call].cancelled
    ensures MarkedIn(ER.Run(t, run), call) ==> TimesOut(run, call)
    decreases |run|
  {
    if run != [] && !(run[0].Timeout? && run[0].call == call) {
      MarkedByTimeout(E.Next(t, run[0]), run[1..], call);
      if TimesOut(run[1..], call) {
        var i :| 0 <= i < |run[1..]| && run[1..][i].Timeout? && run[1..][i].call == call;
        assert run[i + 1].Timeout?;
      }
    }
  }

  lemma {:induction false} InTurnAfter(io: Io, t: E.Table, t': E.Table, regs: seq<nat>)
    requires WokeInTurn(io, t, regs) && t.handed <= t'.handed && t.next <= t'.next
    ensures WokeInTurn(io, t', regs)
  {
    forall i | 0 <= i < |regs| ensures Woke(io, t', regs[i]) {
      var k :| 0 <= k < |t.handed| && t.handed[k] == E.Waiter(regs[i], io.scheduler, E.OfFiber(io.fiber));
      assert t'.handed[k] == t.handed[k];
    }
  }

  lemma {:induction false} FiredStays(log: seq<T.Fire>, log': seq<T.Fire>, ids: set<T.Id>)
    requires log <= log' && Fired(log, ids)
    ensures Fired(log', ids)
  {
    var k :| 0 <= k < |log| && log[k].id in ids;
    assert log'[k] == log[k];
  }

  lemma {:induction false} SpentAfter(s: T.State, run: seq<T.Action>, made: set<T.Id>)
    requires T.Inv(s) && TR.Legal(s, run) && Spent(s, made)
    ensures Spent(TR.Run(s, run), made)
  {
    forall id | id in made ensures var s' := TR.Run(s, run); id in s'.recs && s'.recs[id].cb.None? {
      TR.DisarmedStays(s, run, id);
    }
  }

  lemma {:induction false} KnownAfter(s: T.State, run: seq<T.Action>, id: T.Id)
    requires T.Inv(s) && TR.Legal(s, run) && id in s.recs
    ensures id in TR.Run(s, run).recs
    decreases |run|
  {
    if run != [] {
      TR.StepKeepsInv(s, run[0]);
      TR.StepOnRecord(s, run[0], id);
      KnownAfter(T.Next(s, run[0]), run[1..], id);
    }
  }

  /** Any run of timers and event table keeps what the call relies on. */
  lemma {:induction false} AdvanceKeeps(io: Io, made: set<T.Id>, armed: set<T.Id>, g: Segment, w: World, regs: seq<nat>)
    requires Underway(io, w, made, armed, regs) && Advance(io, armed, g, w).Some?
    ensures var w' := Advance(io, armed, g, w).value;
            && Underway(io, w', made, armed, regs) && w.t.next <= w'.t.next && w.t.handed <= w'.t.handed
            && w.s.recs.Keys <= w'.s.recs.Keys
  {
    hide T.Inv, ER.Inv, TR.Run, ER.Run, TR.Legal, ER.Legal, Spent, WokeInTurn, Fired, TimesOut, LeavesCall;
    var w' := Advance(io, armed, g, w).value;
    ER.RunKeepsInv(w.t, g.events);
    ER.HistoryGrows(w.t, g.events);
    CallStays(w.t, g.events, io.call);
    SpentAfter(w.s, g.timers, made);
    InTurnAfter(io, w.t, w'.t, regs);
    TR.LogGrows(w.s, g.timers);
    forall id | id in w.s.recs ensures id in w'.s.recs {
      KnownAfter(w.s, g.timers, id);
    }
    if MarkedIn(w.t, io.call) {
      FiredStays(w.s.log, w'.s.log, armed);
    } else {
      MarkedByTimeout(w.t, g.events, io.call);
    }
  }

  lemma {:induction false} ArmKeeps(io: Io, made: set<T.Id>, round: Round, s: T.State)
    requires T.Inv(s) && Spent(s, made) && Arm(io, round, s).Some?
    ensures var s' := Arm(io, round, s).value;
            && Spent(s', made) && s'.log == s.log && (io.timeout.Some? ==> round.address in s'.recs)
  {
    if io.timeout.Some? {
      SpentStep(s, TimerOf(io, round), made);
    }
  }

  lemma {:induction false} SpentStep(s: T.State, a: T.Action, made: set<T.Id>)
    requires T.Inv(s) && T.Enabled(s, a) && Spent(s, made)
    ensures Spent(T.Next(s, a), made)
  {
    hide T.Next, T.Inv;
    forall id | id in made ensures id in T.Next(s, a).recs && T.Next(s, a).recs[id].cb.None? {
      TR.StepOnRecord(s, a, id);
    }
  }

  /** After the cancel the timer has no callback, whether it had fired or not. */
  lemma {:induction false} DisarmSpends(io: Io, made: set<T.Id>, round: Round, s: T.State)
    requires T.Inv(s) && Spent(s, made) && (io.timeout.Some? ==> round.address in s.recs)
    ensures Spent(Disarm(io, round, s), made + if io.timeout.Some? then {round.address} else {})
    ensures Disarm(io, round, s).log == s.log
  {
    assert made + {} == made;
    if io.timeout.Some? {
      SpentStep(s, T.Cancel(round.address), made);
      TR.StepOnRecord(s, T.Cancel(round.address), round.address);
    }
  }

  /** The registration itself. */
  lemma {:induction false} RegisterKeeps(io: Io, w: World, made: set<T.Id>, armed: set<T.Id>, regs: seq<nat>)
    requires Underway(io, w, made, armed, regs) && io.slot !in w.t.slots
    ensures var t3 := E.Next(w.t, Registration(io, w.t));
            && Underway(io, World(w.s, t3), made, armed, regs)
            && t3.next == w.t.next + 1 && io.slot in t3.slots && t3.slots[io.slot] == WaiterOn(io, w.t)
            && t3.calls == w.t.calls
  {
    hide T.Inv, ER.Inv, Spent, WokeInTurn, Fired;
    ER.StepKeepsInv(w.t, Registration(io, w.t));
    InTurnAfter(io, w.t, E.Next(w.t, Registration(io, w.t)), regs);
  }

  lemma {:induction false} OneMore(io: Io, t: E.Table, regs: seq<nat>, t2: E.Table)
    requires WokeInTurn(io, t, regs) && t2.next < t.next && WaiterOn(io, t2) in t.handed
    requires forall i :: 0 <= i < |regs| ==> regs[i] < t2.next
    ensures WokeInTurn(io, t, regs + [t2.next])
  {
    var k :| 0 <= k < |t.handed| && t.handed[k] == WaiterOn(io, t2);
    assert Woke(io, t, t2.next);
  }

  lemma {:induction false} FiredMore(log: seq<T.Fire>, ids: set<T.Id>, more: set<T.Id>)
    requires ids <= more && Fired(log, ids)
    ensures Fired(log, more)
  {
  }

  /** Up to the registration. */
  lemma {:induction false} GapKeeps(io: Io, made: set<T.Id>, armed: set<T.Id>, round: Round, w: World, regs: seq<nat>)
    requires Underway(io, w, made, made, regs) && made <= armed && Arm(io, round, w.s).Some?
    ensures var w1 := World(Arm(io, round, w.s).value, w.t);
            Underway(io, w1, made, armed, regs) && (io.timeout.Some? ==> round.address in w1.s.recs)
  {
    hide T.Inv, ER.Inv, Spent, WokeInTurn, Fired, Arm;
    ArmKeeps(io, made, round, w.s);
    if MarkedIn(w.t, io.call) {
      FiredMore(w.s.log, made, armed);
    }
  }

  /** From being woken on. */
  lemma {:induction false} WokenKeeps(io: Io, made: set<T.Id>, armed: set<T.Id>, round: Round, w: World,
                                      regs: seq<nat>, t2: E.Table)
    requires Underway(io, w, made, armed, regs) && armed == made + if io.timeout.Some? then {round.address} else {}
    requires io.timeout.Some? ==> round.address in w.s.recs
    requires WokeInTurn(io, w.t, regs) && t2.next < w.t.next && WaiterOn(io, t2) in w.t.handed
    requires forall i :: 0 <= i < |regs| ==> regs[i] < t2.next
    ensures Underway(io, World(Disarm(io, round, w.s), w.t), armed, armed, regs + [t2.next])
  {
    hide T.Inv, ER.Inv, Spent, Fired, Disarm;
    DisarmSpends(io, made, round, w.s);
    OneMore(io, w.t, regs, t2);
  }

  /**
   * One wait. However it ends, its timer is disarmed; if it ends by being woken, its own registration
   * has been handed over for this fiber; and the call is marked only if one of its timers has fired.
   */
  lemma {:induction false} TurnKeeps(io: Io, made: set<T.Id>, round: Round, w: World, regs: seq<nat>)
    requires Underway(io, w, made, made, regs)
    ensures var armed := made + if io.timeout.Some? then {round.address} else {};
            var turn := TakeTurn(io, armed, round, w);
            && (turn.Occupied? ==> io.slot in turn.w.t.slots)
            && (turn.Denied? ==> Underway(io, turn.w, armed, armed, regs))
            && (turn.Marked? ==> Underway(io, turn.w, armed, armed, regs + [turn.reg]) && MarkedIn(turn.w.t, io.call))
            && (turn.Retry? ==> Underway(io, turn.w, armed, armed, regs + [turn.reg]))
  {
    hide T.Inv, ER.Inv, Spent, WokeInTurn, Fired, Advance, Arm, Disarm, E.Next, MarkedIn;
    var armed := made + if io.timeout.Some? then {round.address} else {};
    var s1 := Arm(io, round, w.s);
    if s1.None? {
      return;
    }
    GapKeeps(io, made, armed, round, w, regs);
    var w1 := World(s1.value, w.t);
    var w2 := Advance(io, armed, round.gap, w1);
    if w2.None? {
      return;
    }
    AdvanceKeeps(io, made, armed, round.gap, w1, regs);
    if io.slot in w2.value.t.slots {
      return;
    }
    if round.fail {
      DisarmSpends(io, made, round, w2.value.s);
      return;
    }
    RegisterKeeps(io, w2.value, made, armed, regs);
    var w3 := World(w2.value.s, E.Next(w2.value.t, Registration(io, w2.value.t)));
    var w4 := Advance(io, armed, round.wait, w3);
    if w4.None? || WaiterOn(io, w2.value.t) !in w4.value.t.handed {
      return;
    }
    AdvanceKeeps(io, made, armed, round.wait, w3, regs);
    RegsBelow(io, w2.value.t, regs);
    WokenKeeps(io, made, armed, round, w4.value, regs, w2.value.t);
    var w5 := World(Disarm(io, round, w4.value.s), w4.value.t);
    if !MarkedIn(w5.t, io.call) && Advance(io, armed, round.after, w5).Some? {
      AdvanceKeeps(io, armed, armed, round.after, w5, regs + [w2.value.t.next]);
    }
  }

  lemma {:induction false} RegsBelow(io: Io, t: E.Table, regs: seq<nat>)
    requires WokeInTurn(io, t, regs)
    ensures forall i :: 0 <= i < |regs| ==> regs[i] < t.next
  {
  }

  /** A place between two waits. */
  ghost predicate Between(io: Io, sys: seq<Sys>, world: seq<Round>, p: Place) {
    && Within(sys, world, p) && p.waits == Blocked(sys, p.calls) == |p.regs|
    && Underway(io, p.w, Made(io.timeout, world, p.waits), Made(io.timeout, world, p.waits), p.regs)
    && forall i :: 0 <= i < p.calls ==> Interrupted(sys[i]) || WouldBlock(sys[i])
  }

  lemma {:induction false} TurnAtKeeps(io: Io, sys: seq<Sys>, world: seq<Round>, p: Place)
    requires Between(io, sys, world, p) && p.waits < |world|
    ensures var turn, made := TurnAt(io, world, p), Made(io.timeout, world, p.waits + 1);
            && (turn.Occupied? ==> io.slot in turn.w.t.slots)
            && (turn.Denied? ==> Underway(io, turn.w, made, made, p.regs))
            && (turn.Marked? ==> Underway(io, turn.w, made, made, p.regs + [turn.reg]) && MarkedIn(turn.w.t, io.call))
            && (turn.Retry? ==> Underway(io, turn.w, made, made, p.regs + [turn.reg]))
  {
    hide T.Inv, TakeTurn, MarkedIn;
    TurnKeeps(io, Made(io.timeout, world, p.waits), world[p.waits], p.w, p.regs);
    assert Made(io.timeout, world, p.waits + 1)
        == Made(io.timeout, world, p.waits) + if io.timeout.Some? then {world[p.waits].address} else {};
  }

  lemma {:induction false} LastIsBetween(io: Io, sys: seq<Sys>, world: seq<Round>, p: Place)
    requires Between(io, sys, world, p)
    ensures var q := Last(io, sys, world, p);
            && Between(io, sys, world, q) && p.calls <= q.calls
            && (q.calls < |sys| ==> !Interrupted(sys[q.calls]))
            && (q.calls < |sys| && WouldBlock(sys[q.calls]) && q.waits < |world| ==> !TurnAt(io, world, q).Retry?)
    decreases |sys| - p.calls
  {
    hide T.Inv, TakeTurn;
    if p.calls == |sys| {
    } else if Interrupted(sys[p.calls]) {
      LastIsBetween(io, sys, world, p.(calls := p.calls + 1));
    } else if WouldBlock(sys[p.calls]) && p.waits < |world| {
      var turn := TurnAt(io, world, p);
      TurnAtKeeps(io, sys, world, p);
      if turn.Retry? {
        LastIsBetween(io, sys, world, Place(p.calls + 1, p.waits + 1, turn.w, p.regs + [turn.reg]));
      }
    }
  }

  /** Returning leaves nothing of the call behind but its dead record. */
  lemma {:induction false} LeftKeeps(io: Io, w: World, made: set<T.Id>, armed: set<T.Id>, regs: seq<nat>)
    requires Underway(io, w, made, armed, regs)
    ensures var w' := Left(io, w);
            && w'.s == w.s && ER.Inv(w'.t) && WokeInTurn(io, w'.t, regs)
            && (forall i :: 0 <= i < |regs| ==> !ER.Waiting(w'.t, regs[i]))
            && io.call in w'.t.calls && !w'.t.calls[io.call].live
            && (MarkedIn(w'.t, io.call) <==> MarkedIn(w.t, io.call))
  {
    hide T.Inv, ER.Inv, Woke, Spent, Fired;
    var w' := Left(io, w);
    ER.StepKeepsInv(w.t, E.End(io.call));
    InTurnAfter(io, w.t, w'.t, regs);
    forall i | 0 <= i < |regs| ensures !ER.Waiting(w'.t, regs[i]) {
      WokeIsOut(io, w'.t, regs[i]);
    }
  }

  lemma {:induction false} WokeIsOut(io: Io, t: E.Table, reg: nat)
    requires ER.Inv(t) && Woke(io, t, reg)
    ensures !ER.Waiting(t, reg)
  {
  }

  lemma {:induction false} Starts(io: Io, sys: seq<Sys>, world: seq<Round>, w: World)
    requires T.Inv(w.s) && ER.Inv(w.t) && io.call !in w.t.calls
    ensures Between(io, sys, world, Start(io, w))
  {
    hide T.Inv, ER.Inv;
    ER.StepKeepsInv(w.t, E.Begin(io.call, io.slot));
  }

  /** None of the timers made for the first `waits` waits has a callback, and each wait was ended once. */
  ghost predicate CleanedUp(io: Io, world: seq<Round>, waits: nat, o: Outcome) {
    && waits <= |world| && Spent(o.w.s, Made(io.timeout, world, waits))
    && |o.regs| == (if o.r.Refused? then waits - 1 else waits) && WokeInTurn(io, o.w.t, o.regs)
    && (forall i :: 0 <= i < |o.regs| ==> !ER.Waiting(o.w.t, o.regs[i]))
    && io.call in o.w.t.calls && !o.w.t.calls[io.call].live
    && (o.r.TimedOut? ==> MarkedIn(o.w.t, io.call))
    && (MarkedIn(o.w.t, io.call) ==> Fired(o.w.s.log, Made(io.timeout, world, waits)))
  }

  lemma {:induction false} CleansUp(io: Io, world: seq<Round>, waits: nat, w: World, armed: set<T.Id>,
                                    regs: seq<nat>, r: Result, calls: nat)
    requires waits <= |world| && Underway(io, w, Made(io.timeout, world, waits), armed, regs)
    requires armed <= Made(io.timeout, world, waits) && |regs| == if r.Refused? then waits - 1 else waits
    requires r.TimedOut? ==> MarkedIn(w.t, io.call)
    ensures CleanedUp(io, world, waits, Outcome(r, calls, Left(io, w), regs))
    ensures T.Inv(w.s) && ER.Inv(Left(io, w).t)
  {
    hide T.Inv, ER.Inv, Left, Spent, WokeInTurn, ER.Waiting;
    LeftKeeps(io, w, Made(io.timeout, world, waits), armed, regs);
  }

  ghost predicate Sound(io: Io, sys: seq<Sys>, world: seq<Round>, o: Outcome) {
    && o.calls <= |sys| && (forall i :: 0 <= i < o.calls ==> Interrupted(sys[i]) || WouldBlock(sys[i]))
    && (o.r.Returned? ==> o.calls < |sys| && o.r.n == sys[o.calls].n && !Interrupted(sys[o.calls])
                          && !WouldBlock(sys[o.calls]))
    && (o.r.Returned? || o.r.TimedOut? || o.r.Refused? ==> CleanedUp(io, world, Blocked(sys, o.calls), o))
    && (o.r.Aborted? ==> io.slot in o.w.t.slots) && !o.r.BadFd?
  }

  lemma {:induction false} AnswerIsSound(io: Io, sys: seq<Sys>, world: seq<Round>, q: Place)
    requires Between(io, sys, world, q) && (q.calls < |sys| ==> !Interrupted(sys[q.calls]))
    requires q.calls < |sys| && WouldBlock(sys[q.calls]) && q.waits < |world| ==> !TurnAt(io, world, q).Retry?
    ensures Sound(io, sys, world, Answer(io, sys, world, q))
  {
    hide T.Inv, ER.Inv, TakeTurn, TurnAt, Left, Underway, CleanedUp, Made, MarkedIn;
    if q.calls == |sys| {
    } else if !WouldBlock(sys[q.calls]) {
      CleansUp(io, world, q.waits, q.w, Made(io.timeout, world, q.waits), q.regs, Returned(sys[q.calls].n), q.calls);
    } else if q.waits < |world| {
      var turn := TurnAt(io, world, q);
      TurnAtKeeps(io, sys, world, q);
      if turn.Denied? {
        CleansUp(io, world, q.waits + 1, turn.w, Made(io.timeout, world, q.waits + 1), q.regs, Refused, q.calls + 1);
      } else if turn.Marked? {
        CleansUp(io, world, q.waits + 1, turn.w, Made(io.timeout, world, q.waits + 1), q.regs + [turn.reg],
                 TimedOut, q.calls + 1);
      }
    }
  }

  /**
   * Whatever the world does, the call passes over exactly the interrupted and would-block returns,
   * and waits once for each of the latter. When it comes back, none of its timers has a callback; each
   * wait had a registration of its own, which was handed over for this fiber and is not waiting; and
   * its record is dead, and marked only if one of its timers has fired.
   */
  lemma {:induction false} Answers(io: Io, sys: seq<Sys>, world: seq<Round>, w: World)
    requires T.Inv(w.s) && ER.Inv(w.t) && io.call !in w.t.calls
    ensures Sound(io, sys, world, Outcomes(io, sys, world, w))
  {
    hide T.Inv, ER.Inv, TurnAt, Answer, Between, Sound;
    Starts(io, sys, world, w);
    LastIsBetween(io, sys, world, Start(io, w));
    AnswerIsSound(io, sys, world, Last(io, sys, world, Start(io, w)));
  }

  /**
   * Say `round` is the script of the next wait, if the call gets to one. The call stays unfinished
   * exactly if the returns are used up, or the next of them would block and there is no such script, or
   * one that cannot be played or in which the fiber is never woken; it aborts exactly if the event is
   * registered already when it registers.
   */
  lemma {:induction false} UnfinishedIff(io: Io, sys: seq<Sys>, world: seq<Round>, w: World)
    requires T.Inv(w.s) && ER.Inv(w.t) && io.call !in w.t.calls
    ensures var o, p := Outcomes(io, sys, world, w), Last(io, sys, world, Start(io, w));
            var blocked := p.calls < |sys| && WouldBlock(sys[p.calls]);
            && (o.r.Unfinished? <==>
                  (p.calls == |sys| || (blocked && (p.waits == |world| || EndsNowhere(io, world, p)))))
            && (o.r.Aborted? <==> blocked && p.waits < |world| && FindsRegistered(io, world, p))
            && (p.calls < |sys| ==> !Interrupted(sys[p.calls]))
            && p.waits == Blocked(sys, p.calls)
  {
    Starts(io, sys, world, w);
    LastIsBetween(io, sys, world, Start(io, w));
  }

  predicate EndsNowhere(io: Io, world: seq<Round>, p: Place)
    requires p.waits < |world| && T.Inv(p.w.s)
  {
    var armed, round := Made(io.timeout, world, p.waits + 1), world[p.waits];
    !Playable(io, armed, round, p.w) || NeverWoken(io, armed, round, p.w)
  }

  predicate FindsRegistered(io: Io, world: seq<Round>, p: Place)
    requires p.waits < |world| && T.Inv(p.w.s)
  {
    var w2 := Armed(io, Made(io.timeout, world, p.waits + 1), world[p.waits], p.w);
    w2.Some? && io.slot in w2.value.t.slots
  }

  /** A call whose first return that is not an interruption does not block needs nothing of the world. */
  lemma {:induction false} NoWaitNeeded(io: Io, sys: seq<Sys>, world: seq<Round>, w: World, n: nat)
    requires T.Inv(w.s) && ER.Inv(w.t) && io.call !in w.t.calls
    requires n < |sys| && !WouldBlock(sys[n]) && !Interrupted(sys[n]) && forall i :: 0 <= i < n ==> Interrupted(sys[i])
    ensures var o := Outcomes(io, sys, world, w);
            o.r == Returned(sys[n].n) && o.calls == n && o.regs == [] && o.w.s == w.s
  {
    PassesInterrupts(io, sys, world, Start(io, w), n);
  }

  lemma {:induction false} PassesInterrupts(io: Io, sys: seq<Sys>, world: seq<Round>, p: Place, n: nat)
    requires Within(sys, world, p) && p.calls <= n < |sys| && !WouldBlock(sys[n]) && !Interrupted(sys[n])
    requires forall i :: p.calls <= i < n ==> Interrupted(sys[i])
    ensures Last(io, sys, world, p) == p.(calls := n)
    decreases n - p.calls
  {
    hide T.Inv, TurnAt, Made;
    if p.calls < n {
      PassesInterrupts(io, sys, world, p.(calls := p.calls + 1), n);
    }
  }

  // The time-out that is lost.

  /**
   * If the call has timed out by the time it registers, and nobody but its timers reaches the
   * registration, the fiber is not woken: the wait has no time-out.
   */
  lemma {:induction false} EarlyTimeoutHangs(io: Io, armed: set<T.Id>, round: Round, w: World)
    requires T.Inv(w.s) && ER.Inv(w.t)
    requires var w2 := Armed(io, armed, round, w);
             && w2.Some? && ER.TimedOut(w2.value.t, io.call) && io.slot !in w2.value.t.slots && !round.fail
             && var t3 := E.Next(w2.value.t, Registration(io, w2.value.t));
                ER.LeftToTimeout(t3, round.wait.events, io.slot, io.call)
    ensures var turn := TakeTurn(io, armed, round, w); turn.Hangs? || turn.Impossible?
  {
    hide T.Inv, ER.Inv;
    var w2 := Armed(io, armed, round, w).value;
    var t3 := E.Next(w2.t, Registration(io, w2.t));
    ER.RunKeepsInv(w.t, round.gap.events);
    ER.StepKeepsInv(w2.t, Registration(io, w2.t));
    if ER.Legal(t3, round.wait.events) {
      ER.LostTimeout(t3, round.wait.events, io.slot, io.call);
      ER.RunKeepsInv(t3, round.wait.events);
      ER.HeldIsNotHanded(ER.Run(t3, round.wait.events), io.slot);
    }
  }

  lemma {:induction false} KeepsSlot(t: E.Table, run: seq<E.Action>, call: nat)
    requires ER.Legal(t, run) && call in t.calls
    ensures call in ER.Run(t, run).calls && ER.Run(t, run).calls[call].slot == t.calls[call].slot
    decreases |run|
  {
    if run != [] {
      ER.KeepsSlot(t, run[0], call);
      KeepsSlot(E.Next(t, run[0]), run[1..], call);
    }
  }

  /**
   * With the wait left to the time-out, the call hangs exactly if the callback does not cancel its event
   * during the wait, or the kernel does not accept that.
   */
  lemma {:induction false} HangsIff(io: Io, armed: set<T.Id>, round: Round, w: World)
    requires T.Inv(w.s) && ER.Inv(w.t) && io.call in w.t.calls && w.t.calls[io.call].slot == io.slot
    requires var w2 := Armed(io, armed, round, w);
             && w2.Some? && io.slot !in w2.value.t.slots && !round.fail && Slept(io, armed, round, w2.value).Some?
             && var t3 := E.Next(w2.value.t, Registration(io, w2.value.t));
                ER.LeftToTimeout(t3, round.wait.events, io.slot, io.call)
    ensures TakeTurn(io, armed, round, w).Hangs? <==> E.Strike(io.call, false) !in round.wait.events
    ensures TakeTurn(io, armed, round, w).Hangs? <==> NeverWoken(io, armed, round, w)
  {
    hide T.Inv, ER.Inv;
    var w2 := Armed(io, armed, round, w).value;
    var t3 := E.Next(w2.t, Registration(io, w2.t));
    ER.RunKeepsInv(w.t, round.gap.events);
    KeepsSlot(w.t, round.gap.events, io.call);
    ER.StepKeepsInv(w2.t, Registration(io, w2.t));
    ER.EndedByTimeoutIff(t3, round.wait.events, io.slot, io.call);
  }

  /** Only time-outs of this call, and calls and registrations being made. */
  predicate Unhelpful(run: seq<E.Action>, call: nat) {
    forall k :: 0 <= k < |run| ==>
      run[k].Timeout? || run[k].Begin? || run[k].Add? || run[k].End? || (run[k].Strike? && run[k].call == call)
  }

  /**
   * An instance from the start, with a time-out of 0: the timer is collected before the fiber has
   * registered, and nothing else happens to the descriptor. The call never comes back.
   */
  lemma {:induction false} TimeoutBeforeRegistering(io: Io, sys: seq<Sys>, world: seq<Round>)
    requires io.timeout == T.Some(0) && sys != [] && WouldBlock(sys[0]) && world != []
    requires world[0] == Round(0, 0, EarlyGap(io), false, world[0].wait, world[0].after)
    requires Unhelpful(world[0].wait.events, io.call)
    ensures Outcomes(io, sys, world, World(T.INITIAL, E.EMPTY_TABLE)).r == Unfinished
  {
    hide T.Inv, ER.Inv, E.Next, Arm, Advance, TakeTurn;
    var p := Start(io, World(T.INITIAL, E.EMPTY_TABLE));
    assert Made(io.timeout, world, 1) == Made(io.timeout, world, 0) + {0} == {0};
    GapTimesOut(io, world[0].wait, world[0].after);
    EarlyTimeoutHangs(io, {0}, world[0], p.w);
    assert TurnAt(io, world, p).Hangs? || TurnAt(io, world, p).Impossible?;
    hide TurnAt;
    assert Last(io, sys, world, p) == p;
  }

  function EarlyGap(io: Io): Segment {
    Segment([T.Collect(0)], [E.Timeout(io.call), E.Strike(io.call, false)])
  }

  lemma {:induction false} GapTimesOut(io: Io, wait: Segment, after: Segment)
    requires io.timeout == T.Some(0)
    ensures T.Inv(T.INITIAL)
    ensures var p := Start(io, World(T.INITIAL, E.EMPTY_TABLE));
            var armed := Arm(io, Round(0, 0, EarlyGap(io), false, wait, after), p.w.s);
            && ER.Inv(p.w.t) && armed.Some?
            && var g := Advance(io, {0}, EarlyGap(io), World(armed.value, p.w.t));
               g.Some? && ER.TimedOut(g.value.t, io.call) && io.slot !in g.value.t.slots
  {
    hide T.Next, T.Inv, T.Enabled, ER.Inv, E.Next, TR.Legal, TR.Run, ER.Legal, ER.Run, TimesOut, Fired;
    ER.EmptyInv();
    ER.StepKeepsInv(E.EMPTY_TABLE, E.Begin(io.call, io.slot));
    GapTimers(io);
    GapEvents(io);
  }

  lemma {:induction false} GapTimers(io: Io)
    requires io.timeout == T.Some(0)
    ensures T.Inv(T.INITIAL) && T.Enabled(T.INITIAL, T.Add(0, 0, io.callback, false, 0))
    ensures var s1 := T.Next(T.INITIAL, T.Add(0, 0, io.callback, false, 0));
            T.Inv(s1) && TR.Legal(s1, [T.Collect(0)]) && Fired(TR.Run(s1, [T.Collect(0)]).log, {0})
  {
    TR.StepKeepsInv(T.INITIAL, T.Add(0, 0, io.callback, false, 0));
    var s1 := T.Next(T.INITIAL, T.Add(0, 0, io.callback, false, 0));
    TR.CollectIsExact(s1, 0);
    assert T.Armed(s1, 0) && s1.recs[0].next <= 0;
    assert Fired(T.Next(s1, T.Collect(0)).log, {0});
    hide T.Next;
    assert [T.Collect(0)][1..] == [];
  }

  lemma {:induction false} GapEvents(io: Io)
    ensures var t, run := E.Next(E.EMPTY_TABLE, E.Begin(io.call, io.slot)), EarlyGap(io).events;
            && ER.Legal(t, run) && LeavesCall(run, io.call)
            && ER.TimedOut(ER.Run(t, run), io.call) && io.slot !in ER.Run(t, run).slots
  {
    var run := EarlyGap(io).events;
    var t1 := E.Next(E.Next(E.EMPTY_TABLE, E.Begin(io.call, io.slot)), E.Timeout(io.call));
    assert run[1..] == [E.Strike(io.call, false)];
    ER.RunOfOne(t1, E.Strike(io.call, false));
  }
}
