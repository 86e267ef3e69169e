/** The event contexts, counters and epoll registrations of iomanager.cpp, updated in place. */
module IOManagers {
  import opened EventTable
  import opened EventRuns

  datatype Option<+T> = None | Some(value: T)

  datatype EventContext = EventContext(scheduler: Option<nat>, fiber: Option<nat>, cb: Option<nat>)

  const RESET: EventContext := EventContext(None, None, None)

  /** One call of Scheduler::schedule. */
  datatype Scheduled = Scheduled(scheduler: nat, handle: Handle)

  datatype Op = ADD | MOD | DEL

  datatype AddResult = Added | Refused | AlreadySet

  datatype Dispatched = Woken | Ignored | KernelFailed | Aborted

  /** What the context of a waiting registration holds. */
  function ContextOf(w: Waiter): EventContext {
    match w.handle
    case OfFiber(f) => EventContext(Some(w.scheduler), Some(f), None)
    case OfCallback(c) => EventContext(Some(w.scheduler), None, Some(c))
  }

  function Expected(slots: map<Slot, Waiter>, slot: Slot): EventContext {
    if slot in slots then ContextOf(slots[slot]) else RESET
  }

  class FdContext {
    const fd: nat
    var read: EventContext
    var write: EventContext
    var events: set<Event>

    constructor (fd: nat)
      ensures this.fd == fd && read == RESET && write == RESET && events == {}
    {
      this.fd := fd;
      read, write, events := RESET, RESET, {};
    }

    function GetContext(event: Event): EventContext
      reads this
    {
      if event == READ then read else write
    }

    method SetContext(event: Event, c: EventContext)
      modifies this
      ensures events == old(events)
      ensures forall e :: GetContext(e) == if e == event then c else old(GetContext(e))
    {
      if event == READ {
        read := c;
      } else {
        write := c;
      }
    }

    /** The contexts hold what the slots of this descriptor say, and the bits say which are taken. */
    ghost predicate Matches(slots: map<Slot, Waiter>)
      reads this
    {
      forall e :: (e in events <==> Slot(fd, e) in slots) && GetContext(e) == Expected(slots, Slot(fd, e))
    }

    /**
     * triggerEvent: none when the assertion on the bit fails. The handle is swapped out into the
     * scheduler's queue, and the context is left as if reset.
     */
    method TriggerEvent(event: Event, ghost slots: map<Slot, Waiter>) returns (s: Option<Scheduled>)
      requires Matches(slots)
      modifies this
      ensures s.None? <==> Slot(fd, event) !in slots
      ensures s.None? ==> Matches(slots)
      ensures s.Some? ==> Matches(slots - {Slot(fd, event)})
      ensures s.Some? ==> var w := slots[Slot(fd, event)]; s.value == Scheduled(w.scheduler, w.handle)
    {
      if event !in events {
        return None;
      }
      events := events - {event};
      var c := GetContext(event);
      if c.cb.Some? {
        s := Some(Scheduled(c.scheduler.value, OfCallback(c.cb.value)));
        SetContext(event, EventContext(None, c.fiber, None));
      } else {
        s := Some(Scheduled(c.scheduler.value, OfFiber(c.fiber.value)));
        SetContext(event, EventContext(None, None, c.cb));
      }
    }
  }

  class IOManager {
    var contexts: seq<FdContext>
    var pending: nat
    var epoll: map<nat, set<Event>>  // the interest masks the kernel holds
    var scheduled: seq<Scheduled>    // calls of schedule made so far
    ghost var table: Table

    ghost predicate Numbered()
      reads this`contexts, contexts
    {
      |contexts| >= 32 && forall i :: 0 <= i < |contexts| ==> contexts[i].fd == i
    }

    /** Contexts, counter and schedule calls agree with the table. */
    ghost predicate Tabled()
      reads this`contexts, this`pending, this`scheduled, this`table, contexts
    {
      && Inv(table) && Numbered()
      && (forall i :: 0 <= i < |contexts| ==> contexts[i].Matches(table.slots))
      && (forall slot :: slot in table.slots ==> slot.fd < |contexts|)
      && pending == |table.slots|
      && |scheduled| == |table.handed|
      && (forall k :: 0 <= k < |scheduled| ==>
         scheduled[k] == Scheduled(table.handed[k].scheduler, table.handed[k].handle))
    }

    /** The kernel holds a descriptor if and only if it has event bits, and these are its interest mask. */
    ghost predicate Watched()
      reads this, contexts
    {
      && (forall fd :: fd in epoll ==> fd < |contexts| && contexts[fd].events != {} && epoll[fd] == contexts[fd].events)
      && (forall fd :: 0 <= fd < |contexts| && contexts[fd].events != {} ==> fd in epoll)
    }

    ghost predicate Valid()
      reads this, contexts
    {
      Tabled() && Watched()
    }

    constructor ()
      ensures Valid() && table == EMPTY_TABLE
      ensures forall c :: c in contexts ==> fresh(c)
    {
      hide Inv;
      pending := 0;
      epoll := map[];
      scheduled := [];
      table := EMPTY_TABLE;
      contexts := [];
      new;
      assert Inv(table) by {
        EmptyInv();
      }
      ContextResize(32);
    }

    /** What a valid table says about one descriptor. */
    lemma {:induction false} Bits(fd: nat)
      requires Tabled()
      ensures Numbered()
      ensures fd < |contexts| ==> forall e :: e in contexts[fd].events <==> Slot(fd, e) in table.slots
      ensures fd >= |contexts| ==> forall e :: Slot(fd, e) !in table.slots
    {
    }

    /** contextResize, growing: a context for every new descriptor number. */
    method ContextResize(size: nat)
      requires |contexts| <= size
      requires forall i :: 0 <= i < |contexts| ==> contexts[i].fd == i && contexts[i].Matches(table.slots)
      requires forall slot :: slot in table.slots ==> slot.fd < |contexts|
      modifies this`contexts
      ensures |contexts| == size && old(contexts) <= contexts
      ensures forall c :: c in contexts && c !in old(contexts) ==> fresh(c)
      ensures forall i :: 0 <= i < size ==> contexts[i].fd == i && contexts[i].Matches(table.slots)
      ensures forall i :: |old(contexts)| <= i < size ==> contexts[i].events == {}
    {
      for i := |contexts| to size
        invariant |contexts| == i && old(contexts) <= contexts
        invariant forall c :: c in contexts && c !in old(contexts) ==> fresh(c)
        invariant forall j :: 0 <= j < i ==> contexts[j].fd == j && contexts[j].Matches(table.slots)
        invariant forall j :: |old(contexts)| <= j < i ==> contexts[j].events == {}
      {
        var c := new FdContext(i);
        contexts := contexts + [c];
      }
    }

    /**
     * epoll_ctl. Its requirement is what makes the operation legal: ADD only for a descriptor that is
     * not registered, MOD and DEL only for one that is.
     */
    method EpollCtl(op: Op, fd: nat, mask: set<Event>, fail: bool) returns (rt: int)
      requires op == ADD <==> fd !in epoll
      modifies this`epoll
      ensures rt != 0 <==> fail
      ensures fail ==> epoll == old(epoll)
      ensures !fail ==> epoll == if op == DEL then old(epoll) - {fd} else old(epoll)[fd := mask]
    {
      if fail {
        return -1;
      }
      epoll := if op == DEL then epoll - {fd} else epoll[fd := mask];
      rt := 0;
    }

    /** The context of a descriptor, made if need be. */
    method Find(fd: nat) returns (ctx: FdContext)
      requires Valid()
      modifies this`contexts
      ensures Valid() && fd < |contexts| && ctx == contexts[fd]
      ensures ctx in old(contexts) || fresh(ctx)
      ensures forall c :: c in contexts && c !in old(contexts) ==> fresh(c)
    {
      hide Inv;
      if |contexts| <= fd {
        ContextResize(fd * 3 / 2);
      }
      ctx := contexts[fd];
      assert ctx in contexts;
    }

    /** Fills an empty context; its being empty is the assertion that never fails. */
    method Place(ctx: FdContext, event: Event, cb: Option<nat>, scheduler: nat, fiber: nat)
      requires Tabled() && ctx in contexts && event !in ctx.events
      modifies this`pending, this`table, ctx
      ensures Tabled() && ctx.events == old(ctx.events) + {event}
      ensures table == Register(old(table), Slot(ctx.fd, event), scheduler,
                                if cb.Some? then OfCallback(cb.value) else OfFiber(fiber))
    {
      hide Inv;
      pending := pending + 1;
      ctx.events := ctx.events + {event};
      assert ctx.GetContext(event) == RESET;
      if cb.Some? {
        ctx.SetContext(event, EventContext(Some(scheduler), None, cb));
      } else {
        ctx.SetContext(event, EventContext(Some(scheduler), Some(fiber), None));
      }
      ghost var handle := if cb.Some? then OfCallback(cb.value) else OfFiber(fiber);
      RegisterKeepsInv(table, Slot(ctx.fd, event), scheduler, handle);
      table := Register(table, Slot(ctx.fd, event), scheduler, handle);
    }

    /** Clears a context without waking anybody. */
    method Clear(ctx: FdContext, event: Event)
      requires Tabled() && ctx in contexts && event in ctx.events
      modifies this`pending, this`table, ctx
      ensures Tabled() && ctx.events == old(ctx.events) - {event}
      ensures table == Drop(old(table), Slot(ctx.fd, event))
    {
      hide Inv;
      ghost var slot := Slot(ctx.fd, event);
      DropKeepsInv(table, slot);
      OneLess(table.slots, slot);
      pending := pending - 1;
      ctx.events := ctx.events - {event};
      ctx.SetContext(event, RESET);
      table := Drop(table, slot);
    }

    /** triggerEvent on one of the contexts, and the count; false when its assertion fails. */
    method Wake(ctx: FdContext, event: Event) returns (ok: bool)
      requires Tabled() && ctx in contexts
      modifies this`pending, this`scheduled, this`table, ctx
      ensures Tabled() && ctx.events == old(ctx.events) - {event}
      ensures table == Trigger(old(table), Slot(ctx.fd, event))
      ensures ok <==> Slot(ctx.fd, event) in old(table).slots
    {
      hide Inv;
      ghost var slot := Slot(ctx.fd, event);
      var s := ctx.TriggerEvent(event, table.slots);
      ok := s.Some?;
      if ok {
        TriggerKeepsInv(table, slot);
        OneLess(table.slots, slot);
        scheduled := scheduled + [s.value];
        pending := pending - 1;
        table := Trigger(table, slot);
      }
    }

    /**
     * addEvent, called by a fiber of `scheduler`; without a callback the fiber itself is to be woken.
     * A bit already set fails the assertion. The later assertion on an empty context never does.
     */
    method AddEvent(fd: nat, event: Event, cb: Option<nat>, scheduler: nat, fiber: nat, fail: bool)
      returns (r: AddResult)
      requires Valid()
      modifies this, contexts
      ensures Valid()
      ensures forall c :: c in contexts && c !in old(contexts) ==> fresh(c)
      ensures r == AlreadySet <==> Slot(fd, event) in old(table).slots
      ensures r == AlreadySet ==> table == old(table)
      ensures r != AlreadySet ==> (r == Refused <==> fail)
      ensures r != AlreadySet ==> var handle := if cb.Some? then OfCallback(cb.value) else OfFiber(fiber);
                table == Next(old(table), Add(Slot(fd, event), scheduler, handle, fail))
    {
      hide Inv, Tabled;
      var ctx := Find(fd);
      Bits(fd);
      if event in ctx.events {
        return AlreadySet;
      }
      var op := if ctx.events != {} then MOD else ADD;
      var rt := EpollCtl(op, fd, ctx.events + {event}, fail);
      if rt != 0 {
        return Refused;
      }
      Place(ctx, event, cb, scheduler, fiber);
      r := Added;
    }

    method DelEvent(fd: nat, event: Event, fail: bool) returns (done: bool)
      requires Valid()
      modifies this, contexts
      ensures Valid() && contexts == old(contexts)
      ensures table == Next(old(table), Del(Slot(fd, event), fail))
      ensures done <==> Slot(fd, event) in old(table).slots && !fail
    {
      hide Inv, Tabled;
      Bits(fd);
      done := false;
      if fd < |contexts| && event in contexts[fd].events {
        var ctx := contexts[fd];
        var left := ctx.events - {event};
        var rt := EpollCtl(if left != {} then MOD else DEL, fd, left, fail);
        if rt == 0 {
          Clear(ctx, event);
          done := true;
        }
      }
    }

    method CancelEvent(fd: nat, event: Event, fail: bool) returns (done: bool)
      requires Valid()
      modifies this, contexts
      ensures Valid() && contexts == old(contexts)
      ensures table == Next(old(table), Cancel(Slot(fd, event), fail))
      ensures done <==> Slot(fd, event) in old(table).slots && !fail
    {
      hide Inv, Tabled;
      Bits(fd);
      done := false;
      if fd < |contexts| && event in contexts[fd].events {
        var ctx := contexts[fd];
        var left := ctx.events - {event};
        var rt := EpollCtl(if left != {} then MOD else DEL, fd, left, fail);
        if rt == 0 {
          var ok := Wake(ctx, event);
          assert ok;
          done := true;
        }
      }
    }

    /** cancelAll: both directions, reading first. */
    method CancelAll(fd: nat, fail: bool) returns (done: bool)
      requires Valid()
      modifies this, contexts
      ensures Valid() && contexts == old(contexts)
      ensures table == Next(old(table), EventTable.CancelAll(fd, fail))
      ensures done <==> !fail && exists e :: Slot(fd, e) in old(table).slots
    {
      hide Inv, Tabled;
      Bits(fd);
      done := false;
      if fd < |contexts| && contexts[fd].events != {} {
        var ctx := contexts[fd];
        var rt := EpollCtl(DEL, fd, {}, fail);
        if rt == 0 {
          if READ in ctx.events {
            var ok := Wake(ctx, READ);
            assert ok;
          }
          if WRITE in ctx.events {
            var ok := Wake(ctx, WRITE);
            assert ok;
          }
          assert ctx.events == {} by {
            assert forall e :: e in ctx.events ==> e == READ || e == WRITE;
          }
          done := true;
        }
      }
    }

    /**
     * The dispatch of one report of epoll_wait. The report may be older than the lock, so `bits` need
     * not be registered any more. The assertion that the code reaches is not avoided: the call aborts
     * exactly when some but not all of the reported directions are registered and the kernel accepts
     * the change, and in every other case it wakes exactly the registered ones that were reported.
     */
    method Dispatch(fd: nat, bits: set<Event>, hangup: bool, fail: bool) returns (r: Dispatched)
      requires Valid() && fd < |contexts|
      modifies this, contexts
      ensures r == Aborted <==> Aborts(old(table), fd, bits, hangup, fail)
      ensures r != Aborted ==> Valid() && contexts == old(contexts)
      ensures r != Aborted ==> table == Next(old(table), Ready(fd, bits, hangup, fail))
      ensures r == Ignored <==> forall e :: e in Real(bits, hangup) ==> Slot(fd, e) !in old(table).slots
    {
      hide Inv, Tabled, Next;
      Bits(fd);
      ReadyIs(table, fd, bits, hangup, fail);
      var ctx := contexts[fd];
      var hit := Real(bits, hangup);
      assert forall e :: e in hit ==> e == READ || e == WRITE;
      if ctx.events * hit == {} {
        assert forall e :: e in hit && e in ctx.events ==> e in ctx.events * hit;
        return Ignored;
      }
      var left := ctx.events - hit;
      var rt := EpollCtl(if left != {} then MOD else DEL, fd, left, fail);
      if rt != 0 {
        return KernelFailed;
      }
      if READ in hit {
        var ok := Wake(ctx, READ);
        if !ok {
          return Aborted;
        }
      }
      if WRITE in hit {
        var ok := Wake(ctx, WRITE);
        if !ok {
          return Aborted;
        }
      }
      assert ctx.events == left;
      r := Woken;
    }
  }

  lemma {:induction false} ReadyIs(t: Table, fd: nat, bits: set<Event>, hangup: bool, fail: bool)
    ensures !Aborts(t, fd, bits, hangup, fail) ==>
              Next(t, Ready(fd, bits, hangup, fail)) == if fail then t else TriggerAll(t, fd, Real(bits, hangup))
  {
  }

  lemma {:induction false} OneLess(slots: map<Slot, Waiter>, slot: Slot)
    requires slot in slots
    ensures |slots - {slot}| == |slots| - 1
  {
    assert (slots - {slot}).Keys == slots.Keys - {slot};
  }

  /** A taken slot's context holds a scheduler and exactly one of callback and fiber; a free one's nothing. */
  lemma {:induction false} BitMeansWaiter(m: IOManager, fd: nat, e: Event)
    requires m.Valid() && fd < |m.contexts|
    ensures var c := m.contexts[fd].GetContext(e);
            if e in m.contexts[fd].events then c.scheduler.Some? && (c.fiber.Some? <==> c.cb.None?)
            else c == RESET
    ensures m.pending == |m.table.slots|
    ensures forall k: nat :: k in m.epoll <==> k < |m.contexts| && m.contexts[k].events != {}
    ensures forall k: nat :: k in m.epoll ==> m.epoll[k] == m.contexts[k].events
  {
    assert Slot(fd, e) in m.table.slots <==> e in m.contexts[fd].events;
  }
}
