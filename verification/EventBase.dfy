/** The event base: adding, deleting and activating events, expiring timeouts, and dispatching
    callbacks by priority. */
module EventBases {
  import opened Options
  import opened Lists
  import opened EventQueues
  import opened EventEffects

  class EventBase {
    var events: seq<Event>
    var queues: seq<seq<Id>>
    var later: seq<Id>
    var heap: set<Id>
    var ctls: seq<CommonList>
    var count: int
    var countActive: int
    /** The room in the array of the time heap. */
    var room: nat
    /** Lists whose timer could not be set when it had to be; the code does not keep track of them. */
    var lost: set<nat>
    /** An event has been marked as waiting that the time heap could not take. What the code does then
        depends on stale bytes in the event; the base goes on here as if there had been room. */
    var strayed: bool
    /** event_running_priority, -1 when no callbacks are being run. */
    var running: int
    var eventContinue: bool
    var eventBreak: bool
    /** The event whose callback is running and has not done its work. */
    var current: Option<Id>
    /** The callbacks started so far. */
    ghost var trace: seq<Dispatch>

    function View(): Base
      reads this
    {
      Base(events, queues, later, heap, ctls, count, countActive, room, lost, strayed)
    }

    /** Queues, flags and counters agree, and no common timeout is lost but those given up. */
    ghost predicate Valid()
      reads this
    {
      Agree(View()) && TimersOk(View()) && HeapFits(View()) && NoneLost(View(), current, lost)
    }

    lemma ValidParts()
      requires Valid()
      ensures Agree(View()) && TimersOk(View()) && (current == None ==> Sound(View()))
    {
    }

    /** A user's event: set up, and not the timer of a common-timeout list. */
    ghost predicate UserEvent(id: Id)
      reads this
    {
      id < |events| && !IsTimer(View(), id)
    }

    /** Callbacks more urgent than the ones being run are noticed before the next callback. */
    predicate Guarded()
      reads this
    {
      eventContinue || forall q :: 0 <= q < running && q < |queues| ==> queues[q] == []
    }

    /** The notice, as it `was`, has not been withdrawn, and given only to the less urgent. */
    predicate Noticed(was: bool)
      reads this
    {
      (was ==> eventContinue) && (running <= 0 ==> eventContinue == was)
    }

    /** A base with `n` priorities. */
    constructor (n: nat)
      requires n > 0
      ensures Valid() && View() == Base([], seq(n, _ => []), [], {}, [], 0, 0, 0, {}, false)
      ensures running == -1 && current == None && trace == [] && !eventContinue && !eventBreak
    {
      events, queues, later, heap, ctls := [], seq(n, _ => []), [], {}, [];
      count, countActive, running := 0, 0, -1;
      room, lost, strayed := 0, {}, false;
      eventContinue, eventBreak, current, trace := false, false, None, [];
      new;
      NoLengths(queues);
    }

    /** A new event, on no queue yet. */
    method NewEvent(e: Event) returns (id: Id)
      requires Valid() && e.pri < |queues| && e == Fresh(e.pri, e.internal, e.persist, e.io, e.signal)
      modifies this`events
      ensures Valid() && id == |old(events)| && events == old(events) + [e] && UserEvent(id)
    {
      hide Agree, TimersOk, NoneLost, IsTimer;
      AssignAgrees(View(), e);
      AssignNoneLost(View(), e, current, lost);
      id := |events|;
      events := events + [e];
    }

    /** event_assign: a new event of middle priority; a signal event may not wait for a descriptor too. */
    method EventAssign(persist: bool, io: bool, signal: bool) returns (id: Option<Id>)
      requires Valid()
      modifies this`events
      ensures Valid() && (id.None? <==> io && signal) && (id.None? ==> events == old(events))
      ensures id.Some? ==> id.value == |old(events)| && UserEvent(id.value)
      ensures id.Some? ==> events == old(events) + [Fresh(|queues| / 2, false, persist, io, signal)]
      ensures id.Some? ==> var e := events[id.value];
        && e.pri == |queues| / 2 && !e.internal && e.persist == persist && e.io == io && e.signal == signal
        && !e.inserted && !e.timeout && !e.active && !e.later
    {
      hide Agree, TimersOk, NoneLost, IsTimer;
      if io && signal {
        return None;
      }
      SomeQueue(View());
      var n := NewEvent(Fresh(|queues| / 2, false, persist, io, signal));
      return Some(n);
    }

    /** event_priority_set: refused for an active event and for a priority there is not. */
    method EventPrioritySet(id: Id, pri: int) returns (ok: bool)
      requires Valid() && UserEvent(id)
      modifies this`events
      ensures Valid() && (ok <==> !old(events)[id].active && 0 <= pri < |queues|)
      ensures events == if ok then old(events)[id := old(events)[id].(pri := pri)] else old(events)
    {
      hide Agree, NoneLost, IsTimer;
      if events[id].active || pri < 0 || pri >= |queues| {
        return false;
      }
      ghost var b := View();
      PriorityAgrees(b, id, pri);
      events := events[id := events[id].(pri := pri)];
      OtherEvent(b, View(), current, id, lost);
      return true;
    }

    /** event_base_init_common_timeout: the index of the list for this duration, or -1. */
    method InitCommonTimeout(duration: nat, mem: bool) returns (k: int)
      requires Valid()
      modifies this`events, this`ctls
      ensures Valid() && -1 <= k < |ctls| && (k >= 0 ==> ctls[k].duration == duration)
      ensures k == -1 <==> !HasDuration(old(ctls), duration) && (|old(ctls)| == MAX_COMMON_TIMEOUTS || !mem)
      ensures k >= |old(ctls)| ==> !HasDuration(old(ctls), duration)
      ensures k < |old(ctls)| ==> View() == old(View())
      ensures k >= |old(ctls)| ==> NewList(old(View()), View(), duration)
    {
      hide Agree, TimersOk, NoneLost, IsTimer;
      k := 0;
      while k < |ctls|
        invariant 0 <= k <= |ctls| && forall i :: 0 <= i < k ==> ctls[i].duration != duration
      {
        if ctls[k].duration == duration {
          return;
        }
        k := k + 1;
      }
      if |ctls| == MAX_COMMON_TIMEOUTS || !mem {
        return -1;
      }
      SomeQueue(View());
      var timer := NewEvent(Fresh(0, true, false, false, false));
      var l := CommonList([], timer, duration);
      KnownLists(View());
      NewListAgrees(View(), l, current, lost);
      ctls := ctls + [l];
    }

    // ---- queue primitives

    method QueueInsertActive(id: Id)
      requires Agree(View()) && id < |events| && !events[id].later
      modifies this`events, this`queues, this`count, this`countActive
      ensures old(View()).events[id].pri < |old(View()).queues|
      ensures View() == InsertActive(old(View()), id) && Agree(View())
    {
      InsertActiveAgrees(View(), id);
      var e := events[id];
      if e.active {
        return;
      }
      count := count + One(e.internal);
      events := events[id := e.(active := true)];
      countActive := countActive + 1;
      queues := queues[e.pri := queues[e.pri] + [id]];
    }

    method QueueRemoveActive(id: Id)
      requires Agree(View()) && id < |events| && events[id].active
      modifies this`events, this`queues, this`count, this`countActive
      ensures old(View()).events[id].pri < |old(View()).queues|
      ensures View() == RemoveActive(old(View()), id) && Agree(View())
    {
      RemoveActiveAgrees(View(), id);
      var e := events[id];
      count := count - One(e.internal);
      events := events[id := e.(active := false)];
      countActive := countActive - 1;
      queues := queues[e.pri := Without(queues[e.pri], id)];
    }

    method QueueInsertActiveLater(id: Id)
      requires Agree(View()) && id < |events|
      modifies this`events, this`later, this`count, this`countActive
      ensures View() == InsertLater(old(View()), id) && Agree(View())
    {
      InsertLaterAgrees(View(), id);
      var e := events[id];
      if e.active || e.later {
        return;
      }
      count := count + One(e.internal);
      events := events[id := e.(later := true)];
      countActive := countActive + 1;
      later := later + [id];
    }

    method QueueRemoveActiveLater(id: Id)
      requires Agree(View()) && id < |events| && events[id].later
      modifies this`events, this`later, this`count, this`countActive
      ensures View() == RemoveLater(old(View()), id) && Agree(View())
    {
      RemoveLaterAgrees(View(), id);
      var e := events[id];
      count := count - One(e.internal);
      events := events[id := e.(later := false)];
      countActive := countActive - 1;
      later := Without(later, id);
    }

    method QueueInsertInserted(id: Id)
      requires Agree(View()) && id < |events| && !events[id].inserted
      modifies this`events, this`count
      ensures View() == InsertInserted(old(View()), id) && Agree(View())
    {
      InsertedAgrees(View(), id);
      count := count + One(events[id].internal);
      events := events[id := events[id].(inserted := true)];
    }

    method QueueRemoveInserted(id: Id)
      requires Agree(View()) && id < |events| && events[id].inserted
      modifies this`events, this`count
      ensures View() == RemoveInserted(old(View()), id) && Agree(View())
    {
      InsertedAgrees(View(), id);
      count := count - One(events[id].internal);
      events := events[id := events[id].(inserted := false)];
    }

    /** insert_common_timeout_inorder: looks for the place from the end of the list. */
    method InsertInOrder(ids: seq<Id>, id: Id) returns (r: seq<Id>)
      requires id < |events| && Below(ids, |events|)
      ensures r == InOrder(events, ids, id)
      ensures exists n ::
        && 0 <= n <= |ids| && r == ids[..n] + [id] + ids[n..]
        && (n > 0 ==> events[ids[n - 1]].when.usec <= events[id].when.usec)
        && (forall j :: n <= j < |ids| ==> events[ids[j]].when.usec > events[id].when.usec)
    {
      var n := |ids|;
      assert ids[..n] == ids && ids[n..] == [];
      assert InOrder(events, ids, id) + [] == InOrder(events, ids, id);
      while n > 0
        invariant 0 <= n <= |ids| && InOrder(events, ids, id) == InOrder(events, ids[..n], id) + ids[n..]
        invariant forall j :: n <= j < |ids| ==> events[ids[j]].when.usec > events[id].when.usec
      {
        if events[id].when.usec >= events[ids[n - 1]].when.usec {
          return ids[..n] + [id] + ids[n..];
        }
        assert ids[..n][..n - 1] == ids[..n - 1] && [ids[n - 1]] + ids[n..] == ids[n - 1..];
        n := n - 1;
      }
      assert [id] + ids == ids[..0] + [id] + ids[0..];
      return [id] + ids;
    }

    /** event_queue_insert_timeout; that min_heap_push_ failed goes unnoticed. */
    method QueueInsertTimeout(id: Id, mem: bool)
      requires Agree(View()) && id < |events| && !events[id].timeout
      requires events[id].when.common.Some? ==> events[id].when.common.value < |ctls|
      modifies this`events, this`heap, this`ctls, this`count, this`room, this`strayed
      ensures View() == InsertTimeout(old(View()), id).(room := room, strayed := strayed) && Agree(View())
      ensures var plain, n := old(events)[id].when.common.None?, |old(heap)| + 1;
        && room == (if plain then RoomFor(old(room), n, mem) else old(room))
        && strayed == (old(strayed) || (plain && !CanReserve(old(room), n, mem)))
    {
      hide Agree, Known, InOrder, RoomFor, CanReserve;
      ghost var b := View();
      QueuesKnown(b);
      InsertTimeoutAgrees(b, id);
      var e := events[id];
      if e.when.common.Some? {
        var i := e.when.common.value;
        ListKnown(b, i);
        var l := InsertInOrder(ctls[i].events, id);
        ctls := ctls[i := ctls[i].(events := l)];
      } else {
        strayed := strayed || !CanReserve(room, |heap| + 1, mem);
        room := RoomFor(room, |heap| + 1, mem);
        heap := heap + {id};
      }
      count := count + One(e.internal);
      events := events[id := e.(timeout := true)];
      SameAgree(InsertTimeout(b, id), View());
    }

    method QueueRemoveTimeout(id: Id)
      requires Agree(View()) && id < |events| && events[id].timeout
      modifies this`events, this`heap, this`ctls, this`count
      ensures var b := old(View()); b.events[id].when.common.Some? ==> b.events[id].when.common.value < |b.ctls|
      ensures View() == RemoveTimeout(old(View()), id) && Agree(View())
    {
      RemoveTimeoutAgrees(View(), id);
      var e := events[id];
      count := count - One(e.internal);
      events := events[id := e.(timeout := false)];
      if e.when.common.Some? {
        var i := e.when.common.value;
        ctls := ctls[i := ctls[i].(events := Without(ctls[i].events, id))];
      } else {
        heap := heap - {id};
      }
    }

    // ---- adding, deleting, activating

    /** Takes an event off the timeout queues, and off the active queue if a timeout put it there. */
    method Unschedule(id: Id)
      requires Agree(View()) && id < |events|
      modifies this`events, this`queues, this`heap, this`ctls, this`count, this`countActive
      ensures View() == Unscheduled(old(View()), id)
    {
      hide Agree, RemoveTimeout, RemoveActive, OnlyAbout;
      ghost var b := View();
      if events[id].timeout {
        RemoveTimeoutAgrees(b, id);
        RemoveTimeoutFacts(b, id);
        QueueRemoveTimeout(id);
        OnlyAboutLength(b, View(), id);
      }
      if events[id].active && events[id].byTimeout {
        QueueRemoveActive(id);
      }
    }

    /** The timeout part of event_add_nolock_. */
    method Reschedule(id: Id, when: Time, mem: bool)
      requires Agree(View()) && id < |events| && (when.common.Some? ==> when.common.value < |ctls|)
      modifies this`events, this`queues, this`heap, this`ctls, this`count, this`countActive, this`room, this`strayed
      ensures View() == Put(old(View()), id, when, mem)
    {
      hide Agree, Unscheduled, InsertTimeout, RoomFor, CanReserve;
      ghost var b := View();
      Unschedule(id);
      UnscheduledHeap(b, id);
      SamePlaceAgrees(View(), id, events[id].(when := when));
      events := events[id := events[id].(when := when)];
      InsertTimeoutBooks(View(), id);
      QueueInsertTimeout(id, mem);
    }

    /** common_timeout_schedule: sets the list's timer for its first event; that event_add failed goes
        unnoticed. The list is then ready exactly if the timer fits or has fired already. */
    method ScheduleTimer(k: nat, mem: bool)
      requires Agree(View()) && TimersOk(View()) && HeapFits(View()) && NoneLost(View(), current, lost + {k})
      requires k < |ctls| && ctls[k].events != []
      modifies this`events, this`queues, this`heap, this`ctls, this`count, this`countActive
      modifies this`room, this`lost, this`strayed
      ensures Agree(View()) && TimersOk(View()) && HeapFits(View()) && NoneLost(View(), current, lost)
      ensures current == Some(old(ctls)[k].timer) ==> NoneLost(View(), None, lost)
      ensures SameSetup(old(View()), View()) && OnlyAbout(old(View()), View(), old(ctls)[k].timer) && ctls == old(ctls)
      ensures TimerSet(old(View()), k, mem, View()) && strayed == old(strayed)
      ensures var t := old(ctls)[k].timer;
        && t < |old(events)|
        && (Ready(View(), None, k) <==>
              TimerFits(old(room), |old(heap)| + 1, old(events)[t], mem) || old(events)[t].active)
    {
      hide Agree, TimersOk, NoneLost, SameSetup, OnlyAbout, Ready, Put;
      TimerIsPlain(View(), k);
      ListedNotTimer(View(), k);
      var t := ctls[k].timer;
      if TimerFits(room, |heap| + 1, events[t], mem) {
        SetTimer(k, mem);
      } else {
        ghost var b := View();
        lost := if events[t].active then lost - {k} else lost + {k};
        TimerNotSet(b, View(), current, k);
      }
    }

    /** event_add_nolock_ on the list's timer once it is sure to fit; min_heap_push_ finds the room that has
        been reserved. */
    method SetTimer(k: nat, mem: bool)
      requires Agree(View()) && TimersOk(View()) && HeapFits(View()) && NoneLost(View(), current, lost + {k})
      requires k < |ctls| && ctls[k].events != [] && ctls[k].timer < |events| && ctls[k].events[0] < |events|
      requires TimerFits(room, |heap| + 1, events[ctls[k].timer], mem)
      modifies this`events, this`queues, this`heap, this`ctls, this`count, this`countActive
      modifies this`room, this`lost, this`strayed
      ensures Agree(View()) && TimersOk(View()) && HeapFits(View()) && NoneLost(View(), current, lost)
      ensures current == Some(old(ctls)[k].timer) ==> NoneLost(View(), None, lost)
      ensures SameSetup(old(View()), View()) && OnlyAbout(old(View()), View(), old(ctls)[k].timer) && ctls == old(ctls)
      ensures TimerSet(old(View()), k, mem, View()) && strayed == old(strayed) && Ready(View(), None, k)
    {
      hide Agree, TimersOk, NoneLost, SameSetup, OnlyAbout, Ready, Put, HeapFits;
      ghost var b := View();
      var t := ctls[k].timer;
      var when := Time(events[ctls[k].events[0]].when.usec, None);
      TimerPut(b, current, k, mem);
      ghost var c := Put(b, t, when, mem);
      Reschedule(t, when, mem);
      lost := lost - {k};
      OnlyBooks(c, View(), current, lost);
      OnlyBooks(c, View(), None, lost);
      SameReady(c, View(), k);
      SameFit(c, View());
      OnlyAboutTrans(b, c, View(), t);
      SetupTrans(b, c, View());
    }

    /** Changes fields of a user's event that no queue depends on. */
    method Touch(id: Id, e: Event)
      requires Valid() && UserEvent(id) && SamePlace(events[id], e) && e.when == events[id].when
      modifies this`events
      ensures Valid() && UserEvent(id) && events == old(events)[id := e]
      ensures SameSetup(old(View()), View()) && StillEmpty(old(View()), View()) && OthersSame(old(View()), View(), id)
    {
      hide Agree, NoneLost;
      ghost var b := View();
      SamePlaceAgrees(b, id, e);
      events := events[id := e];
      OtherEvent(b, View(), current, id, lost);
    }

    /** The I/O part of event_add_nolock_. */
    method AddInserted(id: Id)
      requires Valid() && UserEvent(id) && !events[id].inserted
      modifies this`events, this`count
      ensures Valid() && UserEvent(id) && View() == InsertInserted(old(View()), id)
      ensures SameSetup(old(View()), View()) && StillEmpty(old(View()), View()) && OthersSame(old(View()), View(), id)
    {
      hide Agree, NoneLost;
      ghost var b := View();
      QueueInsertInserted(id);
      OtherEvent(b, View(), current, id, lost);
    }

    /** The timeout part of event_add_nolock_ on a user's event. */
    method AddTimeout(id: Id, when: Time, mem: bool)
      requires Valid() && UserEvent(id) && (when.common.Some? ==> when.common.value < |ctls|)
      modifies this`events, this`queues, this`heap, this`ctls, this`count, this`countActive
      modifies this`room, this`lost, this`strayed
      ensures Valid() && UserEvent(id)
      ensures events[id] == Retimed(old(events)[id], when)
      ensures later == old(later) && Timed(old(View()), id, when, mem, View())
      ensures SameSetup(old(View()), View()) && StillEmpty(old(View()), View()) && OthersSame(old(View()), View(), id)
    {
      hide Agree, TimersOk, NoneLost, SameSetup, OnlyAbout, IsTimer, StillEmpty, OthersSame, Ready, TimerSet, HeapFits;
      hide Put, Retimed;
      ghost var b := View();
      PutTimeout(id, when, mem);
      if when.common.Some? && id == ctls[when.common.value].events[0] {
        ghost var m := View();
        ScheduleTimer(when.common.value, mem);
        NotTheTimer(m, View(), when.common.value, id);
        TimerAndOthers(b, m, View(), when.common.value, id);
        SetupTrans(b, m, View());
        SameTimers(m, View(), id);
        EmptyTrans(b, m, View());
      }
    }

    /** The event is where it should be; the list that it now heads, if any, still needs its timer. */
    method PutTimeout(id: Id, when: Time, mem: bool)
      requires Valid() && UserEvent(id) && (when.common.Some? ==> when.common.value < |ctls|)
      modifies this`events, this`queues, this`heap, this`ctls, this`count, this`countActive, this`room, this`strayed
      ensures Agree(View()) && TimersOk(View()) && HeapFits(View()) && UserEvent(id)
      ensures View() == Put(old(View()), id, when, mem)
      ensures events[id] == Retimed(old(events)[id], when) && later == old(later)
      ensures |ctls| == |old(ctls)| && (when.common.Some? ==> ctls[when.common.value].events != [])
      ensures if when.common.Some? && id == ctls[when.common.value].events[0]
        then NoneLost(View(), current, lost + {when.common.value}) else NoneLost(View(), current, lost)
      ensures SameSetup(old(View()), View()) && StillEmpty(old(View()), View()) && OthersSame(old(View()), View(), id)
    {
      hide Agree, TimersOk, NoneLost, SameSetup, OnlyAbout, IsTimer, StillEmpty, OthersSame, Put, HeapFits, Retimed;
      ghost var b := View();
      PutFacts(b, id, when, mem);
      PutNoneLost(b, current, id, when, mem, lost);
      Reschedule(id, when, mem);
      OnlyAboutOthers(b, View(), id);
      RetimedKind(b.events[id], when);
      OnlyAboutSetup(b, View(), id);
      OnlyAboutEmpty(b, View(), id);
      SameTimers(b, View(), id);
    }

    /** Room for one more event in the time heap is reserved. */
    method Reserve(mem: bool) returns (ok: bool)
      requires Valid()
      modifies this`room
      ensures Valid() && ok == CanReserve(old(room), |heap| + 1, mem) && room == RoomFor(old(room), |heap| + 1, mem)
      ensures SameSetup(old(View()), View()) && StillEmpty(old(View()), View())
      ensures forall id: Id :: UserEvent(id) <==> old(UserEvent(id))
    {
      hide Agree, TimersOk, NoneLost, IsTimer, SameSetup, StillEmpty, OnlyAbout;
      ghost var b := View();
      ok := CanReserve(room, |heap| + 1, mem);
      room := RoomFor(room, |heap| + 1, mem);
      OnlyBooks(b, View(), current, lost);
    }

    /** event_add_nolock_ on a user's event; `ioOk` says whether evmap could add it, `mem` whether the time
        heap can grow. */
    method EventAdd(id: Id, tv: Option<Time>, absolute: bool, now: nat, ioOk: bool, mem: bool) returns (res: int)
      requires Valid() && UserEvent(id) && (tv.Some? && tv.value.common.Some? ==> tv.value.common.value < |ctls|)
      modifies this`events, this`queues, this`heap, this`ctls, this`count, this`countActive
      modifies this`room, this`lost, this`strayed
      ensures Valid() && UserEvent(id) && SameSetup(old(View()), View()) && StillEmpty(old(View()), View())
      ensures res == if AddFails(old(View()), id, tv, ioOk, mem) then -1 else 0
      ensures var r := Reserved(old(View()), id, tv, mem);
        if res == 0 then Added(r, id, tv, absolute, now, mem, View()) else View() == r
      ensures res != 0 <==>
        || (tv.Some? && !old(events)[id].timeout && !mem && |old(heap)| >= old(room))
        || (!ioOk && (old(events)[id].io || old(events)[id].signal) &&
            !old(events)[id].inserted && !old(events)[id].active && !old(events)[id].later)
      ensures res == 0 && tv.Some? ==>
        && events[id].timeout
        && events[id].when == Time(if absolute then tv.value.usec else now + tv.value.usec, tv.value.common)
        && events[id].active == (old(events)[id].active && !old(events)[id].byTimeout)
        && events[id].ioTimeout ==
          if events[id].persist && !events[id].signal && !absolute then tv.value else old(events)[id].ioTimeout
      ensures res == 0 && (events[id].io || events[id].signal) ==>
        events[id].inserted || old(events)[id].active || old(events)[id].later
      ensures res == 0 && tv.None? ==> events[id] == old(events)[id].(inserted := events[id].inserted)
    {
      hide Agree, TimersOk, NoneLost, IsTimer, SameSetup, StillEmpty, OthersSame, Retimed, Remember, DueAt, Timed;
      hide HeapFits, Added, RoomFor;
      ghost var b := View();
      SameItself(b);
      if tv.Some? && !events[id].timeout {
        var ok := Reserve(mem);
        if !ok {
          return -1;
        }
      }
      ghost var m := View();
      if NeedsInsertion(events[id]) && !ioOk {
        return -1;
      }
      SameLength(b, m);
      AddReserved(id, tv, absolute, now, mem);
      SetupTrans(b, m, View());
      EmptyTrans(b, m, View());
      AddedWhen(m, id, tv, absolute, now, mem, View());
      return 0;
    }

    /** event_add_nolock_ once nothing can make it fail. */
    method AddReserved(id: Id, tv: Option<Time>, absolute: bool, now: nat, mem: bool)
      requires Valid() && UserEvent(id) && (tv.Some? && tv.value.common.Some? ==> tv.value.common.value < |ctls|)
      modifies this`events, this`queues, this`heap, this`ctls, this`count, this`countActive
      modifies this`room, this`lost, this`strayed
      ensures Valid() && UserEvent(id) && SameSetup(old(View()), View()) && StillEmpty(old(View()), View())
      ensures Added(old(View()), id, tv, absolute, now, mem, View())
    {
      hide Agree, TimersOk, NoneLost, IsTimer, SameSetup, StillEmpty, OthersSame, Retimed, Remember, DueAt, Timed;
      hide HeapFits;
      ghost var b := View();
      SameItself(b);
      OthersSameItself(b, id);
      if NeedsInsertion(events[id]) {
        AddInserted(id);
      }
      if tv.Some? {
        ghost var m := View();
        SameLength(b, m);
        AddTimed(id, tv.value, absolute, now, mem);
        SetupTrans(b, m, View());
        EmptyTrans(b, m, View());
        OthersSameTrans(b, m, View(), id);
      }
    }

    /** The timeout part of event_add_nolock_, with the interval remembered for a persistent event. */
    method AddTimed(id: Id, tv: Time, absolute: bool, now: nat, mem: bool)
      requires Valid() && UserEvent(id) && (tv.common.Some? ==> tv.common.value < |ctls|)
      modifies this`events, this`queues, this`heap, this`ctls, this`count, this`countActive
      modifies this`room, this`lost, this`strayed
      ensures Valid() && UserEvent(id) && SameSetup(old(View()), View()) && StillEmpty(old(View()), View())
      ensures OthersSame(old(View()), View(), id) && later == old(later)
      ensures events[id] == Retimed(Remember(old(events)[id], tv, absolute), DueAt(tv, absolute, now))
      ensures var e := Remember(old(events)[id], tv, absolute);
        Timed(old(View()).(events := old(events)[id := e]), id, DueAt(tv, absolute, now), mem, View())
    {
      hide Agree, TimersOk, NoneLost, IsTimer, SameSetup, StillEmpty, OthersSame, Retimed, Remember, SamePlace, Timed;
      hide HeapFits;
      ghost var b := View();
      SameItself(b);
      OthersSameItself(b, id);
      var when := DueAt(tv, absolute, now);
      Touch(id, Remember(events[id], tv, absolute));
      SameLength(b, View());
      ghost var m := View();
      AddTimeout(id, when, mem);
      SetupTrans(b, m, View());
      EmptyTrans(b, m, View());
      OthersSameTrans(b, m, View(), id);
    }

    /** The active part of event_del_nolock_. */
    method Deactivate(id: Id)
      requires Agree(View()) && id < |events|
      modifies this`events, this`queues, this`later, this`count, this`countActive
      ensures Agree(View()) && events == old(events)[id := old(events)[id].(active := false, later := false)]
      ensures old(View()).events[id].pri < |old(View()).queues|
      ensures queues == if old(events)[id].active then RemoveActive(old(View()), id).queues else old(queues)
      ensures later == if old(events)[id].later then RemoveLater(old(View()), id).later else old(later)
    {
      hide Agree;
      NotBoth(View(), id);
      if events[id].active {
        QueueRemoveActive(id);
      } else if events[id].later {
        QueueRemoveActiveLater(id);
      }
    }

    /** The timeout part of event_del_nolock_. */
    method Untime(id: Id)
      requires Agree(View()) && id < |events|
      modifies this`events, this`heap, this`ctls, this`count
      ensures Agree(View()) && events == old(events)[id := old(events)[id].(timeout := false)]
      ensures TimeoutGone(old(View()), View(), id)
    {
      hide Agree, RemoveTimeout;
      if events[id].timeout {
        RemoveTimeoutAgrees(View(), id);
        RemoveTimeoutDetail(View(), id);
        QueueRemoveTimeout(id);
      }
    }

    /** event_del_nolock_, on any event; the caller sees to the timers. */
    method DelAny(id: Id)
      requires Agree(View()) && id < |events|
      modifies this`events, this`queues, this`later, this`heap, this`ctls, this`count, this`countActive
      ensures Agree(View()) && Deleted(old(View()), View(), id)
    {
      hide Agree, TimeoutGone, RemoveActive, RemoveLater, Deleted;
      ghost var b := View();
      NotBoth(b, id);
      Untime(id);
      ghost var m := View();
      Deactivate(id);
      ghost var n := View();
      if events[id].inserted {
        QueueRemoveInserted(id);
      }
      DeletedInSteps(b, m, n, View(), id);
    }

    /** event_del_nolock_ on a user's event; what the evmap reports is the result and nothing more. */
    method EventDel(id: Id, ioOk: bool) returns (res: int)
      requires Valid() && UserEvent(id)
      modifies this`events, this`queues, this`later, this`heap, this`ctls, this`count, this`countActive
      ensures res == if old(events)[id].inserted && !ioOk then -1 else 0
      ensures Valid() && UserEvent(id) && Deleted(old(View()), View(), id)
      ensures SameSetup(old(View()), View()) && StillEmpty(old(View()), View())
      ensures OnNoQueue(View(), id)
    {
      hide Agree, TimersOk, NoneLost, IsTimer, SameSetup, Deleted, StillEmpty, OnNoQueue;
      ghost var b := View();
      res := if events[id].inserted && !ioOk then -1 else 0;
      DelAny(id);
      DeletedEvent(b, View(), id);
      OffEverywhere(View(), id);
      DeletedNoneLost(b, View(), current, id, lost);
      DeletedHeap(b, View(), id);
      DeletedSetup(b, View(), id);
      SameTimers(b, View(), id);
    }

    /** Adds EV_TIMEOUT to ev_res, or starts it afresh for an event that is not active. */
    method NoteResult(id: Id, byTimeout: bool)
      requires Agree(View()) && id < |events|
      modifies this`events
      ensures Agree(View()) && events == old(events)[id := WithResult(old(events)[id], byTimeout)]
    {
      hide Agree;
      SamePlaceAgrees(View(), id, WithResult(events[id], byTimeout));
      events := events[id := WithResult(events[id], byTimeout)];
    }

    /** event_callback_activate_nolock_. */
    method CallbackActivate(id: Id)
      requires Agree(View()) && id < |events|
      modifies this`events, this`queues, this`later, this`count, this`countActive
      ensures Agree(View()) && Activated(old(View()), View(), id)
      ensures old(events)[id].active ==> View() == old(View())
      ensures events[id].byTimeout == old(events)[id].byTimeout
    {
      hide Agree, InsertActive, RemoveLater, Activated;
      NotBoth(View(), id);
      ActivatedFacts(View(), id);
      if events[id].active {
        return;
      }
      if events[id].later {
        QueueRemoveActiveLater(id);
      }
      QueueInsertActive(id);
    }

    /** event_active_nolock_, on any event; the caller sees to the timers. */
    method ActivateAny(id: Id, byTimeout: bool)
      requires Agree(View()) && id < |events|
      modifies this`events, this`queues, this`later, this`count, this`countActive, this`eventContinue
      ensures Agree(View()) && Activated(old(View()), View(), id)
      ensures eventContinue == (old(eventContinue) || (!old(events)[id].active && old(events)[id].pri < running))
      ensures old(events)[id].active ==> queues == old(queues)
      ensures events[id].byTimeout == WithResult(old(events)[id], byTimeout).byTimeout
    {
      hide Agree;
      var e := events[id];
      NotBoth(View(), id);
      NoteResult(id, byTimeout);
      if e.active {
        return;
      }
      if e.pri < running {
        eventContinue := true;
      }
      CallbackActivate(id);
    }

    /** event_active_nolock_ on a user's event. */
    method EventActive(id: Id, byTimeout: bool)
      requires Valid() && UserEvent(id)
      modifies this`events, this`queues, this`later, this`count, this`countActive, this`eventContinue
      ensures Valid() && UserEvent(id) && Activated(old(View()), View(), id)
      ensures events[id].byTimeout == WithResult(old(events)[id], byTimeout).byTimeout
      ensures var e := old(events)[id];
        && events[id].active && !events[id].later
        && events[id].byTimeout == (byTimeout || (e.byTimeout && (e.active || e.later)))
        && e.pri < |old(queues)|
        && queues == if e.active then old(queues) else old(queues)[e.pri := old(queues)[e.pri] + [id]]
      ensures SameSetup(old(View()), View()) && (old(Guarded()) ==> Guarded())
      ensures Noticed(old(eventContinue))
    {
      hide Agree, NoneLost, IsTimer;
      ghost var b := View();
      ActivateAny(id, byTimeout);
      OtherEvent(b, View(), current, id, lost);
      SameTimers(b, View(), id);
    }

    /** event_active_later_nolock_. */
    method EventActiveLater(id: Id, byTimeout: bool)
      requires Valid() && UserEvent(id)
      modifies this`events, this`later, this`count, this`countActive
      ensures Valid() && UserEvent(id) && ActivatedLater(old(View()), View(), id)
      ensures SameSetup(old(View()), View())
      ensures var e := old(events)[id];
        && events[id].active == e.active && events[id].later == !e.active
        && events[id].byTimeout == (byTimeout || (e.byTimeout && (e.active || e.later)))
        && later == if e.active || e.later then old(later) else old(later) + [id]
    {
      hide Agree, TimersOk, NoneLost, IsTimer;
      ghost var b := View();
      NotBoth(b, id);
      NoteResult(id, byTimeout);
      if !events[id].active && !events[id].later {
        QueueInsertActiveLater(id);
      }
      OtherEvent(b, View(), current, id, lost);
      SameTimers(b, View(), id);
    }

    /** One round of event_queue_make_later_events_active. */
    method PromoteFirst()
      requires Valid() && later != []
      modifies this`events, this`queues, this`later
      ensures Valid() && SameSetup(old(View()), View()) && later == old(later)[1..]
      ensures old(later)[0] < |old(events)| && old(events)[old(later)[0]].pri < |old(queues)|
      ensures var id := old(later)[0]; var e := old(events)[id];
        && events == old(events)[id := e.(later := false, active := true)]
        && queues == old(queues)[e.pri := old(queues)[e.pri] + [id]]
    {
      hide NoneLost, IsTimer;
      ghost var b := View();
      var id := later[0];
      FirstLater(b);
      var e := events[id];
      later := later[1..];
      events := events[id := e.(later := false, active := true)];
      queues := queues[e.pri := queues[e.pri] + [id]];
      PromotedAgrees(b, id);
      OtherEvent(b, View(), current, id, lost);
    }

    /** event_queue_make_later_events_active. */
    method MakeLaterEventsActive()
      requires Valid()
      modifies this`events, this`queues, this`later
      ensures Valid() && SameSetup(old(View()), View()) && LaterActive(old(View()), View())
    {
      hide Agree, TimersOk, NoneLost, SameSetup, Promoted;
      ghost var b := View();
      SameItself(b);
      NothingPromoted(b);
      ghost var n: nat := 0;
      while later != []
        invariant Valid() && SameSetup(b, View()) && n <= |b.later| && later == b.later[n..] && |events| == |b.events|
        invariant queues == Promoted(b.events, b.queues, b.later[..n])
        invariant forall x: Id :: x < |b.events| ==>
          events[x] == if x in b.later[..n] then b.events[x].(later := false, active := true) else b.events[x]
        decreases |later|
      {
        ghost var m := View();
        ghost var id := later[0];
        LaterOnce(b, n);
        PromoteFirst();
        assert b.later[..n + 1] == b.later[..n] + [id];
        PromotedSnoc(b.events, b.queues, b.later[..n], id);
        SetupTrans(b, m, View());
        SameLength(b, View());
        n := n + 1;
      }
      assert b.later[..n] == b.later;
    }

    /** One round of timeout_process, on a user's event or on a timer. */
    method Expire(id: Id)
      requires Valid() && id in heap
      modifies this`events, this`queues, this`later, this`heap, this`ctls, this`count, this`countActive
      modifies this`eventContinue
      ensures Valid() && SameSetup(old(View()), View()) && heap == old(heap) - {id} && ctls == old(ctls)
      ensures id < |old(events)| && events == old(events)[id := Fired(old(events)[id])]
      ensures queues == Requeue(old(events)[id], old(queues), id)
      ensures (old(Guarded()) ==> Guarded()) && Noticed(old(eventContinue))
    {
      hide Agree, TimersOk, NoneLost, IsTimer, SameSetup, Deleted, StillEmpty;
      ghost var b := View();
      InHeap(b, id);
      DelAny(id);
      ghost var m := View();
      DeletedTimerLists(b, m, id);
      DeletedEvent(b, m, id);
      DeletedSetup(b, m, id);
      ActivateAny(id, true);
      FiredQueues(b, m, View(), id);
      ActivatedSetup(m, View(), id);
      SetupTrans(b, m, View());
      ExpiredNoneLost(b, m, View(), current, id, lost);
      DeletedHeap(b, m, id);
    }

    /** The event on top of the heap fires if it is due; `ids` are those that have fired. */
    method ExpireTop(now: nat, ghost b: Base, ghost ids: seq<Id>) returns (id: Id, due: bool)
      requires Valid() && heap != {} && Popped(b, ids, View())
      modifies this`events, this`queues, this`later, this`heap, this`ctls, this`count, this`countActive
      modifies this`eventContinue
      ensures Valid() && SameSetup(old(View()), View()) && (old(Guarded()) ==> Guarded()) && Noticed(old(eventContinue))
      ensures id < |b.events| && (due <==> b.events[id].when.usec <= now)
      ensures due ==> Popped(b, ids + [id], View()) && |heap| < |old(heap)|
      ensures !due ==> View() == old(View()) && id in heap && IsTop(events, heap, id) && events[id] == b.events[id]
    {
      hide SameSetup, NoneLost, TimersOk, Agree, HeapFits, Valid, Guarded, Popped, Requeue;
      ghost var m := View();
      SameItself(m);
      ValidParts();
      HeapKnown(m);
      TopExists(events, heap);
      id :| id in heap && IsTop(events, heap, id);
      PoppedFacts(b, ids, m, id);
      due := events[id].when.usec <= now;
      if due {
        Expire(id);
        PoppedMore(b, ids, m, id, View());
      }
    }

    /** timeout_process: every event that is due becomes active, and no other leaves the heap. */
    method TimeoutProcess(now: nat)
      requires Valid()
      modifies this`events, this`queues, this`later, this`heap, this`ctls, this`count, this`countActive
      modifies this`eventContinue
      ensures Valid() && SameSetup(old(View()), View()) && (old(Guarded()) ==> Guarded())
      ensures TimedOut(old(View()), now, View())
      ensures Noticed(old(eventContinue))
    {
      hide SameSetup, NoneLost, TimersOk, Agree, HeapFits, Valid, Guarded, Popped, IsTop;
      ghost var b := View();
      SameItself(b);
      ValidParts();
      PoppedNone(b);
      ghost var ids: seq<Id> := [];
      while heap != {}
        invariant Valid() && SameSetup(b, View()) && (old(Guarded()) ==> Guarded())
        invariant Popped(b, ids, View()) && forall x :: x in ids && x < |b.events| ==> b.events[x].when.usec <= now
        invariant Noticed(old(eventContinue))
        decreases |heap|
      {
        ghost var m := View();
        var id, due := ExpireTop(now, b, ids);
        if !due {
          break;
        }
        ids := ids + [id];
        SetupTrans(b, m, View());
      }
      NothingDue(b, ids, View(), now);
    }

    /** One round of common_timeout_callback: the first event of the list is due. */
    method ExpireCommon(k: nat)
      requires Valid() && k < |ctls| && ctls[k].events != []
      modifies this`events, this`queues, this`later, this`heap, this`ctls, this`count, this`countActive
      modifies this`eventContinue
      ensures Valid() && SameSetup(old(View()), View()) && heap == old(heap)
      ensures ctls == old(ctls)[k := old(ctls)[k].(events := old(ctls)[k].events[1..])]
      ensures var id := old(ctls)[k].events[0];
        && id < |old(events)| && events == old(events)[id := Fired(old(events)[id])]
        && queues == Requeue(old(events)[id], old(queues), id)
      ensures (old(Guarded()) ==> Guarded()) && Noticed(old(eventContinue))
    {
      hide Agree, TimersOk, NoneLost, SameSetup, Deleted, IsTimer;
      ghost var b := View();
      ListedNotTimer(b, k);
      var id := ctls[k].events[0];
      var _ := EventDel(id, true);
      ghost var m := View();
      DeletedShrinks(b, m, id, k);
      DeletedEvent(b, m, id);
      DeletedHeap(b, m, id);
      EventActive(id, true);
      FiredQueues(b, m, View(), id);
      SetupTrans(b, m, View());
    }

    /** The loop of common_timeout_callback: the events of list `k` that are due become active in order. */
    method ExpireDue(k: nat, now: nat) returns (ghost done: nat)
      requires Valid() && k < |ctls|
      modifies this`events, this`queues, this`later, this`heap, this`ctls, this`count, this`countActive
      modifies this`eventContinue
      ensures Valid() && SameSetup(old(View()), View()) && (old(Guarded()) ==> Guarded())
      ensures Noticed(old(eventContinue)) && CommonExpired(old(View()), k, done, now, View())
    {
      hide Valid, Guarded, Agree, TimersOk, NoneLost, HeapFits, SameSetup, IsTimer, Requeue, ExpiredSoFar;
      ghost var b := View();
      SameItself(b);
      ValidParts();
      done := 0;
      ExpiredNone(b, k);
      while k < |ctls| && ctls[k].events != []
        invariant Valid() && SameSetup(b, View()) && (old(Guarded()) ==> Guarded())
        invariant |ctls| == |b.ctls| && ExpiredSoFar(b, k, done, now, View())
        invariant Noticed(old(eventContinue))
        decreases |b.ctls[k].events| - done
      {
        ghost var m := View();
        ValidParts();
        ListedNotTimer(m, k);
        NextDue(b, k, done, now, m);
        if events[ctls[k].events[0]].when.usec > now {
          break;
        }
        ExpireCommon(k);
        ExpiredMore(b, k, done, now, m, View());
        done := done + 1;
        SetupTrans(b, m, View());
      }
      NoMoreDue(b, k, done, now, View());
    }

    /** common_timeout_callback: runs when the timer of list `k` has fired. */
    method CommonTimeoutCallback(k: nat, now: nat, mem: bool) returns (ghost m: Base, ghost done: nat)
      requires Valid() && k < |ctls| && current == Some(ctls[k].timer)
      modifies this`events, this`queues, this`later, this`heap, this`ctls, this`count, this`countActive
      modifies this`eventContinue, this`room, this`lost, this`strayed
      ensures Agree(View()) && TimersOk(View()) && HeapFits(View()) && NoneLost(View(), None, lost)
      ensures SameSetup(old(View()), View()) && (old(Guarded()) ==> Guarded())
      ensures Noticed(old(eventContinue)) && CommonExpired(old(View()), k, done, now, m)
      ensures Rearmed(m, k, mem, View())
    {
      hide Agree, TimersOk, NoneLost, SameSetup, OnlyAbout, IsTimer, CommonExpired, Ready, TimerSet;
      ghost var b := View();
      done := ExpireDue(k, now);
      m := View();
      SameTimer(b, m, k);
      SameLength(b, m);
      if ctls[k].events == [] {
        EmptyList(m, ctls[k].timer, k, lost);
        lost := lost - {k};
        OnlyBooks(m, View(), None, lost);
      } else {
        FewerReady(m, current, lost, k);
        ScheduleTimer(k, mem);
        OnlyAboutEmpty(m, View(), m.ctls[k].timer);
      }
      SetupTrans(b, m, View());
    }

    /** One action of a callback or of another thread; one that refers to what does not exist is passed
        over. */
    method Perform(a: Action)
      requires Valid()
      modifies this`events, this`queues, this`later, this`heap, this`ctls, this`count, this`countActive
      modifies this`eventContinue, this`eventBreak, this`room, this`lost, this`strayed
      ensures Valid() && Effect(old(View()), a, View())
      ensures Grown(old(View()), View()) && (old(Guarded()) ==> Guarded())
      ensures running <= 0 && !a.DoContinue? ==> eventContinue == old(eventContinue)
      ensures old(eventContinue) || a.DoContinue? ==> eventContinue
      ensures eventBreak == (old(eventBreak) || a.DoBreak?)
    {
      hide Agree, TimersOk, NoneLost, Grown, IsTimer, Deleted, Added, Activated, ActivatedLater;
      ghost var b := View();
      SameItself(b);
      SetupGrown(b, b);
      if !ActionOk(View(), a) {
        return;
      }
      match a {
        case DoAssign(_, _, _) => PerformSetup(a);
        case DoPriority(_, _) => PerformSetup(a);
        case DoInitCommon(_, _) => PerformSetup(a);
        case DoBreak => eventBreak := true;
        case DoContinue => eventContinue := true;
        case _ =>
          PerformCall(a);
          SetupGrown(b, View());
      }
    }

    /** An action that sets up an event or a list. */
    method PerformSetup(a: Action)
      requires Valid() && ActionOk(View(), a) && (a.DoAssign? || a.DoPriority? || a.DoInitCommon?)
      modifies this`events, this`ctls
      ensures Valid() && Effect(old(View()), a, View()) && Grown(old(View()), View())
    {
      hide Agree, TimersOk, NoneLost, Grown, IsTimer, SameSetup;
      ghost var b := View();
      SameItself(b);
      SetupGrown(b, b);
      match a {
        case DoAssign(persist, io, signal) =>
          var _ := EventAssign(persist, io, signal);
          AssignGrown(b, Fresh(|queues| / 2, false, persist, io, signal));
        case DoPriority(id, pri) =>
          var ok := EventPrioritySet(id, pri);
          if ok {
            PriorityGrown(b, id, pri);
          }
        case DoInitCommon(d, mem) =>
          var _ := InitCommonTimeout(d, mem);
          NewListGrown(b, Fresh(0, true, false, false, false), CommonList([], |b.events|, d));
      }
    }

    /** An action on an event. */
    method PerformCall(a: Action)
      requires Valid() && ActionOk(View(), a) && (a.DoAdd? || a.DoDel? || a.DoActive? || a.DoActiveLater?)
      modifies this`events, this`queues, this`later, this`heap, this`ctls, this`count, this`countActive
      modifies this`eventContinue, this`room, this`lost, this`strayed
      ensures Valid() && Effect(old(View()), a, View())
      ensures SameSetup(old(View()), View()) && (old(Guarded()) ==> Guarded())
      ensures Noticed(old(eventContinue))
    {
      hide Agree, TimersOk, NoneLost, SameSetup, IsTimer, Deleted, Added, Activated, ActivatedLater;
      match a {
        case DoAdd(id, tv, ioOk, mem, now) => var _ := EventAdd(id, tv, false, now, ioOk, mem);
        case DoDel(id, ioOk) => var _ := EventDel(id, ioOk);
        case DoActive(id, byTimeout) => EventActive(id, byTimeout);
        case DoActiveLater(id, byTimeout) => EventActiveLater(id, byTimeout);
      }
    }

    /** Everything that happens while the lock is released. */
    method PerformAll(script: seq<Action>)
      requires Valid()
      modifies this`events, this`queues, this`later, this`heap, this`ctls, this`count, this`countActive
      modifies this`eventContinue, this`eventBreak, this`room, this`lost, this`strayed
      ensures Valid() && Performed(old(View()), script, View())
      ensures Grown(old(View()), View()) && (old(Guarded()) ==> Guarded())
      ensures running <= 0 && DoContinue !in script ==> eventContinue == old(eventContinue)
      ensures old(eventContinue) || DoContinue in script ==> eventContinue
      ensures eventBreak == (old(eventBreak) || DoBreak in script)
    {
      hide Agree, TimersOk, NoneLost, Grown, Performed, Effect;
      ghost var b := View();
      SameItself(b);
      SetupGrown(b, b);
      PerformedNone(b);
      assert script[..0] == [];
      var i := 0;
      while i < |script|
        invariant 0 <= i <= |script| && Valid() && Grown(b, View()) && (old(Guarded()) ==> Guarded())
        invariant Performed(b, script[..i], View())
        invariant running <= 0 && DoContinue !in script ==> eventContinue == old(eventContinue)
        invariant old(eventContinue) || DoContinue in script[..i] ==> eventContinue
        invariant eventBreak == (old(eventBreak) || DoBreak in script[..i])
      {
        ghost var m := View();
        Perform(script[i]);
        GrownTrans(b, m, View());
        OneMorePerformed(b, script, i, m, View());
        i := i + 1;
      }
      assert script[..i] == script;
    }

    /** The event at the head of a queue leaves it, for good unless it is persistent, and its callback
        is the one running. */
    method StartCallback(p: nat) returns (id: Id)
      requires Valid() && current == None && p < |queues| && queues[p] != []
      modifies this`events, this`queues, this`later, this`heap, this`ctls, this`count, this`countActive
      modifies this`current, this`trace
      ensures id == old(queues)[p][0] && Started(old(View()), id, p, View())
      ensures trace == old(trace) + [Dispatch(id, p, old(View()))]
      ensures Valid() && current == Some(id) && id < |events|
      ensures SameSetup(old(View()), View()) && StillEmpty(old(View()), View())
      ensures old(Guarded()) ==> Guarded()
      ensures events[id].persist ==> !IsTimer(View(), id)
    {
      hide Agree, TimersOk, NoneLost, SameSetup, Deleted, IsTimer, StillEmpty;
      ghost var b := View();
      FirstActive(b, p);
      id := queues[p][0];
      trace := trace + [Dispatch(id, p, View())];
      TimersNotPersistent(b, id);
      if events[id].persist {
        RemoveActiveSetup(b, id);
        QueueRemoveActive(id);
        UserStarts(b, View(), id, lost);
      } else {
        DelAny(id);
        DeletedSetup(b, View(), id);
        DeletedFirst(b, View(), id);
        DeletedStarts(b, View(), id, lost);
        DeletedHeap(b, View(), id);
      }
      SameTimers(b, View(), id);
      current := Some(id);
    }

    /** event_persist_closure up to the callback: a persistent event with an interval is due again at
        `RunAt`, unless it cannot be added. */
    method PersistClosure(id: Id, now: nat, ioOk: bool, mem: bool)
      requires Valid() && UserEvent(id) && events[id].persist && !events[id].signal
      modifies this`events, this`queues, this`heap, this`ctls, this`count, this`countActive
      modifies this`room, this`lost, this`strayed
      ensures Valid() && UserEvent(id) && SameSetup(old(View()), View()) && StillEmpty(old(View()), View())
      ensures var e := old(events)[id];
        var at := RunAt(e, now, |old(ctls)|);
        var r := Reserved(old(View()), id, Some(at), mem);
        if !Repeats(e) then View() == old(View())
        else if AddFails(old(View()), id, Some(at), ioOk, mem) then View() == r
        else Added(r, id, Some(at), true, now, mem, View()) && events[id].timeout && events[id].when == at
    {
      hide Agree, TimersOk, NoneLost, SameSetup, IsTimer, StillEmpty, OthersSame, Timed, HeapFits;
      SameItself(View());
      if events[id].ioTimeout.usec != 0 || events[id].ioTimeout.common.Some? {
        var _ := EventAdd(id, Some(RunAt(events[id], now, |ctls|)), true, now, ioOk, mem);
      }
    }

    /** The callback ends; if it belongs to a common-timeout list, it does that list's work. */
    method FinishCallback(id: Id, now: nat, mem: bool)
      requires Valid() && current == Some(id)
      modifies this`events, this`queues, this`later, this`heap, this`ctls, this`count, this`countActive
      modifies this`eventContinue, this`current, this`room, this`lost, this`strayed
      ensures Valid() && current == None && SameSetup(old(View()), View()) && (old(Guarded()) ==> Guarded())
      ensures Finished(old(View()), id, now, mem, View())
      ensures Noticed(old(eventContinue))
    {
      hide Agree, TimersOk, NoneLost, SameSetup, CommonExpired, Rearmed;
      var k := TimerOf(ctls, id);
      if k >= 0 {
        var _, _ := CommonTimeoutCallback(k, now, mem);
      } else {
        SameItself(View());
        CurrentIrrelevant(View(), id, lost);
      }
      current := None;
    }

    /** A callback from its start to its end. */
    method BeginTurn(p: nat, turn: Turn) returns (id: Id, ghost s: Base, ghost r: Base)
      requires Valid() && current == None && p < |queues| && queues[p] != []
      modifies this`events, this`queues, this`later, this`heap, this`ctls, this`count, this`countActive
      modifies this`current, this`eventContinue, this`eventBreak, this`trace, this`room, this`lost, this`strayed
      ensures id == old(queues)[p][0] && trace == old(trace) + [Dispatch(id, p, old(View()))]
      ensures Started(old(View()), id, p, s) && Repeated(s, id, turn, r) && Performed(r, turn.script, View())
      ensures Valid() && current == Some(id) && Grown(old(View()), View()) && (old(Guarded()) ==> Guarded())
      ensures running <= 0 && DoContinue !in turn.script ==> eventContinue == old(eventContinue)
      ensures old(eventContinue) || DoContinue in turn.script ==> eventContinue
      ensures eventBreak == (old(eventBreak) || DoBreak in turn.script)
    {
      hide Agree, TimersOk, NoneLost, HeapFits, SameSetup, IsTimer, Started, Repeated, Performed, Grown, Valid, Guarded;
      ghost var b := View();
      id := StartCallback(p);
      s := View();
      Repeat(id, turn);
      r := View();
      SetupTrans(b, s, r);
      SetupGrown(b, r);
      PerformAll(turn.script);
      GrownTrans(b, r, View());
    }

    /** The callback's own work, and what others do until the lock is taken again. */
    method EndTurn(id: Id, turn: Turn) returns (ghost f: Base)
      requires Valid() && current == Some(id)
      modifies this`events, this`queues, this`later, this`heap, this`ctls, this`count, this`countActive
      modifies this`current, this`eventContinue, this`eventBreak, this`room, this`lost, this`strayed
      ensures Finished(old(View()), id, turn.now, turn.mem, f) && Performed(f, turn.after, View())
      ensures Valid() && current == None && Grown(old(View()), View()) && (old(Guarded()) ==> Guarded())
      ensures running <= 0 && DoContinue !in turn.after ==> eventContinue == old(eventContinue)
      ensures old(eventContinue) || DoContinue in turn.after ==> eventContinue
      ensures eventBreak == (old(eventBreak) || DoBreak in turn.after)
    {
      hide Agree, TimersOk, NoneLost, HeapFits, SameSetup, Performed, Finished, Grown, Valid, Guarded;
      ghost var b := View();
      FinishCallback(id, turn.now, turn.mem);
      f := View();
      SetupGrown(b, f);
      PerformAll(turn.after);
      GrownTrans(b, f, View());
    }

    /** The body of the loop in event_process_active_single_queue. */
    method DispatchFirst(p: nat, turn: Turn) returns (id: Id)
      requires Valid() && current == None && p < |queues| && queues[p] != [] && running == p
      modifies this`events, this`queues, this`later, this`heap, this`ctls, this`count, this`countActive
      modifies this`current, this`eventContinue, this`eventBreak, this`trace, this`room, this`lost, this`strayed
      ensures id == old(queues)[p][0] && trace == old(trace) + [Dispatch(id, p, old(View()))]
      ensures Called(Dispatch(id, p, old(View())), turn, View())
      ensures Valid() && current == None && Grown(old(View()), View()) && (old(Guarded()) ==> Guarded())
      ensures running <= 0 && !turn.Does(DoContinue) ==> eventContinue == old(eventContinue)
      ensures old(eventContinue) || turn.Does(DoContinue) ==> eventContinue
      ensures eventBreak == (old(eventBreak) || turn.Does(DoBreak))
    {
      hide Agree, TimersOk, NoneLost, HeapFits, Started, Repeated, Performed, Finished, Grown, Called, Valid, Guarded;
      hide Sound;
      ghost var b := View();
      ValidParts();
      ghost var s, r;
      id, s, r := BeginTurn(p, turn);
      ghost var d := View();
      ghost var f := EndTurn(id, turn);
      GrownTrans(b, d, View());
      ValidParts();
      CalledInSteps(Dispatch(id, p, b), turn, s, r, d, f, View());
    }

    /** The closure of a persistent event that does not wait for a signal. */
    method Repeat(id: Id, turn: Turn)
      requires Valid() && id < |events| && (events[id].persist ==> !IsTimer(View(), id))
      modifies this`events, this`queues, this`heap, this`ctls, this`count, this`countActive
      modifies this`room, this`lost, this`strayed
      ensures Valid() && SameSetup(old(View()), View()) && StillEmpty(old(View()), View())
      ensures old(Guarded()) ==> Guarded()
      ensures Repeated(old(View()), id, turn, View())
    {
      hide Agree, TimersOk, NoneLost, SameSetup, IsTimer, Added;
      SameItself(View());
      if events[id].persist && !events[id].signal {
        PersistClosure(id, turn.now, turn.ioOk, turn.mem);
      }
    }

    predicate Calm(p: nat)
      reads this
    {
      NoneBelow(queues, p) && !eventContinue
    }

    /** One more callback of the queue of priority `p`, after those in `ds`. */
    method NextCallback(p: nat, turn: Turn, ghost turns: seq<Turn>, ghost b: Base, ghost ds: seq<Dispatch>)
      returns (internal: bool, ghost d: Dispatch)
      requires Valid() && InternalFirst(b) && Grown(b, View()) && current == None && p < |queues| && running == p
      requires queues[p] != [] && |ds| < |turns| && turn == turns[|ds|] && Calls(b, ds, turns, View())
      modifies this`events, this`queues, this`later, this`heap, this`ctls, this`count, this`countActive
      modifies this`current, this`eventContinue, this`eventBreak, this`trace, this`room, this`lost, this`strayed
      ensures Valid() && Grown(b, View()) && current == None && |queues| == |b.queues|
      ensures d.before == old(View()) && d.pri == p && Headed(d) && trace == old(trace) + [d]
      ensures Calls(b, ds + [d], turns, View())
      ensures UserCalls(ds + [d]) == UserCalls(ds) + (if internal then 0 else 1) && (p > 0 ==> !internal)
      ensures (old(Guarded()) ==> Guarded()) && eventBreak == (old(eventBreak) || turn.Does(DoBreak))
      ensures running <= 0 && !Continues(turns) ==> eventContinue == old(eventContinue)
      ensures turn.Does(DoContinue) ==> eventContinue
    {
      hide Agree, TimersOk, NoneLost, HeapFits, InternalFirst, Calls, Called, Grown, UserCalls, Breaks, Continues;
      hide Valid, Guarded;
      ghost var m := View();
      ValidParts();
      FirstActive(m, p);
      GrownInternal(b, m);
      NotInternal(m, queues[p][0]);
      internal := events[queues[p][0]].internal;
      OneOfTurns(turns, |ds|);
      var id := DispatchFirst(p, turn);
      d := Dispatch(id, p, m);
      GrownTrans(b, m, View());
      GrownLengths(b, View());
      OneMoreCall(b, ds, turns, d, View());
      OneMoreUser(ds, d);
    }

    /** event_process_active_single_queue on the queue of priority `p`. `turns` are the callbacks still
        to come in a run; it stops short when they are used up. */
    method ProcessSingleQueue(p: nat, max: nat, timed: bool, turns: seq<Turn>)
      returns (c: int, used: nat, ghost ds: seq<Dispatch>)
      requires Valid() && InternalFirst(View()) && current == None && p < |queues| && running == p
      modifies this`events, this`queues, this`later, this`heap, this`ctls, this`count, this`countActive
      modifies this`current, this`eventContinue, this`eventBreak, this`trace, this`room, this`lost, this`strayed
      ensures Valid() && current == None && Grown(old(View()), View())
      ensures trace == old(trace) + ds && used == |ds| <= |turns| && Calls(old(View()), ds, turns, View())
      ensures forall d :: d in ds ==> d.pri == p && Headed(d)
      ensures old(Calm(p)) && !Continues(turns) ==> AllUrgent(ds)
      ensures old(queues)[p] != [] && turns != [] ==> ds != []
      ensures c <= |ds| && c <= (if max == 0 then 1 else max) && (c < 0 <==> ds != [] && eventBreak)
      ensures Stopped(turns, |ds|, old(eventBreak), eventBreak)
      ensures forall k :: 0 <= k < |ds| - 1 ==> !turns[k].Does(DoContinue)
      ensures timed && ds != [] ==> InTime(ds, turns, |ds| - 1)
      ensures |ds| < |turns| && !eventBreak && !eventContinue && c < max && !timed ==> queues[p] == []
      ensures CutShort(max, turns) ==> |ds| <= 1
      ensures !eventBreak ==> c == UserCalls(ds)
      ensures c == 0 && (max > 0 || p > 0) && |ds| < |turns| && old(Calm(p)) && !Continues(turns) ==>
        queues[p] == [] && Calm(p)
    {
      hide Agree, TimersOk, NoneLost, HeapFits, InternalFirst, Calls, Grown, UserCalls, Breaks, Continues, Valid;
      hide Stopped, Headed, Urgent, InTime;
      ghost var b := View();
      SameItself(b);
      StoppedNone(turns, eventBreak);
      SetupGrown(b, b);
      NoCalls(b, turns);
      c, used, ds := 0, 0, [];
      while queues[p] != [] && used < |turns|
        invariant Valid() && Grown(b, View()) && current == None && |queues| == |b.queues|
        invariant used == |ds| <= |turns| && trace == old(trace) + ds && Calls(b, ds, turns, View())
        invariant 0 <= c == UserCalls(ds) <= used && (c < max || used == 0) && (p > 0 && used > 0 ==> c > 0)
        invariant used == 0 ==> queues == b.queues
        invariant forall d :: d in ds ==> d.pri == p && Headed(d)
        invariant old(Calm(p)) && !Continues(turns) ==> Calm(p) && forall d :: d in ds ==> Urgent(d)
        invariant Stopped(turns, used, old(eventBreak), eventBreak) && (used > 0 ==> !eventBreak)
        invariant (forall k :: 0 <= k < used ==> !turns[k].Does(DoContinue)) && (timed ==> InTime(ds, turns, used))
        invariant timed && ds != [] ==> InTime(ds, turns, |ds| - 1)
        invariant CutShort(max, turns) ==> used == 0
        decreases |turns| - used
      {
        var turn := turns[used];
        used := used + 1;
        ghost var wasBroken := eventBreak;
        var internal, d := NextCallback(p, turn, turns, b, ds);
        UrgentNow(d);
        StoppedOne(turns, |ds|, old(eventBreak), wasBroken, eventBreak);
        if timed {
          InTimeMore(ds, d, turns);
        }
        ds := ds + [d];
        if !internal {
          c := c + 1;
        }
        if eventBreak {
          return -1, used, ds;
        }
        if c >= max {
          return;
        }
        if c > 0 && timed && turn.late {
          return;
        }
        if eventContinue {
          break;
        }
      }
    }

    method SetRunning(p: int)
      requires Valid()
      modifies this`running
      ensures Valid() && running == p
    {
      running := p;
    }

    /** One step of event_process_active: the queue of priority `i`, the first that is not empty. */
    method ProcessQueue(i: nat, maxcb: nat, limitAfterPrio: nat, timed: bool, left: seq<Turn>,
                        ghost b: Base, ghost ds: seq<Dispatch>, ghost turns: seq<Turn>, ghost strict: bool)
      returns (c: int, used: nat, ghost es: seq<Dispatch>)
      requires Valid() && InternalFirst(b) && Grown(b, View()) && current == None && i < |queues| && queues[i] != []
      requires |ds| < |turns| && left == turns[|ds|..] && (strict ==> Strict(maxcb, limitAfterPrio, turns))
      requires Pass(b, ds, turns, i, CutShort(Limit(0, maxcb, limitAfterPrio), turns), strict, View(), 0,
        eventContinue, eventBreak)
      modifies this
      ensures Valid() && Grown(b, View()) && current == None && |queues| == |b.queues|
      ensures trace == old(trace) + es && used == |es| <= |left|
      ensures Pass(b, ds + es, turns, i + 1, CutShort(Limit(0, maxcb, limitAfterPrio), turns), strict, View(), c,
        eventContinue, eventBreak)
      ensures Stopped(left, |es|, old(eventBreak), eventBreak) && es != []
      ensures forall k :: 0 <= k < |es| - 1 ==> !left[k].Does(DoContinue)
      ensures (forall d :: d in es ==> d.pri == i) && Tallied(es, c, eventBreak, maxcb, limitAfterPrio)
    {
      hide Valid, Agree, TimersOk, NoneLost, InternalFirst, Grown, Calls, Pass, Continues, Breaks, Strict, CutShort;
      hide Stopped;
      hide Limit, HeapFits;
      hide UserCalls, AllUrgent, NoneBelow, Headed;
      ghost var m, was, wasBroken := View(), eventContinue, eventBreak;
      GrownInternal(b, m);
      FewerTurns(turns, |ds|);
      SetRunning(i);
      c, used, es := ProcessSingleQueue(i, Limit(i, maxcb, limitAfterPrio), i >= limitAfterPrio && timed, left);
      GrownTrans(b, m, View());
      GrownLengths(b, View());
      GrownLengths(m, View());
      PassOn(b, ds, turns, i, maxcb, limitAfterPrio, strict, m, was, wasBroken, es, View(), c, eventContinue,
        eventBreak);
    }

    /** The loop of event_process_active, up to the queue of priority `i`. */
    method PassQueues(maxcb: nat, limitAfterPrio: nat, timed: bool, turns: seq<Turn>, ghost cut: bool,
                      ghost strict: bool)
      returns (c: int, ghost i: nat, ghost ds: seq<Dispatch>)
      requires Valid() && InternalFirst(View()) && current == None
      requires cut == CutShort(Limit(0, maxcb, limitAfterPrio), turns)
      requires strict ==> !eventContinue && Strict(maxcb, limitAfterPrio, turns)
      modifies this
      ensures Valid() && current == None && Grown(old(View()), View())
      ensures i <= |queues| && trace == old(trace) + ds && |ds| <= |turns|
      ensures i == |queues| || c != 0 || |ds| == |turns|
      ensures Pass(old(View()), ds, turns, i, cut, strict, View(), c, eventContinue, eventBreak)
      ensures Paced(ds, turns, i, old(eventBreak), eventBreak) && Tallied(ds, c, eventBreak, maxcb, limitAfterPrio)
    {
      hide Valid, Agree, TimersOk, NoneLost, InternalFirst, Grown, Calls, Pass, Breaks, Strict, CutShort, Limit;
      hide AllUrgent, HeapFits, Urgent, Paced, Tallied, UserCalls, InternalCall;
      ghost var b := View();
      PacedNone(turns, eventBreak, maxcb, limitAfterPrio);
      SameItself(b);
      SetupGrown(b, b);
      NotPassed(b, turns, cut, strict, eventContinue);
      c, ds := 0, [];
      var p, left := 0, turns;
      i := 0;
      while p < |queues| && c == 0 && left != []
        invariant 0 <= i == p <= |queues| == |b.queues| && Valid() && Grown(b, View()) && current == None
        invariant trace == old(trace) + ds && |ds| <= |turns| && left == turns[|ds|..]
        invariant Pass(b, ds, turns, i, cut, strict, View(), c, eventContinue, eventBreak)
        invariant Paced(ds, turns, i, old(eventBreak), eventBreak) && Tallied(ds, c, eventBreak, maxcb, limitAfterPrio)
        decreases |b.queues| - p
      {
        if queues[p] != [] {
          var used;
          ghost var es;
          ghost var wasBroken := eventBreak;
          c, used, es := ProcessQueue(p, maxcb, limitAfterPrio, timed, left, b, ds, turns, strict);
          TurnsLeft(turns, |ds|, used);
          PacedOn(ds, es, turns, i, old(eventBreak), wasBroken, eventBreak, c, maxcb, limitAfterPrio);
          ds := ds + es;
          left := left[used..];
        } else {
          PassBy(b, ds, turns, i, cut, strict, View(), eventContinue, eventBreak);
          PacedUpTo(ds, turns, i, i + 1, old(eventBreak), eventBreak);
        }
        p := p + 1;
        i := p;
      }
    }

    /** event_process_active: the most urgent queue with callbacks in it, and the next ones as long as
        only internal callbacks were run. */
    method ProcessActive(maxcb: nat, limitAfterPrio: nat, timed: bool, turns: seq<Turn>)
      returns (c: int, ghost ds: seq<Dispatch>)
      requires Valid() && InternalFirst(View()) && current == None && running == -1
      modifies this
      ensures Valid() && current == None && running == -1 && Grown(old(View()), View())
      ensures trace == old(trace) + ds && |ds| <= |turns| && Calls(old(View()), ds, turns, View())
      ensures ds != [] ==> Urgent(ds[0])
      ensures turns != [] && SomeActive(old(View())) ==> ds != []
      ensures !old(eventContinue) && Strict(maxcb, limitAfterPrio, turns) ==> AllUrgent(ds)
      ensures !old(eventContinue) && Strict(maxcb, limitAfterPrio, turns) && c == 0 && |ds| < |turns| ==>
        !SomeActive(View())
      ensures Paced(ds, turns, |queues|, old(eventBreak), eventBreak)
      ensures Tallied(ds, c, eventBreak, maxcb, limitAfterPrio)
      ensures CutShort(Limit(0, maxcb, limitAfterPrio), turns) && |ds| >= 2 && ds[0].pri == 0 ==> ds[1].pri > 0
      ensures |ds| == 1 < |turns| && c == 0 ==> forall q :: ds[0].pri < q < |queues| ==> queues[q] == []
      ensures |ds| == 1 && InternalCall(ds[0]) && !eventBreak ==> c == 0
    {
      hide Valid, Agree, TimersOk, NoneLost, InternalFirst, Grown, Calls, Pass, Breaks, Strict, CutShort, Limit;
      hide AllUrgent, HeapFits, Urgent, Paced, Tallied, UserCalls, InternalCall;
      ghost var b, cut, strict := View(), CutShort(Limit(0, maxcb, limitAfterPrio), turns), !eventContinue &&
        Strict(maxcb, limitAfterPrio, turns);
      ghost var i;
      c, i, ds := PassQueues(maxcb, limitAfterPrio, timed, turns, cut, strict);
      GrownLengths(b, View());
      PacedUpTo(ds, turns, i, |queues|, old(eventBreak), eventBreak);
      PassedAll(b, ds, turns, i, cut, strict, View(), c, eventContinue, eventBreak);
      SetRunning(-1);
    }
  }
}
