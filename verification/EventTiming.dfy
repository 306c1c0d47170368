/** When a timeout fires: what event_add, timeout_process, common_timeout_callback and event_persist_closure come to
    together. */
module EventTimings {
  import opened Options
  import opened EventQueues
  import opened EventEffects
  import opened EventBases
  import opened EventMemory

  /** An event that was added with a timeout of its own is in the heap, if it has not gone astray. */
  lemma AddedToHeap(b: Base, id: Id, tv: Time, absolute: bool, now: nat, mem: bool, c: Base)
    requires Added(b, id, Some(tv), absolute, now, mem, c) && tv.common == None
    ensures id < |c.events| && id in c.heap && Agree(c)
  {
    hide Put, Agree, OthersSame, Retimed;
    var i := if NeedsInsertion(b.events[id]) then InsertInserted(b, id) else b;
    PutFacts(i.(events := i.events[id := Remember(i.events[id], tv, absolute)]), id, DueAt(tv, absolute, now), mem);
  }

  /** An event in the heap fires exactly when its time has come. */
  lemma FiresWhenDue(b: Base, id: Id, t: nat, c: Base)
    requires Agree(b) && id in b.heap && TimedOut(b, t, c)
    ensures id < |b.events| == |c.events| && SameBooks(b, c)
    ensures b.events[id].when.usec > t ==> c.events[id] == b.events[id] && id in c.heap
    ensures b.events[id].when.usec <= t ==>
      var e := c.events[id];
      e.active && e.byTimeout && !e.timeout && id !in c.heap &&
      e == b.events[id].(active := true, byTimeout := true, timeout := false, inserted := false, later := false)
  {
    var ids :| Popped(b, ids, c) && DueIn(b, ids, c, t);
    hide Requeued;
  }

  /** An event on a common-timeout list fires exactly when its time has come. */
  lemma FiresOnList(b: Base, k: nat, n: nat, id: Id, t: nat, c: Base)
    requires Agree(b) && k < |b.ctls| && Sorted(b.events, b.ctls[k].events) && CommonExpired(b, k, n, t, c)
    requires id < |b.events| && b.events[id].timeout && b.events[id].when.common == Some(k)
    ensures |c.events| == |b.events|
    ensures b.events[id].when.usec > t ==> c.events[id] == b.events[id] && id in c.ctls[k].events
    ensures b.events[id].when.usec <= t ==>
      c.events[id].active && c.events[id].byTimeout && !c.events[id].timeout && id !in c.ctls[k].events
  {
    hide Requeued;
    assert Placed(b, id);
    var l := b.ctls[k].events;
    var j :| 0 <= j < |l| && l[j] == id;
    if j < n {
      assert l[..n][j] == id;
    } else {
      assert l[n..][j - n] == id;
    }
  }

  /** event_add, and timeout_process at time `t`: a relative timeout fires once its length has passed since the time of
      the event_add, an absolute one once its time has come, and neither before. The heap is sure to take the event if
      memory can be had or the event was not waiting for a timeout. */
  method AddAndWait(base: EventBase, id: Id, tv: Time, absolute: bool, now: nat, ioOk: bool, mem: bool, t: nat)
    returns (res: int)
    requires base.Valid() && base.UserEvent(id) && tv.common == None
    modifies base
    ensures base.Valid() && base.current == old(base.current) && |base.events| == |old(base.events)|
    ensures id < |base.events| && base.events[id].pri == old(base.events)[id].pri
    ensures ioOk && mem ==> res == 0
    ensures res == 0 && (mem || !old(base.events)[id].timeout) ==>
      var e, due := base.events[id], if absolute then tv.usec else now + tv.usec;
      && (base.strayed ==> old(base.strayed))
      && e.when == Time(due, None)
      && e.persist == old(base.events)[id].persist && e.signal == old(base.events)[id].signal
      && (t < due ==> e.timeout && id in base.heap && (e.active ==> old(base.events)[id].active))
      && (t >= due ==> e.active && e.byTimeout && !e.timeout && id !in base.heap)
      && (!absolute && e.persist && !e.signal ==> e.ioTimeout == tv)
  {
    hide Agree, TimersOk, NoneLost, HeapFits, SameSetup, StillEmpty, Added, TimedOut, base.Valid;
    ghost var b := base.View();
    res := base.EventAdd(id, Some(tv), absolute, now, ioOk, mem);
    ghost var m := base.View();
    base.TimeoutProcess(t);
    SetupTrans(b, m, base.View());
    SameLength(b, base.View());
    if res == 0 {
      ghost var r := Reserved(b, id, Some(tv), mem);
      AddedToHeap(r, id, tv, absolute, now, mem, m);
      AddedWhen(r, id, Some(tv), absolute, now, mem, m);
      FiresWhenDue(m, id, t, base.View());
      if mem || !b.events[id].timeout {
        AddKeeps(b, id, Some(tv), absolute, now, ioOk, mem, m);
      }
    }
  }

  /** The same for an event on a common-timeout list: its timeout fires in the callback of the list's timer. */
  lemma ListedFiresWhenDue(b: Base, id: Id, tv: Time, absolute: bool, now: nat, mem: bool, m: Base, k: nat, n: nat,
                           t: nat, c: Base)
    requires Added(b, id, Some(tv), absolute, now, mem, m) && tv.common == Some(k) && Sound(m)
    requires CommonExpired(m, k, n, t, c)
    ensures id < |c.events|
    ensures var e, due := c.events[id], if absolute then tv.usec else now + tv.usec;
      && (t < due ==> e.timeout && id in c.ctls[k].events && (e.active ==> b.events[id].active))
      && (t >= due ==> e.active && e.byTimeout && !e.timeout && id !in c.ctls[k].events)
  {
    AddedWhen(b, id, Some(tv), absolute, now, mem, m);
    assert Sorted(m.events, m.ctls[k].events);
    hide Added, Agree, TimersOk, HeapFits, CommonExpired;
    FiresOnList(m, k, n, id, t, c);
  }

  /** A persistent event that is added with an interval at `now`, fires and is run at `u` is due again two intervals
      after `now`; or one after `u` if that has passed. */
  method AddAndRepeat(base: EventBase, id: Id, tv: Time, now: nat, t: nat, u: nat) returns (ran: bool)
    requires base.Valid() && base.UserEvent(id) && base.current == None
    requires tv.common == None && tv.usec > 0 && now + tv.usec <= t
    requires base.events[id].persist && !base.events[id].signal
    modifies base
    ensures |base.events| == |old(base.events)|
    ensures !ran ==> !exists p :: 0 <= p < |base.queues| && base.queues[p] != [] && base.queues[p][0] == id
    ensures ran ==>
      var next := now + 2 * tv.usec;
      base.events[id].timeout && base.events[id].when.usec == if next >= u then next else u + tv.usec
  {
    hide Agree, TimersOk, NoneLost, HeapFits, SameSetup, StillEmpty, Added, TimedOut, base.Valid, Started;
    var p := base.events[id].pri;
    var res := AddAndWait(base, id, tv, false, now, true, true, t);
    base.ValidParts();
    FirstHasPriority(base.View(), id);
    if p >= |base.queues| || base.queues[p] == [] || base.queues[p][0] != id {
      return false;
    }
    ghost var b := base.View();
    var first := base.StartCallback(p);
    RunsPersistent(b, id, p, base.View());
    SameLength(b, base.View());
    ghost var s := base.View();
    base.PersistClosure(id, u, true, true);
    SameLength(s, base.View());
    return true;
  }

  lemma FirstHasPriority(b: Base, id: Id)
    requires Agree(b) && id < |b.events|
    ensures forall p :: 0 <= p < |b.queues| && b.queues[p] != [] && b.queues[p][0] == id ==> b.events[id].pri == p
  {
    assert Placed(b, id);
  }

  lemma RunsPersistent(b: Base, id: Id, p: nat, c: Base)
    requires Started(b, id, p, c)
    ensures id < |b.events| == |c.events| && SameBooks(b, c)
    ensures b.events[id].persist ==> c.events[id] == b.events[id].(active := false)
  {
  }
}
