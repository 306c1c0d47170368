/** What memory for the time heap has to do with common timeouts: as long as it can be had no list is lost
    and no event goes astray, and runs in which it cannot. */
module EventMemory {
  import opened Options
  import opened EventQueues
  import opened EventEffects
  import opened EventBases

  /** No further list is lost, and no event has gone astray. */
  predicate Kept(b: Base, c: Base) {
    c.lost <= b.lost && (c.strayed ==> b.strayed)
  }

  lemma KeptTrans(b: Base, m: Base, c: Base)
    requires Kept(b, m) && Kept(m, c)
    ensures Kept(b, c)
  {
  }

  /** Setting a timer for which there is room. */
  lemma TimerSetKeeps(b: Base, k: nat, mem: bool, c: Base)
    requires TimerSet(b, k, mem, c) && CanReserve(b.room, |b.heap| + 1, mem)
    ensures Kept(b, c)
  {
    hide Agree, Rescheduled;
    var t := b.ctls[k].timer;
    var when := Time(b.events[b.ctls[k].events[0]].when.usec, None);
    PutKeeps(b, t, when, mem);
  }

  /** Room for one more event in the heap is enough for any event, wherever it was. */
  lemma PutKeeps(b: Base, id: Id, when: Time, mem: bool)
    requires Agree(b) && id < |b.events| && (when.common.Some? ==> when.common.value < |b.ctls|)
    requires CanReserve(b.room, |b.heap| + 1, mem)
    ensures var c := Put(b, id, when, mem);
      && c.lost == b.lost && c.strayed == b.strayed && (when.common.Some? ==> CanReserve(c.room, |c.heap| + 1, mem))
  {
    PutFacts(b, id, when, mem);
    RescheduledHeap(b, id, when);
    hide Agree, Rescheduled;
  }

  lemma TimedKeeps(b: Base, id: Id, when: Time, mem: bool, c: Base)
    requires Timed(b, id, when, mem, c) && CanReserve(b.room, |b.heap| + 1, mem)
    ensures Kept(b, c)
  {
    hide Agree, Put;
    PutKeeps(b, id, when, mem);
    var m := Put(b, id, when, mem);
    if when.common.Some? && m.ctls[when.common.value].events != [] && m.ctls[when.common.value].events[0] == id {
      TimerSetKeeps(m, when.common.value, mem, c);
    }
  }

  /** An event is added while there is room for one more in the heap. */
  lemma AddedKeeps(b: Base, id: Id, tv: Option<Time>, absolute: bool, now: nat, mem: bool, c: Base)
    requires Added(b, id, tv, absolute, now, mem, c) && (tv.Some? ==> CanReserve(b.room, |b.heap| + 1, mem))
    ensures Kept(b, c)
  {
    hide Timed, OthersSame;
    var i := if NeedsInsertion(b.events[id]) then InsertInserted(b, id) else b;
    if tv.Some? {
      TimedKeeps(i.(events := i.events[id := Remember(i.events[id], tv.value, absolute)]), id,
                 DueAt(tv.value, absolute, now), mem, c);
    }
  }

  /** event_add loses nothing if memory can be had, or if the event was not waiting for a timeout: then the
      room that it has reserved is enough. */
  lemma AddKeeps(b: Base, id: Id, tv: Option<Time>, absolute: bool, now: nat, ioOk: bool, mem: bool, c: Base)
    requires id < |b.events| && (mem || !b.events[id].timeout)
    requires var r := Reserved(b, id, tv, mem);
      if AddFails(b, id, tv, ioOk, mem) then c == r else Added(r, id, tv, absolute, now, mem, c)
    ensures Kept(b, c)
  {
    hide Added;
    var r := Reserved(b, id, tv, mem);
    if !AddFails(b, id, tv, ioOk, mem) {
      AddedKeeps(r, id, tv, absolute, now, mem, c);
    }
  }

  // ---- runs

  /** Memory can be had whenever it is asked for. */
  predicate MemoryIn(script: seq<Action>) {
    forall i :: 0 <= i < |script| && script[i].DoAdd? ==> script[i].mem
  }

  predicate MemoryTurn(t: Turn) {
    t.mem && MemoryIn(t.script) && MemoryIn(t.after)
  }

  predicate MemoryRound(r: Round) {
    MemoryIn(r.poll) && forall i :: 0 <= i < |r.turns| ==> MemoryTurn(r.turns[i])
  }

  predicate MemoryRun(hs: seq<Happening>) {
    forall i :: 0 <= i < |hs| ==> match hs[i]
      case Act(a) => MemoryIn([a])
      case Loop(_, rounds) => forall j :: 0 <= j < |rounds| ==> MemoryRound(rounds[j])
  }

  lemma EffectKeeps(b: Base, a: Action, c: Base)
    requires Effect(b, a, c) && (a.DoAdd? ==> a.mem)
    ensures Kept(b, c)
  {
    hide Added, Deleted, Activated, ActivatedLater, Agree;
    if a.DoAdd? && ActionOk(b, a) {
      AddKeeps(b, a.id, a.tv, false, a.now, a.ioOk, a.mem, c);
    }
  }

  lemma {:induction false} PerformedKeeps(b: Base, script: seq<Action>, c: Base)
    requires Performed(b, script, c) && MemoryIn(script)
    ensures Kept(b, c)
  {
    hide Effect;
    if script != [] {
      var front, last := script[..|script| - 1], script[|script| - 1];
      var m :| Performed(b, front, m) && Effect(m, last, c);
      PerformedKeeps(b, front, m);
      EffectKeeps(m, last, c);
      KeptTrans(b, m, c);
    }
  }

  lemma FinishedKeeps(b: Base, id: Id, now: nat, c: Base)
    requires Finished(b, id, now, true, c)
    ensures Kept(b, c)
  {
    hide TimerSet, SameSetup, Requeued;
    var k := TimerOf(b.ctls, id);
    if k >= 0 {
      var m, n :| CommonExpired(b, k, n, now, m) && Rearmed(m, k, true, c);
      if m.ctls[k].events != [] {
        TimerSetKeeps(m, k, true, c);
      }
    }
  }

  lemma CalledKeeps(d: Dispatch, t: Turn, c: Base)
    requires Called(d, t, c) && MemoryTurn(t)
    ensures Kept(d.before, c)
  {
    hide Added, Performed, Finished, Sound, MemoryIn;
    var s, r, p, f :| Started(d.before, d.id, d.pri, s) && Repeated(s, d.id, t, r) && Performed(r, t.script, p)
      && Finished(p, d.id, t.now, t.mem, f) && Performed(f, t.after, c);
    if Repeats(s.events[d.id]) {
      AddKeeps(s, d.id, Some(RunAt(s.events[d.id], t.now, |s.ctls|)), true, t.now, t.ioOk, t.mem, r);
    }
    PerformedKeeps(r, t.script, p);
    FinishedKeeps(p, d.id, t.now, f);
    PerformedKeeps(f, t.after, c);
  }

  lemma {:induction false} CallsKeep(b: Base, ds: seq<Dispatch>, turns: seq<Turn>, c: Base)
    requires Calls(b, ds, turns, c) && forall i :: 0 <= i < |turns| ==> MemoryTurn(turns[i])
    ensures Kept(b, c)
    decreases ds
  {
    hide Called, MemoryTurn;
    if ds != [] {
      var n := |ds| - 1;
      CallsKeep(b, ds[..n], turns, ds[n].before);
      CalledKeeps(ds[n], turns[n], c);
    }
  }

  lemma RoundKeeps(b: Base, r: Round, ds: seq<Dispatch>, c: Base)
    requires RoundRuns(b, r, ds, c) && MemoryRound(r)
    ensures Kept(b, c)
  {
    hide Performed, Sound, Calls, MemoryIn, MemoryTurn, Promoted, Requeued, AllUrgent, Urgent, StrictRound, Stopped;
    hide SteppedDown;
    var l, p, t :| LaterActive(b, l) && Sound(l) && Performed(l, r.poll, p) && Sound(p) && TimedOut(p, r.now, t)
      && Sound(t) && Dispatched(t, r, ds, c);
    PerformedKeeps(l, r.poll, p);
    var ids :| Popped(p, ids, t) && DueIn(p, ids, t, r.now);
    CallsKeep(t, ds, r.turns, c);
  }

  lemma {:induction false} RoundsKeep(b: Base, exitOnEmpty: bool, rounds: seq<Round>, ds: seq<Dispatch>, c: Base,
                                      broke: bool)
    requires RoundsRun(b, exitOnEmpty, rounds, ds, c, broke) && forall j :: 0 <= j < |rounds| ==> MemoryRound(rounds[j])
    ensures Kept(b, c)
  {
    hide RoundRuns, MemoryRound, Idle, Broke;
    if rounds != [] {
      var front, last := rounds[..|rounds| - 1], rounds[|rounds| - 1];
      var m, es, fs :|
        && ds == es + fs && RoundsRun(b, exitOnEmpty, front, es, m, false) && RoundRuns(m, last, fs, c)
        && (exitOnEmpty && !last.virtual ==> !Idle(m)) && broke == Broke(last, fs);
      RoundsKeep(b, exitOnEmpty, front, es, m, false);
      RoundKeeps(m, last, fs, c);
    }
  }

  /** Over every run in which memory for the time heap can be had, no list is lost and no event goes astray:
      whatever common timeout is due fires. */
  lemma {:induction false} NothingLost(b: Base, hs: seq<Happening>, ds: seq<Dispatch>, c: Base)
    requires Leads(b, hs, ds, c) && MemoryRun(hs) && b.lost == {} && !b.strayed
    ensures c.lost == {} && !c.strayed && NoneLost(c, None, {})
  {
    hide RoundsRun, Effect, Ended, MemoryRound, Agree, TimersOk, NoneLost, HeapFits;
    if hs != [] {
      var front, last := hs[..|hs| - 1], hs[|hs| - 1];
      var m, es, fs :| ds == es + fs && Leads(b, front, es, m) && Follows(m, last, fs, c);
      assert forall i :: 0 <= i < |front| ==> front[i] == hs[i];
      NothingLost(b, front, es, m);
      match last {
        case Act(a) =>
          assert [a][0] == a;
          EffectKeeps(m, a, c);
        case Loop(exitOnEmpty, rounds) =>
          var n, broke :| 0 <= n <= |rounds| && RoundsRun(m, exitOnEmpty, rounds[..n], fs, c, broke) &&
            Ended(exitOnEmpty, rounds, n, broke, c);
          RoundsKeep(m, exitOnEmpty, rounds[..n], fs, c, broke);
      }
    }
  }

  // ---- runs without memory

  /** Two lists, an event waiting on the first, and no timer set for the second. */
  ghost predicate OnFirst(b: Base) {
    && |b.queues| == 1 && |b.events| >= 3 && |b.ctls| == 2 && b.ctls[0].timer == 0 && b.ctls[1].timer == 1
    && b.events[2].timeout && b.events[2].when.common == Some(0) && !b.events[2].io && !b.events[2].signal
    && !b.events[1].timeout && !b.events[1].active && b.lost == {} && !b.strayed
  }

  lemma OnlyTheFirstTwo(b: Base, x: Id)
    requires |b.ctls| == 2 && b.ctls[0].timer == 0 && b.ctls[1].timer == 1 && x >= 2
    ensures !IsTimer(b, x)
  {
  }

  method WaitOnFirst() returns (base: EventBase)
    ensures fresh(base) && base.Valid() && base.current == None && OnFirst(base.View())
  {
    hide Agree, TimersOk, NoneLost, IsTimer, Timed;
    base := new EventBase(1);
    var k := base.InitCommonTimeout(1, true);
    k := base.InitCommonTimeout(2, true);
    var id := base.EventAssign(false, false, false);
    ghost var b := base.View();
    OnlyTheFirstTwo(b, 2);
    var _ := base.EventAdd(2, Some(Time(1, Some(0))), false, 0, true, true);
    AddKeeps(b, 2, Some(Time(1, Some(0))), false, 0, true, true, base.View());
    OneTimer(Reserved(b, 2, Some(Time(1, Some(0))), true), 2, Time(1, Some(0)), base.View());
  }

  /** Only the timer of the list that the event goes to is set. */
  lemma OneTimer(b: Base, id: Id, tv: Time, c: Base)
    requires Added(b, id, Some(tv), false, 0, true, c) && tv.common == Some(0) && 1 < |b.ctls|
    requires !NeedsInsertion(b.events[id]) && b.ctls[0].timer != 1 && id != 1 && 1 < |b.events|
    ensures |c.events| == |b.events| && c.events[1] == b.events[1] && |c.ctls| == |b.ctls| && |c.queues| == |b.queues|
    ensures forall i: nat :: i < |b.ctls| ==> c.ctls[i].timer == b.ctls[i].timer
  {
    hide Put, Agree;
    var e := Remember(b.events[id], tv, false);
    var i := b.(events := b.events[id := e]);
    var when := DueAt(tv, false, 0);
    PutFacts(i, id, when, true);
    var m := Put(i, id, when, true);
    if m.ctls[0].events != [] && m.ctls[0].events[0] == id {
      PutFacts(m, m.ctls[0].timer, Time(m.events[m.ctls[0].events[0]].when.usec, None), true);
    }
  }

  /** An event with a timeout of its own goes to the heap. */
  lemma PlainAdded(b: Base, id: Id, tv: Time, c: Base)
    requires Added(b, id, Some(tv), false, 0, false, c) && tv.common == None && |b.heap| + 1 <= b.room
    requires !NeedsInsertion(b.events[id]) && !b.events[id].timeout
    ensures c.heap == b.heap + {id} && id !in b.heap && SameBooks(b, c) && OnlyAbout(b, c, id)
  {
    hide Put, Agree;
    var i := b.(events := b.events[id := Remember(b.events[id], tv, false)]);
    PutFacts(i, id, DueAt(tv, false, 0), false);
    PlainRoom(i, id, DueAt(tv, false, 0));
  }

  lemma PlainRoom(b: Base, id: Id, when: Time)
    requires Agree(b) && id < |b.events| && when.common == None && |b.heap| + 1 <= b.room
    ensures SameBooks(b, Put(b, id, when, false))
  {
    RescheduledHeap(b, id, when);
    hide Agree, Rescheduled;
  }

  /** Events with timeouts of their own until the array of the heap is full. */
  method FillHeap(base: EventBase)
    requires base.Valid() && base.current == None && OnFirst(base.View())
    modifies base
    ensures base.Valid() && base.current == None && OnFirst(base.View()) && |base.heap| >= base.room
  {
    hide Agree, TimersOk, NoneLost, IsTimer, HeapFits, OnFirst, base.Valid;
    while |base.heap| < base.room
      invariant base.Valid() && base.current == None && OnFirst(base.View())
      decreases base.room - |base.heap|
    {
      AddOne(base);
    }
  }

  method AddOne(base: EventBase)
    requires base.Valid() && base.current == None && OnFirst(base.View()) && |base.heap| < base.room
    modifies base
    ensures base.Valid() && base.current == None && OnFirst(base.View())
    ensures base.room == old(base.room) && |base.heap| == |old(base.heap)| + 1
  {
    hide Agree, TimersOk, NoneLost, IsTimer, HeapFits, Added, base.Valid, RoomFor, CanReserve;
    var id := base.EventAssign(false, false, false);
    ghost var b := base.View();
    OnlyTheFirstTwo(b, id.value);
    EnoughRoom(b, id.value, Time(1, None));
    var _ := base.EventAdd(id.value, Some(Time(1, None)), false, 0, true, false);
    PlainAdded(b, id.value, Time(1, None), base.View());
  }

  lemma EnoughRoom(b: Base, id: Id, tv: Time)
    requires id < |b.events| && |b.heap| + 1 <= b.room && !NeedsInsertion(b.events[id])
    ensures Reserved(b, id, Some(tv), false) == b && !AddFails(b, id, Some(tv), true, false)
  {
  }

  /** The heap is full and cannot grow, and the event that waits on the first list is added again. With the
      duration of the second list, event_add succeeds, and that list is lost: it has an event, and its timer
      is neither in the heap nor active. With a timeout of its own, event_add succeeds, and the event is in
      no queue. */
  method MovedAway(plain: bool) returns (base: EventBase, res: int)
    ensures res == 0 && (plain ==> base.strayed)
    ensures !plain ==> base.Valid() && base.current == None && |base.ctls| == 2 && !Ready(base.View(), None, 1)
  {
    hide Agree, TimersOk, NoneLost, IsTimer, HeapFits, Added, base.Valid, Ready;
    base := WaitOnFirst();
    FillHeap(base);
    ghost var b := base.View();
    base.ValidParts();
    OnlyTheFirstTwo(b, 2);
    var tv := Time(2, if plain then None else Some(1));
    res := base.EventAdd(2, Some(tv), false, 0, true, false);
    NoRoomLeft(b, tv, base.View());
  }

  lemma NoRoomLeft(b: Base, tv: Time, c: Base)
    requires OnFirst(b) && |b.heap| >= b.room && Added(b, 2, Some(tv), false, 0, false, c)
    requires tv.common == None || tv.common == Some(1)
    ensures tv.common == None ==> c.strayed
    ensures tv.common == Some(1) ==> |c.ctls| == 2 && !Ready(c, None, 1)
  {
    hide Agree, Put, OthersSame;
    var i := b.(events := b.events[2 := Remember(b.events[2], tv, false)]);
    var when := DueAt(tv, false, 0);
    PutFacts(i, 2, when, false);
    assert i.heap - {2} == i.heap;
    if tv.common == None {
      PutStrays(i, 2, when);
    } else {
      var m := Put(i, 2, when, false);
      OnItsList(m, 2, 1);
      assert m.events[1] == b.events[1] && m.ctls[1].timer == 1;
      if m.ctls[1].events[0] == 2 {
        assert !TimerFits(m.room, |m.heap| + 1, m.events[1], false);
      }
    }
  }

  lemma PutStrays(b: Base, id: Id, when: Time)
    requires Agree(b) && id < |b.events| && when.common == None && |b.heap - {id}| + 1 > b.room
    ensures Put(b, id, when, false).strayed
  {
    hide Agree, Rescheduled;
  }

  lemma OnItsList(b: Base, id: Id, k: nat)
    requires Agree(b) && id < |b.events| && b.events[id].timeout && b.events[id].when.common == Some(k)
    ensures k < |b.ctls| && b.ctls[k].events != []
  {
    assert Placed(b, id);
  }
}
