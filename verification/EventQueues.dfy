/** The queues of an event base on values: active queues by priority, the active-later queue, the
    time heap as a set, the common-timeout lists, and the counters that go with them. */
module EventQueues {
  import opened Options
  import opened Lists

  /** An event, named by the order in which it was set up. */
  type Id = nat

  /** A normalised timeval in microseconds, with the common-timeout index that may be encoded in it. */
  datatype Time = Time(usec: nat, common: Option<nat>)

  /** The fields of struct event that the queues depend on; `io` stands for EV_READ, EV_WRITE or
      EV_CLOSED in ev_events, and `byTimeout` for EV_TIMEOUT in ev_res. */
  datatype Event = Event(
    pri: nat, internal: bool, persist: bool, io: bool, signal: bool,
    inserted: bool, timeout: bool, active: bool, later: bool,
    byTimeout: bool, when: Time, ioTimeout: Time)

  /** struct common_timeout_list: its events, its timer event and its duration. */
  datatype CommonList = CommonList(events: seq<Id>, timer: Id, duration: nat)

  /** The parts of struct event_base that the queues are made of, with the room in the array of the time
      heap. Two are not in the source: the lists whose timer could not be set when it had to be, and has not
      been since, and whether an event went astray because the time heap could not take it. */
  datatype Base = Base(
    events: seq<Event>, queues: seq<seq<Id>>, later: seq<Id>, heap: set<Id>, ctls: seq<CommonList>,
    count: int, countActive: int, room: nat, lost: set<nat>, strayed: bool)

  // ---- agreement of queues, flags and counters

  predicate Below(ids: seq<Id>, n: nat) {
    forall k :: 0 <= k < |ids| ==> ids[k] < n
  }

  /** How many queues an event is on, as event_count sees it. */
  function Weight(e: Event): int {
    if e.internal then 0
    else
      (if e.inserted then 1 else 0) + (if e.timeout then 1 else 0) +
      (if e.active then 1 else 0) + (if e.later then 1 else 0)
  }

  function Weights(es: seq<Event>): int {
    if es == [] then 0 else Weight(es[0]) + Weights(es[1..])
  }

  lemma {:induction false} WeightsUpdate(es: seq<Event>, i: nat, e: Event)
    requires i < |es|
    ensures Weights(es[i := e]) == Weights(es) - Weight(es[i]) + Weight(e)
  {
    if i == 0 {
      assert es[i := e][1..] == es[1..];
    } else {
      assert es[i := e][1..] == es[1..][i - 1 := e];
      WeightsUpdate(es[1..], i - 1, e);
    }
  }

  /** The event is on exactly the queues its flags say. */
  ghost predicate Placed(b: Base, id: Id) {
    id < |b.events| && var e := b.events[id];
    && e.pri < |b.queues| && !(e.active && e.later)
    && (forall p :: 0 <= p < |b.queues| ==> (id in b.queues[p] <==> e.active && e.pri == p))
    && (id in b.later <==> e.later)
    && (id in b.heap <==> e.timeout && e.when.common == None)
    && (e.timeout && e.when.common.Some? ==> e.when.common.value < |b.ctls|)
    && (forall i :: 0 <= i < |b.ctls| ==> (id in b.ctls[i].events <==> e.timeout && e.when.common == Some(i)))
  }

  /** Only known events are on the queues, none twice. */
  ghost predicate Known(b: Base) {
    && (forall p :: 0 <= p < |b.queues| ==> Distinct(b.queues[p]) && Below(b.queues[p], |b.events|))
    && Distinct(b.later) && Below(b.later, |b.events|)
    && (forall x :: x in b.heap ==> x < |b.events|)
    && (forall i :: 0 <= i < |b.ctls| ==> Distinct(b.ctls[i].events) && Below(b.ctls[i].events, |b.events|))
  }

  predicate Counted(b: Base) {
    b.count == Weights(b.events) && b.countActive == Lengths(b.queues) + |b.later|
  }

  ghost predicate Agree(b: Base) {
    (forall id: Id :: id < |b.events| ==> Placed(b, id)) && Known(b) && Counted(b)
  }

  lemma {:induction false} WithoutBelow(ids: seq<Id>, id: Id, n: nat)
    requires Below(ids, n)
    ensures Below(Without(ids, id), n)
  {
    if ids != [] && ids[0] != id {
      WithoutBelow(ids[1..], id, n);
    }
  }

  function One(internal: bool): int {
    if internal then 0 else 1
  }

  // ---- the primitive queue operations

  /** event_queue_insert_active. */
  function InsertActive(b: Base, id: Id): Base
    requires id < |b.events| && b.events[id].pri < |b.queues|
  {
    var e := b.events[id];
    if e.active then b
    else b.(events := b.events[id := e.(active := true)], queues := b.queues[e.pri := b.queues[e.pri] + [id]],
            count := b.count + One(e.internal), countActive := b.countActive + 1)
  }

  /** event_queue_remove_active. */
  function RemoveActive(b: Base, id: Id): Base
    requires id < |b.events| && b.events[id].pri < |b.queues|
  {
    var e := b.events[id];
    b.(events := b.events[id := e.(active := false)], queues := b.queues[e.pri := Without(b.queues[e.pri], id)],
       count := b.count - One(e.internal), countActive := b.countActive - 1)
  }

  /** event_queue_insert_active_later. */
  function InsertLater(b: Base, id: Id): Base
    requires id < |b.events|
  {
    var e := b.events[id];
    if e.active || e.later then b
    else b.(events := b.events[id := e.(later := true)], later := b.later + [id],
            count := b.count + One(e.internal), countActive := b.countActive + 1)
  }

  /** event_queue_remove_active_later. */
  function RemoveLater(b: Base, id: Id): Base
    requires id < |b.events|
  {
    var e := b.events[id];
    b.(events := b.events[id := e.(later := false)], later := Without(b.later, id),
       count := b.count - One(e.internal), countActive := b.countActive - 1)
  }

  /** event_queue_insert_inserted. */
  function InsertInserted(b: Base, id: Id): Base
    requires id < |b.events|
  {
    b.(events := b.events[id := b.events[id].(inserted := true)], count := b.count + One(b.events[id].internal))
  }

  /** event_queue_remove_inserted. */
  function RemoveInserted(b: Base, id: Id): Base
    requires id < |b.events|
  {
    b.(events := b.events[id := b.events[id].(inserted := false)], count := b.count - One(b.events[id].internal))
  }

  /** insert_common_timeout_inorder: after the last event that is not later. */
  function InOrder(es: seq<Event>, ids: seq<Id>, id: Id): seq<Id>
    requires id < |es| && Below(ids, |es|)
  {
    if ids == [] then [id]
    else if es[id].when.usec >= es[ids[|ids| - 1]].when.usec then ids + [id]
    else InOrder(es, ids[..|ids| - 1], id) + [ids[|ids| - 1]]
  }

  /** event_queue_insert_timeout. */
  function InsertTimeout(b: Base, id: Id): Base
    requires id < |b.events| && Known(b)
    requires b.events[id].when.common.Some? ==> b.events[id].when.common.value < |b.ctls|
  {
    var e := b.events[id];
    var c := b.(events := b.events[id := e.(timeout := true)], count := b.count + One(e.internal));
    match e.when.common
    case None => c.(heap := b.heap + {id})
    case Some(i) => c.(ctls := b.ctls[i := b.ctls[i].(events := InOrder(b.events, b.ctls[i].events, id))])
  }

  /** event_queue_remove_timeout. */
  function RemoveTimeout(b: Base, id: Id): Base
    requires id < |b.events|
    requires b.events[id].when.common.Some? ==> b.events[id].when.common.value < |b.ctls|
  {
    var e := b.events[id];
    var c := b.(events := b.events[id := e.(timeout := false)], count := b.count - One(e.internal));
    match e.when.common
    case None => c.(heap := b.heap - {id})
    case Some(i) => c.(ctls := b.ctls[i := b.ctls[i].(events := Without(b.ctls[i].events, id))])
  }

  /** Fields that the queues do not depend on. */
  predicate SamePlace(e: Event, f: Event) {
    && e.pri == f.pri && e.internal == f.internal && e.active == f.active && e.later == f.later
    && e.inserted == f.inserted && e.timeout == f.timeout && (e.timeout ==> e.when == f.when)
  }

  // ---- each of them keeps the agreement

  lemma InsertActiveAgrees(b: Base, id: Id)
    requires Agree(b) && id < |b.events| && !b.events[id].later
    ensures b.events[id].pri < |b.queues| && Agree(InsertActive(b, id))
  {
    assert Placed(b, id);
    var e := b.events[id];
    if !e.active {
      var c := InsertActive(b, id);
      AppendFacts(b.queues[e.pri], id);
      WeightsUpdate(b.events, id, c.events[id]);
      LengthsUpdate(b.queues, e.pri, c.queues[e.pri]);
      hide Placed;
      forall x: Id | x < |c.events| ensures Placed(c, x) {
        InsertActivePlaced(b, id, x);
      }
    }
  }

  lemma InsertActivePlaced(b: Base, id: Id, x: Id)
    requires Placed(b, id) && Placed(b, x) && !b.events[id].later && !b.events[id].active
    ensures Placed(InsertActive(b, id), x)
  {
  }

  lemma RemoveActiveAgrees(b: Base, id: Id)
    requires Agree(b) && id < |b.events| && b.events[id].active
    ensures b.events[id].pri < |b.queues| && Agree(RemoveActive(b, id))
  {
    assert Placed(b, id);
    var e := b.events[id];
    var c := RemoveActive(b, id);
    WithoutFacts(b.queues[e.pri], id);
    WithoutBelow(b.queues[e.pri], id, |b.events|);
    WeightsUpdate(b.events, id, c.events[id]);
    LengthsUpdate(b.queues, e.pri, c.queues[e.pri]);
    forall x: Id | x < |c.events| ensures Placed(c, x) {
      assert Placed(b, x);
    }
  }

  lemma InsertLaterAgrees(b: Base, id: Id)
    requires Agree(b) && id < |b.events|
    ensures Agree(InsertLater(b, id))
  {
    assert Placed(b, id);
    var e := b.events[id];
    if !e.active && !e.later {
      var c := InsertLater(b, id);
      AppendFacts(b.later, id);
      WeightsUpdate(b.events, id, c.events[id]);
      forall x: Id | x < |c.events| ensures Placed(c, x) {
        assert Placed(b, x);
      }
    }
  }

  lemma RemoveLaterAgrees(b: Base, id: Id)
    requires Agree(b) && id < |b.events| && b.events[id].later
    ensures Agree(RemoveLater(b, id))
  {
    assert Placed(b, id);
    var c := RemoveLater(b, id);
    WithoutFacts(b.later, id);
    WithoutBelow(b.later, id, |b.events|);
    WeightsUpdate(b.events, id, c.events[id]);
    forall x: Id | x < |c.events| ensures Placed(c, x) {
      assert Placed(b, x);
    }
  }

  lemma InsertedAgrees(b: Base, id: Id)
    requires Agree(b) && id < |b.events|
    ensures !b.events[id].inserted ==> Agree(InsertInserted(b, id))
    ensures b.events[id].inserted ==> Agree(RemoveInserted(b, id))
  {
    var c := if b.events[id].inserted then RemoveInserted(b, id) else InsertInserted(b, id);
    WeightsUpdate(b.events, id, c.events[id]);
    forall x: Id | x < |c.events| ensures Placed(c, x) {
      assert Placed(b, x);
    }
  }

  lemma SamePlaceAgrees(b: Base, id: Id, e: Event)
    requires Agree(b) && id < |b.events| && SamePlace(b.events[id], e)
    ensures Agree(b.(events := b.events[id := e]))
  {
    var c := b.(events := b.events[id := e]);
    WeightsUpdate(b.events, id, e);
    forall x: Id | x < |c.events| ensures Placed(c, x) {
      assert Placed(b, x);
    }
  }

  lemma {:induction false} InOrderFacts(es: seq<Event>, ids: seq<Id>, id: Id)
    requires id < |es| && Below(ids, |es|) && Distinct(ids) && id !in ids
    ensures |InOrder(es, ids, id)| == |ids| + 1 && Distinct(InOrder(es, ids, id)) && Below(InOrder(es, ids, id), |es|)
    ensures forall x :: x in InOrder(es, ids, id) <==> x in ids || x == id
  {
    if ids == [] {
      return;
    }
    assert ids == ids[..|ids| - 1] + [ids[|ids| - 1]];
    if es[id].when.usec < es[ids[|ids| - 1]].when.usec {
      var front, last := ids[..|ids| - 1], ids[|ids| - 1];
      assert ids == front + [last];
      InOrderFacts(es, front, id);
      assert last !in front;
      AppendFacts(InOrder(es, front, id), last);
    } else {
      AppendFacts(ids, id);
    }
  }

  lemma InsertTimeoutAgrees(b: Base, id: Id)
    requires Agree(b) && id < |b.events| && !b.events[id].timeout
    requires b.events[id].when.common.Some? ==> b.events[id].when.common.value < |b.ctls|
    ensures Agree(InsertTimeout(b, id))
  {
    assert Placed(b, id);
    var e := b.events[id];
    var c := InsertTimeout(b, id);
    if e.when.common.Some? {
      InOrderFacts(b.events, b.ctls[e.when.common.value].events, id);
    }
    WeightsUpdate(b.events, id, c.events[id]);
    forall x: Id | x < |c.events| ensures Placed(c, x) {
      assert Placed(b, x);
    }
  }

  lemma RemoveTimeoutAgrees(b: Base, id: Id)
    requires Agree(b) && id < |b.events| && b.events[id].timeout
    ensures b.events[id].when.common.Some? ==> b.events[id].when.common.value < |b.ctls|
    ensures Agree(RemoveTimeout(b, id))
  {
    assert Placed(b, id);
    var e := b.events[id];
    var c := RemoveTimeout(b, id);
    if e.when.common.Some? {
      WithoutFacts(b.ctls[e.when.common.value].events, id);
      WithoutBelow(b.ctls[e.when.common.value].events, id, |b.events|);
    }
    WeightsUpdate(b.events, id, c.events[id]);
    hide Placed;
    forall x: Id | x < |c.events| ensures Placed(c, x) {
      RemoveTimeoutPlaced(b, id, x);
    }
  }

  lemma RemoveTimeoutPlaced(b: Base, id: Id, x: Id)
    requires Agree(b) && id < |b.events| && b.events[id].timeout && x < |b.events|
    requires b.events[id].when.common.Some? ==> b.events[id].when.common.value < |b.ctls|
    ensures Placed(RemoveTimeout(b, id), x)
  {
    hide Counted;
    assert Placed(b, id) && Placed(b, x);
    if b.events[id].when.common.Some? {
      WithoutFacts(b.ctls[b.events[id].when.common.value].events, id);
    }
  }

  // ---- common timeouts

  /** In order of their times. */
  ghost predicate Sorted(es: seq<Event>, ids: seq<Id>) {
    Below(ids, |es|) && forall i, j :: 0 <= i < j < |ids| ==> es[ids[i]].when.usec <= es[ids[j]].when.usec
  }

  /** The timers of the common-timeout lists are events of their own kind. */
  ghost predicate TimersOk(b: Base) {
    && |b.queues| > 0
    && (forall i :: 0 <= i < |b.ctls| ==> TimerOk(b, b.ctls[i].timer))
    && (forall i, j :: 0 <= i < j < |b.ctls| ==> b.ctls[i].timer != b.ctls[j].timer)
  }

  predicate TimerOk(b: Base, t: Id) {
    && t < |b.events|
    && var e := b.events[t];
       e.internal && e.pri == 0 && !e.persist && !e.io && !e.signal && e.when.common == None && !e.later
  }

  predicate IsTimer(b: Base, id: Id) {
    exists i :: 0 <= i < |b.ctls| && b.ctls[i].timer == id
  }

  /** If list `i` has events, its timer will fire no later than the first of them is due, or has
      fired, or its callback is the one running. */
  ghost predicate Ready(b: Base, current: Option<Id>, i: nat)
    requires i < |b.ctls|
  {
    var l := b.ctls[i];
    l.events != [] ==>
      && l.events[0] < |b.events| && l.timer < |b.events|
      && var t := b.events[l.timer];
         (t.timeout && t.when.usec <= b.events[l.events[0]].when.usec) || t.active || current == Some(l.timer)
  }

  /** No common timeout is lost, lists in `except` aside. */
  ghost predicate NoneLost(b: Base, current: Option<Id>, except: set<nat>) {
    forall i: nat :: i < |b.ctls| ==> Sorted(b.events, b.ctls[i].events) && (i !in except ==> Ready(b, current, i))
  }

  /** Changes to an event that is not a timer and not on a common-timeout list do not matter. */
  lemma OtherEvent(b: Base, c: Base, current: Option<Id>, id: Id, except: set<nat>)
    requires TimersOk(b) && NoneLost(b, current, except) && id < |b.events|
    requires c.ctls == b.ctls && |c.queues| == |b.queues| && |c.events| == |b.events|
    requires forall x: Id :: x < |b.events| && x != id ==> c.events[x] == b.events[x]
    requires c.events[id].when == b.events[id].when || forall i :: 0 <= i < |b.ctls| ==> id !in b.ctls[i].events
    requires !IsTimer(b, id)
    ensures TimersOk(c) && NoneLost(c, current, except)
  {
    forall i: nat | i < |c.ctls|
      ensures Sorted(c.events, c.ctls[i].events) && (i !in except ==> Ready(c, current, i)) &&
        TimerOk(c, c.ctls[i].timer)
    {
      assert Sorted(b.events, b.ctls[i].events) && (i !in except ==> Ready(b, current, i)) &&
        TimerOk(b, b.ctls[i].timer);
      assert b.ctls[i].timer != id;
      assert forall k :: 0 <= k < |b.ctls[i].events| ==>
        c.events[b.ctls[i].events[k]].when == b.events[b.ctls[i].events[k]].when;
    }
  }

  /** The first event of `now`, if any, is due no earlier than the first of `before`. */
  ghost predicate NotEarlier(es: seq<Event>, before: seq<Id>, now: seq<Id>) {
    now != [] ==> before != [] && before[0] < |es| && now[0] < |es| && es[before[0]].when.usec <= es[now[0]].when.usec
  }

  lemma {:induction false} WithoutSorted(es: seq<Event>, ids: seq<Id>, id: Id)
    requires Sorted(es, ids)
    ensures Sorted(es, Without(ids, id))
    ensures NotEarlier(es, ids, Without(ids, id))
  {
    if ids != [] {
      var rest := ids[1..];
      SortedRest(es, ids);
      if ids[0] != id {
        WithoutSorted(es, rest, id);
        WithoutAtLeast(es, rest, id, es[ids[0]].when.usec);
        SortedCons(es, ids[0], Without(rest, id));
      }
    }
  }

  /** No event of the list is due before `bound`. */
  ghost predicate AtLeast(es: seq<Event>, ids: seq<Id>, bound: nat) {
    Below(ids, |es|) && forall k :: 0 <= k < |ids| ==> es[ids[k]].when.usec >= bound
  }

  lemma SortedRest(es: seq<Event>, ids: seq<Id>)
    requires Sorted(es, ids) && ids != []
    ensures ids[0] < |es| && Sorted(es, ids[1..]) && AtLeast(es, ids[1..], es[ids[0]].when.usec)
  {
  }

  lemma SortedCons(es: seq<Event>, id: Id, ids: seq<Id>)
    requires id < |es| && Sorted(es, ids) && AtLeast(es, ids, es[id].when.usec)
    ensures Sorted(es, [id] + ids)
  {
  }

  lemma {:induction false} WithoutAtLeast(es: seq<Event>, ids: seq<Id>, id: Id, bound: nat)
    requires AtLeast(es, ids, bound)
    ensures AtLeast(es, Without(ids, id), bound)
  {
    if ids != [] && ids[0] != id {
      WithoutAtLeast(es, ids[1..], id, bound);
    }
  }

  /** No event of the list is due after `bound`. */
  ghost predicate AtMost(es: seq<Event>, ids: seq<Id>, bound: nat) {
    Below(ids, |es|) && forall k :: 0 <= k < |ids| ==> es[ids[k]].when.usec <= bound
  }

  lemma {:induction false} InOrderAtMost(es: seq<Event>, ids: seq<Id>, id: Id, bound: nat)
    requires id < |es| && AtMost(es, ids, bound) && es[id].when.usec <= bound
    ensures AtMost(es, InOrder(es, ids, id), bound)
  {
    if ids != [] && es[id].when.usec < es[ids[|ids| - 1]].when.usec {
      InOrderAtMost(es, ids[..|ids| - 1], id, bound);
    }
  }

  /** The list stays sorted, and only the new event can come before the one that was first. */
  lemma {:induction false} InOrderSorted(es: seq<Event>, ids: seq<Id>, id: Id)
    requires id < |es| && Sorted(es, ids)
    ensures Sorted(es, InOrder(es, ids, id))
    ensures InOrder(es, ids, id) != [] &&
      (InOrder(es, ids, id)[0] == id || (ids != [] && InOrder(es, ids, id)[0] == ids[0]))
  {
    hide Sorted, AtMost, Below;
    if ids == [] {
      SortedNone(es);
      SortedSnoc(es, [], id);
      assert [] + [id] == [id];
    } else {
      var front, last := ids[..|ids| - 1], ids[|ids| - 1];
      SortedFront(es, ids);
      if es[id].when.usec < es[last].when.usec {
        InOrderSorted(es, front, id);
        InOrderAtMost(es, front, id, es[last].when.usec);
        SortedSnoc(es, InOrder(es, front, id), last);
      } else {
        SortedSnoc(es, ids, id);
      }
    }
  }

  lemma SortedNone(es: seq<Event>)
    ensures Sorted(es, []) && forall n: nat :: AtMost(es, [], n)
  {
  }

  lemma SortedSnoc(es: seq<Event>, ids: seq<Id>, id: Id)
    requires Sorted(es, ids) && id < |es| && AtMost(es, ids, es[id].when.usec)
    ensures Sorted(es, ids + [id])
  {
  }

  lemma SortedFront(es: seq<Event>, ids: seq<Id>)
    requires Sorted(es, ids) && ids != []
    ensures ids[|ids| - 1] < |es| && Below(ids, |es|) && Below(ids[..|ids| - 1], |es|)
    ensures Sorted(es, ids[..|ids| - 1]) && AtMost(es, ids[..|ids| - 1], es[ids[|ids| - 1]].when.usec)
    ensures forall n: nat :: es[ids[|ids| - 1]].when.usec <= n ==> AtMost(es, ids, n)
  {
  }

  /** A timeout is removed from a common-timeout list: the first event, if any, is due no earlier. */
  lemma RemoveTimeoutNoneLost(b: Base, current: Option<Id>, id: Id, except: set<nat>)
    requires Agree(b) && TimersOk(b) && NoneLost(b, current, except) && id < |b.events| && b.events[id].timeout &&
      !IsTimer(b, id)
    ensures b.events[id].when.common.Some? ==> b.events[id].when.common.value < |b.ctls|
    ensures TimersOk(RemoveTimeout(b, id)) && NoneLost(RemoveTimeout(b, id), current, except)
  {
    assert Placed(b, id);
    var e := b.events[id];
    var c := RemoveTimeout(b, id);
    if e.when.common.None? {
      OtherEvent(b, c, current, id, except);
    } else {
      var k := e.when.common.value;
      var m := b.(events := c.events);
      OtherEvent(b, m, current, id, except);
      hide Agree, Placed, Ready, NotEarlier, TimersOk;
      WithoutSorted(m.events, m.ctls[k].events, id);
      ListChanged(m, c, current, k, except);
    }
  }

  /** List `k` changes; it stays sorted, and its first event, if any, is not an earlier one. */
  lemma ListChanged(b: Base, c: Base, current: Option<Id>, k: nat, except: set<nat>)
    requires TimersOk(b) && NoneLost(b, current, except) && k < |b.ctls|
    requires c.events == b.events && |c.queues| == |b.queues| && |c.ctls| == |b.ctls| &&
      c.ctls[k].timer == b.ctls[k].timer
    requires forall i: nat :: i < |b.ctls| && i != k ==> c.ctls[i] == b.ctls[i]
    requires Sorted(c.events, c.ctls[k].events)
    requires k in except || NotEarlier(b.events, b.ctls[k].events, c.ctls[k].events)
    ensures TimersOk(c) && NoneLost(c, current, except)
  {
    forall i: nat | i < |c.ctls|
      ensures Sorted(c.events, c.ctls[i].events) && (i !in except ==> Ready(c, current, i)) &&
        TimerOk(c, c.ctls[i].timer)
    {
      assert Sorted(b.events, b.ctls[i].events) && (i !in except ==> Ready(b, current, i)) &&
        TimerOk(b, b.ctls[i].timer);
    }
  }

  /** A timeout is inserted: only the list it goes to can be affected, and only if it comes first. */
  lemma InsertTimeoutNoneLost(b: Base, current: Option<Id>, id: Id, except: set<nat>)
    requires Agree(b) && TimersOk(b) && NoneLost(b, current, except) && id < |b.events| && !b.events[id].timeout &&
      !IsTimer(b, id)
    requires b.events[id].when.common.Some? ==> b.events[id].when.common.value < |b.ctls|
    ensures var c := InsertTimeout(b, id); var com := b.events[id].when.common;
      && TimersOk(c)
      && (com.None? ==> NoneLost(c, current, except))
      && (com.Some? ==> c.ctls[com.value].events != [] && NoneLost(c, current, except + {com.value}))
      && (com.Some? && c.ctls[com.value].events[0] != id ==> NoneLost(c, current, except))
  {
    assert Placed(b, id);
    var e := b.events[id];
    var c := InsertTimeout(b, id);
    if e.when.common.None? {
      OtherEvent(b, c, current, id, except);
    } else {
      var k := e.when.common.value;
      var m := b.(events := c.events);
      OtherEvent(b, m, current, id, except);
      InOrderSame(b.events, m.events, b.ctls[k].events, id);
      InOrderSorted(m.events, m.ctls[k].events, id);
      assert NoneLost(m, current, except + {k});
      ListChanged(m, c, current, k, except + {k});
      if c.ctls[k].events[0] != id {
        assert Sorted(m.events, m.ctls[k].events);
        ListChanged(m, c, current, k, except);
      }
    }
  }

  lemma {:induction false} InOrderSame(es: seq<Event>, fs: seq<Event>, ids: seq<Id>, id: Id)
    requires |es| == |fs| && id < |es| && Below(ids, |es|) && forall x: Id :: x < |es| ==> es[x].when == fs[x].when
    ensures InOrder(es, ids, id) == InOrder(fs, ids, id)
  {
    if ids != [] {
      InOrderSame(es, fs, ids[..|ids| - 1], id);
    }
  }

  /** The timer of list `k` changes. */
  lemma TimerChanged(b: Base, c: Base, current: Option<Id>, k: nat, except: set<nat>)
    requires Agree(b) && TimersOk(b) && NoneLost(b, current, except) && k < |b.ctls|
    requires c.ctls == b.ctls && |c.queues| == |b.queues| && |c.events| == |b.events|
    requires forall x: Id :: x < |b.events| && x != b.ctls[k].timer ==> c.events[x] == b.events[x]
    requires TimerOk(c, b.ctls[k].timer)
    ensures TimersOk(c) && NoneLost(c, current, except + {k})
    ensures Ready(c, current, k) ==> NoneLost(c, current, except - {k})
  {
    var t := b.ctls[k].timer;
    assert TimerOk(b, t) && Placed(b, t);
    forall i: nat | i < |c.ctls|
      ensures Sorted(c.events, c.ctls[i].events) && (i !in except && i != k ==> Ready(c, current, i)) &&
        TimerOk(c, c.ctls[i].timer)
    {
      assert Sorted(b.events, b.ctls[i].events) && (i !in except ==> Ready(b, current, i)) &&
        TimerOk(b, b.ctls[i].timer);
      assert t !in b.ctls[i].events;
      assert i != k ==> b.ctls[i].timer != t;
    }
  }

  // ---- adding, deleting and activating

  /** An event that a timeout made active is no longer so once it has another timeout. */
  predicate StaysActive(e: Event) {
    e.active && !e.byTimeout
  }

  /** The event with another timeout. */
  function Retimed(e: Event, when: Time): (f: Event)
    ensures f.pri == e.pri && f.internal == e.internal && f.timeout && f.when == when
  {
    e.(timeout := true, when := when, active := StaysActive(e))
  }

  /** Taken off the timeout queues, and off the active queue if a timeout put it there. */
  ghost function Unscheduled(b: Base, id: Id): (c: Base)
    requires Agree(b) && id < |b.events|
    ensures Agree(c) && |c.events| == |b.events| && !c.events[id].timeout && |c.ctls| == |b.ctls| &&
      |c.queues| == |b.queues|
  {
    var b1 := if b.events[id].timeout then RemoveTimeoutAgrees(b, id); RemoveTimeout(b, id) else b;
    var e := b1.events[id];
    if e.active && e.byTimeout then RemoveActiveAgrees(b1, id); RemoveActive(b1, id) else b1
  }

  /** ... and put back on them for another time. */
  ghost function Rescheduled(b: Base, id: Id, when: Time): (c: Base)
    requires Agree(b) && id < |b.events| && (when.common.Some? ==> when.common.value < |b.ctls|)
    ensures Agree(c) && |c.events| == |b.events| && |c.ctls| == |b.ctls|
  {
    var u := Unscheduled(b, id);
    var e := u.events[id].(when := when);
    SamePlaceAgrees(u, id, e);
    var v := u.(events := u.events[id := e]);
    InsertTimeoutAgrees(v, id);
    InsertTimeout(v, id)
  }

  /** All that differs between the two is the event itself and the queues it is on. */
  ghost predicate OnlyAbout(b: Base, c: Base, id: Id) {
    && |c.events| == |b.events| && |c.queues| == |b.queues| && |c.ctls| == |b.ctls| && c.later == b.later
    && (forall x: Id :: x < |b.events| && x != id ==> c.events[x] == b.events[x])
    && (forall q :: 0 <= q < |b.queues| && b.queues[q] == [] ==> c.queues[q] == [])
    && (forall i: nat :: i < |b.ctls| ==> c.ctls[i].timer == b.ctls[i].timer)
  }

  lemma UnscheduledFacts(b: Base, id: Id)
    requires Agree(b) && id < |b.events|
    ensures var c := Unscheduled(b, id);
      OnlyAbout(b, c, id) && c.events[id] == b.events[id].(timeout := false, active := StaysActive(b.events[id]))
  {
    hide RemoveTimeout, RemoveActive, OnlyAbout, Agree;
    SameOnlyAbout(b, id);
    var b1 := b;
    if b.events[id].timeout {
      RemoveTimeoutAgrees(b, id);
      b1 := RemoveTimeout(b, id);
      RemoveTimeoutFacts(b, id);
    }
    var e := b1.events[id];
    if e.active && e.byTimeout {
      RemoveActiveAgrees(b1, id);
      RemoveActiveFacts(b1, id);
      OnlyAboutTrans(b, b1, RemoveActive(b1, id), id);
    }
  }

  lemma SameOnlyAbout(b: Base, id: Id)
    ensures OnlyAbout(b, b, id)
  {
  }

  lemma OnlyAboutTrans(b: Base, m: Base, c: Base, id: Id)
    requires OnlyAbout(b, m, id) && OnlyAbout(m, c, id)
    ensures OnlyAbout(b, c, id)
  {
  }

  lemma RemoveTimeoutFacts(b: Base, id: Id)
    requires id < |b.events| && (b.events[id].when.common.Some? ==> b.events[id].when.common.value < |b.ctls|)
    ensures var c := RemoveTimeout(b, id); OnlyAbout(b, c, id) && c.events[id] == b.events[id].(timeout := false)
  {
  }

  lemma RemoveActiveFacts(b: Base, id: Id)
    requires id < |b.events| && b.events[id].pri < |b.queues|
    ensures var c := RemoveActive(b, id); OnlyAbout(b, c, id) && c.events[id] == b.events[id].(active := false)
  {
    var p := b.events[id].pri;
    assert b.queues[p] == [] ==> Without(b.queues[p], id) == [];
  }

  lemma InsertTimeoutFacts(b: Base, id: Id)
    requires Known(b) && id < |b.events| &&
      (b.events[id].when.common.Some? ==> b.events[id].when.common.value < |b.ctls|)
    ensures var c := InsertTimeout(b, id); OnlyAbout(b, c, id) && c.events[id] == b.events[id].(timeout := true)
  {
  }

  lemma RetimedInSteps(e: Event, f: Event, g: Event, when: Time)
    requires f == e.(timeout := false, active := StaysActive(e)) && g == f.(when := when).(timeout := true)
    ensures g == Retimed(e, when)
  {
  }

  /** Off the queues, another time, and back on. */
  lemma RescheduledSteps(b: Base, id: Id, when: Time)
    requires Agree(b) && id < |b.events| && (when.common.Some? ==> when.common.value < |b.ctls|)
    ensures var u := Unscheduled(b, id);
      var v := u.(events := u.events[id := u.events[id].(when := when)]);
      Agree(v) && Known(v) && Rescheduled(b, id, when) == InsertTimeout(v, id)
  {
    hide Agree, Known, Unscheduled, InsertTimeout;
    var u := Unscheduled(b, id);
    var e := u.events[id].(when := when);
    SamePlaceAgrees(u, id, e);
    QueuesKnown(u.(events := u.events[id := e]));
  }

  lemma OtherWhen(b: Base, c: Base, id: Id)
    requires id < |b.events| == |c.events| && c == b.(events := b.events[id := c.events[id]])
    ensures OnlyAbout(b, c, id)
  {
  }

  /** What rescheduling leaves alone. */
  lemma RescheduledFacts(b: Base, id: Id, when: Time)
    requires Agree(b) && id < |b.events| && (when.common.Some? ==> when.common.value < |b.ctls|)
    ensures var c := Rescheduled(b, id, when);
      OnlyAbout(b, c, id) && c.events[id] == Retimed(b.events[id], when)
  {
    hide Agree, Known, OnlyAbout, Unscheduled, InsertTimeout, Rescheduled, Retimed, StaysActive;
    UnscheduledFacts(b, id);
    RescheduledSteps(b, id, when);
    var u := Unscheduled(b, id);
    var v := u.(events := u.events[id := u.events[id].(when := when)]);
    InsertTimeoutFacts(v, id);
    RetimedInSteps(b.events[id], u.events[id], InsertTimeout(v, id).events[id], when);
    OtherWhen(u, v, id);
    OnlyAboutTrans(b, u, v, id);
    OnlyAboutTrans(b, v, InsertTimeout(v, id), id);
  }

  /** A user's event: the lists stay in order, and only one that it now heads may need its timer set. */
  lemma RescheduledNoneLost(b: Base, current: Option<Id>, id: Id, when: Time, except: set<nat>)
    requires Agree(b) && TimersOk(b) && NoneLost(b, current, except) && id < |b.events| && !IsTimer(b, id)
    requires when.common.Some? ==> when.common.value < |b.ctls|
    ensures var c := Rescheduled(b, id, when);
      && TimersOk(c) && |c.ctls| == |b.ctls|
      && (when.common.None? ==> NoneLost(c, current, except))
      && (when.common.Some? ==>
            c.ctls[when.common.value].events != [] && NoneLost(c, current, except + {when.common.value}))
      && (when.common.Some? && c.ctls[when.common.value].events[0] != id ==> NoneLost(c, current, except))
  {
    hide NoneLost, TimersOk, Agree, IsTimer, Unscheduled, InsertTimeout;
    RescheduledFacts(b, id, when);
    UnscheduledNoneLost(b, current, id, except);
    var u := Unscheduled(b, id);
    NotOnLists(u, id);
    var e := u.events[id].(when := when);
    SamePlaceAgrees(u, id, e);
    var v := u.(events := u.events[id := e]);
    OtherEvent(u, v, current, id, except);
    SameLists(u, v, id);
    InsertTimeoutNoneLost(v, current, id, except);
  }

  /** Taking a user's event off the timeout queues, and perhaps off the active queue, loses nothing. */
  lemma UnscheduledNoneLost(b: Base, current: Option<Id>, id: Id, except: set<nat>)
    requires Agree(b) && TimersOk(b) && NoneLost(b, current, except) && id < |b.events| && !IsTimer(b, id)
    ensures var u := Unscheduled(b, id); TimersOk(u) && NoneLost(u, current, except) && !IsTimer(u, id)
  {
    hide NoneLost, TimersOk, Agree;
    var b1 := b;
    if b.events[id].timeout {
      RemoveTimeoutAgrees(b, id);
      RemoveTimeoutNoneLost(b, current, id, except);
      b1 := RemoveTimeout(b, id);
    }
    assert !IsTimer(b1, id) && Agree(b1) && TimersOk(b1) && NoneLost(b1, current, except);
    OtherEvent(b1, Unscheduled(b, id), current, id, except);
  }

  /** An event that waits for no timeout is on no list. */
  lemma NotOnLists(b: Base, id: Id)
    requires Agree(b) && id < |b.events| && !b.events[id].timeout
    ensures forall i :: 0 <= i < |b.ctls| ==> id !in b.ctls[i].events
  {
    assert Placed(b, id);
  }

  lemma SameLists(b: Base, c: Base, id: Id)
    requires c.ctls == b.ctls
    ensures IsTimer(c, id) <==> IsTimer(b, id)
  {
  }

  /** Setting the timer of a list for its first event makes the list ready. */
  lemma TimerRescheduled(b: Base, current: Option<Id>, k: nat, except: set<nat>)
    requires Agree(b) && TimersOk(b) && NoneLost(b, current, except + {k}) && k < |b.ctls| && b.ctls[k].events != []
    ensures b.ctls[k].events[0] < |b.events| && b.ctls[k].timer < |b.events|
    ensures var c := Rescheduled(b, b.ctls[k].timer, Time(b.events[b.ctls[k].events[0]].when.usec, None));
      TimersOk(c) && Ready(c, None, k) && NoneLost(c, current, except - {k}) &&
        (current == Some(b.ctls[k].timer) ==> NoneLost(c, None, except - {k}))
  {
    var t, head := b.ctls[k].timer, b.ctls[k].events[0];
    assert TimerOk(b, t) && Placed(b, t) && Sorted(b.events, b.ctls[k].events);
    assert head in b.ctls[k].events && t !in b.ctls[k].events;
    var when := Time(b.events[head].when.usec, None);
    var c := Rescheduled(b, t, when);
    RescheduledFacts(b, t, when);
    TimerListsKept(b, t, when);
    hide Agree, Placed, Rescheduled;
    TimerChanged(b, c, current, k, except + {k});
    assert except + {k} - {k} == except - {k};
    if current == Some(t) {
      CurrentMatters(b, t, k, except + {k});
      TimerChanged(b, c, None, k, except + {k});
    }
  }

  lemma TimerListsKept(b: Base, t: Id, when: Time)
    requires Agree(b) && t < |b.events| && b.events[t].when.common == None && when.common == None
    ensures Rescheduled(b, t, when).ctls == b.ctls
  {
    hide Agree;
  }

  /** Only the list whose timer is running depends on its running. */
  lemma CurrentMatters(b: Base, t: Id, k: nat, except: set<nat>)
    requires TimersOk(b) && k < |b.ctls| && b.ctls[k].timer == t && NoneLost(b, Some(t), except) && k in except
    ensures NoneLost(b, None, except)
  {
    forall i: nat | i < |b.ctls| && i !in except ensures Ready(b, None, i) {
      assert Ready(b, Some(t), i) && b.ctls[i].timer != t;
    }
  }

  /** Off all queues. */
  function Off(e: Event): Event {
    e.(timeout := false, active := false, later := false, inserted := false)
  }

  /** The event is nowhere to be found. */
  ghost predicate OnNoQueue(b: Base, id: Id) {
    && id < |b.events| && id !in b.later && id !in b.heap
    && (forall p :: 0 <= p < |b.queues| ==> id !in b.queues[p])
    && (forall i :: 0 <= i < |b.ctls| ==> id !in b.ctls[i].events)
    && !b.events[id].inserted && !b.events[id].active && !b.events[id].later && !b.events[id].timeout
  }

  lemma OffEverywhere(b: Base, id: Id)
    requires Agree(b) && id < |b.events| && b.events[id] == Off(b.events[id])
    ensures OnNoQueue(b, id)
  {
    assert Placed(b, id);
  }

  /** `c` is `b` with the event taken off all queues. */
  ghost predicate Deleted(b: Base, c: Base, id: Id)
    requires Agree(b) && id < |b.events|
  {
    && c.events == b.events[id := Off(b.events[id])]
    && c.queues == (if b.events[id].active then NotBoth(b, id); RemoveActive(b, id).queues else b.queues)
    && c.later == (if b.events[id].later then RemoveLater(b, id).later else b.later)
    && TimeoutGone(b, c, id)
  }

  /** The event is gone from the heap or list it was waiting on. */
  ghost predicate TimeoutGone(b: Base, c: Base, id: Id)
    requires Agree(b) && id < |b.events|
  {
    if b.events[id].timeout then
      RemoveTimeoutAgrees(b, id);
      var m := RemoveTimeout(b, id);
      c.ctls == m.ctls && c.heap == m.heap
    else c.ctls == b.ctls && c.heap == b.heap
  }

  lemma SameTimeouts(b: Base, m: Base, c: Base, id: Id)
    requires Agree(b) && id < |b.events| && TimeoutGone(b, m, id) && c.ctls == m.ctls && c.heap == m.heap
    ensures TimeoutGone(b, c, id)
  {
    hide Agree;
  }

  /** Taken off the timeout queues, off the active queues, and out of the evmap. */
  lemma DeletedInSteps(b: Base, m: Base, n: Base, c: Base, id: Id)
    requires Agree(b) && id < |b.events| && TimeoutGone(b, m, id) && m.queues == b.queues && m.later == b.later
    requires m.events == b.events[id := b.events[id].(timeout := false)] && b.events[id].pri < |b.queues|
    requires n.events == m.events[id := m.events[id].(active := false, later := false)]
    requires n.queues == if m.events[id].active then RemoveActive(m, id).queues else m.queues
    requires n.later == if m.events[id].later then RemoveLater(m, id).later else m.later
    requires c.events == n.events[id := n.events[id].(inserted := false)] && c.queues == n.queues && c.later == n.later
    requires c.ctls == m.ctls && c.heap == m.heap
    ensures Deleted(b, c, id)
  {
    hide Agree, TimeoutGone, RemoveActive, RemoveLater;
    SameRemoval(b, m, id);
    SameTimeouts(b, m, c, id);
  }

  lemma DeletedQueues(b: Base, c: Base, id: Id)
    requires Agree(b) && id < |b.events| && Deleted(b, c, id)
    ensures |c.queues| == |b.queues| && StillEmpty(b, c)
  {
    hide Agree;
    NotBoth(b, id);
    RemoveActiveFacts(b, id);
  }

  lemma DeletedNoneLost(b: Base, c: Base, current: Option<Id>, id: Id, except: set<nat>)
    requires Agree(b) && TimersOk(b) && NoneLost(b, current, except) && id < |b.events| && !IsTimer(b, id) &&
      Deleted(b, c, id)
    ensures TimersOk(c) && NoneLost(c, current, except)
  {
    hide NoneLost, TimersOk;
    DeletedQueues(b, c, id);
    var m := b;
    if b.events[id].timeout {
      RemoveTimeoutAgrees(b, id);
      RemoveTimeoutNoneLost(b, current, id, except);
      m := RemoveTimeout(b, id);
    }
    assert !IsTimer(m, id);
    OtherEvent(m, c, current, id, except);
  }

  /** What only the set-up of events decides is the same. */
  ghost predicate SameSetup(b: Base, c: Base) {
    && |c.events| == |b.events| && |c.queues| == |b.queues| && |c.ctls| == |b.ctls|
    && (forall i: nat :: i < |b.ctls| ==> c.ctls[i].timer == b.ctls[i].timer)
    && (forall x: Id :: x < |b.events| ==>
          c.events[x].pri == b.events[x].pri && c.events[x].internal == b.events[x].internal)
  }

  /** `c` is `b` with the event made active. */
  ghost predicate Activated(b: Base, c: Base, id: Id) {
    && id < |b.events| && b.events[id].pri < |b.queues| && |c.events| == |b.events| && |c.queues| == |b.queues|
    && (forall x: Id :: x < |b.events| && x != id ==> c.events[x] == b.events[x])
    && c.events[id] == b.events[id].(active := true, later := false, byTimeout := c.events[id].byTimeout)
    && c.ctls == b.ctls && c.heap == b.heap
    && c.queues == (if b.events[id].active then b.queues else InsertActive(b, id).queues)
    && c.later == (if b.events[id].later then RemoveLater(b, id).later else b.later)
  }

  /** Only timers are affected by what is running. */
  lemma CurrentIrrelevant(b: Base, id: Id, except: set<nat>)
    requires NoneLost(b, Some(id), except) && !IsTimer(b, id)
    ensures NoneLost(b, None, except)
  {
    forall i: nat | i < |b.ctls| && i !in except ensures Ready(b, None, i) {
      assert Ready(b, Some(id), i);
    }
  }

  lemma CurrentHelps(b: Base, id: Id, except: set<nat>)
    requires NoneLost(b, None, except)
    ensures NoneLost(b, Some(id), except)
  {
    forall i: nat | i < |b.ctls| ensures Sorted(b.events, b.ctls[i].events) &&
      (i !in except ==> Ready(b, Some(id), i)) {
      assert i !in except ==> Ready(b, None, i);
    }
  }

  /** A list without events needs no timer. */
  lemma EmptyList(b: Base, t: Id, k: nat, except: set<nat>)
    requires TimersOk(b) && k < |b.ctls| && b.ctls[k].timer == t && NoneLost(b, Some(t), except) &&
      b.ctls[k].events == []
    ensures NoneLost(b, None, except - {k})
  {
    FewerReady(b, Some(t), except, k);
    CurrentMatters(b, t, k, except + {k});
    assert Ready(b, None, k);
  }

  /** An event on a common-timeout list is not itself a timer. */
  lemma ListedNotTimer(b: Base, k: nat)
    requires Agree(b) && TimersOk(b) && k < |b.ctls| && b.ctls[k].events != []
    ensures b.ctls[k].events[0] < |b.events| && !IsTimer(b, b.ctls[k].events[0])
    ensures b.events[b.ctls[k].events[0]].timeout && b.events[b.ctls[k].events[0]].when.common == Some(k)
  {
    var head := b.ctls[k].events[0];
    assert Known(b) && Below(b.ctls[k].events, |b.events|);
    assert head in b.ctls[k].events && Placed(b, head);
    assert forall i :: 0 <= i < |b.ctls| ==> TimerOk(b, b.ctls[i].timer);
  }

  /** A timer that is deleted and made active, or deleted to be run, keeps its list ready. */
  lemma TimerExpired(b: Base, c: Base, current: Option<Id>, k: nat, except: set<nat>)
    requires Agree(b) && TimersOk(b) && NoneLost(b, current, except) && k < |b.ctls| && c.ctls == b.ctls
    requires |c.queues| == |b.queues| && |c.events| == |b.events|
    requires b.ctls[k].timer < |b.events|
    requires var t := b.ctls[k].timer; c.events[t] == b.events[t].(timeout := c.events[t].timeout, active := true,
      later := false, inserted := c.events[t].inserted, byTimeout := c.events[t].byTimeout)
    requires forall x: Id :: x < |b.events| && x != b.ctls[k].timer ==> c.events[x] == b.events[x]
    ensures TimersOk(c) && NoneLost(c, current, except)
  {
    var t := b.ctls[k].timer;
    assert TimerOk(b, t) && Placed(b, t) && Sorted(b.events, b.ctls[k].events);
    TimerChanged(b, c, current, k, except);
  }

  lemma TimerStarts(b: Base, c: Base, k: nat, except: set<nat>)
    requires Agree(b) && TimersOk(b) && NoneLost(b, None, except) && k < |b.ctls| && c.ctls == b.ctls
    requires |c.queues| == |b.queues| && |c.events| == |b.events|
    requires b.ctls[k].timer < |b.events| && c.events == b.events[b.ctls[k].timer := Off(b.events[b.ctls[k].timer])]
    ensures TimersOk(c) && NoneLost(c, Some(b.ctls[k].timer), except)
  {
    var t := b.ctls[k].timer;
    CurrentHelps(b, t, except);
    assert TimerOk(b, t) && Placed(b, t) && Sorted(b.events, b.ctls[k].events);
    TimerChanged(b, c, Some(t), k, except);
  }

  lemma DeletedTimerLists(b: Base, c: Base, id: Id)
    requires Agree(b) && id < |b.events| && Deleted(b, c, id) && b.events[id].when.common == None
    ensures c.ctls == b.ctls && c.heap == b.heap - {id}
  {
    assert Placed(b, id);
  }

  /** What min_heap_top_ may return. */
  predicate IsTop(es: seq<Event>, heap: set<Id>, id: Id) {
    id in heap && id < |es| && forall x :: x in heap && x < |es| ==> es[id].when.usec <= es[x].when.usec
  }

  lemma {:induction false} TopExists(es: seq<Event>, heap: set<Id>)
    requires heap != {} && forall x :: x in heap ==> x < |es|
    ensures exists id :: IsTop(es, heap, id)
  {
    var a :| a in heap;
    var rest := heap - {a};
    if rest == {} {
      assert forall x :: x in heap ==> x == a || x in rest;
      assert IsTop(es, heap, a);
    } else {
      TopExists(es, rest);
      var m :| IsTop(es, rest, m);
      TopOfMore(es, heap, a, m);
    }
  }

  lemma TopOfMore(es: seq<Event>, heap: set<Id>, a: Id, m: Id)
    requires a in heap && a < |es| && IsTop(es, heap - {a}, m)
    ensures IsTop(es, heap, a) || IsTop(es, heap, m)
  {
    forall x | x in heap && x < |es|
      ensures es[a].when.usec <= es[x].when.usec || es[m].when.usec <= es[x].when.usec
    {
      assert x == a || x in heap - {a};
    }
  }

  lemma SameTimers(b: Base, c: Base, id: Id)
    requires SameSetup(b, c)
    ensures IsTimer(b, id) <==> IsTimer(c, id)
  {
    if IsTimer(b, id) {
      var i :| 0 <= i < |b.ctls| && b.ctls[i].timer == id;
      assert c.ctls[i].timer == id;
    }
    if IsTimer(c, id) {
      var i :| 0 <= i < |c.ctls| && c.ctls[i].timer == id;
      assert b.ctls[i].timer == id;
    }
  }

  lemma SetupTrans(b: Base, m: Base, c: Base)
    requires SameSetup(b, m) && SameSetup(m, c)
    ensures SameSetup(b, c)
  {
  }

  lemma OnlyAboutSetup(b: Base, c: Base, id: Id)
    requires OnlyAbout(b, c, id) && id < |b.events| && c.events[id].pri == b.events[id].pri &&
      c.events[id].internal == b.events[id].internal
    ensures SameSetup(b, c)
  {
  }

  /** No queue below `p` has become non-empty. */
  ghost predicate StillEmpty(b: Base, c: Base) {
    |c.queues| == |b.queues| && forall q :: 0 <= q < |b.queues| && b.queues[q] == [] ==> c.queues[q] == []
  }

  lemma OnlyAboutEmpty(b: Base, c: Base, id: Id)
    requires OnlyAbout(b, c, id)
    ensures StillEmpty(b, c)
  {
  }

  lemma EmptyTrans(b: Base, m: Base, c: Base)
    requires StillEmpty(b, m) && StillEmpty(m, c)
    ensures StillEmpty(b, c)
  {
  }

  lemma SameItself(b: Base)
    ensures SameSetup(b, b) && StillEmpty(b, b)
  {
  }

  lemma SameLength(b: Base, c: Base)
    requires SameSetup(b, c)
    ensures |c.events| == |b.events| && |c.ctls| == |b.ctls| && |c.queues| == |b.queues|
  {
  }

  /** Setting a timer leaves the user's events alone. */
  lemma NotTheTimer(b: Base, c: Base, k: nat, id: Id)
    requires k < |b.ctls| && OnlyAbout(b, c, b.ctls[k].timer) && id < |b.events| && !IsTimer(b, id)
    ensures |c.events| == |b.events| && c.events[id] == b.events[id] && StillEmpty(b, c)
  {
    assert b.ctls[k].timer != id;
  }

  lemma OnlyAboutLength(b: Base, c: Base, id: Id)
    requires OnlyAbout(b, c, id)
    ensures |c.events| == |b.events| && |c.ctls| == |b.ctls| && |c.queues| == |b.queues|
  {
  }

  lemma RemoveTimeoutDetail(b: Base, id: Id)
    requires id < |b.events| && (b.events[id].when.common.Some? ==> b.events[id].when.common.value < |b.ctls|)
    ensures var c := RemoveTimeout(b, id);
      c.events == b.events[id := b.events[id].(timeout := false)] && c.queues == b.queues && c.later == b.later
  {
  }

  /** Taking the event off the other queues gives the same, whatever its timeout. */
  lemma SameRemoval(b: Base, c: Base, id: Id)
    requires id < |b.events| == |c.events| && b.events[id].pri < |b.queues| && c.queues == b.queues &&
      c.later == b.later
    requires c.events[id] == b.events[id].(timeout := c.events[id].timeout)
    ensures RemoveActive(c, id).queues == RemoveActive(b, id).queues &&
      RemoveLater(c, id).later == RemoveLater(b, id).later
  {
  }

  lemma NotBoth(b: Base, id: Id)
    requires Agree(b) && id < |b.events|
    ensures !(b.events[id].active && b.events[id].later) && b.events[id].pri < |b.queues|
  {
    assert Placed(b, id);
  }

  lemma DeletedSetup(b: Base, c: Base, id: Id)
    requires Agree(b) && id < |b.events| && Deleted(b, c, id)
    ensures SameSetup(b, c) && StillEmpty(b, c)
  {
    DeletedQueues(b, c, id);
    if b.events[id].timeout {
      RemoveTimeoutAgrees(b, id);
    }
  }

  lemma ActivatedSetup(b: Base, c: Base, id: Id)
    requires Activated(b, c, id)
    ensures SameSetup(b, c)
  {
  }

  lemma InHeap(b: Base, id: Id)
    requires Agree(b) && id in b.heap
    ensures id < |b.events| && b.events[id].timeout && b.events[id].when.common == None
  {
    assert Placed(b, id);
  }

  lemma FirstLater(b: Base)
    requires Agree(b) && b.later != [] && TimersOk(b)
    ensures b.later[0] < |b.events| && b.events[b.later[0]].later && !b.events[b.later[0]].active &&
      b.events[b.later[0]].pri < |b.queues|
    ensures !IsTimer(b, b.later[0])
  {
    var id := b.later[0];
    assert id in b.later && Placed(b, id);
    assert forall i :: 0 <= i < |b.ctls| ==> TimerOk(b, b.ctls[i].timer);
  }

  /** The first active-later event moved to its active queue. */
  lemma PromotedAgrees(b: Base, id: Id)
    requires Agree(b) && b.later != [] && id == b.later[0] && id < |b.events| && b.events[id].later &&
      b.events[id].pri < |b.queues|
    ensures var e := b.events[id];
      Agree(b.(events := b.events[id := e.(later := false, active := true)], later := b.later[1..],
        queues := b.queues[e.pri := b.queues[e.pri] + [id]]))
  {
    hide Agree;
    RemoveLaterAgrees(b, id);
    var m := RemoveLater(b, id);
    assert Without(b.later, id) == b.later[1..];
    InsertActiveAgrees(m, id);
    var e := b.events[id];
    assert !e.active by {
      NotBoth(b, id);
    }
    assert m.events[id := m.events[id].(active := true)] == b.events[id := e.(later := false, active := true)];
  }

  /** An event taken off the heap and made active. */
  lemma ExpiredNoneLost(b: Base, m: Base, c: Base, current: Option<Id>, id: Id, except: set<nat>)
    requires Agree(b) && TimersOk(b) && NoneLost(b, current, except) && id in b.heap && id < |b.events|
    requires Deleted(b, m, id) && m.ctls == b.ctls && Activated(m, c, id)
    ensures TimersOk(c) && NoneLost(c, current, except)
  {
    DeletedQueues(b, m, id);
    if IsTimer(b, id) {
      var k: nat :| 0 <= k < |b.ctls| && b.ctls[k].timer == id;
      TimerExpired(b, c, current, k, except);
    } else {
      OtherEvent(b, c, current, id, except);
    }
  }

  /** The result flags after an activation: added to those of an event that is still active. */
  function WithResult(e: Event, byTimeout: bool): (f: Event)
    ensures SamePlace(e, f) && e.when == f.when
  {
    e.(byTimeout := byTimeout || ((e.active || e.later) && e.byTimeout))
  }

  lemma ActivatedFacts(b: Base, id: Id)
    requires Agree(b) && id < |b.events| && b.events[id].pri < |b.queues| &&
      !(b.events[id].active && b.events[id].later)
    ensures b.events[id].active ==> Activated(b, b, id)
    ensures !b.events[id].active && !b.events[id].later ==> Activated(b, InsertActive(b, id), id)
    ensures var m := RemoveLater(b, id);
      m.events == b.events[id := b.events[id].(later := false)] && m.queues == b.queues
    ensures b.events[id].later ==> Activated(b, InsertActive(RemoveLater(b, id), id), id)
    ensures InsertActive(b, id).events[id].byTimeout == b.events[id].byTimeout
    ensures InsertActive(RemoveLater(b, id), id).events[id].byTimeout == b.events[id].byTimeout
  {
    hide Agree, Activated;
    AlreadyActive(b, id);
    InsertedActive(b, id);
    if b.events[id].later {
      LaterActivated(b, id);
    }
  }

  lemma AlreadyActive(b: Base, id: Id)
    requires id < |b.events| && b.events[id].pri < |b.queues| && !(b.events[id].active && b.events[id].later)
    ensures b.events[id].active ==> Activated(b, b, id)
  {
  }

  lemma InsertedActive(b: Base, id: Id)
    requires id < |b.events| && b.events[id].pri < |b.queues|
    ensures !b.events[id].active && !b.events[id].later ==> Activated(b, InsertActive(b, id), id)
  {
  }

  lemma LaterActivated(b: Base, id: Id)
    requires id < |b.events| && b.events[id].pri < |b.queues| && !b.events[id].active && b.events[id].later
    ensures Activated(b, InsertActive(RemoveLater(b, id), id), id)
  {
    hide Without;
  }

  lemma DeletedShrinks(b: Base, c: Base, id: Id, k: nat)
    requires Agree(b) && id < |b.events| && Deleted(b, c, id) && k < |b.ctls| && b.events[id].timeout &&
      b.events[id].when.common == Some(k)
    ensures c.ctls == b.ctls[k := b.ctls[k].(events := Without(b.ctls[k].events, id))]
  {
    RemoveTimeoutAgrees(b, id);
    assert Placed(b, id);
    WithoutFacts(b.ctls[k].events, id);
    WithoutBelow(b.ctls[k].events, id, |b.events|);
  }

  /** The first event of an active queue. */
  lemma FirstActive(b: Base, p: nat)
    requires Agree(b) && p < |b.queues| && b.queues[p] != []
    ensures var id := b.queues[p][0]; id < |b.events| && b.events[id].active && b.events[id].pri == p
  {
    var id := b.queues[p][0];
    assert id in b.queues[p] && Placed(b, id);
  }

  /** Internal events have priority 0. */
  ghost predicate InternalFirst(b: Base) {
    forall x: Id :: x < |b.events| && b.events[x].internal ==> b.events[x].pri == 0
  }

  lemma SameTimer(b: Base, c: Base, k: nat)
    requires SameSetup(b, c) && k < |b.ctls|
    ensures k < |c.ctls| && c.ctls[k].timer == b.ctls[k].timer
  {
  }

  lemma FewerReady(b: Base, current: Option<Id>, except: set<nat>, k: nat)
    requires NoneLost(b, current, except)
    ensures NoneLost(b, current, except + {k})
  {
  }

  /** Which list the event is the timer of. */
  function TimerOf(ctls: seq<CommonList>, id: Id): (k: int)
    ensures 0 <= k ==> k < |ctls| && ctls[k].timer == id
    ensures k < 0 ==> forall i :: 0 <= i < |ctls| ==> ctls[i].timer != id
  {
    if ctls == [] then -1
    else if ctls[|ctls| - 1].timer == id then |ctls| - 1
    else TimerOf(ctls[..|ctls| - 1], id)
  }

  /** When a persistent event is to run next: an interval after it was due, or after now if it did not
      fire for its timeout or a run has been missed. */
  function RunAt(e: Event, now: nat, lists: nat): (at: Time)
    ensures at.usec == if e.byTimeout && e.when.usec + e.ioTimeout.usec >= now then e.when.usec + e.ioTimeout.usec
      else now + e.ioTimeout.usec
    ensures at.common == e.when.common || at.common == None
    ensures e.when.common.Some? && e.when.common.value < lists ==> at.common == e.when.common
  {
    var from := if e.byTimeout then e.when.usec else now;
    var at := from + e.ioTimeout.usec;
    Time(if at < now then now + e.ioTimeout.usec else at,
         if e.when.common.Some? && e.when.common.value < lists then e.when.common else None)
  }

  /** The callback of a user's event starts. */
  lemma UserStarts(b: Base, c: Base, id: Id, except: set<nat>)
    requires Agree(b) && TimersOk(b) && NoneLost(b, None, except) && id < |b.events| && !IsTimer(b, id)
    requires Deleted(b, c, id) || (c.ctls == b.ctls && |c.queues| == |b.queues| &&
      c.events == b.events[id := b.events[id].(active := false)])
    ensures TimersOk(c) && NoneLost(c, Some(id), except)
  {
    hide NoneLost, TimersOk, Agree;
    if Deleted(b, c, id) {
      DeletedNoneLost(b, c, None, id, except);
    } else {
      OtherEvent(b, c, None, id, except);
    }
    CurrentHelps(c, id, except);
  }

  lemma TimersNotPersistent(b: Base, id: Id)
    requires TimersOk(b) && id < |b.events|
    ensures IsTimer(b, id) ==> !b.events[id].persist && b.events[id].when.common == None
  {
    assert forall i :: 0 <= i < |b.ctls| ==> TimerOk(b, b.ctls[i].timer);
  }

  lemma RemoveActiveSetup(b: Base, id: Id)
    requires id < |b.events| && b.events[id].pri < |b.queues|
    ensures var c := RemoveActive(b, id); SameSetup(b, c) && StillEmpty(b, c)
  {
    RemoveActiveFacts(b, id);
  }

  /** The callback of an event that is not persistent starts, be it a timer or not. */
  lemma DeletedStarts(b: Base, c: Base, id: Id, except: set<nat>)
    requires Agree(b) && TimersOk(b) && NoneLost(b, None, except) && id < |b.events| && Deleted(b, c, id)
    ensures TimersOk(c) && NoneLost(c, Some(id), except)
  {
    if IsTimer(b, id) {
      var k: nat :| 0 <= k < |b.ctls| && b.ctls[k].timer == id;
      TimersNotPersistent(b, id);
      DeletedTimerLists(b, c, id);
      TimerStarts(b, c, k, except);
    } else {
      UserStarts(b, c, id, except);
    }
  }

  lemma DeletedEvent(b: Base, c: Base, id: Id)
    requires Agree(b) && id < |b.events| && Deleted(b, c, id)
    ensures c.events == b.events[id := Off(b.events[id])]
  {
  }

  lemma NotInternal(b: Base, id: Id)
    requires InternalFirst(b) && id < |b.events|
    ensures b.events[id].pri > 0 ==> !b.events[id].internal
  {
  }

  // ---- setting up events and lists

  /** An event as event_assign leaves it. */
  function Fresh(pri: nat, internal: bool, persist: bool, io: bool, signal: bool): Event {
    Event(pri, internal, persist, io, signal, false, false, false, false, false, Time(0, None), Time(0, None))
  }

  lemma {:induction false} WeightsAppend(es: seq<Event>, e: Event)
    ensures Weights(es + [e]) == Weights(es) + Weight(e)
  {
    if es == [] {
      assert (es + [e])[1..] == [];
    } else {
      assert (es + [e])[1..] == es[1..] + [e];
      WeightsAppend(es[1..], e);
    }
  }

  lemma BelowMore(ids: seq<Id>, n: nat)
    requires Below(ids, n)
    ensures Below(ids, n + 1) && n !in ids
  {
  }

  /** A new event is on no queue. */
  lemma AssignAgrees(b: Base, e: Event)
    requires Agree(b) && e.pri < |b.queues| && e == Fresh(e.pri, e.internal, e.persist, e.io, e.signal)
    ensures Agree(b.(events := b.events + [e]))
  {
    var c := b.(events := b.events + [e]);
    var n := |b.events|;
    WeightsAppend(b.events, e);
    BelowMore(b.later, n);
    forall p | 0 <= p < |b.queues| ensures Below(c.queues[p], n + 1) && n !in c.queues[p] {
      BelowMore(b.queues[p], n);
    }
    forall i | 0 <= i < |b.ctls| ensures Below(c.ctls[i].events, n + 1) && n !in c.ctls[i].events {
      BelowMore(b.ctls[i].events, n);
    }
    forall x: Id | x < |c.events| ensures Placed(c, x) {
      assert x < n ==> Placed(b, x);
    }
  }

  lemma AssignNoneLost(b: Base, e: Event, current: Option<Id>, except: set<nat>)
    requires Agree(b) && TimersOk(b) && NoneLost(b, current, except)
    ensures var c := b.(events := b.events + [e]);
      TimersOk(c) && NoneLost(c, current, except) && !IsTimer(c, |b.events|)
  {
    var c := b.(events := b.events + [e]);
    forall i: nat | i < |c.ctls|
      ensures Sorted(c.events, c.ctls[i].events) && (i !in except ==> Ready(c, current, i)) &&
        TimerOk(c, c.ctls[i].timer) &&
        c.ctls[i].timer < |b.events|
    {
      assert Sorted(b.events, b.ctls[i].events) && (i !in except ==> Ready(b, current, i)) &&
        TimerOk(b, b.ctls[i].timer);
    }
  }

  /** A new list is empty, and its timer is an event of its own. */
  lemma NewListAgrees(b: Base, l: CommonList, current: Option<Id>, except: set<nat>)
    requires Agree(b) && TimersOk(b) && NoneLost(b, current, except)
    requires l.events == [] && TimerOk(b, l.timer) && !IsTimer(b, l.timer)
    requires forall x: Id :: x < |b.events| && b.events[x].timeout ==> b.events[x].when.common != Some(|b.ctls|)
    ensures var c := b.(ctls := b.ctls + [l]); Agree(c) && TimersOk(c) && NoneLost(c, current, except)
  {
    var c := b.(ctls := b.ctls + [l]);
    forall x: Id | x < |c.events| ensures Placed(c, x) {
      assert Placed(b, x);
    }
    forall i: nat | i < |c.ctls|
      ensures Sorted(c.events, c.ctls[i].events) && (i !in except ==> Ready(c, current, i)) &&
        TimerOk(c, c.ctls[i].timer)
    {
      if i < |b.ctls| {
        assert c.ctls[i] == b.ctls[i];
        assert Sorted(b.events, b.ctls[i].events) && (i !in except ==> Ready(b, current, i)) &&
          TimerOk(b, b.ctls[i].timer);
      }
    }
    forall i, j | 0 <= i < j < |c.ctls| ensures c.ctls[i].timer != c.ctls[j].timer {
      assert i < |b.ctls| && c.ctls[i] == b.ctls[i];
      assert j < |b.ctls| ==> c.ctls[j] == b.ctls[j];
    }
  }

  /** Events that are waiting are on a list there is. */
  lemma KnownLists(b: Base)
    requires Agree(b)
    ensures forall x: Id :: x < |b.events| && b.events[x].timeout ==> b.events[x].when.common != Some(|b.ctls|)
  {
    forall x: Id | x < |b.events| ensures b.events[x].timeout ==> b.events[x].when.common != Some(|b.ctls|) {
      assert Placed(b, x);
    }
  }

  lemma SomeQueue(b: Base)
    requires TimersOk(b)
    ensures |b.queues| > 0
  {
  }

  /** Events of the program other than `id` are as before. */
  ghost predicate OthersSame(b: Base, c: Base, id: Id) {
    |c.events| == |b.events| && forall x: Id :: x < |b.events| && x != id && !IsTimer(b, x) ==>
      c.events[x] == b.events[x]
  }

  lemma OthersSameItself(b: Base, id: Id)
    ensures OthersSame(b, b, id)
  {
  }

  lemma OthersSameTrans(b: Base, m: Base, c: Base, id: Id)
    requires OthersSame(b, m, id) && OthersSame(m, c, id) && SameSetup(b, m)
    ensures OthersSame(b, c, id)
  {
    forall x: Id | x < |b.events| && x != id && !IsTimer(b, x) ensures c.events[x] == b.events[x] {
      SameTimers(b, m, x);
    }
  }

  lemma OnlyAboutOthers(b: Base, c: Base, id: Id)
    requires OnlyAbout(b, c, id)
    ensures OthersSame(b, c, id) && c.later == b.later
  {
  }

  lemma TimerAndOthers(b: Base, m: Base, c: Base, k: nat, id: Id)
    requires OthersSame(b, m, id) && SameSetup(b, m) && k < |m.ctls| && OnlyAbout(m, c, m.ctls[k].timer)
    ensures OthersSame(b, c, id) && c.later == m.later
  {
    forall x: Id | x < |b.events| && x != id && !IsTimer(b, x) ensures c.events[x] == b.events[x] {
      SameTimers(b, m, x);
      assert x != m.ctls[k].timer;
    }
  }

  lemma TimerIsPlain(b: Base, k: nat)
    requires TimersOk(b) && k < |b.ctls|
    ensures b.ctls[k].timer < |b.events| && b.events[b.ctls[k].timer].when.common == None
  {
    assert TimerOk(b, b.ctls[k].timer);
  }

  lemma HeapKnown(b: Base)
    requires Agree(b)
    ensures forall x :: x in b.heap ==> x < |b.events|
  {
  }

  lemma QueuesKnown(b: Base)
    requires Agree(b)
    ensures Known(b)
  {
  }

  lemma ListKnown(b: Base, k: nat)
    requires Agree(b) && k < |b.ctls|
    ensures Below(b.ctls[k].events, |b.events|)
  {
  }

  // ---- growth

  /** Events and lists may have been added; the ones there were are of the same kind. */
  ghost predicate Grown(b: Base, c: Base) {
    && |b.events| <= |c.events| && |c.queues| == |b.queues| && |b.ctls| <= |c.ctls|
    && (forall i: nat :: i < |b.ctls| ==> c.ctls[i].timer == b.ctls[i].timer)
    && (forall i: nat :: |b.ctls| <= i < |c.ctls| ==> c.ctls[i].timer >= |b.events|)
    && (forall x: Id :: x < |b.events| ==> KindKept(b.events[x], c.events[x]))
    && (forall x: Id :: |b.events| <= x < |c.events| && c.events[x].internal ==> c.events[x].pri == 0)
  }

  /** The priority of an internal event does not change. */
  predicate KindKept(e: Event, f: Event) {
    f.internal == e.internal && (e.internal ==> f.pri == e.pri)
  }

  lemma SetupGrown(b: Base, c: Base)
    requires SameSetup(b, c)
    ensures Grown(b, c)
  {
  }

  lemma GrownTrans(b: Base, m: Base, c: Base)
    requires Grown(b, m) && Grown(m, c)
    ensures Grown(b, c)
  {
    forall x: Id | x < |b.events| ensures KindKept(b.events[x], c.events[x]) {
      assert KindKept(b.events[x], m.events[x]) && KindKept(m.events[x], c.events[x]);
    }
    forall x: Id | |b.events| <= x < |c.events| && c.events[x].internal ensures c.events[x].pri == 0 {
      assert x < |m.events| ==> KindKept(m.events[x], c.events[x]);
    }
  }

  lemma GrownInternal(b: Base, c: Base)
    requires InternalFirst(b) && Grown(b, c)
    ensures InternalFirst(c)
  {
    forall x: Id | x < |c.events| && c.events[x].internal ensures c.events[x].pri == 0 {
      assert x < |b.events| ==> KindKept(b.events[x], c.events[x]);
    }
  }

  lemma GrownLengths(b: Base, c: Base)
    requires Grown(b, c)
    ensures |b.events| <= |c.events| && |c.queues| == |b.queues| && |b.ctls| <= |c.ctls|
  {
  }

  /** A new event of the program. */
  lemma AssignGrown(b: Base, e: Event)
    requires e.internal ==> e.pri == 0
    ensures Grown(b, b.(events := b.events + [e])) && StillEmpty(b, b.(events := b.events + [e]))
  {
  }

  /** A new list with a new timer. */
  lemma NewListGrown(b: Base, e: Event, l: CommonList)
    requires (e.internal ==> e.pri == 0) && l.timer == |b.events|
    ensures Grown(b, b.(events := b.events + [e], ctls := b.ctls + [l]))
    ensures StillEmpty(b, b.(events := b.events + [e], ctls := b.ctls + [l]))
  {
  }

  /** Another priority for an event that is not active. */
  lemma PriorityAgrees(b: Base, id: Id, pri: nat)
    requires Agree(b) && id < |b.events| && !b.events[id].active && pri < |b.queues|
    ensures Agree(b.(events := b.events[id := b.events[id].(pri := pri)]))
  {
    var c := b.(events := b.events[id := b.events[id].(pri := pri)]);
    WeightsUpdate(b.events, id, c.events[id]);
    forall x: Id | x < |c.events| ensures Placed(c, x) {
      assert Placed(b, x);
    }
  }

  lemma PriorityGrown(b: Base, id: Id, pri: nat)
    requires id < |b.events| && !b.events[id].internal
    ensures Grown(b, b.(events := b.events[id := b.events[id].(pri := pri)]))
  {
  }

  /** Events with the same kind of entry in the same queues: `later` has gained at most `id`. */
  ghost predicate ActivatedLater(b: Base, c: Base, id: Id) {
    && id < |b.events| && |c.events| == |b.events|
    && c.queues == b.queues && c.ctls == b.ctls && c.heap == b.heap
    && (forall x: Id :: x < |b.events| && x != id ==> c.events[x] == b.events[x])
    && c.events[id] == b.events[id].(later := c.events[id].later, byTimeout := c.events[id].byTimeout)
    && (if b.events[id].active || b.events[id].later then c.later == b.later && c.events[id].later == b.events[id].later
        else c.later == b.later + [id] && c.events[id].later)
  }

  /** The active queues once the events of `later` have been appended to theirs, in order. */
  function Promoted(es: seq<Event>, queues: seq<seq<Id>>, later: seq<Id>): (r: seq<seq<Id>>)
    ensures |r| == |queues|
    decreases later
  {
    if later == [] then queues
    else
      var id := later[0];
      if id < |es| && es[id].pri < |queues| then
        Promoted(es, queues[es[id].pri := queues[es[id].pri] + [id]], later[1..])
      else Promoted(es, queues, later[1..])
  }

  lemma {:induction false} PromotedSnoc(es: seq<Event>, queues: seq<seq<Id>>, later: seq<Id>, id: Id)
    requires id < |es| && es[id].pri < |queues|
    ensures var r := Promoted(es, queues, later);
      Promoted(es, queues, later + [id]) == r[es[id].pri := r[es[id].pri] + [id]]
    decreases later
  {
    if later == [] {
      assert [] + [id] == [id] && [id][1..] == [];
    } else {
      assert (later + [id])[1..] == later[1..] + [id];
      var x := later[0];
      var qs := if x < |es| && es[x].pri < |queues| then queues[es[x].pri := queues[es[x].pri] + [x]] else queues;
      PromotedSnoc(es, qs, later[1..], id);
    }
  }

  /** The events of priority `p`, in order. */
  function OfPriority(es: seq<Event>, ids: seq<Id>, p: nat): seq<Id> {
    if ids == [] then []
    else (if ids[0] < |es| && es[ids[0]].pri == p then [ids[0]] else []) + OfPriority(es, ids[1..], p)
  }

  /** Each queue gains the events of its priority at its end, in order. */
  lemma {:induction false} PromotedInOrder(es: seq<Event>, queues: seq<seq<Id>>, later: seq<Id>, p: nat)
    requires p < |queues|
    ensures Promoted(es, queues, later)[p] == queues[p] + OfPriority(es, later, p)
    decreases later
  {
    if later != [] {
      var id := later[0];
      var qs := if id < |es| && es[id].pri < |queues| then queues[es[id].pri := queues[es[id].pri] + [id]] else queues;
      PromotedInOrder(es, qs, later[1..], p);
    }
  }

  lemma NothingPromoted(b: Base)
    ensures b.later[..0] == [] && b.later[0..] == b.later && Promoted(b.events, b.queues, []) == b.queues
  {
  }

  /** No event is to be activated later twice. */
  lemma LaterOnce(b: Base, n: nat)
    requires Agree(b) && n < |b.later|
    ensures b.later[n] < |b.events| && b.events[b.later[n]].pri < |b.queues| && b.later[n] !in b.later[..n]
  {
    var id := b.later[n];
    assert id in b.later && Placed(b, id);
  }

  /** An event that was deleted and made active because its timeout had come. */
  function Fired(e: Event): Event {
    Off(e).(active := true, byTimeout := true)
  }

  /** The event leaves its active queue, if it is on one, and goes to the end of it. */
  function Requeue(e: Event, queues: seq<seq<Id>>, id: Id): (r: seq<seq<Id>>)
    ensures |r| == |queues|
  {
    if e.pri >= |queues| then queues
    else queues[e.pri := (if e.active then Without(queues[e.pri], id) else queues[e.pri]) + [id]]
  }

  /** ... and so do the others, in that order. */
  function Requeued(es: seq<Event>, queues: seq<seq<Id>>, ids: seq<Id>): (r: seq<seq<Id>>)
    ensures |r| == |queues|
  {
    if ids == [] then queues
    else
      var r, id := Requeued(es, queues, ids[..|ids| - 1]), ids[|ids| - 1];
      if id < |es| then Requeue(es[id], r, id) else r
  }

  lemma OneMoreRequeued(es: seq<Event>, queues: seq<seq<Id>>, ids: seq<Id>, id: Id)
    requires id < |es|
    ensures Requeued(es, queues, ids + [id]) == Requeue(es[id], Requeued(es, queues, ids), id)
  {
    assert (ids + [id])[..|ids|] == ids;
  }

  lemma {:induction false} OfPrioritySnoc(es: seq<Event>, ids: seq<Id>, id: Id, p: nat)
    ensures OfPriority(es, ids + [id], p) ==
      OfPriority(es, ids, p) + if id < |es| && es[id].pri == p then [id] else []
  {
    if ids == [] {
      assert [] + [id] == [id] && [id][1..] == [];
    } else {
      assert (ids + [id])[1..] == ids[1..] + [id];
      OfPrioritySnoc(es, ids[1..], id, p);
    }
  }

  /** Events that were not active before are behind those that were, in order. */
  lemma {:induction false} RequeuedInOrder(es: seq<Event>, queues: seq<seq<Id>>, ids: seq<Id>, p: nat)
    requires p < |queues| && forall x :: x in ids && x < |es| ==> !es[x].active
    ensures Requeued(es, queues, ids)[p] == queues[p] + OfPriority(es, ids, p)
  {
    if ids != [] {
      var front, id := ids[..|ids| - 1], ids[|ids| - 1];
      assert ids == front + [id];
      RequeuedInOrder(es, queues, front, p);
      OfPrioritySnoc(es, front, id, p);
    }
  }

  /** The events `ids` have fired, in order of their times; what is still in the heap is due no earlier. */
  ghost predicate Popped(b: Base, ids: seq<Id>, c: Base) {
    && Distinct(ids) && Sorted(b.events, ids) && |c.events| == |b.events| && c.ctls == b.ctls && SameBooks(b, c)
    && (forall x :: x in b.heap ==> x < |b.events|) && (forall x :: x in ids ==> x in b.heap)
    && c.heap == b.heap - (set x | x in ids)
    && (forall x, y :: x in ids && y in c.heap ==> b.events[x].when.usec <= b.events[y].when.usec)
    && c.queues == Requeued(b.events, b.queues, ids)
    && (forall x: Id :: x < |b.events| ==> c.events[x] == if x in ids then Fired(b.events[x]) else b.events[x])
  }

  lemma PoppedNone(b: Base)
    requires Agree(b)
    ensures Popped(b, [], b)
  {
  }

  /** The top of the heap fires. */
  lemma PoppedMore(b: Base, ids: seq<Id>, m: Base, id: Id, c: Base)
    requires Popped(b, ids, m) && id in m.heap && IsTop(m.events, m.heap, id)
    requires c.ctls == m.ctls && SameBooks(m, c) && c.heap == m.heap - {id} && id < |m.events|
    requires c.events == m.events[id := Fired(m.events[id])] && c.queues == Requeue(m.events[id], m.queues, id)
    ensures Popped(b, ids + [id], c)
  {
    hide Requeued, Requeue, Distinct, Sorted, Fired;
    OneMoreRequeued(b.events, b.queues, ids, id);
    AppendFacts(ids, id);
    PoppedSorted(b, ids, m, id);
    PoppedEvents(b, ids, m, id, c);
    assert (set x | x in ids + [id]) == (set x | x in ids) + {id};
  }

  lemma PoppedEvents(b: Base, ids: seq<Id>, m: Base, id: Id, c: Base)
    requires Popped(b, ids, m) && id in m.heap && id < |m.events| && c.events == m.events[id := Fired(m.events[id])]
    ensures forall x: Id :: x < |b.events| ==>
      c.events[x] == if x in ids + [id] then Fired(b.events[x]) else b.events[x]
  {
    hide Requeued, Distinct, Sorted, Fired;
  }

  lemma PoppedSorted(b: Base, ids: seq<Id>, m: Base, id: Id)
    requires Popped(b, ids, m) && id in m.heap
    ensures Sorted(b.events, ids + [id])
  {
    hide Requeued;
    var s := ids + [id];
    forall i, j | 0 <= i < j < |s| ensures b.events[s[i]].when.usec <= b.events[s[j]].when.usec {
      assert s[i] == ids[i] && ids[i] in ids;
    }
  }

  /** timeout_process: the events that are due, and no others, have left the heap, and are active at the end
      of their queues in order of their times. */
  ghost predicate TimedOut(b: Base, now: nat, c: Base) {
    exists ids :: Popped(b, ids, c) && DueIn(b, ids, c, now)
  }

  ghost predicate DueIn(b: Base, ids: seq<Id>, c: Base, now: nat) {
    && (forall x :: x in ids && x < |b.events| ==> b.events[x].when.usec <= now)
    && (forall x :: x in c.heap && x < |b.events| ==> b.events[x].when.usec > now)
  }

  /** event_queue_make_later_events_active. */
  ghost predicate LaterActive(b: Base, c: Base) {
    && |c.events| == |b.events| && SameBooks(b, c) && c.later == [] && c.queues == Promoted(b.events, b.queues, b.later)
    && (forall x: Id :: x < |b.events| ==>
          c.events[x] == if x in b.later then b.events[x].(later := false, active := true) else b.events[x])
  }

  /** An event that is deleted as its callback starts leaves the front of its queue. */
  lemma DeletedFirst(b: Base, c: Base, id: Id)
    requires Agree(b) && id < |b.events| && Deleted(b, c, id) && b.events[id].active
    ensures b.events[id].pri < |b.queues| && b.queues[b.events[id].pri] != []
    ensures b.queues[b.events[id].pri][0] == id ==>
      c.queues == b.queues[b.events[id].pri := b.queues[b.events[id].pri][1..]]
    ensures c.later == b.later && c.events == b.events[id := Off(b.events[id])]
  {
    assert Placed(b, id);
  }

  // ---- room in the time heap

  /** The array of the heap grows to twice its size, or to what is asked for. */
  function Grow(room: nat, n: nat): (r: nat)
    ensures r >= n && r >= 2 * room && (room == 0 ==> r >= 8) && (r == n || r == 2 * room || (room == 0 && r == 8))
  {
    var r := if room == 0 then 8 else 2 * room;
    if r < n then n else r
  }

  /** min_heap_reserve_ for `n` events. */
  predicate CanReserve(room: nat, n: nat, mem: bool) {
    n <= room || mem
  }

  function RoomFor(room: nat, n: nat, mem: bool): (r: nat)
    ensures r >= room && (CanReserve(room, n, mem) ==> r >= n)
    ensures n <= room || !mem ==> r == room
    ensures n > room && mem ==> r >= 2 * room
  {
    if n <= room || !mem then room else Grow(room, n)
  }

  /** There is room for all that is in the heap, as long as no event went astray. */
  predicate HeapFits(b: Base) {
    b.strayed || |b.heap| <= b.room
  }

  /** Room, lost lists and strays are the same. */
  predicate SameBooks(b: Base, c: Base) {
    c.room == b.room && c.lost == b.lost && c.strayed == b.strayed
  }

  /** The event has another timeout; that min_heap_push_ failed goes unnoticed. */
  ghost function Put(b: Base, id: Id, when: Time, mem: bool): (c: Base)
    requires Agree(b) && id < |b.events| && (when.common.Some? ==> when.common.value < |b.ctls|)
    ensures |c.events| == |b.events| && |c.ctls| == |b.ctls|
  {
    var c, n := Rescheduled(b, id, when), |b.heap - {id}| + 1;
    if when.common.Some? then c
    else c.(room := RoomFor(b.room, n, mem), strayed := b.strayed || !CanReserve(b.room, n, mem))
  }

  lemma PutFacts(b: Base, id: Id, when: Time, mem: bool)
    requires Agree(b) && id < |b.events| && (when.common.Some? ==> when.common.value < |b.ctls|)
    ensures var c := Put(b, id, when, mem);
      && OnlyAbout(b, c, id) && Agree(c) && c.events[id] == Retimed(b.events[id], when) && c.lost == b.lost
      && c.heap == (if when.common.None? then b.heap + {id} else b.heap - {id}) && (HeapFits(b) ==> HeapFits(c))
      && (when.common.Some? ==> SameBooks(b, c))
    ensures id in b.heap <==> b.events[id].timeout && b.events[id].when.common == None
  {
    RescheduledFacts(b, id, when);
    RescheduledHeap(b, id, when);
    hide Agree, Rescheduled, OnlyAbout;
    var r, c := Rescheduled(b, id, when), Put(b, id, when, mem);
    OnlyBooks(r, c, None, {});
    OnlyAboutTrans(b, r, c, id);
  }

  lemma SameAgree(b: Base, c: Base)
    requires Agree(b) && c == b.(room := c.room, lost := c.lost, strayed := c.strayed)
    ensures Agree(c)
  {
    forall x: Id | x < |c.events| ensures Placed(c, x) {
      assert Placed(b, x);
    }
  }

  /** Queues, flags and counters do not depend on these. */
  lemma OnlyBooks(b: Base, c: Base, current: Option<Id>, except: set<nat>)
    requires c == b.(room := c.room, lost := c.lost, strayed := c.strayed)
    ensures (Agree(b) ==> Agree(c)) && (TimersOk(b) ==> TimersOk(c))
    ensures NoneLost(b, current, except) ==> NoneLost(c, current, except)
    ensures SameSetup(b, c) && StillEmpty(b, c) &&
      forall id: Id :: OnlyAbout(b, c, id) && (IsTimer(c, id) <==> IsTimer(b, id))
  {
    if Agree(b) {
      SameAgree(b, c);
    }
    if NoneLost(b, current, except) {
      forall i: nat | i < |c.ctls| ensures Sorted(c.events, c.ctls[i].events) &&
        (i !in except ==> Ready(c, current, i)) {
        assert Sorted(b.events, b.ctls[i].events) && (i !in except ==> Ready(b, current, i));
      }
    }
  }

  /** Off the heap: the event is in it exactly when it waits for a timeout of its own. */
  lemma UnscheduledHeap(b: Base, id: Id)
    requires Agree(b) && id < |b.events|
    ensures Unscheduled(b, id).heap == b.heap - {id} && SameBooks(b, Unscheduled(b, id))
  {
    assert Placed(b, id);
  }

  lemma InsertTimeoutBooks(b: Base, id: Id)
    requires id < |b.events| && Agree(b)
    requires b.events[id].when.common.Some? ==> b.events[id].when.common.value < |b.ctls|
    ensures SameBooks(b, InsertTimeout(b, id))
  {
  }

  lemma RescheduledHeap(b: Base, id: Id, when: Time)
    requires Agree(b) && id < |b.events| && (when.common.Some? ==> when.common.value < |b.ctls|)
    ensures var c := Rescheduled(b, id, when);
      c.heap == (if when.common.None? then b.heap + {id} else b.heap - {id}) && SameBooks(b, c)
    ensures id in b.heap <==> b.events[id].timeout && b.events[id].when.common == None
  {
    assert Placed(b, id);
    UnscheduledHeap(b, id);
    hide Agree;
  }

  lemma DeletedHeap(b: Base, c: Base, id: Id)
    requires Agree(b) && id < |b.events| && Deleted(b, c, id)
    ensures |c.heap| <= |b.heap|
    ensures b.events[id].when.common.Some? ==> c.heap == b.heap
  {
    assert Placed(b, id);
  }

  lemma SameReady(b: Base, c: Base, k: nat)
    requires c == b.(room := c.room, lost := c.lost, strayed := c.strayed) && k < |b.ctls|
    ensures Ready(c, None, k) <==> Ready(b, None, k)
  {
  }

  lemma SameFit(b: Base, c: Base)
    requires c == b.(lost := c.lost) && HeapFits(b)
    ensures HeapFits(c)
  {
  }

  lemma RetimedKind(e: Event, when: Time)
    ensures Retimed(e, when).pri == e.pri && Retimed(e, when).internal == e.internal
  {
  }

  /** Rescheduling a user's event leaves at most the list that it now heads in need of its timer. */
  lemma PutNoneLost(b: Base, current: Option<Id>, id: Id, when: Time, mem: bool, except: set<nat>)
    requires Agree(b) && TimersOk(b) && NoneLost(b, current, except) && id < |b.events| && !IsTimer(b, id)
    requires when.common.Some? ==> when.common.value < |b.ctls|
    ensures var c := Put(b, id, when, mem);
      && TimersOk(c)
      && (when.common.None? ==> NoneLost(c, current, except))
      && (when.common.Some? ==>
            c.ctls[when.common.value].events != [] && NoneLost(c, current, except + {when.common.value}))
      && (when.common.Some? && c.ctls[when.common.value].events[0] != id ==> NoneLost(c, current, except))
  {
    hide Agree, TimersOk, NoneLost, Rescheduled, IsTimer;
    RescheduledNoneLost(b, current, id, when, except);
    OnlyBooks(Rescheduled(b, id, when), Put(b, id, when, mem), current, except);
  }

  /** Setting a timer that fits makes its list ready and lets nothing go astray. */
  lemma TimerPut(b: Base, current: Option<Id>, k: nat, mem: bool)
    requires Agree(b) && TimersOk(b) && HeapFits(b) && NoneLost(b, current, b.lost + {k})
    requires k < |b.ctls| && b.ctls[k].events != [] && b.ctls[k].timer < |b.events| && b.ctls[k].events[0] < |b.events|
    requires b.events[b.ctls[k].timer].timeout || CanReserve(b.room, |b.heap| + 1, mem)
    ensures var t := b.ctls[k].timer;
      var c := Put(b, t, Time(b.events[b.ctls[k].events[0]].when.usec, None), mem);
      && Agree(c) && TimersOk(c) && HeapFits(c) && Ready(c, None, k) && NoneLost(c, current, b.lost - {k})
      && (current == Some(t) ==> NoneLost(c, None, b.lost - {k}))
      && SameSetup(b, c) && OnlyAbout(b, c, t) && c.ctls == b.ctls && c.strayed == b.strayed && c.lost == b.lost
  {
    var t := b.ctls[k].timer;
    var when := Time(b.events[b.ctls[k].events[0]].when.usec, None);
    TimerIsPlain(b, k);
    TimerRescheduled(b, current, k, b.lost);
    TimerListsKept(b, t, when);
    PutFacts(b, t, when, mem);
    hide Agree, TimersOk, NoneLost, Rescheduled, OnlyAbout, SameSetup, Ready;
    var r, c := Rescheduled(b, t, when), Put(b, t, when, mem);
    OnlyBooks(r, c, current, b.lost - {k});
    OnlyBooks(r, c, None, b.lost - {k});
    SameReady(r, c, k);
    RetimedKind(b.events[t], when);
    OnlyAboutSetup(b, c, t);
  }

  /** Deleted and made active: at the end of its queue. */
  lemma FiredQueues(b: Base, m: Base, c: Base, id: Id)
    requires Agree(b) && id < |b.events| && Deleted(b, m, id) && Activated(m, c, id) && c.events[id].byTimeout
    ensures c.events == b.events[id := Fired(b.events[id])] && c.queues == Requeue(b.events[id], b.queues, id)
    ensures c.ctls == m.ctls && c.heap == m.heap
  {
    NotBoth(b, id);
    assert Placed(b, id);
  }

  lemma PoppedFacts(b: Base, ids: seq<Id>, c: Base, id: Id)
    requires Popped(b, ids, c) && id in c.heap && IsTop(c.events, c.heap, id)
    ensures id < |b.events| == |c.events| && c.events[id] == b.events[id]
  {
  }

  /** The heap is empty, or its top is not due. */
  lemma NothingDue(b: Base, ids: seq<Id>, c: Base, now: nat)
    requires Popped(b, ids, c) && forall x :: x in ids && x < |b.events| ==> b.events[x].when.usec <= now
    requires c.heap == {} || exists id :: id in c.heap && IsTop(c.events, c.heap, id) && c.events[id].when.usec > now
    ensures TimedOut(b, now, c)
  {
    hide Requeued;
    assert DueIn(b, ids, c, now);
  }
}
