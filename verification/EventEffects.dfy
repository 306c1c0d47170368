/** What the calls on an event base, the callbacks and the rounds of the loop do, as relations between the
    bases before and after. */
module EventEffects {
  import opened Bytes
  import opened Options
  import opened Lists
  import opened EventQueues

  const MAX_COMMON_TIMEOUTS: nat := 256

  /** What a callback, or another thread while the lock is released, may do to the base: event_assign,
      event_priority_set, event_base_init_common_timeout, event_add, event_del, event_active,
      event_active_later_, event_base_loopbreak and event_base_loopcontinue. `ioOk` says whether the evmap
      can do its part, `mem` whether memory can be had. */
  datatype Action =
    | DoAssign(persist: bool, io: bool, signal: bool)
    | DoPriority(id: Id, pri: int)
    | DoInitCommon(duration: nat, mem: bool)
    | DoAdd(id: Id, tv: Option<Time>, ioOk: bool, mem: bool, now: nat)
    | DoDel(id: Id, ioOk: bool)
    | DoActive(id: Id, byTimeout: bool)
    | DoActiveLater(id: Id, byTimeout: bool)
    | DoBreak
    | DoContinue

  /** One callback: what is done while it runs, the time, whether a persistent event or a timer can be added
      again, what is done by others between its end and the next look at the base, and whether the time for
      dispatching is up then. */
  datatype Turn = Turn(script: seq<Action>, now: nat, ioOk: bool, mem: bool, after: seq<Action>, late: bool) {
    /** Whether the action is in it. */
    predicate Does(a: Action) {
      a in script || a in after
    }
  }

  /** A callback that was started: which event, from the queue of which priority, and the base at that
      moment. */
  datatype Dispatch = Dispatch(id: Id, pri: nat, before: Base)

  // ---- single calls

  /** What an action may refer to: events and lists the program has set up. */
  predicate ActionOk(b: Base, a: Action) {
    match a
    case DoAssign(_, _, _) => true
    case DoInitCommon(_, _) => true
    case DoAdd(id, tv, _, _, _) =>
      id < |b.events| && !IsTimer(b, id) && (tv.Some? && tv.value.common.Some? ==> tv.value.common.value < |b.ctls|)
    case DoPriority(id, _) => id < |b.events| && !IsTimer(b, id) && !b.events[id].internal
    case DoBreak => true
    case DoContinue => true
    case _ => a.id < |b.events| && !IsTimer(b, a.id)
  }

  /** Whether adding the event has to go through the evmap. */
  predicate NeedsInsertion(e: Event) {
    (e.io || e.signal) && !e.inserted && !e.active && !e.later
  }

  /** Room for one more event in the time heap is reserved, if the event waits for no timeout yet. */
  function Reserved(b: Base, id: Id, tv: Option<Time>, mem: bool): Base
    requires id < |b.events|
  {
    if tv.Some? && !b.events[id].timeout then b.(room := RoomFor(b.room, |b.heap| + 1, mem)) else b
  }

  /** When event_add_nolock_ fails: the time heap cannot grow, or the evmap cannot add the event. */
  predicate AddFails(b: Base, id: Id, tv: Option<Time>, ioOk: bool, mem: bool)
    requires id < |b.events|
  {
    || (tv.Some? && !b.events[id].timeout && !CanReserve(b.room, |b.heap| + 1, mem))
    || (NeedsInsertion(b.events[id]) && !ioOk)
  }

  function DueAt(tv: Time, absolute: bool, now: nat): Time {
    if absolute then tv else Time(now + tv.usec, tv.common)
  }

  /** The interval of a persistent event is remembered. */
  function Remember(e: Event, tv: Time, absolute: bool): (f: Event)
    ensures SamePlace(e, f) && f.when == e.when
  {
    if e.persist && !e.signal && !absolute then e.(ioTimeout := tv) else e
  }

  function Inserted(e: Event): Event {
    e.(inserted := e.inserted || NeedsInsertion(e))
  }

  /** The event once it has been added. */
  function AddedEvent(e: Event, tv: Option<Time>, absolute: bool, now: nat): Event {
    if tv.None? then Inserted(e)
    else Retimed(Remember(Inserted(e), tv.value, absolute), DueAt(tv.value, absolute, now))
  }

  /** Whether event_add_nolock_ on the timer `t` of a list succeeds with `n` - 1 events in the heap: a timer
      that is in the heap needs no more room. */
  predicate TimerFits(room: nat, n: nat, t: Event, mem: bool) {
    t.timeout || CanReserve(room, n, mem)
  }

  /** common_timeout_schedule: the timer of list `k` is set for its first event. If it does not fit, nothing
      changes, and the list is lost unless the timer has fired. */
  ghost predicate TimerSet(b: Base, k: nat, mem: bool, c: Base) {
    && Agree(b) && k < |b.ctls| && b.ctls[k].events != []
    && var t, first := b.ctls[k].timer, b.ctls[k].events[0];
       && t < |b.events| && first < |b.events|
       && c == if TimerFits(b.room, |b.heap| + 1, b.events[t], mem)
               then Put(b, t, Time(b.events[first].when.usec, None), mem).(lost := b.lost - {k})
               else b.(lost := if b.events[t].active then b.lost - {k} else b.lost + {k})
  }

  /** The event has another timeout, and the list that it now heads, if any, its timer set. */
  ghost predicate Timed(b: Base, id: Id, when: Time, mem: bool, c: Base) {
    && Agree(b) && id < |b.events| && (when.common.Some? ==> when.common.value < |b.ctls|)
    && var m := Put(b, id, when, mem);
       if when.common.Some? && m.ctls[when.common.value].events != [] && m.ctls[when.common.value].events[0] == id
       then TimerSet(m, when.common.value, mem, c) else c == m
  }

  /** A timer that does not fit leaves its list ready only if it has fired. */
  lemma TimerNotSet(b: Base, c: Base, current: Option<Id>, k: nat)
    requires Agree(b) && TimersOk(b) && NoneLost(b, current, b.lost + {k}) && k < |b.ctls|
    requires b.ctls[k].events != [] && b.ctls[k].timer < |b.events| && !b.events[b.ctls[k].timer].timeout
    requires c == b.(lost := if b.events[b.ctls[k].timer].active then b.lost - {k} else b.lost + {k})
    ensures Agree(c) && TimersOk(c) && NoneLost(c, current, c.lost)
    ensures current == Some(b.ctls[k].timer) ==> NoneLost(c, None, c.lost)
    ensures SameSetup(b, c) && OnlyAbout(b, c, b.ctls[k].timer)
    ensures Ready(c, None, k) <==> b.events[b.ctls[k].timer].active
  {
    assert Sorted(b.events, b.ctls[k].events);
    OnlyBooks(b, c, current, b.lost + {k});
    if current == Some(b.ctls[k].timer) {
      CurrentMatters(b, b.ctls[k].timer, k, b.lost + {k});
      OnlyBooks(b, c, None, b.lost + {k});
    }
  }

  /** event_add_nolock_ has succeeded: the event is as it should be, the other events of the program are as
      they were, and of the timers only that of the list it heads may have been set. */
  ghost predicate Added(b: Base, id: Id, tv: Option<Time>, absolute: bool, now: nat, mem: bool, c: Base) {
    && id < |b.events| && OthersSame(b, c, id) && c.later == b.later
    && c.events[id] == AddedEvent(b.events[id], tv, absolute, now)
    && var i := if NeedsInsertion(b.events[id]) then InsertInserted(b, id) else b;
       if tv.None? then c == i
       else Timed(i.(events := i.events[id := Remember(i.events[id], tv.value, absolute)]), id,
                  DueAt(tv.value, absolute, now), mem, c)
  }

  /** What the added event waits for. */
  lemma AddedWhen(b: Base, id: Id, tv: Option<Time>, absolute: bool, now: nat, mem: bool, c: Base)
    requires Added(b, id, tv, absolute, now, mem, c)
    ensures id < |b.events| == |c.events|
    ensures var e, f := b.events[id], c.events[id];
      && f.persist == e.persist && f.signal == e.signal && f.io == e.io
      && ((f.io || f.signal) ==> f.inserted || e.active || e.later)
      && (tv.None? ==> f == e.(inserted := f.inserted))
      && (tv.Some? ==>
            && f.timeout && f.when == Time(if absolute then tv.value.usec else now + tv.value.usec, tv.value.common)
            && f.ioTimeout == (if f.persist && !f.signal && !absolute then tv.value else e.ioTimeout)
            && (f.active <==> e.active && !e.byTimeout))
  {
    hide Timed;
  }

  predicate HasDuration(ctls: seq<CommonList>, duration: nat) {
    exists i :: 0 <= i < |ctls| && ctls[i].duration == duration
  }

  /** A list with no events and a timer of its own. */
  predicate NewList(b: Base, c: Base, duration: nat) {
    c == b.(events := b.events + [Fresh(0, true, false, false, false)],
            ctls := b.ctls + [CommonList([], |b.events|, duration)])
  }

  /** One action. */
  ghost predicate Effect(b: Base, a: Action, c: Base) {
    if !ActionOk(b, a) then c == b
    else match a
      case DoAssign(persist, io, signal) =>
        c == if io && signal then b else b.(events := b.events + [Fresh(|b.queues| / 2, false, persist, io, signal)])
      case DoPriority(id, pri) =>
        c == if b.events[id].active || pri < 0 || pri >= |b.queues| then b
             else b.(events := b.events[id := b.events[id].(pri := pri)])
      case DoInitCommon(d, mem) =>
        if HasDuration(b.ctls, d) || |b.ctls| == MAX_COMMON_TIMEOUTS || !mem then c == b else NewList(b, c, d)
      case DoAdd(id, tv, ioOk, mem, now) =>
        var r := Reserved(b, id, tv, mem);
        if AddFails(b, id, tv, ioOk, mem) then c == r else Added(r, id, tv, false, now, mem, c)
      case DoDel(id, _) => Agree(b) && Deleted(b, c, id) && SameBooks(b, c)
      case DoActive(id, byTimeout) =>
        Activated(b, c, id) && SameBooks(b, c) && c.events[id].byTimeout == WithResult(b.events[id],
          byTimeout).byTimeout
      case DoActiveLater(id, _) => ActivatedLater(b, c, id) && SameBooks(b, c)
      case DoBreak => c == b
      case DoContinue => c == b
  }

  /** A script of actions, one after the other. */
  ghost predicate Performed(b: Base, script: seq<Action>, c: Base) {
    if script == [] then c == b
    else
      var front, last := script[..|script| - 1], script[|script| - 1];
      exists m :: Performed(b, front, m) && Effect(m, last, c)
  }

  lemma PerformedNone(b: Base)
    ensures Performed(b, [], b)
  {
  }

  lemma OneMorePerformed(b: Base, script: seq<Action>, i: nat, m: Base, c: Base)
    requires i < |script| && Performed(b, script[..i], m) && Effect(m, script[i], c)
    ensures Performed(b, script[..i + 1], c)
  {
    hide Effect;
    var s := script[..i + 1];
    assert s[..|s| - 1] == script[..i] && s[|s| - 1] == script[i];
  }

  // ---- callbacks

  /** The event that was started was the first of its queue. */
  predicate Headed(d: Dispatch) {
    d.pri < |d.before.queues| && d.before.queues[d.pri] != [] && d.id == d.before.queues[d.pri][0]
  }

  /** ... and nothing more urgent was active. */
  predicate Urgent(d: Dispatch) {
    Headed(d) && forall q :: 0 <= q < d.pri ==> d.before.queues[q] == []
  }

  /** The event leaves the queue of priority `p`, and all queues unless it is persistent. */
  ghost predicate Started(b: Base, id: Id, p: nat, c: Base) {
    && id < |b.events| && p < |b.queues| && b.queues[p] != [] && c.later == b.later && SameBooks(b, c)
    && c.events == b.events[id := if b.events[id].persist then b.events[id].(active := false) else Off(b.events[id])]
    && c.queues == b.queues[p := b.queues[p][1..]]
  }

  /** Whether event_persist_closure adds the event again. */
  predicate Repeats(e: Event) {
    e.persist && !e.signal && (e.ioTimeout.usec != 0 || e.ioTimeout.common.Some?)
  }

  /** event_persist_closure: the event is due again an interval later. */
  ghost predicate Repeated(b: Base, id: Id, turn: Turn, c: Base) {
    && id < |b.events|
    && var e := b.events[id];
       var tv := Some(RunAt(e, turn.now, |b.ctls|));
       if !Repeats(e) then c == b
       else
         var r := Reserved(b, id, tv, turn.mem);
         if AddFails(b, id, tv, turn.ioOk, turn.mem) then c == r else Added(r, id, tv, true, turn.now, turn.mem, c)
  }

  /** The loop of common_timeout_callback on list `k`: its first `n` events, and no more, were due and are
      active, at the end of their queues. */
  ghost predicate CommonExpired(b: Base, k: nat, n: nat, now: nat, c: Base) {
    && k < |b.ctls| && |c.ctls| == |b.ctls| && |c.events| == |b.events| && c.heap == b.heap && SameBooks(b, c)
    && (forall i: nat :: i < |b.ctls| && i != k ==> c.ctls[i] == b.ctls[i])
    && var l := b.ctls[k].events;
       && n <= |l| && c.ctls[k] == b.ctls[k].(events := l[n..]) && Below(l, |b.events|)
       && (forall j :: 0 <= j < n ==> b.events[l[j]].when.usec <= now)
       && (n < |l| ==> b.events[l[n]].when.usec > now)
       && c.queues == Requeued(b.events, b.queues, l[..n])
       && (forall x: Id :: x < |b.events| ==> c.events[x] == if x in l[..n] then Fired(b.events[x]) else b.events[x])
  }

  /** The end of common_timeout_callback: the timer of a list with events left is set again. */
  ghost predicate Rearmed(b: Base, k: nat, mem: bool, c: Base)
    requires k < |b.ctls|
  {
    if b.ctls[k].events == [] then c == b.(lost := b.lost - {k}) else TimerSet(b, k, mem, c)
  }

  /** The first `n` events of list `k` have fired so far. */
  ghost predicate ExpiredSoFar(b: Base, k: nat, n: nat, now: nat, c: Base) {
    && k < |b.ctls| && |c.ctls| == |b.ctls| && |c.events| == |b.events| && c.heap == b.heap && SameBooks(b, c)
    && (forall i: nat :: i < |b.ctls| && i != k ==> c.ctls[i] == b.ctls[i])
    && var l := b.ctls[k].events;
       && n <= |l| && c.ctls[k] == b.ctls[k].(events := l[n..]) && Below(l, |b.events|) && Distinct(l)
       && (forall j :: 0 <= j < n ==> b.events[l[j]].when.usec <= now)
       && c.queues == Requeued(b.events, b.queues, l[..n])
       && (forall x: Id :: x < |b.events| ==> c.events[x] == if x in l[..n] then Fired(b.events[x]) else b.events[x])
  }

  lemma ExpiredNone(b: Base, k: nat)
    requires Agree(b) && k < |b.ctls|
    ensures forall now :: ExpiredSoFar(b, k, 0, now, b)
  {
    assert b.ctls[k].events[..0] == [] && b.ctls[k].events[0..] == b.ctls[k].events;
  }

  lemma NextDue(b: Base, k: nat, n: nat, now: nat, c: Base)
    requires ExpiredSoFar(b, k, n, now, c) && c.ctls[k].events != []
    ensures n < |b.ctls[k].events| && c.ctls[k].events[0] == b.ctls[k].events[n] < |b.events| == |c.events|
    ensures c.events[b.ctls[k].events[n]] == b.events[b.ctls[k].events[n]]
  {
    hide Requeued;
  }

  lemma ExpiredMore(b: Base, k: nat, n: nat, now: nat, m: Base, c: Base)
    requires ExpiredSoFar(b, k, n, now, m) && m.ctls[k].events != [] && n < |b.ctls[k].events|
    requires SameBooks(m, c) && c.heap == m.heap && |m.events| == |b.events|
    requires c.ctls == m.ctls[k := m.ctls[k].(events := m.ctls[k].events[1..])]
    requires var id := b.ctls[k].events[n];
      && id < |b.events| && m.ctls[k].events[0] == id && m.events[id] == b.events[id] && b.events[id].when.usec <= now
      && c.events == m.events[id := Fired(m.events[id])] && c.queues == Requeue(m.events[id], m.queues, id)
    ensures ExpiredSoFar(b, k, n + 1, now, c)
  {
    var l := b.ctls[k].events;
    assert l[..n + 1] == l[..n] + [l[n]];
    OneMoreRequeued(b.events, b.queues, l[..n], l[n]);
    hide Requeued, Requeue;
    assert m.ctls[k].events[1..] == l[n + 1..];
  }

  lemma NoMoreDue(b: Base, k: nat, n: nat, now: nat, c: Base)
    requires ExpiredSoFar(b, k, n, now, c)
    requires c.ctls[k].events ==
      [] || (c.ctls[k].events[0] < |c.events| && c.events[c.ctls[k].events[0]].when.usec > now)
    ensures CommonExpired(b, k, n, now, c)
  {
    hide Requeued;
    if c.ctls[k].events != [] {
      NextDue(b, k, n, now, c);
    }
  }

  /** The callback's own work, if the event is the timer of a common-timeout list: if events are left on the
      list, the timer is set again, which may fail when others have taken its room in the heap. */
  ghost predicate Finished(b: Base, id: Id, now: nat, mem: bool, c: Base) {
    && SameSetup(b, c)
    && var k := TimerOf(b.ctls, id);
       if k < 0 then c == b
       else exists m, n :: CommonExpired(b, k, n, now, m) && Rearmed(m, k, mem, c)
  }

  /** Queues, flags and counters agree, and no common timeout is lost but those given up. */
  ghost predicate Sound(b: Base) {
    Agree(b) && TimersOk(b) && HeapFits(b) && NoneLost(b, None, b.lost)
  }

  /** One callback, with all that is done while it runs, and by others until the lock is taken again. */
  ghost predicate Called(d: Dispatch, turn: Turn, c: Base) {
    && Headed(d) && Sound(d.before) && Sound(c)
    && exists s, r, p, f :: Started(d.before, d.id, d.pri, s) && Repeated(s, d.id, turn, r)
         && Performed(r, turn.script, p) && Finished(p, d.id, turn.now, turn.mem, f) && Performed(f, turn.after, c)
  }

  lemma CalledInSteps(d: Dispatch, turn: Turn, s: Base, r: Base, p: Base, f: Base, c: Base)
    requires Headed(d) && Sound(d.before) && Sound(c)
    requires Started(d.before, d.id, d.pri, s) && Repeated(s, d.id, turn, r) && Performed(r, turn.script, p)
    requires Finished(p, d.id, turn.now, turn.mem, f) && Performed(f, turn.after, c)
    ensures Called(d, turn, c)
  {
    hide Sound, Started, Repeated, Performed, Finished;
  }

  /** Callbacks that follow each other, one for each of the first turns. */
  ghost predicate Calls(b: Base, ds: seq<Dispatch>, turns: seq<Turn>, c: Base) {
    if ds == [] then c == b
    else
      var n := |ds| - 1;
      n < |turns| && Calls(b, ds[..n], turns, ds[n].before) && Called(ds[n], turns[n], c)
  }

  lemma OneMoreCall(b: Base, ds: seq<Dispatch>, turns: seq<Turn>, d: Dispatch, c: Base)
    requires |ds| < |turns| && Calls(b, ds, turns, d.before) && Called(d, turns[|ds|], c)
    ensures Calls(b, ds + [d], turns, c)
  {
    hide Called;
    assert (ds + [d])[..|ds|] == ds;
  }

  lemma {:induction false} CallsJoin(b: Base, ds: seq<Dispatch>, turns: seq<Turn>, m: Base, es: seq<Dispatch>, c: Base)
    requires |ds| <= |turns| && Calls(b, ds, turns, m) && Calls(m, es, turns[|ds|..], c)
    ensures |ds| + |es| <= |turns| && Calls(b, ds + es, turns, c)
  {
    hide Called;
    if es == [] {
      assert ds + es == ds;
    } else {
      var n := |es| - 1;
      CallsJoin(b, ds, turns, m, es[..n], es[n].before);
      OneMoreCall(b, ds + es[..n], turns, es[n], c);
      assert ds + es[..n] + [es[n]] == ds + es;
    }
  }

  /** The first of the callbacks finds the base as it was. */
  lemma {:induction false} FirstCall(b: Base, ds: seq<Dispatch>, turns: seq<Turn>, c: Base)
    requires Calls(b, ds, turns, c) && ds != []
    ensures ds[0].before == b && Headed(ds[0])
    decreases ds
  {
    if |ds| > 1 {
      hide Called;
      FirstCall(b, ds[..|ds| - 1], turns, ds[|ds| - 1].before);
    }
  }

  /** Whether one of the turns calls event_base_loopbreak, or event_base_loopcontinue. */
  predicate Breaks(turns: seq<Turn>) {
    exists i :: 0 <= i < |turns| && turns[i].Does(DoBreak)
  }

  predicate Continues(turns: seq<Turn>) {
    exists i :: 0 <= i < |turns| && turns[i].Does(DoContinue)
  }

  lemma OneOfTurns(turns: seq<Turn>, i: nat)
    requires i < |turns|
    ensures (turns[i].Does(DoBreak) ==> Breaks(turns)) && (turns[i].Does(DoContinue) ==> Continues(turns))
  {
  }

  /** What event_base_loopbreak comes to in the first `n` turns: the flag, `was` before and `broken` now, and that no
      callback follows one after which it is set. */
  predicate Stopped(turns: seq<Turn>, n: nat, was: bool, broken: bool) {
    n <= |turns| && (broken <==> was || Breaks(turns[..n])) && (n > 1 ==> !was && !Breaks(turns[..n - 1]))
  }

  lemma StoppedNone(turns: seq<Turn>, was: bool)
    ensures Stopped(turns, 0, was, was) && InTime([], turns, 0)
  {
  }

  lemma StoppedOne(turns: seq<Turn>, n: nat, was: bool, mid: bool, broken: bool)
    requires Stopped(turns, n, was, mid) && n < |turns| && (n > 0 ==> !mid)
    requires broken == (mid || turns[n].Does(DoBreak))
    ensures Stopped(turns, n + 1, was, broken)
  {
    BreaksJoin(turns, n, 1);
    assert turns[n..][..1] == [turns[n]] && [turns[n]][0] == turns[n];
  }

  lemma StoppedJoin(turns: seq<Turn>, n: nat, k: nat, was: bool, mid: bool, broken: bool)
    requires n <= |turns| && Stopped(turns, n, was, mid) && Stopped(turns[n..], k, mid, broken) && (n > 0 ==> !mid)
    ensures Stopped(turns, n + k, was, broken)
  {
    BreaksJoin(turns, n, k);
    if k > 0 {
      BreaksJoin(turns, n, k - 1);
    }
  }

  lemma BreaksJoin(turns: seq<Turn>, n: nat, k: nat)
    requires n + k <= |turns|
    ensures Breaks(turns[..n + k]) <==> Breaks(turns[..n]) || Breaks(turns[n..][..k])
  {
    hide Breaks;
    assert turns[..n + k] == turns[..n] + turns[n..][..k];
    BreaksConcat(turns[..n], turns[n..][..k]);
  }

  lemma BreaksConcat(a: seq<Turn>, b: seq<Turn>)
    ensures Breaks(a + b) <==> Breaks(a) || Breaks(b)
  {
    if Breaks(a) {
      var i :| 0 <= i < |a| && a[i].Does(DoBreak);
      assert (a + b)[i] == a[i];
    }
    if Breaks(b) {
      var i :| 0 <= i < |b| && b[i].Does(DoBreak);
      assert (a + b)[|a| + i] == b[i];
    }
  }

  /** After event_base_loopcontinue no callback of the same or of a more urgent priority follows in the pass. */
  predicate SteppedDown(ds: seq<Dispatch>, turns: seq<Turn>) {
    |ds| <= |turns| && forall i :: 0 <= i < |ds| - 1 && turns[i].Does(DoContinue) ==> ds[i + 1].pri > ds[i].pri
  }

  lemma SteppedDownJoin(ds: seq<Dispatch>, es: seq<Dispatch>, turns: seq<Turn>, p: nat)
    requires |ds| <= |turns| && SteppedDown(ds, turns) && |es| <= |turns[|ds|..]|
    requires forall d :: d in ds ==> d.pri < p
    requires forall d :: d in es ==> d.pri == p
    requires forall i :: 0 <= i < |es| - 1 ==> !turns[|ds|..][i].Does(DoContinue)
    ensures SteppedDown(ds + es, turns)
    ensures forall d :: d in ds + es ==> d.pri < p + 1
  {
    var all := ds + es;
    forall i | 0 <= i < |all| - 1 && i < |ds| && turns[i].Does(DoContinue) ensures all[i + 1].pri > all[i].pri {
      assert ds[i] in ds;
      assert i + 1 == |ds| ==> es[0] in es;
    }
    forall i | |ds| <= i < |all| - 1 ensures !turns[i].Does(DoContinue) {
      assert turns[|ds|..][i - |ds|] == turns[i];
    }
  }

  /** What strict priority depends on: a pass over the queues is not cut short at priority 0 after internal
      callbacks alone, neither by a limit of 0 nor by event_base_loopcontinue. */
  predicate Strict(maxcb: nat, limitAfterPrio: nat, turns: seq<Turn>) {
    (maxcb > 0 || limitAfterPrio > 0) && !Continues(turns)
  }

  /** The pass over a queue ends with its first callback. */
  predicate CutShort(max: nat, turns: seq<Turn>) {
    max == 0 || (turns != [] && turns[0].Does(DoContinue))
  }

  predicate InternalCall(d: Dispatch) {
    d.id < |d.before.events| && d.before.events[d.id].internal
  }

  /** How many callbacks a pass over the queue of priority `p` may run. */
  function Limit(p: nat, maxcb: nat, limitAfterPrio: nat): (n: nat)
    ensures maxcb > 0 || p < limitAfterPrio ==> n > 0
    ensures limitAfterPrio <= p ==> n == maxcb
  {
    if p < limitAfterPrio then INT_MAX else maxcb
  }

  /** How a pass over the queues has moved on when it reaches priority `i`: the first callback was the most
      urgent one, after it nothing is passed by but empty queues, and a pass that is `cut` short at priority
      0 leaves it with its first callback. */
  ghost predicate Moved(b: Base, ds: seq<Dispatch>, i: nat, cut: bool, qs: seq<seq<Id>>) {
    && (if ds == [] then qs == b.queues && forall q :: 0 <= q < i && q < |qs| ==> qs[q] == []
        else Urgent(ds[0]) && ds[0].pri < i)
    && (|ds| == 1 ==> forall q :: ds[0].pri < q < i && q < |qs| ==> qs[q] == [])
    && (cut && |ds| >= 2 && ds[0].pri == 0 ==> ds[1].pri > 0)
  }

  lemma MovedOn(b: Base, ds: seq<Dispatch>, m: Base, es: seq<Dispatch>, turns: seq<Turn>, c: Base, i: nat, cut: bool)
    requires Moved(b, ds, i, cut, m.queues) && i < |m.queues|
    requires Calls(m, es, turns, c) && es != [] && forall d :: d in es ==> d.pri == i
    requires i == 0 && cut ==> |es| <= 1
    ensures Moved(b, ds + es, i + 1, cut, c.queues)
  {
    hide Calls;
    assert forall k :: 0 <= k < |es| ==> es[k] in es;
    FirstCall(m, es, turns, c);
  }

  lemma MovedPast(b: Base, ds: seq<Dispatch>, i: nat, cut: bool, qs: seq<seq<Id>>)
    requires Moved(b, ds, i, cut, qs) && i < |qs| && qs[i] == []
    ensures Moved(b, ds, i + 1, cut, qs)
  {
  }

  lemma MovedAll(b: Base, ds: seq<Dispatch>, i: nat, cut: bool, qs: seq<seq<Id>>, n: nat)
    requires Moved(b, ds, i, cut, qs) && i <= n == |qs|
    ensures ds != [] ==> Urgent(ds[0])
    ensures ds == [] && i == n ==> b.queues == qs && forall q :: 0 <= q < n ==> qs[q] == []
    ensures cut && |ds| >= 2 && ds[0].pri == 0 ==> ds[1].pri > 0
    ensures |ds| == 1 && i == n ==> forall q :: ds[0].pri < q < n ==> qs[q] == []
  {
  }

  predicate AllUrgent(ds: seq<Dispatch>) {
    forall d :: d in ds ==> Urgent(d)
  }

  lemma AllUrgentJoin(ds: seq<Dispatch>, es: seq<Dispatch>)
    ensures AllUrgent([]) && (AllUrgent(ds) && AllUrgent(es) ==> AllUrgent(ds + es))
  {
  }

  /** How many of the callbacks were not internal. */
  function UserCalls(ds: seq<Dispatch>): nat {
    if ds == [] then 0
    else UserCalls(ds[..|ds| - 1]) + if InternalCall(ds[|ds| - 1]) then 0 else 1
  }

  lemma OneMoreUser(ds: seq<Dispatch>, d: Dispatch)
    ensures UserCalls(ds + [d]) == UserCalls(ds) + if InternalCall(d) then 0 else 1
  {
    assert (ds + [d])[..|ds|] == ds;
  }

  /** One queue, or a pass over the queues up to priority `i`: `c`, the number of callbacks of the program, or -1 after
      event_base_loopbreak. */
  predicate Tallied(ds: seq<Dispatch>, c: int, broken: bool, maxcb: nat, limitAfterPrio: nat) {
    && (if ds == [] then c == 0 else c < 0 <==> broken) && (!broken ==> c == UserCalls(ds))
    && (limitAfterPrio == 0 ==> c <= if maxcb == 0 then 1 else maxcb)
  }

  predicate Paced(ds: seq<Dispatch>, turns: seq<Turn>, i: nat, was: bool, broken: bool) {
    Stopped(turns, |ds|, was, broken) && SteppedDown(ds, turns) && forall d :: d in ds ==> d.pri < i
  }

  lemma PacedNone(turns: seq<Turn>, was: bool, maxcb: nat, limitAfterPrio: nat)
    ensures Paced([], turns, 0, was, was) && Tallied([], 0, was, maxcb, limitAfterPrio)
  {
  }

  lemma PacedUpTo(ds: seq<Dispatch>, turns: seq<Turn>, i: nat, n: nat, was: bool, broken: bool)
    requires Paced(ds, turns, i, was, broken) && i <= n
    ensures Paced(ds, turns, n, was, broken)
  {
  }

  /** The next queue of a pass. */
  lemma PacedOn(ds: seq<Dispatch>, es: seq<Dispatch>, turns: seq<Turn>, i: nat, was: bool, mid: bool, broken: bool,
                c: int, maxcb: nat, limitAfterPrio: nat)
    requires Paced(ds, turns, i, was, mid) && Tallied(ds, 0, mid, maxcb, limitAfterPrio) && |ds| <= |turns|
    requires es != [] && Stopped(turns[|ds|..], |es|, mid, broken) && Tallied(es, c, broken, maxcb, limitAfterPrio)
    requires forall d :: d in es ==> d.pri == i
    requires forall k :: 0 <= k < |es| - 1 ==> !turns[|ds|..][k].Does(DoContinue)
    ensures Paced(ds + es, turns, i + 1, was, broken) && Tallied(ds + es, c, broken, maxcb, limitAfterPrio)
  {
    StoppedJoin(turns, |ds|, |es|, was, mid, broken);
    SteppedDownJoin(ds, es, turns, i);
    UserCallsJoin(ds, es);
    hide Stopped, SteppedDown, UserCalls;
  }

  /** After none of the first `n` callbacks was the time up with one of the program's run. */
  predicate InTime(ds: seq<Dispatch>, turns: seq<Turn>, n: nat) {
    n <= |ds| && n <= |turns| && forall k :: 0 <= k < n && turns[k].late ==> UserCalls(ds[..k + 1]) == 0
  }

  lemma InTimeMore(ds: seq<Dispatch>, d: Dispatch, turns: seq<Turn>)
    requires InTime(ds, turns, |ds|) && |ds| < |turns|
    ensures InTime(ds + [d], turns, |ds|)
    ensures !turns[|ds|].late || UserCalls(ds + [d]) == 0 ==> InTime(ds + [d], turns, |ds| + 1)
  {
    hide UserCalls;
    forall k | 0 <= k < |ds| && turns[k].late ensures UserCalls((ds + [d])[..k + 1]) == 0 {
      assert (ds + [d])[..k + 1] == ds[..k + 1];
    }
    assert (ds + [d])[..|ds| + 1] == ds + [d];
  }

  lemma UrgentNow(d: Dispatch)
    requires Headed(d)
    ensures d.pri < |d.before.queues| && (NoneBelow(d.before.queues, d.pri) ==> Urgent(d))
  {
  }

  lemma {:induction false} UserCallsJoin(ds: seq<Dispatch>, es: seq<Dispatch>)
    ensures UserCalls(ds + es) == UserCalls(ds) + UserCalls(es)
    decreases es
  {
    if es == [] {
      assert ds + es == ds;
    } else {
      var n := |es| - 1;
      assert (ds + es)[..|ds + es| - 1] == ds + es[..n];
      UserCallsJoin(ds, es[..n]);
    }
  }

  lemma FewerTurns(turns: seq<Turn>, n: nat)
    requires n <= |turns|
    ensures (Continues(turns[n..]) ==> Continues(turns)) && (Breaks(turns[n..]) ==> Breaks(turns))
  {
    if Continues(turns[n..]) {
      var i :| 0 <= i < |turns[n..]| && turns[n..][i].Does(DoContinue);
      assert turns[n + i].Does(DoContinue);
    }
    if Breaks(turns[n..]) {
      var i :| 0 <= i < |turns[n..]| && turns[n..][i].Does(DoBreak);
      assert turns[n + i].Does(DoBreak);
    }
  }

  lemma TurnsLeft(turns: seq<Turn>, n: nat, k: nat)
    requires n + k <= |turns|
    ensures turns[n..][k..] == turns[n + k..]
  {
  }

  lemma NoCalls(b: Base, turns: seq<Turn>)
    ensures Calls(b, [], turns, b) && UserCalls([]) == 0
  {
  }

  /** No callback is active at a priority more urgent than `p`. */
  predicate NoneBelow(queues: seq<seq<Id>>, p: nat) {
    forall q :: 0 <= q < p && q < |queues| ==> queues[q] == []
  }

  /** A pass over the queues that has reached priority `i`, with `c` as the result of the last queue. */
  ghost predicate Pass(
    b: Base, ds: seq<Dispatch>, turns: seq<Turn>, i: nat, cut: bool, strict: bool, v: Base, c: int, noticed: bool,
    broken: bool)
  {
    && |ds| <= |turns| && Calls(b, ds, turns, v) && Moved(b, ds, i, cut, v.queues) && |v.queues| == |b.queues|
    && (i == 0 ==> ds == []) && (ds == [] ==> c == 0) && (|ds| == 1 && InternalCall(ds[0]) && !broken ==> c == 0)
    && (strict ==> AllUrgent(ds) && (c == 0 && |ds| < |turns| ==> NoneBelow(v.queues, i) && !noticed))
  }

  lemma NotPassed(b: Base, turns: seq<Turn>, cut: bool, strict: bool, noticed: bool)
    requires strict ==> !noticed
    ensures forall broken :: Pass(b, [], turns, 0, cut, strict, b, 0, noticed, broken)
    ensures turns[0..] == turns
  {
    NoCalls(b, turns);
  }

  /** A queue with callbacks in it is processed. */
  lemma PassOn(
    b: Base, ds: seq<Dispatch>, turns: seq<Turn>, i: nat, maxcb: nat, limitAfterPrio: nat, strict: bool, m: Base,
    was: bool, wasBroken: bool, es: seq<Dispatch>, v: Base, c: int, noticed: bool, broken: bool)
    requires strict ==> Strict(maxcb, limitAfterPrio, turns)
    requires |ds| < |turns| && i < |m.queues| == |v.queues|
    requires Pass(b, ds, turns, i, CutShort(Limit(0, maxcb, limitAfterPrio), turns), strict, m, 0, was, wasBroken)
    requires Calls(m, es, turns[|ds|..], v) && es != [] && forall d :: d in es ==> d.pri == i && Headed(d)
    requires CutShort(Limit(i, maxcb, limitAfterPrio), turns[|ds|..]) ==> |es| <= 1
    requires NoneBelow(m.queues, i) && !was && !Continues(turns[|ds|..]) ==> AllUrgent(es)
    requires !broken ==> c == UserCalls(es)
    requires
      var quiet := NoneBelow(m.queues, i) && !was && !Continues(turns[|ds|..]);
      quiet && c == 0 && (Limit(i, maxcb, limitAfterPrio) > 0 || i > 0) && |es| < |turns[|ds|..]| ==>
        v.queues[i] == [] && NoneBelow(v.queues, i) && !noticed
    ensures Pass(b, ds + es, turns, i + 1, CutShort(Limit(0, maxcb, limitAfterPrio), turns), strict, v, c, noticed,
      broken)
  {
    hide Calls, Moved, AllUrgent, Continues, CutShort, Headed, InternalCall;
    SingleInternal(es);
    hide UserCalls;
    NoneBelowMore(v.queues, i);
    hide NoneBelow;
    var left := turns[|ds|..];
    assert ds == [] ==> left == turns;
    CallsJoin(b, ds, turns, m, es, v);
    MovedOn(b, ds, m, es, left, v, i, CutShort(Limit(0, maxcb, limitAfterPrio), turns));
    AllUrgentJoin(ds, es);
    FewerTurns(turns, |ds|);
  }

  lemma NoneBelowMore(queues: seq<seq<Id>>, i: nat)
    requires i < |queues|
    ensures NoneBelow(queues, i) && queues[i] == [] ==> NoneBelow(queues, i + 1)
  {
  }

  lemma SingleInternal(ds: seq<Dispatch>)
    ensures |ds| == 1 && InternalCall(ds[0]) ==> UserCalls(ds) == 0
  {
  }

  /** An empty queue is passed by. */
  lemma PassBy(
    b: Base, ds: seq<Dispatch>, turns: seq<Turn>, i: nat, cut: bool, strict: bool, v: Base, noticed: bool, broken: bool)
    requires Pass(b, ds, turns, i, cut, strict, v, 0, noticed, broken) && i < |v.queues| && v.queues[i] == []
    ensures Pass(b, ds, turns, i + 1, cut, strict, v, 0, noticed, broken)
  {
    hide Calls, Moved, AllUrgent;
    MovedPast(b, ds, i, cut, v.queues);
  }

  /** What a pass over the queues has done when it ends. */
  lemma PassedAll(
    b: Base, ds: seq<Dispatch>, turns: seq<Turn>, i: nat, cut: bool, strict: bool, v: Base, c: int, noticed: bool,
    broken: bool)
    requires Pass(b, ds, turns, i, cut, strict, v, c, noticed, broken) && i <= |v.queues|
    requires i == |v.queues| || c != 0 || |ds| == |turns|
    ensures Calls(b, ds, turns, v) && (ds != [] ==> Urgent(ds[0]))
    ensures turns != [] && SomeActive(b) ==> ds != []
    ensures strict ==> AllUrgent(ds) && (c == 0 && |ds| < |turns| ==> !SomeActive(v))
    ensures cut && |ds| >= 2 && ds[0].pri == 0 ==> ds[1].pri > 0
    ensures |ds| == 1 < |turns| && c == 0 ==> forall q :: ds[0].pri < q < |v.queues| ==> v.queues[q] == []
    ensures |ds| == 1 && InternalCall(ds[0]) && !broken ==> c == 0
  {
    hide Calls, AllUrgent, Urgent;
    MovedAll(b, ds, i, cut, v.queues, |v.queues|);
  }

  // ---- the loop

  /** One round of event_base_loop: what other threads do while the lock is released for the poll and the
      events that I/O makes active then, the time, whether there are virtual events, the dispatch limits
      and the callbacks that follow. */
  datatype Round = Round(
    poll: seq<Action>, now: nat, virtual: bool, maxcb: nat, limitAfterPrio: nat, timed: bool, turns: seq<Turn>)

  /** What happens to a base: a call, or a loop of any number of rounds. A loop that ends for reasons of its
      flags, of event_base_loopexit or of a failing poll is one with no more rounds. */
  datatype Happening =
    | Act(action: Action)
    | Loop(exitOnEmpty: bool, rounds: seq<Round>)

  predicate SomeActive(b: Base) {
    exists q :: 0 <= q < |b.queues| && b.queues[q] != []
  }

  /** Whether strict priority is promised for the round. */
  predicate StrictRound(r: Round) {
    Strict(r.maxcb, r.limitAfterPrio, r.turns) && DoContinue !in r.poll
  }

  /** Whether event_base_loopbreak has been called when the round ends. */
  predicate Broke(r: Round, ds: seq<Dispatch>) {
    DoBreak in r.poll || (|ds| <= |r.turns| && Breaks(r.turns[..|ds|]))
  }

  /** The callbacks `ds` were started from `b`, one per turn; some were, if there were any; the first was
      the most urgent one, and in a strict round all were; none followed event_base_loopbreak but the one
      that comes after the poll. */
  ghost predicate Dispatched(b: Base, r: Round, ds: seq<Dispatch>, c: Base) {
    && |ds| <= |r.turns| && Calls(b, ds, r.turns, c)
    && (SomeActive(b) && r.turns != [] ==> ds != [])
    && (ds != [] ==> Urgent(ds[0]))
    && (StrictRound(r) ==> AllUrgent(ds))
    && Stopped(r.turns, |ds|, DoBreak in r.poll, Broke(r, ds)) && SteppedDown(ds, r.turns)
  }

  ghost predicate RoundRuns(b: Base, r: Round, ds: seq<Dispatch>, c: Base) {
    exists l, p, t :: LaterActive(b, l) && Sound(l) && Performed(l, r.poll, p) && Sound(p) && TimedOut(p, r.now, t)
      && Sound(t) && Dispatched(t, r, ds, c)
  }

  lemma RoundInSteps(b: Base, r: Round, l: Base, p: Base, t: Base, ds: seq<Dispatch>, c: Base)
    requires LaterActive(b, l) && Sound(l) && Performed(l, r.poll, p) && Sound(p) && TimedOut(p, r.now, t) && Sound(t)
    requires Dispatched(t, r, ds, c)
    ensures RoundRuns(b, r, ds, c)
  {
    hide LaterActive, Sound, Performed, TimedOut, Dispatched;
  }

  /** No event of the program is waiting for anything. */
  ghost predicate Idle(b: Base) {
    !SomeActive(b) && b.later == [] && forall x: Id :: x < |b.events| && !b.events[x].internal ==>
      !b.events[x].inserted && !b.events[x].timeout && !b.events[x].active && !b.events[x].later
  }

  /** Rounds one after the other, with all callbacks started in them. None is begun after event_base_loopbreak, which
      `broke` says has been called in the last one, nor with nothing to wait for. */
  ghost predicate RoundsRun(b: Base, exitOnEmpty: bool, rounds: seq<Round>, ds: seq<Dispatch>, c: Base, broke: bool) {
    if rounds == [] then ds == [] && c == b && !broke
    else
      var front, last := rounds[..|rounds| - 1], rounds[|rounds| - 1];
      exists m, es, fs ::
        && ds == es + fs && RoundsRun(b, exitOnEmpty, front, es, m, false) && RoundRuns(m, last, fs, c)
        && (exitOnEmpty && !last.virtual ==> !Idle(m)) && broke == Broke(last, fs)
  }

  /** Why a loop ended before its rounds were used up. */
  ghost predicate Ended(exitOnEmpty: bool, rounds: seq<Round>, n: nat, broke: bool, c: Base) {
    n < |rounds| ==> broke || (exitOnEmpty && !rounds[n].virtual && Idle(c))
  }

  /** One happening, with the callbacks that were started in it. */
  ghost predicate Follows(b: Base, h: Happening, ds: seq<Dispatch>, c: Base) {
    match h
    case Act(a) => ds == [] && Effect(b, a, c)
    case Loop(exitOnEmpty, rounds) =>
      exists n, broke :: 0 <= n <= |rounds| && RoundsRun(b, exitOnEmpty, rounds[..n], ds, c, broke) &&
        Ended(exitOnEmpty, rounds, n, broke, c)
  }

  /** A run: happenings from one sound base to the next. */
  ghost predicate Leads(b: Base, hs: seq<Happening>, ds: seq<Dispatch>, c: Base) {
    && Sound(c)
    && if hs == [] then ds == [] && c == b
       else
         var front, last := hs[..|hs| - 1], hs[|hs| - 1];
         exists m, es, fs :: ds == es + fs && Leads(b, front, es, m) && Follows(m, last, fs, c)
  }

  lemma NoRounds(b: Base, exitOnEmpty: bool)
    ensures RoundsRun(b, exitOnEmpty, [], [], b, false)
  {
  }

  lemma OneMoreRound(b: Base, exitOnEmpty: bool, rounds: seq<Round>, n: nat, ds: seq<Dispatch>, m: Base,
                     es: seq<Dispatch>, c: Base)
    requires n < |rounds| && RoundsRun(b, exitOnEmpty, rounds[..n], ds, m, false) && RoundRuns(m, rounds[n], es, c)
    requires exitOnEmpty && !rounds[n].virtual ==> !Idle(m)
    ensures RoundsRun(b, exitOnEmpty, rounds[..n + 1], ds + es, c, Broke(rounds[n], es))
  {
    hide RoundRuns, Idle, Broke;
    var s := rounds[..n + 1];
    assert s[..|s| - 1] == rounds[..n] && s[|s| - 1] == rounds[n];
  }

  lemma LoopEnds(b: Base, exitOnEmpty: bool, rounds: seq<Round>, n: nat, ds: seq<Dispatch>, c: Base, broke: bool)
    requires n <= |rounds| && RoundsRun(b, exitOnEmpty, rounds[..n], ds, c, broke)
    requires Ended(exitOnEmpty, rounds, n, broke, c)
    ensures Follows(b, Loop(exitOnEmpty, rounds), ds, c)
  {
    hide RoundsRun, Ended;
  }

  lemma NothingLeads(b: Base)
    requires Sound(b)
    ensures Leads(b, [], [], b)
  {
  }

  lemma OneMoreHappening(b: Base, hs: seq<Happening>, n: nat, ds: seq<Dispatch>, m: Base, es: seq<Dispatch>, c: Base)
    requires n < |hs| && Leads(b, hs[..n], ds, m) && Follows(m, hs[n], es, c) && Sound(c)
    ensures Leads(b, hs[..n + 1], ds + es, c)
  {
    hide Follows, Sound;
    var s := hs[..n + 1];
    assert s[..|s| - 1] == hs[..n] && s[|s| - 1] == hs[n];
  }

  /** Whether strict priority is promised throughout. */
  predicate StrictRun(hs: seq<Happening>) {
    forall i, j :: 0 <= i < |hs| && hs[i].Loop? && 0 <= j < |hs[i].rounds| ==> StrictRound(hs[i].rounds[j])
  }

  lemma {:induction false} RoundsUrgent(b: Base, exitOnEmpty: bool, rounds: seq<Round>, ds: seq<Dispatch>, c: Base,
                                        broke: bool)
    requires RoundsRun(b, exitOnEmpty, rounds, ds, c, broke) && forall j :: 0 <= j < |rounds| ==> StrictRound(rounds[j])
    ensures AllUrgent(ds)
  {
    hide StrictRound, Urgent, Calls, LaterActive, Performed, TimedOut, Sound, Idle, Broke, Stopped, SteppedDown;
    if rounds != [] {
      var front, last := rounds[..|rounds| - 1], rounds[|rounds| - 1];
      var m, es, fs :|
        && ds == es + fs && RoundsRun(b, exitOnEmpty, front, es, m, false) && RoundRuns(m, last, fs, c)
        && (exitOnEmpty && !last.virtual ==> !Idle(m)) && broke == Broke(last, fs);
      RoundsUrgent(b, exitOnEmpty, front, es, m, false);
    }
  }

  /** Strict priority over a whole run: no callback was started while a more urgent one was active. */
  lemma {:induction false} StrictPriority(b: Base, hs: seq<Happening>, ds: seq<Dispatch>, c: Base)
    requires Leads(b, hs, ds, c) && StrictRun(hs)
    ensures AllUrgent(ds)
  {
    hide StrictRound, Urgent, RoundsRun, Sound, Effect, Ended;
    if hs != [] {
      var front, last := hs[..|hs| - 1], hs[|hs| - 1];
      var m, es, fs :| ds == es + fs && Leads(b, front, es, m) && Follows(m, last, fs, c);
      StrictPriority(b, front, es, m);
      if last.Loop? {
        var n, broke :| 0 <= n <= |last.rounds| && RoundsRun(m, last.exitOnEmpty, last.rounds[..n], fs, c, broke) &&
          Ended(last.exitOnEmpty, last.rounds, n, broke, c);
        RoundsUrgent(m, last.exitOnEmpty, last.rounds[..n], fs, c, broke);
      }
    }
  }

  lemma {:induction false} NoWeight(es: seq<Event>)
    requires Weights(es) <= 0
    ensures Weights(es) == 0 && forall x :: 0 <= x < |es| ==> Weight(es[x]) == 0
  {
    if es != [] {
      WeightsNat(es[1..]);
      NoWeight(es[1..]);
      assert forall x :: 0 < x < |es| ==> es[x] == es[1..][x - 1];
    }
  }

  lemma {:induction false} WeightsNat(es: seq<Event>)
    ensures Weights(es) >= 0
  {
    if es != [] {
      WeightsNat(es[1..]);
    }
  }

  lemma {:induction false} AllWeightless(es: seq<Event>)
    requires forall x :: 0 <= x < |es| ==> Weight(es[x]) == 0
    ensures Weights(es) == 0
  {
    if es != [] {
      AllWeightless(es[1..]);
    }
  }

  /** The counters tell exactly whether anything is left to wait for. */
  lemma CountersIdle(b: Base)
    requires Agree(b)
    ensures b.count <= 0 && b.countActive == 0 <==> Idle(b)
  {
    hide Agree, Idle;
    if b.count <= 0 && b.countActive == 0 {
      NothingCounted(b);
    }
    if Idle(b) {
      IdleUncounted(b);
    }
  }

  lemma NothingCounted(b: Base)
    requires Agree(b) && b.count <= 0 && b.countActive == 0
    ensures Idle(b)
  {
    NoWeight(b.events);
    if SomeActive(b) {
      ActiveCounted(b);
    }
    forall x: Id | x < |b.events| && !b.events[x].internal
      ensures !b.events[x].inserted && !b.events[x].timeout && !b.events[x].active && !b.events[x].later
    {
      assert Weight(b.events[x]) == 0;
    }
  }

  lemma IdleUncounted(b: Base)
    requires Agree(b) && Idle(b)
    ensures b.count == 0 && b.countActive == 0
  {
    forall x | 0 <= x < |b.events| ensures Weight(b.events[x]) == 0 {
      assert !b.events[x].internal ==> !b.events[x].active;
    }
    AllWeightless(b.events);
    NoLengths(b.queues);
  }

  lemma ActiveCounted(b: Base)
    requires Agree(b) && SomeActive(b)
    ensures b.countActive > 0
  {
    var q :| 0 <= q < |b.queues| && b.queues[q] != [];
    LengthsUpdate(b.queues, q, []);
  }
}
