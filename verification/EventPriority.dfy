/** What the invariants of an event base are for: a common timeout that is due fires, and the limits of
    strict priority. */
module EventPriorities {
  import opened Bytes
  import opened Options
  import opened EventQueues
  import opened EventEffects
  import opened EventBases
  import opened EventMemory

  /** An event on a common-timeout list that is due finds the list's timer active once timeouts have been
      processed. */
  lemma DueListFires(b: Base, now: nat, c: Base, x: Id, k: nat)
    requires Sound(b) && TimedOut(b, now, c) && k < |b.ctls|
    requires x < |b.events| && b.events[x].timeout && b.events[x].when.common == Some(k) && b.events[x].when.usec <= now
    requires k !in b.lost
    ensures b.ctls[k].timer < |c.events| && c.events[b.ctls[k].timer].active
  {
    assert Placed(b, x);
    var l := b.ctls[k];
    assert TimerOk(b, l.timer) && Placed(b, l.timer);
    assert Sorted(b.events, l.events) && Ready(b, None, k);
    var j :| 0 <= j < |l.events| && l.events[j] == x;
    assert b.events[l.events[0]].when.usec <= now;
    var ids :| Popped(b, ids, c) && DueIn(b, ids, c, now);
  }

  /** Processing timeouts takes no event off an active queue. */
  lemma ActiveStays(b: Base, now: nat, c: Base, x: Id)
    requires TimedOut(b, now, c) && x < |b.events| && b.events[x].active
    ensures |c.events| == |b.events| && c.events[x].active
  {
    var ids :| Popped(b, ids, c) && DueIn(b, ids, c, now);
  }

  /** A callback that does nothing but, perhaps, call event_base_loopcontinue. */
  predicate Idles(t: Turn) {
    && (forall i :: 0 <= i < |t.script| ==> t.script[i] == DoContinue)
    && (forall i :: 0 <= i < |t.after| ==> t.after[i] == DoContinue)
  }

  lemma {:induction false} NothingPerformed(b: Base, script: seq<Action>, c: Base)
    requires Performed(b, script, c) && forall i :: 0 <= i < |script| ==> script[i] == DoContinue
    ensures c == b
  {
    if script != [] {
      var front, last := script[..|script| - 1], script[|script| - 1];
      var m :| Performed(b, front, m) && Effect(m, last, c);
      NothingPerformed(b, front, m);
    }
  }

  /** It leaves the other active events active, with their priorities. */
  lemma OthersStay(d: Dispatch, t: Turn, c: Base, x: Id)
    requires Called(d, t, c) && Idles(t) && x < |d.before.events| && x != d.id && d.before.events[x].active
    requires d.id < |d.before.events| && !d.before.events[d.id].persist
    ensures x < |c.events| && c.events[x].active && c.events[x].pri == d.before.events[x].pri
    ensures |c.queues| == |d.before.queues| && Agree(c)
  {
    hide Agree, TimersOk, NoneLost, Performed;
    var s, r, p, f :| Started(d.before, d.id, d.pri, s) && Repeated(s, d.id, t, r) && Performed(r, t.script, p)
      && Finished(p, d.id, t.now, t.mem, f) && Performed(f, t.after, c);
    NothingPerformed(r, t.script, p);
    NothingPerformed(f, t.after, c);
    assert p == s;
    if TimerOf(p.ctls, d.id) >= 0 {
      var k := TimerOf(p.ctls, d.id);
      var m, n :| CommonExpired(p, k, n, t.now, m) && Rearmed(m, k, t.mem, c);
      RearmedOthers(m, k, t.mem, c, x);
    }
  }

  /** Setting a timer leaves the other events alone. */
  lemma RearmedOthers(b: Base, k: nat, mem: bool, c: Base, x: Id)
    requires k < |b.ctls| && Rearmed(b, k, mem, c) && x < |b.events| && x != b.ctls[k].timer
    ensures x < |c.events| && c.events[x] == b.events[x]
  {
    hide Put, Agree;
    if b.ctls[k].events != [] {
      PutFacts(b, b.ctls[k].timer, Time(b.events[b.ctls[k].events[0]].when.usec, None), mem);
    }
  }

  lemma ActiveListed(b: Base, x: Id)
    requires Agree(b) && x < |b.events| && b.events[x].active
    ensures b.events[x].pri < |b.queues| && x in b.queues[b.events[x].pri]
  {
    assert Placed(b, x);
  }

  /** Two internal events of priority 0 and one of the program's of priority 1 are active. */
  ghost predicate TwoTimers(b: Base) {
    && Sound(b) && |b.queues| == 2 && |b.events| == 5
    && (forall x :: 0 <= x < 2 ==>
          b.events[x].active && b.events[x].internal && !b.events[x].persist && b.events[x].pri == 0)
    && (forall x :: 2 <= x < 5 ==> b.events[x].pri == 1 && !b.events[x].internal) && b.events[4].active
  }

  /** The first callback of a pass is then one of the internal events. */
  lemma FirstIsTimer(b: Base, d: Dispatch)
    requires TwoTimers(b) && Urgent(d) && d.before == b
    ensures d.pri == 0 && d.id < 2 && InternalCall(d)
  {
    ActiveListed(b, 0);
    assert d.pri == 0;
    FirstActive(b, 0);
  }

  /** ... and the other one stays active, and the program's event too. */
  lemma OthersWait(b: Base, d: Dispatch, t: Turn, c: Base)
    requires TwoTimers(b) && Urgent(d) && d.before == b && Idles(t) && Called(d, t, c)
    ensures |c.queues| == 2 && c.queues[0] != [] && c.queues[1] != []
  {
    hide Called, Sound, Agree;
    FirstIsTimer(b, d);
    OthersStay(d, t, c, 1 - d.id);
    OthersStay(d, t, c, 4);
    ActiveListed(c, 1 - d.id);
    ActiveListed(c, 4);
  }

  /** A pass that is cut short goes on to the program's event while the other internal one is active. */
  lemma SecondNotUrgent(b: Base, ds: seq<Dispatch>, turns: seq<Turn>, c: Base)
    requires TwoTimers(b) && |turns| == 2 && Calls(b, ds, turns, c) && Idles(turns[0])
    requires ds != [] && Urgent(ds[0]) && (|ds| >= 2 && ds[0].pri == 0 ==> ds[1].pri > 0)
    requires |ds| == 1 && InternalCall(ds[0]) ==> forall q :: ds[0].pri < q < |c.queues| ==> c.queues[q] == []
    ensures |ds| == 2 && ds[0].pri == 0 && ds[1].pri > 0 && !Urgent(ds[1])
  {
    hide Called, Agree, Sound, TwoTimers;
    FirstCall(b, ds, turns, c);
    FirstIsTimer(b, ds[0]);
    if |ds| == 1 {
      OthersWait(b, ds[0], turns[0], c);
      assert false;
    } else {
      assert ds[..1][..0] == [];
      OthersWait(b, ds[0], turns[0], ds[1].before);
    }
  }

  /** Five events of a base with two priorities: the timers of two lists and three of the program's. */
  ghost predicate FiveEvents(b: Base) {
    && |b.queues| == 2 && |b.events| == 5 && |b.ctls| == 2 && b.ctls[0].timer == 0 && b.ctls[1].timer == 1
    && (forall x :: 0 <= x < 2 ==> b.events[x].internal && b.events[x].pri == 0)
    && (forall x :: 2 <= x < 5 ==> b.events[x].pri == 1 && !b.events[x].internal)
  }

  /** Nothing is running and nothing has been noticed. */
  ghost predicate Quiet(base: EventBase)
    reads base
  {
    && base.Valid() && base.current == None && base.running == -1 && base.trace == [] && base.lost == {}
    && !base.eventContinue && !base.eventBreak
  }

  method SetUpFive() returns (base: EventBase)
    ensures fresh(base) && Quiet(base) && FiveEvents(base.View())
    ensures forall x :: 2 <= x < 5 ==> base.events[x] == Fresh(1, false, false, false, false)
  {
    hide Agree, TimersOk, NoneLost, HeapFits, IsTimer;
    base := SetUpLists();
    var id := base.EventAssign(false, false, false);
    id := base.EventAssign(false, false, false);
    id := base.EventAssign(false, false, false);
  }

  method SetUpLists() returns (base: EventBase)
    ensures fresh(base) && Quiet(base) && |base.queues| == 2 && |base.events| == 2 && |base.ctls| == 2
    ensures base.ctls[0].timer == 0 && base.ctls[1].timer == 1
    ensures forall x :: 0 <= x < 2 ==> base.events[x].internal && base.events[x].pri == 0
  {
    hide Agree, TimersOk, NoneLost, HeapFits, IsTimer;
    base := new EventBase(2);
    var k := base.InitCommonTimeout(1, true);
    k := base.InitCommonTimeout(2, true);
  }

  lemma NotATimer(b: Base, x: Id)
    requires FiveEvents(b) && 2 <= x < 5
    ensures !IsTimer(b, x)
  {
  }

  lemma StillFive(b: Base, c: Base)
    requires FiveEvents(b) && SameSetup(b, c)
    ensures FiveEvents(c)
  {
  }

  /** Two of them wait on the two lists, the third is active. */
  ghost predicate TwoWait(b: Base) {
    && FiveEvents(b) && b.events[4].active && b.lost == {}
    && (forall x :: 2 <= x < 4 ==> b.events[x].timeout && b.events[x].when == Time(x - 1, Some(x - 2)))
  }

  method AddOnList(base: EventBase, k: nat)
    requires Quiet(base) && FiveEvents(base.View()) && k < 2 &&
      base.events[k + 2] == Fresh(1, false, false, false, false)
    modifies base
    ensures Quiet(base) && FiveEvents(base.View())
    ensures base.events[k + 2].timeout && base.events[k + 2].when == Time(k + 1, Some(k))
    ensures forall x :: 2 <= x < 5 && x != k + 2 ==> base.events[x] == old(base.events)[x]
  {
    hide Agree, TimersOk, NoneLost, IsTimer, SameSetup, Timed, HeapFits, base.Valid, RoomFor;
    ghost var b := base.View();
    var tv := Time(k + 1, Some(k));
    ghost var r := Reserved(b, k + 2, Some(tv), true);
    NotATimer(b, k + 2);
    NotATimer(r, 2);
    NotATimer(r, 3);
    NotATimer(r, 4);
    var _ := base.EventAdd(k + 2, Some(tv), false, 0, true, true);
    AddKeeps(b, k + 2, Some(tv), false, 0, true, true, base.View());
    StillFive(b, base.View());
  }

  method SetUpWaiting() returns (base: EventBase)
    ensures fresh(base) && Quiet(base) && TwoWait(base.View())
  {
    hide Agree, TimersOk, NoneLost, IsTimer, SameSetup;
    base := SetUpFive();
    AddOnList(base, 0);
    AddOnList(base, 1);
    ghost var b := base.View();
    NotATimer(b, 4);
    base.EventActive(4, false);
    StillFive(b, base.View());
  }

  /** Once the timeouts are due, the timers are active. */
  lemma TimersActive(b: Base, now: nat, c: Base)
    requires TwoWait(b) && Sound(b) && TimedOut(b, now, c) && now >= 2 && SameSetup(b, c) && Sound(c)
    ensures TwoTimers(c)
  {
    hide Agree, NoneLost, TimedOut, Sound;
    StillFive(b, c);
    DueListFires(b, now, c, 2, 0);
    DueListFires(b, now, c, 3, 1);
    ActiveStays(b, now, c, 4);
    TimerKinds(c);
  }

  lemma TimerKinds(b: Base)
    requires Sound(b) && FiveEvents(b)
    ensures !b.events[0].persist && !b.events[1].persist
  {
    assert TimerOk(b, b.ctls[0].timer) && TimerOk(b, b.ctls[1].timer);
  }

  /** Strict priority is lost when a pass over the queues is cut short at priority 0, by a limit of no
      callbacks or by event_base_loopcontinue: the program's event is run while an internal one of higher
      priority is active. */
  method PassedOver(limited: bool) returns (base: EventBase, ghost ds: seq<Dispatch>)
    ensures base.trace == ds && |ds| == 2 && ds[1].pri > 0 && !Urgent(ds[1])
  {
    hide Agree, TimersOk, NoneLost, SameSetup, TwoWait, TwoTimers, InternalFirst, Calls, Grown, TimedOut, Urgent;
    hide InternalCall;
    base := SetUpWaiting();
    ghost var b := base.View();
    base.TimeoutProcess(2);
    ghost var m := base.View();
    TimersActive(b, 2, m);
    TimersFirst(m);
    var first := Turn(if limited then [] else [DoContinue], 2, true, true, [], false);
    var turns := [first, Turn([], 2, true, true, [], false)];
    var c;
    c, ds := base.ProcessActive(if limited then 0 else INT_MAX, 0, false, turns);
    SecondNotUrgent(m, ds, turns, base.View());
  }

  lemma TimersFirst(b: Base)
    requires TwoTimers(b)
    ensures SomeActive(b) && InternalFirst(b)
  {
    ActiveListed(b, 0);
  }
}
