/** Runs of the event loop: whatever the program, its callbacks and other threads do. */
module EventLoops {
  import opened Options
  import opened EventQueues
  import opened EventEffects
  import opened EventBases

  /** Between rounds nothing is running. */
  ghost predicate AtRest(base: EventBase)
    reads base
  {
    base.Valid() && InternalFirst(base.View()) && base.current == None && base.running == -1
  }

  method ClearContinue(base: EventBase)
    requires AtRest(base)
    modifies base`eventContinue
    ensures AtRest(base) && !base.eventContinue
  {
    base.eventContinue := false;
  }

  /** One round of event_base_loop. */
  method LoopOnce(base: EventBase, r: Round) returns (ghost ds: seq<Dispatch>)
    requires AtRest(base) && !base.eventBreak
    modifies base
    ensures AtRest(base) && base.trace == old(base.trace) + ds && RoundRuns(old(base.View()), r, ds, base.View())
    ensures base.eventBreak == Broke(r, ds)
  {
    hide Agree, TimersOk, NoneLost, SameSetup, Grown, InternalFirst, LaterActive, Performed, TimedOut, Dispatched;
    hide Sound, RoundRuns;
    hide HeapFits, base.Guarded, base.Valid, Broke;
    ghost var b := base.View();
    ClearContinue(base);
    base.MakeLaterEventsActive();
    ghost var l := base.View();
    base.ValidParts();
    base.PerformAll(r.poll);
    ghost var p := base.View();
    base.ValidParts();
    base.TimeoutProcess(r.now);
    ghost var t := base.View();
    base.ValidParts();
    SetupGrown(b, l);
    GrownTrans(b, l, p);
    SetupGrown(p, t);
    GrownTrans(b, p, t);
    GrownInternal(b, t);
    ds := ProcessIfAny(base, r);
    RoundInSteps(b, r, l, p, t, ds, base.View());
  }

  /** The callbacks of a round. */
  method ProcessIfAny(base: EventBase, r: Round) returns (ghost ds: seq<Dispatch>)
    requires AtRest(base) && (base.eventContinue ==> DoContinue in r.poll)
    requires base.eventBreak == (DoBreak in r.poll)
    modifies base
    ensures AtRest(base) && base.trace == old(base.trace) + ds && Dispatched(old(base.View()), r, ds, base.View())
    ensures base.eventBreak == Broke(r, ds)
  {
    hide Agree, TimersOk, NoneLost, Grown, InternalFirst, Calls, Urgent, Breaks, Strict;
    ghost var b := base.View();
    StoppedNone(r.turns, base.eventBreak);
    if base.countActive != 0 {
      var _, es := base.ProcessActive(r.maxcb, r.limitAfterPrio, r.timed, r.turns);
      ds := es;
      GrownInternal(b, base.View());
    } else {
      ds := [];
      NoCalls(b, r.turns);
      if SomeActive(b) {
        ActiveCounted(b);
      }
    }
  }

  lemma RestSound(base: EventBase)
    requires AtRest(base)
    ensures Sound(base.View())
  {
  }

  method ClearBreak(base: EventBase)
    requires AtRest(base)
    modifies base`eventBreak
    ensures AtRest(base) && !base.eventBreak
  {
    base.eventBreak := false;
  }

  /** event_base_loop. */
  method LoopRounds(base: EventBase, exitOnEmpty: bool, rounds: seq<Round>) returns (ghost ds: seq<Dispatch>)
    requires AtRest(base)
    modifies base
    ensures AtRest(base) && base.trace == old(base.trace) + ds
    ensures Follows(old(base.View()), Loop(exitOnEmpty, rounds), ds, base.View())
  {
    hide AtRest, RoundsRun, RoundRuns, Broke, Idle, Agree, TimersOk, NoneLost, Follows;
    ghost var b := base.View();
    ClearBreak(base);
    ds := [];
    NoRounds(b, exitOnEmpty);
    assert rounds[..0] == [];
    var n := 0;
    while n < |rounds|
      invariant 0 <= n <= |rounds| && AtRest(base) && base.trace == old(base.trace) + ds
      invariant RoundsRun(b, exitOnEmpty, rounds[..n], ds, base.View(), base.eventBreak)
    {
      ghost var m := base.View();
      if base.eventBreak {
        LoopEnds(b, exitOnEmpty, rounds, n, ds, m, true);
        return;
      }
      RestSound(base);
      CountersIdle(m);
      if exitOnEmpty && !rounds[n].virtual && base.count <= 0 && base.countActive == 0 {
        LoopEnds(b, exitOnEmpty, rounds, n, ds, m, false);
        return;
      }
      ghost var es := LoopOnce(base, rounds[n]);
      OneMoreRound(b, exitOnEmpty, rounds, n, ds, m, es, base.View());
      ds := ds + es;
      n := n + 1;
    }
    LoopEnds(b, exitOnEmpty, rounds, n, ds, base.View(), base.eventBreak);
  }

  /** One thing that happens. */
  method Happen(base: EventBase, h: Happening) returns (ghost ds: seq<Dispatch>)
    requires AtRest(base)
    modifies base
    ensures AtRest(base) && base.trace == old(base.trace) + ds && Follows(old(base.View()), h, ds, base.View())
  {
    hide Agree, TimersOk, NoneLost, Grown, InternalFirst, Effect;
    match h {
      case Act(a) =>
        ghost var b := base.View();
        base.Perform(a);
        GrownInternal(b, base.View());
        ds := [];
      case Loop(exitOnEmpty, rounds) =>
        ds := LoopRounds(base, exitOnEmpty, rounds);
    }
  }

  /** Every run: each call and each callback has its effect on the base that the ones before have left,
      at every moment between them queues, flags and counters agree and no common timeout is lost, and no
      callback was ever started while a more urgent one was active. */
  method Run(base: EventBase, hs: seq<Happening>) returns (ghost ds: seq<Dispatch>)
    requires AtRest(base)
    modifies base
    ensures AtRest(base) && base.trace == old(base.trace) + ds
    ensures Leads(old(base.View()), hs, ds, base.View())
    ensures StrictRun(hs) ==> AllUrgent(ds)
  {
    hide AtRest, Follows, Leads, StrictRun, Urgent, Sound;
    ghost var b := base.View();
    ds := [];
    RestSound(base);
    NothingLeads(b);
    assert hs[..0] == [];
    var n := 0;
    while n < |hs|
      invariant 0 <= n <= |hs| && AtRest(base) && base.trace == old(base.trace) + ds
      invariant Leads(b, hs[..n], ds, base.View())
    {
      ghost var m := base.View();
      ghost var es := Happen(base, hs[n]);
      RestSound(base);
      OneMoreHappening(b, hs, n, ds, m, es, base.View());
      ds := ds + es;
      n := n + 1;
    }
    assert hs[..n] == hs;
    if StrictRun(hs) {
      StrictPriority(b, hs, ds, base.View());
    }
  }
}
