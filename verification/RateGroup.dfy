/** The rate-limit group protocol: a group lock, one lock per bufferevent that group-wide operations
    can only try to take, and walks over the members that other threads interleave with. One
    direction is modelled; the code for the other is the same. */
module RateGroups {
  import opened Lists

  type Bev = nat

  /** What the thread that holds a bufferevent's lock is in the middle of. `Joining(true)` has read
      g->read_suspended as set and released the group lock, but not yet set its own flag; `Leaving`
      has been unlinked and not yet cleared its flag. */
  datatype Phase = Free | Joining(rsuspend: bool) | Leaving

  /** A walk over the members by the thread that holds the group lock: bev_group_suspend_reading_ or
      bev_group_unsuspend_reading_, with the members still to visit. */
  datatype Walk = NoWalk | Suspending(todo: seq<Bev>) | Unsuspending(todo: seq<Bev>, again: bool)

  datatype State = State(
    members: seq<Bev>,
    nMembers: int,
    suspended: bool,
    pendingUnsuspend: bool,
    flagged: set<Bev>,
    phase: map<Bev, Phase>,
    walk: Walk)

  function PhaseOf(s: State, b: Bev): Phase {
    if b in s.phase then s.phase[b] else Free
  }

  /** The atomic steps. */
  datatype Step =
    | JoinLink(b: Bev)
    | JoinFlag(b: Bev)
    | LeaveUnlink(b: Bev)
    | LeaveClear(b: Bev)
    | CheckLimit(b: Bev)
    | BucketEmpty
    | BucketRefunded(which: nat)
    | RefillTick(enough: bool, which: nat)
    | Visit(locked: bool)
    | WalkEnds

  /** FOREACH_RANDOM_ORDER: from a random member to the end, then from the start up to it. */
  function RandomOrder(members: seq<Bev>, which: nat): seq<Bev> {
    if which < |members| then members[which..] + members[..which] else members
  }

  /** A step that needs the group lock waits for a walk to end. Taking a bufferevent's lock can
      always fail, and does fail while another thread is joining or leaving with it. */
  predicate Enabled(s: State, step: Step) {
    match step
    case JoinLink(b) => s.walk == NoWalk && b !in s.members && PhaseOf(s, b) == Free
    case JoinFlag(b) => PhaseOf(s, b).Joining?
    case LeaveUnlink(b) => s.walk == NoWalk && b in s.members && PhaseOf(s, b) == Free
    case LeaveClear(b) => PhaseOf(s, b) == Leaving
    case CheckLimit(b) => s.walk == NoWalk && b in s.members && PhaseOf(s, b) == Free
    case BucketEmpty => s.walk == NoWalk
    case BucketRefunded(which) => s.walk == NoWalk && s.suspended
    case RefillTick(_, _) => s.walk == NoWalk
    case Visit(locked) => s.walk != NoWalk && s.walk.todo != [] && (locked ==> PhaseOf(s, s.walk.todo[0]) == Free)
    case WalkEnds => s.walk != NoWalk && s.walk.todo == []
  }

  function StartUnsuspend(s: State, which: nat): State {
    s.(suspended := false, walk := Unsuspending(RandomOrder(s.members, which), false))
  }

  function Next(s: State, step: Step): State
    requires Enabled(s, step)
  {
    match step
    // bufferevent_add_to_rate_limit_group, under the group lock
    case JoinLink(b) =>
      s.(members := [b] + s.members, nMembers := s.nMembers + 1, phase := s.phase[b := Joining(s.suspended)])
    // ... and after it
    case JoinFlag(b) =>
      s.(flagged := if PhaseOf(s, b).rsuspend then s.flagged + {b} else s.flagged, phase := s.phase[b := Free])
    // bufferevent_remove_from_rate_limit_group
    case LeaveUnlink(b) =>
      s.(members := Without(s.members, b), nMembers := s.nMembers - 1, phase := s.phase[b := Leaving])
    case LeaveClear(b) =>
      s.(flagged := s.flagged - {b}, phase := s.phase[b := Free])
    // bufferevent_get_rlim_max_
    case CheckLimit(b) =>
      if s.suspended then s.(flagged := s.flagged + {b}) else s
    // bufferevent_decrement_read_buckets_
    case BucketEmpty =>
      s.(suspended := true, pendingUnsuspend := false, walk := Suspending(s.members))
    case BucketRefunded(which) => StartUnsuspend(s, which)
    // bev_group_refill_callback_
    case RefillTick(enough, which) =>
      if s.pendingUnsuspend || (s.suspended && enough) then StartUnsuspend(s, which) else s
    // one round of a walk
    case Visit(locked) =>
      var b, todo := s.walk.todo[0], s.walk.todo[1..];
      if s.walk.Suspending? then
        s.(flagged := if locked then s.flagged + {b} else s.flagged, walk := Suspending(todo))
      else if locked then s.(flagged := s.flagged - {b}, walk := Unsuspending(todo, s.walk.again))
      else s.(walk := Unsuspending(todo, true))
    case WalkEnds =>
      if s.walk.Suspending? then s.(walk := NoWalk)
      else s.(pendingUnsuspend := s.walk.again, walk := NoWalk)
  }

  /** Flagged for the group, or about to be. */
  predicate Marked(s: State, b: Bev) {
    b in s.flagged || PhaseOf(s, b) == Joining(true)
  }

  /** A marked member of a group that is not suspended is accounted for: a later unsuspend is
      pending, or one is under way that will still come by or knows that it has to come again. */
  ghost predicate Accounted(s: State) {
    !s.suspended ==> forall b :: b in s.members && Marked(s, b) ==>
      if s.walk.Unsuspending? then s.walk.again || b in s.walk.todo else s.pendingUnsuspend
  }

  /** A bufferevent that is neither in the group nor on its way out carries no flag of the group. */
  ghost predicate OutsidersClean(s: State) {
    forall b :: b !in s.members ==> !PhaseOf(s, b).Joining? && (b in s.flagged ==> PhaseOf(s, b) == Leaving)
  }

  ghost predicate Inv(s: State) {
    && Distinct(s.members) && s.nMembers == |s.members|
    && Accounted(s) && OutsidersClean(s)
    && (s.suspended ==> !s.pendingUnsuspend && !s.walk.Unsuspending?)
    && (s.walk.Suspending? ==> s.suspended)
    && (forall b :: b in s.members ==> PhaseOf(s, b) != Leaving)
    && (s.walk != NoWalk ==> forall b :: b in s.walk.todo ==> b in s.members)
  }

  const INITIAL: State := State([], 0, false, false, {}, map[], NoWalk)

  lemma RandomOrderSame(members: seq<Bev>, which: nat)
    ensures forall b :: b in RandomOrder(members, which) <==> b in members
    ensures multiset(RandomOrder(members, which)) == multiset(members)
  {
    if which < |members| {
      assert members == members[..which] + members[which..];
    }
  }

  /** Joining and leaving. */
  lemma MembershipStep(s: State, step: Step)
    requires Inv(s) && Enabled(s, step) && (step.JoinLink? || step.JoinFlag? || step.LeaveUnlink? || step.LeaveClear?)
    ensures Inv(Next(s, step))
  {
    if step.LeaveUnlink? {
      WithoutFacts(s.members, step.b);
    }
  }

  /** Group-wide operations. */
  lemma GroupStep(s: State, step: Step)
    requires Inv(s) && Enabled(s, step) &&
      (step.CheckLimit? || step.BucketEmpty? || step.BucketRefunded? || step.RefillTick?)
    ensures Inv(Next(s, step))
  {
    if step.BucketRefunded? || step.RefillTick? {
      RandomOrderSame(s.members, step.which);
    }
  }

  /** Rounds of a walk. */
  lemma WalkStep(s: State, step: Step)
    requires Inv(s) && Enabled(s, step) && (step.Visit? || step.WalkEnds?)
    ensures Inv(Next(s, step))
  {
    if step.Visit? {
      var b, todo := s.walk.todo[0], s.walk.todo[1..];
      assert forall c :: c in s.walk.todo <==> c == b || c in todo;
    }
  }

  /** What every interleaving leads to. */
  predicate IsRun(s: State, steps: seq<Step>)
    decreases |steps|
  {
    steps != [] ==> Enabled(s, steps[0]) && IsRun(Next(s, steps[0]), steps[1..])
  }

  function After(s: State, steps: seq<Step>): State
    requires IsRun(s, steps)
    decreases |steps|
  {
    if steps == [] then s else After(Next(s, steps[0]), steps[1..])
  }

  lemma {:induction false} RunInv(s: State, steps: seq<Step>)
    requires Inv(s) && IsRun(s, steps)
    ensures Inv(After(s, steps))
    decreases |steps|
  {
    if steps != [] {
      var step := steps[0];
      if step.JoinLink? || step.JoinFlag? || step.LeaveUnlink? || step.LeaveClear? {
        MembershipStep(s, step);
      } else if step.Visit? || step.WalkEnds? {
        WalkStep(s, step);
      } else {
        GroupStep(s, step);
      }
      RunInv(Next(s, step), steps[1..]);
    }
  }

  /** No member is stranded: after any interleaving, with the group lock free, a member that is
      flagged while its group is not suspended means that an unsuspend is pending. */
  lemma NoneStranded(steps: seq<Step>, b: Bev)
    requires IsRun(INITIAL, steps)
    ensures var s := After(INITIAL, steps);
      s.walk == NoWalk && !s.suspended && b in s.members && b in s.flagged ==> s.pendingUnsuspend
  {
    RunInv(INITIAL, steps);
  }

  /** Visits in a row; `locks` says which members' locks they find free. */
  function Visits(locks: seq<bool>): (steps: seq<Step>)
    ensures |steps| == |locks|
  {
    if locks == [] then [] else [Visit(locks[0])] + Visits(locks[1..])
  }

  predicate Lockable(s: State, todo: seq<Bev>, locks: seq<bool>) {
    |locks| == |todo| && forall i :: 0 <= i < |todo| && locks[i] ==> PhaseOf(s, todo[i]) == Free
  }

  /** The member's lock is one of those found free. */
  predicate Reached(todo: seq<Bev>, locks: seq<bool>, b: Bev)
    requires |locks| == |todo|
  {
    exists i :: 0 <= i < |todo| && locks[i] && todo[i] == b
  }

  /** The members whose locks are free. */
  function Locked(todo: seq<Bev>, locks: seq<bool>): (reached: set<Bev>)
    requires |locks| == |todo|
    ensures forall i :: 0 <= i < |todo| && locks[i] ==> todo[i] in reached
    ensures forall b :: b in reached ==> Reached(todo, locks, b)
  {
    set i | 0 <= i < |todo| && locks[i] :: todo[i]
  }

  lemma LockedFirst(todo: seq<Bev>, locks: seq<bool>)
    requires |locks| == |todo| > 0
    ensures Locked(todo, locks) == (if locks[0] then {todo[0]} else {}) + Locked(todo[1..], locks[1..])
    ensures false in locks <==> !locks[0] || false in locks[1..]
  {
    assert locks == [locks[0]] + locks[1..];
    var first := if locks[0] then {todo[0]} else {};
    forall b | b in Locked(todo, locks) ensures b in first + Locked(todo[1..], locks[1..]) {
      var i :| 0 <= i < |todo| && locks[i] && todo[i] == b;
      if i > 0 {
        assert todo[1..][i - 1] == b && locks[1..][i - 1];
      }
    }
  }

  lemma StepThen(s: State, first: Step, rest: seq<Step>)
    requires Enabled(s, first) && IsRun(Next(s, first), rest)
    ensures IsRun(s, [first] + rest) && After(s, [first] + rest) == After(Next(s, first), rest)
  {
    assert ([first] + rest)[0] == first && ([first] + rest)[1..] == rest;
  }

  lemma VisitFirst(s: State, locks: seq<bool>)
    requires locks != [] && Enabled(s, Visit(locks[0]))
    requires IsRun(Next(s, Visit(locks[0])), Visits(locks[1..]) + [WalkEnds])
    ensures var rest := Visits(locks[1..]) + [WalkEnds]; var steps := Visits(locks) + [WalkEnds];
      IsRun(s, steps) && After(s, steps) == After(Next(s, Visit(locks[0])), rest)
  {
    hide Enabled, Next, IsRun, After;
    StepThen(s, Visit(locks[0]), Visits(locks[1..]) + [WalkEnds]);
    assert Visits(locks) + [WalkEnds] == [Visit(locks[0])] + (Visits(locks[1..]) + [WalkEnds]);
  }

  /** A whole walk to unsuspend the members. */
  lemma {:induction false} UnsuspendWalk(s: State, locks: seq<bool>)
    requires s.walk.Unsuspending? && Lockable(s, s.walk.todo, locks)
    ensures var steps := Visits(locks) + [WalkEnds];
      && IsRun(s, steps)
      && After(s, steps) == s.(flagged := s.flagged - Locked(s.walk.todo, locks),
        pendingUnsuspend := s.walk.again || false in locks, walk := NoWalk)
    decreases |s.walk.todo|
  {
    var todo := s.walk.todo;
    if todo == [] {
      assert Visits(locks) + [WalkEnds] == [WalkEnds] && [WalkEnds][1..] == [];
      assert s.flagged - Locked(todo, locks) == s.flagged;
    } else {
      var t := Next(s, Visit(locks[0]));
      LockedFirst(todo, locks);
      assert Lockable(t, t.walk.todo, locks[1..]);
      UnsuspendWalk(t, locks[1..]);
      VisitFirst(s, locks);
      assert t.flagged - Locked(todo[1..], locks[1..]) == s.flagged - Locked(todo, locks);
    }
  }

  /** A whole walk to suspend the members. */
  lemma {:induction false} SuspendWalk(s: State, locks: seq<bool>)
    requires s.walk.Suspending? && Lockable(s, s.walk.todo, locks)
    ensures var steps := Visits(locks) + [WalkEnds];
      IsRun(s, steps) && After(s, steps) == s.(flagged := s.flagged + Locked(s.walk.todo, locks), walk := NoWalk)
    decreases |s.walk.todo|
  {
    var todo := s.walk.todo;
    if todo == [] {
      assert Visits(locks) + [WalkEnds] == [WalkEnds] && [WalkEnds][1..] == [];
      assert s.flagged + Locked(todo, locks) == s.flagged;
    } else {
      var t := Next(s, Visit(locks[0]));
      LockedFirst(todo, locks);
      assert Lockable(t, t.walk.todo, locks[1..]);
      SuspendWalk(t, locks[1..]);
      VisitFirst(s, locks);
      assert t.flagged + Locked(todo[1..], locks[1..]) == s.flagged + Locked(todo, locks);
    }
  }

  /** An exhausted bucket suspends the group: after the walk every member whose lock was free is flagged. */
  lemma EmptySuspends(s: State, locks: seq<bool>)
    requires s.walk == NoWalk && Lockable(s, s.members, locks)
    ensures var steps := [BucketEmpty] + (Visits(locks) + [WalkEnds]);
      && IsRun(s, steps)
      && (var t := After(s, steps);
          && t.members == s.members && t.suspended && !t.pendingUnsuspend && t.walk == NoWalk
          && forall b :: b in t.flagged <==> b in s.flagged || Reached(s.members, locks, b))
  {
    SuspendWalk(Next(s, BucketEmpty), locks);
    StepThen(s, BucketEmpty, Visits(locks) + [WalkEnds]);
  }

  /** A suspension is ended by a tick that finds enough in the bucket and by bytes given back; a tick with an unsuspend
      pending makes up for members that an earlier walk could not reach. After the walk the group is not suspended,
      every member whose lock was free has lost its flag, and a later unsuspend is pending exactly when some lock was
      not free. */
  lemma TickResumes(s: State, step: Step, locks: seq<bool>)
    requires Inv(s) && s.walk == NoWalk && (step.BucketRefunded? || step.RefillTick?)
    requires (s.suspended && (step.BucketRefunded? || step.enough)) || (step.RefillTick? && s.pendingUnsuspend)
    requires Lockable(s, RandomOrder(s.members, step.which), locks)
    ensures var steps := [step] + (Visits(locks) + [WalkEnds]); var order := RandomOrder(s.members, step.which);
      && IsRun(s, steps)
      && (var t := After(s, steps);
          && t.members == s.members && !t.suspended && t.walk == NoWalk && (t.pendingUnsuspend <==> false in locks)
          && forall b :: b in t.flagged <==> b in s.flagged && !Reached(order, locks, b))
  {
    UnsuspendWalk(Next(s, step), locks);
    StepThen(s, step, Visits(locks) + [WalkEnds]);
  }

  /** With all locks free no member stays flagged and nothing is pending. */
  lemma TickClears(s: State, step: Step)
    requires Inv(s) && s.walk == NoWalk && (step.BucketRefunded? || step.RefillTick?)
    requires (s.suspended && (step.BucketRefunded? || step.enough)) || (step.RefillTick? && s.pendingUnsuspend)
    requires forall b :: b in s.members ==> PhaseOf(s, b) == Free
    ensures var steps := [step] + (Visits(seq(|s.members|, _ => true)) + [WalkEnds]);
      && IsRun(s, steps)
      && (var t := After(s, steps);
          && t.members == s.members && !t.suspended && !t.pendingUnsuspend
          && forall b :: b in t.members ==> b !in t.flagged)
  {
    var locks, order := seq(|s.members|, _ => true), RandomOrder(s.members, step.which);
    RandomOrderSame(s.members, step.which);
    assert Lockable(s, order, locks);
    TickResumes(s, step, locks);
    forall b | b in s.members ensures Reached(order, locks, b) {
      assert b in order;
    }
  }

  /** Otherwise a tick does nothing: a suspended group stays suspended until there is enough in the bucket. */
  lemma TickWaits(s: State, which: nat)
    requires s.walk == NoWalk && !s.pendingUnsuspend
    ensures Next(s, RefillTick(false, which)) == s
    ensures !s.suspended ==> Next(s, RefillTick(true, which)) == s
  {
  }

  /** A bufferevent that joins is flagged exactly if the group is suspended, one that leaves is not flagged, and one
      that asks for its limit while the group is suspended is flagged by that. */
  lemma MemberFollows(s: State, b: Bev)
    requires Inv(s) && s.walk == NoWalk && PhaseOf(s, b) == Free
    ensures b !in s.members ==>
      && Enabled(s, JoinLink(b)) && Enabled(Next(s, JoinLink(b)), JoinFlag(b))
      && (var t := Next(Next(s, JoinLink(b)), JoinFlag(b));
          b in t.members && PhaseOf(t, b) == Free && (b in t.flagged <==> s.suspended))
    ensures b in s.members ==>
      && Enabled(s, LeaveUnlink(b)) && Enabled(Next(s, LeaveUnlink(b)), LeaveClear(b))
      && (var t := Next(Next(s, LeaveUnlink(b)), LeaveClear(b)); b !in t.members && b !in t.flagged)
    ensures b in s.members && s.suspended ==> b in Next(s, CheckLimit(b)).flagged
  {
    if b in s.members {
      WithoutFacts(s.members, b);
    }
  }

  /** FOREACH_RANDOM_ORDER itself: `which` is what evutil_weakrand_range_ returned. Every member is
      visited, and none twice. */
  method RandomWalk(members: seq<Bev>, which: nat) returns (visited: seq<Bev>)
    requires Distinct(members) && (members != [] ==> which < |members|)
    ensures visited == RandomOrder(members, which)
    ensures Distinct(visited) && multiset(visited) == multiset(members)
    ensures members != [] ==> visited[0] == members[which]
  {
    RandomOrderSame(members, which);
    RandomOrderDistinct(members, which);
    visited := [];
    if members == [] {
      return;
    }
    var first := members[which];
    var i := which;
    while i < |members|
      invariant which <= i <= |members| && visited == members[which..i]
    {
      visited := visited + [members[i]];
      i := i + 1;
    }
    assert members[which..i] == members[which..];
    i := 0;
    while i < |members| && members[i] != first
      invariant i <= which && visited == members[which..] + members[..i]
    {
      visited := visited + [members[i]];
      i := i + 1;
    }
  }

  lemma RandomOrderDistinct(members: seq<Bev>, which: nat)
    requires Distinct(members)
    ensures Distinct(RandomOrder(members, which))
  {
    if which < |members| {
      var a, b := members[which..], members[..which];
      forall i, j | 0 <= i < j < |members| ensures RandomOrder(members, which)[i] != RandomOrder(members, which)[j] {
        var n := |a|;
        assert RandomOrder(members, which)[i] == if i < n then members[which + i] else members[i - n];
        assert RandomOrder(members, which)[j] == if j < n then members[which + j] else members[j - n];
      }
    }
  }
}
