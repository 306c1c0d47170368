/** The table of DNS requests in flight and the queue of waiting ones, on values. */
module RequestTables {
  import opened Options
  import opened Addresses
  import opened Lists
  import opened RequestLists

  /** req_heads and req_waiting_head with the circles they lead to, and the bucket that each request
      belongs to. */
  datatype Table = Table(m: Memory, heads: seq<Ptr>, waitingHead: Ptr, buckets: seq<seq<Ptr>>, waitq: seq<Ptr>,
    slot: map<Ptr, nat>)

  ghost predicate In(t: Table, r: Ptr, b: nat) {
    b < |t.buckets| && r in t.buckets[b]
  }

  predicate SlotIs(t: Table, r: Ptr, b: nat) {
    r in t.slot && t.slot[r] == b
  }

  ghost predicate BucketOk(t: Table, b: nat)
    requires b < |t.heads| && |t.heads| == |t.buckets|
  {
    && t.heads[b] == Head(t.buckets[b]) && Circle(t.m, t.buckets[b])
    && forall r :: r in t.buckets[b] ==> r in t.m && SlotIs(t, r, b) && t.m[r].ns.Some?
  }

  /** Every linked request is in exactly one circle: the bucket of its transaction id if it has a
      nameserver, the waiting queue if it has none. */
  ghost predicate TableOk(t: Table) {
    && |t.heads| == |t.buckets| > 0
    && (forall b: nat :: b < |t.heads| ==> BucketOk(t, b))
    && t.waitingHead == Head(t.waitq) && Circle(t.m, t.waitq)
    && (forall r :: r in t.waitq ==> r in t.m && t.m[r].ns == None)
    && (forall r :: r in t.m && t.m[r].next != NULL ==> r in t.waitq || (r in t.slot && In(t, r, t.slot[r])))
  }

  /** A request that is in no circle. */
  predicate Loose(t: Table, req: Ptr) {
    req != NULL && req in t.m && t.m[req].next == NULL
  }

  lemma {:induction false} LinkedMember(m: Memory, ps: seq<Ptr>, r: Ptr)
    requires Circle(m, ps) && r in ps
    ensures r in m && m[r].next != NULL && r != NULL
  {
    var i: nat :| i < |ps| && ps[i] == r;
    assert NodeOk(m, ps, i) && NodeOk(m, ps, Succ(i, |ps|));
  }

  // ---- one request moves

  /** Another circle of the table shares no request with bucket `b`. */
  lemma OthersKept(t: Table, m': Memory, b: nat, c: nat, req: Ptr)
    requires TableOk(t) && b < |t.heads| && c < |t.heads| && c != b && (Loose(t, req) || req in t.buckets[b])
    requires LinksOnly(t.m, m', t.buckets[b] + [req])
    ensures Circle(m', t.buckets[c])
  {
    assert BucketOk(t, b) && BucketOk(t, c);
    forall r | r in t.buckets[c] ensures r !in t.buckets[b] + [req] {
      LinkedMember(t.m, t.buckets[c], r);
    }
    CircleKept(t.m, m', t.buckets[b] + [req], t.buckets[c]);
  }

  lemma WaitingKept(t: Table, m': Memory, b: nat, req: Ptr)
    requires TableOk(t) && b < |t.heads| && (Loose(t, req) || req in t.buckets[b])
    requires LinksOnly(t.m, m', t.buckets[b] + [req])
    ensures Circle(m', t.waitq)
  {
    assert BucketOk(t, b);
    forall r | r in t.waitq ensures r !in t.buckets[b] + [req] {
      LinkedMember(t.m, t.waitq, r);
    }
    CircleKept(t.m, m', t.buckets[b] + [req], t.waitq);
  }

  lemma BucketsKept(t: Table, m': Memory, req: Ptr, c: nat)
    requires TableOk(t) && c < |t.heads| && (Loose(t, req) || req in t.waitq)
    requires LinksOnly(t.m, m', t.waitq + [req])
    ensures Circle(m', t.buckets[c])
  {
    assert BucketOk(t, c);
    forall r | r in t.buckets[c] ensures r !in t.waitq + [req] {
      LinkedMember(t.m, t.buckets[c], r);
    }
    CircleKept(t.m, m', t.waitq + [req], t.buckets[c]);
  }

  /** A request with a nameserver enters its bucket. */
  ghost function InBucket(t: Table, req: Ptr, b: nat): (u: Table)
    requires TableOk(t) && Loose(t, req) && b < |t.heads|
  {
    assert BucketOk(t, b);
    NotListed(t, req, b);
    InsertCircle(t.m, t.buckets[b], req);
    t.(m := Insert(t.m, t.heads[b], req), heads := t.heads[b := Head(t.buckets[b] + [req])],
      buckets := t.buckets[b := t.buckets[b] + [req]],
       slot := t.slot[req := b])
  }

  lemma NotListed(t: Table, req: Ptr, b: nat)
    requires TableOk(t) && Loose(t, req) && b < |t.heads|
    ensures req !in t.buckets[b] && req !in t.waitq
  {
    assert BucketOk(t, b);
    if req in t.buckets[b] {
      LinkedMember(t.m, t.buckets[b], req);
    }
    if req in t.waitq {
      LinkedMember(t.m, t.waitq, req);
    }
  }

  lemma InBucketOk(t: Table, req: Ptr, b: nat)
    requires TableOk(t) && Loose(t, req) && t.m[req].ns.Some? && b < |t.heads|
    ensures TableOk(InBucket(t, req, b))
  {
    var u := InBucket(t, req, b);
    assert BucketOk(t, b);
    NotListed(t, req, b);
    InsertCircle(t.m, t.buckets[b], req);
    WaitingKept(t, u.m, b, req);
    forall c: nat | c < |u.heads| ensures BucketOk(u, c) {
      NotListed(t, req, c);
      if c != b {
        OthersKept(t, u.m, b, c, req);
        assert BucketOk(t, c);
      }
    }
    forall r | r in u.m && u.m[r].next != NULL ensures r in u.waitq || (r in u.slot && In(u, r, u.slot[r])) {
      if r != req && r !in t.buckets[b] {
        assert u.m[r] == t.m[r];
      }
    }
  }

  /** A request without a nameserver enters the waiting queue. */
  ghost function InWaiting(t: Table, req: Ptr): (u: Table)
    requires TableOk(t) && Loose(t, req)
  {
    NotListed(t, req, 0);
    InsertCircle(t.m, t.waitq, req);
    t.(m := Insert(t.m, t.waitingHead, req), waitingHead := Head(t.waitq + [req]), waitq := t.waitq + [req])
  }

  lemma InWaitingOk(t: Table, req: Ptr)
    requires TableOk(t) && Loose(t, req) && t.m[req].ns == None
    ensures TableOk(InWaiting(t, req))
  {
    var u := InWaiting(t, req);
    NotListed(t, req, 0);
    InsertCircle(t.m, t.waitq, req);
    forall c: nat | c < |u.heads| ensures BucketOk(u, c) {
      BucketsKept(t, u.m, req, c);
      assert BucketOk(t, c);
    }
    forall r | r in u.m && u.m[r].next != NULL ensures r in u.waitq || (r in u.slot && In(u, r, u.slot[r])) {
      if r != req && r !in t.waitq {
        assert u.m[r] == t.m[r];
      }
    }
  }

  /** The request at position `k` of bucket `b` leaves it. */
  ghost function OutOfBucket(t: Table, b: nat, k: nat): (u: Table)
    requires TableOk(t) && b < |t.heads| && k < |t.buckets[b]|
  {
    assert BucketOk(t, b);
    UnlinkCircle(t.m, t.buckets[b], k);
    t.(m := Unlink(t.m, t.buckets[b][k]), heads := t.heads[b := Head(Cut(t.buckets[b], k))],
      buckets := t.buckets[b := Cut(t.buckets[b], k)])
  }

  lemma OutOfBucketOk(t: Table, b: nat, k: nat)
    requires TableOk(t) && b < |t.heads| && k < |t.buckets[b]|
    ensures TableOk(OutOfBucket(t, b, k)) && Loose(OutOfBucket(t, b, k), t.buckets[b][k])
  {
    var u, req := OutOfBucket(t, b, k), t.buckets[b][k];
    assert BucketOk(t, b) && req in t.buckets[b];
    LinkedMember(t.m, t.buckets[b], req);
    UnlinkCircle(t.m, t.buckets[b], k);
    CutFacts(t.buckets[b], k);
    WiderLinks(t.m, u.m, t.buckets[b], req);
    WaitingKept(t, u.m, b, req);
    forall c: nat | c < |u.heads| ensures BucketOk(u, c) {
      if c != b {
        OthersKept(t, u.m, b, c, req);
        assert BucketOk(t, c);
      }
    }
    forall r | r in u.m && u.m[r].next != NULL ensures r in u.waitq || (r in u.slot && In(u, r, u.slot[r])) {
      if r !in t.buckets[b] {
        assert u.m[r] == t.m[r];
      }
    }
  }

  lemma WiderLinks(m: Memory, m': Memory, ps: seq<Ptr>, req: Ptr)
    requires LinksOnly(m, m', ps)
    ensures LinksOnly(m, m', ps + [req])
  {
  }

  /** The request at position `k` of the waiting queue leaves it. */
  ghost function OutOfWaiting(t: Table, k: nat): (u: Table)
    requires TableOk(t) && k < |t.waitq|
  {
    UnlinkCircle(t.m, t.waitq, k);
    t.(m := Unlink(t.m, t.waitq[k]), waitingHead := Head(Cut(t.waitq, k)), waitq := Cut(t.waitq, k))
  }

  lemma OutOfWaitingOk(t: Table, k: nat)
    requires TableOk(t) && k < |t.waitq|
    ensures TableOk(OutOfWaiting(t, k)) && Loose(OutOfWaiting(t, k), t.waitq[k])
  {
    var u, req := OutOfWaiting(t, k), t.waitq[k];
    assert req in t.waitq;
    LinkedMember(t.m, t.waitq, req);
    UnlinkCircle(t.m, t.waitq, k);
    CutFacts(t.waitq, k);
    WiderLinks(t.m, u.m, t.waitq, req);
    forall c: nat | c < |u.heads| ensures BucketOk(u, c) {
      BucketsKept(t, u.m, req, c);
      assert BucketOk(t, c);
    }
    forall r | r in u.m && u.m[r].next != NULL ensures r in u.waitq || (r in u.slot && In(u, r, u.slot[r])) {
      if r !in t.waitq {
        assert u.m[r] == t.m[r];
      }
    }
  }

  /** A loose request may change in any way, appear or disappear; a listed one may change servers. */
  lemma ChangedOk(t: Table, u: Table, req: Ptr)
    requires TableOk(t) && req != NULL && u == t.(m := u.m, slot := u.slot)
    requires forall r :: r in t.m && r != req && r in t.slot ==> SlotIs(u, r, t.slot[r])
    requires u.m == t.m - {req} || (req in u.m && u.m == t.m[req := u.m[req]])
    requires (req in t.m ==> t.m[req].next == NULL) && (req in u.m ==> u.m[req].next == NULL)
    ensures TableOk(u)
  {
    forall c: nat | c < |u.heads| ensures BucketOk(u, c) {
      assert BucketOk(t, c);
      NotIn(t.m, t.buckets[c], req);
      SameCircle(t.m, u.m, t.buckets[c], req);
    }
    NotIn(t.m, t.waitq, req);
    SameCircle(t.m, u.m, t.waitq, req);
    forall r | r in u.m && u.m[r].next != NULL ensures r in u.waitq || (r in u.slot && In(u, r, u.slot[r])) {
      assert u.m[r] == t.m[r];
    }
  }

  lemma NotIn(m: Memory, ps: seq<Ptr>, req: Ptr)
    requires Circle(m, ps) && (req in m ==> m[req].next == NULL)
    ensures req !in ps
  {
    if req in ps {
      LinkedMember(m, ps, req);
    }
  }

  lemma SameCircle(m: Memory, m': Memory, ps: seq<Ptr>, req: Ptr)
    requires Circle(m, ps) && req !in ps && forall p :: p in m && p != req ==> p in m' && m'[p] == m[p]
    ensures Circle(m', ps)
  {
    forall i: nat | i < |ps| ensures NodeOk(m', ps, i) {
      assert NodeOk(m, ps, i) && ps[i] in ps;
    }
  }

  lemma SwappedOk(t: Table, req: Ptr, ns: Server)
    requires TableOk(t) && req in t.m && t.m[req].ns.Some?
    ensures TableOk(t.(m := t.m[req := t.m[req].(ns := Some(ns))]))
  {
    var u := t.(m := t.m[req := t.m[req].(ns := Some(ns))]);
    forall c: nat | c < |u.heads| ensures BucketOk(u, c) {
      assert BucketOk(t, c);
      forall i: nat | i < |u.buckets[c]| ensures NodeOk(u.m, u.buckets[c], i) {
        assert NodeOk(t.m, t.buckets[c], i);
      }
    }
    forall i: nat | i < |u.waitq| ensures NodeOk(u.m, u.waitq, i) {
      assert NodeOk(t.m, t.waitq, i);
    }
  }

  // ---- counters

  /** How many requests of `ps` are with the server. */
  function With(m: Memory, ps: seq<Ptr>, s: Server): nat {
    if ps == [] then 0
    else (if ps[0] in m && m[ps[0]].ns == Some(s) then 1 else 0) + With(m, ps[1..], s)
  }

  /** How many requests in flight are with the server. */
  function Load(m: Memory, qs: seq<seq<Ptr>>, s: Server): nat {
    if qs == [] then 0 else With(m, qs[0], s) + Load(m, qs[1..], s)
  }

  lemma {:induction false} LoadUpdate(m: Memory, qs: seq<seq<Ptr>>, b: nat, q: seq<Ptr>, s: Server)
    requires b < |qs|
    ensures Load(m, qs[b := q], s) == Load(m, qs, s) - With(m, qs[b], s) + With(m, q, s)
  {
    if b == 0 {
      assert qs[b := q][1..] == qs[1..];
    } else {
      assert qs[b := q][1..] == qs[1..][b - 1 := q];
      LoadUpdate(m, qs[1..], b - 1, q, s);
    }
  }

  lemma {:induction false} WithConcat(m: Memory, ps: seq<Ptr>, qs: seq<Ptr>, s: Server)
    ensures With(m, ps + qs, s) == With(m, ps, s) + With(m, qs, s)
  {
    if ps == [] {
      assert ps + qs == qs;
    } else {
      assert (ps + qs)[1..] == ps[1..] + qs;
      WithConcat(m, ps[1..], qs, s);
    }
  }

  lemma WithCut(m: Memory, ps: seq<Ptr>, k: nat, s: Server)
    requires k < |ps| && ps[k] in m
    ensures With(m, Cut(ps, k), s) == With(m, ps, s) - (if m[ps[k]].ns == Some(s) then 1 else 0)
  {
    WithConcat(m, ps[..k], ps[k + 1..], s);
    WithConcat(m, ps[..k], [ps[k]] + ps[k + 1..], s);
    WithConcat(m, [ps[k]], ps[k + 1..], s);
    assert ps == ps[..k] + ([ps[k]] + ps[k + 1..]);
    WithOne(m, ps[k], s);
  }

  lemma WithOne(m: Memory, p: Ptr, s: Server)
    ensures With(m, [p], s) == if p in m && m[p].ns == Some(s) then 1 else 0
  {
  }

  /** Only the servers of the requests matter. */
  lemma {:induction false} WithSame(m: Memory, m': Memory, ps: seq<Ptr>, s: Server)
    requires forall p :: p in ps ==> (p in m <==> p in m') && (p in m ==> m[p].ns == m'[p].ns)
    ensures With(m, ps, s) == With(m', ps, s)
  {
    if ps != [] {
      assert ps[0] in ps;
      WithSame(m, m', ps[1..], s);
    }
  }

  lemma {:induction false} LoadSame(m: Memory, m': Memory, qs: seq<seq<Ptr>>, s: Server)
    requires forall b, p :: 0 <= b < |qs| && p in qs[b] ==> (p in m <==> p in m') && (p in m ==> m[p].ns == m'[p].ns)
    ensures Load(m, qs, s) == Load(m', qs, s)
  {
    if qs != [] {
      WithSame(m, m', qs[0], s);
      LoadSame(m, m', qs[1..], s);
    }
  }

  /** One request more or less with its server. */
  function IfWith(m: Memory, req: Ptr, s: Server): nat {
    if req in m && m[req].ns == Some(s) then 1 else 0
  }

  lemma InBucketCounts(t: Table, req: Ptr, b: nat, s: Server)
    requires TableOk(t) && Loose(t, req) && b < |t.heads|
    ensures var u := InBucket(t, req, b);
      && Lengths(u.buckets) == Lengths(t.buckets) + 1
      && Load(u.m, u.buckets, s) == Load(t.m, t.buckets, s) + IfWith(t.m, req, s)
  {
    var u := InBucket(t, req, b);
    assert BucketOk(t, b);
    NotListed(t, req, b);
    InsertCircle(t.m, t.buckets[b], req);
    LengthsUpdate(t.buckets, b, u.buckets[b]);
    LoadSame(t.m, u.m, t.buckets, s);
    LoadUpdate(u.m, t.buckets, b, u.buckets[b], s);
    WithConcat(u.m, t.buckets[b], [req], s);
    WithOne(u.m, req, s);
  }

  lemma OutOfBucketCounts(t: Table, b: nat, k: nat, s: Server)
    requires TableOk(t) && b < |t.heads| && k < |t.buckets[b]|
    ensures var u := OutOfBucket(t, b, k);
      && Lengths(u.buckets) == Lengths(t.buckets) - 1
      && Load(u.m, u.buckets, s) == Load(t.m, t.buckets, s) - IfWith(t.m, t.buckets[b][k], s)
  {
    var u := OutOfBucket(t, b, k);
    assert BucketOk(t, b) && t.buckets[b][k] in t.buckets[b];
    UnlinkCircle(t.m, t.buckets[b], k);
    LengthsUpdate(t.buckets, b, u.buckets[b]);
    LoadSame(t.m, u.m, t.buckets, s);
    LoadUpdate(u.m, t.buckets, b, u.buckets[b], s);
    WithCut(u.m, t.buckets[b], k, s);
  }

  /** Swapping the server of a request in flight moves one from the old server to the new. */
  lemma SwapCounts(t: Table, b: nat, k: nat, ns: Server, s: Server)
    requires TableOk(t) && b < |t.heads| && k < |t.buckets[b]|
    ensures var req := t.buckets[b][k];
      && req in t.m
      && var m' := t.m[req := t.m[req].(ns := Some(ns))];
         Load(m', t.buckets, s) == Load(t.m, t.buckets, s) - IfWith(t.m, req, s) + IfWith(m', req, s)
  {
    var req := t.buckets[b][k];
    assert BucketOk(t, b) && req in t.buckets[b];
    var m' := t.m[req := t.m[req].(ns := Some(ns))];
    var ps := t.buckets[b];
    var rest := t.buckets[b := Cut(ps, k)];
    CutFacts(ps, k);
    WithCut(t.m, ps, k, s);
    WithCut(m', ps, k, s);
    LoadUpdate(t.m, t.buckets, b, Cut(ps, k), s);
    LoadUpdate(m', t.buckets, b, Cut(ps, k), s);
    forall c, p | 0 <= c < |rest| && p in rest[c] ensures p != req {
      assert BucketOk(t, c);
    }
    LoadSame(t.m, m', rest, s);
  }

  // ---- the table as a set

  /** The requests in flight. */
  ghost function Flying(t: Table): set<Ptr> {
    set r | r in t.m && t.m[r].next != NULL && t.m[r].ns.Some?
  }

  /** They are the ones in the buckets. */
  lemma FlyingListed(t: Table, r: Ptr)
    requires TableOk(t)
    ensures r in Flying(t) <==> r in t.slot && In(t, r, t.slot[r])
    ensures forall b: nat :: In(t, r, b) ==> r in Flying(t) && SlotIs(t, r, b)
  {
    if r in t.slot && In(t, r, t.slot[r]) {
      assert BucketOk(t, t.slot[r]);
      LinkedMember(t.m, t.buckets[t.slot[r]], r);
    }
    forall b: nat | In(t, r, b) ensures r in Flying(t) && SlotIs(t, r, b) {
      assert BucketOk(t, b);
      LinkedMember(t.m, t.buckets[b], r);
    }
  }

  lemma InBucketFlying(t: Table, req: Ptr, b: nat)
    requires TableOk(t) && Loose(t, req) && t.m[req].ns.Some? && b < |t.heads|
    ensures Flying(InBucket(t, req, b)) == Flying(t) + {req}
  {
    var u := InBucket(t, req, b);
    InBucketOk(t, req, b);
    NotListed(t, req, b);
    forall r ensures r in Flying(u) <==> r in Flying(t) || r == req {
      FlyingListed(t, r);
      FlyingListed(u, r);
      assert r != req && r in t.slot ==> (In(u, r, t.slot[r]) <==> In(t, r, t.slot[r]));
      assert In(u, req, b);
    }
  }

  lemma OutOfBucketFlying(t: Table, b: nat, k: nat)
    requires TableOk(t) && b < |t.heads| && k < |t.buckets[b]|
    ensures Flying(OutOfBucket(t, b, k)) == Flying(t) - {t.buckets[b][k]}
  {
    var u, req := OutOfBucket(t, b, k), t.buckets[b][k];
    OutOfBucketOk(t, b, k);
    assert BucketOk(t, b) && req in t.buckets[b];
    CutFacts(t.buckets[b], k);
    forall r ensures r in Flying(u) <==> r in Flying(t) && r != req {
      FlyingListed(t, r);
      FlyingListed(u, r);
      assert r != req && r in t.slot ==> (In(u, r, t.slot[r]) <==> In(t, r, t.slot[r]));
    }
  }

  /** Moves in the waiting queue do not matter. */
  lemma WaitingFlying(t: Table, u: Table, req: Ptr)
    requires TableOk(t) && TableOk(u) && u.buckets == t.buckets && u.slot == t.slot
    ensures Flying(u) == Flying(t)
  {
    forall r ensures r in Flying(u) <==> r in Flying(t) {
      FlyingListed(t, r);
      FlyingListed(u, r);
      assert r in t.slot ==> (In(u, r, t.slot[r]) <==> In(t, r, t.slot[r]));
    }
  }
}
