/** The circular doubly linked lists of DNS requests, as facts about the heap. */
module RequestLists {
  import opened Options
  import opened Addresses
  import opened Lists

  /** A nameserver. */
  type Server = nat

  /** The fields of struct request that decide where it is. */
  datatype Request = Request(transId: nat, ns: Option<Server>, next: Ptr, prev: Ptr)

  type Memory = map<Ptr, Request>

  function Head(ps: seq<Ptr>): Ptr {
    if ps == [] then NULL else ps[0]
  }

  function Succ(i: nat, n: nat): nat {
    if i + 1 == n then 0 else i + 1
  }

  function Pred(i: nat, n: nat): int {
    if i == 0 then n - 1 else i - 1
  }

  predicate NodeOk(m: Memory, ps: seq<Ptr>, i: nat)
    requires i < |ps|
  {
    ps[i] != NULL && ps[i] in m && m[ps[i]].next == ps[Succ(i, |ps|)] && m[ps[i]].prev == ps[Pred(i, |ps|)]
  }

  /** The requests `ps` are linked in a circle, in that order. */
  ghost predicate Circle(m: Memory, ps: seq<Ptr>) {
    Distinct(ps) && forall i: nat :: i < |ps| ==> NodeOk(m, ps, i)
  }

  /** Only links changed, and only those of requests in `ps`. */
  ghost predicate LinksOnly(m: Memory, m': Memory, ps: seq<Ptr>) {
    && m'.Keys == m.Keys
    && (forall p :: p in m ==> m'[p].transId == m[p].transId && m'[p].ns == m[p].ns)
    && (forall p :: p in m && p !in ps ==> m'[p] == m[p])
  }

  /** evdns_request_insert: at the end of the circle, before the head. */
  function Insert(m: Memory, head: Ptr, req: Ptr): Memory
    requires req in m && (head != NULL ==> head in m && m[head].prev in m)
  {
    if head == NULL then m[req := m[req].(next := req, prev := req)]
    else
      var tail := m[head].prev;
      var m1 := m[req := m[req].(prev := tail, next := head)];
      var m2 := m1[tail := m1[tail].(next := req)];
      m2[head := m2[head].(prev := req)]
  }

  lemma InsertCircle(m: Memory, ps: seq<Ptr>, req: Ptr)
    requires Circle(m, ps) && req in m && req != NULL && req !in ps
    ensures Head(ps) != NULL ==> Head(ps) in m && m[Head(ps)].prev in m && Head(ps) != req && m[Head(ps)].prev != req
    ensures var m' := Insert(m, Head(ps), req); Circle(m', ps + [req]) && LinksOnly(m, m', ps + [req])
    ensures Head(ps + [req]) == if Head(ps) == NULL then req else Head(ps)
  {
    var qs, n := ps + [req], |ps|;
    AppendFacts(ps, req);
    if n > 0 {
      assert NodeOk(m, ps, 0) && NodeOk(m, ps, n - 1);
      var m' := Insert(m, ps[0], req);
      forall i: nat | i < |qs| ensures NodeOk(m', qs, i) {
        if i < n {
          assert NodeOk(m, ps, i);
        }
      }
    }
  }

  /** evdns_request_remove, the links. */
  function Unlink(m: Memory, req: Ptr): Memory
    requires req in m && m[req].next in m && m[req].prev in m
  {
    var next, prev := m[req].next, m[req].prev;
    if next == req then m[req := m[req].(next := NULL, prev := NULL)]
    else
      var m1 := m[next := m[next].(prev := prev)];
      var m2 := m1[prev := m1[prev].(next := next)];
      m2[req := m2[req].(next := NULL, prev := NULL)]
  }

  /** evdns_request_remove, the head. */
  function NewHead(m: Memory, head: Ptr, req: Ptr): Ptr
    requires req in m
  {
    if m[req].next == req then NULL else if head == req then m[req].next else head
  }

  lemma UnlinkCircle(m: Memory, ps: seq<Ptr>, k: nat)
    requires Circle(m, ps) && k < |ps|
    ensures ps[k] in m && m[ps[k]].next in m && m[ps[k]].prev in m
    ensures var m' := Unlink(m, ps[k]);
      && Circle(m', Cut(ps, k)) && LinksOnly(m, m', ps)
      && m'[ps[k]].next == NULL && NewHead(m, Head(ps), ps[k]) == Head(Cut(ps, k))
  {
    var qs, n, req := Cut(ps, k), |ps|, ps[k];
    CutFacts(ps, k);
    assert NodeOk(m, ps, k);
    assert NodeOk(m, ps, Succ(k, n)) && NodeOk(m, ps, Pred(k, n));
    var m' := Unlink(m, req);
    forall i: nat | i < |qs| ensures NodeOk(m', qs, i) {
      UnlinkNode(m, ps, k, i);
    }
  }

  /** The neighbours of a request that stays in the circle. */
  lemma CutNeighbours(ps: seq<Ptr>, k: nat, i: nat)
    requires k < |ps| && i < |ps| - 1
    ensures var qs, n, j := Cut(ps, k), |ps|, if i < k then i else i + 1;
      && qs[i] == ps[j]
      && qs[Succ(i, n - 1)] == (if Succ(j, n) == k then ps[Succ(k, n)] else ps[Succ(j, n)])
      && qs[Pred(i, n - 1)] == (if Pred(j, n) == k then ps[Pred(k, n)] else ps[Pred(j, n)])
  {
  }

  lemma UnlinkNode(m: Memory, ps: seq<Ptr>, k: nat, i: nat)
    requires Circle(m, ps) && k < |ps| && i < |ps| - 1
    requires ps[k] in m && m[ps[k]].next in m && m[ps[k]].prev in m
    ensures NodeOk(Unlink(m, ps[k]), Cut(ps, k), i)
  {
    var n, j := |ps|, if i < k then i else i + 1;
    assert NodeOk(m, ps, k) && NodeOk(m, ps, j);
    CutNeighbours(ps, k, i);
    hide Cut;
  }

  /** A circle that shares no request with the changed ones is still there. */
  lemma CircleKept(m: Memory, m': Memory, ps: seq<Ptr>, qs: seq<Ptr>)
    requires Circle(m, qs) && LinksOnly(m, m', ps) && forall p :: p in qs ==> p !in ps
    ensures Circle(m', qs)
  {
    forall i: nat | i < |qs| ensures NodeOk(m', qs, i) {
      assert NodeOk(m, qs, i) && qs[i] in qs;
    }
  }
}
