/** The requests of an evdns_base: submitting, pumping the waiting queue, finishing, changing servers
    and changing the size of the table. */
module DnsRequests {
  import opened Options
  import opened Addresses
  import opened Lists
  import opened RequestLists
  import opened RequestTables

  class RequestBase {
    var m: Memory
    /** req_heads; its length is n_req_heads. */
    var heads: seq<Ptr>
    var waitingHead: Ptr
    var inflight: int
    var waiting: int
    var maxInflight: int
    /** requests_inflight of each nameserver. */
    var load: map<Server, int>

    ghost var buckets: seq<seq<Ptr>>
    ghost var waitq: seq<Ptr>

    ghost function View(): Table
      reads this
    {
      Table(m, heads, waitingHead, buckets, waitq, Slots(m, |heads|))
    }

    /** The counters are the sizes of the lists. */
    ghost predicate Counted()
      reads this
    {
      && inflight == Lengths(buckets) && waiting == |waitq|
      && (forall s :: s in load ==> load[s] == Load(m, buckets, s))
    }

    /** Requests only name servers there are. */
    ghost predicate ServersKnown()
      reads this
    {
      forall r :: r in m && m[r].ns.Some? ==> m[r].ns.value in load
    }

    ghost predicate Valid()
      reads this
    {
      TableOk(View()) && Counted() && ServersKnown()
    }

    /** A base whose table is sized for `max` requests in flight. */
    constructor (max: nat)
      requires max >= 1
      ensures Valid() && Flying(View()) == {} && waitq == [] && load == map[] && maxInflight == max
    {
      var n := (max + 4) / 5;
      m, heads, waitingHead := map[], seq(n, _ => NULL), NULL;
      inflight, waiting, maxInflight, load := 0, 0, max, map[];
      buckets, waitq := seq(n, _ => []), [];
      new;
      NoLengths(buckets);
    }

    /** A new nameserver has no requests. */
    method AddServer(s: Server)
      requires Valid() && s !in load
      modifies this`load
      ensures Valid() && load == old(load)[s := 0]
    {
      forall b: nat, r | b < |buckets| && r in buckets[b] ensures r in m && m[r].ns != Some(s) {
        assert BucketOk(View(), b);
      }
      NoLoad(m, buckets, s);
      load := load[s := 0];
    }

    /** evdns_request_insert on the list with that head. */
    method InsertRequest(head: Ptr, req: Ptr) returns (head': Ptr)
      requires req in m && (head != NULL ==> head in m && m[head].prev in m && head != req && m[head].prev != req)
      modifies this`m
      ensures m == Insert(old(m), head, req) && head' == (if head == NULL then req else head)
    {
      if head == NULL {
        m := m[req := m[req].(next := req, prev := req)];
        return req;
      }
      m := m[req := m[req].(prev := m[head].prev)];
      m := m[m[req].prev := m[m[req].prev].(next := req)];
      m := m[req := m[req].(next := head)];
      m := m[head := m[head].(prev := req)];
      return head;
    }

    /** evdns_request_remove from the list with that head. */
    method RemoveRequest(head: Ptr, req: Ptr) returns (head': Ptr)
      requires req in m && m[req].next in m && m[req].prev in m
      modifies this`m
      ensures m == Unlink(old(m), req) && head' == NewHead(old(m), head, req)
    {
      head' := head;
      if m[req].next == req {
        head' := NULL;
      } else {
        m := m[m[req].next := m[m[req].next].(prev := m[req].prev)];
        m := m[m[req].prev := m[m[req].prev].(next := m[req].next)];
        if head == req {
          head' := m[req].next;
        }
      }
      m := m[req := m[req].(next := NULL, prev := NULL)];
    }

    // ---- entering and leaving lists

    /** A request with a nameserver enters its bucket. */
    method EnterBucket(req: Ptr)
      requires TableOk(View()) && Loose(View(), req) && m[req].ns.Some?
      modifies this`m, this`heads, this`buckets
      ensures var t := old(View()); var b := t.m[req].transId % |t.heads|; View() == InBucket(t, req, b)
      ensures TableOk(View())
    {
      hide TableOk, BucketOk, Circle, Insert, Head;
      ghost var t := View();
      HasSlots(t);
      var b := m[req].transId % |heads|;
      BucketFacts(t, b);
      NotListed(t, req, b);
      InsertCircle(m, buckets[b], req);
      InBucketOk(t, req, b);
      var h := InsertRequest(heads[b], req);
      heads := heads[b := h];
      buckets := buckets[b := buckets[b] + [req]];
      SlotsSame(t.m, m, t.buckets[b] + [req], |heads|);
    }

    /** The request at position `k` of its bucket leaves it. */
    method LeaveBucket(req: Ptr, ghost k: nat)
      requires TableOk(View()) && req in m && |heads| > 0
      requires var b := m[req].transId % |heads|; b < |buckets| && k < |buckets[b]| && buckets[b][k] == req
      modifies this`m, this`heads, this`buckets
      ensures var t := old(View()); var b := t.m[req].transId % |t.heads|; View() == OutOfBucket(t, b, k)
      ensures TableOk(View()) && Loose(View(), req)
    {
      hide TableOk, BucketOk, Circle, Unlink, NewHead, Head;
      ghost var t := View();
      HasSlots(t);
      var b := m[req].transId % |heads|;
      BucketFacts(t, b);
      UnlinkCircle(m, buckets[b], k);
      OutOfBucketOk(t, b, k);
      var h := RemoveRequest(heads[b], req);
      heads := heads[b := h];
      buckets := buckets[b := Cut(buckets[b], k)];
      SlotsSame(t.m, m, t.buckets[b], |heads|);
    }

    method EnterWaiting(req: Ptr)
      requires TableOk(View()) && Loose(View(), req) && m[req].ns == None
      modifies this`m, this`waitingHead, this`waitq
      ensures View() == InWaiting(old(View()), req) && TableOk(View())
    {
      ghost var t := View();
      NotListed(t, req, 0);
      InsertCircle(m, waitq, req);
      InWaitingOk(t, req);
      hide TableOk, Circle, Insert, Head;
      waitingHead := InsertRequest(waitingHead, req);
      waitq := waitq + [req];
      SlotsSame(t.m, m, t.waitq + [req], |heads|);
    }

    method LeaveWaiting(req: Ptr, ghost k: nat)
      requires TableOk(View()) && k < |waitq| && waitq[k] == req
      modifies this`m, this`waitingHead, this`waitq
      ensures View() == OutOfWaiting(old(View()), k) && TableOk(View()) && Loose(View(), req)
    {
      ghost var t := View();
      UnlinkCircle(m, waitq, k);
      OutOfWaitingOk(t, k);
      hide TableOk, Circle, Unlink, NewHead, Head;
      waitingHead := RemoveRequest(waitingHead, req);
      waitq := Cut(waitq, k);
      SlotsSame(t.m, m, t.waitq, |heads|);
    }

    // ---- the operations

    /** request_new: a request that is in no list yet. */
    method NewRequest(transId: nat, ns: Option<Server>) returns (req: Ptr)
      requires Valid() && (ns.Some? ==> ns.value in load)
      modifies this`m
      ensures Valid() && req !in old(m) && Loose(View(), req) && m == old(m)[req := Request(transId, ns, NULL, NULL)]
      ensures Flying(View()) == old(Flying(View())) && Assigned(View()) == old(Assigned(View()))
    {
      hide Circle, BucketOk, Assigned;
      ghost var t := View();
      UnusedAddress(m.Keys, NULL);
      req :| req > NULL && req !in m;
      m := m[req := Request(transId, ns, NULL, NULL)];
      ChangedOk(t, View(), req);
      SameLoads(t, View(), req);
      AssignedSame(t, View());
    }

    /** Forgets a request that is in no list. */
    method FreeRequest(req: Ptr)
      requires Valid() && Loose(View(), req)
      modifies this`m
      ensures Valid() && m == old(m) - {req} && Flying(View()) == old(Flying(View()))
      ensures Assigned(View()) == old(Assigned(View()))
    {
      hide Circle, BucketOk;
      ghost var t := View();
      m := m - {req};
      ChangedOk(t, View(), req);
      SameLoads(t, View(), req);
      AssignedSame(t, View());
    }

    /** request_submit: straight into flight if it has a nameserver, else to the end of the queue. */
    method Submit(req: Ptr)
      requires Valid() && Loose(View(), req)
      modifies this`m, this`heads, this`buckets, this`waitingHead, this`waitq, this`inflight, this`waiting, this`load
      ensures Valid()
      ensures old(m)[req].ns.Some? ==> Flying(View()) == old(Flying(View())) + {req} && waitq == old(waitq)
      ensures old(m)[req].ns == None ==> Flying(View()) == old(Flying(View())) && waitq == old(waitq) + [req]
      ensures load.Keys == old(load).Keys && SameServers(old(m), m)
      ensures inflight == old(inflight) + if old(m)[req].ns.Some? then 1 else 0
      ensures Assigned(View()) == if old(m)[req].ns.None? then old(Assigned(View()))
        else old(Assigned(View()))[req := Flight(old(m)[req].ns.value, old(m)[req].transId)]
    {
      hide Circle, BucketOk, TableOk, Flying;
      if m[req].ns.Some? {
        GoIntoFlight(req);
      } else {
        Queue(req);
      }
    }

    method GoIntoFlight(req: Ptr)
      requires Valid() && Loose(View(), req) && m[req].ns.Some?
      modifies this`m, this`heads, this`buckets, this`inflight, this`load
      ensures Valid() && Flying(View()) == old(Flying(View())) + {req}
      ensures load.Keys == old(load).Keys && SameServers(old(m), m) && inflight == old(inflight) + 1
      ensures Assigned(View()) ==
        old(Assigned(View()))[req := Flight(old(m)[req].ns.value, old(m)[req].transId)]
    {
      hide Circle, BucketOk, TableOk, Flying, Assigned;
      ghost var t := View();
      HasSlots(t);
      var s := m[req].ns.value;
      EnteredBucket(t, req, m[req].transId % |heads|);
      EnterBucket(req);
      inflight := inflight + 1;
      load := load[s := load[s] + 1];
      AssignedMore(t, View(), req);
    }

    method Queue(req: Ptr)
      requires Valid() && Loose(View(), req) && m[req].ns == None
      modifies this`m, this`waitingHead, this`waitq, this`waiting
      ensures Valid() && Flying(View()) == old(Flying(View())) && waitq == old(waitq) + [req] && SameServers(old(m), m)
      ensures Assigned(View()) == old(Assigned(View()))
    {
      hide Circle, BucketOk, TableOk, Assigned;
      ghost var t := View();
      EnterWaiting(req);
      EnteredWaiting(t, req);
      WaitingFlying(t, View(), req);
      waiting := waiting + 1;
      SameServersLoads(t, View());
      AssignedKept(t, View());
    }

    /** request_find_from_trans_id: once around the circle of the bucket. Some request in flight is
        found exactly if one has the id. */
    method Find(transId: nat) returns (req: Ptr)
      requires Valid()
      ensures req != NULL ==> req in Flying(View()) && m[req].transId == transId
      ensures req == NULL ==> forall r :: r in Flying(View()) ==> m[r].transId != transId
    {
      var b := transId % |heads|;
      assert BucketOk(View(), b);
      ghost var ps := buckets[b];
      req := heads[b];
      var startedAt := req;
      ghost var i: nat := 0;
      if req == NULL {
        assert ps == [] by {
          NoNull(m, ps);
        }
      } else {
        assert NodeOk(m, ps, 0);
        while true
          invariant i < |ps| && req == ps[i] && NodeOk(m, ps, i)
          invariant forall j :: 0 <= j < i ==> m[ps[j]].transId != transId
          decreases |ps| - i
        {
          if m[req].transId == transId {
            FlyingListed(View(), req);
            assert In(View(), req, b);
            return;
          }
          req := m[req].next;
          i := i + 1;
          assert req == startedAt <==> i == |ps|;
          if req == startedAt {
            break;
          }
          assert NodeOk(m, ps, i);
        }
      }
      NotInBucket(View(), b, transId);
      return NULL;
    }

    /** request_swap_ns on a request in flight; no change if there is no other server to take. */
    method SwapNs(req: Ptr, ns: Option<Server>)
      requires Valid() && req in Flying(View()) && (ns.Some? ==> ns.value in load)
      modifies this`m, this`load
      ensures Valid() && Flying(View()) == old(Flying(View())) && load.Keys == old(load).Keys
      ensures m == old(m)[req := old(m)[req].(ns := if ns.Some? then ns else old(m)[req].ns)]
      ensures Assigned(View()) == if ns.None? then old(Assigned(View()))
        else old(Assigned(View()))[req := Flight(ns.value, old(m)[req].transId)]
    {
      hide Assigned;
      ghost var t := View();
      if ns.Some? && m[req].ns != ns {
        hide Circle, BucketOk, TableOk;
        ghost var b, k := WhereFlying(t, req);
        Swapped(t, b, k, ns.value);
        SlotsOfSwapped(m, req, ns, |heads|);
        var before := m[req].ns.value;
        LoadPositive(t, b, k, before);
        assert load[before] > 0;
        load := load[before := load[before] - 1];
        load := load[ns.value := load[ns.value] + 1];
        m := m[req := m[req].(ns := ns)];
      }
      AssignedSwapped(t, View(), req, if ns.Some? then ns.value else m[req].ns.value);
    }

    /** Takes a request out of the waiting queue. */
    method TakeFromWaiting(req: Ptr, ghost k: nat)
      requires Valid() && k < |waitq| && waitq[k] == req
      modifies this`m, this`waitingHead, this`waitq, this`waiting
      ensures Valid() && Loose(View(), req) && waitq == Cut(old(waitq), k) && Flying(View()) == old(Flying(View())) &&
        SameServers(old(m), m)
      ensures Assigned(View()) == old(Assigned(View()))
    {
      hide Circle, BucketOk, TableOk, Assigned;
      ghost var t := View();
      LeaveWaiting(req, k);
      LeftWaiting(t, k);
      WaitingFlying(t, View(), req);
      SameServersLoads(t, View());
      AssignedKept(t, View());
      waiting := waiting - 1;
    }

    /** Takes a request out of flight. */
    method TakeFromFlight(req: Ptr)
      requires Valid() && req in Flying(View())
      modifies this`m, this`heads, this`buckets, this`inflight, this`load
      ensures Valid() && Loose(View(), req) && waitq == old(waitq) && Flying(View()) == old(Flying(View())) - {req}
      ensures inflight == old(inflight) - 1
      ensures m.Keys == old(m).Keys && load.Keys == old(load).Keys
      ensures Assigned(View()) == old(Assigned(View())) - {req}
    {
      hide Circle, BucketOk, TableOk, Assigned;
      ghost var t := View();
      HasSlots(t);
      ghost var b, k := WhereFlying(t, req);
      var s := m[req].ns.value;
      LeftBucket(t, b, k);
      LeaveBucket(req, k);
      inflight := inflight - 1;
      load := load[s := load[s] - 1];
      AssignedLess(t, View(), req);
    }

    /** Gives a request that is in no list a server and a transaction id. */
    method Retarget(req: Ptr, s: Server, transId: nat)
      requires Valid() && Loose(View(), req) && s in load
      modifies this`m
      ensures Valid() && Loose(View(), req) && m == old(m)[req := old(m)[req].(ns := Some(s), transId := transId)]
      ensures Flying(View()) == old(Flying(View())) && Assigned(View()) == old(Assigned(View()))
    {
      hide Circle, BucketOk, Assigned;
      ghost var t := View();
      m := m[req := m[req].(ns := Some(s), transId := transId)];
      ChangedOk(t, View(), req);
      SameLoads(t, View(), req);
      AssignedSame(t, View());
    }

    /** One round of evdns_requests_pump_waiting_queue. */
    method PromoteFirst(s: Server, transId: nat)
      requires Valid() && waitq != [] && s in load
      modifies this`m, this`heads, this`buckets, this`waitingHead, this`waitq, this`inflight, this`waiting, this`load
      ensures Valid() && waitq == old(waitq)[1..] && Flying(View()) == old(Flying(View())) + {old(waitq)[0]}
      ensures m.Keys == old(m).Keys && load.Keys == old(load).Keys && inflight == old(inflight) + 1
      ensures Assigned(View()) == old(Assigned(View()))[old(waitq)[0] := Flight(s, transId)]
    {
      hide Circle, BucketOk, TableOk, Flying, Assigned;
      var req := waitingHead;
      FirstWaiting(View());
      assert Cut(waitq, 0) == waitq[1..];
      TakeFromWaiting(req, 0);
      Retarget(req, s, transId);
      Submit(req);
    }

    /** evdns_requests_pump_waiting_queue: requests go into flight in the order in which they came, while
        there is room and a server to take them. `picks` are what nameserver_pick returns, `ids` what
        transaction_id_pick does. */
    method Pump(picks: seq<Option<Server>>, ids: seq<nat>) returns (moved: nat)
      requires Valid() && |ids| == |picks| && forall i :: 0 <= i < |picks| && picks[i].Some? ==> picks[i].value in load
      modifies this`m, this`heads, this`buckets, this`waitingHead, this`waitq, this`inflight, this`waiting, this`load
      ensures Valid() && m.Keys == old(m).Keys && load.Keys == old(load).Keys
      ensures Pumped(old(waitq), picks, old(inflight), maxInflight, moved) && inflight == old(inflight) + moved
      ensures waitq == old(waitq)[moved..] && Flying(View()) == old(Flying(View())) + (set r | r in old(waitq)[..moved])
      ensures Assigned(View()) == Issued(old(Assigned(View())), old(waitq), picks, ids, moved)
    {
      hide Circle, BucketOk, TableOk, Flying, ServersKnown, Assigned, Issued;
      moved := 0;
      ghost var fly, q, before := Flying(View()), waitq, Assigned(View());
      NoneIssued(before, q, picks, ids);
      while inflight < maxInflight && waiting != 0 && moved < |picks|
        invariant Valid() && m.Keys == old(m).Keys && load.Keys == old(load).Keys
        invariant moved <= |q| && moved <= |picks| && waitq == q[moved..] && inflight == old(inflight) + moved
        invariant (moved > 0 ==> inflight <= maxInflight) && forall i :: 0 <= i < moved ==> picks[i].Some?
        invariant Flying(View()) == fly + (set r | r in q[..moved])
        invariant Assigned(View()) == Issued(before, q, picks, ids, moved)
        decreases |picks| - moved
      {
        if picks[moved].None? {
          return;
        }
        OneMoreIssued(before, q, picks, ids, moved);
        assert q[..moved + 1] == q[..moved] + [q[moved]];
        PromoteFirst(picks[moved].value, ids[moved]);
        moved := moved + 1;
      }
    }

    /** request_finished: the request leaves its list and is freed, and waiting ones may take its place.
        `gone` is its place in the waiting queue if that is where it is. */
    method Finish(req: Ptr, fromWaiting: bool, ghost gone: nat, picks: seq<Option<Server>>, ids: seq<nat>)
      returns (moved: nat)
      requires Valid() && |ids| == |picks| && forall i :: 0 <= i < |picks| && picks[i].Some? ==> picks[i].value in load
      requires if fromWaiting then gone < |waitq| && waitq[gone] == req else req in Flying(View())
      modifies this`m, this`heads, this`buckets, this`waitingHead, this`waitq, this`inflight, this`waiting, this`load
      ensures Valid() && m.Keys == old(m).Keys - {req} && load.Keys == old(load).Keys
      ensures var q := if fromWaiting then Cut(old(waitq), gone) else old(waitq);
        var n := old(inflight) - if fromWaiting then 0 else 1;
        && Pumped(q, picks, n, maxInflight, moved) && inflight == n + moved && waitq == q[moved..]
        && Flying(View()) == old(Flying(View())) - {req} + (set r | r in q[..moved])
        && Assigned(View()) == Issued(old(Assigned(View())) - {req}, q, picks, ids, moved)
    {
      hide Circle, BucketOk, TableOk, ServersKnown, Assigned;
      AssignedFlying(View());
      if fromWaiting {
        WaitingNotFlying(View(), req);
        assert Assigned(View()) - {req} == Assigned(View());
        TakeFromWaiting(req, gone);
      } else {
        TakeFromFlight(req);
      }
      FreeRequest(req);
      moved := Pump(picks, ids);
    }

    /** One round of the loops of evdns_base_set_max_requests_inflight: the first request of old list `i`
        goes to its new list. `t` is the table of all old and all new lists. */
    method MoveOne(ghost t: Table, olds: seq<Ptr>, news: seq<Ptr>, i: nat)
      returns (ghost t': Table, olds': seq<Ptr>, news': seq<Ptr>)
      requires Moving(t, olds, news) && t.m == m && i < |olds| && olds[i] != NULL
      modifies this`m
      ensures Moving(t', olds', news') && t'.m == m && |olds'| == |olds| && |news'| == |news|
      ensures t'.waitq == t.waitq && t'.waitingHead == t.waitingHead
      ensures SameTotals(t, t') && |t'.buckets[i]| < |t.buckets[i]| && forall j :: 0 <= j < i && t.buckets[j] == [] ==>
        t'.buckets[j] == []
    {
      var req := olds[i];
      FirstOfList(t, olds, news, i);
      var b := m[req].transId % |news|;
      ghost var c := |olds| + b;
      MovedOk(t, i, c);
      MovedPointers(t, i, c);
      MovedTotals(t, i, c);
      t' := Moved(t, i, c);
      hide *;
      assert t.heads[i] == olds[i] && t.heads[c] == news[b];
      var h := RemoveRequest(olds[i], req);
      olds' := olds[i := h];
      h := InsertRequest(news[b], req);
      news' := news[b := h];
      StillMoving(t, t', olds, news, olds', news', i, b);
    }

    /** The loops of evdns_base_set_max_requests_inflight. */
    method MoveAll(ghost t0: Table, n: nat) returns (ghost t: Table, news: seq<Ptr>)
      requires Valid() && n > 0 && t0 == Widened(View(), n)
      modifies this`m
      ensures |news| == n && Moving(t, NoHeads(|heads|), news) && t.m == m && SameTotals(t0, t)
      ensures t.waitq == t0.waitq && t.waitingHead == t0.waitingHead
      ensures forall j :: 0 <= j < |heads| && j < |t.buckets| ==> t.buckets[j] == []
    {
      hide Circle, BucketOk, TableOk, SameTotals, Moving;
      WidenedOk(View(), n);
      t, news := t0, seq(n, _ => NULL);
      var olds, i := heads, 0;
      SameTotalsItself(t);
      while i < |olds|
        invariant 0 <= i <= |olds| == |heads| && |news| == n && Moving(t, olds, news) && t.m == m && SameTotals(t0, t)
        invariant t.waitq == t0.waitq && t.waitingHead == t0.waitingHead
        invariant forall j :: 0 <= j < i && j < |t.buckets| ==> t.buckets[j] == []
      {
        MovingLengths(t, olds, news);
        while olds[i] != NULL
          invariant |olds| == |heads| && |news| == n && Moving(t, olds, news) && t.m == m && SameTotals(t0, t)
          invariant t.waitq == t0.waitq && t.waitingHead == t0.waitingHead && |t.buckets| == |olds| + |news|
          invariant forall j :: 0 <= j < i && j < |t.buckets| ==> t.buckets[j] == []
          decreases |t.buckets[i]|
        {
          ghost var before := t;
          t, olds, news := MoveOne(t, olds, news, i);
          SameTotalsTrans(t0, before, t);
          MovingLengths(t, olds, news);
        }
        EmptyList(t, olds, news, i);
        i := i + 1;
      }
      AllMoved(t, olds, news);
    }

    /** evdns_base_set_max_requests_inflight: the same requests in a table of another size. */
    method SetMaxInflight(max: int, mem: bool) returns (ok: bool)
      requires Valid()
      modifies this`m, this`heads, this`buckets, this`maxInflight
      ensures Valid() && ok == mem && (!ok ==> unchanged(this))
      ensures ok ==> maxInflight == (if max < 1 then 1 else max) && |heads| == (maxInflight + 4) / 5
      ensures Flying(View()) == old(Flying(View())) && SameServers(old(m), m)
      ensures Assigned(View()) == old(Assigned(View()))
    {
      hide Circle, BucketOk, TableOk, SameTotals, Moving, Flying, Assigned;
      SameServersItself(m);
      var n := if max < 1 then 1 else max;
      if !mem {
        return false;
      }
      ghost var v := View();
      WidenedTotals(v, (n + 4) / 5);
      ghost var t0 := Widened(v, (n + 4) / 5);
      var t, news := MoveAll(t0, (n + 4) / 5);
      Narrowed(v, t, news);
      SameTotalsTrans(v, t0, t);
      heads := news;
      buckets := t.buckets[|v.heads|..];
      maxInflight := n;
      assert SameCounts(v, View()) by {
        SameCountsTrans(v, t, View());
      }
      AssignedKept(v, View());
      return true;
    }

    /** evdns_cancel_request, which tells by its nameserver where a request is. */
    method Cancel(req: Ptr, picks: seq<Option<Server>>, ids: seq<nat>) returns (moved: nat)
      requires Valid() && req in m && m[req].next != NULL
      requires |ids| == |picks| && forall i :: 0 <= i < |picks| && picks[i].Some? ==> picks[i].value in load
      modifies this`m, this`heads, this`buckets, this`waitingHead, this`waitq, this`inflight, this`waiting, this`load
      ensures Valid() && m.Keys == old(m).Keys - {req} && req !in Flying(View()) && req !in waitq
      ensures Leaves(old(Seen()), req, picks, ids, moved, Seen())
    {
      hide Circle, BucketOk, TableOk, ServersKnown, Pumped, Assigned;
      AssignedFlying(View());
      ghost var k := WhereWaiting(View(), req);
      moved := Finish(req, m[req].ns == None, k, picks, ids);
      NotThere(View(), req);
    }

    /** request_new and request_submit: a request is issued at once if there is room for it and a server. */
    method Resolve(transId: nat, pick: Option<Server>) returns (req: Ptr)
      requires Valid() && (pick.Some? ==> pick.value in load)
      modifies this`m, this`heads, this`buckets, this`waitingHead, this`waitq, this`inflight, this`waiting, this`load
      ensures Valid() && req !in old(m) && m.Keys == old(m).Keys + {req}
      ensures Arrives(old(Seen()), req, transId, pick, Seen())
    {
      hide Circle, BucketOk, TableOk, ServersKnown, Flying, Assigned;
      AssignedFlying(View());
      ghost var t := View();
      req := NewRequest(transId, if inflight < maxInflight then pick else None);
      NotThere(t, req);
      Submit(req);
    }

    /** What can be told of the requests without looking at the table. */
    ghost function Seen(): Requests
      reads this
    {
      Requests(Assigned(View()), waitq, inflight, maxInflight, load.Keys)
    }
  }

  /** The server that a request has been sent to, and its transaction id. */
  datatype Flight = Flight(server: Server, transId: nat)

  /** Where the requests in flight have gone. */
  ghost function Assigned(t: Table): map<Ptr, Flight> {
    map r | r in Flying(t) :: Flight(t.m[r].ns.value, t.m[r].transId)
  }

  lemma AssignedFlying(t: Table)
    ensures Assigned(t).Keys == Flying(t)
  {
  }

  lemma AssignedSame(t: Table, u: Table)
    requires Flying(u) == Flying(t)
    requires forall r :: r in Flying(t) ==> u.m[r].ns == t.m[r].ns && u.m[r].transId == t.m[r].transId
    ensures Assigned(u) == Assigned(t)
  {
  }

  lemma AssignedKept(t: Table, u: Table)
    requires Flying(u) == Flying(t) && SameServers(t.m, u.m)
    ensures Assigned(u) == Assigned(t)
  {
  }

  lemma WaitingNotFlying(t: Table, req: Ptr)
    requires TableOk(t) && req in t.waitq
    ensures req !in Flying(t)
  {
  }

  lemma AssignedSwapped(t: Table, u: Table, req: Ptr, s: Server)
    requires req in Flying(t) && u.m == t.m[req := t.m[req].(ns := Some(s))]
    ensures Assigned(u) == Assigned(t)[req := Flight(s, t.m[req].transId)]
    ensures t.m[req].ns == Some(s) ==> Assigned(u) == Assigned(t)
  {
  }

  lemma AssignedMore(t: Table, u: Table, req: Ptr)
    requires Flying(u) == Flying(t) + {req} && SameServers(t.m, u.m) && req in t.m
    ensures t.m[req].ns.Some? && Assigned(u) == Assigned(t)[req := Flight(t.m[req].ns.value, t.m[req].transId)]
  {
    assert req in Flying(u);
  }

  lemma AssignedLess(t: Table, u: Table, req: Ptr)
    requires Flying(u) == Flying(t) - {req} && SameServers(t.m, u.m)
    ensures Assigned(u) == Assigned(t) - {req}
  {
  }

  /** The first `n` of the queue have gone to the servers picked. */
  ghost function Issued(flying: map<Ptr, Flight>, q: seq<Ptr>, picks: seq<Option<Server>>, ids: seq<nat>, n: nat):
    map<Ptr, Flight>
    requires n <= |q| && n <= |picks| == |ids| && forall i :: 0 <= i < n ==> picks[i].Some?
  {
    if n == 0 then flying
    else Issued(flying, q, picks, ids, n - 1)[q[n - 1] := Flight(picks[n - 1].value, ids[n - 1])]
  }

  lemma OneMoreIssued(flying: map<Ptr, Flight>, q: seq<Ptr>, picks: seq<Option<Server>>, ids: seq<nat>, n: nat)
    requires n < |q| && n < |picks| == |ids| && forall i :: 0 <= i <= n ==> picks[i].Some?
    ensures Issued(flying, q, picks, ids, n + 1) ==
      Issued(flying, q, picks, ids, n)[q[n] := Flight(picks[n].value, ids[n])]
  {
  }

  lemma NoneIssued(flying: map<Ptr, Flight>, q: seq<Ptr>, picks: seq<Option<Server>>, ids: seq<nat>)
    requires |picks| == |ids|
    ensures Issued(flying, q, picks, ids, 0) == flying
  {
  }

  /** The requests in flight with their servers, the waiting ones in order, the number of those in flight and its limit,
      and the servers. */
  datatype Requests = Requests(
    flying: map<Ptr, Flight>, waiting: seq<Ptr>, inflight: int, max: int, servers: set<Server>)

  /** How many of the waiting requests go into flight: as many as there is room and servers for. */
  ghost predicate Pumped(q: seq<Ptr>, picks: seq<Option<Server>>, inflight: int, max: int, moved: nat) {
    && moved <= |q| && moved <= |picks| && (moved > 0 ==> inflight + moved <= max)
    && (forall i :: 0 <= i < moved ==> picks[i].Some?)
    && (inflight + moved >= max || moved == |q| || moved == |picks| || picks[moved] == None)
  }

  /** A request is gone, and waiting ones have taken its place in order. */
  ghost predicate Leaves(s: Requests, req: Ptr, picks: seq<Option<Server>>, ids: seq<nat>, moved: nat, u: Requests) {
    var q := Without(s.waiting, req);
    var n := s.inflight - if req in s.flying then 1 else 0;
    && |ids| == |picks| && Pumped(q, picks, n, s.max, moved)
    && u == s.(flying := Issued(s.flying - {req}, q, picks, ids, moved), waiting := q[moved..], inflight := n + moved)
  }

  /** A request goes into flight, or to the end of the queue. */
  ghost predicate Arrives(s: Requests, req: Ptr, transId: nat, pick: Option<Server>, u: Requests) {
    && req !in s.flying && req !in s.waiting
    && u == if s.inflight < s.max && pick.Some?
            then s.(flying := s.flying[req := Flight(pick.value, transId)], inflight := s.inflight + 1)
            else s.(waiting := s.waiting + [req])
  }

  lemma WhereWaiting(t: Table, req: Ptr) returns (k: nat)
    requires TableOk(t) && req in t.m && t.m[req].next != NULL
    ensures t.m[req].ns == None ==> k < |t.waitq| && t.waitq[k] == req
    ensures t.m[req].ns == None ==> req !in Flying(t) && Without(t.waitq, req) == Cut(t.waitq, k)
    ensures t.m[req].ns.Some? ==> req in Flying(t) && Without(t.waitq, req) == t.waitq
  {
    k := 0;
    if t.m[req].ns == None {
      assert req in t.waitq by {
        FlyingListed(t, req);
      }
      k :| k < |t.waitq| && t.waitq[k] == req;
      WithoutAt(t.waitq, k);
    } else {
      WithoutAbsent(t.waitq, req);
    }
  }

  lemma NotThere(t: Table, req: Ptr)
    requires TableOk(t) && req !in t.m
    ensures req !in Flying(t) && req !in t.waitq
  {
  }

  /** What happens to the table. */
  datatype Op =
    | NewServer(s: Server)
    | Issue(transId: nat, pick: Option<Server>)
    | Done(req: Ptr, picks: seq<Option<Server>>, ids: seq<nat>)
    | ChangeServer(req: Ptr, ns: Option<Server>)
    | Resize(max: int, mem: bool)

  ghost predicate ServersIn(picks: seq<Option<Server>>, servers: set<Server>) {
    forall i :: 0 <= i < |picks| && picks[i].Some? ==> picks[i].value in servers
  }

  /** It names requests that are in flight or waiting, and servers that are known. */
  ghost predicate Possible(s: Requests, op: Op) {
    match op
    case NewServer(x) => x !in s.servers
    case Issue(_, pick) => pick.Some? ==> pick.value in s.servers
    case Done(r, picks, ids) => (r in s.flying || r in s.waiting) && |ids| == |picks| && ServersIn(picks, s.servers)
    case ChangeServer(r, ns) => r in s.flying && (ns.Some? ==> ns.value in s.servers)
    case Resize(_, _) => true
  }

  ghost predicate Follows(s: Requests, op: Op, u: Requests) {
    if !Possible(s, op) then u == s
    else match op
      case NewServer(x) => u == s.(servers := s.servers + {x})
      case Issue(transId, pick) => exists r :: Arrives(s, r, transId, pick, u)
      case Done(r, picks, ids) => exists moved :: Leaves(s, r, picks, ids, moved, u)
      case ChangeServer(r, ns) =>
        u == if ns.None? then s else s.(flying := s.flying[r := Flight(ns.value, s.flying[r].transId)])
      case Resize(max, mem) => u == if mem then s.(max := if max < 1 then 1 else max) else s
  }

  /** The limit is not overstepped: more requests are in flight than it allows only after it was lowered. */
  lemma WithinLimit(s: Requests, op: Op, u: Requests)
    requires Follows(s, op, u)
    ensures u.inflight <= u.max || u.inflight <= s.inflight
    ensures u.inflight > u.max && s.inflight <= s.max ==> op.Resize?
  {
    if Possible(s, op) {
      match op {
        case Issue(transId, pick) =>
          var r :| Arrives(s, r, transId, pick, u);
        case Done(req, picks, ids) =>
          var moved :| Leaves(s, req, picks, ids, moved, u);
        case _ =>
      }
    }
  }

  /** Over a whole run in which the limit is not lowered, no more requests are in flight than it allows. */
  lemma {:induction false} RunWithinLimit(moments: seq<Requests>, ops: seq<Op>, n: nat)
    requires |moments| == |ops| + 1 && n <= |ops| && moments[0].inflight <= moments[0].max
    requires forall i :: 0 <= i < |ops| ==> Follows(moments[i], ops[i], moments[i + 1])
    requires forall i :: 0 <= i < |ops| && ops[i].Resize? && ops[i].mem ==>
      moments[i].max <= 1 || moments[i].max <= ops[i].max
    ensures moments[n].inflight <= moments[n].max
  {
    if n > 0 {
      RunWithinLimit(moments, ops, n - 1);
      hide Arrives, Leaves;
      assert Follows(moments[n - 1], ops[n - 1], moments[n]);
      WithinLimit(moments[n - 1], ops[n - 1], moments[n]);
    }
  }

  /** One thing that happens. */
  method Happen(b: RequestBase, op: Op)
    requires b.Valid()
    modifies b
    ensures b.Valid() && Follows(old(b.Seen()), op, b.Seen())
  {
    hide Circle, BucketOk, TableOk, Flying, Pumped, Leaves, Arrives;
    match op {
      case NewServer(x) =>
        if x !in b.load {
          b.AddServer(x);
        }
      case Issue(transId, pick) =>
        if pick.Some? ==> pick.value in b.load {
          var r := b.Resolve(transId, pick);
        }
      case Done(r, picks, ids) =>
        LinkedListed(b.View(), r);
        if r in b.m && b.m[r].next != NULL && |ids| == |picks| && forall i :: 0 <= i < |picks| && picks[i].Some? ==>
          picks[i].value in b.load {
          var moved := b.Cancel(r, picks, ids);
        }
      case ChangeServer(r, ns) =>
        LinkedListed(b.View(), r);
        if r in b.m && b.m[r].next != NULL && b.m[r].ns.Some? && (ns.Some? ==> ns.value in b.load) {
          b.SwapNs(r, ns);
        }
      case Resize(max, mem) =>
        var _ := b.SetMaxInflight(max, mem);
    }
  }

  /** Every run: the table, its set of requests and its counters agree at all times, and each operation
      has its effect on the requests in flight and the waiting ones. */
  method Run(b: RequestBase, ops: seq<Op>) returns (ghost moments: seq<Requests>)
    requires b.Valid()
    modifies b
    ensures b.Valid() && |moments| == |ops| + 1 && moments[0] == old(b.Seen()) && moments[|ops|] == b.Seen()
    ensures forall i :: 0 <= i < |ops| ==> Follows(moments[i], ops[i], moments[i + 1])
  {
    hide Circle, BucketOk, TableOk, Flying, Follows;
    moments := [b.Seen()];
    var i := 0;
    while i < |ops|
      invariant b.Valid() && 0 <= i <= |ops| && |moments| == i + 1 && moments[0] == old(b.Seen()) &&
        moments[i] == b.Seen()
      invariant forall j :: 0 <= j < i ==> Follows(moments[j], ops[j], moments[j + 1])
    {
      Happen(b, ops[i]);
      moments := moments + [b.Seen()];
      i := i + 1;
    }
  }

  /** A request that is linked is in flight or waiting. */
  lemma LinkedListed(t: Table, r: Ptr)
    requires TableOk(t)
    ensures r in t.m && t.m[r].next != NULL <==> r in Flying(t) || r in t.waitq
    ensures r in t.m && t.m[r].next != NULL && t.m[r].ns.Some? <==> r in Flying(t)
  {
    if r in t.waitq {
      LinkedMember(t.m, t.waitq, r);
    }
    FlyingListed(t, r);
  }

  function NoHeads(n: nat): seq<Ptr> {
    seq(n, _ => NULL)
  }

  function NoLists(n: nat): (qs: seq<seq<Ptr>>)
    ensures |qs| == n && forall i :: 0 <= i < n ==> qs[i] == []
  {
    seq(n, _ => [])
  }

  /** The lists with heads `olds` and `news`; what is in a new list is where its transaction id says. */
  ghost predicate Moving(t: Table, olds: seq<Ptr>, news: seq<Ptr>) {
    && TableOk(t) && t.heads == olds + news && |news| > 0
    && forall r :: r in t.m && r in t.slot && t.slot[r] >= |olds| ==> t.slot[r] == |olds| + t.m[r].transId % |news|
  }

  lemma FirstOfList(t: Table, olds: seq<Ptr>, news: seq<Ptr>, i: nat)
    requires Moving(t, olds, news) && i < |olds| && olds[i] != NULL
    ensures t.buckets[i] != [] && t.buckets[i][0] == olds[i] && olds[i] in t.m
    ensures |t.heads| == |t.buckets| == |olds| + |news|
  {
    assert BucketOk(t, i) && t.heads[i] == olds[i];
  }

  /** The first request of list `i` moved to list `c`. */
  ghost function Moved(t: Table, i: nat, c: nat): Table
    requires TableOk(t) && i < |t.heads| && c < |t.heads| && t.buckets[i] != []
  {
    OutOfBucketOk(t, i, 0);
    InBucket(OutOfBucket(t, i, 0), t.buckets[i][0], c)
  }

  lemma MovedOk(t: Table, i: nat, c: nat)
    requires TableOk(t) && i < |t.heads| && c < |t.heads| && t.buckets[i] != []
    ensures TableOk(Moved(t, i, c))
  {
    var req := t.buckets[i][0];
    assert BucketOk(t, i) && req in t.buckets[i];
    UnlinkCircle(t.m, t.buckets[i], 0);
    OutOfBucketOk(t, i, 0);
    InBucketOk(OutOfBucket(t, i, 0), req, c);
  }

  /** What happens to the links and the heads. */
  lemma MovedPointers(t: Table, i: nat, c: nat)
    requires TableOk(t) && i < |t.heads| && c < |t.heads| && t.buckets[i] != [] && i != c
    ensures var req := t.buckets[i][0]; var u := Moved(t, i, c);
      && req in t.m && t.m[req].next in t.m && t.m[req].prev in t.m
      && (var m1 := Unlink(t.m, req);
          && req in m1
          && (t.heads[c] != NULL ==>
                t.heads[c] in m1 && m1[t.heads[c]].prev in m1 && t.heads[c] != req && m1[t.heads[c]].prev != req)
          && u.m == Insert(m1, t.heads[c], req)
          && u.heads == t.heads[i := NewHead(t.m, t.heads[i], req)][c := if t.heads[c] == NULL then req
            else t.heads[c]])
      && u.slot == t.slot[req := c] && u.waitq == t.waitq && u.waitingHead == t.waitingHead
  {
    var req := t.buckets[i][0];
    assert BucketOk(t, i) && BucketOk(t, c);
    UnlinkCircle(t.m, t.buckets[i], 0);
    OutOfBucketOk(t, i, 0);
    var t1 := OutOfBucket(t, i, 0);
    assert BucketOk(t1, c);
    NotListed(t1, req, c);
    hide Circle, TableOk, Unlink, Insert, Head, NewHead;
    InsertCircle(t1.m, t1.buckets[c], req);
  }

  lemma MovedTotals(t: Table, i: nat, c: nat)
    requires TableOk(t) && i < |t.heads| && c < |t.heads| && t.buckets[i] != [] && i != c
    ensures var u := Moved(t, i, c);
      && SameTotals(t, u) && |u.buckets[i]| < |t.buckets[i]|
      && forall j :: 0 <= j < |t.buckets| && j != c && t.buckets[j] == [] ==> u.buckets[j] == []
  {
    var req := t.buckets[i][0];
    assert BucketOk(t, i) && In(t, req, i);
    FlyingListed(t, req);
    OutOfBucketOk(t, i, 0);
    hide Circle, TableOk, BucketOk, Flying;
    LeftBucket(t, i, 0);
    EnteredBucket(OutOfBucket(t, i, 0), req, c);
    MovedBuckets(t, i, c);
  }

  lemma MovedBuckets(t: Table, i: nat, c: nat)
    requires TableOk(t) && i < |t.heads| && c < |t.heads| && t.buckets[i] != [] && i != c
    ensures var u := Moved(t, i, c);
      && |u.buckets| == |t.buckets| && |u.buckets[i]| < |t.buckets[i]|
      && forall j :: 0 <= j < |t.buckets| && j != c && t.buckets[j] == [] ==> u.buckets[j] == []
  {
    OutOfBucketOk(t, i, 0);
    hide Circle, BucketOk;
  }

  lemma StillMoving(t: Table, u: Table, olds: seq<Ptr>, news: seq<Ptr>, olds': seq<Ptr>, news': seq<Ptr>,
      i: nat, b: nat)
    requires Moving(t, olds, news) && i < |olds| && b < |news| && t.buckets[i] != [] && TableOk(u) &&
      SameServers(t.m, u.m)
    requires var req := t.buckets[i][0];
      req in t.m && b == t.m[req].transId % |news| && u.slot == t.slot[req := |olds| + b]
    requires |olds'| == |olds| && |news'| == |news| && olds' == olds[i := olds'[i]] && news' == news[b := news'[b]]
    requires u.heads == t.heads[i := olds'[i]][|olds| + b := news'[b]]
    ensures Moving(u, olds', news')
  {
    hide TableOk;
    assert u.heads == olds' + news';
  }

  /** Nothing has come or gone. */
  ghost predicate SameTotals(t: Table, u: Table) {
    && SameServers(t.m, u.m) && Flying(u) == Flying(t) && Lengths(u.buckets) == Lengths(t.buckets)
    && |u.buckets| == |t.buckets|
    && forall s :: Load(u.m, u.buckets, s) == Load(t.m, t.buckets, s)
  }

  lemma FirstWaiting(t: Table)
    requires TableOk(t) && t.waitq != []
    ensures t.waitingHead == t.waitq[0]
  {
  }

  lemma NoNull(m: Memory, ps: seq<Ptr>)
    requires Circle(m, ps)
    ensures Head(ps) == NULL ==> ps == []
  {
    if ps != [] {
      assert NodeOk(m, ps, 0);
    }
  }

  /** Nothing in flight has an id that its bucket does not have. */
  lemma NotInBucket(t: Table, b: nat, transId: nat)
    requires TableOk(t) && t.slot == Slots(t.m, |t.heads|) && b == transId % |t.heads|
    requires forall j :: 0 <= j < |t.buckets[b]| && t.buckets[b][j] in t.m ==> t.m[t.buckets[b][j]].transId != transId
    ensures forall r :: r in Flying(t) ==> t.m[r].transId != transId
  {
    forall r | r in Flying(t) ensures t.m[r].transId != transId {
      FlyingListed(t, r);
      assert t.m[r].transId == transId ==> In(t, r, b);
    }
  }

  /** The place of a request in flight. */
  lemma WhereFlying(t: Table, req: Ptr) returns (b: nat, k: nat)
    requires TableOk(t) && req in Flying(t)
    ensures b < |t.heads| && k < |t.buckets[b]| && t.buckets[b][k] == req && SlotIs(t, req, b)
  {
    FlyingListed(t, req);
    b := t.slot[req];
    k :| k < |t.buckets[b]| && t.buckets[b][k] == req;
  }

  lemma LoadPositive(t: Table, b: nat, k: nat, s: Server)
    requires TableOk(t) && b < |t.heads| && k < |t.buckets[b]|
    ensures IfWith(t.m, t.buckets[b][k], s) <= Load(t.m, t.buckets, s)
  {
    OutOfBucketCounts(t, b, k, s);
  }

  lemma Swapped(t: Table, b: nat, k: nat, ns: Server)
    requires TableOk(t) && b < |t.heads| && k < |t.buckets[b]|
    ensures var req := t.buckets[b][k]; req in t.m && t.m[req].ns.Some?
    ensures var req := t.buckets[b][k]; var u := t.(m := t.m[req := t.m[req].(ns := Some(ns))]);
      && TableOk(u) && Flying(u) == Flying(t)
      && (forall s :: Load(u.m, u.buckets, s) == Load(t.m, t.buckets, s) - IfWith(t.m, req, s) + IfWith(u.m, req, s))
  {
    var req := t.buckets[b][k];
    assert BucketOk(t, b) && req in t.buckets[b];
    SwappedOk(t, req, ns);
    forall s {
      SwapCounts(t, b, k, ns, s);
    }
  }

  lemma SlotsOfSwapped(m: Memory, req: Ptr, ns: Option<Server>, n: nat)
    requires req in m
    ensures Slots(m[req := m[req].(ns := ns)], n) == Slots(m, n)
  {
  }

  lemma BucketFacts(t: Table, b: nat)
    requires TableOk(t) && b < |t.heads|
    ensures t.heads[b] == Head(t.buckets[b]) && Circle(t.m, t.buckets[b])
  {
    assert BucketOk(t, b);
  }

  lemma HasSlots(t: Table)
    requires TableOk(t)
    ensures |t.heads| == |t.buckets| > 0
  {
  }

  /** The same requests with the same servers. */
  ghost predicate SameServers(m: Memory, m': Memory) {
    m'.Keys == m.Keys && forall r :: r in m ==> m'[r].ns == m[r].ns && m'[r].transId == m[r].transId
  }

  lemma EnteredBucket(t: Table, req: Ptr, b: nat)
    requires TableOk(t) && Loose(t, req) && t.m[req].ns.Some? && b < |t.heads|
    ensures var u := InBucket(t, req, b);
      && Flying(u) == Flying(t) + {req} && Lengths(u.buckets) == Lengths(t.buckets) + 1
      && (forall s :: Load(u.m, u.buckets, s) == Load(t.m, t.buckets, s) + IfWith(t.m, req, s))
      && SameServers(t.m, u.m)
  {
    InBucketFlying(t, req, b);
    forall s {
      InBucketCounts(t, req, b, s);
    }
    InBucketCounts(t, req, b, 0);
    assert BucketOk(t, b);
    NotListed(t, req, b);
    InsertCircle(t.m, t.buckets[b], req);
  }

  lemma LeftBucket(t: Table, b: nat, k: nat)
    requires TableOk(t) && b < |t.heads| && k < |t.buckets[b]|
    ensures var u := OutOfBucket(t, b, k); var req := t.buckets[b][k];
      && Flying(u) == Flying(t) - {req} && Lengths(u.buckets) == Lengths(t.buckets) - 1
      && (forall s :: Load(u.m, u.buckets, s) == Load(t.m, t.buckets, s) - IfWith(t.m, req, s))
      && SameServers(t.m, u.m)
  {
    OutOfBucketFlying(t, b, k);
    forall s {
      OutOfBucketCounts(t, b, k, s);
    }
    OutOfBucketCounts(t, b, k, 0);
    assert BucketOk(t, b);
    UnlinkCircle(t.m, t.buckets[b], k);
  }

  lemma EnteredWaiting(t: Table, req: Ptr)
    requires TableOk(t) && Loose(t, req)
    ensures SameServers(t.m, InWaiting(t, req).m)
  {
    NotListed(t, req, 0);
    InsertCircle(t.m, t.waitq, req);
  }

  lemma LeftWaiting(t: Table, k: nat)
    requires TableOk(t) && k < |t.waitq|
    ensures SameServers(t.m, OutOfWaiting(t, k).m)
  {
    UnlinkCircle(t.m, t.waitq, k);
  }

  lemma SlotsSame(m: Memory, m': Memory, ps: seq<Ptr>, n: nat)
    requires LinksOnly(m, m', ps)
    ensures Slots(m, n) == Slots(m', n)
  {
  }

  lemma {:induction false} NoLoad(m: Memory, qs: seq<seq<Ptr>>, s: Server)
    requires forall b, r :: 0 <= b < |qs| && r in qs[b] ==> r in m && m[r].ns != Some(s)
    ensures Load(m, qs, s) == 0
  {
    if qs != [] {
      NoneWith(m, qs[0], s);
      NoLoad(m, qs[1..], s);
    }
  }

  lemma {:induction false} NoneWith(m: Memory, ps: seq<Ptr>, s: Server)
    requires forall r :: r in ps ==> r in m && m[r].ns != Some(s)
    ensures With(m, ps, s) == 0
  {
    if ps != [] {
      NoneWith(m, ps[1..], s);
    }
  }

  /** A loose request does not count. */
  lemma SameLoads(t: Table, u: Table, req: Ptr)
    requires TableOk(t) && u.buckets == t.buckets && (req in t.m ==> t.m[req].next == NULL)
    requires forall r :: r in t.m && r != req ==> r in u.m && u.m[r] == t.m[r]
    requires TableOk(u) && forall r :: r in u.m && r != req ==> r in t.m
    requires req in u.m ==> u.m[req].next == NULL
    ensures Flying(u) == Flying(t) && forall s :: Load(u.m, u.buckets, s) == Load(t.m, t.buckets, s)
  {
    forall s ensures Load(u.m, u.buckets, s) == Load(t.m, t.buckets, s) {
      forall b: nat, r | b < |t.buckets| && r in t.buckets[b] ensures r != req {
        assert BucketOk(t, b);
        LinkedMember(t.m, t.buckets[b], r);
      }
      LoadSame(t.m, u.m, t.buckets, s);
    }
  }

  lemma SameServersLoads(t: Table, u: Table)
    requires u.buckets == t.buckets && u.m.Keys == t.m.Keys && forall r :: r in t.m ==> u.m[r].ns == t.m[r].ns
    ensures forall s :: Load(u.m, u.buckets, s) == Load(t.m, t.buckets, s)
  {
    forall s ensures Load(u.m, u.buckets, s) == Load(t.m, t.buckets, s) {
      LoadSame(t.m, u.m, t.buckets, s);
    }
  }

  /** REQ_HEAD: the bucket of a transaction id. */
  ghost function Slots(m: Memory, n: nat): map<Ptr, nat> {
    if n == 0 then map[] else map r | r in m :: m[r].transId % n
  }

  // ---- changing the size of the table

  /** The table with `n` empty lists added. */
  ghost function Widened(t: Table, n: nat): Table {
    t.(heads := t.heads + seq(n, _ => NULL), buckets := t.buckets + NoLists(n))
  }

  lemma WidenedOk(t: Table, n: nat)
    requires TableOk(t) && n > 0 && t.slot == Slots(t.m, |t.heads|)
    ensures Moving(Widened(t, n), t.heads, seq(n, _ => NULL))
  {
    var u := Widened(t, n);
    forall b: nat | b < |u.heads| ensures BucketOk(u, b) {
      if b < |t.heads| {
        assert BucketOk(t, b);
      }
    }
    forall r | r in u.m && u.m[r].next != NULL ensures r in u.waitq || (r in u.slot && In(u, r, u.slot[r])) {
      assert r !in t.waitq ==> In(t, r, t.slot[r]);
    }
  }

  lemma {:induction false} LoadConcat(m: Memory, ps: seq<seq<Ptr>>, qs: seq<seq<Ptr>>, s: Server)
    ensures Load(m, ps + qs, s) == Load(m, ps, s) + Load(m, qs, s)
  {
    if ps == [] {
      assert ps + qs == qs;
    } else {
      assert (ps + qs)[1..] == ps[1..] + qs;
      LoadConcat(m, ps[1..], qs, s);
    }
  }

  lemma WidenedTotals(t: Table, n: nat)
    ensures SameCounts(t, Widened(t, n))
  {
    LengthsConcat(t.buckets, NoLists(n));
    NoLengths(NoLists(n));
    forall s ensures Load(t.m, t.buckets + NoLists(n), s) == Load(t.m, t.buckets, s) {
      LoadConcat(t.m, t.buckets, NoLists(n), s);
      NoLoad(t.m, NoLists(n), s);
    }
  }

  /** The same requests, and the same totals over perhaps different lists. */
  ghost predicate SameCounts(t: Table, u: Table) {
    && SameServers(t.m, u.m) && Flying(u) == Flying(t) && Lengths(u.buckets) == Lengths(t.buckets)
    && forall s :: Load(u.m, u.buckets, s) == Load(t.m, t.buckets, s)
  }

  lemma SameServersItself(m: Memory)
    ensures SameServers(m, m)
  {
  }

  lemma SameTotalsItself(t: Table)
    ensures SameTotals(t, t)
  {
  }

  lemma SameTotalsTrans(t: Table, u: Table, v: Table)
    ensures SameTotals(t, u) && SameTotals(u, v) ==> SameTotals(t, v)
    ensures SameCounts(t, u) && SameTotals(u, v) ==> SameCounts(t, v)
  {
  }

  lemma SameCountsTrans(t: Table, u: Table, v: Table)
    requires SameCounts(t, u) && SameCounts(u, v)
    ensures SameCounts(t, v)
  {
  }

  lemma MovingLengths(t: Table, olds: seq<Ptr>, news: seq<Ptr>)
    requires Moving(t, olds, news)
    ensures |t.heads| == |t.buckets| == |olds| + |news|
  {
  }

  lemma EmptyList(t: Table, olds: seq<Ptr>, news: seq<Ptr>, i: nat)
    requires Moving(t, olds, news) && i < |olds| && olds[i] == NULL
    ensures i < |t.buckets| && t.buckets[i] == []
  {
    assert BucketOk(t, i) && t.heads[i] == olds[i];
    NoNull(t.m, t.buckets[i]);
  }

  lemma AllMoved(t: Table, olds: seq<Ptr>, news: seq<Ptr>)
    requires Moving(t, olds, news) && forall j :: 0 <= j < |olds| && j < |t.buckets| ==> t.buckets[j] == []
    ensures Moving(t, NoHeads(|olds|), news)
  {
    forall j | 0 <= j < |olds| ensures olds[j] == NULL {
      assert BucketOk(t, j) && t.heads[j] == olds[j];
    }
    assert olds == NoHeads(|olds|);
  }

  /** The table of the lists from `k` on. */
  ghost function FromList(t: Table, k: nat, news: seq<Ptr>): Table
    requires k <= |t.buckets|
  {
    t.(heads := news, buckets := t.buckets[k..], slot := Slots(t.m, |news|))
  }

  /** Without the old lists, which are empty, the table is in order again. */
  lemma Narrowed(v: Table, t: Table, news: seq<Ptr>)
    requires Moving(t, NoHeads(|v.heads|), news) && forall j :: 0 <= j < |v.heads| && j < |t.buckets| ==>
      t.buckets[j] == []
    ensures |t.buckets| == |v.heads| + |news|
    ensures var u := t.(heads := news, buckets := t.buckets[|v.heads|..], slot := Slots(t.m, |news|));
      TableOk(u) && SameCounts(t, u)
  {
    NarrowedOk(t, |v.heads|, news);
    NarrowedTotals(t, |v.heads|, news);
  }

  lemma NarrowedOk(t: Table, k: nat, news: seq<Ptr>)
    requires Moving(t, NoHeads(k), news) && k <= |t.buckets| && forall j :: 0 <= j < k ==> t.buckets[j] == []
    ensures TableOk(FromList(t, k, news))
  {
    hide Circle;
    var u := FromList(t, k, news);
    forall b: nat | b < |u.heads| ensures BucketOk(u, b) {
      assert BucketOk(t, k + b) && t.heads[k + b] == news[b] && u.buckets[b] == t.buckets[k + b];
    }
    forall r | r in u.m && u.m[r].next != NULL ensures r in u.waitq || (r in u.slot && In(u, r, u.slot[r])) {
      if r !in t.waitq {
        var b := t.slot[r];
        assert In(t, r, b) && b >= k;
        assert u.buckets[b - k] == t.buckets[b];
      }
    }
  }

  lemma NarrowedTotals(t: Table, k: nat, news: seq<Ptr>)
    requires k <= |t.buckets| && forall j :: 0 <= j < k ==> t.buckets[j] == []
    ensures SameCounts(t, FromList(t, k, news))
  {
    var u := FromList(t, k, news);
    assert t.buckets == t.buckets[..k] + t.buckets[k..];
    LengthsConcat(t.buckets[..k], t.buckets[k..]);
    NoLengths(t.buckets[..k]);
    forall s ensures Load(u.m, u.buckets, s) == Load(t.m, t.buckets, s) {
      LoadConcat(t.m, t.buckets[..k], t.buckets[k..], s);
      NoLoad(t.m, t.buckets[..k], s);
    }
  }
}
