/** Linked lists of chunks as facts about the heap, and the bytes they hold. */
module ChunkLists {
  import opened Bytes
  import opened Addresses
  import opened Chunks

  type Memory = map<Ptr, Chunk>

  /** Where a pointer to the list `ps` followed by `rest` points. */
  function Head(ps: seq<Ptr>, rest: Ptr): Ptr {
    if ps == [] then rest else ps[0]
  }

  function Last(ps: seq<Ptr>): Ptr {
    if ps == [] then NULL else ps[|ps| - 1]
  }

  ghost function Elems(ps: seq<Ptr>): set<Ptr> {
    set p | p in ps
  }

  /** The chunks `ps` are linked one to the next and the last one links to `rest`. */
  ghost predicate Linked(m: Memory, ps: seq<Ptr>, rest: Ptr) {
    ps != [] ==>
      && ps[0] != NULL && ps[0] in m && m[ps[0]].Ok()
      && m[ps[0]].next == Head(ps[1..], rest)
      && ps[0] !in ps[1..]
      && Linked(m, ps[1..], rest)
  }

  /** The bytes of the chunks `ps`, in order. */
  ghost function Stored(m: Memory, ps: seq<Ptr>): seq<byte> {
    if ps == [] then []
    else (if ps[0] in m && m[ps[0]].Ok() then m[ps[0]].Data() else []) + Stored(m, ps[1..])
  }

  ghost predicate AllEmpty(m: Memory, ps: seq<Ptr>) {
    forall p :: p in ps ==> p in m && m[p].off == 0
  }

  /** The part of the heap that the chunks `ps` do not account for. */
  ghost function Rest(m: Memory, ps: seq<Ptr>): Memory {
    m - Elems(ps)
  }

  ghost predicate Disjoint(a: seq<Ptr>, b: seq<Ptr>) {
    forall p :: p in a ==> p !in b
  }

  lemma RestUpdate(m: Memory, ps: seq<Ptr>, p: Ptr, c: Chunk)
    requires p in ps
    ensures Rest(m[p := c], ps) == Rest(m, ps)
  {
    assert p in Elems(ps);
  }

  /** What lies outside a buffer's chunks is kept when only those chunks change. */
  lemma RestKept(m: Memory, a: seq<Ptr>, m': Memory, b: seq<Ptr>, p: Ptr)
    requires Rest(m, a) == Rest(m', b) && p in m && p !in a
    ensures p in m' && m'[p] == m[p] && p !in b
  {
    assert p in Rest(m, a) && Rest(m, a)[p] == m[p];
    assert p in Rest(m', b) && Rest(m', b)[p] == m'[p];
  }

  lemma RestFreed(m: Memory, a: seq<Ptr>, b: seq<Ptr>)
    ensures Rest(m - Elems(b), a) == Rest(m, a + b)
  {
    assert Elems(a + b) == Elems(a) + Elems(b);
  }

  lemma RestPlus(m: Memory, a: seq<Ptr>, b: seq<Ptr>)
    ensures Rest(m, a + b) == Rest(m, a) - Elems(b)
  {
    assert Elems(a + b) == Elems(a) + Elems(b);
  }

  lemma RestAbsent(m: Memory, ps: seq<Ptr>, p: Ptr)
    requires p !in m
    ensures Rest(m, ps + [p]) == Rest(m, ps)
  {
    assert Elems(ps + [p]) == Elems(ps) + {p};
  }

  lemma RestSameElems(m: Memory, a: seq<Ptr>, b: seq<Ptr>)
    requires forall p :: p in a <==> p in b
    ensures Rest(m, a) == Rest(m, b)
  {
    assert Elems(a) == Elems(b);
  }

  lemma {:induction false} LinkedMember(m: Memory, ps: seq<Ptr>, rest: Ptr, p: Ptr)
    requires Linked(m, ps, rest) && p in ps
    ensures p != NULL && p in m && m[p].Ok()
  {
    if p != ps[0] {
      LinkedMember(m, ps[1..], rest, p);
    }
  }

  lemma LinkedMembers(m: Memory, ps: seq<Ptr>, rest: Ptr)
    requires Linked(m, ps, rest)
    ensures forall p :: p in ps ==> p != NULL && p in m && m[p].Ok()
  {
    forall p | p in ps ensures p != NULL && p in m && m[p].Ok() {
      LinkedMember(m, ps, rest, p);
    }
  }

  lemma {:induction false} LinkAt(m: Memory, ps: seq<Ptr>, rest: Ptr, i: nat)
    requires Linked(m, ps, rest) && i < |ps|
    ensures ps[i] != NULL && ps[i] in m && m[ps[i]].Ok() && m[ps[i]].next == Head(ps[i + 1..], rest)
  {
    if i > 0 {
      LinkAt(m, ps[1..], rest, i - 1);
      assert ps[1..][i..] == ps[i + 1..];
    }
  }

  /** A list splits where two lists join. */
  lemma {:induction false} LinkedConcat(m: Memory, a: seq<Ptr>, b: seq<Ptr>, rest: Ptr)
    ensures Linked(m, a + b, rest) <==> Linked(m, a, Head(b, rest)) && Linked(m, b, rest) && Disjoint(a, b)
  {
    if a == [] {
      assert a + b == b;
    } else {
      assert (a + b)[1..] == a[1..] + b;
      LinkedConcat(m, a[1..], b, rest);
      assert Head(a[1..] + b, rest) == Head(a[1..], Head(b, rest));
      assert forall p :: p in a <==> p == a[0] || p in a[1..];
    }
  }

  lemma {:induction false} LinkedFrame(m: Memory, m': Memory, ps: seq<Ptr>, rest: Ptr)
    requires Linked(m, ps, rest)
    requires forall p :: p in ps && p in m ==> p in m' && m'[p].next == m[p].next && m'[p].Ok()
    ensures Linked(m', ps, rest)
  {
    if ps != [] {
      LinkedFrame(m, m', ps[1..], rest);
    }
  }

  lemma {:induction false} StoredConcat(m: Memory, a: seq<Ptr>, b: seq<Ptr>)
    ensures Stored(m, a + b) == Stored(m, a) + Stored(m, b)
  {
    if a == [] {
      assert a + b == b;
    } else {
      assert (a + b)[1..] == a[1..] + b;
      StoredConcat(m, a[1..], b);
    }
  }

  lemma StoredSingle(m: Memory, p: Ptr)
    requires p in m && m[p].Ok()
    ensures Stored(m, [p]) == m[p].Data()
  {
    assert Stored(m, [p]) == m[p].Data() + Stored(m, []);
  }

  lemma {:induction false} StoredFrame(m: Memory, m': Memory, ps: seq<Ptr>)
    requires forall p :: p in ps ==> p in m && p in m' && m[p].Ok() && m'[p].Ok() && m'[p].Data() == m[p].Data()
    ensures Stored(m', ps) == Stored(m, ps)
  {
    if ps != [] {
      assert ps[0] in ps;
      assert forall p :: p in ps[1..] ==> p in ps;
      StoredFrame(m, m', ps[1..]);
    }
  }

  lemma {:induction false} StoredEmpty(m: Memory, ps: seq<Ptr>)
    requires AllEmpty(m, ps)
    ensures Stored(m, ps) == []
  {
    if ps != [] {
      assert ps[0] in ps;
      StoredEmpty(m, ps[1..]);
    }
  }

  lemma LinkedNil(m: Memory, rest: Ptr)
    ensures Linked(m, [], rest) && Stored(m, []) == []
  {
  }

  lemma LinkedSingle(m: Memory, p: Ptr, rest: Ptr)
    requires p != NULL && p in m && m[p].Ok() && m[p].next == rest
    ensures Linked(m, [p], rest) && Stored(m, [p]) == m[p].Data()
  {
    assert [p][1..] == [];
    assert Stored(m, [p]) == m[p].Data() + Stored(m, []);
  }

  /** Writes `q` to the link after the chunk `p`; there is none after NULL. */
  function SetLink(m: Memory, p: Ptr, q: Ptr): Memory {
    if p in m then m[p := m[p].(next := q)] else m
  }

  /** Redirecting the link of the last chunk of `ps` moves what follows and changes nothing else. */
  lemma Relink(m: Memory, ps: seq<Ptr>, rest: Ptr, rest': Ptr)
    requires Linked(m, ps, rest)
    ensures var m' := if ps == [] then m else SetLink(m, Last(ps), rest');
            && Linked(m', ps, rest') && Stored(m', ps) == Stored(m, ps) && m'.Keys == m.Keys
            && (forall p :: p in m && p !in ps ==> m'[p] == m[p])
            && (forall p :: p in m ==> m'[p] == m[p].(next := m'[p].next))
  {
    if ps != [] {
      var a, p := ps[..|ps| - 1], Last(ps);
      assert ps == a + [p];
      LinkedConcat(m, a, [p], rest);
      var m' := SetLink(m, p, rest');
      LinkedMembers(m, ps, rest);
      LinkedFrame(m, m', a, p);
      LinkedSingle(m', p, rest');
      LinkedConcat(m', a, [p], rest');
      StoredFrame(m, m', ps);
    }
  }

  /** Changing only chunks of `ps` leaves the rest of the heap alone. */
  lemma RestSame(m: Memory, m': Memory, ps: seq<Ptr>)
    requires m.Keys == m'.Keys
    requires forall p :: p in m && p !in ps ==> m'[p] == m[p]
    ensures Rest(m', ps) == Rest(m, ps)
  {
  }

  /** Rewriting one chunk of a list in place, its link excepted, changes only that chunk's bytes. */
  lemma UpdateChunk(m: Memory, a: seq<Ptr>, p: Ptr, b: seq<Ptr>, rest: Ptr, c: Chunk)
    requires Linked(m, a + [p] + b, rest) && p in m && m[p].Ok() && c.Ok() && c.next == m[p].next
    ensures var m' := m[p := c];
            && Linked(m', a + [p] + b, rest)
            && Stored(m, a + [p] + b) == Stored(m, a) + m[p].Data() + Stored(m, b)
            && Stored(m', a + [p] + b) == Stored(m, a) + c.Data() + Stored(m, b)
            && Stored(m', a) == Stored(m, a) && Stored(m', b) == Stored(m, b)
            && p !in a && p !in b
  {
    var m' := m[p := c];
    LinkedConcat(m, a + [p], b, rest);
    LinkedConcat(m, a, [p], Head(b, rest));
    LinkedMembers(m, a + [p] + b, rest);
    assert forall q :: q in a || q in b ==> q in a + [p] + b;
    assert p in a + [p] && p in [p];
    StoredConcat(m, a + [p], b);
    StoredConcat(m, a, [p]);
    StoredConcat(m', a + [p], b);
    StoredConcat(m', a, [p]);
    StoredSingle(m, p);
    StoredSingle(m', p);
    LinkedFrame(m, m', a + [p] + b, rest);
    StoredFrame(m, m', a);
    StoredFrame(m, m', b);
  }

  /** A chunk that is not in a list can be put in front of it. */
  lemma LinkedPush(m: Memory, ps: seq<Ptr>, rest: Ptr, p: Ptr)
    requires Linked(m, ps, rest) && p != NULL && p in m && p !in ps && m[p].Ok()
    ensures var m' := m[p := m[p].(next := Head(ps, rest))];
            Linked(m', [p] + ps, rest) && Stored(m', [p] + ps) == m[p].Data() + Stored(m, ps)
  {
    var m' := m[p := m[p].(next := Head(ps, rest))];
    assert ([p] + ps)[1..] == ps;
    LinkedMembers(m, ps, rest);
    LinkedFrame(m, m', ps, rest);
    StoredFrame(m, m', ps);
  }

  /** Rewriting the first chunk of a list in place, its link excepted. */
  lemma UpdateHead(m: Memory, ps: seq<Ptr>, rest: Ptr, c: Chunk)
    requires Linked(m, ps, rest) && ps != [] && c.Ok() && c.next == m[ps[0]].next
    ensures var m' := m[ps[0] := c];
            && Linked(m', ps, rest)
            && Stored(m, ps) == m[ps[0]].Data() + Stored(m, ps[1..])
            && Stored(m', ps) == c.Data() + Stored(m, ps[1..])
            && (forall i :: 1 <= i < |ps| ==> ps[i] != ps[0])
  {
    var m' := m[ps[0] := c];
    LinkedMembers(m, ps[1..], rest);
    LinkedFrame(m, m', ps[1..], rest);
    StoredFrame(m, m', ps[1..]);
    assert forall i :: 1 <= i < |ps| ==> ps[i] == ps[1..][i - 1];
  }

  lemma Assoc(a: seq<byte>, b: seq<byte>, c: seq<byte>)
    ensures a + (b + c) == (a + b) + c
  {
  }

  lemma DropSum(a: seq<byte>, b: seq<byte>, n: nat)
    requires n <= |a|
    ensures (a + b)[n..] == a[n..] + b
  {
  }

  /** Rewriting the last chunk of a list in place so that it gains bytes at its end. */
  lemma {:induction false} UpdateLast(m: Memory, ps: seq<Ptr>, rest: Ptr, c: Chunk, added: seq<byte>)
    requires Linked(m, ps, rest) && ps != [] && Last(ps) in m && m[Last(ps)].Ok()
    requires c.Ok() && c.next == m[Last(ps)].next && c.Data() == m[Last(ps)].Data() + added
    ensures var m' := m[Last(ps) := c];
            Linked(m', ps, rest) && Stored(m', ps) == Stored(m, ps) + added
  {
    var p := Last(ps);
    if |ps| == 1 {
      assert ps == [p];
      StoredSingle(m, p);
      StoredSingle(m[p := c], p);
    } else {
      assert Last(ps[1..]) == p && p in ps[1..];
      UpdateLast(m, ps[1..], rest, c, added);
      Assoc(m[ps[0]].Data(), Stored(m, ps[1..]), added);
    }
  }

  /** Freeing the first chunk of a list leaves the rest of it. */
  lemma UnlinkHead(m: Memory, ps: seq<Ptr>, rest: Ptr)
    requires Linked(m, ps, rest) && ps != []
    ensures ps[0] in m && m[ps[0]].Ok() && m[ps[0]].next == Head(ps[1..], rest) && ps[0] !in ps[1..]
    ensures Linked(m - {ps[0]}, ps[1..], rest)
    ensures Stored(m, ps) == m[ps[0]].Data() + Stored(m - {ps[0]}, ps[1..])
  {
    LinkedMembers(m, ps[1..], rest);
    LinkedFrame(m, m - {ps[0]}, ps[1..], rest);
    StoredFrame(m, m - {ps[0]}, ps[1..]);
  }

  /** Two lists become one when the last chunk of the first is made to point at the second. */
  lemma Join(m: Memory, a: seq<Ptr>, b: seq<Ptr>, rest: Ptr)
    requires Linked(m, a, NULL) && a != [] && Linked(m, b, rest) && Disjoint(a, b)
    ensures Last(a) in m
    ensures var m' := SetLink(m, Last(a), Head(b, rest));
            && Linked(m', a + b, rest) && Stored(m', a + b) == Stored(m, a) + Stored(m, b)
            && m'.Keys == m.Keys && (forall q :: q in m && q !in a ==> m'[q] == m[q])
            && (forall q :: q in m ==> m'[q] == m[q].(next := m'[q].next))
  {
    var m' := SetLink(m, Last(a), Head(b, rest));
    hide Linked, Stored;
    assert Last(a) in m by {
      assert Last(a) in a;
      LinkedMember(m, a, NULL, Last(a));
    }
    Relink(m, a, NULL, Head(b, rest));
    assert Linked(m', b, rest) && Stored(m', b) == Stored(m, b) by {
      LinkedMembers(m, b, rest);
      LinkedFrame(m, m', b, rest);
      StoredFrame(m, m', b);
    }
    LinkedConcat(m', a, b, rest);
    StoredConcat(m', a, b);
  }

  /** The link of the chunk at position `i` of a null-terminated list. */
  lemma NextOf(m: Memory, all: seq<Ptr>, i: nat)
    requires Linked(m, all, NULL) && i < |all|
    ensures all[i] != NULL && all[i] in m && m[all[i]].Ok()
    ensures m[all[i]].next == if i + 1 < |all| then all[i + 1] else NULL
    ensures i + 1 < |all| ==> all[i + 1] != NULL
  {
    LinkAt(m, all, NULL, i);
    if i + 1 < |all| {
      LinkAt(m, all, NULL, i + 1);
    }
  }

  /** Of the first `n` chunks, the ones from `k` on are empty and the one before holds data. */
  ghost predicate DataEndsAt(m: Memory, all: seq<Ptr>, k: nat, n: nat) {
    && k <= n <= |all|
    && (k > 0 ==> all[k - 1] in m && m[all[k - 1]].off > 0)
    && forall j :: k <= j < n ==> all[j] in m && m[all[j]].off == 0
  }

  /** No chunk occurs twice. */
  lemma {:induction false} LinkedDistinct(m: Memory, ps: seq<Ptr>, rest: Ptr, i: nat, j: nat)
    requires Linked(m, ps, rest) && i < j < |ps|
    ensures ps[i] != ps[j]
  {
    if i == 0 {
      assert ps[j] == ps[1..][j - 1];
    } else {
      LinkedDistinct(m, ps[1..], rest, i - 1, j - 1);
    }
  }

  /** The chunk between `a` and the empty chunks `b` gains the bytes `added` at its end. */
  lemma UpdateBeforeEmpty(m: Memory, a: seq<Ptr>, p: Ptr, b: seq<Ptr>, c: Chunk, added: seq<byte>)
    requires Linked(m, a + [p] + b, NULL) && AllEmpty(m, b) && p in m && m[p].Ok()
    requires c.Ok() && c.next == m[p].next && c.Data() == m[p].Data() + added
    ensures Linked(m[p := c], a + [p] + b, NULL)
    ensures Stored(m[p := c], a + [p] + b) == Stored(m, a + [p] + b) + added
  {
    hide Linked, Stored;
    UpdateChunk(m, a, p, b, NULL, c);
    StoredEmpty(m, b);
    Assoc(Stored(m, a), m[p].Data(), added);
    assert forall x: seq<byte> :: x + [] == x;
  }

  lemma LinkedDistinctFrom(m: Memory, ps: seq<Ptr>, rest: Ptr, j: nat)
    requires Linked(m, ps, rest) && j < |ps|
    ensures forall i :: 0 <= i < |ps| && i != j ==> ps[i] != ps[j]
  {
    forall i | 0 <= i < |ps| && i != j ensures ps[i] != ps[j] {
      if i < j {
        LinkedDistinct(m, ps, rest, i, j);
      } else {
        LinkedDistinct(m, ps, rest, j, i);
      }
    }
  }
}
