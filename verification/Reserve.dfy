/** Reserving room in several chunks: evbuffer_expand_fast_ and evbuffer_read_setup_vecs_. */
module EvbufferReserve {
  import opened Bytes
  import opened Addresses
  import opened Chunks
  import opened ChunkLists
  import opened Shapes
  import opened Evbuffers
  import opened EvbufferExpand

  /** The room of a chunk once it is realigned if it is empty. */
  function Capacity(m: Memory, p: Ptr): nat {
    if p in m && m[p].Ok() && m[p].off == 0 then |m[p].mem| else SpaceOf(m, p)
  }

  /** The room in the chunks `ps` together. */
  ghost function SpaceSum(m: Memory, ps: seq<Ptr>): nat {
    if ps == [] then 0 else SpaceOf(m, ps[0]) + SpaceSum(m, ps[1..])
  }

  lemma {:induction false} SpaceSumConcat(m: Memory, a: seq<Ptr>, b: seq<Ptr>)
    ensures SpaceSum(m, a + b) == SpaceSum(m, a) + SpaceSum(m, b)
  {
    if a == [] {
      assert a + b == b;
    } else {
      assert (a + b)[1..] == a[1..] + b;
      SpaceSumConcat(m, a[1..], b);
    }
  }

  lemma {:induction false} SpaceSumFrame(m: Memory, m': Memory, ps: seq<Ptr>)
    requires forall p :: p in ps ==> SpaceOf(m', p) == SpaceOf(m, p)
    ensures SpaceSum(m', ps) == SpaceSum(m, ps)
  {
    if ps != [] {
      assert ps[0] in ps;
      SpaceSumFrame(m, m', ps[1..]);
    }
  }

  /** The chunks that may take more bytes: the last one with data and the empty ones. */
  ghost function Tail(data: seq<Ptr>, spare: seq<Ptr>): seq<Ptr> {
    if data == [] then spare else [Last(data)] + spare
  }

  /** The first `r` chunks with room can take `want` bytes. */
  ghost predicate Room(m: Memory, data: seq<Ptr>, spare: seq<Ptr>, r: nat, want: nat) {
    r <= |Writable(m, data, spare)| && want <= SpaceSum(m, Writable(m, data, spare)[..r])
  }

  lemma WritableIsTail(m: Memory, data: seq<Ptr>, spare: seq<Ptr>)
    requires forall p :: p in data || p in spare ==> p in m && m[p].Ok()
    ensures var tail := Tail(data, spare);
            Writable(m, data, spare) == if tail != [] && SpaceOf(m, tail[0]) == 0 then tail[1..] else tail
  {
    var all := data + spare;
    if data == [] {
      assert all == spare;
      assert spare != [] ==> spare[0] in spare;
    } else {
      assert all[|data| - 1] == Last(data) && Last(data) in data;
      assert all[|data| - 1..] == [Last(data)] + spare && all[|data|..] == spare;
    }
  }

  /** Room among the first chunks of the tail is room among the writable chunks. */
  lemma RoomFromTail(m: Memory, data: seq<Ptr>, spare: seq<Ptr>, j: nat, want: nat)
    requires forall p :: p in data || p in spare ==> p in m && m[p].Ok()
    requires j <= |Tail(data, spare)| && 0 < want <= SpaceSum(m, Tail(data, spare)[..j])
    ensures j > 0
    ensures Room(m, data, spare, if SpaceOf(m, Tail(data, spare)[0]) == 0 then j - 1 else j, want)
  {
    var tail := Tail(data, spare);
    WritableIsTail(m, data, spare);
    assert j > 0 && tail[..j][1..] == tail[1..][..j - 1];
    assert tail[..j][0] == tail[0];
  }

  /** An empty chunk is realigned. */
  lemma RealignSpare(m: Memory, first: Ptr, link: Ptr, data: seq<Ptr>, spare: seq<Ptr>, p: Ptr)
    requires Shape(m, first, link, data, spare) && p in spare && p in m && m[p].Ok()
    ensures var m' := m[p := m[p].(misalign := 0)];
            Shape(m', first, link, data, spare) && Stored(m', data) == Stored(m, data)
  {
    var m' := m[p := m[p].(misalign := 0)];
    ShapeFacts(m, first, link, data, spare);
    hide Linked, Stored;
    LinkedFrame(m, m', data, Head(spare, NULL));
    LinkedFrame(m, m', spare, NULL);
    StoredFrame(m, m', data);
  }

  /** An empty chunk goes at the end. */
  lemma AppendSpare(m: Memory, first: Ptr, link: Ptr, data: seq<Ptr>, spare: seq<Ptr>, tmp: Ptr)
    requires Shape(m, first, link, data, spare) && (data != [] || spare != [])
    requires tmp != NULL && tmp in m && tmp !in data && tmp !in spare && m[tmp].Ok() && m[tmp].next == NULL &&
      m[tmp].off == 0
    ensures LastOf(data, spare) in m
    ensures var m' := SetLink(m, LastOf(data, spare), tmp);
            && Shape(m', first, link, data, spare + [tmp]) && Stored(m', data) == Stored(m, data)
            && m'.Keys == m.Keys && m'[tmp] == m[tmp]
            && (forall q :: q in m && q !in data + spare ==> m'[q] == m[q])
            && (forall q :: q in m ==> SpaceOf(m', q) == SpaceOf(m, q))
  {
    if spare == [] {
      AppendFirstSpare(m, first, link, data, tmp);
    } else {
      AppendNextSpare(m, first, link, data, spare, tmp);
    }
  }

  lemma AppendFirstSpare(m: Memory, first: Ptr, link: Ptr, data: seq<Ptr>, tmp: Ptr)
    requires Shape(m, first, link, data, []) && data != []
    requires tmp != NULL && tmp in m && tmp !in data && m[tmp].Ok() && m[tmp].next == NULL && m[tmp].off == 0
    ensures Last(data) in m
    ensures var m' := SetLink(m, Last(data), tmp);
            && Shape(m', first, link, data, [] + [tmp]) && Stored(m', data) == Stored(m, data)
            && m'.Keys == m.Keys && m'[tmp] == m[tmp]
            && (forall q :: q in m && q !in data ==> m'[q] == m[q])
            && (forall q :: q in m ==> SpaceOf(m', q) == SpaceOf(m, q))
  {
    hide Linked, Stored;
    Relink(m, data, NULL, tmp);
    LinkedSingle(SetLink(m, Last(data), tmp), tmp, NULL);
    assert [] + [tmp] == [tmp];
  }

  lemma AppendNextSpare(m: Memory, first: Ptr, link: Ptr, data: seq<Ptr>, spare: seq<Ptr>, tmp: Ptr)
    requires Shape(m, first, link, data, spare) && spare != []
    requires tmp != NULL && tmp in m && tmp !in data && tmp !in spare && m[tmp].Ok() && m[tmp].next == NULL &&
      m[tmp].off == 0
    ensures Last(spare) in m
    ensures var m' := SetLink(m, Last(spare), tmp);
            && Shape(m', first, link, data, spare + [tmp]) && Stored(m', data) == Stored(m, data)
            && m'.Keys == m.Keys && m'[tmp] == m[tmp]
            && (forall q :: q in m && q !in spare ==> m'[q] == m[q])
            && (forall q :: q in m ==> SpaceOf(m', q) == SpaceOf(m, q))
  {
    var m' := SetLink(m, Last(spare), tmp);
    hide Linked, Stored;
    assert Last(spare) in spare;
    assert Linked(m, [tmp], NULL) by {
      LinkedSingle(m, tmp, NULL);
    }
    Join(m, spare, [tmp], NULL);
    assert Linked(m', data, Head(spare, NULL)) && Stored(m', data) == Stored(m, data) by {
      LinkedMembers(m, data, Head(spare, NULL));
      LinkedFrame(m, m', data, Head(spare, NULL));
      StoredFrame(m, m', data);
    }
    assert Head(spare + [tmp], NULL) == Head(spare, NULL);
  }

  /** How many of the first `j` chunks of the tail are counted as used: all but a full one with data. */
  ghost function UsedCount(m: Memory, data: seq<Ptr>, spare: seq<Ptr>, j: nat): nat {
    if j > 0 && data != [] && SpaceOf(m, Last(data)) == 0 then j - 1 else j
  }

  /** The chunk at position `j` of the tail. */
  lemma TailFacts(buf: Evbuffer, j: nat)
    requires buf.Valid() && j < |Tail(buf.data, buf.spare)|
    ensures var tail := Tail(buf.data, buf.spare);
            var p := tail[j];
            && p != NULL && p in buf.heap.m && buf.heap.m[p].Ok() && p in buf.Chain()
            && buf.heap.m[p].next == (if j + 1 < |tail| then tail[j + 1] else NULL)
            && (buf.heap.m[p].off > 0 <==> j == 0 && buf.data != [])
            && (!(j == 0 && buf.data != []) ==> p in buf.spare)
            && p !in tail[..j]
  {
    hide Linked, Stored, Rest, Elems;
    var tail := Tail(buf.data, buf.spare);
    TailLinked(buf.heap.m, buf.first, buf.lastWithDatap, buf.data, buf.spare);
    NextOf(buf.heap.m, tail, j);
    LinkedDistinctFrom(buf.heap.m, tail, NULL, j);
    if j == 0 && buf.data != [] {
      assert Last(buf.data) in buf.data;
    } else {
      assert tail[j] == buf.spare[if buf.data == [] then j else j - 1];
    }
  }

  lemma TailLinked(m: Memory, first: Ptr, link: Ptr, data: seq<Ptr>, spare: seq<Ptr>)
    requires Shape(m, first, link, data, spare)
    ensures Linked(m, Tail(data, spare), NULL)
  {
    if data != [] {
      ShapeFacts(m, first, link, data, spare);
      hide Linked;
      assert Last(data) in data;
      LinkedSingle(m, Last(data), Head(spare, NULL));
      LinkedConcat(m, [Last(data)], spare, NULL);
    }
  }

  /** One turn of the counting loop. */
  method CountChunk(buf: Evbuffer, chain: Ptr, ghost j: nat) returns (space: nat, next: Ptr)
    requires buf.Valid() && j < |Tail(buf.data, buf.spare)| && chain == Tail(buf.data, buf.spare)[j]
    requires chain in buf.heap.m && buf.heap.m[chain].Ok()
    modifies buf.heap
    ensures buf.Valid() && buf.Contents() == old(buf.Contents())
    ensures Rest(buf.heap.m, buf.Chain()) == old(Rest(buf.heap.m, buf.Chain()))
    ensures chain in buf.heap.m && buf.heap.m[chain].off == old(buf.heap.m[chain].off)
    ensures next == old(buf.heap.m[chain].next) && space == SpaceOf(buf.heap.m, chain)
    ensures SpaceSum(buf.heap.m, Tail(buf.data, buf.spare)[..j + 1]) ==
      old(SpaceSum(buf.heap.m, Tail(buf.data, buf.spare)[..j])) + space
    ensures buf.data != [] ==> SpaceOf(buf.heap.m, Last(buf.data)) == old(SpaceOf(buf.heap.m, Last(buf.data)))
    ensures space == Capacity(old(buf.heap.m), chain)
  {
    hide Shape, Linked, Stored, Rest, AllEmpty, Elems;
    ghost var m, tail := buf.heap.m, Tail(buf.data, buf.spare);
    TailFacts(buf, j);
    var c := buf.heap.m[chain];
    next := c.next;
    if c.off > 0 {
      space := c.Space();
    } else {
      RealignSpare(m, buf.first, buf.lastWithDatap, buf.data, buf.spare, chain);
      RestUpdate(m, buf.Chain(), chain, c.(misalign := 0));
      buf.heap.m := buf.heap.m[chain := c.(misalign := 0)];
      space := |c.mem|;
      if buf.data != [] {
        SpareNotLast(m, buf.first, buf.lastWithDatap, buf.data, buf.spare, chain);
      }
    }
    SpaceSumFrame(m, buf.heap.m, tail[..j]);
    assert tail[..j + 1] == tail[..j] + [chain];
    SpaceSumConcat(buf.heap.m, tail[..j], [chain]);
    assert SpaceSum(buf.heap.m, [chain]) == SpaceOf(buf.heap.m, chain) + SpaceSum(buf.heap.m, []);
  }

  lemma SpareNotLast(m: Memory, first: Ptr, link: Ptr, data: seq<Ptr>, spare: seq<Ptr>, p: Ptr)
    requires Shape(m, first, link, data, spare) && data != [] && p in spare
    ensures p != Last(data) && Last(data) in data
  {
  }

  /** The counting loop of evbuffer_expand_fast_. It realigns the empty chunks it passes, and stops
      when there is room for `datlen` bytes, when `n` chunks are used, or at the end. */
  method CountSpace(buf: Evbuffer, datlen: nat, n: nat) returns (avail: nat, used: nat, ghost j: nat)
    requires buf.Valid() && buf.Chain() != [] && n >= 2
    modifies buf.heap
    ensures buf.Valid() && buf.Contents() == old(buf.Contents())
    ensures Rest(buf.heap.m, buf.Chain()) == old(Rest(buf.heap.m, buf.Chain()))
    ensures j <= |Tail(buf.data, buf.spare)| && avail == SpaceSum(buf.heap.m, Tail(buf.data, buf.spare)[..j])
    ensures used == UsedCount(buf.heap.m, buf.data, buf.spare, j) <= n
    ensures avail >= datlen || used == n || j == |Tail(buf.data, buf.spare)|
    ensures var tail := Tail(buf.data, buf.spare);
      tail != [] && (datlen == 0 ==> SpaceOf(buf.heap.m, tail[0]) == Capacity(old(buf.heap.m), tail[0]))
  {
    hide Shape, Linked, Stored, Rest, AllEmpty, Elems;
    ghost var tail := Tail(buf.data, buf.spare);
    var chain := buf.LastWithData();
    avail, used, j := 0, 0, 0;
    assert tail != [] && chain == tail[0];
    TailFacts(buf, 0);
    while chain != NULL
      invariant buf.Valid() && Stored(buf.heap.m, buf.data) == old(buf.Contents())
      invariant Rest(buf.heap.m, buf.Chain()) == old(Rest(buf.heap.m, buf.Chain()))
      invariant j <= |tail| && chain == (if j < |tail| then tail[j] else NULL) &&
        (datlen == 0 ==> j == 0 && buf.heap.m == old(buf.heap.m))
      invariant chain != NULL ==>
        && chain in buf.heap.m && buf.heap.m[chain].Ok()
        && buf.heap.m[chain].next == if j + 1 < |tail| then tail[j + 1] else NULL
      invariant chain != NULL ==> (buf.heap.m[chain].off > 0 <==> j == 0 && buf.data != [])
      invariant chain == NULL <==> j == |tail|
      invariant avail == SpaceSum(buf.heap.m, tail[..j]) && (j > 0 ==> avail < datlen)
      invariant used == UsedCount(buf.heap.m, buf.data, buf.spare, j) < n
      decreases |tail| - j
    {
      var space, next := CountChunk(buf, chain, j);
      avail := avail + space;
      if buf.heap.m[chain].off == 0 || space > 0 {
        used := used + 1;
      }
      j := j + 1;
      if avail >= datlen || used == n {
        return;
      }
      if j < |tail| {
        TailFacts(buf, j);
      }
      chain := next;
    }
  }

  /** The tail as a whole has room for `want` bytes. */
  lemma RoomInTail(buf: Evbuffer, want: nat)
    requires buf.Valid() && 0 < want <= SpaceSum(buf.heap.m, Tail(buf.data, buf.spare))
    ensures var tail := Tail(buf.data, buf.spare);
            tail != [] && Room(buf.heap.m, buf.data, buf.spare, if SpaceOf(buf.heap.m, tail[0]) == 0 then |tail| - 1
              else |tail|, want)
  {
    var tail := Tail(buf.data, buf.spare);
    assert tail[..|tail|] == tail;
    ShapeFacts(buf.heap.m, buf.first, buf.lastWithDatap, buf.data, buf.spare);
    RoomFromTail(buf.heap.m, buf.data, buf.spare, |tail|, want);
  }

  lemma TailGrows(m: Memory, data: seq<Ptr>, spare: seq<Ptr>, tmp: Ptr)
    ensures Tail(data, spare + [tmp]) == Tail(data, spare) + [tmp]
    ensures SpaceSum(m, Tail(data, spare + [tmp])) == SpaceSum(m, Tail(data, spare)) + SpaceOf(m, tmp)
  {
    assert [Last(data)] + (spare + [tmp]) == ([Last(data)] + spare) + [tmp];
    SpaceSumConcat(m, Tail(data, spare), [tmp]);
    assert SpaceSum(m, [tmp]) == SpaceOf(m, tmp) + SpaceSum(m, []);
  }

  /** The loop ran off the end before it had used `n` chunks: another chunk is added. */
  method AddRoom(buf: Evbuffer, size: nat, mem: bool) returns (ok: bool)
    requires buf.Valid() && buf.Chain() != []
    modifies buf.heap, buf`last, buf`spare
    ensures buf.Valid() && buf.Contents() == old(buf.Contents()) && buf.data == old(buf.data)
    ensures Rest(buf.heap.m, buf.Chain()) == old(Rest(buf.heap.m, buf.Chain()))
    ensures ok ==> |buf.spare| == |old(buf.spare)| + 1
    ensures ok ==>
      SpaceSum(buf.heap.m, Tail(buf.data, buf.spare)) >= old(SpaceSum(buf.heap.m, Tail(buf.data, buf.spare))) + size
    ensures ok ==> Tail(buf.data, buf.spare)[0] == old(Tail(buf.data, buf.spare)[0])
    ensures ok ==>
      SpaceOf(buf.heap.m, Tail(buf.data, buf.spare)[0]) == old(SpaceOf(buf.heap.m, Tail(buf.data, buf.spare)[0]))
    ensures ok <==> mem && size <= CHAIN_MAX - CHAIN_HEADER
  {
    hide Shape, Linked, Stored, Rest, AllEmpty, Elems;
    ghost var m0, tail := buf.heap.m, Tail(buf.data, buf.spare);
    var tmp := buf.NewChunk(size, mem);
    if tmp == NULL {
      return false;
    }
    LinkSpare(buf, tmp);
    assert SpaceSum(buf.heap.m, tail) == SpaceSum(m0, tail) && SpaceOf(buf.heap.m, tail[0]) == SpaceOf(m0, tail[0]) by {
      assert forall p :: p in tail ==> p in m0 by {
        TailIn(buf.data, old(buf.spare));
        ShapeFacts(m0, buf.first, buf.lastWithDatap, buf.data, old(buf.spare));
      }
      SpaceSumFrame(m0, buf.heap.m, tail);
      assert tail[0] in tail;
    }
    TailGrows(buf.heap.m, buf.data, old(buf.spare), tmp);
    return true;
  }

  /** Hangs the empty chunk `tmp` on the last chunk. */
  method LinkSpare(buf: Evbuffer, tmp: Ptr)
    requires buf.Valid() && buf.Chain() != []
    requires tmp != NULL && tmp in buf.heap.m && tmp !in buf.Chain() && buf.heap.m[tmp].Ok() &&
      buf.heap.m[tmp].next == NULL && buf.heap.m[tmp].off == 0
    modifies buf.heap, buf`last, buf`spare
    ensures buf.Valid() && buf.Contents() == old(buf.Contents()) && buf.spare == old(buf.spare) + [tmp]
    ensures Rest(buf.heap.m, buf.Chain()) == old(Rest(buf.heap.m, buf.Chain() + [tmp]))
    ensures forall q :: q in old(buf.heap.m) ==> SpaceOf(buf.heap.m, q) == SpaceOf(old(buf.heap.m), q)
  {
    hide Shape, Linked, Stored, Rest, AllEmpty, Elems;
    ghost var m := buf.heap.m;
    AppendSpare(m, buf.first, buf.lastWithDatap, buf.data, buf.spare, tmp);
    assert buf.data + (buf.spare + [tmp]) == buf.Chain() + [tmp];
    buf.heap.m := buf.heap.m[buf.last := buf.heap.m[buf.last].(next := tmp)];
    RestSame(m, buf.heap.m, buf.Chain() + [tmp]);
    buf.last := tmp;
    buf.spare := buf.spare + [tmp];
  }

  lemma TailIn(data: seq<Ptr>, spare: seq<Ptr>)
    ensures forall p :: p in Tail(data, spare) ==> p in data || p in spare
  {
    assert data != [] ==> Last(data) in data;
  }

  /** All empty chunks are replaced by one that makes up for the room still missing. */
  method ReplaceEmpties(buf: Evbuffer, datlen: nat, mem: bool) returns (ok: bool)
    requires buf.Valid() && buf.Chain() != [] && datlen >= 1
    requires buf.data != [] ==> SpaceOf(buf.heap.m, Last(buf.data)) < datlen
    modifies buf.heap, buf`first, buf`last, buf`lastWithDatap, buf`totalLen, buf`data, buf`spare
    ensures buf.Valid() && buf.Contents() == old(buf.Contents())
    ensures Rest(buf.heap.m, buf.Chain()) == old(Rest(buf.heap.m, buf.Chain()))
    ensures ok ==> |Tail(buf.data, buf.spare)| <= 2 && SpaceSum(buf.heap.m, Tail(buf.data, buf.spare)) >= datlen
    ensures mem && datlen <= CHAIN_MAX - CHAIN_HEADER ==> ok
  {
    hide Shape, Linked, Stored, Rest, AllEmpty, Elems;
    TailFacts(buf, 0);
    var chain := buf.LastWithData();
    var avail := if buf.heap.m[chain].off == 0 then 0 else buf.heap.m[chain].Space();
    ok := AttachNew(buf, datlen - avail, mem);
    if ok {
      TailOfOne(buf.heap.m, buf.data, buf.spare);
    }
  }

  /** Frees the empty chunks and puts a new one of at least `size` bytes in their place. */
  method AttachNew(buf: Evbuffer, size: nat, mem: bool) returns (ok: bool)
    requires buf.Valid()
    modifies buf.heap, buf`first, buf`last, buf`lastWithDatap, buf`totalLen, buf`data, buf`spare
    ensures buf.Valid() && buf.Contents() == old(buf.Contents()) && buf.data == old(buf.data)
    ensures Rest(buf.heap.m, buf.Chain()) == old(Rest(buf.heap.m, buf.Chain()))
    ensures ok <==> mem && size <= CHAIN_MAX - CHAIN_HEADER
    ensures ok ==> |buf.spare| == 1 && SpaceOf(buf.heap.m, buf.spare[0]) >= size
    ensures ok && buf.data != [] ==> SpaceOf(buf.heap.m, Last(buf.data)) == old(SpaceOf(buf.heap.m, Last(buf.data)))
  {
    hide Shape, Linked, Stored, Rest, AllEmpty, Elems;
    var chp := DropEmpties(buf);
    var tmp := buf.NewChunk(size, mem);
    if tmp == NULL {
      return false;
    }
    assert buf.heap.m[tmp].Data() == [];
    assert buf.data != [] ==> chp in buf.data;
    buf.Attach(chp, tmp);
    return true;
  }

  /** The room of a tail with one spare chunk. */
  lemma TailOfOne(m: Memory, data: seq<Ptr>, spare: seq<Ptr>)
    requires |spare| == 1
    ensures |Tail(data, spare)| <= 2
    ensures SpaceSum(m, Tail(data, spare)) == (if data == [] then 0 else SpaceOf(m, Last(data))) + SpaceOf(m, spare[0])
  {
    TailGrows(m, data, [], spare[0]);
    TailAlone(m, data);
    assert [] + [spare[0]] == spare;
  }

  /** Frees the empty chunks; the last chunk with data, if any, ends the list. */
  method DropEmpties(buf: Evbuffer) returns (chp: Ptr)
    requires buf.Valid()
    modifies buf.heap, buf`first, buf`last, buf`spare
    ensures buf.Valid() && buf.spare == [] && chp == Last(buf.data) && buf.Chain() == buf.data
    ensures buf.Contents() == old(buf.Contents())
    ensures Rest(buf.heap.m, buf.Chain()) == old(Rest(buf.heap.m, buf.Chain()))
    ensures buf.data != [] ==>
      && Last(buf.data) in old(buf.heap.m)
      && SpaceOf(buf.heap.m, Last(buf.data)) == SpaceOf(old(buf.heap.m), Last(buf.data))
  {
    hide Shape, Linked, Stored, Rest, AllEmpty, Elems;
    chp := buf.FreeTrailingEmptyChains();
    buf.last := chp;
    assert buf.Chain() == buf.data;
  }

  lemma TailAlone(m: Memory, data: seq<Ptr>)
    ensures SpaceSum(m, Tail(data, [])) == if data == [] then 0 else SpaceOf(m, Last(data))
    ensures |Tail(data, [])| <= 1
  {
    if data != [] {
      assert [Last(data)] + [] == [Last(data)];
      assert SpaceSum(m, [Last(data)]) == SpaceOf(m, Last(data)) + SpaceSum(m, []);
    }
  }

  lemma LastIsNull(buf: Evbuffer)
    requires buf.Valid()
    ensures buf.last == NULL <==> buf.Chain() == []
  {
    ShapeFacts(buf.heap.m, buf.first, buf.lastWithDatap, buf.data, buf.spare);
    assert buf.spare != [] ==> Last(buf.spare) in buf.spare;
    assert buf.data != [] ==> Last(buf.data) in buf.data;
  }

  /** The first `j` chunks of the tail have room, and no more than `n` of them are writable. */
  lemma EnoughRoom(buf: Evbuffer, datlen: nat, n: nat, j: nat) returns (r: nat)
    requires buf.Valid() && j <= |Tail(buf.data, buf.spare)| &&
      0 < datlen <= SpaceSum(buf.heap.m, Tail(buf.data, buf.spare)[..j])
    requires UsedCount(buf.heap.m, buf.data, buf.spare, j) <= n
    ensures r <= n && Room(buf.heap.m, buf.data, buf.spare, r, datlen)
  {
    ShapeFacts(buf.heap.m, buf.first, buf.lastWithDatap, buf.data, buf.spare);
    RoomFromTail(buf.heap.m, buf.data, buf.spare, j, datlen);
    r := if SpaceOf(buf.heap.m, Tail(buf.data, buf.spare)[0]) == 0 then j - 1 else j;
  }

  lemma FirstSpace(m: Memory, data: seq<Ptr>, spare: seq<Ptr>, j: nat)
    requires 0 < j <= |Tail(data, spare)|
    ensures SpaceOf(m, Tail(data, spare)[0]) <= SpaceSum(m, Tail(data, spare)[..j])
  {
  }

  /** The only chunk that could take bytes has no room at all. */
  ghost predicate NoRoom(buf: Evbuffer)
    reads buf, buf.heap
  {
    |Tail(buf.data, buf.spare)| == 1 && Capacity(buf.heap.m, Tail(buf.data, buf.spare)[0]) == 0
  }

  lemma NoRoomNeeded(buf: Evbuffer)
    requires buf.Valid()
    ensures Room(buf.heap.m, buf.data, buf.spare, 0, 0)
    ensures var tail := Tail(buf.data, buf.spare);
      Writable(buf.heap.m, buf.data, buf.spare) == [] <==>
        tail == [] || (|tail| == 1 && SpaceOf(buf.heap.m, tail[0]) == 0)
  {
    ShapeFacts(buf.heap.m, buf.first, buf.lastWithDatap, buf.data, buf.spare);
    WritableIsTail(buf.heap.m, buf.data, buf.spare);
    hide Writable;
    assert Writable(buf.heap.m, buf.data, buf.spare)[..0] == [];
  }

  /** evbuffer_expand_fast_: makes room for `datlen` bytes in the last `n` chunks without moving
      any data. The ghost result is the number of chunks that take part. */
  method ExpandFast(buf: Evbuffer, datlen: nat, n: nat, mem: bool) returns (ok: bool, ghost r: nat)
    requires buf.Valid() && n >= 2
    modifies buf.heap, buf`first, buf`last, buf`lastWithDatap, buf`totalLen, buf`data, buf`spare
    ensures buf.Valid() && buf.Contents() == old(buf.Contents())
    ensures Rest(buf.heap.m, buf.Chain()) == old(Rest(buf.heap.m, buf.Chain()))
    ensures ok ==> r <= n && Room(buf.heap.m, buf.data, buf.spare, r, datlen)
    ensures mem && datlen <= CHAIN_MAX - CHAIN_HEADER ==> ok
    ensures datlen == 0 && old(buf.Chain()) != [] ==> ok
    ensures datlen == 0 && ok ==> (Writable(buf.heap.m, buf.data, buf.spare) == [] <==> old(NoRoom(buf)))
  {
    hide Shape, Linked, Stored, Rest, AllEmpty, Elems, Room, Writable;
    LastIsNull(buf);
    if buf.last == NULL {
      var chain := InsertNew(buf, datlen, mem);
      if chain == NULL {
        return false, 0;
      }
      if datlen == 0 {
        NoRoomNeeded(buf);
        return true, 0;
      }
      TailGrows(buf.heap.m, buf.data, [], chain);
      TailAlone(buf.heap.m, buf.data);
      assert [] + [chain] == [chain];
      RoomInTail(buf, datlen);
      return true, 1;
    }
    var avail, used;
    ghost var j;
    avail, used, j := CountSpace(buf, datlen, n);
    if datlen == 0 {
      NoRoomNeeded(buf);
      return true, 0;
    }
    if avail >= datlen {
      r := EnoughRoom(buf, datlen, n, j);
      return true, r;
    }
    assert Tail(buf.data, buf.spare)[..|Tail(buf.data, buf.spare)|] == Tail(buf.data, buf.spare);
    if used < n {
      ok := AddRoom(buf, datlen - avail, mem);
    } else {
      FirstSpace(buf.heap.m, buf.data, buf.spare, j);
      ok := ReplaceEmpties(buf, datlen, mem);
    }
    r := 0;
    if ok {
      RoomInTail(buf, datlen);
      ghost var tail := Tail(buf.data, buf.spare);
      r := if SpaceOf(buf.heap.m, tail[0]) == 0 then |tail| - 1 else |tail|;
    }
  }

  /** The length of all vectors together. */
  ghost function VecLen(vec: seq<Iovec>): nat {
    if vec == [] then 0 else VecLen(vec[..|vec| - 1]) + vec[|vec| - 1].len
  }

  /** More chunks have at least as much room. */
  lemma SpaceSumPrefix(m: Memory, ps: seq<Ptr>, i: nat, r: nat)
    requires r <= i <= |ps|
    ensures SpaceSum(m, ps[..r]) <= SpaceSum(m, ps[..i])
  {
    assert ps[..i] == ps[..r] + ps[r..i];
    SpaceSumConcat(m, ps[..r], ps[r..i]);
  }

  lemma SpaceSumNext(m: Memory, ps: seq<Ptr>, i: nat)
    requires i < |ps|
    ensures SpaceSum(m, ps[..i + 1]) == SpaceSum(m, ps[..i]) + SpaceOf(m, ps[i])
  {
    assert ps[..i + 1] == ps[..i] + [ps[i]];
    SpaceSumConcat(m, ps[..i], [ps[i]]);
    assert SpaceSum(m, [ps[i]]) == SpaceOf(m, ps[i]) + SpaceSum(m, []);
  }

  lemma VecLenAppend(vec: seq<Iovec>, v: Iovec)
    ensures VecLen(vec + [v]) == VecLen(vec) + v.len
  {
    assert (vec + [v])[..|vec|] == vec;
  }

  /** The writable chunks form a list of their own. */
  lemma WritableLinked(buf: Evbuffer)
    requires buf.Valid()
    ensures Linked(buf.heap.m, Writable(buf.heap.m, buf.data, buf.spare), NULL)
  {
    var all, s := buf.Chain(), FirstWritable(buf.heap.m, buf.data, buf.spare);
    ListView(buf.heap.m, buf.first, buf.lastWithDatap, buf.data, buf.spare);
    if s <= |all| {
      assert all == all[..s] + all[s..];
      LinkedConcat(buf.heap.m, all[..s], all[s..], NULL);
    }
  }

  /** How far the loop has come: the vectors so far, their length and the next chunk. */
  ghost predicate Filling(m: Memory, ws: seq<Ptr>, vecs: seq<Iovec>, chain: Ptr, soFar: nat, howmuch: nat,
      exact: bool) {
    && Fits(m, vecs, ws) && VecLen(vecs) == soFar
    && chain == (if |vecs| < |ws| then ws[|vecs|] else NULL)
    && (soFar < howmuch || !exact ==> soFar == SpaceSum(m, ws[..|vecs|]))
    && (soFar >= howmuch && exact ==> soFar == howmuch)
    && (!exact ==> forall i :: 0 <= i < |vecs| ==> vecs[i].len == SpaceOf(m, vecs[i].chain))
  }

  lemma FillStep(m: Memory, ws: seq<Ptr>, vecs: seq<Iovec>, chain: Ptr, soFar: nat, howmuch: nat, exact: bool, r: nat)
    requires Linked(m, ws, NULL) && Filling(m, ws, vecs, chain, soFar, howmuch, exact) && soFar < howmuch
    requires r <= |ws| && howmuch <= SpaceSum(m, ws[..r])
    ensures |vecs| < r && chain in m && m[chain].Ok()
    ensures var len := if m[chain].Space() > howmuch - soFar && exact then howmuch - soFar else m[chain].Space();
            Filling(m, ws, vecs + [Iovec(chain, m[chain].misalign + m[chain].off, len)], m[chain].next, soFar + len,
              howmuch, exact)
  {
    var i := |vecs|;
    hide Linked;
    assert i < r by {
      if i >= r {
        SpaceSumPrefix(m, ws, i, r);
      }
    }
    NextOf(m, ws, i);
    SpaceSumNext(m, ws, i);
    var len := if m[chain].Space() > howmuch - soFar && exact then howmuch - soFar else m[chain].Space();
    VecLenAppend(vecs, Iovec(chain, m[chain].misalign + m[chain].off, len));
  }

  /** evbuffer_read_setup_vecs_: the vectors to read `howmuch` bytes into, or -1 for a negative number.
      The room for them has been made before, in the first `r` writable chunks, so the walk never leaves
      the list; `aborts` says that an assertion of the code fails for want of a writable chunk, which can
      only be when no bytes are asked for. */
  method ReadSetupVecs(buf: Evbuffer, howmuch: int, nVecs: nat, exact: bool, ghost r: nat)
    returns (n: int, vecs: seq<Iovec>, aborts: bool)
    requires buf.Valid() && r <= nVecs && (howmuch >= 0 ==> Room(buf.heap.m, buf.data, buf.spare, r, howmuch))
    ensures aborts <==> howmuch == 0 && Writable(buf.heap.m, buf.data, buf.spare) == []
    ensures n == if howmuch < 0 then -1 else |vecs|
    ensures howmuch <= 0 ==> vecs == []
    ensures |vecs| <= nVecs && Fits(buf.heap.m, vecs, Writable(buf.heap.m, buf.data, buf.spare))
    ensures howmuch > 0 ==> if exact then VecLen(vecs) == howmuch else VecLen(vecs) >= howmuch
    ensures !exact ==> forall i :: 0 <= i < |vecs| ==> vecs[i].len == SpaceOf(buf.heap.m, vecs[i].chain)
  {
    hide Shape, Linked, Stored, Rest, AllEmpty, Elems, SpaceSum, FirstWritable;
    vecs, aborts := [], false;
    if howmuch < 0 {
      return -1, [], false;
    }
    var firstChainp, chain := FindWritable(buf);
    if howmuch == 0 {
      return 0, [], chain == NULL;
    }
    WritableLinked(buf);
    vecs := FillVecs(buf, chain, howmuch, nVecs, exact, Writable(buf.heap.m, buf.data, buf.spare), r);
    n := |vecs|;
  }

  /** The loop of evbuffer_read_setup_vecs_. */
  method FillVecs(buf: Evbuffer, start: Ptr, howmuch: nat, nVecs: nat, exact: bool, ghost ws: seq<Ptr>, ghost r: nat)
    returns (vecs: seq<Iovec>)
    requires Linked(buf.heap.m, ws, NULL) && start == Head(ws, NULL)
    requires r <= |ws| && r <= nVecs && 1 <= howmuch <= SpaceSum(buf.heap.m, ws[..r])
    ensures |vecs| <= nVecs && Fits(buf.heap.m, vecs, ws)
    ensures if exact then VecLen(vecs) == howmuch else VecLen(vecs) >= howmuch
    ensures !exact ==> forall i :: 0 <= i < |vecs| ==> vecs[i].len == SpaceOf(buf.heap.m, vecs[i].chain)
  {
    hide Linked;
    ghost var m := buf.heap.m;
    vecs := [];
    var chain, soFar: nat := start, 0;
    assert SpaceSum(m, ws[..0]) == 0;
    assert Filling(m, ws, vecs, chain, soFar, howmuch, exact);
    FillStep(m, ws, vecs, chain, soFar, howmuch, exact, r);
    hide Filling, Fits, FitsOne, VecLen, SpaceSum, Head;
    while |vecs| < nVecs && soFar < howmuch
      invariant |vecs| <= nVecs && Filling(m, ws, vecs, chain, soFar, howmuch, exact)
      invariant soFar >= howmuch || |vecs| < r
    {
      FillStep(m, ws, vecs, chain, soFar, howmuch, exact, r);
      var avail := buf.heap.m[chain].Space();
      if avail > howmuch - soFar && exact {
        avail := howmuch - soFar;
      }
      vecs := vecs + [Iovec(chain, buf.heap.m[chain].misalign + buf.heap.m[chain].off, avail)];
      soFar := soFar + avail;
      chain := buf.heap.m[chain].next;
      if soFar < howmuch {
        FillStep(m, ws, vecs, chain, soFar, howmuch, exact, r);
      }
    }
    FillDone(m, ws, vecs, chain, soFar, howmuch, exact);
  }

  lemma FillDone(m: Memory, ws: seq<Ptr>, vecs: seq<Iovec>, chain: Ptr, soFar: nat, howmuch: nat, exact: bool)
    requires Filling(m, ws, vecs, chain, soFar, howmuch, exact) && soFar >= howmuch
    ensures Fits(m, vecs, ws)
    ensures if exact then VecLen(vecs) == howmuch else VecLen(vecs) >= howmuch
    ensures !exact ==> forall i :: 0 <= i < |vecs| ==> vecs[i].len == SpaceOf(m, vecs[i].chain)
  {
  }

  /** What a possibly negative size becomes as a size_t. */
  function ToSize(size: int): int {
    if size < 0 then TWO64 + size else size
  }

  /** evbuffer_reserve_space. With one vector the room is in one chunk; with more, the vectors are
      the free spaces of the first writable chunks. `aborts` says that an assertion of the code fails. */
  method ReserveSpace(buf: Evbuffer, size: int, nVecs: int, mem: bool) returns (n: int, vecs: seq<Iovec>, aborts: bool)
    requires buf.Valid() && SSIZE_MIN <= size <= SSIZE_MAX
    modifies buf.heap, buf`first, buf`last, buf`lastWithDatap, buf`totalLen, buf`data, buf`spare
    ensures buf.Valid() && buf.Contents() == old(buf.Contents())
    ensures Rest(buf.heap.m, buf.Chain()) == old(Rest(buf.heap.m, buf.Chain()))
    ensures aborts <==> !buf.freezeEnd && nVecs >= 2 && size == 0 && old(NoRoom(buf))
    ensures n == -1 || (n == |vecs| <= nVecs && VecLen(vecs) >= size)
    ensures n != -1 ==> !buf.freezeEnd && nVecs >= 1 && size >= 0
    ensures n != -1 && nVecs >= 2 ==> Fits(buf.heap.m, vecs, Writable(buf.heap.m, buf.data, buf.spare))
    ensures n != -1 && nVecs == 1 ==>
      n == 1 && vecs[0].chain in buf.Chain() && FitsOne(buf.heap.m, vecs[0], vecs[0].chain)
    ensures n != -1 && nVecs == 1 ==> (Acceptable(buf, vecs) <==> !old(NotCommittable(buf, size)))
    ensures !buf.freezeEnd && nVecs >= 1 && mem && 0 <= size <= CHAIN_MAX - CHAIN_HEADER - 4096 ==> n != -1
  {
    hide Shape, Linked, Stored, Rest, AllEmpty, Elems, Writable, Room, Fits;
    vecs, aborts := [], false;
    if buf.freezeEnd || nVecs < 1 {
      return -1, [], false;
    }
    if nVecs == 1 {
      n, vecs := ReserveOne(buf, size, mem);
      return;
    }
    ghost var r;
    var ok;
    ok, r := ExpandFast(buf, ToSize(size), nVecs, mem);
    if !ok {
      return -1, [], false;
    }
    n, vecs, aborts := ReadSetupVecs(buf, size, nVecs, false, r);
  }

  /** The case of one vector. */
  method ReserveOne(buf: Evbuffer, size: int, mem: bool) returns (n: int, vecs: seq<Iovec>)
    requires buf.Valid() && SSIZE_MIN <= size <= SSIZE_MAX && !buf.freezeEnd
    modifies buf.heap, buf`first, buf`last, buf`lastWithDatap, buf`totalLen, buf`data, buf`spare
    ensures buf.Valid() && buf.Contents() == old(buf.Contents())
    ensures Rest(buf.heap.m, buf.Chain()) == old(Rest(buf.heap.m, buf.Chain()))
    ensures n == -1 || (n == 1 == |vecs| && size >= 0 && VecLen(vecs) >= size)
    ensures n != -1 ==> vecs[0].chain in buf.Chain() && FitsOne(buf.heap.m, vecs[0], vecs[0].chain)
    ensures n != -1 ==> (Acceptable(buf, vecs) <==> !old(NotCommittable(buf, size)))
    ensures mem && 0 <= size <= CHAIN_MAX - CHAIN_HEADER - 4096 ==> n != -1
  {
    hide Shape, Linked, Stored, Rest, AllEmpty, Elems, Writable, Fits, TakesNext;
    ghost var m0, data0, spare0 := buf.heap.m, buf.data, buf.spare;
    var chain := ExpandSinglechain(buf, ToSize(size), mem);
    if chain == NULL {
      return -1, [];
    }
    var c := buf.heap.m[chain];
    vecs := [Iovec(chain, c.misalign + c.off, c.Space())];
    VecLenAppend([], vecs[0]);
    assert [] + [vecs[0]] == vecs == [vecs[0]];
    NotNull(buf, chain);
    OneVector(buf.heap.m, buf.data, buf.spare, vecs[0]);
    if TakesNext(m0, data0, spare0, size) {
      TakenFirst(buf, size);
    }
    n := 1;
  }

  /** Exactly when a reservation with one vector cannot be committed: the chunk after the last one with
      data is taken, and it is neither the first writable chunk nor the last one. */
  ghost predicate NotCommittable(buf: Evbuffer, size: int)
    reads buf, buf.heap
  {
    size >= 0 && TakesNext(buf.heap.m, buf.data, buf.spare, size) && |buf.spare| >= 2
  }

  /** A reservation that is committed as it is: accepted exactly unless it is one of those. */
  method ReserveThenCommit(buf: Evbuffer, size: int, nVecs: int, mem: bool) returns (n: int, ok: bool)
    requires buf.Valid() && SSIZE_MIN <= size <= SSIZE_MAX
    modifies buf.heap, buf`first, buf`last, buf`lastWithDatap, buf`totalLen, buf`data, buf`spare
    ensures buf.Valid() && Rest(buf.heap.m, buf.Chain()) == old(Rest(buf.heap.m, buf.Chain()))
    ensures ok <==> n != -1 && (nVecs >= 2 || !old(NotCommittable(buf, size)))
    ensures if ok then old(buf.Contents()) <= buf.Contents() && |buf.Contents()| >= |old(buf.Contents())| + size
      else buf.Contents() == old(buf.Contents())
  {
    hide Shape, Linked, Stored, Rest, AllEmpty, Elems, Writable, Fits, TakesNext, VecBytes, VecLen, NotCommittable;
    ok := false;
    var vecs, aborts;
    n, vecs, aborts := ReserveSpace(buf, size, nVecs, mem);
    if n != -1 {
      CommittedLength(buf, vecs);
      ok := CommitSpace(buf, vecs);
    }
  }

  lemma {:induction false} FitsLength(m: Memory, vec: seq<Iovec>, ps: seq<Ptr>)
    requires Fits(m, vec, ps)
    ensures |VecBytes(m, vec)| == VecLen(vec)
  {
    if vec != [] {
      var n := |vec| - 1;
      FitsLength(m, vec[..n], ps);
      assert FitsOne(m, vec[n], ps[n]);
    }
  }

  lemma CommittedLength(buf: Evbuffer, vec: seq<Iovec>)
    ensures Acceptable(buf, vec) ==> |VecBytes(buf.heap.m, vec)| == VecLen(vec)
    ensures Fits(buf.heap.m, vec, Writable(buf.heap.m, buf.data, buf.spare)) ==> Acceptable(buf, vec)
  {
    hide Writable, Fits;
    var m, ws, last := buf.heap.m, Writable(buf.heap.m, buf.data, buf.spare), [LastOf(buf.data, buf.spare)];
    if Fits(m, vec, ws) {
      FitsLength(m, vec, ws);
    } else if Fits(m, vec, last) {
      FitsLength(m, vec, last);
    }
  }

  lemma NotNull(buf: Evbuffer, p: Ptr)
    requires buf.Valid() && p in buf.Chain()
    ensures p != NULL
  {
    ShapeFacts(buf.heap.m, buf.first, buf.lastWithDatap, buf.data, buf.spare);
  }

  lemma TakenFirst(buf: Evbuffer, size: nat)
    requires buf.Valid() && TakesNext(buf.heap.m, buf.data, buf.spare, size)
    ensures buf.spare != [] && buf.spare[0] != Head(Writable(buf.heap.m, buf.data, buf.spare), NULL)
    ensures buf.spare[0] == LastOf(buf.data, buf.spare) <==> |buf.spare| == 1
  {
    hide Stored, Rest, Elems, AllEmpty;
    HeadWritable(buf.heap.m, buf.data, buf.spare);
    assert Last(buf.data) in buf.data && buf.spare[0] in buf.spare;
    if |buf.spare| >= 2 {
      LinkedDistinct(buf.heap.m, buf.spare, NULL, 0, |buf.spare| - 1);
    }
  }

  /** The user may fill less of each vector than was reserved. */
  ghost predicate Shortened(vecs: seq<Iovec>, used: seq<Iovec>) {
    |used| <= |vecs| && forall i :: 0 <= i < |used| ==>
      used[i].chain == vecs[i].chain && used[i].at == vecs[i].at && used[i].len <= vecs[i].len
  }

  /** Whatever part of an acceptable reservation is filled, committing it is accepted. */
  lemma ReservationCommits(buf: Evbuffer, vecs: seq<Iovec>, used: seq<Iovec>)
    requires Acceptable(buf, vecs) && Shortened(vecs, used)
    ensures Acceptable(buf, used)
  {
    hide Writable, LastOf;
    ShorterFits(buf.heap.m, vecs, used, Writable(buf.heap.m, buf.data, buf.spare));
    ShorterFits(buf.heap.m, vecs, used, [LastOf(buf.data, buf.spare)]);
  }

  lemma ShorterFits(m: Memory, vecs: seq<Iovec>, used: seq<Iovec>, ps: seq<Ptr>)
    requires Shortened(vecs, used)
    ensures Fits(m, vecs, ps) ==> Fits(m, used, ps)
  {
    if Fits(m, vecs, ps) {
      assert forall i :: 0 <= i < |used| ==> FitsOne(m, vecs[i], ps[i]);
    }
  }

  /** A chunk of `n` bytes with `off` of them in use. */
  function PlainChunk(next: Ptr, n: nat, off: nat): Chunk {
    Chunk(next, seq(n, _ => 0), 0, off)
  }

  /** A buffer of 970 bytes as two reservations that were never committed leave it, one of 100 bytes in one
      vector and one of 1000 bytes in three: little room in the last chunk with data, and two empty chunks.
      The chunk that a reservation of 100 bytes is given is not accepted. */
  lemma RefusedReservation()
    ensures var m: Memory := map[1 := PlainChunk(2, 976, 970), 2 := PlainChunk(3, 976, 0),
      3 := PlainChunk(NULL, 976, 0)];
      && Shape(m, 1, NULL, [1], [2, 3]) && TakesNext(m, [1], [2, 3], 100)
      && FitsOne(m, Iovec(2, 0, 100), 2) && !AcceptableIn(m, [1], [2, 3], [Iovec(2, 0, 100)])
  {
    var m: Memory := map[1 := PlainChunk(2, 976, 970), 2 := PlainChunk(3, 976, 0), 3 := PlainChunk(NULL, 976, 0)];
    LinkedNil(m, NULL);
    LinkedSingle(m, 1, 2);
    LinkedSingle(m, 3, NULL);
    assert [2, 3][1..] == [3];
    HeadWritable(m, [1], [2, 3]);
    OneVector(m, [1], [2, 3], Iovec(2, 0, 100));
  }
}
