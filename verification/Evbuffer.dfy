/** The evbuffer: a byte queue kept as a singly linked list of partly filled chunks, with a cached
    tail, a cached length and a cached link to the last chunk that holds data. */
module Evbuffers {
  import opened Bytes
  import opened Addresses
  import opened Chunks
  import opened ChunkLists
  import opened Shapes

  lemma SplitSum(a: seq<byte>, k: nat, b: seq<byte>)
    requires k <= |a|
    ensures a[..k] + (a[k..] + b) == a + b
  {
  }

  class Evbuffer {
    const heap: Heap
    var first: Ptr
    var last: Ptr
    /** The chunk whose `next` field is the link `last_with_datap` points at;
        NULL when it points at `first`. */
    var lastWithDatap: Ptr
    var totalLen: nat
    var freezeStart: bool
    var freezeEnd: bool

    /** The chunks up to the last one with data. */
    ghost var data: seq<Ptr>
    /** The empty chunks after those. */
    ghost var spare: seq<Ptr>

    /** The list and the link to the last chunk with data, leaving `last` and `totalLen` aside. */
    ghost predicate ListOk()
      reads this, heap
    {
      Shape(heap.m, first, lastWithDatap, data, spare)
    }

    ghost predicate Valid()
      reads this, heap
    {
      ListOk() && last == LastOf(data, spare) && totalLen == |Stored(heap.m, data)|
    }

    /** All chunks of the buffer, in list order. */
    ghost function Chain(): seq<Ptr>
      reads this
    {
      data + spare
    }

    /** The bytes in the buffer, first to last. */
    ghost function Contents(): seq<byte>
      reads this, heap
    {
      Stored(heap.m, data)
    }

    constructor (h: Heap)
      ensures heap == h && Valid() && Chain() == [] && Contents() == []
      ensures !freezeStart && !freezeEnd
    {
      heap := h;
      first, last, lastWithDatap := NULL, NULL, NULL;
      totalLen, freezeStart, freezeEnd := 0, false, false;
      data, spare := [], [];
    }

    /** `*last_with_datap`. */
    function LastWithData(): (c: Ptr)
      requires ListOk()
      reads this, heap
      ensures c == Current(data, spare)
      ensures c == NULL <==> Chain() == []
      ensures c != NULL ==> c in heap.m && heap.m[c].Ok() && c in Chain()
    {
      ShapeFacts(heap.m, first, lastWithDatap, data, spare);
      if lastWithDatap == NULL then first else heap.m[lastWithDatap].next
    }

    /** evbuffer_free_all_chains. */
    method FreeAllChains(head: Ptr, ghost ps: seq<Ptr>)
      requires Linked(heap.m, ps, NULL) && head == Head(ps, NULL)
      modifies heap
      ensures heap.m == old(heap.m) - Elems(ps)
    {
      var chain := head;
      ghost var rs := ps;
      while chain != NULL
        invariant Linked(heap.m, rs, NULL) && chain == Head(rs, NULL)
        invariant Elems(rs) <= Elems(ps)
        invariant heap.m == old(heap.m) - (Elems(ps) - Elems(rs))
        decreases |rs|
      {
        var next := heap.m[chain].next;
        assert Elems(rs) == Elems(rs[1..]) + {rs[0]};
        LinkedMembers(heap.m, rs[1..], NULL);
        LinkedFrame(heap.m, heap.m - {chain}, rs[1..], NULL);
        heap.ChainFree(chain);
        chain := next;
        rs := rs[1..];
      }
      assert rs == [];
    }

    /** `*chp = chain`, where `chp` is the link after the chunk `chp`, or `first` after NULL. */
    method SetLinkAfter(chp: Ptr, chain: Ptr)
      requires chp != NULL ==> chp in heap.m
      modifies heap, this`first
      ensures chp == NULL ==> heap.m == old(heap.m) && first == chain
      ensures chp != NULL ==> heap.m == SetLink(old(heap.m), chp, chain) && first == old(first)
    {
      if chp == NULL {
        first := chain;
      } else {
        heap.m := heap.m[chp := heap.m[chp].(next := chain)];
      }
    }

    /** evbuffer_free_trailing_empty_chains: cuts the empty chunks at the end off the list and
        returns the place where a new chunk goes. `last` is left to the caller. */
    method FreeTrailingEmptyChains() returns (chp: Ptr)
      requires ListOk()
      modifies heap, this`first, this`spare
      ensures ListOk() && spare == [] && chp == Last(data)
      ensures Contents() == old(Contents())
      ensures Rest(heap.m, data) == old(Rest(heap.m, Chain()))
      ensures data != [] ==>
        && Last(data) in heap.m && Last(data) in old(heap.m)
        && heap.m[Last(data)] == old(heap.m)[Last(data)].(next := NULL)
    {
      hide Linked, Stored, Rest;
      ShapeFacts(heap.m, first, lastWithDatap, data, spare);
      CutSpare(heap.m, first, lastWithDatap, data, spare);
      assert spare != [] ==> spare[0] in spare;
      chp := lastWithDatap;
      var victim := LastWithData();
      ghost var hops := 0;
      while victim != NULL && heap.m[victim].off != 0
        invariant hops <= 1
        invariant hops == 0 ==> chp == lastWithDatap && victim == Current(data, spare)
        invariant hops == 1 ==> data != [] && chp == Last(data) && victim == Head(spare, NULL)
        decreases 1 - hops
      {
        hops := hops + 1;
        chp := victim;
        victim := heap.m[victim].next;
      }
      assert chp == Last(data) && victim == Head(spare, NULL);
      if victim != NULL {
        FreeAllChains(victim, spare);
        SetLinkAfter(chp, NULL);
        spare := [];
      } else {
        assert spare == [] && data + spare == data;
      }
    }

    /** The end of evbuffer_chain_insert: `chp` is the link after the last chunk with data. */
    method Attach(chp: Ptr, chain: Ptr)
      requires ListOk() && spare == [] && chp == Last(data) && totalLen == |Contents()|
      requires chain != NULL && chain in heap.m && chain !in data && heap.m[chain].Ok() && heap.m[chain].next == NULL
      modifies heap, this`first, this`last, this`lastWithDatap, this`totalLen, this`data, this`spare
      ensures Valid() && chain in heap.m && heap.m[chain] == old(heap.m)[chain]
      ensures Contents() == old(Contents()) + heap.m[chain].Data()
      ensures Rest(heap.m, Chain()) == old(Rest(heap.m, data + [chain]))
      ensures Chain() == old(data) + [chain]
      ensures old(data) != [] ==>
        && Last(old(data)) in heap.m && Last(old(data)) in old(heap.m)
        && heap.m[Last(old(data))] == old(heap.m)[Last(old(data))].(next := chain)
      ensures heap.m[chain].off == 0 ==> data == old(data) && spare == [chain]
    {
      hide Linked, Stored, Rest;
      ghost var m := heap.m;
      AttachLast(heap.m, first, lastWithDatap, data, chain);
      ShapeFacts(heap.m, first, lastWithDatap, data, []);
      SetLinkAfter(chp, chain);
      RestSame(m, heap.m, data + [chain]);
      if heap.m[chain].off > 0 {
        lastWithDatap := chp;
        data := data + [chain];
        assert data + spare == data;
      } else {
        spare := [chain];
      }
      last := chain;
      totalLen := totalLen + heap.m[chain].off;
    }

    /** evbuffer_chain_insert: adds one chunk at the end, freeing trailing empty chunks. */
    method ChainInsert(chain: Ptr)
      requires Valid()
      requires chain != NULL && chain in heap.m && chain !in Chain() && heap.m[chain].Ok() && heap.m[chain].next == NULL
      modifies heap, this`first, this`last, this`lastWithDatap, this`totalLen, this`data, this`spare
      ensures Valid() && chain in heap.m && heap.m[chain] == old(heap.m)[chain]
      ensures Contents() == old(Contents()) + heap.m[chain].Data()
      ensures Rest(heap.m, Chain()) == old(Rest(heap.m, Chain() + [chain]))
      ensures Chain() == old(data) + [chain]
      ensures heap.m[chain].off == 0 ==> data == old(data) && spare == [chain]
    {
      hide Shape, Linked, Stored, Rest, AllEmpty, Elems;
      var chp := NULL;
      RestPlus(heap.m, Chain(), [chain]);
      if LastWithData() != NULL {
        chp := FreeTrailingEmptyChains();
        RestKept(old(heap.m), old(Chain()), heap.m, data, chain);
      } else {
        assert data == [] && spare == [];
        assert data + spare == data;
      }
      RestPlus(heap.m, data, [chain]);
      Attach(chp, chain);
    }

    /** Writing a chunk that is not in the list does not touch the buffer. */
    twostate lemma Untouched(p: Ptr)
      requires old(Valid()) && p !in Chain() && p in heap.m && unchanged(this)
      requires heap.m == old(heap.m)[p := heap.m[p]]
      ensures Valid() && Contents() == old(Contents())
      ensures Rest(heap.m, Chain() + [p]) == old(Rest(heap.m, Chain() + [p]))
      ensures p !in old(heap.m) ==> old(Rest(heap.m, Chain() + [p])) == old(Rest(heap.m, Chain()))
    {
      hide Linked, Stored, Rest, AllEmpty, Elems;
      ShapeFacts(old(heap.m), first, lastWithDatap, data, spare);
      ShapeFrame(old(heap.m), heap.m, first, lastWithDatap, data, spare);
      RestUpdate(old(heap.m), Chain() + [p], p, heap.m[p]);
      if p !in old(heap.m) {
        RestAbsent(old(heap.m), Chain(), p);
      }
    }

    /** Writes `c` over the chunk `*last_with_datap`, which gains the bytes `added` at its end. */
    method Extend(chain: Ptr, c: Chunk, ghost added: seq<byte>)
      requires Valid() && chain != NULL && chain == LastWithData()
      requires c.Ok() && c.next == heap.m[chain].next && c.Data() == heap.m[chain].Data() + added
      modifies heap, this`totalLen, this`data, this`spare
      ensures Valid() && Chain() == old(Chain()) && Contents() == old(Contents()) + added
      ensures heap.m == old(heap.m)[chain := c] && Rest(heap.m, Chain()) == old(Rest(heap.m, Chain()))
      ensures chain == LastWithData() && (added == [] ==> data == old(data) && spare == old(spare))
    {
      hide Shape, Linked, Stored, Rest, AllEmpty, Elems;
      ExtendLast(heap.m, first, lastWithDatap, data, spare, c, added);
      RestUpdate(heap.m, Chain(), chain, c);
      assert |c.Data()| == |heap.m[chain].Data()| + |added|;
      totalLen := totalLen + (c.off - heap.m[chain].off);
      heap.m := heap.m[chain := c];
      data, spare := GrownData(data, spare, added), GrownSpare(data, spare, added);
    }

    /** evbuffer_chain_new, seen from a buffer that does not use the new chunk yet. */
    method NewChunk(size: nat, mem: bool) returns (tmp: Ptr)
      requires Valid()
      modifies heap
      ensures Valid() && Contents() == old(Contents())
      ensures tmp == NULL <==> !mem || size > CHAIN_MAX - CHAIN_HEADER
      ensures tmp == NULL ==> heap.m == old(heap.m)
      ensures tmp != NULL ==>
        tmp !in old(heap.m) && tmp in heap.m && tmp !in Chain() && heap.m == old(heap.m)[tmp := heap.m[tmp]]
      ensures tmp != NULL ==>
        heap.m[tmp].Ok() && heap.m[tmp].next == NULL && heap.m[tmp].misalign == 0 && heap.m[tmp].off == 0
      ensures tmp != NULL ==> size <= |heap.m[tmp].mem| && |heap.m[tmp].mem| > 0
      ensures tmp != NULL ==> Rest(heap.m, Chain() + [tmp]) == old(Rest(heap.m, Chain()))
    {
      hide Linked, Stored, Rest, AllEmpty, Elems;
      ShapeFacts(heap.m, first, lastWithDatap, data, spare);
      hide Shape;
      tmp := heap.ChainNew(size, mem);
      if tmp != NULL {
        Untouched(tmp);
      }
    }

    /** Stores `bytes` in the empty chunk `tmp` and adds that chunk at the end. */
    method InsertFilled(tmp: Ptr, bytes: seq<byte>)
      requires Valid() && tmp != NULL && tmp in heap.m && tmp !in Chain()
      requires heap.m[tmp].Ok() && heap.m[tmp].next == NULL
      requires heap.m[tmp].misalign == 0 && heap.m[tmp].off == 0 && |bytes| <= |heap.m[tmp].mem|
      modifies heap, this`first, this`last, this`lastWithDatap, this`totalLen, this`data, this`spare
      ensures Valid() && Contents() == old(Contents()) + bytes
      ensures Rest(heap.m, Chain()) == old(Rest(heap.m, Chain() + [tmp]))
    {
      hide Shape, Linked, Stored, Rest, AllEmpty, Elems;
      heap.m := heap.m[tmp := heap.m[tmp].Append(bytes)];
      Untouched(tmp);
      ChainInsert(tmp);
    }

    /** The last part of evbuffer_add: fills `chain` up and puts what is left in a new chunk. */
    method AddNewChunk(chain: Ptr, bytes: seq<byte>, mem: bool) returns (ok: bool)
      requires Valid() && chain != NULL && chain == LastWithData() && heap.m[chain].Space() < |bytes|
      modifies heap, this`first, this`last, this`lastWithDatap, this`totalLen, this`data, this`spare
      ensures Valid() && Rest(heap.m, Chain()) == old(Rest(heap.m, Chain()))
      ensures ok ==> Contents() == old(Contents()) + bytes
      ensures !ok ==> unchanged(this) && heap.m == old(heap.m)
      ensures ok <==> mem && |bytes| <= CHAIN_MAX - CHAIN_HEADER
    {
      hide Shape, Linked, Stored, Rest, AllEmpty, Elems;
      var c := heap.m[chain];
      var remain := c.Space();
      var toAlloc := |c.mem|;
      if toAlloc <= 4096 / 2 {
        toAlloc := toAlloc * 2;
      }
      if |bytes| > toAlloc {
        toAlloc := |bytes|;
      }
      var tmp := NewChunk(toAlloc, mem);
      if tmp == NULL {
        return false;
      }
      if remain > 0 {
        RestPlus(heap.m, Chain(), [tmp]);
        Extend(chain, c.Append(bytes[..remain]), bytes[..remain]);
        RestPlus(heap.m, Chain(), [tmp]);
      }
      assert bytes == bytes[..remain] + bytes[remain..];
      InsertFilled(tmp, bytes[remain..]);
      return true;
    }

    /** The last chunk with data takes `n` more bytes after its own, moved to its start if that is cheap. */
    predicate TakesInPlace(n: nat)
      requires ListOk()
      reads this, heap
    {
      var p := LastWithData();
      p != NULL && (n <= heap.m[p].Space() || heap.m[p].ShouldRealign(n))
    }

    /** The chunk evbuffer_add starts writing to, allocated if the buffer has none. */
    method ChainToFill(size: nat, mem: bool) returns (chain: Ptr)
      requires Valid()
      modifies heap, this`first, this`last, this`lastWithDatap, this`totalLen, this`data, this`spare
      ensures Valid() && Contents() == old(Contents()) && Rest(heap.m, Chain()) == old(Rest(heap.m, Chain()))
      ensures chain == NULL || old(Chain()) != [] ==> unchanged(this) && heap.m == old(heap.m)
      ensures chain == NULL <==> old(Chain()) == [] && (!mem || size > CHAIN_MAX - CHAIN_HEADER)
      ensures chain != NULL ==> chain == LastWithData()
      ensures chain != NULL && old(Chain()) == [] ==> size <= heap.m[chain].Space()
    {
      hide Shape, Linked, Stored, Rest, AllEmpty, Elems;
      chain := if LastWithData() == NULL then last else LastWithData();
      if chain == NULL {
        assert data == [];
        chain := NewChunk(size, mem);
        if chain != NULL {
          ChainInsert(chain);
        }
      }
    }

    /** evbuffer_add: appends `bytes`, or returns false and leaves everything as it was. */
    method Add(bytes: seq<byte>, mem: bool) returns (ok: bool)
      requires Valid()
      modifies heap, this`first, this`last, this`lastWithDatap, this`totalLen, this`data, this`spare
      ensures Valid() && Rest(heap.m, Chain()) == old(Rest(heap.m, Chain()))
      ensures ok ==> !freezeEnd && old(totalLen) + |bytes| <= SIZE_MAX && Contents() == old(Contents()) + bytes
      ensures !ok ==> unchanged(this) && heap.m == old(heap.m)
      ensures !freezeEnd && old(totalLen) + |bytes| <= SIZE_MAX && mem && |bytes| <= CHAIN_MAX - CHAIN_HEADER ==> ok
      ensures !freezeEnd && old(totalLen) + |bytes| <= SIZE_MAX && old(TakesInPlace(|bytes|)) ==> ok
    {
      hide Shape, Linked, Stored, Rest, AllEmpty, Elems, LastWithData;
      if freezeEnd || |bytes| > SIZE_MAX - totalLen {
        return false;
      }
      var chain := ChainToFill(|bytes|, mem);
      if chain == NULL {
        return false;
      }
      var c := heap.m[chain];
      if c.Space() >= |bytes| {
        Extend(chain, c.Append(bytes), bytes);
        return true;
      }
      if c.ShouldRealign(|bytes|) {
        Extend(chain, c.Align().Append(bytes), bytes);
        return true;
      }
      ok := AddNewChunk(chain, bytes, mem);
    }

    /** How many bytes fit before the stored ones in the first chunk; an empty chunk can be
        filled from its end. */
    function FrontRoom(): nat
      requires ListOk()
      reads this, heap
    {
      ShapeFacts(heap.m, first, lastWithDatap, data, spare);
      if first == NULL then 0
      else if heap.m[first].off == 0 then |heap.m[first].mem| else heap.m[first].misalign
    }

    /** Writes `c` over the first chunk, which gains the bytes `added` at its front. */
    method ExtendFront(c: Chunk, ghost added: seq<byte>)
      requires Valid() && first != NULL && first in heap.m && heap.m[first].Ok()
      requires c.Ok() && c.next == heap.m[first].next && c.Data() == added + heap.m[first].Data()
      modifies heap, this`totalLen, this`data, this`spare
      ensures Valid() && Chain() == old(Chain()) && Contents() == added + old(Contents())
      ensures heap.m == old(heap.m)[first := c] && Rest(heap.m, Chain()) == old(Rest(heap.m, Chain()))
    {
      hide Linked, Stored, Rest, AllEmpty, Elems;
      assert first in Chain();
      hide Shape;
      ExtendFirst(heap.m, first, lastWithDatap, data, spare, c, added);
      RestUpdate(heap.m, Chain(), first, c);
      assert |c.Data()| == |added| + |heap.m[first].Data()|;
      totalLen := totalLen + (c.off - heap.m[first].off);
      heap.m := heap.m[first := c];
      data, spare := GrownData(data, spare, added), GrownSpare(data, spare, added);
    }

    /** The last part of evbuffer_prepend: a new chunk, filled from its end, in front of the list. */
    method PrependNewChunk(bytes: seq<byte>, mem: bool) returns (ok: bool)
      requires Valid() && first != NULL && bytes != []
      modifies heap, this`first, this`lastWithDatap, this`totalLen, this`data
      ensures Valid() && Rest(heap.m, Chain()) == old(Rest(heap.m, Chain()))
      ensures ok ==> Contents() == bytes + old(Contents())
      ensures !ok ==> unchanged(this) && heap.m == old(heap.m)
      ensures ok <==> mem && |bytes| <= CHAIN_MAX - CHAIN_HEADER
    {
      hide Linked, Stored, Rest, AllEmpty, Elems;
      var chain := first;
      var tmp := NewChunk(|bytes|, mem);
      if tmp == NULL {
        return false;
      }
      label Allocated:
      var c := heap.m[tmp].(misalign := |heap.m[tmp].mem|).PrependInPlace(bytes);
      heap.m := heap.m[tmp := c];
      Untouched@Allocated(tmp);
      LinkToFirst(tmp);
      return true;
    }

    /** Links the chunk `tmp`, which holds data, in front of the list. */
    method LinkToFirst(tmp: Ptr)
      requires Valid() && first != NULL
      requires tmp != NULL && tmp in heap.m && tmp !in Chain() && heap.m[tmp].Ok() && heap.m[tmp].off > 0
      modifies heap, this`first, this`lastWithDatap, this`totalLen, this`data
      ensures Valid() && Contents() == old(heap.m[tmp].Data() + Contents())
      ensures Rest(heap.m, Chain()) == old(Rest(heap.m, Chain() + [tmp]))
    {
      hide Linked, Stored, Rest, Elems;
      var chain := first;
      ghost var linked := heap.m[tmp].(next := chain);
      ShapeFacts(heap.m, first, lastWithDatap, data, spare);
      PushFront(heap.m, first, lastWithDatap, data, spare, tmp);
      assert data == [] ==> spare[0] in spare;
      assert lastWithDatap == NULL && heap.m[chain].off > 0 <==> |data| == 1;
      assert |heap.m[tmp].Data()| == heap.m[tmp].off;
      assert Chain() != [] && ([tmp] + data) + spare == [tmp] + Chain();
      hide Shape;
      RestUpdate(heap.m, Chain() + [tmp], tmp, linked);
      RestSameElems(heap.m[tmp := linked], Chain() + [tmp], [tmp] + Chain());
      first := tmp;
      if lastWithDatap == NULL && heap.m[chain].off > 0 {
        lastWithDatap := tmp;
      }
      heap.m := heap.m[tmp := heap.m[tmp].(next := chain)];
      totalLen := totalLen + heap.m[tmp].off;
      data := [tmp] + data;
    }

    /** The first chunk, allocated if the buffer has none. */
    method EnsureFirst(size: nat, mem: bool) returns (ok: bool)
      requires Valid()
      modifies heap, this`first, this`last, this`lastWithDatap, this`totalLen, this`data, this`spare
      ensures Valid() && Contents() == old(Contents()) && Rest(heap.m, Chain()) == old(Rest(heap.m, Chain()))
      ensures !ok || old(first) != NULL ==> unchanged(this) && heap.m == old(heap.m)
      ensures ok ==> first != NULL && first in heap.m && heap.m[first].Ok()
      ensures !ok <==> old(first) == NULL && (!mem || size > CHAIN_MAX - CHAIN_HEADER)
      ensures ok && old(first) == NULL ==> size <= FrontRoom()
    {
      hide Shape, Linked, Stored, Rest, AllEmpty, Elems;
      if first == NULL {
        ShapeFacts(heap.m, first, lastWithDatap, data, spare);
        var chain := NewChunk(size, mem);
        if chain == NULL {
          return false;
        }
        ChainInsert(chain);
      }
      ShapeFacts(heap.m, first, lastWithDatap, data, spare);
      return true;
    }

    /** evbuffer_prepend on a buffer that has a first chunk. */
    method PrependToFirst(bytes: seq<byte>, mem: bool) returns (ok: bool)
      requires Valid() && first != NULL && first in heap.m && heap.m[first].Ok() && bytes != []
      modifies heap, this`first, this`lastWithDatap, this`totalLen, this`data, this`spare
      ensures Valid() && Rest(heap.m, Chain()) == old(Rest(heap.m, Chain()))
      ensures ok ==> Contents() == bytes + old(Contents())
      ensures ok <==> old(FrontRoom()) >= |bytes| || (mem && |bytes| - old(FrontRoom()) <= CHAIN_MAX - CHAIN_HEADER)
      ensures !ok ==> Contents() == bytes[|bytes| - old(FrontRoom())..] + old(Contents())
    {
      hide Shape, Linked, Stored, Rest, AllEmpty, Elems;
      var c := heap.m[first];
      if c.off == 0 {
        c := c.(misalign := |c.mem|);
        ExtendFront(c, []);
      }
      ok := PrependAligned(c, bytes, mem);
    }

    /** ... with all the room before the first chunk's bytes at `c.misalign`. */
    method PrependAligned(c: Chunk, bytes: seq<byte>, mem: bool) returns (ok: bool)
      requires Valid() && first != NULL && first in heap.m && heap.m[first] == c && c.Ok() && bytes != []
      modifies heap, this`first, this`lastWithDatap, this`totalLen, this`data, this`spare
      ensures Valid() && Rest(heap.m, Chain()) == old(Rest(heap.m, Chain()))
      ensures ok ==> Contents() == bytes + old(Contents())
      ensures ok <==> c.misalign >= |bytes| || (mem && |bytes| - c.misalign <= CHAIN_MAX - CHAIN_HEADER)
      ensures !ok ==> Contents() == bytes[|bytes| - c.misalign..] + old(Contents())
    {
      hide Shape, Linked, Stored, Rest, AllEmpty, Elems;
      if c.misalign >= |bytes| {
        ExtendFront(c.PrependInPlace(bytes), bytes);
        return true;
      }
      var cut := |bytes| - c.misalign;
      ghost var s := Contents();
      if c.misalign > 0 {
        ExtendFront(c.PrependInPlace(bytes[cut..]), bytes[cut..]);
      }
      assert Contents() == bytes[cut..] + s;
      SplitSum(bytes, cut, s);
      ok := PrependNewChunk(bytes[..cut], mem);
    }

    /** True when evbuffer_prepend refuses before it touches anything. */
    predicate PrependRefused(n: nat)
      reads this
    {
      n > 0 && (freezeStart || totalLen + n > SIZE_MAX)
    }

    /** evbuffer_prepend: puts `bytes` in front. When it returns false for want of memory, the
        bytes that fitted into the first chunk have been stored all the same. */
    method Prepend(bytes: seq<byte>, mem: bool) returns (ok: bool)
      requires Valid()
      modifies heap, this`first, this`last, this`lastWithDatap, this`totalLen, this`data, this`spare
      ensures Valid() && Rest(heap.m, Chain()) == old(Rest(heap.m, Chain()))
      ensures ok ==> !old(PrependRefused(|bytes|)) && Contents() == bytes + old(Contents())
      ensures old(PrependRefused(|bytes|)) ==> Contents() == old(Contents())
      ensures !ok && !old(PrependRefused(|bytes|)) ==> old(FrontRoom()) < |bytes|
      ensures !ok && !old(PrependRefused(|bytes|)) ==>
        Contents() == bytes[|bytes| - old(FrontRoom())..] + old(Contents())
      ensures !old(PrependRefused(|bytes|)) && mem && |bytes| <= CHAIN_MAX - CHAIN_HEADER ==> ok
    {
      hide Shape, Linked, Stored, Rest, AllEmpty, Elems;
      if bytes == [] {
        return true;
      }
      if freezeStart || |bytes| > SIZE_MAX - totalLen {
        return false;
      }
      ok := EnsureFirst(|bytes|, mem);
      if ok {
        ok := PrependToFirst(bytes, mem);
      }
    }

    /** Frees whole chunks from the front; returns the first chunk kept and how much of it is to go. */
    method DrainChunks(len: nat) returns (chain: Ptr, remaining: nat)
      requires Valid() && len < totalLen
      modifies heap, this`lastWithDatap, this`data
      ensures Shape(heap.m, chain, lastWithDatap, data, spare) && data != []
      ensures chain in heap.m && heap.m[chain].Ok() && remaining < heap.m[chain].off
      ensures Rest(heap.m, data + spare) == old(Rest(heap.m, data + spare))
      ensures remaining <= |Stored(heap.m, data)| && Stored(heap.m, data)[remaining..] == old(Contents())[len..]
      ensures LastOf(data, spare) == old(LastOf(data, spare))
    {
      hide Linked, Stored, Rest, AllEmpty, Elems;
      chain := first;
      remaining := len;
      LinkedNil(heap.m, NULL);
      FirstWithData(heap.m, chain, lastWithDatap, data, spare);
      hide Shape;
      while remaining >= heap.m[chain].off
        invariant Shape(heap.m, chain, lastWithDatap, data, spare) && data != []
        invariant chain in heap.m && heap.m[chain].Ok() &&
          (|data| == 1 ==> heap.m[chain].Data() == Stored(heap.m, data))
        invariant Rest(heap.m, data + spare) == old(Rest(heap.m, data + spare))
        invariant remaining < |Stored(heap.m, data)| && Stored(heap.m, data)[remaining..] == old(Contents())[len..]
        invariant LastOf(data, spare) == old(LastOf(data, spare))
        decreases |data|
      {
        assert |data| >= 2 by {
          assert |heap.m[chain].Data()| == heap.m[chain].off;
        }
        DropFirst(heap.m, chain, lastWithDatap, data, spare);
        RestDropFirst(heap.m, data, spare);
        var next := heap.m[chain].next;
        remaining := remaining - heap.m[chain].off;
        if lastWithDatap == chain {
          lastWithDatap := NULL;
        }
        heap.ChainFree(chain);
        data := data[1..];
        chain := next;
        FirstWithData(heap.m, chain, lastWithDatap, data, spare);
      }
    }

    /** evbuffer_drain: discards the first `len` bytes, or all of them if there are fewer. */
    method Drain(len: nat) returns (ok: bool)
      requires Valid()
      modifies heap, this`first, this`last, this`lastWithDatap, this`totalLen, this`data, this`spare
      ensures Valid() && Rest(heap.m, Chain()) == old(Rest(heap.m, Chain()))
      ensures ok <==> old(totalLen) == 0 || !freezeStart
      ensures ok ==> Contents() == if len >= old(totalLen) then [] else old(Contents())[len..]
      ensures !ok ==> unchanged(this) && heap.m == old(heap.m)
    {
      hide Linked, Stored, Rest, AllEmpty, Elems;
      if totalLen == 0 {
        return true;
      }
      if freezeStart {
        return false;
      }
      if len >= totalLen {
        WholeList(heap.m, first, lastWithDatap, data, spare);
        RestFreed(heap.m, [], Chain());
        assert [] + Chain() == Chain();
        FreeAllChains(first, Chain());
        ZeroChain();
      } else {
        var chain, remaining := DrainChunks(len);
        ConsumeFirst(heap.m, chain, lastWithDatap, data, spare, remaining);
        assert chain in data + spare;
        RestUpdate(heap.m, Chain(), chain, heap.m[chain].Consume(remaining));
        hide Shape;
        totalLen := totalLen - len;
        first := chain;
        heap.m := heap.m[chain := heap.m[chain].Consume(remaining)];
      }
      return true;
    }

    /** ZERO_CHAIN. */
    method ZeroChain()
      modifies this`first, this`last, this`lastWithDatap, this`totalLen, this`data, this`spare
      ensures Valid() && Chain() == [] && Contents() == []
    {
      first, last, lastWithDatap, totalLen := NULL, NULL, NULL, 0;
      data, spare := [], [];
    }

    /** The loop of advance_last_with_data, from the chunk at position `i` on. */
    method WalkToLastWithData(start: Ptr, ghost all: seq<Ptr>, ghost i0: nat, ghost k0: nat) returns (ghost k: nat)
      requires Linked(heap.m, all, NULL) && i0 < |all| && start == all[i0]
      requires DataEndsAt(heap.m, all, k0, i0 + 1) && lastWithDatap == LinkBefore(all, k0)
      modifies this`lastWithDatap
      ensures DataEndsAt(heap.m, all, k, |all|) && lastWithDatap == LinkBefore(all, k)
    {
      hide Linked;
      var cur := start;
      ghost var i := i0;
      k := k0;
      NextOf(heap.m, all, i);
      while heap.m[cur].next != NULL
        invariant i < |all| && cur == all[i] && cur in heap.m
        invariant heap.m[cur].next == if i + 1 < |all| then all[i + 1] else NULL
        invariant i + 1 < |all| ==> all[i + 1] != NULL
        invariant DataEndsAt(heap.m, all, k, i + 1) && lastWithDatap == LinkBefore(all, k)
        decreases |all| - i
      {
        var chainp := cur;
        cur := heap.m[cur].next;
        i := i + 1;
        NextOf(heap.m, all, i);
        if heap.m[cur].off > 0 {
          lastWithDatap := chainp;
          k := i + 1;
        }
      }
    }

    /** advance_last_with_data: moves the link on to the last chunk of `all` with data. The link
        leads to the last such chunk among the first `known`, or to the first chunk. */
    method AdvanceLastWithData(ghost all: seq<Ptr>, ghost known: nat)
      requires Linked(heap.m, all, NULL) && first == Head(all, NULL)
      requires DataEndsAt(heap.m, all, known, known) && lastWithDatap == LinkBefore(all, known)
      modifies this`lastWithDatap, this`data, this`spare
      ensures ListOk() && data + spare == all
    {
      hide Shape, Linked, Stored, Rest, AllEmpty, Elems;
      ghost var k := known;
      if known >= 2 {
        NextOf(heap.m, all, known - 2);
      }
      if all != [] {
        NextOf(heap.m, all, 0);
      }
      var cur := if lastWithDatap == NULL then first else heap.m[lastWithDatap].next;
      if cur != NULL {
        ghost var i: nat := if known > 0 then known - 1 else 0;
        k := WalkToLastWithData(cur, all, i, if known == 0 && heap.m[cur].off > 0 then 1 else known);
      }
      ShapeOfList(heap.m, all, k);
      data, spare := all[..k], all[k..];
    }
  }
}
