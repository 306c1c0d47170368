/** Moving bytes between two evbuffers by relinking their chunks. */
module EvbufferMoves {
  import opened Bytes
  import opened Addresses
  import opened ChunkLists
  import opened Shapes
  import opened Evbuffers

  /** Two valid buffers on one heap that share no chunk. */
  ghost predicate Apart(a: Evbuffer, b: Evbuffer)
    reads a, b, a.heap, b.heap
  {
    a != b && a.heap == b.heap && a.Valid() && b.Valid() && Disjoint(a.Chain(), b.Chain())
  }

  /** Either one and the same buffer, or two that share no chunk. */
  ghost predicate Compatible(a: Evbuffer, b: Evbuffer)
    reads a, b, a.heap, b.heap
  {
    if a == b then a.Valid() else Apart(a, b)
  }

  /** COPY_CHAIN: the chunks of `src` become those of the empty buffer `dst`. */
  method CopyChain(dst: Evbuffer, src: Evbuffer)
    requires dst != src && dst.heap == src.heap && src.Valid()
    modifies dst`first, dst`last, dst`lastWithDatap, dst`totalLen, dst`data, dst`spare
    ensures dst.Valid() && dst.Chain() == src.Chain() && dst.Contents() == src.Contents()
  {
    dst.first := src.first;
    if src.lastWithDatap == NULL {
      dst.lastWithDatap := NULL;
    } else {
      dst.lastWithDatap := src.lastWithDatap;
    }
    dst.last := src.last;
    dst.totalLen := src.totalLen;
    dst.data, dst.spare := src.data, src.spare;
  }

  /** APPEND_CHAIN: the chunks of `src` are hung on the end of `dst`, which holds data. */
  method AppendChain(dst: Evbuffer, src: Evbuffer)
    requires Apart(dst, src) && dst.data != [] && src.data != []
    modifies dst.heap, dst`first, dst`last, dst`lastWithDatap, dst`totalLen, dst`data, dst`spare
    ensures dst.Valid() && dst.Contents() == old(dst.Contents()) + old(src.Contents())
    ensures dst.Chain() == old(dst.data) + src.Chain()
    ensures Rest(dst.heap.m, dst.Chain()) == old(Rest(dst.heap.m, dst.Chain() + src.Chain()))
  {
    hide Shape, Linked, Stored, Rest, AllEmpty, Elems;
    RestPlus(dst.heap.m, dst.Chain(), src.Chain());
    var chp := dst.FreeTrailingEmptyChains();
    ShapeKept(old(dst.heap.m), old(dst.Chain()), dst.heap.m, dst.data, src.first, src.lastWithDatap, src.data,
      src.spare);
    RestPlus(dst.heap.m, dst.data, src.Chain());
    LinkLists(dst, src, chp);
  }

  /** The relinking in APPEND_CHAIN once the empty chunks of `dst` are gone. */
  method LinkLists(dst: Evbuffer, src: Evbuffer, chp: Ptr)
    requires dst != src && dst.heap == src.heap && dst.ListOk() && dst.spare == [] && dst.data != []
    requires dst.totalLen == |dst.Contents()| && chp == Last(dst.data)
    requires src.Valid() && src.data != [] && Disjoint(dst.data, src.Chain())
    modifies dst.heap, dst`first, dst`last, dst`lastWithDatap, dst`totalLen, dst`data, dst`spare
    ensures dst.Valid() && dst.Contents() == old(dst.Contents()) + old(src.Contents())
    ensures dst.Chain() == old(dst.data) + src.Chain()
    ensures Rest(dst.heap.m, dst.Chain()) == old(Rest(dst.heap.m, dst.data + src.Chain()))
  {
    hide Linked, Stored, Rest, AllEmpty, Elems;
    ghost var m := dst.heap.m;
    ghost var all := dst.data + src.data;
    AppendList(m, dst.first, dst.lastWithDatap, dst.data, src.first, src.lastWithDatap, src.data, src.spare);
    ShapeFacts(m, dst.first, dst.lastWithDatap, dst.data, []);
    ShapeFacts(m, src.first, src.lastWithDatap, src.data, src.spare);
    assert LinkTo(all) == if |src.data| == 1 then chp else src.lastWithDatap;
    assert LastOf(all, src.spare) == src.last;
    assert all + src.spare == dst.data + src.Chain();
    assert chp in dst.data && chp in m;
    hide Shape;
    dst.SetLinkAfter(chp, src.first);
    RestSame(m, dst.heap.m, dst.data + src.Chain());
    if src.lastWithDatap == NULL {
      dst.lastWithDatap := chp;
    } else {
      dst.lastWithDatap := src.lastWithDatap;
    }
    dst.last := src.last;
    dst.totalLen := dst.totalLen + src.totalLen;
    dst.data, dst.spare := all, src.spare;
  }

  /** PREPEND_CHAIN: the chunks of `src` are put in front of those of `dst`, which holds data. */
  method PrependChain(dst: Evbuffer, src: Evbuffer)
    requires Apart(dst, src) && dst.data != [] && src.data != []
    modifies dst.heap, dst`first, dst`lastWithDatap, dst`totalLen, dst`data
    ensures dst.Valid() && dst.Contents() == old(src.Contents()) + old(dst.Contents())
    ensures dst.Chain() == src.Chain() + old(dst.Chain())
    ensures Rest(dst.heap.m, dst.Chain()) == old(Rest(dst.heap.m, dst.Chain() + src.Chain()))
  {
    hide Linked, Stored, Rest, AllEmpty, Elems;
    ghost var m := dst.heap.m;
    ghost var chain := src.Chain();
    WholeList(m, src.first, src.lastWithDatap, src.data, src.spare);
    PrependList(m, dst.first, dst.lastWithDatap, dst.data, dst.spare, src.first, chain);
    ShapeFacts(m, dst.first, dst.lastWithDatap, dst.data, dst.spare);
    assert dst.lastWithDatap == NULL <==> |dst.data| == 1;
    assert src.last == Last(chain) && (chain + dst.data) + dst.spare == chain + dst.Chain();
    RestSameElems(m, dst.Chain() + chain, chain + dst.Chain());
    RestSame(m, SetLink(m, src.last, dst.first), chain + dst.Chain());
    hide Shape;
    dst.heap.m := dst.heap.m[src.last := dst.heap.m[src.last].(next := dst.first)];
    dst.first := src.first;
    dst.totalLen := dst.totalLen + src.totalLen;
    if dst.lastWithDatap == NULL {
      dst.lastWithDatap := src.last;
    }
    dst.data := chain + dst.data;
  }

  /** An empty buffer may still own empty chunks, which are freed before the other's are taken over. */
  method TakeOver(dst: Evbuffer, src: Evbuffer)
    requires Apart(dst, src) && dst.totalLen == 0
    modifies dst.heap, dst`first, dst`last, dst`lastWithDatap, dst`totalLen, dst`data, dst`spare
    ensures dst.Valid() && dst.Contents() == old(src.Contents()) && dst.Chain() == src.Chain()
    ensures Rest(dst.heap.m, dst.Chain()) == old(Rest(dst.heap.m, dst.Chain() + src.Chain()))
  {
    hide Shape, Linked, Stored, Rest, AllEmpty, Elems;
    ghost var m, gone := dst.heap.m, dst.Chain();
    WholeList(m, dst.first, dst.lastWithDatap, dst.data, dst.spare);
    dst.FreeAllChains(dst.first, gone);
    RestFreed(m, [], gone);
    assert [] + gone == gone;
    ShapeKept(m, gone, dst.heap.m, [], src.first, src.lastWithDatap, src.data, src.spare);
    CopyChain(dst, src);
    RestPlus(m, gone, src.Chain());
    RestPlus(dst.heap.m, [], src.Chain());
    assert [] + src.Chain() == src.Chain();
  }

  /** evbuffer_add_buffer: moves all bytes of `inbuf` to the end of `outbuf`. */
  method AddBuffer(outbuf: Evbuffer, inbuf: Evbuffer) returns (ok: bool)
    requires Compatible(outbuf, inbuf)
    modifies outbuf.heap, outbuf, inbuf
    ensures Compatible(outbuf, inbuf)
    ensures Rest(outbuf.heap.m, outbuf.Chain() + inbuf.Chain()) ==
      old(Rest(outbuf.heap.m, outbuf.Chain() + inbuf.Chain()))
    ensures ok <==> old(inbuf.totalLen) == 0 || outbuf == inbuf || !(outbuf.freezeEnd || inbuf.freezeStart)
    ensures ok && outbuf != inbuf ==>
      outbuf.Contents() == old(outbuf.Contents()) + old(inbuf.Contents()) && inbuf.Contents() == []
    ensures !ok || outbuf == inbuf ==> unchanged(outbuf) && unchanged(inbuf) && outbuf.heap.m == old(outbuf.heap.m)
    ensures unchanged(outbuf`freezeStart, outbuf`freezeEnd, inbuf`freezeStart, inbuf`freezeEnd)
  {
    hide Shape, Linked, Stored, Rest, AllEmpty, Elems;
    if inbuf.totalLen == 0 || outbuf == inbuf {
      return true;
    }
    if outbuf.freezeEnd || inbuf.freezeStart {
      return false;
    }
    HasData(inbuf);
    if outbuf.totalLen == 0 {
      TakeOver(outbuf, inbuf);
    } else {
      HasData(outbuf);
      AppendChain(outbuf, inbuf);
    }
    inbuf.ZeroChain();
    assert outbuf.Chain() + [] == outbuf.Chain();
    return true;
  }

  lemma HasData(b: Evbuffer)
    requires b.Valid() && b.totalLen > 0
    ensures b.data != []
  {
    LinkedNil(b.heap.m, NULL);
  }

  /** evbuffer_prepend_buffer: moves all bytes of `inbuf` to the front of `outbuf`. */
  method PrependBuffer(outbuf: Evbuffer, inbuf: Evbuffer) returns (ok: bool)
    requires Compatible(outbuf, inbuf)
    modifies outbuf.heap, outbuf, inbuf
    ensures Compatible(outbuf, inbuf)
    ensures Rest(outbuf.heap.m, outbuf.Chain() + inbuf.Chain()) ==
      old(Rest(outbuf.heap.m, outbuf.Chain() + inbuf.Chain()))
    ensures ok <==> old(inbuf.totalLen) == 0 || outbuf == inbuf || !(outbuf.freezeStart || inbuf.freezeStart)
    ensures ok && outbuf != inbuf ==>
      outbuf.Contents() == old(inbuf.Contents()) + old(outbuf.Contents()) && inbuf.Contents() == []
    ensures !ok || outbuf == inbuf ==> unchanged(outbuf) && unchanged(inbuf) && outbuf.heap.m == old(outbuf.heap.m)
    ensures unchanged(outbuf`freezeStart, outbuf`freezeEnd, inbuf`freezeStart, inbuf`freezeEnd)
  {
    hide Shape, Linked, Stored, Rest, AllEmpty, Elems;
    if inbuf.totalLen == 0 || outbuf == inbuf {
      return true;
    }
    if outbuf.freezeStart || inbuf.freezeStart {
      return false;
    }
    HasData(inbuf);
    if outbuf.totalLen == 0 {
      TakeOver(outbuf, inbuf);
    } else {
      HasData(outbuf);
      PrependChain(outbuf, inbuf);
    }
    inbuf.ZeroChain();
    assert outbuf.Chain() + [] == outbuf.Chain();
    return true;
  }

  /** The loop of evbuffer_remove_buffer: counts the whole chunks that can be moved. The ghost
      results are those chunks and the ones that stay. */
  method ChunksToMove(src: Evbuffer, datlen: nat)
    returns (chain: Ptr, previous: Ptr, nread: nat, ghost a: seq<Ptr>, ghost b: seq<Ptr>)
    requires src.Valid() && datlen < src.totalLen
    modifies src`lastWithDatap
    ensures SplitAt(src.heap.m, src.first, src.lastWithDatap, a, b, src.spare) && a + b == src.data
    ensures chain == b[0] && previous == if a == [] then src.first else Last(a)
    ensures nread == |Stored(src.heap.m, a)| <= datlen
    ensures chain in src.heap.m && src.heap.m[chain].Ok() && datlen - nread < src.heap.m[chain].off
    ensures src.Contents() == Stored(src.heap.m, a) + Stored(src.heap.m, b)
  {
    hide Shape, Linked, Stored, Rest, AllEmpty, Elems, SplitAt;
    ghost var m := src.heap.m;
    HasData(src);
    SplitStart(m, src.first, src.lastWithDatap, src.data, src.spare);
    a, b := [], src.data;
    chain, previous, nread := src.first, src.first, 0;
    assert a + b == src.data && chain == b[0] by {
      FirstWithData(m, src.first, src.lastWithDatap, src.data, src.spare);
    }
    assert Stored(m, a) + Stored(m, b) == src.Contents();
    while src.heap.m[chain].off <= datlen - nread
      invariant SplitAt(m, src.first, src.lastWithDatap, a, b, src.spare) && a + b == src.data
      invariant b != [] && chain == b[0] && previous == if a == [] then src.first else Last(a)
      invariant chain in m && m[chain].Ok()
      invariant nread == |Stored(m, a)| <= datlen && datlen - nread < |Stored(m, b)|
      invariant Stored(m, a) + Stored(m, b) == src.Contents()
      decreases |b|
    {
      SplitStep(m, src.first, src.lastWithDatap, a, b, src.spare, datlen - nread);
      Assoc(Stored(m, a), m[chain].Data(), Stored(m, b[1..]));
      assert |m[chain].Data()| == m[chain].off;
      assert (a + [chain]) + b[1..] == a + b;
      nread := nread + src.heap.m[chain].off;
      previous := chain;
      if src.lastWithDatap == chain {
        src.lastWithDatap := NULL;
      }
      a, b := a + [chain], b[1..];
      chain := src.heap.m[chain].next;
    }
  }

  /** The relinking in evbuffer_remove_buffer once the empty chunks of `dst` are gone. */
  method RelinkMoved(src: Evbuffer, dst: Evbuffer, chp: Ptr, chain: Ptr, previous: Ptr, nread: nat,
      ghost a: seq<Ptr>, ghost b: seq<Ptr>)
    requires src != dst && src.heap == dst.heap && dst.ListOk() && dst.spare == [] && chp == Last(dst.data)
    requires dst.totalLen == |dst.Contents()|
    requires SplitAt(src.heap.m, src.first, src.lastWithDatap, a, b, src.spare)
    requires a != [] && chain == b[0] && previous == Last(a) && nread == |Stored(src.heap.m, a)|
    requires Disjoint(dst.data, a) && Disjoint(dst.data, b) && Disjoint(dst.data, src.spare)
    modifies dst.heap, dst`first, dst`last, dst`lastWithDatap, dst`totalLen, dst`data, dst`spare, src`first
    ensures dst.Valid() && dst.Contents() == old(dst.Contents()) + old(Stored(src.heap.m, a))
    ensures src.first == chain && Shape(src.heap.m, src.first, src.lastWithDatap, b, src.spare)
    ensures Stored(src.heap.m, b) == old(Stored(src.heap.m, b))
    ensures chain in old(src.heap.m) && chain in src.heap.m && src.heap.m[chain] == old(src.heap.m)[chain]
    ensures dst.Chain() == old(dst.data) + a
    ensures Rest(dst.heap.m, dst.Chain()) == old(Rest(dst.heap.m, dst.data + a))
  {
    hide Shape, Linked, Stored, Rest, AllEmpty, Elems, DataEndsAt;
    ghost var m1, all := dst.heap.m, dst.data + a;
    SplitMove(m1, dst.first, dst.lastWithDatap, dst.data, src.first, src.lastWithDatap, a, b, src.spare);
    SplitEnds(m1, src.first, src.lastWithDatap, a, b, src.spare, dst.data);
    ListStart(m1, dst.first, dst.lastWithDatap, dst.data, Spliced(m1, dst.data, src.first, a), a);
    RestSame(m1, Spliced(m1, dst.data, src.first, a), all);
    ShapeFacts(m1, dst.first, dst.lastWithDatap, dst.data, []);
    hide SplitAt, Disjoint, Spliced;
    Splice(src, dst, chp, previous, a);
    src.first := chain;
    dst.AdvanceLastWithData(all, |dst.data|);
    WholeList(dst.heap.m, dst.first, dst.lastWithDatap, dst.data, dst.spare);
    dst.totalLen := dst.totalLen + nread;
  }

  /** `*chp = src->first; dst->last = previous; previous->next = NULL`. */
  method Splice(src: Evbuffer, dst: Evbuffer, chp: Ptr, previous: Ptr, ghost a: seq<Ptr>)
    requires src != dst && src.heap == dst.heap && chp == Last(dst.data) && (chp == NULL <==> dst.data == [])
    requires (chp != NULL ==> chp in dst.heap.m) && previous == Last(a) && previous in dst.heap.m
    modifies dst.heap, dst`first, dst`last
    ensures dst.heap.m == Spliced(old(dst.heap.m), dst.data, src.first, a) && dst.last == previous
    ensures dst.first == if dst.data == [] then src.first else old(dst.first)
  {
    dst.SetLinkAfter(chp, src.first);
    dst.last := previous;
    dst.heap.m := dst.heap.m[previous := dst.heap.m[previous].(next := NULL)];
  }

  lemma SplitEnds(m: Memory, first: Ptr, link: Ptr, a: seq<Ptr>, b: seq<Ptr>, spare: seq<Ptr>, d: seq<Ptr>)
    requires SplitAt(m, first, link, a, b, spare) && a != [] && Disjoint(d, a) && Disjoint(d, b)
    ensures first == a[0] && Last(a) in m && b[0] in m && b[0] !in d && b[0] !in a
  {
    hide Linked, Stored, AllEmpty;
    LinkedMembers(m, a, b[0]);
    ShapeFacts(m, b[0], link, b, spare);
    assert Last(a) in a && b[0] in b;
  }

  /** The middle of evbuffer_remove_buffer: the chunks `a` change lists. */
  method MoveChunks(src: Evbuffer, dst: Evbuffer, chain: Ptr, previous: Ptr, nread: nat, ghost a: seq<Ptr>,
      ghost b: seq<Ptr>)
    requires src != dst && src.heap == dst.heap && dst.Valid()
    requires SplitAt(src.heap.m, src.first, src.lastWithDatap, a, b, src.spare)
    requires a != [] && chain == b[0] && chain in src.heap.m && previous == Last(a) && nread == |Stored(src.heap.m, a)|
    requires Disjoint(a, dst.Chain()) && Disjoint(b + src.spare, dst.Chain())
    modifies dst.heap, dst`first, dst`last, dst`lastWithDatap, dst`totalLen, dst`data, dst`spare, src`first
    ensures dst.Valid() && dst.Contents() == old(dst.Contents()) + old(Stored(src.heap.m, a))
    ensures src.first == chain && Shape(src.heap.m, src.first, src.lastWithDatap, b, src.spare)
    ensures Stored(src.heap.m, b) == old(Stored(src.heap.m, b))
    ensures chain in src.heap.m && src.heap.m[chain] == old(src.heap.m)[chain]
    ensures dst.Chain() == old(dst.data) + a
    ensures Rest(dst.heap.m, dst.Chain()) == old(Rest(dst.heap.m, dst.Chain() + a))
  {
    hide Shape, Linked, Stored, Rest, AllEmpty, Elems;
    ghost var m0, from := dst.heap.m, dst.Chain();
    RestPlus(m0, from, a);
    var chp := dst.FreeTrailingEmptyChains();
    ShapeKept(m0, from, dst.heap.m, dst.data, b[0], src.lastWithDatap, b, src.spare);
    ListKept(m0, from, dst.heap.m, dst.data, a, b[0]);
    assert chain in b + src.spare;
    RestKept(m0, from, dst.heap.m, dst.data, chain);
    RestPlus(dst.heap.m, dst.data, a);
    RelinkMoved(src, dst, chp, chain, previous, nread, a, b);
  }

  lemma ListKept(m: Memory, a: seq<Ptr>, m': Memory, b: seq<Ptr>, ps: seq<Ptr>, rest: Ptr)
    requires Linked(m, ps, rest) && Rest(m, a) == Rest(m', b) && Disjoint(ps, a)
    ensures Linked(m', ps, rest) && Stored(m', ps) == Stored(m, ps) && Disjoint(ps, b)
  {
    hide Linked, Stored, Rest;
    LinkedMembers(m, ps, rest);
    forall p | p in ps
      ensures p in m' && m'[p] == m[p] && p !in b
    {
      RestKept(m, a, m', b, p);
    }
    LinkedFrame(m, m', ps, rest);
    StoredFrame(m, m', ps);
  }

  /** The end of evbuffer_remove_buffer: the first `left` bytes of the first chunk of `src` are
      copied to `dst` and dropped, whether or not the copy succeeded. */
  method CopyTail(src: Evbuffer, dst: Evbuffer, left: nat, mem: bool) returns (ok: bool)
    requires src != dst && src.heap == dst.heap && dst.Valid() && src.ListOk() && src.data != []
    requires Disjoint(dst.Chain(), src.Chain()) && !dst.freezeEnd
    requires src.first in src.heap.m && src.heap.m[src.first].Ok() && left < src.heap.m[src.first].off
    modifies dst.heap, dst`first, dst`last, dst`lastWithDatap, dst`totalLen, dst`data, dst`spare
    ensures dst.Valid() && src.ListOk() && Disjoint(dst.Chain(), src.Chain())
    ensures left <= |old(src.Contents())| && src.Contents() == old(src.Contents())[left..]
    ensures dst.Contents() == if ok then old(dst.Contents()) + old(src.Contents())[..left] else old(dst.Contents())
    ensures mem && old(dst.totalLen) + left <= SIZE_MAX ==> ok
    ensures Rest(dst.heap.m, dst.Chain() + src.Chain()) == old(Rest(dst.heap.m, dst.Chain() + src.Chain()))
  {
    hide Shape, Linked, Stored, Rest, AllEmpty, Elems;
    ghost var m0, d0 := dst.heap.m, dst.Chain();
    var chain := src.first;
    var piece := src.heap.m[chain].Data()[..left];
    FirstChunk(m0, src.first, src.lastWithDatap, src.data, src.spare);
    RestPlus(m0, d0, src.Chain());
    ok := dst.Add(piece, mem);
    ShapeKept(m0, d0, dst.heap.m, dst.Chain(), src.first, src.lastWithDatap, src.data, src.spare);
    RestKept(m0, d0, dst.heap.m, dst.Chain(), chain);
    RestPlus(dst.heap.m, dst.Chain(), src.Chain());
    label Added:
    ConsumeFirst(dst.heap.m, src.first, src.lastWithDatap, src.data, src.spare, left);
    dst.heap.m := dst.heap.m[chain := dst.heap.m[chain].Consume(left)];
    dst.Untouched@Added(chain);
    assert chain in dst.Chain() + src.Chain();
    RestUpdate(old@Added(dst.heap.m), dst.Chain() + src.Chain(), chain, dst.heap.m[chain]);
  }

  /** The first part of evbuffer_remove_buffer: whole chunks change lists. `totalLen` of `src` is
      left to the caller. */
  method MoveWholeChunks(src: Evbuffer, dst: Evbuffer, datlen: nat) returns (nread: nat)
    requires Apart(dst, src) && datlen < src.totalLen
    modifies dst.heap, dst`first, dst`last, dst`lastWithDatap, dst`totalLen, dst`data, dst`spare
    modifies src`first, src`lastWithDatap, src`data
    ensures dst.Valid() && src.ListOk() && src.data != [] && src.last == LastOf(src.data, src.spare)
    ensures Disjoint(dst.Chain(), src.Chain())
    ensures nread <= datlen && src.first in src.heap.m && src.heap.m[src.first].Ok() &&
      datlen - nread < src.heap.m[src.first].off
    ensures nread <= |old(src.Contents())| && src.Contents() == old(src.Contents())[nread..]
    ensures dst.Contents() == old(dst.Contents()) + old(src.Contents())[..nread]
    ensures Rest(dst.heap.m, dst.Chain() + src.Chain()) == old(Rest(dst.heap.m, dst.Chain() + src.Chain()))
  {
    hide Shape, Linked, Stored, Rest, AllEmpty, Elems;
    var chain, previous: Ptr;
    ghost var a, b: seq<Ptr>;
    ghost var m0 := src.heap.m;
    chain, previous, nread, a, b := ChunksToMove(src, datlen);
    assert src.Contents()[..nread] == Stored(m0, a) && src.Contents()[nread..] == Stored(m0, b);
    ghost var keep := b + src.spare;
    assert src.Chain() == a + keep && LastOf(b, src.spare) == LastOf(src.data, src.spare);
    SplitFacts(m0, src.first, src.lastWithDatap, a, b, src.spare);
    if chain != src.first {
      RestRegroup(m0, dst.Chain(), a, keep);
      MoveChunks(src, dst, chain, previous, nread, a, b);
      RestPlus(dst.heap.m, dst.Chain(), keep);
    } else {
      assert a == [] && Stored(m0, a) == [] by {
        LinkedNil(m0, NULL);
      }
      assert a + b == b && a + keep == keep;
    }
    src.data := b;
  }

  lemma SplitFacts(m: Memory, first: Ptr, link: Ptr, a: seq<Ptr>, b: seq<Ptr>, spare: seq<Ptr>)
    requires SplitAt(m, first, link, a, b, spare)
    ensures first == b[0] <==> a == []
    ensures Disjoint(a, b + spare)
  {
    assert a != [] ==> a[0] in a && b[0] in b;
  }

  lemma RestRegroup(m: Memory, d: seq<Ptr>, a: seq<Ptr>, keep: seq<Ptr>)
    ensures Rest(m, d + (a + keep)) == Rest(m, d + a) - Elems(keep)
  {
    RestPlus(m, d + a, keep);
    assert d + (a + keep) == (d + a) + keep;
  }

  lemma SliceTwice(d: seq<byte>, s: seq<byte>, i: nat, j: nat)
    requires i + j <= |s|
    ensures (d + s[..i]) + s[i..][..j] == d + s[..i + j] && s[i..][j..] == s[i + j..]
  {
    assert s[..i] + s[i..][..j] == s[..i + j];
  }

  /** evbuffer_remove_buffer when `src` keeps some of its bytes. */
  method RemovePart(src: Evbuffer, dst: Evbuffer, datlen: nat, mem: bool) returns (ghost kept: nat)
    requires Apart(dst, src) && datlen < src.totalLen && !dst.freezeEnd
    modifies dst.heap, dst`first, dst`last, dst`lastWithDatap, dst`totalLen, dst`data, dst`spare
    modifies src`first, src`lastWithDatap, src`data, src`totalLen
    ensures Apart(dst, src)
    ensures Rest(dst.heap.m, dst.Chain() + src.Chain()) == old(Rest(dst.heap.m, dst.Chain() + src.Chain()))
    ensures kept <= datlen <= |old(src.Contents())| && src.Contents() == old(src.Contents())[datlen..]
    ensures dst.Contents() == old(dst.Contents()) + old(src.Contents())[..kept]
    ensures mem && old(dst.totalLen + src.totalLen) <= SIZE_MAX ==> kept == datlen
  {
    hide Shape, Linked, Stored, Rest, AllEmpty, Elems;
    var nread := MoveWholeChunks(src, dst, datlen);
    var left := datlen - nread;
    ghost var d, s := old(dst.Contents()), old(src.Contents());
    ghost var room := old(dst.totalLen + src.totalLen) <= SIZE_MAX;
    assert room ==> dst.totalLen + left <= SIZE_MAX;
    var ok := CopyTail(src, dst, left, mem);
    kept := if ok then datlen else nread;
    SliceTwice(d, s, nread, left);
    assert src.Contents() == s[datlen..];
    src.totalLen := src.totalLen - (nread + left);
  }

  /** evbuffer_remove_buffer: moves up to `datlen` bytes from the front of `src` to the end of `dst`
      and returns how many, or -1. The ghost result is how many of them reached `dst`: when a chunk
      has to be copied in part and no memory is left, those bytes are lost. */
  method RemoveBuffer(src: Evbuffer, dst: Evbuffer, datlen: nat, mem: bool) returns (n: int, ghost kept: nat)
    requires Compatible(dst, src)
    modifies dst.heap, dst, src
    ensures Compatible(dst, src)
    ensures Rest(dst.heap.m, dst.Chain() + src.Chain()) == old(Rest(dst.heap.m, dst.Chain() + src.Chain()))
    ensures n == -1 <==> datlen > 0 && dst != src && (dst.freezeEnd || src.freezeStart)
    ensures n == -1 || dst == src ==> unchanged(src) && unchanged(dst) && dst.heap.m == old(dst.heap.m)
    ensures n != -1 && dst != src ==> n == if datlen < old(src.totalLen) then datlen else old(src.totalLen)
    ensures n != -1 && dst != src ==> kept <= n <= |old(src.Contents())| && src.Contents() == old(src.Contents())[n..]
    ensures n != -1 && dst != src ==> dst.Contents() == old(dst.Contents()) + old(src.Contents())[..kept]
    ensures n != -1 && dst != src && mem && old(dst.totalLen + src.totalLen) <= SIZE_MAX ==> kept == n
  {
    hide Shape, Linked, Stored, Rest, AllEmpty, Elems;
    n, kept := 0, 0;
    if datlen == 0 || dst == src {
      return 0, 0;
    }
    if dst.freezeEnd || src.freezeStart {
      return -1, 0;
    }
    if datlen >= src.totalLen {
      n, kept := src.totalLen, src.totalLen;
      var ok := AddBuffer(dst, src);
      return n, kept;
    }
    kept := RemovePart(src, dst, datlen, mem);
    n := datlen;
  }
}
