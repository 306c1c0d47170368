/** What the list of an evbuffer looks like, as facts about the heap, and how each kind of edit
    keeps it that way. `data` are the chunks up to the last one that holds data, `spare` the empty
    ones after it, and `link` is the chunk whose `next` field `last_with_datap` points at (NULL when
    it points at the buffer's own `first`). */
module Shapes {
  import opened Bytes
  import opened Addresses
  import opened Chunks
  import opened ChunkLists

  /** The chunk before the last one with data. */
  function LinkTo(data: seq<Ptr>): Ptr {
    if |data| >= 2 then data[|data| - 2] else NULL
  }

  ghost predicate Shape(m: Memory, first: Ptr, link: Ptr, data: seq<Ptr>, spare: seq<Ptr>) {
    && Linked(m, data, Head(spare, NULL)) && Linked(m, spare, NULL) && Disjoint(data, spare)
    && first == Head(data, Head(spare, NULL))
    && AllEmpty(m, spare)
    && (data != [] ==> Last(data) in m && m[Last(data)].off > 0)
    && link == LinkTo(data)
  }

  /** The end of the list. */
  function LastOf(data: seq<Ptr>, spare: seq<Ptr>): Ptr {
    if spare == [] then Last(data) else Last(spare)
  }

  /** `*last_with_datap`: the last chunk with data, or the first chunk if none has any. */
  ghost function Current(data: seq<Ptr>, spare: seq<Ptr>): Ptr {
    if data == [] then Head(spare, NULL) else Last(data)
  }

  lemma ShapeFacts(m: Memory, first: Ptr, link: Ptr, data: seq<Ptr>, spare: seq<Ptr>)
    requires Shape(m, first, link, data, spare)
    ensures forall p :: p in data || p in spare ==> p != NULL && p in m && m[p].Ok()
    ensures data != [] ==> m[Last(data)].next == Head(spare, NULL)
    ensures if |data| >= 2 then link != NULL && link in m && m[link].next == Last(data)
            else link == NULL && first == Current(data, spare)
    ensures first == NULL <==> data == [] && spare == []
    ensures first != NULL ==> first in data || first in spare
    ensures first != NULL && data == [] ==> m[first].off == 0
  {
    LinkedMembers(m, data, Head(spare, NULL));
    LinkedMembers(m, spare, NULL);
    if |data| >= 1 {
      LinkAt(m, data, Head(spare, NULL), |data| - 1);
      assert data[0] in data;
    }
    if |data| >= 2 {
      LinkAt(m, data, Head(spare, NULL), |data| - 2);
    }
    assert spare != [] ==> spare[0] in spare;
  }

  /** The whole list is linked, holds no chunk twice, and its bytes are those of `data`. */
  lemma WholeList(m: Memory, first: Ptr, link: Ptr, data: seq<Ptr>, spare: seq<Ptr>)
    requires Shape(m, first, link, data, spare)
    ensures Linked(m, data + spare, NULL) && first == Head(data + spare, NULL)
    ensures Stored(m, data + spare) == Stored(m, data)
    ensures LastOf(data, spare) == Last(data + spare)
  {
    LinkedConcat(m, data, spare, NULL);
    StoredConcat(m, data, spare);
    StoredEmpty(m, spare);
  }

  /** Changes outside the list do not matter. */
  lemma ShapeFrame(m: Memory, m': Memory, first: Ptr, link: Ptr, data: seq<Ptr>, spare: seq<Ptr>)
    requires Shape(m, first, link, data, spare)
    requires forall p :: p in data || p in spare ==> p in m' && (p in m ==> m'[p] == m[p])
    ensures Shape(m', first, link, data, spare) && Stored(m', data) == Stored(m, data)
  {
    hide Linked, Stored;
    ShapeFacts(m, first, link, data, spare);
    LinkedFrame(m, m', data, Head(spare, NULL));
    LinkedFrame(m, m', spare, NULL);
    StoredFrame(m, m', data);
  }

  /** A list that shares no chunk with the changed one is still there, and still shares none. */
  lemma ShapeKept(m: Memory, a: seq<Ptr>, m': Memory, b: seq<Ptr>, first: Ptr, link: Ptr, data: seq<Ptr>,
      spare: seq<Ptr>)
    requires Shape(m, first, link, data, spare)
    requires Rest(m, a) == Rest(m', b) && Disjoint(data + spare, a)
    ensures Shape(m', first, link, data, spare) && Stored(m', data) == Stored(m, data)
    ensures Disjoint(data + spare, b)
  {
    hide Linked, Stored, Rest;
    ShapeFacts(m, first, link, data, spare);
    forall p | p in data + spare
      ensures p in m' && m'[p] == m[p] && p !in b
    {
      RestKept(m, a, m', b, p);
    }
    ShapeFrame(m, m', first, link, data, spare);
  }

  /** The chunks with data once `added` bytes are stored in the current chunk. */
  ghost function GrownData(data: seq<Ptr>, spare: seq<Ptr>, added: seq<byte>): seq<Ptr> {
    if data == [] && spare != [] && added != [] then [spare[0]] else data
  }

  ghost function GrownSpare(data: seq<Ptr>, spare: seq<Ptr>, added: seq<byte>): seq<Ptr> {
    if data == [] && spare != [] && added != [] then spare[1..] else spare
  }

  /** The first of several empty chunks becomes the only one with data, or stays empty. */
  lemma FillFirst(m: Memory, first: Ptr, link: Ptr, spare: seq<Ptr>, c: Chunk, added: seq<byte>)
    requires Shape(m, first, link, [], spare) && spare != []
    requires c.Ok() && c.next == m[first].next && c.Data() == added
    ensures var m' := m[first := c];
            var d, s := GrownData([], spare, added), GrownSpare([], spare, added);
            Shape(m', first, link, d, s) && d + s == spare && Stored(m', d) == added
  {
    var m' := m[first := c];
    ShapeFacts(m, first, link, [], spare);
    UpdateHead(m, spare, NULL, c);
    assert Linked(m', spare[1..], NULL) && c.next == Head(spare[1..], NULL);
    assert forall p :: p in spare[1..] ==> p in spare && p != first;
    assert |c.Data()| == c.off;
    LinkedSingle(m', first, c.next);
    LinkedNil(m', c.next);
    LinkedNil(m', NULL);
  }

  /** The last chunk with data is rewritten and still holds data. */
  lemma RewriteLast(m: Memory, first: Ptr, link: Ptr, data: seq<Ptr>, spare: seq<Ptr>, c: Chunk, added: seq<byte>)
    requires Shape(m, first, link, data, spare) && data != [] && m[Last(data)].Ok()
    requires c.Ok() && c.next == m[Last(data)].next && c.Data() == m[Last(data)].Data() + added
    ensures var m' := m[Last(data) := c];
            Shape(m', first, link, data, spare) && Stored(m', data) == Stored(m, data) + added
  {
    var m' := m[Last(data) := c];
    hide Linked, Stored;
    UpdateLast(m, data, Head(spare, NULL), c, added);
    assert Last(data) in data && |c.Data()| == |m[Last(data)].Data()| + |added|;
    LinkedMembers(m, spare, NULL);
    LinkedFrame(m, m', spare, NULL);
  }

  /** The current chunk gains bytes at its end. */
  lemma ExtendLast(m: Memory, first: Ptr, link: Ptr, data: seq<Ptr>, spare: seq<Ptr>, c: Chunk, added: seq<byte>)
    requires Shape(m, first, link, data, spare)
    requires var p := Current(data, spare);
      p != NULL && p in m && m[p].Ok() && c.Ok() && c.next == m[p].next && c.Data() == m[p].Data() + added
    ensures var m' := m[Current(data, spare) := c];
            var d, s := GrownData(data, spare, added), GrownSpare(data, spare, added);
            && Shape(m', first, link, d, s) && d + s == data + spare
            && Stored(m', d) == Stored(m, data) + added
            && Current(d, s) == Current(data, spare)
  {
    if data == [] {
      assert spare[0] in spare;
      assert m[first].Data() == [];
      FillFirst(m, first, link, spare, c, added);
    } else {
      RewriteLast(m, first, link, data, spare, c, added);
    }
  }

  /** The first chunk is rewritten while another chunk, or it itself, keeps data. */
  lemma RewriteFirst(m: Memory, first: Ptr, link: Ptr, data: seq<Ptr>, spare: seq<Ptr>, c: Chunk)
    requires Shape(m, first, link, data, spare) && data != []
    requires first in m && m[first].Ok() && c.Ok() && c.next == m[first].next && (|data| == 1 ==> c.off > 0)
    ensures var m' := m[first := c];
            && Shape(m', first, link, data, spare)
            && Stored(m, data) == m[first].Data() + Stored(m, data[1..])
            && Stored(m', data) == c.Data() + Stored(m, data[1..])
  {
    var m' := m[first := c];
    hide Linked, Stored;
    UpdateHead(m, data, Head(spare, NULL), c);
    assert first in data;
    assert Linked(m', spare, NULL) by {
      LinkedMembers(m, spare, NULL);
      LinkedFrame(m, m', spare, NULL);
    }
  }

  /** The first chunk gains bytes at its front. */
  lemma ExtendFirst(m: Memory, first: Ptr, link: Ptr, data: seq<Ptr>, spare: seq<Ptr>, c: Chunk, added: seq<byte>)
    requires Shape(m, first, link, data, spare)
    requires first != NULL && first in m && m[first].Ok()
    requires c.Ok() && c.next == m[first].next && c.Data() == added + m[first].Data()
    ensures var m' := m[first := c];
            var d, s := GrownData(data, spare, added), GrownSpare(data, spare, added);
            && Shape(m', first, link, d, s) && d + s == data + spare
            && Stored(m', d) == added + Stored(m, data)
  {
    if data == [] {
      assert spare[0] in spare;
      assert m[first].Data() == [];
      FillFirst(m, first, link, spare, c, added);
    } else {
      hide Stored, Linked;
      assert |c.Data()| == |added| + |m[first].Data()|;
      RewriteFirst(m, first, link, data, spare, c);
      Assoc(added, m[first].Data(), Stored(m, data[1..]));
    }
  }

  /** The first chunk loses its first `n` bytes but not all of them. */
  lemma ConsumeFirst(m: Memory, first: Ptr, link: Ptr, data: seq<Ptr>, spare: seq<Ptr>, n: nat)
    requires Shape(m, first, link, data, spare) && data != []
    requires first in m && m[first].Ok() && n < m[first].off
    ensures var m' := m[first := m[first].Consume(n)];
            Shape(m', first, link, data, spare) && n <= |Stored(m, data)| && Stored(m', data) == Stored(m, data)[n..]
  {
    hide Shape, Stored;
    RewriteFirst(m, first, link, data, spare, m[first].Consume(n));
    assert |m[first].Data()| == m[first].off;
    DropSum(m[first].Data(), Stored(m, data[1..]), n);
  }

  /** A chunk with data goes in front of the list. */
  lemma PushFront(m: Memory, first: Ptr, link: Ptr, data: seq<Ptr>, spare: seq<Ptr>, p: Ptr)
    requires Shape(m, first, link, data, spare)
    requires p != NULL && p in m && p !in data + spare && m[p].Ok() && m[p].off > 0
    ensures var m' := m[p := m[p].(next := first)];
            && Shape(m', p, if |data| == 1 then p else link, [p] + data, spare)
            && Stored(m', [p] + data) == m[p].Data() + Stored(m, data)
  {
    var m' := m[p := m[p].(next := first)];
    hide Linked, Stored;
    LinkedPush(m, data, Head(spare, NULL), p);
    assert Linked(m', spare, NULL) by {
      LinkedMembers(m, spare, NULL);
      LinkedFrame(m, m', spare, NULL);
    }
  }

  /** The list (first', data', spare') is hung on the end of a list without spare chunks. */
  lemma AppendList(m: Memory, first: Ptr, link: Ptr, data: seq<Ptr>,
                   first': Ptr, link': Ptr, data': seq<Ptr>, spare': seq<Ptr>)
    requires Shape(m, first, link, data, []) && data != []
    requires Shape(m, first', link', data', spare') && data' != []
    requires Disjoint(data, data') && Disjoint(data, spare')
    ensures Last(data) in m
    ensures var m1 := SetLink(m, Last(data), first');
            && Shape(m1, first, LinkTo(data + data'), data + data', spare')
            && Stored(m1, data + data') == Stored(m, data) + Stored(m, data')
            && m1.Keys == m.Keys && (forall q :: q in m && q !in data ==> m1[q] == m[q])
  {
    hide Linked, Stored;
    Join(m, data, data', Head(spare', NULL));
    LinkedMembers(m, spare', NULL);
    LinkedFrame(m, SetLink(m, Last(data), first'), spare', NULL);
  }

  /** The list `chain`, which starts at first', is put in front. */
  lemma PrependList(m: Memory, first: Ptr, link: Ptr, data: seq<Ptr>, spare: seq<Ptr>, first': Ptr, chain: seq<Ptr>)
    requires Shape(m, first, link, data, spare) && data != []
    requires Linked(m, chain, NULL) && chain != [] && first' == chain[0]
    requires Disjoint(chain, data) && Disjoint(chain, spare)
    ensures Last(chain) in m
    ensures var m1 := SetLink(m, Last(chain), first);
            && Shape(m1, first', if |data| == 1 then Last(chain) else link, chain + data, spare)
            && Stored(m1, chain + data) == Stored(m, chain) + Stored(m, data)
            && m1.Keys == m.Keys && (forall q :: q in m && q !in chain ==> m1[q] == m[q])
  {
    hide Linked, Stored;
    Join(m, chain, data, Head(spare, NULL));
    LinkedMembers(m, spare, NULL);
    LinkedFrame(m, SetLink(m, Last(chain), first), spare, NULL);
  }

  /** A chunk goes at the end of a list that has no spare chunks. */
  lemma AttachLast(m: Memory, first: Ptr, link: Ptr, data: seq<Ptr>, p: Ptr)
    requires Shape(m, first, link, data, [])
    requires p != NULL && p in m && p !in data && m[p].Ok() && m[p].next == NULL
    ensures var m' := if data == [] then m else SetLink(m, Last(data), p);
            && m'.Keys == m.Keys && m'[p] == m[p] && (forall q :: q in m && q !in data ==> m'[q] == m[q])
            && (if m[p].off > 0 then
                  Shape(m', Head(data, p), Last(data), data + [p], []) &&
                    Stored(m', data + [p]) == Stored(m, data) + m[p].Data()
                else
                  Shape(m', Head(data, p), link, data, [p]) && Stored(m', data) == Stored(m, data))
  {
    var m' := if data == [] then m else SetLink(m, Last(data), p);
    hide Linked, Stored;
    Relink(m, data, NULL, p);
    LinkedSingle(m', p, NULL);
    LinkedConcat(m', data, [p], NULL);
    StoredConcat(m', data, [p]);
    LinkedNil(m', NULL);
  }

  /** The spare chunks are cut off and freed. */
  lemma CutSpare(m: Memory, first: Ptr, link: Ptr, data: seq<Ptr>, spare: seq<Ptr>)
    requires Shape(m, first, link, data, spare)
    ensures var m0 := m - Elems(spare);
            var m' := if data == [] then m0 else SetLink(m0, Last(data), NULL);
            && Shape(m', Head(data, NULL), link, data, []) && Stored(m', data) == Stored(m, data)
            && Rest(m', data) == Rest(m, data + spare)
            && (data != [] ==> Last(data) in m' && m'[Last(data)] == m[Last(data)].(next := NULL))
  {
    var m0 := m - Elems(spare);
    var m' := if data == [] then m0 else SetLink(m0, Last(data), NULL);
    hide Linked, Stored;
    ShapeFacts(m, first, link, data, spare);
    LinkedFrame(m, m0, data, Head(spare, NULL));
    StoredFrame(m, m0, data);
    Relink(m0, data, Head(spare, NULL), NULL);
    assert data != [] ==> Last(data) in data;
    LinkedNil(m', NULL);
    assert Rest(m', data) == Rest(m, data + spare) by {
      RestFreed(m, data, spare);
      RestSame(m0, m', data);
    }
  }

  /** The list without its first chunk, which is not the last one with data. */
  lemma ShapeTail(m: Memory, first: Ptr, link: Ptr, data: seq<Ptr>, spare: seq<Ptr>)
    requires Shape(m, first, link, data, spare) && |data| >= 2
    ensures first != NULL && first in m && m[first].Ok() && m[first].next == data[1] && data[1] in m && m[data[1]].Ok()
    ensures Shape(m, data[1], LinkTo(data[1..]), data[1..], spare)
    ensures Stored(m, data) == m[first].Data() + Stored(m, data[1..])
    ensures first !in data[1..] && first !in spare
    ensures LinkTo(data[1..]) == if link == first then NULL else link
  {
    assert first in data;
    ShapeFacts(m, first, link, data, spare);
    assert |data| > 2 ==> data[|data| - 2] == data[1..][|data| - 3];
  }

  /** The first chunk is unlinked and freed; it is not the last one with data. */
  lemma DropFirst(m: Memory, first: Ptr, link: Ptr, data: seq<Ptr>, spare: seq<Ptr>)
    requires Shape(m, first, link, data, spare) && |data| >= 2
    ensures first in m && m[first].Ok() && m[first].next == data[1]
    ensures Shape(m - {first}, data[1], LinkTo(data[1..]), data[1..], spare)
    ensures Stored(m, data) == m[first].Data() + Stored(m - {first}, data[1..])
    ensures first !in data[1..] && first !in spare
    ensures LinkTo(data[1..]) == if link == first then NULL else link
  {
    ShapeTail(m, first, link, data, spare);
    ShapeFacts(m, data[1], LinkTo(data[1..]), data[1..], spare);
    hide Shape, Linked, Stored;
    ShapeFrame(m, m - {first}, data[1], LinkTo(data[1..]), data[1..], spare);
  }

  /** The first chunk is there, and holds everything when it is the only one with data. */
  lemma FirstWithData(m: Memory, first: Ptr, link: Ptr, data: seq<Ptr>, spare: seq<Ptr>)
    requires Shape(m, first, link, data, spare) && data != []
    ensures first == data[0] && first in m && m[first].Ok()
    ensures |data| == 1 ==> m[first].Data() == Stored(m, data) && m[first].off > 0
  {
    ShapeFacts(m, first, link, data, spare);
    if |data| == 1 {
      assert data == [first];
      StoredSingle(m, first);
    }
  }

  lemma RestDropFirst(m: Memory, data: seq<Ptr>, spare: seq<Ptr>)
    requires data != [] && data[0] !in data[1..] && data[0] !in spare
    ensures Rest(m - {data[0]}, data[1..] + spare) == Rest(m, data + spare)
  {
    assert Elems(data + spare) == {data[0]} + Elems(data[1..] + spare);
  }

  /** The link to the chunk at position `k` - 1, or the buffer's own. */
  function LinkBefore(all: seq<Ptr>, k: nat): Ptr
    requires k <= |all|
  {
    if k >= 2 then all[k - 2] else NULL
  }

  /** A linked list has the shape of a buffer once it is known where its data ends. */
  lemma ShapeOfList(m: Memory, all: seq<Ptr>, k: nat)
    requires Linked(m, all, NULL) && DataEndsAt(m, all, k, |all|)
    ensures Shape(m, Head(all, NULL), LinkBefore(all, k), all[..k], all[k..])
    ensures all[..k] + all[k..] == all
  {
    assert all == all[..k] + all[k..];
    LinkedConcat(m, all[..k], all[k..], NULL);
  }

  /** The chunks with data split into `a`, about to leave, and `b`, which keeps some data. */
  ghost predicate SplitAt(m: Memory, first: Ptr, link: Ptr, a: seq<Ptr>, b: seq<Ptr>, spare: seq<Ptr>) {
    && b != [] && Shape(m, b[0], link, b, spare)
    && Linked(m, a, b[0]) && first == Head(a, b[0])
    && Disjoint(a, b) && Disjoint(a, spare)
  }

  lemma SplitStart(m: Memory, first: Ptr, link: Ptr, data: seq<Ptr>, spare: seq<Ptr>)
    requires Shape(m, first, link, data, spare) && data != []
    ensures SplitAt(m, first, link, [], data, spare) && Stored(m, []) == []
    ensures data[0] in m && m[data[0]].Ok()
  {
    ShapeFacts(m, first, link, data, spare);
  }

  /** One more chunk leaves; it is not the last one with data. */
  lemma SplitStep(m: Memory, first: Ptr, link: Ptr, a: seq<Ptr>, b: seq<Ptr>, spare: seq<Ptr>, left: nat)
    requires SplitAt(m, first, link, a, b, spare) && b[0] in m && m[b[0]].Ok()
    requires m[b[0]].off <= left < |Stored(m, b)|
    ensures |b| >= 2 && m[b[0]].next == b[1] && b[1] in m && m[b[1]].Ok()
    ensures SplitAt(m, first, LinkTo(b[1..]), a + [b[0]], b[1..], spare)
    ensures Stored(m, b) == m[b[0]].Data() + Stored(m, b[1..])
    ensures Stored(m, a + [b[0]]) == Stored(m, a) + m[b[0]].Data()
    ensures LinkTo(b[1..]) == if link == b[0] then NULL else link
  {
    hide Linked, Stored;
    assert |m[b[0]].Data()| == m[b[0]].off;
    assert |b| >= 2 by {
      FirstWithData(m, b[0], link, b, spare);
    }
    ShapeTail(m, b[0], link, b, spare);
    LinkedSingle(m, b[0], b[1]);
    LinkedConcat(m, a, [b[0]], b[1]);
    StoredConcat(m, a, [b[0]]);
  }

  /** The heap once the chunks `a`, which started the list at `first`, end the list `d` instead. */
  ghost function Spliced(m: Memory, d: seq<Ptr>, first: Ptr, a: seq<Ptr>): Memory {
    SetLink(if d == [] then m else SetLink(m, Last(d), first), Last(a), NULL)
  }

  /** The chunks `a` leave one list for the end of another, whose chunks are `d`. */
  lemma SplitMove(m: Memory, dfirst: Ptr, dlink: Ptr, d: seq<Ptr>,
                  first: Ptr, link: Ptr, a: seq<Ptr>, b: seq<Ptr>, spare: seq<Ptr>)
    requires Shape(m, dfirst, dlink, d, []) && SplitAt(m, first, link, a, b, spare) && a != []
    requires Disjoint(d, a) && Disjoint(d, b) && Disjoint(d, spare)
    ensures var m2 := Spliced(m, d, first, a);
            && m2.Keys == m.Keys && (forall q :: q in m && q !in d && q !in a ==> m2[q] == m[q])
            && Linked(m2, d + a, NULL) && Stored(m2, d + a) == Stored(m, d) + Stored(m, a)
            && Shape(m2, b[0], link, b, spare) && Stored(m2, b) == Stored(m, b)
            && (forall q :: q in m ==> m2[q].off == m[q].off)
  {
    var m1 := if d == [] then m else SetLink(m, Last(d), first);
    var m2 := SetLink(m1, Last(a), NULL);
    hide Linked, Stored;
    if d == [] {
      assert d + a == a;
    } else {
      Join(m, d, a, b[0]);
    }
    assert Linked(m1, d + a, b[0]) && Stored(m1, d + a) == Stored(m, d) + Stored(m, a) by {
      LinkedNil(m, NULL);
    }
    assert Last(d + a) == Last(a);
    Relink(m1, d + a, b[0], NULL);
    assert Shape(m2, b[0], link, b, spare) && Stored(m2, b) == Stored(m, b) by {
      ShapeFacts(m, b[0], link, b, spare);
      ShapeFrame(m, m2, b[0], link, b, spare);
    }
  }

  /** What advance_last_with_data needs to know when the chunks `a` were added after `data`. */
  lemma ListStart(m: Memory, first: Ptr, link: Ptr, data: seq<Ptr>, m': Memory, a: seq<Ptr>)
    requires Shape(m, first, link, data, []) && m'.Keys == m.Keys
    requires forall q :: q in m ==> m'[q].off == m[q].off
    ensures DataEndsAt(m', data + a, |data|, |data|) && link == LinkBefore(data + a, |data|)
    ensures Head(data + a, NULL) == if data == [] then Head(a, NULL) else first
  {
  }

  /** The chunks with data and the spare chunks once the first chunk of the list is gone. */
  ghost function DataAfter(data: seq<Ptr>): seq<Ptr> {
    if data == [] then [] else data[1..]
  }

  ghost function SpareAfter(data: seq<Ptr>, spare: seq<Ptr>): seq<Ptr> {
    if data == [] && spare != [] then spare[1..] else spare
  }

  /** The first chunk is unlinked and freed, whatever it is. */
  lemma DropAny(m: Memory, first: Ptr, link: Ptr, data: seq<Ptr>, spare: seq<Ptr>)
    requires Shape(m, first, link, data, spare) && first != NULL
    ensures var d, s := DataAfter(data), SpareAfter(data, spare);
            var m' := m - {first};
            && first in m && m[first].Ok() && first !in d && first !in s && (first in data || first in spare)
            && m[first].next == Head(d, Head(s, NULL))
            && Shape(m', m[first].next, LinkTo(d), d, s)
            && Stored(m, data) == m[first].Data() + Stored(m', d)
            && (data == [] ==> m[first].off == 0)
            && (|data| == 1 ==> m[first].off == |Stored(m, data)|)
  {
    var m' := m - {first};
    ShapeFacts(m, first, link, data, spare);
    if |data| >= 2 {
      DropFirst(m, first, link, data, spare);
    } else if |data| == 1 {
      assert data == [first] && data[1..] == [];
      StoredSingle(m, first);
      LinkedFrame(m, m', spare, NULL);
    } else {
      assert spare[0] in spare;
      assert m[first].Data() == [];
      UnlinkHead(m, spare, NULL);
    }
  }

  /** The same list seen as one sequence with the position where its data ends. */
  lemma ListView(m: Memory, first: Ptr, link: Ptr, data: seq<Ptr>, spare: seq<Ptr>)
    requires Shape(m, first, link, data, spare)
    ensures Linked(m, data + spare, NULL) && first == Head(data + spare, NULL)
    ensures DataEndsAt(m, data + spare, |data|, |data + spare|) && link == LinkBefore(data + spare, |data|)
    ensures Stored(m, data + spare) == Stored(m, data) && LastOf(data, spare) == Last(data + spare)
    ensures forall i :: 0 <= i < |data + spare| ==>
      (data + spare)[i] in m && m[(data + spare)[i]].Ok() && (data + spare)[i] != NULL
  {
    hide Linked, Stored;
    WholeList(m, first, link, data, spare);
    assert forall i :: 0 <= i < |data + spare| ==>
      (data + spare)[i] in m && m[(data + spare)[i]].Ok() && (data + spare)[i] != NULL by {
      LinkedMembers(m, data + spare, NULL);
    }
    assert forall i :: |data| <= i < |data + spare| ==>
      (data + spare)[i] == spare[i - |data|] && (data + spare)[i] in spare;
  }

  /** And back again. */
  lemma ListViewBack(m: Memory, all: seq<Ptr>, k: nat)
    requires Linked(m, all, NULL) && DataEndsAt(m, all, k, |all|)
    ensures Shape(m, Head(all, NULL), LinkBefore(all, k), all[..k], all[k..]) && all[..k] + all[k..] == all
    ensures Stored(m, all[..k]) == Stored(m, all) && LastOf(all[..k], all[k..]) == Last(all)
  {
    ShapeOfList(m, all, k);
    WholeList(m, Head(all, NULL), LinkBefore(all, k), all[..k], all[k..]);
  }

  /** A bigger chunk with the same bytes takes the place of the last chunk with data. */
  lemma ReplaceLast(m: Memory, first: Ptr, link: Ptr, data: seq<Ptr>, spare: seq<Ptr>, tmp: Ptr)
    requires Shape(m, first, link, data, spare) && data != [] && Last(data) in m && m[Last(data)].Ok()
    requires tmp != NULL && tmp in m && tmp !in data && tmp !in spare && m[tmp].Ok()
    requires m[tmp].next == m[Last(data)].next && m[tmp].Data() == m[Last(data)].Data()
    ensures var m1 := if |data| == 1 then m else SetLink(m, link, tmp);
            var m2 := m1 - {Last(data)};
            var d := data[..|data| - 1] + [tmp];
            && Shape(m2, if |data| == 1 then tmp else first, link, d, spare) && Stored(m2, d) == Stored(m, data)
            && Rest(m2, d + spare) == Rest(m, data + spare + [tmp])
            && tmp in m2 && m2[tmp] == m[tmp]
  {
    var p, a, rest := Last(data), data[..|data| - 1], Head(spare, NULL);
    var m1 := if |data| == 1 then m else SetLink(m, link, tmp);
    var m2 := m1 - {p};
    var d := a + [tmp];
    hide Linked, Stored, Rest, Elems;
    assert data == a + [p];
    assert |data| >= 2 ==> Last(a) == link;
    assert Linked(m, a, p) && p !in a && m[p].next == rest && p !in spare by {
      LinkedConcat(m, a, [p], rest);
      assert p in data && p in [p];
      ShapeFacts(m, first, link, data, spare);
    }
    Relink(m, a, p, tmp);
    ReplacedLinks(m, m1, a, p, tmp, rest);
    assert Linked(m2, spare, NULL) by {
      LinkedMembers(m, spare, NULL);
      LinkedFrame(m, m2, spare, NULL);
    }
    assert |m[tmp].Data()| == m[tmp].off && |m[p].Data()| == m[p].off;
    RestReplace(m, m1, a, p, tmp, spare);
  }

  /** The new chunk takes the place of the old one at the end of the links and of the bytes. */
  lemma ReplacedLinks(m: Memory, m1: Memory, a: seq<Ptr>, p: Ptr, tmp: Ptr, rest: Ptr)
    requires Linked(m1, a, tmp) && Stored(m1, a) == Stored(m, a) && p !in a && tmp !in a && p != tmp && tmp != NULL
    requires p in m && tmp in m && tmp in m1 && m1[tmp] == m[tmp] && m[tmp].Ok() && m[p].Ok()
    requires m[tmp].next == rest && m[tmp].Data() == m[p].Data()
    ensures var m2 := m1 - {p};
      Linked(m2, a + [tmp], rest) && Stored(m2, a + [tmp]) == Stored(m, a + [p])
  {
    hide Linked, Stored;
    var m2 := m1 - {p};
    LinkedMembers(m1, a, tmp);
    LinkedFrame(m1, m2, a, tmp);
    StoredFrame(m1, m2, a);
    LinkedSingle(m2, tmp, rest);
    LinkedConcat(m2, a, [tmp], rest);
    StoredConcat(m, a, [p]);
    StoredSingle(m, p);
    StoredConcat(m2, a, [tmp]);
    StoredSingle(m2, tmp);
  }

  lemma RestReplace(m: Memory, m1: Memory, a: seq<Ptr>, p: Ptr, tmp: Ptr, spare: seq<Ptr>)
    requires m1.Keys == m.Keys && (forall q :: q in m && q !in a ==> m1[q] == m[q])
    requires p !in a && p !in spare && p != tmp
    ensures Rest(m1 - {p}, a + [tmp] + spare) == Rest(m, a + [p] + spare + [tmp])
  {
    assert Elems(a + [p] + spare + [tmp]) == Elems(a + [tmp] + spare) + {p};
    assert forall q :: q in a ==> q in Elems(a + [tmp] + spare);
  }

  /** The bytes of the first chunk come first. */
  lemma FirstChunk(m: Memory, first: Ptr, link: Ptr, data: seq<Ptr>, spare: seq<Ptr>)
    requires Shape(m, first, link, data, spare) && data != []
    ensures first in data + spare && first in m && m[first].Ok() && m[first].Data() <= Stored(m, data)
  {
    FirstWithData(m, first, link, data, spare);
  }
}
