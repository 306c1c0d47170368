/** evbuffer_pullup: making the first bytes of a buffer contiguous. */
module EvbufferPullup {
  import opened Bytes
  import opened Addresses
  import opened Chunks
  import opened ChunkLists
  import opened Shapes
  import opened Evbuffers

  /** Two copies side by side are one copy of both pieces. */
  lemma MemcpyTwice(mem: seq<byte>, at: nat, x: seq<byte>, y: seq<byte>)
    requires at + |x| + |y| <= |mem|
    ensures Memcpy(Memcpy(mem, at, x), at + |x|, y) == Memcpy(mem, at, x + y)
  {
  }

  lemma RestTake(m: Memory, m': Memory, first: Ptr, data: seq<Ptr>, spare: seq<Ptr>, tmp: Ptr, c: Chunk)
    requires data != [] || spare != []
    requires first == Head(data, Head(spare, NULL)) && first != tmp
    requires first !in DataAfter(data) && first !in SpareAfter(data, spare)
    requires m' == m[tmp := c] - {first}
    ensures Rest(m', DataAfter(data) + SpareAfter(data, spare) + [tmp]) == Rest(m, data + spare + [tmp])
  {
    var after := DataAfter(data) + SpareAfter(data, spare);
    if data == [] {
      assert data + spare == [first] + after;
    } else {
      assert data + spare == [first] + after;
    }
    assert Elems(data + spare + [tmp]) == Elems(after + [tmp]) + {first};
    assert tmp in after + [tmp] && tmp in data + spare + [tmp];
  }

  /** One turn of the copying loop: the bytes of `chain` go to position `at` of `tmp` and `chain` is freed. */
  method TakeChunk(buf: Evbuffer, tmp: Ptr, chain: Ptr, at: nat, ghost data: seq<Ptr>, ghost spare: seq<Ptr>)
    returns (next: Ptr)
    requires Shape(buf.heap.m, chain, LinkTo(data), data, spare) && chain != NULL && chain in buf.heap.m
    requires tmp in buf.heap.m && buf.heap.m[tmp].Ok() && tmp !in data + spare
    requires at + buf.heap.m[chain].off <= |buf.heap.m[tmp].mem|
    modifies buf.heap
    ensures old(buf.heap.m)[chain].Ok() && tmp in buf.heap.m
    ensures buf.heap.m[tmp] ==
      old(buf.heap.m)[tmp].(mem := Memcpy(old(buf.heap.m)[tmp].mem, at, old(buf.heap.m)[chain].Data()))
    ensures Shape(buf.heap.m, next, LinkTo(DataAfter(data)), DataAfter(data), SpareAfter(data, spare))
    ensures old(Stored(buf.heap.m, data)) == old(buf.heap.m)[chain].Data() + Stored(buf.heap.m, DataAfter(data))
    ensures Rest(buf.heap.m, DataAfter(data) + SpareAfter(data, spare) + [tmp]) ==
      old(Rest(buf.heap.m, data + spare + [tmp]))
  {
    hide Linked, Stored, Rest, AllEmpty, Elems;
    ghost var m := buf.heap.m;
    ShapeFacts(m, chain, LinkTo(data), data, spare);
    assert data != [] || spare != [];
    next := buf.heap.m[chain].next;
    var c := buf.heap.m[tmp].(mem := Memcpy(buf.heap.m[tmp].mem, at, buf.heap.m[chain].Data()));
    buf.heap.m := buf.heap.m[tmp := c];
    ShapeFrame(m, buf.heap.m, chain, LinkTo(data), data, spare);
    DropAny(buf.heap.m, chain, LinkTo(data), data, spare);
    buf.heap.ChainFree(chain);
    RestTake(m, buf.heap.m, chain, data, spare, tmp, c);
  }

  /** The flags that record which parts of `last_with_datap` went away with the freed chunks. */
  ghost predicate FlagsOk(link: Ptr, tmp: Ptr, bs: seq<Ptr>, removedLwd: bool, removedLwdp: bool) {
    && (removedLwd <==> bs == [])
    && (bs != [] ==> if removedLwdp then |bs| == 1 else link == LinkTo([tmp] + bs))
  }

  /** The flags after the chunk bs[0] is freed. */
  lemma FlagsStep(m: Memory, link: Ptr, tmp: Ptr, bs: seq<Ptr>, rest: Ptr, lastData: Ptr, removedLwd: bool,
      removedLwdp: bool)
    requires Linked(m, bs, rest) && FlagsOk(link, tmp, bs, removedLwd, removedLwdp) && bs != [] && lastData == Last(bs)
    ensures FlagsOk(link, tmp, bs[1..], removedLwd || bs[0] == lastData, removedLwdp || bs[0] == link)
    ensures bs[1..] != [] ==> Last(bs[1..]) == lastData
  {
    assert bs[0] !in bs[1..];
    assert |bs| >= 2 ==> lastData in bs[1..] by {
      assert |bs| >= 2 ==> Last(bs[1..]) == lastData;
    }
    if |bs| == 2 {
      assert [tmp] + bs == [tmp, bs[0], bs[1]];
    } else if |bs| >= 3 {
      assert LinkTo([tmp] + bs) == LinkTo([tmp] + bs[1..]) == bs[|bs| - 2] == bs[1..][|bs| - 3];
      assert LinkTo([tmp] + bs) in bs[1..];
    }
  }

  /** What one turn of the copying loop does to the bytes gathered so far and to the flags. */
  lemma GatherStep(m: Memory, chain: Ptr, bs: seq<Ptr>, ss: seq<Ptr>, mem: seq<byte>, at: nat, copied: seq<byte>,
                   tmp: Ptr, link: Ptr, lastData: Ptr, removedLwd: bool, removedLwdp: bool)
    requires Shape(m, chain, LinkTo(bs), bs, ss) && chain != NULL && chain in m && tmp !in bs + ss
    requires at + |copied| + m[chain].off <= |mem| && (bs != [] ==> lastData == Last(bs))
    requires FlagsOk(link, tmp, bs, removedLwd, removedLwdp)
    ensures m[chain].Ok() && |m[chain].Data()| == m[chain].off
    ensures Memcpy(Memcpy(mem, at, copied), at + |copied|, m[chain].Data()) == Memcpy(mem, at, copied + m[chain].Data())
    ensures FlagsOk(link, tmp, DataAfter(bs), removedLwd || chain == lastData, removedLwdp || chain == link)
    ensures DataAfter(bs) != [] ==> Last(DataAfter(bs)) == lastData && SpareAfter(bs, ss) == ss
    ensures tmp !in DataAfter(bs) + SpareAfter(bs, ss)
    ensures |DataAfter(bs)| + |SpareAfter(bs, ss)| < |bs| + |ss|
  {
    hide Linked;
    ShapeFacts(m, chain, LinkTo(bs), bs, ss);
    MemcpyTwice(mem, at, copied, m[chain].Data());
    if bs != [] {
      FlagsStep(m, link, tmp, bs, Head(ss, NULL), lastData, removedLwd, removedLwdp);
    }
  }

  lemma GatherStart(mem: seq<byte>, at: nat, stored: seq<byte>, link: Ptr, tmp: Ptr, bs: seq<Ptr>)
    requires at <= |mem| && bs != [] && link == LinkTo([tmp] + bs)
    ensures Memcpy(mem, at, []) == mem && [] + stored == stored && FlagsOk(link, tmp, bs, false, false)
  {
  }

  /** The copying loop of evbuffer_pullup. The ghost results are the chunks that are left. */
  method Gather(buf: Evbuffer, tmp: Ptr, start: Ptr, at: nat, want: nat, lastData: Ptr, ghost bs0: seq<Ptr>,
      ghost ss0: seq<Ptr>)
    returns (chain: Ptr, pos: nat, left: nat, removedLwd: bool, removedLwdp: bool, ghost bs: seq<Ptr>,
      ghost ss: seq<Ptr>, ghost copied: seq<byte>)
    requires Shape(buf.heap.m, start, LinkTo(bs0), bs0, ss0) && bs0 != [] && lastData == Last(bs0)
    requires tmp in buf.heap.m && buf.heap.m[tmp].Ok() && tmp !in bs0 + ss0
    requires at + want <= |buf.heap.m[tmp].mem| && want <= |Stored(buf.heap.m, bs0)|
    requires buf.lastWithDatap == LinkTo([tmp] + bs0)
    modifies buf.heap
    ensures Shape(buf.heap.m, chain, LinkTo(bs), bs, ss) && tmp in buf.heap.m && tmp !in bs + ss
    ensures pos == at + |copied| && |copied| + left == want &&
      copied + Stored(buf.heap.m, bs) == old(Stored(buf.heap.m, bs0))
    ensures buf.heap.m[tmp] == old(buf.heap.m)[tmp].(mem := Memcpy(old(buf.heap.m)[tmp].mem, at, copied))
    ensures bs == [] ==> chain == NULL && left == 0
    ensures bs != [] ==> chain != NULL && chain in buf.heap.m && left < buf.heap.m[chain].off
    ensures FlagsOk(buf.lastWithDatap, tmp, bs, removedLwd, removedLwdp)
    ensures Rest(buf.heap.m, bs + ss + [tmp]) == old(Rest(buf.heap.m, bs0 + ss0 + [tmp]))
    ensures chain == NULL ==> ss == []
    ensures chain != NULL ==> ss == ss0 && bs != [] && Last(bs) == lastData
  {
    hide Shape, Linked, Stored, Rest, AllEmpty, Elems, FlagsOk, Memcpy, DataAfter, SpareAfter, LinkTo;
    chain, pos, left, removedLwd, removedLwdp := start, at, want, false, false;
    bs, ss, copied := bs0, ss0, [];
    ghost var c0 := buf.heap.m[tmp];
    GatherStart(c0.mem, at, Stored(buf.heap.m, bs0), buf.lastWithDatap, tmp, bs0);
    ShapeFacts(buf.heap.m, chain, LinkTo(bs), bs, ss);
    while chain != NULL && left >= buf.heap.m[chain].off
      invariant Shape(buf.heap.m, chain, LinkTo(bs), bs, ss) && tmp in buf.heap.m && tmp !in bs + ss
      invariant pos == at + |copied| && |copied| + left == want &&
        copied + Stored(buf.heap.m, bs) == old(Stored(buf.heap.m, bs0))
      invariant buf.heap.m[tmp] == c0.(mem := Memcpy(c0.mem, at, copied))
      invariant chain != NULL ==> chain in buf.heap.m && (bs == [] ==> buf.heap.m[chain].off == 0)
      invariant chain == NULL <==> bs == [] && ss == []
      invariant bs != [] ==> Last(bs) == lastData && ss == ss0
      invariant FlagsOk(buf.lastWithDatap, tmp, bs, removedLwd, removedLwdp)
      invariant Rest(buf.heap.m, bs + ss + [tmp]) == old(Rest(buf.heap.m, bs0 + ss0 + [tmp]))
      decreases |bs| + |ss|
    {
      GatherStep(buf.heap.m, chain, bs, ss, c0.mem, at, copied, tmp, buf.lastWithDatap, lastData, removedLwd,
        removedLwdp);
      ghost var piece := buf.heap.m[chain].Data();
      var off := buf.heap.m[chain].off;
      if chain == lastData {
        removedLwd := true;
      }
      if chain == buf.lastWithDatap {
        removedLwdp := true;
      }
      chain := TakeChunk(buf, tmp, chain, pos, bs, ss);
      pos, left := pos + off, left - off;
      Assoc(copied, piece, Stored(buf.heap.m, DataAfter(bs)));
      bs, ss, copied := DataAfter(bs), SpareAfter(bs, ss), copied + piece;
      ShapeFacts(buf.heap.m, chain, LinkTo(bs), bs, ss);
    }
    LinkedNil(buf.heap.m, NULL);
  }

  /** Copies the part of `chain` that is still wanted to position `pos` of `tmp`. */
  method TakePart(buf: Evbuffer, tmp: Ptr, chain: Ptr, pos: nat, left: nat, ghost bs: seq<Ptr>, ghost ss: seq<Ptr>)
    requires Shape(buf.heap.m, chain, LinkTo(bs), bs, ss) && bs != []
    requires chain in buf.heap.m && left < buf.heap.m[chain].off
    requires tmp in buf.heap.m && buf.heap.m[tmp].Ok() && tmp !in bs + ss && pos + left <= |buf.heap.m[tmp].mem|
    modifies buf.heap
    ensures Shape(buf.heap.m, chain, LinkTo(bs), bs, ss) && tmp in buf.heap.m
    ensures left <= |old(Stored(buf.heap.m, bs))| && Stored(buf.heap.m, bs) == old(Stored(buf.heap.m, bs))[left..]
    ensures buf.heap.m[tmp] ==
      old(buf.heap.m)[tmp].(mem := Memcpy(old(buf.heap.m)[tmp].mem, pos, old(Stored(buf.heap.m, bs))[..left]))
    ensures Rest(buf.heap.m, bs + ss + [tmp]) == old(Rest(buf.heap.m, bs + ss + [tmp]))
  {
    hide Linked, Stored, Rest, AllEmpty, Elems;
    ghost var m := buf.heap.m;
    FirstWithData(m, chain, LinkTo(bs), bs, ss);
    ShapeFacts(m, chain, LinkTo(bs), bs, ss);
    FirstBytes(m, chain, bs, ss, left);
    var c := buf.heap.m[tmp].(mem := Memcpy(buf.heap.m[tmp].mem, pos, buf.heap.m[chain].Data()[..left]));
    buf.heap.m := buf.heap.m[tmp := c];
    assert tmp in bs + ss + [tmp] && chain in bs + ss + [tmp];
    RestUpdate(m, bs + ss + [tmp], tmp, c);
    ShapeFrame(m, buf.heap.m, chain, LinkTo(bs), bs, ss);
    ConsumeFirst(buf.heap.m, chain, LinkTo(bs), bs, ss, left);
    RestUpdate(buf.heap.m, bs + ss + [tmp], chain, buf.heap.m[chain].Consume(left));
    buf.heap.m := buf.heap.m[chain := buf.heap.m[chain].Consume(left)];
  }

  lemma FirstBytes(m: Memory, first: Ptr, data: seq<Ptr>, spare: seq<Ptr>, n: nat)
    requires Shape(m, first, LinkTo(data), data, spare) && data != []
    requires first in m && m[first].Ok() && n <= m[first].off
    ensures n <= |Stored(m, data)| && m[first].Data()[..n] == Stored(m, data)[..n]
  {
    assert Stored(m, data) == m[first].Data() + Stored(m, data[1..]);
    assert |m[first].Data()| == m[first].off;
  }

  /** The link chosen when the chunk that held `last_with_datap` was freed. */
  function RepairedLink(m: Memory, first: Ptr): Ptr
    requires first in m && (m[first].next != NULL ==> m[first].next in m)
  {
    if m[first].next != NULL && m[m[first].next].off > 0 then first else NULL
  }

  /** The end of evbuffer_pullup: `tmp` holds the first bytes and goes in front of what is left. */
  method LinkPulled(buf: Evbuffer, tmp: Ptr, chain: Ptr, removedLwd: bool, removedLwdp: bool,
      ghost bs: seq<Ptr>, ghost ss: seq<Ptr>)
    requires Shape(buf.heap.m, chain, LinkTo(bs), bs, ss)
    requires tmp != NULL && tmp in buf.heap.m && tmp !in bs + ss && buf.heap.m[tmp].Ok() && buf.heap.m[tmp].off > 0
    requires FlagsOk(buf.lastWithDatap, tmp, bs, removedLwd, removedLwdp) && buf.first == tmp
    requires buf.last == if chain == NULL then tmp else LastOf(bs, ss)
    requires bs == [] ==> chain == NULL
    requires buf.totalLen == buf.heap.m[tmp].off + |Stored(buf.heap.m, bs)|
    modifies buf.heap, buf`lastWithDatap, buf`data, buf`spare
    ensures buf.Valid() && buf.Contents() == old(buf.heap.m[tmp].Data() + Stored(buf.heap.m, bs))
    ensures buf.first in buf.heap.m && buf.heap.m[buf.first] == old(buf.heap.m)[tmp].(next := chain)
    ensures Rest(buf.heap.m, buf.Chain()) == old(Rest(buf.heap.m, bs + ss + [tmp]))
  {
    hide Linked, Stored, Rest, AllEmpty, Elems;
    ghost var m := buf.heap.m;
    ShapeFacts(m, chain, LinkTo(bs), bs, ss);
    PushFront(m, chain, LinkTo(bs), bs, ss, tmp);
    assert |m[tmp].Data()| == m[tmp].off;
    assert ([tmp] + bs) + ss == [tmp] + (bs + ss);
    assert LinkTo([tmp] + bs) == if |bs| == 1 then tmp else LinkTo(bs);
    assert bs != [] ==> chain == bs[0] && chain in bs;
    assert |bs| == 1 ==> m[chain].off > 0;
    assert tmp in bs + ss + [tmp];
    RestUpdate(m, bs + ss + [tmp], tmp, m[tmp].(next := chain));
    RestSameElems(m[tmp := m[tmp].(next := chain)], bs + ss + [tmp], [tmp] + (bs + ss));
    hide Shape;
    buf.heap.m := buf.heap.m[tmp := buf.heap.m[tmp].(next := chain)];
    if removedLwd {
      buf.lastWithDatap := NULL;
    } else if removedLwdp {
      buf.lastWithDatap := RepairedLink(buf.heap.m, buf.first);
    }
    buf.data, buf.spare := [tmp] + bs, ss;
  }

  /** The bytes of `tmp` once everything wanted has been copied in. */
  lemma PulledBytes(c0: Chunk, c1: Chunk, at: nat, pre: seq<byte>, got: seq<byte>, rest: seq<byte>)
    requires c0.Ok() && at == c0.misalign + |pre| && c0.off == |pre| + |got| && c0.mem[c0.misalign..at] == pre
    requires c1 == c0.(mem := Memcpy(c0.mem, at, got))
    ensures c1.Ok() && c1.Data() == pre + got && c1.Data() + rest == pre + (got + rest)
  {
    assert Memcpy(c0.mem, at, got)[c0.misalign..at + |got|] == c0.mem[c0.misalign..at] + got;
  }

  /** The second half of evbuffer_pullup: `tmp` already holds the bytes `pre`, ending at `at`, and
      receives `want` more from the list bs0, ss0 that starts at `start`. */
  method PullInto(buf: Evbuffer, tmp: Ptr, start: Ptr, at: nat, want: nat, lastData: Ptr,
                  ghost bs0: seq<Ptr>, ghost ss0: seq<Ptr>, ghost pre: seq<byte>)
    requires Shape(buf.heap.m, start, LinkTo(bs0), bs0, ss0) && bs0 != [] && lastData == Last(bs0)
    requires tmp != NULL && tmp in buf.heap.m && buf.heap.m[tmp].Ok() && tmp !in bs0 + ss0
    requires buf.heap.m[tmp].off == |pre| + want > 0 && at == buf.heap.m[tmp].misalign + |pre|
    requires buf.heap.m[tmp].mem[buf.heap.m[tmp].misalign..at] == pre
    requires want <= |Stored(buf.heap.m, bs0)| && buf.first == tmp
    requires buf.lastWithDatap == LinkTo([tmp] + bs0) && buf.last == LastOf(bs0, ss0)
    requires buf.totalLen == |pre| + |Stored(buf.heap.m, bs0)|
    modifies buf.heap, buf`last, buf`lastWithDatap, buf`data, buf`spare
    ensures buf.Valid() && buf.Contents() == pre + old(Stored(buf.heap.m, bs0))
    ensures buf.first in buf.heap.m && buf.heap.m[buf.first].Ok()
    ensures buf.heap.m[buf.first].off == |pre| + want && buf.heap.m[buf.first].Data() <= buf.Contents()
    ensures Rest(buf.heap.m, buf.Chain()) == old(Rest(buf.heap.m, bs0 + ss0 + [tmp]))
  {
    hide Shape, Linked, Stored, Rest, AllEmpty, Elems, FlagsOk;
    var chain, pos, left, removedLwd, removedLwdp;
    ghost var bs, ss, copied;
    ghost var c0 := buf.heap.m[tmp];
    chain, pos, left, removedLwd, removedLwdp, bs, ss, copied := Gather(buf, tmp, start, at, want, lastData, bs0, ss0);
    ghost var rest := Stored(buf.heap.m, bs);
    assert left <= |rest| && copied + rest[..left] + rest[left..] == copied + rest;
    if chain != NULL {
      MemcpyTwice(c0.mem, at, copied, rest[..left]);
      TakePart(buf, tmp, chain, pos, left, bs, ss);
    } else {
      assert copied + rest[..left] == copied && rest[left..] == rest;
      buf.last := tmp;
    }
    PulledBytes(c0, buf.heap.m[tmp], at, pre, copied + rest[..left], rest[left..]);
    LinkPulled(buf, tmp, chain, removedLwd, removedLwdp, bs, ss);
  }

  /** How many bytes the first chunk can hold without moving those it has. */
  ghost function FirstHolds(buf: Evbuffer): int
    reads buf, buf.heap
    requires buf.first in buf.heap.m
  {
    |buf.heap.m[buf.first].mem| - buf.heap.m[buf.first].misalign
  }

  /** evbuffer_pullup: afterwards the first `size` bytes are the start of the first chunk, and with a
      negative size the first chunk holds all there are. */
  method Pullup(buf: Evbuffer, size: int, mem: bool) returns (ok: bool)
    requires buf.Valid()
    modifies buf.heap, buf`first, buf`last, buf`lastWithDatap, buf`data, buf`spare
    ensures buf.Valid() && buf.Contents() == old(buf.Contents())
    ensures Rest(buf.heap.m, buf.Chain()) == old(Rest(buf.heap.m, buf.Chain()))
    ensures ok ==> size != 0 && size <= |buf.Contents()| && buf.Contents() != []
    ensures ok ==> buf.first in buf.heap.m && buf.heap.m[buf.first].Ok() && size <= buf.heap.m[buf.first].off
    ensures ok ==> buf.heap.m[buf.first].Data() <= buf.Contents()
    ensures ok && size < 0 ==> buf.heap.m[buf.first].Data() == buf.Contents()
    ensures !ok ==> unchanged(buf) && buf.heap.m == old(buf.heap.m)
    ensures mem && size < 0 && 0 < |buf.Contents()| <= CHAIN_MAX - CHAIN_HEADER ==> ok
    ensures mem && 0 < size <= |buf.Contents()| && size <= CHAIN_MAX - CHAIN_HEADER ==> ok
    ensures old(0 < size <= |buf.Contents()| && size <= buf.heap.m[buf.first].off) ==> ok && unchanged(buf)
    ensures old(0 < size <= |buf.Contents()| && size <= FirstHolds(buf)) ==> ok
    ensures old(size < 0 < |buf.Contents()| <= FirstHolds(buf)) ==> ok
  {
    hide Shape, Linked, Stored, Rest, AllEmpty, Elems;
    var n := if size < 0 then buf.totalLen else size;
    if n == 0 || n > buf.totalLen {
      return false;
    }
    ghost var m := buf.heap.m;
    assert buf.data != [] by {
      LinkedNil(m, NULL);
    }
    FirstWithData(m, buf.first, buf.lastWithDatap, buf.data, buf.spare);
    var chain := buf.first;
    var c := buf.heap.m[chain];
    if c.off >= n {
      FirstChunk(m, buf.first, buf.lastWithDatap, buf.data, buf.spare);
      return true;
    }
    assert |c.Data()| == c.off;
    if |c.mem| - c.misalign >= n {
      PullIntoFirst(buf, n);
    } else {
      ok := PullIntoNew(buf, n, mem);
      return ok;
    }
    return true;
  }

  /** The first chunk has room for everything wanted after its own bytes. */
  method PullIntoFirst(buf: Evbuffer, n: nat)
    requires buf.Valid() && |buf.data| >= 2 && n <= buf.totalLen
    requires buf.first in buf.heap.m && buf.heap.m[buf.first].Ok()
    requires buf.heap.m[buf.first].off < n <= |buf.heap.m[buf.first].mem| - buf.heap.m[buf.first].misalign
    modifies buf.heap, buf`last, buf`lastWithDatap, buf`data, buf`spare
    ensures buf.Valid() && buf.Contents() == old(buf.Contents())
    ensures Rest(buf.heap.m, buf.Chain()) == old(Rest(buf.heap.m, buf.Chain()))
    ensures buf.first in buf.heap.m && buf.heap.m[buf.first].Ok() && n <= buf.heap.m[buf.first].off
    ensures buf.heap.m[buf.first].Data() <= buf.Contents()
  {
    hide Linked, Stored, Rest, AllEmpty, Elems;
    ghost var m, all, bs := buf.heap.m, buf.Chain(), buf.data[1..];
    var tmp, lastData := buf.first, buf.LastWithData();
    var c := buf.heap.m[tmp];
    ShapeTail(m, tmp, buf.lastWithDatap, buf.data, buf.spare);
    ShapeFacts(m, buf.data[1], LinkTo(bs), bs, buf.spare);
    assert [tmp] + bs == buf.data && LastOf(bs, buf.spare) == buf.last && lastData == Last(bs);
    assert |c.Data()| == c.off;
    buf.heap.m := buf.heap.m[tmp := c.(off := n)];
    ShapeFrame(m, buf.heap.m, buf.data[1], LinkTo(bs), bs, buf.spare);
    assert all == [tmp] + (bs + buf.spare);
    RestUpdate(m, all, tmp, c.(off := n));
    RestSameElems(buf.heap.m, all, bs + buf.spare + [tmp]);
    hide Shape;
    PullInto(buf, tmp, c.next, c.misalign + c.off, n - c.off, lastData, bs, buf.spare, c.Data());
  }

  /** The bytes wanted are collected in a new chunk. */
  method PullIntoNew(buf: Evbuffer, n: nat, mem: bool) returns (ok: bool)
    requires buf.Valid() && |buf.data| >= 2 && 0 < n <= buf.totalLen
    modifies buf.heap, buf`first, buf`last, buf`lastWithDatap, buf`data, buf`spare
    ensures buf.Valid() && buf.Contents() == old(buf.Contents())
    ensures Rest(buf.heap.m, buf.Chain()) == old(Rest(buf.heap.m, buf.Chain()))
    ensures ok ==> buf.first in buf.heap.m && buf.heap.m[buf.first].Ok() && n <= buf.heap.m[buf.first].off
    ensures ok ==> buf.heap.m[buf.first].Data() <= buf.Contents()
    ensures !ok ==> unchanged(buf) && buf.heap.m == old(buf.heap.m)
    ensures ok <==> mem && n <= CHAIN_MAX - CHAIN_HEADER
  {
    hide Shape, Linked, Stored, Rest, AllEmpty, Elems;
    var lastData := buf.LastWithData();
    var tmp := buf.NewChunk(n, mem);
    if tmp == NULL {
      return false;
    }
    label Allocated:
    buf.heap.m := buf.heap.m[tmp := buf.heap.m[tmp].(off := n)];
    buf.Untouched@Allocated(tmp);
    assert LinkTo([tmp] + buf.data) == LinkTo(buf.data) == buf.lastWithDatap by {
      LinkIs(buf.heap.m, buf.first, buf.lastWithDatap, buf.data, buf.spare);
    }
    var chain := buf.first;
    buf.first := tmp;
    PullInto(buf, tmp, chain, 0, n, lastData, buf.data, buf.spare, []);
    return true;
  }

  lemma LinkIs(m: Memory, first: Ptr, link: Ptr, data: seq<Ptr>, spare: seq<Ptr>)
    requires Shape(m, first, link, data, spare)
    ensures link == LinkTo(data)
  {
  }
}
