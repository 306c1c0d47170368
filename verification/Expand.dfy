/** Making room at the end of an evbuffer and committing bytes written there. */
module EvbufferExpand {
  import opened Bytes
  import opened Addresses
  import opened Chunks
  import opened ChunkLists
  import opened Shapes
  import opened Evbuffers

  /** A piece of chunk memory handed out for writing: `len` bytes from position `at` of the block. */
  datatype Iovec = Iovec(chain: Ptr, at: nat, len: nat)

  /** A chunk that counts `len` bytes already present after its data as stored. */
  function Committed(c: Chunk, len: nat): (r: Chunk)
    requires c.Ok() && len <= c.Space()
    ensures r.Ok() && r.next == c.next && r.mem == c.mem && r.off == c.off + len
    ensures r.Data() == c.Data() + Slice(c, len)
  {
    c.(off := c.off + len)
  }

  /** The `len` bytes of memory that follow the stored ones. */
  function Slice(c: Chunk, len: nat): seq<byte>
    requires c.Ok() && len <= c.Space()
  {
    c.mem[c.misalign + c.off..c.misalign + c.off + len]
  }

  /** Committing bytes in the chunk at position `j`, which nothing with data follows. */
  lemma CommitAt(m: Memory, all: seq<Ptr>, k: nat, j: nat, len: nat)
    requires Linked(m, all, NULL) && DataEndsAt(m, all, k, |all|) && j < |all| && k <= j + 1
    requires all[j] in m && m[all[j]].Ok() && len <= m[all[j]].Space()
    ensures var m' := m[all[j] := Committed(m[all[j]], len)];
            && Linked(m', all, NULL)
            && DataEndsAt(m', all, if len > 0 then j + 1 else k, |all|) && DataEndsAt(m', all, k, k)
            && Stored(m', all) == Stored(m, all) + Slice(m[all[j]], len)
            && (forall i :: j < i < |all| ==> all[i] in m' && m'[all[i]] == m[all[i]])
  {
    hide Linked, Stored;
    CommitBytes(m, all, k, j, len);
    LinkedDistinctFrom(m, all, NULL, j);
  }

  lemma CommitBytes(m: Memory, all: seq<Ptr>, k: nat, j: nat, len: nat)
    requires Linked(m, all, NULL) && DataEndsAt(m, all, k, |all|) && j < |all| && k <= j + 1
    requires all[j] in m && m[all[j]].Ok() && len <= m[all[j]].Space()
    ensures var m' := m[all[j] := Committed(m[all[j]], len)];
            Linked(m', all, NULL) && Stored(m', all) == Stored(m, all) + Slice(m[all[j]], len)
  {
    hide Linked, Stored;
    assert all[..j] + [all[j]] + all[j + 1..] == all;
    UpdateBeforeEmpty(m, all[..j], all[j], all[j + 1..], Committed(m[all[j]], len), Slice(m[all[j]], len));
  }

  /** The bytes that the vectors cover. */
  ghost function VecBytes(m: Memory, vec: seq<Iovec>): seq<byte> {
    if vec == [] then []
    else
      var v := vec[|vec| - 1];
      VecBytes(m, vec[..|vec| - 1]) +
      (if v.chain in m && v.at + v.len <= |m[v.chain].mem| then m[v.chain].mem[v.at..v.at + v.len] else [])
  }

  /** Vector `v` starts where the free space of chunk `p` starts, and ends inside it. */
  predicate FitsOne(m: Memory, v: Iovec, p: Ptr) {
    p in m && m[p].Ok() && v.chain == p && v.at == m[p].misalign + m[p].off && v.len <= m[p].Space()
  }

  /** The vectors are the free spaces, or starts of them, of the first chunks of `ps`. */
  ghost predicate Fits(m: Memory, vec: seq<Iovec>, ps: seq<Ptr>) {
    |vec| <= |ps| && forall i :: 0 <= i < |vec| ==> FitsOne(m, vec[i], ps[i])
  }

  /** Position, in the whole list, of the first chunk with room: the last one with data if it has
      any, else the one after it. */
  ghost function FirstWritable(m: Memory, data: seq<Ptr>, spare: seq<Ptr>): nat {
    var cur := if data == [] then 0 else |data| - 1;
    var all := data + spare;
    if cur < |all| && all[cur] in m && m[all[cur]].Ok() && m[all[cur]].Space() == 0 then cur + 1 else cur
  }

  /** The chunks from the first one with room on. */
  ghost function Writable(m: Memory, data: seq<Ptr>, spare: seq<Ptr>): seq<Ptr> {
    var s := FirstWritable(m, data, spare);
    if s <= |data + spare| then (data + spare)[s..] else []
  }

  /** The room after the stored bytes of a chunk. */
  function SpaceOf(m: Memory, p: Ptr): nat {
    if p in m && m[p].Ok() then m[p].Space() else 0
  }

  /** The first pass of evbuffer_commit_space: are the vectors in bounds? */
  method CheckVecs(buf: Evbuffer, start: Ptr, vec: seq<Iovec>, ghost all: seq<Ptr>, ghost s: nat) returns (ok: bool)
    requires Linked(buf.heap.m, all, NULL) && s <= |all| && start == Head(all[s..], NULL)
    ensures ok <==> Fits(buf.heap.m, vec, all[s..])
  {
    hide Linked;
    var chain := start;
    var i := 0;
    if s < |all| {
      NextOf(buf.heap.m, all, s);
    }
    while i < |vec|
      invariant i <= |vec| && s + i <= |all|
      invariant chain == if s + i < |all| then all[s + i] else NULL
      invariant s + i < |all| ==> all[s + i] != NULL
      invariant forall t :: 0 <= t < i ==> FitsOne(buf.heap.m, vec[t], all[s..][t])
    {
      if chain == NULL {
        return false;
      }
      NextOf(buf.heap.m, all, s + i);
      if !FitsOne(buf.heap.m, vec[i], chain) {
        assert all[s..][i] == chain;
        return false;
      }
      chain := buf.heap.m[chain].next;
      i := i + 1;
    }
    return true;
  }

  lemma VecBytesStep(m: Memory, vec: seq<Iovec>, i: nat, p: Ptr)
    requires i < |vec| && FitsOne(m, vec[i], p)
    ensures VecBytes(m, vec[..i + 1]) == VecBytes(m, vec[..i]) + Slice(m[p], vec[i].len)
    ensures |Slice(m[p], vec[i].len)| == vec[i].len
  {
    assert vec[..i + 1][..i] == vec[..i];
  }

  lemma VecBytesOne(m: Memory, vec: seq<Iovec>, p: Ptr)
    requires |vec| == 1 && FitsOne(m, vec[0], p)
    ensures VecBytes(m, vec) == Slice(m[p], vec[0].len) && |Slice(m[p], vec[0].len)| == vec[0].len
  {
    VecBytesStep(m, vec, 0, p);
    assert vec[..0 + 1] == vec && vec[..0] == [];
  }

  /** The link to position `j` of the list `all`. */
  ghost function LinkInto(all: seq<Ptr>, j: nat): Ptr
    requires j <= |all|
  {
    if j == 0 then NULL else all[j - 1]
  }

  /** The second pass of evbuffer_commit_space: counts the bytes of every vector as stored. */
  method CommitVecs(buf: Evbuffer, firstChainp: Ptr, vec: seq<Iovec>, ghost all: seq<Ptr>, ghost s: nat, ghost k0: nat)
    returns (added: nat, ghost k: nat)
    requires Linked(buf.heap.m, all, NULL) && DataEndsAt(buf.heap.m, all, k0, |all|) && k0 <= s + 1 <= |all| + 1 &&
      k0 <= |all|
    requires Fits(buf.heap.m, vec, all[s..]) && firstChainp == LinkInto(all, s)
    requires buf.first == Head(all, NULL) && buf.lastWithDatap == LinkBefore(all, k0)
    modifies buf.heap, buf`lastWithDatap
    ensures Linked(buf.heap.m, all, NULL) && DataEndsAt(buf.heap.m, all, k, |all|) &&
      buf.lastWithDatap == LinkBefore(all, k)
    ensures Stored(buf.heap.m, all) == old(Stored(buf.heap.m, all) + VecBytes(buf.heap.m, vec))
    ensures added == |old(VecBytes(buf.heap.m, vec))| && k <= |all|
    ensures Rest(buf.heap.m, all) == old(Rest(buf.heap.m, all))
  {
    hide Linked, Stored, Rest, DataEndsAt, LinkBefore, Slice, Elems;
    ghost var m0 := buf.heap.m;
    added, k := 0, k0;
    var chainp := firstChainp;
    var i := 0;
    assert VecBytes(m0, vec[..0]) == [] && vec[..|vec|] == vec;
    assert Stored(m0, all) + [] == Stored(m0, all);
    LinkedMembers(m0, all, NULL);
    hide VecBytes, Fits;
    while i < |vec|
      invariant i <= |vec| && s + i <= |all| && chainp == LinkInto(all, s + i) && k <= s + i + 1 && k <= |all|
      invariant Linked(buf.heap.m, all, NULL) && DataEndsAt(buf.heap.m, all, k, |all|) &&
        buf.lastWithDatap == LinkBefore(all, k)
      invariant forall j :: s + i <= j < |all| ==>
        all[j] in buf.heap.m && all[j] in m0 && buf.heap.m[all[j]] == m0[all[j]]
      invariant Stored(buf.heap.m, all) == Stored(m0, all) + VecBytes(m0, vec[..i])
      invariant added == |VecBytes(m0, vec[..i])|
      invariant Rest(buf.heap.m, all) == Rest(m0, all)
    {
      FitsAt(m0, vec, all, s, i);
      CommitVec(buf, chainp, vec[i], all, s + i, k);
      VecBytesStep(m0, vec, i, all[s + i]);
      Assoc(Stored(m0, all), VecBytes(m0, vec[..i]), Slice(m0[all[s + i]], vec[i].len));
      added := added + vec[i].len;
      k := if vec[i].len > 0 then s + i + 1 else k;
      chainp := vec[i].chain;
      i := i + 1;
    }
  }

  lemma FitsAt(m: Memory, vec: seq<Iovec>, all: seq<Ptr>, s: nat, i: nat)
    requires s <= |all| && Fits(m, vec, all[s..]) && i < |vec|
    ensures s + i < |all| && FitsOne(m, vec[i], all[s + i])
  {
    assert all[s..][i] == all[s + i];
  }

  /** One vector of the second pass. */
  method CommitVec(buf: Evbuffer, chainp: Ptr, v: Iovec, ghost all: seq<Ptr>, ghost j: nat, ghost k: nat)
    requires Linked(buf.heap.m, all, NULL) && DataEndsAt(buf.heap.m, all, k, |all|) && j < |all| && k <= j + 1
    requires FitsOne(buf.heap.m, v, all[j]) && chainp == LinkInto(all, j)
    requires buf.first == Head(all, NULL) && buf.lastWithDatap == LinkBefore(all, k)
    modifies buf.heap, buf`lastWithDatap
    ensures Linked(buf.heap.m, all, NULL)
    ensures var k' := if v.len > 0 then j + 1 else k;
            DataEndsAt(buf.heap.m, all, k', |all|) && buf.lastWithDatap == LinkBefore(all, k')
    ensures Stored(buf.heap.m, all) == old(Stored(buf.heap.m, all) + Slice(buf.heap.m[all[j]], v.len))
    ensures Rest(buf.heap.m, all) == old(Rest(buf.heap.m, all))
    ensures forall t :: j < t < |all| ==>
      all[t] in buf.heap.m && all[t] in old(buf.heap.m) && buf.heap.m[all[t]] == old(buf.heap.m)[all[t]]
  {
    hide Linked, Stored, Rest;
    CommitAt(buf.heap.m, all, k, j, v.len);
    RestUpdate(buf.heap.m, all, all[j], Committed(buf.heap.m[all[j]], v.len));
    if j > 0 {
      NextOf(buf.heap.m, all, j - 1);
    }
    var cur := if chainp == NULL then buf.first else buf.heap.m[chainp].next;
    buf.heap.m := buf.heap.m[cur := Committed(buf.heap.m[cur], v.len)];
    if v.len > 0 {
      buf.lastWithDatap := chainp;
    }
  }

  /** Vectors that evbuffer_commit_space takes: none, some that start with the first chunk with
      room, or one for the last chunk. */
  ghost predicate AcceptableIn(m: Memory, data: seq<Ptr>, spare: seq<Ptr>, vec: seq<Iovec>) {
    || vec == []
    || Fits(m, vec, Writable(m, data, spare))
    || (LastOf(data, spare) != NULL && Fits(m, vec, [LastOf(data, spare)]))
  }

  ghost predicate Acceptable(buf: Evbuffer, vec: seq<Iovec>)
    reads buf, buf.heap
  {
    AcceptableIn(buf.heap.m, buf.data, buf.spare, vec)
  }

  /** A single vector is taken exactly if it is for the first writable chunk or for the last one. */
  lemma OneVector(m: Memory, data: seq<Ptr>, spare: seq<Ptr>, v: Iovec)
    requires v.chain != NULL && FitsOne(m, v, v.chain)
    ensures AcceptableIn(m, data, spare, [v])
      <==> v.chain == Head(Writable(m, data, spare), NULL) || v.chain == LastOf(data, spare)
  {
    hide Writable;
    OneFits(m, v, Writable(m, data, spare));
    OneFits(m, v, [LastOf(data, spare)]);
  }

  lemma OneFits(m: Memory, v: Iovec, ps: seq<Ptr>)
    requires v.chain != NULL && FitsOne(m, v, v.chain)
    ensures Fits(m, [v], ps) <==> v.chain == Head(ps, NULL)
  {
    if Fits(m, [v], ps) {
      assert FitsOne(m, [v][0], ps[0]);
    }
  }

  /** evbuffer_commit_space: the bytes written into the reserved spaces become part of the buffer. */
  method CommitSpace(buf: Evbuffer, vec: seq<Iovec>) returns (ok: bool)
    requires buf.Valid()
    modifies buf.heap, buf`lastWithDatap, buf`totalLen, buf`data, buf`spare
    ensures buf.Valid() && buf.Chain() == old(buf.Chain())
    ensures Rest(buf.heap.m, buf.Chain()) == old(Rest(buf.heap.m, buf.Chain()))
    ensures ok ==> buf.Contents() == old(buf.Contents() + VecBytes(buf.heap.m, vec))
    ensures !ok ==> unchanged(buf) && buf.heap.m == old(buf.heap.m)
    ensures ok <==> !buf.freezeEnd && old(Acceptable(buf, vec))
  {
    hide Shape, Linked, Stored, Rest;
    if buf.freezeEnd {
      return false;
    }
    if vec == [] {
      assert old(buf.Contents()) + [] == buf.Contents();
      return true;
    }
    ListView(buf.heap.m, buf.first, buf.lastWithDatap, buf.data, buf.spare);
    if |vec| == 1 && buf.last != NULL && vec[0].chain == buf.last &&
      vec[0].at == buf.heap.m[buf.last].misalign + buf.heap.m[buf.last].off {
      ok := CommitLast(buf, vec);
    } else {
      ok := CommitFromFirst(buf, vec);
    }
  }

  /** The user filled only the last chunk, which need not be the first one with room. */
  method CommitLast(buf: Evbuffer, vec: seq<Iovec>) returns (ok: bool)
    requires buf.Valid() && !buf.freezeEnd && |vec| == 1 && buf.last != NULL
    requires buf.last in buf.heap.m && buf.heap.m[buf.last].Ok()
    requires vec[0].chain == buf.last && vec[0].at == buf.heap.m[buf.last].misalign + buf.heap.m[buf.last].off
    modifies buf.heap, buf`lastWithDatap, buf`totalLen, buf`data, buf`spare
    ensures buf.Valid() && buf.Chain() == old(buf.Chain())
    ensures Rest(buf.heap.m, buf.Chain()) == old(Rest(buf.heap.m, buf.Chain()))
    ensures ok ==> buf.Contents() == old(buf.Contents() + VecBytes(buf.heap.m, vec))
    ensures !ok ==> unchanged(buf) && buf.heap.m == old(buf.heap.m)
    ensures ok <==> old(FitsOne(buf.heap.m, vec[0], buf.last))
  {
    hide Shape, Linked, Stored, Rest, DataEndsAt, VecBytes, LinkBefore, Elems, AllEmpty, Slice;
    var len := vec[0].len;
    if len > buf.heap.m[buf.last].Space() {
      return false;
    }
    ghost var m, all := buf.heap.m, buf.Chain();
    ListView(m, buf.first, buf.lastWithDatap, buf.data, buf.spare);
    assert all != [] && buf.last == all[|all| - 1] by {
      ShapeFacts(m, buf.first, buf.lastWithDatap, buf.data, buf.spare);
    }
    CommitAt(m, all, |buf.data|, |all| - 1, len);
    RestUpdate(m, all, buf.last, Committed(m[buf.last], len));
    assert VecBytes(m, vec) == Slice(m[buf.last], len) by {
      VecBytesOne(m, vec, buf.last);
    }
    buf.heap.m := buf.heap.m[buf.last := Committed(buf.heap.m[buf.last], len)];
    if len > 0 {
      buf.AdvanceLastWithData(all, |buf.data|);
      ListView(buf.heap.m, buf.first, buf.lastWithDatap, buf.data, buf.spare);
    } else {
      ListViewBack(buf.heap.m, all, |buf.data|);
      assert all[..|buf.data|] == buf.data && all[|buf.data|..] == buf.spare;
    }
    buf.totalLen := buf.totalLen + len;
    return true;
  }

  /** The vectors start at the first chunk with room. */
  method CommitFromFirst(buf: Evbuffer, vec: seq<Iovec>) returns (ok: bool)
    requires buf.Valid() && !buf.freezeEnd && vec != []
    modifies buf.heap, buf`lastWithDatap, buf`totalLen, buf`data, buf`spare
    ensures buf.Valid() && buf.Chain() == old(buf.Chain())
    ensures Rest(buf.heap.m, buf.Chain()) == old(Rest(buf.heap.m, buf.Chain()))
    ensures ok ==> buf.Contents() == old(buf.Contents() + VecBytes(buf.heap.m, vec))
    ensures !ok ==> unchanged(buf) && buf.heap.m == old(buf.heap.m)
    ensures ok <==> old(Fits(buf.heap.m, vec, Writable(buf.heap.m, buf.data, buf.spare)))
  {
    hide Shape, Linked, Stored, Rest, DataEndsAt, Fits, FitsOne, VecBytes, LinkBefore, FirstWritable, Writable;
    hide Elems, AllEmpty, LinkInto, Last;
    ghost var m, all, s := buf.heap.m, buf.Chain(), FirstWritable(buf.heap.m, buf.data, buf.spare);
    var firstChainp, chain := FindWritable(buf);
    if chain == NULL && firstChainp == NULL {
      NoneFits(m, vec, all, s);
      return false;
    }
    assert Linked(m, all, NULL) && DataEndsAt(m, all, |buf.data|, |all|) && buf.first == Head(all, NULL)
        && buf.lastWithDatap == LinkBefore(all, |buf.data|) && Stored(m, all) == buf.Contents()
        && buf.last == Last(all) by {
      ListView(m, buf.first, buf.lastWithDatap, buf.data, buf.spare);
    }
    ok := CheckVecs(buf, chain, vec, all, s);
    if !ok {
      return false;
    }
    var added;
    ghost var k;
    added, k := CommitVecs(buf, firstChainp, vec, all, s, |buf.data|);
    ListViewBack(buf.heap.m, all, k);
    buf.data, buf.spare := all[..k], all[k..];
    buf.totalLen := buf.totalLen + added;
  }

  lemma NoneFits(m: Memory, vec: seq<Iovec>, all: seq<Ptr>, s: nat)
    requires s == |all| && vec != []
    ensures !Fits(m, vec, all[s..])
  {
  }

  /** The link to the first chunk with room, and that chunk. */
  method FindWritable(buf: Evbuffer) returns (firstChainp: Ptr, chain: Ptr)
    requires buf.Valid()
    ensures var s := FirstWritable(buf.heap.m, buf.data, buf.spare);
            && s <= |buf.Chain()| && |buf.data| <= s + 1 && firstChainp == LinkInto(buf.Chain(), s)
            && Writable(buf.heap.m, buf.data, buf.spare) == buf.Chain()[s..] && chain == Head(buf.Chain()[s..], NULL)
            && (chain == NULL <==> s == |buf.Chain()|) && (buf.Chain() == [] ==> firstChainp == NULL)
  {
    hide Shape, Linked, Stored, Rest;
    ghost var all := buf.Chain();
    ListView(buf.heap.m, buf.first, buf.lastWithDatap, buf.data, buf.spare);
    ShapeFacts(buf.heap.m, buf.first, buf.lastWithDatap, buf.data, buf.spare);
    firstChainp, chain := buf.lastWithDatap, buf.LastWithData();
    if chain != NULL {
      ghost var cur: nat := if buf.data == [] then 0 else |buf.data| - 1;
      assert chain == all[cur];
      NextOf(buf.heap.m, all, cur);
      if buf.heap.m[chain].Space() == 0 {
        firstChainp := chain;
        chain := buf.heap.m[chain].next;
      }
    }
  }

  /** evbuffer_chain_insert_new. */
  method InsertNew(buf: Evbuffer, datlen: nat, mem: bool) returns (result: Ptr)
    requires buf.Valid()
    modifies buf.heap, buf`first, buf`last, buf`lastWithDatap, buf`totalLen, buf`data, buf`spare
    ensures buf.Valid() && buf.Contents() == old(buf.Contents())
    ensures Rest(buf.heap.m, buf.Chain()) == old(Rest(buf.heap.m, buf.Chain()))
    ensures result == NULL ==> unchanged(buf) && buf.heap.m == old(buf.heap.m)
    ensures result == NULL <==> !mem || datlen > CHAIN_MAX - CHAIN_HEADER
    ensures result != NULL ==> buf.data == old(buf.data) && buf.spare == [result] && SpaceOf(buf.heap.m, result) > 0
    ensures result != NULL ==>
      result in buf.Chain() && result in buf.heap.m && buf.heap.m[result].Ok() && datlen <= buf.heap.m[result].Space()
  {
    hide Shape, Linked, Stored, Rest, AllEmpty, Elems;
    result := buf.NewChunk(datlen, mem);
    if result != NULL {
      assert buf.heap.m[result].Data() == [];
      buf.ChainInsert(result);
    }
  }

  /** The last chunk with data is copied into a new chunk with room for `datlen` more bytes. */
  method ResizeLast(buf: Evbuffer, chain: Ptr, datlen: nat, mem: bool) returns (result: Ptr)
    requires buf.Valid() && buf.data != [] && chain == Last(buf.data)
    modifies buf.heap, buf`first, buf`last, buf`data
    ensures buf.Valid() && buf.Contents() == old(buf.Contents())
    ensures Rest(buf.heap.m, buf.Chain()) == old(Rest(buf.heap.m, buf.Chain()))
    ensures result == NULL ==> unchanged(buf) && buf.heap.m == old(buf.heap.m)
    ensures chain in old(buf.heap.m)
    ensures result == NULL <==> !mem || old(buf.heap.m)[chain].off + datlen > CHAIN_MAX - CHAIN_HEADER
    ensures result != NULL ==> buf.data != [] && result == Last(buf.data)
    ensures result != NULL ==>
      result in buf.Chain() && result in buf.heap.m && buf.heap.m[result].Ok() && datlen <= buf.heap.m[result].Space()
  {
    hide Shape, Linked, Stored, Rest, AllEmpty, Elems;
    ShapeFacts(buf.heap.m, buf.first, buf.lastWithDatap, buf.data, buf.spare);
    assert chain in buf.data;
    var c := buf.heap.m[chain];
    var tmp := buf.NewChunk(c.off + datlen, mem);
    if tmp == NULL {
      return NULL;
    }
    label Allocated:
    assert |c.Data()| == c.off;
    var t := buf.heap.m[tmp].Append(c.Data()).(next := c.next);
    buf.heap.m := buf.heap.m[tmp := t];
    buf.Untouched@Allocated(tmp);
    SwapLast(buf, chain, tmp);
    return tmp;
  }

  /** Puts `tmp`, which has the same bytes and the same link, in the place of the last chunk with data. */
  method SwapLast(buf: Evbuffer, chain: Ptr, tmp: Ptr)
    requires buf.Valid() && buf.data != [] && chain == Last(buf.data) && chain in buf.heap.m && buf.heap.m[chain].Ok()
    requires tmp != NULL && tmp in buf.heap.m && tmp !in buf.Chain() && buf.heap.m[tmp].Ok()
    requires buf.heap.m[tmp].next == buf.heap.m[chain].next && buf.heap.m[tmp].Data() == buf.heap.m[chain].Data()
    modifies buf.heap, buf`first, buf`last, buf`data
    ensures buf.Valid() && buf.Contents() == old(buf.Contents())
    ensures Rest(buf.heap.m, buf.Chain()) == old(Rest(buf.heap.m, buf.Chain() + [tmp]))
    ensures tmp in buf.Chain() && tmp in buf.heap.m && buf.heap.m[tmp] == old(buf.heap.m)[tmp]
    ensures buf.data != [] && tmp == Last(buf.data)
  {
    hide Shape, Linked, Stored, Rest, AllEmpty, Elems;
    ghost var m := buf.heap.m;
    ghost var d := buf.data[..|buf.data| - 1] + [tmp];
    ReplaceLast(m, buf.first, buf.lastWithDatap, buf.data, buf.spare, tmp);
    LastIs(m, buf.first, buf.lastWithDatap, buf.data, buf.spare);
    buf.SetLinkAfter(buf.lastWithDatap, tmp);
    if buf.last == chain {
      buf.last := tmp;
    }
    buf.heap.ChainFree(chain);
    buf.data := d;
    assert tmp in d;
  }

  lemma LastIs(m: Memory, first: Ptr, link: Ptr, data: seq<Ptr>, spare: seq<Ptr>)
    requires Shape(m, first, link, data, spare) && data != []
    ensures LastOf(data, spare) == Last(data) <==> spare == []
    ensures |data| == 1 <==> link == NULL
    ensures link != NULL ==> link in m && link != Last(data)
  {
    ShapeFacts(m, first, link, data, spare);
    if |data| >= 2 {
      LinkedDistinct(m, data, Head(spare, NULL), |data| - 2, |data| - 1);
    }
    assert Last(data) in data;
    assert spare != [] ==> Last(spare) in spare;
  }

  /** The last chunk with data has some room, but not enough and not worth moving or copying its bytes
      for, and the chunk after it has enough. */
  ghost predicate TakesNext(m: Memory, data: seq<Ptr>, spare: seq<Ptr>, datlen: nat) {
    && data != [] && spare != [] && Last(data) in m && m[Last(data)].Ok()
    && var c := m[Last(data)];
    && 0 < c.Space() < datlen && !c.ShouldRealign(datlen) && SpaceOf(m, spare[0]) >= datlen
    && (c.Space() < |c.mem| / 8 || c.off > 4096 || datlen >= CHAIN_MAX - c.off)
  }

  /** evbuffer_expand_singlechain: makes room for `datlen` bytes in one chunk and returns it: the first
      writable one, the last one, or the one after the last chunk with data. */
  method ExpandSinglechain(buf: Evbuffer, datlen: nat, mem: bool) returns (result: Ptr)
    requires buf.Valid()
    modifies buf.heap, buf`first, buf`last, buf`lastWithDatap, buf`totalLen, buf`data, buf`spare
    ensures buf.Valid() && buf.Contents() == old(buf.Contents())
    ensures Rest(buf.heap.m, buf.Chain()) == old(Rest(buf.heap.m, buf.Chain()))
    ensures result == NULL ==> unchanged(buf) && buf.heap.m == old(buf.heap.m)
    ensures result != NULL ==>
      result in buf.Chain() && result in buf.heap.m && buf.heap.m[result].Ok() && datlen <= buf.heap.m[result].Space()
    ensures old(TakesNext(buf.heap.m, buf.data, buf.spare, datlen)) ==>
      unchanged(buf) && buf.heap.m == old(buf.heap.m) && result == buf.spare[0]
    ensures result != NULL && !old(TakesNext(buf.heap.m, buf.data, buf.spare, datlen)) ==>
      result == Head(Writable(buf.heap.m, buf.data, buf.spare), NULL) || result == buf.last
    ensures mem && datlen <= CHAIN_MAX - CHAIN_HEADER - 4096 ==> result != NULL
  {
    hide Shape, Linked, Stored, Rest, AllEmpty, Elems;
    var firstChainp, chain := FindWritable(buf);
    WritableFacts(buf, chain);
    NextTaken(buf, chain, datlen);
    hide TakesNext, Writable;
    if chain == NULL {
      result := InsertNew(buf, datlen, mem);
      return;
    }
    var c := buf.heap.m[chain];
    if c.Space() >= datlen {
      return chain;
    }
    if c.off == 0 {
      result := InsertNew(buf, datlen, mem);
      return;
    }
    if c.ShouldRealign(datlen) {
      assert c.Data() + [] == c.Data();
      buf.Extend(chain, c.Align(), []);
      HeadWritable(buf.heap.m, buf.data, buf.spare);
      return chain;
    }
    if c.Space() < |c.mem| / 8 || c.off > 4096 || datlen >= CHAIN_MAX - c.off {
      if c.next != NULL && buf.heap.m[c.next].Space() >= datlen {
        return c.next;
      }
      result := InsertNew(buf, datlen, mem);
      return;
    }
    result := ResizeLast(buf, chain, datlen, mem);
    if result != NULL {
      HeadWritable(buf.heap.m, buf.data, buf.spare);
    }
  }

  /** The last chunk with data is the first writable one if it has room. */
  lemma HeadWritable(m: Memory, data: seq<Ptr>, spare: seq<Ptr>)
    requires data != [] && SpaceOf(m, Last(data)) > 0
    ensures Head(Writable(m, data, spare), NULL) == Last(data)
  {
  }

  /** When the chunk after the last one with data is taken, in terms of the first writable chunk. */
  lemma NextTaken(buf: Evbuffer, chain: Ptr, datlen: nat)
    requires buf.Valid() && chain == Head(Writable(buf.heap.m, buf.data, buf.spare), NULL)
    requires chain != NULL ==> chain in buf.heap.m && buf.heap.m[chain].Ok()
    ensures chain != NULL && buf.heap.m[chain].off > 0 ==>
      buf.heap.m[chain].Space() > 0 && buf.heap.m[chain].next == Head(buf.spare, NULL)
    ensures TakesNext(buf.heap.m, buf.data, buf.spare, datlen) <==>
      && chain != NULL && buf.heap.m[chain].off > 0 && buf.heap.m[chain].next != NULL
      && (var c := buf.heap.m[chain];
          && c.Space() < datlen && !c.ShouldRealign(datlen) && SpaceOf(buf.heap.m, c.next) >= datlen
          && (c.Space() < |c.mem| / 8 || c.off > 4096 || datlen >= CHAIN_MAX - c.off))
  {
    hide Linked, Stored, Rest, Elems;
    var m, all := buf.heap.m, buf.Chain();
    ShapeFacts(m, buf.first, buf.lastWithDatap, buf.data, buf.spare);
    assert buf.data != [] ==> Last(buf.data) in buf.data && all[|buf.data| - 1] == Last(buf.data);
    assert forall p :: p in buf.spare ==> m[p].off == 0;
    if buf.data != [] && SpaceOf(m, Last(buf.data)) > 0 {
      HeadWritable(m, buf.data, buf.spare);
    } else {
      FirstIsSpare(m, buf.data, buf.spare);
    }
  }

  lemma FirstIsSpare(m: Memory, data: seq<Ptr>, spare: seq<Ptr>)
    requires forall p :: p in data || p in spare ==> p in m && m[p].Ok()
    requires data == [] || SpaceOf(m, Last(data)) == 0
    ensures Head(Writable(m, data, spare), NULL) == NULL || Head(Writable(m, data, spare), NULL) in spare
  {
    var s, all := FirstWritable(m, data, spare), data + spare;
    assert data != [] ==> Last(data) in data && all[|data| - 1] == Last(data);
    assert forall i :: |data| <= i < |all| ==> all[i] == spare[i - |data|];
  }

  /** What is known of the first chunk with room, and of the chunk after it. */
  lemma WritableFacts(buf: Evbuffer, chain: Ptr)
    requires buf.Valid() && chain == Head(Writable(buf.heap.m, buf.data, buf.spare), NULL)
    ensures chain != NULL ==> chain in buf.Chain() && chain in buf.heap.m && buf.heap.m[chain].Ok()
    ensures chain != NULL && buf.heap.m[chain].off > 0 ==> buf.data != [] && chain == Last(buf.data)
    ensures chain != NULL && buf.heap.m[chain].next != NULL ==>
              buf.heap.m[chain].next in buf.Chain() && buf.heap.m[chain].next in buf.heap.m &&
                buf.heap.m[buf.heap.m[chain].next].Ok()
  {
    hide Shape, Linked, Stored, Rest, AllEmpty, Elems;
    var all, s := buf.Chain(), FirstWritable(buf.heap.m, buf.data, buf.spare);
    ListView(buf.heap.m, buf.first, buf.lastWithDatap, buf.data, buf.spare);
    if chain != NULL {
      assert s < |all| && chain == all[s];
      NextOf(buf.heap.m, all, s);
      assert s >= |buf.data| || s == |buf.data| - 1;
    }
  }

  /** evbuffer_expand. */
  method Expand(buf: Evbuffer, datlen: nat, mem: bool) returns (ok: bool)
    requires buf.Valid()
    modifies buf.heap, buf`first, buf`last, buf`lastWithDatap, buf`totalLen, buf`data, buf`spare
    ensures buf.Valid() && buf.Contents() == old(buf.Contents())
    ensures Rest(buf.heap.m, buf.Chain()) == old(Rest(buf.heap.m, buf.Chain()))
    ensures !ok ==> unchanged(buf) && buf.heap.m == old(buf.heap.m)
    ensures ok ==>
      exists p :: p in buf.Chain() && p in buf.heap.m && buf.heap.m[p].Ok() && datlen <= buf.heap.m[p].Space()
    ensures mem && datlen <= CHAIN_MAX - CHAIN_HEADER - 4096 ==> ok
  {
    var chain := ExpandSinglechain(buf, datlen, mem);
    return chain != NULL;
  }
}
