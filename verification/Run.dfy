/** Whole runs of evbuffer calls against the byte sequence those calls build. */
module EvbufferRuns {
  import opened Bytes
  import opened Addresses
  import opened Chunks
  import opened ChunkLists
  import opened Shapes
  import opened Evbuffers
  import opened EvbufferExpand

  /** A call. InsertChunk is evbuffer_chain_insert of a freshly filled chunk of its own. */
  datatype Call =
    | CallAdd(bytes: seq<byte>)
    | CallPrepend(bytes: seq<byte>)
    | CallDrain(len: nat)
    | CallExpand(datlen: nat)
    | CallInsertChunk(bytes: seq<byte>)
    | CallFreeze(atFront: bool)
    | CallUnfreeze(atFront: bool)

  /** What a call returned. A failing prepend may have stored its last `kept` bytes. */
  datatype Outcome = Success | Failure(kept: nat)

  /** What a buffer is to its caller: bytes, and whether its ends are frozen. */
  datatype Queue = Queue(bytes: seq<byte>, frontFrozen: bool, endFrozen: bool)

  ghost function View(buf: Evbuffer): Queue
    reads buf, buf.heap
  {
    Queue(buf.Contents(), buf.freezeStart, buf.freezeEnd)
  }

  /** A plain queue of bytes under the same call. */
  function Effect(q: Queue, call: Call, o: Outcome): Queue {
    match call
    case CallAdd(b) => if o.Success? then q.(bytes := q.bytes + b) else q
    case CallInsertChunk(b) => if o.Success? then q.(bytes := q.bytes + b) else q
    case CallPrepend(b) =>
      if o.Success? then q.(bytes := b + q.bytes)
      else if o.kept <= |b| then q.(bytes := b[|b| - o.kept..] + q.bytes)
      else q
    case CallDrain(n) =>
      if o.Failure? then q else q.(bytes := if n >= |q.bytes| then [] else q.bytes[n..])
    case CallExpand(_) => q
    case CallFreeze(atFront) => if atFront then q.(frontFrozen := true) else q.(endFrozen := true)
    case CallUnfreeze(atFront) => if atFront then q.(frontFrozen := false) else q.(endFrozen := false)
  }

  function Effects(q: Queue, calls: seq<Call>, os: seq<Outcome>): Queue
    requires |calls| == |os|
    decreases calls
  {
    if calls == [] then q else Effects(Effect(q, calls[0], os[0]), calls[1..], os[1..])
  }

  lemma {:induction false} EffectsSnoc(q: Queue, calls: seq<Call>, os: seq<Outcome>, call: Call, o: Outcome)
    requires |calls| == |os|
    ensures Effects(q, calls + [call], os + [o]) == Effect(Effects(q, calls, os), call, o)
    decreases calls
  {
    if calls == [] {
      assert Effects(Effect(q, call, o), [], []) == Effect(q, call, o);
    } else {
      assert (calls + [call])[1..] == calls[1..] + [call] && (os + [o])[1..] == os[1..] + [o];
      EffectsSnoc(Effect(q, calls[0], os[0]), calls[1..], os[1..], call, o);
    }
  }

  /** A call may fail only at a frozen end, for a full size_t, or for want of memory. */
  predicate Excused(call: Call, mem: bool, q: Queue) {
    match call
    case CallAdd(b) => q.endFrozen || |q.bytes| + |b| > SIZE_MAX || !mem || |b| > CHAIN_MAX - CHAIN_HEADER
    case CallPrepend(b) => q.frontFrozen || |q.bytes| + |b| > SIZE_MAX || !mem || |b| > CHAIN_MAX - CHAIN_HEADER
    case CallDrain(_) => q.frontFrozen && q.bytes != []
    case CallExpand(n) => !mem || n > CHAIN_MAX - CHAIN_HEADER - 4096
    case CallInsertChunk(b) => !mem || |b| > CHAIN_MAX - CHAIN_HEADER
    case _ => false
  }

  /** Every failure in a run that started from `q` had its excuse in the state it met. */
  ghost predicate AllExcused(q: Queue, calls: seq<Call>, mems: seq<bool>, os: seq<Outcome>)
    requires |calls| == |mems| == |os|
  {
    forall i :: 0 <= i < |calls| && os[i].Failure? ==> Excused(calls[i], mems[i], Effects(q, calls[..i], os[..i]))
  }

  /** How many bytes a call can add at most. */
  function Adds(call: Call): nat {
    match call
    case CallAdd(b) => |b|
    case CallPrepend(b) => |b|
    case CallInsertChunk(b) => |b|
    case _ => 0
  }

  function AddsAll(calls: seq<Call>): nat {
    if calls == [] then 0 else Adds(calls[0]) + AddsAll(calls[1..])
  }

  /** A call that asks for no more than a chunk can hold, and does not freeze. */
  predicate Modest(call: Call) {
    !call.CallFreeze? && Adds(call) <= CHAIN_MAX - CHAIN_HEADER
    && (call.CallExpand? ==> call.datlen <= CHAIN_MAX - CHAIN_HEADER - 4096)
  }

  /** Hence with memory at hand and nothing frozen every call of a run succeeds. */
  lemma {:induction false} AllSucceed(q: Queue, calls: seq<Call>, mems: seq<bool>, os: seq<Outcome>)
    requires |calls| == |mems| == |os| && AllExcused(q, calls, mems, os)
    requires !q.frontFrozen && !q.endFrozen && |q.bytes| + AddsAll(calls) <= SIZE_MAX
    requires forall i :: 0 <= i < |calls| ==> mems[i] && Modest(calls[i])
    ensures forall i :: 0 <= i < |os| ==> os[i].Success?
    decreases calls
  {
    if calls != [] {
      assert calls[..0] == [] && os[..0] == [];
      assert os[0].Success?;
      var q1 := Effect(q, calls[0], os[0]);
      forall i | 0 <= i < |calls| - 1 && os[1..][i].Failure?
        ensures Excused(calls[1..][i], mems[1..][i], Effects(q1, calls[1..][..i], os[1..][..i]))
      {
        assert calls[..i + 1][1..] == calls[1..][..i] && os[..i + 1][1..] == os[1..][..i];
      }
      AllSucceed(q1, calls[1..], mems[1..], os[1..]);
      assert forall i :: 0 < i < |os| ==> os[i] == os[1..][i - 1];
    }
  }

  /** Allocates a chunk, fills it and inserts it. */
  method InsertChunk(buf: Evbuffer, bytes: seq<byte>, mem: bool) returns (ok: bool)
    requires buf.Valid()
    modifies buf.heap, buf`first, buf`last, buf`lastWithDatap, buf`totalLen, buf`data, buf`spare
    ensures buf.Valid() && Rest(buf.heap.m, buf.Chain()) == old(Rest(buf.heap.m, buf.Chain()))
    ensures ok <==> mem && |bytes| <= CHAIN_MAX - CHAIN_HEADER
    ensures buf.Contents() == if ok then old(buf.Contents()) + bytes else old(buf.Contents())
  {
    hide Shape, Linked, Stored, Rest, AllEmpty, Elems;
    var tmp := buf.NewChunk(|bytes|, mem);
    ok := tmp != NULL;
    if ok {
      buf.InsertFilled(tmp, bytes);
    }
  }

  /** evbuffer_prepend, with the number of bytes stored. */
  method PrependCounting(buf: Evbuffer, bytes: seq<byte>, mem: bool) returns (ok: bool, kept: nat)
    requires buf.Valid()
    modifies buf.heap, buf`first, buf`last, buf`lastWithDatap, buf`totalLen, buf`data, buf`spare
    ensures buf.Valid() && Rest(buf.heap.m, buf.Chain()) == old(Rest(buf.heap.m, buf.Chain()))
    ensures kept <= |bytes| && buf.Contents() == bytes[|bytes| - kept..] + old(buf.Contents()) &&
      (ok ==> kept == |bytes|)
    ensures !ok ==> Excused(CallPrepend(bytes), mem, old(View(buf)))
  {
    hide Shape, Linked, Stored, Rest, AllEmpty, Elems;
    var before := buf.totalLen;
    ok := buf.Prepend(bytes, mem);
    kept := buf.totalLen - before;
  }

  /** One call, with the outcome it reports. */
  method Step(buf: Evbuffer, call: Call, mem: bool) returns (o: Outcome)
    requires buf.Valid()
    modifies buf.heap, buf
    ensures buf.Valid() && Rest(buf.heap.m, buf.Chain()) == old(Rest(buf.heap.m, buf.Chain()))
    ensures View(buf) == Effect(old(View(buf)), call, o)
    ensures o.Failure? ==> Excused(call, mem, old(View(buf)))
  {
    hide Shape, Linked, Stored, Rest, AllEmpty, Elems;
    var ok := true;
    var kept: nat := 0;
    match call {
      case CallAdd(b) => ok := buf.Add(b, mem);
      case CallPrepend(b) => ok, kept := PrependCounting(buf, b, mem);
      case CallDrain(n) => ok := buf.Drain(n);
      case CallExpand(n) => ok := Expand(buf, n, mem);
      case CallInsertChunk(b) => ok := InsertChunk(buf, b, mem);
      case CallFreeze(atFront) =>
        if atFront { buf.freezeStart := true; } else { buf.freezeEnd := true; }
      case CallUnfreeze(atFront) =>
        if atFront { buf.freezeStart := false; } else { buf.freezeEnd := false; }
    }
    o := if ok then Success else Failure(kept);
  }

  /** Every run of calls leaves the flattened chunks equal to the byte sequence those calls build, with
      all cached pointers and the length right, whatever the allocator does, and no call fails without
      an excuse. */
  method Run(buf: Evbuffer, calls: seq<Call>, mems: seq<bool>) returns (os: seq<Outcome>)
    requires buf.Valid() && |mems| == |calls|
    modifies buf.heap, buf
    ensures buf.Valid() && Rest(buf.heap.m, buf.Chain()) == old(Rest(buf.heap.m, buf.Chain()))
    ensures |os| == |calls| && View(buf) == Effects(old(View(buf)), calls, os)
    ensures AllExcused(old(View(buf)), calls, mems, os)
  {
    hide Shape, Linked, Stored, Rest, AllEmpty, Elems, Effect, Effects, Excused;
    ghost var q := View(buf);
    os := [];
    var i: nat := 0;
    assert calls[..0] == [];
    EffectsNone(q);
    while i < |calls|
      invariant i <= |calls| && |os| == i
      invariant buf.Valid() && Rest(buf.heap.m, buf.Chain()) == old(Rest(buf.heap.m, buf.Chain()))
      invariant View(buf) == Effects(q, calls[..i], os)
      invariant AllExcused(q, calls[..i], mems[..i], os)
    {
      var o := Step(buf, calls[i], mems[i]);
      EffectsSnoc(q, calls[..i], os, calls[i], o);
      OneMoreExcused(q, calls, mems, os, o);
      assert calls[..i + 1] == calls[..i] + [calls[i]];
      os := os + [o];
      i := i + 1;
    }
    assert calls[..i] == calls && mems[..i] == mems;
  }

  lemma OneMoreExcused(q: Queue, calls: seq<Call>, mems: seq<bool>, os: seq<Outcome>, o: Outcome)
    requires |os| < |calls| == |mems| && AllExcused(q, calls[..|os|], mems[..|os|], os)
    requires o.Failure? ==> Excused(calls[|os|], mems[|os|], Effects(q, calls[..|os|], os))
    ensures AllExcused(q, calls[..|os| + 1], mems[..|os| + 1], os + [o])
  {
    hide Excused, Effects;
    var n := |os|;
    var cs, ms, ps := calls[..n + 1], mems[..n + 1], os + [o];
    forall i | 0 <= i < n + 1 && ps[i].Failure? ensures Excused(cs[i], ms[i], Effects(q, cs[..i], ps[..i])) {
      assert cs[..i] == calls[..n][..i] && (i < n ==> ps[..i] == os[..i]) &&
        (i == n ==> ps[..i] == os && cs[..i] == calls[..n]);
    }
  }

  lemma EffectsNone(q: Queue)
    ensures Effects(q, [], []) == q
  {
  }

  /** The chunk at position `i` of the list links to the next one, or to nothing. */
  ghost predicate NextIs(m: Memory, all: seq<Ptr>, i: int) {
    0 <= i < |all| && all[i] in m && m[all[i]].Ok() && m[all[i]].next == if i + 1 < |all| then all[i + 1] else NULL
  }

  /** What a valid buffer's fields mean, read off the heap by following `next` from `first`. */
  lemma CachedFields(buf: Evbuffer)
    requires buf.Valid()
    ensures var all := buf.Chain(); var m := buf.heap.m;
      && buf.first == Head(all, NULL) && buf.last == Last(all)
      && (forall i :: 0 <= i < |all| ==> all[i] in m && NextIs(m, all, i))
      && buf.Contents() == Stored(m, all) && buf.totalLen == |Stored(m, all)|
      && (if exists i :: 0 <= i < |all| && m[all[i]].off > 0
          then exists i ::
                 && 0 <= i < |all| && buf.LastWithData() == all[i] && m[all[i]].off > 0
                 && forall j :: i < j < |all| ==> m[all[j]].off == 0
          else buf.LastWithData() == buf.first)
  {
    hide Shape, Linked, Stored;
    var all, m := buf.Chain(), buf.heap.m;
    WholeList(m, buf.first, buf.lastWithDatap, buf.data, buf.spare);
    DataBeforeSpare(m, buf.first, buf.lastWithDatap, buf.data, buf.spare);
    ShapeFacts(m, buf.first, buf.lastWithDatap, buf.data, buf.spare);
    forall i | 0 <= i < |all|
      ensures NextIs(m, all, i)
    {
      NextOf(m, all, i);
    }
  }

  lemma DataBeforeSpare(m: Memory, first: Ptr, link: Ptr, data: seq<Ptr>, spare: seq<Ptr>)
    requires Shape(m, first, link, data, spare)
    ensures var all := data + spare; var k := |data| - 1;
      && (forall j :: 0 <= j < |all| ==> all[j] in m)
      && (k >= 0 ==> m[all[k]].off > 0 && Current(data, spare) == all[k])
      && (forall j :: k < j < |all| ==> m[all[j]].off == 0)
      && (k < 0 ==> Current(data, spare) == first)
  {
    hide Linked;
    ShapeFacts(m, first, link, data, spare);
    var all := data + spare;
    forall j | 0 <= j < |all| ensures all[j] in m && (j >= |data| ==> m[all[j]].off == 0) {
      assert all[j] == if j < |data| then data[j] else spare[j - |data|];
    }
  }
}
