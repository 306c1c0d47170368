/** The memory tracer: malloc, realloc and free of any number of threads as atomic steps on the heap
    and on the shared counter. */
module MemTracing {
  import opened Options
  import opened Bytes

  /** sizeof(size_t), the room for the size in front of each block. */
  const HEADER: nat := 8

  type Addr = nat
  type Thread = nat

  /** Who may touch a block: the program, to which it was handed out, or a thread inside the tracer. */
  datatype Owner = Caller | Inside(t: Thread)

  /** A block: the size in its header and the bytes after it. `counted` blocks are in the counter,
      `passed` ones were found to be within the limit. */
  datatype Block = Block(header: nat, data: seq<byte>, live: bool, counted: bool, passed: bool, owner: Owner)

  /** The old block of a realloc, with its bytes at the time of the call. */
  datatype Old = Old(ptr: Addr, before: seq<byte>)

  /** A block about to be returned, with the size asked for and the old block of a realloc. */
  datatype Reply = Reply(ptr: Addr, size: nat, orig: Option<Old>)

  /** What a thread does next. */
  datatype Pc =
    | Idle
    | Mallocing(size: nat, orig: Option<Old>)
    | Headering(ptr: Addr, size: nat, orig: Option<Old>)
    | Adding(ptr: Addr, size: nat, orig: Option<Old>)
    | Exiting
    | Copying(ptr: Addr, size: nat, from: Old)
    | Subtracting(ptr: Addr, size: nat, res: Option<Reply>)
    | Releasing(ptr: Addr, res: Option<Reply>)
    | Returning(result: Reply)

  /** Blocks are named by the order in which they were obtained. */
  datatype State = State(counter: nat, base: nat, limit: nat, blocks: seq<Block>, pcs: map<Thread, Pc>)

  datatype Step =
    | CallMalloc(t: Thread, size: nat)
    | CallRealloc(t: Thread, ptr: Addr, size: nat)
    | CallFree(t: Thread, ptr: Addr)
    | OrigMalloc(t: Thread, ok: bool, header: nat, data: seq<byte>)
    | WriteHeader(t: Thread)
    | FetchAdd(t: Thread)
    | Memcpy(t: Thread)
    | FetchSub(t: Thread)
    | OrigFree(t: Thread)
    | Return(t: Thread)
    | UserWrite(ptr: Addr, i: nat, v: byte)

  function PcOf(s: State, t: Thread): Pc {
    if t in s.pcs then s.pcs[t] else Idle
  }

  /** How many bytes after the header orig_malloc(size + sizeof(size_t)) provides. */
  function Room(size: nat): nat {
    var asked := (size + HEADER) % TWO64;
    if asked >= HEADER then asked - HEADER else 0
  }

  /** The block is as large as its header says exactly when the sum does not wrap around. */
  lemma RoomExact(size: nat)
    requires size < TWO64
    ensures Room(size) == size <==> size + HEADER < TWO64
    ensures size + HEADER >= TWO64 ==> Room(size) == 0
  {
  }

  // ---- sums over blocks

  function Sum(bs: seq<Block>, w: Block -> nat): nat {
    if bs == [] then 0 else w(bs[0]) + Sum(bs[1..], w)
  }

  function CountedSize(b: Block): nat { if b.counted then b.header else 0 }
  function PassedSize(b: Block): nat { if b.passed then b.header else 0 }
  function HeldSize(b: Block): nat { if b.live && b.owner == Caller then b.header else 0 }
  function LiveSize(b: Block): nat { if b.live then |b.data| + HEADER else 0 }

  lemma {:induction false} SumUpdate(bs: seq<Block>, i: nat, b: Block, w: Block -> nat)
    requires i < |bs|
    ensures Sum(bs[i := b], w) == Sum(bs, w) - w(bs[i]) + w(b)
  {
    if i == 0 {
      assert bs[i := b][1..] == bs[1..];
    } else {
      assert bs[i := b][1..] == bs[1..][i - 1 := b];
      SumUpdate(bs[1..], i - 1, b, w);
    }
  }

  lemma {:induction false} SumAppend(bs: seq<Block>, b: Block, w: Block -> nat)
    ensures Sum(bs + [b], w) == Sum(bs, w) + w(b)
  {
    if bs == [] {
      assert (bs + [b])[1..] == [];
    } else {
      assert (bs + [b])[1..] == bs[1..] + [b];
      SumAppend(bs[1..], b, w);
    }
  }

  lemma {:induction false} SumAtMost(bs: seq<Block>, v: Block -> nat, w: Block -> nat)
    requires forall i :: 0 <= i < |bs| ==> v(bs[i]) <= w(bs[i])
    ensures Sum(bs, v) <= Sum(bs, w)
  {
    if bs != [] {
      SumAtMost(bs[1..], v, w);
    }
  }

  // ---- the steps

  /** A pointer passed to free or realloc is one that was handed out and not taken back. */
  predicate HeldByCaller(s: State, p: Addr) {
    p < |s.blocks| && s.blocks[p].live && s.blocks[p].owner == Caller
  }

  /** orig_malloc may fail; when it does not, all live blocks, their headers and the base amount have
      different addresses. */
  predicate Enabled(s: State, step: Step) {
    match step
    case CallMalloc(t, size) => PcOf(s, t) == Idle && size < TWO64
    case CallRealloc(t, p, size) => PcOf(s, t) == Idle && size < TWO64 && HeldByCaller(s, p)
    case CallFree(t, p) => PcOf(s, t) == Idle && HeldByCaller(s, p)
    case OrigMalloc(t, ok, header, data) =>
      var pc := PcOf(s, t);
      pc.Mallocing? && (ok ==> |data| == Room(pc.size) && s.base + Sum(s.blocks, LiveSize) + |data| + HEADER < TWO64)
    case WriteHeader(t) => PcOf(s, t).Headering?
    case FetchAdd(t) => PcOf(s, t).Adding?
    case Memcpy(t) => PcOf(s, t).Copying?
    case FetchSub(t) => PcOf(s, t).Subtracting?
    case OrigFree(t) => PcOf(s, t).Releasing?
    case Return(t) => PcOf(s, t).Returning?
    case UserWrite(p, i, v) => HeldByCaller(s, p) && i < |s.blocks[p].data|
  }

  function Goto(s: State, t: Thread, pc: Pc): State {
    s.(pcs := s.pcs[t := pc])
  }

  /** The block a thread is working on; meaningless for addresses out of range. */
  function At(s: State, p: Addr): Block {
    if p < |s.blocks| then s.blocks[p] else Block(0, [], false, false, false, Caller)
  }

  function Put(s: State, p: Addr, b: Block): State {
    if p < |s.blocks| then s.(blocks := s.blocks[p := b]) else s
  }

  function Overwrite(dst: seq<byte>, src: seq<byte>): seq<byte> {
    if |src| <= |dst| then src + dst[|src|..] else dst
  }

  function Next(s: State, step: Step): State
    requires Enabled(s, step)
  {
    match step
    case CallMalloc(t, size) => Goto(s, t, Mallocing(size, None))
    case CallRealloc(t, p, size) =>
      var b := At(s, p);
      var mine := Put(s, p, b.(owner := Inside(t)));
      if b.header < size then Goto(mine, t, Mallocing(size, Some(Old(p, b.data))))
      else Goto(mine, t, Returning(Reply(p, size, Some(Old(p, b.data)))))
    case CallFree(t, p) =>
      Goto(Put(s, p, At(s, p).(owner := Inside(t))), t, Subtracting(p, At(s, p).header, None))
    case OrigMalloc(t, ok, header, data) =>
      var pc := PcOf(s, t);
      if ok then Goto(s.(blocks := s.blocks + [Block(header, data, true, false, false, Inside(t))]), t,
        Headering(|s.blocks|, pc.size, pc.orig))
      else if pc.orig.None? then Goto(s, t, Idle)
      else Goto(Put(s, pc.orig.value.ptr, At(s, pc.orig.value.ptr).(owner := Caller)), t, Idle)
    case WriteHeader(t) =>
      var pc := PcOf(s, t);
      Goto(Put(s, pc.ptr, At(s, pc.ptr).(header := pc.size)), t, Adding(pc.ptr, pc.size, pc.orig))
    case FetchAdd(t) =>
      var pc := PcOf(s, t);
      var sum := (s.counter + pc.size) % TWO64;
      if sum > s.limit then Goto(Put(s, pc.ptr, At(s, pc.ptr).(counted := true)).(counter := sum), t, Exiting)
      else Goto(Put(s, pc.ptr, At(s, pc.ptr).(counted := true, passed := true)).(counter := sum), t,
        if pc.orig.None? then Returning(Reply(pc.ptr, pc.size, None)) else Copying(pc.ptr, pc.size, pc.orig.value))
    case Memcpy(t) =>
      var pc := PcOf(s, t);
      var n := At(s, pc.from.ptr).header;
      var src := At(s, pc.from.ptr).data;
      var to := At(s, pc.ptr);
      Goto(Put(s, pc.ptr, to.(data := Overwrite(to.data, if n <= |src| then src[..n] else src))), t,
        Subtracting(pc.from.ptr, n, Some(Reply(pc.ptr, pc.size, Some(pc.from)))))
    case FetchSub(t) =>
      var pc := PcOf(s, t);
      Goto(Put(s, pc.ptr, At(s, pc.ptr).(counted := false,
        passed := false)).(counter := (s.counter - pc.size) % TWO64), t, Releasing(pc.ptr, pc.res))
    case OrigFree(t) =>
      var pc := PcOf(s, t);
      Goto(Put(s, pc.ptr, At(s, pc.ptr).(live := false)), t, if pc.res.None? then Idle else Returning(pc.res.value))
    case Return(t) =>
      var pc := PcOf(s, t);
      Goto(Put(s, pc.result.ptr, At(s, pc.result.ptr).(owner := Caller)), t, Idle)
    case UserWrite(p, i, v) =>
      Put(s, p, At(s, p).(data := if i < |At(s, p).data| then At(s, p).data[i := v] else At(s, p).data))
  }

  // ---- the invariant

  predicate BlockOk(b: Block) {
    && (b.counted ==> b.live && b.header == |b.data|)
    && (b.passed ==> b.counted)
    && (b.live && b.owner == Caller ==> b.passed)
  }

  /** Thread `t` works on the live block `p`. */
  predicate Mine(s: State, t: Thread, p: Addr) {
    p < |s.blocks| && s.blocks[p].live && s.blocks[p].owner == Inside(t)
  }

  /** The old block of a realloc is untouched. */
  predicate OldOk(s: State, t: Thread, o: Old) {
    Mine(s, t, o.ptr) && s.blocks[o.ptr].passed && s.blocks[o.ptr].data == o.before
  }

  /** The block to be returned has the size asked for. It is the old block as it was, or a new one of exactly that
      size that starts with the old bytes. */
  predicate ReplyOk(s: State, t: Thread, r: Reply) {
    && Mine(s, t, r.ptr) && s.blocks[r.ptr].passed && |s.blocks[r.ptr].data| >= r.size
    && (if r.orig.Some? && r.orig.value.ptr == r.ptr then s.blocks[r.ptr].data == r.orig.value.before
        else |s.blocks[r.ptr].data| == r.size)
    && (r.orig.Some? ==> r.orig.value.before <= s.blocks[r.ptr].data)
  }

  /** ... and what is about to be given back is the old block. */
  predicate Replaces(r: Reply, p: Addr) {
    r.orig.Some? && r.orig.value.ptr == p != r.ptr && |r.orig.value.before| < r.size
  }

  predicate Dead(s: State, p: Addr) {
    p < |s.blocks| && !s.blocks[p].live
  }

  predicate PcOk(s: State, t: Thread, pc: Pc) {
    match pc
    case Idle => true
    case Exiting => true
    case Mallocing(size, orig) =>
      size + HEADER < TWO64 && (orig.Some? ==> OldOk(s, t, orig.value) && |orig.value.before| < size)
    case Headering(p, size, orig) =>
      Mine(s, t, p) && !s.blocks[p].counted && |s.blocks[p].data| == size
      && (orig.Some? ==> OldOk(s, t, orig.value) && |orig.value.before| < size && orig.value.ptr != p)
    case Adding(p, size, orig) =>
      Mine(s, t, p) && !s.blocks[p].counted && |s.blocks[p].data| == size == s.blocks[p].header
      && (orig.Some? ==> OldOk(s, t, orig.value) && |orig.value.before| < size && orig.value.ptr != p)
    case Copying(p, size, o) =>
      Mine(s, t, p) && s.blocks[p].passed && OldOk(s, t, o) && |o.before| < |s.blocks[p].data| == size && o.ptr != p
    case Subtracting(p, size, res) =>
      Mine(s, t, p) && s.blocks[p].counted && s.blocks[p].header == size
      && (res.Some? ==> ReplyOk(s, t, res.value) && Replaces(res.value, p))
    case Releasing(p, res) =>
      Mine(s, t, p) && !s.blocks[p].counted && !s.blocks[p].passed
      && (res.Some? ==> ReplyOk(s, t, res.value) && Replaces(res.value, p))
    case Returning(r) =>
      ReplyOk(s, t, r)
      && (r.orig.Some? && r.orig.value.ptr != r.ptr ==> Replaces(r, r.orig.value.ptr) && Dead(s, r.orig.value.ptr))
  }

  ghost predicate BlocksOk(s: State) {
    forall p :: 0 <= p < |s.blocks| ==> BlockOk(s.blocks[p])
  }

  ghost predicate ThreadsOk(s: State) {
    forall t :: PcOk(s, t, PcOf(s, t))
  }

  /** The counter is the base amount and the counted blocks, without wrap-around. */
  predicate CounterOk(s: State) {
    s.counter == s.base + Sum(s.blocks, CountedSize) && s.base + Sum(s.blocks, LiveSize) < TWO64
  }

  /** Blocks that passed the check are within the limit together. */
  ghost predicate LimitOk(s: State) {
    (exists p :: 0 <= p < |s.blocks| && s.blocks[p].passed) ==> s.base + Sum(s.blocks, PassedSize) <= s.limit
  }

  ghost predicate Inv(s: State) {
    BlocksOk(s) && ThreadsOk(s) && CounterOk(s) && LimitOk(s)
  }

  /** A thread depends on its own blocks only. */
  lemma PcFrame(s: State, s': State, u: Thread, pc: Pc)
    requires PcOk(s, u, pc)
    requires forall q: Addr :: Mine(s, u, q) ==> q < |s'.blocks| && s'.blocks[q] == s.blocks[q]
    requires forall q: Addr :: Dead(s, q) ==> Dead(s', q)
    ensures PcOk(s', u, pc)
  {
  }

  /** The threads' view after thread `t` changed the block `p`, which no other thread works on. */
  lemma OthersKept(s: State, s': State, t: Thread, p: Addr)
    requires ThreadsOk(s) && |s'.blocks| >= |s.blocks|
    requires forall q :: 0 <= q < |s.blocks| && q != p ==> s'.blocks[q] == s.blocks[q]
    requires Dead(s, p) ==> Dead(s', p)
    requires p < |s.blocks| ==> !s.blocks[p].live || s.blocks[p].owner == Caller || s.blocks[p].owner == Inside(t)
    requires forall u :: u != t ==> PcOf(s', u) == PcOf(s, u)
    requires PcOk(s', t, PcOf(s', t))
    ensures ThreadsOk(s')
  {
    hide PcOk;
    forall u ensures PcOk(s', u, PcOf(s', u)) {
      if u != t {
        assert PcOk(s, u, PcOf(s, u));
        PcFrame(s, s', u, PcOf(s, u));
      }
    }
  }

  /** Changing one block changes the sums by what that block is worth. */
  lemma SumsAfter(s: State, p: Addr, b: Block)
    requires p < |s.blocks|
    ensures var bs := s.blocks[p := b];
      && Sum(bs, CountedSize) == Sum(s.blocks, CountedSize) - CountedSize(s.blocks[p]) + CountedSize(b)
      && Sum(bs, PassedSize) == Sum(s.blocks, PassedSize) - PassedSize(s.blocks[p]) + PassedSize(b)
      && Sum(bs, LiveSize) == Sum(s.blocks, LiveSize) - LiveSize(s.blocks[p]) + LiveSize(b)
  {
    SumUpdate(s.blocks, p, b, CountedSize);
    SumUpdate(s.blocks, p, b, PassedSize);
    SumUpdate(s.blocks, p, b, LiveSize);
  }

  /** What is counted fits into memory, and what passed was counted. */
  lemma SumsOrdered(s: State)
    requires BlocksOk(s)
    ensures Sum(s.blocks, PassedSize) <= Sum(s.blocks, CountedSize) <= Sum(s.blocks, LiveSize)
    ensures Sum(s.blocks, HeldSize) <= Sum(s.blocks, PassedSize)
  {
    assert forall i :: 0 <= i < |s.blocks| ==> BlockOk(s.blocks[i]);
    SumAtMost(s.blocks, PassedSize, CountedSize);
    SumAtMost(s.blocks, CountedSize, LiveSize);
    SumAtMost(s.blocks, HeldSize, PassedSize);
  }

  /** Steps that leave the sums as they are: `p` keeps its weight. */
  lemma SameWeight(s: State, s': State, t: Thread, p: Addr, b: Block)
    requires Inv(s) && p < |s.blocks| && s'.blocks == s.blocks[p := b]
    requires s'.counter == s.counter && s'.base == s.base && s'.limit == s.limit
    requires BlockOk(b) && b.counted == s.blocks[p].counted && (b.counted ==> b.header == s.blocks[p].header)
    requires b.passed == s.blocks[p].passed && b.live == s.blocks[p].live && |b.data| == |s.blocks[p].data|
    ensures BlocksOk(s') && CounterOk(s') && LimitOk(s')
  {
    hide Sum;
    SumsAfter(s, p, b);
    if exists q :: 0 <= q < |s'.blocks| && s'.blocks[q].passed {
      var q :| 0 <= q < |s'.blocks| && s'.blocks[q].passed;
      assert s.blocks[q].passed;
    }
  }

  /** The sizes for which size + sizeof(size_t) does not wrap around. */
  predicate NoWrap(step: Step) {
    (step.CallMalloc? || step.CallRealloc?) ==> step.size + HEADER < TWO64
  }

  lemma CallStep(s: State, step: Step)
    requires Inv(s) && Enabled(s, step) && NoWrap(step) && (step.CallMalloc? || step.CallRealloc? || step.CallFree?)
    ensures Inv(Next(s, step))
  {
    hide Sum;
    var s' := Next(s, step);
    var t := step.t;
    if step.CallMalloc? {
      OthersKept(s, s', t, |s.blocks|);
    } else {
      var p := step.ptr;
      assert BlockOk(s.blocks[p]);
      SameWeight(s, s', t, p, s.blocks[p].(owner := Inside(t)));
      OthersKept(s, s', t, p);
    }
  }

  lemma OrigMallocStep(s: State, step: Step)
    requires Inv(s) && Enabled(s, step) && step.OrigMalloc?
    ensures Inv(Next(s, step))
  {
    hide Sum;
    var s' := Next(s, step);
    var t := step.t;
    var pc := PcOf(s, t);
    assert PcOk(s, t, pc);
    if step.ok {
      var b := Block(step.header, step.data, true, false, false, Inside(t));
      assert |step.data| == pc.size;
      SumAppend(s.blocks, b, CountedSize);
      SumAppend(s.blocks, b, PassedSize);
      SumAppend(s.blocks, b, LiveSize);
      assert forall q :: 0 <= q < |s.blocks| ==> s'.blocks[q] == s.blocks[q];
      OthersKept(s, s', t, |s.blocks|);
    } else if pc.orig.Some? {
      var p := pc.orig.value.ptr;
      assert BlockOk(s.blocks[p]);
      SameWeight(s, s', t, p, s.blocks[p].(owner := Caller));
      OthersKept(s, s', t, p);
    } else {
      OthersKept(s, s', t, |s.blocks|);
    }
  }

  lemma HeaderStep(s: State, step: Step)
    requires Inv(s) && Enabled(s, step) && step.WriteHeader?
    ensures Inv(Next(s, step))
  {
    hide Sum;
    var s' := Next(s, step);
    var t := step.t;
    var pc := PcOf(s, t);
    assert PcOk(s, t, pc);
    var p := pc.ptr;
    assert BlockOk(s.blocks[p]);
    SameWeight(s, s', t, p, s.blocks[p].(header := pc.size));
    OthersKept(s, s', t, p);
  }

  lemma FetchAddStep(s: State, step: Step)
    requires Inv(s) && Enabled(s, step) && step.FetchAdd?
    ensures Inv(Next(s, step)) && Next(s, step).counter == s.counter + PcOf(s, step.t).size < TWO64
  {
    hide Sum;
    var s' := Next(s, step);
    var t := step.t;
    var pc := PcOf(s, t);
    assert PcOk(s, t, pc);
    var p := pc.ptr;
    assert BlockOk(s.blocks[p]);
    SumsAfter(s, p, s'.blocks[p]);
    assert BlocksOk(s');
    SumsOrdered(s');
    assert s'.counter == s.counter + pc.size;
    if exists q :: 0 <= q < |s'.blocks| && s'.blocks[q].passed {
      var q :| 0 <= q < |s'.blocks| && s'.blocks[q].passed;
      assert q != p ==> s.blocks[q].passed;
    }
    OthersKept(s, s', t, p);
  }

  lemma MemcpyStep(s: State, step: Step)
    requires Inv(s) && Enabled(s, step) && step.Memcpy?
    ensures Inv(Next(s, step))
  {
    hide Sum;
    var s' := Next(s, step);
    var t := step.t;
    var pc := PcOf(s, t);
    assert PcOk(s, t, pc);
    var p := pc.ptr;
    assert BlockOk(s.blocks[p]) && BlockOk(s.blocks[pc.from.ptr]);
    var before := pc.from.before;
    assert before[..|before|] == before;
    SameWeight(s, s', t, p, s'.blocks[p]);
    OthersKept(s, s', t, p);
  }

  lemma FetchSubStep(s: State, step: Step)
    requires Inv(s) && Enabled(s, step) && step.FetchSub?
    ensures Inv(Next(s, step))
  {
    hide Sum;
    var s' := Next(s, step);
    var t := step.t;
    var pc := PcOf(s, t);
    assert PcOk(s, t, pc);
    var p := pc.ptr;
    assert BlockOk(s.blocks[p]);
    SumsAfter(s, p, s'.blocks[p]);
    assert BlocksOk(s');
    SumsOrdered(s');
    SumsOrdered(s);
    if exists q :: 0 <= q < |s'.blocks| && s'.blocks[q].passed {
      var q :| 0 <= q < |s'.blocks| && s'.blocks[q].passed;
      assert s.blocks[q].passed;
    }
    OthersKept(s, s', t, p);
  }

  lemma OrigFreeStep(s: State, step: Step)
    requires Inv(s) && Enabled(s, step) && step.OrigFree?
    ensures Inv(Next(s, step))
  {
    hide Sum;
    var s' := Next(s, step);
    var t := step.t;
    var pc := PcOf(s, t);
    assert PcOk(s, t, pc);
    var p := pc.ptr;
    assert BlockOk(s.blocks[p]);
    SumsAfter(s, p, s'.blocks[p]);
    if exists q :: 0 <= q < |s'.blocks| && s'.blocks[q].passed {
      var q :| 0 <= q < |s'.blocks| && s'.blocks[q].passed;
      assert s.blocks[q].passed;
    }
    OthersKept(s, s', t, p);
  }

  lemma ReturnStep(s: State, step: Step)
    requires Inv(s) && Enabled(s, step) && step.Return?
    ensures Inv(Next(s, step))
  {
    hide Sum;
    var s' := Next(s, step);
    var pc := PcOf(s, step.t);
    assert PcOk(s, step.t, pc);
    var p := pc.result.ptr;
    assert BlockOk(s.blocks[p]);
    SameWeight(s, s', step.t, p, s'.blocks[p]);
    OthersKept(s, s', step.t, p);
  }

  /** The program writes to a block that no thread inside the tracer works on. */
  lemma WriteStep(s: State, step: Step)
    requires Inv(s) && Enabled(s, step) && step.UserWrite?
    ensures Inv(Next(s, step))
  {
    hide Sum, PcOk;
    var s' := Next(s, step);
    var p := step.ptr;
    assert BlockOk(s.blocks[p]);
    SameWeight(s, s', 0, p, s'.blocks[p]);
    forall u ensures PcOk(s', u, PcOf(s', u)) {
      assert PcOk(s, u, PcOf(s, u));
      PcFrame(s, s', u, PcOf(s, u));
    }
  }

  // ---- whole runs

  predicate IsRun(s: State, steps: seq<Step>)
    decreases |steps|
  {
    steps != [] ==> Enabled(s, steps[0]) && IsRun(Next(s, steps[0]), steps[1..])
  }

  function After(s: State, steps: seq<Step>): State
    requires IsRun(s, steps)
    decreases |steps|
  {
    if steps == [] then s else After(Next(s, steps[0]), steps[1..])
  }

  lemma StepInv(s: State, step: Step)
    requires Inv(s) && Enabled(s, step) && NoWrap(step)
    ensures Inv(Next(s, step))
  {
    hide Inv, Enabled, Next, NoWrap;
    match step {
      case CallMalloc(_, _) => CallStep(s, step);
      case CallRealloc(_, _, _) => CallStep(s, step);
      case CallFree(_, _) => CallStep(s, step);
      case OrigMalloc(_, _, _, _) => OrigMallocStep(s, step);
      case WriteHeader(_) => HeaderStep(s, step);
      case FetchAdd(_) => FetchAddStep(s, step);
      case Memcpy(_) => MemcpyStep(s, step);
      case FetchSub(_) => FetchSubStep(s, step);
      case OrigFree(_) => OrigFreeStep(s, step);
      case Return(_) => ReturnStep(s, step);
      case UserWrite(_, _, _) => WriteStep(s, step);
    }
  }

  lemma {:induction false} RunInv(s: State, steps: seq<Step>)
    requires Inv(s) && IsRun(s, steps) && forall i :: 0 <= i < |steps| ==> NoWrap(steps[i])
    ensures Inv(After(s, steps)) && After(s, steps).base == s.base && After(s, steps).limit == s.limit
    decreases |steps|
  {
    if steps != [] {
      hide Inv, Enabled;
      StepInv(s, steps[0]);
      RunInv(Next(s, steps[0]), steps[1..]);
    }
  }

  function Initial(base: nat, limit: nat): State {
    State(base, base, limit, [], map[])
  }

  /** Over every interleaving the counter is exact, and what callers hold stays within the limit. */
  lemma Accounting(base: nat, limit: nat, steps: seq<Step>)
    requires base < TWO64 && IsRun(Initial(base, limit), steps) && forall i :: 0 <= i < |steps| ==> NoWrap(steps[i])
    ensures var s := After(Initial(base, limit), steps);
      && s.counter == base + Sum(s.blocks, CountedSize) < TWO64
      && (forall p: Addr :: HeldByCaller(s, p) ==> s.blocks[p].counted && base + Sum(s.blocks, HeldSize) <= limit)
  {
    RunInv(Initial(base, limit), steps);
    var s := After(Initial(base, limit), steps);
    SumsOrdered(s);
    forall p: Addr | HeldByCaller(s, p) ensures s.blocks[p].counted && base + Sum(s.blocks, HeldSize) <= limit {
      assert BlockOk(s.blocks[p]);
    }
  }

  // ---- what a call leads to

  /** A step of another thread or of the program, or one with which thread `t` goes on with its call. */
  predicate GoesOn(step: Step, t: Thread) {
    step.UserWrite? || step.t != t || step.WriteHeader? || step.FetchAdd? || step.Memcpy? || step.FetchSub? ||
    step.OrigFree? || (step.OrigMalloc? && step.ok)
  }

  /** What the thread has to do since `call` in state `s0`: the block it works on is a new one. */
  predicate Serves(s0: State, call: Step, size: nat, orig: Option<Old>, p: Addr)
    requires Enabled(s0, call)
  {
    match call
    case CallMalloc(_, n) => size == n && orig == None && p >= |s0.blocks|
    case CallRealloc(_, q, n) =>
      size == n > s0.blocks[q].header && orig == Some(Old(q, s0.blocks[q].data)) && p >= |s0.blocks|
    case _ => false
  }

  /** ... and what it is about to return, if it returns anything. */
  predicate Answers(s0: State, call: Step, r: Reply)
    requires Enabled(s0, call)
  {
    || Serves(s0, call, r.size, r.orig, r.ptr)
    || (call.CallRealloc? && s0.blocks[call.ptr].header >= call.size &&
        r == Reply(call.ptr, call.size, Some(Old(call.ptr, s0.blocks[call.ptr].data))))
  }

  predicate Serving(s0: State, call: Step, s: State)
    requires Enabled(s0, call) && (call.CallMalloc? || call.CallRealloc? || call.CallFree?)
  {
    |s.blocks| >= |s0.blocks| &&
    match PcOf(s, call.t)
    case Idle => call.CallFree? && Dead(s, call.ptr)
    case Exiting => !call.CallFree?
    case Mallocing(size, orig) => Serves(s0, call, size, orig, |s.blocks|)
    case Headering(p, size, orig) => Serves(s0, call, size, orig, p)
    case Adding(p, size, orig) => Serves(s0, call, size, orig, p)
    case Copying(p, size, from) => Serves(s0, call, size, Some(from), p)
    case Subtracting(p, _, None) => call.CallFree? && p == call.ptr
    case Subtracting(p, _, Some(r)) => Answers(s0, call, r)
    case Releasing(p, None) => call.CallFree? && p == call.ptr
    case Releasing(p, Some(r)) => Answers(s0, call, r)
    case Returning(r) => Answers(s0, call, r)
  }

  /** Steps of other threads do not disturb a call. */
  lemma NotDisturbed(s0: State, call: Step, s: State, step: Step)
    requires Enabled(s0, call) && (call.CallMalloc? || call.CallRealloc? || call.CallFree?)
    requires Serving(s0, call, s) && Enabled(s, step) && (step.UserWrite? || step.t != call.t) && Inv(s)
    ensures Serving(s0, call, Next(s, step))
  {
    hide Answers, Inv;
    DeadStays(s, step);
  }

  lemma DeadStays(s: State, step: Step)
    requires Enabled(s, step) && Inv(s)
    ensures |Next(s, step).blocks| >= |s.blocks| && forall p: Addr :: Dead(s, p) ==> Dead(Next(s, step), p)
  {
    hide Sum;
    assert !step.UserWrite? ==> PcOk(s, step.t, PcOf(s, step.t));
  }

  lemma ServingStep(s0: State, call: Step, s: State, step: Step)
    requires Enabled(s0, call) && (call.CallMalloc? || call.CallRealloc? || call.CallFree?)
    requires Serving(s0, call, s) && Enabled(s, step) && GoesOn(step, call.t) && Inv(s)
    ensures Serving(s0, call, Next(s, step))
  {
    if step.UserWrite? || step.t != call.t {
      NotDisturbed(s0, call, s, step);
    } else {
      OwnStep(s0, call, s, step);
    }
  }

  lemma OwnStep(s0: State, call: Step, s: State, step: Step)
    requires Enabled(s0, call) && (call.CallMalloc? || call.CallRealloc? || call.CallFree?)
    requires Serving(s0, call, s) && Enabled(s, step) && GoesOn(step, call.t) && Inv(s)
    requires !step.UserWrite? && step.t == call.t
    ensures Serving(s0, call, Next(s, step))
  {
    hide Sum;
    assert PcOk(s, step.t, PcOf(s, step.t));
  }

  lemma {:induction false} ServingRun(s0: State, call: Step, s: State, steps: seq<Step>)
    requires Enabled(s0, call) && (call.CallMalloc? || call.CallRealloc? || call.CallFree?)
    requires Serving(s0, call, s) && Inv(s) && IsRun(s, steps)
    requires forall i :: 0 <= i < |steps| ==> NoWrap(steps[i]) && GoesOn(steps[i], call.t)
    ensures Serving(s0, call, After(s, steps)) && Inv(After(s, steps))
    decreases |steps|
  {
    if steps != [] {
      hide Inv, Enabled, Serving, Next;
      StepInv(s, steps[0]);
      ServingStep(s0, call, s, steps[0]);
      ServingRun(s0, call, Next(s, steps[0]), steps[1..]);
    }
  }

  /** `call` is made in `s0`, which a run has led to, and `s` is a state in which the thread has not yet returned
      from it. */
  ghost predicate Called(base: nat, limit: nat, before: seq<Step>, s0: State, call: Step, steps: seq<Step>, s: State) {
    && base < TWO64 && IsRun(Initial(base, limit), before) && s0 == After(Initial(base, limit), before)
    && (call.CallMalloc? || call.CallRealloc? || call.CallFree?) && Enabled(s0, call) && NoWrap(call)
    && IsRun(Next(s0, call), steps) && s == After(Next(s0, call), steps)
    && (forall i :: 0 <= i < |before| ==> NoWrap(before[i]))
    && (forall i :: 0 <= i < |steps| ==> NoWrap(steps[i]) && GoesOn(steps[i], call.t))
  }

  lemma InitialInv(base: nat, limit: nat)
    requires base < TWO64
    ensures Inv(Initial(base, limit))
  {
  }

  lemma ServingFirst(s0: State, call: Step)
    requires Enabled(s0, call) && (call.CallMalloc? || call.CallRealloc? || call.CallFree?)
    ensures Serving(s0, call, Next(s0, call))
  {
  }

  lemma CallIsServed(base: nat, limit: nat, before: seq<Step>, s0: State, call: Step, steps: seq<Step>, s: State)
    requires Called(base, limit, before, s0, call, steps, s)
    ensures Inv(s0) && Inv(s) && Serving(s0, call, s)
  {
    hide Inv, Serving, Enabled, Next;
    InitialInv(base, limit);
    RunInv(Initial(base, limit), before);
    StepInv(s0, call);
    ServingFirst(s0, call);
    ServingRun(s0, call, Next(s0, call), steps);
  }

  /** Over every interleaving, malloc returns a new block of exactly the size asked for. */
  lemma MallocReturns(base: nat, limit: nat, before: seq<Step>, s0: State, call: Step, steps: seq<Step>, s: State)
    requires Called(base, limit, before, s0, call, steps, s) && call.CallMalloc? && PcOf(s, call.t).Returning?
    ensures var q := PcOf(s, call.t).result.ptr; var s' := Next(s, Return(call.t));
      && HeldByCaller(s', q) && q >= |s0.blocks| && |s'.blocks[q].data| == s'.blocks[q].header == call.size
      && PcOf(s', call.t) == Idle
  {
    CallIsServed(base, limit, before, s0, call, steps, s);
    hide Called, Sum;
    assert PcOk(s, call.t, PcOf(s, call.t));
    assert BlockOk(s.blocks[PcOf(s, call.t).result.ptr]);
  }

  /** Over every interleaving, realloc returns the same block, as it was, exactly if its header is not less than the
      size asked for; otherwise a new block of exactly that size that starts with the old contents, and the old block
      is no more. */
  lemma ReallocReturns(base: nat, limit: nat, before: seq<Step>, s0: State, call: Step, steps: seq<Step>, s: State)
    requires Called(base, limit, before, s0, call, steps, s) && call.CallRealloc? && PcOf(s, call.t).Returning?
    ensures var q := PcOf(s, call.t).result.ptr; var s' := Next(s, Return(call.t)); var was := s0.blocks[call.ptr];
      && PcOf(s', call.t) == Idle
      && HeldByCaller(s', q) && |s'.blocks[q].data| == s'.blocks[q].header >= call.size
      && (q == call.ptr <==> was.header >= call.size)
      && (if q == call.ptr then s'.blocks[q].data == was.data
          else && |s0.blocks| <= q && s'.blocks[q].header == call.size && was.data <= s'.blocks[q].data
               && !s'.blocks[call.ptr].live)
  {
    CallIsServed(base, limit, before, s0, call, steps, s);
    hide Called, Sum;
    assert PcOk(s, call.t, PcOf(s, call.t));
    assert BlockOk(s.blocks[PcOf(s, call.t).result.ptr]) && BlockOk(s0.blocks[call.ptr]);
  }

  /** Over every interleaving, a call to free that is over has freed its block, and the block is not counted. */
  lemma FreeFrees(base: nat, limit: nat, before: seq<Step>, s0: State, call: Step, steps: seq<Step>, s: State)
    requires Called(base, limit, before, s0, call, steps, s) && call.CallFree? && PcOf(s, call.t) == Idle
    ensures call.ptr < |s.blocks| && !s.blocks[call.ptr].live && !s.blocks[call.ptr].counted
  {
    CallIsServed(base, limit, before, s0, call, steps, s);
    hide Called, Sum;
    assert BlockOk(s.blocks[call.ptr]);
  }

  /** A realloc for which there is no memory leaves the program its block as it was. */
  lemma ReallocFails(s: State, step: Step)
    requires Inv(s) && Enabled(s, step) && step.OrigMalloc? && !step.ok && PcOf(s, step.t).orig.Some?
    ensures var o := PcOf(s, step.t).orig.value; var s' := Next(s, step);
      HeldByCaller(s', o.ptr) && s'.blocks[o.ptr].data == o.before && PcOf(s', step.t) == Idle
  {
    assert PcOk(s, step.t, PcOf(s, step.t));
  }

  /** A thread exits exactly when the block it counts takes the counter above the limit. */
  lemma ExitsAboveLimit(s: State, step: Step, t: Thread)
    requires Inv(s) && Enabled(s, step) && PcOf(s, t) != Exiting
    ensures PcOf(Next(s, step), t) == Exiting <==>
      step == FetchAdd(t) && s.counter + PcOf(s, t).size > s.limit
  {
    hide Inv, PcOk;
    if step == FetchAdd(t) {
      FetchAddStep(s, step);
    }
  }

  /** Counting a block keeps the counter exact if and only if the addition does not wrap around. */
  lemma FetchAddExact(s: State, t: Thread)
    requires PcOf(s, t).Adding? && var pc := PcOf(s,
      t); pc.ptr < |s.blocks| && s.blocks[pc.ptr].header == pc.size && !s.blocks[pc.ptr].counted
    requires s.counter == s.base + Sum(s.blocks, CountedSize) < TWO64 && PcOf(s, t).size < TWO64
    ensures var s' := Next(s, FetchAdd(t)); var size := PcOf(s, t).size;
      s'.counter == s.base + Sum(s'.blocks, CountedSize) <==> s.counter + size < TWO64
  {
    hide Sum;
    var pc := PcOf(s, t);
    var s' := Next(s, FetchAdd(t));
    SumUpdate(s.blocks, pc.ptr, s'.blocks[pc.ptr], CountedSize);
  }

  /** For a size that wraps around, both fail: the program holds a block of 2^64 - 8 bytes by its
      header, and the counter has gone down. */
  lemma WrapBreaksAccounting()
    ensures var steps := [CallMalloc(0, TWO64 - 8), OrigMalloc(0, true, 0, []), WriteHeader(0), FetchAdd(0), Return(0)];
      && IsRun(Initial(100, 1000), steps)
      && (var s := After(Initial(100, 1000), steps);
          s.counter == 92 && HeldByCaller(s, 0) && s.blocks[0].header > s.limit)
  {
    hide Enabled, Next;
    WrapAllocates();
    WrapIsCounted();
    RunOf5(Initial(100, 1000), CallMalloc(0, TWO64 - 8), OrigMalloc(0, true, 0, []), WriteHeader(0), FetchAdd(0),
      Return(0));
  }

  /** The state after orig_malloc has served the wrapped size. */
  const WRAPPED: State := State(100, 100, 1000, [Block(0, [], true, false, false, Inside(0))],
    map[0 := Headering(0, TWO64 - 8, None)])

  lemma WrapAllocates()
    ensures var a := CallMalloc(0, TWO64 - 8); var b := OrigMalloc(0, true, 0, []); var s := Initial(100, 1000);
      Enabled(s, a) && Enabled(Next(s, a), b) && Next(Next(s, a), b) == WRAPPED
  {
    var s1 := Next(Initial(100, 1000), CallMalloc(0, TWO64 - 8));
    assert s1 == State(100, 100, 1000, [], map[0 := Mallocing(TWO64 - 8, None)]);
    assert map[0 := Mallocing(TWO64 - 8, None)][0 := Headering(0, TWO64 - 8, None)] ==
      map[0 := Headering(0, TWO64 - 8, None)];
  }

  lemma WrapIsCounted()
    ensures var c := WriteHeader(0); var d := FetchAdd(0); var e := Return(0);
      && Enabled(WRAPPED, c) && Enabled(Next(WRAPPED, c), d) && Enabled(Next(Next(WRAPPED, c), d), e)
      && (var s := Next(Next(Next(WRAPPED, c), d), e);
          s.counter == 92 && s.limit == 1000 && HeldByCaller(s, 0) && s.blocks[0].header == TWO64 - 8)
  {
    var s3 := Next(WRAPPED, WriteHeader(0));
    assert s3.blocks == [Block(TWO64 - 8, [], true, false, false, Inside(0))] &&
      PcOf(s3, 0) == Adding(0, TWO64 - 8, None);
    var s4 := Next(s3, FetchAdd(0));
    assert s4.counter == 92 && PcOf(s4, 0) == Returning(Reply(0, TWO64 - 8, None));
  }

  lemma RunOf5(s: State, a: Step, b: Step, c: Step, d: Step, e: Step)
    requires Enabled(s, a) && Enabled(Next(s, a), b) && Enabled(Next(Next(s, a), b), c)
    requires Enabled(Next(Next(Next(s, a), b), c), d) && Enabled(Next(Next(Next(Next(s, a), b), c), d), e)
    ensures IsRun(s, [a, b, c, d, e]) && After(s, [a, b, c, d, e]) == Next(Next(Next(Next(Next(s, a), b), c), d), e)
  {
    hide Enabled, Next;
    assert [a, b, c, d, e][1..] == [b, c, d, e] && [b, c, d, e][1..] == [c, d, e] && [c, d, e][1..] == [d, e];
    assert [d, e][1..] == [e] && [e][1..] == [];
    var s1, s2 := Next(s, a), Next(Next(s, a), b);
    var s3 := Next(s2, c);
    var s4 := Next(s3, d);
    assert IsRun(Next(s4, e), []) && After(Next(s4, e), []) == Next(s4, e);
    assert IsRun(s4, [e]) && After(s4, [e]) == Next(s4, e);
    assert IsRun(s3, [d, e]) && After(s3, [d, e]) == Next(s4, e);
    assert IsRun(s2, [c, d, e]) && After(s2, [c, d, e]) == Next(s4, e);
    assert IsRun(s1, [b, c, d, e]) && After(s1, [b, c, d, e]) == Next(s4, e);
  }
}
