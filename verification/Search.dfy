/** Reading an evbuffer: positions, copying out, searching. */
module EvbufferSearch {
  import opened Options
  import opened Bytes
  import opened Addresses
  import opened ChunkLists
  import opened Shapes
  import opened Evbuffers

  /** `struct evbuffer_ptr`: a position in the bytes and in the chunks; pos is -1 for "not found". */
  datatype EvbufferPtr = EvbufferPtr(pos: int, chain: Ptr, posInChain: nat)

  const NOT_FOUND := EvbufferPtr(-1, NULL, 0)

  /** In the bytes `bytes` of the list pre + rs, `it` stands it.posInChain bytes into the first
      chunk of `rs`. */
  ghost predicate PtrAt(m: Memory, bytes: seq<byte>, pre: seq<Ptr>, rs: seq<Ptr>, it: EvbufferPtr) {
    && Linked(m, rs, NULL) && it.chain == Head(rs, NULL)
    && bytes == Stored(m, pre) + Stored(m, rs)
    && it.pos == |Stored(m, pre)| + it.posInChain
    && (if rs == [] then it.posInChain == 0 else it.posInChain <= m[rs[0]].off)
  }

  /** The bytes stored in the current chunk from the position on. */
  function Ahead(m: Memory, it: EvbufferPtr): seq<byte>
    requires it.chain in m && m[it.chain].Ok() && it.posInChain <= m[it.chain].off
  {
    m[it.chain].Data()[it.posInChain..]
  }

  /** The position is inside the bytes, and what is ahead in its chunk comes next in the bytes. */
  lemma PtrBytes(m: Memory, bytes: seq<byte>, pre: seq<Ptr>, rs: seq<Ptr>, it: EvbufferPtr)
    requires PtrAt(m, bytes, pre, rs, it)
    ensures 0 <= it.pos <= |bytes|
    ensures rs == [] <==> it.chain == NULL
    ensures rs == [] ==> it.pos == |bytes|
    ensures rs != [] ==> it.chain in m && m[it.chain].Ok() && it.posInChain <= m[it.chain].off
    ensures rs != [] ==> Ahead(m, it) <= bytes[it.pos..] && |Ahead(m, it)| == m[it.chain].off - it.posInChain
  {
    if rs != [] {
      assert |m[rs[0]].Data()| == m[rs[0]].off;
      DropInMiddle(Stored(m, pre), m[rs[0]].Data(), Stored(m, rs[1..]), it.posInChain);
    }
  }

  lemma DropInMiddle(a: seq<byte>, d: seq<byte>, b: seq<byte>, k: nat)
    requires k <= |d|
    ensures (a + (d + b))[|a| + k..] == d[k..] + b
  {
  }

  /** Going on to the next chunk skips the rest of this one. */
  lemma PtrNextChunk(m: Memory, bytes: seq<byte>, pre: seq<Ptr>, rs: seq<Ptr>, it: EvbufferPtr)
    requires PtrAt(m, bytes, pre, rs, it) && rs != []
    ensures it.chain in m && m[it.chain].Ok()
    ensures PtrAt(m, bytes, pre + [rs[0]], rs[1..],
      EvbufferPtr(it.pos + (m[it.chain].off - it.posInChain), m[it.chain].next, 0))
  {
    StoredConcat(m, pre, [rs[0]]);
    StoredSingle(m, rs[0]);
    Assoc(Stored(m, pre), m[rs[0]].Data(), Stored(m, rs[1..]));
    assert |m[rs[0]].Data()| == m[rs[0]].off;
  }

  /** Moving within the chunk. */
  lemma PtrForward(m: Memory, bytes: seq<byte>, pre: seq<Ptr>, rs: seq<Ptr>, it: EvbufferPtr, n: nat)
    requires PtrAt(m, bytes, pre, rs, it) && rs != [] && it.chain in m && it.posInChain + n <= m[it.chain].off
    ensures PtrAt(m, bytes, pre, rs, EvbufferPtr(it.pos + n, it.chain, it.posInChain + n))
  {
  }

  /** The start of the buffer. */
  lemma PtrStart(buf: Evbuffer)
    requires buf.Valid()
    ensures PtrAt(buf.heap.m, buf.Contents(), [], buf.Chain(), EvbufferPtr(0, buf.first, 0))
  {
    WholeList(buf.heap.m, buf.first, buf.lastWithDatap, buf.data, buf.spare);
    assert [] + buf.Contents() == buf.Contents();
  }

  /** Extending a slice by the start of what follows it. */
  lemma SliceMore(bytes: seq<byte>, i: nat, j: nat, d: seq<byte>, k: nat)
    requires i <= j <= |bytes| && d <= bytes[j..] && k <= |d|
    ensures j + k <= |bytes| && bytes[i..j] + d[..k] == bytes[i..j + k]
  {
    assert bytes[j..][..k] == d[..k];
    assert bytes[j..j + k] == bytes[j..][..k];
  }

  /** evbuffer_copyout_from: the next `datlen` bytes from `it` on, or all that are left; -1 if there are
      some and the front of the buffer is frozen, or if the end cannot be counted. */
  method CopyoutFrom(buf: Evbuffer, it: EvbufferPtr, datlen: nat, ghost pre: seq<Ptr>, ghost rs: seq<Ptr>)
    returns (n: int, out: seq<byte>)
    requires buf.Valid() && PtrAt(buf.heap.m, buf.Contents(), pre, rs, it)
    ensures 0 <= it.pos <= |buf.Contents()|
    ensures var len := if it.pos + datlen > |buf.Contents()| then |buf.Contents()| - it.pos else datlen;
      if it.pos + datlen > SSIZE_MAX || (len > 0 && buf.freezeStart) then n == -1 && out == []
      else n == len && out == buf.Contents()[it.pos..it.pos + len]
  {
    hide Shape, Stored, PtrAt;
    PtrBytes(buf.heap.m, buf.Contents(), pre, rs, it);
    if datlen > SSIZE_MAX - it.pos {
      return -1, [];
    }
    var len := if it.pos + datlen > buf.totalLen then buf.totalLen - it.pos else datlen;
    if len == 0 {
      return 0, [];
    }
    if buf.freezeStart {
      return -1, [];
    }
    out := CopyBytes(buf, it, len, pre, rs);
    return len, out;
  }

  /** The loop of evbuffer_copyout_from. */
  method CopyBytes(buf: Evbuffer, it: EvbufferPtr, datlen: nat, ghost pre: seq<Ptr>, ghost rs: seq<Ptr>)
    returns (out: seq<byte>)
    requires buf.Valid() && PtrAt(buf.heap.m, buf.Contents(), pre, rs, it)
    ensures 0 <= it.pos <= |buf.Contents()|
    ensures out == if it.pos + datlen > |buf.Contents()| then buf.Contents()[it.pos..]
      else buf.Contents()[it.pos..it.pos + datlen]
  {
    hide Shape, Linked, Stored, Rest, AllEmpty, Elems, PtrAt;
    ghost var m, bytes := buf.heap.m, buf.Contents();
    PtrBytes(m, bytes, pre, rs, it);
    var left: nat := if it.pos + datlen > buf.totalLen then buf.totalLen - it.pos else datlen;
    ghost var end := it.pos + left;
    out := [];
    var at := it;
    ghost var ps, qs := pre, rs;
    while left > 0 && left >= buf.heap.m[at.chain].off - at.posInChain
      invariant PtrAt(m, bytes, ps, qs, at) && 0 <= at.pos && at.pos + left == end <= |bytes|
      invariant it.pos <= at.pos && out == bytes[it.pos..at.pos]
      invariant left > 0 ==> qs != [] && at.chain in m && m[at.chain].Ok() && at.posInChain <= m[at.chain].off
      decreases |qs|
    {
      PtrBytes(m, bytes, ps, qs, at);
      PtrNextChunk(m, bytes, ps, qs, at);
      ghost var d := Ahead(m, at);
      SliceMore(bytes, it.pos, at.pos, d, |d|);
      assert d[..|d|] == d;
      out := out + Ahead(buf.heap.m, at);
      var copylen := buf.heap.m[at.chain].off - at.posInChain;
      left := left - copylen;
      at := EvbufferPtr(at.pos + copylen, buf.heap.m[at.chain].next, 0);
      ps, qs := ps + [qs[0]], qs[1..];
      PtrBytes(m, bytes, ps, qs, at);
    }
    if left > 0 {
      PtrBytes(m, bytes, ps, qs, at);
      SliceMore(bytes, it.pos, at.pos, Ahead(m, at), left);
      out := out + Ahead(buf.heap.m, at)[..left];
    }
  }

  /** evbuffer_copyout: the first `datlen` bytes, or -1 if the front of the buffer is frozen. */
  method Copyout(buf: Evbuffer, datlen: nat) returns (n: int, out: seq<byte>)
    requires buf.Valid()
    ensures var len := if datlen > |buf.Contents()| then |buf.Contents()| else datlen;
            if len > 0 && buf.freezeStart then n == -1 && out == [] else n == len && out == buf.Contents()[..len]
  {
    hide Shape, Stored;
    var len := if datlen > buf.totalLen then buf.totalLen else datlen;
    if len == 0 {
      return 0, [];
    }
    if buf.freezeStart {
      return -1, [];
    }
    PtrStart(buf);
    out := CopyBytes(buf, EvbufferPtr(0, buf.first, 0), len, [], buf.Chain());
    n := len;
  }

  /** evbuffer_remove: copies out and drains. */
  method Remove(buf: Evbuffer, datlen: nat) returns (n: int, out: seq<byte>)
    requires buf.Valid()
    modifies buf.heap, buf`first, buf`last, buf`lastWithDatap, buf`totalLen, buf`data, buf`spare
    ensures buf.Valid() && Rest(buf.heap.m, buf.Chain()) == old(Rest(buf.heap.m, buf.Chain()))
    ensures var len := if datlen > |old(buf.Contents())| then |old(buf.Contents())| else datlen;
            if len > 0 && buf.freezeStart then n == -1 && out == [] && buf.Contents() == old(buf.Contents())
            else n == len && old(buf.Contents()) == out + buf.Contents() && |out| == len
  {
    hide Shape, Stored, Rest;
    n, out := Copyout(buf, datlen);
    if n > 0 {
      var ok := buf.Drain(n);
    }
  }

  /** `what` occurs in `bytes` at position `i`. */
  predicate MatchAt(bytes: seq<byte>, what: seq<byte>, i: int) {
    0 <= i && i + |what| <= |bytes| && bytes[i..i + |what|] == what
  }

  /** evbuffer_ptr_memcmp, as the test whether it returns 0: compares chunk by chunk. */
  method PtrMatches(buf: Evbuffer, it: EvbufferPtr, what: seq<byte>, ghost pre: seq<Ptr>, ghost rs: seq<Ptr>)
    returns (eq: bool)
    requires buf.Valid() && PtrAt(buf.heap.m, buf.Contents(), pre, rs, it)
    ensures eq <==> MatchAt(buf.Contents(), what, it.pos)
  {
    hide Shape, Linked, Stored, Rest, AllEmpty, Elems, PtrAt;
    ghost var m, bytes := buf.heap.m, buf.Contents();
    PtrBytes(m, bytes, pre, rs, it);
    if it.pos + |what| > buf.totalLen {
      return false;
    }
    var done, at := 0, it;
    ghost var ps, qs := pre, rs;
    while done < |what|
      invariant 0 <= done <= |what| && PtrAt(m, bytes, ps, qs, at)
      invariant done < |what| ==> at.pos == it.pos + done
      invariant bytes[it.pos..it.pos + done] == what[..done]
      decreases |qs|, |what| - done
    {
      PtrBytes(m, bytes, ps, qs, at);
      PtrNextChunk(m, bytes, ps, qs, at);
      var chunk := Ahead(buf.heap.m, at);
      var n := if |what| - done > |chunk| then |chunk| else |what| - done;
      MatchMore(bytes, it.pos, what, done, chunk, n);
      if chunk[..n] != what[done..done + n] {
        return false;
      }
      done := done + n;
      at := EvbufferPtr(at.pos + (buf.heap.m[at.chain].off - at.posInChain), buf.heap.m[at.chain].next, 0);
      ps, qs := ps + [qs[0]], qs[1..];
    }
    assert what[..done] == what;
    return true;
  }

  /** The next chunk agrees with the pattern, or the pattern does not occur. */
  lemma MatchMore(bytes: seq<byte>, i: nat, what: seq<byte>, done: nat, chunk: seq<byte>, n: nat)
    requires i + |what| <= |bytes| && done + n <= |what| && n <= |chunk| && chunk <= bytes[i + done..]
    requires bytes[i..i + done] == what[..done]
    ensures chunk[..n] == what[done..done + n] ==> bytes[i..i + (done + n)] == what[..done + n]
    ensures chunk[..n] != what[done..done + n] ==> !MatchAt(bytes, what, i)
  {
    SliceMore(bytes, i, i + done, chunk, n);
    assert what[..done] + what[done..done + n] == what[..done + n];
    CompareSlices(bytes, i, what, done + n);
    if chunk[..n] != what[done..done + n] {
      assert bytes[i..i + (done + n)][done..] == chunk[..n] && what[..done + n][done..] == what[done..done + n];
    }
  }

  lemma CompareSlices(bytes: seq<byte>, i: nat, what: seq<byte>, k: nat)
    requires k <= |what| && i + k <= |bytes|
    ensures MatchAt(bytes, what, i) ==> bytes[i..i + k] == what[..k]
  {
    if MatchAt(bytes, what, i) {
      assert bytes[i..i + |what|][..k] == bytes[i..i + k];
    }
  }

  /** The first position in `s` of a byte of `cs`, or -1; memchr when `cs` has one byte. */
  function FirstOf(s: seq<byte>, cs: seq<byte>): (i: int)
    ensures -1 <= i < |s|
    ensures i >= 0 ==> s[i] in cs && NoneOf(s, cs, 0, i)
    ensures i == -1 ==> NoneOf(s, cs, 0, |s|)
  {
    if s == [] then -1
    else if s[0] in cs then 0
    else
      var r := FirstOf(s[1..], cs);
      assert forall k :: 0 < k < |s| ==> s[k] == s[1..][k - 1];
      if r == -1 then -1 else r + 1
  }

  /** No byte of `cs` is at a position in from..to. */
  ghost predicate NoneOf(bytes: seq<byte>, cs: seq<byte>, from: int, to: int) {
    forall i :: from <= i < to && 0 <= i < |bytes| ==> bytes[i] !in cs
  }

  /** Scanning on through the start of what is ahead. */
  lemma NoneOfMore(bytes: seq<byte>, cs: seq<byte>, from: nat, at: nat, d: seq<byte>, n: nat)
    requires NoneOf(bytes, cs, from, at) && at <= |bytes| && d <= bytes[at..] && n <= |d| && NoneOf(d, cs, 0, n)
    ensures NoneOf(bytes, cs, from, at + n)
    ensures n < |d| ==> at + n < |bytes| && bytes[at + n] == d[n]
  {
    forall i | at <= i < at + n && i < |bytes| ensures bytes[i] !in cs {
      assert bytes[i] == d[i - at];
    }
    if n < |d| {
      assert bytes[at..][n] == d[n];
    }
  }

  /** No occurrence of `what` starts in from..to. */
  ghost predicate NoMatch(bytes: seq<byte>, what: seq<byte>, from: int, to: int) {
    forall i :: from <= i < to ==> !MatchAt(bytes, what, i)
  }

  lemma MatchFirst(bytes: seq<byte>, what: seq<byte>, i: int)
    ensures MatchAt(bytes, what, i) && what != [] ==> 0 <= i < |bytes| && bytes[i] == what[0]
  {
    if MatchAt(bytes, what, i) && what != [] {
      assert bytes[i..i + |what|][0] == what[0];
    }
  }

  /** Where the first byte of the pattern does not occur, no match starts. */
  lemma NoFirstByte(bytes: seq<byte>, what: seq<byte>, from: nat, to: nat)
    requires what != [] && NoneOf(bytes, [what[0]], from, to)
    ensures NoMatch(bytes, what, from, to)
  {
    forall i | from <= i < to ensures !MatchAt(bytes, what, i) {
      MatchFirst(bytes, what, i);
    }
  }

  /** A scan may go on past a position where the first byte matches but the pattern does not. */
  lemma NoMatchMore(bytes: seq<byte>, what: seq<byte>, from: nat, mid: nat, to: nat)
    requires what != [] && from <= mid <= to && NoMatch(bytes, what, from, mid) && NoneOf(bytes, [what[0]], mid, to)
    ensures NoMatch(bytes, what, from, to)
    ensures !MatchAt(bytes, what, to) ==> NoMatch(bytes, what, from, to + 1)
  {
    NoFirstByte(bytes, what, mid, to);
  }

  /** The end of a chunk: the position where the next one starts. */
  method NextChunk(buf: Evbuffer, it: EvbufferPtr, ghost ps: seq<Ptr>, ghost qs: seq<Ptr>)
    returns (nx: EvbufferPtr, ghost ps1: seq<Ptr>, ghost qs1: seq<Ptr>)
    requires PtrAt(buf.heap.m, buf.Contents(), ps, qs, it) && it.chain != NULL
    ensures it.chain in buf.heap.m && buf.heap.m[it.chain].Ok() && it.posInChain <= buf.heap.m[it.chain].off
    ensures PtrAt(buf.heap.m, buf.Contents(), ps1, qs1, nx) &&
      nx.pos == it.pos + |Ahead(buf.heap.m, it)| <= |buf.Contents()|
    ensures |qs1| < |qs| && (nx.chain == NULL ==> nx.pos == |buf.Contents()|)
  {
    hide Shape, Linked, Stored, Rest, AllEmpty, Elems, PtrAt;
    PtrBytes(buf.heap.m, buf.Contents(), ps, qs, it);
    PtrNextChunk(buf.heap.m, buf.Contents(), ps, qs, it);
    nx := EvbufferPtr(it.pos + (buf.heap.m[it.chain].off - it.posInChain), buf.heap.m[it.chain].next, 0);
    ps1, qs1 := ps + [qs[0]], qs[1..];
    PtrBytes(buf.heap.m, buf.Contents(), ps1, qs1, nx);
  }

  /** Looks for `cs` in the rest of the chunk `it` is in, and moves there if it is found. */
  method FindInChunk(buf: Evbuffer, it: EvbufferPtr, cs: seq<byte>, ghost from: nat, ghost ps: seq<Ptr>,
      ghost qs: seq<Ptr>)
    returns (found: bool, at: EvbufferPtr)
    requires PtrAt(buf.heap.m, buf.Contents(), ps, qs, it) && it.chain != NULL && from <= it.pos
    requires NoneOf(buf.Contents(), cs, from, it.pos)
    ensures 0 <= it.pos && it.chain in buf.heap.m && buf.heap.m[it.chain].Ok() &&
      it.posInChain <= buf.heap.m[it.chain].off
    ensures found ==> PtrAt(buf.heap.m, buf.Contents(), ps, qs, at) && it.pos <= at.pos < |buf.Contents()|
    ensures found ==> at.chain == it.chain && at.posInChain < buf.heap.m[it.chain].off
    ensures found ==> buf.Contents()[at.pos] in cs && NoneOf(buf.Contents(), cs, from, at.pos)
    ensures !found ==> NoneOf(buf.Contents(), cs, from, it.pos + |Ahead(buf.heap.m, it)|)
  {
    hide Shape, Linked, Stored, Rest, AllEmpty, Elems, PtrAt;
    PtrBytes(buf.heap.m, buf.Contents(), ps, qs, it);
    var ahead := Ahead(buf.heap.m, it);
    var p;
    if cs == EOL_CHARS {
      p := FindEolChar(ahead);
    } else {
      p := FirstOf(ahead, cs);
    }
    found, at := p >= 0, it;
    NoneOfMore(buf.Contents(), cs, from, it.pos, ahead, if found then p else |ahead|);
    if found {
      PtrForward(buf.heap.m, buf.Contents(), ps, qs, it, p);
      at := EvbufferPtr(it.pos + p, it.chain, it.posInChain + p);
    }
  }

  const CR: byte := 13
  const LF: byte := 10
  const NUL: byte := 0
  const EOL_CHARS: seq<byte> := [CR, LF]
  const CHUNK_SZ: nat := 128

  /** find_eol_char: two memchr calls on each stretch of 128 bytes. */
  method FindEolChar(s: seq<byte>) returns (p: int)
    ensures -1 <= p < |s|
    ensures p >= 0 ==> s[p] in EOL_CHARS && NoneOf(s, EOL_CHARS, 0, p)
    ensures p == -1 ==> NoneOf(s, EOL_CHARS, 0, |s|)
  {
    var at: nat := 0;
    while at < |s|
      invariant NoneOf(s, EOL_CHARS, 0, at)
    {
      var chunk := if at + CHUNK_SZ < |s| then s[at..at + CHUNK_SZ] else s[at..];
      var cr, lf := FirstOf(chunk, [CR]), FirstOf(chunk, [LF]);
      assert chunk <= s[at..];
      EolInChunk(s, at, chunk, cr, lf);
      if cr >= 0 {
        return at + if 0 <= lf < cr then lf else cr;
      } else if lf >= 0 {
        return at + lf;
      }
      at := at + CHUNK_SZ;
    }
    return -1;
  }

  lemma EolInChunk(s: seq<byte>, at: nat, chunk: seq<byte>, cr: int, lf: int)
    requires at <= |s| && chunk <= s[at..] && NoneOf(s, EOL_CHARS, 0, at)
    requires cr == FirstOf(chunk, [CR]) && lf == FirstOf(chunk, [LF])
    ensures cr >= 0 && !(0 <= lf < cr) ==> at + cr < |s| && s[at + cr] == CR && NoneOf(s, EOL_CHARS, 0, at + cr)
    ensures lf >= 0 && (cr < 0 || lf < cr) ==> at + lf < |s| && s[at + lf] == LF && NoneOf(s, EOL_CHARS, 0, at + lf)
    ensures cr < 0 && lf < 0 ==> NoneOf(s, EOL_CHARS, 0, at + |chunk|)
  {
    var n: nat := if cr >= 0 && !(0 <= lf < cr) then cr else if lf >= 0 then lf else |chunk|;
    NoneOfMore(s, EOL_CHARS, 0, at, chunk, n);
  }

  /** evbuffer_search: the first occurrence of `what` at or after `start`, wherever chunks end.
      An empty or oversized pattern is not looked for. */
  method Search(buf: Evbuffer, what: seq<byte>, start: EvbufferPtr, ghost pre: seq<Ptr>, ghost rs: seq<Ptr>)
    returns (it: EvbufferPtr, ghost ps: seq<Ptr>, ghost qs: seq<Ptr>)
    requires buf.Valid() && PtrAt(buf.heap.m, buf.Contents(), pre, rs, start)
    ensures it.pos >= 0 ==> PtrAt(buf.heap.m, buf.Contents(), ps, qs, it)
    ensures what == [] || |what| > SSIZE_MAX ==> it == start
    ensures 0 < |what| <= SSIZE_MAX && it.pos >= 0 ==>
      start.pos <= it.pos && MatchAt(buf.Contents(), what, it.pos) && NoMatch(buf.Contents(), what, start.pos, it.pos)
    ensures 0 < |what| <= SSIZE_MAX && it.pos < 0 ==> it == NOT_FOUND && forall i :: start.pos <= i ==>
      !MatchAt(buf.Contents(), what, i)
  {
    hide PtrAt, MatchAt, NoMatch, buf.Valid;
    it, ps, qs := SearchRange(buf, what, start, None, pre, rs, [], []);
  }

  /** Whether an occurrence of `n` bytes at `i` goes on past the end of the range. */
  predicate Past(end: Option<EvbufferPtr>, i: int, n: nat) {
    end.Some? && i + n > end.value.pos
  }

  /** evbuffer_search_range: the first occurrence at or after `start`, if it ends by `end`. */
  method SearchRange(buf: Evbuffer, what: seq<byte>, start: EvbufferPtr, end: Option<EvbufferPtr>,
                     ghost pre: seq<Ptr>, ghost rs: seq<Ptr>, ghost pre': seq<Ptr>, ghost rs': seq<Ptr>)
    returns (it: EvbufferPtr, ghost ps: seq<Ptr>, ghost qs: seq<Ptr>)
    requires buf.Valid() && PtrAt(buf.heap.m, buf.Contents(), pre, rs, start)
    requires end.Some? ==> PtrAt(buf.heap.m, buf.Contents(), pre', rs', end.value)
    ensures it.pos >= 0 ==> PtrAt(buf.heap.m, buf.Contents(), ps, qs, it)
    ensures what == [] || |what| > SSIZE_MAX ==> it == start
    ensures 0 < |what| <= SSIZE_MAX && it.pos >= 0 ==>
      && start.pos <= it.pos && MatchAt(buf.Contents(), what, it.pos)
      && NoMatch(buf.Contents(), what, start.pos, it.pos)
      && (end.Some? ==> it.pos + |what| <= end.value.pos)
    ensures 0 < |what| <= SSIZE_MAX && it.pos < 0 ==>
      it == NOT_FOUND && forall i :: start.pos <= i && MatchAt(buf.Contents(), what, i) ==>
        end.Some? && i + |what| > end.value.pos
  {
    hide Shape, Linked, Stored, Rest, AllEmpty, Elems, PtrAt, NoneOf, MatchAt, NoMatch, buf.Valid;
    ghost var m, bytes := buf.heap.m, buf.Contents();
    it, ps, qs := start, pre, rs;
    PtrBytes(m, bytes, ps, qs, it);
    if what == [] || |what| > SSIZE_MAX {
      return;
    }
    NoMatchEmpty(bytes, what, start.pos);
    while it.chain != NULL
      invariant PtrAt(m, bytes, ps, qs, it) && start.pos <= it.pos <= |bytes|
      invariant it.chain == NULL ==> it.pos == |bytes|
      invariant NoMatch(bytes, what, start.pos, it.pos)
      decreases |bytes| - it.pos, |qs|
    {
      NoMatchEmpty(bytes, [what[0]], it.pos);
      var found, at := FindInChunk(buf, it, [what[0]], it.pos, ps, qs);
      if found {
        NoMatchMore(bytes, what, start.pos, it.pos, at.pos);
        var eq := PtrMatches(buf, at, what, ps, qs);
        it := at;
        if eq {
          if Past(end, it.pos, |what|) {
            AllPast(bytes, what, start.pos, it.pos, end);
            return NOT_FOUND, ps, qs;
          }
          return;
        }
        it, ps, qs := Step(buf, it, ps, qs);
      } else {
        NoMatchMore(bytes, what, start.pos, it.pos, it.pos + |Ahead(m, it)|);
        if end.Some? && it.chain == end.value.chain {
          SameChunk(m, bytes, ps, qs, it, pre', rs', end.value);
          AllPast(bytes, what, start.pos, it.pos + |Ahead(m, it)|, end);
          return NOT_FOUND, ps, qs;
        }
        it, ps, qs := NextChunk(buf, it, ps, qs);
      }
    }
    NoMatchBeyond(bytes, what, start.pos);
    it := NOT_FOUND;
  }

  /** Occurrences after one that goes on past the end do so too. */
  lemma AllPast(bytes: seq<byte>, what: seq<byte>, from: nat, to: nat, end: Option<EvbufferPtr>)
    requires NoMatch(bytes, what, from, to) && Past(end, to, |what|)
    ensures forall i :: from <= i && MatchAt(bytes, what, i) ==> Past(end, i, |what|)
  {
  }

  /** A list is known by its first chunk. */
  lemma {:induction false} SameLinked(m: Memory, ps: seq<Ptr>, qs: seq<Ptr>)
    requires Linked(m, ps, NULL) && Linked(m, qs, NULL) && Head(ps, NULL) == Head(qs, NULL)
    ensures ps == qs
  {
    if ps != [] {
      SameLinked(m, ps[1..], qs[1..]);
      assert ps == [ps[0]] + ps[1..] && qs == [qs[0]] + qs[1..];
    }
  }

  /** Positions in the same chunk: neither is past the end of it. */
  lemma SameChunk(m: Memory, bytes: seq<byte>, ps: seq<Ptr>, qs: seq<Ptr>, it: EvbufferPtr,
                  ps': seq<Ptr>, qs': seq<Ptr>, at: EvbufferPtr)
    requires PtrAt(m, bytes, ps, qs, it) && PtrAt(m, bytes, ps', qs', at) && it.chain == at.chain != NULL
    ensures it.chain in m && m[it.chain].Ok() && it.posInChain <= m[it.chain].off && at.pos <= it.pos + |Ahead(m, it)|
  {
    SameLinked(m, qs, qs');
    PtrBytes(m, bytes, ps, qs, it);
  }

  lemma NoMatchEmpty(bytes: seq<byte>, what: seq<byte>, i: nat)
    ensures NoMatch(bytes, what, i, i) && NoneOf(bytes, what, i, i)
  {
  }

  lemma NoMatchBeyond(bytes: seq<byte>, what: seq<byte>, from: nat)
    requires what != [] && NoMatch(bytes, what, from, |bytes|)
    ensures forall i :: from <= i ==> !MatchAt(bytes, what, i)
  {
  }

  /** One byte on from a position that is not at the end of its chunk. */
  method Step(buf: Evbuffer, it: EvbufferPtr, ghost ps: seq<Ptr>, ghost qs: seq<Ptr>)
    returns (nx: EvbufferPtr, ghost ps1: seq<Ptr>, ghost qs1: seq<Ptr>)
    requires PtrAt(buf.heap.m, buf.Contents(), ps, qs, it) && it.chain != NULL
    requires it.chain in buf.heap.m && it.posInChain < buf.heap.m[it.chain].off
    ensures PtrAt(buf.heap.m, buf.Contents(), ps1, qs1, nx) && nx.pos == it.pos + 1 <= |buf.Contents()|
    ensures nx.chain == NULL ==> nx.pos == |buf.Contents()|
  {
    hide Shape, Linked, Stored, Rest, AllEmpty, Elems, PtrAt;
    PtrBytes(buf.heap.m, buf.Contents(), ps, qs, it);
    PtrForward(buf.heap.m, buf.Contents(), ps, qs, it, 1);
    nx, ps1, qs1 := EvbufferPtr(it.pos + 1, it.chain, it.posInChain + 1), ps, qs;
    if nx.posInChain == buf.heap.m[nx.chain].off {
      nx, ps1, qs1 := NextChunk(buf, nx, ps, qs);
    }
    PtrBytes(buf.heap.m, buf.Contents(), ps1, qs1, nx);
  }

  /** evbuffer_strchr and evbuffer_find_eol_char: the first byte of `cs` at or after `start`. */
  method Scan(buf: Evbuffer, cs: seq<byte>, start: EvbufferPtr, ghost pre: seq<Ptr>, ghost rs: seq<Ptr>)
    returns (it: EvbufferPtr, ghost ps: seq<Ptr>, ghost qs: seq<Ptr>)
    requires PtrAt(buf.heap.m, buf.Contents(), pre, rs, start)
    ensures it.pos >= 0 ==> PtrAt(buf.heap.m, buf.Contents(), ps, qs, it) && start.pos <= it.pos < |buf.Contents()|
    ensures it.pos >= 0 ==> buf.Contents()[it.pos] in cs && NoneOf(buf.Contents(), cs, start.pos, it.pos)
    ensures it.pos < 0 ==> it == NOT_FOUND && NoneOf(buf.Contents(), cs, start.pos, |buf.Contents()|)
  {
    hide Shape, Linked, Stored, Rest, AllEmpty, Elems, PtrAt, NoneOf, NoMatch;
    ghost var m, bytes := buf.heap.m, buf.Contents();
    it, ps, qs := start, pre, rs;
    PtrBytes(m, bytes, ps, qs, it);
    NoMatchEmpty(bytes, cs, start.pos);
    while it.chain != NULL
      invariant PtrAt(m, bytes, ps, qs, it) && start.pos <= it.pos <= |bytes|
      invariant it.chain == NULL ==> it.pos == |bytes|
      invariant NoneOf(bytes, cs, start.pos, it.pos)
      decreases |qs|
    {
      var found, at := FindInChunk(buf, it, cs, start.pos, ps, qs);
      if found {
        it := at;
        return;
      }
      it, ps, qs := NextChunk(buf, it, ps, qs);
    }
    it := NOT_FOUND;
  }

  /** `n` bytes of `cs` at position `i`, and no more. */
  ghost predicate Run(bytes: seq<byte>, cs: seq<byte>, i: int, n: nat) {
    && 0 <= i && i + n <= |bytes|
    && (forall k :: i <= k < i + n ==> bytes[k] in cs)
    && (i + n < |bytes| ==> bytes[i + n] !in cs)
  }

  /** All of from..to is in `cs`. */
  ghost predicate AllOf(bytes: seq<byte>, cs: seq<byte>, from: int, to: int) {
    0 <= from <= to <= |bytes| && forall k :: from <= k < to ==> bytes[k] in cs
  }

  lemma AllOfMore(bytes: seq<byte>, cs: seq<byte>, from: nat, at: nat, d: seq<byte>, n: nat)
    requires AllOf(bytes, cs, from, at) && d <= bytes[at..] && n < |d|
    ensures at + n < |bytes| && bytes[at + n] == d[n]
    ensures AllOf(bytes, cs, from, at + n) && d[n] in cs ==> AllOf(bytes, cs, from, at + n + 1)
    ensures AllOf(bytes, cs, from, at + n) && d[n] !in cs ==> Run(bytes, cs, from, at + n - from)
  {
    assert bytes[at..][n] == d[n];
  }

  /** evbuffer_strspn: how many bytes from `start` on are in `cs`. */
  method Strspn(buf: Evbuffer, start: EvbufferPtr, cs: seq<byte>, ghost pre: seq<Ptr>, ghost rs: seq<Ptr>)
    returns (count: nat)
    requires PtrAt(buf.heap.m, buf.Contents(), pre, rs, start)
    ensures Run(buf.Contents(), cs, start.pos, count)
  {
    hide Shape, Linked, Stored, Rest, AllEmpty, Elems, PtrAt;
    ghost var m, bytes := buf.heap.m, buf.Contents();
    ghost var ps, qs := pre, rs;
    var it := start;
    count := 0;
    PtrBytes(m, bytes, ps, qs, it);
    while it.chain != NULL
      invariant PtrAt(m, bytes, ps, qs, it) && start.pos <= it.pos <= |bytes|
      invariant it.chain == NULL ==> it.pos == |bytes|
      invariant it.pos == start.pos + count && AllOf(bytes, cs, start.pos, it.pos)
      decreases |qs|
    {
      PtrBytes(m, bytes, ps, qs, it);
      var ahead := Ahead(buf.heap.m, it);
      var i: nat := 0;
      while i < |ahead|
        invariant i <= |ahead| && it.pos + i == start.pos + count && AllOf(bytes, cs, start.pos, it.pos + i)
      {
        AllOfMore(bytes, cs, start.pos, it.pos, ahead, i);
        if ahead[i] !in cs {
          return;
        }
        count, i := count + 1, i + 1;
      }
      it, ps, qs := NextChunk(buf, it, ps, qs);
    }
  }
}
