/** Moving positions, finding line ends, and reading lines from an evbuffer. */
module EvbufferLines {
  import opened Options
  import opened Bytes
  import opened Addresses
  import opened ChunkLists
  import opened Shapes
  import opened Evbuffers
  import opened EvbufferSearch

  /** enum evbuffer_ptr_how. */
  datatype PtrHow = PtrSet | PtrAdd

  /** The loop of evbuffer_ptr_set: moves `left` bytes on from `start`. */
  method WalkBy(buf: Evbuffer, start: EvbufferPtr, distance: nat, ghost pre: seq<Ptr>, ghost rs: seq<Ptr>)
    returns (ok: bool, it: EvbufferPtr, ghost ps: seq<Ptr>, ghost qs: seq<Ptr>)
    requires PtrAt(buf.heap.m, buf.Contents(), pre, rs, start)
    ensures ok <==> start.pos + distance <= |buf.Contents()|
    ensures ok ==> PtrAt(buf.heap.m, buf.Contents(), ps, qs, it) && it.pos == start.pos + distance
    ensures ok && it.chain != NULL ==> it.chain in buf.heap.m && it.posInChain < buf.heap.m[it.chain].off
    ensures !ok ==> it == NOT_FOUND
  {
    hide Shape, Linked, Stored, Rest, AllEmpty, Elems, PtrAt, buf.Valid;
    it, ps, qs := start, pre, rs;
    var left := distance;
    PtrBytes(buf.heap.m, buf.Contents(), ps, qs, it);
    while it.chain != NULL && it.posInChain + left >= buf.heap.m[it.chain].off
      invariant PtrAt(buf.heap.m, buf.Contents(), ps, qs, it)
      invariant it.chain != NULL ==>
        it.chain in buf.heap.m && buf.heap.m[it.chain].Ok() && it.posInChain <= buf.heap.m[it.chain].off && qs != []
      invariant it.chain == NULL ==> it.pos == |buf.Contents()|
      invariant left >= 0 && it.pos + left == start.pos + distance && it.pos <= |buf.Contents()|
      decreases |qs|
    {
      left := left - (buf.heap.m[it.chain].off - it.posInChain);
      it, ps, qs := NextChunk(buf, it, ps, qs);
      PtrBytes(buf.heap.m, buf.Contents(), ps, qs, it);
    }
    PtrBytes(buf.heap.m, buf.Contents(), ps, qs, it);
    if it.chain != NULL {
      PtrForward(buf.heap.m, buf.Contents(), ps, qs, it, left);
      it := EvbufferPtr(it.pos + left, it.chain, it.posInChain + left);
      PtrBytes(buf.heap.m, buf.Contents(), ps, qs, it);
      return true, it, ps, qs;
    } else if left == 0 {
      return true, it, ps, qs;
    } else {
      return false, NOT_FOUND, ps, qs;
    }
  }

  /** evbuffer_ptr_set: goes to an absolute position or on from a valid one. */
  method MovePtr(buf: Evbuffer, it: EvbufferPtr, position: nat, how: PtrHow, ghost pre: seq<Ptr>, ghost rs: seq<Ptr>)
    returns (ok: bool, at: EvbufferPtr, ghost ps: seq<Ptr>, ghost qs: seq<Ptr>)
    requires buf.Valid()
    requires how == PtrAdd && it.pos >= 0 ==> PtrAt(buf.heap.m, buf.Contents(), pre, rs, it)
    ensures how == PtrSet ==> (ok <==> position <= |buf.Contents()|)
    ensures how == PtrAdd ==>
      (ok <==> 0 <= it.pos && it.pos + position <= |buf.Contents()| && it.pos + position <= SIZE_MAX)
    ensures ok ==> PtrAt(buf.heap.m, buf.Contents(), ps, qs, at)
    ensures ok ==> at.pos == if how == PtrSet then position else it.pos + position
    ensures ok && at.chain != NULL ==> at.chain in buf.heap.m && at.posInChain < buf.heap.m[at.chain].off
    ensures !ok ==> at == if how == PtrAdd && (it.pos < 0 || it.pos + position > SIZE_MAX) then it else NOT_FOUND
  {
    hide Shape, Linked, Stored, Rest, AllEmpty, Elems, PtrAt;
    match how
    case PtrSet =>
      PtrStart(buf);
      ok, at, ps, qs := WalkBy(buf, EvbufferPtr(0, buf.first, 0), position, [], buf.Chain());
    case PtrAdd =>
      if it.pos < 0 || SIZE_MAX - position < it.pos {
        return false, it, pre, rs;
      }
      ok, at, ps, qs := WalkBy(buf, it, position, pre, rs);
  }

  /** evbuffer_ptr_subtract. */
  method PtrSubtract(buf: Evbuffer, it: EvbufferPtr, howfar: nat, ghost pre: seq<Ptr>, ghost rs: seq<Ptr>)
    returns (ok: bool, at: EvbufferPtr, ghost ps: seq<Ptr>, ghost qs: seq<Ptr>)
    requires buf.Valid() && (it.pos >= 0 ==> PtrAt(buf.heap.m, buf.Contents(), pre, rs, it))
    ensures ok <==> 0 <= it.pos && howfar <= it.pos
    ensures ok ==> PtrAt(buf.heap.m, buf.Contents(), ps, qs, at) && at.pos == it.pos - howfar
    ensures ok && howfar > 0 ==> at.chain in buf.heap.m && at.posInChain < buf.heap.m[at.chain].off
  {
    hide Shape, Linked, Stored, Rest, AllEmpty, Elems, PtrAt;
    if it.pos < 0 || howfar > it.pos {
      return false, it, pre, rs;
    }
    PtrBytes(buf.heap.m, buf.Contents(), pre, rs, it);
    if it.chain != NULL && howfar <= it.posInChain {
      PtrBack(buf.heap.m, buf.Contents(), pre, rs, it, howfar);
      return true, EvbufferPtr(it.pos - howfar, it.chain, it.posInChain - howfar), pre, rs;
    }
    ok, at, ps, qs := MovePtr(buf, it, it.pos - howfar, PtrSet, pre, rs);
    PtrBytes(buf.heap.m, buf.Contents(), ps, qs, at);
  }

  lemma PtrBack(m: Memory, bytes: seq<byte>, pre: seq<Ptr>, rs: seq<Ptr>, it: EvbufferPtr, n: nat)
    requires PtrAt(m, bytes, pre, rs, it) && rs != [] && n <= it.posInChain
    ensures PtrAt(m, bytes, pre, rs, EvbufferPtr(it.pos - n, it.chain, it.posInChain - n))
  {
  }

  /** evbuffer_getchr, at a position that is inside its chunk. */
  method Getchr(buf: Evbuffer, it: EvbufferPtr, ghost pre: seq<Ptr>, ghost rs: seq<Ptr>) returns (c: int)
    requires PtrAt(buf.heap.m, buf.Contents(), pre, rs, it)
    requires it.chain != NULL ==> it.chain in buf.heap.m && it.posInChain < buf.heap.m[it.chain].off
    ensures c == if 0 <= it.pos < |buf.Contents()| then buf.Contents()[it.pos] else -1
  {
    hide Shape, Linked, Stored, Rest, AllEmpty, Elems, PtrAt;
    PtrBytes(buf.heap.m, buf.Contents(), pre, rs, it);
    if it.chain == NULL {
      return -1;
    }
    c := Ahead(buf.heap.m, it)[0];
    assert buf.Contents()[it.pos..][0] == c;
  }

  /** enum evbuffer_eol_style. */
  datatype EolStyle = EolAny | EolCrlf | EolCrlfStrict | EolLf | EolNul

  /** A line end of `n` bytes at position `i`, for a search that started at `start`. */
  ghost predicate Terminator(bytes: seq<byte>, style: EolStyle, start: nat, i: int, n: nat) {
    match style
    case EolAny => n > 0 && Run(bytes, EOL_CHARS, i, n)
    case EolCrlfStrict => n == 2 && MatchAt(bytes, [CR, LF], i)
    case EolCrlf =>
      || (n == 2 && MatchAt(bytes, [CR, LF], i))
      || (n == 1 && MatchAt(bytes, [LF], i) && !(start < i && bytes[i - 1] == CR))
    case EolLf => n == 1 && MatchAt(bytes, [LF], i)
    case EolNul => n == 1 && MatchAt(bytes, [NUL], i)
  }

  /** No line end starts in from..to. */
  ghost predicate NoTerminator(bytes: seq<byte>, style: EolStyle, from: nat, to: int) {
    forall i, n :: from <= i < to ==> !Terminator(bytes, style, from, i, n)
  }

  /** The bytes a line end cannot be without. */
  function StopChars(style: EolStyle): seq<byte> {
    match style
    case EolAny => EOL_CHARS
    case EolNul => [NUL]
    case _ => [LF]
  }

  /** What each style makes of a line and its end. */
  lemma LineMeans(line: seq<byte>, eol: seq<byte>, rest: seq<byte>, style: EolStyle)
    requires Terminator(line + eol + rest, style, 0, |line|, |eol|)
    requires NoTerminator(line + eol + rest, style, 0, |line|)
    ensures style == EolNul ==> eol == [0] && 0 !in line
    ensures style == EolLf ==> eol == [10] && 10 !in line
    ensures style == EolCrlf ==>
      10 !in line && (eol == [13, 10] || (eol == [10] && (line == [] || line[|line| - 1] != 13)))
    ensures style == EolCrlfStrict ==>
      eol == [13, 10] && forall i :: 0 <= i < |line| - 1 ==> !(line[i] == 13 && line[i + 1] == 10)
    ensures style == EolAny ==>
      && eol != [] && (forall c :: c in eol ==> c == 10 || c == 13) && (forall c :: c in line ==> c != 10 && c != 13)
      && (rest != [] ==> rest[0] != 10 && rest[0] != 13)
  {
    hide Terminator, NoTerminator;
    var bytes := line + eol + rest;
    EolBytes(line, eol, rest, style);
    forall i | 0 <= i < |line|
      ensures style == EolNul ==> line[i] != 0
      ensures style in {EolLf, EolCrlf} ==> line[i] != 10
      ensures style == EolCrlfStrict && i + 1 < |line| ==> !(line[i] == 13 && line[i + 1] == 10)
      ensures style == EolAny ==> line[i] != 10 && line[i] != 13
    {
      NoEndAt(bytes, style, |line|, i);
    }
  }

  lemma MatchOne(bytes: seq<byte>, c: byte, i: int)
    ensures MatchAt(bytes, [c], i) <==> 0 <= i < |bytes| && bytes[i] == c
  {
    if 0 <= i < |bytes| {
      assert bytes[i..i + 1] == [bytes[i]];
    }
  }

  lemma MatchTwo(bytes: seq<byte>, c: byte, d: byte, i: int)
    ensures MatchAt(bytes, [c, d], i) <==> 0 <= i && i + 1 < |bytes| && bytes[i] == c && bytes[i + 1] == d
  {
    if 0 <= i && i + 1 < |bytes| {
      assert bytes[i..i + 2] == [bytes[i], bytes[i + 1]];
    }
  }

  /** The line end itself. */
  lemma EolBytes(line: seq<byte>, eol: seq<byte>, rest: seq<byte>, style: EolStyle)
    requires Terminator(line + eol + rest, style, 0, |line|, |eol|)
    ensures style == EolNul ==> eol == [0]
    ensures style == EolLf ==> eol == [10]
    ensures style == EolCrlf ==> eol == [13, 10] || (eol == [10] && (line == [] || line[|line| - 1] != 13))
    ensures style == EolCrlfStrict ==> eol == [13, 10]
    ensures style == EolAny ==> eol != [] && (forall c :: c in eol ==> c == 10 || c == 13)
    ensures style == EolAny ==> rest != [] ==> rest[0] != 10 && rest[0] != 13
  {
    hide Run, MatchAt;
    var bytes, i := line + eol + rest, |line|;
    MatchOne(bytes, NUL, i);
    MatchOne(bytes, LF, i);
    MatchTwo(bytes, CR, LF, i);
    assert forall k :: 0 <= k < |eol| ==> bytes[i + k] == eol[k];
    assert line != [] ==> bytes[i - 1] == line[i - 1];
    if style == EolAny {
      RunBytes(line, eol, rest);
    }
  }

  lemma RunBytes(line: seq<byte>, eol: seq<byte>, rest: seq<byte>)
    requires Run(line + eol + rest, EOL_CHARS, |line|, |eol|)
    ensures forall c :: c in eol ==> c == 10 || c == 13
    ensures rest != [] ==> rest[0] != 10 && rest[0] != 13
  {
    var bytes := line + eol + rest;
    assert forall k :: 0 <= k < |eol| ==> bytes[|line| + k] == eol[k];
    assert rest != [] ==> bytes[|line| + |eol|] == rest[0];
  }

  /** Before the line end there is none. */
  lemma NoEndAt(bytes: seq<byte>, style: EolStyle, to: nat, i: nat)
    requires NoTerminator(bytes, style, 0, to) && i < to <= |bytes|
    ensures style == EolNul ==> bytes[i] != 0
    ensures style in {EolLf, EolCrlf} ==> bytes[i] != 10
    ensures style == EolCrlfStrict && i + 1 < |bytes| ==> !(bytes[i] == 13 && bytes[i + 1] == 10)
    ensures style == EolAny ==> bytes[i] != 10 && bytes[i] != 13
  {
    hide Run;
    MatchOne(bytes, NUL, i);
    MatchOne(bytes, LF, i);
    MatchTwo(bytes, CR, LF, i);
    MatchTwo(bytes, CR, LF, i - 1);
    assert !Terminator(bytes, style, 0, i, 1) && !Terminator(bytes, style, 0, i, 2);
    if style == EolCrlf && i > 0 {
      assert !Terminator(bytes, style, 0, i - 1, 2);
    }
    if style == EolAny {
      var n := RunFrom(bytes, i);
      assert !Terminator(bytes, style, 0, i, n);
    }
  }

  /** How many line-end characters there are in a row. */
  lemma {:induction false} RunFrom(bytes: seq<byte>, i: nat) returns (n: nat)
    requires i <= |bytes|
    ensures Run(bytes, EOL_CHARS, i, n) && (i < |bytes| && bytes[i] in EOL_CHARS ==> n > 0)
    decreases |bytes| - i
  {
    n := 0;
    if i < |bytes| && bytes[i] in EOL_CHARS {
      var k := RunFrom(bytes, i + 1);
      n := k + 1;
    }
  }

  /** Every line end holds a stop character: at its start, or after a CR. */
  lemma TerminatorStops(bytes: seq<byte>, style: EolStyle, start: nat, i: int, n: nat)
    requires Terminator(bytes, style, start, i, n)
    ensures 0 <= i < |bytes|
    ensures bytes[i] in StopChars(style) || (n == 2 && i + 1 < |bytes| && bytes[i] == CR &&
      bytes[i + 1] in StopChars(style))
  {
    MatchOne(bytes, LF, i);
    MatchOne(bytes, NUL, i);
    MatchTwo(bytes, CR, LF, i);
  }

  /** Before the first stop character there is no line end, except a CR just before it. */
  lemma NoStopNoTerminator(bytes: seq<byte>, style: EolStyle, start: nat, to: nat)
    requires NoneOf(bytes, StopChars(style), start, to)
    ensures NoTerminator(bytes, style, start, to - 1)
    ensures to < |bytes| && !(style in {EolCrlf, EolCrlfStrict} && start < to && bytes[to - 1] == CR) ==>
      NoTerminator(bytes, style, start, to)
    ensures to >= |bytes| ==> NoTerminator(bytes, style, start, |bytes|)
  {
    forall i, n | start <= i && Terminator(bytes, style, start, i, n)
      ensures i >= to - 1 && to < |bytes|
      ensures i == to - 1 ==> style in {EolCrlf, EolCrlfStrict} && start < to && bytes[to - 1] == CR
    {
      TerminatorStops(bytes, style, start, i, n);
    }
  }

  /** The EVBUFFER_EOL_CRLF case once the first LF is found: backs up over a CR, but not past
      the start of the search. */
  method BackUpOverCr(buf: Evbuffer, it: EvbufferPtr, start: nat, ghost pre: seq<Ptr>, ghost rs: seq<Ptr>)
    returns (at: EvbufferPtr, eolLen: nat, ghost ps: seq<Ptr>, ghost qs: seq<Ptr>)
    requires buf.Valid() && PtrAt(buf.heap.m, buf.Contents(), pre, rs, it) && start <= it.pos < |buf.Contents()|
    requires buf.Contents()[it.pos] == LF && NoneOf(buf.Contents(), [LF], start, it.pos)
    ensures PtrAt(buf.heap.m, buf.Contents(), ps, qs, at) && start <= at.pos
    ensures Terminator(buf.Contents(), EolCrlf, start, at.pos, eolLen) &&
      NoTerminator(buf.Contents(), EolCrlf, start, at.pos)
  {
    hide Shape, Linked, Stored, Rest, AllEmpty, Elems, PtrAt, buf.Valid, NoTerminator;
    ghost var bytes := buf.Contents();
    at, eolLen, ps, qs := it, 1, pre, rs;
    NoStopNoTerminator(bytes, EolCrlf, start, it.pos);
    MatchOne(bytes, LF, it.pos);
    MatchTwo(bytes, CR, LF, it.pos - 1);
    if it.pos == start {
      return;
    }
    var ok, it2, ps2, qs2 := PtrSubtract(buf, it, 1, pre, rs);
    var c := Getchr(buf, it2, ps2, qs2);
    if c == CR as int {
      at, eolLen, ps, qs := it2, 2, ps2, qs2;
    }
  }

  /** evbuffer_search_eol: the first line end at or after `start` and its length. */
  method SearchEol(buf: Evbuffer, start: EvbufferPtr, style: EolStyle, ghost pre: seq<Ptr>, ghost rs: seq<Ptr>)
    returns (it: EvbufferPtr, eolLen: nat, ghost ps: seq<Ptr>, ghost qs: seq<Ptr>)
    requires buf.Valid() && PtrAt(buf.heap.m, buf.Contents(), pre, rs, start)
    ensures 0 <= start.pos
    ensures it.pos >= 0 ==> PtrAt(buf.heap.m, buf.Contents(), ps, qs, it) && start.pos <= it.pos
    ensures it.pos >= 0 ==> Terminator(buf.Contents(), style,
      start.pos, it.pos, eolLen) && NoTerminator(buf.Contents(), style, start.pos, it.pos)
    ensures it.pos < 0 ==> it == NOT_FOUND && eolLen == 0
    ensures it.pos < 0 ==> NoTerminator(buf.Contents(), style, start.pos, |buf.Contents()|)
  {
    hide Shape, Linked, Stored, Rest, AllEmpty, Elems, PtrAt, buf.Valid, NoTerminator, NoneOf, Run;
    ghost var bytes := buf.Contents();
    PtrBytes(buf.heap.m, bytes, pre, rs, start);
    if style == EolCrlfStrict {
      it, ps, qs := Search(buf, [CR, LF], start, pre, rs);
      NoCrlf(bytes, start.pos, if it.pos < 0 then |bytes| else it.pos);
      eolLen := if it.pos < 0 then 0 else 2;
      return;
    }
    it, ps, qs := Scan(buf, StopChars(style), start, pre, rs);
    NoStopNoTerminator(bytes, style, start.pos, if it.pos < 0 then |bytes| else it.pos);
    eolLen := 0;
    if it.pos >= 0 {
      MatchOne(bytes, LF, it.pos);
      MatchOne(bytes, NUL, it.pos);
      if style == EolAny {
        eolLen := Strspn(buf, it, EOL_CHARS, ps, qs);
        RunNotEmpty(bytes, EOL_CHARS, it.pos, eolLen);
      } else if style == EolCrlf {
        it, eolLen, ps, qs := BackUpOverCr(buf, it, start.pos, ps, qs);
      } else {
        eolLen := 1;
      }
    }
  }

  lemma RunNotEmpty(bytes: seq<byte>, cs: seq<byte>, i: int, n: nat)
    requires 0 <= i < |bytes| && bytes[i] in cs && Run(bytes, cs, i, n)
    ensures n > 0
  {
  }

  lemma NoCrlf(bytes: seq<byte>, start: nat, to: int)
    ensures NoMatch(bytes, [CR, LF], start, to) ==> NoTerminator(bytes, EolCrlfStrict, start, to)
  {
  }

  /** evbuffer_readln: takes a line and its terminator off the front of the buffer. */
  method Readln(buf: Evbuffer, style: EolStyle, mem: bool) returns (line: Option<seq<byte>>, ghost eol: seq<byte>)
    requires buf.Valid()
    modifies buf.heap, buf`first, buf`last, buf`lastWithDatap, buf`totalLen, buf`data, buf`spare
    ensures buf.Valid() && Rest(buf.heap.m, buf.Chain()) == old(Rest(buf.heap.m, buf.Chain()))
    ensures line.None? <==> buf.freezeStart || !mem || NoTerminator(old(buf.Contents()), style, 0,
      |old(buf.Contents())|)
    ensures line.None? ==> buf.Contents() == old(buf.Contents())
    ensures line.Some? ==> old(buf.Contents()) == line.value + eol + buf.Contents()
    ensures line.Some? ==> Terminator(old(buf.Contents()), style, 0, |line.value|, |eol|)
    ensures line.Some? ==> NoTerminator(old(buf.Contents()), style, 0, |line.value|)
  {
    hide Shape, Linked, Stored, Rest, AllEmpty, Elems, PtrAt, Terminator, NoTerminator;
    ghost var bytes := buf.Contents();
    line, eol := None, [];
    if buf.freezeStart {
      return;
    }
    PtrStart(buf);
    var it, extraDrain, _, _ := SearchEol(buf, EvbufferPtr(0, buf.first, 0), style, [], buf.Chain());
    if it.pos < 0 || !mem {
      return;
    }
    TerminatorInside(bytes, style, 0, it.pos, extraDrain);
    TerminatorBeyond(bytes, style, it.pos, extraDrain);
    var out;
    out, eol := TakeLine(buf, it.pos, extraDrain);
    line := Some(out);
  }

  /** The line and its end leave the buffer. */
  method TakeLine(buf: Evbuffer, len: nat, eolLen: nat) returns (line: seq<byte>, ghost eol: seq<byte>)
    requires buf.Valid() && !buf.freezeStart && len + eolLen <= |buf.Contents()|
    modifies buf.heap, buf`first, buf`last, buf`lastWithDatap, buf`totalLen, buf`data, buf`spare
    ensures buf.Valid() && Rest(buf.heap.m, buf.Chain()) == old(Rest(buf.heap.m, buf.Chain()))
    ensures |line| == len && |eol| == eolLen && old(buf.Contents()) == line + eol + buf.Contents()
  {
    hide Shape, Linked, Stored, Rest, AllEmpty, Elems;
    ghost var bytes := buf.Contents();
    var n, out := Remove(buf, len);
    var ok := buf.Drain(eolLen);
    line := out;
    eol := bytes[len..len + eolLen];
    CutLine(bytes, out, eolLen);
  }

  lemma TerminatorInside(bytes: seq<byte>, style: EolStyle, start: nat, i: int, n: nat)
    requires Terminator(bytes, style, start, i, n)
    ensures 0 <= i && i + n <= |bytes|
  {
  }

  lemma TerminatorBeyond(bytes: seq<byte>, style: EolStyle, i: int, n: nat)
    requires Terminator(bytes, style, 0, i, n)
    ensures !NoTerminator(bytes, style, 0, |bytes|)
  {
    TerminatorStops(bytes, style, 0, i, n);
  }

  lemma CutLine(bytes: seq<byte>, line: seq<byte>, n: nat)
    requires line <= bytes && |line| + n <= |bytes|
    ensures bytes == line + bytes[|line|..|line| + n] + bytes[|line|..][n..]
  {
  }
}
