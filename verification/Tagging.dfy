/** The tagged wire format as the code reads and writes it: loops over byte arrays, with the
    evbuffer as source and destination. */
module EvbufferTags {
  import opened Options
  import opened Bytes
  import opened Addresses
  import opened Chunks
  import opened ChunkLists
  import opened Shapes
  import opened Evbuffers
  import opened EvbufferMoves
  import opened EvbufferPullup
  import opened EvbufferSearch
  import opened TagFormat

  // ---- encoding

  /** `t` is `s` with the nibble at position `k` set to `v`. */
  ghost predicate NibbleSet(s: seq<byte>, t: seq<byte>, k: nat, v: nat) {
    && |t| == |s| && k < 2 * |s| && NibbleAt(t, k) == v
    && forall j :: 0 <= j < 2 * |s| && j != k ==> NibbleAt(t, j) == NibbleAt(s, j)
  }

  /** Sets the nibble at position `k` of `data` to `v`, leaving the other half of the byte. */
  method SetNibble(data: array<byte>, k: nat, v: nat)
    requires k / 2 < data.Length && v < 16
    modifies data
    ensures NibbleSet(old(data[..]), data[..], k, v)
  {
    var b := data[k / 2];
    if k % 2 == 1 {
      data[k / 2] := b / 16 * 16 + v;
    } else {
      data[k / 2] := b % 16 + v * 16;
    }
  }

  /** Bytes are the same when their nibbles are. */
  lemma SameBytes(s: seq<byte>, t: seq<byte>)
    requires |s| == |t| && forall k :: 0 <= k < 2 * |s| ==> NibbleAt(s, k) == NibbleAt(t, k)
    ensures s == t
  {
    forall i | 0 <= i < |s| ensures s[i] == t[i] {
      assert NibbleAt(s, 2 * i) == NibbleAt(t, 2 * i) && NibbleAt(s, 2 * i + 1) == NibbleAt(t, 2 * i + 1);
    }
  }

  /** The first off - 1 digits of `n` are in place, and nothing else. */
  ghost predicate DigitsIn(s: seq<byte>, n: nat, off: nat) {
    1 <= off <= |Digits(n)| + 1 &&
    forall k :: 0 <= k < 2 * |s| ==> NibbleAt(s, k) == if 1 <= k < off then Digits(n)[k - 1] else 0
  }

  lemma NoDigitsIn(s: seq<byte>, n: nat)
    requires forall i :: 0 <= i < |s| ==> s[i] == 0
    ensures DigitsIn(s, n, 1) && Digits(n)[0..] == Digits(n)
  {
  }

  /** One more digit. */
  lemma OneMoreDigit(s: seq<byte>, t: seq<byte>, n: nat, off: nat, number: nat)
    requires DigitsIn(s, n, off) && number > 0 && Digits(number) == Digits(n)[off - 1..]
    requires NibbleSet(s, t, off, number % 16)
    ensures DigitsIn(t, n, off + 1) && Digits(number / 16) == Digits(n)[off..]
  {
    hide Digits, NibbleAt;
    FirstDigit(number);
    var ds := Digits(n);
    assert ds[off - 1..][0] == number % 16 && ds[off - 1..][1..] == ds[off..];
  }

  lemma FirstDigit(n: nat)
    requires n > 0
    ensures Digits(n) != [] && Digits(n)[0] == n % 16 && Digits(n)[1..] == Digits(n / 16)
  {
  }

  lemma DigitsFit(n: nat)
    requires n < TWO64
    ensures |Digits(n)| <= if n < TWO32 then 8 else 16
  {
    hide Digits;
    NibblesSmall(n);
    NoDigits();
    var ns := Nibbles(n);
    assert |ns[1..]| == |ns| - 1;
  }

  lemma NoDigits()
    ensures Digits(0) == []
  {
  }

  /** ENCODE_INT_INTERNAL: writes the encoding of `n` to the start of `data`. */
  method EncodeIntInto(data: array<byte>, n: nat) returns (len: nat)
    requires n < TWO64 && data.Length == if n < TWO32 then 5 else 9
    modifies data
    ensures len == |EncodeInt(n)| <= data.Length && data[..len] == EncodeInt(n)
  {
    hide DigitsIn, NibbleSet, NibbleAt, EncodeInt, Digits;
    DigitsFit(n);
    forall i | 0 <= i < data.Length { data[i] := 0; }
    var number, off: nat := n, 1;
    NoDigitsIn(data[..], n);
    while number != 0
      invariant 1 <= off <= |Digits(n)| + 1 && Digits(number) == Digits(n)[off - 1..] && DigitsIn(data[..], n, off)
      decreases number
    {
      ghost var s := data[..];
      FirstDigit(number);
      SetNibble(data, off, number % 16);
      OneMoreDigit(s, data[..], n, off, number);
      number := number / 16;
      off := off + 1;
    }
    NoDigits();
    var nibbles := if off > 2 then off - 2 else 0;
    ghost var s := data[..];
    SetNibble(data, 0, nibbles);
    len := (off + 1) / 2;
    EncodedNibbles(s, data[..], n, len);
  }

  lemma EncodedNibbles(t: seq<byte>, s: seq<byte>, n: nat, len: nat)
    requires n < TWO64 && len == (|Digits(n)| + 2) / 2 <= |s| == |t| && DigitsIn(t, n, |Digits(n)| + 1)
    requires NibbleSet(t, s, 0, if |Digits(n)| > 0 then |Digits(n)| - 1 else 0)
    ensures len == |EncodeInt(n)| && s[..len] == EncodeInt(n)
  {
    var ns := Nibbles(n);
    forall k | 0 <= k < 2 * len ensures NibbleAt(s[..len], k) == NibbleAt(EncodeInt(n), k) {
      EncodedNibble(n, k);
      assert NibbleAt(s[..len], k) == NibbleAt(s, k);
      assert 0 < k < |ns| ==> ns[k] == ns[1..][k - 1];
    }
    SameBytes(s[..len], EncodeInt(n));
  }

  /** The loop of evtag_encode_tag. */
  method EncodeTagInto(data: array<byte>, tag: nat) returns (bytes: nat)
    requires tag < TWO32 && data.Length == 5
    modifies data
    ensures bytes == |EncodeTag(tag)| <= 5 && data[..bytes] == EncodeTag(tag)
  {
    hide EncodeTag;
    TagLength(tag);
    var rest, more := tag, true;
    bytes := 0;
    while more
      invariant bytes <= |EncodeTag(tag)| <= 5
      invariant more ==> EncodeTag(tag) == data[..bytes] + EncodeTag(rest)
      invariant !more ==> bytes == |EncodeTag(tag)| && data[..bytes] == EncodeTag(tag)
      decreases more, rest
    {
      var lower := rest % 128;
      ghost var done := data[..bytes];
      NextOfTag(tag, done, rest);
      rest := rest / 128;
      if rest != 0 {
        lower := lower + 128;
      }
      data[bytes] := lower;
      bytes := bytes + 1;
      more := rest != 0;
      assert data[..bytes] == done + [lower];
    }
  }

  lemma TagLength(tag: nat)
    requires tag < TWO32
    ensures |EncodeTag(tag)| <= 5
  {
    hide EncodeTag;
    TagRoundTrip(tag, []);
  }

  /** The next byte to write. */
  lemma NextOfTag(tag: nat, done: seq<byte>, rest: nat)
    requires EncodeTag(tag) == done + EncodeTag(rest)
    ensures |done| < |EncodeTag(tag)|
    ensures EncodeTag(tag) ==
      if rest / 128 == 0 then done + [rest % 128] else done + [rest % 128 + 128] + EncodeTag(rest / 128)
  {
    FirstOfTag(rest);
    hide EncodeTag;
    assert done + ([rest % 128 + 128] + EncodeTag(rest / 128)) == done + [rest % 128 + 128] + EncodeTag(rest / 128);
  }

  /** Room for `n` more bytes: evbuffer_add will succeed if memory does not run out. */
  predicate CanAdd(buf: Evbuffer, n: nat)
    reads buf
  {
    !buf.freezeEnd && buf.totalLen + n <= SIZE_MAX && n <= CHAIN_MAX - CHAIN_HEADER
  }

  /** evtag_encode_tag: appends the tag; that evbuffer_add failed goes unnoticed. */
  method PutTag(buf: Evbuffer, tag: nat, mem: bool) returns (bytes: nat, ghost ok: bool)
    requires buf.Valid() && tag < TWO32
    modifies buf.heap, buf`first, buf`last, buf`lastWithDatap, buf`totalLen, buf`data, buf`spare
    ensures buf.Valid() && Rest(buf.heap.m, buf.Chain()) == old(Rest(buf.heap.m, buf.Chain()))
    ensures bytes == |EncodeTag(tag)| <= 5
    ensures buf.Contents() == if ok then old(buf.Contents()) + EncodeTag(tag) else old(buf.Contents())
    ensures mem && old(CanAdd(buf, 5)) ==> ok
  {
    hide Shape, Stored, Rest, Linked, AllEmpty, EncodeTag;
    var data := new byte[5];
    bytes := EncodeTagInto(data, tag);
    var added := buf.Add(data[..bytes], mem);
    ok := added;
  }

  /** evtag_encode_int and evtag_encode_int64. */
  method PutInt(buf: Evbuffer, n: nat, mem: bool) returns (ghost ok: bool)
    requires buf.Valid() && n < TWO64
    modifies buf.heap, buf`first, buf`last, buf`lastWithDatap, buf`totalLen, buf`data, buf`spare
    ensures buf.Valid() && Rest(buf.heap.m, buf.Chain()) == old(Rest(buf.heap.m, buf.Chain()))
    ensures buf.Contents() == if ok then old(buf.Contents()) + EncodeInt(n) else old(buf.Contents())
    ensures mem && old(CanAdd(buf, 9)) ==> ok
  {
    hide Shape, Stored, Rest, Linked, AllEmpty, EncodeInt;
    var data := new byte[if n < TWO32 then 5 else 9];
    var len := EncodeIntInto(data, n);
    var added := buf.Add(data[..len], mem);
    ok := added;
  }

  /** What one piece adds to the stream. */
  ghost function Piece(ok: bool, s: seq<byte>): seq<byte> {
    if ok then s else []
  }

  /** evtag_marshal: the tag, the length and the data. Each of the three may be missing from the
      stream if memory runs out, and the caller is not told. */
  method Marshal(buf: Evbuffer, tag: nat, payload: seq<byte>, mem: bool)
    returns (ghost a: bool, ghost b: bool, ghost c: bool)
    requires buf.Valid() && tag < TWO32 && |payload| < TWO32
    modifies buf.heap, buf`first, buf`last, buf`lastWithDatap, buf`totalLen, buf`data, buf`spare
    ensures buf.Valid() && Rest(buf.heap.m, buf.Chain()) == old(Rest(buf.heap.m, buf.Chain()))
    ensures buf.Contents() ==
      old(buf.Contents()) + (Piece(a, EncodeTag(tag)) + Piece(b, EncodeInt(|payload|)) + Piece(c, payload))
    ensures mem && old(CanAdd(buf, 14 + |payload|)) ==> a && b && c
    ensures a && b && c ==> buf.Contents() == old(buf.Contents()) + Frame(tag, payload)
  {
    hide Shape, Stored, Rest, Linked, AllEmpty, EncodeInt, EncodeTag;
    ghost var s := buf.Contents();
    var _, ok1 := PutTag(buf, tag, mem);
    var ok2 := PutInt(buf, |payload|, mem);
    var added := buf.Add(payload, mem);
    a, b, c := ok1, ok2, added;
    ThreePieces(s, Piece(a, EncodeTag(tag)), Piece(b, EncodeInt(|payload|)), Piece(c, payload));
  }

  lemma ThreePieces(s: seq<byte>, x: seq<byte>, y: seq<byte>, z: seq<byte>)
    ensures ((s + x) + y) + z == s + (x + y + z)
    ensures s + [] == s && s + x + [] == s + x && s + x + y + [] == s + x + y
  {
  }

  /** evtag_marshal_int and evtag_marshal_int64: the payload is an encoded integer. */
  method MarshalInt(buf: Evbuffer, tag: nat, n: nat, mem: bool) returns (ghost a: bool, ghost b: bool, ghost c: bool)
    requires buf.Valid() && tag < TWO32 && n < TWO64
    modifies buf.heap, buf`first, buf`last, buf`lastWithDatap, buf`totalLen, buf`data, buf`spare
    ensures buf.Valid() && Rest(buf.heap.m, buf.Chain()) == old(Rest(buf.heap.m, buf.Chain()))
    ensures buf.Contents() == old(buf.Contents()) + (Piece(a, EncodeTag(tag)) + Piece(b,
      EncodeInt(|EncodeInt(n)|)) + Piece(c, EncodeInt(n)))
    ensures mem && old(CanAdd(buf, 23)) ==> a && b && c
    ensures a && b && c ==> buf.Contents() == old(buf.Contents()) + Frame(tag, EncodeInt(n))
  {
    hide Shape, Stored, Rest, Linked, AllEmpty, EncodeTag;
    var data := new byte[if n < TWO32 then 5 else 9];
    var len := EncodeIntInto(data, n);
    hide EncodeInt;
    a, b, c := Marshal(buf, tag, data[..len], mem);
  }

  // ---- decoding

  /** Makes the first `n` bytes contiguous and reads them. */
  method Front(buf: Evbuffer, n: nat, mem: bool) returns (ok: bool, bytes: seq<byte>)
    requires buf.Valid()
    modifies buf.heap, buf`first, buf`last, buf`lastWithDatap, buf`data, buf`spare
    ensures buf.Valid() && buf.Contents() == old(buf.Contents())
    ensures Rest(buf.heap.m, buf.Chain()) == old(Rest(buf.heap.m, buf.Chain()))
    ensures ok ==> 0 < n <= |buf.Contents()| && bytes == buf.Contents()[..n]
    ensures 0 < n <= |buf.Contents()| && mem && n <= CHAIN_MAX - CHAIN_HEADER ==> ok
  {
    hide Shape, Stored, Rest, Linked, AllEmpty;
    ok := Pullup(buf, n, mem);
    bytes := [];
    if ok {
      var d := buf.heap.m[buf.first].Data();
      bytes := d[..n];
      assert buf.Contents()[..|d|] == d;
    }
  }

  function Pow2(n: nat): (p: nat)
    ensures p > 0
  {
    if n == 0 then 1 else 2 * Pow2(n - 1)
  }

  /** A tag whose first `count` bytes gave `number`, continued by `d`. */
  function Continued(number: nat, weight: nat, count: nat, d: Option<Decoded>): Option<Decoded> {
    match d
    case None => None
    case Some(d) => Some(Decoded(number + weight * d.number, count + d.len))
  }

  /** A tag after its first byte. */
  lemma FirstTagByte(s: seq<byte>, left: nat)
    requires s != [] && left > 0
    ensures left == 1 && s[0] % 128 > 15 ==> DecodeTagIn(s, left) == None
    ensures !(left == 1 && s[0] % 128 > 15) && s[0] < 128 ==> DecodeTagIn(s, left) == Some(Decoded(s[0] % 128, 1))
    ensures !(left == 1 && s[0] % 128 > 15) && s[0] >= 128 ==>
      DecodeTagIn(s, left) == Continued(s[0] % 128, 128, 1, DecodeTagIn(s[1..], left - 1))
  {
  }

  /** The next byte of a tag. */
  lemma TagByte(s: seq<byte>, left: nat, number: nat, weight: nat, count: nat)
    requires s != [] && left > 0
    ensures var r := Continued(number, weight, count, DecodeTagIn(s, left));
      if left == 1 && s[0] % 128 > 15 then r == None
      else if s[0] < 128 then r == Some(Decoded(number + s[0] % 128 * weight, count + 1))
      else r == Continued(number + s[0] % 128 * weight, 128 * weight, count + 1, DecodeTagIn(s[1..], left - 1))
  {
    hide DecodeTagIn;
    FirstTagByte(s, left);
    var d := DecodeTagIn(s[1..], left - 1);
    Distribute(weight, s[0] % 128, if d.Some? then d.value.number else 0);
  }

  lemma Distribute(weight: nat, a: nat, b: nat)
    ensures weight * (a + 128 * b) == a * weight + (128 * weight) * b
  {
  }

  /** Five bytes of a tag that does not end with them. */
  predicate Unended(data: seq<byte>) {
    |data| == 5 && (forall i :: 0 <= i < 5 ==> data[i] >= 128) && data[4] % 128 <= 15
  }

  /** The loop of decode_tag_internal on the bytes at the front. Since number < 2^shift, or-ing
      in the next seven bits is an addition. `beyond` tells that the loop has read a sixth byte, which
      evbuffer_pullup was not asked for; what it finds there makes no difference. */
  method DecodeTagBytes(data: seq<byte>, len: nat) returns (r: Option<Decoded>, beyond: bool)
    requires |data| == if len < 5 then len else 5
    ensures r == DecodeTag(data)
    ensures beyond <==> len > 5 && Unended(data)
  {
    hide DecodeTag, DecodeTagIn, Continued, Pow2;
    var number, shift, count: nat := 0, 0, 0;
    beyond := false;
    TagStart(data);
    while count < len
      invariant count <= |data| && shift == 7 * count && 0 <= number < Pow2(shift) && !beyond
      invariant forall i :: 0 <= i < count ==> data[i] >= 128
      invariant count == 5 ==> data[4] % 128 <= 15
      invariant DecodeTag(data) == Continued(number, Pow2(shift), count, DecodeTagIn(data[count..], 5 - count))
    {
      if shift > 28 {
        TagEnd(data[count..], 5 - count, number, Pow2(shift), count);
        return None, true;
      }
      var lower := data[count];
      assert data[count..][1..] == data[count + 1..];
      TagByte(data[count..], 5 - count, number, Pow2(shift), count);
      if shift == 28 && lower % 128 > 15 {
        return None, false;
      }
      Pow2Seven(shift);
      NextBits(number, lower % 128, Pow2(shift));
      number := number + lower % 128 * Pow2(shift);
      shift := shift + 7;
      count := count + 1;
      if lower < 128 {
        return Some(Decoded(number, count)), false;
      }
    }
    TagEnd(data[count..], 5 - count, number, Pow2(shift), count);
    return None, false;
  }

  lemma TagStart(s: seq<byte>)
    ensures DecodeTag(s) == Continued(0, Pow2(0), 0, DecodeTagIn(s[0..], 5)) && Pow2(0) == 1
  {
    assert s[0..] == s;
  }

  lemma TagEnd(s: seq<byte>, left: nat, number: nat, weight: nat, count: nat)
    requires s == [] || left == 0
    ensures Continued(number, weight, count, DecodeTagIn(s, left)) == None
  {
  }

  lemma NextBits(number: nat, bits: nat, weight: nat)
    requires number < weight && bits < 128
    ensures 0 <= number + bits * weight < 128 * weight
  {
    assert 127 * weight == bits * weight + (127 - bits) * weight;
  }

  lemma Pow2Seven(n: nat)
    ensures Pow2(n + 7) == 128 * Pow2(n)
  {
    assert Pow2(n + 7) == 2 * Pow2(n + 6) && Pow2(n + 6) == 2 * Pow2(n + 5) && Pow2(n + 5) == 2 * Pow2(n + 4);
    assert Pow2(n + 4) == 2 * Pow2(n + 3) && Pow2(n + 3) == 2 * Pow2(n + 2) && Pow2(n + 2) == 2 * Pow2(n + 1);
  }

  /** A tag has at most five bytes, so the bytes after those do not matter. */
  lemma {:induction false} TagPrefix(s: seq<byte>, left: nat)
    ensures DecodeTagIn(s, left) == DecodeTagIn(s[..if |s| < left then |s| else left], left)
  {
    var p := s[..if |s| < left then |s| else left];
    if |s| > left {
      if left > 0 {
        TagPrefix(s[1..], left - 1);
        assert p[1..] == s[1..][..left - 1];
      }
    } else {
      assert p == s;
    }
  }

  /** decode_tag_internal, evtag_decode_tag and evtag_peek: reads a tag, and drains it if asked to. */
  method GetTag(buf: Evbuffer, dodrain: bool, mem: bool) returns (r: Option<Decoded>)
    requires buf.Valid()
    modifies buf.heap, buf`first, buf`last, buf`lastWithDatap, buf`totalLen, buf`data, buf`spare
    ensures buf.Valid() && Rest(buf.heap.m, buf.Chain()) == old(Rest(buf.heap.m, buf.Chain()))
    ensures r == None || r == DecodeTag(old(buf.Contents()))
    ensures mem ==> r == DecodeTag(old(buf.Contents()))
    ensures buf.Contents() ==
      if dodrain && r.Some? then Drained(old(buf.Contents()), r.value.len, buf.freezeStart) else old(buf.Contents())
  {
    hide Shape, Stored, Rest, Linked, AllEmpty;
    var len := buf.totalLen;
    var ok, data := Front(buf, if len < 5 then len else 5, mem);
    if !ok {
      return None;
    }
    var beyond;
    r, beyond := DecodeTagBytes(data, len);
    TagPrefix(buf.Contents(), 5);
    if r.Some? && dodrain {
      var _ := buf.Drain(r.value.len);
    }
  }

  /** The loop of DECODE_INT_INTERNAL: from the most significant nibble, at position `n`, down. */
  method DecodeNibbles(data: seq<byte>, n: nat) returns (number: nat)
    requires n / 2 < |data|
    ensures number == NibbleValue(data, 1, n)
  {
    var nibbles := n;
    number := 0;
    while nibbles > 0
      invariant 0 <= nibbles <= n && number == NibbleValue(data, nibbles + 1, n)
    {
      number := number * 16;
      if nibbles % 2 == 1 {
        number := number + data[nibbles / 2] % 16;
      } else {
        number := number + data[nibbles / 2] / 16;
      }
      nibbles := nibbles - 1;
    }
  }

  /** DECODE_INT_INTERNAL at `offset`. When memory runs out the code notices it only for offset 0; at any
      other it goes on with a null pointer that has been advanced, and `faults`. */
  method DecodeIntAt(buf: Evbuffer, offset: nat, maxNibbles: nat, mem: bool) returns (r: Option<Decoded>, faults: bool)
    requires buf.Valid() && offset <= INT_MAX
    modifies buf.heap, buf`first, buf`last, buf`lastWithDatap, buf`data, buf`spare
    ensures buf.Valid() && Rest(buf.heap.m, buf.Chain()) == old(Rest(buf.heap.m, buf.Chain()))
    ensures buf.Contents() == old(buf.Contents())
    ensures r == None || (offset <= |buf.Contents()| && r == DecodeInt(buf.Contents()[offset..], maxNibbles))
    ensures mem && offset <= |buf.Contents()| ==> r == DecodeInt(buf.Contents()[offset..], maxNibbles)
    ensures faults ==> r == None && offset > 0 && !mem
  {
    hide Shape, Stored, Rest, Linked, AllEmpty, NibbleValue, NibbleAt;
    var len := buf.totalLen - offset;
    if len <= 0 {
      return None, false;
    }
    ghost var all := buf.Contents();
    var ok, data := Front(buf, offset + 1, mem);
    if !ok {
      return None, offset > 0;
    }
    var nibbles := data[offset] / 16 + 1;
    assert all[offset..][0] == data[offset];
    if nibbles > maxNibbles || nibbles / 2 + 1 > len {
      return None, false;
    }
    len := nibbles / 2 + 1;
    ok, data := Front(buf, offset + len, mem);
    if !ok {
      return None, offset > 0;
    }
    SameNibblesAt(all, offset, len, nibbles);
    var number := DecodeNibbles(data[offset..], nibbles);
    return Some(Decoded(number, len)), false;
  }

  lemma SameNibblesAt(all: seq<byte>, offset: nat, len: nat, n: nat)
    requires offset + len <= |all| && n / 2 < len
    ensures NibbleValue(all[..offset + len][offset..], 1, n) == NibbleValue(all[offset..], 1, n)
  {
    assert all[..offset + len][offset..] == all[offset..][..len];
    SameNibbles(all[offset..][..len], all[offset..], 1, n);
  }

  /** evtag_decode_int and evtag_decode_int64. */
  method GetInt(buf: Evbuffer, maxNibbles: nat, mem: bool) returns (r: Option<Decoded>)
    requires buf.Valid()
    modifies buf.heap, buf`first, buf`last, buf`lastWithDatap, buf`totalLen, buf`data, buf`spare
    ensures buf.Valid() && Rest(buf.heap.m, buf.Chain()) == old(Rest(buf.heap.m, buf.Chain()))
    ensures r == None || r == DecodeInt(old(buf.Contents()), maxNibbles)
    ensures mem ==> r == DecodeInt(old(buf.Contents()), maxNibbles)
    ensures buf.Contents() ==
      if r.Some? then Drained(old(buf.Contents()), r.value.len, buf.freezeStart) else old(buf.Contents())
  {
    hide Shape, Stored, Rest, Linked, AllEmpty, DecodeInt;
    assert buf.Contents()[0..] == buf.Contents();
    var faults;
    r, faults := DecodeIntAt(buf, 0, maxNibbles, mem);
    if r.Some? {
      var _ := buf.Drain(r.value.len);
    }
  }

  /** What is left of `s` once bytes have been taken off its front. */
  ghost predicate SuffixOf(t: seq<byte>, s: seq<byte>) {
    exists n :: 0 <= n <= |s| && t == s[n..]
  }

  /** evtag_unmarshal_header. */
  method UnmarshalHeader(buf: Evbuffer, mem: bool) returns (len: int, tag: nat)
    requires buf.Valid()
    modifies buf.heap, buf`first, buf`last, buf`lastWithDatap, buf`totalLen, buf`data, buf`spare
    ensures buf.Valid() && Rest(buf.heap.m, buf.Chain()) == old(Rest(buf.heap.m, buf.Chain()))
    ensures mem || len != -1 ==> Header(len, tag, buf.Contents()) == ReadHeader(old(buf.Contents()), buf.freezeStart)
    ensures SuffixOf(buf.Contents(), old(buf.Contents()))
  {
    hide Shape, Stored, Rest, Linked, AllEmpty, DecodeInt, DecodeTag;
    ghost var s := buf.Contents();
    ghost var n0 := DrainedSuffix(s, 0, s, 0, true);
    var t := GetTag(buf, true, mem);
    if t.None? {
      return -1, 0;
    }
    tag := t.value.number;
    ghost var s1 := buf.Contents();
    ghost var n1 := DrainedSuffix(s, 0, s, t.value.len, buf.freezeStart);
    var l := GetInt(buf, 8, mem);
    if l.None? {
      return -1, tag;
    }
    ghost var n2 := DrainedSuffix(s, n1, s1, l.value.len, buf.freezeStart);
    if buf.totalLen < l.value.number {
      return -1, tag;
    }
    len := ToInt(l.value.number);
  }

  lemma DrainedSuffix(s: seq<byte>, n: nat, t: seq<byte>, k: nat, frozen: bool) returns (n2: nat)
    requires n <= |s| && t == s[n..]
    ensures n2 <= |s| && Drained(t, k, frozen) == s[n2..] && s[0..] == s
  {
    n2 := if frozen then n else if k >= |t| then |s| else n + k;
  }

  /** Working on one buffer leaves another one that shares no chunk with it alone: `m` and `chunks`
      are the heap and the chunks of `buf` before. */
  lemma StaysApart(m: Memory, chunks: seq<Ptr>, buf: Evbuffer, other: Evbuffer)
    requires buf != other && buf.heap == other.heap && buf.Valid()
    requires Shape(m, other.first, other.lastWithDatap, other.data, other.spare) && Disjoint(other.Chain(), chunks)
    requires other.last == LastOf(other.data, other.spare) && other.totalLen == |Stored(m, other.data)|
    requires Rest(buf.heap.m, buf.Chain()) == Rest(m, chunks)
    ensures Apart(buf, other) && Apart(other, buf) && other.Contents() == Stored(m, other.data)
  {
    hide Shape, Stored, Rest, Linked, AllEmpty;
    ShapeKept(m, chunks, buf.heap.m, buf.Chain(), other.first, other.lastWithDatap, other.data, other.spare);
    assert Disjoint(buf.Chain(), other.Chain());
  }

  /** The second half of evtag_unmarshal: copies `len` bytes from `src` to `dst` and drains them. If they
      cannot be made contiguous, the code copies from a null pointer and `faults`. */
  method MovePayload(src: Evbuffer, dst: Evbuffer, len: nat, mem: bool) returns (ok: bool, faults: bool)
    requires Apart(src, dst) && len <= src.totalLen
    modifies src.heap, src`first, src`last, src`lastWithDatap, src`totalLen, src`data, src`spare
    modifies dst`first, dst`last, dst`lastWithDatap, dst`totalLen, dst`data, dst`spare
    ensures Apart(src, dst) && len <= |old(src.Contents())|
    ensures ok ==> src.Contents() == Drained(old(src.Contents()), len, src.freezeStart)
    ensures ok ==> dst.Contents() == old(dst.Contents()) + old(src.Contents())[..len]
    ensures !ok ==> src.Contents() == old(src.Contents()) && dst.Contents() == old(dst.Contents())
    ensures mem && old(CanAdd(dst, len)) ==> ok
    ensures faults ==> !ok && len > 0 && !(mem && len <= CHAIN_MAX - CHAIN_HEADER)
  {
    hide Shape, Stored, Rest, Linked, AllEmpty;
    var payload := [];
    ok, faults := true, false;
    ghost var m, chunks := src.heap.m, src.Chain();
    if len > 0 {
      ok, payload := Front(src, len, mem);
    }
    StaysApart(m, chunks, src, dst);
    if !ok {
      return false, true;
    }
    m, chunks := dst.heap.m, dst.Chain();
    ok := dst.Add(payload, mem);
    StaysApart(m, chunks, dst, src);
    if !ok {
      return;
    }
    m, chunks := src.heap.m, src.Chain();
    var _ := src.Drain(len);
    StaysApart(m, chunks, src, dst);
  }

  /** evtag_unmarshal: moves the payload of the next item to the end of `dst`. A length of 2^31 or
      more turns negative on the way and makes the call fail. */
  method Unmarshal(src: Evbuffer, dst: Evbuffer, mem: bool) returns (len: int, tag: nat, faults: bool)
    requires Apart(src, dst)
    modifies src.heap, src`first, src`last, src`lastWithDatap, src`totalLen, src`data, src`spare
    modifies dst`first, dst`last, dst`lastWithDatap, dst`totalLen, dst`data, dst`spare
    ensures Apart(src, dst) && len >= -1
    ensures len < 0 ==> dst.Contents() == old(dst.Contents())
    ensures var h := ReadHeader(old(src.Contents()), src.freezeStart);
      && (len >= 0 ==> h.len == len && h.tag == tag)
      && (len >= 0 ==> src.Contents() == Drained(h.left, len, src.freezeStart))
      && (len >= 0 ==> dst.Contents() == old(dst.Contents()) + h.left[..len])
      && (mem && len < 0 ==> src.Contents() == h.left)
      && (mem && h.len >= 0 && old(CanAdd(dst, h.len)) ==> len >= 0)
    ensures SuffixOf(src.Contents(), old(src.Contents()))
    ensures faults ==> len < 0 && !mem
  {
    hide Shape, Stored, Rest, Linked, AllEmpty, ReadHeader;
    ghost var m, chunks, s := src.heap.m, src.Chain(), src.Contents();
    faults := false;
    len, tag := UnmarshalHeader(src, mem);
    StaysApart(m, chunks, src, dst);
    if len == -1 {
      return;
    }
    ghost var n: nat :| n <= |s| && src.Contents() == s[n..];
    ghost var t := src.Contents();
    if len < 0 {
      m, chunks := src.heap.m, src.Chain();
      var _ := Pullup(src, len, mem);
      StaysApart(m, chunks, src, dst);
      return -1, tag, false;
    }
    var ok;
    HeaderFits(s, src.freezeStart);
    ok, faults := MovePayload(src, dst, len, mem);
    if !ok {
      return -1, tag, faults;
    }
    ghost var n2 := DrainedSuffix(s, n, t, len, src.freezeStart);
  }

  /** evtag_unmarshal_int and evtag_unmarshal_int64. */
  method UnmarshalInt(buf: Evbuffer, needTag: nat, maxNibbles: nat, mem: bool) returns (r: Option<Decoded>)
    requires buf.Valid()
    modifies buf.heap, buf`first, buf`last, buf`lastWithDatap, buf`totalLen, buf`data, buf`spare
    ensures buf.Valid() && Rest(buf.heap.m, buf.Chain()) == old(Rest(buf.heap.m, buf.Chain()))
    ensures mem ==> (r, buf.Contents()) == ReadInt(old(buf.Contents()), needTag, maxNibbles, buf.freezeStart)
    ensures r.Some? ==> (r, buf.Contents()) == ReadInt(old(buf.Contents()), needTag, maxNibbles, buf.freezeStart)
  {
    hide Shape, Stored, Rest, Linked, AllEmpty, DecodeInt, DecodeTag;
    var t := GetTag(buf, true, mem);
    if t.None? || t.value.number != needTag {
      return None;
    }
    var l := GetInt(buf, 8, mem);
    if l.None? || buf.totalLen < l.value.number {
      return None;
    }
    assert buf.Contents()[0..] == buf.Contents();
    var faults;
    r, faults := DecodeIntAt(buf, 0, maxNibbles, mem);
    var _ := buf.Drain(l.value.number);
    if r.Some? && r.value.len > l.value.number {
      r := None;
    }
  }

  /** What evtag_unmarshal_int makes of any bytes, and what it leaves. */
  function ReadInt(s: seq<byte>, needTag: nat, maxNibbles: nat, frozen: bool): (Option<Decoded>, seq<byte>) {
    match DecodeTag(s)
    case None => (None, s)
    case Some(t) =>
      var s1 := Drained(s, t.len, frozen);
      if t.number != needTag then (None, s1) else
      match DecodeInt(s1, 8)
      case None => (None, s1)
      case Some(l) =>
        var s2 := Drained(s1, l.len, frozen);
        if |s2| < l.number then (None, s2) else
        var r := DecodeInt(s2, maxNibbles);
        (if r.Some? && r.value.len > l.number then None else r, Drained(s2, l.number, frozen))
  }

  /** A marshalled integer comes back under its tag, and only its bytes are used. */
  lemma IntItemRoundTrip(tag: nat, n: nat, maxNibbles: nat, tail: seq<byte>)
    requires tag < TWO32 && ((n < TWO32 && maxNibbles == 8) || (n < TWO64 && maxNibbles == 16))
    ensures ReadInt(Frame(tag, EncodeInt(n)) + tail, tag, maxNibbles, false) == (Some(Decoded(n, |EncodeInt(n)|)), tail)
  {
    hide EncodeTag, EncodeInt, DecodeTag, DecodeInt;
    var t, p := EncodeTag(tag), EncodeInt(n);
    var l := EncodeInt(|p|);
    Regroup(t, l, p, tail);
    TagRoundTrip(tag, l + (p + tail));
    IntRoundTrips(|p|, p + tail);
    IntRoundTrips(n, tail);
    DrainPrefix(t, l + (p + tail));
    DrainPrefix(l, p + tail);
    DrainPrefix(p, tail);
  }

  // ---- whole streams

  /** Marshals the items one after another, with memory at hand. */
  method MarshalAll(buf: Evbuffer, items: seq<Item>)
    requires buf.Valid() && AllEncodable(items)
    requires !buf.freezeEnd && buf.totalLen + |Stream(items)| + 14 <= SIZE_MAX
    modifies buf.heap, buf`first, buf`last, buf`lastWithDatap, buf`totalLen, buf`data, buf`spare
    ensures buf.Valid() && Rest(buf.heap.m, buf.Chain()) == old(Rest(buf.heap.m, buf.Chain()))
    ensures buf.Contents() == old(buf.Contents()) + Stream(items)
  {
    hide Shape, Stored, Rest, Linked, AllEmpty, Frame, Stream, AllEncodable;
    var rest := items;
    while rest != []
      invariant buf.Valid() && Rest(buf.heap.m, buf.Chain()) == old(Rest(buf.heap.m, buf.Chain())) && AllEncodable(rest)
      invariant buf.Contents() + Stream(rest) == old(buf.Contents()) + Stream(items)
      decreases |rest|
    {
      StreamHead(buf.Contents(), rest);
      assert |buf.Contents() + Stream(rest)| == |old(buf.Contents()) + Stream(items)|;
      var a, b, c := Marshal(buf, rest[0].tag, rest[0].payload, true);
      rest := rest[1..];
    }
    assert Stream(rest) == [] by {
      StreamHead([], rest);
    }
  }

  /** The first item of a stream. */
  lemma StreamHead(s: seq<byte>, items: seq<Item>)
    requires AllEncodable(items)
    ensures items == [] ==> Stream(items) == []
    ensures items != [] ==> Encodable(items[0]) && AllEncodable(items[1..])
    ensures items != [] ==> s + Stream(items) == s + Frame(items[0].tag, items[0].payload) + Stream(items[1..])
    ensures items != [] ==> |items[0].payload| <= |Stream(items)|
  {
    hide Frame;
    if items != [] {
      assert Encodable(items[0]);
      var f := Frame(items[0].tag, items[0].payload);
      assert s + (f + Stream(items[1..])) == s + f + Stream(items[1..]);
      FrameLength(items[0].tag, items[0].payload);
    }
  }

  lemma FrameLength(tag: nat, payload: seq<byte>)
    requires |payload| < TWO32
    ensures |payload| <= |Frame(tag, payload)|
  {
    hide EncodeTag, EncodeInt;
  }

  /** Calls evtag_unmarshal, with memory at hand, and takes the payload out of `dst`. */
  method NextItem(src: Evbuffer, dst: Evbuffer) returns (ok: bool, item: Item)
    requires Apart(src, dst) && !src.freezeStart && !dst.freezeEnd && !dst.freezeStart && dst.Contents() == []
    modifies src.heap, src`first, src`last, src`lastWithDatap, src`totalLen, src`data, src`spare
    modifies dst`first, dst`last, dst`lastWithDatap, dst`totalLen, dst`data, dst`spare
    ensures Apart(src, dst) && (ok ==> dst.Contents() == [])
    ensures var h := ReadHeader(old(src.Contents()), false);
      && (ok <==> h.len >= 0)
      && (ok ==> h.len <= |h.left| && item == Item(h.tag, h.left[..h.len]) && src.Contents() == h.left[h.len..])
  {
    hide Shape, Stored, Rest, Linked, AllEmpty, ReadHeader, SuffixOf;
    ghost var h := ReadHeader(src.Contents(), false);
    HeaderFits(src.Contents(), false);
    var len, tag, _ := Unmarshal(src, dst, true);
    if len < 0 {
      return false, Item(0, []);
    }
    ghost var m, chunks, dst0 := dst.heap.m, dst.Chain(), dst.Contents();
    var k, payload := Remove(dst, len);
    StaysApart(m, chunks, dst, src);
    TakenWhole(h.left, len, dst0, payload, dst.Contents());
    return true, Item(tag, payload);
  }

  lemma TakenWhole(left: seq<byte>, len: nat, all: seq<byte>, taken: seq<byte>, rest: seq<byte>)
    requires len <= |left| && all == [] + left[..len] && taken + rest == all && |taken| == if len < |all| then len
      else |all|
    ensures taken == left[..len] && rest == []
    ensures Drained(left, len, false) == left[len..]
  {
    assert |rest| == 0 && taken + [] == taken;
  }

  /** Calls evtag_unmarshal `n` times, with memory at hand. */
  method UnmarshalAll(src: Evbuffer, dst: Evbuffer, n: nat) returns (ok: bool, items: seq<Item>)
    requires Apart(src, dst) && !src.freezeStart && !dst.freezeEnd && !dst.freezeStart && dst.Contents() == []
    modifies src.heap, src`first, src`last, src`lastWithDatap, src`totalLen, src`data, src`spare
    modifies dst`first, dst`last, dst`lastWithDatap, dst`totalLen, dst`data, dst`spare
    ensures Apart(src, dst)
    ensures ok <==> ReadItems(old(src.Contents()), n).Some?
    ensures ok ==> ReadItems(old(src.Contents()), n) == Some((items, src.Contents()))
  {
    hide Shape, Stored, Rest, Linked, AllEmpty, ReadHeader, ReadItems;
    items := [];
    var i: nat := 0;
    ReadItemsStart(src.Contents(), n);
    while i < n
      invariant i <= n && Apart(src, dst) && dst.Contents() == []
      invariant ReadItems(old(src.Contents()), n) == Prefixed(items, ReadItems(src.Contents(), n - i))
    {
      ReadItemsStep(items, src.Contents(), n - i);
      var next, item := NextItem(src, dst);
      if !next {
        return false, items;
      }
      items := items + [item];
      i := i + 1;
    }
    ReadItemsEnd(items, src.Contents());
    return true, items;
  }

  /** The list read so far, followed by what is still to be read. */
  function Prefixed(items: seq<Item>, r: Option<(seq<Item>, seq<byte>)>): Option<(seq<Item>, seq<byte>)> {
    match r
    case None => None
    case Some(v) => Some((items + v.0, v.1))
  }

  lemma ReadItemsStart(s: seq<byte>, n: nat)
    ensures ReadItems(s, n) == Prefixed([], ReadItems(s, n))
  {
    if ReadItems(s, n).Some? {
      assert [] + ReadItems(s, n).value.0 == ReadItems(s, n).value.0;
    }
  }

  lemma ReadItemsEnd(items: seq<Item>, s: seq<byte>)
    ensures Prefixed(items, ReadItems(s, 0)) == Some((items, s))
  {
    assert items + [] == items;
  }

  lemma ReadItemsStep(items: seq<Item>, s: seq<byte>, n: nat)
    requires n > 0
    ensures var h := ReadHeader(s, false);
      && h.len < TWO31
      && (h.len < 0 ==> Prefixed(items, ReadItems(s, n)) == None)
      && (h.len >= 0 ==> Drained(h.left, h.len, false) == h.left[h.len..]
                         && Prefixed(items, ReadItems(s, n)) == Prefixed(items + [Item(h.tag, h.left[..h.len])],
                           ReadItems(h.left[h.len..], n - 1)))
  {
    var h := ReadHeader(s, false);
    HeaderFits(s, false);
    if h.len >= 0 && ReadItems(s, n).Some? {
      var r := ReadItems(h.left[h.len..], n - 1).value;
      assert items + ([Item(h.tag, h.left[..h.len])] + r.0) == items + [Item(h.tag, h.left[..h.len])] + r.0;
    }
  }

  /** Whatever bytes arrive, a tag and a length read from them fit into 32 bits. */
  lemma HeaderFits(s: seq<byte>, frozen: bool)
    ensures ReadHeader(s, frozen).tag < TWO32 && -(TWO31 as int) <= ReadHeader(s, frozen).len < TWO31
  {
    DecodedTagBound(s, 5);
    assert TagBound(5) == TWO32;
    if DecodeTag(s).Some? {
      var s1 := Drained(s, DecodeTag(s).value.len, frozen);
      IntFits(s1);
    }
  }

  lemma IntFits(s: seq<byte>)
    ensures DecodeInt(s, 8).Some? ==> DecodeInt(s, 8).value.number < TWO32
    ensures DecodeInt(s, 16).Some? ==> DecodeInt(s, 16).value.number < TWO64
  {
    if DecodeInt(s, 16).Some? {
      var nibbles := s[0] / 16 + 1;
      NibbleValueBound(s, 1, nibbles);
      Pow16Values();
      PowMonotone(nibbles, 16);
      if nibbles <= 8 {
        PowMonotone(nibbles, 8);
      }
    }
  }

  lemma {:induction false} PowMonotone(a: nat, b: nat)
    requires a <= b
    ensures Pow16(a) <= Pow16(b)
  {
    if a < b {
      PowMonotone(a, b - 1);
    }
  }

  /** A list of items marshalled into one buffer and unmarshalled again comes back whole. */
  method Transmit(src: Evbuffer, dst: Evbuffer, items: seq<Item>, tail: seq<byte>) returns (ok: bool, got: seq<Item>)
    requires Apart(src, dst) && src.Contents() == [] && dst.Contents() == []
    requires !src.freezeStart && !src.freezeEnd && !dst.freezeEnd && !dst.freezeStart
    requires AllEncodable(items)
    requires |Stream(items)| + 14 + |tail| <= SIZE_MAX && |tail| <= CHAIN_MAX - CHAIN_HEADER
    modifies src.heap, src`first, src`last, src`lastWithDatap, src`totalLen, src`data, src`spare
    modifies dst`first, dst`last, dst`lastWithDatap, dst`totalLen, dst`data, dst`spare
    ensures ok && got == items && src.Contents() == tail
  {
    hide Shape, Stored, Rest, Linked, AllEmpty, ReadItems, Stream;
    ghost var m, chunks := src.heap.m, src.Chain();
    MarshalAll(src, items);
    var added := src.Add(tail, true);
    StaysApart(m, chunks, src, dst);
    assert [] + Stream(items) == Stream(items);
    StreamRoundTrip(items, tail);
    ok, got := UnmarshalAll(src, dst, |items|);
  }
}
