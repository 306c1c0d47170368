/** The tagged wire format as functions on byte sequences: what the encoders write, what the
    decoders make of any bytes, and that the second undoes the first. */
module TagFormat {
  import opened Options
  import opened Bytes

  /** A decoded number and how many bytes it took. */
  datatype Decoded = Decoded(number: nat, len: nat)

  // ---- tags: seven bits a byte, least significant first, the high bit set on all but the last

  function EncodeTag(tag: nat): (s: seq<byte>)
    ensures s != []
  {
    if tag < 128 then [tag] else [tag % 128 + 128] + EncodeTag(tag / 128)
  }

  /** A tag at the start of `s`, in at most `left` bytes, the last possible one of which has only
      four bits to give. */
  function DecodeTagIn(s: seq<byte>, left: nat): (r: Option<Decoded>)
    ensures r.Some? ==> 0 < r.value.len <= left && r.value.len <= |s|
  {
    if s == [] || left == 0 || (left == 1 && s[0] % 128 > 15) then None
    else if s[0] < 128 then Some(Decoded(s[0], 1))
    else match DecodeTagIn(s[1..], left - 1)
         case None => None
         case Some(d) => Some(Decoded(s[0] - 128 + 128 * d.number, d.len + 1))
  }

  function DecodeTag(s: seq<byte>): (r: Option<Decoded>)
    ensures r.Some? ==> 0 < r.value.len <= 5 && r.value.len <= |s|
  {
    DecodeTagIn(s, 5)
  }

  /** The largest tag that fits into `left` bytes, plus one. */
  function TagBound(left: nat): nat {
    if left == 0 then 0 else if left == 1 then 16 else 128 * TagBound(left - 1)
  }

  lemma {:induction false} TagRoundTripIn(tag: nat, tail: seq<byte>, left: nat)
    requires tag < TagBound(left)
    ensures |EncodeTag(tag)| <= left
    ensures DecodeTagIn(EncodeTag(tag) + tail, left) == Some(Decoded(tag, |EncodeTag(tag)|))
  {
    hide EncodeTag, DecodeTagIn, TagBound;
    if tag < 128 {
      ShortTag(tag, tail, left);
    } else {
      SmallerTag(tag, left);
      TagRoundTripIn(tag / 128, tail, left - 1);
      FirstOfTag(tag);
      var s, rest := EncodeTag(tag) + tail, EncodeTag(tag / 128) + tail;
      assert s[0] == tag % 128 + 128 && s[1..] == rest;
      LongerTag(s, rest, left);
    }
  }

  lemma ShortTag(tag: nat, tail: seq<byte>, left: nat)
    requires tag < 128 && tag < TagBound(left)
    ensures |EncodeTag(tag)| == 1 <= left && DecodeTagIn(EncodeTag(tag) + tail, left) == Some(Decoded(tag, 1))
  {
  }

  lemma SmallerTag(tag: nat, left: nat)
    requires 128 <= tag < TagBound(left)
    ensures left > 1 && tag / 128 < TagBound(left - 1)
  {
  }

  lemma FirstOfTag(tag: nat)
    ensures EncodeTag(tag) == if tag / 128 == 0 then [tag % 128] else [tag % 128 + 128] + EncodeTag(tag / 128)
  {
  }

  /** A byte that announces more puts seven bits in front of a tag. */
  lemma LongerTag(s: seq<byte>, rest: seq<byte>, left: nat)
    requires s != [] && s[0] >= 128 && s[1..] == rest && left > 1 && DecodeTagIn(rest, left - 1).Some?
    ensures var d := DecodeTagIn(rest, left - 1).value;
      DecodeTagIn(s, left) == Some(Decoded(s[0] - 128 + 128 * d.number, d.len + 1))
  {
  }

  /** Whatever follows it, an encoded 32-bit tag is read back, and exactly its bytes are used. */
  lemma TagRoundTrip(tag: nat, tail: seq<byte>)
    requires tag < TWO32
    ensures |EncodeTag(tag)| <= 5
    ensures DecodeTag(EncodeTag(tag) + tail) == Some(Decoded(tag, |EncodeTag(tag)|))
  {
    assert TagBound(5) == TWO32;
    TagRoundTripIn(tag, tail, 5);
  }

  lemma {:induction false} TagBoundAtLeast(left: nat)
    ensures left > 0 ==> TagBound(left) >= 16
    ensures left > 1 ==> TagBound(left) >= 128
  {
    if left > 1 {
      TagBoundAtLeast(left - 1);
    }
  }

  lemma {:induction false} DecodedTagBound(s: seq<byte>, left: nat)
    ensures DecodeTagIn(s, left).Some? ==> DecodeTagIn(s, left).value.number < TagBound(left)
  {
    if s != [] && left > 0 {
      DecodedTagBound(s[1..], left - 1);
      TagBoundAtLeast(left);
    }
  }

  // ---- integers: a count nibble, then the significant nibbles, least significant first

  /** The significant nibbles of `n`; none for 0. */
  function Digits(n: nat): seq<nat> {
    if n == 0 then [] else [n % 16] + Digits(n / 16)
  }

  /** The nibbles an integer is encoded in: one less than their number, then the digits. */
  function Nibbles(n: nat): (ns: seq<nat>)
    ensures |ns| >= 2 && ns[0] == |ns| - 2 && ns[1..] == if n == 0 then [0] else Digits(n)
  {
    var ds := if n == 0 then [0] else Digits(n);
    [|ds| - 1] + ds
  }

  lemma {:induction false} DigitsSmall(n: nat, k: nat)
    requires n < Pow16(k)
    ensures |Digits(n)| <= k
    ensures forall i :: 0 <= i < |Digits(n)| ==> Digits(n)[i] < 16
  {
    if n > 0 {
      DigitsSmall(n / 16, k - 1);
    }
  }

  function Pow16(k: nat): (p: nat)
    ensures p > 0
  {
    if k == 0 then 1 else 16 * Pow16(k - 1)
  }

  lemma Pow16Values()
    ensures Pow16(8) == TWO32 && Pow16(16) == TWO64
  {
    assert Pow16(8) == TWO32;
  }

  /** Two nibbles a byte, the earlier one in the high half; a missing one is 0. */
  function Packed(ns: seq<nat>, i: nat): byte
    requires 2 * i < |ns| && forall k :: 0 <= k < |ns| ==> ns[k] < 16
  {
    16 * ns[2 * i] + if 2 * i + 1 < |ns| then ns[2 * i + 1] else 0
  }

  function Pack(ns: seq<nat>): (s: seq<byte>)
    requires forall k :: 0 <= k < |ns| ==> ns[k] < 16
    ensures |s| == (|ns| + 1) / 2
  {
    seq((|ns| + 1) / 2, i requires 0 <= i < (|ns| + 1) / 2 => Packed(ns, i))
  }

  lemma PackedNibble(ns: seq<nat>, k: nat)
    requires (forall k :: 0 <= k < |ns| ==> ns[k] < 16) && k / 2 < |Pack(ns)|
    ensures NibbleAt(Pack(ns), k) == if k < |ns| then ns[k] else 0
  {
    var i := k / 2;
    assert Pack(ns)[i] == Packed(ns, i) && ns[2 * i] < 16;
    assert k == 2 * i || k == 2 * i + 1;
  }

  /** The nibble at position `k`: even ones are in the high half of a byte. */
  function NibbleAt(s: seq<byte>, k: nat): (r: nat)
    requires k / 2 < |s|
    ensures r < 16
  {
    if k % 2 == 0 then s[k / 2] / 16 else s[k / 2] % 16
  }

  lemma NibblesSmall(n: nat)
    requires n < TWO64
    ensures |Nibbles(n)| <= 17 && forall k :: 0 <= k < |Nibbles(n)| ==> Nibbles(n)[k] < 16
    ensures n < TWO32 ==> |Nibbles(n)| <= 9
  {
    Pow16Values();
    DigitsSmall(n, 16);
    if n < TWO32 {
      DigitsSmall(n, 8);
    }
    forall k | 0 <= k < |Nibbles(n)| ensures Nibbles(n)[k] < 16 {
      assert k > 0 ==> Nibbles(n)[k] == Nibbles(n)[1..][k - 1];
    }
  }

  function EncodeInt(n: nat): (s: seq<byte>)
    requires n < TWO64
    ensures |s| == (|Nibbles(n)| + 1) / 2
    ensures n < TWO32 ==> |s| <= 5
    ensures |s| <= 9
  {
    NibblesSmall(n);
    Pack(Nibbles(n))
  }

  /** The number whose nibbles, least significant first, are those at positions k..n. */
  function NibbleValue(s: seq<byte>, k: nat, n: nat): nat
    requires k <= n + 1 && n / 2 < |s|
    decreases n + 1 - k
  {
    if k == n + 1 then 0 else NibbleAt(s, k) + 16 * NibbleValue(s, k + 1, n)
  }

  /** An integer of at most `maxNibbles` nibbles at the start of `s`. */
  function DecodeInt(s: seq<byte>, maxNibbles: nat): (r: Option<Decoded>)
    ensures r.Some? ==> 0 < r.value.len <= |s|
  {
    if s == [] then None
    else
      var nibbles := s[0] / 16 + 1;
      if nibbles > maxNibbles || nibbles / 2 + 1 > |s| then None
      else Some(Decoded(NibbleValue(s, 1, nibbles), nibbles / 2 + 1))
  }

  /** Nibbles that spell the digits of `n` have the value `n`. */
  lemma {:induction false} ValueOfDigits(s: seq<byte>, k: nat, n: nat, number: nat)
    requires k <= n + 1 && n / 2 < |s| && |Digits(number)| == n + 1 - k
    requires forall i :: 0 <= i < |Digits(number)| ==> NibbleAt(s, k + i) == Digits(number)[i]
    ensures NibbleValue(s, k, n) == number
    decreases n + 1 - k
  {
    if k < n + 1 {
      assert NibbleAt(s, k + 0) == Digits(number)[0];
      forall i | 0 <= i < |Digits(number / 16)| ensures NibbleAt(s, k + 1 + i) == Digits(number / 16)[i] {
        assert NibbleAt(s, k + (i + 1)) == Digits(number)[i + 1];
      }
      ValueOfDigits(s, k + 1, n, number / 16);
    }
  }

  lemma {:induction false} SameNibbles(s: seq<byte>, t: seq<byte>, k: nat, n: nat)
    requires k <= n + 1 && n / 2 < |s| && s <= t
    ensures NibbleValue(s, k, n) == NibbleValue(t, k, n)
    decreases n + 1 - k
  {
    if k < n + 1 {
      SameNibbles(s, t, k + 1, n);
    }
  }

  lemma FirstNibble(s: seq<byte>)
    requires s != []
    ensures NibbleAt(s, 0) == s[0] / 16
  {
  }

  /** The nibbles of an encoded integer, with the padding. */
  lemma EncodedNibble(n: nat, k: nat)
    requires n < TWO64 && k / 2 < |EncodeInt(n)|
    ensures NibbleAt(EncodeInt(n), k) == if k < |Nibbles(n)| then Nibbles(n)[k] else 0
  {
    NibblesSmall(n);
    PackedNibble(Nibbles(n), k);
  }

  /** The value of the nibbles of an encoded integer. */
  lemma EncodedValue(n: nat)
    requires n < TWO64
    ensures var s := EncodeInt(n); var count := |Nibbles(n)| - 1; count / 2 < |s| && NibbleValue(s, 1, count) == n
  {
    hide Nibbles, NibbleAt, Pack;
    var ns, s := Nibbles(n), EncodeInt(n);
    if n == 0 {
      EncodedNibble(n, 1);
      assert ns[1] == ns[1..][0];
      assert NibbleValue(s, 2, 1) == 0;
    } else {
      forall i | 0 <= i < |Digits(n)| ensures NibbleAt(s, 1 + i) == Digits(n)[i] {
        EncodedNibble(n, 1 + i);
        assert ns[1 + i] == ns[1..][i];
      }
      ValueOfDigits(s, 1, |ns| - 1, n);
    }
  }

  /** Whatever follows it, an encoded integer is read back, and exactly its bytes are used. */
  lemma IntRoundTrip(n: nat, tail: seq<byte>, maxNibbles: nat)
    requires n < TWO64 && |Nibbles(n)| <= maxNibbles + 1
    ensures DecodeInt(EncodeInt(n) + tail, maxNibbles) == Some(Decoded(n, |EncodeInt(n)|))
  {
    hide Nibbles, NibbleAt, Pack, NibbleValue;
    var s := EncodeInt(n);
    FirstNibble(s);
    EncodedNibble(n, 0);
    EncodedValue(n);
    SameNibbles(s, s + tail, 1, |Nibbles(n)| - 1);
  }

  /** The 32-bit and the 64-bit form. */
  lemma IntRoundTrips(n: nat, tail: seq<byte>)
    ensures n < TWO32 ==> DecodeInt(EncodeInt(n) + tail, 8) == Some(Decoded(n, |EncodeInt(n)|))
    ensures n < TWO64 ==> DecodeInt(EncodeInt(n) + tail, 16) == Some(Decoded(n, |EncodeInt(n)|))
  {
    if n < TWO64 {
      NibblesSmall(n);
      IntRoundTrip(n, tail, 16);
      if n < TWO32 {
        IntRoundTrip(n, tail, 8);
      }
    }
  }

  lemma {:induction false} NibbleValueBound(s: seq<byte>, k: nat, n: nat)
    requires k <= n + 1 && n / 2 < |s|
    ensures NibbleValue(s, k, n) < Pow16(n + 1 - k)
    decreases n + 1 - k
  {
    if k < n + 1 {
      NibbleValueBound(s, k + 1, n);
    }
  }

  // ---- which bits of which byte

  /** Division in two steps. */
  lemma DivTwice(n: nat, a: nat, b: nat)
    requires a > 0 && b > 0
    ensures a * b > 0 && n / (a * b) == n / a / b
  {
    var m, y := n / a, n % a;
    var q, x := m / b, m % b;
    Division(n, a);
    Division(m, b);
    TwoRemainders(a, b, q, x, y);
    QuotientIs(n, a * b, q, a * x + y);
  }

  lemma Division(n: nat, d: nat)
    requires d > 0
    ensures n == d * (n / d) + n % d && n % d < d
  {
  }

  lemma TwoRemainders(a: nat, b: nat, q: nat, x: nat, y: nat)
    requires x < b && y < a
    ensures a * (b * q + x) + y == (a * b) * q + (a * x + y)
    ensures a * x + y < a * b
  {
    MulAtMost(a, x + 1, b);
  }

  lemma MulAtMost(a: nat, x: nat, y: nat)
    requires x <= y
    ensures a * x <= a * y
  {
  }

  lemma QuotientIs(n: nat, d: nat, q: nat, r: nat)
    requires n == d * q + r && r < d
    ensures n / d == q
  {
    if n / d < q {
      MulAtMost(d, n / d + 1, q);
    } else if n / d > q {
      MulAtMost(d, q + 1, n / d);
    }
  }

  function Pow128(k: nat): (p: nat)
    ensures p > 0
  {
    if k == 0 then 1 else 128 * Pow128(k - 1)
  }

  /** The bytes of any tag that is accepted: each holds seven bits in its low half, the first one the least significant
      ones, and the high bit says whether another byte follows. */
  lemma {:induction false} TagBits(s: seq<byte>, left: nat, k: nat)
    requires DecodeTagIn(s, left).Some? && k < DecodeTagIn(s, left).value.len
    ensures var d := DecodeTagIn(s, left).value;
      && (s[k] >= 128 <==> k < d.len - 1)
      && s[k] % 128 == d.number / Pow128(k) % 128
      && d.number < Pow128(d.len)
  {
    var d := DecodeTagIn(s, left).value;
    if s[0] >= 128 {
      var t := DecodeTagIn(s[1..], left - 1).value;
      TagBits(s[1..], left - 1, if k > 0 then k - 1 else 0);
      SevenMore(s[0] - 128, t.number, k);
      assert Pow128(d.len) == 128 * Pow128(t.len);
    } else {
      assert Pow128(0) == 1 && Pow128(1) == 128 * Pow128(0);
    }
  }

  lemma LowDigit(x: nat, t: nat, a: nat)
    requires x < a
    ensures (x + a * t) / a == t && (x + a * t) % a == x
  {
    QuotientIs(x + a * t, a, t, x);
    Division(x + a * t, a);
  }

  /** Seven bits below `t`. */
  lemma SevenMore(x: nat, t: nat, k: nat)
    requires x < 128
    ensures (x + 128 * t) / Pow128(k) % 128 == if k == 0 then x else t / Pow128(k - 1) % 128
  {
    LowDigit(x, t, 128);
    if k > 0 {
      DivTwice(x + 128 * t, 128, Pow128(k - 1));
    }
  }

  /** Four bits below `t`. */
  lemma FourMore(x: nat, t: nat, j: nat)
    requires x < 16
    ensures (x + 16 * t) / Pow16(j) % 16 == if j == 0 then x else t / Pow16(j - 1) % 16
  {
    LowDigit(x, t, 16);
    if j > 0 {
      DivTwice(x + 16 * t, 16, Pow16(j - 1));
    }
  }

  lemma {:induction false} NibbleOfValue(s: seq<byte>, k: nat, n: nat, j: nat)
    requires k + j <= n && n / 2 < |s|
    ensures NibbleValue(s, k, n) / Pow16(j) % 16 == NibbleAt(s, k + j)
    decreases j
  {
    hide Pow16, NibbleAt;
    FourMore(NibbleAt(s, k), NibbleValue(s, k + 1, n), j);
    if j > 0 {
      NibbleOfValue(s, k + 1, n, j - 1);
    }
  }

  /** The bytes of any integer that is accepted: the high half of the first one is the number of hexadecimal digits
      less one, its low half the least significant digit; of each later byte the high half is the less significant. */
  lemma IntBits(s: seq<byte>, maxNibbles: nat, k: nat)
    requires DecodeInt(s, maxNibbles).Some? && k <= s[0] / 16
    ensures var d := DecodeInt(s, maxNibbles).value;
      && d.len == (s[0] / 16 + 3) / 2
      && d.number < Pow16(s[0] / 16 + 1)
      && d.number / Pow16(k) % 16 == (if k % 2 == 0 then s[(k + 1) / 2] % 16 else s[(k + 1) / 2] / 16)
  {
    hide NibbleValue, Pow16, NibbleAt;
    NibbleValueBound(s, 1, s[0] / 16 + 1);
    NibbleOfValue(s, 1, s[0] / 16 + 1, k);
    NibbleAfterCount(s, k);
  }

  lemma NibbleAfterCount(s: seq<byte>, k: nat)
    requires (k + 1) / 2 < |s|
    ensures NibbleAt(s, 1 + k) == if k % 2 == 0 then s[(k + 1) / 2] % 16 else s[(k + 1) / 2] / 16
  {
  }

  /** An encoded integer has no leading zero digits. */
  lemma IntShortest(n: nat)
    requires n < TWO64
    ensures EncodeInt(n) != [] && EncodeInt(n)[0] / 16 < 16
    ensures var digits := EncodeInt(n)[0] / 16; n < Pow16(digits + 1) && (digits > 0 ==> n >= Pow16(digits))
  {
    SixteenOnce();
    hide Digits, Pow16;
    EncodedNibble(n, 0);
    FirstNibble(EncodeInt(n));
    DigitsCount(n);
  }

  lemma SixteenOnce()
    ensures Pow16(1) == 16 && Digits(0) == []
  {
    assert Pow16(0) == 1;
  }

  lemma {:induction false} DigitsCount(n: nat)
    ensures n > 0 ==> |Digits(n)| > 0 && Pow16(|Digits(n)| - 1) <= n < Pow16(|Digits(n)|)
  {
    if n > 0 {
      DigitsCount(n / 16);
    }
  }

  // ---- tagged data

  datatype Item = Item(tag: nat, payload: seq<byte>)

  predicate Encodable(item: Item) {
    item.tag < TWO32 && |item.payload| < TWO31
  }

  predicate AllEncodable(items: seq<Item>) {
    forall i :: 0 <= i < |items| ==> Encodable(items[i])
  }

  function Frame(tag: nat, payload: seq<byte>): seq<byte>
    requires |payload| < TWO32
  {
    EncodeTag(tag) + EncodeInt(|payload|) + payload
  }

  function Stream(items: seq<Item>): seq<byte>
    requires AllEncodable(items)
  {
    if items == [] then [] else assert Encodable(items[0]); Frame(items[0].tag, items[0].payload) + Stream(items[1..])
  }

  /** Draining `n` bytes, which a frozen front silently refuses. */
  function Drained(s: seq<byte>, n: nat, frozen: bool): seq<byte> {
    if frozen then s else if n >= |s| then [] else s[n..]
  }

  /** What evtag_unmarshal_header returns and the bytes it leaves behind. */
  datatype Header = Header(len: int, tag: nat, left: seq<byte>)

  /** Conversion of a 32-bit length to int. */
  function ToInt(n: nat): int {
    if n < TWO31 then n else n - TWO32
  }

  function ReadHeader(s: seq<byte>, frozen: bool): (h: Header)
    ensures h.len >= 0 ==> h.len <= |h.left|
  {
    match DecodeTag(s)
    case None => Header(-1, 0, s)
    case Some(t) =>
      var s1 := Drained(s, t.len, frozen);
      match DecodeInt(s1, 8)
      case None => Header(-1, t.number, s1)
      case Some(l) =>
        var s2 := Drained(s1, l.len, frozen);
        if |s2| < l.number then Header(-1, t.number, s2) else Header(ToInt(l.number), t.number, s2)
  }

  /** Reading a header back. */
  lemma HeaderRoundTrip(item: Item, tail: seq<byte>)
    requires Encodable(item)
    ensures ReadHeader(Frame(item.tag, item.payload) + tail, false) ==
      Header(|item.payload|, item.tag, item.payload + tail)
  {
    hide EncodeTag, EncodeInt, DecodeTag, DecodeInt, Drained;
    var t, l, p := EncodeTag(item.tag), EncodeInt(|item.payload|), item.payload;
    Regroup(t, l, p, tail);
    TagRoundTrip(item.tag, l + (p + tail));
    IntRoundTrips(|p|, p + tail);
    DrainPrefix(t, l + (p + tail));
    DrainPrefix(l, p + tail);
  }

  lemma Regroup(a: seq<byte>, b: seq<byte>, c: seq<byte>, d: seq<byte>)
    ensures a + b + c + d == a + (b + (c + d))
  {
  }

  lemma DrainPrefix(a: seq<byte>, b: seq<byte>)
    ensures Drained(a + b, |a|, false) == b
  {
  }

  /** Repeated evtag_unmarshal: the next `n` items and what is left, or nothing on an error. */
  function ReadItems(s: seq<byte>, n: nat): Option<(seq<Item>, seq<byte>)>
    decreases n
  {
    if n == 0 then Some(([], s))
    else
      var h := ReadHeader(s, false);
      if h.len < 0 then None
      else match ReadItems(h.left[h.len..], n - 1)
           case None => None
           case Some(r) => Some(([Item(h.tag, h.left[..h.len])] + r.0, r.1))
  }

  /** The stream is self-delimiting: the items come back and trailing bytes are not touched. */
  lemma {:induction false} StreamRoundTrip(items: seq<Item>, tail: seq<byte>)
    requires AllEncodable(items)
    ensures ReadItems(Stream(items) + tail, |items|) == Some((items, tail))
  {
    if items == [] {
      assert [] + tail == tail;
    } else {
      var it, rest := items[0], Stream(items[1..]) + tail;
      assert Stream(items) + tail == Frame(it.tag, it.payload) + rest;
      HeaderRoundTrip(it, rest);
      assert (it.payload + rest)[|it.payload|..] == rest && (it.payload + rest)[..|it.payload|] == it.payload;
      StreamRoundTrip(items[1..], tail);
      assert [it] + items[1..] == items;
    }
  }

  lemma {:induction false} StreamConcat(a: seq<Item>, b: seq<Item>)
    requires AllEncodable(a)
    requires AllEncodable(b)
    ensures Stream(a + b) == Stream(a) + Stream(b)
  {
    if a == [] {
      assert [] + b == b;
    } else {
      assert (a + b)[1..] == a[1..] + b;
      StreamConcat(a[1..], b);
    }
  }

  lemma SplitEncodable(items: seq<Item>, n: nat)
    requires AllEncodable(items) && n <= |items|
    ensures AllEncodable(items[..n]) && AllEncodable(items[n..]) && items[..n] + items[n..] == items
  {
    hide Encodable;
  }

  /** Hence no byte sequence is the stream of two different lists of items. */
  lemma StreamUnambiguous(a: seq<Item>, b: seq<Item>)
    requires AllEncodable(a)
    requires AllEncodable(b)
    requires Stream(a) == Stream(b) && |a| <= |b|
    ensures a == b
  {
    hide Stream, ReadItems, Encodable, AllEncodable;
    SplitEncodable(b, |a|);
    var front, rest := b[..|a|], b[|a|..];
    assert b == front + rest;
    StreamConcat(front, rest);
    StreamRoundTrip(a, []);
    StreamRoundTrip(front, Stream(rest));
    assert Stream(a) + [] == Stream(front) + Stream(rest);
    assert a == front && Stream(rest) == [];
    StreamNotEmpty(rest);
  }

  lemma StreamNotEmpty(items: seq<Item>)
    requires AllEncodable(items)
    ensures items != [] ==> Stream(items) != []
  {
    if items != [] {
      assert |Stream(items)| >= |EncodeTag(items[0].tag)|;
    }
  }
}
