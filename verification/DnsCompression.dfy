/** Writing domain names with compression, and that name_parse reads them back. */
module DnsCompression {
  import opened Options
  import opened Bytes
  import opened DnsNames

  /** A tail of a name already written, and where. */
  datatype Entry = Entry(name: seq<byte>, pos: nat)

  /** The first dot in a C string, or -1. */
  function FirstDot(name: seq<byte>): (d: int)
    ensures -1 <= d < |name|
    ensures d >= 0 ==> name[d] == DOT
  {
    if name == [] then -1
    else if name[0] == DOT then 0
    else
      var d := FirstDot(name[1..]);
      if d < 0 then -1 else d + 1
  }

  lemma {:induction false} FirstDotIsFirst(name: seq<byte>)
    ensures FirstDot(name) >= 0 ==> DOT !in name[..FirstDot(name)]
    ensures FirstDot(name) < 0 ==> DOT !in name
  {
    if name != [] && name[0] != DOT {
      FirstDotIsFirst(name[1..]);
      var d := FirstDot(name[1..]);
      assert d >= 0 ==> name[..d + 1] == [name[0]] + name[1..][..d];
    }
  }

  /** struct dnslabel_table. */
  class LabelTable {
    var labels: seq<Entry>

    ghost predicate Valid()
      reads this
    {
      |labels| <= MAX_LABELS
    }

    /** dnslabel_table_init. */
    constructor ()
      ensures Valid() && labels == []
    {
      labels := [];
    }

    /** dnslabel_table_get_pos. */
    method GetPos(tail: seq<byte>) returns (pos: int)
      requires Valid()
      ensures pos == PosOf(labels, tail)
    {
      var i := 0;
      while i < |labels|
        invariant 0 <= i <= |labels| && PosOf(labels, tail) == PosOf(labels[i..], tail)
      {
        assert labels[i..][1..] == labels[i + 1..];
        if tail == labels[i].name {
          return labels[i].pos;
        }
        i := i + 1;
      }
      return -1;
    }

    /** dnslabel_table_add; `mem` says whether the copy of the name could be allocated. */
    method Add(tail: seq<byte>, pos: nat, mem: bool) returns (ok: bool)
      requires Valid()
      modifies this
      ensures Valid() && labels == WithEntry(old(labels), tail, pos, mem)
      ensures ok <==> labels != old(labels)
    {
      if |labels| == MAX_LABELS || !mem {
        return false;
      }
      labels := labels + [Entry(tail, pos)];
      return true;
    }
  }

  /** The position of the first entry with that name, or -1. */
  function PosOf(table: seq<Entry>, tail: seq<byte>): (pos: int)
    ensures pos >= 0 ==> Entry(tail, pos) in table
    ensures pos < 0 ==> pos == -1 && forall e :: e in table ==> e.name != tail
  {
    if table == [] then -1 else if table[0].name == tail then table[0].pos else PosOf(table[1..], tail)
  }

  function WithEntry(table: seq<Entry>, tail: seq<byte>, pos: nat, mem: bool): (t: seq<Entry>)
    ensures t == table || t == table + [Entry(tail, pos)]
  {
    if |table| >= MAX_LABELS || !mem then table else table + [Entry(tail, pos)]
  }

  /** The result code, the buffer and the table after writing a name, and whether the final zero went
      to the byte after the buffer. */
  datatype Written = Written(r: int, buf: seq<byte>, table: seq<Entry>, outside: bool)

  /** The bytes `bs` stored at position `j`. */
  function Put(s: seq<byte>, j: nat, bs: seq<byte>): (t: seq<byte>)
    requires j + |bs| <= |s|
    ensures |t| == |s|
  {
    s[..j] + bs + s[j + |bs|..]
  }

  lemma PutFacts(s: seq<byte>, j: nat, bs: seq<byte>)
    requires j + |bs| <= |s|
    ensures Put(s, j, bs)[..j] == s[..j] && Put(s, j, bs)[j..j + |bs|] == bs
  {
  }

  /** The big-endian 16 bits of `ref | 0xc000`. */
  function PointerTo(ref: nat): (bs: seq<byte>)
    ensures |bs| == 2 && bs[0] >= 192
  {
    var x := ref % 0x4000 + 0xc000;
    [x / 256, x % 256]
  }

  /** A pointer leads where it should exactly when the position has 14 bits. */
  lemma PointerTarget(ref: nat)
    ensures Target(PointerTo(ref), 0) == ref % POINTER_END
    ensures Target(PointerTo(ref), 0) == ref <==> ref < POINTER_END
  {
  }

  /** What one round of the loop of dnsname_to_labels leads to. */
  datatype Round = Finished(w: Written) | Continue(buf: seq<byte>, j: nat, rest: seq<byte>, table: seq<Entry>)

  /** The tail `name` as a pointer to `ref`. */
  function PutPointer(s: seq<byte>, bufLen: nat, j: nat, table: seq<Entry>, ref: nat): Written
    requires bufLen <= |s|
  {
    if j + 2 > bufLen then Written(-2, s, table, false) else Written(j + 2, Put(s, j, PointerTo(ref)), table, false)
  }

  /** The first label of `name`, and the final zero if it is the last one. */
  function PutLabel(s: seq<byte>, bufLen: nat, j: nat, name: seq<byte>, dot: int, table: seq<Entry>,
      t: seq<Entry>): Round
    requires bufLen <= |s| && -1 <= dot < |name|
  {
    var l := if dot < 0 then name else name[..dot];
    var e := j + |l| + 1;
    if |l| > 63 then Finished(Written(-1, s, table, false))
    else if e > bufLen then Finished(Written(-2, s, table, false))
    else
      var b := Put(s, j, [|l|] + l);
      if dot >= 0 then Continue(b, e, name[dot + 1..], t)
      else if b[e - 1] != 0 then
        // this store is not checked against bufLen
        Finished(if e < |s| then Written(e + 1, Put(b, e, [0]), t, false) else Written(e + 1, b, t, true))
      else Finished(Written(e, b, t, false))
  }

  /** One round on values: the buffer, the next position and the table. `mem(j)` says whether the
      table entry for position `j` could be allocated. */
  function OneRound(s: seq<byte>, bufLen: nat, j: nat, name: seq<byte>, table: seq<Entry>, compress: bool,
      mem: nat -> bool): (r: Round)
    requires bufLen <= |s|
    ensures r.Continue? ==> |r.rest| < |name| && |r.buf| == |s|
  {
    var ref := if compress then PosOf(table, name) else -1;
    if ref >= 0 then Finished(PutPointer(s, bufLen, j, table, ref))
    else PutLabel(s, bufLen, j, name, FirstDot(name), table, if compress then WithEntry(table, name, j, mem(j))
      else table)
  }

  /** The loop of dnsname_to_labels on values. */
  function EncodeFrom(s: seq<byte>, bufLen: nat, j: nat, name: seq<byte>, table: seq<Entry>, compress: bool,
      mem: nat -> bool): Written
    requires bufLen <= |s|
    decreases |name|
  {
    match OneRound(s, bufLen, j, name, table, compress, mem)
    case Finished(w) => w
    case Continue(b, e, rest, t) => EncodeFrom(b, bufLen, e, rest, t, compress, mem)
  }

  function Encode(s: seq<byte>, bufLen: nat, j: nat, name: seq<byte>, table: seq<Entry>, compress: bool,
      mem: nat -> bool): Written
    requires bufLen <= |s|
  {
    if |name| > 255 then Written(-2, s, table, false) else EncodeFrom(s, bufLen, j, name, table, compress, mem)
  }

  function Entries(table: LabelTable?): seq<Entry>
    reads table
  {
    if table == null then [] else table.labels
  }

  /** What the table becomes when the label at `j` is written. */
  function Recorded(table: LabelTable?, name: seq<byte>, j: nat, mem: nat -> bool): seq<Entry>
    reads table
  {
    if table == null then [] else WithEntry(table.labels, name, j, mem(j))
  }

  /** The label part of a round. */
  method WriteFirstLabel(buf: array<byte>, bufLen: nat, j: nat, name: seq<byte>, table: LabelTable?, mem: nat -> bool)
    returns (done: bool, r: int, rest: seq<byte>, outside: bool)
    requires bufLen <= buf.Length && (table != null ==> table.Valid())
    modifies buf, table
    ensures (table != null ==> table.Valid()) && (!done ==> r >= 0)
    ensures old(PutLabel(buf[..], bufLen, j, name, FirstDot(name), Entries(table), Recorded(table, name, j, mem)))
            == if done then Finished(Written(r, buf[..], Entries(table), outside))
              else Continue(buf[..], r, rest, Entries(table))
  {
    hide Put, FirstDot, WithEntry;
    var dot := FirstDot(name);
    var l := if dot < 0 then name else name[..dot];
    var e := j + |l| + 1;
    if |l| > 63 {
      return true, -1, [], false;
    }
    if e > bufLen {
      return true, -2, [], false;
    }
    if table != null {
      var _ := table.Add(name, j, mem(j));
    }
    Store(buf, j, [|l|] + l);
    if dot >= 0 {
      return false, e, name[dot + 1..], false;
    }
    if buf[e - 1] != 0 {
      if e == buf.Length {
        return true, e + 1, [], true;
      }
      Store(buf, e, [0]);
      return true, e + 1, [], false;
    }
    return true, e, [], false;
  }

  /** One round of the loop of dnsname_to_labels: either the name is done and `r` is the result, or
      a label was written and `r` is the next position. */
  method WriteLabel(buf: array<byte>, bufLen: nat, j: nat, name: seq<byte>, table: LabelTable?, mem: nat -> bool)
    returns (done: bool, r: int, rest: seq<byte>, outside: bool)
    requires bufLen <= buf.Length && (table != null ==> table.Valid())
    modifies buf, table
    ensures (table != null ==> table.Valid()) && (!done ==> r >= 0)
    ensures old(OneRound(buf[..], bufLen, j, name, Entries(table), table != null, mem))
            == if done then Finished(Written(r, buf[..], Entries(table), outside))
              else Continue(buf[..], r, rest, Entries(table))
  {
    hide Put, PosOf, FirstDot, WithEntry, PointerTo, PutLabel;
    var ref := -1;
    if table != null {
      ref := table.GetPos(name);
    }
    if ref >= 0 {
      if j + 2 > bufLen {
        return true, -2, [], false;
      }
      Store(buf, j, PointerTo(ref));
      return true, j + 2, [], false;
    }
    done, r, rest, outside := WriteFirstLabel(buf, bufLen, j, name, table, mem);
  }

  /** dnsname_to_labels. The terminating zero is stored without a look at `bufLen`; `outside` says that
      it went to the byte after `buf`, which the model does not store. */
  method NameToLabels(buf: array<byte>, bufLen: nat, start: nat, name: seq<byte>, table: LabelTable?, mem: nat -> bool)
    returns (r: int, outside: bool)
    requires bufLen <= buf.Length && (table != null ==> table.Valid())
    modifies buf, table
    ensures table != null ==> table.Valid()
    ensures Written(r, buf[..], Entries(table), outside) ==
      old(Encode(buf[..], bufLen, start, name, Entries(table), table != null, mem))
  {
    outside := false;
    if |name| > 255 {
      return -2, false;
    }
    hide OneRound;
    var rest, done := name, false;
    ghost var w := EncodeFrom(buf[..], bufLen, start, name, Entries(table), table != null, mem);
    r := start;
    while !done
      invariant table != null ==> table.Valid()
      invariant !done ==> r >= 0 && w == EncodeFrom(buf[..], bufLen, r, rest, Entries(table), table != null, mem)
      invariant done ==> w == Written(r, buf[..], Entries(table), outside)
      decreases !done, |rest|
    {
      done, r, rest, outside := WriteLabel(buf, bufLen, r, rest, table, mem);
    }
  }

  method Store(buf: array<byte>, j: nat, bs: seq<byte>)
    requires j + |bs| <= buf.Length
    modifies buf
    ensures buf[..] == Put(old(buf[..]), j, bs)
  {
    forall k | 0 <= k < |bs| {
      buf[j + k] := bs[k];
    }
  }

  // ---- what is written

  /** A C string holds no zero byte. */
  predicate NoNul(name: seq<byte>) {
    0 !in name
  }

  /** Dot-separated labels of 1 to 63 bytes, with or without a dot at the end; no byte is 0, which would
      end the C string. */
  predicate Good(name: seq<byte>)
    decreases |name|
  {
    var dot := FirstDot(name);
    NoNul(name) && if dot < 0 then |name| <= 63 else 1 <= dot <= 63 && Good(name[dot + 1..])
  }

  lemma GoodFacts(name: seq<byte>)
    requires Good(name)
    ensures NoNul(name) && FirstDot(name) != 0
    ensures FirstDot(name) < 0 ==> |name| <= 63
    ensures FirstDot(name) >= 0 ==> 1 <= FirstDot(name) <= 63 && Good(name[FirstDot(name) + 1..])
  {
  }

  function Split(name: seq<byte>): (ls: seq<Label>)
    decreases |name|
  {
    var dot := FirstDot(name);
    if name == [] then [] else if dot < 0 then [name] else [name[..dot]] + Split(name[dot + 1..])
  }

  /** A dot at the end is dropped. */
  function Undotted(name: seq<byte>): seq<byte> {
    if name != [] && name[|name| - 1] == DOT then name[..|name| - 1] else name
  }

  lemma {:induction false} JoinSplit(name: seq<byte>)
    requires Good(name)
    ensures (Split(name) == [] <==> name == []) && Join(Split(name)) == Undotted(name)
    decreases |name|
  {
    hide FirstDot, Good, Split, Join;
    GoodFacts(name);
    SplitFirst(name);
    var dot := FirstDot(name);
    if name == [] {
      JoinNone();
    } else if dot < 0 {
      JoinOne(name);
      FirstDotIsFirst(name);
      assert name[|name| - 1] in name;
    } else {
      var rest := name[dot + 1..];
      JoinSplit(rest);
      assert name == name[..dot] + [DOT] + rest;
      if rest == [] {
        JoinOne(name[..dot]);
      } else {
        JoinCons(name[..dot], Split(rest));
        UndottedTail(name[..dot] + [DOT], rest);
      }
    }
  }

  lemma UndottedTail(head: seq<byte>, rest: seq<byte>)
    requires rest != []
    ensures Undotted(head + rest) == head + Undotted(rest)
  {
    assert (head + rest)[..|head + rest| - 1] == head + rest[..|rest| - 1];
  }

  lemma JoinOne(l: Label)
    ensures Join([l] + []) == l
  {
    assert [l] + [] == [l];
  }

  lemma JoinCons(l: Label, ls: seq<Label>)
    requires ls != []
    ensures Join([l] + ls) == l + [DOT] + Join(ls)
  {
    assert ([l] + ls)[1..] == ls;
  }

  /** The position just past the name at `j`: after its zero or its first pointer. */
  function EndOf(s: seq<byte>, j: nat): (e: nat)
    ensures e > j
    decreases |s| - j
  {
    if j >= |s| || s[j] == 0 then j + 1 else if s[j] >= 64 then j + 2 else EndOf(s, j + 1 + s[j])
  }

  /** The name at `j` has the labels `ls`, and each pointer on the way leads strictly backward to a
      literal label (or to a lone zero) of a name that ends before the pointer. */
  ghost predicate Spells(s: seq<byte>, j: nat, ls: seq<Label>)
    decreases EndOf(s, j), |s| - j
  {
    && j < |s| && EndOf(s, j) <= |s|
    && (if s[j] == 0 then ls == []
        else if s[j] >= 64 then
          s[j] >= 192 && Target(s, j) < j && s[Target(s, j)] < 64 && EndOf(s, Target(s, j)) <= j &&
            Spells(s, Target(s, j), ls)
        else
          ls != [] && j + 1 + s[j] < |s| && ls[0] == s[j + 1..j + 1 + s[j]] && Spells(s, j + 1 + s[j], ls[1..]))
  }

  /** Bytes after the end of a name do not matter. */
  lemma {:induction false} EndFrame(s: seq<byte>, t: seq<byte>, j: nat)
    requires j < |s| && EndOf(s, j) <= |s| && EndOf(s, j) <= |t| && s[..EndOf(s, j)] == t[..EndOf(s, j)]
    ensures EndOf(t, j) == EndOf(s, j)
    decreases |s| - j
  {
    var e := EndOf(s, j);
    assert s[j] == s[..e][j] == t[j];
    if 0 < s[j] < 64 {
      EndFrame(s, t, j + 1 + s[j]);
    }
  }

  /** The three ways to go on from `j`. */
  lemma SpellsParts(s: seq<byte>, j: nat, ls: seq<Label>)
    requires Spells(s, j, ls)
    ensures j < EndOf(s, j) <= |s|
    ensures s[j] >= 64 ==> j + 1 < |s| && EndOf(s, j) == j + 2 && Target(s, j) < j && EndOf(s, Target(s, j)) <= j
    ensures s[j] >= 64 ==> Spells(s, Target(s, j), ls)
    ensures 0 < s[j] < 64 ==> ls != [] && j + 1 + s[j] < |s| && EndOf(s, j) == EndOf(s, j + 1 + s[j])
    ensures 0 < s[j] < 64 ==> Spells(s, j + 1 + s[j], ls[1..])
  {
  }

  lemma {:induction false} SpellsFrame(s: seq<byte>, t: seq<byte>, j: nat, ls: seq<Label>)
    requires Spells(s, j, ls) && EndOf(s, j) <= |t| && s[..EndOf(s, j)] == t[..EndOf(s, j)]
    ensures EndOf(t, j) == EndOf(s, j) && Spells(t, j, ls)
    decreases EndOf(s, j), |s| - j
  {
    hide Spells, EndOf;
    SpellsParts(s, j, ls);
    var e := EndOf(s, j);
    EndFrame(s, t, j);
    assert s[j] == s[..e][j] == t[j];
    if s[j] >= 64 {
      var at := Target(s, j);
      assert s[..EndOf(s, at)] == s[..e][..EndOf(s, at)] == t[..EndOf(s, at)];
      SpellsFrame(s, t, at, ls);
      PointerFrame(s, t, j, ls);
    } else if s[j] > 0 {
      SpellsFrame(s, t, j + 1 + s[j], ls[1..]);
      SpellsParts(t, j + 1 + s[j], ls[1..]);
      LabelFrame(s, t, j, e);
      LabelAgain(s, t, j, ls);
    } else {
      ZeroAgain(s, t, j, ls);
    }
  }

  lemma LabelAgain(s: seq<byte>, t: seq<byte>, j: nat, ls: seq<Label>)
    requires Spells(s, j, ls) && 0 < s[j] < 64 && j < |t| && t[j] == s[j] && j + 1 + s[j] < |t|
    requires s[j + 1..j + 1 + s[j]] == t[j + 1..j + 1 + s[j]]
    requires EndOf(t, j) <= |t| && ls != [] && Spells(t, j + 1 + s[j], ls[1..])
    ensures Spells(t, j, ls)
  {
  }

  lemma ZeroAgain(s: seq<byte>, t: seq<byte>, j: nat, ls: seq<Label>)
    requires Spells(s, j, ls) && s[j] == 0 && j < |t| && t[j] == 0
    ensures Spells(t, j, ls)
  {
  }

  /** The pointer at `j` is the same, and what it leads to is still spelled. */
  lemma PointerFrame(s: seq<byte>, t: seq<byte>, j: nat, ls: seq<Label>)
    requires Spells(s, j, ls) && s[j] >= 64 && j + 2 <= |t| && s[..j + 2] == t[..j + 2]
    requires EndOf(t, Target(s, j)) == EndOf(s, Target(s, j)) && Spells(t, Target(s, j), ls)
    ensures Spells(t, j, ls)
  {
    var at := Target(s, j);
    assert s[j] == s[..j + 2][j] == t[j] && s[j + 1] == s[..j + 2][j + 1] == t[j + 1];
    assert s[at] == s[..j + 2][at] == t[at];
  }

  lemma LabelFrame(s: seq<byte>, t: seq<byte>, j: nat, e: nat)
    requires j < |s| && s[j] < 64 && j + 1 + s[j] <= e <= |s| && e <= |t| && s[..e] == t[..e]
    ensures s[j + 1..j + 1 + s[j]] == t[j + 1..j + 1 + s[j]]
  {
    var k := j + 1 + s[j];
    assert s[j + 1..k] == s[..e][j + 1..k];
    assert t[j + 1..k] == t[..e][j + 1..k];
  }

  /** name_parse reads what is spelled: its limit on jumps is no obstacle, as the pointers met on
      the way lie further and further back. */
  lemma {:induction false} SpellsParses(s: seq<byte>, j: nat, ls: seq<Label>, jumps: nat)
    requires Spells(s, j, ls) && jumps >= EndOf(s, j)
    ensures Labels(s, j, jumps) == Some(Parsed(ls, EndOf(s, j)))
    decreases EndOf(s, j), |s| - j
  {
    if s[j] >= 64 {
      SpellsParses(s, Target(s, j), ls, jumps - 1);
    } else if s[j] > 0 {
      SpellsParses(s, j + 1 + s[j], ls[1..], jumps);
      assert [ls[0]] + ls[1..] == ls;
    }
  }

  /** An entry leads back to a name that ends at or before position `j`. */
  ghost predicate EntryOk(e: Entry, s: seq<byte>, j: nat) {
    e.pos < j <= |s| && s[e.pos] < 64 && EndOf(s, e.pos) <= j && Spells(s, e.pos, Split(e.name))
  }

  /** All entries for names of at most `n` bytes are. */
  ghost predicate TableOk(table: seq<Entry>, s: seq<byte>, j: nat, n: nat) {
    forall e :: e in table && |e.name| <= n ==> EntryOk(e, s, j)
  }

  lemma EntryFrame(e: Entry, s: seq<byte>, j: nat, t: seq<byte>, k: nat)
    requires EntryOk(e, s, j) && j <= k <= |t| && s[..j] == t[..j]
    ensures EntryOk(e, t, k)
  {
    hide Spells, EndOf, Split;
    assert s[e.pos] == s[..j][e.pos] == t[e.pos];
    var end := EndOf(s, e.pos);
    assert s[..end] == s[..j][..end] == t[..end];
    SpellsFrame(s, t, e.pos, Split(e.name));
  }

  /** What EncodeFrom promises about a good name: it is spelled from `j` to the result, bytes before
      `j` are kept, and the entries that a later name can hit are in order. */
  ghost predicate Spelled(s: seq<byte>, j: nat, name: seq<byte>, table: seq<Entry>, w: Written) {
    && |w.buf| == |s| && j < w.r <= |s| && w.buf[..j] == s[..j]
    && Spells(w.buf, j, Split(name)) && EndOf(w.buf, j) == w.r
    && table <= w.table
    && (forall e :: e in w.table ==> e in table || |e.name| <= |name|)
    && TableOk(w.table, w.buf, w.r, |name|)
  }

  /** A pointer back to a spelled name spells that name. */
  lemma BackPointer(t: seq<byte>, j: nat, ref: nat, ls: seq<Label>)
    requires ref < j && j + 2 <= |t| && t[j..j + 2] == PointerTo(ref) && ref < POINTER_END
    requires t[ref] < 64 && EndOf(t, ref) <= j && Spells(t, ref, ls)
    ensures Spells(t, j, ls) && EndOf(t, j) == j + 2
  {
    assert t[j] == t[j..j + 2][0] && t[j + 1] == t[j..j + 2][1];
    PointerTarget(ref);
    assert Target(t, j) == ref;
  }

  /** A pointer to an entry spells the entry's name. */
  lemma PointerSpells(s: seq<byte>, j: nat, name: seq<byte>, table: seq<Entry>, ref: nat)
    requires j + 2 <= |s| && Entry(name, ref) in table && TableOk(table, s, j, |name|) && j <= POINTER_END
    ensures Spelled(s, j, name, table, Written(j + 2, Put(s, j, PointerTo(ref)), table, false))
  {
    hide Spells, EndOf, Split, Put;
    var e := Entry(name, ref);
    var t := Put(s, j, PointerTo(ref));
    PutFacts(s, j, PointerTo(ref));
    EntryFrame(e, s, j, t, j);
    BackPointer(t, j, ref, Split(name));
    hide EntryOk;
    forall x | x in table && |x.name| <= |name| ensures EntryOk(x, t, j + 2) {
      EntryFrame(x, s, j, t, j + 2);
    }
  }

  /** A label stored before a spelled name makes a longer spelled name. */
  lemma LabelSpells(s: seq<byte>, j: nat, l: Label, ls: seq<Label>)
    requires 0 < |l| < 64 && j + 1 + |l| < |s| && s[j] == |l| && s[j + 1..j + 1 + |l|] == l
    requires Spells(s, j + 1 + |l|, ls)
    ensures Spells(s, j, [l] + ls) && EndOf(s, j) == EndOf(s, j + 1 + |l|)
  {
    assert ([l] + ls)[1..] == ls;
  }

  lemma StoredLabel(s: seq<byte>, j: nat, l: Label, f: seq<byte>)
    requires |l| < 64 && j + 1 + |l| <= |s| && |f| == |s|
    ensures var e := j + 1 + |l|; var b := Put(s, j, [|l|] + l);
      f[..e] == b[..e] ==> f[j] == |l| && f[j + 1..e] == l && f[..j] == s[..j]
  {
    var e, b := j + 1 + |l|, Put(s, j, [|l|] + l);
    PutFacts(s, j, [|l|] + l);
    if f[..e] == b[..e] {
      assert b[j..e] == [|l|] + l && f[j..e] == f[..e][j..e] == b[..e][j..e] == b[j..e];
      assert f[j] == f[j..e][0] && f[j + 1..e] == f[j..e][1..];
      assert f[..j] == f[..e][..j] == b[..e][..j] == b[..j];
    }
  }

  /** The name is spelled and the entries for shorter names are in order: then all is. */
  lemma Conclude(s: seq<byte>, j: nat, name: seq<byte>, table: seq<Entry>, t: seq<Entry>, w: Written)
    requires |w.buf| == |s| && j < w.r <= |s| && w.buf[..j] == s[..j] && w.buf[j] < 64
    requires Spells(w.buf, j, Split(name)) && EndOf(w.buf, j) == w.r
    requires TableOk(table, s, j, |name|) && (t == table || t == table + [Entry(name, j)]) && t <= w.table
    requires forall e :: e in w.table ==> e in t || (|e.name| < |name| && EntryOk(e, w.buf, w.r))
    ensures Spelled(s, j, name, table, w)
  {
    hide Spells, EndOf, Split;
    forall e | e in w.table && |e.name| <= |name| ensures EntryOk(e, w.buf, w.r) {
      if e in table {
        EntryFrame(e, s, j, w.buf, w.r);
      }
    }
  }

  lemma ZeroSpells(s: seq<byte>, j: nat)
    requires j < |s| && s[j] == 0
    ensures Spells(s, j, []) && EndOf(s, j) == j + 1
  {
  }

  lemma SplitFirst(name: seq<byte>)
    ensures name == [] ==> Split(name) == []
    ensures name != [] && FirstDot(name) < 0 ==> Split(name) == [name] + []
    ensures name != [] && FirstDot(name) >= 0 ==>
      Split(name) == [name[..FirstDot(name)]] + Split(name[FirstDot(name) + 1..])
  {
    assert [name] + [] == [name];
  }

  /** The zero of the empty name. */
  lemma EmptyName(s: seq<byte>, j: nat, table: seq<Entry>, t: seq<Entry>)
    requires j + 1 <= |s|
    requires TableOk(table, s, j, 0) && (t == table || t == table + [Entry([], j)])
    ensures var b := Put(s, j, [0] + []); b[j] == 0 && Spelled(s, j, [], table, Written(j + 1, b, t, false))
  {
    hide Spells, EndOf, Split, Spelled, TableOk, FirstDot, Put, EntryOk;
    var b := Put(s, j, [0] + []);
    StoredLabel(s, j, [], b);
    SplitFirst([]);
    ZeroSpells(b, j);
    Conclude(s, j, [], table, t, Written(j + 1, b, t, false));
  }

  /** The last label of a name. */
  lemma LastLabel(s: seq<byte>, j: nat, name: seq<byte>, table: seq<Entry>, t: seq<Entry>)
    requires j + |name| + 1 < |s| && FirstDot(name) < 0 && 0 < |name| <= 63
    requires TableOk(table, s, j, |name|) && (t == table || t == table + [Entry(name, j)])
    ensures var b := Put(s, j, [|name|] + name); var e := j + |name| + 1;
      Spelled(s, j, name, table, Written(e + 1, Put(b, e, [0]), t, false))
  {
    hide Spells, EndOf, Split, Spelled, TableOk, FirstDot, Put, EntryOk;
    var b, e := Put(s, j, [|name|] + name), j + |name| + 1;
    SplitFirst(name);
    LabelThenZero(s, b, j, name);
    Conclude(s, j, name, table, t, Written(e + 1, Put(b, e, [0]), t, false));
  }

  lemma LastByte(b: seq<byte>, j: nat, name: seq<byte>)
    requires name != [] && NoNul(name) && j + |name| + 1 <= |b| && b[j + 1..j + |name| + 1] == name
    ensures b[j + |name|] != 0
  {
    assert b[j + |name|] == b[j + 1..j + |name| + 1][|name| - 1] == name[|name| - 1];
  }

  lemma LabelThenZero(s: seq<byte>, b: seq<byte>, j: nat, name: seq<byte>)
    requires 0 < |name| <= 63 && j + |name| + 1 < |s| && b == Put(s, j, [|name|] + name)
    ensures var e := j + |name| + 1; var f := Put(b, e, [0]);
      && Spells(f, j, [name] + []) && EndOf(f, j) == e + 1 && f[j] < 64 && f[..j] == s[..j]
  {
    hide Spells, EndOf, Put;
    var e := j + |name| + 1;
    var f := Put(b, e, [0]);
    PutFacts(b, e, [0]);
    StoredLabel(s, j, name, f);
    assert f[e] == f[e..e + 1][0];
    ZeroSpells(f, e);
    LabelSpells(f, j, name, []);
  }

  /** A label with more to come: `b` is the buffer with the label, `rest` the tail. */
  lemma FirstLabel(s: seq<byte>, j: nat, name: seq<byte>, l: Label, rest: seq<byte>, table: seq<Entry>,
      t: seq<Entry>, w: Written)
    requires 0 < |l| < 64 && j + |l| + 1 <= |s| && |rest| < |name| && Split(name) == [l] + Split(rest)
    requires Spelled(Put(s, j, [|l|] + l), j + |l| + 1, rest, t, w)
    requires TableOk(table, s, j, |name|) && (t == table || t == table + [Entry(name, j)])
    ensures Spelled(s, j, name, table, w)
  {
    hide Spells, EndOf, Split, Put, EntryOk;
    var e := j + |l| + 1;
    StoredLabel(s, j, l, w.buf);
    SpellsInside(w.buf, e, Split(rest));
    LabelSpells(w.buf, j, l, Split(rest));
    Conclude(s, j, name, table, t, w);
  }

  lemma SpellsInside(s: seq<byte>, j: nat, ls: seq<Label>)
    requires Spells(s, j, ls)
    ensures j < EndOf(s, j) <= |s|
  {
  }

  /** The entries that tails of `name` can hit are still in order once its first label is written. */
  lemma StillOk(s: seq<byte>, j: nat, name: seq<byte>, table: seq<Entry>, t: seq<Entry>, b: seq<byte>, k: nat, n: nat)
    requires TableOk(table, s, j, |name|) && (t == table || t == table + [Entry(name, j)]) && n < |name|
    requires j <= |s| && j <= k <= |b| && s[..j] == b[..j]
    ensures TableOk(t, b, k, n)
  {
    hide EntryOk;
    forall e | e in t && |e.name| <= n ensures EntryOk(e, b, k) {
      assert e in table;
      EntryFrame(e, s, j, b, k);
    }
  }

  /** A last label, or the empty name, is spelled. */
  lemma LastRound(s: seq<byte>, bufLen: nat, j: nat, name: seq<byte>, table: seq<Entry>, t: seq<Entry>)
    requires bufLen <= |s| && FirstDot(name) < 0 && j + |name| + 1 <= bufLen && |name| <= 63 && NoNul(name)
    requires TableOk(table, s, j, |name|) && (t == table || t == table + [Entry(name, j)])
    ensures var o := PutLabel(s, bufLen, j, name, -1, table, t);
      o.Finished? && (!o.w.outside ==> Spelled(s, j, name, table, o.w))
  {
    hide Spelled, TableOk, Put, FirstDot, NoNul;
    if name == [] {
      EmptyName(s, j, table, t);
    } else {
      var b := Put(s, j, [|name|] + name);
      StoredLabel(s, j, name, b);
      LastByte(b, j, name);
      if j + |name| + 1 < |s| {
        LastLabel(s, j, name, table, t);
      }
    }
  }

  /** The tail as a pointer is spelled. */
  lemma PointerRound(s: seq<byte>, bufLen: nat, j: nat, name: seq<byte>, table: seq<Entry>, ref: nat)
    requires bufLen <= |s| && bufLen <= POINTER_END && Entry(name, ref) in table && TableOk(table, s, j, |name|)
    ensures var w := PutPointer(s, bufLen, j, table, ref); w.r >= 0 && !w.outside ==> Spelled(s, j, name, table, w)
  {
    hide Spelled, TableOk, Put, PointerTo;
    if j + 2 <= bufLen {
      PointerSpells(s, j, name, table, ref);
    }
  }

  /** A label that ends the name is spelled. */
  lemma LabelRound(s: seq<byte>, bufLen: nat, j: nat, name: seq<byte>, table: seq<Entry>, t: seq<Entry>)
    requires bufLen <= |s| && NoNul(name) && FirstDot(name) != 0
    requires TableOk(table, s, j, |name|) && (t == table || t == table + [Entry(name, j)])
    ensures var o := PutLabel(s, bufLen, j, name, FirstDot(name), table, t);
      o.Finished? && o.w.r >= 0 && !o.w.outside ==> Spelled(s, j, name, table, o.w)
  {
    hide Spelled, TableOk, FirstDot, NoNul, Put;
    if FirstDot(name) < 0 && j + |name| + 1 <= bufLen && |name| <= 63 {
      LastRound(s, bufLen, j, name, table, t);
    }
  }

  /** A round that finishes the name spells it. */
  lemma RoundSpells(s: seq<byte>, bufLen: nat, j: nat, name: seq<byte>, table: seq<Entry>, compress: bool,
      mem: nat -> bool)
    requires bufLen <= |s| && bufLen <= POINTER_END && Good(name)
    requires TableOk(table, s, j, |name|)
    ensures var o := OneRound(s, bufLen, j, name, table, compress, mem);
      o.Finished? && o.w.r >= 0 && !o.w.outside ==> Spelled(s, j, name, table, o.w)
  {
    hide Spelled, TableOk, PosOf, FirstDot, Good, NoNul, WithEntry, PutLabel, PutPointer;
    var ref := if compress then PosOf(table, name) else -1;
    if ref >= 0 {
      PointerRound(s, bufLen, j, name, table, ref);
    } else {
      GoodFacts(name);
      LabelRound(s, bufLen, j, name, table, if compress then WithEntry(table, name, j, mem(j)) else table);
    }
  }

  /** Writing a good name spells it. */
  lemma {:induction false} EncodeSpells(s: seq<byte>, bufLen: nat, j: nat, name: seq<byte>, table: seq<Entry>,
      compress: bool, mem: nat -> bool)
    requires bufLen <= |s| && bufLen <= POINTER_END && Good(name)
    requires TableOk(table, s, j, |name|)
    ensures var w := EncodeFrom(s, bufLen, j, name, table, compress, mem);
      w.r >= 0 && !w.outside ==> Spelled(s, j, name, table, w)
    decreases |name|
  {
    hide Spelled, TableOk, Put, PosOf, FirstDot, PutPointer, Split, Spells, EndOf, Good;
    GoodFacts(name);
    var w := EncodeFrom(s, bufLen, j, name, table, compress, mem);
    var o := OneRound(s, bufLen, j, name, table, compress, mem);
    RoundSpells(s, bufLen, j, name, table, compress, mem);
    if w.r >= 0 && !w.outside && o.Continue? {
      var l := name[..FirstDot(name)];
      PutFacts(s, j, [|l|] + l);
      StillOk(s, j, name, table, o.table, o.buf, o.j, |o.rest|);
      EncodeSpells(o.buf, bufLen, o.j, o.rest, o.table, compress, mem);
      SplitFirst(name);
      FirstLabel(s, j, name, l, o.rest, table, o.table, w);
    }
  }

  /** With room for it, a good name of at most 255 bytes is written. */
  lemma {:induction false} EncodeFits(s: seq<byte>, bufLen: nat, j: nat, name: seq<byte>, table: seq<Entry>,
      compress: bool, mem: nat -> bool)
    requires bufLen <= |s| && Good(name) && j + |name| + 2 <= bufLen
    ensures var w := EncodeFrom(s, bufLen, j, name, table, compress, mem); j < w.r <= j + |name| + 2 && !w.outside
    decreases |name|
  {
    hide Put, PosOf, FirstDot, PointerTo, WithEntry, Good;
    GoodFacts(name);
    var o := OneRound(s, bufLen, j, name, table, compress, mem);
    if o.Continue? {
      EncodeFits(o.buf, bufLen, o.j, o.rest, o.table, compress, mem);
    }
  }

  /** Some label of the name is longer than 63 bytes. */
  predicate HasLongLabel(name: seq<byte>)
    decreases |name|
  {
    var dot := FirstDot(name);
    if dot < 0 then |name| > 63 else dot > 63 || HasLongLabel(name[dot + 1..])
  }

  lemma LongLabelFacts(name: seq<byte>)
    ensures FirstDot(name) < 0 && |name| > 63 ==> HasLongLabel(name)
    ensures FirstDot(name) > 63 ==> HasLongLabel(name)
    ensures FirstDot(name) >= 0 && HasLongLabel(name[FirstDot(name) + 1..]) ==> HasLongLabel(name)
  {
  }

  /** The two error codes: -1 only for a label that is too long, -2 only for want of room. */
  lemma {:induction false} EncodeErrors(s: seq<byte>, bufLen: nat, j: nat, name: seq<byte>, table: seq<Entry>,
      compress: bool, mem: nat -> bool)
    requires bufLen <= |s|
    ensures var r := EncodeFrom(s, bufLen, j, name, table, compress, mem).r;
      r >= 0 || (r == -1 && HasLongLabel(name)) || (r == -2 && j + |name| + 2 > bufLen)
    decreases |name|
  {
    hide Put, PosOf, FirstDot, PointerTo, WithEntry, HasLongLabel;
    LongLabelFacts(name);
    var o := OneRound(s, bufLen, j, name, table, compress, mem);
    if o.Continue? {
      EncodeErrors(o.buf, bufLen, o.j, o.rest, o.table, compress, mem);
    }
  }

  // ---- staying inside the buffer

  /** Neither the name nor a tail of it is in the table. */
  predicate NoTailIn(name: seq<byte>, table: seq<Entry>)
    decreases |name|
  {
    var dot := FirstDot(name);
    PosOf(table, name) < 0 && (dot >= 0 ==> NoTailIn(name[dot + 1..], table))
  }

  /** An entry for a longer name makes no difference. */
  lemma {:induction false} LongerEntry(name: seq<byte>, table: seq<Entry>, e: Entry)
    requires |e.name| > |name|
    ensures NoTailIn(name, table + [e]) <==> NoTailIn(name, table)
    decreases |name|
  {
    hide PosOf, FirstDot;
    assert PosOf(table + [e], name) < 0 <==> PosOf(table, name) < 0 by {
      assert forall x :: x in table ==> x in table + [e];
    }
    var dot := FirstDot(name);
    if dot >= 0 {
      LongerEntry(name[dot + 1..], table, e);
    }
  }

  /** The name is written out in full and ends with a label whose last byte is the last before
      `bufLen`: the zero that follows it has no room. */
  predicate FillsBuffer(bufLen: nat, j: nat, name: seq<byte>, table: seq<Entry>, compress: bool) {
    && (compress ==> NoTailIn(name, table)) && !HasLongLabel(name)
    && name != [] && name[|name| - 1] != DOT && name[|name| - 1] != 0
    && j + |name| + 1 == bufLen
  }

  /** One round on. */
  lemma FillsRest(bufLen: nat, j: nat, name: seq<byte>, table: seq<Entry>, t: seq<Entry>, compress: bool)
    requires FirstDot(name) >= 0 && (t == table || t == table + [Entry(name, j)])
    ensures var dot := FirstDot(name);
      FillsBuffer(bufLen, j, name, table, compress)
      <==> (compress ==> PosOf(table, name) < 0) && dot <= 63 && FillsBuffer(bufLen, j + dot + 1, name[dot + 1..], t,
        compress)
    ensures var dot := FirstDot(name); FillsBuffer(bufLen, j, name, table, compress) ==> j + dot + 1 <= bufLen
  {
    hide FirstDot, PosOf, NoTailIn, HasLongLabel;
    var rest := name[FirstDot(name) + 1..];
    TailsOf(name, table);
    LongerEntry(rest, table, Entry(name, j));
    assert rest != [] ==> rest[|rest| - 1] == name[|name| - 1];
  }

  lemma TailsOf(name: seq<byte>, table: seq<Entry>)
    requires FirstDot(name) >= 0
    ensures var dot := FirstDot(name);
      && (NoTailIn(name, table) <==> PosOf(table, name) < 0 && NoTailIn(name[dot + 1..], table))
      && (HasLongLabel(name) <==> dot > 63 || HasLongLabel(name[dot + 1..]))
  {
    hide FirstDot, PosOf;
  }

  /** The last label of a name. */
  lemma LastLabelEnds(s: seq<byte>, bufLen: nat, j: nat, name: seq<byte>, table: seq<Entry>, t: seq<Entry>)
    requires bufLen <= |s| && FirstDot(name) < 0
    ensures var o := PutLabel(s, bufLen, j, name, -1, table, t);
      && o.Finished? && o.w.r <= bufLen + 1 && (o.w.outside <==> o.w.r == bufLen + 1 && bufLen == |s|)
      && (o.w.r == bufLen + 1 <==> |name| <= 63 && name != [] && name[|name| - 1] != 0 && j + |name| + 1 == bufLen)
  {
    hide Put, FirstDot;
    if |name| <= 63 && j + |name| + 1 <= bufLen {
      LastStored(s, j, name);
    }
  }

  lemma LastStored(s: seq<byte>, j: nat, name: seq<byte>)
    requires |name| <= 63 && j + |name| + 1 <= |s|
    ensures Put(s, j, [|name|] + name)[j + |name|] == if name == [] then 0 else name[|name| - 1]
  {
    var e, b := j + |name| + 1, Put(s, j, [|name|] + name);
    PutFacts(s, j, [|name|] + name);
    assert b[e - 1] == b[j..e][|name|] == ([|name|] + name)[|name|];
  }

  /** A label with more to come. */
  lemma FirstLabelEnds(s: seq<byte>, bufLen: nat, j: nat, name: seq<byte>, table: seq<Entry>, t: seq<Entry>)
    requires bufLen <= |s| && FirstDot(name) >= 0
    ensures var dot := FirstDot(name); var o := PutLabel(s, bufLen, j, name, dot, table, t);
      if dot <= 63 && j + dot + 1 <= bufLen
      then o == Continue(o.buf, j + dot + 1, name[dot + 1..], t) && |o.buf| == |s|
      else o.Finished? && o.w.r < 0 && !o.w.outside
  {
    hide Put, FirstDot;
  }

  /** One round: either it ends the name, or the question is the same for the rest. */
  lemma RoundEnds(s: seq<byte>, bufLen: nat, j: nat, name: seq<byte>, table: seq<Entry>, compress: bool,
      mem: nat -> bool)
    requires bufLen <= |s|
    ensures var o := OneRound(s, bufLen, j, name, table, compress, mem);
      && (o.Finished? ==> o.w.r <= bufLen + 1 && (o.w.outside <==> o.w.r == bufLen + 1 && bufLen == |s|))
      && (o.Finished? ==> (o.w.r == bufLen + 1 <==> FillsBuffer(bufLen, j, name, table, compress)))
      && (o.Continue? ==> (FillsBuffer(bufLen, j, name, table, compress) <==> FillsBuffer(bufLen, o.j, o.rest,
        o.table, compress)))
  {
    hide PosOf, FirstDot, WithEntry, HasLongLabel, NoTailIn, PutLabel, FillsBuffer;
    var ref := if compress then PosOf(table, name) else -1;
    if ref >= 0 {
      PointerEnds(s, bufLen, j, name, table, ref);
    } else {
      var t := if compress then WithEntry(table, name, j, mem(j)) else table;
      if FirstDot(name) < 0 {
        LastLabelEnds(s, bufLen, j, name, table, t);
        FillsLast(bufLen, j, name, table, compress);
      } else {
        FirstLabelEnds(s, bufLen, j, name, table, t);
        FillsRest(bufLen, j, name, table, t, compress);
      }
    }
  }

  lemma PointerEnds(s: seq<byte>, bufLen: nat, j: nat, name: seq<byte>, table: seq<Entry>, ref: nat)
    requires bufLen <= |s| && PosOf(table, name) >= 0
    ensures PutPointer(s, bufLen, j, table, ref).r <= bufLen && !PutPointer(s, bufLen, j, table, ref).outside
    ensures !FillsBuffer(bufLen, j, name, table, true)
  {
    TailInTable(name, table);
  }

  lemma FillsLast(bufLen: nat, j: nat, name: seq<byte>, table: seq<Entry>, compress: bool)
    requires FirstDot(name) < 0 && (compress ==> PosOf(table, name) < 0)
    ensures FillsBuffer(bufLen, j, name, table, compress)
      <==> |name| <= 63 && name != [] && name[|name| - 1] != 0 && j + |name| + 1 == bufLen
  {
    TailInTable(name, table);
    FirstDotIsFirst(name);
  }

  /** Exactly when the final zero of a name is stored at `bufLen`, and when that is outside. */
  lemma {:induction false} EncodeEnds(s: seq<byte>, bufLen: nat, j: nat, name: seq<byte>, table: seq<Entry>,
      compress: bool, mem: nat -> bool)
    requires bufLen <= |s|
    ensures var w := EncodeFrom(s, bufLen, j, name, table, compress, mem);
      && w.r <= bufLen + 1 && (w.outside <==> w.r == bufLen + 1 && bufLen == |s|)
      && (w.r == bufLen + 1 <==> FillsBuffer(bufLen, j, name, table, compress))
    decreases |name|
  {
    hide FillsBuffer, OneRound;
    RoundEnds(s, bufLen, j, name, table, compress, mem);
    var o := OneRound(s, bufLen, j, name, table, compress, mem);
    if o.Continue? {
      EncodeEnds(o.buf, bufLen, o.j, o.rest, o.table, compress, mem);
    }
  }

  lemma TailInTable(name: seq<byte>, table: seq<Entry>)
    ensures PosOf(table, name) >= 0 ==> !NoTailIn(name, table)
    ensures FirstDot(name) < 0 ==>
      (NoTailIn(name, table) <==> PosOf(table, name) < 0) && (HasLongLabel(name) <==> |name| > 63)
  {
  }

  /** A name of at most 255 bytes is written inside `bufLen` bytes unless it fills them; in a buffer of
      exactly that size its last byte then goes outside, in no other case. */
  lemma StaysInside(s: seq<byte>, bufLen: nat, j: nat, name: seq<byte>, table: seq<Entry>, compress: bool,
      mem: nat -> bool)
    requires bufLen <= |s|
    ensures var w := Encode(s, bufLen, j, name, table, compress, mem);
      && (w.r <= bufLen <==> |name| > 255 || !FillsBuffer(bufLen, j, name, table, compress))
      && (w.outside <==> |name| <= 255 && FillsBuffer(bufLen, j, name, table, compress) && bufLen == |s|)
  {
    hide EncodeFrom;
    EncodeEnds(s, bufLen, j, name, table, compress, mem);
  }

  /** Such a name: one byte at position 1498 of a buffer of 1500 bytes. */
  lemma FillsTheBuffer(s: seq<byte>, mem: nat -> bool)
    requires |s| == 1500
    ensures var w := Encode(s, 1500, 1498, [97], [], true, mem); w.r == 1501 && w.outside
  {
    hide EncodeFrom;
    assert FirstDot([97]) < 0;
    EncodeEnds(s, 1500, 1498, [97], [], true, mem);
  }

  // ---- several names, one table

  /** Every entry leads back to the name it is for. */
  ghost predicate TableAll(table: seq<Entry>, s: seq<byte>, j: nat) {
    forall e :: e in table ==> EntryOk(e, s, j)
  }

  /** The names a caller may write: good or empty, at most 255 bytes. */
  predicate Writable(name: seq<byte>) {
    Good(name) && |name| <= 255
  }

  /** Where each name starts, the position after the last one, and the buffer. */
  datatype Batch = Batch(starts: seq<nat>, buf: seq<byte>)

  /** Names written one after another with one table; `starts` stops short at the first that
      fails or does not stay inside the buffer. */
  function WriteNames(s: seq<byte>, bufLen: nat, j: nat, names: seq<seq<byte>>, table: seq<Entry>,
      mem: nat -> bool): (b: Batch)
    requires bufLen <= |s| && forall i :: 0 <= i < |names| ==> Writable(names[i])
    ensures 0 < |b.starts| <= |names| + 1 && b.starts[0] == j
    decreases |names|
  {
    if names == [] then Batch([j], s)
    else
      var w := Encode(s, bufLen, j, names[0], table, true, mem);
      if w.r < 0 || w.outside || |w.buf| != |s| then Batch([j], w.buf)
      else
        var rest := WriteNames(w.buf, bufLen, w.r, names[1..], w.table, mem);
        Batch([j] + rest.starts, rest.buf)
  }

  /** The names are spelled at their starts, each ending where the next one starts. */
  ghost predicate AllSpelled(b: Batch, names: seq<seq<byte>>) {
    && |b.starts| == |names| + 1 && b.starts[|names|] <= |b.buf|
    && forall i :: 0 <= i < |names| ==> SpelledAt(b, names[i], i)
  }

  ghost predicate SpelledAt(b: Batch, name: seq<byte>, i: nat) {
    && i + 1 < |b.starts| && b.starts[i] < b.starts[i + 1]
    && Spells(b.buf, b.starts[i], Split(name)) && EndOf(b.buf, b.starts[i]) == b.starts[i + 1]
  }

  lemma OneMoreName(s: seq<byte>, bufLen: nat, j: nat, name: seq<byte>, table: seq<Entry>, mem: nat -> bool)
    requires bufLen <= |s| && bufLen <= POINTER_END && Writable(name) && TableAll(table, s, j)
    ensures var w := Encode(s, bufLen, j, name, table, true, mem);
      w.r >= 0 && !w.outside ==> Spelled(s, j, name, table, w) && TableAll(w.table, w.buf, w.r)
  {
    hide EntryOk, EncodeFrom, Spells, EndOf, Good;
    EncodeSpells(s, bufLen, j, name, table, true, mem);
    var w := Encode(s, bufLen, j, name, table, true, mem);
    if w.r >= 0 && !w.outside {
      forall e | e in w.table ensures EntryOk(e, w.buf, w.r) {
        if e in table {
          EntryFrame(e, s, j, w.buf, w.r);
        }
      }
    }
  }

  /** Later names do not disturb earlier ones. */
  lemma {:induction false} NamesSpelled(s: seq<byte>, bufLen: nat, j: nat, names: seq<seq<byte>>,
      table: seq<Entry>, mem: nat -> bool)
    requires bufLen <= |s| && bufLen <= POINTER_END && j <= |s|
    requires (forall i :: 0 <= i < |names| ==> Writable(names[i])) && TableAll(table, s, j)
    ensures var b := WriteNames(s, bufLen, j, names, table, mem);
      |b.starts| == |names| + 1 ==> |b.buf| == |s| && b.buf[..j] == s[..j] && j <= b.starts[|names|] && AllSpelled(b,
        names)
    decreases |names|
  {
    hide Encode, Spells, EndOf, Split, TableAll, Writable;
    var b := WriteNames(s, bufLen, j, names, table, mem);
    if names != [] && |b.starts| == |names| + 1 {
      var w := Encode(s, bufLen, j, names[0], table, true, mem);
      OneMoreName(s, bufLen, j, names[0], table, mem);
      var rest := WriteNames(w.buf, bufLen, w.r, names[1..], w.table, mem);
      NamesSpelled(w.buf, bufLen, w.r, names[1..], w.table, mem);
      SpellsFrame(w.buf, b.buf, j, Split(names[0]));
      assert b.starts[1..] == rest.starts;
      assert SpelledAt(b, names[0], 0);
      forall i | 0 < i < |names| ensures SpelledAt(b, names[i], i) {
        assert SpelledAt(rest, names[1..][i - 1], i - 1);
        assert b.starts[i] == rest.starts[i - 1] && b.starts[i + 1] == rest.starts[i];
      }
      assert b.buf[..j] == b.buf[..w.r][..j] == w.buf[..w.r][..j] == w.buf[..j];
    }
  }

  /** Compression round trip: name_parse at each start returns that very name and stops where the
      next name starts. */
  lemma NamesRoundTrip(s: seq<byte>, bufLen: nat, j: nat, names: seq<seq<byte>>, mem: nat -> bool, i: nat, outLen: nat)
    requires bufLen <= |s| && bufLen <= POINTER_END && j <= |s| && i < |names|
    requires forall i :: 0 <= i < |names| ==> Writable(names[i])
    requires |WriteNames(s, bufLen, j, names, [], mem).starts| == |names| + 1 && outLen > |names[i]|
    ensures var b := WriteNames(s, bufLen, j, names, [], mem);
      && b.starts[|names|] <= |b.buf|
      && ParseName(b.buf[..b.starts[|names|]], b.starts[i], outLen) ==
        Some(Named(Undotted(names[i]), b.starts[i + 1]))
  {
    hide WriteNames, Spells, EndOf, Split, Labels, Join;
    var b := WriteNames(s, bufLen, j, names, [], mem);
    NamesSpelled(s, bufLen, j, names, [], mem);
    StartsGrow(b, names, i + 1);
    var end := b.starts[|names|];
    var packet := b.buf[..end];
    assert SpelledAt(b, names[i], i);
    assert packet[..b.starts[i + 1]] == b.buf[..b.starts[i + 1]];
    SpellsFrame(b.buf, packet, b.starts[i], Split(names[i]));
    SpellsParses(packet, b.starts[i], Split(names[i]), |packet|);
    JoinSplit(names[i]);
  }

  lemma JoinNone()
    ensures Join([]) == []
  {
  }

  lemma {:induction false} StartsGrow(b: Batch, names: seq<seq<byte>>, i: nat)
    requires AllSpelled(b, names) && i <= |names|
    ensures b.starts[i] <= b.starts[|names|]
    decreases |names| - i
  {
    if i < |names| {
      assert SpelledAt(b, names[i], i);
      StartsGrow(b, names, i + 1);
    }
  }

  /** The bytes needed for the names if none of them is shortened. */
  function RoomFor(names: seq<seq<byte>>): nat {
    if names == [] then 0 else |names[0]| + 2 + RoomFor(names[1..])
  }

  /** In a buffer with room all names are written. */
  lemma {:induction false} NamesFit(s: seq<byte>, bufLen: nat, j: nat, names: seq<seq<byte>>, table: seq<Entry>,
      mem: nat -> bool)
    requires bufLen <= |s| && j + RoomFor(names) <= bufLen && forall i :: 0 <= i < |names| ==> Writable(names[i])
    ensures |WriteNames(s, bufLen, j, names, table, mem).starts| == |names| + 1
    decreases |names|
  {
    if names != [] {
      hide EncodeFrom, Good;
      assert Writable(names[0]);
      EncodeFits(s, bufLen, j, names[0], table, true, mem);
      BufferKept(s, bufLen, j, names[0], table, true, mem);
      var w := Encode(s, bufLen, j, names[0], table, true, mem);
      NamesFit(w.buf, bufLen, w.r, names[1..], w.table, mem);
    }
  }

  lemma {:induction false} BufferKept(s: seq<byte>, bufLen: nat, j: nat, name: seq<byte>, table: seq<Entry>,
      compress: bool, mem: nat -> bool)
    requires bufLen <= |s|
    ensures |EncodeFrom(s, bufLen, j, name, table, compress, mem).buf| == |s|
    decreases |name|
  {
    hide Put, PosOf, FirstDot, PointerTo, WithEntry;
    var o := OneRound(s, bufLen, j, name, table, compress, mem);
    if o.Continue? {
      BufferKept(o.buf, bufLen, o.j, o.rest, o.table, compress, mem);
    }
  }

  /** Beyond 14 bits the function on its own breaks the law: an entry at position 0x4000 becomes a
      pointer to 0. Its callers use buffers of 1500 bytes. */
  lemma FarPointer(s: seq<byte>, mem: nat -> bool)
    requires |s| >= 0x4100
    ensures var w := Encode(s, 0x4100, 0x4002, [97], [Entry([97], 0x4000)], true, mem);
      w.r == 0x4004 && |w.buf| == |s| && Target(w.buf, 0x4002) == 0
  {
    hide Put;
    assert PosOf([Entry([97], 0x4000)], [97]) == 0x4000;
    PutFacts(s, 0x4002, PointerTo(0x4000));
    var t := Put(s, 0x4002, PointerTo(0x4000));
    assert t[0x4002] == t[0x4002..0x4004][0] && t[0x4003] == t[0x4002..0x4004][1];
  }

  // ---- when a name comes back

  /** The labels before the first empty one. */
  function UpToEmpty(name: seq<byte>): seq<Label>
    decreases |name|
  {
    var dot := FirstDot(name);
    if name == [] || dot == 0 then [] else if dot < 0 then [name] else [name[..dot]] + UpToEmpty(name[dot + 1..])
  }

  /** What is written without compression spells the labels before the first empty one; an empty label
      inside the name ends it early. */
  lemma {:induction false} EncodeStops(s: seq<byte>, bufLen: nat, j: nat, name: seq<byte>, mem: nat -> bool)
    requires bufLen <= |s| && NoNul(name)
    ensures var w := EncodeFrom(s, bufLen, j, name, [], false, mem);
      w.r >= 0 && !w.outside ==> Stops(s, j, name, w)
    decreases |name|
  {
    hide Put, FirstDot, UpToEmpty, Spells, EndOf, Good, NoNul, Stops;
    var dot := FirstDot(name);
    var o := OneRound(s, bufLen, j, name, [], false, mem);
    var w := EncodeFrom(s, bufLen, j, name, [], false, mem);
    if w.r >= 0 && !w.outside {
      if dot < 0 {
        StopsLast(s, bufLen, j, name);
      } else {
        NoNulTail(name, dot + 1);
        EncodeStops(o.buf, bufLen, o.j, o.rest, mem);
        StopsMore(s, j, name, dot, w);
      }
    }
  }

  /** ... and the name is read to its very end exactly if there is no such label. */
  ghost predicate Stops(s: seq<byte>, j: nat, name: seq<byte>, w: Written) {
    && |w.buf| == |s| && j < w.r <= |s| && w.buf[..j] == s[..j]
    && Spells(w.buf, j, UpToEmpty(name)) && EndOf(w.buf, j) <= w.r && (EndOf(w.buf, j) == w.r <==> Good(name))
  }

  lemma NoNulTail(name: seq<byte>, k: nat)
    requires NoNul(name) && k <= |name|
    ensures NoNul(name[k..])
  {
  }

  lemma StopsLast(s: seq<byte>, bufLen: nat, j: nat, name: seq<byte>)
    requires bufLen <= |s| && NoNul(name) && FirstDot(name) < 0
    ensures var o := PutLabel(s, bufLen, j, name, -1, [], []);
      o.Finished? && (o.w.r >= 0 && !o.w.outside ==> Stops(s, j, name, o.w))
  {
    hide Put, FirstDot, Spells, EndOf, NoNul, Split;
    var o := PutLabel(s, bufLen, j, name, -1, [], []);
    if o.w.r >= 0 && !o.w.outside {
      LastRound(s, bufLen, j, name, [], []);
      SplitFirst(name);
      assert [name] + [] == [name];
    }
  }

  lemma StopsMore(s: seq<byte>, j: nat, name: seq<byte>, dot: nat, w: Written)
    requires dot == FirstDot(name) && dot <= 63 && j + dot + 1 <= |s| && NoNul(name)
    requires Stops(Put(s, j, [dot] + name[..dot]), j + dot + 1, name[dot + 1..], w)
    ensures Stops(s, j, name, w)
  {
    hide Put, FirstDot, Spells, EndOf, NoNul;
    var l, e := name[..dot], j + dot + 1;
    PutFacts(s, j, [dot] + l);
    StoredLabel(s, j, l, w.buf);
    if dot == 0 {
      ZeroSpells(w.buf, j);
    } else {
      SpellsInside(w.buf, e, UpToEmpty(name[dot + 1..]));
      LabelSpells(w.buf, j, l, UpToEmpty(name[dot + 1..]));
    }
  }

  /** A name written without compression is read back, but for a dot at the end, exactly if all its labels
      but the last have at least one byte. */
  lemma ReadBackExactly(s: seq<byte>, bufLen: nat, j: nat, name: seq<byte>, mem: nat -> bool, outLen: nat)
    requires bufLen <= |s| && NoNul(name) && outLen > |name|
    ensures var w := Encode(s, bufLen, j, name, [], false, mem);
      w.r >= 0 && !w.outside ==>
        && w.r <= |w.buf|
        && (ParseName(w.buf[..w.r], j, outLen) == Some(Named(Undotted(name), w.r)) <==> Good(name))
  {
    hide EncodeFrom, Spells, EndOf, Good, Labels, Join, UpToEmpty, NoNul, FirstDot, Split;
    var w := Encode(s, bufLen, j, name, [], false, mem);
    if w.r >= 0 && !w.outside {
      EncodeStops(s, bufLen, j, name, mem);
      var packet := w.buf[..w.r];
      var ls, e := UpToEmpty(name), EndOf(w.buf, j);
      assert packet[..e] == w.buf[..e];
      SpellsFrame(w.buf, packet, j, ls);
      SpellsParses(packet, j, ls, |packet|);
      if Good(name) {
        UpToEmptySplit(name);
        JoinSplit(name);
      }
    }
  }

  lemma {:induction false} UpToEmptySplit(name: seq<byte>)
    requires Good(name)
    ensures UpToEmpty(name) == Split(name)
    decreases |name|
  {
    GoodFacts(name);
    if FirstDot(name) >= 0 {
      UpToEmptySplit(name[FirstDot(name) + 1..]);
    }
  }
}
