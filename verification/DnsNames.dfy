/** Domain names on the wire (sections 3.1 and 4.1.4 of RFC 1035): parsing, and writing with a
    table of the tails already written. */
module DnsNames {
  import opened Options
  import opened Bytes

  type Label = seq<byte>

  const DOT: byte := 46
  const MAX_LABELS: nat := 128
  /** A pointer has 14 bits for its target. */
  const POINTER_END: nat := 0x4000

  /** Labels with dots between them. */
  function Join(ls: seq<Label>): seq<byte> {
    if ls == [] then [] else if |ls| == 1 then ls[0] else ls[0] + [DOT] + Join(ls[1..])
  }

  /** The labels of a name, and the position just past it in the packet. */
  datatype Parsed = Parsed(labels: seq<Label>, end: int)
  datatype Named = Named(name: seq<byte>, next: int)

  // ---- parsing

  /** The target of the pointer at position `j`. */
  function Target(s: seq<byte>, j: nat): nat
    requires j + 1 < |s|
  {
    (s[j] as int) % 64 * 256 + s[j + 1]
  }

  /** The labels of the name at position `j`, following at most `jumps` pointers, and the position
      just past the name. Any length byte above 63 is taken for a pointer. */
  function Labels(s: seq<byte>, j: nat, jumps: nat): (r: Option<Parsed>)
    ensures r.Some? ==> j < r.value.end <= |s|
    decreases jumps, |s| - j
  {
    if j >= |s| then None
    else if s[j] == 0 then Some(Parsed([], j + 1))
    else if s[j] >= 64 then
      if j + 1 >= |s| || Target(s, j) >= |s| || jumps == 0 then None
      else match Labels(s, Target(s, j), jumps - 1)
           case None => None
           case Some(r) => Some(Parsed(r.labels, j + 2))
    else if j + 1 + s[j] > |s| then None
    else match Labels(s, j + 1 + s[j], jumps)
         case None => None
         case Some(r) => Some(Parsed([s[j + 1..j + 1 + s[j]]] + r.labels, r.end))
  }

  /** What name_parse returns: a packet of n bytes allows n jumps, and the name must fit into
      `outLen` bytes with its terminator. */
  function ParseName(s: seq<byte>, j: nat, outLen: nat): (r: Option<Named>)
    ensures r.Some? ==> j < r.value.next <= |s| && |r.value.name| + 1 <= outLen
  {
    match Labels(s, j, |s|)
    case None => None
    case Some(r) => if |Join(r.labels)| < outLen then Some(Named(Join(r.labels), r.end)) else None
  }

  /** Labels found before position `j`, followed by the rest. */
  function After(done: seq<Label>, nameEnd: int, r: Option<Parsed>): Option<Parsed> {
    match r
    case None => None
    case Some(v) => Some(Parsed(done + v.labels, if nameEnd < 0 then v.end else nameEnd))
  }

  /** Joining one more label: a dot first unless the label is the first one. */
  lemma {:induction false} JoinSnoc(ls: seq<Label>, l: Label)
    ensures Join(ls + [l]) == if ls == [] then l else Join(ls) + [DOT] + l
  {
    if |ls| == 1 {
      assert (ls + [l])[1..] == [l];
    } else if |ls| > 1 {
      assert (ls + [l])[1..] == ls[1..] + [l];
      JoinSnoc(ls[1..], l);
    }
  }

  lemma {:induction false} JoinLonger(ls: seq<Label>, more: seq<Label>)
    ensures |Join(ls)| <= |Join(ls + more)|
    decreases |more|
  {
    if more == [] {
      assert ls + more == ls;
    } else {
      JoinSnoc(ls, more[0]);
      assert ls + more == (ls + [more[0]]) + more[1..];
      JoinLonger(ls + [more[0]], more[1..]);
    }
  }

  /** Copies `l` to `out` at `at`. */
  method Copy(out: array<byte>, at: nat, l: seq<byte>)
    requires at + |l| <= out.Length
    modifies out
    ensures out[..at] == old(out[..at]) && out[at..at + |l|] == l
  {
    forall k | 0 <= k < |l| {
      out[at + k] := l[k];
    }
  }

  /** A part of a name that does not fit means that the name does not. */
  lemma DoesNotFit(done: seq<Label>, nameEnd: int, r: Option<Parsed>, outLen: nat)
    requires |Join(done)| >= outLen
    ensures After(done, nameEnd, r).Some? ==> |Join(After(done, nameEnd, r).value.labels)| >= outLen
  {
    if r.Some? {
      JoinLonger(done, r.value.labels);
    }
  }

  /** Appends a label to the name in `out`, with a dot before it if it is not the first. */
  method AppendLabel(out: array<byte>, cp: nat, l: Label, ghost done: seq<Label>) returns (ok: bool, cp': nat)
    requires l != [] && (cp == 0 <==> done == []) && cp == |Join(done)| <= out.Length && out[..cp] == Join(done)
    modifies out
    ensures ok <==> |Join(done + [l])| < out.Length
    ensures ok ==> 0 < cp' == |Join(done + [l])| && out[..cp'] == Join(done + [l])
  {
    JoinSnoc(done, l);
    cp' := cp;
    if cp' != 0 {
      if cp' + 1 >= out.Length {
        return false, cp';
      }
      out[cp'] := DOT;
      cp' := cp' + 1;
    }
    if cp' + |l| >= out.Length {
      return false, cp';
    }
    ghost var before := out[..cp'];
    Copy(out, cp', l);
    assert out[..cp' + |l|] == out[..cp'] + out[cp'..cp' + |l|];
    cp' := cp' + |l|;
    return true, cp';
  }

  /** name_parse: the name at `idx` and the index just past it. The loop ends on every packet,
      pointer loops included: each round uses up a jump, or no jump but some bytes. */
  method NameParse(packet: seq<byte>, idx: nat, out: array<byte>) returns (ok: bool, next: nat, ghost name: seq<byte>)
    modifies out
    ensures ok <==> ParseName(packet, idx, out.Length).Some?
    ensures ok ==> ParseName(packet, idx, out.Length) == Some(Named(name, next))
    ensures ok ==> out[..|name| + 1] == name + [0]
  {
    hide Join, Labels, After;
    var nameEnd: int := -1;
    var j, ptrCount, cp: nat := idx, 0, 0;
    ghost var done: seq<Label> := [];
    next, name, ok := idx, [], false;
    AfterNothing(Labels(packet, idx, |packet|));
    while j < |packet| && packet[j] != 0
      invariant 0 <= j && 0 <= ptrCount <= |packet| && nameEnd <= |packet|
      invariant Labels(packet, idx, |packet|) == After(done, nameEnd, Labels(packet, j, |packet| - ptrCount))
      invariant (cp == 0 <==> done == []) && cp == |Join(done)| <= out.Length && out[..cp] == Join(done)
      decreases |packet| - ptrCount, |packet| - j
    {
      var labelLen := packet[j];
      if labelLen >= 64 {
        PointerStep(packet, j, |packet| - ptrCount, done, nameEnd);
        if j + 1 >= |packet| {
          return;
        }
        if nameEnd < 0 {
          nameEnd := j + 2;
        }
        j := (labelLen as int) % 64 * 256 + packet[j + 1];
        if j >= |packet| || ptrCount + 1 > |packet| {
          return;
        }
        ptrCount := ptrCount + 1;
      } else {
        LabelStep(packet, j, |packet| - ptrCount, done, nameEnd);
        if j + 1 + labelLen > |packet| {
          return;
        }
        var l := packet[j + 1..j + 1 + labelLen];
        var fits;
        fits, cp := AppendLabel(out, cp, l, done);
        if !fits {
          DoesNotFit(done + [l], nameEnd, Labels(packet, j + 1 + labelLen, |packet| - ptrCount), out.Length);
          return;
        }
        done := done + [l];
        j := j + 1 + labelLen;
      }
    }
    EndStep(packet, j, |packet| - ptrCount, done, nameEnd);
    if j >= |packet| {
      return;
    }
    if cp >= out.Length {
      return;
    }
    out[cp] := 0;
    name := Join(done);
    next := if nameEnd < 0 then j + 1 else nameEnd;
    ok := true;
  }

  /** A pointer comes next. */
  lemma PointerStep(s: seq<byte>, j: nat, jumps: nat, done: seq<Label>, nameEnd: int)
    requires j < |s| && s[j] >= 64
    ensures j + 1 >= |s| || Target(s, j) >= |s| || jumps == 0 ==> After(done, nameEnd, Labels(s, j, jumps)) == None
    ensures j + 1 < |s| && Target(s, j) < |s| && jumps > 0 ==>
      After(done, nameEnd, Labels(s, j, jumps)) == After(done, if nameEnd < 0 then j + 2
        else nameEnd, Labels(s, Target(s, j), jumps - 1))
  {
  }

  /** A label comes next. */
  lemma LabelStep(s: seq<byte>, j: nat, jumps: nat, done: seq<Label>, nameEnd: int)
    requires j < |s| && 0 < s[j] < 64
    ensures j + 1 + s[j] > |s| ==> After(done, nameEnd, Labels(s, j, jumps)) == None
    ensures j + 1 + s[j] <= |s| ==> var l := s[j + 1..j + 1 + s[j]];
      && After(done, nameEnd, Labels(s, j, jumps)) == After(done + [l], nameEnd, Labels(s, j + 1 + s[j], jumps))
  {
    if j + 1 + s[j] <= |s| {
      var l, r := s[j + 1..j + 1 + s[j]], Labels(s, j + 1 + s[j], jumps);
      if r.Some? {
        assert done + ([l] + r.value.labels) == (done + [l]) + r.value.labels;
      }
    }
  }

  /** The name ends here, well or not. */
  lemma EndStep(s: seq<byte>, j: nat, jumps: nat, done: seq<Label>, nameEnd: int)
    requires j < |s| ==> s[j] == 0
    ensures After(done, nameEnd, Labels(s, j, jumps)) ==
      if j >= |s| then None else Some(Parsed(done, if nameEnd < 0 then j + 1 else nameEnd))
  {
    assert done + [] == done;
  }

  lemma AfterNothing(r: Option<Parsed>)
    ensures After([], -1, r) == r && Join([]) == []
  {
    if r.Some? {
      assert [] + r.value.labels == r.value.labels;
    }
  }
}
