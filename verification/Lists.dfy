/** Lists without repetitions, as the queue macros keep them. */
module Lists {

  predicate Distinct<T(==)>(xs: seq<T>) {
    forall i, j :: 0 <= i < j < |xs| ==> xs[i] != xs[j]
  }

  /** The list with the first occurrence of `x` unlinked. */
  function Without<T(==)>(xs: seq<T>, x: T): seq<T> {
    if xs == [] then [] else if xs[0] == x then xs[1..] else [xs[0]] + Without(xs[1..], x)
  }

  lemma {:induction false} WithoutFacts<T>(xs: seq<T>, x: T)
    requires Distinct(xs) && x in xs
    ensures |Without(xs, x)| == |xs| - 1 && Distinct(Without(xs, x))
    ensures forall y :: y in Without(xs, x) <==> y in xs && y != x
  {
    if xs[0] == x {
      assert forall y :: y in xs <==> y == x || y in xs[1..];
    } else {
      var rest := xs[1..];
      assert Distinct(rest) && x in rest;
      WithoutFacts(rest, x);
      assert forall y :: y in xs <==> y == xs[0] || y in rest;
      assert xs[0] !in rest;
    }
  }

  lemma AppendFacts<T>(xs: seq<T>, x: T)
    requires Distinct(xs) && x !in xs
    ensures Distinct(xs + [x]) && forall y :: y in xs + [x] <==> y in xs || y == x
  {
  }

  /** The list with the element at position `k` unlinked. */
  function Cut<T>(xs: seq<T>, k: nat): seq<T>
    requires k < |xs|
  {
    xs[..k] + xs[k + 1..]
  }

  lemma {:induction false} WithoutAt<T>(xs: seq<T>, k: nat)
    requires Distinct(xs) && k < |xs|
    ensures Without(xs, xs[k]) == Cut(xs, k)
  {
    if k > 0 {
      WithoutAt(xs[1..], k - 1);
      assert Cut(xs, k) == [xs[0]] + Cut(xs[1..], k - 1);
    }
  }

  lemma {:induction false} WithoutAbsent<T>(xs: seq<T>, x: T)
    requires x !in xs
    ensures Without(xs, x) == xs
  {
    if xs != [] {
      WithoutAbsent(xs[1..], x);
    }
  }

  lemma CutFacts<T>(xs: seq<T>, k: nat)
    requires Distinct(xs) && k < |xs|
    ensures Distinct(Cut(xs, k)) && forall y :: y in Cut(xs, k) <==> y in xs && y != xs[k]
  {
    var c := Cut(xs, k);
    assert forall i :: 0 <= i < |c| ==> c[i] == if i < k then xs[i] else xs[i + 1];
    forall y | y in xs && y != xs[k] ensures y in c {
      var i :| 0 <= i < |xs| && xs[i] == y;
      assert c[if i < k then i else i - 1] == y;
    }
  }

  /** How many elements several lists have together. */
  function Lengths<T>(qs: seq<seq<T>>): nat {
    if qs == [] then 0 else |qs[0]| + Lengths(qs[1..])
  }

  lemma {:induction false} LengthsUpdate<T>(qs: seq<seq<T>>, i: nat, q: seq<T>)
    requires i < |qs|
    ensures Lengths(qs[i := q]) == Lengths(qs) - |qs[i]| + |q|
  {
    if i == 0 {
      assert qs[i := q][1..] == qs[1..];
    } else {
      assert qs[i := q][1..] == qs[1..][i - 1 := q];
      LengthsUpdate(qs[1..], i - 1, q);
    }
  }

  lemma {:induction false} LengthsConcat<T>(ps: seq<seq<T>>, qs: seq<seq<T>>)
    ensures Lengths(ps + qs) == Lengths(ps) + Lengths(qs)
  {
    if ps == [] {
      assert ps + qs == qs;
    } else {
      assert (ps + qs)[1..] == ps[1..] + qs;
      LengthsConcat(ps[1..], qs);
    }
  }

  lemma {:induction false} NoLengths<T>(qs: seq<seq<T>>)
    requires forall i :: 0 <= i < |qs| ==> qs[i] == []
    ensures Lengths(qs) == 0
  {
    if qs != [] {
      NoLengths(qs[1..]);
    }
  }
}
