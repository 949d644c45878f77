/**
 Sorting by a key, as the source's library sort does it. The library sort is not stable, so nothing here may depend on
 the order of equal keys; `AscendingPermutationIsUnique` says when that order cannot matter.
 */
module Sorting {
  ghost predicate TotalPreorder<T(!new)>(leq: (T, T) -> bool) {
    && (forall x, y :: leq(x, y) || leq(y, x))
    && (forall x, y, z :: leq(x, y) && leq(y, z) ==> leq(x, z))
  }

  ghost predicate Ascending<T>(xs: seq<T>, leq: (T, T) -> bool) {
    forall i, j | 0 <= i < j < |xs| :: leq(xs[i], xs[j])
  }

  /** No two different elements of `xs` share a key. */
  ghost predicate DistinctKeys<T>(xs: seq<T>, leq: (T, T) -> bool) {
    forall i, j | 0 <= i < |xs| && 0 <= j < |xs| && leq(xs[i], xs[j]) && leq(xs[j], xs[i]) :: xs[i] == xs[j]
  }

  ghost predicate NoDuplicates<T>(xs: seq<T>) {
    forall i, j | 0 <= i < j < |xs| :: xs[i] != xs[j]
  }

  lemma PrependAscends<T>(x: T, xs: seq<T>, leq: (T, T) -> bool)
    requires Ascending(xs, leq) && leq(x, x) && forall y | y in xs :: leq(x, y)
    ensures Ascending([x] + xs, leq)
  {
  }

  lemma HeadIsLeast<T(!new)>(x: T, xs: seq<T>, leq: (T, T) -> bool)
    requires TotalPreorder(leq) && Ascending(xs, leq) && xs != [] && leq(x, xs[0])
    ensures forall y | y in xs :: leq(x, y)
  {
  }

  lemma PermutationHas<T>(xs: seq<T>, y: T)
    requires y in multiset(xs)
    ensures y in xs
  {
  }

  /** The head of an ascending sequence is below all of it and whatever larger element is inserted behind it. */
  lemma HeadIsBelowInserted<T(!new)>(x: T, xs: seq<T>, rest: seq<T>, leq: (T, T) -> bool)
    requires TotalPreorder(leq) && Ascending(xs, leq) && xs != [] && !leq(x, xs[0])
    requires multiset(rest) == multiset(xs[1..]) + multiset{x}
    ensures forall y | y in rest :: leq(xs[0], y)
  {
    HeadIsLeast(xs[0], xs, leq);
    forall y | y in rest ensures leq(xs[0], y) {
      assert y in multiset(rest);
      if y != x { PermutationHas(xs[1..], y); }
    }
  }

  function Insert<T(!new)>(x: T, xs: seq<T>, leq: (T, T) -> bool): (ys: seq<T>)
    requires TotalPreorder(leq) && Ascending(xs, leq)
    ensures Ascending(ys, leq)
    ensures multiset(ys) == multiset(xs) + multiset{x}
  {
    if xs == [] then [x]
    else if leq(x, xs[0]) then
      HeadIsLeast(x, xs, leq);
      PrependAscends(x, xs, leq);
      [x] + xs
    else
      var rest := Insert(x, xs[1..], leq);
      assert xs == [xs[0]] + xs[1..];
      HeadIsBelowInserted(x, xs, rest, leq);
      PrependAscends(xs[0], rest, leq);
      [xs[0]] + rest
  }

  function Sort<T(!new)>(xs: seq<T>, leq: (T, T) -> bool): (ys: seq<T>)
    requires TotalPreorder(leq)
    ensures Ascending(ys, leq)
    ensures multiset(ys) == multiset(xs)
  {
    if xs == [] then []
    else
      assert xs == [xs[0]] + xs[1..];
      Insert(xs[0], Sort(xs[1..], leq), leq)
  }

  /** Whatever algorithm sorted them, two ascending arrangements of the same elements agree when keys are distinct. */
  lemma {:induction false} AscendingPermutationIsUnique<T>(xs: seq<T>, ys: seq<T>, leq: (T, T) -> bool)
    requires Ascending(xs, leq) && Ascending(ys, leq)
    requires multiset(xs) == multiset(ys)
    requires DistinctKeys(xs, leq)
    ensures xs == ys
  {
    assert |xs| == |multiset(xs)| == |multiset(ys)| == |ys|;
    if xs != [] {
      LeastElementsAgree(xs, ys, leq);
      RestIsMultiset(xs);
      RestIsMultiset(ys);
      AscendingPermutationIsUnique(xs[1..], ys[1..], leq);
      assert xs == [xs[0]] + xs[1..] && ys == [ys[0]] + ys[1..];
    }
  }

  lemma RestIsMultiset<T>(xs: seq<T>)
    requires xs != []
    ensures multiset(xs[1..]) == multiset(xs) - multiset{xs[0]}
  {
    assert xs == [xs[0]] + xs[1..];
  }

  lemma LeastElementsAgree<T>(xs: seq<T>, ys: seq<T>, leq: (T, T) -> bool)
    requires Ascending(xs, leq) && Ascending(ys, leq) && xs != [] && ys != []
    requires multiset(xs) == multiset(ys)
    requires DistinctKeys(xs, leq)
    ensures xs[0] == ys[0]
  {
    assert xs[0] in multiset(ys) && ys[0] in multiset(xs);
    var i :| 0 <= i < |ys| && ys[i] == xs[0];
    var j :| 0 <= j < |xs| && xs[j] == ys[0];
    if i > 0 && j > 0 { assert leq(ys[0], ys[i]) && leq(xs[0], xs[j]); }
  }

  ghost predicate Arranges<T>(ys: seq<T>, xs: seq<T>, leq: (T, T) -> bool) {
    multiset(ys) == multiset(xs) && Ascending(ys, leq)
  }

  /** Exchanging two elements with equal keys keeps an ascending arrangement ascending. */
  lemma ExchangeEqualKeys<T(!new)>(ys: seq<T>, i: nat, j: nat, leq: (T, T) -> bool) returns (zs: seq<T>)
    requires TotalPreorder(leq) && Ascending(ys, leq)
    requires i < j < |ys| && leq(ys[j], ys[i])
    ensures zs == ys[i := ys[j]][j := ys[i]]
    ensures Arranges(zs, ys, leq)
  {
    zs := ys[i := ys[j]][j := ys[i]];
    assert leq(ys[i], ys[j]);
    forall a, b | 0 <= a < b < |zs| ensures leq(zs[a], zs[b]) {
      assert a != b ==> leq(ys[a], ys[b]);
      if a == i { assert leq(ys[j], ys[i]); }
      if b == j { assert leq(ys[j], ys[i]); }
      if b == i { assert leq(ys[a], ys[i]) && leq(ys[i], ys[j]); }
      if a == j { assert leq(ys[i], ys[j]) && leq(ys[j], ys[b]); }
    }
  }

  /**
   The result of an unspecified sort is determined by its input exactly when no two different elements share a key.
   */
  lemma ArrangementIsUniqueIffKeysDistinct<T(!new)>(xs: seq<T>, leq: (T, T) -> bool)
    requires TotalPreorder(leq)
    ensures (forall a, b | Arranges(a, xs, leq) && Arranges(b, xs, leq) :: a == b) <==> DistinctKeys(xs, leq)
  {
    if DistinctKeys(xs, leq) {
      forall a, b | Arranges(a, xs, leq) && Arranges(b, xs, leq) ensures a == b {
        DistinctKeysOfPermutation(xs, a, leq);
        AscendingPermutationIsUnique(a, b, leq);
      }
    } else {
      var ys := Sort(xs, leq);
      if DistinctKeys(ys, leq) {
        DistinctKeysOfPermutation(ys, xs, leq);
        assert false;
      }
      var i, j :| 0 <= i < |ys| && 0 <= j < |ys| && leq(ys[i], ys[j]) && leq(ys[j], ys[i]) && ys[i] != ys[j];
      var zs := ys;
      if i < j { zs := ExchangeEqualKeys(ys, i, j, leq); } else { zs := ExchangeEqualKeys(ys, j, i, leq); }
      assert zs[i] != ys[i];
      assert Arranges(ys, xs, leq) && Arranges(zs, xs, leq);
    }
  }

  lemma DistinctKeysOfPermutation<T>(xs: seq<T>, ys: seq<T>, leq: (T, T) -> bool)
    requires multiset(xs) == multiset(ys) && DistinctKeys(xs, leq)
    ensures DistinctKeys(ys, leq)
  {
    forall i, j | 0 <= i < |ys| && 0 <= j < |ys| && leq(ys[i], ys[j]) && leq(ys[j], ys[i]) ensures ys[i] == ys[j] {
      assert ys[i] in multiset(xs) && ys[j] in multiset(xs);
      var a :| 0 <= a < |xs| && xs[a] == ys[i];
      var b :| 0 <= b < |xs| && xs[b] == ys[j];
    }
  }

  /** Two duplicate-free sequences with the same elements are permutations of one another. */
  lemma SameElementsSameMultiset<T>(xs: seq<T>, ys: seq<T>)
    requires NoDuplicates(xs) && NoDuplicates(ys)
    requires forall x :: x in xs <==> x in ys
    ensures multiset(xs) == multiset(ys)
  {
    MultiplicityAtMostOne(xs);
    MultiplicityAtMostOne(ys);
    forall x ensures multiset(xs)[x] == multiset(ys)[x] {
      assert x in multiset(xs) <==> x in xs;
      assert x in multiset(ys) <==> x in ys;
    }
  }

  lemma {:induction false} MultiplicityAtMostOne<T>(xs: seq<T>)
    requires NoDuplicates(xs)
    ensures forall x :: multiset(xs)[x] <= 1
  {
    if xs != [] {
      assert xs == [xs[0]] + xs[1..];
      MultiplicityAtMostOne(xs[1..]);
      assert xs[0] !in xs[1..];
      assert xs[0] !in multiset(xs[1..]);
    }
  }

  /** A permutation keeps elements, and keeps them distinct. */
  lemma PermutationKeepsElements<T>(xs: seq<T>, ys: seq<T>)
    requires multiset(ys) == multiset(xs) && NoDuplicates(xs)
    ensures NoDuplicates(ys) && |ys| == |xs|
    ensures forall x :: x in ys <==> x in xs
  {
    forall x ensures x in ys <==> x in xs {
      assert x in ys <==> x in multiset(ys);
      assert x in xs <==> x in multiset(xs);
    }
    MultiplicityAtMostOne(xs);
    assert |multiset(ys)| == |ys| && |multiset(xs)| == |xs|;
    forall i, j | 0 <= i < j < |ys| ensures ys[i] != ys[j] {
      if ys[i] == ys[j] {
        RepeatedElement(ys, i, j);
        assert false;
      }
    }
  }

  lemma RepeatedElement<T>(xs: seq<T>, i: nat, j: nat)
    requires i < j < |xs| && xs[i] == xs[j]
    ensures multiset(xs)[xs[i]] >= 2
  {
    assert xs == xs[..i] + [xs[i]] + xs[i + 1..j] + [xs[j]] + xs[j + 1..];
  }

  /** No two positions of `xs` share a key. */
  ghost predicate StrictKeys<T>(xs: seq<T>, leq: (T, T) -> bool) {
    forall i, j | 0 <= i < j < |xs| :: !(leq(xs[i], xs[j]) && leq(xs[j], xs[i]))
  }

  lemma StrictKeysOfPermutation<T>(xs: seq<T>, ys: seq<T>, leq: (T, T) -> bool)
    requires multiset(xs) == multiset(ys) && StrictKeys(xs, leq)
    requires forall x | x in xs :: leq(x, x)
    ensures StrictKeys(ys, leq)
  {
    assert NoDuplicates(xs) by {
      forall i, j | 0 <= i < j < |xs| ensures xs[i] != xs[j] { assert xs[i] in xs; }
    }
    PermutationKeepsElements(xs, ys);
    assert DistinctKeys(xs, leq);
    DistinctKeysOfPermutation(xs, ys, leq);
  }
}
