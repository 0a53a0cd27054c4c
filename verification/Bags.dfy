/** Sums of multisets over a sequence, which do not depend on the sequence's order; sizes of subsets. */
module Bags {

  function BagSum<T, U>(s: seq<T>, f: T -> multiset<U>): multiset<U> {
    if s == [] then multiset{} else BagSum(s[..|s| - 1], f) + f(s[|s| - 1])
  }

  lemma SplitLast<T>(s: seq<T>)
    requires s != []
    ensures s[..|s| - 1] + [s[|s| - 1]] == s
  {}

  lemma BagSumSnoc<T, U>(s: seq<T>, x: T, f: T -> multiset<U>)
    ensures BagSum(s + [x], f) == BagSum(s, f) + f(x)
  {
    assert (s + [x])[..|s|] == s;
  }

  lemma {:induction false} BagSumConcat<T, U>(a: seq<T>, b: seq<T>, f: T -> multiset<U>)
    ensures BagSum(a + b, f) == BagSum(a, f) + BagSum(b, f)
  {
    if b == [] {
      assert a + b == a;
    } else {
      var k := |b| - 1;
      assert a + b == (a + b[..k]) + [b[k]];
      BagSumSnoc(a + b[..k], b[k], f);
      BagSumConcat(a, b[..k], f);
    }
  }

  lemma BagSumMiddle<T, U>(a: seq<T>, x: T, b: seq<T>, f: T -> multiset<U>)
    ensures BagSum(a + [x] + b, f) == BagSum(a + b, f) + f(x)
  {
    BagSumConcat(a + [x], b, f);
    BagSumSnoc(a, x, f);
    BagSumConcat(a, b, f);
  }

  lemma {:induction false} BagSumRemove<T, U>(s: seq<T>, j: nat, f: T -> multiset<U>)
    requires j < |s|
    ensures BagSum(s, f) == BagSum(s[..j] + s[j + 1..], f) + f(s[j])
  {
    BagSumMiddle(s[..j], s[j], s[j + 1..], f);
    assert s == s[..j] + [s[j]] + s[j + 1..];
  }

  /** Elements of `b` that weigh something occur in `a` at least as often. */
  ghost predicate Covers<T(!new), U>(a: seq<T>, b: seq<T>, f: T -> multiset<U>) {
    forall x :: x in b && f(x) != multiset{} ==> multiset(b)[x] <= multiset(a)[x]
  }

  lemma {:induction false} BagSumMonotone<T(!new), U>(a: seq<T>, b: seq<T>, f: T -> multiset<U>)
    requires Covers(a, b, f)
    ensures BagSum(b, f) <= BagSum(a, f)
    decreases |b|
  {
    if b != [] {
      var k := |b| - 1;
      var x := b[k];
      assert b == b[..k] + [x];
      if f(x) == multiset{} {
        BagSumMonotone(a, b[..k], f);
      } else {
        assert multiset(b)[x] >= 1;
        var j :| 0 <= j < |a| && a[j] == x;
        var rest := a[..j] + a[j + 1..];
        assert a == a[..j] + [a[j]] + a[j + 1..];
        BagSumMonotone(rest, b[..k], f);
        BagSumRemove(a, j, f);
      }
    }
  }

  /** A sum over a sequence only depends on which elements it has and how often. */
  lemma BagSumPermutation<T(!new), U>(a: seq<T>, b: seq<T>, f: T -> multiset<U>)
    requires multiset(a) == multiset(b)
    ensures BagSum(a, f) == BagSum(b, f)
  {
    BagSumMonotone(a, b, f);
    BagSumMonotone(b, a, f);
  }

  lemma PrefixIsSubBag<T>(a: seq<T>, b: seq<T>)
    requires a <= b
    ensures multiset(a) <= multiset(b)
  {
    assert b == a + b[|a|..];
  }

  lemma {:induction false} SubsetSize<T>(a: set<T>, b: set<T>)
    requires a <= b
    ensures |a| <= |b|
  {
    if x :| x in a {
      SubsetSize(a - {x}, b - {x});
    }
  }
}
