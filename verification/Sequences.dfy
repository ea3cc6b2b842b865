/** Facts about sequences that several components share. */
module Sequences {

  ghost predicate Distinct<T>(a: seq<T>) {
    forall i, j :: 0 <= i < j < |a| ==> a[i] != a[j]
  }

  lemma {:induction false} DistinctMeansOnce<T>(a: seq<T>)
    requires Distinct(a)
    ensures forall x :: multiset(a)[x] <= 1
  {
    if a == [] {
    } else {
      DistinctMeansOnce(a[1..]);
      assert a == [a[0]] + a[1..];
      assert a[0] !in a[1..];
    }
  }

  lemma {:induction false} OnceMeansDistinct<T>(a: seq<T>)
    requires forall x :: multiset(a)[x] <= 1
    ensures Distinct(a)
  {
    if a == [] {
    } else {
      assert a == [a[0]] + a[1..];
      forall x
        ensures multiset(a[1..])[x] <= 1
      {
        assert multiset(a)[x] <= 1;
      }
      OnceMeansDistinct(a[1..]);
      assert multiset(a) == multiset{a[0]} + multiset(a[1..]);
      assert multiset(a)[a[0]] <= 1;
      assert forall j :: 1 <= j < |a| ==> a[j] in multiset(a[1..]) && a[j] != a[0];
    }
  }

  /** A permutation of a sequence without repetitions has none either. */
  lemma PermutationKeepsDistinct<T>(a: seq<T>, b: seq<T>)
    requires Distinct(a) && multiset(a) == multiset(b)
    ensures Distinct(b)
  {
    DistinctMeansOnce(a);
    OnceMeansDistinct(b);
  }

  lemma PermutationKeepsMembers<T>(a: seq<T>, b: seq<T>)
    requires multiset(a) == multiset(b)
    ensures forall x :: x in a <==> x in b
    ensures |a| == |b|
  {
    forall x
      ensures x in a <==> x in b
    {
      assert x in a <==> x in multiset(a);
      assert x in b <==> x in multiset(b);
    }
    assert |multiset(a)| == |a| && |multiset(b)| == |b|;
  }

  /** Replacing [a, b) inside the prefix s[..hi] of s[..hi] + rest. */
  lemma ReplaceInPrefix<T>(s: seq<T>, rest: seq<T>, a: nat, b: nat, hi: nat, mid: seq<T>)
    requires a <= b <= hi <= |s|
    ensures (s[..hi] + rest)[..a] + mid + (s[..hi] + rest)[b..] == s[..a] + (mid + (s[b..hi] + rest))
  {
    var t := s[..hi] + rest;
    assert t[..a] == s[..a];
    assert t[b..] == s[b..hi] + rest;
    assert (s[..a] + mid) + (s[b..hi] + rest) == s[..a] + (mid + (s[b..hi] + rest));
  }

  lemma PrependToSlice<T>(s: seq<T>, p: nat, hi: nat, rest: seq<T>)
    requires p < hi <= |s|
    ensures [s[p]] + (s[p + 1..hi] + rest) == s[p..hi] + rest
  {
    assert [s[p]] + s[p + 1..hi] == s[p..hi];
    assert [s[p]] + (s[p + 1..hi] + rest) == ([s[p]] + s[p + 1..hi]) + rest;
  }

  lemma InsertMultiset<T>(s: seq<T>, k: nat, x: T)
    requires k <= |s|
    ensures multiset(s[..k] + [x] + s[k..]) == multiset(s) + multiset{x}
  {
    assert s == s[..k] + s[k..];
  }

  /** A tail of y is a tail of x + y. */
  lemma TailOfConcat<T>(x: seq<T>, y: seq<T>, z: seq<T>)
    requires |z| <= |y| && y[|y| - |z|..] == z
    ensures (x + y)[|x + y| - |z|..] == z
  {
  }
}
