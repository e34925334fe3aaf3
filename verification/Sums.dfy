/** Finite sums of reals and their behaviour under permutations of the index range. */
module Sums {
  function Sum(s: seq<real>): real {
    if s == [] then 0.0 else s[0] + Sum(s[1..])
  }

  /** The element at `j`, or zero outside the vector. */
  function At(x: seq<real>, j: int): real {
    if 0 <= j < |x| then x[j] else 0.0
  }

  predicate IsPermutation(p: seq<int>, n: nat) {
    && |p| == n
    && (forall k | 0 <= k < n :: 0 <= p[k] < n)
    && (forall k, l | 0 <= k < l < n :: p[k] != p[l])
  }

  /** The vector whose k-th element is `s[p[k]]`. */
  function Gather(s: seq<real>, p: seq<int>): seq<real> {
    seq(|p|, k requires 0 <= k < |p| => At(s, p[k]))
  }

  lemma {:induction false} SumConcat(a: seq<real>, b: seq<real>)
    ensures Sum(a + b) == Sum(a) + Sum(b)
  {
    if a == [] {
      assert a + b == b;
    } else {
      SumConcat(a[1..], b);
      assert (a + b)[1..] == a[1..] + b;
    }
  }

  /** The elements of an injective sequence are as many as its positions. */
  lemma {:induction false} InjectiveCardinality(p: seq<int>)
    requires forall k, l | 0 <= k < l < |p| :: p[k] != p[l]
    ensures |set v | v in p| == |p|
  {
    if p == [] {
      assert (set v | v in p) == {};
    } else {
      InjectiveCardinality(p[1..]);
      assert (set v | v in p) == {p[0]} + set v | v in p[1..];
    }
  }

  ghost function Interval(n: nat): (r: set<int>)
    ensures |r| == n && forall v :: v in r <==> 0 <= v < n
  {
    if n == 0 then {} else Interval(n - 1) + {n - 1}
  }

  lemma {:induction false} SubsetOfEqualSize(a: set<int>, b: set<int>)
    requires a <= b && |a| == |b|
    ensures a == b
  {
    assert b == a + (b - a);
    assert b - a == {};
  }

  /** An injective map of 0..n into itself is onto. */
  lemma {:induction false} PermutationOnto(p: seq<int>, n: nat, v: int) returns (k: nat)
    requires IsPermutation(p, n) && 0 <= v < n
    ensures k < n && p[k] == v
  {
    InjectiveCardinality(p);
    var image := set w | w in p;
    SubsetOfEqualSize(image, Interval(n));
    assert v in image;
    k :| 0 <= k < n && p[k] == v;
  }

  /** A sum does not depend on the order in which a permutation visits the terms. */
  lemma {:induction false} SumGather(s: seq<real>, p: seq<int>)
    requires IsPermutation(p, |s|)
    ensures Sum(Gather(s, p)) == Sum(s)
    decreases |s|
  {
    var n := |s|;
    if n == 0 {
      assert Gather(s, p) == s;
    } else {
      var k := PermutationOnto(p, n, n - 1);
      var rest := p[..k] + p[k + 1..];
      var t := s[..n - 1];
      assert IsPermutation(rest, n - 1);
      SumGather(t, rest);
      assert Gather(t, rest) == Gather(s, p[..k]) + Gather(s, p[k + 1..]);
      assert Gather(s, p) == Gather(s, p[..k]) + ([s[n - 1]] + Gather(s, p[k + 1..]));
      SumConcat(Gather(s, p[..k]), Gather(s, p[k + 1..]));
      SumConcat(Gather(s, p[..k]), [s[n - 1]] + Gather(s, p[k + 1..]));
      SumConcat([s[n - 1]], Gather(s, p[k + 1..]));
      SumConcat(t, [s[n - 1]]);
      assert t + [s[n - 1]] == s;
    }
  }

  lemma {:induction false} SumAdd(a: seq<real>, b: seq<real>, c: seq<real>)
    requires |a| == |b| == |c| && forall k | 0 <= k < |c| :: c[k] == a[k] + b[k]
    ensures Sum(c) == Sum(a) + Sum(b)
  {
    if c != [] { SumAdd(a[1..], b[1..], c[1..]); }
  }

  lemma {:induction false} SumScale(a: seq<real>, c: seq<real>, w: real)
    requires |a| == |c| && forall k | 0 <= k < |c| :: c[k] == w * a[k]
    ensures Sum(c) == w * Sum(a)
  {
    if c != [] {
      SumScale(a[1..], c[1..], w);
      assert w * a[0] + w * Sum(a[1..]) == w * (a[0] + Sum(a[1..]));
    }
  }

  /** A sum with at most one term that is not zero. */
  lemma {:induction false} SumUnit(a: seq<real>, i: int)
    requires 0 <= i < |a| && forall k | 0 <= k < |a| && k != i :: a[k] == 0.0
    ensures Sum(a) == a[i]
  {
    if i == 0 {
      SumScale(a[1..], a[1..], 0.0);
    } else {
      SumUnit(a[1..], i - 1);
    }
  }

  lemma {:induction false} SumNonnegative(a: seq<real>)
    requires forall k | 0 <= k < |a| :: a[k] >= 0.0
    ensures Sum(a) >= 0.0
  {
    if a != [] { SumNonnegative(a[1..]); }
  }
}
