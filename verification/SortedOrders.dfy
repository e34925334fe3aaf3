/**
 * Sorting by lexicographic keys. Two sorted arrangements of the same elements have the same keys in the same order,
 * so whatever depends on the keys alone does not depend on how the elements arrived or on how ties were broken.
 */
module SortedOrders {
  /** Lexicographic comparison, a proper prefix first. */
  predicate LexLess(a: seq<real>, b: seq<real>) {
    b != [] && (a == [] || a[0] < b[0] || (a[0] == b[0] && LexLess(a[1..], b[1..])))
  }

  lemma {:induction false} Lex4(a: real, b: real, c: real, d: real, e: real, f: real, g: real, h: real)
    ensures LexLess([a, b, c, d], [e, f, g, h]) <==>
              a < e || (a == e && (b < f || (b == f && (c < g || (c == g && d < h)))))
  {
    var x, y := [a, b, c, d], [e, f, g, h];
    assert x[1..] == [b, c, d] && y[1..] == [f, g, h];
    assert [b, c, d][1..] == [c, d] && [f, g, h][1..] == [g, h];
    assert [c, d][1..] == [d] && [g, h][1..] == [h];
    assert [d][1..] == [] && [h][1..] == [];
    assert LexLess([d], [h]) == (d < h);
    assert LexLess([c, d], [g, h]) == (c < g || (c == g && d < h));
    assert LexLess([b, c, d], [f, g, h]) == (b < f || (b == f && (c < g || (c == g && d < h))));
  }

  lemma {:induction false} LexTotal(a: seq<real>, b: seq<real>)
    ensures LexLess(a, b) || LexLess(b, a) || a == b
    ensures !(LexLess(a, b) && LexLess(b, a))
    ensures a == b ==> !LexLess(a, b)
    decreases |a|
  {
    if a != [] && b != [] {
      LexTotal(a[1..], b[1..]);
      assert a == [a[0]] + a[1..] && b == [b[0]] + b[1..];
    }
  }

  lemma {:induction false} LexTransitive(a: seq<real>, b: seq<real>, c: seq<real>)
    requires LexLess(a, b) && LexLess(b, c)
    ensures LexLess(a, c)
    decreases |a|
  {
    if a != [] && a[0] == b[0] == c[0] { LexTransitive(a[1..], b[1..], c[1..]); }
  }

  predicate Before(a: seq<real>, b: seq<real>) {
    !LexLess(b, a)
  }

  lemma {:induction false} BeforeTransitive(a: seq<real>, b: seq<real>, c: seq<real>)
    requires Before(a, b) && Before(b, c)
    ensures Before(a, c)
  {
    if LexLess(c, a) {
      LexTotal(a, b);
      if LexLess(a, b) { LexTransitive(c, a, b); }
    }
  }

  predicate Sorted<T>(xs: seq<T>, key: T -> seq<real>) {
    forall i, j | 0 <= i < j < |xs| :: Before(key(xs[i]), key(xs[j]))
  }

  function Keys<T>(xs: seq<T>, key: T -> seq<real>): seq<seq<real>> {
    seq(|xs|, i requires 0 <= i < |xs| => key(xs[i]))
  }

  lemma {:induction false} KeysTail<T>(xs: seq<T>, key: T -> seq<real>)
    requires xs != []
    ensures Keys(xs, key) == [key(xs[0])] + Keys(xs[1..], key)
  {
  }

  lemma {:induction false} KeysOf<T>(xs: seq<T>, key: T -> seq<real>)
    ensures multiset(Keys(xs, key)) == KeyBag(xs, key)
  {
    if xs == [] {
      assert Keys(xs, key) == [];
    } else {
      KeysTail(xs, key);
      KeysOf(xs[1..], key);
    }
  }

  function KeyBag<T>(xs: seq<T>, key: T -> seq<real>): multiset<seq<real>> {
    if xs == [] then multiset{} else multiset{key(xs[0])} + KeyBag(xs[1..], key)
  }

  lemma {:induction false} BagWithout<T>(xs: seq<T>, k: int, key: T -> seq<real>)
    requires 0 <= k < |xs|
    ensures KeyBag(xs, key) == KeyBag(xs[..k] + xs[k + 1..], key) + multiset{key(xs[k])}
  {
    if k == 0 {
      assert xs[..0] + xs[1..] == xs[1..];
    } else {
      BagWithout(xs[1..], k - 1, key);
      var rest := xs[..k] + xs[k + 1..];
      assert rest[1..] == xs[1..][..k - 1] + xs[1..][k - 1 + 1..];
    }
  }

  lemma {:induction false} EmptyBag<T>(ys: seq<T>)
    requires multiset(ys) == multiset{}
    ensures ys == []
  {
    assert |multiset(ys)| == |ys|;
  }

  lemma {:induction false} HeadTail<T>(xs: seq<T>)
    requires xs != []
    ensures multiset(xs) == multiset{xs[0]} + multiset(xs[1..]) && xs[0] in multiset(xs)
  {
    assert xs == [xs[0]] + xs[1..];
  }

  lemma {:induction false} Find<T>(ys: seq<T>, x: T) returns (k: int)
    requires x in multiset(ys)
    ensures 0 <= k < |ys| && ys[k] == x
  {
    assert x in ys;
    k :| 0 <= k < |ys| && ys[k] == x;
  }

  lemma {:induction false} TakeOut<T>(ys: seq<T>, k: int)
    requires 0 <= k < |ys|
    ensures multiset(ys) == multiset{ys[k]} + multiset(ys[..k] + ys[k + 1..])
  {
    assert ys == ys[..k] + [ys[k]] + ys[k + 1..];
  }

  lemma {:induction false} SameRest<T>(a: multiset<T>, b: multiset<T>, x: T)
    requires multiset{x} + a == multiset{x} + b
    ensures a == b
  {
    forall y ensures a[y] == b[y] {
      assert (multiset{x} + a)[y] == (multiset{x} + b)[y];
    }
  }

  /** The keys of a sequence, as a multiset, depend on its elements as a multiset. */
  lemma {:induction false} BagOfMultiset<T>(xs: seq<T>, ys: seq<T>, key: T -> seq<real>)
    requires multiset(xs) == multiset(ys)
    ensures KeyBag(xs, key) == KeyBag(ys, key)
    decreases |xs|
  {
    if xs == [] {
      EmptyBag(ys);
    } else {
      HeadTail(xs);
      var k := Find(ys, xs[0]);
      TakeOut(ys, k);
      SameRest(multiset(xs[1..]), multiset(ys[..k] + ys[k + 1..]), xs[0]);
      BagOfMultiset(xs[1..], ys[..k] + ys[k + 1..], key);
      BagWithout(ys, k, key);
    }
  }

  lemma {:induction false} SortedKeysUnique(a: seq<seq<real>>, b: seq<seq<real>>)
    requires Ordered(a) && Ordered(b) && multiset(a) == multiset(b)
    ensures a == b
    decreases |a|
  {
    if a == [] {
      EmptyBag(b);
    } else {
      hide Ordered, LexLess;
      HeadTail(a);
      var k := Find(b, a[0]);
      HeadTail(b);
      var i := Find(a, b[0]);
      LeastFirst(a, b[0]);
      LeastFirst(b, a[0]);
      LexTotal(a[0], b[0]);
      SameRest(multiset(a[1..]), multiset(b[1..]), a[0]);
      OrderedTail(a);
      OrderedTail(b);
      SortedKeysUnique(a[1..], b[1..]);
      assert a == [a[0]] + a[1..] && b == [b[0]] + b[1..];
    }
  }

  predicate Ordered(keys: seq<seq<real>>) {
    forall i, j | 0 <= i < j < |keys| :: Before(keys[i], keys[j])
  }

  lemma {:induction false} OrderedTail(keys: seq<seq<real>>)
    requires Ordered(keys) && keys != []
    ensures Ordered(keys[1..])
  {
  }

  lemma {:induction false} LeastFirst(keys: seq<seq<real>>, k: seq<real>)
    requires Ordered(keys) && k in keys
    ensures Before(keys[0], k)
  {
    var i :| 0 <= i < |keys| && keys[i] == k;
    LexTotal(k, k);
  }

  /** Two sorted arrangements of the same elements show the same keys, whatever the ties. */
  lemma {:induction false} SortedAgree<T>(xs: seq<T>, ys: seq<T>, key: T -> seq<real>)
    requires Sorted(xs, key) && Sorted(ys, key) && multiset(xs) == multiset(ys)
    ensures Keys(xs, key) == Keys(ys, key)
  {
    KeysOf(xs, key);
    KeysOf(ys, key);
    BagOfMultiset(xs, ys, key);
    SortedKeysUnique(Keys(xs, key), Keys(ys, key));
  }

  ghost predicate KeyDecides<T>(xs: seq<T>, key: T -> seq<real>) {
    forall i, j | 0 <= i < |xs| && 0 <= j < |xs| && key(xs[i]) == key(xs[j]) :: xs[i] == xs[j]
  }

  /** When elements with the same key are the same element, there is one sorted arrangement only. */
  lemma {:induction false} SortedUnique<T>(xs: seq<T>, ys: seq<T>, key: T -> seq<real>)
    requires Sorted(xs, key) && Sorted(ys, key) && multiset(xs) == multiset(ys) && KeyDecides(xs, key)
    ensures xs == ys
  {
    SortedAgree(xs, ys, key);
    assert |xs| == |Keys(xs, key)| == |Keys(ys, key)| == |ys|;
    forall i | 0 <= i < |xs| ensures xs[i] == ys[i] {
      assert Keys(xs, key)[i] == Keys(ys, key)[i];
      assert ys[i] in multiset(xs);
      var j :| 0 <= j < |xs| && xs[j] == ys[i];
      assert key(xs[i]) == key(xs[j]);
    }
  }

  /** Every bag of elements has a sorted arrangement. */
  lemma {:induction false} SortedExists<T>(bag: multiset<T>, key: T -> seq<real>) returns (ys: seq<T>)
    ensures multiset(ys) == bag && Sorted(ys, key)
    decreases |bag|
  {
    if |bag| == 0 { return []; }
    var x :| x in bag;
    var rest := SortedExists(bag - multiset{x}, key);
    ys := Inserted(rest, x, key);
    assert bag == bag - multiset{x} + multiset{x};
  }

  lemma {:induction false} Inserted<T>(ys: seq<T>, x: T, key: T -> seq<real>) returns (zs: seq<T>)
    requires Sorted(ys, key)
    ensures Sorted(zs, key) && multiset(zs) == multiset(ys) + multiset{x}
  {
    var k := 0;
    while k < |ys| && !LexLess(key(x), key(ys[k]))
      invariant 0 <= k <= |ys| && forall j | 0 <= j < k :: Before(key(ys[j]), key(x))
    {
      k := k + 1;
    }
    InsertSorted(ys, k, x, key);
    assert ys == ys[..k] + ys[k..];
    zs := ys[..k] + [x] + ys[k..];
  }

  /** The standard library's sort: all that is used of it is that it arranges its input in order. */
  method SortBy<T>(xs: seq<T>, key: T -> seq<real>) returns (ys: seq<T>)
    ensures multiset(ys) == multiset(xs) && Sorted(ys, key)
  {
    ys := [];
    for i := 0 to |xs|
      invariant multiset(ys) == multiset(xs[..i]) && Sorted(ys, key)
    {
      var k := 0;
      while k < |ys| && !LexLess(key(xs[i]), key(ys[k]))
        invariant 0 <= k <= |ys| && forall j | 0 <= j < k :: Before(key(ys[j]), key(xs[i]))
      {
        k := k + 1;
      }
      InsertSorted(ys, k, xs[i], key);
      assert xs[..i + 1] == xs[..i] + [xs[i]];
      assert ys == ys[..k] + ys[k..];
      ys := ys[..k] + [xs[i]] + ys[k..];
    }
    assert xs[..|xs|] == xs;
  }

  lemma {:induction false} InsertSorted<T>(ys: seq<T>, k: int, x: T, key: T -> seq<real>)
    requires Sorted(ys, key) && 0 <= k <= |ys| && (k < |ys| ==> LexLess(key(x), key(ys[k])))
    requires forall j | 0 <= j < k :: Before(key(ys[j]), key(x))
    ensures Sorted(ys[..k] + [x] + ys[k..], key)
  {
    hide LexLess;
    var zs := ys[..k] + [x] + ys[k..];
    forall i, j | 0 <= i < j < |zs| ensures Before(key(zs[i]), key(zs[j])) {
      if i == k {
        LexTotal(key(x), key(ys[k]));
        if j - 1 > k { BeforeTransitive(key(x), key(ys[k]), key(ys[j - 1])); }
      }
    }
  }
}
