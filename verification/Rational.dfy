/** Rational approximation of reals by continued fractions, and exact arithmetic on the fractions found. */
module Rational {
  import opened Integers

  const TOLERANCE: real := 0.00000000000001
  const INT64_MAX: int := 9223372036854775807
  const DEFAULT_MAX_DENOMINATOR: int := 10000000

  function AbsReal(x: real): real {
    if x < 0.0 then -x else x
  }

  // ---------------------------------------------------------------- continued fractions

  /** q x - p. */
  function Residue(x: real, p: int, q: int): real {
    q as real * x - p as real
  }

  /** |p/q - x| <= tol, for a positive denominator. */
  predicate Approximates(x: real, p: int, q: int, tol: real) {
    q >= 1 && AbsReal(Residue(x, p, q)) <= tol * q as real
  }

  /**
   * Two consecutive convergents p0/q0 and p1/q1 of x, with determinant 1 or -1, and the complete quotient
   * `val` that continues the expansion.
   */
  predicate Convergents(x: real, val: real, p0: int, q0: int, p1: int, q1: int) {
    && (p1 * q0 - p0 * q1 == 1 || p1 * q0 - p0 * q1 == -1)
    && q0 >= 0 && q1 >= 0 && q0 + q1 >= 1
    && val * Residue(x, p1, q1) + Residue(x, p0, q0) == 0.0
    && Residue(x, p1, q1) != 0.0
    && AbsReal(Residue(x, p1, q1)) <= 1.0
  }

  lemma {:induction false} StartConvergents(x: real)
    ensures Convergents(x, x, 0, 1, 1, 0)
  {
  }

  lemma {:induction false} NextResidue(x: real, val: real, a: int, p0: int, q0: int, p1: int, q1: int)
    requires Convergents(x, val, p0, q0, p1, q1)
    ensures Residue(x, a * p1 + p0, a * q1 + q0) == (a as real - val) * Residue(x, p1, q1)
  {
    ResidueCombination(x, a, 1, p1, q1, p0, q0);
    var e := Residue(x, p1, q1);
    assert a as real * e - val * e == (a as real - val) * e;
  }

  /** Residues are linear in the fraction. */
  lemma {:induction false} ResidueCombination(x: real, i: int, j: int, p: int, q: int, r: int, s: int)
    ensures Residue(x, i * p + j * r, i * q + j * s) == i as real * Residue(x, p, q) + j as real * Residue(x, r, s)
  {
    assert (i * p + j * r) as real == i as real * p as real + j as real * r as real;
    assert (i * q + j * s) as real == i as real * q as real + j as real * s as real;
    assert (i as real * q as real + j as real * s as real) * x == i as real * (q as real * x) + j as real * (s as real * x);
    assert i as real * (q as real * x - p as real) == i as real * (q as real * x) - i as real * p as real;
    assert j as real * (s as real * x - r as real) == j as real * (s as real * x) - j as real * r as real;
  }

  lemma {:induction false} StepConvergents(x: real, val: real, p0: int, q0: int, p1: int, q1: int, rem: real)
    requires Convergents(x, val, p0, q0, p1, q1) && val >= 0.0
    requires rem == val - val.Floor as real && rem > 0.0
    ensures Convergents(x, 1.0 / rem, p1, q1, val.Floor * p1 + p0, val.Floor * q1 + q0)
    ensures AbsReal(Residue(x, val.Floor * p1 + p0, val.Floor * q1 + q0)) == rem * AbsReal(Residue(x, p1, q1))
  {
    hide Residue;
    var a := val.Floor;
    var p2, q2 := a * p1 + p0, a * q1 + q0;
    var e := Residue(x, p1, q1);
    NextResidue(x, val, a, p0, q0, p1, q1);
    var e2 := Residue(x, p2, q2);
    assert e2 == -rem * e;
    Determinant(a, p0, q0, p1, q1);
    InverseStep(rem, e, e2);
    assert 0 <= a * q1;
    assert q1 + q2 >= 1 by { if q1 == 0 { assert q2 == q0; } }
  }

  lemma {:induction false} InverseStep(rem: real, e: real, e2: real)
    requires 0.0 < rem < 1.0 && e2 == -rem * e && e != 0.0 && AbsReal(e) <= 1.0
    ensures (1.0 / rem) * e2 + e == 0.0 && e2 != 0.0 && AbsReal(e2) == rem * AbsReal(e) <= 1.0
  {
    var w := 1.0 / rem;
    assert w * rem == 1.0;
    assert w * e2 == -(w * rem) * e;
    assert rem * AbsReal(e) <= AbsReal(e) by { assert (1.0 - rem) * AbsReal(e) >= 0.0; }
  }

  lemma {:induction false} Determinant(a: int, p0: int, q0: int, p1: int, q1: int)
    ensures (a * p1 + p0) * q1 - p1 * (a * q1 + q0) == -(p1 * q0 - p0 * q1)
  {
    assert (a * p1 + p0) * q1 == a * (p1 * q1) + p0 * q1;
    assert p1 * (a * q1 + q0) == a * (p1 * q1) + p1 * q0;
  }

  // ---------------------------------------------------------------- best approximation

  /** Every fraction is an integer combination of two fractions with determinant 1 or -1. */
  lemma {:induction false} Decompose(p: int, q: int, r: int, s: int, a: int, b: int) returns (i: int, j: int)
    requires p * s - r * q == 1 || p * s - r * q == -1
    ensures a == i * p + j * r && b == i * q + j * s
  {
    var d := p * s - r * q;
    i, j := d * (a * s - b * r), d * (b * p - a * q);
    assert (a * s - b * r) * p + (b * p - a * q) * r == a * (p * s - r * q);
    assert (a * s - b * r) * q + (b * p - a * q) * s == b * (p * s - r * q);
    ScaleDeterminant(d, a * s - b * r, p, b * p - a * q, r, a);
    ScaleDeterminant(d, a * s - b * r, q, b * p - a * q, s, b);
  }

  lemma {:induction false} ScaleDeterminant(d: int, k: int, p: int, l: int, r: int, a: int)
    requires (d == 1 || d == -1) && k * p + l * r == a * d
    ensures a == (d * k) * p + (d * l) * r
  {
    assert (d * k) * p + (d * l) * r == d * (k * p + l * r);
  }

  lemma {:induction false} SameSignSum(i: real, e: real, j: real, f: real)
    requires (i >= 0.0 && j <= 0.0) || (i <= 0.0 && j >= 0.0)
    requires (e >= 0.0 && f <= 0.0) || (e <= 0.0 && f >= 0.0)
    ensures AbsReal(i * e + j * f) == AbsReal(i) * AbsReal(e) + AbsReal(j) * AbsReal(f)
  {
    SignedProduct(i, e);
    SignedProduct(j, f);
  }

  lemma {:induction false} RealProduct(n: real, d: real)
    requires n > 0.0
    ensures d > 0.0 ==> n * d > 0.0
    ensures d <= 0.0 ==> n * d <= 0.0
  {
  }

  lemma {:induction false} SignedProduct(i: real, e: real)
    ensures AbsReal(i * e) == AbsReal(i) * AbsReal(e)
    ensures (i >= 0.0 && e >= 0.0) || (i <= 0.0 && e <= 0.0) ==> i * e >= 0.0
    ensures (i >= 0.0 && e <= 0.0) || (i <= 0.0 && e >= 0.0) ==> i * e <= 0.0
  {
    assert i * e == (-i) * (-e);
    assert (-i) * e == -(i * e) && i * (-e) == -(i * e);
  }

  /** Neighbours c and d of x on opposite sides: any other fraction is a combination of them. */
  predicate Straddle(x: real, p: int, q: int, r: int, s: int) {
    && (p * s - r * q == 1 || p * s - r * q == -1)
    && q >= 1 && s >= 1
    && ((Residue(x, p, q) >= 0.0 && Residue(x, r, s) <= 0.0) || (Residue(x, p, q) <= 0.0 && Residue(x, r, s) >= 0.0))
  }

  /** A fraction with a denominator below q + s is a multiple of one neighbour, less some of the other. */
  lemma {:induction false} OppositeSigns(q: int, s: int, b: int, i: int, j: int)
    requires q >= 1 && s >= 1 && 1 <= b < q + s && b == i * q + j * s
    ensures (i >= 1 && j <= 0) || (i <= 0 && j >= 1)
  {
    TimesPositive(i, q);
    TimesPositive(j, s);
  }

  lemma {:induction false} PositiveCombination(i: real, j: real, e: real, f: real, ie: real, jf: real)
    requires i >= 1.0 && j >= 0.0 && e >= 0.0 && f >= 0.0 && ie == i * e && jf == j * f
    ensures ie + jf >= e
  {
    assert (i - 1.0) * e >= 0.0;
  }

  lemma {:induction false} CombinationAtLeast(i: real, j: real, e: real, f: real, total: real)
    requires total == i * e + j * f
    requires (i >= 1.0 && j <= 0.0) || (i <= -1.0 && j >= 0.0)
    requires (e >= 0.0 && f <= 0.0) || (e <= 0.0 && f >= 0.0)
    ensures AbsReal(e) <= AbsReal(total)
  {
    var ie, jf := i * e, j * f;
    NegatedProduct(i, e);
    NegatedProduct(j, f);
    if e == 0.0 { return; }
    if i >= 1.0 && e >= 0.0 {
      PositiveCombination(i, -j, e, -f, ie, jf);
    } else if i >= 1.0 {
      PositiveCombination(i, -j, -e, f, -ie, -jf);
    } else if e >= 0.0 {
      PositiveCombination(-i, j, e, -f, -ie, -jf);
    } else {
      PositiveCombination(-i, j, -e, f, ie, jf);
    }
  }

  lemma {:induction false} NegatedProduct(i: real, e: real)
    ensures (-i) * (-e) == i * e && (-i) * e == -(i * e) && i * (-e) == -(i * e)
  {
  }

  /** Residues of fractions with a denominator below s are at least that of the neighbour p/q. */
  lemma {:induction false} BestResidue(x: real, p: int, q: int, r: int, s: int, a: int, b: int)
    requires Straddle(x, p, q, r, s) && 1 <= b < s
    ensures AbsReal(Residue(x, p, q)) <= AbsReal(Residue(x, a, b))
  {
    hide Residue, AbsReal;
    var i, j := Decompose(p, q, r, s, a, b);
    var e, f := Residue(x, p, q), Residue(x, r, s);
    ResidueCombination(x, i, j, p, q, r, s);
    OppositeSigns(q, s, b, i, j);
    NotZero(q, s, b, i, j);
    CombinationAtLeast(i as real, j as real, e, f, Residue(x, a, b));
  }

  lemma {:induction false} NotZero(q: int, s: int, b: int, i: int, j: int)
    requires q >= 1 && s >= 1 && 1 <= b < s && b == i * q + j * s
    ensures i != 0
  {
    TimesPositive(j, s);
  }

  /** Among the fractions with a denominator below q + s, one of the two neighbours is closest. */
  lemma {:induction false} ClosestNeighbour(x: real, p: int, q: int, r: int, s: int, a: int, b: int, tol: real)
    requires Straddle(x, p, q, r, s) && 1 <= b < q + s && tol >= 0.0
    requires Approximates(x, a, b, tol)
    ensures Approximates(x, p, q, tol) || Approximates(x, r, s, tol)
  {
    hide Residue;
    var i, j := Decompose(p, q, r, s, a, b);
    var e, f := Residue(x, p, q), Residue(x, r, s);
    ResidueCombination(x, i, j, p, q, r, s);
    OppositeSigns(q, s, b, i, j);
    SameSignSum(i as real, e, j as real, f);
    NeighbourCases(i, q, AbsReal(e), j, s, AbsReal(f), b, AbsReal(Residue(x, a, b)), tol);
  }

  lemma {:induction false} NeighbourCases(i: int, q: int, e: real, j: int, s: int, f: real, b: int, total: real, tol: real)
    requires q >= 1 && s >= 1 && b == i * q + j * s && e >= 0.0 && f >= 0.0 && tol >= 0.0
    requires (i >= 1 && j <= 0) || (i <= 0 && j >= 1)
    requires total == AbsReal(i as real) * e + AbsReal(j as real) * f && total <= tol * b as real
    ensures e <= tol * q as real || f <= tol * s as real
  {
    if i >= 1 {
      CloserThan(i, q, e, b, total, tol, j, s, f);
    } else {
      CloserThan(j, s, f, b, total, tol, i, q, e);
    }
  }

  lemma {:induction false} CloserThan(i: int, q: int, e: real, b: int, total: real, tol: real, j: int, s: int, f: real)
    requires i >= 1 && j <= 0 && q >= 1 && s >= 1 && b == i * q + j * s && e >= 0.0 && f >= 0.0 && tol >= 0.0
    requires total == i as real * e + AbsReal(j as real) * f && total <= tol * b as real
    ensures e <= tol * q as real
  {
    TimesPositive(j, s);
    assert b <= i * q;
    var n := i as real;
    assert AbsReal(j as real) * f >= 0.0;
    assert (i * q) as real == n * q as real;
    assert tol * b as real <= tol * (n * q as real) by { assert tol * (n * q as real - b as real) >= 0.0; }
    assert n * e <= n * (tol * q as real);
    RealProduct(n, e - tol * q as real);
  }

  /** The neighbour of p1/q1 with the largest denominator not above `maxDen`: a semiconvergent. */
  function SemiStep(q0: int, q1: int, maxDen: int): int
    requires q1 >= 1
  {
    (maxDen - q0) / q1
  }

  lemma {:induction false} SemiStraddles(x: real, val: real, p0: int, q0: int, p1: int, q1: int, maxDen: int)
    requires Convergents(x, val, p0, q0, p1, q1) && val >= 0.0 && 1 <= q1 <= maxDen && 0 <= q0 <= maxDen
    requires val.Floor * q1 + q0 > maxDen
    ensures var u := SemiStep(q0, q1, maxDen);
            && Straddle(x, p1, q1, u * p1 + p0, u * q1 + q0)
            && u * q1 + q0 <= maxDen < q1 + (u * q1 + q0)
  {
    hide Residue;
    var u := SemiStep(q0, q1, maxDen);
    assert u * q1 <= maxDen - q0 < u * q1 + q1;
    Determinant(u, p0, q0, p1, q1);
    BelowQuotient(u, val.Floor, q1, maxDen - q0);
    NextResidue(x, val, u, p0, q0, p1, q1);
    var e := Residue(x, p1, q1);
    SignedProduct(u as real - val, e);
  }

  lemma {:induction false} BelowQuotient(u: int, a: int, q: int, w: int)
    requires q >= 1 && 0 <= w < a * q && u * q <= w < u * q + q
    ensures 0 <= u < a
  {
    TimesPositive(u - a, q);
    TimesPositive(u, q);
  }

  /** What the loop has when the next denominator would be too large. */
  predicate StoppedByDenominator(x: real, val: real, p0: int, q0: int, p1: int, q1: int, maxDen: int) {
    Convergents(x, val, p0, q0, p1, q1) && val >= 0.0 && q1 <= maxDen && q0 <= maxDen && val.Floor * q1 + q0 > maxDen
  }

  /** The last convergent within the limit is a best approximation: no smaller residue within the limit. */
  lemma {:induction false} ConvergentIsBest(x: real, val: real, p0: int, q0: int, p1: int, q1: int, maxDen: int, a: int, b: int)
    requires StoppedByDenominator(x, val, p0, q0, p1, q1, maxDen) && q1 >= 1 && 1 <= b <= maxDen
    ensures AbsReal(Residue(x, p1, q1)) <= AbsReal(Residue(x, a, b))
  {
    hide Residue;
    var n := val.Floor;
    Determinant(n, p0, q0, p1, q1);
    NextResidue(x, val, n, p0, q0, p1, q1);
    SignedProduct(n as real - val, Residue(x, p1, q1));
    BestResidue(x, p1, q1, n * p1 + p0, n * q1 + q0, a, b);
  }

  lemma {:induction false} ConvergentsCoprime(x: real, val: real, p0: int, q0: int, p1: int, q1: int)
    requires Convergents(x, val, p0, q0, p1, q1)
    ensures Coprime(p1, q1)
  {
    var d := p1 * q0 - p0 * q1;
    assert (d * q0) * p1 + (-d * p0) * q1 == d * (p1 * q0 - p0 * q1);
    CoprimeBy(p1, q1, d * q0, -d * p0);
  }

  // ---------------------------------------------------------------- the loop

  /** How the loop ends: on a quotient above 63 bits, on a small remainder, or before too large a denominator. */
  datatype Exit =
    | Overflow
    | ByRemainder(p: int, q: int)
    | ByDenominator(val: real, p0: int, q0: int, p: int, q: int)

  /** Before the first step the convergents are 0/1 and 1/0; afterwards their denominators are within the limit. */
  predicate Shape(val: real, q0: int, q1: int, maxDen: int) {
    val >= 0.0 && ((q1 == 0 && q0 == 1) || (1 <= q1 <= maxDen && 0 <= q0 <= maxDen && 1.0 < val <= 100000000000000.0))
  }

  /** Termination measure of the loop: denominators grow, or the first step turns (1, 0) into (0, 1). */
  function Progress(q0: int, q1: int, maxDen: int): int {
    2 * (if maxDen > 1 then maxDen else 1) + 1 - q0 - q1 + if q1 == 0 then 1 else 0
  }

  function Expand(val: real, p0: int, q0: int, p1: int, q1: int, maxDen: int): Exit
    requires Shape(val, q0, q1, maxDen)
    decreases Progress(q0, q1, maxDen)
  {
    var a := val.Floor;
    if a > INT64_MAX then Overflow
    else
      var p2, q2 := a * p1 + p0, a * q1 + q0;
      if q2 > maxDen then ByDenominator(val, p0, q0, p1, q1)
      else
        var rem := val - a as real;
        if rem < TOLERANCE then ByRemainder(p2, q2)
        else
          NextShape(val, q0, q1, maxDen);
          Expand(1.0 / rem, p1, q1, p2, q2, maxDen)
  }

  lemma {:induction false} NextShape(val: real, q0: int, q1: int, maxDen: int)
    requires Shape(val, q0, q1, maxDen)
    ensures var a := val.Floor;
            var rem := val - a as real;
            a * q1 + q0 <= maxDen && rem >= TOLERANCE ==>
              && Shape(1.0 / rem, q1, a * q1 + q0, maxDen)
              && 0 <= Progress(q1, a * q1 + q0, maxDen) < Progress(q0, q1, maxDen)
  {
    var a := val.Floor;
    var rem := val - a as real;
    if a * q1 + q0 <= maxDen {
      GrowingDenominator(a, q0, q1, a * q1 + q0, maxDen);
      if rem >= TOLERANCE { InverseBounds(rem); }
    }
  }

  lemma {:induction false} InverseBounds(rem: real)
    requires TOLERANCE <= rem < 1.0
    ensures 1.0 < 1.0 / rem <= 100000000000000.0
  {
    var w := 1.0 / rem;
    assert w * rem == 1.0;
    RealProduct(rem, w - 1.0);
    RealProduct(rem, w - 100000000000000.0);
  }

  lemma {:induction false} GrowingDenominator(a: int, q0: int, q1: int, q2: int, maxDen: int)
    requires a >= 0 && q2 == a * q1 + q0 && q2 <= maxDen
    requires (q1 == 0 && q0 == 1) || (1 <= q1 <= maxDen && 0 <= q0 <= maxDen && a >= 1)
    ensures 1 <= q2 && 0 <= q1 <= maxDen
    ensures 0 <= Progress(q1, q2, maxDen) < Progress(q0, q1, maxDen)
  {
    if q1 >= 1 { TimesPositive(a, q1); }
  }

  function Expansion(x: real, maxDen: int): Exit
    requires x >= 0.0
  {
    Expand(x, 0, 1, 1, 0, maxDen)
  }

  /** What each way out of the loop leaves for the non-negative number `x`. */
  ghost predicate ExitOk(x: real, maxDen: int, e: Exit) {
    match e
    case Overflow => true
    case ByRemainder(p, q) => 1 <= q <= maxDen && AbsReal(Residue(x, p, q)) < TOLERANCE && Coprime(p, q)
    case ByDenominator(val, p0, q0, p, q) =>
      (q >= 1 && q0 >= 0 && StoppedByDenominator(x, val, p0, q0, p, q, maxDen)) || (maxDen < 1 && p == 1 && q == 0)
  }

  lemma {:induction false} RemainderExit(x: real, p1: int, q1: int, rem: real, e: real)
    requires rem < TOLERANCE && 0.0 <= rem && AbsReal(e) <= 1.0 && AbsReal(Residue(x, p1, q1)) == rem * AbsReal(e)
    ensures AbsReal(Residue(x, p1, q1)) < TOLERANCE
  {
    assert rem * AbsReal(e) <= rem by { assert rem * (1.0 - AbsReal(e)) >= 0.0; }
  }

  lemma {:induction false} ZeroRemainder(x: real, val: real, p0: int, q0: int, p1: int, q1: int)
    requires Convergents(x, val, p0, q0, p1, q1) && val == val.Floor as real
    ensures Residue(x, val.Floor * p1 + p0, val.Floor * q1 + q0) == 0.0
  {
    NextResidue(x, val, val.Floor, p0, q0, p1, q1);
  }

  lemma {:induction false} RemainderCases(x: real, val: real, p0: int, q0: int, p1: int, q1: int, rem: real)
    requires Convergents(x, val, p0, q0, p1, q1) && val >= 0.0 && rem == val - val.Floor as real && rem < TOLERANCE
    ensures AbsReal(Residue(x, val.Floor * p1 + p0, val.Floor * q1 + q0)) < TOLERANCE
    ensures Coprime(val.Floor * p1 + p0, val.Floor * q1 + q0)
  {
    hide Residue;
    var p2, q2 := val.Floor * p1 + p0, val.Floor * q1 + q0;
    if rem == 0.0 {
      ZeroRemainder(x, val, p0, q0, p1, q1);
    } else {
      StepConvergents(x, val, p0, q0, p1, q1, rem);
      RemainderExit(x, p2, q2, rem, Residue(x, p1, q1));
    }
    Determinant(val.Floor, p0, q0, p1, q1);
    var d := p1 * q0 - p0 * q1;
    assert (-d * q1) * p2 + (d * p1) * q2 == -d * (p2 * q1 - p1 * q2);
    CoprimeBy(p2, q2, -d * q1, d * p1);
  }

  /** The loop from any of its states ends well, and only a first quotient can overflow. */
  lemma {:induction false} ExpandEnds(x: real, val: real, p0: int, q0: int, p1: int, q1: int, maxDen: int)
    requires Convergents(x, val, p0, q0, p1, q1) && Shape(val, q0, q1, maxDen) && (q1 == 0 ==> p1 == 1)
    ensures var e := Expand(val, p0, q0, p1, q1, maxDen);
            ExitOk(x, maxDen, e) && (e.Overflow? <==> val.Floor > INT64_MAX)
    decreases Progress(q0, q1, maxDen)
  {
    hide Residue, Convergents, Progress, Coprime;
    var a := val.Floor;
    var p2, q2 := a * p1 + p0, a * q1 + q0;
    var rem := val - a as real;
    if a <= INT64_MAX {
      if q2 > maxDen {
        assert q1 >= 1 ==> StoppedByDenominator(x, val, p0, q0, p1, q1, maxDen);
      } else {
        GrowingDenominator(a, q0, q1, q2, maxDen);
        if rem < TOLERANCE {
          RemainderCases(x, val, p0, q0, p1, q1, rem);
        } else {
          StepConvergents(x, val, p0, q0, p1, q1, rem);
          NextShape(val, q0, q1, maxDen);
          ExpandEnds(x, 1.0 / rem, p1, q1, p2, q2, maxDen);
        }
      }
    }
  }

  lemma {:induction false} ExpansionEnds(x: real, maxDen: int)
    requires x >= 0.0
    ensures ExitOk(x, maxDen, Expansion(x, maxDen)) && (Expansion(x, maxDen).Overflow? <==> x.Floor > INT64_MAX)
  {
    hide Convergents, ExitOk;
    StartConvergents(x);
    ExpandEnds(x, x, 0, 1, 1, 0, maxDen);
  }

  /**
   * The continued-fraction loop on a non-negative number. The integer part is only guarded against 64-bit
   * overflow; everything after it is exact.
   */
  method ContinuedFraction(x: real, maxDen: int) returns (overflow: bool, p: int, q: int)
    requires x >= 0.0
    ensures overflow <==> x.Floor > INT64_MAX
    ensures !overflow ==> !Expansion(x, maxDen).Overflow? && p == Expansion(x, maxDen).p && q == Expansion(x, maxDen).q
    ensures ExitOk(x, maxDen, Expansion(x, maxDen))
  {
    hide ExitOk, Progress;
    ExpansionEnds(x, maxDen);
    var val := x;
    var p0, q0, p1, q1 := 0, 1, 1, 0;
    while true
      invariant Shape(val, q0, q1, maxDen) && Expand(val, p0, q0, p1, q1, maxDen) == Expansion(x, maxDen)
      decreases Progress(q0, q1, maxDen)
    {
      var a := val.Floor;
      if a > INT64_MAX { return true, 0, 0; }
      var p2, q2 := a * p1 + p0, a * q1 + q0;
      if q2 > maxDen { return false, p1, q1; }
      NextShape(val, q0, q1, maxDen);
      p0, q0, p1, q1 := p1, q1, p2, q2;
      var rem := val - a as real;
      if rem < TOLERANCE { return false, p1, q1; }
      val := 1.0 / rem;
    }
  }

  // ---------------------------------------------------------------- the approximation as it is called

  /** No fraction with a denominator within the limit has a smaller residue. */
  ghost predicate BestWithin(x: real, maxDen: int, p: int, q: int) {
    forall a: int, b: int :: 1 <= b <= maxDen ==> AbsReal(Residue(x, p, q)) <= AbsReal(Residue(x, a, b))
  }

  /** A fraction in lowest terms within the limit, which is best, or closer than the tolerance. */
  ghost predicate Outcome(x: real, maxDen: int, p: int, q: int) {
    && 1 <= q <= maxDen && Coprime(p, q)
    && (BestWithin(x, maxDen, p, q) || AbsReal(Residue(x, p, q)) < TOLERANCE)
  }

  lemma {:induction false} ExitOutcome(x: real, maxDen: int, e: Exit)
    requires ExitOk(x, maxDen, e) && !e.Overflow? && maxDen >= 1
    ensures Outcome(x, maxDen, e.p, e.q)
    ensures e.ByRemainder? ==> Approximates(x, e.p, e.q, TOLERANCE)
    ensures e.ByDenominator? ==> BestWithin(x, maxDen, e.p, e.q)
  {
    hide Residue, Convergents, Coprime;
    match e
    case ByRemainder(p, q) =>
      assert TOLERANCE <= TOLERANCE * q as real;
    case ByDenominator(val, p0, q0, p, q) =>
      ConvergentsCoprime(x, val, p0, q0, p, q);
      forall a: int, b: int | 1 <= b <= maxDen
        ensures AbsReal(Residue(x, p, q)) <= AbsReal(Residue(x, a, b))
      {
        ConvergentIsBest(x, val, p0, q0, p, q, maxDen, a, b);
      }
  }

  lemma {:induction false} ResidueNegated(x: real, p: int, q: int)
    ensures Residue(-x, -p, q) == -Residue(x, p, q)
  {
  }

  lemma {:induction false} OutcomeNegated(x: real, maxDen: int, p: int, q: int)
    requires Outcome(x, maxDen, p, q)
    ensures Outcome(-x, maxDen, -p, q)
    ensures BestWithin(x, maxDen, p, q) ==> BestWithin(-x, maxDen, -p, q)
  {
    hide Residue;
    CoprimeNegated(p, q);
    ResidueNegated(x, p, q);
    if BestWithin(x, maxDen, p, q) {
      var y, r := -x, -p;
      forall a: int, b: int | 1 <= b <= maxDen
        ensures AbsReal(Residue(y, r, q)) <= AbsReal(Residue(y, a, b))
      {
        ResidueNegated(x, -a, b);
        assert -(-a) == a;
      }
    }
  }

  lemma {:induction false} QuotientError(x: real, p: int, q: int)
    requires q >= 1
    ensures Approximates(x, p, q, TOLERANCE) <==> AbsReal(p as real / q as real - x) <= TOLERANCE
  {
    var e, d := p as real / q as real - x, q as real;
    assert e * d == p as real - d * x;
    SignedProduct(e, d);
    RealProduct(d, AbsReal(e) - TOLERANCE);
  }

  lemma {:induction false} ApproximatesNegated(x: real, p: int, q: int)
    ensures Approximates(-x, -p, q, TOLERANCE) <==> Approximates(x, p, q, TOLERANCE)
  {
    hide Residue;
    ResidueNegated(x, p, q);
  }

  function Ending(x: real, maxDen: int): Exit {
    Expansion(AbsReal(x), maxDen)
  }

  /** The approximation of `x` reports success. */
  predicate Succeeds(x: real, maxDen: int) {
    var e := Ending(x, maxDen);
    maxDen >= 1 && !e.Overflow? && Approximates(AbsReal(x), e.p, e.q, TOLERANCE)
  }

  /** Leaving by the remainder test always means success. */
  lemma {:induction false} RemainderSucceeds(x: real, maxDen: int)
    requires Ending(x, maxDen).ByRemainder?
    ensures Succeeds(x, maxDen)
  {
    hide Residue, Coprime, Approximates, Outcome, Expansion;
    ExpansionEnds(AbsReal(x), maxDen);
    ExitOutcome(AbsReal(x), maxDen, Ending(x, maxDen));
  }

  /**
   * A fraction close to `x` with a bounded denominator. On overflow the out-parameters keep the caller's
   * values `num0` and `den0`; a limit below one yields denominator zero and failure.
   */
  method RationalApproximation(x: real, maxDen: int, num0: int, den0: int)
    returns (ok: bool, numerator: int, denominator: int)
    ensures ok <==> Succeeds(x, maxDen)
    ensures AbsReal(x).Floor > INT64_MAX ==> !ok && numerator == num0 && denominator == den0
    ensures AbsReal(x).Floor <= INT64_MAX && maxDen < 1 ==> !ok && denominator == 0
    ensures AbsReal(x).Floor <= INT64_MAX && maxDen >= 1 ==>
              && Outcome(x, maxDen, numerator, denominator)
              && (ok <==> Approximates(x, numerator, denominator, TOLERANCE))
              && (BestWithin(x, maxDen, numerator, denominator) || ok)
  {
    hide Residue, Outcome, BestWithin, Approximates, Expansion, Coprime, StoppedByDenominator;
    var overflow, p, q := ContinuedFraction(AbsReal(x), maxDen);
    ExpansionEnds(AbsReal(x), maxDen);
    if overflow { return false, num0, den0; }
    numerator, denominator := if x < 0.0 then -p else p, q;
    if maxDen < 1 {
      return false, numerator, 0;
    }
    ExitOutcome(AbsReal(x), maxDen, Ending(x, maxDen));
    OutcomePositive(AbsReal(x), maxDen, p, q);
    QuotientError(x, numerator, denominator);
    ok := AbsReal(numerator as real / denominator as real - x) <= TOLERANCE;
    if x < 0.0 {
      OutcomeNegated(AbsReal(x), maxDen, p, q);
      ApproximatesNegated(AbsReal(x), p, q);
      assert -AbsReal(x) == x;
    }
  }

  lemma {:induction false} OutcomePositive(x: real, maxDen: int, p: int, q: int)
    ensures Outcome(x, maxDen, p, q) ==> 1 <= q <= maxDen
  {
  }

  // ---------------------------------------------------------------- what a failure means

  /** Some fraction within the limit is within the tolerance. */
  ghost predicate Approximable(x: real, maxDen: int) {
    exists a: int, b: int :: b <= maxDen && Approximates(x, a, b, TOLERANCE)
  }

  lemma {:induction false} ApproximableNegated(x: real, maxDen: int)
    ensures Approximable(x, maxDen) ==> Approximable(-x, maxDen)
  {
    hide Approximates;
    if Approximable(x, maxDen) {
      var a: int, b: int :| b <= maxDen && Approximates(x, a, b, TOLERANCE);
      ApproximatesNegated(x, a, b);
      assert b <= maxDen && Approximates(-x, -a, b, TOLERANCE);
    }
  }

  lemma {:induction false} ApproximableAbs(x: real, maxDen: int)
    ensures Approximable(x, maxDen) <==> Approximable(AbsReal(x), maxDen)
  {
    hide Approximable;
    ApproximableNegated(x, maxDen);
    ApproximableNegated(-x, maxDen);
    assert -(-x) == x;
  }

  /** Success always means that a fraction within the limit is close enough. */
  lemma {:induction false} SuccessMeansApproximable(x: real, maxDen: int)
    requires Succeeds(x, maxDen)
    ensures Approximable(x, maxDen)
  {
    hide Approximates, Coprime, Residue, Convergents, Expansion;
    var e := Ending(x, maxDen);
    ExpansionEnds(AbsReal(x), maxDen);
    ExitOutcome(AbsReal(x), maxDen, e);
    assert e.q <= maxDen && Approximates(AbsReal(x), e.p, e.q, TOLERANCE);
    ApproximableAbs(x, maxDen);
  }

  /**
   * A close enough fraction within the limit is missed exactly when the loop leaves by the denominator test with a
   * convergent that is not close enough while the largest semiconvergent within the limit is.
   */
  lemma {:induction false} MissedIff(x: real, maxDen: int)
    requires maxDen >= 1 && AbsReal(x).Floor <= INT64_MAX
    ensures var e := Ending(x, maxDen);
            !Succeeds(x, maxDen) && Approximable(x, maxDen) <==>
            && e.ByDenominator? && e.q >= 1 && !Approximates(AbsReal(x), e.p, e.q, TOLERANCE)
            && Approximates(AbsReal(x), SemiStep(e.q0, e.q, maxDen) * e.p + e.p0, SemiStep(e.q0, e.q, maxDen) * e.q + e.q0, TOLERANCE)
  {
    hide Approximates, Coprime, Residue, Convergents, Expansion, SemiStep, Approximable, Outcome, BestWithin;
    var e := Ending(x, maxDen);
    ExpansionEnds(AbsReal(x), maxDen);
    ApproximableAbs(x, maxDen);
    if e.ByRemainder? {
      RemainderSucceeds(x, maxDen);
    } else {
      ClosestWithin(AbsReal(x), e.val, e.p0, e.q0, e.p, e.q, maxDen, TOLERANCE);
    }
  }

  lemma {:induction false} ClosestWithin(x: real, val: real, p0: int, q0: int, p1: int, q1: int, maxDen: int, tol: real)
    requires StoppedByDenominator(x, val, p0, q0, p1, q1, maxDen) && 1 <= q1 && 0 <= q0 && tol == TOLERANCE
    ensures var u := SemiStep(q0, q1, maxDen);
            Approximable(x, maxDen) <==>
            Approximates(x, p1, q1, tol) || Approximates(x, u * p1 + p0, u * q1 + q0, tol)
  {
    hide Residue, Approximates;
    var u := SemiStep(q0, q1, maxDen);
    SemiStraddles(x, val, p0, q0, p1, q1, maxDen);
    if Approximable(x, maxDen) {
      var a: int, b: int :| b <= maxDen && Approximates(x, a, b, TOLERANCE);
      ApproximatesPositive(x, a, b, tol);
      ClosestNeighbour(x, p1, q1, u * p1 + p0, u * q1 + q0, a, b, tol);
    }
  }

  lemma {:induction false} ApproximatesPositive(x: real, p: int, q: int, tol: real)
    requires Approximates(x, p, q, tol)
    ensures q >= 1
  {
  }

  // ---------------------------------------------------------------- limits for which the promise holds

  lemma {:induction false} CrossDifference(x: real, p: int, q: int, a: int, b: int)
    ensures (a * q - b * p) as real == b as real * Residue(x, p, q) - q as real * Residue(x, a, b)
  {
    assert (a * q) as real == a as real * q as real && (b * p) as real == b as real * p as real;
    assert b as real * (q as real * x - p as real) == b as real * q as real * x - b as real * p as real;
    assert q as real * (b as real * x - a as real) == b as real * q as real * x - a as real * q as real;
  }

  /** The limits whose neighbouring fractions are further apart than two tolerances can bridge. */
  predicate SmallLimit(maxDen: int) {
    maxDen <= 7071068
  }

  /** The limits that leave no room between a convergent and its tolerance. */
  predicate HugeLimit(maxDen: int) {
    maxDen >= 99999999999999
  }

  lemma {:induction false} ScaledAbs(b: real, e: real)
    requires b > 0.0
    ensures AbsReal(b * e) == b * AbsReal(e)
  {
    SignedProduct(b, e);
  }

  /** Two different fractions with residues e and f are far apart: b e + q f is at least one. */
  lemma {:induction false} DifferentApart(d: int, b: real, e: real, q: real, f: real)
    requires b > 0.0 && q > 0.0 && d != 0 && d as real == b * e - q * f
    ensures b * AbsReal(e) + q * AbsReal(f) >= 1.0
  {
    hide AbsReal;
    ScaledAbs(b, e);
    ScaledAbs(q, f);
    AbsDifference(b * e, q * f, d);
  }

  lemma {:induction false} AbsDifference(u: real, v: real, d: int)
    requires d != 0 && d as real == u - v
    ensures AbsReal(u) + AbsReal(v) >= 1.0
  {
  }

  /** Equal fractions have proportional residues. */
  lemma {:induction false} EqualErrors(e: real, f: real, q: real, b: real)
    requires b * e == q * f && f <= TOLERANCE * b && q >= 1.0 && b >= 1.0
    ensures e <= TOLERANCE * q
  {
    assert q * f <= q * (TOLERANCE * b) by { RealProduct(q, f - TOLERANCE * b); }
    assert q * (TOLERANCE * b) == b * (TOLERANCE * q);
    assert b * (e - TOLERANCE * q) <= 0.0;
    RealProduct(b, e - TOLERANCE * q);
  }

  lemma {:induction false} Proportional(b: real, e: real, q: real, f: real, be: real, qf: real)
    requires b > 0.0 && q > 0.0 && be == b * e && qf == q * f && be == qf
    ensures b * AbsReal(e) == q * AbsReal(f)
  {
    hide AbsReal;
    ScaledAbs(b, e);
    ScaledAbs(q, f);
  }

  lemma {:induction false} SameFraction(x: real, p: int, q: int, a: int, b: int)
    requires q >= 1 && a * q == b * p && Approximates(x, a, b, TOLERANCE)
    ensures Approximates(x, p, q, TOLERANCE)
  {
    hide Residue, AbsReal;
    CrossDifference(x, p, q, a, b);
    var e, f := Residue(x, p, q), Residue(x, a, b);
    assert a * q - b * p == 0;
    Proportional(b as real, e, q as real, f, b as real * e, q as real * f);
    EqualErrors(AbsReal(e), AbsReal(f), q as real, b as real);
  }

  /** A fraction close enough with denominator b and a better one with denominator q are closer than 1/(b q). */
  lemma {:induction false} TooClose(b: real, q: real, e: real, f: real, g: real, be: real, qf: real, bg: real, qg: real)
    requires 1.0 <= b <= 7071068.0 && 1.0 <= q && b + q <= 14142135.0 && 0.0 <= e <= f <= g && g == TOLERANCE * b
    requires be == b * e && qf == q * f && bg == b * g && qg == q * g
    ensures be + qf < 1.0
  {
    ScaleLe(b, e, g, be, bg);
    ScaleLe(q, f, g, qf, qg);
    SplitProduct(g, b, q, bg, qg);
    ScaleLe(g, b + q, 14142135.0, bg + qg, g * 14142135.0);
  }

  lemma {:induction false} ScaleLe(n: real, a: real, b: real, na: real, nb: real)
    requires n >= 0.0 && a <= b && na == n * a && nb == n * b
    ensures na <= nb
  {
    var d := b - a;
    assert n * d >= 0.0;
    assert n * d == nb - na;
  }

  lemma {:induction false} ScaleLt(n: real, a: real, b: real, na: real, nb: real)
    requires n > 0.0 && a < b && na == n * a && nb == n * b
    ensures na < nb
  {
    var d := b - a;
    RealProduct(n, d);
    assert n * d == nb - na;
  }

  lemma {:induction false} SplitProduct(g: real, b: real, q: real, bg: real, qg: real)
    requires bg == b * g && qg == q * g
    ensures bg + qg == g * (b + q)
  {
  }

  lemma {:induction false} SameDenominator(x: real, p: int, a: int, q: int)
    requires 1 <= q <= 7071068
    requires AbsReal(Residue(x, p, q)) <= AbsReal(Residue(x, a, q)) <= TOLERANCE * q as real
    ensures p == a
  {
    assert TOLERANCE * q as real <= 0.1;
    assert Residue(x, p, q) - Residue(x, a, q) == (a - p) as real;
  }

  lemma {:induction false} NoOther(x: real, p: int, q: int, a: int, b: int)
    requires 1 <= q <= 7071068 && b <= 7071068 && Approximates(x, a, b, TOLERANCE)
    requires AbsReal(Residue(x, p, q)) <= AbsReal(Residue(x, a, b))
    ensures a * q == b * p
  {
    hide Residue, AbsReal;
    if b == q {
      SameDenominator(x, p, a, q);
    } else if a * q != b * p {
      var e, f := Residue(x, p, q), Residue(x, a, b);
      CrossDifference(x, p, q, a, b);
      AbsNonnegative(e);
      DifferentApart(a * q - b * p, b as real, e, q as real, f);
      NotBoth(b as real, q as real, AbsReal(e), AbsReal(f));
    }
  }

  lemma {:induction false} NotBoth(b: real, q: real, e: real, f: real)
    requires 1.0 <= b <= 7071068.0 && 1.0 <= q && b + q <= 14142135.0 && 0.0 <= e <= f <= TOLERANCE * b
    ensures b * e + q * f < 1.0
  {
    var g := TOLERANCE * b;
    TooClose(b, q, e, f, g, b * e, q * f, b * g, q * g);
  }

  lemma {:induction false} AbsNonnegative(x: real)
    ensures AbsReal(x) >= 0.0
  {
  }

  /** Up to 7071068 a failure means that nothing within the limit is close enough. */
  lemma {:induction false} SmallLimitKeepsPromise(x: real, maxDen: int)
    requires SmallLimit(maxDen) && AbsReal(x).Floor <= INT64_MAX && Approximable(x, maxDen)
    ensures Succeeds(x, maxDen)
  {
    hide Approximates, Coprime, Residue, Convergents, Expansion, StoppedByDenominator, AbsReal, Approximable;
    var y, e := AbsReal(x), Ending(x, maxDen);
    AbsNonnegative(x);
    ApproximableAbs(x, maxDen);
    var a, b := CloseFraction(y, maxDen);
    ExpansionEnds(y, maxDen);
    ExitOutcome(y, maxDen, e);
    if e.ByDenominator? {
      NoOther(y, e.p, e.q, a, b);
      SameFraction(y, e.p, e.q, a, b);
    }
  }

  lemma {:induction false} CloseFraction(x: real, maxDen: int) returns (a: int, b: int)
    requires Approximable(x, maxDen)
    ensures 1 <= b <= maxDen && Approximates(x, a, b, TOLERANCE)
  {
    a, b :| b <= maxDen && Approximates(x, a, b, TOLERANCE);
    ApproximatesPositive(x, a, b, TOLERANCE);
  }

  /** The residue of a convergent is at most one over the next denominator. */
  lemma {:induction false} ConvergentResidue(x: real, val: real, p0: int, q0: int, p1: int, q1: int)
    requires Convergents(x, val, p0, q0, p1, q1) && val >= 0.0 && q1 >= 1
    ensures (val.Floor * q1 + q0) as real * AbsReal(Residue(x, p1, q1)) <= 1.0
  {
    hide Residue, AbsReal;
    var a := val.Floor;
    var p2, q2 := a * p1 + p0, a * q1 + q0;
    var e, f := Residue(x, p1, q1), Residue(x, p2, q2);
    Determinant(a, p0, q0, p1, q1);
    CrossDifference(x, p1, q1, p2, q2);
    NextResidue(x, val, a, p0, q0, p1, q1);
    TimesPositive(a, q1);
    OppositeShares(p2 * q1 - q2 * p1, q2 as real, e, q1 as real, f, val - a as real);
  }

  /** With residues of opposite signs the shares q2 |e| and q1 |f| add up to one. */
  lemma {:induction false} OppositeShares(d: int, q2: real, e: real, q1: real, f: real, c: real)
    requires (d == 1 || d == -1) && d as real == q2 * e - q1 * f && f == -c * e && 0.0 <= c && q1 >= 0.0 && q2 >= 0.0
    ensures q2 * AbsReal(e) <= 1.0
  {
    var g := c * e;
    assert q1 * f == -(q1 * g);
    if e >= 0.0 {
      assert g >= 0.0 && q1 * g >= 0.0 && q2 * e >= 0.0;
    } else {
      assert c * (-e) >= 0.0;
      assert q1 * (-g) >= 0.0 && q2 * (-e) >= 0.0;
    }
  }

  /** From 99999999999999 on the approximation always succeeds. */
  lemma {:induction false} HugeLimitSucceeds(x: real, maxDen: int)
    requires HugeLimit(maxDen) && AbsReal(x).Floor <= INT64_MAX
    ensures Succeeds(x, maxDen)
  {
    hide Coprime, Residue, Convergents, Expansion, AbsReal;
    var y, e := AbsReal(x), Ending(x, maxDen);
    AbsNonnegative(x);
    ExpansionEnds(y, maxDen);
    if e.ByRemainder? {
      RemainderSucceeds(x, maxDen);
    } else {
      ConvergentResidue(y, e.val, e.p0, e.q0, e.p, e.q);
      AbsNonnegative(Residue(y, e.p, e.q));
      WithinTolerance((e.val.Floor * e.q + e.q0) as real, AbsReal(Residue(y, e.p, e.q)));
      assert TOLERANCE <= TOLERANCE * e.q as real;
    }
  }

  lemma {:induction false} WithinTolerance(q: real, e: real)
    requires q >= 100000000000000.0 && e >= 0.0 && q * e <= 1.0
    ensures e <= TOLERANCE
  {
    assert (q - 100000000000000.0) * e >= 0.0;
  }

  // ---------------------------------------------------------------- limits for which it does not

  /**
   * Two neighbours of x within the limit: p/q has the smaller residue but is not close enough, r/s has the larger
   * residue and is close enough.
   */
  predicate Misleading(x: real, maxDen: int, p: int, q: int, r: int, s: int) {
    && Straddle(x, p, q, r, s) && q <= maxDen && s <= maxDen < q + s
    && TOLERANCE * q as real < AbsReal(Residue(x, p, q)) < AbsReal(Residue(x, r, s)) <= TOLERANCE * s as real
  }

  lemma {:induction false} AtLeastFirst(i: int, j: int, e: real, f: real, total: real)
    requires (i >= 1 && j <= 0) || (i <= 0 && j >= 1)
    requires 0.0 < e < f && total == AbsReal(i as real) * e + AbsReal(j as real) * f
    ensures total >= e && (total <= e ==> i == 1 && j == 0)
  {
    if i >= 1 {
      var n := -j;
      assert AbsReal(i as real) == i as real && AbsReal(j as real) == n as real;
      assert (i - 1) as real * e >= 0.0 && n as real * f >= 0.0;
      if i >= 2 { assert (i - 2) as real * e >= 0.0; }
      if n >= 1 { assert (n - 1) as real * f >= 0.0; }
    } else {
      var n := -i;
      assert AbsReal(i as real) == n as real && AbsReal(j as real) == j as real;
      assert n as real * e >= 0.0 && (j - 1) as real * f >= 0.0;
    }
  }

  /** Every other fraction within the limit has a larger residue than the better neighbour. */
  lemma {:induction false} BetterNeighbourOnly(x: real, maxDen: int, p: int, q: int, r: int, s: int, a: int, b: int)
    requires Misleading(x, maxDen, p, q, r, s) && 1 <= b <= maxDen
    ensures AbsReal(Residue(x, p, q)) <= AbsReal(Residue(x, a, b))
    ensures AbsReal(Residue(x, a, b)) <= AbsReal(Residue(x, p, q)) ==> a == p && b == q
  {
    hide Residue, Misleading;
    MisleadingFacts(x, maxDen, p, q, r, s);
    var i, j := Decompose(p, q, r, s, a, b);
    var e, f := Residue(x, p, q), Residue(x, r, s);
    ResidueCombination(x, i, j, p, q, r, s);
    OppositeSigns(q, s, b, i, j);
    SameSignSum(i as real, e, j as real, f);
    AtLeastFirst(i, j, AbsReal(e), AbsReal(f), AbsReal(Residue(x, a, b)));
  }

  lemma {:induction false} MisleadingFacts(x: real, maxDen: int, p: int, q: int, r: int, s: int)
    requires Misleading(x, maxDen, p, q, r, s)
    ensures Straddle(x, p, q, r, s) && s <= maxDen < q + s && 0.0 < AbsReal(Residue(x, p, q)) < AbsReal(Residue(x, r, s))
  {
    hide Residue;
    assert TOLERANCE * q as real > 0.0;
  }

  /** Between misleading neighbours the loop fails although a fraction within the limit is close enough. */
  lemma {:induction false} MisleadingFails(x: real, maxDen: int, p: int, q: int, r: int, s: int)
    requires Misleading(x, maxDen, p, q, r, s) && 0.0 <= x <= 1.0
    ensures !Succeeds(x, maxDen) && Approximable(x, maxDen)
  {
    hide Residue, Coprime, Expansion, Convergents, StoppedByDenominator;
    var e := Ending(x, maxDen);
    assert AbsReal(x) == x;
    ExpansionEnds(x, maxDen);
    ExitOutcome(x, maxDen, e);
    BetterNeighbourOnly(x, maxDen, p, q, r, s, e.p, e.q);
    assert TOLERANCE <= TOLERANCE * q as real;
    assert s <= maxDen && Approximates(x, r, s, TOLERANCE);
  }

  /** For the limits from 7071069 to 14142135: a point between 3535533/7071067 and 3535534/7071069. */
  lemma {:induction false} MiddleLimitFails(maxDen: int)
    requires 7071069 <= maxDen <= 14142135
    ensures Misleading(0.49999992928932376269, maxDen, 3535533, 7071067, 3535534, 7071069)
  {
  }

  /** For the limits from ten million to 99999999999998: a point between 0/1 and 1/maxDen. */
  function LargeLimitPoint(maxDen: int): real
    requires maxDen >= 1
  {
    Middle(1.0 / maxDen as real, 1.0 / (maxDen as real + 1.0))
  }

  /** A number between v and the larger of the tolerance and u less the tolerance. */
  function Middle(u: real, v: real): real {
    ((if u - TOLERANCE > TOLERANCE then u - TOLERANCE else TOLERANCE) + v) / 2.0
  }

  lemma {:induction false} LargeLimitFails(maxDen: int)
    requires 10000000 <= maxDen <= 99999999999998
    ensures Misleading(LargeLimitPoint(maxDen), maxDen, 0, 1, 1, maxDen)
    ensures 0.0 <= LargeLimitPoint(maxDen) <= 1.0
  {
    var m := maxDen as real;
    hide Misleading, Residue, Middle;
    var u, v, x := 1.0 / m, 1.0 / (m + 1.0), LargeLimitPoint(maxDen);
    Reciprocals(m, u, v);
    BetweenReciprocals(m, u, v, x, m * x, m * u, m * TOLERANCE);
    PointMisleads(x, maxDen, m * x, m * TOLERANCE);
  }

  lemma {:induction false} PointMisleads(x: real, maxDen: int, mx: real, mt: real)
    requires maxDen >= 1 && mx == maxDen as real * x && mt == maxDen as real * TOLERANCE
    requires TOLERANCE < x && x < 1.0 - mx && 1.0 - mx <= mt
    ensures Misleading(x, maxDen, 0, 1, 1, maxDen)
  {
    hide Residue;
    PointResidues(x, maxDen);
    assert TOLERANCE * maxDen as real == mt;
  }

  lemma {:induction false} PointResidues(x: real, maxDen: int)
    ensures Residue(x, 0, 1) == x && Residue(x, 1, maxDen) == maxDen as real * x - 1.0
  {
  }

  lemma {:induction false} Reciprocals(m: real, u: real, v: real)
    requires 10000000.0 <= m <= 99999999999998.0 && u == 1.0 / m && v == 1.0 / (m + 1.0)
    ensures m * u == 1.0 && (m + 1.0) * v == 1.0 && TOLERANCE < v < u && u - v < TOLERANCE && u <= 0.1
  {
    assert m * u == 1.0 && (m + 1.0) * v == 1.0;
    RealProduct(m + 1.0, v);
    assert m * (u - v) == v;
    RealProduct(m, u - v);
    RealProduct(m + 1.0, v - TOLERANCE);
    RealProduct(m, u - 0.1);
    DifferenceSmall(m, u - v, v);
  }

  /** m d = v with (m + 1) v = 1 and m at least ten million leaves d below the tolerance. */
  lemma {:induction false} DifferenceSmall(m: real, d: real, v: real)
    requires m >= 10000000.0 && m * d == v && (m + 1.0) * v == 1.0 && v > 0.0
    ensures d < TOLERANCE
  {
    assert d >= TOLERANCE ==> m * d >= m * TOLERANCE by { RealProduct(m, TOLERANCE - d); }
    assert m * TOLERANCE >= 0.0000001;
    RealProduct(m + 1.0, 0.0000001 - v);
  }

  lemma {:induction false} BetweenReciprocals(m: real, u: real, v: real, x: real, mx: real, mu: real, mt: real)
    requires m >= 1.0 && mu == m * u && mu == 1.0 && (m + 1.0) * v == 1.0 && mt == m * TOLERANCE && mx == m * x
    requires TOLERANCE < v < u && u - v < TOLERANCE && u <= 0.1
    requires x == Middle(u, v)
    ensures TOLERANCE < x && x < 1.0 - mx && 1.0 - mx <= mt && mx - 1.0 <= 0.0 && x <= 1.0
  {
    ScaleLt(m + 1.0, x, v, mx + x, 1.0);
    ScaleLt(m, u - TOLERANCE, x, mu - mt, mx);
  }

  // ---------------------------------------------------------------- the documented promise

  /** Success and failure tell whether a fraction within the limit is close enough, for every number without overflow. */
  ghost predicate KeepsPromise(maxDen: int) {
    forall x: real :: AbsReal(x).Floor <= INT64_MAX ==> (Succeeds(x, maxDen) <==> Approximable(x, maxDen))
  }

  /** The promise holds up to 7071068 and from 99999999999999 on, and for no limit in between. */
  lemma {:induction false} PromiseIff(maxDen: int)
    ensures KeepsPromise(maxDen) <==> SmallLimit(maxDen) || HugeLimit(maxDen)
  {
    hide Approximable, Succeeds, Misleading, LargeLimitPoint;
    if SmallLimit(maxDen) || HugeLimit(maxDen) {
      forall x: real | AbsReal(x).Floor <= INT64_MAX ensures Succeeds(x, maxDen) <==> Approximable(x, maxDen) {
        if Succeeds(x, maxDen) {
          SuccessMeansApproximable(x, maxDen);
        } else if HugeLimit(maxDen) {
          HugeLimitSucceeds(x, maxDen);
        } else if Approximable(x, maxDen) {
          SmallLimitKeepsPromise(x, maxDen);
        }
      }
    } else {
      var x := PromiseBroken(maxDen);
    }
  }

  lemma {:induction false} PromiseBroken(maxDen: int) returns (x: real)
    requires !SmallLimit(maxDen) && !HugeLimit(maxDen)
    ensures 0.0 <= x <= 1.0 && AbsReal(x).Floor <= INT64_MAX && Approximable(x, maxDen) && !Succeeds(x, maxDen)
  {
    hide Approximable, Succeeds, Misleading, LargeLimitPoint;
    if maxDen <= 14142135 {
      x := 0.49999992928932376269;
      MiddleLimitFails(maxDen);
      MisleadingFails(x, maxDen, 3535533, 7071067, 3535534, 7071069);
    } else {
      x := LargeLimitPoint(maxDen);
      LargeLimitFails(maxDen);
      MisleadingFails(x, maxDen, 0, 1, 1, maxDen);
    }
  }

  /** At the default limit 0.00000009999999 is reported to have no close fraction, although 1/10000000 is one. */
  lemma {:induction false} PromiseFails()
    ensures !Succeeds(0.00000009999999, DEFAULT_MAX_DENOMINATOR)
    ensures Approximates(0.00000009999999, 1, DEFAULT_MAX_DENOMINATOR, TOLERANCE)
  {
    assert Misleading(0.00000009999999, DEFAULT_MAX_DENOMINATOR, 0, 1, 1, DEFAULT_MAX_DENOMINATOR);
    MisleadingFails(0.00000009999999, DEFAULT_MAX_DENOMINATOR, 0, 1, 1, DEFAULT_MAX_DENOMINATOR);
  }

  // ---------------------------------------------------------------- exact fractions

  datatype Rat = Rat(p: int, q: int)

  predicate Proper(r: Rat) {
    r.q > 0
  }

  ghost predicate Lowest(r: Rat) {
    Proper(r) && Coprime(r.p, r.q)
  }

  function Value(r: Rat): real
    requires Proper(r)
  {
    r.p as real / r.q as real
  }

  function Reduced(r: Rat): Rat
    requires Proper(r)
  {
    if r.p == 0 then Rat(0, 1)
    else
      var g := Gcd(Abs(r.p), r.q);
      if g == 0 then r else Rat(r.p / g, r.q / g)
  }

  /** Product with cross-cancellation. */
  function Mul(a: Rat, b: Rat): Rat
    requires Proper(a) && Proper(b)
  {
    var g1, g2 := Gcd(Abs(a.p), b.q), Gcd(Abs(b.p), a.q);
    if g1 == 0 || g2 == 0 then Rat(0, 1) else Rat((a.p / g1) * (b.p / g2), (a.q / g2) * (b.q / g1))
  }

  function Div(a: Rat, b: Rat): Rat
    requires Proper(a) && Proper(b)
  {
    if b.p == 0 then Rat(0, 1)
    else if b.p > 0 then Mul(a, Rat(b.q, b.p))
    else Mul(a, Rat(-b.q, -b.p))
  }

  function AddUnreduced(a: Rat, b: Rat): Rat
    requires Proper(a) && Proper(b)
  {
    var g := Gcd(a.q, b.q);
    if g == 0 then a
    else
      var lq := a.q / g;
      Rat(a.p * (b.q / g) + b.p * lq, lq * b.q)
  }

  function Add(a: Rat, b: Rat): Rat
    requires Proper(a) && Proper(b)
  {
    var sum := AddUnreduced(a, b);
    if Proper(sum) then Reduced(sum) else sum
  }

  function Sub(a: Rat, b: Rat): Rat
    requires Proper(a) && Proper(b)
  {
    Add(a, Rat(-b.p, b.q))
  }

  function AbsRat(r: Rat): Rat {
    Rat(Abs(r.p), r.q)
  }

  lemma {:induction false} SameValue(a: Rat, b: Rat)
    requires Proper(a) && Proper(b)
    ensures a.p * b.q == b.p * a.q <==> Value(a) == Value(b)
  {
    var x, y, u, v := a.p as real, b.p as real, a.q as real, b.q as real;
    assert (a.p * b.q) as real == x * v && (b.p * a.q) as real == y * u;
    CrossMultiply(x, u, y, v);
  }

  lemma {:induction false} CrossMultiply(x: real, u: real, y: real, v: real)
    requires u > 0.0 && v > 0.0
    ensures x * v == y * u <==> x / u == y / v
  {
    var s, t := x / u, y / v;
    assert x == s * u && y == t * v;
    assert x * v == s * (u * v) && y * u == t * (u * v);
    assert u * v > 0.0;
    if s * (u * v) == t * (u * v) {
      assert (s - t) * (u * v) == 0.0;
      RealProduct(u * v, s - t);
      RealProduct(u * v, t - s);
    }
  }

  /** Reduction keeps the value and reaches lowest terms. */
  lemma {:induction false} ReducedExact(r: Rat)
    requires Proper(r)
    ensures Lowest(Reduced(r)) && Value(Reduced(r)) == Value(r)
  {
    if r.p == 0 {
      CoprimeBy(0, 1, 0, 1);
      SameValue(Rat(0, 1), r);
    } else {
      ReducedCoprime(r.p, r.q);
      var g := Gcd(Abs(r.p), r.q);
      assert (r.p / g) * ((r.q / g) * g) == ((r.p / g) * g) * (r.q / g);
      SameValue(Reduced(r), r);
    }
  }

  /** The product is exact and has a positive denominator. */
  lemma {:induction false} MulExact(a: Rat, b: Rat)
    requires Proper(a) && Proper(b)
    ensures Proper(Mul(a, b)) && Value(Mul(a, b)) == Value(a) * Value(b)
  {
    ReducedCoprime(a.p, b.q);
    ReducedCoprime(b.p, a.q);
    var g1, g2 := Gcd(Abs(a.p), b.q), Gcd(Abs(b.p), a.q);
    var h, k, l, m := a.p / g1, b.p / g2, a.q / g2, b.q / g1;
    MulPositive(l, m);
    Rearrange(h, g1, k, g2, l, m);
    SameValue(Rat(h * k, l * m), Rat(a.p * b.p, a.q * b.q)) by { MulPositive(a.q, b.q); }
    MulPositive(a.q, b.q);
    ProductValue(a, b);
  }

  lemma {:induction false} MulPositive(l: int, m: int)
    requires l > 0 && m > 0
    ensures l * m > 0
  {
  }

  lemma {:induction false} Rearrange(h: int, g1: int, k: int, g2: int, l: int, m: int)
    ensures (h * k) * ((l * g2) * (m * g1)) == ((h * g1) * (k * g2)) * (l * m)
  {
    assert (h * k) * ((l * g2) * (m * g1)) == h * k * l * g2 * m * g1;
    assert ((h * g1) * (k * g2)) * (l * m) == h * g1 * k * g2 * l * m;
  }

  lemma {:induction false} ProductValue(a: Rat, b: Rat)
    requires Proper(a) && Proper(b) && a.q * b.q > 0
    ensures Value(Rat(a.p * b.p, a.q * b.q)) == Value(a) * Value(b)
  {
    var s, t, u, v := Value(a), Value(b), a.q as real, b.q as real;
    assert a.p as real == s * u && b.p as real == t * v;
    assert (a.p * b.p) as real == a.p as real * b.p as real;
    assert (a.q * b.q) as real == u * v;
    assert (s * u) * (t * v) == (s * t) * (u * v);
    QuotientUnique((a.p * b.p) as real, u * v, s * t);
  }

  lemma {:induction false} QuotientUnique(x: real, d: real, w: real)
    requires d > 0.0 && x == w * d
    ensures x / d == w
  {
  }

  /** Cross-cancellation leaves a product of fractions in lowest terms in lowest terms. */
  lemma {:induction false} MulLowest(a: Rat, b: Rat)
    requires Lowest(a) && Lowest(b)
    ensures Lowest(Mul(a, b))
  {
    ReducedCoprime(a.p, b.q);
    ReducedCoprime(b.p, a.q);
    var g1, g2 := Gcd(Abs(a.p), b.q), Gcd(Abs(b.p), a.q);
    var h, k, l, m := a.p / g1, b.p / g2, a.q / g2, b.q / g1;
    FactorsCoprime(a.p, a.q, g1, h, g2, l);
    FactorsCoprime(b.p, b.q, g2, k, g1, m);
    CoprimeProduct(h, k, l);
    CoprimeProduct(h, k, m);
    CoprimeSymmetric(h * k, l);
    CoprimeSymmetric(h * k, m);
    CoprimeProduct(l, m, h * k);
    CoprimeSymmetric(l * m, h * k);
    MulPositive(l, m);
  }

  lemma {:induction false} FactorsCoprime(p: int, q: int, g: int, h: int, g': int, l: int)
    requires Coprime(p, q) && p == h * g && q == l * g'
    ensures Coprime(h, l)
  {
    CoprimeFactor(p, g, h, q);
    CoprimeSymmetric(h, q);
    CoprimeFactor(q, g', l, h);
    CoprimeSymmetric(l, h);
  }

  /** Division by a fraction that is not zero is exact; division by zero yields zero. */
  lemma {:induction false} DivExact(a: Rat, b: Rat)
    requires Proper(a) && Proper(b)
    ensures Proper(Div(a, b)) && (b.p == 0 ==> Div(a, b) == Rat(0, 1))
    ensures b.p != 0 ==> Value(Div(a, b)) * Value(b) == Value(a)
  {
    if b.p != 0 {
      var inverse := if b.p > 0 then Rat(b.q, b.p) else Rat(-b.q, -b.p);
      MulExact(a, inverse);
      InverseValue(inverse, b);
      assert Value(a) * Value(inverse) * Value(b) == Value(a) * (Value(inverse) * Value(b));
    }
  }

  lemma {:induction false} InverseValue(inverse: Rat, b: Rat)
    requires Proper(inverse) && Proper(b) && inverse.p * b.p == inverse.q * b.q
    ensures Value(inverse) * Value(b) == 1.0
  {
    MulPositive(inverse.q, b.q);
    ProductValue(inverse, b);
    QuotientUnique((inverse.q * b.q) as real, (inverse.q * b.q) as real, 1.0);
  }

  lemma {:induction false} SumValue(a: Rat, b: Rat, p: int, q: int)
    requires Proper(a) && Proper(b) && q > 0
    requires p * (a.q * b.q) == (a.p * b.q + b.p * a.q) * q
    ensures Value(Rat(p, q)) == Value(a) + Value(b)
  {
    MulPositive(a.q, b.q);
    SameValue(Rat(p, q), Rat(a.p * b.q + b.p * a.q, a.q * b.q));
    var s, t, u, v := Value(a), Value(b), a.q as real, b.q as real;
    assert a.p as real == s * u && b.p as real == t * v;
    assert (a.p * b.q) as real == a.p as real * v && (b.p * a.q) as real == b.p as real * u && (a.q * b.q) as real == u * v;
    assert (s * u) * v + (t * v) * u == (s + t) * (u * v);
    QuotientUnique((a.p * b.q + b.p * a.q) as real, u * v, s + t);
  }

  /** The sum is exact, in lowest terms, with a positive denominator. */
  lemma {:induction false} AddExact(a: Rat, b: Rat)
    requires Proper(a) && Proper(b)
    ensures Lowest(Add(a, b)) && Value(Add(a, b)) == Value(a) + Value(b)
  {
    ReducedCoprime(a.q, b.q);
    var g := Gcd(a.q, b.q);
    var l, m := a.q / g, b.q / g;
    ReducedSymmetric(a.q, b.q);
    MulPositive(l, b.q);
    SumRearrange(a.p, b.p, g, l, m);
    SumValue(a, b, a.p * m + b.p * l, l * b.q);
    ReducedExact(AddUnreduced(a, b));
  }

  lemma {:induction false} ReducedSymmetric(a: nat, b: nat)
    requires a > 0 && b > 0
    ensures var g := Gcd(a, b); g > 0 && (a / g) * g == a && a / g > 0
  {
    ReducedCoprime(a, b);
    var g := Gcd(a, b);
    TimesPositive(a / g, g);
  }

  lemma {:induction false} SumRearrange(p: int, r: int, g: int, l: int, m: int)
    ensures (p * m + r * l) * ((l * g) * (m * g)) == (p * (m * g) + r * (l * g)) * (l * (m * g))
  {
    var t := l * (m * g);
    assert (l * g) * (m * g) == g * t;
    assert (p * m + r * l) * (g * t) == ((p * m + r * l) * g) * t;
    assert (p * m + r * l) * g == p * (m * g) + r * (l * g);
  }

  lemma {:induction false} SubExact(a: Rat, b: Rat)
    requires Proper(a) && Proper(b)
    ensures Lowest(Sub(a, b)) && Value(Sub(a, b)) == Value(a) - Value(b)
  {
    AddExact(a, Rat(-b.p, b.q));
    NegatedValue(b);
  }

  lemma {:induction false} NegatedValue(b: Rat)
    requires Proper(b)
    ensures Value(Rat(-b.p, b.q)) == -Value(b)
  {
    QuotientUnique(-(b.p as real), b.q as real, -Value(b));
  }

  lemma {:induction false} AbsValue(r: Rat)
    requires Proper(r)
    ensures Proper(AbsRat(r)) && Value(AbsRat(r)) == AbsReal(Value(r))
  {
    var v, d := Value(r), r.q as real;
    assert v * d == r.p as real;
    RealProduct(d, v);
    RealProduct(d, -v);
    QuotientUnique(AbsReal(r.p as real), d, AbsReal(v));
  }

  // ---------------------------------------------------------------- gcd of rationals

  /** gcd(a/b, c/d) = gcd(a d, c b) / (b d), in lowest terms unless an argument is zero. */
  function GcdRat(a: Rat, b: Rat): Rat
    requires Proper(a) && Proper(b)
  {
    if a.p == 0 then AbsRat(b)
    else if b.p == 0 then AbsRat(a)
    else
      var den := a.q * b.q;
      var num := Gcd(Abs(Abs(a.p) * b.q), Abs(Abs(b.p) * a.q));
      var g := Gcd(num, Abs(den));
      if g == 0 then Rat(num, den) else Rat(num / g, den / g)
  }

  function Multiple(k: int, d: real): real {
    k as real * d
  }

  /** `r` is an integer multiple of `d`. */
  ghost predicate MultipleOf(r: real, d: real) {
    exists k: int :: r == Multiple(k, d)
  }

  lemma {:induction false} MultipleBy(r: real, d: real, k: int)
    requires r == k as real * d
    ensures MultipleOf(r, d)
  {
    assert r == Multiple(k, d);
  }

  lemma {:induction false} MultipleNegated(r: real, d: real)
    requires MultipleOf(AbsReal(r), d)
    ensures MultipleOf(r, d)
  {
    var k: int :| AbsReal(r) == Multiple(k, d);
    var w := k as real * d;
    assert (-k) as real * d == -w;
    MultipleBy(r, d, if r < 0.0 then -k else k);
  }

  lemma {:induction false} NumeratorMultiple(num: int, den: int, w: int, r: Rat, c: int)
    requires den > 0 && Proper(r) && den == r.q * c && w == r.p * c && c > 0 && Divides(num, w)
    ensures MultipleOf(Value(r), num as real / den as real)
  {
    var k: int :| w == k * num;
    var d := den as real;
    assert (r.p * c) * r.q == r.p * (r.q * c);
    SameValue(Rat(w, den), r);
    assert w as real == k as real * num as real;
    var t := num as real / d;
    assert num as real == t * d;
    QuotientUnique(w as real, d, k as real * t);
    MultipleBy(Value(r), t, k);
  }

  /** Both operands are integer multiples of the gcd, which is not negative. */
  lemma {:induction false} GcdRatDivides(a: Rat, b: Rat)
    requires Proper(a) && Proper(b)
    ensures Proper(GcdRat(a, b)) && Value(GcdRat(a, b)) >= 0.0
    ensures MultipleOf(Value(a), Value(GcdRat(a, b))) && MultipleOf(Value(b), Value(GcdRat(a, b)))
  {
    AbsValue(a);
    AbsValue(b);
    MultipleBy(0.0, Value(AbsRat(b)), 0);
    MultipleBy(0.0, Value(AbsRat(a)), 0);
    MultipleBy(Value(AbsRat(a)), Value(AbsRat(a)), 1);
    MultipleBy(Value(AbsRat(b)), Value(AbsRat(b)), 1);
    if a.p == 0 {
      ZeroValue(a);
      MultipleNegated(Value(b), Value(AbsRat(b)));
    } else if b.p == 0 {
      ZeroValue(b);
      MultipleNegated(Value(a), Value(AbsRat(a)));
    } else {
      var num, den := GcdRatValue(a, b);
      var u, v := GcdBezout(Abs(a.p) * b.q, Abs(b.p) * a.q);
      assert den == b.q * a.q;
      NumeratorMultiple(num, den, Abs(a.p) * b.q, AbsRat(a), b.q);
      NumeratorMultiple(num, den, Abs(b.p) * a.q, AbsRat(b), a.q);
      MultipleNegated(Value(a), Value(GcdRat(a, b)));
      MultipleNegated(Value(b), Value(GcdRat(a, b)));
    }
  }

  lemma {:induction false} ZeroValue(r: Rat)
    requires Proper(r) && r.p == 0
    ensures Value(r) == 0.0
  {
  }

  lemma {:induction false} GcdRatValue(a: Rat, b: Rat) returns (num: nat, den: int)
    requires Proper(a) && Proper(b) && a.p != 0 && b.p != 0
    ensures den == a.q * b.q > 0 && Abs(a.p) * b.q >= 0 && Abs(b.p) * a.q >= 0
    ensures num == Gcd(Abs(a.p) * b.q, Abs(b.p) * a.q) > 0
    ensures Proper(GcdRat(a, b)) && Value(GcdRat(a, b)) == num as real / den as real >= 0.0
  {
    MulPositive(a.q, b.q);
    MulPositive(Abs(a.p), b.q);
    MulPositive(Abs(b.p), a.q);
    num, den := Gcd(Abs(a.p) * b.q, Abs(b.p) * a.q), a.q * b.q;
    GcdPositive(Abs(a.p) * b.q, Abs(b.p) * a.q);
    ReducedCoprime(num, den);
    ReducedExact(Rat(num, den));
    assert GcdRat(a, b) == Reduced(Rat(num, den));
    PositiveQuotient(num as real, den as real);
  }

  lemma {:induction false} PositiveQuotient(x: real, d: real)
    requires x >= 0.0 && d > 0.0
    ensures x / d >= 0.0
  {
  }

  /** Every number that divides both operands divides their gcd: the gcd is greatest. */
  lemma {:induction false} GcdRatGreatest(a: Rat, b: Rat, d: real)
    requires Proper(a) && Proper(b) && MultipleOf(Value(a), d) && MultipleOf(Value(b), d)
    ensures Proper(GcdRat(a, b)) && MultipleOf(Value(GcdRat(a, b)), d)
  {
    hide Value, MultipleOf, AbsReal, Multiple;
    AbsValue(a);
    AbsValue(b);
    AbsMultiple(Value(a), d);
    AbsMultiple(Value(b), d);
    if a.p != 0 && b.p != 0 {
      var u, v := GcdRatBezout(a, b);
      CombinedMultiple(Value(AbsRat(a)), Value(AbsRat(b)), d, u, v);
    }
  }

  /** The gcd of two rationals is an integer combination of their absolute values. */
  lemma {:induction false} GcdRatBezout(a: Rat, b: Rat) returns (u: int, v: int)
    requires Proper(a) && Proper(b) && a.p != 0 && b.p != 0
    ensures Proper(GcdRat(a, b)) && Value(GcdRat(a, b)) == Multiple(u, Value(AbsRat(a))) + Multiple(v, Value(AbsRat(b)))
  {
    hide Value, GcdRat;
    var num, den := GcdRatValue(a, b);
    u, v := GcdBezout(Abs(a.p) * b.q, Abs(b.p) * a.q);
    GcdCombination(AbsRat(a), AbsRat(b), num, u, v);
  }

  lemma {:induction false} AbsMultiple(r: real, d: real)
    requires MultipleOf(r, d)
    ensures MultipleOf(AbsReal(r), d)
  {
    var k: int :| r == Multiple(k, d);
    var w := k as real * d;
    assert (-k) as real * d == -w;
    MultipleBy(AbsReal(r), d, if r < 0.0 then -k else k);
  }

  lemma {:induction false} CombinedMultiple(r: real, s: real, d: real, u: int, v: int)
    requires MultipleOf(r, d) && MultipleOf(s, d)
    ensures MultipleOf(Multiple(u, r) + Multiple(v, s), d)
  {
    var k: int :| r == Multiple(k, d);
    var l: int :| s == Multiple(l, d);
    assert (u * k + v * l) as real == u as real * k as real + v as real * l as real;
    assert u as real * (k as real * d) == (u as real * k as real) * d;
    assert v as real * (l as real * d) == (v as real * l as real) * d;
    MultipleBy(u as real * r + v as real * s, d, u * k + v * l);
  }

  lemma {:induction false} GcdCombination(a: Rat, b: Rat, num: int, u: int, v: int)
    requires Proper(a) && Proper(b) && num == u * (a.p * b.q) + v * (b.p * a.q)
    ensures a.q * b.q > 0 && num as real / (a.q * b.q) as real == u as real * Value(a) + v as real * Value(b)
  {
    MulPositive(a.q, b.q);
    var s, t, x, y := Value(a), Value(b), a.q as real, b.q as real;
    assert a.p as real == s * x && b.p as real == t * y;
    assert (a.p * b.q) as real == (s * x) * y == s * (x * y);
    assert (b.p * a.q) as real == (t * y) * x == t * (x * y);
    assert (a.q * b.q) as real == x * y;
    var w := x * y;
    assert num as real == u as real * (s * w) + v as real * (t * w);
    assert u as real * (s * w) == (u as real * s) * w && v as real * (t * w) == (v as real * t) * w;
    QuotientUnique(num as real, w, u as real * s + v as real * t);
  }

  // ---------------------------------------------------------------- conversion and lists of near-integers

  /** Rounding half away from zero. */
  function Round(x: real): int {
    if x >= 0.0 then (x + 0.5).Floor else -((-x + 0.5).Floor)
  }

  /** `n` is the integer nearest to `x`; of two the one further from zero. */
  predicate Nearest(x: real, n: int) {
    if x >= 0.0 then n as real - 0.5 <= x < n as real + 0.5 else n as real - 0.5 < x <= n as real + 0.5
  }

  lemma {:induction false} RoundNearest(x: real, n: int)
    ensures Nearest(x, n) <==> n == Round(x)
    ensures Round(-x) == -Round(x)
  {
  }

  /** The best fraction found, whether or not it is close; zero on overflow, the rounded value when the limit is below one. */
  method FromFloatingPoint(x: real, maxDen: int) returns (r: Rat)
    ensures Proper(r)
    ensures AbsReal(x).Floor > INT64_MAX ==> r == Rat(0, 1)
    ensures AbsReal(x).Floor <= INT64_MAX && maxDen < 1 ==> r.q == 1 && Nearest(x, r.p)
    ensures AbsReal(x).Floor <= INT64_MAX && maxDen >= 1 ==> Outcome(x, maxDen, r.p, r.q)
  {
    hide Outcome, BestWithin, Approximates, Expansion;
    var ok, num, den := RationalApproximation(x, maxDen, 0, 1);
    OutcomePositive(x, maxDen, num, den);
    if den <= 0 { num, den := Round(x), 1; }
    RoundNearest(x, Round(x));
    r := Rat(num, den);
  }

  /**
   * Like `FromFloatingPoint`, but zero when the fraction found is not within the tolerance. Outside the limits
   * between 7071069 and 99999999999998 a zero means that nothing within the limit is, or that zero itself is.
   */
  method SafeFromFloatingPoint(x: real, maxDen: int) returns (r: Rat)
    ensures Proper(r)
    ensures Succeeds(x, maxDen) ==> Outcome(x, maxDen, r.p, r.q) && Approximates(x, r.p, r.q, TOLERANCE)
    ensures !Succeeds(x, maxDen) ==> r == Rat(0, 1)
    ensures (SmallLimit(maxDen) || HugeLimit(maxDen)) && AbsReal(x).Floor <= INT64_MAX && r == Rat(0, 1) ==>
              !Approximable(x, maxDen) || Approximates(x, 0, 1, TOLERANCE)
  {
    hide Outcome, BestWithin, Approximates, Approximable, Expansion;
    var ok, num, den := RationalApproximation(x, maxDen, 0, 1);
    OutcomePositive(x, maxDen, num, den);
    PromiseIff(maxDen);
    if !ok { return Rat(0, 1); }
    if den <= 0 { return Rat(0, 1); }
    r := Rat(num, den);
  }

  predicate AllNearest(values: seq<real>, ns: seq<int>) {
    |ns| == |values| && forall k | 0 <= k < |values| :: Nearest(AbsReal(values[k]), ns[k])
  }

  ghost predicate DividesAll(d: int, ns: seq<int>) {
    forall k | 0 <= k < |ns| :: Divides(d, ns[k])
  }

  predicate AllZero(ns: seq<int>) {
    forall k | 0 <= k < |ns| :: ns[k] == 0
  }

  /** `g` is the greatest common divisor of a list: it divides all, all common divisors divide it, and it is 0 for zeros only. */
  ghost predicate GcdOfAll(g: int, ns: seq<int>) {
    g >= 0 && (g == 0 <==> AllZero(ns)) && DividesAll(g, ns) && forall d: int | DividesAll(d, ns) :: Divides(d, g)
  }

  /** The greatest common divisor of the integers nearest to the absolute values. */
  method GcdOfIntegerValues(values: seq<real>) returns (g: int, ghost ns: seq<int>)
    ensures AllNearest(values, ns) && GcdOfAll(g, ns)
    ensures forall ms | |ms| == |values| && (forall k | 0 <= k < |ms| :: AbsReal(AbsReal(values[k]) - ms[k] as real) < 0.5) :: GcdOfAll(g, ms)
  {
    hide Gcd, Round, GcdOfAll, Nearest;
    g, ns := 0, [];
    NoneZero();
    for i := 0 to |values|
      invariant g >= 0 && GcdOfAll(g, ns) && AllNearest(values[..i], ns)
    {
      var iv := Round(AbsReal(values[i]));
      RoundNearest(AbsReal(values[i]), iv);
      NearestNonnegative(AbsReal(values[i]), iv);
      GcdStep(g, iv, ns);
      ns := ns + [iv];
      if iv == 0 { continue; }
      g := if g == 0 then iv else Gcd(g, iv);
    }
    assert values[..|values|] == values;
    forall ms | |ms| == |values| && (forall k | 0 <= k < |ms| :: AbsReal(AbsReal(values[k]) - ms[k] as real) < 0.5)
      ensures ms == ns
    {
      forall k | 0 <= k < |ms| ensures ms[k] == ns[k] {
        CloseIsNearest(AbsReal(values[k]), ms[k]);
        RoundNearest(AbsReal(values[k]), ms[k]);
        RoundNearest(AbsReal(values[k]), ns[k]);
      }
    }
  }

  lemma {:induction false} NearestNonnegative(x: real, n: int)
    requires x >= 0.0 && Nearest(x, n)
    ensures n >= 0
  {
  }

  lemma {:induction false} CloseIsNearest(x: real, n: int)
    requires x >= 0.0 && AbsReal(x - n as real) < 0.5
    ensures Nearest(x, n)
  {
  }

  lemma {:induction false} NoneZero()
    ensures GcdOfAll(0, [])
  {
    ZeroDivides();
  }

  lemma {:induction false} ZeroDivides()
    ensures forall d: int :: Divides(d, 0)
  {
    forall d: int ensures Divides(d, 0) { DividesBy(d, 0, 0); }
  }

  /** One more value: the new divisor divides the old one and the value, and is divided by all common divisors. */
  lemma {:induction false} GcdStep(g: nat, iv: nat, front: seq<int>)
    requires GcdOfAll(g, front)
    ensures GcdOfAll(if iv == 0 then g else if g == 0 then iv else Gcd(g, iv), front + [iv])
  {
    hide Divides;
    var h: int := if iv == 0 then g else if g == 0 then iv else Gcd(g, iv);
    var all := front + [iv];
    ZeroDivides();
    DividesItself(iv);
    if iv != 0 && g != 0 {
      var s, t := GcdBezout(g, iv);
      GcdPositive(g, iv);
    } else {
      DividesItself(g);
    }
    assert Divides(h, g) && Divides(h, iv);
    forall k | 0 <= k < |all|
      ensures Divides(h, all[k])
    {
      if k < |front| { DividesTransitive(h, g, front[k]); }
    }
    forall d: int | DividesAll(d, all)
      ensures Divides(d, h)
    {
      assert DividesAll(d, front) by {
        forall k | 0 <= k < |front| ensures Divides(d, front[k]) { assert all[k] == front[k]; }
      }
      assert Divides(d, all[|front|]);
      if iv != 0 && g != 0 { GcdGreatest(g, iv, d); }
    }
    AllZeroSnoc(front, iv);
  }

  lemma {:induction false} AllZeroSnoc(front: seq<int>, n: int)
    ensures AllZero(front + [n]) <==> AllZero(front) && n == 0
  {
    var all := front + [n];
    if AllZero(all) {
      assert all[|front|] == 0;
      forall k | 0 <= k < |front| ensures front[k] == 0 { assert all[k] == front[k]; }
    }
  }

  lemma {:induction false} DividesItself(a: int)
    ensures Divides(a, a)
  {
    DividesBy(a, a, 1);
  }

  lemma {:induction false} DividesTransitive(d: int, g: int, a: int)
    requires Divides(d, g) && Divides(g, a)
    ensures Divides(d, a)
  {
    var k: int :| g == k * d;
    var l: int :| a == l * g;
    assert a == (l * k) * d;
    DividesBy(d, a, l * k);
  }
}
