/** Greatest common divisors of integers, with Bezout coefficients. */
module Integers {
  function Abs(a: int): nat {
    if a < 0 then -a else a
  }

  ghost predicate Divides(d: int, a: int) {
    exists k: int :: a == k * d
  }

  /** Euclid's algorithm; Gcd(0, 0) is 0. */
  function Gcd(a: nat, b: nat): nat
    decreases b
  {
    if b == 0 then a else Gcd(b, a % b)
  }

  lemma {:induction false} DividesBy(d: int, a: int, k: int)
    requires a == k * d
    ensures Divides(d, a)
  {
  }

  lemma {:induction false} DividesCombination(d: int, a: int, b: int, u: int, v: int)
    requires Divides(d, a) && Divides(d, b)
    ensures Divides(d, u * a + v * b)
  {
    var k: int :| a == k * d;
    var l: int :| b == l * d;
    assert u * a + v * b == (u * k + v * l) * d;
  }

  /** The gcd divides both numbers and is an integer combination of them, hence every common divisor divides it. */
  lemma {:induction false} GcdBezout(a: nat, b: nat) returns (u: int, v: int)
    ensures Divides(Gcd(a, b), a) && Divides(Gcd(a, b), b)
    ensures Gcd(a, b) == u * a + v * b
    decreases b
  {
    if b == 0 {
      u, v := 1, 0;
      DividesBy(a, a, 1);
      DividesBy(a, b, 0);
    } else {
      var s, t := GcdBezout(b, a % b);
      var g, q := Gcd(b, a % b), a / b;
      u, v := t, s - t * q;
      assert a == q * b + a % b;
      calc {
        g;
        s * b + t * (a % b);
        s * b + t * (a - q * b);
        { ExpandBezout(s, b, t, a, q); }
        u * a + v * b;
      }
      DividesCombination(g, b, a % b, q, 1);
      assert q * b + 1 * (a % b) == a;
    }
  }

  lemma {:induction false} ExpandBezout(s: int, b: int, t: int, a: int, q: int)
    ensures s * b + t * (a - q * b) == t * a + (s - t * q) * b
  {
    assert t * (a - q * b) == t * a - t * (q * b);
    assert t * (q * b) == (t * q) * b;
  }

  lemma {:induction false} GcdGreatest(a: nat, b: nat, d: int)
    requires Divides(d, a) && Divides(d, b)
    ensures Divides(d, Gcd(a, b))
  {
    var u, v := GcdBezout(a, b);
    DividesCombination(d, a, b, u, v);
  }

  lemma {:induction false} GcdPositive(a: nat, b: nat)
    requires a > 0 || b > 0
    ensures Gcd(a, b) > 0
  {
    var u, v := GcdBezout(a, b);
    var g := Gcd(a, b);
    var k: int :| a == k * g;
    var l: int :| b == l * g;
  }

  lemma {:induction false} TimesPositive(t: int, g: int)
    requires g > 0
    ensures t >= 1 ==> t * g >= g
    ensures t >= 2 ==> t * g >= 2 * g
    ensures t <= 0 ==> t * g <= 0
    ensures t <= -1 ==> t * g <= -g
  {
    if t >= 2 { assert (t - 2) * g >= 0; }
    if t <= -1 { assert (-1 - t) * g >= 0; }
  }

  /** Coprimality as a Bezout identity. */
  ghost predicate Coprime(a: int, b: int) {
    exists u: int, v: int :: Combines(u, a, v, b)
  }

  predicate Combines(u: int, a: int, v: int, b: int) {
    u * a + v * b == 1
  }

  lemma {:induction false} CoprimeBy(a: int, b: int, u: int, v: int)
    requires u * a + v * b == 1
    ensures Coprime(a, b)
  {
    assert Combines(u, a, v, b);
  }

  lemma {:induction false} CoprimeSymmetric(a: int, b: int)
    requires Coprime(a, b)
    ensures Coprime(b, a)
  {
    var u: int, v: int :| Combines(u, a, v, b);
    CoprimeBy(b, a, v, u);
  }

  lemma {:induction false} CoprimeProduct(a: int, b: int, c: int)
    requires Coprime(a, c) && Coprime(b, c)
    ensures Coprime(a * b, c)
  {
    var u: int, v: int :| Combines(u, a, v, c);
    var s: int, t: int :| Combines(s, b, t, c);
    assert (u * a + v * c) * (s * b + t * c) == (u * s) * (a * b) + (u * a * t + v * s * b + v * t * c) * c;
    CoprimeBy(a * b, c, u * s, u * a * t + v * s * b + v * t * c);
  }

  /** A factor of a number coprime to `c` is coprime to `c`. */
  lemma {:induction false} CoprimeFactor(a: int, g: int, h: int, c: int)
    requires Coprime(a, c) && a == h * g
    ensures Coprime(h, c)
  {
    var u: int, v: int :| Combines(u, a, v, c);
    assert u * (h * g) == (u * g) * h;
    CoprimeBy(h, c, u * g, v);
  }

  lemma {:induction false} CoprimeNegated(a: int, c: int)
    requires Coprime(a, c)
    ensures Coprime(-a, c)
  {
    var u: int, v: int :| Combines(u, a, v, c);
    assert (-u) * (-a) == u * a;
    CoprimeBy(-a, c, -u, v);
  }

  lemma {:induction false} ExactQuotient(a: int, g: int)
    requires g > 0 && Divides(g, a)
    ensures (a / g) * g == a
  {
    var k: int :| a == k * g;
    QuotientOf(k, g);
  }

  lemma {:induction false} QuotientOf(k: int, g: int)
    requires g > 0
    ensures (k * g) / g == k
  {
    var q, r := (k * g) / g, (k * g) % g;
    assert k * g == q * g + r;
    var d := k - q;
    assert d * g == r;
    TimesPositive(d, g);
  }

  /** Dividing two numbers by the gcd of their absolute values makes them coprime. */
  lemma {:induction false} ReducedCoprime(a: int, b: nat)
    requires b > 0
    ensures var g := Gcd(Abs(a), b);
            && g > 0 && (a / g) * g == a && (b / g) * g == b && b / g > 0
            && Coprime(a / g, b / g)
  {
    var g := Gcd(Abs(a), b);
    GcdPositive(Abs(a), b);
    var u, v := GcdBezout(Abs(a), b);
    SignedDivides(g, a);
    ExactQuotient(a, g);
    ExactQuotient(b, g);
    var h, k := a / g, b / g;
    TimesPositive(k, g);
    var w := if a < 0 then -u else u;
    assert g == w * a + v * b;
    CancelFactor(g, w, h, v, k);
    CoprimeBy(h, k, w, v);
  }

  lemma {:induction false} CancelFactor(g: int, w: int, h: int, v: int, k: int)
    requires g > 0 && g == w * (h * g) + v * (k * g)
    ensures w * h + v * k == 1
  {
    var t := w * h + v * k;
    assert w * (h * g) + v * (k * g) == t * g;
    TimesPositive(t, g);
  }

  lemma {:induction false} SignedDivides(g: int, a: int)
    requires Divides(g, Abs(a))
    ensures Divides(g, a)
  {
    var k: int :| Abs(a) == k * g;
    assert a < 0 ==> a == (-k) * g;
    DividesBy(g, a, if a < 0 then -k else k);
  }
}
