/**
 * Each pass of the second-order-cone translation as a step between models, with the proof that the step
 * only adds columns whose values are forced.
 */
module SocPasses {
  import opened Extended
  import opened Sums
  import opened ConicModel
  import opened SocClassify
  import opened SocGeneral

  // ---------------------------------------------------------------- constraints over the old columns

  predicate ConBelow(c: Con, n: int) {
    match c
    case Quadratic(qc) => EntriesBelow(Entries(qc), n) && TermsBelow(LinearTerms(qc), n)
    case PendingAffine(head, tails, scale, linear) => ColsBelow(tails, n) && TermsBelow(linear, n) && scale > 0.0
    case HalfHead(head, tails) => 0 <= head < n && ColsBelow(tails, n)
    case TwoHeads(a, b, tails, ratio) => 0 <= a < n && 0 <= b < n && ColsBelow(tails, n)
    case Cone(vars) => ColsBelow(vars, n) && vars != []
  }

  predicate ConsBelow(cons: seq<Con>, n: int) {
    forall i | 0 <= i < |cons| :: ConBelow(cons[i], n)
  }

  lemma {:induction false} AtPrefix(x: seq<real>, z: seq<real>, j: int)
    requires 0 <= j < |x| <= |z| && z[..|x|] == x
    ensures At(z, j) == At(x, j)
  {
    assert z[j] == z[..|x|][j];
  }

  /** A constraint over the old columns does not see the new ones. */
  lemma {:induction false} ConPrefix(c: Con, x: seq<real>, z: seq<real>)
    requires ConBelow(c, |x|) && |x| <= |z| && z[..|x|] == x
    ensures ConSat(c, z) <==> ConSat(c, x)
  {
    match c
    case Quadratic(qc) =>
      FormPrefix(Entries(qc), x, z);
      DotPrefix(LinearTerms(qc), x, z);
    case PendingAffine(head, tails, scale, linear) =>
      SumSqPrefix(tails, x, z);
      DotPrefix(linear, x, z);
    case HalfHead(head, tails) =>
      SumSqPrefix(tails, x, z);
      AtPrefix(x, z, head);
    case TwoHeads(a, b, tails, ratio) =>
      SumSqPrefix(tails, x, z);
      AtPrefix(x, z, a);
      AtPrefix(x, z, b);
    case Cone(vars) =>
      SumSqPrefix(vars[1..], x, z);
      AtPrefix(x, z, vars[0]);
  }

  lemma {:induction false} NoDefinitions(m: Model, cons: seq<Con>)
    requires WellFormed(m)
    ensures DefineAll(m, [], cons) == m.(cons := cons)
  {
    assert m.obj + seq(0, _ => 0.0) == m.obj;
    assert m.lower + DefLowers([]) == m.lower;
    assert m.upper + seq(0, _ => PosInf) == m.upper;
    assert m.rows + DefRows([], m.n) == m.rows;
  }

  // ---------------------------------------------------------------- a recognised row

  ghost predicate LowersValid(m: Model, lowers: seq<Ext>) {
    forall x, j | LinearOk(m, x) && 0 <= j < |lowers| :: Le(lowers[j], Fin(At(x, j)))
  }

  lemma {:induction false} RecognisedExtends(m: Model, k: int, qc: QuadraticConstraint, n: int, lowers: seq<Ext>, sqrt: real -> real, head: int)
    requires WellFormed(m) && IsSqrt(sqrt) && |lowers| == n && LowersValid(m, lowers)
    requires 0 <= k < |m.cons| && m.cons[k] == Quadratic(qc)
    requires var s := ShapeOf(qc, n, lowers, sqrt); s.Tailless? ==> HeadNonnegative(lowers, s.head)
    ensures Extends(m, m.(cons := m.cons[k := ShapeCon(ShapeOf(qc, n, lowers, sqrt), qc, head)]))
  {
    var c := ShapeCon(ShapeOf(qc, n, lowers, sqrt), qc, head);
    var cons := m.cons[k := c];
    NoDefinitions(m, cons);
    forall z | LinearOk(DefineAll(m, [], cons), z)
      ensures ConsOk(m.cons, z[..m.n]) <==> ConsOk(cons, z)
    {
      assert z[..m.n] == z && LinearOk(m, z);
      ReplacedCon(m.cons, k, c, z, qc, n, lowers, sqrt, head);
    }
    ExtendsByDefinition(m, [], cons);
  }

  lemma {:induction false} ReplacedCon(cons: seq<Con>, k: int, c: Con, z: seq<real>, qc: QuadraticConstraint, n: int, lowers: seq<Ext>,
                    sqrt: real -> real, head: int)
    requires IsSqrt(sqrt) && |lowers| == n && 0 <= k < |cons| && cons[k] == Quadratic(qc)
    requires forall j | 0 <= j < n :: Le(lowers[j], Fin(At(z, j)))
    requires var s := ShapeOf(qc, n, lowers, sqrt); s.Tailless? ==> HeadNonnegative(lowers, s.head)
    requires c == ShapeCon(ShapeOf(qc, n, lowers, sqrt), qc, head)
    ensures ConsOk(cons, z) <==> ConsOk(cons[k := c], z)
  {
    hide ShapeOf, ShapeCon, QuadraticSat;
    ShapeExact(qc, n, lowers, sqrt, head, z);
    assert ConSat(Quadratic(qc), z) <==> QuadraticSat(qc, z);
    PointwiseCons(cons, cons[k := c], z, z);
  }

  /** Constraint lists that agree one by one agree. */
  lemma {:induction false} PointwiseCons(a: seq<Con>, b: seq<Con>, x: seq<real>, z: seq<real>)
    requires |a| == |b|
    requires forall i | 0 <= i < |a| :: ConSat(a[i], x) <==> ConSat(b[i], z)
    ensures ConsOk(a, x) <==> ConsOk(b, z)
  {
  }

  // ---------------------------------------------------------------- a general row

  lemma {:induction false} GeneralExtends(m: Model, k: int, qc: QuadraticConstraint, n: int, vars: seq<int>, h: seq<seq<real>>, f: Ldlt, sqrt: real -> real)
    requires WellFormed(m) && IsSqrt(sqrt) && n <= m.n && InvalidReason(qc, n) == []
    requires 0 <= k < |m.cons| && m.cons[k] == Quadratic(qc) && ConsBelow(m.cons, m.n)
    requires var es := Entries(Normalized(qc));
             Injective(vars) && ColsBelow(vars, n) && Covers(vars, es) && IsHessian(h, es, vars) && Factorizes(f, h)
    ensures var b := DefineAll(m, GeneralDefs(Normalized(qc), vars, f, sqrt), m.cons[k := Cone(GeneralCone(m.n, |f.d|))]);
            Extends(m, b) && WellFormed(b)
  {
    var defs, c := GeneralDefs(Normalized(qc), vars, f, sqrt), Cone(GeneralCone(m.n, |f.d|));
    var cons := m.cons[k := c];
    GeneralDefsBelow(qc, n, vars, h, f, sqrt);
    forall i | 0 <= i < |defs|
      ensures TermsBelow(defs[i].terms, m.n)
    {
      assert TermsBelow(defs[i].terms, n);
    }
    forall z | LinearOk(DefineAll(m, defs, cons), z)
      ensures ConsOk(m.cons, z[..m.n]) <==> ConsOk(cons, z)
    {
      DefineAllLinear(m, defs, cons, z);
      GeneralCons(m, k, qc, vars, h, f, sqrt, z);
    }
    ExtendsByDefinition(m, defs, cons);
  }

  lemma {:induction false} GeneralCons(m: Model, k: int, qc: QuadraticConstraint, vars: seq<int>, h: seq<seq<real>>, f: Ldlt, sqrt: real -> real, z: seq<real>)
    requires IsSqrt(sqrt) && qc.rowType in "LG"
    requires 0 <= k < |m.cons| && m.cons[k] == Quadratic(qc) && ConsBelow(m.cons, m.n)
    requires var es := Entries(Normalized(qc));
             Injective(vars) && Covers(vars, es) && IsHessian(h, es, vars) && Factorizes(f, h)
    requires var defs := GeneralDefs(Normalized(qc), vars, f, sqrt); |z| == m.n + |defs| && Linked(m, defs, z)
    ensures ConsOk(m.cons, z[..m.n]) <==> ConsOk(m.cons[k := Cone(GeneralCone(m.n, |f.d|))], z)
  {
    hide IsHessian, Factorizes, GeneralCone, InCone, QuadraticSat, ConsOk, ConsBelow, Injective, Covers;
    FactorizesFacts(f, h);
    var x, c := z[..m.n], Cone(GeneralCone(m.n, |f.d|));
    GeneralExact(qc, vars, h, f, sqrt, x, z);
    assert ConSat(Quadratic(qc), x) <==> QuadraticSat(qc, x);
    assert ConSat(c, z) <==> InCone(GeneralCone(m.n, |f.d|), z);
    OneReplaced(m, k, c, z);
  }

  /** A constraint over new columns in place of one that agrees with it. */
  lemma {:induction false} OneReplaced(m: Model, k: int, c: Con, z: seq<real>)
    requires 0 <= k < |m.cons| && ConsBelow(m.cons, m.n) && 0 <= m.n <= |z|
    requires ConSat(m.cons[k], z[..m.n]) <==> ConSat(c, z)
    ensures ConsOk(m.cons, z[..m.n]) <==> ConsOk(m.cons[k := c], z)
  {
    hide ConSat;
    var x := z[..m.n];
    forall i | 0 <= i < |m.cons|
      ensures ConSat(m.cons[i], x) <==> ConSat(m.cons[k := c][i], z)
    {
      if i != k { ConPrefix(m.cons[i], x, z); }
    }
    PointwiseCons(m.cons, m.cons[k := c], x, z);
  }

  lemma {:induction false} FactorizesFacts(f: Ldlt, h: seq<seq<real>>)
    requires Factorizes(f, h)
    ensures f.Factor? && |f.cols| == |f.d|
  {
  }

  lemma {:induction false} GeneralDefsBelow(qc: QuadraticConstraint, n: int, vars: seq<int>, h: seq<seq<real>>, f: Ldlt, sqrt: real -> real)
    requires InvalidReason(qc, n) == [] && ColsBelow(vars, n) && Factorizes(f, h) && |h| == |vars|
    ensures var defs := GeneralDefs(Normalized(qc), vars, f, sqrt);
            forall i | 0 <= i < |defs| :: TermsBelow(defs[i].terms, n) && defs[i].lower == NegInf
  {
    var q := Normalized(qc);
    forall k | 0 <= k < |LinearTerms(q)|
      ensures 0 <= LinearTerms(q)[k].col < n
    {
      assert LinearTerms(q)[k].col == LinearTerms(qc)[k].col;
    }
    NonzeroTermsBelow(LinearTerms(q), n);
  }

  // ---------------------------------------------------------------- affine heads

  function Inverse(s: real): real {
    if s == 0.0 then 0.0 else 1.0 / s
  }

  /** (1/s) times the linear part, read from the row as it was given. */
  function ScaledTerms(qc: QuadraticConstraint, scale: real): seq<Term> {
    var linear := NonzeroTerms(LinearTerms(qc));
    seq(|linear|, k requires 0 <= k < |linear| => Term(linear[k].col, linear[k].coef * Inverse(scale)))
  }

  function AffineDef(c: Con, qc: QuadraticConstraint): seq<Def> {
    if c.PendingAffine? then [Def(ScaledTerms(qc, c.scale), 0.0, Fin(0.0))] else []
  }

  /** The linking rows of the affine heads, in row order. */
  function AffineDefs(cons: seq<Con>, qcs: seq<QuadraticConstraint>): seq<Def> {
    if cons == [] || |cons| > |qcs| then []
    else AffineDefs(cons[..|cons| - 1], qcs) + AffineDef(cons[|cons| - 1], qcs[|cons| - 1])
  }

  function AffineCon(c: Con): Con {
    if c.PendingAffine? then HalfHead(c.head, c.tails) else c
  }

  function AffineCons(cons: seq<Con>): seq<Con> {
    seq(|cons|, i requires 0 <= i < |cons| => AffineCon(cons[i]))
  }

  /** A pending row carries the normalised linear part of its row and the next free head from `n` on. */
  predicate AffineRow(cons: seq<Con>, qcs: seq<QuadraticConstraint>, i: int, n: int)
    requires 0 <= i < |cons| == |qcs|
  {
    cons[i].PendingAffine? ==>
      && cons[i].scale > 0.0
      && cons[i].linear == LinearTerms(Normalized(qcs[i]))
      && cons[i].head == n + |AffineDefs(cons[..i], qcs)|
  }

  predicate AffineRows(cons: seq<Con>, qcs: seq<QuadraticConstraint>, n: int) {
    |cons| == |qcs| && forall i | 0 <= i < |cons| :: AffineRow(cons, qcs, i, n)
  }

  lemma {:induction false} ScaleDot(terms: seq<Term>, scaled: seq<Term>, w: real, x: seq<real>)
    requires |terms| == |scaled|
    requires forall k | 0 <= k < |terms| :: scaled[k].col == terms[k].col && scaled[k].coef == terms[k].coef * w
    ensures Dot(scaled, x) == w * Dot(terms, x)
  {
    if terms != [] {
      ScaleDot(terms[1..], scaled[1..], w, x);
      var v, rest := At(x, terms[0].col), Dot(terms[1..], x);
      assert (terms[0].coef * w) * v + w * rest == w * (terms[0].coef * v + rest);
    }
  }

  lemma {:induction false} ScaledTermsDot(qc: QuadraticConstraint, scale: real, x: seq<real>)
    requires scale > 0.0
    ensures scale * Dot(ScaledTerms(qc, scale), x) == Dot(LinearTerms(qc), x)
  {
    hide At, Dot;
    ScaledTermsBy(qc, scale, x);
    NonzeroTermsDot(LinearTerms(qc), x);
    InverseOf(scale);
    CancelScale(scale, Inverse(scale), Dot(NonzeroTerms(LinearTerms(qc)), x), Dot(ScaledTerms(qc, scale), x));
  }

  lemma {:induction false} ScaledTermsBy(qc: QuadraticConstraint, scale: real, x: seq<real>)
    ensures Dot(ScaledTerms(qc, scale), x) == Inverse(scale) * Dot(NonzeroTerms(LinearTerms(qc)), x)
  {
    hide Dot, Inverse;
    ScaleDot(NonzeroTerms(LinearTerms(qc)), ScaledTerms(qc, scale), Inverse(scale), x);
  }

  lemma {:induction false} InverseOf(scale: real)
    requires scale > 0.0
    ensures scale * Inverse(scale) == 1.0
  {
  }

  lemma {:induction false} CancelScale(s: real, i: real, d: real, e: real)
    requires s * i == 1.0 && e == i * d
    ensures s * e == d
  {
    assert s * (i * d) == (s * i) * d;
  }

  /** q <= -w where w is the scaled linear part, against s * q + linear <= 0. */
  lemma {:induction false} AffineScale(s: real, q: real, w: real)
    requires s > 0.0
    ensures s * q + s * w <= 0.0 <==> q <= -w
  {
    var e := q + w;
    assert s * q + s * w == s * e;
    if e > 0.0 { assert s * e > 0.0; }
    if e <= 0.0 { assert s * e <= 0.0; }
  }

  /** The head value t = -(1/s) aᵀx turns s|tails|² + aᵀx <= 0 into |tails|² <= t, for the row it is read from. */
  lemma {:induction false} AffineHeadExact(qc: QuadraticConstraint, head: int, tails: seq<int>, scale: real, x: seq<real>, z: seq<real>)
    requires scale > 0.0 && ColsBelow(tails, |x|) && |x| <= |z| && z[..|x|] == x
    requires At(z, head) == DefValue(Def(ScaledTerms(qc, scale), 0.0, Fin(0.0)), x)
    ensures ConSat(HalfHead(head, tails), z) <==> scale * SumSq(tails, x) + Dot(LinearTerms(qc), x) <= 0.0
    ensures ConSat(HalfHead(head, tails), z) ==> At(z, head) >= 0.0
  {
    hide SumSq, Dot, ScaledTerms, LinearTerms;
    SumSqPrefix(tails, x, z);
    SumSqNonnegative(tails, x);
    ScaledTermsDot(qc, scale, x);
    AffineScale(scale, SumSq(tails, x), Dot(ScaledTerms(qc, scale), x));
  }

  lemma {:induction false} AffineDefsAt(cons: seq<Con>, qcs: seq<QuadraticConstraint>, i: int)
    requires 0 <= i < |cons| <= |qcs| && cons[i].PendingAffine?
    ensures var k := |AffineDefs(cons[..i], qcs)|;
            k < |AffineDefs(cons, qcs)| && [AffineDefs(cons, qcs)[k]] == AffineDef(cons[i], qcs[i])
  {
    var last := |cons| - 1;
    if i < last {
      AffineDefsAt(cons[..last], qcs, i);
      assert cons[..last][..i] == cons[..i];
    }
  }

  /** Every definition of the affine pass comes from a pending row. */
  lemma {:induction false} AffineDefsOrigin(cons: seq<Con>, qcs: seq<QuadraticConstraint>, k: int) returns (i: int)
    requires |cons| <= |qcs| && 0 <= k < |AffineDefs(cons, qcs)|
    ensures 0 <= i < |cons| && cons[i].PendingAffine? && k == |AffineDefs(cons[..i], qcs)|
    ensures [AffineDefs(cons, qcs)[k]] == AffineDef(cons[i], qcs[i])
  {
    var last := |cons| - 1;
    if k < |AffineDefs(cons[..last], qcs)| {
      i := AffineDefsOrigin(cons[..last], qcs, k);
      assert cons[..last][..i] == cons[..i];
    } else {
      i := last;
    }
  }

  lemma {:induction false} ScaledTermsBelow(qc: QuadraticConstraint, scale: real, n: int)
    requires TermsBelow(LinearTerms(Normalized(qc)), n)
    ensures TermsBelow(ScaledTerms(qc, scale), n)
  {
    forall k | 0 <= k < |LinearTerms(qc)|
      ensures 0 <= LinearTerms(qc)[k].col < n
    {
      assert LinearTerms(Normalized(qc))[k].col == LinearTerms(qc)[k].col;
    }
    NonzeroTermsBelow(LinearTerms(qc), n);
  }

  lemma {:induction false} PendingExact(c: Con, qc: QuadraticConstraint, x: seq<real>, z: seq<real>)
    requires c.PendingAffine? && qc.rowType == 'L' && c.linear == LinearTerms(Normalized(qc)) && ConBelow(c, |x|)
    requires |x| <= |z| && z[..|x|] == x && At(z, c.head) == DefValue(AffineDef(c, qc)[0], x)
    ensures ConSat(c, x) <==> ConSat(AffineCon(c), z)
  {
    AffineHeadExact(qc, c.head, c.tails, c.scale, x, z);
  }

  lemma {:induction false} AffineConExact(m: Model, qcs: seq<QuadraticConstraint>, i: int, z: seq<real>)
    requires ConsBelow(m.cons, m.n) && AffineRows(m.cons, qcs, m.n)
    requires 0 <= i < |qcs| && (m.cons[i].PendingAffine? ==> qcs[i].rowType == 'L')
    requires var defs := AffineDefs(m.cons, qcs); |z| == m.n + |defs| && Linked(m, defs, z)
    ensures ConSat(m.cons[i], z[..m.n]) <==> ConSat(AffineCon(m.cons[i]), z)
  {
    hide ConSat, ConBelow, DefValue, AffineDefs;
    var c, x, defs := m.cons[i], z[..m.n], AffineDefs(m.cons, qcs);
    assert AffineRow(m.cons, qcs, i, m.n) && ConBelow(c, m.n);
    if c.PendingAffine? {
      AffineDefsAt(m.cons, qcs, i);
      var k := |AffineDefs(m.cons[..i], qcs)|;
      assert [defs[k]][0] == AffineDef(c, qcs[i])[0];
      assert At(z, c.head) == z[m.n + k] == DefValue(defs[k], x);
      PendingExact(c, qcs[i], x, z);
    } else {
      ConPrefix(c, x, z);
    }
  }

  lemma {:induction false} AffineHeadNonnegative(c: Con, qc: QuadraticConstraint, x: seq<real>)
    requires c.PendingAffine? && qc.rowType == 'L' && c.linear == LinearTerms(Normalized(qc)) && ConBelow(c, |x|)
    requires ConSat(c, x)
    ensures DefValue(AffineDef(c, qc)[0], x) >= 0.0
  {
    hide SumSq, Dot, LinearTerms, ScaledTerms, DefValue;
    var t := DefValue(AffineDef(c, qc)[0], x);
    var z := x + [t];
    assert z[..|x|] == x;
    AffineHeadExact(qc, |x|, c.tails, c.scale, x, z);
  }

  /** The affine pass is exact when every affine row is a <= row. */
  lemma {:induction false} AffineExtends(m: Model, qcs: seq<QuadraticConstraint>)
    requires WellFormed(m) && ConsBelow(m.cons, m.n) && AffineRows(m.cons, qcs, m.n)
    requires forall i | 0 <= i < |qcs| && m.cons[i].PendingAffine? :: qcs[i].rowType == 'L'
    ensures var b := DefineAll(m, AffineDefs(m.cons, qcs), AffineCons(m.cons));
            Extends(m, b) && WellFormed(b)
  {
    hide ConSat, ConBelow, DefValue;
    var defs, cons := AffineDefs(m.cons, qcs), AffineCons(m.cons);
    AffineDefsBelow(m, qcs);
    forall x, k | Feasible(m, x) && 0 <= k < |defs|
      ensures Le(defs[k].lower, Fin(DefValue(defs[k], x)))
    {
      var i := AffineDefsOrigin(m.cons, qcs, k);
      assert [defs[k]][0] == AffineDef(m.cons[i], qcs[i])[0];
      assert AffineRow(m.cons, qcs, i, m.n) && ConBelow(m.cons[i], m.n) && ConSat(m.cons[i], x);
      AffineHeadNonnegative(m.cons[i], qcs[i], x);
    }
    forall z | LinearOk(DefineAll(m, defs, cons), z)
      ensures ConsOk(m.cons, z[..m.n]) <==> ConsOk(cons, z)
    {
      DefineAllLinear(m, defs, cons, z);
      forall i | 0 <= i < |cons|
        ensures ConSat(m.cons[i], z[..m.n]) <==> ConSat(cons[i], z)
      {
        AffineConExact(m, qcs, i, z);
      }
      PointwiseCons(m.cons, cons, z[..m.n], z);
    }
    ExtendsByDefinition(m, defs, cons);
  }

  lemma {:induction false} AffineDefsBelow(m: Model, qcs: seq<QuadraticConstraint>)
    requires ConsBelow(m.cons, m.n) && AffineRows(m.cons, qcs, m.n)
    ensures forall k | 0 <= k < |AffineDefs(m.cons, qcs)| :: TermsBelow(AffineDefs(m.cons, qcs)[k].terms, m.n)
  {
    var defs := AffineDefs(m.cons, qcs);
    forall k | 0 <= k < |defs|
      ensures TermsBelow(defs[k].terms, m.n)
    {
      var i := AffineDefsOrigin(m.cons, qcs, k);
      assert [defs[k]][0] == AffineDef(m.cons[i], qcs[i])[0];
      assert AffineRow(m.cons, qcs, i, m.n) && ConBelow(m.cons[i], m.n);
      ScaledTermsBelow(qcs[i], m.cons[i].scale, m.n);
    }
  }

  // ---------------------------------------------------------------- lifting rotated cones

  predicate IsRotated(c: Con) {
    c.HalfHead? || c.TwoHeads?
  }

  function Times(a: real, b: real): real {
    a * b
  }

  function LiftTwoDefs(a: int, b: int, w: real): seq<Def> {
    [Def([Term(a, -w), Term(b, -w)], 0.0, NegInf), Def([Term(a, -w), Term(b, w)], 0.0, NegInf)]
  }

  /** The two linking rows of a rotated cone; `h` is 1/sqrt(2). */
  function LiftDefs(c: Con, h: real): seq<Def>
    requires IsRotated(c)
  {
    match c
    case TwoHeads(a, b, tails, ratio) => LiftTwoDefs(a, b, Times(h, ratio))
    case HalfHead(head, tails) =>
      [Def([Term(head, -h)], h * 0.5, NegInf), Def([Term(head, -h)], -h * 0.5, NegInf)]
  }

  function LiftAllDefs(cons: seq<Con>, h: real): seq<Def> {
    if cons == [] then []
    else
      var last := |cons| - 1;
      LiftAllDefs(cons[..last], h) + if IsRotated(cons[last]) then LiftDefs(cons[last], h) else []
  }

  function LiftCon(c: Con, slack: int): Con {
    if IsRotated(c) then Cone([slack, slack + 1] + c.tails) else c
  }

  function LiftCons(cons: seq<Con>, h: real, n: int): seq<Con> {
    seq(|cons|, i requires 0 <= i < |cons| => LiftCon(cons[i], n + |LiftAllDefs(cons[..i], h)|))
  }

  /** s0² - s1² = 2 a b when s0 = h(a + b) and s1 = h(a - b), 2h² = 1. */
  lemma {:induction false} LiftIdentity(h: real, a: real, b: real, q: real, s0: real, s1: real)
    requires h >= 0.0 && 2.0 * h * h == 1.0 && s0 == h * (a + b) && s1 == h * (a - b)
    ensures q <= 2.0 * a * b <==> s1 * s1 + q <= s0 * s0
  {
    assert s0 * s0 == (h * h) * ((a + b) * (a + b));
    assert s1 * s1 == (h * h) * ((a - b) * (a - b));
    assert (a + b) * (a + b) - (a - b) * (a - b) == 4.0 * (a * b);
    var hh := h * h;
    assert hh == 0.5;
    assert s0 * s0 - s1 * s1 == 2.0 * (a * b);
  }

  lemma {:induction false} ConePair(slack: int, tails: seq<int>, z: seq<real>)
    ensures InCone([slack, slack + 1] + tails, z) <==>
            At(z, slack) >= 0.0 &&
            At(z, slack + 1) * At(z, slack + 1) + SumSq(tails, z) <= At(z, slack) * At(z, slack)
  {
    assert ([slack, slack + 1] + tails)[1..] == [slack + 1] + tails;
    SumSqConcat([slack + 1], tails, z);
    assert [slack + 1][1..] == [];
  }

  lemma {:induction false} DotOne(t: Term, x: seq<real>)
    ensures Dot([t], x) == t.coef * At(x, t.col)
  {
    assert [t][1..] == [];
  }

  lemma {:induction false} DotTwo(t: Term, u: Term, x: seq<real>)
    ensures Dot([t, u], x) == t.coef * At(x, t.col) + u.coef * At(x, u.col)
  {
    assert [t, u] == [t] + [u];
    DotConcat([t], [u], x);
    DotOne(t, x);
    DotOne(u, x);
  }

  lemma {:induction false} LiftTwoValues(a: int, b: int, w: real, x: seq<real>)
    ensures DefValue(LiftTwoDefs(a, b, w)[0], x) == w * At(x, a) + w * At(x, b)
    ensures DefValue(LiftTwoDefs(a, b, w)[1], x) == w * At(x, a) - w * At(x, b)
  {
    DotTwo(Term(a, -w), Term(b, -w), x);
    DotTwo(Term(a, -w), Term(b, w), x);
  }

  /** A rotated cone with non-negative heads is the lifted cone. */
  lemma {:induction false} LiftTwoHeads(a: int, b: int, tails: seq<int>, ratio: real, h: real, slack: int, x: seq<real>, z: seq<real>)
    requires h >= 0.0 && 2.0 * h * h == 1.0 && ratio >= 0.0
    requires ColsBelow(tails, |x|) && |x| <= |z| && z[..|x|] == x
    requires At(x, a) >= 0.0 && At(x, b) >= 0.0
    requires var defs := LiftDefs(TwoHeads(a, b, tails, ratio), h);
             At(z, slack) == DefValue(defs[0], x) && At(z, slack + 1) == DefValue(defs[1], x)
    ensures ConSat(TwoHeads(a, b, tails, ratio), x) <==> InCone([slack, slack + 1] + tails, z)
  {
    hide SumSq, InCone, LiftTwoDefs, DefValue, At;
    var w := Times(h, ratio);
    LiftTwoValues(a, b, w, x);
    SumSqPrefix(tails, x, z);
    ConePair(slack, tails, z);
    LiftValues(h, ratio, w, At(x, a), At(x, b));
    LiftIdentity(h, ratio * At(x, a), ratio * At(x, b), SumSq(tails, x), At(z, slack), At(z, slack + 1));
  }

  lemma {:induction false} LiftValues(h: real, r: real, w: real, a: real, b: real)
    requires h >= 0.0 && r >= 0.0 && a >= 0.0 && b >= 0.0 && w == h * r
    ensures w * a + w * b == h * (r * a + r * b) >= 0.0
    ensures w * a - w * b == h * (r * a - r * b)
  {
    assert w * a == h * (r * a) && w * b == h * (r * b);
    assert r * a >= 0.0 && r * b >= 0.0;
    assert h * (r * a + r * b) == h * (r * a) + h * (r * b);
    assert h * (r * a - r * b) == h * (r * a) - h * (r * b);
  }

  /** |tails|² <= t as a lifted cone with the second head fixed at one half. */
  lemma {:induction false} LiftHalfHead(head: int, tails: seq<int>, h: real, slack: int, x: seq<real>, z: seq<real>)
    requires h >= 0.0 && 2.0 * h * h == 1.0
    requires ColsBelow(tails, |x|) && |x| <= |z| && z[..|x|] == x
    requires At(x, head) >= 0.0
    requires var defs := LiftDefs(HalfHead(head, tails), h);
             At(z, slack) == DefValue(defs[0], x) && At(z, slack + 1) == DefValue(defs[1], x)
    ensures ConSat(HalfHead(head, tails), x) <==> InCone([slack, slack + 1] + tails, z)
  {
    hide SumSq, InCone;
    var t := At(x, head);
    DotOne(Term(head, -h), x);
    SumSqPrefix(tails, x, z);
    ConePair(slack, tails, z);
    assert h * 0.5 - (-h) * t == h * (t + 0.5);
    assert -h * 0.5 - (-h) * t == h * (t - 0.5);
    assert h * (t + 0.5) >= 0.0;
    LiftIdentity(h, t, 0.5, SumSq(tails, x), At(z, slack), At(z, slack + 1));
  }

  lemma {:induction false} LiftAllDefsAt(cons: seq<Con>, h: real, i: int)
    requires 0 <= i < |cons| && IsRotated(cons[i])
    ensures var k := |LiftAllDefs(cons[..i], h)|;
            k + 1 < |LiftAllDefs(cons, h)|
            && LiftAllDefs(cons, h)[k] == LiftDefs(cons[i], h)[0]
            && LiftAllDefs(cons, h)[k + 1] == LiftDefs(cons[i], h)[1]
  {
    var last := |cons| - 1;
    if i < last {
      LiftAllDefsAt(cons[..last], h, i);
      assert cons[..last][..i] == cons[..i];
    }
  }

  lemma {:induction false} LiftAllDefsBelow(cons: seq<Con>, h: real, n: int)
    requires ConsBelow(cons, n)
    ensures forall k | 0 <= k < |LiftAllDefs(cons, h)| ::
              TermsBelow(LiftAllDefs(cons, h)[k].terms, n) && LiftAllDefs(cons, h)[k].lower == NegInf
  {
    if cons != [] {
      assert ConBelow(cons[|cons| - 1], n);
      LiftAllDefsBelow(cons[..|cons| - 1], h, n);
    }
  }

  /** Heads of rotated cones are non-negative on the points that obey bounds and rows. */
  ghost predicate HeadsNonnegative(m: Model) {
    forall x, i | LinearOk(m, x) && 0 <= i < |m.cons| :: HeadNonnegativeAt(m.cons[i], x)
  }

  predicate HeadNonnegativeAt(c: Con, x: seq<real>) {
    match c
    case HalfHead(head, _) => At(x, head) >= 0.0
    case TwoHeads(a, b, _, ratio) => At(x, a) >= 0.0 && At(x, b) >= 0.0 && ratio >= 0.0
    case _ => true
  }

  lemma {:induction false} LiftConExact(m: Model, h: real, i: int, z: seq<real>)
    requires h >= 0.0 && 2.0 * h * h == 1.0
    requires ConsBelow(m.cons, m.n) && 0 <= i < |m.cons|
    requires var defs := LiftAllDefs(m.cons, h); |z| == m.n + |defs| && Linked(m, defs, z)
    requires HeadNonnegativeAt(m.cons[i], z[..m.n])
    ensures ConSat(m.cons[i], z[..m.n]) <==> ConSat(LiftCons(m.cons, h, m.n)[i], z)
  {
    hide ConSat, ConBelow, DefValue, LiftAllDefs, LiftDefs;
    var c, x, defs := m.cons[i], z[..m.n], LiftAllDefs(m.cons, h);
    assert ConBelow(c, m.n);
    if IsRotated(c) {
      LiftAllDefsAt(m.cons, h, i);
      var k := |LiftAllDefs(m.cons[..i], h)|;
      assert At(z, m.n + k) == z[m.n + k] == DefValue(defs[k], x);
      assert At(z, m.n + k + 1) == z[m.n + (k + 1)] == DefValue(defs[k + 1], x);
      LiftOneExact(c, h, m.n + k, x, z);
    } else {
      ConPrefix(c, x, z);
    }
  }

  lemma {:induction false} LiftOneExact(c: Con, h: real, slack: int, x: seq<real>, z: seq<real>)
    requires h >= 0.0 && 2.0 * h * h == 1.0 && IsRotated(c) && ConBelow(c, |x|)
    requires |x| <= |z| && z[..|x|] == x && HeadNonnegativeAt(c, x)
    requires At(z, slack) == DefValue(LiftDefs(c, h)[0], x) && At(z, slack + 1) == DefValue(LiftDefs(c, h)[1], x)
    ensures ConSat(c, x) <==> ConSat(LiftCon(c, slack), z)
  {
    hide InCone, SumSq, Dot, DefValue;
    match c
    case TwoHeads(a, b, tails, ratio) => LiftTwoHeads(a, b, tails, ratio, h, slack, x, z);
    case HalfHead(head, tails) => LiftHalfHead(head, tails, h, slack, x, z);
  }

  lemma {:induction false} LiftExtends(m: Model, h: real)
    requires h >= 0.0 && 2.0 * h * h == 1.0
    requires WellFormed(m) && ConsBelow(m.cons, m.n) && HeadsNonnegative(m)
    ensures var b := DefineAll(m, LiftAllDefs(m.cons, h), LiftCons(m.cons, h, m.n));
            Extends(m, b) && WellFormed(b)
  {
    var defs, cons := LiftAllDefs(m.cons, h), LiftCons(m.cons, h, m.n);
    LiftAllDefsBelow(m.cons, h, m.n);
    forall z | LinearOk(DefineAll(m, defs, cons), z)
      ensures ConsOk(m.cons, z[..m.n]) <==> ConsOk(cons, z)
    {
      DefineAllLinear(m, defs, cons, z);
      forall i | 0 <= i < |cons|
        ensures ConSat(m.cons[i], z[..m.n]) <==> ConSat(cons[i], z)
      {
        assert HeadNonnegativeAt(m.cons[i], z[..m.n]);
        LiftConExact(m, h, i, z);
      }
      PointwiseCons(m.cons, cons, z[..m.n], z);
    }
    ExtendsByDefinition(m, defs, cons);
  }

  // ---------------------------------------------------------------- copies of cone members

  /** The linking row copy - original = 0. */
  function CopyDefs(originals: seq<int>): seq<Def> {
    seq(|originals|, k requires 0 <= k < |originals| => Def([Term(originals[k], -1.0)], 0.0, NegInf))
  }

  predicate IsCopyOf(after: int, before: int, originals: seq<int>, n: int) {
    after == before || (n <= after < n + |originals| && originals[after - n] == before)
  }

  /** `after` is `before` with some members replaced by copies numbered from `n`. */
  predicate ConeCopied(after: Con, before: Con, originals: seq<int>, n: int) {
    && after.Cone? && before.Cone? && |after.vars| == |before.vars|
    && forall k | 0 <= k < |after.vars| :: IsCopyOf(after.vars[k], before.vars[k], originals, n)
  }

  predicate ConesCopied(after: seq<Con>, before: seq<Con>, originals: seq<int>, n: int) {
    && |after| == |before|
    && forall i | 0 <= i < |after| :: ConeCopied(after[i], before[i], originals, n)
  }

  lemma {:induction false} SumSqEqual(a: seq<int>, b: seq<int>, x: seq<real>, z: seq<real>)
    requires |a| == |b| && forall k | 0 <= k < |a| :: At(z, a[k]) == At(x, b[k])
    ensures SumSq(a, z) == SumSq(b, x)
  {
    if a != [] { SumSqEqual(a[1..], b[1..], x, z); }
  }

  lemma {:induction false} InConeEqual(a: seq<int>, b: seq<int>, x: seq<real>, z: seq<real>)
    requires |a| == |b| && forall k | 0 <= k < |a| :: At(z, a[k]) == At(x, b[k])
    ensures InCone(a, z) <==> InCone(b, x)
  {
    if a != [] { SumSqEqual(a[1..], b[1..], x, z); }
  }

  lemma {:induction false} CopyValue(m: Model, originals: seq<int>, after: int, before: int, z: seq<real>)
    requires ColsBelow(originals, m.n) && 0 <= before < m.n && IsCopyOf(after, before, originals, m.n)
    requires |z| == m.n + |originals| && Linked(m, CopyDefs(originals), z)
    ensures At(z, after) == At(z[..m.n], before)
  {
    var x := z[..m.n];
    if after == before {
      AtPrefix(x, z, before);
    } else {
      var k := after - m.n;
      assert z[m.n + k] == DefValue(CopyDefs(originals)[k], x);
      DotOne(Term(before, -1.0), x);
    }
  }

  lemma {:induction false} CopyExtends(m: Model, originals: seq<int>, cons: seq<Con>)
    requires WellFormed(m) && ConsBelow(m.cons, m.n) && ColsBelow(originals, m.n)
    requires ConesCopied(cons, m.cons, originals, m.n)
    ensures var b := DefineAll(m, CopyDefs(originals), cons);
            Extends(m, b) && WellFormed(b) && ConsBelow(cons, b.n)
  {
    var defs := CopyDefs(originals);
    forall z | LinearOk(DefineAll(m, defs, cons), z)
      ensures ConsOk(m.cons, z[..m.n]) <==> ConsOk(cons, z)
    {
      DefineAllLinear(m, defs, cons, z);
      forall i | 0 <= i < |cons|
        ensures ConSat(m.cons[i], z[..m.n]) <==> ConSat(cons[i], z)
      {
        CopiedConeExact(m, originals, cons[i], m.cons[i], z);
      }
      PointwiseCons(m.cons, cons, z[..m.n], z);
    }
    ExtendsByDefinition(m, defs, cons);
    forall i | 0 <= i < |cons|
      ensures ConBelow(cons[i], m.n + |originals|)
    {
      assert ConeCopied(cons[i], m.cons[i], originals, m.n) && ConBelow(m.cons[i], m.n);
    }
  }

  lemma {:induction false} CopiedConeExact(m: Model, originals: seq<int>, after: Con, before: Con, z: seq<real>)
    requires ColsBelow(originals, m.n) && ConBelow(before, m.n) && ConeCopied(after, before, originals, m.n)
    requires |z| == m.n + |originals| && Linked(m, CopyDefs(originals), z)
    ensures ConSat(before, z[..m.n]) <==> ConSat(after, z)
  {
    forall k | 0 <= k < |after.vars|
      ensures At(z, after.vars[k]) == At(z[..m.n], before.vars[k])
    {
      CopyValue(m, originals, after.vars[k], before.vars[k], z);
    }
    InConeEqual(after.vars, before.vars, z[..m.n], z);
  }
}
