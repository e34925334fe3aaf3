/** Where the translation stops being exact: affine >= rows, tail-less squares, and mixed affine and general rows. */
module SocLimits {
  import opened Extended
  import opened Sums
  import opened ConicModel
  import opened Columns
  import opened SocClassify
  import opened SocGeneral
  import opened SocPasses
  import opened SocPermute
  import opened SocDisjoint
  import opened SocAcceptance
  import opened SocTranslate

  // ---------------------------------------------------------------- affine rows given as >= rows

  /** What the linking row, the bound and the rotated cone of an affine row say about a model point. */
  predicate EmittedSat(qc: QuadraticConstraint, s: Shape, x: seq<real>)
    requires s.Affine?
  {
    var head := DefValue(Def(ScaledTerms(qc, s.scale), 0.0, Fin(0.0)), x);
    head >= 0.0 && ConSat(HalfHead(|x|, s.tails), x + [head])
  }

  /** The point `w` times the unit vector of column `j`. */
  function Spike(n: nat, j: int, w: real): seq<real> {
    seq(n, k requires 0 <= k < n => if k == j then w else 0.0)
  }

  lemma {:induction false} SpikeDot(terms: seq<Term>, n: nat, j: int, w: real)
    requires TermsBelow(terms, n) && 0 <= j < n
    ensures Dot(terms, Spike(n, j, w)) == w * Coefficient(terms, j)
  {
    if terms != [] {
      SpikeDot(terms[1..], n, j, w);
      var c := terms[0].coef;
      assert At(Spike(n, j, w), terms[0].col) == if terms[0].col == j then w else 0.0;
      assert w * (c + Coefficient(terms[1..], j)) == w * c + w * Coefficient(terms[1..], j);
    }
  }

  lemma {:induction false} SpikeSquares(tails: seq<int>, n: nat, j: int, w: real)
    requires Injective(tails)
    ensures SumSq(tails, Spike(n, j, w)) <= if j in tails then w * w else 0.0
  {
    if tails != [] {
      SpikeSquares(tails[1..], n, j, w);
      assert tails[0] !in tails[1..];
      assert w * w >= 0.0;
    }
  }

  lemma {:induction false} ZeroColumns(terms: seq<Term>, x: seq<real>)
    requires TermsBelow(terms, |x|) && forall j | 0 <= j < |x| :: Coefficient(terms, j) == 0.0
    ensures Dot(terms, x) == 0.0
  {
    DotByColumns(terms, x);
    SumScale(ColumnProducts(terms, x), ColumnProducts(terms, x), 0.0);
  }

  /** The emitted constraint is the row with the linear part as it was given, whatever the row type. */
  lemma {:induction false} EmittedMeaning(qc: QuadraticConstraint, n: nat, lowers: seq<Ext>, sqrt: real -> real, x: seq<real>)
    requires IsSqrt(sqrt) && |x| == n && ShapeOf(qc, n, lowers, sqrt).Affine?
    ensures var s := ShapeOf(qc, n, lowers, sqrt);
            EmittedSat(qc, s, x) <==> s.scale * SumSq(s.tails, x) + Dot(LinearTerms(qc), x) <= 0.0
  {
    hide ShapeOf, ScaledTerms, SumSq, Dot, IsSqrt, LinearTerms;
    var s := ShapeOf(qc, n, lowers, sqrt);
    ShapeColumns(qc, n, lowers, sqrt);
    var head := DefValue(Def(ScaledTerms(qc, s.scale), 0.0, Fin(0.0)), x);
    assert (x + [head])[..|x|] == x;
    AffineHeadExact(qc, |x|, s.tails, s.scale, x, x + [head]);
  }

  lemma {:induction false} AffineRowMeaning(qc: QuadraticConstraint, n: nat, lowers: seq<Ext>, sqrt: real -> real, x: seq<real>)
    requires IsSqrt(sqrt) && |lowers| == n && ShapeOf(qc, n, lowers, sqrt).Affine?
    ensures var s := ShapeOf(qc, n, lowers, sqrt);
            var linear := Dot(LinearTerms(qc), x);
            QuadraticSat(qc, x) <==> s.scale * SumSq(s.tails, x) + (if qc.rowType == 'G' then -linear else linear) <= 0.0
  {
    hide Form, Dot, Select, SortEntries, Entries, LinearTerms, SumSq;
    var q, p := Normalized(qc), PartsOfRow(qc);
    DecideFacts(p, |q.vals|, q.rhs, q.linearValues != [], lowers, sqrt);
    PartsOfValid(qc, n);
    RowByParts(qc, x);
    AffineExact(p, n, |q.vals|, lowers, sqrt, LinearTerms(q), 0, x);
    NormalizedLinear(qc, x);
  }

  lemma {:induction false} NormalizedLinear(qc: QuadraticConstraint, x: seq<real>)
    ensures Dot(LinearTerms(Normalized(qc)), x) == if qc.rowType == 'G' then -Dot(LinearTerms(qc), x) else Dot(LinearTerms(qc), x)
  {
    if qc.rowType == 'G' { DotNegated(LinearTerms(Normalized(qc)), LinearTerms(qc), x); }
  }

  /** A point on which a >= row with a linear part and its emitted constraint disagree. */
  lemma {:induction false} DisagreementPoint(qc: QuadraticConstraint, n: nat, lowers: seq<Ext>, sqrt: real -> real, j: int)
    returns (x: seq<real>)
    requires IsSqrt(sqrt) && |lowers| == n && ShapeOf(qc, n, lowers, sqrt).Affine? && qc.rowType == 'G'
    requires 0 <= j < n && Coefficient(LinearTerms(qc), j) != 0.0
    ensures |x| == n && QuadraticSat(qc, x) && !EmittedSat(qc, ShapeOf(qc, n, lowers, sqrt), x)
  {
    hide ShapeOf, SumSq, Dot, IsSqrt, LinearTerms, Coefficient, EmittedSat, QuadraticSat;
    var s, c := ShapeOf(qc, n, lowers, sqrt), Coefficient(LinearTerms(qc), j);
    ShapeColumns(qc, n, lowers, sqrt);
    var w := c / (2.0 * s.scale);
    x := Spike(n, j, w);
    AffineLinearBelow(qc, n, lowers, sqrt);
    SpikeDot(LinearTerms(qc), n, j, w);
    SpikeSquares(s.tails, n, j, w);
    SumSqNonnegative(s.tails, x);
    HalfStep(s.scale, c, w, SumSq(s.tails, x));
    AffineRowMeaning(qc, n, lowers, sqrt, x);
    EmittedMeaning(qc, n, lowers, sqrt, x);
  }

  lemma {:induction false} AffineLinearBelow(qc: QuadraticConstraint, n: nat, lowers: seq<Ext>, sqrt: real -> real)
    requires ShapeOf(qc, n, lowers, sqrt).Affine?
    ensures TermsBelow(LinearTerms(qc), n)
  {
  }

  lemma {:induction false} HalfStep(s: real, c: real, w: real, q: real)
    requires s > 0.0 && c != 0.0 && w == c / (2.0 * s) && 0.0 <= q && (q <= w * w || q <= 0.0)
    ensures s * q - w * c <= 0.0 && s * q + w * c > 0.0
  {
    assert 2.0 * (s * w) == c;
    assert w != 0.0;
    assert w * w > 0.0;
    assert w * c == 2.0 * (s * (w * w));
    assert s * (w * w) > 0.0;
    assert q <= w * w;
    assert s * q <= s * (w * w);
    assert s * q >= 0.0;
  }

  /**
   * The affine pass takes the linear part from the row before it was turned into a <= row, so an affine row is
   * represented exactly just when it was given as a <= row, or its coefficients cancel in every column.
   */
  lemma {:induction false} AffineExactIff(qc: QuadraticConstraint, n: nat, lowers: seq<Ext>, sqrt: real -> real)
    requires IsSqrt(sqrt) && |lowers| == n && ShapeOf(qc, n, lowers, sqrt).Affine?
    ensures (forall x: seq<real> | |x| == n :: QuadraticSat(qc, x) <==> EmittedSat(qc, ShapeOf(qc, n, lowers, sqrt), x)) <==>
            (qc.rowType == 'L' || forall j | 0 <= j < n :: Coefficient(LinearTerms(qc), j) == 0.0)
  {
    hide ShapeOf, SumSq, Dot, IsSqrt, LinearTerms, Coefficient, EmittedSat, QuadraticSat;
    AffineRowType(qc, n, lowers, sqrt);
    if qc.rowType == 'L' || forall j | 0 <= j < n :: Coefficient(LinearTerms(qc), j) == 0.0 {
      forall x: seq<real> | |x| == n
        ensures QuadraticSat(qc, x) <==> EmittedSat(qc, ShapeOf(qc, n, lowers, sqrt), x)
      {
        AffineRowMeaning(qc, n, lowers, sqrt, x);
        EmittedMeaning(qc, n, lowers, sqrt, x);
        if qc.rowType == 'G' {
          AffineLinearBelow(qc, n, lowers, sqrt);
          ZeroColumns(LinearTerms(qc), x);
        }
      }
    } else {
      var j :| 0 <= j < n && Coefficient(LinearTerms(qc), j) != 0.0;
      var x := DisagreementPoint(qc, n, lowers, sqrt, j);
    }
  }

  lemma {:induction false} AffineRowType(qc: QuadraticConstraint, n: nat, lowers: seq<Ext>, sqrt: real -> real)
    requires ShapeOf(qc, n, lowers, sqrt).Affine?
    ensures qc.rowType in "LG"
  {
  }

  /** The row -x0² + x1 >= 0. */
  function GreaterExample(): QuadraticConstraint {
    QuadraticConstraint('G', [1], [1.0], [0], [0], [-1.0], 0.0)
  }

  lemma {:induction false} GreaterExampleParts()
    ensures PartsOfRow(GreaterExample()) == Parts([Entry(0, 0, 1.0)], [], [], false, false)
    ensures InvalidReason(GreaterExample(), 2) == []
    ensures Normalized(GreaterExample()).linearValues == [-1.0] && Normalized(GreaterExample()).rhs == 0.0
  {
    hide PartsOf, SortEntries;
    var q := Normalized(GreaterExample());
    assert q.linearValues == [-1.0] && q.vals == [1.0];
    assert Entries(q) == [Entry(0, 0, 1.0)];
    OneSquareParts(Entry(0, 0, 1.0));
    assert GreaterExample().linearValues[0] != 0.0;
  }

  lemma {:induction false} GreaterExampleShape(sqrt: real -> real)
    ensures ShapeOf(GreaterExample(), 2, [NegInf, NegInf], sqrt) == Affine([0], 1.0)
  {
    hide PartsOf, InvalidReason, SortEntries, Entries, Normalized;
    GreaterExampleParts();
    assert RowsOf([Entry(0, 0, 1.0)]) == [0];
  }

  /** The row -x0² + x1 >= 0 and its translation disagree at (0, 1): a concrete input. */
  lemma {:induction false} AffineGreaterFails(sqrt: real -> real)
    requires IsSqrt(sqrt)
    ensures var s := ShapeOf(GreaterExample(), 2, [NegInf, NegInf], sqrt);
            s.Affine? && QuadraticSat(GreaterExample(), [0.0, 1.0]) && !EmittedSat(GreaterExample(), s, [0.0, 1.0])
  {
    hide ShapeOf, QuadraticSat, EmittedSat, IsSqrt;
    var x := [0.0, 1.0];
    GreaterExampleShape(sqrt);
    AffineRowMeaning(GreaterExample(), 2, [NegInf, NegInf], sqrt, x);
    EmittedMeaning(GreaterExample(), 2, [NegInf, NegInf], sqrt, x);
    assert [0][1..] == [];
    assert SumSq([0], x) == 0.0;
    assert LinearTerms(GreaterExample()) == [Term(1, 1.0)];
    DotOne(Term(1, 1.0), x);
  }

  lemma {:induction false} SelectOne(e: Entry)
    ensures forall kind: Kind :: Select([e], kind) == if KindOf(e) == kind then [e] else []
  {
    assert [e][..0] == [];
    forall kind: Kind
      ensures Select([e], kind) == if KindOf(e) == kind then [e] else []
    {
      assert Select([], kind) == [];
    }
  }

  // ---------------------------------------------------------------- a square without tails

  predicate Inhabited(lower: Ext, upper: Ext) {
    Le(lower, upper) && !lower.PosInf? && !upper.NegInf?
  }

  /** A value between the bounds, negative when the lower bound allows it. */
  function LowValue(lower: Ext, upper: Ext): (v: real)
    requires Inhabited(lower, upper)
    ensures Le(lower, Fin(v)) && Le(Fin(v), upper)
    ensures !Le(Fin(0.0), lower) ==> v < 0.0
  {
    if lower.Fin? then lower.v else if upper.Fin? && upper.v <= -1.0 then upper.v else -1.0
  }

  predicate InBox(lower: seq<Ext>, upper: seq<Ext>, x: seq<real>) {
    |x| == |lower| == |upper| && forall j | 0 <= j < |x| :: Le(lower[j], Fin(x[j])) && Le(Fin(x[j]), upper[j])
  }

  /** -s x² <= 0 always holds, the cone asks for x >= 0: the same on a box just when the box keeps the head >= 0. */
  lemma {:induction false} TaillessOnBox(qc: QuadraticConstraint, n: nat, lowers: seq<Ext>, sqrt: real -> real,
                                         lower: seq<Ext>, upper: seq<Ext>)
    requires IsSqrt(sqrt) && |lowers| == n && |lower| == |upper| == n && ShapeOf(qc, n, lowers, sqrt).Tailless?
    requires forall j | 0 <= j < n :: Inhabited(lower[j], upper[j])
    ensures var head := ShapeOf(qc, n, lowers, sqrt).head;
            && 0 <= head < n
            && ((forall x | InBox(lower, upper, x) :: QuadraticSat(qc, x) <==> ConSat(Cone([head]), x)) <==> Le(Fin(0.0), lower[head]))
  {
    hide ShapeOf, QuadraticSat, IsSqrt, SumSq, InBox;
    var head := ShapeOf(qc, n, lowers, sqrt).head;
    ShapeColumns(qc, n, lowers, sqrt);
    forall x: seq<real>
      ensures QuadraticSat(qc, x) && (ConSat(Cone([head]), x) <==> At(x, head) >= 0.0)
    {
      TaillessHolds(qc, n, lowers, sqrt, x);
    }
    if Le(Fin(0.0), lower[head]) {
      forall x | InBox(lower, upper, x)
        ensures At(x, head) >= 0.0
      {
        BoxAt(lower, upper, x, head);
      }
    } else {
      var x := seq(n, j requires 0 <= j < n => LowValue(lower[j], upper[j]));
      LowPoint(lower, upper, x);
      assert x[head] < 0.0;
      assert InBox(lower, upper, x) && QuadraticSat(qc, x) && !ConSat(Cone([head]), x);
    }
  }

  lemma {:induction false} BoxAt(lower: seq<Ext>, upper: seq<Ext>, x: seq<real>, j: int)
    requires InBox(lower, upper, x) && 0 <= j < |lower|
    ensures Le(lower[j], Fin(x[j]))
    ensures |lower| == |x| && |upper| == |x|
  {
  }

  lemma {:induction false} LowPoint(lower: seq<Ext>, upper: seq<Ext>, x: seq<real>)
    requires |lower| == |upper| == |x| && forall j | 0 <= j < |x| :: Inhabited(lower[j], upper[j]) && x[j] == LowValue(lower[j], upper[j])
    ensures InBox(lower, upper, x)
  {
  }

  lemma {:induction false} TaillessHolds(qc: QuadraticConstraint, n: nat, lowers: seq<Ext>, sqrt: real -> real, x: seq<real>)
    requires |lowers| == n && ShapeOf(qc, n, lowers, sqrt).Tailless?
    ensures QuadraticSat(qc, x)
    ensures ConSat(Cone([ShapeOf(qc, n, lowers, sqrt).head]), x) <==> At(x, ShapeOf(qc, n, lowers, sqrt).head) >= 0.0
  {
    hide Form, Dot, Select, SortEntries, Entries, LinearTerms, QuadraticSat;
    var q, p := Normalized(qc), PartsOfRow(qc);
    DecideFacts(p, |q.vals|, q.rhs, q.linearValues != [], lowers, sqrt);
    PartsOfValid(qc, n);
    RowByParts(qc, x);
    NoLinearPart(qc, x);
    assert p.pos == [] && p.cross == [] && p.neg == [p.neg[0]];
    FormEmpty(x);
    SingletonForm(p.neg[0], x);
    NegativeSquare(-p.neg[0].value, At(x, p.neg[0].row));
    var head := p.neg[0].row;
    assert [head][1..] == [];
    assert At(x, head) * At(x, head) >= 0.0;
  }

  /**
   * The row always holds and the cone asks for a non-negative head: the two agree on the points that bounds and
   * linear rows admit exactly when none of these has a negative head.
   */
  lemma {:induction false} TaillessExactIff(m: Model, qc: QuadraticConstraint, sqrt: real -> real)
    requires IsSqrt(sqrt) && ShapeOf(qc, m.n, LowersOf(m), sqrt).Tailless?
    ensures var head := ShapeOf(qc, m.n, LowersOf(m), sqrt).head;
            && 0 <= head < m.n
            && ((forall x | LinearOk(m, x) :: QuadraticSat(qc, x) <==> ConSat(Cone([head]), x)) <==>
                  !exists x :: LinearOk(m, x) && At(x, head) < 0.0)
  {
    hide ShapeOf, QuadraticSat, IsSqrt, LinearOk, ImpliedLower;
    var lowers := LowersOf(m);
    var head := ShapeOf(qc, m.n, lowers, sqrt).head;
    ShapeColumns(qc, m.n, lowers, sqrt);
    forall x: seq<real>
      ensures QuadraticSat(qc, x) && (ConSat(Cone([head]), x) <==> At(x, head) >= 0.0)
    {
      TaillessHolds(qc, m.n, lowers, sqrt, x);
    }
  }

  /** A non-negative lower bound of the head, its own or implied by a singleton row, is enough. */
  lemma {:induction false} TaillessGuard(m: Model, qc: QuadraticConstraint, sqrt: real -> real)
    requires WellFormed(m) && IsSqrt(sqrt) && ShapeOf(qc, m.n, LowersOf(m), sqrt).Tailless?
    requires HeadNonnegative(LowersOf(m), ShapeOf(qc, m.n, LowersOf(m), sqrt).head)
    ensures var head := ShapeOf(qc, m.n, LowersOf(m), sqrt).head;
            forall x | LinearOk(m, x) :: QuadraticSat(qc, x) <==> ConSat(Cone([head]), x)
  {
    hide ShapeOf, QuadraticSat, IsSqrt, LinearOk, LowersOf;
    var head := ShapeOf(qc, m.n, LowersOf(m), sqrt).head;
    LowersOfValid(m, LowersOf(m));
    TaillessExactIff(m, qc, sqrt);
    forall x | LinearOk(m, x) ensures At(x, head) >= 0.0 {
      assert Le(LowersOf(m)[head], Fin(At(x, head)));
    }
  }

  /** The row -x0² <= 0. */
  function TaillessExample(): QuadraticConstraint {
    QuadraticConstraint('L', [], [], [0], [0], [-1.0], 0.0)
  }

  /** With a free column the row -x0² <= 0 holds at -1 and the cone it becomes does not: a concrete input. */
  lemma {:induction false} TaillessFails(sqrt: real -> real)
    ensures ShapeOf(TaillessExample(), 1, [NegInf], sqrt) == Tailless(0)
    ensures QuadraticSat(TaillessExample(), [-1.0]) && !ConSat(Cone([0]), [-1.0])
  {
    hide PartsOf, SortEntries, Entries, Normalized, InvalidReason, ConSat, QuadraticSat;
    TaillessExampleParts();
    TaillessHolds(TaillessExample(), 1, [NegInf], sqrt, [-1.0]);
  }

  lemma {:induction false} TaillessExampleParts()
    ensures PartsOfRow(TaillessExample()) == Parts([], [Entry(0, 0, -1.0)], [], false, false)
    ensures InvalidReason(TaillessExample(), 1) == [] && Normalized(TaillessExample()) == TaillessExample()
  {
    hide PartsOf, SortEntries;
    assert Entries(TaillessExample()) == [Entry(0, 0, -1.0)];
    OneSquareParts(Entry(0, 0, -1.0));
  }

  /** The parts of a form with a single square. */
  lemma {:induction false} OneSquareParts(e: Entry)
    requires e.row == e.col && e.value != 0.0
    ensures PartsOf(SortEntries([e])) == if e.value > 0.0 then Parts([e], [], [], false, false) else Parts([], [e], [], false, false)
  {
    assert [e][1..] == [];
    assert SortEntries([e]) == [e];
    hide SortEntries;
    SelectOne(e);
    assert !HasAdjacentRows([e]);
  }

  // ---------------------------------------------------------------- affine and general rows in one call

  /** The head of an affine row and the first column of a general row, in the same column, on a point of the rows. */
  lemma {:induction false} CollisionForces(affine: QuadraticConstraint, scale: real, general: QuadraticConstraint, n0: nat,
                                           sqrt: real -> real, m: Model, z: seq<real>)
    requires WellFormed(m) && n0 <= m.n && IsSqrt(sqrt) && scale > 0.0 && InvalidReason(general, n0) == []
    requires TermsBelow(LinearTerms(affine), n0)
    requires AffineLink(affine, scale, n0) in m.rows && GeneralRows(general, n0, n0, sqrt, m.rows) && LinearOk(m, z)
    ensures n0 < |z| && scale * z[n0] == -Dot(LinearTerms(affine), z[..n0])
    ensures z[n0] * z[n0] <= 2.0 * Form(Entries(Normalized(general)), z[..n0])
  {
    hide Dot, Form, IsSqrt, InvalidReason, LinearTerms, ScaledTerms, Covers, IsHessian, Entries, WellFormed, LinearOk;
    LinearLength(m, z);
    var x := z[..n0];
    AffineHeadValue(affine, scale, n0, m, z);
    var vars, h, f :| GeneralFactor(general, n0, vars, h, f)
      && forall row | row in DefRows(GeneralDefs(Normalized(general), vars, f, sqrt), n0) :: row in m.rows;
    forall k | 0 <= k < |f.d|
      ensures At(z, |x| + k) == -Dot(FactorTerms(vars, f.perm, f.cols[k], sqrt(f.d[k])), x)
    {
      GeneralValue(general, n0, vars, h, f, sqrt, m, z, k);
    }
    LinkedSquares(Entries(Normalized(general)), vars, h, f, sqrt, x, z);
    FirstSquare(n0, |f.d|, z);
  }

  lemma {:induction false} FirstSquare(n0: nat, r: nat, z: seq<real>)
    requires r >= 1 && n0 < |z|
    ensures z[n0] * z[n0] <= SumSq(seq(r, k => n0 + k), z)
  {
    var cols := seq(r, k => n0 + k);
    SumSqNonnegative(cols[1..], z);
  }

  lemma {:induction false} RowHolds(m: Model, row: Row, z: seq<real>)
    requires row in m.rows && LinearOk(m, z) && WellFormed(m)
    ensures RowSat(row, z) && TermsBelow(row.terms, m.n) && |z| == m.n
  {
    var i :| 0 <= i < |m.rows| && m.rows[i] == row;
  }

  lemma {:induction false} LinkColumn(d: Def, col: int, n: int)
    requires TermsBelow(DefRow(d, col).terms, n)
    ensures 0 <= col < n
  {
    var terms := DefRow(d, col).terms;
    assert terms[|terms| - 1] == Term(col, 1.0);
  }

  lemma {:induction false} AffineHeadValue(affine: QuadraticConstraint, scale: real, n0: nat, m: Model, z: seq<real>)
    requires WellFormed(m) && n0 <= m.n && scale > 0.0 && TermsBelow(LinearTerms(affine), n0)
    requires AffineLink(affine, scale, n0) in m.rows && LinearOk(m, z)
    ensures n0 < |z| && scale * z[n0] == -Dot(LinearTerms(affine), z[..n0])
  {
    hide Dot, ScaledTerms, LinearTerms, WellFormed, LinearOk, DefRow;
    LinearLength(m, z);
    var x, d := z[..n0], Def(ScaledTerms(affine, scale), 0.0, Fin(0.0));
    RowHolds(m, AffineLink(affine, scale, n0), z);
    LinkColumn(d, n0, m.n);
    ScaledBelow(affine, scale, n0);
    DefRowValue(d, x, z, n0);
    ScaledTermsDot(affine, scale, x);
    NegatedScale(scale, z[n0], Dot(ScaledTerms(affine, scale), x));
  }

  lemma {:induction false} NegatedScale(s: real, v: real, w: real)
    requires v == 0.0 - w
    ensures s * v == -(s * w)
  {
  }

  lemma {:induction false} ScaledBelow(qc: QuadraticConstraint, scale: real, n: int)
    requires TermsBelow(LinearTerms(qc), n)
    ensures TermsBelow(ScaledTerms(qc, scale), n)
  {
    NonzeroTermsBelow(LinearTerms(qc), n);
  }

  lemma {:induction false} GeneralValue(qc: QuadraticConstraint, n0: nat, vars: seq<int>, h: seq<seq<real>>, f: Ldlt, sqrt: real -> real,
                                        m: Model, z: seq<real>, k: int)
    requires WellFormed(m) && n0 <= m.n && InvalidReason(qc, n0) == [] && GeneralFactor(qc, n0, vars, h, f) && 0 <= k < |f.d|
    requires forall row | row in DefRows(GeneralDefs(Normalized(qc), vars, f, sqrt), n0) :: row in m.rows
    requires LinearOk(m, z)
    ensures n0 + k < |z| && At(z, n0 + k) == -Dot(FactorTerms(vars, f.perm, f.cols[k], sqrt(f.d[k])), z[..n0])
  {
    hide Dot, FactorTerms, WellFormed, LinearOk, DefRow, InvalidReason, NonzeroTerms, LinearTerms, Covers, IsHessian, Injective;
    var defs := GeneralDefs(Normalized(qc), vars, f, sqrt);
    var d := defs[k];
    assert DefRows(defs, n0)[k] == DefRow(d, n0 + k);
    RowHolds(m, DefRow(d, n0 + k), z);
    LinkColumn(d, n0 + k, m.n);
    FactorColumns(qc, n0, vars, h, f);
    GeneralDefsBelow(qc, n0, vars, h, f, sqrt);
    DefRowValue(d, z[..n0], z, n0 + k);
  }

  lemma {:induction false} FactorColumns(qc: QuadraticConstraint, n0: nat, vars: seq<int>, h: seq<seq<real>>, f: Ldlt)
    requires GeneralFactor(qc, n0, vars, h, f)
    ensures ColsBelow(vars, n0) && Factorizes(f, h) && |h| == |vars|
  {
  }

  /** The row x0² + x1 <= 0, which gets an affine head. */
  function AffineExample(): QuadraticConstraint {
    QuadraticConstraint('L', [1], [1.0], [0], [0], [1.0], 0.0)
  }

  /** The row x0² <= 1, which takes the general path. */
  function GeneralExample(): QuadraticConstraint {
    QuadraticConstraint('L', [], [], [0], [0], [1.0], 1.0)
  }

  lemma {:induction false} MixedShapes(sqrt: real -> real, lowers: seq<Ext>)
    ensures ShapeOf(AffineExample(), 2, lowers, sqrt) == Affine([0], 1.0)
    ensures ShapeOf(GeneralExample(), 2, lowers, sqrt).General? && InvalidReason(GeneralExample(), 2) == []
    ensures Entries(Normalized(GeneralExample())) == [Entry(0, 0, 1.0)] && LinearTerms(AffineExample()) == [Term(1, 1.0)]
  {
    MixedParts();
    hide PartsOf, SortEntries, Entries, Normalized, InvalidReason;
    assert RowsOf([Entry(0, 0, 1.0)]) == [0];
  }

  lemma {:induction false} MixedParts()
    ensures PartsOfRow(AffineExample()) == Parts([Entry(0, 0, 1.0)], [], [], false, false)
    ensures InvalidReason(AffineExample(), 2) == [] && Normalized(AffineExample()) == AffineExample()
    ensures InvalidReason(GeneralExample(), 2) == [] && Normalized(GeneralExample()) == GeneralExample()
    ensures Entries(Normalized(GeneralExample())) == [Entry(0, 0, 1.0)] && LinearTerms(AffineExample()) == [Term(1, 1.0)]
  {
    hide PartsOf, SortEntries;
    assert Entries(AffineExample()) == [Entry(0, 0, 1.0)] && Entries(GeneralExample()) == [Entry(0, 0, 1.0)];
    OneSquareParts(Entry(0, 0, 1.0));
    assert AffineExample().linearValues[0] != 0.0;
  }

  /** The point (0, -1) satisfies both rows. */
  lemma {:induction false} MixedPoint()
    ensures QuadraticSat(AffineExample(), [0.0, -1.0]) && QuadraticSat(GeneralExample(), [0.0, -1.0])
  {
    var x, e := [0.0, -1.0], Entry(0, 0, 1.0);
    assert Entries(AffineExample()) == [e] && Entries(GeneralExample()) == [e];
    assert [e][1..] == [];
    assert LinearTerms(AffineExample()) == [Term(1, 1.0)] && LinearTerms(GeneralExample()) == [];
    DotOne(Term(1, 1.0), x);
  }

  /**
   * A call with one affine and one general row, on two free continuous columns without linear rows. It is accepted
   * when the second row is found convex; the affine head and the first column of the general row then are the same
   * column, and no point of the emitted rows extends (0, -1), although (0, -1) satisfies both rows.
   */
  method MixedCallFails(sqrt: real -> real, ldlt: seq<seq<real>> -> Ldlt, h: real) returns (p: ConicProblem, reason: seq<Reason>)
    requires IsSqrt(sqrt) && IsLdlt(ldlt) && h >= 0.0 && 2.0 * h * h == 1.0
    ensures reason == [] <==> Convex(GeneralExample(), ldlt)
    ensures QuadraticSat(AffineExample(), [0.0, -1.0]) && QuadraticSat(GeneralExample(), [0.0, -1.0])
    ensures reason == [] ==> forall z | LinearOk(p.Snapshot(), z) :: |z| >= 2 && z[..2] != [0.0, -1.0]
  {
    hide LowersOf, Accepted, InjectiveCones, ConsBelow, DimsOf, IsSqrt, IsLdlt, Convex, GeneralEmitted, AffineEmitted, LinearOk, QuadraticSat,
         ShapeOf, Faithful, Extends;
    var qcs := [AffineExample(), GeneralExample()];
    p := new ConicProblem(2, [0.0, 0.0], [NegInf, NegInf], [PosInf, PosInf], [true, true], [], Csr([], [], []));
    p.cons := [Quadratic(qcs[0]), Quadratic(qcs[1])];
    assert p.cons == Pending(qcs);
    ghost var lowers := LowersOf(p.Snapshot());
    MixedShapes(sqrt, lowers);
    MixedPoint();
    MixedAccepted(qcs, lowers, sqrt, ldlt);
    reason := p.TranslateAll(qcs, sqrt, ldlt, h);
    if reason == [] {
      forall z | LinearOk(p.Snapshot(), z) ensures |z| >= 2 && z[..2] != [0.0, -1.0] {
        MixedExcludes(qcs, lowers, sqrt, p.Snapshot(), z);
      }
    }
  }

  /** A factorisation routine that knows the Hessian of the general row. */
  function TwoLdlt(): seq<seq<real>> -> Ldlt {
    h => if h == [[2.0]] then Factor([0], [[1.0]], [2.0]) else Indefinite
  }

  /** The mixed call is accepted by some factorisation routine. */
  lemma {:induction false} MixedCallAccepted()
    ensures IsLdlt(TwoLdlt()) && Convex(GeneralExample(), TwoLdlt())
  {
    hide Factorizes, HessianOf, Square;
    TwoFactored();
    TwoHessian();
  }

  lemma {:induction false} TwoFactored()
    ensures Factorizes(Factor([0], [[1.0]], [2.0]), [[2.0]])
  {
    var f, h := Factor([0], [[1.0]], [2.0]), [[2.0]];
    assert OuterSum(f, 0, 0, 0) == 0.0 && OuterSum(f, 1, 0, 0) == 2.0;
    assert Symmetric(h, 0, 0) == 2.0;
  }

  lemma {:induction false} TwoHessian()
    ensures Entries(Normalized(GeneralExample())) == [Entry(0, 0, 1.0)] && VarSet([Entry(0, 0, 1.0)]) == [0]
    ensures HessianOf([Entry(0, 0, 1.0)], [0]) == [[2.0]]
  {
    var e := Entry(0, 0, 1.0);
    assert Entries(Normalized(GeneralExample())) == [e];
    assert [e][..0] == [];
    assert VarSet([]) == [] && VarSet([e]) == [0];
    assert Hess([], 0, 0) == 0.0 && Hess([e], 0, 0) == 2.0;
    var h := HessianOf([e], [0]);
    assert |h| == 1 && |h[0]| == 1 && h[0][0] == 2.0;
    assert h[0] == [2.0];
  }

  lemma {:induction false} MixedAccepted(qcs: seq<QuadraticConstraint>, lowers: seq<Ext>, sqrt: real -> real, ldlt: seq<seq<real>> -> Ldlt)
    requires qcs == [AffineExample(), GeneralExample()]
    ensures Accepted(qcs, 2, lowers, sqrt, ldlt, [true, true]) <==> Convex(GeneralExample(), ldlt)
  {
    hide ShapeOf, Convex;
    MixedShapes(sqrt, lowers);
    assert RowAccepted(qcs[0], 2, lowers, sqrt, ldlt);
    assert RowAccepted(qcs[1], 2, lowers, sqrt, ldlt) <==> Convex(GeneralExample(), ldlt);
    assert RowContinuous(ShapeOf(qcs[0], 2, lowers, sqrt), [true, true]) && RowContinuous(ShapeOf(qcs[1], 2, lowers, sqrt), [true, true]);
  }

  lemma {:induction false} MixedExcludes(qcs: seq<QuadraticConstraint>, lowers: seq<Ext>, sqrt: real -> real, m: Model, z: seq<real>)
    requires qcs == [AffineExample(), GeneralExample()] && WellFormed(m) && m.n >= 2 && IsSqrt(sqrt) && LinearOk(m, z)
    requires GeneralEmitted(qcs, m.rows, 2, 2, lowers, sqrt) && AffineEmitted(qcs, m.rows, 2, lowers, sqrt)
    ensures |z| >= 2 && z[..2] != [0.0, -1.0]
  {
    hide ShapeOf, Dot, Form, WellFormed, LinearOk, IsSqrt, GeneralRows, AffineLink, InvalidReason, Entries, Normalized, LinearTerms;
    MixedShapes(sqrt, lowers);
    assert ReservedHead(qcs, 2, 0) == 2 && NoGeneralBefore(qcs, 2, lowers, sqrt, 1);
    CollisionForces(qcs[0], 1.0, qcs[1], 2, sqrt, m, z);
    MixedValues(z[..2]);
  }

  lemma {:induction false} MixedValues(x: seq<real>)
    ensures x == [0.0, -1.0] ==> Dot([Term(1, 1.0)], x) == -1.0 && Form([Entry(0, 0, 1.0)], x) == 0.0
  {
    assert [Entry(0, 0, 1.0)][1..] == [] && [Term(1, 1.0)][1..] == [];
  }
}
