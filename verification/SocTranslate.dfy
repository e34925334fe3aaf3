/** The in-place translation of quadratic rows into linear rows and second-order cones. */
module SocTranslate {
  import opened Extended
  import opened Sums
  import opened ConicModel
  import opened SocClassify
  import opened SocGeneral
  import opened SocPasses
  import opened SocHeads
  import opened SocPermute
  import opened SocShapes
  import opened SocAcceptance
  import opened SocDisjoint

  // ---------------------------------------------------------------- what the loop over the rows leaves behind

  function Pending(qcs: seq<QuadraticConstraint>): seq<Con> {
    seq(|qcs|, i requires 0 <= i < |qcs| => Quadratic(qcs[i]))
  }

  /** A translated constraint: in range, without repeated cone members, heads bounded below. */
  ghost predicate Translated(c: Con, n: nat, lowers: seq<Ext>) {
    && ConBelow(c, n)
    && match c
       case Quadratic(_) => false
       case PendingAffine(_, tails, _, _) => Injective(tails)
       case HalfHead(_, tails) => Injective(tails)
       case TwoHeads(a, b, tails, ratio) =>
         Injective(tails) && HeadNonnegative(lowers, a) && HeadNonnegative(lowers, b) && ratio >= 0.0
       case Cone(vars) => Injective(vars)
  }

  ghost predicate AllTranslated(cons: seq<Con>, n: nat, lowers: seq<Ext>) {
    forall i | 0 <= i < |cons| :: Translated(cons[i], n, lowers)
  }

  /** The rows that the translation represents exactly, apart from the direction of affine rows. */
  ghost predicate HeadsBounded(qcs: seq<QuadraticConstraint>, n: nat, lowers: seq<Ext>, sqrt: real -> real) {
    forall i | 0 <= i < |qcs| :: RowHeadBounded(qcs[i], n, lowers, sqrt)
  }

  /** A tail-less negative square is exact only when the head is bounded below by zero. */
  ghost predicate RowHeadBounded(qc: QuadraticConstraint, n: nat, lowers: seq<Ext>, sqrt: real -> real) {
    var s := ShapeOf(qc, n, lowers, sqrt);
    s.Tailless? ==> HeadNonnegative(lowers, s.head)
  }

  ghost predicate AffineRowsAreUpper(qcs: seq<QuadraticConstraint>, n: nat, lowers: seq<Ext>, sqrt: real -> real) {
    forall i | 0 <= i < |qcs| && ShapeOf(qcs[i], n, lowers, sqrt).Affine? :: qcs[i].rowType == 'L'
  }

  ghost predicate NotMixed(qcs: seq<QuadraticConstraint>, n: nat, lowers: seq<Ext>, sqrt: real -> real) {
    || (forall i | 0 <= i < |qcs| :: !ShapeOf(qcs[i], n, lowers, sqrt).Affine?)
    || (forall i | 0 <= i < |qcs| :: !ShapeOf(qcs[i], n, lowers, sqrt).General?)
  }

  /** Rows with a linear part before row `k`: each reserves one column. */
  function LinearCount(qcs: seq<QuadraticConstraint>, k: nat): nat
    requires k <= |qcs|
  {
    if k == 0 then 0 else LinearCount(qcs, k - 1) + if qcs[k - 1].linearValues != [] then 1 else 0
  }

  /** Rows before row `k` that take the general path. */
  ghost function GeneralCount(qcs: seq<QuadraticConstraint>, n: nat, lowers: seq<Ext>, sqrt: real -> real, k: nat): nat
    requires k <= |qcs|
  {
    if k == 0 then 0 else GeneralCount(qcs, n, lowers, sqrt, k - 1) + if ShapeOf(qcs[k - 1], n, lowers, sqrt).General? then 1 else 0
  }

  /** The column reserved for the affine head of row `i`, -1 for a row without linear part. */
  function ReservedHead(qcs: seq<QuadraticConstraint>, n: int, i: nat): int
    requires i < |qcs|
  {
    if qcs[i].linearValues != [] then n + LinearCount(qcs, i) else -1
  }

  /** No affine row has had its reserved head column taken by a general row; `n` columns exist after the rows. */
  ghost predicate HeadsFresh(qcs: seq<QuadraticConstraint>, n0: nat, lowers: seq<Ext>, sqrt: real -> real, n: nat) {
    forall i: nat | i < |qcs| && ShapeOf(qcs[i], n0, lowers, sqrt).Affine? :: ReservedHead(qcs, n0, i) >= n
  }

  /** A factorisation of the Hessian of a general row over columns of the model. */
  ghost predicate GeneralFactor(qc: QuadraticConstraint, n0: nat, vars: seq<int>, h: seq<seq<real>>, f: Ldlt) {
    && Injective(vars) && ColsBelow(vars, n0) && Covers(vars, Entries(Normalized(qc)))
    && IsHessian(h, Entries(Normalized(qc)), vars) && Factorizes(f, h) && |f.d| >= 1
  }

  /** The linking rows of a general row whose columns start at `base` are among the rows. */
  ghost predicate GeneralRows(qc: QuadraticConstraint, n0: nat, base: nat, sqrt: real -> real, rows: seq<Row>) {
    exists vars, h, f :: GeneralFactor(qc, n0, vars, h, f)
      && forall row | row in DefRows(GeneralDefs(Normalized(qc), vars, f, sqrt), base) :: row in rows
  }

  /** The first general row has its columns from `n0` on. */
  ghost predicate GeneralEmitted(qcs: seq<QuadraticConstraint>, rows: seq<Row>, k: nat, n0: nat, lowers: seq<Ext>, sqrt: real -> real)
    requires k <= |qcs|
  {
    forall i: nat | i < k && ShapeOf(qcs[i], n0, lowers, sqrt).General? && NoGeneralBefore(qcs, n0, lowers, sqrt, i) ::
      GeneralRows(qcs[i], n0, n0, sqrt, rows)
  }

  /** The linking row of the head of an affine row with the given scale. */
  function AffineLink(qc: QuadraticConstraint, scale: real, head: int): Row {
    DefRow(Def(ScaledTerms(qc, scale), 0.0, Fin(0.0)), head)
  }

  /** Every affine row has its head linked in the column reserved for it. */
  ghost predicate AffineEmitted(qcs: seq<QuadraticConstraint>, rows: seq<Row>, n0: nat, lowers: seq<Ext>, sqrt: real -> real) {
    forall i: nat | i < |qcs| && ShapeOf(qcs[i], n0, lowers, sqrt).Affine? ::
      AffineLink(qcs[i], ShapeOf(qcs[i], n0, lowers, sqrt).scale, ReservedHead(qcs, n0, i)) in rows
  }

  lemma {:induction false} GeneralRowsMore(qc: QuadraticConstraint, n0: nat, base: nat, sqrt: real -> real, a: seq<Row>, b: seq<Row>)
    requires GeneralRows(qc, n0, base, sqrt, a) && a <= b
    ensures GeneralRows(qc, n0, base, sqrt, b)
  {
    hide Injective, ColsBelow, Covers, IsHessian, DefRows, GeneralDefs;
    var vars, h, f :| GeneralFactor(qc, n0, vars, h, f)
      && forall row | row in DefRows(GeneralDefs(Normalized(qc), vars, f, sqrt), base) :: row in a;
  }

  lemma {:induction false} EmittedMore(qcs: seq<QuadraticConstraint>, a: seq<Row>, b: seq<Row>, k: nat, n0: nat, lowers: seq<Ext>, sqrt: real -> real)
    requires k <= |qcs| && GeneralEmitted(qcs, a, k, n0, lowers, sqrt) && a <= b
    ensures GeneralEmitted(qcs, b, k, n0, lowers, sqrt)
  {
    hide GeneralRows, ShapeOf, NoGeneralBefore;
    forall i: nat | i < k && ShapeOf(qcs[i], n0, lowers, sqrt).General? && NoGeneralBefore(qcs, n0, lowers, sqrt, i)
      ensures GeneralRows(qcs[i], n0, n0, sqrt, b)
    {
      GeneralRowsMore(qcs[i], n0, n0, sqrt, a, b);
    }
  }

  lemma {:induction false} EmittedOneMore(qcs: seq<QuadraticConstraint>, a: seq<Row>, b: seq<Row>, k: nat, n0: nat, lowers: seq<Ext>,
                                          sqrt: real -> real)
    requires k < |qcs| && GeneralEmitted(qcs, a, k, n0, lowers, sqrt) && a <= b
    requires ShapeOf(qcs[k], n0, lowers, sqrt).General? && NoGeneralBefore(qcs, n0, lowers, sqrt, k) ==>
               GeneralRows(qcs[k], n0, n0, sqrt, b)
    ensures GeneralEmitted(qcs, b, k + 1, n0, lowers, sqrt)
  {
    hide GeneralRows, ShapeOf, NoGeneralBefore;
    EmittedMore(qcs, a, b, k, n0, lowers, sqrt);
  }

  lemma {:induction false} AffineEmittedMore(qcs: seq<QuadraticConstraint>, a: seq<Row>, b: seq<Row>, n0: nat, lowers: seq<Ext>, sqrt: real -> real)
    requires AffineEmitted(qcs, a, n0, lowers, sqrt) && a <= b
    ensures AffineEmitted(qcs, b, n0, lowers, sqrt)
  {
    hide ShapeOf, AffineLink;
  }

  /** No check rejects the row: its shape is recognised, or it takes the general path and is convex. */
  ghost predicate RowAccepted(qc: QuadraticConstraint, n: nat, lowers: seq<Ext>, sqrt: real -> real, ldlt: seq<seq<real>> -> Ldlt) {
    var s := ShapeOf(qc, n, lowers, sqrt);
    !s.Rejected? && (s.General? ==> Convex(qc, ldlt))
  }

  ghost predicate AllAccepted(qcs: seq<QuadraticConstraint>, n: nat, lowers: seq<Ext>, sqrt: real -> real,
                              ldlt: seq<seq<real>> -> Ldlt, k: nat)
    requires k <= |qcs|
  {
    forall i | 0 <= i < k :: RowAccepted(qcs[i], n, lowers, sqrt, ldlt)
  }

  /** Exactly the lists of rows that are translated without an error. */
  ghost predicate Accepted(qcs: seq<QuadraticConstraint>, n: nat, lowers: seq<Ext>, sqrt: real -> real,
                           ldlt: seq<seq<real>> -> Ldlt, continuous: seq<bool>) {
    AllAccepted(qcs, n, lowers, sqrt, ldlt, |qcs|) && RowsContinuous(qcs, n, lowers, sqrt, continuous)
  }

  ghost predicate RowsContinuous(qcs: seq<QuadraticConstraint>, n: nat, lowers: seq<Ext>, sqrt: real -> real, continuous: seq<bool>) {
    forall i | 0 <= i < |qcs| :: RowContinuous(ShapeOf(qcs[i], n, lowers, sqrt), continuous)
  }

  /** Acceptance by shapes is acceptance in coordinates. */
  lemma {:induction false} AcceptedIff(qcs: seq<QuadraticConstraint>, m: Model, sqrt: real -> real, ldlt: seq<seq<real>> -> Ldlt,
                                       continuous: seq<bool>)
    requires IsSqrt(sqrt)
    ensures Accepted(qcs, m.n, LowersOf(m), sqrt, ldlt, continuous) <==> AllAcceptable(qcs, m, ldlt, continuous)
  {
    hide ShapeOf, Convex, Acceptable, RowContinuous, LowersOf, IsSqrt, SameHeads;
    SameHeadsOf(m);
    forall i | 0 <= i < |qcs|
      ensures Acceptable(qcs[i], m, ldlt, continuous) <==>
                RowAccepted(qcs[i], m.n, LowersOf(m), sqrt, ldlt) && RowContinuous(ShapeOf(qcs[i], m.n, LowersOf(m), sqrt), continuous)
    {
      AcceptableIff(qcs[i], m, LowersOf(m), sqrt, ldlt, continuous);
    }
  }

  lemma {:induction false} SameHeadsOf(m: Model)
    ensures |LowersOf(m)| == m.n && SameHeads(m, LowersOf(m))
  {
    hide HeadNonnegative, KeptNonnegative, ImpliedLower;
    forall j
      ensures HeadNonnegative(LowersOf(m), j) <==> KeptNonnegative(m, j)
    {
      HeadTestIff(m, LowersOf(m), j);
    }
  }

  predicate AllRotatedContinuous(cons: seq<Con>, continuous: seq<bool>) {
    forall i | 0 <= i < |cons| :: RotatedContinuous(cons[i], continuous)
  }

  /** Cones and rotated cones: every row is translated and every affine head is in place. */
  predicate OnlyCones(cons: seq<Con>) {
    forall i | 0 <= i < |cons| :: !cons[i].PendingAffine? && !cons[i].Quadratic?
  }

  predicate ObjectiveReadable(q: Csr, n: nat) {
    q.values == [] || (ValidCsr(q, n) && CsrColumnsBelow(q, n))
  }

  method ReserveAffineHeads(qcs: seq<QuadraticConstraint>, n: int) returns (heads: seq<int>, width: int)
    ensures |heads| == |qcs| && forall i: nat | i < |qcs| :: heads[i] == ReservedHead(qcs, n, i)
    ensures width == n + LinearCount(qcs, |qcs|)
  {
    heads := [];
    var next := n;
    for i := 0 to |qcs|
      invariant next == n + LinearCount(qcs, i)
      invariant |heads| == i && forall k: nat | k < i :: heads[k] == ReservedHead(qcs, n, k)
    {
      if qcs[i].linearValues != [] {
        heads := heads + [next];
        next := next + 1;
      } else {
        heads := heads + [-1];
      }
    }
    width := next;
  }

  lemma {:induction false} LowersValidExtended(m: Model, defs: seq<Def>, cons: seq<Con>, lowers: seq<Ext>)
    requires WellFormed(m) && |lowers| <= m.n && LowersValid(m, lowers)
    requires forall i | 0 <= i < |defs| :: TermsBelow(defs[i].terms, m.n)
    ensures LowersValid(DefineAll(m, defs, cons), lowers)
  {
    forall z, j | LinearOk(DefineAll(m, defs, cons), z) && 0 <= j < |lowers|
      ensures Le(lowers[j], Fin(At(z, j)))
    {
      DefineAllLinear(m, defs, cons, z);
      AtPrefix(z[..m.n], z, j);
    }
  }

  lemma {:induction false} ShapeTranslated(qc: QuadraticConstraint, n: int, m: nat, lowers: seq<Ext>, sqrt: real -> real, head: int)
    requires IsSqrt(sqrt) && n <= m
    requires var s := ShapeOf(qc, n, lowers, sqrt); !s.Rejected? && !s.General?
    ensures Translated(ShapeCon(ShapeOf(qc, n, lowers, sqrt), qc, head), m, lowers)
  {
    hide ShapeOf, HeadNonnegative;
    ShapeColumns(qc, n, lowers, sqrt);
    var s := ShapeOf(qc, n, lowers, sqrt);
    if s.Affine? { AffineTermsBelow(qc, n, lowers, sqrt); }
  }

  lemma {:induction false} AffineTermsBelow(qc: QuadraticConstraint, n: int, lowers: seq<Ext>, sqrt: real -> real)
    requires ShapeOf(qc, n, lowers, sqrt).Affine?
    ensures TermsBelow(LinearTerms(Normalized(qc)), n)
  {
    forall k | 0 <= k < |LinearTerms(Normalized(qc))|
      ensures 0 <= LinearTerms(Normalized(qc))[k].col < n
    {
      assert LinearTerms(Normalized(qc))[k].col == LinearTerms(qc)[k].col;
    }
  }

  lemma {:induction false} GeneralConeTranslated(n: nat, r: nat, lowers: seq<Ext>)
    ensures Translated(Cone(GeneralCone(n, r)), n + r + 2, lowers)
    ensures |GeneralCone(n, r)| == r + 2
  {
  }

  lemma {:induction false} TranslatedLonger(c: Con, n: nat, n': nat, lowers: seq<Ext>)
    requires Translated(c, n, lowers) && n <= n'
    ensures Translated(c, n', lowers)
  {
  }

  lemma {:induction false} AllTranslatedBelow(cons: seq<Con>, n: nat, lowers: seq<Ext>)
    requires AllTranslated(cons, n, lowers)
    ensures ConsBelow(cons, n)
  {
    forall i | 0 <= i < |cons| ensures ConBelow(cons[i], n) {
      assert Translated(cons[i], n, lowers);
    }
  }

  // ---------------------------------------------------------------- the problem and its passes

  class ConicProblem {
    var n: nat
    var objective: seq<real>
    var lower: seq<Ext>
    var upper: seq<Ext>
    var continuous: seq<bool>
    var rows: seq<Row>
    // the quadratic rows, as far as they are translated
    var cons: seq<Con>
    var coneDims: seq<nat>
    var quadratic: Csr
    var coneStart: nat
    var colMap: seq<int>

    constructor (n: nat, objective: seq<real>, lower: seq<Ext>, upper: seq<Ext>, continuous: seq<bool>,
                 rows: seq<Row>, quadratic: Csr)
      ensures this.n == n && this.objective == objective && this.lower == lower && this.upper == upper
      ensures this.continuous == continuous && this.rows == rows && this.quadratic == quadratic
      ensures cons == [] && coneDims == [] && coneStart == 0 && colMap == []
    {
      this.n, this.objective, this.lower, this.upper := n, objective, lower, upper;
      this.continuous, this.rows, this.quadratic := continuous, rows, quadratic;
      cons, coneDims, coneStart, colMap := [], [], 0, [];
    }

    ghost function Snapshot(): Model
      reads this
    {
      Model(n, objective, lower, upper, rows, cons)
    }

    ghost predicate Valid()
      reads this
    {
      WellFormed(Snapshot()) && |continuous| == n
    }

    /** The fields that only the last passes touch. */
    twostate predicate OutputUntouched()
      reads this
    {
      quadratic == old(quadratic) && colMap == old(colMap) && coneStart == old(coneStart)
    }

    /** Append free columns whose linking rows are `defs`; they come one row per column, in order. */
    method AppendDefined(defs: seq<Def>, kinds: seq<bool>)
      requires Valid() && |kinds| == |defs|
      modifies this`n, this`objective, this`lower, this`upper, this`continuous, this`rows
      ensures Snapshot() == DefineAll(old(Snapshot()), defs, cons)
      ensures continuous == old(continuous) + kinds
    {
      var base := n;
      objective := objective + seq(|defs|, _ => 0.0);
      lower := lower + seq(|defs|, i requires 0 <= i < |defs| => defs[i].lower);
      upper := upper + seq(|defs|, _ => PosInf);
      continuous := continuous + kinds;
      n := base + |defs|;
      var appended := rows;
      for i := 0 to |defs|
        invariant appended == rows + DefRows(defs, base)[..i]
      {
        appended := appended + [Row(defs[i].terms + [Term(base + i, 1.0)], Equals, defs[i].rhs)];
      }
      assert DefRows(defs, base)[..|defs|] == DefRows(defs, base);
      rows := appended;
    }

    /** The general convex path for row `k`. */
    method TranslateGeneral(k: nat, qc: QuadraticConstraint, n0: nat, ghost lowers: seq<Ext>,
                            sqrt: real -> real, ldlt: seq<seq<real>> -> Ldlt) returns (reason: seq<Reason>)
      requires Valid() && IsSqrt(sqrt) && IsLdlt(ldlt) && InvalidReason(qc, n0) == [] && n0 <= n
      requires k < |cons| && cons[k] == Quadratic(qc)
      requires |lowers| <= n && LowersValid(Snapshot(), lowers)
      modifies this
      ensures Valid() && OutputUntouched()
      ensures reason == [] <==> Convex(qc, ldlt)
      ensures reason != [] ==> Snapshot() == old(Snapshot()) && continuous == old(continuous) && coneDims == old(coneDims)
      ensures reason == [] ==> GeneralStep(old(Snapshot()), k, Snapshot(), lowers)
      ensures reason == [] ==> coneDims == old(coneDims) + [ConDim(cons[k])] && old(continuous) <= continuous
      ensures reason == [] ==> old(rows) <= rows && GeneralRows(qc, n0, old(n), sqrt, rows)
      ensures reason == [] ==> forall j | |old(continuous)| <= j < |continuous| :: continuous[j]
    {
      hide GeneralStep, LowersValid, IsLdlt, IsSqrt, Factorizes, Convex, GeneralFactor, InvalidReason, GeneralDefs;
      var ok, defs, r;
      ghost var vars, h, f;
      ok, defs, r, vars, h, f := FactorRow(Snapshot(), k, qc, n0, lowers, sqrt, ldlt);
      if !ok { return [NonConvex]; }
      var base := n;
      GeneralStepFacts(Snapshot(), k, defs, r, lowers);
      FactorShape(qc, n0, vars, h, f);
      assert GeneralFactor(qc, n0, vars, h, f) && defs == GeneralDefs(Normalized(qc), vars, f, sqrt);
      AppendDefined(defs, seq(|defs|, _ => true));
      cons := cons[k := Cone(GeneralCone(base, r))];
      coneDims := coneDims + [r + 2];
      return [];
    }

    /** The loop over the quadratic rows: recognise each one, or send it down the general path. */
    method TranslateRows(qcs: seq<QuadraticConstraint>, n0: nat, lowers: seq<Ext>, sqrt: real -> real,
                         ldlt: seq<seq<real>> -> Ldlt) returns (reason: seq<Reason>, width: int)
      requires Valid() && IsSqrt(sqrt) && IsLdlt(ldlt) && n == n0 == |lowers|
      requires cons == Pending(qcs) && coneDims == [] && LowersValid(Snapshot(), lowers)
      modifies this
      ensures Valid() && OutputUntouched() && old(continuous) <= continuous
      ensures reason == [] <==> AllAccepted(qcs, n0, lowers, sqrt, ldlt, |qcs|)
      ensures reason == [] ==> |cons| == |qcs| && RowsLinked(qcs, cons, n0, lowers, sqrt, |qcs|)
      ensures reason == [] ==> AllTranslated(cons, n, lowers) && LowersValid(Snapshot(), lowers) && coneDims == DimsOf(cons)
      ensures reason == [] ==> NoQuadratic(cons)
      ensures reason == [] ==> n >= n0 + 3 * GeneralCount(qcs, n0, lowers, sqrt, |qcs|)
      ensures reason == [] ==> n0 <= n && (NoGeneralBefore(qcs, n0, lowers, sqrt, |qcs|) ==> n == n0)
      ensures reason == [] && HeadsBounded(qcs, n0, lowers, sqrt) ==> Extends(old(Snapshot()), Snapshot())
      ensures reason == [] ==> FreeFrom(Snapshot(), n0) && forall j | n0 <= j < n :: continuous[j]
      ensures reason == [] ==> GeneralEmitted(qcs, rows, |qcs|, n0, lowers, sqrt) && width == n0 + LinearCount(qcs, |qcs|)
      ensures reason == [] ==> (NotMixed(qcs, n0, lowers, sqrt) <==> HeadsFresh(qcs, n0, lowers, sqrt, n))
    {
      hide RowsDone, ShapeOf, LowersValid, IsSqrt, IsLdlt, ShapeCon, GeneralStep, WellFormed, Convex, GeneralRows, GeneralEmitted, FreeFrom,
           NoGeneralBefore, NotMixed, HeadsFresh, AllAccepted, RowAccepted, ShapeFits, ArgumentsValid, InvalidReason, Normalized, Entries;
      ghost var m0 := Snapshot();
      RowsDoneStart(m0, qcs, n0, lowers, sqrt);
      NothingDone(m0, qcs, n0, lowers, sqrt, ldlt);
      var heads;
      heads, width := ReserveAffineHeads(qcs, n0);
      for k := 0 to |qcs|
        invariant Valid() && OutputUntouched() && |cons| == |qcs| && old(continuous) <= continuous
        invariant AllAccepted(qcs, n0, lowers, sqrt, ldlt, k)
        invariant RowsDone(m0, Snapshot(), coneDims, qcs, k, n0, lowers, sqrt)
        invariant FreeFrom(Snapshot(), n0) && forall j | n0 <= j < n :: continuous[j]
        invariant GeneralEmitted(qcs, rows, k, n0, lowers, sqrt) && width == n0 + LinearCount(qcs, |qcs|)
      {
        var shape := Classify(qcs[k], n0, lowers, sqrt);
        AcceptedOneMore(qcs, n0, lowers, sqrt, ldlt, k);
        if shape.Rejected? { return [shape.reason], width; }
        ghost var before, dims := Snapshot(), coneDims;
        RowsDoneFacts(m0, before, dims, qcs, k, n0, lowers, sqrt);
        if shape.General? {
          GeneralIsValid(qcs[k], n0, lowers, sqrt);
          var failed := TranslateGeneral(k, qcs[k], n0, lowers, sqrt, ldlt);
          if failed != [] { return failed, width; }
          AfterGeneral(m0, before, Snapshot(), dims, qcs, k, n0, lowers, sqrt);
          StepFree(before, k, Snapshot(), lowers, n0);
        } else {
          cons := cons[k := ShapeCon(shape, qcs[k], heads[k])];
          coneDims := coneDims + [ConDim(cons[k])];
          AfterRecognised(m0, before, Snapshot(), dims, qcs, k, n0, lowers, sqrt);
          SameFree(before, Snapshot(), n0);
        }
        EmittedOneMore(qcs, before.rows, rows, k, n0, lowers, sqrt);
      }
      RowsDoneEnd(m0, Snapshot(), coneDims, qcs, n0, lowers, sqrt);
      NoneRejected(qcs, n0, lowers, sqrt, ldlt);
      HeadsFreshIff(qcs, n0, lowers, sqrt, n);
      return [], width;
    }

    /**
     * Install the affine heads in their reserved columns: bounds, linking rows and rotated cones. Nothing checks
     * that a reserved column has not been taken in the meantime.
     */
    method InstallAffineHeads(qcs: seq<QuadraticConstraint>, n0: nat, width: nat)
      requires Valid() && ConsBelow(cons, n) && PendingHeads(cons, qcs, n0, width) && n0 <= n
      modifies this
      ensures Valid() && OutputUntouched() && coneDims == old(coneDims)
      ensures Snapshot() == WithHeads(old(Snapshot()), qcs, width)
      ensures continuous == old(continuous) + seq(n - old(n), _ => true)
    {
      hide WellFormed, ConsBelow, PendingHeads, HeadRows, AffineCons, BoundsWith, HeadLowers, HeadUppers;
      ghost var m := Snapshot();
      WithHeadsWellFormed(m, qcs, n0, width);
      SnapshotLengths();
      var w := if n < width then width else n;
      var lo, up, links, after := BuildAffineHeads(cons, qcs, lower, upper, n0, w, width);
      HeadBoundsAre(m, width, lo, up);
      objective := objective + seq(w - n, _ => 0.0);
      continuous := continuous + seq(w - n, _ => true);
      lower, upper, rows, cons, n := lo, up, rows + links, after, w;
    }

    lemma {:induction false} SnapshotLengths()
      requires Valid()
      ensures |objective| == |lower| == |upper| == |continuous| == n
    {
    }

    /** Replace every rotated cone by a standard one over two fresh columns; `h` is 1/sqrt(2). */
    method LiftRotated(h: real) returns (reason: seq<Reason>)
      requires Valid() && ConsBelow(cons, n)
      modifies this
      ensures Valid() && OutputUntouched() && coneDims == old(coneDims) && old(continuous) <= continuous
      ensures reason == [] ==> Snapshot() == DefineAll(old(Snapshot()), LiftAllDefs(old(cons), h), LiftCons(old(cons), h, old(n)))
      ensures reason == [] <==> AllRotatedContinuous(old(cons), old(continuous))
    {
      for i := 0 to |cons|
        invariant forall k | 0 <= k < i :: RotatedContinuous(cons[k], continuous)
      {
        if !RotatedContinuous(cons[i], continuous) { return [NotContinuous]; }
      }
      LiftDefined(Snapshot(), h);
      var defs, after := BuildLift(cons, h, n);
      AppendDefined(defs, seq(|defs|, _ => true));
      cons := after;
      return [];
    }

    /** Append one copy of every listed column, tied to it by a linking row, and keep its variable type. */
    method AppendCopies(originals: seq<int>, after: seq<Con>)
      requires Valid() && ColsBelow(originals, n)
      modifies this
      ensures Valid() && OutputUntouched() && coneDims == old(coneDims)
      ensures Snapshot() == DefineAll(old(Snapshot()), CopyDefs(originals), after)
      ensures continuous == old(continuous) + KindsOf(old(continuous), originals)
    {
      DefineAllWellFormed(Snapshot(), CopyDefs(originals), after);
      AppendDefined(CopyDefs(originals), KindsOf(continuous, originals));
      cons := after;
    }

    /** Columns outside the cones first, then the cones as consecutive blocks. */
    method PermuteColumns() returns (ghost back: seq<int>)
      requires Valid() && AllCones(cons) && ConsBelow(cons, n) && Injective(Flatten(cons)) && ColsBelow(Flatten(cons), n)
      modifies this
      ensures Valid() && n == old(n) && cons == old(cons) && coneDims == old(coneDims) && quadratic == old(quadratic)
      ensures Permutes(old(Snapshot()), Snapshot(), colMap, back) && coneStart <= n && back[coneStart..] == Flatten(cons)
      ensures |continuous| == n && forall j | 0 <= j < n :: continuous[colMap[j]] == old(continuous)[j]
    {
      var forward, order, start := BuildOrder(cons, n);
      ghost var m := Snapshot();
      rows := PermuteRowIndices(rows, forward);
      objective := PermuteDense(objective, forward, order);
      lower := PermuteDense(lower, forward, order);
      upper := PermuteDense(upper, forward, order);
      continuous := PermuteDense(continuous, forward, order);
      coneStart, colMap, back := start, forward, order;
      PermutedWellFormed(m, Snapshot(), forward, back);
    }

    /** Points of the translated problem: bounds, rows, and the trailing blocks as cones. */
    ghost predicate Accepts(z: seq<real>)
      reads this
    {
      BlockFeasible(Snapshot(), coneStart, coneDims, z)
    }

    function Project(z: seq<real>): seq<real>
      reads this
    {
      Gather(z, colMap)
    }

    /**
     * The translated problem represents `m0` with quadratic objective `q0` exactly: accepted points project
     * onto the feasible points of `m0`, onto all of them, and with the same objective value.
     */
    ghost predicate Represents(m0: Model, q0: Csr)
      reads this
    {
      && |colMap| == m0.n
      && (forall x | Feasible(m0, x) :: exists z :: Accepts(z) && Project(z) == x)
      && (forall z | Accepts(z) :: Feasible(m0, Project(z)))
      && (forall z: seq<real> | |z| == n ::
            DenseDot(objective, z) == DenseDot(m0.obj, Project(z)) && CsrForm(quadratic, n, z) == CsrForm(q0, m0.n, Project(z)))
    }

    /** The layout the barrier relies on: disjoint trailing blocks of the recorded sizes, free but for their heads. */
    ghost predicate ConeLayout()
      reads this
    {
      && |lower| == |upper| == n && BlockStart(coneStart, coneDims, |coneDims|) == n
      && forall k | 0 <= k < |coneDims| :: BlockReady(Block(coneStart, coneDims, k), lower, upper)
    }

    /** Recognise every row and add the affine heads: what is left are cones and rotated cones. */
    method TranslateAffine(qcs: seq<QuadraticConstraint>, sqrt: real -> real, ldlt: seq<seq<real>> -> Ldlt)
      returns (reason: seq<Reason>)
      requires Valid() && cons == Pending(qcs) && coneDims == [] && IsSqrt(sqrt) && IsLdlt(ldlt)
      modifies this
      ensures Valid() && OutputUntouched() && old(continuous) <= continuous
      ensures reason == [] <==> AllAccepted(qcs, old(n), LowersOf(old(Snapshot())), sqrt, ldlt, |qcs|)
      ensures reason == [] ==> old(n) <= n && |cons| == |qcs| && coneDims == DimsOf(cons)
      ensures reason == [] ==> HeadsNonnegative(Snapshot()) && OnlyCones(cons)
      ensures reason == [] ==> AllTranslated(cons, n, LowersOf(old(Snapshot())))
      ensures reason == [] ==> (AllRotatedContinuous(cons, continuous) <==>
                                  RowsContinuous(qcs, old(n), LowersOf(old(Snapshot())), sqrt, old(continuous)))
      ensures reason == [] ==> GeneralEmitted(qcs, rows, |qcs|, old(n), LowersOf(old(Snapshot())), sqrt)
      ensures reason == [] ==> AffineEmitted(qcs, rows, old(n), LowersOf(old(Snapshot())), sqrt)
      ensures reason == [] && Faithful(qcs, old(n), LowersOf(old(Snapshot())), sqrt) ==> Extends(old(Snapshot()), Snapshot())
    {
      hide Extends, NotMixed, Faithful, IsLdlt, IsSqrt, LowersValid, RowsLinked, AllTranslated, OnlyCones, HeadsBounded,
           AffineRows, ConsBelow, HeadsNonnegative, NoQuadratic, LowersOf, DefineAll, WellFormed, WithHeads, PendingHeads,
           AllAccepted, AllRotatedContinuous, RowsContinuous, AffineDefs, DimsOf, FreeFrom, GeneralEmitted, AffineEmitted, HeadsFresh;
      ghost var m0 := Snapshot();
      var n0 := n;
      var lowers := HeadBounds();
      LowersOfValid(m0, lowers);
      var width;
      reason, width := TranslateRows(qcs, n0, lowers, sqrt, ldlt);
      if reason != [] { return; }
      ghost var m1 := Snapshot();
      AllTranslatedBelow(cons, n, lowers);
      PendingHeadsHold(qcs, cons, n0, lowers, sqrt, n);
      InstallAffineHeads(qcs, n0, width);
      AfterAffine(m1, Snapshot(), qcs, lowers, n0, width);
      RowsWithHeads(m1, qcs, width, n0, lowers, sqrt);
      ContinuousRows(m1, qcs, n0, lowers, sqrt, old(continuous), continuous, width);
      EmittedMore(qcs, m1.rows, rows, |qcs|, n0, lowers, sqrt);
      if Faithful(qcs, n0, lowers, sqrt) {
        FaithfulFacts(qcs, n0, lowers, sqrt);
        HeadsDefined(m1, qcs, n0, lowers, sqrt, width);
        AffineRowsUpper(qcs, m1.cons, n0, lowers, sqrt);
        AffineExtends(m1, qcs);
        ExtendsTransitive(m0, m1, Snapshot());
      }
    }

    /** Translate the rows and lift the rotated cones: afterwards there are only cones. */
    method TranslateAll(qcs: seq<QuadraticConstraint>, sqrt: real -> real, ldlt: seq<seq<real>> -> Ldlt, h: real)
      returns (reason: seq<Reason>)
      requires Valid() && cons == Pending(qcs) && coneDims == []
      requires IsSqrt(sqrt) && IsLdlt(ldlt) && h >= 0.0 && 2.0 * h * h == 1.0
      modifies this
      ensures Valid() && OutputUntouched() && old(continuous) <= continuous
      ensures reason == [] <==> Accepted(qcs, old(n), LowersOf(old(Snapshot())), sqrt, ldlt, old(continuous))
      ensures reason == [] ==> old(n) <= n && InjectiveCones(cons) && ConsBelow(cons, n) && coneDims == DimsOf(cons)
      ensures reason == [] ==> GeneralEmitted(qcs, rows, |qcs|, old(n), LowersOf(old(Snapshot())), sqrt)
      ensures reason == [] ==> AffineEmitted(qcs, rows, old(n), LowersOf(old(Snapshot())), sqrt)
      ensures reason == [] && Faithful(qcs, old(n), LowersOf(old(Snapshot())), sqrt) ==> Extends(old(Snapshot()), Snapshot())
    {
      hide GeneralEmitted, AffineEmitted;
      hide Extends, NotMixed, Faithful, IsLdlt, IsSqrt, AllTranslated, OnlyCones, ConsBelow, HeadsNonnegative, WellFormed,
           LowersOf, DefineAll, AllAccepted, RowsContinuous, InjectiveCones, DimsOf, RotatedContinuous;
      ghost var m0, lowers := Snapshot(), LowersOf(Snapshot());
      var n0 := n;
      reason := TranslateAffine(qcs, sqrt, ldlt);
      if reason != [] { return; }
      ghost var m := Snapshot();
      AllTranslatedBelow(cons, n, lowers);
      reason := LiftRotated(h);
      if reason != [] { return; }
      AfterLift(m, Snapshot(), h, lowers);
      DefinedRows(m, LiftAllDefs(m.cons, h), LiftCons(m.cons, h, m.n));
      EmittedMore(qcs, m.rows, rows, |qcs|, n0, lowers, sqrt);
      AffineEmittedMore(qcs, m.rows, rows, n0, lowers, sqrt);
      if Faithful(qcs, n0, lowers, sqrt) {
        LiftExtends(m, h);
        ExtendsTransitive(m0, m, Snapshot());
      }
    }

    /** For every column the better of its explicit lower bound and the one implied by singleton rows. */
    method HeadBounds() returns (lowers: seq<Ext>)
      requires Valid()
      ensures lowers == LowersOf(Snapshot()) && |lowers| == n
    {
      hide ImpliedLower;
      var n0, low := n, lower;
      var implied := ImpliedLowers(n0, rows);
      lowers := seq(n0, j requires 0 <= j < n0 => if j < |low| && j < |implied| then Max(low[j], implied[j]) else NegInf);
      assert lowers == LowersOf(Snapshot());
    }

    /** Make the cones disjoint and free their members from bounds. */
    method SeparateCones()
      requires Valid() && InjectiveCones(cons) && ConsBelow(cons, n) && coneDims == DimsOf(cons)
      modifies this
      ensures Valid() && OutputUntouched() && old(n) <= n && coneDims == old(coneDims) == DimsOf(cons)
      ensures old(continuous) <= continuous
      ensures ConsBelow(cons, n) && Injective(Flatten(cons)) && ColsBelow(Flatten(cons), n)
      ensures AllReady(cons, lower, upper)
      ensures Extends(old(Snapshot()), Snapshot())
    {
      hide Extends, ConsBelow, Injective, Flatten, ConesReady, ConesCopied, CopyDefs, DefineAll, DimsOf, WellFormed;
      ghost var m0 := Snapshot();
      var after, originals := AliasShared(cons, n);
      CopyExtends(m0, originals, after);
      AppendCopies(originals, after);
      ghost var m1 := Snapshot();
      CopiedSize(m0, originals, after);
      var lower1, upper1 := lower, upper;
      BoundsLength(m1);
      after, originals := SplitBounded(cons, n, lower, upper);
      CopyExtends(m1, originals, after);
      AppendCopies(originals, after);
      CopiedSize(m1, originals, after);
      AllReadyAfter(m1, originals, after);
      ExtendsTransitive(m0, m1, Snapshot());
    }

    /** Move the columns, scatter the quadratic objective, and record where the model columns went. */
    method FinishLayout(n0: nat) returns (reason: seq<Reason>, ghost back: seq<int>)
      requires Valid() && ConsBelow(cons, n) && Injective(Flatten(cons)) && ColsBelow(Flatten(cons), n) && n0 <= n
      requires AllReady(cons, lower, upper) && coneDims == DimsOf(cons)
      modifies this
      ensures Valid() && n == old(n) && coneDims == old(coneDims)
      ensures reason == [] ==> Relaid(old(Snapshot()), old(quadratic), n0, Snapshot(), quadratic, coneStart, coneDims, colMap, back)
      ensures reason == [] <==> ObjectiveReadable(old(quadratic), n0)
      ensures reason == [] ==> KindsKept(colMap, old(continuous)[..n0], continuous)
    {
      hide Injective, Flatten, ConsBelow, ValidCsr, CsrColumnsBelow, Permutes, CsrPermutes, DimsOf, WellFormed, AllReady;
      ghost var m := Snapshot();
      AllReadyCones(cons, lower, upper);
      back := PermuteColumns();
      PermutesFacts(m, Snapshot(), colMap, back);
      if quadratic.values != [] {
        if !(ValidCsr(quadratic, n0) && CsrColumnsBelow(quadratic, n0)) {
          return [MalformedObjective], back;
        }
        quadratic := ScatterQuadratic(quadratic, n0, colMap, back);
      }
      ghost var forward := colMap;
      colMap := colMap[..n0];
      assert forward[..n0] == colMap;
      RelaidHolds(m, old(quadratic), n0, Snapshot(), quadratic, coneStart, coneDims, forward, back);
      return [], back;
    }

    /** Translate all quadratic rows `qcs` in place; `h` is 1/sqrt(2). */
    method Convert(qcs: seq<QuadraticConstraint>, sqrt: real -> real, ldlt: seq<seq<real>> -> Ldlt, h: real)
      returns (reason: seq<Reason>)
      requires Valid() && cons == [] && coneDims == []
      requires IsSqrt(sqrt) && IsLdlt(ldlt) && h >= 0.0 && 2.0 * h * h == 1.0
      modifies this
      ensures reason == [] <==>
                && qcs != [] && AllAcceptable(qcs, old(Snapshot()), ldlt, old(continuous))
                && ObjectiveReadable(old(quadratic), old(n))
      ensures reason == [] ==> Valid() && ConeLayout() && KindsKept(colMap, old(continuous), continuous)
      ensures reason == [] && Faithful(qcs, old(n), LowersOf(old(Snapshot())), sqrt) ==>
                Represents(old(Snapshot().(cons := Pending(qcs))), old(quadratic))
    {
      hide Extends, NotMixed, Faithful, IsLdlt, IsSqrt, InjectiveCones, ConsBelow, Injective, Flatten, AllReady,
           DimsOf, WellFormed, ValidCsr, CsrColumnsBelow, LowersOf, ColsBelow, Relaid, ConeLayout, Represents, Accepted, AllAcceptable;
      if qcs == [] { return [NoConstraints]; }
      var n0 := n;
      SameLinearPart(Snapshot(), Pending(qcs));
      cons := seq(|qcs|, i requires 0 <= i < |qcs| => Quadratic(qcs[i]));
      assert cons == Pending(qcs);
      ghost var m0 := Snapshot();
      AcceptedIff(qcs, old(Snapshot()), sqrt, ldlt, continuous);
      reason := TranslateAll(qcs, sqrt, ldlt, h);
      if reason != [] { return; }
      ghost var m1 := Snapshot();
      SeparateCones();
      ghost var m2 := Snapshot();
      ghost var back;
      reason, back := FinishLayout(n0);
      if reason != [] { return; }
      LayoutHolds(m2, old(quadratic), n0, back);
      if Faithful(qcs, n0, LowersOf(old(Snapshot())), sqrt) {
        ExtendsTransitive(m0, m1, m2);
        RepresentsHolds(m0, m2, old(quadratic), back);
      }
    }

    lemma {:induction false} LayoutHolds(m: Model, q0: Csr, n0: nat, back: seq<int>)
      requires Relaid(m, q0, n0, Snapshot(), quadratic, coneStart, coneDims, colMap, back)
      ensures ConeLayout()
    {
      hide BarrierReady;
      LayoutOf(m, q0, n0, Snapshot(), quadratic, coneStart, coneDims, colMap, back);
    }

    lemma {:induction false} RepresentsHolds(m0: Model, m: Model, q0: Csr, back: seq<int>)
      requires WellFormed(m0) && Extends(m0, m)
      requires Relaid(m, q0, m0.n, Snapshot(), quadratic, coneStart, coneDims, colMap, back)
      ensures Represents(m0, q0)
    {
      hide Relaid, Extends, Feasible, BlockFeasible, WellFormed, CsrForm, DenseDot;
      var p := Snapshot();
      RelaidSizes(m, q0, m0.n, p, quadratic, coneStart, coneDims, colMap, back);
      forall x | Feasible(m0, x)
        ensures exists z :: Accepts(z) && Project(z) == x
      {
        var z := RelaidOnto(m0, m, q0, p, quadratic, coneStart, coneDims, colMap, back, x);
        assert Accepts(z) && Project(z) == x;
      }
      forall z | Accepts(z)
        ensures Feasible(m0, Project(z))
      {
        RelaidInto(m0, m, q0, p, quadratic, coneStart, coneDims, colMap, back, z);
      }
      forall z: seq<real> | |z| == n
        ensures DenseDot(objective, z) == DenseDot(m0.obj, Project(z)) && CsrForm(quadratic, n, z) == CsrForm(q0, m0.n, Project(z))
      {
        RelaidObjective(m0, m, q0, p, quadratic, coneStart, coneDims, colMap, back, z);
      }
    }
  }

  /** What the last passes do to a model of cones: `p` is `m` relaid, with the first `n0` columns at `colMap`. */
  ghost predicate Relaid(m: Model, q0: Csr, n0: nat, p: Model, q: Csr, start: nat, dims: seq<nat>, colMap: seq<int>, back: seq<int>) {
    exists forward :: RelaidBy(m, q0, n0, p, q, start, dims, colMap, back, forward)
  }

  ghost predicate RelaidBy(m: Model, q0: Csr, n0: nat, p: Model, q: Csr, start: nat, dims: seq<nat>, colMap: seq<int>,
                           back: seq<int>, forward: seq<int>) {
    && |forward| == |back| == m.n == p.n && n0 <= m.n && start <= m.n
    && Permutes(m, p, forward, back) && WellFormed(m) && AllCones(m.cons) && ConsBelow(m.cons, m.n)
    && AllReady(m.cons, m.lower, m.upper) && dims == DimsOf(m.cons)
    && back[start..] == Flatten(m.cons)
    && colMap == forward[..n0]
    && QuadraticRelaid(q0, n0, q, forward)
  }

  ghost predicate QuadraticRelaid(q0: Csr, n0: nat, q: Csr, forward: seq<int>) {
    (q0.values == [] && q == q0) || (CsrColumnsBelow(q0, n0) && CsrPermutes(q0, n0, q, forward))
  }

  lemma {:induction false} RelaidHolds(m: Model, q0: Csr, n0: nat, p: Model, q: Csr, start: nat, dims: seq<nat>, forward: seq<int>, back: seq<int>)
    requires Permutes(m, p, forward, back) && WellFormed(m) && AllCones(m.cons) && ConsBelow(m.cons, m.n)
    requires AllReady(m.cons, m.lower, m.upper) && dims == DimsOf(m.cons)
    requires start <= m.n && |back| == m.n && back[start..] == Flatten(m.cons)
    requires n0 <= m.n == |forward| && QuadraticRelaid(q0, n0, q, forward)
    ensures Relaid(m, q0, n0, p, q, start, dims, forward[..n0], back)
  {
    hide Permutes, WellFormed, AllCones, ConsBelow, AllReady, DimsOf, Flatten, QuadraticRelaid;
    PermutesFacts(m, p, forward, back);
    assert RelaidBy(m, q0, n0, p, q, start, dims, forward[..n0], back, forward);
  }

  lemma {:induction false} RelaidSizes(m: Model, q0: Csr, n0: nat, p: Model, q: Csr, start: nat, dims: seq<nat>, colMap: seq<int>, back: seq<int>)
    requires Relaid(m, q0, n0, p, q, start, dims, colMap, back)
    ensures |colMap| == n0 && p.n == m.n
  {
  }

  lemma {:induction false} PermutesFacts(m: Model, p: Model, forward: seq<int>, back: seq<int>)
    requires Permutes(m, p, forward, back)
    ensures Inverses(forward, back, m.n) && |forward| == |back| == m.n == p.n
  {
  }

  lemma {:induction false} GatherPrefix(z: seq<real>, forward: seq<int>, n0: nat)
    requires n0 <= |forward|
    ensures Gather(z, forward[..n0]) == Gather(z, forward)[..n0]
  {
  }

  lemma {:induction false} RelaidFeasible(m: Model, p: Model, forward: seq<int>, back: seq<int>, start: nat, dims: seq<nat>, z: seq<real>)
    requires Permutes(m, p, forward, back) && WellFormed(m) && AllCones(m.cons) && ConsBelow(m.cons, m.n) && dims == DimsOf(m.cons)
    requires start <= m.n && |back| == m.n && back[start..] == Flatten(m.cons) && |z| == m.n
    ensures BlockFeasible(p, start, dims, z) <==> Feasible(m, Gather(z, forward))
  {
    hide LinearOk, InCone, WellFormed, ConsBelow, Flatten, Block, PermuteRows;
    PermutedLinear(m, p, forward, back, z);
    PermutedCones(m, forward, back, start, z);
  }

  lemma {:induction false} RelaidOnto(m0: Model, m: Model, q0: Csr, p: Model, q: Csr, start: nat, dims: seq<nat>, colMap: seq<int>, back: seq<int>,
                   x: seq<real>) returns (z: seq<real>)
    requires Extends(m0, m) && Relaid(m, q0, m0.n, p, q, start, dims, colMap, back) && Feasible(m0, x)
    ensures BlockFeasible(p, start, dims, z) && Gather(z, colMap) == x
  {
    hide Feasible, BlockFeasible, Permutes, WellFormed, AllCones, ConsBelow, AllReady, DimsOf, Flatten, QuadraticRelaid, Gather;
    var forward :| RelaidBy(m, q0, m0.n, p, q, start, dims, colMap, back, forward);
    PermutesFacts(m, p, forward, back);
    var y := ExtendedPoint(m0, m, x);
    z := Gather(y, back);
    GatherLength(y, back);
    GatherInverse(y, forward, back);
    RelaidFeasible(m, p, forward, back, start, dims, z);
    GatherPrefix(z, forward, m0.n);
  }

  lemma {:induction false} RelaidInto(m0: Model, m: Model, q0: Csr, p: Model, q: Csr, start: nat, dims: seq<nat>, colMap: seq<int>, back: seq<int>,
                   z: seq<real>)
    requires Extends(m0, m) && Relaid(m, q0, m0.n, p, q, start, dims, colMap, back) && BlockFeasible(p, start, dims, z)
    ensures Feasible(m0, Gather(z, colMap))
  {
    hide Feasible, LinearOk, Permutes, WellFormed, AllCones, ConsBelow, AllReady, DimsOf, Flatten, QuadraticRelaid, Gather, InCone;
    var forward :| RelaidBy(m, q0, m0.n, p, q, start, dims, colMap, back, forward);
    PermutesFacts(m, p, forward, back);
    LinearLength(p, z);
    RelaidFeasible(m, p, forward, back, start, dims, z);
    GatherPrefix(z, forward, m0.n);
  }

  lemma {:induction false} RelaidObjective(m0: Model, m: Model, q0: Csr, p: Model, q: Csr, start: nat, dims: seq<nat>, colMap: seq<int>, back: seq<int>,
                        z: seq<real>)
    requires WellFormed(m0) && Extends(m0, m) && Relaid(m, q0, m0.n, p, q, start, dims, colMap, back) && |z| == m.n
    ensures DenseDot(p.obj, z) == DenseDot(m0.obj, Gather(z, colMap))
    ensures CsrForm(q, m.n, z) == CsrForm(q0, m0.n, Gather(z, colMap))
  {
    hide Feasible, Permutes, AllCones, ConsBelow, AllReady, DimsOf, Flatten, Gather, DenseDot, CsrForm, CsrPermutes, CsrColumnsBelow, Extends;
    var forward :| RelaidBy(m, q0, m0.n, p, q, start, dims, colMap, back, forward);
    PermutesFacts(m, p, forward, back);
    GatherPrefix(z, forward, m0.n);
    GatherLength(z, forward);
    PermutedObjective(m, p, forward, back, z);
    ExtendedObjective(m0, m, Gather(z, forward));
    if q0.values == [] && q == q0 {
      EmptyCsrForm(q0, m.n, z);
      EmptyCsrForm(q0, m0.n, Gather(z, forward)[..m0.n]);
    } else {
      PermutedCsrForm(q0, m0.n, q, forward, back, z);
    }
  }

  lemma {:induction false} EmptyCsrForm(q: Csr, n: nat, x: seq<real>)
    requires q.values == []
    ensures CsrForm(q, n, x) == 0.0
  {
    forall r | 0 <= r < n
      ensures CsrFormTerms(q, n, x)[r] == 0.0
    {
      assert CsrRow(q, r) == [];
    }
    assert CsrFormTerms(q, n, x) == seq(n, _ => 0.0);
    SumOfZeros(n);
  }

  lemma {:induction false} ExtendedPoint(a: Model, b: Model, x: seq<real>) returns (y: seq<real>)
    requires Extends(a, b) && Feasible(a, x)
    ensures Feasible(b, y) && a.n <= |y| == b.n && y[..a.n] == x
  {
    hide BoundsOk, RowsOk, ConsOk;
    y :| Feasible(b, y) && y[..a.n] == x;
  }

  lemma {:induction false} LinearLength(m: Model, x: seq<real>)
    requires LinearOk(m, x)
    ensures |x| == m.n
  {
  }

  lemma {:induction false} GatherLength(z: seq<real>, p: seq<int>)
    ensures |Gather(z, p)| == |p|
  {
  }

  /** Every cone member is free, or a head in [0, inf). */
  predicate AllReady(cons: seq<Con>, lower: seq<Ext>, upper: seq<Ext>) {
    AllCones(cons) && forall i | 0 <= i < |cons| :: BlockReady(cons[i].vars, lower, upper)
  }

  lemma {:induction false} AllReadyCones(cons: seq<Con>, lower: seq<Ext>, upper: seq<Ext>)
    requires AllReady(cons, lower, upper)
    ensures AllCones(cons)
  {
  }

  lemma {:induction false} BoundsLength(m: Model)
    requires WellFormed(m)
    ensures |m.lower| == |m.upper| == m.n
  {
  }

  lemma {:induction false} CopiedSize(m: Model, originals: seq<int>, cons: seq<Con>)
    ensures DefineAll(m, CopyDefs(originals), cons).n == m.n + |originals|
    ensures DefineAll(m, CopyDefs(originals), cons).cons == cons
  {
  }

  /** The copies of the last pass are free, so after it every member is ready. */
  lemma {:induction false} AllReadyAfter(m: Model, originals: seq<int>, cons: seq<Con>)
    requires WellFormed(m) && ConesReady(cons, m.n, |originals|, m.lower, m.upper)
    ensures var b := DefineAll(m, CopyDefs(originals), cons); AllReady(cons, b.lower, b.upper)
  {
    var b := DefineAll(m, CopyDefs(originals), cons);
    forall i, k | 0 <= i < |cons| && 0 <= k < |cons[i].vars|
      ensures BarrierReady(cons[i].vars[k], k, b.lower, b.upper)
    {
      assert MembersReady(cons[i].vars, m.n, |originals|, m.lower, m.upper);
      var v := cons[i].vars[k];
      if m.n <= v {
        assert b.lower[m.n + (v - m.n)] == CopyDefs(originals)[v - m.n].lower;
      }
    }
  }

  /** The trailing blocks hold the cone members with the bounds they had. */
  lemma {:induction false} LayoutOf(m: Model, q0: Csr, n0: nat, p: Model, q: Csr, start: nat, dims: seq<nat>, colMap: seq<int>, back: seq<int>)
    requires Relaid(m, q0, n0, p, q, start, dims, colMap, back)
    ensures |p.lower| == |p.upper| == p.n && BlockStart(start, dims, |dims|) == p.n
    ensures forall k | 0 <= k < |dims| :: BlockReady(Block(start, dims, k), p.lower, p.upper)
  {
    hide QuadraticRelaid, BarrierReady, ConsBelow, WellFormed, PermuteRows, Flatten;
    var forward :| RelaidBy(m, q0, n0, p, q, start, dims, colMap, back, forward);
    FlattenLength(m.cons, start);
    forall k, i | 0 <= k < |dims| && 0 <= i < dims[k]
      ensures BarrierReady(Block(start, dims, k)[i], i, p.lower, p.upper)
    {
      FlattenAt(m.cons, start, k, i);
      MemberMoved(m, p, forward, back, m.cons[k].vars[i], Block(start, dims, k)[i], i);
    }
  }

  lemma {:induction false} MemberMoved(m: Model, p: Model, forward: seq<int>, back: seq<int>, v: int, w: int, i: int)
    requires Permutes(m, p, forward, back) && 0 <= w < m.n && back[w] == v && BarrierReady(v, i, m.lower, m.upper)
    ensures BarrierReady(w, i, p.lower, p.upper)
  {
    assert forward[back[w]] == w;
    assert p.lower[forward[v]] == m.lower[v] && p.upper[forward[v]] == m.upper[v];
  }

  lemma {:induction false} SameLinearPart(m: Model, cons: seq<Con>)
    ensures LowersOf(m.(cons := cons)) == LowersOf(m) && (WellFormed(m) ==> WellFormed(m.(cons := cons)))
  {
  }

  lemma {:induction false} FaithfulFacts(qcs: seq<QuadraticConstraint>, n0: nat, lowers: seq<Ext>, sqrt: real -> real)
    requires Faithful(qcs, n0, lowers, sqrt)
    ensures HeadsBounded(qcs, n0, lowers, sqrt) && NotMixed(qcs, n0, lowers, sqrt)
  {
    hide HeadsBounded, AffineRowsAreUpper, NotMixed;
  }

  /** A barrier solution: primal, dual and reduced-cost vectors over the expanded columns. */
  class BarrierSolution {
    var x: seq<real>
    var y: seq<real>
    var z: seq<real>

    constructor (x: seq<real>, y: seq<real>, z: seq<real>)
      ensures this.x == x && this.y == y && this.z == z
    {
      this.x, this.y, this.z := x, y, z;
    }

    /** Bring the primal point and the reduced costs back to the `originalCols` model columns. */
    method ProjectToModel(originalCols: int, colMap: seq<int>)
      requires |x| == |z| && ColsBelow(colMap, |x|)
      modifies this`x, this`z
      ensures 0 < originalCols == |colMap| ==> x == Gather(old(x), colMap) && z == Gather(old(z), colMap)
      ensures !(0 < originalCols == |colMap|) ==> x == old(x) && z == old(z)
    {
      if originalCols <= 0 || |colMap| != originalCols { return; }
      var modelX, modelZ: seq<real> := [], [];
      for j := 0 to originalCols
        invariant modelX == Gather(x, colMap[..j]) && modelZ == Gather(z, colMap[..j])
        invariant x == old(x) && z == old(z)
      {
        assert colMap[..j + 1] == colMap[..j] + [colMap[j]];
        modelX := modelX + [x[colMap[j]]];
        modelZ := modelZ + [z[colMap[j]]];
      }
      assert colMap[..originalCols] == colMap;
      x, z := modelX, modelZ;
    }
  }

  lemma {:induction false} AffineRowsUpper(qcs: seq<QuadraticConstraint>, cons: seq<Con>, n0: nat, lowers: seq<Ext>, sqrt: real -> real)
    requires |qcs| == |cons| && Faithful(qcs, n0, lowers, sqrt)
    requires forall i | 0 <= i < |qcs| && cons[i].PendingAffine? :: ShapeOf(qcs[i], n0, lowers, sqrt).Affine?
    ensures forall i | 0 <= i < |qcs| && cons[i].PendingAffine? :: qcs[i].rowType == 'L'
  {
    hide ShapeOf, HeadsBounded;
  }

  /** Bounds, linking rows and rotated cones of the affine heads in their reserved columns. */
  method BuildAffineHeads(cons: seq<Con>, qcs: seq<QuadraticConstraint>, lower: seq<Ext>, upper: seq<Ext>, ghost n0: nat, w: nat, ghost width: nat)
    returns (lo: seq<Ext>, up: seq<Ext>, links: seq<Row>, after: seq<Con>)
    requires PendingHeads(cons, qcs, n0, width) && width <= w && |lower| == |upper| <= w
    ensures |lo| == |up| == w && links == HeadRows(cons, qcs) && after == AffineCons(cons)
    ensures BoundsWith(cons, lower, Fin(0.0), NegInf, lo) && BoundsWith(cons, upper, PosInf, PosInf, up)
  {
    hide IsHead, ScaledTerms, BoundsWith, PendingHeads;
    assert |cons| == |qcs| by { HeadCountOf(cons, qcs, n0, width); }
    lo, up := lower + seq(w - |lower|, _ => NegInf), upper + seq(w - |upper|, _ => PosInf);
    links, after := [], [];
    NoHeads(lower, Fin(0.0), NegInf, lo);
    NoHeads(upper, PosInf, PosInf, up);
    assert cons[..0] == [];
    for i := 0 to |cons|
      invariant |lo| == |up| == w && links == HeadRows(cons[..i], qcs) && after == AffineCons(cons[..i])
      invariant BoundsWith(cons[..i], lower, Fin(0.0), NegInf, lo) && BoundsWith(cons[..i], upper, PosInf, PosInf, up)
    {
      var c := cons[i];
      assert cons[..i + 1][..i] == cons[..i] && cons[..i + 1][i] == c;
      HeadInWidth(cons, qcs, i, n0, width);
      OneMoreHead(cons, i, lower, Fin(0.0), NegInf, lo);
      OneMoreHead(cons, i, upper, PosInf, PosInf, up);
      if c.PendingAffine? {
        lo, up := lo[c.head := Fin(0.0)], up[c.head := PosInf];
        links := links + [DefRow(Def(ScaledTerms(qcs[i], c.scale), 0.0, Fin(0.0)), c.head)];
        after := after + [HalfHead(c.head, c.tails)];
      } else {
        after := after + [c];
      }
    }
    assert cons[..|cons|] == cons;
  }

  lemma {:induction false} HeadCountOf(cons: seq<Con>, qcs: seq<QuadraticConstraint>, n0: nat, width: nat)
    requires PendingHeads(cons, qcs, n0, width)
    ensures |cons| == |qcs|
  {
  }

  lemma {:induction false} HeadInWidth(cons: seq<Con>, qcs: seq<QuadraticConstraint>, i: nat, n0: nat, width: nat)
    requires PendingHeads(cons, qcs, n0, width) && i < |cons|
    ensures cons[i].PendingAffine? ==> 0 <= cons[i].head < width
  {
    assert |cons| == |qcs| && PendingHead(cons, qcs, i, n0, width);
  }

  /** `out` is `base`, filled up with `rest`, with `head` at the heads. */
  ghost predicate BoundsWith(cons: seq<Con>, base: seq<Ext>, head: Ext, rest: Ext, out: seq<Ext>) {
    forall j | 0 <= j < |out| :: out[j] == if IsHead(cons, j) then head else if j < |base| then base[j] else rest
  }

  lemma {:induction false} NoHeads(base: seq<Ext>, head: Ext, rest: Ext, out: seq<Ext>)
    requires |base| <= |out| && out == base + seq(|out| - |base|, _ => rest)
    ensures BoundsWith([], base, head, rest, out)
  {
  }

  lemma {:induction false} OneMoreHead(cons: seq<Con>, i: int, base: seq<Ext>, head: Ext, rest: Ext, out: seq<Ext>)
    requires 0 <= i < |cons| && BoundsWith(cons[..i], base, head, rest, out)
    requires cons[i].PendingAffine? ==> 0 <= cons[i].head < |out|
    ensures BoundsWith(cons[..i + 1], base, head, rest, if cons[i].PendingAffine? then out[cons[i].head := head] else out)
  {
    hide IsHead;
    HeadsOneMore(cons, i);
  }

  lemma {:induction false} HeadBoundsAre(m: Model, width: nat, lo: seq<Ext>, up: seq<Ext>)
    requires |lo| == |up| == Wider(m.n, width) && |m.lower| == |m.upper| == m.n
    requires BoundsWith(m.cons, m.lower, Fin(0.0), NegInf, lo) && BoundsWith(m.cons, m.upper, PosInf, PosInf, up)
    ensures lo == HeadLowers(m, width) && up == HeadUppers(m, width)
  {
    hide IsHead;
  }

  /** The linking rows of the rotated cones, with two slack columns each from `n` on. */
  method BuildLift(cons: seq<Con>, h: real, n: nat) returns (defs: seq<Def>, after: seq<Con>)
    ensures defs == LiftAllDefs(cons, h) && after == LiftCons(cons, h, n)
  {
    hide LiftDefs;
    defs, after := [], [];
    var slack := n;
    for i := 0 to |cons|
      invariant defs == LiftAllDefs(cons[..i], h) && slack == n + |defs|
      invariant |after| == i && forall k | 0 <= k < i :: after[k] == LiftCons(cons, h, n)[k]
    {
      var c := cons[i];
      assert cons[..i + 1][..i] == cons[..i] && cons[..i + 1][i] == c;
      if IsRotated(c) {
        LiftDefsLength(c, h);
        defs := defs + LiftDefs(c, h);
        after := after + [Cone([slack, slack + 1] + c.tails)];
        slack := slack + 2;
      } else {
        after := after + [c];
      }
    }
    assert cons[..|cons|] == cons;
  }

  lemma {:induction false} LiftDefsLength(c: Con, h: real)
    requires IsRotated(c)
    ensures |LiftDefs(c, h)| == 2
  {
  }

  lemma {:induction false} LiftDefined(m: Model, h: real)
    requires WellFormed(m) && ConsBelow(m.cons, m.n)
    ensures WellFormed(DefineAll(m, LiftAllDefs(m.cons, h), LiftCons(m.cons, h, m.n)))
  {
    LiftAllDefsBelow(m.cons, h, m.n);
    DefineAllWellFormed(m, LiftAllDefs(m.cons, h), LiftCons(m.cons, h, m.n));
  }

  /** Every column is recorded, and integer columns are still integer where they are now. */
  predicate KindsKept(colMap: seq<int>, before: seq<bool>, after: seq<bool>) {
    |colMap| == |before| && forall j | 0 <= j < |before| :: 0 <= colMap[j] < |after| && after[colMap[j]] == before[j]
  }

  function KindsOf(continuous: seq<bool>, originals: seq<int>): seq<bool> {
    seq(|originals|, k requires 0 <= k < |originals| => 0 <= originals[k] < |continuous| && continuous[originals[k]])
  }

  predicate BlockReady(block: seq<int>, lower: seq<Ext>, upper: seq<Ext>) {
    forall i | 0 <= i < |block| :: BarrierReady(block[i], i, lower, upper)
  }

  /** The better of the explicit and the implied lower bound of every column. */
  function LowersOf(m: Model): seq<Ext> {
    seq(m.n, j requires 0 <= j < m.n => Max(if j < |m.lower| then m.lower[j] else NegInf, ImpliedLower(m.rows, j)))
  }

  /**
   * The calls that the translation represents exactly: bounded tail-less heads, affine rows given as <= rows, and no
   * affine rows beside general ones.
   */
  ghost predicate Faithful(qcs: seq<QuadraticConstraint>, n: nat, lowers: seq<Ext>, sqrt: real -> real) {
    HeadsBounded(qcs, n, lowers, sqrt) && AffineRowsAreUpper(qcs, n, lowers, sqrt) && NotMixed(qcs, n, lowers, sqrt)
  }

  lemma {:induction false} LowersOfValid(m: Model, lowers: seq<Ext>)
    requires WellFormed(m) && lowers == LowersOf(m)
    ensures LowersValid(m, lowers)
  {
    forall x, j | LinearOk(m, x) && 0 <= j < |lowers|
      ensures Le(lowers[j], Fin(At(x, j)))
    {
      ImpliedLowerValid(m.rows, j, x);
      assert Le(m.lower[j], Fin(At(x, j)));
    }
  }

  ghost predicate NoQuadratic(cons: seq<Con>) {
    forall i | 0 <= i < |cons| :: !cons[i].Quadratic? && !cons[i].HalfHead?
  }

  /** After the affine pass every rotated cone has heads that bounds and rows keep non-negative. */
  lemma {:induction false} AfterAffine(a: Model, b: Model, qcs: seq<QuadraticConstraint>, lowers: seq<Ext>, n0: nat, width: nat)
    requires WellFormed(a) && AllTranslated(a.cons, a.n, lowers) && PendingHeads(a.cons, qcs, n0, width) && FreeFrom(a, n0)
    requires |lowers| <= a.n && LowersValid(a, lowers) && NoQuadratic(a.cons)
    requires b == WithHeads(a, qcs, width)
    ensures AllTranslated(b.cons, b.n, lowers) && HeadsNonnegative(b)
    ensures OnlyCones(b.cons) && b.cons == AffineCons(a.cons)
    ensures DimsOf(b.cons) == DimsOf(a.cons) && a.n <= b.n
  {
    hide HeadRows, HeadLowers, HeadUppers, FreeFrom, LinearOk;
    forall i | 0 <= i < |b.cons|
      ensures Translated(b.cons[i], b.n, lowers)
    {
      assert Translated(a.cons[i], a.n, lowers) && PendingHead(a.cons, qcs, i, n0, width);
    }
    forall x, i | LinearOk(b, x) && 0 <= i < |b.cons|
      ensures HeadNonnegativeAt(b.cons[i], x)
    {
      HeadAt(a, qcs, lowers, n0, width, i, x);
    }
  }

  lemma {:induction false} HeadAt(a: Model, qcs: seq<QuadraticConstraint>, lowers: seq<Ext>, n0: nat, width: nat, i: int, x: seq<real>)
    requires WellFormed(a) && AllTranslated(a.cons, a.n, lowers) && PendingHeads(a.cons, qcs, n0, width) && FreeFrom(a, n0)
    requires |lowers| <= a.n && LowersValid(a, lowers) && NoQuadratic(a.cons)
    requires LinearOk(WithHeads(a, qcs, width), x) && 0 <= i < |a.cons|
    ensures HeadNonnegativeAt(AffineCons(a.cons)[i], x)
  {
    hide WithHeads, FreeFrom, LinearOk;
    var c := a.cons[i];
    assert Translated(c, a.n, lowers);
    if c.PendingAffine? {
      HeadNonnegativeIn(a, qcs, n0, width, i, x);
    } else if c.TwoHeads? {
      WithHeadsLinear(a, qcs, n0, width, x);
      AtPrefix(x[..a.n], x, c.head0);
      AtPrefix(x[..a.n], x, c.head1);
      assert Le(lowers[c.head0], Fin(At(x[..a.n], c.head0))) && Le(lowers[c.head1], Fin(At(x[..a.n], c.head1)));
    }
  }

  /** After the lift there are only cones, each without repeated members. */
  lemma {:induction false} AfterLift(a: Model, b: Model, h: real, lowers: seq<Ext>)
    requires AllTranslated(a.cons, a.n, lowers)
    requires OnlyCones(a.cons)
    requires b == DefineAll(a, LiftAllDefs(a.cons, h), LiftCons(a.cons, h, a.n))
    ensures InjectiveCones(b.cons) && ConsBelow(b.cons, b.n) && DimsOf(b.cons) == DimsOf(a.cons) && a.n <= b.n
  {
    hide LiftAllDefs, LiftDefs;
    forall i | 0 <= i < |b.cons|
      ensures b.cons[i].Cone? && b.cons[i].vars != [] && Injective(b.cons[i].vars) && ConBelow(b.cons[i], b.n)
      ensures ConDim(b.cons[i]) == ConDim(a.cons[i])
    {
      var c := a.cons[i];
      assert Translated(c, a.n, lowers);
      if IsRotated(c) {
        LiftAllDefsAt(a.cons, h, i);
        LiftedInjective(c.tails, a.n, a.n + |LiftAllDefs(a.cons[..i], h)|);
      }
    }
  }

  lemma {:induction false} LiftedInjective(tails: seq<int>, n: int, slack: int)
    requires Injective(tails) && ColsBelow(tails, n) && n <= slack
    ensures Injective([slack, slack + 1] + tails)
  {
    var all := [slack, slack + 1] + tails;
    forall k, l | 0 <= k < l < |all|
      ensures all[k] != all[l]
    {
      if k >= 2 { assert all[k] == tails[k - 2] && all[l] == tails[l - 2]; }
    }
  }

  /** Heads and tails of a rotated cone have to be continuous columns. */
  predicate RotatedContinuous(c: Con, continuous: seq<bool>) {
    match c
    case TwoHeads(a, b, tails, _) => AllContinuous([a, b] + tails, continuous)
    case HalfHead(head, tails) => AllContinuous([head] + tails, continuous)
    case _ => true
  }

  /** The test on the heads and tails of the rotated cones, in terms of the rows they come from. */
  lemma {:induction false} ContinuousRows(a: Model, qcs: seq<QuadraticConstraint>, n0: nat, lowers: seq<Ext>, sqrt: real -> real,
                       before: seq<bool>, after: seq<bool>, width: nat)
    requires |a.cons| == |qcs| && RowsLinked(qcs, a.cons, n0, lowers, sqrt, |qcs|) && PendingHeads(a.cons, qcs, n0, width)
    requires IsSqrt(sqrt) && |before| == n0 <= |after| && before <= after && width <= |after|
    requires forall j | n0 <= j < |after| :: after[j]
    ensures AllRotatedContinuous(AffineCons(a.cons), after) <==> RowsContinuous(qcs, n0, lowers, sqrt, before)
  {
    hide ShapeOf, RowContinuous, RotatedContinuous, RowLink, IsSqrt, PendingHeads;
    forall i: nat | i < |qcs|
      ensures RotatedContinuous(AffineCons(a.cons)[i], after) <==> RowContinuous(ShapeOf(qcs[i], n0, lowers, sqrt), before)
    {
      ContinuousRow(a, qcs, n0, lowers, sqrt, before, after, width, i);
    }
  }

  lemma {:induction false} ContinuousRow(a: Model, qcs: seq<QuadraticConstraint>, n0: nat, lowers: seq<Ext>, sqrt: real -> real,
                      before: seq<bool>, after: seq<bool>, width: nat, i: nat)
    requires |a.cons| == |qcs| && RowsLinked(qcs, a.cons, n0, lowers, sqrt, |qcs|) && PendingHeads(a.cons, qcs, n0, width)
    requires IsSqrt(sqrt) && |before| == n0 <= |after| && before <= after && i < |qcs| && width <= |after|
    requires forall j | n0 <= j < |after| :: after[j]
    ensures RotatedContinuous(AffineCons(a.cons)[i], after) <==> RowContinuous(ShapeOf(qcs[i], n0, lowers, sqrt), before)
  {
    hide ShapeOf, IsSqrt, LinearTerms, Injective, HeadNonnegative;
    var s, c := ShapeOf(qcs[i], n0, lowers, sqrt), a.cons[i];
    assert RowLink(qcs[i], c, n0, lowers, sqrt, ReservedHead(qcs, n0, i)) && PendingHead(a.cons, qcs, i, n0, width);
    ShapeColumns(qcs[i], n0, lowers, sqrt);
    match s
    case Rotated(h0, h1, tails, _) =>
      ContinuousPrefix([h0, h1] + tails, before, after);
    case Affine(tails, _) =>
      ContinuousPrefix(tails, before, after);
      ContinuousHead(c.head, tails, after);
    case _ =>
  }

  lemma {:induction false} ContinuousPrefix(cols: seq<int>, before: seq<bool>, after: seq<bool>)
    requires before <= after && ColsBelow(cols, |before|)
    ensures AllContinuous(cols, after) <==> AllContinuous(cols, before)
  {
  }

  lemma {:induction false} ContinuousHead(head: int, tails: seq<int>, continuous: seq<bool>)
    requires 0 <= head < |continuous| && continuous[head]
    ensures AllContinuous([head] + tails, continuous) <==> AllContinuous(tails, continuous)
  {
    forall k | 0 <= k < |tails|
      ensures ([head] + tails)[k + 1] == tails[k]
    {
    }
  }

  /** The columns reserved for the pending rows. */
  lemma {:induction false} PendingHeadsHold(qcs: seq<QuadraticConstraint>, cons: seq<Con>, n0: nat, lowers: seq<Ext>, sqrt: real -> real, n: nat)
    requires |qcs| == |cons| && RowsLinked(qcs, cons, n0, lowers, sqrt, |qcs|) && AllTranslated(cons, n, lowers)
    ensures PendingHeads(cons, qcs, n0, n0 + LinearCount(qcs, |qcs|))
    ensures forall i | 0 <= i < |qcs| && cons[i].PendingAffine? :: ShapeOf(qcs[i], n0, lowers, sqrt).Affine?
  {
    hide RowLink, ShapeOf, RowsLinked, Translated, LinearTerms, LinearCount;
    forall i: nat | i < |cons|
      ensures PendingHead(cons, qcs, i, n0, n0 + LinearCount(qcs, |qcs|))
      ensures cons[i].PendingAffine? ==> ShapeOf(qcs[i], n0, lowers, sqrt).Affine?
    {
      LinkAt(qcs, cons, n0, lowers, sqrt, i);
      PendingHeadHolds(qcs, cons, n0, lowers, sqrt, n, i);
    }
  }

  lemma {:induction false} PendingHeadHolds(qcs: seq<QuadraticConstraint>, cons: seq<Con>, n0: nat, lowers: seq<Ext>, sqrt: real -> real,
                                            n: nat, i: nat)
    requires i < |qcs| == |cons| && RowLink(qcs[i], cons[i], n0, lowers, sqrt, ReservedHead(qcs, n0, i)) && Translated(cons[i], n, lowers)
    ensures PendingHead(cons, qcs, i, n0, n0 + LinearCount(qcs, |qcs|))
    ensures cons[i].PendingAffine? ==> ShapeOf(qcs[i], n0, lowers, sqrt).Affine?
  {
    hide RowLink, ShapeOf, Injective, HeadNonnegative, LinearTerms;
    LinkedShape(qcs[i], cons[i], n0, lowers, sqrt, ReservedHead(qcs, n0, i));
    if cons[i].PendingAffine? { LinearCountMonotone(qcs, i + 1, |qcs|); }
  }

  lemma {:induction false} LinearCountMonotone(qcs: seq<QuadraticConstraint>, i: nat, k: nat)
    requires i <= k <= |qcs|
    ensures LinearCount(qcs, i) <= LinearCount(qcs, k)
  {
    if i < k { LinearCountMonotone(qcs, i, k - 1); }
  }

  /** In a call that is not mixed the reserved columns are the next free ones. */
  lemma {:induction false} HeadsDefined(m: Model, qcs: seq<QuadraticConstraint>, n0: nat, lowers: seq<Ext>, sqrt: real -> real, width: nat)
    requires WellFormed(m) && |qcs| == |m.cons| && RowsLinked(qcs, m.cons, n0, lowers, sqrt, |qcs|) && AllTranslated(m.cons, m.n, lowers)
    requires NotMixed(qcs, n0, lowers, sqrt) && (NoGeneralBefore(qcs, n0, lowers, sqrt, |qcs|) ==> m.n == n0)
    requires m.n >= n0 + 3 * GeneralCount(qcs, n0, lowers, sqrt, |qcs|) && width == n0 + LinearCount(qcs, |qcs|)
    ensures AffineRows(m.cons, qcs, m.n)
    ensures WithHeads(m, qcs, width) == DefineAll(m, AffineDefs(m.cons, qcs), AffineCons(m.cons))
    ensures forall i | 0 <= i < |qcs| && m.cons[i].PendingAffine? :: ShapeOf(qcs[i], n0, lowers, sqrt).Affine?
  {
    hide RowsLinked, ShapeOf, AllTranslated, AffineRows, AffineDefs, WithHeads, DefineAll, WellFormed, GeneralCount;
    AffineRowsHold(qcs, m.cons, n0, lowers, sqrt, m.n);
    if NoGeneralBefore(qcs, n0, lowers, sqrt, |qcs|) {
      CountAffine(qcs, m.cons, n0, lowers, sqrt, |qcs|);
      assert m.cons[..|qcs|] == m.cons;
    } else {
      NoAffineDefs(m.cons, qcs, n0, lowers, sqrt);
      AllLinked(qcs, m.cons, n0, lowers, sqrt);
      LinearIsGeneral(qcs, n0, lowers, sqrt, |qcs|);
    }
    WithHeadsDefines(m, qcs, width);
  }

  lemma {:induction false} AllLinked(qcs: seq<QuadraticConstraint>, cons: seq<Con>, n0: nat, lowers: seq<Ext>, sqrt: real -> real)
    requires |qcs| == |cons| && RowsLinked(qcs, cons, n0, lowers, sqrt, |qcs|)
    ensures forall i | 0 <= i < |qcs| :: !ShapeOf(qcs[i], n0, lowers, sqrt).Rejected?
  {
    hide ShapeOf;
    forall i: nat | i < |qcs| ensures !ShapeOf(qcs[i], n0, lowers, sqrt).Rejected? {
      assert RowLink(qcs[i], cons[i], n0, lowers, sqrt, ReservedHead(qcs, n0, i));
    }
  }

  lemma {:induction false} NoAffineDefs(cons: seq<Con>, qcs: seq<QuadraticConstraint>, n0: nat, lowers: seq<Ext>, sqrt: real -> real)
    requires |qcs| == |cons| && RowsLinked(qcs, cons, n0, lowers, sqrt, |qcs|)
    requires forall i | 0 <= i < |qcs| :: !ShapeOf(qcs[i], n0, lowers, sqrt).Affine?
    ensures AffineDefs(cons, qcs) == []
  {
    hide ShapeOf, RowLink, AffineDefs;
    if AffineDefs(cons, qcs) != [] {
      var i := AffineDefsOrigin(cons, qcs, 0);
      LinkAt(qcs, cons, n0, lowers, sqrt, i);
      LinkedShape(qcs[i], cons[i], n0, lowers, sqrt, ReservedHead(qcs, n0, i));
    }
  }

  lemma {:induction false} LinkAt(qcs: seq<QuadraticConstraint>, cons: seq<Con>, n0: nat, lowers: seq<Ext>, sqrt: real -> real, i: nat)
    requires |qcs| == |cons| && RowsLinked(qcs, cons, n0, lowers, sqrt, |qcs|) && i < |qcs|
    ensures RowLink(qcs[i], cons[i], n0, lowers, sqrt, ReservedHead(qcs, n0, i))
  {
  }

  lemma {:induction false} RowsWithHeads(m: Model, qcs: seq<QuadraticConstraint>, width: nat, n0: nat, lowers: seq<Ext>, sqrt: real -> real)
    requires |qcs| == |m.cons| && RowsLinked(qcs, m.cons, n0, lowers, sqrt, |qcs|)
    ensures m.rows <= WithHeads(m, qcs, width).rows && m.n <= WithHeads(m, qcs, width).n && width <= WithHeads(m, qcs, width).n
    ensures AffineEmitted(qcs, WithHeads(m, qcs, width).rows, n0, lowers, sqrt)
  {
    hide ShapeOf, RowLink, HeadRows, ScaledTerms, DefRow, HeadLowers, HeadUppers;
    forall i: nat | i < |qcs| && ShapeOf(qcs[i], n0, lowers, sqrt).Affine?
      ensures AffineLink(qcs[i], ShapeOf(qcs[i], n0, lowers, sqrt).scale, ReservedHead(qcs, n0, i)) in WithHeads(m, qcs, width).rows
    {
      AffineLinked(qcs[i], m.cons[i], n0, lowers, sqrt, ReservedHead(qcs, n0, i));
      HeadRowsAt(m.cons, qcs, i);
    }
  }

  lemma {:induction false} AffineLinked(qc: QuadraticConstraint, c: Con, n0: nat, lowers: seq<Ext>, sqrt: real -> real, head: int)
    requires RowLink(qc, c, n0, lowers, sqrt, head) && ShapeOf(qc, n0, lowers, sqrt).Affine?
    ensures c.PendingAffine? && c.head == head && c.scale == ShapeOf(qc, n0, lowers, sqrt).scale
  {
    hide ShapeOf;
  }

  lemma {:induction false} DefinedRows(m: Model, defs: seq<Def>, cons: seq<Con>)
    ensures m.rows <= DefineAll(m, defs, cons).rows
  {
  }

  lemma {:induction false} HeadsOneMore(cons: seq<Con>, i: int)
    requires 0 <= i < |cons|
    ensures forall j :: IsHead(cons[..i + 1], j) <==> IsHead(cons[..i], j) || (cons[i].PendingAffine? && cons[i].head == j)
  {
    forall j ensures IsHead(cons[..i + 1], j) <==> IsHead(cons[..i], j) || (cons[i].PendingAffine? && cons[i].head == j) {
      if IsHead(cons[..i], j) {
        var k :| 0 <= k < |cons[..i]| && cons[..i][k].PendingAffine? && cons[..i][k].head == j;
        assert cons[..i + 1][k] == cons[..i][k];
      }
      if cons[i].PendingAffine? && cons[i].head == j { assert cons[..i + 1][i] == cons[i]; }
      if IsHead(cons[..i + 1], j) {
        var k :| 0 <= k < |cons[..i + 1]| && cons[..i + 1][k].PendingAffine? && cons[..i + 1][k].head == j;
        assert k < i ==> cons[..i][k] == cons[..i + 1][k];
      }
    }
  }

  lemma {:induction false} NothingDone(m: Model, qcs: seq<QuadraticConstraint>, n0: nat, lowers: seq<Ext>, sqrt: real -> real,
                                       ldlt: seq<seq<real>> -> Ldlt)
    requires WellFormed(m) && m.n == n0
    ensures FreeFrom(m, n0) && GeneralEmitted(qcs, m.rows, 0, n0, lowers, sqrt) && AllAccepted(qcs, n0, lowers, sqrt, ldlt, 0)
  {
  }

  lemma {:induction false} AcceptedOneMore(qcs: seq<QuadraticConstraint>, n0: nat, lowers: seq<Ext>, sqrt: real -> real,
                                           ldlt: seq<seq<real>> -> Ldlt, k: nat)
    requires k < |qcs| && AllAccepted(qcs, n0, lowers, sqrt, ldlt, k)
    ensures var s := ShapeOf(qcs[k], n0, lowers, sqrt);
            && (AllAccepted(qcs, n0, lowers, sqrt, ldlt, k + 1) <==> !s.Rejected? && (s.General? ==> Convex(qcs[k], ldlt)))
            && (AllAccepted(qcs, n0, lowers, sqrt, ldlt, |qcs|) ==> !s.Rejected? && (s.General? ==> Convex(qcs[k], ldlt)))
  {
    hide ShapeOf, Convex;
    assert RowAccepted(qcs[k], n0, lowers, sqrt, ldlt) <==>
             !ShapeOf(qcs[k], n0, lowers, sqrt).Rejected? && (ShapeOf(qcs[k], n0, lowers, sqrt).General? ==> Convex(qcs[k], ldlt));
  }

  lemma {:induction false} NoneRejected(qcs: seq<QuadraticConstraint>, n0: nat, lowers: seq<Ext>, sqrt: real -> real, ldlt: seq<seq<real>> -> Ldlt)
    requires AllAccepted(qcs, n0, lowers, sqrt, ldlt, |qcs|)
    ensures forall i | 0 <= i < |qcs| :: !ShapeOf(qcs[i], n0, lowers, sqrt).Rejected?
  {
    hide ShapeOf, Convex;
    forall i | 0 <= i < |qcs| ensures !ShapeOf(qcs[i], n0, lowers, sqrt).Rejected? {
      assert RowAccepted(qcs[i], n0, lowers, sqrt, ldlt);
    }
  }

  lemma {:induction false} StepFree(m: Model, k: nat, b: Model, lowers: seq<Ext>, n0: nat)
    requires FreeFrom(m, n0) && GeneralStep(m, k, b, lowers)
    ensures FreeFrom(b, n0)
  {
    hide Translated, LowersValid, WellFormed, Extends, ConsBelow;
  }

  lemma {:induction false} SameFree(m: Model, b: Model, n0: nat)
    requires FreeFrom(m, n0) && b == m.(cons := b.cons)
    ensures FreeFrom(b, n0)
  {
  }

  lemma {:induction false} GeneralIsValid(qc: QuadraticConstraint, n0: nat, lowers: seq<Ext>, sqrt: real -> real)
    requires !ShapeOf(qc, n0, lowers, sqrt).Rejected?
    ensures InvalidReason(qc, n0) == []
  {
  }

  lemma {:induction false} AllLinkedValid(qcs: seq<QuadraticConstraint>, cons: seq<Con>, n0: nat, lowers: seq<Ext>, sqrt: real -> real)
    requires |qcs| == |cons| && RowsLinked(qcs, cons, n0, lowers, sqrt, |qcs|)
    ensures AllValid(qcs, n0)
  {
    hide RowLink;
    forall i: nat | i < |qcs|
      ensures InvalidReason(qcs[i], n0) == []
    {
      assert RowLink(qcs[i], cons[i], n0, lowers, sqrt, ReservedHead(qcs, n0, i));
      LinkedShape(qcs[i], cons[i], n0, lowers, sqrt, ReservedHead(qcs, n0, i));
      GeneralIsValid(qcs[i], n0, lowers, sqrt);
    }
  }

  /** The first `k` rows are translated, the others untouched, and nothing feasible was gained or lost. */
  ghost predicate RowsDone(m0: Model, m: Model, dims: seq<nat>, qcs: seq<QuadraticConstraint>, k: nat, n0: nat,
                           lowers: seq<Ext>, sqrt: real -> real)
  {
    && n0 == |lowers| <= m.n && |m.cons| == |qcs| && k <= |qcs| && WellFormed(m0) && WellFormed(m)
    && (forall i | 0 <= i < k :: Translated(m.cons[i], m.n, lowers))
    && (forall i | k <= i < |qcs| :: m.cons[i] == Quadratic(qcs[i]))
    && RowsLinked(qcs, m.cons, n0, lowers, sqrt, k)
    && LowersValid(m, lowers) && dims == DimsOf(m.cons[..k])
    && (NoGeneralBefore(qcs, n0, lowers, sqrt, k) ==> m.n == n0)
    && m.n >= n0 + 3 * GeneralCount(qcs, n0, lowers, sqrt, k)
    && (AllValid(qcs, n0) && HeadsBounded(qcs, n0, lowers, sqrt) ==> Extends(m0, m))
  }

  lemma {:induction false} RowsDoneStart(m0: Model, qcs: seq<QuadraticConstraint>, n0: nat, lowers: seq<Ext>, sqrt: real -> real)
    requires WellFormed(m0) && m0.n == n0 == |lowers| && m0.cons == Pending(qcs) && LowersValid(m0, lowers)
    ensures RowsDone(m0, m0, [], qcs, 0, n0, lowers, sqrt)
  {
    hide ShapeOf, LowersValid, Translated, LinearOk, Feasible;
    ExtendsReflexive(m0);
  }

  lemma {:induction false} RowsDoneFacts(m0: Model, m: Model, dims: seq<nat>, qcs: seq<QuadraticConstraint>, k: nat, n0: nat,
                      lowers: seq<Ext>, sqrt: real -> real)
    requires RowsDone(m0, m, dims, qcs, k, n0, lowers, sqrt) && k < |qcs|
    ensures n0 == |lowers| <= m.n && |m.cons| == |qcs| && m.cons[k] == Quadratic(qcs[k]) && LowersValid(m, lowers)
    ensures NoGeneralBefore(qcs, n0, lowers, sqrt, k) ==> m.n == n0
  {
    hide ShapeOf, LowersValid, Translated, Extends, WellFormed, RowLink;
  }

  lemma {:induction false} RowsDoneEnd(m0: Model, m: Model, dims: seq<nat>, qcs: seq<QuadraticConstraint>, n0: nat, lowers: seq<Ext>, sqrt: real -> real)
    requires RowsDone(m0, m, dims, qcs, |qcs|, n0, lowers, sqrt)
    ensures |m.cons| == |qcs| && RowsLinked(qcs, m.cons, n0, lowers, sqrt, |qcs|)
    ensures AllTranslated(m.cons, m.n, lowers) && LowersValid(m, lowers) && dims == DimsOf(m.cons)
    ensures n0 <= m.n && (NoGeneralBefore(qcs, n0, lowers, sqrt, |qcs|) ==> m.n == n0)
    ensures m.n >= n0 + 3 * GeneralCount(qcs, n0, lowers, sqrt, |qcs|)
    ensures HeadsBounded(qcs, n0, lowers, sqrt) ==> Extends(m0, m)
    ensures NoQuadratic(m.cons)
  {
    hide ShapeOf, LowersValid, Translated, Extends, WellFormed, RowLink, HeadsBounded, AllValid;
    assert m.cons[..|qcs|] == m.cons;
    forall i: nat | i < |qcs|
      ensures !m.cons[i].Quadratic? && !m.cons[i].HalfHead?
    {
      assert RowLink(qcs[i], m.cons[i], n0, lowers, sqrt, ReservedHead(qcs, n0, i));
      LinkedShape(qcs[i], m.cons[i], n0, lowers, sqrt, ReservedHead(qcs, n0, i));
    }
    AllLinkedValid(qcs, m.cons, n0, lowers, sqrt);
  }

  lemma {:induction false} RowsDoneBelow(m0: Model, m: Model, dims: seq<nat>, qcs: seq<QuadraticConstraint>, k: nat, n0: nat,
                      lowers: seq<Ext>, sqrt: real -> real)
    requires RowsDone(m0, m, dims, qcs, k, n0, lowers, sqrt) && AllValid(qcs, n0)
    ensures ConsBelow(m.cons, m.n)
  {
    hide ShapeOf, LowersValid, Extends, WellFormed, RowLink, InvalidReason;
    forall i | 0 <= i < |qcs|
      ensures ConBelow(m.cons[i], m.n)
    {
      if i < k {
        assert Translated(m.cons[i], m.n, lowers);
      } else {
        ValidRowBelow(qcs[i], n0, m.n);
      }
    }
  }

  /** One more linked row. */
  lemma {:induction false} LinkOneMore(qcs: seq<QuadraticConstraint>, a: seq<Con>, c: Con, k: nat, n0: nat, lowers: seq<Ext>, sqrt: real -> real)
    requires k < |qcs| == |a| && RowsLinked(qcs, a, n0, lowers, sqrt, k)
    requires RowLink(qcs[k], c, n0, lowers, sqrt, ReservedHead(qcs, n0, k))
    ensures RowsLinked(qcs, a[k := c], n0, lowers, sqrt, k + 1)
    ensures DimsOf(a[k := c][..k + 1]) == DimsOf(a[..k]) + [ConDim(c)]
  {
    hide RowLink;
    forall i: nat | i < k + 1
      ensures RowLink(qcs[i], a[k := c][i], n0, lowers, sqrt, ReservedHead(qcs, n0, i))
    {
      if i < k { assert RowLink(qcs[i], a[i], n0, lowers, sqrt, ReservedHead(qcs, n0, i)); }
    }
  }

  lemma {:induction false} AfterGeneral(m0: Model, a: Model, b: Model, dims: seq<nat>, qcs: seq<QuadraticConstraint>, k: nat, n0: nat,
                     lowers: seq<Ext>, sqrt: real -> real)
    requires k < |qcs| && RowsDone(m0, a, dims, qcs, k, n0, lowers, sqrt) && GeneralStep(a, k, b, lowers)
    requires ShapeOf(qcs[k], n0, lowers, sqrt).General?
    ensures |b.cons| == |qcs| && WellFormed(b)
    ensures RowsDone(m0, b, dims + [ConDim(b.cons[k])], qcs, k + 1, n0, lowers, sqrt)
  {
    hide ShapeOf, Extends, LowersValid, WellFormed, Translated, InvalidReason, ConsBelow, RowsLinked, HeadsBounded, AllValid;
    var vars :| Translated(Cone(vars), b.n, lowers) && b.cons == a.cons[k := Cone(vars)];
    forall i | 0 <= i < k
      ensures Translated(b.cons[i], b.n, lowers)
    {
      TranslatedLonger(a.cons[i], a.n, b.n, lowers);
    }
    if AllValid(qcs, n0) && HeadsBounded(qcs, n0, lowers, sqrt) {
      RowsDoneBelow(m0, a, dims, qcs, k, n0, lowers, sqrt);
      ExtendsTransitive(m0, a, b);
    }
    LinkOneMore(qcs, a.cons, Cone(vars), k, n0, lowers, sqrt);
  }

  lemma {:induction false} AfterRecognised(m0: Model, a: Model, b: Model, dims: seq<nat>, qcs: seq<QuadraticConstraint>, k: nat, n0: nat,
                        lowers: seq<Ext>, sqrt: real -> real)
    requires k < |qcs| && RowsDone(m0, a, dims, qcs, k, n0, lowers, sqrt) && IsSqrt(sqrt)
    requires var s := ShapeOf(qcs[k], n0, lowers, sqrt);
             !s.Rejected? && !s.General? && b == a.(cons := a.cons[k := ShapeCon(s, qcs[k], ReservedHead(qcs, n0, k))])
    ensures |b.cons| == |qcs| && WellFormed(b)
    ensures RowsDone(m0, b, dims + [ConDim(b.cons[k])], qcs, k + 1, n0, lowers, sqrt)
  {
    hide ShapeOf, ShapeCon, Extends, Translated, IsSqrt, InvalidReason, RowHeadBounded, LinearOk, LowersValid, RowsLinked, AllValid;
    var c := ShapeCon(ShapeOf(qcs[k], n0, lowers, sqrt), qcs[k], ReservedHead(qcs, n0, k));
    ShapeTranslated(qcs[k], n0, a.n, lowers, sqrt, ReservedHead(qcs, n0, k));
    if AllValid(qcs, n0) && HeadsBounded(qcs, n0, lowers, sqrt) {
      BoundedHead(qcs[k], n0, lowers, sqrt);
      RecognisedExtends(a, k, qcs[k], n0, lowers, sqrt, ReservedHead(qcs, n0, k));
      ExtendsTransitive(m0, a, b);
    }
    SameLinear(a, b, lowers);
    LinkOneMore(qcs, a.cons, c, k, n0, lowers, sqrt);
  }

  lemma {:induction false} BoundedHead(qc: QuadraticConstraint, n0: nat, lowers: seq<Ext>, sqrt: real -> real)
    requires RowHeadBounded(qc, n0, lowers, sqrt)
    ensures var s := ShapeOf(qc, n0, lowers, sqrt); s.Tailless? ==> HeadNonnegative(lowers, s.head)
  {
  }

  lemma {:induction false} SameLinear(a: Model, b: Model, lowers: seq<Ext>)
    requires LowersValid(a, lowers) && b == a.(cons := b.cons)
    ensures LowersValid(b, lowers)
  {
    forall x, j | LinearOk(b, x) && 0 <= j < |lowers|
      ensures Le(lowers[j], Fin(At(x, j)))
    {
      assert LinearOk(a, x);
    }
  }

  /** One general row became a cone over new columns, exactly when the other rows are over the old columns. */
  ghost predicate GeneralStep(m: Model, k: nat, b: Model, lowers: seq<Ext>) {
    && m.n + 3 <= b.n && k < |m.cons|
    && (exists vars :: Translated(Cone(vars), b.n, lowers) && b.cons == m.cons[k := Cone(vars)])
    && (ConsBelow(m.cons, m.n) ==> Extends(m, b))
    && LowersValid(b, lowers) && WellFormed(b)
    && |m.lower| == |m.upper| == m.n && |b.lower| == |b.upper| == b.n && m.lower <= b.lower && m.upper <= b.upper
    && (forall j | m.n <= j < b.n :: b.lower[j] == NegInf && b.upper[j] == PosInf)
  }

  lemma {:induction false} GeneralStepFacts(m: Model, k: nat, defs: seq<Def>, r: nat, lowers: seq<Ext>)
    requires k < |m.cons| && GeneralStep(m, k, DefineAll(m, defs, m.cons[k := Cone(GeneralCone(m.n, r))]), lowers)
    ensures WellFormed(DefineAll(m, defs, m.cons[k := Cone(GeneralCone(m.n, r))]))
    ensures ConDim(Cone(GeneralCone(m.n, r))) == r + 2
  {
  }

  /** Collect the columns of a general row, accumulate its Hessian and factor it; false when it is not convex. */
  method FactorHessian(qc: QuadraticConstraint, n0: nat, ldlt: seq<seq<real>> -> Ldlt)
    returns (ok: bool, vars: seq<int>, f: Ldlt, ghost h: seq<seq<real>>)
    requires IsLdlt(ldlt) && InvalidReason(qc, n0) == []
    ensures ok <==> Convex(qc, ldlt)
    ensures ok ==>
              && Injective(vars) && ColsBelow(vars, n0) && Covers(vars, Entries(Normalized(qc)))
              && IsHessian(h, Entries(Normalized(qc)), vars) && Factorizes(f, h) && |f.d| >= 1
  {
    var es := Entries(Normalized(qc));
    EntriesNormalizedBelow(qc, n0);
    var local;
    vars, local := CollectVars(es, n0);
    var matrix := AccumulateHessian(es, vars, local);
    h := matrix;
    f := ldlt(matrix);
    ok := !f.Indefinite? && |f.d| >= 1;
  }

  /** Turn a general row into linking rows; false when the row is not convex. */
  method FactorRow(ghost m: Model, ghost k: nat, qc: QuadraticConstraint, n0: nat, ghost lowers: seq<Ext>,
                   sqrt: real -> real, ldlt: seq<seq<real>> -> Ldlt)
    returns (ok: bool, defs: seq<Def>, r: nat, ghost vars: seq<int>, ghost h: seq<seq<real>>, ghost f: Ldlt)
    requires WellFormed(m) && IsSqrt(sqrt) && IsLdlt(ldlt) && InvalidReason(qc, n0) == [] && n0 <= m.n
    requires k < |m.cons| && m.cons[k] == Quadratic(qc)
    requires |lowers| <= m.n && LowersValid(m, lowers)
    ensures ok <==> Convex(qc, ldlt)
    ensures ok ==> r >= 1 && |defs| == r + 2
    ensures ok ==> GeneralStep(m, k, DefineAll(m, defs, m.cons[k := Cone(GeneralCone(m.n, r))]), lowers)
    ensures ok ==> GeneralFactor(qc, n0, vars, h, f) && f.Factor? && |f.cols| == |f.d| && defs == GeneralDefs(Normalized(qc), vars, f, sqrt)
  {
    var columns, factor;
    ok, columns, factor, h := FactorHessian(qc, n0, ldlt);
    if !ok { return false, [], 0, [], [], factor; }
    GeneralStepHolds(m, k, qc, n0, columns, h, factor, sqrt, lowers);
    r := |factor.d|;
    defs := GeneralDefs(Normalized(qc), columns, factor, sqrt);
    vars, f := columns, factor;
  }

  lemma {:induction false} FactorShape(qc: QuadraticConstraint, n0: nat, vars: seq<int>, h: seq<seq<real>>, f: Ldlt)
    requires GeneralFactor(qc, n0, vars, h, f)
    ensures f.Factor? && |f.cols| == |f.d|
  {
  }

  lemma {:induction false} GeneralStepHolds(m: Model, k: nat, qc: QuadraticConstraint, n0: nat, vars: seq<int>, h: seq<seq<real>>, f: Ldlt,
                         sqrt: real -> real, lowers: seq<Ext>)
    requires WellFormed(m) && IsSqrt(sqrt) && InvalidReason(qc, n0) == [] && n0 <= m.n
    requires k < |m.cons| && m.cons[k] == Quadratic(qc)
    requires |lowers| <= m.n && LowersValid(m, lowers)
    requires var es := Entries(Normalized(qc));
             Injective(vars) && ColsBelow(vars, n0) && Covers(vars, es) && IsHessian(h, es, vars) && Factorizes(f, h)
    requires f.Factor? && |f.d| >= 1
    ensures f.Factor? && |f.cols| == |f.d|
    ensures GeneralStep(m, k, DefineAll(m, GeneralDefs(Normalized(qc), vars, f, sqrt), m.cons[k := Cone(GeneralCone(m.n, |f.d|))]), lowers)
  {
    hide InvalidReason, Covers, Entries, FactorTerms, Translated, LowersValid, LinearOk;
    FactorizesFacts(f, h);
    var defs, cons := GeneralDefs(Normalized(qc), vars, f, sqrt), m.cons[k := Cone(GeneralCone(m.n, |f.d|))];
    if ConsBelow(m.cons, m.n) { GeneralExtends(m, k, qc, n0, vars, h, f, sqrt); }
    GeneralDefsBelow(qc, n0, vars, h, f, sqrt);
    forall i | 0 <= i < |defs|
      ensures TermsBelow(defs[i].terms, m.n)
    {
      TermsBelowLonger(defs[i].terms, n0, m.n);
    }
    LowersValidExtended(m, defs, cons, lowers);
    DefineAllWellFormed(m, defs, cons);
    GeneralConeTranslated(m.n, |f.d|, lowers);
  }

  /** What a row was recognised as, and what it became. */
  ghost predicate RowLink(qc: QuadraticConstraint, c: Con, n0: nat, lowers: seq<Ext>, sqrt: real -> real, head: int) {
    var s := ShapeOf(qc, n0, lowers, sqrt);
    !s.Rejected? && if s.General? then c.Cone? else c == ShapeCon(s, qc, head)
  }

  ghost predicate RowsLinked(qcs: seq<QuadraticConstraint>, cons: seq<Con>, n0: nat, lowers: seq<Ext>, sqrt: real -> real, k: nat)
    requires k <= |qcs| == |cons|
  {
    forall i: nat | i < k :: RowLink(qcs[i], cons[i], n0, lowers, sqrt, ReservedHead(qcs, n0, i))
  }

  ghost predicate AllValid(qcs: seq<QuadraticConstraint>, n0: nat) {
    forall i | 0 <= i < |qcs| :: InvalidReason(qcs[i], n0) == []
  }

  ghost predicate NoGeneralBefore(qcs: seq<QuadraticConstraint>, n0: nat, lowers: seq<Ext>, sqrt: real -> real, k: nat)
    requires k <= |qcs|
  {
    forall i | 0 <= i < k :: !ShapeOf(qcs[i], n0, lowers, sqrt).General?
  }

  lemma {:induction false} ValidRowBelow(qc: QuadraticConstraint, n0: int, n: int)
    requires InvalidReason(qc, n0) == [] && n0 <= n
    ensures ConBelow(Quadratic(qc), n)
  {
  }

  lemma {:induction false} ShapeLinear(qc: QuadraticConstraint, n0: nat, lowers: seq<Ext>, sqrt: real -> real)
    ensures var s := ShapeOf(qc, n0, lowers, sqrt);
            !s.Rejected? && !s.General? ==> (s.Affine? <==> qc.linearValues != [])
  {
    hide InvalidReason, PartsOf, Decide;
    var q, p := Normalized(qc), PartsOfRow(qc);
    DecideFacts(p, |q.vals|, q.rhs, q.linearValues != [], lowers, sqrt);
  }

  lemma {:induction false} LinkedShape(qc: QuadraticConstraint, c: Con, n0: nat, lowers: seq<Ext>, sqrt: real -> real, head: int)
    requires RowLink(qc, c, n0, lowers, sqrt, head)
    ensures var s := ShapeOf(qc, n0, lowers, sqrt);
            && !s.Rejected?
            && (c.PendingAffine? <==> s.Affine?)
            && (!s.General? ==> (c.PendingAffine? <==> qc.linearValues != []))
            && (c.PendingAffine? ==> c.head == head && c.linear == LinearTerms(Normalized(qc)))
            && !c.HalfHead? && !c.Quadratic?
  {
    hide ShapeOf;
    ShapeLinear(qc, n0, lowers, sqrt);
    assert ShapeOf(qc, n0, lowers, sqrt).Tailless? || ShapeOf(qc, n0, lowers, sqrt).Diagonal? || ShapeOf(qc, n0, lowers, sqrt).Affine?
      || ShapeOf(qc, n0, lowers, sqrt).Rotated? || ShapeOf(qc, n0, lowers, sqrt).General?;
  }

  /** Without general rows the reserved heads are the numbers the affine pass hands out. */
  lemma {:induction false} CountAffine(qcs: seq<QuadraticConstraint>, cons: seq<Con>, n0: nat, lowers: seq<Ext>,
                                       sqrt: real -> real, k: nat)
    requires k <= |qcs| == |cons| && RowsLinked(qcs, cons, n0, lowers, sqrt, k) && NoGeneralBefore(qcs, n0, lowers, sqrt, k)
    ensures |AffineDefs(cons[..k], qcs)| == LinearCount(qcs, k)
  {
    if k == 0 {
      assert cons[..0] == [];
    } else {
      hide RowLink, ShapeOf, AffineDefs, RowsLinked, NoGeneralBefore;
      var i := k - 1;
      PreviousRow(qcs, cons, n0, lowers, sqrt, i);
      CountAffine(qcs, cons, n0, lowers, sqrt, i);
      LinkedShape(qcs[i], cons[i], n0, lowers, sqrt, ReservedHead(qcs, n0, i));
      AffineDefsCount(cons, qcs, i);
    }
  }

  lemma {:induction false} AffineDefsCount(cons: seq<Con>, qcs: seq<QuadraticConstraint>, i: nat)
    requires i < |cons| <= |qcs|
    ensures |AffineDefs(cons[..i + 1], qcs)| == |AffineDefs(cons[..i], qcs)| + if cons[i].PendingAffine? then 1 else 0
  {
    assert cons[..i + 1][..i] == cons[..i] && cons[..i + 1][i] == cons[i];
  }

  lemma {:induction false} PreviousRow(qcs: seq<QuadraticConstraint>, cons: seq<Con>, n0: nat, lowers: seq<Ext>, sqrt: real -> real, i: nat)
    requires i < |qcs| == |cons|
    requires RowsLinked(qcs, cons, n0, lowers, sqrt, i + 1) && NoGeneralBefore(qcs, n0, lowers, sqrt, i + 1)
    ensures RowsLinked(qcs, cons, n0, lowers, sqrt, i) && NoGeneralBefore(qcs, n0, lowers, sqrt, i)
    ensures RowLink(qcs[i], cons[i], n0, lowers, sqrt, ReservedHead(qcs, n0, i)) && !ShapeOf(qcs[i], n0, lowers, sqrt).General?
  {
    hide RowLink, ShapeOf;
  }

  lemma {:induction false} AffineRowsHold(qcs: seq<QuadraticConstraint>, cons: seq<Con>, n0: nat, lowers: seq<Ext>, sqrt: real -> real, n: nat)
    requires |qcs| == |cons| && RowsLinked(qcs, cons, n0, lowers, sqrt, |qcs|) && AllTranslated(cons, n, lowers)
    requires NotMixed(qcs, n0, lowers, sqrt) && (NoGeneralBefore(qcs, n0, lowers, sqrt, |qcs|) ==> n == n0)
    ensures AffineRows(cons, qcs, n)
    ensures forall i | 0 <= i < |qcs| && cons[i].PendingAffine? :: ShapeOf(qcs[i], n0, lowers, sqrt).Affine?
  {
    hide RowLink, ShapeOf;
    forall i: nat | i < |cons|
      ensures AffineRow(cons, qcs, i, n)
      ensures cons[i].PendingAffine? ==> ShapeOf(qcs[i], n0, lowers, sqrt).Affine?
    {
      assert RowLink(qcs[i], cons[i], n0, lowers, sqrt, ReservedHead(qcs, n0, i));
      LinkedShape(qcs[i], cons[i], n0, lowers, sqrt, ReservedHead(qcs, n0, i));
      assert Translated(cons[i], n, lowers);
      if cons[i].PendingAffine? {
        CountAffine(qcs, cons, n0, lowers, sqrt, i);
      }
    }
  }

  lemma {:induction false} EntriesNormalizedBelow(qc: QuadraticConstraint, n: int)
    requires InvalidReason(qc, n) == []
    ensures EntriesBelow(Entries(Normalized(qc)), n)
  {
    forall k | 0 <= k < |Entries(Normalized(qc))|
      ensures 0 <= Entries(Normalized(qc))[k].row < n && 0 <= Entries(Normalized(qc))[k].col < n
    {
      assert Entries(Normalized(qc))[k].row == Entries(qc)[k].row && Entries(Normalized(qc))[k].col == Entries(qc)[k].col;
    }
  }

  // ---------------------------------------------------------------- affine and general rows in one call

  /** Before the first affine row every reserved column belongs to a general row. */
  lemma {:induction false} LinearIsGeneral(qcs: seq<QuadraticConstraint>, n0: nat, lowers: seq<Ext>, sqrt: real -> real, k: nat)
    requires k <= |qcs| && forall i | 0 <= i < k :: !ShapeOf(qcs[i], n0, lowers, sqrt).Rejected? && !ShapeOf(qcs[i], n0, lowers, sqrt).Affine?
    ensures LinearCount(qcs, k) <= GeneralCount(qcs, n0, lowers, sqrt, k)
  {
    hide ShapeOf;
    if k > 0 {
      LinearIsGeneral(qcs, n0, lowers, sqrt, k - 1);
      ShapeLinear(qcs[k - 1], n0, lowers, sqrt);
    }
  }

  lemma {:induction false} GeneralCountMonotone(qcs: seq<QuadraticConstraint>, n0: nat, lowers: seq<Ext>, sqrt: real -> real, k: nat, l: nat)
    requires k <= l <= |qcs|
    ensures GeneralCount(qcs, n0, lowers, sqrt, k) <= GeneralCount(qcs, n0, lowers, sqrt, l)
  {
    hide ShapeOf;
    if k < l { GeneralCountMonotone(qcs, n0, lowers, sqrt, k, l - 1); }
  }

  lemma {:induction false} FirstAffine(qcs: seq<QuadraticConstraint>, n0: nat, lowers: seq<Ext>, sqrt: real -> real, k: nat)
    returns (i: nat)
    requires k < |qcs| && ShapeOf(qcs[k], n0, lowers, sqrt).Affine?
    ensures i <= k && ShapeOf(qcs[i], n0, lowers, sqrt).Affine?
    ensures forall j | 0 <= j < i :: !ShapeOf(qcs[j], n0, lowers, sqrt).Affine?
  {
    hide ShapeOf;
    i := 0;
    while !ShapeOf(qcs[i], n0, lowers, sqrt).Affine?
      invariant i <= k && forall j | 0 <= j < i :: !ShapeOf(qcs[j], n0, lowers, sqrt).Affine?
      decreases k - i
    {
      i := i + 1;
    }
  }

  /**
   * Heads are reserved from column n0 on before the general rows append their columns from n0 on, so affine
   * heads are fresh exactly when one call does not mix affine and general rows.
   */
  lemma {:induction false} HeadsFreshIff(qcs: seq<QuadraticConstraint>, n0: nat, lowers: seq<Ext>, sqrt: real -> real, n: nat)
    requires forall i | 0 <= i < |qcs| :: !ShapeOf(qcs[i], n0, lowers, sqrt).Rejected?
    requires n >= n0 + 3 * GeneralCount(qcs, n0, lowers, sqrt, |qcs|)
    requires NoGeneralBefore(qcs, n0, lowers, sqrt, |qcs|) ==> n == n0
    ensures NotMixed(qcs, n0, lowers, sqrt) <==> HeadsFresh(qcs, n0, lowers, sqrt, n)
  {
    hide ShapeOf;
    if NotMixed(qcs, n0, lowers, sqrt) {
      forall i: nat | i < |qcs| && ShapeOf(qcs[i], n0, lowers, sqrt).Affine?
        ensures ReservedHead(qcs, n0, i) >= n
      {
        assert NoGeneralBefore(qcs, n0, lowers, sqrt, |qcs|);
        ShapeLinear(qcs[i], n0, lowers, sqrt);
      }
    } else {
      var a :| 0 <= a < |qcs| && ShapeOf(qcs[a], n0, lowers, sqrt).Affine?;
      var g :| 0 <= g < |qcs| && ShapeOf(qcs[g], n0, lowers, sqrt).General?;
      var i := FirstAffine(qcs, n0, lowers, sqrt, a);
      LinearIsGeneral(qcs, n0, lowers, sqrt, i);
      GeneralCountMonotone(qcs, n0, lowers, sqrt, i, |qcs|);
      GeneralCountMonotone(qcs, n0, lowers, sqrt, g + 1, |qcs|);
      assert GeneralCount(qcs, n0, lowers, sqrt, g + 1) >= 1;
      assert ReservedHead(qcs, n0, i) < n;
    }
  }
}
