/** Which lists of quadratic rows are translated without an error, read off the rows and the linear part of the model. */
module SocAcceptance {
  import opened Extended
  import opened ConicModel
  import opened SocClassify
  import opened SocGeneral
  import opened SocShapes

  /** The bound of the column, or a singleton row, keeps column `j` non-negative. */
  predicate KeptNonnegative(m: Model, j: int) {
    && 0 <= j < m.n
    && ((j < |m.lower| && Le(Fin(0.0), m.lower[j]))
        || exists i :: 0 <= i < |m.rows| && BoundsBelow(m.rows[i], j) && m.rows[i].rhs / m.rows[i].terms[0].coef >= 0.0)
  }

  predicate ColumnContinuous(continuous: seq<bool>, j: int) {
    0 <= j < |continuous| && continuous[j]
  }

  predicate EntriesContinuous(es: seq<Entry>, continuous: seq<bool>) {
    forall k | 0 <= k < |es| :: ColumnContinuous(continuous, es[k].row) && ColumnContinuous(continuous, es[k].col)
  }

  /** The factorisation routine finds the quadratic part convex and not zero. */
  predicate FoundConvex(es: seq<Entry>, ldlt: seq<seq<real>> -> Ldlt) {
    ldlt(HessianOf(es, VarSet(es))).Factor? && |ldlt(HessianOf(es, VarSet(es))).d| >= 1
  }

  /** A special row whose head or heads are in order. */
  ghost predicate HeadsInOrder(es: seq<Entry>, m: Model, continuous: seq<bool>) {
    || (|es| == 1 && es[0].row == es[0].col && es[0].value < 0.0)
    || (exists s, odd, head :: LorentzRow(es, s, odd, head) && KeptNonnegative(m, head))
    || (exists s, odd, a, b, d :: RotatedRow(es, s, odd, a, b, d) && KeptNonnegative(m, a) && KeptNonnegative(m, b)
                                  && EntriesContinuous(es, continuous))
  }

  ghost predicate Acceptable(qc: QuadraticConstraint, m: Model, ldlt: seq<seq<real>> -> Ldlt, continuous: seq<bool>) {
    && ArgumentsValid(qc, m.n)
    && var es, hasLinear := Entries(Normalized(qc)), qc.linearValues != [];
       if !Special(es, Normalized(qc).rhs, hasLinear) then FoundConvex(es, ldlt)
       else if hasLinear then EntriesContinuous(es, continuous)
       else HeadsInOrder(es, m, continuous)
  }

  /** The head test, on the model instead of the list of best lower bounds. */
  lemma {:induction false} HeadTestIff(m: Model, lowers: seq<Ext>, j: int)
    requires |lowers| == m.n
    requires 0 <= j < m.n ==> lowers[j] == Max(if j < |m.lower| then m.lower[j] else NegInf, ImpliedLower(m.rows, j))
    ensures HeadNonnegative(lowers, j) <==> KeptNonnegative(m, j)
  {
    hide ImpliedLower, BoundsBelow;
    ImpliedLowerBest(m.rows, j);
  }

  ghost predicate SameHeads(m: Model, lowers: seq<Ext>) {
    forall j :: HeadNonnegative(lowers, j) <==> KeptNonnegative(m, j)
  }

  /** The columns of a special row are its tails and heads. */
  lemma {:induction false} TailsContinuous(tails: seq<int>, es: seq<Entry>, s: real, odd: int, continuous: seq<bool>)
    requires OneScale(es, s, odd) && AreTails(tails, es, odd)
    ensures EntriesContinuous(es, continuous) <==>
              && (forall k | 0 <= k < |tails| :: ColumnContinuous(continuous, tails[k]))
              && (odd >= 0 ==> ColumnContinuous(continuous, es[odd].row) && ColumnContinuous(continuous, es[odd].col))
  {
    hide ColumnContinuous;
    if EntriesContinuous(es, continuous) {
      forall k | 0 <= k < |tails| ensures ColumnContinuous(continuous, tails[k]) {
        assert tails[k] in tails;
        var l :| 0 <= l < |es| && l != odd && es[l].row == tails[k];
      }
    }
    if forall k | 0 <= k < |tails| :: ColumnContinuous(continuous, tails[k]) {
      forall k | 0 <= k < |es| && k != odd
        ensures ColumnContinuous(continuous, es[k].row) && ColumnContinuous(continuous, es[k].col)
      {
        assert es[k].row in tails;
        var l :| 0 <= l < |tails| && tails[l] == es[k].row;
      }
    }
  }

  predicate AllContinuous(cols: seq<int>, continuous: seq<bool>) {
    forall k | 0 <= k < |cols| :: 0 <= cols[k] < |continuous| && continuous[cols[k]]
  }

  /** Rotated and affine rows are over continuous columns. */
  predicate RowContinuous(s: Shape, continuous: seq<bool>) {
    match s
    case Rotated(a, b, tails, _) => AllContinuous([a, b] + tails, continuous)
    case Affine(tails, _) => AllContinuous(tails, continuous)
    case _ => true
  }

  /** Acceptance in coordinates is acceptance of the shape. */
  lemma {:induction false} AcceptableIff(qc: QuadraticConstraint, m: Model, lowers: seq<Ext>, sqrt: real -> real,
                                         ldlt: seq<seq<real>> -> Ldlt, continuous: seq<bool>)
    requires SameHeads(m, lowers) && |lowers| == m.n && IsSqrt(sqrt)
    ensures Acceptable(qc, m, ldlt, continuous) <==>
              var s := ShapeOf(qc, m.n, lowers, sqrt);
              !s.Rejected? && (s.General? ==> Convex(qc, ldlt)) && RowContinuous(s, continuous)
  {
    hide ArgumentsValid, Entries, HessianOf, VarSet, ShapeOf, Special, HeadsInOrder, EntriesContinuous, AllContinuous, IsSqrt,
         DistinctRows, OneScale, LorentzWith, RotatedWith, Refused, AreTails, SameHeads, HeadNonnegative;
    if !ArgumentsValid(qc, m.n) {
      InvalidShape(qc, m.n, lowers, sqrt);
      return;
    }
    var es, s := Entries(Normalized(qc)), ShapeOf(qc, m.n, lowers, sqrt);
    ShapeIff(qc, m.n, lowers, sqrt, s);
    ShapeIff(qc, m.n, lowers, sqrt, General);
    if s.Affine? {
      AffineContinuous(s.tails, es, s.scale, continuous);
    } else if Special(es, Normalized(qc).rhs, qc.linearValues != []) {
      PlainAcceptable(qc, m, lowers, sqrt, continuous);
    }
  }

  lemma {:induction false} InvalidShape(qc: QuadraticConstraint, n: int, lowers: seq<Ext>, sqrt: real -> real)
    requires !ArgumentsValid(qc, n)
    ensures ShapeOf(qc, n, lowers, sqrt).Rejected?
  {
  }

  lemma {:induction false} AffineContinuous(tails: seq<int>, es: seq<Entry>, s: real, continuous: seq<bool>)
    requires OneScale(es, s, -1) && AreTails(tails, es, -1)
    ensures EntriesContinuous(es, continuous) <==> AllContinuous(tails, continuous)
  {
    hide OneScale, AreTails, EntriesContinuous;
    TailsContinuous(tails, es, s, -1, continuous);
  }

  lemma {:induction false} RotatedContinuousEntries(tails: seq<int>, es: seq<Entry>, s: real, odd: nat, a: int, b: int, d: real, continuous: seq<bool>)
    requires RotatedRow(es, s, odd, a, b, d) && AreTails(tails, es, odd)
    ensures EntriesContinuous(es, continuous) <==> AllContinuous([a, b] + tails, continuous)
  {
    hide AreTails, EntriesContinuous, SquaresElsewhere;
    TailsContinuous(tails, es, s, odd, continuous);
    var all := [a, b] + tails;
    assert all[0] == a && all[1] == b && forall k | 0 <= k < |tails| :: all[k + 2] == tails[k];
    assert forall k | 2 <= k < |all| :: all[k] == tails[k - 2];
  }

  lemma {:induction false} FitsInOrder(es: seq<Entry>, shape: Shape, m: Model, lowers: seq<Ext>, continuous: seq<bool>)
    requires SameHeads(m, lowers) && Special(es, 0.0, false) && ShapeFits(shape, es, 0.0, false, lowers)
    requires !shape.Rejected? && RowContinuous(shape, continuous)
    ensures HeadsInOrder(es, m, continuous)
  {
    hide SquaresElsewhere, AreTails, AllContinuous, EntriesContinuous, KeptNonnegative, HeadNonnegative, DistinctRows, Special;
    match shape
    case Diagonal(head, tails) =>
      var s, odd :| LorentzRow(es, s, odd, head) && AreTails(tails, es, odd);
    case Rotated(a, b, tails, ratio) =>
      var s, odd, d :| RotatedRow(es, s, odd, a, b, d) && ratio * ratio == d / s && AreTails(tails, es, odd);
      RotatedContinuousEntries(tails, es, s, odd, a, b, d, continuous);
    case _ =>
  }

  /** Heads in order leave no reason to refuse the row. */
  lemma {:induction false} InOrderAccepted(qc: QuadraticConstraint, m: Model, lowers: seq<Ext>, sqrt: real -> real, continuous: seq<bool>)
    requires SameHeads(m, lowers) && |lowers| == m.n && IsSqrt(sqrt) && ArgumentsValid(qc, m.n)
    requires Special(Entries(Normalized(qc)), Normalized(qc).rhs, false) && qc.linearValues == []
    requires HeadsInOrder(Entries(Normalized(qc)), m, continuous)
    ensures var s := ShapeOf(qc, m.n, lowers, sqrt); !s.Rejected? && RowContinuous(s, continuous)
  {
    hide OneScale, AreTails, AllContinuous, EntriesContinuous, KeptNonnegative, DistinctRows, LorentzRow, RotatedRow, ArgumentsValid,
         Entries, ShapeOf, IsSqrt, SameHeads;
    var es := Entries(Normalized(qc));
    if |es| == 1 && es[0].row == es[0].col && es[0].value < 0.0 {
      ShapeIff(qc, m.n, lowers, sqrt, Tailless(es[0].row));
    } else if s, odd, head :| LorentzRow(es, s, odd, head) && KeptNonnegative(m, head) {
      KeptHead(m, lowers, head);
      assert 0 <= odd by { LorentzOdd(es, s, odd, head); }
      LorentzRecognised(qc, m.n, lowers, sqrt, s, odd, head);
    } else {
      var s, odd, a, b, d :| RotatedRow(es, s, odd, a, b, d) && KeptNonnegative(m, a) && KeptNonnegative(m, b) && EntriesContinuous(es, continuous);
      KeptHead(m, lowers, a);
      KeptHead(m, lowers, b);
      assert 0 <= odd by { RotatedOdd(es, s, odd, a, b, d); }
      RotatedRecognised(qc, m.n, lowers, sqrt, s, odd, a, b, d);
      RotatedContinuousEntries(ShapeOf(qc, m.n, lowers, sqrt).tails, es, s, odd, a, b, d, continuous);
    }
  }

  lemma {:induction false} LorentzOdd(es: seq<Entry>, s: real, odd: int, head: int)
    requires LorentzRow(es, s, odd, head)
    ensures 0 <= odd
  {
  }

  lemma {:induction false} RotatedOdd(es: seq<Entry>, s: real, odd: int, a: int, b: int, d: real)
    requires RotatedRow(es, s, odd, a, b, d)
    ensures 0 <= odd
  {
  }

  lemma {:induction false} KeptHead(m: Model, lowers: seq<Ext>, j: int)
    requires SameHeads(m, lowers) && KeptNonnegative(m, j)
    ensures 0 <= j < |lowers| && Le(Fin(0.0), lowers[j])
  {
    assert HeadNonnegative(lowers, j);
  }

  /** A special row without a linear part is accepted exactly when its heads are in order. */
  lemma {:induction false} PlainAcceptable(qc: QuadraticConstraint, m: Model, lowers: seq<Ext>, sqrt: real -> real, continuous: seq<bool>)
    requires SameHeads(m, lowers) && |lowers| == m.n && IsSqrt(sqrt) && ArgumentsValid(qc, m.n)
    requires Special(Entries(Normalized(qc)), Normalized(qc).rhs, false) && qc.linearValues == []
    ensures HeadsInOrder(Entries(Normalized(qc)), m, continuous) <==>
              var s := ShapeOf(qc, m.n, lowers, sqrt); !s.Rejected? && RowContinuous(s, continuous)
  {
    hide ArgumentsValid, Entries, HeadsInOrder, ShapeOf, ShapeFits, RowContinuous, IsSqrt, SameHeads;
    var es, s := Entries(Normalized(qc)), ShapeOf(qc, m.n, lowers, sqrt);
    ShapeIff(qc, m.n, lowers, sqrt, s);
    if HeadsInOrder(es, m, continuous) { InOrderAccepted(qc, m, lowers, sqrt, continuous); }
    if !s.Rejected? && RowContinuous(s, continuous) { FitsInOrder(es, s, m, lowers, continuous); }
  }

  /** The lists of rows that are translated without an error. */
  ghost predicate AllAcceptable(qcs: seq<QuadraticConstraint>, m: Model, ldlt: seq<seq<real>> -> Ldlt, continuous: seq<bool>) {
    forall i | 0 <= i < |qcs| :: Acceptable(qcs[i], m, ldlt, continuous)
  }
}
