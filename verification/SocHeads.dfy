/**
 * Installing the heads of affine rows in the columns reserved for them. The reservation is made before the general
 * rows append their columns, so in a call with both kinds of rows a reserved column may already be in use.
 */
module SocHeads {
  import opened Extended
  import opened Sums
  import opened ConicModel
  import opened SocClassify
  import opened SocPasses

  predicate IsHead(cons: seq<Con>, j: int) {
    exists i | 0 <= i < |cons| :: cons[i].PendingAffine? && cons[i].head == j
  }

  function HeadRow(c: Con, qc: QuadraticConstraint): seq<Row> {
    if c.PendingAffine? then [DefRow(Def(ScaledTerms(qc, c.scale), 0.0, Fin(0.0)), c.head)] else []
  }

  /** The linking rows of the affine heads, in row order. */
  function HeadRows(cons: seq<Con>, qcs: seq<QuadraticConstraint>): seq<Row> {
    if cons == [] || |cons| > |qcs| then []
    else HeadRows(cons[..|cons| - 1], qcs) + HeadRow(cons[|cons| - 1], qcs[|cons| - 1])
  }

  function Wider(n: nat, width: nat): nat {
    if n < width then width else n
  }

  function HeadLowers(m: Model, width: nat): seq<Ext> {
    seq(Wider(m.n, width), j => if IsHead(m.cons, j) then Fin(0.0) else if 0 <= j < |m.lower| then m.lower[j] else NegInf)
  }

  function HeadUppers(m: Model, width: nat): seq<Ext> {
    seq(Wider(m.n, width), j => if IsHead(m.cons, j) then PosInf else if 0 <= j < |m.upper| then m.upper[j] else PosInf)
  }

  /** The model with at least `width` columns, its reserved heads in [0, inf), linked and used. */
  function WithHeads(m: Model, qcs: seq<QuadraticConstraint>, width: nat): Model {
    Model(Wider(m.n, width),
          m.obj + seq(Wider(m.n, width) - m.n, _ => 0.0),
          HeadLowers(m, width),
          HeadUppers(m, width),
          m.rows + HeadRows(m.cons, qcs),
          AffineCons(m.cons))
  }

  /** A pending row carries the normalised linear part of its row and a reserved head. */
  predicate PendingHead(cons: seq<Con>, qcs: seq<QuadraticConstraint>, i: int, n0: int, width: int)
    requires 0 <= i < |cons| == |qcs|
  {
    cons[i].PendingAffine? ==>
      cons[i].scale > 0.0 && cons[i].linear == LinearTerms(Normalized(qcs[i])) && n0 <= cons[i].head < width
  }

  predicate PendingHeads(cons: seq<Con>, qcs: seq<QuadraticConstraint>, n0: int, width: int) {
    |cons| == |qcs| && forall i | 0 <= i < |cons| :: PendingHead(cons, qcs, i, n0, width)
  }

  /** The columns from `n0` on are free. */
  predicate FreeFrom(m: Model, n0: int) {
    |m.lower| == |m.upper| == m.n && forall j | 0 <= n0 <= j < m.n :: m.lower[j] == NegInf && m.upper[j] == PosInf
  }

  lemma {:induction false} HeadRowsAt(cons: seq<Con>, qcs: seq<QuadraticConstraint>, i: int)
    requires 0 <= i < |cons| <= |qcs| && cons[i].PendingAffine?
    ensures HeadRow(cons[i], qcs[i])[0] in HeadRows(cons, qcs)
  {
    var last := |cons| - 1;
    if i < last { HeadRowsAt(cons[..last], qcs, i); }
  }

  lemma {:induction false} HeadRowsOrigin(cons: seq<Con>, qcs: seq<QuadraticConstraint>, row: Row) returns (i: int)
    requires |cons| <= |qcs| && row in HeadRows(cons, qcs)
    ensures 0 <= i < |cons| && cons[i].PendingAffine? && row == HeadRow(cons[i], qcs[i])[0]
  {
    var last := |cons| - 1;
    if row in HeadRows(cons[..last], qcs) {
      i := HeadRowsOrigin(cons[..last], qcs, row);
    } else {
      i := last;
    }
  }

  lemma {:induction false} TermsLonger(terms: seq<Term>, n: int, n': int)
    requires TermsBelow(terms, n) && n <= n'
    ensures TermsBelow(terms, n')
  {
  }

  lemma {:induction false} HeadRowBelow(m: Model, qcs: seq<QuadraticConstraint>, n0: nat, width: nat, i: int)
    requires ConsBelow(m.cons, m.n) && PendingHeads(m.cons, qcs, n0, width) && 0 <= i < |m.cons| && m.cons[i].PendingAffine?
    ensures TermsBelow(HeadRow(m.cons[i], qcs[i])[0].terms, Wider(m.n, width))
  {
    assert PendingHead(m.cons, qcs, i, n0, width) && ConBelow(m.cons[i], m.n);
    ScaledTermsBelow(qcs[i], m.cons[i].scale, m.n);
    TermsLonger(ScaledTerms(qcs[i], m.cons[i].scale), m.n, Wider(m.n, width));
  }

  lemma {:induction false} WithHeadsWellFormed(m: Model, qcs: seq<QuadraticConstraint>, n0: nat, width: nat)
    requires WellFormed(m) && ConsBelow(m.cons, m.n) && PendingHeads(m.cons, qcs, n0, width)
    ensures WellFormed(WithHeads(m, qcs, width))
  {
    hide PendingHeads, ConsBelow, HeadRows, HeadRow;
    var b := WithHeads(m, qcs, width);
    forall i | 0 <= i < |b.rows| ensures TermsBelow(b.rows[i].terms, b.n) {
      if i < |m.rows| {
        TermsLonger(m.rows[i].terms, m.n, b.n);
      } else {
        SameSize(m.cons, qcs, n0, width);
        assert b.rows[i] in HeadRows(m.cons, qcs);
        var k := HeadRowsOrigin(m.cons, qcs, b.rows[i]);
        HeadRowBelow(m, qcs, n0, width, k);
      }
    }
  }

  lemma {:induction false} SameSize(cons: seq<Con>, qcs: seq<QuadraticConstraint>, n0: int, width: int)
    requires PendingHeads(cons, qcs, n0, width)
    ensures |cons| == |qcs|
  {
  }

  /** Points of the model with heads restrict to points of the model, when the columns from `n0` on are free. */
  lemma {:induction false} WithHeadsLinear(m: Model, qcs: seq<QuadraticConstraint>, n0: nat, width: nat, z: seq<real>)
    requires WellFormed(m) && PendingHeads(m.cons, qcs, n0, width) && FreeFrom(m, n0)
    requires LinearOk(WithHeads(m, qcs, width), z)
    ensures m.n <= |z| && LinearOk(m, z[..m.n])
  {
    hide HeadRows;
    var b, x := WithHeads(m, qcs, width), z[..m.n];
    forall j | 0 <= j < m.n ensures Le(m.lower[j], Fin(At(x, j))) && Le(Fin(At(x, j)), m.upper[j]) {
      assert Le(b.lower[j], Fin(At(z, j))) && Le(Fin(At(z, j)), b.upper[j]);
      if IsHead(m.cons, j) { HeadIsFree(m, qcs, n0, width, j); }
    }
    forall i | 0 <= i < |m.rows| ensures RowSat(m.rows[i], x) {
      assert b.rows[i] == m.rows[i];
      RowPrefix(m.rows[i], x, z);
    }
  }

  lemma {:induction false} HeadIsFree(m: Model, qcs: seq<QuadraticConstraint>, n0: nat, width: nat, j: int)
    requires PendingHeads(m.cons, qcs, n0, width) && FreeFrom(m, n0) && IsHead(m.cons, j) && j < m.n
    ensures n0 <= j && m.lower[j] == NegInf && m.upper[j] == PosInf
  {
    var i :| 0 <= i < |m.cons| && m.cons[i].PendingAffine? && m.cons[i].head == j;
    assert PendingHead(m.cons, qcs, i, n0, width);
  }

  lemma {:induction false} HeadNonnegativeIn(m: Model, qcs: seq<QuadraticConstraint>, n0: nat, width: nat, i: int, z: seq<real>)
    requires PendingHeads(m.cons, qcs, n0, width) && 0 <= i < |m.cons| && m.cons[i].PendingAffine?
    requires LinearOk(WithHeads(m, qcs, width), z)
    ensures At(z, m.cons[i].head) >= 0.0
  {
    hide HeadRows;
    var j, b := m.cons[i].head, WithHeads(m, qcs, width);
    assert PendingHead(m.cons, qcs, i, n0, width);
    assert b.lower[j] == Fin(0.0);
    assert Le(b.lower[j], Fin(At(z, j)));
  }

  // ---------------------------------------------------------------- heads in fresh columns

  /** When the reserved columns are the next free ones, installing the heads defines new columns. */
  lemma {:induction false} WithHeadsDefines(m: Model, qcs: seq<QuadraticConstraint>, width: nat)
    requires WellFormed(m) && AffineRows(m.cons, qcs, m.n)
    requires AffineDefs(m.cons, qcs) == [] ==> width <= m.n
    requires AffineDefs(m.cons, qcs) != [] ==> width == m.n + |AffineDefs(m.cons, qcs)|
    ensures WithHeads(m, qcs, width) == DefineAll(m, AffineDefs(m.cons, qcs), AffineCons(m.cons))
  {
    hide AffineDefs, AffineCons, HeadRows;
    var defs, b := AffineDefs(m.cons, qcs), WithHeads(m, qcs, width);
    var d := DefineAll(m, defs, AffineCons(m.cons));
    forall i | 0 <= i < |m.cons| ensures HeadNumbered(m.cons, qcs, m.n, i) { assert AffineRow(m.cons, qcs, i, m.n); }
    HeadRowsAreDefRows(m.cons, qcs, m.n);
    forall j | 0 <= j < b.n ensures b.lower[j] == d.lower[j] && b.upper[j] == d.upper[j] {
      FreshHead(m.cons, qcs, m.n, j);
      if m.n <= j { FreshLower(m.cons, qcs, j - m.n); }
    }
    assert b.lower == d.lower && b.upper == d.upper;
  }

  lemma {:induction false} FreshLower(cons: seq<Con>, qcs: seq<QuadraticConstraint>, k: int)
    requires |cons| == |qcs| && 0 <= k < |AffineDefs(cons, qcs)|
    ensures AffineDefs(cons, qcs)[k].lower == Fin(0.0)
  {
    var i := AffineDefsOrigin(cons, qcs, k);
    assert [AffineDefs(cons, qcs)[k]][0] == AffineDef(cons[i], qcs[i])[0];
  }

  lemma {:induction false} FreshHead(cons: seq<Con>, qcs: seq<QuadraticConstraint>, n: int, j: int)
    requires AffineRows(cons, qcs, n)
    ensures IsHead(cons, j) <==> n <= j < n + |AffineDefs(cons, qcs)|
  {
    if IsHead(cons, j) {
      var i :| 0 <= i < |cons| && cons[i].PendingAffine? && cons[i].head == j;
      assert AffineRow(cons, qcs, i, n);
      AffineDefsAt(cons, qcs, i);
    }
    if n <= j < n + |AffineDefs(cons, qcs)| {
      var i := AffineDefsOrigin(cons, qcs, j - n);
      assert AffineRow(cons, qcs, i, n);
    }
  }

  predicate HeadNumbered(cons: seq<Con>, qcs: seq<QuadraticConstraint>, n: int, i: int)
    requires 0 <= i < |cons|
  {
    cons[i].PendingAffine? ==> cons[i].head == n + |AffineDefs(cons[..i], qcs)|
  }

  lemma {:induction false} HeadRowsAreDefRows(cons: seq<Con>, qcs: seq<QuadraticConstraint>, n: int)
    requires |cons| <= |qcs| && n >= 0 && forall i | 0 <= i < |cons| :: HeadNumbered(cons, qcs, n, i)
    ensures HeadRows(cons, qcs) == DefRows(AffineDefs(cons, qcs), n)
  {
    if cons != [] {
      hide HeadNumbered, DefRows;
      var last := |cons| - 1;
      var front := cons[..last];
      forall i | 0 <= i < |front| ensures HeadNumbered(front, qcs, n, i) { NumberedFront(cons, qcs, n, i); }
      HeadRowsAreDefRows(front, qcs, n);
      HeadRowDef(cons, qcs, n);
      DefRowsSnoc(AffineDefs(front, qcs), AffineDef(cons[last], qcs[last]), n);
    } else {
      assert DefRows([], n) == [];
    }
  }

  lemma {:induction false} NumberedFront(cons: seq<Con>, qcs: seq<QuadraticConstraint>, n: int, i: int)
    requires 0 <= i < |cons| - 1 && HeadNumbered(cons, qcs, n, i)
    ensures HeadNumbered(cons[..|cons| - 1], qcs, n, i)
  {
    assert cons[..|cons| - 1][..i] == cons[..i];
  }

  lemma {:induction false} HeadRowDef(cons: seq<Con>, qcs: seq<QuadraticConstraint>, n: int)
    requires 0 < |cons| <= |qcs| && HeadNumbered(cons, qcs, n, |cons| - 1)
    ensures var last := |cons| - 1;
            var d := AffineDef(cons[last], qcs[last]);
            HeadRow(cons[last], qcs[last]) == if d == [] then [] else [DefRow(d[0], n + |AffineDefs(cons[..last], qcs)|)]
  {
  }

  lemma {:induction false} DefRowsSnoc(a: seq<Def>, b: seq<Def>, n: int)
    requires |b| <= 1
    ensures DefRows(a + b, n) == DefRows(a, n) + if b == [] then [] else [DefRow(b[0], n + |a|)]
  {
  }
}
