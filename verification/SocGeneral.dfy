/**
 * The general convex path: a quadratic row becomes linking rows and one cone through a factorisation of
 * its Hessian.
 */
module SocGeneral {
  import opened Extended
  import opened Sums
  import opened ConicModel
  import opened SocClassify

  // ---------------------------------------------------------------- local numbering of the columns of Q

  function AddVar(vars: seq<int>, v: int): seq<int> {
    if v in vars then vars else vars + [v]
  }

  function VarSet(es: seq<Entry>): seq<int> {
    if es == [] then []
    else AddVar(AddVar(VarSet(es[..|es| - 1]), es[|es| - 1].row), es[|es| - 1].col)
  }

  predicate Covers(vars: seq<int>, es: seq<Entry>) {
    forall k | 0 <= k < |es| :: es[k].row in vars && es[k].col in vars
  }

  /** `local` is the inverse of the duplicate-free list `vars`, -1 elsewhere. */
  predicate Numbering(vars: seq<int>, local: seq<int>) {
    && ColsBelow(vars, |local|)
    && (forall k | 0 <= k < |vars| :: local[vars[k]] == k)
    && (forall v | 0 <= v < |local| && local[v] != -1 :: 0 <= local[v] < |vars| && vars[local[v]] == v)
  }

  lemma {:induction false} NumberingInjective(vars: seq<int>, local: seq<int>)
    requires Numbering(vars, local)
    ensures Injective(vars)
  {
    forall k, l | 0 <= k < l < |vars|
      ensures vars[k] != vars[l]
    {
      assert local[vars[k]] == k && local[vars[l]] == l;
    }
  }

  method NumberColumn(vars: seq<int>, local: seq<int>, v: int) returns (vars': seq<int>, local': seq<int>)
    requires Numbering(vars, local) && 0 <= v < |local|
    ensures Numbering(vars', local') && |local'| == |local| && vars' == AddVar(vars, v)
  {
    vars', local' := vars, local;
    if local[v] == -1 {
      local' := local[v := |vars|];
      vars' := vars + [v];
    }
  }

  lemma {:induction false} VarSetCovers(es: seq<Entry>)
    ensures Covers(VarSet(es), es)
  {
    if es != [] {
      var front, e := es[..|es| - 1], es[|es| - 1];
      VarSetCovers(front);
      forall k | 0 <= k < |es|
        ensures es[k].row in VarSet(es) && es[k].col in VarSet(es)
      {
        if k < |es| - 1 { assert front[k] == es[k]; }
      }
    }
  }

  /** Nothing but the columns of the entries is collected. */
  lemma {:induction false} VarSetFrom(es: seq<Entry>, v: int)
    requires v in VarSet(es)
    ensures exists k :: 0 <= k < |es| && (es[k].row == v || es[k].col == v)
  {
    var last := |es| - 1;
    if v in VarSet(es[..last]) {
      VarSetFrom(es[..last], v);
    } else {
      assert es[last].row == v || es[last].col == v;
    }
  }

  method CollectVars(es: seq<Entry>, n: nat) returns (vars: seq<int>, local: seq<int>)
    requires EntriesBelow(es, n)
    ensures vars == VarSet(es) && Injective(vars) && Covers(vars, es)
    ensures |local| == n && Numbering(vars, local)
    ensures forall v | v in vars :: exists k :: 0 <= k < |es| && (es[k].row == v || es[k].col == v)
  {
    vars, local := [], seq(n, _ => -1);
    for t := 0 to |es|
      invariant vars == VarSet(es[..t]) && Numbering(vars, local) && |local| == n
    {
      assert es[..t + 1][..t] == es[..t];
      vars, local := NumberColumn(vars, local, es[t].row);
      vars, local := NumberColumn(vars, local, es[t].col);
    }
    assert es[..|es|] == es;
    VarSetCovers(es);
    forall v | v in vars ensures exists k :: 0 <= k < |es| && (es[k].row == v || es[k].col == v) { VarSetFrom(es, v); }
    NumberingInjective(vars, local);
  }

  // ---------------------------------------------------------------- the Hessian

  function Pick(b: bool, v: real): real {
    if b then v else 0.0
  }

  /** Entry (a, b) of Q + Qᵀ between columns `a` and `b`, duplicates added up. */
  function Hess(es: seq<Entry>, a: int, b: int): real {
    if es == [] then 0.0
    else
      var e := es[|es| - 1];
      Hess(es[..|es| - 1], a, b) + (Pick(e.row == a && e.col == b, e.value) + Pick(e.col == a && e.row == b, e.value))
  }

  /** `h` stores the lower triangle by columns: h[j][i] for i >= j. */
  predicate Square(h: seq<seq<real>>) {
    forall j | 0 <= j < |h| :: |h[j]| == |h|
  }

  function Symmetric(h: seq<seq<real>>, i: int, j: int): real
    requires Square(h) && 0 <= i < |h| && 0 <= j < |h|
  {
    if i >= j then h[j][i] else h[i][j]
  }

  ghost predicate IsHessian(h: seq<seq<real>>, es: seq<Entry>, vars: seq<int>) {
    && Square(h) && |h| == |vars|
    && forall i, j | 0 <= i < |vars| && 0 <= j < |vars| :: Symmetric(h, i, j) == Hess(es, vars[i], vars[j])
  }

  ghost predicate LowerIsHessian(h: seq<seq<real>>, es: seq<Entry>, vars: seq<int>) {
    && Square(h) && |h| == |vars|
    && (forall i, j | 0 <= j <= i < |vars| :: h[j][i] == Hess(es, vars[i], vars[j]))
    && forall i, j | 0 <= i < j < |vars| :: h[j][i] == 0.0
  }

  /** The matrix handed to the factorisation: the lower triangle of Q + Qᵀ, zero above the diagonal. */
  function HessianOf(es: seq<Entry>, vars: seq<int>): seq<seq<real>> {
    seq(|vars|, j requires 0 <= j < |vars| =>
      seq(|vars|, i requires 0 <= i < |vars| => if i >= j then Hess(es, vars[i], vars[j]) else 0.0))
  }

  lemma {:induction false} LowerIsHessianOf(h: seq<seq<real>>, es: seq<Entry>, vars: seq<int>)
    requires LowerIsHessian(h, es, vars)
    ensures h == HessianOf(es, vars)
  {
    forall j | 0 <= j < |vars|
      ensures h[j] == HessianOf(es, vars)[j]
    {
    }
  }

  lemma {:induction false} HessSymmetric(es: seq<Entry>, a: int, b: int)
    ensures Hess(es, a, b) == Hess(es, b, a)
  {
    if es != [] { HessSymmetric(es[..|es| - 1], a, b); }
  }

  lemma {:induction false} HessSnoc(front: seq<Entry>, e: Entry, a: int, b: int)
    ensures Hess(front + [e], a, b) ==
            Hess(front, a, b) + (Pick(e.row == a && e.col == b, e.value) + Pick(e.col == a && e.row == b, e.value))
  {
    assert (front + [e])[..|front|] == front;
  }

  /** One coordinate more: the single cell of the lower triangle that it adds to. */
  lemma {:induction false} AccumulateStep(h: seq<seq<real>>, front: seq<Entry>, e: Entry, vars: seq<int>, r: int, c: int)
    requires LowerIsHessian(h, front, vars) && Injective(vars)
    requires 0 <= r < |vars| && 0 <= c < |vars| && vars[r] == e.row && vars[c] == e.col
    ensures var hi, hj := if r >= c then r else c, if r >= c then c else r;
            LowerIsHessian(h[hj := h[hj][hi := h[hj][hi] + if r == c then 2.0 * e.value else e.value]], front + [e], vars)
  {
    hide Hess;
    var hi, hj := if r >= c then r else c, if r >= c then c else r;
    var h' := h[hj := h[hj][hi := h[hj][hi] + if r == c then 2.0 * e.value else e.value]];
    forall i, j | 0 <= j <= i < |vars|
      ensures h'[j][i] == Hess(front + [e], vars[i], vars[j])
    {
      HessSnoc(front, e, vars[i], vars[j]);
      assert vars[i] == e.row <==> i == r;
      assert vars[i] == e.col <==> i == c;
      assert vars[j] == e.row <==> j == r;
      assert vars[j] == e.col <==> j == c;
    }
  }

  method AccumulateHessian(es: seq<Entry>, vars: seq<int>, local: seq<int>) returns (h: seq<seq<real>>)
    requires Injective(vars) && Covers(vars, es) && Numbering(vars, local)
    ensures IsHessian(h, es, vars) && h == HessianOf(es, vars)
  {
    var m := |vars|;
    h := seq(m, _ => seq(m, _ => 0.0));
    for t := 0 to |es|
      invariant LowerIsHessian(h, es[..t], vars)
    {
      assert es[..t] + [es[t]] == es[..t + 1];
      var v := es[t].value;
      assert es[t].row in vars && es[t].col in vars;
      var r, c := local[es[t].row], local[es[t].col];
      assert vars[r] == es[t].row && vars[c] == es[t].col;
      var hi, hj := if r >= c then r else c, if r >= c then c else r;
      AccumulateStep(h, es[..t], es[t], vars, r, c);
      h := h[hj := h[hj][hi := h[hj][hi] + if r == c then 2.0 * v else v]];
    }
    assert es[..|es|] == es;
    LowerIsHessianOf(h, es, vars);
    forall i, j | 0 <= i < m && 0 <= j < m
      ensures Symmetric(h, i, j) == Hess(es, vars[i], vars[j])
    {
      HessSymmetric(es, vars[i], vars[j]);
    }
  }

  // ---------------------------------------------------------------- the form of the Hessian

  function HessRowTerms(es: seq<Entry>, vars: seq<int>, a: int, x: seq<real>): seq<real> {
    seq(|vars|, j requires 0 <= j < |vars| => Hess(es, a, vars[j]) * At(x, vars[j]))
  }

  function HessRow(es: seq<Entry>, vars: seq<int>, a: int, x: seq<real>): real {
    Sum(HessRowTerms(es, vars, a, x))
  }

  function HessFormTerms(es: seq<Entry>, vars: seq<int>, x: seq<real>): seq<real> {
    seq(|vars|, i requires 0 <= i < |vars| => At(x, vars[i]) * HessRow(es, vars, vars[i], x))
  }

  /** xᵀ (Q + Qᵀ) x over the columns `vars`. */
  function HessForm(es: seq<Entry>, vars: seq<int>, x: seq<real>): real {
    Sum(HessFormTerms(es, vars, x))
  }

  /** The terms of a vector whose only coordinate is `w` at column `b`. */
  function UnitTerms(vars: seq<int>, x: seq<real>, b: int, w: real): seq<real> {
    seq(|vars|, j requires 0 <= j < |vars| => Pick(vars[j] == b, w) * At(x, vars[j]))
  }

  lemma {:induction false} UnitSum(vars: seq<int>, x: seq<real>, b: int, w: real)
    requires Injective(vars) && b in vars
    ensures Sum(UnitTerms(vars, x, b, w)) == w * At(x, b)
  {
    var k :| 0 <= k < |vars| && vars[k] == b;
    var s := UnitTerms(vars, x, b, w);
    forall j | 0 <= j < |s| && j != k
      ensures s[j] == 0.0
    {
      assert vars[j] != b;
      assert s[j] == 0.0 * At(x, vars[j]);
    }
    SumUnit(s, k);
    assert s[k] == w * At(x, b);
  }

  lemma {:induction false} SumAddThree(a: seq<real>, b: seq<real>, c: seq<real>, d: seq<real>)
    requires |a| == |b| == |c| == |d| && forall k | 0 <= k < |d| :: d[k] == a[k] + (b[k] + c[k])
    ensures Sum(d) == Sum(a) + (Sum(b) + Sum(c))
  {
    var bc := seq(|b|, k requires 0 <= k < |b| => b[k] + c[k]);
    SumAdd(b, c, bc);
    SumAdd(a, bc, d);
  }

  lemma {:induction false} Distribute(g: real, u: real, w: real, v: real)
    ensures (g + (u + w)) * v == g * v + (u * v + w * v)
  {
  }

  lemma {:induction false} PickTwice(p: bool, q: bool, v: real)
    ensures Pick(p && q, v) == Pick(q, Pick(p, v))
  {
  }

  lemma {:induction false} HessTermStep(es: seq<Entry>, a: int, b: int, v: real)
    requires es != []
    ensures var e := es[|es| - 1];
            Hess(es, a, b) * v == Hess(es[..|es| - 1], a, b) * v
              + (Pick(b == e.col, Pick(e.row == a, e.value)) * v + Pick(b == e.row, Pick(e.col == a, e.value)) * v)
  {
    var e := es[|es| - 1];
    PickTwice(e.row == a, e.col == b, e.value);
    PickTwice(e.col == a, e.row == b, e.value);
    Distribute(Hess(es[..|es| - 1], a, b), Pick(b == e.col, Pick(e.row == a, e.value)), Pick(b == e.row, Pick(e.col == a, e.value)), v);
  }

  lemma {:induction false} HessRowPointwise(es: seq<Entry>, vars: seq<int>, a: int, x: seq<real>, j: int)
    requires es != [] && 0 <= j < |vars|
    ensures var e := es[|es| - 1];
            HessRowTerms(es, vars, a, x)[j] == HessRowTerms(es[..|es| - 1], vars, a, x)[j]
              + (UnitTerms(vars, x, e.col, Pick(e.row == a, e.value))[j] + UnitTerms(vars, x, e.row, Pick(e.col == a, e.value))[j])
  {
    HessTermStep(es, a, vars[j], At(x, vars[j]));
  }

  lemma {:induction false} HessRowStep(es: seq<Entry>, vars: seq<int>, a: int, x: seq<real>)
    requires es != [] && Injective(vars) && Covers(vars, es)
    ensures var e := es[|es| - 1];
            HessRow(es, vars, a, x) == HessRow(es[..|es| - 1], vars, a, x)
              + (Pick(e.row == a, e.value) * At(x, e.col) + Pick(e.col == a, e.value) * At(x, e.row))
  {
    hide Pick, Hess, At, Sum;
    var e, front := es[|es| - 1], es[..|es| - 1];
    var whole, prior := HessRowTerms(es, vars, a, x), HessRowTerms(front, vars, a, x);
    var p := UnitTerms(vars, x, e.col, Pick(e.row == a, e.value));
    var q := UnitTerms(vars, x, e.row, Pick(e.col == a, e.value));
    assert e.row in vars && e.col in vars;
    forall j | 0 <= j < |vars| ensures whole[j] == prior[j] + (p[j] + q[j]) {
      HessRowPointwise(es, vars, a, x, j);
    }
    SumAddThree(prior, p, q, whole);
    UnitSum(vars, x, e.col, Pick(e.row == a, e.value));
    UnitSum(vars, x, e.row, Pick(e.col == a, e.value));
  }

  lemma {:induction false} PickFactor(b: bool, v: real, y: real, z: real)
    ensures (Pick(b, v) * y) * z == Pick(b, v * y) * z
  {
  }

  lemma {:induction false} HessRowScaled(es: seq<Entry>, vars: seq<int>, a: int, x: seq<real>, v: real)
    requires es != [] && Injective(vars) && Covers(vars, es)
    ensures var e := es[|es| - 1];
            v * HessRow(es, vars, a, x) == v * HessRow(es[..|es| - 1], vars, a, x)
              + (Pick(a == e.row, e.value * At(x, e.col)) * v + Pick(a == e.col, e.value * At(x, e.row)) * v)
  {
    var e := es[|es| - 1];
    var xr, xc := At(x, e.row), At(x, e.col);
    HessRowStep(es, vars, a, x);
    Distribute(HessRow(es[..|es| - 1], vars, a, x), Pick(e.row == a, e.value) * xc, Pick(e.col == a, e.value) * xr, v);
    PickFactor(e.row == a, e.value, xc, v);
    PickFactor(e.col == a, e.value, xr, v);
  }

  lemma {:induction false} HessFormPointwise(es: seq<Entry>, vars: seq<int>, x: seq<real>, i: int, wr: real, wc: real)
    requires es != [] && Injective(vars) && Covers(vars, es) && 0 <= i < |vars|
    requires var e := es[|es| - 1]; wr == e.value * At(x, e.row) && wc == e.value * At(x, e.col)
    ensures var e := es[|es| - 1];
            HessFormTerms(es, vars, x)[i] == HessFormTerms(es[..|es| - 1], vars, x)[i]
              + (UnitTerms(vars, x, e.row, wc)[i] + UnitTerms(vars, x, e.col, wr)[i])
  {
    HessRowScaled(es, vars, vars[i], x, At(x, vars[i]));
  }

  lemma {:induction false} HessFormStep(es: seq<Entry>, vars: seq<int>, x: seq<real>)
    requires es != [] && Injective(vars) && Covers(vars, es)
    ensures var e := es[|es| - 1];
            HessForm(es, vars, x) == HessForm(es[..|es| - 1], vars, x) + 2.0 * (e.value * At(x, e.row) * At(x, e.col))
  {
    hide Pick, At, Sum, HessRow;
    var e, front := es[|es| - 1], es[..|es| - 1];
    var wr, wc := e.value * At(x, e.row), e.value * At(x, e.col);
    var whole, prior := HessFormTerms(es, vars, x), HessFormTerms(front, vars, x);
    var p, q := UnitTerms(vars, x, e.row, wc), UnitTerms(vars, x, e.col, wr);
    forall i | 0 <= i < |vars| ensures whole[i] == prior[i] + (p[i] + q[i]) {
      HessFormPointwise(es, vars, x, i, wr, wc);
    }
    SumAddThree(prior, p, q, whole);
    UnitSum(vars, x, e.row, wc);
    UnitSum(vars, x, e.col, wr);
    assert wc * At(x, e.row) + wr * At(x, e.col) == 2.0 * (e.value * At(x, e.row) * At(x, e.col));
  }

  /** Half the Hessian form is the quadratic form, for any coordinate list with duplicates. */
  lemma {:induction false} HessFormExact(es: seq<Entry>, vars: seq<int>, x: seq<real>)
    requires Injective(vars) && Covers(vars, es)
    ensures HessForm(es, vars, x) == 2.0 * Form(es, x)
  {
    if es == [] {
      var rows := HessFormTerms(es, vars, x);
      forall i | 0 <= i < |vars| ensures rows[i] == 0.0 {
        var row := HessRowTerms(es, vars, vars[i], x);
        SumScale(row, row, 0.0);
      }
      SumScale(rows, rows, 0.0);
    } else {
      var front, e := es[..|es| - 1], es[|es| - 1];
      HessFormExact(front, vars, x);
      HessFormStep(es, vars, x);
      FormConcat(front, [e], x);
      SingletonForm(e, x);
      assert front + [e] == es;
    }
  }

  // ---------------------------------------------------------------- the factorisation

  /** P L D Lᵀ Pᵀ with the columns of L stored densely over the permuted local indices. */
  datatype Ldlt = Indefinite | Factor(perm: seq<int>, cols: seq<seq<real>>, d: seq<real>)

  function OuterSum(f: Ldlt, r: nat, a: int, b: int): real
    requires f.Factor? && r <= |f.d| == |f.cols|
  {
    if r == 0 then 0.0
    else OuterSum(f, r - 1, a, b) + f.d[r - 1] * At(f.cols[r - 1], a) * At(f.cols[r - 1], b)
  }

  ghost predicate Factorizes(f: Ldlt, h: seq<seq<real>>) {
    && f.Factor? && Square(h)
    && IsPermutation(f.perm, |h|)
    && |f.cols| == |f.d|
    && (forall k | 0 <= k < |f.d| :: |f.cols[k]| == |h| && f.d[k] >= 0.0)
    && forall a, b | 0 <= a < |h| && 0 <= b < |h| :: Symmetric(h, f.perm[a], f.perm[b]) == OuterSum(f, |f.d|, a, b)
  }

  /** The contract of the factorisation routine: a factor of the matrix, or the verdict that there is none. */
  ghost predicate IsLdlt(ldlt: seq<seq<real>> -> Ldlt) {
    forall h: seq<seq<real>> | Square(h) :: ldlt(h).Indefinite? || Factorizes(ldlt(h), h)
  }

  /** The verdict of the general path: the Hessian has a factorisation of rank at least one. */
  predicate Convex(qc: QuadraticConstraint, ldlt: seq<seq<real>> -> Ldlt) {
    var es := Entries(Normalized(qc));
    var f := ldlt(HessianOf(es, VarSet(es)));
    !f.Indefinite? && |f.d| >= 1
  }

  function ColumnTerms(col: seq<real>, u: seq<real>): seq<real> {
    seq(|u|, a requires 0 <= a < |u| => At(col, a) * u[a])
  }

  /** The linear form of a column of L in the permuted point `u`. */
  function ColumnForm(col: seq<real>, u: seq<real>): real {
    Sum(ColumnTerms(col, u))
  }

  function OuterRowTerms(f: Ldlt, r: nat, a: int, u: seq<real>): seq<real>
    requires f.Factor? && r <= |f.d| == |f.cols|
  {
    seq(|u|, b requires 0 <= b < |u| => OuterSum(f, r, a, b) * u[b])
  }

  function OuterRow(f: Ldlt, r: nat, a: int, u: seq<real>): real
    requires f.Factor? && r <= |f.d| == |f.cols|
  {
    Sum(OuterRowTerms(f, r, a, u))
  }

  function OuterFormTerms(f: Ldlt, r: nat, u: seq<real>): seq<real>
    requires f.Factor? && r <= |f.d| == |f.cols|
  {
    seq(|u|, a requires 0 <= a < |u| => u[a] * OuterRow(f, r, a, u))
  }

  function OuterForm(f: Ldlt, r: nat, u: seq<real>): real
    requires f.Factor? && r <= |f.d| == |f.cols|
  {
    Sum(OuterFormTerms(f, r, u))
  }

  function SquaresForm(f: Ldlt, r: nat, u: seq<real>): real
    requires f.Factor? && r <= |f.d| == |f.cols|
  {
    if r == 0 then 0.0
    else SquaresForm(f, r - 1, u) + f.d[r - 1] * ColumnForm(f.cols[r - 1], u) * ColumnForm(f.cols[r - 1], u)
  }

  /** A sum of `prior` plus `g` times `base`, term by term. */
  lemma {:induction false} SumAddScaled(prior: seq<real>, base: seq<real>, g: real, whole: seq<real>)
    requires |prior| == |base| == |whole| && forall k | 0 <= k < |whole| :: whole[k] == prior[k] + g * base[k]
    ensures Sum(whole) == Sum(prior) + g * Sum(base)
  {
    var scaled := seq(|base|, k requires 0 <= k < |base| => g * base[k]);
    SumScale(base, scaled, g);
    SumAdd(prior, scaled, whole);
  }

  lemma {:induction false} OuterRowPointwise(f: Ldlt, r: nat, a: int, u: seq<real>, b: int, g: real)
    requires f.Factor? && 0 < r <= |f.d| == |f.cols| && 0 <= b < |u|
    requires g == f.d[r - 1] * At(f.cols[r - 1], a)
    ensures OuterRowTerms(f, r, a, u)[b] == OuterRowTerms(f, r - 1, a, u)[b] + g * ColumnTerms(f.cols[r - 1], u)[b]
  {
    DistributeOne(OuterSum(f, r - 1, a, b), g, At(f.cols[r - 1], b), u[b]);
  }

  lemma {:induction false} OuterRowStep(f: Ldlt, r: nat, a: int, u: seq<real>)
    requires f.Factor? && 0 < r <= |f.d| == |f.cols|
    ensures OuterRow(f, r, a, u) ==
            OuterRow(f, r - 1, a, u) + f.d[r - 1] * At(f.cols[r - 1], a) * ColumnForm(f.cols[r - 1], u)
  {
    hide At, Sum, OuterSum;
    var g := f.d[r - 1] * At(f.cols[r - 1], a);
    var whole, prior, base := OuterRowTerms(f, r, a, u), OuterRowTerms(f, r - 1, a, u), ColumnTerms(f.cols[r - 1], u);
    forall b | 0 <= b < |u| ensures whole[b] == prior[b] + g * base[b] {
      OuterRowPointwise(f, r, a, u, b, g);
    }
    SumAddScaled(prior, base, g, whole);
  }

  lemma {:induction false} DistributeOne(o: real, g: real, c: real, v: real)
    ensures (o + g * c) * v == o * v + g * (c * v)
  {
  }

  lemma {:induction false} DistributeTwo(o: real, d: real, c: real, w: real, v: real)
    ensures v * (o + d * c * w) == v * o + (d * w) * (c * v)
  {
    assert v * (d * c * w) == (d * w) * (c * v);
  }

  lemma {:induction false} OuterFormPointwise(f: Ldlt, r: nat, u: seq<real>, a: int, g: real)
    requires f.Factor? && 0 < r <= |f.d| == |f.cols| && 0 <= a < |u|
    requires g == f.d[r - 1] * ColumnForm(f.cols[r - 1], u)
    ensures OuterFormTerms(f, r, u)[a] == OuterFormTerms(f, r - 1, u)[a] + g * ColumnTerms(f.cols[r - 1], u)[a]
  {
    hide At, Sum, OuterRow, ColumnForm;
    OuterRowStep(f, r, a, u);
    DistributeTwo(OuterRow(f, r - 1, a, u), f.d[r - 1], At(f.cols[r - 1], a), ColumnForm(f.cols[r - 1], u), u[a]);
  }

  lemma {:induction false} OuterFormStep(f: Ldlt, r: nat, u: seq<real>)
    requires f.Factor? && 0 < r <= |f.d| == |f.cols|
    ensures OuterForm(f, r, u) ==
            OuterForm(f, r - 1, u) + f.d[r - 1] * ColumnForm(f.cols[r - 1], u) * ColumnForm(f.cols[r - 1], u)
  {
    hide Sum, At, OuterRow;
    var g := f.d[r - 1] * ColumnForm(f.cols[r - 1], u);
    var whole, prior, base := OuterFormTerms(f, r, u), OuterFormTerms(f, r - 1, u), ColumnTerms(f.cols[r - 1], u);
    forall a | 0 <= a < |u| ensures whole[a] == prior[a] + g * base[a] {
      OuterFormPointwise(f, r, u, a, g);
    }
    SumAddScaled(prior, base, g, whole);
  }

  lemma {:induction false} OuterFormSquares(f: Ldlt, r: nat, u: seq<real>)
    requires f.Factor? && r <= |f.d| == |f.cols|
    ensures OuterForm(f, r, u) == SquaresForm(f, r, u)
  {
    if r == 0 {
      var rows := OuterFormTerms(f, r, u);
      forall a | 0 <= a < |u| ensures rows[a] == 0.0 {
        var row := OuterRowTerms(f, r, a, u);
        SumScale(row, row, 0.0);
      }
      SumScale(rows, rows, 0.0);
    } else {
      OuterFormSquares(f, r - 1, u);
      OuterFormStep(f, r, u);
    }
  }

  /** The permuted local point: u[a] is the value of the column behind permuted index a. */
  function Permuted(f: Ldlt, vars: seq<int>, x: seq<real>): seq<real>
    requires f.Factor?
  {
    seq(|f.perm|, a requires 0 <= a < |f.perm| => if 0 <= f.perm[a] < |vars| then At(x, vars[f.perm[a]]) else 0.0)
  }

  lemma {:induction false} HessRowPermuted(es: seq<Entry>, vars: seq<int>, h: seq<seq<real>>, f: Ldlt, a: int, x: seq<real>)
    requires IsHessian(h, es, vars) && Factorizes(f, h) && 0 <= a < |vars|
    ensures HessRow(es, vars, vars[f.perm[a]], x) == OuterRow(f, |f.d|, a, Permuted(f, vars, x))
  {
    var u, i := Permuted(f, vars, x), f.perm[a];
    var row, outer := HessRowTerms(es, vars, vars[i], x), OuterRowTerms(f, |f.d|, a, u);
    forall b | 0 <= b < |vars| ensures Gather(row, f.perm)[b] == outer[b] {
      assert Symmetric(h, i, f.perm[b]) == OuterSum(f, |f.d|, a, b);
    }
    assert Gather(row, f.perm) == outer;
    SumGather(row, f.perm);
  }

  lemma {:induction false} HessFormPermutedTerm(es: seq<Entry>, vars: seq<int>, h: seq<seq<real>>, f: Ldlt, x: seq<real>, a: int)
    requires IsHessian(h, es, vars) && Factorizes(f, h) && 0 <= a < |vars|
    ensures Gather(HessFormTerms(es, vars, x), f.perm)[a] == OuterFormTerms(f, |f.d|, Permuted(f, vars, x))[a]
  {
    hide HessRow, OuterRow, Sum, Hess, OuterSum, Symmetric, Square;
    HessRowPermuted(es, vars, h, f, a, x);
  }

  lemma {:induction false} HessFormPermuted(es: seq<Entry>, vars: seq<int>, h: seq<seq<real>>, f: Ldlt, x: seq<real>)
    requires IsHessian(h, es, vars) && Factorizes(f, h)
    ensures HessForm(es, vars, x) == OuterForm(f, |f.d|, Permuted(f, vars, x))
  {
    var u := Permuted(f, vars, x);
    var rows, outer := HessFormTerms(es, vars, x), OuterFormTerms(f, |f.d|, u);
    forall a | 0 <= a < |vars| ensures Gather(rows, f.perm)[a] == outer[a] {
      HessFormPermutedTerm(es, vars, h, f, x, a);
    }
    assert Gather(rows, f.perm) == outer;
    SumGather(rows, f.perm);
  }

  // ---------------------------------------------------------------- the emitted rows and cone

  function NonzeroTerms(terms: seq<Term>): seq<Term> {
    if terms == [] then []
    else NonzeroTerms(terms[..|terms| - 1]) + if terms[|terms| - 1].coef == 0.0 then [] else [terms[|terms| - 1]]
  }

  lemma {:induction false} NonzeroTermsDot(terms: seq<Term>, x: seq<real>)
    ensures Dot(NonzeroTerms(terms), x) == Dot(terms, x)
  {
    hide At;
    if terms != [] {
      var front, last := terms[..|terms| - 1], terms[|terms| - 1];
      NonzeroTermsDot(front, x);
      assert terms == front + [last];
      DotConcat(front, [last], x);
      DotConcat(NonzeroTerms(front), [last], x);
      assert NonzeroTerms(front) + [] == NonzeroTerms(front);
    }
  }

  lemma {:induction false} NonzeroTermsBelow(terms: seq<Term>, n: int)
    requires TermsBelow(terms, n)
    ensures TermsBelow(NonzeroTerms(terms), n)
  {
    if terms != [] { NonzeroTermsBelow(terms[..|terms| - 1], n); }
  }

  /** -sqrt(D_k) (Lᵀ P x)_k as terms over the model columns. */
  function FactorTerms(vars: seq<int>, perm: seq<int>, col: seq<real>, root: real): seq<Term> {
    seq(|perm|, a requires 0 <= a < |perm| =>
      Term(if 0 <= perm[a] < |vars| then vars[perm[a]] else 0, -root * At(col, a)))
  }

  function GeneralDefs(q: QuadraticConstraint, vars: seq<int>, f: Ldlt, sqrt: real -> real): seq<Def>
    requires f.Factor? && |f.cols| == |f.d|
  {
    var linear := NonzeroTerms(LinearTerms(q));
    seq(|f.d|, k requires 0 <= k < |f.d| => Def(FactorTerms(vars, f.perm, f.cols[k], sqrt(f.d[k])), 0.0, NegInf))
    + [Def(linear, q.rhs + 0.5, NegInf), Def(linear, q.rhs - 0.5, NegInf)]
  }

  function GeneralCone(n: int, r: nat): seq<int> {
    [n + r] + seq(r, k => n + k) + [n + r + 1]
  }

  lemma {:induction false} DotOfSeq(terms: seq<Term>, values: seq<real>, x: seq<real>)
    requires |terms| == |values| && forall a | 0 <= a < |terms| :: values[a] == terms[a].coef * At(x, terms[a].col)
    ensures Dot(terms, x) == Sum(values)
  {
    if terms != [] { DotOfSeq(terms[1..], values[1..], x); }
  }

  lemma {:induction false} FactorTermsValue(vars: seq<int>, f: Ldlt, k: int, root: real, x: seq<real>)
    requires f.Factor? && IsPermutation(f.perm, |vars|) && 0 <= k < |f.cols|
    ensures Dot(FactorTerms(vars, f.perm, f.cols[k], root), x) == -root * ColumnForm(f.cols[k], Permuted(f, vars, x))
  {
    hide Dot, Sum;
    var u, col, terms := Permuted(f, vars, x), f.cols[k], FactorTerms(vars, f.perm, f.cols[k], root);
    var base := ColumnTerms(col, u);
    var scaled := seq(|u|, a requires 0 <= a < |u| => -root * base[a]);
    forall a | 0 <= a < |terms| ensures scaled[a] == terms[a].coef * At(x, terms[a].col) {
      assert -root * (At(col, a) * u[a]) == (-root * At(col, a)) * u[a];
    }
    DotOfSeq(terms, scaled, x);
    SumScale(base, scaled, -root);
  }

  lemma {:induction false} SumSqConcat(a: seq<int>, b: seq<int>, x: seq<real>)
    ensures SumSq(a + b, x) == SumSq(a, x) + SumSq(b, x)
  {
    hide At;
    if a == [] {
      assert a + b == b;
    } else {
      SumSqConcat(a[1..], b, x);
      assert (a + b)[1..] == a[1..] + b;
    }
  }

  lemma {:induction false} SquareOfRoot(root: real, d: real, w: real)
    requires root * root == d
    ensures (root * w) * (root * w) == d * w * w
  {
    assert (root * w) * (root * w) == (root * root) * (w * w);
  }

  /** The y columns carry the squares of the factorisation. */
  lemma {:induction false} FactorSquares(f: Ldlt, vars: seq<int>, sqrt: real -> real, n: int, r: nat, x: seq<real>, z: seq<real>)
    requires IsSqrt(sqrt) && f.Factor? && r <= |f.d| == |f.cols|
    requires forall k | 0 <= k < r :: f.d[k] >= 0.0
    requires forall k | 0 <= k < r :: At(z, n + k) == sqrt(f.d[k]) * ColumnForm(f.cols[k], Permuted(f, vars, x))
    ensures SumSq(seq(r, k => n + k), z) == SquaresForm(f, r, Permuted(f, vars, x))
  {
    hide At, ColumnForm, Permuted, Sum;
    if r > 0 {
      FactorSquares(f, vars, sqrt, n, r - 1, x, z);
      assert seq(r, k => n + k) == seq(r - 1, k => n + k) + [n + r - 1];
      SumSqConcat(seq(r - 1, k => n + k), [n + r - 1], z);
      assert [n + r - 1][1..] == [];
      SquareOfRoot(sqrt(f.d[r - 1]), f.d[r - 1], ColumnForm(f.cols[r - 1], Permuted(f, vars, x)));
    }
  }

  /** x <= u as a cone condition: (u + 1/2) >= |(y, u - 1/2)| with |y|² = 2 form. */
  lemma {:induction false} ConeOfSquares(form: real, u: real)
    requires form >= 0.0
    ensures form <= u <==> u + 0.5 >= 0.0 && 2.0 * form + (u - 0.5) * (u - 0.5) <= (u + 0.5) * (u + 0.5)
  {
    assert (u + 0.5) * (u + 0.5) - (u - 0.5) * (u - 0.5) == 2.0 * u;
  }

  lemma {:induction false} GeneralConeSat(n: int, r: nat, z: seq<real>)
    ensures InCone(GeneralCone(n, r), z) <==>
            && At(z, n + r) >= 0.0
            && SumSq(seq(r, k => n + k), z) + At(z, n + r + 1) * At(z, n + r + 1) <= At(z, n + r) * At(z, n + r)
  {
    var ys := seq(r, k => n + k);
    assert GeneralCone(n, r)[1..] == ys + [n + r + 1];
    SumSqConcat(ys, [n + r + 1], z);
    assert [n + r + 1][1..] == [];
  }

  /** xᵀ (Q + Qᵀ) x = Σ d_k (Lᵀ P x)_k². */
  lemma {:induction false} FactoredForm(es: seq<Entry>, vars: seq<int>, h: seq<seq<real>>, f: Ldlt, x: seq<real>)
    requires Injective(vars) && Covers(vars, es) && IsHessian(h, es, vars) && Factorizes(f, h)
    ensures SquaresForm(f, |f.d|, Permuted(f, vars, x)) == 2.0 * Form(es, x)
  {
    HessFormExact(es, vars, x);
    HessFormPermuted(es, vars, h, f, x);
    OuterFormSquares(f, |f.d|, Permuted(f, vars, x));
  }

  /** The y columns of a linked point, squared and added up, are twice the quadratic form. */
  lemma {:induction false} LinkedSquares(es: seq<Entry>, vars: seq<int>, h: seq<seq<real>>, f: Ldlt, sqrt: real -> real, x: seq<real>, z: seq<real>)
    requires IsSqrt(sqrt) && Injective(vars) && Covers(vars, es) && IsHessian(h, es, vars) && Factorizes(f, h)
    requires forall k | 0 <= k < |f.d| :: At(z, |x| + k) == -Dot(FactorTerms(vars, f.perm, f.cols[k], sqrt(f.d[k])), x)
    ensures SumSq(seq(|f.d|, k => |x| + k), z) == 2.0 * Form(es, x)
  {
    hide Form, At, Dot, FactorTerms, Sum, SumSq, SquaresForm, Permuted, ColumnForm;
    var u := Permuted(f, vars, x);
    FactoredForm(es, vars, h, f, x);
    forall k | 0 <= k < |f.d|
      ensures At(z, |x| + k) == sqrt(f.d[k]) * ColumnForm(f.cols[k], u)
    {
      FactorTermsValue(vars, f, k, sqrt(f.d[k]), x);
    }
    FactorSquares(f, vars, sqrt, |x|, |f.d|, x, z);
  }

  lemma {:induction false} NormalizedRow(qc: QuadraticConstraint, x: seq<real>)
    requires qc.rowType in "LG"
    ensures QuadraticSat(qc, x) <==>
            Form(Entries(Normalized(qc)), x) <= Normalized(qc).rhs - Dot(LinearTerms(Normalized(qc)), x)
  {
    NormalizedSat(qc, x);
  }

  /** The values that the linking rows of the general path fix. */
  lemma {:induction false} GeneralDefValues(q: QuadraticConstraint, vars: seq<int>, f: Ldlt, sqrt: real -> real, x: seq<real>, z: seq<real>)
    requires f.Factor? && |f.cols| == |f.d|
    requires |z| == |x| + |f.d| + 2
    requires var defs := GeneralDefs(q, vars, f, sqrt);
             forall i | 0 <= i < |defs| :: z[|x| + i] == DefValue(defs[i], x)
    ensures forall k | 0 <= k < |f.d| :: At(z, |x| + k) == -Dot(FactorTerms(vars, f.perm, f.cols[k], sqrt(f.d[k])), x)
    ensures var u := q.rhs - Dot(LinearTerms(q), x);
            At(z, |x| + |f.d|) == u + 0.5 && At(z, |x| + |f.d| + 1) == u - 0.5
  {
    hide Dot, FactorTerms, NonzeroTerms, LinearTerms, Sum;
    var defs, r, n := GeneralDefs(q, vars, f, sqrt), |f.d|, |x|;
    forall k | 0 <= k < r
      ensures At(z, n + k) == -Dot(FactorTerms(vars, f.perm, f.cols[k], sqrt(f.d[k])), x)
    {
      assert z[n + k] == DefValue(defs[k], x);
    }
    NonzeroTermsDot(LinearTerms(q), x);
    assert z[n + r] == DefValue(defs[r], x) && z[n + (r + 1)] == DefValue(defs[r + 1], x);
  }

  /**
   * Given a factorisation of its Hessian, a convex quadratic row holds exactly when the columns fixed by
   * its linking rows form a point of the cone of dimension rank + 2.
   */
  lemma {:induction false} GeneralExact(qc: QuadraticConstraint, vars: seq<int>, h: seq<seq<real>>, f: Ldlt, sqrt: real -> real, x: seq<real>, z: seq<real>)
    requires IsSqrt(sqrt) && qc.rowType in "LG"
    requires var es := Entries(Normalized(qc));
             Injective(vars) && Covers(vars, es) && IsHessian(h, es, vars) && Factorizes(f, h)
    requires |z| == |x| + |f.d| + 2 && z[..|x|] == x
    requires var defs := GeneralDefs(Normalized(qc), vars, f, sqrt);
             forall i | 0 <= i < |defs| :: z[|x| + i] == DefValue(defs[i], x)
    ensures QuadraticSat(qc, x) <==> InCone(GeneralCone(|x|, |f.d|), z)
  {
    hide Form, At, Dot, FactorTerms, Sum, SumSq, IsHessian, Entries, LinearTerms, DefValue, QuadraticSat, InCone;
    var q := Normalized(qc);
    NormalizedRow(qc, x);
    GeneralDefValues(q, vars, f, sqrt, x, z);
    LinkedSquares(Entries(q), vars, h, f, sqrt, x, z);
    SumSqNonnegative(seq(|f.d|, k => |x| + k), z);
    GeneralConeSat(|x|, |f.d|, z);
    ConeOfSquares(Form(Entries(q), x), q.rhs - Dot(LinearTerms(q), x));
  }
}
