/** Tightening of the root bounds by reduced costs, justified by linear programming duality. */
module ReducedCosts {
  import opened Rounding
  import opened Extended
  import opened Sums
  import opened ConicModel
  import opened Columns
  import opened Lattice

  /** min cost x subject to equality rows (slacks are columns) and bounds; some columns are integer. */
  datatype Program = Program(
    cost: seq<real>, rows: seq<Row>, lower: seq<Ext>, upper: seq<Ext>, integer: seq<bool>)

  predicate WellSized(lp: Program) {
    && |lp.cost| == |lp.lower| == |lp.upper| == |lp.integer|
    && forall i | 0 <= i < |lp.rows| :: lp.rows[i].sense == Equals && TermsBelow(lp.rows[i].terms, |lp.cost|)
  }

  predicate Within(v: real, lower: Ext, upper: Ext) {
    Le(lower, Fin(v)) && Le(Fin(v), upper)
  }

  /** A feasible point of the relaxation. */
  predicate Admits(lp: Program, x: seq<real>)
    requires WellSized(lp)
  {
    |x| == |lp.cost| && RowsOk(lp.rows, x) && forall j | 0 <= j < |x| :: Within(x[j], lp.lower[j], lp.upper[j])
  }

  predicate IntegerFeasible(lp: Program, x: seq<real>)
    requires WellSized(lp)
  {
    Admits(lp, x) && forall j | 0 <= j < |x| && lp.integer[j] :: IsInteger(x[j])
  }

  function Products(c: seq<real>, x: seq<real>): seq<real> {
    seq(|c|, j requires 0 <= j < |c| => c[j] * At(x, j))
  }

  function Objective(lp: Program, x: seq<real>): real {
    Sum(Products(lp.cost, x))
  }

  // ---------------------------------------------------------------- duality

  /** Column `j` of Aᵀ y. */
  function Combined(rows: seq<Row>, y: seq<real>, j: int): real {
    if rows == [] then 0.0
    else
      var last := |rows| - 1;
      Combined(rows[..last], y, j) + At(y, last) * Coefficient(rows[last].terms, j)
  }

  function CombinedProducts(rows: seq<Row>, y: seq<real>, x: seq<real>): seq<real> {
    seq(|x|, j requires 0 <= j < |x| => Combined(rows, y, j) * x[j])
  }

  /** bᵀ y. */
  function Supply(rows: seq<Row>, y: seq<real>): real {
    if rows == [] then 0.0
    else
      var last := |rows| - 1;
      Supply(rows[..last], y) + At(y, last) * rows[last].rhs
  }

  lemma {:induction false} CombinedStep(rows: seq<Row>, y: seq<real>, x: seq<real>, scaled: seq<real>, j: int)
    requires rows != [] && 0 <= j < |x| == |scaled|
    requires scaled[j] == At(y, |rows| - 1) * ColumnProducts(rows[|rows| - 1].terms, x)[j]
    ensures CombinedProducts(rows, y, x)[j] == CombinedProducts(rows[..|rows| - 1], y, x)[j] + scaled[j]
  {
    var last := |rows| - 1;
    var w, c := At(y, last), Coefficient(rows[last].terms, j);
    assert (Combined(rows[..last], y, j) + w * c) * x[j] == Combined(rows[..last], y, j) * x[j] + w * (c * x[j]);
  }

  lemma {:induction false} CombinedRow(rows: seq<Row>, y: seq<real>, x: seq<real>, w: real, total: real)
    requires rows != [] && TermsBelow(rows[|rows| - 1].terms, |x|)
    requires w == At(y, |rows| - 1) && total == Dot(rows[|rows| - 1].terms, x)
    ensures Sum(CombinedProducts(rows, y, x)) == Sum(CombinedProducts(rows[..|rows| - 1], y, x)) + w * total
  {
    hide Combined, Coefficient, Sum, Dot;
    var front, columns := rows[..|rows| - 1], ColumnProducts(rows[|rows| - 1].terms, x);
    var scaled := seq(|x|, j requires 0 <= j < |x| => w * columns[j]);
    SumScale(columns, scaled, w);
    DotByColumns(rows[|rows| - 1].terms, x);
    forall j | 0 <= j < |x|
      ensures CombinedProducts(rows, y, x)[j] == CombinedProducts(front, y, x)[j] + scaled[j]
    {
      CombinedStep(rows, y, x, scaled, j);
    }
    SumAdd(CombinedProducts(front, y, x), scaled, CombinedProducts(rows, y, x));
  }

  lemma {:induction false} LastRow(rows: seq<Row>, x: seq<real>)
    requires rows != [] && RowsOk(rows, x) && rows[|rows| - 1].sense == Equals
    ensures RowsOk(rows[..|rows| - 1], x) && Dot(rows[|rows| - 1].terms, x) == rows[|rows| - 1].rhs
  {
    hide Dot;
    assert RowSat(rows[|rows| - 1], x);
    var front := rows[..|rows| - 1];
    forall i | 0 <= i < |front| ensures RowSat(front[i], x) { assert RowSat(rows[i], x); }
  }

  /** (Aᵀ y)ᵀ x = bᵀ y for every point on the rows. */
  lemma {:induction false} CombinedRows(rows: seq<Row>, y: seq<real>, x: seq<real>)
    requires forall i | 0 <= i < |rows| :: rows[i].sense == Equals && TermsBelow(rows[i].terms, |x|)
    requires RowsOk(rows, x)
    ensures Sum(CombinedProducts(rows, y, x)) == Supply(rows, y)
  {
    if rows == [] {
      SumScale(CombinedProducts(rows, y, x), CombinedProducts(rows, y, x), 0.0);
    } else {
      hide CombinedProducts, Coefficient, Sum, At, Dot, RowsOk;
      var last := |rows| - 1;
      LastRow(rows, x);
      CombinedRows(rows[..last], y, x);
      CombinedRow(rows, y, x, At(y, last), rows[last].rhs);
    }
  }

  /** Duals `y` and reduced costs `z` of the columns: cost = Aᵀ y + z. */
  ghost predicate DualFeasible(lp: Program, y: seq<real>, z: seq<real>) {
    |z| == |lp.cost| && forall j | 0 <= j < |z| :: lp.cost[j] == Combined(lp.rows, y, j) + z[j]
  }

  /** A positive reduced cost keeps its column at the lower bound, a negative one at the upper bound. */
  ghost predicate Complementary(lp: Program, z: seq<real>, x: seq<real>) {
    && |z| == |x| == |lp.lower| == |lp.upper|
    && forall j | 0 <= j < |z| ::
         && (z[j] > 0.0 ==> lp.lower[j] == Fin(x[j]))
         && (z[j] < 0.0 ==> lp.upper[j] == Fin(x[j]))
  }

  lemma {:induction false} ObjectiveByDuals(lp: Program, y: seq<real>, z: seq<real>, x: seq<real>)
    requires WellSized(lp) && DualFeasible(lp, y, z) && |x| == |lp.cost| && RowsOk(lp.rows, x)
    ensures Objective(lp, x) == Supply(lp.rows, y) + Sum(Products(z, x))
  {
    hide Combined, Sum, Supply;
    CombinedRows(lp.rows, y, x);
    forall j | 0 <= j < |x|
      ensures Products(lp.cost, x)[j] == CombinedProducts(lp.rows, y, x)[j] + Products(z, x)[j]
    {
      assert (Combined(lp.rows, y, j) + z[j]) * x[j] == Combined(lp.rows, y, j) * x[j] + z[j] * x[j];
    }
    SumAdd(CombinedProducts(lp.rows, y, x), Products(z, x), Products(lp.cost, x));
  }

  function Moves(z: seq<real>, x: seq<real>, star: seq<real>): seq<real> {
    seq(|z|, j requires 0 <= j < |z| => z[j] * (At(x, j) - At(star, j)))
  }

  /** Moving away from the root solution never gains, in any single column. */
  lemma {:induction false} MoveNonnegative(lp: Program, z: seq<real>, star: seq<real>, x: seq<real>, j: int)
    requires WellSized(lp) && Complementary(lp, z, star) && Admits(lp, x) && 0 <= j < |z|
    ensures Moves(z, x, star)[j] >= 0.0
  {
    assert Within(x[j], lp.lower[j], lp.upper[j]);
    var d := x[j] - star[j];
    if z[j] > 0.0 { assert d >= 0.0; assert z[j] * d >= 0.0; }
    if z[j] < 0.0 { assert -d >= 0.0; assert (-z[j]) * (-d) >= 0.0; }
  }

  lemma {:induction false} TermBelowSum(a: seq<real>, j: int)
    requires 0 <= j < |a| && forall k | 0 <= k < |a| :: a[k] >= 0.0
    ensures a[j] <= Sum(a)
  {
    assert a == a[..j] + ([a[j]] + a[j + 1..]);
    SumConcat(a[..j], [a[j]] + a[j + 1..]);
    SumNonnegative(a[..j]);
    SumNonnegative(a[j + 1..]);
    assert ([a[j]] + a[j + 1..])[1..] == a[j + 1..];
  }

  /** The objective grows at least by what one column contributes: the heart of reduced-cost fixing. */
  lemma {:induction false} GapBound(lp: Program, y: seq<real>, z: seq<real>, star: seq<real>, x: seq<real>, j: int)
    requires WellSized(lp) && DualFeasible(lp, y, z) && Complementary(lp, z, star) && RowsOk(lp.rows, star)
    requires Admits(lp, x) && 0 <= j < |z|
    ensures z[j] * (x[j] - star[j]) <= Objective(lp, x) - Objective(lp, star)
  {
    hide Sum, Supply, Combined;
    ObjectiveByDuals(lp, y, z, x);
    ObjectiveByDuals(lp, y, z, star);
    var moves := Moves(z, x, star);
    forall k | 0 <= k < |z| ensures moves[k] >= 0.0 { MoveNonnegative(lp, z, star, x, k); }
    TermBelowSum(moves, j);
    forall k | 0 <= k < |z|
      ensures Products(z, x)[k] == Products(z, star)[k] + moves[k]
    {
    }
    SumAdd(Products(z, star), moves, Products(z, x));
  }

  // ---------------------------------------------------------------- the new bounds of one column

  /** Upper and lower bound of column `j` that the gap leaves, before they are compared with the old ones. */
  function ReducedUpper(lower: Ext, upper: Ext, integer: bool, z: real, gap: real, weaken: real): Ext {
    if lower.Fin? && z > 0.0 then
      Fin(if integer then (lower.v + gap / z + weaken).Floor as real else lower.v + gap / z)
    else upper
  }

  function ReducedLower(lower: Ext, upper: Ext, integer: bool, z: real, gap: real, weaken: real): Ext {
    if upper.Fin? && z < 0.0 then
      Fin(if integer then Ceiling(upper.v + gap / z - weaken) as real else upper.v + gap / z)
    else lower
  }

  lemma {:induction false} DivideUpper(z: real, d: real, gap: real)
    requires z > 0.0 && z * d <= gap
    ensures d <= gap / z
  {
    var q := gap / z;
    assert q * z == gap;
    if d > q { assert (d - q) * z > 0.0; }
  }

  lemma {:induction false} DivideLower(z: real, d: real, gap: real)
    requires z < 0.0 && z * d <= gap
    ensures d >= gap / z
  {
    assert (-z) * (-d) <= gap;
    DivideUpper(-z, -d, gap);
    assert gap / (-z) == -(gap / z);
  }

  /** A point within the gap respects the reduced bounds of every column. */
  lemma {:induction false} ReducedSafe(lower: Ext, upper: Ext, integer: bool, z: real, gap: real, weaken: real, star: real, v: real)
    requires weaken >= 0.0 && Within(v, lower, upper) && (integer ==> IsInteger(v))
    requires (z > 0.0 ==> lower == Fin(star)) && (z < 0.0 ==> upper == Fin(star))
    requires z * (v - star) <= gap
    ensures Le(Fin(v), ReducedUpper(lower, upper, integer, z, gap, weaken))
    ensures Le(ReducedLower(lower, upper, integer, z, gap, weaken), Fin(v))
  {
    if lower.Fin? && z > 0.0 {
      DivideUpper(z, v - star, gap);
      if integer { FloorKeeps(v, star + gap / z + weaken); }
    }
    if upper.Fin? && z < 0.0 {
      DivideLower(z, v - star, gap);
      if integer { CeilKeeps(v, star + gap / z - weaken); }
    }
  }

  lemma {:induction false} FloorKeeps(v: real, w: real)
    requires IsInteger(v) && v <= w
    ensures v <= w.Floor as real
  {
  }

  lemma {:induction false} CeilKeeps(v: real, w: real)
    requires IsInteger(v) && w <= v
    ensures Ceiling(w) as real <= v
  {
    CeilLeast(w, v.Floor);
  }

  predicate Considered(z: real, threshold: real) {
    z > threshold || -z > threshold
  }

  function NewUpper(lp: Program, z: seq<real>, gap: real, threshold: real, weaken: real, j: int): Ext
    requires WellSized(lp) && 0 <= j < |lp.cost|
  {
    if j < |z| && Considered(z[j], threshold) && lp.integer[j] then
      var u := ReducedUpper(lp.lower[j], lp.upper[j], true, z[j], gap, weaken);
      if Lt(u, lp.upper[j]) then u else lp.upper[j]
    else lp.upper[j]
  }

  function NewLower(lp: Program, z: seq<real>, gap: real, threshold: real, weaken: real, j: int): Ext
    requires WellSized(lp) && 0 <= j < |lp.cost|
  {
    if j < |z| && Considered(z[j], threshold) && lp.integer[j] then
      var l := ReducedLower(lp.lower[j], lp.upper[j], true, z[j], gap, weaken);
      if Lt(lp.lower[j], l) then l else lp.lower[j]
    else lp.lower[j]
  }

  /** An integer column whose reduced bounds leave at most `fixedTol` between them. */
  predicate CountsAsFixed(lp: Program, z: seq<real>, gap: real, threshold: real, weaken: real, fixedTol: real, j: int)
    requires WellSized(lp) && 0 <= j < |lp.cost|
  {
    && j < |z| && Considered(z[j], threshold) && lp.integer[j]
    && (var u, l := ReducedUpper(lp.lower[j], lp.upper[j], true, z[j], gap, weaken),
                    ReducedLower(lp.lower[j], lp.upper[j], true, z[j], gap, weaken);
        u.NegInf? || l.PosInf? || (u.Fin? && l.Fin? && u.v <= l.v + fixedTol))
  }

  function FixedCount(lp: Program, z: seq<real>, gap: real, threshold: real, weaken: real, fixedTol: real, k: nat): nat
    requires WellSized(lp) && k <= |lp.cost|
  {
    if k == 0 then 0
    else FixedCount(lp, z, gap, threshold, weaken, fixedTol, k - 1)
         + if CountsAsFixed(lp, z, gap, threshold, weaken, fixedTol, k - 1) then 1 else 0
  }

  // ---------------------------------------------------------------- what the new bounds leave, column by column

  function Magnitude(z: real): real {
    if z < 0.0 then -z else z
  }

  predicate AtMostInt(v: int, b: Ext) {
    Le(Fin(v as real), b)
  }

  predicate AtLeastInt(v: int, b: Ext) {
    Le(b, Fin(v as real))
  }

  /** Moving from the bound `b` to `v` at price `z` costs no more than the gap, up to the tolerance. */
  predicate Affordable(z: real, b: real, v: int, gap: real, weaken: real) {
    z * (v as real - b) <= gap + weaken * Magnitude(z)
  }

  /** The columns that are looked at. */
  predicate Expensive(lp: Program, z: seq<real>, threshold: real, j: int)
    requires WellSized(lp)
  {
    0 <= j < |z| && j < |lp.cost| && lp.integer[j] && Magnitude(z[j]) > threshold
  }

  /**
   * An expensive column keeps exactly the affordable integers when the bound its reduced cost pushes against is
   * finite; everything else stays as it was.
   */
  ghost predicate Tightened(lp: Program, z: seq<real>, gap: real, threshold: real, weaken: real, j: int, lower: Ext, upper: Ext)
    requires WellSized(lp) && 0 <= j < |lp.cost|
  {
    && (lower != lp.lower[j] ==> Expensive(lp, z, threshold, j) && z[j] < 0.0 && lp.upper[j].Fin?)
    && (upper != lp.upper[j] ==> Expensive(lp, z, threshold, j) && z[j] > 0.0 && lp.lower[j].Fin?)
    && (Expensive(lp, z, threshold, j) && z[j] > 0.0 && lp.lower[j].Fin? ==>
          forall v :: AtMostInt(v, upper) <==> AtMostInt(v, lp.upper[j]) && Affordable(z[j], lp.lower[j].v, v, gap, weaken))
    && (Expensive(lp, z, threshold, j) && z[j] < 0.0 && lp.upper[j].Fin? ==>
          forall v :: AtLeastInt(v, lower) <==> AtLeastInt(v, lp.lower[j]) && Affordable(z[j], lp.upper[j].v, v, gap, weaken))
  }

  /** The affordable integers of an expensive column all lie within `fixedTol` of the bound. */
  ghost predicate FixedByGap(lp: Program, z: seq<real>, gap: real, threshold: real, weaken: real, fixedTol: real, j: int)
    requires WellSized(lp)
  {
    && Expensive(lp, z, threshold, j)
    && var l, u := lp.lower[j], lp.upper[j];
       if z[j] > 0.0 && l.Fin? then forall v | Affordable(z[j], l.v, v, gap, weaken) :: v as real <= l.v + fixedTol
       else if z[j] < 0.0 && u.Fin? then forall v | Affordable(z[j], u.v, v, gap, weaken) :: u.v <= v as real + fixedTol
       else u.NegInf? || l.PosInf?
  }

  lemma {:induction false} AffordableUp(z: real, b: real, v: int, gap: real, weaken: real)
    requires z > 0.0
    ensures Affordable(z, b, v, gap, weaken) <==> v <= (b + gap / z + weaken).Floor
  {
    var d, q := v as real - b, gap / z;
    assert q * z == gap;
    PriceBelow(z, d, q, weaken, gap);
    assert v as real <= b + q + weaken <==> v <= (b + q + weaken).Floor;
  }

  lemma {:induction false} PriceBelow(z: real, d: real, q: real, weaken: real, gap: real)
    requires z > 0.0 && q * z == gap
    ensures z * d <= gap + weaken * z <==> d <= q + weaken
  {
    var e := d - q - weaken;
    assert z * e == z * d - q * z - weaken * z;
    if e > 0.0 { assert z * e > 0.0; }
    if e <= 0.0 { assert z * e <= 0.0; }
  }

  lemma {:induction false} AffordableDown(z: real, b: real, v: int, gap: real, weaken: real)
    requires z < 0.0
    ensures Affordable(z, b, v, gap, weaken) <==> Ceiling(b + gap / z - weaken) <= v
  {
    var y, q := -z, gap / -z;
    assert q * y == gap && gap / z == -q;
    PriceBelow(y, b - v as real, q, weaken, gap);
    assert z * (v as real - b) == y * (b - v as real);
    var w := b - q - weaken;
    assert w <= v as real <==> Ceiling(w) <= v;
  }

  /** What the reduced bounds of an expensive column mean for the integers. */
  lemma {:induction false} ReducedMeans(lower: Ext, upper: Ext, z: real, gap: real, weaken: real, v: int)
    ensures z > 0.0 && lower.Fin? ==>
              (AtMostInt(v, ReducedUpper(lower, upper, true, z, gap, weaken)) <==> Affordable(z, lower.v, v, gap, weaken))
    ensures z < 0.0 && upper.Fin? ==>
              (AtLeastInt(v, ReducedLower(lower, upper, true, z, gap, weaken)) <==> Affordable(z, upper.v, v, gap, weaken))
  {
    hide Affordable;
    if z > 0.0 && lower.Fin? { AffordableUp(z, lower.v, v, gap, weaken); }
    if z < 0.0 && upper.Fin? { AffordableDown(z, upper.v, v, gap, weaken); }
  }

  /** Exactly the unaffordable integers are cut off. */
  lemma {:induction false} TighteningExact(lp: Program, z: seq<real>, gap: real, threshold: real, weaken: real, j: int)
    requires WellSized(lp) && threshold >= 0.0 && 0 <= j < |lp.cost|
    ensures Tightened(lp, z, gap, threshold, weaken, j, NewLower(lp, z, gap, threshold, weaken, j), NewUpper(lp, z, gap, threshold, weaken, j))
  {
    hide Affordable;
    if Expensive(lp, z, threshold, j) {
      forall v: int
        ensures z[j] > 0.0 && lp.lower[j].Fin? ==>
                  (AtMostInt(v, ReducedUpper(lp.lower[j], lp.upper[j], true, z[j], gap, weaken)) <==> Affordable(z[j], lp.lower[j].v, v, gap, weaken))
        ensures z[j] < 0.0 && lp.upper[j].Fin? ==>
                  (AtLeastInt(v, ReducedLower(lp.lower[j], lp.upper[j], true, z[j], gap, weaken)) <==> Affordable(z[j], lp.upper[j].v, v, gap, weaken))
      {
        ReducedMeans(lp.lower[j], lp.upper[j], z[j], gap, weaken, v);
      }
    }
  }

  /** The columns counted as fixed are those whose affordable integers lie within the tolerance of the bound. */
  lemma {:induction false} CountsIffFixed(lp: Program, z: seq<real>, gap: real, threshold: real, weaken: real, fixedTol: real, j: int)
    requires WellSized(lp) && threshold >= 0.0 && 0 <= j < |lp.cost|
    ensures CountsAsFixed(lp, z, gap, threshold, weaken, fixedTol, j) <==> FixedByGap(lp, z, gap, threshold, weaken, fixedTol, j)
  {
    hide Affordable;
    if Expensive(lp, z, threshold, j) {
      var l, u := lp.lower[j], lp.upper[j];
      forall v: int
        ensures z[j] > 0.0 && l.Fin? ==> (Affordable(z[j], l.v, v, gap, weaken) <==> v <= (l.v + gap / z[j] + weaken).Floor)
        ensures z[j] < 0.0 && u.Fin? ==> (Affordable(z[j], u.v, v, gap, weaken) <==> Ceiling(u.v + gap / z[j] - weaken) <= v)
      {
        if z[j] > 0.0 && l.Fin? { AffordableUp(z[j], l.v, v, gap, weaken); }
        if z[j] < 0.0 && u.Fin? { AffordableDown(z[j], u.v, v, gap, weaken); }
      }
      if z[j] > 0.0 && l.Fin? {
        assert Affordable(z[j], l.v, (l.v + gap / z[j] + weaken).Floor, gap, weaken);
      } else if z[j] < 0.0 && u.Fin? {
        assert Affordable(z[j], u.v, Ceiling(u.v + gap / z[j] - weaken), gap, weaken);
      }
    }
  }

  ghost function FixedColumns(lp: Program, z: seq<real>, gap: real, threshold: real, weaken: real, fixedTol: real, k: nat): set<int>
    requires WellSized(lp)
  {
    set j | 0 <= j < k && FixedByGap(lp, z, gap, threshold, weaken, fixedTol, j)
  }

  lemma {:induction false} FixedCountIs(lp: Program, z: seq<real>, gap: real, threshold: real, weaken: real, fixedTol: real, k: nat)
    requires WellSized(lp) && threshold >= 0.0 && k <= |lp.cost|
    ensures FixedCount(lp, z, gap, threshold, weaken, fixedTol, k) == |FixedColumns(lp, z, gap, threshold, weaken, fixedTol, k)|
  {
    hide CountsAsFixed, FixedByGap;
    if k > 0 {
      FixedCountIs(lp, z, gap, threshold, weaken, fixedTol, k - 1);
      CountsIffFixed(lp, z, gap, threshold, weaken, fixedTol, k - 1);
      var before, after := FixedColumns(lp, z, gap, threshold, weaken, fixedTol, k - 1), FixedColumns(lp, z, gap, threshold, weaken, fixedTol, k);
      assert after == before + if FixedByGap(lp, z, gap, threshold, weaken, fixedTol, k - 1) then {k - 1} else {};
    }
  }

  /**
   * New bounds for the integer columns with a large reduced cost; `z` may be shorter than the program, which
   * has gained slack columns. Returns how many integer columns are fixed.
   */
  method FindReducedCostFixings(lp: Program, z: seq<real>, rootObj: real, upperBound: real, integerTol: real, fixedTol: real)
    returns (numFixed: nat, lower: seq<Ext>, upper: seq<Ext>)
    requires WellSized(lp) && |z| <= |lp.cost| && integerTol >= 0.0
    ensures |lower| == |upper| == |lp.cost|
    ensures forall j | 0 <= j < |lower| ::
              && lower[j] == NewLower(lp, z, upperBound - rootObj, 100.0 * integerTol, integerTol, j)
              && upper[j] == NewUpper(lp, z, upperBound - rootObj, 100.0 * integerTol, integerTol, j)
    ensures forall j | 0 <= j < |lower| ::
              Tightened(lp, z, upperBound - rootObj, 100.0 * integerTol, integerTol, j, lower[j], upper[j])
    ensures numFixed == |FixedColumns(lp, z, upperBound - rootObj, 100.0 * integerTol, integerTol, fixedTol, |z|)|
  {
    hide ReducedUpper, ReducedLower, Tightened, FixedColumns;
    lower, upper, numFixed := lp.lower, lp.upper, 0;
    var threshold, weaken, gap := 100.0 * integerTol, integerTol, upperBound - rootObj;
    for j := 0 to |z|
      invariant |lower| == |upper| == |lp.cost|
      invariant forall k | 0 <= k < j ::
                  && lower[k] == NewLower(lp, z, gap, threshold, weaken, k) && upper[k] == NewUpper(lp, z, gap, threshold, weaken, k)
      invariant forall k | j <= k < |lp.cost| :: lower[k] == lp.lower[k] && upper[k] == lp.upper[k]
      invariant numFixed == FixedCount(lp, z, gap, threshold, weaken, fixedTol, j)
    {
      if Considered(z[j], threshold) {
        var reducedUpper := ReducedUpper(lp.lower[j], lp.upper[j], lp.integer[j], z[j], gap, weaken);
        var reducedLower := ReducedLower(lp.lower[j], lp.upper[j], lp.integer[j], z[j], gap, weaken);
        if lp.integer[j] {
          if Lt(reducedUpper, lp.upper[j]) { upper := upper[j := reducedUpper]; }
          if Lt(lp.lower[j], reducedLower) { lower := lower[j := reducedLower]; }
          if reducedUpper.NegInf? || reducedLower.PosInf? ||
             (reducedUpper.Fin? && reducedLower.Fin? && reducedUpper.v <= reducedLower.v + fixedTol) {
            numFixed := numFixed + 1;
          }
        }
      }
    }
    forall j | 0 <= j < |lower| ensures Tightened(lp, z, gap, threshold, weaken, j, lower[j], upper[j]) {
      TighteningExact(lp, z, gap, threshold, weaken, j);
    }
    FixedCountIs(lp, z, gap, threshold, weaken, fixedTol, |z|);
  }

  /** Every integer-feasible point that is not worse than the upper bound survives the tightening. */
  lemma {:induction false} TighteningSafe(lp: Program, y: seq<real>, zFull: seq<real>, z: seq<real>, star: seq<real>,
                                          upperBound: real, threshold: real, weaken: real, x: seq<real>, j: int)
    requires WellSized(lp) && threshold >= 0.0 && weaken >= 0.0
    requires DualFeasible(lp, y, zFull) && Complementary(lp, zFull, star) && RowsOk(lp.rows, star) && z <= zFull
    requires IntegerFeasible(lp, x) && Objective(lp, x) <= upperBound && 0 <= j < |lp.cost|
    ensures Within(x[j], NewLower(lp, z, upperBound - Objective(lp, star), threshold, weaken, j),
                   NewUpper(lp, z, upperBound - Objective(lp, star), threshold, weaken, j))
  {
    hide Objective, Combined, ReducedLower, ReducedUpper, RowsOk;
    assert Within(x[j], lp.lower[j], lp.upper[j]);
    if j < |z| && Considered(z[j], threshold) && lp.integer[j] {
      GapBound(lp, y, zFull, star, x, j);
      ReducedSafe(lp.lower[j], lp.upper[j], true, z[j], upperBound - Objective(lp, star), weaken, star[j], x[j]);
    }
  }

  lemma {:induction false} OneInteger(lower: Ext, upper: Ext, fixedTol: real, v: real, w: real)
    requires fixedTol < 1.0 && IsInteger(v) && IsInteger(w)
    requires Le(Fin(v), upper) && Le(lower, Fin(v)) && Le(Fin(w), upper) && Le(lower, Fin(w))
    requires upper.NegInf? || lower.PosInf? || (upper.Fin? && lower.Fin? && upper.v <= lower.v + fixedTol)
    ensures v == w
  {
    assert -1.0 < v - w < 1.0;
    var a, b := v.Floor, w.Floor;
    assert v - w == (a - b) as real;
  }

  /** A column counted as fixed takes one value only in all the surviving points. */
  lemma {:induction false} FixedIsFixed(lp: Program, y: seq<real>, zFull: seq<real>, z: seq<real>, star: seq<real>,
                                        upperBound: real, threshold: real, weaken: real, fixedTol: real,
                                        x: seq<real>, w: seq<real>, j: int)
    requires WellSized(lp) && threshold >= 0.0 && weaken >= 0.0 && fixedTol < 1.0
    requires DualFeasible(lp, y, zFull) && Complementary(lp, zFull, star) && RowsOk(lp.rows, star) && z <= zFull
    requires IntegerFeasible(lp, x) && Objective(lp, x) <= upperBound
    requires IntegerFeasible(lp, w) && Objective(lp, w) <= upperBound && 0 <= j < |lp.cost|
    requires CountsAsFixed(lp, z, upperBound - Objective(lp, star), threshold, weaken, fixedTol, j)
    ensures x[j] == w[j]
  {
    hide Objective, Combined, ReducedLower, ReducedUpper, RowsOk, DualFeasible;
    var gap := upperBound - Objective(lp, star);
    assert Within(x[j], lp.lower[j], lp.upper[j]) && Within(w[j], lp.lower[j], lp.upper[j]);
    GapBound(lp, y, zFull, star, x, j);
    ReducedSafe(lp.lower[j], lp.upper[j], true, z[j], gap, weaken, star[j], x[j]);
    GapBound(lp, y, zFull, star, w, j);
    ReducedSafe(lp.lower[j], lp.upper[j], true, z[j], gap, weaken, star[j], w[j]);
    OneInteger(ReducedLower(lp.lower[j], lp.upper[j], true, z[j], gap, weaken),
               ReducedUpper(lp.lower[j], lp.upper[j], true, z[j], gap, weaken), fixedTol, x[j], w[j]);
  }
}
