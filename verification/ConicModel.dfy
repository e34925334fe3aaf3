/**
 * The meaning of the optimisation models that the second-order-cone translation reads and writes:
 * bounded columns, sparse linear rows, quadratic rows and cones over columns.
 */
module ConicModel {
  import opened Extended
  import opened Sums

  datatype Term = Term(col: int, coef: real)

  datatype Sense = AtMost | AtLeast | Equals

  datatype Row = Row(terms: seq<Term>, sense: Sense, rhs: real)

  /** One coefficient of a quadratic form in coordinate format. */
  datatype Entry = Entry(row: int, col: int, value: real)

  /** A quadratic row as the caller hands it over: linear part and Q in parallel vectors. */
  datatype QuadraticConstraint = QuadraticConstraint(
    rowType: char,
    linearIndices: seq<int>,
    linearValues: seq<real>,
    rows: seq<int>,
    cols: seq<int>,
    vals: seq<real>,
    rhs: real)

  /** One constraint of a partly translated model. */
  datatype Con =
    | Quadratic(qc: QuadraticConstraint)
      // s * |tails|^2 + linear <= 0, with column `head` reserved for -linear / s
    | PendingAffine(head: int, tails: seq<int>, scale: real, linear: seq<Term>)
      // |tails|^2 <= 2 * head * (1/2)
    | HalfHead(head: int, tails: seq<int>)
      // |tails|^2 <= 2 * (ratio * head0) * (ratio * head1)
    | TwoHeads(head0: int, head1: int, tails: seq<int>, ratio: real)
      // vars[0] >= |vars[1..]|
    | Cone(vars: seq<int>)

  datatype Model = Model(
    n: nat,
    obj: seq<real>,
    lower: seq<Ext>,
    upper: seq<Ext>,
    rows: seq<Row>,
    cons: seq<Con>)

  // ---------------------------------------------------------------- evaluation

  function Dot(terms: seq<Term>, x: seq<real>): real {
    if terms == [] then 0.0 else terms[0].coef * At(x, terms[0].col) + Dot(terms[1..], x)
  }

  function SumSq(vars: seq<int>, x: seq<real>): real {
    if vars == [] then 0.0 else At(x, vars[0]) * At(x, vars[0]) + SumSq(vars[1..], x)
  }

  function EntryValue(e: Entry, x: seq<real>): real {
    e.value * At(x, e.row) * At(x, e.col)
  }

  function Form(entries: seq<Entry>, x: seq<real>): real {
    if entries == [] then 0.0 else EntryValue(entries[0], x) + Form(entries[1..], x)
  }

  function Entries(qc: QuadraticConstraint): seq<Entry> {
    if |qc.rows| == |qc.cols| == |qc.vals| then
      seq(|qc.vals|, k requires 0 <= k < |qc.vals| => Entry(qc.rows[k], qc.cols[k], qc.vals[k]))
    else []
  }

  function LinearTerms(qc: QuadraticConstraint): seq<Term> {
    if |qc.linearIndices| == |qc.linearValues| then
      seq(|qc.linearValues|, k requires 0 <= k < |qc.linearValues| =>
        Term(qc.linearIndices[k], qc.linearValues[k]))
    else []
  }

  function LeftHandSide(qc: QuadraticConstraint, x: seq<real>): real {
    Form(Entries(qc), x) + Dot(LinearTerms(qc), x)
  }

  predicate Compare(lhs: real, sense: Sense, rhs: real) {
    match sense
    case AtMost => lhs <= rhs
    case AtLeast => lhs >= rhs
    case Equals => lhs == rhs
  }

  predicate RowSat(row: Row, x: seq<real>) {
    Compare(Dot(row.terms, x), row.sense, row.rhs)
  }

  predicate QuadraticSat(qc: QuadraticConstraint, x: seq<real>) {
    if qc.rowType == 'L' then LeftHandSide(qc, x) <= qc.rhs
    else if qc.rowType == 'G' then LeftHandSide(qc, x) >= qc.rhs
    else LeftHandSide(qc, x) == qc.rhs
  }

  /** Membership of the listed columns in the second-order cone with head first. */
  predicate InCone(vars: seq<int>, x: seq<real>) {
    && vars != []
    && At(x, vars[0]) >= 0.0
    && SumSq(vars[1..], x) <= At(x, vars[0]) * At(x, vars[0])
  }

  predicate ConSat(c: Con, x: seq<real>) {
    match c
    case Quadratic(qc) => QuadraticSat(qc, x)
    case PendingAffine(head, tails, scale, linear) => scale * SumSq(tails, x) + Dot(linear, x) <= 0.0
    case HalfHead(head, tails) => SumSq(tails, x) <= At(x, head)
    case TwoHeads(a, b, tails, ratio) =>
      SumSq(tails, x) <= 2.0 * (ratio * At(x, a)) * (ratio * At(x, b))
    case Cone(vars) => InCone(vars, x)
  }

  predicate BoundsOk(m: Model, x: seq<real>) {
    forall j | 0 <= j < m.n && j < |m.lower| && j < |m.upper| ::
      Le(m.lower[j], Fin(At(x, j))) && Le(Fin(At(x, j)), m.upper[j])
  }

  predicate RowsOk(rows: seq<Row>, x: seq<real>) {
    forall i | 0 <= i < |rows| :: RowSat(rows[i], x)
  }

  predicate ConsOk(cons: seq<Con>, x: seq<real>) {
    forall i | 0 <= i < |cons| :: ConSat(cons[i], x)
  }

  /** Bounds and linear rows hold. */
  predicate LinearOk(m: Model, x: seq<real>) {
    |x| == m.n && BoundsOk(m, x) && RowsOk(m.rows, x)
  }

  predicate Feasible(m: Model, x: seq<real>) {
    LinearOk(m, x) && ConsOk(m.cons, x)
  }

  function DenseDot(c: seq<real>, x: seq<real>): real {
    Sum(seq(|c|, j requires 0 <= j < |c| => c[j] * At(x, j)))
  }

  // ---------------------------------------------------------------- well-formedness

  predicate ColsBelow(cols: seq<int>, n: int) {
    forall k | 0 <= k < |cols| :: 0 <= cols[k] < n
  }

  predicate TermsBelow(terms: seq<Term>, n: int) {
    forall k | 0 <= k < |terms| :: 0 <= terms[k].col < n
  }

  predicate WellFormed(m: Model) {
    && |m.obj| == |m.lower| == |m.upper| == m.n
    && forall i | 0 <= i < |m.rows| :: TermsBelow(m.rows[i].terms, m.n)
  }

  // ---------------------------------------------------------------- evaluation on longer points

  lemma {:induction false} DotPrefix(terms: seq<Term>, x: seq<real>, z: seq<real>)
    requires TermsBelow(terms, |x|) && |x| <= |z| && z[..|x|] == x
    ensures Dot(terms, z) == Dot(terms, x)
  {
    if terms != [] {
      var c := terms[0].col;
      assert 0 <= c < |x| && z[c] == z[..|x|][c];
      DotPrefix(terms[1..], x, z);
    }
  }

  lemma {:induction false} DotConcat(a: seq<Term>, b: seq<Term>, x: seq<real>)
    ensures Dot(a + b, x) == Dot(a, x) + Dot(b, x)
  {
    hide At;
    if a == [] {
      assert a + b == b;
    } else {
      DotConcat(a[1..], b, x);
      assert (a + b)[1..] == a[1..] + b;
    }
  }

  lemma {:induction false} SumSqPrefix(vars: seq<int>, x: seq<real>, z: seq<real>)
    requires ColsBelow(vars, |x|) && |x| <= |z| && z[..|x|] == x
    ensures SumSq(vars, z) == SumSq(vars, x)
  {
    if vars != [] {
      var c := vars[0];
      assert 0 <= c < |x| && z[c] == z[..|x|][c];
      SumSqPrefix(vars[1..], x, z);
    }
  }

  lemma {:induction false} FormPrefix(entries: seq<Entry>, x: seq<real>, z: seq<real>)
    requires forall k | 0 <= k < |entries| :: 0 <= entries[k].row < |x| && 0 <= entries[k].col < |x|
    requires |x| <= |z| && z[..|x|] == x
    ensures Form(entries, z) == Form(entries, x)
  {
    if entries != [] {
      var e := entries[0];
      assert 0 <= e.row < |x| && 0 <= e.col < |x| && z[e.row] == z[..|x|][e.row] && z[e.col] == z[..|x|][e.col];
      FormPrefix(entries[1..], x, z);
    }
  }

  // ---------------------------------------------------------------- extension by defined columns

  /**
   * `b` is an extension of `a`: the feasible points of `a` are exactly the first `a.n` coordinates of
   * the feasible points of `b`, and the linear objective does not see the other coordinates.
   */
  ghost predicate Extends(a: Model, b: Model) {
    && a.n <= b.n
    && (forall x | Feasible(a, x) :: exists z :: Feasible(b, z) && z[..a.n] == x)
    && (forall z | Feasible(b, z) :: Feasible(a, z[..a.n]))
    && b.obj == a.obj + seq(b.n - a.n, _ => 0.0)
  }

  /** A fresh column whose value is fixed by a linking row `terms + column = rhs`. */
  datatype Def = Def(terms: seq<Term>, rhs: real, lower: Ext)

  function DefRow(d: Def, col: int): Row {
    Row(d.terms + [Term(col, 1.0)], Equals, d.rhs)
  }

  function DefRows(defs: seq<Def>, n: int): seq<Row> {
    seq(|defs|, i requires 0 <= i < |defs| => DefRow(defs[i], n + i))
  }

  function DefLowers(defs: seq<Def>): seq<Ext> {
    seq(|defs|, i requires 0 <= i < |defs| => defs[i].lower)
  }

  /** Append all the columns of `defs`, then all their linking rows, and install the constraints `cons`. */
  function DefineAll(m: Model, defs: seq<Def>, cons: seq<Con>): Model {
    Model(m.n + |defs|,
          m.obj + seq(|defs|, _ => 0.0),
          m.lower + DefLowers(defs),
          m.upper + seq(|defs|, _ => PosInf),
          m.rows + DefRows(defs, m.n),
          cons)
  }

  function DefValue(d: Def, x: seq<real>): real {
    d.rhs - Dot(d.terms, x)
  }

  function DefValues(defs: seq<Def>, x: seq<real>): seq<real> {
    seq(|defs|, i requires 0 <= i < |defs| => DefValue(defs[i], x))
  }

  lemma {:induction false} DefRowValue(d: Def, x: seq<real>, z: seq<real>, col: int)
    requires TermsBelow(d.terms, |x|) && |x| <= col < |z| && z[..|x|] == x
    ensures RowSat(DefRow(d, col), z) <==> z[col] == DefValue(d, x)
  {
    DotPrefix(d.terms, x, z);
    DotConcat(d.terms, [Term(col, 1.0)], z);
    assert Dot([Term(col, 1.0)], z) == z[col];
  }

  lemma {:induction false} RowPrefix(row: Row, x: seq<real>, z: seq<real>)
    requires TermsBelow(row.terms, |x|) && |x| <= |z| && z[..|x|] == x
    ensures RowSat(row, z) <==> RowSat(row, x)
  {
    DotPrefix(row.terms, x, z);
  }

  predicate Linked(m: Model, defs: seq<Def>, z: seq<real>)
    requires |z| == m.n + |defs|
  {
    forall i | 0 <= i < |defs| ::
      z[m.n + i] == DefValue(defs[i], z[..m.n]) && Le(defs[i].lower, Fin(z[m.n + i]))
  }

  lemma {:induction false} DefineAllRows(m: Model, defs: seq<Def>, cons: seq<Con>, z: seq<real>)
    requires WellFormed(m) && |z| == m.n + |defs|
    requires forall i | 0 <= i < |defs| :: TermsBelow(defs[i].terms, m.n)
    ensures RowsOk(DefineAll(m, defs, cons).rows, z) <==>
            RowsOk(m.rows, z[..m.n]) && forall i | 0 <= i < |defs| :: z[m.n + i] == DefValue(defs[i], z[..m.n])
  {
    var x, rows := z[..m.n], DefineAll(m, defs, cons).rows;
    forall i | 0 <= i < |m.rows|
      ensures rows[i] == m.rows[i] && (RowSat(rows[i], z) <==> RowSat(m.rows[i], x))
    {
      RowPrefix(m.rows[i], x, z);
    }
    forall i | 0 <= i < |defs|
      ensures rows[|m.rows| + i] == DefRow(defs[i], m.n + i)
      ensures RowSat(rows[|m.rows| + i], z) <==> z[m.n + i] == DefValue(defs[i], x)
    {
      DefRowValue(defs[i], x, z, m.n + i);
    }
    if RowsOk(m.rows, x) && forall i | 0 <= i < |defs| :: z[m.n + i] == DefValue(defs[i], x) {
      forall i | 0 <= i < |rows| ensures RowSat(rows[i], z) {
        if i >= |m.rows| { assert RowSat(rows[|m.rows| + (i - |m.rows|)], z); }
      }
    }
  }

  lemma {:induction false} DefineAllBounds(m: Model, defs: seq<Def>, cons: seq<Con>, z: seq<real>)
    requires WellFormed(m) && |z| == m.n + |defs|
    ensures BoundsOk(DefineAll(m, defs, cons), z) <==>
            BoundsOk(m, z[..m.n]) && forall i | 0 <= i < |defs| :: Le(defs[i].lower, Fin(z[m.n + i]))
  {
    var x, b := z[..m.n], DefineAll(m, defs, cons);
    assert forall j | 0 <= j < m.n :: At(z, j) == At(x, j) && b.lower[j] == m.lower[j] && b.upper[j] == m.upper[j];
    forall i | 0 <= i < |defs|
      ensures b.lower[m.n + i] == defs[i].lower && b.upper[m.n + i] == PosInf && At(z, m.n + i) == z[m.n + i]
    {
    }
    if BoundsOk(m, x) && forall i | 0 <= i < |defs| :: Le(defs[i].lower, Fin(z[m.n + i])) {
      forall j | 0 <= j < b.n ensures Le(b.lower[j], Fin(At(z, j))) && Le(Fin(At(z, j)), b.upper[j]) {
        if j >= m.n { assert b.lower[m.n + (j - m.n)] == defs[j - m.n].lower; }
      }
    }
  }

  /** The linear part of an extended model restricts to the old one and fixes every new column. */
  lemma {:induction false} DefineAllLinear(m: Model, defs: seq<Def>, cons: seq<Con>, z: seq<real>)
    requires WellFormed(m) && |z| == m.n + |defs|
    requires forall i | 0 <= i < |defs| :: TermsBelow(defs[i].terms, m.n)
    ensures LinearOk(DefineAll(m, defs, cons), z) <==> LinearOk(m, z[..m.n]) && Linked(m, defs, z)
  {
    DefineAllRows(m, defs, cons, z);
    DefineAllBounds(m, defs, cons, z);
  }

  /** The point that `DefineAll` makes out of an old point. */
  lemma {:induction false} DefineAllPoint(m: Model, defs: seq<Def>, cons: seq<Con>, x: seq<real>) returns (z: seq<real>)
    requires WellFormed(m) && LinearOk(m, x)
    requires forall i | 0 <= i < |defs| :: TermsBelow(defs[i].terms, m.n)
    requires forall i | 0 <= i < |defs| :: Le(defs[i].lower, Fin(DefValue(defs[i], x)))
    ensures LinearOk(DefineAll(m, defs, cons), z) && z[..m.n] == x
  {
    z := x + DefValues(defs, x);
    assert z[..m.n] == x;
    DefineAllLinear(m, defs, cons, z);
  }

  lemma {:induction false} DefineAllWellFormed(m: Model, defs: seq<Def>, cons: seq<Con>)
    requires WellFormed(m)
    requires forall i | 0 <= i < |defs| :: TermsBelow(defs[i].terms, m.n)
    ensures WellFormed(DefineAll(m, defs, cons))
  {
    var b := DefineAll(m, defs, cons);
    forall i | 0 <= i < |b.rows|
      ensures TermsBelow(b.rows[i].terms, b.n)
    {
      if i >= |m.rows| {
        var k := i - |m.rows|;
        assert b.rows[i] == DefRow(defs[k], m.n + k);
      } else {
        assert b.rows[i] == m.rows[i];
      }
    }
  }

  /** Defined columns whose constraints agree on every linked point make an extension. */
  lemma {:induction false} ExtendsByDefinition(m: Model, defs: seq<Def>, cons: seq<Con>)
    requires WellFormed(m)
    requires forall i | 0 <= i < |defs| :: TermsBelow(defs[i].terms, m.n)
    requires forall x, i | Feasible(m, x) && 0 <= i < |defs| :: Le(defs[i].lower, Fin(DefValue(defs[i], x)))
    requires forall z | LinearOk(DefineAll(m, defs, cons), z) ::
               ConsOk(m.cons, z[..m.n]) <==> ConsOk(cons, z)
    ensures Extends(m, DefineAll(m, defs, cons))
    ensures WellFormed(DefineAll(m, defs, cons))
  {
    var b := DefineAll(m, defs, cons);
    forall x | Feasible(m, x)
      ensures exists z :: Feasible(b, z) && z[..m.n] == x
    {
      var z := DefineAllPoint(m, defs, cons, x);
      assert Feasible(b, z);
    }
    forall z | Feasible(b, z)
      ensures Feasible(m, z[..m.n])
    {
      DefineAllLinear(m, defs, cons, z);
    }
    assert b.obj == m.obj + seq(b.n - m.n, _ => 0.0);
    DefineAllWellFormed(m, defs, cons);
  }

  lemma {:induction false} ExtendsReflexive(a: Model)
    requires WellFormed(a)
    ensures Extends(a, a)
  {
    forall x | Feasible(a, x)
      ensures x[..a.n] == x && exists z :: Feasible(a, z) && z[..a.n] == x
    {
      assert x[..a.n] == x;
    }
    assert a.obj == a.obj + seq(0, _ => 0.0);
  }

  lemma {:induction false} ExtendsTransitive(a: Model, b: Model, c: Model)
    requires WellFormed(a) && Extends(a, b) && Extends(b, c)
    ensures Extends(a, c)
  {
    forall x | Feasible(a, x)
      ensures exists z :: Feasible(c, z) && z[..a.n] == x
    {
      var y :| Feasible(b, y) && y[..a.n] == x;
      var z :| Feasible(c, z) && z[..b.n] == y;
      assert z[..a.n] == z[..b.n][..a.n];
    }
    forall z | Feasible(c, z)
      ensures Feasible(a, z[..a.n])
    {
      assert Feasible(b, z[..b.n]);
      assert z[..a.n] == z[..b.n][..a.n];
    }
    assert c.obj == a.obj + seq(c.n - a.n, _ => 0.0);
  }
}
