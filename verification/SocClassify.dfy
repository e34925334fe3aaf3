/**
 * Recognising the shape of a quadratic row: Lorentz cone, rotated cone, cone with an affine head, or a
 * general convex row. Tolerances are taken at zero.
 */
module SocClassify {
  import opened Extended
  import opened Sums
  import opened ConicModel

  datatype Reason =
    | EqualityRow | UnknownRowType | LinearLengthMismatch | QLengthMismatch | EmptyQ
    | LinearIndexOutside | ZeroLinearPart | QIndexOutside
    | HeadCount | HeadScale | HeadSign | NoScale | NonConvex | NotContinuous | NoConstraints | MalformedObjective

  datatype Shape =
    | Tailless(head: int)
    | Diagonal(head: int, tails: seq<int>)
    | Affine(tails: seq<int>, scale: real)
    | Rotated(head0: int, head1: int, tails: seq<int>, ratio: real)
    | General
    | Rejected(reason: Reason)

  // ---------------------------------------------------------------- >= rows become <= rows

  function Negated(s: seq<real>): seq<real> {
    seq(|s|, k requires 0 <= k < |s| => -s[k])
  }

  function Normalized(qc: QuadraticConstraint): QuadraticConstraint {
    if qc.rowType != 'G' then qc
    else qc.(rowType := 'L', linearValues := Negated(qc.linearValues), vals := Negated(qc.vals), rhs := -qc.rhs)
  }

  method NormalizeGreaterToLess(qc: QuadraticConstraint) returns (r: QuadraticConstraint)
    ensures r == Normalized(qc)
    ensures r.rowType != 'G' && (qc.rowType in "LG" ==> r.rowType == 'L')
    ensures forall x: seq<real> :: QuadraticSat(r, x) <==> QuadraticSat(qc, x)
  {
    r := qc;
    if qc.rowType == 'G' {
      var linear: seq<real> := [];
      for k := 0 to |qc.linearValues|
        invariant linear == Negated(qc.linearValues[..k])
      {
        linear := linear + [-qc.linearValues[k]];
      }
      var vals: seq<real> := [];
      for k := 0 to |qc.vals|
        invariant vals == Negated(qc.vals[..k])
      {
        vals := vals + [-qc.vals[k]];
      }
      assert qc.linearValues[..|qc.linearValues|] == qc.linearValues && qc.vals[..|qc.vals|] == qc.vals;
      r := qc.(rowType := 'L', linearValues := linear, vals := vals, rhs := -qc.rhs);
    }
    forall x: seq<real>
      ensures QuadraticSat(r, x) <==> QuadraticSat(qc, x)
    {
      NormalizedSat(qc, x);
    }
  }

  lemma {:induction false} FormNegated(a: seq<Entry>, b: seq<Entry>, x: seq<real>)
    requires |a| == |b|
    requires forall k | 0 <= k < |a| :: a[k].row == b[k].row && a[k].col == b[k].col && a[k].value == -b[k].value
    ensures Form(a, x) == -Form(b, x)
  {
    if a != [] {
      var u, w := At(x, b[0].row), At(x, b[0].col);
      assert (-b[0].value) * u * w == -(b[0].value * u * w);
      FormNegated(a[1..], b[1..], x);
    }
  }

  lemma {:induction false} DotNegated(a: seq<Term>, b: seq<Term>, x: seq<real>)
    requires |a| == |b|
    requires forall k | 0 <= k < |a| :: a[k].col == b[k].col && a[k].coef == -b[k].coef
    ensures Dot(a, x) == -Dot(b, x)
  {
    if a != [] {
      DotNegated(a[1..], b[1..], x);
    }
  }

  lemma {:induction false} NormalizedSat(qc: QuadraticConstraint, x: seq<real>)
    ensures QuadraticSat(Normalized(qc), x) <==> QuadraticSat(qc, x)
  {
    if qc.rowType == 'G' {
      FormNegated(Entries(Normalized(qc)), Entries(qc), x);
      DotNegated(LinearTerms(Normalized(qc)), LinearTerms(qc), x);
    }
  }

  lemma {:induction false} FormConcat(a: seq<Entry>, b: seq<Entry>, x: seq<real>)
    ensures Form(a + b, x) == Form(a, x) + Form(b, x)
  {
    hide EntryValue;
    if a == [] {
      assert a + b == b;
    } else {
      FormConcat(a[1..], b, x);
      assert (a + b)[1..] == a[1..] + b;
    }
  }

  lemma {:induction false} ZeroForm(e: Entry, x: seq<real>)
    requires e.value == 0.0
    ensures Form([e], x) == 0.0
  {
  }

  // ---------------------------------------------------------------- sorting the coordinates

  predicate EntryBefore(a: Entry, b: Entry) {
    a.row < b.row || (a.row == b.row && a.col <= b.col)
  }

  function InsertEntry(e: Entry, s: seq<Entry>): seq<Entry> {
    if s == [] then [e]
    else if EntryBefore(e, s[0]) then [e] + s
    else [s[0]] + InsertEntry(e, s[1..])
  }

  function SortEntries(s: seq<Entry>): seq<Entry> {
    if s == [] then [] else InsertEntry(s[0], SortEntries(s[1..]))
  }

  predicate RowsSorted(s: seq<Entry>) {
    forall k, l | 0 <= k < l < |s| :: s[k].row <= s[l].row
  }

  predicate EntriesBelow(s: seq<Entry>, n: int) {
    forall k | 0 <= k < |s| :: 0 <= s[k].row < n && 0 <= s[k].col < n
  }

  lemma {:induction false} InsertEntrySorted(e: Entry, s: seq<Entry>)
    requires RowsSorted(s)
    ensures RowsSorted(InsertEntry(e, s)) && |InsertEntry(e, s)| == |s| + 1
    ensures forall r | r in InsertEntry(e, s) :: r == e || r in s
  {
    if s != [] && !EntryBefore(e, s[0]) {
      InsertEntrySorted(e, s[1..]);
      assert forall r | r in s[1..] :: r in s && s[0].row <= r.row;
    }
  }

  lemma {:induction false} InsertEntryForm(e: Entry, s: seq<Entry>, x: seq<real>)
    ensures Form(InsertEntry(e, s), x) == Form([e], x) + Form(s, x)
  {
    hide EntryValue;
    if s == [] || EntryBefore(e, s[0]) {
      FormConcat([e], s, x);
      assert s == [] ==> [e] + s == [e];
    } else {
      InsertEntryForm(e, s[1..], x);
      FormConcat([s[0]], InsertEntry(e, s[1..]), x);
      FormConcat([s[0]], s[1..], x);
      assert [s[0]] + s[1..] == s;
    }
  }

  lemma {:induction false} SortEntriesForm(s: seq<Entry>, x: seq<real>)
    ensures Form(SortEntries(s), x) == Form(s, x)
  {
    hide EntryValue;
    if s != [] {
      SortEntriesForm(s[1..], x);
      InsertEntryForm(s[0], SortEntries(s[1..]), x);
      FormConcat([s[0]], s[1..], x);
      assert [s[0]] + s[1..] == s;
    }
  }

  lemma {:induction false} SortEntriesSorted(s: seq<Entry>, n: int)
    requires EntriesBelow(s, n)
    ensures RowsSorted(SortEntries(s)) && |SortEntries(s)| == |s| && EntriesBelow(SortEntries(s), n)
  {
    if s != [] {
      var t := SortEntries(s[1..]);
      SortEntriesSorted(s[1..], n);
      InsertEntrySorted(s[0], t);
      forall k | 0 <= k < |SortEntries(s)|
        ensures 0 <= SortEntries(s)[k].row < n && 0 <= SortEntries(s)[k].col < n
      {
        var r := SortEntries(s)[k];
        assert r in InsertEntry(s[0], t);
      }
    }
  }

  // ---------------------------------------------------------------- partition into diagonal and cross entries

  datatype Kind = PosDiag | NegDiag | ZeroDiag | Cross

  function KindOf(e: Entry): Kind {
    if e.row != e.col then Cross
    else if e.value > 0.0 then PosDiag
    else if e.value < 0.0 then NegDiag
    else ZeroDiag
  }

  function Select(s: seq<Entry>, kind: Kind): seq<Entry> {
    if s == [] then []
    else
      var last := s[|s| - 1];
      Select(s[..|s| - 1], kind) + if KindOf(last) == kind then [last] else []
  }

  function RowsOf(s: seq<Entry>): seq<int> {
    seq(|s|, k requires 0 <= k < |s| => s[k].row)
  }

  predicate HasAdjacentRows(s: seq<Entry>) {
    exists k | 1 <= k < |s| :: s[k - 1].row == s[k].row
  }

  predicate Uniform(s: seq<Entry>) {
    forall k | 0 <= k < |s| :: s[k].value == s[0].value
  }

  datatype Parts = Parts(pos: seq<Entry>, neg: seq<Entry>, cross: seq<Entry>, zeroDiag: bool, dupRows: bool)

  ghost function PartsOf(s: seq<Entry>): Parts {
    Parts(Select(s, PosDiag), Select(s, NegDiag), Select(s, Cross), Select(s, ZeroDiag) != [], HasAdjacentRows(s))
  }

  method Partition(s: seq<Entry>) returns (p: Parts)
    ensures p == PartsOf(s)
    ensures p.pos == [] && p.cross == [] && !p.zeroDiag ==> |p.neg| == |s|
  {
    var pos, neg, cross: seq<Entry> := [], [], [];
    var zero, dup := false, false;
    for k := 0 to |s|
      invariant pos == Select(s[..k], PosDiag) && neg == Select(s[..k], NegDiag) && cross == Select(s[..k], Cross)
      invariant zero == (Select(s[..k], ZeroDiag) != [])
      invariant dup == HasAdjacentRows(s[..k])
      invariant pos == [] && cross == [] && !zero ==> |neg| == k
    {
      var e := s[k];
      assert s[..k + 1][..k] == s[..k];
      if k > 0 && s[k - 1].row == e.row {
        dup := true;
        assert s[..k + 1][k - 1].row == s[..k + 1][k].row;
      } else if HasAdjacentRows(s[..k]) {
        var i :| 1 <= i < k && s[i - 1].row == s[i].row;
        assert s[..k + 1][i - 1].row == s[..k + 1][i].row;
      }
      if e.row == e.col {
        if e.value > 0.0 {
          pos := pos + [e];
        } else if e.value < 0.0 {
          neg := neg + [e];
        } else {
          zero := true;
        }
      } else {
        cross := cross + [e];
      }
    }
    assert s[..|s|] == s;
    p := Parts(pos, neg, cross, zero, dup);
  }

  function PartsForm(s: seq<Entry>, x: seq<real>): real {
    Form(Select(s, PosDiag), x) + Form(Select(s, NegDiag), x) + Form(Select(s, Cross), x)
  }

  lemma {:induction false} SelectSnocForm(front: seq<Entry>, last: Entry, kind: Kind, x: seq<real>)
    ensures Form(Select(front + [last], kind), x) ==
            Form(Select(front, kind), x) + if KindOf(last) == kind then Form([last], x) else 0.0
  {
    hide KindOf, EntryValue;
    var s := front + [last];
    assert s[..|s| - 1] == front;
    assert Select(front, kind) + [] == Select(front, kind);
    if KindOf(last) == kind { FormConcat(Select(front, kind), [last], x); }
  }

  lemma {:induction false} PartsFormSnoc(front: seq<Entry>, last: Entry, x: seq<real>)
    ensures PartsForm(front + [last], x) == PartsForm(front, x) + Form([last], x)
  {
    hide Select, EntryValue, Form;
    SelectSnocForm(front, last, PosDiag, x);
    SelectSnocForm(front, last, NegDiag, x);
    SelectSnocForm(front, last, Cross, x);
    if KindOf(last) == ZeroDiag { ZeroForm(last, x); }
  }

  /** The quadratic form is the sum over its parts. */
  lemma {:induction false} FormByParts(s: seq<Entry>, x: seq<real>)
    ensures Form(s, x) == PartsForm(s, x)
  {
    if s != [] {
      hide PartsForm, EntryValue;
      var front, last := s[..|s| - 1], s[|s| - 1];
      FormByParts(front, x);
      assert s == front + [last];
      FormConcat(front, [last], x);
      PartsFormSnoc(front, last, x);
    }
  }

  predicate StrictRows(s: seq<Entry>) {
    forall k, l | 0 <= k < l < |s| :: s[k].row < s[l].row
  }

  lemma {:induction false} NoDuplicateRowsIsStrict(s: seq<Entry>)
    requires RowsSorted(s) && !HasAdjacentRows(s)
    ensures StrictRows(s)
  {
    forall k, l | 0 <= k < l < |s|
      ensures s[k].row < s[l].row
    {
      assert s[l - 1].row != s[l].row;
      assert s[k].row <= s[l - 1].row <= s[l].row;
    }
  }

  lemma {:induction false} SelectMembers(s: seq<Entry>, kind: Kind)
    ensures forall e | e in Select(s, kind) :: e in s && KindOf(e) == kind
  {
    if s != [] {
      hide KindOf;
      SelectMembers(s[..|s| - 1], kind);
    }
  }

  lemma {:induction false} SelectStrict(s: seq<Entry>, kind: Kind)
    requires StrictRows(s)
    ensures StrictRows(Select(s, kind))
  {
    if s != [] {
      hide KindOf;
      var front, last := s[..|s| - 1], s[|s| - 1];
      SelectStrict(front, kind);
      SelectMembers(front, kind);
      forall k | 0 <= k < |Select(front, kind)|
        ensures Select(front, kind)[k].row < last.row
      {
        var e := Select(front, kind)[k];
        assert e in Select(front, kind);
        var l :| 0 <= l < |s| - 1 && s[l] == e;
      }
    }
  }

  lemma {:induction false} SelectProperties(s: seq<Entry>, kind: Kind, n: int)
    requires StrictRows(s) && EntriesBelow(s, n)
    ensures StrictRows(Select(s, kind)) && EntriesBelow(Select(s, kind), n)
    ensures forall e | e in Select(s, kind) :: e in s && KindOf(e) == kind
  {
    SelectStrict(s, kind);
    SelectMembers(s, kind);
    forall k | 0 <= k < |Select(s, kind)|
      ensures 0 <= Select(s, kind)[k].row < n && 0 <= Select(s, kind)[k].col < n
    {
      assert Select(s, kind)[k] in Select(s, kind);
    }
  }

  /** A row of a strictly sorted list carries one kind of entry only. */
  lemma {:induction false} StrictRowsUnique(s: seq<Entry>, a: Entry, b: Entry)
    requires StrictRows(s) && a in s && b in s && a.row == b.row
    ensures a == b
  {
    var k :| 0 <= k < |s| && s[k] == a;
    var l :| 0 <= l < |s| && s[l] == b;
    assert !(k < l) && !(l < k);
  }

  lemma {:induction false} UniformDiagonal(s: seq<Entry>, c: real, x: seq<real>)
    requires forall k | 0 <= k < |s| :: s[k].row == s[k].col && s[k].value == c
    ensures Form(s, x) == c * SumSq(RowsOf(s), x)
  {
    if s != [] {
      UniformDiagonal(s[1..], c, x);
      assert RowsOf(s)[1..] == RowsOf(s[1..]);
      var v := At(x, s[0].row);
      assert c * v * v + c * SumSq(RowsOf(s[1..]), x) == c * (v * v + SumSq(RowsOf(s[1..]), x));
    }
  }

  lemma {:induction false} SumSqNonnegative(vars: seq<int>, x: seq<real>)
    ensures SumSq(vars, x) >= 0.0
  {
    if vars != [] {
      SumSqNonnegative(vars[1..], x);
      var v := At(x, vars[0]);
      assert v * v >= 0.0;
    }
  }

  // ---------------------------------------------------------------- implied lower bounds

  /** The best lower bound that singleton inequality rows put on column `j`. */
  function ImpliedLower(rows: seq<Row>, j: int): Ext {
    if rows == [] then NegInf
    else
      var front, row := rows[..|rows| - 1], rows[|rows| - 1];
      if |row.terms| == 1 && row.terms[0].col == j && row.terms[0].coef != 0.0
         && (if row.terms[0].coef > 0.0 then row.sense == AtLeast else row.sense == AtMost)
      then Max(ImpliedLower(front, j), Fin(row.rhs / row.terms[0].coef))
      else ImpliedLower(front, j)
  }

  /** A singleton row that bounds column `j` from below. */
  predicate BoundsBelow(row: Row, j: int) {
    && |row.terms| == 1 && row.terms[0].col == j
    && ((row.terms[0].coef > 0.0 && row.sense == AtLeast) || (row.terms[0].coef < 0.0 && row.sense == AtMost))
  }

  /** The implied bound is the greatest of the bounds that singleton rows state. */
  lemma {:induction false} ImpliedLowerBest(rows: seq<Row>, j: int)
    ensures forall i | 0 <= i < |rows| && BoundsBelow(rows[i], j) :: Le(Fin(rows[i].rhs / rows[i].terms[0].coef), ImpliedLower(rows, j))
    ensures ImpliedLower(rows, j) == NegInf
            || exists i :: 0 <= i < |rows| && BoundsBelow(rows[i], j) && ImpliedLower(rows, j) == Fin(rows[i].rhs / rows[i].terms[0].coef)
  {
    if rows != [] {
      var last := |rows| - 1;
      ImpliedLowerBest(rows[..last], j);
      if BoundsBelow(rows[last], j) {
        assert ImpliedLower(rows, j) == Max(ImpliedLower(rows[..last], j), Fin(rows[last].rhs / rows[last].terms[0].coef));
      }
    }
  }

  lemma {:induction false} ImpliedLowerValid(rows: seq<Row>, j: int, x: seq<real>)
    requires RowsOk(rows, x)
    ensures Le(ImpliedLower(rows, j), Fin(At(x, j)))
  {
    if rows != [] {
      var front, row := rows[..|rows| - 1], rows[|rows| - 1];
      assert forall i | 0 <= i < |front| :: front[i] == rows[i];
      ImpliedLowerValid(front, j, x);
      assert RowSat(row, x);
      if |row.terms| == 1 && row.terms[0].col == j && row.terms[0].coef != 0.0 {
        var a, v := row.terms[0].coef, At(x, j);
        assert row.terms[1..] == [];
        assert Dot(row.terms, x) == a * v;
        if a > 0.0 && row.sense == AtLeast {
          DivideBound(row.rhs, a, v);
        } else if a < 0.0 && row.sense == AtMost {
          assert (-a) * v >= -row.rhs;
          DivideBound(-row.rhs, -a, v);
          assert (-row.rhs) / (-a) == row.rhs / a;
        }
      }
    }
  }

  lemma {:induction false} DivideBound(b: real, a: real, v: real)
    requires a > 0.0 && a * v >= b
    ensures b / a <= v
  {
    var q := b / a;
    assert q * a == b;
    if q > v { assert (q - v) * a > 0.0; }
  }

  method ImpliedLowers(n: nat, rows: seq<Row>) returns (implied: seq<Ext>)
    requires forall i | 0 <= i < |rows| :: TermsBelow(rows[i].terms, n)
    ensures |implied| == n && forall j | 0 <= j < n :: implied[j] == ImpliedLower(rows, j)
  {
    implied := seq(n, _ => NegInf);
    for i := 0 to |rows|
      invariant |implied| == n && forall j | 0 <= j < n :: implied[j] == ImpliedLower(rows[..i], j)
    {
      assert rows[..i + 1][..i] == rows[..i];
      var row := rows[i];
      if |row.terms| != 1 { continue; }
      var j, a, b := row.terms[0].col, row.terms[0].coef, row.rhs;
      if a == 0.0 { continue; }
      var bound := b / a;
      if row.sense == AtLeast && a > 0.0 {
        implied := implied[j := Max(implied[j], Fin(bound))];
      } else if row.sense == AtMost && a < 0.0 {
        implied := implied[j := Max(implied[j], Fin(bound))];
      }
    }
    assert rows[..|rows|] == rows;
  }

  // ---------------------------------------------------------------- deciding the shape

  predicate UseGeneralPath(p: Parts, rhs: real, hasLinear: bool) {
    || p.dupRows
    || p.zeroDiag
    || rhs != 0.0
    || !Uniform(p.pos)
    || |p.cross| > 1
    || (|p.cross| == 1 && !(!hasLinear && p.neg == [] && p.cross[0].row != p.cross[0].col && -p.cross[0].value / 2.0 > 0.0))
    || |p.neg| > 1
    || (p.neg != [] && hasLinear)
    || (p.neg != [] && p.cross != [])
  }

  /** `lowers[j]` is the better of the explicit and the implied lower bound of column `j`. */
  predicate HeadNonnegative(lowers: seq<Ext>, j: int) {
    0 <= j < |lowers| && Le(Fin(0.0), lowers[j])
  }

  function Decide(p: Parts, nnz: int, rhs: real, hasLinear: bool, lowers: seq<Ext>, sqrt: real -> real): Shape {
    if UseGeneralPath(p, rhs, hasLinear) then General
    else if p.cross == [] then
      if !hasLinear then
        if p.pos == [] then
          if |p.neg| == 1 && nnz == 1 then Tailless(p.neg[0].row) else Rejected(HeadCount)
        else if |p.neg| != 1 then Rejected(HeadCount)
        else if p.neg[0].value != -p.pos[0].value then Rejected(HeadScale)
        else if !HeadNonnegative(lowers, p.neg[0].row) then Rejected(HeadSign)
        else Diagonal(p.neg[0].row, RowsOf(p.pos))
      else if p.pos == [] then Rejected(NoScale)
      else Affine(RowsOf(p.pos), p.pos[0].value)
    else if p.pos == [] || p.pos[0].value <= 0.0 then Rejected(NoScale)
    else if !HeadNonnegative(lowers, p.cross[0].row) || !HeadNonnegative(lowers, p.cross[0].col) then Rejected(HeadSign)
    else Rotated(p.cross[0].row, p.cross[0].col, RowsOf(p.pos), sqrt((-p.cross[0].value / 2.0) / p.pos[0].value))
  }

  /** Arguments of a quadratic row over `n` columns that can be translated at all. */
  ghost predicate ArgumentsValid(qc: QuadraticConstraint, n: int) {
    && qc.rowType in "LG"
    && |qc.linearIndices| == |qc.linearValues|
    && |qc.rows| == |qc.cols| == |qc.vals| >= 1
    && EntriesBelow(Entries(qc), n) && TermsBelow(LinearTerms(qc), n)
    && (qc.linearValues != [] ==> exists k | 0 <= k < |qc.linearValues| :: qc.linearValues[k] != 0.0)
  }

  lemma {:induction false} IndicesInRange(qc: QuadraticConstraint, n: int)
    ensures |qc.linearIndices| == |qc.linearValues| ==>
              (TermsBelow(LinearTerms(qc), n) <==> forall k | 0 <= k < |qc.linearIndices| :: 0 <= qc.linearIndices[k] < n)
    ensures |qc.rows| == |qc.cols| == |qc.vals| ==>
              (EntriesBelow(Entries(qc), n) <==> forall k | 0 <= k < |qc.vals| :: 0 <= qc.rows[k] < n && 0 <= qc.cols[k] < n)
  {
    if |qc.linearIndices| == |qc.linearValues| {
      assert forall k | 0 <= k < |qc.linearIndices| :: LinearTerms(qc)[k].col == qc.linearIndices[k];
    }
    if |qc.rows| == |qc.cols| == |qc.vals| {
      assert forall k | 0 <= k < |qc.vals| :: Entries(qc)[k].row == qc.rows[k] && Entries(qc)[k].col == qc.cols[k];
    }
  }

  /** The argument checks that come before the shape is looked at. */
  function InvalidReason(qc: QuadraticConstraint, n: int): (r: seq<Reason>)
    ensures r == [] <==> ArgumentsValid(qc, n)
  {
    IndicesInRange(qc, n);
    if qc.rowType == 'E' then [EqualityRow]
    else if qc.rowType !in "LG" then [UnknownRowType]
    else if |qc.linearValues| != |qc.linearIndices| then [LinearLengthMismatch]
    else if |qc.rows| != |qc.vals| || |qc.cols| != |qc.vals| then [QLengthMismatch]
    else if |qc.vals| < 1 then [EmptyQ]
    else if exists k | 0 <= k < |qc.linearIndices| :: !(0 <= qc.linearIndices[k] < n) then [LinearIndexOutside]
    else if qc.linearValues != [] && forall k | 0 <= k < |qc.linearValues| :: qc.linearValues[k] == 0.0 then [ZeroLinearPart]
    else if exists k | 0 <= k < |qc.vals| :: !(0 <= qc.rows[k] < n && 0 <= qc.cols[k] < n) then [QIndexOutside]
    else []
  }

  ghost function ShapeOf(qc: QuadraticConstraint, n: int, lowers: seq<Ext>, sqrt: real -> real): Shape {
    if InvalidReason(qc, n) != [] then Rejected(InvalidReason(qc, n)[0])
    else
      var q := Normalized(qc);
      Decide(PartsOf(SortEntries(Entries(q))), |q.vals|, q.rhs, q.linearValues != [], lowers, sqrt)
  }

  /** The constraint a recognised row is replaced by; `head` is the column reserved for an affine head. */
  function ShapeCon(s: Shape, qc: QuadraticConstraint, head: int): Con {
    match s
    case Tailless(h) => Cone([h])
    case Diagonal(h, tails) => Cone([h] + tails)
    case Affine(tails, scale) => PendingAffine(head, tails, scale, LinearTerms(Normalized(qc)))
    case Rotated(a, b, tails, ratio) => TwoHeads(a, b, tails, ratio)
    case _ => Quadratic(qc)
  }

  ghost predicate IsSqrt(sqrt: real -> real) {
    forall v: real | v >= 0.0 :: sqrt(v) >= 0.0 && sqrt(v) * sqrt(v) == v
  }

  lemma {:induction false} DiagonalExact(s: real, q: real, h: real)
    requires s > 0.0
    ensures s * q - s * h * h <= 0.0 <==> q <= h * h
  {
    var e := q - h * h;
    assert s * q - s * h * h == s * e;
    if e > 0.0 { assert s * e > 0.0; }
    if e <= 0.0 { assert s * e <= 0.0; }
  }

  lemma {:induction false} RotatedExact(s: real, d: real, r: real, q: real, a: real, b: real)
    requires s > 0.0 && r * r == d / s
    ensures s * q + (-2.0 * d) * a * b <= 0.0 <==> q <= 2.0 * (r * a) * (r * b)
  {
    var w := a * b;
    assert (r * a) * (r * b) == (r * r) * w;
    var k := d / s;
    assert d == k * s;
    assert (-2.0 * d) * a * b == -2.0 * (k * s) * w;
    assert (k * s) * w == s * (k * w);
    var e := q - 2.0 * (k * w);
    assert s * q + (-2.0 * d) * a * b == s * e;
    if e > 0.0 { assert s * e > 0.0; }
    if e <= 0.0 { assert s * e <= 0.0; }
  }

  lemma {:induction false} NegativeSquare(s: real, h: real)
    requires s > 0.0
    ensures -s * h * h <= 0.0
  {
    assert h * h >= 0.0;
    assert -s * h * h == -(s * (h * h));
  }

  lemma {:induction false} SingletonForm(e: Entry, x: seq<real>)
    ensures Form([e], x) == e.value * At(x, e.row) * At(x, e.col)
  {
  }

  ghost predicate PartsValid(p: Parts, n: int) {
    && StrictRows(p.pos) && EntriesBelow(p.pos, n) && EntriesBelow(p.neg, n) && EntriesBelow(p.cross, n)
    && (forall k | 0 <= k < |p.pos| :: KindOf(p.pos[k]) == PosDiag)
    && (forall k | 0 <= k < |p.neg| :: KindOf(p.neg[k]) == NegDiag)
    && (forall k | 0 <= k < |p.cross| :: KindOf(p.cross[k]) == Cross)
    && (forall k, l | 0 <= k < |p.pos| && 0 <= l < |p.neg| :: p.pos[k].row != p.neg[l].row)
  }

  ghost function PartsOfRow(qc: QuadraticConstraint): Parts {
    PartsOf(SortEntries(Entries(Normalized(qc))))
  }

  /** What the parts of a duplicate-free row look like. */
  lemma {:induction false} PartsOfValid(qc: QuadraticConstraint, n: int)
    requires InvalidReason(qc, n) == [] && !PartsOfRow(qc).dupRows
    ensures PartsValid(PartsOfRow(qc), n)
  {
    var q := Normalized(qc);
    forall k | 0 <= k < |Entries(q)|
      ensures 0 <= Entries(q)[k].row < n && 0 <= Entries(q)[k].col < n
    {
      assert Entries(q)[k].row == Entries(qc)[k].row && Entries(q)[k].col == Entries(qc)[k].col;
    }
    var es := SortEntries(Entries(q));
    SortEntriesSorted(Entries(q), n);
    NoDuplicateRowsIsStrict(es);
    SelectProperties(es, PosDiag, n);
    SelectProperties(es, NegDiag, n);
    SelectProperties(es, Cross, n);
    var p := PartsOf(es);
    forall k, l | 0 <= k < |p.pos| && 0 <= l < |p.neg|
      ensures p.pos[k].row != p.neg[l].row
    {
      assert p.pos[k] in p.pos && p.neg[l] in p.neg;
      if p.pos[k].row == p.neg[l].row { StrictRowsUnique(es, p.pos[k], p.neg[l]); }
    }
  }

  lemma {:induction false} TaillessForm(e: Entry, x: seq<real>)
    requires KindOf(e) == NegDiag
    ensures Form([e], x) <= 0.0
    ensures At(x, e.row) >= 0.0 ==> InCone([e.row], x)
  {
    hide At;
    SingletonForm(e, x);
    NegativeSquare(-e.value, At(x, e.row));
    assert [e.row][1..] == [];
    assert At(x, e.row) * At(x, e.row) >= 0.0;
  }

  lemma {:induction false} DiagonalForm(pos: seq<Entry>, e: Entry, x: seq<real>)
    requires pos != [] && Uniform(pos) && (forall k | 0 <= k < |pos| :: KindOf(pos[k]) == PosDiag)
    requires KindOf(e) == NegDiag && e.value == -pos[0].value && At(x, e.row) >= 0.0
    ensures Form(pos, x) + Form([e], x) <= 0.0 <==> InCone([e.row] + RowsOf(pos), x)
  {
    hide At, SumSq, Form, RowsOf;
    UniformDiagonal(pos, pos[0].value, x);
    SingletonForm(e, x);
    DiagonalExact(pos[0].value, SumSq(RowsOf(pos), x), At(x, e.row));
    assert ([e.row] + RowsOf(pos))[1..] == RowsOf(pos);
  }

  lemma {:induction false} RotatedForm(pos: seq<Entry>, e: Entry, ratio: real, x: seq<real>)
    requires pos != [] && Uniform(pos) && (forall k | 0 <= k < |pos| :: KindOf(pos[k]) == PosDiag)
    requires pos[0].value > 0.0 && ratio * ratio == (-e.value / 2.0) / pos[0].value
    ensures Form(pos, x) + Form([e], x) <= 0.0 <==> ConSat(TwoHeads(e.row, e.col, RowsOf(pos), ratio), x)
  {
    hide At, SumSq, Form, RowsOf;
    UniformDiagonal(pos, pos[0].value, x);
    SingletonForm(e, x);
    RotatedExact(pos[0].value, -e.value / 2.0, ratio, SumSq(RowsOf(pos), x), At(x, e.row), At(x, e.col));
  }

  /** The decision is exact for any parts of the stated kinds. */
  lemma {:induction false} DecideExact(p: Parts, n: int, nnz: int, lowers: seq<Ext>, sqrt: real -> real,
                                       qc: QuadraticConstraint, head: int, x: seq<real>)
    requires PartsValid(p, n) && IsSqrt(sqrt)
    requires forall j | 0 <= j < |lowers| :: Le(lowers[j], Fin(At(x, j)))
    requires var s := Decide(p, nnz, 0.0, false, lowers, sqrt); s.Tailless? ==> HeadNonnegative(lowers, s.head)
    ensures var s := Decide(p, nnz, 0.0, false, lowers, sqrt);
            s.Tailless? || s.Diagonal? || s.Rotated? ==>
              (Form(p.pos, x) + Form(p.neg, x) + Form(p.cross, x) <= 0.0 <==> ConSat(ShapeCon(s, qc, head), x))
  {
    hide RowsOf, At, Form, InCone, ConSat;
    var shape := Decide(p, nnz, 0.0, false, lowers, sqrt);
    FormEmpty(x);
    match shape
    case Tailless(h) =>
      assert p.neg == [p.neg[0]];
      TaillessForm(p.neg[0], x);
      ConeSat([h], x);
    case Diagonal(h, tails) =>
      assert p.neg == [p.neg[0]];
      DiagonalForm(p.pos, p.neg[0], x);
      ConeSat([h] + tails, x);
    case Rotated(a, b, tails, ratio) =>
      assert p.cross == [p.cross[0]];
      assert (-p.cross[0].value / 2.0) / p.pos[0].value >= 0.0;
      RotatedForm(p.pos, p.cross[0], ratio, x);
    case _ =>
  }

  lemma {:induction false} FormEmpty(x: seq<real>)
    ensures Form([], x) == 0.0
  {
  }

  lemma {:induction false} ConeSat(vars: seq<int>, x: seq<real>)
    ensures ConSat(Cone(vars), x) <==> InCone(vars, x)
  {
  }

  lemma {:induction false} AffineExact(p: Parts, n: int, nnz: int, lowers: seq<Ext>, sqrt: real -> real, linear: seq<Term>, head: int, x: seq<real>)
    requires PartsValid(p, n)
    ensures var s := Decide(p, nnz, 0.0, true, lowers, sqrt);
            s.Affine? ==>
              (Form(p.pos, x) + Form(p.neg, x) + Form(p.cross, x) + Dot(linear, x) <= 0.0 <==>
               ConSat(PendingAffine(head, s.tails, s.scale, linear), x))
  {
    var s := Decide(p, nnz, 0.0, true, lowers, sqrt);
    if s.Affine? {
      UniformDiagonal(p.pos, s.scale, x);
      assert p.neg == [] && p.cross == [];
    }
  }

  lemma {:induction false} RowByParts(qc: QuadraticConstraint, x: seq<real>)
    requires qc.rowType in "LG" && Normalized(qc).rhs == 0.0
    ensures var p := PartsOfRow(qc);
            QuadraticSat(qc, x) <==>
            Form(p.pos, x) + Form(p.neg, x) + Form(p.cross, x) + Dot(LinearTerms(Normalized(qc)), x) <= 0.0
  {
    NormalizedSat(qc, x);
    SortEntriesForm(Entries(Normalized(qc)), x);
    FormByParts(SortEntries(Entries(Normalized(qc))), x);
  }

  /** A recognised shape has right-hand side zero, and an affine head exactly when there is a linear part. */
  lemma {:induction false} DecideFacts(p: Parts, nnz: int, rhs: real, hasLinear: bool, lowers: seq<Ext>, sqrt: real -> real)
    ensures var s := Decide(p, nnz, rhs, hasLinear, lowers, sqrt);
            !s.Rejected? && !s.General? ==> rhs == 0.0 && !p.dupRows && (s.Affine? <==> hasLinear)
  {
  }

  lemma {:induction false} NoLinearPart(qc: QuadraticConstraint, x: seq<real>)
    requires Normalized(qc).linearValues == []
    ensures Dot(LinearTerms(Normalized(qc)), x) == 0.0
  {
    assert LinearTerms(Normalized(qc)) == [];
  }

  lemma {:induction false} RecognisedExact(p: Parts, n: int, nnz: int, hasLinear: bool, linear: seq<Term>, lowers: seq<Ext>,
                        sqrt: real -> real, qc: QuadraticConstraint, head: int, x: seq<real>, sat: bool)
    requires PartsValid(p, n) && IsSqrt(sqrt)
    requires forall j | 0 <= j < |lowers| :: Le(lowers[j], Fin(At(x, j)))
    requires linear == LinearTerms(Normalized(qc)) && (!hasLinear ==> Dot(linear, x) == 0.0)
    requires sat <==> Form(p.pos, x) + Form(p.neg, x) + Form(p.cross, x) + Dot(linear, x) <= 0.0
    requires var s := Decide(p, nnz, 0.0, hasLinear, lowers, sqrt);
             !s.Rejected? && !s.General? && (s.Tailless? ==> HeadNonnegative(lowers, s.head))
    ensures sat <==> ConSat(ShapeCon(Decide(p, nnz, 0.0, hasLinear, lowers, sqrt), qc, head), x)
  {
    DecideFacts(p, nnz, 0.0, hasLinear, lowers, sqrt);
    if hasLinear {
      AffineExact(p, n, nnz, lowers, sqrt, linear, head, x);
    } else {
      DecideExact(p, n, nnz, lowers, sqrt, qc, head, x);
    }
  }

  /** A recognised row says the same as the constraint that replaces it, on points obeying the head bounds. */
  lemma {:induction false} ShapeExact(qc: QuadraticConstraint, n: int, lowers: seq<Ext>, sqrt: real -> real, head: int, x: seq<real>)
    requires IsSqrt(sqrt) && |lowers| == n
    requires forall j | 0 <= j < n :: Le(lowers[j], Fin(At(x, j)))
    requires var s := ShapeOf(qc, n, lowers, sqrt); s.Tailless? ==> HeadNonnegative(lowers, s.head)
    ensures QuadraticSat(qc, x) <==> ConSat(ShapeCon(ShapeOf(qc, n, lowers, sqrt), qc, head), x)
  {
    hide Form, Dot, Select, SortEntries, Entries, At;
    var shape := ShapeOf(qc, n, lowers, sqrt);
    if shape.Rejected? || shape.General? { return; }
    var q, p := Normalized(qc), PartsOfRow(qc);
    var hasLinear := q.linearValues != [];
    DecideFacts(p, |q.vals|, q.rhs, hasLinear, lowers, sqrt);
    PartsOfValid(qc, n);
    RowByParts(qc, x);
    if !hasLinear { NoLinearPart(qc, x); }
    RecognisedExact(p, n, |q.vals|, hasLinear, LinearTerms(q), lowers, sqrt, qc, head, x, QuadraticSat(qc, x));
  }

  predicate Injective(s: seq<int>) {
    forall k, l | 0 <= k < l < |s| :: s[k] != s[l]
  }

  /** The columns of a recognised row are columns of the model, and a cone repeats none of them. */
  predicate ShapeInRange(s: Shape, n: int) {
    match s
    case Tailless(h) => 0 <= h < n
    case Diagonal(h, tails) => ColsBelow([h] + tails, n) && Injective([h] + tails)
    case Affine(tails, scale) => ColsBelow(tails, n) && Injective(tails) && scale > 0.0
    case Rotated(a, b, tails, ratio) =>
      0 <= a < n && 0 <= b < n && ColsBelow(tails, n) && Injective(tails) && ratio >= 0.0
    case _ => true
  }

  lemma {:induction false} DecideColumns(p: Parts, n: int, nnz: int, rhs: real, hasLinear: bool, lowers: seq<Ext>, sqrt: real -> real)
    requires IsSqrt(sqrt) && PartsValid(p, n)
    ensures var s := Decide(p, nnz, rhs, hasLinear, lowers, sqrt);
            && ShapeInRange(s, n)
            && (s.Rotated? ==> HeadNonnegative(lowers, s.head0) && HeadNonnegative(lowers, s.head1))
  {
    var shape := Decide(p, nnz, rhs, hasLinear, lowers, sqrt);
    assert Injective(RowsOf(p.pos)) && ColsBelow(RowsOf(p.pos), n);
    if shape.Rotated? {
      assert (-p.cross[0].value / 2.0) / p.pos[0].value >= 0.0;
    }
  }

  lemma {:induction false} ShapeColumns(qc: QuadraticConstraint, n: int, lowers: seq<Ext>, sqrt: real -> real)
    requires IsSqrt(sqrt)
    ensures var s := ShapeOf(qc, n, lowers, sqrt);
            && ShapeInRange(s, n)
            && (s.Affine? ==> qc.linearValues != [])
            && (s.Rotated? ==> HeadNonnegative(lowers, s.head0) && HeadNonnegative(lowers, s.head1))
  {
    var shape := ShapeOf(qc, n, lowers, sqrt);
    if shape.Rejected? || shape.General? { return; }
    var q, p := Normalized(qc), PartsOfRow(qc);
    DecideFacts(p, |q.vals|, q.rhs, q.linearValues != [], lowers, sqrt);
    PartsOfValid(qc, n);
    DecideColumns(p, n, |q.vals|, q.rhs, q.linearValues != [], lowers, sqrt);
  }
}
