/**
 * Which quadratic rows are recognised, read off their coordinates: the shape of a row is characterised by its
 * entries, its right-hand side and the bounds of its heads alone.
 */
module SocShapes {
  import opened Extended
  import opened ConicModel
  import opened SocClassify

  // ---------------------------------------------------------------- rows in coordinates

  predicate DistinctRows(es: seq<Entry>) {
    forall k, l | 0 <= k < l < |es| :: es[k].row != es[l].row
  }

  /** Every entry but the one at `odd` is a square with coefficient `s`. */
  predicate SquaresElsewhere(es: seq<Entry>, s: real, odd: int) {
    forall k | 0 <= k < |es| && k != odd :: es[k].row == es[k].col && es[k].value == s
  }

  /** Squares of one positive scale, and at most one other entry, which is negative; -1 stands for none. */
  predicate OneScale(es: seq<Entry>, s: real, odd: int) {
    s > 0.0 && -1 <= odd < |es| && SquaresElsewhere(es, s, odd) && (odd >= 0 ==> es[odd].value < 0.0)
  }

  /** The rows that do not take the general path. */
  ghost predicate Special(es: seq<Entry>, rhs: real, hasLinear: bool) {
    rhs == 0.0 && DistinctRows(es) && exists s, odd :: OneScale(es, s, odd) && (hasLinear ==> odd == -1)
  }

  /** The increasing list of the rows of all entries but the one at `odd`. */
  ghost predicate AreTails(tails: seq<int>, es: seq<Entry>, odd: int) {
    && (forall k, l | 0 <= k < l < |tails| :: tails[k] < tails[l])
    && forall c :: c in tails <==> exists k :: 0 <= k < |es| && k != odd && es[k].row == c
  }

  /** -s head² + s |tails|²: at least one tail, the entry at `odd` is the square of the head. */
  predicate LorentzRow(es: seq<Entry>, s: real, odd: int, head: int) {
    |es| >= 2 && 0 <= odd && OneScale(es, s, odd) && es[odd] == Entry(head, head, -s)
  }

  /** -2d a b + s |tails|²: at least one tail, the entry at `odd` is the cross term of the heads. */
  predicate RotatedRow(es: seq<Entry>, s: real, odd: int, a: int, b: int, d: real) {
    |es| >= 2 && 0 <= odd && OneScale(es, s, odd) && a != b && es[odd] == Entry(a, b, -2.0 * d)
  }

  ghost predicate LorentzWith(es: seq<Entry>, head: int, tails: seq<int>) {
    exists s, odd :: LorentzRow(es, s, odd, head) && AreTails(tails, es, odd)
  }

  ghost predicate RotatedWith(es: seq<Entry>, a: int, b: int, tails: seq<int>, ratio: real) {
    ratio >= 0.0 && exists s, odd, d :: RotatedRow(es, s, odd, a, b, d) && ratio * ratio == d / s && AreTails(tails, es, odd)
  }

  /** A negative square beside positive ones of another scale. */
  ghost predicate HeadMisscaled(es: seq<Entry>) {
    |es| >= 2 && exists s, odd :: OneScale(es, s, odd) && 0 <= odd && es[odd].row == es[odd].col && es[odd].value != -s
  }

  /** A cone in shape, with a head whose lower bound is negative. */
  ghost predicate HeadUnbounded(es: seq<Entry>, lowers: seq<Ext>) {
    || (exists s, odd, head :: LorentzRow(es, s, odd, head) && !HeadNonnegative(lowers, head))
    || (exists s, odd, a, b, d :: RotatedRow(es, s, odd, a, b, d) && !(HeadNonnegative(lowers, a) && HeadNonnegative(lowers, b)))
  }

  /** What a shape says about the coordinates of its row. */
  ghost predicate ShapeFits(shape: Shape, es: seq<Entry>, rhs: real, hasLinear: bool, lowers: seq<Ext>) {
    match shape
    case General => !Special(es, rhs, hasLinear)
    case Affine(tails, scale) =>
      rhs == 0.0 && DistinctRows(es) && hasLinear && OneScale(es, scale, -1) && AreTails(tails, es, -1)
    case Tailless(head) =>
      rhs == 0.0 && !hasLinear && |es| == 1 && es[0].row == es[0].col == head && es[0].value < 0.0
    case Diagonal(head, tails) =>
      rhs == 0.0 && DistinctRows(es) && !hasLinear && LorentzWith(es, head, tails) && HeadNonnegative(lowers, head)
    case Rotated(a, b, tails, ratio) =>
      && rhs == 0.0 && DistinctRows(es) && !hasLinear && RotatedWith(es, a, b, tails, ratio)
      && HeadNonnegative(lowers, a) && HeadNonnegative(lowers, b)
    case Rejected(reason) => rhs == 0.0 && DistinctRows(es) && !hasLinear && Refused(es, reason, lowers)
  }

  /** Why a row without a linear part that does not take the general path is refused. */
  ghost predicate Refused(es: seq<Entry>, reason: Reason, lowers: seq<Ext>) {
    match reason
    case HeadCount => exists s :: OneScale(es, s, -1)
    case HeadScale => HeadMisscaled(es)
    case HeadSign => HeadUnbounded(es, lowers)
    case NoScale => |es| == 1 && es[0].row != es[0].col && es[0].value < 0.0
    case _ => false
  }

  // ---------------------------------------------------------------- sorting and partition keep the entries

  lemma {:induction false} InsertEntryMembers(e: Entry, s: seq<Entry>)
    ensures forall r :: r in InsertEntry(e, s) <==> r == e || r in s
  {
    if s != [] && !EntryBefore(e, s[0]) {
      InsertEntryMembers(e, s[1..]);
      assert s == [s[0]] + s[1..];
    }
  }

  lemma {:induction false} SortEntriesMembers(s: seq<Entry>)
    ensures forall r :: r in SortEntries(s) <==> r in s
  {
    if s != [] {
      SortEntriesMembers(s[1..]);
      InsertEntryMembers(s[0], SortEntries(s[1..]));
      assert s == [s[0]] + s[1..];
    }
  }

  predicate RowAbsent(row: int, s: seq<Entry>) {
    forall r | r in s :: r.row != row
  }

  lemma {:induction false} DistinctCons(e: Entry, s: seq<Entry>)
    ensures DistinctRows([e] + s) <==> DistinctRows(s) && RowAbsent(e.row, s)
  {
    var t := [e] + s;
    if DistinctRows(t) {
      forall k, l | 0 <= k < l < |s| ensures s[k].row != s[l].row {
        assert t[k + 1].row != t[l + 1].row;
      }
      forall r | r in s ensures r.row != e.row {
        var k :| 0 <= k < |s| && s[k] == r;
        assert t[0].row != t[k + 1].row;
      }
    }
    if DistinctRows(s) && RowAbsent(e.row, s) {
      forall k, l | 0 <= k < l < |t| ensures t[k].row != t[l].row {
        assert t[l] == s[l - 1] && s[l - 1] in s;
      }
    }
  }

  lemma {:induction false} InsertEntryDistinct(e: Entry, s: seq<Entry>)
    ensures DistinctRows(InsertEntry(e, s)) <==> DistinctRows(s) && RowAbsent(e.row, s)
  {
    hide DistinctRows, EntryBefore;
    if s == [] || EntryBefore(e, s[0]) {
      DistinctCons(e, s);
      assert s == [] ==> [e] + s == [e];
    } else {
      var rest := s[1..];
      assert s == [s[0]] + rest;
      InsertEntryDistinct(e, rest);
      DistinctCons(s[0], InsertEntry(e, rest));
      DistinctCons(s[0], rest);
      InsertEntryMembers(e, rest);
      assert RowAbsent(s[0].row, InsertEntry(e, rest)) <==> s[0].row != e.row && RowAbsent(s[0].row, rest);
    }
  }

  lemma {:induction false} SortEntriesDistinct(s: seq<Entry>)
    ensures DistinctRows(SortEntries(s)) <==> DistinctRows(s)
  {
    hide DistinctRows;
    if s != [] {
      var rest := s[1..];
      assert s == [s[0]] + rest;
      SortEntriesDistinct(rest);
      SortEntriesMembers(rest);
      InsertEntryDistinct(s[0], SortEntries(rest));
      DistinctCons(s[0], rest);
    }
  }

  /** In a sorted list equal rows are neighbours. */
  lemma {:induction false} AdjacentIffRepeated(s: seq<Entry>)
    requires RowsSorted(s)
    ensures HasAdjacentRows(s) <==> !DistinctRows(s)
  {
    if !HasAdjacentRows(s) { NoDuplicateRowsIsStrict(s); }
  }

  lemma {:induction false} SelectAll(s: seq<Entry>, kind: Kind)
    ensures forall e :: e in Select(s, kind) <==> e in s && KindOf(e) == kind
  {
    if s != [] {
      hide KindOf;
      SelectAll(s[..|s| - 1], kind);
      assert s == s[..|s| - 1] + [s[|s| - 1]];
    }
  }

  ghost predicate Holds(part: seq<Entry>, es: seq<Entry>, kind: Kind) {
    forall e :: e in part <==> e in es && KindOf(e) == kind
  }

  /** The parts of a row: which entries each one holds, in increasing order of rows when no row repeats. */
  ghost predicate PartsAre(p: Parts, es: seq<Entry>) {
    && Holds(p.pos, es, PosDiag) && Holds(p.neg, es, NegDiag) && Holds(p.cross, es, Cross)
    && (p.zeroDiag <==> exists e :: e in es && KindOf(e) == ZeroDiag)
    && (p.dupRows <==> !DistinctRows(es))
    && (DistinctRows(es) ==> StrictRows(p.pos) && StrictRows(p.neg) && StrictRows(p.cross))
  }

  lemma {:induction false} PartHolds(es: seq<Entry>, kind: Kind)
    ensures Holds(Select(SortEntries(es), kind), es, kind)
  {
    hide KindOf;
    SortEntriesMembers(es);
    SelectAll(SortEntries(es), kind);
  }

  lemma {:induction false} PartsOfEntries(es: seq<Entry>, n: int)
    requires EntriesBelow(es, n)
    ensures PartsAre(PartsOf(SortEntries(es)), es)
  {
    hide KindOf, SortEntries, Select, StrictRows, DistinctRows, HasAdjacentRows, RowsSorted, Holds;
    var t := SortEntries(es);
    PartHolds(es, PosDiag);
    PartHolds(es, NegDiag);
    PartHolds(es, Cross);
    ZeroHolds(es);
    SortEntriesSorted(es, n);
    SortEntriesDistinct(es);
    AdjacentIffRepeated(t);
    if DistinctRows(es) {
      NoDuplicateRowsIsStrict(t);
      SelectStrict(t, PosDiag);
      SelectStrict(t, NegDiag);
      SelectStrict(t, Cross);
    }
  }

  lemma {:induction false} ZeroHolds(es: seq<Entry>)
    ensures Select(SortEntries(es), ZeroDiag) != [] <==> exists e :: e in es && KindOf(e) == ZeroDiag
  {
    hide KindOf, SortEntries, Select;
    PartHolds(es, ZeroDiag);
    var z := Select(SortEntries(es), ZeroDiag);
    if z != [] { assert z[0] in z; }
  }

  // ---------------------------------------------------------------- the parts of a special row

  /** The list with the one entry that is not a positive square, if there is one of the kind. */
  function OddPart(es: seq<Entry>, odd: int, square: bool): seq<Entry> {
    if 0 <= odd < |es| && (es[odd].row == es[odd].col) == square then [es[odd]] else []
  }

  lemma {:induction false} OneMember(part: seq<Entry>, e: Entry)
    requires StrictRows(part) && forall r :: r in part <==> r == e
    ensures part == [e]
  {
    assert e in part;
    assert |part| > 1 ==> part[0] in part && part[1] in part;
    assert |part| > 1 ==> part[0].row < part[1].row;
  }

  lemma {:induction false} EmptyOrMember(part: seq<Entry>)
    ensures part == [] || exists r :: r in part
  {
    if part != [] { assert part[0] in part; }
  }

  lemma {:induction false} OddKinds(es: seq<Entry>, s: real, odd: int, e: Entry)
    requires OneScale(es, s, odd) && e in es
    ensures KindOf(e) == PosDiag || (0 <= odd && e == es[odd] && KindOf(e) == if e.row == e.col then NegDiag else Cross)
    ensures KindOf(e) == PosDiag ==> e.value == s && !(0 <= odd && e == es[odd])
    ensures odd < |es|
  {
    var k :| 0 <= k < |es| && es[k] == e;
  }

  lemma {:induction false} OddParts(p: Parts, es: seq<Entry>, s: real, odd: int)
    requires PartsAre(p, es) && DistinctRows(es) && OneScale(es, s, odd)
    ensures !p.dupRows && !p.zeroDiag
    ensures p.neg == OddPart(es, odd, true) && p.cross == OddPart(es, odd, false)
  {
    hide KindOf, DistinctRows, StrictRows, OneScale;
    forall e | e in es
      ensures KindOf(e) != ZeroDiag
      ensures KindOf(e) == NegDiag <==> e in OddPart(es, odd, true)
      ensures KindOf(e) == Cross <==> e in OddPart(es, odd, false)
    {
      OddKinds(es, s, odd, e);
    }
    OddList(p.neg, es, odd, true);
    OddList(p.cross, es, odd, false);
  }

  lemma {:induction false} OddList(part: seq<Entry>, es: seq<Entry>, odd: int, square: bool)
    requires StrictRows(part) && forall e :: e in part <==> e in es && e in OddPart(es, odd, square)
    ensures part == OddPart(es, odd, square)
  {
    var o := OddPart(es, odd, square);
    if o != [] {
      OneMember(part, o[0]);
    } else {
      EmptyOrMember(part);
    }
  }

  lemma {:induction false} TailAt(pos: seq<Entry>, es: seq<Entry>, s: real, odd: int, k: int)
    requires Holds(pos, es, PosDiag) && OneScale(es, s, odd) && 0 <= k < |es| && k != odd
    ensures es[k] in pos && es[k].row in RowsOf(pos)
  {
    assert es[k] in es && KindOf(es[k]) == PosDiag;
    var l :| 0 <= l < |pos| && pos[l] == es[k];
    assert RowsOf(pos)[l] == es[k].row;
  }

  lemma {:induction false} TailFrom(pos: seq<Entry>, es: seq<Entry>, s: real, odd: int, l: int)
    requires Holds(pos, es, PosDiag) && OneScale(es, s, odd) && 0 <= l < |pos|
    ensures pos[l].value == s && exists k :: 0 <= k < |es| && k != odd && es[k].row == pos[l].row
  {
    hide KindOf, OneScale;
    assert pos[l] in pos;
    OddKinds(es, s, odd, pos[l]);
    var k :| 0 <= k < |es| && es[k] == pos[l];
    assert k != odd && es[k].row == pos[l].row;
  }

  /** The positive part: all entries but the odd one, so its rows are the tails. */
  lemma {:induction false} TailParts(p: Parts, es: seq<Entry>, s: real, odd: int)
    requires PartsAre(p, es) && DistinctRows(es) && OneScale(es, s, odd)
    ensures AreTails(RowsOf(p.pos), es, odd) && (p.pos == [] <==> |es| == if odd >= 0 then 1 else 0)
    ensures forall k | 0 <= k < |p.pos| :: p.pos[k].value == s
  {
    hide Holds, DistinctRows, KindOf;
    var t := RowsOf(p.pos);
    forall k | 0 <= k < |es| && k != odd
      ensures es[k] in p.pos && es[k].row in t
    {
      TailAt(p.pos, es, s, odd, k);
    }
    forall l | 0 <= l < |p.pos|
      ensures p.pos[l].value == s && exists k :: 0 <= k < |es| && k != odd && es[k].row == t[l]
    {
      TailFrom(p.pos, es, s, odd, l);
    }
    var k := if odd == 0 then 1 else 0;
    assert k < |es| ==> es[k] in p.pos;
    if p.pos != [] { TailFrom(p.pos, es, s, odd, 0); }
  }

  // ---------------------------------------------------------------- which rows take the general path

  /** The odd entry when the decision does not ask for the general path, -1 when there is none. */
  lemma {:induction false} FastOdd(p: Parts, es: seq<Entry>, hasLinear: bool) returns (odd: int)
    requires PartsAre(p, es) && !UseGeneralPath(p, 0.0, hasLinear)
    ensures -1 <= odd < |es| && (odd >= 0 ==> !hasLinear && es[odd].value < 0.0)
    ensures forall e | e in p.neg || e in p.cross :: odd >= 0 && e == es[odd]
  {
    hide StrictRows, DistinctRows, Uniform;
    var other := p.neg + p.cross;
    assert forall e | e in p.neg || e in p.cross :: e in other;
    if other == [] {
      odd := -1;
    } else {
      assert other == [other[0]];
      assert other[0] in p.neg || other[0] in p.cross;
      odd :| 0 <= odd < |es| && es[odd] == other[0];
    }
  }

  /** What the decision sees when a row does not take the general path. */
  lemma {:induction false} FastEntries(p: Parts, es: seq<Entry>, hasLinear: bool) returns (s: real, odd: int)
    requires PartsAre(p, es) && !UseGeneralPath(p, 0.0, hasLinear)
    ensures DistinctRows(es) && OneScale(es, s, odd) && (hasLinear ==> odd == -1)
  {
    hide StrictRows, DistinctRows;
    s := if p.pos == [] then 1.0 else p.pos[0].value;
    assert p.pos != [] ==> p.pos[0] in p.pos && KindOf(p.pos[0]) == PosDiag;
    odd := FastOdd(p, es, hasLinear);
    forall k | 0 <= k < |es| && k != odd
      ensures es[k].row == es[k].col && es[k].value == s
    {
      if odd >= 0 { DistinctEntries(es, k, odd); }
      EntryPositive(p, es, k);
      UniformValue(p.pos, es[k]);
    }
  }

  lemma {:induction false} DistinctEntries(es: seq<Entry>, k: int, l: int)
    requires DistinctRows(es) && 0 <= k < |es| && 0 <= l < |es| && k != l
    ensures es[k] != es[l]
  {
    assert es[if k < l then k else l].row != es[if k < l then l else k].row;
  }

  lemma {:induction false} UniformValue(part: seq<Entry>, e: Entry)
    requires Uniform(part) && e in part
    ensures part != [] && e.value == part[0].value
  {
  }

  lemma {:induction false} EntryPositive(p: Parts, es: seq<Entry>, k: int)
    requires PartsAre(p, es) && DistinctRows(es) && !p.zeroDiag && 0 <= k < |es|
    requires es[k] !in p.neg && es[k] !in p.cross
    ensures es[k] in p.pos && es[k].row == es[k].col
  {
    assert es[k] in es;
  }

  /** The parts of a row with one scale do not ask for the general path. */
  lemma {:induction false} SpecialIsFast(p: Parts, es: seq<Entry>, s: real, odd: int, hasLinear: bool)
    requires PartsAre(p, es) && DistinctRows(es) && OneScale(es, s, odd) && (hasLinear ==> odd == -1)
    ensures !UseGeneralPath(p, 0.0, hasLinear)
  {
    hide PartsAre, DistinctRows, AreTails, SquaresElsewhere;
    OddParts(p, es, s, odd);
    TailParts(p, es, s, odd);
  }

  lemma {:induction false} GeneralPathIff(p: Parts, es: seq<Entry>, rhs: real, hasLinear: bool)
    requires PartsAre(p, es)
    ensures UseGeneralPath(p, rhs, hasLinear) <==> !Special(es, rhs, hasLinear)
  {
    hide PartsAre, DistinctRows, OneScale;
    if Special(es, rhs, hasLinear) {
      var s, odd :| OneScale(es, s, odd) && (hasLinear ==> odd == -1);
      SpecialIsFast(p, es, s, odd, hasLinear);
    }
    if !UseGeneralPath(p, rhs, hasLinear) {
      assert rhs == 0.0;
      var s, odd := FastEntries(p, es, hasLinear);
    }
  }

  // ---------------------------------------------------------------- the shape of a special row

  /** The outcome for a row of one scale, by the kind of its odd entry. */
  lemma {:induction false} DecideSpecial(p: Parts, es: seq<Entry>, s: real, odd: int, hasLinear: bool, lowers: seq<Ext>, sqrt: real -> real)
    requires PartsAre(p, es) && DistinctRows(es) && OneScale(es, s, odd) && (hasLinear ==> odd == -1) && es != []
    ensures var shape := Decide(p, |es|, 0.0, hasLinear, lowers, sqrt);
            if hasLinear then shape == Affine(RowsOf(p.pos), s)
            else if odd == -1 then shape == Rejected(HeadCount)
            else
              var e := es[odd];
              if |es| == 1 then shape == if e.row == e.col then Tailless(e.row) else Rejected(NoScale)
              else if e.row == e.col then
                shape == if e.value != -s then Rejected(HeadScale)
                         else if !HeadNonnegative(lowers, e.row) then Rejected(HeadSign)
                         else Diagonal(e.row, RowsOf(p.pos))
              else
                shape == if !HeadNonnegative(lowers, e.row) || !HeadNonnegative(lowers, e.col) then Rejected(HeadSign)
                         else Rotated(e.row, e.col, RowsOf(p.pos), sqrt((-e.value / 2.0) / s))
  {
    hide PartsAre, DistinctRows, AreTails, SquaresElsewhere, HeadNonnegative, UseGeneralPath, RowsOf;
    SpecialIsFast(p, es, s, odd, hasLinear);
    OddParts(p, es, s, odd);
    TailParts(p, es, s, odd);
  }

  lemma {:induction false} SpecialFits(p: Parts, es: seq<Entry>, s: real, odd: int, hasLinear: bool, lowers: seq<Ext>, sqrt: real -> real)
    requires PartsAre(p, es) && DistinctRows(es) && OneScale(es, s, odd) && (hasLinear ==> odd == -1) && es != [] && IsSqrt(sqrt)
    ensures ShapeFits(Decide(p, |es|, 0.0, hasLinear, lowers, sqrt), es, 0.0, hasLinear, lowers)
  {
    hide PartsAre, DistinctRows, AreTails, SquaresElsewhere, HeadNonnegative, Decide, RowsOf;
    DecideSpecial(p, es, s, odd, hasLinear, lowers, sqrt);
    TailParts(p, es, s, odd);
    if odd >= 0 && |es| >= 2 {
      var e := es[odd];
      if e.row == e.col {
        if e.value == -s { assert LorentzRow(es, s, odd, e.row); }
      } else {
        var d := -e.value / 2.0;
        assert RotatedRow(es, s, odd, e.row, e.col, d);
        assert d / s >= 0.0;
      }
    }
  }

  lemma {:induction false} DecideFits(p: Parts, es: seq<Entry>, rhs: real, hasLinear: bool, lowers: seq<Ext>, sqrt: real -> real)
    requires PartsAre(p, es) && es != [] && IsSqrt(sqrt)
    ensures ShapeFits(Decide(p, |es|, rhs, hasLinear, lowers, sqrt), es, rhs, hasLinear, lowers)
  {
    hide PartsAre, DistinctRows, OneScale, HeadNonnegative, UseGeneralPath, LorentzWith, RotatedWith, Refused;
    GeneralPathIff(p, es, rhs, hasLinear);
    if Special(es, rhs, hasLinear) {
      var s, odd :| OneScale(es, s, odd) && (hasLinear ==> odd == -1);
      SpecialFits(p, es, s, odd, hasLinear, lowers, sqrt);
    }
  }

  // ---------------------------------------------------------------- a shape that fits is the one decided on

  lemma {:induction false} IncreasingLeast(a: seq<int>, c: int)
    requires c in a && forall k, l | 0 <= k < l < |a| :: a[k] < a[l]
    ensures a[0] <= c && a[0] !in a[1..]
  {
    var k :| 0 <= k < |a| && a[k] == c;
  }

  lemma {:induction false} EmptyOrElement(a: seq<int>)
    ensures a == [] || exists k :: 0 <= k < |a| && a[k] in a
  {
    if a != [] { assert a[0] in a; }
  }

  lemma {:induction false} IncreasingUnique(a: seq<int>, b: seq<int>)
    requires forall k, l | 0 <= k < l < |a| :: a[k] < a[l]
    requires forall k, l | 0 <= k < l < |b| :: b[k] < b[l]
    requires forall c :: c in a <==> c in b
    ensures a == b
  {
    if a == [] {
      EmptyOrElement(b);
    } else {
      assert a[0] in a && a[0] in b;
      assert b[0] in b && b[0] in a;
      IncreasingLeast(a, b[0]);
      IncreasingLeast(b, a[0]);
      forall c ensures c in a[1..] <==> c in b[1..] {
        assert c in a <==> c == a[0] || c in a[1..];
        assert c in b <==> c == b[0] || c in b[1..];
      }
      IncreasingUnique(a[1..], b[1..]);
    }
  }

  lemma {:induction false} TailsUnique(a: seq<int>, b: seq<int>, es: seq<Entry>, odd: int)
    requires AreTails(a, es, odd) && AreTails(b, es, odd)
    ensures a == b
  {
    IncreasingUnique(a, b);
  }

  lemma {:induction false} RootUnique(a: real, b: real)
    requires a >= 0.0 && b >= 0.0 && a * a == b * b
    ensures a == b
  {
    var d, t := a - b, a + b;
    assert d * t == 0.0;
    assert d > 0.0 ==> d * t > 0.0;
    assert d < 0.0 ==> d * t < 0.0;
  }

  lemma {:induction false} FitsDecides(p: Parts, shape: Shape, es: seq<Entry>, rhs: real, hasLinear: bool, lowers: seq<Ext>, sqrt: real -> real)
    requires PartsAre(p, es) && es != [] && IsSqrt(sqrt)
    requires ShapeFits(shape, es, rhs, hasLinear, lowers)
    ensures Decide(p, |es|, rhs, hasLinear, lowers, sqrt) == shape
  {
    hide PartsAre, DistinctRows, OneScale, HeadNonnegative, UseGeneralPath, Special, LorentzWith, RotatedWith, Refused, AreTails, Decide, RowsOf, LorentzRow, RotatedRow;
    match shape
    case General =>
      GeneralDecides(p, es, rhs, hasLinear, lowers, sqrt);
    case Affine(tails, scale) =>
      DecideSpecial(p, es, scale, -1, hasLinear, lowers, sqrt);
      TailParts(p, es, scale, -1);
      TailsUnique(tails, RowsOf(p.pos), es, -1);
    case Tailless(head) =>
      SingleRow(es);
      DecideSpecial(p, es, 1.0, 0, hasLinear, lowers, sqrt);
    case Diagonal(head, tails) =>
      LorentzDecides(p, es, head, tails, lowers, sqrt);
    case Rotated(a, b, tails, ratio) =>
      RotatedDecides(p, es, a, b, tails, ratio, lowers, sqrt);
    case Rejected(reason) =>
      RefusedDecides(p, es, reason, lowers, sqrt);
  }

  lemma {:induction false} GeneralDecides(p: Parts, es: seq<Entry>, rhs: real, hasLinear: bool, lowers: seq<Ext>, sqrt: real -> real)
    requires PartsAre(p, es) && !Special(es, rhs, hasLinear)
    ensures Decide(p, |es|, rhs, hasLinear, lowers, sqrt) == General
  {
    hide PartsAre, Special, UseGeneralPath;
    GeneralPathIff(p, es, rhs, hasLinear);
  }

  lemma {:induction false} SingleRow(es: seq<Entry>)
    requires |es| == 1 && es[0].value < 0.0
    ensures DistinctRows(es) && OneScale(es, 1.0, 0)
  {
  }

  lemma {:induction false} LorentzDecides(p: Parts, es: seq<Entry>, head: int, tails: seq<int>, lowers: seq<Ext>, sqrt: real -> real)
    requires PartsAre(p, es) && DistinctRows(es) && LorentzWith(es, head, tails) && HeadNonnegative(lowers, head)
    ensures Decide(p, |es|, 0.0, false, lowers, sqrt) == Diagonal(head, tails)
  {
    hide PartsAre, DistinctRows, HeadNonnegative, AreTails, Decide, RowsOf, SquaresElsewhere;
    var s, odd :| LorentzRow(es, s, odd, head) && AreTails(tails, es, odd);
    DecideSpecial(p, es, s, odd, false, lowers, sqrt);
    TailParts(p, es, s, odd);
    TailsUnique(tails, RowsOf(p.pos), es, odd);
  }

  lemma {:induction false} RotatedDecides(p: Parts, es: seq<Entry>, a: int, b: int, tails: seq<int>, ratio: real, lowers: seq<Ext>, sqrt: real -> real)
    requires PartsAre(p, es) && DistinctRows(es) && RotatedWith(es, a, b, tails, ratio) && IsSqrt(sqrt)
    requires HeadNonnegative(lowers, a) && HeadNonnegative(lowers, b)
    ensures Decide(p, |es|, 0.0, false, lowers, sqrt) == Rotated(a, b, tails, ratio)
  {
    hide PartsAre, DistinctRows, HeadNonnegative, AreTails, Decide, RowsOf, SquaresElsewhere;
    var s, odd, d :| RotatedRow(es, s, odd, a, b, d) && ratio * ratio == d / s && AreTails(tails, es, odd);
    DecideSpecial(p, es, s, odd, false, lowers, sqrt);
    TailParts(p, es, s, odd);
    TailsUnique(tails, RowsOf(p.pos), es, odd);
    assert -es[odd].value / 2.0 == d;
    assert d / s >= 0.0;
    RootUnique(ratio, sqrt(d / s));
  }

  lemma {:induction false} RefusedDecides(p: Parts, es: seq<Entry>, reason: Reason, lowers: seq<Ext>, sqrt: real -> real)
    requires PartsAre(p, es) && DistinctRows(es) && Refused(es, reason, lowers) && es != []
    ensures Decide(p, |es|, 0.0, false, lowers, sqrt) == Rejected(reason)
  {
    hide PartsAre, DistinctRows, HeadNonnegative, Decide, SquaresElsewhere;
    match reason
    case HeadCount =>
      var s :| OneScale(es, s, -1);
      DecideSpecial(p, es, s, -1, false, lowers, sqrt);
    case HeadScale =>
      var s, odd :| OneScale(es, s, odd) && 0 <= odd && es[odd].row == es[odd].col && es[odd].value != -s;
      DecideSpecial(p, es, s, odd, false, lowers, sqrt);
    case HeadSign =>
      if s, odd, head :| LorentzRow(es, s, odd, head) && !HeadNonnegative(lowers, head) {
        DecideSpecial(p, es, s, odd, false, lowers, sqrt);
      } else {
        var s, odd, a, b, d :| RotatedRow(es, s, odd, a, b, d) && !(HeadNonnegative(lowers, a) && HeadNonnegative(lowers, b));
        DecideSpecial(p, es, s, odd, false, lowers, sqrt);
      }
    case NoScale =>
      SingleRow(es);
      DecideSpecial(p, es, 1.0, 0, false, lowers, sqrt);
    case _ =>
  }

  // ---------------------------------------------------------------- the shape of a row

  lemma {:induction false} RowParts(qc: QuadraticConstraint, n: int)
    requires ArgumentsValid(qc, n)
    ensures var es := Entries(Normalized(qc));
            PartsAre(PartsOfRow(qc), es) && es != [] && |es| == |Normalized(qc).vals|
  {
    hide SortEntries, PartsAre;
    var es := Entries(Normalized(qc));
    forall k | 0 <= k < |es|
      ensures 0 <= es[k].row < n && 0 <= es[k].col < n
    {
      assert es[k].row == Entries(qc)[k].row && es[k].col == Entries(qc)[k].col;
    }
    PartsOfEntries(es, n);
  }

  /** A row whose arguments pass the checks has exactly the shape that fits its coordinates. */
  lemma {:induction false} ShapeIff(qc: QuadraticConstraint, n: int, lowers: seq<Ext>, sqrt: real -> real, shape: Shape)
    requires ArgumentsValid(qc, n) && IsSqrt(sqrt)
    ensures var q := Normalized(qc);
            shape == ShapeOf(qc, n, lowers, sqrt) <==> ShapeFits(shape, Entries(q), q.rhs, q.linearValues != [], lowers)
  {
    hide InvalidReason, Entries, PartsAre, Decide, ShapeFits, IsSqrt, PartsOf;
    RowParts(qc, n);
    var q := Normalized(qc);
    var p, es, hasLinear := PartsOfRow(qc), Entries(q), q.linearValues != [];
    ShapeOfParts(qc, n, lowers, sqrt);
    DecideFits(p, es, q.rhs, hasLinear, lowers, sqrt);
    if ShapeFits(shape, es, q.rhs, hasLinear, lowers) { FitsDecides(p, shape, es, q.rhs, hasLinear, lowers, sqrt); }
  }

  lemma {:induction false} ShapeOfParts(qc: QuadraticConstraint, n: int, lowers: seq<Ext>, sqrt: real -> real)
    requires ArgumentsValid(qc, n)
    ensures var q := Normalized(qc);
            ShapeOf(qc, n, lowers, sqrt) == Decide(PartsOfRow(qc), |q.vals|, q.rhs, q.linearValues != [], lowers, sqrt)
  {
  }

  /** -s head² + s |tails|² <= 0 with a bounded head is recognised, whatever the number and order of its entries. */
  lemma {:induction false} LorentzRecognised(qc: QuadraticConstraint, n: int, lowers: seq<Ext>, sqrt: real -> real, s: real, odd: nat, head: int)
    requires ArgumentsValid(qc, n) && IsSqrt(sqrt) && Normalized(qc).rhs == 0.0 && Normalized(qc).linearValues == []
    requires DistinctRows(Entries(Normalized(qc))) && LorentzRow(Entries(Normalized(qc)), s, odd, head)
    requires 0 <= head < |lowers| && Le(Fin(0.0), lowers[head])
    ensures var shape := ShapeOf(qc, n, lowers, sqrt);
            shape.Diagonal? && shape.head == head && AreTails(shape.tails, Entries(Normalized(qc)), odd)
  {
    hide InvalidReason, Entries, PartsAre, Decide, PartsOf, AreTails, DistinctRows, RowsOf, SquaresElsewhere;
    var p, es := PartsOfRow(qc), Entries(Normalized(qc));
    RowParts(qc, n);
    ShapeOfParts(qc, n, lowers, sqrt);
    DecideSpecial(p, es, s, odd, false, lowers, sqrt);
    TailParts(p, es, s, odd);
  }

  /** -2d a b + s |tails|² <= 0 with bounded heads is recognised. */
  lemma {:induction false} RotatedRecognised(qc: QuadraticConstraint, n: int, lowers: seq<Ext>, sqrt: real -> real, s: real, odd: nat,
                                             a: int, b: int, d: real)
    requires ArgumentsValid(qc, n) && IsSqrt(sqrt) && Normalized(qc).rhs == 0.0 && Normalized(qc).linearValues == []
    requires DistinctRows(Entries(Normalized(qc))) && RotatedRow(Entries(Normalized(qc)), s, odd, a, b, d)
    requires 0 <= a < |lowers| && Le(Fin(0.0), lowers[a]) && 0 <= b < |lowers| && Le(Fin(0.0), lowers[b])
    ensures var shape := ShapeOf(qc, n, lowers, sqrt);
            && shape.Rotated? && shape.head0 == a && shape.head1 == b && AreTails(shape.tails, Entries(Normalized(qc)), odd)
            && shape.ratio >= 0.0 && shape.ratio * shape.ratio == d / s
  {
    hide InvalidReason, Entries, PartsAre, Decide, PartsOf, AreTails, DistinctRows, RowsOf, SquaresElsewhere;
    var p, es := PartsOfRow(qc), Entries(Normalized(qc));
    RowParts(qc, n);
    ShapeOfParts(qc, n, lowers, sqrt);
    DecideSpecial(p, es, s, odd, false, lowers, sqrt);
    TailParts(p, es, s, odd);
    assert -es[odd].value / 2.0 == d;
    assert d / s >= 0.0;
  }

  /** s |tails|² + aᵀx <= 0 is recognised, whatever the bounds. */
  lemma {:induction false} AffineRecognised(qc: QuadraticConstraint, n: int, lowers: seq<Ext>, sqrt: real -> real, s: real)
    requires ArgumentsValid(qc, n) && IsSqrt(sqrt) && Normalized(qc).rhs == 0.0 && Normalized(qc).linearValues != []
    requires DistinctRows(Entries(Normalized(qc))) && OneScale(Entries(Normalized(qc)), s, -1)
    ensures var shape := ShapeOf(qc, n, lowers, sqrt);
            shape.Affine? && shape.scale == s && AreTails(shape.tails, Entries(Normalized(qc)), -1)
  {
    hide InvalidReason, Entries, PartsAre, Decide, PartsOf, AreTails, DistinctRows, RowsOf, OneScale;
    var p, es := PartsOfRow(qc), Entries(Normalized(qc));
    RowParts(qc, n);
    ShapeOfParts(qc, n, lowers, sqrt);
    DecideSpecial(p, es, s, -1, true, lowers, sqrt);
    TailParts(p, es, s, -1);
  }

  /** The classification of one row, as the translator runs it. */
  method Classify(qc: QuadraticConstraint, n: nat, lowers: seq<Ext>, sqrt: real -> real) returns (shape: Shape)
    requires IsSqrt(sqrt)
    ensures shape == ShapeOf(qc, n, lowers, sqrt)
    ensures InvalidReason(qc, n) != [] ==> shape == Rejected(InvalidReason(qc, n)[0])
    ensures ArgumentsValid(qc, n) ==>
              ShapeFits(shape, Entries(Normalized(qc)), Normalized(qc).rhs, qc.linearValues != [], lowers)
  {
    hide ShapeFits;
    var invalid := InvalidReason(qc, n);
    if invalid != [] { return Rejected(invalid[0]); }
    var q := NormalizeGreaterToLess(qc);
    var p := Partition(SortEntries(Entries(q)));
    shape := Decide(p, |q.vals|, q.rhs, q.linearValues != [], lowers, sqrt);
    ShapeIff(qc, n, lowers, sqrt, shape);
  }
}
