/** Bounds of a node of the branch-and-bound tree, read off the branchings on its path to the root. */
module BranchPath {
  import opened Rounding
  import opened Extended

  /** One branching decision: the variable and the interval it is confined to. */
  datatype Step = Step(variable: int, lo: Ext, hi: Ext)

  datatype Box = Box(lower: seq<Ext>, upper: seq<Ext>)

  predicate Contains(b: Box, x: seq<real>) {
    |x| == |b.lower| == |b.upper| && forall v | 0 <= v < |x| :: Le(b.lower[v], Fin(x[v])) && Le(Fin(x[v]), b.upper[v])
  }

  // Paths list the branchings deepest first.

  function LowerOn(path: seq<Step>, v: int, start: Ext): Ext {
    if path == [] then start
    else
      var rest := LowerOn(path[1..], v, start);
      if path[0].variable == v then Max(path[0].lo, rest) else rest
  }

  function UpperOn(path: seq<Step>, v: int, start: Ext): Ext {
    if path == [] then start
    else
      var rest := UpperOn(path[1..], v, start);
      if path[0].variable == v then Min(path[0].hi, rest) else rest
  }

  /** The intersection of the start box with every branching interval of the path. */
  function PathBox(path: seq<Step>, start: Box): Box
    requires |start.lower| == |start.upper|
  {
    Box(seq(|start.lower|, v requires 0 <= v < |start.lower| => LowerOn(path, v, start.lower[v])),
        seq(|start.upper|, v requires 0 <= v < |start.upper| => UpperOn(path, v, start.upper[v])))
  }

  /** A branching confines its variable to a part of what the path above it allows. */
  predicate Narrows(s: Step, above: seq<Step>, start: Box) {
    && 0 <= s.variable < |start.lower| == |start.upper|
    && Le(LowerOn(above, s.variable, start.lower[s.variable]), s.lo)
    && Le(s.hi, UpperOn(above, s.variable, start.upper[s.variable]))
  }

  predicate Nested(path: seq<Step>, start: Box) {
    path == [] || (Narrows(path[0], path[1..], start) && Nested(path[1..], start))
  }

  /** What a walk from the node to the root writes when the first write to a variable wins. */
  function FirstWrite(path: seq<Step>, v: int, lower: Ext, upper: Ext): (Ext, Ext) {
    if path == [] then (lower, upper)
    else if path[0].variable == v then (path[0].lo, path[0].hi)
    else FirstWrite(path[1..], v, lower, upper)
  }

  lemma {:induction false} MaxLe(a: Ext, b: Ext)
    requires Le(b, a)
    ensures Max(a, b) == a
  {
  }

  lemma {:induction false} MinLe(a: Ext, b: Ext)
    requires Le(a, b)
    ensures Min(a, b) == a
  {
  }

  /** On nested paths the deepest interval of a variable is the intersection of all of them. */
  lemma {:induction false} FirstWriteIsIntersection(path: seq<Step>, v: int, start: Box)
    requires Nested(path, start) && 0 <= v < |start.lower| == |start.upper|
    ensures FirstWrite(path, v, start.lower[v], start.upper[v]) ==
            (LowerOn(path, v, start.lower[v]), UpperOn(path, v, start.upper[v]))
  {
    if path != [] {
      if path[0].variable == v {
        MaxLe(path[0].lo, LowerOn(path[1..], v, start.lower[v]));
        MinLe(path[0].hi, UpperOn(path[1..], v, start.upper[v]));
      } else {
        FirstWriteIsIntersection(path[1..], v, start);
      }
    }
  }

  lemma {:induction false} FirstWriteSnoc(path: seq<Step>, s: Step, v: int, lower: Ext, upper: Ext)
    ensures FirstWrite(path + [s], v, lower, upper) ==
            if (exists k | 0 <= k < |path| :: path[k].variable == v) then FirstWrite(path, v, lower, upper)
            else if s.variable == v then (s.lo, s.hi) else (lower, upper)
  {
    if path == [] {
      assert [s][1..] == [];
    } else {
      assert (path + [s])[1..] == path[1..] + [s];
      FirstWriteSnoc(path[1..], s, v, lower, upper);
      if path[0].variable != v {
        forall k | 0 <= k < |path[1..]| ensures path[1..][k] == path[k + 1] {}
        if exists k | 0 <= k < |path| :: path[k].variable == v {
          var k :| 0 <= k < |path| && path[k].variable == v;
          assert path[1..][k - 1].variable == v;
        }
      }
    }
  }

  lemma {:induction false} NotWritten(path: seq<Step>, v: int, lower: Ext, upper: Ext)
    requires forall k | 0 <= k < |path| :: path[k].variable != v
    ensures FirstWrite(path, v, lower, upper) == (lower, upper)
  {
    if path != [] { NotWritten(path[1..], v, lower, upper); }
  }

  // ---------------------------------------------------------------- the two children

  /** The intervals of the two children when variable `v` has value `value` and bounds `lower`, `upper` in the LP. */
  function DownStep(v: int, lower: Ext, value: real): Step {
    Step(v, lower, Fin(value.Floor as real))
  }

  function UpStep(v: int, upper: Ext, value: real): Step {
    Step(v, Fin(Ceiling(value) as real), upper)
  }

  /** The down child keeps the integers up to the LP value, the up child those from it on; a fractional value itself is cut off. */
  lemma {:induction false} ChildrenCutValue(v: int, lower: Ext, upper: Ext, value: real, k: int)
    ensures DownStep(v, lower, value).variable == UpStep(v, upper, value).variable == v
    ensures DownStep(v, lower, value).lo == lower && UpStep(v, upper, value).hi == upper
    ensures Le(Fin(k as real), DownStep(v, lower, value).hi) <==> k as real <= value
    ensures Le(UpStep(v, upper, value).lo, Fin(k as real)) <==> value <= k as real
    ensures !IsInteger(value) ==> Lt(DownStep(v, lower, value).hi, Fin(value)) && Lt(Fin(value), UpStep(v, upper, value).lo)
  {
    FloorAbove(k, value);
    FloorAbove(-k, -value);
    if !IsInteger(value) { CeilingAbove(value); }
  }

  /** Both children narrow the path when the LP bounds lie inside it and contain the value. */
  lemma {:induction false} ChildrenNarrow(path: seq<Step>, start: Box, v: int, lower: Ext, upper: Ext, value: real)
    requires 0 <= v < |start.lower| == |start.upper|
    requires Narrows(Step(v, lower, upper), path, start) && Le(lower, Fin(value)) && Le(Fin(value), upper)
    ensures Narrows(DownStep(v, lower, value), path, start) && Narrows(UpStep(v, upper, value), path, start)
  {
  }

  /** Membership in the box of a child: the parent's box, and the interval on the branching variable. */
  lemma {:induction false} ChildBox(s: Step, path: seq<Step>, start: Box, x: seq<real>)
    requires 0 <= s.variable < |start.lower| == |start.upper|
    ensures Contains(PathBox([s] + path, start), x) <==>
            Contains(PathBox(path, start), x) && Le(s.lo, Fin(x[s.variable])) && Le(Fin(x[s.variable]), s.hi)
  {
    var child, parent := PathBox([s] + path, start), PathBox(path, start);
    assert ([s] + path)[1..] == path;
    forall v | 0 <= v < |start.lower|
      ensures child.lower[v] == if v == s.variable then Max(s.lo, parent.lower[v]) else parent.lower[v]
      ensures child.upper[v] == if v == s.variable then Min(s.hi, parent.upper[v]) else parent.upper[v]
    {
    }
    if |x| == |start.lower| {
      MaxMinWithin(s.lo, parent.lower[s.variable], s.hi, parent.upper[s.variable], x[s.variable]);
    }
  }

  lemma {:induction false} MaxMinWithin(a: Ext, b: Ext, c: Ext, d: Ext, v: real)
    ensures Le(Max(a, b), Fin(v)) <==> Le(a, Fin(v)) && Le(b, Fin(v))
    ensures Le(Fin(v), Min(c, d)) <==> Le(Fin(v), c) && Le(Fin(v), d)
  {
  }

  lemma {:induction false} CeilingAbove(value: real)
    requires !IsInteger(value)
    ensures Ceiling(value) == value.Floor + 1
  {
    var c := (-value).Floor;
    assert c as real <= -value < (c + 1) as real;
    assert value.Floor as real < value < (value.Floor + 1) as real;
    assert -c - 1 <= value.Floor && value.Floor < -c;
  }

  lemma {:induction false} IntegerSides(x: real, value: real)
    requires IsInteger(x) && !IsInteger(value)
    ensures x <= value.Floor as real <==> !(x >= Ceiling(value) as real)
  {
    CeilingAbove(value);
    hide Ceiling;
    var k, f := x.Floor, value.Floor;
    assert x == k as real;
    if k <= f {
      assert k as real <= f as real;
    } else {
      assert k as real >= (f + 1) as real;
    }
  }

  /**
   * Branching on a fractional value splits the integer points: a point of the parent's box that respects the
   * LP bounds of the branching variable lies in exactly one child's box, and the children add no point.
   */
  lemma {:induction false} ChildrenSplit(path: seq<Step>, start: Box, v: int, lower: Ext, upper: Ext, value: real, x: seq<real>)
    requires 0 <= v < |start.lower| == |start.upper| && !IsInteger(value)
    requires |x| == |start.lower| && IsInteger(x[v]) && Le(lower, Fin(x[v])) && Le(Fin(x[v]), upper)
    ensures var down, up := PathBox([DownStep(v, lower, value)] + path, start), PathBox([UpStep(v, upper, value)] + path, start);
            && (Contains(PathBox(path, start), x) <==> Contains(down, x) || Contains(up, x))
            && !(Contains(down, x) && Contains(up, x))
  {
    ChildBox(DownStep(v, lower, value), path, start, x);
    ChildBox(UpStep(v, upper, value), path, start, x);
    IntegerSides(x[v], value);
  }
}
