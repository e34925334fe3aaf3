/** Objective values that can only be taken on a lattice: snapping node bounds up and cutting the LP off early. */
module Lattice {
  import opened Rounding

  /** What is known about the objective values of feasible points. */
  datatype ObjectiveLattice = Unknown | Integral | Stepped(step: real, bias: real)

  predicate ValidLattice(lattice: ObjectiveLattice) {
    lattice.Stepped? ==> lattice.step > 0.0
  }

  function Step(lattice: ObjectiveLattice): real {
    if lattice.Stepped? then lattice.step else 1.0
  }

  function Bias(lattice: ObjectiveLattice): real {
    if lattice.Stepped? then lattice.bias else 0.0
  }

  function LatticeValue(lattice: ObjectiveLattice, k: int): real {
    k as real * Step(lattice) + Bias(lattice)
  }

  ghost predicate OnLattice(lattice: ObjectiveLattice, v: real) {
    lattice.Unknown? || exists k: int :: v == LatticeValue(lattice, k)
  }

  /** Position of a value between the lattice points. */
  function Position(lattice: ObjectiveLattice, v: real): real
    requires ValidLattice(lattice)
  {
    if lattice.Stepped? then (v - lattice.bias) / lattice.step else v
  }

  /** The bound stored in a node whose relaxation has value `leafObj`; `tol` is the integrality tolerance. */
  function Snap(lattice: ObjectiveLattice, tol: real, leafObj: real): real
    requires ValidLattice(lattice)
  {
    match lattice
    case Unknown => leafObj
    case Integral => Ceiling(leafObj - tol) as real
    case Stepped(step, bias) =>
      var k := Ceiling((leafObj - bias) / step - tol);
      k as real * step + bias
  }

  /** The objective at which the LP of a node stops, for the incumbent value `upper`. */
  function Cutoff(lattice: ObjectiveLattice, tol: real, dualTol: real, upper: real): real
    requires ValidLattice(lattice)
  {
    match lattice
    case Unknown => upper + dualTol
    case Integral => (upper + tol).Floor as real - 1.0 + dualTol
    case Stepped(step, bias) =>
      var k := ((upper - bias) / step + tol).Floor;
      (k - 1) as real * step + bias + dualTol
  }

  lemma {:induction false} PositionValue(lattice: ObjectiveLattice, v: real)
    requires ValidLattice(lattice)
    ensures v == Position(lattice, v) * Step(lattice) + Bias(lattice)
  {
  }

  lemma {:induction false} PositionOfPoint(lattice: ObjectiveLattice, k: int)
    requires ValidLattice(lattice)
    ensures Position(lattice, LatticeValue(lattice, k)) == k as real
  {
    if lattice.Stepped? { assert (k as real * lattice.step) / lattice.step == k as real; }
  }

  lemma {:induction false} PositionOrder(lattice: ObjectiveLattice, v: real, w: real)
    requires ValidLattice(lattice)
    ensures v <= w <==> Position(lattice, v) <= Position(lattice, w)
  {
    if lattice.Stepped? {
      var p, q, s := Position(lattice, v), Position(lattice, w), lattice.step;
      PositionValue(lattice, v);
      PositionValue(lattice, w);
      assert w - v == (q - p) * s;
      if q >= p { assert (q - p) * s >= 0.0; } else { assert (p - q) * s > 0.0; }
    }
  }

  lemma {:induction false} SnapPosition(lattice: ObjectiveLattice, tol: real, leafObj: real)
    requires ValidLattice(lattice) && !lattice.Unknown?
    ensures Snap(lattice, tol, leafObj) == LatticeValue(lattice, Ceiling(Position(lattice, leafObj) - tol))
  {
    match lattice
    case Integral => UnitLattice(lattice, Ceiling(leafObj - tol));
    case Stepped(step, bias) =>
      SteppedLattice(lattice, Ceiling(Position(lattice, leafObj) - tol));
  }

  lemma {:induction false} SteppedLattice(lattice: ObjectiveLattice, k: int)
    requires lattice.Stepped?
    ensures LatticeValue(lattice, k) == k as real * lattice.step + lattice.bias
  {
  }

  lemma {:induction false} UnitLattice(lattice: ObjectiveLattice, k: int)
    requires lattice.Integral?
    ensures LatticeValue(lattice, k) == k as real
  {
    assert k as real * 1.0 == k as real;
  }

  lemma {:induction false} LatticeOrder(lattice: ObjectiveLattice, j: int, k: int)
    requires ValidLattice(lattice)
    ensures j <= k <==> LatticeValue(lattice, j) <= LatticeValue(lattice, k)
  {
    PositionOfPoint(lattice, j);
    PositionOfPoint(lattice, k);
    PositionOrder(lattice, LatticeValue(lattice, j), LatticeValue(lattice, k));
  }

  /** No objective value a feasible point can take at or above the relaxation lies below the stored bound. */
  lemma {:induction false} SnapSafe(lattice: ObjectiveLattice, tol: real, leafObj: real, v: real)
    requires ValidLattice(lattice) && tol >= 0.0 && OnLattice(lattice, v) && leafObj <= v
    ensures Snap(lattice, tol, leafObj) <= v
  {
    if !lattice.Unknown? {
      hide LatticeValue, Snap, Position;
      var k: int :| v == LatticeValue(lattice, k);
      SnapPosition(lattice, tol, leafObj);
      PositionOrder(lattice, leafObj, v);
      PositionOfPoint(lattice, k);
      CeilLeast(Position(lattice, leafObj) - tol, k);
      LatticeOrder(lattice, Ceiling(Position(lattice, leafObj) - tol), k);
    }
  }

  lemma {:induction false} CeilLeast(x: real, k: int)
    requires x <= k as real
    ensures Ceiling(x) <= k && x <= Ceiling(x) as real
  {
  }

  /** Snapping keeps the order of relaxation values, so a child is never snapped below its parent. */
  lemma {:induction false} SnapMonotone(lattice: ObjectiveLattice, tol: real, a: real, b: real)
    requires ValidLattice(lattice) && a <= b
    ensures Snap(lattice, tol, a) <= Snap(lattice, tol, b)
  {
    if !lattice.Unknown? {
      hide LatticeValue, Snap, Position;
      SnapPosition(lattice, tol, a);
      SnapPosition(lattice, tol, b);
      PositionOrder(lattice, a, b);
      LatticeOrder(lattice, Ceiling(Position(lattice, a) - tol), Ceiling(Position(lattice, b) - tol));
    }
  }

  /** The stored bound is at most the tolerance below the relaxation; at tolerance zero it is on the lattice and above. */
  lemma {:induction false} SnapNear(lattice: ObjectiveLattice, tol: real, leafObj: real)
    requires ValidLattice(lattice) && tol >= 0.0
    ensures OnLattice(lattice, Snap(lattice, tol, leafObj))
    ensures leafObj - tol * Step(lattice) <= Snap(lattice, tol, leafObj)
  {
    if !lattice.Unknown? {
      var p, s := Position(lattice, leafObj), Step(lattice);
      var k := Ceiling(p - tol);
      SnapPosition(lattice, tol, leafObj);
      PositionValue(lattice, leafObj);
      assert k as real - (p - tol) >= 0.0;
      assert (k as real - (p - tol)) * s >= 0.0;
      assert (k as real - (p - tol)) * s == k as real * s - p * s + tol * s;
    }
  }

  lemma {:induction false} CeilIff(x: real, k: int)
    ensures Ceiling(x) <= k <==> x <= k as real
  {
  }

  lemma {:induction false} PositionStep(lattice: ObjectiveLattice, v: real, tol: real)
    requires ValidLattice(lattice)
    ensures Position(lattice, v - tol * Step(lattice)) == Position(lattice, v) - tol
    ensures Position(lattice, v + tol * Step(lattice)) == Position(lattice, v) + tol
  {
    if lattice.Stepped? {
      var b, s := lattice.bias, lattice.step;
      assert (v - tol * s - b) / s == (v - b) / s - tol;
      assert (v + tol * s - b) / s == (v - b) / s + tol;
    }
  }

  /** The stored bound is the least lattice value that is not further than the tolerance below the relaxation. */
  lemma {:induction false} SnapIsLeast(lattice: ObjectiveLattice, tol: real, leafObj: real, k: int)
    requires ValidLattice(lattice)
    ensures OnLattice(lattice, Snap(lattice, tol, leafObj))
    ensures lattice.Unknown? ==> Snap(lattice, tol, leafObj) == leafObj
    ensures !lattice.Unknown? ==>
              (Snap(lattice, tol, leafObj) <= LatticeValue(lattice, k) <==> leafObj - tol * Step(lattice) <= LatticeValue(lattice, k))
  {
    if !lattice.Unknown? {
      hide LatticeValue, Position, Ceiling, Step;
      var p := Position(lattice, leafObj);
      SnapPosition(lattice, tol, leafObj);
      LatticeOrder(lattice, Ceiling(p - tol), k);
      CeilIff(p - tol, k);
      PositionStep(lattice, leafObj, tol);
      PositionOfPoint(lattice, k);
      PositionOrder(lattice, leafObj - tol * Step(lattice), LatticeValue(lattice, k));
    }
  }

  /** The cutoff is the dual tolerance above a lattice value: the greatest one whose successor does not exceed the incumbent. */
  lemma {:induction false} CutoffIsGreatest(lattice: ObjectiveLattice, tol: real, dualTol: real, upper: real, k: int)
    requires ValidLattice(lattice)
    ensures OnLattice(lattice, Cutoff(lattice, tol, dualTol, upper) - dualTol)
    ensures lattice.Unknown? ==> Cutoff(lattice, tol, dualTol, upper) == upper + dualTol
    ensures !lattice.Unknown? ==>
              (LatticeValue(lattice, k) <= Cutoff(lattice, tol, dualTol, upper) - dualTol <==>
               LatticeValue(lattice, k + 1) <= upper + tol * Step(lattice))
  {
    if !lattice.Unknown? {
      hide LatticeValue, Position, Step, Cutoff;
      var p := Position(lattice, upper);
      CutoffPosition(lattice, tol, dualTol, upper);
      LatticeOrder(lattice, k, (p + tol).Floor - 1);
      FloorAbove(k + 1, p + tol);
      PositionStep(lattice, upper, tol);
      PositionOfPoint(lattice, k + 1);
      PositionOrder(lattice, LatticeValue(lattice, k + 1), upper + tol * Step(lattice));
    }
  }

  lemma {:induction false} CutoffPosition(lattice: ObjectiveLattice, tol: real, dualTol: real, upper: real)
    requires ValidLattice(lattice) && !lattice.Unknown?
    ensures Cutoff(lattice, tol, dualTol, upper) == LatticeValue(lattice, (Position(lattice, upper) + tol).Floor - 1) + dualTol
  {
    match lattice
    case Integral => UnitLattice(lattice, (upper + tol).Floor - 1);
    case Stepped(step, bias) =>
      SteppedLattice(lattice, (Position(lattice, upper) + tol).Floor - 1);
  }

  lemma {:induction false} FloorCases(p: real, tol: real, j: int)
    requires tol >= 0.0
    ensures Ceiling(p) as real <= p + tol && (j as real) < p ==> j <= (p + tol).Floor - 1
    ensures !(Ceiling(p) as real <= p + tol) ==> (p + tol).Floor == p.Floor && (p.Floor as real) < p
  {
    var c := Ceiling(p);
    assert p <= c as real < p + 1.0;
    if c as real <= p + tol {
      assert c <= (p + tol).Floor;
    } else {
      assert p.Floor <= (p + tol).Floor < c;
      assert c - 1 <= p.Floor;
    }
  }

  lemma {:induction false} LatticeGap(lattice: ObjectiveLattice, j: int, k: int)
    requires ValidLattice(lattice) && j < k
    ensures LatticeValue(lattice, j) + Step(lattice) <= LatticeValue(lattice, k)
  {
    LatticeOrder(lattice, j + 1, k);
    assert (j + 1) as real * Step(lattice) == j as real * Step(lattice) + Step(lattice);
  }

  /** Every lattice value that improves on the incumbent survives the cutoff. */
  ghost predicate KeepsImproving(lattice: ObjectiveLattice, tol: real, dualTol: real, upper: real)
    requires ValidLattice(lattice)
  {
    forall j: int :: LatticeValue(lattice, j) < upper ==> LatticeValue(lattice, j) <= Cutoff(lattice, tol, dualTol, upper)
  }

  /** The value of the incumbent is a lattice value, up to the tolerance from below. */
  predicate NearLatticeFromBelow(lattice: ObjectiveLattice, tol: real, upper: real)
    requires ValidLattice(lattice)
  {
    Ceiling(Position(lattice, upper)) as real <= Position(lattice, upper) + tol
  }

  /** The cutoff loses no improving value exactly when the incumbent value is a lattice value, up to the tolerance. */
  lemma {:induction false} CutoffExactIff(lattice: ObjectiveLattice, tol: real, dualTol: real, upper: real)
    requires ValidLattice(lattice) && !lattice.Unknown? && tol >= 0.0 && 0.0 <= dualTol < Step(lattice)
    ensures KeepsImproving(lattice, tol, dualTol, upper) <==> NearLatticeFromBelow(lattice, tol, upper)
  {
    hide LatticeValue, Cutoff, Position, Ceiling, Step;
    var p := Position(lattice, upper);
    var k := (p + tol).Floor;
    CutoffPosition(lattice, tol, dualTol, upper);
    FloorCases(p, tol, 0);
    if NearLatticeFromBelow(lattice, tol, upper) {
      forall j: int | LatticeValue(lattice, j) < upper
        ensures LatticeValue(lattice, j) <= Cutoff(lattice, tol, dualTol, upper)
      {
        BelowPosition(lattice, j, upper);
        FloorCases(p, tol, j);
        LatticeOrder(lattice, j, k - 1);
      }
    } else {
      var j := p.Floor;
      BelowPosition(lattice, j, upper);
      LatticeGap(lattice, j - 1, j);
      assert LatticeValue(lattice, j) < upper;
    }
  }

  lemma {:induction false} BelowPosition(lattice: ObjectiveLattice, j: int, upper: real)
    requires ValidLattice(lattice)
    ensures LatticeValue(lattice, j) < upper <==> (j as real) < Position(lattice, upper)
  {
    hide LatticeValue, Position;
    PositionOfPoint(lattice, j);
    PositionOrder(lattice, upper, LatticeValue(lattice, j));
  }

  /** With the incumbent on the lattice, a relaxation strictly above the cutoff contains no improving value. */
  lemma {:induction false} CutoffSafe(lattice: ObjectiveLattice, tol: real, dualTol: real, upper: real, relaxation: real, v: real)
    requires ValidLattice(lattice) && tol >= 0.0 && dualTol >= 0.0
    requires OnLattice(lattice, upper) && OnLattice(lattice, v) && relaxation <= v
    requires relaxation >= Cutoff(lattice, tol, dualTol, upper) && (lattice.Unknown? || dualTol > 0.0)
    ensures v >= upper
  {
    if !lattice.Unknown? && v < upper {
      hide LatticeValue, Cutoff, Position;
      var j: int :| v == LatticeValue(lattice, j);
      var u: int :| upper == LatticeValue(lattice, u);
      CutoffPosition(lattice, tol, dualTol, upper);
      PositionOfPoint(lattice, u);
      LatticeOrder(lattice, u, j);
      LatticeOrder(lattice, j, (Position(lattice, upper) + tol).Floor - 1);
    }
  }
}
