/**
 * When the verdict of an exhausted tree can be trusted: exactly when the abandoned nodes leave no room for a point
 * better than the upper bound. The condition is on the state alone, and it is necessary: if it fails, some problem
 * agrees with everything the search knows and has a better point.
 */
module DeterministicExactness {
  import opened Rounding
  import opened Extended
  import opened BranchPath
  import opened Lattice
  import opened Replay
  import opened Deterministic
  import opened DeterministicSearch
  import opened DeterministicSafety
  import opened DeterministicVerdict
  import P = ParallelSearch
  import Q = ParallelSafety

  // ---------------------------------------------------------------- the boxes of the tree

  /** The boxes of different nodes have no point in common, and all of them lie in the start box. */
  ghost predicate BoxesApart(m: P.Problem, nodes: set<Node>) {
    && (forall n, x: seq<real> | n in nodes && Contains(n.box, x) :: Contains(m.start, x))
    && (forall n, k, x: seq<real> | n in nodes && k in nodes && Contains(n.box, x) && Contains(k.box, x) :: n == k)
  }

  /** The numerical bound is that of an abandoned node, infinite when there is none. */
  ghost predicate BoundAttained(s: State) {
    NumericalFloor(s) == PosInf || exists n :: n in s.abandoned && n.bound == NumericalFloor(s)
  }

  /** Abandoned nodes are not open, and their ids have been given out. */
  ghost predicate AbandonedPart(workers: seq<Worker>, open: set<Node>, abandoned: set<Node>) {
    open !! abandoned && forall n | n in abandoned :: IdOk(workers, n)
  }

  ghost predicate Tree(m: P.Problem, s: State) {
    BoxesApart(m, s.open + s.abandoned) && AbandonedPart(s.workers, s.open, s.abandoned) && BoundAttained(s)
  }

  lemma {:induction false} FewerBoxes(m: P.Problem, a: set<Node>, b: set<Node>)
    requires BoxesApart(m, a) && b <= a
    ensures BoxesApart(m, b)
  {
    hide Contains;
  }

  lemma {:induction false} SplitBoxes(m: P.Problem, nodes: set<Node>, n: Node, d: Node, u: Node)
    requires BoxesApart(m, nodes) && n in nodes
    requires forall x: seq<real> | Contains(d.box, x) || Contains(u.box, x) :: Contains(n.box, x)
    requires forall x: seq<real> :: !(Contains(d.box, x) && Contains(u.box, x))
    ensures BoxesApart(m, nodes - {n} + {d, u})
  {
    hide Contains;
    var after := nodes - {n} + {d, u};
    forall k, x: seq<real> | k in after && Contains(k.box, x) ensures Contains(m.start, x) {
      if k !in nodes { assert Contains(n.box, x); }
    }
    forall k, h, x: seq<real> | k in after && h in after && Contains(k.box, x) && Contains(h.box, x) ensures k == h {
      OnlyOne(m, nodes, n, d, u, k, h, x);
    }
  }

  lemma {:induction false} OnlyOne(m: P.Problem, nodes: set<Node>, n: Node, d: Node, u: Node, k: Node, h: Node, x: seq<real>)
    requires BoxesApart(m, nodes) && n in nodes
    requires Contains(d.box, x) || Contains(u.box, x) ==> Contains(n.box, x)
    requires !(Contains(d.box, x) && Contains(u.box, x))
    requires k in nodes - {n} + {d, u} && h in nodes - {n} + {d, u} && Contains(k.box, x) && Contains(h.box, x)
    ensures k == h
  {
    hide Contains;
  }

  /** The children of a solved node lie in its box and have no point in common. */
  lemma {:induction false} ChildBoxes(m: P.Problem, n: P.Node, cutoff: Ext, r: P.Lp, x: seq<real>)
    requires r.Fractional? && P.LpOk(m, n, cutoff, r)
    ensures var d, u := P.DownChild(m, n, r, 0), P.UpChild(m, n, r, 1);
            && (Contains(d.box, x) || Contains(u.box, x) ==> Contains(n.box, x))
            && !(Contains(d.box, x) && Contains(u.box, x))
  {
    hide P.Relaxes, P.SnappedBound, Le, Contains, P.Narrowed;
    Q.DownBox(n.box, r.variable, r.lower, r.upper, r.at, x);
    SidesApart(n.box, r.variable, r.lower, r.upper, r.at, x);
  }

  lemma {:induction false} SidesApart(box: Box, v: int, lower: Ext, upper: Ext, at: real, x: seq<real>)
    requires 0 <= v < |box.lower| == |box.upper| && !IsInteger(at)
    ensures !(Contains(P.Narrowed(box, v, lower, Fin(at.Floor as real)), x)
              && Contains(P.Narrowed(box, v, Fin(Ceiling(at) as real), upper), x))
  {
    var d, u := P.Narrowed(box, v, lower, Fin(at.Floor as real)), P.Narrowed(box, v, Fin(Ceiling(at) as real), upper);
    assert d.upper[v] == Fin(at.Floor as real) && u.lower[v] == Fin(Ceiling(at) as real);
    assert at.Floor < Ceiling(at);
    if Contains(d, x) { assert Le(Fin(x[v]), d.upper[v]); }
    if Contains(u, x) { assert Le(u.lower[v], Fin(x[v])); }
  }

  // ---------------------------------------------------------------- every run keeps them

  lemma {:induction false} AttainedSame(s: State, t: State)
    requires BoundAttained(s) && NumericalFloor(t) == NumericalFloor(s) && t.abandoned == s.abandoned
    ensures BoundAttained(t)
  {
    hide NumericalFloor;
  }

  lemma {:induction false} BeginTree(m: P.Problem, s: State, w: int, k: int)
    requires Inv(m, s) && Tree(m, s) && Enabled(m, s, Begin(w, k))
    ensures Tree(m, Next(m, s, Begin(w, k)))
  {
    hide BoxesApart, NumericalFloor, Floor, NodesPart, BoundsPart, BestPart, WorkerPart, BoundAttained, Begun, CanTake;
    var wk, t := s.workers[w], Next(m, s, Begin(w, k));
    assert WorkerPart(m, wk, Floor(s));
    BegunWorker(m, wk, k, Floor(s));
    UnchangedFloors(s, w, Begun(wk, k));
    FloorsOf(s.(workers := s.workers[w := Begun(wk, k)]), t);
    AttainedSame(s, t);
    FewerBoxes(m, s.open + s.abandoned, t.open + t.abandoned);
  }

  lemma {:induction false} CompleteAttained(m: P.Problem, s: State, w: int, r: P.Lp)
    requires BoundAttained(s) && 0 <= w < |s.workers| && s.workers[w].current.Some?
    ensures BoundAttained(Next(m, s, Complete(w, r)))
  {
    hide NumericalFloor, Floor, Completed, OpenAfter, Min;
    var wk, t := s.workers[w], Next(m, s, Complete(w, r));
    CompletedFloors(m, s, w, r);
    FloorsOf(s.(workers := s.workers[w := Completed(m, wk, w, r)]), t);
    MinSides(NumericalFloor(s), NewCeiling(wk, r));
    MinTop(NumericalFloor(s));
    if NumericalFloor(t) == NumericalFloor(s) && NumericalFloor(s) != PosInf {
      var n :| n in s.abandoned && n.bound == NumericalFloor(s);
      assert n in t.abandoned;
    } else if r.NumericalTrouble? {
      assert wk.current.value in t.abandoned;
    }
  }

  lemma {:induction false} CompleteTree(m: P.Problem, s: State, w: int, r: P.Lp)
    requires Inv(m, s) && Tree(m, s) && Enabled(m, s, Complete(w, r))
    ensures Tree(m, Next(m, s, Complete(w, r)))
  {
    hide BoxesApart, NumericalFloor, Floor, Inv, BoundAttained, Completed, Branches, DownOf, UpOf, AnswerOk, AbandonedPart;
    var wk, t := s.workers[w], Next(m, s, Complete(w, r));
    var n, nodes := wk.current.value, s.open + s.abandoned;
    SolvingFacts(m, s, w);
    CompleteAttained(m, s, w, r);
    CompleteAbandoned(m, s, w, r);
    if Branches(m, wk, r) {
      CompletedBag(m, wk, w, r);
      var d, u := DownOf(m, wk, w, r), UpOf(m, wk, w, r);
      ChildrenSplitBox(m, wk, w, r);
      SplitBoxes(m, nodes, n, d, u);
      Apart(s.workers, s.open, s.abandoned);
      assert t.open + t.abandoned <= nodes - {n} + {d, u};
      FewerBoxes(m, nodes - {n} + {d, u}, t.open + t.abandoned);
    } else {
      FewerBoxes(m, nodes, t.open + t.abandoned);
    }
  }

  lemma {:induction false} Apart(workers: seq<Worker>, open: set<Node>, abandoned: set<Node>)
    requires AbandonedPart(workers, open, abandoned)
    ensures open !! abandoned
  {
  }

  lemma {:induction false} ChildrenSplitBox(m: P.Problem, wk: Worker, w: int, r: P.Lp)
    requires wk.current.Some? && AnswerOk(m, wk.current.value, wk.cutoff, r) && r.Fractional? && Branches(m, wk, r)
    ensures var n, d, u := wk.current.value, DownOf(m, wk, w, r), UpOf(m, wk, w, r);
            && (forall x: seq<real> | Contains(d.box, x) || Contains(u.box, x) :: Contains(n.box, x))
            && (forall x: seq<real> :: !(Contains(d.box, x) && Contains(u.box, x)))
  {
    hide P.Narrowed, Contains, P.SnappedBound, P.LpOk, P.DownChild, P.UpChild;
    var n, d, u := wk.current.value, DownOf(m, wk, w, r), UpOf(m, wk, w, r);
    forall x: seq<real>
      ensures Contains(d.box, x) || Contains(u.box, x) ==> Contains(n.box, x)
      ensures !(Contains(d.box, x) && Contains(u.box, x))
    {
      ChildBoxes(m, Plain(n), wk.cutoff, r, x);
    }
  }

  lemma {:induction false} CompleteAbandoned(m: P.Problem, s: State, w: int, r: P.Lp)
    requires Inv(m, s) && AbandonedPart(s.workers, s.open, s.abandoned) && Enabled(m, s, Complete(w, r))
    ensures var t := Next(m, s, Complete(w, r)); AbandonedPart(t.workers, t.open, t.abandoned)
  {
    hide NumericalFloor, Floor, BoundsPart, BestPart, WorkerPart, Completed, Branches, DownOf, UpOf, AnswerOk, P.LpOk, IdOk, Held, Total;
    var wk, t := s.workers[w], Next(m, s, Complete(w, r));
    var n, wk' := wk.current.value, Completed(m, wk, w, r);
    CurrentOpen(m, s, w);
    CompletedNumbers(m, wk, w, r);
    forall k | k in t.abandoned ensures IdOk(t.workers, k) { IdsKept(s.workers, w, wk', k); }
    if Branches(m, wk, r) {
      var d, u := DownOf(m, wk, w, r), UpOf(m, wk, w, r);
      ChildIds(m, wk, w, r);
      forall k | k in s.abandoned ensures k != d && k != u { IdTaken(s.workers, w, k, d, u); }
    }
  }

  lemma {:induction false} CurrentOpen(m: P.Problem, s: State, w: int)
    requires Inv(m, s) && 0 <= w < |s.workers| && s.workers[w].current.Some?
    ensures s.workers[w].current.value in s.open && IdOk(s.workers, s.workers[w].current.value)
  {
    hide Inv;
    SolvingFacts(m, s, w);
    OpenIds(m, s, s.workers[w].current.value);
  }

  lemma {:induction false} OpenIds(m: P.Problem, s: State, n: Node)
    requires Inv(m, s) && n in s.open
    ensures IdOk(s.workers, n)
  {
  }

  lemma {:induction false} CompletedNumbers(m: P.Problem, wk: Worker, w: int, r: P.Lp)
    requires wk.current.Some?
    ensures Completed(m, wk, w, r).nextNumber >= wk.nextNumber
    ensures Branches(m, wk, r) ==> r.Fractional?
  {
    hide P.SnappedBound, Held;
    CompletedBag(m, wk, w, r);
  }

  lemma {:induction false} ChildIds(m: P.Problem, wk: Worker, w: int, r: P.Lp)
    requires wk.current.Some? && r.Fractional?
    ensures var d, u := DownOf(m, wk, w, r), UpOf(m, wk, w, r);
            d.origin == u.origin == w && d.number == wk.nextNumber && u.number == wk.nextNumber + 1
  {
  }

  lemma {:induction false} IdTaken(workers: seq<Worker>, w: int, k: Node, d: Node, u: Node)
    requires 0 <= w < |workers| && IdOk(workers, k) && d.origin == u.origin == w
    requires d.number == workers[w].nextNumber && u.number == d.number + 1
    ensures k != d && k != u
  {
  }

  lemma {:induction false} SyncTree(m: P.Problem, s: State, mv: Move)
    requires Inv(m, s) && Tree(m, s) && mv.Sync? && Enabled(m, s, mv)
    ensures Tree(m, Next(m, s, mv))
  {
    hide BoxesApart, BoundsPart, BestPart, WorkerPart, NodesPart, SyncBest, Refreshed, Rebalanced, NeedsBalance, IdOk, Min;
    var t := Next(m, s, mv);
    RefreshedWorkers(s, mv.order, t.best.upper);
    MinTwice(s.numerical, LeastCeiling(s.workers));
    forall n | n in s.abandoned ensures IdOk(t.workers, n) { SameNumbers(s.workers, t.workers, n); }
  }

  lemma {:induction false} SameNumbers(a: seq<Worker>, b: seq<Worker>, n: Node)
    requires |a| == |b| && (forall w | 0 <= w < |a| :: a[w].nextNumber == b[w].nextNumber) && IdOk(a, n)
    ensures IdOk(b, n)
  {
  }

  lemma {:induction false} StepKeepsTree(m: P.Problem, s: State, mv: Move)
    requires Inv(m, s) && Tree(m, s) && Enabled(m, s, mv)
    ensures Tree(m, Next(m, s, mv))
  {
    hide Inv, Tree, Enabled, Next;
    match mv
    case Begin(w, k) => BeginTree(m, s, w, k);
    case Complete(w, r) => CompleteTree(m, s, w, r);
    case Sync(_, _, _, _) => SyncTree(m, s, mv);
  }

  /** Boxes stay apart and the numerical bound stays attained over every run. */
  lemma {:induction false} RunKeepsTree(m: P.Problem, s: State, moves: seq<Move>)
    requires P.ProblemOk(m) && Inv(m, s) && Tree(m, s) && IsRun(m, s, moves)
    ensures Inv(m, Run(m, s, moves)) && Tree(m, Run(m, s, moves))
  {
    hide Inv, Tree, Enabled, Next, P.ProblemOk;
    if moves != [] {
      var front, mv := moves[..|moves| - 1], moves[|moves| - 1];
      RunKeepsTree(m, s, front);
      StepKeeps(m, Run(m, s, front), mv);
      StepKeepsTree(m, Run(m, s, front), mv);
    }
  }

  lemma {:induction false} StartTree(m: P.Problem, count: nat, best: Best, down: Node, up: Node)
    requires count >= 1 && BoxesApart(m, {down, up})
    ensures Tree(m, Start(count, best, down, up))
  {
    hide BoxesApart, Start, Min;
    var s := Start(count, best, down, up);
    StartWorkers(count, best, down, up);
    StartRest(count, best, down, up);
    NoCeilings(s.workers);
    MinTop(s.numerical);
    assert s.open + s.abandoned == {down, up};
  }

  // ---------------------------------------------------------------- what a problem may still hide

  /** Another problem that agrees with everything the search has seen and recorded in `s`. */
  ghost predicate Consistent(m: P.Problem, m': P.Problem, s: State) {
    P.ProblemOk(m') && Inv(m', s) && m' == m.(feasible := m'.feasible, objective := m'.objective)
  }

  /** A lattice value at or above the bound of an abandoned node and below the upper bound. */
  ghost predicate BetterValue(m: P.Problem, s: State, n: Node, v: real) {
    OnLattice(m.lattice, v) && Le(n.bound, Fin(v)) && !Le(s.best.upper, Fin(v))
  }

  predicate IsIncumbent(b: Best, x: seq<real>) {
    b.incumbent.Incumbent? && b.incumbent.point == x
  }

  /** An abandoned node has a point other than the incumbent and a value better than the upper bound to give it. */
  ghost predicate LeavesRoom(m: P.Problem, s: State) {
    exists n, x: seq<real>, v: real ::
      n in s.abandoned && Contains(n.box, x) && !IsIncumbent(s.best, x) && BetterValue(m, s, n, v)
  }

  /** The problem with one more feasible point, of the given value. */
  ghost function WithPoint(m: P.Problem, at: seq<real>, v: real): P.Problem {
    m.(feasible := x => m.feasible(x) || x == at, objective := x => if x == at then v else m.objective(x))
  }

  ghost predicate Settled(s: State) {
    s.open == {} && forall w | 0 <= w < |s.workers| :: s.workers[w].solutions == []
  }

  lemma {:induction false} WithPointOk(m: P.Problem, at: seq<real>, v: real)
    requires P.ProblemOk(m) && Contains(m.start, at) && OnLattice(m.lattice, v)
    ensures P.ProblemOk(WithPoint(m, at, v))
  {
    hide Contains, OnLattice;
  }

  lemma {:induction false} WithPointBounds(m: P.Problem, s: State, n: Node, at: seq<real>, v: real, floor: Ext, nums: Ext)
    requires BoundsPart(m, {}, s.abandoned, floor, nums) && BoxesApart(m, s.abandoned)
    requires n in s.abandoned && Contains(n.box, at) && Le(n.bound, Fin(v))
    ensures BoundsPart(WithPoint(m, at, v), {}, s.abandoned, floor, nums)
  {
    hide Contains, Le;
    var m' := WithPoint(m, at, v);
    forall k | k in s.abandoned ensures P.BoundHolds(m', Plain(k)) {
      assert P.BoundHolds(m, Plain(k));
      forall x: seq<real> | m'.feasible(x) && Contains(k.box, x) ensures Le(k.bound, Fin(m'.objective(x))) {
        if x == at { assert k == n; }
      }
    }
    forall x: seq<real> | m'.feasible(x)
      ensures OpenAt({}, x) || OpenAt(s.abandoned, x) || Le(floor, Fin(m'.objective(x)))
    {
    }
  }

  lemma {:induction false} WithPointInv(m: P.Problem, s: State, n: Node, at: seq<real>, v: real)
    requires Inv(m, s) && Settled(s) && BoxesApart(m, s.abandoned)
    requires n in s.abandoned && Contains(n.box, at) && Le(n.bound, Fin(v)) && !IsIncumbent(s.best, at)
    ensures Inv(WithPoint(m, at, v), s)
  {
    hide Contains, NodesPart, BoundsPart, Floor, NumericalFloor, BestOk;
    WithPointBounds(m, s, n, at, v, Floor(s), NumericalFloor(s));
  }

  /** Room for a better point is room for a problem whose verdict is wrong. */
  lemma {:induction false} RoomIsUsed(m: P.Problem, s: State) returns (m': P.Problem)
    requires P.ProblemOk(m) && Inv(m, s) && Tree(m, s) && Settled(s) && LeavesRoom(m, s)
    ensures Consistent(m, m', s) && !NoBetter(m', s.best.upper)
  {
    hide Contains, Inv, P.ProblemOk, IsIncumbent, Le, OnLattice, Settled, BoundAttained, AbandonedPart, BoxesApart;
    var n, x: seq<real>, v: real :|
      n in s.abandoned && Contains(n.box, x) && !IsIncumbent(s.best, x) && BetterValue(m, s, n, v);
    m' := WithPoint(m, x, v);
    FewerBoxes(m, s.open + s.abandoned, s.abandoned);
    WithPointInv(m, s, n, x, v);
    InStart(m, s.abandoned, n, x);
    WithPointOk(m, x, v);
    assert m'.feasible(x) && m'.objective(x) == v;
  }

  lemma {:induction false} InStart(m: P.Problem, nodes: set<Node>, n: Node, x: seq<real>)
    requires BoxesApart(m, nodes) && n in nodes && Contains(n.box, x)
    ensures Contains(m.start, x)
  {
  }

  /** A better point of any consistent problem sits in an abandoned node that leaves room for it. */
  lemma {:induction false} BetterNeedsRoom(m: P.Problem, m': P.Problem, s: State, x: seq<real>)
    requires Consistent(m, m', s) && s.open == {} && Floor(s) == s.best.upper
    requires m'.feasible(x) && !Le(s.best.upper, Fin(m'.objective(x)))
    ensures LeavesRoom(m, s)
  {
    hide Contains, NodesPart, WorkerPart, Floor, NumericalFloor, OnLattice;
    assert OpenAt(s.abandoned, x);
    var n :| n in s.abandoned && Contains(n.box, x);
    assert P.BoundHolds(m', Plain(n)) && Contains(Plain(n).box, x);
    assert BetterValue(m, s, n, m'.objective(x));
  }

  /**
   * The verdict of an exhausted tree is right for every problem that agrees with what the search knows if and only
   * if the abandoned nodes leave no room for a better point.
   */
  lemma {:induction false} VerdictExactIff(m: P.Problem, s: State)
    requires P.ProblemOk(m) && Inv(m, s) && Tree(m, s) && Settled(s) && Floor(s) == s.best.upper
    ensures (forall m' | Consistent(m, m', s) :: NoBetter(m', s.best.upper)) <==> !LeavesRoom(m, s)
  {
    hide Inv, Tree, P.ProblemOk, Floor, Consistent, LeavesRoom, Le;
    if LeavesRoom(m, s) {
      var m' := RoomIsUsed(m, s);
    } else {
      forall m' | Consistent(m, m', s) ensures NoBetter(m', s.best.upper) {
        forall x: seq<real> | m'.feasible(x) ensures Le(s.best.upper, Fin(m'.objective(x))) {
          if !Le(s.best.upper, Fin(m'.objective(x))) { BetterNeedsRoom(m, m', s, x); }
        }
      }
    }
  }

  // ---------------------------------------------------------------- the numerical bound as the guard

  /** Every abandoned box has a point besides the incumbent. */
  ghost predicate BoxesInhabited(s: State) {
    forall n | n in s.abandoned :: exists x: seq<real> :: Contains(n.box, x) && !IsIncumbent(s.best, x)
  }

  /** Some lattice value lies below any number. */
  lemma {:induction false} LowValue(lattice: ObjectiveLattice, upper: Ext) returns (v: real)
    requires ValidLattice(lattice) && upper != NegInf
    ensures OnLattice(lattice, v) && !Le(upper, Fin(v))
  {
    var u := if upper.Fin? then upper.v else 0.0;
    if lattice.Unknown? { return u - 1.0; }
    var k := ((u - Bias(lattice)) / Lattice.Step(lattice)).Floor - 1;
    v := LatticeValue(lattice, k);
    BelowNumber(Lattice.Step(lattice), (u - Bias(lattice)) / Lattice.Step(lattice), u - Bias(lattice), k);
  }

  lemma {:induction false} BelowNumber(step: real, q: real, d: real, k: int)
    requires step > 0.0 && q == d / step && k as real <= q - 1.0
    ensures k as real * step < d
  {
    var r := q - k as real;
    assert q * step == d;
    assert (r - 1.0) * step >= 0.0;
    assert r * step == d - k as real * step;
    assert (r - 1.0) * step == r * step - step;
  }

  /** The values between the bound and the upper bound: some lattice value is at or above the bound and below it. */
  lemma {:induction false} ValueBetween(m: P.Problem, s: State, n: Node) returns (v: real)
    requires ValidLattice(m.lattice) && !Le(s.best.upper, n.bound)
    requires n.bound.Fin? ==> OnLattice(m.lattice, n.bound.v)
    ensures BetterValue(m, s, n, v)
  {
    if n.bound.Fin? {
      v := n.bound.v;
    } else {
      v := LowValue(m.lattice, s.best.upper);
    }
  }

  /**
   * When the abandoned boxes are inhabited and a finite numerical bound is a lattice value, the guard is exact: the
   * verdict is right for every consistent problem if and only if the numerical bound is not below the upper bound.
   */
  lemma {:induction false} GuardExactIff(m: P.Problem, s: State)
    requires P.ProblemOk(m) && Inv(m, s) && Tree(m, s) && Settled(s)
    requires Floor(s) == s.best.upper && NumericalFloor(s) == s.numerical
    requires BoxesInhabited(s) && (s.numerical.Fin? ==> OnLattice(m.lattice, s.numerical.v))
    ensures (forall m' | Consistent(m, m', s) :: NoBetter(m', s.best.upper)) <==> Le(s.best.upper, s.numerical)
  {
    hide Inv, Tree, P.ProblemOk, Floor, NumericalFloor, Consistent, Contains, NoBetter, IsIncumbent, OnLattice, Settled;
    VerdictExactIff(m, s);
    if Le(s.best.upper, s.numerical) {
      NoRoomAbove(m, s);
    } else {
      var n := AttainingNode(m, s);
      assert exists x: seq<real> :: Contains(n.box, x) && !IsIncumbent(s.best, x);
      var x: seq<real> :| Contains(n.box, x) && !IsIncumbent(s.best, x);
      LatticeOk(m);
      var v := ValueBetween(m, s, n);
    }
  }

  lemma {:induction false} LatticeOk(m: P.Problem)
    requires P.ProblemOk(m)
    ensures ValidLattice(m.lattice)
  {
  }

  lemma {:induction false} AttainingNode(m: P.Problem, s: State) returns (n: Node)
    requires Tree(m, s) && NumericalFloor(s) == s.numerical && !Le(s.best.upper, s.numerical)
    ensures n in s.abandoned && n.bound == s.numerical
  {
    hide BoxesApart, AbandonedPart, NumericalFloor;
    n :| n in s.abandoned && n.bound == NumericalFloor(s);
  }

  lemma {:induction false} NoRoomAbove(m: P.Problem, s: State)
    requires Inv(m, s) && NumericalFloor(s) == s.numerical && Le(s.best.upper, s.numerical)
    ensures !LeavesRoom(m, s)
  {
    hide Floor, NumericalFloor, NodesPart, WorkerPart, BestPart, Contains, Le, OnLattice, IsIncumbent;
    forall n, v: real | n in s.abandoned && Le(n.bound, Fin(v)) ensures Le(s.best.upper, Fin(v)) {
      LeTransitive(s.best.upper, s.numerical, n.bound);
      LeTransitive(s.best.upper, n.bound, Fin(v));
    }
  }

  /** At the end of a run: a synchronisation that finds no work leaves nothing open and nothing pending. */
  lemma {:induction false} VerdictOfRun(m: P.Problem, s: State, moves: seq<Move>)
    requires P.ProblemOk(m) && Inv(m, s) && Tree(m, s) && IsRun(m, s, moves)
    requires moves != [] && moves[|moves| - 1].Sync? && ExhaustedVerdict(Run(m, s, moves)) != Unset
    ensures var e := Run(m, s, moves);
            && (forall m' | Consistent(m, m', e) :: NoBetter(m', e.best.upper)) <==> !LeavesRoom(m, e)
    ensures var e := Run(m, s, moves);
            BoxesInhabited(e) && (e.numerical.Fin? ==> OnLattice(m.lattice, e.numerical.v)) ==>
              ((forall m' | Consistent(m, m', e) :: NoBetter(m', e.best.upper)) <==> Le(e.best.upper, e.numerical))
  {
    hide Inv, Tree, Enabled, Next, P.ProblemOk, NoBetter, Floor, NumericalFloor, Run, Consistent, LeavesRoom, BoxesInhabited,
         OnLattice, Le, Settled, ExhaustedVerdict;
    var front, mv := moves[..|moves| - 1], moves[|moves| - 1];
    var e := Run(m, s, moves);
    LastStep(m, s, moves);
    RunKeepsTree(m, s, front);
    RunKeepsTree(m, s, moves);
    SyncKeeps(m, Run(m, s, front), mv.heuristics, mv.bfs, mv.diving, mv.order);
    ExhaustedIffNoneOpen(m, e);
    SyncSettles(m, Run(m, s, front), mv, e);
    VerdictExactIff(m, e);
    if BoxesInhabited(e) && (e.numerical.Fin? ==> OnLattice(m.lattice, e.numerical.v)) { GuardExactIff(m, e); }
  }

  lemma {:induction false} SyncSettles(m: P.Problem, s: State, mv: Move, t: State)
    requires Inv(m, s) && mv.Sync? && Enabled(m, s, mv) && t == Next(m, s, mv) && t.open == {}
    ensures Settled(t)
  {
  }
}
