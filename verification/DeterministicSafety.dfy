/** Safety of the deterministic mode over every run: no node is lost or doubled, and no better point is forgotten. */
module DeterministicSafety {
  import opened Extended
  import opened SortedOrders
  import opened Replay
  import opened Deterministic
  import opened DeterministicSearch
  import P = ParallelSearch
  import Q = ParallelSafety
  import BranchPath

  // ---------------------------------------------------------------- sums and minima

  lemma {:induction false} PendingPut(ws: seq<Worker>, w: int, wk: Worker, v: Ext)
    requires 0 <= w < |ws| && LeastObjective(wk.solutions) == Min(LeastObjective(ws[w].solutions), v)
    ensures LeastPending(ws[w := wk]) == Min(LeastPending(ws), v)
  {
    hide LeastObjective, Min;
    var n := |ws| - 1;
    var after := ws[w := wk];
    if w == n {
      assert after[..n] == ws[..n];
      MinOrder(LeastPending(ws[..n]), LeastObjective(ws[n].solutions), v);
    } else {
      assert after[..n] == ws[..n][w := wk];
      PendingPut(ws[..n], w, wk, v);
      MinSwap(LeastPending(ws[..n]), v, LeastObjective(ws[n].solutions));
    }
  }

  lemma {:induction false} CeilingPut(ws: seq<Worker>, w: int, wk: Worker, v: Ext)
    requires 0 <= w < |ws| && wk.ceiling == Min(ws[w].ceiling, v)
    ensures LeastCeiling(ws[w := wk]) == Min(LeastCeiling(ws), v)
  {
    hide Min;
    var n := |ws| - 1;
    var after := ws[w := wk];
    if w == n {
      assert after[..n] == ws[..n];
      MinOrder(LeastCeiling(ws[..n]), ws[n].ceiling, v);
    } else {
      assert after[..n] == ws[..n][w := wk];
      CeilingPut(ws[..n], w, wk, v);
      MinSwap(LeastCeiling(ws[..n]), v, ws[n].ceiling);
    }
  }

  lemma {:induction false} MinSwap(a: Ext, b: Ext, c: Ext)
    ensures Min(Min(a, b), c) == Min(Min(a, c), b)
  {
  }

  lemma {:induction false} CloseSum(after: multiset<Node>, before: multiset<Node>, x: multiset<Node>, y: multiset<Node>,
                                    n: multiset<Node>, open: multiset<Node>)
    requires after + x == before + y && x == y + n && before == open + n
    ensures after == open
  {
    forall k ensures after[k] == open[k] {
      assert (after + x)[k] == (before + y)[k];
    }
  }

  lemma {:induction false} BranchSum(after: multiset<Node>, before: multiset<Node>, x: multiset<Node>, y: multiset<Node>,
                                     n: multiset<Node>, c: multiset<Node>, open: multiset<Node>)
    requires after + x == before + y && x + c == y + n && before == open + n
    ensures after == open + c
  {
    forall k ensures after[k] == (open + c)[k] {
      assert (after + x)[k] == (before + y)[k] && (x + c)[k] == (y + n)[k];
    }
  }

  lemma {:induction false} SameSum(after: multiset<Node>, before: multiset<Node>, x: multiset<Node>)
    requires after + x == before + x
    ensures after == before
  {
    forall k ensures after[k] == before[k] {
      assert (after + x)[k] == (before + x)[k];
    }
  }

  lemma {:induction false} SetWithout(open: set<Node>, n: Node)
    requires n in open
    ensures multiset(open) == multiset(open - {n}) + multiset{n}
  {
    assert open == (open - {n}) + {n};
  }

  // ---------------------------------------------------------------- nodes

  lemma {:induction false} HeldIsOpen(ws: seq<Worker>, open: set<Node>, w: int, n: Node)
    requires NodesPart(ws, open) && 0 <= w < |ws| && n in multiset(Held(ws[w]))
    ensures n in open
  {
    hide Held;
    TotalHas(ws, w, n);
    assert n in multiset(open);
  }

  lemma {:induction false} TotalHas(ws: seq<Worker>, w: int, n: Node)
    requires 0 <= w < |ws| && n in multiset(Held(ws[w]))
    ensures n in Total(ws)
  {
    hide Held;
    if w < |ws| - 1 { TotalHas(ws[..|ws| - 1], w, n); }
  }

  lemma {:induction false} IdsKept(ws: seq<Worker>, w: int, wk: Worker, n: Node)
    requires 0 <= w < |ws| && wk.nextNumber >= ws[w].nextNumber && IdOk(ws, n)
    ensures IdOk(ws[w := wk], n)
  {
  }

  lemma {:induction false} SameNodes(ws: seq<Worker>, open: set<Node>, w: int, wk: Worker)
    requires NodesPart(ws, open) && 0 <= w < |ws|
    requires multiset(Held(wk)) == multiset(Held(ws[w])) && wk.nextNumber == ws[w].nextNumber
    ensures NodesPart(ws[w := wk], open)
  {
    hide Held, IdOk, Total;
    TotalPut(ws, w, wk);
    SameSum(Total(ws[w := wk]), Total(ws), multiset(Held(wk)));
    forall n | n in open ensures IdOk(ws[w := wk], n) { IdsKept(ws, w, wk, n); }
  }

  lemma {:induction false} CloseNodes(ws: seq<Worker>, open: set<Node>, w: int, wk: Worker, n: Node)
    requires NodesPart(ws, open) && 0 <= w < |ws|
    requires multiset(Held(ws[w])) == multiset(Held(wk)) + multiset{n} && wk.nextNumber == ws[w].nextNumber
    ensures n in open && NodesPart(ws[w := wk], open - {n})
  {
    hide Held, IdOk, Total;
    assert n in multiset(Held(ws[w]));
    HeldIsOpen(ws, open, w, n);
    TotalPut(ws, w, wk);
    SetWithout(open, n);
    CloseSum(Total(ws[w := wk]), Total(ws), multiset(Held(ws[w])), multiset(Held(wk)), multiset{n}, multiset(open - {n}));
    forall k | k in open - {n} ensures IdOk(ws[w := wk], k) { IdsKept(ws, w, wk, k); }
  }

  lemma {:induction false} NewIds(ws: seq<Worker>, open: set<Node>, w: int, d: Node, u: Node)
    requires NodesPart(ws, open) && 0 <= w < |ws|
    requires d.origin == u.origin == w && d.number == ws[w].nextNumber && u.number == d.number + 1
    ensures d != u && forall n | n in open :: !SameId(n, d) && !SameId(n, u)
  {
    hide Total;
    forall n | n in open ensures !SameId(n, d) && !SameId(n, u) {
      assert IdOk(ws, n);
    }
  }

  lemma {:induction false} BranchNodes(ws: seq<Worker>, open: set<Node>, w: int, wk: Worker, n: Node, d: Node, u: Node)
    requires NodesPart(ws, open) && 0 <= w < |ws| && n in multiset(Held(ws[w]))
    requires multiset(Held(ws[w])) + multiset{d, u} == multiset(Held(wk)) + multiset{n}
    requires wk.nextNumber == ws[w].nextNumber + 2
    requires d.origin == u.origin == w && d.number == ws[w].nextNumber && u.number == d.number + 1
    ensures n in open && NodesPart(ws[w := wk], open - {n} + {d, u})
  {
    hide Held, IdOk, Total;
    HeldIsOpen(ws, open, w, n);
    NewIds(ws, open, w, d, u);
    TotalPut(ws, w, wk);
    SetWithout(open, n);
    BranchSum(Total(ws[w := wk]), Total(ws), multiset(Held(ws[w])), multiset(Held(wk)), multiset{n}, multiset{d, u},
              multiset(open - {n}));
    TwoMore(open - {n}, d, u);
    forall k | k in open - {n} + {d, u} ensures IdOk(ws[w := wk], k) {
      if k in open { IdsKept(ws, w, wk, k); } else { NewIdOk(ws, w, wk, k); }
    }
    forall k, j | k in open - {n} + {d, u} && j in open - {n} + {d, u} && SameId(k, j) ensures k == j {}
  }

  lemma {:induction false} TwoMore(open: set<Node>, d: Node, u: Node)
    requires d !in open && u !in open && d != u
    ensures multiset(open + {d, u}) == multiset(open) + multiset{d, u}
  {
  }

  lemma {:induction false} NewIdOk(ws: seq<Worker>, w: int, wk: Worker, k: Node)
    requires 0 <= w < |ws| && k.origin == w && ws[w].nextNumber <= k.number < wk.nextNumber
    ensures IdOk(ws[w := wk], k)
  {
  }

  // ---------------------------------------------------------------- bounds

  /** Why leaving `n` out loses nothing: its points are not better than the floor, or it is remembered as abandoned. */
  ghost predicate MayClose(m: P.Problem, n: Node, floor: Ext, abandon: bool) {
    abandon || forall x: seq<real> | m.feasible(x) && BranchPath.Contains(n.box, x) :: Le(floor, Fin(m.objective(x)))
  }

  lemma {:induction false} StillOpen(open: set<Node>, n: Node, x: seq<real>)
    ensures OpenAt(open, x) ==> OpenAt(open - {n}, x) || BranchPath.Contains(n.box, x)
  {
    hide BranchPath.Contains;
    if OpenAt(open, x) {
      var k :| k in open && BranchPath.Contains(k.box, x);
      assert k == n || k in open - {n};
    }
  }

  lemma {:induction false} MoreOpen(a: set<Node>, b: set<Node>, x: seq<real>)
    requires a <= b
    ensures OpenAt(a, x) ==> OpenAt(b, x)
  {
    hide BranchPath.Contains;
    if OpenAt(a, x) {
      var k :| k in a && BranchPath.Contains(k.box, x);
      assert k in b;
    }
  }

  lemma {:induction false} LowerBounds(m: P.Problem, open: set<Node>, abandoned: set<Node>, floor: Ext, nums: Ext,
                                       floor': Ext, nums': Ext)
    requires BoundsPart(m, open, abandoned, floor, nums) && Le(floor', floor) && Le(nums', nums)
    ensures BoundsPart(m, open, abandoned, floor', nums')
  {
    hide P.BoundHolds, OpenAt, Le;
    forall n | n in abandoned ensures Le(nums', n.bound) { LeTransitive(nums', nums, n.bound); }
    forall x: seq<real> | m.feasible(x)
      ensures OpenAt(open, x) || OpenAt(abandoned, x) || Le(floor', Fin(m.objective(x)))
    {
      if Le(floor, Fin(m.objective(x))) { LeTransitive(floor', floor, Fin(m.objective(x))); }
    }
  }

  lemma {:induction false} CloseBounds(m: P.Problem, open: set<Node>, abandoned: set<Node>, n: Node, abandon: bool,
                                       floor: Ext, nums: Ext)
    requires BoundsPart(m, open, abandoned, floor, nums) && n in open && MayClose(m, n, floor, abandon)
    requires abandon ==> Le(nums, n.bound)
    ensures BoundsPart(m, open - {n}, abandoned + (if abandon then {n} else {}), floor, nums)
  {
    hide P.BoundHolds, BranchPath.Contains;
    var gone := abandoned + (if abandon then {n} else {});
    forall x: seq<real> | m.feasible(x)
      ensures OpenAt(open - {n}, x) || OpenAt(gone, x) || Le(floor, Fin(m.objective(x)))
    {
      StillOpen(open, n, x);
      MoreOpen(abandoned, gone, x);
      if abandon && BranchPath.Contains(n.box, x) { assert n in gone; }
    }
  }

  lemma {:induction false} BranchBounds(m: P.Problem, open: set<Node>, abandoned: set<Node>, n: Node, d: Node, u: Node,
                                        floor: Ext, nums: Ext)
    requires BoundsPart(m, open, abandoned, floor, nums) && n in open
    requires P.BoundHolds(m, Plain(d)) && P.BoundHolds(m, Plain(u)) && Le(n.bound, d.bound) && Le(n.bound, u.bound)
    requires Q.ChildrenCover(m, Plain(n), Plain(d), Plain(u))
    ensures BoundsPart(m, open - {n} + {d, u}, abandoned, floor, nums)
  {
    hide P.BoundHolds, BranchPath.Contains;
    var after := open - {n} + {d, u};
    LeTransitive(m.rootBound, n.bound, d.bound);
    LeTransitive(m.rootBound, n.bound, u.bound);
    forall x: seq<real> | m.feasible(x) ensures OpenAt(open, x) ==> OpenAt(after, x) {
      StillOpen(open, n, x);
      MoreOpen(open - {n}, after, x);
      if BranchPath.Contains(n.box, x) {
        assert BranchPath.Contains(Plain(n).box, x);
        assert d in after && u in after;
      }
    }
  }

  // ---------------------------------------------------------------- one worker's steps

  lemma {:induction false} WorkersKeep(m: P.Problem, ws: seq<Worker>, w: int, wk: Worker, ws': seq<Worker>, floor: Ext, floor': Ext)
    requires 0 <= w < |ws| && ws' == ws[w := wk] && Le(floor', floor) && WorkerPart(m, wk, floor')
    requires forall v | 0 <= v < |ws| :: WorkerPart(m, ws[v], floor)
    ensures forall v | 0 <= v < |ws'| :: WorkerPart(m, ws'[v], floor')
  {
    hide FoundsOk, Le;
    forall v | 0 <= v < |ws'| ensures WorkerPart(m, ws'[v], floor') {
      if v != w { LeTransitive(floor', floor, ws[v].upper); }
    }
  }

  lemma {:induction false} UnchangedFloors(s: State, w: int, wk: Worker)
    requires 0 <= w < |s.workers| && wk.solutions == s.workers[w].solutions && wk.ceiling == s.workers[w].ceiling
    ensures var s' := s.(workers := s.workers[w := wk]);
            Floor(s') == Floor(s) && NumericalFloor(s') == NumericalFloor(s)
  {
    hide LeastObjective;
    MinTop(LeastObjective(s.workers[w].solutions));
    MinTop(s.workers[w].ceiling);
    PendingPut(s.workers, w, wk, PosInf);
    CeilingPut(s.workers, w, wk, PosInf);
    MinTop(LeastPending(s.workers));
    MinTop(LeastCeiling(s.workers));
  }

  lemma {:induction false} BegunWorker(m: P.Problem, wk: Worker, k: int, floor: Ext)
    requires CanTake(wk, k) && wk.current.None? && WorkerPart(m, wk, floor)
    ensures var wk' := Begun(wk, k);
            && WorkerPart(m, wk', floor) && wk'.solutions == wk.solutions && wk'.ceiling == wk.ceiling
            && wk'.nextNumber == wk.nextNumber
            && multiset(Held(wk)) == multiset(Held(wk')) +
                 (if Lt(wk.upper, TakenNode(wk, k).bound) then multiset{TakenNode(wk, k)} else multiset{})
  {
    hide Held, FoundsOk;
    TakeConserves(wk, k);
    LeReflexive(wk.upper);
    var rest, n := AfterTake(wk, k), TakenNode(wk, k);
    assert rest.(current := None) == rest;
    PausedBag(rest, n, wk.upper);
  }

  /** A worker without a paused node gets one. */
  lemma {:induction false} PausedBag(rest: Worker, n: Node, cutoff: Ext)
    requires rest.current.None?
    ensures multiset(Held(rest.(current := Some(n), cutoff := cutoff))) == multiset(Held(rest)) + multiset{n}
  {
    assert Held(rest.(current := Some(n), cutoff := cutoff)) == [n] + Held(rest);
  }

  lemma {:induction false} BeginKeeps(m: P.Problem, s: State, w: int, k: int)
    requires Inv(m, s) && Enabled(m, s, Begin(w, k))
    ensures Inv(m, Next(m, s, Begin(w, k)))
  {
    hide NodesPart, BoundsPart, WorkerPart, BestPart, Held, CanTake, Floor, NumericalFloor, P.BoundHolds, Begun;
    var wk := s.workers[w];
    var n, wk' := TakenNode(wk, k), Begun(wk, k);
    var floor := Floor(s);
    BegunWorker(m, wk, k, floor);
    UnchangedFloors(s, w, wk');
    LeReflexive(floor);
    WorkersKeep(m, s.workers, w, wk', s.workers[w := wk'], floor, floor);
    var s' := s.(workers := s.workers[w := wk']);
    if Lt(wk.upper, n.bound) {
      CloseNodes(s.workers, s.open, w, wk', n);
      OpenBoundHolds(m, s, n);
      WorkerFloor(m, wk, floor);
      FathomReason(m, n, wk.upper, floor);
      CloseBounds(m, s.open, s.abandoned, n, false, floor, NumericalFloor(s));
      assert s.abandoned + {} == s.abandoned;
      FloorsOf(s', s'.(open := s.open - {n}));
    } else {
      SameNodes(s.workers, s.open, w, wk');
    }
  }

  lemma {:induction false} FloorsOf(s: State, t: State)
    requires s.workers == t.workers && s.best == t.best && s.numerical == t.numerical
    ensures Floor(s) == Floor(t) && NumericalFloor(s) == NumericalFloor(t)
  {
  }

  lemma {:induction false} OpenBoundHolds(m: P.Problem, s: State, n: Node)
    requires BoundsPart(m, s.open, s.abandoned, Floor(s), NumericalFloor(s)) && n in s.open
    ensures P.BoundHolds(m, Plain(n)) && Le(m.rootBound, n.bound)
  {
  }

  lemma {:induction false} WorkerFloor(m: P.Problem, wk: Worker, floor: Ext)
    requires WorkerPart(m, wk, floor)
    ensures Le(floor, wk.upper)
  {
  }

  lemma {:induction false} FathomReason(m: P.Problem, n: Node, upper: Ext, floor: Ext)
    requires P.BoundHolds(m, Plain(n)) && Lt(upper, n.bound) && Le(floor, upper)
    ensures MayClose(m, n, floor, false)
  {
    hide BranchPath.Contains, Le;
    forall x: seq<real> | m.feasible(x) && BranchPath.Contains(n.box, x) ensures Le(floor, Fin(m.objective(x))) {
      LtLe(upper, n.bound);
      LeTransitive(floor, upper, n.bound);
      assert BranchPath.Contains(Plain(n).box, x);
      LeTransitive(floor, n.bound, Fin(m.objective(x)));
    }
  }

  // ---------------------------------------------------------------- the answer of the LP

  /** Whatever the answer, a node that is neither branched on nor abandoned has no point better than the new floor. */
  lemma {:induction false} AnswerCloses(m: P.Problem, wk: Worker, w: int, r: P.Lp, floor: Ext, floor': Ext)
    requires P.ProblemOk(m) && wk.current.Some? && AnswerOk(m, wk.current.value, wk.cutoff, r) && !Branches(m, wk, r)
    requires Le(floor', wk.upper) && Le(wk.upper, wk.cutoff) && (r.Integral? ==> Le(floor', Fin(r.value)))
    ensures MayClose(m, wk.current.value, floor', r.NumericalTrouble?)
  {
    hide BranchPath.Contains, Le, P.SnappedBound;
    var n := wk.current.value;
    if !r.NumericalTrouble? {
      forall x: seq<real> | m.feasible(x) && BranchPath.Contains(n.box, x) ensures Le(floor', Fin(m.objective(x))) {
        assert BranchPath.Contains(Plain(n).box, x);
        if r.AboveCutoff? {
          CutoffReaches(wk.cutoff, m.dualTol, r.relaxation, m.objective(x));
          LeTransitive(floor', wk.upper, wk.cutoff);
          LeTransitive(floor', wk.cutoff, Fin(m.objective(x)));
        } else if r.Integral? {
          FinLe(r.value, m.objective(x));
          LeTransitive(floor', Fin(r.value), Fin(m.objective(x)));
        } else if r.Fractional? {
          Q.SnappedHolds(m, Plain(n), r.value);
          PastTolerance(wk.upper, m.fathomTol, P.SnappedBound(m, r.value));
          LeTransitive(floor', wk.upper, P.SnappedBound(m, r.value));
          LeTransitive(floor', P.SnappedBound(m, r.value), Fin(m.objective(x)));
        }
      }
    }
  }

  lemma {:induction false} CutoffReaches(cutoff: Ext, dualTol: real, relaxation: real, v: real)
    requires cutoff.Fin? && relaxation >= cutoff.v + dualTol && dualTol >= 0.0 && relaxation <= v
    ensures Le(cutoff, Fin(v))
  {
  }

  lemma {:induction false} FinLe(a: real, b: real)
    requires a <= b
    ensures Le(Fin(a), Fin(b))
  {
  }

  lemma {:induction false} PastTolerance(upper: Ext, tol: real, b: Ext)
    requires tol >= 0.0 && upper != PosInf && !(upper.Fin? && Le(b, Fin(upper.v + tol)))
    ensures Le(upper, b)
  {
  }

  lemma {:induction false} TakeOneFound(fs: seq<Found>, f: Found)
    ensures LeastObjective(fs + [f]) == Min(LeastObjective(fs), Fin(f.objective))
  {
    assert (fs + [f])[..|fs|] == fs;
  }

  /** What the answer adds to the pending solutions: nothing, or one solution. */
  function NewPending(wk: Worker, r: P.Lp): Ext {
    if r.Integral? && Lt(Fin(r.value), wk.upper) then Fin(r.value) else PosInf
  }

  function NewCeiling(wk: Worker, r: P.Lp): Ext
    requires wk.current.Some?
  {
    if r.NumericalTrouble? then wk.current.value.bound else PosInf
  }

  lemma {:induction false} CompletedFloors(m: P.Problem, s: State, w: int, r: P.Lp)
    requires 0 <= w < |s.workers| && s.workers[w].current.Some?
    ensures var s' := s.(workers := s.workers[w := Completed(m, s.workers[w], w, r)]);
            && Floor(s') == Min(Floor(s), NewPending(s.workers[w], r))
            && NumericalFloor(s') == Min(NumericalFloor(s), NewCeiling(s.workers[w], r))
  {
    hide LeastObjective, P.SnappedBound, Branches;
    var wk := s.workers[w];
    var wk', v, c := Completed(m, wk, w, r), NewPending(wk, r), NewCeiling(wk, r);
    if v.Fin? { TakeOneFound(wk.solutions, wk'.solutions[|wk.solutions|]); }
    MinTop(LeastObjective(wk.solutions));
    PendingPut(s.workers, w, wk', v);
    CeilingPut(s.workers, w, wk', c);
    MinOrder(s.best.upper, LeastPending(s.workers), v);
    MinOrder(s.numerical, LeastCeiling(s.workers), c);
  }

  lemma {:induction false} CompletedWorker(m: P.Problem, wk: Worker, w: int, r: P.Lp, floor: Ext)
    requires wk.current.Some? && WorkerPart(m, wk, floor) && AnswerOk(m, wk.current.value, wk.cutoff, r)
    ensures WorkerPart(m, Completed(m, wk, w, r), Min(floor, NewPending(wk, r)))
    ensures Le(Min(floor, NewPending(wk, r)), floor)
    ensures r.Integral? ==> Le(Min(floor, NewPending(wk, r)), Fin(r.value))
  {
    hide P.SnappedBound, Branches, Le, BranchPath.Contains, P.Relaxes;
    var floor' := Min(floor, NewPending(wk, r));
    MinSides(floor, NewPending(wk, r));
    LeTransitive(floor', floor, wk.upper);
    if r.Integral? && !Lt(Fin(r.value), wk.upper) {
      LeTransitive(floor', wk.upper, Fin(r.value));
    }
  }

  lemma {:induction false} CompletedBag(m: P.Problem, wk: Worker, w: int, r: P.Lp)
    requires wk.current.Some?
    ensures Branches(m, wk, r) ==> r.Fractional?
    ensures !Branches(m, wk, r) ==> ClosedBag(wk, Completed(m, wk, w, r))
    ensures Branches(m, wk, r) ==> BranchedBag(wk, Completed(m, wk, w, r), DownOf(m, wk, w, r), UpOf(m, wk, w, r))
    ensures wk.current.value in multiset(Held(wk))
  {
    hide P.SnappedBound, ClosedBag, BranchedBag, WithChildren, DownOf, UpOf, Held;
    CurrentApart(wk);
    if Branches(m, wk, r) {
      CompletedBranch(m, wk, w, r);
    } else {
      CompletedClose(m, wk, w, r);
    }
  }

  predicate ClosedBag(wk: Worker, wk': Worker)
    requires wk.current.Some?
  {
    multiset(Held(wk)) == multiset(Held(wk')) + multiset{wk.current.value} && wk'.nextNumber == wk.nextNumber
  }

  predicate BranchedBag(wk: Worker, wk': Worker, d: Node, u: Node)
    requires wk.current.Some?
  {
    && multiset(Held(wk)) + multiset{d, u} == multiset(Held(wk')) + multiset{wk.current.value}
    && wk'.nextNumber == wk.nextNumber + 2
  }

  lemma {:induction false} CompletedClose(m: P.Problem, wk: Worker, w: int, r: P.Lp)
    requires wk.current.Some? && !Branches(m, wk, r)
    ensures ClosedBag(wk, Completed(m, wk, w, r))
  {
    hide P.SnappedBound, Branches, Held;
    CurrentApart(wk);
    SameHeld(wk.(current := None), Completed(m, wk, w, r));
  }

  lemma {:induction false} CompletedBranch(m: P.Problem, wk: Worker, w: int, r: P.Lp)
    requires wk.current.Some? && Branches(m, wk, r)
    ensures BranchedBag(wk, Completed(m, wk, w, r), DownOf(m, wk, w, r), UpOf(m, wk, w, r))
  {
    hide P.SnappedBound, Held, P.Narrowed, P.DownChild, P.UpChild, Evicted;
    var done := wk.(current := None);
    var d, u := DownOf(m, wk, w, r), UpOf(m, wk, w, r);
    CurrentApart(wk);
    ChildrenConserve(done, w, d, u, r.upFirst);
    assert d.(origin := w, number := done.nextNumber) == d && u.(origin := w, number := done.nextNumber + 1) == u;
    Exchange(multiset(Held(wk)), multiset(Held(done)), multiset{wk.current.value}, multiset{d, u});
  }

  lemma {:induction false} Exchange(a: multiset<Node>, b: multiset<Node>, n: multiset<Node>, c: multiset<Node>)
    requires a == b + n
    ensures a + c == (b + c) + n
  {
  }

  lemma {:induction false} CurrentApart(wk: Worker)
    requires wk.current.Some?
    ensures multiset(Held(wk)) == multiset(Held(wk.(current := None))) + multiset{wk.current.value}
  {
    assert Held(wk) == [wk.current.value] + Held(wk.(current := None));
  }

  lemma {:induction false} SameHeld(a: Worker, b: Worker)
    ensures a.current == b.current && a.plunge == b.plunge && a.backlog == b.backlog ==> Held(a) == Held(b)
  {
  }

  /** Facts about a worker and the node it solves. */
  lemma {:induction false} SolvingFacts(m: P.Problem, s: State, w: int)
    requires Inv(m, s) && 0 <= w < |s.workers| && s.workers[w].current.Some?
    ensures s.workers[w].current.value in s.open && P.BoundHolds(m, Plain(s.workers[w].current.value))
    ensures Le(Floor(s), s.workers[w].upper) && Le(s.workers[w].upper, s.workers[w].cutoff)
    ensures WorkerPart(m, s.workers[w], Floor(s))
  {
    hide NodesPart, P.BoundHolds, FoundsOk, Floor, NumericalFloor, Held;
    CurrentApart(s.workers[w]);
    HeldIsOpen(s.workers, s.open, w, s.workers[w].current.value);
  }

  lemma {:induction false} CompleteKeeps(m: P.Problem, s: State, w: int, r: P.Lp)
    requires P.ProblemOk(m) && Inv(m, s) && Enabled(m, s, Complete(w, r))
    ensures Inv(m, Next(m, s, Complete(w, r)))
  {
    hide NodesPart, BoundsPart, WorkerPart, BestPart, Held, Floor, NumericalFloor, P.BoundHolds, Completed, AnswerOk, Branches,
         P.ProblemOk, MayClose, DownOf, UpOf, Q.ChildrenCover, Le, NewPending, NewCeiling, Min;
    var wk := s.workers[w];
    var n, wk' := wk.current.value, Completed(m, wk, w, r);
    var floor, nums := Floor(s), NumericalFloor(s);
    var s' := s.(workers := s.workers[w := wk']);
    SolvingFacts(m, s, w);
    CompletedFloors(m, s, w, r);
    CompletedWorker(m, wk, w, r, floor);
    CompletedBag(m, wk, w, r);
    var floor', nums' := Floor(s'), NumericalFloor(s');
    MinSides(nums, NewCeiling(wk, r));
    LeTransitive(floor', floor, wk.upper);
    WorkersKeep(m, s.workers, w, wk', s.workers[w := wk'], floor, floor');
    LowerBounds(m, s.open, s.abandoned, floor, nums, floor', nums');
    FloorsOf(s', Next(m, s, Complete(w, r)));
    if Branches(m, wk, r) {
      var d, u := DownOf(m, wk, w, r), UpOf(m, wk, w, r);
      ChildFacts(m, wk, w, r);
      BranchNodes(s.workers, s.open, w, wk', n, d, u);
      BranchBounds(m, s.open, s.abandoned, n, d, u, floor', nums');
      assert s.abandoned + {} == s.abandoned;
    } else {
      CloseNodes(s.workers, s.open, w, wk', n);
      AnswerCloses(m, wk, w, r, floor, floor');
      CeilingCovers(wk, r, nums, nums');
      CloseBounds(m, s.open, s.abandoned, n, r.NumericalTrouble?, floor', nums');
      assert s.open - {n} + {} == s.open - {n};
    }
  }

  lemma {:induction false} CeilingCovers(wk: Worker, r: P.Lp, nums: Ext, nums': Ext)
    requires wk.current.Some? && nums' == Min(nums, NewCeiling(wk, r))
    ensures r.NumericalTrouble? ==> Le(nums', wk.current.value.bound)
  {
  }

  lemma {:induction false} ChildFacts(m: P.Problem, wk: Worker, w: int, r: P.Lp)
    requires P.ProblemOk(m) && wk.current.Some? && AnswerOk(m, wk.current.value, wk.cutoff, r) && Branches(m, wk, r)
    ensures var n, d, u := wk.current.value, DownOf(m, wk, w, r), UpOf(m, wk, w, r);
            && P.BoundHolds(m, Plain(d)) && P.BoundHolds(m, Plain(u)) && Le(n.bound, d.bound) && Le(n.bound, u.bound)
            && Q.ChildrenCover(m, Plain(n), Plain(d), Plain(u))
            && d.origin == u.origin == w && d.number == wk.nextNumber && u.number == d.number + 1
            && !r.NumericalTrouble?
  {
    hide P.Narrowed, BranchPath.Contains, P.SnappedBound;
    var n := Plain(wk.current.value);
    Q.ChildrenOk(m, n, wk.cutoff, r, 0);
    SameBoxes(m, n, P.DownChild(m, n, r, 0), Plain(DownOf(m, wk, w, r)), P.UpChild(m, n, r, 1), Plain(UpOf(m, wk, w, r)));
  }

  /** The promises about the children do not depend on their ids. */
  lemma {:induction false} SameBoxes(m: P.Problem, n: P.Node, d: P.Node, d': P.Node, u: P.Node, u': P.Node)
    requires d.box == d'.box && d.bound == d'.bound && u.box == u'.box && u.bound == u'.bound
    requires P.BoundHolds(m, d) && P.BoundHolds(m, u) && Q.ChildrenCover(m, n, d, u)
    ensures P.BoundHolds(m, d') && P.BoundHolds(m, u') && Q.ChildrenCover(m, n, d', u')
  {
    hide BranchPath.Contains;
  }

  // ---------------------------------------------------------------- synchronisation

  lemma {:induction false} LeastObjectiveAppend(a: seq<Found>, b: seq<Found>)
    ensures LeastObjective(a + b) == Min(LeastObjective(a), LeastObjective(b))
  {
    if b == [] {
      assert a + b == a;
      MinTop(LeastObjective(a));
    } else {
      var front, last := b[..|b| - 1], Fin(b[|b| - 1].objective);
      LeastObjectiveAppend(a, front);
      assert (a + b)[..|a + b| - 1] == a + front;
      MinOrder(LeastObjective(a), LeastObjective(front), last);
    }
  }

  lemma {:induction false} PendingIsAll(ws: seq<Worker>)
    ensures LeastPending(ws) == LeastObjective(AllSolutions(ws))
  {
    hide LeastObjective;
    if ws == [] {
      NoObjective();
    } else {
      PendingIsAll(ws[..|ws| - 1]);
      LeastObjectiveAppend(AllSolutions(ws[..|ws| - 1]), ws[|ws| - 1].solutions);
    }
  }

  lemma {:induction false} NoObjective()
    ensures LeastObjective([]) == PosInf
  {
  }

  /** The least objective is below every solution, and is that of one of them. */
  lemma {:induction false} LeastObjectiveIs(fs: seq<Found>)
    ensures forall f | f in fs :: Le(LeastObjective(fs), Fin(f.objective))
    ensures LeastObjective(fs) == PosInf || exists f :: f in fs && LeastObjective(fs) == Fin(f.objective)
  {
    if fs != [] {
      var front, last := fs[..|fs| - 1], fs[|fs| - 1];
      LeastObjectiveIs(front);
      assert fs == front + [last];
      MinSides(LeastObjective(front), Fin(last.objective));
      forall f | f in fs ensures Le(LeastObjective(fs), Fin(f.objective)) {
        if f in front { LeTransitive(LeastObjective(fs), LeastObjective(front), Fin(f.objective)); }
      }
      if LeastObjective(fs) == Fin(last.objective) {
        assert last in fs;
      } else if LeastObjective(front) != PosInf {
        var f :| f in front && LeastObjective(front) == Fin(f.objective);
        assert f in fs;
      }
    }
  }

  lemma {:induction false} LeastObjectiveOrder(a: seq<Found>, b: seq<Found>)
    requires multiset(a) == multiset(b)
    ensures Le(LeastObjective(a), LeastObjective(b))
  {
    hide LeastObjective;
    LeastObjectiveIs(a);
    LeastObjectiveIs(b);
    if LeastObjective(b) != PosInf {
      var f :| f in b && LeastObjective(b) == Fin(f.objective);
      assert f in multiset(a);
    }
  }

  /** After a synchronisation the shared bound is at least as good as anything that was pending. */
  lemma {:induction false} SyncUpper(s: State, heuristics: seq<Found>, bfs: seq<Found>, diving: seq<Found>)
    requires BestOk(s.best) && multiset(bfs) == multiset(AllSolutions(s.workers))
    ensures var b := SyncBest(s.best, heuristics, bfs, diving); BestOk(b) && Le(b.upper, Floor(s))
  {
    hide LeastObjective, TakeHeuristics, TakeWorkers, Le, Min, BestOk;
    var h := TakeHeuristics(s.best, heuristics);
    var b := TakeWorkers(h, bfs);
    HeuristicsUpper(s.best, heuristics);
    WorkersUpper(h, bfs);
    WorkersUpper(b, diving);
    PendingIsAll(s.workers);
    LeastObjectiveOrder(bfs, AllSolutions(s.workers));
    MinSides(s.best.upper, LeastObjective(heuristics));
    MinSides(h.upper, LeastObjective(bfs));
    MinSides(b.upper, LeastObjective(diving));
    var u := TakeWorkers(b, diving).upper;
    LeTransitive(u, b.upper, h.upper);
    LeTransitive(u, h.upper, s.best.upper);
    LeTransitive(u, b.upper, LeastObjective(bfs));
    LeTransitive(u, LeastObjective(bfs), LeastPending(s.workers));
    MinSides(s.best.upper, LeastPending(s.workers));
  }

  lemma {:induction false} SyncFeasible(m: P.Problem, b: Best, heuristics: seq<Found>, bfs: seq<Found>, diving: seq<Found>)
    requires BestPart(m, b) && FoundsOk(m, heuristics) && FoundsOk(m, bfs) && FoundsOk(m, diving)
    ensures BestPart(m, SyncBest(b, heuristics, bfs, diving))
  {
    hide FoundsOk;
    HeuristicsFeasible(m, b, heuristics);
    WorkersFeasible(m, TakeHeuristics(b, heuristics), bfs);
    WorkersFeasible(m, TakeWorkers(TakeHeuristics(b, heuristics), bfs), diving);
  }

  lemma {:induction false} HeuristicsFeasible(m: P.Problem, b: Best, fs: seq<Found>)
    requires BestPart(m, b) && FoundsOk(m, fs)
    ensures BestPart(m, TakeHeuristics(b, fs))
  {
    if fs != [] {
      HeuristicsFeasible(m, b, fs[..|fs| - 1]);
      assert fs[|fs| - 1] in fs;
    }
  }

  lemma {:induction false} WorkersFeasible(m: P.Problem, b: Best, fs: seq<Found>)
    requires BestPart(m, b) && FoundsOk(m, fs)
    ensures BestPart(m, TakeWorkers(b, fs))
  {
    if fs != [] {
      WorkersFeasible(m, b, fs[..|fs| - 1]);
      assert fs[|fs| - 1] in fs;
    }
  }

  lemma {:induction false} AllFeasible(m: P.Problem, ws: seq<Worker>)
    requires forall w | 0 <= w < |ws| :: FoundsOk(m, ws[w].solutions)
    ensures FoundsOk(m, AllSolutions(ws))
  {
    if ws != [] { AllFeasible(m, ws[..|ws| - 1]); }
  }

  lemma {:induction false} SolutionsFeasible(m: P.Problem, s: State, bfs: seq<Found>)
    requires Inv(m, s) && multiset(bfs) == multiset(AllSolutions(s.workers))
    ensures FoundsOk(m, bfs)
  {
    hide NodesPart, BoundsPart, Floor;
    AllFeasible(m, s.workers);
    forall f | f in bfs ensures m.feasible(f.point) && m.objective(f.point) == f.objective {
      assert f in multiset(AllSolutions(s.workers));
    }
  }

  /** Rebalancing and refreshing change no node, no numbering and no ceiling. */
  lemma {:induction false} RefreshedWorkers(s: State, order: seq<Node>, upper: Ext)
    requires s.workers != []
    requires NeedsBalance(s.workers) ==> multiset(order) == multiset(AllBacklog(s.workers))
    ensures var ws := Refreshed(Rebalanced(s.workers, order), upper);
            && |ws| == |s.workers| && Total(ws) == Total(s.workers) && LeastCeiling(ws) == LeastCeiling(s.workers)
            && LeastPending(ws) == PosInf
            && forall w | 0 <= w < |ws| :: ws[w].nextNumber == s.workers[w].nextNumber && ws[w].solutions == []
                                           && ws[w].upper == upper && ws[w].current == s.workers[w].current
                                           && ws[w].cutoff == s.workers[w].cutoff
  {
    hide Total, Distributed, NeedsBalance;
    var mid := Rebalanced(s.workers, order);
    if NeedsBalance(s.workers) {
      RebalanceConserves(s.workers, order);
      forall w | 0 <= w < |s.workers| ensures mid[w] == s.workers[w].(plunge := mid[w].plunge, backlog := []) {
        RebalanceShares(Emptied(s.workers), order, w);
      }
    }
    RefreshedTotal(mid, upper);
    SameCeilings(s.workers, Refreshed(mid, upper));
    NoPending(Refreshed(mid, upper));
  }

  lemma {:induction false} RefreshedTotal(ws: seq<Worker>, upper: Ext)
    ensures Total(Refreshed(ws, upper)) == Total(ws)
  {
    hide Total, Held;
    var after := Refreshed(ws, upper);
    forall w | 0 <= w < |ws| ensures Held(ws[w]) == Held(after[w]) { SameHeld(ws[w], after[w]); }
    SameTotal(ws, after);
  }

  lemma {:induction false} SameTotal(a: seq<Worker>, b: seq<Worker>)
    requires |a| == |b| && forall w | 0 <= w < |a| :: Held(a[w]) == Held(b[w])
    ensures Total(a) == Total(b)
  {
    hide Held;
    if a != [] { SameTotal(a[..|a| - 1], b[..|b| - 1]); }
  }

  lemma {:induction false} SameCeilings(a: seq<Worker>, b: seq<Worker>)
    requires |a| == |b| && forall w | 0 <= w < |a| :: a[w].ceiling == b[w].ceiling
    ensures LeastCeiling(a) == LeastCeiling(b)
  {
    if a != [] { SameCeilings(a[..|a| - 1], b[..|b| - 1]); }
  }

  lemma {:induction false} NoPending(ws: seq<Worker>)
    requires forall w | 0 <= w < |ws| :: ws[w].solutions == []
    ensures LeastPending(ws) == PosInf
  {
    if ws != [] { NoPending(ws[..|ws| - 1]); }
  }

  lemma {:induction false} SameIds(a: seq<Worker>, b: seq<Worker>, open: set<Node>)
    requires NodesPart(a, open) && |a| == |b| && Total(a) == Total(b)
    requires forall w | 0 <= w < |a| :: a[w].nextNumber == b[w].nextNumber
    ensures NodesPart(b, open)
  {
    hide Total;
    forall n | n in open ensures IdOk(b, n) { assert IdOk(a, n); }
  }

  lemma {:induction false} SyncKeeps(m: P.Problem, s: State, heuristics: seq<Found>, bfs: seq<Found>, diving: seq<Found>, order: seq<Node>)
    requires Inv(m, s) && Enabled(m, s, Sync(heuristics, bfs, diving, order))
    ensures var s' := Next(m, s, Sync(heuristics, bfs, diving, order));
            Inv(m, s') && Floor(s') == s'.best.upper && NumericalFloor(s') == s'.numerical && Le(s'.best.upper, Floor(s))
  {
    hide NodesPart, BoundsPart, BestOk, FoundsOk, Sorted, SyncBest, Le, Refreshed, Rebalanced;
    var s' := Next(m, s, Sync(heuristics, bfs, diving, order));
    RefreshedWorkers(s, order, s'.best.upper);
    SolutionsFeasible(m, s, bfs);
    SyncUpper(s, heuristics, bfs, diving);
    SyncFeasible(m, s.best, heuristics, bfs, diving);
    MinTop(s'.best.upper);
    MinTwice(s.numerical, LeastCeiling(s.workers));
    SameIds(s.workers, s'.workers, s.open);
    LeReflexive(s'.numerical);
    LowerBounds(m, s.open, s.abandoned, Floor(s), NumericalFloor(s), Floor(s'), NumericalFloor(s'));
    SyncWorkers(m, s, s');
  }

  lemma {:induction false} MinTwice(a: Ext, b: Ext)
    ensures Min(Min(a, b), b) == Min(a, b)
  {
  }

  lemma {:induction false} SyncWorkers(m: P.Problem, s: State, s': State)
    requires |s'.workers| == |s.workers| && Le(Floor(s'), Floor(s)) && Floor(s') == s'.best.upper
    requires forall w | 0 <= w < |s.workers| :: WorkerPart(m, s.workers[w], Floor(s))
    requires forall w | 0 <= w < |s.workers| ::
               s'.workers[w].solutions == [] && s'.workers[w].upper == s'.best.upper
               && s'.workers[w].current == s.workers[w].current && s'.workers[w].cutoff == s.workers[w].cutoff
    ensures forall w | 0 <= w < |s'.workers| :: WorkerPart(m, s'.workers[w], Floor(s'))
  {
    hide Floor, Le;
    forall w | 0 <= w < |s'.workers| ensures WorkerPart(m, s'.workers[w], Floor(s')) {
      var old_, new_ := s.workers[w], s'.workers[w];
      assert WorkerPart(m, old_, Floor(s));
      LeReflexive(s'.best.upper);
      if new_.current.Some? {
        LeTransitive(s'.best.upper, Floor(s), old_.upper);
        LeTransitive(s'.best.upper, old_.upper, old_.cutoff);
      }
    }
  }

  // ---------------------------------------------------------------- runs

  lemma {:induction false} StepKeeps(m: P.Problem, s: State, mv: Move)
    requires P.ProblemOk(m) && Inv(m, s) && Enabled(m, s, mv)
    ensures Inv(m, Next(m, s, mv))
  {
    hide Inv, Enabled, Next, P.ProblemOk;
    match mv
    case Begin(w, k) => BeginKeeps(m, s, w, k);
    case Complete(w, r) => CompleteKeeps(m, s, w, r);
    case Sync(heuristics, bfs, diving, order) => SyncKeeps(m, s, heuristics, bfs, diving, order);
  }

  lemma {:induction false} RunKeeps(m: P.Problem, s: State, moves: seq<Move>)
    requires P.ProblemOk(m) && Inv(m, s) && IsRun(m, s, moves)
    ensures Inv(m, Run(m, s, moves))
  {
    hide Inv, Enabled, Next, P.ProblemOk;
    if moves != [] {
      RunKeeps(m, s, moves[..|moves| - 1]);
      StepKeeps(m, Run(m, s, moves[..|moves| - 1]), moves[|moves| - 1]);
    }
  }
}
