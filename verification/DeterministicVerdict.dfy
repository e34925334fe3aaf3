/** What the deterministic mode reports: its lower bound, and its verdict once no worker has work. */
module DeterministicVerdict {
  import opened Extended
  import opened Replay
  import opened Deterministic
  import opened DeterministicSearch
  import opened DeterministicSafety
  import P = ParallelSearch
  import BranchPath
  import Lattice

  // ---------------------------------------------------------------- the start

  /** The root's children with their ids; whatever they leave out is not better than the first upper bound. */
  ghost predicate GoodStart(m: P.Problem, best: Best, down: Node, up: Node) {
    && down.origin == up.origin == -1 && down.number == 0 && up.number == 1
    && P.BoundHolds(m, Plain(down)) && P.BoundHolds(m, Plain(up)) && Le(m.rootBound, down.bound) && Le(m.rootBound, up.bound)
    && BestPart(m, best)
    && forall x: seq<real> | m.feasible(x) ::
         BranchPath.Contains(down.box, x) || BranchPath.Contains(up.box, x) || Le(best.upper, Fin(m.objective(x)))
  }

  lemma {:induction false} FreshTotal(count: nat, upper: Ext)
    ensures Total(seq(count, _ => Fresh(upper))) == multiset{}
  {
    if count > 0 {
      FreshTotal(count - 1, upper);
      assert seq(count, _ => Fresh(upper))[..count - 1] == seq(count - 1, _ => Fresh(upper));
    }
  }

  lemma {:induction false} NoCeilings(ws: seq<Worker>)
    requires forall w | 0 <= w < |ws| :: ws[w].ceiling == PosInf
    ensures LeastCeiling(ws) == PosInf
  {
    if ws != [] { NoCeilings(ws[..|ws| - 1]); }
  }

  /** The start state's workers and what they hold. */
  lemma {:induction false} StartWorkers(count: nat, best: Best, down: Node, up: Node)
    requires count >= 1
    ensures var s := Start(count, best, down, up);
            && |s.workers| == count && Total(s.workers) == multiset{down, up}
            && forall w | 0 <= w < count :: s.workers[w] == Fresh(best.upper).(plunge := s.workers[w].plunge)
  {
    hide Total, Held;
    var idle := seq(count, _ => Fresh(best.upper));
    var one := idle[0 := Enqueued(idle[0], down)];
    var s := Start(count, best, down, up);
    assert s.workers == one[1 % count := Enqueued(one[1 % count], up)];
    FreshTotal(count, best.upper);
    PutTotal(idle, 0, down);
    PutTotal(one, 1 % count, up);
  }

  lemma {:induction false} PutTotal(ws: seq<Worker>, w: int, n: Node)
    requires 0 <= w < |ws|
    ensures Total(ws[w := Enqueued(ws[w], n)]) == Total(ws) + multiset{n}
  {
    hide Total, Held, Enqueued;
    TotalPut(ws, w, Enqueued(ws[w], n));
    EnqueuedBag(ws[w], n);
    Grown(Total(ws[w := Enqueued(ws[w], n)]), multiset(Held(ws[w])), Total(ws), multiset{n});
  }

  lemma {:induction false} StartInv(m: P.Problem, count: nat, best: Best, down: Node, up: Node)
    requires count >= 1 && GoodStart(m, best, down, up)
    ensures Inv(m, Start(count, best, down, up))
  {
    hide Total, P.BoundHolds, BranchPath.Contains, Start, BestOk;
    var s := Start(count, best, down, up);
    StartWorkers(count, best, down, up);
    StartRest(count, best, down, up);
    NoPending(s.workers);
    NoCeilings(s.workers);
    MinTop(best.upper);
    LeReflexive(best.upper);
    assert down in s.open && up in s.open;
    assert multiset(s.open) == multiset{down, up};
  }

  lemma {:induction false} StartRest(count: nat, best: Best, down: Node, up: Node)
    requires count >= 1
    ensures var s := Start(count, best, down, up);
            s.best == best && s.open == {down, up} && s.abandoned == {} && s.numerical == PosInf
  {
  }

  // ---------------------------------------------------------------- the lower bound

  /** No feasible point has a smaller objective than the bound. */
  ghost predicate NoBetter(m: P.Problem, upper: Ext) {
    forall x: seq<real> | m.feasible(x) :: Le(upper, Fin(m.objective(x)))
  }

  lemma {:induction false} BoundCoversNodes(m: P.Problem, s: State)
    requires Inv(m, s) && NumericalFloor(s) == s.numerical
    ensures forall n | n in s.open || n in s.abandoned :: Le(Min(s.numerical, LeastHeld(s.workers)), n.bound)
  {
    hide LeastHeld, P.BoundHolds, Min, Le, Floor, NumericalFloor, WorkerPart, BestPart, OpenAt;
    var b := Min(s.numerical, LeastHeld(s.workers));
    MinSides(s.numerical, LeastHeld(s.workers));
    forall n | n in s.open || n in s.abandoned ensures Le(b, n.bound) {
      if n in s.open {
        assert n in multiset(s.open);
        LeastHeldBelow(s.workers, n);
        LeTransitive(b, LeastHeld(s.workers), n.bound);
      } else {
        LeTransitive(b, s.numerical, n.bound);
      }
    }
  }

  /**
   * The bound reported after a synchronisation is below every open and every abandoned node, and no feasible point
   * is better than both the bound and the incumbent.
   */
  lemma {:induction false} ReportedBoundSafe(m: P.Problem, s: State)
    requires Inv(m, s) && NumericalFloor(s) == s.numerical && Floor(s) == s.best.upper
    ensures var b := ComputedBound(s.workers, s.numerical, s.best);
            && (forall n | n in s.open || n in s.abandoned :: Le(b, n.bound))
            && (forall x: seq<real> | m.feasible(x) :: Le(b, Fin(m.objective(x))) || Le(s.best.upper, Fin(m.objective(x))))
  {
    hide LeastHeld, Floor, NumericalFloor, NodesPart, WorkerPart, BestPart, BranchPath.Contains;
    BoundCoversNodes(m, s);
    var b := ComputedBound(s.workers, s.numerical, s.best);
    forall x: seq<real> | m.feasible(x)
      ensures Le(b, Fin(m.objective(x))) || Le(s.best.upper, Fin(m.objective(x)))
    {
      if !Le(s.best.upper, Fin(m.objective(x))) {
        var n := NodeOf(s.open, s.abandoned, x);
        assert P.BoundHolds(m, Plain(n)) && BranchPath.Contains(Plain(n).box, x);
        LeTransitive(b, n.bound, Fin(m.objective(x)));
      }
    }
  }

  lemma {:induction false} NodeOf(open: set<Node>, abandoned: set<Node>, x: seq<real>) returns (n: Node)
    requires OpenAt(open, x) || OpenAt(abandoned, x)
    ensures (n in open || n in abandoned) && BranchPath.Contains(n.box, x)
  {
    if OpenAt(open, x) {
      n :| n in open && BranchPath.Contains(n.box, x);
    } else {
      n :| n in abandoned && BranchPath.Contains(n.box, x);
    }
  }

  // ---------------------------------------------------------------- the verdict

  lemma {:induction false} NothingHeld(ws: seq<Worker>)
    requires forall w | 0 <= w < |ws| :: !HasWork(ws[w])
    ensures Total(ws) == multiset{}
  {
    if ws != [] {
      NothingHeld(ws[..|ws| - 1]);
      HeldSize(ws[|ws| - 1]);
    }
  }

  lemma {:induction false} SomethingHeld(ws: seq<Worker>, w: int)
    requires 0 <= w < |ws| && HasWork(ws[w])
    ensures Total(ws) != multiset{}
  {
    HeldSize(ws[w]);
    var n := Held(ws[w])[0];
    assert n in Held(ws[w]);
    TotalHas(ws, w, n);
  }

  /** No worker has work exactly when no node is open. */
  lemma {:induction false} ExhaustedIffNoneOpen(m: P.Problem, s: State)
    requires Inv(m, s)
    ensures ExhaustedVerdict(s) != Unset <==> s.open == {}
  {
    hide Total, HasWork, BoundsPart, WorkerPart, BestPart;
    if exists w :: 0 <= w < |s.workers| && HasWork(s.workers[w]) {
      var w :| 0 <= w < |s.workers| && HasWork(s.workers[w]);
      SomethingHeld(s.workers, w);
    } else {
      NothingHeld(s.workers);
    }
    NoneOpen(s.open);
  }

  lemma {:induction false} NoneOpen(open: set<Node>)
    ensures multiset(open) == multiset{} <==> open == {}
  {
    if open != {} {
      var n :| n in open;
      assert n in multiset(open);
    }
  }

  /** An abandoned node with a feasible point better than the upper bound. */
  ghost predicate HidesBetter(m: P.Problem, s: State) {
    exists x: seq<real> :: m.feasible(x) && OpenAt(s.abandoned, x) && !Le(s.best.upper, Fin(m.objective(x)))
  }

  /** A verdict of exhaustion is right exactly when no abandoned node holds a better point. */
  lemma {:induction false} ExhaustedIff(m: P.Problem, s: State)
    requires Inv(m, s) && Floor(s) == s.best.upper && ExhaustedVerdict(s) != Unset
    ensures NoBetter(m, s.best.upper) <==> !HidesBetter(m, s)
  {
    hide Floor, NumericalFloor, NodesPart, WorkerPart, BestPart, BranchPath.Contains, ExhaustedVerdict, Le;
    ExhaustedIffNoneOpen(m, s);
  }

  /** The check a caller can make: no node was abandoned below the upper bound. */
  lemma {:induction false} NumericalAbove(m: P.Problem, s: State)
    requires Inv(m, s) && NumericalFloor(s) == s.numerical && Le(s.best.upper, s.numerical)
    ensures !HidesBetter(m, s)
  {
    hide Floor, NumericalFloor, NodesPart, WorkerPart, BestPart, BranchPath.Contains, Le;
    forall x: seq<real> | m.feasible(x) && OpenAt(s.abandoned, x) ensures Le(s.best.upper, Fin(m.objective(x))) {
      var n :| n in s.abandoned && BranchPath.Contains(n.box, x);
      assert P.BoundHolds(m, Plain(n)) && BranchPath.Contains(Plain(n).box, x);
      LeTransitive(s.best.upper, s.numerical, n.bound);
      LeTransitive(s.best.upper, n.bound, Fin(m.objective(x)));
    }
  }

  /** The upper bound is the objective of the incumbent. */
  predicate Attained(b: Best) {
    b.upper == PosInf || (b.incumbent.Incumbent? && b.upper == Fin(b.incumbent.objective))
  }

  lemma {:induction false} HeuristicsAttained(b: Best, fs: seq<Found>)
    requires Attained(b) && BestOk(b)
    ensures Attained(TakeHeuristics(b, fs)) && BestOk(TakeHeuristics(b, fs))
  {
    if fs != [] { HeuristicsAttained(b, fs[..|fs| - 1]); }
  }

  lemma {:induction false} WorkersAttained(b: Best, fs: seq<Found>)
    requires Attained(b) && BestOk(b)
    ensures Attained(TakeWorkers(b, fs)) && BestOk(TakeWorkers(b, fs))
  {
    if fs != [] { WorkersAttained(b, fs[..|fs| - 1]); }
  }

  lemma {:induction false} RunAttained(m: P.Problem, s: State, moves: seq<Move>)
    requires Attained(s.best) && BestOk(s.best)
    ensures Attained(Run(m, s, moves).best) && BestOk(Run(m, s, moves).best)
  {
    if moves != [] {
      hide Attained, BestOk;
      var front, mv := moves[..|moves| - 1], moves[|moves| - 1];
      RunAttained(m, s, front);
      if mv.Sync? {
        var b := Run(m, s, front).best;
        HeuristicsAttained(b, mv.heuristics);
        WorkersAttained(TakeHeuristics(b, mv.heuristics), mv.bfs);
        WorkersAttained(TakeWorkers(TakeHeuristics(b, mv.heuristics), mv.bfs), mv.diving);
      }
    }
  }

  /**
   * Every run that ends at a synchronisation with no work left and no node abandoned below the upper bound: an
   * infeasible verdict means that there is no feasible point, an optimal one that the incumbent is a best point.
   */
  lemma {:induction false} VerdictRight(m: P.Problem, s: State, moves: seq<Move>)
    requires P.ProblemOk(m) && Inv(m, s) && Attained(s.best) && IsRun(m, s, moves)
    requires moves != [] && moves[|moves| - 1].Sync?
    requires var e := Run(m, s, moves); ExhaustedVerdict(e) != Unset && Le(e.best.upper, e.numerical)
    ensures var e := Run(m, s, moves);
            && (ExhaustedVerdict(e) == Infeasible ==> forall x: seq<real> :: !m.feasible(x))
            && (ExhaustedVerdict(e) == Optimal ==> NoBetter(m, e.best.upper))
            && (e.best.upper.Fin? ==>
                  e.best.incumbent.Incumbent? && m.feasible(e.best.incumbent.point)
                  && e.best.upper == Fin(m.objective(e.best.incumbent.point)))
  {
    hide Inv, Enabled, Next, P.ProblemOk, NoBetter, HidesBetter, Floor, NumericalFloor, Run;
    var front, mv := moves[..|moves| - 1], moves[|moves| - 1];
    var e := Run(m, s, moves);
    LastStep(m, s, moves);
    RunKeeps(m, s, front);
    SyncKeeps(m, Run(m, s, front), mv.heuristics, mv.bfs, mv.diving, mv.order);
    NumericalAbove(m, e);
    ExhaustedIff(m, e);
    BestOf(m, s);
    RunAttained(m, s, moves);
    BestOf(m, e);
    NoPointAbove(m, e.best.upper);
  }

  lemma {:induction false} LastStep(m: P.Problem, s: State, moves: seq<Move>)
    requires moves != [] && IsRun(m, s, moves)
    ensures var front, mv := moves[..|moves| - 1], moves[|moves| - 1];
            Run(m, s, moves) == Next(m, Run(m, s, front), mv) && IsRun(m, s, front) && Enabled(m, Run(m, s, front), mv)
  {
  }

  lemma {:induction false} BestOf(m: P.Problem, s: State)
    requires Inv(m, s)
    ensures BestPart(m, s.best) && BestOk(s.best)
  {
  }

  lemma {:induction false} NoPointAbove(m: P.Problem, upper: Ext)
    requires NoBetter(m, upper)
    ensures upper == PosInf ==> forall x: seq<real> :: !m.feasible(x)
  {
    if upper == PosInf {
      forall x: seq<real> ensures !m.feasible(x) {
        assert m.feasible(x) ==> Le(upper, Fin(m.objective(x)));
      }
    }
  }

  // ---------------------------------------------------------------- a wrong verdict

  /** One variable fixed to zero, with objective zero. */
  ghost function OnePoint(): P.Problem {
    P.Problem(x => x == [0.0], x => 0.0, BranchPath.Box([Fin(0.0)], [Fin(1.0)]), Lattice.Unknown, 0.0, 0.0, 0.0, NegInf, 0)
  }

  function DownZero(): Node {
    Node(-1, 0, NegInf, BranchPath.Box([Fin(0.0)], [Fin(0.0)]))
  }

  function UpOne(): Node {
    Node(-1, 1, NegInf, BranchPath.Box([Fin(1.0)], [Fin(1.0)]))
  }

  function NoBest(): Best {
    Best(PosInf, NoIncumbent)
  }

  /** The workers after each step of the run below. */
  function OneWorker(current: Option<Node>, plunge: seq<Node>, ceiling: Ext): seq<Worker> {
    [Worker(current, plunge, [], 0, PosInf, PosInf, ceiling, [], 0)]
  }

  lemma {:induction false} HidingStart()
    ensures Start(1, NoBest(), DownZero(), UpOne()) ==
            State(OneWorker(None, [UpOne(), DownZero()], PosInf), NoBest(), PosInf, {DownZero(), UpOne()}, {})
    ensures GoodStart(OnePoint(), NoBest(), DownZero(), UpOne())
  {
    var idle := seq(1, _ => Fresh(PosInf));
    assert idle == [Fresh(PosInf)];
    var one := idle[0 := Enqueued(idle[0], DownZero())];
    assert [DownZero()] + [] == [DownZero()];
    assert one == OneWorker(None, [DownZero()], PosInf);
    var two := one[0 := Enqueued(one[0], UpOne())];
    assert [UpOne()] + [DownZero()] == [UpOne(), DownZero()];
    assert two == OneWorker(None, [UpOne(), DownZero()], PosInf);
    forall x: seq<real> | OnePoint().feasible(x) ensures BranchPath.Contains(DownZero().box, x) {}
  }

  /** The worker takes the first node of its stack. */
  lemma {:induction false} HidingBegin(s: State, n: Node, rest: seq<Node>)
    requires s.workers == OneWorker(None, [n] + rest, PosInf) && n.bound == NegInf
    ensures Enabled(OnePoint(), s, Begin(0, 0))
    ensures Next(OnePoint(), s, Begin(0, 0)) == s.(workers := OneWorker(Some(n), rest, PosInf))
  {
    hide BranchPath.Contains;
  }

  lemma {:induction false} HidingUnbounded(s: State, rest: seq<Node>)
    requires s.workers == OneWorker(Some(UpOne()), rest, PosInf)
    ensures Enabled(OnePoint(), s, Complete(0, P.Unbounded))
    ensures Next(OnePoint(), s, Complete(0, P.Unbounded)) ==
            s.(workers := OneWorker(None, rest, PosInf), open := s.open - {UpOne()})
  {
    assert UpOne().box.lower[0] == Fin(1.0) && !Le(Fin(1.0), Fin([0.0][0]));
    assert !BranchPath.Contains(UpOne().box, [0.0]);
  }

  lemma {:induction false} HidingTrouble(s: State)
    requires s.workers == OneWorker(Some(DownZero()), [], PosInf)
    ensures Enabled(OnePoint(), s, Complete(0, P.NumericalTrouble))
    ensures Next(OnePoint(), s, Complete(0, P.NumericalTrouble)).workers == OneWorker(None, [], NegInf)
    ensures Next(OnePoint(), s, Complete(0, P.NumericalTrouble)).best == s.best
  {
    hide BranchPath.Contains;
  }

  lemma {:induction false} HidingSync(s: State)
    requires s.workers == OneWorker(None, [], NegInf) && s.best == NoBest()
    ensures Enabled(OnePoint(), s, Sync([], [], [], []))
    ensures ExhaustedVerdict(Next(OnePoint(), s, Sync([], [], [], []))) == Infeasible
  {
    assert AllSolutions(s.workers[..0]) == [];
    assert AllSolutions(s.workers) == [];
    var ws := Next(OnePoint(), s, Sync([], [], [], [])).workers;
    assert !NeedsBalance(s.workers);
    assert |ws| == 1 && !HasWork(ws[0]);
  }

  /**
   * One worker, one node found empty, the other abandoned for numerical reasons: the verdict is infeasible although
   * a feasible point exists.
   */
  lemma {:induction false} AbandonedHidesPoint()
    ensures var s := Start(1, NoBest(), DownZero(), UpOne());
            var moves := [Begin(0, 0), Complete(0, P.Unbounded), Begin(0, 0), Complete(0, P.NumericalTrouble), Sync([], [], [], [])];
            && GoodStart(OnePoint(), NoBest(), DownZero(), UpOne()) && IsRun(OnePoint(), s, moves)
            && ExhaustedVerdict(Run(OnePoint(), s, moves)) == Infeasible && OnePoint().feasible([0.0])
  {
    hide Enabled, Next, Start, GoodStart, IsRun, Run, ExhaustedVerdict;
    var m, s := OnePoint(), Start(1, NoBest(), DownZero(), UpOne());
    var a, b, c, d, e := Begin(0, 0), Complete(0, P.Unbounded), Begin(0, 0), Complete(0, P.NumericalTrouble), Sync([], [], [], []);
    assert [] + [a] == [a] && [a] + [b] == [a, b] && [a, b] + [c] == [a, b, c] && [a, b, c] + [d] == [a, b, c, d];
    assert [a, b, c, d] + [e] == [a, b, c, d, e];
    HidingStart();
    RunNone(m, s);
    assert [UpOne(), DownZero()] == [UpOne()] + [DownZero()] && [DownZero()] == [DownZero()] + [];
    HidingBegin(s, UpOne(), [DownZero()]);
    RunOne(m, s, [], a);
    HidingUnbounded(Run(m, s, [a]), [DownZero()]);
    RunOne(m, s, [a], b);
    HidingBegin(Run(m, s, [a, b]), DownZero(), []);
    RunOne(m, s, [a, b], c);
    HidingTrouble(Run(m, s, [a, b, c]));
    RunOne(m, s, [a, b, c], d);
    HidingSync(Run(m, s, [a, b, c, d]));
    RunOne(m, s, [a, b, c, d], e);
  }

  lemma {:induction false} RunNone(m: P.Problem, s: State)
    ensures Run(m, s, []) == s && IsRun(m, s, [])
  {
  }

  lemma {:induction false} RunOne(m: P.Problem, s: State, moves: seq<Move>, mv: Move)
    ensures Run(m, s, moves + [mv]) == Next(m, Run(m, s, moves), mv)
    ensures IsRun(m, s, moves + [mv]) <==> IsRun(m, s, moves) && Enabled(m, Run(m, s, moves), mv)
  {
    assert (moves + [mv])[..|moves|] == moves;
  }
}
