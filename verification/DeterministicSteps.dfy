/** What single steps of the deterministic mode do: which nodes are solved and branched on, and what a synchronisation shares. */
module DeterministicSteps {
  import opened Extended
  import opened Replay
  import opened Deterministic
  import opened DeterministicSearch
  import P = ParallelSearch

  /** A taken node is dropped exactly when its bound is above the worker's upper bound, and otherwise solved against that. */
  lemma {:induction false} BegunIff(m: P.Problem, s: State, w: int, k: int)
    requires 0 <= w < |s.workers| && CanTake(s.workers[w], k)
    ensures var before, n := s.workers[w], TakenNode(s.workers[w], k);
            var after := Next(m, s, Begin(w, k));
            if Le(n.bound, before.upper)
            then after.workers[w].current == Some(n) && after.workers[w].cutoff == before.upper && after.open == s.open
            else after.workers[w].current == None && after.open == s.open - {n}
  {
  }

  /** Children are made exactly when the bound leaves room under the worker's upper bound; the preferred one is on top. */
  lemma {:induction false} BranchedIff(m: P.Problem, s: State, w: int, r: P.Lp)
    requires 0 <= w < |s.workers| && s.workers[w].current.Some? && r.Fractional? && !s.workers[w].upper.NegInf?
    ensures var before, after := s.workers[w], Next(m, s, Complete(w, r));
            var d, u := DownOf(m, before, w, r), UpOf(m, before, w, r);
            var kept := if before.plunge == [] then 0 else |before.plunge| - 1;
            if before.upper.Fin? && Lt(Fin(before.upper.v + m.fathomTol), P.SnappedBound(m, r.value))
            then after.workers[w] == before.(current := None) && after.open == s.open - {before.current.value}
            else
              && after.workers[w] == before.(
                   current := None, nextNumber := before.nextNumber + 2,
                   plunge := (if r.upFirst then [u, d] else [d, u]) + before.plunge[..kept],
                   backlog := before.backlog + before.plunge[kept..])
              && after.open == s.open - {before.current.value} + {d, u}
  {
    hide DownOf, UpOf, P.SnappedBound;
    ChildNumbers(m, s.workers[w], w, r);
  }

  lemma {:induction false} ChildNumbers(m: P.Problem, wk: Worker, w: int, r: P.Lp)
    requires wk.current.Some? && r.Fractional?
    ensures DownOf(m, wk, w, r).(origin := w, number := wk.nextNumber) == DownOf(m, wk, w, r)
    ensures UpOf(m, wk, w, r).(origin := w, number := wk.nextNumber + 1) == UpOf(m, wk, w, r)
  {
  }

  /** An integral solution is recorded exactly when it improves on what the worker knows, and then is the new bound. */
  lemma {:induction false} RecordedIff(m: P.Problem, s: State, w: int, value: real, point: seq<real>)
    requires 0 <= w < |s.workers| && s.workers[w].current.Some?
    ensures var before := s.workers[w];
            var after := Next(m, s, Complete(w, P.Integral(value, point))).workers[w];
            if Lt(Fin(value), before.upper)
            then && after.upper == Fin(value) && after.nextSolution == before.nextSolution + 1
                 && after.solutions == before.solutions + [Found(value, point, 0, w, before.nextSolution, 0.0)]
            else after == before.(current := None)
  {
  }

  lemma {:induction false} LeastOf(fs: seq<Found>, v: real)
    ensures Le(Fin(v), LeastObjective(fs)) <==> forall f | f in fs :: v <= f.objective
  {
    if fs != [] {
      var front, last := fs[..|fs| - 1], fs[|fs| - 1];
      LeastOf(front, v);
      assert fs == front + [last];
    }
  }

  /** After a synchronisation every worker has the shared bound, which is the least objective of all that was consumed. */
  lemma {:induction false} SyncShares(m: P.Problem, s: State, heuristics: seq<Found>, bfs: seq<Found>, diving: seq<Found>, order: seq<Node>, v: real)
    requires BestOk(s.best)
    ensures var after := Next(m, s, Sync(heuristics, bfs, diving, order));
            && |after.workers| == |s.workers|
            && (forall w | 0 <= w < |s.workers| :: after.workers[w].upper == after.best.upper && after.workers[w].solutions == [])
            && (Le(Fin(v), after.best.upper) <==>
                  Le(Fin(v), s.best.upper) && forall f | f in heuristics + bfs + diving :: v <= f.objective)
  {
    hide TakeHeuristics, TakeWorkers, LeastObjective, NeedsBalance;
    var a := TakeHeuristics(s.best, heuristics);
    var b := TakeWorkers(a, bfs);
    HeuristicsUpper(s.best, heuristics);
    WorkersUpper(a, bfs);
    WorkersUpper(b, diving);
    LeastOf(heuristics, v);
    LeastOf(bfs, v);
    LeastOf(diving, v);
  }

  /** The first two workers start with one child of the root each; a single worker starts with both, the up child on top. */
  lemma {:induction false} StartPlaces(count: nat, best: Best, down: Node, up: Node)
    requires count >= 1
    ensures var s := Start(count, best, down, up);
            && |s.workers| == count
            && (count == 1 ==> s.workers[0].plunge == [up, down])
            && (count >= 2 ==> s.workers[0].plunge == [down] && s.workers[1].plunge == [up])
            && forall w | 2 <= w < count :: s.workers[w].plunge == []
  {
  }

  // ---------------------------------------------------------------- no LP is solved in vain

  predicate AllPromising(s: State) {
    forall w | 0 <= w < |s.workers| && s.workers[w].current.Some? :: Le(s.workers[w].current.value.bound, s.workers[w].cutoff)
  }

  lemma {:induction false} SolvesStep(m: P.Problem, s: State, mv: Move)
    requires AllPromising(s)
    ensures AllPromising(Next(m, s, mv))
  {
    hide AfterTake, TakenNode, Solution, Branches, DownOf, UpOf;
    match mv
    case Sync(_, _, _, order) =>
      forall w | 0 <= w < |s.workers|
        ensures Rebalanced(s.workers, order)[w].current == s.workers[w].current && Rebalanced(s.workers, order)[w].cutoff == s.workers[w].cutoff
      {
        if NeedsBalance(s.workers) { RebalanceShares(Emptied(s.workers), order, w); }
      }
    case _ =>
  }

  /** Throughout every run the current node of a worker had a bound not above the one its LP is stopped at. */
  lemma {:induction false} NoVainSolve(m: P.Problem, s: State, moves: seq<Move>)
    requires AllPromising(s)
    ensures AllPromising(Run(m, s, moves))
  {
    if moves != [] {
      hide AllPromising, Next;
      var front := moves[..|moves| - 1];
      NoVainSolve(m, s, front);
      SolvesStep(m, Run(m, s, front), moves[|moves| - 1]);
    }
  }
}
