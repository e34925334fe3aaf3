/**
 * The deterministic mode as a system of steps: between two synchronisations every worker works on its own nodes
 * against its own upper bound; a synchronisation merges what was found, rebalances and hands out the new bound.
 */
module DeterministicSearch {
  import opened Extended
  import opened SortedOrders
  import opened Replay
  import opened Deterministic
  import P = ParallelSearch
  import BranchPath

  function Plain(n: Node): P.Node {
    P.Node(0, n.bound, n.box)
  }

  function FromPlain(n: P.Node, origin: int, number: int): Node {
    Node(origin, number, n.bound, n.box)
  }

  datatype State = State(workers: seq<Worker>, best: Best, numerical: Ext, open: set<Node>, abandoned: set<Node>)

  datatype Move =
    | Begin(w: int, k: int)
    | Complete(w: int, r: P.Lp)
    | Sync(heuristics: seq<Found>, bfs: seq<Found>, diving: seq<Found>, order: seq<Node>)

  // ---------------------------------------------------------------- one worker

  /** The LP is stopped at the upper bound itself; time and work limits are left out. */
  ghost predicate AnswerOk(m: P.Problem, n: Node, cutoff: Ext, r: P.Lp) {
    if r.AboveCutoff? then P.Relaxes(m, Plain(n), r.relaxation) && cutoff.Fin? && r.relaxation >= cutoff.v + m.dualTol
    else !r.Interrupted? && P.LpOk(m, Plain(n), cutoff, r)
  }

  /** A node worse than the worker's bound is dropped; any other becomes the current one. */
  function Begun(wk: Worker, k: int): Worker
    requires CanTake(wk, k)
  {
    var rest := AfterTake(wk, k);
    if Lt(wk.upper, TakenNode(wk, k).bound) then rest.(current := None)
    else rest.(current := Some(TakenNode(wk, k)), cutoff := wk.upper)
  }

  predicate Branches(m: P.Problem, wk: Worker, r: P.Lp) {
    r.Fractional? && (wk.upper == PosInf || (wk.upper.Fin? && Le(P.SnappedBound(m, r.value), Fin(wk.upper.v + m.fathomTol))))
  }

  function Solution(wk: Worker, w: int, value: real, point: seq<real>): Found {
    Found(value, point, 0, w, wk.nextSolution, 0.0)
  }

  function DownOf(m: P.Problem, wk: Worker, w: int, r: P.Lp): Node
    requires wk.current.Some? && r.Fractional?
  {
    FromPlain(P.DownChild(m, Plain(wk.current.value), r, 0), w, wk.nextNumber)
  }

  function UpOf(m: P.Problem, wk: Worker, w: int, r: P.Lp): Node
    requires wk.current.Some? && r.Fractional?
  {
    FromPlain(P.UpChild(m, Plain(wk.current.value), r, 1), w, wk.nextNumber + 1)
  }

  /** The worker after the LP of its current node has been answered. */
  function Completed(m: P.Problem, wk: Worker, w: int, r: P.Lp): Worker
    requires wk.current.Some?
  {
    var done := wk.(current := None);
    match r
    case Integral(value, point) =>
      if Lt(Fin(value), wk.upper) then
        done.(upper := Fin(value), solutions := wk.solutions + [Solution(wk, w, value, point)], nextSolution := wk.nextSolution + 1)
      else done
    case Fractional(_, _, _, _, _, upFirst) =>
      if Branches(m, wk, r) then WithChildren(done, w, DownOf(m, wk, w, r), UpOf(m, wk, w, r), upFirst) else done
    case NumericalTrouble => done.(ceiling := Min(wk.current.value.bound, wk.ceiling))
    case _ => done
  }

  // ---------------------------------------------------------------- synchronisation

  function AllSolutions(workers: seq<Worker>): seq<Found> {
    if workers == [] then [] else AllSolutions(workers[..|workers| - 1]) + workers[|workers| - 1].solutions
  }

  function LeastCeiling(workers: seq<Worker>): Ext {
    if workers == [] then PosInf else Min(LeastCeiling(workers[..|workers| - 1]), workers[|workers| - 1].ceiling)
  }

  function Rebalanced(workers: seq<Worker>, order: seq<Node>): seq<Worker> {
    if NeedsBalance(workers) then Distributed(Emptied(workers), order) else workers
  }

  /** Every worker starts the next horizon with the shared upper bound and no pending solutions. */
  function Refreshed(workers: seq<Worker>, upper: Ext): seq<Worker> {
    seq(|workers|, i requires 0 <= i < |workers| => workers[i].(solutions := [], upper := upper))
  }

  function SyncBest(b: Best, heuristics: seq<Found>, bfs: seq<Found>, diving: seq<Found>): Best {
    TakeWorkers(TakeWorkers(TakeHeuristics(b, heuristics), bfs), diving)
  }

  // ---------------------------------------------------------------- the system

  ghost predicate FoundsOk(m: P.Problem, fs: seq<Found>) {
    forall f | f in fs :: m.feasible(f.point) && m.objective(f.point) == f.objective
  }

  ghost predicate Enabled(m: P.Problem, s: State, mv: Move) {
    match mv
    case Begin(w, k) => 0 <= w < |s.workers| && s.workers[w].current.None? && CanTake(s.workers[w], k)
    case Complete(w, r) =>
      && 0 <= w < |s.workers| && s.workers[w].current.Some?
      && AnswerOk(m, s.workers[w].current.value, s.workers[w].cutoff, r)
    case Sync(heuristics, bfs, diving, order) =>
      && Sorted(heuristics, HeuristicKey) && FoundsOk(m, heuristics)
      && Sorted(bfs, WorkerKey) && multiset(bfs) == multiset(AllSolutions(s.workers))
      && Sorted(diving, WorkerKey) && FoundsOk(m, diving)
      && (NeedsBalance(s.workers) ==> Sorted(order, IdKey) && multiset(order) == multiset(AllBacklog(s.workers)))
  }

  function OpenAfter(m: P.Problem, s: State, w: int, r: P.Lp): set<Node>
    requires 0 <= w < |s.workers| && s.workers[w].current.Some?
  {
    var wk := s.workers[w];
    s.open - {wk.current.value} + if Branches(m, wk, r) then {DownOf(m, wk, w, r), UpOf(m, wk, w, r)} else {}
  }

  function Next(m: P.Problem, s: State, mv: Move): State {
    match mv
    case Begin(w, k) =>
      if !(0 <= w < |s.workers| && CanTake(s.workers[w], k)) then s
      else
        var wk, n := s.workers[w], TakenNode(s.workers[w], k);
        s.(workers := s.workers[w := Begun(wk, k)], open := if Lt(wk.upper, n.bound) then s.open - {n} else s.open)
    case Complete(w, r) =>
      if !(0 <= w < |s.workers| && s.workers[w].current.Some?) then s
      else
        s.(workers := s.workers[w := Completed(m, s.workers[w], w, r)],
           open := OpenAfter(m, s, w, r),
           abandoned := s.abandoned + if r.NumericalTrouble? then {s.workers[w].current.value} else {})
    case Sync(heuristics, bfs, diving, order) =>
      var best := SyncBest(s.best, heuristics, bfs, diving);
      s.(workers := Refreshed(Rebalanced(s.workers, order), best.upper),
         best := best,
         numerical := Min(s.numerical, LeastCeiling(s.workers)))
  }

  /** A worker before the search. */
  function Fresh(upper: Ext): Worker {
    Worker(None, [], [], 0, upper, upper, PosInf, [], 0)
  }

  /** The two children of the root go to the first two workers, or both to the only one. */
  function Start(count: nat, best: Best, down: Node, up: Node): State
    requires count >= 1
  {
    var idle := seq(count, _ => Fresh(best.upper));
    var one := idle[0 := Enqueued(idle[0], down)];
    State(one[1 % count := Enqueued(one[1 % count], up)], best, PosInf, {down, up}, {})
  }

  function Run(m: P.Problem, s: State, moves: seq<Move>): State {
    if moves == [] then s else Next(m, Run(m, s, moves[..|moves| - 1]), moves[|moves| - 1])
  }

  ghost predicate IsRun(m: P.Problem, s: State, moves: seq<Move>) {
    moves == [] || (IsRun(m, s, moves[..|moves| - 1]) && Enabled(m, Run(m, s, moves[..|moves| - 1]), moves[|moves| - 1]))
  }

  // ---------------------------------------------------------------- what every reachable state satisfies

  function LeastPending(workers: seq<Worker>): Ext {
    if workers == [] then PosInf
    else Min(LeastPending(workers[..|workers| - 1]), LeastObjective(workers[|workers| - 1].solutions))
  }

  /** The best objective known anywhere: shared, or found by a worker and not yet shared. */
  function Floor(s: State): Ext {
    Min(s.best.upper, LeastPending(s.workers))
  }

  function NumericalFloor(s: State): Ext {
    Min(s.numerical, LeastCeiling(s.workers))
  }

  predicate IdOk(workers: seq<Worker>, n: Node) {
    (n.origin == -1 && 0 <= n.number <= 1) || (0 <= n.origin < |workers| && 0 <= n.number < workers[n.origin].nextNumber)
  }

  /** The workers hold the open nodes, each once, and their ids are distinct. */
  predicate NodesPart(workers: seq<Worker>, open: set<Node>) {
    && Total(workers) == multiset(open)
    && (forall n | n in open :: IdOk(workers, n))
    && (forall n, k | n in open && k in open && SameId(n, k) :: n == k)
  }

  ghost predicate OpenAt(nodes: set<Node>, x: seq<real>) {
    exists n :: n in nodes && BranchPath.Contains(n.box, x)
  }

  /** Every feasible point is open, abandoned, or not better than the best objective known. */
  ghost predicate BoundsPart(m: P.Problem, open: set<Node>, abandoned: set<Node>, floor: Ext, nums: Ext) {
    && (forall n | n in open || n in abandoned :: P.BoundHolds(m, Plain(n)) && Le(m.rootBound, n.bound))
    && (forall n | n in abandoned :: Le(nums, n.bound))
    && (forall x: seq<real> | m.feasible(x) :: OpenAt(open, x) || OpenAt(abandoned, x) || Le(floor, Fin(m.objective(x))))
  }

  ghost predicate WorkerPart(m: P.Problem, wk: Worker, floor: Ext) {
    Le(floor, wk.upper) && (wk.current.Some? ==> Le(wk.upper, wk.cutoff)) && FoundsOk(m, wk.solutions)
  }

  ghost predicate BestPart(m: P.Problem, b: Best) {
    && BestOk(b)
    && (b.incumbent.Incumbent? ==> m.feasible(b.incumbent.point) && m.objective(b.incumbent.point) == b.incumbent.objective)
  }

  ghost predicate Inv(m: P.Problem, s: State) {
    && s.workers != [] && NodesPart(s.workers, s.open)
    && BoundsPart(m, s.open, s.abandoned, Floor(s), NumericalFloor(s))
    && (forall w | 0 <= w < |s.workers| :: WorkerPart(m, s.workers[w], Floor(s)))
    && BestPart(m, s.best)
  }

  // ---------------------------------------------------------------- the verdict

  datatype Verdict = Unset | Infeasible | Optimal

  /** The verdict of a synchronisation that finds no worker with work. */
  function ExhaustedVerdict(s: State): Verdict {
    if exists w :: 0 <= w < |s.workers| && HasWork(s.workers[w]) then Unset
    else if s.best.upper == PosInf then Infeasible
    else Optimal
  }
}
