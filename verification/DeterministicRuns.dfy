/**
 * Determinism: what the search reaches depends on what each worker does between the synchronisations and on what is
 * handed in at each of them, not on how the workers interleave nor on how sorting breaks ties.
 */
module DeterministicRuns {
  import opened Extended
  import opened SortedOrders
  import opened Replay
  import opened Deterministic
  import opened DeterministicSearch
  import opened DeterministicSafety
  import P = ParallelSearch

  // ---------------------------------------------------------------- runs, worker by worker

  function Syncs(moves: seq<Move>): nat {
    if moves == [] then 0 else Syncs(moves[..|moves| - 1]) + (if moves[|moves| - 1].Sync? then 1 else 0)
  }

  function SyncMoves(moves: seq<Move>): seq<Move> {
    if moves == [] then []
    else
      var rest := SyncMoves(moves[..|moves| - 1]);
      if moves[|moves| - 1].Sync? then rest + [moves[|moves| - 1]] else rest
  }

  /** What worker `w` does after exactly `j` synchronisations. */
  function Segment(moves: seq<Move>, w: int, j: nat): seq<Move> {
    if moves == [] then []
    else
      var front, mv := moves[..|moves| - 1], moves[|moves| - 1];
      if !mv.Sync? && mv.w == w && Syncs(front) == j then Segment(front, w, j) + [mv] else Segment(front, w, j)
  }

  function LocalStep(m: P.Problem, wk: Worker, mv: Move): Worker {
    match mv
    case Begin(_, k) => if CanTake(wk, k) then Begun(wk, k) else wk
    case Complete(w, r) => if wk.current.Some? then Completed(m, wk, w, r) else wk
    case Sync(_, _, _, _) => wk
  }

  function LocalRun(m: P.Problem, wk: Worker, moves: seq<Move>): Worker {
    if moves == [] then wk else LocalStep(m, LocalRun(m, wk, moves[..|moves| - 1]), moves[|moves| - 1])
  }

  datatype Shared = Shared(workers: seq<Worker>, best: Best, numerical: Ext)

  function SharedOf(s: State): Shared {
    Shared(s.workers, s.best, s.numerical)
  }

  function Worked(m: P.Problem, sh: Shared, moves: seq<Move>, j: nat): Shared {
    sh.(workers := seq(|sh.workers|, w requires 0 <= w < |sh.workers| => LocalRun(m, sh.workers[w], Segment(moves, w, j))))
  }

  function AfterSync(sh: Shared, mv: Move): Shared {
    if !mv.Sync? then sh
    else
      var best := SyncBest(sh.best, mv.heuristics, mv.bfs, mv.diving);
      Shared(Refreshed(Rebalanced(sh.workers, mv.order), best.upper), best, Min(sh.numerical, LeastCeiling(sh.workers)))
  }

  /** The state right after `j` synchronisations, from the parts of the run. */
  function Settled(m: P.Problem, start: Shared, moves: seq<Move>, j: nat): Shared
    requires j <= |SyncMoves(moves)|
  {
    if j == 0 then start
    else AfterSync(Worked(m, Settled(m, start, moves, j - 1), moves, j - 1), SyncMoves(moves)[j - 1])
  }

  lemma {:induction false} SettledNext(m: P.Problem, start: Shared, moves: seq<Move>, j: nat)
    requires j <= |SyncMoves(moves)|
    ensures Settled(m, start, moves, 0) == start
    ensures j > 0 ==>
              Settled(m, start, moves, j) ==
              AfterSync(Worked(m, Settled(m, start, moves, j - 1), moves, j - 1), SyncMoves(moves)[j - 1])
  {
    hide AfterSync, Worked, SyncMoves;
  }

  lemma {:induction false} SyncCount(moves: seq<Move>)
    ensures |SyncMoves(moves)| == Syncs(moves)
  {
    if moves != [] { SyncCount(moves[..|moves| - 1]); }
  }

  lemma {:induction false} SegmentSettled(moves: seq<Move>, w: int, j: nat)
    requires moves != [] && j < Syncs(moves[..|moves| - 1])
    ensures Segment(moves, w, j) == Segment(moves[..|moves| - 1], w, j)
  {
  }

  lemma {:induction false} WorkedSettled(m: P.Problem, sh: Shared, moves: seq<Move>, j: nat)
    requires moves != [] && j < Syncs(moves[..|moves| - 1])
    ensures Worked(m, sh, moves, j) == Worked(m, sh, moves[..|moves| - 1], j)
  {
    hide Segment, LocalRun;
    forall w | 0 <= w < |sh.workers| ensures Segment(moves, w, j) == Segment(moves[..|moves| - 1], w, j) {
      SegmentSettled(moves, w, j);
    }
  }

  /** Later moves change nothing about earlier synchronisations. */
  lemma {:induction false} SettledFront(m: P.Problem, start: Shared, moves: seq<Move>, j: nat)
    requires moves != [] && j <= Syncs(moves[..|moves| - 1])
    ensures |SyncMoves(moves[..|moves| - 1])| == Syncs(moves[..|moves| - 1]) <= |SyncMoves(moves)|
    ensures Settled(m, start, moves, j) == Settled(m, start, moves[..|moves| - 1], j)
  {
    hide AfterSync, Worked, Settled;
    var front := moves[..|moves| - 1];
    SyncCount(moves);
    SyncCount(front);
    SettledNext(m, start, moves, j);
    SettledNext(m, start, front, j);
    if j > 0 {
      SettledFront(m, start, moves, j - 1);
      WorkedSettled(m, Settled(m, start, front, j - 1), moves, j - 1);
    }
  }

  lemma {:induction false} NothingLater(moves: seq<Move>, w: int, j: nat)
    requires Syncs(moves) < j
    ensures Segment(moves, w, j) == []
  {
    if moves != [] { NothingLater(moves[..|moves| - 1], w, j); }
  }

  lemma {:induction false} LocalNext(m: P.Problem, s: State, mv: Move)
    requires !mv.Sync? && 0 <= mv.w < |s.workers|
    ensures SharedOf(Next(m, s, mv)) ==
            SharedOf(s).(workers := s.workers[mv.w := LocalStep(m, s.workers[mv.w], mv)])
  {
    hide Begun, Completed, CanTake, OpenAfter;
    assert s.workers[mv.w := s.workers[mv.w]] == s.workers;
  }

  lemma {:induction false} WorkedOne(m: P.Problem, sh: Shared, front: seq<Move>, mv: Move, j: nat)
    requires !mv.Sync? && 0 <= mv.w < |sh.workers| && Syncs(front) == j
    ensures var ws := Worked(m, sh, front, j).workers;
            Worked(m, sh, front + [mv], j) == sh.(workers := ws[mv.w := LocalStep(m, ws[mv.w], mv)])
  {
    hide LocalStep;
    var moves := front + [mv];
    assert moves[..|moves| - 1] == front;
    var ws, ws' := Worked(m, sh, front, j).workers, Worked(m, sh, moves, j).workers;
    var seg := Segment(front, mv.w, j);
    assert (seg + [mv])[..|seg|] == seg;
    assert ws' == ws[mv.w := LocalStep(m, ws[mv.w], mv)];
  }

  lemma {:induction false} WorkedNone(m: P.Problem, sh: Shared, moves: seq<Move>, j: nat)
    requires Syncs(moves) < j || moves == []
    ensures Worked(m, sh, moves, j) == sh
  {
    forall w | 0 <= w < |sh.workers| ensures Segment(moves, w, j) == [] {
      if moves != [] { NothingLater(moves, w, j); }
    }
    assert Worked(m, sh, moves, j).workers == sh.workers;
  }

  /** The state of a run is that of its last synchronisation with every worker's own moves since then. */
  lemma {:induction false} RunIsSettled(m: P.Problem, s: State, moves: seq<Move>)
    requires IsRun(m, s, moves)
    ensures |SyncMoves(moves)| == Syncs(moves)
    ensures SharedOf(Run(m, s, moves)) == Worked(m, Settled(m, SharedOf(s), moves, Syncs(moves)), moves, Syncs(moves))
  {
    hide Worked, Settled, Next, AfterSync, SharedOf, Enabled;
    SyncCount(moves);
    var start := SharedOf(s);
    if moves == [] {
      SettledNext(m, start, moves, 0);
      WorkedNone(m, start, moves, 0);
    } else {
      var front, mv := moves[..|moves| - 1], moves[|moves| - 1];
      assert moves == front + [mv];
      RunIsSettled(m, s, front);
      SettledFront(m, start, moves, Syncs(front));
      var e, at := Run(m, s, front), Settled(m, start, front, Syncs(front));
      if mv.Sync? {
        SyncNext(m, e, mv);
        WorkedBefore(m, at, front, mv);
        SettledNext(m, start, moves, Syncs(moves));
        WorkedNone2(m, Settled(m, start, moves, Syncs(moves)), front, mv);
      } else {
        EnabledMove(m, e, mv);
        LocalNext(m, e, mv);
        WorkedSize(m, at, front, Syncs(front), e);
        WorkedOne(m, at, front, mv, Syncs(front));
        SharedFields(e, at, Worked(m, at, front, Syncs(front)));
      }
    }
  }

  lemma {:induction false} SharedFields(e: State, at: Shared, sh: Shared)
    requires SharedOf(e) == sh
    ensures sh.workers == e.workers && sh.best == e.best && sh.numerical == e.numerical
  {
  }

  lemma {:induction false} WorkedSize(m: P.Problem, at: Shared, moves: seq<Move>, j: nat, e: State)
    requires SharedOf(e) == Worked(m, at, moves, j)
    ensures |at.workers| == |e.workers| && at.best == e.best && at.numerical == e.numerical
  {
  }

  lemma {:induction false} EnabledMove(m: P.Problem, e: State, mv: Move)
    requires Enabled(m, e, mv) && !mv.Sync?
    ensures 0 <= mv.w < |e.workers|
  {
  }

  lemma {:induction false} SyncNext(m: P.Problem, e: State, mv: Move)
    requires mv.Sync?
    ensures SharedOf(Next(m, e, mv)) == AfterSync(SharedOf(e), mv)
  {
  }

  /** A synchronisation adds nothing to the workers' own moves before it. */
  lemma {:induction false} WorkedBefore(m: P.Problem, at: Shared, front: seq<Move>, mv: Move)
    requires mv.Sync?
    ensures Worked(m, at, front + [mv], Syncs(front)) == Worked(m, at, front, Syncs(front))
  {
    assert (front + [mv])[..|front|] == front;
    forall w ensures Segment(front + [mv], w, Syncs(front)) == Segment(front, w, Syncs(front)) {}
  }

  lemma {:induction false} WorkedNone2(m: P.Problem, at: Shared, front: seq<Move>, mv: Move)
    requires mv.Sync?
    ensures Worked(m, at, front + [mv], Syncs(front) + 1) == at
  {
    var moves := front + [mv];
    assert moves[..|front|] == front;
    var j := Syncs(front) + 1;
    forall w | 0 <= w < |at.workers| ensures Segment(moves, w, j) == [] {
      NothingLater(front, w, j);
    }
    assert Worked(m, at, moves, j).workers == at.workers;
  }

  // ---------------------------------------------------------------- what a synchronisation may choose

  /** A worker's pending solutions carry its id and consecutive numbers. */
  predicate SolutionsNumbered(wk: Worker, w: int) {
    |wk.solutions| <= wk.nextSolution &&
    forall i | 0 <= i < |wk.solutions| ::
      wk.solutions[i].worker == w && wk.solutions[i].sequence == wk.nextSolution - |wk.solutions| + i
  }

  predicate AllNumbered(ws: seq<Worker>) {
    forall w | 0 <= w < |ws| :: SolutionsNumbered(ws[w], w)
  }

  lemma {:induction false} PutNumbered(ws: seq<Worker>, w: int, wk: Worker)
    requires AllNumbered(ws) && 0 <= w < |ws|
    ensures SolutionsNumbered(ws[w], w)
    ensures SolutionsNumbered(wk, w) ==> AllNumbered(ws[w := wk])
  {
    hide SolutionsNumbered;
  }

  lemma {:induction false} LocalNumbered(m: P.Problem, wk: Worker, w: int, mv: Move)
    requires SolutionsNumbered(wk, w) && !mv.Sync? && mv.w == w
    ensures SolutionsNumbered(LocalStep(m, wk, mv), w)
  {
    hide P.SnappedBound, Branches, CanTake;
  }

  lemma {:induction false} RunNumbered(m: P.Problem, s: State, moves: seq<Move>)
    requires IsRun(m, s, moves) && AllNumbered(s.workers)
    ensures var e := Run(m, s, moves); AllNumbered(e.workers)
  {
    if moves != [] {
      hide AllNumbered, SolutionsNumbered, Next, Enabled, LocalStep;
      var front, mv := moves[..|moves| - 1], moves[|moves| - 1];
      var e := Run(m, s, front);
      RunNumbered(m, s, front);
      if mv.Sync? {
        SyncNumbered(m, e, mv);
      } else {
        EnabledMove(m, e, mv);
        LocalNext(m, e, mv);
        var wk := LocalStep(m, e.workers[mv.w], mv);
        PutNumbered(e.workers, mv.w, wk);
        LocalNumbered(m, e.workers[mv.w], mv.w, mv);
      }
    }
  }

  lemma {:induction false} SyncNumbered(m: P.Problem, e: State, mv: Move)
    requires mv.Sync?
    ensures var ws := Next(m, e, mv).workers; AllNumbered(ws)
  {
  }

  lemma {:induction false} SolutionAt(ws: seq<Worker>, f: Found) returns (w: int, i: int)
    requires f in AllSolutions(ws)
    ensures 0 <= w < |ws| && 0 <= i < |ws[w].solutions| && ws[w].solutions[i] == f
  {
    var n := |ws| - 1;
    if f in ws[n].solutions {
      w := n;
      i :| 0 <= i < |ws[n].solutions| && ws[n].solutions[i] == f;
    } else {
      w, i := SolutionAt(ws[..n], f);
    }
  }

  /** Pending solutions sort in one way only. */
  lemma {:induction false} OneSolutionOrder(ws: seq<Worker>, x: seq<Found>, y: seq<Found>)
    requires AllNumbered(ws)
    requires Sorted(x, WorkerKey) && Sorted(y, WorkerKey)
    requires multiset(x) == multiset(AllSolutions(ws)) == multiset(y)
    ensures x == y
  {
    hide Sorted;
    forall i, j | 0 <= i < |x| && 0 <= j < |x| && WorkerKey(x[i]) == WorkerKey(x[j]) ensures x[i] == x[j] {
      assert WorkerKey(x[i])[1] == WorkerKey(x[j])[1] && WorkerKey(x[i])[2] == WorkerKey(x[j])[2];
      assert x[i] in multiset(AllSolutions(ws)) && x[j] in multiset(AllSolutions(ws));
      var w, h := SolutionAt(ws, x[i]);
      var v, g := SolutionAt(ws, x[j]);
    }
    SortedUnique(x, y, WorkerKey);
  }

  lemma {:induction false} BacklogHeld(ws: seq<Worker>, n: Node)
    requires n in AllBacklog(ws)
    ensures n in Total(ws)
  {
    hide Held;
    var k := |ws| - 1;
    if n in ws[k].backlog {
      BacklogApart(ws[k]);
      assert n in multiset(ws[k].backlog);
    } else {
      BacklogHeld(ws[..k], n);
    }
  }

  lemma {:induction false} BacklogDistinct(m: P.Problem, s: State)
    requires Inv(m, s)
    ensures DistinctIds(AllBacklog(s.workers))
  {
    hide Total, AllBacklog, BoundsPart, WorkerPart, BestPart;
    var all := AllBacklog(s.workers);
    forall i, j | 0 <= i < |all| && 0 <= j < |all| && SameId(all[i], all[j]) ensures all[i] == all[j] {
      BacklogHeld(s.workers, all[i]);
      BacklogHeld(s.workers, all[j]);
      assert all[i] in multiset(s.open) && all[j] in multiset(s.open);
    }
  }

  /** What holds before a synchronisation, as far as its result depends on it. */
  ghost predicate SyncFits(sh: Shared, mv: Move) {
    && mv.Sync? && DistinctIds(AllBacklog(sh.workers)) && AllNumbered(sh.workers)
    && Sorted(mv.heuristics, HeuristicKey) && Sorted(mv.bfs, WorkerKey) && multiset(mv.bfs) == multiset(AllSolutions(sh.workers))
    && (NeedsBalance(sh.workers) ==> Sorted(mv.order, IdKey) && multiset(mv.order) == multiset(AllBacklog(sh.workers)))
  }

  /** Two synchronisations are handed the same: the same heuristic solutions in any order, the same from the divers. */
  predicate SameInput(a: Move, b: Move) {
    a.Sync? && b.Sync? && multiset(a.heuristics) == multiset(b.heuristics) && a.diving == b.diving
  }

  lemma {:induction false} SyncDetermined(sh: Shared, a: Move, b: Move)
    requires SyncFits(sh, a) && SyncFits(sh, b) && SameInput(a, b)
    ensures AfterSync(sh, a) == AfterSync(sh, b)
  {
    hide Sorted, TakeHeuristics, TakeWorkers, AllNumbered, Refreshed, DistinctIds, AllBacklog, AllSolutions, NeedsBalance,
         Distributed;
    OneSolutionOrder(sh.workers, a.bfs, b.bfs);
    ReplayIgnoresArrival(sh.best, a.heuristics, b.heuristics);
    if NeedsBalance(sh.workers) {
      RebalanceIsDetermined(sh.workers, a.order, sh.workers, b.order);
    }
  }

  // ---------------------------------------------------------------- the theorem

  lemma {:induction false} EnabledFits(m: P.Problem, s: State, mv: Move)
    requires Inv(m, s) && Enabled(m, s, mv) && mv.Sync? && AllNumbered(s.workers)
    ensures SyncFits(SharedOf(s), mv)
  {
    hide Inv, Sorted, DistinctIds, AllBacklog, AllSolutions, NeedsBalance, AllNumbered;
    BacklogDistinct(m, s);
  }

  /** Every synchronisation of a run fits the state it meets. */
  lemma {:induction false} SyncsFit(m: P.Problem, s: State, moves: seq<Move>, j: nat)
    requires P.ProblemOk(m) && Inv(m, s) && IsRun(m, s, moves) && j < Syncs(moves)
    requires AllNumbered(s.workers)
    ensures |SyncMoves(moves)| == Syncs(moves)
    ensures SyncFits(Worked(m, Settled(m, SharedOf(s), moves, j), moves, j), SyncMoves(moves)[j])
    decreases |moves|
  {
    hide Inv, Enabled, Next, P.ProblemOk, AllNumbered, SyncFits, Worked, Settled, SharedOf, Run;
    var front, mv := moves[..|moves| - 1], moves[|moves| - 1];
    assert moves == front + [mv];
    SyncCount(moves);
    SyncCount(front);
    SettledFront(m, SharedOf(s), moves, j);
    if j < Syncs(front) {
      SyncsFit(m, s, front, j);
      WorkedSettled(m, Settled(m, SharedOf(s), front, j), moves, j);
    } else {
      RunKeeps(m, s, front);
      RunNumbered(m, s, front);
      EnabledFits(m, Run(m, s, front), mv);
      RunIsSettled(m, s, front);
      WorkedBefore(m, Settled(m, SharedOf(s), front, j), front, mv);
    }
  }

  /** The same moves of every worker between the same synchronisations, and the same input to each of these. */
  ghost predicate SameParts(a: seq<Move>, b: seq<Move>, workers: nat) {
    && Syncs(a) == Syncs(b) == |SyncMoves(a)| == |SyncMoves(b)|
    && (forall w, j: nat | 0 <= w < workers && j <= Syncs(a) :: Segment(a, w, j) == Segment(b, w, j))
    && (forall j | 0 <= j < Syncs(a) :: SameInput(SyncMoves(a)[j], SyncMoves(b)[j]))
  }

  lemma {:induction false} WorkedAgree(m: P.Problem, sh: Shared, a: seq<Move>, b: seq<Move>, j: nat)
    requires SameParts(a, b, |sh.workers|) && j <= Syncs(a)
    ensures Worked(m, sh, a, j) == Worked(m, sh, b, j)
  {
    hide LocalRun;
  }

  lemma {:induction false} SettledSize(m: P.Problem, start: Shared, moves: seq<Move>, j: nat)
    requires j <= |SyncMoves(moves)|
    ensures |Settled(m, start, moves, j).workers| == |start.workers|
  {
    if j > 0 { SettledSize(m, start, moves, j - 1); }
  }

  lemma {:induction false} SettledAgree(m: P.Problem, s: State, a: seq<Move>, b: seq<Move>, j: nat)
    requires P.ProblemOk(m) && Inv(m, s) && IsRun(m, s, a) && IsRun(m, s, b)
    requires AllNumbered(s.workers)
    requires SameParts(a, b, |s.workers|) && j <= Syncs(a)
    ensures Settled(m, SharedOf(s), a, j) == Settled(m, SharedOf(s), b, j)
  {
    hide Inv, P.ProblemOk, AllNumbered, SyncFits, Worked, Settled, IsRun, AfterSync, SameInput;
    SettledNext(m, SharedOf(s), a, j);
    SettledNext(m, SharedOf(s), b, j);
    if j > 0 {
      SettledAgree(m, s, a, b, j - 1);
      SettledSize(m, SharedOf(s), a, j - 1);
      WorkedAgree(m, Settled(m, SharedOf(s), a, j - 1), a, b, j - 1);
      SyncsFit(m, s, a, j - 1);
      SyncsFit(m, s, b, j - 1);
      assert SameInput(SyncMoves(a)[j - 1], SyncMoves(b)[j - 1]);
      SyncDetermined(Worked(m, Settled(m, SharedOf(s), a, j - 1), a, j - 1), SyncMoves(a)[j - 1], SyncMoves(b)[j - 1]);
    }
  }

  /**
   * Two runs in which every worker makes the same moves between the same synchronisations, and the same solutions
   * are handed in at each of these, reach the same workers, the same incumbent and the same bounds.
   */
  lemma {:induction false} RunsAgree(m: P.Problem, s: State, a: seq<Move>, b: seq<Move>)
    requires P.ProblemOk(m) && Inv(m, s) && IsRun(m, s, a) && IsRun(m, s, b)
    requires AllNumbered(s.workers)
    requires SameParts(a, b, |s.workers|)
    ensures SharedOf(Run(m, s, a)) == SharedOf(Run(m, s, b)) && Run(m, s, a).open == Run(m, s, b).open
  {
    hide Inv, P.ProblemOk, AllNumbered, Worked, Settled, IsRun, Run;
    SettledAgree(m, s, a, b, Syncs(a));
    SettledSize(m, SharedOf(s), a, Syncs(a));
    WorkedAgree(m, Settled(m, SharedOf(s), a, Syncs(a)), a, b, Syncs(a));
    RunIsSettled(m, s, a);
    RunIsSettled(m, s, b);
    RunKeeps(m, s, a);
    RunKeeps(m, s, b);
    SameOpen(m, Run(m, s, a), Run(m, s, b));
  }

  lemma {:induction false} SameOpen(m: P.Problem, s: State, t: State)
    requires Inv(m, s) && Inv(m, t) && s.workers == t.workers
    ensures s.open == t.open
  {
    hide Total, BoundsPart, WorkerPart, BestPart;
    forall n ensures n in s.open <==> n in t.open {
      assert n in multiset(s.open) <==> n in multiset(t.open);
    }
  }
}
