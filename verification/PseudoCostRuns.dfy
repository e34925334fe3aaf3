/**
 * Pseudo-costs over whole runs of the deterministic mode: workers queue updates in any interleaving, and every
 * synchronisation merges first what the best-first workers and then what the diving workers have queued.
 */
module PseudoCostRuns {
  import opened SortedOrders
  import opened PseudoCosts

  /** The first `bfs` of the `workers` are best-first workers, the others divers. */
  datatype Setup = Setup(add: (real, real) -> real, start: Costs, workers: nat, bfs: nat)

  /** The log lists the merged updates in the order of merging. */
  datatype State = State(shared: Costs, log: seq<Update>, local: seq<Costs>, pending: seq<seq<Update>>)

  datatype Move =
    | Queue(w: int, u: Update)
    | Sync(first: seq<Update>, second: seq<Update>)

  predicate SetupOk(p: Setup) {
    p.bfs <= p.workers && Sized(p.start, |p.start.sumDown|)
  }

  function Bag(pending: seq<seq<Update>>, lo: nat, hi: nat): multiset<Update>
    requires hi <= |pending|
  {
    if hi <= lo then multiset{} else Bag(pending, lo, hi - 1) + multiset(pending[hi - 1])
  }

  function Start(p: Setup): State {
    State(p.start, [], seq(p.workers, _ => p.start), seq(p.workers, _ => []))
  }

  predicate ShapeOk(p: Setup, s: State) {
    |s.local| == |s.pending| == p.workers && p.bfs <= p.workers
  }

  /** The sort may break ties in any way. */
  predicate Enabled(p: Setup, s: State, mv: Move) {
    ShapeOk(p, s) &&
    match mv
    case Queue(w, u) => 0 <= w < p.workers && 0 <= u.variable < |p.start.sumDown|
    case Sync(first, second) =>
      && Sorted(first, Key) && multiset(first) == Bag(s.pending, 0, p.bfs)
      && Sorted(second, Key) && multiset(second) == Bag(s.pending, p.bfs, p.workers)
  }

  function Next(p: Setup, s: State, mv: Move): State {
    match mv
    case Queue(w, u) =>
      if !(0 <= w < |s.local| == |s.pending|) then s
      else s.(local := s.local[w := Bump(p.add, s.local[w], u)], pending := s.pending[w := s.pending[w] + [u]])
    case Sync(first, second) =>
      var after := Merged(p.add, Merged(p.add, s.shared, first), second);
      State(after, s.log + first + second, seq(p.workers, _ => after), seq(p.workers, _ => []))
  }

  function Run(p: Setup, moves: seq<Move>): State {
    if moves == [] then Start(p) else Next(p, Run(p, moves[..|moves| - 1]), moves[|moves| - 1])
  }

  predicate IsRun(p: Setup, moves: seq<Move>) {
    moves == [] || (IsRun(p, moves[..|moves| - 1]) && Enabled(p, Run(p, moves[..|moves| - 1]), moves[|moves| - 1]))
  }

  function QueuedIn(moves: seq<Move>): multiset<Update> {
    if moves == [] then multiset{}
    else
      var rest := QueuedIn(moves[..|moves| - 1]);
      if moves[|moves| - 1].Queue? then rest + multiset{moves[|moves| - 1].u} else rest
  }

  // ---------------------------------------------------------------- exactly once

  lemma {:induction false} MergedAppend(add: (real, real) -> real, c: Costs, a: seq<Update>, b: seq<Update>)
    ensures Merged(add, c, a + b) == Merged(add, Merged(add, c, a), b)
  {
    if b == [] {
      assert a + b == a;
    } else {
      assert (a + b)[..|a + b| - 1] == a + b[..|b| - 1];
      MergedAppend(add, c, a, b[..|b| - 1]);
    }
  }

  lemma {:induction false} BagPut(pending: seq<seq<Update>>, w: int, u: Update, lo: nat, hi: nat)
    requires 0 <= w < |pending| && hi <= |pending|
    ensures Bag(pending[w := pending[w] + [u]], lo, hi) ==
            Bag(pending, lo, hi) + (if lo <= w < hi then multiset{u} else multiset{})
  {
    hide Bag;
    var after := pending[w := pending[w] + [u]];
    BagNext(pending, lo, hi);
    BagNext(after, lo, hi);
    if lo < hi {
      BagPut(pending, w, u, lo, hi - 1);
      Rearranged(Bag(pending, lo, hi - 1), multiset(pending[hi - 1]), multiset{u});
      if w == hi - 1 {
        assert multiset(after[hi - 1]) == multiset(pending[hi - 1]) + multiset{u};
        assert Bag(after, lo, hi - 1) == Bag(pending, lo, hi - 1);
      } else {
        assert after[hi - 1] == pending[hi - 1];
      }
    }
  }

  lemma {:induction false} BagNext(pending: seq<seq<Update>>, lo: nat, hi: nat)
    requires hi <= |pending|
    ensures hi <= lo ==> Bag(pending, lo, hi) == multiset{}
    ensures lo < hi ==> Bag(pending, lo, hi) == Bag(pending, lo, hi - 1) + multiset(pending[hi - 1])
  {
  }

  lemma {:induction false} Rearranged(x: multiset<Update>, y: multiset<Update>, z: multiset<Update>)
    ensures (x + z) + y == (x + y) + z == x + (y + z)
  {
  }

  lemma {:induction false} BagEmpty(n: nat, lo: nat, hi: nat)
    requires hi <= n
    ensures Bag(seq(n, _ => []), lo, hi) == multiset{}
  {
    if lo < hi { BagEmpty(n, lo, hi - 1); }
  }

  lemma {:induction false} BagSplit(pending: seq<seq<Update>>, k: nat, n: nat)
    requires k <= n <= |pending|
    ensures Bag(pending, 0, n) == Bag(pending, 0, k) + Bag(pending, k, n)
  {
    if k < n { BagSplit(pending, k, n - 1); }
  }

  /**
   * Over any number of synchronisations every queued update is merged exactly once or still pending; the shared
   * table is the start table after the log, and a worker's copy is the shared table after its own pending updates.
   */
  lemma {:induction false} MergedExactlyOnce(p: Setup, moves: seq<Move>)
    requires SetupOk(p) && IsRun(p, moves)
    ensures var s := Run(p, moves);
            Once(p, s, QueuedIn(moves))
  {
    if moves == [] {
      BagEmpty(p.workers, 0, p.workers);
    } else {
      hide Merged, Sorted, Sized, Bag, Next;
      var front, mv := moves[..|moves| - 1], moves[|moves| - 1];
      MergedExactlyOnce(p, front);
      if mv.Queue? {
        QueueOnce(p, Run(p, front), QueuedIn(front), mv.w, mv.u);
      } else {
        SyncOnce(p, Run(p, front), QueuedIn(front), mv.first, mv.second);
      }
    }
  }

  /** What holds in every reachable state: nothing queued is lost or merged twice. */
  predicate Once(p: Setup, s: State, queued: multiset<Update>) {
    && ShapeOk(p, s) && s.shared == Merged(p.add, p.start, s.log)
    && queued == multiset(s.log) + Bag(s.pending, 0, p.workers)
    && forall w | 0 <= w < p.workers :: s.local[w] == Merged(p.add, s.shared, s.pending[w])
  }

  lemma {:induction false} QueueOnce(p: Setup, s: State, queued: multiset<Update>, w: int, u: Update)
    requires Once(p, s, queued) && Enabled(p, s, Queue(w, u))
    ensures Once(p, Next(p, s, Queue(w, u)), queued + multiset{u})
  {
    hide Merged, Bump, Sorted, Bag;
    BagPut(s.pending, w, u, 0, p.workers);
    MergedOne(p.add, s.shared, s.pending[w], u);
  }

  lemma {:induction false} SyncOnce(p: Setup, s: State, queued: multiset<Update>, first: seq<Update>, second: seq<Update>)
    requires Once(p, s, queued) && Enabled(p, s, Sync(first, second))
    ensures Once(p, Next(p, s, Sync(first, second)), queued)
  {
    hide Merged, Sorted, Bag;
    MergedAppend(p.add, p.start, s.log, first);
    MergedAppend(p.add, p.start, s.log + first, second);
    BagSplit(s.pending, p.bfs, p.workers);
    BagEmpty(p.workers, 0, p.workers);
    MergedNone(p.add, Next(p, s, Sync(first, second)).shared);
  }

  lemma {:induction false} MergedOne(add: (real, real) -> real, c: Costs, us: seq<Update>, u: Update)
    ensures Merged(add, c, us + [u]) == Bump(add, Merged(add, c, us), u)
  {
    assert (us + [u])[..|us|] == us;
  }

  lemma {:induction false} MergedNone(add: (real, real) -> real, c: Costs)
    ensures Merged(add, c, []) == c
  {
  }

  /** Right after a synchronisation the counters account for every update queued so far. */
  lemma {:induction false} CountedAfterSync(p: Setup, moves: seq<Move>, v: int, d: Direction)
    requires SetupOk(p) && IsRun(p, moves) && moves != [] && moves[|moves| - 1].Sync? && 0 <= v < |p.start.sumDown|
    ensures var s := Run(p, moves);
            && multiset(s.log) == QueuedIn(moves)
            && Num(s.shared, v, d) == Num(p.start, v, d) + |Of(s.log, v, d)|
            && Sum(s.shared, v, d) == Folded(p.add, Sum(p.start, v, d), Of(s.log, v, d))
            && forall w | 0 <= w < p.workers :: s.local[w] == s.shared
  {
    hide Merged, Sorted, Num, Sum, Of, Folded;
    var s := Run(p, moves);
    MergedExactlyOnce(p, moves);
    BagEmpty(p.workers, 0, p.workers);
    assert QueuedIn(moves) == multiset(s.log) + multiset{};
    MergedCell(p.add, p.start, s.log, v, d);
  }

  // ---------------------------------------------------------------- determinism

  function Syncs(moves: seq<Move>): nat {
    if moves == [] then 0 else Syncs(moves[..|moves| - 1]) + (if moves[|moves| - 1].Sync? then 1 else 0)
  }

  /** What worker `w` queued between the synchronisations numbered `j` and `j + 1`, in order. */
  function QueuedBetween(moves: seq<Move>, w: int, j: nat): seq<Update> {
    if moves == [] then []
    else
      var front, mv := moves[..|moves| - 1], moves[|moves| - 1];
      if mv.Queue? && mv.w == w && Syncs(front) == j then QueuedBetween(front, w, j) + [mv.u]
      else QueuedBetween(front, w, j)
  }

  function Columns(moves: seq<Move>, n: nat, j: nat): seq<seq<Update>> {
    seq(n, w => QueuedBetween(moves, w, j))
  }

  lemma {:induction false} HasSorted(bag: multiset<Update>)
    ensures exists order: seq<Update> :: Sorted(order, Key) && multiset(order) == bag
  {
    var order := SortedExists(bag, Key);
  }

  /** The merge of a bag of updates in some sorted order. */
  ghost function SortedMerge(add: (real, real) -> real, c: Costs, bag: multiset<Update>): Costs {
    HasSorted(bag);
    var order: seq<Update> :| Sorted(order, Key) && multiset(order) == bag;
    Merged(add, c, order)
  }

  lemma {:induction false} SortedMergeIs(add: (real, real) -> real, c: Costs, order: seq<Update>)
    requires Sized(c, |c.sumDown|) && Sorted(order, Key)
    ensures SortedMerge(add, c, multiset(order)) == Merged(add, c, order)
    ensures Sized(Merged(add, c, order), |c.sumDown|)
  {
    hide Merged, Sorted;
    HasSorted(multiset(order));
    var chosen: seq<Update> :| Sorted(chosen, Key) && multiset(chosen) == multiset(order)
      && SortedMerge(add, c, multiset(order)) == Merged(add, c, chosen);
    MergeIgnoresArrival(add, c, order, chosen);
    MergedSized(add, c, order);
  }

  /** The shared table after `j` synchronisations, from what each worker queued between them. */
  ghost function Expected(p: Setup, moves: seq<Move>, j: nat): Costs
    requires p.bfs <= p.workers
  {
    if j == 0 then p.start
    else
      var q := Columns(moves, p.workers, j - 1);
      SortedMerge(p.add, SortedMerge(p.add, Expected(p, moves, j - 1), Bag(q, 0, p.bfs)), Bag(q, p.bfs, p.workers))
  }

  lemma {:induction false} ColumnsSettled(moves: seq<Move>, n: nat, j: nat)
    requires moves != [] && j < Syncs(moves[..|moves| - 1])
    ensures Columns(moves, n, j) == Columns(moves[..|moves| - 1], n, j)
  {
  }

  lemma {:induction false} ExpectedSettled(p: Setup, moves: seq<Move>, j: nat)
    requires p.bfs <= p.workers && moves != [] && j <= Syncs(moves[..|moves| - 1])
    ensures Expected(p, moves, j) == Expected(p, moves[..|moves| - 1], j)
  {
    hide Columns, SortedMerge;
    if j > 0 {
      ExpectedSettled(p, moves, j - 1);
      ColumnsSettled(moves, p.workers, j - 1);
    }
  }

  lemma {:induction false} NothingLater(moves: seq<Move>, w: int, j: nat)
    requires Syncs(moves) < j
    ensures QueuedBetween(moves, w, j) == []
  {
    if moves != [] { NothingLater(moves[..|moves| - 1], w, j); }
  }

  lemma {:induction false} RunIsExpected(p: Setup, moves: seq<Move>)
    requires SetupOk(p) && IsRun(p, moves)
    ensures var s := Run(p, moves);
            && s.shared == Expected(p, moves, Syncs(moves)) && Sized(s.shared, |p.start.sumDown|)
            && ShapeOk(p, s) && s.pending == Columns(moves, p.workers, Syncs(moves))
  {
    if moves != [] {
      hide Merged, Bump, Sorted, Sized, SortedMerge;
      var front, mv := moves[..|moves| - 1], moves[|moves| - 1];
      var s := Run(p, front);
      RunIsExpected(p, front);
      ExpectedSettled(p, moves, Syncs(front));
      match mv
      case Queue(w, u) =>
      case Sync(first, second) =>
        SyncExpected(p, moves, s);
        forall w | 0 <= w < p.workers ensures QueuedBetween(moves, w, Syncs(moves)) == [] {
          NothingLater(front, w, Syncs(moves));
        }
    }
  }

  lemma {:induction false} SyncExpected(p: Setup, moves: seq<Move>, s: State)
    requires SetupOk(p) && moves != [] && moves[|moves| - 1].Sync? && Enabled(p, s, moves[|moves| - 1])
    requires s.shared == Expected(p, moves, Syncs(moves[..|moves| - 1])) && Sized(s.shared, |p.start.sumDown|)
    requires s.pending == Columns(moves[..|moves| - 1], p.workers, Syncs(moves[..|moves| - 1]))
    ensures var s' := Next(p, s, moves[|moves| - 1]);
            s'.shared == Expected(p, moves, Syncs(moves)) && Sized(s'.shared, |p.start.sumDown|)
  {
    hide Merged, Sorted, SortedMerge, Bag;
    var front, mv := moves[..|moves| - 1], moves[|moves| - 1];
    assert Columns(moves, p.workers, Syncs(front)) == s.pending;
    SizedAs(s.shared, |p.start.sumDown|);
    SortedMergeIs(p.add, s.shared, mv.first);
    SizedAs(Merged(p.add, s.shared, mv.first), |p.start.sumDown|);
    SortedMergeIs(p.add, Merged(p.add, s.shared, mv.first), mv.second);
  }

  lemma {:induction false} SizedAs(c: Costs, n: nat)
    requires Sized(c, n)
    ensures |c.sumDown| == n
  {
  }

  /**
   * Two runs in which every worker queues the same updates between the same synchronisations agree on the shared
   * table and on every worker's copy, however the workers interleave and however the sort breaks ties.
   */
  lemma {:induction false} RunsAgree(p: Setup, a: seq<Move>, b: seq<Move>)
    requires SetupOk(p) && IsRun(p, a) && IsRun(p, b) && Syncs(a) == Syncs(b)
    requires SameQueues(a, b, p.workers, Syncs(a))
    ensures Run(p, a).shared == Run(p, b).shared && Run(p, a).local == Run(p, b).local
    ensures Run(p, a).pending == Run(p, b).pending
  {
    hide Expected, Merged, SortedMerge, SameQueues;
    RunIsExpected(p, a);
    RunIsExpected(p, b);
    ExpectedAgree(p, a, b, Syncs(a), Syncs(a));
    ColumnsAgree(a, b, p.workers, Syncs(a), Syncs(a));
    MergedExactlyOnce(p, a);
    MergedExactlyOnce(p, b);
  }

  /** Every worker queued the same before synchronisation `j`, between the same synchronisations. */
  ghost predicate SameQueues(a: seq<Move>, b: seq<Move>, n: nat, j: nat) {
    forall w, i: nat | 0 <= w < n && i <= j :: QueuedBetween(a, w, i) == QueuedBetween(b, w, i)
  }

  lemma {:induction false} ExpectedAgree(p: Setup, a: seq<Move>, b: seq<Move>, n: nat, j: nat)
    requires p.bfs <= p.workers && SameQueues(a, b, p.workers, n) && j <= n + 1
    ensures Expected(p, a, j) == Expected(p, b, j)
    decreases j
  {
    hide SortedMerge, SameQueues, Expected, Columns, Bag;
    ExpectedNext(p, a, j);
    ExpectedNext(p, b, j);
    if j > 0 {
      ExpectedAgree(p, a, b, n, j - 1);
      ColumnsAgree(a, b, p.workers, n, j - 1);
    }
  }

  lemma {:induction false} ColumnsAgree(a: seq<Move>, b: seq<Move>, n: nat, k: nat, j: nat)
    requires SameQueues(a, b, n, k) && j <= k
    ensures Columns(a, n, j) == Columns(b, n, j)
  {
  }

  lemma {:induction false} ExpectedNext(p: Setup, moves: seq<Move>, j: nat)
    requires p.bfs <= p.workers
    ensures Expected(p, moves, 0) == p.start
    ensures j > 0 ==>
            Expected(p, moves, j) ==
            SortedMerge(p.add, SortedMerge(p.add, Expected(p, moves, j - 1), Bag(Columns(moves, p.workers, j - 1), 0, p.bfs)),
                        Bag(Columns(moves, p.workers, j - 1), p.bfs, p.workers))
  {
    hide SortedMerge, Columns, Bag;
  }
}
