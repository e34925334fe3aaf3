/**
 * The heuristic queue and the incumbent over whole runs of the deterministic mode: solutions arrive at any moment,
 * and every synchronisation consumes those whose time stamp is before its horizon.
 */
module ReplayRuns {
  import opened SortedOrders
  import opened Replay

  /** A queued solution and the number of synchronisations that had passed when it arrived. */
  datatype Entry = Entry(found: Found, arrived: nat)

  datatype Use = Use(entry: Entry, at: nat)

  datatype State = State(queue: seq<Entry>, syncs: nat, best: Best, used: seq<Use>)

  datatype Move =
    | Arrive(found: Found)
    | Sync(order: seq<Found>, bfs: seq<Found>, diving: seq<Found>)

  /** The horizon of a synchronisation: the first lies one step ahead, each later one a step further. */
  function Horizon(step: real, j: nat): real {
    if j == 0 then step else Horizon(step, j - 1) + step
  }

  lemma {:induction false} HorizonIs(step: real, j: nat)
    ensures Horizon(step, j) == (j + 1) as real * step
  {
    if j > 0 {
      HorizonIs(step, j - 1);
      assert (j as real + 1.0) * step == j as real * step + step;
    }
  }

  lemma {:induction false} HorizonGrows(step: real, i: nat, j: nat)
    requires step > 0.0 && i < j
    ensures Horizon(step, i) < Horizon(step, j)
  {
    if i < j - 1 { HorizonGrows(step, i, j - 1); }
  }

  function DueEntries(queue: seq<Entry>, horizon: real): seq<Entry> {
    if queue == [] then []
    else
      var rest := DueEntries(queue[..|queue| - 1], horizon);
      if queue[|queue| - 1].found.timestamp < horizon then rest + [queue[|queue| - 1]] else rest
  }

  function KeptEntries(queue: seq<Entry>, horizon: real): seq<Entry> {
    if queue == [] then []
    else
      var rest := KeptEntries(queue[..|queue| - 1], horizon);
      if queue[|queue| - 1].found.timestamp < horizon then rest else rest + [queue[|queue| - 1]]
  }

  function Founds(queue: seq<Entry>): seq<Found> {
    if queue == [] then [] else Founds(queue[..|queue| - 1]) + [queue[|queue| - 1].found]
  }

  function Uses(entries: seq<Entry>, at: nat): seq<Use> {
    if entries == [] then [] else Uses(entries[..|entries| - 1], at) + [Use(entries[|entries| - 1], at)]
  }

  function EntriesOf(used: seq<Use>): seq<Entry> {
    if used == [] then [] else EntriesOf(used[..|used| - 1]) + [used[|used| - 1].entry]
  }

  /** What one synchronisation makes of the incumbent: the heuristics, then both pools of workers. */
  function Updated(b: Best, order: seq<Found>, bfs: seq<Found>, diving: seq<Found>): Best {
    TakeWorkers(TakeWorkers(TakeHeuristics(b, order), bfs), diving)
  }

  /** The queue of the state is the queue of the synchroniser with arrival counts added. */
  lemma {:induction false} EntriesAreQueue(queue: seq<Entry>, horizon: real)
    ensures Founds(DueEntries(queue, horizon)) == Due(Founds(queue), horizon)
    ensures Founds(KeptEntries(queue, horizon)) == Future(Founds(queue), horizon)
  {
    if queue != [] {
      var front, last := queue[..|queue| - 1], queue[|queue| - 1];
      EntriesAreQueue(front, horizon);
      FoundsSnoc(front, last);
      assert queue == front + [last];
      FoundsSnoc(DueEntries(front, horizon), last);
      FoundsSnoc(KeptEntries(front, horizon), last);
      assert Founds(queue)[..|Founds(queue)| - 1] == Founds(front);
    }
  }

  lemma {:induction false} FoundsSnoc(queue: seq<Entry>, e: Entry)
    ensures Founds(queue + [e]) == Founds(queue) + [e.found]
  {
    assert (queue + [e])[..|queue|] == queue;
  }

  predicate Enabled(step: real, s: State, mv: Move) {
    match mv
    case Arrive(_) => true
    case Sync(order, bfs, diving) =>
      && Sorted(order, HeuristicKey) && Sorted(bfs, WorkerKey) && Sorted(diving, WorkerKey)
      && multiset(order) == multiset(Due(Founds(s.queue), Horizon(step, s.syncs)))
  }

  function Next(step: real, s: State, mv: Move): State {
    match mv
    case Arrive(f) => s.(queue := s.queue + [Entry(f, s.syncs)])
    case Sync(order, bfs, diving) =>
      State(KeptEntries(s.queue, Horizon(step, s.syncs)), s.syncs + 1, Updated(s.best, order, bfs, diving),
            s.used + Uses(DueEntries(s.queue, Horizon(step, s.syncs)), s.syncs))
  }

  function Run(step: real, start: Best, moves: seq<Move>): State {
    if moves == [] then State([], 0, start, [])
    else Next(step, Run(step, start, moves[..|moves| - 1]), moves[|moves| - 1])
  }

  predicate IsRun(step: real, start: Best, moves: seq<Move>) {
    moves == [] || (IsRun(step, start, moves[..|moves| - 1])
                    && Enabled(step, Run(step, start, moves[..|moves| - 1]), moves[|moves| - 1]))
  }

  // ---------------------------------------------------------------- exactly once

  /** Synchronisation `j` is the first after the arrival whose horizon exceeds the time stamp. */
  predicate FirstDue(step: real, e: Entry, j: nat) {
    && e.arrived <= j && e.found.timestamp < Horizon(step, j)
    && forall i | e.arrived <= i < j :: Horizon(step, i) <= e.found.timestamp
  }

  predicate Waiting(step: real, e: Entry, syncs: nat) {
    e.arrived <= syncs && forall i | e.arrived <= i < syncs :: Horizon(step, i) <= e.found.timestamp
  }

  /** The arrivals of a run, in order, with the number of synchronisations before each. */
  function Arrivals(moves: seq<Move>): seq<Entry> {
    if moves == [] then []
    else
      var front, mv := moves[..|moves| - 1], moves[|moves| - 1];
      if mv.Arrive? then Arrivals(front) + [Entry(mv.found, Syncs(front))] else Arrivals(front)
  }

  function Syncs(moves: seq<Move>): nat {
    if moves == [] then 0 else Syncs(moves[..|moves| - 1]) + (if moves[|moves| - 1].Sync? then 1 else 0)
  }

  lemma {:induction false} SplitEntries(queue: seq<Entry>, horizon: real)
    ensures multiset(queue) == multiset(DueEntries(queue, horizon)) + multiset(KeptEntries(queue, horizon))
    ensures forall e | e in DueEntries(queue, horizon) :: e in queue && e.found.timestamp < horizon
    ensures forall e | e in KeptEntries(queue, horizon) :: e in queue && horizon <= e.found.timestamp
  {
    if queue != [] {
      SplitEntries(queue[..|queue| - 1], horizon);
      assert queue == queue[..|queue| - 1] + [queue[|queue| - 1]];
    }
  }

  lemma {:induction false} UsesOf(entries: seq<Entry>, at: nat)
    ensures EntriesOf(Uses(entries, at)) == entries
    ensures forall u | u in Uses(entries, at) :: u.at == at && u.entry in entries
  {
    if entries != [] {
      var us := Uses(entries, at);
      UsesOf(entries[..|entries| - 1], at);
      assert us[..|us| - 1] == Uses(entries[..|entries| - 1], at);
    }
  }

  lemma {:induction false} EntriesAppend(a: seq<Use>, b: seq<Use>)
    ensures EntriesOf(a + b) == EntriesOf(a) + EntriesOf(b)
  {
    if b == [] {
      assert a + b == a;
    } else {
      EntriesAppend(a, b[..|b| - 1]);
      assert (a + b)[..|a + b| - 1] == a + b[..|b| - 1];
    }
  }

  predicate Accounted(step: real, s: State, arrivals: multiset<Entry>) {
    && arrivals == multiset(s.queue) + multiset(EntriesOf(s.used))
    && (forall e | e in s.queue :: Waiting(step, e, s.syncs))
    && (forall u | u in s.used :: u.at < s.syncs && FirstDue(step, u.entry, u.at))
  }

  lemma {:induction false} SyncAccounted(step: real, s: State, arrivals: multiset<Entry>, mv: Move)
    requires mv.Sync? && Accounted(step, s, arrivals)
    ensures Accounted(step, Next(step, s, mv), arrivals)
  {
    hide Updated, Founds, Horizon, Waiting, FirstDue, DueEntries, KeptEntries, Uses, EntriesOf;
    var h := Horizon(step, s.syncs);
    var s' := Next(step, s, mv);
    SyncBags(s.queue, s.used, h, s.syncs, arrivals);
    SplitEntries(s.queue, h);
    UsesOf(DueEntries(s.queue, h), s.syncs);
    forall e | e in s'.queue ensures Waiting(step, e, s'.syncs) {
      StillWaiting(step, e, s.syncs);
    }
    forall u | u in s'.used ensures u.at < s'.syncs && FirstDue(step, u.entry, u.at) {
      if u !in s.used { NowDue(step, u.entry, s.syncs); }
    }
  }

  lemma {:induction false} SyncBags(queue: seq<Entry>, used: seq<Use>, horizon: real, at: nat, arrivals: multiset<Entry>)
    requires arrivals == multiset(queue) + multiset(EntriesOf(used))
    ensures arrivals == multiset(KeptEntries(queue, horizon))
                        + multiset(EntriesOf(used + Uses(DueEntries(queue, horizon), at)))
  {
    hide DueEntries, KeptEntries, Uses, EntriesOf;
    var due := DueEntries(queue, horizon);
    SplitEntries(queue, horizon);
    UsesOf(due, at);
    EntriesAppend(used, Uses(due, at));
    Moved(arrivals, multiset(queue), multiset(due), multiset(KeptEntries(queue, horizon)), multiset(EntriesOf(used)));
    assert multiset(EntriesOf(used) + due) == multiset(EntriesOf(used)) + multiset(due);
  }

  lemma {:induction false} Moved(all: multiset<Entry>, queue: multiset<Entry>, due: multiset<Entry>, kept: multiset<Entry>,
                                 used: multiset<Entry>)
    requires all == queue + used && queue == due + kept
    ensures all == kept + (used + due)
  {
  }

  lemma {:induction false} StillWaiting(step: real, e: Entry, syncs: nat)
    requires Waiting(step, e, syncs) && Horizon(step, syncs) <= e.found.timestamp
    ensures Waiting(step, e, syncs + 1)
  {
  }

  lemma {:induction false} NowDue(step: real, e: Entry, syncs: nat)
    requires Waiting(step, e, syncs) && e.found.timestamp < Horizon(step, syncs)
    ensures FirstDue(step, e, syncs)
  {
  }

  lemma {:induction false} DueOnce(step: real, e: Entry, i: nat, j: nat)
    requires FirstDue(step, e, i)
    ensures FirstDue(step, e, j) ==> i == j
    ensures i < j ==> !Waiting(step, e, j)
  {
  }

  /**
   * Every arrival is consumed at most once, at the first synchronisation after it whose horizon exceeds its time
   * stamp; whatever is still queued has not been due at any synchronisation so far.
   */
  lemma {:induction false} ConsumedExactlyOnce(step: real, start: Best, moves: seq<Move>)
    requires IsRun(step, start, moves)
    ensures Run(step, start, moves).syncs == Syncs(moves)
    ensures Accounted(step, Run(step, start, moves), multiset(Arrivals(moves)))
  {
    if moves != [] {
      hide Accounted, Enabled;
      var front, mv := moves[..|moves| - 1], moves[|moves| - 1];
      ConsumedExactlyOnce(step, start, front);
      if mv.Sync? {
        SyncAccounted(step, Run(step, start, front), multiset(Arrivals(front)), mv);
      } else {
        ArriveAccounted(step, Run(step, start, front), multiset(Arrivals(front)), mv.found);
      }
    } else {
      assert multiset(Arrivals(moves)) == multiset{};
    }
  }

  lemma {:induction false} ArriveAccounted(step: real, s: State, arrivals: multiset<Entry>, f: Found)
    requires Accounted(step, s, arrivals)
    ensures Accounted(step, Next(step, s, Arrive(f)), arrivals + multiset{Entry(f, s.syncs)})
  {
  }

  /** When a synchronisation has passed that was due, the solution has been consumed. */
  lemma {:induction false} DueIsConsumed(step: real, start: Best, moves: seq<Move>, e: Entry, j: nat)
    requires IsRun(step, start, moves) && e in Arrivals(moves) && j < Syncs(moves) && FirstDue(step, e, j)
    ensures Use(e, j) in Run(step, start, moves).used
  {
    var s := Run(step, start, moves);
    ConsumedExactlyOnce(step, start, moves);
    assert e in multiset(Arrivals(moves));
    DueOnce(step, e, j, s.syncs);
    assert e !in s.queue;
    assert e in multiset(EntriesOf(s.used));
    var k := UseOf(s.used, e);
    assert s.used[k] in s.used && FirstDue(step, e, s.used[k].at);
    DueOnce(step, e, j, s.used[k].at);
  }

  lemma {:induction false} UseOf(used: seq<Use>, e: Entry) returns (k: int)
    requires e in EntriesOf(used)
    ensures 0 <= k < |used| && used[k].entry == e
  {
    if used[|used| - 1].entry == e { return |used| - 1; }
    k := UseOf(used[..|used| - 1], e);
  }

  // ---------------------------------------------------------------- determinism

  /** A solution arrives in time when no synchronisation that should have consumed it has passed. */
  predicate InTimeRun(step: real, moves: seq<Move>) {
    moves == [] ||
    var front, mv := moves[..|moves| - 1], moves[|moves| - 1];
    InTimeRun(step, front) && (mv.Arrive? && Syncs(front) > 0 ==> Horizon(step, Syncs(front) - 1) <= mv.found.timestamp)
  }

  /** Time stamps that synchronisation `j` consumes when solutions arrive in time. */
  predicate Window(step: real, j: nat, f: Found) {
    f.timestamp < Horizon(step, j) && (j > 0 ==> Horizon(step, j - 1) <= f.timestamp)
  }

  predicate NotYetDue(step: real, j: nat, f: Found) {
    j > 0 ==> Horizon(step, j - 1) <= f.timestamp
  }

  function InWindow(step: real, j: nat, fs: seq<Found>): seq<Found> {
    if fs == [] then []
    else
      var rest := InWindow(step, j, fs[..|fs| - 1]);
      if Window(step, j, fs[|fs| - 1]) then rest + [fs[|fs| - 1]] else rest
  }

  lemma {:induction false} WindowCount(step: real, j: nat, fs: seq<Found>, f: Found)
    ensures multiset(InWindow(step, j, fs))[f] == if Window(step, j, f) then multiset(fs)[f] else 0
  {
    if fs != [] {
      WindowCount(step, j, fs[..|fs| - 1], f);
      assert fs == fs[..|fs| - 1] + [fs[|fs| - 1]];
    }
  }

  lemma {:induction false} HasOrder(bag: multiset<Found>)
    ensures exists order: seq<Found> :: Sorted(order, HeuristicKey) && multiset(order) == bag
  {
    var order := SortedExists(bag, HeuristicKey);
  }

  /** The incumbent after a bag of heuristic solutions, in some sorted order. */
  ghost function TakeBag(b: Best, bag: multiset<Found>): Best {
    HasOrder(bag);
    var order: seq<Found> :| Sorted(order, HeuristicKey) && multiset(order) == bag;
    TakeHeuristics(b, order)
  }

  lemma {:induction false} TakeBagIs(b: Best, order: seq<Found>)
    requires Sorted(order, HeuristicKey)
    ensures TakeBag(b, multiset(order)) == TakeHeuristics(b, order)
  {
    hide Sorted, TakeHeuristics;
    HasOrder(multiset(order));
    var chosen: seq<Found> :| Sorted(chosen, HeuristicKey) && multiset(chosen) == multiset(order)
      && TakeBag(b, multiset(order)) == TakeHeuristics(b, chosen);
    ReplayIgnoresArrival(b, order, chosen);
  }

  /** The solutions of the workers at each synchronisation. */
  function Batches(moves: seq<Move>): seq<(seq<Found>, seq<Found>)> {
    if moves == [] then []
    else
      var rest := Batches(moves[..|moves| - 1]);
      if moves[|moves| - 1].Sync? then rest + [(moves[|moves| - 1].bfs, moves[|moves| - 1].diving)] else rest
  }

  /** The incumbent after `j` synchronisations, from the solutions and their time stamps alone. */
  ghost function Expected(step: real, start: Best, fs: seq<Found>, batches: seq<(seq<Found>, seq<Found>)>, j: nat): Best
    requires j <= |batches|
  {
    if j == 0 then start
    else
      TakeWorkers(TakeWorkers(TakeBag(Expected(step, start, fs, batches, j - 1), multiset(InWindow(step, j - 1, fs))),
                              batches[j - 1].0), batches[j - 1].1)
  }

  lemma {:induction false} ExpectedNext(step: real, start: Best, fs: seq<Found>, batches: seq<(seq<Found>, seq<Found>)>, j: nat)
    requires j <= |batches|
    ensures Expected(step, start, fs, batches, 0) == start
    ensures j > 0 ==>
              Expected(step, start, fs, batches, j) ==
              TakeWorkers(TakeWorkers(TakeBag(Expected(step, start, fs, batches, j - 1), multiset(InWindow(step, j - 1, fs))),
                                      batches[j - 1].0), batches[j - 1].1)
  {
    hide TakeWorkers, TakeBag, InWindow;
  }

  /** Only the solutions in the windows so far and the batches so far matter. */
  lemma {:induction false} ExpectedSame(step: real, start: Best, fs: seq<Found>, gs: seq<Found>,
                                        a: seq<(seq<Found>, seq<Found>)>, b: seq<(seq<Found>, seq<Found>)>, j: nat)
    requires j <= |a| && j <= |b| && a[..j] == b[..j]
    requires SameWindows(step, fs, gs, j)
    ensures Expected(step, start, fs, a, j) == Expected(step, start, gs, b, j)
  {
    hide TakeWorkers, TakeBag, InWindow, Expected;
    ExpectedNext(step, start, fs, a, j);
    ExpectedNext(step, start, gs, b, j);
    if j > 0 {
      assert a[j - 1] == a[..j][j - 1] == b[..j][j - 1] == b[j - 1];
      assert a[..j - 1] == a[..j][..j - 1] == b[..j][..j - 1] == b[..j - 1];
      ExpectedSame(step, start, fs, gs, a, b, j - 1);
    }
  }

  predicate SameWindows(step: real, fs: seq<Found>, gs: seq<Found>, j: nat) {
    forall i: nat | i < j :: multiset(InWindow(step, i, fs)) == multiset(InWindow(step, i, gs))
  }

  lemma {:induction false} LateArrival(step: real, fs: seq<Found>, f: Found, j: nat)
    requires step > 0.0 && NotYetDue(step, j, f)
    ensures SameWindows(step, fs, fs + [f], j)
  {
    forall i: nat | i < j ensures multiset(InWindow(step, i, fs)) == multiset(InWindow(step, i, fs + [f])) {
      if i < j - 1 { HorizonGrows(step, i, j - 1); }
      assert (fs + [f])[..|fs|] == fs;
    }
  }

  /** The queue holds exactly the arrivals not yet due. */
  ghost predicate QueueIs(step: real, queue: seq<Found>, arrivals: seq<Found>, syncs: nat) {
    forall f | f in arrivals || f in queue ::
      multiset(queue)[f] == if NotYetDue(step, syncs, f) then multiset(arrivals)[f] else 0
  }

  lemma {:induction false} QueueCount(step: real, queue: seq<Found>, arrivals: seq<Found>, syncs: nat, f: Found)
    requires QueueIs(step, queue, arrivals, syncs)
    ensures multiset(queue)[f] == if NotYetDue(step, syncs, f) then multiset(arrivals)[f] else 0
  {
    if f !in arrivals && f !in queue {
      assert multiset(queue)[f] == 0 && multiset(arrivals)[f] == 0;
    }
  }

  lemma {:induction false} SyncQueue(step: real, queue: seq<Found>, arrivals: seq<Found>, syncs: nat)
    requires step > 0.0 && QueueIs(step, queue, arrivals, syncs)
    ensures multiset(Due(queue, Horizon(step, syncs))) == multiset(InWindow(step, syncs, arrivals))
    ensures QueueIs(step, Future(queue, Horizon(step, syncs)), arrivals, syncs + 1)
  {
    hide QueueIs, Due, Future, InWindow;
    var h := Horizon(step, syncs);
    if syncs > 0 { HorizonGrows(step, syncs - 1, syncs); }
    forall f ensures multiset(Due(queue, h))[f] == multiset(InWindow(step, syncs, arrivals))[f] {
      QueueCount(step, queue, arrivals, syncs, f);
      DueMeans(queue, h, f);
      WindowCount(step, syncs, arrivals, f);
    }
    FutureQueue(step, queue, arrivals, syncs);
  }

  lemma {:induction false} FutureQueue(step: real, queue: seq<Found>, arrivals: seq<Found>, syncs: nat)
    requires step > 0.0 && QueueIs(step, queue, arrivals, syncs)
    ensures QueueIs(step, Future(queue, Horizon(step, syncs)), arrivals, syncs + 1)
  {
    hide Due, Future;
    var h := Horizon(step, syncs);
    if syncs > 0 { HorizonGrows(step, syncs - 1, syncs); }
    forall f | f in arrivals || f in Future(queue, h)
      ensures multiset(Future(queue, h))[f] == if NotYetDue(step, syncs + 1, f) then multiset(arrivals)[f] else 0
    {
      QueueCount(step, queue, arrivals, syncs, f);
      DueMeans(queue, h, f);
    }
  }

  lemma {:induction false} ArriveQueue(step: real, queue: seq<Found>, arrivals: seq<Found>, syncs: nat, f: Found)
    requires QueueIs(step, queue, arrivals, syncs) && NotYetDue(step, syncs, f)
    ensures QueueIs(step, queue + [f], arrivals + [f], syncs)
  {
    forall g | g in arrivals + [f] || g in queue + [f]
      ensures multiset(queue + [f])[g] == if NotYetDue(step, syncs, g) then multiset(arrivals + [f])[g] else 0
    {
      QueueCount(step, queue, arrivals, syncs, g);
    }
  }

  lemma {:induction false} RunIsExpected(step: real, start: Best, moves: seq<Move>)
    requires step > 0.0 && IsRun(step, start, moves) && InTimeRun(step, moves)
    ensures |Batches(moves)| == Syncs(moves) == Run(step, start, moves).syncs
    ensures Run(step, start, moves).best == Expected(step, start, Founds(Arrivals(moves)), Batches(moves), Syncs(moves))
    ensures QueueIs(step, Founds(Run(step, start, moves).queue), Founds(Arrivals(moves)), Syncs(moves))
  {
    if moves != [] {
      hide QueueIs, Expected, TakeWorkers, TakeHeuristics, Sorted;
      var front, mv := moves[..|moves| - 1], moves[|moves| - 1];
      RunIsExpected(step, start, front);
      if mv.Arrive? {
        ArriveExpected(step, start, front, mv.found, Run(step, start, front));
      } else {
        SyncExpected(step, start, front, mv, Run(step, start, front));
      }
    } else {
      hide Expected;
      ExpectedNext(step, start, Founds(Arrivals(moves)), Batches(moves), 0);
    }
  }

  lemma {:induction false} ArriveExpected(step: real, start: Best, front: seq<Move>, f: Found, s: State)
    requires step > 0.0 && |Batches(front)| == Syncs(front) == s.syncs && NotYetDue(step, s.syncs, f)
    requires s.best == Expected(step, start, Founds(Arrivals(front)), Batches(front), s.syncs)
    requires QueueIs(step, Founds(s.queue), Founds(Arrivals(front)), s.syncs)
    ensures var s' := Next(step, s, Arrive(f));
            var fs := Founds(Arrivals(front) + [Entry(f, s.syncs)]);
            && s'.best == Expected(step, start, fs, Batches(front), s'.syncs)
            && QueueIs(step, Founds(s'.queue), fs, s'.syncs)
  {
    hide QueueIs, Expected, SameWindows, Founds;
    FoundsSnoc(Arrivals(front), Entry(f, s.syncs));
    FoundsSnoc(s.queue, Entry(f, s.syncs));
    ArriveQueue(step, Founds(s.queue), Founds(Arrivals(front)), s.syncs, f);
    LateArrival(step, Founds(Arrivals(front)), f, s.syncs);
    ExpectedSame(step, start, Founds(Arrivals(front)), Founds(Arrivals(front)) + [f], Batches(front), Batches(front), s.syncs);
  }

  lemma {:induction false} SyncExpected(step: real, start: Best, front: seq<Move>, mv: Move, s: State)
    requires step > 0.0 && |Batches(front)| == Syncs(front) == s.syncs && mv.Sync? && Enabled(step, s, mv)
    requires s.best == Expected(step, start, Founds(Arrivals(front)), Batches(front), s.syncs)
    requires QueueIs(step, Founds(s.queue), Founds(Arrivals(front)), s.syncs)
    ensures var s' := Next(step, s, mv);
            && s'.best == Expected(step, start, Founds(Arrivals(front)), Batches(front) + [(mv.bfs, mv.diving)], s'.syncs)
            && QueueIs(step, Founds(s'.queue), Founds(Arrivals(front)), s'.syncs)
  {
    hide QueueIs, Expected, SameWindows, Founds, TakeWorkers, TakeHeuristics, TakeBag, Sorted, InWindow, Due, Future;
    var fs, b, b' := Founds(Arrivals(front)), Batches(front), Batches(front) + [(mv.bfs, mv.diving)];
    var h := Horizon(step, s.syncs);
    EntriesAreQueue(s.queue, h);
    SyncQueue(step, Founds(s.queue), fs, s.syncs);
    TakeBagIs(s.best, mv.order);
    AllWindows(step, fs, s.syncs);
    assert b[..s.syncs] == b'[..s.syncs];
    ExpectedSame(step, start, fs, fs, b, b', s.syncs);
    ExpectedNext(step, start, fs, b', s.syncs + 1);
  }

  lemma {:induction false} AllWindows(step: real, fs: seq<Found>, j: nat)
    ensures SameWindows(step, fs, fs, j)
  {
  }

  /**
   * Two runs with the same heuristic solutions, each arriving in time, and the same solutions of the workers at
   * every synchronisation end with the same incumbent and upper bound and the same solutions queued, whatever the
   * order and the moments of the arrivals.
   */
  lemma {:induction false} ArrivalDoesNotMatter(step: real, start: Best, a: seq<Move>, b: seq<Move>)
    requires step > 0.0 && IsRun(step, start, a) && IsRun(step, start, b) && InTimeRun(step, a) && InTimeRun(step, b)
    requires Batches(a) == Batches(b) && multiset(Founds(Arrivals(a))) == multiset(Founds(Arrivals(b)))
    ensures Run(step, start, a).best == Run(step, start, b).best
    ensures multiset(Founds(Run(step, start, a).queue)) == multiset(Founds(Run(step, start, b).queue))
  {
    hide Expected, QueueIs, SameWindows, Founds, Arrivals, InWindow, Batches, Run, IsRun, InTimeRun;
    var fs, gs, j := Founds(Arrivals(a)), Founds(Arrivals(b)), Syncs(a);
    var s, t := Run(step, start, a), Run(step, start, b);
    RunIsExpected(step, start, a);
    RunIsExpected(step, start, b);
    SameArrivals(step, fs, gs, j);
    ExpectedSame(step, start, fs, gs, Batches(a), Batches(b), j);
    forall f ensures multiset(Founds(s.queue))[f] == multiset(Founds(t.queue))[f] {
      QueueCount(step, Founds(s.queue), fs, j, f);
      QueueCount(step, Founds(t.queue), gs, j, f);
    }
  }

  lemma {:induction false} SameArrivals(step: real, fs: seq<Found>, gs: seq<Found>, j: nat)
    requires multiset(fs) == multiset(gs)
    ensures SameWindows(step, fs, gs, j)
  {
    hide InWindow;
    forall i: nat | i < j ensures multiset(InWindow(step, i, fs)) == multiset(InWindow(step, i, gs)) {
      forall f ensures multiset(InWindow(step, i, fs))[f] == multiset(InWindow(step, i, gs))[f] {
        WindowCount(step, i, fs, f);
        WindowCount(step, i, gs, f);
      }
    }
  }
}
