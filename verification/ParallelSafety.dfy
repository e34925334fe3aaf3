/** Invariants of the parallel search over every interleaving of its steps, and what they say at the end. */
module ParallelSafety {
  import opened Rounding
  import opened Extended
  import opened Lattice
  import opened BranchPath
  import opened ParallelSearch

  // ---------------------------------------------------------------- who holds which node

  lemma {:induction false} TotalPut(workers: seq<Worker>, w: int, wk: Worker)
    requires 0 <= w < |workers|
    ensures Total(workers[w := wk]) + multiset(Holds(workers[w])) == Total(workers) + multiset(Holds(wk))
    decreases |workers|
  {
    var last := |workers| - 1;
    hide Holds;
    if w == last {
      assert workers[w := wk][..last] == workers[..last];
    } else {
      TotalPut(workers[..last], w, wk);
      assert workers[w := wk][..last] == workers[..last][w := wk];
      BesideSum(Total(workers[..last][w := wk]), Total(workers[..last]), multiset(Holds(workers[last])),
                multiset(Holds(workers[w])), multiset(Holds(wk)));
    }
  }

  // Multiset sums are compared count by count.

  lemma {:induction false} BesideSum(a: multiset<Node>, b: multiset<Node>, c: multiset<Node>, x: multiset<Node>, y: multiset<Node>)
    requires a + x == b + y
    ensures (a + c) + x == (b + c) + y
  {
    forall n ensures ((a + c) + x)[n] == ((b + c) + y)[n] { assert (a + x)[n] == (b + y)[n]; }
  }

  lemma {:induction false} LocalSum(after: multiset<Node>, before: multiset<Node>, x: multiset<Node>, y: multiset<Node>)
    requires after + x == before + y && x == y
    ensures after == before
  {
    forall n ensures after[n] == before[n] { assert (after + x)[n] == (before + y)[n]; }
  }

  lemma {:induction false} CloseSum(after: multiset<Node>, before: multiset<Node>, x: multiset<Node>, y: multiset<Node>,
                                    one: multiset<Node>, left: multiset<Node>)
    requires after + x == before + y && x == y + one && before == left + one
    ensures after == left
  {
    forall n ensures after[n] == left[n] {
      assert (after + x)[n] == (before + y)[n] && x[n] == (y + one)[n] && before[n] == (left + one)[n];
    }
  }

  lemma {:induction false} BranchSum(after: multiset<Node>, before: multiset<Node>, x: multiset<Node>, y: multiset<Node>,
                                     one: multiset<Node>, two: multiset<Node>, open: multiset<Node>)
    requires after + x == before + y && x + two == y + one && open + one == before + two
    ensures after == open
  {
    forall n ensures after[n] == open[n] {
      assert (after + x)[n] == (before + y)[n] && (x + two)[n] == (y + one)[n] && (open + one)[n] == (before + two)[n];
    }
  }

  lemma {:induction false} PairSum(after: multiset<Node>, between: multiset<Node>, before: multiset<Node>,
                                   v: multiset<Node>, v': multiset<Node>, w: multiset<Node>, w': multiset<Node>)
    requires between + v == before + v' && after + w == between + w' && w' + v' == w + v
    ensures after == before
  {
    forall n ensures after[n] == before[n] {
      assert (between + v)[n] == (before + v')[n] && (after + w)[n] == (between + w')[n] && (w' + v')[n] == (w + v)[n];
    }
  }

  lemma {:induction false} SwapTail(q: seq<Node>, a: seq<Node>, b: seq<Node>)
    ensures multiset((q + b) + a) == multiset(q + (a + b))
  {
    forall n ensures multiset((q + b) + a)[n] == multiset(q + (a + b))[n] {
      assert multiset((q + b) + a)[n] == multiset(q)[n] + multiset(b)[n] + multiset(a)[n];
      assert multiset(q + (a + b))[n] == multiset(q)[n] + multiset(a)[n] + multiset(b)[n];
    }
  }

  lemma {:induction false} HoldsIs(w: Worker, q: seq<Node>, h: seq<Node>)
    requires w.queue == q && Held(w.pc) == h
    ensures Holds(w) == q + h
  {
  }

  /** Workers with nothing outside their queue. */
  lemma {:induction false} QueueOnly(w: Worker)
    requires Held(w.pc) == []
    ensures Holds(w) == w.queue
  {
  }

  lemma {:induction false} TotalContains(workers: seq<Worker>, w: int)
    requires 0 <= w < |workers|
    ensures multiset(Holds(workers[w])) <= Total(workers)
    decreases |workers|
  {
    hide Holds;
    if w < |workers| - 1 { TotalContains(workers[..|workers| - 1], w); }
  }

  lemma {:induction false} HolderOf(workers: seq<Worker>, n: Node) returns (w: int)
    requires n in Total(workers)
    ensures 0 <= w < |workers| && n in Holds(workers[w])
    decreases |workers|
  {
    hide Holds;
    var last := |workers| - 1;
    if n in multiset(Holds(workers[last])) {
      w := last;
    } else {
      w := HolderOf(workers[..last], n);
    }
  }

  lemma {:induction false} MultisetWithout(open: set<Node>, n: Node)
    requires n in open
    ensures multiset(open) == multiset(open - {n}) + multiset{n}
  {
  }

  lemma {:induction false} HeldIsOpen(m: Problem, s: State, w: int, n: Node)
    requires Inv(m, s) && IsWorker(s, w) && n in Holds(s.workers[w])
    ensures n in s.open
  {
    TotalContains(s.workers, w);
    assert n in multiset(Holds(s.workers[w]));
  }

  /** States of a worker that the pool and the launchers do not look at. */
  predicate Neutral(pc: Pc) {
    !pc.Idle? && !pc.Reserved? && !pc.Launch?
  }

  lemma {:induction false} NeutralPool(s: State, w: int, wk: Worker)
    requires PoolOk(s) && IsWorker(s, w) && Neutral(s.workers[w].pc) && Neutral(wk.pc)
    ensures PoolOk(Put(s, w, wk))
  {
    var s' := Put(s, w, wk);
    forall u | 0 <= u < |s'.workers|
      ensures LaunchOk(s', u) && (u in s'.idle <==> s'.workers[u].pc.Idle?)
    {
      assert LaunchOk(s, u);
    }
    forall u, v | 0 <= u < |s'.workers| && 0 <= v < |s'.workers| && u != v
      ensures !SameTarget(s'.workers[u].pc, s'.workers[v].pc)
    {
      assert !SameTarget(s.workers[u].pc, s.workers[v].pc);
    }
  }

  /** A step of one worker that keeps its nodes. */
  lemma {:induction false} OneKeeps(m: Problem, s: State, w: int, wk: Worker, idle: seq<int>)
    requires Inv(m, s) && IsWorker(s, w) && PoolOk(Put(s, w, wk).(idle := idle))
    requires WorkerOk(wk) && CutoffOk(m, s.upper, wk.pc) && multiset(Holds(wk)) == multiset(Holds(s.workers[w]))
    ensures Inv(m, Put(s, w, wk).(idle := idle))
  {
    hide WorkerOk, PoolOk, Valid, Covered, FloorHolds, Holds, UpperOk, CutoffOk;
    TotalPut(s.workers, w, wk);
    LocalSum(Total(s.workers[w := wk]), Total(s.workers), multiset(Holds(s.workers[w])), multiset(Holds(wk)));
    SameGlobals(m, s, Put(s, w, wk).(idle := idle));
  }

  lemma {:induction false} LocalKeeps(m: Problem, s: State, w: int, wk: Worker)
    requires Inv(m, s) && IsWorker(s, w) && Neutral(s.workers[w].pc) && Neutral(wk.pc)
    requires WorkerOk(wk) && CutoffOk(m, s.upper, wk.pc) && multiset(Holds(wk)) == multiset(Holds(s.workers[w]))
    ensures Inv(m, Put(s, w, wk))
  {
    hide WorkerOk, PoolOk, Valid, Covered, FloorHolds, Holds, UpperOk, CutoffOk, NodesOk;
    NeutralPool(s, w, wk);
    OneKeeps(m, s, w, wk, s.idle);
    assert Put(s, w, wk).(idle := s.idle) == Put(s, w, wk);
  }

  /** Nodes and bounds outside the workers are untouched. */
  lemma {:induction false} SameGlobals(m: Problem, s: State, s': State)
    requires Valid(m, s) && Covered(m, s) && FloorHolds(m, s) && NodesOk(s, m)
    requires s'.open == s.open && s'.abandoned == s.abandoned && s'.upper == s.upper && s'.floor == s.floor
    requires s'.numerical == s.numerical && s'.nextId == s.nextId
    ensures Valid(m, s') && Covered(m, s') && FloorHolds(m, s') && NodesOk(s', m)
  {
    hide BoundHolds, OpenAt;
  }

  lemma {:induction false} CloseTotal(m: Problem, s: State, w: int, wk: Worker, n: Node)
    requires Inv(m, s) && IsWorker(s, w) && multiset(Holds(s.workers[w])) == multiset(Holds(wk)) + multiset{n}
    ensures n in s.open && Total(s.workers[w := wk]) == multiset(s.open - {n})
  {
    hide WorkerOk, PoolOk, Holds, Valid, Covered, FloorHolds, UpperOk, NodesOk, CutoffOk;
    assert n in multiset(Holds(s.workers[w]));
    HeldIsOpen(m, s, w, n);
    TotalPut(s.workers, w, wk);
    MultisetWithout(s.open, n);
    CloseSum(Total(s.workers[w := wk]), Total(s.workers), multiset(Holds(s.workers[w])), multiset(Holds(wk)), multiset{n},
             multiset(s.open - {n}));
  }

  /** A step of one worker that closes the node `n`, for a reason that covers every feasible point of its box. */
  lemma {:induction false} CloseKeeps(m: Problem, s: State, w: int, wk: Worker, n: Node, b: Ext, upper: Ext, abandon: bool)
    requires Inv(m, s) && IsWorker(s, w) && Neutral(s.workers[w].pc) && Neutral(wk.pc)
    requires WorkerOk(wk) && !wk.pc.Solving? && multiset(Holds(s.workers[w])) == multiset(Holds(wk)) + multiset{n}
    requires UpperOk(m, upper) && Le(upper, s.upper)
    requires ClosedFor(m, n, b, upper, abandon)
    ensures Inv(m, Put(Closed(s, n, b, upper, abandon), w, wk))
  {
    hide WorkerOk, PoolOk, Holds, Valid, Covered, FloorHolds, UpperOk, ClosedFor, NodesOk, Total, CutoffOk;
    var c := Closed(s, n, b, upper, abandon);
    LowerCutoffs(m, s, upper);
    NotSolving(m, upper);
    CloseTotal(m, s, w, wk, n);
    assert c.workers == s.workers && c.idle == s.idle && c.open == s.open - {n} && c.upper == upper;
    ClosedGlobals(m, s, n, b, upper, abandon);
    hide Closed;
    PoolOfWorkers(s, c);
    NeutralPool(c, w, wk);
    SameGlobals(m, c, Put(c, w, wk));
  }

  lemma {:induction false} LowerCutoffs(m: Problem, s: State, upper: Ext)
    requires forall w | 0 <= w < |s.workers| :: CutoffOk(m, s.upper, s.workers[w].pc)
    requires Le(upper, s.upper)
    ensures forall w | 0 <= w < |s.workers| :: CutoffOk(m, upper, s.workers[w].pc)
  {
    hide UpperOk;
    forall w | 0 <= w < |s.workers|
      ensures CutoffOk(m, upper, s.workers[w].pc)
    {
      assert CutoffOk(m, s.upper, s.workers[w].pc);
      if s.workers[w].pc.Solving? { LeTransitive(upper, s.upper, s.workers[w].pc.cutoff); }
    }
  }

  lemma {:induction false} PoolOfWorkers(s: State, c: State)
    requires PoolOk(s) && c.workers == s.workers && c.idle == s.idle
    ensures PoolOk(c)
  {
    forall u | 0 <= u < |c.workers| ensures LaunchOk(c, u) { assert LaunchOk(s, u); }
  }

  /** Node `n` closed at `b`, with the new upper bound; `abandon` when the LP ran into numerical trouble. */
  function Closed(s: State, n: Node, b: Ext, upper: Ext, abandon: bool): State {
    var c := CloseNode(s, n, b).(upper := upper);
    if abandon then c.(numerical := Min(s.numerical, n.bound), abandoned := s.abandoned + {n}) else c
  }

  /** Why closing `n` loses nothing: its feasible points are no better than `b`, and than the new upper bound unless abandoned. */
  ghost predicate ClosedFor(m: Problem, n: Node, b: Ext, upper: Ext, abandon: bool) {
    forall x: seq<real> | m.feasible(x) && Contains(n.box, x) ::
      Le(b, Fin(m.objective(x))) && (abandon || Le(upper, Fin(m.objective(x))))
  }

  lemma {:induction false} ClosedGlobals(m: Problem, s: State, n: Node, b: Ext, upper: Ext, abandon: bool)
    requires Valid(m, s) && Covered(m, s) && FloorHolds(m, s) && NodesOk(s, m)
    requires n in s.open && Le(upper, s.upper) && ClosedFor(m, n, b, upper, abandon)
    ensures var c := Closed(s, n, b, upper, abandon); Valid(m, c) && Covered(m, c) && FloorHolds(m, c) && NodesOk(c, m)
  {
    hide BoundHolds, Contains;
    var c := Closed(s, n, b, upper, abandon);
    MinSides(s.floor, b);
    MinSides(s.numerical, n.bound);
    forall x: seq<real> | m.feasible(x)
      ensures OpenAt(c.open, x) || OpenAt(c.abandoned, x) || Le(c.upper, Fin(m.objective(x)))
      ensures OpenAt(c.open, x) || Le(c.floor, Fin(m.objective(x)))
    {
      StillOpen(s.open, n, x);
      if OpenAt(s.abandoned, x) { MoreOpen(s.abandoned, c.abandoned, x); }
      if Contains(n.box, x) && abandon { assert n in c.abandoned; }
    }
    forall k | k in c.abandoned ensures Le(c.numerical, k.bound) {
      if k != n || !abandon { assert k in s.abandoned; }
    }
  }

  lemma {:induction false} StillOpen(open: set<Node>, n: Node, x: seq<real>)
    ensures OpenAt(open, x) ==> OpenAt(open - {n}, x) || Contains(n.box, x)
  {
    if OpenAt(open, x) {
      var k :| k in open && Contains(k.box, x);
      assert k == n || k in open - {n};
    }
  }

  lemma {:induction false} MoreOpen(a: set<Node>, b: set<Node>, x: seq<real>)
    requires a <= b && OpenAt(a, x)
    ensures OpenAt(b, x)
  {
    var k :| k in a && Contains(k.box, x);
    assert k in b;
  }

  /** A step of one worker that replaces `n` by two children. */
  lemma {:induction false} BranchKeeps(m: Problem, s: State, w: int, wk: Worker, n: Node, d: Node, u: Node)
    requires Inv(m, s) && IsWorker(s, w) && Neutral(s.workers[w].pc) && Neutral(wk.pc)
    requires WorkerOk(wk) && !wk.pc.Solving? && multiset(Holds(s.workers[w])) + multiset{d, u} == multiset(Holds(wk)) + multiset{n}
    requires n in Holds(s.workers[w])
    requires d.id == s.nextId && u.id == s.nextId + 1 && Le(n.bound, d.bound) && Le(n.bound, u.bound)
    requires BoundHolds(m, d) && BoundHolds(m, u) && ChildrenCover(m, n, d, u)
    ensures Inv(m, Put(BranchedState(s, n, d, u), w, wk))
  {
    hide WorkerOk, PoolOk, Holds, Valid, Covered, FloorHolds, UpperOk, BoundHolds, NodesOk, ChildrenCover;
    var c := BranchedState(s, n, d, u);
    HeldIsOpen(m, s, w, n);
    TotalPut(s.workers, w, wk);
    FreshNodes(m, s, n, d, u);
    BranchSum(Total(s.workers[w := wk]), Total(s.workers), multiset(Holds(s.workers[w])), multiset(Holds(wk)), multiset{n},
              multiset{d, u}, multiset(c.open));
    PoolOfWorkers(s, c);
    NeutralPool(c, w, wk);
    BranchGlobals(m, s, n, d, u);
    SameGlobals(m, c, Put(c, w, wk));
  }

  function BranchedState(s: State, n: Node, d: Node, u: Node): State {
    s.(open := s.open - {n} + {d, u}, nextId := s.nextId + 2)
  }

  ghost predicate ChildrenCover(m: Problem, n: Node, d: Node, u: Node) {
    forall x: seq<real> | m.feasible(x) && Contains(n.box, x) :: Contains(d.box, x) || Contains(u.box, x)
  }

  lemma {:induction false} FreshNodes(m: Problem, s: State, n: Node, d: Node, u: Node)
    requires NodesOk(s, m) && n in s.open && d.id == s.nextId && u.id == s.nextId + 1
    ensures multiset(s.open - {n} + {d, u}) + multiset{n} == multiset(s.open) + multiset{d, u}
    ensures d !in s.open && u !in s.open && d != u
  {
    MultisetWithout(s.open, n);
    assert d !in s.open && u !in s.open && d != u;
    var rest := s.open - {n};
    assert multiset(rest + {d, u}) == multiset(rest) + multiset{d, u};
  }

  lemma {:induction false} BranchGlobals(m: Problem, s: State, n: Node, d: Node, u: Node)
    requires Valid(m, s) && Covered(m, s) && FloorHolds(m, s) && NodesOk(s, m) && n in s.open
    requires d.id == s.nextId && u.id == s.nextId + 1 && Le(n.bound, d.bound) && Le(n.bound, u.bound)
    requires BoundHolds(m, d) && BoundHolds(m, u) && ChildrenCover(m, n, d, u)
    ensures var c := BranchedState(s, n, d, u); Valid(m, c) && Covered(m, c) && FloorHolds(m, c) && NodesOk(c, m)
  {
    hide BoundHolds, Contains;
    var c := BranchedState(s, n, d, u);
    forall x: seq<real> | m.feasible(x)
      ensures OpenAt(s.open, x) ==> OpenAt(c.open, x)
    {
      StillOpen(s.open, n, x);
      if OpenAt(s.open - {n}, x) { MoreOpen(s.open - {n}, c.open, x); }
      if Contains(n.box, x) { assert Contains(d.box, x) || Contains(u.box, x); }
      assert d in c.open && u in c.open;
    }
    LeTransitive(m.rootBound, n.bound, d.bound);
    LeTransitive(m.rootBound, n.bound, u.bound);
  }

  /** A step that changes two workers and keeps their nodes together. */
  lemma {:induction false} PairKeeps(m: Problem, s: State, s': State, w: int, v: int, wk: Worker, vk: Worker)
    requires Inv(m, s) && IsWorker(s, w) && IsWorker(s, v) && w != v
    requires s' == s.(workers := s.workers[v := vk][w := wk], idle := s'.idle) && PoolOk(s')
    requires WorkerOk(wk) && WorkerOk(vk) && CutoffOk(m, s.upper, wk.pc) && CutoffOk(m, s.upper, vk.pc)
    requires multiset(Holds(wk)) + multiset(Holds(vk)) == multiset(Holds(s.workers[w])) + multiset(Holds(s.workers[v]))
    ensures Inv(m, s')
  {
    hide WorkerOk, PoolOk, Holds, Valid, Covered, FloorHolds, UpperOk, NodesOk, CutoffOk;
    TotalPut(s.workers, v, vk);
    TotalPut(s.workers[v := vk], w, wk);
    PairSum(Total(s'.workers), Total(s.workers[v := vk]), Total(s.workers), multiset(Holds(s.workers[v])), multiset(Holds(vk)),
            multiset(Holds(s.workers[w])), multiset(Holds(wk)));
    SameGlobals(m, s, s');
  }

  // ---------------------------------------------------------------- small facts about bounds

  lemma {:induction false} MinBoundBelow(nodes: seq<Node>)
    ensures AllAbove(nodes, MinBound(nodes))
  {
    if nodes != [] {
      MinBoundBelow(nodes[1..]);
      MinSides(nodes[0].bound, MinBound(nodes[1..]));
      forall n | n in nodes
        ensures Le(MinBound(nodes), n.bound)
      {
        if n != nodes[0] { assert n in nodes[1..]; LeTransitive(MinBound(nodes), MinBound(nodes[1..]), n.bound); }
      }
    }
  }

  lemma {:induction false} WithoutNodes(s: seq<Node>, k: int)
    requires 0 <= k < |s|
    ensures multiset(Without(s, k)) + multiset{s[k]} == multiset(s)
    ensures forall n | n in Without(s, k) :: n in s
  {
    assert s == s[..k] + ([s[k]] + s[k + 1..]);
  }

  // ---------------------------------------------------------------- the steps, one by one

  lemma {:induction false} WorkerAt(m: Problem, s: State, w: int)
    requires Inv(m, s) && IsWorker(s, w)
    ensures WorkerOk(s.workers[w]) && CutoffOk(m, s.upper, s.workers[w].pc)
  {
  }

  lemma {:induction false} OpenFacts(m: Problem, s: State, n: Node)
    requires Inv(m, s) && n in s.open
    ensures BoundHolds(m, n) && UpperOk(m, s.upper)
  {
  }

  /** A node above the upper bound may be closed at its own bound. */
  lemma {:induction false} FathomReason(m: Problem, n: Node, b: Ext, upper: Ext)
    requires Le(upper, b) && forall x: seq<real> | m.feasible(x) && Contains(n.box, x) :: Le(b, Fin(m.objective(x)))
    ensures ClosedFor(m, n, b, upper, false)
  {
    forall x: seq<real> | m.feasible(x) && Contains(n.box, x)
      ensures Le(upper, Fin(m.objective(x)))
    {
      LeTransitive(upper, b, Fin(m.objective(x)));
    }
  }

  lemma {:induction false} AnnounceKeeps(m: Problem, s: State, w: int)
    requires Inv(m, s) && Enabled(m, s, Announce(w))
    ensures Inv(m, Next(m, s, Announce(w)))
  {
    hide Inv, CutoffOk, UpperOk, PoolOk;
    var wk := s.workers[w];
    WorkerAt(m, s, w);
    NotSolving(m, s.upper);
    MinBoundBelow(wk.queue);
    LocalKeeps(m, s, w, wk.(pc := Popping, lb := MinBound(wk.queue)));
  }

  lemma {:induction false} PopBestKeeps(m: Problem, s: State, w: int, k: int)
    requires Inv(m, s) && Enabled(m, s, PopBest(w, k))
    ensures Inv(m, Next(m, s, PopBest(w, k)))
  {
    hide Inv, CutoffOk, UpperOk, PoolOk;
    var wk := s.workers[w];
    WorkerAt(m, s, w);
    NotSolving(m, s.upper);
    if wk.queue == [] {
      LocalKeeps(m, s, w, wk.(pc := Ready));
    } else {
      WithoutNodes(wk.queue, k);
      PopHolds(wk, k);
      LocalKeeps(m, s, w, wk.(pc := Popped(wk.queue[k]), queue := Without(wk.queue, k)));
    }
  }

  lemma {:induction false} PopHolds(wk: Worker, k: int)
    requires wk.pc.Popping? && 0 <= k < |wk.queue|
    ensures multiset(Holds(wk.(pc := Popped(wk.queue[k]), queue := Without(wk.queue, k)))) == multiset(Holds(wk))
  {
    WithoutNodes(wk.queue, k);
    assert Holds(wk) == wk.queue;
    assert Holds(wk.(pc := Popped(wk.queue[k]), queue := Without(wk.queue, k))) == Without(wk.queue, k) + [wk.queue[k]];
  }

  lemma {:induction false} SetStartKeeps(m: Problem, s: State, w: int)
    requires Inv(m, s) && Enabled(m, s, SetStart(w))
    ensures Inv(m, Next(m, s, SetStart(w)))
  {
    hide Inv, CutoffOk, UpperOk, PoolOk;
    var wk := s.workers[w];
    WorkerAt(m, s, w);
    NotSolving(m, s.upper);
    LeReflexive(wk.pc.start.bound);
    LocalKeeps(m, s, w, wk.(pc := Checking(wk.pc.start), lb := wk.pc.start.bound));
  }

  lemma {:induction false} NotSolving(m: Problem, upper: Ext)
    ensures forall pc: Pc | !pc.Solving? :: CutoffOk(m, upper, pc)
  {
  }

  lemma {:induction false} CheckStartKeeps(m: Problem, s: State, w: int)
    requires Inv(m, s) && Enabled(m, s, CheckStart(w))
    ensures Inv(m, Next(m, s, CheckStart(w)))
  {
    hide Inv, CutoffOk, UpperOk, ClosedFor;
    var wk := s.workers[w];
    var n := wk.pc.start;
    WorkerAt(m, s, w);
    NotSolving(m, s.upper);
    if Lt(s.upper, n.bound) {
      HeldIsOpen(m, s, w, n);
      OpenFacts(m, s, n);
      LtLe(s.upper, n.bound);
      FathomReason(m, n, n.bound, s.upper);
      LeReflexive(s.upper);
      CloseKeeps(m, s, w, wk.(pc := Ready), n, n.bound, s.upper, false);
    } else {
      LocalKeeps(m, s, w, wk.(pc := Plunge([n])));
    }
  }

  lemma {:induction false} TakeKeeps(m: Problem, s: State, w: int)
    requires Inv(m, s) && Enabled(m, s, Take(w))
    ensures Inv(m, Next(m, s, Take(w)))
  {
    hide Inv, CutoffOk, UpperOk, PoolOk;
    var wk := s.workers[w];
    WorkerAt(m, s, w);
    NotSolving(m, s.upper);
    var stack := wk.pc.stack;
    assert [stack[0]] + stack[1..] == stack;
    LocalKeeps(m, s, w, wk.(pc := InHand(stack[0], stack[1..])));
  }

  lemma {:induction false} SetHandKeeps(m: Problem, s: State, w: int)
    requires Inv(m, s) && Enabled(m, s, SetHand(w))
    ensures Inv(m, Next(m, s, SetHand(w)))
  {
    hide Inv, CutoffOk, UpperOk, PoolOk;
    var wk := s.workers[w];
    WorkerAt(m, s, w);
    NotSolving(m, s.upper);
    SiblingBound(wk.pc.node, wk.pc.rest);
    LocalKeeps(m, s, w, wk.(pc := Bounded(wk.pc.node, wk.pc.rest), lb := wk.pc.node.bound));
  }

  lemma {:induction false} LimitKeeps(m: Problem, s: State, w: int)
    requires Inv(m, s) && Enabled(m, s, Limit(w))
    ensures Inv(m, Next(m, s, Limit(w)))
  {
    hide Inv, CutoffOk, UpperOk, PoolOk;
    var wk := s.workers[w];
    WorkerAt(m, s, w);
    NotSolving(m, s.upper);
    LocalKeeps(m, s, w, wk.(pc := Flush([wk.pc.node] + wk.pc.rest)));
  }

  lemma {:induction false} StopKeeps(m: Problem, s: State, w: int)
    requires Inv(m, s) && Enabled(m, s, Stop(w))
    ensures Inv(m, Next(m, s, Stop(w)))
  {
    hide Inv, CutoffOk, UpperOk, PoolOk;
    var wk := s.workers[w];
    WorkerAt(m, s, w);
    NotSolving(m, s.upper);
    LocalKeeps(m, s, w, wk.(pc := Flush(wk.pc.stack)));
  }

  lemma {:induction false} FlushOneKeeps(m: Problem, s: State, w: int)
    requires Inv(m, s) && Enabled(m, s, FlushOne(w))
    ensures Inv(m, Next(m, s, FlushOne(w)))
  {
    hide Inv, CutoffOk, UpperOk, PoolOk;
    var wk := s.workers[w];
    WorkerAt(m, s, w);
    NotSolving(m, s.upper);
    var stack := wk.pc.stack;
    assert stack == [stack[0]] + stack[1..];
    assert wk.queue + stack == (wk.queue + [stack[0]]) + stack[1..];
    LocalKeeps(m, s, w, wk.(pc := Flush(stack[1..]), queue := wk.queue + [stack[0]]));
  }

  lemma {:induction false} EndPlungeKeeps(m: Problem, s: State, w: int)
    requires Inv(m, s) && Enabled(m, s, EndPlunge(w))
    ensures Inv(m, Next(m, s, EndPlunge(w)))
  {
    hide Inv, CutoffOk, UpperOk, PoolOk;
    var wk := s.workers[w];
    WorkerAt(m, s, w);
    NotSolving(m, s.upper);
    QueueOnly(wk);
    QueueOnly(wk.(pc := AfterPlunge, lb := PosInf));
    hide Holds, Enabled;
    LocalKeeps(m, s, w, wk.(pc := AfterPlunge, lb := PosInf));
  }

  lemma {:induction false} ContinueKeeps(m: Problem, s: State, w: int)
    requires Inv(m, s) && Enabled(m, s, Continue(w))
    ensures Inv(m, Next(m, s, Continue(w)))
  {
    hide Inv, CutoffOk, UpperOk, PoolOk;
    var wk := s.workers[w];
    WorkerAt(m, s, w);
    NotSolving(m, s.upper);
    QueueOnly(wk);
    QueueOnly(wk.(pc := Ready));
    hide Holds, Enabled;
    LocalKeeps(m, s, w, wk.(pc := Ready));
  }

  lemma {:induction false} SiblingBound(n: Node, rest: seq<Node>)
    requires Siblings([n] + rest)
    ensures AllAbove([n] + rest, n.bound)
  {
    forall k | k in [n] + rest
      ensures Le(n.bound, k.bound)
    {
      var i :| 0 <= i < |[n] + rest| && ([n] + rest)[i] == k;
      assert ([n] + rest)[0] == n;
    }
  }

  lemma {:induction false} EvictedWorker(wk: Worker)
    requires WorkerOk(wk) && wk.pc.Branched?
    ensures WorkerOk(wk.(pc := Placing(wk.pc.first, wk.pc.second), queue := wk.queue + wk.pc.rest))
  {
    var two := [wk.pc.first, wk.pc.second];
    assert Held(wk.pc) == two + wk.pc.rest;
  }

  lemma {:induction false} EvictKeeps(m: Problem, s: State, w: int)
    requires Inv(m, s) && Enabled(m, s, Evict(w))
    ensures Inv(m, Next(m, s, Evict(w)))
  {
    hide Inv, CutoffOk, UpperOk, PoolOk, Holds, WorkerOk;
    var wk := s.workers[w];
    WorkerAt(m, s, w);
    NotSolving(m, s.upper);
    EvictedWorker(wk);
    EvictHolds(wk);
    assert wk.pc.rest == [] ==> wk.queue + wk.pc.rest == wk.queue;
    LocalKeeps(m, s, w, wk.(pc := Placing(wk.pc.first, wk.pc.second), queue := wk.queue + wk.pc.rest));
  }

  lemma {:induction false} EvictHolds(wk: Worker)
    requires wk.pc.Branched?
    ensures multiset(Holds(wk.(pc := Placing(wk.pc.first, wk.pc.second), queue := wk.queue + wk.pc.rest))) == multiset(Holds(wk))
  {
    var two, rest := [wk.pc.first, wk.pc.second], wk.pc.rest;
    HoldsIs(wk, wk.queue, two + rest);
    HoldsIs(wk.(pc := Placing(wk.pc.first, wk.pc.second), queue := wk.queue + rest), wk.queue + rest, two);
    hide Holds, Held;
    SwapTail(wk.queue, two, rest);
  }

  lemma {:induction false} PlacedWorker(wk: Worker)
    requires WorkerOk(wk) && wk.pc.Placing?
    ensures WorkerOk(wk.(pc := Plunge([wk.pc.first]), queue := wk.queue + [wk.pc.second]))
    ensures WorkerOk(wk.(pc := Plunge([wk.pc.first, wk.pc.second])))
    ensures Holds(wk.(pc := Plunge([wk.pc.first, wk.pc.second]))) == Holds(wk)
  {
    assert Held(wk.pc) == [wk.pc.first, wk.pc.second];
    assert wk.pc.first in Held(wk.pc);
  }

  lemma {:induction false} PlaceKeeps(m: Problem, s: State, w: int)
    requires Inv(m, s) && Enabled(m, s, Place(w))
    ensures Inv(m, Next(m, s, Place(w)))
  {
    hide Inv, CutoffOk, UpperOk, PoolOk, Holds, WorkerOk;
    var wk := s.workers[w];
    WorkerAt(m, s, w);
    NotSolving(m, s.upper);
    PlacedWorker(wk);
    if |wk.queue| < m.minQueue {
      PlaceHolds(wk);
      LocalKeeps(m, s, w, wk.(pc := Plunge([wk.pc.first]), queue := wk.queue + [wk.pc.second]));
    } else {
      LocalKeeps(m, s, w, wk.(pc := Plunge([wk.pc.first, wk.pc.second])));
    }
  }

  lemma {:induction false} PlaceHolds(wk: Worker)
    requires wk.pc.Placing?
    ensures multiset(Holds(wk.(pc := Plunge([wk.pc.first]), queue := wk.queue + [wk.pc.second]))) == multiset(Holds(wk))
  {
    var a, b := [wk.pc.first], [wk.pc.second];
    assert [wk.pc.first, wk.pc.second] == a + b;
    HoldsIs(wk, wk.queue, a + b);
    HoldsIs(wk.(pc := Plunge(a), queue := wk.queue + b), wk.queue + b, a);
    hide Holds, Held;
    SwapTail(wk.queue, a, b);
  }

  lemma {:induction false} TailOk(n: Node, rest: seq<Node>, lb: Ext)
    requires Siblings([n] + rest) && AllAbove([n] + rest, lb)
    ensures Siblings(rest) && AllAbove(rest, lb) && |rest| <= 1
  {
    forall i | 0 <= i < |rest| ensures rest[i] == ([n] + rest)[i + 1] {}
  }

  lemma {:induction false} CheckedWorker(wk: Worker, cutoff: Ext)
    requires WorkerOk(wk) && wk.pc.Bounded?
    ensures WorkerOk(wk.(pc := Plunge(wk.pc.rest))) && WorkerOk(wk.(pc := Solving(wk.pc.node, wk.pc.rest, cutoff)))
    ensures multiset(Holds(wk)) == multiset(Holds(wk.(pc := Plunge(wk.pc.rest)))) + multiset{wk.pc.node}
    ensures Holds(wk.(pc := Solving(wk.pc.node, wk.pc.rest, cutoff))) == Holds(wk) && wk.pc.node in Holds(wk)
  {
    TailOk(wk.pc.node, wk.pc.rest, wk.lb);
  }

  lemma {:induction false} CheckHandKeeps(m: Problem, s: State, w: int)
    requires Inv(m, s) && Enabled(m, s, CheckHand(w))
    ensures Inv(m, Next(m, s, CheckHand(w)))
  {
    hide Inv, UpperOk, ClosedFor, WorkerOk, Holds, BoundHolds;
    var wk := s.workers[w];
    var n := wk.pc.node;
    WorkerAt(m, s, w);
    CheckedWorker(wk, s.upper);
    HeldIsOpen(m, s, w, n);
    OpenFacts(m, s, n);
    LeReflexive(s.upper);
    if Lt(s.upper, n.bound) {
      BoundReason(m, n, s.upper);
      CloseKeeps(m, s, w, wk.(pc := Plunge(wk.pc.rest)), n, n.bound, s.upper, false);
    } else {
      LocalKeeps(m, s, w, wk.(pc := Solving(n, wk.pc.rest, s.upper)));
    }
  }

  lemma {:induction false} BoundReason(m: Problem, n: Node, upper: Ext)
    requires BoundHolds(m, n) && Lt(upper, n.bound)
    ensures ClosedFor(m, n, n.bound, upper, false)
  {
    LtLe(upper, n.bound);
    FathomReason(m, n, n.bound, upper);
  }

  // ---------------------------------------------------------------- the answer of the LP solver

  /** The stored bound of a solved node is below every feasible point of its box. */
  lemma {:induction false} SnappedHolds(m: Problem, n: Node, value: real)
    requires ProblemOk(m) && Relaxes(m, n, value)
    ensures forall x: seq<real> | m.feasible(x) && Contains(n.box, x) :: Le(SnappedBound(m, value), Fin(m.objective(x)))
  {
    hide Snap, Contains;
    forall x: seq<real> | m.feasible(x) && Contains(n.box, x)
      ensures Le(SnappedBound(m, value), Fin(m.objective(x)))
    {
      SnapSafe(m.lattice, m.tol, value, m.objective(x));
    }
  }

  lemma {:induction false} CutoffReason(m: Problem, n: Node, upper: Ext, cutoff: Ext, relaxation: real)
    requires ProblemOk(m) && LpOk(m, n, cutoff, AboveCutoff(relaxation)) && UpperOk(m, cutoff) && Le(upper, cutoff)
    ensures ClosedFor(m, n, upper, upper, false)
  {
    hide Lattice.Cutoff, Contains;
    forall x: seq<real> | m.feasible(x) && Contains(n.box, x)
      ensures Le(upper, Fin(m.objective(x)))
    {
      CutoffSafe(m.lattice, m.tol, m.dualTol, cutoff.v, relaxation, m.objective(x));
      LeTransitive(upper, cutoff, Fin(m.objective(x)));
    }
  }

  lemma {:induction false} FloorBelow(at: real)
    ensures at.Floor as real <= at <= Ceiling(at) as real
  {
  }

  /** The two children of a solved node: bounds that hold, and together all its feasible points. */
  lemma {:induction false} ChildrenOk(m: Problem, n: Node, upper: Ext, r: Lp, id: nat)
    requires ProblemOk(m) && r.Fractional? && LpOk(m, n, upper, r)
    ensures BoundHolds(m, DownChild(m, n, r, id)) && BoundHolds(m, UpChild(m, n, r, id + 1))
    ensures ChildrenCover(m, n, DownChild(m, n, r, id), UpChild(m, n, r, id + 1))
  {
    hide Snap, SnappedBound, Narrowed, Contains, Ceiling;
    var d, u, v := DownChild(m, n, r, id), UpChild(m, n, r, id + 1), r.variable;
    SnappedHolds(m, n, r.value);
    FloorBelow(r.at);
    forall x: seq<real> | m.feasible(x)
      ensures Contains(d.box, x) || Contains(u.box, x) <==> Contains(n.box, x)
    {
      ChildrenSides(n, r, d, u, x, m);
    }
  }

  lemma {:induction false} ChildrenSides(n: Node, r: Lp, d: Node, u: Node, x: seq<real>, m: Problem)
    requires r.Fractional? && m.feasible(x) && LpOk(m, n, PosInf, r)
    requires d == DownChild(m, n, r, d.id) && u == UpChild(m, n, r, u.id)
    ensures Contains(d.box, x) || Contains(u.box, x) <==> Contains(n.box, x)
  {
    hide Snap, SnappedBound, Narrowed, Relaxes;
    var v := r.variable;
    FloorBelow(r.at);
    DownBox(n.box, v, r.lower, r.upper, r.at, x);
    if Contains(n.box, x) { IntegerSides(x[v], r.at); }
  }

  lemma {:induction false} DownBox(box: Box, v: int, lower: Ext, upper: Ext, at: real, x: seq<real>)
    requires 0 <= v < |box.lower| == |box.upper| && Le(box.lower[v], lower) && Le(upper, box.upper[v])
    requires Le(lower, Fin(at)) && Le(Fin(at), upper)
    ensures Contains(Narrowed(box, v, lower, Fin(at.Floor as real)), x) ==> Contains(box, x)
    ensures Contains(Narrowed(box, v, Fin(Ceiling(at) as real), upper), x) ==> Contains(box, x)
    ensures Contains(box, x) && Le(lower, Fin(x[v])) && x[v] <= at.Floor as real ==>
              Contains(Narrowed(box, v, lower, Fin(at.Floor as real)), x)
    ensures Contains(box, x) && Le(Fin(x[v]), upper) && x[v] >= Ceiling(at) as real ==>
              Contains(Narrowed(box, v, Fin(Ceiling(at) as real), upper), x)
  {
    FloorBelow(at);
    var d, u := Narrowed(box, v, lower, Fin(at.Floor as real)), Narrowed(box, v, Fin(Ceiling(at) as real), upper);
    if |x| == |box.lower| {
      if Contains(d, x) || Contains(u, x) {
        forall w | 0 <= w < |x| ensures Le(box.lower[w], Fin(x[w])) && Le(Fin(x[w]), box.upper[w]) {
          if Contains(d, x) {
            assert Le(d.lower[w], Fin(x[w])) && Le(Fin(x[w]), d.upper[w]);
          } else {
            assert Le(u.lower[w], Fin(x[w])) && Le(Fin(x[w]), u.upper[w]);
          }
        }
      }
    }
  }

  lemma {:induction false} SolvedCloses(m: Problem, s: State, w: int, b: Ext, upper: Ext, abandon: bool)
    requires Inv(m, s) && IsWorker(s, w) && s.workers[w].pc.Solving?
    requires UpperOk(m, upper) && Le(upper, s.upper) && ClosedFor(m, s.workers[w].pc.node, b, upper, abandon)
    ensures var wk := s.workers[w];
            Inv(m, Put(Closed(s, wk.pc.node, b, upper, abandon), w, wk.(pc := Plunge(wk.pc.rest))))
  {
    hide Inv, UpperOk, ClosedFor, Closed;
    var wk := s.workers[w];
    WorkerAt(m, s, w);
    TailOk(wk.pc.node, wk.pc.rest, wk.lb);
    CloseKeeps(m, s, w, wk.(pc := Plunge(wk.pc.rest)), wk.pc.node, b, upper, abandon);
  }

  lemma {:induction false} SolvedKeeps(m: Problem, s: State, w: int, r: Lp)
    requires ProblemOk(m) && Inv(m, s) && Enabled(m, s, Solved(w, r))
    ensures Inv(m, Next(m, s, Solved(w, r)))
  {
    hide Inv, UpperOk, ClosedFor, WorkerOk, LpOk, SnappedBound, ProblemOk, CutoffOk;
    var wk := s.workers[w];
    var n := wk.pc.node;
    WorkerAt(m, s, w);
    SolvingFacts(m, s, w);
    LeReflexive(s.upper);
    match r
    case Unbounded =>
      UnboundedReason(m, n, s.upper, wk.pc.cutoff);
      SolvedCloses(m, s, w, PosInf, s.upper, false);
    case AboveCutoff(relaxation) =>
      CutoffReason(m, n, s.upper, wk.pc.cutoff, relaxation);
      SolvedCloses(m, s, w, s.upper, s.upper, false);
    case Integral(value, point) =>
      IntegralReason(m, n, s.upper, wk.pc.cutoff, value, point);
      SolvedCloses(m, s, w, SnappedBound(m, value), Min(s.upper, Fin(value)), false);
    case Fractional(_, _, _, _, _, _) => FractionalKeeps(m, s, w, r);
    case NumericalTrouble =>
      NumericalReason(m, n, s.upper);
      SolvedCloses(m, s, w, n.bound, s.upper, true);
    case Interrupted => InterruptedKeeps(m, s, w);
  }

  lemma {:induction false} SolvingFacts(m: Problem, s: State, w: int)
    requires Inv(m, s) && IsWorker(s, w) && s.workers[w].pc.Solving?
    ensures var n := s.workers[w].pc.node;
            n in s.open && BoundHolds(m, n) && UpperOk(m, s.upper)
            && UpperOk(m, s.workers[w].pc.cutoff) && Le(s.upper, s.workers[w].pc.cutoff)
  {
    hide UpperOk, BoundHolds, Inv;
    WorkerAt(m, s, w);
    assert s.workers[w].pc.node in Holds(s.workers[w]);
    HeldIsOpen(m, s, w, s.workers[w].pc.node);
    OpenFacts(m, s, s.workers[w].pc.node);
  }

  lemma {:induction false} UnboundedReason(m: Problem, n: Node, upper: Ext, cutoff: Ext)
    requires LpOk(m, n, cutoff, Unbounded)
    ensures ClosedFor(m, n, PosInf, upper, false)
  {
  }

  lemma {:induction false} NumericalReason(m: Problem, n: Node, upper: Ext)
    requires BoundHolds(m, n)
    ensures ClosedFor(m, n, n.bound, upper, true)
  {
  }

  lemma {:induction false} IntegralReason(m: Problem, n: Node, upper: Ext, cutoff: Ext, value: real, point: seq<real>)
    requires ProblemOk(m) && LpOk(m, n, cutoff, Lp.Integral(value, point)) && UpperOk(m, upper)
    ensures ClosedFor(m, n, SnappedBound(m, value), Min(upper, Fin(value)), false)
    ensures UpperOk(m, Min(upper, Fin(value))) && Le(Min(upper, Fin(value)), upper)
  {
    hide SnappedBound, Contains;
    SnappedHolds(m, n, value);
    MinSides(upper, Fin(value));
    forall x: seq<real> | m.feasible(x) && Contains(n.box, x)
      ensures Le(Min(upper, Fin(value)), Fin(m.objective(x)))
    {
      LeTransitive(Min(upper, Fin(value)), Fin(value), Fin(m.objective(x)));
    }
  }

  lemma {:induction false} InterruptedKeeps(m: Problem, s: State, w: int)
    requires Inv(m, s) && IsWorker(s, w) && s.workers[w].pc.Solving?
    ensures Inv(m, SolvedState(m, s, w, Interrupted))
  {
    hide Inv, CutoffOk, UpperOk;
    var wk := s.workers[w];
    WorkerAt(m, s, w);
    NotSolving(m, s.upper);
    LocalKeeps(m, s, w, wk.(pc := Flush([wk.pc.node] + wk.pc.rest)));
  }

  lemma {:induction false} FractionalKeeps(m: Problem, s: State, w: int, r: Lp)
    requires ProblemOk(m) && Inv(m, s) && IsWorker(s, w) && s.workers[w].pc.Solving? && r.Fractional?
    requires LpOk(m, s.workers[w].pc.node, s.workers[w].pc.cutoff, r)
    ensures Inv(m, SolvedState(m, s, w, r))
  {
    hide Inv, UpperOk, ClosedFor, SnappedBound, ProblemOk, BoundHolds, CutoffOk, LpOk, Holds;
    var n, b := s.workers[w].pc.node, SnappedBound(m, r.value);
    SolvingFacts(m, s, w);
    FractionalFacts(m, n, s.workers[w].pc.cutoff, r);
    if s.upper.Fin? && Lt(Fin(s.upper.v + m.fathomTol), b) {
      LeReflexive(s.upper);
      FathomTolerance(m, s.upper, b);
      SnappedHolds(m, n, r.value);
      FathomReason(m, n, b, s.upper);
      SolvedCloses(m, s, w, b, s.upper, false);
    } else {
      SolvedBranches(m, s, w, r);
    }
  }

  lemma {:induction false} SolvedBranches(m: Problem, s: State, w: int, r: Lp)
    requires ProblemOk(m) && Inv(m, s) && IsWorker(s, w) && s.workers[w].pc.Solving? && r.Fractional?
    requires LpOk(m, s.workers[w].pc.node, s.workers[w].pc.cutoff, r)
    ensures var wk := s.workers[w];
            var d, u := DownChild(m, wk.pc.node, r, s.nextId), UpChild(m, wk.pc.node, r, s.nextId + 1);
            Inv(m, Goto(BranchedState(s, wk.pc.node, d, u), w,
                        if r.upFirst then Branched(u, d, wk.pc.rest) else Branched(d, u, wk.pc.rest)))
  {
    hide Inv, UpperOk, SnappedBound, ProblemOk, BoundHolds, CutoffOk, ChildrenCover, LpOk, Holds, WorkerOk;
    var wk := s.workers[w];
    var n := wk.pc.node;
    var d, u := DownChild(m, n, r, s.nextId), UpChild(m, n, r, s.nextId + 1);
    FractionalFacts(m, n, wk.pc.cutoff, r);
    ChildrenOk(m, n, wk.pc.cutoff, r, s.nextId);
    if r.upFirst {
      BranchedWorker(m, s, w, u, d);
      assert multiset{d, u} == multiset{u, d};
      BranchKeeps(m, s, w, wk.(pc := Branched(u, d, wk.pc.rest)), n, d, u);
    } else {
      BranchedWorker(m, s, w, d, u);
      BranchKeeps(m, s, w, wk.(pc := Branched(d, u, wk.pc.rest)), n, d, u);
    }
  }

  lemma {:induction false} FathomTolerance(m: Problem, upper: Ext, b: Ext)
    requires ProblemOk(m) && upper.Fin? && Lt(Fin(upper.v + m.fathomTol), b)
    ensures Le(upper, b)
  {
  }

  lemma {:induction false} FractionalFacts(m: Problem, n: Node, cutoff: Ext, r: Lp)
    requires r.Fractional? && LpOk(m, n, cutoff, r)
    ensures Relaxes(m, n, r.value) && Le(n.bound, SnappedBound(m, r.value))
  {
  }

  /** The worker after branching: its bound, that of the parent, is below both children and the sibling. */
  lemma {:induction false} BranchedWorker(m: Problem, s: State, w: int, a: Node, b: Node)
    requires Inv(m, s) && IsWorker(s, w) && s.workers[w].pc.Solving?
    requires a.bound == b.bound && Le(s.workers[w].pc.node.bound, a.bound)
    ensures var wk := s.workers[w];
            var wk' := wk.(pc := Branched(a, b, wk.pc.rest));
            && WorkerOk(wk') && multiset(Holds(wk)) + multiset{a, b} == multiset(Holds(wk')) + multiset{wk.pc.node}
            && wk.pc.node in Holds(wk)
  {
    hide Inv, CutoffOk;
    var wk := s.workers[w];
    WorkerAt(m, s, w);
    TailOk(wk.pc.node, wk.pc.rest, wk.lb);
    var wk' := wk.(pc := Branched(a, b, wk.pc.rest));
    assert Held(wk'.pc) == [a, b] + wk.pc.rest;
    assert Holds(wk) == wk.queue + ([wk.pc.node] + wk.pc.rest);
  }

  // ---------------------------------------------------------------- stealing, finishing, launching

  lemma {:induction false} StealKeeps(m: Problem, s: State, mv: Move)
    requires Inv(m, s) && mv.Steal? && Enabled(m, s, mv)
    ensures Inv(m, Next(m, s, mv))
  {
    var Steal(w, v, count, stolen, left) := mv;
    var wk, vk := s.workers[w], s.workers[v];
    var wk', vk' := wk.(pc := Ready, queue := wk.queue + stolen), vk.(queue := left);
    NothingLeft(vk.queue, stolen, left);
    StealPool(s, mv);
    hide Inv, CutoffOk, UpperOk, PoolOk;
    WorkerAt(m, s, w);
    WorkerAt(m, s, v);
    NotSolving(m, s.upper);
    StealHolds(wk, wk', vk, vk', stolen, left);
    PairKeeps(m, s, Next(m, s, mv), w, v, wk', vk');
  }

  lemma {:induction false} NothingLeft(queue: seq<Node>, stolen: seq<Node>, left: seq<Node>)
    requires multiset(stolen) + multiset(left) == multiset(queue)
    ensures queue == [] ==> left == []
    ensures forall n | n in left :: n in queue
  {
    forall n | n in left ensures n in queue {
      assert n in multiset(left);
      assert n in multiset(queue);
    }
  }

  lemma {:induction false} StealHolds(wk: Worker, wk': Worker, vk: Worker, vk': Worker, stolen: seq<Node>, left: seq<Node>)
    requires wk.pc.AfterPlunge? && wk' == wk.(pc := Ready, queue := wk.queue + stolen) && vk' == vk.(queue := left)
    requires multiset(stolen) + multiset(left) == multiset(vk.queue)
    ensures multiset(Holds(wk')) + multiset(Holds(vk')) == multiset(Holds(wk)) + multiset(Holds(vk))
  {
    assert Holds(wk) == wk.queue && Holds(wk') == wk.queue + stolen;
    var h := Held(vk.pc);
    assert multiset(left + h) == multiset(left) + multiset(h);
    assert multiset(vk.queue + h) == multiset(vk.queue) + multiset(h);
  }

  lemma {:induction false} StealPool(s: State, mv: Move)
    requires PoolOk(s) && mv.Steal? && IsWorker(s, mv.w) && IsWorker(s, mv.victim) && mv.w != mv.victim
    requires s.workers[mv.w].pc.AfterPlunge? && (s.workers[mv.victim].queue == [] ==> mv.left == [])
    ensures var s' := s.(workers := s.workers[mv.victim := s.workers[mv.victim].(queue := mv.left)]
                                             [mv.w := s.workers[mv.w].(pc := Ready, queue := s.workers[mv.w].queue + mv.stolen)]);
            PoolOk(s')
  {
    var s' := s.(workers := s.workers[mv.victim := s.workers[mv.victim].(queue := mv.left)]
                                     [mv.w := s.workers[mv.w].(pc := Ready, queue := s.workers[mv.w].queue + mv.stolen)]);
    forall u | 0 <= u < |s'.workers| ensures LaunchOk(s', u) && (u in s'.idle <==> s'.workers[u].pc.Idle?) { assert LaunchOk(s, u); }
    forall u, t | 0 <= u < |s'.workers| && 0 <= t < |s'.workers| && u != t
      ensures !SameTarget(s'.workers[u].pc, s'.workers[t].pc)
    {
      assert !SameTarget(s.workers[u].pc, s.workers[t].pc);
    }
  }

  lemma {:induction false} FinishKeeps(m: Problem, s: State, w: int)
    requires Inv(m, s) && Enabled(m, s, Finish(w))
    ensures Inv(m, Next(m, s, Finish(w)))
  {
    hide Inv, CutoffOk, UpperOk, PoolOk;
    var wk := s.workers[w];
    WorkerAt(m, s, w);
    NotSolving(m, s.upper);
    QueueOnly(wk);
    var wk' := if wk.queue == [] then wk.(pc := Idle, active := false) else wk.(pc := Stopped);
    QueueOnly(wk');
    FinishEnabled(m, s, w);
    hide Enabled, Holds;
    if wk.queue == [] {
      PoolFrom(m, s);
      ReturnPool(s, w, wk');
      OneKeeps(m, s, w, wk', s.idle + [w]);
    } else {
      LocalKeeps(m, s, w, wk');
    }
  }

  lemma {:induction false} FinishEnabled(m: Problem, s: State, w: int)
    requires Enabled(m, s, Finish(w))
    ensures IsWorker(s, w) && Neutral(s.workers[w].pc)
  {
  }

  lemma {:induction false} PoolFrom(m: Problem, s: State)
    requires Inv(m, s)
    ensures PoolOk(s)
  {
  }

  /** A worker that returns to the pool was not in it, and no launcher waits for it. */
  lemma {:induction false} ReturnPool(s: State, w: int, wk: Worker)
    requires PoolOk(s) && IsWorker(s, w) && Neutral(s.workers[w].pc) && wk.pc.Idle?
    ensures PoolOk(Put(s, w, wk).(idle := s.idle + [w]))
  {
    var s' := Put(s, w, wk).(idle := s.idle + [w]);
    forall u | 0 <= u < |s'.workers| ensures LaunchOk(s', u) && (u in s'.idle <==> s'.workers[u].pc.Idle?) { assert LaunchOk(s, u); }
    forall u, v | 0 <= u < |s'.workers| && 0 <= v < |s'.workers| && u != v
      ensures !SameTarget(s'.workers[u].pc, s'.workers[v].pc)
    {
      assert !SameTarget(s.workers[u].pc, s.workers[v].pc);
    }
  }

  lemma {:induction false} TakenWorkers(wk: Worker, vk: Worker, v: int)
    requires WorkerOk(wk) && WorkerOk(vk) && wk.pc.Plunge? && vk.pc.Idle? && vk.queue == []
    ensures WorkerOk(wk.(pc := Launch(v, Taken, wk.pc.stack))) && WorkerOk(vk.(pc := Reserved))
    ensures Holds(wk.(pc := Launch(v, Taken, wk.pc.stack))) == Holds(wk) && Holds(vk.(pc := Reserved)) == Holds(vk)
  {
  }

  lemma {:induction false} LaunchTakeKeeps(m: Problem, s: State, w: int)
    requires Inv(m, s) && Enabled(m, s, LaunchTake(w))
    ensures Inv(m, Next(m, s, LaunchTake(w)))
  {
    hide Inv, CutoffOk, UpperOk, PoolOk, Holds, WorkerOk, LaunchOk;
    var v := s.idle[0];
    var wk := s.workers[w];
    IdleHoldsNothing(m, s, v);
    var vk := s.workers[v];
    WorkerAt(m, s, w);
    WorkerAt(m, s, v);
    NotSolving(m, s.upper);
    TakenWorkers(wk, vk, v);
    PoolFrom(m, s);
    TakePool(s, w, wk.(pc := Launch(v, Taken, wk.pc.stack)));
    PairKeeps(m, s, Next(m, s, LaunchTake(w)), w, v, wk.(pc := Launch(v, Taken, wk.pc.stack)), vk.(pc := Reserved));
  }

  lemma {:induction false} IdleHoldsNothing(m: Problem, s: State, v: int)
    requires Inv(m, s) && v in s.idle
    ensures IsWorker(s, v) && s.workers[v].pc.Idle? && Holds(s.workers[v]) == [] && s.workers[v].queue == []
  {
    hide Valid, Covered, FloorHolds, NodesOk, UpperOk, CutoffOk;
    WorkerAt(m, s, v);
  }

  lemma {:induction false} TakePool(s: State, w: int, wk': Worker)
    requires PoolOk(s) && IsWorker(s, w) && Neutral(s.workers[w].pc) && s.idle != [] && IsWorker(s, s.idle[0])
    requires s.workers[s.idle[0]].pc.Idle? && s.workers[s.idle[0]].queue == []
    requires wk'.pc.Launch? && wk'.pc.target == s.idle[0] && wk'.pc.stage.Taken? && s.idle[0] != w
    ensures var v := s.idle[0];
            PoolOk(s.(workers := s.workers[v := s.workers[v].(pc := Reserved)][w := wk'], idle := s.idle[1..]))
  {
    var v := s.idle[0];
    var s' := s.(workers := s.workers[v := s.workers[v].(pc := Reserved)][w := wk'], idle := s.idle[1..]);
    TailIds(s.idle);
    forall u | 0 <= u < |s'.workers| ensures LaunchOk(s', u) && (u in s'.idle <==> s'.workers[u].pc.Idle?) {
      assert LaunchOk(s, u);
      assert u in s.idle <==> s.workers[u].pc.Idle?;
      assert v in s.idle <==> s.workers[v].pc.Idle?;
    }
    forall u, t | 0 <= u < |s'.workers| && 0 <= t < |s'.workers| && u != t
      ensures !SameTarget(s'.workers[u].pc, s'.workers[t].pc)
    {
      assert !SameTarget(s.workers[u].pc, s.workers[t].pc) && LaunchOk(s, u) && LaunchOk(s, t);
      if s'.workers[u].pc.Launch? && u != w { assert s.workers[s.workers[u].pc.target].pc.Reserved?; }
      if s'.workers[t].pc.Launch? && t != w { assert s.workers[s.workers[t].pc.target].pc.Reserved?; }
    }
  }

  lemma {:induction false} TailIds(s: seq<int>)
    requires s != [] && DistinctInts(s)
    ensures DistinctInts(s[1..]) && forall w :: w in s[1..] <==> w in s && w != s[0]
  {
    forall w
      ensures w in s[1..] <==> w in s && w != s[0]
    {
      if w in s[1..] {
        var i :| 0 <= i < |s[1..]| && s[1..][i] == w;
        assert s[i + 1] == w;
      }
      if w in s && w != s[0] {
        var i :| 0 <= i < |s| && s[i] == w;
        assert s[1..][i - 1] == w;
      }
    }
  }

  /** A stage of a launch between the launcher and its target keeps the pool in order. */
  lemma {:induction false} StagePool(s: State, w: int, wk: Worker, vk: Worker)
    requires PoolOk(s) && IsWorker(s, w) && s.workers[w].pc.Launch? && LaunchOk(s, w)
    requires wk.pc.Launch? && wk.pc.target == s.workers[w].pc.target && vk.pc.Reserved?
    requires wk.pc.stage.Taken? || wk.pc.stage.Announced? || vk.active
    requires wk.pc.stage == Stolen(true) || wk.pc.stage == Rebound(true) || vk.queue == []
    ensures PoolOk(s.(workers := s.workers[s.workers[w].pc.target := vk][w := wk]))
  {
    var v := s.workers[w].pc.target;
    var s' := s.(workers := s.workers[v := vk][w := wk]);
    forall u | 0 <= u < |s'.workers| ensures LaunchOk(s', u) && (u in s'.idle <==> s'.workers[u].pc.Idle?) {
      assert LaunchOk(s, u);
      if u != w { assert !SameTarget(s.workers[u].pc, s.workers[w].pc); }
    }
    forall u, t | 0 <= u < |s'.workers| && 0 <= t < |s'.workers| && u != t
      ensures !SameTarget(s'.workers[u].pc, s'.workers[t].pc)
    {
      assert !SameTarget(s.workers[u].pc, s.workers[t].pc);
    }
  }

  lemma {:induction false} LaunchFacts(m: Problem, s: State, w: int)
    requires Inv(m, s) && IsWorker(s, w) && s.workers[w].pc.Launch?
    ensures PoolOk(s) && LaunchOk(s, w)
    ensures var v := s.workers[w].pc.target; IsWorker(s, v) && v != w && WorkerOk(s.workers[w]) && WorkerOk(s.workers[v])
  {
    hide Valid, Covered, FloorHolds, NodesOk, UpperOk, CutoffOk, WorkerOk;
    assert LaunchOk(s, w);
  }

  lemma {:induction false} StageKeeps(m: Problem, s: State, w: int, wk: Worker, vk: Worker)
    requires Inv(m, s) && IsWorker(s, w) && s.workers[w].pc.Launch?
    requires wk.pc.Launch? && wk.pc.target == s.workers[w].pc.target && vk.pc.Reserved? && IsWorker(s, wk.pc.target)
    requires wk.pc.stage.Taken? || wk.pc.stage.Announced? || vk.active
    requires wk.pc.stage == Stolen(true) || wk.pc.stage == Rebound(true) || vk.queue == []
    requires WorkerOk(wk) && WorkerOk(vk)
    requires multiset(Holds(wk)) + multiset(Holds(vk)) == multiset(Holds(s.workers[w])) + multiset(Holds(s.workers[wk.pc.target]))
    ensures Inv(m, s.(workers := s.workers[wk.pc.target := vk][w := wk]))
  {
    hide Inv, CutoffOk, UpperOk, PoolOk, WorkerOk, Holds;
    LaunchFacts(m, s, w);
    NotSolving(m, s.upper);
    StagePool(s, w, wk, vk);
    PairKeeps(m, s, s.(workers := s.workers[wk.pc.target := vk][w := wk]), w, wk.pc.target, wk, vk);
  }

  lemma {:induction false} LaunchAnnounceKeeps(m: Problem, s: State, w: int)
    requires Inv(m, s) && Enabled(m, s, LaunchAnnounce(w))
    ensures Inv(m, Next(m, s, LaunchAnnounce(w)))
  {
    hide Inv, PoolOk;
    var wk := s.workers[w];
    LaunchFacts(m, s, w);
    var vk := s.workers[wk.pc.target];
    var wk', vk' := wk.(pc := wk.pc.(stage := Announced)), vk.(lb := MinBound(wk.queue));
    assert Holds(wk') == Holds(wk) && Holds(vk') == Holds(vk);
    assert WorkerOk(wk') && WorkerOk(vk');
    hide Holds, WorkerOk;
    StageKeeps(m, s, w, wk', vk');
  }

  lemma {:induction false} LaunchActivateKeeps(m: Problem, s: State, w: int)
    requires Inv(m, s) && Enabled(m, s, LaunchActivate(w))
    ensures Inv(m, Next(m, s, LaunchActivate(w)))
  {
    hide Inv, PoolOk;
    var wk := s.workers[w];
    LaunchFacts(m, s, w);
    var vk := s.workers[wk.pc.target];
    var wk', vk' := wk.(pc := wk.pc.(stage := Activated)), vk.(active := true);
    assert Holds(wk') == Holds(wk) && Holds(vk') == Holds(vk);
    assert WorkerOk(wk') && WorkerOk(vk');
    hide Holds, WorkerOk;
    StageKeeps(m, s, w, wk', vk');
  }

  lemma {:induction false} LaunchReboundKeeps(m: Problem, s: State, w: int)
    requires Inv(m, s) && Enabled(m, s, LaunchRebound(w))
    ensures Inv(m, Next(m, s, LaunchRebound(w)))
  {
    hide Inv, PoolOk;
    var wk := s.workers[w];
    LaunchFacts(m, s, w);
    var vk := s.workers[wk.pc.target];
    var wk', vk' := wk.(pc := wk.pc.(stage := Rebound(wk.pc.stage.ok))), vk.(lb := MinBound(vk.queue));
    assert Holds(wk') == Holds(wk) && Holds(vk') == Holds(vk);
    assert WorkerOk(wk') && WorkerOk(vk');
    hide Holds, WorkerOk;
    StageKeeps(m, s, w, wk', vk');
  }

  lemma {:induction false} LaunchStealKeeps(m: Problem, s: State, w: int, k: int)
    requires Inv(m, s) && Enabled(m, s, LaunchSteal(w, k))
    ensures Inv(m, Next(m, s, LaunchSteal(w, k)))
  {
    hide Inv, PoolOk;
    var wk := s.workers[w];
    LaunchFacts(m, s, w);
    var v := wk.pc.target;
    var vk := s.workers[v];
    if wk.queue == [] {
      LaunchStealNothing(m, s, w);
    } else {
      LaunchStealNode(m, s, w, k);
    }
  }

  lemma {:induction false} LaunchStealNothing(m: Problem, s: State, w: int)
    requires Inv(m, s) && IsWorker(s, w) && s.workers[w].pc.Launch? && s.workers[w].pc.stage.Activated?
    ensures Inv(m, Goto(s, w, s.workers[w].pc.(stage := Stolen(false))))
  {
    hide Inv, PoolOk;
    var wk := s.workers[w];
    LaunchFacts(m, s, w);
    var v := wk.pc.target;
    var wk' := wk.(pc := wk.pc.(stage := Stolen(false)));
    assert Holds(wk') == Holds(wk) && WorkerOk(wk');
    hide Holds, WorkerOk;
    assert s.workers[v := s.workers[v]] == s.workers;
    StageKeeps(m, s, w, wk', s.workers[v]);
  }

  lemma {:induction false} LaunchStealNode(m: Problem, s: State, w: int, k: int)
    requires Inv(m, s) && IsWorker(s, w) && s.workers[w].pc.Launch? && s.workers[w].pc.stage.Activated?
    requires LeastAt(s.workers[w].queue, k) && IsWorker(s, s.workers[w].pc.target)
    ensures var wk := s.workers[w];
            var v := wk.pc.target;
            Inv(m, Put(Put(s, v, s.workers[v].(queue := s.workers[v].queue + [wk.queue[k]])), w,
                       wk.(pc := wk.pc.(stage := Stolen(true)), queue := Without(wk.queue, k))))
  {
    hide Inv, PoolOk;
    var wk := s.workers[w];
    LaunchFacts(m, s, w);
    var v := wk.pc.target;
    var vk := s.workers[v];
    var wk' := wk.(pc := wk.pc.(stage := Stolen(true)), queue := Without(wk.queue, k));
    var vk' := vk.(queue := vk.queue + [wk.queue[k]]);
    LaunchHolds(wk, wk', vk, vk', k);
    assert WorkerOk(wk') && WorkerOk(vk');
    hide Holds, WorkerOk;
    StageKeeps(m, s, w, wk', vk');
  }

  lemma {:induction false} LaunchHolds(wk: Worker, wk': Worker, vk: Worker, vk': Worker, k: int)
    requires wk.pc.Launch? && vk.pc.Reserved? && 0 <= k < |wk.queue|
    requires wk' == wk.(pc := wk.pc.(stage := Stolen(true)), queue := Without(wk.queue, k))
    requires vk' == vk.(queue := vk.queue + [wk.queue[k]])
    ensures multiset(Holds(wk')) + multiset(Holds(vk')) == multiset(Holds(wk)) + multiset(Holds(vk))
  {
    WithoutNodes(wk.queue, k);
    QueueOnly(vk);
    QueueOnly(vk');
    HoldsIs(wk, wk.queue, Held(wk.pc));
    HoldsIs(wk', Without(wk.queue, k), Held(wk.pc));
    hide Holds, Held, Without;
    MovedNode(wk.queue, Without(wk.queue, k), wk.queue[k], Held(wk.pc), vk.queue);
  }

  lemma {:induction false} MovedNode(q: seq<Node>, left: seq<Node>, n: Node, h: seq<Node>, other: seq<Node>)
    requires multiset(left) + multiset{n} == multiset(q)
    ensures multiset(left + h) + multiset(other + [n]) == multiset(q + h) + multiset(other)
  {
    forall k ensures (multiset(left + h) + multiset(other + [n]))[k] == (multiset(q + h) + multiset(other))[k] {
      assert (multiset(left) + multiset{n})[k] == multiset(q)[k];
      assert multiset(left + h)[k] == multiset(left)[k] + multiset(h)[k];
      assert multiset(q + h)[k] == multiset(q)[k] + multiset(h)[k];
      assert multiset(other + [n])[k] == multiset(other)[k] + multiset{n}[k];
    }
  }

  lemma {:induction false} LaunchEndKeeps(m: Problem, s: State, w: int)
    requires Inv(m, s) && Enabled(m, s, LaunchEnd(w))
    ensures Inv(m, Next(m, s, LaunchEnd(w)))
  {
    hide Inv, PoolOk, CutoffOk;
    var wk := s.workers[w];
    LaunchFacts(m, s, w);
    var v := wk.pc.target;
    var vk := s.workers[v];
    var wk' := wk.(pc := Plunge(wk.pc.stack));
    var vk' := if wk.pc.stage.ok then vk.(pc := Ready) else vk.(pc := Idle, active := false);
    NotSolving(m, s.upper);
    QueueOnly(vk);
    QueueOnly(vk');
    assert Holds(wk') == Holds(wk);
    assert WorkerOk(wk') && WorkerOk(vk');
    EndPool(s, w, wk', vk');
    hide Holds, WorkerOk;
    PairKeeps(m, s, Next(m, s, LaunchEnd(w)), w, v, wk', vk');
  }

  lemma {:induction false} EndPool(s: State, w: int, wk: Worker, vk: Worker)
    requires PoolOk(s) && IsWorker(s, w) && s.workers[w].pc.Launch? && LaunchOk(s, w)
    requires Neutral(wk.pc) && (vk.pc.Idle? || Neutral(vk.pc))
    ensures var v := s.workers[w].pc.target;
            PoolOk(s.(workers := s.workers[v := vk][w := wk], idle := if vk.pc.Idle? then s.idle + [v] else s.idle))
  {
    var v := s.workers[w].pc.target;
    var s' := s.(workers := s.workers[v := vk][w := wk], idle := if vk.pc.Idle? then s.idle + [v] else s.idle);
    forall u | 0 <= u < |s'.workers| ensures LaunchOk(s', u) && (u in s'.idle <==> s'.workers[u].pc.Idle?) {
      assert LaunchOk(s, u);
      if u != w { assert !SameTarget(s.workers[u].pc, s.workers[w].pc); }
    }
    forall u, t | 0 <= u < |s'.workers| && 0 <= t < |s'.workers| && u != t
      ensures !SameTarget(s'.workers[u].pc, s'.workers[t].pc)
    {
      assert !SameTarget(s.workers[u].pc, s.workers[t].pc);
    }
  }

  lemma {:induction false} HeuristicKeeps(m: Problem, s: State, x: seq<real>)
    requires ProblemOk(m) && Inv(m, s) && m.feasible(x)
    ensures Inv(m, Next(m, s, Heuristic(x)))
  {
    hide WorkerOk, BoundHolds, OpenAt, NodesOk;
    var s' := Next(m, s, Heuristic(x));
    MinSides(s.upper, Fin(m.objective(x)));
    LowerCutoffs(m, s, s'.upper);
    PoolOfWorkers(s, s');
    forall y: seq<real> | m.feasible(y)
      ensures OpenAt(s'.open, y) || OpenAt(s'.abandoned, y) || Le(s'.upper, Fin(m.objective(y)))
    {
      if Le(s.upper, Fin(m.objective(y))) { LeTransitive(s'.upper, s.upper, Fin(m.objective(y))); }
    }
    SameNodes(s, s', m);
  }

  lemma {:induction false} SameNodes(s: State, s': State, m: Problem)
    requires NodesOk(s, m) && s'.open == s.open && s'.abandoned == s.abandoned && s'.nextId == s.nextId && s'.numerical == s.numerical
    ensures NodesOk(s', m)
  {
  }

  /** Every step keeps the invariant. */
  lemma {:induction false} StepKeeps(m: Problem, s: State, mv: Move)
    requires ProblemOk(m) && Inv(m, s) && Enabled(m, s, mv)
    ensures Inv(m, Next(m, s, mv))
  {
    hide Inv, ProblemOk, Next;
    EnabledHeuristic(m, s, mv);
    hide Enabled;
    match mv
    case Announce(w) => AnnounceKeeps(m, s, w);
    case PopBest(w, k) => PopBestKeeps(m, s, w, k);
    case SetStart(w) => SetStartKeeps(m, s, w);
    case CheckStart(w) => CheckStartKeeps(m, s, w);
    case Take(w) => TakeKeeps(m, s, w);
    case SetHand(w) => SetHandKeeps(m, s, w);
    case CheckHand(w) => CheckHandKeeps(m, s, w);
    case Limit(w) => LimitKeeps(m, s, w);
    case Solved(w, r) => SolvedKeeps(m, s, w, r);
    case Evict(w) => EvictKeeps(m, s, w);
    case Place(w) => PlaceKeeps(m, s, w);
    case Stop(w) => StopKeeps(m, s, w);
    case FlushOne(w) => FlushOneKeeps(m, s, w);
    case EndPlunge(w) => EndPlungeKeeps(m, s, w);
    case Continue(w) => ContinueKeeps(m, s, w);
    case Steal(_, _, _, _, _) => StealKeeps(m, s, mv);
    case Finish(w) => FinishKeeps(m, s, w);
    case LaunchTake(w) => LaunchTakeKeeps(m, s, w);
    case LaunchAnnounce(w) => LaunchAnnounceKeeps(m, s, w);
    case LaunchActivate(w) => LaunchActivateKeeps(m, s, w);
    case LaunchSteal(w, k) => LaunchStealKeeps(m, s, w, k);
    case LaunchRebound(w) => LaunchReboundKeeps(m, s, w);
    case LaunchEnd(w) => LaunchEndKeeps(m, s, w);
    case Heuristic(x) => HeuristicKeeps(m, s, x);
  }

  lemma {:induction false} EnabledHeuristic(m: Problem, s: State, mv: Move)
    requires Enabled(m, s, mv)
    ensures mv.Heuristic? ==> m.feasible(mv.point)
  {
  }

  // ---------------------------------------------------------------- whole runs

  lemma {:induction false} RunKeeps(m: Problem, s: State, moves: seq<Move>)
    requires ProblemOk(m) && Inv(m, s) && IsRun(m, s, moves)
    ensures Inv(m, Run(m, s, moves))
  {
    hide Inv, ProblemOk, Enabled, Next;
    if moves != [] {
      RunKeeps(m, s, moves[..|moves| - 1]);
      StepKeeps(m, Run(m, s, moves[..|moves| - 1]), moves[|moves| - 1]);
    }
  }

  /** The root has been branched and its two children cover the feasible points. */
  ghost predicate GoodStart(m: Problem, upper: Ext, down: Node, up: Node) {
    && UpperOk(m, upper) && down.id == 1 && up.id == 2 && down.bound == up.bound == m.rootBound
    && BoundHolds(m, down) && BoundHolds(m, up)
    && forall x: seq<real> | m.feasible(x) :: Contains(down.box, x) || Contains(up.box, x)
  }

  lemma {:induction false} TotalIdle(k: nat)
    ensures Total(seq(k, _ => Worker(Idle, NegInf, false, []))) == multiset{}
  {
    if k > 0 {
      TotalIdle(k - 1);
      assert seq(k, _ => Worker(Idle, NegInf, false, []))[..k - 1] == seq(k - 1, _ => Worker(Idle, NegInf, false, []));
    }
  }

  lemma {:induction false} TotalConcat(a: seq<Worker>, b: seq<Worker>)
    ensures Total(a + b) == Total(a) + Total(b)
  {
    hide Holds;
    if b == [] {
      assert a + b == a;
    } else {
      var last := |b| - 1;
      TotalConcat(a, b[..last]);
      assert (a + b)[..|a + b| - 1] == a + b[..last];
    }
  }

  lemma {:induction false} StartTotal(workers: nat, upper: Ext, down: Node, up: Node)
    requires workers >= 1 && down != up
    ensures Total(Start(workers, upper, down, up).workers) == multiset{down, up}
  {
    var first, others := Worker(Ready, MinBound([down, up]), true, [down, up]), seq(workers - 1, _ => Worker(Idle, NegInf, false, []));
    TotalIdle(workers - 1);
    TotalConcat([first], others);
    QueueOnly(first);
    assert [first][..0] == [];
    assert Total([first]) == multiset([down, up]);
  }

  lemma {:induction false} StartCovered(m: Problem, workers: nat, upper: Ext, down: Node, up: Node)
    requires workers >= 1 && GoodStart(m, upper, down, up)
    ensures var s := Start(workers, upper, down, up); Valid(m, s) && Covered(m, s) && FloorHolds(m, s) && NodesOk(s, m)
  {
    hide BoundHolds, UpperOk, Contains;
    var s := Start(workers, upper, down, up);
    LeReflexive(m.rootBound);
    forall x: seq<real> | m.feasible(x) ensures OpenAt(s.open, x) {
      assert down in s.open && up in s.open;
    }
  }

  lemma {:induction false} StartInv(m: Problem, workers: nat, upper: Ext, down: Node, up: Node)
    requires workers >= 1 && GoodStart(m, upper, down, up)
    ensures Inv(m, Start(workers, upper, down, up))
  {
    hide BoundHolds, UpperOk, Contains, Valid, Covered, FloorHolds, NodesOk, PoolOk, Total;
    var s := Start(workers, upper, down, up);
    StartTotal(workers, upper, down, up);
    assert multiset(s.open) == multiset{down, up};
    StartCovered(m, workers, upper, down, up);
    StartPool(workers, s);
  }

  lemma {:induction false} StartPool(workers: nat, s: State)
    requires workers >= 1 && |s.workers| == workers && s.workers[0].pc.Ready?
    requires forall w | 0 < w < workers :: s.workers[w].pc.Idle?
    requires s.idle == seq(workers - 1, i => i + 1)
    ensures PoolOk(s)
  {
    forall w | 0 <= w < workers ensures w in s.idle <==> s.workers[w].pc.Idle? {
      if w > 0 { assert s.idle[w - 1] == w; }
    }
  }

  lemma {:induction false} ActiveBoundBelow(workers: seq<Worker>, w: int)
    requires 0 <= w < |workers| && workers[w].active
    ensures Le(ActiveBound(workers), workers[w].lb) && Le(ActiveBound(workers), MinBound(workers[w].queue))
  {
    var last := |workers| - 1;
    var rest := ActiveBound(workers[..last]);
    if workers[last].active {
      MinSides(Min(rest, workers[last].lb), MinBound(workers[last].queue));
      MinSides(rest, workers[last].lb);
      LeTransitive(ActiveBound(workers), Min(rest, workers[last].lb), rest);
      LeTransitive(ActiveBound(workers), Min(rest, workers[last].lb), workers[last].lb);
    }
    if w < last {
      ActiveBoundBelow(workers[..last], w);
      LeTransitive(ActiveBound(workers), rest, workers[w].lb);
      LeTransitive(ActiveBound(workers), rest, MinBound(workers[w].queue));
    }
  }

  /** The global bound is never above an open, in-flight or abandoned node, whatever the workers are doing. */
  lemma {:induction false} GlobalBoundSafe(m: Problem, s: State, n: Node)
    requires Inv(m, s) && (n in s.open || n in s.abandoned)
    ensures Le(GlobalBound(m, s), n.bound)
  {
    hide Valid, Covered, FloorHolds, PoolOk, UpperOk, CutoffOk, ActiveBound;
    MinSides(s.numerical, ActiveBound(s.workers));
    if n in s.open {
      assert n in multiset(s.open);
      var w := HolderOf(s.workers, n);
      HolderBelow(m, s, w, n);
      LeTransitive(Min(s.numerical, ActiveBound(s.workers)), ActiveBound(s.workers), n.bound);
    } else {
      LeTransitive(Min(s.numerical, ActiveBound(s.workers)), s.numerical, n.bound);
    }
  }

  lemma {:induction false} HolderBelow(m: Problem, s: State, w: int, n: Node)
    requires Inv(m, s) && IsWorker(s, w) && n in Holds(s.workers[w])
    ensures Le(ActiveBound(s.workers), n.bound)
  {
    WorkerAt(m, s, w);
    hide Inv, StackOk;
    var wk := s.workers[w];
    ActiveBoundBelow(s.workers, w);
    MinBoundBelow(wk.queue);
    if n in wk.queue {
      LeTransitive(ActiveBound(s.workers), MinBound(wk.queue), n.bound);
    } else {
      assert n in Held(wk.pc);
      LeTransitive(ActiveBound(s.workers), wk.lb, n.bound);
    }
  }

  /** What the global bound is read from: the numerical bound, and the bounds of the active workers and of their queues. */
  predicate WorkerSource(wk: Worker, b: Ext) {
    wk.active && (b == wk.lb || exists k :: 0 <= k < |wk.queue| && b == wk.queue[k].bound)
  }

  predicate BoundSource(s: State, b: Ext) {
    b == s.numerical || exists w :: 0 <= w < |s.workers| && WorkerSource(s.workers[w], b)
  }

  /** The global bound is the greatest it can be: the least of its sources, and the root bound only when that is infinite. */
  lemma {:induction false} GlobalBoundGreatest(m: Problem, s: State)
    ensures (exists b :: BoundSource(s, b) && b.Fin?) && !BoundSource(s, NegInf) ==>
              BoundSource(s, GlobalBound(m, s)) && forall b | BoundSource(s, b) :: Le(GlobalBound(m, s), b)
    ensures (forall b | BoundSource(s, b) :: !b.Fin?) || BoundSource(s, NegInf) ==>
              GlobalBound(m, s) == if m.rootBound.Fin? then m.rootBound else NegInf
  {
    hide WorkerSource, ActiveBound;
    var b := Min(s.numerical, ActiveBound(s.workers));
    ActiveBoundLeast(s.workers);
    MinSides(s.numerical, ActiveBound(s.workers));
    forall c | BoundSource(s, c) ensures Le(b, c) {
      if c != s.numerical {
        LeTransitive(b, ActiveBound(s.workers), c);
      }
    }
    assert BoundSource(s, b) by {
      if b != s.numerical { assert ActiveBound(s.workers) != PosInf; }
    }
  }

  lemma {:induction false} MinBoundAttained(nodes: seq<Node>)
    ensures MinBound(nodes) == PosInf || exists k :: 0 <= k < |nodes| && MinBound(nodes) == nodes[k].bound
  {
    if nodes != [] {
      MinBoundAttained(nodes[1..]);
      MinSides(nodes[0].bound, MinBound(nodes[1..]));
      if MinBound(nodes) != PosInf && MinBound(nodes) != nodes[0].bound {
        var k :| 0 <= k < |nodes| - 1 && MinBound(nodes[1..]) == nodes[1..][k].bound;
        assert nodes[k + 1].bound == MinBound(nodes);
      }
    }
  }

  /** What one active worker contributes. */
  lemma {:induction false} WorkerLeast(wk: Worker)
    requires wk.active
    ensures var c := Min(wk.lb, MinBound(wk.queue)); WorkerSource(wk, c) && forall b | WorkerSource(wk, b) :: Le(c, b)
  {
    var c := Min(wk.lb, MinBound(wk.queue));
    MinBoundAttained(wk.queue);
    MinBoundBelow(wk.queue);
    MinSides(wk.lb, MinBound(wk.queue));
    forall b | WorkerSource(wk, b) ensures Le(c, b) {
      if b != wk.lb {
        var k :| 0 <= k < |wk.queue| && b == wk.queue[k].bound;
        assert wk.queue[k] in wk.queue;
        LeTransitive(c, MinBound(wk.queue), b);
      }
    }
  }

  lemma {:induction false} SourceActive(wk: Worker, b: Ext)
    requires WorkerSource(wk, b)
    ensures wk.active
  {
  }

  lemma {:induction false} LastWorker(workers: seq<Worker>)
    requires workers != []
    ensures var wk, rest := workers[|workers| - 1], ActiveBound(workers[..|workers| - 1]);
            ActiveBound(workers) == if wk.active then Min(rest, Min(wk.lb, MinBound(wk.queue))) else rest
  {
    hide MinBound;
    var wk := workers[|workers| - 1];
    MinOrder(wk.lb, MinBound(wk.queue), ActiveBound(workers[..|workers| - 1]));
  }

  lemma {:induction false} ActiveBoundLeast(workers: seq<Worker>)
    ensures forall w, b | 0 <= w < |workers| && WorkerSource(workers[w], b) :: Le(ActiveBound(workers), b)
    ensures ActiveBound(workers) == PosInf || exists w :: 0 <= w < |workers| && WorkerSource(workers[w], ActiveBound(workers))
  {
    if workers != [] {
      hide WorkerSource, MinBound;
      var k := |workers| - 1;
      var wk, rest := workers[k], ActiveBound(workers[..k]);
      ActiveBoundLeast(workers[..k]);
      LastWorker(workers);
      MinSides(rest, Min(wk.lb, MinBound(wk.queue)));
      if wk.active { WorkerLeast(wk); }
      forall w, b | 0 <= w < |workers| && WorkerSource(workers[w], b)
        ensures Le(ActiveBound(workers), b)
      {
        if w < k {
          assert workers[..k][w] == workers[w];
          LeTransitive(ActiveBound(workers), rest, b);
        } else {
          SourceActive(wk, b);
          LeTransitive(ActiveBound(workers), Min(wk.lb, MinBound(wk.queue)), b);
        }
      }
    }
  }

  /** At every moment no feasible point is better than both the upper bound and the global bound. */
  lemma {:induction false} BoundsEnclose(m: Problem, s: State, x: seq<real>)
    requires Inv(m, s) && m.feasible(x)
    ensures Le(s.upper, Fin(m.objective(x))) || Le(GlobalBound(m, s), Fin(m.objective(x)))
  {
    hide PoolOk, UpperOk, CutoffOk, GlobalBound, WorkerOk, NodesOk;
    if OpenAt(s.open, x) || OpenAt(s.abandoned, x) {
      var n :| (n in s.open || n in s.abandoned) && Contains(n.box, x);
      GlobalBoundSafe(m, s, n);
      assert BoundHolds(m, n);
      LeTransitive(GlobalBound(m, s), n.bound, Fin(m.objective(x)));
    }
  }

  /**
   * Exhaustive search is optimal: a run of any number of workers that ends with no open and no abandoned node
   * proves that no feasible point is better than the upper bound, and reports a bound that holds.
   */
  lemma {:induction false} ExhaustedIsOptimal(m: Problem, workers: nat, upper: Ext, down: Node, up: Node, moves: seq<Move>, x: seq<real>)
    requires ProblemOk(m) && workers >= 1 && GoodStart(m, upper, down, up)
    requires IsRun(m, Start(workers, upper, down, up), moves) && m.feasible(x)
    ensures var s := Run(m, Start(workers, upper, down, up), moves);
            && (s.open == {} && s.abandoned == {} ==> Le(s.upper, Fin(m.objective(x))))
            && (s.open == {} ==> Le(s.floor, Fin(m.objective(x))))
            && (s.open == {} ==> Le(s.upper, Fin(m.objective(x))) || Le(s.numerical, Fin(m.objective(x))))
  {
    hide ProblemOk, Run, IsRun, Start, WorkerOk, PoolOk, UpperOk, CutoffOk, GoodStart;
    var s0 := Start(workers, upper, down, up);
    StartInv(m, workers, upper, down, up);
    RunKeeps(m, s0, moves);
    var s := Run(m, s0, moves);
    if s.open == {} && OpenAt(s.abandoned, x) {
      var n :| n in s.abandoned && Contains(n.box, x);
      assert BoundHolds(m, n);
      LeTransitive(s.numerical, n.bound, Fin(m.objective(x)));
    }
  }

  /** The upper bound is the initial one, or the objective of a feasible point found on the way. */
  ghost predicate Attained(m: Problem, initial: Ext, upper: Ext) {
    upper == initial || exists x: seq<real> :: m.feasible(x) && upper == Fin(m.objective(x))
  }

  lemma {:induction false} SameUpper(m: Problem, s: State, mv: Move)
    requires !mv.Heuristic? && !mv.Solved?
    ensures Next(m, s, mv).upper == s.upper
  {
    hide MinBound, LeastAt, Without;
  }

  lemma {:induction false} SolvedUpper(m: Problem, s: State, w: int, r: Lp)
    requires IsWorker(s, w) && s.workers[w].pc.Solving?
    ensures SolvedState(m, s, w, r).upper == if r.Integral? then Min(s.upper, Fin(r.value)) else s.upper
  {
    hide SnappedBound, Narrowed, Min;
  }

  lemma {:induction false} StepAttains(m: Problem, s: State, mv: Move, initial: Ext)
    requires Enabled(m, s, mv) && Attained(m, initial, s.upper)
    ensures Attained(m, initial, Next(m, s, mv).upper)
  {
    hide SolvedState;
    match mv
    case Heuristic(x) => assert m.feasible(x);
    case Solved(w, r) =>
      SolvedUpper(m, s, w, r);
      if r.Integral? { assert m.feasible(r.point); }
    case _ => SameUpper(m, s, mv);
  }

  lemma {:induction false} RunAttains(m: Problem, s: State, moves: seq<Move>)
    requires IsRun(m, s, moves)
    ensures Attained(m, s.upper, Run(m, s, moves).upper)
  {
    hide Enabled, Next;
    if moves != [] {
      RunAttains(m, s, moves[..|moves| - 1]);
      StepAttains(m, Run(m, s, moves[..|moves| - 1]), moves[|moves| - 1], s.upper);
    }
  }

  /** Without an initial cutoff, an exhausted run with an upper bound has found an optimal point. */
  lemma {:induction false} IncumbentOptimal(m: Problem, workers: nat, down: Node, up: Node, moves: seq<Move>)
    requires ProblemOk(m) && workers >= 1 && GoodStart(m, PosInf, down, up)
    requires IsRun(m, Start(workers, PosInf, down, up), moves)
    requires var s := Run(m, Start(workers, PosInf, down, up), moves); s.open == {} && s.abandoned == {}
    ensures var s := Run(m, Start(workers, PosInf, down, up), moves);
            if s.upper == PosInf then forall x: seq<real> :: !m.feasible(x)
            else exists x: seq<real> :: m.feasible(x) && s.upper == Fin(m.objective(x))
                   && forall y: seq<real> | m.feasible(y) :: m.objective(x) <= m.objective(y)
  {
    hide ProblemOk, Run, IsRun, GoodStart, Start;
    var s0 := Start(workers, PosInf, down, up);
    StartUpper(workers, PosInf, down, up);
    var s := Run(m, s0, moves);
    RunAttains(m, s0, moves);
    forall y: seq<real> | m.feasible(y) ensures Le(s.upper, Fin(m.objective(y))) {
      ExhaustedIsOptimal(m, workers, PosInf, down, up, moves, y);
    }
  }

  lemma {:induction false} StartUpper(workers: nat, upper: Ext, down: Node, up: Node)
    requires workers >= 1
    ensures Start(workers, upper, down, up).upper == upper
  {
  }

  lemma {:induction false} AllIdleTotal(workers: seq<Worker>)
    requires forall w | 0 <= w < |workers| :: Holds(workers[w]) == []
    ensures Total(workers) == multiset{}
  {
    if workers != [] { AllIdleTotal(workers[..|workers| - 1]); }
  }

  /** Distinct ids below n, as many as n, are all of them. */
  lemma {:induction false} AllIds(s: seq<int>, n: nat)
    requires DistinctInts(s) && |s| == n && forall w | w in s :: 0 <= w < n
    ensures forall w | 0 <= w < n :: w in s
    decreases n
  {
    if n > 0 {
      if n - 1 in s {
        var i :| 0 <= i < n && s[i] == n - 1;
        var t := s[..i] + s[i + 1..];
        forall w | w in t ensures 0 <= w < n - 1 { assert w in s; }
        AllIds(t, n - 1);
        assert forall w | w in t :: w in s;
      } else {
        TooManyIds(s, n - 1);
      }
    }
  }

  lemma {:induction false} TooManyIds(s: seq<int>, n: nat)
    requires DistinctInts(s) && forall w | w in s :: 0 <= w < n
    ensures |s| <= n
    decreases n
  {
    if s != [] {
      assert s[0] in s;
      if n - 1 in s {
        var i :| 0 <= i < |s| && s[i] == n - 1;
        var t := s[..i] + s[i + 1..];
        forall w | w in t ensures 0 <= w < n - 1 { assert w in s; }
        TooManyIds(t, n - 1);
      } else {
        TooManyIds(s, n - 1);
      }
    }
  }

  /** Termination detection is sound: when as many workers are idle as there are, no node is open anywhere. */
  lemma {:induction false} AllIdleMeansDone(m: Problem, s: State)
    requires Inv(m, s) && |s.idle| == |s.workers|
    ensures s.open == {}
  {
    hide Valid, Covered, FloorHolds, NodesOk, UpperOk, CutoffOk, WorkerOk;
    AllIds(s.idle, |s.workers|);
    forall w | 0 <= w < |s.workers| ensures Holds(s.workers[w]) == [] { IdleHoldsNothing(m, s, w); }
    AllIdleTotal(s.workers);
    forall n ensures n in s.open <==> n in multiset(s.open) {}
  }
}
