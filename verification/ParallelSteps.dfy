/** What single steps of the parallel search do with a node: which nodes are dropped, solved and branched on, and in what order. */
module ParallelSteps {
  import opened Rounding
  import opened Extended
  import opened Lattice
  import opened BranchPath
  import opened ParallelSearch
  import opened ParallelSafety
  import NodeQueue

  /** A branched node leaves room under the upper bound; any other fractional node closes at its own bound. */
  lemma {:induction false} BranchedIff(m: Problem, s: State, w: int, r: Lp)
    requires IsWorker(s, w) && s.workers[w].pc.Solving? && r.Fractional?
    ensures var after, n, rest := Next(m, s, Solved(w, r)), s.workers[w].pc.node, s.workers[w].pc.rest;
            var bound := SnappedBound(m, r.value);
            if s.upper.NegInf? || s.upper.PosInf? || Le(bound, Fin(s.upper.v + m.fathomTol))
            then after.nextId == s.nextId + 2 && after.floor == s.floor && after.workers[w].pc.Branched?
            else && after.nextId == s.nextId && after.open == s.open - {n}
                 && after.floor == Min(s.floor, bound) && after.workers[w].pc == Plunge(rest)
  {
  }

  /** Which child comes first, and what the children are. */
  lemma {:induction false} PreferredFirst(m: Problem, s: State, w: int, r: Lp)
    requires IsWorker(s, w) && s.workers[w].pc.Solving? && r.Fractional?
    requires Next(m, s, Solved(w, r)).workers[w].pc.Branched?
    ensures var n, rest := s.workers[w].pc.node, s.workers[w].pc.rest;
            var d, u := DownChild(m, n, r, s.nextId), UpChild(m, n, r, s.nextId + 1);
            var after := Next(m, s, Solved(w, r));
            && after.open == s.open - {n} + {d, u}
            && after.workers == s.workers[w := s.workers[w].(pc := Branched(if r.upFirst then u else d, if r.upFirst then d else u, rest))]
  {
    hide DownChild, UpChild, SnappedBound, Lt;
  }

  /**
   * After branching, the next node at hand is the preferred child; the sibling waits below it on the stack, or goes
   * to the queue while that is short. What was left on the stack before goes to the queue first.
   */
  lemma {:induction false} SiblingWaits(m: Problem, s: State, w: int, first: Node, second: Node, rest: seq<Node>)
    requires IsWorker(s, w) && s.workers[w].pc == Branched(first, second, rest)
    ensures var queue := s.workers[w].queue + rest;
            var after := Next(m, Next(m, Next(m, s, Evict(w)), Place(w)), Take(w));
            && after.open == s.open
            && after.workers == s.workers[w := s.workers[w].(
                 pc := InHand(first, if |queue| < m.minQueue then [] else [second]),
                 queue := queue + if |queue| < m.minQueue then [second] else [])]
  {
    var queue := s.workers[w].queue + rest;
    var a := Next(m, s, Evict(w));
    EvictStep(m, s, w, first, second, rest);
    var b := Next(m, a, Place(w));
    PlaceStep(m, a, w, first, second);
    var stack, q := b.workers[w].pc.stack, b.workers[w].queue;
    TakeStep(m, b, w);
    assert [first][1..] == [] && [first, second][1..] == [second];
    assert queue + [] == queue;
  }

  lemma {:induction false} EvictStep(m: Problem, s: State, w: int, first: Node, second: Node, rest: seq<Node>)
    requires IsWorker(s, w) && s.workers[w].pc == Branched(first, second, rest)
    ensures Next(m, s, Evict(w)) ==
            s.(workers := s.workers[w := s.workers[w].(pc := Placing(first, second), queue := s.workers[w].queue + rest)])
  {
    assert s.workers[w].queue + [] == s.workers[w].queue;
  }

  lemma {:induction false} PlaceStep(m: Problem, s: State, w: int, first: Node, second: Node)
    requires IsWorker(s, w) && s.workers[w].pc == Placing(first, second)
    ensures var wk := s.workers[w];
            Next(m, s, Place(w)) == s.(workers := s.workers[w :=
              if |wk.queue| < m.minQueue then wk.(pc := Plunge([first]), queue := wk.queue + [second])
              else wk.(pc := Plunge([first, second]))])
  {
  }

  lemma {:induction false} TakeStep(m: Problem, s: State, w: int)
    requires IsWorker(s, w) && s.workers[w].pc.Plunge? && s.workers[w].pc.stack != []
    ensures var stack := s.workers[w].pc.stack;
            Next(m, s, Take(w)) == s.(workers := s.workers[w := s.workers[w].(pc := InHand(stack[0], stack[1..]))])
  {
  }

  lemma {:induction false} IntegerBelow(v: real, at: real)
    requires IsInteger(v)
    ensures v <= at <==> v <= at.Floor as real
    ensures at <= v <==> Ceiling(at) as real <= v
  {
    FloorAbove(v.Floor, at);
    FloorAbove(-v.Floor, -at);
  }

  /** Narrowing one column of a box to a part of what it was. */
  lemma {:induction false} NarrowedContains(box: Box, v: int, lo: Ext, hi: Ext, x: seq<real>)
    requires 0 <= v < |box.lower| == |box.upper| == |x|
    ensures Contains(Narrowed(box, v, lo, hi), x) <==>
              && Le(lo, Fin(x[v])) && Le(Fin(x[v]), hi)
              && forall k | 0 <= k < |x| && k != v :: Le(box.lower[k], Fin(x[k])) && Le(Fin(x[k]), box.upper[k])
  {
    var b := Narrowed(box, v, lo, hi);
    assert forall k | 0 <= k < |x| && k != v :: b.lower[k] == box.lower[k] && b.upper[k] == box.upper[k];
    assert b.lower[v] == lo && b.upper[v] == hi;
  }

  /** A child has the parent's box cut at the LP value: down to the integers below it, up to those above it. */
  lemma {:induction false} ChildBoxes(m: Problem, n: Node, r: Lp, id: nat, x: seq<real>)
    requires r.Fractional? && 0 <= r.variable < |n.box.lower| == |n.box.upper| == |x| && IsInteger(x[r.variable])
    requires Le(n.box.lower[r.variable], r.lower) && Le(r.upper, n.box.upper[r.variable]) && Le(r.lower, Fin(r.at)) && Le(Fin(r.at), r.upper)
    ensures var v := x[r.variable];
            && (Contains(DownChild(m, n, r, id).box, x) <==> Contains(n.box, x) && Le(r.lower, Fin(v)) && v <= r.at)
            && (Contains(UpChild(m, n, r, id).box, x) <==> Contains(n.box, x) && Le(Fin(v), r.upper) && r.at <= v)
  {
    hide Contains, Narrowed, IsInteger, Ceiling;
    var v := x[r.variable];
    IntegerBelow(v, r.at);
    NarrowedContains(n.box, r.variable, r.lower, Fin(r.at.Floor as real), x);
    NarrowedContains(n.box, r.variable, Fin(Ceiling(r.at) as real), r.upper, x);
    NarrowedContains(n.box, r.variable, n.box.lower[r.variable], n.box.upper[r.variable], x);
    SameBox(n.box, r.variable);
  }

  lemma {:induction false} SameBox(box: Box, v: int)
    requires 0 <= v < |box.lower| == |box.upper|
    ensures Narrowed(box, v, box.lower[v], box.upper[v]) == box
  {
  }

  /** The bound of a child is the least lattice value not more than the tolerance below the value of the LP. */
  lemma {:induction false} ChildBounds(m: Problem, n: Node, r: Lp, id: nat, k: int)
    requires r.Fractional? && ValidLattice(m.lattice)
    ensures DownChild(m, n, r, id).id == UpChild(m, n, r, id).id == id
    ensures DownChild(m, n, r, id).bound == UpChild(m, n, r, id).bound && DownChild(m, n, r, id).bound.Fin?
    ensures var bound := DownChild(m, n, r, id).bound.v;
            && OnLattice(m.lattice, bound)
            && (if m.lattice.Unknown? then bound == r.value
                else bound <= LatticeValue(m.lattice, k) <==> r.value - m.tol * Lattice.Step(m.lattice) <= LatticeValue(m.lattice, k))
  {
    hide LatticeValue, Lattice.Step, Snap, Narrowed;
    SnapIsLeast(m.lattice, m.tol, r.value, k);
  }

  /** A worker pops a node of least bound, and no other node moves. */
  lemma {:induction false} BestPopped(m: Problem, s: State, w: int, k: int)
    requires Enabled(m, s, PopBest(w, k)) && s.workers[w].queue != []
    ensures var queue, after := s.workers[w].queue, Next(m, s, PopBest(w, k));
            && 0 <= k < |queue| && (forall i | 0 <= i < |queue| :: Le(queue[k].bound, queue[i].bound))
            && after == s.(workers := s.workers[w := s.workers[w].(pc := Popped(queue[k]), queue := queue[..k] + queue[k + 1..])])
  {
    var queue := s.workers[w].queue;
    forall i | 0 <= i < |queue| ensures Le(queue[k].bound, queue[i].bound) { assert queue[i] in queue; }
  }

  /** A launched worker starts with a node of least bound of its launcher's queue. */
  lemma {:induction false} BestLaunched(m: Problem, s: State, w: int, k: int)
    requires Enabled(m, s, LaunchSteal(w, k)) && s.workers[w].queue != [] && LaunchOk(s, w)
    ensures var queue, v := s.workers[w].queue, s.workers[w].pc.target;
            var after := Next(m, s, LaunchSteal(w, k));
            && 0 <= k < |queue| && (forall i | 0 <= i < |queue| :: Le(queue[k].bound, queue[i].bound))
            && after.workers[v].queue == s.workers[v].queue + [queue[k]]
            && after.workers[w].queue == queue[..k] + queue[k + 1..] && after.open == s.open
  {
    var queue := s.workers[w].queue;
    forall i | 0 <= i < |queue| ensures Le(queue[k].bound, queue[i].bound) { assert queue[i] in queue; }
  }

  /** A steal takes as many of the victim's best nodes as the rule says and gives them to the thief. */
  lemma {:induction false} StolenBest(m: Problem, s: State, w: int, v: int, count: int, stolen: seq<Node>, left: seq<Node>)
    requires Enabled(m, s, Steal(w, v, count, stolen, left))
    ensures var after, size := Next(m, s, Steal(w, v, count, stolen, left)), |s.workers[v].queue|;
            && after.workers[w].queue == s.workers[w].queue + stolen && after.workers[v].queue == left
            && (forall i, j | 0 <= i < |stolen| && 0 <= j < |left| :: Le(stolen[i].bound, left[j].bound))
            && |stolen| + |left| == size && |stolen| <= count
            && (stolen != [] ==> |left| + 1 >= count) && (|stolen| < count ==> |left| < count)
  {
    var size := |s.workers[v].queue|;
    NodeQueue.StealCountMeans(size, count);
    SizeOfUnion(stolen, left, s.workers[v].queue);
    forall i, j | 0 <= i < |stolen| && 0 <= j < |left| ensures Le(stolen[i].bound, left[j].bound) {
      assert stolen[i] in stolen && left[j] in left;
    }
  }

  lemma {:induction false} SizeOfUnion(a: seq<Node>, b: seq<Node>, c: seq<Node>)
    requires multiset(a) + multiset(b) == multiset(c)
    ensures |a| + |b| == |c|
  {
    assert |multiset(a)| == |a| && |multiset(b)| == |b| && |multiset(c)| == |c|;
    assert |multiset(a) + multiset(b)| == |multiset(a)| + |multiset(b)|;
  }

  // ---------------------------------------------------------------- the bounds that workers announce

  /** The least bound of a queue, infinity for the empty one. */
  predicate IsLeast(b: Ext, queue: seq<Node>) {
    && (forall i | 0 <= i < |queue| :: Le(b, queue[i].bound))
    && (b == PosInf || exists i :: 0 <= i < |queue| && b == queue[i].bound)
  }

  lemma {:induction false} MinBoundIsLeast(queue: seq<Node>)
    ensures IsLeast(MinBound(queue), queue)
  {
    MinBoundBelow(queue);
    MinBoundAttained(queue);
    forall i | 0 <= i < |queue| ensures Le(MinBound(queue), queue[i].bound) { assert queue[i] in queue; }
  }

  /** Each announcement is the exact bound: that of the queue about to be popped, of the node in hand, of what was stolen. */
  lemma {:induction false} Announced(m: Problem, s: State, w: int, mv: Move)
    requires Enabled(m, s, mv) && !mv.Heuristic? && mv.w == w && LaunchOk(s, w)
    ensures var wk, after := s.workers[w], Next(m, s, mv).workers;
            && (mv.Announce? ==> IsLeast(after[w].lb, wk.queue))
            && (mv.SetStart? ==> after[w].lb == wk.pc.start.bound)
            && (mv.SetHand? ==> after[w].lb == wk.pc.node.bound)
            && (mv.EndPlunge? ==> after[w].lb == PosInf)
            && (mv.LaunchAnnounce? ==> IsLeast(after[wk.pc.target].lb, wk.queue))
            && (mv.LaunchActivate? ==> after[wk.pc.target].active)
            && (mv.LaunchRebound? ==> IsLeast(after[wk.pc.target].lb, s.workers[wk.pc.target].queue))
  {
    hide IsLeast, MinBound, LpOk;
    var wk := s.workers[w];
    MinBoundIsLeast(wk.queue);
    if mv.LaunchRebound? { MinBoundIsLeast(s.workers[wk.pc.target].queue); }
  }

  /** A worker that finishes without nodes goes back to the pool as its last; with nodes it stays away from it. */
  lemma {:induction false} FinishedIff(m: Problem, s: State, w: int)
    requires Enabled(m, s, Finish(w))
    ensures var after := Next(m, s, Finish(w));
            if s.workers[w].queue == [] then after.idle == s.idle + [w] && !after.workers[w].active && after.workers[w].pc.Idle?
            else after.idle == s.idle && after.workers[w] == s.workers[w].(pc := Stopped)
  {
    hide LpOk;
  }

  // ---------------------------------------------------------------- no LP is solved in vain

  /** A node is only solved when its bound was not above the upper bound that the LP is stopped at. */
  predicate Promising(pc: Pc) {
    pc.Solving? ==> Le(pc.node.bound, pc.cutoff)
  }

  predicate AllPromising(s: State) {
    forall w | 0 <= w < |s.workers| :: Promising(s.workers[w].pc)
  }

  lemma {:induction false} SolvesStep(m: Problem, s: State, mv: Move)
    requires AllPromising(s)
    ensures AllPromising(Next(m, s, mv))
  {
    hide MinBound, LeastAt, Without, Min, SolvedState;
    if mv.Solved? && IsWorker(s, mv.w) && s.workers[mv.w].pc.Solving? { SolvedStep(m, s, mv.w, mv.r); }
  }

  lemma {:induction false} SolvedStep(m: Problem, s: State, w: int, r: Lp)
    requires AllPromising(s) && IsWorker(s, w) && s.workers[w].pc.Solving?
    ensures AllPromising(SolvedState(m, s, w, r))
  {
    hide SnappedBound, DownChild, UpChild, Min;
  }

  lemma {:induction false} SolvesPromising(m: Problem, s: State, moves: seq<Move>)
    requires AllPromising(s)
    ensures AllPromising(Run(m, s, moves))
  {
    if moves != [] {
      hide AllPromising, Next;
      var front := moves[..|moves| - 1];
      SolvesPromising(m, s, front);
      SolvesStep(m, Run(m, s, front), moves[|moves| - 1]);
    }
  }

  /** Throughout every run no LP is started for a node whose bound is above the upper bound it is stopped at. */
  lemma {:induction false} NoVainSolve(m: Problem, workers: nat, upper: Ext, down: Node, up: Node, moves: seq<Move>, w: int)
    requires workers >= 1
    requires IsWorker(Run(m, Start(workers, upper, down, up), moves), w)
    ensures var pc := Run(m, Start(workers, upper, down, up), moves).workers[w].pc;
            pc.Solving? ==> Le(pc.node.bound, pc.cutoff)
  {
    hide Run, MinBound;
    SolvesPromising(m, Start(workers, upper, down, up), moves);
  }

  /** A node in hand is dropped exactly when its bound is above the upper bound, and otherwise solved against that. */
  lemma {:induction false} DroppedIff(m: Problem, s: State, w: int)
    requires IsWorker(s, w) && s.workers[w].pc.Bounded?
    ensures var after, n := Next(m, s, CheckHand(w)), s.workers[w].pc.node;
            if Le(n.bound, s.upper) then after.open == s.open && after.workers[w].pc == Solving(n, s.workers[w].pc.rest, s.upper)
            else after.open == s.open - {n} && after.workers[w].pc == Plunge(s.workers[w].pc.rest)
  {
  }

  /** A node from the queue is dropped exactly when its bound is above the upper bound, and otherwise plunged from. */
  lemma {:induction false} StartDroppedIff(m: Problem, s: State, w: int)
    requires IsWorker(s, w) && s.workers[w].pc.Checking?
    ensures var after, n := Next(m, s, CheckStart(w)), s.workers[w].pc.start;
            if Le(n.bound, s.upper) then after.open == s.open && after.workers[w].pc == Plunge([n])
            else after.open == s.open - {n} && after.workers[w].pc == Ready
  {
  }
}
