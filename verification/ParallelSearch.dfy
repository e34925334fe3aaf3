/**
 * Parallel branch and bound as a system of atomic steps: workers that pop, plunge, evict, push, steal, launch
 * each other and return to the pool, around a shared upper bound. The LP solver is an oracle with a contract.
 */
module ParallelSearch {
  import opened Rounding
  import opened Extended
  import NodeQueue
  import opened Lattice
  import opened BranchPath

  // ---------------------------------------------------------------- the problem

  /** A mixed-integer program as the search sees it: feasible points, their objective, and what is known about it. */
  datatype Problem = Problem(
    feasible: seq<real> -> bool,
    objective: seq<real> -> real,
    start: Box,
    lattice: ObjectiveLattice,
    tol: real,
    dualTol: real,
    fathomTol: real,
    rootBound: Ext,
    minQueue: nat)

  ghost predicate ProblemOk(m: Problem) {
    && ValidLattice(m.lattice) && m.tol >= 0.0 && m.fathomTol >= 0.0
    && m.dualTol >= 0.0 && (m.lattice.Unknown? || m.dualTol > 0.0)
    && (forall x: seq<real> | m.feasible(x) :: Contains(m.start, x) && OnLattice(m.lattice, m.objective(x)))
  }

  datatype Node = Node(id: nat, bound: Ext, box: Box)

  /** No feasible point of the node's box is better than its bound. */
  ghost predicate BoundHolds(m: Problem, n: Node) {
    forall x: seq<real> | m.feasible(x) && Contains(n.box, x) :: Le(n.bound, Fin(m.objective(x)))
  }

  // ---------------------------------------------------------------- the LP oracle

  datatype Lp =
    | Unbounded
    | AboveCutoff(relaxation: real)
    | Integral(value: real, point: seq<real>)
    | Fractional(value: real, variable: int, lower: Ext, upper: Ext, at: real, upFirst: bool)
    | NumericalTrouble
    | Interrupted

  function SnappedBound(m: Problem, value: real): Ext {
    if ValidLattice(m.lattice) then Fin(Snap(m.lattice, m.tol, value)) else Fin(value)
  }

  ghost predicate Relaxes(m: Problem, n: Node, value: real) {
    forall x: seq<real> | m.feasible(x) && Contains(n.box, x) :: value <= m.objective(x)
  }

  /** What the LP solver promises about a node solved with the given incumbent value. */
  ghost predicate LpOk(m: Problem, n: Node, upper: Ext, r: Lp) {
    match r
    case Unbounded => forall x: seq<real> | m.feasible(x) :: !Contains(n.box, x)
    case AboveCutoff(relaxation) =>
      Relaxes(m, n, relaxation) && ValidLattice(m.lattice)
      && upper.Fin? && relaxation >= Cutoff(m.lattice, m.tol, m.dualTol, upper.v)
    case Integral(value, point) =>
      Relaxes(m, n, value) && Le(n.bound, SnappedBound(m, value)) && m.feasible(point) && m.objective(point) == value
    case Fractional(value, v, lower, upper, at, _) =>
      && Relaxes(m, n, value) && Le(n.bound, SnappedBound(m, value))
      && 0 <= v < |n.box.lower| == |n.box.upper| && !IsInteger(at)
      && Le(n.box.lower[v], lower) && Le(upper, n.box.upper[v]) && Le(lower, Fin(at)) && Le(Fin(at), upper)
      && forall x: seq<real> | m.feasible(x) && Contains(n.box, x) ::
           IsInteger(x[v]) && Le(lower, Fin(x[v])) && Le(Fin(x[v]), upper)
    case NumericalTrouble => true
    case Interrupted => true
  }

  function Narrowed(box: Box, v: int, lo: Ext, hi: Ext): Box {
    if 0 <= v < |box.lower| == |box.upper| then Box(box.lower[v := lo], box.upper[v := hi]) else box
  }

  function DownChild(m: Problem, n: Node, r: Lp, id: nat): Node
    requires r.Fractional?
  {
    Node(id, SnappedBound(m, r.value), Narrowed(n.box, r.variable, r.lower, Fin(r.at.Floor as real)))
  }

  function UpChild(m: Problem, n: Node, r: Lp, id: nat): Node
    requires r.Fractional?
  {
    Node(id, SnappedBound(m, r.value), Narrowed(n.box, r.variable, Fin(Ceiling(r.at) as real), r.upper))
  }

  // ---------------------------------------------------------------- workers

  /** Where a best-first worker is; the names follow the loops of the search. */
  datatype Pc =
    | Idle
    | Reserved                                        // taken from the pool by a launcher
    | Ready                                           // top of the best-first loop
    | Popping                                         // bound announced, about to pop
    | Popped(start: Node)
    | Checking(start: Node)                           // bound set to that of the popped node
    | Plunge(stack: seq<Node>)                        // top of the plunging loop
    | InHand(node: Node, rest: seq<Node>)
    | Bounded(node: Node, rest: seq<Node>)            // bound set to that of the node in hand
    | Solving(node: Node, rest: seq<Node>, cutoff: Ext)
    | Branched(first: Node, second: Node, rest: seq<Node>)
    | Placing(first: Node, second: Node)
    | Flush(stack: seq<Node>)
    | AfterPlunge
    | Stopped                                         // left the loop with nodes in the queue
    | Launch(target: int, stage: LaunchStage, stack: seq<Node>)

  datatype LaunchStage = Taken | Announced | Activated | Stolen(ok: bool) | Rebound(ok: bool)

  datatype Worker = Worker(pc: Pc, lb: Ext, active: bool, queue: seq<Node>)

  /** The nodes a worker has outside its queue. */
  function Held(pc: Pc): seq<Node> {
    match pc
    case Popped(n) => [n]
    case Checking(n) => [n]
    case Plunge(stack) => stack
    case InHand(n, rest) => [n] + rest
    case Bounded(n, rest) => [n] + rest
    case Solving(n, rest, _) => [n] + rest
    case Branched(a, b, rest) => [a, b] + rest
    case Placing(a, b) => [a, b]
    case Flush(stack) => stack
    case Launch(_, _, stack) => stack
    case _ => []
  }

  function Holds(w: Worker): seq<Node> {
    w.queue + Held(w.pc)
  }

  function MinBound(nodes: seq<Node>): Ext {
    if nodes == [] then PosInf else Min(nodes[0].bound, MinBound(nodes[1..]))
  }

  predicate AllAbove(nodes: seq<Node>, b: Ext) {
    forall n | n in nodes :: Le(b, n.bound)
  }

  /** Siblings: at most two nodes, with equal bounds. */
  predicate Siblings(stack: seq<Node>) {
    |stack| <= 2 && forall i, j | 0 <= i < |stack| && 0 <= j < |stack| :: stack[i].bound == stack[j].bound
  }

  predicate StackOk(pc: Pc, lb: Ext) {
    match pc
    case Plunge(stack) => Siblings(stack)
    case InHand(n, rest) => Siblings([n] + rest)
    case Bounded(n, rest) => Siblings([n] + rest) && lb == n.bound
    case Solving(n, rest, _) => Siblings([n] + rest) && lb == n.bound
    case Branched(a, b, rest) => a.bound == b.bound && |rest| <= 1
    case Placing(a, b) => a.bound == b.bound
    case Flush(stack) => |stack| <= 2
    case Launch(_, _, stack) => Siblings(stack)
    case _ => true
  }

  /** What holds of every worker: its bound covers what it holds, and idle workers hold nothing. */
  predicate WorkerOk(w: Worker) {
    && (w.queue != [] ==> w.active)
    && (w.pc.Idle? ==> !w.active)
    && (!w.pc.Idle? && !w.pc.Reserved? ==> w.active)
    && AllAbove(Held(w.pc), w.lb)
    && (w.pc.Popping? ==> AllAbove(w.queue, w.lb))
    && StackOk(w.pc, w.lb)
  }

  // ---------------------------------------------------------------- states

  datatype State = State(
    workers: seq<Worker>,
    idle: seq<int>,
    upper: Ext,
    numerical: Ext,
    nextId: nat,
    open: set<Node>,
    abandoned: set<Node>,
    floor: Ext)

  function Total(workers: seq<Worker>): multiset<Node> {
    if workers == [] then multiset{} else Total(workers[..|workers| - 1]) + multiset(Holds(workers[|workers| - 1]))
  }

  predicate DistinctInts(s: seq<int>) {
    forall i, j | 0 <= i < j < |s| :: s[i] != s[j]
  }

  predicate LaunchOk(s: State, w: int)
    requires 0 <= w < |s.workers|
  {
    s.workers[w].pc.Launch? ==>
      var v := s.workers[w].pc.target;
      0 <= v < |s.workers| && v != w && s.workers[v].pc.Reserved?
      && (s.workers[w].pc.stage.Taken? || s.workers[w].pc.stage.Announced? || s.workers[v].active)
      && (s.workers[w].pc.stage == Stolen(true) || s.workers[w].pc.stage == Rebound(true) || s.workers[v].queue == [])
  }

  predicate SameTarget(a: Pc, b: Pc) {
    a.Launch? && b.Launch? && a.target == b.target
  }

  /** Idle ids are distinct and name exactly the idle workers; a reserved worker has one launcher. */
  predicate PoolOk(s: State) {
    && DistinctInts(s.idle)
    && (forall w | w in s.idle :: 0 <= w < |s.workers|)
    && (forall w | 0 <= w < |s.workers| :: w in s.idle <==> s.workers[w].pc.Idle?)
    && (forall w | 0 <= w < |s.workers| :: LaunchOk(s, w))
    && (forall w, u | 0 <= w < |s.workers| && 0 <= u < |s.workers| && w != u :: !SameTarget(s.workers[w].pc, s.workers[u].pc))
  }

  ghost predicate NodesOk(s: State, m: Problem) {
    && (forall n | n in s.open || n in s.abandoned :: n.id < s.nextId && Le(m.rootBound, n.bound))
    && (forall n, k | n in s.open && k in s.open && n.id == k.id :: n == k)
    && (forall n | n in s.abandoned :: Le(s.numerical, n.bound))
  }

  ghost predicate UpperOk(m: Problem, upper: Ext) {
    upper == PosInf || (upper.Fin? && OnLattice(m.lattice, upper.v))
  }

  /** The value a node is being solved against is an earlier upper bound. */
  ghost predicate CutoffOk(m: Problem, upper: Ext, pc: Pc) {
    pc.Solving? ==> UpperOk(m, pc.cutoff) && Le(upper, pc.cutoff)
  }

  ghost predicate OpenAt(open: set<Node>, x: seq<real>) {
    exists n :: n in open && Contains(n.box, x)
  }

  /** Every feasible point is still open, abandoned, or not better than the upper bound. */
  ghost predicate Covered(m: Problem, s: State) {
    forall x: seq<real> | m.feasible(x) ::
      OpenAt(s.open, x) || OpenAt(s.abandoned, x) || Le(s.upper, Fin(m.objective(x)))
  }

  /** Every feasible point is still open, or not better than the bound at which its leaf closed. */
  ghost predicate FloorHolds(m: Problem, s: State) {
    forall x: seq<real> | m.feasible(x) :: OpenAt(s.open, x) || Le(s.floor, Fin(m.objective(x)))
  }

  ghost predicate Valid(m: Problem, s: State) {
    forall n | n in s.open || n in s.abandoned :: BoundHolds(m, n)
  }

  ghost predicate Inv(m: Problem, s: State) {
    && (forall w | 0 <= w < |s.workers| :: WorkerOk(s.workers[w]) && CutoffOk(m, s.upper, s.workers[w].pc))
    && Total(s.workers) == multiset(s.open)
    && PoolOk(s) && NodesOk(s, m) && UpperOk(m, s.upper)
    && Valid(m, s) && Covered(m, s) && FloorHolds(m, s)
  }

  // ---------------------------------------------------------------- steps

  datatype Move =
    | Announce(w: int)
    | PopBest(w: int, k: int)
    | SetStart(w: int)
    | CheckStart(w: int)
    | Take(w: int)
    | SetHand(w: int)
    | CheckHand(w: int)
    | Limit(w: int)
    | Solved(w: int, r: Lp)
    | Evict(w: int)
    | Place(w: int)
    | Stop(w: int)
    | FlushOne(w: int)
    | EndPlunge(w: int)
    | Continue(w: int)
    | Steal(w: int, victim: int, count: int, stolen: seq<Node>, left: seq<Node>)
    | Finish(w: int)
    | LaunchTake(w: int)
    | LaunchAnnounce(w: int)
    | LaunchActivate(w: int)
    | LaunchSteal(w: int, k: int)
    | LaunchRebound(w: int)
    | LaunchEnd(w: int)
    | Heuristic(point: seq<real>)

  function Without(s: seq<Node>, k: int): seq<Node> {
    if 0 <= k < |s| then s[..k] + s[k + 1..] else s
  }

  predicate LeastAt(s: seq<Node>, k: int) {
    0 <= k < |s| && AllAbove(s, s[k].bound)
  }

  predicate IsWorker(s: State, w: int) {
    0 <= w < |s.workers|
  }

  ghost predicate Enabled(m: Problem, s: State, mv: Move) {
    match mv
    case Heuristic(x) => m.feasible(x)
    case Announce(w) => IsWorker(s, w) && s.workers[w].pc.Ready? && s.workers[w].queue != []
    case PopBest(w, k) => IsWorker(s, w) && s.workers[w].pc.Popping? && (s.workers[w].queue == [] || LeastAt(s.workers[w].queue, k))
    case SetStart(w) => IsWorker(s, w) && s.workers[w].pc.Popped?
    case CheckStart(w) => IsWorker(s, w) && s.workers[w].pc.Checking?
    case Take(w) => IsWorker(s, w) && s.workers[w].pc.Plunge? && s.workers[w].pc.stack != []
    case SetHand(w) => IsWorker(s, w) && s.workers[w].pc.InHand?
    case CheckHand(w) => IsWorker(s, w) && s.workers[w].pc.Bounded?
    case Limit(w) => IsWorker(s, w) && s.workers[w].pc.Bounded?
    case Solved(w, r) => IsWorker(s, w) && s.workers[w].pc.Solving? && LpOk(m, s.workers[w].pc.node, s.workers[w].pc.cutoff, r)
    case Evict(w) => IsWorker(s, w) && s.workers[w].pc.Branched?
    case Place(w) => IsWorker(s, w) && s.workers[w].pc.Placing?
    case Stop(w) => IsWorker(s, w) && s.workers[w].pc.Plunge?
    case FlushOne(w) => IsWorker(s, w) && s.workers[w].pc.Flush? && s.workers[w].pc.stack != []
    case EndPlunge(w) => IsWorker(s, w) && s.workers[w].pc.Flush? && s.workers[w].pc.stack == []
    case Continue(w) => IsWorker(s, w) && s.workers[w].pc.AfterPlunge?
    case Steal(w, v, count, stolen, left) =>
      && IsWorker(s, w) && IsWorker(s, v) && w != v && s.workers[w].pc.AfterPlunge? && count >= 1 && |stolen| == NodeQueue.StealCount(|s.workers[v].queue|, count)
      && multiset(stolen) + multiset(left) == multiset(s.workers[v].queue)
      && forall n, k | n in stolen && k in left :: Le(n.bound, k.bound)
    case Finish(w) => IsWorker(s, w) && (s.workers[w].pc.Ready? || s.workers[w].pc.AfterPlunge?)
    case LaunchTake(w) => IsWorker(s, w) && s.workers[w].pc.Plunge? && s.workers[w].queue != [] && s.idle != []
    case LaunchAnnounce(w) => IsWorker(s, w) && s.workers[w].pc.Launch? && s.workers[w].pc.stage.Taken?
    case LaunchActivate(w) => IsWorker(s, w) && s.workers[w].pc.Launch? && s.workers[w].pc.stage.Announced?
    case LaunchSteal(w, k) =>
      && IsWorker(s, w) && s.workers[w].pc.Launch? && s.workers[w].pc.stage.Activated?
      && (s.workers[w].queue == [] || LeastAt(s.workers[w].queue, k))
    case LaunchRebound(w) => IsWorker(s, w) && s.workers[w].pc.Launch? && s.workers[w].pc.stage.Stolen?
    case LaunchEnd(w) => IsWorker(s, w) && s.workers[w].pc.Launch? && s.workers[w].pc.stage.Rebound?
  }

  function Put(s: State, w: int, wk: Worker): State {
    if IsWorker(s, w) then s.(workers := s.workers[w := wk]) else s
  }

  function Goto(s: State, w: int, pc: Pc): State {
    if IsWorker(s, w) then Put(s, w, s.workers[w].(pc := pc)) else s
  }

  /** Node `n` leaves the search: its leaf closes at bound `b`. */
  function CloseNode(s: State, n: Node, b: Ext): State {
    s.(open := s.open - {n}, floor := Min(s.floor, b))
  }

  function SolvedState(m: Problem, s: State, w: int, r: Lp): State
    requires IsWorker(s, w) && s.workers[w].pc.Solving?
  {
    var n, rest := s.workers[w].pc.node, s.workers[w].pc.rest;
    match r
    case Unbounded => Goto(CloseNode(s, n, PosInf), w, Plunge(rest))
    case AboveCutoff(_) => Goto(CloseNode(s, n, s.upper), w, Plunge(rest))
    case Integral(value, _) =>
      Goto(CloseNode(s, n, SnappedBound(m, value)).(upper := Min(s.upper, Fin(value))), w, Plunge(rest))
    case Fractional(value, _, _, _, _, upFirst) =>
      if s.upper.Fin? && Lt(Fin(s.upper.v + m.fathomTol), SnappedBound(m, value)) then
        Goto(CloseNode(s, n, SnappedBound(m, value)), w, Plunge(rest))
      else
        var d, u := DownChild(m, n, r, s.nextId), UpChild(m, n, r, s.nextId + 1);
        Goto(s.(open := s.open - {n} + {d, u}, nextId := s.nextId + 2), w,
             if upFirst then Branched(u, d, rest) else Branched(d, u, rest))
    case NumericalTrouble =>
      Goto(CloseNode(s, n, n.bound).(numerical := Min(s.numerical, n.bound), abandoned := s.abandoned + {n}), w, Plunge(rest))
    case Interrupted => Goto(s, w, Flush([n] + rest))
  }

  function Next(m: Problem, s: State, mv: Move): State {
    match mv
    case Heuristic(x) => s.(upper := Min(s.upper, Fin(m.objective(x))))
    case _ =>
      if !IsWorker(s, mv.w) then s else NextOf(m, s, mv, mv.w, s.workers[mv.w])
  }

  function NextOf(m: Problem, s: State, mv: Move, w: int, wk: Worker): State
    requires !mv.Heuristic? && w == mv.w && IsWorker(s, w) && wk == s.workers[w]
  {
    match mv
    case Announce(_) => Put(s, w, wk.(pc := Popping, lb := MinBound(wk.queue)))
    case PopBest(_, k) =>
      if wk.queue == [] || !LeastAt(wk.queue, k) then Goto(s, w, Ready)
      else Put(s, w, wk.(pc := Popped(wk.queue[k]), queue := Without(wk.queue, k)))
    case SetStart(_) => if !wk.pc.Popped? then s else Put(s, w, wk.(pc := Checking(wk.pc.start), lb := wk.pc.start.bound))
    case CheckStart(_) =>
      if !wk.pc.Checking? then s
      else if Lt(s.upper, wk.pc.start.bound) then Goto(CloseNode(s, wk.pc.start, wk.pc.start.bound), w, Ready)
      else Goto(s, w, Plunge([wk.pc.start]))
    case Take(_) => if !wk.pc.Plunge? || wk.pc.stack == [] then s else Goto(s, w, InHand(wk.pc.stack[0], wk.pc.stack[1..]))
    case SetHand(_) => if !wk.pc.InHand? then s else Put(s, w, wk.(pc := Bounded(wk.pc.node, wk.pc.rest), lb := wk.pc.node.bound))
    case CheckHand(_) =>
      if !wk.pc.Bounded? then s
      else if Lt(s.upper, wk.pc.node.bound) then Goto(CloseNode(s, wk.pc.node, wk.pc.node.bound), w, Plunge(wk.pc.rest))
      else Goto(s, w, Solving(wk.pc.node, wk.pc.rest, s.upper))
    case Limit(_) => if !wk.pc.Bounded? then s else Goto(s, w, Flush([wk.pc.node] + wk.pc.rest))
    case Solved(_, r) => if !wk.pc.Solving? then s else SolvedState(m, s, w, r)
    case Evict(_) =>
      if !wk.pc.Branched? then s
      else if wk.pc.rest == [] then Goto(s, w, Placing(wk.pc.first, wk.pc.second))
      else Put(s, w, wk.(pc := Placing(wk.pc.first, wk.pc.second), queue := wk.queue + wk.pc.rest))
    case Place(_) =>
      if !wk.pc.Placing? then s
      else if |wk.queue| < m.minQueue then Put(s, w, wk.(pc := Plunge([wk.pc.first]), queue := wk.queue + [wk.pc.second]))
      else Goto(s, w, Plunge([wk.pc.first, wk.pc.second]))
    case Stop(_) => if !wk.pc.Plunge? then s else Goto(s, w, Flush(wk.pc.stack))
    case FlushOne(_) =>
      if !wk.pc.Flush? || wk.pc.stack == [] then s
      else Put(s, w, wk.(pc := Flush(wk.pc.stack[1..]), queue := wk.queue + [wk.pc.stack[0]]))
    case EndPlunge(_) => Put(s, w, wk.(pc := AfterPlunge, lb := PosInf))
    case Continue(_) => Goto(s, w, Ready)
    case Steal(_, v, _, stolen, left) =>
      if !IsWorker(s, v) then s
      else Put(Put(s, v, s.workers[v].(queue := left)), w, wk.(pc := Ready, queue := wk.queue + stolen))
    case Finish(_) =>
      if wk.queue == [] then Put(s, w, wk.(pc := Idle, active := false)).(idle := s.idle + [w]) else Goto(s, w, Stopped)
    case LaunchTake(_) =>
      if !wk.pc.Plunge? || s.idle == [] then s
      else Goto(Goto(s, s.idle[0], Reserved), w, Launch(s.idle[0], Taken, wk.pc.stack)).(idle := s.idle[1..])
    case LaunchAnnounce(_) => if !wk.pc.Launch? then s else LaunchPut(s, w, wk.pc.target, wk.pc, Announced, MinBound(wk.queue), false)
    case LaunchActivate(_) => if !wk.pc.Launch? then s else LaunchPut(s, w, wk.pc.target, wk.pc, Activated, PosInf, true)
    case LaunchSteal(_, k) =>
      if !wk.pc.Launch? || !IsWorker(s, wk.pc.target) then s
      else if !LeastAt(wk.queue, k) then Goto(s, w, wk.pc.(stage := Stolen(false)))
      else
        var v := wk.pc.target;
        Put(Put(s, v, s.workers[v].(queue := s.workers[v].queue + [wk.queue[k]])), w,
            wk.(pc := wk.pc.(stage := Stolen(true)), queue := Without(wk.queue, k)))
    case LaunchRebound(_) =>
      if !wk.pc.Launch? || !wk.pc.stage.Stolen? || !IsWorker(s, wk.pc.target) then s
      else LaunchPut(s, w, wk.pc.target, wk.pc, Rebound(wk.pc.stage.ok), MinBound(s.workers[wk.pc.target].queue), false)
    case LaunchEnd(_) =>
      if !wk.pc.Launch? || !wk.pc.stage.Rebound? || !IsWorker(s, wk.pc.target) then s
      else
        var v := wk.pc.target;
        if wk.pc.stage.ok then Goto(Goto(s, v, Ready), w, Plunge(wk.pc.stack))
        else Goto(Put(s, v, s.workers[v].(pc := Idle, active := false)), w, Plunge(wk.pc.stack)).(idle := s.idle + [v])
  }

  /** A stage of a launch: announce a bound for the target, or activate it. */
  function LaunchPut(s: State, w: int, v: int, pc: Pc, stage: LaunchStage, lb: Ext, activate: bool): State
    requires pc.Launch?
  {
    if !IsWorker(s, v) then s
    else
      var t := s.workers[v];
      Goto(Put(s, v, if activate then t.(active := true) else t.(lb := lb)), w, pc.(stage := stage))
  }

  // ---------------------------------------------------------------- the reported bound

  /** The smallest of the bounds of the active workers and their queues. */
  function ActiveBound(workers: seq<Worker>): Ext {
    if workers == [] then PosInf
    else
      var w := workers[|workers| - 1];
      var rest := ActiveBound(workers[..|workers| - 1]);
      if w.active then Min(Min(rest, w.lb), MinBound(w.queue)) else rest
  }

  /** The global lower bound, read at one moment. */
  function GlobalBound(m: Problem, s: State): Ext {
    var b := Min(s.numerical, ActiveBound(s.workers));
    if b.Fin? then b else if m.rootBound.Fin? then m.rootBound else NegInf
  }

  // ---------------------------------------------------------------- runs

  /** The first worker starts with the two children of the root; the others are idle. */
  function Start(workers: nat, upper: Ext, down: Node, up: Node): State
    requires workers >= 1
  {
    State([Worker(Ready, MinBound([down, up]), true, [down, up])] + seq(workers - 1, _ => Worker(Idle, NegInf, false, [])),
          seq(workers - 1, i => i + 1), upper, PosInf, 3, {down, up}, {}, PosInf)
  }

  function Run(m: Problem, s: State, moves: seq<Move>): State {
    if moves == [] then s else Next(m, Run(m, s, moves[..|moves| - 1]), moves[|moves| - 1])
  }

  ghost predicate IsRun(m: Problem, s: State, moves: seq<Move>) {
    moves == [] || (IsRun(m, s, moves[..|moves| - 1]) && Enabled(m, Run(m, s, moves[..|moves| - 1]), moves[|moves| - 1]))
  }
}
