/** The branch-and-bound tree: closing leaves, closing their ancestors, and freeing what is closed. */
module BranchTree {
  import opened Extended
  import opened BranchPath

  datatype Status = Pending | IntegerFeasible | Infeasible | Fathomed | HasChildren | Numerical

  predicate Inactive(s: Status) {
    s.Fathomed? || s.IntegerFeasible? || s.Infeasible? || s.Numerical?
  }

  /** The null child and the null parent. */
  const NULL: int := -1

  datatype Node = Node(status: Status, bound: Ext, parent: int, down: int, up: int, step: Step)

  type Nodes = map<int, Node>

  // ---------------------------------------------------------------- the history of the tree

  /** Everything ever created: parents by id, the children of branched nodes, the bounds at which leaves closed. */
  datatype History = History(parents: seq<int>, branches: map<int, (int, int)>, closed: map<int, Ext>)

  ghost predicate HistoryOk(h: History) {
    && |h.parents| >= 1 && h.parents[0] == NULL
    && (forall id | 0 < id < |h.parents| :: ParentOk(h, id))
    && (forall p | p in h.branches :: ChildrenOk(h, p))
    && (forall p | p in h.closed :: 0 <= p < |h.parents| && p !in h.branches)
  }

  ghost predicate ParentOk(h: History, id: int)
    requires 0 < id < |h.parents|
  {
    var p := h.parents[id];
    0 <= p < id && p in h.branches && (h.branches[p].0 == id || h.branches[p].1 == id)
  }

  ghost predicate ChildrenOk(h: History, p: int)
    requires p in h.branches
  {
    var (l, r) := h.branches[p];
    0 <= p < l < |h.parents| && p < r < |h.parents| && l != r && h.parents[l] == p == h.parents[r]
  }

  ghost predicate Open(h: History, id: int) {
    0 <= id < |h.parents| && id !in h.branches && id !in h.closed
  }

  predicate Branched(h: History, id: int) {
    id in h.branches && 0 <= id < h.branches[id].0 < |h.parents| && id < h.branches[id].1 < |h.parents|
  }

  /** Every leaf at or below `id` is closed. */
  ghost predicate AllClosed(h: History, id: int)
    decreases |h.parents| - id
  {
    if Branched(h, id) then AllClosed(h, h.branches[id].0) && AllClosed(h, h.branches[id].1) else id in h.closed
  }

  /** The smallest bound at which a leaf at or below `id` closed. */
  ghost function MinClosed(h: History, id: int): Ext
    decreases |h.parents| - id
  {
    if Branched(h, id) then Min(MinClosed(h, h.branches[id].0), MinClosed(h, h.branches[id].1))
    else if id in h.closed then h.closed[id] else PosInf
  }

  /** `leaf` is reached from `id` by going to children. */
  ghost predicate Below(h: History, id: int, leaf: int)
    decreases |h.parents| - id
  {
    leaf == id || (Branched(h, id) && (Below(h, h.branches[id].0, leaf) || Below(h, h.branches[id].1, leaf)))
  }

  /** `MinClosed` is the minimum over the leaves below: no leaf closed lower, and some leaf closed there. */
  lemma {:induction false} MinClosedIsMinimum(h: History, id: int) returns (leaf: int)
    requires HistoryOk(h) && AllClosed(h, id)
    ensures Below(h, id, leaf) && leaf in h.closed && h.closed[leaf] == MinClosed(h, id)
    ensures forall l | Below(h, id, l) && l in h.closed :: Le(MinClosed(h, id), h.closed[l])
    decreases |h.parents| - id
  {
    if Branched(h, id) {
      var a := MinClosedIsMinimum(h, h.branches[id].0);
      var b := MinClosedIsMinimum(h, h.branches[id].1);
      leaf := if Le(MinClosed(h, h.branches[id].0), MinClosed(h, h.branches[id].1)) then a else b;
      forall l | Below(h, id, l) && l in h.closed
        ensures Le(MinClosed(h, id), h.closed[l])
      {
        assert id in h.branches && id !in h.closed;
      }
    } else {
      leaf := id;
    }
  }

  lemma {:induction false} BranchedIff(h: History, id: int)
    requires HistoryOk(h)
    ensures Branched(h, id) <==> id in h.branches
  {
    if id in h.branches { assert ChildrenOk(h, id); }
  }

  /** Nothing below a closed node is open. */
  lemma {:induction false} ClosedHasNoOpen(h: History, id: int, leaf: int)
    requires HistoryOk(h) && AllClosed(h, id) && Below(h, id, leaf)
    ensures !Open(h, leaf)
    decreases |h.parents| - id
  {
    if Branched(h, id) && leaf != id {
      if Below(h, h.branches[id].0, leaf) {
        ClosedHasNoOpen(h, h.branches[id].0, leaf);
      } else {
        ClosedHasNoOpen(h, h.branches[id].1, leaf);
      }
    }
  }

  /** A history with more branchings and closings. */
  ghost predicate Later(h: History, h': History) {
    && h.parents <= h'.parents
    && (forall p | p in h.branches :: p in h'.branches && h'.branches[p] == h.branches[p])
    && (forall p | p in h.closed :: p in h'.closed && h'.closed[p] == h.closed[p])
  }

  /** What is closed stays closed, at the same bound. */
  lemma {:induction false} ClosedStays(h: History, h': History, id: int)
    requires HistoryOk(h) && HistoryOk(h') && Later(h, h') && AllClosed(h, id)
    ensures AllClosed(h', id) && MinClosed(h', id) == MinClosed(h, id)
    decreases |h.parents| - id
  {
    BranchedIff(h, id);
    BranchedIff(h', id);
    if Branched(h, id) {
      ClosedStays(h, h', h.branches[id].0);
      ClosedStays(h, h', h.branches[id].1);
    }
  }

  // ---------------------------------------------------------------- links and statuses

  ghost predicate LinkOk(nodes: Nodes, h: History, id: int)
    requires id in nodes
  {
    var n := nodes[id];
    && 0 <= id < |h.parents| && n.parent == h.parents[id]
    && (id > 0 ==> n.parent in nodes && (nodes[n.parent].down == id || nodes[n.parent].up == id))
    && ((n.down == NULL && n.up == NULL)
        || (id in h.branches && h.branches[id] == (n.down, n.up) && n.down in nodes && n.up in nodes))
  }

  ghost predicate Linked(nodes: Nodes, h: History) {
    HistoryOk(h) && 0 in nodes && forall id | id in nodes :: LinkOk(nodes, h, id)
  }

  predicate HasLinks(nodes: Nodes, id: int)
    requires id in nodes
  {
    nodes[id].down != NULL
  }

  predicate BothInactive(nodes: Nodes, id: int)
    requires id in nodes
  {
    && nodes[id].down in nodes && Inactive(nodes[nodes[id].down].status)
    && nodes[id].up in nodes && Inactive(nodes[nodes[id].up].status)
  }

  /** Closed nodes have no children left and carry the smallest closing bound below them; the others are open or branched. */
  ghost predicate NodeOk(nodes: Nodes, h: History, id: int)
    requires id in nodes
  {
    if Inactive(nodes[id].status) then !HasLinks(nodes, id) && AllClosed(h, id) && nodes[id].bound == MinClosed(h, id)
    else !HasLinks(nodes, id) ==> Open(h, id)
  }

  /** Freed nodes hang below a node that is freed or closed. */
  ghost predicate FreedOk(nodes: Nodes, h: History) {
    forall id | 0 < id < |h.parents| && id !in nodes ::
      h.parents[id] !in nodes || Inactive(nodes[h.parents[id]].status)
  }

  ghost predicate ValidTree(nodes: Nodes, h: History) {
    && Linked(nodes, h) && FreedOk(nodes, h)
    && forall id | id in nodes :: NodeOk(nodes, h, id) && !BothInactive(nodes, id)
  }

  // ---------------------------------------------------------------- what a valid tree says about open nodes

  /** An active node has an open node below it. */
  lemma {:induction false} ActiveNotClosed(nodes: Nodes, h: History, id: int)
    requires ValidTree(nodes, h) && id in nodes && !Inactive(nodes[id].status)
    ensures !AllClosed(h, id)
    decreases |h.parents| - id
  {
    assert LinkOk(nodes, h, id) && NodeOk(nodes, h, id) && !BothInactive(nodes, id);
    BranchedIff(h, id);
    if HasLinks(nodes, id) {
      var n := nodes[id];
      assert n.down in nodes && n.up in nodes;
      if !Inactive(nodes[n.down].status) {
        ActiveNotClosed(nodes, h, n.down);
      } else {
        ActiveNotClosed(nodes, h, n.up);
      }
    }
  }

  /** Statuses and closedness agree on the nodes that are still there. */
  lemma {:induction false} InactiveIffClosed(nodes: Nodes, h: History, id: int)
    requires ValidTree(nodes, h) && id in nodes
    ensures Inactive(nodes[id].status) <==> AllClosed(h, id)
    ensures Inactive(nodes[id].status) ==> nodes[id].bound == MinClosed(h, id)
  {
    assert NodeOk(nodes, h, id);
    if !Inactive(nodes[id].status) { ActiveNotClosed(nodes, h, id); }
  }

  lemma {:induction false} ChildClosed(h: History, id: int)
    requires HistoryOk(h) && 0 < id < |h.parents| && AllClosed(h, h.parents[id])
    ensures AllClosed(h, id)
  {
    assert ParentOk(h, id);
    BranchedIff(h, h.parents[id]);
  }

  /** Only closed nodes were ever freed, so an open node and all its ancestors are still there. */
  lemma {:induction false} FreedIsClosed(nodes: Nodes, h: History, id: int)
    requires ValidTree(nodes, h) && 0 <= id < |h.parents| && id !in nodes
    ensures AllClosed(h, id)
    decreases id
  {
    assert ParentOk(h, id);
    var p := h.parents[id];
    if p in nodes {
      InactiveIffClosed(nodes, h, p);
    } else {
      FreedIsClosed(nodes, h, p);
    }
    ChildClosed(h, id);
  }

  /** A closed root: the whole tree is explored, and the root carries the minimum over all leaves. */
  lemma {:induction false} ClosedRoot(nodes: Nodes, h: History, leaf: int)
    requires ValidTree(nodes, h) && Inactive(nodes[0].status) && 0 <= leaf < |h.parents|
    ensures !Open(h, leaf) && (leaf in h.closed ==> Le(nodes[0].bound, h.closed[leaf]))
  {
    InactiveIffClosed(nodes, h, 0);
    BelowRoot(h, leaf);
    ClosedHasNoOpen(h, 0, leaf);
    var least := MinClosedIsMinimum(h, 0);
  }

  lemma {:induction false} BelowRoot(h: History, id: int)
    requires HistoryOk(h) && 0 <= id < |h.parents|
    ensures Below(h, 0, id)
    decreases id
  {
    if id > 0 {
      assert ParentOk(h, id);
      BelowRoot(h, h.parents[id]);
      BranchedIff(h, h.parents[id]);
      BelowChild(h, 0, h.parents[id], id);
    }
  }

  lemma {:induction false} BelowChild(h: History, top: int, id: int, child: int)
    requires HistoryOk(h) && Below(h, top, id) && Branched(h, id)
    requires child == h.branches[id].0 || child == h.branches[id].1
    ensures Below(h, top, child)
    decreases |h.parents| - top
  {
    if top == id {
      assert Below(h, child, child);
    } else if Below(h, h.branches[top].0, id) {
      BelowChild(h, h.branches[top].0, id, child);
    } else {
      BelowChild(h, h.branches[top].1, id, child);
    }
  }

  // ---------------------------------------------------------------- paths

  function Path(nodes: Nodes, id: int): seq<Step> {
    if id !in nodes || !(0 <= nodes[id].parent < id) then [] else [nodes[id].step] + Path(nodes, nodes[id].parent)
  }

  ghost predicate PathsNested(nodes: Nodes, start: Box) {
    forall id | id in nodes :: Nested(Path(nodes, id), start)
  }

  /** Changes that keep parents and steps keep paths. */
  lemma {:induction false} SamePath(nodes: Nodes, nodes': Nodes, id: int)
    requires forall i | i in nodes' :: i in nodes && nodes'[i].parent == nodes[i].parent && nodes'[i].step == nodes[i].step
    requires forall i | i in nodes' && 0 <= nodes'[i].parent < i :: nodes'[i].parent in nodes'
    requires id in nodes'
    ensures Path(nodes', id) == Path(nodes, id)
  {
    if 0 <= nodes'[id].parent < id { SamePath(nodes, nodes', nodes'[id].parent); }
  }

  // ---------------------------------------------------------------- closing a leaf and climbing

  /** The test on a node all of whose children the source may look at. */
  predicate IsInactive(nodes: Nodes, id: int)
    requires id in nodes
  {
    var n := nodes[id];
    || Inactive(n.status)
    || (n.down in nodes && Inactive(nodes[n.down].status) && n.up in nodes && Inactive(nodes[n.up].status))
    || (n.down !in nodes && n.up in nodes && Inactive(nodes[n.up].status))
    || (n.up !in nodes && n.down in nodes && Inactive(nodes[n.down].status))
  }

  /** The bound after looking at the children. */
  function UpdatedBound(nodes: Nodes, id: int): Ext
    requires id in nodes
  {
    var n := nodes[id];
    if n.down in nodes && n.up in nodes then
      if Inactive(nodes[n.down].status) && Inactive(nodes[n.up].status)
      then Min(nodes[n.down].bound, nodes[n.up].bound) else n.bound
    else if n.down in nodes then if Inactive(nodes[n.down].status) then nodes[n.down].bound else n.bound
    else if n.up in nodes then if Inactive(nodes[n.up].status) then nodes[n.up].bound else n.bound
    else n.bound
  }

  function ParentOf(nodes: Nodes, id: int): int {
    if id in nodes then nodes[id].parent else NULL
  }

  function Top(stack: seq<int>): int {
    if stack == [] then NULL else stack[|stack| - 1]
  }

  /** A stack entry: closed, with the right bound, and below a closed or still unvisited parent. */
  ghost predicate Entry(nodes: Nodes, h: History, stack: seq<int>, k: int)
    requires 0 <= k < |stack|
  {
    && stack[k] in nodes && Inactive(nodes[stack[k]].status)
    && AllClosed(h, stack[k]) && nodes[stack[k]].bound == MinClosed(h, stack[k])
    && (if k == 0 then !HasLinks(nodes, stack[0])
        else BothInactive(nodes, stack[k]) && ParentOf(nodes, stack[k - 1]) == stack[k] && stack[k] < stack[k - 1])
  }

  ghost predicate Entries(nodes: Nodes, h: History, stack: seq<int>) {
    stack != [] && forall k | 0 <= k < |stack| :: Entry(nodes, h, stack, k)
  }

  /** The tree while the statuses climb: only the parent of the last entry may have two closed children. */
  ghost predicate Climbing(nodes: Nodes, h: History, stack: seq<int>) {
    && Linked(nodes, h) && FreedOk(nodes, h) && Entries(nodes, h, stack)
    && forall id | id in nodes && id !in stack ::
         NodeOk(nodes, h, id) && (id != ParentOf(nodes, Top(stack)) ==> !BothInactive(nodes, id))
  }

  lemma {:induction false} StackDescends(nodes: Nodes, h: History, stack: seq<int>, k: int, l: int)
    requires Entries(nodes, h, stack) && 0 <= k < l < |stack|
    ensures stack[l] < stack[k]
    decreases l - k
  {
    assert Entry(nodes, h, stack, l);
    if k < l - 1 { StackDescends(nodes, h, stack, k, l - 1); }
  }

  lemma {:induction false} ParentNotOnStack(nodes: Nodes, h: History, stack: seq<int>)
    requires Climbing(nodes, h, stack) && ParentOf(nodes, Top(stack)) != NULL
    ensures Top(stack) in nodes
    ensures var p := ParentOf(nodes, Top(stack));
            && p in nodes && p !in stack && 0 <= p < Top(stack) && HasLinks(nodes, p) && !Inactive(nodes[p].status)
            && (nodes[p].down == Top(stack) || nodes[p].up == Top(stack))
  {
    hide AllClosed, MinClosed, HistoryOk, FreedOk, Linked, BothInactive;
    var top := Top(stack);
    EntryOf(nodes, h, stack, |stack| - 1);
    UpLink(nodes, h, top);
    var p := nodes[top].parent;
    forall k | 0 <= k < |stack|
      ensures stack[k] != p
    {
      if k < |stack| - 1 { StackDescends(nodes, h, stack, k, |stack| - 1); }
    }
    assert NodeOk(nodes, h, p);
  }

  lemma {:induction false} UpLink(nodes: Nodes, h: History, id: int)
    requires Linked(nodes, h) && id in nodes && nodes[id].parent != NULL
    ensures var p := nodes[id].parent;
            p in nodes && 0 <= p < id && HasLinks(nodes, p) && (nodes[p].down == id || nodes[p].up == id)
  {
    LinkOf(nodes, h, id);
    assert h.parents[0] == NULL;
    assert ParentOk(h, id);
    ParentNotChild(nodes, h, nodes[id].parent);
    NoNull(nodes, h);
  }

  /** Only statuses and bounds differ. */
  predicate SameLinks(nodes: Nodes, nodes': Nodes) {
    && nodes'.Keys == nodes.Keys
    && forall id | id in nodes ::
         nodes'[id].parent == nodes[id].parent && nodes'[id].down == nodes[id].down && nodes'[id].up == nodes[id].up
         && nodes'[id].step == nodes[id].step
  }

  lemma {:induction false} LinkedSame(nodes: Nodes, nodes': Nodes, h: History)
    requires Linked(nodes, h) && SameLinks(nodes, nodes')
    ensures Linked(nodes', h)
  {
    hide HistoryOk;
    forall id | id in nodes' ensures LinkOk(nodes', h, id) { assert LinkOk(nodes, h, id); }
  }

  /** The next node with its children closed and its new status. */
  function Climbed(nodes: Nodes, p: int): Nodes
    requires p in nodes
  {
    nodes[p := nodes[p].(status := Fathomed, bound := UpdatedBound(nodes, p))]
  }

  lemma {:induction false} ClimbedEntries(nodes: Nodes, h: History, stack: seq<int>, p: int)
    requires Climbing(nodes, h, stack) && p == ParentOf(nodes, Top(stack)) != NULL && p in nodes && p !in stack && p < Top(stack)
    requires BothInactive(nodes, p) && AllClosed(h, p) && UpdatedBound(nodes, p) == MinClosed(h, p)
    requires nodes[p].down != p && nodes[p].up != p
    ensures Entries(Climbed(nodes, p), h, stack + [p])
  {
    hide AllClosed, MinClosed, HistoryOk, Linked, FreedOk, UpdatedBound;
    forall k | 0 <= k < |stack + [p]|
      ensures Entry(Climbed(nodes, p), h, stack + [p], k)
    {
      if k < |stack| { assert Entry(nodes, h, stack, k); }
    }
  }

  /** One more level: the parent has two closed children, so it is closed at the smaller of their bounds. */
  lemma {:induction false} ClimbStep(nodes: Nodes, h: History, stack: seq<int>, p: int)
    requires Climbing(nodes, h, stack) && p == ParentOf(nodes, Top(stack)) != NULL && p in nodes && IsInactive(nodes, p)
    ensures Climbing(Climbed(nodes, p), h, stack + [p])
  {
    hide AllClosed, MinClosed, HistoryOk, Open, Entries;
    ParentNotOnStack(nodes, h, stack);
    assert LinkOk(nodes, h, p);
    var n := nodes[p];
    ParentNotChild(nodes, h, p);
    assert BothInactive(nodes, p);
    ChildBoundOk(nodes, h, stack, n.down);
    ChildBoundOk(nodes, h, stack, n.up);
    ClosedFromChildren(h, p);
    ClimbedEntries(nodes, h, stack, p);
    LinkedSame(nodes, Climbed(nodes, p), h);
    ClimbedOthers(nodes, h, stack, p);
    ClimbFreed(nodes, Climbed(nodes, p), h, p);
  }

  lemma {:induction false} ClimbedOthers(nodes: Nodes, h: History, stack: seq<int>, p: int)
    requires Climbing(nodes, h, stack) && p == ParentOf(nodes, Top(stack)) != NULL && p in nodes
    ensures forall id | id in nodes && id !in stack + [p] ::
              NodeOk(Climbed(nodes, p), h, id) && (id != nodes[p].parent ==> !BothInactive(Climbed(nodes, p), id))
  {
    hide AllClosed, MinClosed, HistoryOk, Open, Entries, FreedOk, UpdatedBound;
    forall id | id in nodes && id !in stack + [p]
      ensures NodeOk(Climbed(nodes, p), h, id) && (id != nodes[p].parent ==> !BothInactive(Climbed(nodes, p), id))
    {
      assert id !in stack && id != p && NodeOk(nodes, h, id);
      if id != nodes[p].parent { OtherParent(nodes, h, p, id); }
    }
  }

  lemma {:induction false} ClimbFreed(nodes: Nodes, nodes': Nodes, h: History, p: int)
    requires FreedOk(nodes, h) && p in nodes && nodes'.Keys == nodes.Keys
    requires forall id | id in nodes && id != p :: nodes'[id] == nodes[id]
    requires Inactive(nodes'[p].status)
    ensures FreedOk(nodes', h)
  {
  }

  /** Only the parent of `p` sees the new status of `p`. */
  lemma {:induction false} OtherParent(nodes: Nodes, h: History, p: int, id: int)
    requires Linked(nodes, h) && p in nodes && id in nodes && id != nodes[p].parent && id != p
    ensures nodes[id].down != p && nodes[id].up != p
  {
    assert LinkOk(nodes, h, id) && LinkOk(nodes, h, p);
    if HasLinks(nodes, id) { assert ChildrenOk(h, id); }
  }

  lemma {:induction false} ParentNotChild(nodes: Nodes, h: History, p: int)
    requires Linked(nodes, h) && p in nodes
    ensures NULL !in nodes && nodes[p].down != p && nodes[p].up != p
    ensures HasLinks(nodes, p) <==> nodes[p].up != NULL
    ensures HasLinks(nodes, p) ==> nodes[p].down != nodes[p].up
  {
    forall id | id in nodes ensures id >= 0 { assert LinkOk(nodes, h, id); }
    assert LinkOk(nodes, h, p);
    if HasLinks(nodes, p) { assert ChildrenOk(h, p); }
  }

  lemma {:induction false} ClosedFromChildren(h: History, p: int)
    requires HistoryOk(h) && p in h.branches && AllClosed(h, h.branches[p].0) && AllClosed(h, h.branches[p].1)
    ensures AllClosed(h, p) && MinClosed(h, p) == Min(MinClosed(h, h.branches[p].0), MinClosed(h, h.branches[p].1))
  {
    BranchedIff(h, p);
  }

  /** A closed child of the next node carries the right bound, on the stack or off it. */
  lemma {:induction false} ChildBoundOk(nodes: Nodes, h: History, stack: seq<int>, c: int)
    requires Climbing(nodes, h, stack) && c in nodes && Inactive(nodes[c].status)
    ensures AllClosed(h, c) && nodes[c].bound == MinClosed(h, c)
  {
    hide AllClosed, MinClosed;
    if c in stack {
      var k :| 0 <= k < |stack| && stack[k] == c;
      assert Entry(nodes, h, stack, k);
    } else {
      assert NodeOk(nodes, h, c);
    }
  }

  // ---------------------------------------------------------------- freeing the children of closed nodes

  /** Free a node and everything below it. */
  function Free(nodes: Nodes, id: int): (r: Nodes)
    ensures |r| <= |nodes|
    decreases |nodes|
  {
    if id !in nodes then nodes
    else
      var rest := nodes - {id};
      assert |rest| < |nodes|;
      Free(Free(rest, nodes[id].down), nodes[id].up)
  }

  lemma {:induction false} FreeLeaf(nodes: Nodes, id: int)
    requires id in nodes && nodes[id].down == NULL == nodes[id].up && NULL !in nodes
    ensures Free(nodes, id) == nodes - {id}
  {
    assert NULL !in nodes - {id};
  }

  /** `id` was a child of one of the stack entries in `first`. */
  predicate ChildOfFirst(nodes: Nodes, first: seq<int>, id: int) {
    exists k | 0 <= k < |first| :: first[k] in nodes && (nodes[first[k]].down == id || nodes[first[k]].up == id)
  }

  /** The children of the stack entries in `first` are gone and their links cleared, everything else is as before. */
  ghost predicate Trimmed(before: Nodes, nodes: Nodes, first: seq<int>) {
    && (forall id :: id in nodes <==> id in before && !ChildOfFirst(before, first, id))
    && (forall id | id in nodes ::
          nodes[id] == if id in first then before[id].(down := NULL, up := NULL) else before[id])
  }

  /** A child of a stack entry belongs to that entry alone. */
  lemma {:induction false} OneParent(nodes: Nodes, h: History, stack: seq<int>, k: int, c: int)
    requires Climbing(nodes, h, stack) && 0 <= k < |stack| && c in nodes
    requires stack[k] in nodes && (nodes[stack[k]].down == c || nodes[stack[k]].up == c)
    ensures nodes[c].parent == stack[k] && c > stack[k] && stack[k] in h.branches
  {
    hide AllClosed, MinClosed;
    assert LinkOk(nodes, h, stack[k]) && LinkOk(nodes, h, c);
    ParentNotChild(nodes, h, stack[k]);
    assert ChildrenOk(h, stack[k]);
  }

  lemma {:induction false} EntryThere(nodes: Nodes, h: History, stack: seq<int>, k: int)
    requires Climbing(nodes, h, stack) && 0 <= k < |stack|
    ensures stack[k] in nodes && Linked(nodes, h)
  {
    hide AllClosed, MinClosed, Linked;
    assert Entry(nodes, h, stack, k);
  }

  /** The next stack entry is still there: nothing on the stack is freed before it is visited. */
  lemma {:induction false} EntryStillThere(before: Nodes, h: History, nodes: Nodes, stack: seq<int>, i: int)
    requires Climbing(before, h, stack) && 0 <= i < |stack| && Trimmed(before, nodes, stack[..i])
    ensures stack[i] in before && stack[i] in nodes && nodes[stack[i]] == before[stack[i]]
  {
    hide AllClosed, MinClosed, Linked;
    EntryThere(before, h, stack, i);
    var first := stack[..i];
    forall k | 0 <= k < |first| && first[k] in before
      ensures before[first[k]].down != stack[i] && before[first[k]].up != stack[i]
    {
      StackDescends(before, h, stack, k, i);
      if before[stack[k]].down == stack[i] || before[stack[k]].up == stack[i] {
        OneParent(before, h, stack, k, stack[i]);
      }
    }
    assert !ChildOfFirst(before, first, stack[i]);
    forall k | 0 <= k < |first| ensures first[k] != stack[i] { StackDescends(before, h, stack, k, i); }
  }

  /** A child of the entry at `i` is still there, and a leaf by now. */
  lemma {:induction false} ChildIsLeaf(before: Nodes, h: History, nodes: Nodes, stack: seq<int>, i: int, c: int)
    requires Climbing(before, h, stack) && 0 <= i < |stack| && Trimmed(before, nodes, stack[..i])
    requires stack[i] in before && HasLinks(before, stack[i]) && (c == before[stack[i]].down || c == before[stack[i]].up)
    ensures c in nodes && nodes[c].down == NULL == nodes[c].up
  {
    hide AllClosed, MinClosed, Linked;
    assert LinkOk(before, h, stack[i]) by { EntryThere(before, h, stack, i); assert Linked(before, h); LinkOf(before, h, stack[i]); }
    OneParent(before, h, stack, i, c);
    forall k | 0 <= k < i && stack[k] in before
      ensures before[stack[k]].down != c && before[stack[k]].up != c
    {
      StackDescends(before, h, stack, k, i);
      if before[stack[k]].down == c || before[stack[k]].up == c { OneParent(before, h, stack, k, c); }
    }
    assert c in nodes;
    ClosedChildIsLeaf(before, h, stack, i, c);
  }

  lemma {:induction false} LinkOf(nodes: Nodes, h: History, id: int)
    requires Linked(nodes, h) && id in nodes
    ensures LinkOk(nodes, h, id)
  {
  }

  /** The children of a stack entry are closed: the earlier entry, or a closed node without children. */
  lemma {:induction false} ClosedChildIsLeaf(nodes: Nodes, h: History, stack: seq<int>, i: int, c: int)
    requires Climbing(nodes, h, stack) && 0 <= i < |stack| && c in nodes
    requires stack[i] in nodes && HasLinks(nodes, stack[i]) && (c == nodes[stack[i]].down || c == nodes[stack[i]].up)
    ensures (c in stack[..i] && c in stack) || (c !in stack && nodes[c].down == NULL == nodes[c].up)
  {
    hide AllClosed, MinClosed;
    OneParent(nodes, h, stack, i, c);
    assert Entry(nodes, h, stack, i);
    ParentNotChild(nodes, h, c);
    if c in stack {
      var k :| 0 <= k < |stack| && stack[k] == c;
      if k > i { StackDescends(nodes, h, stack, i, k); }
      assert c == stack[..i][k];
    } else {
      assert NodeOk(nodes, h, c);
    }
  }

  /** Freeing the two children of the entry at `i` and clearing its links. */
  lemma {:induction false} TrimStep(before: Nodes, nodes: Nodes, nodes': Nodes, first: seq<int>, s: int)
    requires Trimmed(before, nodes, first) && s in nodes && s in before && nodes[s] == before[s] && NULL !in before
    requires var n := nodes[s];
             var rest := if n.down == NULL then nodes else nodes - {n.down, n.up};
             s in rest && nodes' == rest[s := n.(down := NULL, up := NULL)]
    requires nodes[s].down == NULL <==> nodes[s].up == NULL
    ensures Trimmed(before, nodes', first + [s])
  {
    var n := before[s];
    forall id
      ensures ChildOfFirst(before, first + [s], id) <==> ChildOfFirst(before, first, id) || n.down == id || n.up == id
    {
      if n.down == id || n.up == id { assert (first + [s])[|first|] == s; }
      if ChildOfFirst(before, first, id) {
        var k :| 0 <= k < |first| && first[k] in before && (before[first[k]].down == id || before[first[k]].up == id);
        assert (first + [s])[k] == first[k];
      }
    }
  }

  /** The children of all stack entries are freed; none is looked at after it was freed. */
  method RemoveFathomed(nodes: Nodes, stack: seq<int>, ghost h: History) returns (rest: Nodes)
    requires Climbing(nodes, h, stack)
    ensures Trimmed(nodes, rest, stack)
  {
    hide Climbing, Trimmed, Free, Linked;
    rest := nodes;
    TrimStart(nodes);
    for i := 0 to |stack|
      invariant Trimmed(nodes, rest, stack[..i])
    {
      EntryStillThere(nodes, h, rest, stack, i);
      EntryThere(nodes, h, stack, i);
      ParentNotChild(nodes, h, stack[i]);
      ghost var prior := rest;
      var n := rest[stack[i]];
      SubsetKeys(nodes, rest, stack[..i]);
      if n.down != NULL {
        ChildIsLeaf(nodes, h, rest, stack, i, n.down);
        ChildIsLeaf(nodes, h, rest, stack, i, n.up);
        FreeLeaf(rest, n.down);
        rest := Free(rest, n.down);
        FreeLeaf(rest, n.up);
        rest := Free(rest, n.up);
        assert rest == prior - {n.down, n.up};
      }
      rest := rest[stack[i] := n.(down := NULL, up := NULL)];
      TrimStep(nodes, prior, rest, stack[..i], stack[i]);
      assert stack[..i] + [stack[i]] == stack[..i + 1];
    }
    assert stack[..|stack|] == stack;
  }

  lemma {:induction false} TrimStart(nodes: Nodes)
    ensures Trimmed(nodes, nodes, [])
  {
  }

  lemma {:induction false} SubsetKeys(before: Nodes, nodes: Nodes, first: seq<int>)
    requires Trimmed(before, nodes, first)
    ensures forall id | id in nodes :: id in before
  {
  }

  // ---------------------------------------------------------------- what an update leaves

  lemma {:induction false} TrimmedLinked(before: Nodes, h: History, stack: seq<int>, nodes: Nodes)
    requires Climbing(before, h, stack) && Trimmed(before, nodes, stack)
    ensures Linked(nodes, h)
  {
    hide AllClosed, MinClosed, HistoryOk, FreedOk, Entries;
    RootStays(before, h, stack, nodes);
    forall id | id in nodes
      ensures LinkOk(nodes, h, id)
    {
      TrimmedLink(before, h, stack, nodes, id);
    }
  }

  lemma {:induction false} RootStays(before: Nodes, h: History, stack: seq<int>, nodes: Nodes)
    requires Climbing(before, h, stack) && Trimmed(before, nodes, stack)
    ensures 0 in nodes
  {
    hide AllClosed, MinClosed, FreedOk;
    assert LinkOk(before, h, 0);
    forall k | 0 <= k < |stack| && stack[k] in before
      ensures before[stack[k]].down != 0 && before[stack[k]].up != 0
    {
      if before[stack[k]].down == 0 || before[stack[k]].up == 0 { OneParent(before, h, stack, k, 0); }
    }
    assert !ChildOfFirst(before, stack, 0);
  }

  lemma {:induction false} StackIndex(stack: seq<int>, id: int) returns (k: int)
    requires id in stack
    ensures 0 <= k < |stack| && stack[k] == id
  {
    k :| 0 <= k < |stack| && stack[k] == id;
  }

  /** Parent and children of a node that stays are there, unless its links were cleared. */
  lemma {:induction false} TrimmedLink(before: Nodes, h: History, stack: seq<int>, nodes: Nodes, id: int)
    requires Climbing(before, h, stack) && Trimmed(before, nodes, stack) && id in nodes
    ensures LinkOk(nodes, h, id)
  {
    hide AllClosed, MinClosed, HistoryOk, FreedOk, Entries, Trimmed, ChildOfFirst, Climbing, Linked;
    TrimmedFacts(before, nodes, stack, id);
    ClimbingLinked(before, h, stack);
    LinkOf(before, h, id);
    ParentNotChild(before, h, id);
    if id > 0 {
      TrimmedParent(before, h, stack, nodes, id);
      TrimmedFacts(before, nodes, stack, before[id].parent);
    }
    if id !in stack && HasLinks(before, id) {
      TrimmedChild(before, h, stack, nodes, id, before[id].down);
      TrimmedChild(before, h, stack, nodes, id, before[id].up);
    }
  }

  lemma {:induction false} ClimbingLinked(nodes: Nodes, h: History, stack: seq<int>)
    requires Climbing(nodes, h, stack)
    ensures Linked(nodes, h)
  {
  }

  lemma {:induction false} TrimmedFacts(before: Nodes, nodes: Nodes, stack: seq<int>, id: int)
    requires Trimmed(before, nodes, stack)
    ensures id in nodes <==> id in before && !ChildOfFirst(before, stack, id)
    ensures id in nodes ==> nodes[id] == if id in stack then before[id].(down := NULL, up := NULL) else before[id]
  {
  }

  lemma {:induction false} TrimmedChild(before: Nodes, h: History, stack: seq<int>, nodes: Nodes, id: int, c: int)
    requires Climbing(before, h, stack) && Trimmed(before, nodes, stack) && id in before && id !in stack
    requires HasLinks(before, id) && (c == before[id].down || c == before[id].up)
    ensures c in nodes
  {
    hide AllClosed, MinClosed, FreedOk, Entries;
    assert LinkOk(before, h, id);
    ParentNotChild(before, h, id);
    assert ChildrenOk(h, id) && LinkOk(before, h, c);
    forall k | 0 <= k < |stack| && stack[k] in before
      ensures before[stack[k]].down != c && before[stack[k]].up != c
    {
      if before[stack[k]].down == c || before[stack[k]].up == c { OneParent(before, h, stack, k, c); }
    }
    assert !ChildOfFirst(before, stack, c);
  }

  lemma {:induction false} TrimmedParent(before: Nodes, h: History, stack: seq<int>, nodes: Nodes, id: int)
    requires Climbing(before, h, stack) && Trimmed(before, nodes, stack) && id in nodes && id > 0
    ensures id in before && before[id].parent in nodes && before[id].parent !in stack
  {
    hide AllClosed, MinClosed, FreedOk, HistoryOk, Entries;
    assert LinkOk(before, h, id);
    var p := before[id].parent;
    assert before[p].down == id || before[p].up == id;
    assert !ChildOfFirst(before, stack, id);
    forall k | 0 <= k < |stack| ensures stack[k] != p {}
    LinkOf(before, h, p);
    ParentNotChild(before, h, p);
    forall k | 0 <= k < |stack| && stack[k] in before
      ensures before[stack[k]].down != p && before[stack[k]].up != p
    {
      ParentNotChild(before, h, stack[k]);
      if before[stack[k]].down == p || before[stack[k]].up == p { ClosedChildIsLeaf(before, h, stack, k, p); }
    }
    assert !ChildOfFirst(before, stack, p);
  }

  /** The tree after the climb stopped and the closed subtrees were freed. */
  lemma {:induction false} TrimmedValid(before: Nodes, h: History, stack: seq<int>, nodes: Nodes)
    requires Climbing(before, h, stack) && Trimmed(before, nodes, stack)
    requires var p := ParentOf(before, Top(stack)); p in before ==> !BothInactive(before, p)
    ensures ValidTree(nodes, h)
  {
    hide AllClosed, MinClosed, HistoryOk, Entries, Trimmed, ChildOfFirst, Linked;
    TrimmedLinked(before, h, stack, nodes);
    forall id | id in nodes
      ensures NodeOk(nodes, h, id) && !BothInactive(nodes, id)
    {
      TrimmedFacts(before, nodes, stack, id);
      ParentNotChild(nodes, h, id);
      if id in stack {
        var k := StackIndex(stack, id);
        EntryOf(before, h, stack, k);
      } else {
        assert NodeOk(before, h, id) && !BothInactive(before, id);
        TrimmedFacts(before, nodes, stack, before[id].down);
        TrimmedFacts(before, nodes, stack, before[id].up);
      }
    }
    TrimmedFreed(before, h, stack, nodes);
  }

  lemma {:induction false} EntryOf(nodes: Nodes, h: History, stack: seq<int>, k: int)
    requires Entries(nodes, h, stack) && 0 <= k < |stack|
    ensures Entry(nodes, h, stack, k)
  {
  }

  lemma {:induction false} TrimmedFreed(before: Nodes, h: History, stack: seq<int>, nodes: Nodes)
    requires Climbing(before, h, stack) && Trimmed(before, nodes, stack)
    ensures FreedOk(nodes, h)
  {
    hide AllClosed, MinClosed, HistoryOk, Entries, Linked, Trimmed;
    forall id | 0 < id < |h.parents| && id !in nodes
      ensures h.parents[id] !in nodes || Inactive(nodes[h.parents[id]].status)
    {
      var p := h.parents[id];
      TrimmedFacts(before, nodes, stack, id);
      TrimmedFacts(before, nodes, stack, p);
      if id in before {
        assert ChildOfFirst(before, stack, id);
        var k :| 0 <= k < |stack| && stack[k] in before && (before[stack[k]].down == id || before[stack[k]].up == id);
        OneParent(before, h, stack, k, id);
        LinkOf(before, h, id);
        EntryOf(before, h, stack, k);
      }
    }
  }

  /** The leaf that closes is the first entry of the climb. */
  lemma {:induction false} CloseLeaf(nodes: Nodes, h: History, id: int, status: Status)
    requires ValidTree(nodes, h) && id in nodes && Open(h, id) && Inactive(status)
    ensures var h' := h.(closed := h.closed[id := nodes[id].bound]);
            && HistoryOk(h') && Later(h, h') && AllClosed(h', id)
            && Climbing(nodes[id := nodes[id].(status := status)], h', [id])
    ensures UpdatedBound(nodes, id) == nodes[id].bound && nodes[id].down == NULL == nodes[id].up && id >= 0
  {
    var h' := h.(closed := h.closed[id := nodes[id].bound]);
    var nodes' := nodes[id := nodes[id].(status := status)];
    InactiveIffOpen(nodes, h, id);
    LinkOf(nodes, h, id);
    ParentNotChild(nodes, h, id);
    CloseHistory(h, id, nodes[id].bound);
    CloseLeafLinks(nodes, nodes', h, h');
    hide HistoryOk, Open, Linked;
    CloseLeafFirst(nodes', h', id);
    forall i | i in nodes' && i != id
      ensures NodeOk(nodes', h', i) && (i != nodes[id].parent ==> !BothInactive(nodes', i))
    {
      CloseLeafOther(nodes, h, h', id, status, i);
    }
    hide NodeOk, LinkOk, BothInactive, Entries;
  }

  lemma {:induction false} CloseLeafLinks(nodes: Nodes, nodes': Nodes, h: History, h': History)
    requires Linked(nodes, h) && HistoryOk(h') && SameLinks(nodes, nodes')
    requires h'.parents == h.parents && h'.branches == h.branches
    ensures Linked(nodes', h')
  {
    hide HistoryOk;
    forall i | i in nodes' ensures LinkOk(nodes', h', i) { LinkOf(nodes, h, i); }
  }

  lemma {:induction false} CloseHistory(h: History, id: int, bound: Ext)
    requires HistoryOk(h) && Open(h, id)
    ensures var h' := h.(closed := h.closed[id := bound]);
            HistoryOk(h') && Later(h, h') && AllClosed(h', id) && MinClosed(h', id) == bound
  {
    var h' := h.(closed := h.closed[id := bound]);
    forall p | p in h'.branches ensures ChildrenOk(h', p) { assert ChildrenOk(h, p); }
    forall i | 0 < i < |h'.parents| ensures ParentOk(h', i) { assert ParentOk(h, i); }
    BranchedIff(h', id);
  }

  lemma {:induction false} CloseLeafFirst(nodes: Nodes, h: History, id: int)
    requires id in nodes && Inactive(nodes[id].status) && !HasLinks(nodes, id)
    requires AllClosed(h, id) && nodes[id].bound == MinClosed(h, id)
    ensures Entries(nodes, h, [id])
  {
  }

  lemma {:induction false} CloseLeafOther(nodes: Nodes, h: History, h': History, id: int, status: Status, i: int)
    requires ValidTree(nodes, h) && id in nodes && Open(h, id) && i in nodes && i != id
    requires h' == h.(closed := h.closed[id := nodes[id].bound]) && HistoryOk(h')
    ensures var nodes' := nodes[id := nodes[id].(status := status)];
            NodeOk(nodes', h', i) && (i != nodes[id].parent ==> !BothInactive(nodes', i))
  {
    hide AllClosed, MinClosed;
    assert NodeOk(nodes, h, i) && !BothInactive(nodes, i);
    if i != nodes[id].parent { OtherParent(nodes, h, id, i); }
    if Inactive(nodes[i].status) { ClosedStays(h, h', i); }
  }

  // ---------------------------------------------------------------- branching

  function AddChildren(nodes: Nodes, id: int, l: int, r: int, down: Step, up: Step): Nodes
    requires id in nodes
  {
    var n := nodes[id];
    nodes[id := n.(down := l, up := r)]
         [l := Node(Pending, n.bound, id, NULL, NULL, down)]
         [r := Node(Pending, n.bound, id, NULL, NULL, up)]
  }

  ghost function BranchHistory(h: History, id: int): History {
    History(h.parents + [id, id], h.branches[id := (|h.parents|, |h.parents| + 1)], h.closed)
  }

  lemma {:induction false} BranchHistoryOk(h: History, id: int)
    requires HistoryOk(h) && Open(h, id)
    ensures HistoryOk(BranchHistory(h, id)) && Later(h, BranchHistory(h, id))
  {
    var h' := BranchHistory(h, id);
    forall i | 0 < i < |h'.parents| ensures ParentOk(h', i) {
      if i < |h.parents| { assert ParentOk(h, i); }
    }
    forall p | p in h'.branches ensures ChildrenOk(h', p) {
      if p != id { assert ChildrenOk(h, p); }
    }
  }

  lemma {:induction false} IdsBelow(nodes: Nodes, h: History)
    requires Linked(nodes, h)
    ensures forall i | i in nodes :: 0 <= i < |h.parents|
    ensures forall p | p in h.branches ::
              p < |h.parents| && 0 <= h.branches[p].0 < |h.parents| && 0 <= h.branches[p].1 < |h.parents|
  {
    forall i | i in nodes ensures 0 <= i < |h.parents| { assert LinkOk(nodes, h, i); }
    forall p | p in h.branches
      ensures p < |h.parents| && 0 <= h.branches[p].0 < |h.parents| && 0 <= h.branches[p].1 < |h.parents|
    {
      assert ChildrenOk(h, p);
    }
  }

  /** The nodes after a branching of `id` into `l` and `l + 1`. */
  ghost predicate Grown(nodes: Nodes, nodes': Nodes, id: int, l: int, down: Step, up: Step)
    requires id in nodes
  {
    && nodes'.Keys == nodes.Keys + {l, l + 1}
    && (forall i | i in nodes && i != id :: nodes'[i] == nodes[i])
    && nodes'[id] == nodes[id].(down := l, up := l + 1)
    && nodes'[l] == Node(Pending, nodes[id].bound, id, NULL, NULL, down)
    && nodes'[l + 1] == Node(Pending, nodes[id].bound, id, NULL, NULL, up)
  }

  lemma {:induction false} FreshIds(nodes: Nodes, h: History, id: int)
    requires ValidTree(nodes, h) && id in nodes
    ensures id < |h.parents| && |h.parents| !in nodes && |h.parents| + 1 !in nodes
  {
    hide HistoryOk;
    IdsBelow(nodes, h);
  }

  lemma {:induction false} GrownHolds(nodes: Nodes, id: int, l: int, down: Step, up: Step)
    requires id in nodes && l !in nodes && l + 1 !in nodes
    ensures Grown(nodes, AddChildren(nodes, id, l, l + 1, down, up), id, l, down, up)
  {
  }

  lemma {:induction false} GrownLink(nodes: Nodes, nodes': Nodes, h: History, id: int, down: Step, up: Step, i: int)
    requires Linked(nodes, h) && id in nodes && Open(h, id) && Grown(nodes, nodes', id, |h.parents|, down, up) && i in nodes'
    requires HistoryOk(BranchHistory(h, id)) && !HasLinks(nodes, id)
    ensures LinkOk(nodes', BranchHistory(h, id), i)
  {
    hide HistoryOk;
    IdsBelow(nodes, h);
    if i in nodes {
      LinkOf(nodes, h, i);
      ParentNotChild(nodes, h, i);
      hide Linked;
    }
  }

  lemma {:induction false} GrownLinked(nodes: Nodes, nodes': Nodes, h: History, id: int, down: Step, up: Step)
    requires ValidTree(nodes, h) && id in nodes && Open(h, id) && Grown(nodes, nodes', id, |h.parents|, down, up)
    ensures Linked(nodes', BranchHistory(h, id))
  {
    BranchHistoryOk(h, id);
    InactiveIffOpen(nodes, h, id);
    hide AllClosed, MinClosed, NodeOk, HistoryOk, FreedOk, LinkOk;
    forall i | i in nodes' ensures LinkOk(nodes', BranchHistory(h, id), i) { GrownLink(nodes, nodes', h, id, down, up, i); }
  }

  lemma {:induction false} GrownNode(nodes: Nodes, nodes': Nodes, h: History, id: int, down: Step, up: Step, i: int)
    requires ValidTree(nodes, h) && id in nodes && Open(h, id) && Grown(nodes, nodes', id, |h.parents|, down, up) && i in nodes'
    ensures NodeOk(nodes', BranchHistory(h, id), i) && !BothInactive(nodes', i)
  {
    BranchHistoryOk(h, id);
    IdsBelow(nodes, h);
    InactiveIffOpen(nodes, h, id);
    hide AllClosed, MinClosed, HistoryOk, FreedOk;
    if i in nodes {
      assert NodeOk(nodes, h, i) && !BothInactive(nodes, i);
      LinkOf(nodes, h, i);
      hide Linked;
      if Inactive(nodes[i].status) { ClosedStays(h, BranchHistory(h, id), i); }
    } else {
      NoNull(nodes, h);
      ClosedBelow(h);
    }
  }

  lemma {:induction false} NoNull(nodes: Nodes, h: History)
    requires Linked(nodes, h)
    ensures NULL !in nodes
  {
    IdsBelow(nodes, h);
  }

  lemma {:induction false} ClosedBelow(h: History)
    requires HistoryOk(h)
    ensures forall p | p in h.closed :: p < |h.parents|
  {
  }

  lemma {:induction false} BranchValid(nodes: Nodes, h: History, id: int, down: Step, up: Step)
    requires ValidTree(nodes, h) && id in nodes && Open(h, id)
    ensures ValidTree(AddChildren(nodes, id, |h.parents|, |h.parents| + 1, down, up), BranchHistory(h, id))
  {
    hide AllClosed, MinClosed, HistoryOk, LinkOk, NodeOk, BothInactive, AddChildren;
    var l := |h.parents|;
    var h', nodes' := BranchHistory(h, id), AddChildren(nodes, id, l, l + 1, down, up);
    IdsBelow(nodes, h);
    GrownHolds(nodes, id, l, down, up);
    GrownLinked(nodes, nodes', h, id, down, up);
    forall i | i in nodes' ensures NodeOk(nodes', h', i) && !BothInactive(nodes', i) {
      GrownNode(nodes, nodes', h, id, down, up, i);
    }
    GrownFreed(nodes, nodes', h, id, down, up);
  }

  lemma {:induction false} GrownFreed(nodes: Nodes, nodes': Nodes, h: History, id: int, down: Step, up: Step)
    requires ValidTree(nodes, h) && id in nodes && Open(h, id) && Grown(nodes, nodes', id, |h.parents|, down, up)
    ensures FreedOk(nodes', BranchHistory(h, id))
  {
    hide AllClosed, MinClosed, NodeOk;
    var l := |h.parents|;
    var h' := BranchHistory(h, id);
    IdsBelow(nodes, h);
    forall i | 0 < i < |h'.parents| && i !in nodes'
      ensures h'.parents[i] !in nodes' || Inactive(nodes'[h'.parents[i]].status)
    {
      assert i < l && h'.parents[i] == h.parents[i];
      assert ParentOk(h, i);
    }
  }

  /** An open node that is there is active and has no children. */
  lemma {:induction false} InactiveIffOpen(nodes: Nodes, h: History, id: int)
    requires ValidTree(nodes, h) && id in nodes && Open(h, id)
    ensures !Inactive(nodes[id].status) && !HasLinks(nodes, id)
  {
    assert NodeOk(nodes, h, id) && LinkOk(nodes, h, id);
    BranchedIff(h, id);
  }

  lemma {:induction false} BranchPaths(nodes: Nodes, h: History, id: int, down: Step, up: Step, start: Box)
    requires ValidTree(nodes, h) && id in nodes && Open(h, id) && PathsNested(nodes, start)
    requires Narrows(down, Path(nodes, id), start) && Narrows(up, Path(nodes, id), start)
    ensures var nodes' := AddChildren(nodes, id, |h.parents|, |h.parents| + 1, down, up);
            && PathsNested(nodes', start)
            && Path(nodes', |h.parents|) == [down] + Path(nodes, id)
            && Path(nodes', |h.parents| + 1) == [up] + Path(nodes, id)
  {
    hide AllClosed, MinClosed, HistoryOk, Narrows, AddChildren, NodeOk, FreedOk;
    var l := |h.parents|;
    var nodes' := AddChildren(nodes, id, l, l + 1, down, up);
    IdsBelow(nodes, h);
    GrownHolds(nodes, id, l, down, up);
    forall i | i in nodes
      ensures 0 <= nodes[i].parent < i ==> nodes[i].parent in nodes
    {
      LinkOf(nodes, h, i);
    }
    hide Linked;
    forall i | i in nodes
      ensures Path(nodes', i) == Path(nodes, i)
    {
      PathGrows(nodes, nodes', i, l);
    }
    assert ([down] + Path(nodes, id))[1..] == Path(nodes, id);
    assert ([up] + Path(nodes, id))[1..] == Path(nodes, id);
  }

  /** Adding nodes with larger ids does not change the paths of the old ones. */
  lemma {:induction false} PathGrows(nodes: Nodes, nodes': Nodes, id: int, l: int)
    requires id in nodes && id < l
    requires forall i | i in nodes :: i in nodes' && nodes'[i].parent == nodes[i].parent && nodes'[i].step == nodes[i].step
    requires forall i | i in nodes && 0 <= nodes[i].parent < i :: nodes[i].parent in nodes
    ensures Path(nodes', id) == Path(nodes, id)
  {
    if 0 <= nodes[id].parent < id { PathGrows(nodes, nodes', nodes[id].parent, l); }
  }

  lemma {:induction false} PathsStay(nodes: Nodes, nodes': Nodes, h: History, start: Box)
    requires PathsNested(nodes, start) && Linked(nodes', h)
    requires forall i | i in nodes' :: i in nodes && nodes'[i].parent == nodes[i].parent && nodes'[i].step == nodes[i].step
    ensures PathsNested(nodes', start)
  {
    hide HistoryOk, Nested;
    forall i | i in nodes' ensures Path(nodes', i) == Path(nodes, i) {
      forall j | j in nodes' && 0 <= nodes'[j].parent < j ensures nodes'[j].parent in nodes' { assert LinkOk(nodes', h, j); }
      SamePath(nodes, nodes', i);
    }
  }

  lemma {:induction false} BoundSet(nodes: Nodes, nodes': Nodes, h: History, id: int)
    requires ValidTree(nodes, h) && id in nodes && id in nodes' && Open(h, id)
    requires nodes' == nodes[id := nodes[id].(bound := nodes'[id].bound)]
    ensures ValidTree(nodes', h)
  {
    hide AllClosed, MinClosed;
    InactiveIffOpen(nodes, h, id);
    LinkedSame(nodes, nodes', h);
    forall i | i in nodes' ensures NodeOk(nodes', h, i) && !BothInactive(nodes', i) {
      assert NodeOk(nodes, h, i) && !BothInactive(nodes, i);
    }
  }

  lemma {:induction false} StatusSet(nodes: Nodes, nodes': Nodes, h: History, id: int)
    requires ValidTree(nodes, h) && id in nodes && id in nodes' && HasLinks(nodes, id)
    requires nodes' == nodes[id := nodes[id].(status := nodes'[id].status)]
    requires !Inactive(nodes'[id].status)
    ensures ValidTree(nodes', h)
  {
    hide AllClosed, MinClosed;
    LinkedSame(nodes, nodes', h);
    assert NodeOk(nodes, h, id);
    forall i | i in nodes' ensures NodeOk(nodes', h, i) && !BothInactive(nodes', i) {
      assert NodeOk(nodes, h, i) && !BothInactive(nodes, i);
    }
  }

  lemma {:induction false} BranchSize(h: History, id: int)
    ensures |BranchHistory(h, id).parents| == |h.parents| + 2
  {
  }

  lemma {:induction false} ValidLinked(nodes: Nodes, h: History)
    requires ValidTree(nodes, h)
    ensures Linked(nodes, h)
  {
  }

  /** The node after the last one on the stack may not have two closed children, or there is none. */
  lemma {:induction false} ClimbStopped(nodes: Nodes, h: History, stack: seq<int>)
    requires Climbing(nodes, h, stack)
    requires var p := ParentOf(nodes, Top(stack)); p == NULL || (p in nodes && !IsInactive(nodes, p))
    ensures var p := ParentOf(nodes, Top(stack)); p in nodes ==> !BothInactive(nodes, p)
  {
    assert Entry(nodes, h, stack, |stack| - 1);
    ParentNotChild(nodes, h, stack[|stack| - 1]);
  }

  /** The nodes off the stack have not changed. */
  predicate Untouched(before: Nodes, nodes: Nodes, stack: seq<int>) {
    nodes.Keys == before.Keys && forall i | i in before && i !in stack :: nodes[i] == before[i]
  }

  /**
   * What is left after a leaf closed: a node stays exactly when it is the root or something below its parent is
   * open; fully closed nodes carry the minimum closing bound, every other node is as before.
   */
  ghost predicate Pruned(before: Nodes, after: Nodes, h: History) {
    && (forall i | i in before :: 0 <= i < |h.parents|)
    && (forall i :: i in after <==> i in before && (i == 0 || !AllClosed(h, h.parents[i])))
    && (forall i | i in after ::
          if AllClosed(h, i) then Inactive(after[i].status) && after[i].bound == MinClosed(h, i) else after[i] == before[i])
  }

  /** The closed leaf carries the status it was closed with, an ancestor closed with it is fathomed, other statuses stay. */
  predicate Marked(before: Nodes, after: Nodes, leaf: int, status: Status) {
    && (leaf in after ==> after[leaf].status == status)
    && forall i | i in after && i != leaf ::
         i in before && (after[i].status == before[i].status || (after[i].status == Fathomed && i < leaf))
  }

  lemma {:induction false} MarkedTrimmed(before: Nodes, climbed: Nodes, stack: seq<int>, rest: Nodes, leaf: int, status: Status)
    requires Marked(before, climbed, leaf, status) && Trimmed(climbed, rest, stack)
    ensures Marked(before, rest, leaf, status)
  {
    forall i | i in rest
      ensures i in climbed && rest[i].status == climbed[i].status
    {
      TrimmedFacts(climbed, rest, stack, i);
    }
  }

  lemma {:induction false} MarkedMore(before: Nodes, climbed: Nodes, leaf: int, status: Status, p: int, bound: Ext)
    requires Marked(before, climbed, leaf, status) && p in climbed && p < leaf
    ensures Marked(before, climbed[p := climbed[p].(status := Fathomed, bound := bound)], leaf, status)
  {
  }

  lemma {:induction false} MarkedLeaf(before: Nodes, leaf: int, status: Status)
    requires leaf in before
    ensures Marked(before, before[leaf := before[leaf].(status := status)], leaf, status)
  {
  }

  lemma {:induction false} UpdatePruned(before: Nodes, h: History, climbed: Nodes, stack: seq<int>, rest: Nodes)
    requires Climbing(climbed, h, stack) && Trimmed(climbed, rest, stack) && ValidTree(rest, h) && Untouched(before, climbed, stack)
    ensures Pruned(before, rest, h)
  {
    hide AllClosed, MinClosed, HistoryOk, Entries, Trimmed, ChildOfFirst, FreedOk;
    forall i | i in before ensures 0 <= i < |h.parents| { LinkOf(climbed, h, i); }
    forall i
      ensures i in rest <==> i in before && (i == 0 || !AllClosed(h, h.parents[i]))
    {
      TrimmedFacts(climbed, rest, stack, i);
      if i in rest {
        SurvivorParent(rest, h, i);
      } else if i in before {
        GoneParent(rest, h, i);
      }
    }
    forall i | i in rest
      ensures if AllClosed(h, i) then Inactive(rest[i].status) && rest[i].bound == MinClosed(h, i) else rest[i] == before[i]
    {
      InactiveIffClosed(rest, h, i);
      TrimmedFacts(climbed, rest, stack, i);
      if i in stack {
        var k := StackIndex(stack, i);
        EntryOf(climbed, h, stack, k);
      }
    }
  }

  lemma {:induction false} SurvivorParent(nodes: Nodes, h: History, i: int)
    requires ValidTree(nodes, h) && i in nodes
    ensures 0 <= i < |h.parents| && (i == 0 || !AllClosed(h, h.parents[i]))
  {
    hide AllClosed, MinClosed;
    LinkOf(nodes, h, i);
    if i > 0 {
      var p := nodes[i].parent;
      assert NodeOk(nodes, h, p);
      ParentNotChild(nodes, h, p);
      assert i >= 0 && HasLinks(nodes, p);
      ActiveNotClosed(nodes, h, p);
    }
  }

  lemma {:induction false} GoneParent(nodes: Nodes, h: History, i: int)
    requires ValidTree(nodes, h) && i !in nodes && 0 <= i < |h.parents|
    ensures i > 0 && AllClosed(h, h.parents[i])
  {
    hide AllClosed, MinClosed;
    assert 0 in nodes;
    assert ParentOk(h, i);
    var p := h.parents[i];
    if p in nodes { InactiveIffClosed(nodes, h, p); } else { FreedIsClosed(nodes, h, p); }
  }

  lemma {:induction false} TrimmedSteps(before: Nodes, climbed: Nodes, rest: Nodes, stack: seq<int>)
    requires SameLinks(before, climbed) && Trimmed(climbed, rest, stack)
    ensures forall i | i in rest :: i in before && rest[i].parent == before[i].parent && rest[i].step == before[i].step
  {
  }

  /** Write the interval of one branching unless a deeper one already has. */
  method ApplyStep(s: Step, lower: seq<Ext>, upper: seq<Ext>, changed: seq<bool>)
    returns (lower': seq<Ext>, upper': seq<Ext>, changed': seq<bool>)
    requires 0 <= s.variable < |lower| == |upper| == |changed|
    ensures if changed[s.variable] then lower' == lower && upper' == upper && changed' == changed
            else lower' == lower[s.variable := s.lo] && upper' == upper[s.variable := s.hi] && changed' == changed[s.variable := true]
  {
    if changed[s.variable] { return lower, upper, changed; }
    return lower[s.variable := s.lo], upper[s.variable := s.hi], changed[s.variable := true];
  }

  predicate OnPath(path: seq<Step>, v: int) {
    exists k | 0 <= k < |path| :: path[k].variable == v
  }

  /** The bounds written for the branchings in `done`, deepest first. */
  ghost predicate Written(done: seq<Step>, start: Box, lower: seq<Ext>, upper: seq<Ext>, changed: seq<bool>) {
    && |lower| == |upper| == |changed| == |start.lower| == |start.upper|
    && forall v | 0 <= v < |lower| ::
         && (lower[v], upper[v]) == FirstWrite(done, v, start.lower[v], start.upper[v])
         && (changed[v] <==> OnPath(done, v))
  }

  lemma {:induction false} WrittenStep(done: seq<Step>, s: Step, start: Box, lower: seq<Ext>, upper: seq<Ext>, changed: seq<bool>,
                                       lower': seq<Ext>, upper': seq<Ext>, changed': seq<bool>)
    requires Written(done, start, lower, upper, changed) && 0 <= s.variable < |lower|
    requires if changed[s.variable] then lower' == lower && upper' == upper && changed' == changed
             else lower' == lower[s.variable := s.lo] && upper' == upper[s.variable := s.hi] && changed' == changed[s.variable := true]
    ensures Written(done + [s], start, lower', upper', changed')
  {
    forall v | 0 <= v < |lower|
      ensures (lower'[v], upper'[v]) == FirstWrite(done + [s], v, start.lower[v], start.upper[v])
      ensures changed'[v] <==> OnPath(done + [s], v)
    {
      FirstWriteSnoc(done, s, v, start.lower[v], start.upper[v]);
      OnPathSnoc(done, s, v);
      if !OnPath(done, v) { NotWritten(done, v, start.lower[v], start.upper[v]); }
    }
  }

  lemma {:induction false} OnPathSnoc(path: seq<Step>, s: Step, v: int)
    ensures OnPath(path + [s], v) <==> OnPath(path, v) || s.variable == v
  {
    if s.variable == v { assert (path + [s])[|path|].variable == v; }
    if OnPath(path, v) {
      var k :| 0 <= k < |path| && path[k].variable == v;
      assert (path + [s])[k].variable == v;
    }
  }

  lemma {:induction false} WrittenAll(path: seq<Step>, start: Box, lower: seq<Ext>, upper: seq<Ext>, changed: seq<bool>)
    requires Written(path, start, lower, upper, changed) && Nested(path, start)
    ensures Box(lower, upper) == PathBox(path, start)
  {
    var b := PathBox(path, start);
    forall v | 0 <= v < |lower|
      ensures lower[v] == b.lower[v] && upper[v] == b.upper[v]
    {
      FirstWriteIsIntersection(path, v, start);
    }
  }

  lemma {:induction false} NothingWritten(start: Box)
    requires |start.lower| == |start.upper|
    ensures Written([], start, start.lower, start.upper, seq(|start.lower|, _ => false))
  {
  }

  /** The next branching up the path, and the path above it. */
  lemma {:induction false} PathUnfold(nodes: Nodes, h: History, id: int, start: Box)
    requires Linked(nodes, h) && id in nodes && PathsNested(nodes, start)
    ensures nodes[id].parent == NULL ==> Path(nodes, id) == [] && id == 0
    ensures nodes[id].parent != NULL ==> Path(nodes, id) == [nodes[id].step] + Path(nodes, nodes[id].parent)
    ensures nodes[id].parent != NULL ==> nodes[id].parent in nodes && 0 <= nodes[id].parent < id
    ensures nodes[id].parent != NULL ==> 0 <= nodes[id].step.variable < |start.lower| == |start.upper|
  {
    LinkOf(nodes, h, id);
    assert Nested(Path(nodes, id), start);
    if id > 0 { assert ParentOk(h, id); }
  }

  // ---------------------------------------------------------------- the tree as the search uses it

  class SearchTree {
    var nodes: Nodes
    var numNodes: int
    ghost var history: History
    ghost var start: Box

    ghost predicate Valid()
      reads this
    {
      && ValidTree(nodes, history) && |history.parents| == numNodes + 1
      && PathsNested(nodes, start) && |start.lower| == |start.upper|
    }

    constructor (rootBound: Ext, ghost start: Box)
      requires |start.lower| == |start.upper|
      ensures Valid() && this.start == start && numNodes == 0
      ensures history == History([NULL], map[], map[]) && nodes.Keys == {0} && nodes[0].bound == rootBound
    {
      nodes := map[0 := Node(Pending, rootBound, NULL, NULL, NULL, Step(NULL, NegInf, PosInf))];
      numNodes := 0;
      history := History([NULL], map[], map[]);
      this.start := start;
    }

    /** The relaxation of an open node gives it a bound. */
    method SetBound(id: int, bound: Ext)
      requires Valid() && id in nodes && Open(history, id)
      modifies this`nodes
      ensures Valid() && nodes == old(nodes)[id := old(nodes)[id].(bound := bound)]
    {
      ghost var before := nodes;
      nodes := nodes[id := nodes[id].(bound := bound)];
      BoundSet(before, nodes, history, id);
      PathsStay(before, nodes, history, start);
    }

    /** Two children of an open node: `lower` and `upper` bound variable `v` in the LP whose value `value` is rounded. */
    method Branch(parent: int, v: int, lower: Ext, upper: Ext, value: real) returns (down: int, up: int)
      requires Valid() && parent in nodes && Open(history, parent)
      requires Narrows(Step(v, lower, upper), Path(nodes, parent), start) && Le(lower, Fin(value)) && Le(Fin(value), upper)
      modifies this`nodes, this`numNodes, this`history
      ensures Valid() && history == BranchHistory(old(history), parent) && numNodes == old(numNodes) + 2
      ensures down == old(numNodes) + 1 && up == old(numNodes) + 2
      ensures nodes == AddChildren(old(nodes), parent, down, up, DownStep(v, lower, value), UpStep(v, upper, value))
      ensures nodes.Keys == old(nodes.Keys) + {down, up} && forall i | i in old(nodes) && i != parent :: nodes[i] == old(nodes)[i]
      ensures nodes[parent] == old(nodes)[parent].(down := down, up := up)
      ensures nodes[down] == Node(Pending, old(nodes)[parent].bound, parent, NULL, NULL, DownStep(v, lower, value))
      ensures nodes[up] == Node(Pending, old(nodes)[parent].bound, parent, NULL, NULL, UpStep(v, upper, value))
      ensures Path(nodes, down) == [DownStep(v, lower, value)] + old(Path(nodes, parent))
      ensures Path(nodes, up) == [UpStep(v, upper, value)] + old(Path(nodes, parent))
    {
      hide ValidTree, Open, PathsNested, Path, BranchHistory, AddChildren, LowerOn, UpperOn;
      down, up := numNodes + 1, numNodes + 2;
      ChildrenNarrow(Path(nodes, parent), start, v, lower, upper, value);
      BranchValid(nodes, history, parent, DownStep(v, lower, value), UpStep(v, upper, value));
      BranchPaths(nodes, history, parent, DownStep(v, lower, value), UpStep(v, upper, value), start);
      BranchSize(history, parent);
      FreshIds(nodes, history, parent);
      GrownHolds(nodes, parent, down, DownStep(v, lower, value), UpStep(v, upper, value));
      nodes := AddChildren(nodes, parent, down, up, DownStep(v, lower, value), UpStep(v, upper, value));
      history := BranchHistory(history, parent);
      numNodes := numNodes + 2;
    }

    /** A node is solved: branched nodes only change status, closed ones close their ancestors and free what is below. */
    method Update(id: int, status: Status)
      requires Valid() && id in nodes && (if Inactive(status) then Open(history, id) else HasLinks(nodes, id))
      modifies this`nodes, this`history
      ensures Valid()
      ensures !Inactive(status) ==> history == old(history) && nodes == old(nodes)[id := old(nodes)[id].(status := status)]
      ensures Inactive(status) ==> history == old(history).(closed := old(history).closed[id := old(nodes)[id].bound])
      ensures Inactive(status) ==> Pruned(old(nodes), nodes, history) && Marked(old(nodes), nodes, id, status)
    {
      hide Marked, ValidTree, PathsNested, Climbing, Pruned, Open, AllClosed, MinClosed, UpdatedBound, Trimmed, BothInactive, LinkOk;
      ghost var before := nodes;
      if !Inactive(status) {
        nodes := nodes[id := nodes[id].(status := status)];
        StatusSet(before, nodes, history, id);
        ValidLinked(nodes, history);
        PathsStay(before, nodes, history, start);
        return;
      }
      CloseLeaf(nodes, history, id, status);
      ghost var h := history.(closed := history.closed[id := nodes[id].bound]);
      var climbed := nodes[id := nodes[id].(status := status)];
      var stack := [id];
      MarkedLeaf(nodes, id, status);
      var p := climbed[id].parent;
      while p != NULL
        invariant Climbing(climbed, h, stack) && p == ParentOf(climbed, Top(stack)) && SameLinks(nodes, climbed)
        invariant nodes == before && history == old(history) && Untouched(before, climbed, stack) && Top(stack) >= 0
        invariant Marked(before, climbed, id, status) && Top(stack) <= id
        decreases Top(stack)
      {
        ParentNotOnStack(climbed, h, stack);
        if IsInactive(climbed, p) {
          ClimbStep(climbed, h, stack, p);
          MarkedMore(before, climbed, id, status, p, UpdatedBound(climbed, p));
          climbed := climbed[p := climbed[p].(status := Fathomed, bound := UpdatedBound(climbed, p))];
          stack := stack + [p];
        } else {
          break;
        }
        p := climbed[p].parent;
      }
      ClimbStopped(climbed, h, stack);
      var rest := RemoveFathomed(climbed, stack, h);
      TrimmedValid(climbed, h, stack, rest);
      UpdatePruned(before, h, climbed, stack, rest);
      MarkedTrimmed(before, climbed, stack, rest, id, status);
      ValidLinked(rest, h);
      TrimmedSteps(before, climbed, rest, stack);
      PathsStay(before, rest, h, start);
      nodes := rest;
      history := h;
    }

    /** The bounds of a node, found by walking from it to the root from the start bounds. */
    method GetVariableBounds(id: int, lower: seq<Ext>, upper: seq<Ext>)
      returns (lower': seq<Ext>, upper': seq<Ext>, changed: seq<bool>)
      requires Valid() && id in nodes && start == Box(lower, upper)
      ensures Box(lower', upper') == PathBox(Path(nodes, id), start)
      ensures |changed| == |lower| && forall v | 0 <= v < |lower| :: changed[v] <==> OnPath(Path(nodes, id), v)
    {
      hide ValidTree, Written, PathsNested, Path, OnPath, PathBox;
      ValidLinked(nodes, history);
      lower', upper', changed := lower, upper, seq(|lower|, _ => false);
      ghost var done: seq<Step> := [];
      NothingWritten(start);
      PathUnfold(nodes, history, id, start);
      if nodes[id].parent != NULL {
        label First:
        ghost var l, u, c := lower', upper', changed;
        WrittenSizes(done, start, lower', upper', changed);
        lower', upper', changed := ApplyStep(nodes[id].step, lower', upper', changed);
        WrittenStep(done, nodes[id].step, start, l, u, c, lower', upper', changed);
        done := done + [nodes[id].step];
      }
      var p := nodes[id].parent;
      while p != NULL && p != 0
        invariant p == NULL || p in nodes
        invariant Written(done, start, lower', upper', changed)
        invariant done + (if p == NULL then [] else Path(nodes, p)) == Path(nodes, id)
        decreases p
      {
        PathUnfold(nodes, history, p, start);
        ghost var l, u, c := lower', upper', changed;
        WrittenSizes(done, start, lower', upper', changed);
        lower', upper', changed := ApplyStep(nodes[p].step, lower', upper', changed);
        WrittenStep(done, nodes[p].step, start, l, u, c, lower', upper', changed);
        done := done + [nodes[p].step];
        p := nodes[p].parent;
      }
      RootPath(nodes, history, start);
      assert done == Path(nodes, id);
      NestedPath(nodes, start, id);
      WrittenAll(Path(nodes, id), start, lower', upper', changed);
      WrittenChanged(Path(nodes, id), start, lower', upper', changed);
    }
  }

  lemma {:induction false} WrittenSizes(done: seq<Step>, start: Box, lower: seq<Ext>, upper: seq<Ext>, changed: seq<bool>)
    requires Written(done, start, lower, upper, changed)
    ensures |lower| == |upper| == |changed| == |start.lower| == |start.upper|
  {
  }

  lemma {:induction false} WrittenChanged(done: seq<Step>, start: Box, lower: seq<Ext>, upper: seq<Ext>, changed: seq<bool>)
    requires Written(done, start, lower, upper, changed)
    ensures |changed| == |start.lower| && forall v | 0 <= v < |changed| :: changed[v] <==> OnPath(done, v)
  {
  }

  lemma {:induction false} RootPath(nodes: Nodes, h: History, start: Box)
    requires Linked(nodes, h)
    ensures Path(nodes, 0) == []
  {
    LinkOf(nodes, h, 0);
  }

  lemma {:induction false} NestedPath(nodes: Nodes, start: Box, id: int)
    requires PathsNested(nodes, start) && id in nodes
    ensures Nested(Path(nodes, id), start)
  {
  }
}
