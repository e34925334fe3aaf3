/**
 * The best-first workers of the deterministic mode: a paused node, a plunge stack and a backlog each, children
 * numbered by the worker that creates them, and a rebalancing of the backlogs that does not depend on their order.
 */
module Deterministic {
  import opened Extended
  import opened SortedOrders
  import opened BranchPath
  import opened Replay

  datatype Option<T> = None | Some(value: T)

  /** A node, known by the worker that created it and that worker's number for it. */
  datatype Node = Node(origin: int, number: int, bound: Ext, box: Box)

  /** `cutoff` is the upper bound the LP of the current node was started with. */
  datatype Worker = Worker(
    current: Option<Node>,
    plunge: seq<Node>,
    backlog: seq<Node>,
    nextNumber: nat,
    upper: Ext,
    cutoff: Ext,
    ceiling: Ext,
    solutions: seq<Found>,
    nextSolution: nat)

  function Paused(wk: Worker): seq<Node> {
    if wk.current.Some? then [wk.current.value] else []
  }

  function Held(wk: Worker): seq<Node> {
    Paused(wk) + wk.plunge + wk.backlog
  }

  lemma {:induction false} HeldBag(wk: Worker)
    ensures multiset(Held(wk)) == multiset(Paused(wk)) + multiset(wk.plunge) + multiset(wk.backlog)
  {
  }

  /** Where one node more in any of three places shows in the sum. */
  lemma {:induction false} OneMore(a: multiset<Node>, b: multiset<Node>, c: multiset<Node>, x: multiset<Node>)
    ensures (a + x) + b + c == (a + b + c) + x
    ensures a + (x + b) + c == (a + b + c) + x
    ensures a + b + (x + c) == (a + b + c) + x
    ensures a + b + (c + x) == (a + b + c) + x
    ensures (x + b) + c == (b + c) + x
  {
  }

  predicate HasWork(wk: Worker) {
    wk.current.Some? || wk.plunge != [] || wk.backlog != []
  }

  function QueueSize(wk: Worker): nat {
    |wk.plunge| + |wk.backlog| + (if wk.current.Some? then 1 else 0)
  }

  lemma {:induction false} HeldSize(wk: Worker)
    ensures |Held(wk)| == QueueSize(wk) && (HasWork(wk) <==> Held(wk) != [])
  {
  }

  /** The order of the backlog: bound, then origin, then number. */
  predicate BacklogLess(a: Node, b: Node) {
    if a.bound != b.bound then Lt(a.bound, b.bound)
    else if a.origin != b.origin then a.origin < b.origin
    else a.number < b.number
  }

  predicate LeastAt(nodes: seq<Node>, k: int) {
    0 <= k < |nodes| && forall i | 0 <= i < |nodes| :: !BacklogLess(nodes[i], nodes[k])
  }

  /** The least node of a backlog: lowest bound, and among those the one of the lowest origin, then number. */
  lemma {:induction false} LeastMeans(nodes: seq<Node>, k: int)
    requires 0 <= k < |nodes|
    ensures LeastAt(nodes, k) <==>
              forall i | 0 <= i < |nodes| ::
                && Le(nodes[k].bound, nodes[i].bound)
                && (nodes[i].bound == nodes[k].bound ==> nodes[k].origin <= nodes[i].origin)
                && (nodes[i].bound == nodes[k].bound && nodes[i].origin == nodes[k].origin ==> nodes[k].number <= nodes[i].number)
  {
    forall i | 0 <= i < |nodes|
      ensures !BacklogLess(nodes[i], nodes[k]) <==>
                && Le(nodes[k].bound, nodes[i].bound)
                && (nodes[i].bound == nodes[k].bound ==> nodes[k].origin <= nodes[i].origin)
                && (nodes[i].bound == nodes[k].bound && nodes[i].origin == nodes[k].origin ==> nodes[k].number <= nodes[i].number)
    {
    }
  }

  predicate SameId(a: Node, b: Node) {
    a.origin == b.origin && a.number == b.number
  }

  predicate DistinctIds(nodes: seq<Node>) {
    forall i, j | 0 <= i < |nodes| && 0 <= j < |nodes| && SameId(nodes[i], nodes[j]) :: nodes[i] == nodes[j]
  }

  /** With distinct ids the heap has no choice: whatever it holds its nodes in, the same node comes out. */
  lemma {:induction false} PoppedIsDetermined(a: seq<Node>, j: int, b: seq<Node>, k: int)
    requires multiset(a) == multiset(b) && DistinctIds(a) && LeastAt(a, j) && LeastAt(b, k)
    ensures a[j] == b[k]
  {
    assert b[k] in multiset(a) && a[j] in multiset(b);
    var i :| 0 <= i < |a| && a[i] == b[k];
    var h :| 0 <= h < |b| && b[h] == a[j];
    assert !BacklogLess(a[i], a[j]) && !BacklogLess(b[h], b[k]);
    assert SameId(a[i], a[j]);
  }

  function Without(nodes: seq<Node>, k: int): seq<Node> {
    if 0 <= k < |nodes| then nodes[..k] + nodes[k + 1..] else nodes
  }

  // ---------------------------------------------------------------- what the operations make of one worker

  function Enqueued(wk: Worker, n: Node): Worker {
    wk.(plunge := [n] + wk.plunge)
  }

  /** The oldest node of the stack moves to the backlog. */
  function Evicted(wk: Worker): Worker {
    if wk.plunge == [] then wk
    else wk.(plunge := wk.plunge[..|wk.plunge| - 1], backlog := wk.backlog + [wk.plunge[|wk.plunge| - 1]])
  }

  /** After the eviction the children get the next two numbers and go on the stack. */
  function WithChildren(wk: Worker, id: int, down: Node, up: Node, upFirst: bool): Worker {
    var d := down.(origin := id, number := wk.nextNumber);
    var u := up.(origin := id, number := wk.nextNumber + 1);
    var rest := Evicted(wk);
    rest.(plunge := (if upFirst then [u, d] else [d, u]) + rest.plunge, nextNumber := wk.nextNumber + 2)
  }

  /** Position `k` is only asked for when the node comes from the backlog. */
  predicate CanTake(wk: Worker, k: int) {
    wk.current.Some? || wk.plunge != [] || LeastAt(wk.backlog, k)
  }

  function TakenNode(wk: Worker, k: int): Node
    requires CanTake(wk, k)
  {
    if wk.current.Some? then wk.current.value
    else if wk.plunge != [] then wk.plunge[0]
    else wk.backlog[k]
  }

  function AfterTake(wk: Worker, k: int): Worker
    requires CanTake(wk, k)
  {
    if wk.current.Some? then wk.(current := None)
    else if wk.plunge != [] then wk.(plunge := wk.plunge[1..])
    else wk.(backlog := Without(wk.backlog, k))
  }

  /** With no paused node the next two nodes taken after branching are the preferred child and then the other one. */
  lemma {:induction false} PlungeDivesPreferred(wk: Worker, id: int, down: Node, up: Node, upFirst: bool, k: int, l: int)
    requires wk.current.None?
    ensures var d, u := down.(origin := id, number := wk.nextNumber), up.(origin := id, number := wk.nextNumber + 1);
            var placed := WithChildren(wk, id, down, up, upFirst);
            && CanTake(placed, k) && TakenNode(placed, k) == (if upFirst then u else d)
            && CanTake(AfterTake(placed, k), l) && TakenNode(AfterTake(placed, k), l) == (if upFirst then d else u)
            && AfterTake(AfterTake(placed, k), l).plunge == wk.plunge[..if wk.plunge == [] then 0 else |wk.plunge| - 1]
  {
  }

  /** Taking a node loses none of the others. */
  lemma {:induction false} TakeConserves(wk: Worker, k: int)
    requires CanTake(wk, k)
    ensures multiset(Held(wk)) == multiset(Held(AfterTake(wk, k))) + multiset{TakenNode(wk, k)}
  {
    hide Held;
    var rest := AfterTake(wk, k);
    HeldBag(wk);
    HeldBag(rest);
    OneMore(multiset(Paused(rest)), multiset(rest.plunge), multiset(rest.backlog), multiset{TakenNode(wk, k)});
    if wk.current.Some? {
      assert multiset(Paused(wk)) == multiset(Paused(rest)) + multiset{wk.current.value};
    } else if wk.plunge != [] {
      HeadTail(wk.plunge);
    } else {
      TakeOut(wk.backlog, k);
    }
  }

  /** Eviction and placing keep every node and add the two children, whose ids are new. */
  lemma {:induction false} ChildrenConserve(wk: Worker, id: int, down: Node, up: Node, upFirst: bool)
    ensures var d, u := down.(origin := id, number := wk.nextNumber), up.(origin := id, number := wk.nextNumber + 1);
            multiset(Held(WithChildren(wk, id, down, up, upFirst))) == multiset(Held(wk)) + multiset{d, u}
  {
    hide Held, Evicted;
    var d, u := down.(origin := id, number := wk.nextNumber), up.(origin := id, number := wk.nextNumber + 1);
    var rest := Evicted(wk);
    EvictConserves(wk);
    PairPlaced(rest, if upFirst then [u, d] else [d, u], wk.nextNumber + 2);
    assert multiset([u, d]) == multiset{d, u} && multiset([d, u]) == multiset{d, u};
  }

  lemma {:induction false} EvictConserves(wk: Worker)
    ensures multiset(Held(Evicted(wk))) == multiset(Held(wk))
  {
    hide Held;
    var after := Evicted(wk);
    HeldBag(wk);
    HeldBag(after);
    if wk.plunge != [] {
      var last := wk.plunge[|wk.plunge| - 1];
      Regrow(wk.plunge);
      assert multiset(after.backlog) == multiset(wk.backlog) + multiset{last};
      Across(multiset(Paused(wk)), multiset(after.plunge), multiset(wk.backlog), multiset{last});
    }
  }

  lemma {:induction false} PairPlaced(wk: Worker, pair: seq<Node>, next: nat)
    ensures multiset(Held(wk.(plunge := pair + wk.plunge, nextNumber := next))) == multiset(Held(wk)) + multiset(pair)
  {
    hide Held;
    var after := wk.(plunge := pair + wk.plunge, nextNumber := next);
    HeldBag(wk);
    HeldBag(after);
    assert multiset(after.plunge) == multiset(pair) + multiset(wk.plunge);
    OneMore(multiset(Paused(wk)), multiset(wk.plunge), multiset(wk.backlog), multiset(pair));
  }

  lemma {:induction false} Across(a: multiset<Node>, b: multiset<Node>, c: multiset<Node>, x: multiset<Node>)
    ensures a + b + (c + x) == a + (b + x) + c
  {
  }

  // ---------------------------------------------------------------- all workers

  function Total(workers: seq<Worker>): multiset<Node> {
    if workers == [] then multiset{} else Total(workers[..|workers| - 1]) + multiset(Held(workers[|workers| - 1]))
  }

  function AllBacklog(workers: seq<Worker>): seq<Node> {
    if workers == [] then [] else AllBacklog(workers[..|workers| - 1]) + workers[|workers| - 1].backlog
  }

  function Emptied(workers: seq<Worker>): seq<Worker> {
    seq(|workers|, i requires 0 <= i < |workers| => workers[i].(backlog := []))
  }

  /** Node `i` of the list goes to the front of the stack of worker `i` modulo the number of workers. */
  function Distributed(workers: seq<Worker>, order: seq<Node>): seq<Worker>
    ensures |Distributed(workers, order)| == |workers|
  {
    if order == [] || workers == [] then workers
    else
      var ws := Distributed(workers, order[..|order| - 1]);
      var w := (|order| - 1) % |workers|;
      ws[w := Enqueued(ws[w], order[|order| - 1])]
  }

  function MaxSize(workers: seq<Worker>): nat {
    if workers == [] then 0
    else
      var m := MaxSize(workers[..|workers| - 1]);
      if QueueSize(workers[|workers| - 1]) > m then QueueSize(workers[|workers| - 1]) else m
  }

  function MinSize(workers: seq<Worker>): nat {
    if workers == [] then 0
    else
      var q := QueueSize(workers[|workers| - 1]);
      if |workers| == 1 then q
      else
        var m := MinSize(workers[..|workers| - 1]);
        if q < m then q else m
  }

  predicate NeedsBalance(workers: seq<Worker>) {
    |workers| > 1 &&
    var least, most := MinSize(workers), MaxSize(workers);
    (least == 0 && most >= 2) || (least > 0 && most > 4 * least)
  }

  lemma {:induction false} SizeExtremes(workers: seq<Worker>)
    ensures forall w | 0 <= w < |workers| :: MinSize(workers) <= QueueSize(workers[w]) <= MaxSize(workers)
    ensures workers != [] ==> exists w :: 0 <= w < |workers| && QueueSize(workers[w]) == MinSize(workers)
    ensures workers != [] ==> exists w :: 0 <= w < |workers| && QueueSize(workers[w]) == MaxSize(workers)
  {
    if workers != [] {
      hide QueueSize;
      var k := |workers| - 1;
      SizeExtremes(workers[..k]);
      assert forall w | 0 <= w < k :: workers[..k][w] == workers[w];
    }
  }

  /** Loads are uneven when somebody idles beside two nodes, or somebody has more than four times what another has. */
  lemma {:induction false} NeedsBalanceIff(workers: seq<Worker>)
    ensures NeedsBalance(workers) <==>
              && |workers| > 1
              && exists v, w :: 0 <= v < |workers| && 0 <= w < |workers|
                   && (if |Held(workers[v])| == 0 then |Held(workers[w])| >= 2
                       else |Held(workers[w])| > 4 * |Held(workers[v])| && forall u | 0 <= u < |workers| :: Held(workers[u]) != [])
  {
    hide Held, QueueSize, HasWork;
    forall w | 0 <= w < |workers| ensures |Held(workers[w])| == QueueSize(workers[w]) {
      HeldSize(workers[w]);
    }
    SizeExtremes(workers);
  }

  function IdKey(n: Node): seq<real> {
    [n.origin as real, n.number as real]
  }

  predicate IdLess(a: Node, b: Node) {
    if a.origin != b.origin then a.origin < b.origin else a.number < b.number
  }

  lemma {:induction false} IdLessIsLexicographic(a: Node, b: Node)
    ensures IdLess(a, b) <==> LexLess(IdKey(a), IdKey(b))
    ensures LexLess(IdKey(a), IdKey(b)) <==> a.origin < b.origin || (a.origin == b.origin && a.number < b.number)
  {
    var x, y := IdKey(a), IdKey(b);
    assert x[1..] == [a.number as real] && y[1..] == [b.number as real];
    assert x[1..][1..] == [] && y[1..][1..] == [];
    assert LexLess(x[1..], y[1..]) == (a.number < b.number);
  }

  /** What the rebalancing gives each worker depends on which nodes the backlogs hold, not on where they are held. */
  lemma {:induction false} RebalanceIsDetermined(a: seq<Worker>, x: seq<Node>, b: seq<Worker>, y: seq<Node>)
    requires Emptied(a) == Emptied(b) && multiset(AllBacklog(a)) == multiset(AllBacklog(b)) && DistinctIds(AllBacklog(a))
    requires Sorted(x, IdKey) && multiset(x) == multiset(AllBacklog(a))
    requires Sorted(y, IdKey) && multiset(y) == multiset(AllBacklog(b))
    ensures x == y && Distributed(Emptied(a), x) == Distributed(Emptied(b), y)
  {
    hide Sorted;
    var all := AllBacklog(a);
    forall i, j | 0 <= i < |x| && 0 <= j < |x| && IdKey(x[i]) == IdKey(x[j]) ensures x[i] == x[j] {
      assert IdKey(x[i])[0] == IdKey(x[j])[0] && IdKey(x[i])[1] == IdKey(x[j])[1];
      assert x[i] in multiset(all) && x[j] in multiset(all);
      var k :| 0 <= k < |all| && all[k] == x[i];
      var h :| 0 <= h < |all| && all[h] == x[j];
      assert SameId(all[k], all[h]);
    }
    SortedUnique(x, y, IdKey);
  }

  lemma {:induction false} TotalPut(workers: seq<Worker>, w: int, wk: Worker)
    requires 0 <= w < |workers|
    ensures Total(workers[w := wk]) + multiset(Held(workers[w])) == Total(workers) + multiset(Held(wk))
  {
    hide Held;
    var n := |workers| - 1;
    var after := workers[w := wk];
    if w == n {
      assert after[..n] == workers[..n];
      Swapped(Total(workers[..n]), multiset(Held(wk)), multiset(Held(workers[n])));
    } else {
      assert after[..n] == workers[..n][w := wk] && after[n] == workers[n];
      TotalPut(workers[..n], w, wk);
      Beside(Total(after[..n]), multiset(Held(workers[w])), Total(workers[..n]), multiset(Held(wk)), multiset(Held(workers[n])));
    }
  }

  lemma {:induction false} Swapped(a: multiset<Node>, b: multiset<Node>, c: multiset<Node>)
    ensures (a + b) + c == (a + c) + b
  {
  }

  lemma {:induction false} Beside(a: multiset<Node>, b: multiset<Node>, c: multiset<Node>, d: multiset<Node>, e: multiset<Node>)
    requires a + b == c + d
    ensures (a + e) + b == (c + e) + d
  {
    forall n ensures ((a + e) + b)[n] == ((c + e) + d)[n] {
      assert (a + b)[n] == (c + d)[n];
    }
  }

  lemma {:induction false} EmptiedTotal(workers: seq<Worker>)
    ensures Total(workers) == Total(Emptied(workers)) + multiset(AllBacklog(workers))
  {
    if workers != [] {
      hide Held;
      var n := |workers| - 1;
      EmptiedTotal(workers[..n]);
      assert Emptied(workers)[..n] == Emptied(workers[..n]);
      var wk := workers[n];
      BacklogApart(wk);
      Regrouped(Total(workers[..n]), Total(Emptied(workers[..n])), multiset(AllBacklog(workers[..n])),
                multiset(Held(wk.(backlog := []))), multiset(wk.backlog));
    }
  }

  lemma {:induction false} BacklogApart(wk: Worker)
    ensures multiset(Held(wk)) == multiset(Held(wk.(backlog := []))) + multiset(wk.backlog)
  {
    assert Held(wk) == Held(wk.(backlog := [])) + wk.backlog;
  }

  lemma {:induction false} EnqueuedBag(wk: Worker, n: Node)
    ensures multiset(Held(Enqueued(wk, n))) == multiset(Held(wk)) + multiset{n}
  {
    hide Held;
    HeldBag(wk);
    HeldBag(Enqueued(wk, n));
    OneMore(multiset(Paused(wk)), multiset(wk.plunge), multiset(wk.backlog), multiset{n});
    assert multiset([n] + wk.plunge) == multiset{n} + multiset(wk.plunge);
  }

  lemma {:induction false} Regrouped(t: multiset<Node>, e: multiset<Node>, b: multiset<Node>, h: multiset<Node>, k: multiset<Node>)
    requires t == e + b
    ensures t + (h + k) == (e + h) + (b + k)
  {
  }

  lemma {:induction false} DistributedTotal(workers: seq<Worker>, order: seq<Node>)
    requires workers != []
    ensures Total(Distributed(workers, order)) == Total(workers) + multiset(order)
  {
    if order != [] {
      hide Held, Enqueued;
      var n := |order| - 1;
      var ws := Distributed(workers, order[..n]);
      var w := n % |workers|;
      DistributedTotal(workers, order[..n]);
      TotalPut(ws, w, Enqueued(ws[w], order[n]));
      EnqueuedBag(ws[w], order[n]);
      Regrow(order);
      Grown(Total(Distributed(workers, order)), multiset(Held(ws[w])), Total(ws), multiset{order[n]});
    }
  }

  lemma {:induction false} Regrow(order: seq<Node>)
    requires order != []
    ensures multiset(order) == multiset(order[..|order| - 1]) + multiset{order[|order| - 1]}
  {
    assert order == order[..|order| - 1] + [order[|order| - 1]];
  }

  lemma {:induction false} Grown(after: multiset<Node>, h: multiset<Node>, before: multiset<Node>, n: multiset<Node>)
    requires after + h == before + (h + n)
    ensures after == before + n
  {
    forall x ensures after[x] == (before + n)[x] {
      assert (after + h)[x] == (before + (h + n))[x];
    }
  }

  /** Rebalancing loses and duplicates no node. */
  lemma {:induction false} RebalanceConserves(workers: seq<Worker>, order: seq<Node>)
    requires workers != [] && multiset(order) == multiset(AllBacklog(workers))
    ensures Total(Distributed(Emptied(workers), order)) == Total(workers)
  {
    EmptiedTotal(workers);
    DistributedTotal(Emptied(workers), order);
  }

  /** Only the stacks change, and every worker gets its share to within one node. */
  lemma {:induction false} RebalanceShares(workers: seq<Worker>, order: seq<Node>, w: int)
    requires 0 <= w < |workers|
    ensures var wk := Distributed(workers, order)[w];
            && wk == workers[w].(plunge := wk.plunge)
            && Share(|order|, |workers|, |wk.plunge| - |workers[w].plunge|, w)
  {
    if order == [] {
      assert |workers| * 0 == 0;
    } else {
      hide Share;
      var k := |order| - 1;
      RebalanceShares(workers, order[..k], w);
      var wk := Distributed(workers, order[..k])[w];
      RoundRobin(k, |workers|, |wk.plunge| - |workers[w].plunge|, w);
    }
  }

  /** Node `i` of the list ends up with worker `i` modulo the number of workers, below the nodes dealt to it later. */
  lemma {:induction false} DealtInTurn(workers: seq<Worker>, order: seq<Node>, i: nat)
    requires workers != [] && i < |order|
    ensures var stack, k := Distributed(workers, order)[i % |workers|].plunge, (|order| - 1 - i) / |workers|;
            0 <= k < |stack| && stack[k] == order[i]
  {
    var last, n := |order| - 1, |workers|;
    if i < last {
      DealtInTurn(workers, order[..last], i);
      TurnsApart(i, last, n);
    }
  }

  lemma {:induction false} TurnsApart(i: nat, l: nat, n: nat)
    requires n > 0 && i < l
    ensures (l - i) / n == (l - 1 - i) / n + if l % n == i % n then 1 else 0
  {
    var q, r := (l - 1 - i) / n, (l - 1 - i) % n;
    SameTurn(i, l, n);
    if r + 1 == n {
      NextMultiple(n, q);
      QuotientIs(l - i, n, q + 1, 0);
    } else {
      QuotientIs(l - i, n, q, r + 1);
    }
  }

  lemma {:induction false} SameTurn(i: nat, l: nat, n: nat)
    requires n > 0
    ensures l % n == i % n <==> (l - i) % n == 0
  {
    var t, r := l / n - i / n, l % n - i % n;
    Difference(n, l / n, i / n);
    if r >= 0 {
      QuotientIs(l - i, n, t, r);
    } else {
      NextMultiple(n, t - 1);
      QuotientIs(l - i, n, t - 1, r + n);
    }
  }

  lemma {:induction false} NextMultiple(n: int, q: int)
    ensures n * (q + 1) == n * q + n
  {
  }

  lemma {:induction false} Difference(n: int, a: int, b: int)
    ensures n * (a - b) == n * a - n * b
  {
  }

  lemma {:induction false} QuotientIs(a: int, n: int, q: int, r: int)
    requires n > 0 && a == n * q + r && 0 <= r < n
    ensures a / n == q && a % n == r
  {
    Turns(n, a / n - q);
    Difference(n, a / n, q);
  }

  /** Worker `w` of `n` has its share `g` of `m` nodes: as many as turns it has had. */
  predicate Share(m: int, n: int, g: int, w: int) {
    m <= n * g + w < m + n
  }

  lemma {:induction false} RoundRobin(k: nat, n: nat, g: int, w: int)
    requires 0 <= w < n && Share(k, n, g, w)
    ensures Share(k + 1, n, if k % n == w then g + 1 else g, w)
  {
    var q, r := k / n, k % n;
    assert k == n * q + r;
    assert n * (g - q) == n * g - n * q;
    assert n * (g + 1) == n * g + n;
    Turns(n, g - q);
    if r <= w {
      assert g == q by { Turns(n, g - q); }
    }
  }

  lemma {:induction false} Turns(n: int, m: int)
    requires n > 0
    ensures m >= 1 ==> n * m >= n
    ensures m >= 2 ==> n * m >= 2 * n
    ensures m <= -1 ==> n * m <= -n
    ensures m == 0 ==> n * m == 0
    ensures m == 1 ==> n * m == n
  {
    assert n * m == n * (m - 1) + n;
    assert n * m == n * (m - 2) + 2 * n;
    assert n * m == n * (m + 1) - n;
    if m >= 1 { assert n * (m - 1) >= 0; }
    if m >= 2 { assert n * (m - 2) >= 0; }
    if m <= -1 { assert n * (m + 1) <= 0; }
  }

  // ---------------------------------------------------------------- the computed bound

  function LeastBound(nodes: seq<Node>): Ext {
    if nodes == [] then PosInf else Min(LeastBound(nodes[..|nodes| - 1]), nodes[|nodes| - 1].bound)
  }

  function LeastHeld(workers: seq<Worker>): Ext {
    if workers == [] then PosInf
    else Min(LeastHeld(workers[..|workers| - 1]), LeastBound(Held(workers[|workers| - 1])))
  }

  /** The lower bound reported at a synchronisation. */
  function ComputedBound(workers: seq<Worker>, numerical: Ext, best: Best): Ext {
    var b := Min(numerical, LeastHeld(workers));
    if b == PosInf && best.incumbent.Incumbent? then best.upper else b
  }

  /** What the reported bound is read from. */
  predicate BoundSource(workers: seq<Worker>, numerical: Ext, b: Ext) {
    b == numerical || exists w :: 0 <= w < |workers| && HeldBound(workers[w], b)
  }

  predicate HeldBound(wk: Worker, b: Ext) {
    exists k :: 0 <= k < |Held(wk)| && b == Held(wk)[k].bound
  }

  /** The reported bound is the least of its sources; the upper bound stands in when all are infinite. */
  lemma {:induction false} ComputedBoundGreatest(workers: seq<Worker>, numerical: Ext, best: Best)
    ensures (exists b :: BoundSource(workers, numerical, b) && b != PosInf) || best.incumbent.NoIncumbent? ==>
              && BoundSource(workers, numerical, ComputedBound(workers, numerical, best))
              && forall b | BoundSource(workers, numerical, b) :: Le(ComputedBound(workers, numerical, best), b)
    ensures (forall b | BoundSource(workers, numerical, b) :: b == PosInf) && best.incumbent.Incumbent? ==>
              ComputedBound(workers, numerical, best) == best.upper
  {
    hide LeastHeld, HeldBound;
    var c := Min(numerical, LeastHeld(workers));
    LeastHeldLeast(workers);
    MinSides(numerical, LeastHeld(workers));
    forall b | BoundSource(workers, numerical, b) ensures Le(c, b) {
      if b != numerical { LeTransitive(c, LeastHeld(workers), b); }
    }
    assert BoundSource(workers, numerical, c);
  }

  lemma {:induction false} LeastHeldLeast(workers: seq<Worker>)
    ensures forall w, b | 0 <= w < |workers| && HeldBound(workers[w], b) :: Le(LeastHeld(workers), b)
    ensures LeastHeld(workers) == PosInf || exists w :: 0 <= w < |workers| && HeldBound(workers[w], LeastHeld(workers))
  {
    if workers != [] {
      hide HeldBound, Held, LeastBound;
      var k := |workers| - 1;
      LeastHeldLeast(workers[..k]);
      WorkerBoundLeast(workers[k]);
      MinSides(LeastHeld(workers[..k]), LeastBound(Held(workers[k])));
      forall w, b | 0 <= w < |workers| && HeldBound(workers[w], b) ensures Le(LeastHeld(workers), b) {
        if w < k {
          assert workers[..k][w] == workers[w];
          LeTransitive(LeastHeld(workers), LeastHeld(workers[..k]), b);
        } else {
          LeTransitive(LeastHeld(workers), LeastBound(Held(workers[k])), b);
        }
      }
    }
  }

  lemma {:induction false} WorkerBoundLeast(wk: Worker)
    ensures forall b | HeldBound(wk, b) :: Le(LeastBound(Held(wk)), b)
    ensures LeastBound(Held(wk)) == PosInf || HeldBound(wk, LeastBound(Held(wk)))
  {
    hide Held;
    LeastBoundAttained(Held(wk));
    forall b | HeldBound(wk, b) ensures Le(LeastBound(Held(wk)), b) {
      var k :| 0 <= k < |Held(wk)| && b == Held(wk)[k].bound;
      LeastBoundBelow(Held(wk), Held(wk)[k]);
    }
  }

  lemma {:induction false} LeastBoundAttained(nodes: seq<Node>)
    ensures LeastBound(nodes) == PosInf || exists k :: 0 <= k < |nodes| && LeastBound(nodes) == nodes[k].bound
  {
    if nodes != [] {
      var last := |nodes| - 1;
      LeastBoundAttained(nodes[..last]);
      MinSides(LeastBound(nodes[..last]), nodes[last].bound);
    }
  }

  lemma {:induction false} LeastBoundBelow(nodes: seq<Node>, n: Node)
    requires n in nodes
    ensures Le(LeastBound(nodes), n.bound)
  {
    var k := |nodes| - 1;
    MinSides(LeastBound(nodes[..k]), nodes[k].bound);
    if n != nodes[k] {
      LeastBoundBelow(nodes[..k], n);
      LeTransitive(LeastBound(nodes), LeastBound(nodes[..k]), n.bound);
    }
  }

  lemma {:induction false} LeastHeldBelow(workers: seq<Worker>, n: Node)
    requires n in Total(workers)
    ensures Le(LeastHeld(workers), n.bound)
  {
    hide Held;
    if workers != [] {
      var k := |workers| - 1;
      MinSides(LeastHeld(workers[..k]), LeastBound(Held(workers[k])));
      if n in Held(workers[k]) {
        LeastBoundBelow(Held(workers[k]), n);
        LeTransitive(LeastHeld(workers), LeastBound(Held(workers[k])), n.bound);
      } else {
        assert n in Total(workers[..k]);
        LeastHeldBelow(workers[..k], n);
        LeTransitive(LeastHeld(workers), LeastHeld(workers[..k]), n.bound);
      }
    }
  }

  // ---------------------------------------------------------------- the pool

  class BfsPool {
    const workers: array<Worker>

    constructor (size: nat, upper: Ext)
      ensures fresh(workers) && workers.Length == size
      ensures forall w | 0 <= w < size :: workers[w] == Worker(None, [], [], 0, upper, upper, PosInf, [], 0)
    {
      workers := new Worker[size](_ => Worker(None, [], [], 0, upper, upper, PosInf, [], 0));
    }

    method EnqueueNode(w: nat, n: Node)
      requires w < workers.Length
      modifies workers
      ensures workers[..] == old(workers[..])[w := Enqueued(old(workers[w]), n)]
      ensures workers[w] == old(workers[w]).(plunge := [n] + old(workers[w]).plunge)
    {
      workers[w] := workers[w].(plunge := [n] + workers[w].plunge);
    }

    /** Places the children of a node; returns the one to solve next. */
    method EnqueueChildren(w: nat, down: Node, up: Node, upFirst: bool) returns (first: Node)
      requires w < workers.Length
      modifies workers
      ensures workers[..] == old(workers[..])[w := WithChildren(old(workers[w]), w, down, up, upFirst)]
      ensures var before, after := old(workers[w]), workers[w];
              var d, u := down.(origin := w, number := before.nextNumber), up.(origin := w, number := before.nextNumber + 1);
              var kept := if before.plunge == [] then 0 else |before.plunge| - 1;
              && first == (if upFirst then u else d)
              && after.plunge == [first, if upFirst then d else u] + before.plunge[..kept]
              && after.backlog == before.backlog + before.plunge[kept..]
              && after.nextNumber == before.nextNumber + 2
              && after == before.(plunge := after.plunge, backlog := after.backlog, nextNumber := after.nextNumber)
      ensures forall v | 0 <= v < workers.Length && v != w :: workers[v] == old(workers[v])
    {
      var wk := workers[w];
      if wk.plunge != [] {
        wk := wk.(backlog := wk.backlog + [wk.plunge[|wk.plunge| - 1]], plunge := wk.plunge[..|wk.plunge| - 1]);
      }
      var d := down.(origin := w, number := wk.nextNumber);
      wk := wk.(nextNumber := wk.nextNumber + 1);
      var u := up.(origin := w, number := wk.nextNumber);
      wk := wk.(nextNumber := wk.nextNumber + 1);
      if upFirst {
        wk := wk.(plunge := [d] + wk.plunge);
        assert [u] + ([d] + wk.plunge[1..]) == [u, d] + wk.plunge[1..];
        wk := wk.(plunge := [u] + wk.plunge);
        first := u;
      } else {
        wk := wk.(plunge := [u] + wk.plunge);
        assert [d] + ([u] + wk.plunge[1..]) == [d, u] + wk.plunge[1..];
        wk := wk.(plunge := [d] + wk.plunge);
        first := d;
      }
      workers[w] := wk;
    }

    /** The next node: the paused one, else the top of the stack, else the least of the backlog. */
    method DequeueNode(w: nat) returns (r: Option<Node>, ghost k: int)
      requires w < workers.Length
      modifies workers
      ensures r.Some? <==> HasWork(old(workers[w]))
      ensures r.None? ==> workers[..] == old(workers[..])
      ensures r.Some? ==> CanTake(old(workers[w]), k) && r.value == TakenNode(old(workers[w]), k)
      ensures r.Some? ==> workers[..] == old(workers[..])[w := AfterTake(old(workers[w]), k)]
      ensures var before, after := old(workers[w]), workers[w];
              if before.current.Some? then r == before.current && after == before.(current := None)
              else if before.plunge != [] then r == Some(before.plunge[0]) && after == before.(plunge := before.plunge[1..])
              else if before.backlog != [] then
                && LeastAt(before.backlog, k) && r == Some(before.backlog[k])
                && after == before.(backlog := before.backlog[..k] + before.backlog[k + 1..])
              else r == None
      ensures forall v | 0 <= v < workers.Length && v != w :: workers[v] == old(workers[v])
    {
      var wk := workers[w];
      k := 0;
      if wk.current.Some? {
        workers[w] := wk.(current := None);
        return wk.current, k;
      }
      if wk.plunge != [] {
        workers[w] := wk.(plunge := wk.plunge[1..]);
        return Some(wk.plunge[0]), k;
      }
      if wk.backlog == [] { return None, k; }
      var least := LeastIndex(wk.backlog);
      k := least;
      workers[w] := wk.(backlog := wk.backlog[..least] + wk.backlog[least + 1..]);
      r := Some(wk.backlog[least]);
    }

    method AnyHasWork() returns (any: bool)
      ensures any <==> exists w :: 0 <= w < workers.Length && HasWork(workers[w])
    {
      for w := 0 to workers.Length
        invariant forall v | 0 <= v < w :: !HasWork(workers[v])
      {
        if HasWork(workers[w]) { return true; }
      }
      any := false;
    }

    /** Lowers a bound to those of the nodes of one worker. */
    static method BoundWith(wk: Worker, entry: Ext) returns (bound: Ext)
      ensures bound == Min(entry, LeastBound(Held(wk)))
    {
      hide LeastBound, Min;
      bound := entry;
      MinTop(entry);
      ghost var first := Paused(wk);
      LeastOfNone();
      if wk.current.Some? {
        LeastBoundSnoc([], wk.current.value);
        MinOrder(entry, PosInf, wk.current.value.bound);
        assert [] + [wk.current.value] == first;
        bound := Min(wk.current.value.bound, bound);
      }
      assert first + wk.plunge[..0] == first;
      for k := 0 to |wk.plunge|
        invariant bound == Min(entry, LeastBound(first + wk.plunge[..k]))
      {
        assert first + wk.plunge[..k + 1] == (first + wk.plunge[..k]) + [wk.plunge[k]];
        LeastBoundSnoc(first + wk.plunge[..k], wk.plunge[k]);
        MinOrder(entry, LeastBound(first + wk.plunge[..k]), wk.plunge[k].bound);
        bound := Min(wk.plunge[k].bound, bound);
      }
      assert wk.plunge[..|wk.plunge|] == wk.plunge;
      assert first + wk.plunge + wk.backlog[..0] == first + wk.plunge;
      for k := 0 to |wk.backlog|
        invariant bound == Min(entry, LeastBound(first + wk.plunge + wk.backlog[..k]))
      {
        assert first + wk.plunge + wk.backlog[..k + 1] == (first + wk.plunge + wk.backlog[..k]) + [wk.backlog[k]];
        LeastBoundSnoc(first + wk.plunge + wk.backlog[..k], wk.backlog[k]);
        MinOrder(entry, LeastBound(first + wk.plunge + wk.backlog[..k]), wk.backlog[k].bound);
        bound := Min(wk.backlog[k].bound, bound);
      }
      assert wk.backlog[..|wk.backlog|] == wk.backlog;
    }

    method ComputeLowerBound(numerical: Ext, best: Best) returns (bound: Ext)
      ensures bound == ComputedBound(workers[..], numerical, best)
    {
      bound := numerical;
      for w := 0 to workers.Length
        invariant bound == Min(numerical, LeastHeld(workers[..w]))
      {
        var wk := workers[w];
        assert workers[..w + 1][..w] == workers[..w];
        bound := BoundWith(wk, bound);
        MinOrder(numerical, LeastHeld(workers[..w]), LeastBound(Held(wk)));
      }
      assert workers[..workers.Length] == workers[..];
      if bound == PosInf && best.incumbent.Incumbent? { bound := best.upper; }
    }

    method LoadsUneven() returns (uneven: bool)
      requires workers.Length > 1
      ensures uneven == NeedsBalance(workers[..])
    {
      var most, least := 0, QueueSize(workers[0]);
      for w := 0 to workers.Length
        invariant most == MaxSize(workers[..w])
        invariant least == if w == 0 then QueueSize(workers[0]) else MinSize(workers[..w])
      {
        assert workers[..w + 1][..w] == workers[..w];
        var q := QueueSize(workers[w]);
        if q > most { most := q; }
        if q < least { least := q; }
      }
      assert workers[..workers.Length] == workers[..];
      uneven := (least == 0 && most >= 2) || (least > 0 && most > 4 * least);
    }

    method TakeBacklogs() returns (all: seq<Node>)
      modifies workers
      ensures all == AllBacklog(old(workers[..])) && workers[..] == Emptied(old(workers[..]))
    {
      ghost var before := workers[..];
      all := [];
      for w := 0 to workers.Length
        invariant all == AllBacklog(before[..w])
        invariant forall v | 0 <= v < workers.Length ::
                    workers[v] == if v < w then before[v].(backlog := []) else before[v]
      {
        assert before[..w + 1][..w] == before[..w];
        all := all + workers[w].backlog;
        workers[w] := workers[w].(backlog := []);
      }
      assert before[..workers.Length] == before;
    }

    /** Gathers the backlogs when the load is uneven, sorts them by id and deals them out in turn. */
    method BalanceLoads() returns (ghost order: seq<Node>)
      modifies workers
      ensures if NeedsBalance(old(workers[..]))
              then Sorted(order, IdKey) && multiset(order) == multiset(AllBacklog(old(workers[..])))
                   && workers[..] == Distributed(Emptied(old(workers[..])), order)
              else workers[..] == old(workers[..])
    {
      order := [];
      if workers.Length <= 1 { return; }
      var uneven := LoadsUneven();
      if !uneven { return; }
      ghost var before := workers[..];
      var all := TakeBacklogs();
      var sorted := SortBy(all, IdKey);
      order := sorted;
      for i := 0 to |sorted|
        invariant workers[..] == Distributed(Emptied(before), sorted[..i])
      {
        assert sorted[..i + 1][..i] == sorted[..i];
        EnqueueNode(i % workers.Length, sorted[i]);
      }
      assert sorted[..|sorted|] == sorted;
    }
  }

  lemma {:induction false} LeastOfNone()
    ensures LeastBound([]) == PosInf
  {
  }

  lemma {:induction false} LeastBoundSnoc(nodes: seq<Node>, n: Node)
    ensures LeastBound(nodes + [n]) == Min(LeastBound(nodes), n.bound)
  {
    assert (nodes + [n])[..|nodes|] == nodes;
  }

  lemma {:induction false} LessTransitive(a: Node, b: Node, c: Node)
    requires !BacklogLess(b, a) && BacklogLess(c, a)
    ensures !BacklogLess(b, c)
  {
  }

  method LeastIndex(nodes: seq<Node>) returns (k: nat)
    requires nodes != []
    ensures LeastAt(nodes, k)
  {
    k := 0;
    for i := 1 to |nodes|
      invariant k < |nodes| && forall j | 0 <= j < i :: !BacklogLess(nodes[j], nodes[k])
    {
      if BacklogLess(nodes[i], nodes[k]) {
        forall j | 0 <= j < i ensures !BacklogLess(nodes[j], nodes[i]) {
          LessTransitive(nodes[k], nodes[j], nodes[i]);
        }
        k := i;
      }
    }
  }
}
