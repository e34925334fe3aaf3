/**
 * Pseudo-costs in deterministic mode: workers queue updates against private copies, and each synchronisation sorts
 * what was queued and merges it into the shared table. Addition is an arbitrary function, as rounding makes it:
 * neither associative nor commutative.
 */
module PseudoCosts {
  import opened SortedOrders

  datatype Direction = Down | Up

  datatype Update = Update(variable: int, direction: Direction, delta: real, timestamp: real, worker: int)

  /** The order updates are sorted by. The direction plays no part. */
  predicate Earlier(a: Update, b: Update) {
    if a.timestamp != b.timestamp then a.timestamp < b.timestamp
    else if a.variable != b.variable then a.variable < b.variable
    else if a.delta != b.delta then a.delta < b.delta
    else a.worker < b.worker
  }

  function Key(u: Update): seq<real> {
    [u.timestamp, u.variable as real, u.delta, u.worker as real]
  }

  lemma {:induction false} EarlierIsLexicographic(a: Update, b: Update)
    ensures Earlier(a, b) <==> LexLess(Key(a), Key(b))
    ensures LexLess(Key(a), Key(b)) <==>
              a.timestamp < b.timestamp || (a.timestamp == b.timestamp &&
                (a.variable < b.variable || (a.variable == b.variable &&
                  (a.delta < b.delta || (a.delta == b.delta && a.worker < b.worker)))))
  {
    hide LexLess;
    Lex4(a.timestamp, a.variable as real, a.delta, a.worker as real,
         b.timestamp, b.variable as real, b.delta, b.worker as real);
  }

  // ---------------------------------------------------------------- the table and its meaning

  datatype Costs = Costs(sumDown: seq<real>, sumUp: seq<real>, numDown: seq<nat>, numUp: seq<nat>)

  predicate Sized(c: Costs, n: nat) {
    |c.sumDown| == |c.sumUp| == |c.numDown| == |c.numUp| == n
  }

  predicate InRange(us: seq<Update>, n: nat) {
    forall k | 0 <= k < |us| :: 0 <= us[k].variable < n
  }

  function Bump(add: (real, real) -> real, c: Costs, u: Update): Costs {
    if !(0 <= u.variable < |c.sumDown| && Sized(c, |c.sumDown|)) then c
    else if u.direction.Down? then
      c.(sumDown := c.sumDown[u.variable := add(c.sumDown[u.variable], u.delta)],
         numDown := c.numDown[u.variable := c.numDown[u.variable] + 1])
    else
      c.(sumUp := c.sumUp[u.variable := add(c.sumUp[u.variable], u.delta)],
         numUp := c.numUp[u.variable := c.numUp[u.variable] + 1])
  }

  /** The table after the updates, applied in the order given. */
  function Merged(add: (real, real) -> real, c: Costs, us: seq<Update>): Costs {
    if us == [] then c else Bump(add, Merged(add, c, us[..|us| - 1]), us[|us| - 1])
  }

  function Sum(c: Costs, v: int, d: Direction): real {
    if 0 <= v < |c.sumDown| == |c.sumUp| then if d.Down? then c.sumDown[v] else c.sumUp[v] else 0.0
  }

  function Num(c: Costs, v: int, d: Direction): nat {
    if 0 <= v < |c.numDown| == |c.numUp| then if d.Down? then c.numDown[v] else c.numUp[v] else 0
  }

  predicate Hits(u: Update, v: int, d: Direction) {
    u.variable == v && u.direction == d
  }

  /** The updates of one variable and direction, in order. */
  function Of(us: seq<Update>, v: int, d: Direction): seq<Update> {
    if us == [] then []
    else
      var rest := Of(us[..|us| - 1], v, d);
      if Hits(us[|us| - 1], v, d) then rest + [us[|us| - 1]] else rest
  }

  function Folded(add: (real, real) -> real, s: real, us: seq<Update>): real {
    if us == [] then s else add(Folded(add, s, us[..|us| - 1]), us[|us| - 1].delta)
  }

  lemma {:induction false} MergedSized(add: (real, real) -> real, c: Costs, us: seq<Update>)
    requires Sized(c, |c.sumDown|)
    ensures Sized(Merged(add, c, us), |c.sumDown|)
  {
    if us != [] { MergedSized(add, c, us[..|us| - 1]); }
  }

  /** Each sum folds exactly the updates of its own variable and direction, and each counter counts them. */
  lemma {:induction false} MergedCell(add: (real, real) -> real, c: Costs, us: seq<Update>, v: int, d: Direction)
    requires Sized(c, |c.sumDown|) && 0 <= v < |c.sumDown|
    ensures Sum(Merged(add, c, us), v, d) == Folded(add, Sum(c, v, d), Of(us, v, d))
    ensures Num(Merged(add, c, us), v, d) == Num(c, v, d) + |Of(us, v, d)|
  {
    if us != [] {
      var front, u := us[..|us| - 1], us[|us| - 1];
      MergedCell(add, c, front, v, d);
      MergedSized(add, c, front);
      BumpCell(add, Merged(add, c, front), u, v, d);
      if Hits(u, v, d) { assert Of(us, v, d)[..|Of(us, v, d)| - 1] == Of(front, v, d); }
    }
  }

  /** The same on the four columns of the table. */
  lemma {:induction false} MergedColumns(add: (real, real) -> real, c: Costs, us: seq<Update>, v: int)
    requires Sized(c, |c.sumDown|) && 0 <= v < |c.sumDown|
    ensures var after := Merged(add, c, us);
            && Sized(after, |c.sumDown|)
            && after.sumDown[v] == Folded(add, c.sumDown[v], Of(us, v, Down)) && after.numDown[v] == c.numDown[v] + |Of(us, v, Down)|
            && after.sumUp[v] == Folded(add, c.sumUp[v], Of(us, v, Up)) && after.numUp[v] == c.numUp[v] + |Of(us, v, Up)|
  {
    MergedSized(add, c, us);
    MergedCell(add, c, us, v, Down);
    MergedCell(add, c, us, v, Up);
  }

  lemma {:induction false} BumpCell(add: (real, real) -> real, c: Costs, u: Update, v: int, d: Direction)
    requires Sized(c, |c.sumDown|) && 0 <= v < |c.sumDown|
    ensures Sum(Bump(add, c, u), v, d) == if Hits(u, v, d) then add(Sum(c, v, d), u.delta) else Sum(c, v, d)
    ensures Num(Bump(add, c, u), v, d) == Num(c, v, d) + if Hits(u, v, d) then 1 else 0
  {
  }

  lemma {:induction false} SameCells(a: Costs, b: Costs, n: nat)
    requires Sized(a, n) && Sized(b, n)
    requires forall v, d | 0 <= v < n :: Sum(a, v, d) == Sum(b, v, d) && Num(a, v, d) == Num(b, v, d)
    ensures a == b
  {
    forall v | 0 <= v < n
      ensures a.sumDown[v] == b.sumDown[v] && a.sumUp[v] == b.sumUp[v] && a.numDown[v] == b.numDown[v] && a.numUp[v] == b.numUp[v]
    {
      assert Sum(a, v, Down) == Sum(b, v, Down) && Sum(a, v, Up) == Sum(b, v, Up);
      assert Num(a, v, Down) == Num(b, v, Down) && Num(a, v, Up) == Num(b, v, Up);
    }
  }

  // ---------------------------------------------------------------- one merge

  lemma {:induction false} OfMember(us: seq<Update>, v: int, d: Direction)
    ensures forall u | u in Of(us, v, d) :: u in us && u.variable == v && u.direction == d
  {
    if us != [] { OfMember(us[..|us| - 1], v, d); }
  }

  lemma {:induction false} OfCount(us: seq<Update>, v: int, d: Direction, u: Update)
    ensures multiset(Of(us, v, d))[u] == if u.variable == v && u.direction == d then multiset(us)[u] else 0
  {
    if us != [] {
      var front, last := us[..|us| - 1], us[|us| - 1];
      OfCount(front, v, d, u);
      assert us == front + [last];
    }
  }

  lemma {:induction false} OfSorted(us: seq<Update>, v: int, d: Direction)
    requires Sorted(us, Key)
    ensures Sorted(Of(us, v, d), Key)
  {
    if us != [] {
      hide Before, Key;
      var front, last := us[..|us| - 1], us[|us| - 1];
      OfSorted(front, v, d);
      OfMember(front, v, d);
      if Hits(last, v, d) {
        var rest := Of(front, v, d);
        forall i | 0 <= i < |rest| ensures Before(Key(rest[i]), Key(last)) {
          assert rest[i] in rest;
          var k :| 0 <= k < |front| && front[k] == rest[i];
          assert us[k] == front[k];
        }
      }
    }
  }

  /** Updates that tie differ in direction only, so those of one variable and direction have one sorted order. */
  lemma {:induction false} OfUnique(a: seq<Update>, b: seq<Update>, v: int, d: Direction)
    requires Sorted(a, Key) && Sorted(b, Key) && multiset(a) == multiset(b)
    ensures Of(a, v, d) == Of(b, v, d)
  {
    hide LexLess, Sorted;
    var x, y := Of(a, v, d), Of(b, v, d);
    OfSorted(a, v, d);
    OfSorted(b, v, d);
    forall u ensures multiset(x)[u] == multiset(y)[u] {
      OfCount(a, v, d, u);
      OfCount(b, v, d, u);
    }
    OfMember(a, v, d);
    forall i, j | 0 <= i < |x| && 0 <= j < |x| && Key(x[i]) == Key(x[j]) ensures x[i] == x[j] {
      KeyAndDirection(x[i], x[j], v, d);
    }
    SortedUnique(x, y, Key);
  }

  lemma {:induction false} KeyAndDirection(a: Update, b: Update, v: int, d: Direction)
    requires Hits(a, v, d) && Hits(b, v, d) && Key(a) == Key(b)
    ensures a == b
  {
    assert Key(a)[0] == Key(b)[0] && Key(a)[2] == Key(b)[2] && Key(a)[3] == Key(b)[3];
  }

  /** Sorted merging depends only on which updates were queued: not on their arrival, not on how ties were sorted. */
  lemma {:induction false} MergeIgnoresArrival(add: (real, real) -> real, c: Costs, a: seq<Update>, b: seq<Update>)
    requires Sized(c, |c.sumDown|)
    requires Sorted(a, Key) && Sorted(b, Key) && multiset(a) == multiset(b)
    ensures Merged(add, c, a) == Merged(add, c, b)
  {
    MergedSized(add, c, a);
    MergedSized(add, c, b);
    forall v, d | 0 <= v < |c.sumDown|
      ensures Sum(Merged(add, c, a), v, d) == Sum(Merged(add, c, b), v, d)
      ensures Num(Merged(add, c, a), v, d) == Num(Merged(add, c, b), v, d)
    {
      MergedCell(add, c, a, v, d);
      MergedCell(add, c, b, v, d);
      OfUnique(a, b, v, d);
    }
    SameCells(Merged(add, c, a), Merged(add, c, b), |c.sumDown|);
  }

  /** The sort alone does not fix the order: two updates that differ in direction may end either way round. */
  lemma {:induction false} TiesStayOpen(u: Update)
    ensures var w := u.(direction := if u.direction.Down? then Up else Down);
            Sorted([u, w], Key) && Sorted([w, u], Key) && [u, w] != [w, u]
  {
    LexTotal(Key(u), Key(u));
  }

  /** Without the sort the arrival order shows as soon as addition is not associative. */
  lemma {:induction false} UnsortedDiffers()
    ensures exists add: (real, real) -> real, c: Costs, a: Update, b: Update ::
              Sized(c, |c.sumDown|) && Merged(add, c, [a, b]) != Merged(add, c, [b, a])
  {
    var add := (x: real, y: real) => 2.0 * x + y;
    var c := Costs([0.0], [0.0], [0], [0]);
    var a, b := Update(0, Down, 1.0, 0.0, 0), Update(0, Down, 3.0, 0.0, 1);
    MergedCell(add, c, [a, b], 0, Down);
    MergedCell(add, c, [b, a], 0, Down);
    assert [a, b][..1] == [a] && [b, a][..1] == [b];
    assert [a][..0] == [] && [b][..0] == [];
    assert Of([a], 0, Down) == [a] && Of([b], 0, Down) == [b];
    assert Of([a, b], 0, Down) == [a, b] && Of([b, a], 0, Down) == [b, a];
    assert Folded(add, 0.0, [a]) == 1.0 && Folded(add, 0.0, [b]) == 3.0;
    assert Folded(add, 0.0, [a, b]) == 5.0 && Folded(add, 0.0, [b, a]) == 7.0;
  }

  // ---------------------------------------------------------------- the classes

  /** The shared table. */
  class PseudoCostTable {
    const add: (real, real) -> real
    const size: nat
    var sumDown: seq<real>
    var sumUp: seq<real>
    var numDown: seq<nat>
    var numUp: seq<nat>

    constructor (add: (real, real) -> real, size: nat)
      ensures this.add == add && this.size == size && Sized(Value(), size)
      ensures forall v, d | 0 <= v < size :: Sum(Value(), v, d) == 0.0 && Num(Value(), v, d) == 0
    {
      this.add := add;
      this.size := size;
      sumDown, sumUp := seq(size, _ => 0.0), seq(size, _ => 0.0);
      numDown, numUp := seq(size, _ => 0), seq(size, _ => 0);
    }

    function Value(): Costs
      reads this
    {
      Costs(sumDown, sumUp, numDown, numUp)
    }

    method MergeUpdates(updates: seq<Update>)
      requires Sized(Value(), size) && InRange(updates, size)
      modifies this
      ensures Sized(Value(), size) && Value() == Merged(add, old(Value()), updates)
    {
      for k := 0 to |updates|
        invariant Sized(Value(), size) && Value() == Merged(add, old(Value()), updates[..k])
      {
        var u := updates[k];
        assert updates[..k + 1][..k] == updates[..k];
        if u.direction == Down {
          sumDown := sumDown[u.variable := add(sumDown[u.variable], u.delta)];
          numDown := numDown[u.variable := numDown[u.variable] + 1];
        } else {
          sumUp := sumUp[u.variable := add(sumUp[u.variable], u.delta)];
          numUp := numUp[u.variable := numUp[u.variable] + 1];
        }
      }
      assert updates[..|updates|] == updates;
    }

    /** One pool of workers at a synchronisation: take what they queued, sort it, merge it. */
    method MergeFrom(workers: seq<Snapshot>) returns (ghost order: seq<Update>)
      requires Sized(Value(), size) && AllDistinct(workers)
      requires forall w | w in workers :: InRange(w.updates, size)
      modifies this, workers
      ensures Sized(Value(), size)
      ensures multiset(order) == multiset(old(Queued(workers))) && Sorted(order, Key)
      ensures Value() == Merged(add, old(Value()), order)
      ensures forall w | w in workers :: w.updates == [] && w.costs == old(w.costs)
    {
      var all: seq<Update> := [];
      for k := 0 to |workers|
        invariant Value() == old(Value()) && all == old(Queued(workers[..k])) && InRange(all, size)
        invariant forall i | 0 <= i < k :: workers[i].updates == []
        invariant forall i | k <= i < |workers| :: workers[i].updates == old(workers[i].updates)
        invariant forall i | 0 <= i < |workers| :: workers[i].costs == old(workers[i].costs)
      {
        assert workers[k] in workers;
        var taken := workers[k].TakeUpdates();
        all := all + taken;
        assert workers[..k + 1][..k] == workers[..k];
      }
      assert workers[..|workers|] == workers;
      var sorted := SortBy(all, Key);
      assert InRange(sorted, size) by {
        forall i | 0 <= i < |sorted| ensures 0 <= sorted[i].variable < size {
          assert sorted[i] in multiset(all);
        }
      }
      MergeUpdates(sorted);
      order := sorted;
    }
  }

  /**
   * A synchronisation: what the best-first workers queued is merged, then what the diving workers queued, and every
   * worker gets a copy of the result.
   */
  method Synchronise(table: PseudoCostTable, bfs: seq<Snapshot>, diving: seq<Snapshot>)
    returns (ghost first: seq<Update>, ghost second: seq<Update>)
    requires Sized(table.Value(), table.size) && AllDistinct(bfs) && AllDistinct(diving)
    requires forall w | w in bfs :: w !in diving && w.size == table.size && InRange(w.updates, table.size)
    requires forall w | w in diving :: w.size == table.size && InRange(w.updates, table.size)
    modifies table, bfs, diving
    ensures Sorted(first, Key) && multiset(first) == multiset(old(Queued(bfs)))
    ensures Sorted(second, Key) && multiset(second) == multiset(old(Queued(diving)))
    ensures Sized(table.Value(), table.size)
    ensures table.Value() == Merged(table.add, Merged(table.add, old(table.Value()), first), second)
    ensures forall w | w in bfs :: w.updates == [] && w.costs == table.Value()
    ensures forall w | w in diving :: w.updates == [] && w.costs == table.Value()
  {
    hide Merged, Sorted, Sized, AllDistinct, InRange;
    first := table.MergeFrom(bfs);
    QueuedSame(diving);
    second := table.MergeFrom(diving);
    Broadcast(table, bfs);
    Broadcast(table, diving);
  }

  method Broadcast(table: PseudoCostTable, workers: seq<Snapshot>)
    requires Sized(table.Value(), table.size) && forall w | w in workers :: w.size == table.size
    modifies set w | w in workers :: w`costs
    ensures forall w | w in workers :: w.costs == table.Value()
  {
    for k := 0 to |workers|
      invariant forall i | 0 <= i < k :: workers[i].costs == table.Value()
    {
      assert workers[k] in workers;
      workers[k].Refresh(table);
    }
  }

  twostate lemma {:induction false} QueuedSame(workers: seq<Snapshot>)
    requires forall w | w in workers :: w.updates == old(w.updates)
    ensures Queued(workers) == old(Queued(workers))
  {
    if workers != [] { QueuedSame(workers[..|workers| - 1]); }
  }

  predicate AllDistinct(workers: seq<Snapshot>) {
    forall i, j | 0 <= i < j < |workers| :: workers[i] != workers[j]
  }

  /** What the workers have queued, in the order of the workers. */
  function Queued(workers: seq<Snapshot>): seq<Update>
    reads workers
  {
    if workers == [] then [] else Queued(workers[..|workers| - 1]) + workers[|workers| - 1].updates
  }

  /** A worker's private copy of the table and the updates it has queued since it last handed them over. */
  class Snapshot {
    const add: (real, real) -> real
    const size: nat
    var costs: Costs
    var updates: seq<Update>

    constructor (add: (real, real) -> real, costs: Costs)
      requires Sized(costs, |costs.sumDown|)
      ensures this.add == add && this.size == |costs.sumDown| && this.costs == costs && updates == []
    {
      this.add := add;
      this.size := |costs.sumDown|;
      this.costs := costs;
      this.updates := [];
    }

    method QueueUpdate(variable: int, direction: Direction, delta: real, clock: real, worker: int)
      requires Sized(costs, size) && 0 <= variable < size
      modifies this
      ensures Sized(costs, size)
      ensures updates == old(updates) + [Update(variable, direction, delta, clock, worker)]
      ensures costs == Merged(add, old(costs), [Update(variable, direction, delta, clock, worker)])
    {
      var u := Update(variable, direction, delta, clock, worker);
      updates := updates + [u];
      if direction == Down {
        costs := costs.(sumDown := costs.sumDown[variable := add(costs.sumDown[variable], delta)],
                        numDown := costs.numDown[variable := costs.numDown[variable] + 1]);
      } else {
        costs := costs.(sumUp := costs.sumUp[variable := add(costs.sumUp[variable], delta)],
                        numUp := costs.numUp[variable := costs.numUp[variable] + 1]);
      }
      assert [u][..0] == [];
      assert Merged(add, old(costs), []) == old(costs);
    }

    /** Hands over the queued updates and keeps none. */
    method TakeUpdates() returns (result: seq<Update>)
      modifies this`updates
      ensures result == old(updates) && updates == []
    {
      result := updates;
      updates := [];
    }

    /** Copies the shared table; what is queued stays queued. */
    method Refresh(table: PseudoCostTable)
      requires Sized(table.Value(), size)
      modifies this`costs
      ensures costs == table.Value()
    {
      costs := table.Value();
    }
  }
}
