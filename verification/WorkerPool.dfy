/**
 * The pool of diving workers: a first-in first-out list of idle ids with its counter, and for every best-first
 * worker the number of active divers it has launched.
 */
module WorkerPool {
  import opened Extended

  /** A diving worker: whether it is active, and the best-first worker it was last launched by (-1 before that). */
  datatype Diver = Diver(active: bool, owner: int)

  /** What the queue of a best-first worker offers to dive from. */
  datatype DiveNode = NoDive | Dive(bound: Ext, depth: int)

  predicate Distinct(ids: seq<int>) {
    forall i, j | 0 <= i < j < |ids| :: ids[i] != ids[j]
  }

  /** How many active divers belong to best-first worker `b`. */
  function Attached(divers: seq<Diver>, b: int): nat {
    if divers == [] then 0
    else Attached(divers[..|divers| - 1], b) + (if divers[|divers| - 1] == Diver(true, b) then 1 else 0)
  }

  function One(d: Diver, b: int): nat {
    if d == Diver(true, b) then 1 else 0
  }

  lemma {:induction false} AttachedPut(divers: seq<Diver>, k: int, d: Diver, b: int)
    requires 0 <= k < |divers|
    ensures Attached(divers[k := d], b) + One(divers[k], b) == Attached(divers, b) + One(d, b)
  {
    var n := |divers| - 1;
    if k == n {
      assert divers[k := d][..n] == divers[..n];
    } else {
      assert divers[k := d][..n] == divers[..n][k := d];
      AttachedPut(divers[..n], k, d, b);
    }
  }

  lemma {:induction false} AttachedPositive(divers: seq<Diver>, b: int)
    ensures Attached(divers, b) > 0 <==> Diver(true, b) in divers
  {
    if divers != [] {
      var n := |divers| - 1;
      AttachedPositive(divers[..n], b);
      assert divers == divers[..n] + [divers[n]];
    }
  }

  /** A list of distinct ids below `n` that is as long as `n` names every id. */
  lemma {:induction false} FullList(ids: seq<int>, n: nat)
    requires Distinct(ids) && |ids| == n && forall w | w in ids :: 0 <= w < n
    ensures forall w | 0 <= w < n :: w in ids
  {
    forall w | 0 <= w < n ensures w in ids {
      if w !in ids {
        assert Distinct(ids + [w]);
        TooMany(ids + [w], n);
      }
    }
  }

  lemma {:induction false} TooMany(ids: seq<int>, n: nat)
    requires Distinct(ids) && forall w | w in ids :: 0 <= w < n
    ensures |ids| <= n
    decreases |ids|
  {
    if ids != [] {
      var last := ids[|ids| - 1];
      assert last in ids;
      var rest := ids[..|ids| - 1];
      var moved := seq(|rest|, i requires 0 <= i < |rest| => if rest[i] == n - 1 then last else rest[i]);
      forall i | 0 <= i < |rest| ensures rest[i] in ids && rest[i] != last {}
      forall w | w in moved ensures 0 <= w < n - 1 {
        var i :| 0 <= i < |moved| && moved[i] == w;
        assert rest[i] in ids && rest[i] != last;
      }
      assert Distinct(moved);
      TooMany(moved, n - 1);
    }
  }

  class DivingPool {
    const divers: array<Diver>
    const launched: array<int>          // per best-first worker: active diving workers
    const most: seq<nat>                // per best-first worker: the most it may have
    var idle: seq<int>
    var numIdle: int

    ghost predicate Valid()
      reads this, divers, launched
    {
      && launched.Length == |most| && Distinct(idle) && numIdle == |idle|
      && (forall w | w in idle :: 0 <= w < divers.Length && !divers[w].active)
      && (forall b | 0 <= b < launched.Length :: launched[b] == Attached(divers[..], b) && launched[b] <= most[b])
      && (forall w | 0 <= w < divers.Length && divers[w].active :: 0 <= divers[w].owner < launched.Length)
    }

    constructor (size: nat, most: seq<nat>)
      ensures Valid() && fresh(divers) && fresh(launched) && this.most == most && divers.Length == size
      ensures idle == seq(size, i => i) && forall w | 0 <= w < size :: divers[w] == Diver(false, -1)
    {
      divers := new Diver[size](_ => Diver(false, -1));
      launched := new int[|most|](_ => 0);
      this.most := most;
      idle := seq(size, i => i);
      numIdle := size;
      new;
      forall b | 0 <= b < launched.Length ensures Attached(divers[..], b) == 0 {
        AttachedPositive(divers[..], b);
      }
    }

    /** Takes the id that has been idle longest; -1 when there is none. */
    method PopIdle() returns (id: int)
      requires Valid()
      modifies this
      ensures Valid()
      ensures old(idle) == [] ==> id == -1 && idle == []
      ensures old(idle) != [] ==>
                old(idle) == [id] + idle && id !in idle && 0 <= id < divers.Length && !divers[id].active
    {
      if idle == [] { return -1; }
      id := idle[0];
      assert id in idle;
      idle := idle[1..];
      numIdle := numIdle - 1;
      forall w | w in idle ensures w in old(idle) {}
    }

    /** A diver stops: its owner has one active diver less. A diver that never became active changes no count. */
    method SetInactive(w: int)
      requires Valid() && 0 <= w < divers.Length
      modifies divers, launched
      ensures Valid()
      ensures divers[..] == old(divers[..])[w := old(divers[w]).(active := false)]
      ensures forall b | 0 <= b < launched.Length ::
                launched[b] == old(launched[b]) - (if old(divers[w]) == Diver(true, b) then 1 else 0)
    {
      if !divers[w].active { return; }
      ghost var before := divers[..];
      ghost var after := before[w := Diver(false, before[w].owner)];
      divers[w] := divers[w].(active := false);
      launched[divers[w].owner] := launched[divers[w].owner] - 1;
      assert divers[..] == after;
      forall b | 0 <= b < launched.Length ensures launched[b] == Attached(divers[..], b) {
        AttachedPut(before, w, after[w], b);
      }
    }

    /** A worker taken from the pool goes to the end of the list, inactive. */
    method ReturnWorker(w: int)
      requires Valid() && 0 <= w < divers.Length && w !in idle
      modifies this, divers, launched
      ensures Valid()
      ensures idle == old(idle) + [w]
      ensures divers[..] == old(divers[..])[w := old(divers[w]).(active := false)]
      ensures forall b | 0 <= b < launched.Length ::
                launched[b] == old(launched[b]) - (if old(divers[w]) == Diver(true, b) then 1 else 0)
    {
      SetInactive(w);
      idle := idle + [w];
      numIdle := numIdle + 1;
    }

    /**
     * A best-first worker below its maximum launches a diver from the node its queue offers, if any. A diver that
     * may not start goes straight back and no count changes. `strengthened` says whether the start bounds survive
     * strengthening, `stopped` whether the time limit or a final status has been reached.
     */
    method Launch(b: int, enabled: bool, node: DiveNode, upper: Ext, minDepth: int, strengthened: bool, stopped: bool)
      returns (id: int)
      requires Valid() && 0 <= b < launched.Length && launched[b] < most[b]
      modifies this, divers, launched
      ensures Valid()
      ensures id >= 0 <==>
                && enabled && old(idle) != [] && strengthened && !stopped
                && node.Dive? && Le(node.bound, upper) && node.depth >= minDepth
      ensures id >= 0 ==>
                old(idle) == [id] + idle && id < divers.Length
                && divers[..] == old(divers[..])[id := Diver(true, b)]
                && launched[..] == old(launched[..])[b := old(launched[b]) + 1]
      ensures id < 0 ==> multiset(idle) == multiset(old(idle)) && divers[..] == old(divers[..]) && launched[..] == old(launched[..])
      ensures id < 0 && old(idle) != [] ==> idle == if enabled then old(idle)[1..] + [old(idle)[0]] else old(idle)
    {
      if !enabled { return -1; }
      id := PopIdle();
      if id < 0 { return; }
      assert old(idle) == [id] + old(idle)[1..];
      if node.NoDive? || Lt(upper, node.bound) || node.depth < minDepth || !strengthened || stopped {
        ReturnWorker(id);
        return -1;
      }
      ghost var before := divers[..];
      ghost var after := before[id := Diver(true, b)];
      divers[id] := Diver(true, b);
      launched[b] := launched[b] + 1;
      assert divers[..] == after;
      forall c | 0 <= c < launched.Length ensures launched[c] == Attached(divers[..], c) {
        AttachedPut(before, id, after[id], c);
      }
    }

    /** The pool is complete exactly when its counter says so, and then no best-first worker has an active diver. */
    lemma {:induction false} AllIdle()
      requires Valid()
      ensures numIdle <= divers.Length
      ensures numIdle == divers.Length <==> forall w | 0 <= w < divers.Length :: w in idle
      ensures numIdle == divers.Length ==> forall b | 0 <= b < launched.Length :: launched[b] == 0
    {
      TooMany(idle, divers.Length);
      if numIdle == divers.Length {
        FullList(idle, divers.Length);
        forall b | 0 <= b < launched.Length ensures launched[b] == 0 {
          AttachedPositive(divers[..], b);
        }
      } else {
        if forall w | 0 <= w < divers.Length :: w in idle {
          Covering(idle, divers.Length);
        }
      }
    }
  }

  /** A list that names every id below `n` has at least `n` entries. */
  lemma {:induction false} Covering(ids: seq<int>, n: nat)
    requires forall w | 0 <= w < n :: w in ids
    ensures |ids| >= n
  {
    if n > 0 {
      assert n - 1 in ids;
      var k :| 0 <= k < |ids| && ids[k] == n - 1;
      var rest := ids[..k] + ids[k + 1..];
      forall w | 0 <= w < n - 1 ensures w in rest {
        assert w in ids;
        var i :| 0 <= i < |ids| && ids[i] == w;
        assert rest[if i < k then i else i - 1] == w;
      }
      Covering(rest, n - 1);
    }
  }
}
