/** The queue of open nodes: a best-first heap and a diving heap over shared entries, deleted lazily. */
module NodeQueue {
  import opened Extended

  /** A tree node as the queues see it. */
  class QueueNode {
    const id: int
    var lowerBound: Ext
    var estimate: Ext
    var canDive: bool

    constructor (id: int, lowerBound: Ext, estimate: Ext)
      ensures this.id == id && this.lowerBound == lowerBound && this.estimate == estimate && canDive
    {
      this.id, this.lowerBound, this.estimate, canDive := id, lowerBound, estimate, true;
    }
  }

  /** An entry shared by both heaps; its node is cleared when the node leaves the queue. */
  class HeapEntry {
    var node: QueueNode?
    const lowerBound: Ext
    const score: Ext

    constructor (node: QueueNode)
      ensures this.node == node && lowerBound == node.lowerBound && score == node.estimate
    {
      this.node, lowerBound, score := node, node.lowerBound, node.estimate;
    }
  }

  predicate Distinct<T(==)>(s: seq<T>) {
    forall i, j | 0 <= i < j < |s| :: s[i] != s[j]
  }

  function Without<T>(s: seq<T>, k: int): seq<T>
    requires 0 <= k < |s|
  {
    s[..k] + s[k + 1..]
  }

  lemma {:induction false} WithoutMembers<T>(s: seq<T>, k: int)
    requires 0 <= k < |s| && Distinct(s)
    ensures Distinct(Without(s, k)) && |Without(s, k)| == |s| - 1
    ensures forall e :: e in Without(s, k) <==> e in s && e != s[k]
  {
    var t := Without(s, k);
    forall i | 0 <= i < |t| ensures t[i] == if i < k then s[i] else s[i + 1] {}
    forall e ensures e in t <==> e in s && e != s[k] {
      if e in s && e != s[k] {
        var i :| 0 <= i < |s| && s[i] == e;
        assert t[if i < k then i else i - 1] == e;
      }
    }
  }

  lemma {:induction false} DistinctSnoc<T>(s: seq<T>, e: T)
    requires Distinct(s) && e !in s
    ensures Distinct(s + [e])
  {
  }

  predicate LeastAt(keys: seq<Ext>, k: int) {
    0 <= k < |keys| && forall j | 0 <= j < |keys| :: Le(keys[k], keys[j])
  }

  lemma {:induction false} LeastExists(keys: seq<Ext>) returns (k: int)
    requires keys != []
    ensures LeastAt(keys, k)
  {
    if |keys| == 1 {
      k := 0;
    } else {
      var last := |keys| - 1;
      k := LeastExists(keys[..last]);
      if !Le(keys[k], keys[last]) { k := last; }
    }
  }

  function Bounds(entries: seq<HeapEntry>): seq<Ext> {
    seq(|entries|, k requires 0 <= k < |entries| => entries[k].lowerBound)
  }

  function Scores(entries: seq<HeapEntry>): seq<Ext> {
    seq(|entries|, k requires 0 <= k < |entries| => entries[k].score)
  }

  /** `b` is the smallest bound in a heap, infinity for the empty heap. */
  predicate IsLeastBound(b: Ext, entries: seq<HeapEntry>) {
    if entries == [] then b == PosInf
    else (exists k | 0 <= k < |entries| :: entries[k].lowerBound == b) && forall k | 0 <= k < |entries| :: Le(b, entries[k].lowerBound)
  }

  /** Pick any position with a least key, as a heap does. */
  method ChooseLeast(keys: seq<Ext>) returns (k: int)
    requires keys != []
    ensures LeastAt(keys, k)
  {
    ghost var least := LeastExists(keys);
    k :| LeastAt(keys, k);
  }

  lemma {:induction false} LeastBoundAt(entries: seq<HeapEntry>, k: int)
    requires LeastAt(Bounds(entries), k)
    ensures 0 <= k < |entries| && IsLeastBound(entries[k].lowerBound, entries)
  {
    forall j | 0 <= j < |entries| ensures Le(entries[k].lowerBound, entries[j].lowerBound) {
      assert Le(Bounds(entries)[k], Bounds(entries)[j]);
    }
  }

  lemma {:induction false} LeastMember(keys: seq<Ext>, k: int, j: int)
    requires LeastAt(keys, k) && 0 <= j < |keys|
    ensures Le(keys[k], keys[j])
  {
  }

  class NodeQueue {
    // heaps as the sequence of their entries; any least entry may be popped
    var bestFirst: seq<HeapEntry>
    var diving: seq<HeapEntry>
    var lowerBound: Ext
    // the nodes in the queue, and all entries in either heap
    ghost var contents: set<QueueNode>
    ghost var entries: set<HeapEntry>

    constructor ()
      ensures Valid() && contents == {} && entries == {} && bestFirst == []
    {
      bestFirst, diving, lowerBound, contents, entries := [], [], PosInf, {}, {};
    }

    /** Entries and nodes of the best-first heap correspond one to one. */
    ghost predicate Matched()
      reads this, entries, contents
    {
      && Distinct(bestFirst)
      && (forall e | e in bestFirst ::
            e in entries && e.node != null && e.node in contents && e.lowerBound == e.node.lowerBound && e.score == e.node.estimate)
      && (forall e, f | e in bestFirst && f in bestFirst && e != f && e in entries && f in entries :: e.node != f.node)
      && (forall n | n in contents :: exists e :: e in bestFirst && e in entries && e.node == n)
    }

    /** The live entries of the diving heap are the best-first entries whose node may still be dived from. */
    ghost predicate DivingMatched()
      reads this, entries, contents
    {
      && Distinct(diving)
      && (forall e | e in diving :: e in entries && (e.node != null ==> e in bestFirst))
      && (forall e | e in bestFirst && e in entries && e.node != null && e.node in contents :: e in diving <==> e.node.canDive)
    }

    ghost predicate Valid()
      reads this, entries, contents
    {
      Matched() && DivingMatched() && IsLeastBound(lowerBound, bestFirst)
    }

    /** Add a node to the best-first heap, and to the diving heap unless it was dived from before. */
    method Push(n: QueueNode)
      requires Valid() && n !in contents
      modifies this
      ensures Valid() && contents == old(contents) + {n} && |bestFirst| == |old(bestFirst)| + 1
      ensures old(entries) <= entries && fresh(entries - old(entries))
    {
      hide Matched, DivingMatched;
      HeapsInside();
      var entry := new HeapEntry(n);
      DistinctSnoc(bestFirst, entry);
      DistinctSnoc(diving, entry);
      bestFirst := bestFirst + [entry];
      if n.canDive { diving := diving + [entry]; }
      contents := contents + {n};
      entries := entries + {entry};
      lowerBound := TopBound();
      PushMatched(entry, n);
      PushDivingMatched(entry, n);
    }

    lemma {:induction false} HeapsInside()
      requires Valid()
      ensures Distinct(bestFirst) && Distinct(diving)
      ensures (forall e | e in bestFirst :: e in entries) && (forall e | e in diving :: e in entries)
    {
    }

    /** A new entry for `n` in the best-first heap, and in the diving heap if `n` may be dived from. */
    twostate predicate Added(new entry: HeapEntry, n: QueueNode)
      reads this, entries, contents, entry, n
    {
      && entry !in old(entries) && entry.node == n && n !in old(contents)
      && entry.lowerBound == n.lowerBound && entry.score == n.estimate
      && bestFirst == old(bestFirst) + [entry] && diving == old(diving) + (if n.canDive then [entry] else [])
      && Distinct(bestFirst) && Distinct(diving)
      && entries == old(entries) + {entry} && contents == old(contents) + {n}
      && (forall e | e in old(entries) :: e.node == old(e.node))
      && (forall m | m in old(contents) :: m.lowerBound == old(m.lowerBound) && m.estimate == old(m.estimate) && m.canDive == old(m.canDive))
    }

    twostate lemma {:induction false} PushMatched(new entry: HeapEntry, n: QueueNode)
      requires old(Matched()) && Added(entry, n)
      ensures Matched()
    {
      assert entry in bestFirst;
      forall e | e in bestFirst
        ensures e in entries && e.node != null && e.node in contents && e.lowerBound == e.node.lowerBound && e.score == e.node.estimate
        ensures e == entry || (e in old(bestFirst) && e in old(entries) && e.node in old(contents))
      {
      }
      forall m | m in contents ensures exists e :: e in bestFirst && e in entries && e.node == m {
        if m != n {
          var e :| e in old(bestFirst) && e in old(entries) && old(e.node) == m;
          assert e in bestFirst && e in entries && e.node == m;
        }
      }
      forall e, f | e in bestFirst && f in bestFirst && e != f && e in entries && f in entries
        ensures e.node != f.node
      {
        if e != entry && f != entry { assert old(e.node) != old(f.node); }
      }
    }

    twostate lemma {:induction false} PushDivingMatched(new entry: HeapEntry, n: QueueNode)
      requires old(Matched()) && old(DivingMatched()) && Added(entry, n)
      ensures DivingMatched()
    {
      forall e | e in diving ensures e in entries && (e.node != null ==> e in bestFirst) {
        assert e == entry || (e in old(diving) && e in old(entries));
      }
      forall e | e in bestFirst && e in entries && e.node != null && e.node in contents
        ensures e in diving <==> e.node.canDive
      {
        assert e == entry || (e in old(bestFirst) && e in old(entries));
        assert entry !in old(diving);
      }
    }

    /** The cached bound: that of the best entry, infinity when there is none. */
    method GetLowerBound() returns (b: Ext)
      requires Valid()
      ensures IsLeastBound(b, bestFirst)
    {
      b := if bestFirst == [] then PosInf else lowerBound;
    }

    /** The bound of the entry on top of the heap, infinity when there is none. */
    method TopBound() returns (b: Ext)
      ensures IsLeastBound(b, bestFirst)
    {
      if bestFirst == [] { return PosInf; }
      var k := ChooseLeast(Bounds(bestFirst));
      LeastBoundAt(bestFirst, k);
      b := bestFirst[k].lowerBound;
    }

    /** Take out a node with the smallest bound; its entry, perhaps still in the diving heap, is invalidated. */
    method Pop() returns (n: QueueNode?)
      requires Valid()
      modifies this, entries
      ensures Valid() && (n == null <==> old(bestFirst) == []) && (old(bestFirst) == [] <==> old(contents) == {})
      ensures n == null ==> contents == old(contents) && bestFirst == old(bestFirst)
      ensures n != null ==> n in old(contents) && contents == old(contents) - {n} && |bestFirst| == |old(bestFirst)| - 1
      ensures n != null ==> forall m | m in old(contents) :: Le(n.lowerBound, m.lowerBound)
      ensures entries == old(entries)
    {
      hide Matched, DivingMatched;
      EmptyContents();
      if bestFirst == [] {
        return null;
      }
      n := PopBest();
    }

    /** Take out the entry of a node with the smallest bound. */
    method PopBest() returns (n: QueueNode)
      requires Valid() && bestFirst != []
      modifies this, entries
      ensures Valid() && n in old(contents) && contents == old(contents) - {n} && |bestFirst| == |old(bestFirst)| - 1
      ensures forall m | m in old(contents) :: Le(n.lowerBound, m.lowerBound)
      ensures entries == old(entries)
    {
      hide Matched, DivingMatched, Corresponds;
      ghost var nodeOf := map e | e in entries :: e.node;
      ghost var best, nodes := bestFirst, contents;
      assert Corresponds(best, diving, nodeOf, nodes) by { Snapshot(nodeOf); }
      var k := ChooseLeast(Bounds(bestFirst));
      LeastNode(k);
      var entry := bestFirst[k];
      n := entry.node;
      HeapsDistinct();
      WithoutMembers(bestFirst, k);
      bestFirst := Without(bestFirst, k);
      lowerBound := TopBound();
      contents := contents - {n};
      entry.node := null;
      PopMatched(entry, n, best, nodeOf, nodes);
      PopDivingMatched(entry, n, best, nodeOf, nodes);
    }

    lemma {:induction false} EmptyContents()
      requires Valid()
      ensures bestFirst == [] <==> contents == {}
    {
      if bestFirst != [] { assert bestFirst[0] in bestFirst; }
    }

    /** Both heaps seen through the nodes that the entries held at some moment. */
    static ghost predicate Corresponds(best: seq<HeapEntry>, diving: seq<HeapEntry>, nodeOf: map<HeapEntry, QueueNode?>, nodes: set<QueueNode>)
      reads nodes
    {
      && (forall e | e in best ::
            e in nodeOf && nodeOf[e] != null && nodeOf[e] in nodes && e.lowerBound == nodeOf[e].lowerBound && e.score == nodeOf[e].estimate)
      && (forall e, f | e in best && f in best && e != f :: e in nodeOf && f in nodeOf && nodeOf[e] != nodeOf[f])
      && (forall n | n in nodes :: exists e :: e in best && e in nodeOf && nodeOf[e] == n)
      && (forall e | e in diving :: e in nodeOf && (nodeOf[e] != null ==> e in best))
      && (forall e | e in best && e in nodeOf && nodeOf[e] != null && nodeOf[e] in nodes :: e in diving <==> nodeOf[e].canDive)
    }

    lemma {:induction false} Snapshot(nodeOf: map<HeapEntry, QueueNode?>)
      requires Valid() && nodeOf.Keys == entries && forall e | e in entries :: nodeOf[e] == e.node
      ensures Corresponds(bestFirst, diving, nodeOf, contents)
    {
      forall n | n in contents ensures exists e :: e in bestFirst && e in nodeOf && nodeOf[e] == n {
        var e :| e in bestFirst && e in entries && e.node == n;
        assert e in nodeOf && nodeOf[e] == n;
      }
    }

    /** `entry` left the best-first heap `best` and lost its node `n`. */
    ghost predicate Removed(entry: HeapEntry, n: QueueNode, best: seq<HeapEntry>, nodeOf: map<HeapEntry, QueueNode?>, nodes: set<QueueNode>)
      reads this, entries, entry
    {
      && entry in best && nodeOf.Keys == entries && entry in nodeOf && nodeOf[entry] == n && entry.node == null
      && Distinct(bestFirst) && Distinct(diving)
      && (forall e | e in bestFirst :: e in best && e != entry) && (forall e | e in best && e != entry :: e in bestFirst)
      && contents == nodes - {n}
      && (forall e | e in entries && e != entry :: e.node == nodeOf[e])
    }

    lemma {:induction false} PopMatched(entry: HeapEntry, n: QueueNode, best: seq<HeapEntry>, nodeOf: map<HeapEntry, QueueNode?>, nodes: set<QueueNode>)
      requires Corresponds(best, diving, nodeOf, nodes) && Removed(entry, n, best, nodeOf, nodes)
      ensures Matched()
    {
      forall m | m in contents ensures exists e :: e in bestFirst && e in entries && e.node == m {
        var e :| e in best && e in nodeOf && nodeOf[e] == m;
        assert e in bestFirst && e in entries && e.node == m;
      }
      forall e | e in bestFirst
        ensures e in entries && e.node != null && e.node in contents && e.lowerBound == e.node.lowerBound && e.score == e.node.estimate
      {
        assert e in best && nodeOf[e] != nodeOf[entry];
      }
      forall e, f | e in bestFirst && f in bestFirst && e != f && e in entries && f in entries
        ensures e.node != f.node
      {
        assert nodeOf[e] != nodeOf[f];
      }
    }

    lemma {:induction false} PopDivingMatched(entry: HeapEntry, n: QueueNode, best: seq<HeapEntry>, nodeOf: map<HeapEntry, QueueNode?>, nodes: set<QueueNode>)
      requires Corresponds(best, diving, nodeOf, nodes) && Removed(entry, n, best, nodeOf, nodes)
      ensures DivingMatched()
    {
      forall e | e in bestFirst && e in entries && e.node != null && e.node in contents
        ensures e in diving <==> e.node.canDive
      {
        assert e in best && e != entry && e in nodeOf;
      }
    }

    lemma {:induction false} LeastNode(k: int)
      requires Valid() && LeastAt(Bounds(bestFirst), k)
      ensures 0 <= k < |bestFirst| && bestFirst[k] in entries && bestFirst[k].node != null && bestFirst[k].node in contents
      ensures forall m | m in contents :: Le(bestFirst[k].node.lowerBound, m.lowerBound)
    {
      assert bestFirst[k] in bestFirst;
      forall m | m in contents
        ensures Le(bestFirst[k].node.lowerBound, m.lowerBound)
      {
        var e :| e in bestFirst && e in entries && e.node == m;
        var j :| 0 <= j < |bestFirst| && bestFirst[j] == e;
        LeastMember(Bounds(bestFirst), k, j);
      }
    }

    /** Take the most promising entry out of the diving heap; nothing when it is dead. */
    method PopDivingEntry() returns (n: QueueNode?)
      requires Valid() && diving != []
      modifies this`diving, contents
      ensures Valid() && |diving| == |old(diving)| - 1
      ensures n == null ==> forall m | m in contents :: m.canDive == old(m.canDive)
      ensures n != null ==> n in contents && old(n.canDive) && !n.canDive
      ensures n != null ==> forall m | m in contents && old(m.canDive) :: Le(n.estimate, m.estimate)
      ensures forall m | m in contents ::
                m.lowerBound == old(m.lowerBound) && m.estimate == old(m.estimate) && (m != n ==> m.canDive == old(m.canDive))
    {
      hide Matched, DivingMatched;
      var k := ChooseLeast(Scores(diving));
      var entry := diving[k];
      assert entry in diving;
      LeastScore(k);
      HeapsDistinct();
      WithoutMembers(diving, k);
      diving := Without(diving, k);
      n := entry.node;
      if n != null {
        n.canDive := false;
      }
      DivedMatched(entry);
      DivedDivingMatched(entry);
    }

    lemma {:induction false} HeapsDistinct()
      requires Valid()
      ensures Distinct(bestFirst) && Distinct(diving)
    {
    }

    /** `entry` left the diving heap; its node, if it has one, may not be dived from any more. */
    twostate predicate Dived(entry: HeapEntry)
      reads this, entries, contents, entry
    {
      && entry in old(diving) && entry in entries && (entry.node != null ==> entry in bestFirst && entry.node in contents && !entry.node.canDive)
      && Distinct(diving) && (forall e | e in diving :: e in old(diving) && e != entry)
      && (forall e | e in old(diving) && e != entry :: e in diving)
      && bestFirst == old(bestFirst) && entries == old(entries) && contents == old(contents)
      && (forall e | e in entries :: e.node == old(e.node))
      && (forall m | m in contents :: m.lowerBound == old(m.lowerBound) && m.estimate == old(m.estimate))
      && (forall m | m in contents && m != entry.node :: m.canDive == old(m.canDive))
    }

    twostate lemma {:induction false} DivedMatched(entry: HeapEntry)
      requires old(Matched()) && Dived(entry)
      ensures Matched()
    {
      forall m | m in contents ensures exists e :: e in bestFirst && e in entries && e.node == m {
        var e :| e in old(bestFirst) && e in old(entries) && old(e.node) == m;
        assert e in bestFirst && e in entries && e.node == m;
      }
      forall e | e in bestFirst
        ensures e in entries && e.node != null && e.node in contents && e.lowerBound == e.node.lowerBound && e.score == e.node.estimate
      {
        assert e in old(bestFirst) && e in old(entries);
      }
      forall e, f | e in bestFirst && f in bestFirst && e != f && e in entries && f in entries
        ensures e.node != f.node
      {
        assert old(e.node) != old(f.node);
      }
    }

    twostate lemma {:induction false} DivedDivingMatched(entry: HeapEntry)
      requires old(Matched()) && old(DivingMatched()) && Dived(entry)
      ensures DivingMatched()
    {
      forall e | e in diving ensures e in entries && (e.node != null ==> e in bestFirst) {
        assert e in old(diving) && e in old(entries);
      }
      forall e | e in bestFirst && e in entries && e.node != null && e.node in contents
        ensures e in diving <==> e.node.canDive
      {
        assert e in old(bestFirst) && e in old(entries);
        if e != entry && entry.node != null {
          assert old(e.node) != old(entry.node);
        }
      }
    }

    /** The most promising node that nobody dived from yet; it stays queued but is never selected again. */
    method PopDiving() returns (n: QueueNode?)
      requires Valid()
      modifies this`diving, contents
      ensures Valid()
      ensures n == null ==> forall m | m in contents :: !old(m.canDive)
      ensures n != null ==> n in contents && old(n.canDive) && !n.canDive
      ensures n != null ==> forall m | m in contents && old(m.canDive) :: Le(n.estimate, m.estimate)
      ensures forall m | m in contents ::
                m.lowerBound == old(m.lowerBound) && m.estimate == old(m.estimate) && (m != n ==> m.canDive == old(m.canDive))
    {
      hide Matched, DivingMatched, IsLeastBound;
      while diving != []
        invariant Valid()
        invariant forall m | m in contents ::
                    m.lowerBound == old(m.lowerBound) && m.estimate == old(m.estimate) && m.canDive == old(m.canDive)
        decreases |diving|
      {
        n := PopDivingEntry();
        if n != null { return n; }
      }
      NothingToDive();
      return null;
    }

    lemma {:induction false} LeastScore(k: int)
      requires Valid() && LeastAt(Scores(diving), k)
      ensures 0 <= k < |diving| && diving[k] in entries
      ensures diving[k].node != null ==>
                && diving[k] in bestFirst && diving[k].node in contents && diving[k].node.canDive
                && forall m | m in contents && m.canDive :: Le(diving[k].node.estimate, m.estimate)
    {
      assert diving[k] in diving;
      if diving[k].node != null {
        forall m | m in contents && m.canDive
          ensures Le(diving[k].node.estimate, m.estimate)
        {
          var e :| e in bestFirst && e in entries && e.node == m;
          var j :| 0 <= j < |diving| && diving[j] == e;
          LeastMember(Scores(diving), k, j);
        }
      }
    }

    lemma {:induction false} NothingToDive()
      requires Valid() && diving == []
      ensures forall m | m in contents :: !m.canDive
    {
      forall m | m in contents ensures !m.canDive {
        var e :| e in bestFirst && e in entries && e.node == m;
      }
    }

    /** Two queues that share neither nodes nor entries. */
    ghost predicate Apart(other: NodeQueue)
      reads this, other
    {
      this != other && contents !! other.contents && entries !! other.entries
    }

    /** Move the best node of another queue here; there its entry becomes dead, here it gets a new one. */
    method StealOne(victim: NodeQueue) returns (n: QueueNode)
      requires Valid() && victim.Valid() && Apart(victim) && victim.bestFirst != []
      modifies this, victim, victim.entries
      ensures Valid() && victim.Valid() && Apart(victim)
      ensures n in old(victim.contents) && contents == old(contents) + {n} && victim.contents == old(victim.contents) - {n}
      ensures forall m | m in victim.contents :: Le(n.lowerBound, m.lowerBound)
      ensures |victim.bestFirst| == |old(victim.bestFirst)| - 1 && |bestFirst| == |old(bestFirst)| + 1
      ensures victim.entries == old(victim.entries) && old(entries) <= entries && fresh(entries - old(entries))
    {
      hide Matched, DivingMatched, IsLeastBound;
      var taken := victim.Pop();
      n := taken;
      Push(n);
    }

    /** Steal up to `count` nodes, as long as the victim has at least `count`. */
    method StealFrom(victim: NodeQueue, count: int) returns (stolen: bool)
      requires Valid() && victim.Valid() && Apart(victim)
      modifies this, victim, victim.entries
      ensures Valid() && victim.Valid() && Apart(victim)
      ensures contents + victim.contents == old(contents) + old(victim.contents) && old(contents) <= contents
      ensures stolen <==> count >= 1 && |old(victim.bestFirst)| >= count
      ensures |bestFirst| == |old(bestFirst)| + StealCount(|old(victim.bestFirst)|, count)
      ensures |victim.bestFirst| == |old(victim.bestFirst)| - StealCount(|old(victim.bestFirst)|, count)
      ensures var taken := |old(victim.bestFirst)| - |victim.bestFirst|;
              && 0 <= taken <= (if count < 0 then 0 else count)
              && (taken > 0 ==> |victim.bestFirst| + 1 >= count)
              && (taken < count ==> |victim.bestFirst| < count)
      ensures forall n, m | n in contents && n !in old(contents) && m in victim.contents :: Le(n.lowerBound, m.lowerBound)
    {
      hide Matched, DivingMatched, IsLeastBound, Valid;
      stolen := false;
      for k := 0 to if count < 0 then 0 else count
        invariant Valid() && victim.Valid() && Apart(victim)
        invariant contents + victim.contents == old(contents) + old(victim.contents) && old(contents) <= contents
        invariant victim.entries == old(victim.entries)
        invariant stolen <==> k > 0
        invariant |bestFirst| == |old(bestFirst)| + k && |victim.bestFirst| == |old(victim.bestFirst)| - k
        invariant forall n, m | n in contents && n !in old(contents) && m in victim.contents :: Le(n.lowerBound, m.lowerBound)
        invariant k > 0 ==> |old(victim.bestFirst)| - k + 1 >= count
      {
        if |victim.bestFirst| < count { break; }
        var n := StealOne(victim);
        stolen := true;
      }
    }
  }

  /** A steal takes nodes one by one, each from a queue of at least `count`, until it has `count` or the queue is shorter. */
  lemma {:induction false} StealCountMeans(size: nat, count: int)
    ensures var taken := StealCount(size, count);
            && 0 <= taken <= (if count < 0 then 0 else count) && taken <= size
            && (taken > 0 ==> size - taken + 1 >= count)
            && (taken < count ==> size - taken < count)
  {
  }

  /** How many nodes a steal of `count` takes from a queue of `size`. */
  function StealCount(size: int, count: int): int {
    if count < 1 || size < count then 0
    else if size - count + 1 < count then size - count + 1 else count
  }
}
