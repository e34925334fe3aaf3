/**
 * The synchronisation of the deterministic mode: events and queued heuristic solutions are put in one timeline, and
 * the incumbent is updated from the heuristics and then from what the workers found.
 */
module Replay {
  import opened Extended
  import opened SortedOrders

  // ---------------------------------------------------------------- events

  datatype Event = Event(timestamp: real, worker: int, node: int, sequence: int, kind: EventKind)

  datatype EventKind =
    | BranchedNode(down: int, up: int, bound: Ext, variable: int, value: real)
    | FathomedNode(bound: Ext)
    | IntegerNode(objective: real)
    | InfeasibleNode
    | NumericalNode

  /** Comparison of time, worker, node and sequence number, in this order. */
  predicate EventLess(a: Event, b: Event) {
    a.timestamp < b.timestamp || (a.timestamp == b.timestamp &&
      (a.worker < b.worker || (a.worker == b.worker &&
        (a.node < b.node || (a.node == b.node && a.sequence < b.sequence)))))
  }

  function EventKey(e: Event): seq<real> {
    [e.timestamp, e.worker as real, e.node as real, e.sequence as real]
  }

  lemma {:induction false} EventLessIsLexicographic(a: Event, b: Event)
    ensures EventLess(a, b) <==> LexLess(EventKey(a), EventKey(b))
    ensures LexLess(EventKey(a), EventKey(b)) <==>
              a.timestamp < b.timestamp || (a.timestamp == b.timestamp &&
                (a.worker < b.worker || (a.worker == b.worker &&
                  (a.node < b.node || (a.node == b.node && a.sequence < b.sequence)))))
  {
    hide LexLess;
    Lex4(a.timestamp, a.worker as real, a.node as real, a.sequence as real,
         b.timestamp, b.worker as real, b.node as real, b.sequence as real);
  }

  /** A worker numbers its events, so a worker and a number name one event. */
  predicate Numbered(events: seq<Event>) {
    forall i, j | 0 <= i < |events| && 0 <= j < |events| && events[i].worker == events[j].worker
                    && events[i].sequence == events[j].sequence :: events[i] == events[j]
  }

  /** The replay order of numbered events depends only on which events there are. */
  lemma {:induction false} ReplayOrderUnique(a: seq<Event>, b: seq<Event>)
    requires Sorted(a, EventKey) && Sorted(b, EventKey) && multiset(a) == multiset(b) && Numbered(a)
    ensures a == b
  {
    hide Sorted;
    forall i, j | 0 <= i < |a| && 0 <= j < |a| && EventKey(a[i]) == EventKey(a[j]) ensures a[i] == a[j] {
      assert EventKey(a[i])[1] == EventKey(a[j])[1] && EventKey(a[i])[3] == EventKey(a[j])[3];
    }
    SortedUnique(a, b, EventKey);
  }

  class EventBatch {
    var events: seq<Event>

    constructor ()
      ensures events == []
    {
      events := [];
    }

    method Add(e: Event)
      modifies this
      ensures events == old(events) + [e]
    {
      events := events + [e];
    }

    method SortForReplay()
      modifies this
      ensures multiset(events) == multiset(old(events)) && Sorted(events, EventKey)
    {
      events := SortBy(events, EventKey);
    }
  }

  // ---------------------------------------------------------------- solutions

  datatype Found = Found(objective: real, point: seq<real>, depth: int, worker: int, sequence: int, timestamp: real)

  /** Heuristic solutions: by time, then objective, then the point itself. */
  predicate HeuristicLess(a: Found, b: Found) {
    if a.timestamp != b.timestamp then a.timestamp < b.timestamp
    else if a.objective != b.objective then a.objective < b.objective
    else LexLess(a.point, b.point)
  }

  function HeuristicKey(f: Found): seq<real> {
    [f.timestamp, f.objective] + f.point
  }

  lemma {:induction false} HeuristicLessIsLexicographic(a: Found, b: Found)
    ensures HeuristicLess(a, b) <==> LexLess(HeuristicKey(a), HeuristicKey(b))
    ensures LexLess(HeuristicKey(a), HeuristicKey(b)) <==>
              a.timestamp < b.timestamp || (a.timestamp == b.timestamp &&
                (a.objective < b.objective || (a.objective == b.objective && LexLess(a.point, b.point))))
  {
    var x, y := HeuristicKey(a), HeuristicKey(b);
    assert x[1..] == [a.objective] + a.point && y[1..] == [b.objective] + b.point;
    assert x[1..][1..] == a.point && y[1..][1..] == b.point;
    assert LexLess(x[1..], y[1..]) == (a.objective < b.objective || (a.objective == b.objective && LexLess(a.point, b.point)));
  }

  /** Solutions of workers: by objective, then the worker, then its own numbering. */
  predicate WorkerLess(a: Found, b: Found) {
    if a.objective != b.objective then a.objective < b.objective
    else if a.worker != b.worker then a.worker < b.worker
    else a.sequence < b.sequence
  }

  function WorkerKey(f: Found): seq<real> {
    [f.objective, f.worker as real, f.sequence as real]
  }

  lemma {:induction false} WorkerLessIsLexicographic(a: Found, b: Found)
    ensures WorkerLess(a, b) <==> LexLess(WorkerKey(a), WorkerKey(b))
    ensures LexLess(WorkerKey(a), WorkerKey(b)) <==>
              a.objective < b.objective || (a.objective == b.objective &&
                (a.worker < b.worker || (a.worker == b.worker && a.sequence < b.sequence)))
  {
    var x, y := WorkerKey(a), WorkerKey(b);
    assert x[1..] == [a.worker as real, a.sequence as real] && y[1..] == [b.worker as real, b.sequence as real];
    assert x[1..][1..] == [a.sequence as real] && y[1..][1..] == [b.sequence as real];
    assert x[1..][1..][1..] == [] && y[1..][1..][1..] == [];
    assert LexLess([a.sequence as real], [b.sequence as real]) == (a.sequence < b.sequence);
    assert LexLess(x[1..], y[1..]) == (a.worker < b.worker || (a.worker == b.worker && a.sequence < b.sequence));
  }

  // ---------------------------------------------------------------- the incumbent

  datatype Incumbent = NoIncumbent | Incumbent(objective: real, point: seq<real>)

  datatype Best = Best(upper: Ext, incumbent: Incumbent)

  /** The upper bound is never above the incumbent's objective. */
  predicate BestOk(b: Best) {
    b.incumbent.Incumbent? ==> Le(b.upper, Fin(b.incumbent.objective))
  }

  predicate Improves(b: Best, f: Found) {
    b.incumbent.NoIncumbent? || f.objective < b.incumbent.objective
  }

  function TakeHeuristic(b: Best, f: Found): Best {
    if Improves(b, f) then Best(Min(b.upper, Fin(f.objective)), Incumbent(f.objective, f.point)) else b
  }

  function TakeWorker(b: Best, f: Found): Best {
    if Lt(Fin(f.objective), b.upper) then TakeHeuristic(b, f) else b
  }

  function TakeHeuristics(b: Best, fs: seq<Found>): Best {
    if fs == [] then b else TakeHeuristic(TakeHeuristics(b, fs[..|fs| - 1]), fs[|fs| - 1])
  }

  function TakeWorkers(b: Best, fs: seq<Found>): Best {
    if fs == [] then b else TakeWorker(TakeWorkers(b, fs[..|fs| - 1]), fs[|fs| - 1])
  }

  function LeastObjective(fs: seq<Found>): Ext {
    if fs == [] then PosInf else Min(LeastObjective(fs[..|fs| - 1]), Fin(fs[|fs| - 1].objective))
  }

  /** The least key among the solutions: objective first, then time, then the point. */
  function PreferenceKey(f: Found): seq<real> {
    [f.objective, f.timestamp] + f.point
  }

  predicate Preferred(fs: seq<Found>, f: Found) {
    f in fs && forall g | g in fs :: Before(PreferenceKey(f), PreferenceKey(g))
  }

  /** An incumbent found by the heuristics of one synchronisation. */
  ghost predicate FromHeuristics(b: Best, fs: seq<Found>, b': Best) {
    exists f :: Preferred(fs, f) && Improves(b, f) && b'.incumbent == Incumbent(f.objective, f.point)
  }

  /** The upper bound falls to the best objective of the timeline. */
  lemma {:induction false} HeuristicsUpper(b: Best, fs: seq<Found>)
    requires BestOk(b)
    ensures BestOk(TakeHeuristics(b, fs))
    ensures TakeHeuristics(b, fs).upper == Min(b.upper, LeastObjective(fs))
  {
    if fs != [] { HeuristicsUpper(b, fs[..|fs| - 1]); }
  }

  lemma {:induction false} WorkersUpper(b: Best, fs: seq<Found>)
    requires BestOk(b)
    ensures BestOk(TakeWorkers(b, fs))
    ensures TakeWorkers(b, fs).upper == Min(b.upper, LeastObjective(fs))
  {
    if fs != [] { WorkersUpper(b, fs[..|fs| - 1]); }
  }

  lemma {:induction false} PreferenceOrder(a: Found, b: Found)
    ensures LexLess(PreferenceKey(a), PreferenceKey(b)) <==>
              a.objective < b.objective ||
              (a.objective == b.objective && (a.timestamp < b.timestamp ||
                (a.timestamp == b.timestamp && LexLess(a.point, b.point))))
  {
    var x, y := PreferenceKey(a), PreferenceKey(b);
    assert x[1..] == [a.timestamp] + a.point && y[1..] == [b.timestamp] + b.point;
    assert x[1..][1..] == a.point && y[1..][1..] == b.point;
    assert LexLess(x[1..], y[1..]) == (a.timestamp < b.timestamp || (a.timestamp == b.timestamp && LexLess(a.point, b.point)));
  }

  lemma {:induction false} PreferenceOfSorted(a: Found, b: Found)
    requires Before(HeuristicKey(a), HeuristicKey(b)) && a.objective <= b.objective
    ensures Before(PreferenceKey(a), PreferenceKey(b))
  {
    hide LexLess;
    HeuristicLessIsLexicographic(b, a);
    PreferenceOrder(b, a);
  }

  /**
   * Replaying a sorted timeline leaves the preferred solution as the incumbent when one of the solutions improves,
   * and the old incumbent when none does.
   */
  lemma {:induction false} HeuristicsIncumbent(b: Best, fs: seq<Found>)
    requires Sorted(fs, HeuristicKey)
    ensures if forall f | f in fs :: !Improves(b, f) then TakeHeuristics(b, fs).incumbent == b.incumbent
            else FromHeuristics(b, fs, TakeHeuristics(b, fs))
  {
    hide LexLess, HeuristicKey, FromHeuristics, Before, Improves, TakeHeuristic;
    if fs != [] {
      var front, last := fs[..|fs| - 1], fs[|fs| - 1];
      SortedFront(fs);
      HeuristicsIncumbent(b, front);
      assert fs == front + [last];
      if forall f | f in front :: !Improves(b, f) {
        FirstImproving(b, front, last);
      } else {
        LaterImproving(b, front, last);
        var f :| f in front && Improves(b, f);
        assert f in fs;
      }
    }
  }

  /**
   * The winner in plain terms: the incumbent stays when no solution is better, and is otherwise the best solution,
   * of equals the earliest, of those the one with the least point.
   */
  lemma {:induction false} HeuristicsWinner(b: Best, fs: seq<Found>)
    requires Sorted(fs, HeuristicKey)
    ensures var after := TakeHeuristics(b, fs).incumbent;
            if forall f | f in fs :: b.incumbent.Incumbent? && b.incumbent.objective <= f.objective then after == b.incumbent
            else
              && (b.incumbent.Incumbent? ==> after.Incumbent? && after.objective < b.incumbent.objective)
              && exists f :: f in fs && after == Incumbent(f.objective, f.point) && Wins(f, fs)
  {
    hide LexLess, PreferenceKey, HeuristicKey, Sorted, TakeHeuristics, Preferred;
    HeuristicsIncumbent(b, fs);
    if exists f :: f in fs && Improves(b, f) {
      var f :| Preferred(fs, f) && Improves(b, f) && TakeHeuristics(b, fs).incumbent == Incumbent(f.objective, f.point);
      PreferredWins(fs, f);
    }
  }

  /** No solution is better, or as good and earlier, or as good and as early with a lesser point. */
  predicate Wins(f: Found, fs: seq<Found>) {
    forall g | g in fs ::
      f.objective < g.objective || (f.objective == g.objective &&
        (f.timestamp < g.timestamp || (f.timestamp == g.timestamp && !LexLess(g.point, f.point))))
  }

  lemma {:induction false} PreferredWins(fs: seq<Found>, f: Found)
    requires Preferred(fs, f)
    ensures f in fs && Wins(f, fs)
  {
    hide LexLess, PreferenceKey;
    forall g | g in fs
      ensures f.objective < g.objective || (f.objective == g.objective &&
                (f.timestamp < g.timestamp || (f.timestamp == g.timestamp && !LexLess(g.point, f.point))))
    {
      assert Before(PreferenceKey(f), PreferenceKey(g));
      PreferenceOrder(g, f);
    }
  }

  lemma {:induction false} SortedFront(fs: seq<Found>)
    requires Sorted(fs, HeuristicKey) && fs != []
    ensures Sorted(fs[..|fs| - 1], HeuristicKey)
  {
    hide Before, HeuristicKey;
  }

  lemma {:induction false} FirstImproving(b: Best, front: seq<Found>, last: Found)
    requires (forall f | f in front :: !Improves(b, f)) && TakeHeuristics(b, front).incumbent == b.incumbent
    ensures if Improves(b, last) then FromHeuristics(b, front + [last], TakeHeuristic(TakeHeuristics(b, front), last))
            else (forall f | f in front + [last] :: !Improves(b, f))
                 && TakeHeuristic(TakeHeuristics(b, front), last).incumbent == b.incumbent
  {
    hide LexLess, PreferenceKey, Before;
    var fs := front + [last];
    assert last in fs;
    if Improves(b, last) {
      forall g | g in fs ensures Before(PreferenceKey(last), PreferenceKey(g)) {
        BeforeSelf(PreferenceKey(last));
        if g in front { SmallerPreferred(last, g); }
      }
      assert Preferred(fs, last);
    }
  }

  lemma {:induction false} BeforeSelf(key: seq<real>)
    ensures Before(key, key)
  {
    LexTotal(key, key);
  }

  lemma {:induction false} LaterImproving(b: Best, front: seq<Found>, last: Found)
    requires Sorted(front + [last], HeuristicKey) && FromHeuristics(b, front, TakeHeuristics(b, front))
    ensures FromHeuristics(b, front + [last], TakeHeuristic(TakeHeuristics(b, front), last))
  {
    hide LexLess, PreferenceKey, HeuristicKey, Before, Sorted;
    var fs := front + [last];
    var mid := TakeHeuristics(b, front);
    var f :| Preferred(front, f) && Improves(b, f) && mid.incumbent == Incumbent(f.objective, f.point);
    assert f in fs && last in fs;
    var winner := if last.objective < f.objective then last else f;
    forall g | g in fs ensures Before(PreferenceKey(winner), PreferenceKey(g)) {
      if last.objective < f.objective {
        BeforeSelf(PreferenceKey(last));
        SmallerPreferred(last, f);
        if g in front { BeforeTransitive(PreferenceKey(last), PreferenceKey(f), PreferenceKey(g)); }
      } else {
        InOrder(front, last, f);
        PreferenceOfSorted(f, last);
      }
    }
    assert Preferred(fs, winner);
  }

  lemma {:induction false} InOrder(front: seq<Found>, last: Found, f: Found)
    requires Sorted(front + [last], HeuristicKey) && f in front
    ensures Before(HeuristicKey(f), HeuristicKey(last))
  {
    var k :| 0 <= k < |front| && front[k] == f;
    var fs := front + [last];
    assert fs[k] == f && fs[|front|] == last;
  }

  lemma {:induction false} SmallerPreferred(a: Found, b: Found)
    requires a.objective < b.objective
    ensures Before(PreferenceKey(a), PreferenceKey(b))
  {
    hide LexLess;
    PreferenceOrder(b, a);
  }

  /** Of the workers' solutions, sorted, only the first can become the incumbent. */
  lemma {:induction false} WorkersIncumbent(b: Best, fs: seq<Found>)
    requires BestOk(b) && Sorted(fs, WorkerKey) && fs != []
    ensures TakeWorkers(b, fs) == TakeWorker(b, fs[0])
    ensures TakeWorkers(b, fs).incumbent ==
              if Lt(Fin(fs[0].objective), b.upper) then Incumbent(fs[0].objective, fs[0].point) else b.incumbent
  {
    hide LexLess, WorkerKey;
    if |fs| > 1 {
      var front, last := fs[..|fs| - 1], fs[|fs| - 1];
      WorkersIncumbent(b, front);
      assert Before(WorkerKey(fs[0]), WorkerKey(last));
      WorkerLessIsLexicographic(last, fs[0]);
    } else {
      assert fs[..0] == [];
    }
  }

  /** What the replay leaves depends on which solutions were queued only, not on their arrival nor on ties. */
  lemma {:induction false} ReplayIgnoresArrival(b: Best, x: seq<Found>, y: seq<Found>)
    requires Sorted(x, HeuristicKey) && Sorted(y, HeuristicKey) && multiset(x) == multiset(y)
    ensures TakeHeuristics(b, x) == TakeHeuristics(b, y)
  {
    hide Sorted, Keys, HeuristicKey;
    SortedAgree(x, y, HeuristicKey);
    SameKeysSameBest(b, x, y);
  }

  lemma {:induction false} SameKeysSameBest(b: Best, x: seq<Found>, y: seq<Found>)
    requires Keys(x, HeuristicKey) == Keys(y, HeuristicKey)
    ensures TakeHeuristics(b, x) == TakeHeuristics(b, y)
  {
    assert |x| == |Keys(x, HeuristicKey)| == |Keys(y, HeuristicKey)| == |y|;
    if x != [] {
      var n := |x| - 1;
      assert Keys(x, HeuristicKey)[n] == Keys(y, HeuristicKey)[n];
      KeyShowsSolution(x[n], y[n]);
      assert Keys(x[..n], HeuristicKey) == Keys(x, HeuristicKey)[..n];
      assert Keys(y[..n], HeuristicKey) == Keys(y, HeuristicKey)[..n];
      SameKeysSameBest(b, x[..n], y[..n]);
    }
  }

  lemma {:induction false} KeyShowsSolution(f: Found, g: Found)
    requires HeuristicKey(f) == HeuristicKey(g)
    ensures f.objective == g.objective && f.point == g.point && f.timestamp == g.timestamp
  {
    assert HeuristicKey(f)[0] == f.timestamp && HeuristicKey(f)[1] == f.objective && HeuristicKey(f)[2..] == f.point;
    assert HeuristicKey(g)[0] == g.timestamp && HeuristicKey(g)[1] == g.objective && HeuristicKey(g)[2..] == g.point;
  }

  // ---------------------------------------------------------------- the synchronisation

  datatype Item = OfEvent(event: Event) | OfHeuristic(found: Found)

  function Time(i: Item): real {
    if i.OfEvent? then i.event.timestamp else i.found.timestamp
  }

  function EventsIn(items: seq<Item>): seq<Event> {
    if items == [] then []
    else
      var rest := EventsIn(items[..|items| - 1]);
      if items[|items| - 1].OfEvent? then rest + [items[|items| - 1].event] else rest
  }

  function HeuristicsIn(items: seq<Item>): seq<Found> {
    if items == [] then []
    else
      var rest := HeuristicsIn(items[..|items| - 1]);
      if items[|items| - 1].OfHeuristic? then rest + [items[|items| - 1].found] else rest
  }

  /** In the order of time, events before solutions of the same time. */
  predicate InTime(items: seq<Item>) {
    forall i, j | 0 <= i < j < |items| ::
      Time(items[i]) <= Time(items[j]) && (items[i].OfHeuristic? && items[j].OfEvent? ==> Time(items[i]) < Time(items[j]))
  }

  /** Due at a synchronisation: strictly before its horizon. */
  function Due(queue: seq<Found>, horizon: real): seq<Found> {
    if queue == [] then []
    else
      var rest := Due(queue[..|queue| - 1], horizon);
      if queue[|queue| - 1].timestamp < horizon then rest + [queue[|queue| - 1]] else rest
  }

  function Future(queue: seq<Found>, horizon: real): seq<Found> {
    if queue == [] then []
    else
      var rest := Future(queue[..|queue| - 1], horizon);
      if queue[|queue| - 1].timestamp < horizon then rest else rest + [queue[|queue| - 1]]
  }

  /** What is due is exactly what is stamped strictly before the horizon; everything else stays, and nothing doubles. */
  lemma {:induction false} DueMeans(queue: seq<Found>, horizon: real, f: Found)
    ensures multiset(Due(queue, horizon))[f] == if f.timestamp < horizon then multiset(queue)[f] else 0
    ensures multiset(Future(queue, horizon))[f] == if f.timestamp < horizon then 0 else multiset(queue)[f]
  {
    if queue != [] {
      var front, last := queue[..|queue| - 1], queue[|queue| - 1];
      DueMeans(front, horizon, f);
      assert queue == front + [last];
    }
  }

  lemma {:induction false} SortedTimes(fs: seq<Found>)
    requires Sorted(fs, HeuristicKey)
    ensures forall i, j | 0 <= i < j < |fs| :: fs[i].timestamp <= fs[j].timestamp
  {
    hide LexLess, HeuristicKey;
    forall i, j | 0 <= i < j < |fs| ensures fs[i].timestamp <= fs[j].timestamp {
      assert Before(HeuristicKey(fs[i]), HeuristicKey(fs[j]));
      HeuristicLessIsLexicographic(fs[j], fs[i]);
    }
  }

  lemma {:induction false} SortedEventTimes(es: seq<Event>)
    requires Sorted(es, EventKey)
    ensures forall i, j | 0 <= i < j < |es| :: es[i].timestamp <= es[j].timestamp
  {
    hide LexLess, EventKey;
    forall i, j | 0 <= i < j < |es| ensures es[i].timestamp <= es[j].timestamp {
      assert Before(EventKey(es[i]), EventKey(es[j]));
      EventLessIsLexicographic(es[j], es[i]);
    }
  }

  /** The timeline so far: the first `e` events and the first `h` solutions, none after what comes next. */
  ghost predicate Merging(timeline: seq<Item>, events: seq<Event>, e: nat, found: seq<Found>, h: nat) {
    && Sorted(events, EventKey) && Sorted(found, HeuristicKey) && e <= |events| && h <= |found|
    && EventsIn(timeline) == events[..e] && HeuristicsIn(timeline) == found[..h] && InTime(timeline)
    && (forall i | 0 <= i < |timeline| && e < |events| ::
          Time(timeline[i]) <= events[e].timestamp && (timeline[i].OfHeuristic? ==> Time(timeline[i]) < events[e].timestamp))
    && (forall i | 0 <= i < |timeline| && h < |found| :: Time(timeline[i]) <= found[h].timestamp)
  }

  lemma {:induction false} NothingMerged(events: seq<Event>, found: seq<Found>)
    requires Sorted(events, EventKey) && Sorted(found, HeuristicKey)
    ensures Merging([], events, 0, found, 0)
  {
  }

  lemma {:induction false} NextEvent(timeline: seq<Item>, events: seq<Event>, e: nat, found: seq<Found>, h: nat)
    requires Merging(timeline, events, e, found, h) && e < |events|
    requires h < |found| ==> events[e].timestamp <= found[h].timestamp
    ensures Merging(timeline + [OfEvent(events[e])], events, e + 1, found, h)
  {
    hide Sorted;
    SortedEventTimes(events);
    assert (timeline + [OfEvent(events[e])])[..|timeline|] == timeline;
    assert events[..e + 1] == events[..e] + [events[e]];
  }

  lemma {:induction false} NextHeuristic(timeline: seq<Item>, events: seq<Event>, e: nat, found: seq<Found>, h: nat)
    requires Merging(timeline, events, e, found, h) && h < |found|
    requires e < |events| ==> found[h].timestamp < events[e].timestamp
    ensures Merging(timeline + [OfHeuristic(found[h])], events, e, found, h + 1)
  {
    hide Sorted;
    SortedTimes(found);
    assert (timeline + [OfHeuristic(found[h])])[..|timeline|] == timeline;
    assert found[..h + 1] == found[..h] + [found[h]];
  }

  lemma {:induction false} AllMerged(timeline: seq<Item>, events: seq<Event>, found: seq<Found>)
    requires Merging(timeline, events, |events|, found, |found|)
    ensures EventsIn(timeline) == events && HeuristicsIn(timeline) == found && InTime(timeline)
  {
  }

  class Synchroniser {
    var queue: seq<Found>
    var upper: Ext
    var incumbent: Incumbent

    constructor (upper: Ext)
      ensures queue == [] && Current() == Best(upper, NoIncumbent)
    {
      queue := [];
      this.upper := upper;
      incumbent := NoIncumbent;
    }

    function Current(): Best
      reads this
    {
      Best(upper, incumbent)
    }

    /** A heuristic outside the workers hands in a solution with the work it took to find it. */
    method QueueExternal(objective: real, point: seq<real>, timestamp: real)
      modifies this`queue
      ensures queue == old(queue) + [Found(objective, point, 0, -1, 0, timestamp)]
    {
      queue := queue + [Found(objective, point, 0, -1, 0, timestamp)];
    }

    /** Takes what is due before the horizon out of the queue. */
    method TakeDue(horizon: real) returns (due: seq<Found>)
      modifies this`queue
      ensures due == Due(old(queue), horizon) && queue == Future(old(queue), horizon)
    {
      due := [];
      var future: seq<Found> := [];
      for k := 0 to |queue|
        invariant queue == old(queue)
        invariant due == Due(queue[..k], horizon) && future == Future(queue[..k], horizon)
      {
        assert queue[..k + 1][..k] == queue[..k];
        if queue[k].timestamp < horizon {
          due := due + [queue[k]];
        } else {
          future := future + [queue[k]];
        }
      }
      assert queue[..|queue|] == queue;
      queue := future;
    }

    /** A solution better than the incumbent replaces it. */
    method Offer(f: Found)
      modifies this`upper, this`incumbent
      ensures Current() == TakeHeuristic(old(Current()), f)
    {
      if incumbent.NoIncumbent? || f.objective < incumbent.objective {
        upper := Min(upper, Fin(f.objective));
        incumbent := Incumbent(f.objective, f.point);
      }
    }

    /**
     * Replays the events and the due heuristic solutions in one timeline, events first at equal times. Only the
     * solutions change the incumbent.
     */
    method ReplayTimeline(events: seq<Event>, horizon: real) returns (ghost order: seq<Found>, ghost timeline: seq<Item>)
      requires Sorted(events, EventKey)
      modifies this
      ensures queue == Future(old(queue), horizon)
      ensures Sorted(order, HeuristicKey) && multiset(order) == multiset(Due(old(queue), horizon))
      ensures Current() == TakeHeuristics(old(Current()), order)
      ensures EventsIn(timeline) == events && HeuristicsIn(timeline) == order && InTime(timeline)
    {
      var due := TakeDue(horizon);
      var found := SortBy(due, HeuristicKey);
      order := found;
      timeline := [];
      hide Sorted, TakeHeuristic, Future, Due, Merging;
      NothingMerged(events, found);
      assert found[..0] == [];
      var e, h := 0, 0;
      while e < |events| || h < |found|
        invariant 0 <= e <= |events| && 0 <= h <= |found|
        invariant queue == Future(old(queue), horizon) && order == found
        invariant Current() == TakeHeuristics(old(Current()), found[..h])
        invariant Merging(timeline, events, e, found, h)
        decreases |events| - e + |found| - h
      {
        var processEvent := h >= |found| || (e < |events| && events[e].timestamp <= found[h].timestamp);
        if processEvent {
          NextEvent(timeline, events, e, found, h);
          timeline := timeline + [OfEvent(events[e])];
          e := e + 1;
        } else {
          var f := found[h];
          assert found[..h + 1][..h] == found[..h];
          NextHeuristic(timeline, events, e, found, h);
          timeline := timeline + [OfHeuristic(f)];
          h := h + 1;
          Offer(f);
        }
      }
      assert found[..|found|] == found;
      AllMerged(timeline, events, found);
    }

    /** Collects the solutions of the workers of one pool, best first. */
    method ProcessWorkerSolutions(pool: seq<seq<Found>>) returns (ghost order: seq<Found>)
      requires BestOk(Current())
      modifies this`upper, this`incumbent
      ensures Sorted(order, WorkerKey) && multiset(order) == multiset(Flat(pool))
      ensures Current() == TakeWorkers(old(Current()), order) && BestOk(Current())
    {
      var all: seq<Found> := [];
      for w := 0 to |pool|
        invariant all == Flat(pool[..w])
      {
        assert pool[..w + 1][..w] == pool[..w];
        all := all + pool[w];
      }
      assert pool[..|pool|] == pool;
      var sorted := SortBy(all, WorkerKey);
      order := sorted;
      var currentUpper := upper;
      for k := 0 to |sorted|
        invariant currentUpper == upper && BestOk(Current())
        invariant Current() == TakeWorkers(old(Current()), sorted[..k])
      {
        var f := sorted[k];
        assert sorted[..k + 1][..k] == sorted[..k];
        if Lt(Fin(f.objective), currentUpper) {
          if incumbent.NoIncumbent? || f.objective < incumbent.objective {
            upper := Min(upper, Fin(f.objective));
            incumbent := Incumbent(f.objective, f.point);
            currentUpper := Fin(f.objective);
          }
        }
      }
      assert sorted[..|sorted|] == sorted;
    }
  }

  function Flat(pool: seq<seq<Found>>): seq<Found> {
    if pool == [] then [] else Flat(pool[..|pool| - 1]) + pool[|pool| - 1]
  }
}
