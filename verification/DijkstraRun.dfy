/** `graphDijkstra`: the main loop over the heap and the hash table, and the path read-back. */
module DijkstraRun {
  import opened Graphs
  import opened PriorityQueue
  import opened DistanceMap
  import opened Dijkstra

  /** `NoTarget` is the answer for a negative end id. */
  datatype Outcome = Found(path: seq<int>, dist: real) | NotFound | NoTarget

  /** The queue and the table hold the state of the search. */
  ghost predicate Holds(es: seq<Edge>, start: int, queue: MinQueue, table: DistMap, order: seq<int>, pending: seq<Edge>)
    reads queue, queue.aNodes, table, table.aBuckets
  {
    && queue.Valid() && table.Valid()
    && Inv(es, start, table.labels, queue.Items(), order, pending)
    && table.labels.Keys <= Universe(es, start)
  }

  /** Relaxes the first pending row of the node that was extracted last. */
  method RelaxRow(es: seq<Edge>, start: int, e: Edge, dist: real, queue: MinQueue, table: DistMap,
                  ghost order: seq<int>, ghost pending: seq<Edge>)
    requires Holds(es, start, queue, table, order, pending) && pending != [] && pending[0] == e && e in es
    requires order != [] && order[|order| - 1] == e.from
    requires e.from in table.labels && table.labels[e.from].dist == dist && e.to >= 0 && e.weight >= 0.0
    modifies queue, queue.aNodes, table, table.aBuckets
    ensures Holds(es, start, queue, table, order, pending[1..])
    ensures queue.aNodes == old(queue.aNodes) || fresh(queue.aNodes)
    ensures e.from in table.labels && table.labels[e.from].dist == dist
  {
    hide TreeOk, OrderOk, RelaxedOk, QueueOk, LabelsOk, DistanceMap.TableOk, Dijkstra.TableOk, IsHeap, Universe;
    TargetInUniverse(es, start, e);
    var newDist := dist + e.weight;
    var known := table.Get(e.to);
    if Less(newDist, known) {
      RelaxStep(es, start, table.labels, queue.Items(), order, pending);
      table.Set(e.to, newDist, e.from);
      queue.Insert(e.to, newDist);
    } else {
      RelaxSkip(es, table.labels, order, pending);
    }
  }

  /** Relaxes all rows of the node that was extracted last. */
  method RelaxRows(es: seq<Edge>, start: int, u: int, dist: real, queue: MinQueue, table: DistMap,
                   ghost order: seq<int>)
    requires Dijkstra.TableOk(es) && Holds(es, start, queue, table, order, Rows(es, u))
    requires order != [] && order[|order| - 1] == u && u in table.labels && table.labels[u].dist == dist
    modifies queue, queue.aNodes, table, table.aBuckets
    ensures Holds(es, start, queue, table, order, [])
    ensures queue.aNodes == old(queue.aNodes) || fresh(queue.aNodes)
  {
    hide Inv, DistanceMap.TableOk, IsHeap, Universe;
    var rows := Rows(es, u);
    var r := 0;
    assert rows[0..] == rows;
    while r < |rows|
      invariant 0 <= r <= |rows|
      invariant Holds(es, start, queue, table, order, rows[r..])
      invariant u in table.labels && table.labels[u].dist == dist
      invariant queue.aNodes == old(queue.aNodes) || fresh(queue.aNodes)
    {
      assert rows[r] in rows;
      assert rows[r..][1..] == rows[r + 1..];
      RelaxRow(es, start, rows[r], dist, queue, table, order, rows[r..]);
      r := r + 1;
    }
    assert rows[r..] == [];
  }

  /**
   The main loop. It stops when the end node is extracted or the queue is empty; `order` lists
   the nodes whose rows were relaxed.
   */
  method Search(es: seq<Edge>, start: int, end: int, queue: MinQueue, table: DistMap) returns (ghost order: seq<int>)
    requires Holds(es, start, queue, table, [], [])
    modifies queue, queue.aNodes, table, table.aBuckets
    ensures table.Valid() && Answered(es, start, table.labels, order, end)
  {
    hide Holds, Answered, Universe, Elems, MinQueue.Items;
    order := [];
    HoldsFacts(es, start, queue, table, order);
    while queue.nUsed != 0
      invariant Holds(es, start, queue, table, order, [])
      invariant queue.nUsed <= queue.aNodes.Length
      invariant queue.aNodes == old(queue.aNodes) || fresh(queue.aNodes)
      decreases Universe(es, start) - Elems(order), |queue.Items()|
    {
      var stop;
      stop, order := Round(es, start, end, queue, table, order);
      if stop {
        return;
      }
    }
    Exhausted(es, start, end, queue, table, order);
  }

  lemma Exhausted(es: seq<Edge>, start: int, end: int, queue: MinQueue, table: DistMap, order: seq<int>)
    requires Holds(es, start, queue, table, order, []) && queue.nUsed == 0
    ensures table.Valid() && Answered(es, start, table.labels, order, end)
  {
    hide Answered, Inv;
    assert queue.Items() == multiset{};
    AtExhaustion(es, start, table.labels, order, end);
  }

  /**
   * One pass of the loop: `stop` when the end node was extracted, otherwise one entry fewer or one node more settled.
   */
  method Round(es: seq<Edge>, start: int, end: int, queue: MinQueue, table: DistMap, ghost order0: seq<int>)
    returns (stop: bool, ghost order: seq<int>)
    requires Holds(es, start, queue, table, order0, []) && queue.nUsed != 0
    modifies queue, queue.aNodes, table, table.aBuckets
    ensures queue.nUsed <= queue.aNodes.Length && (queue.aNodes == old(queue.aNodes) || fresh(queue.aNodes))
    ensures stop ==> table.Valid() && Answered(es, start, table.labels, order, end)
    ensures !stop ==> Holds(es, start, queue, table, order, [])
    ensures !stop ==> (order == order0 && |queue.Items()| < |old(queue.Items())|) ||
                      Universe(es, start) - Elems(order) < Universe(es, start) - Elems(order0)
  {
    hide Inv, Answered, Elems, Universe, MinQueue.Items, MinQueue.Valid, DistMap.Valid, Rows;
    stop, order := false, order0;
    HoldsFacts(es, start, queue, table, order);
    ghost var q := queue.Items();
    ghost var d := table.labels;
    var found, x := queue.ExtractMin();
    QueueFacts(queue);
    FewerLeft(q, x);
    QueuedIsLabelled(es, start, d, q, order, x);
    if end >= 0 && x.id == end {
      AtTarget(es, start, d, q, order, x);
      stop := true;
      return;
    }
    var known := table.Get(x.id);
    if x.dist > known.d {
      StaleKeepsInv(es, start, d, q, order, x);
      return;
    }
    Settle(es, start, d, q, order, x);
    ElemsSnoc(order, x.id);
    order := order + [x.id];
    RelaxRows(es, start, x.id, x.dist, queue, table, order);
    HoldsFacts(es, start, queue, table, order);
  }

  lemma FewerLeft(q: multiset<Entry>, x: Entry)
    requires x in q
    ensures |q - multiset{x}| < |q|
  {
  }

  lemma QueueFacts(queue: MinQueue)
    requires queue.Valid()
    ensures queue.nUsed <= queue.aNodes.Length
  {
  }

  lemma HoldsFacts(es: seq<Edge>, start: int, queue: MinQueue, table: DistMap, order: seq<int>)
    requires Holds(es, start, queue, table, order, [])
    ensures queue.nUsed <= queue.aNodes.Length && (queue.nUsed != 0 ==> queue.Items() != multiset{})
  {
    hide Inv;
    if queue.nUsed != 0 {
      assert queue.aNodes[..queue.nUsed][0] in queue.Items();
    }
  }

  lemma TargetInUniverse(es: seq<Edge>, start: int, e: Edge)
    requires e in es
    ensures e.to in Universe(es, start)
  {
  }

  lemma ElemsSnoc(order: seq<int>, u: int)
    ensures Elems(order + [u]) == Elems(order) + {u} && (u !in order ==> u !in Elems(order))
  {
    assert forall v :: v in order + [u] <==> v in order || v == u;
  }

  lemma StaleKeepsInv(es: seq<Edge>, start: int, d: Labels, q: multiset<Entry>, order: seq<int>, x: Entry)
    requires Inv(es, start, d, q, order, []) && x in q && x.id in d && x.dist > d[x.id].dist
    ensures Inv(es, start, d, q - multiset{x}, order, [])
  {
    DropStale(d, q, order, x);
  }

  lemma QueuedIsLabelled(es: seq<Edge>, start: int, d: Labels, q: multiset<Entry>, order: seq<int>, x: Entry)
    requires Inv(es, start, d, q, order, []) && x in q
    ensures Dijkstra.TableOk(es) && x.id in d && x.id >= 0 && d[x.id].dist <= x.dist
  {
  }

  /** What holds of the labels when the loop ends with `end` settled one way or the other. */
  ghost predicate Answered(es: seq<Edge>, start: int, d: Labels, order: seq<int>, end: int) {
    && LabelsOk(start, d) && TreeOk(es, start, d, order) && OrderOk(start, d, order)
    && (end in d <==> Reach(es, start, end))
    && (end in d ==> IsLowerBound(es, start, end, d[end].dist))
  }

  lemma AtTarget(es: seq<Edge>, start: int, d: Labels, q: multiset<Entry>, order: seq<int>, x: Entry)
    requires Inv(es, start, d, q, order, []) && x in q && (forall y :: y in q ==> x.dist <= y.dist)
    ensures Answered(es, start, d, order, x.id)
  {
    ExtractedIsOptimal(es, start, d, q, order, x);
    LabelledIsReached(es, start, d, order, x.id);
  }

  lemma AtExhaustion(es: seq<Edge>, start: int, d: Labels, order: seq<int>, end: int)
    requires Inv(es, start, d, multiset{}, order, [])
    ensures Answered(es, start, d, order, end)
  {
    ExhaustedIsOptimal(es, start, d, order, end);
    if end in d {
      LabelledIsReached(es, start, d, order, end);
    }
  }

  lemma {:induction false} LabelledIsReached(es: seq<Edge>, start: int, d: Labels, order: seq<int>, v: int)
    requires OrderOk(start, d, order) && TreeOk(es, start, d, order) && v in d
    ensures Reach(es, start, v)
    decreases Rank(order, v)
  {
    if v == start {
      ReachRefl(es, v);
    } else {
      PredecessorRank(es, start, d, order, v);
      LabelledIsReached(es, start, d, order, d[v].pred);
      assert HasArc(es, d[v].pred, v);
      ReachArc(es, d[v].pred, v);
      ReachTrans(es, start, d[v].pred, v);
    }
  }

  /** Counts the nodes on the predecessor walk from `end` back to `start`. */
  method CountPath(es: seq<Edge>, start: int, end: int, table: DistMap, ghost order: seq<int>)
    returns (n: nat, ghost path: seq<int>)
    requires table.Valid() && LabelsOk(start, table.labels) && end in table.labels
    requires TreeOk(es, start, table.labels, order) && OrderOk(start, table.labels, order)
    ensures n == |path| && n > 0 && IsPath(es, start, end, path, table.labels[end].dist)
    ensures FollowsPredecessors(table.labels, start, end, path) && (forall i :: 1 <= i < n ==> path[i] != start)
  {
    ghost var d := table.labels;
    var current := end;
    n := 0;
    path := [end];
    assert IsWalk(es, end, [], end) && Weight([]) == 0.0 && Visits(end, []) == [end];
    while current != -1
      invariant n + 1 == |path| && current in d
      invariant IsPath(es, current, end, path, d[end].dist - d[current].dist)
      invariant FollowsPredecessors(d, current, end, path) && (forall i :: 1 <= i < |path| ==> path[i] != start)
      decreases Rank(order, current)
    {
      n := n + 1;
      if current == start {
        return;
      }
      PredecessorRank(es, start, d, order, current);
      ghost var e := Edge(d[current].pred, current, d[current].dist - d[d[current].pred].dist);
      ExtendPath(es, e, end, path, d[end].dist - d[current].dist);
      path := [d[current].pred] + path;
      current := table.GetPredecessor(current);
    }
    assert false;
  }

  /** Consecutive nodes of `path` are linked by recorded predecessors. */
  ghost predicate FollowsPredecessors(d: Labels, first: int, last: int, path: seq<int>) {
    && path != [] && path[0] == first && path[|path| - 1] == last
    && (forall i :: 0 <= i < |path| ==> path[i] in d)
    && (forall i :: 1 <= i < |path| ==> d[path[i]].pred == path[i - 1])
  }

  /** Fills the path array from its last cell back to the start. */
  method ReadPath(start: int, end: int, table: DistMap, n: nat, ghost path: seq<int>) returns (aPath: array<int>)
    requires table.Valid() && n == |path| && n > 0
    requires FollowsPredecessors(table.labels, start, end, path) && (forall i :: 1 <= i < n ==> path[i] != start)
    ensures aPath[..] == path
  {
    aPath := new int[n];
    var current := end;
    var i := n - 1;
    while i >= 0
      invariant -1 <= i < n && (i >= 0 ==> current == path[i])
      invariant aPath[i + 1..] == path[i + 1..]
    {
      aPath[i] := current;
      assert aPath[i..] == [path[i]] + aPath[i + 1..];
      if current == start {
        break;
      }
      current := table.GetPredecessor(current);
      i := i - 1;
    }
  }

  /**
   The whole call. With a non-negative end id the answer is a path of least weight, or NotFound
   exactly when no walk exists.
   */
  method ShortestPath(nNodes: nat, es: seq<Edge>, start: int, end: int) returns (r: Outcome)
    requires Dijkstra.TableOk(es) && start >= 0
    ensures end < 0 ==> r == NoTarget
    ensures end >= 0 ==> !r.NoTarget? && (r.NotFound? <==> !Reach(es, start, end))
    ensures r.Found? ==> IsPath(es, start, end, r.path, r.dist) && IsLowerBound(es, start, end, r.dist)
  {
    hide TreeOk, OrderOk, RelaxedOk, QueueOk, DistanceMap.TableOk, Dijkstra.TableOk, IsHeap,
      IsLowerBound, Reach, IsPath;
    var queue := new MinQueue();
    var table := new DistMap(nNodes);
    table.Set(start, 0.0, -1);
    queue.Insert(start, 0.0);
    InitInv(es, start);
    assert table.labels == map[start := Label(0.0, -1)];
    assert queue.Items() == multiset{Entry(start, 0.0)};
    ghost var order := Search(es, start, end, queue, table);
    if end >= 0 {
      var final := table.Get(end);
      if final.Fin? {
        ghost var path;
        var n;
        n, path := CountPath(es, start, end, table, order);
        var aPath := ReadPath(start, end, table, n, path);
        return Found(aPath[..], final.d);
      } else {
        return NotFound;
      }
    } else {
      return NoTarget;
    }
  }
}
