/**
 Dijkstra's algorithm with stale queue entries, as a state machine: tentative labels, queued
 entries, and the nodes whose rows have been relaxed, in order.
 */
module Dijkstra {
  import opened Graphs
  import opened PriorityQueue
  import opened DistanceMap

  type Labels = map<int, Label>

  /** Weights and node ids are non-negative. */
  ghost predicate TableOk(es: seq<Edge>) {
    forall e :: e in es ==> e.weight >= 0.0 && e.from >= 0 && e.to >= 0
  }

  ghost function Weight(w: seq<Edge>): real {
    if w == [] then 0.0 else w[0].weight + Weight(w[1..])
  }

  // ----- invariants

  ghost predicate LabelsOk(start: int, d: Labels) {
    && start >= 0 && start in d && d[start] == Label(0.0, -1)
    && (forall v :: v in d ==> v >= 0 && d[v].dist >= 0.0)
  }

  /** The recorded predecessor of `v` has been relaxed and an actual row explains its distance. */
  ghost predicate Explained(es: seq<Edge>, start: int, d: Labels, order: seq<int>, v: int)
    requires v in d
  {
    v == start ||
    (d[v].pred in order && d[v].pred in d && Edge(d[v].pred, v, d[v].dist - d[d[v].pred].dist) in es)
  }

  ghost predicate TreeOk(es: seq<Edge>, start: int, d: Labels, order: seq<int>) {
    forall v {:trigger Explained(es, start, d, order, v)} :: v in d ==> Explained(es, start, d, order, v)
  }

  /** Relaxed nodes are distinct and labelled, and predecessors were relaxed earlier. */
  ghost predicate OrderOk(start: int, d: Labels, order: seq<int>) {
    && (forall i, j :: 0 <= i < j < |order| ==> order[i] != order[j])
    && (forall i :: 0 <= i < |order| ==>
          order[i] in d && (order[i] == start || d[order[i]].pred in order[..i]))
    && (forall i :: 0 <= i < |order| ==>
          order[i] in d && order[|order| - 1] in d && d[order[i]].dist <= d[order[|order| - 1]].dist)
  }

  ghost predicate Relaxed(d: Labels, e: Edge) {
    e.from in d && e.to in d && d[e.to].dist <= d[e.from].dist + e.weight
  }

  /** All rows of relaxed nodes, except those still pending, have been used. */
  ghost predicate RelaxedOk(es: seq<Edge>, d: Labels, order: seq<int>, pending: seq<Edge>) {
    forall e :: e in es && e.from in order && e !in pending ==> Relaxed(d, e)
  }

  ghost predicate QueueOk(d: Labels, q: multiset<Entry>, order: seq<int>) {
    && (forall x :: x in q ==> q[x] == 1 && x.id in d && d[x.id].dist <= x.dist)
    && (forall x :: x in q && x.id in order ==> d[x.id].dist < x.dist)
    && (forall v :: v in d && v !in order ==> Entry(v, d[v].dist) in q)
    && (forall u, x :: u in order && x in q ==> u in d && d[u].dist <= x.dist)
  }

  ghost predicate Inv(es: seq<Edge>, start: int, d: Labels, q: multiset<Entry>, order: seq<int>, pending: seq<Edge>) {
    && TableOk(es) && LabelsOk(start, d) && TreeOk(es, start, d, order) && OrderOk(start, d, order)
    && RelaxedOk(es, d, order, pending) && QueueOk(d, q, order)
  }

  // ----- steps

  lemma InitInv(es: seq<Edge>, start: int)
    requires TableOk(es) && start >= 0
    ensures Inv(es, start, map[start := Label(0.0, -1)], multiset{Entry(start, 0.0)}, [], [])
  {
  }

  /** An extracted entry above its node's label is dropped. */
  lemma DropStale(d: Labels, q: multiset<Entry>, order: seq<int>, x: Entry)
    requires QueueOk(d, q, order) && x in q && x.dist > d[x.id].dist
    ensures QueueOk(d, q - multiset{x}, order)
  {
  }

  /** An extracted minimum at its node's label makes the node relaxed for the first time. */
  lemma Settle(es: seq<Edge>, start: int, d: Labels, q: multiset<Entry>, order: seq<int>, x: Entry)
    requires Inv(es, start, d, q, order, []) && x in q && x.dist <= d[x.id].dist
    requires forall y :: y in q ==> x.dist <= y.dist
    ensures x.id !in order && x.dist == d[x.id].dist
    ensures Inv(es, start, d, q - multiset{x}, order + [x.id], Rows(es, x.id))
  {
    assert x.id !in order;
    SettleQueue(d, q, order, x);
    SettleOrder(es, start, d, order, x.id);
    assert forall e :: e in es && e.from == x.id ==> e in Rows(es, x.id);
    assert forall u :: u in order + [x.id] <==> u in order || u == x.id;
    forall v | v in d
      ensures Explained(es, start, d, order + [x.id], v)
    {
      assert Explained(es, start, d, order, v);
    }
  }

  lemma SettleQueue(d: Labels, q: multiset<Entry>, order: seq<int>, x: Entry)
    requires QueueOk(d, q, order) && x in q && x.dist == d[x.id].dist
    requires forall y :: y in q ==> x.dist <= y.dist
    ensures QueueOk(d, q - multiset{x}, order + [x.id])
  {
    assert forall u :: u in order + [x.id] <==> u in order || u == x.id;
    forall y | y in q - multiset{x} && y.id == x.id
      ensures d[x.id].dist < y.dist
    {
      assert y != x;
      assert y.dist != x.dist;
    }
  }

  lemma SettleOrder(es: seq<Edge>, start: int, d: Labels, order: seq<int>, u: int)
    requires OrderOk(start, d, order) && TreeOk(es, start, d, order) && u in d && u !in order
    requires forall v :: v in order ==> v in d && d[v].dist <= d[u].dist
    ensures OrderOk(start, d, order + [u])
  {
    var o := order + [u];
    assert Explained(es, start, d, order, u);
    forall i | 0 <= i < |o|
      ensures o[i] in d && (o[i] == start || d[o[i]].pred in o[..i])
    {
      if i < |order| {
        assert o[..i] == order[..i];
      } else {
        assert o[..i] == order;
      }
    }
  }

  ghost predicate Improves(d: Labels, u: int, e: Edge)
    requires u in d
  {
    e.to !in d || d[u].dist + e.weight < d[e.to].dist
  }

  /** A row that does not improve its end is done with. */
  lemma RelaxSkip(es: seq<Edge>, d: Labels, order: seq<int>, pending: seq<Edge>)
    requires pending != [] && RelaxedOk(es, d, order, pending)
    requires pending[0].from in d && !Improves(d, pending[0].from, pending[0])
    ensures RelaxedOk(es, d, order, pending[1..])
  {
    assert forall e :: e in pending ==> e == pending[0] || e in pending[1..];
  }

  /** A row of the last relaxed node that improves its end relabels and queues it. */
  lemma RelaxStep(es: seq<Edge>, start: int, d: Labels, q: multiset<Entry>, order: seq<int>, pending: seq<Edge>)
    requires Inv(es, start, d, q, order, pending) && pending != [] && pending[0] in es
    requires order != [] && pending[0].from == order[|order| - 1] && Improves(d, pending[0].from, pending[0])
    ensures var e := pending[0];
      var nd := d[e.from].dist + e.weight;
      Inv(es, start, d[e.to := Label(nd, e.from)], q + multiset{Entry(e.to, nd)}, order, pending[1..])
  {
    var e := pending[0];
    var nd := d[e.from].dist + e.weight;
    var d' := d[e.to := Label(nd, e.from)];
    assert e.to !in order;
    assert e.to != start;
    StepQueue(d, q, order, e, nd);
    StepTree(es, start, d, order, e, nd);
    StepRelaxed(es, d, order, pending, nd);
    assert OrderOk(start, d', order);
  }

  lemma StepQueue(d: Labels, q: multiset<Entry>, order: seq<int>, e: Edge, nd: real)
    requires QueueOk(d, q, order) && e.to !in order && (e.to in d ==> nd < d[e.to].dist)
    requires forall u :: u in order ==> u in d && d[u].dist <= nd
    ensures QueueOk(d[e.to := Label(nd, e.from)], q + multiset{Entry(e.to, nd)}, order)
  {
    var x := Entry(e.to, nd);
    assert x !in q;
  }

  lemma StepTree(es: seq<Edge>, start: int, d: Labels, order: seq<int>, e: Edge, nd: real)
    requires TreeOk(es, start, d, order) && e in es && e.to !in order && e.from in order && e.from in d
    requires nd == d[e.from].dist + e.weight
    ensures TreeOk(es, start, d[e.to := Label(nd, e.from)], order)
  {
    var d' := d[e.to := Label(nd, e.from)];
    forall v | v in d'
      ensures Explained(es, start, d', order, v)
    {
      if v == e.to {
        assert Edge(e.from, e.to, nd - d[e.from].dist) == e;
      } else {
        assert Explained(es, start, d, order, v);
      }
    }
  }

  lemma StepRelaxed(es: seq<Edge>, d: Labels, order: seq<int>, pending: seq<Edge>, nd: real)
    requires pending != [] && RelaxedOk(es, d, order, pending) && pending[0].to !in order
    requires pending[0].from in d && pending[0].from in order && nd == d[pending[0].from].dist + pending[0].weight
    requires pending[0].to in d ==> nd < d[pending[0].to].dist
    ensures RelaxedOk(es, d[pending[0].to := Label(nd, pending[0].from)], order, pending[1..])
  {
    assert forall e :: e in pending ==> e == pending[0] || e in pending[1..];
  }

  // ----- optimality

  /** A walk from a relaxed node ends at a relaxed node labelled within it, or costs at least an unrelaxed label. */
  lemma {:induction false} WalkBound(es: seq<Edge>, start: int, d: Labels, order: seq<int>, u: int, w: seq<Edge>,
                                     x: int)
    requires TableOk(es) && RelaxedOk(es, d, order, []) && (forall v :: v in order ==> v in d)
    requires u in order && IsWalk(es, u, w, x)
    ensures (x in order && d[x].dist <= d[u].dist + Weight(w)) ||
            exists y :: y in d && y !in order && d[y].dist <= d[u].dist + Weight(w)
    decreases |w|
  {
    if w != [] {
      var e := w[0];
      assert Relaxed(d, e);
      if e.to in order {
        WalkBound(es, start, d, order, e.to, w[1..], x);
      } else {
        WeightNonNeg(es, e.to, w[1..], x);
        assert e.to in d && e.to !in order && d[e.to].dist <= d[u].dist + Weight(w);
      }
    }
  }

  lemma {:induction false} WeightNonNeg(es: seq<Edge>, u: int, w: seq<Edge>, x: int)
    requires TableOk(es) && IsWalk(es, u, w, x)
    ensures Weight(w) >= 0.0
    decreases |w|
  {
    if w != [] {
      WeightNonNeg(es, w[0].to, w[1..], x);
    }
  }

  /** Every walk from the start costs at least the label of its end or some queued distance. */
  lemma StartBound(es: seq<Edge>, start: int, d: Labels, q: multiset<Entry>, order: seq<int>, w: seq<Edge>, x: int)
    requires Inv(es, start, d, q, order, []) && IsWalk(es, start, w, x)
    ensures (x in order && x in d && d[x].dist <= Weight(w)) || exists y :: y in q && y.dist <= Weight(w)
  {
    WeightNonNeg(es, start, w, x);
    if start in order {
      WalkBound(es, start, d, order, start, w, x);
      if !(x in order && d[x].dist <= d[start].dist + Weight(w)) {
        var y :| y in d && y !in order && d[y].dist <= d[start].dist + Weight(w);
        assert Entry(y, d[y].dist) in q;
      }
    } else {
      assert Entry(start, 0.0) in q;
    }
  }

  /** The label of `x` is at most the weight of every walk from the start to `x`. */
  ghost predicate IsLowerBound(es: seq<Edge>, start: int, x: int, c: real) {
    forall w :: IsWalk(es, start, w, x) ==> c <= Weight(w)
  }

  lemma ExtractedIsOptimal(es: seq<Edge>, start: int, d: Labels, q: multiset<Entry>, order: seq<int>, x: Entry)
    requires Inv(es, start, d, q, order, []) && x in q && (forall y :: y in q ==> x.dist <= y.dist)
    ensures x.id in d && IsLowerBound(es, start, x.id, d[x.id].dist)
  {
    forall w | IsWalk(es, start, w, x.id)
      ensures d[x.id].dist <= Weight(w)
    {
      StartBound(es, start, d, q, order, w, x.id);
    }
  }

  lemma ExhaustedIsOptimal(es: seq<Edge>, start: int, d: Labels, order: seq<int>, x: int)
    requires Inv(es, start, d, multiset{}, order, [])
    ensures Reach(es, start, x) ==> x in d
    ensures x in d ==> IsLowerBound(es, start, x, d[x].dist)
  {
    forall w | IsWalk(es, start, w, x)
      ensures x in d && d[x].dist <= Weight(w)
    {
      StartBound(es, start, d, multiset{}, order, w, x);
    }
  }

  // ----- the predecessor walk

  /** Position of `v` among the relaxed nodes; unrelaxed nodes come last. */
  ghost function Rank(order: seq<int>, v: int): nat {
    if order == [] then 0 else if order[0] == v then 0 else 1 + Rank(order[1..], v)
  }

  lemma {:induction false} RankOfMember(order: seq<int>, i: nat)
    requires i < |order|
    ensures Rank(order, order[i]) <= i
  {
    if i > 0 && order[0] != order[i] {
      assert order[1..][i - 1] == order[i];
      RankOfMember(order[1..], i - 1);
    }
  }

  lemma {:induction false} RankInPrefix(order: seq<int>, n: nat, v: int)
    requires n <= |order| && v in order[..n]
    ensures Rank(order, v) < n
  {
    var i :| 0 <= i < n && order[..n][i] == v;
    RankOfMember(order, i);
  }

  lemma {:induction false} RankFirst(order: seq<int>, v: int)
    ensures Rank(order, v) <= |order|
    ensures Rank(order, v) < |order| <==> v in order
    ensures v in order ==> order[Rank(order, v)] == v
  {
    if order != [] && order[0] != v {
      RankFirst(order[1..], v);
    }
  }

  /** Following a predecessor strictly lowers the rank, even along rows of weight zero. */
  lemma PredecessorRank(es: seq<Edge>, start: int, d: Labels, order: seq<int>, v: int)
    requires OrderOk(start, d, order) && TreeOk(es, start, d, order) && v in d && v != start
    ensures d[v].pred in d && Rank(order, d[v].pred) < Rank(order, v)
    ensures Edge(d[v].pred, v, d[v].dist - d[d[v].pred].dist) in es
  {
    assert Explained(es, start, d, order, v);
    RankFirst(order, v);
    RankFirst(order, d[v].pred);
    if v in order {
      RankInPrefix(order, Rank(order, v), d[v].pred);
    }
  }

  /** The nodes a walk visits. */
  ghost function Visits(u: int, w: seq<Edge>): seq<int>
    decreases |w|
  {
    if w == [] then [u] else [u] + Visits(w[0].to, w[1..])
  }

  /** `path` lists the nodes of a walk from `start` to `end` of weight `c`. */
  ghost predicate IsPath(es: seq<Edge>, start: int, end: int, path: seq<int>, c: real) {
    exists w :: IsWalk(es, start, w, end) && Weight(w) == c && Visits(start, w) == path
  }

  lemma ExtendPath(es: seq<Edge>, e: Edge, end: int, path: seq<int>, c: real)
    requires e in es && IsPath(es, e.to, end, path, c)
    ensures IsPath(es, e.from, end, [e.from] + path, c + e.weight)
  {
    var w :| IsWalk(es, e.to, w, end) && Weight(w) == c && Visits(e.to, w) == path;
    var w' := [e] + w;
    assert w'[1..] == w;
    assert IsWalk(es, e.from, w', end) && Weight(w') == c + e.weight && Visits(e.from, w') == [e.from] + path;
  }
}
