/** The ground-level phase of a search: a breadth-first collection of hits, in order and no further than needed. */
module HNSWCollect {
  import opened Sequences
  import opened Vectors
  import opened Rows
  import opened TopK
  import opened HNSW
  import opened ScanOrder

  /** The hits of the live, filter-passing nodes among `ids`. */
  function Collected(ns: seq<Node>, ids: seq<nat>, q: Point, m: RowidMap, dist: Metric): (r: seq<Hit>)
    requires forall i :: 0 <= i < |ids| ==> ids[i] < |ns|
    ensures |r| <= |ids|
  {
    if ids == [] then []
    else
      var x := ns[ids[|ids| - 1]];
      Collected(ns, ids[..|ids| - 1], q, m, dist) +
      if !x.deleted && Passes(m, x.rowid) then [Hit(x.rowid, dist(x.vec, q))] else []
  }

  /**
   * The hits are those of the live nodes that pass the filter, in the order of `ids`: `at` names the places of these
   * and
   * of no others.
   */
  lemma {:induction false} CollectedAre(ns: seq<Node>, ids: seq<nat>, q: Point, m: RowidMap, dist: Metric)
    returns (at: seq<nat>)
    requires forall i :: 0 <= i < |ids| ==> ids[i] < |ns|
    ensures var r := Collected(ns, ids, q, m, dist);
      && |at| == |r| && (forall i, j :: 0 <= i < j < |at| ==> at[i] < at[j])
      && (forall i :: 0 <= i < |at| ==> at[i] < |ids| && var x := ns[ids[at[i]]]; r[i] == Hit(x.rowid, dist(x.vec, q)))
    ensures forall k: nat :: k < |ids| ==>
      (k in at <==> var x := ns[ids[k]]; !x.deleted && (m.preFilter ==> x.rowid in m.rowids))
  {
    if ids == [] {
      at := [];
    } else {
      var n := |ids| - 1;
      at := CollectedAre(ns, ids[..n], q, m, dist);
      var x := ns[ids[n]];
      if !x.deleted && (m.preFilter ==> x.rowid in m.rowids) {
        at := at + [n];
      }
    }
  }

  /** The queue lists distinct nodes reached from `from`, exactly those marked as visited. */
  ghost predicate QueueOk(ns: seq<Node>, from: nat, visited: seq<bool>, s: seq<nat>)
    requires Shaped(ns)
  {
    && |visited| == |ns| && Distinct(s)
    && (forall i :: 0 <= i < |s| ==> s[i] < |ns| && !ns[s[i]].deleted && LiveReach(ns, from, s[i]))
    && (forall v: nat :: v < |ns| ==> (visited[v] <==> v in s))
  }

  ghost predicate Explored(ns: seq<Node>, s: seq<nat>, h: nat)
    requires Shaped(ns) && h <= |s| && forall i :: 0 <= i < |s| ==> s[i] < |ns|
  {
    forall i, b: nat :: 0 <= i < h && b in N(ns, s[i], 0) && b < |ns| && !ns[b].deleted ==> b in s
  }

  lemma QueueNext(ns: seq<Node>, from: nat, visited: seq<bool>, s: seq<nat>, u: nat, b: nat)
    requires Shaped(ns) && QueueOk(ns, from, visited, s) && u in s && u < |ns| && b in N(ns, u, 0) && b < |ns|
    requires !visited[b] && !ns[b].deleted
    ensures |s| < |ns| && QueueOk(ns, from, visited[b := true], s + [b])
  {
    hide N, LiveReach, Shaped;
    DistinctFit(s + [b], |ns|);
    LiveReachStep(ns, from, u, b);
  }

  /** The ground-level lists of the queued nodes. */
  ghost function ListsOf(ns: seq<Node>, s: seq<nat>): (lists: seq<seq<int>>)
    requires Shaped(ns) && forall i :: 0 <= i < |s| ==> s[i] < |ns|
    ensures |lists| == |s| && forall i :: 0 <= i < |s| ==> lists[i] == N(ns, s[i], 0)
  {
    seq(|s|, i requires 0 <= i < |s| => N(ns, s[i], 0))
  }

  ghost function LiveIn(ns: seq<Node>): int -> bool { b => 0 <= b < |ns| && !ns[b].deleted }

  /** The queue is filled breadth first with live nodes, in the order of the lists, up to `cursor`. */
  ghost predicate GroundOrder(ns: seq<Node>, s: seq<nat>, at: seq<Spot>, cursor: Spot)
    requires Shaped(ns)
  {
    (forall i :: 0 <= i < |s| ==> s[i] < |ns|) && InOrder(ListsOf(ns, s), s, at, LiveIn(ns), cursor)
  }

  lemma GroundStart(ns: seq<Node>, from: nat)
    requires Shaped(ns) && from < |ns|
    ensures GroundOrder(ns, [from], [Spot(0, 0)], Spot(0, 0))
  {
    hide Shaped, N, InOrder;
    assert ListsOf(ns, [from]) == [N(ns, from, 0)];
    OrderStart(N(ns, from, 0), from, LiveIn(ns));
  }

  lemma GroundSkip(ns: seq<Node>, s: seq<nat>, at: seq<Spot>, h: nat, i: nat)
    requires Shaped(ns) && GroundOrder(ns, s, at, Spot(h, i)) && h < |s| && s[h] < |ns| && i < |N(ns, s[h], 0)|
    requires var b := N(ns, s[h], 0)[i]; b < |ns| && (ns[b].deleted || b in s)
    ensures GroundOrder(ns, s, at, Spot(h, i + 1))
  {
    hide Shaped, N, InOrder;
    OrderSkip(ListsOf(ns, s), s, at, LiveIn(ns), h, i, N(ns, s[h], 0)[i]);
  }

  lemma GroundAdd(ns: seq<Node>, s: seq<nat>, at: seq<Spot>, h: nat, i: nat)
    requires Shaped(ns) && GroundOrder(ns, s, at, Spot(h, i)) && h < |s| && s[h] < |ns| && i < |N(ns, s[h], 0)|
    requires var b := N(ns, s[h], 0)[i]; b < |ns| && !ns[b].deleted && b !in s
    ensures GroundOrder(ns, s + [N(ns, s[h], 0)[i]], at + [Spot(h, i)], Spot(h, i + 1))
  {
    hide Shaped, N, InOrder;
    var b := N(ns, s[h], 0)[i];
    OrderAdd(ListsOf(ns, s), s, at, LiveIn(ns), h, i, b, N(ns, b, 0));
    assert ListsOf(ns, s + [b]) == ListsOf(ns, s) + [N(ns, b, 0)];
  }

  lemma GroundTurn(ns: seq<Node>, s: seq<nat>, at: seq<Spot>, h: nat)
    requires Shaped(ns) && h < |s| && s[h] < |ns| && GroundOrder(ns, s, at, Spot(h, |N(ns, s[h], 0)|))
    ensures GroundOrder(ns, s, at, Spot(h + 1, 0))
  {
    hide Shaped, N, InOrder;
    OrderTurn(ListsOf(ns, s), s, at, LiveIn(ns), h);
  }

  /** The queue of a scan is determined by its first node. */
  lemma GroundUnique(ns: seq<Node>, s: seq<nat>, at: seq<Spot>, s': seq<nat>, at': seq<Spot>, c: Spot)
    requires Shaped(ns) && GroundOrder(ns, s, at, c) && GroundOrder(ns, s', at', c)
    requires s != [] && s' != [] && s[0] == s'[0]
    ensures s == s'
  {
    hide Shaped, N, InOrder;
    var a, b := ListsOf(ns, s), ListsOf(ns, s');
    OrderUnique(a, s, at, b, s', at', LiveIn(ns), c, |s|);
    OrderUnique(b, s', at', a, s, at, LiveIn(ns), c, |s'|);
    assert s[..|s|] == s && s'[..|s'|] == s';
  }

  /** Queues the unvisited live neighbours of the queue's entry `h`, in order; the queue array never overflows. */
  method VisitNeighbours(ns: seq<Node>, ghost from: nat, h: nat, visited: array<bool>, queue: array<nat>, qt0: nat,
                         ghost at0: seq<Spot>)
    returns (qt: nat, ghost at: seq<Spot>)
    requires GraphOk(ns) && visited.Length == queue.Length == |ns| && h < qt0 <= queue.Length && queue[h] < |ns|
    requires QueueOk(ns, from, visited[..], queue[..qt0]) && GroundOrder(ns, queue[..qt0], at0, Spot(h, 0))
    modifies visited, queue
    ensures qt0 <= qt <= queue.Length && queue[..qt0] == old(queue[..qt0])
    ensures QueueOk(ns, from, visited[..], queue[..qt]) && GroundOrder(ns, queue[..qt], at, Spot(h + 1, 0))
    ensures forall b: nat :: b in N(ns, old(queue[h]), 0) && b < |ns| && !ns[b].deleted ==> b in queue[..qt]
  {
    hide Distinct, LiveReach, GraphOk, GroundOrder, QueueOk;
    qt, at := qt0, at0;
    ghost var s0 := queue[..qt0];
    var u := queue[h];
    assert s0[h] == u;
    OkIsShaped(ns);
    var i := 0;
    while i < |N(ns, u, 0)|
      invariant 0 <= i <= |N(ns, u, 0)| && qt0 <= qt <= queue.Length && s0 <= queue[..qt] && queue[h] == u
      invariant QueueOk(ns, from, visited[..], queue[..qt]) && GroundOrder(ns, queue[..qt], at, Spot(h, i))
      invariant forall j :: 0 <= j < i ==>
        var b := N(ns, u, 0)[j]; b < |ns| && (ns[b].deleted || b in queue[..qt])
    {
      ListBounds(ns, u, 0, i);
      var b := N(ns, u, 0)[i];
      ghost var s, vs := queue[..qt], visited[..];
      assert s[h] == u;
      VisitedIs(ns, from, vs, s, h, i);
      if !visited[b] && !ns[b].deleted {
        QueueNext(ns, from, vs, s, u, b);
        GroundAdd(ns, s, at, h, i);
        visited[b] := true;
        queue[qt] := b;
        qt := qt + 1;
        at := at + [Spot(h, i)];
        assert queue[..qt] == s + [b] && visited[..] == vs[b := true];
      } else {
        GroundSkip(ns, s, at, h, i);
      }
      i := i + 1;
    }
    assert queue[..qt][h] == u;
    QueueBounds(ns, from, visited[..], queue[..qt]);
    GroundTurn(ns, queue[..qt], at, h);
  }

  lemma VisitedIs(ns: seq<Node>, from: nat, visited: seq<bool>, s: seq<nat>, h: nat, i: nat)
    requires Shaped(ns) && QueueOk(ns, from, visited, s) && h < |s| && s[h] < |ns| && i < |N(ns, s[h], 0)|
    requires N(ns, s[h], 0)[i] < |ns|
    ensures var b := N(ns, s[h], 0)[i];
      |visited| == |ns| && (visited[b] <==> b in s) && b in N(ns, s[h], 0)
  {
    hide Shaped, N;
  }

  lemma ExploreNext(ns: seq<Node>, s: seq<nat>, s': seq<nat>, h: nat)
    requires Shaped(ns) && h < |s| && s <= s' && forall i :: 0 <= i < |s'| ==> s'[i] < |ns|
    requires Explored(ns, s, h)
    requires forall b: nat :: b in N(ns, s[h], 0) && b < |ns| && !ns[b].deleted ==> b in s'
    ensures Explored(ns, s', h + 1)
  {
    hide N, Shaped;
    forall i, b: nat | 0 <= i < h + 1 && b in N(ns, s'[i], 0) && b < |ns| && !ns[b].deleted
      ensures b in s'
    {
      if i < h {
        assert s'[i] == s[i] && b in N(ns, s[i], 0);
        assert b in s;
      }
    }
  }

  /** An exhausted queue holds exactly the nodes reached. */
  lemma ExploredIsReach(ns: seq<Node>, from: nat, visited: seq<bool>, s: seq<nat>)
    requires Shaped(ns) && QueueOk(ns, from, visited, s) && from in s && Explored(ns, s, |s|)
    ensures forall v: nat :: LiveReach(ns, from, v) <==> v in s
  {
    hide N, Shaped, Distinct;
    forall v: nat
      ensures LiveReach(ns, from, v) <==> v in s
    {
      if LiveReach(ns, from, v) {
        var p: seq<nat> :| p != [] && p[0] == from && p[|p| - 1] == v && LiveTrail(ns, p);
        TrailStays(ns, s, p);
      }
    }
  }

  /** The nodes seen are the first of a queue that is filled breadth first from `from`. */
  ghost predicate SeenFirst(ns: seq<Node>, from: nat, seen: seq<nat>)
    requires Shaped(ns)
  {
    exists s, at :: seen <= s && GroundOrder(ns, s, at, Spot(|seen|, 0)) && s[0] == from
  }

  /**
   * What the collection hands to the sort: hits of distinct reached nodes in breadth-first order, all of them unless
   * `ef`
   * were found, and none after that.
   */
  ghost predicate Gathered(ns: seq<Node>, from: nat, q: Point, m: RowidMap, dist: Metric, ef: nat, seen: seq<nat>,
                           hits: seq<Hit>)
    requires Shaped(ns)
  {
    && Distinct(seen) && |seen| <= |ns| && (forall i :: 0 <= i < |seen| ==> seen[i] < |ns|)
    && (forall i :: 0 <= i < |seen| ==> LiveReach(ns, from, seen[i]))
    && SeenFirst(ns, from, seen) && (seen != [] ==> |Collected(ns, seen[..|seen| - 1], q, m, dist)| < ef)
    && hits == Collected(ns, seen, q, m, dist) && |hits| <= ef
    && (|hits| < ef ==> forall v: nat :: LiveReach(ns, from, v) <==> v in seen)
  }

  lemma CollectedNext(ns: seq<Node>, s: seq<nat>, h: nat, q: Point, m: RowidMap, dist: Metric)
    requires h < |s| && forall i :: 0 <= i < |s| ==> s[i] < |ns|
    ensures var x := ns[s[h]];
      Collected(ns, s[..h + 1], q, m, dist) ==
      Collected(ns, s[..h], q, m, dist) +
        if !x.deleted && Passes(m, x.rowid) then [Hit(x.rowid, dist(x.vec, q))] else []
  {
    assert s[..h + 1][..h] == s[..h];
  }

  /** The state of the collection loop: the first `h` of the queue have been explored and collected. */
  ghost predicate Collecting(ns: seq<Node>, from: nat, q: Point, m: RowidMap, dist: Metric,
                             visited: seq<bool>, s: seq<nat>, h: nat, hits: seq<Hit>)
    requires Shaped(ns)
  {
    && h <= |s| && QueueOk(ns, from, visited, s) && from in s && Explored(ns, s, h)
    && hits == Collected(ns, s[..h], q, m, dist)
  }

  lemma CollectStart(ns: seq<Node>, from: nat, q: Point, m: RowidMap, dist: Metric, visited: seq<bool>)
    requires Shaped(ns) && from < |ns| && !ns[from].deleted && |visited| == |ns|
    requires forall v: nat :: v < |ns| ==> visited[v] == (v == from)
    ensures Collecting(ns, from, q, m, dist, visited, [from], 0, [])
  {
    hide N, Shaped;
    LiveReachSelf(ns, from);
  }

  lemma CollectStep(ns: seq<Node>, from: nat, q: Point, m: RowidMap, dist: Metric,
                    visited: seq<bool>, s: seq<nat>, visited': seq<bool>, s': seq<nat>, h: nat, hits: seq<Hit>)
    requires Shaped(ns) && Collecting(ns, from, q, m, dist, visited, s, h, hits) && h < |s|
    requires s <= s' && QueueOk(ns, from, visited', s')
    requires forall b: nat :: b in N(ns, s[h], 0) && b < |ns| && !ns[b].deleted ==> b in s'
    ensures var x := ns[s[h]];
      Collecting(ns, from, q, m, dist, visited', s', h + 1,
        hits + if !x.deleted && Passes(m, x.rowid) then [Hit(x.rowid, dist(x.vec, q))] else [])
  {
    hide N, Shaped, Collected;
    ExploreNext(ns, s, s', h);
    CollectedNext(ns, s', h, q, m, dist);
    assert s'[..h] == s[..h];
  }

  /** Before the last of the first `h` fewer than `ef` hits had been found. */
  ghost predicate FewerBefore(ns: seq<Node>, s: seq<nat>, h: nat, q: Point, m: RowidMap, dist: Metric, ef: nat) {
    && 0 < h <= |s| && (forall i :: 0 <= i < |s| ==> s[i] < |ns|)
    && |Collected(ns, s[..h - 1], q, m, dist)| < ef
  }

  lemma FewerNow(ns: seq<Node>, from: nat, q: Point, m: RowidMap, dist: Metric, ef: nat, visited: seq<bool>,
                 s: seq<nat>,
                 h: nat, hits: seq<Hit>, s': seq<nat>)
    requires Shaped(ns) && Collecting(ns, from, q, m, dist, visited, s, h, hits) && h < |s| && |hits| < ef
    requires s <= s' && forall i :: 0 <= i < |s'| ==> s'[i] < |ns|
    ensures FewerBefore(ns, s', h + 1, q, m, dist, ef)
  {
    hide N, Shaped, Collected;
    assert s'[..h] == s[..h];
  }

  /** When the loop ends, what it explored is what it gathered. */
  lemma CollectEnd(ns: seq<Node>, from: nat, q: Point, m: RowidMap, dist: Metric, ef: nat,
                   visited: seq<bool>, s: seq<nat>, h: nat, hits: seq<Hit>)
    requires Shaped(ns) && Collecting(ns, from, q, m, dist, visited, s, h, hits) && |hits| <= ef
    requires h == |s| || |hits| == ef
    requires SeenFirst(ns, from, s[..h]) && (h > 0 ==> FewerBefore(ns, s, h, q, m, dist, ef))
    ensures Gathered(ns, from, q, m, dist, ef, s[..h], hits)
  {
    hide N, Shaped, Collected, LiveReach, Explored, SeenFirst;
    assert h > 0 ==> s[..h][..h - 1] == s[..h - 1];
    DistinctFit(s[..h], |ns|);
    if |hits| < ef {
      assert s[..h] == s;
      ExploredIsReach(ns, from, visited, s);
    }
  }

  /** The ground-level breadth-first collection of up to `ef` hits. */
  method CollectFrom(ns: seq<Node>, from: nat, q: Point, ef: nat, m: RowidMap, dist: Metric, out: array<Hit>)
    returns (results: nat, ghost seen: seq<nat>)
    requires GraphOk(ns) && from < |ns| && !ns[from].deleted && SortedIds(m.rowids) && out.Length == ef
    modifies out
    ensures results <= ef && Gathered(ns, from, q, m, dist, ef, seen, out[..results])
  {
    hide GraphOk, N, Collecting, Gathered, QueueOk, GroundOrder, FewerBefore;
    assert Shaped(ns) by { OkIsShaped(ns); }
    var visited := new bool[|ns|](_ => false);
    var queue := new nat[|ns|](_ => 0);
    var qh, qt := 0, 1;
    queue[0] := from;
    visited[from] := true;
    results := 0;
    assert queue[..qt] == [from] && out[..results] == [];
    CollectStart(ns, from, q, m, dist, visited[..]);
    GroundStart(ns, from);
    ghost var at := [Spot(0, 0)];
    while qh < qt && results < ef
      invariant 0 <= qh <= qt <= queue.Length && results <= ef && qt > 0 && queue[0] == from
      invariant GroundOrder(ns, queue[..qt], at, Spot(qh, 0))
      invariant qh > 0 ==> FewerBefore(ns, queue[..qt], qh, q, m, dist, ef)
      invariant Collecting(ns, from, q, m, dist, visited[..], queue[..qt], qh, out[..results])
      decreases queue.Length - qh
    {
      ghost var s, vs, hits := queue[..qt], visited[..], out[..results];
      var u := queue[qh];
      assert s[qh] == u;
      CollectingFacts(ns, from, q, m, dist, vs, s, qh, hits);
      var inMap := Contains(m.rowids, ns[u].rowid);
      if !ns[u].deleted && (inMap || !m.preFilter) {
        out[results] := Hit(ns[u].rowid, dist(ns[u].vec, q));
        results := results + 1;
      }
      assert out[..results] ==
        hits + if !ns[u].deleted && Passes(m, ns[u].rowid) then [Hit(ns[u].rowid, dist(ns[u].vec, q))] else [];
      qt, at := VisitNeighbours(ns, from, qh, visited, queue, qt, at);
      QueueBounds(ns, from, visited[..], queue[..qt]);
      FewerNow(ns, from, q, m, dist, ef, vs, s, qh, hits, queue[..qt]);
      assert queue[..qt][0] == s[0] == from;
      CollectStep(ns, from, q, m, dist, vs, s, visited[..], queue[..qt], qh, hits);
      qh := qh + 1;
    }
    seen := queue[..qh];
    assert queue[..qt][..qh] == seen && queue[..qt][0] == from;
    assert SeenFirst(ns, from, seen);
    CollectEnd(ns, from, q, m, dist, ef, visited[..], queue[..qt], qh, out[..results]);
  }

  lemma QueueBounds(ns: seq<Node>, from: nat, visited: seq<bool>, s: seq<nat>)
    requires Shaped(ns) && QueueOk(ns, from, visited, s)
    ensures forall i :: 0 <= i < |s| ==> s[i] < |ns|
  {
  }

  lemma CollectingFacts(ns: seq<Node>, from: nat, q: Point, m: RowidMap, dist: Metric,
                        visited: seq<bool>, s: seq<nat>, h: nat, hits: seq<Hit>)
    requires Shaped(ns) && Collecting(ns, from, q, m, dist, visited, s, h, hits) && h < |s|
    ensures s[h] < |ns| && QueueOk(ns, from, visited, s)
  {
  }
}
