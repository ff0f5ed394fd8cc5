/** The linked queue, the visited set, and the two traversals that run on them. */
module TraversalRun {
  import opened Sequences
  import opened Graphs
  import opened Traversal
  import opened ScanOrder
  import opened BreadthOrder
  import opened DepthFirst
  import opened DepthOrder

  // ----- the linked FIFO queue

  class QueueNode {
    const id: int
    var next: QueueNode?

    constructor (id: int)
      ensures this.id == id && next == null
    {
      this.id := id;
      next := null;
    }
  }

  class Queue {
    var head: QueueNode?
    var tail: QueueNode?
    ghost var spine: seq<QueueNode>

    /** The spine lists the linked nodes from head to tail. */
    ghost predicate Valid()
      reads this, spine
    {
      && (forall i, j :: 0 <= i < j < |spine| ==> spine[i] != spine[j])
      && (forall i :: 0 <= i < |spine| - 1 ==> spine[i].next == spine[i + 1])
      && (spine == [] ==> head == null && tail == null)
      && (spine != [] ==> head == spine[0] && tail == spine[|spine| - 1] && spine[|spine| - 1].next == null)
    }

    ghost function Items(): (s: seq<int>)
      reads this
      ensures |s| == |spine| && forall i :: 0 <= i < |s| ==> s[i] == spine[i].id
    {
      seq(|spine|, i requires 0 <= i < |spine| reads this => spine[i].id)
    }

    ghost function Nodes(): set<QueueNode>
      reads this
    {
      set n | n in spine
    }

    constructor ()
      ensures Valid() && Items() == [] && spine == [] && Nodes() == {}
    {
      head, tail, spine := null, null, [];
    }

    method Enqueue(id: int)
      requires Valid()
      modifies this, tail
      ensures Valid() && Items() == old(Items()) + [id]
      ensures fresh(Nodes() - old(Nodes()))
    {
      var p := new QueueNode(id);
      if tail != null {
        tail.next := p;
      } else {
        head := p;
      }
      tail := p;
      spine := spine + [p];
    }

    method Dequeue() returns (found: bool, id: int)
      requires Valid()
      modifies this
      ensures Valid() && found == (old(Items()) != [])
      ensures found ==> id == old(Items())[0] && Items() == old(Items())[1..]
      ensures !found ==> Items() == []
      ensures Nodes() <= old(Nodes())
    {
      if head == null {
        return false, 0;
      }
      ghost var was := spine;
      assert head == was[0];
      id := head.id;
      head := head.next;
      spine := was[1..];
      if head == null {
        tail := null;
      }
      found := true;
    }
  }

  // ----- the growing visited set

  class VisitedSet {
    var nodes: array<int>
    var used: nat

    ghost predicate Valid()
      reads this, nodes
    {
      used <= nodes.Length && nodes.Length > 0
    }

    ghost function Items(): seq<int>
      requires Valid()
      reads this, nodes
    {
      nodes[..used]
    }

    constructor ()
      ensures Valid() && Items() == [] && fresh(nodes)
    {
      nodes := new int[16];
      used := 0;
    }

    method Add(id: int)
      requires Valid()
      modifies this, nodes
      ensures Valid() && Items() == old(Items()) + [id]
      ensures nodes == old(nodes) || fresh(nodes)
    {
      if used >= nodes.Length {
        var wider := new int[nodes.Length * 2];
        forall i | 0 <= i < used {
          wider[i] := nodes[i];
        }
        nodes := wider;
      }
      nodes[used] := id;
      used := used + 1;
    }

    method Contains(id: int) returns (found: bool)
      requires Valid()
      ensures found == (id in Items())
    {
      var i := 0;
      while i < used
        invariant 0 <= i <= used && id !in nodes[..i]
      {
        if nodes[i] == id {
          assert Items()[i] == id;
          return true;
        }
        i := i + 1;
      }
      assert nodes[..i] == Items();
      return false;
    }
  }

  // ----- breadth first

  datatype DepthInfo = DepthInfo(id: int, depth: nat)

  /** The depth list, newest first, records depth `d[i]` for the node `out[i]`. */
  ghost predicate Records(list: seq<DepthInfo>, out: seq<int>, d: seq<nat>) {
    |list| == |out| == |d| && forall i :: 0 <= i < |list| ==> list[|list| - 1 - i] == DepthInfo(out[i], d[i])
  }

  method FindDepth(list: seq<DepthInfo>, id: int, ghost out: seq<int>, ghost d: seq<nat>, ghost at: nat)
    returns (depth: nat)
    requires Records(list, out, d) && Distinct(out) && at < |out| && out[at] == id
    ensures depth == d[at]
  {
    depth := 0;
    var i := 0;
    assert list[|list| - 1 - at] == DepthInfo(id, d[at]);
    while i < |list|
      invariant 0 <= i <= |list| - 1 - at
    {
      if list[i].id == id {
        assert list[|list| - 1 - (|list| - 1 - i)].id == out[|list| - 1 - i];
        return list[i].depth;
      }
      i := i + 1;
    }
  }

  /** The queue holds the visited nodes from `h` on. */
  ghost predicate Holds(q: Queue, visited: VisitedSet, list: seq<DepthInfo>, out: seq<int>, d: seq<nat>, h: nat)
    reads q, q.spine, visited, visited.nodes
  {
    && q.Valid() && visited.Valid() && visited.Items() == out
    && Records(list, out, d) && h <= |out| && q.Items() == out[h..]
  }

  ghost predicate Progress(es: seq<Edge>, s: int, limit: int, out: seq<int>, d: seq<nat>, h: nat) {
    && |out| == |d| && Layered(es, s, limit, out, d) && h <= |out| && Expanded(es, limit, out, d, h)
    && (h < |out| ==> d[|d| - 1] <= d[h] + 1)
    && Elems(out) <= Universe(es, s)
  }

  /** The rows from the `k`-th on are still to be followed from the node at `h`. */
  ghost predicate Followed(es: seq<Edge>, out: seq<int>, d: seq<nat>, h: nat, rows: seq<Edge>, k: nat)
    requires |out| == |d| && h < |out| && k <= |rows|
  {
    forall j :: 0 <= j < k ==> SeenBy(out, d, rows[j].to, d[h] + 1)
  }

  lemma FollowedNone(es: seq<Edge>, out: seq<int>, d: seq<nat>, h: nat, rows: seq<Edge>)
    requires |out| == |d| && h < |out|
    ensures Followed(es, out, d, h, rows, 0)
  {
  }

  lemma FollowNew(es: seq<Edge>, s: int, limit: int, out: seq<int>, d: seq<nat>, h: nat, rows: seq<Edge>, k: nat)
    requires Progress(es, s, limit, out, d, h) && h < |out| && Expands(limit, d[h]) && k < |rows|
    requires rows[k] in es && rows[k].from == out[h] && rows[k].to !in out && Followed(es, out, d, h, rows, k)
    ensures var out', d' := out + [rows[k].to], d + [d[h] + 1];
      Progress(es, s, limit, out', d', h) && Followed(es, out', d', h, rows, k + 1)
  {
    hide Layered, Expanded, SeenBy;
    var e := rows[k];
    var out', d' := out + [e.to], d + [d[h] + 1];
    VisitNew(es, s, limit, out, d, h, e);
    SeenNow(out, d, e.to, d[h] + 1);
    forall j | 0 <= j < k
      ensures SeenBy(out', d', rows[j].to, d'[h] + 1)
    {
      SeenLater(out, d, rows[j].to, d[h] + 1, e.to, d[h] + 1);
    }
    assert Elems(out') == Elems(out) + {e.to};
  }

  lemma FollowOld(es: seq<Edge>, s: int, limit: int, out: seq<int>, d: seq<nat>, h: nat, rows: seq<Edge>, k: nat)
    requires Progress(es, s, limit, out, d, h) && h < |out| && k < |rows| && rows[k].to in out
    requires Followed(es, out, d, h, rows, k)
    ensures Followed(es, out, d, h, rows, k + 1)
  {
    hide SeenBy;
    AlreadySeen(out, d, rows[k].to, d[h] + 1);
  }

  /** All rows of the node at `h` followed: the queue head moves on. */
  lemma Advance(es: seq<Edge>, s: int, limit: int, out: seq<int>, d: seq<nat>, h: nat)
    requires Progress(es, s, limit, out, d, h) && h < |out|
    requires Expands(limit, d[h]) ==> Followed(es, out, d, h, Rows(es, out[h]), |Rows(es, out[h])|)
    ensures Progress(es, s, limit, out, d, h + 1)
  {
    hide SeenBy, Rows;
    forall i, e | 0 <= i < h + 1 && Expands(limit, d[i]) && e in es && e.from == out[i]
      ensures SeenBy(out, d, e.to, d[i] + 1)
    {
      if i == h {
        assert e in Rows(es, out[h]);
      }
    }
  }

  /** Records a newly visited node in the visited set, the queue, the depth list and the path. */
  method Visit(to: int, depth: nat, q: Queue, visited: VisitedSet, list0: seq<DepthInfo>, path0: seq<int>,
               ghost d: seq<nat>, ghost h: nat)
    returns (list: seq<DepthInfo>, path: seq<int>)
    requires Holds(q, visited, list0, path0, d, h)
    modifies q, q.tail, visited, visited.nodes
    ensures path == path0 + [to] && Holds(q, visited, list, path, d + [depth], h)
    ensures fresh(q.Nodes() - old(q.Nodes()))
    ensures visited.nodes == old(visited.nodes) || fresh(visited.nodes)
  {
    hide Records, Distinct;
    visited.Add(to);
    q.Enqueue(to);
    list := [DepthInfo(to, depth)] + list0;
    path := path0 + [to];
    RecordsNext(list0, path0, d, to, depth);
    SliceNext(path0, h, to);
  }

  lemma SliceNext(path: seq<int>, h: nat, to: int)
    requires h <= |path|
    ensures (path + [to])[h..] == path[h..] + [to]
  {
  }

  lemma RecordsNext(list: seq<DepthInfo>, out: seq<int>, d: seq<nat>, to: int, depth: nat)
    requires Records(list, out, d)
    ensures Records([DepthInfo(to, depth)] + list, out + [to], d + [depth])
  {
  }

  lemma TailIsNode(q: Queue, visited: VisitedSet, list: seq<DepthInfo>, path: seq<int>, d: seq<nat>, h: nat)
    requires Holds(q, visited, list, path, d, h)
    ensures q.tail != null ==> q.tail in q.Nodes()
  {
  }

  /** The visited set answers for the path. */
  method IsVisited(to: int, q: Queue, visited: VisitedSet, list: seq<DepthInfo>, path: seq<int>, ghost d: seq<nat>,
                   ghost h: nat)
    returns (seen: bool)
    requires Holds(q, visited, list, path, d, h)
    ensures seen == (to in path)
  {
    seen := visited.Contains(to);
  }

  /** Takes the next node off the queue; the queue is empty when every listed node has been taken. */
  method Next(q: Queue, visited: VisitedSet, list: seq<DepthInfo>, path: seq<int>, ghost d: seq<nat>, ghost h: nat)
    returns (found: bool, u: int)
    requires Holds(q, visited, list, path, d, h)
    modifies q
    ensures found ==> h < |path| && u == path[h] && Holds(q, visited, list, path, d, h + 1)
    ensures !found ==> h == |path|
    ensures q.Nodes() <= old(q.Nodes())
  {
    found, u := q.Dequeue();
    assert found ==> path[h..][1..] == path[h + 1..];
  }

  /** Follows every row of the node just dequeued. */
  method FollowRows(es: seq<Edge>, s: int, limit: int, u: int, depth: nat, q: Queue, visited: VisitedSet,
                    list0: seq<DepthInfo>, path0: seq<int>, ghost d0: seq<nat>, ghost at0: seq<Spot>, ghost h: nat)
    returns (list: seq<DepthInfo>, path: seq<int>, ghost d: seq<nat>, ghost at: seq<Spot>)
    requires Progress(es, s, limit, path0, d0, h) && h < |path0| && path0[h] == u && d0[h] == depth
    requires Expands(limit, depth) && Discovered(es, limit, path0, d0, at0, Spot(h, 0))
    requires Holds(q, visited, list0, path0, d0, h + 1)
    modifies q, q.Nodes(), visited, visited.nodes
    ensures Progress(es, s, limit, path, d, h + 1) && Holds(q, visited, list, path, d, h + 1)
    ensures Discovered(es, limit, path, d, at, Spot(h + 1, 0))
    ensures fresh(q.Nodes() - old(q.Nodes()))
    ensures visited.nodes == old(visited.nodes) || fresh(visited.nodes)
  {
    hide Layered, Expanded, Elems, Followed, Rows, Holds, Discovered;
    list, path, d, at := list0, path0, d0, at0;
    var rows := Rows(es, u);
    var k := 0;
    FollowedNone(es, path, d, h, rows);
    while k < |rows|
      invariant 0 <= k <= |rows|
      invariant Holds(q, visited, list, path, d, h + 1)
      invariant h < |path| && path[h] == u && Progress(es, s, limit, path, d, h)
      invariant d[h] == depth && Followed(es, path, d, h, rows, k) && Discovered(es, limit, path, d, at, Spot(h, k))
      invariant fresh(q.Nodes() - old(q.Nodes()))
      invariant visited.nodes == old(visited.nodes) || fresh(visited.nodes)
    {
      assert rows[k] in rows;
      var seen := IsVisited(rows[k].to, q, visited, list, path, d, h + 1);
      if !seen {
        FollowNew(es, s, limit, path, d, h, rows, k);
        DiscoverNew(es, limit, path, d, at, h, k);
        TailIsNode(q, visited, list, path, d, h + 1);
        list, path := Visit(rows[k].to, depth + 1, q, visited, list, path, d, h + 1);
        d, at := d + [depth + 1], at + [Spot(h, k)];
      } else {
        FollowOld(es, s, limit, path, d, h, rows, k);
        DiscoverOld(es, limit, path, d, at, h, k);
      }
      k := k + 1;
    }
    Advance(es, s, limit, path, d, h);
    DiscoverTurn(es, limit, path, d, at, h, k);
  }

  lemma StartLayer(es: seq<Edge>, s: int, limit: int)
    ensures Progress(es, s, limit, [s], [0], 0)
  {
    WalkNone(es, s);
  }

  lemma ProgressFits(es: seq<Edge>, s: int, limit: int, out: seq<int>, d: seq<nat>, h: nat)
    requires Progress(es, s, limit, out, d, h)
    ensures Distinct(out) && h <= |out| <= |Universe(es, s)|
    ensures h == |out| ==> BreadthFirst(es, s, limit, out, d)
  {
    RoomLeft(es, s, out);
    if h == |out| {
      ExhaustedIsBreadthFirst(es, s, limit, out, d);
    }
  }

  /** The loop body for a dequeued node: its depth is looked up and, below the limit, its rows are followed. */
  method Expand(es: seq<Edge>, s: int, limit: int, u: int, q: Queue, visited: VisitedSet, list0: seq<DepthInfo>,
                path0: seq<int>, ghost d0: seq<nat>, ghost at0: seq<Spot>, ghost h: nat)
    returns (list: seq<DepthInfo>, path: seq<int>, ghost d: seq<nat>, ghost at: seq<Spot>)
    requires Progress(es, s, limit, path0, d0, h) && h < |path0| && path0[h] == u
    requires Discovered(es, limit, path0, d0, at0, Spot(h, 0))
    requires Holds(q, visited, list0, path0, d0, h + 1)
    modifies q, q.Nodes(), visited, visited.nodes
    ensures Progress(es, s, limit, path, d, h + 1) && Holds(q, visited, list, path, d, h + 1)
    ensures Discovered(es, limit, path, d, at, Spot(h + 1, 0))
    ensures fresh(q.Nodes() - old(q.Nodes()))
    ensures visited.nodes == old(visited.nodes) || fresh(visited.nodes)
  {
    hide Layered, Expanded, Elems, Universe, Followed, Discovered;
    ProgressFits(es, s, limit, path0, d0, h);
    var depth := FindDepth(list0, u, path0, d0, h);
    if limit >= 0 && depth >= limit {
      Advance(es, s, limit, path0, d0, h);
      DiscoverTurn(es, limit, path0, d0, at0, h, 0);
      return list0, path0, d0, at0;
    }
    list, path, d, at := FollowRows(es, s, limit, u, depth, q, visited, list0, path0, d0, at0, h);
  }

  /**
   * `graphBFS`: the start first, every node within the limit once, nearest layers first and within a layer in the order
   * of the rows that first lead to the nodes.
   */
  method BFS(es: seq<Edge>, s: int, limit: int) returns (path: seq<int>)
    ensures path != [] && path[0] == s && Distinct(path)
    ensures forall v :: v in path <==> Within(es, s, v, limit)
    ensures ShortestFirst(es, s, path) && BreadthListed(es, s, limit, path)
  {
    hide Progress, Holds, Universe, Within, IsShortest, Distinct, ShortestFirst, Discovered;
    var q := new Queue();
    var visited := new VisitedSet();
    StartHolds(q, visited);
    var list;
    list, path := Visit(s, 0, q, visited, [], [], [], 0);
    ghost var d := [0];
    assert [] + d == d && path == [s];
    ghost var h := 0;
    StartLayer(es, s, limit);
    DiscoverStart(es, s, limit);
    ghost var at := [Spot(0, 0)];
    var found, u := Next(q, visited, list, path, d, h);
    while found
      invariant Progress(es, s, limit, path, d, h) && Discovered(es, limit, path, d, at, Spot(h, 0))
      invariant found ==> h < |path| && u == path[h] && Holds(q, visited, list, path, d, h + 1)
      invariant !found ==> h == |path|
      invariant fresh(q) && fresh(visited) && fresh(visited.nodes) && fresh(q.Nodes())
      decreases |Universe(es, s)| - h, found
    {
      ProgressFits(es, s, limit, path, d, h);
      list, path, d, at := Expand(es, s, limit, u, q, visited, list, path, d, at, h);
      h := h + 1;
      ProgressFits(es, s, limit, path, d, h);
      found, u := Next(q, visited, list, path, d, h);
    }
    ProgressFits(es, s, limit, path, d, h);
    BreadthFirstOrder(es, s, limit, path, d);
    assert InBreadthOrder(es, s, limit, path, d, at);
  }

  lemma StartHolds(q: Queue, visited: VisitedSet)
    requires q.Valid() && q.Items() == [] && visited.Valid() && visited.Items() == []
    ensures Holds(q, visited, [], [], [], 0)
  {
  }

  // ----- depth first

  /** The visited set and the path agree. */
  ghost predicate Listed(es: seq<Edge>, s: int, visited: VisitedSet, path: seq<int>)
    reads visited, visited.nodes
  {
    visited.Valid() && visited.Items() == path && Fits(es, s, path)
  }

  /** `graphDFSRecursive`. */
  method DFSRec(es: seq<Edge>, ghost s: int, u: int, limit: int, depth: nat, visited: VisitedSet, path0: seq<int>)
    returns (path: seq<int>)
    requires Listed(es, s, visited, path0) && u in Universe(es, s)
    modifies visited, visited.nodes
    ensures Listed(es, s, visited, path) && path == Explore(es, s, u, limit, depth, path0)
    ensures visited.nodes == old(visited.nodes) || fresh(visited.nodes)
    decreases |Universe(es, s)| - |path0|, 0
  {
    hide Universe, Fits, Targets, ExploreRows, Rows;
    path := path0;
    FitsNext(es, s, path0, u);
    if limit >= 0 && depth >= limit {
      return;
    }
    var seen := visited.Contains(u);
    if seen {
      return;
    }
    visited.Add(u);
    path := path0 + [u];
    FitsNext(es, s, path, u);
    path := DFSRows(es, s, u, limit, depth, visited, path);
  }

  /** Visits the targets of all rows of a node. */
  method DFSRows(es: seq<Edge>, ghost s: int, u: int, limit: int, depth: nat, visited: VisitedSet, path0: seq<int>)
    returns (path: seq<int>)
    requires Listed(es, s, visited, path0) && Targets(es, s, Rows(es, u))
    modifies visited, visited.nodes
    ensures Listed(es, s, visited, path) && path == ExploreRows(es, s, Rows(es, u), limit, depth + 1, path0)
    ensures visited.nodes == old(visited.nodes) || fresh(visited.nodes)
    decreases |Universe(es, s)| - |path0|, 1
  {
    hide Universe, Fits, Explore, Rows;
    path := path0;
    var rows := Rows(es, u);
    var k := 0;
    assert rows[0..] == rows;
    while k < |rows|
      invariant 0 <= k <= |rows| && path0 <= path && Listed(es, s, visited, path) && Targets(es, s, rows[k..])
      invariant ExploreRows(es, s, rows[k..], limit, depth + 1, path) ==
        ExploreRows(es, s, rows, limit, depth + 1, path0)
      invariant visited.nodes == old(visited.nodes) || fresh(visited.nodes)
    {
      assert rows[k..][0] == rows[k] && rows[k..][1..] == rows[k + 1..];
      assert rows[k] in rows[k..];
      FitsNext(es, s, path, rows[k].to);
      path := DFSRec(es, s, rows[k].to, limit, depth + 1, visited, path);
      k := k + 1;
    }
  }

  datatype Outcome = Path(ids: seq<int>) | NotFound

  /**
   * `graphDFS`: an unlimited search, or one whose limit is at least the number of reachable nodes, lists exactly these,
   * each once, the start first; a smaller limit lists only nodes fewer than `limit` edges away.
   */
  method DFS(nodes: seq<int>, es: seq<Edge>, s: int, limit: int) returns (r: Outcome)
    ensures r.NotFound? <==> s !in nodes
    ensures r.Path? ==> r.ids == DepthFirstList(es, s, limit) && DepthListed(es, s, limit, r.ids)
    ensures r.Path? ==> Distinct(r.ids) && (if limit == 0 then r.ids == [] else r.ids != [] && r.ids[0] == s)
    ensures r.Path? && Ample(es, s, limit) ==> forall v :: v in r.ids <==> Reach(es, s, v)
    ensures r.Path? ==> forall v :: v in r.ids ==> Near(es, s, v, limit)
  {
    hide Near, Reach, Universe, ExploreRows, Rows, Targets, Ample, DepthListed;
    if s !in nodes {
      return NotFound;
    }
    var visited := new VisitedSet();
    StartFits(es, s);
    FitsNext(es, s, [], s);
    var path := DFSRec(es, s, s, limit, 0, visited, []);
    ListedIsNear(es, s, limit);
    DepthFirstIff(es, s, limit, path);
    if Ample(es, s, limit) {
      AmpleIsReach(es, s, limit);
    }
    r := Path(path);
  }
}
