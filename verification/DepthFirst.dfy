/** Depth-first search as a function of the edge table, and exactly which limits make it complete. */
module DepthFirst {
  import opened Sequences
  import opened Graphs
  import opened Traversal

  /** Visited lists have no repeats and stay among the nodes a search from `s` can come to. */
  ghost predicate Fits(es: seq<Edge>, s: int, vis: seq<int>) {
    Distinct(vis) && Elems(vis) <= Universe(es, s)
  }

  ghost predicate Targets(es: seq<Edge>, s: int, rows: seq<Edge>) {
    forall e :: e in rows ==> e.to in Universe(es, s)
  }

  lemma FitsNext(es: seq<Edge>, s: int, vis: seq<int>, u: int)
    requires Fits(es, s, vis) && u in Universe(es, s)
    ensures |vis| <= |Universe(es, s)|
    ensures u !in vis ==> Fits(es, s, vis + [u]) && |vis| < |Universe(es, s)|
    ensures |vis| == |Universe(es, s)| ==> u in vis
    ensures Targets(es, s, Rows(es, u))
  {
    hide Rows;
    RoomLeft(es, s, vis);
    if u !in vis {
      RoomLeft(es, s, vis + [u]);
    }
  }

  /** The visited list after a call on `u` at the given depth. */
  ghost function Explore(es: seq<Edge>, s: int, u: int, limit: int, depth: nat, vis: seq<int>): (r: seq<int>)
    requires Fits(es, s, vis) && u in Universe(es, s)
    ensures Fits(es, s, r) && vis <= r
    decreases |Universe(es, s)| - |vis|, 0, 0
  {
    FitsNext(es, s, vis, u);
    if !Expands(limit, depth) || u in vis then vis
    else ExploreRows(es, s, Rows(es, u), limit, depth + 1, vis + [u])
  }

  /** The visited list after calls on the targets of all rows. */
  ghost function ExploreRows(es: seq<Edge>, s: int, rows: seq<Edge>, limit: int, depth: nat,
                             vis: seq<int>): (r: seq<int>)
    requires Fits(es, s, vis) && Targets(es, s, rows)
    ensures Fits(es, s, r) && vis <= r
    decreases |Universe(es, s)| - |vis|, 1, |rows|
  {
    RoomLeft(es, s, vis);
    if rows == [] then vis
    else
      var next := Explore(es, s, rows[0].to, limit, depth, vis);
      RoomLeft(es, s, next);
      ExploreRows(es, s, rows[1..], limit, depth, next)
  }

  lemma StartFits(es: seq<Edge>, s: int)
    ensures Fits(es, s, []) && s in Universe(es, s)
  {
  }

  /** The list a search from `s` produces. */
  ghost function DepthFirstList(es: seq<Edge>, s: int, limit: int): seq<int> {
    StartFits(es, s);
    Explore(es, s, s, limit, 0, [])
  }

  // ----- what is listed is near

  /** Every node of `now` that was not in `was` can be reached within the limit. */
  ghost predicate NearSince(es: seq<Edge>, s: int, limit: int, was: seq<int>, now: seq<int>) {
    forall v :: v in now && v !in was ==> Near(es, s, v, limit)
  }

  lemma NearTrans(es: seq<Edge>, s: int, limit: int, a: seq<int>, b: seq<int>, c: seq<int>)
    requires a <= b <= c && NearSince(es, s, limit, a, b) && NearSince(es, s, limit, b, c)
    ensures NearSince(es, s, limit, a, c)
  {
    hide Near;
  }

  lemma {:induction false} ExploreNear(es: seq<Edge>, s: int, u: int, limit: int, depth: nat, vis: seq<int>)
    requires Fits(es, s, vis) && u in Universe(es, s) && WalkOf(es, s, u, depth)
    ensures NearSince(es, s, limit, vis, Explore(es, s, u, limit, depth, vis))
    decreases |Universe(es, s)| - |vis|, 0, 0
  {
    hide WalkOf, Rows, Fits, Universe, Targets;
    FitsNext(es, s, vis, u);
    if Expands(limit, depth) && u !in vis {
      forall e | e in Rows(es, u)
        ensures WalkOf(es, s, e.to, depth + 1)
      {
        WalkThen(es, s, e, depth);
      }
      FitsNext(es, s, vis + [u], u);
      ExploreRowsNear(es, s, Rows(es, u), limit, depth + 1, vis + [u]);
      assert NearSince(es, s, limit, vis, vis + [u]);
      NearTrans(es, s, limit, vis, vis + [u], Explore(es, s, u, limit, depth, vis));
    }
  }

  lemma {:induction false} ExploreRowsNear(es: seq<Edge>, s: int, rows: seq<Edge>, limit: int, depth: nat,
                                           vis: seq<int>)
    requires Fits(es, s, vis) && Targets(es, s, rows) && forall e :: e in rows ==> WalkOf(es, s, e.to, depth)
    ensures NearSince(es, s, limit, vis, ExploreRows(es, s, rows, limit, depth, vis))
    decreases |Universe(es, s)| - |vis|, 1, |rows|
  {
    hide WalkOf, Explore, Fits, Universe;
    if rows != [] {
      assert rows[0] in rows;
      FitsNext(es, s, vis, rows[0].to);
      ExploreNear(es, s, rows[0].to, limit, depth, vis);
      var next := Explore(es, s, rows[0].to, limit, depth, vis);
      FitsNext(es, s, next, rows[0].to);
      ExploreRowsNear(es, s, rows[1..], limit, depth, next);
      NearTrans(es, s, limit, vis, next, ExploreRows(es, s, rows, limit, depth, vis));
    }
  }

  // ----- when everything near is listed

  /** A call above the limit lists its node. */
  lemma ExploreLists(es: seq<Edge>, s: int, u: int, limit: int, depth: nat, vis: seq<int>)
    requires Fits(es, s, vis) && u in Universe(es, s) && Expands(limit, depth)
    ensures u in Explore(es, s, u, limit, depth, vis)
  {
    hide Rows, Fits, Universe, Targets, ExploreRows;
    FitsNext(es, s, vis, u);
    if u !in vis {
      var r := ExploreRows(es, s, Rows(es, u), limit, depth + 1, vis + [u]);
      assert r[|vis|] == (vis + [u])[|vis|] == u;
    }
  }

  lemma {:induction false} ExploreRowsLists(es: seq<Edge>, s: int, rows: seq<Edge>, limit: int, depth: nat,
                                            vis: seq<int>, e: Edge)
    requires Fits(es, s, vis) && Targets(es, s, rows) && Expands(limit, depth) && e in rows
    ensures e.to in ExploreRows(es, s, rows, limit, depth, vis)
    decreases |rows|
  {
    hide Fits, Universe, Explore;
    assert rows[0] in rows;
    var next := Explore(es, s, rows[0].to, limit, depth, vis);
    ExploreLists(es, s, rows[0].to, limit, depth, vis);
    var r := ExploreRows(es, s, rows[1..], limit, depth, next);
    assert forall v :: v in next ==> v in r;
    if e != rows[0] {
      ExploreRowsLists(es, s, rows[1..], limit, depth, next, e);
    }
  }

  /** Every row leaving a node of `now` that was not in `was` leads to a node of `now`. */
  ghost predicate ClosedSince(es: seq<Edge>, was: seq<int>, now: seq<int>) {
    forall e :: e in es && e.from in now && e.from !in was ==> e.to in now
  }

  lemma ClosedTrans(es: seq<Edge>, a: seq<int>, b: seq<int>, c: seq<int>)
    requires a <= b <= c && ClosedSince(es, a, b) && ClosedSince(es, b, c)
    ensures ClosedSince(es, a, c)
  {
    assert forall v :: v in b ==> v in c;
  }

  /** A node whose rows all lead to listed nodes no longer needs to be excepted. */
  lemma CloseNode(es: seq<Edge>, was: seq<int>, u: int, now: seq<int>)
    requires ClosedSince(es, was + [u], now)
    requires forall e :: e in Rows(es, u) ==> e.to in now
    ensures ClosedSince(es, was, now)
  {
    hide Rows;
    forall e | e in es && e.from in now && e.from !in was
      ensures e.to in now
    {
      if e.from == u {
        assert e in Rows(es, u);
      } else {
        assert e.from !in was + [u];
      }
    }
  }

  /** The nodes a walk from `s` comes to. */
  ghost function Reached(es: seq<Edge>, s: int): set<int> {
    set v | v in Universe(es, s) && Reach(es, s, v)
  }

  lemma ReachedIs(es: seq<Edge>, s: int, v: int)
    ensures v in Reached(es, s) <==> Reach(es, s, v)
  {
    if Reach(es, s, v) {
      var w :| IsWalk(es, s, w, v);
      if w != [] {
        LastOfWalk(es, s, w, v);
      }
    }
  }

  /** No limit, or one that no chain of distinct reachable nodes can exceed. */
  ghost predicate Ample(es: seq<Edge>, s: int, limit: int) {
    limit < 0 || |Reached(es, s)| <= limit
  }

  /** The visited nodes are reachable ones; once they are as many as there are, they are all. */
  lemma ReachedFull(es: seq<Edge>, s: int, vis: seq<int>, u: int)
    requires Distinct(vis) && Elems(vis) <= Reached(es, s) && u in Reached(es, s) && |vis| >= |Reached(es, s)|
    ensures u in vis
  {
    hide Reached;
    ElemsSize(vis);
    if u !in vis {
      assert Elems(vis) + {u} <= Reached(es, s);
      Cardinality(Elems(vis) + {u}, Reached(es, s));
    }
  }

  lemma WalkIsReached(es: seq<Edge>, s: int, u: int, depth: nat)
    requires WalkOf(es, s, u, depth)
    ensures u in Reached(es, s)
  {
    var w :| |w| == depth && IsWalk(es, s, w, u);
    ReachedIs(es, s, u);
  }

  lemma NearIsReached(es: seq<Edge>, s: int, limit: int, was: seq<int>, now: seq<int>)
    requires Elems(was) <= Reached(es, s) && NearSince(es, s, limit, was, now)
    ensures Elems(now) <= Reached(es, s)
  {
    hide Near, Reached;
    forall v | v in now
      ensures v in Reached(es, s)
    {
      if v !in was {
        NearIsReach(es, s, v, limit);
        ReachedIs(es, s, v);
      } else {
        assert v in Elems(was);
      }
    }
  }

  /**
   * Under an ample limit a call leaves nothing open: a call cut off by it finds every reachable node already listed.
   */
  lemma {:induction false} ExploreCloses(es: seq<Edge>, s: int, u: int, limit: int, depth: nat, vis: seq<int>)
    requires Fits(es, s, vis) && u in Universe(es, s) && Ample(es, s, limit) && depth <= |vis|
    requires WalkOf(es, s, u, depth) && Elems(vis) <= Reached(es, s)
    ensures u in Explore(es, s, u, limit, depth, vis)
    ensures ClosedSince(es, vis, Explore(es, s, u, limit, depth, vis))
    decreases |Universe(es, s)| - |vis|, 0, 0
  {
    hide Rows, Universe, Targets, ExploreRows, WalkOf, Reached;
    FitsNext(es, s, vis, u);
    WalkIsReached(es, s, u, depth);
    if !Expands(limit, depth) {
      ReachedFull(es, s, vis, u);
    } else if u !in vis {
      ExploreLists(es, s, u, limit, depth, vis);
      forall e | e in Rows(es, u)
        ensures WalkOf(es, s, e.to, depth + 1)
      {
        WalkThen(es, s, e, depth);
      }
      assert Elems(vis + [u]) == Elems(vis) + {u};
      ExploreRowsClose(es, s, Rows(es, u), limit, depth + 1, vis + [u]);
      CloseNode(es, vis, u, ExploreRows(es, s, Rows(es, u), limit, depth + 1, vis + [u]));
    }
  }

  lemma {:induction false} ExploreRowsClose(es: seq<Edge>, s: int, rows: seq<Edge>, limit: int, depth: nat,
                                            vis: seq<int>)
    requires Fits(es, s, vis) && Targets(es, s, rows) && Ample(es, s, limit) && depth <= |vis|
    requires (forall e :: e in rows ==> WalkOf(es, s, e.to, depth)) && Elems(vis) <= Reached(es, s)
    ensures ClosedSince(es, vis, ExploreRows(es, s, rows, limit, depth, vis))
    ensures forall e :: e in rows ==> e.to in ExploreRows(es, s, rows, limit, depth, vis)
    decreases |Universe(es, s)| - |vis|, 1, |rows|
  {
    hide Explore, Fits, Universe, WalkOf, Reached;
    if rows != [] {
      assert rows[0] in rows;
      FitsNext(es, s, vis, rows[0].to);
      ExploreCloses(es, s, rows[0].to, limit, depth, vis);
      ExploreNear(es, s, rows[0].to, limit, depth, vis);
      var next := Explore(es, s, rows[0].to, limit, depth, vis);
      NearIsReached(es, s, limit, vis, next);
      FitsNext(es, s, next, rows[0].to);
      ExploreRowsClose(es, s, rows[1..], limit, depth, next);
      var r := ExploreRows(es, s, rows[1..], limit, depth, next);
      assert forall v :: v in next ==> v in r;
      ClosedTrans(es, vis, next, r);
      assert forall e :: e in rows ==> e == rows[0] || e in rows[1..];
    }
  }

  /** Under an ample limit the search lists exactly the reachable nodes. */
  lemma AmpleIsReach(es: seq<Edge>, s: int, limit: int)
    requires Ample(es, s, limit)
    ensures forall v :: v in DepthFirstList(es, s, limit) <==> Reach(es, s, v)
  {
    hide Fits, Universe, Explore, Reached;
    var r := DepthFirstList(es, s, limit);
    StartFits(es, s);
    WalkNone(es, s);
    ExploreNear(es, s, s, limit, 0, []);
    ExploreCloses(es, s, s, limit, 0, []);
    assert Closed(es, Elems(r));
    forall v
      ensures v in r <==> Reach(es, s, v)
    {
      if Reach(es, s, v) {
        ReachStaysInClosed(es, Elems(r), s, v);
      }
      if v in r {
        NearIsReach(es, s, v, limit);
      }
    }
  }

  lemma NearIsReach(es: seq<Edge>, s: int, v: int, limit: int)
    requires Near(es, s, v, limit)
    ensures Reach(es, s, v)
  {
    var n: nat :| WalkOf(es, s, v, n) && Expands(limit, n);
    var w :| |w| == n && IsWalk(es, s, w, v);
  }

  /** The search lists exactly the nodes within the limit. */
  ghost predicate Complete(es: seq<Edge>, s: int, limit: int) {
    forall v :: v in DepthFirstList(es, s, limit) <==> Near(es, s, v, limit)
  }

  lemma ListedIsNear(es: seq<Edge>, s: int, limit: int)
    ensures forall v :: v in DepthFirstList(es, s, limit) ==> Near(es, s, v, limit)
  {
    hide Fits, Universe, Explore, Near;
    StartFits(es, s);
    WalkNone(es, s);
    ExploreNear(es, s, s, limit, 0, []);
  }

  lemma AmpleIsComplete(es: seq<Edge>, s: int, limit: int)
    requires Ample(es, s, limit)
    ensures Complete(es, s, limit)
  {
    hide DepthFirstList, Near, Reach, Ample;
    AmpleIsReach(es, s, limit);
    ListedIsNear(es, s, limit);
    forall v | Near(es, s, v, limit)
      ensures Reach(es, s, v)
    {
      NearIsReach(es, s, v, limit);
    }
  }

  /** With a limit of at most 2 only the start and its direct successors are near, and all are listed. */
  lemma ShortIsComplete(es: seq<Edge>, s: int, limit: int)
    requires 0 <= limit <= 2
    ensures Complete(es, s, limit)
  {
    hide Rows, Universe, Fits, WalkOf, ExploreRows, Targets;
    ListedIsNear(es, s, limit);
    StartFits(es, s);
    FitsNext(es, s, [], s);
    var r := DepthFirstList(es, s, limit);
    forall v | Near(es, s, v, limit)
      ensures v in r
    {
      var n: nat :| WalkOf(es, s, v, n) && Expands(limit, n);
      ExploreLists(es, s, s, limit, 0, []);
      if n == 0 {
        WalkNone(es, s);
      } else {
        var e := WalkBefore(es, s, v, 1);
        WalkNone(es, s);
        assert e in Rows(es, s);
        ExploreRowsLists(es, s, Rows(es, s), limit, 1, [] + [s], e);
      }
    }
  }

  // ----- the failing family

  /** Rows from 0 to `k` in steps of one. */
  function Chain(k: nat): seq<Edge> {
    if k == 0 then [] else Chain(k - 1) + [Edge(k - 1, k, 1.0)]
  }

  /**
   * The chain with a shortcut behind it: node `l` is two edges from 0, but the chain reaches `l - 1` first, too deep.
   */
  function Shortcut(l: nat): seq<Edge> { Chain(l) + [Edge(0, l - 1, 1.0)] }

  function UpTo(k: nat): (r: seq<int>)
    ensures |r| == k && forall i :: 0 <= i < k ==> r[i] == i
  {
    seq(k, i => i)
  }

  lemma {:induction false} ChainRows(k: nat, u: int)
    ensures Rows(Chain(k), u) == if 0 <= u < k then [Edge(u, u + 1, 1.0)] else []
  {
    hide Rows;
    if k > 0 {
      ChainRows(k - 1, u);
      RowsConcat(Chain(k - 1), [Edge(k - 1, k, 1.0)], u);
      RowsOfOne(Edge(k - 1, k, 1.0), u);
    } else {
      assert Rows([], u) == [] by { NoRowsOfNone(u); }
    }
  }

  lemma NoRowsOfNone(u: int)
    ensures Rows([], u) == []
  {
  }

  lemma {:induction false} ChainHas(k: nat, e: Edge)
    ensures e in Chain(k) <==> 0 <= e.from < k && e == Edge(e.from, e.from + 1, 1.0)
  {
    if k > 0 {
      ChainHas(k - 1, e);
    }
  }

  lemma ShortcutRows(l: nat, u: int)
    requires l >= 3
    ensures 1 <= u < l ==> Rows(Shortcut(l), u) == [Edge(u, u + 1, 1.0)]
    ensures Rows(Shortcut(l), 0) == [Edge(0, 1, 1.0), Edge(0, l - 1, 1.0)]
  {
    hide Rows, Chain;
    ChainRows(l, u);
    ChainRows(l, 0);
    RowsConcat(Chain(l), [Edge(0, l - 1, 1.0)], u);
    RowsConcat(Chain(l), [Edge(0, l - 1, 1.0)], 0);
    RowsOfOne(Edge(0, l - 1, 1.0), u);
    RowsOfOne(Edge(0, l - 1, 1.0), 0);
  }

  lemma ShortcutUniverse(l: nat)
    requires l >= 3
    ensures Universe(Shortcut(l), 0) == Elems(UpTo(l + 1)) && |Universe(Shortcut(l), 0)| == l + 1
    ensures forall k: nat :: k <= l + 1 ==> Fits(Shortcut(l), 0, UpTo(k))
  {
    hide Rows, Chain;
    var es, all := Shortcut(l), UpTo(l + 1);
    forall v | v in Elems(all)
      ensures v in Universe(es, 0)
    {
      if v > 0 {
        ChainHas(l, Edge(v - 1, v, 1.0));
        assert Edge(v - 1, v, 1.0) in es;
      }
    }
    forall e | e in es
      ensures e.to in Elems(all)
    {
      ChainHas(l, e);
      assert 0 <= e.to <= l;
      assert all[e.to] == e.to;
    }
    assert all[0] == 0;
    ElemsSize(all);
    forall k: nat | k <= l + 1
      ensures Fits(es, 0, UpTo(k))
    {
      forall v | v in Elems(UpTo(k))
        ensures v in Elems(all)
      {
        assert all[v] == v;
      }
    }
  }

  lemma OneRow(es: seq<Edge>, s: int, e: Edge, limit: int, depth: nat, vis: seq<int>)
    requires Fits(es, s, vis) && Targets(es, s, [e]) && e.to in Universe(es, s)
    ensures ExploreRows(es, s, [e], limit, depth, vis) == Explore(es, s, e.to, limit, depth, vis)
  {
    hide Explore, Fits, Universe, Targets;
    assert [e][1..] == [];
    assert Targets(es, s, []) by { NoTargets(es, s); }
    NoRows(es, s, limit, depth, Explore(es, s, e.to, limit, depth, vis));
  }

  lemma NoTargets(es: seq<Edge>, s: int)
    ensures Targets(es, s, [])
  {
  }

  lemma NoRows(es: seq<Edge>, s: int, limit: int, depth: nat, vis: seq<int>)
    requires Fits(es, s, vis) && Targets(es, s, [])
    ensures ExploreRows(es, s, [], limit, depth, vis) == vis
  {
  }

  /** Down the chain every node is listed until the limit cuts the last one off. */
  lemma {:induction false} DownTheChain(l: nat, i: nat)
    requires l >= 3 && 1 <= i <= l
    ensures Fits(Shortcut(l), 0, UpTo(i)) && i in Universe(Shortcut(l), 0)
    ensures Explore(Shortcut(l), 0, i, l, i, UpTo(i)) == UpTo(l)
    decreases l - i
  {
    hide Rows, Shortcut, ExploreRows, Fits, Universe, Targets;
    var es := Shortcut(l);
    ShortcutUniverse(l);
    assert UpTo(l + 1)[i] == i;
    FitsNext(es, 0, UpTo(i), i);
    if i < l {
      ShortcutRows(l, i);
      assert UpTo(i) + [i] == UpTo(i + 1);
      DownTheChain(l, i + 1);
      OneRow(es, 0, Edge(i, i + 1, 1.0), l, i + 1, UpTo(i + 1));
    }
  }

  /** The search with limit `l` misses node `l`, which is two edges away. */
  lemma ShortcutMisses(l: nat)
    requires l >= 3
    ensures DepthFirstList(Shortcut(l), 0, l) == UpTo(l)
    ensures l !in DepthFirstList(Shortcut(l), 0, l) && Near(Shortcut(l), 0, l, l)
  {
    hide Rows, Shortcut, ExploreRows, Fits, Universe, Targets;
    var es := Shortcut(l);
    StartFits(es, 0);
    FitsNext(es, 0, [], 0);
    ShortcutUniverse(l);
    ShortcutRows(l, 0);
    DownTheChain(l, 1);
    assert [] + [0] == UpTo(1);
    assert UpTo(l)[l - 1] == l - 1 && UpTo(l + 1)[l - 1] == l - 1;
    TwoRows(es, 0, Edge(0, 1, 1.0), Edge(0, l - 1, 1.0), l, 1, UpTo(1));
    assert l !in UpTo(l);
    TwoEdgesAway(l);
  }

  /** A second row to a node already listed changes nothing. */
  lemma TwoRows(es: seq<Edge>, s: int, e: Edge, f: Edge, limit: int, depth: nat, vis: seq<int>)
    requires Fits(es, s, vis) && Targets(es, s, [e, f]) && e.to in Universe(es, s) && f.to in Universe(es, s)
    requires f.to in Explore(es, s, e.to, limit, depth, vis)
    ensures ExploreRows(es, s, [e, f], limit, depth, vis) == Explore(es, s, e.to, limit, depth, vis)
  {
    hide Fits, Universe;
    assert [e, f][1..] == [f];
    var next := Explore(es, s, e.to, limit, depth, vis);
    OneRow(es, s, f, limit, depth, next);
    assert Explore(es, s, f.to, limit, depth, next) == next;
  }

  lemma TwoEdgesAway(l: nat)
    requires l >= 3
    ensures Near(Shortcut(l), 0, l, l)
  {
    hide Rows, Chain, WalkOf;
    ChainHas(l, Edge(l - 1, l, 1.0));
    var es := Shortcut(l);
    WalkNone(es, 0);
    assert Edge(0, l - 1, 1.0) == es[|es| - 1];
    WalkThen(es, 0, Edge(0, l - 1, 1.0), 0);
    WalkThen(es, 0, Edge(l - 1, l, 1.0), 1);
    assert WalkOf(es, 0, l, 2) && Expands(l, 2);
  }

  /**
   * Over all tables and starts that reach at most `n` nodes, a limited search is always complete if and only if the
   * limit is negative, at most 2, or at least `n`.
   */
  lemma CompleteIff(limit: int, n: nat)
    ensures (forall es, s :: |Reached(es, s)| <= n ==> Complete(es, s, limit)) <==> limit <= 2 || n <= limit
  {
    hide Reached, Complete, Universe;
    if limit <= 2 || n <= limit {
      forall es, s | |Reached(es, s)| <= n
        ensures Complete(es, s, limit)
      {
        if 0 <= limit <= 2 {
          ShortIsComplete(es, s, limit);
        } else {
          AmpleIsComplete(es, s, limit);
        }
      }
    } else {
      ShortcutUniverse(limit);
      ReachedFits(Shortcut(limit), 0);
      ShortcutFails(limit);
    }
  }

  lemma ReachedFits(es: seq<Edge>, s: int)
    ensures |Reached(es, s)| <= |Universe(es, s)|
  {
    Cardinality(Reached(es, s), Universe(es, s));
  }

  lemma ShortcutFails(l: nat)
    requires l >= 3
    ensures !Complete(Shortcut(l), 0, l)
  {
    hide DepthFirstList, Near, Shortcut;
    ShortcutMisses(l);
  }
}
