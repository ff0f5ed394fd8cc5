/** The KD-tree index: in-place operations on the root and the k-nearest search into result arrays. */
module KDIndex {
  import opened Vectors
  import opened Rows
  import opened KDTree
  import opened TopK
  import opened KDSearch
  import opened KDRuns
  import opened KDHeap
  import opened KDAxes
  import opened KDTrace

  datatype Status = Ok | Error

  /** The first farthest of the filled slots, as the scan loops compute it. */
  method FarthestSlot(ids: array<int>, ds: array<real>, k: nat) returns (i: nat)
    requires 0 < k <= ids.Length && k <= ds.Length
    ensures i < k && i == Farthest(Zip(ids[..k], ds[..k]), k)
  {
    i := 0;
    ghost var s := Zip(ids[..k], ds[..k]);
    var j := 1;
    while j < k
      invariant 1 <= j <= k && i < j && i == Farthest(s, j)
    {
      if ds[j] > ds[i] {
        i := j;
      }
      j := j + 1;
    }
  }

  /** `topk_insert`. */
  method TopkInsert(ids: array<int>, ds: array<real>, used: nat, k: nat, rowid: int, d: real) returns (used': nat)
    requires 0 < k <= ids.Length && k <= ds.Length && used <= k
    modifies ids, ds
    ensures used <= used' <= k
    ensures Zip(ids[..used'], ds[..used']) == Offer(old(Zip(ids[..used], ds[..used])), k, Hit(rowid, d))
  {
    if used < k {
      ids[used] := rowid;
      ds[used] := d;
      used' := used + 1;
    } else {
      var i := FarthestSlot(ids, ds, k);
      used' := used;
      if d < ds[i] {
        ids[i] := rowid;
        ds[i] := d;
      }
    }
  }

  /** `kdtree_search_topk_rec`. */
  method SearchRec(node: KDNode?, q: Point, k: nat, ids: array<int>, ds: array<real>, used: nat, m: RowidMap,
                   dist: Metric)
    returns (used': nat)
    requires ValidOpt(node) && PointsOk(TreeOf(node), |q|) && SortedIds(m.rowids)
    requires 0 < k <= ids.Length && k <= ds.Length && used <= k
    modifies ids, ds
    ensures used' <= k
    ensures Zip(ids[..used'], ds[..used']) == Search(TreeOf(node), q, m, dist, k, old(Zip(ids[..used], ds[..used])))
    decreases TreeOf(node)
  {
    hide Offer, Farthest, Sq;
    if node == null {
      return used;
    }
    ghost var t := node.tree;
    used' := used;
    if !node.deleted {
      var d := dist(q, node.point);
      var valid := Contains(m.rowids, node.rowid);
      if !m.preFilter || valid {
        used' := TopkInsert(ids, ds, used', k, node.rowid, d);
      }
    }
    assert Zip(ids[..used'], ds[..used']) == OfferNode(t, q, m, dist, k, old(Zip(ids[..used], ds[..used])));
    used' := SearchChildren(node, t, q, k, ids, ds, used', m, dist);
  }

  /** The pruning test: with full slots, the squared gap against the farthest kept distance. */
  method ShouldVisit(ids: array<int>, ds: array<real>, used: nat, k: nat, diff: real) returns (go: bool)
    requires 0 < k <= ids.Length && k <= ds.Length && used <= k
    ensures go == VisitFar(Zip(ids[..used], ds[..used]), k, diff)
  {
    go := true;
    if used == k {
      var i := FarthestSlot(ids, ds, k);
      go := diff * diff < ds[i];
    }
  }

  /** The near side, the pruning test, and the far side. */
  method SearchChildren(node: KDNode, ghost t: Tree, q: Point, k: nat, ids: array<int>, ds: array<real>, used: nat,
                        m: RowidMap, dist: Metric)
    returns (used': nat)
    requires node.Valid() && t == node.tree && t.Node? && PointsOk(t, |q|) && SortedIds(m.rowids)
    requires 0 < k <= ids.Length && k <= ds.Length && used <= k
    modifies ids, ds
    ensures used' <= k
    ensures Zip(ids[..used'], ds[..used']) == SearchBelow(t, q, m, dist, k, old(Zip(ids[..used], ds[..used])))
    decreases t, 0
  {
    hide Farthest, Search, VisitFar, Sq;
    var below := q[node.axis] < node.point[node.axis];
    var near := if below then node.left else node.right;
    var far := if below then node.right else node.left;
    used' := SearchRec(near, q, k, ids, ds, used, m, dist);
    var go := ShouldVisit(ids, ds, used', k, q[node.axis] - node.point[node.axis]);
    if go {
      used' := SearchRec(far, q, k, ids, ds, used', m, dist);
    }
  }

  /** The part of `Search` after the node itself has been offered. */
  ghost function SearchBelow(t: Tree, q: Point, m: RowidMap, dist: Metric, k: nat, s1: seq<Hit>): (r: seq<Hit>)
    requires t.Node? && 0 < k && |s1| <= k && PointsOk(t, |q|)
  {
    var below := q[t.axis] < t.row.point[t.axis];
    var s2 := Search(if below then t.left else t.right, q, m, dist, k, s1);
    if VisitFar(s2, k, q[t.axis] - t.row.point[t.axis])
    then Search(if below then t.right else t.left, q, m, dist, k, s2)
    else s2
  }

  class KDTreeIndex {
    var root: KDNode?
    const dimensions: nat
    var size: int

    ghost predicate Valid()
      reads this, root, ReprOf(root)
    {
      dimensions > 0 && ValidOpt(root) && Good(TreeOf(root), dimensions)
    }

    ghost function Contents(): Tree
      reads this, root
    {
      TreeOf(root)
    }

    constructor (dims: nat)
      requires dims > 0
      ensures Valid() && Contents() == Leaf && dimensions == dims && size == 0
    {
      root, dimensions, size := null, dims, 0;
    }

    /** `kdtree_insert`: one step of a run; the `size` field counts insertions and never shrinks. */
    method Insert(row: Row)
      requires Valid() && |row.point| == dimensions
      modifies this, ReprOf(root)
      ensures Valid() && fresh(ReprOf(root) - old(ReprOf(root)))
      ensures Step(old(Contents()), KDRuns.Insert(row), dimensions, Contents())
      ensures Live(Contents()) == old(Live(Contents())) + multiset{row}
      ensures AxesAfter(old(Contents()), Contents(), 0, dimensions)
      ensures PointsOk(old(Contents()), dimensions) &&
        (Contents() == Grown(old(Contents()), row, 0, dimensions) <==> Even(Grown(old(Contents()), row, 0, dimensions)))
      ensures size == old(size) + 1
    {
      hide Good, Inserted, Live, Grown, Even, AxesAfter;
      ghost var t := TreeOf(root);
      GoodPoints(t, dimensions);
      var newRoot := InsertRec(root, row, 0, dimensions);
      InsertCorrect(t, row, 0, dimensions, TreeOf(newRoot));
      InsertAxes(t, row, 0, dimensions, TreeOf(newRoot));
      InsertPlainIff(t, row, 0, dimensions, TreeOf(newRoot));
      size := size + 1;
      root := newRoot;
    }

    /** `kdtree_delete`: an error on an empty tree, otherwise one step of a run. */
    method Delete(rowid: int) returns (rc: Status)
      requires Valid()
      modifies this, ReprOf(root)
      ensures Valid() && fresh(ReprOf(root) - old(ReprOf(root))) && size == old(size)
      ensures rc == (if old(Contents()).Leaf? then Error else Ok)
      ensures Step(old(Contents()), KDRuns.Delete(rowid), dimensions, Contents())
      ensures Without(old(Live(Contents())), rowid, Live(Contents())) <==> !Shadowed(old(Contents()), rowid)
      ensures AxesAfter(old(Contents()), Contents(), 0, dimensions)
      ensures Contents() == Struck(old(Contents()), rowid) <==> Even(Struck(old(Contents()), rowid))
    {
      hide Good, Deleted, Live, Shadowed, Without, KDNode.Valid, Remaining, Stored, Struck, Even, AxesAfter;
      ghost var t := TreeOf(root);
      if root == null {
        DeleteStep(t, rowid, dimensions, t);
        return Error;
      }
      RootIsNode(root);
      var newRoot := DeleteRec(root, rowid, dimensions);
      DeleteStep(t, rowid, dimensions, TreeOf(newRoot));
      root := newRoot;
      rc := Ok;
    }

    /** `kdtree_topk`: when distances dominate squared gaps the slots hold a top k of a scan of the live rows. */
    method TopK(q: Point, k: int, ids: array<int>, ds: array<real>, m: RowidMap, dist: Metric) returns (used: nat)
      requires Valid() && |q| == dimensions && SortedIds(m.rowids) && k <= ids.Length && k <= ds.Length
      modifies ids, ds
      ensures used <= ids.Length && used <= ds.Length && PointsOk(Contents(), |q|)
      ensures Zip(ids[..used], ds[..used]) == Nearest(Contents(), q, m, dist, k)
      ensures if k > 0 then SearchEnds(Contents(), q, m, dist, k, Zip(ids[..used], ds[..used])) else used == 0
      ensures k >= 0 && Dominates(Contents(), q, m, dist) ==>
        IsTopK(multiset(Zip(ids[..used], ds[..used])), multiset(Scan(Collect(Contents()), q, m, dist)), k)
    {
      hide Search, IsTopK, Dominates, Scan, Collect, KDNode.Valid, SearchEnds;
      ghost var t := TreeOf(root);
      if k > 0 {
        NearestEnds(t, q, m, dist, k);
      }
      if k >= 0 && Dominates(t, q, m, dist) {
        NearestIsExact(t, q, m, dist, k);
      }
      if root == null || k <= 0 {
        return 0;
      }
      RootIsNode(root);
      used := SearchRec(root, q, k, ids, ds, 0, m, dist);
    }
  }

  lemma GoodPoints(t: Tree, dims: nat)
    requires Good(t, dims)
    ensures PointsOk(t, dims)
  {
  }

  lemma RootIsNode(n: KDNode)
    requires n.Valid()
    ensures n.tree.Node?
  {
  }

  lemma DeleteStep(t: Tree, id: int, dims: nat, t': Tree)
    requires dims > 0 && Good(t, dims) && (Deleted(t, id, dims, t') || (t.Leaf? && t'.Leaf?))
    ensures Good(t', dims) && Deleted(t, id, dims, t')
    ensures Without(Live(t), id, Live(t')) <==> !Shadowed(t, id)
    ensures AxesAfter(t, t', 0, dims) && (t' == Struck(t, id) <==> Even(Struck(t, id)))
  {
    hide Good, Live, Shadowed, Without, Struck, Even, AxesAfter;
    assert t.Leaf? ==> Deleted(t, id, dims, Leaf);
    DeleteCorrect(t, id, dims, t');
    DeleteExactIff(t, id, dims, t');
    DeleteAxes(t, id, 0, dims, t');
    DeletePlainIff(t, id, dims, t');
  }
}
