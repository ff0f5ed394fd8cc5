/** The pointer-based KD-tree: nodes are updated in place, subtrees are rebuilt from a sorted array. */
module KDHeap {
  import opened Vectors
  import opened Rows
  import opened KDTree

  class KDNode {
    var point: Point
    var rowid: int
    var left: KDNode?
    var right: KDNode?
    var axis: nat
    var size: int
    var deleted: bool
    var invalidCount: int

    ghost var tree: Tree
    ghost var Repr: set<KDNode>

    ghost predicate Valid()
      reads this, Repr
      decreases Repr
    {
      && this in Repr
      && (left != null ==> left in Repr && left.Repr <= Repr && this !in left.Repr && left.Valid())
      && (right != null ==> right in Repr && right.Repr <= Repr && this !in right.Repr && right.Valid())
      && (left != null && right != null ==> left.Repr !! right.Repr)
      && tree == Node(Row(rowid, point), axis, deleted, size, invalidCount, TreeOf(left), TreeOf(right))
    }

    constructor (row: Row, ax: nat)
      ensures point == row.point && rowid == row.rowid && axis == ax && !deleted
      ensures left == null && right == null && size == 1 && invalidCount == 0
      ensures Valid() && Repr == {this} && tree == Node(row, ax, false, 1, 0, Leaf, Leaf)
    {
      point, rowid, axis := row.point, row.rowid, ax;
      left, right := null, null;
      deleted, size, invalidCount := false, 1, 0;
      Repr := {this};
      tree := Node(row, ax, false, 1, 0, Leaf, Leaf);
    }

    /** Recomputes the cached counts from the children. */
    method PullUp()
      requires Shaped()
      modifies this
      ensures Valid() && Repr == {this} + ReprOf(left) + ReprOf(right)
      ensures tree == Pull(Row(rowid, point), axis, deleted, TreeOf(left), TreeOf(right))
      ensures left == old(left) && right == old(right) && rowid == old(rowid) && point == old(point)
      ensures axis == old(axis) && deleted == old(deleted)
      ensures TreeOf(left) == old(TreeOf(left)) && TreeOf(right) == old(TreeOf(right))
      ensures ReprOf(left) == old(ReprOf(left)) && ReprOf(right) == old(ReprOf(right))
    {
      size := 1 + NodeSize(left) + NodeSize(right);
      invalidCount := (if deleted then 1 else 0) + NodeInvalid(left) + NodeInvalid(right);
      Repr := {this} + ReprOf(left) + ReprOf(right);
      tree := Pull(Row(rowid, point), axis, deleted, TreeOf(left), TreeOf(right));
    }

    /** The children are valid, disjoint and do not contain this node; its own record may be stale. */
    ghost predicate Shaped()
      reads this, left, right, ReprOf(left), ReprOf(right)
    {
      && ValidOpt(left) && ValidOpt(right)
      && this !in ReprOf(left) && this !in ReprOf(right) && ReprOf(left) !! ReprOf(right)
    }

    predicate IsUnbalanced()
      requires Valid()
      reads this, Repr
      ensures IsUnbalanced() == Unbalanced(tree)
    {
      var l, r := NodeSize(left), NodeSize(right);
      if size <= 2 then false else 4 * l > 3 * size || 4 * r > 3 * size
    }

    predicate HasTooManyDeleted()
      requires Valid()
      reads this, Repr
      ensures HasTooManyDeleted() == TooManyDeleted(tree)
    {
      10 * invalidCount > 3 * size
    }
  }

  ghost function TreeOf(n: KDNode?): Tree
    reads n
  {
    if n == null then Leaf else n.tree
  }

  ghost function ReprOf(n: KDNode?): set<KDNode>
    reads n
  {
    if n == null then {} else n.Repr
  }

  ghost predicate ValidOpt(n: KDNode?)
    reads n, ReprOf(n)
  {
    n == null || n.Valid()
  }

  function NodeSize(n: KDNode?): int
    reads n, ReprOf(n)
    requires ValidOpt(n)
    ensures NodeSize(n) == Size(TreeOf(n))
  {
    if n == null then 0 else n.size
  }

  function NodeInvalid(n: KDNode?): int
    reads n, ReprOf(n)
    requires ValidOpt(n)
    ensures NodeInvalid(n) == Invalid(TreeOf(n))
  {
    if n == null then 0 else n.invalidCount
  }

  // ----- rebuilding

  ghost predicate OnAxis(s: seq<Row>, axis: nat) {
    forall i :: 0 <= i < |s| ==> axis < |s[i].point|
  }

  function InsertSorted(s: seq<Row>, x: Row, axis: nat): (r: seq<Row>)
    requires axis < |x.point| && OnAxis(s, axis)
    ensures |r| == |s| + 1 && multiset(r) == multiset(s) + multiset{x}
  {
    if s == [] then [x]
    else if x.point[axis] < s[0].point[axis] then [x] + s
    else
      assert s == [s[0]] + s[1..];
      [s[0]] + InsertSorted(s[1..], x, axis)
  }

  lemma {:induction false} InsertSortedOrder(s: seq<Row>, x: Row, axis: nat)
    requires axis < |x.point| && OnAxis(s, axis) && SortedOn(s, axis)
    ensures OnAxis(InsertSorted(s, x, axis), axis) && SortedOn(InsertSorted(s, x, axis), axis)
  {
    if s == [] {
    } else if x.point[axis] < s[0].point[axis] {
      ConsSorted(x, s, axis);
    } else {
      InsertSortedOrder(s[1..], x, axis);
      var rest := InsertSorted(s[1..], x, axis);
      hide InsertSorted;
      forall i | 0 <= i < |rest|
        ensures axis < |rest[i].point| && s[0].point[axis] <= rest[i].point[axis]
      {
        assert rest[i] in multiset(s[1..]) + multiset{x};
        assert rest[i] in s[1..] || rest[i] == x;
      }
      ConsSorted(s[0], rest, axis);
    }
  }

  lemma ConsSorted(x: Row, s: seq<Row>, axis: nat)
    requires axis < |x.point| && SortedOn(s, axis) && OnAxis(s, axis)
    requires s == [] || x.point[axis] <= s[0].point[axis]
      || forall i :: 0 <= i < |s| ==> x.point[axis] <= s[i].point[axis]
    ensures OnAxis([x] + s, axis) && SortedOn([x] + s, axis)
  {
    if s != [] && x.point[axis] <= s[0].point[axis] {
      assert forall i :: 0 < i < |s| ==> s[0].point[axis] <= s[i].point[axis];
    }
  }

  function Sorted(s: seq<Row>, axis: nat): (r: seq<Row>)
    requires OnAxis(s, axis)
    ensures Arranged(s, r, axis) && OnAxis(r, axis)
  {
    if s == [] then []
    else
      var rest := Sorted(s[..|s| - 1], axis);
      assert s == s[..|s| - 1] + [s[|s| - 1]];
      InsertSortedOrder(rest, s[|s| - 1], axis);
      InsertSorted(rest, s[|s| - 1], axis)
  }

  /** `qsort` on a range; only `Arranged` is promised. */
  method SortRange(arr: array<Row>, l: nat, r: nat, axis: nat)
    requires l <= r <= arr.Length && OnAxis(arr[l..r], axis)
    modifies arr
    ensures Arranged(old(arr[l..r]), arr[l..r], axis)
    ensures arr[..l] == old(arr[..l]) && arr[r..] == old(arr[r..])
  {
    hide Sorted, Arranged, OnAxis;
    ghost var a := arr[..];
    var p := Sorted(arr[l..r], axis);
    ArrangedLength(arr[l..r], p, axis);
    forall i | l <= i < r {
      arr[i] := p[i - l];
    }
    assert arr[l..r] == p;
    SameOutside(a, arr[..], l, r);
  }

  lemma ArrangedLength(s: seq<Row>, p: seq<Row>, axis: nat)
    requires Arranged(s, p, axis)
    ensures |p| == |s|
  {
    assert |multiset(s)| == |s| && |multiset(p)| == |p|;
  }

  lemma SameOutside(a: seq<Row>, b: seq<Row>, l: nat, r: nat)
    requires |a| == |b| && l <= r <= |a| && forall i :: 0 <= i < |a| && !(l <= i < r) ==> a[i] == b[i]
    ensures a[..l] == b[..l] && a[r..] == b[r..]
  {
  }

  lemma BuiltIntro(s: seq<Row>, p: seq<Row>, depth: nat, dims: nat, left: Tree, right: Tree)
    requires dims > 0 && s != [] && Arranged(s, p, AxisOf(depth, dims))
    requires Built(p[..|p| / 2], depth + 1, dims, left) && Built(p[|p| / 2 + 1..], depth + 1, dims, right)
    ensures Built(s, depth, dims, Pull(p[|p| / 2], AxisOf(depth, dims), false, left, right))
  {
    assert BuiltFrom(p, depth, dims, Pull(p[|p| / 2], AxisOf(depth, dims), false, left, right));
  }

  lemma Halves(a: seq<Row>, l: nat, mid: nat, r: nat)
    requires l <= mid < r <= |a|
    ensures a[l..mid] == a[l..r][..mid - l] && a[mid] == a[l..r][mid - l] && a[mid + 1..r] == a[l..r][mid - l + 1..]
  {
  }

  lemma TailKept(a: seq<Row>, b: seq<Row>, mid: nat, r: nat)
    requires |a| == |b| && mid < r <= |a| && a[mid..] == b[mid..]
    ensures a[mid + 1..r] == b[mid + 1..r] && a[r..] == b[r..]
  {
    assert a[mid + 1..r] == a[mid..][1..r - mid] && a[r..] == a[mid..][r - mid..];
    assert b[mid + 1..r] == b[mid..][1..r - mid] && b[r..] == b[mid..][r - mid..];
  }

  method BuildBalanced(arr: array<Row>, l: nat, r: nat, depth: nat, dims: nat) returns (n: KDNode?)
    requires dims > 0 && l <= r <= arr.Length && RowsOk(arr[l..r], dims)
    modifies arr
    ensures ValidOpt(n) && fresh(ReprOf(n)) && Built(old(arr[l..r]), depth, dims, TreeOf(n))
    ensures arr[..l] == old(arr[..l]) && arr[r..] == old(arr[r..])
    decreases r - l, 1
  {
    hide AxisOf, Arranged, Built, SortedOn, Pull, RowsOk, OnAxis, KDNode.Valid;
    ghost var s := arr[l..r];
    RangeFacts(s, depth, dims);
    if l >= r {
      return null;
    }
    var axis := AxisOf(depth, dims);
    SortRange(arr, l, r, axis);
    ghost var p := arr[l..r];
    ArrangedFacts(s, p, axis, dims);
    var mid := l + (r - l) / 2;
    var row := arr[mid];
    var left, right := BuildHalves(arr, l, mid, r, depth + 1, dims, p);
    n := Join(row, axis, left, right);
    BuiltIntro(s, p, depth, dims, TreeOf(left), TreeOf(right));
  }

  lemma RangeFacts(s: seq<Row>, depth: nat, dims: nat)
    requires dims > 0 && RowsOk(s, dims)
    ensures OnAxis(s, AxisOf(depth, dims)) && (s == [] ==> Built(s, depth, dims, Leaf))
  {
  }

  lemma ArrangedFacts(s: seq<Row>, p: seq<Row>, axis: nat, dims: nat)
    requires RowsOk(s, dims) && Arranged(s, p, axis)
    ensures RowsOk(p, dims) && |p| == |s|
  {
    RowsOkPermuted(s, p, dims);
  }

  /** The subtrees on the two sides of position `mid`. */
  method BuildHalves(arr: array<Row>, l: nat, mid: nat, r: nat, depth: nat, dims: nat, ghost p: seq<Row>)
    returns (left: KDNode?, right: KDNode?)
    requires dims > 0 && l <= mid < r <= arr.Length && p == arr[l..r] && RowsOk(p, dims)
    modifies arr
    ensures ValidOpt(left) && ValidOpt(right) && fresh(ReprOf(left)) && fresh(ReprOf(right))
    ensures ReprOf(left) !! ReprOf(right)
    ensures Built(p[..mid - l], depth, dims, TreeOf(left)) && Built(p[mid - l + 1..], depth, dims, TreeOf(right))
    ensures arr[..l] == old(arr[..l]) && arr[r..] == old(arr[r..])
    decreases r - l, 0
  {
    hide Built;
    ghost var a := arr[..];
    Halves(a, l, mid, r);
    left := BuildBalanced(arr, l, mid, depth, dims);
    TailKept(arr[..], a, mid, r);
    ghost var b := arr[..];
    right := BuildBalanced(arr, mid + 1, r, depth, dims);
    HeadKept(arr[..], b, l, mid);
  }

  lemma HeadKept(a: seq<Row>, b: seq<Row>, l: nat, mid: nat)
    requires |a| == |b| && l <= mid < |a| && a[..mid + 1] == b[..mid + 1]
    ensures a[..l] == b[..l]
  {
    assert a[..l] == a[..mid + 1][..l];
  }

  /** A live node over two disjoint subtrees. */
  method Join(row: Row, axis: nat, left: KDNode?, right: KDNode?) returns (n: KDNode)
    requires ValidOpt(left) && ValidOpt(right) && ReprOf(left) !! ReprOf(right)
    ensures n.Valid() && fresh(n) && n.Repr == {n} + ReprOf(left) + ReprOf(right)
    ensures n.tree == Pull(row, axis, false, TreeOf(left), TreeOf(right))
  {
    n := new KDNode(row, axis);
    n.left, n.right := left, right;
    n.PullUp();
  }

  lemma SlicesJoin(a: seq<Row>, before: seq<Row>, start: nat, mid: nat, end: nat)
    requires start <= mid <= end <= |a| && a[..mid] == before
    ensures a[start..end] == before[start..] + a[mid..end] && a[..start] == before[..start]
  {
  }

  /** Writes the live rows of a subtree in order from position `start`. */
  method CollectValidNodes(n: KDNode?, arr: array<Row>, start: nat) returns (end: nat)
    requires ValidOpt(n) && start + |Collect(TreeOf(n))| <= arr.Length
    modifies arr
    ensures end == start + |Collect(old(TreeOf(n)))|
    ensures arr[..start] == old(arr[..start]) && arr[start..end] == Collect(old(TreeOf(n)))
    decreases TreeOf(n)
  {
    if n == null {
      return start;
    }
    ghost var t := n.tree;
    end := CollectValidNodes(n.left, arr, start);
    if !n.deleted {
      arr[end] := Row(n.rowid, n.point);
      end := end + 1;
    }
    ghost var mid := end;
    ghost var before := arr[..mid];
    assert before[start..] == Collect(t.left) + (if t.deleted then [] else [t.row]);
    end := CollectValidNodes(n.right, arr, end);
    SlicesJoin(arr[..], before, start, mid, end);
  }

  method RebuildSubtree(root: KDNode, dims: nat) returns (n: KDNode?)
    requires dims > 0 && root.Valid() && Exact(root.tree) && PointsOk(root.tree, dims)
    ensures ValidOpt(n) && fresh(ReprOf(n)) && Rebuilt(root.tree, dims, TreeOf(n))
  {
    hide Exact, PointsOk, Built, KDNode.Valid, RowsOk;
    CollectFits(root.tree);
    CollectOk(root.tree, dims);
    RootSize(root);
    var arr := new Row[root.size](_ => Row(0, []));
    var idx := CollectValidNodes(root, arr, 0);
    assert arr[0..idx] == Collect(root.tree);
    n := BuildBalanced(arr, 0, idx, 0, dims);
  }

  lemma RootSize(n: KDNode)
    requires n.Valid()
    ensures n.tree.Node? && n.size == n.tree.size
  {
  }

  lemma CollectFits(t: Tree)
    requires Exact(t)
    ensures |Collect(t)| <= Size(t)
  {
    ExactCounts(t);
    CollectIsLive(t);
    LiveIsStored(t);
    assert |Live(t)| <= |Stored(t)|;
    assert |multiset(Collect(t))| == |Collect(t)|;
  }

  /** Rebuilds a pulled-up node if it calls for it. */
  method Settle(n: KDNode, dims: nat) returns (r: KDNode?)
    requires dims > 0 && n.Valid() && Exact(n.tree) && PointsOk(n.tree, dims)
    ensures ValidOpt(r) && fresh(ReprOf(r) - n.Repr) && Settled(n.tree, dims, TreeOf(r))
  {
    hide Exact, PointsOk, Rebuilt, KDNode.Valid;
    if n.IsUnbalanced() || n.HasTooManyDeleted() {
      r := RebuildSubtree(n, dims);
    } else {
      r := n;
    }
  }

  /** What a good node offers to the recursion. */
  lemma GoodNode(t: Tree, dims: nat)
    requires Good(t, dims) && t.Node?
    ensures Good(t.left, dims) && Good(t.right, dims) && t.axis < dims && |t.row.point| == dims
  {
  }

  lemma InsertIntro(t: Tree, row: Row, depth: nat, dims: nat, c: Tree)
    requires dims > 0 && Good(t, dims) && |row.point| == dims
    ensures t.Leaf? ==> Inserted(t, row, depth, dims, Node(row, AxisOf(depth, dims), false, 1, 0, Leaf, Leaf))
    ensures t.Node? && row.point[t.axis] < t.row.point[t.axis] && Inserted(t.left, row, depth + 1, dims, c) ==>
      var n := Pull(t.row, t.axis, t.deleted, c, t.right);
      Exact(n) && PointsOk(n, dims) && forall t' :: Settled(n, dims, t') ==> Inserted(t, row, depth, dims, t')
    ensures t.Node? && !(row.point[t.axis] < t.row.point[t.axis]) && Inserted(t.right, row, depth + 1, dims, c) ==>
      var n := Pull(t.row, t.axis, t.deleted, t.left, c);
      Exact(n) && PointsOk(n, dims) && forall t' :: Settled(n, dims, t') ==> Inserted(t, row, depth, dims, t')
  {
    if t.Node? {
      if row.point[t.axis] < t.row.point[t.axis] {
        if Inserted(t.left, row, depth + 1, dims, c) {
          InsertCorrect(t.left, row, depth + 1, dims, c);
        }
      } else if Inserted(t.right, row, depth + 1, dims, c) {
        InsertCorrect(t.right, row, depth + 1, dims, c);
      }
    }
  }

  /** `kdtree_insert_rec`. */
  method InsertRec(node: KDNode?, row: Row, depth: nat, dims: nat) returns (r: KDNode?)
    requires dims > 0 && ValidOpt(node) && Good(TreeOf(node), dims) && |row.point| == dims
    modifies ReprOf(node)
    ensures ValidOpt(r) && fresh(ReprOf(r) - old(ReprOf(node)))
    ensures Inserted(old(TreeOf(node)), row, depth, dims, TreeOf(r))
    decreases TreeOf(node)
  {
    hide Good, Inserted, Settled, PointsOk, Exact, AxisOf;
    if node == null {
      InsertIntro(Leaf, row, depth, dims, Leaf);
      r := new KDNode(row, AxisOf(depth, dims));
      return;
    }
    r := InsertNode(node, node.tree, row, depth, dims);
  }

  /** The descent into the side the axis points to, the recount and the rebuild. */
  method InsertNode(node: KDNode, ghost t: Tree, row: Row, depth: nat, dims: nat) returns (r: KDNode?)
    requires dims > 0 && node.Valid() && t == node.tree && t.Node? && Good(t, dims) && |row.point| == dims
    modifies node.Repr
    ensures ValidOpt(r) && fresh(ReprOf(r) - old(node.Repr))
    ensures Inserted(t, row, depth, dims, TreeOf(r))
    decreases t, 1
  {
    hide Good, Inserted, Settled, PointsOk, Exact, AxisOf, KDNode.Valid;
    ghost var c := InsertChild(node, t, row, depth, dims);
    InsertIntro(t, row, depth, dims, c);
    node.PullUp();
    r := Settle(node, dims);
  }

  method InsertChild(node: KDNode, ghost t: Tree, row: Row, depth: nat, dims: nat) returns (ghost c: Tree)
    requires dims > 0 && node.Valid() && t == node.tree && t.Node? && Good(t, dims) && |row.point| == dims
    modifies node.Repr
    ensures t.axis < dims && |t.row.point| == dims && node.Shaped()
    ensures Row(node.rowid, node.point) == t.row && node.axis == t.axis && node.deleted == t.deleted
    ensures if row.point[t.axis] < t.row.point[t.axis]
      then Inserted(t.left, row, depth + 1, dims, c) && TreeOf(node.left) == c && TreeOf(node.right) == t.right
      else Inserted(t.right, row, depth + 1, dims, c) && TreeOf(node.left) == t.left && TreeOf(node.right) == c
    ensures fresh(ReprOf(node.left) - old(node.Repr)) && fresh(ReprOf(node.right) - old(node.Repr))
    ensures node in old(node.Repr)
    decreases t, 0
  {
    hide Good, Inserted, PointsOk, Exact;
    GoodNode(t, dims);
    if row.point[node.axis] < node.point[node.axis] {
      var left := InsertRec(node.left, row, depth + 1, dims);
      assert ValidOpt(node.right) && TreeOf(node.right) == t.right;
      node.left := left;
      c := TreeOf(left);
    } else {
      var right := InsertRec(node.right, row, depth + 1, dims);
      assert ValidOpt(node.left) && TreeOf(node.left) == t.left;
      node.right := right;
      c := TreeOf(right);
    }
  }

  lemma DeleteHere(t: Tree, id: int, dims: nat)
    requires dims > 0 && Good(t, dims)
    ensures t.Leaf? ==> Deleted(t, id, dims, Leaf)
    ensures t.Node? && t.row.rowid == id ==>
      var n := Pull(t.row, t.axis, true, t.left, t.right);
      Exact(n) && PointsOk(n, dims) &&
      forall t' :: (if TooManyDeleted(n) then Rebuilt(n, dims, t') else t' == n) ==> Deleted(t, id, dims, t')
  {
    hide Balanced, Ordered, Rebuilt;
  }

  lemma DeleteBelow(t: Tree, id: int, dims: nat, a: Tree, b: Tree, t': Tree)
    requires dims > 0 && t.Node? && t.row.rowid != id && Deleted(t.left, id, dims, a) && Deleted(t.right, id, dims, b)
    requires Settled(Pull(t.row, t.axis, t.deleted, a, b), dims, t')
    ensures Deleted(t, id, dims, t')
  {
    hide Settled;
  }

  lemma DeletedPartsOk(t: Tree, id: int, dims: nat, a: Tree, b: Tree)
    requires dims > 0 && Good(t, dims) && t.Node? && Deleted(t.left, id, dims, a) && Deleted(t.right, id, dims, b)
    ensures var n := Pull(t.row, t.axis, t.deleted, a, b); Exact(n) && PointsOk(n, dims)
  {
    hide Deleted;
    GoodNode(t, dims);
    DeleteCorrect(t.left, id, dims, a);
    DeleteCorrect(t.right, id, dims, b);
  }

  /** `kdtree_delete_rec`: marks the first node of each branch that holds the id. */
  method DeleteRec(node: KDNode?, id: int, dims: nat) returns (r: KDNode?)
    requires dims > 0 && ValidOpt(node) && Good(TreeOf(node), dims)
    modifies ReprOf(node)
    ensures ValidOpt(r) && fresh(ReprOf(r) - old(ReprOf(node)))
    ensures Deleted(old(TreeOf(node)), id, dims, TreeOf(r))
    decreases TreeOf(node)
  {
    hide Good, Deleted, Settled, PointsOk, Exact, Rebuilt;
    if node == null {
      DeleteHere(Leaf, id, dims);
      return null;
    }
    ghost var t := node.tree;
    GoodNode(t, dims);
    if node.rowid == id {
      DeleteHere(t, id, dims);
      if !node.deleted {
        node.deleted := true;
      }
      node.PullUp();
      if node.HasTooManyDeleted() {
        r := RebuildSubtree(node, dims);
      } else {
        r := node;
      }
      return;
    }
    r := DeleteBoth(node, t, id, dims);
  }

  /** The recursion into both children. */
  method DeleteBoth(node: KDNode, ghost t: Tree, id: int, dims: nat) returns (r: KDNode?)
    requires dims > 0 && node.Valid() && t == node.tree && t.Node? && Good(t, dims) && t.row.rowid != id
    modifies node.Repr
    ensures ValidOpt(r) && fresh(ReprOf(r) - old(node.Repr))
    ensures Deleted(t, id, dims, TreeOf(r))
    decreases t, 1
  {
    hide Good, Deleted, Settled, PointsOk, Exact, KDNode.Valid;
    DeleteChildren(node, t, id, dims);
    ghost var a, b := TreeOf(node.left), TreeOf(node.right);
    DeletedPartsOk(t, id, dims, a, b);
    node.PullUp();
    r := Settle(node, dims);
    DeleteBelow(t, id, dims, a, b, TreeOf(r));
  }

  method DeleteChildren(node: KDNode, ghost t: Tree, id: int, dims: nat)
    requires dims > 0 && node.Valid() && t == node.tree && Good(t, dims)
    modifies node.Repr
    ensures node.Shaped()
    ensures Row(node.rowid, node.point) == t.row && node.axis == t.axis && node.deleted == t.deleted
    ensures Deleted(t.left, id, dims, TreeOf(node.left)) && Deleted(t.right, id, dims, TreeOf(node.right))
    ensures fresh(ReprOf(node.left) - old(node.Repr)) && fresh(ReprOf(node.right) - old(node.Repr))
    ensures node in old(node.Repr)
    decreases t, 0
  {
    hide Good, Deleted, PointsOk, Exact;
    GoodNode(t, dims);
    var left := DeleteRec(node.left, id, dims);
    assert ValidOpt(node.right) && TreeOf(node.right) == t.right;
    var right := DeleteRec(node.right, id, dims);
    node.left, node.right := left, right;
  }
}
