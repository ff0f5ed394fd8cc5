/**
 The KD-tree with tombstones and partial rebuilds, as values. Sorting leaves the order of equal keys
 open, so building is a relation: a subtree is built from some sorted arrangement of its rows.
 */
module KDTree {
  import opened Rows

  /** `size` and `invalid` are the cached counts of nodes and of tombstones. */
  datatype Tree =
    | Leaf
    | Node(row: Row, axis: nat, deleted: bool, size: int, invalid: int, left: Tree, right: Tree)

  function Size(t: Tree): int { if t.Leaf? then 0 else t.size }

  function Invalid(t: Tree): int { if t.Leaf? then 0 else t.invalid }

  /** A node whose cached counts are recomputed from its children. */
  function Pull(row: Row, axis: nat, deleted: bool, left: Tree, right: Tree): Tree {
    Node(row, axis, deleted, 1 + Size(left) + Size(right),
         (if deleted then 1 else 0) + Invalid(left) + Invalid(right), left, right)
  }

  /** A child holds more than 3/4 of the nodes. */
  predicate Unbalanced(t: Tree) {
    t.Node? && t.size > 2 && (4 * Size(t.left) > 3 * t.size || 4 * Size(t.right) > 3 * t.size)
  }

  /** More than 3/10 of the nodes are tombstones. */
  predicate TooManyDeleted(t: Tree) {
    t.Node? && 10 * t.invalid > 3 * t.size
  }

  // ----- contents

  /** The live rows in order, as collected for a rebuild. */
  function Collect(t: Tree): seq<Row> {
    if t.Leaf? then []
    else Collect(t.left) + (if t.deleted then [] else [t.row]) + Collect(t.right)
  }

  ghost function Live(t: Tree): multiset<Row> {
    if t.Leaf? then multiset{} else Live(t.left) + Own(t) + Live(t.right)
  }

  /** The row of the node itself, if live. */
  ghost function Own(t: Tree): multiset<Row>
    requires t.Node?
  {
    if t.deleted then multiset{} else multiset{t.row}
  }

  /** All stored rows, tombstones included. */
  ghost function Stored(t: Tree): multiset<Row> {
    if t.Leaf? then multiset{} else Stored(t.left) + multiset{t.row} + Stored(t.right)
  }

  /** The number of nodes holding `id`, tombstones included. */
  ghost function Holders(t: Tree, id: int): nat {
    if t.Leaf? then 0
    else Holders(t.left, id) + Holders(t.right, id) + if t.row.rowid == id then 1 else 0
  }

  ghost function Height(t: Tree): nat {
    if t.Leaf? then 0
    else 1 + if Height(t.left) > Height(t.right) then Height(t.left) else Height(t.right)
  }

  lemma {:induction false} CollectIsLive(t: Tree)
    ensures multiset(Collect(t)) == Live(t)
  {
    if t.Node? {
      CollectIsLive(t.left);
      CollectIsLive(t.right);
    }
  }

  lemma {:induction false} LiveIsStored(t: Tree)
    ensures Live(t) <= Stored(t)
  {
    if t.Node? {
      LiveIsStored(t.left);
      LiveIsStored(t.right);
    }
  }

  lemma {:induction false} HoldersOfStored(t: Tree, r: Row)
    ensures Stored(t)[r] <= Holders(t, r.rowid)
  {
    if t.Node? {
      HoldersOfStored(t.left, r);
      HoldersOfStored(t.right, r);
    }
  }

  // ----- invariants

  /** Every point has `dims` coordinates and every split axis is one of them. */
  ghost predicate PointsOk(t: Tree, dims: nat) {
    t.Leaf? || (|t.row.point| == dims && t.axis < dims && PointsOk(t.left, dims) && PointsOk(t.right, dims))
  }

  ghost predicate RowsOk(s: seq<Row>, dims: nat) {
    forall i :: 0 <= i < |s| ==> |s[i].point| == dims
  }

  /** The cached counts are exact. */
  ghost predicate Exact(t: Tree) {
    t.Leaf? ||
    (t == Pull(t.row, t.axis, t.deleted, t.left, t.right) && Exact(t.left) && Exact(t.right))
  }

  ghost predicate AtMost(t: Tree, axis: nat, v: real) {
    t.Leaf? || (axis < |t.row.point| && t.row.point[axis] <= v && AtMost(t.left, axis, v) && AtMost(t.right, axis, v))
  }

  ghost predicate AtLeast(t: Tree, axis: nat, v: real) {
    t.Leaf? || (axis < |t.row.point| && t.row.point[axis] >= v && AtLeast(t.left, axis, v) && AtLeast(t.right, axis, v))
  }

  /** On each node's own axis: left <= node <= right. */
  ghost predicate Ordered(t: Tree) {
    t.Leaf? ||
    (t.axis < |t.row.point|
     && AtMost(t.left, t.axis, t.row.point[t.axis]) && AtLeast(t.right, t.axis, t.row.point[t.axis])
     && Ordered(t.left) && Ordered(t.right))
  }

  /** No node calls for a rebuild. */
  ghost predicate Balanced(t: Tree) {
    t.Leaf? || (!Unbalanced(t) && !TooManyDeleted(t) && Balanced(t.left) && Balanced(t.right))
  }

  ghost predicate Good(t: Tree, dims: nat) {
    PointsOk(t, dims) && Exact(t) && Ordered(t) && Balanced(t)
  }

  lemma {:induction false} CollectOk(t: Tree, dims: nat)
    requires PointsOk(t, dims)
    ensures RowsOk(Collect(t), dims)
  {
    if t.Node? {
      CollectOk(t.left, dims);
      CollectOk(t.right, dims);
    }
  }

  lemma {:induction false} ExactCounts(t: Tree)
    requires Exact(t)
    ensures Size(t) == |Stored(t)| && Invalid(t) == |Stored(t)| - |Live(t)|
  {
    if t.Node? {
      ExactCounts(t.left);
      ExactCounts(t.right);
    }
  }

  /** The split axis at a depth. */
  function AxisOf(depth: nat, dims: nat): (a: nat)
    requires dims > 0
    ensures a < dims
  {
    depth % dims
  }

  // ----- building a balanced subtree

  ghost predicate SortedOn(s: seq<Row>, axis: nat) {
    forall i, j :: 0 <= i < j < |s| ==>
      axis < |s[i].point| && axis < |s[j].point| && s[i].point[axis] <= s[j].point[axis]
  }

  /** `p` is `s` as some sort by the axis may arrange it. */
  ghost predicate Arranged(s: seq<Row>, p: seq<Row>, axis: nat) {
    |p| == |s| && multiset(p) == multiset(s) && SortedOn(p, axis)
  }

  ghost predicate Built(s: seq<Row>, depth: nat, dims: nat, t: Tree)
    requires dims > 0
    decreases |s|
  {
    if s == [] then t == Leaf
    else exists p :: Arranged(s, p, AxisOf(depth, dims)) && BuiltFrom(p, depth, dims, t)
  }

  ghost predicate BuiltFrom(p: seq<Row>, depth: nat, dims: nat, t: Tree)
    requires dims > 0 && p != []
    decreases |p|, 0
  {
    var mid := |p| / 2;
    && t.Node? && t == Pull(p[mid], AxisOf(depth, dims), false, t.left, t.right)
    && Built(p[..mid], depth + 1, dims, t.left) && Built(p[mid + 1..], depth + 1, dims, t.right)
  }

  ghost predicate Rebuilt(t: Tree, dims: nat, t': Tree)
    requires dims > 0
  {
    Built(Collect(t), 0, dims, t')
  }

  lemma RowsOkPermuted(s: seq<Row>, p: seq<Row>, dims: nat)
    requires RowsOk(s, dims) && multiset(p) == multiset(s)
    ensures RowsOk(p, dims)
  {
    forall i | 0 <= i < |p|
      ensures |p[i].point| == dims
    {
      assert p[i] in multiset(s);
    }
  }

  ghost predicate RowsAtMost(s: seq<Row>, axis: nat, v: real) {
    forall i :: 0 <= i < |s| ==> axis < |s[i].point| && s[i].point[axis] <= v
  }

  ghost predicate RowsAtLeast(s: seq<Row>, axis: nat, v: real) {
    forall i :: 0 <= i < |s| ==> axis < |s[i].point| && s[i].point[axis] >= v
  }

  lemma SplitAt(p: seq<Row>, mid: nat)
    requires mid < |p|
    ensures multiset(p) == multiset(p[..mid]) + multiset{p[mid]} + multiset(p[mid + 1..])
  {
    assert p == p[..mid] + [p[mid]] + p[mid + 1..];
  }

  /** A built subtree holds its rows and nothing else. */
  lemma {:induction false} BuiltContents(s: seq<Row>, depth: nat, dims: nat, t: Tree)
    requires dims > 0 && Built(s, depth, dims, t)
    ensures Stored(t) == multiset(s) && Size(t) == |s|
    decreases |s|
  {
    hide AxisOf;
    if s != [] {
      var p: seq<Row> :| Arranged(s, p, AxisOf(depth, dims)) && BuiltFrom(p, depth, dims, t);
      var mid := |p| / 2;
      BuiltContents(p[..mid], depth + 1, dims, t.left);
      BuiltContents(p[mid + 1..], depth + 1, dims, t.right);
      SplitAt(p, mid);
    }
  }

  lemma {:induction false} BuiltLive(s: seq<Row>, depth: nat, dims: nat, t: Tree)
    requires dims > 0 && Built(s, depth, dims, t)
    ensures Live(t) == Stored(t) && Invalid(t) == 0
    decreases |s|
  {
    hide AxisOf;
    if s != [] {
      var p: seq<Row> :| Arranged(s, p, AxisOf(depth, dims)) && BuiltFrom(p, depth, dims, t);
      var mid := |p| / 2;
      BuiltLive(p[..mid], depth + 1, dims, t.left);
      BuiltLive(p[mid + 1..], depth + 1, dims, t.right);
    }
  }

  lemma {:induction false} BuiltPoints(s: seq<Row>, depth: nat, dims: nat, t: Tree)
    requires dims > 0 && RowsOk(s, dims) && Built(s, depth, dims, t)
    ensures PointsOk(t, dims)
    decreases |s|
  {
    hide AxisOf;
    if s != [] {
      var p: seq<Row> :| Arranged(s, p, AxisOf(depth, dims)) && BuiltFrom(p, depth, dims, t);
      var mid := |p| / 2;
      RowsOkPermuted(s, p, dims);
      BuiltPoints(p[..mid], depth + 1, dims, t.left);
      BuiltPoints(p[mid + 1..], depth + 1, dims, t.right);
    }
  }

  lemma {:induction false} BuiltExact(s: seq<Row>, depth: nat, dims: nat, t: Tree)
    requires dims > 0 && Built(s, depth, dims, t)
    ensures Exact(t)
    decreases |s|
  {
    hide AxisOf;
    if s != [] {
      var p: seq<Row> :| Arranged(s, p, AxisOf(depth, dims)) && BuiltFrom(p, depth, dims, t);
      var mid := |p| / 2;
      BuiltExact(p[..mid], depth + 1, dims, t.left);
      BuiltExact(p[mid + 1..], depth + 1, dims, t.right);
    }
  }

  lemma {:induction false} BuiltBalanced(s: seq<Row>, depth: nat, dims: nat, t: Tree)
    requires dims > 0 && Built(s, depth, dims, t)
    ensures Balanced(t)
    decreases |s|
  {
    hide AxisOf, Balanced, Live, Stored;
    if s != [] {
      var p: seq<Row> :| Arranged(s, p, AxisOf(depth, dims)) && BuiltFrom(p, depth, dims, t);
      var mid := |p| / 2;
      BuiltBalanced(p[..mid], depth + 1, dims, t.left);
      BuiltBalanced(p[mid + 1..], depth + 1, dims, t.right);
      BuiltContents(p[..mid], depth + 1, dims, t.left);
      BuiltContents(p[mid + 1..], depth + 1, dims, t.right);
      BuiltLive(p[..mid], depth + 1, dims, t.left);
      BuiltLive(p[mid + 1..], depth + 1, dims, t.right);
      HalvesBalanced(t, |p|);
    } else {
      LeafBalanced();
    }
  }

  lemma LeafBalanced()
    ensures Balanced(Leaf)
  {
  }

  /** A live node over two even halves without tombstones needs no rebuild. */
  lemma HalvesBalanced(t: Tree, n: nat)
    requires t.Node? && t == Pull(t.row, t.axis, false, t.left, t.right) && Balanced(t.left) && Balanced(t.right)
    requires Size(t.left) == n / 2 && Size(t.right) == n - n / 2 - 1 && Invalid(t.left) == Invalid(t.right) == 0
    ensures Balanced(t)
  {
  }

  lemma BoundPermuted(s: seq<Row>, p: seq<Row>, axis: nat, v: real)
    requires multiset(p) == multiset(s)
    ensures RowsAtMost(s, axis, v) ==> RowsAtMost(p, axis, v)
    ensures RowsAtLeast(s, axis, v) ==> RowsAtLeast(p, axis, v)
  {
    forall i | 0 <= i < |p|
      ensures p[i] in s
    {
      assert p[i] in multiset(s);
    }
  }

  /** Bounds on the rows are bounds on the subtree built from them. */
  lemma {:induction false} BuiltBounded(s: seq<Row>, depth: nat, dims: nat, t: Tree, axis: nat, v: real)
    requires dims > 0 && Built(s, depth, dims, t)
    ensures RowsAtMost(s, axis, v) ==> AtMost(t, axis, v)
    ensures RowsAtLeast(s, axis, v) ==> AtLeast(t, axis, v)
    decreases |s|
  {
    hide AxisOf;
    if s != [] {
      var p: seq<Row> :| Arranged(s, p, AxisOf(depth, dims)) && BuiltFrom(p, depth, dims, t);
      var mid := |p| / 2;
      BoundPermuted(s, p, axis, v);
      BuiltBounded(p[..mid], depth + 1, dims, t.left, axis, v);
      BuiltBounded(p[mid + 1..], depth + 1, dims, t.right, axis, v);
    }
  }

  lemma {:induction false} BuiltOrdered(s: seq<Row>, depth: nat, dims: nat, t: Tree)
    requires dims > 0 && RowsOk(s, dims) && Built(s, depth, dims, t)
    ensures Ordered(t)
    decreases |s|
  {
    hide AxisOf;
    if s != [] {
      var p: seq<Row> :| Arranged(s, p, AxisOf(depth, dims)) && BuiltFrom(p, depth, dims, t);
      var mid := |p| / 2;
      var axis := AxisOf(depth, dims);
      RowsOkPermuted(s, p, dims);
      BuiltOrdered(p[..mid], depth + 1, dims, t.left);
      BuiltOrdered(p[mid + 1..], depth + 1, dims, t.right);
      assert RowsAtMost(p[..mid], axis, p[mid].point[axis]);
      assert RowsAtLeast(p[mid + 1..], axis, p[mid].point[axis]);
      BuiltBounded(p[..mid], depth + 1, dims, t.left, axis, p[mid].point[axis]);
      BuiltBounded(p[mid + 1..], depth + 1, dims, t.right, axis, p[mid].point[axis]);
    }
  }

  /** A rebuild keeps exactly the live rows, drops all tombstones and leaves a good subtree. */
  lemma RebuildCorrect(t: Tree, dims: nat, t': Tree)
    requires dims > 0 && PointsOk(t, dims) && Rebuilt(t, dims, t')
    ensures Good(t', dims) && Live(t') == Live(t) && Stored(t') == Live(t) && Invalid(t') == 0
  {
    hide AxisOf;
    CollectOk(t, dims);
    CollectIsLive(t);
    BuiltContents(Collect(t), 0, dims, t');
    BuiltLive(Collect(t), 0, dims, t');
    BuiltPoints(Collect(t), 0, dims, t');
    BuiltExact(Collect(t), 0, dims, t');
    BuiltBalanced(Collect(t), 0, dims, t');
    BuiltOrdered(Collect(t), 0, dims, t');
  }

  // ----- insertion and deletion

  /** A pulled-up node is rebuilt when it calls for it and kept otherwise. */
  ghost predicate Settled(n: Tree, dims: nat, t': Tree)
    requires dims > 0
  {
    if Unbalanced(n) || TooManyDeleted(n) then Rebuilt(n, dims, t') else t' == n
  }

  ghost predicate Inserted(t: Tree, row: Row, depth: nat, dims: nat, t': Tree)
    requires dims > 0 && PointsOk(t, dims) && |row.point| == dims
    decreases t
  {
    match t
    case Leaf => t' == Node(row, AxisOf(depth, dims), false, 1, 0, Leaf, Leaf)
    case Node(r, axis, deleted, _, _, left, right) =>
      if row.point[axis] < r.point[axis] then
        exists c :: Inserted(left, row, depth + 1, dims, c) && Settled(Pull(r, axis, deleted, c, right), dims, t')
      else
        exists c :: Inserted(right, row, depth + 1, dims, c) && Settled(Pull(r, axis, deleted, left, c), dims, t')
  }

  /** The recursion stops at the first node of a branch that holds the id, live or not. */
  ghost predicate Deleted(t: Tree, id: int, dims: nat, t': Tree)
    requires dims > 0
    decreases t
  {
    match t
    case Leaf => t' == Leaf
    case Node(r, axis, deleted, _, _, left, right) =>
      if r.rowid == id then
        var n := Pull(r, axis, true, left, right);
        if TooManyDeleted(n) then Rebuilt(n, dims, t') else t' == n
      else
        exists a, b :: Deleted(left, id, dims, a) && Deleted(right, id, dims, b) &&
                       Settled(Pull(r, axis, deleted, a, b), dims, t')
  }

  ghost predicate WellFormed(t: Tree, dims: nat) {
    PointsOk(t, dims) && Exact(t) && Ordered(t)
  }

  /** Settling a node over good children gives a good tree with the same live rows. */
  lemma SettledCorrect(n: Tree, dims: nat, t': Tree)
    requires dims > 0 && n.Node? && WellFormed(n, dims) && Balanced(n.left) && Balanced(n.right)
    requires Settled(n, dims, t')
    ensures Good(t', dims) && Live(t') == Live(n) && Stored(t') <= Stored(n)
  {
    hide AxisOf;
    if Unbalanced(n) || TooManyDeleted(n) {
      RebuildCorrect(n, dims, t');
      LiveIsStored(n);
    }
  }

  lemma {:induction false} BoundsFromStored(t: Tree, dims: nat, axis: nat, v: real)
    requires PointsOk(t, dims) && axis < dims
    ensures AtMost(t, axis, v) <==> forall r :: r in Stored(t) ==> |r.point| == dims && r.point[axis] <= v
    ensures AtLeast(t, axis, v) <==> forall r :: r in Stored(t) ==> |r.point| == dims && r.point[axis] >= v
  {
    if t.Node? {
      BoundsFromStored(t.left, dims, axis, v);
      BoundsFromStored(t.right, dims, axis, v);
      assert t.row in Stored(t);
      assert forall r :: r in Stored(t) <==> r in Stored(t.left) || r == t.row || r in Stored(t.right);
    }
  }

  /** Insertion adds exactly the given row and keeps every invariant. */
  lemma {:induction false} InsertCorrect(t: Tree, row: Row, depth: nat, dims: nat, t': Tree)
    requires dims > 0 && Good(t, dims) && |row.point| == dims && Inserted(t, row, depth, dims, t')
    ensures Good(t', dims) && t'.Node?
    ensures Live(t') == Live(t) + multiset{row}
    ensures Stored(t') <= Stored(t) + multiset{row}
    decreases t
  {
    hide AxisOf, Settled, Unbalanced, TooManyDeleted;
    match t
    case Leaf =>
      InsertIntoLeaf(row, depth, dims, t');
    case Node(r, axis, deleted, _, _, left, right) =>
      if row.point[axis] < r.point[axis] {
        var c :| Inserted(left, row, depth + 1, dims, c) && Settled(Pull(r, axis, deleted, c, right), dims, t');
        InsertCorrect(left, row, depth + 1, dims, c);
        ChildBoundKept(left, c, row, dims, axis, r.point[axis]);
        InsertLeft(t, c, row, dims, t');
      } else {
        var c :| Inserted(right, row, depth + 1, dims, c) && Settled(Pull(r, axis, deleted, left, c), dims, t');
        InsertCorrect(right, row, depth + 1, dims, c);
        ChildBoundKept(right, c, row, dims, axis, r.point[axis]);
        InsertRight(t, c, row, dims, t');
      }
  }

  lemma InsertLeft(t: Tree, c: Tree, row: Row, dims: nat, t': Tree)
    requires dims > 0 && Good(t, dims) && t.Node? && Good(c, dims)
    requires AtMost(c, t.axis, t.row.point[t.axis])
    requires Live(c) == Live(t.left) + multiset{row} && Stored(c) <= Stored(t.left) + multiset{row}
    requires Settled(Pull(t.row, t.axis, t.deleted, c, t.right), dims, t')
    ensures Good(t', dims) && t'.Node? && Live(t') == Live(t) + multiset{row} && Stored(t') <= Stored(t) + multiset{row}
  {
    ReplaceChildren(t, c, t.right, dims, t');
    hide Settled, Good, AtMost, AtLeast, Ordered, PointsOk, Exact, Balanced;
    AddThrough(Live(t.left), Own(t), Live(t.right), row);
    AddThrough(Stored(t.left), multiset{t.row}, Stored(t.right), row);
    assert row in Live(t');
  }

  lemma InsertRight(t: Tree, c: Tree, row: Row, dims: nat, t': Tree)
    requires dims > 0 && Good(t, dims) && t.Node? && Good(c, dims)
    requires AtLeast(c, t.axis, t.row.point[t.axis])
    requires Live(c) == Live(t.right) + multiset{row} && Stored(c) <= Stored(t.right) + multiset{row}
    requires Settled(Pull(t.row, t.axis, t.deleted, t.left, c), dims, t')
    ensures Good(t', dims) && t'.Node? && Live(t') == Live(t) + multiset{row} && Stored(t') <= Stored(t) + multiset{row}
  {
    ReplaceChildren(t, t.left, c, dims, t');
    hide Settled, Good, AtMost, AtLeast, Ordered, PointsOk, Exact, Balanced;
    AddThrough(Live(t.left), Own(t), Live(t.right), row);
    AddThrough(Stored(t.left), multiset{t.row}, Stored(t.right), row);
    assert row in Live(t');
  }

  lemma InsertIntoLeaf(row: Row, depth: nat, dims: nat, t': Tree)
    requires dims > 0 && |row.point| == dims && Inserted(Leaf, row, depth, dims, t')
    ensures Good(t', dims) && t'.Node? && Live(t') == multiset{row} && Stored(t') == multiset{row}
  {
  }

  lemma ChildBoundKept(t: Tree, c: Tree, row: Row, dims: nat, axis: nat, v: real)
    requires PointsOk(t, dims) && PointsOk(c, dims) && axis < dims && |row.point| == dims
    requires Stored(c) <= Stored(t) + multiset{row}
    ensures AtMost(t, axis, v) && row.point[axis] <= v ==> AtMost(c, axis, v)
    ensures AtLeast(t, axis, v) && row.point[axis] >= v ==> AtLeast(c, axis, v)
  {
    BoundsFromStored(t, dims, axis, v);
    BoundsFromStored(c, dims, axis, v);
    assert forall r :: r in Stored(c) ==> r in Stored(t) || r == row;
  }

  /** Settling a good node over new good children that respect its split. */
  lemma ReplaceChildren(t: Tree, a: Tree, b: Tree, dims: nat, t': Tree)
    requires dims > 0 && Good(t, dims) && t.Node? && Good(a, dims) && Good(b, dims)
    requires AtMost(a, t.axis, t.row.point[t.axis]) && AtLeast(b, t.axis, t.row.point[t.axis])
    requires Settled(Pull(t.row, t.axis, t.deleted, a, b), dims, t')
    ensures Good(t', dims)
    ensures Live(t') == Live(a) + Own(t) + Live(b) && Stored(t') <= Stored(a) + multiset{t.row} + Stored(b)
  {
    hide Settled, Unbalanced, TooManyDeleted;
    SettledCorrect(Pull(t.row, t.axis, t.deleted, a, b), dims, t');
  }

  lemma AddThrough(a: multiset<Row>, o: multiset<Row>, b: multiset<Row>, x: Row)
    ensures a + multiset{x} + o + b == a + o + b + multiset{x}
    ensures a + o + (b + multiset{x}) == a + o + b + multiset{x}
  {
  }

  /** What one deletion leaves live: the rows of nodes it does not stop at. */
  ghost function Remaining(t: Tree, id: int): multiset<Row> {
    if t.Leaf? then multiset{}
    else if t.row.rowid == id then Live(t.left) + Live(t.right)
    else Remaining(t.left, id) + Own(t) + Remaining(t.right, id)
  }

  /** Deletion keeps every invariant, adds nothing, and leaves `Remaining` live. */
  lemma {:induction false} DeleteCorrect(t: Tree, id: int, dims: nat, t': Tree)
    requires dims > 0 && Good(t, dims) && Deleted(t, id, dims, t')
    ensures Good(t', dims) && Stored(t') <= Stored(t) && Live(t') == Remaining(t, id)
    decreases t
  {
    hide AtMost, AtLeast;
    if t.Node? {
      GoodChildren(t, dims);
      hide AxisOf, Settled, Unbalanced, TooManyDeleted, Rebuilt, Good;
      if t.row.rowid == id {
        DeleteHere(t, dims, t');
      } else {
        var a, b :| Deleted(t.left, id, dims, a) && Deleted(t.right, id, dims, b) &&
                    Settled(Pull(t.row, t.axis, t.deleted, a, b), dims, t');
        DeleteCorrect(t.left, id, dims, a);
        DeleteCorrect(t.right, id, dims, b);
        DeleteBelow(t, a, b, id, dims, t');
      }
    }
  }

  lemma GoodChildren(t: Tree, dims: nat)
    requires Good(t, dims) && t.Node?
    ensures Good(t.left, dims) && Good(t.right, dims)
  {
  }

  /** Marking the root of a good tree. */
  lemma DeleteHere(t: Tree, dims: nat, t': Tree)
    requires dims > 0 && Good(t, dims) && t.Node?
    requires var n := Pull(t.row, t.axis, true, t.left, t.right);
      if TooManyDeleted(n) then Rebuilt(n, dims, t') else t' == n
    ensures Good(t', dims) && Stored(t') <= Stored(t) && Live(t') == Live(t.left) + Live(t.right)
  {
    hide AxisOf;
    var n := Pull(t.row, t.axis, true, t.left, t.right);
    if TooManyDeleted(n) {
      RebuildCorrect(n, dims, t');
      LiveIsStored(n);
    }
  }

  lemma DeleteBelow(t: Tree, a: Tree, b: Tree, id: int, dims: nat, t': Tree)
    requires dims > 0 && Good(t, dims) && t.Node? && t.row.rowid != id && Good(a, dims) && Good(b, dims)
    requires Stored(a) <= Stored(t.left) && Stored(b) <= Stored(t.right)
    requires Live(a) == Remaining(t.left, id) && Live(b) == Remaining(t.right, id)
    requires Settled(Pull(t.row, t.axis, t.deleted, a, b), dims, t')
    ensures Good(t', dims) && Stored(t') <= Stored(t) && Live(t') == Remaining(t, id)
  {
    hide AxisOf;
    hide Settled, Unbalanced, TooManyDeleted;
    var v := t.row.point[t.axis];
    SubsetBound(t.left, a, dims, t.axis, v);
    SubsetBound(t.right, b, dims, t.axis, v);
    ReplaceChildren(t, a, b, dims, t');
  }

  lemma SubsetBound(t: Tree, c: Tree, dims: nat, axis: nat, v: real)
    requires PointsOk(t, dims) && PointsOk(c, dims) && axis < dims && Stored(c) <= Stored(t)
    ensures AtMost(t, axis, v) ==> AtMost(c, axis, v)
    ensures AtLeast(t, axis, v) ==> AtLeast(c, axis, v)
  {
    BoundsFromStored(t, dims, axis, v);
    BoundsFromStored(c, dims, axis, v);
    assert forall r :: r in Stored(c) ==> r in Stored(t);
  }
}
