/** Which axis each node of the tree splits on, and when an operation changes more of the tree than one node. */
module KDAxes {
  import opened Rows
  import opened KDTree
  import opened KDRuns

  /** A node `j` levels below the root splits on axis `(depth + j) % dims`. */
  ghost predicate AxesFrom(t: Tree, depth: nat, dims: nat)
    requires dims > 0
  {
    t.Leaf? || (t.axis == depth % dims && AxesFrom(t.left, depth + 1, dims) && AxesFrom(t.right, depth + 1, dims))
  }

  /** Of the nodes of every subtree the left child holds half, rounded down, and the right child the rest but one. */
  ghost predicate Halved(t: Tree) {
    t.Leaf? ||
    (|Stored(t.left)| == |Stored(t)| / 2 && |Stored(t.right)| == (|Stored(t)| - 1) / 2
     && Halved(t.left) && Halved(t.right))
  }

  lemma AxisIs(depth: nat, dims: nat)
    requires dims > 0
    ensures AxisOf(depth, dims) == depth % dims
  {
  }

  /** A subtree built at a depth cycles through the axes from there and splits at the middle. */
  lemma {:induction false} BuiltShape(s: seq<Row>, depth: nat, dims: nat, t: Tree)
    requires dims > 0 && Built(s, depth, dims, t)
    ensures AxesFrom(t, depth, dims) && Halved(t) && |Stored(t)| == |s|
    decreases |s|
  {
    hide Stored, AxisOf;
    BuiltContents(s, depth, dims, t);
    if s != [] {
      AxisIs(depth, dims);
      var p: seq<Row> :| Arranged(s, p, AxisOf(depth, dims)) && BuiltFrom(p, depth, dims, t);
      var mid := |p| / 2;
      BuiltShape(p[..mid], depth + 1, dims, t.left);
      BuiltShape(p[mid + 1..], depth + 1, dims, t.right);
    }
  }

  // ----- the operations without rebuilds

  /** The row in a new leaf where the comparisons on the way down lead. */
  ghost function Grown(t: Tree, row: Row, depth: nat, dims: nat): Tree
    requires dims > 0 && PointsOk(t, dims) && |row.point| == dims
    decreases t
  {
    match t
    case Leaf => Node(row, depth % dims, false, 1, 0, Leaf, Leaf)
    case Node(r, axis, deleted, _, _, left, right) =>
      if row.point[axis] < r.point[axis] then Pull(r, axis, deleted, Grown(left, row, depth + 1, dims), right)
      else Pull(r, axis, deleted, left, Grown(right, row, depth + 1, dims))
  }

  /** The topmost nodes of the id on every branch marked. */
  ghost function Struck(t: Tree, id: int): Tree {
    match t
    case Leaf => Leaf
    case Node(r, axis, deleted, _, _, left, right) =>
      if r.rowid == id then Pull(r, axis, true, left, right)
      else Pull(r, axis, deleted, Struck(left, id), Struck(right, id))
  }

  /** In no subtree of more than 2 nodes has a child over 3/4 of them, and in none are over 3/10 tombstones. */
  ghost predicate Even(t: Tree) {
    t.Leaf? ||
    (var n := |Stored(t)|;
     && (n > 2 ==> 4 * |Stored(t.left)| <= 3 * n && 4 * |Stored(t.right)| <= 3 * n)
     && 10 * (n - |Live(t)|) <= 3 * n && Even(t.left) && Even(t.right))
  }

  lemma {:induction false} EvenIsBalanced(t: Tree)
    requires Exact(t)
    ensures Even(t) <==> Balanced(t)
  {
    hide Stored, Live;
    if t.Node? {
      EvenIsBalanced(t.left);
      EvenIsBalanced(t.right);
      ExactCounts(t);
      ExactCounts(t.left);
      ExactCounts(t.right);
    }
  }

  lemma {:induction false} GrownExact(t: Tree, row: Row, depth: nat, dims: nat)
    requires dims > 0 && PointsOk(t, dims) && |row.point| == dims && Exact(t)
    ensures Exact(Grown(t, row, depth, dims))
    decreases t
  {
    if t.Node? {
      if row.point[t.axis] < t.row.point[t.axis] {
        GrownExact(t.left, row, depth + 1, dims);
      } else {
        GrownExact(t.right, row, depth + 1, dims);
      }
    }
  }

  lemma {:induction false} StruckExact(t: Tree, id: int)
    requires Exact(t)
    ensures Exact(Struck(t, id))
  {
    if t.Node? {
      StruckExact(t.left, id);
      StruckExact(t.right, id);
    }
  }

  lemma BalancedSettles(n: Tree, dims: nat, t': Tree)
    requires dims > 0 && Balanced(n) && Settled(n, dims, t')
    ensures t' == n
  {
  }

  lemma {:induction false} BalancedInsert(t: Tree, row: Row, depth: nat, dims: nat, t': Tree)
    requires dims > 0 && PointsOk(t, dims) && |row.point| == dims && Inserted(t, row, depth, dims, t')
    requires Balanced(Grown(t, row, depth, dims))
    ensures t' == Grown(t, row, depth, dims)
    decreases t
  {
    hide Settled;
    match t
    case Leaf =>
    case Node(r, axis, deleted, _, _, left, right) =>
      if row.point[axis] < r.point[axis] {
        var c :| Inserted(left, row, depth + 1, dims, c) && Settled(Pull(r, axis, deleted, c, right), dims, t');
        BalancedInsert(left, row, depth + 1, dims, c);
      } else {
        var c :| Inserted(right, row, depth + 1, dims, c) && Settled(Pull(r, axis, deleted, left, c), dims, t');
        BalancedInsert(right, row, depth + 1, dims, c);
      }
      BalancedSettles(Grown(t, row, depth, dims), dims, t');
  }

  lemma {:induction false} BalancedDelete(t: Tree, id: int, dims: nat, t': Tree)
    requires dims > 0 && Deleted(t, id, dims, t') && Balanced(Struck(t, id))
    ensures t' == Struck(t, id)
    decreases t
  {
    hide Settled, Rebuilt;
    if t.Node? && t.row.rowid != id {
      var a, b :| Deleted(t.left, id, dims, a) && Deleted(t.right, id, dims, b) &&
                  Settled(Pull(t.row, t.axis, t.deleted, a, b), dims, t');
      BalancedDelete(t.left, id, dims, a);
      BalancedDelete(t.right, id, dims, b);
      BalancedSettles(Struck(t, id), dims, t');
    }
  }

  /** An insertion is a new leaf and nothing else if and only if that leaves the tree even. */
  lemma InsertPlainIff(t: Tree, row: Row, depth: nat, dims: nat, t': Tree)
    requires dims > 0 && Good(t, dims) && |row.point| == dims && Inserted(t, row, depth, dims, t')
    ensures t' == Grown(t, row, depth, dims) <==> Even(Grown(t, row, depth, dims))
  {
    hide Grown, Inserted, Even, Balanced, Exact, PointsOk, Ordered;
    GrownExact(t, row, depth, dims);
    EvenIsBalanced(Grown(t, row, depth, dims));
    if Even(Grown(t, row, depth, dims)) {
      BalancedInsert(t, row, depth, dims, t');
    }
    InsertCorrect(t, row, depth, dims, t');
  }

  /** A deletion is marks and nothing else if and only if these leave the tree even. */
  lemma DeletePlainIff(t: Tree, id: int, dims: nat, t': Tree)
    requires dims > 0 && Good(t, dims) && Deleted(t, id, dims, t')
    ensures t' == Struck(t, id) <==> Even(Struck(t, id))
  {
    hide Struck, Deleted, Even, Balanced, Exact, PointsOk, Ordered;
    StruckExact(t, id);
    EvenIsBalanced(Struck(t, id));
    if Even(Struck(t, id)) {
      BalancedDelete(t, id, dims, t');
    }
    DeleteCorrect(t, id, dims, t');
  }

  /** The top of a tree needs no rebuild, by the counts of its nodes. */
  ghost predicate EvenAtTop(t: Tree) {
    t.Leaf? ||
    (var n := |Stored(t)|;
     && (n > 2 ==> 4 * |Stored(t.left)| <= 3 * n && 4 * |Stored(t.right)| <= 3 * n)
     && 10 * (n - |Live(t)|) <= 3 * n)
  }

  /** A subtree is kept if its top is even, and otherwise rebuilt, at its depth, from its live rows. */
  ghost predicate KeptOrRebuilt(n: Tree, dims: nat, t': Tree)
    requires dims > 0
  {
    if EvenAtTop(n) then t' == n
    else Stored(t') == Live(n) && AxesFrom(t', 0, dims) && Halved(t') && Ordered(t')
  }

  lemma SettledIs(n: Tree, dims: nat, t': Tree)
    requires dims > 0 && PointsOk(n, dims) && Exact(n) && Settled(n, dims, t')
    ensures KeptOrRebuilt(n, dims, t')
  {
    hide Ordered, Stored, Live, Halved, AxesFrom, PointsOk;
    if n.Node? {
      ExactCounts(n);
      ExactCounts(n.left);
      ExactCounts(n.right);
      if Unbalanced(n) || TooManyDeleted(n) {
        RebuildCorrect(n, dims, t');
        BuiltShape(Collect(n), 0, dims, t');
      }
    }
  }

  /** What an insertion does at one node, given what it does below. */
  lemma InsertAt(t: Tree, row: Row, depth: nat, dims: nat, t': Tree) returns (c: Tree)
    requires dims > 0 && Good(t, dims) && t.Node? && |row.point| == dims && Inserted(t, row, depth, dims, t')
    ensures var left := row.point[t.axis] < t.row.point[t.axis];
      && Inserted(if left then t.left else t.right, row, depth + 1, dims, c)
      && KeptOrRebuilt(
           Pull(t.row, t.axis, t.deleted, if left then c else t.left, if left then t.right else c), dims, t')
  {
    hide Settled, KeptOrRebuilt;
    var left := row.point[t.axis] < t.row.point[t.axis];
    if left {
      c :| Inserted(t.left, row, depth + 1, dims, c) && Settled(Pull(t.row, t.axis, t.deleted, c, t.right), dims, t');
      InsertCorrect(t.left, row, depth + 1, dims, c);
    } else {
      c :| Inserted(t.right, row, depth + 1, dims, c) && Settled(Pull(t.row, t.axis, t.deleted, t.left, c), dims, t');
      InsertCorrect(t.right, row, depth + 1, dims, c);
    }
    SettledIs(Pull(t.row, t.axis, t.deleted, if left then c else t.left, if left then t.right else c), dims, t');
  }

  /** What a deletion does at a node that does not hold the id, given what it does below. */
  lemma DeleteAt(t: Tree, id: int, dims: nat, t': Tree) returns (a: Tree, b: Tree)
    requires dims > 0 && Good(t, dims) && t.Node? && Deleted(t, id, dims, t')
    ensures if t.row.rowid == id then KeptOrRebuilt(Pull(t.row, t.axis, true, t.left, t.right), dims, t')
      else
        && Deleted(t.left, id, dims, a) && Deleted(t.right, id, dims, b)
        && KeptOrRebuilt(Pull(t.row, t.axis, t.deleted, a, b), dims, t')
  {
    hide Settled, KeptOrRebuilt, Ordered, Balanced, Live, Stored, Remaining, Rebuilt;
    if t.row.rowid == id {
      a, b := t.left, t.right;
      MarkSettles(t, dims, t');
      SettledIs(Pull(t.row, t.axis, true, t.left, t.right), dims, t');
    } else {
      GoodChildren(t, dims);
      a, b :| Deleted(t.left, id, dims, a) && Deleted(t.right, id, dims, b) &&
              Settled(Pull(t.row, t.axis, t.deleted, a, b), dims, t');
      DeleteCorrect(t.left, id, dims, a);
      DeleteCorrect(t.right, id, dims, b);
      SettledIs(Pull(t.row, t.axis, t.deleted, a, b), dims, t');
    }
  }

  /** A mark does not change the sizes, so that only the tombstones can call for a rebuild. */
  lemma MarkSettles(t: Tree, dims: nat, t': Tree)
    requires dims > 0 && Good(t, dims) && t.Node?
    requires var n := Pull(t.row, t.axis, true, t.left, t.right);
      if TooManyDeleted(n) then Rebuilt(n, dims, t') else t' == n
    ensures Settled(Pull(t.row, t.axis, true, t.left, t.right), dims, t')
  {
  }

  // ----- the axes after every operation

  /**
   * Every subtree has been rebuilt, with axes from 0 on whatever its depth, or is a new leaf on the axis of its depth,
   * or
   * keeps its top node with its axis.
   */
  ghost predicate AxesAfter(t: Tree, t': Tree, depth: nat, dims: nat)
    requires dims > 0
    decreases t'
  {
    || (AxesFrom(t', 0, dims) && Halved(t'))
    || (t'.Node? &&
        if t.Leaf? then t'.axis == depth % dims && t'.left == Leaf && t'.right == Leaf
        else
          && t'.row == t.row && t'.axis == t.axis
          && AxesAfter(t.left, t'.left, depth + 1, dims) && AxesAfter(t.right, t'.right, depth + 1, dims))
  }

  lemma {:induction false} SameAxes(t: Tree, depth: nat, dims: nat)
    requires dims > 0
    ensures AxesAfter(t, t, depth, dims)
  {
    if t.Node? {
      SameAxes(t.left, depth + 1, dims);
      SameAxes(t.right, depth + 1, dims);
    }
  }

  lemma SettledAxes(t: Tree, n: Tree, depth: nat, dims: nat, t': Tree)
    requires dims > 0 && AxesAfter(t, n, depth, dims) && Settled(n, dims, t')
    ensures AxesAfter(t, t', depth, dims)
  {
    hide Halved;
    if Unbalanced(n) || TooManyDeleted(n) {
      BuiltShape(Collect(n), 0, dims, t');
    }
  }

  lemma {:induction false} InsertAxes(t: Tree, row: Row, depth: nat, dims: nat, t': Tree)
    requires dims > 0 && PointsOk(t, dims) && |row.point| == dims && Inserted(t, row, depth, dims, t')
    ensures AxesAfter(t, t', depth, dims)
    decreases t
  {
    hide Settled, Halved;
    match t
    case Leaf =>
    case Node(r, axis, deleted, _, _, left, right) =>
      SameAxes(left, depth + 1, dims);
      SameAxes(right, depth + 1, dims);
      if row.point[axis] < r.point[axis] {
        var c :| Inserted(left, row, depth + 1, dims, c) && Settled(Pull(r, axis, deleted, c, right), dims, t');
        InsertAxes(left, row, depth + 1, dims, c);
        SettledAxes(t, Pull(r, axis, deleted, c, right), depth, dims, t');
      } else {
        var c :| Inserted(right, row, depth + 1, dims, c) && Settled(Pull(r, axis, deleted, left, c), dims, t');
        InsertAxes(right, row, depth + 1, dims, c);
        SettledAxes(t, Pull(r, axis, deleted, left, c), depth, dims, t');
      }
  }

  lemma {:induction false} DeleteAxes(t: Tree, id: int, depth: nat, dims: nat, t': Tree)
    requires dims > 0 && Deleted(t, id, dims, t')
    ensures AxesAfter(t, t', depth, dims)
    decreases t
  {
    hide Settled, Halved;
    if t.Node? {
      SameAxes(t.left, depth + 1, dims);
      SameAxes(t.right, depth + 1, dims);
      if t.row.rowid == id {
        var n := Pull(t.row, t.axis, true, t.left, t.right);
        if TooManyDeleted(n) {
          BuiltShape(Collect(n), 0, dims, t');
        }
      } else {
        var a, b :| Deleted(t.left, id, dims, a) && Deleted(t.right, id, dims, b) &&
                    Settled(Pull(t.row, t.axis, t.deleted, a, b), dims, t');
        DeleteAxes(t.left, id, depth + 1, dims, a);
        DeleteAxes(t.right, id, depth + 1, dims, b);
        SettledAxes(t, Pull(t.row, t.axis, t.deleted, a, b), depth, dims, t');
      }
    } else {
      SameAxes(t, depth, dims);
    }
  }

  // ----- runs without rebuilds

  ghost function Plain(t: Tree, op: Op, dims: nat): Tree
    requires dims > 0 && PointsOk(t, dims) && (op.Insert? ==> |op.row.point| == dims)
  {
    match op
    case Insert(row) => Grown(t, row, 0, dims)
    case Delete(id) => Struck(t, id)
  }

  /** Every operation leaves the tree even by itself. */
  ghost predicate Quiet(ops: seq<Op>, dims: nat, ts: seq<Tree>)
    requires dims > 0 && |ts| == |ops| + 1
  {
    forall i :: 0 <= i < |ops| ==>
      PointsOk(ts[i], dims) && (ops[i].Insert? ==> |ops[i].row.point| == dims) && Even(Plain(ts[i], ops[i], dims))
  }

  lemma {:induction false} GrownAxes(t: Tree, row: Row, depth: nat, dims: nat)
    requires dims > 0 && PointsOk(t, dims) && |row.point| == dims && AxesFrom(t, depth, dims)
    ensures AxesFrom(Grown(t, row, depth, dims), depth, dims)
    decreases t
  {
    if t.Node? {
      if row.point[t.axis] < t.row.point[t.axis] {
        GrownAxes(t.left, row, depth + 1, dims);
      } else {
        GrownAxes(t.right, row, depth + 1, dims);
      }
    }
  }

  lemma {:induction false} StruckAxes(t: Tree, id: int, depth: nat, dims: nat)
    requires dims > 0 && AxesFrom(t, depth, dims)
    ensures AxesFrom(Struck(t, id), depth, dims)
    decreases t
  {
    if t.Node? {
      StruckAxes(t.left, id, depth + 1, dims);
      StruckAxes(t.right, id, depth + 1, dims);
    }
  }

  /** In a run without rebuilds every node at depth d splits on axis d modulo the dimension. */
  lemma {:induction false} QuietRunAxes(ops: seq<Op>, dims: nat, ts: seq<Tree>, n: nat)
    requires dims > 0 && Run(ops, dims, ts) && Quiet(ops, dims, ts) && n < |ts|
    ensures AxesFrom(ts[n], 0, dims)
    ensures n > 0 ==> PointsOk(ts[n - 1], dims) && ts[n] == Plain(ts[n - 1], ops[n - 1], dims)
    decreases n
  {
    hide Grown, Struck, Even, Good, Inserted, Deleted, AxesFrom;
    if n > 0 {
      QuietRunAxes(ops, dims, ts, n - 1);
      RunKeepsGood(ops, dims, ts, n - 1);
      assert Step(ts[n - 1], ops[n - 1], dims, ts[n - 1 + 1]);
      assert Even(Plain(ts[n - 1], ops[n - 1], dims));
      match ops[n - 1]
      case Insert(row) =>
        InsertPlainIff(ts[n - 1], row, 0, dims, ts[n]);
        GrownAxes(ts[n - 1], row, 0, dims);
      case Delete(id) =>
        DeletePlainIff(ts[n - 1], id, dims, ts[n]);
        StruckAxes(ts[n - 1], id, 0, dims);
    } else {
      NoAxes(dims);
    }
  }

  lemma NoAxes(dims: nat)
    requires dims > 0
    ensures AxesFrom(Leaf, 0, dims)
  {
  }
}
