/** Whole runs of insertions and deletions on a KD-tree: balance, size and contents. */
module KDRuns {
  import opened Rows
  import opened KDTree

  // ----- balance

  ghost function Pow(b: nat, n: nat): nat {
    if n == 0 then 1 else b * Pow(b, n - 1)
  }

  lemma ScaleStep(h: nat, c: nat, s: nat)
    requires Pow(4, h) <= Pow(3, h) * c && 4 * c <= 3 * s
    ensures Pow(4, h + 1) <= Pow(3, h + 1) * s
  {
    var p := Pow(3, h);
    assert 4 * Pow(4, h) <= p * (4 * c);
    assert p * (4 * c) <= p * (3 * s);
    assert p * (3 * s) == 3 * p * s;
  }

  lemma {:induction false} SizeNonNeg(t: Tree)
    requires Exact(t)
    ensures Size(t) >= 0 && (t.Node? ==> Size(t) > 0)
  {
    if t.Node? {
      SizeNonNeg(t.left);
      SizeNonNeg(t.right);
    }
  }

  /** Each level keeps at most 3/4 of the nodes, so the height is logarithmic in the size. */
  lemma {:induction false} HeightBound(t: Tree)
    requires t.Node? && Exact(t) && Balanced(t)
    ensures t.size > 0 && Pow(4, Height(t) - 1) <= Pow(3, Height(t) - 1) * t.size
    decreases t
  {
    SizeNonNeg(t.left);
    SizeNonNeg(t.right);
    var c := if Height(t.left) > Height(t.right) then t.left else t.right;
    if c.Node? {
      HeightBound(c);
      assert 4 * c.size <= 3 * t.size;
      hide Exact, Balanced;
      assert Height(t) - 1 == Height(c);
      ScaleStep(Height(c) - 1, c.size, t.size);
    }
  }

  /** At least 7/10 of the nodes are live. */
  lemma MostlyLive(t: Tree)
    requires Exact(t) && Balanced(t)
    ensures 7 * |Stored(t)| <= 10 * |Live(t)| && Size(t) == |Stored(t)|
  {
    ExactCounts(t);
  }

  // ----- what a deletion removes

  ghost predicate HasRowid(m: multiset<Row>, id: int) {
    exists r :: r in m && r.rowid == id
  }

  /** Some node that deletion stops at has a live node with the same id below it. */
  ghost predicate Shadowed(t: Tree, id: int) {
    t.Node? &&
    if t.row.rowid == id then HasRowid(Live(t.left), id) || HasRowid(Live(t.right), id)
    else Shadowed(t.left, id) || Shadowed(t.right, id)
  }

  lemma HasRowidUnion(a: multiset<Row>, b: multiset<Row>, id: int)
    ensures HasRowid(a + b, id) <==> HasRowid(a, id) || HasRowid(b, id)
  {
    if HasRowid(a, id) {
      var r :| r in a && r.rowid == id;
      assert r in a + b;
    }
    if HasRowid(b, id) {
      var r :| r in b && r.rowid == id;
      assert r in a + b;
    }
  }

  lemma {:induction false} OthersRemain(t: Tree, id: int, r: Row)
    requires r.rowid != id
    ensures Remaining(t, id)[r] == Live(t)[r]
  {
    if t.Node? && t.row.rowid != id {
      OthersRemain(t.left, id, r);
      OthersRemain(t.right, id, r);
    }
  }

  lemma {:induction false} RemainsIffShadowed(t: Tree, id: int)
    ensures HasRowid(Remaining(t, id), id) <==> Shadowed(t, id)
  {
    if t.Node? {
      if t.row.rowid == id {
        HasRowidUnion(Live(t.left), Live(t.right), id);
      } else {
        RemainsIffShadowed(t.left, id);
        RemainsIffShadowed(t.right, id);
        HasRowidUnion(Remaining(t.left, id) + Own(t), Remaining(t.right, id), id);
        HasRowidUnion(Remaining(t.left, id), Own(t), id);
      }
    }
  }

  /** `m'` is `m` without the rows of `id`. */
  ghost predicate Without(m: multiset<Row>, id: int, m': multiset<Row>) {
    forall r :: m'[r] == if r.rowid == id then 0 else m[r]
  }

  lemma WithoutIffGone(m: multiset<Row>, id: int, m': multiset<Row>)
    requires forall r: Row :: r.rowid != id ==> m'[r] == m[r]
    ensures Without(m, id, m') <==> !HasRowid(m', id)
  {
    if HasRowid(m', id) {
      var r :| r in m' && r.rowid == id;
      assert m'[r] != 0;
    }
  }

  /** Deletion removes exactly the rows of `id` if and only if none of them is shadowed. */
  lemma DeleteExactIff(t: Tree, id: int, dims: nat, t': Tree)
    requires dims > 0 && Good(t, dims) && Deleted(t, id, dims, t')
    ensures Without(Live(t), id, Live(t')) <==> !Shadowed(t, id)
  {
    DeleteCorrect(t, id, dims, t');
    RemainsIffShadowed(t, id);
    hide Good, Deleted, Shadowed, Live, Remaining, Stored, Without, HasRowid;
    forall r: Row | r.rowid != id
      ensures Live(t')[r] == Live(t)[r]
    {
      OthersRemain(t, id, r);
    }
    WithoutIffGone(Live(t), id, Live(t'));
  }

  /** At most one node holds `id`, tombstones included. */
  ghost predicate UniqueId(m: multiset<Row>, id: int) {
    forall r, s :: r in m && s in m && r.rowid == id && s.rowid == id ==> r == s && m[r] == 1
  }

  lemma {:induction false} UniqueNotShadowed(t: Tree, id: int)
    requires UniqueId(Stored(t), id)
    ensures !Shadowed(t, id)
  {
    if t.Node? {
      if t.row.rowid == id {
        NoneBelow(t, t.left, Stored(t.right), id);
        NoneBelow(t, t.right, Stored(t.left), id);
      } else {
        assert Stored(t.left) <= Stored(t) && Stored(t.right) <= Stored(t);
        UniqueNotShadowed(t.left, id);
        UniqueNotShadowed(t.right, id);
      }
    }
  }

  lemma NoneBelow(t: Tree, c: Tree, rest: multiset<Row>, id: int)
    requires t.Node? && t.row.rowid == id && UniqueId(Stored(t), id)
    requires Stored(t) == Stored(c) + multiset{t.row} + rest
    ensures !HasRowid(Live(c), id)
  {
    LiveIsStored(c);
    forall r | r in Live(c)
      ensures r.rowid != id
    {
      assert r in Stored(c) && r in Stored(t) && t.row in Stored(t);
      assert Stored(t)[t.row] >= 1 + Stored(c)[t.row];
    }
  }

  // ----- runs

  datatype Op = Insert(row: Row) | Delete(id: int)

  ghost predicate Step(t: Tree, op: Op, dims: nat, t': Tree)
    requires dims > 0
  {
    match op
    case Insert(row) => |row.point| == dims && PointsOk(t, dims) && Inserted(t, row, 0, dims, t')
    case Delete(id) => Deleted(t, id, dims, t')
  }

  /** `ts` are the trees before, between and after the operations. */
  ghost predicate Run(ops: seq<Op>, dims: nat, ts: seq<Tree>)
    requires dims > 0
  {
    && |ts| == |ops| + 1 && ts[0] == Leaf
    && forall i :: 0 <= i < |ops| ==> Step(ts[i], ops[i], dims, ts[i + 1])
  }

  /** Every tree of every run is ordered, counted exactly and balanced. */
  lemma {:induction false} RunKeepsGood(ops: seq<Op>, dims: nat, ts: seq<Tree>, n: nat)
    requires dims > 0 && Run(ops, dims, ts) && n < |ts|
    ensures Good(ts[n], dims)
    decreases n
  {
    if n > 0 {
      RunKeepsGood(ops, dims, ts, n - 1);
      assert Step(ts[n - 1], ops[n - 1], dims, ts[n - 1 + 1]);
      match ops[n - 1]
      case Insert(row) => InsertCorrect(ts[n - 1], row, 0, dims, ts[n]);
      case Delete(id) => DeleteCorrect(ts[n - 1], id, dims, ts[n]);
    }
  }

  /** After any run the height is logarithmic and at least 7/10 of the nodes are live. */
  lemma RunIsBalanced(ops: seq<Op>, dims: nat, ts: seq<Tree>, n: nat)
    requires dims > 0 && Run(ops, dims, ts) && n < |ts|
    ensures ts[n].Node? ==>
      Pow(4, Height(ts[n]) - 1) <= Pow(3, Height(ts[n]) - 1) * |Stored(ts[n])|
    ensures 7 * |Stored(ts[n])| <= 10 * |Live(ts[n])|
  {
    RunKeepsGood(ops, dims, ts, n);
    MostlyLive(ts[n]);
    if ts[n].Node? {
      HeightBound(ts[n]);
    }
  }

  /** How often the operations leave row `r` in the table. */
  ghost function Replay(ops: seq<Op>, r: Row): nat {
    if ops == [] then 0
    else
      var before := Replay(ops[..|ops| - 1], r);
      match ops[|ops| - 1]
      case Insert(row) => before + if row == r then 1 else 0
      case Delete(id) => if r.rowid == id then 0 else before
  }

  /** No inserted id is stored at the time, as a live row or as a tombstone that has not been rebuilt away. */
  ghost predicate NewIds(ops: seq<Op>, ts: seq<Tree>)
    requires |ts| == |ops| + 1
  {
    forall i :: 0 <= i < |ops| && ops[i].Insert? ==> !HasRowid(Stored(ts[i]), ops[i].row.rowid)
  }

  ghost predicate StoredWasInserted(t: Tree, ops: seq<Op>) {
    forall r :: r in Stored(t) ==> Insert(r) in ops
  }

  /** While inserted ids are new to the tree, it holds exactly what the operations leave. */
  lemma {:induction false} RunContents(ops: seq<Op>, dims: nat, ts: seq<Tree>, n: nat)
    requires dims > 0 && Run(ops, dims, ts) && n < |ts| && NewIds(ops, ts)
    ensures StoredWasInserted(ts[n], ops[..n]) && (forall id :: UniqueId(Stored(ts[n]), id))
    ensures forall r :: Live(ts[n])[r] == Replay(ops[..n], r)
    decreases n
  {
    if n > 0 {
      RunContents(ops, dims, ts, n - 1);
      RunKeepsGood(ops, dims, ts, n - 1);
      assert Step(ts[n - 1], ops[n - 1], dims, ts[n - 1 + 1]);
      assert ops[..n][..n - 1] == ops[..n - 1] && ops[..n] == ops[..n - 1] + [ops[n - 1]];
      match ops[n - 1]
      case Insert(row) =>
        assert !HasRowid(Stored(ts[n - 1]), row.rowid);
        InsertContents(ts[n - 1], row, dims, ts[n], ops[..n - 1]);
      case Delete(id) =>
        DeleteContents(ts[n - 1], id, dims, ts[n], ops[..n - 1]);
    }
  }

  /** No id is inserted twice. */
  ghost predicate FreshIds(ops: seq<Op>) {
    forall i, j :: 0 <= i < j < |ops| && ops[i].Insert? && ops[j].Insert? ==> ops[i].row.rowid != ops[j].row.rowid
  }

  /** In particular a run that inserts no id twice only inserts new ids. */
  lemma {:induction false} FreshIsNew(ops: seq<Op>, dims: nat, ts: seq<Tree>, n: nat)
    requires dims > 0 && Run(ops, dims, ts) && n < |ts| && FreshIds(ops)
    ensures StoredWasInserted(ts[n], ops[..n])
    ensures forall i :: 0 <= i < n && ops[i].Insert? ==> !HasRowid(Stored(ts[i]), ops[i].row.rowid)
    decreases n
  {
    if n > 0 {
      FreshIsNew(ops, dims, ts, n - 1);
      RunKeepsGood(ops, dims, ts, n - 1);
      assert Step(ts[n - 1], ops[n - 1], dims, ts[n - 1 + 1]);
      assert ops[..n] == ops[..n - 1] + [ops[n - 1]];
      match ops[n - 1]
      case Insert(row) =>
        FreshRow(ops, ts[n - 1], n, row);
        InsertCorrect(ts[n - 1], row, 0, dims, ts[n]);
        assert forall r :: r in Stored(ts[n]) ==> r in Stored(ts[n - 1]) || r == row;
      case Delete(id) =>
        DeleteCorrect(ts[n - 1], id, dims, ts[n]);
        assert forall r :: r in Stored(ts[n]) ==> r in Stored(ts[n - 1]);
    }
  }

  lemma FreshRow(ops: seq<Op>, t: Tree, n: nat, row: Row)
    requires 0 < n <= |ops| && FreshIds(ops) && ops[n - 1] == Insert(row) && StoredWasInserted(t, ops[..n - 1])
    ensures !HasRowid(Stored(t), row.rowid)
  {
    forall r | r in Stored(t)
      ensures r.rowid != row.rowid
    {
      var i :| 0 <= i < n - 1 && ops[..n - 1][i] == Insert(r);
      assert ops[i] == Insert(r);
    }
  }

  lemma UniqueAfterAdd(m: multiset<Row>, row: Row, m': multiset<Row>, id: int)
    requires m' <= m + multiset{row} && UniqueId(m, id) && (forall r :: r in m ==> r.rowid != row.rowid)
    ensures UniqueId(m', id)
  {
    forall r, s | r in m' && s in m' && r.rowid == id && s.rowid == id
      ensures r == s && m'[r] == 1
    {
      assert m'[r] <= (m + multiset{row})[r] && m'[s] <= (m + multiset{row})[s];
    }
  }

  lemma ReplaySnoc(ops: seq<Op>, op: Op, r: Row)
    ensures Replay(ops + [op], r) ==
      match op {
        case Insert(row) => Replay(ops, r) + if row == r then 1 else 0
        case Delete(id) => if r.rowid == id then 0 else Replay(ops, r)
      }
  {
    assert (ops + [op])[..|ops|] == ops;
  }

  lemma InsertContents(t: Tree, row: Row, dims: nat, t': Tree, ops: seq<Op>)
    requires dims > 0 && Good(t, dims) && |row.point| == dims && Inserted(t, row, 0, dims, t')
    requires StoredWasInserted(t, ops) && (forall id :: UniqueId(Stored(t), id))
    requires !HasRowid(Stored(t), row.rowid)
    requires forall r :: Live(t)[r] == Replay(ops, r)
    ensures StoredWasInserted(t', ops + [Insert(row)]) && (forall id :: UniqueId(Stored(t'), id))
    ensures forall r :: Live(t')[r] == Replay(ops + [Insert(row)], r)
  {
    hide Inserted, Good, Live, Stored, Replay, UniqueId;
    InsertCorrect(t, row, 0, dims, t');
    assert forall r :: r in Stored(t') ==> r in Stored(t) || r == row;
    forall r
      ensures Live(t')[r] == Replay(ops + [Insert(row)], r)
    {
      ReplaySnoc(ops, Insert(row), r);
    }
    forall id
      ensures UniqueId(Stored(t'), id)
    {
      UniqueAfterAdd(Stored(t), row, Stored(t'), id);
    }
  }

  lemma UniqueInSubset(m: multiset<Row>, m': multiset<Row>, id: int)
    requires m' <= m && UniqueId(m, id)
    ensures UniqueId(m', id)
  {
    forall r, s | r in m' && s in m' && r.rowid == id && s.rowid == id
      ensures r == s && m'[r] == 1
    {
      assert m'[r] <= m[r] && m'[s] <= m[s];
    }
  }

  lemma DeleteContents(t: Tree, id: int, dims: nat, t': Tree, ops: seq<Op>)
    requires dims > 0 && Good(t, dims) && Deleted(t, id, dims, t')
    requires StoredWasInserted(t, ops) && (forall id :: UniqueId(Stored(t), id))
    requires forall r :: Live(t)[r] == Replay(ops, r)
    ensures StoredWasInserted(t', ops + [Delete(id)]) && (forall id :: UniqueId(Stored(t'), id))
    ensures forall r :: Live(t')[r] == Replay(ops + [Delete(id)], r)
  {
    hide Deleted, Good, Shadowed, Live, Stored, Remaining, Replay, UniqueId;
    DeleteCorrect(t, id, dims, t');
    UniqueNotShadowed(t, id);
    DeleteExactIff(t, id, dims, t');
    assert forall r :: r in Stored(t') ==> r in Stored(t);
    forall r
      ensures Live(t')[r] == Replay(ops + [Delete(id)], r)
    {
      ReplaySnoc(ops, Delete(id), r);
    }
    forall i
      ensures UniqueId(Stored(t'), i)
    {
      UniqueInSubset(Stored(t), Stored(t'), i);
    }
  }

  // ----- a shadowed row

  function Single(id: int, x: real): Tree { Pull(Row(id, [x]), 0, false, Leaf, Leaf) }

  function Pair(): Tree { Pull(Row(1, [5.0]), 0, false, Single(2, 3.0), Leaf) }

  function Three(): Tree { Pull(Row(1, [5.0]), 0, false, Single(2, 3.0), Single(3, 7.0)) }

  /** Four live rows with distinct ids, then row 1 moved from 5 to 4, over one coordinate. */
  function Before(): Tree {
    Pull(Row(1, [5.0]), 0, false, Single(2, 3.0), Pull(Row(3, [7.0]), 0, false, Single(4, 6.0), Leaf))
  }

  function Marked(): Tree {
    Pull(Row(1, [5.0]), 0, true, Before().left, Before().right)
  }

  function Moved(): Tree {
    Pull(Row(1, [5.0]), 0, true, Pull(Row(2, [3.0]), 0, false, Leaf, Single(1, 4.0)), Before().right)
  }

  /** An insertion below the left or right child of a node that needs no rebuild afterwards. */
  lemma InsertBelow(t: Tree, row: Row, depth: nat, c: Tree)
    requires t.Node? && PointsOk(t, 1) && |row.point| == 1
    requires row.point[0] < t.row.point[0] ==> Inserted(t.left, row, depth + 1, 1, c)
    requires row.point[0] >= t.row.point[0] ==> Inserted(t.right, row, depth + 1, 1, c)
    ensures var n := if row.point[0] < t.row.point[0] then Pull(t.row, t.axis, t.deleted, c, t.right)
                     else Pull(t.row, t.axis, t.deleted, t.left, c);
      !Unbalanced(n) && !TooManyDeleted(n) ==> Inserted(t, row, depth, 1, n)
  {
    hide Rebuilt;
    var n := if row.point[0] < t.row.point[0] then Pull(t.row, t.axis, t.deleted, c, t.right)
             else Pull(t.row, t.axis, t.deleted, t.left, c);
    if !Unbalanced(n) && !TooManyDeleted(n) {
      assert Settled(n, 1, n);
    }
  }

  lemma InsertSingle(id: int, x: real, depth: nat)
    ensures Inserted(Leaf, Row(id, [x]), depth, 1, Single(id, x))
  {
  }

  lemma FirstFour()
    ensures Inserted(Leaf, Row(1, [5.0]), 0, 1, Single(1, 5.0))
    ensures PointsOk(Single(1, 5.0), 1) && Inserted(Single(1, 5.0), Row(2, [3.0]), 0, 1, Pair())
    ensures PointsOk(Pair(), 1) && Inserted(Pair(), Row(3, [7.0]), 0, 1, Three())
    ensures PointsOk(Three(), 1) && Inserted(Three(), Row(4, [6.0]), 0, 1, Before())
  {
    hide Inserted;
    InsertSingle(1, 5.0, 0);
    InsertSingle(2, 3.0, 1);
    InsertBelow(Single(1, 5.0), Row(2, [3.0]), 0, Single(2, 3.0));
    InsertSingle(3, 7.0, 1);
    InsertBelow(Pair(), Row(3, [7.0]), 0, Single(3, 7.0));
    InsertSingle(4, 6.0, 2);
    InsertBelow(Single(3, 7.0), Row(4, [6.0]), 1, Single(4, 6.0));
    InsertBelow(Three(), Row(4, [6.0]), 0, Before().right);
  }

  lemma LastThree()
    ensures Deleted(Before(), 1, 1, Marked())
    ensures PointsOk(Marked(), 1) && Inserted(Marked(), Row(1, [4.0]), 0, 1, Moved())
    ensures Deleted(Moved(), 1, 1, Moved()) && Row(1, [4.0]) in Live(Moved())
  {
    hide Inserted;
    InsertSingle(1, 4.0, 2);
    InsertBelow(Single(2, 3.0), Row(1, [4.0]), 1, Single(1, 4.0));
    InsertBelow(Marked(), Row(1, [4.0]), 0, Moved().left);
    assert Row(1, [4.0]) in Live(Moved().left);
  }

  /** Four inserts, an update of row 1 and its deletion. */
  function ShadowOps(): seq<Op> {
    [Insert(Row(1, [5.0])), Insert(Row(2, [3.0])), Insert(Row(3, [7.0])), Insert(Row(4, [6.0])),
     Delete(1), Insert(Row(1, [4.0])), Delete(1)]
  }

  /** A run from the empty tree that updates row 1 and then deletes it, and ends with the updated row live. */
  lemma DeleteAfterUpdateFails()
    ensures Run(ShadowOps(), 1, [Leaf, Single(1, 5.0), Pair(), Three(), Before(), Marked(), Moved(), Moved()])
    ensures Row(1, [4.0]) in Live(Moved()) && Replay(ShadowOps(), Row(1, [4.0])) == 0
  {
    hide Inserted, Deleted, Live;
    FirstFour();
    LastThree();
    var ops, ts := ShadowOps(), [Leaf, Single(1, 5.0), Pair(), Three(), Before(), Marked(), Moved(), Moved()];
    forall i | 0 <= i < |ops|
      ensures Step(ts[i], ops[i], 1, ts[i + 1])
    {
    }
    assert ops[|ops| - 1] == Delete(1);
  }
}
