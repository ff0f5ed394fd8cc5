/** The file form of a KD-tree: a preorder dump with null markers, and its reader. */
module KDFile {
  import opened Vectors
  import opened Rows
  import opened KDTree

  datatype Word = Num(n: int) | Coord(x: real)

  /** What the reader makes of a node: a tree and the words left, or `Torn` for a record cut short. */
  datatype Reading = Read(tree: Tree, rest: seq<Word>) | Torn

  function Coords(p: Point): (r: seq<Word>)
    ensures |r| == |p| && forall i :: 0 <= i < |p| ==> r[i] == Coord(p[i])
  {
    seq(|p|, i requires 0 <= i < |p| => Coord(p[i]))
  }

  /** The fixed part of a node's record. */
  function Header(t: Tree): seq<Word>
    requires t.Node?
  {
    [Num(0), Num(t.row.rowid), Num(t.axis), Num(t.size), Num(if t.deleted then 1 else 0), Num(t.invalid)]
  }

  /** `serialize_kdnode`. */
  function Write(t: Tree): seq<Word> {
    if t.Leaf? then [Num(1)] else Header(t) + Coords(t.row.point) + Write(t.left) + Write(t.right)
  }

  /** The words of a record have the kinds their positions call for. */
  predicate IsRecord(ws: seq<Word>, dims: nat) {
    && |ws| >= 6 + dims && (forall i :: 0 <= i < 6 ==> ws[i].Num?) && ws[2].n >= 0
    && (forall i :: 6 <= i < 6 + dims ==> ws[i].Coord?)
  }

  function PointAt(ws: seq<Word>, dims: nat): (p: Point)
    requires IsRecord(ws, dims)
    ensures |p| == dims && forall i :: 0 <= i < dims ==> p[i] == ws[6 + i].x
  {
    seq(dims, i requires 0 <= i < dims => ws[6 + i].x)
  }

  /** `deserialize_kdnode`: end of file or a null marker is an empty subtree. */
  function ReadNode(ws: seq<Word>, dims: nat): (r: Reading)
    ensures r.Read? && ws != [] ==> |r.rest| < |ws|
    ensures r.Read? && ws == [] ==> r.rest == []
    decreases |ws|
  {
    if ws == [] then Read(Leaf, [])
    else if ws[0] != Num(0) then Read(Leaf, ws[1..])
    else if !IsRecord(ws, dims) then Torn
    else
      var left := ReadNode(ws[6 + dims..], dims);
      if left.Torn? then Torn
      else
        var right := ReadNode(left.rest, dims);
        if right.Torn? then Torn
        else
          Read(Node(Row(ws[1].n, PointAt(ws, dims)), ws[2].n, ws[4].n != 0, ws[3].n, ws[5].n, left.tree, right.tree),
            right.rest)
  }

  /** The record at the front of a written node. */
  lemma RecordOf(t: Tree, dims: nat, rest: seq<Word>)
    requires t.Node? && |t.row.point| == dims
    ensures var ws := Header(t) + Coords(t.row.point) + rest;
      IsRecord(ws, dims) && ws[6 + dims..] == rest && PointAt(ws, dims) == t.row.point
  {
    var ws := Header(t) + Coords(t.row.point) + rest;
    assert forall i :: 0 <= i < dims ==> ws[6 + i] == Coord(t.row.point[i]);
    assert forall i :: 6 <= i < 6 + dims ==> ws[i] == Coord(t.row.point[i - 6]);
  }

  /** The reader on a node's record: its fields, then whatever the rest gives for the two subtrees. */
  lemma ReadRecord(t: Tree, dims: nat, tail: seq<Word>, rest: seq<Word>, rest': seq<Word>)
    requires t.Node? && |t.row.point| == dims
    requires ReadNode(tail, dims) == Read(t.left, rest) && ReadNode(rest, dims) == Read(t.right, rest')
    ensures ReadNode(Header(t) + Coords(t.row.point) + tail, dims) == Read(t, rest')
  {
    hide IsRecord, Coords, PointAt;
    RecordOf(t, dims, tail);
  }

  /** Where the parts of a node's dump are: marker, five numbers, coordinates, left subtree, right subtree. */
  lemma DumpLayout(t: Tree, dims: nat)
    requires t.Node? && |t.row.point| == dims
    ensures var ws, l, n := Write(t), Write(t.left), 6 + dims;
      && |ws| == n + |l| + |Write(t.right)| && ws[n..n + |l|] == l && ws[n + |l|..] == Write(t.right)
      && ws[0] == Num(0) && ws[1] == Num(t.row.rowid) && ws[2] == Num(t.axis) && ws[3] == Num(t.size)
      && ws[4] == Num(if t.deleted then 1 else 0) && ws[5] == Num(t.invalid)
      && forall i :: 0 <= i < dims ==> ws[6 + i] == Coord(t.row.point[i])
    ensures Write(Leaf) == [Num(1)]
  {
    assert |Header(t)| == 6;
  }

  /** Reading what was written gives the tree back, tombstones and cached counts included, and nothing more is read. */
  lemma {:induction false} ReadWrite(t: Tree, dims: nat, rest: seq<Word>)
    requires PointsOk(t, dims)
    ensures ReadNode(Write(t) + rest, dims) == Read(t, rest)
    decreases t
  {
    hide Header, Coords, ReadNode;
    if t.Leaf? {
      ReadNull(rest, dims);
    } else {
      var head := Header(t) + Coords(t.row.point);
      ReadWrite(t.left, dims, Write(t.right) + rest);
      ReadWrite(t.right, dims, rest);
      ReadRecord(t, dims, Write(t.left) + (Write(t.right) + rest), Write(t.right) + rest, rest);
      Regroup(head, Write(t.left), Write(t.right), rest);
    }
  }

  lemma ReadNull(rest: seq<Word>, dims: nat)
    ensures ReadNode([Num(1)] + rest, dims) == Read(Leaf, rest)
  {
    assert ([Num(1)] + rest)[1..] == rest;
  }

  lemma Regroup(a: seq<Word>, b: seq<Word>, c: seq<Word>, d: seq<Word>)
    ensures (a + b + c) + d == a + (b + (c + d))
  {
  }

  /** Different trees never have the same file. */
  lemma WriteInjective(t: Tree, u: Tree, dims: nat)
    requires PointsOk(t, dims) && PointsOk(u, dims) && Write(t) == Write(u)
    ensures t == u
  {
    ReadWrite(t, dims, []);
    ReadWrite(u, dims, []);
  }
}
