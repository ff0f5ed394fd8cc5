/** The IVF index: a training buffer, trained centroids and inverted lists updated in place. */
module IVFIndex {
  import opened Sequences
  import opened Vectors
  import opened Rows
  import opened TopK
  import opened KMeans
  import opened KMeansRun
  import opened HeapOrder
  import opened IVFSearch

  const LIST_CAP: nat := 128

  const TRAIN_CAP: nat := 1024

  const ITERATIONS: nat := 20

  /** The sizes the virtual table creates its index with. */
  const N_LIST: nat := 32

  const N_PROBE: nat := 8

  /** The starting minimum of the relocation scan. */
  const FAR: real := 1000000000000000000000000000000.0

  datatype Status = Ok | Full | NoMem | Error

  /** All rows of all lists. */
  ghost function Total(lists: seq<seq<Row>>): multiset<Row> {
    if lists == [] then multiset{} else Total(lists[..|lists| - 1]) + multiset(lists[|lists| - 1])
  }

  lemma AddLast(x: multiset<Row>, a: multiset<Row>, y: multiset<Row>, b: multiset<Row>, last: multiset<Row>)
    requires x + a == y + b
    ensures x + last + a == y + last + b
  {
    assert x + last + a == (x + a) + last;
    assert y + last + b == (y + b) + last;
  }

  lemma {:induction false} TotalUpdate(lists: seq<seq<Row>>, c: nat, l: seq<Row>)
    requires c < |lists|
    ensures Total(lists[c := l]) + multiset(lists[c]) == Total(lists) + multiset(l)
  {
    var n := |lists| - 1;
    if c < n {
      TotalUpdate(lists[..n], c, l);
      assert lists[c := l][..n] == lists[..n][c := l];
      AddLast(Total(lists[..n][c := l]), multiset(lists[c]), Total(lists[..n]), multiset(l), multiset(lists[n]));
    } else {
      assert lists[c := l][..n] == lists[..n];
    }
  }

  lemma {:induction false} TotalIsPrefix(lists: seq<seq<Row>>, n: nat)
    requires n <= |lists|
    ensures Below(Iota(n), |lists|) && multiset(Probed(lists, Iota(n))) == Total(lists[..n])
  {
    if n > 0 {
      TotalIsPrefix(lists, n - 1);
      assert Iota(n)[..n - 1] == Iota(n - 1);
      assert lists[..n][..n - 1] == lists[..n - 1];
    }
  }

  lemma TotalIsAllRows(lists: seq<seq<Row>>)
    ensures multiset(AllRows(lists)) == Total(lists)
  {
    TotalIsPrefix(lists, |lists|);
    assert lists[..|lists|] == lists;
  }

  lemma {:induction false} EmptyTotal(lists: seq<seq<Row>>)
    requires forall c :: 0 <= c < |lists| ==> lists[c] == []
    ensures Total(lists) == multiset{}
  {
    if lists != [] {
      EmptyTotal(lists[..|lists| - 1]);
    }
  }

  /** Every row is in the list of the first centroid closest to it. */
  ghost predicate Placed(lists: seq<seq<Row>>, cs: seq<Point>, dist: Metric)
    requires |lists| == |cs|
  {
    forall c, i :: 0 <= c < |lists| && 0 <= i < |lists[c]| ==> Closest(lists[c][i].point, cs, dist, |cs|) == c
  }

  lemma PlacedAppend(lists: seq<seq<Row>>, cs: seq<Point>, dist: Metric, c: nat, row: Row)
    requires |lists| == |cs| && Placed(lists, cs, dist) && c < |cs| && c == Closest(row.point, cs, dist, |cs|)
    ensures Placed(lists[c := lists[c] + [row]], cs, dist)
  {
    hide Closest;
  }

  lemma AppendTotal(lists: seq<seq<Row>>, c: nat, row: Row)
    requires c < |lists|
    ensures Total(lists[c := lists[c] + [row]]) == Total(lists) + multiset{row}
  {
    hide Total;
    TotalUpdate(lists, c, lists[c] + [row]);
    Cancel(Total(lists[c := lists[c] + [row]]), multiset(lists[c]), Total(lists) + multiset{row});
  }

  /** The list after its last row has taken the place of row `i`. */
  function Overwritten(l: seq<Row>, i: nat): (r: seq<Row>)
    requires i < |l|
    ensures |r| == |l| - 1 && multiset(r) == multiset(l) - multiset{l[i]}
    ensures forall j :: 0 <= j < |r| ==> r[j] == l[if j == i then |l| - 1 else j]
  {
    var n := |l| - 1;
    assert l == l[..n] + [l[n]];
    if i == n then l[..n] else l[..n][i := l[n]]
  }

  lemma PlacedOverwrite(lists: seq<seq<Row>>, cs: seq<Point>, dist: Metric, c: nat, i: nat)
    requires |lists| == |cs| && Placed(lists, cs, dist) && c < |cs| && i < |lists[c]|
    ensures Placed(lists[c := Overwritten(lists[c], i)], cs, dist)
  {
    hide Closest;
  }

  lemma OverwriteTotal(lists: seq<seq<Row>>, c: nat, i: nat)
    requires c < |lists| && i < |lists[c]|
    ensures Total(lists[c := Overwritten(lists[c], i)]) + multiset{lists[c][i]} == Total(lists)
  {
    hide Total, Overwritten;
    TotalUpdate(lists, c, Overwritten(lists[c], i));
    var rest := multiset(Overwritten(lists[c], i));
    assert multiset(lists[c]) == rest + multiset{lists[c][i]};
    Cancel(Total(lists[c := Overwritten(lists[c], i)]) + multiset{lists[c][i]}, rest, Total(lists));
  }

  ghost predicate NoneNear(vec: Point, cs: seq<Point>, dist: Metric, n: nat)
    requires n <= |cs|
  {
    forall c: nat :: c < n ==> dist(vec, cs[c]) >= FAR
  }

  /** The first of the centroids at least distance if any is nearer than `FAR`, else 0. */
  method ClosestWithin(vec: Point, cs: seq<Point>, dist: Metric) returns (l: nat)
    requires |cs| > 0
    ensures l < |cs| && l == if NoneNear(vec, cs, dist, |cs|) then 0 else Closest(vec, cs, dist, |cs|)
  {
    var min := FAR;
    l := 0;
    var c := 0;
    while c < |cs|
      invariant 0 <= c <= |cs| && l < |cs|
      invariant NoneNear(vec, cs, dist, c) ==> l == 0 && min == FAR
      invariant !NoneNear(vec, cs, dist, c) ==> c > 0 && l == Closest(vec, cs, dist, c) && min == dist(vec, cs[l]) < FAR
    {
      NearNext(vec, cs, dist, c);
      var d := dist(vec, cs[c]);
      if d < min {
        min := d;
        l := c;
      }
      c := c + 1;
    }
  }

  lemma NearNext(vec: Point, cs: seq<Point>, dist: Metric, c: nat)
    requires c < |cs|
    ensures NoneNear(vec, cs, dist, c + 1) <==> NoneNear(vec, cs, dist, c) && dist(vec, cs[c]) >= FAR
    ensures NoneNear(vec, cs, dist, c) && dist(vec, cs[c]) < FAR ==> Closest(vec, cs, dist, c + 1) == c
  {
  }

  /** No list holds the id. */
  ghost predicate Absent(lists: seq<seq<Row>>, id: int) {
    forall c, i :: 0 <= c < |lists| && 0 <= i < |lists[c]| ==> lists[c][i].rowid != id
  }

  /** The first position of the id from `i` on, or the length. */
  ghost function FirstIn(l: seq<Row>, id: int, i: nat): (r: nat)
    requires i <= |l|
    ensures i <= r <= |l| && (r < |l| ==> l[r].rowid == id) && forall j :: i <= j < r ==> l[j].rowid != id
    decreases |l| - i
  {
    if i == |l| || l[i].rowid == id then i else FirstIn(l, id, i + 1)
  }

  /** The first list from `c` on that holds the id, or the number of lists. */
  ghost function Home(lists: seq<seq<Row>>, id: int, c: nat): (r: nat)
    requires c <= |lists|
    ensures c <= r <= |lists| && (r < |lists| ==> FirstIn(lists[r], id, 0) < |lists[r]|)
    ensures forall d :: c <= d < r ==> FirstIn(lists[d], id, 0) == |lists[d]|
    decreases |lists| - c
  {
    if c == |lists| || FirstIn(lists[c], id, 0) < |lists[c]| then c else Home(lists, id, c + 1)
  }

  lemma HomelessIsAbsent(lists: seq<seq<Row>>, id: int)
    ensures Home(lists, id, 0) == |lists| <==> Absent(lists, id)
  {
    var h := Home(lists, id, 0);
    if h < |lists| {
      assert lists[h][FirstIn(lists[h], id, 0)].rowid == id;
    } else {
      forall c, i | 0 <= c < |lists| && 0 <= i < |lists[c]|
        ensures lists[c][i].rowid != id
      {
        assert FirstIn(lists[c], id, 0) == |lists[c]|;
      }
    }
  }

  /** The row a deletion of the id takes out. */
  ghost function Victim(lists: seq<seq<Row>>, id: int): Row
    requires Home(lists, id, 0) < |lists|
  {
    lists[Home(lists, id, 0)][FirstIn(lists[Home(lists, id, 0)], id, 0)]
  }

  /** The lists after a deletion of the id. */
  ghost function Removed(lists: seq<seq<Row>>, id: int): (r: seq<seq<Row>>)
    ensures |r| == |lists|
  {
    var h := Home(lists, id, 0);
    if h == |lists| then lists else lists[h := Overwritten(lists[h], FirstIn(lists[h], id, 0))]
  }

  /** The list an updated vector goes to: a closest centroid's if one is nearer than `FAR`, else the first. */
  ghost function TargetOf(vec: Point, cs: seq<Point>, dist: Metric): (c: nat)
    requires |cs| > 0
    ensures c < |cs|
  {
    if NoneNear(vec, cs, dist, |cs|) then 0 else Closest(vec, cs, dist, |cs|)
  }

  function Appended(lists: seq<seq<Row>>, c: nat, row: Row): (r: seq<seq<Row>>)
    requires c < |lists|
    ensures |r| == |lists|
  {
    lists[c := lists[c] + [row]]
  }

  /** The lists a flush of the rows fills. */
  ghost function Flushed(rows: seq<Row>, cs: seq<Point>, dist: Metric): (r: seq<seq<Row>>)
    requires |cs| > 0
    ensures |r| == |cs|
  {
    if rows == [] then seq(|cs|, _ => [])
    else
      var n := |rows| - 1;
      Appended(Flushed(rows[..n], cs, dist), Closest(rows[n].point, cs, dist, |cs|), rows[n])
  }

  /** The capacity of a list that has grown to `n` entries one by one: it doubles whenever it is full. */
  function CapAfter(n: nat): nat {
    if n == 0 then LIST_CAP else var cap := CapAfter(n - 1); if n - 1 >= cap then 2 * cap else cap
  }

  /** Every capacity is what the size of its list calls for. */
  ghost predicate GrownTo(lists: seq<seq<Row>>, caps: seq<nat>) {
    |lists| == |caps| && forall c :: 0 <= c < |lists| ==> caps[c] == CapAfter(|lists[c]|)
  }

  function PowerOfTwo(e: nat): nat { if e == 0 then 1 else 2 * PowerOfTwo(e - 1) }

  /** That is 128 times the least power of two with which the entries fit. */
  lemma {:induction false} CapIsLeast(n: nat) returns (e: nat)
    ensures CapAfter(n) == 128 * PowerOfTwo(e) && n <= CapAfter(n)
    ensures e > 0 ==> 128 * PowerOfTwo(e - 1) < n
  {
    e := 0;
    if n > 0 {
      e := CapIsLeast(n - 1);
      if n - 1 >= CapAfter(n - 1) {
        e := e + 1;
      }
    }
  }

  lemma {:induction false} CapOfSmall(n: nat)
    requires n <= LIST_CAP
    ensures CapAfter(n) == LIST_CAP
  {
    if n > 0 {
      CapOfSmall(n - 1);
    }
  }

  /** The centroids are those of a training run over the rows not marked deleted. */
  ghost predicate TrainedOn(rows: seq<Row>, deleted: seq<bool>, cs: seq<Point>, dims: nat, dist: Metric)
    requires |rows| <= |deleted|
  {
    exists trace :: TrainedBy(trace, rows, deleted, cs, dims, dist)
  }

  ghost predicate TrainedBy(trace: seq<Snapshot>, rows: seq<Row>, deleted: seq<bool>, cs: seq<Point>, dims: nat,
                            dist: Metric)
    requires |rows| <= |deleted|
  {
    var ps := ValidPoints(Points(rows), deleted);
    && ps != [] && |trace| == ITERATIONS && IsRun(ps, Seed(ps, |cs|), trace, dims, dist)
    && cs == trace[ITERATIONS - 1].cents
  }

  // ----- marks before training

  ghost predicate HasId(rows: seq<Row>, id: int) {
    exists j :: 0 <= j < |rows| && rows[j].rowid == id
  }

  /** Every mark belongs to a buffered row: what a caller that deletes only rows it has inserted keeps. */
  ghost predicate MarksHeld(rows: seq<Row>, deleted: seq<bool>) {
    forall i: nat :: i < |deleted| && deleted[i] ==> HasId(rows, i + 1)
  }

  ghost predicate AllMarked(deleted: seq<bool>) {
    forall i :: 0 <= i < |deleted| ==> deleted[i]
  }

  /** Training has nothing to work on exactly when every position is marked. */
  lemma ValidIff(rows: seq<Row>, deleted: seq<bool>)
    requires |rows| == |deleted|
    ensures ValidPoints(Points(rows), deleted) == [] <==> AllMarked(deleted)
  {
    var ps := Points(rows);
    var r := ValidPoints(ps, deleted);
    if r != [] {
      assert r[0] in r;
    }
    forall i | 0 <= i < |deleted| && !deleted[i]
      ensures ps[i] in r
    {
    }
  }

  /** Fewer rows than positions cannot account for a mark on each. */
  lemma HeldLeavesOne(rows: seq<Row>, deleted: seq<bool>)
    requires |rows| < |deleted| && MarksHeld(rows, deleted)
    ensures !AllMarked(deleted)
  {
    if AllMarked(deleted) {
      var at := seq(|deleted|, i requires 0 <= i < |deleted| => PlaceOf(rows, i + 1));
      forall i | 0 <= i < |at|
        ensures at[i] < |rows| && rows[at[i]].rowid == i + 1
      {
        assert deleted[i];
      }
      DistinctFit(at, |rows|);
    }
  }

  ghost function PlaceOf(rows: seq<Row>, id: int): (j: nat)
    ensures HasId(rows, id) ==> j < |rows| && rows[j].rowid == id
  {
    if HasId(rows, id) then var j :| 0 <= j < |rows| && rows[j].rowid == id; j else 0
  }

  lemma HeldAfterAdd(rows: seq<Row>, row: Row, deleted: seq<bool>)
    requires MarksHeld(rows, deleted)
    ensures MarksHeld(rows + [row], deleted)
  {
    forall i: nat | i < |deleted| && deleted[i]
      ensures HasId(rows + [row], i + 1)
    {
      var j :| 0 <= j < |rows| && rows[j].rowid == i + 1;
      assert (rows + [row])[j].rowid == i + 1;
    }
  }

  class IVF {
    const nlist: nat
    const nprobe: nat
    const dim: nat
    const dist: Metric
    const centroids: array<Point>
    const lists: array<seq<Row>>
    const caps: array<nat>
    const deleted: array<bool>
    var train: seq<Row>
    var trained: bool

    ghost predicate Shape() {
      && 0 < nlist == centroids.Length == lists.Length == caps.Length
      && deleted.Length == TRAIN_CAP
    }

    ghost predicate Valid()
      reads this, centroids, lists, caps
    {
      && Shape()
      && |train| <= TRAIN_CAP
      && (forall i :: 0 <= i < |train| ==> |train[i].point| == dim)
      && (forall c :: 0 <= c < nlist ==> |lists[c]| <= caps[c] && caps[c] > 0)
      && (trained ==> AllOf(centroids[..], dim))
      && (!trained ==> forall c :: 0 <= c < nlist ==> lists[c] == [] && caps[c] == LIST_CAP)
    }

    ghost function Stored(): multiset<Row>
      reads this, lists
    {
      Total(lists[..])
    }

    constructor (nlist: nat, nprobe: nat, dim: nat, dist: Metric)
      requires nlist > 0 && nprobe > 0 && dim > 0
      ensures Valid() && !trained && train == [] && Stored() == multiset{}
      ensures this.nlist == nlist && this.nprobe == nprobe && this.dim == dim && this.dist == dist
      ensures fresh(centroids) && fresh(lists) && fresh(caps) && fresh(deleted)
      ensures forall i :: 0 <= i < deleted.Length ==> !deleted[i]
    {
      this.nlist, this.nprobe, this.dim, this.dist := nlist, nprobe, dim, dist;
      centroids := new Point[nlist](_ => []);
      lists := new seq<Row>[nlist](_ => []);
      caps := new nat[nlist](_ => LIST_CAP);
      deleted := new bool[TRAIN_CAP](_ => false);
      train, trained := [], false;
      new;
      EmptyTotal(lists[..]);
    }

    /** `ivf_add_vector` with `invlist_append`: a full list doubles its capacity. */
    method AddVector(row: Row)
      requires Valid() && trained
      modifies lists, caps
      ensures Valid() && Stored() == old(Stored()) + multiset{row}
      ensures var c := Closest(row.point, centroids[..], dist, nlist);
        && lists[..] == Appended(old(lists[..]), c, row)
        && caps[..] == if |old(lists[c])| >= old(caps[c]) then old(caps[..])[c := 2 * old(caps[c])] else old(caps[..])
      ensures old(Placed(lists[..], centroids[..], dist)) ==> Placed(lists[..], centroids[..], dist)
    {
      hide Total, Placed, Closest;
      ghost var before, was := lists[..], caps[..];
      var best := FindClosest(row.point, centroids[..], dist);
      if |lists[best]| >= caps[best] {
        caps[best] := caps[best] * 2;
        assert caps[..] == was[best := 2 * was[best]];
      }
      lists[best] := lists[best] + [row];
      assert lists[..] == before[best := before[best] + [row]];
      AppendTotal(before, best, row);
      if Placed(before, centroids[..], dist) {
        PlacedAppend(before, centroids[..], dist, best, row);
      }
    }

    /** `ivf_add_to_train`. */
    method AddToTrain(row: Row) returns (rc: Status)
      requires Valid() && !trained && |row.point| == dim
      modifies this`train
      ensures Valid()
      ensures rc == if |old(train)| >= TRAIN_CAP then Full else Ok
      ensures train == if rc == Ok then old(train) + [row] else old(train)
    {
      if |train| >= TRAIN_CAP {
        return Full;
      }
      train := train + [row];
      return Ok;
    }

    /** What a successful training on the rows leaves: trained centroids and every row in the list of a closest one. */
    ghost predicate HoldsTrained(rows: seq<Row>)
      requires Shape() && |rows| <= TRAIN_CAP
      reads this, centroids, lists, caps, deleted
    {
      && trained && train == [] && TrainedOn(rows, deleted[..], centroids[..], dim, dist)
      && lists[..] == Flushed(rows, centroids[..], dist) && GrownTo(lists[..], caps[..])
    }

    /**
     `ivf_train_and_flush`: on success every buffered row, marked deleted or not, is in exactly
     one list, the one of a closest centroid.
     */
    method TrainAndFlush(rnd: (nat, nat) -> nat) returns (rc: Status)
      requires Valid() && !trained
      modifies this, centroids, lists, caps
      ensures Valid()
      ensures rc == if ValidPoints(Points(old(train)), deleted[..]) != [] then Ok else Error
      ensures rc == Ok ==> HoldsTrained(old(train)) && Stored() == multiset(old(train))
      ensures rc == Ok ==> Placed(lists[..], centroids[..], dist)
      ensures rc != Ok ==>
        !trained && train == old(train) && lists[..] == old(lists[..]) && centroids[..] == old(centroids[..])
    {
      hide Total, Closest, ValidPoints, IsRun, Flushed, GrownTo;
      ghost var trace;
      var ok;
      ghost var rows := train;
      EmptyTotal(lists[..]);
      ok, trace := Train(Points(train), deleted[..], centroids, ITERATIONS, dim, dist, rnd);
      if !ok {
        return Error;
      }
      assert TrainedBy(trace, rows, deleted[..], centroids[..], dim, dist);
      trained := true;
      Flush();
      train := [];
      rc := Ok;
    }

    /** The flush loop: adds every buffered row. */
    method Flush()
      requires Valid() && trained && (forall c :: 0 <= c < nlist ==> lists[c] == [] && caps[c] == LIST_CAP)
      modifies lists, caps
      ensures Valid() && Stored() == multiset(train) && Placed(lists[..], centroids[..], dist)
      ensures lists[..] == Flushed(train, centroids[..], dist) && GrownTo(lists[..], caps[..])
    {
      hide Total, Placed, Closest, Flushed, CapAfter, Appended, GrownTo;
      EmptyTotal(lists[..]);
      EmptyPlaced(lists[..], centroids[..], dist);
      FlushedNone(lists[..], caps[..], centroids[..], dist);
      var i := 0;
      while i < |train|
        modifies lists, caps
        invariant 0 <= i <= |train| && Valid()
        invariant Stored() == multiset(train[..i]) && Placed(lists[..], centroids[..], dist)
        invariant lists[..] == Flushed(train[..i], centroids[..], dist)
        invariant GrownTo(lists[..], caps[..])
      {
        ghost var was := lists[..];
        ghost var grown := caps[..];
        AddVector(train[i]);
        assert train[..i + 1] == train[..i] + [train[i]];
        FlushedNext(train, i, centroids[..], dist);
        CapsFollow(was, grown, Closest(train[i].point, centroids[..], dist, nlist), train[i], caps[..]);
        i := i + 1;
      }
      assert train[..i] == train;
    }

    /** The insertion path of the virtual table: buffer until the buffer is full, then train, then add. */
    method Insert(row: Row, rnd: (nat, nat) -> nat) returns (rc: Status)
      requires Valid() && |row.point| == dim && (trained ==> train == [])
      modifies this, centroids, lists, caps
      ensures Valid() && (trained ==> train == [])
      ensures rc == Ok ==> Stored() + multiset(train) == old(Stored() + multiset(train)) + multiset{row}
      ensures old(trained ==> Placed(lists[..], centroids[..], dist)) ==>
        (trained ==> Placed(lists[..], centroids[..], dist))
      ensures old(trained) ==> rc == Ok && trained
      ensures !old(trained) && |old(train)| >= TRAIN_CAP ==> rc == Full && !trained && train == old(train)
      ensures !old(trained) && |old(train)| + 1 < TRAIN_CAP ==> rc == Ok && !trained && train == old(train) + [row]
      ensures !old(trained) && |old(train)| + 1 == TRAIN_CAP ==>
        var rows := old(train) + [row];
        if ValidPoints(Points(rows), deleted[..]) != [] then rc == Ok && HoldsTrained(rows)
        else rc == Error && !trained && train == rows
      ensures rc != Ok ==> lists[..] == old(lists[..]) && centroids[..] == old(centroids[..])
      ensures rc == Error <==> !old(trained) && |old(train)| + 1 == TRAIN_CAP && AllMarked(deleted[..])
      ensures !old(trained) && old(MarksHeld(train, deleted[..])) ==>
        rc != Error && (!trained ==> MarksHeld(train, deleted[..]))
    {
      hide Total, Placed, ValidPoints, IVF.HoldsTrained, Closest, AllMarked, MarksHeld;
      EmptyUntrained();
      if !trained {
        ghost var was := train;
        rc := AddToTrain(row);
        if rc != Ok {
          return;
        }
        if MarksHeld(was, deleted[..]) {
          HeldLeavesOne(was, deleted[..]);
          HeldAfterAdd(was, row, deleted[..]);
        }
        if |train| >= TRAIN_CAP {
          ValidIff(train, deleted[..]);
          rc := TrainAndFlush(rnd);
          if rc == Ok {
            TrainedIsEmpty(old(train) + [row]);
          }
        }
      } else {
        AddVector(row);
        rc := Ok;
      }
    }

    lemma TrainedIsEmpty(rows: seq<Row>)
      requires Shape() && |rows| <= TRAIN_CAP && HoldsTrained(rows)
      ensures trained && train == []
    {
    }

    lemma EmptyUntrained()
      requires Valid()
      ensures !trained ==> Stored() == multiset{}
    {
      if !trained {
        EmptyTotal(lists[..]);
      }
    }

    /** `ivf_delete_vector` before training: marks the position the id would have if ids were counted from 1. */
    method MarkDeleted(rowid: int)
      requires Valid() && !trained && 1 <= rowid <= TRAIN_CAP
      modifies deleted
      ensures Valid() && deleted[..] == old(deleted[..])[rowid - 1 := true]
      ensures old(MarksHeld(train, deleted[..])) && HasId(train, rowid) ==> MarksHeld(train, deleted[..])
    {
      hide HasId;
      deleted[rowid - 1] := true;
    }

    /** `ivf_update_vector_reinsert` before training: overwrites the vector at that position and takes its mark off. */
    method UpdateBuffered(rowid: int, vec: Point)
      requires Valid() && !trained && 1 <= rowid <= TRAIN_CAP && |vec| == dim
      modifies this`train, deleted
      ensures Valid() && deleted[..] == old(deleted[..])[rowid - 1 := false]
      ensures train ==
        if rowid - 1 < |old(train)| then old(train)[rowid - 1 := old(train)[rowid - 1].(point := vec)] else old(train)
    {
      if rowid - 1 < |train| {
        train := train[rowid - 1 := train[rowid - 1].(point := vec)];
      }
      deleted[rowid - 1] := false;
    }

    /** `ivf_delete_vector` once trained: the first entry with the id is overwritten by its list's last entry. */
    method Delete(rowid: int) returns (l: int)
      requires Valid() && trained
      modifies lists
      ensures Valid() && lists[..] == Removed(old(lists[..]), rowid)
      ensures var h := Home(old(lists[..]), rowid, 0); l == if h == nlist then -1 else h
      ensures l == -1 <==> old(Absent(lists[..], rowid))
      ensures l != -1 ==> Stored() + multiset{Victim(old(lists[..]), rowid)} == old(Stored())
      ensures old(Placed(lists[..], centroids[..], dist)) ==> Placed(lists[..], centroids[..], dist)
    {
      hide Total, Placed, FirstIn, Absent;
      ghost var before := lists[..];
      HomelessIsAbsent(before, rowid);
      l := 0;
      while l < nlist
        invariant 0 <= l <= nlist && lists[..] == before
        invariant Home(before, rowid, 0) == Home(before, rowid, l)
      {
        var i := FindRow(lists[l], rowid);
        assert lists[l] == before[l];
        if i < |lists[l]| {
          RemoveAt(l, i);
          return;
        }
        l := l + 1;
      }
      l := -1;
    }

    method RemoveAt(l: nat, i: nat)
      requires Valid() && trained && l < nlist && i < |lists[l]|
      modifies lists
      ensures Valid() && lists[..] == old(lists[..])[l := Overwritten(old(lists[l]), i)]
      ensures Stored() + multiset{old(lists[l][i])} == old(Stored())
      ensures old(Placed(lists[..], centroids[..], dist)) ==> Placed(lists[..], centroids[..], dist)
    {
      hide Total, Placed;
      ghost var before := lists[..];
      var last := |lists[l]| - 1;
      var list := lists[l][i := lists[l][last]];
      lists[l] := list[..last];
      assert list[..last] == Overwritten(before[l], i);
      assert lists[..] == before[l := Overwritten(before[l], i)];
      OverwriteTotal(before, l, i);
      if Placed(before, centroids[..], dist) {
        PlacedOverwrite(before, centroids[..], dist, l, i);
      }
    }

    /**
     `ivf_update_vector_reinsert` once trained. The moved row is written without growing its new list, so it is kept
     exactly when that list, after the removal, has room; otherwise the old entry is gone and nothing is stored for it.
     */
    method Update(rowid: int, vec: Point) returns (rc: Status)
      requires Valid() && trained && |vec| == dim
      modifies lists
      ensures Valid()
      ensures old(Absent(lists[..], rowid)) <==> Home(old(lists[..]), rowid, 0) == nlist
      ensures Home(old(lists[..]), rowid, 0) == nlist ==> rc == Ok && lists[..] == old(lists[..])
      ensures Home(old(lists[..]), rowid, 0) < nlist ==>
        var left, t := Removed(old(lists[..]), rowid), TargetOf(vec, centroids[..], dist);
        && rc == (if |left[t]| < caps[t] then Ok else NoMem)
        && lists[..] == if rc == Ok then Appended(left, t, Row(rowid, vec)) else left
      ensures Home(old(lists[..]), rowid, 0) < nlist ==>
        Stored() + multiset{Victim(old(lists[..]), rowid)} ==
          if rc == Ok then old(Stored()) + multiset{Row(rowid, vec)} else old(Stored())
      ensures !NoneNear(vec, centroids[..], dist, nlist) && old(Placed(lists[..], centroids[..], dist)) ==>
        Placed(lists[..], centroids[..], dist)
    {
      hide Total, Placed, Closest, Absent, Home, FirstIn, Removed, Victim;
      ghost var s0 := Stored();
      ghost var home := Home(lists[..], rowid, 0);
      ghost var gone := if home < nlist then Victim(lists[..], rowid) else Row(rowid, vec);
      HomelessIsAbsent(lists[..], rowid);
      RemovedNone(lists[..], rowid);
      var oldList := Delete(rowid);
      if oldList < 0 {
        rc := Ok;
        return;
      }
      var newList := Relocate(vec);
      ghost var before := lists[..];
      if |lists[newList]| >= caps[newList] {
        rc := NoMem;
      } else {
        lists[newList] := lists[newList] + [Row(rowid, vec)];
        assert lists[..] == before[newList := before[newList] + [Row(rowid, vec)]];
        AppendTotal(before, newList, Row(rowid, vec));
        AddLast(Total(before), multiset{gone}, s0, multiset{}, multiset{Row(rowid, vec)});
        if Placed(before, centroids[..], dist) && newList == Closest(vec, centroids[..], dist, nlist) {
          PlacedAppend(before, centroids[..], dist, newList, Row(rowid, vec));
        }
        rc := Ok;
      }
    }

    /** The list of the closest centroid nearer than `FAR`, or list 0. */
    method Relocate(vec: Point) returns (l: nat)
      requires Valid()
      ensures l == TargetOf(vec, centroids[..], dist)
    {
      l := ClosestWithin(vec, centroids[..], dist);
    }

    /** `ivf_search` on the index. */
    method Search(q: Point, topk: int, nprobeOverride: int, m: RowidMap) returns (res: seq<Hit>)
      requires Valid() && SortedIds(m.rowids)
      ensures topk <= 0 ==> res == []
      ensures topk > 0 ==> exists ids: seq<nat> :: Probes(ids, q, nprobeOverride) && ListsAnswer(ids, q, m, topk, res)
    {
      var n := if nprobeOverride > 0 then nprobeOverride else nprobe;
      ghost var ids;
      res, ids := IVFSearch.Search(centroids[..], lists[..], n, topk, q, m, dist);
      if topk > 0 {
        assert Probes(ids, q, nprobeOverride) && ListsAnswer(ids, q, m, topk, res);
      }
    }

    ghost predicate Probes(ids: seq<nat>, q: Point, nprobeOverride: int)
      reads centroids
      requires Shape()
    {
      IsProbe(Distances(centroids[..], q, dist), if nprobeOverride > 0 then nprobeOverride else nprobe, ids)
    }

    ghost predicate ListsAnswer(ids: seq<nat>, q: Point, m: RowidMap, k: nat, res: seq<Hit>)
      reads lists
      requires Shape()
    {
      Below(ids, nlist) &&
      var hs := Scan(Probed(lists[..], ids), q, m, dist);
      IsTopK(multiset(res), multiset(hs), k) && if |hs| >= k then Ascending(res) else ReadOut(hs, res)
    }
  }

  function Points(rows: seq<Row>): (r: seq<Point>)
    ensures |r| == |rows| && forall i :: 0 <= i < |r| ==> r[i] == rows[i].point
  {
    seq(|rows|, i requires 0 <= i < |rows| => rows[i].point)
  }

  lemma RemovedNone(lists: seq<seq<Row>>, id: int)
    ensures Home(lists, id, 0) == |lists| ==> Removed(lists, id) == lists
  {
  }

  lemma EmptyPlaced(lists: seq<seq<Row>>, cs: seq<Point>, dist: Metric)
    requires |lists| == |cs| && forall c :: 0 <= c < |lists| ==> lists[c] == []
    ensures Placed(lists, cs, dist)
  {
  }

  /** Growing one list by one keeps every capacity what its size calls for. */
  lemma CapsFollow(lists: seq<seq<Row>>, caps: seq<nat>, c: nat, row: Row, caps': seq<nat>)
    requires GrownTo(lists, caps) && c < |lists|
    requires caps' == if |lists[c]| >= caps[c] then caps[c := 2 * caps[c]] else caps
    ensures GrownTo(Appended(lists, c, row), caps')
  {
  }

  lemma FlushedNone(lists: seq<seq<Row>>, caps: seq<nat>, cs: seq<Point>, dist: Metric)
    requires 0 < |cs| == |lists| == |caps| && forall c :: 0 <= c < |cs| ==> lists[c] == [] && caps[c] == LIST_CAP
    ensures lists == Flushed([], cs, dist) && GrownTo(lists, caps)
  {
  }

  lemma FlushedNext(rows: seq<Row>, i: nat, cs: seq<Point>, dist: Metric)
    requires |cs| > 0 && i < |rows|
    ensures Flushed(rows[..i + 1], cs, dist) ==
      Appended(Flushed(rows[..i], cs, dist), Closest(rows[i].point, cs, dist, |cs|), rows[i])
  {
    assert rows[..i + 1][..i] == rows[..i];
  }

  method FindRow(l: seq<Row>, rowid: int) returns (i: nat)
    ensures i == FirstIn(l, rowid, 0)
  {
    i := 0;
    while i < |l| && l[i].rowid != rowid
      invariant 0 <= i <= |l| && FirstIn(l, rowid, 0) == FirstIn(l, rowid, i)
    {
      i := i + 1;
    }
  }
}
