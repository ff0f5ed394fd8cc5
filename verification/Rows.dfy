/** Stored vectors, the rowid filter of a query, and the scan every index search is compared with. */
module Rows {
  import opened Sequences
  import opened Vectors
  import opened TopK

  /** A stored vector. */
  datatype Row = Row(rowid: int, point: Point)

  /** The rowids a query may return; without `preFilter` every row may be returned. */
  datatype RowidMap = RowidMap(rowids: seq<int>, preFilter: bool)

  predicate Passes(m: RowidMap, id: int) { !m.preFilter || id in m.rowids }

  function HitOf(q: Point, dist: Metric, row: Row): Hit { Hit(row.rowid, dist(q, row.point)) }

  /** The filter-passing rows as hits, in order. */
  function Scan(rows: seq<Row>, q: Point, m: RowidMap, dist: Metric): seq<Hit> {
    if rows == [] then []
    else (if Passes(m, rows[0].rowid) then [HitOf(q, dist, rows[0])] else []) + Scan(rows[1..], q, m, dist)
  }

  lemma {:induction false} ScanConcat(a: seq<Row>, b: seq<Row>, q: Point, m: RowidMap, dist: Metric)
    ensures Scan(a + b, q, m, dist) == Scan(a, q, m, dist) + Scan(b, q, m, dist)
  {
    if a == [] {
      assert a + b == b;
    } else {
      ScanConcat(a[1..], b, q, m, dist);
      assert (a + b)[1..] == a[1..] + b;
      Reassociate(if Passes(m, a[0].rowid) then [HitOf(q, dist, a[0])] else [], Scan(a[1..], q, m, dist),
        Scan(b, q, m, dist));
    }
  }

  /** What one row contributes to a scan. */
  ghost function ScanOne(q: Point, m: RowidMap, dist: Metric): Row -> multiset<Hit> {
    (r: Row) => if Passes(m, r.rowid) then multiset{HitOf(q, dist, r)} else multiset{}
  }

  lemma {:induction false} ScanIsGather(rows: seq<Row>, q: Point, m: RowidMap, dist: Metric)
    ensures multiset(Scan(rows, q, m, dist)) == Gather(rows, ScanOne(q, m, dist))
  {
    hide Scan, ScanOne;
    if rows == [] {
      ScanNone(q, m, dist);
    } else {
      var n := |rows| - 1;
      ScanIsGather(rows[..n], q, m, dist);
      assert rows == rows[..n] + [rows[n]];
      ScanConcat(rows[..n], [rows[n]], q, m, dist);
      ScanSingle(rows[n], q, m, dist);
    }
  }

  lemma ScanNone(q: Point, m: RowidMap, dist: Metric)
    ensures Scan([], q, m, dist) == []
  {
  }

  lemma ScanSingle(row: Row, q: Point, m: RowidMap, dist: Metric)
    ensures multiset(Scan([row], q, m, dist)) == ScanOne(q, m, dist)(row)
  {
    assert [row][1..] == [];
    assert Scan([row], q, m, dist) ==
      (if Passes(m, row.rowid) then [HitOf(q, dist, row)] else []) + Scan([], q, m, dist);
  }

  /** What a scan finds does not depend on the order of the rows. */
  lemma ScanPermuted(a: seq<Row>, b: seq<Row>, q: Point, m: RowidMap, dist: Metric)
    requires multiset(a) == multiset(b)
    ensures multiset(Scan(a, q, m, dist)) == multiset(Scan(b, q, m, dist))
  {
    ScanIsGather(a, q, m, dist);
    ScanIsGather(b, q, m, dist);
    GatherPermuted(a, b, ScanOne(q, m, dist));
  }

  function Zip(ids: seq<int>, ds: seq<real>): (r: seq<Hit>)
    requires |ids| == |ds|
    ensures |r| == |ids| && forall i :: 0 <= i < |r| ==> r[i] == Hit(ids[i], ds[i])
  {
    seq(|ids|, i requires 0 <= i < |ids| => Hit(ids[i], ds[i]))
  }

  ghost predicate SortedIds(ids: seq<int>) {
    forall i, j :: 0 <= i < j < |ids| ==> ids[i] <= ids[j]
  }

  /** `bsearch` over the filter's sorted rowids. */
  method Contains(ids: seq<int>, id: int) returns (b: bool)
    requires SortedIds(ids)
    ensures b == (id in ids)
  {
    var lo, hi := 0, |ids|;
    while lo < hi
      invariant 0 <= lo <= hi <= |ids|
      invariant forall i :: 0 <= i < lo ==> ids[i] < id
      invariant forall i :: hi <= i < |ids| ==> ids[i] > id
    {
      var mid := (lo + hi) / 2;
      if ids[mid] < id {
        lo := mid + 1;
      } else if ids[mid] > id {
        hi := mid;
      } else {
        return true;
      }
    }
    return false;
  }
}
