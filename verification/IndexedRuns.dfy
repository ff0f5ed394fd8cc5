/** A whole run of a table with an IVF index: 1024 insertions, and a deletion that fails with the entry gone. */
module IndexedRuns {
  import opened Vectors
  import opened Rows
  import opened IVFIndex
  import opened IVFRuns
  import opened ChunkStore
  import opened IndexedTables

  /** Row 2 is in the second list. */
  lemma RowTwoHome(lists: seq<seq<Row>>)
    requires Laid(lists, TRAIN_CAP)
    ensures Home(lists, 2, 0) == 1
  {
    assert FirstIn(lists[0], 2, 0) == |lists[0]|;
    assert FirstIn(lists[1], 2, 0) == 0;
  }

  /** The table and its index after the first `i` insertions. */
  ghost predicate Filled(t: IndexedTable, dist: Metric, i: nat)
    reads t, t.table, t.ivf, t.ivf.centroids, t.ivf.lists, t.ivf.caps, t.ivf.deleted
  {
    && t.Valid() && InStep(t.table.rows, t.Held()) && (forall r :: r in t.table.rows <==> 1 <= r <= i)
    && t.ivf.nlist == N_LIST && t.ivf.dim == 1 && t.ivf.dist == dist
    && (forall j :: 0 <= j < |t.ivf.deleted[..]| ==> !t.ivf.deleted[..][j])
    && if i < TRAIN_CAP then !t.ivf.trained && t.ivf.train == Buffer(i)
       else i == TRAIN_CAP && t.ivf.HoldsTrained(Buffer(TRAIN_CAP))
  }

  method InsertNext(t: IndexedTable, dist: Metric, i: nat, rnd: (nat, nat) -> nat)
    requires i < TRAIN_CAP && Filled(t, dist, i)
    modifies t.table, t.ivf, t.ivf.centroids, t.ivf.lists, t.ivf.caps
    ensures Filled(t, dist, i + 1)
  {
    hide Buffer, TrainedOn, GrownTo, Flushed, InStep, Total, MarksHeld, StoreOk;
    BufferNext(i);
    NoMarks(t.ivf.train, t.ivf.deleted[..]);
    var _ := t.Insert(i + 1, [], SiteOf(i), rnd);
  }

  /** 1024 insertions leave table and index in step and the index trained on all the rows. */
  method FillTable(dist: Metric, rnd: (nat, nat) -> nat) returns (t: IndexedTable)
    ensures fresh(t) && fresh(t.table) && fresh(t.ivf)
    ensures fresh(t.ivf.lists) && fresh(t.ivf.caps) && fresh(t.ivf.centroids)
    ensures Filled(t, dist, TRAIN_CAP)
  {
    hide Filled;
    t := NewTable(dist);
    var i := 0;
    while i < TRAIN_CAP
      invariant 0 <= i <= TRAIN_CAP && Filled(t, dist, i)
      invariant fresh(t) && fresh(t.table) && fresh(t.ivf)
      invariant fresh(t.ivf.lists) && fresh(t.ivf.caps) && fresh(t.ivf.centroids)
    {
      InsertNext(t, dist, i, rnd);
      i := i + 1;
    }
  }

  method NewTable(dist: Metric) returns (t: IndexedTable)
    ensures fresh(t) && fresh(t.table) && fresh(t.ivf)
    ensures fresh(t.ivf.lists) && fresh(t.ivf.caps) && fresh(t.ivf.centroids)
    ensures Filled(t, dist, 0)
  {
    hide InStep, Total, StoreOk, Buffer;
    t := new IndexedTable(8, 1, dist);
    BufferEmpty();
  }

  /** Row 2 cannot be deleted: the table keeps it, and the index no longer holds it. */
  method DeleteBreaksStep(dist: Metric, rnd: (nat, nat) -> nat) returns (t: IndexedTable, rc: Outcome)
    requires LineGap(dist)
    ensures t.Valid() && t.ivf.trained && rc == Failed(1) && 2 in t.table.rows
    ensures !InStep(t.table.rows, t.Held())
  {
    hide Buffer, Laid, Sites, LineGap, TrainedOn, GrownTo, Flushed, Home, InStep, Total, MarksHeld, StoreOk;
    t := FillTable(dist, rnd);
    TrainedToSites(t.ivf.deleted[..], t.ivf.centroids[..], dist);
    FlushedLaid(TRAIN_CAP, t.ivf.centroids[..], dist);
    RowTwoHome(t.ivf.lists[..]);
    rc := t.Delete(2);
  }

  /** In step before training, with nothing deleted. */
  ghost predicate Early(t: IndexedTable)
    reads t, t.table, t.ivf, t.ivf.centroids, t.ivf.lists, t.ivf.caps, t.ivf.deleted
  {
    && t.Valid() && InStep(t.table.rows, t.Held()) && !t.ivf.trained && t.ivf.dim == 1
    && MarksHeld(t.ivf.train, t.ivf.deleted[..]) && |t.ivf.train| < TRAIN_CAP
  }

  method InsertEarly(t: IndexedTable, id: int, v: Point, rnd: (nat, nat) -> nat)
    requires Early(t) && id !in t.table.rows && |v| == 1 && |t.ivf.train| + 1 < TRAIN_CAP
    modifies t.table, t.ivf, t.ivf.centroids, t.ivf.lists, t.ivf.caps
    ensures Early(t) && t.ivf.train == old(t.ivf.train) + [Row(id, v)]
    ensures t.table.rows == old(t.table.rows)[id := ChunkStore.Entry([], v)]
  {
    hide InStep, Total, StoreOk, MarksHeld, TrainedOn, Flushed, GrownTo;
    var _ := t.Insert(id, [], v, rnd);
  }

  /** A table whose rows were inserted in descending order of id. */
  method Descending(dist: Metric, rnd: (nat, nat) -> nat) returns (t: IndexedTable)
    ensures fresh(t) && fresh(t.table) && fresh(t.ivf) && fresh(t.ivf.deleted)
    ensures Early(t) && t.ivf.train == [Row(2, [0.0]), Row(1, [0.0])]
    ensures 1 in t.table.rows && t.table.rows[1].vector == [0.0]
  {
    hide InStep, Total, StoreOk;
    t := new IndexedTable(8, 1, dist);
    assert Early(t);
    hide Early;
    InsertEarly(t, 2, [0.0], rnd);
    InsertEarly(t, 1, [0.0], rnd);
  }

  /** An update of row 1 before training writes the vector of row 2 in the index. */
  method UpdateHitsOther(dist: Metric, rnd: (nat, nat) -> nat) returns (t: IndexedTable, rc: Outcome)
    ensures t.Valid() && rc == Done && 1 in t.table.rows && t.table.rows[1].vector == [5.0]
    ensures t.ivf.train == [Row(2, [5.0]), Row(1, [0.0])] && !InStep(t.table.rows, t.Held())
  {
    hide InStep, Total, StoreOk;
    t := Descending(dist, rnd);
    rc := t.UpdateEarly(1, [5.0]);
  }

  lemma NoMarks(rows: seq<Row>, deleted: seq<bool>)
    requires forall j :: 0 <= j < |deleted| ==> !deleted[j]
    ensures MarksHeld(rows, deleted)
  {
  }
}
