/** A table with an IVF index beside it: which operations keep the two in step, and what the status says about it. */
module IndexedTables {
  import opened Sequences
  import opened Vectors
  import opened Rows
  import opened TopK
  import opened KMeansRun
  import opened IVFSearch
  import opened IVFIndex
  import opened ChunkStore

  /** The index holds exactly one entry for every row of the table, with its vector. */
  ghost predicate InStep(rows: map<int, ChunkStore.Entry>, held: multiset<Row>) {
    forall r: Row :: held[r] == if r.rowid in rows && rows[r.rowid].vector == r.point then 1 else 0
  }

  /** The entry of a row of the table. */
  function RowOf(rows: map<int, ChunkStore.Entry>, id: int): Row
    requires id in rows
  {
    Row(id, rows[id].vector)
  }

  lemma {:induction false} InSomeList(lists: seq<seq<Row>>, r: Row)
    requires r in Total(lists)
    ensures exists c, i :: 0 <= c < |lists| && 0 <= i < |lists[c]| && lists[c][i] == r
  {
    var n := |lists| - 1;
    if r in multiset(lists[n]) {
      var i :| 0 <= i < |lists[n]| && lists[n][i] == r;
    } else {
      InSomeList(lists[..n], r);
      var c, i :| 0 <= c < n && 0 <= i < |lists[..n][c]| && lists[..n][c][i] == r;
      assert lists[c][i] == r;
    }
  }

  lemma {:induction false} ListedIsHeld(lists: seq<seq<Row>>, c: nat, i: nat)
    requires c < |lists| && i < |lists[c]|
    ensures lists[c][i] in Total(lists)
  {
    var n := |lists| - 1;
    if c < n {
      ListedIsHeld(lists[..n], c, i);
    } else {
      assert lists[c][i] in multiset(lists[c]);
    }
  }

  /** In step, a row of the table is in some list and a deletion would take out exactly its entry. */
  lemma VictimIsRow(rows: map<int, ChunkStore.Entry>, lists: seq<seq<Row>>, id: int)
    requires InStep(rows, Total(lists))
    ensures Home(lists, id, 0) < |lists| <==> id in rows
    ensures id in rows ==> Victim(lists, id) == RowOf(rows, id)
  {
    hide Home, FirstIn, Total, Victim;
    HomelessIsAbsent(lists, id);
    if id in rows {
      assert Total(lists)[RowOf(rows, id)] == 1;
      InSomeList(lists, RowOf(rows, id));
    }
    if Home(lists, id, 0) < |lists| {
      VictimListed(lists, id);
      assert Total(lists)[Victim(lists, id)] > 0;
    }
  }

  lemma VictimListed(lists: seq<seq<Row>>, id: int)
    requires Home(lists, id, 0) < |lists|
    ensures Victim(lists, id) in Total(lists) && Victim(lists, id).rowid == id
  {
    var h := Home(lists, id, 0);
    ListedIsHeld(lists, h, FirstIn(lists[h], id, 0));
  }

  lemma StepAfterDelete(rows: map<int, ChunkStore.Entry>, held: multiset<Row>, id: int, held': multiset<Row>)
    requires InStep(rows, held) && id in rows && held' + multiset{RowOf(rows, id)} == held
    ensures InStep(rows - {id}, held') && !InStep(rows, held')
  {
    forall r: Row
      ensures held'[r] == if r.rowid in rows - {id} && rows[r.rowid].vector == r.point then 1 else 0
    {
      assert held'[r] == held[r] - multiset{RowOf(rows, id)}[r];
    }
    assert held'[RowOf(rows, id)] == 0;
  }

  lemma StepAfterInsert(rows: map<int, ChunkStore.Entry>, held: multiset<Row>, id: int, e: ChunkStore.Entry)
    requires InStep(rows, held) && id !in rows
    ensures InStep(rows[id := e], held + multiset{Row(id, e.vector)})
  {
  }

  lemma StepAfterMove(rows: map<int, ChunkStore.Entry>, held: multiset<Row>, id: int, v: Point, held': multiset<Row>)
    requires InStep(rows, held) && id in rows
    requires held' + multiset{RowOf(rows, id)} == held + multiset{Row(id, v)}
    ensures InStep(rows[id := rows[id].(vector := v)], held')
  {
    var rows' := rows[id := rows[id].(vector := v)];
    forall r: Row
      ensures held'[r] == if r.rowid in rows' && rows'[r.rowid].vector == r.point then 1 else 0
    {
      assert (held' + multiset{RowOf(rows, id)})[r] == (held + multiset{Row(id, v)})[r];
      assert held'[r] + multiset{RowOf(rows, id)}[r] == held[r] + multiset{Row(id, v)}[r];
    }
  }

  lemma StepAfterLoss(rows: map<int, ChunkStore.Entry>, held: multiset<Row>, id: int, v: Point, held': multiset<Row>)
    requires InStep(rows, held) && id in rows && held' + multiset{RowOf(rows, id)} == held
    ensures !InStep(rows[id := rows[id].(vector := v)], held')
  {
    var rows' := rows[id := rows[id].(vector := v)];
    var r := Row(id, v);
    assert held'[r] == held[r] - multiset{RowOf(rows, id)}[r];
    assert held'[r] == 0;
    assert rows'[id].vector == v;
  }

  /** `Failed` carries whatever the index call returned, which the caller takes for an error code. */
  datatype Outcome = Done | Absent | Failed(code: int)

  class IndexedTable {
    const table: VecTable
    const ivf: IVF

    ghost predicate Valid()
      reads this, table, ivf, ivf.centroids, ivf.lists, ivf.caps
    {
      table.Valid() && ivf.Valid() && (ivf.trained ==> ivf.train == [])
    }

    /** The entries of the index, buffered ones included. */
    ghost function Held(): multiset<Row>
      reads this, ivf, ivf.lists
    {
      ivf.Stored() + multiset(ivf.train)
    }

    constructor (chunkSize: nat, dim: nat, dist: Metric)
      requires chunkSize > 0 && chunkSize % 8 == 0 && dim > 0
      ensures Valid() && InStep(table.rows, Held()) && table.rows == map[]
      ensures !ivf.trained && ivf.train == [] && ivf.nlist == N_LIST && ivf.dim == dim && ivf.dist == dist
      ensures forall i :: 0 <= i < ivf.deleted.Length ==> !ivf.deleted[i]
      ensures fresh(table) && fresh(ivf) && fresh(ivf.centroids) && fresh(ivf.lists) && fresh(ivf.caps)
      ensures fresh(ivf.deleted)
    {
      table := new VecTable(chunkSize);
      ivf := new IVF(N_LIST, N_PROBE, dim, dist);
    }

    /** An insertion writes the row and hands its vector to the index; nothing else can go wrong in the index. */
    method Insert(rowid: int, key: Key, v: Point, rnd: (nat, nat) -> nat) returns (rc: Outcome)
      requires Valid() && |v| == ivf.dim
      requires !ivf.trained ==> MarksHeld(ivf.train, ivf.deleted[..]) && |ivf.train| < TRAIN_CAP
      modifies table, ivf, ivf.centroids, ivf.lists, ivf.caps
      ensures Valid() && (!ivf.trained ==> MarksHeld(ivf.train, ivf.deleted[..]) && |ivf.train| < TRAIN_CAP)
      ensures rc == if rowid in old(table.rows) then Failed(CONSTRAINT) else Done
      ensures rc == Done ==> table.rows == old(table.rows)[rowid := ChunkStore.Entry(key, v)]
      ensures rc != Done ==> table.rows == old(table.rows) && Held() == old(Held())
      ensures rc == Done && !old(ivf.trained) ==>
        var train := old(ivf.train) + [Row(rowid, v)];
        if |train| < TRAIN_CAP then !ivf.trained && ivf.train == train else ivf.HoldsTrained(train)
      ensures old(InStep(table.rows, Held())) ==> InStep(table.rows, Held())
    {
      hide Total, MarksHeld, InStep, StoreOk, TrainedOn, Flushed, GrownTo, Placed, ValidPoints, AllMarked;
      var status := table.Insert(rowid, key, v);
      if status != ChunkStore.Ok {
        return Failed(CONSTRAINT);
      }
      var _ := ivf.Insert(Row(rowid, v), rnd);
      if old(InStep(table.rows, Held())) {
        StepAfterInsert(old(table.rows), old(Held()), rowid, ChunkStore.Entry(key, v));
      }
      rc := Done;
    }

    /** The rollback of a failed statement: the table's tables are restored, the index in memory is not. */
    method RollBack(chunks: seq<Chunk>, positions: map<int, Position>, ghost rows: map<int, ChunkStore.Entry>)
      requires table.size > 0 && table.size % 8 == 0 && StoreOk(chunks, positions, rows, table.size)
      modifies table
      ensures table.Valid() && table.rows == rows && table.chunks == chunks && table.positions == positions
    {
      table.chunks, table.positions, table.rows := chunks, positions, rows;
    }

    /**
     * A deletion clears the row and then calls the index, except for rowid 0. The list number the index returns is
     * taken for a status, so that a row in any list but the first is reported as an error with its entry already gone.
     */
    method Delete(rowid: int) returns (rc: Outcome)
      requires Valid() && ivf.trained
      modifies table, ivf.lists
      ensures Valid() && ivf.trained
      ensures rowid !in old(table.rows) ==> rc == Absent && Held() == old(Held())
      ensures rowid in old(table.rows) ==>
        var h := Home(old(ivf.lists[..]), rowid, 0);
        rc == if rowid == 0 || h == 0 then Done else Failed(if h == ivf.nlist then -1 else h)
      ensures table.rows == if rc.Failed? then old(table.rows) else old(table.rows) - {rowid}
      ensures old(InStep(table.rows, Held())) ==>
        (InStep(table.rows, Held()) <==>
          rowid !in old(table.rows) || (rowid != 0 && Home(old(ivf.lists[..]), rowid, 0) == 0))
    {
      hide Total, InStep, StoreOk, Home, Removed, Victim, Placed, IVFIndex.Absent;
      ghost var rows, held, lists := table.rows, Held(), ivf.lists[..];
      var chunks, positions := table.chunks, table.positions;
      HeldIsTotal();
      if InStep(rows, held) {
        VictimIsRow(rows, lists, rowid);
      }
      var status := table.Delete(rowid);
      if status != ChunkStore.Ok {
        assert rows - {rowid} == rows;
        return Absent;
      }
      rc := Done;
      if rowid != 0 {
        var l := ivf.Delete(rowid);
        HeldIsTotal();
        if InStep(rows, held) {
          StepAfterDelete(rows, held, rowid, Held());
        }
        if l != 0 {
          RollBack(chunks, positions, rows);
          rc := Failed(l);
        }
      } else if InStep(rows, held) {
        Leftover(rows, held, rowid);
      }
    }

    /** Before training the index only sets a mark and returns -2, so that every deletion fails and is rolled back. */
    method DeleteEarly(rowid: int) returns (rc: Outcome)
      requires Valid() && !ivf.trained && InStep(table.rows, Held()) && MarksHeld(ivf.train, ivf.deleted[..])
      requires rowid in table.rows && rowid != 0 ==> 1 <= rowid <= TRAIN_CAP
      modifies table, ivf.deleted
      ensures Valid() && !ivf.trained && ivf.train == old(ivf.train) && MarksHeld(ivf.train, ivf.deleted[..])
      ensures rc == if rowid !in old(table.rows) then Absent else if rowid == 0 then Done else Failed(-2)
      ensures table.rows == if rc.Failed? then old(table.rows) else old(table.rows) - {rowid}
      ensures InStep(table.rows, Held()) <==> rowid !in old(table.rows) || rowid != 0
    {
      hide Total, InStep, StoreOk, MarksHeld;
      ghost var rows, held := table.rows, Held();
      var chunks, positions := table.chunks, table.positions;
      ivf.EmptyUntrained();
      assert held == multiset(ivf.train);
      var status := table.Delete(rowid);
      if status != ChunkStore.Ok {
        assert rows - {rowid} == rows;
        return Absent;
      }
      if rowid == 0 {
        Leftover(rows, held, rowid);
        return Done;
      }
      BufferedId(rows, ivf.train, rowid);
      ivf.MarkDeleted(rowid);
      RollBack(chunks, positions, rows);
      rc := Failed(-2);
    }

    /** Before training an update writes the buffer at position `rowid - 1`, whichever row is there. */
    method UpdateEarly(rowid: int, v: Point) returns (rc: Outcome)
      requires Valid() && !ivf.trained && InStep(table.rows, Held()) && |v| == ivf.dim
      requires rowid in table.rows ==> 1 <= rowid <= TRAIN_CAP
      modifies table, ivf`train, ivf.deleted
      ensures Valid() && !ivf.trained
      ensures rc == if rowid in old(table.rows) then Done else Absent
      ensures rc == Done ==> table.rows == old(table.rows)[rowid := old(table.rows)[rowid].(vector := v)]
      ensures rc == Done ==> ivf.train == Rewritten(old(ivf.train), rowid - 1, v)
      ensures rc != Done ==> table.rows == old(table.rows) && ivf.train == old(ivf.train)
      ensures InStep(table.rows, Held()) <==> rc != Done || Fits(old(table.rows), old(ivf.train), rowid, v)
    {
      hide Total, InStep, StoreOk, Fits;
      ghost var rows, train := table.rows, ivf.train;
      ivf.EmptyUntrained();
      assert Held() == multiset(train);
      var status := table.UpdateVector(rowid, v);
      if status != ChunkStore.Ok {
        return Absent;
      }
      RewrittenStep(rows, train, rowid, v);
      ivf.UpdateBuffered(rowid, v);
      ivf.EmptyUntrained();
      assert Held() == multiset(ivf.train);
      rc := Done;
    }

    lemma HeldIsTotal()
      requires Valid() && ivf.trained
      ensures Held() == Total(ivf.lists[..])
    {
    }

    /** An update writes the vector and moves the entry; the status of the move is not looked at. */
    method UpdateVector(rowid: int, v: Point) returns (rc: Outcome)
      requires Valid() && ivf.trained && |v| == ivf.dim
      modifies table, ivf.lists
      ensures Valid() && ivf.trained
      ensures rc == if rowid in old(table.rows) then Done else Absent
      ensures rc == Done ==> table.rows == old(table.rows)[rowid := old(table.rows)[rowid].(vector := v)]
      ensures rc != Done ==> table.rows == old(table.rows) && Held() == old(Held())
      ensures old(InStep(table.rows, Held())) && rc == Done ==>
        var left, t := Removed(old(ivf.lists[..]), rowid), TargetOf(v, ivf.centroids[..], ivf.dist);
        InStep(table.rows, Held()) <==> |left[t]| < ivf.caps[t]
    {
      hide Total, InStep, StoreOk, Home, Removed, Victim, Placed, TargetOf, IVFIndex.Absent;
      ghost var rows, held, lists := table.rows, Held(), ivf.lists[..];
      HeldIsTotal();
      if InStep(rows, held) {
        VictimIsRow(rows, lists, rowid);
      }
      var status := table.UpdateVector(rowid, v);
      if status != ChunkStore.Ok {
        return Absent;
      }
      var moved := ivf.Update(rowid, v);
      HeldIsTotal();
      if InStep(rows, held) {
        if moved == IVFIndex.Ok {
          StepAfterMove(rows, held, rowid, v, Held());
        } else {
          StepAfterLoss(rows, held, rowid, v, Held());
        }
      }
      rc := Done;
    }

    /** In step, a search that probes every list answers for the rows of the table. */
    method SearchAll(q: Point, topk: nat, nprobe: nat, m: RowidMap) returns (res: seq<Hit>)
      requires Valid() && ivf.trained && SortedIds(m.rowids) && InStep(table.rows, Held()) && nprobe >= ivf.nlist
      requires topk > 0
      ensures IsTopK(multiset(res), TableHits(table.rows, q, m, ivf.dist), topk)
      ensures |TableHits(table.rows, q, m, ivf.dist)| >= topk ==> Ascending(res)
    {
      hide Total, InStep, StoreOk, IsTopK, Ascending, IsProbe, Scan, TableHits, Placed;
      HeldIsTotal();
      res := ivf.Search(q, topk, nprobe, m);
      ghost var ids: seq<nat> :| ivf.Probes(ids, q, nprobe) && ivf.ListsAnswer(ids, q, m, topk, res);
      ProbeAllIsScan(ivf.lists[..], Distances(ivf.centroids[..], q, ivf.dist), nprobe, ids, q, m, ivf.dist);
      TotalIsAllRows(ivf.lists[..]);
      ScanIsTable(table.rows, AllRows(ivf.lists[..]), q, m, ivf.dist);
      assert |multiset(Scan(Probed(ivf.lists[..], ids), q, m, ivf.dist))| ==
        |Scan(Probed(ivf.lists[..], ids), q, m, ivf.dist)|;
    }
  }

  const CONSTRAINT: int := 19

  /** The buffer with another vector at a position, if it has it. */
  function Rewritten(train: seq<Row>, j: nat, v: Point): seq<Row> {
    if j < |train| then train[j := train[j].(point := v)] else train
  }

  /** The row is the one at its own position, or the vector changes neither it nor the row that is there. */
  ghost predicate Fits(rows: map<int, ChunkStore.Entry>, train: seq<Row>, id: int, v: Point)
    requires id in rows && id >= 1
  {
    if id <= |train| && train[id - 1].rowid == id then true
    else rows[id].vector == v && (id <= |train| ==> train[id - 1].point == v)
  }

  lemma RewrittenStep(rows: map<int, ChunkStore.Entry>, train: seq<Row>, id: int, v: Point)
    requires InStep(rows, multiset(train)) && id in rows && id >= 1
    ensures InStep(rows[id := rows[id].(vector := v)], multiset(Rewritten(train, id - 1, v))) <==>
      Fits(rows, train, id, v)
  {
    hide InStep, Rewritten;
    if Fits(rows, train, id, v) {
      RewrittenFits(rows, train, id, v);
    } else {
      RewrittenMisfits(rows, train, id, v);
    }
  }

  lemma RewrittenFits(rows: map<int, ChunkStore.Entry>, train: seq<Row>, id: int, v: Point)
    requires InStep(rows, multiset(train)) && id in rows && id >= 1 && Fits(rows, train, id, v)
    ensures InStep(rows[id := rows[id].(vector := v)], multiset(Rewritten(train, id - 1, v)))
  {
    hide InStep;
    var j := id - 1;
    if j < |train| && train[j].rowid == id {
      EntryOnce(rows, train, j);
      StepAfterMove(rows, multiset(train), id, v, multiset(Rewritten(train, j, v)));
    } else {
      assert Rewritten(train, j, v) == train && rows[id := rows[id].(vector := v)] == rows;
    }
  }

  lemma RewrittenMisfits(rows: map<int, ChunkStore.Entry>, train: seq<Row>, id: int, v: Point)
    requires InStep(rows, multiset(train)) && id in rows && id >= 1 && !Fits(rows, train, id, v)
    ensures !InStep(rows[id := rows[id].(vector := v)], multiset(Rewritten(train, id - 1, v)))
  {
    var j, bag := id - 1, multiset(Rewritten(train, id - 1, v));
    var lost := if rows[id].vector != v then Row(id, v) else train[j];
    assert bag[lost] == 0 by {
      if j < |train| {
        EntryOnce(rows, train, j);
      }
      assert rows[id].vector != v ==> multiset(train)[lost] == 0;
    }
    assert rows[id := rows[id].(vector := v)][lost.rowid].vector == lost.point;
  }

  /** In step, an entry is its row's and occurs once, so that rewriting it takes it out. */
  lemma EntryOnce(rows: map<int, ChunkStore.Entry>, train: seq<Row>, j: nat)
    requires InStep(rows, multiset(train)) && j < |train|
    ensures var x := train[j]; x.rowid in rows && x == RowOf(rows, x.rowid) && multiset(train)[x] == 1
    ensures forall x :: multiset(train[j := x]) == multiset(train) - multiset{train[j]} + multiset{x}
  {
    assert train[j] in multiset(train);
  }

  lemma BufferedId(rows: map<int, ChunkStore.Entry>, train: seq<Row>, id: int)
    requires InStep(rows, multiset(train)) && id in rows
    ensures HasId(train, id)
  {
    assert multiset(train)[RowOf(rows, id)] == 1;
    var j :| 0 <= j < |train| && train[j] == RowOf(rows, id);
  }

  /** An entry left behind for a row that is gone. */
  lemma Leftover(rows: map<int, ChunkStore.Entry>, held: multiset<Row>, id: int)
    requires InStep(rows, held) && id in rows
    ensures !InStep(rows - {id}, held)
  {
    assert held[RowOf(rows, id)] == 1;
  }

  // ----- what a scan of an index in step finds

  /** One hit for every row of the table that passes the filter. */
  ghost function TableHits(rows: map<int, ChunkStore.Entry>, q: Point, m: RowidMap, dist: Metric): multiset<Hit> {
    multiset(set id | id in rows && Passes(m, id) :: Hit(id, dist(q, rows[id].vector)))
  }

  ghost predicate Agrees(rows: map<int, ChunkStore.Entry>, s: seq<Row>) {
    forall r: Row :: multiset(s)[r] <= if r.rowid in rows && rows[r.rowid].vector == r.point then 1 else 0
  }

  /** The hits of entries that agree with the table: each passing row once, if it is there. */
  lemma {:induction false} ScanCount(rows: map<int, ChunkStore.Entry>, s: seq<Row>, q: Point, m: RowidMap, dist: Metric,
                                     h: Hit)
    requires Agrees(rows, s)
    ensures multiset(Scan(s, q, m, dist))[h] ==
      if h.rowid in rows && RowOf(rows, h.rowid) in s && Passes(m, h.rowid) && h.dist == dist(q, rows[h.rowid].vector)
        then 1 else 0
  {
    hide Scan;
    if s == [] {
      ScanNone(q, m, dist);
    } else {
      var n := |s| - 1;
      LastBag(s);
      forall r: Row
        ensures multiset(s[..n])[r] <= multiset(s)[r]
      {
      }
      ScanCount(rows, s[..n], q, m, dist, h);
      assert s == s[..n] + [s[n]];
      ScanConcat(s[..n], [s[n]], q, m, dist);
      ScanSingle(s[n], q, m, dist);
      LastAgrees(rows, s);
      assert h.rowid in rows ==>
        (RowOf(rows, h.rowid) in s <==> RowOf(rows, h.rowid) in s[..n] || RowOf(rows, h.rowid) == s[n]);
    }
  }

  /** The last entry is its row's and occurs nowhere before. */
  lemma LastAgrees(rows: map<int, ChunkStore.Entry>, s: seq<Row>)
    requires s != [] && Agrees(rows, s)
    ensures var x := s[|s| - 1]; x.rowid in rows && x == RowOf(rows, x.rowid) && x !in s[..|s| - 1]
  {
    var n := |s| - 1;
    LastBag(s);
    assert multiset(s)[s[n]] == multiset(s[..n])[s[n]] + 1;
    assert s[n] !in multiset(s[..n]);
  }

  lemma ScanIsTable(rows: map<int, ChunkStore.Entry>, s: seq<Row>, q: Point, m: RowidMap, dist: Metric)
    requires InStep(rows, multiset(s))
    ensures multiset(Scan(s, q, m, dist)) == TableHits(rows, q, m, dist)
  {
    hide Scan;
    forall h: Hit
      ensures multiset(Scan(s, q, m, dist))[h] == TableHits(rows, q, m, dist)[h]
    {
      ScanCount(rows, s, q, m, dist, h);
      if h.rowid in rows {
        assert multiset(s)[RowOf(rows, h.rowid)] == 1;
        assert RowOf(rows, h.rowid) in s;
      }
    }
  }
}
