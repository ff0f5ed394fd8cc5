/** Whole runs of an index as the virtual table creates it: 1024 insertions that train it, and their losses. */
module IVFRuns {
  import opened Reals
  import opened Vectors
  import opened Rows
  import opened KMeans
  import opened KMeansRun
  import opened IVFIndex

  /** A buffer's worth of rows of the given dimension. */
  ghost predicate FillsBuffer(rows: seq<Row>, dim: nat) {
    |rows| == TRAIN_CAP && forall i :: 0 <= i < |rows| ==> |rows[i].point| == dim
  }

  /** A new index that has been given a buffer's worth of rows is trained on them and holds them all. */
  method Fill(rows: seq<Row>, dim: nat, dist: Metric, rnd: (nat, nat) -> nat) returns (ivf: IVF)
    requires dim > 0 && FillsBuffer(rows, dim)
    ensures fresh(ivf) && fresh(ivf.centroids) && fresh(ivf.lists) && fresh(ivf.caps) && fresh(ivf.deleted)
    ensures ivf.Valid() && ivf.nlist == N_LIST && ivf.dim == dim && ivf.dist == dist && ivf.HoldsTrained(rows)
    ensures ivf.Stored() == multiset(rows) && forall j :: 0 <= j < ivf.deleted.Length ==> !ivf.deleted[j]
  {
    hide TrainedOn, GrownTo, ValidPoints, Placed, Total, Flushed, Closest;
    ivf := new IVF(N_LIST, N_PROBE, dim, dist);
    var i := 0;
    assert rows[..0] == [];
    while i < TRAIN_CAP
      invariant 0 <= i <= TRAIN_CAP && ivf.Valid() && ivf.nlist == N_LIST && ivf.dim == dim && ivf.dist == dist
      invariant fresh(ivf) && fresh(ivf.lists) && fresh(ivf.caps) && fresh(ivf.centroids) && fresh(ivf.deleted)
      invariant forall j :: 0 <= j < ivf.deleted.Length ==> !ivf.deleted[j]
      invariant i < TRAIN_CAP ==> !ivf.trained && ivf.train == rows[..i]
      invariant i == TRAIN_CAP ==> ivf.HoldsTrained(rows)
    {
      assert rows[..i] + [rows[i]] == rows[..i + 1];
      assert !AllMarked(ivf.deleted[..]) by { assert !ivf.deleted[..][0]; }
      var _ := ivf.Insert(rows[i], rnd);
      i := i + 1;
      assert i == TRAIN_CAP ==> rows[..i] == rows;
    }
    FlushedTotal(rows, ivf.centroids[..], dist);
  }

  // ----- an update into a full list

  /** Rows 2 to 129 lie at 10, all others at 0. */
  function SiteOf(j: nat): Point { if 1 <= j <= LIST_CAP then [10.0] else [0.0] }

  function Buffer(n: nat): (rows: seq<Row>)
    ensures |rows| == n && forall j :: 0 <= j < n ==> rows[j] == Row(j + 1, SiteOf(j))
  {
    seq(n, j requires 0 <= j < n => Row(j + 1, SiteOf(j)))
  }

  /** The first two centroids are the two sites and every other one is at one of them. */
  ghost predicate Sites(cs: seq<Point>) {
    && |cs| == N_LIST && cs[0] == [0.0] && cs[1] == [10.0]
    && forall c :: 0 <= c < |cs| ==> cs[c] == [0.0] || cs[c] == [10.0]
  }

  // ----- training finds the two sites

  lemma {:induction false} AllValid(vecs: seq<Point>, deleted: seq<bool>)
    requires |vecs| <= |deleted| && forall i :: 0 <= i < |vecs| ==> !deleted[i]
    ensures ValidPoints(vecs, deleted) == vecs
  {
    if vecs != [] {
      var n := |vecs| - 1;
      AllValid(vecs[..n], deleted);
      assert vecs == vecs[..n] + [vecs[n]];
    }
  }

  ghost predicate AtSites(ps: seq<Point>) {
    |ps| >= 2 && ps[0] == [0.0] && ps[1] == [10.0] && forall i :: 0 <= i < |ps| ==> ps[i] == [0.0] || ps[i] == [10.0]
  }

  /** The first centroid at a point's site is the closest. */
  lemma {:induction false} ClosestSite(p: Point, cs: seq<Point>, dist: Metric, n: nat)
    requires (p == [0.0] || p == [10.0]) && Sites(cs) && 2 <= n <= |cs| && LineGap(dist)
    ensures Closest(p, cs, dist, n) == if p == [10.0] then 1 else 0
  {
    assert dist(p, cs[n - 1]) == Abs(p[0] - cs[n - 1][0]) && dist(p, cs[0]) == Abs(p[0]);
    assert dist(p, cs[1]) == Abs(p[0] - 10.0);
    if n == 2 {
      assert Closest(p, cs, dist, 1) == 0;
      assert p == [10.0] ==> p[0] == 10.0;
    } else {
      ClosestSite(p, cs, dist, n - 1);
      assert p == [10.0] ==> p[0] == 10.0;
    }
  }

  /** The coordinate of a site. */
  function At(c: nat): real { if c == 1 then 10.0 else 0.0 }

  /** An iteration that starts from the sites stays there, wherever empty clusters are put. */
  lemma SitesStay(ps: seq<Point>, cs: seq<Point>, s: Snapshot, dist: Metric)
    requires LineGap(dist) && AtSites(ps) && Sites(cs) && IsIteration(ps, cs, s, 1, dist)
    ensures Sites(s.cents)
  {
    hide Closest, Count, Sum;
    forall i | 0 <= i < |ps|
      ensures s.labels[i] == if ps[i] == [10.0] then 1 else 0
    {
      ClosestSite(ps[i], cs, dist, |cs|);
    }
    SiteStays(ps, s, 0);
    SiteStays(ps, s, 1);
    forall c: nat | 2 <= c < |cs|
      ensures s.cents[c] in ps
    {
      CountNone(s.labels, c, |ps|);
      assert MovedAt(ps, s.labels, c, s.cents[c], 1);
    }
  }

  lemma SiteStays(ps: seq<Point>, s: Snapshot, c: nat)
    requires AtSites(ps) && c < 2 && AllOf(ps, 1) && |s.labels| == |ps| && |s.cents| >= 2 && AllOf(s.cents, 1)
    requires forall i :: 0 <= i < |ps| ==> s.labels[i] == if ps[i] == [10.0] then 1 else 0
    requires MovedAt(ps, s.labels, c, s.cents[c], 1)
    ensures s.cents[c] == [At(c)]
  {
    hide Count, Sum;
    assert s.labels[0] == 0 && s.labels[1] == 1;
    CountHas(s.labels, c, |ps|, c);
    forall i | 0 <= i < |ps| && s.labels[i] == c
      ensures ps[i][0] == At(c)
    {
    }
    SumOfConstant(ps, s.labels, c, 0, 1, |ps|, At(c));
    TimesCancel(Count(s.labels, c, |ps|), s.cents[c][0], At(c));
  }

  lemma {:induction false} RunStays(ps: seq<Point>, seed: seq<Point>, trace: seq<Snapshot>, dist: Metric, i: nat)
    requires LineGap(dist) && AtSites(ps) && Sites(seed) && IsRun(ps, seed, trace, 1, dist) && i < |trace|
    ensures Sites(trace[i].cents)
  {
    hide IsIteration, AtSites, Sites;
    if i > 0 {
      RunStays(ps, seed, trace, dist, i - 1);
    }
    assert IterationAt(ps, seed, trace, 1, dist, i);
    SitesStay(ps, Before(seed, trace, i), trace[i], dist);
  }

  /** Training on the buffer keeps the two sites. */
  lemma TrainedToSites(deleted: seq<bool>, cs: seq<Point>, dist: Metric)
    requires LineGap(dist) && |deleted| == TRAIN_CAP && (forall i :: 0 <= i < |deleted| ==> !deleted[i])
    requires |cs| == N_LIST
    requires TrainedOn(Buffer(TRAIN_CAP), deleted, cs, 1, dist)
    ensures Sites(cs)
  {
    hide IsRun;
    var rows := Buffer(TRAIN_CAP);
    var ps := Points(rows);
    var trace :| TrainedBy(trace, rows, deleted, cs, 1, dist);
    AllValid(ps, deleted);
    assert Sites(Seed(ps, |cs|)) by { SeedAtSites(ps); }
    RunStays(ps, Seed(ps, |cs|), trace, dist, ITERATIONS - 1);
  }

  lemma SeedAtSites(ps: seq<Point>)
    requires AtSites(ps)
    ensures Sites(Seed(ps, N_LIST))
  {
  }

  // ----- where the rows end up

  /** Row 1 is first in the first list and nowhere else; the second holds those at 10, row 2 first, the others none. */
  ghost predicate Laid(lists: seq<seq<Row>>, n: nat) {
    && |lists| == N_LIST && (forall c :: 2 <= c < |lists| ==> lists[c] == [])
    && lists[0] != [] && lists[0][0] == Row(1, [0.0])
    && (forall i :: 1 <= i < |lists[0]| ==> lists[0][i].rowid > 1)
    && (forall i :: 0 <= i < |lists[1]| ==> lists[1][i].rowid > 1)
    && (forall i :: 0 <= i < |lists[0]| ==> lists[0][i].rowid != 2)
    && (n > 1 ==> lists[1] != [] && lists[1][0].rowid == 2)
    && |lists[1]| == if n <= LIST_CAP + 1 then n - 1 else LIST_CAP
  }

  lemma {:induction false} FlushedLaid(n: nat, cs: seq<Point>, dist: Metric)
    requires LineGap(dist) && n >= 1 && Sites(cs)
    ensures Laid(Flushed(Buffer(n), cs, dist), n)
  {
    hide Closest;
    var rows := Buffer(n);
    assert rows[..n - 1] == Buffer(n - 1);
    ClosestSite(rows[n - 1].point, cs, dist, |cs|);
    if n == 1 {
      assert rows[..0] == [];
    } else {
      FlushedLaid(n - 1, cs, dist);
    }
  }

  lemma RowOneIsFirst(lists: seq<seq<Row>>, n: nat)
    requires Laid(lists, n)
    ensures Home(lists, 1, 0) == 0 && FirstIn(lists[0], 1, 0) == 0 && Victim(lists, 1) == Row(1, [0.0])
    ensures Removed(lists, 1)[1] == lists[1] && Absent(Removed(lists, 1), 1)
  {
    assert FirstIn(lists[0], 1, 0) == 0;
    var left: seq<seq<Row>> := Removed(lists, 1);
    assert left == lists[0 := Overwritten(lists[0], 0)];
    forall c, i | 0 <= c < |left| && 0 <= i < |left[c]|
      ensures left[c][i].rowid != 1
    {
      if c == 0 {
        assert left[0][i] == if i == 0 && |lists[0]| > 1 then lists[0][|lists[0]| - 1] else lists[0][i];
      }
    }
  }

  /** The update's target, and that it is full. */
  lemma TenIsFull(lists: seq<seq<Row>>, caps: seq<nat>, cs: seq<Point>, dist: Metric)
    requires LineGap(dist) && Laid(lists, TRAIN_CAP) && GrownTo(lists, caps) && Sites(cs)
    ensures TargetOf([10.0], cs, dist) == 1 && |lists[1]| == caps[1] == LIST_CAP
  {
    ClosestSite([10.0], cs, dist, |cs|);
    assert !NoneNear([10.0], cs, dist, |cs|) by { TenIsNear(cs, dist); }
    CapOfSmall(LIST_CAP);
  }

  lemma TenIsNear(cs: seq<Point>, dist: Metric)
    requires LineGap(dist) && Sites(cs)
    ensures !NoneNear([10.0], cs, dist, |cs|)
  {
    assert dist([10.0], cs[1]) == 0.0;
  }

  /** The run: all 1024 rows inserted, row 1 moved to 10, refused and gone. */
  method UpdateLosesRow(dist: Metric, rnd: (nat, nat) -> nat) returns (ivf: IVF, rc: Status)
    requires LineGap(dist)
    ensures ivf.Valid() && ivf.trained && rc == NoMem
    ensures Absent(ivf.lists[..], 1) && ivf.Stored() + multiset{Row(1, [0.0])} == multiset(Buffer(TRAIN_CAP))
  {
    hide Flushed, Laid, Sites, LineGap, TrainedOn, GrownTo, Placed, Total, Home, Removed, Victim, Absent;
    ivf := Fill(Buffer(TRAIN_CAP), 1, dist, rnd);
    TrainedToSites(ivf.deleted[..], ivf.centroids[..], dist);
    FlushedLaid(TRAIN_CAP, ivf.centroids[..], dist);
    RowOneIsFirst(ivf.lists[..], TRAIN_CAP);
    TenIsFull(ivf.lists[..], ivf.caps[..], ivf.centroids[..], dist);
    rc := ivf.Update(1, [10.0]);
  }

  // ----- deletions before training

  /**
   * Marks on all 1024 positions, which only direct calls can set before the rows are there, make the training that the
   * last insertion starts fail; the row it reports as an error has been buffered.
   */
  method TrainingFails(dist: Metric, rnd: (nat, nat) -> nat) returns (ivf: IVF, rc: Status)
    ensures rc == Error && ivf.Valid() && !ivf.trained && ivf.train == Buffer(TRAIN_CAP)
  {
    hide ValidPoints, Placed, Total, Flushed, Closest, Buffer, MarksHeld;
    ivf := new IVF(N_LIST, N_PROBE, 1, dist);
    var i := 0;
    while i < TRAIN_CAP
      invariant 0 <= i <= TRAIN_CAP && ivf.Valid() && !ivf.trained && ivf.train == [] && ivf.dim == 1
      invariant fresh(ivf) && fresh(ivf.lists) && fresh(ivf.caps) && fresh(ivf.centroids) && fresh(ivf.deleted)
      invariant forall j :: 0 <= j < i ==> ivf.deleted[..][j]
    {
      ghost var was := ivf.deleted[..];
      ivf.MarkDeleted(i + 1);
      assert ivf.deleted[..] == was[i := true];
      i := i + 1;
    }
    assert AllMarked(ivf.deleted[..]);
    i := 0;
    BufferEmpty();
    rc := Ok;
    while i < TRAIN_CAP
      invariant 0 <= i <= TRAIN_CAP && ivf.Valid() && !ivf.trained && ivf.train == Buffer(i) && ivf.dim == 1
      invariant fresh(ivf) && fresh(ivf.lists) && fresh(ivf.caps) && fresh(ivf.centroids)
      invariant AllMarked(ivf.deleted[..]) && (i == TRAIN_CAP ==> rc == Error)
    {
      BufferNext(i);
      rc := ivf.Insert(Row(i + 1, SiteOf(i)), rnd);
      i := i + 1;
    }
  }

  /** A row that is inserted, deleted before training and buried under 1023 others is back in the lists afterwards. */
  method DeletedReturns(dist: Metric, rnd: (nat, nat) -> nat) returns (ivf: IVF)
    ensures ivf.Valid() && ivf.trained && Row(1, SiteOf(0)) in ivf.Stored()
  {
    hide ValidPoints, Placed, Total, Flushed, Closest, Buffer, TrainedOn, GrownTo;
    ivf := new IVF(N_LIST, N_PROBE, 1, dist);
    BufferEmpty();
    BufferNext(0);
    var _ := ivf.Insert(Row(1, SiteOf(0)), rnd);
    ivf.MarkDeleted(1);
    var i := 1;
    while i < TRAIN_CAP
      invariant 1 <= i <= TRAIN_CAP && ivf.Valid() && ivf.dim == 1 && ivf.dist == dist
      invariant fresh(ivf) && fresh(ivf.lists) && fresh(ivf.caps) && fresh(ivf.centroids)
      invariant !ivf.deleted[..][1]
      invariant i < TRAIN_CAP ==> !ivf.trained && ivf.train == Buffer(i)
      invariant i == TRAIN_CAP ==> ivf.HoldsTrained(Buffer(TRAIN_CAP))
    {
      BufferNext(i);
      assert !AllMarked(ivf.deleted[..]);
      var _ := ivf.Insert(Row(i + 1, SiteOf(i)), rnd);
      i := i + 1;
    }
    FlushedTotal(Buffer(TRAIN_CAP), ivf.centroids[..], dist);
    BufferHas();
  }

  lemma BufferHas()
    ensures Row(1, SiteOf(0)) in multiset(Buffer(TRAIN_CAP)) && |Buffer(TRAIN_CAP)| == TRAIN_CAP
  {
    assert Buffer(TRAIN_CAP)[0] == Row(1, SiteOf(0));
  }

  lemma BufferEmpty()
    ensures Buffer(0) == []
  {
  }

  lemma BufferNext(i: nat)
    ensures Buffer(i + 1) == Buffer(i) + [Row(i + 1, SiteOf(i))] && |Buffer(i)| == i && |SiteOf(i)| == 1
  {
  }

  lemma {:induction false} FlushedTotal(rows: seq<Row>, cs: seq<Point>, dist: Metric)
    requires |cs| > 0
    ensures Total(Flushed(rows, cs, dist)) == multiset(rows)
  {
    hide Total, Closest;
    if rows == [] {
      EmptyTotal(Flushed(rows, cs, dist));
    } else {
      var n := |rows| - 1;
      FlushedTotal(rows[..n], cs, dist);
      AppendTotal(Flushed(rows[..n], cs, dist), Closest(rows[n].point, cs, dist, |cs|), rows[n]);
      assert rows == rows[..n] + [rows[n]];
    }
  }
}
