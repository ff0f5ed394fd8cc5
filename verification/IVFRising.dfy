/** Rows on which the L1 training of the index itself, 32 centroids over 1024 rows, raises its cost. */
module IVFRising {
  import opened Reals
  import opened Vectors
  import opened Rows
  import opened KMeans
  import opened KMeansRun
  import opened KMeansMetrics
  import opened IVFIndex
  import opened IVFRuns

  /**
   * Kinds 0 to 4 are the five points of the small example, 198 copies each. Kinds 5 to 34 are 30 points far from
   * everything else, which seed the other centroids; the first four of them come twice.
   */
  function KindOf(i: nat): nat {
    if i < 2 then i else if i < 32 then i + 3 else if i < 1020 then (i - 30) % 5 else i - 1015
  }

  function XOf(k: nat): real { if k < 5 then X(k) else 1000.0 * (k - 3) as real }

  function YOf(k: nat): real { if k < 5 then Y(k) else 0.0 }

  function PointOf(i: nat, dims: nat): Point
    requires dims >= 2
  {
    Plane(XOf(KindOf(i)), YOf(KindOf(i)), dims)
  }

  function Input(dims: nat): (rows: seq<Row>)
    requires dims >= 2
    ensures |rows| == TRAIN_CAP && forall i :: 0 <= i < TRAIN_CAP ==> rows[i] == Row(i + 1, PointOf(i, dims))
  {
    seq(TRAIN_CAP, i requires 0 <= i < TRAIN_CAP => Row(i + 1, PointOf(i, dims)))
  }

  ghost function Vecs(dims: nat): (ps: seq<Point>)
    requires dims >= 2
    ensures |ps| == TRAIN_CAP && AllOf(ps, dims) && forall i :: 0 <= i < TRAIN_CAP ==> ps[i] == PointOf(i, dims)
  {
    Points(Input(dims))
  }

  lemma KindRange(i: nat)
    requires i < TRAIN_CAP
    ensures KindOf(i) < 35
  {
  }

  // ----- how many of each kind

  ghost function Kinds(k: nat, n: nat): nat {
    if n == 0 then 0 else Kinds(k, n - 1) + if KindOf(n - 1) == k then 1 else 0
  }

  lemma {:induction false} KindsUpTo(k: nat, n: nat)
    requires k < 5 && n <= 32
    ensures Kinds(k, n) == if k < 2 && k < n then 1 else 0
  {
    if n > 0 {
      KindsUpTo(k, n - 1);
    }
  }

  lemma KindInCycle(m: nat, j: nat)
    requires 32 + 5 * m + j < 1020 && j < 5
    ensures KindOf(32 + 5 * m + j) == (2 + j) % 5
  {
    assert 32 + 5 * m + j - 30 == 5 * m + (2 + j);
    assert (5 * m + (2 + j)) % 5 == (2 + j) % 5;
  }

  lemma {:induction false} KindsCycle(k: nat, m: nat)
    requires k < 5 && 32 + 5 * m <= 1020
    ensures Kinds(k, 32 + 5 * m) == m + if k < 2 then 1 else 0
  {
    hide KindOf, Kinds;
    if m == 0 {
      KindsUpTo(k, 32);
    } else {
      KindsCycle(k, m - 1);
      var n := 32 + 5 * (m - 1);
      KindInCycle(m - 1, 0);
      KindInCycle(m - 1, 1);
      KindInCycle(m - 1, 2);
      KindInCycle(m - 1, 3);
      KindInCycle(m - 1, 4);
      FiveMore(k, n);
    }
  }

  lemma FiveMore(k: nat, n: nat)
    ensures Kinds(k, n + 5) == Kinds(k, n) + One(KindOf(n) == k) + One(KindOf(n + 1) == k) + One(KindOf(n + 2) == k) +
                               One(KindOf(n + 3) == k) + One(KindOf(n + 4) == k)
  {
    assert Kinds(k, n + 1) == Kinds(k, n) + One(KindOf(n) == k);
    assert Kinds(k, n + 2) == Kinds(k, n + 1) + One(KindOf(n + 1) == k);
    assert Kinds(k, n + 3) == Kinds(k, n + 2) + One(KindOf(n + 2) == k);
    assert Kinds(k, n + 4) == Kinds(k, n + 3) + One(KindOf(n + 3) == k);
  }

  const COPIES: nat := 198

  lemma KindsTotal(k: nat)
    requires k < 5
    ensures Kinds(k, TRAIN_CAP) == COPIES
  {
    KindsCycle(k, 197);
    FiveMore(k, 1017);
    assert KindOf(1017) == 2 && KindOf(1018) == 3 && KindOf(1019) == 4;
    assert Kinds(k, 1024) == Kinds(k, 1023) + One(KindOf(1023) == k);
    assert Kinds(k, 1023) == Kinds(k, 1022) + One(KindOf(1022) == k);
  }

  // ----- sums over kinds

  /** The label of a kind: one of two for the five points, its own for a far point. */
  function LabelOf(labels: seq<nat>, k: nat): nat
    requires |labels| == 5
  {
    if k < 5 then labels[k] else k - 3
  }

  /** Contributions of the kinds whose label is `c`, each as often as it occurs below `n`. */
  ghost function Weighted(labels: seq<nat>, c: nat, f: nat -> real, n: nat): real
    requires |labels| == 5
  {
    Part(labels[0] == c, Times(Kinds(0, n), f(0))) + Part(labels[1] == c, Times(Kinds(1, n), f(1))) +
    Part(labels[2] == c, Times(Kinds(2, n), f(2))) + Part(labels[3] == c, Times(Kinds(3, n), f(3))) +
    Part(labels[4] == c, Times(Kinds(4, n), f(4)))
  }

  lemma WeightedNone(labels: seq<nat>, c: nat, f: nat -> real)
    requires |labels| == 5
    ensures Weighted(labels, c, f, 0) == 0.0
  {
  }

  lemma WeightedNext(labels: seq<nat>, c: nat, f: nat -> real, n: nat)
    requires |labels| == 5 && c < 2
    ensures Weighted(labels, c, f, n + 1) ==
      Weighted(labels, c, f, n) + Part(LabelOf(labels, KindOf(n)) == c, f(KindOf(n)))
  {
    hide Times, KindOf;
    var k := KindOf(n);
    if k < 5 {
      TimesNext(Kinds(k, n), f(k));
    }
  }

  /** The labels of a snapshot follow the kinds. */
  ghost predicate ByKind(s: Snapshot, labels: seq<nat>) {
    && |labels| == 5 && |s.labels| == TRAIN_CAP
    && forall i :: 0 <= i < TRAIN_CAP ==> s.labels[i] == LabelOf(labels, KindOf(i))
  }

  lemma {:induction false} SumByKind(dims: nat, s: Snapshot, labels: seq<nat>, c: nat, d: nat, n: nat)
    requires dims >= 2 && ByKind(s, labels) && c < 2 && d < 2 && n <= TRAIN_CAP
    ensures Sum(Vecs(dims), s.labels, c, d, dims, n) == Weighted(labels, c, if d == 0 then XOf else YOf, n)
  {
    hide Weighted, KindOf, XOf, YOf, LabelOf, Vecs;
    var f := if d == 0 then XOf else YOf;
    if n == 0 {
      WeightedNone(labels, c, f);
    } else {
      SumByKind(dims, s, labels, c, d, n - 1);
      WeightedNext(labels, c, f, n - 1);
    }
  }

  function Unit(k: nat): real { 1.0 }

  lemma {:induction false} CountByKind(s: Snapshot, labels: seq<nat>, c: nat, n: nat)
    requires ByKind(s, labels) && c < 2 && n <= TRAIN_CAP
    ensures Count(s.labels, c, n) as real == Weighted(labels, c, Unit, n)
  {
    hide Weighted, KindOf, LabelOf;
    if n == 0 {
      WeightedNone(labels, c, Unit);
    } else {
      CountByKind(s, labels, c, n - 1);
      WeightedNext(labels, c, Unit, n - 1);
    }
  }

  /** Over the whole input every kind of the five weighs the same. */
  lemma WeightedAll(labels: seq<nat>, c: nat, f: nat -> real)
    requires |labels| == 5
    ensures Weighted(labels, c, f, TRAIN_CAP) == Times(COPIES, PlaneSum(labels, c, f))
  {
    hide Kinds;
    KindsTotal(0);
    KindsTotal(1);
    KindsTotal(2);
    KindsTotal(3);
    KindsTotal(4);
  }

  // ----- one iteration

  /** Two centroids in the plane and the far points' own. */
  ghost predicate Sited(cs: seq<Point>, a: real, b: real, u: real, v: real, dims: nat)
    requires dims >= 2
  {
    && |cs| == N_LIST && cs[..2] == Pair(a, b, u, v, dims)
    && forall c: nat :: 2 <= c < N_LIST ==> cs[c] == Plane(XOf(c + 3), 0.0, dims)
  }

  /** The first two centroids are near the five points. */
  predicate Nearby(a: real, b: real) { 0.0 <= a <= 6.0 && 0.0 <= b <= 6.0 }

  lemma FarAway(dist: Metric, dims: nat, x: real, y: real, c: nat)
    requires dims >= 2 && IsL1(dist) && Nearby(x, y) && 2 <= c < N_LIST
    ensures dist(Plane(x, y, dims), Plane(XOf(c + 3), 0.0, dims)) > 1000.0
    ensures dist(Plane(XOf(c + 3), 0.0, dims), Plane(x, y, dims)) > 1000.0
  {
    PlaneDist(dims, x, y, XOf(c + 3), 0.0);
    PlaneDist(dims, XOf(c + 3), 0.0, x, y);
  }

  lemma CloseBy(dist: Metric, dims: nat, x: real, y: real, a: real, b: real)
    requires dims >= 2 && IsL1(dist) && Nearby(x, y) && Nearby(a, b)
    ensures dist(Plane(x, y, dims), Plane(a, b, dims)) <= 12.0
  {
    PlaneDist(dims, x, y, a, b);
  }

  /** A point near the plane's centroids ignores the far ones. */
  lemma {:induction false} PlaneStays(dist: Metric, dims: nat, x: real, y: real, cs: seq<Point>, a: real, b: real,
                                      u: real, v: real, n: nat)
    requires dims >= 2 && IsL1(dist) && Sited(cs, a, b, u, v, dims) && Nearby(a, b) && Nearby(u, v) && Nearby(x, y)
    requires 2 <= n <= N_LIST
    ensures Closest(Plane(x, y, dims), cs, dist, n) == Closest(Plane(x, y, dims), cs, dist, 2)
  {
    hide IsL1, Plane, Pair, XOf;
    if n > 2 {
      PlaneStays(dist, dims, x, y, cs, a, b, u, v, n - 1);
      FarAway(dist, dims, x, y, n - 1);
      assert cs[0] == cs[..2][0] && cs[1] == cs[..2][1];
      assert cs[0] == Plane(a, b, dims) by { PairFirst(a, b, u, v, dims); }
      CloseBy(dist, dims, x, y, a, b);
    }
  }

  lemma PairFirst(a: real, b: real, u: real, v: real, dims: nat)
    requires dims >= 2
    ensures Pair(a, b, u, v, dims)[0] == Plane(a, b, dims) && Pair(a, b, u, v, dims)[1] == Plane(u, v, dims)
  {
  }

  lemma FarGap(dist: Metric, dims: nat, c: nat, e: nat)
    requires dims >= 2 && IsL1(dist) && 2 <= c < N_LIST && 2 <= e < N_LIST
    ensures var g := dist(Plane(XOf(c + 3), 0.0, dims), Plane(XOf(e + 3), 0.0, dims));
      if c == e then g == 0.0 else g > 0.0
  {
    PlaneDist(dims, XOf(c + 3), 0.0, XOf(e + 3), 0.0);
  }

  /** A far point keeps to its own centroid. */
  lemma {:induction false} FarStays(dist: Metric, dims: nat, c: nat, cs: seq<Point>, a: real, b: real, u: real, v: real,
                                    n: nat)
    requires dims >= 2 && IsL1(dist) && Sited(cs, a, b, u, v, dims) && Nearby(a, b) && Nearby(u, v)
    requires 2 <= c < n <= N_LIST
    ensures Closest(Plane(XOf(c + 3), 0.0, dims), cs, dist, n) == c
  {
    hide IsL1, Plane, Pair, XOf;
    var p := Plane(XOf(c + 3), 0.0, dims);
    FarGap(dist, dims, c, n - 1);
    FarGap(dist, dims, c, c);
    if c < n - 1 {
      FarStays(dist, dims, c, cs, a, b, u, v, n - 1);
    } else {
      var e := Closest(p, cs, dist, n - 1);
      assert cs[0] == cs[..2][0] && cs[1] == cs[..2][1];
      PairFirst(a, b, u, v, dims);
      if e < 2 {
        FarAway(dist, dims, a, b, c);
        FarAway(dist, dims, u, v, c);
      } else {
        FarGap(dist, dims, c, e);
      }
    }
  }

  /** The labels an iteration from sited centroids must give. */
  lemma LabelsByKind(dist: Metric, dims: nat, cs: seq<Point>, a: real, b: real, u: real, v: real, s: Snapshot,
                     labels: seq<nat>)
    requires dims >= 2 && IsL1(dist) && Sited(cs, a, b, u, v, dims) && Nearby(a, b) && Nearby(u, v)
    requires PrefersAll(a, b, u, v, labels) && |s.labels| == TRAIN_CAP
    requires AssignedClosest(Vecs(dims), s.labels, cs, dist)
    ensures ByKind(s, labels)
  {
    hide IsL1, Plane, Pair, Closest, Sited;
    forall i | 0 <= i < TRAIN_CAP
      ensures s.labels[i] == LabelOf(labels, KindOf(i))
    {
      var k := KindOf(i);
      KindRange(i);
      assert s.labels[i] == Closest(Vecs(dims)[i], cs, dist, N_LIST) by { SitedCount(cs, a, b, u, v, dims); }
      if k < 5 {
        PlaneStays(dist, dims, X(k), Y(k), cs, a, b, u, v, N_LIST);
        SitedCount(cs, a, b, u, v, dims);
        PlaneClosest(dist, dims, X(k), Y(k), cs, a, b, u, v, labels[k]);
      } else {
        FarStays(dist, dims, k - 3, cs, a, b, u, v, N_LIST);
      }
    }
  }

  lemma SitedCount(cs: seq<Point>, a: real, b: real, u: real, v: real, dims: nat)
    requires dims >= 2 && Sited(cs, a, b, u, v, dims)
    ensures |cs| == N_LIST && cs[..2] == Pair(a, b, u, v, dims)
  {
  }

  /** A used centroid is where its mean is. */
  lemma MeanAtPlane(dims: nat, s: Snapshot, labels: seq<nat>, c: nat, m: Point, x: real, y: real, k: nat)
    requires dims >= 2 && ByKind(s, labels) && c < 2 && MovedAt(Vecs(dims), s.labels, c, m, dims)
    requires |s.labels| == TRAIN_CAP && |labels| == 5 && k > 0 && PlaneSum(labels, c, Unit) == k as real
    requires Times(k, x) == PlaneSum(labels, c, X) && Times(k, y) == PlaneSum(labels, c, Y)
    ensures m == Plane(x, y, dims)
  {
    hide Count, Sum, PlaneSum, Times, Vecs, ByKind, Weighted, XOf, YOf, X, Y;
    var n := Count(s.labels, c, TRAIN_CAP);
    CountByKind(s, labels, c, TRAIN_CAP);
    WeightedAll(labels, c, Unit);
    CountIs(n, k);
    forall d | 0 <= d < dims
      ensures m[d] == Plane(x, y, dims)[d]
    {
      TimesIs(n, m[d]);
      if d < 2 {
        var f := if d == 0 then XOf else YOf;
        SumByKind(dims, s, labels, c, d, TRAIN_CAP);
        WeightedAll(labels, c, f);
        SameOnPlane(labels, c);
        Scaled(n, k, m[d], if d == 0 then x else y);
      } else {
        FlatSum(dims, s.labels, c, d);
        TimesCancel(n, m[d], 0.0);
      }
    }
  }

  /** Beyond the plane all coordinates are zero. */
  lemma FlatSum(dims: nat, labels: seq<nat>, c: nat, d: nat)
    requires 2 <= d < dims && |labels| == TRAIN_CAP
    ensures Sum(Vecs(dims), labels, c, d, dims, TRAIN_CAP) == Times(Count(labels, c, TRAIN_CAP), 0.0)
  {
    hide Sum, Count, Times;
    SumOfConstant(Vecs(dims), labels, c, d, dims, TRAIN_CAP, 0.0);
  }

  lemma CountIs(n: nat, k: nat)
    requires n as real == Times(COPIES, k as real)
    ensures n == COPIES * k
  {
  }

  lemma Scaled(n: nat, k: nat, m: real, x: real)
    requires k > 0 && n == COPIES * k && Times(n, m) == Times(COPIES, Times(k, x))
    ensures m == x
  {
    assert Times(n, m) == Times(n, x);
    TimesCancel(n, m, x);
  }

  lemma SameOnPlane(labels: seq<nat>, c: nat)
    requires |labels| == 5
    ensures PlaneSum(labels, c, XOf) == PlaneSum(labels, c, X) && PlaneSum(labels, c, YOf) == PlaneSum(labels, c, Y)
  {
  }

  /** A far centroid stays where it is. */
  lemma FarMean(dims: nat, s: Snapshot, labels: seq<nat>, c: nat, m: Point)
    requires dims >= 2 && ByKind(s, labels) && (forall k :: 0 <= k < 5 ==> labels[k] < 2)
    requires 2 <= c < N_LIST && MovedAt(Vecs(dims), s.labels, c, m, dims)
    ensures m == Plane(XOf(c + 3), 0.0, dims)
  {
    hide Count, Sum, Times, Vecs, XOf;
    assert KindOf(c) == c + 3;
    CountHas(s.labels, c, TRAIN_CAP, c);
    var n := Count(s.labels, c, TRAIN_CAP);
    forall i | 0 <= i < TRAIN_CAP && s.labels[i] == c
      ensures KindOf(i) == c + 3
    {
    }
    forall d | 0 <= d < dims
      ensures m[d] == Plane(XOf(c + 3), 0.0, dims)[d]
    {
      TimesIs(n, m[d]);
      SumOfConstant(Vecs(dims), s.labels, c, d, dims, TRAIN_CAP, Plane(XOf(c + 3), 0.0, dims)[d]);
      TimesCancel(n, m[d], Plane(XOf(c + 3), 0.0, dims)[d]);
    }
  }

  /** What an iteration from sited centroids leaves. */
  lemma IterationBySites(dist: Metric, dims: nat, cs: seq<Point>, a: real, b: real, u: real, v: real, s: Snapshot,
                         labels: seq<nat>)
    requires dims >= 2 && IsL1(dist) && Sited(cs, a, b, u, v, dims) && Nearby(a, b) && Nearby(u, v)
    requires PrefersAll(a, b, u, v, labels) && IsIteration(Vecs(dims), cs, s, dims, dist)
    ensures ByKind(s, labels) && |s.cents| == N_LIST && |s.labels| == TRAIN_CAP && |labels| == 5
    ensures forall c: nat :: c < 2 ==> MovedAt(Vecs(dims), s.labels, c, s.cents[c], dims)
    ensures forall c: nat :: 2 <= c < N_LIST ==> s.cents[c] == Plane(XOf(c + 3), 0.0, dims)
  {
    hide Sited, MovedAt, ByKind, XOf, Plane;
    SitedCount(cs, a, b, u, v, dims);
    LabelsByKind(dist, dims, cs, a, b, u, v, s, labels);
    forall c: nat | 2 <= c < N_LIST
      ensures s.cents[c] == Plane(XOf(c + 3), 0.0, dims)
    {
      FarMean(dims, s, labels, c, s.cents[c]);
    }
  }

  lemma SitedFrom(cs: seq<Point>, a: real, b: real, u: real, v: real, dims: nat)
    requires dims >= 2 && |cs| == N_LIST && cs[0] == Plane(a, b, dims) && cs[1] == Plane(u, v, dims)
    requires forall c: nat :: 2 <= c < N_LIST ==> cs[c] == Plane(XOf(c + 3), 0.0, dims)
    ensures Sited(cs, a, b, u, v, dims)
  {
    assert cs[..2] == Pair(a, b, u, v, dims);
  }

  lemma SeedSited(dims: nat)
    requires dims >= 2
    ensures Sited(Seed(Vecs(dims), N_LIST), 1.0, 4.0, 4.0, 6.0, dims)
  {
    var cs := Seed(Vecs(dims), N_LIST);
    assert forall c :: 0 <= c < N_LIST ==> cs[c] == PointOf(c, dims);
    SitedFrom(cs, 1.0, 4.0, 4.0, 6.0, dims);
  }

  lemma FirstIteration(dist: Metric, dims: nat, s: Snapshot)
    requires dims >= 2 && IsL1(dist) && IsIteration(Vecs(dims), Seed(Vecs(dims), N_LIST), s, dims, dist)
    ensures ByKind(s, [0, 1, 1, 1, 0]) && Sited(s.cents, 2.0, 3.0, 4.0, 5.0, dims)
  {
    hide Sited, MovedAt, ByKind, IsIteration, IsL1;
    SeedSited(dims);
    FirstPrefers();
    var labels := [0, 1, 1, 1, 0];
    IterationBySites(dist, dims, Seed(Vecs(dims), N_LIST), 1.0, 4.0, 4.0, 6.0, s, labels);
    MeanAtPlane(dims, s, labels, 0, s.cents[0], 2.0, 3.0, 2);
    MeanAtPlane(dims, s, labels, 1, s.cents[1], 4.0, 5.0, 3);
    SitedFrom(s.cents, 2.0, 3.0, 4.0, 5.0, dims);
  }

  lemma SecondIteration(dist: Metric, dims: nat, cs: seq<Point>, s: Snapshot)
    requires dims >= 2 && IsL1(dist) && Sited(cs, 2.0, 3.0, 4.0, 5.0, dims)
    requires IsIteration(Vecs(dims), cs, s, dims, dist)
    ensures ByKind(s, [0, 1, 0, 0, 0]) && Sited(s.cents, 3.0, 3.75, 4.0, 6.0, dims)
  {
    hide Sited, MovedAt, ByKind, IsIteration, IsL1;
    SecondPrefers();
    var labels := [0, 1, 0, 0, 0];
    IterationBySites(dist, dims, cs, 2.0, 3.0, 4.0, 5.0, s, labels);
    MeanAtPlane(dims, s, labels, 0, s.cents[0], 3.0, 3.75, 4);
    MeanAtPlane(dims, s, labels, 1, s.cents[1], 4.0, 6.0, 1);
    SitedFrom(s.cents, 3.0, 3.75, 4.0, 6.0, dims);
  }

  // ----- the costs

  function Same(): seq<nat> { [0, 0, 0, 0, 0] }

  /** The squared distance of a point of the five to the centroid its label names. */
  ghost predicate Offsets(s: Snapshot, labels: seq<nat>, dims: nat, g: nat -> real)
    requires dims >= 2
  {
    && |labels| == 5 && |s.cents| == N_LIST && AllOf(s.cents, dims) && (forall k :: 0 <= k < 5 ==> labels[k] < 2)
    && (forall k :: 0 <= k < 5 ==> SqDist(Plane(X(k), Y(k), dims), s.cents[labels[k]]) == g(k))
    && forall c: nat :: 2 <= c < N_LIST ==> s.cents[c] == Plane(XOf(c + 3), 0.0, dims)
  }

  lemma OffsetOf(dims: nat, s: Snapshot, labels: seq<nat>, g: nat -> real, i: nat)
    requires dims >= 2 && ByKind(s, labels) && Offsets(s, labels, dims, g) && i < TRAIN_CAP
    ensures s.labels[i] < N_LIST
    ensures SqDist(Vecs(dims)[i], s.cents[s.labels[i]]) == Part(LabelOf(Same(), KindOf(i)) == 0, g(KindOf(i)))
  {
    hide SqDist;
    KindRange(i);
    var k := KindOf(i);
    if k >= 5 {
      PlaneSq(dims, XOf(k), 0.0, XOf(k), 0.0, 0.0);
    }
  }

  lemma {:induction false} CostByKind(dims: nat, s: Snapshot, labels: seq<nat>, g: nat -> real, n: nat)
    requires dims >= 2 && ByKind(s, labels) && Offsets(s, labels, dims, g) && n <= TRAIN_CAP
    requires Fitting(Vecs(dims), s, dims)
    ensures Cost(Vecs(dims), s.labels, s.cents, dims, n) == Weighted(Same(), 0, g, n)
  {
    hide Weighted, KindOf, LabelOf, Vecs, SqDist, ByKind, Offsets;
    if n == 0 {
      WeightedNone(Same(), 0, g);
    } else {
      CostByKind(dims, s, labels, g, n - 1);
      WeightedNext(Same(), 0, g, n - 1);
      OffsetOf(dims, s, labels, g, n - 1);
    }
  }

  function Early(k: nat): real {
    if k == 0 || k == 4 then 2.0 else if k == 1 then 1.0 else if k == 2 then 5.0 else 8.0
  }

  function Late(k: nat): real {
    if k == 0 then 4.0625 else if k == 1 then 0.0 else if k == 2 then 6.0625 else if k == 3 then 9.5625 else 3.0625
  }

  lemma EarlyOffsets(dims: nat, s: Snapshot)
    requires dims >= 2 && Sited(s.cents, 2.0, 3.0, 4.0, 5.0, dims)
    ensures Offsets(s, [0, 1, 1, 1, 0], dims, Early)
  {
    hide SqDist;
    assert s.cents[0] == s.cents[..2][0] && s.cents[1] == s.cents[..2][1];
    PlaneSq(dims, 1.0, 4.0, 2.0, 3.0, 2.0);
    PlaneSq(dims, 4.0, 6.0, 4.0, 5.0, 1.0);
    PlaneSq(dims, 2.0, 6.0, 4.0, 5.0, 5.0);
    PlaneSq(dims, 6.0, 3.0, 4.0, 5.0, 8.0);
    PlaneSq(dims, 3.0, 2.0, 2.0, 3.0, 2.0);
  }

  lemma LateOffsets(dims: nat, s: Snapshot)
    requires dims >= 2 && Sited(s.cents, 3.0, 3.75, 4.0, 6.0, dims)
    ensures Offsets(s, [0, 1, 0, 0, 0], dims, Late)
  {
    hide SqDist;
    assert s.cents[0] == s.cents[..2][0] && s.cents[1] == s.cents[..2][1];
    PlaneSq(dims, 1.0, 4.0, 3.0, 3.75, 4.0625);
    PlaneSq(dims, 4.0, 6.0, 4.0, 6.0, 0.0);
    PlaneSq(dims, 2.0, 6.0, 3.0, 3.75, 6.0625);
    PlaneSq(dims, 6.0, 3.0, 3.0, 3.75, 9.5625);
    PlaneSq(dims, 3.0, 2.0, 3.0, 3.75, 3.0625);
  }

  lemma Totals()
    ensures Times(COPIES, PlaneSum(Same(), 0, Early)) == 3564.0 && Times(COPIES, PlaneSum(Same(), 0, Late)) == 4504.5
  {
  }

  lemma TraceFits(ps: seq<Point>, cs: seq<Point>, s: Snapshot, dims: nat, dist: Metric)
    requires IsIteration(ps, cs, s, dims, dist)
    ensures Fitting(ps, s, dims)
  {
  }

  lemma AllKept(dims: nat, deleted: seq<bool>)
    requires dims >= 2 && |deleted| == TRAIN_CAP && forall i :: 0 <= i < TRAIN_CAP ==> !deleted[i]
    ensures ValidPoints(Points(Input(dims)), deleted) == Vecs(dims)
  {
    hide ValidPoints;
    AllValid(Vecs(dims), deleted);
  }

  /** In two or more dimensions every L1 training of the index on these rows raises the cost in its second iteration. */
  lemma TrainingRises(trace: seq<Snapshot>, deleted: seq<bool>, cs: seq<Point>, dims: nat, dist: Metric)
    requires dims >= 2 && IsL1(dist) && |cs| == N_LIST
    requires |deleted| == TRAIN_CAP && forall i :: 0 <= i < TRAIN_CAP ==> !deleted[i]
    requires TrainedBy(trace, Input(dims), deleted, cs, dims, dist)
    ensures Fitting(Vecs(dims), trace[0], dims) && CostAt(Vecs(dims), trace[0], dims) == 3564.0
    ensures Fitting(Vecs(dims), trace[1], dims) && CostAt(Vecs(dims), trace[1], dims) == 4504.5
  {
    hide IsL1, IsIteration, ByKind, Sited, Offsets, Cost, Input, Vecs, Seed, ValidPoints, Fitting;
    AllKept(dims, deleted);
    var ps := Vecs(dims);
    var seed := Seed(ps, N_LIST);
    assert IterationAt(ps, seed, trace, dims, dist, 0) && IterationAt(ps, seed, trace, dims, dist, 1);
    var s, t := trace[0], trace[1];
    FirstIteration(dist, dims, s);
    SecondIteration(dist, dims, s.cents, t);
    TraceFits(ps, seed, s, dims, dist);
    TraceFits(ps, s.cents, t, dims, dist);
    EarlyOffsets(dims, s);
    LateOffsets(dims, t);
    CostByKind(dims, s, [0, 1, 1, 1, 0], Early, TRAIN_CAP);
    CostByKind(dims, t, [0, 1, 0, 0, 0], Late, TRAIN_CAP);
    WeightedAll(Same(), 0, Early);
    WeightedAll(Same(), 0, Late);
    Totals();
  }

  /** Such a training takes place: 1024 insertions into a new index. */
  method IndexTrainingRises(dims: nat, dist: Metric, rnd: (nat, nat) -> nat)
    returns (ivf: IVF, ghost trace: seq<Snapshot>)
    requires dims >= 2 && IsL1(dist)
    ensures ivf.Valid() && ivf.trained && TrainedBy(trace, Input(dims), ivf.deleted[..], ivf.centroids[..], dims, dist)
    ensures |trace| == 20 && NoRise(Vecs(dims), trace[1], trace[0], dims)
    ensures !NoRise(Vecs(dims), trace[0], trace[1], dims)
  {
    hide IsL1, IsRun, Cost, Input, Vecs, TrainedBy, Fitting;
    InputFills(dims);
    ivf := Fill(Input(dims), dims, dist, rnd);
    trace :| TrainedBy(trace, Input(dims), ivf.deleted[..], ivf.centroids[..], dims, dist);
    TrainedLong(trace, Input(dims), ivf.deleted[..], ivf.centroids[..], dims, dist);
    TrainingRises(trace, ivf.deleted[..], ivf.centroids[..], dims, dist);
  }

  lemma InputFills(dims: nat)
    requires dims >= 2
    ensures FillsBuffer(Input(dims), dims)
  {
  }

  lemma TrainedLong(trace: seq<Snapshot>, rows: seq<Row>, deleted: seq<bool>, cs: seq<Point>, dims: nat, dist: Metric)
    requires |rows| <= |deleted| && TrainedBy(trace, rows, deleted, cs, dims, dist)
    ensures |trace| == ITERATIONS
  {
  }
}
