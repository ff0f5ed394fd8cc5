/** For which metrics k-means training never raises its cost: always for L2, and for L1 only in one dimension. */
module KMeansMetrics {
  import opened Reals
  import opened Vectors
  import opened KMeans

  ghost predicate Fitting(ps: seq<Point>, s: Snapshot, dims: nat) {
    AllOf(ps, dims) && AllOf(s.cents, dims) && Labelled(s.labels, |ps|, |s.cents|)
  }

  /** The cost of the later snapshot is no higher. */
  ghost predicate NoRise(ps: seq<Point>, a: Snapshot, b: Snapshot, dims: nat) {
    Fitting(ps, a, dims) && Fitting(ps, b, dims) && CostAt(ps, b, dims) <= CostAt(ps, a, dims)
  }

  /** No run on any data raises the cost. */
  ghost predicate NeverRises(dist: Metric, dims: nat) {
    forall ps, seed, trace, i: nat, j: nat
      {:trigger IsRun(ps, seed, trace, dims, dist), NoRise(ps, trace[i], trace[j], dims)} ::
      IsRun(ps, seed, trace, dims, dist) && i <= j < |trace| ==> NoRise(ps, trace[i], trace[j], dims)
  }

  lemma EuclidNeverRises(dist: Metric, dims: nat)
    requires EuclidOrder(dist, dims)
    ensures NeverRises(dist, dims)
  {
    hide EuclidOrder, IsRun;
    forall ps, seed, trace, i: nat, j: nat | IsRun(ps, seed, trace, dims, dist) && i <= j < |trace|
      ensures NoRise(ps, trace[i], trace[j], dims)
    {
      RunImproves(ps, seed, trace, dims, dist, i, j);
    }
  }

  lemma SquareOrder(x: real, y: real)
    requires x >= 0.0 && y >= 0.0
    ensures x <= y <==> Sq(x) <= Sq(y)
  {
    if x < y {
      SquareGrows(x, y);
    } else if y < x {
      SquareGrows(y, x);
    }
  }

  /** L2 and squared L2 order points as Euclid does. */
  lemma L2NeverRises(dist: Metric, dims: nat)
    requires IsL2(dist) || IsSquaredL2(dist)
    ensures NeverRises(dist, dims)
  {
    hide Sq;
    if IsL2(dist) {
      forall v, a, b {:trigger dist(v, a), dist(v, b)} | |v| == dims && |a| == dims && |b| == dims
        ensures dist(v, a) <= dist(v, b) <==> SqDist(v, a) <= SqDist(v, b)
      {
        SquareOrder(dist(v, a), dist(v, b));
      }
    }
    assert EuclidOrder(dist, dims);
    EuclidNeverRises(dist, dims);
  }

  lemma AbsOrder(x: real, y: real)
    ensures Abs(x) <= Abs(y) <==> Sq(x) <= Sq(y)
  {
    SquareOrder(Abs(x), Abs(y));
  }

  /** With at most one coordinate L1 does too. */
  lemma L1OneAxis(dist: Metric, dims: nat)
    requires IsL1(dist) && dims <= 1
    ensures EuclidOrder(dist, dims)
  {
    forall v, a, b {:trigger dist(v, a), dist(v, b)} | |v| == dims && |a| == dims && |b| == dims
      ensures dist(v, a) <= dist(v, b) <==> SqDist(v, a) <= SqDist(v, b)
    {
      if dims == 1 {
        assert v == [v[0]] && a == [a[0]] && b == [b[0]];
        OneCoordinate(v[0], a[0]);
        OneCoordinate(v[0], b[0]);
        AbsOrder(v[0] - a[0], v[0] - b[0]);
      }
    }
  }

  // ----- a run whose cost rises

  /** A point of the plane in `dims` dimensions. */
  function Plane(x: real, y: real, dims: nat): (p: Point)
    requires dims >= 2
    ensures |p| == dims && p[0] == x && p[1] == y && forall d :: 2 <= d < dims ==> p[d] == 0.0
  {
    [x, y] + seq(dims - 2, _ => 0.0)
  }

  lemma {:induction false} PlaneUpTo(a: Point, b: Point, d: nat)
    requires 2 <= d <= |a| == |b| && forall i :: 2 <= i < |a| ==> a[i] == 0.0 == b[i]
    ensures SqUpTo(a, b, d) == Sq(a[0] - b[0]) + Sq(a[1] - b[1])
    ensures AbsUpTo(a, b, d) == Abs(a[0] - b[0]) + Abs(a[1] - b[1])
  {
    if d == 2 {
      assert SqUpTo(a, b, 0) == 0.0 && SqUpTo(a, b, 1) == Sq(a[0] - b[0]);
      assert AbsUpTo(a, b, 0) == 0.0 && AbsUpTo(a, b, 1) == Abs(a[0] - b[0]);
    } else {
      PlaneUpTo(a, b, d - 1);
      assert Sq(a[d - 1] - b[d - 1]) == 0.0;
    }
  }

  lemma PlaneDist(dims: nat, x: real, y: real, u: real, v: real)
    requires dims >= 2
    ensures SqDist(Plane(x, y, dims), Plane(u, v, dims)) == Sq(x - u) + Sq(y - v)
    ensures AbsDist(Plane(x, y, dims), Plane(u, v, dims)) == Abs(x - u) + Abs(y - v)
  {
    PlaneUpTo(Plane(x, y, dims), Plane(u, v, dims), dims);
  }

  /** Five points: (1, 4), (4, 6), (2, 6), (6, 3) and (3, 2). */
  function X(k: nat): real {
    if k == 0 then 1.0 else if k == 1 then 4.0 else if k == 2 then 2.0 else if k == 3 then 6.0 else 3.0
  }

  function Y(k: nat): real {
    if k == 0 then 4.0 else if k == 1 || k == 2 then 6.0 else if k == 3 then 3.0 else 2.0
  }

  function Data(dims: nat): (ps: seq<Point>)
    requires dims >= 2
    ensures |ps| == 5 && forall k :: 0 <= k < 5 ==> ps[k] == Plane(X(k), Y(k), dims)
  {
    seq(5, k requires 0 <= k < 5 => Plane(X(k), Y(k), dims))
  }

  /** Two centroids. */
  function Pair(x: real, y: real, u: real, v: real, dims: nat): (cs: seq<Point>)
    requires dims >= 2
    ensures |cs| == 2 && forall i :: 0 <= i < 2 ==> |cs[i]| == dims
  {
    [Plane(x, y, dims), Plane(u, v, dims)]
  }

  function First(dims: nat): Snapshot
    requires dims >= 2
  {
    Snapshot([0, 1, 1, 1, 0], Pair(2.0, 3.0, 4.0, 5.0, dims))
  }

  function Second(dims: nat): Snapshot
    requires dims >= 2
  {
    Snapshot([0, 1, 0, 0, 0], Pair(3.0, 3.75, 4.0, 6.0, dims))
  }

  /** With two centroids the second wins only when strictly closer. */
  lemma ClosestOfTwo(p: Point, cs: seq<Point>, dist: Metric)
    requires |cs| >= 2
    ensures Closest(p, cs, dist, 2) == if dist(p, cs[1]) < dist(p, cs[0]) then 1 else 0
  {
    assert Closest(p, cs, dist, 1) == 0;
  }

  /** `c` is the closer of two centroids in L1, the first on a tie. */
  predicate Prefers(x: real, y: real, a: real, b: real, u: real, v: real, c: nat) {
    c == if Abs(x - u) + Abs(y - v) < Abs(x - a) + Abs(y - b) then 1 else 0
  }

  lemma PlaneClosest(dist: Metric, dims: nat, x: real, y: real, cs: seq<Point>, a: real, b: real, u: real, v: real,
                     c: nat)
    requires dims >= 2 && IsL1(dist) && |cs| >= 2 && cs[..2] == Pair(a, b, u, v, dims) && Prefers(x, y, a, b, u, v, c)
    ensures Closest(Plane(x, y, dims), cs, dist, 2) == c
  {
    hide Abs;
    var p := Plane(x, y, dims);
    assert cs[0] == cs[..2][0] && cs[1] == cs[..2][1];
    ClosestOfTwo(p, cs, dist);
    PlaneDist(dims, x, y, a, b);
    PlaneDist(dims, x, y, u, v);
    assert dist(p, cs[0]) == AbsDist(p, cs[0]) && dist(p, cs[1]) == AbsDist(p, cs[1]);
  }

  /** The labels are the L1 assignment of the five points to two centroids. */
  predicate PrefersAll(a: real, b: real, u: real, v: real, labels: seq<nat>) {
    |labels| == 5 && forall k :: 0 <= k < 5 ==> Prefers(X(k), Y(k), a, b, u, v, labels[k])
  }

  lemma PlaneAssigned(dist: Metric, dims: nat, cs: seq<Point>, a: real, b: real, u: real, v: real, labels: seq<nat>)
    requires dims >= 2 && IsL1(dist) && |cs| >= 2 && cs[..2] == Pair(a, b, u, v, dims) && PrefersAll(a, b, u, v, labels)
    ensures forall k :: 0 <= k < 5 ==> labels[k] == Closest(Data(dims)[k], cs, dist, 2)
  {
    hide Prefers, Closest, IsL1, Plane, Pair, X, Y;
    forall k | 0 <= k < 5
      ensures labels[k] == Closest(Data(dims)[k], cs, dist, 2)
    {
      PlaneClosest(dist, dims, X(k), Y(k), cs, a, b, u, v, labels[k]);
    }
  }

  lemma FirstPrefers()
    ensures PrefersAll(1.0, 4.0, 4.0, 6.0, [0, 1, 1, 1, 0])
  {
    assert Prefers(X(0), Y(0), 1.0, 4.0, 4.0, 6.0, 0) && Prefers(X(1), Y(1), 1.0, 4.0, 4.0, 6.0, 1);
    assert Prefers(X(2), Y(2), 1.0, 4.0, 4.0, 6.0, 1) && Prefers(X(3), Y(3), 1.0, 4.0, 4.0, 6.0, 1);
    assert Prefers(X(4), Y(4), 1.0, 4.0, 4.0, 6.0, 0);
  }

  lemma SecondPrefers()
    ensures PrefersAll(2.0, 3.0, 4.0, 5.0, [0, 1, 0, 0, 0])
  {
    assert Prefers(X(0), Y(0), 2.0, 3.0, 4.0, 5.0, 0) && Prefers(X(1), Y(1), 2.0, 3.0, 4.0, 5.0, 1);
    assert Prefers(X(2), Y(2), 2.0, 3.0, 4.0, 5.0, 0) && Prefers(X(3), Y(3), 2.0, 3.0, 4.0, 5.0, 0);
    assert Prefers(X(4), Y(4), 2.0, 3.0, 4.0, 5.0, 0);
  }

  lemma Count5(labels: seq<nat>, c: nat)
    requires |labels| == 5
    ensures Count(labels, c, 5) ==
      One(labels[0] == c) + One(labels[1] == c) + One(labels[2] == c) + One(labels[3] == c) + One(labels[4] == c)
  {
    assert Count(labels, c, 0) == 0;
    assert Count(labels, c, 1) == One(labels[0] == c);
    assert Count(labels, c, 2) == Count(labels, c, 1) + One(labels[1] == c);
    assert Count(labels, c, 3) == Count(labels, c, 2) + One(labels[2] == c);
    assert Count(labels, c, 4) == Count(labels, c, 3) + One(labels[3] == c);
  }

  function One(b: bool): nat { if b then 1 else 0 }

  function Part(b: bool, x: real): real { if b then x else 0.0 }

  lemma Sum5(ps: seq<Point>, labels: seq<nat>, c: nat, d: nat, dims: nat)
    requires AllOf(ps, dims) && d < dims && |ps| == 5 == |labels|
    ensures Sum(ps, labels, c, d, dims, 5) ==
      Part(labels[0] == c, ps[0][d]) + Part(labels[1] == c, ps[1][d]) + Part(labels[2] == c, ps[2][d]) +
      Part(labels[3] == c, ps[3][d]) + Part(labels[4] == c, ps[4][d])
  {
    assert Sum(ps, labels, c, d, dims, 0) == 0.0;
    assert Sum(ps, labels, c, d, dims, 1) == Part(labels[0] == c, ps[0][d]);
    assert Sum(ps, labels, c, d, dims, 2) == Sum(ps, labels, c, d, dims, 1) + Part(labels[1] == c, ps[1][d]);
    assert Sum(ps, labels, c, d, dims, 3) == Sum(ps, labels, c, d, dims, 2) + Part(labels[2] == c, ps[2][d]);
    assert Sum(ps, labels, c, d, dims, 4) == Sum(ps, labels, c, d, dims, 3) + Part(labels[3] == c, ps[3][d]);
  }

  lemma Cost5(ps: seq<Point>, labels: seq<nat>, cs: seq<Point>, dims: nat)
    requires AllOf(ps, dims) && AllOf(cs, dims) && |ps| == 5 == |labels| && forall i :: 0 <= i < 5 ==> labels[i] < |cs|
    ensures Cost(ps, labels, cs, dims, 5) ==
      SqDist(ps[0], cs[labels[0]]) + SqDist(ps[1], cs[labels[1]]) + SqDist(ps[2], cs[labels[2]]) +
      SqDist(ps[3], cs[labels[3]]) + SqDist(ps[4], cs[labels[4]])
  {
    hide SqDist;
    assert Cost(ps, labels, cs, dims, 0) == 0.0;
    assert Cost(ps, labels, cs, dims, 1) == SqDist(ps[0], cs[labels[0]]);
    assert Cost(ps, labels, cs, dims, 2) == Cost(ps, labels, cs, dims, 1) + SqDist(ps[1], cs[labels[1]]);
    assert Cost(ps, labels, cs, dims, 3) == Cost(ps, labels, cs, dims, 2) + SqDist(ps[2], cs[labels[2]]);
    assert Cost(ps, labels, cs, dims, 4) == Cost(ps, labels, cs, dims, 3) + SqDist(ps[3], cs[labels[3]]);
  }

  /** The labels of each iteration are the L1 assignment; ties go to the first centroid. */
  lemma FirstAssigned(dist: Metric, dims: nat)
    requires dims >= 2 && IsL1(dist)
    ensures AssignedClosest(Data(dims), First(dims).labels, Pair(1.0, 4.0, 4.0, 6.0, dims), dist)
  {
    FirstPrefers();
    var cs := Pair(1.0, 4.0, 4.0, 6.0, dims);
    assert cs[..2] == cs;
    PlaneAssigned(dist, dims, cs, 1.0, 4.0, 4.0, 6.0, First(dims).labels);
  }

  lemma SecondAssigned(dist: Metric, dims: nat)
    requires dims >= 2 && IsL1(dist)
    ensures AssignedClosest(Data(dims), Second(dims).labels, First(dims).cents, dist)
  {
    SecondPrefers();
    var cs := First(dims).cents;
    assert cs[..2] == cs;
    PlaneAssigned(dist, dims, cs, 2.0, 3.0, 4.0, 5.0, Second(dims).labels);
  }

  /** The sum over the labelled points of one coordinate of the plane. */
  ghost function PlaneSum(labels: seq<nat>, c: nat, f: nat -> real): real
    requires |labels| == 5
  {
    Part(labels[0] == c, f(0)) + Part(labels[1] == c, f(1)) + Part(labels[2] == c, f(2)) +
    Part(labels[3] == c, f(3)) + Part(labels[4] == c, f(4))
  }

  lemma PlaneSumIs(dims: nat, labels: seq<nat>, c: nat, d: nat)
    requires 2 <= dims && d < dims && |labels| == 5
    ensures Sum(Data(dims), labels, c, d, dims, 5) ==
      if d == 0 then PlaneSum(labels, c, X) else if d == 1 then PlaneSum(labels, c, Y) else 0.0
  {
    hide Sum, Part, X, Y;
    Sum5(Data(dims), labels, c, d, dims);
    PartOfNone();
  }

  /** A centroid that is the mean in the plane is the mean. */
  lemma PlaneMean(dims: nat, labels: seq<nat>, c: nat, x: real, y: real)
    requires dims >= 2 && |labels| == 5 && Count(labels, c, 5) > 0
    requires Times(Count(labels, c, 5), x) == PlaneSum(labels, c, X)
    requires Times(Count(labels, c, 5), y) == PlaneSum(labels, c, Y)
    ensures MovedAt(Data(dims), labels, c, Plane(x, y, dims), dims)
  {
    hide Count, Sum, Times, PlaneSum, Data;
    var ps, m := Data(dims), Plane(x, y, dims);
    forall d | 0 <= d < dims
      ensures Count(labels, c, |ps|) as real * m[d] == Sum(ps, labels, c, d, dims, |ps|)
    {
      PlaneSumIs(dims, labels, c, d);
      TimesIs(Count(labels, c, 5), m[d]);
      TimesZero(Count(labels, c, 5));
    }
  }

  lemma PartOfNone()
    ensures forall b :: Part(b, 0.0) == 0.0
  {
  }

  lemma FirstMoved(dims: nat)
    requires dims >= 2
    ensures forall c :: 0 <= c < 2 ==> MovedAt(Data(dims), First(dims).labels, c, First(dims).cents[c], dims)
  {
    hide MovedAt, Count;
    var labels := [0, 1, 1, 1, 0];
    Count5(labels, 0);
    Count5(labels, 1);
    PlaneMean(dims, labels, 0, 2.0, 3.0);
    PlaneMean(dims, labels, 1, 4.0, 5.0);
  }

  lemma SecondMoved(dims: nat)
    requires dims >= 2
    ensures forall c :: 0 <= c < 2 ==> MovedAt(Data(dims), Second(dims).labels, c, Second(dims).cents[c], dims)
  {
    hide MovedAt, Count;
    var labels := [0, 1, 0, 0, 0];
    Count5(labels, 0);
    Count5(labels, 1);
    PlaneMean(dims, labels, 0, 3.0, 3.75);
    PlaneMean(dims, labels, 1, 4.0, 6.0);
  }

  /** The two snapshots are a run seeded with the first two points. */
  lemma RisingRun(dist: Metric, dims: nat)
    requires dims >= 2 && IsL1(dist)
    ensures IsRun(Data(dims), Data(dims)[..2], [First(dims), Second(dims)], dims, dist)
  {
    hide MovedAt, AssignedClosest;
    var seed, trace := Data(dims)[..2], [First(dims), Second(dims)];
    assert seed == Pair(1.0, 4.0, 4.0, 6.0, dims);
    FirstAssigned(dist, dims);
    SecondAssigned(dist, dims);
    FirstMoved(dims);
    SecondMoved(dims);
    forall i: nat | i < |trace|
      ensures IterationAt(Data(dims), seed, trace, dims, dist, i)
    {
    }
  }

  lemma PlaneSq(dims: nat, x: real, y: real, u: real, v: real, s: real)
    requires dims >= 2 && s == (x - u) * (x - u) + (y - v) * (y - v)
    ensures SqDist(Plane(x, y, dims), Plane(u, v, dims)) == s
  {
    PlaneDist(dims, x, y, u, v);
  }

  /** Its cost goes from 18 to 91/4. */
  lemma RisingCosts(dims: nat)
    requires dims >= 2
    ensures Fitting(Data(dims), First(dims), dims) && Fitting(Data(dims), Second(dims), dims)
    ensures CostAt(Data(dims), First(dims), dims) == 18.0 && CostAt(Data(dims), Second(dims), dims) == 22.75
  {
    hide SqDist, Cost;
    var ps := Data(dims);
    Cost5(ps, First(dims).labels, First(dims).cents, dims);
    PlaneSq(dims, 1.0, 4.0, 2.0, 3.0, 2.0);
    PlaneSq(dims, 4.0, 6.0, 4.0, 5.0, 1.0);
    PlaneSq(dims, 2.0, 6.0, 4.0, 5.0, 5.0);
    PlaneSq(dims, 6.0, 3.0, 4.0, 5.0, 8.0);
    PlaneSq(dims, 3.0, 2.0, 2.0, 3.0, 2.0);
    Cost5(ps, Second(dims).labels, Second(dims).cents, dims);
    PlaneSq(dims, 1.0, 4.0, 3.0, 3.75, 4.0625);
    PlaneSq(dims, 4.0, 6.0, 4.0, 6.0, 0.0);
    PlaneSq(dims, 2.0, 6.0, 3.0, 3.75, 6.0625);
    PlaneSq(dims, 6.0, 3.0, 3.0, 3.75, 9.5625);
    PlaneSq(dims, 3.0, 2.0, 3.0, 3.75, 3.0625);
  }

  /** With L1 assignment no run on any data raises the cost if and only if there is at most one dimension. */
  lemma L1NeverRisesIff(dist: Metric, dims: nat)
    requires IsL1(dist)
    ensures NeverRises(dist, dims) <==> dims <= 1
  {
    hide IsL1, IsRun, EuclidOrder, Data, First, Second, CostAt;
    if dims <= 1 {
      L1OneAxis(dist, dims);
      EuclidNeverRises(dist, dims);
    } else {
      RisingRun(dist, dims);
      RisingCosts(dims);
      var trace := [First(dims), Second(dims)];
      assert !NoRise(Data(dims), trace[0], trace[1], dims);
    }
  }
}
