/** The k-means training of the IVF index: no iteration increases the total squared distance. */
module KMeans {
  import opened Reals
  import opened Vectors

  ghost predicate AllOf(ps: seq<Point>, dims: nat) {
    forall i :: 0 <= i < |ps| ==> |ps[i]| == dims
  }

  ghost predicate Labelled(labels: seq<nat>, n: nat, k: nat) {
    |labels| == n && forall i :: 0 <= i < n ==> labels[i] < k
  }

  /** Total squared distance of the first `n` points to the centroids they are assigned to. */
  ghost function Cost(ps: seq<Point>, labels: seq<nat>, cs: seq<Point>, dims: nat, n: nat): real
    requires AllOf(ps, dims) && AllOf(cs, dims) && n <= |ps| && n <= |labels|
    requires forall i :: 0 <= i < n ==> labels[i] < |cs|
  {
    if n == 0 then 0.0 else Cost(ps, labels, cs, dims, n - 1) + SqDist(ps[n - 1], cs[labels[n - 1]])
  }

  // ----- assignment

  /** The metric orders points as Euclidean distance does. */
  ghost predicate EuclidOrder(dist: Metric, dims: nat) {
    forall v, a, b {:trigger dist(v, a), dist(v, b)} :: |v| == dims && |a| == dims && |b| == dims ==>
      (dist(v, a) <= dist(v, b) <==> SqDist(v, a) <= SqDist(v, b))
  }

  /** The first of the first `n` centroids at least distance. */
  ghost function Closest(v: Point, cs: seq<Point>, dist: Metric, n: nat): (c: nat)
    requires 0 < n <= |cs|
    ensures c < n && forall j :: 0 <= j < n ==> dist(v, cs[c]) <= dist(v, cs[j])
    ensures forall j :: 0 <= j < c ==> dist(v, cs[c]) < dist(v, cs[j])
  {
    if n == 1 then 0
    else
      var c := Closest(v, cs, dist, n - 1);
      if dist(v, cs[n - 1]) < dist(v, cs[c]) then n - 1 else c
  }

  method FindClosest(v: Point, cs: seq<Point>, dist: Metric) returns (best: nat)
    requires |cs| > 0
    ensures best < |cs| && best == Closest(v, cs, dist, |cs|)
  {
    best := 0;
    var bestd := dist(v, cs[0]);
    var c := 1;
    while c < |cs|
      invariant 1 <= c <= |cs| && best < c && best == Closest(v, cs, dist, c) && bestd == dist(v, cs[best])
    {
      var d := dist(v, cs[c]);
      if d < bestd {
        bestd := d;
        best := c;
      }
      c := c + 1;
    }
  }

  ghost predicate AssignedClosest(ps: seq<Point>, labels: seq<nat>, cs: seq<Point>, dist: Metric)
    requires |cs| > 0
  {
    |labels| == |ps| && forall i :: 0 <= i < |ps| ==> labels[i] == Closest(ps[i], cs, dist, |cs|)
  }

  /** Reassigning every point to a closest centroid cannot cost more than any other assignment. */
  lemma {:induction false} AssignImproves(
    ps: seq<Point>, labels: seq<nat>, labels': seq<nat>, cs: seq<Point>, dims: nat, dist: Metric, n: nat)
    requires AllOf(ps, dims) && AllOf(cs, dims) && |cs| > 0 && n <= |ps| && EuclidOrder(dist, dims)
    requires Labelled(labels, |ps|, |cs|) && AssignedClosest(ps, labels', cs, dist)
    ensures Cost(ps, labels', cs, dims, n) <= Cost(ps, labels, cs, dims, n)
  {
    if n > 0 {
      AssignImproves(ps, labels, labels', cs, dims, dist, n - 1);
      var v := ps[n - 1];
      assert dist(v, cs[labels'[n - 1]]) <= dist(v, cs[labels[n - 1]]);
    }
  }

  // ----- the mean

  /** Number of points labelled `c`, and sums of one coordinate and of its square over them. */
  ghost function Count(labels: seq<nat>, c: nat, n: nat): nat
    requires n <= |labels|
  {
    if n == 0 then 0 else Count(labels, c, n - 1) + if labels[n - 1] == c then 1 else 0
  }

  ghost function Sum(ps: seq<Point>, labels: seq<nat>, c: nat, d: nat, dims: nat, n: nat): real
    requires AllOf(ps, dims) && d < dims && n <= |ps| && n <= |labels|
  {
    if n == 0 then 0.0 else Sum(ps, labels, c, d, dims, n - 1) + if labels[n - 1] == c then ps[n - 1][d] else 0.0
  }

  lemma {:induction false} CountHas(labels: seq<nat>, c: nat, n: nat, i: nat)
    requires i < n <= |labels| && labels[i] == c
    ensures Count(labels, c, n) > 0
  {
    if i < n - 1 {
      CountHas(labels, c, n - 1, i);
    }
  }

  lemma {:induction false} CountNone(labels: seq<nat>, c: nat, n: nat)
    requires n <= |labels| && forall i :: 0 <= i < |labels| ==> labels[i] != c
    ensures Count(labels, c, n) == 0
  {
    if n > 0 {
      CountNone(labels, c, n - 1);
    }
  }

  /** The sum of a cluster whose points share a coordinate. */
  lemma {:induction false} SumOfConstant(ps: seq<Point>, labels: seq<nat>, c: nat, d: nat, dims: nat, n: nat, x: real)
    requires AllOf(ps, dims) && d < dims && n <= |ps| == |labels|
    requires forall i :: 0 <= i < |ps| && labels[i] == c ==> ps[i][d] == x
    ensures Sum(ps, labels, c, d, dims, n) == Times(Count(labels, c, n), x)
  {
    hide Times;
    if n > 0 {
      SumOfConstant(ps, labels, c, d, dims, n - 1, x);
      TimesNext(Count(labels, c, n - 1), x);
    } else {
      TimesNone(x);
    }
  }

  /** Squared gaps to `z` on coordinate `d`, over the points labelled `c`. */
  ghost function AxisCost(ps: seq<Point>, labels: seq<nat>, c: nat, d: nat, dims: nat, z: real, n: nat): real
    requires AllOf(ps, dims) && d < dims && n <= |ps| && n <= |labels|
  {
    if n == 0 then 0.0
    else AxisCost(ps, labels, c, d, dims, z, n - 1) + if labels[n - 1] == c then Sq(ps[n - 1][d] - z) else 0.0
  }

  /** What moving the reference of `k` values with sum `s` from `m` to `z` adds to their squared gaps. */
  ghost function Shift(m: real, z: real, s: real, k: real): real {
    2.0 * (m - z) * (s - k * m) + k * Sq(m - z)
  }

  lemma ShiftStep(x: real, m: real, z: real, s: real, k: real)
    ensures Shift(m, z, s + x, k + 1.0) == Shift(m, z, s, k) + Sq(x - z) - Sq(x - m)
  {
    var u, w := m - z, Sq(m - z);
    assert Sq(x - z) == Sq((x - m) + u) == Sq(x - m) + 2.0 * u * (x - m) + w;
    assert (k + 1.0) * m == k * m + m;
    assert (k + 1.0) * w == k * w + w;
    assert 2.0 * u * ((s + x) - (k * m + m)) == 2.0 * u * (s - k * m) + 2.0 * u * (x - m);
  }

  lemma ShiftAtMean(m: real, z: real, s: real, k: nat)
    requires (k as real) * m == s
    ensures Shift(m, z, s, k as real) >= 0.0
  {
    assert Sq(m - z) >= 0.0;
    assert (k as real) * Sq(m - z) >= 0.0;
    assert 2.0 * (m - z) * 0.0 == 0.0;
  }

  lemma {:induction false} AxisCostShift(
    ps: seq<Point>, labels: seq<nat>, c: nat, d: nat, dims: nat, m: real, z: real, n: nat)
    requires AllOf(ps, dims) && d < dims && n <= |ps| && n <= |labels|
    ensures AxisCost(ps, labels, c, d, dims, z, n) == AxisCost(ps, labels, c, d, dims, m, n)
      + Shift(m, z, Sum(ps, labels, c, d, dims, n), Count(labels, c, n) as real)
  {
    hide Shift, Sq;
    if n == 0 {
      ShiftZero(m, z);
    } else {
      AxisCostShift(ps, labels, c, d, dims, m, z, n - 1);
      if labels[n - 1] == c {
        ShiftStep(ps[n - 1][d], m, z, Sum(ps, labels, c, d, dims, n - 1), Count(labels, c, n - 1) as real);
      }
    }
  }

  lemma ShiftZero(m: real, z: real)
    ensures Shift(m, z, 0.0, 0.0) == 0.0
  {
  }

  /** On one coordinate the mean is at least as good as any other value. */
  lemma MeanIsBestOnAxis(ps: seq<Point>, labels: seq<nat>, c: nat, d: nat, dims: nat, m: real, z: real, n: nat)
    requires AllOf(ps, dims) && d < dims && n <= |ps| && n <= |labels|
    requires (Count(labels, c, n) as real) * m == Sum(ps, labels, c, d, dims, n)
    ensures AxisCost(ps, labels, c, d, dims, m, n) <= AxisCost(ps, labels, c, d, dims, z, n)
  {
    hide Shift, Sq, AxisCost, Sum, Count;
    AxisCostShift(ps, labels, c, d, dims, m, z, n);
    ShiftAtMean(m, z, Sum(ps, labels, c, d, dims, n), Count(labels, c, n));
  }

  /** Squared distance to `z` over the first `d` coordinates, summed over the points labelled `c`. */
  ghost function ClusterCost(ps: seq<Point>, labels: seq<nat>, c: nat, z: Point, d: nat, dims: nat, n: nat): real
    requires AllOf(ps, dims) && |z| == dims && d <= dims && n <= |ps| && n <= |labels|
  {
    if n == 0 then 0.0
    else ClusterCost(ps, labels, c, z, d, dims, n - 1) + if labels[n - 1] == c then SqUpTo(ps[n - 1], z, d) else 0.0
  }

  lemma {:induction false} ClusterByAxis(ps: seq<Point>, labels: seq<nat>, c: nat, z: Point, d: nat, dims: nat, n: nat)
    requires AllOf(ps, dims) && |z| == dims && d < dims && n <= |ps| && n <= |labels|
    ensures ClusterCost(ps, labels, c, z, d + 1, dims, n) ==
      ClusterCost(ps, labels, c, z, d, dims, n) + AxisCost(ps, labels, c, d, dims, z[d], n)
  {
    if n > 0 {
      ClusterByAxis(ps, labels, c, z, d, dims, n - 1);
    }
  }

  ghost predicate IsMean(ps: seq<Point>, labels: seq<nat>, c: nat, m: Point, dims: nat)
    requires AllOf(ps, dims) && |labels| == |ps|
  {
    |m| == dims && forall d :: 0 <= d < dims ==>
      (Count(labels, c, |ps|) as real) * m[d] == Sum(ps, labels, c, d, dims, |ps|)
  }

  lemma {:induction false} MeanIsBest(ps: seq<Point>, labels: seq<nat>, c: nat, m: Point, z: Point, d: nat, dims: nat)
    requires AllOf(ps, dims) && |labels| == |ps| && IsMean(ps, labels, c, m, dims) && |z| == dims && d <= dims
    ensures ClusterCost(ps, labels, c, m, d, dims, |ps|) <= ClusterCost(ps, labels, c, z, d, dims, |ps|)
  {
    if d == 0 {
      ZeroAxes(ps, labels, c, m, dims, |ps|);
      ZeroAxes(ps, labels, c, z, dims, |ps|);
    } else {
      MeanIsBest(ps, labels, c, m, z, d - 1, dims);
      ClusterByAxis(ps, labels, c, m, d - 1, dims, |ps|);
      ClusterByAxis(ps, labels, c, z, d - 1, dims, |ps|);
      MeanIsBestOnAxis(ps, labels, c, d - 1, dims, m[d - 1], z[d - 1], |ps|);
    }
  }

  lemma {:induction false} ZeroAxes(ps: seq<Point>, labels: seq<nat>, c: nat, z: Point, dims: nat, n: nat)
    requires AllOf(ps, dims) && |z| == dims && n <= |ps| && n <= |labels|
    ensures ClusterCost(ps, labels, c, z, 0, dims, n) == 0.0
  {
    if n > 0 {
      ZeroAxes(ps, labels, c, z, dims, n - 1);
    }
  }

  /** Replacing one centroid changes only the cost of its own points. */
  lemma {:induction false} CostOfReplacing(
    ps: seq<Point>, labels: seq<nat>, cs: seq<Point>, c: nat, z: Point, dims: nat, n: nat)
    requires AllOf(ps, dims) && AllOf(cs, dims) && |z| == dims && c < |cs| && n <= |ps| && Labelled(labels, |ps|, |cs|)
    ensures AllOf(cs[c := z], dims)
    ensures Cost(ps, labels, cs[c := z], dims, n) - ClusterCost(ps, labels, c, z, dims, dims, n) ==
            Cost(ps, labels, cs, dims, n) - ClusterCost(ps, labels, c, cs[c], dims, dims, n)
  {
    if n > 0 {
      CostOfReplacing(ps, labels, cs, c, z, dims, n - 1);
    }
  }

  lemma {:induction false} EmptyClusterIsFree(ps: seq<Point>, labels: seq<nat>, c: nat, z: Point, dims: nat, n: nat)
    requires AllOf(ps, dims) && |z| == dims && n <= |ps| && n <= |labels| && Count(labels, c, n) == 0
    ensures ClusterCost(ps, labels, c, z, dims, dims, n) == 0.0
  {
    if n > 0 {
      EmptyClusterIsFree(ps, labels, c, z, dims, n - 1);
    }
  }

  /** Moving one centroid to the mean of its points, or anywhere if it has none, never costs more. */
  lemma MoveImproves(ps: seq<Point>, labels: seq<nat>, cs: seq<Point>, c: nat, z: Point, dims: nat)
    requires AllOf(ps, dims) && AllOf(cs, dims) && |z| == dims && c < |cs| && Labelled(labels, |ps|, |cs|)
    requires Count(labels, c, |ps|) == 0 || IsMean(ps, labels, c, z, dims)
    ensures AllOf(cs[c := z], dims)
    ensures Cost(ps, labels, cs[c := z], dims, |ps|) <= Cost(ps, labels, cs, dims, |ps|)
  {
    CostOfReplacing(ps, labels, cs, c, z, dims, |ps|);
    if Count(labels, c, |ps|) == 0 {
      EmptyClusterIsFree(ps, labels, c, z, dims, |ps|);
      EmptyClusterIsFree(ps, labels, c, cs[c], dims, |ps|);
    } else {
      MeanIsBest(ps, labels, c, z, cs[c], dims, dims);
    }
  }

  // ----- iterations and runs

  /** The labels and centroids an iteration leaves. */
  datatype Snapshot = Snapshot(labels: seq<nat>, cents: seq<Point>)

  /** A used cluster's centroid is the mean of its points, an empty one's is some point. */
  ghost predicate MovedAt(ps: seq<Point>, labels: seq<nat>, c: nat, z: Point, dims: nat)
    requires AllOf(ps, dims) && |labels| == |ps|
  {
    if Count(labels, c, |ps|) > 0 then IsMean(ps, labels, c, z, dims) else z in ps
  }

  /** `s` is the result of one iteration from the centroids `cs`. */
  ghost predicate IsIteration(ps: seq<Point>, cs: seq<Point>, s: Snapshot, dims: nat, dist: Metric) {
    && AllOf(ps, dims) && 0 < |cs| == |s.cents| && AllOf(s.cents, dims)
    && Labelled(s.labels, |ps|, |cs|) && AssignedClosest(ps, s.labels, cs, dist)
    && forall c :: 0 <= c < |cs| ==> MovedAt(ps, s.labels, c, s.cents[c], dims)
  }

  /** Moving the first `n` centroids never costs more. */
  lemma {:induction false} MovesImprove(ps: seq<Point>, labels: seq<nat>, cs: seq<Point>, cs': seq<Point>, dims: nat,
                                        n: nat)
    requires AllOf(ps, dims) && AllOf(cs, dims) && AllOf(cs', dims) && n <= |cs| == |cs'|
    requires Labelled(labels, |ps|, |cs|)
    requires forall c :: 0 <= c < |cs| ==> MovedAt(ps, labels, c, cs'[c], dims)
    ensures AllOf(cs'[..n] + cs[n..], dims)
    ensures Cost(ps, labels, cs'[..n] + cs[n..], dims, |ps|) <= Cost(ps, labels, cs, dims, |ps|)
  {
    hide Cost, IsMean;
    if n == 0 {
      assert cs'[..0] + cs[0..] == cs;
    } else {
      MovesImprove(ps, labels, cs, cs', dims, n - 1);
      var before := cs'[..n - 1] + cs[n - 1..];
      assert MovedAt(ps, labels, n - 1, cs'[n - 1], dims);
      MoveImproves(ps, labels, before, n - 1, cs'[n - 1], dims);
      assert before[n - 1 := cs'[n - 1]] == cs'[..n] + cs[n..];
    }
  }

  /** One iteration never costs more than any labelling of the centroids it starts from. */
  lemma IterationImproves(ps: seq<Point>, labels: seq<nat>, cs: seq<Point>, s: Snapshot, dims: nat, dist: Metric)
    requires EuclidOrder(dist, dims) && IsIteration(ps, cs, s, dims, dist) && AllOf(cs, dims)
    requires Labelled(labels, |ps|, |cs|)
    ensures Cost(ps, s.labels, s.cents, dims, |ps|) <= Cost(ps, labels, cs, dims, |ps|)
  {
    hide Cost, EuclidOrder, AssignedClosest, MovedAt;
    AssignImproves(ps, labels, s.labels, cs, dims, dist, |ps|);
    MovesImprove(ps, s.labels, cs, s.cents, dims, |cs|);
    assert s.cents[..|cs|] + cs[|cs|..] == s.cents;
  }

  /** The centroids iteration `i` starts from. */
  ghost function Before(seed: seq<Point>, trace: seq<Snapshot>, i: nat): seq<Point>
    requires i <= |trace|
  {
    if i == 0 then seed else trace[i - 1].cents
  }

  /** The snapshots of successive iterations from the centroids `seed`. */
  ghost predicate IsRun(ps: seq<Point>, seed: seq<Point>, trace: seq<Snapshot>, dims: nat, dist: Metric) {
    forall i: nat {:trigger IterationAt(ps, seed, trace, dims, dist, i)} :: i < |trace| ==>
      IterationAt(ps, seed, trace, dims, dist, i)
  }

  ghost predicate IterationAt(ps: seq<Point>, seed: seq<Point>, trace: seq<Snapshot>, dims: nat, dist: Metric, i: nat)
    requires i < |trace|
  {
    IsIteration(ps, Before(seed, trace, i), trace[i], dims, dist)
  }

  lemma RunNext(ps: seq<Point>, seed: seq<Point>, trace: seq<Snapshot>, s: Snapshot, dims: nat, dist: Metric)
    requires IsRun(ps, seed, trace, dims, dist) && IsIteration(ps, Before(seed, trace, |trace|), s, dims, dist)
    ensures IsRun(ps, seed, trace + [s], dims, dist)
  {
    hide IsIteration;
    var next := trace + [s];
    forall i: nat | i < |next|
      ensures IterationAt(ps, seed, next, dims, dist, i)
    {
      assert Before(seed, next, i) == Before(seed, trace, i);
      if i < |trace| {
        assert IterationAt(ps, seed, trace, dims, dist, i);
      }
    }
  }

  ghost function CostAt(ps: seq<Point>, s: Snapshot, dims: nat): real
    requires AllOf(ps, dims) && AllOf(s.cents, dims) && Labelled(s.labels, |ps|, |s.cents|)
  {
    Cost(ps, s.labels, s.cents, dims, |ps|)
  }

  /** Over a whole run the total squared distance never increases. */
  lemma {:induction false} RunImproves(ps: seq<Point>, seed: seq<Point>, trace: seq<Snapshot>, dims: nat, dist: Metric,
                                       i: nat, j: nat)
    requires EuclidOrder(dist, dims) && IsRun(ps, seed, trace, dims, dist) && i <= j < |trace|
    ensures AllOf(ps, dims)
    ensures AllOf(trace[i].cents, dims) && Labelled(trace[i].labels, |ps|, |trace[i].cents|)
    ensures AllOf(trace[j].cents, dims) && Labelled(trace[j].labels, |ps|, |trace[j].cents|)
    ensures CostAt(ps, trace[j], dims) <= CostAt(ps, trace[i], dims)
    decreases j - i
  {
    hide Cost, EuclidOrder, AssignedClosest, MovedAt;
    assert IterationAt(ps, seed, trace, dims, dist, i);
    if i < j {
      RunImproves(ps, seed, trace, dims, dist, i, j - 1);
      assert IterationAt(ps, seed, trace, dims, dist, j);
      IterationImproves(ps, trace[j - 1].labels, trace[j - 1].cents, trace[j], dims, dist);
    }
  }
}
