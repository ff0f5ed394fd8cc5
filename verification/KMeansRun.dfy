/** The in-place loops of `ivf_train_kmeans`. */
module KMeansRun {
  import opened Vectors
  import opened KMeans

  /** The training vectors that are not marked deleted, in order. */
  function ValidPoints(vecs: seq<Point>, deleted: seq<bool>): (r: seq<Point>)
    requires |vecs| <= |deleted|
    ensures |r| <= |vecs|
    ensures forall x :: x in r <==> exists i :: 0 <= i < |vecs| && vecs[i] == x && !deleted[i]
  {
    if vecs == [] then []
    else
      var n := |vecs| - 1;
      var rest := ValidPoints(vecs[..n], deleted);
      if deleted[n] then rest else rest + [vecs[n]]
  }

  method CollectValid(vecs: seq<Point>, deleted: seq<bool>) returns (ps: seq<Point>)
    requires |vecs| <= |deleted|
    ensures ps == ValidPoints(vecs, deleted)
  {
    ps := [];
    var i := 0;
    while i < |vecs|
      invariant 0 <= i <= |vecs| && ps == ValidPoints(vecs[..i], deleted)
    {
      assert vecs[..i + 1][..i] == vecs[..i];
      if !deleted[i] {
        ps := ps + [vecs[i]];
      }
      i := i + 1;
    }
    assert vecs[..i] == vecs;
  }

  method AssignLabels(ps: seq<Point>, cents: array<Point>, dist: Metric, labels: array<nat>)
    requires cents.Length > 0 && labels.Length == |ps|
    modifies labels
    ensures AssignedClosest(ps, labels[..], cents[..], dist)
    ensures Labelled(labels[..], |ps|, cents.Length)
  {
    hide Closest;
    var cs := cents[..];
    var i := 0;
    while i < |ps|
      invariant 0 <= i <= |ps|
      invariant forall j :: 0 <= j < i ==> labels[j] == Closest(ps[j], cs, dist, |cs|) && labels[j] < |cs|
    {
      var best := FindClosest(ps[i], cs, dist);
      labels[i] := best;
      i := i + 1;
    }
  }

  /** Per-cluster coordinate sums and counts. */
  method Accumulate(ps: seq<Point>, labels: seq<nat>, k: nat, dims: nat)
    returns (sums: array2<real>, counts: array<nat>)
    requires AllOf(ps, dims) && Labelled(labels, |ps|, k)
    ensures fresh(sums) && fresh(counts)
    ensures sums.Length0 == k && sums.Length1 == dims && counts.Length == k
    ensures forall c :: 0 <= c < k ==> counts[c] == Count(labels, c, |ps|)
    ensures forall c, d :: 0 <= c < k && 0 <= d < dims ==> sums[c, d] == Sum(ps, labels, c, d, dims, |ps|)
  {
    sums := new real[k, dims]((_, _) => 0.0);
    counts := new nat[k](_ => 0);
    var i := 0;
    while i < |ps|
      invariant 0 <= i <= |ps|
      invariant forall c :: 0 <= c < k ==> counts[c] == Count(labels, c, i)
      invariant forall c, d :: 0 <= c < k && 0 <= d < dims ==> sums[c, d] == Sum(ps, labels, c, d, dims, i)
    {
      AddPoint(ps, labels, i, k, dims, sums);
      counts[labels[i]] := counts[labels[i]] + 1;
      i := i + 1;
    }
  }

  method AddPoint(ps: seq<Point>, labels: seq<nat>, i: nat, k: nat, dims: nat, sums: array2<real>)
    requires AllOf(ps, dims) && Labelled(labels, |ps|, k) && i < |ps| && sums.Length0 == k && sums.Length1 == dims
    requires forall c, d :: 0 <= c < k && 0 <= d < dims ==> sums[c, d] == Sum(ps, labels, c, d, dims, i)
    modifies sums
    ensures forall c, d :: 0 <= c < k && 0 <= d < dims ==> sums[c, d] == Sum(ps, labels, c, d, dims, i + 1)
  {
    var c0 := labels[i];
    var d0 := 0;
    while d0 < dims
      invariant 0 <= d0 <= dims
      invariant forall c, d :: 0 <= c < k && 0 <= d < dims ==>
        sums[c, d] == if c != c0 || d < d0 then Sum(ps, labels, c, d, dims, i + 1) else Sum(ps, labels, c, d, dims, i)
    {
      sums[c0, d0] := sums[c0, d0] + ps[i][d0];
      d0 := d0 + 1;
    }
  }

  /** The mean of cluster `c` from its sums and count. */
  method MeanOf(ps: seq<Point>, labels: seq<nat>, c: nat, k: nat, dims: nat, sums: array2<real>, count: nat)
    returns (m: Point)
    requires AllOf(ps, dims) && Labelled(labels, |ps|, k) && c < k && sums.Length0 == k && sums.Length1 == dims
    requires count > 0 && count == Count(labels, c, |ps|)
    requires forall d :: 0 <= d < dims ==> sums[c, d] == Sum(ps, labels, c, d, dims, |ps|)
    ensures IsMean(ps, labels, c, m, dims)
  {
    hide Quotient, Sum, Count;
    m := [];
    var d := 0;
    while d < dims
      invariant 0 <= d <= dims && |m| == d
      invariant forall e :: 0 <= e < d ==> m[e] == Quotient(sums[c, e], count)
    {
      m := m + [Quotient(sums[c, d], count)];
      d := d + 1;
    }
    forall e | 0 <= e < dims
      ensures (count as real) * m[e] == Sum(ps, labels, c, e, dims, |ps|)
    {
      DivMul(sums[c, e], count);
    }
  }

  function Quotient(s: real, k: nat): real
    requires k > 0
  {
    s / (k as real)
  }

  lemma DivMul(s: real, k: nat)
    requires k > 0
    ensures (k as real) * Quotient(s, k) == s
  {
  }

  /** Means for the used clusters, a random point for each empty one. */
  method UpdateCentroids(ps: seq<Point>, labels: seq<nat>, cents: array<Point>, dims: nat, rnd: nat -> nat)
    requires |ps| > 0 && AllOf(ps, dims) && Labelled(labels, |ps|, cents.Length)
    modifies cents
    ensures AllOf(cents[..], dims)
    ensures forall c :: 0 <= c < cents.Length ==> MovedAt(ps, labels, c, cents[c], dims)
  {
    hide Count, Sum;
    var k := cents.Length;
    var sums, counts := Accumulate(ps, labels, k, dims);
    var c := 0;
    while c < k
      modifies cents
      invariant 0 <= c <= k
      invariant forall b :: 0 <= b < c ==> |cents[b]| == dims && MovedAt(ps, labels, b, cents[b], dims)
    {
      if counts[c] > 0 {
        cents[c] := MeanOf(ps, labels, c, k, dims, sums, counts[c]);
      } else {
        cents[c] := ps[rnd(c) % |ps|];
      }
      c := c + 1;
    }
  }

  /** One iteration: reassign, then move the centroids. */
  method Iterate(ps: seq<Point>, cents: array<Point>, labels: array<nat>, dims: nat, dist: Metric, rnd: nat -> nat)
    requires |ps| > 0 && AllOf(ps, dims) && cents.Length > 0 && labels.Length == |ps|
    modifies cents, labels
    ensures IsIteration(ps, old(cents[..]), Snapshot(labels[..], cents[..]), dims, dist)
  {
    hide MovedAt, AssignedClosest;
    AssignLabels(ps, cents, dist, labels);
    UpdateCentroids(ps, labels[..], cents, dims, rnd);
  }

  /** The first centroids: the valid points in turn. */
  function Seed(ps: seq<Point>, k: nat): (cs: seq<Point>)
    requires |ps| > 0
    ensures |cs| == k && forall c :: 0 <= c < k ==> cs[c] == ps[c % |ps|]
  {
    seq(k, c requires 0 <= c < k => ps[c % |ps|])
  }

  /**
   `ivf_train_kmeans`: false without data or iterations; otherwise the centroids are those of a run of `iters`
   iterations over the valid points, whose cost never increases when the metric orders points as Euclid does.
   */
  method Train(vecs: seq<Point>, deleted: seq<bool>, cents: array<Point>, iters: int, dims: nat, dist: Metric,
               rnd: (nat, nat) -> nat)
    returns (ok: bool, ghost trace: seq<Snapshot>)
    requires |vecs| <= |deleted| && AllOf(vecs, dims) && cents.Length > 0
    modifies cents
    ensures ok <==> iters > 0 && ValidPoints(vecs, deleted) != []
    ensures !ok ==> cents[..] == old(cents[..])
    ensures ok ==> |trace| == iters && cents[..] == trace[iters - 1].cents && AllOf(cents[..], dims)
    ensures ok ==> IsRun(ValidPoints(vecs, deleted), Seed(ValidPoints(vecs, deleted), cents.Length), trace, dims, dist)
  {
    hide IsIteration, ValidPoints;
    trace := [];
    if |vecs| == 0 || iters <= 0 {
      NoPoints(vecs, deleted);
      return false, [];
    }
    var ps := CollectValid(vecs, deleted);
    if |ps| == 0 {
      return false, [];
    }
    assert AllOf(ps, dims) by {
      forall i | 0 <= i < |ps| ensures |ps[i]| == dims { assert ps[i] in ps; }
    }
    SeedCentroids(ps, cents, dims);
    ghost var seed := cents[..];
    var labels := new nat[|ps|](_ => 0);
    var iter := 0;
    while iter < iters
      invariant 0 <= iter <= iters && |trace| == iter
      invariant cents[..] == Before(seed, trace, iter) && (iter > 0 ==> AllOf(cents[..], dims))
      invariant IsRun(ps, seed, trace, dims, dist)
    {
      ghost var before := cents[..];
      Iterate(ps, cents, labels, dims, dist, c => rnd(iter, c));
      IterationDims(ps, before, Snapshot(labels[..], cents[..]), dims, dist);
      RunNext(ps, seed, trace, Snapshot(labels[..], cents[..]), dims, dist);
      trace := trace + [Snapshot(labels[..], cents[..])];
      iter := iter + 1;
    }
    ok := true;
  }

  lemma NoPoints(vecs: seq<Point>, deleted: seq<bool>)
    requires |vecs| <= |deleted|
    ensures vecs == [] ==> ValidPoints(vecs, deleted) == []
  {
  }

  lemma IterationDims(ps: seq<Point>, cs: seq<Point>, s: Snapshot, dims: nat, dist: Metric)
    requires IsIteration(ps, cs, s, dims, dist)
    ensures AllOf(s.cents, dims)
  {
  }

  /** Initial centroids cycle through the valid points. */
  method SeedCentroids(ps: seq<Point>, cents: array<Point>, dims: nat)
    requires |ps| > 0 && AllOf(ps, dims)
    modifies cents
    ensures cents[..] == Seed(ps, cents.Length)
  {
    var c := 0;
    while c < cents.Length
      invariant 0 <= c <= cents.Length
      invariant forall b :: 0 <= b < c ==> cents[b] == ps[b % |ps|]
    {
      cents[c] := ps[c % |ps|];
      c := c + 1;
    }
  }
}
