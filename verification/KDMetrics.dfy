/**
 When the pruning test of the KD-tree is sound for the metrics of the index. The test compares a
 squared gap with stored distances, while the L2 distance is a square root.
 */
module KDMetrics {
  import opened Vectors
  import opened Rows
  import opened KDTree
  import opened TopK
  import opened KDRuns
  import opened KDSearch

  /** At least the gap on every axis, and equal to it over one coordinate. */
  ghost predicate GapMetric(dist: Metric) {
    && (forall q, p, a :: |q| == |p| && 0 <= a < |q| ==> dist(q, p) >= Abs(q[a] - p[a]))
    && LineGap(dist)
  }

  lemma L2IsGapMetric(dist: Metric)
    requires IsL2(dist)
    ensures GapMetric(dist)
  {
    forall q, p, a | |q| == |p| && 0 <= a < |q|
      ensures dist(q, p) >= Abs(q[a] - p[a])
    {
      SqUpToAxis(q, p, |q|, a);
      SqOrder(dist(q, p), q[a] - p[a]);
    }
    L2IsLineGap(dist);
  }

  lemma L1IsGapMetric(dist: Metric)
    requires IsL1(dist)
    ensures GapMetric(dist)
  {
    forall q, p, a | |q| == |p| && 0 <= a < |q|
      ensures dist(q, p) >= Abs(q[a] - p[a])
    {
      AbsUpToAxis(q, p, |q|, a);
    }
    L1IsLineGap(dist);
  }

  /** Every stored coordinate is within `g` of the query's. */
  ghost predicate Within(t: Tree, q: Point, g: real) {
    t.Leaf? || (PointWithin(t.row.point, q, g) && Within(t.left, q, g) && Within(t.right, q, g))
  }

  ghost predicate PointWithin(p: Point, q: Point, g: real) {
    |p| == |q| && forall a :: 0 <= a < |q| ==> Abs(q[a] - p[a]) <= g
  }

  /** Every search over a good tree whose coordinates lie within `g` of the query agrees with a scan. */
  ghost predicate ExactWithin(dist: Metric, g: real) {
    forall t, q, m, k: nat {:trigger Nearest(t, q, m, dist, k)} ::
      |q| > 0 && Good(t, |q|) && Within(t, q, g) ==>
      IsTopK(multiset(Nearest(t, q, m, dist, k)), multiset(Scan(Collect(t), q, m, dist)), k)
  }

  lemma {:induction false} SquaredL2Dominates(t: Tree, q: Point, m: RowidMap, dist: Metric)
    requires IsSquaredL2(dist)
    ensures Dominates(t, q, m, dist)
  {
    if t.Node? {
      SquaredL2Dominates(t.left, q, m, dist);
      SquaredL2Dominates(t.right, q, m, dist);
      if |t.row.point| == |q| {
        forall a | 0 <= a < |q|
          ensures dist(q, t.row.point) >= Sq(q[a] - t.row.point[a])
        {
          SqUpToAxis(q, t.row.point, |q|, a);
        }
      }
    }
  }

  /** With squared distances the pruned search is exact whatever the coordinates. */
  lemma SquaredL2Exact(dist: Metric, g: real)
    requires IsSquaredL2(dist)
    ensures ExactWithin(dist, g)
  {
    forall t, q, m, k: nat | |q| > 0 && Good(t, |q|) && Within(t, q, g)
      ensures IsTopK(multiset(Nearest(t, q, m, dist, k)), multiset(Scan(Collect(t), q, m, dist)), k)
    {
      SquaredL2Dominates(t, q, m, dist);
      NearestIsExact(t, q, m, dist, k);
    }
  }

  lemma SqBelowOne(x: real)
    requires Abs(x) <= 1.0
    ensures Sq(x) <= Abs(x)
  {
    var a := Abs(x);
    assert Sq(x) == a * a;
    assert a * a <= a * 1.0;
  }

  lemma {:induction false} SmallGapsDominate(t: Tree, q: Point, m: RowidMap, dist: Metric, g: real)
    requires GapMetric(dist) && g <= 1.0 && Within(t, q, g)
    ensures Dominates(t, q, m, dist)
  {
    if t.Node? {
      SmallGapsDominate(t.left, q, m, dist, g);
      SmallGapsDominate(t.right, q, m, dist, g);
      forall a | 0 <= a < |q|
        ensures dist(q, t.row.point) >= Sq(q[a] - t.row.point[a])
      {
        SqBelowOne(q[a] - t.row.point[a]);
      }
    }
  }

  // ----- the failing family, one tree for each bound above 1

  ghost function Root(g: real): real { (1.0 + g) / 2.0 }

  ghost function Missed(g: real): real { (Root(g) + g) / 2.0 }

  ghost function Witness(g: real): Tree {
    Pull(Row(1, [Root(g)]), 0, false, Pull(Row(2, [-g]), 0, false, Leaf, Leaf),
         Pull(Row(3, [Missed(g)]), 0, false, Leaf, Leaf))
  }

  lemma WitnessOrder(g: real)
    requires g > 1.0
    ensures 1.0 < Root(g) < Missed(g) < g && Sq(0.0 - Root(g)) >= g
  {
    assert Root(g) * Root(g) - g == ((g - 1.0) / 2.0) * ((g - 1.0) / 2.0);
  }

  lemma WitnessOk(g: real)
    requires g > 1.0
    ensures Good(Witness(g), 1) && Within(Witness(g), [0.0], g)
  {
    WitnessOrder(g);
    hide Sq, Root, Missed;
    SingletonOk(2, -g);
    SingletonOk(3, Missed(g));
    var t := Witness(g);
    assert AtMost(t.left, 0, Root(g)) && AtLeast(t.right, 0, Root(g));
    assert PointWithin([Root(g)], [0.0], g) && PointWithin([-g], [0.0], g) && PointWithin([Missed(g)], [0.0], g);
    assert Within(t.left, [0.0], g) && Within(t.right, [0.0], g);
  }

  lemma SingletonOk(id: int, x: real)
    ensures Good(Pull(Row(id, [x]), 0, false, Leaf, Leaf), 1)
  {
  }

  /** Searching the two nearest of 0 prunes the side that holds the second nearest. */
  lemma WitnessFails(dist: Metric, g: real)
    requires GapMetric(dist) && g > 1.0
    ensures PointsOk(Witness(g), 1)
    ensures var m := RowidMap([], false);
      !IsTopK(multiset(Nearest(Witness(g), [0.0], m, dist, 2)), multiset(Scan(Collect(Witness(g)), [0.0], m, dist)), 2)
  {
    WitnessOk(g);
    WitnessOrder(g);
    var q, m := [0.0], RowidMap([], false);
    var t := Witness(g);
    var h1, h2, h3 := Hit(1, Root(g)), Hit(2, g), Hit(3, Missed(g));
    WitnessHits(dist, g);
    hide GapMetric, Sq, Root, Missed, Good, Within;
    WitnessSearch(dist, g, h1, h2);
    CandidatesAreScan(t, q, m, dist);
    assert Candidates(t.left, q, m, dist) == multiset{h2} && Candidates(t.right, q, m, dist) == multiset{h3};
    assert Candidates(t, q, m, dist) == multiset{h2} + multiset{h1} + multiset{h3};
    hide Scan, Collect, Search, Nearest, Candidates, HitOf;
    TwoOfThree(h1, h2, h3);
  }

  lemma WitnessHits(dist: Metric, g: real)
    requires GapMetric(dist) && g > 1.0
    ensures var t := Witness(g);
      HitOf([0.0], dist, t.row) == Hit(1, Root(g)) && HitOf([0.0], dist, t.left.row) == Hit(2, g) &&
      HitOf([0.0], dist, t.right.row) == Hit(3, Missed(g))
  {
    WitnessOrder(g);
  }

  lemma TwoOfThree(h1: Hit, h2: Hit, h3: Hit)
    requires h3 != h1 && h3 != h2 && h3.dist < h2.dist
    ensures !IsTopK(multiset([h1, h2]), multiset{h2} + multiset{h1} + multiset{h3}, 2)
  {
    var r := multiset([h1, h2]);
    assert h2 in r && h3 in (multiset{h2} + multiset{h1} + multiset{h3}) - r;
  }

  lemma WitnessSearch(dist: Metric, g: real, h1: Hit, h2: Hit)
    requires g > 1.0 && g > Root(g) && Sq(0.0 - Root(g)) >= g && Root(g) > 0.0
    requires PointsOk(Witness(g), 1)
    requires h1 == HitOf([0.0], dist, Witness(g).row) && h2 == HitOf([0.0], dist, Witness(g).left.row)
    requires h1.dist == Root(g) && h2.dist == g
    ensures Nearest(Witness(g), [0.0], RowidMap([], false), dist, 2) == [h1, h2]
  {
    hide Sq;
    var q, m := [0.0], RowidMap([], false);
    var t := Witness(g);
    assert OfferNode(t, q, m, dist, 2, []) == [h1];
    assert OfferNode(t.left, q, m, dist, 2, [h1]) == [h1, h2];
    assert Search(t.left, q, m, dist, 2, [h1]) == [h1, h2];
    assert Farthest([h1, h2], 2) == 1;
    assert !VisitFar([h1, h2], 2, q[0] - Root(g));
  }

  // ----- the same over the trees of runs

  /** Some run of insertions and deletions ends with the tree. */
  ghost predicate Reached(t: Tree, dims: nat)
    requires dims > 0
  {
    exists ops, ts :: EndsIn(ops, ts, t, dims)
  }

  ghost predicate EndsIn(ops: seq<Op>, ts: seq<Tree>, t: Tree, dims: nat)
    requires dims > 0
  {
    Run(ops, dims, ts) && ts[|ops|] == t
  }

  /** Three insertions build the failing tree. */
  lemma WitnessReached(g: real)
    requires g > 1.0
    ensures Reached(Witness(g), 1)
  {
    hide Inserted;
    WitnessOrder(g);
    var ops := [Insert(Row(1, [Root(g)])), Insert(Row(2, [-g])), Insert(Row(3, [Missed(g)]))];
    var one := Single(1, Root(g));
    var two := Pull(Row(1, [Root(g)]), 0, false, Single(2, -g), Leaf);
    var ts := [Leaf, one, two, Witness(g)];
    InsertSingle(1, Root(g), 0);
    InsertSingle(2, -g, 1);
    InsertBelow(one, Row(2, [-g]), 0, Single(2, -g));
    InsertSingle(3, Missed(g), 1);
    InsertBelow(two, Row(3, [Missed(g)]), 0, Single(3, Missed(g)));
    forall i | 0 <= i < |ops|
      ensures Step(ts[i], ops[i], 1, ts[i + 1])
    {
    }
    assert EndsIn(ops, ts, Witness(g), 1);
  }

  /** Every search over a tree of some run, which is always good, within `g` of the query agrees with a scan. */
  ghost predicate RunsExactWithin(dist: Metric, g: real) {
    forall t, q, m, k: nat {:trigger Nearest(t, q, m, dist, k)} ::
      |q| > 0 && Good(t, |q|) && Reached(t, |q|) && Within(t, q, g) ==>
      IsTopK(multiset(Nearest(t, q, m, dist, k)), multiset(Scan(Collect(t), q, m, dist)), k)
  }

  /**
   For the L2 and L1 distances the search is exact on all data within `g` of the query
   if and only if `g` is at most 1, over all good trees as over the trees of runs.
   */
  lemma GapMetricExactIff(dist: Metric, g: real)
    requires GapMetric(dist)
    ensures ExactWithin(dist, g) <==> g <= 1.0
    ensures RunsExactWithin(dist, g) <==> g <= 1.0
  {
    hide Reached, GapMetric;
    if g <= 1.0 {
      forall t, q, m, k: nat | |q| > 0 && Good(t, |q|) && Within(t, q, g)
        ensures IsTopK(multiset(Nearest(t, q, m, dist, k)), multiset(Scan(Collect(t), q, m, dist)), k)
      {
        SmallGapsDominate(t, q, m, dist, g);
        NearestIsExact(t, q, m, dist, k);
      }
    } else {
      WitnessOk(g);
      WitnessReached(g);
      WitnessFails(dist, g);
    }
  }

  lemma L2ExactIff(dist: Metric, g: real)
    requires IsL2(dist)
    ensures ExactWithin(dist, g) <==> g <= 1.0
    ensures RunsExactWithin(dist, g) <==> g <= 1.0
  {
    hide ExactWithin, RunsExactWithin;
    L2IsGapMetric(dist);
    GapMetricExactIff(dist, g);
  }

  lemma L1ExactIff(dist: Metric, g: real)
    requires IsL1(dist)
    ensures ExactWithin(dist, g) <==> g <= 1.0
    ensures RunsExactWithin(dist, g) <==> g <= 1.0
  {
    hide ExactWithin, RunsExactWithin;
    L1IsGapMetric(dist);
    GapMetricExactIff(dist, g);
  }
}
