/** The pruned k-nearest search of the KD-tree and when it agrees with a full scan. */
module KDSearch {
  import opened Vectors
  import opened Rows
  import opened KDTree
  import opened TopK

  ghost function OwnHit(t: Tree, q: Point, m: RowidMap, dist: Metric): multiset<Hit>
    requires t.Node?
  {
    if !t.deleted && Passes(m, t.row.rowid) then multiset{HitOf(q, dist, t.row)} else multiset{}
  }

  /** The live, filter-passing rows of a subtree as hits. */
  ghost function Candidates(t: Tree, q: Point, m: RowidMap, dist: Metric): multiset<Hit> {
    if t.Leaf? then multiset{}
    else Candidates(t.left, q, m, dist) + OwnHit(t, q, m, dist) + Candidates(t.right, q, m, dist)
  }

  lemma ScanSplit(a: seq<Row>, own: seq<Row>, b: seq<Row>, q: Point, m: RowidMap, dist: Metric)
    ensures multiset(Scan(a + own + b, q, m, dist)) ==
      multiset(Scan(a, q, m, dist)) + multiset(Scan(own, q, m, dist)) + multiset(Scan(b, q, m, dist))
  {
    ScanConcat(a + own, b, q, m, dist);
    ScanConcat(a, own, q, m, dist);
  }

  lemma ScanOwn(t: Tree, q: Point, m: RowidMap, dist: Metric)
    requires t.Node?
    ensures multiset(Scan(if t.deleted then [] else [t.row], q, m, dist)) == OwnHit(t, q, m, dist)
  {
    if !t.deleted {
      assert [t.row][1..] == [];
    }
  }

  lemma {:induction false} CandidatesAreScan(t: Tree, q: Point, m: RowidMap, dist: Metric)
    ensures Candidates(t, q, m, dist) == multiset(Scan(Collect(t), q, m, dist))
  {
    if t.Node? {
      CandidatesAreScan(t.left, q, m, dist);
      CandidatesAreScan(t.right, q, m, dist);
      ScanOwn(t, q, m, dist);
      ScanSplit(Collect(t.left), if t.deleted then [] else [t.row], Collect(t.right), q, m, dist);
      hide Scan, OwnHit;
    }
  }

  // ----- the search

  /** The first farthest of the first `n` hits. */
  function Farthest(s: seq<Hit>, n: nat): (i: nat)
    requires 0 < n <= |s|
    ensures i < n && forall j :: 0 <= j < n ==> s[j].dist <= s[i].dist
  {
    if n == 1 then 0
    else
      var i := Farthest(s, n - 1);
      if s[n - 1].dist > s[i].dist then n - 1 else i
  }

  /** `topk_insert`: append while there is room, then replace a farthest hit by a closer one. */
  function Offer(s: seq<Hit>, k: nat, h: Hit): (r: seq<Hit>)
    requires 0 < k && |s| <= k
    ensures |s| <= |r| <= k
  {
    if |s| < k then s + [h]
    else
      var i := Farthest(s, k);
      if h.dist < s[i].dist then s[i := h] else s
  }

  function OfferNode(t: Tree, q: Point, m: RowidMap, dist: Metric, k: nat, s: seq<Hit>): (r: seq<Hit>)
    requires t.Node? && 0 < k && |s| <= k
    ensures |s| <= |r| <= k
  {
    if !t.deleted && Passes(m, t.row.rowid) then Offer(s, k, HitOf(q, dist, t.row)) else s
  }

  /** The far side is visited unless the slots are full with hits no farther than the squared gap. */
  predicate VisitFar(s: seq<Hit>, k: nat, gap: real)
    requires 0 < k && |s| <= k
  {
    |s| < k || Sq(gap) < s[Farthest(s, k)].dist
  }

  function Search(t: Tree, q: Point, m: RowidMap, dist: Metric, k: nat, s: seq<Hit>): (r: seq<Hit>)
    requires 0 < k && |s| <= k && PointsOk(t, |q|)
    ensures |s| <= |r| <= k
    decreases t
  {
    if t.Leaf? then s
    else
      var s1 := OfferNode(t, q, m, dist, k, s);
      var below := q[t.axis] < t.row.point[t.axis];
      var s2 := Search(if below then t.left else t.right, q, m, dist, k, s1);
      if VisitFar(s2, k, q[t.axis] - t.row.point[t.axis])
      then Search(if below then t.right else t.left, q, m, dist, k, s2)
      else s2
  }

  /** `kdtree_topk`: nothing for an empty tree or a non-positive k. */
  function Nearest(t: Tree, q: Point, m: RowidMap, dist: Metric, k: int): seq<Hit>
    requires PointsOk(t, |q|)
  {
    if t.Leaf? || k <= 0 then [] else Search(t, q, m, dist, k, [])
  }

  // ----- exactness

  /** On every axis the distance is at least the squared gap, for the rows that can be returned. */
  ghost predicate Dominates(t: Tree, q: Point, m: RowidMap, dist: Metric) {
    t.Leaf? ||
    (((!t.deleted && Passes(m, t.row.rowid)) ==> RowDominates(q, t.row.point, dist))
     && Dominates(t.left, q, m, dist) && Dominates(t.right, q, m, dist))
  }

  ghost predicate RowDominates(q: Point, p: Point, dist: Metric) {
    |p| == |q| ==> forall a :: 0 <= a < |q| ==> dist(q, p) >= Sq(q[a] - p[a])
  }

  lemma OfferTopK(s: seq<Hit>, k: nat, h: Hit, u: multiset<Hit>)
    requires 0 < k && |s| <= k && IsTopK(multiset(s), u, k)
    ensures IsTopK(multiset(Offer(s, k, h)), u + multiset{h}, k)
  {
    if |s| < k {
      TopKAdd(multiset(s), u, k, h);
    } else {
      var i := Farthest(s, k);
      if h.dist < s[i].dist {
        TopKReplace(multiset(s), u, k, h, s[i]);
      } else {
        TopKPrune(multiset(s), u, k, multiset{h});
      }
    }
  }

  lemma SquaredGapGrows(q: real, v: real, x: real)
    requires q <= v <= x || x <= v <= q
    ensures Sq(q - x) >= Sq(q - v)
  {
    var d := q - v;
    var e := v - x;
    assert (q - x) * (q - x) == d * d + 2.0 * (d * e) + e * e;
    assert d * e >= 0.0;
  }

  /** Rows beyond the split are at least the squared gap away. */
  lemma {:induction false} FarSideIsFar(t: Tree, q: Point, m: RowidMap, dist: Metric, axis: nat, v: real, h: Hit)
    requires PointsOk(t, |q|) && Dominates(t, q, m, dist) && axis < |q|
    requires (q[axis] <= v && AtLeast(t, axis, v)) || (v <= q[axis] && AtMost(t, axis, v))
    requires h in Candidates(t, q, m, dist)
    ensures h.dist >= Sq(q[axis] - v)
  {
    if h in Candidates(t.left, q, m, dist) {
      FarSideIsFar(t.left, q, m, dist, axis, v, h);
    } else if h in Candidates(t.right, q, m, dist) {
      FarSideIsFar(t.right, q, m, dist, axis, v, h);
    } else {
      assert h == HitOf(q, dist, t.row);
      SquaredGapGrows(q[axis], v, t.row.point[axis]);
    }
  }

  lemma PruneTopK(s: seq<Hit>, k: nat, u: multiset<Hit>, gap: real, c: multiset<Hit>)
    requires 0 < k && |s| <= k && IsTopK(multiset(s), u, k) && !VisitFar(s, k, gap)
    requires forall h :: h in c ==> h.dist >= Sq(gap)
    ensures IsTopK(multiset(s), u + c, k)
  {
    forall x, y | x in multiset(s) && y in c
      ensures x.dist <= y.dist
    {
      var j :| 0 <= j < |s| && s[j] == x;
    }
    TopKPrune(multiset(s), u, k, c);
  }

  lemma Regroup(u: multiset<Hit>, own: multiset<Hit>, a: multiset<Hit>, b: multiset<Hit>)
    ensures u + own + a + b == u + (a + own + b) && u + own + b + a == u + (a + own + b)
  {
  }

  /** The slots stay a top k of everything offered so far plus the whole subtree, pruned parts included. */
  lemma {:induction false} SearchTopK(t: Tree, q: Point, m: RowidMap, dist: Metric, k: nat, s: seq<Hit>,
                                      u: multiset<Hit>)
    requires 0 < k && |s| <= k && PointsOk(t, |q|) && Ordered(t) && Dominates(t, q, m, dist)
    requires IsTopK(multiset(s), u, k)
    ensures IsTopK(multiset(Search(t, q, m, dist, k, s)), u + Candidates(t, q, m, dist), k)
    decreases t
  {
    hide IsTopK, AtMost, AtLeast, RowDominates, VisitFar, Sq, OwnHit, OfferNode;
    if t.Node? {
      var s1 := OfferNode(t, q, m, dist, k, s);
      var own := OwnHit(t, q, m, dist);
      OfferNodeTopK(t, q, m, dist, k, s, u);
      var below := q[t.axis] < t.row.point[t.axis];
      var near, far := if below then t.left else t.right, if below then t.right else t.left;
      var a, b := Candidates(near, q, m, dist), Candidates(far, q, m, dist);
      SearchTopK(near, q, m, dist, k, s1, u + own);
      var s2 := Search(near, q, m, dist, k, s1);
      if VisitFar(s2, k, q[t.axis] - t.row.point[t.axis]) {
        SearchTopK(far, q, m, dist, k, s2, u + own + a);
      } else {
        PruneFar(far, q, m, dist, k, s2, u + own + a, t.axis, t.row.point[t.axis]);
      }
      Regroup(u, own, a, b);
      Regroup(u, own, b, a);
    } else {
      assert u + multiset{} == u;
    }
  }

  lemma PruneFar(far: Tree, q: Point, m: RowidMap, dist: Metric, k: nat, s: seq<Hit>, u: multiset<Hit>, axis: nat,
                 v: real)
    requires 0 < k && |s| <= k && PointsOk(far, |q|) && Dominates(far, q, m, dist) && axis < |q|
    requires (q[axis] <= v && AtLeast(far, axis, v)) || (v <= q[axis] && AtMost(far, axis, v))
    requires IsTopK(multiset(s), u, k) && !VisitFar(s, k, q[axis] - v)
    ensures IsTopK(multiset(s), u + Candidates(far, q, m, dist), k)
  {
    hide IsTopK, AtMost, AtLeast, Dominates, Sq, VisitFar;
    forall h | h in Candidates(far, q, m, dist)
      ensures h.dist >= Sq(q[axis] - v)
    {
      FarSideIsFar(far, q, m, dist, axis, v, h);
    }
    PruneTopK(s, k, u, q[axis] - v, Candidates(far, q, m, dist));
  }

  lemma OfferNodeTopK(t: Tree, q: Point, m: RowidMap, dist: Metric, k: nat, s: seq<Hit>, u: multiset<Hit>)
    requires t.Node? && 0 < k && |s| <= k && IsTopK(multiset(s), u, k)
    ensures IsTopK(multiset(OfferNode(t, q, m, dist, k, s)), u + OwnHit(t, q, m, dist), k)
  {
    if !t.deleted && Passes(m, t.row.rowid) {
      OfferTopK(s, k, HitOf(q, dist, t.row), u);
    } else {
      assert u + multiset{} == u;
    }
  }

  /** The pruned search returns min(k, n) of the n candidates of a full scan, none of the omitted ones closer. */
  lemma NearestIsExact(t: Tree, q: Point, m: RowidMap, dist: Metric, k: nat)
    requires PointsOk(t, |q|) && Ordered(t) && Dominates(t, q, m, dist)
    ensures IsTopK(multiset(Nearest(t, q, m, dist, k)), multiset(Scan(Collect(t), q, m, dist)), k)
  {
    CandidatesAreScan(t, q, m, dist);
    hide Ordered, Dominates, Search, Scan, Collect;
    if t.Node? && k > 0 {
      SearchTopK(t, q, m, dist, k, [], multiset{});
      hide Candidates, IsTopK;
      assert multiset{} + Candidates(t, q, m, dist) == Candidates(t, q, m, dist);
    }
  }
}
