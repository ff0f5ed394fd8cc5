/** Vectors over the reals and sums over their coordinates. */
module Vectors {

  type Point = seq<real>

  type Metric = (Point, Point) -> real

  function Sq(x: real): real { x * x }

  function Abs(x: real): real { if x < 0.0 then -x else x }

  /** Squared gaps summed over the first `d` coordinates. */
  ghost function SqUpTo(q: Point, p: Point, d: nat): real
    requires d <= |q| && d <= |p|
  {
    if d == 0 then 0.0 else SqUpTo(q, p, d - 1) + Sq(q[d - 1] - p[d - 1])
  }

  ghost function SqDist(q: Point, p: Point): real
    requires |q| == |p|
  {
    SqUpTo(q, p, |q|)
  }

  ghost function AbsUpTo(q: Point, p: Point, d: nat): real
    requires d <= |q| && d <= |p|
  {
    if d == 0 then 0.0 else AbsUpTo(q, p, d - 1) + Abs(q[d - 1] - p[d - 1])
  }

  ghost function AbsDist(q: Point, p: Point): real
    requires |q| == |p|
  {
    AbsUpTo(q, p, |q|)
  }

  lemma {:induction false} SqUpToAxis(q: Point, p: Point, d: nat, a: nat)
    requires d <= |q| && d <= |p|
    ensures SqUpTo(q, p, d) >= 0.0 && (a < d ==> SqUpTo(q, p, d) >= Sq(q[a] - p[a]))
  {
    if d > 0 {
      SqUpToAxis(q, p, d - 1, a);
    }
  }

  lemma {:induction false} AbsUpToAxis(q: Point, p: Point, d: nat, a: nat)
    requires d <= |q| && d <= |p|
    ensures AbsUpTo(q, p, d) >= 0.0 && (a < d ==> AbsUpTo(q, p, d) >= Abs(q[a] - p[a]))
  {
    if d > 0 {
      AbsUpToAxis(q, p, d - 1, a);
    }
  }

  // ----- the metrics of the index

  /** The root of the summed squares. */
  ghost predicate IsL2(dist: Metric) {
    forall q, p {:trigger dist(q, p)} :: |q| == |p| ==> dist(q, p) >= 0.0 && Sq(dist(q, p)) == SqDist(q, p)
  }

  ghost predicate IsL1(dist: Metric) {
    forall q, p {:trigger dist(q, p)} :: |q| == |p| ==> dist(q, p) == AbsDist(q, p)
  }

  ghost predicate IsSquaredL2(dist: Metric) {
    forall q, p {:trigger dist(q, p)} :: |q| == |p| ==> dist(q, p) == SqDist(q, p)
  }

  lemma OneCoordinate(x: real, y: real)
    ensures SqDist([x], [y]) == Sq(x - y) && AbsDist([x], [y]) == Abs(x - y)
  {
    assert SqUpTo([x], [y], 1) == SqUpTo([x], [y], 0) + Sq(x - y);
    assert AbsUpTo([x], [y], 1) == AbsUpTo([x], [y], 0) + Abs(x - y);
  }

  lemma SquareGrows(d: real, e: real)
    requires 0.0 <= d < e
    ensures d * d < e * e
  {
    var f := e - d;
    assert e * e == d * d + f * (e + d);
    assert f * (e + d) > 0.0;
  }

  lemma SqOrder(d: real, g: real)
    requires d >= 0.0
    ensures Sq(d) >= Sq(g) ==> d >= Abs(g)
  {
    var e := Abs(g);
    assert Sq(g) == e * e;
    if d < e {
      SquareGrows(d, e);
    }
  }

  /** Over one coordinate the distance is the gap, as for L1 and L2. */
  ghost predicate LineGap(dist: Metric) {
    forall x, y {:trigger dist([x], [y])} :: dist([x], [y]) == Abs(x - y)
  }

  lemma L1IsLineGap(dist: Metric)
    requires IsL1(dist)
    ensures LineGap(dist)
  {
    forall x, y
      ensures dist([x], [y]) == Abs(x - y)
    {
      OneCoordinate(x, y);
    }
  }

  lemma L2IsLineGap(dist: Metric)
    requires IsL2(dist)
    ensures LineGap(dist)
  {
    forall x, y
      ensures dist([x], [y]) == Abs(x - y)
    {
      OneCoordinate(x, y);
      SqOrder(dist([x], [y]), x - y);
      SqOrder(Abs(x - y), dist([x], [y]));
    }
  }
}
