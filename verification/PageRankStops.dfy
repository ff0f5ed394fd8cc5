/** When `graphPageRank` stops by itself: below full damping always, and within a known number of rounds. */
module PageRankStops {
  import opened Reals
  import opened Vectors
  import opened Graphs
  import opened PageRank

  // ----- one iteration shrinks differences

  /** The summed difference of two rankings over the nodes 1..k. */
  ghost function Drift(r: Ranks, r': Ranks, k: nat): real
    requires k < |r| == |r'|
  {
    if k == 0 then 0.0 else Drift(r, r', k - 1) + Abs(r[k] - r'[k])
  }

  ghost function Gaps(f: Ranks, f': Ranks): (h: Ranks)
    requires |f| == |f'|
    ensures |h| == |f| && forall u :: 0 <= u < |f| ==> h[u] == Abs(f[u] - f'[u])
  {
    seq(|f|, u requires 0 <= u < |f| => Abs(f[u] - f'[u]))
  }

  /** What arrives differs by no more than what the differences would bring. */
  lemma {:induction false} IntoGap(es: seq<Edge>, f: Ranks, f': Ranks, v: int)
    requires |f| == |f'| && InRange(es, f)
    ensures InRange(es, f') && InRange(es, Gaps(f, f'))
    ensures Abs(Into(es, f, v) - Into(es, f', v)) <= Into(es, Gaps(f, f'), v)
  {
    if es != [] {
      LastInRange(es, f);
      IntoGap(es[..|es| - 1], f, f', v);
    }
  }

  lemma RatioGap(x: real, y: real, d: nat)
    ensures Times(d, Abs(Ratio(x, d) - Ratio(y, d))) == if d > 0 then Abs(x - y) else 0.0
  {
    if d > 0 {
      assert Ratio(x, d) - Ratio(y, d) == (x - y) / d as real;
      if x >= y {
        assert (x - y) / d as real >= 0.0;
      } else {
        assert (x - y) / d as real < 0.0;
      }
    }
  }

  /** The differences of the shares hand out no more than the differences of the ranks. */
  lemma {:induction false} HandedOutGap(es: seq<Edge>, r: Ranks, r': Ranks, k: nat)
    requires k < |r| == |r'|
    ensures HandedOut(es, Gaps(Shares(es, r), Shares(es, r')), k) <= Drift(r, r', k)
  {
    hide Times, Ratio, Abs;
    if k > 0 {
      HandedOutGap(es, r, r', k - 1);
      RatioGap(r[k], r'[k], OutDegree(es, k));
      AbsNonNegative(r[k] - r'[k]);
    }
  }

  lemma AbsNonNegative(x: real)
    ensures Abs(x) >= 0.0
  {
  }

  lemma ScaleGap(damping: real, x: real, y: real, g: real)
    requires damping >= 0.0 && Abs(x - y) <= g
    ensures Abs(Scale(damping, x) - Scale(damping, y)) <= Scale(damping, g)
  {
    assert Scale(damping, x) - Scale(damping, y) == damping * (x - y);
    assert damping * (g - (x - y)) >= 0.0 && damping * (g + (x - y)) >= 0.0;
  }

  lemma {:induction false} DriftOfStep(es: seq<Edge>, n: nat, damping: real, r: Ranks, r': Ranks, k: nat)
    requires NodesOk(es, n) && |r| == |r'| == n + 1 && damping >= 0.0 && k <= n
    requires InRange(es, Gaps(Shares(es, r), Shares(es, r')))
    ensures Drift(Step(es, n, damping, r), Step(es, n, damping, r'), k) <=
            Scale(damping, Arrived(es, Gaps(Shares(es, r), Shares(es, r')), k))
  {
    hide Into, Scale, Shares, Abs, Gaps, Base;
    var f, f' := Shares(es, r), Shares(es, r');
    var h := Gaps(f, f');
    if k == 0 {
      ScaleSum(damping, 0.0, 0.0);
    } else {
      DriftOfStep(es, n, damping, r, r', k - 1);
      SharesInRange(es, n, r);
      IntoGap(es, f, f', k);
      ScaleGap(damping, Into(es, f, k), Into(es, f', k), Into(es, h, k));
      ScaleSum(damping, Arrived(es, h, k - 1), Into(es, h, k));
      SameBase(Base(n, damping), Scale(damping, Into(es, f, k)), Scale(damping, Into(es, f', k)));
    }
  }

  lemma SameBase(b: real, x: real, y: real)
    ensures Abs((b + x) - (b + y)) == Abs(x - y)
  {
  }

  /** An iteration shrinks the summed difference by the damping factor. */
  lemma StepShrinks(es: seq<Edge>, n: nat, damping: real, r: Ranks, r': Ranks)
    requires NodesOk(es, n) && |r| == |r'| == n + 1 && damping >= 0.0
    ensures Drift(Step(es, n, damping, r), Step(es, n, damping, r'), n) <= Scale(damping, Drift(r, r', n))
  {
    hide Into, Scale, Shares, Abs, Gaps, Step, Drift, Arrived, HandedOut;
    var f, f' := Shares(es, r), Shares(es, r');
    SharesInRange(es, n, r);
    IntoGap(es, f, f', 0);
    DriftOfStep(es, n, damping, r, r', n);
    FlowConserved(es, n, Gaps(f, f'));
    HandedOutGap(es, r, r', n);
    ScaleOrder(damping, HandedOut(es, Gaps(f, f'), n), Drift(r, r', n));
  }

  lemma ScaleOrder(damping: real, x: real, y: real)
    requires damping >= 0.0 && x <= y
    ensures Scale(damping, x) <= Scale(damping, y)
  {
    assert damping * (y - x) >= 0.0;
  }

  // ----- geometric decay

  ghost function Pow(d: real, k: nat): real {
    if k == 0 then 1.0 else Scale(d, Pow(d, k - 1))
  }

  lemma {:induction false} PowBounds(d: real, k: nat)
    requires 0.0 <= d <= 1.0
    ensures 0.0 <= Pow(d, k) <= 1.0
  {
    hide Scale;
    if k > 0 {
      PowBounds(d, k - 1);
      ScaleRange(d, Pow(d, k - 1));
    }
  }

  lemma ScaleRange(x: real, y: real)
    requires 0.0 <= x <= 1.0 && 0.0 <= y <= 1.0
    ensures 0.0 <= Scale(x, y) <= 1.0
  {
    ProductNonNegative(x, y);
    ProductNonNegative(1.0 - x, y);
    assert (1.0 - x) * y == y - x * y;
  }

  lemma ProductNonNegative(x: real, y: real)
    requires 0.0 <= x && 0.0 <= y
    ensures 0.0 <= x * y
  {
  }

  /** Powers fall at least as fast as 1 / (1 + k (1 - d)). */
  lemma {:induction false} PowDecays(d: real, k: nat)
    requires 0.0 <= d <= 1.0
    ensures Pow(d, k) * (1.0 + Times(k, 1.0 - d)) <= 1.0
  {
    if k == 0 {
      TimesNone(1.0 - d);
    } else {
      PowDecays(d, k - 1);
      PowBounds(d, k);
      TimesNext(k - 1, 1.0 - d);
      DecayStep(d, Pow(d, k - 1), Times(k - 1, 1.0 - d), Pow(d, k));
    }
  }

  lemma DecayStep(d: real, p: real, t: real, p': real)
    requires 0.0 <= d <= 1.0 && p * (1.0 + t) <= 1.0 && p' == Scale(d, p) && p' <= 1.0
    ensures p' * (1.0 + (t + (1.0 - d))) <= 1.0
  {
    var a := p * (1.0 + t);
    assert p' * (1.0 + (t + (1.0 - d))) == d * a + p' * (1.0 - d);
    assert d * a <= d;
    assert p' * (1.0 - d) <= 1.0 - d;
  }

  /** Enough rounds for twice the power to fall below `epsilon`. */
  function Enough(damping: real, epsilon: real): nat
    requires 0.0 <= damping < 1.0 && epsilon > 0.0
  {
    var x := 2.0 / (epsilon * (1.0 - damping));
    if x < 0.0 then 1 else x.Floor + 1
  }

  lemma EnoughIs(damping: real, epsilon: real)
    requires 0.0 <= damping < 1.0 && epsilon > 0.0
    ensures Scale(epsilon, Times(Enough(damping, epsilon), 1.0 - damping)) > 2.0
  {
    var w := epsilon * (1.0 - damping);
    assert w > 0.0;
    var x := 2.0 / w;
    QuotientPositive(2.0, w);
    assert Enough(damping, epsilon) == x.Floor + 1;
    OverTwo(epsilon, 1.0 - damping, w, x, Enough(damping, epsilon));
  }

  lemma QuotientPositive(a: real, w: real)
    requires a > 0.0 && w > 0.0
    ensures a / w > 0.0 && (a / w) * w == a
  {
  }

  lemma OverTwo(epsilon: real, c: real, w: real, x: real, k: nat)
    requires w > 0.0 && w == epsilon * c && x * w == 2.0 && k as real > x
    ensures Scale(epsilon, Times(k, c)) > 2.0
  {
    var y := k as real;
    assert (y - x) * w > 0.0;
    assert (y - x) * w == y * w - x * w;
    assert epsilon * (y * c) == y * (epsilon * c);
  }

  lemma PowIsSmall(damping: real, epsilon: real, k: nat)
    requires 0.0 <= damping < 1.0 && epsilon > 0.0 && k >= Enough(damping, epsilon)
    ensures Pow(damping, k) * 2.0 < epsilon
  {
    hide Enough, Pow, Times;
    PowDecays(damping, k);
    PowBounds(damping, k);
    EnoughIs(damping, epsilon);
    TimesGrows(Enough(damping, epsilon), k, 1.0 - damping);
    TimesGrows(0, k, 1.0 - damping);
    TimesNone(1.0 - damping);
    SmallStep(Pow(damping, k), Times(k, 1.0 - damping), Times(Enough(damping, epsilon), 1.0 - damping), epsilon);
  }

  lemma TimesGrows(j: nat, k: nat, x: real)
    requires j <= k && x >= 0.0
    ensures Times(j, x) <= Times(k, x)
  {
    assert (k - j) as real * x >= 0.0;
  }

  lemma SmallStep(p: real, t: real, t': real, epsilon: real)
    requires p >= 0.0 && epsilon > 0.0 && t >= 0.0 && p * (1.0 + t) <= 1.0 && t' <= t && Scale(epsilon, t') > 2.0
    ensures p * 2.0 < epsilon
  {
    assert epsilon * (t - t') >= 0.0;
    assert epsilon * t > 2.0;
    var gap := p * 2.0 - epsilon;
    assert gap * (1.0 + t) == 2.0 * (p * (1.0 + t)) - epsilon - epsilon * t;
    assert gap * (1.0 + t) < 0.0;
    NegativeFactor(gap, 1.0 + t);
  }

  lemma NegativeFactor(x: real, y: real)
    requires y > 0.0 && x * y < 0.0
    ensures x < 0.0
  {
  }

  // ----- runs

  /** The summed change of round `k`. */
  ghost function Change(es: seq<Edge>, n: nat, damping: real, k: nat): real
    requires NodesOk(es, n)
  {
    Drift(After(es, n, damping, k), After(es, n, damping, k + 1), n)
  }

  lemma {:induction false} DriftBound(r: Ranks, r': Ranks, k: nat)
    requires k < |r| == |r'| && NonNegative(r) && NonNegative(r')
    ensures Drift(r, r', k) <= Mass(r, k) + Mass(r', k)
  {
    if k > 0 {
      DriftBound(r, r', k - 1);
    }
  }

  lemma {:induction false} ChangeDecays(es: seq<Edge>, n: nat, damping: real, k: nat)
    requires NodesOk(es, n) && 0.0 <= damping <= 1.0
    ensures Change(es, n, damping, k) <= Pow(damping, k) * 2.0
  {
    hide Drift, Step, Mass, NoSinks, Scale;
    if k == 0 {
      RunMass(es, n, damping, 0);
      RunMass(es, n, damping, 1);
      DriftBound(After(es, n, damping, 0), After(es, n, damping, 1), n);
    } else {
      ChangeDecays(es, n, damping, k - 1);
      StepShrinks(es, n, damping, After(es, n, damping, k - 1), After(es, n, damping, k));
      AfterNext(es, n, damping, k);
      AfterNext(es, n, damping, k + 1);
      ScaleOrder(damping, Change(es, n, damping, k - 1), Pow(damping, k - 1) * 2.0);
      ScalePow(damping, k);
    }
  }

  lemma ScalePow(damping: real, k: nat)
    requires k > 0
    ensures Scale(damping, Pow(damping, k - 1) * 2.0) == Pow(damping, k) * 2.0
  {
  }

  // ----- the stopping test

  /** Round `k` changed every slot by less than `epsilon`. */
  ghost predicate Still(es: seq<Edge>, n: nat, damping: real, epsilon: real, k: nat)
    requires NodesOk(es, n)
  {
    k > 0 && forall v :: 0 <= v <= n ==>
      -epsilon < After(es, n, damping, k)[v] - After(es, n, damping, k - 1)[v] < epsilon
  }

  /** No slot but 0 moves by more than the summed change. */
  lemma {:induction false} MovesBelowDrift(r: Ranks, r': Ranks, k: nat, v: nat)
    requires k < |r| == |r'| && v <= k
    ensures 0.0 <= Drift(r, r', k) && (v > 0 ==> Abs(r[v] - r'[v]) <= Drift(r, r', k))
  {
    if k > 0 {
      MovesBelowDrift(r, r', k - 1, if v < k then v else k - 1);
    }
  }

  lemma {:induction false} NothingIntoZero(es: seq<Edge>, f: Ranks)
    requires InRange(es, f) && forall e :: e in es ==> e.to >= 1
    ensures Into(es, f, 0) == 0.0
  {
    if es != [] {
      LastInRange(es, f);
      assert forall e :: e in es[..|es| - 1] ==> e in es;
      NothingIntoZero(es[..|es| - 1], f);
    }
  }

  /** From the first iteration on slot 0 stands still. */
  lemma SlotZero(es: seq<Edge>, n: nat, damping: real, k: nat)
    requires NodesOk(es, n) && k >= 1
    ensures After(es, n, damping, k)[0] == Base(n, damping)
  {
    hide Into, Base, Scale, Shares;
    var f := Shares(es, After(es, n, damping, k - 1));
    SharesInRange(es, n, After(es, n, damping, k - 1));
    NothingIntoZero(es, f);
    ScaleSum(damping, 0.0, 0.0);
  }

  /** Below full damping every round after a known one passes the stopping test. */
  lemma StillAfter(es: seq<Edge>, n: nat, damping: real, epsilon: real, k: nat)
    requires NodesOk(es, n) && 0.0 <= damping < 1.0 && epsilon > 0.0 && k > Enough(damping, epsilon)
    ensures Still(es, n, damping, epsilon, k)
  {
    hide After, Drift, Pow, Base;
    EnoughPositive(damping, epsilon);
    SlotZero(es, n, damping, k - 1);
    SlotZero(es, n, damping, k);
    var r, r' := After(es, n, damping, k - 1), After(es, n, damping, k);
    ChangeDecays(es, n, damping, k - 1);
    PowIsSmall(damping, epsilon, k - 1);
    forall v | 0 <= v <= n
      ensures -epsilon < r'[v] - r[v] < epsilon
    {
      MovesBelowDrift(r, r', n, v);
    }
  }

  lemma EnoughPositive(damping: real, epsilon: real)
    requires 0.0 <= damping < 1.0 && epsilon > 0.0
    ensures Enough(damping, epsilon) >= 1
  {
  }

  // ----- full damping can go on forever

  /** Two nodes that hand everything to each other, and a third that feeds one of them. */
  function Swing(): seq<Edge> { [Edge(1, 2, 1.0), Edge(2, 1, 1.0), Edge(3, 1, 1.0)] }

  lemma SwingParts()
    ensures Swing()[..2] == [Edge(1, 2, 1.0), Edge(2, 1, 1.0)] && Swing()[..2][..1] == [Edge(1, 2, 1.0)]
    ensures Swing()[..2][..1][..0] == [] && NodesOk(Swing(), 3)
  {
  }

  lemma SwingDegrees()
    ensures OutDegree(Swing(), 1) == OutDegree(Swing(), 2) == OutDegree(Swing(), 3) == 1
  {
    SwingParts();
    var es := Swing();
    assert forall u :: OutDegree(es, u) == OutDegree(es[..2], u) + if u == 3 then 1 else 0;
    assert forall u :: OutDegree(es[..2], u) == OutDegree(es[..2][..1], u) + if u == 2 then 1 else 0;
    assert forall u :: OutDegree(es[..2][..1], u) == OutDegree([], u) + if u == 1 then 1 else 0;
  }

  lemma SwingInto(f: Ranks)
    requires |f| == 4 && InRange(Swing(), f)
    ensures Into(Swing(), f, 1) == f[2] + f[3] && Into(Swing(), f, 2) == f[1] && Into(Swing(), f, 3) == 0.0
  {
    SwingParts();
    var es := Swing();
    LastInRange(es, f);
    LastInRange(es[..2], f);
    LastInRange(es[..2][..1], f);
    forall v: int
      ensures Into(es, f, v) ==
        (if v == 2 then f[1] else 0.0) + (if v == 1 then f[2] else 0.0) + (if v == 1 then f[3] else 0.0)
    {
      assert Into([], f, v) == 0.0;
      assert Into(es[..2][..1], f, v) == if v == 2 then f[1] else 0.0;
      assert Into(es[..2], f, v) == Into(es[..2][..1], f, v) + if v == 1 then f[2] else 0.0;
    }
  }

  lemma SwingStep(r: Ranks)
    requires |r| == 4 && NodesOk(Swing(), 3)
    ensures var r' := Step(Swing(), 3, 1.0, r); r'[1] == r[2] + r[3] && r'[2] == r[1] && r'[3] == 0.0
  {
    hide Into, OutDegree;
    SwingDegrees();
    SharesInRange(Swing(), 3, r);
    SwingInto(Shares(Swing(), r));
    assert Base(3, 1.0) == 0.0;
  }

  /** After the first round the two ranks are a third and two thirds, and swap in every round. */
  lemma {:induction false} SwingRun(k: nat)
    requires k >= 1 && NodesOk(Swing(), 3)
    ensures After(Swing(), 3, 1.0, k)[3] == 0.0
    ensures After(Swing(), 3, 1.0, k)[1] == if k % 2 == 1 then 2.0 / 3.0 else 1.0 / 3.0
    ensures After(Swing(), 3, 1.0, k)[2] == if k % 2 == 1 then 1.0 / 3.0 else 2.0 / 3.0
  {
    hide Step;
    SwingStep(After(Swing(), 3, 1.0, k - 1));
    if k > 1 {
      SwingRun(k - 1);
    }
  }

  /** With full damping this run never passes a test of a third. */
  lemma SwingNeverStill(k: nat)
    requires NodesOk(Swing(), 3)
    ensures !Still(Swing(), 3, 1.0, 1.0 / 3.0, k)
  {
    hide NodesOk, Step;
    if k > 0 {
      var r, r' := After(Swing(), 3, 1.0, k - 1), After(Swing(), 3, 1.0, k);
      SwingRun(k);
      if k > 1 {
        SwingRun(k - 1);
      }
      assert Abs(r'[1] - r[1]) >= 1.0 / 3.0;
    }
  }

  /** Every run with a positive tolerance passes the stopping test at some round. */
  ghost predicate AlwaysStops(damping: real) {
    forall es, n: nat, epsilon :: NodesOk(es, n) && epsilon > 0.0 ==> Stops(es, n, damping, epsilon)
  }

  ghost predicate Stops(es: seq<Edge>, n: nat, damping: real, epsilon: real)
    requires NodesOk(es, n)
  {
    exists k: nat :: Still(es, n, damping, epsilon, k)
  }

  /** For damping from 0 to 1 every run stops by itself if and only if damping is below 1. */
  lemma StopsIff(damping: real)
    requires 0.0 <= damping <= 1.0
    ensures AlwaysStops(damping) <==> damping < 1.0
  {
    hide Still, Enough;
    if damping < 1.0 {
      forall es, n: nat, epsilon | NodesOk(es, n) && epsilon > 0.0
        ensures Stops(es, n, damping, epsilon)
      {
        StillAfter(es, n, damping, epsilon, Enough(damping, epsilon) + 1);
      }
    } else {
      SwingParts();
      SwingNeverStops();
    }
  }

  lemma SwingNeverStops()
    requires NodesOk(Swing(), 3)
    ensures !Stops(Swing(), 3, 1.0, 1.0 / 3.0)
  {
    if Stops(Swing(), 3, 1.0, 1.0 / 3.0) {
      var k: nat :| Still(Swing(), 3, 1.0, 1.0 / 3.0, k);
      SwingNeverStill(k);
    }
  }

  lemma AtStart(es: seq<Edge>, n: nat, damping: real)
    requires NodesOk(es, n)
    ensures After(es, n, damping, 0) == seq(n + 1, _ => 1.0 / n as real)
  {
  }
}
