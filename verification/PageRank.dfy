/** `graphPageRank` over node ids 1..n: what one iteration does to the total rank. */
module PageRank {
  import opened Reals
  import opened Graphs

  /** The ranks are indexed by node id; slot 0 belongs to no node. */
  type Ranks = seq<real>

  ghost predicate IdsOk(es: seq<Edge>, n: nat) {
    forall e :: e in es ==> 1 <= e.from <= n && 1 <= e.to <= n
  }

  ghost predicate NodesOk(es: seq<Edge>, n: nat) { n > 0 && IdsOk(es, n) }

  /** The number of rows leaving a node. */
  function OutDegree(es: seq<Edge>, u: int): nat {
    if es == [] then 0 else OutDegree(es[..|es| - 1], u) + if es[|es| - 1].from == u then 1 else 0
  }

  /** The total over the nodes 1..k. */
  ghost function Mass(r: Ranks, k: nat): real
    requires k < |r|
  {
    if k == 0 then 0.0 else Mass(r, k - 1) + r[k]
  }

  function Ratio(x: real, d: nat): real { if d > 0 then x / d as real else 0.0 }

  /** What each node hands along each of its rows. */
  ghost function Shares(es: seq<Edge>, r: Ranks): (f: Ranks)
    ensures |f| == |r| && forall u :: 0 <= u < |r| ==> f[u] == Ratio(r[u], OutDegree(es, u))
  {
    seq(|r|, u requires 0 <= u < |r| => Ratio(r[u], OutDegree(es, u)))
  }

  ghost predicate InRange(es: seq<Edge>, f: Ranks) {
    forall e :: e in es ==> 0 <= e.from < |f|
  }

  /** What arrives at `v`. */
  ghost function Into(es: seq<Edge>, f: Ranks, v: int): real
    requires InRange(es, f)
  {
    if es == [] then 0.0
    else
      var e := es[|es| - 1];
      LastInRange(es, f);
      Into(es[..|es| - 1], f, v) + if e.to == v then f[e.from] else 0.0
  }

  lemma LastInRange(es: seq<Edge>, f: Ranks)
    requires InRange(es, f) && es != []
    ensures es[|es| - 1] in es && InRange(es[..|es| - 1], f)
  {
    assert forall e :: e in es[..|es| - 1] ==> e in es;
  }

  function Base(n: nat, damping: real): real
    requires n > 0
  {
    (1.0 - damping) / n as real
  }

  function Scale(damping: real, x: real): real { damping * x }

  ghost function NewRank(es: seq<Edge>, n: nat, damping: real, f: Ranks, v: int): real
    requires n > 0 && InRange(es, f)
  {
    Base(n, damping) + Scale(damping, Into(es, f, v))
  }

  /** One iteration. */
  ghost function Step(es: seq<Edge>, n: nat, damping: real, r: Ranks): (r': Ranks)
    requires NodesOk(es, n) && |r| == n + 1
    ensures |r'| == n + 1
  {
    seq(n + 1, v requires 0 <= v <= n => NewRank(es, n, damping, Shares(es, r), v))
  }

  // ----- what an iteration does at a node

  /** The positions of the rows leaving a node. */
  ghost function Leaving(es: seq<Edge>, u: int): set<nat> {
    set i: nat | i < |es| && es[i].from == u
  }

  lemma {:induction false} OutDegreeCounts(es: seq<Edge>, u: int)
    ensures OutDegree(es, u) == |Leaving(es, u)|
  {
    if es != [] {
      var k := |es| - 1;
      OutDegreeCounts(es[..k], u);
      if es[k].from == u {
        assert Leaving(es, u) == Leaving(es[..k], u) + {k};
      } else {
        assert Leaving(es, u) == Leaving(es[..k], u);
      }
    }
  }

  function Sum(xs: seq<real>): real {
    if xs == [] then 0.0 else Sum(xs[..|xs| - 1]) + xs[|xs| - 1]
  }

  lemma {:induction false} IntoIsSum(es: seq<Edge>, f: Ranks, v: int, xs: seq<real>)
    requires InRange(es, f) && |xs| == |es|
    requires forall i :: 0 <= i < |es| ==> es[i] in es && xs[i] == if es[i].to == v then f[es[i].from] else 0.0
    ensures Into(es, f, v) == Sum(xs)
  {
    if es != [] {
      LastInRange(es, f);
      IntoIsSum(es[..|es| - 1], f, v, xs[..|xs| - 1]);
    }
  }

  lemma LeavingHas(es: seq<Edge>, i: nat)
    requires i < |es|
    ensures |Leaving(es, es[i].from)| > 0
  {
    assert i in Leaving(es, es[i].from);
  }

  /** What row `i` carries: its source's rank over the number of rows leaving the source. */
  ghost function Carried(es: seq<Edge>, r: Ranks, i: nat): real
    requires i < |es| && 0 <= es[i].from < |r|
  {
    LeavingHas(es, i);
    r[es[i].from] / |Leaving(es, es[i].from)| as real
  }

  /** A node's new rank is the base and the damped sum of what the rows that lead to it carry. */
  lemma RankArrives(es: seq<Edge>, n: nat, damping: real, r: Ranks, v: nat, xs: seq<real>)
    requires NodesOk(es, n) && |r| == n + 1 && v <= n && |xs| == |es|
    requires forall i :: 0 <= i < |es| ==> es[i] in es && (es[i].to == v ==> xs[i] == Carried(es, r, i))
    requires forall i :: 0 <= i < |es| && es[i].to != v ==> xs[i] == 0.0
    ensures Step(es, n, damping, r)[v] == (1.0 - damping) / n as real + damping * Sum(xs)
  {
    hide Into, OutDegree, Leaving, Sum;
    var f := Shares(es, r);
    SharesInRange(es, n, r);
    forall i | 0 <= i < |es|
      ensures es[i] in es && xs[i] == if es[i].to == v then f[es[i].from] else 0.0
    {
      assert es[i] in es;
      OutDegreeCounts(es, es[i].from);
      LeavingHas(es, i);
    }
    IntoIsSum(es, f, v, xs);
  }

  // ----- total rank

  /** The part of the total held by nodes that have a row to hand it along. */
  ghost function Linked(es: seq<Edge>, r: Ranks, k: nat): real
    requires k < |r|
  {
    if k == 0 then 0.0 else Linked(es, r, k - 1) + if OutDegree(es, k) > 0 then r[k] else 0.0
  }

  /** The total arriving at the nodes 1..k. */
  ghost function Arrived(es: seq<Edge>, f: Ranks, k: nat): real
    requires InRange(es, f)
  {
    if k == 0 then 0.0 else Arrived(es, f, k - 1) + Into(es, f, k)
  }

  /** The total handed out by the nodes 1..k. */
  ghost function HandedOut(es: seq<Edge>, f: Ranks, k: nat): real
    requires k < |f|
  {
    if k == 0 then 0.0 else HandedOut(es, f, k - 1) + Times(OutDegree(es, k), f[k])
  }

  lemma TimesRatio(d: nat, x: real)
    ensures Times(d, Ratio(x, d)) == if d > 0 then x else 0.0
  {
  }

  /** One more row arrives at one node. */
  lemma {:induction false} ArrivedRow(es: seq<Edge>, e: Edge, f: Ranks, k: nat)
    requires InRange(es + [e], f) && InRange(es, f) && 0 <= e.from < |f| && 1 <= e.to
    ensures Arrived(es + [e], f, k) == Arrived(es, f, k) + if e.to <= k then f[e.from] else 0.0
  {
    if k > 0 {
      ArrivedRow(es, e, f, k - 1);
      assert (es + [e])[..|es|] == es;
    }
  }

  lemma {:induction false} HandedOutRow(es: seq<Edge>, e: Edge, f: Ranks, k: nat)
    requires k < |f| && 1 <= e.from < |f|
    ensures HandedOut(es + [e], f, k) == HandedOut(es, f, k) + if e.from <= k then f[e.from] else 0.0
  {
    if k > 0 {
      HandedOutRow(es, e, f, k - 1);
      assert (es + [e])[..|es|] == es;
      if e.from == k {
        TimesNext(OutDegree(es, k), f[k]);
      }
    }
  }

  /** Everything handed out arrives. */
  lemma {:induction false} FlowConserved(es: seq<Edge>, n: nat, f: Ranks)
    requires NodesOk(es, n) && |f| == n + 1 && InRange(es, f)
    ensures Arrived(es, f, n) == HandedOut(es, f, n)
  {
    if es == [] {
      NoFlow(f, n);
    } else {
      var k := |es| - 1;
      LastInRange(es, f);
      assert forall e :: e in es[..k] ==> e in es;
      FlowConserved(es[..k], n, f);
      assert es == es[..k] + [es[k]];
      ArrivedRow(es[..k], es[k], f, n);
      HandedOutRow(es[..k], es[k], f, n);
    }
  }

  lemma {:induction false} NoFlow(f: Ranks, k: nat)
    requires k < |f|
    ensures Arrived([], f, k) == 0.0 == HandedOut([], f, k)
  {
    if k > 0 {
      NoFlow(f, k - 1);
    }
  }

  lemma {:induction false} HandedOutIsLinked(es: seq<Edge>, r: Ranks, k: nat)
    requires k < |r|
    ensures HandedOut(es, Shares(es, r), k) == Linked(es, r, k)
  {
    if k > 0 {
      HandedOutIsLinked(es, r, k - 1);
      TimesRatio(OutDegree(es, k), r[k]);
    }
  }

  lemma SharesInRange(es: seq<Edge>, n: nat, r: Ranks)
    requires NodesOk(es, n) && |r| == n + 1
    ensures InRange(es, Shares(es, r))
  {
  }

  lemma ScaleSum(damping: real, a: real, b: real)
    ensures Scale(damping, a + b) == Scale(damping, a) + Scale(damping, b) && Scale(damping, 0.0) == 0.0
  {
  }

  lemma {:induction false} MassOfStep(es: seq<Edge>, n: nat, damping: real, r: Ranks, k: nat)
    requires NodesOk(es, n) && |r| == n + 1 && k <= n && InRange(es, Shares(es, r))
    ensures Mass(Step(es, n, damping, r), k) ==
      Times(k, Base(n, damping)) + Scale(damping, Arrived(es, Shares(es, r), k))
  {
    hide Into, Base, Scale, Times, Shares;
    var f := Shares(es, r);
    if k > 0 {
      MassOfStep(es, n, damping, r, k - 1);
      TimesNext(k - 1, Base(n, damping));
      ScaleSum(damping, Arrived(es, f, k - 1), Into(es, f, k));
    } else {
      ScaleSum(damping, 0.0, 0.0);
      TimesNone(Base(n, damping));
    }
  }

  lemma BaseTotal(n: nat, damping: real)
    requires n > 0
    ensures Times(n, Base(n, damping)) == 1.0 - damping
  {
  }

  ghost function Blend(damping: real, x: real): real { 1.0 - damping + damping * x }

  /** An iteration leaves a total of 1 - damping plus damping times the rank held by nodes with out-edges. */
  lemma StepMass(es: seq<Edge>, n: nat, damping: real, r: Ranks)
    requires NodesOk(es, n) && |r| == n + 1
    ensures Mass(Step(es, n, damping, r), n) == Blend(damping, Linked(es, r, n))
  {
    hide Into, Base, Times, Shares, Step;
    SharesInRange(es, n, r);
    MassOfStep(es, n, damping, r, n);
    BaseTotal(n, damping);
    FlowConserved(es, n, Shares(es, r));
    HandedOutIsLinked(es, r, n);
  }

  // ----- whole runs

  ghost predicate NonNegative(r: Ranks) {
    forall v :: 0 <= v < |r| ==> r[v] >= 0.0
  }

  lemma RatioNonNegative(x: real, d: nat)
    requires x >= 0.0
    ensures Ratio(x, d) >= 0.0
  {
  }

  lemma {:induction false} IntoNonNegative(es: seq<Edge>, f: Ranks, v: int)
    requires InRange(es, f) && NonNegative(f)
    ensures Into(es, f, v) >= 0.0
  {
    if es != [] {
      LastInRange(es, f);
      IntoNonNegative(es[..|es| - 1], f, v);
    }
  }

  lemma PartsNonNegative(n: nat, damping: real, x: real)
    requires n > 0 && 0.0 <= damping <= 1.0 && x >= 0.0
    ensures Base(n, damping) >= 0.0 && Scale(damping, x) >= 0.0
  {
  }

  lemma StepNonNegative(es: seq<Edge>, n: nat, damping: real, r: Ranks)
    requires NodesOk(es, n) && |r| == n + 1 && 0.0 <= damping <= 1.0 && NonNegative(r)
    ensures NonNegative(Step(es, n, damping, r))
  {
    hide Into, Base, Scale, Ratio;
    var f := Shares(es, r);
    forall u | 0 <= u < |f|
      ensures f[u] >= 0.0
    {
      RatioNonNegative(r[u], OutDegree(es, u));
    }
    forall v | 0 <= v <= n
      ensures Step(es, n, damping, r)[v] >= 0.0
    {
      IntoNonNegative(es, f, v);
      PartsNonNegative(n, damping, Into(es, f, v));
    }
  }

  /** The ranks after `k` iterations. */
  ghost function After(es: seq<Edge>, n: nat, damping: real, k: nat): (r: Ranks)
    requires NodesOk(es, n)
    ensures |r| == n + 1
  {
    if k == 0 then seq(n + 1, _ => 1.0 / n as real) else Step(es, n, damping, After(es, n, damping, k - 1))
  }

  lemma {:induction false} StartMass(es: seq<Edge>, n: nat, damping: real, k: nat)
    requires NodesOk(es, n) && k <= n
    ensures Mass(After(es, n, damping, 0), k) == Times(k, 1.0 / n as real)
  {
    hide Times;
    if k > 0 {
      StartMass(es, n, damping, k - 1);
      TimesNext(k - 1, 1.0 / n as real);
    } else {
      TimesNone(1.0 / n as real);
    }
  }

  /** The linked part is at most the whole, and is the whole when every node has an out-edge. */
  lemma {:induction false} LinkedPart(es: seq<Edge>, r: Ranks, k: nat)
    requires k < |r| && NonNegative(r)
    ensures 0.0 <= Linked(es, r, k) <= Mass(r, k)
    ensures (forall u :: 1 <= u <= k ==> OutDegree(es, u) > 0) ==> Linked(es, r, k) == Mass(r, k)
    ensures forall u :: 1 <= u <= k && OutDegree(es, u) == 0 ==> Linked(es, r, k) <= Mass(r, k) - r[u]
  {
    if k > 0 {
      LinkedPart(es, r, k - 1);
    }
  }

  ghost predicate NoSinks(es: seq<Edge>, n: nat) {
    forall u :: 1 <= u <= n ==> OutDegree(es, u) > 0
  }

  lemma Between(damping: real, x: real)
    requires 0.0 <= damping <= 1.0 && 0.0 <= x <= 1.0
    ensures 1.0 - damping <= Blend(damping, x) <= 1.0
    ensures x == 1.0 ==> Blend(damping, x) == 1.0
  {
    assert damping * x <= damping;
  }

  /** After every iteration the total is exactly 1 without sinks, and never leaves [1 - damping, 1]. */
  lemma {:induction false} RunMass(es: seq<Edge>, n: nat, damping: real, k: nat)
    requires NodesOk(es, n) && 0.0 <= damping <= 1.0
    ensures NonNegative(After(es, n, damping, k))
    ensures 1.0 - damping <= Mass(After(es, n, damping, k), n) <= 1.0
    ensures NoSinks(es, n) || k == 0 ==> Mass(After(es, n, damping, k), n) == 1.0
  {
    hide Mass, Linked, Step, Blend;
    if k == 0 {
      StartMass(es, n, damping, n);
      TimesRatio(n, 1.0);
      assert 1.0 / n as real > 0.0;
    } else {
      var r := After(es, n, damping, k - 1);
      RunMass(es, n, damping, k - 1);
      StepNonNegative(es, n, damping, r);
      StepMass(es, n, damping, r);
      LinkedPart(es, r, n);
      Between(damping, Linked(es, r, n));
    }
  }

  lemma BlendBelow(damping: real, x: real)
    requires 0.0 < damping && x < 1.0
    ensures Blend(damping, x) < 1.0
  {
    assert damping * x < damping;
  }

  /** At the start a sink holds some rank, which it will not hand on. */
  lemma SinkHolds(es: seq<Edge>, n: nat, damping: real)
    requires NodesOk(es, n) && 0.0 <= damping <= 1.0 && !NoSinks(es, n)
    ensures Linked(es, After(es, n, damping, 0), n) < 1.0
  {
    hide Mass, Linked;
    var r := After(es, n, damping, 0);
    RunMass(es, n, damping, 0);
    LinkedPart(es, r, n);
    var u :| 1 <= u <= n && OutDegree(es, u) == 0;
    assert r[u] == 1.0 / n as real > 0.0;
  }

  /** With a sink and some damping every iteration leaves less than 1. */
  lemma {:induction false} SinkLoses(es: seq<Edge>, n: nat, damping: real, k: nat)
    requires NodesOk(es, n) && 0.0 < damping <= 1.0 && !NoSinks(es, n) && k >= 1
    ensures Mass(After(es, n, damping, k), n) < 1.0
  {
    hide Mass, Linked, Step, After, NoSinks, Blend;
    var r := After(es, n, damping, k - 1);
    if k == 1 {
      SinkHolds(es, n, damping);
    } else {
      RunMass(es, n, damping, k - 1);
      SinkLoses(es, n, damping, k - 1);
      LinkedPart(es, r, n);
    }
    BlendBelow(damping, Linked(es, r, n));
    StepMass(es, n, damping, r);
    AfterNext(es, n, damping, k);
  }

  lemma AfterNext(es: seq<Edge>, n: nat, damping: real, k: nat)
    requires NodesOk(es, n) && k >= 1
    ensures After(es, n, damping, k) == Step(es, n, damping, After(es, n, damping, k - 1))
  {
  }

  lemma {:induction false} UndampedKeeps(es: seq<Edge>, n: nat, k: nat)
    requires NodesOk(es, n) && k >= 1
    ensures Mass(After(es, n, 0.0, k), n) == 1.0
  {
    StepMass(es, n, 0.0, After(es, n, 0.0, k - 1));
  }

  /** Every iteration leaves a total of 1 if and only if there are no sinks or damping is zero; with sinks none does. */
  lemma MassKeptIff(es: seq<Edge>, n: nat, damping: real, k: nat)
    requires NodesOk(es, n) && 0.0 <= damping <= 1.0 && k >= 1
    ensures Mass(After(es, n, damping, k), n) == 1.0 <==> NoSinks(es, n) || damping == 0.0
  {
    hide Mass, After, NoSinks;
    RunMass(es, n, damping, k);
    if damping == 0.0 {
      UndampedKeeps(es, n, k);
    } else if !NoSinks(es, n) {
      SinkLoses(es, n, damping, k);
    }
  }
}
