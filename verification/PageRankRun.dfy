/** The loops of `graphPageRank`. */
module PageRankRun {
  import opened Vectors
  import opened Graphs
  import opened PageRank
  import opened PageRankStops

  /** The grouped count of rows per source node. */
  method OutDegrees(es: seq<Edge>, n: nat) returns (deg: array<nat>)
    requires NodesOk(es, n)
    ensures fresh(deg) && deg.Length == n + 1 && forall u :: 0 <= u <= n ==> deg[u] == OutDegree(es, u)
  {
    deg := new nat[n + 1](_ => 0);
    assert es[..0] == [];
    var k := 0;
    while k < |es|
      invariant 0 <= k <= |es|
      invariant forall u :: 0 <= u <= n ==> deg[u] == OutDegree(es[..k], u)
    {
      assert es[k] in es && es[..k + 1][..k] == es[..k];
      deg[es[k].from] := deg[es[k].from] + 1;
      k := k + 1;
    }
    assert es[..k] == es;
  }

  function Along(damping: real, x: real, d: nat): real
    requires d > 0
  {
    damping * x / d as real
  }

  lemma ShareAlong(damping: real, x: real, d: nat)
    requires d > 0
    ensures Along(damping, x, d) == Scale(damping, Ratio(x, d))
  {
  }

  /** One more row adds its share to the slot of its target. */
  lemma IntoNext(es: seq<Edge>, n: nat, damping: real, f: Ranks, k: nat, v: int)
    requires n > 0 && InRange(es, f) && k < |es|
    ensures es[k] in es && InRange(es[..k], f) && InRange(es[..k + 1], f)
    ensures NewRank(es[..k + 1], n, damping, f, v) ==
      NewRank(es[..k], n, damping, f, v) + if es[k].to == v then Scale(damping, f[es[k].from]) else 0.0
  {
    assert es[..k + 1][..k] == es[..k];
    assert forall e :: e in es[..k + 1] ==> e in es;
    LastInRange(es[..k + 1], f);
    ScaleSum(damping, Into(es[..k], f, v), f[es[k].from]);
  }

  lemma NothingArrived(n: nat, damping: real, f: Ranks, v: int)
    requires n > 0
    ensures InRange([], f) && NewRank([], n, damping, f, v) == Base(n, damping)
  {
    ScaleSum(damping, 0.0, 0.0);
  }

  lemma DegreePositive(es: seq<Edge>, k: nat)
    requires k < |es|
    ensures OutDegree(es, es[k].from) > 0
    decreases |es|
  {
    if k < |es| - 1 {
      DegreePositive(es[..|es| - 1], k);
    }
  }

  /** Fills the new ranks: the base everywhere, then one share per row. */
  method Distribute(es: seq<Edge>, n: nat, damping: real, rank: array<real>, deg: array<nat>, next: array<real>)
    requires NodesOk(es, n) && rank.Length == deg.Length == next.Length == n + 1 && next != rank
    requires forall u :: 0 <= u <= n ==> deg[u] == OutDegree(es, u)
    modifies next
    ensures next[..] == Step(es, n, damping, rank[..])
  {
    hide Into, Scale, Ratio, NewRank, Base, Along;
    ghost var r := rank[..];
    ghost var f := Shares(es, r);
    SharesInRange(es, n, r);
    forall v: nat | v <= n {
      next[v] := Base(n, damping);
    }
    assert es[..0] == [];
    forall v: nat | v <= n
      ensures InRange(es[..0], f) && next[v] == NewRank(es[..0], n, damping, f, v)
    {
      NothingArrived(n, damping, f, v);
    }
    var k := 0;
    while k < |es|
      invariant 0 <= k <= |es| && InRange(es[..k], f) && rank[..] == r
      invariant forall v :: 0 <= v <= n ==> next[v] == NewRank(es[..k], n, damping, f, v)
    {
      var e := es[k];
      assert e in es;
      DegreePositive(es, k);
      forall v | 0 <= v <= n
        ensures InRange(es[..k + 1], f)
        ensures NewRank(es[..k + 1], n, damping, f, v) ==
          NewRank(es[..k], n, damping, f, v) + if e.to == v then Scale(damping, f[e.from]) else 0.0
      {
        IntoNext(es, n, damping, f, k, v);
      }
      if deg[e.from] > 0 {
        assert f[e.from] == Ratio(r[e.from], deg[e.from]);
        ShareAlong(damping, rank[e.from], deg[e.from]);
        next[e.to] := next[e.to] + Along(damping, rank[e.from], deg[e.from]);
      }
      k := k + 1;
    }
    assert es[..k] == es;
    assert forall v :: 0 <= v <= n ==> next[..][v] == Step(es, n, damping, r)[v];
  }

  /** `m` is the largest change of a slot. */
  ghost predicate IsLargestChange(r: Ranks, r': Ranks, m: real)
    requires |r| == |r'|
  {
    && (forall i :: 0 <= i < |r| ==> -m <= r'[i] - r[i] <= m)
    && (exists i :: 0 <= i < |r| && (r'[i] - r[i] == m || r[i] - r'[i] == m))
  }

  /** Copies the new ranks over and reports the largest change. */
  method TakeOver(rank: array<real>, next: array<real>) returns (maxDiff: real)
    requires 0 < rank.Length == next.Length && rank != next
    modifies rank
    ensures rank[..] == next[..] && IsLargestChange(old(rank[..]), next[..], maxDiff)
  {
    maxDiff := 0.0;
    var i := 0;
    while i < rank.Length
      invariant 0 <= i <= rank.Length && (i == 0 ==> maxDiff == 0.0)
      invariant i > 0 ==> IsLargestChange(old(rank[..i]), next[..i], maxDiff)
      invariant forall j :: 0 <= j < i ==> rank[j] == next[j]
      invariant forall j :: i <= j < rank.Length ==> rank[j] == old(rank[j])
    {
      var diff := Abs(next[i] - rank[i]);
      LargerChange(old(rank[..]), next[..], i, maxDiff);
      if diff > maxDiff {
        maxDiff := diff;
      }
      rank[i] := next[i];
      i := i + 1;
    }
  }

  lemma LargerChange(r: Ranks, r': Ranks, i: nat, m: real)
    requires i < |r| == |r'| && (if i == 0 then m == 0.0 else IsLargestChange(r[..i], r'[..i], m))
    ensures var d := Abs(r'[i] - r[i]); IsLargestChange(r[..i + 1], r'[..i + 1], if d > m then d else m)
  {
    var d := Abs(r'[i] - r[i]);
    var s, s' := r[..i + 1], r'[..i + 1];
    assert s[i] == r[i] && s'[i] == r'[i];
    if i > 0 && d <= m {
      var j :| 0 <= j < i && (r'[..i][j] - r[..i][j] == m || r[..i][j] - r'[..i][j] == m);
      assert s'[j] - s[j] == m || s[j] - s'[j] == m;
    }
    assert forall j :: 0 <= j < i ==> s[j] == r[..i][j] && s'[j] == r'[..i][j];
  }

  /** The comparison of the largest change is a comparison of every change. */
  lemma LargestDecides(es: seq<Edge>, n: nat, damping: real, epsilon: real, k: nat, m: real)
    requires NodesOk(es, n) && k > 0
    requires IsLargestChange(After(es, n, damping, k - 1), After(es, n, damping, k), m)
    ensures m < epsilon <==> Still(es, n, damping, epsilon, k)
  {
    hide After;
  }

  /**
   * `graphPageRank`: the ranks after `rounds` iterations, where the run stops at the first round that changes
   * no slot by `epsilon` or more, or at the limit.
   */
  method Run(es: seq<Edge>, n: nat, damping: real, maxIter: nat, epsilon: real) returns (ranks: Ranks, rounds: nat)
    requires IdsOk(es, n)
    ensures n == 0 ==> ranks == []
    ensures n > 0 ==> rounds <= maxIter && ranks == After(es, n, damping, rounds)
    ensures n > 0 ==> rounds == maxIter || Still(es, n, damping, epsilon, rounds)
    ensures n > 0 ==> forall k :: 0 < k < rounds ==> !Still(es, n, damping, epsilon, k)
    ensures n > 0 && 0.0 <= damping < 1.0 && epsilon > 0.0 ==> rounds <= Enough(damping, epsilon) + 1
    ensures n > 0 && 0.0 <= damping <= 1.0 ==> 1.0 - damping <= Mass(ranks, n) <= 1.0
    ensures n > 0 && 0.0 <= damping <= 1.0 && NoSinks(es, n) ==> Mass(ranks, n) == 1.0
  {
    hide Step, Mass, NoSinks, Still, Enough, After, IsLargestChange;
    if n == 0 {
      return [], 0;
    }
    var rank := new real[n + 1](_ => 1.0 / n as real);
    var next := new real[n + 1](_ => 0.0);
    var deg := OutDegrees(es, n);
    rounds := 0;
    AtStart(es, n, damping);
    assert rank[..] == After(es, n, damping, 0);
    while rounds < maxIter
      invariant rounds <= maxIter && rank[..] == After(es, n, damping, rounds)
      invariant forall k :: 0 < k <= rounds ==> !Still(es, n, damping, epsilon, k)
      invariant forall u :: 0 <= u <= n ==> deg[u] == OutDegree(es, u)
    {
      Distribute(es, n, damping, rank, deg, next);
      var maxDiff := TakeOver(rank, next);
      rounds := rounds + 1;
      AfterNext(es, n, damping, rounds);
      LargestDecides(es, n, damping, epsilon, rounds, maxDiff);
      if maxDiff < epsilon {
        break;
      }
    }
    ranks := rank[..];
    if 0.0 <= damping < 1.0 && epsilon > 0.0 {
      StillAfter(es, n, damping, epsilon, Enough(damping, epsilon) + 1);
    }
    if 0.0 <= damping <= 1.0 {
      RunMass(es, n, damping, rounds);
    }
  }
}
