/** Breadth-first layers: what the state of the search says about shortest walks. */
module Traversal {
  import opened Sequences
  import opened Graphs

  /** Some walk from `s` to `v` has exactly `n` edges. */
  ghost predicate WalkOf(es: seq<Edge>, s: int, v: int, n: nat) {
    exists w :: |w| == n && IsWalk(es, s, w, v)
  }

  /** `n` is the least number of edges of a walk from `s` to `v`. */
  ghost predicate IsShortest(es: seq<Edge>, s: int, v: int, n: nat) {
    WalkOf(es, s, v, n) && forall m: nat :: WalkOf(es, s, v, m) ==> n <= m
  }

  /** `v` is at most `limit` edges from `s`; a negative limit means any number. */
  ghost predicate Within(es: seq<Edge>, s: int, v: int, limit: int) {
    exists n: nat :: WalkOf(es, s, v, n) && (limit < 0 || n <= limit)
  }

  lemma WalkNone(es: seq<Edge>, s: int)
    ensures WalkOf(es, s, s, 0)
    ensures forall v :: WalkOf(es, s, v, 0) ==> v == s
  {
    assert IsWalk(es, s, [], s);
  }

  lemma WalkThen(es: seq<Edge>, s: int, e: Edge, n: nat)
    requires WalkOf(es, s, e.from, n) && e in es
    ensures WalkOf(es, s, e.to, n + 1)
  {
    var w :| |w| == n && IsWalk(es, s, w, e.from);
    WalkEdge(es, e);
    WalkConcat(es, s, w, e.from, [e], e.to);
    assert |w + [e]| == n + 1;
  }

  /** A non-empty walk ends with a row. */
  lemma {:induction false} LastOfWalk(es: seq<Edge>, s: int, w: seq<Edge>, v: int)
    requires IsWalk(es, s, w, v) && w != []
    ensures var n := |w| - 1; w[n] in es && w[n].to == v && IsWalk(es, s, w[..n], w[n].from)
    decreases |w|
  {
    var n := |w| - 1;
    if n > 0 {
      LastOfWalk(es, w[0].to, w[1..], v);
      assert w[1..][..n - 1] == w[..n][1..];
    } else {
      assert IsWalk(es, w[0].to, w[1..], v);
    }
  }

  lemma WalkBefore(es: seq<Edge>, s: int, v: int, n: nat) returns (e: Edge)
    requires WalkOf(es, s, v, n) && n > 0
    ensures e in es && e.to == v && WalkOf(es, s, e.from, n - 1)
  {
    var w :| |w| == n && IsWalk(es, s, w, v);
    LastOfWalk(es, s, w, v);
    e := w[n - 1];
    assert |w[..n - 1]| == n - 1;
  }

  // ----- the invariant of the search

  /** `out` lists the visited nodes and `d` their recorded depths. */
  ghost predicate Layered(es: seq<Edge>, s: int, limit: int, out: seq<int>, d: seq<nat>) {
    && |out| == |d| && out != [] && out[0] == s && d[0] == 0
    && Distinct(out)
    && (forall i, j :: 0 <= i < j < |d| ==> d[i] <= d[j])
    && (forall i :: 0 <= i < |d| ==> WalkOf(es, s, out[i], d[i]) && (limit < 0 || d[i] <= limit))
  }

  /** `v` was visited at depth at most `n`. */
  ghost predicate SeenBy(out: seq<int>, d: seq<nat>, v: int, n: nat)
    requires |out| == |d|
  {
    exists j :: 0 <= j < |out| && out[j] == v && d[j] <= n
  }

  predicate Expands(limit: int, depth: nat) { limit < 0 || depth < limit }

  /** Fewer than `limit` edges away; a negative limit means any number. */
  ghost predicate Near(es: seq<Edge>, s: int, v: int, limit: int) {
    exists n: nat :: WalkOf(es, s, v, n) && Expands(limit, n)
  }

  /** Every node before `h` that may be expanded has had all its rows followed. */
  ghost predicate Expanded(es: seq<Edge>, limit: int, out: seq<int>, d: seq<nat>, h: nat)
    requires |out| == |d| && h <= |out|
  {
    forall i, e :: 0 <= i < h && Expands(limit, d[i]) && e in es && e.from == out[i] ==> SeenBy(out, d, e.to, d[i] + 1)
  }

  lemma SeenLater(out: seq<int>, d: seq<nat>, v: int, n: nat, x: int, m: nat)
    requires |out| == |d| && SeenBy(out, d, v, n)
    ensures SeenBy(out + [x], d + [m], v, n)
  {
    var j :| 0 <= j < |out| && out[j] == v && d[j] <= n;
    assert (out + [x])[j] == v && (d + [m])[j] <= n;
  }

  lemma SeenNow(out: seq<int>, d: seq<nat>, x: int, m: nat)
    requires |out| == |d|
    ensures SeenBy(out + [x], d + [m], x, m)
  {
    var n := |out|;
    assert (out + [x])[n] == x && (d + [m])[n] <= m;
  }

  /** Following a row from the node at `h` to an unvisited node. */
  lemma VisitNew(es: seq<Edge>, s: int, limit: int, out: seq<int>, d: seq<nat>, h: nat, e: Edge)
    requires Layered(es, s, limit, out, d) && h < |out| && Expanded(es, limit, out, d, h)
    requires d[|d| - 1] <= d[h] + 1 && Expands(limit, d[h]) && e in es && e.from == out[h] && e.to !in out
    ensures Layered(es, s, limit, out + [e.to], d + [d[h] + 1]) && Expanded(es, limit, out + [e.to], d + [d[h] + 1], h)
  {
    hide WalkOf, SeenBy;
    var out', d' := out + [e.to], d + [d[h] + 1];
    WalkThen(es, s, e, d[h]);
    forall i, f | 0 <= i < h && Expands(limit, d'[i]) && f in es && f.from == out'[i]
      ensures SeenBy(out', d', f.to, d'[i] + 1)
    {
      SeenLater(out, d, f.to, d[i] + 1, e.to, d[h] + 1);
    }
  }

  /** An already visited target was visited no later than the next layer. */
  lemma AlreadySeen(out: seq<int>, d: seq<nat>, v: int, n: nat)
    requires |out| == |d| && v in out && forall i :: 0 <= i < |d| ==> d[i] <= n
    ensures SeenBy(out, d, v, n)
  {
  }

  /** Every short enough walk ends at a node visited at no greater depth. */
  lemma {:induction false} AllSeen(es: seq<Edge>, s: int, limit: int, out: seq<int>, d: seq<nat>, v: int, n: nat)
    requires Layered(es, s, limit, out, d) && Expanded(es, limit, out, d, |out|)
    requires WalkOf(es, s, v, n) && (limit < 0 || n <= limit)
    ensures SeenBy(out, d, v, n)
    decreases n
  {
    hide WalkOf;
    if n == 0 {
      WalkNone(es, s);
      assert out[0] == v && d[0] <= 0;
    } else {
      var e := WalkBefore(es, s, v, n);
      AllSeen(es, s, limit, out, d, e.from, n - 1);
      var j :| 0 <= j < |out| && out[j] == e.from && d[j] <= n - 1;
      assert SeenBy(out, d, e.to, d[j] + 1);
    }
  }

  /** The answer: the start first, each node within the limit once, in order of shortest distance `d`. */
  ghost predicate BreadthFirst(es: seq<Edge>, s: int, limit: int, out: seq<int>, d: seq<nat>) {
    && |out| == |d| && out != [] && out[0] == s && Distinct(out)
    && (forall v :: v in out <==> Within(es, s, v, limit))
    && (forall i :: 0 <= i < |d| ==> IsShortest(es, s, out[i], d[i]))
    && (forall i, j :: 0 <= i < j < |d| ==> d[i] <= d[j])
  }

  /** Listed nodes come in order of their shortest distance from `s`. */
  ghost predicate ShortestFirst(es: seq<Edge>, s: int, out: seq<int>) {
    forall i, j, m: nat, n: nat ::
      0 <= i < j < |out| && IsShortest(es, s, out[i], m) && IsShortest(es, s, out[j], n) ==> m <= n
  }

  lemma BreadthFirstOrder(es: seq<Edge>, s: int, limit: int, out: seq<int>, d: seq<nat>)
    requires BreadthFirst(es, s, limit, out, d)
    ensures ShortestFirst(es, s, out)
  {
    hide WalkOf, Within;
    forall i, j, m: nat, n: nat | 0 <= i < j < |out| && IsShortest(es, s, out[i], m) && IsShortest(es, s, out[j], n)
      ensures m <= n
    {
      assert IsShortest(es, s, out[i], d[i]) && IsShortest(es, s, out[j], d[j]);
    }
  }

  lemma DepthIsShortest(es: seq<Edge>, s: int, limit: int, out: seq<int>, d: seq<nat>, i: nat)
    requires Layered(es, s, limit, out, d) && Expanded(es, limit, out, d, |out|) && i < |out|
    ensures IsShortest(es, s, out[i], d[i])
  {
    hide WalkOf, Expanded;
    forall m: nat | WalkOf(es, s, out[i], m)
      ensures d[i] <= m
    {
      if limit < 0 || m <= limit {
        AllSeen(es, s, limit, out, d, out[i], m);
      }
    }
  }

  /** When the queue has run empty the visited list is the answer. */
  lemma ExhaustedIsBreadthFirst(es: seq<Edge>, s: int, limit: int, out: seq<int>, d: seq<nat>)
    requires Layered(es, s, limit, out, d) && Expanded(es, limit, out, d, |out|)
    ensures BreadthFirst(es, s, limit, out, d)
  {
    hide WalkOf, Expanded, IsShortest;
    forall i | 0 <= i < |d|
      ensures IsShortest(es, s, out[i], d[i])
    {
      DepthIsShortest(es, s, limit, out, d, i);
    }
    forall v
      ensures v in out <==> Within(es, s, v, limit)
    {
      if v in out {
        var i :| 0 <= i < |out| && out[i] == v;
        assert WalkOf(es, s, v, d[i]);
      }
      if Within(es, s, v, limit) {
        var n: nat :| WalkOf(es, s, v, n) && (limit < 0 || n <= limit);
        AllSeen(es, s, limit, out, d, v, n);
      }
    }
  }

  /** Without a limit, being within it is being reachable. */
  lemma WithinIsReach(es: seq<Edge>, s: int, v: int)
    ensures Within(es, s, v, -1) <==> Reach(es, s, v)
  {
    if Reach(es, s, v) {
      var w :| IsWalk(es, s, w, v);
      assert WalkOf(es, s, v, |w|);
    }
  }

  lemma {:induction false} ElemsSize(out: seq<int>)
    requires Distinct(out)
    ensures |Elems(out)| == |out|
  {
    if out != [] {
      var n := |out| - 1;
      ElemsSize(out[..n]);
      assert Elems(out) == Elems(out[..n]) + {out[n]};
    }
  }

  lemma RoomLeft(es: seq<Edge>, s: int, out: seq<int>)
    requires Distinct(out) && Elems(out) <= Universe(es, s)
    ensures |out| <= |Universe(es, s)|
  {
    ElemsSize(out);
    Cardinality(Elems(out), Universe(es, s));
  }

  lemma Cardinality(a: set<int>, b: set<int>)
    requires a <= b
    ensures |a| <= |b|
  {
    assert b == a + (b - a);
  }
}
