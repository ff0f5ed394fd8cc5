/**
 * The k-nearest search one step at a time, over an agenda of subtrees: what is offered, visited and left out, and
 * when.
 */
module KDTrace {
  import opened Vectors
  import opened Rows
  import opened TopK
  import opened KDTree
  import opened KDSearch

  /** A subtree to enter, or one on the far side of a split to enter if the gap still allows it. */
  datatype Task = Enter(t: Tree) | Cross(t: Tree, gap: real)

  datatype Conf = Conf(agenda: seq<Task>, slots: seq<Hit>)

  /** The first slot that is farthest. */
  ghost predicate IsFirstFarthest(s: seq<Hit>, i: nat) {
    && i < |s| && (forall j :: 0 <= j < |s| ==> s[j].dist <= s[i].dist)
    && (forall j :: 0 <= j < i ==> s[j].dist < s[i].dist)
  }

  /** A hit goes to a new slot while there is room; then only a closer one, in place of the first farthest. */
  ghost predicate Takes(s: seq<Hit>, k: nat, h: Hit, s': seq<Hit>) {
    if |s| < k then s' == s + [h]
    else exists i: nat :: IsFirstFarthest(s, i) && s' == if h.dist < s[i].dist then s[i := h] else s
  }

  /** The slots after a node: a tombstone or a row that is filtered out is not offered. */
  ghost predicate Meets(t: Tree, q: Point, m: RowidMap, dist: Metric, k: nat, s: seq<Hit>, s': seq<Hit>)
    requires t.Node?
  {
    if t.deleted || (m.preFilter && t.row.rowid !in m.rowids) then s' == s
    else Takes(s, k, Hit(t.row.rowid, dist(q, t.row.point)), s')
  }

  /**
   * One step. A node is met, then its near side is entered, then its far side comes up; the far side is dropped exactly
   * when all slots are taken, by hits no farther than the squared gap.
   */
  ghost predicate Next(q: Point, m: RowidMap, dist: Metric, k: nat, c: Conf, c': Conf) {
    c.agenda != [] &&
    var rest := c.agenda[1..];
    match c.agenda[0]
    case Enter(Leaf) => c' == Conf(rest, c.slots)
    case Enter(Node(row, axis, deleted, size, invalid, left, right)) =>
      && axis < |q| && axis < |row.point|
      && Meets(c.agenda[0].t, q, m, dist, k, c.slots, c'.slots)
      && var gap := q[axis] - row.point[axis];
         c'.agenda == (if gap < 0.0 then [Enter(left), Cross(right, gap)] else [Enter(right), Cross(left, gap)]) + rest
    case Cross(t, gap) =>
      if |c.slots| == k && forall j :: 0 <= j < k ==> c.slots[j].dist <= gap * gap then c' == Conf(rest, c.slots)
      else c' == Conf([Enter(t)] + rest, c.slots)
  }

  ghost predicate Trace(q: Point, m: RowidMap, dist: Metric, k: nat, cs: seq<Conf>) {
    forall i :: 0 <= i < |cs| - 1 ==> Next(q, m, dist, k, cs[i], cs[i + 1])
  }

  /** The steps lead from the one to the other. */
  ghost predicate Leads(q: Point, m: RowidMap, dist: Metric, k: nat, cs: seq<Conf>, a: Conf, b: Conf) {
    Trace(q, m, dist, k, cs) && cs != [] && cs[0] == a && cs[|cs| - 1] == b
  }

  /** A search of the tree ends with the given slots. */
  ghost predicate SearchEnds(t: Tree, q: Point, m: RowidMap, dist: Metric, k: nat, slots: seq<Hit>) {
    exists cs :: Leads(q, m, dist, k, cs, Conf([Enter(t)], []), Conf([], slots))
  }

  // ----- the recursion takes these steps

  lemma StepFirst(q: Point, m: RowidMap, dist: Metric, k: nat, a: Conf, b: Conf, cs: seq<Conf>, c: Conf)
    requires Next(q, m, dist, k, a, b) && Leads(q, m, dist, k, cs, b, c)
    ensures Leads(q, m, dist, k, [a] + cs, a, c)
  {
    hide Next;
    var all := [a] + cs;
    forall i | 0 <= i < |all| - 1
      ensures Next(q, m, dist, k, all[i], all[i + 1])
    {
      if i > 0 {
        assert all[i] == cs[i - 1] && all[i + 1] == cs[i - 1 + 1];
      }
    }
  }

  lemma Joined(q: Point, m: RowidMap, dist: Metric, k: nat, cs: seq<Conf>, ds: seq<Conf>, a: Conf, b: Conf, c: Conf)
    requires Leads(q, m, dist, k, cs, a, b) && Leads(q, m, dist, k, ds, b, c)
    ensures Leads(q, m, dist, k, cs + ds[1..], a, c)
  {
    hide Next;
    var all, n := cs + ds[1..], |cs|;
    forall i | 0 <= i < |all| - 1
      ensures Next(q, m, dist, k, all[i], all[i + 1])
    {
      if i < n - 1 {
        assert all[i] == cs[i] && all[i + 1] == cs[i + 1];
      } else {
        assert all[i] == ds[i - n + 1] && all[i + 1] == ds[i - n + 1 + 1];
      }
    }
  }

  lemma {:induction false} FarthestIsFirst(s: seq<Hit>, n: nat)
    requires 0 < n <= |s|
    ensures forall j :: 0 <= j < Farthest(s, n) ==> s[j].dist < s[Farthest(s, n)].dist
  {
    if n > 1 {
      FarthestIsFirst(s, n - 1);
    }
  }

  lemma OfferTakes(s: seq<Hit>, k: nat, h: Hit)
    requires 0 < k && |s| <= k
    ensures Takes(s, k, h, Offer(s, k, h))
  {
    hide Farthest;
    if |s| == k {
      FarthestIsFirst(s, k);
      assert IsFirstFarthest(s, Farthest(s, k));
    }
  }

  lemma OfferMeets(t: Tree, q: Point, m: RowidMap, dist: Metric, k: nat, s: seq<Hit>)
    requires t.Node? && 0 < k && |s| <= k
    ensures Meets(t, q, m, dist, k, s, OfferNode(t, q, m, dist, k, s))
  {
    hide Takes, Offer;
    if !t.deleted && Passes(m, t.row.rowid) {
      OfferTakes(s, k, HitOf(q, dist, t.row));
    }
  }

  lemma VisitFarIff(s: seq<Hit>, k: nat, gap: real)
    requires 0 < k && |s| <= k
    ensures !VisitFar(s, k, gap) <==> |s| == k && forall j :: 0 <= j < k ==> s[j].dist <= gap * gap
  {
  }

  lemma {:induction false} SearchLeads(t: Tree, q: Point, m: RowidMap, dist: Metric, k: nat, s: seq<Hit>,
                                       rest: seq<Task>)
    returns (cs: seq<Conf>)
    requires 0 < k && |s| <= k && PointsOk(t, |q|)
    ensures Leads(q, m, dist, k, cs, Conf([Enter(t)] + rest, s), Conf(rest, Search(t, q, m, dist, k, s)))
    ensures cs != []
    decreases t, 0
  {
    hide Leads, OfferNode, VisitFar, Meets;
    var a := Conf([Enter(t)] + rest, s);
    assert a.agenda[1..] == rest;
    if t.Leaf? {
      OneStep(q, m, dist, k, a, Conf(rest, s));
      cs := [a, Conf(rest, s)];
    } else {
      var s1 := OfferNode(t, q, m, dist, k, s);
      OfferMeets(t, q, m, dist, k, s);
      var gap := q[t.axis] - t.row.point[t.axis];
      var near, far := if gap < 0.0 then t.left else t.right, if gap < 0.0 then t.right else t.left;
      var s2 := Search(near, q, m, dist, k, s1);
      var on := [Cross(far, gap)] + rest;
      var nearSteps := SearchLeads(near, q, m, dist, k, s1, on);
      assert [Enter(near), Cross(far, gap)] + rest == [Enter(near)] + on;
      StepFirst(q, m, dist, k, a, Conf([Enter(near)] + on, s1), nearSteps, Conf(on, s2));
      var farSteps := CrossLeads(far, gap, q, m, dist, k, s2, rest);
      cs := [a] + nearSteps + farSteps[1..];
      Joined(q, m, dist, k, [a] + nearSteps, farSteps, a, Conf(on, s2), Conf(rest, Search(t, q, m, dist, k, s)));
    }
  }

  lemma OneStep(q: Point, m: RowidMap, dist: Metric, k: nat, a: Conf, b: Conf)
    requires Next(q, m, dist, k, a, b)
    ensures Leads(q, m, dist, k, [a, b], a, b)
  {
  }

  lemma {:induction false} CrossLeads(t: Tree, gap: real, q: Point, m: RowidMap, dist: Metric, k: nat, s: seq<Hit>,
                                      rest: seq<Task>)
    returns (cs: seq<Conf>)
    requires 0 < k && |s| <= k && PointsOk(t, |q|)
    ensures Leads(q, m, dist, k, cs, Conf([Cross(t, gap)] + rest, s),
      Conf(rest, if VisitFar(s, k, gap) then Search(t, q, m, dist, k, s) else s))
    ensures cs != []
    decreases t, 1
  {
    hide Leads, Search, VisitFar;
    var a := Conf([Cross(t, gap)] + rest, s);
    assert a.agenda[1..] == rest;
    VisitFarIff(s, k, gap);
    if VisitFar(s, k, gap) {
      var steps := SearchLeads(t, q, m, dist, k, s, rest);
      StepFirst(q, m, dist, k, a, Conf([Enter(t)] + rest, s), steps, Conf(rest, Search(t, q, m, dist, k, s)));
      cs := [a] + steps;
    } else {
      OneStep(q, m, dist, k, a, Conf(rest, s));
      cs := [a, Conf(rest, s)];
    }
  }

  lemma NearestEnds(t: Tree, q: Point, m: RowidMap, dist: Metric, k: nat)
    requires 0 < k && PointsOk(t, |q|)
    ensures SearchEnds(t, q, m, dist, k, Nearest(t, q, m, dist, k))
  {
    hide Leads;
    var cs := SearchLeads(t, q, m, dist, k, [], []);
    assert [Enter(t)] + [] == [Enter(t)];
  }

  // ----- the steps are determined

  lemma NextUnique(q: Point, m: RowidMap, dist: Metric, k: nat, a: Conf, b: Conf, c: Conf)
    requires Next(q, m, dist, k, a, b) && Next(q, m, dist, k, a, c)
    ensures b == c
  {
  }

  lemma {:induction false} SameSteps(q: Point, m: RowidMap, dist: Metric, k: nat, cs: seq<Conf>, ds: seq<Conf>, n: nat)
    requires Trace(q, m, dist, k, cs) && Trace(q, m, dist, k, ds) && 0 < n <= |cs| && n <= |ds| && cs[0] == ds[0]
    ensures cs[n - 1] == ds[n - 1]
  {
    hide Next;
    if n > 1 {
      SameSteps(q, m, dist, k, cs, ds, n - 1);
      assert Next(q, m, dist, k, cs[n - 2], cs[n - 2 + 1]) && Next(q, m, dist, k, ds[n - 2], ds[n - 2 + 1]);
      NextUnique(q, m, dist, k, cs[n - 2], cs[n - 1], ds[n - 1]);
    }
  }

  lemma EndStays(q: Point, m: RowidMap, dist: Metric, k: nat, cs: seq<Conf>, ds: seq<Conf>, a: Conf, s: seq<Hit>,
                 b: Conf)
    requires Leads(q, m, dist, k, cs, a, Conf([], s)) && Leads(q, m, dist, k, ds, a, b)
    ensures |ds| <= |cs|
  {
    forall i | 0 <= i < |ds| - 1
      ensures ds[i].agenda != []
    {
      assert Next(q, m, dist, k, ds[i], ds[i + 1]);
    }
    if |cs| < |ds| {
      SameSteps(q, m, dist, k, cs, ds, |cs|);
    }
  }

  /** A tree and a query determine the slots, their order included. */
  lemma SearchUnique(t: Tree, q: Point, m: RowidMap, dist: Metric, k: nat, s: seq<Hit>, s': seq<Hit>)
    requires SearchEnds(t, q, m, dist, k, s) && SearchEnds(t, q, m, dist, k, s')
    ensures s == s'
  {
    hide Trace;
    var a := Conf([Enter(t)], []);
    var cs :| Leads(q, m, dist, k, cs, a, Conf([], s));
    var ds :| Leads(q, m, dist, k, ds, a, Conf([], s'));
    EndStays(q, m, dist, k, cs, ds, a, s, Conf([], s'));
    EndStays(q, m, dist, k, ds, cs, a, s', Conf([], s));
    SameSteps(q, m, dist, k, cs, ds, |cs|);
  }
}
