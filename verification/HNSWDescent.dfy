/** The upper levels of a search, stop by stop: which neighbours the scan passes over and which it moves to. */
module HNSWDescent {
  import opened Vectors
  import opened HNSW

  /** The scan is at `node` and goes on with its neighbour number `at`. */
  datatype Stop = Stop(node: nat, at: nat)

  /** Neighbour number `j` is live and closer than the node itself. */
  ghost predicate Draws(ns: seq<Node>, q: Point, dist: Metric, l: nat, c: nat, j: nat)
    requires Shaped(ns) && c < |ns| && l < MAX_LEVELS && j < |N(ns, c, l)|
  {
    var b := N(ns, c, l)[j];
    b < |ns| && !ns[b].deleted && dist(ns[b].vec, q) < dist(ns[c].vec, q)
  }

  /** None of the neighbours from number `a` to before number `b` is. */
  ghost predicate Passed(ns: seq<Node>, q: Point, dist: Metric, l: nat, c: nat, a: nat, b: nat)
    requires Shaped(ns) && c < |ns| && l < MAX_LEVELS
  {
    forall j: nat :: a <= j < b && j < |N(ns, c, l)| ==> !Draws(ns, q, dist, l, c, j)
  }

  /**
   * The next stop: the first closer live neighbour from the current number on, with the numbering carried over; or,
   * when there is none and this pass has moved, the same node from its first neighbour.
   */
  ghost predicate Goes(ns: seq<Node>, q: Point, dist: Metric, l: nat, a: Stop, b: Stop)
    requires Shaped(ns) && a.node < |ns| && l < MAX_LEVELS
  {
    if b.at > 0 then
      && a.at < b.at <= |N(ns, a.node, l)| && b.node == N(ns, a.node, l)[b.at - 1]
      && Draws(ns, q, dist, l, a.node, b.at - 1) && Passed(ns, q, dist, l, a.node, a.at, b.at - 1)
    else
      a.at > 0 && b.node == a.node && Passed(ns, q, dist, l, a.node, a.at, |N(ns, a.node, l)|)
  }

  ghost predicate Chain(ns: seq<Node>, q: Point, dist: Metric, l: nat, stops: seq<Stop>)
    requires Shaped(ns) && l < MAX_LEVELS
  {
    && (forall i :: 0 <= i < |stops| ==> stops[i].node < |ns|)
    && (forall i :: 0 <= i < |stops| - 1 ==> Goes(ns, q, dist, l, stops[i], stops[i + 1]))
  }

  /** The stops of one level from `start` to `cur`, where a whole pass finds nothing closer. */
  ghost predicate Descent(ns: seq<Node>, q: Point, dist: Metric, l: nat, start: nat, cur: nat, stops: seq<Stop>)
    requires Shaped(ns) && l < MAX_LEVELS
  {
    && Chain(ns, q, dist, l, stops) && stops != [] && stops[0] == Stop(start, 0) && stops[|stops| - 1] == Stop(cur, 0)
    && Passed(ns, q, dist, l, cur, 0, |N(ns, cur, l)|)
  }

  ghost predicate Descends(ns: seq<Node>, q: Point, dist: Metric, l: nat, start: nat, cur: nat)
    requires Shaped(ns) && l < MAX_LEVELS
  {
    exists stops :: Descent(ns, q, dist, l, start, cur, stops)
  }

  /** One point per level: each is where the descent of its level ends that starts in the point above. */
  ghost predicate Levels(ns: seq<Node>, q: Point, dist: Metric, points: seq<nat>)
    requires Shaped(ns) && |points| <= MAX_LEVELS
  {
    forall l :: 1 <= l < |points| ==> Descends(ns, q, dist, l, points[l], points[l - 1])
  }

  /** A search that is at `ep` above level `top` comes down to `from`, level by level. */
  ghost predicate ComesDown(ns: seq<Node>, q: Point, dist: Metric, top: nat, ep: nat, from: nat)
    requires Shaped(ns) && top < MAX_LEVELS
  {
    exists points :: |points| == top + 1 && points[top] == ep && points[0] == from && Levels(ns, q, dist, points)
  }

  /** Where a descent ends no live neighbour on the level is closer. */
  lemma DescendsLocalMin(ns: seq<Node>, q: Point, dist: Metric, l: nat, start: nat, cur: nat)
    requires GraphOk(ns) && cur < |ns| && l < MAX_LEVELS && Descends(ns, q, dist, l, start, cur)
    ensures LocalMin(ns, q, dist, l, cur)
  {
    forall b | b in N(ns, cur, l)
      ensures b < |ns| && (ns[b].deleted || Away(ns, q, dist, cur) <= Away(ns, q, dist, b))
    {
      assert ListOk(ns, cur, l);
      var j :| 0 <= j < |N(ns, cur, l)| && N(ns, cur, l)[j] == b;
      assert !Draws(ns, q, dist, l, cur, j);
    }
  }

  lemma DrawsIs(ns: seq<Node>, q: Point, dist: Metric, l: nat, c: nat, j: nat)
    requires Shaped(ns) && c < |ns| && l < MAX_LEVELS && j < |N(ns, c, l)| && N(ns, c, l)[j] < |ns|
    ensures var b := N(ns, c, l)[j];
      Draws(ns, q, dist, l, c, j) <==> !ns[b].deleted && Away(ns, q, dist, b) < Away(ns, q, dist, c)
  {
  }

  lemma MoveGoes(ns: seq<Node>, q: Point, dist: Metric, l: nat, c: nat, a: nat, i: nat)
    requires Shaped(ns) && c < |ns| && l < MAX_LEVELS && a <= i < |N(ns, c, l)|
    requires Passed(ns, q, dist, l, c, a, i) && Draws(ns, q, dist, l, c, i)
    ensures Goes(ns, q, dist, l, Stop(c, a), Stop(N(ns, c, l)[i], i + 1))
  {
  }

  lemma AgainGoes(ns: seq<Node>, q: Point, dist: Metric, l: nat, c: nat, a: nat)
    requires Shaped(ns) && c < |ns| && l < MAX_LEVELS && a > 0 && Passed(ns, q, dist, l, c, a, |N(ns, c, l)|)
    ensures Goes(ns, q, dist, l, Stop(c, a), Stop(c, 0))
  {
  }

  lemma ChainNext(ns: seq<Node>, q: Point, dist: Metric, l: nat, stops: seq<Stop>, b: Stop)
    requires Shaped(ns) && l < MAX_LEVELS && Chain(ns, q, dist, l, stops) && stops != [] && b.node < |ns|
    requires Goes(ns, q, dist, l, stops[|stops| - 1], b)
    ensures Chain(ns, q, dist, l, stops + [b])
  {
    hide Shaped, Goes;
  }

  /** A level's descent only moves along live links of the level, and each move is strictly closer. */
  lemma DescentCloser(ns: seq<Node>, q: Point, dist: Metric, l: nat, start: nat, cur: nat, stops: seq<Stop>, i: nat)
    requires Shaped(ns) && l < MAX_LEVELS && Descent(ns, q, dist, l, start, cur, stops) && i < |stops| - 1
    ensures
      var a, b := stops[i].node, stops[i + 1].node;
      a == b || (b in N(ns, a, l) && !ns[b].deleted && dist(ns[b].vec, q) < dist(ns[a].vec, q))
  {
    hide Shaped, Passed;
    assert Goes(ns, q, dist, l, stops[i], stops[i + 1]);
  }

  /** The next stop is determined. */
  lemma GoesUnique(ns: seq<Node>, q: Point, dist: Metric, l: nat, a: Stop, b: Stop, c: Stop)
    requires Shaped(ns) && a.node < |ns| && l < MAX_LEVELS
    requires Goes(ns, q, dist, l, a, b) && Goes(ns, q, dist, l, a, c)
    ensures b == c
  {
    hide Shaped, Draws;
  }

  lemma EndIsEnd(ns: seq<Node>, q: Point, dist: Metric, l: nat, c: nat, b: Stop)
    requires Shaped(ns) && c < |ns| && l < MAX_LEVELS
    requires Passed(ns, q, dist, l, c, 0, |N(ns, c, l)|)
    ensures !Goes(ns, q, dist, l, Stop(c, 0), b)
  {
    hide Shaped, Draws;
  }

  lemma {:induction false} SameStops(ns: seq<Node>, q: Point, dist: Metric, l: nat, start: nat, cur: nat, cur': nat,
                                     stops: seq<Stop>, stops': seq<Stop>, n: nat)
    requires Shaped(ns) && l < MAX_LEVELS && n <= |stops| <= |stops'|
    requires Descent(ns, q, dist, l, start, cur, stops) && Descent(ns, q, dist, l, start, cur', stops')
    ensures stops[..n] == stops'[..n]
  {
    hide Shaped, Goes, Passed;
    if n > 1 {
      SameStops(ns, q, dist, l, start, cur, cur', stops, stops', n - 1);
      assert stops[n - 2] == stops[..n - 1][n - 2] == stops'[..n - 1][n - 2] == stops'[n - 2];
      assert Goes(ns, q, dist, l, stops[n - 2], stops[n - 2 + 1]);
      assert Goes(ns, q, dist, l, stops'[n - 2], stops'[n - 2 + 1]);
      GoesUnique(ns, q, dist, l, stops[n - 2], stops[n - 1], stops'[n - 1]);
    }
  }

  /** A start determines where the descent of a level ends. */
  lemma DescendsUnique(ns: seq<Node>, q: Point, dist: Metric, l: nat, start: nat, cur: nat, cur': nat)
    requires Shaped(ns) && l < MAX_LEVELS
    requires Descends(ns, q, dist, l, start, cur) && Descends(ns, q, dist, l, start, cur')
    ensures cur == cur'
  {
    hide Descent;
    var stops :| Descent(ns, q, dist, l, start, cur, stops);
    var stops' :| Descent(ns, q, dist, l, start, cur', stops');
    if |stops| <= |stops'| {
      SameEnd(ns, q, dist, l, start, cur, cur', stops, stops');
    } else {
      SameEnd(ns, q, dist, l, start, cur', cur, stops', stops);
    }
  }

  lemma SameEnd(ns: seq<Node>, q: Point, dist: Metric, l: nat, start: nat, cur: nat, cur': nat,
                stops: seq<Stop>, stops': seq<Stop>)
    requires Shaped(ns) && l < MAX_LEVELS && |stops| <= |stops'|
    requires Descent(ns, q, dist, l, start, cur, stops) && Descent(ns, q, dist, l, start, cur', stops')
    ensures cur == cur'
  {
    hide Shaped, Goes, Passed;
    var n := |stops|;
    SameStops(ns, q, dist, l, start, cur, cur', stops, stops', n);
    assert stops[n - 1] == stops'[..n][n - 1] == stops'[n - 1];
    if n < |stops'| {
      assert Goes(ns, q, dist, l, stops'[n - 1], stops'[n - 1 + 1]);
      EndIsEnd(ns, q, dist, l, cur, stops'[n]);
    }
  }

  /** Hence the points of all levels are determined by the one on top. */
  lemma {:induction false} LevelsUnique(ns: seq<Node>, q: Point, dist: Metric, ps: seq<nat>, ps': seq<nat>, l: nat)
    requires Shaped(ns) && l < |ps| == |ps'| <= MAX_LEVELS && ps[|ps| - 1] == ps'[|ps| - 1]
    requires Levels(ns, q, dist, ps) && Levels(ns, q, dist, ps')
    ensures ps[l] == ps'[l]
    decreases |ps| - l
  {
    hide Shaped, Descends;
    if l + 1 < |ps| {
      LevelsUnique(ns, q, dist, ps, ps', l + 1);
      assert Descends(ns, q, dist, l + 1, ps[l + 1], ps[l + 1 - 1]);
      assert Descends(ns, q, dist, l + 1, ps'[l + 1], ps'[l + 1 - 1]);
      DescendsUnique(ns, q, dist, l + 1, ps[l + 1], ps[l], ps'[l]);
    }
  }
}
