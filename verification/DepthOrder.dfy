/**
 * The order in which a depth-first search lists nodes, over the list and the depths alone, and that it is determined.
 */
module DepthOrder {
  import opened Sequences
  import opened Graphs
  import opened Traversal
  import opened DepthFirst

  /** Node number `j` is `i` itself or is still open when `i` is listed: everything between lies deeper. */
  ghost predicate Open(d: seq<nat>, i: nat, j: nat) {
    j <= i < |d| && forall m :: j < m <= i ==> d[m] > d[j]
  }

  /** Every row of `u` leads to a listed node. */
  ghost predicate Spent(es: seq<Edge>, u: int, vis: seq<int>) {
    forall e :: e in es && e.from == u ==> e.to in vis
  }

  /**
   * The node after number `i` is the target of row `k` of the open node `j`: the rows before `k` lead to listed nodes,
   * and so do all rows of the open nodes below `j`, except where the limit keeps the search from following them.
   */
  ghost predicate Via(es: seq<Edge>, limit: int, out: seq<int>, d: seq<nat>, i: nat, j: nat, k: nat)
    requires |out| == |d| && i + 1 < |out|
  {
    && Open(d, i, j) && d[i + 1] == d[j] + 1 && Expands(limit, d[i + 1])
    && k < |Rows(es, out[j])| && Rows(es, out[j])[k].to == out[i + 1]
    && (forall m :: 0 <= m < k ==> Rows(es, out[j])[m].to in out[..i + 1])
    && (forall m :: j < m <= i && Open(d, i, m) && Expands(limit, d[m] + 1) ==> Spent(es, out[m], out[..i + 1]))
  }

  /** The same with the open node not before number `a`. */
  ghost predicate Follows(es: seq<Edge>, limit: int, out: seq<int>, d: seq<nat>, a: nat, i: nat)
    requires |out| == |d| && i + 1 < |out|
  {
    exists j: nat, k: nat :: a <= j && Via(es, limit, out, d, i, j, k)
  }

  /** The nodes from number `a` on that are open at the end have no row left to follow. */
  ghost predicate Closes(es: seq<Edge>, limit: int, out: seq<int>, d: seq<nat>, a: nat)
    requires |out| == |d| && out != []
  {
    forall m :: a <= m < |out| && Open(d, |out| - 1, m) && Expands(limit, d[m] + 1) ==> Spent(es, out[m], out)
  }

  /** A depth-first listing from `s` with its depths. */
  ghost predicate InDepthOrder(es: seq<Edge>, s: int, limit: int, out: seq<int>, d: seq<nat>) {
    && |out| == |d| && Distinct(out) && (limit == 0 <==> out == [])
    && (out != [] ==> out[0] == s && d[0] == 0 && Closes(es, limit, out, d, 0))
    && (forall i {:trigger Follows(es, limit, out, d, 0, i)} :: 0 <= i < |out| - 1 ==> Follows(es, limit, out, d, 0, i))
  }

  ghost predicate DepthListed(es: seq<Edge>, s: int, limit: int, out: seq<int>) {
    exists d :: InDepthOrder(es, s, limit, out, d) && Covers(es, s, limit, out, d)
  }

  // ----- what it means for the listed nodes

  /**
   * The depths are walks below the limit, and every row of a node less than one below the limit leads to a listed node.
   */
  ghost predicate Covers(es: seq<Edge>, s: int, limit: int, out: seq<int>, d: seq<nat>) {
    && |out| == |d| && (out != [] ==> out[0] == s && d[0] == 0)
    && (forall i :: 0 <= i < |out| ==> WalkOf(es, s, out[i], d[i]) && Expands(limit, d[i]))
    && (forall i :: 0 <= i < |out| && Expands(limit, d[i] + 1) ==> Spent(es, out[i], out))
  }

  lemma {:induction false} DepthsAreWalks(es: seq<Edge>, s: int, limit: int, out: seq<int>, d: seq<nat>, i: nat)
    requires InDepthOrder(es, s, limit, out, d) && i < |out|
    ensures WalkOf(es, s, out[i], d[i]) && Expands(limit, d[i])
  {
    hide WalkOf, Rows, Closes, Spent;
    if i == 0 {
      WalkNone(es, s);
    } else {
      assert Follows(es, limit, out, d, 0, i - 1);
      var j: nat, k: nat :| Via(es, limit, out, d, i - 1, j, k);
      DepthsAreWalks(es, s, limit, out, d, j);
      var e := Rows(es, out[j])[k];
      assert e in Rows(es, out[j]);
      WalkThen(es, s, e, d[j]);
    }
  }

  lemma SpentMore(es: seq<Edge>, u: int, vis: seq<int>, vis': seq<int>)
    requires Spent(es, u, vis) && vis <= vis'
    ensures Spent(es, u, vis')
  {
    assert forall v :: v in vis ==> v in vis';
  }

  /** A node is open or has no row left to follow. */
  lemma {:induction false} OpenOrSpent(es: seq<Edge>, s: int, limit: int, out: seq<int>, d: seq<nat>, i: nat, m: nat)
    requires InDepthOrder(es, s, limit, out, d) && m <= i < |out| && Expands(limit, d[m] + 1)
    ensures Open(d, i, m) || Spent(es, out[m], out[..i + 1])
  {
    hide Rows, Closes, Spent;
    if m < i {
      OpenOrSpent(es, s, limit, out, d, i - 1, m);
      if Open(d, i - 1, m) {
        assert Follows(es, limit, out, d, 0, i - 1);
        var j: nat, k: nat :| Via(es, limit, out, d, i - 1, j, k);
        if d[i] <= d[m] {
          assert j < m;
          SpentMore(es, out[m], out[..i], out[..i + 1]);
        }
      } else {
        SpentMore(es, out[m], out[..i], out[..i + 1]);
      }
    }
  }

  lemma OrderCovers(es: seq<Edge>, s: int, limit: int, out: seq<int>, d: seq<nat>)
    requires InDepthOrder(es, s, limit, out, d)
    ensures Covers(es, s, limit, out, d)
  {
    hide Follows, WalkOf, Spent, Open;
    forall i | 0 <= i < |out|
      ensures WalkOf(es, s, out[i], d[i]) && Expands(limit, d[i])
      ensures Expands(limit, d[i] + 1) ==> Spent(es, out[i], out)
    {
      DepthsAreWalks(es, s, limit, out, d, i);
      if Expands(limit, d[i] + 1) {
        OpenOrSpent(es, s, limit, out, d, |out| - 1, i);
        assert out[..|out|] == out;
      }
    }
  }

  // ----- the order is determined

  lemma SameVia(es: seq<Edge>, limit: int, out: seq<int>, d: seq<nat>, out': seq<int>, d': seq<nat>, i: nat,
                j: nat, k: nat, j': nat, k': nat)
    requires |out| == |d| && |out'| == |d'| && i + 1 < |out| && i + 1 < |out'| && Distinct(out) && Distinct(out')
    requires out[..i + 1] == out'[..i + 1] && d[..i + 1] == d'[..i + 1]
    requires Via(es, limit, out, d, i, j, k) && Via(es, limit, out', d', i, j', k')
    ensures j >= j' && (j == j' ==> k >= k')
  {
    hide Rows;
    assert forall m :: 0 <= m <= i ==> d[m] == d[..i + 1][m] == d'[..i + 1][m] == d'[m];
    assert forall m :: 0 <= m <= i ==> out[m] == out[..i + 1][m] == out'[..i + 1][m] == out'[m];
    NotBefore(out', i);
    NotBefore(out, i);
    assert Open(d, i, j');
    assert Rows(es, out'[j'])[k'] in Rows(es, out'[j']);
    assert !Spent(es, out'[j'], out'[..i + 1]);
  }

  lemma NotBefore(out: seq<int>, i: nat)
    requires Distinct(out) && i + 1 < |out|
    ensures out[i + 1] !in out[..i + 1]
  {
  }

  lemma {:induction false} SamePrefix(es: seq<Edge>, s: int, limit: int, out: seq<int>, d: seq<nat>, out': seq<int>,
                                      d': seq<nat>, n: nat)
    requires InDepthOrder(es, s, limit, out, d) && InDepthOrder(es, s, limit, out', d') && n <= |out| && n <= |out'|
    ensures out[..n] == out'[..n] && d[..n] == d'[..n]
  {
    hide Rows, Closes, Via;
    if n > 1 {
      SamePrefix(es, s, limit, out, d, out', d', n - 1);
      assert Follows(es, limit, out, d, 0, n - 2) && Follows(es, limit, out', d', 0, n - 2);
      var j: nat, k: nat :| Via(es, limit, out, d, n - 2, j, k);
      var j': nat, k': nat :| Via(es, limit, out', d', n - 2, j', k');
      SameVia(es, limit, out, d, out', d', n - 2, j, k, j', k');
      SameVia(es, limit, out', d', out, d, n - 2, j', k', j, k);
      SameTarget(es, limit, out, d, out', d', n - 2, j, k);
      assert out[..n] == out[..n - 1] + [out[n - 1]] && out'[..n] == out'[..n - 1] + [out'[n - 1]];
      assert d[..n] == d[..n - 1] + [d[n - 1]] && d'[..n] == d'[..n - 1] + [d'[n - 1]];
    } else if n == 1 {
      assert out[..1] == [s] && out'[..1] == [s] && d[..1] == [0] && d'[..1] == [0];
    }
  }

  lemma SameTarget(es: seq<Edge>, limit: int, out: seq<int>, d: seq<nat>, out': seq<int>, d': seq<nat>, i: nat, j: nat,
                   k: nat)
    requires |out| == |d| && |out'| == |d'| && i + 1 < |out| && i + 1 < |out'|
    requires out[..i + 1] == out'[..i + 1] && d[..i + 1] == d'[..i + 1]
    requires Via(es, limit, out, d, i, j, k) && Via(es, limit, out', d', i, j, k)
    ensures out[i + 1] == out'[i + 1] && d[i + 1] == d'[i + 1]
  {
    hide Rows, Spent;
    assert out[j] == out[..i + 1][j] == out'[..i + 1][j] == out'[j];
    assert d[j] == d[..i + 1][j] == d'[..i + 1][j] == d'[j];
  }

  /** A listing that could go on is not closed. */
  lemma SameLength(es: seq<Edge>, s: int, limit: int, out: seq<int>, d: seq<nat>, out': seq<int>, d': seq<nat>)
    requires InDepthOrder(es, s, limit, out, d) && InDepthOrder(es, s, limit, out', d')
    ensures |out| >= |out'|
  {
    hide Rows, Follows;
    if |out| < |out'| && out != [] {
      var i := |out| - 1;
      SamePrefix(es, s, limit, out, d, out', d', |out|);
      assert out'[..i + 1] == out && d'[..i + 1] == d;
      assert Follows(es, limit, out', d', 0, i);
      StillOpen(es, limit, out, d, out', d');
    }
  }

  lemma StillOpen(es: seq<Edge>, limit: int, out: seq<int>, d: seq<nat>, out': seq<int>, d': seq<nat>)
    requires |out| == |d| && |out'| == |d'| && 0 < |out| < |out'| && out <= out' && d <= d' && Distinct(out')
    requires Follows(es, limit, out', d', 0, |out| - 1)
    ensures !Closes(es, limit, out, d, 0)
  {
    hide Rows;
    var i := |out| - 1;
    var j: nat, k: nat :| Via(es, limit, out', d', i, j, k);
    var e := Rows(es, out'[j])[k];
    assert e in Rows(es, out'[j]);
    NotBefore(out', i);
    assert out'[..i + 1] == out;
    assert Open(d, i, j) && !Spent(es, out[j], out);
  }

  /** Table, start and limit determine the listing. */
  lemma DepthUnique(es: seq<Edge>, s: int, limit: int, out: seq<int>, d: seq<nat>, out': seq<int>, d': seq<nat>)
    requires InDepthOrder(es, s, limit, out, d) && InDepthOrder(es, s, limit, out', d')
    ensures out == out'
  {
    hide InDepthOrder;
    SameLength(es, s, limit, out, d, out', d');
    SameLength(es, s, limit, out', d', out, d);
    OrderLengths(es, s, limit, out, d);
    OrderLengths(es, s, limit, out', d');
    SamePrefix(es, s, limit, out, d, out', d', |out|);
    assert out[..|out|] == out && out'[..|out|] == out';
  }

  lemma OrderLengths(es: seq<Edge>, s: int, limit: int, out: seq<int>, d: seq<nat>)
    requires InDepthOrder(es, s, limit, out, d)
    ensures |out| == |d|
  {
  }

  // ----- the search lists in this order

  /** The nodes from number `a` on are one call's: they lie below its first node and follow one another. */
  ghost predicate Branch(es: seq<Edge>, limit: int, out: seq<int>, d: seq<nat>, a: nat) {
    && a < |out| == |d| && (forall m :: a < m < |out| ==> d[m] > d[a])
    && (forall i {:trigger Follows(es, limit, out, d, a, i)} :: a <= i < |out| - 1 ==> Follows(es, limit, out, d, a, i))
    && Closes(es, limit, out, d, a + 1)
  }

  lemma ViaMore(es: seq<Edge>, limit: int, out: seq<int>, d: seq<nat>, out': seq<int>, d': seq<nat>, i: nat, j: nat,
                k: nat)
    requires |out| == |d| && |out'| == |d'| && out <= out' && d <= d' && i + 1 < |out|
    requires Via(es, limit, out, d, i, j, k)
    ensures Via(es, limit, out', d', i, j, k)
  {
    hide Rows, Spent;
    assert out'[..i + 1] == out[..i + 1];
    assert forall m :: 0 <= m <= i + 1 ==> out'[m] == out[m] && d'[m] == d[m];
    forall m | j < m <= i && Open(d', i, m)
      ensures Open(d, i, m)
    {
    }
  }

  lemma FollowsMore(es: seq<Edge>, limit: int, out: seq<int>, d: seq<nat>, out': seq<int>, d': seq<nat>, a: nat,
                    a': nat,
                    i: nat)
    requires |out| == |d| && |out'| == |d'| && out <= out' && d <= d' && i + 1 < |out|
    requires a' <= a && Follows(es, limit, out, d, a, i)
    ensures Follows(es, limit, out', d', a', i)
  {
    hide Via;
    var j: nat, k: nat :| a <= j && Via(es, limit, out, d, i, j, k);
    ViaMore(es, limit, out, d, out', d', i, j, k);
  }

  /** A branch below row `r` of its parent's, grafted on. */
  lemma Graft(es: seq<Edge>, limit: int, out: seq<int>, d: seq<nat>, out': seq<int>, d': seq<nat>, a: nat, r: nat)
    requires Branch(es, limit, out, d, a) && out <= out' && |out| < |out'| == |d'| && d <= d'
    requires Branch(es, limit, out', d', |out|) && Closes(es, limit, out', d', |out|)
    requires r < |Rows(es, out[a])| && out'[|out|] == Rows(es, out[a])[r].to && d'[|out|] == d[a] + 1
    requires Expands(limit, d[a] + 1) && forall m :: 0 <= m < r ==> Rows(es, out[a])[m].to in out
    ensures Branch(es, limit, out', d', a)
  {
    hide Rows, Spent, Via, Follows, Closes;
    var b := |out|;
    forall i | a <= i < |out'| - 1
      ensures Follows(es, limit, out', d', a, i)
    {
      if i < b - 1 {
        FollowsMore(es, limit, out, d, out', d', a, a, i);
      } else if i == b - 1 {
        GraftPoint(es, limit, out, d, out', d', a, r);
      } else {
        FollowsMore(es, limit, out', d', out', d', b, a, i);
      }
    }
    GraftCloses(es, limit, out, d, out', d', a);
  }

  lemma GraftPoint(es: seq<Edge>, limit: int, out: seq<int>, d: seq<nat>, out': seq<int>, d': seq<nat>, a: nat, r: nat)
    requires a < |out| == |d| && (forall m :: a < m < |out| ==> d[m] > d[a]) && Closes(es, limit, out, d, a + 1)
    requires out <= out' && |out| < |out'| == |d'| && d <= d'
    requires r < |Rows(es, out[a])| && out'[|out|] == Rows(es, out[a])[r].to && d'[|out|] == d[a] + 1
    requires Expands(limit, d[a] + 1) && forall m :: 0 <= m < r ==> Rows(es, out[a])[m].to in out
    ensures Follows(es, limit, out', d', a, |out| - 1)
  {
    hide Rows, Spent;
    var i := |out| - 1;
    assert out'[..i + 1] == out;
    assert forall m :: 0 <= m <= i ==> out'[m] == out[m] && d'[m] == d[m];
    forall m | a < m <= i && Open(d', i, m) && Expands(limit, d'[m] + 1)
      ensures Spent(es, out'[m], out)
    {
      assert Open(d, i, m);
    }
    assert Via(es, limit, out', d', i, a, r);
  }

  lemma GraftCloses(es: seq<Edge>, limit: int, out: seq<int>, d: seq<nat>, out': seq<int>, d': seq<nat>, a: nat)
    requires a < |out| == |d| && (forall m :: a < m < |out| ==> d[m] > d[a])
    requires out <= out' && |out| < |out'| == |d'| && d <= d' && d'[|out|] == d[a] + 1
    requires Closes(es, limit, out', d', |out|)
    ensures Closes(es, limit, out', d', a + 1)
  {
    hide Rows, Spent;
    assert forall m :: 0 <= m < |out| ==> d'[m] == d[m];
    forall m | a + 1 <= m < |out'| && Open(d', |out'| - 1, m) && Expands(limit, d'[m] + 1)
      ensures Spent(es, out'[m], out')
    {
    }
  }

  /** A call either adds nothing or a branch of its own, with no row left to follow. */
  lemma {:induction false} ExploreOrder(es: seq<Edge>, s: int, u: int, limit: int, depth: nat, vis: seq<int>,
                                        dv: seq<nat>)
    returns (d: seq<nat>)
    requires Fits(es, s, vis) && u in Universe(es, s) && |dv| == |vis|
    ensures var r := Explore(es, s, u, limit, depth, vis);
      && |d| == |r| && dv <= d
      && if !Expands(limit, depth) || u in vis then r == vis
         else
           && |r| > |vis| && r[|vis|] == u && d[|vis|] == depth
           && Branch(es, limit, r, d, |vis|) && Closes(es, limit, r, d, |vis|)
    decreases |Universe(es, s)| - |vis|, 0, 0
  {
    hide Rows, Fits, Universe, Targets, ExploreRows, Branch, Closes;
    FitsNext(es, s, vis, u);
    if !Expands(limit, depth) || u in vis {
      d := dv;
    } else {
      var out := vis + [u];
      FitsNext(es, s, out, u);
      NewBranch(es, limit, out, dv + [depth]);
      assert Rows(es, u)[0..] == Rows(es, u);
      d := ExploreRowsOrder(es, s, limit, |vis|, 0, out, dv + [depth]);
      BranchCloses(es, limit, Explore(es, s, u, limit, depth, vis), d, |vis|);
    }
  }

  lemma NewBranch(es: seq<Edge>, limit: int, out: seq<int>, d: seq<nat>)
    requires |out| == |d| > 0
    ensures Branch(es, limit, out, d, |out| - 1)
  {
  }

  lemma BranchCloses(es: seq<Edge>, limit: int, out: seq<int>, d: seq<nat>, a: nat)
    requires Branch(es, limit, out, d, a)
    requires Expands(limit, d[a] + 1) ==> forall m :: 0 <= m < |Rows(es, out[a])| ==> Rows(es, out[a])[m].to in out
    ensures Closes(es, limit, out, d, a)
  {
    hide Rows, Follows;
    if Expands(limit, d[a] + 1) {
      forall e | e in es && e.from == out[a]
        ensures e.to in out
      {
        assert e in Rows(es, out[a]);
        var m :| 0 <= m < |Rows(es, out[a])| && Rows(es, out[a])[m] == e;
      }
    }
  }

  /** The rows of the branch's first node from number `r` on. */
  lemma {:induction false} ExploreRowsOrder(es: seq<Edge>, s: int, limit: int, a: nat, r: nat, vis: seq<int>,
                                            dv: seq<nat>)
    returns (d: seq<nat>)
    requires Branch(es, limit, vis, dv, a) && r <= |Rows(es, vis[a])|
    requires Fits(es, s, vis) && Targets(es, s, Rows(es, vis[a])[r..])
    requires Expands(limit, dv[a] + 1) ==> forall m :: 0 <= m < r ==> Rows(es, vis[a])[m].to in vis
    ensures var x := ExploreRows(es, s, Rows(es, vis[a])[r..], limit, dv[a] + 1, vis);
      && |d| == |x| && dv <= d && Branch(es, limit, x, d, a) && x[a] == vis[a]
      && (Expands(limit, dv[a] + 1) ==> forall m :: 0 <= m < |Rows(es, vis[a])| ==> Rows(es, vis[a])[m].to in x)
    decreases |Universe(es, s)| - |vis|, 1, |Rows(es, vis[a])| - r
  {
    hide Rows, Fits, Universe, Explore, Branch, Closes;
    BranchFacts(es, limit, vis, dv, a);
    var rows := Rows(es, vis[a]);
    if r == |rows| {
      d := dv;
    } else {
      assert rows[r..][0] == rows[r] && rows[r..][1..] == rows[r + 1..];
      assert rows[r] in rows[r..];
      var v := rows[r].to;
      FitsNext(es, s, vis, v);
      var next := Explore(es, s, v, limit, dv[a] + 1, vis);
      var dn := ExploreOrder(es, s, v, limit, dv[a] + 1, vis, dv);
      FitsNext(es, s, next, v);
      if Expands(limit, dv[a] + 1) && v !in vis {
        Graft(es, limit, vis, dv, next, dn, a, r);
      } else {
        assert dn == dv;
      }
      ListedMore(vis, next, v, |vis|);
      d := ExploreRowsOrder(es, s, limit, a, r + 1, next, dn);
    }
  }

  lemma ListedMore(vis: seq<int>, next: seq<int>, v: int, n: nat)
    requires vis <= next && n == |vis|
    ensures forall x :: x in vis ==> x in next
    ensures n < |next| && next[n] == v ==> v in next
  {
  }

  lemma BranchFacts(es: seq<Edge>, limit: int, out: seq<int>, d: seq<nat>, a: nat)
    requires Branch(es, limit, out, d, a)
    ensures a < |out| == |d|
  {
  }

  /** A list is what a search produces if and only if it is a depth-first listing, which is unique. */
  lemma DepthFirstIff(es: seq<Edge>, s: int, limit: int, out: seq<int>)
    ensures out == DepthFirstList(es, s, limit) <==> DepthListed(es, s, limit, out)
  {
    hide InDepthOrder, Explore, Covers;
    var r := DepthFirstList(es, s, limit);
    var d := ListInOrder(es, s, limit);
    OrderCovers(es, s, limit, r, d);
    if DepthListed(es, s, limit, out) {
      var d' :| InDepthOrder(es, s, limit, out, d');
      DepthUnique(es, s, limit, r, d, out, d');
    }
  }

  lemma ListInOrder(es: seq<Edge>, s: int, limit: int) returns (d: seq<nat>)
    ensures InDepthOrder(es, s, limit, DepthFirstList(es, s, limit), d)
  {
    hide Universe, Explore, Closes, Follows;
    StartFits(es, s);
    d := ExploreOrder(es, s, s, limit, 0, [], []);
  }
}
