/** The k nearest of a multiset of candidates, the brute-force meaning every index search is held to. */
module TopK {

  /** A candidate row with its distance to the query. */
  datatype Hit = Hit(rowid: int, dist: real)

  function Min(a: nat, b: nat): nat { if a < b then a else b }

  /** `r` holds min(k, |u|) of the candidates `u`, and no omitted one is closer than a chosen one. */
  ghost predicate IsTopK(r: multiset<Hit>, u: multiset<Hit>, k: nat) {
    && r <= u && |r| == Min(k, |u|)
    && (forall x, y :: x in r && y in u - r ==> x.dist <= y.dist)
  }

  ghost predicate Ascending(s: seq<Hit>) {
    forall i, j :: 0 <= i < j < |s| ==> s[i].dist <= s[j].dist
  }

  lemma SameSizeSubset(a: multiset<Hit>, b: multiset<Hit>)
    requires a <= b && |a| == |b|
    ensures a == b
  {
    assert |b - a| == |b| - |a|;
    assert b == a + (b - a);
  }

  lemma NotFullIsAll(r: multiset<Hit>, u: multiset<Hit>, k: nat)
    requires IsTopK(r, u, k) && |r| < k
    ensures r == u
  {
    SameSizeSubset(r, u);
  }

  /** While there is room a candidate is simply added. */
  lemma TopKAdd(r: multiset<Hit>, u: multiset<Hit>, k: nat, x: Hit)
    requires IsTopK(r, u, k) && |r| < k
    ensures IsTopK(r + multiset{x}, u + multiset{x}, k)
  {
    NotFullIsAll(r, u, k);
  }

  /** When full, a closer candidate takes the place of a farthest one. */
  lemma TopKReplace(r: multiset<Hit>, u: multiset<Hit>, k: nat, x: Hit, m: Hit)
    requires IsTopK(r, u, k) && |r| == k && m in r && x.dist < m.dist
    requires forall y :: y in r ==> y.dist <= m.dist
    ensures IsTopK(r - multiset{m} + multiset{x}, u + multiset{x}, k)
  {
    var r' := r - multiset{m} + multiset{x};
    var u' := u + multiset{x};
    assert |r'| == k;
    assert r' <= u';
    forall a, b | a in r' && b in u' - r'
      ensures a.dist <= b.dist
    {
      assert a.dist <= m.dist;
      if b in u - r {
        assert m.dist <= b.dist;
      } else {
        assert (u' - r')[b] == u'[b] - r'[b];
        assert b == m;
      }
    }
  }

  /** When full, candidates no closer than any chosen one change nothing. */
  lemma TopKPrune(r: multiset<Hit>, u: multiset<Hit>, k: nat, c: multiset<Hit>)
    requires IsTopK(r, u, k) && |r| == k
    requires forall x, y :: x in r && y in c ==> x.dist <= y.dist
    ensures IsTopK(r, u + c, k)
  {
    forall x, y | x in r && y in (u + c) - r
      ensures x.dist <= y.dist
    {
      if y !in c {
        assert y in u - r;
      }
    }
  }

  /** The nearest of two nearest-lists are the nearest of both candidate sets together. */
  lemma TopKMerge(a: multiset<Hit>, u: multiset<Hit>, b: multiset<Hit>, v: multiset<Hit>, c: multiset<Hit>, k: nat)
    requires IsTopK(a, u, k) && IsTopK(b, v, k) && IsTopK(c, a + b, k)
    ensures IsTopK(c, u + v, k)
  {
    assert a + b <= u + v;
    forall x, y | x in c && y in (u + v) - c
      ensures x.dist <= y.dist
    {
      if y in (a + b) - c {
      } else if a[y] < u[y] {
        MergeOmitted(a, u, b, c, k, x, y);
      } else {
        assert b[y] < v[y];
        assert b + a == a + b;
        MergeOmitted(b, v, a, c, k, x, y);
      }
    }
  }

  lemma MergeOmitted(a: multiset<Hit>, u: multiset<Hit>, b: multiset<Hit>, c: multiset<Hit>, k: nat, x: Hit, y: Hit)
    requires IsTopK(a, u, k) && IsTopK(c, a + b, k) && a[y] < u[y] && x in c
    ensures x.dist <= y.dist
  {
    assert y in u - a;
    assert |a| == k by {
      if |a| < k {
        NotFullIsAll(a, u, k);
      }
    }
    if x !in a {
      assert !(a <= c) by {
        if a <= c {
          SameSizeSubset(a, c);
        }
      }
      var z :| a[z] > c[z];
      assert z in a && z in (a + b) - c;
      assert x.dist <= z.dist <= y.dist;
    }
  }

  /** An ascending list answers a query exactly when its members are a top k of the candidates. */
  ghost predicate Answers(s: seq<Hit>, u: multiset<Hit>, k: nat) {
    Ascending(s) && IsTopK(multiset(s), u, k)
  }

  lemma PrefixIsCloser(s: seq<Hit>, n: nat, x: Hit, y: Hit)
    requires Ascending(s) && n <= |s| && x in s[..n] && y in s[n..]
    ensures x.dist <= y.dist
  {
    var i :| 0 <= i < n && s[..n][i] == x;
    var j :| 0 <= j < |s| - n && s[n..][j] == y;
    assert s[i] == x && s[n + j] == y;
  }

  /** The first `k` of a sorted list of all candidates answer the query. */
  lemma SortedPrefixAnswers(s: seq<Hit>, k: nat)
    requires Ascending(s)
    ensures Answers(s[..Min(k, |s|)], multiset(s), k)
  {
    var n := Min(k, |s|);
    var a, b := s[..n], s[n..];
    assert s == a + b;
    assert multiset(s) == multiset(a) + multiset(b);
    assert multiset(s) - multiset(a) == multiset(b);
    assert Ascending(a);
    forall x: Hit, y: Hit | x in multiset(a) && y in multiset(b)
      ensures x.dist <= y.dist
    {
      PrefixIsCloser(s, n, x, y);
    }
  }
}
