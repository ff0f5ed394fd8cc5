/**
 The bounded max-heap that IVF search collects hits in. It is put into heap order only when it
 becomes full, and read out by heapsort.
 */
module BoundedHeap {
  import opened Sequences
  import opened TopK

  function Swapped(s: seq<Hit>, i: nat, j: nat): (r: seq<Hit>)
    requires i < |s| && j < |s|
    ensures |r| == |s| && multiset(r) == multiset(s)
  {
    s[i := s[j]][j := s[i]]
  }

  /** The farthest of `i` and its children, preferring `i`, then the left child. */
  function Largest(s: seq<Hit>, i: nat): (m: nat)
    requires i < |s|
    ensures m < |s| && (m == i || m == 2 * i + 1 || m == 2 * i + 2) && s[m].dist >= s[i].dist
    ensures forall j :: 1 <= j < |s| && Parent(j) == i ==> s[m].dist >= s[j].dist
  {
    var l, r := 2 * i + 1, 2 * i + 2;
    assert forall j :: 1 <= j && Parent(j) == i ==> j == l || j == r;
    var m := if l < |s| && s[l].dist > s[i].dist then l else i;
    if r < |s| && s[r].dist > s[m].dist then r else m
  }

  function Sift(s: seq<Hit>, i: nat): (r: seq<Hit>)
    requires i < |s|
    ensures |r| == |s| && multiset(r) == multiset(s)
    decreases |s| - i
  {
    var m := Largest(s, i);
    if m == i then s else Sift(Swapped(s, i, m), m)
  }

  /** Parents from position `lo` on are no closer than their children. */
  ghost predicate HeapFrom(s: seq<Hit>, lo: int) {
    forall j :: 1 <= j < |s| && Parent(j) >= lo ==> s[Parent(j)].dist >= s[j].dist
  }

  ghost predicate HeapButAt(s: seq<Hit>, lo: int, i: int) {
    && (forall j :: 1 <= j < |s| && Parent(j) >= lo && Parent(j) != i ==> s[Parent(j)].dist >= s[j].dist)
    && (forall j :: 1 <= j < |s| && Parent(j) == i && 0 < i < |s| && Parent(i) >= lo ==> s[Parent(i)].dist >= s[j].dist)
  }

  lemma SwapDown(s: seq<Hit>, lo: int, i: nat, m: nat)
    requires HeapButAt(s, lo, i) && i < m < |s| && Parent(m) == i && s[m].dist >= s[i].dist
    requires forall j :: 1 <= j < |s| && Parent(j) == i ==> s[m].dist >= s[j].dist
    ensures HeapButAt(Swapped(s, i, m), lo, m)
  {
  }

  lemma {:induction false} SiftRestores(s: seq<Hit>, lo: int, i: nat)
    requires i < |s| && lo <= i && HeapButAt(s, lo, i)
    ensures HeapFrom(Sift(s, i), lo)
    decreases |s| - i
  {
    hide Largest;
    var m := Largest(s, i);
    if m != i {
      SwapDown(s, lo, i, m);
      SiftRestores(Swapped(s, i, m), lo, m);
    }
  }

  /** Sifting positions `p - 1` down to 0. */
  function Heapify(s: seq<Hit>, p: nat): (r: seq<Hit>)
    requires p <= |s|
    ensures |r| == |s| && multiset(r) == multiset(s)
    decreases p
  {
    if p == 0 then s else Heapify(Sift(s, p - 1), p - 1)
  }

  lemma HeapFromBelow(s: seq<Hit>, p: nat)
    requires 0 < p <= |s| && HeapFrom(s, p)
    ensures HeapButAt(s, p - 1, p - 1)
  {
  }

  lemma NewRoot(s: seq<Hit>, h: Hit)
    requires s != [] && HeapFrom(s, 0)
    ensures HeapButAt(s[0 := h], 0, 0)
  {
  }

  lemma {:induction false} HeapifyIsHeap(s: seq<Hit>, p: nat)
    requires p <= |s| && HeapFrom(s, p)
    ensures HeapFrom(Heapify(s, p), 0)
    decreases p
  {
    hide Sift, Parent;
    if p > 0 {
      HeapFromBelow(s, p);
      SiftRestores(s, p - 1, p - 1);
      HeapifyIsHeap(Sift(s, p - 1), p - 1);
    }
  }

  /** One candidate: append until full, heapify on becoming full, then replace a farther root. */
  function Push(s: seq<Hit>, k: nat, h: Hit): (r: seq<Hit>)
    requires 0 < k && |s| <= k
    ensures |s| <= |r| <= k
  {
    if |s| < k then
      var t := s + [h];
      if |t| == k then Heapify(t, k / 2) else t
    else if h.dist < s[0].dist then Sift(s[0 := h], 0)
    else s
  }

  /** The slots are a top k of the candidates seen, and a heap once full. */
  ghost predicate SlotsOk(s: seq<Hit>, k: nat, u: multiset<Hit>) {
    |s| <= k && IsTopK(multiset(s), u, k) && (|s| == k ==> HeapFrom(s, 0))
  }

  lemma {:induction false} RootIsFarthest(s: seq<Hit>, j: nat)
    requires HeapFrom(s, 0) && j < |s|
    ensures s[j].dist <= s[0].dist
    decreases j
  {
    if j > 0 {
      RootIsFarthest(s, Parent(j));
    }
  }

  lemma PushKeepsOk(s: seq<Hit>, k: nat, h: Hit, u: multiset<Hit>)
    requires 0 < k && SlotsOk(s, k, u)
    ensures SlotsOk(Push(s, k, h), k, u + multiset{h})
  {
    if |s| < k {
      TopKAdd(multiset(s), u, k, h);
      var t := s + [h];
      assert multiset(t) == multiset(s) + multiset{h};
      if |t| == k {
        assert HeapFrom(t, k / 2);
        HeapifyIsHeap(t, k / 2);
      }
    } else {
      PushFull(s, k, h, u);
    }
  }

  lemma PushFull(s: seq<Hit>, k: nat, h: Hit, u: multiset<Hit>)
    requires 0 < k == |s| && SlotsOk(s, k, u)
    ensures SlotsOk(Push(s, k, h), k, u + multiset{h})
  {
    hide Sift, Heapify, IsTopK, Parent;
    forall x: Hit | x in multiset(s)
      ensures x.dist <= s[0].dist
    {
      InHeap(s, x);
    }
    if h.dist < s[0].dist {
      assert s[0] in multiset(s);
      TopKReplace(multiset(s), u, k, h, s[0]);
      assert multiset(s[0 := h]) == multiset(s) - multiset{s[0]} + multiset{h};
      NewRoot(s, h);
      SiftRestores(s[0 := h], 0, 0);
    } else {
      TopKPrune(multiset(s), u, k, multiset{h});
    }
  }

  function PushAll(s: seq<Hit>, k: nat, hs: seq<Hit>): (r: seq<Hit>)
    requires 0 < k && |s| <= k
    ensures |r| <= k
  {
    if hs == [] then s else Push(PushAll(s, k, hs[..|hs| - 1]), k, hs[|hs| - 1])
  }

  lemma {:induction false} PushAllOk(hs: seq<Hit>, k: nat)
    requires 0 < k
    ensures SlotsOk(PushAll([], k, hs), k, multiset(hs))
  {
    if hs != [] {
      var n := |hs| - 1;
      PushAllOk(hs[..n], k);
      PushKeepsOk(PushAll([], k, hs[..n]), k, hs[n], multiset(hs[..n]));
      assert hs == hs[..n] + [hs[n]];
    }
  }

  // ----- read-out

  /** The slots left after the root has been taken: the last one moves to the root and is sifted. */
  function Rest(s: seq<Hit>): (r: seq<Hit>)
    requires s != []
    ensures |r| == |s| - 1 && multiset(r) == multiset(s) - multiset{s[0]}
  {
    var n := |s| - 1;
    assert s == s[..n] + [s[n]];
    if n == 0 then [] else Sift(s[..n][0 := s[n]], 0)
  }

  /** The results, filled from the back with successive roots. */
  function Drain(s: seq<Hit>): (r: seq<Hit>)
    ensures |r| == |s| && multiset(r) == multiset(s)
    decreases |s|
  {
    if s == [] then []
    else
      assert s[0] in multiset(s);
      Drain(Rest(s)) + [s[0]]
  }

  lemma RestIsHeap(s: seq<Hit>)
    requires s != [] && HeapFrom(s, 0)
    ensures HeapFrom(Rest(s), 0)
  {
    hide Sift;
    var n := |s| - 1;
    if n > 0 {
      assert HeapButAt(s[..n][0 := s[n]], 0, 0);
      SiftRestores(s[..n][0 := s[n]], 0, 0);
    }
  }

  lemma {:induction false} DrainAscends(s: seq<Hit>)
    requires HeapFrom(s, 0)
    ensures Ascending(Drain(s))
    decreases |s|
  {
    hide Sift, Rest, HeapFrom, Ascending;
    if s == [] {
      EmptyAscends();
    } else {
      RestIsHeap(s);
      DrainAscends(Rest(s));
      var d := Drain(Rest(s));
      forall i | 0 <= i < |d|
        ensures d[i].dist <= s[0].dist
      {
        assert d[i] in multiset(d);
        InHeap(s, d[i]);
      }
      AppendAscends(d, s[0]);
    }
  }

  lemma InHeap(s: seq<Hit>, x: Hit)
    requires HeapFrom(s, 0) && x in multiset(s)
    ensures s != [] && x.dist <= s[0].dist
  {
    var j :| 0 <= j < |s| && s[j] == x;
    RootIsFarthest(s, j);
  }

  lemma EmptyAscends()
    ensures Ascending([])
  {
  }

  lemma AppendAscends(d: seq<Hit>, x: Hit)
    requires Ascending(d) && forall i :: 0 <= i < |d| ==> d[i].dist <= x.dist
    ensures Ascending(d + [x])
  {
  }

  /** What the search returns for a sequence of candidates. */
  function Output(hs: seq<Hit>, k: nat): seq<Hit>
    requires 0 < k
  {
    Drain(PushAll([], k, hs))
  }

  /** With at least k candidates the output is an ascending top k; with fewer it is a rearrangement of all. */
  lemma OutputCorrect(hs: seq<Hit>, k: nat)
    requires 0 < k
    ensures IsTopK(multiset(Output(hs, k)), multiset(hs), k)
    ensures |hs| >= k ==> Ascending(Output(hs, k))
    ensures |hs| < k ==> multiset(Output(hs, k)) == multiset(hs)
  {
    PushAllOk(hs, k);
    var s := PushAll([], k, hs);
    assert |multiset(hs)| == |hs| && |multiset(s)| == |s|;
    if |hs| >= k {
      DrainAscends(s);
    } else {
      NotFullIsAll(multiset(s), multiset(hs), k);
    }
  }

  lemma {:induction false} NotFullKeepsOrder(hs: seq<Hit>, k: nat)
    requires 0 < k && |hs| < k
    ensures PushAll([], k, hs) == hs
  {
    if hs != [] {
      NotFullKeepsOrder(hs[..|hs| - 1], k);
      assert hs == hs[..|hs| - 1] + [hs[|hs| - 1]];
    }
  }

  /** With fewer than k candidates the first one is returned last, so any farther one is out of order. */
  lemma NotFullMisorders(hs: seq<Hit>, k: nat, i: nat)
    requires |hs| < k && i < |hs| && hs[i].dist > hs[0].dist
    ensures !Ascending(Output(hs, k))
  {
    NotFullKeepsOrder(hs, k);
    var d := Drain(hs);
    assert d[|hs| - 1] == hs[0];
    assert hs[i] in multiset(d);
    var j :| 0 <= j < |d| && d[j] == hs[i];
    assert j < |hs| - 1;
  }

  /**
   * Ascending output for all candidate lists of a length is guaranteed exactly when they fill the heap or are trivial.
   */
  lemma AscendingIff(n: nat, k: nat)
    requires 0 < k
    ensures (forall hs: seq<Hit> :: |hs| == n ==> Ascending(Output(hs, k))) <==> n >= k || n <= 1
  {
    if n >= k || n <= 1 {
      forall hs: seq<Hit> | |hs| == n
        ensures Ascending(Output(hs, k))
      {
        OutputCorrect(hs, k);
        if n < k {
          assert |Output(hs, k)| == |multiset(Output(hs, k))| == n;
        }
      }
    } else {
      var hs := seq(n, i requires 0 <= i < n => Hit(i, i as real));
      NotFullMisorders(hs, k, 1);
      assert |hs| == n && !Ascending(Output(hs, k));
    }
  }
}
