/** Exact k-nearest search over chunked storage: per-chunk minima folded into a running list. */
module Chunks {
  import opened Sequences
  import opened TopK
  import opened Bitmaps

  // ----- distinct positions

  function HitsAt(s: seq<nat>, ids: seq<int>, ds: seq<real>): (r: seq<Hit>)
    requires |ids| == |ds| && forall i :: 0 <= i < |s| ==> s[i] < |ds|
    ensures |r| == |s| && forall i :: 0 <= i < |s| ==> r[i] == Hit(ids[s[i]], ds[s[i]])
  {
    seq(|s|, i requires 0 <= i < |s| => Hit(ids[s[i]], ds[s[i]]))
  }

  /** The positions below `n` that `b` marks, in order. */
  function Marked(b: seq<Byte>, n: nat): (r: seq<nat>)
    requires n <= 8 * |b|
    ensures Below(r, n)
    ensures forall i: nat :: i in r <==> i < n && Get(b, i)
  {
    if n == 0 then [] else Marked(b, n - 1) + if Get(b, n - 1) then [n - 1] else []
  }

  lemma {:induction false} MarkedDistinct(b: seq<Byte>, n: nat)
    requires n <= 8 * |b|
    ensures Distinct(Marked(b, n))
  {
    hide Get;
    if n > 0 {
      MarkedDistinct(b, n - 1);
    }
  }

  /** The positions of `s` that are not in `t`. */
  function Others(s: seq<nat>, t: seq<nat>): (r: seq<nat>)
    ensures forall x :: x in r <==> x in s && x !in t
    ensures |r| <= |s|
  {
    if s == [] then []
    else Others(s[..|s| - 1], t) + if s[|s| - 1] in t then [] else [s[|s| - 1]]
  }

  lemma {:induction false} OthersDistinct(s: seq<nat>, t: seq<nat>)
    requires Distinct(s)
    ensures Distinct(Others(s, t))
  {
    if s != [] {
      OthersDistinct(s[..|s| - 1], t);
    }
  }

  lemma SplitDistinct(s: seq<nat>, t: seq<nat>)
    requires Distinct(s) && Distinct(t) && forall x :: x in t ==> x in s
    ensures multiset(s) == multiset(t + Others(s, t))
  {
    var o := Others(s, t);
    OthersDistinct(s, t);
    forall x
      ensures multiset(s)[x] == multiset(t + o)[x]
    {
      CountInDistinct(s, x);
      CountInDistinct(t, x);
      CountInDistinct(o, x);
    }
  }

  ghost function HitBag(ids: seq<int>, ds: seq<real>): nat -> multiset<Hit> {
    (c: nat) => if c < |ids| && c < |ds| then multiset{Hit(ids[c], ds[c])} else multiset{}
  }

  lemma {:induction false} HitsAreGather(s: seq<nat>, ids: seq<int>, ds: seq<real>)
    requires |ids| == |ds| && Below(s, |ds|)
    ensures multiset(HitsAt(s, ids, ds)) == Gather(s, HitBag(ids, ds))
  {
    if s != [] {
      var n := |s| - 1;
      HitsAreGather(s[..n], ids, ds);
      assert s == s[..n] + [s[n]];
      HitsAppend(s[..n], s[n], ids, ds);
    }
  }

  /** Hits depend only on which positions are listed, not on their order. */
  lemma HitsPermuted(a: seq<nat>, b: seq<nat>, ids: seq<int>, ds: seq<real>)
    requires |ids| == |ds| && Below(a, |ds|) && Below(b, |ds|) && multiset(a) == multiset(b)
    ensures multiset(HitsAt(a, ids, ds)) == multiset(HitsAt(b, ids, ds))
  {
    HitsAreGather(a, ids, ds);
    HitsAreGather(b, ids, ds);
    GatherPermuted(a, b, HitBag(ids, ds));
  }

  lemma HitsAppend(a: seq<nat>, c: nat, ids: seq<int>, ds: seq<real>)
    requires |ids| == |ds| && Below(a, |ds|) && c < |ds|
    ensures HitsAt(a + [c], ids, ds) == HitsAt(a, ids, ds) + [Hit(ids[c], ds[c])]
  {
  }

  lemma HitsConcat(a: seq<nat>, b: seq<nat>, ids: seq<int>, ds: seq<real>)
    requires |ids| == |ds| && Below(a, |ds|) && Below(b, |ds|)
    ensures Below(a + b, |ds|) && HitsAt(a + b, ids, ds) == HitsAt(a, ids, ds) + HitsAt(b, ids, ds)
  {
  }

  // ----- per-chunk minima

  /** Position `x` is picked before `y`: it is closer, or as close and further back. */
  predicate Sooner(ds: seq<real>, x: nat, y: nat)
    requires x < |ds| && y < |ds|
  {
    ds[x] < ds[y] || (ds[x] == ds[y] && x > y)
  }

  /** `out` picks up to `k` marked positions in ascending distance, ties from the back, and before all others. */
  ghost predicate Picks(ds: seq<real>, b: seq<Byte>, k: nat, out: seq<nat>)
    requires |ds| == 8 * |b|
  {
    && Distinct(out) && Below(out, |ds|) && |out| <= k
    && (forall i :: 0 <= i < |out| ==> Get(b, out[i]))
    && (|out| == k || forall j :: 0 <= j < |ds| && Get(b, j) ==> j in out)
    && (forall i, j :: 0 <= i < j < |out| ==> Sooner(ds, out[i], out[j]))
    && (forall i, j :: 0 <= i < |out| && 0 <= j < |ds| && Get(b, j) && j !in out ==> Sooner(ds, out[i], j))
  }

  lemma OthersBelow(s: seq<nat>, t: seq<nat>, n: nat)
    requires Below(s, n)
    ensures Below(Others(s, t), n)
  {
    var o := Others(s, t);
    forall i | 0 <= i < |o|
      ensures o[i] < n
    {
      assert o[i] in o;
    }
  }

  /** The hits of distinct positions are those of some of them and of the others. */
  lemma SplitHits(all: seq<nat>, out: seq<nat>, ids: seq<int>, ds: seq<real>)
    requires |ds| == |ids| && Distinct(all) && Distinct(out) && Below(all, |ds|) && Below(out, |ds|)
    requires forall x :: x in out ==> x in all
    ensures var rest := Others(all, out);
      Below(rest, |ds|) &&
      multiset(HitsAt(all, ids, ds)) == multiset(HitsAt(out, ids, ds)) + multiset(HitsAt(rest, ids, ds))
  {
    hide Others, HitsAt, Distinct;
    var rest := Others(all, out);
    OthersBelow(all, out, |ds|);
    SplitDistinct(all, out);
    HitsConcat(out, rest, ids, ds);
    HitsPermuted(all, out + rest, ids, ds);
  }

  lemma PickedAreMarked(ds: seq<real>, b: seq<Byte>, out: seq<nat>)
    requires |ds| == 8 * |b| && Below(out, |ds|) && forall i :: 0 <= i < |out| ==> Get(b, out[i])
    ensures forall x :: x in out ==> x in Marked(b, |ds|)
  {
    hide Get;
  }

  /** What was not picked is farther, and nothing was left out unless `k` were picked. */
  lemma UnpickedFarther(ds: seq<real>, b: seq<Byte>, k: nat, out: seq<nat>, rest: seq<nat>)
    requires |ds| == 8 * |b| && Picks(ds, b, k, out) && Below(rest, |ds|)
    requires forall x :: x in rest ==> x < |ds| && Get(b, x) && x !in out
    ensures |out| < k ==> rest == []
    ensures forall i, j :: 0 <= i < |out| && 0 <= j < |rest| ==> ds[out[i]] <= ds[rest[j]]
  {
    hide Get, Distinct;
    assert forall j :: 0 <= j < |rest| ==> rest[j] in rest;
    assert rest != [] ==> rest[0] in rest && rest[0] !in out;
  }

  /** The picked positions are a top k of the marked ones. */
  lemma PicksAnswer(ds: seq<real>, b: seq<Byte>, k: nat, out: seq<nat>, ids: seq<int>)
    requires |ds| == 8 * |b| == |ids| && Picks(ds, b, k, out)
    ensures Answers(HitsAt(out, ids, ds), multiset(HitsAt(Marked(b, |ds|), ids, ds)), k)
  {
    hide Get, Marked, Others;
    var rest := Others(Marked(b, |ds|), out);
    MarkedDistinct(b, |ds|);
    PickedAreMarked(ds, b, out);
    SplitHits(Marked(b, |ds|), out, ids, ds);
    UnpickedFarther(ds, b, k, out, rest);
    var r, o := HitsAt(out, ids, ds), HitsAt(rest, ids, ds);
    forall x: Hit, y: Hit | x in multiset(r) && y in multiset(o)
      ensures x.dist <= y.dist
    {
      var i :| 0 <= i < |r| && r[i] == x;
      var j :| 0 <= j < |o| && o[j] == y;
    }
    RestIsFarther(multiset(r), multiset(o), k);
  }

  lemma RestIsFarther(r: multiset<Hit>, o: multiset<Hit>, k: nat)
    requires |r| <= k && (|r| == k || o == multiset{})
    requires forall x, y :: x in r && y in o ==> x.dist <= y.dist
    ensures IsTopK(r, r + o, k)
  {
    assert (r + o) - r == o;
  }
}
