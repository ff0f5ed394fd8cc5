/** The loops of the chunked search: `min_idx`, `merge_sorted_lists` and the fold over chunks. */
module ChunkSearch {
  import opened Sequences
  import opened TopK
  import opened Bitmaps
  import opened Chunks

  // ----- min_idx

  /** Everything picked so far precedes everything marked and not picked. */
  ghost predicate PickedSoFar(ds: seq<real>, b: seq<Byte>, out: seq<nat>)
    requires |ds| == 8 * |b|
  {
    && Distinct(out) && Below(out, |ds|)
    && (forall i :: 0 <= i < |out| ==> Get(b, out[i]))
    && (forall i, j :: 0 <= i < j < |out| ==> Sooner(ds, out[i], out[j]))
    && (forall i, j :: 0 <= i < |out| && 0 <= j < |ds| && Get(b, j) && j !in out ==> Sooner(ds, out[i], j))
  }

  lemma PickNext(ds: seq<real>, b: seq<Byte>, out: seq<nat>, m: nat)
    requires |ds| == 8 * |b| && PickedSoFar(ds, b, out) && m < |ds| && Get(b, m) && m !in out
    requires forall j :: 0 <= j < |ds| && Get(b, j) && j !in out ==> j == m || Sooner(ds, m, j)
    ensures PickedSoFar(ds, b, out + [m])
  {
    hide Get;
    var o := out + [m];
    assert forall x :: x in o <==> x in out || x == m;
  }

  ghost predicate TakenIs(taken: seq<Byte>, out: seq<nat>, n: nat)
    requires n == 8 * |taken|
  {
    forall i: nat :: i < n ==> (Get(taken, i) <==> i in out)
  }

  lemma TakenNext(taken: seq<Byte>, out: seq<nat>, n: nat, m: nat)
    requires n == 8 * |taken| && TakenIs(taken, out, n) && m < n
    ensures TakenIs(Put(taken, m, true), out + [m], n)
  {
    hide Get, Put;
    forall i: nat | i < n
      ensures Get(Put(taken, m, true), i) <==> i in out + [m]
    {
      GetPut(taken, m, true, i);
    }
  }

  lemma TakenStart(n: nat, w: nat)
    requires n == 8 * w
    ensures TakenIs(Zero(w), [], n)
  {
    hide Get;
    forall i: nat | i < n
      ensures !Get(Zero(w), i)
    {
      GetZero(w, i);
    }
  }

  /** The position of a least untaken candidate: the first candidate, then a scan that keeps the last minimum. */
  method NextMin(ds: seq<real>, b: seq<Byte>, taken: seq<Byte>) returns (m: nat)
    requires |ds| == 8 * |b| == 8 * |taken|
    ensures m <= |ds|
    ensures m == |ds| ==> forall j: nat :: j < |ds| ==> Get(taken, j) || !Get(b, j)
    ensures m < |ds| ==> Get(b, m) && !Get(taken, m)
    ensures m < |ds| ==> forall j: nat :: j < |ds| && Get(b, j) && !Get(taken, j) ==> j == m || Sooner(ds, m, j)
  {
    hide Bit;
    m := 0;
    while m < |ds| && (Get(taken, m) || !Get(b, m))
      invariant 0 <= m <= |ds| && forall j: nat :: j < m ==> Get(taken, j) || !Get(b, j)
    {
      m := m + 1;
    }
    if m >= |ds| {
      return;
    }
    var i := 0;
    while i < |ds|
      invariant 0 <= i <= |ds| && m < |ds| && Get(b, m) && !Get(taken, m)
      invariant forall j: nat :: j < i && Get(b, j) && !Get(taken, j) ==> j == m || Sooner(ds, m, j)
    {
      if ds[i] <= ds[m] && !Get(taken, i) && Get(b, i) {
        m := i;
      }
      i := i + 1;
    }
  }

  /** `bitmap_set` on a byte array. */
  method SetBit(bm: array<Byte>, i: nat, v: bool)
    requires i < 8 * bm.Length
    modifies bm
    ensures bm[..] == Put(old(bm[..]), i, v)
  {
    hide WithBit;
    bm[i / 8] := WithBit(bm[i / 8], i % 8, v);
  }

  lemma PickStart(ds: seq<real>, b: seq<Byte>)
    requires |ds| == 8 * |b|
    ensures PickedSoFar(ds, b, [])
  {
  }

  lemma PickOne(ds: seq<real>, b: seq<Byte>, out: seq<nat>, taken: seq<Byte>, m: nat)
    requires |ds| == 8 * |b| == 8 * |taken| && m < |ds|
    requires PickedSoFar(ds, b, out) && TakenIs(taken, out, |ds|) && Get(b, m) && !Get(taken, m)
    requires forall j: nat :: j < |ds| && Get(b, j) && !Get(taken, j) ==> j == m || Sooner(ds, m, j)
    ensures PickedSoFar(ds, b, out + [m]) && TakenIs(Put(taken, m, true), out + [m], |ds|)
  {
    hide Get, Put, PickedSoFar;
    assert forall j: nat :: j < |ds| && Get(b, j) && j !in out ==> !Get(taken, j);
    PickNext(ds, b, out, m);
    TakenNext(taken, out, |ds|, m);
  }

  lemma PickEnd(ds: seq<real>, b: seq<Byte>, k: nat, out: seq<nat>, taken: seq<Byte>)
    requires |ds| == 8 * |b| == 8 * |taken| && |out| <= k
    requires PickedSoFar(ds, b, out) && TakenIs(taken, out, |ds|)
    requires |out| == k || forall j: nat :: j < |ds| ==> Get(taken, j) || !Get(b, j)
    ensures Picks(ds, b, k, out)
  {
    hide Get;
  }

  /** `min_idx`: up to `k` repeated minima. */
  method MinIdx(ds: seq<real>, b: seq<Byte>, k: nat, taken: array<Byte>) returns (out: seq<nat>)
    requires |ds| == 8 * |b| == 8 * taken.Length
    modifies taken
    ensures Picks(ds, b, k, out)
  {
    hide Get, Put, PickedSoFar, TakenIs, Picks;
    forall i | 0 <= i < taken.Length {
      taken[i] := 0;
    }
    assert taken[..] == Zero(taken.Length);
    TakenStart(|ds|, taken.Length);
    PickStart(ds, b);
    out := [];
    while |out| < k
      invariant |out| <= k && PickedSoFar(ds, b, out) && TakenIs(taken[..], out, |ds|)
      decreases k - |out|
    {
      var m := NextMin(ds, b, taken[..]);
      if m >= |ds| {
        PickEnd(ds, b, k, out, taken[..]);
        return;
      }
      PickOne(ds, b, out, taken[..], m);
      SetBit(taken, m, true);
      out := out + [m];
    }
    PickEnd(ds, b, k, out, taken[..]);
  }

  // ----- merge_sorted_lists

  /** The first `k` of the merge of two lists, ties from the first. */
  function MergeTake(a: seq<Hit>, b: seq<Hit>, k: nat): (r: seq<Hit>)
    ensures |r| == Min(k, |a| + |b|)
    decreases |a| + |b|
  {
    if k == 0 || (a == [] && b == []) then []
    else if a == [] then [b[0]] + MergeTake(a, b[1..], k - 1)
    else if b == [] || a[0].dist <= b[0].dist then [a[0]] + MergeTake(a[1..], b, k - 1)
    else [b[0]] + MergeTake(a, b[1..], k - 1)
  }

  /** A nearest element goes in front of a top k of the others. */
  lemma TopKCons(r: multiset<Hit>, u: multiset<Hit>, k: nat, h: Hit)
    requires IsTopK(r, u, k) && forall x :: x in u ==> h.dist <= x.dist
    ensures IsTopK(multiset{h} + r, multiset{h} + u, k + 1)
  {
    forall x, y | x in multiset{h} + r && y in (multiset{h} + u) - (multiset{h} + r)
      ensures x.dist <= y.dist
    {
      assert (multiset{h} + u) - (multiset{h} + r) == u - r;
      assert y in u;
    }
  }

  lemma HeadIsLeast(a: seq<Hit>, x: Hit)
    requires Ascending(a) && x in multiset(a)
    ensures a != [] && a[0].dist <= x.dist
  {
    var i :| 0 <= i < |a| && a[i] == x;
  }

  lemma TailAscends(a: seq<Hit>)
    requires Ascending(a) && a != []
    ensures Ascending(a[1..]) && (|a| > 1 ==> a[0].dist <= a[1].dist)
    ensures multiset(a) == multiset{a[0]} + multiset(a[1..])
  {
    assert a == [a[0]] + a[1..];
  }

  /** Merging two ascending lists gives the ascending top k of both together. */
  lemma {:induction false} MergeTakeAnswers(a: seq<Hit>, b: seq<Hit>, k: nat)
    requires Ascending(a) && Ascending(b)
    ensures Answers(MergeTake(a, b, k), multiset(a) + multiset(b), k)
    decreases |a| + |b|
  {
    hide Answers, Ascending, IsTopK;
    if k == 0 || (a == [] && b == []) {
      EmptyAnswers(multiset(a) + multiset(b), k);
    } else if a == [] || !(b == [] || a[0].dist <= b[0].dist) {
      TailAscends(b);
      MergeTakeAnswers(a, b[1..], k - 1);
      MergeStep(a, b[1..], b[0], k - 1);
      PullOut(multiset(a), multiset(b[1..]), b[0]);
    } else {
      TailAscends(a);
      MergeTakeAnswers(a[1..], b, k - 1);
      MergeStep(a[1..], b, a[0], k - 1);
      PullOut(multiset(b), multiset(a[1..]), a[0]);
    }
  }

  lemma PullOut(x: multiset<Hit>, y: multiset<Hit>, h: Hit)
    ensures x + (multiset{h} + y) == multiset{h} + (x + y)
    ensures (multiset{h} + y) + x == multiset{h} + (y + x)
  {
  }

  lemma EmptyAnswers(u: multiset<Hit>, k: nat)
    requires k == 0 || u == multiset{}
    ensures Answers([], u, k)
  {
  }

  lemma MergeStep(a: seq<Hit>, b: seq<Hit>, h: Hit, k: nat)
    requires Ascending(a) && Ascending(b) && Answers(MergeTake(a, b, k), multiset(a) + multiset(b), k)
    requires a == [] || h.dist <= a[0].dist
    requires b == [] || h.dist <= b[0].dist
    ensures Answers([h] + MergeTake(a, b, k), multiset{h} + (multiset(a) + multiset(b)), k + 1)
  {
    hide MergeTake, IsTopK, Ascending;
    var r := MergeTake(a, b, k);
    forall x | x in multiset(a) + multiset(b)
      ensures h.dist <= x.dist
    {
      if x in multiset(a) {
        HeadIsLeast(a, x);
      } else {
        HeadIsLeast(b, x);
      }
    }
    TopKCons(multiset(r), multiset(a) + multiset(b), k, h);
    assert multiset([h] + r) == multiset{h} + multiset(r);
    ConsAscends(h, r, multiset(a) + multiset(b), k);
  }

  lemma ConsAscends(h: Hit, r: seq<Hit>, u: multiset<Hit>, k: nat)
    requires Ascending(r) && IsTopK(multiset(r), u, k) && forall x :: x in u ==> h.dist <= x.dist
    ensures Ascending([h] + r)
  {
    forall i | 0 <= i < |r|
      ensures h.dist <= r[i].dist
    {
      assert r[i] in multiset(r);
      assert r[i] in u;
    }
  }

  /** `merge_sorted_lists`: the second list is read through the picked positions of the chunk. */
  method MergeSortedLists(a: seq<Hit>, ids: seq<int>, ds: seq<real>, idxs: seq<nat>, out: array<Hit>)
    returns (used: nat)
    requires |ids| == |ds| && Below(idxs, |ds|)
    modifies out
    ensures used <= out.Length && out[..used] == MergeTake(a, HitsAt(idxs, ids, ds), out.Length)
  {
    hide MergeTake;
    ghost var b := HitsAt(idxs, ids, ds);
    var ptrA, ptrB := 0, 0;
    var i := 0;
    assert a[0..] == a && b[0..] == b && out[..0] == [];
    while i < out.Length
      invariant 0 <= i <= out.Length && ptrA <= |a| && ptrB <= |idxs|
      invariant MergeTake(a, b, out.Length) == out[..i] + MergeTake(a[ptrA..], b[ptrB..], out.Length - i)
    {
      ghost var done := out[..i];
      MergeNext(a, b, ptrA, ptrB, out.Length - i, done);
      if ptrA >= |a| && ptrB >= |idxs| {
        return i;
      }
      if ptrA >= |a| {
        out[i] := Hit(ids[idxs[ptrB]], ds[idxs[ptrB]]);
        ptrB := ptrB + 1;
      } else if ptrB >= |idxs| {
        out[i] := a[ptrA];
        ptrA := ptrA + 1;
      } else {
        if a[ptrA].dist <= ds[idxs[ptrB]] {
          out[i] := a[ptrA];
          ptrA := ptrA + 1;
        } else {
          out[i] := Hit(ids[idxs[ptrB]], ds[idxs[ptrB]]);
          ptrB := ptrB + 1;
        }
      }
      assert out[..i + 1] == done + [out[i]];
      i := i + 1;
    }
    MergeNone(a[ptrA..], b[ptrB..]);
    used := out.Length;
  }

  lemma MergeNone(a: seq<Hit>, b: seq<Hit>)
    ensures MergeTake(a, b, 0) == []
  {
  }

  /** One unfolding of the merge at positions `p` and `q` behind the part already written. */
  lemma MergeNext(a: seq<Hit>, b: seq<Hit>, p: nat, q: nat, k: nat, done: seq<Hit>)
    requires p <= |a| && q <= |b| && k > 0
    ensures p == |a| && q == |b| ==> done + MergeTake(a[p..], b[q..], k) == done
    ensures q < |b| && (p == |a| || !(a[p].dist <= b[q].dist)) ==>
      done + MergeTake(a[p..], b[q..], k) == (done + [b[q]]) + MergeTake(a[p..], b[q + 1..], k - 1)
    ensures p < |a| && (q == |b| || a[p].dist <= b[q].dist) ==>
      done + MergeTake(a[p..], b[q..], k) == (done + [a[p]]) + MergeTake(a[p + 1..], b[q..], k - 1)
  {
    if p < |a| {
      assert a[p..][1..] == a[p + 1..];
    }
    if q < |b| {
      assert b[q..][1..] == b[q + 1..];
    }
  }
}
