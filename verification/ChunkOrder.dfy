/** The exact order of a chunked search's answer, ties included: nearer first, then earlier chunks, then later slots. */
module ChunkOrder {
  import opened Sequences
  import opened TopK
  import opened Bitmaps
  import opened Chunks
  import opened ChunkSearch
  import opened ChunkStore
  import opened ChunkQuery

  // ----- where the entries of a merge come from

  datatype Source = First(i: nat) | Second(i: nat)

  predicate Has(a: seq<Hit>, b: seq<Hit>, s: Source) { if s.First? then s.i < |a| else s.i < |b| }

  function Value(a: seq<Hit>, b: seq<Hit>, s: Source): Hit
    requires Has(a, b, s)
  {
    if s.First? then a[s.i] else b[s.i]
  }

  /** The merge takes `s` before `t`: by position in a list, and by distance with ties to the first list. */
  predicate Precedes(a: seq<Hit>, b: seq<Hit>, s: Source, t: Source)
    requires Has(a, b, s) && Has(a, b, t)
  {
    if s.First? == t.First? then s.i < t.i
    else if s.First? then a[s.i].dist <= b[t.i].dist
    else b[s.i].dist < a[t.i].dist
  }

  /** The source stands from `p` on in the first list or from `q` on in the second. */
  predicate From(a: seq<Hit>, b: seq<Hit>, p: nat, q: nat, s: Source) {
    Has(a, b, s) && s.i >= if s.First? then p else q
  }

  /** The sources are those from `p` and `q` on up to `x` and `y`, in the order of the merge. */
  ghost predicate InMergeOrder(a: seq<Hit>, b: seq<Hit>, p: nat, q: nat, src: seq<Source>, x: nat, y: nat) {
    && (forall s :: s in src <==> From(a, b, p, q, s) && !From(a, b, x, y, s))
    && (forall t, u :: 0 <= t < u < |src| ==>
      Has(a, b, src[t]) && Has(a, b, src[u]) && Precedes(a, b, src[t], src[u]))
    && (forall s, u :: s in src && From(a, b, x, y, u) ==> Has(a, b, s) && Precedes(a, b, s, u))
  }

  ghost predicate Merged(a: seq<Hit>, b: seq<Hit>, p: nat, q: nat, k: nat, r: seq<Hit>, src: seq<Source>, x: nat,
                         y: nat) {
    && p <= x <= |a| && q <= y <= |b| && |src| == |r| == x - p + y - q
    && |r| <= k && (|r| == k || (x == |a| && y == |b|))
    && (forall t :: 0 <= t < |src| ==> Has(a, b, src[t]) && r[t] == Value(a, b, src[t]))
    && InMergeOrder(a, b, p, q, src, x, y)
  }

  /** The merge is followed from `p` and `q` on. */
  lemma {:induction false} MergeSources(a: seq<Hit>, b: seq<Hit>, p: nat, q: nat, k: nat)
    returns (src: seq<Source>, x: nat, y: nat)
    requires Ascending(a) && Ascending(b) && p <= |a| && q <= |b|
    ensures Merged(a, b, p, q, k, MergeTake(a[p..], b[q..], k), src, x, y)
    decreases |a| - p + |b| - q
  {
    hide Ascending, MergeTake, InMergeOrder;
    MergeHead(a, b, p, q, k);
    if k == 0 || (p == |a| && q == |b|) {
      src, x, y := [], p, q;
      NoSources(a, b, p, q);
    } else {
      var second := q < |b| && (p == |a| || a[p].dist > b[q].dist);
      var p', q' := if second then p else p + 1, if second then q + 1 else q;
      var head := if second then Second(q) else First(p);
      var rest;
      rest, x, y := MergeSources(a, b, p', q', k - 1);
      src := [head] + rest;
      HeadFirst(a, b, p, q, p', q', head);
      TakeHead(a, b, p, q, p', q', head, rest, x, y);
    }
  }

  lemma MergeHead(a: seq<Hit>, b: seq<Hit>, p: nat, q: nat, k: nat)
    requires p <= |a| && q <= |b|
    ensures k == 0 || (p == |a| && q == |b|) ==> MergeTake(a[p..], b[q..], k) == []
    ensures k > 0 && q < |b| && (p == |a| || a[p].dist > b[q].dist) ==>
      MergeTake(a[p..], b[q..], k) == [b[q]] + MergeTake(a[p..], b[q + 1..], k - 1)
    ensures k > 0 && p < |a| && (q == |b| || a[p].dist <= b[q].dist) ==>
      MergeTake(a[p..], b[q..], k) == [a[p]] + MergeTake(a[p + 1..], b[q..], k - 1)
  {
    if p < |a| {
      assert a[p..][1..] == a[p + 1..];
    }
    if q < |b| {
      assert b[q..][1..] == b[q + 1..];
    }
  }

  lemma NoSources(a: seq<Hit>, b: seq<Hit>, p: nat, q: nat)
    ensures InMergeOrder(a, b, p, q, [], p, q)
  {
  }

  lemma HeadFirst(a: seq<Hit>, b: seq<Hit>, p: nat, q: nat, p': nat, q': nat, head: Source)
    requires Ascending(a) && Ascending(b) && p <= |a| && q <= |b|
    requires if q < |b| && (p == |a| || a[p].dist > b[q].dist) then p' == p && q' == q + 1 && head == Second(q)
      else p < |a| && p' == p + 1 && q' == q && head == First(p)
    ensures Has(a, b, head) && forall u :: From(a, b, p', q', u) ==> Precedes(a, b, head, u)
  {
  }

  lemma TakeHead(a: seq<Hit>, b: seq<Hit>, p: nat, q: nat, p': nat, q': nat, head: Source, src: seq<Source>, x: nat,
                 y: nat)
    requires p' <= x && q' <= y && Has(a, b, head) && forall u :: From(a, b, p', q', u) ==> Precedes(a, b, head, u)
    requires (head == First(p) && p' == p + 1 && q' == q) || (head == Second(q) && p' == p && q' == q + 1)
    requires InMergeOrder(a, b, p', q', src, x, y)
    ensures InMergeOrder(a, b, p, q, [head] + src, x, y)
  {
    hide Precedes;
    var all := [head] + src;
    assert forall s :: s in all <==> s == head || s in src;
    forall s
      ensures From(a, b, p, q, s) <==> s == head || From(a, b, p', q', s)
    {
    }
    forall t, u | 0 <= t < u < |all|
      ensures Has(a, b, all[t]) && Has(a, b, all[u]) && Precedes(a, b, all[t], all[u])
    {
      assert all[u] == src[u - 1] && src[u - 1] in src;
      if t > 0 {
        assert all[t] == src[t - 1];
      }
    }
    assert !From(a, b, x, y, head);
    forall s
      ensures s in all <==> From(a, b, p, q, s) && !From(a, b, x, y, s)
    {
    }
    forall s, u | s in all && From(a, b, x, y, u)
      ensures Has(a, b, s) && Precedes(a, b, s, u)
    {
      assert From(a, b, p', q', u);
    }
  }

  // ----- the answer over the slots of the table

  /** The slot is in one of the first `n` chunks, in a partition that is read, and wanted. */
  ghost predicate Eligible(cs: seq<Chunk>, qu: Query, size: nat, n: nat, p: Position)
    requires ChunksOk(cs, size) && QueryOk(qu, cs, size) && n <= |cs|
  {
    && p.chunk < n && p.offset < size && qu.parts(cs[p.chunk].key)
    && Wanted(cs[p.chunk], qu.m, qu.metas[p.chunk], size, p.offset)
  }

  function HitOn(cs: seq<Chunk>, qu: Query, p: Position): Hit
    requires p.chunk < |cs| && p.offset < |cs[p.chunk].rowids| == |cs[p.chunk].vectors|
  {
    SlotHit(cs[p.chunk], qu, p.offset)
  }

  predicate Ahead(x: Hit, p: Position, y: Hit, r: Position) {
    || x.dist < y.dist
    || (x.dist == y.dist && (p.chunk < r.chunk || (p.chunk == r.chunk && p.offset > r.offset)))
  }

  /** The slots `at` are eligible, give the hits `top`, and are ahead of one another in order. */
  ghost predicate InLine(cs: seq<Chunk>, qu: Query, size: nat, n: nat, top: seq<Hit>, at: seq<Position>)
    requires ChunksOk(cs, size) && QueryOk(qu, cs, size) && n <= |cs|
  {
    && |at| == |top|
    && (forall i :: 0 <= i < |at| ==> Eligible(cs, qu, size, n, at[i]) && top[i] == HitOn(cs, qu, at[i]))
    && (forall i, j :: 0 <= i < j < |at| ==> Ahead(top[i], at[i], top[j], at[j]))
  }

  /** Every eligible slot that is left out comes after `k` others. */
  ghost predicate RestBehind(cs: seq<Chunk>, qu: Query, size: nat, n: nat, k: nat, top: seq<Hit>, at: seq<Position>)
    requires ChunksOk(cs, size) && QueryOk(qu, cs, size) && n <= |cs| && |at| == |top|
  {
    forall p :: Eligible(cs, qu, size, n, p) && p !in at ==> |top| == k && AllAhead(top, at, HitOn(cs, qu, p), p)
  }

  predicate AllAhead(top: seq<Hit>, at: seq<Position>, y: Hit, r: Position)
    requires |at| == |top|
  {
    forall i :: 0 <= i < |at| ==> Ahead(top[i], at[i], y, r)
  }

  /** The first `k` of the wanted slots of the first `n` chunks: by distance, then chunk, then slot from the back. */
  ghost predicate FirstSlots(cs: seq<Chunk>, qu: Query, size: nat, n: nat, k: nat, top: seq<Hit>, at: seq<Position>)
    requires ChunksOk(cs, size) && QueryOk(qu, cs, size) && n <= |cs|
  {
    InLine(cs, qu, size, n, top, at) && |top| <= k && RestBehind(cs, qu, size, n, k, top, at)
  }

  ghost predicate AnswersInOrder(cs: seq<Chunk>, qu: Query, size: nat, k: nat, top: seq<Hit>)
    requires ChunksOk(cs, size) && QueryOk(qu, cs, size)
  {
    exists at :: FirstSlots(cs, qu, size, |cs|, k, top, at)
  }

  // ----- folding one chunk in

  ghost predicate IsSlot(cs: seq<Chunk>, qu: Query, size: nat, n: nat, o: nat)
    requires ChunksOk(cs, size) && QueryOk(qu, cs, size) && n < |cs|
  {
    o < size && Wanted(cs[n], qu.m, qu.metas[n], size, o)
  }

  /** `idxs` are up to `k` wanted slots of chunk `n`, ahead of one another in order and of all that are left out. */
  ghost predicate PicksOf(cs: seq<Chunk>, qu: Query, size: nat, n: nat, k: nat, ds: seq<real>, idxs: seq<nat>)
    requires ChunksOk(cs, size) && QueryOk(qu, cs, size) && n < |cs|
  {
    && |ds| == size && (forall o: nat :: IsSlot(cs, qu, size, n, o) ==> ds[o] == SlotHit(cs[n], qu, o).dist)
    && (forall i :: 0 <= i < |idxs| ==> IsSlot(cs, qu, size, n, idxs[i]))
    && (forall i, j :: 0 <= i < j < |idxs| ==> Sooner(ds, idxs[i], idxs[j]))
    && (forall o: nat :: o !in idxs && IsSlot(cs, qu, size, n, o) ==> |idxs| == k && AllSooner(ds, idxs, o))
  }

  predicate AllSooner(ds: seq<real>, idxs: seq<nat>, o: nat) {
    o < |ds| && forall i :: 0 <= i < |idxs| ==> idxs[i] < |ds| && Sooner(ds, idxs[i], o)
  }

  lemma PicksAreOf(cs: seq<Chunk>, qu: Query, size: nat, n: nat, k: nat, b: seq<Byte>, ds: seq<real>, idxs: seq<nat>)
    requires ChunksOk(cs, size) && QueryOk(qu, cs, size) && n < |cs| && |ds| == size == 8 * |b|
    requires forall o: nat :: o < size ==> Get(b, o) == Wanted(cs[n], qu.m, qu.metas[n], size, o)
    requires forall o: nat :: o < size && Get(b, o) ==> ds[o] == qu.dist(cs[n].vectors[o], qu.q)
    requires Picks(ds, b, Min(k, size), idxs)
    ensures PicksOf(cs, qu, size, n, k, ds, idxs)
  {
    hide Get, Wanted, Sooner;
    forall o: nat | o !in idxs && IsSlot(cs, qu, size, n, o)
      ensures |idxs| == k && AllSooner(ds, idxs, o)
    {
      assert Get(b, o);
      if |idxs| == size {
        DistinctFit(idxs + [o], size);
      }
    }
  }

  /** The hits of the picked slots. */
  ghost predicate HitsOf(cs: seq<Chunk>, qu: Query, size: nat, n: nat, idxs: seq<nat>, b: seq<Hit>)
    requires ChunksOk(cs, size) && n < |cs|
  {
    |b| == |idxs| && forall j :: 0 <= j < |b| ==> idxs[j] < size && b[j] == SlotHit(cs[n], qu, idxs[j])
  }

  /** What the fold of chunk `n` starts from. */
  ghost predicate Folding(cs: seq<Chunk>, qu: Query, size: nat, n: nat, k: nat, top: seq<Hit>, at: seq<Position>,
                          ds: seq<real>, idxs: seq<nat>, b: seq<Hit>) {
    && ChunksOk(cs, size) && QueryOk(qu, cs, size) && n < |cs| && qu.parts(cs[n].key)
    && FirstSlots(cs, qu, size, n, k, top, at)
    && PicksOf(cs, qu, size, n, k, ds, idxs) && HitsOf(cs, qu, size, n, idxs, b)
  }

  function Where(at: seq<Position>, n: nat, idxs: seq<nat>, s: Source): Position
    requires s.i < if s.First? then |at| else |idxs|
  {
    if s.First? then at[s.i] else Position(n, idxs[s.i])
  }

  /** What precedes in the merge is ahead in the table. */
  lemma PrecedesIsAhead(cs: seq<Chunk>, qu: Query, size: nat, n: nat, k: nat, top: seq<Hit>, at: seq<Position>,
                        ds: seq<real>, idxs: seq<nat>, b: seq<Hit>, s: Source, u: Source)
    requires Folding(cs, qu, size, n, k, top, at, ds, idxs, b)
    requires Has(top, b, s) && Has(top, b, u) && Precedes(top, b, s, u)
    ensures Ahead(Value(top, b, s), Where(at, n, idxs, s), Value(top, b, u), Where(at, n, idxs, u))
  {
    hide Wanted, RestBehind, SlotHit;
    if s.Second? {
      assert IsSlot(cs, qu, size, n, idxs[s.i]);
    }
    if u.Second? {
      assert IsSlot(cs, qu, size, n, idxs[u.i]);
    }
    if s.First? {
      assert Eligible(cs, qu, size, n, at[s.i]);
    }
  }

  lemma Ascends(cs: seq<Chunk>, qu: Query, size: nat, n: nat, k: nat, top: seq<Hit>, at: seq<Position>, ds: seq<real>,
                idxs: seq<nat>, b: seq<Hit>)
    requires Folding(cs, qu, size, n, k, top, at, ds, idxs, b)
    ensures Ascending(top) && Ascending(b)
  {
    hide Wanted, RestBehind, SlotHit;
    forall i, j | 0 <= i < j < |b|
      ensures b[i].dist <= b[j].dist
    {
      assert IsSlot(cs, qu, size, n, idxs[i]) && IsSlot(cs, qu, size, n, idxs[j]);
    }
  }

  /** Every source is eligible and gives its hit. */
  lemma SourceIsEligible(cs: seq<Chunk>, qu: Query, size: nat, n: nat, k: nat, top: seq<Hit>, at: seq<Position>,
                         ds: seq<real>, idxs: seq<nat>, b: seq<Hit>, s: Source)
    requires Folding(cs, qu, size, n, k, top, at, ds, idxs, b) && Has(top, b, s)
    ensures var p := Where(at, n, idxs, s); Eligible(cs, qu, size, n + 1, p) && Value(top, b, s) == HitOn(cs, qu, p)
  {
    hide Wanted, RestBehind, SlotHit;
    if s.First? {
      assert Eligible(cs, qu, size, n, at[s.i]);
    } else {
      assert IsSlot(cs, qu, size, n, idxs[s.i]);
    }
  }

  /** An eligible slot that is no source at all is behind every source the merge takes, and the merge is full. */
  lemma NoSourceIsBehind(cs: seq<Chunk>, qu: Query, size: nat, n: nat, k: nat, top: seq<Hit>, at: seq<Position>,
                         ds: seq<real>, idxs: seq<nat>, b: seq<Hit>, r: seq<Hit>, src: seq<Source>, x: nat, y: nat,
                         p: Position, s: Source)
    requires Folding(cs, qu, size, n, k, top, at, ds, idxs, b) && Merged(top, b, 0, 0, k, r, src, x, y)
    requires Eligible(cs, qu, size, n + 1, p) && p !in at && (p.chunk == n ==> p.offset !in idxs) && s in src
    ensures |r| == k && Has(top, b, s) && Ahead(Value(top, b, s), Where(at, n, idxs, s), HitOn(cs, qu, p), p)
  {
    hide Wanted, SlotHit, Precedes;
    assert From(top, b, 0, 0, s) && !From(top, b, x, y, s);
    if p.chunk == n {
      assert IsSlot(cs, qu, size, n, p.offset);
      assert |b| == k && AllSooner(ds, idxs, p.offset);
      LateSecond(cs, qu, size, n, k, top, at, ds, idxs, b, src, x, y, p.offset, s);
    } else {
      assert Eligible(cs, qu, size, n, p);
      assert |top| == k && AllAhead(top, at, HitOn(cs, qu, p), p);
      LateFirst(cs, qu, size, n, k, top, at, ds, idxs, b, src, x, y, p, s);
    }
  }

  lemma LateSecond(cs: seq<Chunk>, qu: Query, size: nat, n: nat, k: nat, top: seq<Hit>, at: seq<Position>,
                   ds: seq<real>,
                   idxs: seq<nat>, b: seq<Hit>, src: seq<Source>, x: nat, y: nat, o: nat, s: Source)
    requires Folding(cs, qu, size, n, k, top, at, ds, idxs, b) && InMergeOrder(top, b, 0, 0, src, x, y)
    requires x + y <= k == |b| && s in src && Has(top, b, s) && (s.First? ==> x > 0)
    requires IsSlot(cs, qu, size, n, o) && AllSooner(ds, idxs, o)
    ensures Ahead(Value(top, b, s), Where(at, n, idxs, s), SlotHit(cs[n], qu, o), Position(n, o))
  {
    hide Wanted, SlotHit, RestBehind;
    if s.First? {
      assert From(top, b, x, y, Second(y)) && IsSlot(cs, qu, size, n, idxs[y]);
      assert Precedes(top, b, s, Second(y));
      assert Eligible(cs, qu, size, n, at[s.i]);
    } else {
      assert IsSlot(cs, qu, size, n, idxs[s.i]);
    }
  }

  lemma LateFirst(cs: seq<Chunk>, qu: Query, size: nat, n: nat, k: nat, top: seq<Hit>, at: seq<Position>, ds: seq<real>,
                  idxs: seq<nat>, b: seq<Hit>, src: seq<Source>, x: nat, y: nat, p: Position, s: Source)
    requires Folding(cs, qu, size, n, k, top, at, ds, idxs, b) && InMergeOrder(top, b, 0, 0, src, x, y)
    requires x + y <= k == |top| && s in src && Has(top, b, s) && (s.Second? ==> y > 0)
    requires Eligible(cs, qu, size, n, p) && AllAhead(top, at, HitOn(cs, qu, p), p)
    ensures Ahead(Value(top, b, s), Where(at, n, idxs, s), HitOn(cs, qu, p), p)
  {
    hide Wanted, SlotHit, RestBehind;
    if s.Second? {
      assert From(top, b, x, y, First(x));
      assert Precedes(top, b, s, First(x));
      assert Ahead(top[x], at[x], HitOn(cs, qu, p), p);
    }
  }

  /** A source the merge leaves out is behind every source it takes. */
  lemma LeftSourceIsBehind(cs: seq<Chunk>, qu: Query, size: nat, n: nat, k: nat, top: seq<Hit>, at: seq<Position>,
                           ds: seq<real>, idxs: seq<nat>, b: seq<Hit>, r: seq<Hit>, src: seq<Source>, x: nat, y: nat,
                           u: Source, s: Source)
    requires Folding(cs, qu, size, n, k, top, at, ds, idxs, b) && Merged(top, b, 0, 0, k, r, src, x, y)
    requires Has(top, b, u) && u !in src && s in src
    ensures |r| == k && Has(top, b, s)
    ensures Ahead(Value(top, b, s), Where(at, n, idxs, s), Value(top, b, u), Where(at, n, idxs, u))
  {
    hide Precedes, Folding;
    assert From(top, b, 0, 0, u);
    assert Precedes(top, b, s, u);
    PrecedesIsAhead(cs, qu, size, n, k, top, at, ds, idxs, b, s, u);
  }

  datatype MaybeSource = Some(s: Source) | None

  /** The source that stands for a slot, if there is one. */
  ghost function SourceOf(at: seq<Position>, n: nat, idxs: seq<nat>, p: Position): MaybeSource {
    if p in at then var i :| 0 <= i < |at| && at[i] == p; Some(First(i))
    else if p.chunk == n && p.offset in idxs then var j :| 0 <= j < |idxs| && idxs[j] == p.offset; Some(Second(j))
    else None
  }

  lemma SourceFound(at: seq<Position>, n: nat, idxs: seq<nat>, p: Position)
    requires SourceOf(at, n, idxs, p).Some?
    ensures var s := SourceOf(at, n, idxs, p).s;
      s.i < (if s.First? then |at| else |idxs|) && Where(at, n, idxs, s) == p
  {
  }

  lemma SourceMissing(at: seq<Position>, n: nat, idxs: seq<nat>, p: Position)
    requires SourceOf(at, n, idxs, p).None?
    ensures p !in at && (p.chunk == n ==> p.offset !in idxs)
  {
  }

  /** The slot is none of those the merge takes. */
  ghost predicate LeftOut(at: seq<Position>, n: nat, idxs: seq<nat>, src: seq<Source>, p: Position) {
    forall s :: s in src && s.i < (if s.First? then |at| else |idxs|) ==> Where(at, n, idxs, s) != p
  }

  /** Something is left out only when `k` were taken, all of them ahead of it. */
  lemma LeftOutIsBehind(cs: seq<Chunk>, qu: Query, size: nat, n: nat, k: nat, top: seq<Hit>, at: seq<Position>,
                        ds: seq<real>, idxs: seq<nat>, b: seq<Hit>, r: seq<Hit>, src: seq<Source>, x: nat, y: nat,
                        p: Position)
    requires Folding(cs, qu, size, n, k, top, at, ds, idxs, b) && Merged(top, b, 0, 0, k, r, src, x, y)
    requires Eligible(cs, qu, size, n + 1, p) && LeftOut(at, n, idxs, src, p)
    ensures |r| == k
    ensures forall t :: 0 <= t < |src| ==>
      Has(top, b, src[t]) && Ahead(Value(top, b, src[t]), Where(at, n, idxs, src[t]), HitOn(cs, qu, p), p)
  {
    hide Wanted, SlotHit, Precedes;
    var u := SourceOf(at, n, idxs, p);
    if u.Some? {
      SourceFound(at, n, idxs, p);
      assert Has(top, b, u.s) && u.s !in src;
      assert From(top, b, 0, 0, u.s);
      SourceIsEligible(cs, qu, size, n, k, top, at, ds, idxs, b, u.s);
    } else {
      SourceMissing(at, n, idxs, p);
      assert p.chunk == n ==> IsSlot(cs, qu, size, n, p.offset);
      assert p.chunk < n ==> Eligible(cs, qu, size, n, p);
    }
    forall t | 0 <= t < |src|
      ensures Has(top, b, src[t]) && Ahead(Value(top, b, src[t]), Where(at, n, idxs, src[t]), HitOn(cs, qu, p), p)
    {
      if u.Some? {
        LeftSourceIsBehind(cs, qu, size, n, k, top, at, ds, idxs, b, r, src, x, y, u.s, src[t]);
      } else {
        NoSourceIsBehind(cs, qu, size, n, k, top, at, ds, idxs, b, r, src, x, y, p, src[t]);
      }
    }
  }

  /** The merge of the running list with a chunk's minima is the running list of one chunk more. */
  lemma FoldSlots(cs: seq<Chunk>, qu: Query, size: nat, n: nat, k: nat, top: seq<Hit>, at: seq<Position>, ds: seq<real>,
                  idxs: seq<nat>, b: seq<Hit>)
    returns (at': seq<Position>)
    requires Folding(cs, qu, size, n, k, top, at, ds, idxs, b)
    ensures FirstSlots(cs, qu, size, n + 1, k, MergeTake(top, b, k), at')
  {
    hide Wanted, SlotHit, Precedes, Eligible, Ahead, RestBehind, MergeTake, InMergeOrder;
    Ascends(cs, qu, size, n, k, top, at, ds, idxs, b);
    var r := MergeTake(top, b, k);
    var src, x, y := MergeSources(top, b, 0, 0, k);
    assert top[0..] == top && b[0..] == b;
    at' := seq(|src|, t requires 0 <= t < |src| => Where(at, n, idxs, src[t]));
    FoldInLine(cs, qu, size, n, k, top, at, ds, idxs, b, r, src, x, y, at');
    FoldRest(cs, qu, size, n, k, top, at, ds, idxs, b, r, src, x, y, at');
  }

  lemma FoldInLine(cs: seq<Chunk>, qu: Query, size: nat, n: nat, k: nat, top: seq<Hit>, at: seq<Position>,
                   ds: seq<real>,
                   idxs: seq<nat>, b: seq<Hit>, r: seq<Hit>, src: seq<Source>, x: nat, y: nat, at': seq<Position>)
    requires Folding(cs, qu, size, n, k, top, at, ds, idxs, b) && Merged(top, b, 0, 0, k, r, src, x, y)
    requires |at'| == |src| && forall t :: 0 <= t < |src| ==> at'[t] == Where(at, n, idxs, src[t])
    ensures InLine(cs, qu, size, n + 1, r, at')
  {
    hide Wanted, SlotHit, Precedes, Ahead, RestBehind;
    forall t | 0 <= t < |src|
      ensures Eligible(cs, qu, size, n + 1, at'[t]) && r[t] == HitOn(cs, qu, at'[t])
    {
      SourceIsEligible(cs, qu, size, n, k, top, at, ds, idxs, b, src[t]);
    }
    forall t, u | 0 <= t < u < |src|
      ensures Ahead(r[t], at'[t], r[u], at'[u])
    {
      PrecedesIsAhead(cs, qu, size, n, k, top, at, ds, idxs, b, src[t], src[u]);
    }
  }

  lemma FoldRest(cs: seq<Chunk>, qu: Query, size: nat, n: nat, k: nat, top: seq<Hit>, at: seq<Position>, ds: seq<real>,
                 idxs: seq<nat>, b: seq<Hit>, r: seq<Hit>, src: seq<Source>, x: nat, y: nat, at': seq<Position>)
    requires Folding(cs, qu, size, n, k, top, at, ds, idxs, b) && Merged(top, b, 0, 0, k, r, src, x, y)
    requires |at'| == |src| && forall t :: 0 <= t < |src| ==> at'[t] == Where(at, n, idxs, src[t])
    ensures RestBehind(cs, qu, size, n + 1, k, r, at')
  {
    hide Wanted, SlotHit, Precedes, Ahead, InMergeOrder;
    forall p | Eligible(cs, qu, size, n + 1, p) && p !in at'
      ensures |r| == k && AllAhead(r, at', HitOn(cs, qu, p), p)
    {
      assert LeftOut(at, n, idxs, src, p);
      LeftOutIsBehind(cs, qu, size, n, k, top, at, ds, idxs, b, r, src, x, y, p);
    }
  }

  /** A chunk of another partition adds no slots. */
  lemma SkipSlots(cs: seq<Chunk>, qu: Query, size: nat, n: nat, k: nat, top: seq<Hit>, at: seq<Position>)
    requires ChunksOk(cs, size) && QueryOk(qu, cs, size) && n < |cs| && !qu.parts(cs[n].key)
    requires FirstSlots(cs, qu, size, n, k, top, at)
    ensures FirstSlots(cs, qu, size, n + 1, k, top, at)
  {
    hide Wanted, SlotHit, Ahead;
    assert forall p :: Eligible(cs, qu, size, n + 1, p) <==> Eligible(cs, qu, size, n, p);
  }

  lemma NoSlots(cs: seq<Chunk>, qu: Query, size: nat, k: nat)
    requires ChunksOk(cs, size) && QueryOk(qu, cs, size)
    ensures FirstSlots(cs, qu, size, 0, k, [], [])
  {
  }
}
