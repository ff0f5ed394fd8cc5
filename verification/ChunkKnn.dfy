/** The chunk-by-chunk search of a stored table, held to a scan of the rows it represents. */
module ChunkKnn {
  import opened Sequences
  import opened Rows
  import opened TopK
  import opened Bitmaps
  import opened Chunks
  import opened ChunkSearch
  import opened ChunkStore
  import opened ChunkQuery
  import opened ChunkOrder

  /** The bitmap of valid slots whose rowid is in the sorted list. */
  method RowidBitmap(c: Chunk, m: RowidMap, size: nat, bm: array<Byte>)
    requires ChunkOk(c, size) && SortedIds(m.rowids) && 8 * bm.Length == size
    modifies bm
    ensures forall o: nat :: o < size ==> Get(bm[..], o) == (Get(c.validity, o) && c.rowids[o] in m.rowids)
  {
    hide Get, Put;
    forall i | 0 <= i < bm.Length {
      bm[i] := 0;
    }
    assert bm[..] == Zero(bm.Length);
    forall o: nat | o < size
      ensures !Get(bm[..], o)
    {
      GetZero(bm.Length, o);
    }
    var i := 0;
    while i < size
      invariant 0 <= i <= size
      invariant forall o: nat :: o < size ==>
        Get(bm[..], o) == (o < i && Get(c.validity, o) && c.rowids[o] in m.rowids)
    {
      if Get(c.validity, i) {
        var found := Contains(m.rowids, c.rowids[i]);
        ghost var was := bm[..];
        SetBit(bm, i, found);
        forall o: nat | o < size
          ensures Get(bm[..], o) == if o == i then found else Get(was, o)
        {
          GetPut(was, i, found, o);
        }
      }
      i := i + 1;
    }
  }

  /** `bitmap_and_inplace` on a byte array. */
  method AndInto(b: array<Byte>, bm: seq<Byte>)
    requires b.Length == |bm|
    modifies b
    ensures b[..] == And(old(b[..]), bm)
  {
    var i := 0;
    while i < b.Length
      invariant 0 <= i <= b.Length
      invariant forall j :: 0 <= j < i ==> b[j] == old(b[j]) & bm[j]
      invariant forall j :: i <= j < b.Length ==> b[j] == old(b[j])
    {
      b[i] := b[i] & bm[i];
      i := i + 1;
    }
  }

  lemma AndAll(a: seq<Byte>, bm: seq<Byte>)
    requires |a| == |bm|
    ensures forall o: nat :: o < 8 * |a| ==> Get(And(a, bm), o) == (Get(a, o) && Get(bm, o))
  {
    hide Get, And;
    forall o: nat | o < 8 * |a|
      ensures Get(And(a, bm), o) == (Get(a, o) && Get(bm, o))
    {
      GetAnd(a, bm, o);
    }
  }

  /** The candidate bitmap of a chunk: its validity, narrowed by the rowid list and every metadata bitmap. */
  method MaskChunk(c: Chunk, m: RowidMap, bms: seq<seq<Byte>>, size: nat, b: array<Byte>)
    requires ChunkOk(c, size) && SortedIds(m.rowids) && MasksOk(bms, size) && 8 * b.Length == size
    modifies b
    ensures forall o: nat :: o < size ==> Get(b[..], o) == Wanted(c, m, bms, size, o)
  {
    hide Get, And;
    forall i | 0 <= i < b.Length {
      b[i] := c.validity[i];
    }
    assert b[..] == c.validity;
    if m.preFilter {
      var bm := new Byte[b.Length];
      RowidBitmap(c, m, size, bm);
      AndAll(b[..], bm[..]);
      AndInto(b, bm[..]);
    }
    var j := 0;
    while j < |bms|
      invariant 0 <= j <= |bms|
      invariant forall o: nat :: o < size ==>
        Get(b[..], o) == (Get(c.validity, o) && Passes(m, c.rowids[o]) && forall i :: 0 <= i < j ==> Get(bms[i], o))
    {
      AndAll(b[..], bms[j]);
      AndInto(b, bms[j]);
      j := j + 1;
    }
  }

  /** Distances of the candidate slots; the others stay zero. */
  method Distances(c: Chunk, qu: Query, b: seq<Byte>, size: nat) returns (ds: seq<real>)
    requires ChunkOk(c, size) && 8 * |b| == size
    ensures |ds| == size
    ensures forall o: nat :: o < size && Get(b, o) ==> ds[o] == qu.dist(c.vectors[o], qu.q)
  {
    hide Get;
    var a := new real[size];
    var i := 0;
    while i < size
      invariant 0 <= i <= size
      invariant forall o: nat :: o < i && Get(b, o) ==> a[o] == qu.dist(c.vectors[o], qu.q)
    {
      a[i] := if Get(b, i) then qu.dist(c.vectors[i], qu.q) else 0.0;
      i := i + 1;
    }
    ds := a[..];
  }

  /** The hits of the marked positions are the hits of the wanted slots. */
  lemma {:induction false} MarkedAreWanted(c: Chunk, qu: Query, bms: seq<seq<Byte>>, size: nat, n: nat, b: seq<Byte>,
                                           ds: seq<real>)
    requires ChunkOk(c, size) && MasksOk(bms, size) && n <= size == 8 * |b| == |ds|
    requires forall o: nat :: o < size ==> Get(b, o) == Wanted(c, qu.m, bms, size, o)
    requires forall o: nat :: o < size && Get(b, o) ==> ds[o] == qu.dist(c.vectors[o], qu.q)
    ensures HitsAt(Marked(b, n), c.rowids, ds) == SlotHits(c, qu, bms, size, n)
  {
    hide Get, Wanted;
    if n > 0 {
      MarkedAreWanted(c, qu, bms, size, n - 1, b, ds);
      HitsAppend(Marked(b, n - 1), n - 1, c.rowids, ds);
    }
  }

  /** A top k of few enough candidates is a top k for every larger k. */
  lemma WidenK(s: seq<Hit>, u: multiset<Hit>, k: nat, n: nat)
    requires |u| <= n && Answers(s, u, Min(k, n))
    ensures Answers(s, u, k)
  {
  }

  /** One chunk's minima folded into the running list. */
  lemma FoldChunk(top: seq<Hit>, seen: seq<Hit>, picked: seq<Hit>, here: seq<Hit>, k: nat)
    requires Answers(top, multiset(seen), k) && Answers(picked, multiset(here), k)
    ensures Answers(MergeTake(top, picked, k), multiset(seen + here), k)
  {
    hide MergeTake;
    MergeTakeAnswers(top, picked, k);
    TopKMerge(multiset(top), multiset(seen), multiset(picked), multiset(here), multiset(MergeTake(top, picked, k)), k);
    assert multiset(seen + here) == multiset(seen) + multiset(here);
  }

  /** One pass of the chunk loop. */
  method ScanChunk(cs: seq<Chunk>, qu: Query, size: nat, n: nat, k: nat, top: seq<Hit>, ghost at: seq<Position>)
    returns (next: seq<Hit>, ghost nextAt: seq<Position>)
    requires ChunksOk(cs, size) && QueryOk(qu, cs, size) && size % 8 == 0 && n < |cs| && qu.parts(cs[n].key)
    requires Answers(top, multiset(TableHits(cs, qu, size, n)), k) && FirstSlots(cs, qu, size, n, k, top, at)
    ensures Answers(next, multiset(TableHits(cs, qu, size, n + 1)), k)
    ensures FirstSlots(cs, qu, size, n + 1, k, next, nextAt)
  {
    hide Answers, SlotHits, Picks, Wanted, MergeTake, Get, Marked, FirstSlots, PicksOf;
    var c, bms := cs[n], qu.metas[n];
    ghost var seen := TableHits(cs, qu, size, n);
    var b := new Byte[size / 8];
    MaskChunk(c, qu.m, bms, size, b);
    var ds := Distances(c, qu, b[..], size);
    var taken := new Byte[size / 8];
    var idxs := MinIdx(ds, b[..], Min(k, size), taken);
    assert Below(idxs, size) by {
      PicksBelow(ds, b[..], Min(k, size), idxs);
    }
    var tmp := new Hit[k](_ => Hit(0, 0.0));
    var used := MergeSortedLists(top, c.rowids, ds, idxs, tmp);
    PicksAnswer(ds, b[..], Min(k, size), idxs, c.rowids);
    MarkedAreWanted(c, qu, bms, size, size, b[..], ds);
    WidenK(HitsAt(idxs, c.rowids, ds), multiset(SlotHits(c, qu, bms, size, size)), k, size);
    FoldChunk(top, seen, HitsAt(idxs, c.rowids, ds), SlotHits(c, qu, bms, size, size), k);
    PicksAreOf(cs, qu, size, n, k, b[..], ds, idxs);
    PickedHits(cs, qu, size, n, k, ds, idxs);
    nextAt := FoldSlots(cs, qu, size, n, k, top, at, ds, idxs, HitsAt(idxs, c.rowids, ds));
    next := tmp[..used];
  }

  lemma PickedHits(cs: seq<Chunk>, qu: Query, size: nat, n: nat, k: nat, ds: seq<real>, idxs: seq<nat>)
    requires ChunksOk(cs, size) && QueryOk(qu, cs, size) && n < |cs| && |ds| == size && Below(idxs, size)
    requires PicksOf(cs, qu, size, n, k, ds, idxs)
    ensures HitsOf(cs, qu, size, n, idxs, HitsAt(idxs, cs[n].rowids, ds))
  {
    hide Wanted;
    assert forall i :: 0 <= i < |idxs| ==> IsSlot(cs, qu, size, n, idxs[i]);
  }

  lemma PicksBelow(ds: seq<real>, b: seq<Byte>, k: nat, out: seq<nat>)
    requires |ds| == 8 * |b| && Picks(ds, b, k, out)
    ensures Below(out, |ds|)
  {
  }

  /** `vec0Filter_knn_chunks_iter`: after every chunk the running list answers for the rows seen so far. */
  method KnnChunks(cs: seq<Chunk>, qu: Query, size: nat, k: nat) returns (top: seq<Hit>)
    requires ChunksOk(cs, size) && QueryOk(qu, cs, size) && size % 8 == 0
    ensures Answers(top, multiset(TableHits(cs, qu, size, |cs|)), k) && AnswersInOrder(cs, qu, size, k, top)
  {
    hide Answers, SlotHits, FirstSlots;
    top := [];
    ghost var at: seq<Position> := [];
    NoSlots(cs, qu, size, k);
    EmptyAnswers(multiset([]), k);
    var i := 0;
    while i < |cs|
      invariant 0 <= i <= |cs|
      invariant Answers(top, multiset(TableHits(cs, qu, size, i)), k) && FirstSlots(cs, qu, size, i, k, top, at)
    {
      if qu.parts(cs[i].key) {
        top, at := ScanChunk(cs, qu, size, i, k, top, at);
      } else {
        SkipSlots(cs, qu, size, i, k, top, at);
        assert TableHits(cs, qu, size, i + 1) == TableHits(cs, qu, size, i);
      }
      i := i + 1;
    }
  }

  /** The query of a table: exact k nearest of the rows asked for, as in a scan of the abstract table. */
  method Knn(t: VecTable, qu: Query, k: nat, ghost sat: int -> bool) returns (top: seq<Hit>)
    requires t.Valid() && QueryOk(qu, t.chunks, t.size) && MasksMean(t.chunks, qu, t.size, sat)
    ensures Answers(top, BruteForce(t.rows, qu, sat), k) && AnswersInOrder(t.chunks, qu, t.size, k, top)
  {
    hide Answers, BruteForce, TableHits, AnswersInOrder;
    top := KnnChunks(t.chunks, qu, t.size, k);
    TableIsBruteForce(t.chunks, t.positions, t.rows, t.size, qu, sat);
  }
}
