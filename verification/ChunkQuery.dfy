/** What a query asks of a stored table: the wanted slots, which hold each row asked for once. */
module ChunkQuery {
  import opened Vectors
  import opened Rows
  import opened TopK
  import opened Bitmaps
  import opened ChunkStore

  /** A query: vector, metric, rowid list, the partitions it may read and, per chunk, its metadata bitmaps. */
  datatype Query = Query(q: Point, dist: Metric, m: RowidMap, parts: Key -> bool, metas: seq<seq<seq<Byte>>>)

  ghost predicate MasksOk(bms: seq<seq<Byte>>, size: nat) {
    forall j :: 0 <= j < |bms| ==> 8 * |bms[j]| == size
  }

  ghost predicate QueryOk(qu: Query, cs: seq<Chunk>, size: nat) {
    && SortedIds(qu.m.rowids) && |qu.metas| == |cs|
    && forall c :: 0 <= c < |cs| ==> MasksOk(qu.metas[c], size)
  }

  ghost predicate AllSet(bms: seq<seq<Byte>>, size: nat, o: nat)
    requires MasksOk(bms, size) && o < size
  {
    forall j :: 0 <= j < |bms| ==> Get(bms[j], o)
  }

  /** Slot `o` holds a row that passes every filter. */
  ghost predicate Wanted(c: Chunk, m: RowidMap, bms: seq<seq<Byte>>, size: nat, o: nat)
    requires ChunkOk(c, size) && MasksOk(bms, size) && o < size
  {
    Get(c.validity, o) && Passes(m, c.rowids[o]) && AllSet(bms, size, o)
  }

  function SlotHit(c: Chunk, qu: Query, o: nat): Hit
    requires o < |c.rowids| == |c.vectors|
  {
    Hit(c.rowids[o], qu.dist(c.vectors[o], qu.q))
  }

  /** The hits of the wanted slots below `n`. */
  ghost function SlotHits(c: Chunk, qu: Query, bms: seq<seq<Byte>>, size: nat, n: nat): (r: seq<Hit>)
    requires ChunkOk(c, size) && MasksOk(bms, size) && n <= size
    ensures |r| <= n
  {
    if n == 0 then []
    else SlotHits(c, qu, bms, size, n - 1) + if Wanted(c, qu.m, bms, size, n - 1) then [SlotHit(c, qu, n - 1)] else []
  }

  /** The hits of the first `n` chunks. */
  ghost function TableHits(cs: seq<Chunk>, qu: Query, size: nat, n: nat): seq<Hit>
    requires ChunksOk(cs, size) && QueryOk(qu, cs, size) && n <= |cs|
  {
    if n == 0 then []
    else TableHits(cs, qu, size, n - 1) +
         (if qu.parts(cs[n - 1].key) then SlotHits(cs[n - 1], qu, qu.metas[n - 1], size, size) else [])
  }

  // ----- the table's hits are the hits of its rows

  /** A hit that can only come from slot `o` is counted once, when that slot is wanted and yields it. */
  lemma {:induction false} SlotCount(c: Chunk, qu: Query, bms: seq<seq<Byte>>, size: nat, n: nat, h: Hit, o: nat)
    requires ChunkOk(c, size) && MasksOk(bms, size) && n <= size
    requires forall i: nat :: i < n && Wanted(c, qu.m, bms, size, i) && SlotHit(c, qu, i) == h ==> i == o
    ensures multiset(SlotHits(c, qu, bms, size, n))[h] ==
      if o < n && Wanted(c, qu.m, bms, size, o) && SlotHit(c, qu, o) == h then 1 else 0
  {
    hide Wanted, SlotHit;
    if n > 0 {
      SlotCount(c, qu, bms, size, n - 1, h, o);
    }
  }

  /** The slot of chunk `c` at offset `o` contributes the hit `h`. */
  ghost predicate Yields(cs: seq<Chunk>, qu: Query, size: nat, h: Hit, c: nat, o: nat)
    requires ChunksOk(cs, size) && QueryOk(qu, cs, size)
  {
    && c < |cs| && o < size && qu.parts(cs[c].key)
    && Wanted(cs[c], qu.m, qu.metas[c], size, o) && SlotHit(cs[c], qu, o) == h
  }

  /** A chunk's share of the count of a hit that can only come from slot `p`. */
  lemma ChunkCount(cs: seq<Chunk>, qu: Query, size: nat, n: nat, h: Hit, p: Position)
    requires ChunksOk(cs, size) && QueryOk(qu, cs, size) && n < |cs| && qu.parts(cs[n].key)
    requires forall c: nat, o: nat :: Yields(cs, qu, size, h, c, o) ==> Position(c, o) == p
    ensures multiset(SlotHits(cs[n], qu, qu.metas[n], size, size))[h] ==
      if p.chunk == n && Yields(cs, qu, size, h, n, p.offset) then 1 else 0
  {
    hide Wanted, SlotHit, SlotHits;
    var c, bms := cs[n], qu.metas[n];
    var o := if p.chunk == n then p.offset else size;
    forall i: nat | i < size && Wanted(c, qu.m, bms, size, i) && SlotHit(c, qu, i) == h
      ensures i == o
    {
      assert Yields(cs, qu, size, h, n, i);
    }
    SlotCount(c, qu, bms, size, size, h, o);
  }

  lemma {:induction false} TableCount(cs: seq<Chunk>, qu: Query, size: nat, n: nat, h: Hit, p: Position)
    requires ChunksOk(cs, size) && QueryOk(qu, cs, size) && n <= |cs|
    requires forall c: nat, o: nat :: Yields(cs, qu, size, h, c, o) ==> Position(c, o) == p
    ensures multiset(TableHits(cs, qu, size, n))[h] ==
      if p.chunk < n && Yields(cs, qu, size, h, p.chunk, p.offset) then 1 else 0
  {
    hide SlotHits, Wanted, SlotHit, Yields;
    if n > 0 {
      TableCount(cs, qu, size, n - 1, h, p);
      YieldsReads(cs, qu, size, h, p);
      if qu.parts(cs[n - 1].key) {
        ChunkCount(cs, qu, size, n - 1, h, p);
      }
    }
  }

  /** A row the query asks for; `sat` is the meaning of its metadata constraints. */
  predicate Asked(rows: map<int, Entry>, qu: Query, sat: int -> bool, r: int) {
    r in rows && qu.parts(rows[r].key) && Passes(qu.m, r) && sat(r)
  }

  /** The brute-force candidates: one hit for every row asked for. */
  ghost function BruteForce(rows: map<int, Entry>, qu: Query, sat: int -> bool): multiset<Hit> {
    multiset(set r | r in rows && Asked(rows, qu, sat, r) :: Hit(r, qu.dist(rows[r].vector, qu.q)))
  }

  /** On live slots the metadata bitmaps mean `sat`. */
  ghost predicate MasksMean(cs: seq<Chunk>, qu: Query, size: nat, sat: int -> bool)
    requires ChunksOk(cs, size) && QueryOk(qu, cs, size)
  {
    forall c: nat, o: nat :: c < |cs| && o < size && Get(cs[c].validity, o) ==>
      (AllSet(qu.metas[c], size, o) <==> sat(cs[c].rowids[o]))
  }

  /** A slot that yields a hit is the recorded slot of a row asked for. */
  lemma YieldsIsRow(cs: seq<Chunk>, pos: map<int, Position>, rows: map<int, Entry>, size: nat, qu: Query,
                    sat: int -> bool, h: Hit, c: nat, o: nat)
    requires StoreOk(cs, pos, rows, size) && QueryOk(qu, cs, size) && MasksMean(cs, qu, size, sat)
    requires Yields(cs, qu, size, h, c, o)
    ensures h.rowid in pos && pos[h.rowid] == Position(c, o) && Asked(rows, qu, sat, h.rowid)
    ensures h == Hit(h.rowid, qu.dist(rows[h.rowid].vector, qu.q))
  {
    hide Get, AllSet;
    assert RowPlaced(cs, pos[h.rowid], h.rowid, rows[h.rowid], size);
  }

  lemma RowYields(cs: seq<Chunk>, pos: map<int, Position>, rows: map<int, Entry>, size: nat, qu: Query,
                  sat: int -> bool, r: int)
    requires StoreOk(cs, pos, rows, size) && QueryOk(qu, cs, size) && MasksMean(cs, qu, size, sat)
    requires Asked(rows, qu, sat, r)
    ensures r in pos && Yields(cs, qu, size, Hit(r, qu.dist(rows[r].vector, qu.q)), pos[r].chunk, pos[r].offset)
  {
    hide Get, AllSet;
    assert RowPlaced(cs, pos[r], r, rows[r], size);
  }

  /** The slots of a well-formed store give each row asked for exactly once, and nothing else. */
  lemma TableIsBruteForce(cs: seq<Chunk>, pos: map<int, Position>, rows: map<int, Entry>, size: nat, qu: Query,
                          sat: int -> bool)
    requires StoreOk(cs, pos, rows, size) && QueryOk(qu, cs, size) && MasksMean(cs, qu, size, sat)
    ensures multiset(TableHits(cs, qu, size, |cs|)) == BruteForce(rows, qu, sat)
  {
    hide Yields, TableHits, Asked, MasksMean, RowsPlaced, SlotsOwned;
    var t := multiset(TableHits(cs, qu, size, |cs|));
    forall h: Hit
      ensures t[h] == BruteForce(rows, qu, sat)[h]
    {
      var p := if h.rowid in pos then pos[h.rowid] else Position(|cs|, 0);
      forall c: nat, o: nat | Yields(cs, qu, size, h, c, o)
        ensures Position(c, o) == p && Asked(rows, qu, sat, h.rowid) && h.rowid in rows
        ensures h.rowid in rows && h == Hit(h.rowid, qu.dist(rows[h.rowid].vector, qu.q))
      {
        YieldsIsRow(cs, pos, rows, size, qu, sat, h, c, o);
        AskedIsRow(rows, qu, sat, h.rowid);
      }
      TableCount(cs, qu, size, |cs|, h, p);
      YieldsReads(cs, qu, size, h, p);
      if h in BruteForce(rows, qu, sat) {
        RowYields(cs, pos, rows, size, qu, sat, h.rowid);
      }
    }
  }

  lemma AskedIsRow(rows: map<int, Entry>, qu: Query, sat: int -> bool, r: int)
    requires Asked(rows, qu, sat, r)
    ensures r in rows
  {
  }

  lemma YieldsReads(cs: seq<Chunk>, qu: Query, size: nat, h: Hit, p: Position)
    requires ChunksOk(cs, size) && QueryOk(qu, cs, size)
    ensures Yields(cs, qu, size, h, p.chunk, p.offset) ==> p.chunk < |cs| && qu.parts(cs[p.chunk].key)
  {
  }
}
