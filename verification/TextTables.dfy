/** A table with a vector and a text column: its operations keep both in step, and its queries read both. */
module TextTables {
  import opened Rows
  import opened TopK
  import opened Vectors
  import opened Bitmaps
  import opened ChunkStore
  import opened ChunkQuery
  import opened ChunkKnn
  import opened TextMetadata

  /** A constraint on the text of a row. */
  datatype TextFilter = Equals(t: Text) | Differs(t: Text) | OneOf(ts: seq<Text>)

  ghost predicate Meets(f: TextFilter, s: Text) {
    match f
    case Equals(t) => Alike(s, t)
    case Differs(t) => !Alike(s, t)
    case OneOf(ts) => AlikeAny(s, ts)
  }

  /** The row has a text and it meets every constraint. */
  ghost predicate MeetsAll(texts: map<int, Text>, fs: seq<TextFilter>, r: int) {
    r in texts && forall j :: 0 <= j < |fs| ==> Meets(fs[j], texts[r])
  }

  ghost function Wants(texts: map<int, Text>, fs: seq<TextFilter>): int -> bool { r => MeetsAll(texts, fs, r) }

  ghost function TextsOf(held: map<int, Held>): map<int, Text> {
    map r | r in held :: held[r].text
  }

  /** With NUL-free search texts the constraints are equality, inequality and membership. */
  lemma MeetsNulFree(f: TextFilter, s: Text)
    requires NulFree(s) || match f
      case Equals(t) => NulFree(t)
      case Differs(t) => NulFree(t)
      case OneOf(ts) => forall k :: 0 <= k < |ts| ==> NulFree(ts[k])
    ensures Meets(f, s) <==> match f
      case Equals(t) => s == t
      case Differs(t) => s != t
      case OneOf(ts) => s in ts
  {
    hide Alike, AlikeAny;
    match f
    case Equals(t) => NulFreeMeaning(s, t, []);
    case Differs(t) => NulFreeMeaning(s, t, []);
    case OneOf(ts) => NulFreeMeaning(s, [], ts);
  }

  /** The column holds the same rows as the table, in the same slots. */
  ghost predicate Aligned(pos: map<int, Position>, held: map<int, Held>) {
    held.Keys == pos.Keys && forall r :: r in pos ==> held[r].at == pos[r]
  }

  /** On the rows of chunk `c` the bitmap says which meet the constraint. */
  ghost predicate MaskOf(held: map<int, Held>, f: TextFilter, size: nat, c: nat, bm: seq<Byte>) {
    && 8 * |bm| == size
    && forall r :: r in held && held[r].at.chunk == c && held[r].at.offset < size ==>
      Get(bm, held[r].at.offset) == Meets(f, held[r].text)
  }

  ghost predicate MasksOf(held: map<int, Held>, fs: seq<TextFilter>, size: nat, c: nat, bms: seq<seq<Byte>>) {
    |bms| == |fs| && forall j :: 0 <= j < |fs| ==> MaskOf(held, fs[j], size, c, bms[j])
  }

  lemma SlotMasks(held: map<int, Held>, fs: seq<TextFilter>, size: nat, c: nat, bms: seq<seq<Byte>>, r: int)
    requires MasksOf(held, fs, size, c, bms) && MasksOk(bms, size)
    requires r in held && held[r].at.chunk == c && held[r].at.offset < size
    ensures AllSet(bms, size, held[r].at.offset) <==> MeetsAll(TextsOf(held), fs, r)
  {
    hide Get, Meets;
    assert forall j :: 0 <= j < |fs| ==> MaskOf(held, fs[j], size, c, bms[j]);
  }

  /** Bitmaps filtered chunk by chunk mean the constraints on every live slot. */
  lemma MasksMeanText(cs: seq<Chunk>, pos: map<int, Position>, rows: map<int, Entry>, size: nat, qu: Query,
                      held: map<int, Held>, fs: seq<TextFilter>)
    requires StoreOk(cs, pos, rows, size) && QueryOk(qu, cs, size) && Aligned(pos, held)
    requires forall c :: 0 <= c < |cs| ==> MasksOf(held, fs, size, c, qu.metas[c])
    ensures MasksMean(cs, qu, size, Wants(TextsOf(held), fs))
  {
    hide Get, MasksOf, RowsPlaced, AllSet, MeetsAll;
    forall c: nat, o: nat | c < |cs| && o < size && Get(cs[c].validity, o)
      ensures AllSet(qu.metas[c], size, o) <==> MeetsAll(TextsOf(held), fs, cs[c].rowids[o])
    {
      assert MasksOf(held, fs, size, c, qu.metas[c]);
      SlotMasks(held, fs, size, c, qu.metas[c], cs[c].rowids[o]);
    }
  }

  /** The bitmaps play no part in what a query asks for. */
  lemma BruteForceSame(rows: map<int, Entry>, qu: Query, metas: seq<seq<seq<Byte>>>, sat: int -> bool)
    ensures BruteForce(rows, qu.(metas := metas), sat) == BruteForce(rows, qu, sat)
  {
    var qu' := qu.(metas := metas);
    assert forall r :: Asked(rows, qu', sat, r) == Asked(rows, qu, sat, r);
    assert (set r | r in rows && Asked(rows, qu', sat, r) :: Hit(r, qu'.dist(rows[r].vector, qu'.q))) ==
           (set r | r in rows && Asked(rows, qu, sat, r) :: Hit(r, qu.dist(rows[r].vector, qu.q)));
  }

  lemma MasksFit(held: map<int, Held>, fs: seq<TextFilter>, size: nat, metas: seq<seq<seq<Byte>>>)
    requires forall c :: 0 <= c < |metas| ==> MasksOf(held, fs, size, c, metas[c])
    ensures forall c :: 0 <= c < |metas| ==> MasksOk(metas[c], size)
  {
    forall c | 0 <= c < |metas|
      ensures MasksOk(metas[c], size)
    {
      assert MasksOf(held, fs, size, c, metas[c]);
      assert forall j :: 0 <= j < |fs| ==> MaskOf(held, fs[j], size, c, metas[c][j]);
    }
  }

  /** A chunk's rowid cells name the rows the column keeps there. */
  lemma CellsFit(cs: seq<Chunk>, pos: map<int, Position>, rows: map<int, Entry>, size: nat, held: map<int, Held>,
                 c: nat)
    requires StoreOk(cs, pos, rows, size) && Aligned(pos, held) && c < |cs|
    ensures |cs[c].rowids| == size
    ensures forall r :: r in held && held[r].at.chunk == c && held[r].at.offset < size ==>
      cs[c].rowids[held[r].at.offset] == r
  {
    hide Get;
    forall r | r in held && held[r].at.chunk == c && held[r].at.offset < size
      ensures cs[c].rowids[held[r].at.offset] == r
    {
      assert RowPlaced(cs, pos[r], r, rows[r], size);
    }
  }

  class TextTable {
    const table: VecTable
    const col: TextColumn

    ghost predicate Valid()
      reads this, table, col
    {
      && table.Valid() && col.Valid() && col.size == table.size
      && |col.views| == |table.chunks| && Aligned(table.positions, col.rows)
    }

    /** The texts of the live rows. */
    ghost function Texts(): map<int, Text>
      reads col
    {
      TextsOf(col.rows)
    }

    constructor (chunkSize: nat)
      requires chunkSize > 0 && chunkSize % 8 == 0
      ensures Valid() && fresh(table) && fresh(col) && table.rows == map[] && Texts() == map[]
    {
      table := new VecTable(chunkSize);
      col := new TextColumn(chunkSize);
    }

    /** A new row: its slot is found, a new chunk brings blank views with it, and vector and text are written. */
    method Insert(rowid: int, key: Key, v: Point, text: Text) returns (rc: Status)
      requires Valid()
      modifies table, col
      ensures Valid()
      ensures rc == if rowid in old(table.rows) then Constraint else Ok
      ensures table.rows == if rc == Ok then old(table.rows)[rowid := Entry(key, v)] else old(table.rows)
      ensures Texts() == if rc == Ok then old(Texts())[rowid := text] else old(Texts())
      ensures rc == Ok ==>
        rowid in table.positions &&
        GoesTo(old(table.chunks), key, table.positions[rowid], |table.chunks| > old(|table.chunks|))
    {
      hide StoreOk, ViewsOk, LongOk, SlotFor, GoesTo, KeysKept;
      ghost var cs, pos := table.chunks, table.positions;
      PositionsAreRows(cs, pos, table.rows, table.size);
      SlotIsNew(cs, pos, table.rows, table.size, key, col.rows);
      rc := table.Insert(rowid, key, v);
      if rc != Ok {
        return;
      }
      if |table.chunks| > |col.views| {
        col.AddChunk();
      }
      var _ := col.Write(rowid, table.positions[rowid], text, false);
    }

    /** A new vector for a row; its text stays. */
    method UpdateVector(rowid: int, v: Point) returns (rc: Status)
      requires Valid()
      modifies table
      ensures Valid() && Texts() == old(Texts())
      ensures rc == if rowid in old(table.rows) then Ok else Empty
      ensures table.rows ==
        if rc == Ok then old(table.rows)[rowid := old(table.rows)[rowid].(vector := v)] else old(table.rows)
    {
      hide StoreOk, ViewsOk, LongOk;
      rc := table.UpdateVector(rowid, v);
    }

    /** A new text for a row; its vector stays. */
    method UpdateText(rowid: int, text: Text) returns (rc: Status)
      requires Valid()
      modifies col
      ensures Valid() && table.rows == old(table.rows)
      ensures rc == if rowid in table.rows then Ok else Empty
      ensures Texts() == if rc == Ok then old(Texts())[rowid := text] else old(Texts())
    {
      hide StoreOk, ViewsOk, LongOk;
      PositionsAreRows(table.chunks, table.positions, table.rows, table.size);
      if rowid !in table.positions {
        return Empty;
      }
      PlaceExists(table.chunks, table.positions, table.rows, table.size, rowid);
      var _ := col.Write(rowid, table.positions[rowid], text, true);
      rc := Ok;
    }

    /** Removes a row from both. */
    method Delete(rowid: int) returns (rc: Status)
      requires Valid()
      modifies table, col
      ensures Valid()
      ensures rc == if rowid in old(table.rows) then Ok else Empty
      ensures table.rows == old(table.rows) - {rowid} && Texts() == old(Texts()) - {rowid}
    {
      hide StoreOk, ViewsOk, LongOk;
      PositionsAreRows(table.chunks, table.positions, table.rows, table.size);
      if rowid !in table.positions {
        assert table.rows - {rowid} == table.rows && Texts() - {rowid} == Texts();
        return Empty;
      }
      var p := table.positions[rowid];
      rc := table.Delete(rowid);
      col.Clear(rowid, p);
    }

    /** The bitmap of one constraint on one chunk. */
    method ChunkMask(f: TextFilter, c: nat) returns (bm: seq<Byte>)
      requires Valid() && c < |table.chunks|
      ensures MaskOf(col.rows, f, table.size, c, bm)
    {
      hide Alike, AlikeAny, Get, ViewsOk, LongOk, StoreOk;
      CellsFit(table.chunks, table.positions, table.rows, table.size, col.rows, c);
      var b := new Byte[table.size / 8](_ => 0);
      var rowids := table.chunks[c].rowids;
      assert b[..] == Zero(b.Length);
      var ok;
      match f {
        case Equals(t) => ok := col.FilterText(c, rowids, Eq, t, b);
        case Differs(t) => ok := col.FilterText(c, rowids, Ne, t, b);
        case OneOf(ts) => ok := col.FilterTextIn(c, rowids, ts, b);
      }
      bm := b[..];
    }

    method ChunkMasks(fs: seq<TextFilter>, c: nat) returns (bms: seq<seq<Byte>>)
      requires Valid() && c < |table.chunks|
      ensures MasksOf(col.rows, fs, table.size, c, bms)
    {
      hide MaskOf, StoreOk, ViewsOk, LongOk;
      bms := [];
      while |bms| < |fs|
        invariant |bms| <= |fs| && forall j :: 0 <= j < |bms| ==> MaskOf(col.rows, fs[j], table.size, c, bms[j])
        decreases |fs| - |bms|
      {
        var bm := ChunkMask(fs[|bms|], c);
        bms := bms + [bm];
      }
    }

    /** The k nearest of the asked-for rows whose texts meet every constraint. */
    method KnnWhereText(fs: seq<TextFilter>, qu: Query, k: nat) returns (top: seq<Hit>)
      requires Valid() && SortedIds(qu.m.rowids)
      ensures Answers(top, BruteForce(table.rows, qu, Wants(Texts(), fs)), k)
    {
      hide StoreOk, ViewsOk, LongOk, Aligned, MasksOf, BruteForce, Answers, MasksMean, Wants;
      var metas: seq<seq<seq<Byte>>> := [];
      while |metas| < |table.chunks|
        invariant |metas| <= |table.chunks|
        invariant forall c :: 0 <= c < |metas| ==> MasksOf(col.rows, fs, table.size, c, metas[c])
        decreases |table.chunks| - |metas|
      {
        var bms := ChunkMasks(fs, |metas|);
        metas := metas + [bms];
      }
      var full := qu.(metas := metas);
      MasksFit(col.rows, fs, table.size, metas);
      MasksMeanText(table.chunks, table.positions, table.rows, table.size, full, col.rows, fs);
      top := Knn(table, full, k, Wants(TextsOf(col.rows), fs));
      BruteForceSame(table.rows, qu, metas, Wants(TextsOf(col.rows), fs));
    }
  }

  lemma PositionsAreRows(cs: seq<Chunk>, pos: map<int, Position>, rows: map<int, Entry>, size: nat)
    requires StoreOk(cs, pos, rows, size)
    ensures pos.Keys == rows.Keys
  {
  }

  lemma PlaceExists(cs: seq<Chunk>, pos: map<int, Position>, rows: map<int, Entry>, size: nat, r: int)
    requires StoreOk(cs, pos, rows, size) && r in pos
    ensures InBounds(cs, pos[r], size)
  {
    assert RowPlaced(cs, pos[r], r, rows[r], size);
  }

  /** The slot an insert will use is free in the column and lies in a chunk there is or is about to be. */
  lemma SlotIsNew(cs: seq<Chunk>, pos: map<int, Position>, rows: map<int, Entry>, size: nat, key: Key,
                  held: map<int, Held>)
    requires size > 0 && size % 8 == 0 && StoreOk(cs, pos, rows, size) && Aligned(pos, held)
    ensures Free(held, SlotFor(cs, key)) && InBounds(WithRoom(cs, key, size), SlotFor(cs, key), size)
    ensures |cs| <= |WithRoom(cs, key, size)| <= |cs| + 1
  {
    hide StoreOk, SlotFor;
    RoomIsFree(cs, pos, rows, size, key);
    forall r | r in held
      ensures held[r].at != SlotFor(cs, key)
    {
      RoomIsNew(cs, pos, rows, size, key, r);
    }
  }
}
