/** Slot allocation in fixed-size chunks: which slot each live row occupies. */
module ChunkStore {
  import opened Vectors
  import opened Bitmaps

  /** A partition key value; two NULLs do not compare equal. */
  datatype Value = Null | Int(n: int)

  type Key = seq<Value>

  predicate Matches(a: Key, b: Key) {
    |a| == |b| && forall i :: 0 <= i < |a| ==> a[i].Int? && a[i] == b[i]
  }

  datatype Chunk = Chunk(key: Key, validity: seq<Byte>, rowids: seq<int>, vectors: seq<Point>)

  datatype Position = Position(chunk: nat, offset: nat)

  /** What the table holds for a rowid. */
  datatype Entry = Entry(key: Key, vector: Point)

  ghost predicate ChunkOk(c: Chunk, size: nat) {
    8 * |c.validity| == size == |c.rowids| == |c.vectors|
  }

  ghost predicate ChunksOk(cs: seq<Chunk>, size: nat) {
    forall c :: 0 <= c < |cs| ==> ChunkOk(cs[c], size)
  }

  ghost predicate InBounds(cs: seq<Chunk>, p: Position, size: nat) {
    p.chunk < |cs| && p.offset < size
  }

  /** The recorded slot of every row is valid and holds that row. */
  ghost predicate RowsPlaced(cs: seq<Chunk>, pos: map<int, Position>, rows: map<int, Entry>, size: nat)
    requires ChunksOk(cs, size)
  {
    pos.Keys == rows.Keys && forall r :: r in pos ==> RowPlaced(cs, pos[r], r, rows[r], size)
  }

  ghost predicate RowPlaced(cs: seq<Chunk>, p: Position, r: int, e: Entry, size: nat)
    requires ChunksOk(cs, size)
  {
    && InBounds(cs, p, size)
    && Get(cs[p.chunk].validity, p.offset)
    && cs[p.chunk].rowids[p.offset] == r
    && cs[p.chunk].vectors[p.offset] == e.vector
    && cs[p.chunk].key == e.key
  }

  /** Every valid slot is the recorded slot of the row it names. */
  ghost predicate SlotsOwned(cs: seq<Chunk>, pos: map<int, Position>, size: nat)
    requires ChunksOk(cs, size)
  {
    forall c: nat, o: nat :: c < |cs| && o < size && Get(cs[c].validity, o) ==>
      cs[c].rowids[o] in pos && pos[cs[c].rowids[o]] == Position(c, o)
  }

  ghost predicate StoreOk(cs: seq<Chunk>, pos: map<int, Position>, rows: map<int, Entry>, size: nat) {
    ChunksOk(cs, size) && RowsPlaced(cs, pos, rows, size) && SlotsOwned(cs, pos, size)
  }

  /** A validity bit is set exactly when exactly one live row maps to the slot. */
  lemma BitIffOneRow(cs: seq<Chunk>, pos: map<int, Position>, rows: map<int, Entry>, size: nat, c: nat, o: nat)
    requires StoreOk(cs, pos, rows, size) && c < |cs| && o < size
    ensures Get(cs[c].validity, o) <==> exists r :: r in pos && pos[r] == Position(c, o)
    ensures forall r, s :: r in pos && s in pos && pos[r] == Position(c, o) && pos[s] == Position(c, o) ==> r == s
  {
    hide Get;
    forall r, s | r in pos && s in pos && pos[r] == Position(c, o) && pos[s] == Position(c, o)
      ensures r == s
    {
      assert RowPlaced(cs, pos[r], r, rows[r], size) && RowPlaced(cs, pos[s], s, rows[s], size);
    }
    if exists r :: r in pos && pos[r] == Position(c, o) {
      var r :| r in pos && pos[r] == Position(c, o);
      assert RowPlaced(cs, pos[r], r, rows[r], size);
    }
  }

  // ----- steps

  function BlankChunk(key: Key, size: nat): (c: Chunk)
    requires size % 8 == 0
    ensures ChunkOk(c, size)
  {
    Chunk(key, Zero(size / 8), seq(size, _ => 0), seq(size, _ => []))
  }

  /** Opening a chunk adds no rows. */
  lemma OpenChunk(cs: seq<Chunk>, pos: map<int, Position>, rows: map<int, Entry>, size: nat, key: Key)
    requires size % 8 == 0 && StoreOk(cs, pos, rows, size)
    ensures StoreOk(cs + [BlankChunk(key, size)], pos, rows, size)
    ensures size > 0 ==> !Get(BlankChunk(key, size).validity, 0)
  {
    hide Get, Zero;
    var b := BlankChunk(key, size);
    var cs' := cs + [b];
    forall o: nat | o < size
      ensures !Get(b.validity, o)
    {
      GetZero(size / 8, o);
    }
    forall r | r in pos
      ensures RowPlaced(cs', pos[r], r, rows[r], size)
    {
      assert RowPlaced(cs, pos[r], r, rows[r], size);
    }
  }

  /** The chunk after a row has been written to slot `o`. */
  function Written(c: Chunk, o: nat, rowid: int, v: Point): (r: Chunk)
    requires o < |c.rowids| == |c.vectors| == 8 * |c.validity|
  {
    Chunk(c.key, Put(c.validity, o, true), c.rowids[o := rowid], c.vectors[o := v])
  }

  /** Writing a new row to a free slot of a chunk with its key. */
  lemma WriteRow(cs: seq<Chunk>, pos: map<int, Position>, rows: map<int, Entry>, size: nat, p: Position, r: int,
                 e: Entry)
    requires StoreOk(cs, pos, rows, size) && InBounds(cs, p, size) && r !in pos
    requires !Get(cs[p.chunk].validity, p.offset) && cs[p.chunk].key == e.key
    ensures StoreOk(cs[p.chunk := Written(cs[p.chunk], p.offset, r, e.vector)], pos[r := p], rows[r := e], size)
  {
    hide Get, Put;
    var cs' := cs[p.chunk := Written(cs[p.chunk], p.offset, r, e.vector)];
    var pos', rows' := pos[r := p], rows[r := e];
    WriteBits(cs, p, size, true);
    forall s | s in pos'
      ensures RowPlaced(cs', pos'[s], s, rows'[s], size)
    {
      if s != r {
        assert RowPlaced(cs, pos[s], s, rows[s], size);
      }
    }
    forall c: nat, o: nat | c < |cs'| && o < size && Get(cs'[c].validity, o)
      ensures cs'[c].rowids[o] in pos' && pos'[cs'[c].rowids[o]] == Position(c, o)
    {
      if Position(c, o) != p {
        assert Get(cs[c].validity, o);
      }
    }
  }

  /** Only the written slot's bit changes. */
  lemma WriteBits(cs: seq<Chunk>, p: Position, size: nat, v: bool)
    requires ChunksOk(cs, size) && InBounds(cs, p, size)
    ensures forall o: nat :: o < size ==>
      Get(Put(cs[p.chunk].validity, p.offset, v), o) == if o == p.offset then v else Get(cs[p.chunk].validity, o)
  {
    hide Get, Put;
    forall o: nat | o < size
      ensures Get(Put(cs[p.chunk].validity, p.offset, v), o) ==
        if o == p.offset then v else Get(cs[p.chunk].validity, o)
    {
      GetPut(cs[p.chunk].validity, p.offset, v, o);
    }
  }

  function Cleared(c: Chunk, o: nat): (r: Chunk)
    requires o < 8 * |c.validity|
  {
    c.(validity := Put(c.validity, o, false))
  }

  /** Clearing a row's bit and forgetting its position removes exactly that row. */
  lemma ClearRow(cs: seq<Chunk>, pos: map<int, Position>, rows: map<int, Entry>, size: nat, r: int)
    requires StoreOk(cs, pos, rows, size) && r in pos
    ensures InBounds(cs, pos[r], size) && Get(cs[pos[r].chunk].validity, pos[r].offset)
    ensures StoreOk(cs[pos[r].chunk := Cleared(cs[pos[r].chunk], pos[r].offset)], pos - {r}, rows - {r}, size)
  {
    hide Get, Put;
    var p := pos[r];
    assert RowPlaced(cs, p, r, rows[r], size);
    var cs' := cs[p.chunk := Cleared(cs[p.chunk], p.offset)];
    WriteBits(cs, p, size, false);
    forall s | s in pos - {r}
      ensures RowPlaced(cs', pos[s], s, rows[s], size)
    {
      assert RowPlaced(cs, pos[s], s, rows[s], size);
    }
    forall c: nat, o: nat | c < |cs'| && o < size && Get(cs'[c].validity, o)
      ensures cs'[c].rowids[o] in pos - {r} && pos[cs'[c].rowids[o]] == Position(c, o)
    {
      assert Get(cs[c].validity, o);
    }
  }

  /** Rewriting the vector of a row in its slot changes that row's vector and nothing else. */
  lemma RewriteRow(cs: seq<Chunk>, pos: map<int, Position>, rows: map<int, Entry>, size: nat, r: int, v: Point)
    requires StoreOk(cs, pos, rows, size) && r in pos
    ensures InBounds(cs, pos[r], size) && |cs[pos[r].chunk].vectors| == size
    ensures
      var c := cs[pos[r].chunk];
      StoreOk(cs[pos[r].chunk := c.(vectors := c.vectors[pos[r].offset := v])], pos,
        rows[r := rows[r].(vector := v)], size)
  {
    hide Get, Put;
    var p := pos[r];
    assert RowPlaced(cs, p, r, rows[r], size);
    var c := cs[p.chunk];
    var cs', rows' := cs[p.chunk := c.(vectors := c.vectors[p.offset := v])], rows[r := rows[r].(vector := v)];
    forall s | s in pos
      ensures RowPlaced(cs', pos[s], s, rows'[s], size)
    {
      assert RowPlaced(cs, pos[s], s, rows[s], size);
    }
    forall c: nat, o: nat | c < |cs'| && o < size && Get(cs'[c].validity, o)
      ensures cs'[c].rowids[o] in pos && pos[cs'[c].rowids[o]] == Position(c, o)
    {
      assert Get(cs[c].validity, o);
    }
  }

  // ----- where the next row of a partition goes

  /** The last chunk whose key matches, or -1. */
  function LatestMatch(cs: seq<Chunk>, key: Key): (c: int)
    ensures -1 <= c < |cs| && (c >= 0 ==> Matches(cs[c].key, key))
    ensures forall d :: c < d < |cs| ==> !Matches(cs[d].key, key)
  {
    if cs == [] then -1
    else if Matches(cs[|cs| - 1].key, key) then |cs| - 1
    else LatestMatch(cs[..|cs| - 1], key)
  }

  /** The first clear bit from position `i` on, or -1. */
  function FirstClear(bm: seq<Byte>, i: nat): (o: int)
    requires i <= 8 * |bm|
    ensures o == -1 || i <= o < 8 * |bm|
    ensures o >= 0 ==> !Get(bm, o) && forall j: nat :: i <= j < o ==> Get(bm, j)
    ensures o == -1 ==> forall j: nat :: i <= j < 8 * |bm| ==> Get(bm, j)
    decreases 8 * |bm| - i
  {
    if i == 8 * |bm| then -1 else if !Get(bm, i) then i else FirstClear(bm, i + 1)
  }

  /** No chunk of the partition exists, or its latest one is full. */
  predicate NeedsChunk(cs: seq<Chunk>, key: Key) {
    var c := LatestMatch(cs, key);
    c == -1 || FirstClear(cs[c].validity, 0) == -1
  }

  /** The first free slot of the latest chunk of the partition, or the first slot of a new chunk. */
  function SlotFor(cs: seq<Chunk>, key: Key): Position {
    if NeedsChunk(cs, key) then Position(|cs|, 0)
    else Position(LatestMatch(cs, key), FirstClear(cs[LatestMatch(cs, key)].validity, 0))
  }

  /** The chunks with one opened if the partition needs it. */
  function WithRoom(cs: seq<Chunk>, key: Key, size: nat): seq<Chunk>
    requires size % 8 == 0
  {
    if NeedsChunk(cs, key) then cs + [BlankChunk(key, size)] else cs
  }

  /** No chunk goes away or changes its partition. */
  ghost predicate KeysKept(cs: seq<Chunk>, cs': seq<Chunk>) {
    |cs| <= |cs'| && forall c :: 0 <= c < |cs| ==> cs'[c].key == cs[c].key
  }

  /** Chunk `d` is the last one of the partition. */
  ghost predicate IsLatest(cs: seq<Chunk>, key: Key, d: nat) {
    d < |cs| && Matches(cs[d].key, key) && forall e :: d < e < |cs| ==> !Matches(cs[e].key, key)
  }

  /** Slot `o` is free and every slot before it is taken. */
  ghost predicate IsFirstFree(bm: seq<Byte>, o: nat) {
    o < 8 * |bm| && !Get(bm, o) && forall j: nat :: j < o ==> Get(bm, j)
  }

  ghost predicate Full(bm: seq<Byte>) {
    forall o: nat :: o < 8 * |bm| ==> Get(bm, o)
  }

  /**
   * Where the next row of a partition goes, over the chunks alone: a free slot of the last chunk of the partition is
   * filled lowest first, and a chunk is opened exactly when there is no such chunk or it has no free slot.
   */
  ghost predicate GoesTo(cs: seq<Chunk>, key: Key, p: Position, grown: bool) {
    && (forall d: nat, o: nat :: IsLatest(cs, key, d) && IsFirstFree(cs[d].validity, o) ==> p == Position(d, o))
    && (grown <==> forall d: nat :: IsLatest(cs, key, d) ==> Full(cs[d].validity))
    && (grown ==> p == Position(|cs|, 0))
  }

  lemma SlotGoesTo(cs: seq<Chunk>, key: Key)
    ensures GoesTo(cs, key, SlotFor(cs, key), NeedsChunk(cs, key))
  {
    hide Get, FirstClear, Matches;
    var c := LatestMatch(cs, key);
    forall d: nat | IsLatest(cs, key, d)
      ensures d == c
    {
    }
    if c >= 0 {
      assert IsLatest(cs, key, c);
      var bm := cs[c].validity;
      forall o: nat | IsFirstFree(bm, o)
        ensures o == FirstClear(bm, 0)
      {
      }
    }
  }

  /** That slot exists, is free and is in a chunk of the partition; the store still holds the same rows. */
  lemma RoomIsFree(cs: seq<Chunk>, pos: map<int, Position>, rows: map<int, Entry>, size: nat, key: Key)
    requires size > 0 && size % 8 == 0 && StoreOk(cs, pos, rows, size)
    ensures var cs', p := WithRoom(cs, key, size), SlotFor(cs, key);
      && StoreOk(cs', pos, rows, size) && InBounds(cs', p, size)
      && !Get(cs'[p.chunk].validity, p.offset) && cs'[p.chunk].key == key
  {
    hide Get, RowsPlaced, SlotsOwned, FirstClear;
    OpenChunk(cs, pos, rows, size, key);
  }

  /** No row sits there yet. */
  lemma RoomIsNew(cs: seq<Chunk>, pos: map<int, Position>, rows: map<int, Entry>, size: nat, key: Key, r: int)
    requires size > 0 && size % 8 == 0 && StoreOk(cs, pos, rows, size) && r in pos
    ensures pos[r] != SlotFor(cs, key)
  {
    hide Get, SlotsOwned, WithRoom, SlotFor;
    RoomIsFree(cs, pos, rows, size, key);
    assert RowPlaced(WithRoom(cs, key, size), pos[r], r, rows[r], size);
  }

  // ----- the table

  datatype Status = Ok | Constraint | Empty | Error

  /** The first clear bit: bytes that are all ones are skipped. */
  method FirstFree(bm: seq<Byte>) returns (o: int)
    ensures o == FirstClear(bm, 0)
  {
    hide Bit, FirstClear;
    var i := 0;
    while i < |bm|
      invariant 0 <= i <= |bm|
      invariant forall j: nat :: j < 8 * i ==> Get(bm, j)
    {
      FullByte(bm[i]);
      if bm[i] != 0xFF {
        var k := 0;
        while k < 8
          invariant 0 <= k <= 8
          invariant forall j :: 0 <= j < k ==> Bit(bm[i], j)
        {
          if !Bit(bm[i], k) {
            FirstClearIs(bm, 8 * i + k);
            return 8 * i + k;
          }
          k := k + 1;
        }
      }
      i := i + 1;
    }
    return -1;
  }

  lemma FirstClearIs(bm: seq<Byte>, o: nat)
    requires o < 8 * |bm| && !Get(bm, o) && forall j: nat :: j < o ==> Get(bm, j)
    ensures FirstClear(bm, 0) == o
  {
    hide Get;
  }

  class VecTable {
    const size: nat
    var chunks: seq<Chunk>
    var positions: map<int, Position>
    ghost var rows: map<int, Entry>

    ghost predicate Valid()
      reads this
    {
      size > 0 && size % 8 == 0 && StoreOk(chunks, positions, rows, size)
    }

    constructor (chunkSize: nat)
      requires chunkSize > 0 && chunkSize % 8 == 0
      ensures Valid() && rows == map[] && size == chunkSize && chunks == [] && positions == map[]
    {
      size := chunkSize;
      chunks, positions, rows := [], map[], map[];
    }

    /** The query for the last chunk whose key matches. */
    method LatestChunk(key: Key) returns (c: int)
      requires Valid()
      ensures c == LatestMatch(chunks, key)
    {
      c := |chunks| - 1;
      while c >= 0 && !Matches(chunks[c].key, key)
        invariant -1 <= c < |chunks|
        invariant forall d :: c < d < |chunks| ==> !Matches(chunks[d].key, key)
      {
        c := c - 1;
      }
    }

    /** The slot for the next row of a partition: the first free one of its latest chunk, or a new chunk's first. */
    method NextAvailable(key: Key) returns (p: Position)
      requires Valid()
      modifies this`chunks
      ensures Valid() && rows == old(rows) && positions == old(positions)
      ensures p == SlotFor(old(chunks), key) && chunks == WithRoom(old(chunks), key, size)
      ensures GoesTo(old(chunks), key, p, |chunks| > old(|chunks|)) && old(chunks) <= chunks
      ensures |chunks| <= old(|chunks|) + 1
      ensures InBounds(chunks, p, size) && !Get(chunks[p.chunk].validity, p.offset) && chunks[p.chunk].key == key
    {
      hide Get, RowsPlaced, SlotsOwned, FirstClear, GoesTo;
      RoomIsFree(chunks, positions, rows, size, key);
      SlotGoesTo(chunks, key);
      var c := LatestChunk(key);
      if c >= 0 {
        var o := FirstFree(chunks[c].validity);
        if o >= 0 {
          return Position(c, o);
        }
      }
      p := Position(|chunks|, 0);
      chunks := chunks + [BlankChunk(key, size)];
    }

    /** The insert path: a rowid in use is a constraint error; otherwise the row gets a free slot of its partition. */
    method Insert(rowid: int, key: Key, v: Point) returns (rc: Status)
      requires Valid()
      modifies this
      ensures Valid()
      ensures rc == if rowid in old(rows) then Constraint else Ok
      ensures rows == if rc == Ok then old(rows)[rowid := Entry(key, v)] else old(rows)
      ensures positions == if rc == Ok then old(positions)[rowid := SlotFor(old(chunks), key)] else old(positions)
      ensures if rc == Ok then |chunks| == |WithRoom(old(chunks), key, size)| else chunks == old(chunks)
      ensures rc == Ok ==> GoesTo(old(chunks), key, positions[rowid], |chunks| > old(|chunks|))
      ensures KeysKept(old(chunks), chunks) && |chunks| <= old(|chunks|) + 1
    {
      hide Get, Put, RowPlaced, SlotsOwned, SlotFor, WithRoom, GoesTo;
      if rowid in positions {
        return Constraint;
      }
      var p := NextAvailable(key);
      WriteRow(chunks, positions, rows, size, p, rowid, Entry(key, v));
      chunks := chunks[p.chunk := Written(chunks[p.chunk], p.offset, rowid, v)];
      positions := positions[rowid := p];
      rows := rows[rowid := Entry(key, v)];
      rc := Ok;
    }

    /** The delete path: only the validity bit and the position record are touched. */
    method Delete(rowid: int) returns (rc: Status)
      requires Valid()
      modifies this
      ensures Valid()
      ensures rc == if rowid in old(rows) then Ok else Empty
      ensures rows == old(rows) - {rowid} && positions == old(positions) - {rowid}
      ensures KeysKept(old(chunks), chunks) && |chunks| == old(|chunks|)
    {
      hide Get, Put, RowPlaced, SlotsOwned;
      if rowid !in positions {
        assert rows - {rowid} == rows && positions - {rowid} == positions;
        return Empty;
      }
      var p := positions[rowid];
      ClearRow(chunks, positions, rows, size, rowid);
      var b := chunks[p.chunk].validity[p.offset / 8];
      HighBits(chunks[p.chunk].validity, p.offset);
      if b >> (p.offset % 8) == 0 {
        return Error;
      }
      chunks := chunks[p.chunk := Cleared(chunks[p.chunk], p.offset)];
      positions := positions - {rowid};
      rows := rows - {rowid};
      rc := Ok;
    }

    /** The update path for a vector column: written in place at the row's slot. */
    method UpdateVector(rowid: int, v: Point) returns (rc: Status)
      requires Valid()
      modifies this
      ensures Valid()
      ensures rc == if rowid in old(rows) then Ok else Empty
      ensures rows == if rc == Ok then old(rows)[rowid := old(rows)[rowid].(vector := v)] else old(rows)
      ensures positions == old(positions) && KeysKept(old(chunks), chunks) && |chunks| == old(|chunks|)
    {
      hide Get, Put, RowPlaced, SlotsOwned;
      if rowid !in positions {
        return Empty;
      }
      var p := positions[rowid];
      RewriteRow(chunks, positions, rows, size, rowid, v);
      var c := chunks[p.chunk];
      chunks := chunks[p.chunk := c.(vectors := c.vectors[p.offset := v])];
      rows := rows[rowid := rows[rowid].(vector := v)];
      rc := Ok;
    }
  }

  /** The delete path's check looks at all bits from the slot's up; a set bit always passes it. */
  lemma HighBits(bm: seq<Byte>, o: nat)
    requires o < 8 * |bm| && Get(bm, o)
    ensures bm[o / 8] >> (o % 8) != 0
  {
  }
}
