/** Text metadata in two tiers: a 16-byte view per slot and a side table for texts longer than 12 bytes. */
module TextMetadata {
  import opened Bitmaps
  import opened ChunkSearch
  import opened ChunkStore

  type Text = seq<Byte>

  const VIEW_DATA: nat := 12

  /** The length and the first 12 bytes, zero padded. */
  datatype View = View(n: nat, data: Text)

  // ----- bounded string comparison

  /** A text is followed by a NUL. */
  function At(s: Text, i: nat): Byte { if i < |s| then s[i] else 0 }

  /** The texts agree on the first `n` bytes, or up to and including a NUL before that. */
  ghost predicate Same(a: Text, b: Text, n: nat) {
    forall i: nat :: i < n && NoNulBefore(a, i) ==> At(a, i) == At(b, i)
  }

  ghost predicate NoNulBefore(a: Text, n: nat) {
    forall j: nat :: j < n ==> At(a, j) != 0
  }

  /** `strncmp` reduced to whether it returns zero. */
  method StrNCmpZero(a: Text, b: Text, n: nat) returns (same: bool)
    ensures same == Same(a, b, n)
  {
    var i := 0;
    while i < n
      invariant 0 <= i <= n && NoNulBefore(a, i)
      invariant forall j: nat :: j < i ==> At(a, j) == At(b, j)
    {
      if At(a, i) != At(b, i) {
        return false;
      }
      if At(a, i) == 0 {
        assert forall j: nat :: j > i ==> !NoNulBefore(a, j);
        return true;
      }
      i := i + 1;
    }
    return true;
  }

  /** What the filters take for equality: equal lengths and no difference before a NUL. */
  ghost predicate Alike(a: Text, b: Text) { |a| == |b| && Same(a, b, |a|) }

  ghost predicate NulFree(s: Text) { forall i :: 0 <= i < |s| ==> s[i] != 0 }

  lemma AlikeNulFree(a: Text, b: Text)
    requires |a| == |b| && Same(a, b, |a|) && NulFree(a)
    ensures a == b
  {
    forall i: nat | i < |a|
      ensures a[i] == b[i]
    {
      assert NoNulBefore(a, i);
      assert At(a, i) == At(b, i);
    }
  }

  /** The comparison is symmetric. */
  lemma AlikeSymmetric(a: Text, b: Text)
    requires Alike(a, b)
    ensures Alike(b, a)
  {
    forall i: nat | i < |b| && NoNulBefore(b, i)
      ensures At(b, i) == At(a, i)
    {
      AgreeBefore(a, b, i);
    }
  }

  lemma {:induction false} AgreeBefore(a: Text, b: Text, i: nat)
    requires Alike(a, b) && i < |a| && NoNulBefore(b, i)
    ensures NoNulBefore(a, i) && At(a, i) == At(b, i)
  {
    if i > 0 {
      AgreeBefore(a, b, i - 1);
    }
    assert NoNulBefore(a, i);
  }

  /** No NUL before the last byte: what a search text must be for the filters to mean equality. */
  ghost predicate NulOnlyLast(t: Text) { forall i :: 0 <= i < |t| - 1 ==> t[i] != 0 }

  lemma AlikeNulOnlyLast(a: Text, t: Text)
    requires Alike(a, t) && NulOnlyLast(t)
    ensures a == t
  {
    AlikeSymmetric(a, t);
    forall i: nat | i < |t|
      ensures a[i] == t[i]
    {
      assert NoNulBefore(t, i);
      assert At(t, i) == At(a, i);
    }
  }

  /** The last byte of `t` changed. */
  function Tweaked(t: Text): Text
    requires t != []
  {
    t[|t| - 1 := t[|t| - 1] ^ 1]
  }

  lemma TweakedIsAlike(t: Text, k: nat)
    requires k < |t| - 1 && t[k] == 0
    ensures Alike(Tweaked(t), t) && Tweaked(t) != t
  {
    var a := Tweaked(t);
    assert a[|t| - 1] != t[|t| - 1];
    forall i: nat | i < |a| && NoNulBefore(a, i)
      ensures At(a, i) == At(t, i)
    {
      assert At(a, k) == 0;
    }
  }

  /** The filters mean equality with `t` for every stored text exactly when `t` has no NUL before its last byte. */
  lemma EqualityIff(t: Text)
    ensures (forall a: Text :: Alike(a, t) <==> a == t) <==> NulOnlyLast(t)
  {
    if NulOnlyLast(t) {
      forall a: Text
        ensures Alike(a, t) <==> a == t
      {
        if Alike(a, t) {
          AlikeNulOnlyLast(a, t);
        }
      }
    } else {
      var k :| 0 <= k < |t| - 1 && t[k] == 0;
      TweakedIsAlike(t, k);
    }
  }

  // ----- views

  function Padded(s: Text): (d: Text)
    ensures |d| == VIEW_DATA && forall i :: 0 <= i < VIEW_DATA ==> d[i] == At(s, i)
  {
    seq(VIEW_DATA, i requires 0 <= i < VIEW_DATA => At(s, i))
  }

  function ViewOf(s: Text): View { View(|s|, Padded(s)) }

  const BLANK_VIEW := View(0, Padded([]))

  function MinLen(n: nat): nat { if n < VIEW_DATA then n else VIEW_DATA }

  /** The comparison of the view's bytes is the comparison of the text's first 12. */
  lemma SamePadded(s: Text, t: Text, n: nat)
    requires n <= VIEW_DATA
    ensures Same(Padded(s), t, n) <==> Same(s, t, n)
  {
    forall i: nat | i < n
      ensures At(Padded(s), i) == At(s, i) && (NoNulBefore(Padded(s), i) <==> NoNulBefore(s, i))
    {
      assert forall j: nat :: j < VIEW_DATA ==> At(Padded(s), j) == At(s, j);
    }
  }

  /** The two-tier test: lengths, then the view, then for long texts the full text. */
  lemma TwoTiers(s: Text, t: Text)
    requires |s| == |t|
    ensures |s| <= VIEW_DATA ==> (Same(ViewOf(s).data, t, MinLen(|s|)) <==> Alike(s, t))
    ensures |s| > VIEW_DATA && !Same(ViewOf(s).data, t, MinLen(|s|)) ==> !Alike(s, t)
  {
    SamePadded(s, t, MinLen(|s|));
  }

  // ----- the column

  /** What a column holds for a live rowid: its slot and its text. */
  datatype Held = Held(at: Position, text: Text)

  /** Distinct rows sit in distinct slots. */
  ghost predicate Apart(rows: map<int, Held>) {
    forall r, s :: r in rows && s in rows && rows[r].at == rows[s].at ==> r == s
  }

  ghost predicate Free(rows: map<int, Held>, p: Position) {
    forall r :: r in rows ==> rows[r].at != p
  }

  ghost predicate Exists(views: seq<seq<View>>, size: nat, p: Position) {
    p.chunk < |views| && p.offset < size
  }

  ghost predicate ChunksFull(views: seq<seq<View>>, size: nat) {
    forall c :: 0 <= c < |views| ==> |views[c]| == size
  }

  function ViewAt(views: seq<seq<View>>, p: Position): View
    requires p.chunk < |views| && p.offset < |views[p.chunk]|
  {
    views[p.chunk][p.offset]
  }

  function SetView(views: seq<seq<View>>, p: Position, v: View): seq<seq<View>>
    requires p.chunk < |views| && p.offset < |views[p.chunk]|
  {
    views[p.chunk := views[p.chunk][p.offset := v]]
  }

  lemma ViewAtSet(views: seq<seq<View>>, size: nat, p: Position, v: View, q: Position)
    requires ChunksFull(views, size) && Exists(views, size, p) && Exists(views, size, q)
    ensures ChunksFull(SetView(views, p, v), size) && Exists(SetView(views, p, v), size, q)
    ensures ViewAt(SetView(views, p, v), q) == if q == p then v else ViewAt(views, q)
  {
  }

  /** Every row's slot shows its text, every free slot is blank. */
  ghost predicate ViewsOk(views: seq<seq<View>>, size: nat, rows: map<int, Held>) {
    && ChunksFull(views, size) && Apart(rows)
    && (forall r :: r in rows ==> Exists(views, size, rows[r].at) && ViewAt(views, rows[r].at) == ViewOf(rows[r].text))
    && (forall p: Position :: Exists(views, size, p) && Free(rows, p) ==> ViewAt(views, p) == BLANK_VIEW)
  }

  /** The side table holds exactly the texts of the rows that are longer than 12 bytes. */
  ghost predicate LongOk(long: map<int, Text>, rows: map<int, Held>) {
    && (forall r :: r in long <==> r in rows && |rows[r].text| > VIEW_DATA)
    && (forall r :: r in long ==> r in rows && long[r] == rows[r].text)
  }

  /** The side table has a row exactly when the view's length exceeds 12. */
  lemma LongIffView(views: seq<seq<View>>, size: nat, long: map<int, Text>, rows: map<int, Held>, r: int)
    requires ViewsOk(views, size, rows) && LongOk(long, rows) && r in rows
    ensures Exists(views, size, rows[r].at) && (r in long <==> ViewAt(views, rows[r].at).n > VIEW_DATA)
  {
  }

  lemma ViewsSet(views: seq<seq<View>>, size: nat, rows: map<int, Held>, r: int, p: Position, text: Text)
    requires ViewsOk(views, size, rows) && Exists(views, size, p)
    requires if r in rows then rows[r].at == p else Free(rows, p)
    ensures ViewsOk(SetView(views, p, ViewOf(text)), size, rows[r := Held(p, text)])
  {
    hide ViewOf, ViewAt, SetView;
    var rows', views' := rows[r := Held(p, text)], SetView(views, p, ViewOf(text));
    ViewAtSet(views, size, p, ViewOf(text), p);
    forall s | s in rows'
      ensures Exists(views', size, rows'[s].at) && ViewAt(views', rows'[s].at) == ViewOf(rows'[s].text)
    {
      if s != r {
        ViewAtSet(views, size, p, ViewOf(text), rows[s].at);
      }
    }
    forall q: Position | Exists(views', size, q) && Free(rows', q)
      ensures ViewAt(views', q) == BLANK_VIEW
    {
      assert Exists(views, size, q) by { SetKeepsCount(views, p, ViewOf(text)); }
      assert rows'[r].at != q;
      assert Free(rows, q) by {
        forall s | s in rows
          ensures rows[s].at != q
        {
          assert s in rows';
        }
      }
      ViewAtSet(views, size, p, ViewOf(text), q);
    }
  }

  lemma SetKeepsCount(views: seq<seq<View>>, p: Position, v: View)
    requires p.chunk < |views| && p.offset < |views[p.chunk]|
    ensures |SetView(views, p, v)| == |views|
  {
  }

  lemma ViewsClear(views: seq<seq<View>>, size: nat, rows: map<int, Held>, r: int)
    requires ViewsOk(views, size, rows) && r in rows
    ensures Exists(views, size, rows[r].at) && ViewsOk(SetView(views, rows[r].at, BLANK_VIEW), size, rows - {r})
  {
    hide ViewOf, ViewAt, SetView;
    var p := rows[r].at;
    var views' := SetView(views, p, BLANK_VIEW);
    ViewAtSet(views, size, p, BLANK_VIEW, p);
    forall s | s in rows - {r}
      ensures Exists(views', size, rows[s].at) && ViewAt(views', rows[s].at) == ViewOf(rows[s].text)
    {
      ViewAtSet(views, size, p, BLANK_VIEW, rows[s].at);
    }
    forall q: Position | Exists(views', size, q) && Free(rows - {r}, q)
      ensures ViewAt(views', q) == BLANK_VIEW
    {
      assert Exists(views, size, q) by { SetKeepsCount(views, p, BLANK_VIEW); }
      ViewAtSet(views, size, p, BLANK_VIEW, q);
      if q != p {
        assert Free(rows, q) by {
          forall s | s in rows
            ensures rows[s].at != q
          {
            assert s != r ==> s in rows - {r};
          }
        }
      }
    }
  }

  lemma ViewsGrow(views: seq<seq<View>>, size: nat, rows: map<int, Held>)
    requires ViewsOk(views, size, rows)
    ensures ViewsOk(views + [seq(size, _ => BLANK_VIEW)], size, rows)
  {
  }

  datatype Op = Eq | Ne

  class TextColumn {
    const size: nat
    var views: seq<seq<View>>
    var long: map<int, Text>
    ghost var rows: map<int, Held>

    ghost predicate Valid()
      reads this
    {
      ViewsOk(views, size, rows) && LongOk(long, rows)
    }

    constructor (chunkSize: nat)
      ensures Valid() && rows == map[] && views == [] && size == chunkSize
    {
      size := chunkSize;
      views, long, rows := [], map[], map[];
    }

    /** The zeroed blob a new chunk starts with. */
    method AddChunk()
      requires Valid()
      modifies this
      ensures Valid() && rows == old(rows) && |views| == old(|views|) + 1
    {
      hide LongOk;
      ViewsGrow(views, size, rows);
      views := views + [seq(size, _ => BLANK_VIEW)];
    }

    /**
     * Writes a text to a slot; `update` tells an update from an insert. The side table is changed by an UPDATE, which
     * needs the row, or an INSERT, which needs it absent; the right one is always chosen.
     */
    method Write(rowid: int, p: Position, text: Text, update: bool) returns (ok: bool)
      requires Valid() && Exists(views, size, p)
      requires if update then rowid in rows && rows[rowid].at == p else rowid !in rows && Free(rows, p)
      modifies this
      ensures ok && Valid() && rows == old(rows)[rowid := Held(p, text)] && |views| == old(|views|)
    {
      hide ViewsOk, ViewOf, ViewAt, SetView;
      ViewsSet(views, size, rows, rowid, p, text);
      PrevLength(views, size, rows, rowid, p);
      SetKeepsCount(views, p, ViewOf(text));
      var prev := ViewAt(views, p).n;
      views := SetView(views, p, ViewOf(text));
      if |text| > VIEW_DATA {
        if update && prev > VIEW_DATA {
          if rowid in long {
            long := long[rowid := text];
          }
        } else {
          if rowid in long {
            return false;
          }
          long := long[rowid := text];
        }
      } else if prev > VIEW_DATA {
        long := long - {rowid};
      }
      rows := rows[rowid := Held(p, text)];
      ok := true;
    }

    /** Blanks the slot of a row and drops its long text. */
    method Clear(rowid: int, p: Position)
      requires Valid() && rowid in rows && rows[rowid].at == p
      modifies this
      ensures Valid() && rows == old(rows) - {rowid} && |views| == old(|views|)
    {
      hide ViewsOk, ViewOf, ViewAt, SetView;
      ViewsClear(views, size, rows, rowid);
      PrevLength(views, size, rows, rowid, p);
      SetKeepsCount(views, p, BLANK_VIEW);
      var n := ViewAt(views, p).n;
      views := SetView(views, p, BLANK_VIEW);
      if n > VIEW_DATA {
        long := long - {rowid};
      }
      rows := rows - {rowid};
    }

    /** The chunk's rowid cells name the rows that sit in it. */
    ghost predicate RowidsFit(c: nat, rowids: seq<int>)
      reads this
    {
      && |rowids| == size
      && forall r :: r in rows && rows[r].at.chunk == c && rows[r].at.offset < size ==> rowids[rows[r].at.offset] == r
    }

    /** One slot against one search text. */
    method Matches(c: nat, rowids: seq<int>, o: nat, t: Text) returns (same: bool, ok: bool)
      requires Valid() && c < |views| && o < size && RowidsFit(c, rowids)
      ensures ok && forall r :: r in rows && rows[r].at == Position(c, o) ==> same == Alike(rows[r].text, t)
    {
      hide Alike, Same;
      ok := true;
      SlotText(views, size, long, rows, Position(c, o), rowids[o], t);
      var view := views[c][o];
      if view.n != |t| {
        return false, true;
      }
      same := StrNCmpZero(view.data, t, MinLen(view.n));
      if view.n <= VIEW_DATA || !same {
        return;
      }
      if rowids[o] !in long || |long[rowids[o]]| != view.n {
        return false, false;
      }
      same := StrNCmpZero(long[rowids[o]], t, view.n);
    }

    /** Whether one slot matches one of several search texts. */
    method MatchesAny(c: nat, rowids: seq<int>, o: nat, ts: seq<Text>) returns (found: bool, ok: bool)
      requires Valid() && c < |views| && o < size && RowidsFit(c, rowids)
      ensures ok && forall r :: r in rows && rows[r].at == Position(c, o) ==> found == AlikeAny(rows[r].text, ts)
    {
      hide Alike, ViewsOk, LongOk, TextColumn.RowidsFit;
      var j := 0;
      while j < |ts|
        invariant 0 <= j <= |ts|
        invariant forall r :: r in rows && rows[r].at == Position(c, o) ==>
          forall k :: 0 <= k < j ==> !Alike(rows[r].text, ts[k])
      {
        found, ok := Matches(c, rowids, o, ts[j]);
        if !ok {
          return;
        }
        if found {
          return true, true;
        }
        j := j + 1;
      }
      return false, true;
    }

    /** The EQ and NE bitmaps of a chunk. */
    method FilterText(c: nat, rowids: seq<int>, op: Op, t: Text, b: array<Byte>) returns (ok: bool)
      requires Valid() && c < |views| && 8 * b.Length == size && RowidsFit(c, rowids)
      modifies b
      ensures ok
      ensures forall r :: r in rows && rows[r].at.chunk == c && rows[r].at.offset < size ==>
        Get(b[..], rows[r].at.offset) == (if op == Eq then Alike(rows[r].text, t) else !Alike(rows[r].text, t))
    {
      hide Alike, ViewsOk, LongOk, Get, Put, TextColumn.RowidsFit;
      var i := 0;
      while i < size
        invariant 0 <= i <= size
        invariant forall r :: r in rows && rows[r].at.chunk == c && rows[r].at.offset < i ==>
          Get(b[..], rows[r].at.offset) == (if op == Eq then Alike(rows[r].text, t) else !Alike(rows[r].text, t))
      {
        var same;
        same, ok := Matches(c, rowids, i, t);
        if !ok {
          return;
        }
        ghost var was := b[..];
        SetBit(b, i, if op == Eq then same else !same);
        OtherBits(was, i, if op == Eq then same else !same);
        forall r | r in rows && rows[r].at.chunk == c && rows[r].at.offset < i + 1
          ensures Get(b[..], rows[r].at.offset) ==
            (if op == Eq then Alike(rows[r].text, t) else !Alike(rows[r].text, t))
        {
          assert rows[r].at.offset == i ==> rows[r].at == Position(c, i);
        }
        i := i + 1;
      }
      ok := true;
    }

    /** The IN bitmap of a chunk, over a cleared bitmap. */
    method FilterTextIn(c: nat, rowids: seq<int>, ts: seq<Text>, b: array<Byte>) returns (ok: bool)
      requires Valid() && c < |views| && 8 * b.Length == size && RowidsFit(c, rowids) && b[..] == Zero(b.Length)
      modifies b
      ensures ok
      ensures forall r :: r in rows && rows[r].at.chunk == c && rows[r].at.offset < size ==>
        Get(b[..], rows[r].at.offset) == AlikeAny(rows[r].text, ts)
    {
      hide AlikeAny, ViewsOk, LongOk, Get, Put, TextColumn.RowidsFit;
      forall o: nat | o < 8 * b.Length
        ensures !Get(b[..], o)
      {
        GetZero(b.Length, o);
      }
      var i := 0;
      while i < size
        invariant 0 <= i <= size
        invariant forall o: nat :: i <= o < size ==> !Get(b[..], o)
        invariant forall r :: r in rows && rows[r].at.chunk == c && rows[r].at.offset < i ==>
          Get(b[..], rows[r].at.offset) == AlikeAny(rows[r].text, ts)
      {
        var found;
        found, ok := MatchesAny(c, rowids, i, ts);
        if !ok {
          return;
        }
        if found {
          ghost var was := b[..];
          SetBit(b, i, true);
          OtherBits(was, i, true);
        }
        forall r | r in rows && rows[r].at.chunk == c && rows[r].at.offset < i + 1
          ensures Get(b[..], rows[r].at.offset) == AlikeAny(rows[r].text, ts)
        {
          assert rows[r].at.offset == i ==> rows[r].at == Position(c, i);
        }
        i := i + 1;
      }
      ok := true;
    }
  }

  ghost predicate AlikeAny(s: Text, ts: seq<Text>) {
    exists k :: 0 <= k < |ts| && Alike(s, ts[k])
  }

  lemma OtherBits(bm: seq<Byte>, i: nat, v: bool)
    requires i < 8 * |bm|
    ensures forall o: nat :: o < 8 * |bm| ==> Get(Put(bm, i, v), o) == if o == i then v else Get(bm, o)
  {
    hide Get, Put;
    forall o: nat | o < 8 * |bm|
      ensures Get(Put(bm, i, v), o) == if o == i then v else Get(bm, o)
    {
      GetPut(bm, i, v, o);
    }
  }

  /** For NUL-free search texts the bitmaps mean equality, inequality and membership. */
  lemma NulFreeMeaning(s: Text, t: Text, ts: seq<Text>)
    requires NulFree(s) || (NulFree(t) && forall k :: 0 <= k < |ts| ==> NulFree(ts[k]))
    ensures Alike(s, t) <==> s == t
    ensures AlikeAny(s, ts) <==> s in ts
  {
    hide Same;
    AlikeSelf(s);
    AlikeIsEqual(s, t);
    forall k | 0 <= k < |ts|
      ensures Alike(s, ts[k]) <==> s == ts[k]
    {
      AlikeIsEqual(s, ts[k]);
    }
  }

  lemma AlikeSelf(s: Text)
    ensures Alike(s, s)
  {
  }

  lemma AlikeIsEqual(s: Text, t: Text)
    requires NulFree(s) || NulFree(t)
    ensures Alike(s, t) <==> s == t
  {
    if Alike(s, t) {
      if NulFree(s) {
        AlikeNulFree(s, t);
      } else {
        AlikeSymmetric(s, t);
        AlikeNulFree(t, s);
      }
    }
  }

  /** The length in a row's slot is its text's; a free slot's is zero. */
  lemma PrevLength(views: seq<seq<View>>, size: nat, rows: map<int, Held>, r: int, p: Position)
    requires ViewsOk(views, size, rows) && Exists(views, size, p)
    requires if r in rows then rows[r].at == p else Free(rows, p)
    ensures |views[p.chunk]| == size && ViewAt(views, p).n == if r in rows then |rows[r].text| else 0
  {
  }

  /** What the stages of the comparison say about the text in a slot. */
  lemma SlotText(views: seq<seq<View>>, size: nat, long: map<int, Text>, rows: map<int, Held>, p: Position, id: int,
                 t: Text)
    requires ViewsOk(views, size, rows) && LongOk(long, rows) && Exists(views, size, p)
    requires forall r :: r in rows && rows[r].at == p ==> r == id
    ensures |views[p.chunk]| == size
    ensures var v := views[p.chunk][p.offset];
      && (v.n > VIEW_DATA ==> id in long && |long[id]| == v.n)
      && forall r :: r in rows && rows[r].at == p ==>
        && v.n == |rows[r].text|
        && (v.n != |t| ==> !Alike(rows[r].text, t))
        && (v.n == |t| && v.n <= VIEW_DATA ==> (Same(v.data, t, MinLen(v.n)) <==> Alike(rows[r].text, t)))
        && (v.n == |t| && v.n > VIEW_DATA ==>
          && id in long
          && (!Same(v.data, t, MinLen(v.n)) ==> !Alike(rows[r].text, t))
          && (Same(long[id], t, v.n) <==> Alike(rows[r].text, t)))
  {
    hide Same;
    var v := ViewAt(views, p);
    if Free(rows, p) {
      assert v == BLANK_VIEW;
    } else {
      var r :| r in rows && rows[r].at == p;
      if v.n == |t| {
        TwoTiers(rows[r].text, t);
      }
    }
  }
}
