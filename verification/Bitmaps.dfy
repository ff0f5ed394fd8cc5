/** Packed bitmaps, eight positions to a byte. */
module Bitmaps {

  type Byte = bv8

  predicate Bit(b: Byte, k: nat)
    requires k < 8
  {
    (b >> k) & 1 == 1
  }

  function WithBit(b: Byte, k: nat, v: bool): Byte
    requires k < 8
  {
    if v then b | (1 << k) else b & !(1 << k)
  }

  lemma BitOfWithBit(b: Byte, k: nat, v: bool, j: nat)
    requires k < 8 && j < 8
    ensures Bit(WithBit(b, k, v), j) == if j == k then v else Bit(b, j)
  {
    if j == 0 { } else if j == 1 { } else if j == 2 { } else if j == 3 { }
    else if j == 4 { } else if j == 5 { } else if j == 6 { } else { }
  }

  lemma BitOfAnd(a: Byte, b: Byte, k: nat)
    requires k < 8
    ensures Bit(a & b, k) == (Bit(a, k) && Bit(b, k))
  {
    if k == 0 { } else if k == 1 { } else if k == 2 { } else if k == 3 { }
    else if k == 4 { } else if k == 5 { } else if k == 6 { } else { }
  }

  lemma FullByte(b: Byte)
    ensures b == 0xFF <==> forall k :: 0 <= k < 8 ==> Bit(b, k)
  {
    if forall k :: 0 <= k < 8 ==> Bit(b, k) {
      assert Bit(b, 0) && Bit(b, 1) && Bit(b, 2) && Bit(b, 3) && Bit(b, 4) && Bit(b, 5) && Bit(b, 6) && Bit(b, 7);
    }
  }

  lemma ZeroByte(k: nat)
    requires k < 8
    ensures !Bit(0, k)
  {
  }

  /** `bitmap_get`. */
  predicate Get(bm: seq<Byte>, i: nat)
    requires i < 8 * |bm|
  {
    Bit(bm[i / 8], i % 8)
  }

  /** `bitmap_set`. */
  function Put(bm: seq<Byte>, i: nat, v: bool): (r: seq<Byte>)
    requires i < 8 * |bm|
    ensures |r| == |bm|
  {
    bm[i / 8 := WithBit(bm[i / 8], i % 8, v)]
  }

  /** Setting one position changes that position and no other. */
  lemma GetPut(bm: seq<Byte>, i: nat, v: bool, j: nat)
    requires i < 8 * |bm| && j < 8 * |bm|
    ensures Get(Put(bm, i, v), j) == if j == i then v else Get(bm, j)
  {
    hide Bit, WithBit;
    BitOfWithBit(bm[i / 8], i % 8, v, j % 8);
  }

  /** `bitmap_and_inplace`. */
  function And(a: seq<Byte>, b: seq<Byte>): (r: seq<Byte>)
    requires |a| == |b|
    ensures |r| == |a|
  {
    seq(|a|, i requires 0 <= i < |a| => a[i] & b[i])
  }

  lemma GetAnd(a: seq<Byte>, b: seq<Byte>, i: nat)
    requires |a| == |b| && i < 8 * |a|
    ensures Get(And(a, b), i) == (Get(a, i) && Get(b, i))
  {
    hide Bit;
    BitOfAnd(a[i / 8], b[i / 8], i % 8);
  }

  function Zero(n: nat): (r: seq<Byte>)
    ensures |r| == n
  {
    seq(n, _ => 0)
  }

  lemma GetZero(n: nat, i: nat)
    requires i < 8 * n
    ensures !Get(Zero(n), i)
  {
    hide Bit;
    ZeroByte(i % 8);
  }
}
