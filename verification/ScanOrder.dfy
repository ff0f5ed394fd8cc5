/**
 * Breadth-first order: a queue filled while the lists of its own entries are scanned, each value at its first sight.
 */
module ScanOrder {
  import opened Sequences

  /** Value number `slot` of the list of the queue's entry number `of`. */
  datatype Spot = Spot(of: nat, slot: nat)

  predicate Before(p: Spot, r: Spot) { p.of < r.of || (p.of == r.of && p.slot < r.slot) }

  /** Value `b` stands at the spot. */
  ghost predicate Sees(lists: seq<seq<int>>, p: Spot, b: int) {
    p.of < |lists| && p.slot < |lists[p.of]| && lists[p.of][p.slot] == b
  }

  /** Value `b` is in the queue, by a spot no later than `p`. */
  ghost predicate Known(s: seq<int>, at: seq<Spot>, p: Spot, b: int)
    requires |at| == |s|
  {
    exists k :: 0 <= k < |s| && s[k] == b && (k == 0 || !Before(p, at[k]))
  }

  /** Entry number `i` was queued at the spot, which is of an earlier entry and has been scanned. */
  ghost predicate Stands(lists: seq<seq<int>>, s: seq<int>, i: nat, p: Spot, cursor: Spot)
    requires i < |s|
  {
    Sees(lists, p, s[i]) && p.of < i && Before(p, cursor)
  }

  ghost predicate AllKnown(lists: seq<seq<int>>, s: seq<int>, at: seq<Spot>, ok: int -> bool, cursor: Spot)
    requires |at| == |s|
  {
    forall p, b :: Sees(lists, p, b) && Before(p, cursor) && ok(b) ==> Known(s, at, p, b)
  }

  /**
   * The queue when the scan has come to `cursor`: each entry but the first stands at its spot, spots are in scan order,
   * and every admitted value seen so far is in the queue by the first spot it stands at.
   */
  ghost predicate InOrder(lists: seq<seq<int>>, s: seq<int>, at: seq<Spot>, ok: int -> bool, cursor: Spot) {
    && |lists| == |s| == |at| && s != [] && Distinct(s) && (forall i :: 0 < i < |s| ==> ok(s[i]))
    && (forall i :: 0 < i < |s| ==> Stands(lists, s, i, at[i], cursor))
    && (forall i, k :: 0 < i < k < |s| ==> Before(at[i], at[k]))
    && AllKnown(lists, s, at, ok, cursor)
  }

  // ----- the steps of a scan

  lemma OrderStart(list: seq<int>, x: int, ok: int -> bool)
    ensures InOrder([list], [x], [Spot(0, 0)], ok, Spot(0, 0))
  {
  }

  lemma KnownNow(lists: seq<seq<int>>, s: seq<int>, at: seq<Spot>, ok: int -> bool, cursor: Spot, b: int)
    requires InOrder(lists, s, at, ok, cursor) && b in s
    ensures Known(s, at, cursor, b)
  {
    hide Sees, AllKnown;
    var k :| 0 <= k < |s| && s[k] == b;
    assert k > 0 ==> Stands(lists, s, k, at[k], cursor);
  }

  /** A value that is not admitted or already queued is passed over. */
  lemma OrderSkip(lists: seq<seq<int>>, s: seq<int>, at: seq<Spot>, ok: int -> bool, h: nat, i: nat, b: int)
    requires InOrder(lists, s, at, ok, Spot(h, i)) && Sees(lists, Spot(h, i), b) && (!ok(b) || b in s)
    ensures InOrder(lists, s, at, ok, Spot(h, i + 1))
  {
    hide Sees, Known;
    if b in s {
      KnownNow(lists, s, at, ok, Spot(h, i), b);
    }
    forall k | 0 < k < |s|
      ensures Stands(lists, s, k, at[k], Spot(h, i + 1))
    {
      assert Stands(lists, s, k, at[k], Spot(h, i));
    }
    forall p, c | Sees(lists, p, c) && Before(p, Spot(h, i + 1)) && ok(c)
      ensures Known(s, at, p, c)
    {
      if p == Spot(h, i) {
        SameSpot(lists, p, b, c);
      }
    }
  }

  lemma SameSpot(lists: seq<seq<int>>, p: Spot, b: int, c: int)
    requires Sees(lists, p, b) && Sees(lists, p, c)
    ensures b == c
  {
  }

  lemma SeesMore(lists: seq<seq<int>>, lists': seq<seq<int>>, p: Spot, b: int)
    requires lists <= lists' && p.of < |lists|
    ensures Sees(lists, p, b) <==> Sees(lists', p, b)
  {
  }

  lemma KnownMore(s: seq<int>, at: seq<Spot>, s': seq<int>, at': seq<Spot>, p: Spot, b: int)
    requires |s| == |at| && |s'| == |at'| && s <= s' && at <= at' && Known(s, at, p, b)
    ensures Known(s', at', p, b)
  {
    var k :| 0 <= k < |s| && s[k] == b && (k == 0 || !Before(p, at[k]));
    assert s'[k] == b && at'[k] == at[k];
  }

  lemma LastKnown(s: seq<int>, at: seq<Spot>, p: Spot)
    requires 0 < |s| == |at| && at[|s| - 1] == p
    ensures Known(s, at, p, s[|s| - 1])
  {
  }

  /** An admitted value that is new is queued at this spot, with its own list. */
  lemma OrderAdd(lists: seq<seq<int>>, s: seq<int>, at: seq<Spot>, ok: int -> bool, h: nat, i: nat, b: int,
                 list: seq<int>)
    requires InOrder(lists, s, at, ok, Spot(h, i)) && Sees(lists, Spot(h, i), b) && ok(b) && b !in s
    ensures InOrder(lists + [list], s + [b], at + [Spot(h, i)], ok, Spot(h, i + 1))
  {
    hide Sees, AllKnown;
    AddStands(lists, s, at, ok, h, i, b, list);
    AddRises(lists, s, at, ok, h, i);
    AddKnown(lists, s, at, ok, h, i, b, list);
  }

  lemma AddStands(lists: seq<seq<int>>, s: seq<int>, at: seq<Spot>, ok: int -> bool, h: nat, i: nat, b: int,
                  list: seq<int>)
    requires InOrder(lists, s, at, ok, Spot(h, i)) && Sees(lists, Spot(h, i), b)
    ensures forall k :: 0 < k < |s| + 1 ==>
      Stands(lists + [list], s + [b], k, (at + [Spot(h, i)])[k], Spot(h, i + 1))
  {
    hide Sees, AllKnown;
    var lists', s', at' := lists + [list], s + [b], at + [Spot(h, i)];
    SpotBounds(lists, Spot(h, i), b);
    forall k | 0 < k < |s'|
      ensures Stands(lists', s', k, at'[k], Spot(h, i + 1))
    {
      if k < |s| {
        assert Stands(lists, s, k, at[k], Spot(h, i));
        SeesMore(lists, lists', at[k], s[k]);
      } else {
        SeesMore(lists, lists', Spot(h, i), b);
      }
    }
  }

  lemma AddRises(lists: seq<seq<int>>, s: seq<int>, at: seq<Spot>, ok: int -> bool, h: nat, i: nat)
    requires InOrder(lists, s, at, ok, Spot(h, i))
    ensures var at' := at + [Spot(h, i)]; forall k, l :: 0 < k < l < |at'| ==> Before(at'[k], at'[l])
  {
    hide Sees, AllKnown;
    forall k | 0 < k < |s|
      ensures Before(at[k], Spot(h, i))
    {
      assert Stands(lists, s, k, at[k], Spot(h, i));
    }
  }

  lemma AddKnown(lists: seq<seq<int>>, s: seq<int>, at: seq<Spot>, ok: int -> bool, h: nat, i: nat, b: int,
                 list: seq<int>)
    requires InOrder(lists, s, at, ok, Spot(h, i)) && Sees(lists, Spot(h, i), b)
    ensures AllKnown(lists + [list], s + [b], at + [Spot(h, i)], ok, Spot(h, i + 1))
  {
    hide Sees, Known;
    var lists', s', at' := lists + [list], s + [b], at + [Spot(h, i)];
    SpotBounds(lists, Spot(h, i), b);
    forall p, c | Sees(lists', p, c) && Before(p, Spot(h, i + 1)) && ok(c)
      ensures Known(s', at', p, c)
    {
      SeesMore(lists, lists', p, c);
      if p == Spot(h, i) {
        SameSpot(lists, p, b, c);
        LastKnown(s', at', p);
      } else {
        KnownMore(s, at, s', at', p, c);
      }
    }
  }

  lemma SpotBounds(lists: seq<seq<int>>, p: Spot, b: int)
    requires Sees(lists, p, b)
    ensures p.of < |lists|
  {
  }

  /** After the last value of a list the scan turns to the next entry's. */
  lemma OrderTurn(lists: seq<seq<int>>, s: seq<int>, at: seq<Spot>, ok: int -> bool, h: nat)
    requires h < |lists| && InOrder(lists, s, at, ok, Spot(h, |lists[h]|))
    ensures InOrder(lists, s, at, ok, Spot(h + 1, 0))
  {
    hide Known;
    var cursor := Spot(h, |lists[h]|);
    forall k | 0 < k < |s|
      ensures Stands(lists, s, k, at[k], Spot(h + 1, 0))
    {
      assert Stands(lists, s, k, at[k], cursor);
    }
    forall p, c | Sees(lists, p, c) && Before(p, Spot(h + 1, 0)) && ok(c)
      ensures Known(s, at, p, c)
    {
      assert Before(p, cursor);
    }
  }

  /** Once every list has been scanned the cursor may stand anywhere behind. */
  lemma OrderRaise(lists: seq<seq<int>>, s: seq<int>, at: seq<Spot>, ok: int -> bool, n: nat)
    requires InOrder(lists, s, at, ok, Spot(|s|, 0)) && n >= |s|
    ensures InOrder(lists, s, at, ok, Spot(n, 0))
  {
    hide Known, Sees;
    forall k | 0 < k < |s|
      ensures Stands(lists, s, k, at[k], Spot(n, 0))
    {
      assert Stands(lists, s, k, at[k], Spot(|s|, 0));
    }
    forall p, c | Sees(lists, p, c) && Before(p, Spot(n, 0)) && ok(c)
      ensures Known(s, at, p, c)
    {
      SpotBounds(lists, p, c);
    }
  }

  // ----- the order is determined

  /** Equal entries have equal lists. */
  ghost predicate Alike(lists: seq<seq<int>>, s: seq<int>, lists': seq<seq<int>>, s': seq<int>) {
    |lists| == |s| && |lists'| == |s'| &&
    forall i, j :: 0 <= i < |s| && 0 <= j < |s'| && s[i] == s'[j] ==> lists[i] == lists'[j]
  }

  /** What one queue saw the other, the same so far, saw too. */
  lemma NextSpot(lists: seq<seq<int>>, s: seq<int>, at: seq<Spot>, lists': seq<seq<int>>, s': seq<int>, at': seq<Spot>,
                    ok: int -> bool, c: Spot, i: nat)
    requires InOrder(lists, s, at, ok, c) && InOrder(lists', s', at', ok, c) && Alike(lists, s, lists', s')
    requires 0 < i < |s| && i <= |s'| && s[..i] == s'[..i]
    ensures i < |s'| && !Before(at[i], at'[i]) && Sees(lists', at[i], s[i])
  {
    hide Known;
    var p := at[i];
    assert Stands(lists, s, i, p, c);
    assert s'[p.of] == s'[..i][p.of] == s[..i][p.of] == s[p.of];
    assert Sees(lists', p, s[i]);
    KnownBeyond(s, at', s', p, i);
  }

  lemma KnownBeyond(s: seq<int>, at': seq<Spot>, s': seq<int>, p: Spot, i: nat)
    requires 0 < i < |s| && i <= |s'| == |at'| && Distinct(s) && s[..i] == s'[..i] && Known(s', at', p, s[i])
    requires forall i, k :: 0 < i < k < |s'| ==> Before(at'[i], at'[k])
    ensures i < |s'| && !Before(p, at'[i])
  {
    assert forall j :: 0 <= j < i ==> s[j] == s[..i][j] == s'[..i][j] == s'[j];
    var k :| 0 <= k < |s'| && s'[k] == s[i] && (k == 0 || !Before(p, at'[k]));
  }

  lemma SameNext(lists: seq<seq<int>>, s: seq<int>, at: seq<Spot>, lists': seq<seq<int>>, s': seq<int>, at': seq<Spot>,
                    ok: int -> bool, c: Spot, i: nat)
    requires InOrder(lists, s, at, ok, c) && InOrder(lists', s', at', ok, c)
    requires Alike(lists, s, lists', s') && Alike(lists', s', lists, s)
    requires 0 < i < |s| && i <= |s'| && s[..i] == s'[..i]
    ensures i < |s'| && s[i] == s'[i]
  {
    hide Known, AllKnown, Sees, Alike;
    NextSpot(lists, s, at, lists', s', at', ok, c, i);
    NextSpot(lists', s', at', lists, s, at, ok, c, i);
    assert at[i] == at'[i];
    assert Stands(lists', s', i, at'[i], c);
    SameSpot(lists', at[i], s[i], s'[i]);
  }

  /** Two queues of the same scan that begin with the same value are equal. */
  lemma {:induction false} OrderUnique(lists: seq<seq<int>>, s: seq<int>, at: seq<Spot>, lists': seq<seq<int>>,
                                       s': seq<int>,
                                          at': seq<Spot>, ok: int -> bool, c: Spot, i: nat)
    requires InOrder(lists, s, at, ok, c) && InOrder(lists', s', at', ok, c) && s[0] == s'[0] && i <= |s|
    requires Alike(lists, s, lists', s') && Alike(lists', s', lists, s)
    ensures i <= |s'| && s[..i] == s'[..i]
  {
    hide Known, AllKnown, Sees, Alike, Stands;
    if i > 1 {
      OrderUnique(lists, s, at, lists', s', at', ok, c, i - 1);
      SameNext(lists, s, at, lists', s', at', ok, c, i - 1);
      assert s[..i] == s[..i - 1] + [s[i - 1]] && s'[..i] == s'[..i - 1] + [s'[i - 1]];
    }
  }
}
