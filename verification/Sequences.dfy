/** Facts about sequences used throughout. */
module Sequences {

  /** No element occurs twice. */
  ghost predicate Distinct<T(!new)>(s: seq<T>) {
    forall i, j :: 0 <= i < j < |s| ==> s[i] != s[j]
  }

  /** The position above `i` in a binary heap. */
  function Parent(i: int): int
    requires i > 0
  {
    (i - 1) / 2
  }

  lemma Reassociate<T>(a: seq<T>, b: seq<T>, c: seq<T>)
    ensures (a + b) + c == a + (b + c)
  {
  }

  lemma {:induction false} CountInDistinct<T(!new)>(s: seq<T>, x: T)
    requires Distinct(s)
    ensures multiset(s)[x] == if x in s then 1 else 0
  {
    if s != [] {
      var n := |s| - 1;
      CountInDistinct(s[..n], x);
      assert s == s[..n] + [s[n]];
    }
  }

  /** There are at most `n` distinct ids below `n`. */
  lemma {:induction false} DistinctFit(s: seq<nat>, n: nat)
    requires Distinct(s) && forall i :: 0 <= i < |s| ==> s[i] < n
    ensures |s| <= n
    decreases n
  {
    assert |s| > 0 ==> s[0] < n;
    if n > 0 {
      if k :| 0 <= k < |s| && s[k] == n - 1 {
        var t := s[..k] + s[k + 1..];
        assert forall i :: 0 <= i < |t| ==> t[i] == if i < k then s[i] else s[i + 1];
        DistinctFit(t, n - 1);
      } else {
        DistinctFit(s, n - 1);
      }
    }
  }

  /** Every element is below `n`. */
  ghost predicate Below(s: seq<nat>, n: nat) {
    forall i :: 0 <= i < |s| ==> s[i] < n
  }

  lemma Cancel<T>(x: multiset<T>, l: multiset<T>, y: multiset<T>)
    requires x + l == y + l
    ensures x == y
  {
    assert x == (x + l) - l;
    assert y == (y + l) - l;
  }

  // ----- rearrangements

  /** What the elements contribute together. */
  ghost function Gather<T, U>(s: seq<T>, f: T -> multiset<U>): multiset<U> {
    if s == [] then multiset{} else Gather(s[..|s| - 1], f) + f(s[|s| - 1])
  }

  lemma {:induction false} GatherTakeOut<T, U>(s: seq<T>, j: nat, f: T -> multiset<U>)
    requires j < |s|
    ensures Gather(s, f) == Gather(s[..j] + s[j + 1..], f) + f(s[j])
  {
    var n := |s| - 1;
    var t := s[..j] + s[j + 1..];
    if j == n {
      assert t == s[..n];
    } else {
      GatherTakeOut(s[..n], j, f);
      assert t[..|t| - 1] == s[..n][..j] + s[..n][j + 1..];
    }
  }

  lemma BagTakeOut<T>(s: seq<T>, j: nat)
    requires j < |s|
    ensures multiset(s) == multiset(s[..j] + s[j + 1..]) + multiset{s[j]}
  {
    assert s == s[..j] + [s[j]] + s[j + 1..];
  }

  /** The position in `b` of the last element of its rearrangement `a`. */
  lemma LocateLast<T>(a: seq<T>, b: seq<T>) returns (j: nat)
    requires a != [] && multiset(a) == multiset(b)
    ensures j < |b| && b[j] == a[|a| - 1]
  {
    assert a[|a| - 1] in multiset(a);
    j :| 0 <= j < |b| && b[j] == a[|a| - 1];
  }

  lemma LastBag<T>(s: seq<T>)
    requires s != []
    ensures multiset(s) == multiset(s[..|s| - 1]) + multiset{s[|s| - 1]}
  {
    assert s == s[..|s| - 1] + [s[|s| - 1]];
  }

  /** The order of the elements does not matter for what they contribute. */
  lemma {:induction false} GatherPermuted<T, U>(a: seq<T>, b: seq<T>, f: T -> multiset<U>)
    requires multiset(a) == multiset(b)
    ensures Gather(a, f) == Gather(b, f)
    decreases |a|
  {
    if a == [] {
      assert |multiset(b)| == |b|;
    } else {
      var n := |a| - 1;
      var j := LocateLast(a, b);
      var b' := b[..j] + b[j + 1..];
      assert multiset(a[..n]) == multiset(b') by {
        LastBag(a);
        BagTakeOut(b, j);
        Cancel(multiset(a[..n]), multiset{a[n]}, multiset(b'));
      }
      GatherPermuted(a[..n], b', f);
      GatherTakeOut(b, j, f);
    }
  }
}
