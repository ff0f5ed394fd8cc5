/** What one sift moves where, and the order in which the slots are read out, heap or not. */
module HeapOrder {
  import opened TopK
  import opened BoundedHeap

  /** Position `b` is the farther child of `a`, the left one on a tie, and farther than the hit that is moving down. */
  ghost predicate Falls(s: seq<Hit>, h: Hit, a: nat, b: nat) {
    && b < |s| && s[b].dist > h.dist
    && (if b == 2 * a + 1 then b + 1 < |s| ==> s[b + 1].dist <= s[b].dist
        else b == 2 * a + 2 && s[b - 1].dist < s[b].dist)
  }

  /** No child of `a` is farther than the hit. */
  ghost predicate Rests(s: seq<Hit>, h: Hit, a: nat) {
    forall c :: 2 * a + 1 <= c <= 2 * a + 2 && c < |s| ==> s[c].dist <= h.dist
  }

  /** Step number `t` of the path goes to the farther child, whose hit moves up. */
  ghost predicate Moves(s: seq<Hit>, h: Hit, path: seq<nat>, t: nat, s': seq<Hit>) {
    && t + 1 < |path| && path[t] < |s'| && path[t + 1] < |s|
    && Falls(s, h, path[t], path[t + 1]) && s'[path[t]] == s[path[t + 1]]
  }

  /**
   * The hit at `i` slides down the path of farther children until none is farther than it; the hits it passes move up
   * by
   * one, and every other hit stays.
   */
  ghost predicate Slides(s: seq<Hit>, i: nat, path: seq<nat>, s': seq<Hit>) {
    && i < |s| == |s'| && path != [] && path[0] == i && path[|path| - 1] < |s|
    && (forall t: nat :: t < |path| - 1 ==> Moves(s, s[i], path, t, s'))
    && Rests(s, s[i], path[|path| - 1]) && s'[path[|path| - 1]] == s[i]
    && (forall j :: 0 <= j < |s| && j !in path ==> s'[j] == s[j])
  }

  ghost predicate Sifted(s: seq<Hit>, i: nat, s': seq<Hit>) {
    exists path :: Slides(s, i, path, s')
  }

  lemma {:induction false} SiftSlides(s: seq<Hit>, i: nat) returns (path: seq<nat>)
    requires i < |s|
    ensures Slides(s, i, path, Sift(s, i))
    ensures forall t :: 0 < t < |path| ==> path[t] > i
    decreases |s| - i
  {
    hide Largest;
    var m := Largest(s, i);
    LargestFalls(s, i);
    if m == i {
      path := [i];
    } else {
      var below := SiftSlides(Swapped(s, i, m), m);
      path := [i] + below;
      SlideFurther(s, i, m, below, Sift(s, i));
    }
  }

  lemma LargestFalls(s: seq<Hit>, i: nat)
    requires i < |s|
    ensures var m := Largest(s, i); if m == i then Rests(s, s[i], i) else m > i && Falls(s, s[i], i, m)
  {
  }

  lemma SlideFurther(s: seq<Hit>, i: nat, m: nat, below: seq<nat>, s': seq<Hit>)
    requires i < m < |s| && Falls(s, s[i], i, m) && Slides(Swapped(s, i, m), m, below, s')
    requires forall t :: 0 < t < |below| ==> below[t] > m
    ensures Slides(s, i, [i] + below, s')
  {
    hide Falls, Rests, Moves;
    var path := [i] + below;
    assert path[|path| - 1] == below[|below| - 1] >= m;
    RestsStill(s, i, m, path[|path| - 1]);
    assert forall t :: 0 <= t < |below| ==> below[t] >= m;
    assert i !in below && s'[i] == s[m];
    forall t: nat | t < |path| - 1
      ensures Moves(s, s[i], path, t, s')
    {
      if t > 0 {
        assert Moves(Swapped(s, i, m), s[i], below, t - 1, s');
        MovesStill(s, i, m, below, t - 1, s');
      } else {
        FirstMove(s, i, m, path, s');
      }
    }
  }

  lemma FirstMove(s: seq<Hit>, i: nat, m: nat, path: seq<nat>, s': seq<Hit>)
    requires i < |s| == |s'| && m < |s| && |path| > 1 && path[0] == i && path[1] == m && Falls(s, s[i], i, m)
    requires s'[i] == s[m]
    ensures Moves(s, s[i], path, 0, s')
  {
  }

  lemma RestsStill(s: seq<Hit>, i: nat, m: nat, a: nat)
    requires i < m < |s| && m <= a && Rests(Swapped(s, i, m), s[i], a)
    ensures Rests(s, s[i], a)
  {
    assert forall c :: m < c < |s| ==> Swapped(s, i, m)[c] == s[c];
  }

  lemma MovesStill(s: seq<Hit>, i: nat, m: nat, below: seq<nat>, t: nat, s': seq<Hit>)
    requires i < m < |s| && Moves(Swapped(s, i, m), s[i], below, t, s') && below[t] >= m
    ensures Moves(s, s[i], [i] + below, t + 1, s')
  {
    var path := [i] + below;
    assert path[t + 1] == below[t] && path[t + 2] == below[t + 1];
  }

  // ----- read-out

  /** The root is taken out: the last hit goes to its place and slides down. */
  ghost predicate Shrinks(a: seq<Hit>, b: seq<Hit>) {
    |a| == |b| + 1 && (b != [] ==> Sifted(a[..|b|][0 := a[|b|]], 0, b))
  }

  /** Step number `t` of the read-out takes a root to its place from the back. */
  ghost predicate Takes(out: seq<Hit>, states: seq<seq<Hit>>, t: nat) {
    && t + 1 < |states| && t < |out| && Shrinks(states[t], states[t + 1]) && states[t][0] == out[|out| - 1 - t]
  }

  /** `out` lists, from the back, the roots of the shrinking slots. */
  ghost predicate Reads(s: seq<Hit>, out: seq<Hit>, states: seq<seq<Hit>>) {
    |states| == |s| + 1 && |out| == |s| && states[0] == s && forall t: nat :: t < |s| ==> Takes(out, states, t)
  }

  ghost predicate ReadOut(s: seq<Hit>, out: seq<Hit>) {
    exists states :: Reads(s, out, states)
  }

  lemma RestShrinks(s: seq<Hit>)
    requires s != []
    ensures Shrinks(s, Rest(s))
  {
    hide Sift, Slides;
    var n := |s| - 1;
    if n > 0 {
      var path := SiftSlides(s[..n][0 := s[n]], 0);
    }
  }

  lemma {:induction false} DrainReads(s: seq<Hit>) returns (states: seq<seq<Hit>>)
    ensures Reads(s, Drain(s), states)
    decreases |s|
  {
    if s == [] {
      states := [s];
    } else {
      var rest := DrainReads(Rest(s));
      states := [s] + rest;
      RestShrinks(s);
      ReadsFurther(s, Rest(s), Drain(Rest(s)), rest);
    }
  }

  lemma ReadsFurther(s: seq<Hit>, r: seq<Hit>, out: seq<Hit>, rest: seq<seq<Hit>>)
    requires |s| == |r| + 1 && Shrinks(s, r) && Reads(r, out, rest)
    ensures Reads(s, out + [s[0]], [s] + rest)
  {
    hide Shrinks;
    var states, all := [s] + rest, out + [s[0]];
    forall t: nat | t < |s|
      ensures Takes(all, states, t)
    {
      if t > 0 {
        assert Takes(out, rest, t - 1);
        assert states[t] == rest[t - 1] && states[t + 1] == rest[t] && all[|all| - 1 - t] == out[|out| - 1 - (t - 1)];
      }
    }
  }

  /** With fewer than k candidates the output is read out of them as they came. */
  lemma ShortOutput(hs: seq<Hit>, k: nat)
    requires |hs| < k
    ensures ReadOut(hs, Output(hs, k))
  {
    NotFullKeepsOrder(hs, k);
    var states := DrainReads(hs);
  }

  // ----- the read-out is determined

  lemma FallsUnique(s: seq<Hit>, h: Hit, a: nat, b: nat, c: nat)
    requires Falls(s, h, a, b)
    ensures !Rests(s, h, a) && (Falls(s, h, a, c) ==> b == c)
  {
  }

  lemma {:induction false} SamePath(s: seq<Hit>, i: nat, p: seq<nat>, p': seq<nat>, r: seq<Hit>, r': seq<Hit>, t: nat)
    requires Slides(s, i, p, r) && Slides(s, i, p', r') && t < |p|
    ensures t < |p'| && p[t] == p'[t]
  {
    hide Falls, Rests;
    if t > 0 {
      SamePath(s, i, p, p', r, r', t - 1);
      assert Moves(s, s[i], p, t - 1, r);
      FallsUnique(s, s[i], p[t - 1], p[t], if t < |p'| then p'[t] else 0);
      assert t - 1 < |p'| - 1 ==> Moves(s, s[i], p', t - 1, r');
    }
  }

  lemma SlidesUnique(s: seq<Hit>, i: nat, p: seq<nat>, p': seq<nat>, r: seq<Hit>, r': seq<Hit>)
    requires Slides(s, i, p, r) && Slides(s, i, p', r')
    ensures r == r'
  {
    hide Falls, Rests;
    SamePath(s, i, p, p', r, r', |p| - 1);
    SamePath(s, i, p', p, r', r, |p'| - 1);
    forall t | 0 <= t < |p|
      ensures p[t] == p'[t]
    {
      SamePath(s, i, p, p', r, r', t);
    }
    assert p == p';
    forall j | 0 <= j < |s|
      ensures r[j] == r'[j]
    {
      if j in p {
        var t :| 0 <= t < |p| && p[t] == j;
        assert t < |p| - 1 ==> Moves(s, s[i], p, t, r) && Moves(s, s[i], p, t, r');
      }
    }
  }

  lemma ShrinksUnique(a: seq<Hit>, b: seq<Hit>, c: seq<Hit>)
    requires Shrinks(a, b) && Shrinks(a, c)
    ensures b == c
  {
    hide Slides;
    if b != [] {
      var n := |b|;
      var p :| Slides(a[..n][0 := a[n]], 0, p, b);
      var p' :| Slides(a[..n][0 := a[n]], 0, p', c);
      SlidesUnique(a[..n][0 := a[n]], 0, p, p', b, c);
    }
  }

  lemma {:induction false} SameStates(s: seq<Hit>, out: seq<Hit>, out': seq<Hit>, x: seq<seq<Hit>>, y: seq<seq<Hit>>,
                                      t: nat)
    requires Reads(s, out, x) && Reads(s, out', y) && t <= |s|
    ensures x[t] == y[t]
  {
    hide Shrinks;
    if t > 0 {
      SameStates(s, out, out', x, y, t - 1);
      assert Takes(out, x, t - 1) && Takes(out', y, t - 1);
      ShrinksUnique(x[t - 1], x[t], y[t]);
    }
  }

  /** The slots determine the output. */
  lemma ReadOutUnique(s: seq<Hit>, out: seq<Hit>, out': seq<Hit>)
    requires ReadOut(s, out) && ReadOut(s, out')
    ensures out == out'
  {
    hide Shrinks;
    var x :| Reads(s, out, x);
    var y :| Reads(s, out', y);
    forall j | 0 <= j < |s|
      ensures out[j] == out'[j]
    {
      var t := |s| - 1 - j;
      SameStates(s, out, out', x, y, t);
      assert Takes(out, x, t) && Takes(out', y, t);
    }
  }
}
