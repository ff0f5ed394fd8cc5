/** The backing edge table, walks through it, and reachability. */
module Graphs {

  /** One row of the edge table. */
  datatype Edge = Edge(from: int, to: int, weight: real)

  /** The rows a `WHERE from_id = u` query returns, in table order. */
  function Rows(es: seq<Edge>, u: int): (r: seq<Edge>)
    ensures forall e :: e in r <==> e in es && e.from == u
  {
    if es == [] then []
    else if es[0].from == u then [es[0]] + Rows(es[1..], u)
    else Rows(es[1..], u)
  }

  lemma {:induction false} RowsConcat(a: seq<Edge>, b: seq<Edge>, u: int)
    ensures Rows(a + b, u) == Rows(a, u) + Rows(b, u)
  {
    if a == [] {
      assert a + b == b;
    } else {
      RowsConcat(a[1..], b, u);
      assert (a + b)[1..] == a[1..] + b;
    }
  }

  lemma RowsOfOne(e: Edge, u: int)
    ensures Rows([e], u) == if e.from == u then [e] else []
  {
    assert [e][1..] == [];
    assert Rows([e], u) == if e.from == u then [e] + Rows([], u) else Rows([], u);
  }

  /** The rows of `u` are those at its positions in the table, each once and in table order. */
  lemma {:induction false} RowsInOrder(es: seq<Edge>, u: int) returns (at: seq<nat>)
    ensures |at| == |Rows(es, u)| && forall i :: 0 <= i < |at| ==> at[i] < |es| && es[at[i]] == Rows(es, u)[i]
    ensures forall i, j :: 0 <= i < j < |at| ==> at[i] < at[j]
    ensures forall k: nat :: k < |es| && es[k].from == u ==> k in at
  {
    at := [];
    if es != [] {
      var n := |es| - 1;
      at := RowsInOrder(es[..n], u);
      RowsConcat(es[..n], [es[n]], u);
      RowsOfOne(es[n], u);
      hide Rows;
      assert es == es[..n] + [es[n]];
      if es[n].from == u {
        at := at + [n];
      }
    }
  }

  /** `w` is a chain of table rows leading from `u` to `v`. */
  ghost predicate IsWalk(es: seq<Edge>, u: int, w: seq<Edge>, v: int)
    decreases |w|
  {
    if w == [] then u == v
    else w[0] in es && w[0].from == u && IsWalk(es, w[0].to, w[1..], v)
  }

  ghost predicate Reach(es: seq<Edge>, u: int, v: int) {
    exists w :: IsWalk(es, u, w, v)
  }

  ghost predicate HasArc(es: seq<Edge>, u: int, v: int) {
    exists e :: e in es && e.from == u && e.to == v
  }

  /** No arc leaves the set. */
  ghost predicate Closed(es: seq<Edge>, s: set<int>) {
    forall e :: e in es && e.from in s ==> e.to in s
  }

  lemma {:induction false} WalkConcat(es: seq<Edge>, u: int, w: seq<Edge>, v: int, w': seq<Edge>, x: int)
    requires IsWalk(es, u, w, v) && IsWalk(es, v, w', x)
    ensures IsWalk(es, u, w + w', x)
    decreases |w|
  {
    if w == [] {
      assert w + w' == w';
    } else {
      WalkConcat(es, w[0].to, w[1..], v, w', x);
      assert (w + w')[1..] == w[1..] + w';
    }
  }

  lemma WalkEdge(es: seq<Edge>, e: Edge)
    requires e in es
    ensures IsWalk(es, e.from, [e], e.to)
  {
    assert IsWalk(es, e.to, [e][1..], e.to);
  }

  lemma ReachRefl(es: seq<Edge>, u: int)
    ensures Reach(es, u, u)
  {
    assert IsWalk(es, u, [], u);
  }

  lemma ReachArc(es: seq<Edge>, u: int, v: int)
    requires HasArc(es, u, v)
    ensures Reach(es, u, v)
  {
    var e :| e in es && e.from == u && e.to == v;
    WalkEdge(es, e);
  }

  lemma ReachTrans(es: seq<Edge>, u: int, v: int, x: int)
    requires Reach(es, u, v) && Reach(es, v, x)
    ensures Reach(es, u, x)
  {
    var w :| IsWalk(es, u, w, v);
    var w' :| IsWalk(es, v, w', x);
    WalkConcat(es, u, w, v, w', x);
  }

  lemma {:induction false} WalkStaysInClosed(es: seq<Edge>, s: set<int>, u: int, w: seq<Edge>, v: int)
    requires Closed(es, s) && u in s && IsWalk(es, u, w, v)
    ensures v in s
    decreases |w|
  {
    if w != [] {
      WalkStaysInClosed(es, s, w[0].to, w[1..], v);
    }
  }

  lemma ReachStaysInClosed(es: seq<Edge>, s: set<int>, u: int, v: int)
    requires Closed(es, s) && u in s && Reach(es, u, v)
    ensures v in s
  {
    var w :| IsWalk(es, u, w, v);
    WalkStaysInClosed(es, s, u, w, v);
  }

  /** The nodes a search from `start` can come to. */
  ghost function Universe(es: seq<Edge>, start: int): set<int> {
    {start} + (set e | e in es :: e.to)
  }

  ghost function Elems(s: seq<int>): set<int> { set v | v in s }
}
