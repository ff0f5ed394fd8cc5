/** The order in which a breadth-first search lists nodes: by the first row that leads to them. */
module BreadthOrder {
  import opened Graphs
  import opened Traversal
  import opened ScanOrder

  function TargetsOf(rows: seq<Edge>): (ts: seq<int>)
    ensures |ts| == |rows| && forall i :: 0 <= i < |rows| ==> ts[i] == rows[i].to
  {
    seq(|rows|, i requires 0 <= i < |rows| => rows[i].to)
  }

  /** What the search follows from a node listed at a depth: the targets of its rows, or nothing at the limit. */
  ghost function Onward(es: seq<Edge>, limit: int, u: int, depth: nat): seq<int> {
    if Expands(limit, depth) then TargetsOf(Rows(es, u)) else []
  }

  ghost function OnwardLists(es: seq<Edge>, limit: int, out: seq<int>, d: seq<nat>): (lists: seq<seq<int>>)
    requires |out| == |d|
    ensures |lists| == |out| && forall i :: 0 <= i < |out| ==> lists[i] == Onward(es, limit, out[i], d[i])
  {
    seq(|out|, i requires 0 <= i < |out| => Onward(es, limit, out[i], d[i]))
  }

  ghost function Any(): int -> bool { _ => true }

  /** The list when the rows up to `cursor` have been followed. */
  ghost predicate Discovered(es: seq<Edge>, limit: int, out: seq<int>, d: seq<nat>, at: seq<Spot>, cursor: Spot) {
    |out| == |d| && InOrder(OnwardLists(es, limit, out, d), out, at, Any(), cursor)
  }

  /**
   * The whole list: depths are shortest distances, each node but the start stands at the first row that leads to it
   * from
   * a node within the limit, and nodes come in the order of these rows.
   */
  ghost predicate InBreadthOrder(es: seq<Edge>, s: int, limit: int, out: seq<int>, d: seq<nat>, at: seq<Spot>) {
    && |out| == |d| && out != [] && out[0] == s && (forall i :: 0 <= i < |d| ==> IsShortest(es, s, out[i], d[i]))
    && Discovered(es, limit, out, d, at, Spot(|out|, 0))
  }

  ghost predicate BreadthListed(es: seq<Edge>, s: int, limit: int, out: seq<int>) {
    exists d, at :: InBreadthOrder(es, s, limit, out, d, at)
  }

  lemma DiscoverStart(es: seq<Edge>, s: int, limit: int)
    ensures Discovered(es, limit, [s], [0], [Spot(0, 0)], Spot(0, 0))
  {
    hide InOrder;
    assert OnwardLists(es, limit, [s], [0]) == [Onward(es, limit, s, 0)];
    OrderStart(Onward(es, limit, s, 0), s, Any());
  }

  lemma DiscoverNew(es: seq<Edge>, limit: int, out: seq<int>, d: seq<nat>, at: seq<Spot>, h: nat, k: nat)
    requires Discovered(es, limit, out, d, at, Spot(h, k)) && h < |out| && Expands(limit, d[h])
    requires k < |Rows(es, out[h])| && Rows(es, out[h])[k].to !in out
    ensures Discovered(es, limit, out + [Rows(es, out[h])[k].to], d + [d[h] + 1], at + [Spot(h, k)], Spot(h, k + 1))
  {
    hide InOrder, Rows;
    var b := Rows(es, out[h])[k].to;
    var lists := OnwardLists(es, limit, out, d);
    var list := Onward(es, limit, b, d[h] + 1);
    assert lists[h][k] == b;
    OrderAdd(lists, out, at, Any(), h, k, b, list);
    assert OnwardLists(es, limit, out + [b], d + [d[h] + 1]) == lists + [list];
  }

  lemma DiscoverOld(es: seq<Edge>, limit: int, out: seq<int>, d: seq<nat>, at: seq<Spot>, h: nat, k: nat)
    requires Discovered(es, limit, out, d, at, Spot(h, k)) && h < |out| && Expands(limit, d[h])
    requires k < |Rows(es, out[h])| && Rows(es, out[h])[k].to in out
    ensures Discovered(es, limit, out, d, at, Spot(h, k + 1))
  {
    hide InOrder, Rows;
    assert OnwardLists(es, limit, out, d)[h][k] == Rows(es, out[h])[k].to;
    OrderSkip(OnwardLists(es, limit, out, d), out, at, Any(), h, k, Rows(es, out[h])[k].to);
  }

  lemma DiscoverTurn(es: seq<Edge>, limit: int, out: seq<int>, d: seq<nat>, at: seq<Spot>, h: nat, k: nat)
    requires Discovered(es, limit, out, d, at, Spot(h, k)) && h < |out|
    requires k == if Expands(limit, d[h]) then |Rows(es, out[h])| else 0
    ensures Discovered(es, limit, out, d, at, Spot(h + 1, 0))
  {
    hide InOrder, Rows;
    OrderTurn(OnwardLists(es, limit, out, d), out, at, Any(), h);
  }

  /** Table, start and limit determine the list. */
  lemma BreadthUnique(es: seq<Edge>, s: int, limit: int, out: seq<int>, out': seq<int>)
    requires BreadthListed(es, s, limit, out) && BreadthListed(es, s, limit, out')
    ensures out == out'
  {
    hide InOrder, IsShortest, Onward, Alike;
    var d, at :| InBreadthOrder(es, s, limit, out, d, at);
    var d', at' :| InBreadthOrder(es, s, limit, out', d', at');
    var lists, lists' := OnwardLists(es, limit, out, d), OnwardLists(es, limit, out', d');
    var n := if |out| > |out'| then |out| else |out'|;
    OrderRaise(lists, out, at, Any(), n);
    OrderRaise(lists', out', at', Any(), n);
    ListsAlike(es, s, limit, out, d, at, out', d', at');
    ListsAlike(es, s, limit, out', d', at', out, d, at);
    OrderUnique(lists, out, at, lists', out', at', Any(), Spot(n, 0), |out|);
    OrderUnique(lists', out', at', lists, out, at, Any(), Spot(n, 0), |out'|);
    assert out[..|out|] == out && out'[..|out'|] == out';
  }

  lemma ListsAlike(es: seq<Edge>, s: int, limit: int, out: seq<int>, d: seq<nat>, at: seq<Spot>, out': seq<int>,
                   d': seq<nat>, at': seq<Spot>)
    requires InBreadthOrder(es, s, limit, out, d, at) && InBreadthOrder(es, s, limit, out', d', at')
    ensures Alike(OnwardLists(es, limit, out, d), out, OnwardLists(es, limit, out', d'), out')
  {
    hide InOrder, Onward, WalkOf, Discovered;
    forall i, j | 0 <= i < |out| && 0 <= j < |out'| && out[i] == out'[j]
      ensures d[i] == d'[j]
    {
      assert IsShortest(es, s, out[i], d[i]) && IsShortest(es, s, out'[j], d'[j]);
    }
  }
}
