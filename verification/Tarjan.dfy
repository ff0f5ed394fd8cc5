/**
 Tarjan's strongly connected components, as a state machine over snapshots of `TarjanState`.
 Positions in the sorted node list play the part of nodes; arcs whose end is not a registered
 node are skipped by the lookup, so the graph is the subgraph induced by the node list.
 */
module Tarjan {
  import opened Graphs

  /** The node list (`SELECT id ... ORDER BY id`) and the edge table. */
  datatype Net = Net(ids: seq<int>, es: seq<Edge>) {
    ghost predicate Ok() {
      forall i, j :: 0 <= i < j < |ids| ==> ids[i] < ids[j]
    }
  }

  function Induced(ids: seq<int>, es: seq<Edge>): (r: seq<Edge>)
    ensures forall e :: e in r <==> e in es && e.from in ids && e.to in ids
  {
    if es == [] then []
    else if es[0].from in ids && es[0].to in ids then [es[0]] + Induced(ids, es[1..])
    else Induced(ids, es[1..])
  }

  ghost predicate Node(g: Net, v: int) { 0 <= v < |g.ids| }

  ghost predicate Arc(g: Net, u: int, v: int) {
    Node(g, u) && Node(g, v) && HasArc(Induced(g.ids, g.es), g.ids[u], g.ids[v])
  }

  ghost predicate Conn(g: Net, u: int, v: int) {
    Node(g, u) && Node(g, v) && Reach(Induced(g.ids, g.es), g.ids[u], g.ids[v])
  }

  lemma ConnRefl(g: Net, u: int)
    requires Node(g, u)
    ensures Conn(g, u, u)
  {
    ReachRefl(Induced(g.ids, g.es), g.ids[u]);
  }

  lemma ConnArc(g: Net, u: int, v: int)
    requires Arc(g, u, v)
    ensures Conn(g, u, v)
  {
    ReachArc(Induced(g.ids, g.es), g.ids[u], g.ids[v]);
  }

  lemma ConnTrans(g: Net, u: int, v: int, w: int)
    requires Conn(g, u, v) && Conn(g, v, w)
    ensures Conn(g, u, w)
  {
    ReachTrans(Induced(g.ids, g.es), g.ids[u], g.ids[v], g.ids[w]);
  }

  /** Nothing outside a set of positions without leaving arcs can be reached from inside it. */
  lemma ConnStays(g: Net, a: set<int>, u: int, v: int)
    requires g.Ok()
    requires forall x :: x in a ==> Node(g, x)
    requires forall x, y :: x in a && Arc(g, x, y) ==> y in a
    requires u in a && Conn(g, u, v)
    ensures v in a
  {
    var sub := Induced(g.ids, g.es);
    var ia := set x | x in a :: g.ids[x];
    forall e | e in sub && e.from in ia
      ensures e.to in ia
    {
      var x :| x in a && g.ids[x] == e.from;
      var y :| 0 <= y < |g.ids| && g.ids[y] == e.to;
      assert HasArc(sub, g.ids[x], g.ids[y]);
      assert Arc(g, x, y);
    }
    ReachStaysInClosed(sub, ia, g.ids[u], g.ids[v]);
  }

  /** A snapshot of `TarjanState` without its low links; the top of the stack is the last element. */
  datatype State = State(index: seq<int>, onStack: seq<bool>, stack: seq<int>, count: int, sccs: seq<seq<int>>)

  ghost predicate Shape(g: Net, s: State) {
    |s.index| == |g.ids| && |s.onStack| == |g.ids| && s.count >= 0
  }

  ghost predicate Done(g: Net, s: State, v: int)
    requires Shape(g, s)
  {
    Node(g, v) && s.index[v] >= 0 && v !in s.stack
  }

  /** Indices are in range and the stack lists numbered nodes in discovery order. */
  ghost predicate StackOk(g: Net, s: State, gray: set<int>)
  {
    && Shape(g, s)
    && (forall v :: Node(g, v) ==> s.index[v] == -1 || 0 <= s.index[v] < s.count)
    && (forall v :: Node(g, v) ==> (s.onStack[v] <==> v in s.stack))
    && (forall i :: 0 <= i < |s.stack| ==> Node(g, s.stack[i]) && s.index[s.stack[i]] >= 0)
    && (forall i, j :: 0 <= i < j < |s.stack| ==> s.index[s.stack[i]] < s.index[s.stack[j]])
    && (forall h :: h in gray ==> h in s.stack)
  }

  /** Finished nodes have only discovered successors; emitted nodes only emitted ones. */
  ghost predicate ArcsOk(g: Net, s: State, gray: set<int>)
    requires Shape(g, s)
  {
    && (forall v, w :: Arc(g, v, w) && s.index[v] >= 0 && v !in gray ==> s.index[w] >= 0)
    && (forall v, w :: Arc(g, v, w) && Done(g, s, v) ==> Done(g, s, w))
  }

  /** `v` reaches an open call that was entered no later than `v`. */
  ghost predicate Rooted(g: Net, s: State, gray: set<int>, v: int)
    requires StackOk(g, s, gray) && Node(g, v)
  {
    exists h :: h in gray && s.index[h] <= s.index[v] && Conn(g, v, h)
  }

  /** Lower stack nodes reach higher ones. */
  ghost predicate ChainOk(g: Net, stack: seq<int>) {
    forall i, j :: 0 <= i <= j < |stack| ==> Conn(g, stack[i], stack[j])
  }

  /** Each stack node reaches an open call below it. */
  ghost predicate RootsOk(g: Net, s: State, gray: set<int>)
    requires StackOk(g, s, gray)
  {
    forall v {:trigger Rooted(g, s, gray, v)} :: v in s.stack ==> Rooted(g, s, gray, v)
  }

  /** `c` lists, without repetition, one maximal set of mutually reachable registered nodes. */
  ghost predicate IsComponent(g: Net, c: seq<int>) {
    && c != []
    && (forall i :: 0 <= i < |c| ==> c[i] in g.ids)
    && (forall i, j :: 0 <= i < j < |c| ==> c[i] != c[j])
    && (forall x, y :: x in c && y in g.ids ==>
          (y in c <==> Reach(Induced(g.ids, g.es), x, y) && Reach(Induced(g.ids, g.es), y, x)))
  }

  ghost predicate Listed(sccs: seq<seq<int>>, id: int) {
    exists k :: 0 <= k < |sccs| && id in sccs[k]
  }

  ghost predicate Disjoint(sccs: seq<seq<int>>) {
    forall k, l, x :: 0 <= k < l < |sccs| && x in sccs[k] ==> x !in sccs[l]
  }

  /** No component reaches one that is listed later: the lists come in reverse topological order. */
  ghost predicate SinksFirst(g: Net, sccs: seq<seq<int>>) {
    forall k, l, x, y :: 0 <= k < l < |sccs| && x in sccs[k] && y in sccs[l] ==> !Reach(Induced(g.ids, g.es), x, y)
  }

  ghost predicate SccsOk(g: Net, s: State)
    requires Shape(g, s)
  {
    && (forall v :: Node(g, v) ==> (Done(g, s, v) <==> Listed(s.sccs, g.ids[v])))
    && (forall k :: 0 <= k < |s.sccs| ==> IsComponent(g, s.sccs[k]))
    && Disjoint(s.sccs) && SinksFirst(g, s.sccs)
  }

  /** What every step of the search keeps; `gray` is the set of nodes with an open call. */
  ghost predicate Inv(g: Net, s: State, gray: set<int>) {
    g.Ok() && StackOk(g, s, gray) && ArcsOk(g, s, gray) && ChainOk(g, s.stack) && RootsOk(g, s, gray) && SccsOk(g, s)
  }

  ghost function White(g: Net, s: State): set<int>
    requires Shape(g, s)
  {
    set v | 0 <= v < |g.ids| && s.index[v] == -1
  }

  // ----- entering a node

  function Push(s: State, x: int): State
    requires 0 <= x < |s.index| == |s.onStack|
  {
    s.(index := s.index[x := s.count], onStack := s.onStack[x := true],
       stack := s.stack + [x], count := s.count + 1)
  }

  /** Every stack node reaches a node that all open calls reach. */
  lemma StackReaches(g: Net, s: State, gray: set<int>, x: int)
    requires Inv(g, s, gray) && Node(g, x)
    requires forall h :: h in gray ==> Conn(g, h, x)
    ensures forall v :: v in s.stack ==> Conn(g, v, x)
  {
    forall v | v in s.stack
      ensures Conn(g, v, x)
    {
      assert Rooted(g, s, gray, v);
      var h :| h in gray && s.index[h] <= s.index[v] && Conn(g, v, h);
      ConnTrans(g, v, h, x);
    }
  }

  lemma PushKeepsInv(g: Net, s: State, gray: set<int>, x: int)
    requires Inv(g, s, gray) && Node(g, x) && s.index[x] == -1
    requires forall h :: h in gray ==> Conn(g, h, x)
    ensures Inv(g, Push(s, x), gray + {x})
    ensures White(g, Push(s, x)) == White(g, s) - {x}
  {
    hide SccsOk, ChainOk, Conn, Rooted, HasArc;
    var t := Push(s, x);
    assert x !in s.stack;
    assert forall v :: v in t.stack <==> v in s.stack || v == x by {
      assert t.stack[|s.stack|] == x;
      assert forall i :: 0 <= i < |s.stack| ==> t.stack[i] == s.stack[i];
    }
    assert StackOk(g, t, gray + {x});
    assert forall v :: Node(g, v) ==> (Done(g, t, v) <==> Done(g, s, v));
    assert ArcsOk(g, t, gray + {x});
    SameSccs(g, s, t);
    StackReaches(g, s, gray, x);
    ConnRefl(g, x);
    PushLinks(g, s, gray, x);
  }

  lemma SameSccs(g: Net, s: State, t: State)
    requires Shape(g, s) && Shape(g, t) && SccsOk(g, s) && t.sccs == s.sccs
    requires forall v :: Node(g, v) ==> (Done(g, t, v) <==> Done(g, s, v))
    ensures SccsOk(g, t)
  {
    hide Done, Disjoint, SinksFirst, IsComponent;
  }

  lemma PushLinks(g: Net, s: State, gray: set<int>, x: int)
    requires Inv(g, s, gray) && Node(g, x) && s.index[x] == -1
    requires StackOk(g, Push(s, x), gray + {x})
    requires forall v :: v in s.stack ==> Conn(g, v, x)
    requires Conn(g, x, x)
    ensures ChainOk(g, Push(s, x).stack) && RootsOk(g, Push(s, x), gray + {x})
  {
    hide Conn, SccsOk, ArcsOk;
    var t := Push(s, x);
    forall i, j | 0 <= i <= j < |t.stack|
      ensures Conn(g, t.stack[i], t.stack[j])
    {
      if j < |s.stack| {
        assert t.stack[i] == s.stack[i] && t.stack[j] == s.stack[j];
      } else if i < |s.stack| {
        assert t.stack[i] == s.stack[i] && s.stack[i] in s.stack;
      }
    }
    forall v | v in t.stack
      ensures Rooted(g, t, gray + {x}, v)
    {
      if v != x {
        assert v in s.stack;
        assert Rooted(g, s, gray, v);
        var h :| h in gray && s.index[h] <= s.index[v] && Conn(g, v, h);
        assert h in gray + {x} && t.index[h] <= t.index[v];
      } else {
        assert x in gray + {x} && t.index[x] <= t.index[x] && Conn(g, x, x);
      }
    }
  }

  // ----- scanning the successors of an open node

  /**
   `low` is a sound low link for the open node `x`, whose segment of the stack lies above `base`:
   it names a stack node that `x` reaches, and no arc scanned so far leads below it.
   */
  ghost predicate LowOk(g: Net, s: State, x: int, base: seq<int>, seen: set<int>, low: int)
    requires Shape(g, s) && Node(g, x)
  {
    && low <= s.index[x]
    && (exists y :: y in s.stack && Node(g, y) && s.index[y] == low && Conn(g, x, y))
    && (forall w :: w in seen ==> Node(g, w) && s.index[w] >= 0 && (w in base ==> s.index[w] >= low))
    && AboveOk(g, s, |base| + 1, base, low)
  }

  /** No arc from a stack position at or above `from` leads to a node of `base` numbered below `low`. */
  ghost predicate AboveOk(g: Net, s: State, from: nat, base: seq<int>, low: int)
    requires Shape(g, s)
  {
    forall i, w :: from <= i < |s.stack| && w in base && Arc(g, s.stack[i], w) ==> s.index[w] >= low
  }

  ghost predicate Scanning(g: Net, s: State, gray: set<int>, x: int, base: seq<int>, seen: set<int>, low: int) {
    && Inv(g, s, gray + {x}) && Node(g, x)
    && base + [x] <= s.stack
    && (forall h :: h in gray ==> h in base)
    && LowOk(g, s, x, base, seen, low)
  }

  lemma BaseOnStack(stack: seq<int>, base: seq<int>, x: int)
    requires base + [x] <= stack
    ensures base <= stack
    ensures forall w :: w in base ==> w in stack
    ensures |stack| > |base| && stack[|base|] == x && x in stack
  {
    assert (base + [x])[|base|] == x;
    assert forall i :: 0 <= i < |base| ==> (base + [x])[i] == base[i] == stack[i];
  }

  lemma ScanStart(g: Net, s: State, gray: set<int>, x: int)
    requires Inv(g, s, gray) && Node(g, x) && s.index[x] == -1
    requires forall h :: h in gray ==> Conn(g, h, x)
    ensures Scanning(g, Push(s, x), gray, x, s.stack, {}, s.count)
  {
    PushKeepsInv(g, s, gray, x);
    ConnRefl(g, x);
    var t := Push(s, x);
    assert t.stack[|s.stack|] == x;
    assert x in t.stack && t.index[x] == s.count && Conn(g, x, x);
  }

  /** What a whole call on an undiscovered node does to the state. */
  ghost predicate Called(g: Net, s: State, gray: set<int>, x: int, t: State, low: int) {
    && Shape(g, s) && Inv(g, t, gray) && Node(g, x)
    && s.stack <= t.stack && s.sccs <= t.sccs
    && s.count <= t.index[x] && low <= t.index[x]
    && (forall v :: Node(g, v) && s.index[v] >= 0 ==> t.index[v] == s.index[v])
    && (|t.stack| == |s.stack| ==> low == t.index[x])
    && (|t.stack| > |s.stack| ==>
          exists y :: y in s.stack && Node(g, y) && t.index[y] == low && Conn(g, x, y))
    && AboveOk(g, t, |s.stack|, s.stack, low)
  }

  function Min(a: int, b: int): int { if a < b then a else b }

  lemma LowVisited(g: Net, s: State, x: int, base: seq<int>, seen: set<int>, low: int, c: int)
    requires Shape(g, s) && Arc(g, x, c) && s.index[c] >= 0
    requires LowOk(g, s, x, base, seen, low)
    requires s.onStack[c] <==> c in s.stack
    requires c in base ==> c in s.stack
    ensures LowOk(g, s, x, base, seen + {c}, if s.onStack[c] then Min(s.index[c], low) else low)
  {
    ConnArc(g, x, c);
    if s.onStack[c] && s.index[c] < low {
      assert c in s.stack && Node(g, c) && Conn(g, x, c);
    }
  }

  lemma ScanVisited(g: Net, s: State, gray: set<int>, x: int, base: seq<int>, seen: set<int>, low: int, c: int)
    requires Scanning(g, s, gray, x, base, seen, low) && Arc(g, x, c) && s.index[c] >= 0
    ensures Scanning(g, s, gray, x, base, seen + {c}, if s.onStack[c] then Min(s.index[c], low) else low)
  {
    BaseOnStack(s.stack, base, x);
    LowVisited(g, s, x, base, seen, low, c);
  }

  lemma ScanChild(g: Net, s: State, gray: set<int>, x: int, base: seq<int>, seen: set<int>, low: int,
                  c: int, t: State, lowc: int)
    requires Scanning(g, s, gray, x, base, seen, low) && Arc(g, x, c) && s.index[c] == -1
    requires Called(g, s, gray + {x}, c, t, lowc)
    ensures Scanning(g, t, gray, x, base, seen + {c}, Min(lowc, low))
  {
    BaseOnStack(s.stack, base, x);
    ChildWitness(g, s, x, base, seen, low, c, t, lowc);
    ChildAbove(g, s, base, low, t, lowc);
    ChildSeen(g, s, base, x, seen, low, c, t, lowc);
    assert base + [x] <= t.stack;
  }

  lemma ChildSeen(g: Net, s: State, base: seq<int>, x: int, seen: set<int>, low: int, c: int, t: State, lowc: int)
    requires Shape(g, s) && Shape(g, t) && Node(g, x) && Node(g, c)
    requires LowOk(g, s, x, base, seen, low)
    requires s.index[c] == -1 && t.index[c] >= 0
    requires forall w :: w in base ==> Node(g, w) && s.index[w] >= 0
    requires forall v :: Node(g, v) && s.index[v] >= 0 ==> t.index[v] == s.index[v]
    ensures forall w :: w in seen + {c} ==>
      Node(g, w) && t.index[w] >= 0 && (w in base ==> t.index[w] >= Min(lowc, low))
  {
  }

  lemma ChildAbove(g: Net, s: State, base: seq<int>, low: int, t: State, lowc: int)
    requires Shape(g, s) && Shape(g, t)
    requires AboveOk(g, s, |base| + 1, base, low) && AboveOk(g, t, |s.stack|, s.stack, lowc)
    requires base <= s.stack <= t.stack
    requires forall v :: Node(g, v) && s.index[v] >= 0 ==> t.index[v] == s.index[v]
    requires forall w :: w in base ==> Node(g, w) && s.index[w] >= 0
    ensures AboveOk(g, t, |base| + 1, base, Min(lowc, low))
  {
    forall i, w | |base| + 1 <= i < |t.stack| && w in base && Arc(g, t.stack[i], w)
      ensures t.index[w] >= Min(lowc, low)
    {
      if i < |s.stack| {
        assert t.stack[i] == s.stack[i];
      } else {
        assert w in s.stack;
      }
    }
  }

  lemma ChildWitness(g: Net, s: State, x: int, base: seq<int>, seen: set<int>, low: int,
                     c: int, t: State, lowc: int)
    requires Shape(g, s) && Shape(g, t) && Arc(g, x, c) && LowOk(g, s, x, base, seen, low)
    requires s.index[x] < s.count <= t.index[c] && s.stack <= t.stack
    requires forall v :: v in s.stack ==> Node(g, v) && s.index[v] == t.index[v]
    requires lowc < t.index[c] ==> exists y :: y in s.stack && Node(g, y) && t.index[y] == lowc && Conn(g, c, y)
    ensures exists y :: y in t.stack && Node(g, y) && t.index[y] == Min(lowc, low) && Conn(g, x, y)
  {
    if low <= lowc {
      var y :| y in s.stack && Node(g, y) && s.index[y] == low && Conn(g, x, y);
      assert y in t.stack && t.index[y] == low;
    } else {
      var y :| y in s.stack && Node(g, y) && t.index[y] == lowc && Conn(g, c, y);
      assert y in t.stack;
      ConnArc(g, x, c);
      ConnTrans(g, x, c, y);
    }
  }

  // ----- leaving a node

  ghost predicate AllSeen(g: Net, x: int, seen: set<int>) {
    forall w :: Arc(g, x, w) ==> w in seen
  }

  /** Not a root: `x` reaches an open call below it and stays on the stack. */
  lemma LeaveInner(g: Net, s: State, gray: set<int>, x: int, base: seq<int>, seen: set<int>, low: int)
    requires Scanning(g, s, gray, x, base, seen, low) && AllSeen(g, x, seen) && low < s.index[x]
    ensures Inv(g, s, gray)
    ensures exists y :: y in base && Node(g, y) && s.index[y] == low && Conn(g, x, y)
    ensures AboveOk(g, s, |base|, base, low)
  {
    BaseOnStack(s.stack, base, x);
    LowBelow(g, s, gray + {x}, x, base, seen, low);
    WholeSegmentAbove(g, s, x, base, seen, low);
    var y :| y in base && Node(g, y) && s.index[y] == low && Conn(g, x, y);
    assert Rooted(g, s, gray + {x}, y);
    LeaveLinks(g, s, gray, x, y);
    LeaveArcs(g, s, gray, x, seen);
  }

  lemma LowBelow(g: Net, s: State, gray: set<int>, x: int, base: seq<int>, seen: set<int>, low: int)
    requires StackOk(g, s, gray) && Node(g, x) && base <= s.stack && |s.stack| > |base| && s.stack[|base|] == x
    requires LowOk(g, s, x, base, seen, low) && low < s.index[x]
    ensures exists y :: y in base && Node(g, y) && s.index[y] == low && Conn(g, x, y)
  {
    var y :| y in s.stack && Node(g, y) && s.index[y] == low && Conn(g, x, y);
    var k :| 0 <= k < |s.stack| && s.stack[k] == y;
    assert k < |base|;
    assert base[k] == y;
  }

  /** Once all successors of `x` are scanned, the whole segment from `x` up respects the low link. */
  lemma WholeSegmentAbove(g: Net, s: State, x: int, base: seq<int>, seen: set<int>, low: int)
    requires Shape(g, s) && Node(g, x) && |s.stack| > |base| && s.stack[|base|] == x
    requires LowOk(g, s, x, base, seen, low) && AllSeen(g, x, seen)
    ensures AboveOk(g, s, |base|, base, low)
  {
  }

  lemma LeaveLinks(g: Net, s: State, gray: set<int>, x: int, y: int)
    requires StackOk(g, s, gray + {x}) && RootsOk(g, s, gray + {x})
    requires y in s.stack && Node(g, x) && Node(g, y) && s.index[y] < s.index[x] && Conn(g, x, y)
    requires Rooted(g, s, gray + {x}, y)
    ensures StackOk(g, s, gray) && RootsOk(g, s, gray)
  {
    var h :| h in gray + {x} && s.index[h] <= s.index[y] && Conn(g, y, h);
    assert h in gray;
    ConnTrans(g, x, y, h);
    assert StackOk(g, s, gray);
    forall v | v in s.stack
      ensures Rooted(g, s, gray, v)
    {
      assert Rooted(g, s, gray + {x}, v);
      LeaveRooted(g, s, gray, x, h, v);
    }
  }

  lemma LeaveArcs(g: Net, s: State, gray: set<int>, x: int, seen: set<int>)
    requires Shape(g, s) && ArcsOk(g, s, gray + {x}) && AllSeen(g, x, seen)
    requires forall w :: w in seen ==> Node(g, w) && s.index[w] >= 0
    ensures ArcsOk(g, s, gray)
  {
  }

  lemma LeaveRooted(g: Net, s: State, gray: set<int>, x: int, h: int, v: int)
    requires StackOk(g, s, gray + {x}) && StackOk(g, s, gray) && Node(g, v) && Node(g, x)
    requires Rooted(g, s, gray + {x}, v)
    requires h in gray && s.index[h] < s.index[x] && Conn(g, x, h)
    ensures Rooted(g, s, gray, v)
  {
    var h' :| h' in gray + {x} && s.index[h'] <= s.index[v] && Conn(g, v, h');
    if h' == x {
      ConnTrans(g, v, x, h);
      assert h in gray && s.index[h] <= s.index[v] && Conn(g, v, h);
    } else {
      assert h' in gray && s.index[h'] <= s.index[v] && Conn(g, v, h');
    }
  }

  /** Emitting a component: the segment from `x` up leaves the stack, topmost node first. */
  function Pop(g: Net, s: State, n: nat): State
    requires n <= |s.stack| && |s.onStack| == |g.ids|
    requires forall i :: 0 <= i < |s.stack| ==> 0 <= s.stack[i] < |g.ids|
  {
    s.(stack := s.stack[..n],
       onStack := seq(|s.onStack|, v requires 0 <= v < |s.onStack| => s.onStack[v] && v in s.stack[..n]),
       sccs := s.sccs + [Emitted(g, s.stack[n..])])
  }

  /** The ids of a stack segment in pop order. */
  function Emitted(g: Net, seg: seq<int>): (r: seq<int>)
    requires forall i :: 0 <= i < |seg| ==> 0 <= seg[i] < |g.ids|
    ensures |r| == |seg| && forall k :: 0 <= k < |r| ==> r[k] == g.ids[seg[|seg| - 1 - k]]
  {
    seq(|seg|, k requires 0 <= k < |seg| => g.ids[seg[|seg| - 1 - k]])
  }

  lemma SplitStack(g: Net, s: State, gray: set<int>, n: nat)
    requires StackOk(g, s, gray) && n <= |s.stack|
    ensures forall v :: v in s.stack <==> v in s.stack[..n] || v in s.stack[n..]
    ensures forall v :: v in s.stack[..n] ==> v !in s.stack[n..]
  {
    assert s.stack == s.stack[..n] + s.stack[n..];
    forall i, j | 0 <= i < n <= j < |s.stack|
      ensures s.stack[i] != s.stack[j]
    {
      assert s.index[s.stack[i]] < s.index[s.stack[j]];
    }
  }

  lemma StackDistinct(g: Net, s: State, gray: set<int>)
    requires StackOk(g, s, gray)
    ensures forall i, j :: 0 <= i < j < |s.stack| ==> s.stack[i] != s.stack[j]
  {
    forall i, j | 0 <= i < j < |s.stack|
      ensures s.stack[i] != s.stack[j]
    {
      assert s.index[s.stack[i]] < s.index[s.stack[j]];
    }
  }

  /** The emitted nodes together with the segment of a root `x` have no leaving arc. */
  ghost predicate SegmentClosed(g: Net, s: State, seg: seq<int>)
    requires Shape(g, s)
  {
    forall v, w :: Arc(g, v, w) && (Done(g, s, v) || v in seg) ==> Done(g, s, w) || w in seg
  }

  lemma RootClosed(g: Net, s: State, gray: set<int>, x: int, base: seq<int>, seen: set<int>)
    requires StackOk(g, s, gray + {x}) && ArcsOk(g, s, gray + {x}) && Node(g, x)
    requires base + [x] <= s.stack && (forall h :: h in gray ==> h in base)
    requires LowOk(g, s, x, base, seen, s.index[x]) && AllSeen(g, x, seen)
    ensures SegmentClosed(g, s, s.stack[|base|..])
  {
    var n := |base|;
    BaseOnStack(s.stack, base, x);
    WholeSegmentAbove(g, s, x, base, seen, s.index[x]);
    SplitStack(g, s, gray + {x}, n);
    assert s.stack[..n] == base;
    forall v, w | Arc(g, v, w) && v in s.stack[n..]
      ensures Done(g, s, w) || w in s.stack[n..]
    {
      var i :| 0 <= i < |s.stack| - n && s.stack[n..][i] == v;
      assert v == s.stack[n + i] && v in s.stack;
      assert s.index[w] >= 0 by {
        if v == x {
          assert w in seen;
        } else {
          assert v !in base;
        }
      }
      assert w !in base by {
        assert forall j :: 0 <= j < n ==> s.index[s.stack[j]] < s.index[s.stack[n]];
      }
    }
  }

  /** In the segment of a root `x` every node reaches `x`. */
  lemma SegmentReachesRoot(g: Net, s: State, gray: set<int>, x: int, base: seq<int>, v: int)
    requires g.Ok() && StackOk(g, s, gray + {x}) && RootsOk(g, s, gray + {x}) && Node(g, x)
    requires base + [x] <= s.stack && (forall h :: h in gray ==> h in base)
    requires SegmentClosed(g, s, s.stack[|base|..]) && v in s.stack[|base|..]
    ensures Conn(g, v, x)
  {
    hide Conn;
    var n := |base|;
    BaseOnStack(s.stack, base, x);
    SplitStack(g, s, gray + {x}, n);
    assert s.stack[..n] == base;
    assert v in s.stack;
    assert Rooted(g, s, gray + {x}, v);
    var h :| h in gray + {x} && s.index[h] <= s.index[v] && Conn(g, v, h);
    var a := set w | 0 <= w < |g.ids| && (Done(g, s, w) || w in s.stack[n..]);
    ConnStays(g, a, v, h);
    assert h in s.stack[n..];
    assert h !in base;
  }

  /** A closed, mutually reachable segment disjoint from the emitted nodes is one component. */
  lemma SegmentIsComponent(g: Net, s: State, x: int, seg: seq<int>)
    requires g.Ok() && Shape(g, s) && Node(g, x) && seg != []
    requires forall i :: 0 <= i < |seg| ==> 0 <= seg[i] < |g.ids|
    requires forall i, j :: 0 <= i < j < |seg| ==> seg[i] != seg[j]
    requires forall v :: v in seg ==> v in s.stack && Conn(g, v, x) && Conn(g, x, v)
    requires SegmentClosed(g, s, seg) && (forall v, w :: Arc(g, v, w) && Done(g, s, v) ==> Done(g, s, w))
    ensures IsComponent(g, Emitted(g, seg))
  {
    var c := Emitted(g, seg);
    EmittedIds(g, seg);
    EmittedDistinct(g, seg);
    forall p, q | p in c && q in g.ids
      ensures q in c <==> Reach(Induced(g.ids, g.es), p, q) && Reach(Induced(g.ids, g.es), q, p)
    {
      EmittedMutual(g, s, x, seg, p, q);
    }
  }

  lemma EmittedMutual(g: Net, s: State, x: int, seg: seq<int>, p: int, q: int)
    requires g.Ok() && Shape(g, s) && Node(g, x)
    requires forall i :: 0 <= i < |seg| ==> 0 <= seg[i] < |g.ids|
    requires p in Emitted(g, seg) && q in g.ids
    requires forall v :: v in seg ==> v in s.stack && Conn(g, v, x) && Conn(g, x, v)
    requires SegmentClosed(g, s, seg) && (forall v, w :: Arc(g, v, w) && Done(g, s, v) ==> Done(g, s, w))
    ensures q in Emitted(g, seg) <==> Reach(Induced(g.ids, g.es), p, q) && Reach(Induced(g.ids, g.es), q, p)
  {
    EmittedIds(g, seg);
    var v :| v in seg && g.ids[v] == p;
    var w :| 0 <= w < |g.ids| && g.ids[w] == q;
    MemberIffMutual(g, s, x, seg, v, w);
    assert (w in seg) <==> q in Emitted(g, seg) by {
      if q in Emitted(g, seg) {
        var w' :| w' in seg && g.ids[w'] == q;
        assert w' == w;
      }
    }
    assert Conn(g, v, w) <==> Reach(Induced(g.ids, g.es), p, q);
    assert Conn(g, w, v) <==> Reach(Induced(g.ids, g.es), q, p);
  }

  lemma EmittedDistinct(g: Net, seg: seq<int>)
    requires g.Ok() && (forall i :: 0 <= i < |seg| ==> 0 <= seg[i] < |g.ids|)
    requires forall i, j :: 0 <= i < j < |seg| ==> seg[i] != seg[j]
    ensures forall i, j :: 0 <= i < j < |seg| ==> Emitted(g, seg)[i] != Emitted(g, seg)[j]
  {
    forall i, j | 0 <= i < j < |seg|
      ensures Emitted(g, seg)[i] != Emitted(g, seg)[j]
    {
      assert seg[|seg| - 1 - j] != seg[|seg| - 1 - i];
      IdsDistinct(g, seg[|seg| - 1 - i], seg[|seg| - 1 - j]);
    }
  }

  lemma IdsDistinct(g: Net, v: int, w: int)
    requires g.Ok() && Node(g, v) && Node(g, w) && v != w
    ensures g.ids[v] != g.ids[w]
  {
  }

  lemma EmittedIds(g: Net, seg: seq<int>)
    requires forall i :: 0 <= i < |seg| ==> 0 <= seg[i] < |g.ids|
    ensures forall v :: v in seg ==> g.ids[v] in Emitted(g, seg)
    ensures forall p :: p in Emitted(g, seg) ==> exists v :: v in seg && g.ids[v] == p
  {
    var c := Emitted(g, seg);
    forall v | v in seg
      ensures g.ids[v] in c
    {
      var i :| 0 <= i < |seg| && seg[i] == v;
      assert c[|seg| - 1 - i] == g.ids[v];
    }
  }

  lemma MemberIffMutual(g: Net, s: State, x: int, seg: seq<int>, v: int, w: int)
    requires g.Ok() && Shape(g, s) && Node(g, x) && v in seg && Node(g, w)
    requires forall i :: 0 <= i < |seg| ==> 0 <= seg[i] < |g.ids|
    requires forall v :: v in seg ==> v in s.stack && Conn(g, v, x) && Conn(g, x, v)
    requires SegmentClosed(g, s, seg) && (forall v, w :: Arc(g, v, w) && Done(g, s, v) ==> Done(g, s, w))
    ensures w in seg <==> Conn(g, v, w) && Conn(g, w, v)
  {
    if w in seg {
      ConnTrans(g, v, x, w);
      ConnTrans(g, w, x, v);
    } else if Conn(g, v, w) && Conn(g, w, v) {
      var a := set u | 0 <= u < |g.ids| && (Done(g, s, u) || u in seg);
      ConnStays(g, a, v, w);
      assert Done(g, s, w);
      var d := set u | 0 <= u < |g.ids| && Done(g, s, u);
      ConnStays(g, d, w, v);
      assert false;
    }
  }

  /** Root: the segment from `x` up is emitted as one component and leaves the stack. */
  lemma LeaveRoot(g: Net, s: State, gray: set<int>, x: int, base: seq<int>, seen: set<int>, low: int)
    requires Scanning(g, s, gray, x, base, seen, low) && AllSeen(g, x, seen) && low == s.index[x]
    ensures |base| < |s.stack| && Inv(g, Pop(g, s, |base|), gray)
    ensures Pop(g, s, |base|).stack == base
  {
    var n := |base|;
    BaseOnStack(s.stack, base, x);
    assert s.stack[..n] == base;
    RootClosed(g, s, gray, x, base, seen);
    SegmentMutual(g, s, gray, x, base);
    SegmentDistinct(g, s, gray + {x}, n);
    SegmentIsComponent(g, s, x, s.stack[n..]);
    PopStack(g, s, gray, x, n);
    PopRoots(g, s, gray, x, base);
    PopSccs(g, s, gray + {x}, n);
    PopArcs(g, s, gray, x, n, seen);
    ChainPrefix(g, s.stack, n);
  }

  lemma ChainPrefix(g: Net, stack: seq<int>, n: nat)
    requires ChainOk(g, stack) && n <= |stack|
    ensures ChainOk(g, stack[..n])
  {
  }

  lemma SegmentMutual(g: Net, s: State, gray: set<int>, x: int, base: seq<int>)
    requires g.Ok() && StackOk(g, s, gray + {x}) && RootsOk(g, s, gray + {x}) && Node(g, x) && ChainOk(g, s.stack)
    requires base + [x] <= s.stack && (forall h :: h in gray ==> h in base)
    requires SegmentClosed(g, s, s.stack[|base|..])
    ensures forall v :: v in s.stack[|base|..] ==> v in s.stack && Conn(g, v, x) && Conn(g, x, v)
  {
    var n := |base|;
    BaseOnStack(s.stack, base, x);
    forall v | v in s.stack[n..]
      ensures v in s.stack && Conn(g, v, x) && Conn(g, x, v)
    {
      SegmentReachesRoot(g, s, gray, x, base, v);
      var i :| 0 <= i < |s.stack| - n && s.stack[n..][i] == v;
      assert v == s.stack[n + i];
      assert Conn(g, s.stack[n], s.stack[n + i]);
    }
  }

  lemma SegmentDistinct(g: Net, s: State, gray: set<int>, n: nat)
    requires StackOk(g, s, gray) && n <= |s.stack|
    ensures forall i, j :: 0 <= i < j < |s.stack| - n ==> s.stack[n..][i] != s.stack[n..][j]
    ensures forall i :: 0 <= i < |s.stack| - n ==> 0 <= s.stack[n..][i] < |g.ids|
  {
    forall i, j | 0 <= i < j < |s.stack| - n
      ensures s.stack[n..][i] != s.stack[n..][j]
    {
      assert s.index[s.stack[n + i]] < s.index[s.stack[n + j]];
    }
  }

  lemma PopStack(g: Net, s: State, gray: set<int>, x: int, n: nat)
    requires StackOk(g, s, gray + {x}) && n < |s.stack| && s.stack[n] == x
    requires forall h :: h in gray ==> h in s.stack[..n]
    ensures StackOk(g, Pop(g, s, n), gray)
    ensures forall v :: Node(g, v) ==> (Done(g, Pop(g, s, n), v) <==> Done(g, s, v) || v in s.stack[n..])
  {
    SplitStack(g, s, gray + {x}, n);
    assert forall v :: v in s.stack ==> Node(g, v) && s.index[v] >= 0;
  }

  lemma PopArcs(g: Net, s: State, gray: set<int>, x: int, n: nat, seen: set<int>)
    requires Shape(g, s) && ArcsOk(g, s, gray + {x}) && AllSeen(g, x, seen)
    requires forall w :: w in seen ==> Node(g, w) && s.index[w] >= 0
    requires n < |s.stack| && (forall i :: 0 <= i < |s.stack| ==> 0 <= s.stack[i] < |g.ids|)
    requires SegmentClosed(g, s, s.stack[n..])
    requires forall v :: Node(g, v) ==> (Done(g, Pop(g, s, n), v) <==> Done(g, s, v) || v in s.stack[n..])
    ensures ArcsOk(g, Pop(g, s, n), gray)
  {
  }

  lemma PopRoots(g: Net, s: State, gray: set<int>, x: int, base: seq<int>)
    requires StackOk(g, s, gray + {x}) && RootsOk(g, s, gray + {x})
    requires base <= s.stack && |base| < |s.stack| && s.stack[|base|] == x
    requires StackOk(g, Pop(g, s, |base|), gray)
    ensures RootsOk(g, Pop(g, s, |base|), gray)
  {
    var t := Pop(g, s, |base|);
    assert t.stack == base;
    forall v | v in base
      ensures Rooted(g, t, gray, v)
    {
      var i :| 0 <= i < |base| && base[i] == v;
      assert s.stack[i] == v && v in s.stack;
      assert Rooted(g, s, gray + {x}, v);
      var h :| h in gray + {x} && s.index[h] <= s.index[v] && Conn(g, v, h);
      assert s.index[s.stack[i]] < s.index[s.stack[|base|]];
      assert h in gray && t.index[h] <= t.index[v];
    }
  }

  lemma PopSccs(g: Net, s: State, gray: set<int>, n: nat)
    requires g.Ok() && StackOk(g, s, gray) && ArcsOk(g, s, gray) && SccsOk(g, s) && n < |s.stack|
    requires forall i :: 0 <= i < |s.stack| - n ==> 0 <= s.stack[n..][i] < |g.ids|
    requires IsComponent(g, Emitted(g, s.stack[n..]))
    requires forall v :: Node(g, v) ==> (Done(g, Pop(g, s, n), v) <==> Done(g, s, v) || v in s.stack[n..])
    ensures SccsOk(g, Pop(g, s, n))
  {
    var c := Emitted(g, s.stack[n..]);
    SplitStack(g, s, gray, n);
    forall v | Node(g, v)
      ensures Done(g, Pop(g, s, n), v) <==> Listed(s.sccs + [c], g.ids[v])
    {
      ListedSnoc(s.sccs, c, g.ids[v]);
      EmittedHas(g, s.stack[n..], v);
    }
    forall k, p | 0 <= k < |s.sccs| && p in s.sccs[k]
      ensures p !in c
    {
      EmittedIsNew(g, s, gray, n, k, p);
    }
    DisjointSnoc(s.sccs, c);
    forall k, x, y | 0 <= k < |s.sccs| && x in s.sccs[k] && y in c
      ensures !Reach(Induced(g.ids, g.es), x, y)
    {
      EmittedIsUnreached(g, s, gray, n, k, x, y);
    }
    SinksSnoc(g, s.sccs, c);
  }

  lemma SinksSnoc(g: Net, sccs: seq<seq<int>>, c: seq<int>)
    requires SinksFirst(g, sccs)
    requires forall k, x, y :: 0 <= k < |sccs| && x in sccs[k] && y in c ==> !Reach(Induced(g.ids, g.es), x, y)
    ensures SinksFirst(g, sccs + [c])
  {
    hide Reach;
  }

  /** Emitted nodes have arcs to emitted nodes only, so they do not reach the nodes about to be emitted. */
  lemma EmittedIsUnreached(g: Net, s: State, gray: set<int>, n: nat, k: int, x: int, y: int)
    requires g.Ok() && StackOk(g, s, gray) && ArcsOk(g, s, gray) && SccsOk(g, s) && n < |s.stack|
    requires forall i :: 0 <= i < |s.stack| - n ==> 0 <= s.stack[n..][i] < |g.ids|
    requires 0 <= k < |s.sccs| && x in s.sccs[k] && y in Emitted(g, s.stack[n..])
    ensures !Reach(Induced(g.ids, g.es), x, y)
  {
    hide Reach, ArcsOk, SccsOk, Emitted, Done;
    var v := EmittedBefore(g, s, k, x);
    var w := AboutToBe(g, s, gray, n, y);
    DoneStays(g, s, gray, v, w);
  }

  lemma EmittedBefore(g: Net, s: State, k: int, x: int) returns (v: int)
    requires Shape(g, s) && SccsOk(g, s) && 0 <= k < |s.sccs| && x in s.sccs[k]
    ensures Node(g, v) && g.ids[v] == x && Done(g, s, v)
  {
    hide Reach, Disjoint, SinksFirst;
    assert IsComponent(g, s.sccs[k]);
    v :| 0 <= v < |g.ids| && g.ids[v] == x;
    assert Listed(s.sccs, g.ids[v]);
  }

  lemma AboutToBe(g: Net, s: State, gray: set<int>, n: nat, y: int) returns (w: int)
    requires StackOk(g, s, gray) && n < |s.stack|
    requires forall i :: 0 <= i < |s.stack| - n ==> 0 <= s.stack[n..][i] < |g.ids|
    requires y in Emitted(g, s.stack[n..])
    ensures Node(g, w) && g.ids[w] == y && !Done(g, s, w)
  {
    EmittedIds(g, s.stack[n..]);
    w :| w in s.stack[n..] && g.ids[w] == y;
  }

  lemma DoneStays(g: Net, s: State, gray: set<int>, v: int, w: int)
    requires g.Ok() && Shape(g, s) && ArcsOk(g, s, gray) && Done(g, s, v) && !Done(g, s, w)
    ensures !Conn(g, v, w)
  {
    hide Conn, Arc;
    var done := set z | 0 <= z < |g.ids| && Done(g, s, z);
    if Conn(g, v, w) {
      ConnStays(g, done, v, w);
    }
  }

  lemma EmittedHas(g: Net, seg: seq<int>, v: int)
    requires g.Ok() && (forall i :: 0 <= i < |seg| ==> 0 <= seg[i] < |g.ids|) && Node(g, v)
    ensures g.ids[v] in Emitted(g, seg) <==> v in seg
  {
    EmittedIds(g, seg);
    if g.ids[v] in Emitted(g, seg) {
      var w :| w in seg && g.ids[w] == g.ids[v];
      assert w == v;
    }
  }

  lemma EmittedIsNew(g: Net, s: State, gray: set<int>, n: nat, k: int, p: int)
    requires g.Ok() && StackOk(g, s, gray) && SccsOk(g, s) && n < |s.stack|
    requires forall i :: 0 <= i < |s.stack| - n ==> 0 <= s.stack[n..][i] < |g.ids|
    requires 0 <= k < |s.sccs| && p in s.sccs[k]
    ensures p !in Emitted(g, s.stack[n..])
  {
    SplitStack(g, s, gray, n);
    assert IsComponent(g, s.sccs[k]);
    var v :| 0 <= v < |g.ids| && g.ids[v] == p;
    EmittedHas(g, s.stack[n..], v);
    assert Listed(s.sccs, g.ids[v]);
    assert Done(g, s, v);
  }

  lemma ListedSnoc(sccs: seq<seq<int>>, c: seq<int>, id: int)
    ensures Listed(sccs + [c], id) <==> Listed(sccs, id) || id in c
  {
    var t := sccs + [c];
    assert t[|sccs|] == c;
    if Listed(sccs, id) {
      var k :| 0 <= k < |sccs| && id in sccs[k];
      assert id in t[k];
    }
  }

  lemma DisjointSnoc(sccs: seq<seq<int>>, c: seq<int>)
    requires Disjoint(sccs)
    requires forall k, p :: 0 <= k < |sccs| && p in sccs[k] ==> p !in c
    ensures Disjoint(sccs + [c])
  {
  }

  // ----- the whole run

  ghost function Start(g: Net): State {
    State(seq(|g.ids|, _ => -1), seq(|g.ids|, _ => false), [], 0, [])
  }

  lemma StartInv(g: Net)
    requires g.Ok()
    ensures Inv(g, Start(g), {})
  {
    var s := Start(g);
    assert StackOk(g, s, {});
    assert ArcsOk(g, s, {});
    assert SccsOk(g, s);
  }

  /** The list of lists is exactly the set of strongly connected components of the induced subgraph. */
  ghost predicate IsSccPartition(g: Net, sccs: seq<seq<int>>) {
    && (forall id :: id in g.ids ==> Listed(sccs, id))
    && (forall k :: 0 <= k < |sccs| ==> IsComponent(g, sccs[k]))
    && Disjoint(sccs) && SinksFirst(g, sccs)
  }

  lemma AllNumberedIsPartition(g: Net, s: State)
    requires Inv(g, s, {}) && (forall v :: Node(g, v) ==> s.index[v] >= 0)
    ensures IsSccPartition(g, s.sccs) && s.stack == []
  {
    assert s.stack != [] ==> s.stack[0] in s.stack && !Rooted(g, s, {}, s.stack[0]);
    forall id | id in g.ids
      ensures Listed(s.sccs, id)
    {
      var v :| 0 <= v < |g.ids| && g.ids[v] == id;
      assert Done(g, s, v);
    }
  }
}
