/** The in-place search of `tarjanStrongConnect`, proved against the state machine of module Tarjan. */
module TarjanRun {
  import opened Graphs
  import opened Tarjan

  /** `getNodeIndex`: binary search for an id; -1 when it is not registered. */
  method GetNodeIndex(ids: seq<int>, id: int) returns (r: int)
    requires forall i, j :: 0 <= i < j < |ids| ==> ids[i] < ids[j]
    ensures if id in ids then 0 <= r < |ids| && ids[r] == id else r == -1
  {
    var left, right := 0, |ids| - 1;
    while left <= right
      invariant 0 <= left && right < |ids|
      invariant forall i :: 0 <= i < |ids| && !(left <= i <= right) ==> ids[i] != id
    {
      var mid := (left + right) / 2;
      if ids[mid] == id {
        return mid;
      } else if ids[mid] < id {
        left := mid + 1;
      } else {
        right := mid - 1;
      }
    }
    return -1;
  }

  class TarjanState {
    const g: Net
    const aIndex: array<int>
    const aLowLink: array<int>
    const aOnStack: array<bool>
    var pStack: seq<int>
    var nIndex: int
    var azSCC: seq<seq<int>>

    ghost predicate Valid() {
      && aIndex.Length == aLowLink.Length == aOnStack.Length == |g.ids|
      && aIndex != aLowLink
    }

    ghost function Snap(): State
      reads this, aIndex, aOnStack
    {
      State(aIndex[..], aOnStack[..], pStack, nIndex, azSCC)
    }

    constructor (net: Net)
      ensures g == net && Valid() && Snap() == Start(net)
      ensures fresh(aIndex) && fresh(aLowLink) && fresh(aOnStack)
    {
      g := net;
      aIndex := new int[|net.ids|](_ => -1);
      aLowLink := new int[|net.ids|](_ => -1);
      aOnStack := new bool[|net.ids|](_ => false);
      pStack, nIndex, azSCC := [], 0, [];
      new;
      assert aIndex[..] == seq(|net.ids|, _ => -1);
      assert aOnStack[..] == seq(|net.ids|, _ => false);
    }

    /** Numbers `x` and pushes it. */
    method Enter(x: int)
      requires Valid() && 0 <= x < |g.ids|
      modifies this, aIndex, aLowLink, aOnStack
      ensures Snap() == Push(old(Snap()), x)
      ensures aLowLink[..] == old(aLowLink[..])[x := old(nIndex)]
    {
      aIndex[x] := nIndex;
      aLowLink[x] := nIndex;
      nIndex := nIndex + 1;
      pStack := pStack + [x];
      aOnStack[x] := true;
    }

    /** Pops the stack down to and including `x` and records the popped ids as one component. */
    method EmitComponent(x: int, ghost n: nat, ghost gray: set<int>)
      requires Valid() && StackOk(g, Snap(), gray) && n < |pStack| && pStack[n] == x
      modifies this, aOnStack
      ensures Snap() == Pop(g, old(Snap()), n)
    {
      hide StackOk, Popping, Pop;
      ghost var s := Snap();
      var scc := [];
      PopStart(g, s, gray);
      StackDistinct(g, s, gray);
      while pStack != []
        invariant n < |pStack| && Popping(g, s, pStack, scc, aOnStack[..])
        invariant aIndex[..] == s.index && nIndex == s.count && azSCC == s.sccs
        decreases |pStack|
      {
        PopNext(g, s, gray, pStack, scc, aOnStack[..]);
        var idx := pStack[|pStack| - 1];
        scc := scc + [g.ids[idx]];
        aOnStack[idx] := false;
        pStack := pStack[..|pStack| - 1];
        if idx == x {
          break;
        }
      }
      PopEnd(g, s, gray, pStack, scc, aOnStack[..], n);
      azSCC := azSCC + [scc];
    }

    /** One row of the successor scan of the open node `x`. */
    method ScanRow(x: int, to: int, ghost gray: set<int>, ghost base: seq<int>, ghost seen: set<int>)
      requires Valid() && Arc(g, x, to) && Scanning(g, Snap(), gray, x, base, seen, aLowLink[x])
      modifies this, aIndex, aLowLink, aOnStack
      ensures Scanning(g, Snap(), gray, x, base, seen + {to}, aLowLink[x])
      ensures Grows(g, old(Snap()), Snap())
      ensures forall v :: Node(g, v) && old(aIndex[v]) >= 0 && v != x ==> aLowLink[v] == old(aLowLink[v])
      decreases White(g, Snap()), 2
    {
      hide SccsOk, ArcsOk, RootsOk, ChainOk, LowOk, AboveOk, Conn, Rooted;
      ghost var s := Snap();
      ghost var low := aLowLink[x];
      if aIndex[to] == -1 {
        CallersReach(g, s, gray, x, base, to, seen, low);
        StrongConnect(to, gray + {x});
        ghost var t := Snap();
        ScanChild(g, s, gray, x, base, seen, low, to, t, aLowLink[to]);
        CalledGrows(g, s, gray + {x}, to, t, aLowLink[to]);
        if aLowLink[to] < aLowLink[x] {
          aLowLink[x] := aLowLink[to];
        }
        assert Snap() == t;
      } else {
        ScanVisited(g, s, gray, x, base, seen, low, to);
        if aOnStack[to] {
          if aIndex[to] < aLowLink[x] {
            aLowLink[x] := aIndex[to];
          }
        }
        assert Snap() == s;
      }
    }

    /** One call on an undiscovered node. `gray` holds the callers' nodes, all of which reach `x`. */
    method StrongConnect(x: int, ghost gray: set<int>)
      requires Valid() && Inv(g, Snap(), gray) && Node(g, x) && aIndex[x] == -1
      requires forall h :: h in gray ==> Conn(g, h, x)
      modifies this, aIndex, aLowLink, aOnStack
      ensures Called(g, old(Snap()), gray, x, Snap(), aLowLink[x])
      ensures forall v :: Node(g, v) && old(aIndex[v]) >= 0 ==> aLowLink[v] == old(aLowLink[v])
      ensures White(g, Snap()) <= White(g, old(Snap()))
      decreases White(g, Snap()), 1
    {
      hide Inv, Scanning, AllSeen, Grows, Called, White, Conn;
      ghost var s := Snap();
      InvShape(g, s, gray);
      ghost var seen := Open(x, gray);
      ghost var e := Snap();
      OpenedFacts(g, s, gray, x, e, seen, aLowLink[x]);
      if aLowLink[x] == aIndex[x] {
        CalledRoot(g, s, gray, x, e, seen, aLowLink[x]);
        EmitComponent(x, |s.stack|, gray + {x});
        SameWhite(g, e, Snap());
      } else {
        CalledInner(g, s, gray, x, e, seen, aLowLink[x]);
      }
    }

    /** The first half of a call: `x` is numbered, pushed and all its successors are scanned. */
    method Open(x: int, ghost gray: set<int>) returns (ghost seen: set<int>)
      requires Valid() && Inv(g, Snap(), gray) && Node(g, x) && aIndex[x] == -1
      requires forall h :: h in gray ==> Conn(g, h, x)
      modifies this, aIndex, aLowLink, aOnStack
      ensures Scanning(g, Snap(), gray, x, old(pStack), seen, aLowLink[x]) && AllSeen(g, x, seen)
      ensures Grows(g, Push(old(Snap()), x), Snap())
      ensures forall v :: Node(g, v) && old(aIndex[v]) >= 0 ==> aLowLink[v] == old(aLowLink[v])
      decreases White(g, Snap()), 0
    {
      hide Inv, Scanning, AllSeen, Grows, Conn;
      ghost var s := Snap();
      InvShape(g, s, gray);
      ScanStart(g, s, gray, x);
      PushKeepsInv(g, s, gray, x);
      Enter(x);
      assert x in White(g, s);
      seen := ScanAll(x, gray, s.stack);
    }

    /** All rows of the successor query of the open node `x`. */
    method ScanAll(x: int, ghost gray: set<int>, ghost base: seq<int>) returns (ghost seen: set<int>)
      requires Valid() && Node(g, x) && Scanning(g, Snap(), gray, x, base, {}, aLowLink[x])
      modifies this, aIndex, aLowLink, aOnStack
      ensures Scanning(g, Snap(), gray, x, base, seen, aLowLink[x]) && AllSeen(g, x, seen)
      ensures Grows(g, old(Snap()), Snap())
      ensures forall v :: Node(g, v) && old(aIndex[v]) >= 0 && v != x ==> aLowLink[v] == old(aLowLink[v])
      decreases White(g, Snap()), 3
    {
      hide Scanning, Grows, Rows, Arc, AllSeen, White;
      ghost var p := Snap();
      ScanFacts(g, p, gray, x, base, {}, aLowLink[x]);
      var rows := Rows(g.es, g.ids[x]);
      seen := {};
      var r := 0;
      while r < |rows|
        invariant 0 <= r <= |rows|
        invariant Scanning(g, Snap(), gray, x, base, seen, aLowLink[x])
        invariant Shape(g, p) && Shape(g, Snap()) && Grows(g, p, Snap()) && White(g, Snap()) <= White(g, p)
        invariant forall v :: Node(g, v) && p.index[v] >= 0 ==> aIndex[v] >= 0
        invariant forall v :: Node(g, v) && p.index[v] >= 0 && v != x ==> aLowLink[v] == old(aLowLink[v])
        invariant forall j, w :: 0 <= j < r && Node(g, w) && g.ids[w] == rows[j].to ==> w in seen
      {
        var to := GetNodeIndex(g.ids, rows[r].to);
        if to >= 0 {
          assert rows[r] in rows;
          ArcOfRow(g, x, to, rows[r]);
          ghost var q := Snap();
          ScanRow(x, to, gray, base, seen);
          GrowsTrans(g, p, q, Snap());
          GrowsFacts(g, p, Snap());
          seen := seen + {to};
        }
        r := r + 1;
      }
      AllRowsSeen(g, x, rows, seen);
    }
  }

  lemma InvShape(g: Net, s: State, gray: set<int>)
    requires Inv(g, s, gray)
    ensures Shape(g, s)
  {
  }

  lemma SameWhite(g: Net, s: State, t: State)
    requires Shape(g, s) && Shape(g, t) && s.index == t.index
    ensures White(g, s) == White(g, t)
  {
  }

  /** What an opened node offers to the code that closes it. */
  lemma OpenedFacts(g: Net, s: State, gray: set<int>, x: int, e: State, seen: set<int>, low: int)
    requires Shape(g, s) && Node(g, x) && s.index[x] == -1 && Grows(g, Push(s, x), e)
    requires Scanning(g, e, gray, x, s.stack, seen, low)
    ensures Shape(g, e) && StackOk(g, e, gray + {x}) && |s.stack| < |e.stack| && e.stack[|s.stack|] == x
    ensures White(g, e) <= White(g, s)
  {
    hide ArcsOk, RootsOk, ChainOk, SccsOk, LowOk;
    BaseOnStack(e.stack, s.stack, x);
    assert White(g, Push(s, x)) <= White(g, s);
  }

  lemma ScanFacts(g: Net, s: State, gray: set<int>, x: int, base: seq<int>, seen: set<int>, low: int)
    requires Scanning(g, s, gray, x, base, seen, low)
    ensures Shape(g, s) && Grows(g, s, s) && forall i, j :: 0 <= i < j < |g.ids| ==> g.ids[i] < g.ids[j]
  {
  }

  lemma GrowsFacts(g: Net, s: State, t: State)
    requires Grows(g, s, t)
    ensures Shape(g, s) && Shape(g, t) && White(g, t) <= White(g, s)
    ensures forall v :: Node(g, v) && s.index[v] >= 0 ==> t.index[v] == s.index[v]
  {
  }

  /** The nodes above `stack` have been moved to `scc`. */
  ghost predicate Popping(g: Net, s: State, stack: seq<int>, scc: seq<int>, onStack: seq<bool>) {
    && |stack| <= |s.stack| && stack == s.stack[..|stack|]
    && (forall i :: 0 <= i < |s.stack| ==> 0 <= s.stack[i] < |g.ids|)
    && scc == Emitted(g, s.stack[|stack|..])
    && |onStack| == |g.ids| && forall v :: 0 <= v < |g.ids| ==> (onStack[v] <==> v in stack)
  }

  lemma PopStart(g: Net, s: State, gray: set<int>)
    requires StackOk(g, s, gray)
    ensures Popping(g, s, s.stack, [], s.onStack)
  {
    assert forall v :: 0 <= v < |g.ids| ==> Node(g, v);
    assert forall i :: 0 <= i < |s.stack| ==> Node(g, s.stack[i]);
  }

  lemma PopNext(g: Net, s: State, gray: set<int>, stack: seq<int>, scc: seq<int>, onStack: seq<bool>)
    requires StackOk(g, s, gray) && Popping(g, s, stack, scc, onStack) && stack != []
    ensures var n := |stack| - 1;
      && 0 <= stack[n] < |g.ids| && |onStack| == |g.ids| && n < |s.stack| && stack[n] == s.stack[n]
      && Popping(g, s, stack[..n], scc + [g.ids[stack[n]]], onStack[stack[n] := false])
  {
    hide StackOk, Emitted;
    var n := |stack| - 1;
    StackDistinct(g, s, gray);
    assert s.stack[n..] == [stack[n]] + s.stack[|stack|..];
    EmittedCons(g, stack[n], s.stack[|stack|..]);
    PopOne(stack, g);
  }

  lemma PopEnd(g: Net, s: State, gray: set<int>, stack: seq<int>, scc: seq<int>, onStack: seq<bool>, n: nat)
    requires StackOk(g, s, gray) && Popping(g, s, stack, scc, onStack) && |stack| == n
    ensures (forall i :: 0 <= i < |s.stack| ==> 0 <= s.stack[i] < |g.ids|) && Shape(g, s) && n <= |s.stack|
    ensures Pop(g, s, n) == State(s.index, onStack, stack, s.count, s.sccs + [scc])
  {
    hide Emitted;
    SplitStack(g, s, gray, n);
    assert onStack == Pop(g, s, n).onStack;
  }

  lemma EmittedCons(g: Net, v: int, seg: seq<int>)
    requires 0 <= v < |g.ids| && forall i :: 0 <= i < |seg| ==> 0 <= seg[i] < |g.ids|
    ensures Emitted(g, [v] + seg) == Emitted(g, seg) + [g.ids[v]]
  {
  }

  lemma PopOne(stack: seq<int>, g: Net)
    requires stack != [] && forall i, j :: 0 <= i < j < |stack| ==> stack[i] != stack[j]
    ensures forall v :: v in stack[..|stack| - 1] <==> v in stack && v != stack[|stack| - 1]
  {
  }

  lemma ArcOfRow(g: Net, x: int, to: int, e: Edge)
    requires Node(g, x) && Node(g, to) && e in Rows(g.es, g.ids[x]) && e.to == g.ids[to]
    ensures Arc(g, x, to)
  {
    assert e in Induced(g.ids, g.es);
  }

  lemma AllRowsSeen(g: Net, x: int, rows: seq<Edge>, seen: set<int>)
    requires Node(g, x) && rows == Rows(g.es, g.ids[x])
    requires forall j, w :: 0 <= j < |rows| && Node(g, w) && g.ids[w] == rows[j].to ==> w in seen
    ensures AllSeen(g, x, seen)
  {
    forall w | Arc(g, x, w)
      ensures w in seen
    {
      var e :| e in Induced(g.ids, g.es) && e.from == g.ids[x] && e.to == g.ids[w];
      assert e in rows;
      var j :| 0 <= j < |rows| && rows[j] == e;
    }
  }

  /** Numbering, components and the discovered set only grow while a node is open. */
  ghost predicate Grows(g: Net, s: State, t: State) {
    && Shape(g, s) && Shape(g, t) && s.sccs <= t.sccs && s.count <= t.count
    && (forall v :: Node(g, v) && s.index[v] >= 0 ==> t.index[v] == s.index[v])
    && White(g, t) <= White(g, s)
  }

  lemma GrowsTrans(g: Net, p: State, s: State, t: State)
    requires Grows(g, p, s) && Grows(g, s, t)
    ensures Grows(g, p, t)
  {
  }

  lemma CalledGrows(g: Net, s: State, gray: set<int>, x: int, t: State, low: int)
    requires Called(g, s, gray, x, t, low) && White(g, t) <= White(g, s)
    ensures Grows(g, s, t)
  {
    assert t.index[x] < t.count;
  }

  lemma CalledInner(g: Net, s: State, gray: set<int>, x: int, e: State, seen: set<int>, low: int)
    requires Shape(g, s) && Node(g, x) && s.index[x] == -1 && Grows(g, Push(s, x), e)
    requires Scanning(g, e, gray, x, s.stack, seen, low) && AllSeen(g, x, seen) && low != e.index[x]
    ensures Called(g, s, gray, x, e, low)
  {
    LeaveInner(g, e, gray, x, s.stack, seen, low);
    BaseOnStack(e.stack, s.stack, x);
    assert e.index[x] == Push(s, x).index[x];
    assert forall v :: Node(g, v) && s.index[v] >= 0 ==> Push(s, x).index[v] == s.index[v];
  }

  lemma CalledRoot(g: Net, s: State, gray: set<int>, x: int, e: State, seen: set<int>, low: int)
    requires Shape(g, s) && Node(g, x) && s.index[x] == -1 && Grows(g, Push(s, x), e)
    requires Scanning(g, e, gray, x, s.stack, seen, low) && AllSeen(g, x, seen) && low == e.index[x]
    ensures |s.stack| < |e.stack| && Called(g, s, gray, x, Pop(g, e, |s.stack|), low)
  {
    LeaveRoot(g, e, gray, x, s.stack, seen, low);
    assert e.index[x] == Push(s, x).index[x];
    assert forall v :: Node(g, v) && s.index[v] >= 0 ==> Push(s, x).index[v] == s.index[v];
  }

  lemma CallersReach(g: Net, s: State, gray: set<int>, x: int, base: seq<int>, to: int, seen: set<int>, low: int)
    requires Scanning(g, s, gray, x, base, seen, low) && Arc(g, x, to)
    ensures forall h :: h in gray + {x} ==> Conn(g, h, to)
  {
    BaseOnStack(s.stack, base, x);
    ConnArc(g, x, to);
    forall h | h in gray
      ensures Conn(g, h, to)
    {
      var i :| 0 <= i < |base| && base[i] == h;
      assert s.stack[i] == h;
      assert Conn(g, s.stack[i], s.stack[|base|]);
      ConnTrans(g, h, x, to);
    }
  }

  /**
   `graphStronglyConnectedComponents` over a registered node list: the emitted lists are the
   strongly connected components, each node in exactly one.
   */
  method StronglyConnectedComponents(g: Net) returns (sccs: seq<seq<int>>)
    requires g.Ok()
    ensures IsSccPartition(g, sccs)
  {
    if |g.ids| == 0 {
      return [];
    }
    var state := new TarjanState(g);
    StartInv(g);
    var i := 0;
    while i < |g.ids|
      invariant 0 <= i <= |g.ids| && state.g == g && state.Valid()
      invariant fresh(state) && fresh(state.aIndex) && fresh(state.aLowLink) && fresh(state.aOnStack)
      invariant Inv(g, state.Snap(), {})
      invariant forall v :: 0 <= v < i ==> state.aIndex[v] >= 0
    {
      if state.aIndex[i] == -1 {
        state.StrongConnect(i, {});
      }
      i := i + 1;
    }
    AllNumberedIsPartition(g, state.Snap());
    sccs := state.azSCC;
  }
}
