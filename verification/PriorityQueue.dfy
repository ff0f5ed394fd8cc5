/** The binary min-heap of `graph-algo.c`, in a growing array. */
module PriorityQueue {
  import opened Sequences

  /** A queued node with the distance it was queued at. */
  datatype Entry = Entry(id: int, dist: real)

  ghost predicate IsHeap(s: seq<Entry>) {
    forall j :: 1 <= j < |s| ==> s[Parent(j)].dist <= s[j].dist
  }

  /** A heap except that the entry at `i` may be smaller than its parent. */
  ghost predicate HeapButUp(s: seq<Entry>, i: int) {
    && (forall j :: 1 <= j < |s| && j != i ==> s[Parent(j)].dist <= s[j].dist)
    && (forall j :: 1 <= j < |s| && 0 < i < |s| && Parent(j) == i ==> s[Parent(i)].dist <= s[j].dist)
  }

  /** A heap except that the entry at `i` may be larger than its children. */
  ghost predicate HeapButDown(s: seq<Entry>, i: int) {
    && (forall j :: 1 <= j < |s| && Parent(j) != i ==> s[Parent(j)].dist <= s[j].dist)
    && (forall j :: 1 <= j < |s| && 0 < i < |s| && Parent(j) == i ==> s[Parent(i)].dist <= s[j].dist)
  }

  function Swap(s: seq<Entry>, i: int, j: int): (r: seq<Entry>)
    requires 0 <= i < |s| && 0 <= j < |s|
    ensures multiset(r) == multiset(s)
  {
    s[i := s[j]][j := s[i]]
  }

  lemma {:induction false} RootIsLeast(s: seq<Entry>, j: int)
    requires IsHeap(s) && 0 <= j < |s|
    ensures s[0].dist <= s[j].dist
    decreases j
  {
    if j > 0 {
      RootIsLeast(s, Parent(j));
    }
  }

  lemma UpStep(s: seq<Entry>, i: int)
    requires HeapButUp(s, i) && 0 < i < |s| && s[Parent(i)].dist > s[i].dist
    ensures HeapButUp(Swap(s, i, Parent(i)), Parent(i))
  {
  }

  lemma DownStep(s: seq<Entry>, i: int, m: int)
    requires HeapButDown(s, i) && 0 <= i < m < |s| && Parent(m) == i && s[m].dist < s[i].dist
    requires forall j :: 1 <= j < |s| && Parent(j) == i ==> s[m].dist <= s[j].dist
    ensures HeapButDown(Swap(s, i, m), m)
  {
  }

  lemma DownEnd(s: seq<Entry>, i: int)
    requires HeapButDown(s, i) && 0 <= i < |s|
    requires forall j :: 1 <= j < |s| && Parent(j) == i ==> s[i].dist <= s[j].dist
    ensures IsHeap(s)
  {
  }

  class MinQueue {
    var aNodes: array<Entry>
    var nUsed: nat

    ghost predicate Valid()
      reads this, aNodes
    {
      nUsed <= aNodes.Length && aNodes.Length > 0 && IsHeap(aNodes[..nUsed])
    }

    ghost function Items(): multiset<Entry>
      reads this, aNodes
      requires nUsed <= aNodes.Length
    {
      multiset(aNodes[..nUsed])
    }

    constructor ()
      ensures Valid() && Items() == multiset{} && fresh(aNodes)
    {
      aNodes := new Entry[16](_ => Entry(0, 0.0));
      nUsed := 0;
    }

    method BubbleUp(k: int, n: int)
      requires 0 <= k < n <= aNodes.Length && HeapButUp(aNodes[..n], k)
      modifies aNodes
      ensures IsHeap(aNodes[..n]) && multiset(aNodes[..n]) == old(multiset(aNodes[..n]))
    {
      var i := k;
      while i > 0 && aNodes[Parent(i)].dist > aNodes[i].dist
        invariant 0 <= i < n && HeapButUp(aNodes[..n], i)
        invariant multiset(aNodes[..n]) == old(multiset(aNodes[..n]))
      {
        ghost var s := aNodes[..n];
        UpStep(s, i);
        aNodes[i], aNodes[Parent(i)] := aNodes[Parent(i)], aNodes[i];
        assert aNodes[..n] == Swap(s, i, Parent(i));
        i := Parent(i);
      }
    }

    method BubbleDown(i: int, n: int)
      requires 0 <= i < n <= aNodes.Length && HeapButDown(aNodes[..n], i)
      modifies aNodes
      ensures IsHeap(aNodes[..n]) && multiset(aNodes[..n]) == old(multiset(aNodes[..n]))
      decreases n - i
    {
      hide IsHeap, HeapButDown;
      var m := i;
      var left, right := 2 * i + 1, 2 * i + 2;
      if left < n && aNodes[left].dist < aNodes[m].dist {
        m := left;
      }
      if right < n && aNodes[right].dist < aNodes[m].dist {
        m := right;
      }
      ghost var s := aNodes[..n];
      assert forall j :: 1 <= j && Parent(j) == i ==> j == left || j == right;
      if m != i {
        DownStep(s, i, m);
        aNodes[i], aNodes[m] := aNodes[m], aNodes[i];
        assert aNodes[..n] == Swap(s, i, m);
        BubbleDown(m, n);
      } else {
        DownEnd(s, i);
      }
    }

    /** Doubles a full array. */
    method EnsureRoom()
      requires nUsed <= aNodes.Length && aNodes.Length > 0
      modifies this`aNodes
      ensures nUsed < aNodes.Length && aNodes[..nUsed] == old(aNodes[..nUsed])
      ensures aNodes == old(aNodes) || fresh(aNodes)
    {
      if nUsed >= aNodes.Length {
        var bigger := new Entry[aNodes.Length * 2](_ => Entry(0, 0.0));
        forall i | 0 <= i < nUsed {
          bigger[i] := aNodes[i];
        }
        aNodes := bigger;
      }
    }

    method Insert(id: int, dist: real)
      requires Valid()
      modifies this, aNodes
      ensures Valid() && Items() == old(Items()) + multiset{Entry(id, dist)}
      ensures aNodes == old(aNodes) || fresh(aNodes)
    {
      hide IsHeap, HeapButUp;
      ghost var s := aNodes[..nUsed];
      EnsureRoom();
      aNodes[nUsed] := Entry(id, dist);
      nUsed := nUsed + 1;
      assert aNodes[..nUsed] == s + [Entry(id, dist)];
      AppendToHeap(s, Entry(id, dist));
      BubbleUp(nUsed - 1, nUsed);
    }

    /** Moves the last entry to the root and lets it sink. */
    method DropRoot(n: nat)
      requires n < aNodes.Length && IsHeap(aNodes[..n + 1])
      modifies aNodes
      ensures IsHeap(aNodes[..n])
      ensures multiset(aNodes[..n]) == old(multiset(aNodes[..n + 1])) - multiset{old(aNodes[0])}
    {
      hide IsHeap, HeapButDown;
      ghost var s := aNodes[..n + 1];
      RemoveRoot(s);
      if n > 0 {
        aNodes[0] := aNodes[n];
        assert aNodes[..n] == s[..n][0 := s[n]];
        BubbleDown(0, n);
      } else {
        assert aNodes[..0] == s[..0];
      }
    }

    /** Removes an entry of least distance; `found` is false when the queue is empty. */
    method ExtractMin() returns (found: bool, e: Entry)
      requires Valid()
      modifies this, aNodes
      ensures Valid() && aNodes == old(aNodes)
      ensures found == (old(Items()) != multiset{})
      ensures found ==> e in old(Items()) && Items() == old(Items()) - multiset{e}
      ensures found ==> forall x: Entry :: x in old(Items()) ==> e.dist <= x.dist
      ensures !found ==> Items() == old(Items())
    {
      hide IsHeap;
      if nUsed == 0 {
        return false, Entry(0, 0.0);
      }
      RootLeastAll(aNodes[..nUsed]);
      found, e := true, aNodes[0];
      nUsed := nUsed - 1;
      DropRoot(nUsed);
    }
  }

  lemma AppendToHeap(s: seq<Entry>, e: Entry)
    requires IsHeap(s)
    ensures HeapButUp(s + [e], |s|)
  {
  }

  lemma RootLeastAll(s: seq<Entry>)
    requires IsHeap(s) && s != []
    ensures s[0] in multiset(s) && forall x: Entry :: x in multiset(s) ==> s[0].dist <= x.dist
  {
    forall x: Entry | x in multiset(s)
      ensures s[0].dist <= x.dist
    {
      var j :| 0 <= j < |s| && s[j] == x;
      RootIsLeast(s, j);
    }
  }

  lemma RemoveRoot(s: seq<Entry>)
    requires |s| > 0 && IsHeap(s)
    ensures var n := |s| - 1;
      n > 0 ==>
        HeapButDown(s[..n][0 := s[n]], 0) && multiset(s[..n][0 := s[n]]) == multiset(s) - multiset{s[0]}
    ensures |s| == 1 ==> IsHeap(s[..0]) && multiset(s[..0]) == multiset(s) - multiset{s[0]}
  {
    var n := |s| - 1;
    assert s == s[..n] + [s[n]];
  }
}
