/** IVF search: which inverted lists are probed and what is collected from them. */
module IVFSearch {
  import opened Sequences
  import opened Vectors
  import opened Rows
  import opened TopK
  import opened BoundedHeap
  import opened HeapOrder

  // ----- probed lists

  function Iota(n: nat): (r: seq<nat>)
    ensures |r| == n && forall i :: 0 <= i < n ==> r[i] == i
  {
    seq(n, i => i)
  }

  /** The rows of the lists named by `ids`, in order. */
  function Probed(lists: seq<seq<Row>>, ids: seq<nat>): (r: seq<Row>)
    requires forall i :: 0 <= i < |ids| ==> ids[i] < |lists|
  {
    if ids == [] then [] else Probed(lists, ids[..|ids| - 1]) + lists[ids[|ids| - 1]]
  }

  /** All stored rows, list by list. */
  function AllRows(lists: seq<seq<Row>>): seq<Row> {
    Probed(lists, Iota(|lists|))
  }

  /** What a list holds, the empty bag for a number that names none. */
  ghost function ListBag(lists: seq<seq<Row>>): nat -> multiset<Row> {
    (c: nat) => if c < |lists| then multiset(lists[c]) else multiset{}
  }

  lemma {:induction false} ProbedIsGather(lists: seq<seq<Row>>, ids: seq<nat>)
    requires Below(ids, |lists|)
    ensures multiset(Probed(lists, ids)) == Gather(ids, ListBag(lists))
  {
    if ids != [] {
      ProbedIsGather(lists, ids[..|ids| - 1]);
    }
  }

  /** The order of the probed lists does not matter for what they hold. */
  lemma ProbedPermuted(lists: seq<seq<Row>>, a: seq<nat>, b: seq<nat>)
    requires Below(a, |lists|) && Below(b, |lists|) && multiset(a) == multiset(b)
    ensures multiset(Probed(lists, a)) == multiset(Probed(lists, b))
  {
    ProbedIsGather(lists, a);
    ProbedIsGather(lists, b);
    GatherPermuted(a, b, ListBag(lists));
  }

  /** `ids` names min(nprobe, n) different lists in ascending centroid distance, none of the others being closer. */
  ghost predicate IsProbe(ds: seq<real>, nprobe: nat, ids: seq<nat>) {
    && |ids| == Min(nprobe, |ds|) && Below(ids, |ds|) && Distinct(ids)
    && (forall i, j :: 0 <= i < j < |ids| ==> ds[ids[i]] <= ds[ids[j]])
    && (forall i, c :: 0 <= i < |ids| && 0 <= c < |ds| && c !in ids ==> ds[ids[i]] <= ds[c])
  }

  /** As many distinct numbers as there are below `n` are all of them. */
  lemma DistinctIsIota(ids: seq<nat>, n: nat)
    requires Below(ids, n) && Distinct(ids) && |ids| == n
    ensures multiset(ids) == multiset(Iota(n))
  {
    forall c: nat
      ensures multiset(ids)[c] == multiset(Iota(n))[c]
    {
      CountInDistinct(ids, c);
      CountInDistinct(Iota(n), c);
      if c < n {
        assert Iota(n)[c] == c;
        if c !in ids {
          DistinctFit(ids + [c], n);
        }
      }
    }
  }

  /** Probing every list finds exactly what a scan of all stored rows finds. */
  lemma ProbeAllIsScan(lists: seq<seq<Row>>, ds: seq<real>, nprobe: nat, ids: seq<nat>, q: Point, m: RowidMap,
                       dist: Metric)
    requires |ds| == |lists| <= nprobe && IsProbe(ds, nprobe, ids)
    ensures multiset(Probed(lists, ids)) == multiset(AllRows(lists))
    ensures multiset(Scan(Probed(lists, ids), q, m, dist)) == multiset(Scan(AllRows(lists), q, m, dist))
  {
    DistinctIsIota(ids, |lists|);
    ProbedPermuted(lists, ids, Iota(|lists|));
    ScanPermuted(Probed(lists, ids), AllRows(lists), q, m, dist);
  }

  /** Position of a smallest distance among `idxs[i..]`. */
  method SmallestFrom(ds: seq<real>, idxs: seq<nat>, i: nat) returns (best: nat)
    requires i < |idxs| && Below(idxs, |ds|)
    ensures i <= best < |idxs|
    ensures forall j :: i <= j < |idxs| ==> ds[idxs[best]] <= ds[idxs[j]]
  {
    best := i;
    var j := i + 1;
    while j < |idxs|
      invariant i < j <= |idxs| && i <= best < j
      invariant forall l :: i <= l < j ==> ds[idxs[best]] <= ds[idxs[l]]
    {
      if ds[idxs[j]] < ds[idxs[best]] {
        best := j;
      }
      j := j + 1;
    }
  }

  ghost predicate PartlySorted(ds: seq<real>, idxs: seq<nat>, i: nat)
    requires i <= |idxs| && Below(idxs, |ds|)
  {
    forall a, b :: 0 <= a < i && a < b < |idxs| ==> ds[idxs[a]] <= ds[idxs[b]]
  }

  lemma SelectStep(ds: seq<real>, idxs: seq<nat>, i: nat, best: nat)
    requires i <= best < |idxs| && Below(idxs, |ds|) && PartlySorted(ds, idxs, i)
    requires forall j :: i <= j < |idxs| ==> ds[idxs[best]] <= ds[idxs[j]]
    ensures var t := idxs[i := idxs[best]][best := idxs[i]];
      Below(t, |ds|) && PartlySorted(ds, t, i + 1) && multiset(t) == multiset(idxs) && (Distinct(idxs) ==> Distinct(t))
  {
  }

  /** One round of the selection sort. */
  method SelectOne(ds: seq<real>, idxs: array<nat>, i: nat)
    requires i < idxs.Length && Below(idxs[..], |ds|) && PartlySorted(ds, idxs[..], i) && Distinct(idxs[..])
    modifies idxs
    ensures Below(idxs[..], |ds|) && PartlySorted(ds, idxs[..], i + 1) && Distinct(idxs[..])
    ensures multiset(idxs[..]) == old(multiset(idxs[..]))
  {
    hide PartlySorted, Distinct;
    ghost var before := idxs[..];
    var best := SmallestFrom(ds, idxs[..], i);
    SelectStep(ds, before, i, best);
    idxs[i], idxs[best] := idxs[best], idxs[i];
    assert idxs[..] == before[i := before[best]][best := before[i]];
  }

  /** `select_nprobe`: a selection sort of the list numbers, stopped after `nprobe` of them. */
  method SelectNprobe(cents: seq<Point>, q: Point, nprobe: nat, dist: Metric) returns (ids: seq<nat>)
    ensures IsProbe(Distances(cents, q, dist), nprobe, ids)
  {
    hide PartlySorted, IsProbe, Distinct;
    var n := |cents|;
    var ds := new real[n](i requires 0 <= i < n => dist(q, cents[i]));
    var idxs := new nat[n](i => i);
    ghost var dseq := Distances(cents, q, dist);
    assert ds[..] == dseq && idxs[..] == Iota(n);
    SelectStart(dseq, idxs[..]);
    var k := if nprobe > n then n else nprobe;
    var i := 0;
    while i < k
      modifies idxs
      invariant 0 <= i <= k && ds[..] == dseq
      invariant multiset(idxs[..]) == multiset(Iota(n)) && Below(idxs[..], n) && PartlySorted(dseq, idxs[..], i)
      invariant Distinct(idxs[..])
    {
      SelectOne(ds[..], idxs, i);
      i := i + 1;
    }
    ids := idxs[..k];
    SelectEnd(dseq, idxs[..], nprobe, k);
  }

  lemma SelectStart(ds: seq<real>, idxs: seq<nat>)
    requires idxs == Iota(|ds|)
    ensures PartlySorted(ds, idxs, 0) && Distinct(idxs)
  {
  }

  lemma SelectEnd(ds: seq<real>, idxs: seq<nat>, nprobe: nat, k: nat)
    requires k == Min(nprobe, |ds|) && |idxs| == |ds| && Below(idxs, |ds|) && Distinct(idxs)
    requires multiset(idxs) == multiset(Iota(|ds|)) && PartlySorted(ds, idxs, k)
    ensures IsProbe(ds, nprobe, idxs[..k])
  {
    assert forall a :: 0 <= a < k ==> idxs[..k][a] == idxs[a];
    assert forall a :: 0 <= a < k ==> idxs[a] in idxs[..k];
    forall i, c | 0 <= i < k && 0 <= c < |ds| && c !in idxs[..k]
      ensures ds[idxs[i]] <= ds[c]
    {
      assert Iota(|ds|)[c] == c;
      assert c in multiset(idxs);
      var b :| 0 <= b < |idxs| && idxs[b] == c;
    }
  }

  ghost function Distances(cents: seq<Point>, q: Point, dist: Metric): (r: seq<real>)
    ensures |r| == |cents| && forall i :: 0 <= i < |r| ==> r[i] == dist(q, cents[i])
  {
    seq(|cents|, i requires 0 <= i < |cents| => dist(q, cents[i]))
  }

  // ----- the heap on an array

  /** The larger child of position `i` when it exceeds it, else `i`. */
  method PickLargest(heap: array<Hit>, n: nat, i: nat) returns (largest: nat)
    requires i < n <= heap.Length
    ensures largest == Largest(heap[..n], i)
  {
    hide Largest;
    var l, r := 2 * i + 1, 2 * i + 2;
    largest := i;
    if l < n && heap[l].dist > heap[largest].dist {
      largest := l;
    }
    if r < n && heap[r].dist > heap[largest].dist {
      largest := r;
    }
    LargestIs(heap[..n], i, largest);
  }

  lemma SiftStep(s: seq<Hit>, i: nat)
    requires i < |s|
    ensures var m := Largest(s, i);
      if m == i then Sift(s, i) == s else i < m < |s| && Sift(s, i) == Sift(Swapped(s, i, m), m)
  {
    hide Swapped;
  }

  /** One sift of the heap held in the first `n` cells. */
  method SiftDown(heap: array<Hit>, n: nat, start: nat)
    requires start < n <= heap.Length
    modifies heap
    ensures heap[..n] == Sift(old(heap[..n]), start) && heap[n..] == old(heap[n..])
  {
    hide Largest, Sift;
    var i := start;
    while true
      invariant i < n && heap[n..] == old(heap[n..])
      invariant Sift(heap[..n], i) == Sift(old(heap[..n]), start)
      decreases n - i
    {
      ghost var s := heap[..n];
      var largest := PickLargest(heap, n, i);
      SiftStep(s, i);
      if largest == i {
        break;
      }
      heap[i], heap[largest] := heap[largest], heap[i];
      assert heap[..n] == Swapped(s, i, largest);
      i := largest;
    }
  }

  lemma LargestIs(s: seq<Hit>, i: nat, m: nat)
    requires i < |s|
    requires var l := 2 * i + 1; var r := l + 1;
      var a := if l < |s| && s[l].dist > s[i].dist then l else i;
      m == if r < |s| && s[r].dist > s[a].dist then r else a
    ensures m == Largest(s, i)
  {
  }

  method HeapifyArray(heap: array<Hit>, n: nat)
    requires n == heap.Length
    modifies heap
    ensures heap[..n] == Heapify(old(heap[..n]), n / 2)
  {
    hide Sift;
    var p := n / 2;
    while p > 0
      invariant 0 <= p <= n / 2
      invariant Heapify(heap[..n], p) == Heapify(old(heap[..n]), n / 2)
      decreases p
    {
      ghost var s := heap[..n];
      SiftDown(heap, n, p - 1);
      assert Heapify(s, p) == Heapify(Sift(s, p - 1), p - 1);
      p := p - 1;
    }
  }

  /** Offers one candidate to the slots in the first `size` cells. */
  method PushHit(heap: array<Hit>, size: nat, h: Hit) returns (size': nat)
    requires 0 < heap.Length && size <= heap.Length
    modifies heap
    ensures size <= size' <= heap.Length && heap[..size'] == Push(old(heap[..size]), heap.Length, h)
  {
    hide Sift, Heapify;
    ghost var s := heap[..size];
    if size < heap.Length {
      heap[size] := h;
      size' := size + 1;
      assert heap[..size'] == s + [h];
      if size' == heap.Length {
        HeapifyArray(heap, size');
      }
    } else {
      size' := size;
      if h.dist < heap[0].dist {
        heap[0] := h;
        assert heap[..size] == s[0 := h];
        SiftDown(heap, size, 0);
      }
    }
  }

  /** Scans one inverted list into the slots. */
  method ScanList(rows: seq<Row>, q: Point, m: RowidMap, dist: Metric, heap: array<Hit>, size: nat, ghost hs: seq<Hit>)
    returns (size': nat)
    requires SortedIds(m.rowids) && 0 < heap.Length && size <= heap.Length
    requires heap[..size] == PushAll([], heap.Length, hs)
    modifies heap
    ensures size' <= heap.Length && heap[..size'] == PushAll([], heap.Length, hs + Scan(rows, q, m, dist))
  {
    hide Push;
    size' := size;
    var j := 0;
    assert hs + [] == hs;
    while j < |rows|
      invariant 0 <= j <= |rows| && size' <= heap.Length
      invariant heap[..size'] == PushAll([], heap.Length, hs + Scan(rows[..j], q, m, dist))
    {
      var valid := Contains(m.rowids, rows[j].rowid);
      ScanSnoc(rows, j, q, m, dist, hs);
      if valid || !m.preFilter {
        PushAllSnoc(heap.Length, hs + Scan(rows[..j], q, m, dist), HitOf(q, dist, rows[j]));
        size' := PushHit(heap, size', Hit(rows[j].rowid, dist(q, rows[j].point)));
      }
      j := j + 1;
    }
    assert rows[..j] == rows;
  }

  lemma ScanSnoc(rows: seq<Row>, j: nat, q: Point, m: RowidMap, dist: Metric, hs: seq<Hit>)
    requires j < |rows|
    ensures Passes(m, rows[j].rowid) ==>
      hs + Scan(rows[..j + 1], q, m, dist) == (hs + Scan(rows[..j], q, m, dist)) + [HitOf(q, dist, rows[j])]
    ensures !Passes(m, rows[j].rowid) ==>
      hs + Scan(rows[..j + 1], q, m, dist) == hs + Scan(rows[..j], q, m, dist)
  {
    assert rows[..j + 1] == rows[..j] + [rows[j]];
    ScanConcat(rows[..j], [rows[j]], q, m, dist);
    assert [rows[j]][1..] == [];
    assert Scan([rows[j]], q, m, dist) ==
      (if Passes(m, rows[j].rowid) then [HitOf(q, dist, rows[j])] else []) + Scan([], q, m, dist);
  }

  lemma PushAllSnoc(k: nat, hs: seq<Hit>, h: Hit)
    requires 0 < k
    ensures PushAll([], k, hs + [h]) == Push(PushAll([], k, hs), k, h)
  {
    assert (hs + [h])[..|hs|] == hs;
  }

  /** Takes the root out of the first `n` cells. */
  method TakeRoot(heap: array<Hit>, n: nat) returns (h: Hit)
    requires 0 < n <= heap.Length
    modifies heap
    ensures h == old(heap[0]) && heap[..n - 1] == Rest(old(heap[..n]))
  {
    hide Sift, Rest;
    ghost var s := heap[..n];
    RestIs(s);
    h := heap[0];
    heap[0] := heap[n - 1];
    if n > 1 {
      assert heap[..n - 1] == s[..n - 1][0 := s[n - 1]];
      SiftDown(heap, n - 1, 0);
    }
  }

  lemma DrainStep(s: seq<Hit>, tail: seq<Hit>)
    requires s != []
    ensures Drain(s) + tail == Drain(Rest(s)) + ([s[0]] + tail)
  {
    hide Rest, Sift;
    Reassociate(Drain(Rest(s)), [s[0]], tail);
  }

  lemma RestIs(s: seq<Hit>)
    requires s != []
    ensures |s| > 1 ==> Rest(s) == Sift(s[..|s| - 1][0 := s[|s| - 1]], 0)
    ensures |s| == 1 ==> Rest(s) == []
  {
    hide Sift;
  }

  /** Reads the slots out by heapsort, filling the buffer from the back. */
  method DrainHeap(heap: array<Hit>, size: nat) returns (buf: array<Hit>)
    requires size <= heap.Length
    modifies heap
    ensures fresh(buf) && buf[..] == Drain(old(heap[..size]))
  {
    hide Drain, Rest, Sift;
    buf := new Hit[size](_ => Hit(0, 0.0));
    ghost var d := Drain(heap[..size]);
    var i := size;
    assert buf[i..] == [];
    while i > 0
      invariant 0 <= i <= size
      invariant d == Drain(heap[..i]) + buf[i..]
    {
      ghost var s, tail := heap[..i], buf[i..];
      DrainStep(s, tail);
      var h := TakeRoot(heap, i);
      PutFront(buf, i - 1, h);
      assert buf[i - 1..] == [s[0]] + tail;
      i := i - 1;
    }
    assert heap[..0] == [] && buf[0..] == buf[..];
    DrainEmpty();
  }

  method PutFront(buf: array<Hit>, i: nat, h: Hit)
    requires i < buf.Length
    modifies buf
    ensures buf[i..] == [h] + old(buf[i + 1..])
  {
    buf[i] := h;
  }

  lemma DrainEmpty()
    ensures Drain([]) == []
  {
  }

  /**
   `ivf_search` over the given lists. With at least `topk` passing rows in the probed lists the
   result is their `topk` nearest in ascending order, otherwise a rearrangement of all of them.
   */
  method Search(cents: seq<Point>, lists: seq<seq<Row>>, nprobe: nat, topk: int, q: Point, m: RowidMap, dist: Metric)
    returns (res: seq<Hit>, ghost ids: seq<nat>)
    requires |cents| == |lists| && SortedIds(m.rowids)
    ensures topk <= 0 ==> res == []
    ensures topk > 0 ==> IsProbe(Distances(cents, q, dist), nprobe, ids) && Below(ids, |lists|)
    ensures topk > 0 ==> res == Output(Scan(Probed(lists, ids), q, m, dist), topk)
    ensures topk > 0 ==> IsTopK(multiset(res), multiset(Scan(Probed(lists, ids), q, m, dist)), topk)
    ensures topk > 0 && |Scan(Probed(lists, ids), q, m, dist)| >= topk ==> Ascending(res)
    ensures topk > 0 && |Scan(Probed(lists, ids), q, m, dist)| < topk ==>
      ReadOut(Scan(Probed(lists, ids), q, m, dist), res)
  {
    hide ReadOut, Output, IsTopK, PushAll, Scan, Ascending, Distinct, Probed;
    if topk <= 0 {
      return [], [];
    }
    var cids := SelectNprobe(cents, q, nprobe, dist);
    ids := cids;
    var heap := new Hit[topk](_ => Hit(0, 0.0));
    var size := CollectProbed(lists, cids, q, m, dist, heap);
    var buf := DrainHeap(heap, size);
    res := buf[..];
    OutputIs(Scan(Probed(lists, ids), q, m, dist), topk);
    OutputCorrect(Scan(Probed(lists, ids), q, m, dist), topk);
    if |Scan(Probed(lists, ids), q, m, dist)| < topk {
      ShortOutput(Scan(Probed(lists, ids), q, m, dist), topk);
    }
  }

  lemma OutputIs(hs: seq<Hit>, k: nat)
    requires 0 < k
    ensures Output(hs, k) == Drain(PushAll([], k, hs))
  {
  }

  method CollectProbed(lists: seq<seq<Row>>, ids: seq<nat>, q: Point, m: RowidMap, dist: Metric, heap: array<Hit>)
    returns (size: nat)
    requires Below(ids, |lists|) && SortedIds(m.rowids) && 0 < heap.Length
    modifies heap
    ensures size <= heap.Length && heap[..size] == PushAll([], heap.Length, Scan(Probed(lists, ids), q, m, dist))
  {
    size := 0;
    var ci := 0;
    assert ids[..0] == [];
    while ci < |ids|
      invariant 0 <= ci <= |ids| && size <= heap.Length
      invariant heap[..size] == PushAll([], heap.Length, Scan(Probed(lists, ids[..ci]), q, m, dist))
    {
      ghost var before := Probed(lists, ids[..ci]);
      assert ids[..ci + 1][..ci] == ids[..ci];
      ScanConcat(before, lists[ids[ci]], q, m, dist);
      size := ScanList(lists[ids[ci]], q, m, dist, heap, size, Scan(before, q, m, dist));
      ci := ci + 1;
    }
    assert ids[..ci] == ids;
  }
}
