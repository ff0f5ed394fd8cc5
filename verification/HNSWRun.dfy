/** The index object: adding with links on every level, tombstones, and the two-phase search. */
module HNSWRun {
  import opened Sequences
  import opened Vectors
  import opened Rows
  import opened TopK
  import opened HNSW
  import opened HNSWDescent
  import opened HNSWCollect

  // ----- the exchange sort both phases use

  lemma SwapPermutes(s: seq<Hit>, t: seq<Hit>, i: nat, j: nat)
    requires i < j < |s| == |t| && t == s[i := s[j]][j := s[i]]
    ensures multiset(t) == multiset(s)
  {
    assert s == s[..i] + [s[i]] + s[i + 1..j] + [s[j]] + s[j + 1..];
    assert t == s[..i] + [s[j]] + s[i + 1..j] + [s[i]] + s[j + 1..];
  }

  /** The first `i` are in order and no later one is closer. */
  ghost predicate FrontSorted(s: seq<Hit>, i: nat) {
    forall a, b :: 0 <= a < b < |s| && a < i ==> s[a].dist <= s[b].dist
  }

  /** The inner loop: position `i` ends up holding a least of the rest. */
  method BringLeast(a: array<Hit>, n: nat, i: nat)
    requires i < n <= a.Length && FrontSorted(a[..n], i)
    modifies a
    ensures FrontSorted(a[..n], i + 1) && multiset(a[..n]) == old(multiset(a[..n]))
  {
    hide FrontSorted;
    var j := i + 1;
    while j < n
      invariant i < j <= n
      invariant FrontSorted(a[..n], i) && multiset(a[..n]) == old(multiset(a[..n]))
      invariant forall b :: i < b < j ==> a[i].dist <= a[b].dist
    {
      if a[j].dist < a[i].dist {
        ghost var s := a[..n];
        a[i], a[j] := a[j], a[i];
        SwapPermutes(s, a[..n], i, j);
        SwapSettled(s, a[..n], i, j);
      }
      j := j + 1;
    }
    SettleNext(a[..n], i);
  }

  lemma SettleNext(s: seq<Hit>, i: nat)
    requires FrontSorted(s, i) && forall b :: i < b < |s| ==> s[i].dist <= s[b].dist
    ensures FrontSorted(s, i + 1)
  {
  }

  method ExchangeSort(a: array<Hit>, n: nat)
    requires n <= a.Length
    modifies a
    ensures Ascending(a[..n]) && multiset(a[..n]) == old(multiset(a[..n]))
  {
    var i := 0;
    while i < n
      invariant 0 <= i <= n
      invariant FrontSorted(a[..n], i) && multiset(a[..n]) == old(multiset(a[..n]))
    {
      BringLeast(a, n, i);
      i := i + 1;
    }
  }

  lemma SwapSettled(s: seq<Hit>, t: seq<Hit>, i: nat, j: nat)
    requires i < j < |s| == |t| && t == s[i := s[j]][j := s[i]] && FrontSorted(s, i)
    ensures FrontSorted(t, i)
  {
  }

  // ----- greedy descent on one level

  /** Moves to closer live neighbours until none is left; the neighbour index runs on when the node changes. */
  method GreedyLevel(ns: seq<Node>, q: Point, dist: Metric, l: nat, start: nat) returns (cur: nat)
    requires GraphOk(ns) && start < |ns| && l < MAX_LEVELS
    ensures cur < |ns| && Descends(ns, q, dist, l, start, cur) && LocalMin(ns, q, dist, l, cur)
    ensures Away(ns, q, dist, cur) <= Away(ns, q, dist, start) && (cur == start || !ns[cur].deleted)
  {
    hide Closer, GraphOk, Goes, Draws, LocalMin;
    OkIsShaped(ns);
    cur := start;
    ghost var stops := [Stop(start, 0)];
    var changed := true;
    while changed
      invariant cur < |ns| && (cur == start || !ns[cur].deleted)
      invariant Away(ns, q, dist, cur) <= Away(ns, q, dist, start)
      invariant Chain(ns, q, dist, l, stops) && stops != []
      invariant stops[0] == Stop(start, 0) && stops[|stops| - 1] == Stop(cur, 0)
      invariant !changed ==> Passed(ns, q, dist, l, cur, 0, |N(ns, cur, l)|)
      decreases |Closer(ns, q, dist, Away(ns, q, dist, cur))|, changed
    {
      ghost var d0 := Away(ns, q, dist, cur);
      ghost var a: nat := 0;
      changed := false;
      var i := 0;
      while i < |N(ns, cur, l)|
        invariant cur < |ns| && (cur == start || !ns[cur].deleted) && a <= i && (changed <==> a > 0)
        invariant Away(ns, q, dist, cur) <= d0 && (changed <==> Away(ns, q, dist, cur) < d0)
        invariant changed ==> |Closer(ns, q, dist, Away(ns, q, dist, cur))| < |Closer(ns, q, dist, d0)|
        invariant Chain(ns, q, dist, l, stops) && stops != []
        invariant stops[0] == Stop(start, 0) && stops[|stops| - 1] == Stop(cur, a)
        invariant Passed(ns, q, dist, l, cur, a, i)
        decreases |Closer(ns, q, dist, Away(ns, q, dist, cur))|, MAX_NEIGHBORS - i
      {
        ListBounds(ns, cur, l, i);
        var b := N(ns, cur, l)[i];
        DrawsIs(ns, q, dist, l, cur, i);
        if !ns[b].deleted && Away(ns, q, dist, b) < Away(ns, q, dist, cur) {
          CloserShrinks(ns, q, dist, Away(ns, q, dist, cur), b);
          MoveGoes(ns, q, dist, l, cur, a, i);
          ChainNext(ns, q, dist, l, stops, Stop(b, i + 1));
          stops := stops + [Stop(b, i + 1)];
          cur := b;
          changed := true;
          a := i + 1;
        }
        i := i + 1;
      }
      assert Passed(ns, q, dist, l, cur, a, |N(ns, cur, l)|);
      if changed {
        AgainGoes(ns, q, dist, l, cur, a);
        ChainNext(ns, q, dist, l, stops, Stop(cur, 0));
        stops := stops + [Stop(cur, 0)];
      }
    }
    assert Descent(ns, q, dist, l, start, cur, stops);
    DescendsLocalMin(ns, q, dist, l, start, cur);
  }

  // ----- wiring a new node

  /** Node `n` of `ns0` has been linked on the levels from `lo` up. */
  ghost predicate Wired(ns0: seq<Node>, ns: seq<Node>, n: nat, lo: nat, dist: Metric)
    requires Shaped(ns0) && n < |ns0|
  {
    && Shaped(ns) && SameNodes(ns0, ns)
    && (forall l: nat :: l < MAX_LEVELS ==>
      if lo <= l <= ns0[n].level then Nearest16(ns0, n, l, dist, N(ns, n, l)) else N(ns, n, l) == [])
    && (forall x: nat, l: nat :: x < |ns| && x != n && l < MAX_LEVELS ==>
      N(ns, x, l) == if x in N(ns, n, l) && |N(ns0, x, l)| < MAX_NEIGHBORS then N(ns0, x, l) + [n] else N(ns0, x, l))
  }

  ghost predicate Fresh(ns: seq<Node>, n: nat)
    requires Shaped(ns) && n < |ns|
  {
    forall l: nat :: l < MAX_LEVELS ==> Unlinked(ns, n, l)
  }

  lemma WiredStart(ns0: seq<Node>, n: nat, dist: Metric)
    requires Shaped(ns0) && n < |ns0| && Fresh(ns0, n)
    ensures Wired(ns0, ns0, n, ns0[n].level + 1, dist)
  {
    hide N, Nearest16;
    forall l: nat | l < MAX_LEVELS
      ensures N(ns0, n, l) == []
    {
      assert Unlinked(ns0, n, l);
    }
  }

  lemma WiredUnlinked(ns0: seq<Node>, ns: seq<Node>, n: nat, lo: nat, dist: Metric, l: nat)
    requires Shaped(ns0) && n < |ns0| && Fresh(ns0, n) && Wired(ns0, ns, n, lo, dist) && l < lo && l < MAX_LEVELS
    ensures Unlinked(ns, n, l)
  {
    hide N, Nearest16;
    assert Unlinked(ns0, n, l);
  }

  lemma Nearest16Same(ns: seq<Node>, ns': seq<Node>, n: nat, l: nat, dist: Metric, list: seq<nat>)
    requires SameNodes(ns, ns') && n < |ns|
    ensures Nearest16(ns, n, l, dist, list) <==> Nearest16(ns', n, l, dist, list)
  {
    CandidatesSame(ns, ns', n, l, dist, |ns|);
  }

  lemma WiredStep(ns0: seq<Node>, ns: seq<Node>, ns': seq<Node>, n: nat, l: nat, dist: Metric, cs: seq<nat>)
    requires Shaped(ns0) && n < |ns0| && Fresh(ns0, n) && Wired(ns0, ns, n, l + 1, dist) && l <= ns0[n].level
    requires l < MAX_LEVELS && Shaped(ns) && LinkedTo(ns, ns', n, l, cs) && Nearest16(ns0, n, l, dist, cs)
    ensures Wired(ns0, ns', n, l, dist)
  {
    hide N, Nearest16, Shaped;
    assert Unlinked(ns0, n, l);
    forall x: nat, m: nat | x < |ns'| && x != n && m < MAX_LEVELS
      ensures N(ns', x, m) ==
        if x in N(ns', n, m) && |N(ns0, x, m)| < MAX_NEIGHBORS then N(ns0, x, m) + [n] else N(ns0, x, m)
    {
      assert N(ns, n, l) == [];
      assert N(ns, x, m) ==
        if x in N(ns, n, m) && |N(ns0, x, m)| < MAX_NEIGHBORS then N(ns0, x, m) + [n] else N(ns0, x, m);
      if m != l {
        assert N(ns', n, m) == N(ns, n, m);
      }
    }
  }

  /** The whole effect of an add: the new node's lists are nearest lists, and each is returned where there is room. */
  ghost predicate Added(ns: seq<Node>, ns': seq<Node>, rowid: int, vec: Point, level: nat, dist: Metric) {
    && level < MAX_LEVELS && Shaped(ns)
    && Wired(ns + [Blank(rowid, vec, level)], ns', |ns|, 0, dist)
  }

  function Blank(rowid: int, vec: Point, level: nat): (x: Node)
    ensures |x.nbors| == MAX_LEVELS
  {
    Node(rowid, level, vec, seq(MAX_LEVELS, _ => []), false)
  }

  lemma BlankKeepsGraph(ns: seq<Node>, rowid: int, vec: Point, level: nat)
    requires GraphOk(ns) && level < MAX_LEVELS
    ensures GraphOk(ns + [Blank(rowid, vec, level)]) && Fresh(ns + [Blank(rowid, vec, level)], |ns|)
  {
    hide Distinct;
    var ns' := ns + [Blank(rowid, vec, level)];
    assert Shaped(ns');
    forall a: nat, l: nat | a < |ns'| && l < MAX_LEVELS
      ensures ListOk(ns', a, l) && Returned(ns', a, l) && |ns| !in N(ns', a, l)
    {
      if a < |ns| {
        assert ListOk(ns, a, l) && Returned(ns, a, l);
        assert N(ns', a, l) == N(ns, a, l);
      } else {
        assert N(ns', a, l) == [];
        EmptyDistinct();
      }
    }
  }

  lemma EmptyDistinct()
    ensures Distinct<nat>([])
  {
  }

  // ----- linking one level

  lemma CandidatesNext(ns: seq<Node>, n: nat, l: nat, dist: Metric, i: nat)
    requires n < |ns| && i < |ns|
    ensures Candidates(ns, n, l, dist, i + 1) ==
      Candidates(ns, n, l, dist, i) + if Candidate(ns, n, l, i) then [CandHit(ns, n, dist, i)] else []
  {
  }

  /** The first 16 of the sorted candidates are a nearest list. */
  lemma PrefixIsNearest(ns: seq<Node>, n: nat, l: nat, dist: Metric, s: seq<Hit>)
    requires n < |ns| && Ascending(s) && multiset(s) == multiset(Candidates(ns, n, l, dist, |ns|))
    ensures var hs := s[..Min(MAX_NEIGHBORS, |s|)];
      (forall i :: 0 <= i < |hs| ==> hs[i].rowid >= 0) && Nearest16(ns, n, l, dist, Ids(hs))
  {
    hide Candidates, CandHit, Candidate, Answers;
    var hs := s[..Min(MAX_NEIGHBORS, |s|)];
    forall i | 0 <= i < |hs|
      ensures hs[i].rowid >= 0
    {
      NearestMember(ns, n, l, dist, s, i);
    }
    SortedPrefixAnswers(s, MAX_NEIGHBORS);
    assert IdsOf(hs, Ids(hs));
  }

  lemma LinkedNone(ns: seq<Node>, n: nat, l: nat)
    requires Shaped(ns) && n < |ns| && l < MAX_LEVELS && Unlinked(ns, n, l)
    ensures LinkedTo(ns, ns, n, l, [])
  {
  }

  lemma ChosenNext(ns: seq<Node>, n: nat, l: nat, cs: seq<nat>, i: nat)
    requires n < |ns| && Choosable(ns, n, l, cs) && i < |cs|
    ensures i < MAX_NEIGHBORS && cs[i] < |ns| && cs[i] != n && cs[i] !in cs[..i]
  {
    assert cs[i] in cs;
  }

  /** Gathers the candidates of a level, sorts them and keeps the first 16. */
  method ChooseNearest(ns: seq<Node>, n: nat, l: nat, dist: Metric) returns (cs: seq<nat>)
    requires n < |ns|
    ensures Nearest16(ns, n, l, dist, cs)
  {
    hide Candidates, Nearest16, CandHit, Ascending;
    var a := new Hit[|ns|](_ => Hit(0, 0.0));
    var count := 0;
    var i := 0;
    assert a[..0] == Candidates(ns, n, l, dist, 0);
    while i < |ns|
      invariant 0 <= i <= |ns| && count <= i && a[..count] == Candidates(ns, n, l, dist, i)
    {
      CandidatesNext(ns, n, l, dist, i);
      if Candidate(ns, n, l, i) {
        a[count] := CandHit(ns, n, dist, i);
        count := count + 1;
      }
      i := i + 1;
    }
    ExchangeSort(a, count);
    PrefixIsNearest(ns, n, l, dist, a[..count]);
    cs := Ids(a[..count][..Min(MAX_NEIGHBORS, count)]);
  }

  // ----- steps of the index

  /** Changing a node's row or tombstone leaves the graph as it was. */
  lemma RewriteKeepsGraph(ns: seq<Node>, i: nat, x: Node)
    requires GraphOk(ns) && i < |ns| && x.level == ns[i].level && x.nbors == ns[i].nbors
    ensures GraphOk(ns[i := x])
  {
    hide Distinct;
    var ns' := ns[i := x];
    assert Shaped(ns');
    assert forall a: nat, l: nat :: a < |ns| && l < MAX_LEVELS ==> N(ns', a, l) == N(ns, a, l);
    forall a: nat, l: nat | a < |ns| && l < MAX_LEVELS
      ensures ListOk(ns', a, l) && Returned(ns', a, l)
    {
      assert ListOk(ns, a, l) && Returned(ns, a, l);
    }
  }

  /** The first node is linked to nothing, there being no candidates. */
  lemma FirstIsWired(ns: seq<Node>, dist: Metric)
    requires Shaped(ns) && |ns| == 1 && Fresh(ns, 0)
    ensures Wired(ns, ns, 0, 0, dist)
  {
    forall l: nat | l < MAX_LEVELS
      ensures N(ns, 0, l) == [] && Nearest16(ns, 0, l, dist, [])
    {
      assert Unlinked(ns, 0, l);
      assert Candidates(ns, 0, l, dist, 1) == [];
      var none: seq<Hit> := [];
      assert IdsOf(none, []) && Answers(none, multiset(none), MAX_NEIGHBORS);
    }
  }

  lemma WiredFacts(ns0: seq<Node>, ns: seq<Node>, n: nat, lo: nat, dist: Metric)
    requires Shaped(ns0) && n < |ns0| && Wired(ns0, ns, n, lo, dist)
    ensures Shaped(ns) && SameNodes(ns0, ns) && Entries(ns) == Entries(ns0)
    ensures |ns| == |ns0| && ns[n].level == ns0[n].level
  {
    EntriesSame(ns0, ns);
  }

  lemma EntriesAdd(ns: seq<Node>, rowid: int, vec: Point, level: nat)
    ensures Entries(ns + [Blank(rowid, vec, level)]) == Entries(ns) + multiset{Row(rowid, vec)}
  {
    assert (ns + [Blank(rowid, vec, level)])[..|ns|] == ns;
  }

  ghost predicate IsLive(x: Node, rowid: int) { x.rowid == rowid && !x.deleted }

  /** Without a live node of a rowid no row has it. */
  lemma {:induction false} NoLiveNoRow(ns: seq<Node>, rowid: int)
    requires forall i :: 0 <= i < |ns| ==> !IsLive(ns[i], rowid)
    ensures forall r :: r in Entries(ns) ==> r.rowid != rowid
  {
    if ns != [] {
      var n := |ns| - 1;
      NoLiveNoRow(ns[..n], rowid);
      assert !IsLive(ns[n], rowid);
    }
  }

  ghost predicate HasRowid(u: multiset<Row>, rowid: int) { exists r :: r in u && r.rowid == rowid }

  /** `u` without one row of the rowid. */
  ghost predicate LessOne(u: multiset<Row>, u': multiset<Row>, rowid: int) {
    exists r :: r in u && r.rowid == rowid && u' == u - multiset{r}
  }

  lemma LiveHasRow(ns: seq<Node>, i: nat, rowid: int)
    requires i < |ns| && IsLive(ns[i], rowid)
    ensures HasRowid(Entries(ns), rowid)
    ensures LessOne(Entries(ns), Entries(Tombstoned(ns, i)), rowid)
  {
    EntriesUpdate(ns, i, ns[i].(deleted := true));
    var r := Row(rowid, ns[i].vec);
    assert r in Entry(ns[i]);
    assert Entry(ns[i]) == multiset{r};
    assert r in Entries(ns);
  }

  /** `u` with the vector of one row of the rowid replaced. */
  ghost predicate Replaced(u: multiset<Row>, u': multiset<Row>, rowid: int, vec: Point) {
    exists r :: r in u && r.rowid == rowid && u' == u - multiset{r} + multiset{Row(rowid, vec)}
  }

  lemma OverwriteRow(ns: seq<Node>, i: nat, rowid: int, vec: Point)
    requires i < |ns| && IsLive(ns[i], rowid)
    ensures Replaced(Entries(ns), Entries(ns[i := ns[i].(vec := vec)]), rowid, vec)
  {
    EntriesUpdate(ns, i, ns[i].(vec := vec));
    var r := Row(rowid, ns[i].vec);
    assert Entry(ns[i]) == multiset{r};
    assert r in Entries(ns);
  }

  /** The first live node with the rowid from `i` on, or the number of nodes. */
  ghost function LiveIndex(ns: seq<Node>, rowid: int, i: nat): (r: nat)
    requires i <= |ns|
    ensures i <= r <= |ns| && (r < |ns| ==> IsLive(ns[r], rowid))
    ensures forall j :: i <= j < r ==> !IsLive(ns[j], rowid)
    decreases |ns| - i
  {
    if i == |ns| || IsLive(ns[i], rowid) then i else LiveIndex(ns, rowid, i + 1)
  }

  method FindLive(ns: seq<Node>, rowid: int) returns (i: nat)
    ensures i == LiveIndex(ns, rowid, 0)
  {
    i := 0;
    while i < |ns| && !(ns[i].rowid == rowid && !ns[i].deleted)
      invariant 0 <= i <= |ns| && LiveIndex(ns, rowid, 0) == LiveIndex(ns, rowid, i)
    {
      i := i + 1;
    }
  }

  function Tombstoned(ns: seq<Node>, i: nat): seq<Node>
    requires i < |ns|
  {
    ns[i := ns[i].(deleted := true)]
  }

  // ----- the index

  /** Some node at or after `e` is live. */
  ghost predicate LiveFrom(ns: seq<Node>, e: int) {
    exists i: nat :: e <= i < |ns| && !ns[i].deleted
  }

  /** `Missing`: the search ran off the nodes before it found a live one to start from. */
  datatype Outcome = Hits(out: seq<Hit>) | Missing

  /** `out` is the topk nearest of hits gathered from the live node `from`. */
  ghost predicate AnswersGathered(ns: seq<Node>, from: nat, q: Point, ef: nat, topk: nat, m: RowidMap, dist: Metric,
                                  out: seq<Hit>, seen: seq<nat>, hits: seq<Hit>)
    requires Shaped(ns)
  {
    Gathered(ns, from, q, m, dist, ef, seen, hits) && Answers(out, multiset(hits), topk)
  }

  /**
   * A search that started at the live node `ep` and came down to `from` through every level above the ground, no
   * farther
   * and with no closer live neighbour on level 1.
   */
  ghost predicate SearchedFrom(ns: seq<Node>, ep: nat, from: nat, maxLevel: nat, q: Point, ef: nat, topk: nat,
                               m: RowidMap, dist: Metric, out: seq<Hit>)
    requires GraphOk(ns) && ep < |ns| && from < |ns| && maxLevel < MAX_LEVELS
  {
    && !ns[from].deleted && (maxLevel > 0 ==> LocalMin(ns, q, dist, 1, from))
    && Away(ns, q, dist, from) <= Away(ns, q, dist, ep) && ComesDown(ns, q, dist, maxLevel, ep, from)
    && exists seen, hits :: AnswersGathered(ns, from, q, ef, topk, m, dist, out, seen, hits)
  }

  ghost predicate IsFirstLive(ns: seq<Node>, e: int, ep: nat) {
    e <= ep < |ns| && !ns[ep].deleted && forall i: nat :: e <= i < ep ==> ns[i].deleted
  }

  class Index {
    const maxNodes: nat
    var nodes: seq<Node>
    var entry: int
    var maxLevel: nat

    /** The graph is well formed and the entry node is on the top level. */
    ghost predicate Valid()
      reads this
    {
      && GraphOk(nodes) && |nodes| <= maxNodes
      && (nodes == [] ==> entry == -1)
      && (nodes != [] ==> 0 <= entry < |nodes| && nodes[entry].level == maxLevel)
      && forall i :: 0 <= i < |nodes| ==> nodes[i].level <= maxLevel
    }

    constructor (capacity: nat)
      ensures Valid() && nodes == [] && maxNodes == capacity
      ensures Entries(nodes) == multiset{}
    {
      maxNodes := capacity;
      nodes, entry, maxLevel := [], -1, 0;
    }

    /** The upper-level descent of an add. */
    method Descend(q: Point, level: nat, dist: Metric) returns (cur: nat)
      requires GraphOk(nodes) && 0 <= entry < |nodes| && maxLevel < MAX_LEVELS
      ensures cur < |nodes| && Away(nodes, q, dist, cur) <= Away(nodes, q, dist, entry)
    {
      cur := entry;
      var l := maxLevel;
      while l > level
        invariant l <= maxLevel && cur < |nodes| && Away(nodes, q, dist, cur) <= Away(nodes, q, dist, entry)
      {
        if !nodes[cur].deleted {
          cur := GreedyLevel(nodes, q, dist, l, cur);
        }
        l := l - 1;
      }
    }

    /** Links the new node `n` with its nearest nodes on level `l`, both ways where there is room. */
    method LinkLevel(n: nat, l: nat, dist: Metric) returns (cs: seq<nat>)
      requires GraphOk(nodes) && n < |nodes| && l < MAX_LEVELS && l <= nodes[n].level && Unlinked(nodes, n, l)
      modifies this`nodes
      ensures LinkedTo(old(nodes), nodes, n, l, cs) && Nearest16(old(nodes), n, l, dist, cs) && GraphOk(nodes)
    {
      hide GraphOk, N, Candidates, LinkedTo, Nearest16, Choosable, Unlinked, Connect, SameNodes;
      ghost var was := nodes;
      OkIsShaped(was);
      cs := ChooseNearest(nodes, n, l, dist);
      Nearest16Choosable(was, n, l, dist, cs);
      LinkedNone(was, n, l);
      var i := 0;
      while i < |cs|
        invariant 0 <= i <= |cs| && LinkedTo(was, nodes, n, l, cs[..i])
      {
        LinkedShape(was, nodes, n, l, cs[..i]);
        ChosenNext(was, n, l, cs, i);
        LinkOne(was, nodes, n, l, cs[..i], cs[i]);
        nodes := Connect(nodes, n, cs[i], l);
        nodes := Connect(nodes, cs[i], n, l);
        assert cs[..i + 1] == cs[..i] + [cs[i]];
        i := i + 1;
      }
      assert cs[..i] == cs;
      LinkedKeepsGraph(was, nodes, n, l, cs);
    }

    /**
     * `hnsw_add`: refused when full; otherwise the new node gets its nearest live nodes on each of its levels,
     * each of which links back while it has room. The level is the caller's random draw.
     */
    method Add(vec: Point, rowid: int, level: nat, dist: Metric) returns (ok: bool)
      requires Valid() && level < MAX_LEVELS
      modifies this
      ensures Valid() && ok == (|old(nodes)| < maxNodes)
      ensures !ok ==> nodes == old(nodes)
      ensures ok ==> Added(old(nodes), nodes, rowid, vec, level, dist)
      ensures ok ==> Entries(nodes) == old(Entries(nodes)) + multiset{Row(rowid, vec)}
      ensures entry == if ok && (old(nodes) == [] || level > old(maxLevel)) then |old(nodes)| else old(entry)
    {
      hide Returned, ListOk, N, Wired, Unlinked, Nearest16, LinkedTo, Entries, Away;
      if |nodes| >= maxNodes {
        return false;
      }
      ghost var was := nodes;
      var n := |nodes|;
      BlankKeepsGraph(nodes, rowid, vec, level);
      EntriesAdd(nodes, rowid, vec, level);
      nodes := nodes + [Blank(rowid, vec, level)];
      ghost var ns0 := nodes;
      ok := true;
      if entry == -1 {
        entry, maxLevel := 0, level;
        FirstIsWired(nodes, dist);
        return;
      }
      var _ := Descend(vec, level, dist);
      Wire(n, level, dist);
      WiredFacts(ns0, nodes, n, 0, dist);
      if level > maxLevel {
        maxLevel, entry := level, n;
      }
    }

    /** Links the new node on each of its levels, from the top down. */
    method Wire(n: nat, level: nat, dist: Metric)
      requires GraphOk(nodes) && n < |nodes| && nodes[n].level == level && Fresh(nodes, n)
      modifies this`nodes
      ensures GraphOk(nodes) && Wired(old(nodes), nodes, n, 0, dist)
    {
      hide GraphOk, SameNodes, N, Wired, Unlinked, Nearest16, LinkedTo, Fresh, Entries;
      ghost var ns0 := nodes;
      OkIsShaped(ns0);
      WiredStart(ns0, n, dist);
      var l := level + 1;
      while l > 0
        invariant 0 <= l <= level + 1 && GraphOk(nodes) && Wired(ns0, nodes, n, l, dist)
      {
        l := l - 1;
        WiredFacts(ns0, nodes, n, l + 1, dist);
        WiredUnlinked(ns0, nodes, n, l + 1, dist, l);
        ghost var before := nodes;
        var cs := LinkLevel(n, l, dist);
        Nearest16Same(ns0, before, n, l, dist, cs);
        WiredStep(ns0, before, nodes, n, l, dist, cs);
      }
    }

    /** `hnsw_delete`: one live node of the rowid, if there is any, becomes a tombstone. */
    method Delete(rowid: int)
      requires Valid()
      modifies this
      ensures Valid()
      ensures if old(HasRowid(Entries(nodes), rowid)) then LessOne(old(Entries(nodes)), Entries(nodes), rowid)
        else nodes == old(nodes)
      ensures var i := LiveIndex(old(nodes), rowid, 0); i < |old(nodes)| ==> nodes == Tombstoned(old(nodes), i)
      ensures entry == old(entry)
    {
      hide GraphOk, Entries, LessOne, LiveIndex;
      var i := FindLive(nodes, rowid);
      if i == |nodes| {
        NoLiveNoRow(nodes, rowid);
        return;
      }
      LiveHasRow(nodes, i, rowid);
      RewriteKeepsGraph(nodes, i, nodes[i].(deleted := true));
      nodes := Tombstoned(nodes, i);
    }

    /**
     * `hnsw_update`: the row is overwritten in place, or tombstoned and added again. A reinserting update of a
     * full index loses the row.
     */
    method Update(rowid: int, vec: Point, reinsert: bool, level: nat, dist: Metric) returns (ok: bool)
      requires Valid() && level < MAX_LEVELS
      modifies this
      ensures Valid()
      ensures !old(HasRowid(Entries(nodes), rowid)) ==> ok && nodes == old(nodes)
      ensures old(HasRowid(Entries(nodes), rowid)) ==> ok == (!reinsert || |old(nodes)| < maxNodes)
      ensures old(HasRowid(Entries(nodes), rowid)) && ok ==> Replaced(old(Entries(nodes)), Entries(nodes), rowid, vec)
      ensures old(HasRowid(Entries(nodes), rowid)) && !ok ==> LessOne(old(Entries(nodes)), Entries(nodes), rowid)
      ensures LiveIndex(old(nodes), rowid, 0) < |old(nodes)| <==> old(HasRowid(Entries(nodes), rowid))
      ensures
        var i := LiveIndex(old(nodes), rowid, 0);
        i < |old(nodes)| ==>
          if !reinsert then nodes == old(nodes)[i := old(nodes)[i].(vec := vec)]
          else if ok then Added(Tombstoned(old(nodes), i), nodes, rowid, vec, level, dist)
          else nodes == Tombstoned(old(nodes), i)
      ensures reinsert || entry == old(entry)
    {
      hide GraphOk, Entries, LessOne, Replaced, Added, LiveIndex;
      var i := FindLive(nodes, rowid);
      if i == |nodes| {
        NoLiveNoRow(nodes, rowid);
        return true;
      }
      LiveHasRow(nodes, i, rowid);
      if !reinsert {
        OverwriteRow(nodes, i, rowid, vec);
        RewriteKeepsGraph(nodes, i, nodes[i].(vec := vec));
        nodes := nodes[i := nodes[i].(vec := vec)];
        return true;
      }
      ghost var was := Entries(nodes);
      RewriteKeepsGraph(nodes, i, nodes[i].(deleted := true));
      nodes := Tombstoned(nodes, i);
      ghost var less := Entries(nodes);
      ok := Add(vec, rowid, level, dist);
      if ok {
        PutBack(was, less, Entries(nodes), rowid, vec);
      }
    }

    /** The first live node at or after the entry; the loop runs off the nodes exactly when there is none. */
    method FirstLive() returns (ep: nat)
      requires Valid()
      ensures ep <= |nodes| && (ep < |nodes| <==> LiveFrom(nodes, entry))
      ensures ep < |nodes| ==> IsFirstLive(nodes, entry, ep)
    {
      hide GraphOk;
      if entry < 0 {
        return |nodes|;
      }
      ep := entry;
      while ep < |nodes| && nodes[ep].deleted
        invariant entry <= ep <= |nodes| && forall i: nat :: entry <= i < ep ==> nodes[i].deleted
      {
        ep := ep + 1;
      }
    }

    /** The descent through the levels above the ground. */
    method ComeDown(q: Point, dist: Metric, ep: nat) returns (cur: nat)
      requires GraphOk(nodes) && maxLevel < MAX_LEVELS && ep < |nodes| && !nodes[ep].deleted
      ensures cur < |nodes| && !nodes[cur].deleted && ComesDown(nodes, q, dist, maxLevel, ep, cur)
      ensures Away(nodes, q, dist, cur) <= Away(nodes, q, dist, ep)
      ensures maxLevel > 0 ==> LocalMin(nodes, q, dist, 1, cur)
    {
      hide GraphOk, LocalMin, Away, Descends;
      OkIsShaped(nodes);
      cur := ep;
      var l := maxLevel;
      ghost var points: seq<nat> := seq(maxLevel + 1, _ => ep);
      while l > 0
        invariant 0 <= l <= maxLevel && cur < |nodes| && !nodes[cur].deleted
        invariant |points| == maxLevel + 1 && points[maxLevel] == ep && points[l] == cur
        invariant forall m :: l < m <= maxLevel ==> Descends(nodes, q, dist, m, points[m], points[m - 1])
        invariant Away(nodes, q, dist, cur) <= Away(nodes, q, dist, ep)
        invariant l == 0 && maxLevel > 0 ==> LocalMin(nodes, q, dist, 1, cur)
      {
        cur := GreedyLevel(nodes, q, dist, l, cur);
        l := l - 1;
        points := points[l := cur];
      }
    }

    /**
     * `hnsw_search`: a greedy descent, then a ground-level collection sorted and cut to `topk`. Without a live node at
     * or after the entry there is no node to start from.
     */
    method Search(q: Point, ef: nat, topk: nat, m: RowidMap, dist: Metric) returns (r: Outcome)
      requires Valid() && SortedIds(m.rowids)
      ensures r.Hits? <==> LiveFrom(nodes, entry)
      ensures r.Hits? ==> exists ep: nat, from: nat ::
        && ep < |nodes| && from < |nodes| && maxLevel < MAX_LEVELS && IsFirstLive(nodes, entry, ep)
        && SearchedFrom(nodes, ep, from, maxLevel, q, ef, topk, m, dist, r.out)
    {
      hide Gathered, Ascending, LocalMin, Away, ListOk, Returned, LiveFrom, IsFirstLive, ComesDown;
      var ep: nat := FirstLive();
      if ep == |nodes| {
        return Missing;
      }
      StartIsLive(nodes, entry, ep);
      var cur := ComeDown(q, dist, ep);
      var a := new Hit[ef](_ => Hit(0, 0.0));
      var results;
      ghost var seen;
      results, seen := CollectFrom(nodes, cur, q, ef, m, dist, a);
      ghost var hits := a[..results];
      ExchangeSort(a, results);
      SortedPrefixAnswers(a[..results], topk);
      r := Hits(a[..results][..Min(topk, results)]);
      assert AnswersGathered(nodes, cur, q, ef, topk, m, dist, r.out, seen, hits);
      assert SearchedFrom(nodes, ep, cur, maxLevel, q, ef, topk, m, dist, r.out);
    }
  }

  lemma StartIsLive(ns: seq<Node>, e: int, ep: nat)
    requires IsFirstLive(ns, e, ep)
    ensures !ns[ep].deleted
  {
  }

  // ----- reachable failures

  /** The rows of a node list by what an add makes of them. */
  lemma AddedNodes(ns: seq<Node>, ns': seq<Node>, rowid: int, vec: Point, level: nat, dist: Metric)
    requires Added(ns, ns', rowid, vec, level, dist)
    ensures |ns'| == |ns| + 1
    ensures forall i :: 0 <= i < |ns| ==>
      ns'[i].rowid == ns[i].rowid && ns'[i].level == ns[i].level && ns'[i].deleted == ns[i].deleted
    ensures ns'[|ns|].rowid == rowid && ns'[|ns|].level == level && !ns'[|ns|].deleted
  {
    var ns0 := ns + [Blank(rowid, vec, level)];
    assert SameNodes(ns0, ns');
    assert forall i :: 0 <= i < |ns0| ==>
      ns'[i].rowid == ns0[i].rowid && ns'[i].level == ns0[i].level && ns'[i].deleted == ns0[i].deleted;
  }

  /**
   * Two adds and a delete after which a row is live and every search fails: the second row drew a higher level, became
   * the entry and was deleted, and the first sits before it.
   */
  method StrandedRow(v: Point, w: Point, dist: Metric) returns (h: Index)
    ensures fresh(h) && h.Valid() && h.maxNodes > |h.nodes|
    ensures Entries(h.nodes) == multiset{Row(1, v)} && !LiveFrom(h.nodes, h.entry)
  {
    hide GraphOk, Entries, Added, LessOne, LiveIndex, LiveFrom, HasRowid, Tombstoned;
    h := new Index(4096);
    var _ := h.Add(v, 1, 0, dist);
    AddedNodes([], h.nodes, 1, v, 0, dist);
    ghost var one := h.nodes;
    var _ := h.Add(w, 2, 1, dist);
    AddedNodes(one, h.nodes, 2, w, 1, dist);
    SecondIsCut(h.nodes);
    assert Entries(h.nodes) == multiset{Row(1, v)} + multiset{Row(2, w)};
    h.Delete(2);
    OnlyOther(Row(1, v), Row(2, w), Entries(h.nodes));
  }

  lemma SecondIsCut(ns: seq<Node>)
    requires |ns| == 2 && ns[0].rowid == 1 && ns[1].rowid == 2 && !ns[1].deleted
    ensures LiveIndex(ns, 2, 0) == 1 && HasRowid(Entries(ns), 2)
    ensures |Tombstoned(ns, 1)| == 2 && !LiveFrom(Tombstoned(ns, 1), 1)
  {
    assert IsLive(ns[1], 2) && !IsLive(ns[0], 2);
    LiveHasRow(ns, 1, 2);
  }

  lemma OnlyOther(a: Row, b: Row, u: multiset<Row>)
    requires a.rowid != b.rowid && LessOne(multiset{a} + multiset{b}, u, b.rowid)
    ensures u == multiset{a}
  {
    var r :| r in multiset{a} + multiset{b} && r.rowid == b.rowid && u == multiset{a} + multiset{b} - multiset{r};
    assert r == b;
  }

  /** An index of capacity 1: its only row is updated with reinsertion and is gone. */
  method FullUpdateLoses(v: Point, w: Point, dist: Metric) returns (h: Index)
    ensures fresh(h) && h.Valid() && Entries(h.nodes) == multiset{}
  {
    hide GraphOk, Entries, Added, LiveIndex;
    h := new Index(1);
    var added := h.Add(v, 1, 0, dist);
    assert Entries(h.nodes) == multiset{Row(1, v)};
    assert Row(1, v) in Entries(h.nodes);
    AddedNodes([], h.nodes, 1, v, 0, dist);
    var ok := h.Update(1, w, true, 0, dist);
    assert !ok;
    ghost var r :| r in multiset{Row(1, v)} && r.rowid == 1 && Entries(h.nodes) == multiset{Row(1, v)} - multiset{r};
  }

  lemma PutBack(u: multiset<Row>, less: multiset<Row>, now: multiset<Row>, rowid: int, vec: Point)
    requires LessOne(u, less, rowid) && now == less + multiset{Row(rowid, vec)}
    ensures Replaced(u, now, rowid, vec)
  {
  }
}
