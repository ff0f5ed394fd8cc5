/** The layered neighbour graph: what linking keeps, greedy descent, and live reachability on the ground level. */
module HNSW {
  import opened Sequences
  import opened Vectors
  import opened Rows
  import opened TopK

  const MAX_NEIGHBORS: nat := 16
  const MAX_LEVELS: nat := 8

  /** A node; its id is its position. A deleted node stays as a tombstone. */
  datatype Node = Node(rowid: int, level: nat, vec: Point, nbors: seq<seq<nat>>, deleted: bool)

  ghost predicate Shaped(ns: seq<Node>) {
    forall i :: 0 <= i < |ns| ==> |ns[i].nbors| == MAX_LEVELS && ns[i].level < MAX_LEVELS
  }

  /** The neighbours of node `a` on level `l`. */
  function N(ns: seq<Node>, a: nat, l: nat): seq<nat>
    requires Shaped(ns) && a < |ns| && l < MAX_LEVELS
  {
    ns[a].nbors[l]
  }

  /** At most 16 distinct valid other nodes that reach the level, and none above the node's own level. */
  ghost predicate ListOk(ns: seq<Node>, a: nat, l: nat)
    requires Shaped(ns) && a < |ns| && l < MAX_LEVELS
  {
    var s := N(ns, a, l);
    && |s| <= MAX_NEIGHBORS && Distinct(s) && (s != [] ==> l <= ns[a].level)
    && forall b :: b in s ==> b < |ns| && b != a && ns[b].level >= l
  }

  /** A link is returned unless the other node's list is full. */
  ghost predicate Returned(ns: seq<Node>, a: nat, l: nat)
    requires Shaped(ns) && a < |ns| && l < MAX_LEVELS
  {
    forall b :: b in N(ns, a, l) ==> b < |ns| && (a in N(ns, b, l) || |N(ns, b, l)| == MAX_NEIGHBORS)
  }

  ghost predicate GraphOk(ns: seq<Node>) {
    Shaped(ns) && forall a: nat, l: nat :: a < |ns| && l < MAX_LEVELS ==> ListOk(ns, a, l) && Returned(ns, a, l)
  }

  lemma OkIsShaped(ns: seq<Node>)
    requires GraphOk(ns)
    ensures Shaped(ns)
  {
  }

  lemma ListBounds(ns: seq<Node>, c: nat, l: nat, i: nat)
    requires GraphOk(ns) && c < |ns| && l < MAX_LEVELS && Shaped(ns) && i < |N(ns, c, l)|
    ensures |N(ns, c, l)| <= MAX_NEIGHBORS && N(ns, c, l)[i] < |ns|
  {
    assert ListOk(ns, c, l);
    assert N(ns, c, l)[i] in N(ns, c, l);
  }

  // ----- linking

  /** `connect_nodes`. */
  function Connect(ns: seq<Node>, a: nat, b: nat, l: nat): seq<Node>
    requires Shaped(ns) && a < |ns| && l < MAX_LEVELS
  {
    if |ns[a].nbors[l]| < MAX_NEIGHBORS
    then ns[a := ns[a].(nbors := ns[a].nbors[l := ns[a].nbors[l] + [b]])]
    else ns
  }

  /** The nodes agree on everything but their neighbours. */
  ghost predicate SameNodes(ns: seq<Node>, ns': seq<Node>) {
    |ns| == |ns'| && forall i :: 0 <= i < |ns| ==>
      && ns'[i].rowid == ns[i].rowid && ns'[i].level == ns[i].level
      && ns'[i].vec == ns[i].vec && ns'[i].deleted == ns[i].deleted
  }

  lemma ConnectEffect(ns: seq<Node>, a: nat, b: nat, l: nat)
    requires Shaped(ns) && a < |ns| && l < MAX_LEVELS
    ensures var ns' := Connect(ns, a, b, l);
      && Shaped(ns') && SameNodes(ns, ns')
      && forall x: nat, m: nat :: x < |ns| && m < MAX_LEVELS ==>
        N(ns', x, m) == if x == a && m == l && |N(ns, a, l)| < MAX_NEIGHBORS then N(ns, a, l) + [b] else N(ns, x, m)
  {
  }

  /** What linking `n` with each of `cs` on level `l` makes of the lists. */
  ghost predicate LinkedTo(ns0: seq<Node>, ns: seq<Node>, n: nat, l: nat, cs: seq<nat>)
    requires Shaped(ns0) && n < |ns0| && l < MAX_LEVELS
  {
    && Shaped(ns) && SameNodes(ns0, ns) && N(ns, n, l) == cs
    && forall x: nat, m: nat :: x < |ns| && m < MAX_LEVELS && !(x == n && m == l) ==>
      N(ns, x, m) == if m == l && x in cs && |N(ns0, x, l)| < MAX_NEIGHBORS then N(ns0, x, l) + [n] else N(ns0, x, m)
  }

  lemma LinkOne(ns0: seq<Node>, ns: seq<Node>, n: nat, l: nat, cs: seq<nat>, c: nat)
    requires Shaped(ns0) && n < |ns0| && l < MAX_LEVELS && LinkedTo(ns0, ns, n, l, cs)
    requires |cs| < MAX_NEIGHBORS && c < |ns0| && c != n && c !in cs
    ensures Shaped(Connect(ns, n, c, l)) && |Connect(ns, n, c, l)| == |ns|
    ensures LinkedTo(ns0, Connect(Connect(ns, n, c, l), c, n, l), n, l, cs + [c])
  {
    hide Connect, Shaped, N;
    ConnectEffect(ns, n, c, l);
    var ns1 := Connect(ns, n, c, l);
    ConnectEffect(ns1, c, n, l);
    var ns2 := Connect(ns1, c, n, l);
    forall x: nat, m: nat | x < |ns2| && m < MAX_LEVELS && !(x == n && m == l)
      ensures N(ns2, x, m) ==
        if m == l && x in cs + [c] && |N(ns0, x, l)| < MAX_NEIGHBORS then N(ns0, x, l) + [n] else N(ns0, x, m)
    {
      if x == c && m == l {
        assert N(ns2, c, l) == if |N(ns0, c, l)| < MAX_NEIGHBORS then N(ns0, c, l) + [n] else N(ns0, c, l);
      }
    }
  }

  /** Node `n` occurs in no list on level `l`, and its own is empty. */
  ghost predicate Unlinked(ns: seq<Node>, n: nat, l: nat)
    requires Shaped(ns) && n < |ns| && l < MAX_LEVELS
  {
    N(ns, n, l) == [] && forall x: nat :: x < |ns| ==> n !in N(ns, x, l)
  }

  /** The chosen nodes are distinct others that reach the level, no more than fit. */
  ghost predicate Choosable(ns: seq<Node>, n: nat, l: nat, cs: seq<nat>)
    requires n < |ns|
  {
    && |cs| <= MAX_NEIGHBORS && Distinct(cs) && l <= ns[n].level
    && forall c :: c in cs ==> c < |ns| && c != n && ns[c].level >= l
  }

  lemma LinkedListOk(ns0: seq<Node>, ns: seq<Node>, n: nat, l: nat, cs: seq<nat>, a: nat, m: nat)
    requires Shaped(ns0) && n < |ns0| && l < MAX_LEVELS && LinkedTo(ns0, ns, n, l, cs) && Choosable(ns0, n, l, cs)
    requires Unlinked(ns0, n, l) && a < |ns| && m < MAX_LEVELS && ListOk(ns0, a, m)
    ensures ListOk(ns, a, m)
  {
    hide Shaped, N;
    if a != n && m == l && a in cs && |N(ns0, a, l)| < MAX_NEIGHBORS {
      assert N(ns, a, l) == N(ns0, a, l) + [n];
    } else if a == n && m == l {
      assert N(ns, a, m) == cs;
    } else {
      assert N(ns, a, m) == N(ns0, a, m);
    }
  }

  lemma LinkedReturned(ns0: seq<Node>, ns: seq<Node>, n: nat, l: nat, cs: seq<nat>, a: nat, m: nat)
    requires Shaped(ns0) && n < |ns0| && l < MAX_LEVELS && LinkedTo(ns0, ns, n, l, cs) && Choosable(ns0, n, l, cs)
    requires Unlinked(ns0, n, l) && a < |ns| && m < MAX_LEVELS && Returned(ns0, a, m)
    requires forall x: nat :: x < |ns0| ==> |N(ns0, x, l)| <= MAX_NEIGHBORS
    ensures Returned(ns, a, m)
  {
    hide Shaped, N, Distinct;
    forall b | b in N(ns, a, m)
      ensures b < |ns| && (a in N(ns, b, m) || |N(ns, b, m)| == MAX_NEIGHBORS)
    {
      if a == n && m == l {
        assert b in cs;
        assert N(ns, b, l) == if |N(ns0, b, l)| < MAX_NEIGHBORS then N(ns0, b, l) + [n] else N(ns0, b, l);
      } else if b == n && m == l {
        assert a in cs;
      } else {
        assert b in N(ns0, a, m);
        assert a in N(ns0, b, m) || |N(ns0, b, m)| == MAX_NEIGHBORS;
      }
    }
  }

  /** Linking an unlinked node keeps the graph well formed. */
  lemma LinkedKeepsGraph(ns0: seq<Node>, ns: seq<Node>, n: nat, l: nat, cs: seq<nat>)
    requires GraphOk(ns0) && n < |ns0| && l < MAX_LEVELS && LinkedTo(ns0, ns, n, l, cs) && Choosable(ns0, n, l, cs)
    requires Unlinked(ns0, n, l)
    ensures GraphOk(ns)
  {
    hide N, Returned, LinkedTo, Choosable, Unlinked;
    forall x: nat | x < |ns0|
      ensures |N(ns0, x, l)| <= MAX_NEIGHBORS
    {
      assert ListOk(ns0, x, l);
    }
    forall a: nat, m: nat | a < |ns0| && m < MAX_LEVELS
      ensures Shaped(ns) && |ns| == |ns0| && ListOk(ns, a, m) && Returned(ns, a, m)
    {
      LinkedShape(ns0, ns, n, l, cs);
      LinkedListOk(ns0, ns, n, l, cs, a, m);
      LinkedReturned(ns0, ns, n, l, cs, a, m);
    }
    LinkedShape(ns0, ns, n, l, cs);
  }

  lemma LinkedShape(ns0: seq<Node>, ns: seq<Node>, n: nat, l: nat, cs: seq<nat>)
    requires Shaped(ns0) && n < |ns0| && l < MAX_LEVELS && LinkedTo(ns0, ns, n, l, cs)
    ensures Shaped(ns) && SameNodes(ns0, ns) && N(ns, n, l) == cs
  {
  }

  // ----- candidates

  /** A live node other than `n` that reaches the level. */
  predicate Candidate(ns: seq<Node>, n: nat, l: nat, i: nat)
    requires i < |ns|
  {
    !ns[i].deleted && ns[i].level >= l && i != n
  }

  function CandHit(ns: seq<Node>, n: nat, dist: Metric, i: nat): Hit
    requires n < |ns| && i < |ns|
  {
    Hit(i, dist(ns[n].vec, ns[i].vec))
  }

  /** The candidates below `upto`, in id order. */
  function Candidates(ns: seq<Node>, n: nat, l: nat, dist: Metric, upto: nat): (r: seq<Hit>)
    requires n < |ns| && upto <= |ns|
    ensures |r| <= upto
    ensures forall h :: h in r ==>
      0 <= h.rowid < upto && h == CandHit(ns, n, dist, h.rowid) && Candidate(ns, n, l, h.rowid)
  {
    if upto == 0 then []
    else
      Candidates(ns, n, l, dist, upto - 1) +
      if Candidate(ns, n, l, upto - 1) then [CandHit(ns, n, dist, upto - 1)] else []
  }

  lemma {:induction false} CandidateOnce(ns: seq<Node>, n: nat, l: nat, dist: Metric, upto: nat, h: Hit)
    requires n < |ns| && upto <= |ns|
    ensures multiset(Candidates(ns, n, l, dist, upto))[h] <= 1
  {
    if upto > 0 {
      CandidateOnce(ns, n, l, dist, upto - 1, h);
      var c := Candidates(ns, n, l, dist, upto - 1);
      if h == CandHit(ns, n, dist, upto - 1) {
        assert h !in c;
      }
    }
  }

  lemma {:induction false} CandidatesSame(ns: seq<Node>, ns': seq<Node>, n: nat, l: nat, dist: Metric, upto: nat)
    requires SameNodes(ns, ns') && n < |ns| && upto <= |ns|
    ensures Candidates(ns, n, l, dist, upto) == Candidates(ns', n, l, dist, upto)
  {
    if upto > 0 {
      CandidatesSame(ns, ns', n, l, dist, upto - 1);
    }
  }

  function Ids(hs: seq<Hit>): (r: seq<nat>)
    requires forall i :: 0 <= i < |hs| ==> hs[i].rowid >= 0
    ensures |r| == |hs| && forall i :: 0 <= i < |hs| ==> r[i] == hs[i].rowid
  {
    seq(|hs|, i requires 0 <= i < |hs| => hs[i].rowid as nat)
  }

  /** `list` is the ids of an ascending top 16 of the candidates. */
  ghost predicate Nearest16(ns: seq<Node>, n: nat, l: nat, dist: Metric, list: seq<nat>)
    requires n < |ns|
  {
    exists hs: seq<Hit> :: IdsOf(hs, list) && Answers(hs, multiset(Candidates(ns, n, l, dist, |ns|)), MAX_NEIGHBORS)
  }

  ghost predicate IdsOf(hs: seq<Hit>, list: seq<nat>) {
    |hs| == |list| && forall i :: 0 <= i < |hs| ==> hs[i].rowid == list[i]
  }

  lemma MemberCount(s: seq<Hit>, i: nat, j: nat)
    requires i < j < |s| && s[i] == s[j]
    ensures multiset(s)[s[i]] >= 2
  {
    assert s == s[..i] + [s[i]] + s[i + 1..j] + [s[j]] + s[j + 1..];
  }

  lemma NearestMember(ns: seq<Node>, n: nat, l: nat, dist: Metric, hs: seq<Hit>, i: nat)
    requires n < |ns| && multiset(hs) <= multiset(Candidates(ns, n, l, dist, |ns|)) && i < |hs|
    ensures 0 <= hs[i].rowid < |ns| && hs[i] == CandHit(ns, n, dist, hs[i].rowid) && Candidate(ns, n, l, hs[i].rowid)
  {
    hide Candidates, Candidate, CandHit;
    assert hs[i] in multiset(hs);
    assert hs[i] in Candidates(ns, n, l, dist, |ns|);
  }

  lemma NearestDistinct(ns: seq<Node>, n: nat, l: nat, dist: Metric, hs: seq<Hit>, i: nat, j: nat)
    requires n < |ns| && multiset(hs) <= multiset(Candidates(ns, n, l, dist, |ns|)) && i < j < |hs|
    ensures hs[i].rowid != hs[j].rowid
  {
    hide Candidates, Candidate, CandHit;
    if hs[i].rowid == hs[j].rowid {
      NearestMember(ns, n, l, dist, hs, i);
      NearestMember(ns, n, l, dist, hs, j);
      MemberCount(hs, i, j);
      CandidateOnce(ns, n, l, dist, |ns|, hs[i]);
    }
  }

  lemma NearestIds(ns: seq<Node>, n: nat, l: nat, dist: Metric, hs: seq<Hit>, list: seq<nat>)
    requires n < |ns| && IdsOf(hs, list) && multiset(hs) <= multiset(Candidates(ns, n, l, dist, |ns|))
    ensures Distinct(list)
    ensures forall i :: 0 <= i < |list| ==> list[i] < |ns| && list[i] != n && ns[list[i]].level >= l
  {
    hide Candidates, CandHit;
    forall i, j | 0 <= i < j < |list|
      ensures list[i] != list[j]
    {
      NearestDistinct(ns, n, l, dist, hs, i, j);
    }
    forall i | 0 <= i < |list|
      ensures list[i] < |ns| && list[i] != n && ns[list[i]].level >= l
    {
      NearestMember(ns, n, l, dist, hs, i);
    }
  }

  /** A nearest list is distinct nodes that can be linked. */
  lemma Nearest16Choosable(ns: seq<Node>, n: nat, l: nat, dist: Metric, list: seq<nat>)
    requires n < |ns| && l <= ns[n].level && Nearest16(ns, n, l, dist, list)
    ensures Choosable(ns, n, l, list)
  {
    hide Candidates, Distinct, Ascending;
    var hs: seq<Hit> :| IdsOf(hs, list) && Answers(hs, multiset(Candidates(ns, n, l, dist, |ns|)), MAX_NEIGHBORS);
    NearestIds(ns, n, l, dist, hs, list);
    assert |multiset(hs)| <= MAX_NEIGHBORS;
  }

  // ----- live entries

  ghost function Entry(x: Node): multiset<Row> {
    if x.deleted then multiset{} else multiset{Row(x.rowid, x.vec)}
  }

  /** The rows of the live nodes. */
  ghost function Entries(ns: seq<Node>): multiset<Row> {
    if ns == [] then multiset{} else Entries(ns[..|ns| - 1]) + Entry(ns[|ns| - 1])
  }

  lemma {:induction false} EntriesUpdate(ns: seq<Node>, i: nat, x: Node)
    requires i < |ns|
    ensures Entry(ns[i]) <= Entries(ns)
    ensures Entries(ns[i := x]) == Entries(ns) - Entry(ns[i]) + Entry(x)
  {
    hide Entry;
    var n := |ns| - 1;
    if i == n {
      assert ns[i := x][..n] == ns[..n];
      Swap(Entries(ns[..n]), Entry(ns[n]), multiset{}, Entry(x));
    } else {
      EntriesUpdate(ns[..n], i, x);
      assert ns[i := x][..n] == ns[..n][i := x];
      Swap(Entries(ns[..n]) - Entry(ns[i]), Entry(ns[i]), Entry(ns[n]), Entry(x));
    }
  }

  lemma Swap(a: multiset<Row>, e: multiset<Row>, b: multiset<Row>, x: multiset<Row>)
    ensures (a + e + b) - e + x == a + x + b && (a + e) - e + x == a + x
  {
  }

  lemma {:induction false} EntriesSame(ns: seq<Node>, ns': seq<Node>)
    requires SameNodes(ns, ns')
    ensures Entries(ns) == Entries(ns')
  {
    if ns != [] {
      EntriesSame(ns[..|ns| - 1], ns'[..|ns| - 1]);
    }
  }

  // ----- greedy descent

  function Away(ns: seq<Node>, q: Point, dist: Metric, i: nat): real
    requires i < |ns|
  {
    dist(ns[i].vec, q)
  }

  /** The nodes strictly closer than `d`: the measure of the descent. */
  ghost function Closer(ns: seq<Node>, q: Point, dist: Metric, d: real): set<nat> {
    set i: nat | i < |ns| && Away(ns, q, dist, i) < d
  }

  lemma CloserShrinks(ns: seq<Node>, q: Point, dist: Metric, d: real, i: nat)
    requires i < |ns| && Away(ns, q, dist, i) < d
    ensures |Closer(ns, q, dist, Away(ns, q, dist, i))| < |Closer(ns, q, dist, d)|
  {
    var a, b := Closer(ns, q, dist, Away(ns, q, dist, i)), Closer(ns, q, dist, d);
    assert i in b && i !in a && a <= b;
    assert b == a + (b - a);
    assert |b - a| > 0;
  }

  /** No live neighbour on the level is closer. */
  ghost predicate LocalMin(ns: seq<Node>, q: Point, dist: Metric, l: nat, a: nat)
    requires GraphOk(ns) && a < |ns| && l < MAX_LEVELS
  {
    forall b :: b in N(ns, a, l) ==> b < |ns| && (ns[b].deleted || Away(ns, q, dist, a) <= Away(ns, q, dist, b))
  }

  // ----- live reachability on level 0

  /** A chain of level-0 links through live nodes. */
  ghost predicate LiveTrail(ns: seq<Node>, p: seq<nat>)
    requires Shaped(ns)
  {
    && (forall i :: 0 <= i < |p| ==> p[i] < |ns| && !ns[p[i]].deleted)
    && (forall i :: 0 <= i < |p| - 1 ==> p[i + 1] in N(ns, p[i], 0))
  }

  ghost predicate LiveReach(ns: seq<Node>, u: nat, v: nat)
    requires Shaped(ns)
  {
    exists p: seq<nat> :: p != [] && p[0] == u && p[|p| - 1] == v && LiveTrail(ns, p)
  }

  lemma LiveReachSelf(ns: seq<Node>, u: nat)
    requires Shaped(ns) && u < |ns| && !ns[u].deleted
    ensures LiveReach(ns, u, u)
  {
    var p: seq<nat> := [u];
    assert LiveTrail(ns, p);
  }

  lemma LiveReachStep(ns: seq<Node>, u: nat, v: nat, x: nat)
    requires Shaped(ns) && LiveReach(ns, u, v) && v < |ns| && x in N(ns, v, 0) && x < |ns| && !ns[x].deleted
    ensures LiveReach(ns, u, x)
  {
    hide Shaped, N;
    var p: seq<nat> :| p != [] && p[0] == u && p[|p| - 1] == v && LiveTrail(ns, p);
    assert LiveTrail(ns, p + [x]);
  }

  /** A list closed under live links holds everything reached from its members. */
  lemma {:induction false} TrailStays(ns: seq<Node>, s: seq<nat>, p: seq<nat>)
    requires Shaped(ns) && p != [] && LiveTrail(ns, p) && p[0] in s
    requires forall a: nat, b: nat :: a in s && a < |ns| && b in N(ns, a, 0) && b < |ns| && !ns[b].deleted ==> b in s
    ensures p[|p| - 1] in s
  {
    hide Shaped, N;
    if |p| > 1 {
      var n := |p| - 1;
      assert p[..n][n - 1] == p[n - 1];
      TrailStays(ns, s, p[..n]);
      assert p[n - 1 + 1] in N(ns, p[n - 1], 0);
    }
  }
}
