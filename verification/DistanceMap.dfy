/** The chained hash table of tentative distances and predecessors. */
module DistanceMap {

  /** Best known distance of a node and the node before it. */
  datatype Label = Label(dist: real, pred: int)

  /** A distance, or `Inf` for a node without an entry (the source uses DBL_MAX). */
  datatype Dist = Fin(d: real) | Inf

  predicate Less(a: real, b: Dist) { b.Inf? || a < b.d }

  datatype Info = Info(id: int, lab: Label)

  /** The chain holds distinct ids of bucket `b` only. */
  ghost predicate ChainOk(chain: seq<Info>, b: int, n: nat)
    requires n > 0
  {
    && (forall i :: 0 <= i < |chain| ==> chain[i].id >= 0 && chain[i].id % n == b)
    && (forall i, j :: 0 <= i < j < |chain| ==> chain[i].id != chain[j].id)
  }

  /** The buckets hold exactly the recorded labels, each id in its own bucket. */
  ghost predicate TableOk(bs: seq<seq<Info>>, m: map<int, Label>) {
    && |bs| > 0
    && (forall b :: 0 <= b < |bs| ==> ChainOk(bs[b], b, |bs|))
    && (forall v :: v in m ==> v >= 0 && Info(v, m[v]) in bs[v % |bs|])
    && (forall b, x :: 0 <= b < |bs| && x in bs[b] ==> x.id in m && m[x.id] == x.lab)
  }

  lemma ReplaceInChain(chain: seq<Info>, b: int, n: nat, i: nat, e: Info)
    requires n > 0 && ChainOk(chain, b, n) && i < |chain| && chain[i].id == e.id
    ensures ChainOk(chain[i := e], b, n)
    ensures forall x :: x in chain[i := e] <==> x == e || (x in chain && x.id != e.id)
  {
    var c := chain[i := e];
    assert c[i] == e;
    forall x | x in chain && x.id != e.id
      ensures x in c
    {
      var j :| 0 <= j < |chain| && chain[j] == x;
      assert c[j] == x;
    }
  }

  lemma PrependToChain(chain: seq<Info>, b: int, n: nat, e: Info)
    requires n > 0 && ChainOk(chain, b, n) && e.id >= 0 && e.id % n == b
    requires forall x :: x in chain ==> x.id != e.id
    ensures ChainOk([e] + chain, b, n)
    ensures forall x :: x in [e] + chain <==> x == e || (x in chain && x.id != e.id)
  {
  }

  /** Writing the chain of `e.id` so that `e` is its only entry for that id records `e`. */
  lemma WriteChain(bs: seq<seq<Info>>, m: map<int, Label>, e: Info, chain: seq<Info>)
    requires TableOk(bs, m) && e.id >= 0
    requires ChainOk(chain, e.id % |bs|, |bs|)
    requires forall x :: x in chain <==> x == e || (x in bs[e.id % |bs|] && x.id != e.id)
    ensures TableOk(bs[e.id % |bs| := chain], m[e.id := e.lab])
  {
    var bs' := bs[e.id % |bs| := chain];
    var m' := m[e.id := e.lab];
    forall v | v in m'
      ensures v >= 0 && Info(v, m'[v]) in bs'[v % |bs'|]
    {
      if v != e.id {
        assert Info(v, m[v]) in bs[v % |bs|];
      }
    }
    forall b, x: Info | 0 <= b < |bs'| && x in bs'[b]
      ensures x.id in m' && m'[x.id] == x.lab
    {
      if b != e.id % |bs| {
        assert x in bs[b];
        assert ChainOk(bs[b], b, |bs|);
      }
    }
  }

  class DistMap {
    const aBuckets: array<seq<Info>>
    ghost var labels: map<int, Label>

    ghost predicate Valid()
      reads this, aBuckets
    {
      TableOk(aBuckets[..], labels)
    }

    constructor (nExpected: nat)
      ensures Valid() && labels == map[] && fresh(aBuckets)
    {
      aBuckets := new seq<Info>[nExpected * 2 + 1](_ => []);
      labels := map[];
    }

    /** The position of `v` in its chain, or the chain's length. */
    method Locate(v: int) returns (i: nat, chain: seq<Info>)
      requires Valid() && v >= 0
      ensures chain == aBuckets[..][v % aBuckets.Length] && i <= |chain|
      ensures if i < |chain| then v in labels && chain[i] == Info(v, labels[v]) else v !in labels
      ensures i == |chain| ==> forall x :: x in chain ==> x.id != v
    {
      chain := aBuckets[v % aBuckets.Length];
      i := 0;
      assert chain == aBuckets[..][v % aBuckets.Length];
      while i < |chain|
        invariant 0 <= i <= |chain|
        invariant forall j :: 0 <= j < i ==> chain[j].id != v
      {
        if chain[i].id == v {
          assert chain[i] in aBuckets[..][v % aBuckets.Length];
          return;
        }
        i := i + 1;
      }
    }

    method Get(v: int) returns (d: Dist)
      requires Valid() && v >= 0
      ensures d == if v in labels then Fin(labels[v].dist) else Inf
    {
      var i, chain := Locate(v);
      if i < |chain| { d := Fin(chain[i].lab.dist); } else { d := Inf; }
    }

    method GetPredecessor(v: int) returns (p: int)
      requires Valid() && v >= 0
      ensures p == if v in labels then labels[v].pred else -1
    {
      var i, chain := Locate(v);
      if i < |chain| { p := chain[i].lab.pred; } else { p := -1; }
    }

    method Set(v: int, d: real, p: int)
      requires Valid() && v >= 0
      modifies this, aBuckets
      ensures Valid() && labels == old(labels)[v := Label(d, p)]
    {
      var i, chain := Locate(v);
      var b := v % aBuckets.Length;
      ghost var bs := aBuckets[..];
      var e := Info(v, Label(d, p));
      assert ChainOk(bs[b], b, |bs|);
      if i < |chain| {
        ReplaceInChain(chain, b, |bs|, i, e);
        chain := chain[i := e];
      } else {
        PrependToChain(chain, b, |bs|, e);
        chain := [e] + chain;
      }
      WriteChain(bs, labels, e, chain);
      aBuckets[b] := chain;
      labels := labels[v := Label(d, p)];
      assert aBuckets[..] == bs[b := chain];
    }
  }
}
