/**
 * Why label propagation settles (src/core/cluster.ts): on a graph without loops every change of a label
 * raises the number of linked pairs that agree, or keeps it and lowers a label. So the labels never
 * come back to what they were, and the rounds would end even without a limit on them.
 */
module LabelConvergence {
  import opened Sequences
  import opened FiniteSums
  import opened AdjacencyMaps
  import opened ContradictionClusters
  import opened LabelPropagation
  import opened KnowledgeClusters

  // ---- linked pairs that agree

  /** The linked pairs whose two nodes carry one label. */
  ghost function Agreeing(adj: Adjacency, labels: Labels): set<(int, int)> {
    set p | p in LinkedPairs(adj, adj.Keys) && Agrees(labels, p)
  }

  predicate Agrees(labels: Labels, p: (int, int)) {
    p.0 in labels && p.1 in labels && labels[p.0] == labels[p.1]
  }

  ghost function AgreeingElsewhere(adj: Adjacency, labels: Labels, n: int): set<(int, int)> {
    set p | p in Agreeing(adj, labels) && p.0 != n && p.1 != n
  }

  ghost function Partners(labels: Labels, ns: seq<int>, l: int): set<int> {
    set b | b in ns && b in labels && labels[b] == l
  }

  function Pair(a: int, b: int): (int, int) {
    if a < b then (a, b) else (b, a)
  }

  ghost function PairsWith(n: int, bs: set<int>): set<(int, int)> {
    set b | b in bs :: Pair(n, b)
  }

  lemma {:induction false} CountIsPartners(labels: Labels, ns: seq<int>, l: int)
    requires Labelled(labels, ns) && Distinct(ns)
    ensures Count(labels, ns, l) == |Partners(labels, ns, l)|
    decreases |ns|
  {
    if ns != [] {
      var front, last := ns[..|ns| - 1], ns[|ns| - 1];
      CountIsPartners(labels, front, l);
      SplitLast(ns);
      PartnersSnoc(labels, front, last, l);
    }
  }

  lemma PartnersSnoc(labels: Labels, ns: seq<int>, b: int, l: int)
    requires b in labels && b !in ns
    ensures |Partners(labels, ns + [b], l)| == |Partners(labels, ns, l)| + if labels[b] == l then 1 else 0
  {
    assert Partners(labels, ns + [b], l) == Partners(labels, ns, l) + if labels[b] == l then {b} else {};
  }

  lemma {:induction false} PairsWithSize(n: int, bs: set<int>)
    requires n !in bs
    ensures |PairsWith(n, bs)| == |bs|
    decreases bs
  {
    if bs != {} {
      var b := Pick(bs);
      PairsWithSize(n, bs - {b});
      assert PairsWith(n, bs) == PairsWith(n, bs - {b}) + {Pair(n, b)};
    }
  }

  lemma LinkedAsPair(adj: Adjacency, n: int, b: int)
    requires Simple(adj) && n in adj
    ensures b in adj[n] <==> b != n && Pair(n, b) in LinkedPairs(adj, adj.Keys)
  {
  }

  // The agreeing pairs are those without n, and n with each partner that carries its label.
  lemma AgreeingSplit(adj: Adjacency, labels: Labels, n: int)
    requires Simple(adj) && labels.Keys == adj.Keys && n in adj && Labelled(labels, adj[n])
    ensures |Agreeing(adj, labels)| == |AgreeingElsewhere(adj, labels, n)| + Count(labels, adj[n], labels[n])
  {
    var bs := Partners(labels, adj[n], labels[n]);
    CountIsPartners(labels, adj[n], labels[n]);
    PairsWithSize(n, bs);
    forall p: (int, int)
      ensures p in Agreeing(adj, labels) <==> p in AgreeingElsewhere(adj, labels, n) || p in PairsWith(n, bs)
    {
      AgreesWith(adj, labels, n, p);
    }
    DisjointSize(AgreeingElsewhere(adj, labels, n), PairsWith(n, bs), Agreeing(adj, labels));
  }

  lemma AgreesWith(adj: Adjacency, labels: Labels, n: int, p: (int, int))
    requires Simple(adj) && labels.Keys == adj.Keys && n in adj
    ensures p in PairsWith(n, Partners(labels, adj[n], labels[n])) <==>
      p in Agreeing(adj, labels) && (p.0 == n || p.1 == n)
  {
    var bs := Partners(labels, adj[n], labels[n]);
    if p in PairsWith(n, bs) {
      var b :| b in bs && p == Pair(n, b);
      LinkedAsPair(adj, n, b);
    }
    if p in Agreeing(adj, labels) && (p.0 == n || p.1 == n) {
      var b := if p.0 == n then p.1 else p.0;
      assert p == Pair(n, b);
      LinkedAsPair(adj, n, b);
      assert b in bs;
    }
  }

  lemma {:induction false} CountElsewhere(labels: Labels, ns: seq<int>, n: int, x: int, l: int)
    requires Labelled(labels, ns) && n !in ns
    ensures Labelled(labels[n := x], ns) && Count(labels[n := x], ns, l) == Count(labels, ns, l)
    decreases |ns|
  {
    if ns != [] {
      CountElsewhere(labels, ns[..|ns| - 1], n, x, l);
    }
  }

  /** A change of n's label to x changes the number of agreeing pairs as it changes n's partners. */
  lemma AgreementChange(adj: Adjacency, labels: Labels, n: int, x: int)
    requires Simple(adj) && labels.Keys == adj.Keys && n in adj && Labelled(labels, adj[n])
    ensures |Agreeing(adj, labels[n := x])| + Count(labels, adj[n], labels[n]) ==
      |Agreeing(adj, labels)| + Count(labels, adj[n], x)
  {
    var after := labels[n := x];
    CountElsewhere(labels, adj[n], n, x, x);
    assert after.Keys == adj.Keys;
    AgreeingSplit(adj, labels, n);
    AgreeingSplit(adj, after, n);
    assert AgreeingElsewhere(adj, after, n) == AgreeingElsewhere(adj, labels, n) by {
      forall p: (int, int) | p.0 != n && p.1 != n
        ensures Agrees(after, p) <==> Agrees(labels, p)
      {
      }
    }
  }

  // ---- what a visit raises

  function LabelSum(labels: Labels, keys: seq<int>): int
    requires Labelled(labels, keys)
  {
    if keys == [] then 0 else LabelSum(labels, keys[..|keys| - 1]) + labels[keys[|keys| - 1]]
  }

  lemma {:induction false} LoweredSum(labels: Labels, keys: seq<int>, n: int, x: int)
    requires Labelled(labels, keys) && n in labels && x < labels[n]
    ensures LabelSum(labels[n := x], keys) <= LabelSum(labels, keys) - if n in keys then 1 else 0
    decreases |keys|
  {
    if keys != [] {
      LoweredSum(labels, keys[..|keys| - 1], n, x);
      SplitLast(keys);
    }
  }

  /** More linked pairs agree, or as many do and the labels have become lower. */
  ghost predicate Rises(adj: Adjacency, keys: seq<int>, before: Labels, after: Labels)
    requires Labelled(before, keys) && Labelled(after, keys)
  {
    var was, now := |Agreeing(adj, before)|, |Agreeing(adj, after)|;
    now > was || (now == was && LabelSum(after, keys) < LabelSum(before, keys))
  }

  ghost predicate Listed(adj: Adjacency, keys: seq<int>) {
    forall a :: a in keys <==> a in adj
  }

  lemma KeysAreLabelled(adj: Adjacency, keys: seq<int>, labels: Labels)
    requires Listed(adj, keys) && labels.Keys == adj.Keys
    ensures Labelled(labels, keys)
  {
    forall i | 0 <= i < |keys|
      ensures keys[i] in labels
    {
      var k := keys[i];
      assert k in keys;
      assert k in adj.Keys;
    }
  }

  /** A visit that changes a label makes the labels rise. */
  lemma VisitRises(adj: Adjacency, keys: seq<int>, before: Labels, n: int, after: Labels)
    requires Simple(adj) && Listed(adj, keys) && before.Keys == adj.Keys
    requires Adopts(adj, before, n, after) && after != before
    ensures after.Keys == adj.Keys && Labelled(before, keys) && Labelled(after, keys)
    ensures Rises(adj, keys, before, after)
  {
    var x := after[n];
    assert x != before[n] by {
      assert x == before[n] ==> before[n := x] == before;
    }
    KeysAreLabelled(adj, keys, before);
    KeysAreLabelled(adj, keys, after);
    AgreementChange(adj, before, n, x);
    assert Beats(Count(before, adj[n], x), x, Count(before, adj[n], before[n]), before[n]);
    if x < before[n] {
      LoweredSum(before, keys, n, x);
    }
  }

  // ---- a number that rises and is bounded

  /** The labels are those of the nodes, and lie between lo and hi. */
  ghost predicate Ranged(adj: Adjacency, labels: Labels, lo: int, hi: int) {
    labels.Keys == adj.Keys && forall n :: n in labels ==> lo <= labels[n] <= hi
  }

  lemma AdoptsRanged(adj: Adjacency, before: Labels, n: int, after: Labels, lo: int, hi: int)
    requires Ranged(adj, before, lo, hi) && Adopts(adj, before, n, after)
    ensures Ranged(adj, after, lo, hi)
  {
    var x := after[n];
    if adj[n] != [] {
      CountedIsHeld(before, adj[n], x);
      var i :| 0 <= i < |adj[n]| && before[adj[n][i]] == x;
      var m := adj[n][i];
      assert m in before && lo <= before[m] <= hi;
    } else {
      assert n in before && lo <= before[n] <= hi;
    }
    assert after == before[n := x];
    assert after.Keys == before.Keys + {n} == adj.Keys;
  }

  lemma {:induction false} SumRange(labels: Labels, keys: seq<int>, lo: int, hi: int)
    requires Labelled(labels, keys) && forall n :: n in labels ==> lo <= labels[n] <= hi
    ensures |keys| * lo <= LabelSum(labels, keys) <= |keys| * hi
    decreases |keys|
  {
    if keys != [] {
      SumRange(labels, keys[..|keys| - 1], lo, hi);
    }
  }

  function Width(keys: seq<int>, lo: int, hi: int): int {
    |keys| * hi - |keys| * lo
  }

  ghost function Rank(adj: Adjacency, keys: seq<int>, labels: Labels, lo: int, hi: int): int
    requires Labelled(labels, keys)
  {
    |Agreeing(adj, labels)| * (Width(keys, lo, hi) + 1) + |keys| * hi - LabelSum(labels, keys)
  }

  ghost function MaxRank(adj: Adjacency, keys: seq<int>, lo: int, hi: int): int {
    |LinkedPairs(adj, adj.Keys)| * (Width(keys, lo, hi) + 1) + Width(keys, lo, hi)
  }

  lemma RankRange(adj: Adjacency, keys: seq<int>, labels: Labels, lo: int, hi: int)
    requires Listed(adj, keys) && Ranged(adj, labels, lo, hi) && Labelled(labels, keys)
    ensures 0 <= Rank(adj, keys, labels, lo, hi) <= MaxRank(adj, keys, lo, hi)
  {
    SumRange(labels, keys, lo, hi);
    SubsetSize(Agreeing(adj, labels), LinkedPairs(adj, adj.Keys));
    FactorsOrdered(|Agreeing(adj, labels)|, |LinkedPairs(adj, adj.Keys)|, Width(keys, lo, hi) + 1);
  }

  lemma FactorsOrdered(a: nat, b: nat, c: nat)
    requires a <= b
    ensures 0 <= a * c <= b * c
  {
  }

  lemma RisingRank(adj: Adjacency, keys: seq<int>, before: Labels, after: Labels, lo: int, hi: int)
    requires Ranged(adj, before, lo, hi) && Ranged(adj, after, lo, hi)
    requires Labelled(before, keys) && Labelled(after, keys) && Rises(adj, keys, before, after)
    ensures Rank(adj, keys, after, lo, hi) > Rank(adj, keys, before, lo, hi)
  {
    SumRange(before, keys, lo, hi);
    SumRange(after, keys, lo, hi);
    var was, now, width := |Agreeing(adj, before)|, |Agreeing(adj, after)|, Width(keys, lo, hi);
    if now > was {
      FactorsOrdered(was + 1, now, width + 1);
      assert (was + 1) * (width + 1) == was * (width + 1) + (width + 1);
    }
  }

  lemma VisitRank(adj: Adjacency, keys: seq<int>, before: Labels, n: int, after: Labels, lo: int, hi: int)
    requires Simple(adj) && Listed(adj, keys) && Ranged(adj, before, lo, hi) && Adopts(adj, before, n, after)
    ensures Ranged(adj, after, lo, hi) && Labelled(before, keys) && Labelled(after, keys)
    ensures Rank(adj, keys, after, lo, hi) >= Rank(adj, keys, before, lo, hi) + if after != before then 1 else 0
  {
    AdoptsRanged(adj, before, n, after, lo, hi);
    KeysAreLabelled(adj, keys, before);
    KeysAreLabelled(adj, keys, after);
    if after != before {
      VisitRises(adj, keys, before, n, after);
      RisingRank(adj, keys, before, after, lo, hi);
    }
  }

  // ---- sweeps and runs

  ghost predicate MovedBefore(trace: seq<Labels>, n: nat)
    requires n < |trace|
  {
    exists i :: 0 <= i < n && MovesAt(trace, i)
  }

  lemma {:induction false} SweepRank(
    adj: Adjacency, keys: seq<int>, nodes: seq<int>, trace: seq<Labels>, n: nat, lo: int, hi: int
  )
    requires Simple(adj) && Listed(adj, keys) && Swept(adj, nodes, trace) && n <= |nodes|
    requires Ranged(adj, trace[0], lo, hi)
    ensures Ranged(adj, trace[n], lo, hi) && Labelled(trace[0], keys) && Labelled(trace[n], keys)
    ensures Rank(adj, keys, trace[n], lo, hi) >=
      Rank(adj, keys, trace[0], lo, hi) + if MovedBefore(trace, n) then 1 else 0
  {
    if n == 0 {
      KeysAreLabelled(adj, keys, trace[0]);
    } else {
      SweepRank(adj, keys, nodes, trace, n - 1, lo, hi);
      assert VisitAt(adj, nodes, trace, n - 1);
      VisitRank(adj, keys, trace[n - 1], nodes[n - 1], trace[n], lo, hi);
      if MovedBefore(trace, n) && !MovedBefore(trace, n - 1) {
        assert MovesAt(trace, n - 1);
      }
    }
  }

  lemma RoundRank(
    adj: Adjacency, keys: seq<int>, rounds: seq<seq<Labels>>, r: nat, lo: int, hi: int
  )
    requires Simple(adj) && Listed(adj, keys) && r < |rounds| && MovingRound(adj, keys, rounds, r)
    requires Ranged(adj, LabelsBefore(keys, rounds, r), lo, hi)
    ensures
      var before, after := LabelsBefore(keys, rounds, r), LabelsBefore(keys, rounds, r + 1);
      && Ranged(adj, after, lo, hi) && Labelled(before, keys) && Labelled(after, keys)
      && Rank(adj, keys, after, lo, hi) > Rank(adj, keys, before, lo, hi)
  {
    var nodes, trace := NodesAt(keys, r), rounds[r];
    SweepRank(adj, keys, nodes, trace, |nodes|, lo, hi);
    var i :| 0 <= i < |trace| - 1 && MovesAt(trace, i);
    assert MovedBefore(trace, |nodes|);
  }

  // The first n rounds all move something.
  ghost predicate AllMoved(adj: Adjacency, keys: seq<int>, rounds: seq<seq<Labels>>, n: nat) {
    n <= |rounds| && forall k {:trigger MovingRound(adj, keys, rounds, k)} ::
      0 <= k < n ==> MovingRound(adj, keys, rounds, k)
  }

  ghost predicate MovingRound(adj: Adjacency, keys: seq<int>, rounds: seq<seq<Labels>>, k: int)
    requires 0 <= k < |rounds|
  {
    RoundOk(adj, keys, rounds, k) && Moved(rounds[k])
  }

  lemma {:induction false} SweepRanged(
    adj: Adjacency, nodes: seq<int>, trace: seq<Labels>, n: nat, lo: int, hi: int
  )
    requires Swept(adj, nodes, trace) && n <= |nodes| && Ranged(adj, trace[0], lo, hi)
    ensures Ranged(adj, trace[n], lo, hi)
  {
    if n > 0 {
      SweepRanged(adj, nodes, trace, n - 1, lo, hi);
      assert VisitAt(adj, nodes, trace, n - 1);
      AdoptsRanged(adj, trace[n - 1], nodes[n - 1], trace[n], lo, hi);
    }
  }

  lemma {:induction false} RunRanged(
    adj: Adjacency, keys: seq<int>, rounds: seq<seq<Labels>>, r: nat, lo: int, hi: int
  )
    requires Listed(adj, keys) && AllMoved(adj, keys, rounds, r)
    requires forall k :: k in keys ==> lo <= k <= hi
    ensures Ranged(adj, LabelsBefore(keys, rounds, r), lo, hi)
  {
    if r == 0 {
      assert forall a :: a in OwnLabels(keys).Keys <==> a in adj.Keys;
    } else {
      RunRanged(adj, keys, rounds, r - 1, lo, hi);
      assert MovingRound(adj, keys, rounds, r - 1);
      SweepRanged(adj, NodesAt(keys, r - 1), rounds[r - 1], |NodesAt(keys, r - 1)|, lo, hi);
    }
  }

  ghost function RankBefore(
    adj: Adjacency, keys: seq<int>, rounds: seq<seq<Labels>>, r: nat, lo: int, hi: int
  ): int
    requires r <= |rounds|
  {
    var labels := LabelsBefore(keys, rounds, r);
    if Labelled(labels, keys) then Rank(adj, keys, labels, lo, hi) else 0
  }

  lemma RanksOfRun(adj: Adjacency, keys: seq<int>, rounds: seq<seq<Labels>>, n: nat, lo: int, hi: int)
    returns (ranks: seq<int>)
    requires Simple(adj) && Listed(adj, keys) && AllMoved(adj, keys, rounds, n)
    requires forall k :: k in keys ==> lo <= k <= hi
    ensures |ranks| == n + 1
    ensures forall k :: 0 <= k <= n ==> ranks[k] == RankBefore(adj, keys, rounds, k, lo, hi)
    ensures forall k :: 0 <= k < n ==> ranks[k] < ranks[k + 1]
  {
    ranks := seq(n + 1, k requires 0 <= k <= n => RankBefore(adj, keys, rounds, k, lo, hi));
    forall k | 0 <= k < n
      ensures ranks[k] < ranks[k + 1]
    {
      RankRisesAt(adj, keys, rounds, n, k, lo, hi);
    }
  }

  lemma RankRisesAt(adj: Adjacency, keys: seq<int>, rounds: seq<seq<Labels>>, n: nat, k: nat, lo: int, hi: int)
    requires Simple(adj) && Listed(adj, keys) && AllMoved(adj, keys, rounds, n) && k < n
    requires forall a :: a in keys ==> lo <= a <= hi
    ensures RankBefore(adj, keys, rounds, k, lo, hi) < RankBefore(adj, keys, rounds, k + 1, lo, hi)
  {
    RunRanged(adj, keys, rounds, k, lo, hi);
    assert MovingRound(adj, keys, rounds, k);
    RoundRank(adj, keys, rounds, k, lo, hi);
  }

  lemma {:induction false} Climbs(ranks: seq<int>, r: nat, s: nat)
    requires r <= s < |ranks| && forall k :: 0 <= k < |ranks| - 1 ==> ranks[k] < ranks[k + 1]
    ensures ranks[s] >= ranks[r] + (s - r)
    decreases s
  {
    if r < s {
      Climbs(ranks, r, s - 1);
      assert ranks[s - 1] < ranks[s - 1 + 1];
    }
  }

  lemma RankBeforeRange(adj: Adjacency, keys: seq<int>, rounds: seq<seq<Labels>>, r: nat, lo: int, hi: int)
    requires Listed(adj, keys) && AllMoved(adj, keys, rounds, r)
    requires forall k :: k in keys ==> lo <= k <= hi
    ensures 0 <= RankBefore(adj, keys, rounds, r, lo, hi) <= MaxRank(adj, keys, lo, hi)
  {
    var labels := LabelsBefore(keys, rounds, r);
    RunRanged(adj, keys, rounds, r, lo, hi);
    KeysAreLabelled(adj, keys, labels);
    RankRange(adj, keys, labels, lo, hi);
  }

  lemma MovesUntilLast(
    adj: Adjacency, keys: seq<int>, rounds: seq<seq<Labels>>, labels: Labels, converged: bool, n: nat
  )
    requires RunSoFar(adj, keys, rounds, labels, converged) && n <= |rounds| && (n == |rounds| ==> !converged)
    ensures AllMoved(adj, keys, rounds, n)
  {
    forall k | 0 <= k < n
      ensures MovingRound(adj, keys, rounds, k)
    {
      assert RoundOk(adj, keys, rounds, k);
    }
  }

  /**
   * Whatever the limit on rounds, the number of moving rounds is bounded by the size of the graph and
   * the spread of its ids: the loop would end without the limit.
   */
  lemma RoundsEnd(
    adj: Adjacency, keys: seq<int>, rounds: seq<seq<Labels>>, labels: Labels, converged: bool, lo: int, hi: int
  )
    requires Simple(adj) && Listed(adj, keys) && RunSoFar(adj, keys, rounds, labels, converged)
    requires forall k :: k in keys ==> lo <= k <= hi
    ensures |rounds| - (if converged then 1 else 0) <= MaxRank(adj, keys, lo, hi)
  {
    var s := |rounds| - if converged then 1 else 0;
    MovesUntilLast(adj, keys, rounds, labels, converged, s);
    var ranks := RanksOfRun(adj, keys, rounds, s, lo, hi);
    Climbs(ranks, 0, s);
    RankBeforeRange(adj, keys, rounds, 0, lo, hi);
    RankBeforeRange(adj, keys, rounds, s, lo, hi);
  }

  /** So a small enough graph always settles within the limit. */
  lemma SmallGraphsSettle(
    adj: Adjacency, keys: seq<int>, rounds: seq<seq<Labels>>, labels: Labels, converged: bool, lo: int, hi: int
  )
    requires Simple(adj) && Listed(adj, keys) && IsRun(adj, keys, rounds, labels, converged)
    requires (forall k :: k in keys ==> lo <= k <= hi) && MaxRank(adj, keys, lo, hi) < 20
    ensures converged
  {
    RoundsEnd(adj, keys, rounds, labels, converged, lo, hi);
  }

  /** Before no two rounds are the labels the same, but for a last round that moves nothing. */
  lemma LabelsNeverRepeat(
    adj: Adjacency, keys: seq<int>, rounds: seq<seq<Labels>>, labels: Labels, converged: bool, r: nat, s: nat
  )
    requires Simple(adj) && Listed(adj, keys) && RunSoFar(adj, keys, rounds, labels, converged)
    requires r < s <= |rounds| && (s == |rounds| ==> !converged)
    ensures LabelsBefore(keys, rounds, r) != LabelsBefore(keys, rounds, s)
  {
    var lo, hi := Bounds(keys);
    MovesUntilLast(adj, keys, rounds, labels, converged, s);
    var ranks := RanksOfRun(adj, keys, rounds, s, lo, hi);
    Climbs(ranks, r, s);
  }

  lemma {:induction false} Bounds(keys: seq<int>) returns (lo: int, hi: int)
    ensures forall k :: k in keys ==> lo <= k <= hi
    decreases |keys|
  {
    lo, hi := 0, 0;
    if keys != [] {
      var last := keys[|keys| - 1];
      lo, hi := Bounds(keys[..|keys| - 1]);
      SplitLast(keys);
      lo, hi := Min(lo, last), Max(hi, last);
    }
  }
}
