/**
 * Knowledge clusters (src/core/cluster.ts): nodes grouped by propagated label, with the number of
 * associations inside each group and how close the group is to being fully linked.
 */
module KnowledgeClusters {
  import opened Sequences
  import opened AdjacencyMaps
  import opened FiniteSums
  import opened ContradictionClusters
  import opened LabelPropagation

  datatype Cluster = Cluster(members: seq<int>, internalEdges: nat, cohesion: real)

  // ---- grouping by label

  /** The keys carrying label l, in order. */
  function Members(keys: seq<int>, labels: Labels, l: int): (r: seq<int>)
    requires Labelled(labels, keys)
    ensures forall n :: n in r ==> n in keys && n in labels && labels[n] == l
  {
    if keys == [] then []
    else
      var rest, last := keys[..|keys| - 1], keys[|keys| - 1];
      var r := Members(rest, labels, l);
      if labels[last] == l then r + [last] else r
  }

  lemma {:induction false} MembersAre(keys: seq<int>, labels: Labels, l: int)
    requires Labelled(labels, keys) && Distinct(keys)
    ensures Distinct(Members(keys, labels, l))
    ensures forall i :: 0 <= i < |keys| && labels[keys[i]] == l ==> keys[i] in Members(keys, labels, l)
    decreases |keys|
  {
    if keys != [] {
      var rest := keys[..|keys| - 1];
      MembersAre(rest, labels, l);
      forall i | 0 <= i < |keys| && labels[keys[i]] == l
        ensures keys[i] in Members(keys, labels, l)
      {
        if i < |rest| {
          assert rest[i] == keys[i];
        }
      }
    }
  }

  ghost predicate Grouped(keys: seq<int>, labels: Labels, n: nat, groups: map<int, seq<int>>, order: seq<int>)
    requires n <= |keys| && Labelled(labels, keys)
  {
    && Distinct(order) && (forall l :: l in order <==> l in groups)
    && (forall l :: Holds(keys, labels, n, groups, l))
    && Seen(keys, labels, n, groups)
  }

  ghost predicate Seen(keys: seq<int>, labels: Labels, n: nat, groups: map<int, seq<int>>)
    requires n <= |keys| && Labelled(labels, keys)
  {
    forall i :: 0 <= i < n ==> labels[keys[i]] in groups
  }

  /** Label order[i] first appears at position firsts[i], and these positions increase. */
  ghost predicate FirstSeen(keys: seq<int>, labels: Labels, order: seq<int>, firsts: seq<nat>)
    requires Labelled(labels, keys)
  {
    && |firsts| == |order| && Ascending(firsts)
    && forall i :: 0 <= i < |firsts| ==> FirstAt(keys, labels, order[i], firsts[i])
  }

  ghost predicate Ascending(s: seq<nat>) {
    forall i, j {:trigger InOrder(s, i, j)} :: 0 <= i < j < |s| ==> InOrder(s, i, j)
  }

  predicate InOrder(s: seq<nat>, i: int, j: int)
    requires 0 <= i < |s| && 0 <= j < |s|
  {
    s[i] < s[j]
  }

  ghost predicate FirstAt(keys: seq<int>, labels: Labels, l: int, p: nat)
    requires Labelled(labels, keys)
  {
    p < |keys| && labels[keys[p]] == l && forall k :: 0 <= k < p ==> labels[keys[k]] != l
  }

  method GroupByLabel(keys: seq<int>, labels: Labels)
    returns (groups: map<int, seq<int>>, order: seq<int>, ghost firsts: seq<nat>)
    requires Labelled(labels, keys)
    ensures Grouped(keys, labels, |keys|, groups, order) && FirstSeen(keys, labels, order, firsts)
  {
    groups, order, firsts := map[], [], [];
    for i := 0 to |keys|
      invariant Grouped(keys, labels, i, groups, order)
      invariant FirstSeen(keys, labels, order, firsts) && AllBelow(firsts, i)
    {
      firsts := FirstSeenNext(keys, labels, groups, order, firsts, i);
      groups, order := GroupNext(keys, labels, i, groups, order);
    }
  }

  lemma FirstSeenNext(
    keys: seq<int>, labels: Labels, groups: map<int, seq<int>>, order: seq<int>, firsts: seq<nat>, i: nat
  ) returns (next: seq<nat>)
    requires i < |keys| && Labelled(labels, keys) && FirstSeen(keys, labels, order, firsts) && AllBelow(firsts, i)
    requires Seen(keys, labels, i, groups) && forall l :: l in order <==> l in groups
    ensures
      var l := labels[keys[i]];
      FirstSeen(keys, labels, if l in groups then order else order + [l], next) && AllBelow(next, i + 1)
  {
    var l := labels[keys[i]];
    next := if l in groups then firsts else firsts + [i];
    if l !in groups {
      assert FirstAt(keys, labels, l, i);
      forall a, b | 0 <= a < b < |next|
        ensures InOrder(next, a, b)
      {
        assert b < |firsts| ==> InOrder(firsts, a, b);
      }
    }
  }

  ghost predicate AllBelow(s: seq<nat>, n: nat) {
    forall j :: 0 <= j < |s| ==> s[j] < n
  }

  method GroupNext(keys: seq<int>, labels: Labels, i: nat, before: map<int, seq<int>>, beforeOrder: seq<int>)
    returns (groups: map<int, seq<int>>, order: seq<int>)
    requires i < |keys| && Labelled(labels, keys) && Grouped(keys, labels, i, before, beforeOrder)
    ensures Grouped(keys, labels, i + 1, groups, order)
    ensures order == if labels[keys[i]] in before then beforeOrder else beforeOrder + [labels[keys[i]]]
  {
    groups, order := before, beforeOrder;
    var l := labels[keys[i]];
    if l !in groups {
      groups := groups[l := []];
      order := order + [l];
    }
    groups := groups[l := groups[l] + [keys[i]]];
    ContentsKept(keys, labels, i, i + 1, before, groups);
    OrderKept(before, beforeOrder, groups, order, l);
  }

  ghost predicate Holds(keys: seq<int>, labels: Labels, n: nat, groups: map<int, seq<int>>, l: int)
    requires n <= |keys| && Labelled(labels, keys)
  {
    Members(keys[..n], labels, l) == if l in groups then groups[l] else []
  }

  lemma ContentsKept(
    keys: seq<int>, labels: Labels, i: nat, n: nat, before: map<int, seq<int>>, groups: map<int, seq<int>>
  )
    requires i < |keys| && Labelled(labels, keys) && forall l :: Holds(keys, labels, i, before, l)
    requires
      var k := keys[i];
      groups == before[labels[k] := (if labels[k] in before then before[labels[k]] else []) + [k]]
    requires n == i + 1
    ensures forall l :: Holds(keys, labels, n, groups, l)
  {
    forall l
      ensures Holds(keys, labels, n, groups, l)
    {
      assert Holds(keys, labels, i, before, l);
      MembersGrow(keys, labels, i, l);
    }
  }

  lemma OrderKept(
    before: map<int, seq<int>>, beforeOrder: seq<int>, groups: map<int, seq<int>>, order: seq<int>, l: int
  )
    requires Distinct(beforeOrder) && forall k :: k in beforeOrder <==> k in before
    requires groups.Keys == before.Keys + {l} && order == if l in before then beforeOrder else beforeOrder + [l]
    ensures Distinct(order) && forall k :: k in order <==> k in groups
  {
    forall i | 0 <= i < |beforeOrder|
      ensures l !in before ==> beforeOrder[i] != l
    {
      var k := beforeOrder[i];
      assert k in beforeOrder;
    }
    forall k
      ensures k in order <==> k in groups.Keys
    {
      assert k in order <==> k in beforeOrder || (l !in before && k == l);
    }
  }

  lemma MembersGrow(keys: seq<int>, labels: Labels, i: nat, l: int)
    requires i < |keys| && Labelled(labels, keys)
    ensures Members(keys[..i + 1], labels, l) ==
      Members(keys[..i], labels, l) + (if labels[keys[i]] == l then [keys[i]] else [])
  {
    assert keys[..i + 1][..i] == keys[..i];
  }

  // ---- associations inside a group

  /** Loop-free, symmetric, without repeated neighbours. */
  ghost predicate Simple(adj: Adjacency) {
    && (forall a, b :: a in adj && b in adj[a] ==> b in adj && a in adj[b] && a != b)
    && (forall a :: a in adj ==> Distinct(adj[a]))
  }

  /** The first n neighbours of a that lie in ms. */
  function Inside(ns: seq<int>, ms: set<int>, n: nat): nat
    requires n <= |ns|
  {
    if n == 0 then 0 else Inside(ns, ms, n - 1) + if ns[n - 1] in ms then 1 else 0
  }

  /** The sum of the degrees, within ms, of the first n members. */
  function DegreeSum(adj: Adjacency, members: seq<int>, ms: set<int>, n: nat): nat
    requires n <= |members| && forall i :: 0 <= i < |members| ==> members[i] in adj
  {
    if n == 0 then 0
    else DegreeSum(adj, members, ms, n - 1) + Inside(adj[members[n - 1]], ms, |adj[members[n - 1]]|)
  }

  /** The linked pairs (a, b) with a among the first n members and b in ms. */
  ghost function Ordered(adj: Adjacency, members: seq<int>, ms: set<int>, n: nat): set<(int, int)>
    requires n <= |members| && forall i :: 0 <= i < |members| ==> members[i] in adj
  {
    set i, b | 0 <= i < n && b in adj[members[i]] && b in ms :: (members[i], b)
  }

  /** Each linked pair of members once, smaller id first. */
  ghost function LinkedPairs(adj: Adjacency, ms: set<int>): set<(int, int)> {
    set a, b | a in ms && a in adj && b in adj[a] && b in ms && a < b :: (a, b)
  }

  lemma {:induction false} InsideIsCount(ns: seq<int>, ms: set<int>, n: nat)
    requires n <= |ns| && Distinct(ns)
    ensures Inside(ns, ms, n) == |set b | b in ns[..n] && b in ms|
  {
    if n > 0 {
      InsideIsCount(ns, ms, n - 1);
      var was := set b | b in ns[..n - 1] && b in ms;
      var now := set b | b in ns[..n] && b in ms;
      assert ns[..n] == ns[..n - 1] + [ns[n - 1]];
      assert now == if ns[n - 1] in ms then was + {ns[n - 1]} else was;
    }
  }

  lemma Pick<T>(s: set<T>) returns (x: T)
    requires s != {}
    ensures x in s
  {
    x :| x in s;
  }

  lemma {:induction false} PairWith(a: int, bs: set<int>)
    ensures |set b | b in bs :: (a, b)| == |bs|
    decreases bs
  {
    var ps := set b | b in bs :: (a, b);
    if bs != {} {
      var b := Pick(bs);
      PairWith(a, bs - {b});
      assert ps == (set c | c in bs - {b} :: (a, c)) + {(a, b)};
    }
  }

  lemma {:induction false} DegreesCountOrdered(adj: Adjacency, members: seq<int>, ms: set<int>, n: nat)
    requires n <= |members| && forall i :: 0 <= i < |members| ==> members[i] in adj
    requires Distinct(members) && forall a :: a in adj ==> Distinct(adj[a])
    ensures DegreeSum(adj, members, ms, n) == |Ordered(adj, members, ms, n)|
  {
    if n == 0 {
      assert Ordered(adj, members, ms, 0) == {};
    } else {
      DegreesCountOrdered(adj, members, ms, n - 1);
      InsideIsCount(adj[members[n - 1]], ms, |adj[members[n - 1]]|);
      OrderedStep(adj, members, ms, n);
    }
  }

  lemma OrderedNext(adj: Adjacency, members: seq<int>, ms: set<int>, n: nat, p: (int, int))
    requires 0 < n <= |members| && forall i :: 0 <= i < |members| ==> members[i] in adj
    ensures p in Ordered(adj, members, ms, n) <==>
      p in Ordered(adj, members, ms, n - 1) || (p.0 == members[n - 1] && p.1 in adj[members[n - 1]] && p.1 in ms)
  {
    var was, now := Ordered(adj, members, ms, n - 1), Ordered(adj, members, ms, n);
    if p in now {
      var i, b :| 0 <= i < n && b in adj[members[i]] && b in ms && p == (members[i], b);
      if i < n - 1 {
        assert (members[i], b) in was;
      }
    }
    if p in was {
      var i, b :| 0 <= i < n - 1 && b in adj[members[i]] && b in ms && p == (members[i], b);
      assert (members[i], b) in now;
    }
    if p.0 == members[n - 1] && p.1 in adj[members[n - 1]] && p.1 in ms {
      var i, b := n - 1, p.1;
      assert b in adj[members[i]] && b in ms;
      assert (members[i], b) in now;
    }
  }

  lemma OrderedStep(adj: Adjacency, members: seq<int>, ms: set<int>, n: nat)
    requires 0 < n <= |members| && forall i :: 0 <= i < |members| ==> members[i] in adj
    requires Distinct(members)
    ensures
      var ns := adj[members[n - 1]];
      |Ordered(adj, members, ms, n)| ==
        |Ordered(adj, members, ms, n - 1)| + |set b | b in ns[..|ns|] && b in ms|
  {
    var ns := adj[members[n - 1]];
    assert ns[..|ns|] == ns;
    var added := OrderedGrows(adj, members, ms, n);
    DisjointSize(Ordered(adj, members, ms, n - 1), added, Ordered(adj, members, ms, n));
    assert (set b | b in ns[..|ns|] && b in ms) == (set b | b in ns && b in ms);
  }

  lemma OrderedGrows(adj: Adjacency, members: seq<int>, ms: set<int>, n: nat) returns (added: set<(int, int)>)
    requires 0 < n <= |members| && forall i :: 0 <= i < |members| ==> members[i] in adj
    requires Distinct(members)
    ensures Ordered(adj, members, ms, n) == Ordered(adj, members, ms, n - 1) + added
    ensures Ordered(adj, members, ms, n - 1) !! added
    ensures |added| == |set b | b in adj[members[n - 1]] && b in ms|
  {
    var a, ns := members[n - 1], adj[members[n - 1]];
    var bs := set b | b in ns && b in ms;
    PairWith(a, bs);
    added := set b | b in bs :: (a, b);
    forall p: (int, int)
      ensures p in Ordered(adj, members, ms, n) <==> p in Ordered(adj, members, ms, n - 1) || p in added
    {
      OrderedNext(adj, members, ms, n, p);
    }
  }

  lemma DisjointSize<T>(a: set<T>, b: set<T>, c: set<T>)
    requires a !! b && c == a + b
    ensures |c| == |a| + |b|
  {
  }

  lemma {:induction false} FlipCount(s: set<(int, int)>)
    ensures |set p | p in s :: (p.1, p.0)| == |s|
    decreases s
  {
    if s != {} {
      var p :| p in s;
      FlipCount(s - {p});
      assert (set q | q in s :: (q.1, q.0)) == (set q | q in s - {p} :: (q.1, q.0)) + {(p.1, p.0)};
    }
  }

  ghost function MemberSet(members: seq<int>): set<int> {
    set a | a in members
  }

  /** The degree sum counts every linked pair of members exactly twice. */
  lemma DegreeSumIsTwicePairs(adj: Adjacency, members: seq<int>)
    requires Simple(adj) && Distinct(members) && forall i :: 0 <= i < |members| ==> members[i] in adj
    ensures DegreeSum(adj, members, MemberSet(members), |members|) == 2 * |LinkedPairs(adj, MemberSet(members))|
  {
    var ms := MemberSet(members);
    var all, up := Ordered(adj, members, ms, |members|), LinkedPairs(adj, ms);
    DegreesCountOrdered(adj, members, ms, |members|);
    forall p: (int, int)
      ensures p in all <==> p in up || (p.1, p.0) in up
    {
      OrderedMember(adj, members, p.0, p.1);
    }
    BothWays(all, up);
  }

  lemma BothWays(all: set<(int, int)>, up: set<(int, int)>)
    requires forall p: (int, int) :: p in all <==> p in up || (p.1, p.0) in up
    requires forall p: (int, int) :: p in up ==> p.0 < p.1
    ensures |all| == 2 * |up|
  {
    var down := set p | p in up :: (p.1, p.0);
    FlipCount(up);
    forall p: (int, int)
      ensures p in down <==> (p.1, p.0) in up
    {
      if (p.1, p.0) in up {
        var q := (p.1, p.0);
        assert (q.1, q.0) in down;
      }
    }
    assert all == up + down;
    assert up !! down;
  }

  lemma OrderedMember(adj: Adjacency, members: seq<int>, a: int, b: int)
    requires Simple(adj) && forall i :: 0 <= i < |members| ==> members[i] in adj
    ensures
      var ms := MemberSet(members);
      (a, b) in Ordered(adj, members, ms, |members|) <==>
        (a, b) in LinkedPairs(adj, ms) || (b, a) in LinkedPairs(adj, ms)
  {
    if a in members {
      var i :| 0 <= i < |members| && members[i] == a;
    }
  }

  lemma {:induction false} DegreeSumBound(adj: Adjacency, members: seq<int>, n: nat)
    requires n <= |members| && Simple(adj) && Distinct(members)
    requires forall i :: 0 <= i < |members| ==> members[i] in adj
    ensures DegreeSum(adj, members, MemberSet(members), n) <= n * (|members| - 1)
  {
    if n > 0 {
      DegreeSumBound(adj, members, n - 1);
      DegreeBound(adj, members, n - 1);
      assert n * (|members| - 1) == (n - 1) * (|members| - 1) + (|members| - 1);
    }
  }

  lemma DegreeBound(adj: Adjacency, members: seq<int>, i: nat)
    requires i < |members| && Simple(adj) && Distinct(members)
    requires forall j :: 0 <= j < |members| ==> members[j] in adj
    ensures Inside(adj[members[i]], MemberSet(members), |adj[members[i]]|) <= |members| - 1
  {
    var a, ms := members[i], MemberSet(members);
    var ns := adj[a];
    InsideIsCount(ns, ms, |ns|);
    assert ns[..|ns|] == ns;
    var bs := set b | b in ns && b in ms;
    assert bs <= ms - {a};
    SubsetSize(bs, ms - {a});
    SetSize(members);
  }

  lemma {:induction false} SetSize(members: seq<int>)
    requires Distinct(members)
    ensures |MemberSet(members)| == |members|
    decreases |members|
  {
    if members != [] {
      var rest := members[..|members| - 1];
      SetSize(rest);
      assert members == rest + [members[|members| - 1]];
      assert MemberSet(members) == MemberSet(rest) + {members[|members| - 1]};
    }
  }

  // ---- one cluster

  /** Linked pairs over possible pairs. */
  function Cohesion(internalEdges: nat, size: nat): real {
    var most := (size * (if size == 0 then 0 else size - 1)) as real / 2.0;
    if most > 0.0 then internalEdges as real / most else 0.0
  }

  method BuildCluster(adj: Adjacency, members: seq<int>) returns (c: Cluster)
    requires Simple(adj) && Distinct(members) && forall i :: 0 <= i < |members| ==> members[i] in adj
    ensures c.members == members
    ensures c.internalEdges == |LinkedPairs(adj, MemberSet(members))|
    ensures c.cohesion == Cohesion(c.internalEdges, |members|) && 0.0 <= c.cohesion <= 1.0
  {
    var ms := set a | a in members;
    var internalEdges := 0;
    for i := 0 to |members|
      invariant internalEdges == DegreeSum(adj, members, ms, i)
    {
      var ns := adj[members[i]];
      var degree := 0;
      for j := 0 to |ns|
        invariant degree == Inside(ns, ms, j)
        invariant internalEdges == DegreeSum(adj, members, ms, i) + degree
      {
        if ns[j] in ms {
          degree := degree + 1;
          internalEdges := internalEdges + 1;
        }
      }
    }
    DegreeSumIsTwicePairs(adj, members);
    DegreeSumBound(adj, members, |members|);
    internalEdges := internalEdges / 2;
    CohesionRange(internalEdges, |members|);
    c := Cluster(members, internalEdges, Cohesion(internalEdges, |members|));
  }

  lemma CohesionRange(e: nat, n: nat)
    requires 2 * e <= n * (n - 1)
    ensures 0.0 <= Cohesion(e, n) <= 1.0
  {
    if n > 1 {
      var most := (n * (n - 1)) as real / 2.0;
      assert n * (n - 1) > 0;
      assert e as real <= most;
      QuotientBounds(e as real, most);
    }
  }

  // ---- all clusters

  predicate IsLink(e: Edge) {
    e.sourceId != e.targetId
  }

  function WithoutLoops(edges: seq<Edge>): seq<Edge> {
    Filter(edges, IsLink)
  }

  lemma NoLoopLeft(edges: seq<Edge>)
    ensures
      var links := WithoutLoops(edges);
      forall i :: 0 <= i < |links| ==> links[i].sourceId != links[i].targetId
  {
    var links := WithoutLoops(edges);
    forall i | 0 <= i < |links|
      ensures links[i].sourceId != links[i].targetId
    {
      var e := links[i];
      assert e in links;
      FilterMember(edges, IsLink, e);
    }
  }

  /** Leaving out loops takes away no link between two different nodes. */
  lemma LinkedWithoutLoops(edges: seq<Edge>, known: set<int>, a: int, b: int)
    ensures Linked(WithoutLoops(edges), known, a, b) <==> a != b && Linked(edges, known, a, b)
  {
    var links := WithoutLoops(edges);
    if Linked(links, known, a, b) {
      var i :| 0 <= i < |links| && Joins(known, links[i], a, b);
      var e := links[i];
      assert e in links;
      FilterMember(edges, IsLink, e);
      var k :| 0 <= k < |edges| && edges[k] == e;
    }
    if a != b && Linked(edges, known, a, b) {
      var i :| 0 <= i < |edges| && Joins(known, edges[i], a, b);
      var e := edges[i];
      assert e in edges;
      FilterMember(edges, IsLink, e);
      var k :| 0 <= k < |links| && links[k] == e;
    }
  }

  lemma ConnectedWithLoops(edges: seq<Edge>, known: set<int>, a: int, b: int)
    requires Connected(WithoutLoops(edges), known, a, b)
    ensures Connected(edges, known, a, b)
  {
    var p :| IsPath(WithoutLoops(edges), known, p, a, b);
    forall i | 0 <= i < |p| - 1
      ensures Linked(edges, known, p[i], p[i + 1])
    {
      assert Linked(WithoutLoops(edges), known, p[i], p[i + 1]);
      LinkedWithoutLoops(edges, known, p[i], p[i + 1]);
    }
    assert IsPath(edges, known, p, a, b);
  }

  lemma PairsWithLoops(edges: seq<Edge>, known: set<int>, ms: set<int>)
    ensures JoinedPairs(WithoutLoops(edges), known, ms) == JoinedPairs(edges, known, ms)
  {
    forall a, b
      ensures a < b ==> (Linked(WithoutLoops(edges), known, a, b) <==> Linked(edges, known, a, b))
    {
      LinkedWithoutLoops(edges, known, a, b);
    }
  }

  lemma ClustersWithLoops(edges: seq<Edge>, known: set<int>, minClusterSize: int, clusters: seq<Cluster>)
    requires ClustersOk(WithoutLoops(edges), known, minClusterSize, clusters)
    ensures ClustersOk(edges, known, minClusterSize, clusters)
  {
    forall c | c in clusters
      ensures ClusterOk(edges, known, c)
    {
      assert ClusterOk(WithoutLoops(edges), known, c);
      PairsWithLoops(edges, known, MemberSet(c.members));
      forall a, b | a in c.members && b in c.members
        ensures Connected(edges, known, a, b)
      {
        ConnectedWithLoops(edges, known, a, b);
      }
    }
  }

  /** Each pair of members joined by a usable association once, smaller id first. */
  ghost function JoinedPairs(edges: seq<Edge>, known: set<int>, ms: set<int>): set<(int, int)> {
    set a, b | a in ms && b in ms && a < b && Linked(edges, known, a, b) :: (a, b)
  }

  /** A group of connected nodes with its true number of inner links. */
  ghost predicate ClusterOk(edges: seq<Edge>, known: set<int>, c: Cluster) {
    && Distinct(c.members)
    && (forall a, b :: a in c.members && b in c.members ==> Connected(edges, known, a, b))
    && c.internalEdges == |JoinedPairs(edges, known, MemberSet(c.members))|
    && 0.0 <= c.cohesion <= 1.0
    && c.cohesion == Cohesion(c.internalEdges, |c.members|)
  }

  ghost predicate ClustersOk(edges: seq<Edge>, known: set<int>, minClusterSize: int, clusters: seq<Cluster>) {
    && (forall c :: c in clusters ==> ClusterOk(edges, known, c) && |c.members| >= minClusterSize)
    && (forall i, j :: 0 <= i < j < |clusters| ==> Apart(clusters[i].members, clusters[j].members))
  }

  /** All nodes carrying label l. */
  ghost function ClassOf(labels: Labels, l: int): set<int> {
    set n | n in labels && labels[n] == l
  }

  ghost predicate HasCluster(labels: Labels, clusters: seq<Cluster>, l: int) {
    exists i :: 0 <= i < |clusters| && MemberSet(clusters[i].members) == ClassOf(labels, l)
  }

  // Every label among the first n whose class is large enough has its class as a cluster.
  ghost predicate Complete(labels: Labels, minClusterSize: int, order: seq<int>, n: nat, clusters: seq<Cluster>)
    requires n <= |order|
  {
    forall i :: 0 <= i < n && |ClassOf(labels, order[i])| >= minClusterSize ==> HasCluster(labels, clusters, order[i])
  }

  /** The clusters are exactly the label classes of at least minClusterSize nodes. */
  ghost predicate AreClasses(labels: Labels, minClusterSize: int, clusters: seq<Cluster>) {
    && (forall n :: n in labels && |ClassOf(labels, labels[n])| >= minClusterSize ==>
          HasCluster(labels, clusters, labels[n]))
    && (forall c :: c in clusters ==> exists l :: MemberSet(c.members) == ClassOf(labels, l))
  }

  ghost predicate ClassAmong(labels: Labels, order: seq<int>, n: nat, ms: set<int>)
    requires n <= |order|
  {
    exists k :: 0 <= k < n && ms == ClassOf(labels, order[k])
  }

  // Clusters built from the first n labels of order.
  ghost predicate FromLabels(labels: Labels, order: seq<int>, n: nat, clusters: seq<Cluster>)
    requires n <= |order|
  {
    forall i :: 0 <= i < |clusters| ==> ClassAmong(labels, order, n, MemberSet(clusters[i].members))
  }

  lemma LoopFreeIsSimple(edges: seq<Edge>, known: set<int>, adj: Adjacency, keys: seq<int>)
    requires Represents(edges, known, adj, keys) && KeysOf(edges, known, |edges|, adj, keys)
    requires forall i :: 0 <= i < |edges| ==> edges[i].sourceId != edges[i].targetId
    ensures Simple(adj)
  {
    forall a, b | a in adj && b in adj[a]
      ensures b in adj && a in adj[b] && a != b
    {
      LinkedBothWays(edges, known, a, b);
      var i :| 0 <= i < |edges| && Joins(known, edges[i], a, b);
    }
  }

  lemma PairsAgree(edges: seq<Edge>, known: set<int>, adj: Adjacency, keys: seq<int>, ms: set<int>)
    requires Represents(edges, known, adj, keys) && forall a :: a in ms ==> a in adj
    ensures LinkedPairs(adj, ms) == JoinedPairs(edges, known, ms)
  {
  }

  lemma SameLabelConnected(
    edges: seq<Edge>, known: set<int>, adj: Adjacency, labels: Labels, a: int, b: int
  )
    requires Local(adj, Connects(edges, known), labels) && a in labels && b in labels && labels[a] == labels[b]
    ensures Connected(edges, known, a, b)
  {
    var same := Connects(edges, known);
    assert LocalAt(adj, same, labels, a) && LocalAt(adj, same, labels, b);
    assert same(a, labels[a]) && same(b, labels[b]);
    ConnectedIsEquivalence(edges, known, b, labels[b], a);
    ConnectedIsEquivalence(edges, known, a, labels[a], b);
  }

  // The propagation behind a set of clusters.
  datatype Propagation = Propagation(
    adj: Adjacency, keys: seq<int>, rounds: seq<seq<Labels>>, labels: Labels, converged: bool
  )

  /** The graph of the associations: two different nodes are neighbours exactly when one joins them. */
  ghost predicate GraphOf(edges: seq<Edge>, known: set<int>, adj: Adjacency) {
    && (forall a, b :: IsNeighbour(adj, a, b) <==> a != b && Linked(edges, known, a, b))
    && (forall a :: a in adj ==> adj[a] != [])
    && Simple(adj)
  }

  /**
   * Clusters over the knowledge associations: the classes of the propagated labels, pairwise disjoint,
   * each inside one connected component, each with its exact number of inner links and a cohesion
   * between 0 and 1. The nodes propagated over are those with a link, in order of first appearance.
   */
  method ComputeClusters(allEdges: seq<Edge>, known: set<int>, minClusterSize: int)
    returns (clusters: seq<Cluster>, ghost p: Propagation)
    ensures ClustersOk(allEdges, known, minClusterSize, clusters)
    ensures GraphOf(allEdges, known, p.adj) && Distinct(p.keys) && forall a :: a in p.keys <==> a in p.adj
    ensures p.keys == FirstAppearances(EndsOf(WithoutLoops(allEdges), known))
    ensures IsRun(p.adj, p.keys, p.rounds, p.labels, p.converged) && p.labels.Keys == p.adj.Keys
    ensures AreClasses(p.labels, minClusterSize, clusters)
  {
    var edges := WithoutLoops(allEdges);
    var adj, keys := BuildAdjacency(edges, known);
    AdjacencyRepresents(edges, known, adj, keys);
    NoLoopLeft(allEdges);
    LoopFreeIsSimple(edges, known, adj, keys);
    ConnectsCoherent(edges, known, adj, keys);
    var labels, converged, rounds := Propagate(adj, keys, Connects(edges, known));
    p := Propagation(adj, keys, rounds, labels, converged);
    assert forall n :: n in labels.Keys <==> n in adj.Keys;
    clusters := CollectClusters(edges, known, adj, keys, labels, minClusterSize);
    ClustersWithLoops(allEdges, known, minClusterSize, clusters);
    GraphIsOf(allEdges, known, adj, keys);
  }

  lemma GraphIsOf(allEdges: seq<Edge>, known: set<int>, adj: Adjacency, keys: seq<int>)
    requires Represents(WithoutLoops(allEdges), known, adj, keys) && Simple(adj)
    requires forall a :: a in adj ==> adj[a] != []
    ensures GraphOf(allEdges, known, adj)
  {
    forall a, b
      ensures IsNeighbour(adj, a, b) <==> a != b && Linked(allEdges, known, a, b)
    {
      LinkedWithoutLoops(allEdges, known, a, b);
    }
  }

  lemma KeysLabelled(adj: Adjacency, keys: seq<int>, same: (int, int) -> bool, labels: Labels)
    requires (forall a :: a in keys <==> a in adj) && Local(adj, same, labels)
    ensures Labelled(labels, keys)
  {
    forall i | 0 <= i < |keys|
      ensures keys[i] in labels
    {
      var k := keys[i];
      assert k in keys;
      assert k in adj;
    }
  }

  method CollectClusters(
    ghost edges: seq<Edge>, ghost known: set<int>, adj: Adjacency, keys: seq<int>, labels: Labels, minClusterSize: int
  ) returns (clusters: seq<Cluster>)
    requires Represents(edges, known, adj, keys) && Simple(adj) && Distinct(keys)
    requires Local(adj, Connects(edges, known), labels)
    ensures ClustersOk(edges, known, minClusterSize, clusters)
    ensures AreClasses(labels, minClusterSize, clusters)
  {
    KeysLabelled(adj, keys, Connects(edges, known), labels);
    var groups, order, _ := GroupByLabel(keys, labels);
    ghost var same := Connects(edges, known);
    clusters := [];
    for i := 0 to |order|
      invariant ClustersOk(edges, known, minClusterSize, clusters)
      invariant FromLabels(labels, order, i, clusters) && Complete(labels, minClusterSize, order, i, clusters)
    {
      LabelHasGroup(keys, labels, groups, order, i);
      var members := groups[order[i]];
      GroupFacts(adj, same, keys, labels, groups, order, order[i]);
      SetSize(members);
      ghost var before := clusters;
      if |members| >= minClusterSize {
        var c := BuildCluster(adj, members);
        GroupIsOk(edges, known, adj, keys, labels, order[i], c);
        clusters := clusters + [c];
        AppendCluster(edges, known, minClusterSize, labels, order, i, before, c);
      } else {
        FromLabelsGrows(labels, order, i, clusters);
      }
    }
    AllClasses(keys, labels, groups, order, minClusterSize, clusters);
  }

  lemma LabelHasGroup(keys: seq<int>, labels: Labels, groups: map<int, seq<int>>, order: seq<int>, i: nat)
    requires Labelled(labels, keys) && Grouped(keys, labels, |keys|, groups, order) && i < |order|
    ensures order[i] in groups
  {
    var l := order[i];
    assert l in order;
    assert l in groups;
  }

  lemma FromLabelsGrows(labels: Labels, order: seq<int>, i: nat, clusters: seq<Cluster>)
    requires i < |order| && FromLabels(labels, order, i, clusters)
    ensures FromLabels(labels, order, i + 1, clusters)
  {
    forall j | 0 <= j < |clusters|
      ensures ClassAmong(labels, order, i + 1, MemberSet(clusters[j].members))
    {
      assert ClassAmong(labels, order, i, MemberSet(clusters[j].members));
    }
  }

  lemma AllClasses(
    keys: seq<int>, labels: Labels, groups: map<int, seq<int>>, order: seq<int>, minClusterSize: int,
    clusters: seq<Cluster>
  )
    requires Labelled(labels, keys) && Grouped(keys, labels, |keys|, groups, order)
    requires forall n :: n in labels ==> n in keys
    requires Complete(labels, minClusterSize, order, |order|, clusters) && FromLabels(labels, order, |order|, clusters)
    ensures AreClasses(labels, minClusterSize, clusters)
  {
    forall n | n in labels && |ClassOf(labels, labels[n])| >= minClusterSize
      ensures HasCluster(labels, clusters, labels[n])
    {
      var k :| 0 <= k < |keys| && keys[k] == n;
      assert labels[n] in order;
      var i :| 0 <= i < |order| && order[i] == labels[n];
    }
    forall c | c in clusters
      ensures exists l :: MemberSet(c.members) == ClassOf(labels, l)
    {
      var j :| 0 <= j < |clusters| && clusters[j] == c;
      assert ClassAmong(labels, order, |order|, MemberSet(clusters[j].members));
    }
  }

  lemma GroupFacts(
    adj: Adjacency, same: (int, int) -> bool, keys: seq<int>, labels: Labels, groups: map<int, seq<int>>,
    order: seq<int>, l: int
  )
    requires Distinct(keys) && Labelled(labels, keys) && (forall n :: n in labels ==> n in keys)
    requires Local(adj, same, labels)
    requires Grouped(keys, labels, |keys|, groups, order) && l in groups
    ensures Distinct(groups[l]) && forall i :: 0 <= i < |groups[l]| ==> groups[l][i] in adj
    ensures MemberSet(groups[l]) == ClassOf(labels, l)
  {
    assert keys[..|keys|] == keys;
    assert Holds(keys, labels, |keys|, groups, l);
    var ms := groups[l];
    MembersAre(keys, labels, l);
    forall i | 0 <= i < |ms|
      ensures ms[i] in adj
    {
      assert ms[i] in ms && ms[i] in labels;
    }
    forall n | n in labels && labels[n] == l
      ensures n in ms
    {
      var k :| 0 <= k < |keys| && keys[k] == n;
    }
  }

  lemma GroupIsOk(
    edges: seq<Edge>, known: set<int>, adj: Adjacency, keys: seq<int>, labels: Labels, l: int, c: Cluster
  )
    requires Represents(edges, known, adj, keys) && Local(adj, Connects(edges, known), labels)
    requires Distinct(c.members) && MemberSet(c.members) == ClassOf(labels, l)
    requires c.internalEdges == |LinkedPairs(adj, MemberSet(c.members))|
    requires c.cohesion == Cohesion(c.internalEdges, |c.members|) && 0.0 <= c.cohesion <= 1.0
    ensures ClusterOk(edges, known, c)
  {
    forall a | a in c.members
      ensures a in adj && a in labels && labels[a] == l
    {
      assert a in MemberSet(c.members);
    }
    PairsAgree(edges, known, adj, keys, MemberSet(c.members));
    forall a, b | a in c.members && b in c.members
      ensures Connected(edges, known, a, b)
    {
      SameLabelConnected(edges, known, adj, labels, a, b);
    }
  }

  lemma AppendCluster(
    edges: seq<Edge>, known: set<int>, minClusterSize: int, labels: Labels, order: seq<int>, i: nat,
    clusters: seq<Cluster>, c: Cluster
  )
    requires ClustersOk(edges, known, minClusterSize, clusters) && i < |order| && Distinct(order)
    requires FromLabels(labels, order, i, clusters) && Complete(labels, minClusterSize, order, i, clusters)
    requires ClusterOk(edges, known, c) && |c.members| >= minClusterSize
    requires MemberSet(c.members) == ClassOf(labels, order[i])
    ensures ClustersOk(edges, known, minClusterSize, clusters + [c])
    ensures FromLabels(labels, order, i + 1, clusters + [c])
    ensures Complete(labels, minClusterSize, order, i + 1, clusters + [c])
  {
    var longer := clusters + [c];
    forall j | 0 <= j < |clusters|
      ensures Apart(clusters[j].members, c.members)
    {
      EarlierIsApart(labels, order, i, clusters[j].members, c.members);
    }
    FromLabelsGrows(labels, order, i, clusters);
    forall j | 0 <= j < |longer|
      ensures ClassAmong(labels, order, i + 1, MemberSet(longer[j].members))
    {
      assert j < |clusters| ==> ClassAmong(labels, order, i + 1, MemberSet(clusters[j].members));
    }
    forall k | 0 <= k < i + 1 && |ClassOf(labels, order[k])| >= minClusterSize
      ensures HasCluster(labels, longer, order[k])
    {
      if k < i {
        assert HasCluster(labels, clusters, order[k]);
        var j :| 0 <= j < |clusters| && MemberSet(clusters[j].members) == ClassOf(labels, order[k]);
        assert longer[j] == clusters[j];
      } else {
        assert longer[|clusters|] == c;
      }
    }
  }

  lemma EarlierIsApart(labels: Labels, order: seq<int>, i: nat, before: seq<int>, now: seq<int>)
    requires i < |order| && Distinct(order) && ClassAmong(labels, order, i, MemberSet(before))
    requires MemberSet(now) == ClassOf(labels, order[i])
    ensures Apart(before, now)
  {
    forall a | a in before
      ensures a !in now
    {
      assert a in MemberSet(before);
      assert a in now ==> a in MemberSet(now);
    }
  }

  /** Cohesion is the share of possible pairs that are linked: 1 exactly when all of them are, 0 if there are none. */
  lemma CohesionMeaning(e: nat, n: nat)
    ensures n <= 1 ==> Cohesion(e, n) == 0.0
    ensures n > 1 ==> Cohesion(e, n) * ((n * (n - 1)) as real) == 2.0 * e as real
    ensures n > 1 ==> (Cohesion(e, n) == 1.0 <==> 2 * e == n * (n - 1))
  {
    if n > 1 {
      SharedPairs(e, n);
    }
  }

  lemma SharedPairs(e: nat, n: nat)
    requires n > 1
    ensures Cohesion(e, n) * ((n * (n - 1)) as real) == 2.0 * e as real
    ensures Cohesion(e, n) == 1.0 <==> 2 * e == n * (n - 1)
  {
    var pairs := (n * (n - 1)) as real;
    assert n * (n - 1) > 0;
    ShareOfPairs(e as real, pairs);
  }

  lemma ShareOfPairs(e: real, pairs: real)
    requires pairs > 0.0
    ensures e / (pairs / 2.0) * pairs == 2.0 * e
    ensures e / (pairs / 2.0) == 1.0 <==> 2.0 * e == pairs
  {
    var half := pairs / 2.0;
    assert e / half * half == e;
    assert e / half * pairs == 2.0 * (e / half * half);
  }
}
