/**
 * Contradiction clusters (src/core/knowledge-lint.ts): the connected components, of two or more
 * members, of the contradiction graph restricted to known knowledge ids.
 */
module ContradictionClusters {
  import opened Sequences
  import opened AdjacencyMaps

  datatype Edge = Edge(sourceId: int, targetId: int)

  type Adjacency = map<int, seq<int>>

  // ---- the graph

  /** A usable contradiction between a and b, in either direction. */
  predicate Joins(known: set<int>, e: Edge, a: int, b: int) {
    e.sourceId in known && e.targetId in known && Ends(e.sourceId, e.targetId, a, b)
  }

  ghost predicate Linked(edges: seq<Edge>, known: set<int>, a: int, b: int) {
    exists i :: 0 <= i < |edges| && Joins(known, edges[i], a, b)
  }

  ghost predicate IsPath(edges: seq<Edge>, known: set<int>, p: seq<int>, a: int, b: int) {
    && |p| > 0 && p[0] == a && p[|p| - 1] == b
    && forall i :: 0 <= i < |p| - 1 ==> Linked(edges, known, p[i], p[i + 1])
  }

  ghost predicate Connected(edges: seq<Edge>, known: set<int>, a: int, b: int) {
    exists p :: IsPath(edges, known, p, a, b)
  }

  lemma ConnectedSelf(edges: seq<Edge>, known: set<int>, a: int)
    ensures Connected(edges, known, a, a)
  {
    assert IsPath(edges, known, [a], a, a);
  }

  lemma ConnectedStep(edges: seq<Edge>, known: set<int>, a: int, b: int, c: int)
    requires Connected(edges, known, a, b) && Linked(edges, known, b, c)
    ensures Connected(edges, known, a, c)
  {
    var p :| IsPath(edges, known, p, a, b);
    assert IsPath(edges, known, p + [c], a, c);
  }

  lemma {:induction false} ConnectedTrans(edges: seq<Edge>, known: set<int>, a: int, b: int, c: int, p: seq<int>)
    requires Connected(edges, known, a, b) && IsPath(edges, known, p, b, c)
    ensures Connected(edges, known, a, c)
    decreases |p|
  {
    if |p| > 1 {
      assert Linked(edges, known, p[0], p[1]);
      ConnectedStep(edges, known, a, b, p[1]);
      assert IsPath(edges, known, p[1..], p[1], c);
      ConnectedTrans(edges, known, a, p[1], c, p[1..]);
    }
  }

  lemma {:induction false} ConnectedReverse(edges: seq<Edge>, known: set<int>, a: int, b: int, p: seq<int>)
    requires IsPath(edges, known, p, a, b)
    ensures Connected(edges, known, b, a)
    decreases |p|
  {
    if |p| == 1 {
      ConnectedSelf(edges, known, a);
    } else {
      var q := p[..|p| - 1];
      var u := q[|q| - 1];
      assert Linked(edges, known, u, b) by {
        assert Linked(edges, known, p[|p| - 2], p[|p| - 1]);
      }
      LinkedBothWays(edges, known, u, b);
      ConnectedReverse(edges, known, a, u, q);
      ConnectedSelf(edges, known, b);
      ConnectedStep(edges, known, b, b, u);
      var r :| IsPath(edges, known, r, u, a);
      ConnectedTrans(edges, known, b, u, a, r);
    }
  }

  lemma LinkedBothWays(edges: seq<Edge>, known: set<int>, a: int, b: int)
    requires Linked(edges, known, a, b)
    ensures Linked(edges, known, b, a)
  {
    var i :| 0 <= i < |edges| && Joins(known, edges[i], a, b);
    assert Joins(known, edges[i], b, a);
  }

  /** Connectedness is an equivalence. */
  lemma ConnectedIsEquivalence(edges: seq<Edge>, known: set<int>, a: int, b: int, c: int)
    ensures Connected(edges, known, a, a)
    ensures Connected(edges, known, a, b) ==> Connected(edges, known, b, a)
    ensures Connected(edges, known, a, b) && Connected(edges, known, b, c) ==> Connected(edges, known, a, c)
  {
    ConnectedSelf(edges, known, a);
    if Connected(edges, known, a, b) {
      var p :| IsPath(edges, known, p, a, b);
      ConnectedReverse(edges, known, a, b, p);
      if Connected(edges, known, b, c) {
        var q :| IsPath(edges, known, q, b, c);
        ConnectedTrans(edges, known, a, b, c, q);
      }
    }
  }

  // ---- building the adjacency map

  predicate Usable(known: set<int>, e: Edge) {
    e.sourceId in known && e.targetId in known
  }

  ghost predicate KeysOf(edges: seq<Edge>, known: set<int>, n: nat, adj: Adjacency, keys: seq<int>)
    requires n <= |edges|
  {
    && Distinct(keys) && (forall a :: a in keys <==> a in adj)
    && (forall a :: a in adj ==> Distinct(adj[a]) && adj[a] != [])
    && (forall a, b :: a in adj && b in adj[a] ==> b in adj)
    && (forall i, a :: 0 <= i < n && Usable(known, edges[i]) && (edges[i].sourceId == a || edges[i].targetId == a)
         ==> a in adj)
  }

  ghost predicate LinksOf(edges: seq<Edge>, known: set<int>, n: nat, adj: Adjacency)
    requires n <= |edges|
  {
    forall a, b :: IsNeighbour(adj, a, b) <==> JoinedBefore(edges, known, n, a, b)
  }

  ghost predicate JoinedBefore(edges: seq<Edge>, known: set<int>, n: nat, a: int, b: int)
    requires n <= |edges|
  {
    exists i :: 0 <= i < n && Joins(known, edges[i], a, b)
  }

  lemma JoinedNext(edges: seq<Edge>, known: set<int>, n: nat, a: int, b: int)
    requires n < |edges|
    ensures JoinedBefore(edges, known, n + 1, a, b) <==>
      JoinedBefore(edges, known, n, a, b) || Joins(known, edges[n], a, b)
  {
    if JoinedBefore(edges, known, n, a, b) {
      var i :| 0 <= i < n && Joins(known, edges[i], a, b);
      assert 0 <= i < n + 1;
    }
  }

  method AddEdge(known: set<int>, e: Edge, before: Adjacency, beforeKeys: seq<int>)
    returns (adj: Adjacency, keys: seq<int>)
    requires Usable(known, e) && Distinct(beforeKeys) && forall a :: a in beforeKeys <==> a in before
    ensures Distinct(keys) && forall a :: a in keys <==> a in adj
    ensures keys == WithKey(WithKey(beforeKeys, e.sourceId), e.targetId)
    ensures WithEdge(e.sourceId, e.targetId, before, adj)
  {
    adj, keys := EnsureKey(before, beforeKeys, e.sourceId);
    adj, keys := EnsureKey(adj, keys, e.targetId);
    ghost var nodes := adj;
    adj := AddNeighbour(adj, e.sourceId, e.targetId);
    ghost var half := adj;
    adj := AddNeighbour(adj, e.targetId, e.sourceId);
    BothDirections(e.sourceId, e.targetId, before, nodes, half, adj);
  }

  method EnsureKey(before: Adjacency, beforeKeys: seq<int>, a: int) returns (adj: Adjacency, keys: seq<int>)
    requires Distinct(beforeKeys) && forall x :: x in beforeKeys <==> x in before
    ensures adj == Ensure(before, a) && keys == WithKey(beforeKeys, a)
    ensures Distinct(keys) && forall x :: x in keys <==> x in adj
  {
    keys := beforeKeys;
    if a !in before {
      keys := keys + [a];
    }
    adj := Ensure(before, a);
  }

  function WithKey(keys: seq<int>, a: int): seq<int> {
    if a in keys then keys else keys + [a]
  }

  /** The ends of the usable edges, in order. */
  function EndsOf(edges: seq<Edge>, known: set<int>): seq<int> {
    if edges == [] then []
    else
      var last := edges[|edges| - 1];
      EndsOf(edges[..|edges| - 1], known) + if Usable(known, last) then [last.sourceId, last.targetId] else []
  }

  lemma EndsNext(edges: seq<Edge>, known: set<int>, i: nat)
    requires i < |edges|
    ensures FirstAppearances(EndsOf(edges[..i + 1], known)) ==
      var keys := FirstAppearances(EndsOf(edges[..i], known));
      if Usable(known, edges[i]) then WithKey(WithKey(keys, edges[i].sourceId), edges[i].targetId) else keys
  {
    var ends, e := EndsOf(edges[..i], known), edges[i];
    assert edges[..i + 1][..i] == edges[..i];
    assert ends + [] == ends;
    FirstAppearancesNext(ends, e.sourceId);
    FirstAppearancesNext(ends + [e.sourceId], e.targetId);
    assert ends + [e.sourceId, e.targetId] == ends + [e.sourceId] + [e.targetId];
  }

  method BuildAdjacency(edges: seq<Edge>, known: set<int>) returns (adj: Adjacency, keys: seq<int>)
    ensures KeysOf(edges, known, |edges|, adj, keys) && LinksOf(edges, known, |edges|, adj)
    ensures keys == FirstAppearances(EndsOf(edges, known))
  {
    adj, keys := map[], [];
    for i := 0 to |edges|
      invariant KeysOf(edges, known, i, adj, keys) && LinksOf(edges, known, i, adj)
      invariant keys == FirstAppearances(EndsOf(edges[..i], known))
    {
      adj, keys := ConsiderEdge(edges, known, i, adj, keys);
      EndsNext(edges, known, i);
    }
    assert edges[..|edges|] == edges;
  }

  /** One turn of the loop over the edges. */
  method ConsiderEdge(edges: seq<Edge>, known: set<int>, i: nat, before: Adjacency, beforeKeys: seq<int>)
    returns (adj: Adjacency, keys: seq<int>)
    requires i < |edges| && KeysOf(edges, known, i, before, beforeKeys) && LinksOf(edges, known, i, before)
    ensures KeysOf(edges, known, i + 1, adj, keys) && LinksOf(edges, known, i + 1, adj)
    ensures keys ==
      if Usable(known, edges[i]) then WithKey(WithKey(beforeKeys, edges[i].sourceId), edges[i].targetId)
      else beforeKeys
  {
    adj, keys := before, beforeKeys;
    if Usable(known, edges[i]) {
      adj, keys := AddEdge(known, edges[i], before, beforeKeys);
      EdgeAdded(edges, known, i, before, beforeKeys, adj, keys);
    } else {
      EdgeSkipped(edges, known, i, adj);
    }
  }

  lemma EdgeAdded(
    edges: seq<Edge>, known: set<int>, i: nat, before: Adjacency, beforeKeys: seq<int>, adj: Adjacency, keys: seq<int>
  )
    requires i < |edges| && Usable(known, edges[i])
    requires KeysOf(edges, known, i, before, beforeKeys) && LinksOf(edges, known, i, before)
    requires Distinct(keys) && forall a :: a in keys <==> a in adj
    requires WithEdge(edges[i].sourceId, edges[i].targetId, before, adj)
    ensures KeysOf(edges, known, i + 1, adj, keys) && LinksOf(edges, known, i + 1, adj)
  {
    forall a, b
      ensures IsNeighbour(adj, a, b) <==> JoinedBefore(edges, known, i + 1, a, b)
    {
      assert IsNeighbour(before, a, b) <==> JoinedBefore(edges, known, i, a, b);
      JoinedNext(edges, known, i, a, b);
    }
    forall a, b | a in adj && b in adj[a]
      ensures b in adj
    {
      assert IsNeighbour(before, a, b) || Ends(edges[i].sourceId, edges[i].targetId, a, b);
    }
    forall a | a in adj
      ensures adj[a] != []
    {
      var s, t := edges[i].sourceId, edges[i].targetId;
      var b := if a in before then before[a][0] else if a == s then t else s;
      assert IsNeighbour(before, a, b) || Ends(s, t, a, b);
      assert IsNeighbour(adj, a, b);
    }
  }

  lemma EdgeSkipped(edges: seq<Edge>, known: set<int>, i: nat, adj: Adjacency)
    requires i < |edges| && !Usable(known, edges[i]) && LinksOf(edges, known, i, adj)
    ensures LinksOf(edges, known, i + 1, adj)
  {
    forall a, b
      ensures IsNeighbour(adj, a, b) <==> JoinedBefore(edges, known, i + 1, a, b)
    {
      assert IsNeighbour(adj, a, b) <==> JoinedBefore(edges, known, i, a, b);
      JoinedNext(edges, known, i, a, b);
    }
  }

  // ---- the search

  // The adjacency map is exactly the link relation; every neighbour is a key.
  ghost predicate Represents(edges: seq<Edge>, known: set<int>, adj: Adjacency, keys: seq<int>) {
    && (forall a :: a in keys <==> a in adj)
    && (forall a, b :: a in adj && b in adj[a] ==> b in adj)
    && (forall a, b :: a in adj && b in adj[a] ==> Linked(edges, known, a, b))
    && (forall a, b :: Linked(edges, known, a, b) ==> a in adj && b in adj[a])
  }

  // Everything next to a member of s is in s.
  ghost predicate ClosedUnder(adj: Adjacency, s: set<int>) {
    forall a, b :: a in s && a in adj && b in adj[a] ==> b in s
  }

  lemma {:induction false} ClosedHoldsPaths(
    edges: seq<Edge>, known: set<int>, adj: Adjacency, keys: seq<int>, s: set<int>, a: int, b: int, p: seq<int>
  )
    requires Represents(edges, known, adj, keys) && ClosedUnder(adj, s) && a in s && IsPath(edges, known, p, a, b)
    ensures b in s
    decreases |p|
  {
    if |p| > 1 {
      assert Linked(edges, known, p[0], p[1]);
      assert IsPath(edges, known, p[1..], p[1], b);
      ClosedHoldsPaths(edges, known, adj, keys, s, p[1], b, p[1..]);
    }
  }

  ghost predicate Exploring(
    edges: seq<Edge>, known: set<int>, adj: Adjacency, root: int, done: set<int>, visited: set<int>,
    cluster: seq<int>, stack: seq<int>
  ) {
    && Distinct(cluster)
    && (forall a :: a in visited <==> a in done || a in cluster)
    && (forall a :: a in cluster ==> a !in done)
    && (forall a :: a in cluster || a in stack ==> a in adj && Connected(edges, known, root, a))
    && (forall a, b :: a in cluster && a in adj && b in adj[a] ==> b in visited || b in stack)
    && root !in done && (root in cluster || root in stack)
  }

  method PushUnvisited(neighbours: seq<int>, visited: set<int>, before: seq<int>) returns (stack: seq<int>)
    ensures before <= stack
    ensures forall b :: b in stack <==> b in before || (b in neighbours && b !in visited)
  {
    stack := before;
    for i := 0 to |neighbours|
      invariant before <= stack
      invariant forall b :: b in stack <==> b in before || (b in neighbours[..i] && b !in visited)
    {
      assert neighbours[..i + 1] == neighbours[..i] + [neighbours[i]];
      if neighbours[i] !in visited {
        stack := stack + [neighbours[i]];
      }
    }
    assert neighbours[..|neighbours|] == neighbours;
  }

  method VisitTop(
    ghost edges: seq<Edge>, ghost known: set<int>, adj: Adjacency, ghost keys: seq<int>, ghost root: int,
    ghost done: set<int>, visited: set<int>, cluster: seq<int>, stack: seq<int>
  ) returns (visited': set<int>, cluster': seq<int>, stack': seq<int>)
    requires Represents(edges, known, adj, keys) && stack != []
    requires Exploring(edges, known, adj, root, done, visited, cluster, stack)
    ensures Exploring(edges, known, adj, root, done, visited', cluster', stack')
    ensures (visited' == visited && |stack'| < |stack|) || adj.Keys - visited' < adj.Keys - visited
  {
    var current := stack[|stack| - 1];
    var rest := stack[..|stack| - 1];
    assert stack == rest + [current];
    if current in visited {
      return visited, cluster, rest;
    }
    visited' := visited + {current};
    cluster' := cluster + [current];
    stack' := PushUnvisited(adj[current], visited', rest);
    forall b | b in adj[current]
      ensures Connected(edges, known, root, b)
    {
      ConnectedStep(edges, known, root, current, b);
    }
  }

  // The clusters found so far: whole components of two or more, covering all that was visited.
  ghost predicate Partial(
    edges: seq<Edge>, known: set<int>, adj: Adjacency, visited: set<int>, clusters: seq<seq<int>>
  ) {
    && visited <= adj.Keys && ClosedUnder(adj, visited)
    && (forall c :: c in clusters ==> IsCluster(edges, known, c) && forall a :: a in c ==> a in visited)
    && (forall a, b :: a in visited && b in visited && a != b && Connected(edges, known, a, b) ==>
         Together(clusters, a, b))
    && (forall i, j :: 0 <= i < j < |clusters| ==> Apart(clusters[i], clusters[j]))
  }

  ghost predicate Apart(c: seq<int>, d: seq<int>) {
    forall a :: a in c ==> a !in d
  }

  /** A component of at least two members, each listed once. */
  ghost predicate IsCluster(edges: seq<Edge>, known: set<int>, c: seq<int>) {
    |c| >= 2 && Distinct(c) && forall a, b :: a in c ==> (b in c <==> Connected(edges, known, a, b))
  }

  ghost predicate Together(clusters: seq<seq<int>>, a: int, b: int) {
    exists c :: c in clusters && a in c && b in c
  }

  method Explore(
    ghost edges: seq<Edge>, ghost known: set<int>, adj: Adjacency, ghost keys: seq<int>, root: int, done: set<int>
  ) returns (visited: set<int>, cluster: seq<int>)
    requires Represents(edges, known, adj, keys) && ClosedUnder(adj, done) && root in adj && root !in done
    ensures Exploring(edges, known, adj, root, done, visited, cluster, [])
    ensures Distinct(cluster) && root in cluster
    ensures forall a, b :: a in cluster ==> (b in cluster <==> Connected(edges, known, a, b))
  {
    visited, cluster := done, [];
    var stack := [root];
    ConnectedSelf(edges, known, root);
    while stack != []
      invariant Exploring(edges, known, adj, root, done, visited, cluster, stack)
      decreases adj.Keys - visited, |stack|
    {
      visited, cluster, stack := VisitTop(edges, known, adj, keys, root, done, visited, cluster, stack);
    }
    ExploredIsComponent(edges, known, adj, keys, root, done, visited, cluster);
  }

  lemma ExploredIsComponent(
    edges: seq<Edge>, known: set<int>, adj: Adjacency, keys: seq<int>, root: int, done: set<int>, visited: set<int>,
    cluster: seq<int>
  )
    requires Represents(edges, known, adj, keys) && ClosedUnder(adj, done)
    requires Exploring(edges, known, adj, root, done, visited, cluster, [])
    ensures ClosedUnder(adj, visited)
    ensures forall a, b :: a in cluster ==> (b in cluster <==> Connected(edges, known, a, b))
  {
    var all := set a | a in cluster;
    forall a, b | a in cluster && a in adj && b in adj[a]
      ensures b in cluster
    {
      LinkedBothWays(edges, known, a, b);
    }
    forall a, b | a in cluster
      ensures b in cluster <==> Connected(edges, known, a, b)
    {
      ConnectedIsEquivalence(edges, known, root, a, b);
      ConnectedIsEquivalence(edges, known, a, root, b);
      if Connected(edges, known, a, b) {
        var p :| IsPath(edges, known, p, a, b);
        ClosedHoldsPaths(edges, known, adj, keys, all, a, b, p);
      }
    }
  }

  lemma NextRoot(
    edges: seq<Edge>, known: set<int>, adj: Adjacency, keys: seq<int>, root: int, done: set<int>, visited: set<int>,
    cluster: seq<int>, before: seq<seq<int>>, clusters: seq<seq<int>>
  )
    requires Represents(edges, known, adj, keys) && Partial(edges, known, adj, done, before)
    requires Exploring(edges, known, adj, root, done, visited, cluster, [])
    requires clusters == if |cluster| >= 2 then before + [cluster] else before
    ensures Partial(edges, known, adj, visited, clusters)
  {
    ExploredIsComponent(edges, known, adj, keys, root, done, visited, cluster);
    assert visited <= adj.Keys by {
      assert forall a :: a in visited ==> a in adj;
    }
    forall c | c in before
      ensures Apart(c, cluster)
    {
    }
    forall a, b | a in visited && b in visited && a != b && Connected(edges, known, a, b)
      ensures Together(clusters, a, b)
    {
      MembersTogether(edges, known, adj, done, visited, cluster, before, clusters, a, b);
    }
  }

  lemma MembersTogether(
    edges: seq<Edge>, known: set<int>, adj: Adjacency, done: set<int>, visited: set<int>, cluster: seq<int>,
    before: seq<seq<int>>, clusters: seq<seq<int>>, a: int, b: int
  )
    requires Partial(edges, known, adj, done, before)
    requires forall x :: x in visited <==> x in done || x in cluster
    requires forall x :: x in cluster ==> x !in done
    requires forall x, y :: x in cluster ==> (y in cluster <==> Connected(edges, known, x, y))
    requires clusters == if |cluster| >= 2 then before + [cluster] else before
    requires a in visited && b in visited && a != b && Connected(edges, known, a, b)
    ensures Together(clusters, a, b)
  {
    ConnectedIsEquivalence(edges, known, a, b, a);
    if a in cluster {
      TwoMembers(cluster, a, b);
      assert cluster in clusters;
    } else {
      assert b in done;
      var c :| c in before && a in c && b in c;
      assert c in clusters;
    }
  }

  lemma TwoMembers(c: seq<int>, a: int, b: int)
    requires a in c && b in c && a != b
    ensures |c| >= 2
  {
  }

  /** Clusters are the components of size two or more, each listed once. */
  ghost predicate AreClusters(edges: seq<Edge>, known: set<int>, clusters: seq<seq<int>>) {
    && (forall c :: c in clusters ==> IsCluster(edges, known, c))
    && (forall i, j :: 0 <= i < j < |clusters| ==> Apart(clusters[i], clusters[j]))
    && (forall a, b :: a != b ==> (Together(clusters, a, b) <==> Connected(edges, known, a, b)))
  }

  method CheckContradictionClusters(edges: seq<Edge>, known: set<int>) returns (clusters: seq<seq<int>>)
    ensures AreClusters(edges, known, clusters)
  {
    clusters := [];
    var adj, keys := BuildAdjacency(edges, known);
    AdjacencyRepresents(edges, known, adj, keys);
    var visited: set<int> := {};
    for i := 0 to |keys|
      invariant Partial(edges, known, adj, visited, clusters)
      invariant forall a :: a in keys[..i] ==> a in visited
    {
      assert keys[..i + 1] == keys[..i] + [keys[i]] && keys[i] in keys;
      if keys[i] !in visited {
        visited, clusters := AddCluster(edges, known, adj, keys, keys[i], visited, clusters);
      }
    }
    assert keys[..|keys|] == keys;
    AllVisited(edges, known, adj, keys, visited, clusters);
  }

  method AddCluster(
    ghost edges: seq<Edge>, ghost known: set<int>, adj: Adjacency, ghost keys: seq<int>, root: int, done: set<int>,
    before: seq<seq<int>>
  ) returns (visited: set<int>, clusters: seq<seq<int>>)
    requires Represents(edges, known, adj, keys) && Partial(edges, known, adj, done, before)
    requires root in adj && root !in done
    ensures Partial(edges, known, adj, visited, clusters)
    ensures done <= visited && root in visited
  {
    var cluster;
    visited, cluster := Explore(edges, known, adj, keys, root, done);
    clusters := before;
    if |cluster| >= 2 {
      clusters := clusters + [cluster];
    }
    NextRoot(edges, known, adj, keys, root, done, visited, cluster, before, clusters);
    assert forall a :: a in done ==> a in visited;
  }

  lemma AdjacencyRepresents(edges: seq<Edge>, known: set<int>, adj: Adjacency, keys: seq<int>)
    requires KeysOf(edges, known, |edges|, adj, keys) && LinksOf(edges, known, |edges|, adj)
    ensures Represents(edges, known, adj, keys)
  {
    forall a, b
      ensures Linked(edges, known, a, b) <==> IsNeighbour(adj, a, b)
    {
      assert IsNeighbour(adj, a, b) <==> JoinedBefore(edges, known, |edges|, a, b);
    }
    assert forall a, b :: a in adj && b in adj[a] ==> IsNeighbour(adj, a, b);
  }

  lemma AllVisited(
    edges: seq<Edge>, known: set<int>, adj: Adjacency, keys: seq<int>, visited: set<int>, clusters: seq<seq<int>>
  )
    requires Represents(edges, known, adj, keys) && Partial(edges, known, adj, visited, clusters)
    requires forall a :: a in keys ==> a in visited
    ensures AreClusters(edges, known, clusters)
  {
    forall a, b | a != b && Connected(edges, known, a, b)
      ensures Together(clusters, a, b)
    {
      var p :| IsPath(edges, known, p, a, b);
      assert Linked(edges, known, p[0], p[1]);
      assert a in keys;
      ClosedHoldsPaths(edges, known, adj, keys, visited, a, b, p);
    }
  }
}
