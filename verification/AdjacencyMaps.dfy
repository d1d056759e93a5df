/** Adjacency maps built edge by edge, as the association graph and the contradiction graph are. */
module AdjacencyMaps {
  import opened Sequences

  predicate IsNeighbour<N(==)>(adj: map<N, seq<N>>, a: N, b: N) {
    a in adj && b in adj[a]
  }

  function Ensure<N(!new)>(adj: map<N, seq<N>>, a: N): (r: map<N, seq<N>>)
    ensures r.Keys == adj.Keys + {a}
    ensures forall x :: x in r ==> r[x] == if x in adj then adj[x] else []
  {
    if a in adj then adj else adj[a := []]
  }

  function AddNeighbour<N(==,!new)>(adj: map<N, seq<N>>, a: N, b: N): (r: map<N, seq<N>>)
    requires a in adj
    ensures r.Keys == adj.Keys
    ensures forall x, y :: x in adj ==> (y in r[x] <==> y in adj[x] || (x == a && y == b))
    ensures forall x :: x in adj && Distinct(adj[x]) ==> Distinct(r[x])
  {
    if b in adj[a] then adj else adj[a := adj[a] + [b]]
  }

  /** An edge between s and t joins a and b, in either direction. */
  predicate Ends<N(==)>(s: N, t: N, a: N, b: N) {
    (s == a && t == b) || (s == b && t == a)
  }

  /** adj is before with an edge between s and t. */
  ghost predicate WithEdge<N(!new)>(s: N, t: N, before: map<N, seq<N>>, adj: map<N, seq<N>>) {
    && adj.Keys == before.Keys + {s, t}
    && (forall a :: a in before && Distinct(before[a]) ==> Distinct(adj[a]))
    && (forall a :: a in adj && a !in before ==> Distinct(adj[a]))
    && (forall a, b :: IsNeighbour(adj, a, b) <==> IsNeighbour(before, a, b) || Ends(s, t, a, b))
  }

  lemma BothDirections<N(!new)>(
    s: N, t: N, before: map<N, seq<N>>, nodes: map<N, seq<N>>, half: map<N, seq<N>>, adj: map<N, seq<N>>
  )
    requires nodes == Ensure(Ensure(before, s), t)
    requires half == AddNeighbour(nodes, s, t) && adj == AddNeighbour(half, t, s)
    ensures WithEdge(s, t, before, adj)
  {
    forall a, b
      ensures IsNeighbour(adj, a, b) <==> IsNeighbour(before, a, b) || Ends(s, t, a, b)
    {
      DirectionsAt(s, t, before, nodes, half, adj, a, b);
    }
    forall a | a in adj && (a !in before || Distinct(before[a]))
      ensures Distinct(adj[a])
    {
      StaysDistinct(s, t, before, nodes, half, adj, a);
    }
  }

  lemma StaysDistinct<N(!new)>(
    s: N, t: N, before: map<N, seq<N>>, nodes: map<N, seq<N>>, half: map<N, seq<N>>, adj: map<N, seq<N>>, a: N
  )
    requires nodes == Ensure(Ensure(before, s), t) && a in adj && (a !in before || Distinct(before[a]))
    requires half == AddNeighbour(nodes, s, t) && adj == AddNeighbour(half, t, s)
    ensures Distinct(adj[a])
  {
    assert nodes[a] == if a in before then before[a] else [];
    assert Distinct(half[a]);
  }

  lemma DirectionsAt<N(!new)>(
    s: N, t: N, before: map<N, seq<N>>, nodes: map<N, seq<N>>, half: map<N, seq<N>>, adj: map<N, seq<N>>, a: N, b: N
  )
    requires nodes == Ensure(Ensure(before, s), t)
    requires half == AddNeighbour(nodes, s, t) && adj == AddNeighbour(half, t, s)
    ensures IsNeighbour(adj, a, b) <==> IsNeighbour(before, a, b) || Ends(s, t, a, b)
  {
    if a in adj {
      assert nodes[a] == if a in before then before[a] else [];
      assert b in half[a] <==> b in nodes[a] || (a == s && b == t);
      assert b in adj[a] <==> b in half[a] || (a == t && b == s);
    }
  }

  // ---- the order of first appearance

  /** Each element once, in the order in which they first appear. */
  function FirstAppearances<T(==)>(s: seq<T>): seq<T> {
    if s == [] then []
    else
      var before, last := FirstAppearances(s[..|s| - 1]), s[|s| - 1];
      if last in before then before else before + [last]
  }

  lemma FirstAppearancesNext<T>(s: seq<T>, x: T)
    ensures FirstAppearances(s + [x]) ==
      if x in FirstAppearances(s) then FirstAppearances(s) else FirstAppearances(s) + [x]
  {
    assert (s + [x])[..|s|] == s;
  }

  /** Nothing is lost or repeated, and what appears up to any place comes first. */
  lemma {:induction false} FirstAppearancesMeaning<T>(s: seq<T>, n: nat)
    requires n <= |s|
    ensures Distinct(FirstAppearances(s)) && forall x :: x in FirstAppearances(s) <==> x in s
    ensures FirstAppearances(s[..n]) <= FirstAppearances(s)
    decreases |s|
  {
    if s != [] {
      var front := s[..|s| - 1];
      FirstAppearancesMeaning(front, if n < |s| then n else n - 1);
      SplitLast(s);
      if n < |s| {
        assert s[..n] == front[..n];
      } else {
        assert s[..n] == s;
      }
    }
  }
}
