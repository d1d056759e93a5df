/** Walks and shortest paths of a finite directed graph, counted as sets of node sequences. */
module ShortestPaths {
  import opened Sequences
  import opened AssociationModel
  import opened FiniteSums

  // Adjacency in the source is a map of insertion-ordered sets.
  type Graph = map<NodeRef, seq<NodeRef>>
  type Path = seq<NodeRef>

  ghost predicate WellFormed(g: Graph) {
    forall u :: u in g ==> Distinct(g[u]) && forall w :: w in g[u] ==> w in g
  }

  ghost function Preds(g: Graph, t: NodeRef): set<NodeRef> {
    set u | u in g.Keys && t in g[u]
  }

  /** Every path of `paths(u)` extended by t, for u ranging over us. */
  ghost function Extend(paths: NodeRef -> set<Path>, us: set<NodeRef>, t: NodeRef): set<Path> {
    set u, p | u in us && p in paths(u) :: p + [t]
  }

  /** The walks of exactly k steps from s to t. */
  ghost function Walks(g: Graph, s: NodeRef, t: NodeRef, k: nat): set<Path>
    decreases k
  {
    if k == 0 then if s == t then {[s]} else {}
    else set u, p | u in Preds(g, t) && p in Walks(g, s, u, k - 1) :: p + [t]
  }

  ghost predicate IsWalk(g: Graph, s: NodeRef, t: NodeRef, p: Path) {
    && |p| > 0 && p[0] == s && p[|p| - 1] == t
    && forall i :: 0 <= i < |p| - 1 ==> p[i] in g && p[i + 1] in g[p[i]]
  }

  lemma {:induction false} WalksAreWalks(g: Graph, s: NodeRef, t: NodeRef, k: nat, p: Path)
    ensures p in Walks(g, s, t, k) <==> IsWalk(g, s, t, p) && |p| == k + 1
    decreases k
  {
    if k == 0 {
      if IsWalk(g, s, t, p) && |p| == 1 {
        assert p == [s];
      }
    } else {
      if p in Walks(g, s, t, k) {
        var u, q :| u in Preds(g, t) && q in Walks(g, s, u, k - 1) && p == q + [t];
        WalksAreWalks(g, s, u, k - 1, q);
      }
      if IsWalk(g, s, t, p) && |p| == k + 1 {
        var q := p[..k];
        var u := q[k - 1];
        assert p[k] == t && p[k - 1] == u;
        assert u in Preds(g, t);
        WalksAreWalks(g, s, u, k - 1, q);
        assert p == q + [t];
      }
    }
  }

  /** Least k <= m for which a walk of k steps exists, or -1. */
  ghost function DistUpTo(g: Graph, s: NodeRef, t: NodeRef, m: nat): (d: int)
    ensures -1 <= d <= m
    ensures d >= 0 ==> Walks(g, s, t, d) != {}
    ensures forall k: nat :: k <= m && Walks(g, s, t, k) != {} ==> 0 <= d <= k
  {
    var before := if m == 0 then -1 else DistUpTo(g, s, t, m - 1);
    if before >= 0 then before
    else if Walks(g, s, t, m) != {} then m else -1
  }

  lemma DistUpToUnique(g: Graph, s: NodeRef, t: NodeRef, m: nat, d: nat)
    requires d <= m && Walks(g, s, t, d) != {}
    requires forall k: nat :: k < d ==> Walks(g, s, t, k) == {}
    ensures DistUpTo(g, s, t, m) == d
  {
    var e := DistUpTo(g, s, t, m);
    assert 0 <= e <= d;
  }

  /** The shortest paths from s to t, when t lies within m steps of s. */
  ghost function Shortest(g: Graph, s: NodeRef, t: NodeRef, m: nat): set<Path> {
    var d := DistUpTo(g, s, t, m);
    if d < 0 then {} else Walks(g, s, t, d)
  }

  ghost function Through(g: Graph, s: NodeRef, t: NodeRef, m: nat, v: NodeRef): set<Path> {
    set p | p in Shortest(g, s, t, m) && v in p
  }

  /** The neighbours one level closer to s from which a shortest path reaches t. */
  ghost function ShortestPreds(g: Graph, s: NodeRef, t: NodeRef, m: nat): set<NodeRef> {
    set u | u in Preds(g, t) && DistUpTo(g, s, u, m) >= 0
      && DistUpTo(g, s, t, m) == DistUpTo(g, s, u, m) + 1
  }

  // ---- distances along an edge

  lemma WalkExtends(g: Graph, s: NodeRef, u: NodeRef, t: NodeRef, k: nat)
    requires u in g && t in g[u] && Walks(g, s, u, k) != {}
    ensures Walks(g, s, t, k + 1) != {}
  {
    var p :| p in Walks(g, s, u, k);
    assert u in Preds(g, t);
    assert p + [t] in Walks(g, s, t, k + 1);
  }

  lemma WalkSplits(g: Graph, s: NodeRef, t: NodeRef, k: nat) returns (u: NodeRef)
    requires k > 0 && Walks(g, s, t, k) != {}
    ensures u in g && t in g[u] && Walks(g, s, u, k - 1) != {}
  {
    var p :| p in Walks(g, s, t, k);
    var q: Path;
    u, q :| u in Preds(g, t) && q in Walks(g, s, u, k - 1) && p == q + [t];
  }

  lemma EdgeStep(g: Graph, s: NodeRef, u: NodeRef, t: NodeRef, m: nat)
    requires u in g && t in g[u]
    requires 0 <= DistUpTo(g, s, u, m) < m
    ensures 0 <= DistUpTo(g, s, t, m) <= DistUpTo(g, s, u, m) + 1
  {
    WalkExtends(g, s, u, t, DistUpTo(g, s, u, m));
  }

  lemma SourceAtZero(g: Graph, s: NodeRef, t: NodeRef, m: nat)
    ensures DistUpTo(g, s, t, m) == 0 <==> s == t
    ensures Shortest(g, s, s, m) == {[s]}
  {
    assert Walks(g, s, s, 0) == {[s]};
    assert Walks(g, s, t, 0) != {} <==> s == t;
  }

  // ---- counting

  ghost function Count(paths: NodeRef -> set<Path>): NodeRef -> real {
    u => |paths(u)| as real
  }

  lemma {:induction false} AppendInjective(ps: set<Path>, t: NodeRef, qs: set<Path>)
    requires qs == set p | p in ps :: p + [t]
    ensures |qs| == |ps|
    decreases ps
  {
    if ps == {} {
      assert qs == {};
    } else {
      var p :| p in ps;
      var ps' := ps - {p};
      var qs' := set q | q in ps' :: q + [t];
      AppendInjective(ps', t, qs');
      assert p + [t] !in qs' by {
        forall q | q in ps'
          ensures q + [t] != p + [t]
        {
          assert (q + [t])[..|q|] == q && (p + [t])[..|p|] == p;
        }
      }
      assert qs == qs' + {p + [t]};
    }
  }

  /** |Extend| is the sum of the parts: the parts are disjoint because they end differently. */
  lemma {:induction false} ExtendCount(paths: NodeRef -> set<Path>, us: set<NodeRef>, t: NodeRef)
    requires forall u, p :: u in us && p in paths(u) ==> |p| > 0 && p[|p| - 1] == u
    ensures |Extend(paths, us, t)| as real == Sum(Count(paths), us)
    decreases us
  {
    if us == {} {
      assert Extend(paths, us, t) == {};
    } else {
      var u :| u in us;
      var us' := us - {u};
      ExtendCount(paths, us', t);
      var part := set p | p in paths(u) :: p + [t];
      AppendInjective(paths(u), t, part);
      ExtendSplit(paths, us, u, t, part);
      SumRemove(Count(paths), us, u);
    }
  }

  lemma ExtendSplit(paths: NodeRef -> set<Path>, us: set<NodeRef>, u: NodeRef, t: NodeRef, part: set<Path>)
    requires forall u, p :: u in us && p in paths(u) ==> |p| > 0 && p[|p| - 1] == u
    requires u in us && part == set p | p in paths(u) :: p + [t]
    ensures |Extend(paths, us, t)| == |part| + |Extend(paths, us - {u}, t)|
  {
    var rest := Extend(paths, us - {u}, t);
    assert forall q :: q in part ==> |q| >= 2 && q[|q| - 2] == u;
    assert forall q :: q in rest ==> |q| >= 2 && q[|q| - 2] != u;
    assert part !! rest;
    assert Extend(paths, us, t) == part + rest;
  }

  lemma ShortestEnds(g: Graph, s: NodeRef, t: NodeRef, m: nat, p: Path)
    requires p in Shortest(g, s, t, m)
    ensures |p| > 0 && p[|p| - 1] == t && p[0] == s
  {
    WalksAreWalks(g, s, t, DistUpTo(g, s, t, m), p);
  }

  ghost function ShortestOf(g: Graph, s: NodeRef, m: nat): NodeRef -> set<Path> {
    u => Shortest(g, s, u, m)
  }

  ghost function ThroughOf(g: Graph, s: NodeRef, m: nat, v: NodeRef): NodeRef -> set<Path> {
    u => Through(g, s, u, m, v)
  }

  /** A shortest path to t != s is a shortest path to a predecessor, extended by t. */
  lemma ShortestRecurrence(g: Graph, s: NodeRef, t: NodeRef, m: nat)
    requires t != s
    ensures Shortest(g, s, t, m) == Extend(ShortestOf(g, s, m), ShortestPreds(g, s, t, m), t)
  {
    var ext := Extend(ShortestOf(g, s, m), ShortestPreds(g, s, t, m), t);
    forall q | q in Shortest(g, s, t, m)
      ensures q in ext
    {
      ShortestSplits(g, s, t, m, q);
    }
    forall q | q in ext
      ensures q in Shortest(g, s, t, m)
    {
      var u, p :| u in ShortestPreds(g, s, t, m) && p in ShortestOf(g, s, m)(u) && q == p + [t];
      ShortestExtends(g, s, u, t, m, p);
    }
  }

  lemma ShortestSplits(g: Graph, s: NodeRef, t: NodeRef, m: nat, q: Path)
    requires t != s && q in Shortest(g, s, t, m)
    ensures q in Extend(ShortestOf(g, s, m), ShortestPreds(g, s, t, m), t)
  {
    SourceAtZero(g, s, t, m);
    var d := DistUpTo(g, s, t, m);
    var u, p :| u in Preds(g, t) && p in Walks(g, s, u, d - 1) && q == p + [t];
    PredIsShortest(g, s, u, t, m);
    assert p in ShortestOf(g, s, m)(u);
  }

  lemma ShortestExtends(g: Graph, s: NodeRef, u: NodeRef, t: NodeRef, m: nat, p: Path)
    requires u in ShortestPreds(g, s, t, m) && p in Shortest(g, s, u, m)
    ensures p + [t] in Shortest(g, s, t, m)
  {
    assert p in Walks(g, s, u, DistUpTo(g, s, t, m) - 1);
  }

  lemma PredIsShortest(g: Graph, s: NodeRef, u: NodeRef, t: NodeRef, m: nat)
    requires u in g && t in g[u]
    requires DistUpTo(g, s, t, m) > 0
    requires Walks(g, s, u, DistUpTo(g, s, t, m) - 1) != {}
    ensures DistUpTo(g, s, u, m) == DistUpTo(g, s, t, m) - 1
  {
    var d := DistUpTo(g, s, t, m);
    EdgeStep(g, s, u, t, m);
  }

  lemma ThroughRecurrence(g: Graph, s: NodeRef, t: NodeRef, m: nat, v: NodeRef)
    requires t != s && t != v
    ensures Through(g, s, t, m, v) == Extend(ThroughOf(g, s, m, v), ShortestPreds(g, s, t, m), t)
  {
    ShortestRecurrence(g, s, t, m);
    var ext := Extend(ThroughOf(g, s, m, v), ShortestPreds(g, s, t, m), t);
    forall q
      ensures q in Through(g, s, t, m, v) <==> q in ext
    {
      if q in Through(g, s, t, m, v) {
        var u, p :| u in ShortestPreds(g, s, t, m) && p in ShortestOf(g, s, m)(u) && q == p + [t];
        assert v in p;
        assert p in ThroughOf(g, s, m, v)(u);
      }
      if q in ext {
        var u, p :| u in ShortestPreds(g, s, t, m) && p in ThroughOf(g, s, m, v)(u) && q == p + [t];
        assert p in ShortestOf(g, s, m)(u);
      }
    }
  }

  ghost function Sigma(g: Graph, s: NodeRef, t: NodeRef, m: nat): real {
    |Shortest(g, s, t, m)| as real
  }

  ghost function ThroughCount(g: Graph, s: NodeRef, t: NodeRef, m: nat, v: NodeRef): real {
    |Through(g, s, t, m, v)| as real
  }

  lemma SigmaRecurrence(g: Graph, s: NodeRef, t: NodeRef, m: nat)
    requires t != s
    ensures Sigma(g, s, t, m) == Sum(Count(ShortestOf(g, s, m)), ShortestPreds(g, s, t, m))
  {
    ShortestRecurrence(g, s, t, m);
    var us := ShortestPreds(g, s, t, m);
    forall u, p | u in us && p in ShortestOf(g, s, m)(u)
      ensures |p| > 0 && p[|p| - 1] == u
    {
      ShortestEnds(g, s, u, m, p);
    }
    ExtendCount(ShortestOf(g, s, m), us, t);
  }

  lemma ThroughCountRecurrence(g: Graph, s: NodeRef, t: NodeRef, m: nat, v: NodeRef)
    requires t != s && t != v
    ensures ThroughCount(g, s, t, m, v) == Sum(Count(ThroughOf(g, s, m, v)), ShortestPreds(g, s, t, m))
  {
    ThroughRecurrence(g, s, t, m, v);
    var us := ShortestPreds(g, s, t, m);
    forall u, p | u in us && p in ThroughOf(g, s, m, v)(u)
      ensures |p| > 0 && p[|p| - 1] == u
    {
      ShortestEnds(g, s, u, m, p);
    }
    ExtendCount(ThroughOf(g, s, m, v), us, t);
  }
}
