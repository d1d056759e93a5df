/**
 * Betweenness centrality of the association graph (src/core/discover.ts): building the adjacency
 * map, Brandes' accumulation from every source, and the normalisation for undirected graphs.
 */
module Betweenness {
  import opened Sequences
  import opened AdjacencyMaps
  import opened AssociationModel
  import opened FiniteSums
  import opened ShortestPaths
  import opened Dependencies
  import opened BreadthFirstSearch

  // ---- specification

  ghost function DependencyOn(g: Graph, m: nat, v: NodeRef): NodeRef -> real {
    s => Dependency(g, s, m, v)
  }

  /** The un-normalised score: v's dependencies summed over every other source. */
  ghost function RawBetweenness(g: Graph, m: nat, v: NodeRef): real {
    Sum(DependencyOn(g, m, v), g.Keys - {v})
  }

  function NormFactor(n: nat): (f: real)
    ensures f > 0.0
  {
    if n > 2 then (n - 1) as real * (n - 2) as real else 1.0
  }

  // ---- the backward pass

  ghost predicate Covers(g: Graph, m: map<NodeRef, real>) {
    forall v :: v in g ==> v in m
  }

  // share(v) is sigma[v] / sigma[w] * (1 + delta[w]), stated without division.
  ghost predicate ShareDue(
    sigma: map<NodeRef, real>, w: NodeRef, delta: map<NodeRef, real>, share: NodeRef -> real, v: NodeRef
  ) {
    w in sigma && w in delta && v in sigma && share(v) * sigma[w] == sigma[v] * (1.0 + delta[w])
  }

  ghost predicate SharesDue(
    preds: seq<NodeRef>, sigma: map<NodeRef, real>, w: NodeRef, delta: map<NodeRef, real>, share: NodeRef -> real
  ) {
    && w in sigma && w in delta && sigma[w] > 0.0
    && forall v {:trigger ShareDue(sigma, w, delta, share, v)} ::
         v in preds ==> ShareDue(sigma, w, delta, share, v)
  }

  lemma QuotientIsShare(a: real, b: real, c: real, share: real)
    requires b > 0.0 && share * b == a * c
    ensures a / b * c == share
  {
    var q := a / b;
    assert q * b == a;
    assert (q * c) * b == (q * b) * c;
  }

  /** Hands w's dependency back to its predecessors; share(v) is what v is due. */
  method PassBack(
    g: Graph, preds: seq<NodeRef>, sigma: map<NodeRef, real>, w: NodeRef, before: map<NodeRef, real>,
    ghost share: NodeRef -> real
  ) returns (delta: map<NodeRef, real>)
    requires w in g && Covers(g, sigma) && Covers(g, before) && sigma[w] > 0.0
    requires Distinct(preds) && w !in preds && forall v :: v in preds ==> v in g
    requires SharesDue(preds, sigma, w, before, share)
    ensures Covers(g, delta)
    ensures forall v :: v in g ==> delta[v] == if v in preds then before[v] + share(v) else before[v]
  {
    delta := before;
    for j := 0 to |preds|
      invariant Covers(g, delta)
      invariant forall v :: v in g ==> delta[v] == if v in preds[..j] then before[v] + share(v) else before[v]
    {
      var v := preds[j];
      assert v in preds && v !in preds[..j];
      assert delta[w] == before[w] by {
        assert w !in preds[..j];
      }
      var contribution := sigma[v] / sigma[w] * (1.0 + delta[w]);
      assert ShareDue(sigma, w, before, share, v);
      QuotientIsShare(sigma[v], sigma[w], 1.0 + delta[w], share(v));
      delta := delta[v := delta[v] + contribution];
      assert preds[..j + 1] == preds[..j] + [v];
    }
    assert preds[..|preds|] == preds;
  }

  /**
   * due(v, w) is what w hands back to v: the quotient of their path counts times one plus
   * w's own dependency. The dues of v's successors add up to v's dependency.
   */
  ghost predicate DuesAddUp(g: Graph, s: NodeRef, m: nat, due: (NodeRef, NodeRef) -> real) {
    forall v :: v in g ==> Dependency(g, s, m, v) == Sum(Row(due, v), ShortestSuccs(g, s, m, v))
  }

  ghost function SigmaOf(g: Graph, s: NodeRef, m: nat): NodeRef -> real {
    t => Sigma(g, s, t, m)
  }

  // Stated for arbitrary counts and dependencies, and without division.
  ghost predicate DueOf(
    due: (NodeRef, NodeRef) -> real, count: NodeRef -> real, below: NodeRef -> real, v: NodeRef, w: NodeRef
  ) {
    due(v, w) * count(w) == count(v) * (1.0 + below(w))
  }

  ghost predicate Dues(g: Graph, s: NodeRef, m: nat, due: (NodeRef, NodeRef) -> real) {
    && DuesAddUp(g, s, m, due)
    && (forall v, w {:trigger DueOf(due, SigmaOf(g, s, m), DependencyOf(g, s, m), v, w)} ::
         v in ShortestPreds(g, s, w, m) ==> DueOf(due, SigmaOf(g, s, m), DependencyOf(g, s, m), v, w))
  }

  ghost function ShareMatrix(g: Graph, s: NodeRef, m: nat): (NodeRef, NodeRef) -> real {
    (v, w) => Share(g, s, m, v)(w)
  }

  lemma DuesExist(g: Graph, s: NodeRef, m: nat) returns (due: (NodeRef, NodeRef) -> real)
    ensures Dues(g, s, m, due)
  {
    due := ShareMatrix(g, s, m);
    ShareMatrixAddsUp(g, s, m);
    forall v, w | v in ShortestPreds(g, s, w, m)
      ensures DueOf(due, SigmaOf(g, s, m), DependencyOf(g, s, m), v, w)
    {
      ShareValue(g, s, m, v, w);
    }
  }

  lemma ShareMatrixAddsUp(g: Graph, s: NodeRef, m: nat)
    ensures DuesAddUp(g, s, m, ShareMatrix(g, s, m))
  {
    var due := ShareMatrix(g, s, m);
    forall v | v in g
      ensures Dependency(g, s, m, v) == Sum(Row(due, v), ShortestSuccs(g, s, m, v))
    {
      DependencyRecurrence(g, s, m, v);
      SumCongruent(Share(g, s, m, v), Row(due, v), ShortestSuccs(g, s, m, v));
    }
  }

  lemma ShareValue(g: Graph, s: NodeRef, m: nat, v: NodeRef, w: NodeRef)
    requires v in ShortestPreds(g, s, w, m)
    ensures DueOf(ShareMatrix(g, s, m), SigmaOf(g, s, m), DependencyOf(g, s, m), v, w)
  {
    DirectRatio(g, s, m, v, w);
    DueFromRatio(RatioOf(g, s, m, v), DependencyOf(g, s, m), SigmaOf(g, s, m), Share(g, s, m, v),
      ShareMatrix(g, s, m), v, w);
  }

  lemma DueFromRatio(
    weight: NodeRef -> real, below: NodeRef -> real, count: NodeRef -> real, share: NodeRef -> real,
    due: (NodeRef, NodeRef) -> real, v: NodeRef, w: NodeRef
  )
    requires weight(w) * count(w) == count(v)
    requires share == Shares(weight, below) && due(v, w) == share(w)
    ensures DueOf(due, count, below, v, w)
  {
    var q, b, d := weight(w), count(w), 1.0 + below(w);
    assert due(v, w) == q * d;
    assert (q * d) * b == (q * b) * d;
  }

  // The part of v's dependency already handed back by the nodes in done.
  ghost function Handed(
    g: Graph, s: NodeRef, m: nat, due: (NodeRef, NodeRef) -> real, v: NodeRef, done: set<NodeRef>
  ): real {
    Sum(Row(due, v), ShortestSuccs(g, s, m, v) * done)
  }

  lemma HandedAll(
    g: Graph, s: NodeRef, m: nat, due: (NodeRef, NodeRef) -> real, v: NodeRef, done: set<NodeRef>
  )
    requires Dues(g, s, m, due) && v in g && ShortestSuccs(g, s, m, v) <= done
    ensures Handed(g, s, m, due, v, done) == Dependency(g, s, m, v)
  {
    assert ShortestSuccs(g, s, m, v) * done == ShortestSuccs(g, s, m, v);
  }

  lemma HandedStep(
    g: Graph, s: NodeRef, m: nat, due: (NodeRef, NodeRef) -> real, v: NodeRef, done: set<NodeRef>, w: NodeRef
  )
    requires w in g && w !in done
    ensures Handed(g, s, m, due, v, done + {w}) ==
      if v in ShortestPreds(g, s, w, m) then Handed(g, s, m, due, v, done) + due(v, w)
      else Handed(g, s, m, due, v, done)
  {
    var succs := ShortestSuccs(g, s, m, v);
    if w in succs {
      assert succs * (done + {w}) == succs * done + {w};
      SumInsert(Row(due, v), succs * done, w);
    } else {
      assert succs * (done + {w}) == succs * done;
    }
  }

  /** A node outside the search's reach has no dependency. */
  lemma UnreachedHasNone(g: Graph, s: NodeRef, m: nat, v: NodeRef)
    requires v in g && DistUpTo(g, s, v, m) < 0
    ensures Dependency(g, s, m, v) == 0.0
  {
    DependencyRecurrence(g, s, m, v);
    assert ShortestSuccs(g, s, m, v) == {};
  }

  /** The stack pops every successor of w before w. */
  lemma SuccessorsPoppedFirst(g: Graph, s: NodeRef, m: nat, st: Search, i: nat)
    requires Exact(g, s, m, st) && i < |st.stack|
    ensures st.stack[i] in g && st.dist[st.stack[i]] >= 0
    ensures ShortestSuccs(g, s, m, st.stack[i]) <= Elements(st.stack[i + 1..])
  {
    var w := st.stack[i];
    assert w in st.stack;
    forall x | x in ShortestSuccs(g, s, m, w)
      ensures x in st.stack[i + 1..]
    {
      assert st.dist[x] == st.dist[w] + 1 && x in st.stack;
      LaterInStack(st.stack, i, x, d => if d in st.dist then st.dist[d] else 0);
    }
  }

  lemma LaterInStack(stack: seq<NodeRef>, i: nat, x: NodeRef, dist: NodeRef -> int)
    requires i < |stack| && x in stack && dist(x) > dist(stack[i])
    requires forall j, k :: 0 <= j < k < |stack| ==> dist(stack[j]) <= dist(stack[k])
    ensures x in stack[i + 1..]
  {
    var j :| 0 <= j < |stack| && stack[j] == x;
    assert j > i;
    assert stack[i + 1..][j - i - 1] == x;
  }

  // Loop invariants of the backward pass, by name.

  ghost predicate DeltasHanded(
    g: Graph, s: NodeRef, m: nat, due: (NodeRef, NodeRef) -> real, done: set<NodeRef>, delta: map<NodeRef, real>
  ) {
    Covers(g, delta) && forall v :: v in g ==> delta[v] == Handed(g, s, m, due, v, done)
  }

  ghost predicate Credited(
    g: Graph, s: NodeRef, m: nat, done: set<NodeRef>, cb: map<NodeRef, real>, out: map<NodeRef, real>
  )
    requires Covers(g, cb)
  {
    && Covers(g, out)
    && (forall v :: v in g ==>
         out[v] == if v in done && v != s then cb[v] + Dependency(g, s, m, v) else cb[v])
  }

  method Accumulate(g: Graph, s: NodeRef, m: nat, st: Search, cb: map<NodeRef, real>)
    returns (out: map<NodeRef, real>)
    requires Exact(g, s, m, st) && Covers(g, cb)
    ensures Covers(g, out)
    ensures forall v :: v in g ==> out[v] == if v == s then cb[v] else cb[v] + Dependency(g, s, m, v)
  {
    out := cb;
    var delta: map<NodeRef, real> := map v | v in st.dist :: 0.0;
    var i := |st.stack|;
    ghost var due := DuesExist(g, s, m);
    NothingHanded(g, s, m, due, delta, cb);
    assert Elements(st.stack[i..]) == {};
    while i > 0
      invariant 0 <= i <= |st.stack|
      invariant DeltasHanded(g, s, m, due, Elements(st.stack[i..]), delta)
      invariant Credited(g, s, m, Elements(st.stack[i..]), cb, out)
    {
      i := i - 1;
      var w := st.stack[i];
      ghost var done := Elements(st.stack[i + 1..]);
      BeforePop(g, s, m, st, i, due, delta);
      delta := PopOne(g, s, m, st.pred[w], st.sigma, w, due, done, delta);
      out := Credit(g, s, m, done, cb, w, delta[w], out);
    }
    AllCredited(g, s, m, st, cb, out);
  }

  lemma BeforePop(
    g: Graph, s: NodeRef, m: nat, st: Search, i: nat, due: (NodeRef, NodeRef) -> real, delta: map<NodeRef, real>
  )
    requires Exact(g, s, m, st) && i < |st.stack| && Dues(g, s, m, due)
    requires DeltasHanded(g, s, m, due, Elements(st.stack[i + 1..]), delta)
    ensures
      var w, done := st.stack[i], Elements(st.stack[i + 1..]);
      && w in g && w in st.pred && w in delta && Covers(g, st.sigma)
      && w !in done && done + {w} == Elements(st.stack[i..])
      && PredsExact(g, s, m, st.pred[w], st.sigma, w)
      && delta[w] == Dependency(g, s, m, w)
  {
    var w, done := st.stack[i], Elements(st.stack[i + 1..]);
    NextPopped(g, s, m, st, i);
    HandedAll(g, s, m, due, w, done);
    PredsOf(g, s, m, st, w);
  }

  method Credit(
    g: Graph, s: NodeRef, ghost m: nat, ghost done: set<NodeRef>, ghost cb: map<NodeRef, real>,
    w: NodeRef, d: real, before: map<NodeRef, real>
  ) returns (out: map<NodeRef, real>)
    requires Covers(g, cb) && Credited(g, s, m, done, cb, before) && w in g && w !in done
    requires d == Dependency(g, s, m, w)
    ensures Credited(g, s, m, done + {w}, cb, out)
  {
    out := before;
    if w != s {
      out := out[w := out[w] + d];
    }
  }

  method PopOne(
    g: Graph, ghost s: NodeRef, ghost m: nat, preds: seq<NodeRef>, sigma: map<NodeRef, real>, w: NodeRef,
    ghost due: (NodeRef, NodeRef) -> real, ghost done: set<NodeRef>, before: map<NodeRef, real>
  ) returns (delta: map<NodeRef, real>)
    requires w in g && w !in done && Covers(g, sigma) && PredsExact(g, s, m, preds, sigma, w)
    requires Dues(g, s, m, due)
    requires DeltasHanded(g, s, m, due, done, before) && before[w] == Dependency(g, s, m, w)
    ensures DeltasHanded(g, s, m, due, done + {w}, delta) && delta[w] == before[w]
  {
    ghost var share := Row(Flip(due), w);
    assert SharesDue(preds, sigma, w, before, share) by {
      DueToPreds(g, s, m, preds, sigma, w, due, before);
    }
    delta := PassBack(g, preds, sigma, w, before, share);
    AfterPassBack(g, s, m, preds, w, due, share, done, before, delta);
  }

  // w's recorded predecessors and path counts are the true ones.
  ghost predicate PredsExact(
    g: Graph, s: NodeRef, m: nat, preds: seq<NodeRef>, sigma: map<NodeRef, real>, w: NodeRef
  ) {
    && Distinct(preds) && w !in preds
    && (forall v :: v in preds <==> v in ShortestPreds(g, s, w, m))
    && w in sigma && sigma[w] == Sigma(g, s, w, m) > 0.0
    && (forall v :: v in preds ==> v in g && v in sigma && sigma[v] == Sigma(g, s, v, m))
  }

  lemma NothingHanded(
    g: Graph, s: NodeRef, m: nat, due: (NodeRef, NodeRef) -> real, delta: map<NodeRef, real>, cb: map<NodeRef, real>
  )
    requires Covers(g, delta) && Covers(g, cb) && forall v :: v in g ==> delta[v] == 0.0
    ensures DeltasHanded(g, s, m, due, {}, delta) && Credited(g, s, m, {}, cb, cb)
  {
    forall v | v in g
      ensures Handed(g, s, m, due, v, {}) == 0.0
    {
      assert ShortestSuccs(g, s, m, v) * {} == {};
    }
  }

  lemma NextPopped(g: Graph, s: NodeRef, m: nat, st: Search, i: nat)
    requires Exact(g, s, m, st) && i < |st.stack|
    ensures
      var w, done := st.stack[i], Elements(st.stack[i + 1..]);
      && w in g && DistUpTo(g, s, w, m) >= 0
      && w !in done && done + {w} == Elements(st.stack[i..])
      && ShortestSuccs(g, s, m, w) <= done
  {
    SuccessorsPoppedFirst(g, s, m, st, i);
    SuffixElements(st.stack, i);
  }

  lemma SuffixElements(stack: seq<NodeRef>, i: nat)
    requires Distinct(stack) && i < |stack|
    ensures stack[i] !in Elements(stack[i + 1..])
    ensures Elements(stack[i + 1..]) + {stack[i]} == Elements(stack[i..])
  {
    assert stack[i..] == [stack[i]] + stack[i + 1..];
  }

  lemma PredsOf(g: Graph, s: NodeRef, m: nat, st: Search, w: NodeRef)
    requires Exact(g, s, m, st) && w in g && DistUpTo(g, s, w, m) >= 0
    ensures Covers(g, st.sigma) && PredsExact(g, s, m, st.pred[w], st.sigma, w)
  {
    ReachedHasPaths(g, s, w, m);
    assert forall v :: v in st.pred[w] ==> v in ShortestPreds(g, s, w, m);
  }

  lemma DueToPreds(
    g: Graph, s: NodeRef, m: nat, preds: seq<NodeRef>, sigma: map<NodeRef, real>, w: NodeRef,
    due: (NodeRef, NodeRef) -> real, delta: map<NodeRef, real>
  )
    requires Dues(g, s, m, due) && PredsExact(g, s, m, preds, sigma, w)
    requires w in delta && delta[w] == Dependency(g, s, m, w)
    ensures SharesDue(preds, sigma, w, delta, Row(Flip(due), w))
  {
    forall v | v in preds
      ensures ShareDue(sigma, w, delta, Row(Flip(due), w), v)
    {
      assert DueOf(due, SigmaOf(g, s, m), DependencyOf(g, s, m), v, w);
      DueIsShare(due, SigmaOf(g, s, m), DependencyOf(g, s, m), v, w, sigma, delta);
    }
  }

  lemma DueIsShare(
    due: (NodeRef, NodeRef) -> real, count: NodeRef -> real, below: NodeRef -> real, v: NodeRef, w: NodeRef,
    sigma: map<NodeRef, real>, delta: map<NodeRef, real>
  )
    requires DueOf(due, count, below, v, w)
    requires w in sigma && sigma[w] == count(w) && v in sigma && sigma[v] == count(v)
    requires w in delta && delta[w] == below(w)
    ensures ShareDue(sigma, w, delta, Row(Flip(due), w), v)
  {
  }

  lemma AfterPassBack(
    g: Graph, s: NodeRef, m: nat, preds: seq<NodeRef>, w: NodeRef, due: (NodeRef, NodeRef) -> real,
    share: NodeRef -> real, done: set<NodeRef>, before: map<NodeRef, real>, delta: map<NodeRef, real>
  )
    requires w in g && w !in done && DeltasHanded(g, s, m, due, done, before) && Covers(g, delta)
    requires w !in preds && forall v :: v in preds <==> v in ShortestPreds(g, s, w, m)
    requires share == Row(Flip(due), w)
    requires forall v :: v in g ==> delta[v] == if v in preds then before[v] + share(v) else before[v]
    ensures DeltasHanded(g, s, m, due, done + {w}, delta)
    ensures delta[w] == before[w]
  {
    forall v | v in g
      ensures delta[v] == Handed(g, s, m, due, v, done + {w})
    {
      HandedStep(g, s, m, due, v, done, w);
    }
  }

  lemma AllCredited(g: Graph, s: NodeRef, m: nat, st: Search, cb: map<NodeRef, real>, out: map<NodeRef, real>)
    requires Exact(g, s, m, st) && Covers(g, cb) && Credited(g, s, m, Elements(st.stack[0..]), cb, out)
    ensures forall v :: v in g ==> out[v] == if v == s then cb[v] else cb[v] + Dependency(g, s, m, v)
  {
    forall v | v in g && v !in st.stack
      ensures Dependency(g, s, m, v) == 0.0
    {
      UnreachedHasNone(g, s, m, v);
    }
    assert st.stack[0..] == st.stack;
  }

  // ---- all sources

  ghost predicate Summed(g: Graph, m: nat, sources: set<NodeRef>, cb: map<NodeRef, real>) {
    Covers(g, cb) && forall v :: v in g ==> cb[v] == Sum(DependencyOn(g, m, v), sources - {v})
  }

  lemma SummedStep(
    g: Graph, m: nat, sources: set<NodeRef>, s: NodeRef, before: map<NodeRef, real>, cb: map<NodeRef, real>
  )
    requires Summed(g, m, sources, before) && s !in sources && Covers(g, cb)
    requires forall v :: v in g ==> cb[v] == if v == s then before[v] else before[v] + Dependency(g, s, m, v)
    ensures Summed(g, m, sources + {s}, cb)
  {
    forall v | v in g
      ensures cb[v] == Sum(DependencyOn(g, m, v), sources + {s} - {v})
    {
      SumWithout(DependencyOn(g, m, v), sources, s, v);
    }
  }

  lemma SumWithout(f: NodeRef -> real, sources: set<NodeRef>, s: NodeRef, v: NodeRef)
    requires s !in sources
    ensures Sum(f, sources + {s} - {v}) ==
      if v == s then Sum(f, sources - {v}) else Sum(f, sources - {v}) + f(s)
  {
    if v == s {
      assert sources + {s} - {v} == sources - {v};
    } else {
      assert sources + {s} - {v} == sources - {v} + {s};
      SumInsert(f, sources - {v}, s);
    }
  }

  method AddSource(
    g: Graph, keys: seq<NodeRef>, m: nat, s: NodeRef, ghost sources: set<NodeRef>, before: map<NodeRef, real>
  ) returns (cb: map<NodeRef, real>)
    requires WellFormed(g) && s in g && forall v :: v in keys <==> v in g
    requires s !in sources && Summed(g, m, sources, before)
    ensures Summed(g, m, sources + {s}, cb)
  {
    var st := BoundedSearch(g, keys, s, m);
    cb := Accumulate(g, s, m, st, before);
    SummedStep(g, m, sources, s, before, cb);
  }

  /** The score of one node: halved for undirected graphs and scaled by the number of node pairs. */
  function Normalised(raw: real, n: nat): real {
    raw / (2.0 * NormFactor(n))
  }

  ghost predicate ScaledBy(g: Graph, n: nat, before: map<NodeRef, real>, cb: map<NodeRef, real>) {
    Covers(g, before) && Covers(g, cb) && forall v :: v in g ==> cb[v] == Normalised(before[v], n)
  }

  /** The centrality map the source promises: raw betweenness, normalised. */
  ghost predicate IsCentrality(g: Graph, m: nat, cb: map<NodeRef, real>) {
    Covers(g, cb) && forall v :: v in g ==> cb[v] == Normalised(RawBetweenness(g, m, v), |g|)
  }

  /**
   * For every node the sum, over all other sources and targets, of the fraction of shortest
   * paths within the bound that pass through it, halved and scaled.
   */
  method ComputeBetweennessCentrality(g: Graph, keys: seq<NodeRef>, m: nat) returns (cb: map<NodeRef, real>)
    requires WellFormed(g) && Distinct(keys) && forall v :: v in keys <==> v in g
    ensures IsCentrality(g, m, cb)
  {
    var raw := SumOverSources(g, keys, m);
    cb := Normalise(g, keys, raw);
    NormalisedTotals(g, keys, m, raw, cb);
  }

  method SumOverSources(g: Graph, keys: seq<NodeRef>, m: nat) returns (cb: map<NodeRef, real>)
    requires WellFormed(g) && Distinct(keys) && forall v :: v in keys <==> v in g
    ensures Summed(g, m, Elements(keys[..|keys|]), cb)
  {
    cb := map v | v in keys :: 0.0;
    StartsEmpty(g, m, cb);
    for i := 0 to |keys|
      invariant Summed(g, m, Elements(keys[..i]), cb)
    {
      PrefixElements(keys, i);
      cb := AddSource(g, keys, m, keys[i], Elements(keys[..i]), cb);
    }
  }

  lemma PrefixElements<T(!new)>(s: seq<T>, i: nat)
    requires i < |s| && Distinct(s)
    ensures Elements(s[..i + 1]) == Elements(s[..i]) + {s[i]} && s[i] !in Elements(s[..i])
  {
    assert s[..i + 1] == s[..i] + [s[i]];
  }

  lemma StartsEmpty(g: Graph, m: nat, cb: map<NodeRef, real>)
    requires Covers(g, cb) && forall v :: v in g ==> cb[v] == 0.0
    ensures Summed(g, m, {}, cb)
  {
    forall v: NodeRef
      ensures {} - {v} == {}
    {
    }
  }

  lemma NormalisedTotals(
    g: Graph, keys: seq<NodeRef>, m: nat, raw: map<NodeRef, real>, cb: map<NodeRef, real>
  )
    requires Distinct(keys) && forall v :: v in keys <==> v in g
    requires Summed(g, m, Elements(keys[..|keys|]), raw) && ScaledBy(g, |keys|, raw, cb)
    ensures IsCentrality(g, m, cb)
  {
    assert Elements(keys[..|keys|]) == g.Keys;
    DistinctCount(keys, g.Keys);
    assert forall v :: v in g ==> raw[v] == RawBetweenness(g, m, v);
  }

  method Normalise(g: Graph, keys: seq<NodeRef>, before: map<NodeRef, real>) returns (cb: map<NodeRef, real>)
    requires Covers(g, before) && Distinct(keys) && forall v :: v in keys <==> v in g
    ensures ScaledBy(g, |keys|, before, cb)
  {
    cb := before;
    var scale := 2.0 * NormFactor(|keys|);
    for i := 0 to |keys|
      invariant Covers(g, cb)
      invariant forall v :: v in g ==> cb[v] == if v in keys[..i] then before[v] / scale else before[v]
    {
      var v := keys[i];
      assert v !in keys[..i] && keys[..i + 1] == keys[..i] + [v];
      cb := cb[v := cb[v] / scale];
    }
    assert keys[..|keys|] == keys;
  }

  // ---- what the score is worth

  lemma {:induction false} DistinctCount<T>(s: seq<T>, all: set<T>)
    requires Distinct(s) && forall x :: x in s <==> x in all
    ensures |s| == |all|
    decreases |s|
  {
    if s == [] {
      assert all == {};
    } else {
      var x, rest := s[|s| - 1], s[..|s| - 1];
      assert forall y :: y in s <==> y in rest || y == x;
      assert x !in rest;
      DistinctCount(rest, all - {x});
    }
  }

  lemma RawBounds(g: Graph, m: nat, v: NodeRef)
    requires v in g
    ensures |g| <= 2 ==> RawBetweenness(g, m, v) == 0.0
    ensures |g| > 2 ==> 0.0 <= RawBetweenness(g, m, v) <= NormFactor(|g|)
  {
    var f := DependencyOn(g, m, v);
    forall s | s in g.Keys && s != v
      ensures 0.0 <= f(s) <= (|g| - 2) as real
    {
      DependencyBounds(g, s, m, v);
    }
    OthersSum(f, g.Keys, v);
  }

  lemma OthersSum<T(!new)>(f: T -> real, all: set<T>, v: T)
    requires v in all && forall s :: s in all && s != v ==> 0.0 <= f(s) <= (|all| - 2) as real
    ensures |all| <= 2 ==> Sum(f, all - {v}) == 0.0
    ensures |all| > 2 ==> 0.0 <= Sum(f, all - {v}) <= NormFactor(|all|)
  {
    var others := all - {v};
    assert |others| == |all| - 1;
    if |all| == 1 {
      assert others == {};
    } else if |all| == 2 {
      SumZero(f, others);
    } else {
      ManyOthersSum(f, others, |all|);
    }
  }

  lemma ManyOthersSum<T(!new)>(f: T -> real, others: set<T>, n: nat)
    requires n > 2 && |others| == n - 1 && forall s :: s in others ==> 0.0 <= f(s) <= (n - 2) as real
    ensures 0.0 <= Sum(f, others) <= NormFactor(n)
  {
    var hi := (n - 2) as real;
    SumNonNegative(f, others);
    SumAtMost(f, others, hi);
    WithinNorm(Sum(f, others), n, |others|, hi);
  }

  lemma WithinNorm(x: real, n: nat, k: nat, hi: real)
    requires n > 2 && k == n - 1 && hi == (n - 2) as real && x <= hi * (k as real)
    ensures x <= NormFactor(n)
  {
  }

  /** Every normalised centrality lies between 0 and one half. */
  lemma CentralityRange(g: Graph, m: nat, v: NodeRef)
    requires v in g
    ensures 0.0 <= Normalised(RawBetweenness(g, m, v), |g|) <= 0.5
  {
    RawBounds(g, m, v);
    HalfQuotient(RawBetweenness(g, m, v), NormFactor(|g|));
  }

  lemma HalfQuotient(a: real, b: real)
    requires 0.0 <= a <= b && b > 0.0
    ensures 0.0 <= a / (2.0 * b) <= 0.5
  {
    var q := a / (2.0 * b);
    assert q * (2.0 * b) == a;
    assert q * (2.0 * b) == (2.0 * q) * b;
  }

  // ---- when the bound is attained

  /** Every two other nodes are joined within the bound, and v lies on all their shortest paths. */
  ghost predicate BetweenAll(g: Graph, m: nat, v: NodeRef) {
    forall s, t {:trigger OnAllPaths(g, s, t, m, v)} ::
      s in g && t in g && s != t && s != v && t != v ==> OnAllPaths(g, s, t, m, v)
  }

  ghost predicate OnAllPaths(g: Graph, s: NodeRef, t: NodeRef, m: nat, v: NodeRef) {
    Shortest(g, s, t, m) != {} && forall p :: p in Shortest(g, s, t, m) ==> v in p
  }

  lemma WholeFraction(g: Graph, s: NodeRef, m: nat, v: NodeRef, t: NodeRef)
    ensures Fraction(g, s, m, v, t) == 1.0 <==> OnAllPaths(g, s, t, m, v)
  {
    var all, through := Shortest(g, s, t, m), Through(g, s, t, m, v);
    if all != {} {
      ReachedHasPaths(g, s, t, m);
      EqualQuotient(ThroughCount(g, s, t, m, v), Sigma(g, s, t, m));
      if |through| == |all| {
        SameSizeSubset(through, all);
      }
      if OnAllPaths(g, s, t, m, v) {
        assert through == all;
      }
    }
  }

  lemma EqualQuotient(a: real, b: real)
    requires b > 0.0
    ensures a / b == 1.0 <==> a == b
  {
    assert a / b * b == a;
  }

  lemma SameSizeSubset<T>(a: set<T>, b: set<T>)
    requires a <= b && |a| == |b|
    ensures a == b
  {
    assert b == a + (b - a) && |b| == |a| + |b - a|;
  }

  lemma FullDependency(g: Graph, s: NodeRef, m: nat, v: NodeRef)
    requires s in g && v in g && s != v
    ensures Dependency(g, s, m, v) == (|g| - 2) as real <==> AllTargets(g, s, m, v)
  {
    var f, rest := FractionOf(g, s, m, v), g.Keys - {v};
    FractionBounds(g, s, m, v, s);
    SumRemove(f, rest, s);
    TwoFewer(g.Keys, v, s);
    forall t
      ensures f(t) <= 1.0 && (f(t) == 1.0 <==> OnAllPaths(g, s, t, m, v))
    {
      FractionBounds(g, s, m, v, t);
      WholeFraction(g, s, m, v, t);
    }
    AllOnes(f, rest - {s});
  }

  ghost predicate AllTargets(g: Graph, s: NodeRef, m: nat, v: NodeRef) {
    forall t :: t in g.Keys - {v} - {s} ==> OnAllPaths(g, s, t, m, v)
  }

  lemma AllOnes(f: NodeRef -> real, s: set<NodeRef>)
    requires forall x :: x in s ==> f(x) <= 1.0
    ensures Sum(f, s) == |s| as real <==> forall x :: x in s ==> f(x) == 1.0
  {
    SumOfOnes(Constant(1.0), s);
    SumAgrees(f, Constant(1.0), s);
  }

  lemma FullScore(g: Graph, m: nat, v: NodeRef, top: real)
    requires v in g && top == (|g| - 2) as real
    ensures RawBetweenness(g, m, v) == Sum(Constant(top), g.Keys - {v}) <==> BetweenAll(g, m, v)
  {
    var f, others := DependencyOn(g, m, v), g.Keys - {v};
    forall s | s in others
      ensures f(s) <= top && (f(s) == top <==> AllTargets(g, s, m, v))
    {
      DependencyBounds(g, s, m, v);
      FullDependency(g, s, m, v);
    }
    SumAgrees(f, Constant(top), others);
    TargetsOfAll(g, m, v);
  }

  lemma FullNorm<T(!new)>(others: set<T>, n: nat)
    requires n > 2 && |others| == n - 1
    ensures Sum(Constant((n - 2) as real), others) == NormFactor(n)
  {
    SumConstant(Constant((n - 2) as real), others, (n - 2) as real);
  }

  lemma TargetsOfAll(g: Graph, m: nat, v: NodeRef)
    ensures BetweenAll(g, m, v) <==> forall s :: s in g.Keys - {v} ==> AllTargets(g, s, m, v)
  {
    if forall s :: s in g.Keys - {v} ==> AllTargets(g, s, m, v) {
      forall s, t | s in g && t in g && s != t && s != v && t != v
        ensures OnAllPaths(g, s, t, m, v)
      {
        assert s in g.Keys - {v} && t in g.Keys - {v} - {s};
      }
    }
  }

  /**
   * Of three or more nodes one scores one half exactly when every two others are joined within the bound
   * and all their shortest paths pass through it.
   */
  lemma HalfIffBetweenAll(g: Graph, m: nat, cb: map<NodeRef, real>, v: NodeRef)
    requires IsCentrality(g, m, cb) && v in g && |g| > 2
    ensures cb[v] == 0.5 <==> BetweenAll(g, m, v)
  {
    HalfScore(g, m, v, cb[v]);
  }

  lemma HalfScore(g: Graph, m: nat, v: NodeRef, score: real)
    requires v in g && |g| > 2 && score == Normalised(RawBetweenness(g, m, v), |g|)
    ensures score == 0.5 <==> BetweenAll(g, m, v)
  {
    var limit := Sum(Constant((|g| - 2) as real), g.Keys - {v});
    FullScore(g, m, v, (|g| - 2) as real);
    FullNorm(g.Keys - {v}, |g|);
    NormalisedHalf(RawBetweenness(g, m, v), |g|, limit, score, BetweenAll(g, m, v));
  }

  lemma NormalisedHalf(raw: real, n: nat, limit: real, score: real, full: bool)
    requires limit == NormFactor(n) && score == Normalised(raw, n) && (raw == limit <==> full)
    ensures score == 0.5 <==> full
  {
    HalfOf(raw, NormFactor(n));
  }

  lemma HalfOf(a: real, b: real)
    requires b > 0.0
    ensures a / (2.0 * b) == 0.5 <==> a == b
  {
    var q := a / (2.0 * b);
    assert q * (2.0 * b) == a;
    assert q * (2.0 * b) == (2.0 * q) * b;
    assert q != 0.5 ==> (2.0 * q) * b != 1.0 * b by {
      NotTheSame(2.0 * q, b);
    }
  }

  lemma NotTheSame(x: real, b: real)
    requires b > 0.0
    ensures x * b == b <==> x == 1.0
  {
    assert (x - 1.0) * b == x * b - b;
  }

  /** So the centre of a star scores one half. */
  lemma StarCentre(g: Graph, m: nat, cb: map<NodeRef, real>, v: NodeRef)
    requires IsCentrality(g, m, cb) && v in g && |g| > 2 && m >= 2
    requires forall u :: u in g && u != v ==> g[u] == [v] && u in g[v]
    ensures cb[v] == 0.5
  {
    forall s, t | s in g && t in g && s != t && s != v && t != v
      ensures OnAllPaths(g, s, t, m, v)
    {
      LeafToLeaf(g, m, v, s, t);
    }
    HalfIffBetweenAll(g, m, cb, v);
  }

  lemma LeafToLeaf(g: Graph, m: nat, v: NodeRef, s: NodeRef, t: NodeRef)
    requires m >= 2 && s in g && t in g && v in g && s != t && s != v && t != v
    requires g[s] == [v] && t in g[v]
    ensures OnAllPaths(g, s, t, m, v)
  {
    assert IsWalk(g, s, t, [s, v, t]);
    WalksAreWalks(g, s, t, 2, [s, v, t]);
    forall p | p in Shortest(g, s, t, m)
      ensures v in p
    {
      WalksAreWalks(g, s, t, DistUpTo(g, s, t, m), p);
      assert |p| > 1;
      assert p[1] in g[p[0]];
    }
  }

  // ---- building the adjacency map

  predicate Joins(a: Association, u: NodeRef, w: NodeRef) {
    Ends(a.source, a.target, u, w)
  }

  predicate Touches(a: Association, v: NodeRef) {
    a.source == v || a.target == v
  }

  ghost predicate NodesOf(edges: seq<Association>, n: nat, g: Graph, keys: seq<NodeRef>)
    requires n <= |edges|
  {
    && Distinct(keys)
    && (forall v :: v in keys <==> v in g)
    && (forall v :: v in g <==> exists i :: 0 <= i < n && Touches(edges[i], v))
  }

  ghost predicate NeighboursOf(edges: seq<Association>, n: nat, g: Graph)
    requires n <= |edges|
  {
    && (forall u :: u in g ==> Distinct(g[u]))
    && (forall u, w :: u in g ==> (w in g[u] <==> exists i :: 0 <= i < n && Joins(edges[i], u, w)))
  }

  method AddEdge(a: Association, before: Graph, beforeKeys: seq<NodeRef>) returns (g: Graph, keys: seq<NodeRef>)
    ensures WithEdge(a.source, a.target, before, g)
    ensures keys == beforeKeys + (if a.source in before then [] else [a.source])
      + (if a.target in before || a.target == a.source then [] else [a.target])
  {
    keys := beforeKeys;
    if a.source !in before {
      keys := keys + [a.source];
    }
    g := Ensure(before, a.source);
    if a.target !in g {
      keys := keys + [a.target];
    }
    g := Ensure(g, a.target);
    ghost var nodes := g;
    g := AddNeighbour(g, a.source, a.target);
    ghost var half := g;
    g := AddNeighbour(g, a.target, a.source);
    BothDirections(a.source, a.target, before, nodes, half, g);
  }

  /** Nodes are the associations' endpoints; neighbours are joined by an association, in either direction. */
  method BuildAdjacency(edges: seq<Association>) returns (g: Graph, keys: seq<NodeRef>)
    ensures NodesOf(edges, |edges|, g, keys) && NeighboursOf(edges, |edges|, g)
    ensures WellFormed(g)
    ensures forall u, w :: u in g && w in g[u] ==> w in g && u in g[w]
  {
    g, keys := map[], [];
    for i := 0 to |edges|
      invariant NodesOf(edges, i, g, keys) && NeighboursOf(edges, i, g)
    {
      ghost var before, beforeKeys := g, keys;
      g, keys := AddEdge(edges[i], g, keys);
      KeysGrow(edges, i, before, beforeKeys, g, keys);
      NeighboursGrow(edges, i, before, beforeKeys, g);
    }
    JoinedBothWays(edges, g, keys);
  }

  lemma KeysGrow(
    edges: seq<Association>, i: nat, before: Graph, beforeKeys: seq<NodeRef>, g: Graph, keys: seq<NodeRef>
  )
    requires i < |edges| && NodesOf(edges, i, before, beforeKeys)
    requires
      var s, t := edges[i].source, edges[i].target;
      && g.Keys == before.Keys + {s, t}
      && keys == beforeKeys + (if s in before then [] else [s]) + (if t in before || t == s then [] else [t])
    ensures NodesOf(edges, i + 1, g, keys)
  {
    forall v
      ensures v in g <==> exists j :: 0 <= j < i + 1 && Touches(edges[j], v)
    {
      if Touches(edges[i], v) {
      } else if v in before {
        var j :| 0 <= j < i && Touches(edges[j], v);
        assert 0 <= j < i + 1;
      }
    }
  }

  lemma NeighboursGrow(edges: seq<Association>, i: nat, before: Graph, beforeKeys: seq<NodeRef>, g: Graph)
    requires i < |edges| && NeighboursOf(edges, i, before) && NodesOf(edges, i, before, beforeKeys)
    requires WithEdge(edges[i].source, edges[i].target, before, g)
    ensures NeighboursOf(edges, i + 1, g)
  {
    forall u, w | u in g
      ensures w in g[u] <==> exists j :: 0 <= j < i + 1 && Joins(edges[j], u, w)
    {
      assert IsNeighbour(g, u, w) <==> IsNeighbour(before, u, w) || Joins(edges[i], u, w);
      if w in g[u] && !Joins(edges[i], u, w) {
        var j :| 0 <= j < i && Joins(edges[j], u, w);
        assert 0 <= j < i + 1;
      }
      if j :| 0 <= j < i + 1 && Joins(edges[j], u, w) {
        if j < i {
          assert Touches(edges[j], u);
          assert u in before;
        }
      }
    }
  }

  lemma JoinedBothWays(edges: seq<Association>, g: Graph, keys: seq<NodeRef>)
    requires NodesOf(edges, |edges|, g, keys) && NeighboursOf(edges, |edges|, g)
    ensures WellFormed(g)
    ensures forall u, w :: u in g && w in g[u] ==> w in g && u in g[w]
  {
    forall u, w | u in g && w in g[u]
      ensures w in g && u in g[w]
    {
      var i :| 0 <= i < |edges| && Joins(edges[i], u, w);
      assert Touches(edges[i], w) && Joins(edges[i], w, u);
    }
  }
}
