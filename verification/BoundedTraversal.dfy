/**
 * Bounded traversal of the association graph (src/core/associations.ts): breadth-first from one
 * node, cut off by depth and by number of nodes, collecting the associations it meets.
 */
module BoundedTraversal {
  import opened Wrappers
  import opened Sequences
  import opened AssociationModel

  // ---- the store

  /** Stored associations have distinct ids. */
  ghost predicate ValidStore(store: seq<Association>) {
    forall i, j :: 0 <= i < j < |store| ==> store[i].id != store[j].id
  }

  function AssociationsFrom(store: seq<Association>, n: NodeRef): (r: seq<Association>)
    ensures forall e :: e in r <==> e in store && e.source == n
  {
    if store == [] then []
    else
      var rest := AssociationsFrom(store[..|store| - 1], n);
      assert store == store[..|store| - 1] + [store[|store| - 1]];
      if store[|store| - 1].source == n then rest + [store[|store| - 1]] else rest
  }

  function AssociationsTo(store: seq<Association>, n: NodeRef): (r: seq<Association>)
    ensures forall e :: e in r <==> e in store && e.target == n
  {
    if store == [] then []
    else
      var rest := AssociationsTo(store[..|store| - 1], n);
      assert store == store[..|store| - 1] + [store[|store| - 1]];
      if store[|store| - 1].target == n then rest + [store[|store| - 1]] else rest
  }

  /** es is all the stored associations of n. */
  ghost predicate AllTouching(store: seq<Association>, n: NodeRef, es: seq<Association>) {
    forall e :: e in es <==> e in store && Touches(e, n)
  }

  /** Those from n, then those to n. */
  method AssociationsOf(store: seq<Association>, n: NodeRef) returns (es: seq<Association>)
    ensures AllTouching(store, n, es)
  {
    es := AssociationsFrom(store, n) + AssociationsTo(store, n);
  }

  predicate Touches(e: Association, n: NodeRef) {
    e.source == n || e.target == n
  }

  /** The end of e that is not n; n itself for a loop. */
  function Neighbour(e: Association, n: NodeRef): NodeRef {
    if e.source == n then e.target else e.source
  }

  // ---- distance balls

  ghost function Around(store: seq<Association>, s: set<NodeRef>): set<NodeRef> {
    (set e | e in store && e.source in s :: e.target) + (set e | e in store && e.target in s :: e.source)
  }

  /** The nodes at most k associations away from start, whatever their direction. */
  ghost function Ball(store: seq<Association>, start: NodeRef, k: nat): set<NodeRef> {
    if k == 0 then {start} else Ball(store, start, k - 1) + Around(store, Ball(store, start, k - 1))
  }

  ghost predicate Linked(store: seq<Association>, u: NodeRef, v: NodeRef) {
    exists e :: e in store && ((e.source == u && e.target == v) || (e.source == v && e.target == u))
  }

  ghost predicate IsPath(store: seq<Association>, p: seq<NodeRef>, start: NodeRef, v: NodeRef) {
    && |p| > 0 && p[0] == start && p[|p| - 1] == v
    && forall i :: 0 <= i < |p| - 1 ==> Linked(store, p[i], p[i + 1])
  }

  lemma {:induction false} BallHasPath(store: seq<Association>, start: NodeRef, k: nat, v: NodeRef)
    returns (p: seq<NodeRef>)
    requires v in Ball(store, start, k)
    ensures IsPath(store, p, start, v) && |p| <= k + 1
    decreases k
  {
    if k == 0 {
      p := [start];
    } else if v in Ball(store, start, k - 1) {
      p := BallHasPath(store, start, k - 1, v);
    } else {
      var e :| e in store && ((e.source in Ball(store, start, k - 1) && e.target == v)
                              || (e.target in Ball(store, start, k - 1) && e.source == v));
      var u := if e.source in Ball(store, start, k - 1) && e.target == v then e.source else e.target;
      var q := BallHasPath(store, start, k - 1, u);
      assert Linked(store, u, v);
      p := q + [v];
    }
  }

  lemma {:induction false} PathInBall(store: seq<Association>, start: NodeRef, k: nat, v: NodeRef, p: seq<NodeRef>)
    requires IsPath(store, p, start, v) && |p| <= k + 1
    ensures v in Ball(store, start, k)
    decreases k
  {
    if k > 0 {
      if |p| == 1 {
        PathInBall(store, start, k - 1, v, p);
      } else {
        var q := p[..|p| - 1];
        var u := q[|q| - 1];
        PathInBall(store, start, k - 1, u, q);
        assert Linked(store, p[|p| - 2], p[|p| - 1]);
      }
    }
  }

  lemma {:induction false} BallGrows(store: seq<Association>, start: NodeRef, j: nat, k: nat)
    requires j <= k
    ensures Ball(store, start, j) <= Ball(store, start, k)
    decreases k - j
  {
    if j < k {
      BallGrows(store, start, j + 1, k);
    }
  }

  /** A ball is what paths of that length reach. */
  lemma BallIsPathDistance(store: seq<Association>, start: NodeRef, k: nat, v: NodeRef)
    ensures v in Ball(store, start, k) <==> exists p :: IsPath(store, p, start, v) && |p| <= k + 1
  {
    if v in Ball(store, start, k) {
      var p := BallHasPath(store, start, k, v);
    }
    if p :| IsPath(store, p, start, v) && |p| <= k + 1 {
      PathInBall(store, start, k, v, p);
    }
  }

  // ---- the traversal's state

  datatype Entry = Entry(node: NodeRef, depth: nat)

  datatype Walk = Walk(
    nodes: seq<NodeRef>,
    visited: set<NodeRef>,
    queue: seq<Entry>,
    edges: seq<Association>,
    edgeIds: set<nat>
  )

  ghost predicate NodesOk(w: Walk, maxNodes: nat) {
    && Distinct(w.nodes) && |w.nodes| <= maxNodes
    && (forall n :: n in w.visited <==> n in w.nodes)
  }

  ghost predicate EdgesOk(store: seq<Association>, w: Walk) {
    && (forall i, j :: 0 <= i < j < |w.edges| ==> w.edges[i].id != w.edges[j].id)
    && (forall id :: id in w.edgeIds <==> exists e :: e in w.edges && e.id == id)
    && (forall e :: e in w.edges ==> e in store && e.source in w.nodes && e.target in w.nodes)
  }

  /** What examining some of the current node's associations may change. */
  ghost predicate Extended(before: Walk, after: Walk, current: NodeRef, depth: nat, added: seq<NodeRef>) {
    && after.nodes == before.nodes + added
    && |after.queue| == |before.queue| + |added|
    && (forall i :: 0 <= i < |before.queue| ==> after.queue[i] == before.queue[i])
    && (forall i :: 0 <= i < |added| ==> after.queue[|before.queue| + i] == Entry(added[i], depth + 1))
    && before.edges <= after.edges
  }

  ghost predicate EdgeSeen(w: Walk, current: NodeRef, e: Association) {
    Neighbour(e, current) in w.nodes && e in w.edges
  }

  // The new nodes and associations all come from the current node's associations es.
  ghost predicate FromCurrent(before: Walk, after: Walk, current: NodeRef, es: seq<Association>, added: seq<NodeRef>) {
    && (forall n :: n in added ==> exists e :: e in es && Neighbour(e, current) == n)
    && (forall e :: e in after.edges ==> e in before.edges || e in es)
  }

  method ExamineOne(
    ghost store: seq<Association>, w: Walk, current: NodeRef, depth: nat, e: Association, maxNodes: nat
  ) returns (out: Walk, ghost added: seq<NodeRef>)
    requires ValidStore(store) && e in store && Touches(e, current) && current in w.nodes
    requires NodesOk(w, maxNodes) && EdgesOk(store, w)
    ensures NodesOk(out, maxNodes) && EdgesOk(store, out)
    ensures Extended(w, out, current, depth, added) && FromCurrent(w, out, current, [e], added)
    ensures |out.nodes| < maxNodes ==> EdgeSeen(out, current, e)
  {
    out := w;
    added := [];
    if e.id in w.edgeIds {
      assert e in w.edges by {
        var f :| f in w.edges && f.id == e.id;
        SameId(store, e, f);
      }
      return;
    }
    var n := Neighbour(e, current);
    var already := n in w.visited;
    if !already && |w.nodes| < maxNodes {
      out := out.(visited := out.visited + {n}, nodes := out.nodes + [n], queue := out.queue + [Entry(n, depth + 1)]);
      added := [n];
    }
    if already || n in out.nodes {
      out := out.(edgeIds := out.edgeIds + {e.id}, edges := out.edges + [e]);
      EdgeAppended(store, w, out, current, e);
    }
  }

  lemma SameId(store: seq<Association>, e: Association, f: Association)
    requires ValidStore(store) && e in store && f in store && e.id == f.id
    ensures e == f
  {
  }

  lemma EdgeAppended(store: seq<Association>, w: Walk, out: Walk, current: NodeRef, e: Association)
    requires EdgesOk(store, w) && e in store && Touches(e, current) && e.id !in w.edgeIds
    requires w.nodes <= out.nodes && current in w.nodes && Neighbour(e, current) in out.nodes
    requires out.edges == w.edges + [e] && out.edgeIds == w.edgeIds + {e.id}
    ensures EdgesOk(store, out)
  {
    forall i, j | 0 <= i < j < |out.edges|
      ensures out.edges[i].id != out.edges[j].id
    {
      if j == |w.edges| {
        assert w.edges[i] in w.edges;
      }
    }
    assert current in out.nodes;
  }

  ghost predicate AllSeen(w: Walk, current: NodeRef, es: seq<Association>, n: nat)
    requires n <= |es|
  {
    forall i :: 0 <= i < n ==> EdgeSeen(w, current, es[i])
  }

  // The inner loop's invariant after i of the current node's associations.
  ghost predicate Progress(
    store: seq<Association>, w: Walk, out: Walk, current: NodeRef, depth: nat, es: seq<Association>, i: nat,
    added: seq<NodeRef>, maxNodes: nat
  )
    requires i <= |es|
  {
    && NodesOk(out, maxNodes) && EdgesOk(store, out)
    && Extended(w, out, current, depth, added) && FromCurrent(w, out, current, es, added)
    && (|out.nodes| < maxNodes ==> AllSeen(out, current, es, i))
  }

  /** The inner loop: every association of the current node. */
  method ExamineAll(
    ghost store: seq<Association>, w: Walk, current: NodeRef, depth: nat, es: seq<Association>, maxNodes: nat
  ) returns (out: Walk, ghost added: seq<NodeRef>)
    requires ValidStore(store) && current in w.nodes
    requires AllTouching(store, current, es)
    requires NodesOk(w, maxNodes) && EdgesOk(store, w)
    ensures |out.nodes| < maxNodes ==> AllSeen(out, current, es, |es|)
    ensures w.nodes <= out.nodes && w.edges <= out.edges && NodesOk(out, maxNodes) && EdgesOk(store, out)
    ensures Progress(store, w, out, current, depth, es, |es|, added, maxNodes)
  {
    out := w;
    added := [];
    for i := 0 to |es|
      invariant Progress(store, w, out, current, depth, es, i, added, maxNodes)
    {
      out, added := ExamineNext(store, w, out, current, depth, es, i, added, maxNodes);
    }
  }

  method ExamineNext(
    ghost store: seq<Association>, ghost w: Walk, was: Walk, current: NodeRef, depth: nat, es: seq<Association>,
    i: nat, ghost before: seq<NodeRef>, maxNodes: nat
  ) returns (out: Walk, ghost added: seq<NodeRef>)
    requires ValidStore(store) && current in w.nodes && i < |es|
    requires AllTouching(store, current, es)
    requires Progress(store, w, was, current, depth, es, i, before, maxNodes)
    ensures Progress(store, w, out, current, depth, es, i + 1, added, maxNodes)
  {
    ghost var more;
    assert es[i] in es && current in was.nodes;
    out, more := ExamineOne(store, was, current, depth, es[i], maxNodes);
    ExtendMore(w, was, out, current, depth, es, i, before, more);
    added := before + more;
  }

  lemma ExtendMore(
    w: Walk, was: Walk, out: Walk, current: NodeRef, depth: nat, es: seq<Association>, i: nat,
    added: seq<NodeRef>, more: seq<NodeRef>
  )
    requires i < |es|
    requires Extended(w, was, current, depth, added) && FromCurrent(w, was, current, es, added)
    requires Extended(was, out, current, depth, more) && FromCurrent(was, out, current, [es[i]], more)
    ensures Extended(w, out, current, depth, added + more) && FromCurrent(w, out, current, es, added + more)
    ensures AllSeen(was, current, es, i) ==> AllSeen(out, current, es, i)
  {
    assert es[i] in es;
    assert forall n :: n in was.nodes ==> n in out.nodes;
    assert forall e :: e in was.edges ==> e in out.edges;
  }

  // ---- the outer loop's invariant; h nodes have been taken from the queue

  ghost predicate Leveled(w: Walk, d: map<NodeRef, nat>, h: nat) {
    && (forall n :: n in w.nodes ==> n in d)
    && (forall i, j :: 0 <= i < j < |w.nodes| ==> d[w.nodes[i]] <= d[w.nodes[j]])
    && h + |w.queue| == |w.nodes|
    && (forall i :: 0 <= i < |w.queue| ==> w.queue[i] == Entry(w.nodes[h + i], d[w.nodes[h + i]]))
    && (if h == 0 then |w.nodes| == 1 else forall n :: n in w.nodes ==> d[n] <= d[w.nodes[h - 1]] + 1)
  }

  ghost predicate InBalls(store: seq<Association>, start: NodeRef, maxDepth: nat, w: Walk, d: map<NodeRef, nat>) {
    && start in w.nodes && start in d && d[start] == 0
    && forall n :: n in w.nodes ==> n in d && d[n] <= maxDepth && n in Ball(store, start, d[n])
  }

  // Every association of n has been followed and recorded.
  ghost predicate Closed(
    store: seq<Association>, nodes: seq<NodeRef>, edges: seq<Association>, d: map<NodeRef, nat>, n: NodeRef
  ) {
    n in d && forall e :: e in store && Touches(e, n) ==>
      Neighbour(e, n) in nodes && Neighbour(e, n) in d && d[Neighbour(e, n)] <= d[n] + 1 && e in edges
  }

  ghost predicate ClosedBelow(store: seq<Association>, w: Walk, d: map<NodeRef, nat>, maxDepth: nat, h: int) {
    forall i :: 0 <= i < h && i < |w.nodes| && w.nodes[i] in d && d[w.nodes[i]] < maxDepth ==>
      Closed(store, w.nodes, w.edges, d, w.nodes[i])
  }

  /** Every recorded association has an end at depth below the bound. */
  ghost predicate EdgesShallow(store: seq<Association>, start: NodeRef, maxDepth: nat, edges: seq<Association>) {
    forall e :: e in edges ==>
      maxDepth > 0 && (e.source in Ball(store, start, maxDepth - 1) || e.target in Ball(store, start, maxDepth - 1))
  }

  ghost predicate Invariant(
    store: seq<Association>, start: NodeRef, maxDepth: nat, maxNodes: nat, w: Walk, d: map<NodeRef, nat>, h: nat
  ) {
    && NodesOk(w, maxNodes) && EdgesOk(store, w) && Leveled(w, d, h) && InBalls(store, start, maxDepth, w, d)
    && ClosedBelow(store, w, d, maxDepth, if |w.nodes| < maxNodes then h else h - 1)
    && EdgesShallow(store, start, maxDepth, w.edges)
  }

  ghost function Deepen(d: map<NodeRef, nat>, added: seq<NodeRef>, depth: nat): map<NodeRef, nat> {
    map n | n in d.Keys + (set x | x in added) :: if n in added then depth else d[n]
  }

  // The state after taking the head of the queue: nothing but the queue changes.
  ghost predicate Popped(w: Walk, p: Walk) {
    w.queue != [] && p == w.(queue := w.queue[1..])
  }

  lemma HeadOfQueue(w: Walk, d: map<NodeRef, nat>, h: nat)
    requires Leveled(w, d, h) && w.queue != []
    ensures w.queue[0].node == w.nodes[h] && w.queue[0].node in w.nodes && w.queue[0].depth == d[w.nodes[h]]
    ensures forall n :: n in w.nodes ==> d[n] <= d[w.nodes[h]] + 1
  {
    if h > 0 {
      assert d[w.nodes[h - 1]] <= d[w.nodes[h]];
    }
  }

  lemma SkipKeeps(
    store: seq<Association>, start: NodeRef, maxDepth: nat, maxNodes: nat, w: Walk, p: Walk, d: map<NodeRef, nat>,
    h: nat
  )
    requires Invariant(store, start, maxDepth, maxNodes, w, d, h) && Popped(w, p)
    requires |w.nodes| < maxNodes && w.queue[0].depth >= maxDepth
    ensures Invariant(store, start, maxDepth, maxNodes, p, d, h + 1)
  {
    SkipLeveled(w, p, d, h);
    SkipClosed(store, w, d, maxDepth, h);
    assert ClosedBelow(store, p, d, maxDepth, h + 1);
  }

  lemma SkipClosed(store: seq<Association>, w: Walk, d: map<NodeRef, nat>, maxDepth: nat, h: nat)
    requires Leveled(w, d, h) && w.queue != [] && w.queue[0].depth >= maxDepth
    requires ClosedBelow(store, w, d, maxDepth, h)
    ensures ClosedBelow(store, w, d, maxDepth, h + 1)
  {
    HeadOfQueue(w, d, h);
  }

  lemma SkipLeveled(w: Walk, p: Walk, d: map<NodeRef, nat>, h: nat)
    requires Leveled(w, d, h) && Popped(w, p)
    ensures Leveled(p, d, h + 1)
  {
    HeadOfQueue(w, d, h);
    assert forall i :: 0 <= i < |p.queue| ==> p.queue[i] == w.queue[i + 1];
  }

  lemma ExpandKeepsLevels(
    w: Walk, p: Walk, out: Walk, d: map<NodeRef, nat>, h: nat, added: seq<NodeRef>, depth: nat
  )
    requires Leveled(w, d, h) && Popped(w, p) && depth == w.queue[0].depth
    requires Extended(p, out, w.queue[0].node, depth, added) && Distinct(out.nodes)
    ensures Leveled(out, Deepen(d, added, depth + 1), h + 1)
    ensures forall n :: n in w.nodes ==> n !in added
  {
    HeadOfQueue(w, d, h);
    var e := Deepen(d, added, depth + 1);
    DistinctParts(w.nodes, added);
    LevelsAppend(w, p, out, d, e, h, added, depth);
  }

  lemma DistinctParts<T>(a: seq<T>, b: seq<T>)
    requires Distinct(a + b)
    ensures forall x :: x in a ==> x !in b
  {
    var c := a + b;
    forall i, j | 0 <= i < |a| && 0 <= j < |b|
      ensures a[i] != b[j]
    {
      assert c[i] == a[i] && c[|a| + j] == b[j];
    }
  }

  lemma LevelsAppend(
    w: Walk, p: Walk, out: Walk, d: map<NodeRef, nat>, e: map<NodeRef, nat>, h: nat, added: seq<NodeRef>, depth: nat
  )
    requires Leveled(w, d, h) && Popped(w, p) && depth == w.queue[0].depth
    requires Extended(p, out, w.queue[0].node, depth, added)
    requires w.nodes[h] in d && depth == d[w.nodes[h]] && forall n :: n in w.nodes ==> d[n] <= depth + 1
    requires forall n :: n in w.nodes ==> n in e && e[n] == d[n]
    requires forall n :: n in added ==> n in e && e[n] == depth + 1
    ensures Leveled(out, e, h + 1)
  {
    var m := |w.nodes|;
    forall i | 0 <= i < |out.nodes|
      ensures out.nodes[i] in e
      ensures i < m ==> out.nodes[i] == w.nodes[i] && e[out.nodes[i]] == d[w.nodes[i]] <= depth + 1
      ensures i >= m ==> e[out.nodes[i]] == depth + 1
    {
      if i < m {
        assert out.nodes[i] == w.nodes[i];
      } else {
        assert out.nodes[i] == added[i - m];
      }
    }
    forall i | 0 <= i < |out.queue|
      ensures out.queue[i] == Entry(out.nodes[h + 1 + i], e[out.nodes[h + 1 + i]])
    {
      if i < |p.queue| {
        assert out.queue[i] == w.queue[i + 1];
      } else {
        assert out.queue[i] == Entry(added[i - |p.queue|], depth + 1);
      }
    }
  }

  lemma ExpandKeepsBalls(
    store: seq<Association>, start: NodeRef, maxDepth: nat, w: Walk, out: Walk, d: map<NodeRef, nat>,
    current: NodeRef, es: seq<Association>, added: seq<NodeRef>
  )
    requires InBalls(store, start, maxDepth, w, d) && current in w.nodes && current in d && d[current] < maxDepth
    requires out.nodes == w.nodes + added && forall n :: n in w.nodes ==> n !in added
    requires forall n :: n in added ==> exists e :: e in es && Neighbour(e, current) == n
    requires forall e :: e in es ==> e in store && Touches(e, current)
    ensures InBalls(store, start, maxDepth, out, Deepen(d, added, d[current] + 1))
  {
    forall n | n in added
      ensures n in Ball(store, start, d[current] + 1)
    {
      var e :| e in es && Neighbour(e, current) == n;
    }
  }

  lemma ExpandKeepsShallow(
    store: seq<Association>, start: NodeRef, maxDepth: nat, before: seq<Association>, after: seq<Association>,
    current: NodeRef, depth: nat, es: seq<Association>
  )
    requires EdgesShallow(store, start, maxDepth, before)
    requires depth < maxDepth && current in Ball(store, start, depth)
    requires forall e :: e in es ==> Touches(e, current)
    requires forall e :: e in after ==> e in before || e in es
    ensures EdgesShallow(store, start, maxDepth, after)
  {
    BallGrows(store, start, depth, maxDepth - 1);
  }

  lemma ClosedStays(
    store: seq<Association>, w: Walk, out: Walk, d: map<NodeRef, nat>, e: map<NodeRef, nat>, n: NodeRef
  )
    requires Closed(store, w.nodes, w.edges, d, n) && n in w.nodes
    requires w.nodes <= out.nodes && w.edges <= out.edges
    requires forall x :: x in w.nodes && x in d ==> x in e && e[x] == d[x]
    ensures Closed(store, out.nodes, out.edges, e, n)
  {
    forall a | a in store && Touches(a, n)
      ensures Neighbour(a, n) in out.nodes && Neighbour(a, n) in e && e[Neighbour(a, n)] <= e[n] + 1 && a in out.edges
    {
      var x := Neighbour(a, n);
      assert x in w.nodes && x in d && a in w.edges;
    }
  }

  lemma ExpandedCloses(
    store: seq<Association>, out: Walk, e: map<NodeRef, nat>, current: NodeRef, es: seq<Association>
  )
    requires current in e && forall n :: n in out.nodes ==> n in e && e[n] <= e[current] + 1
    requires forall a :: a in store && Touches(a, current) ==> a in es
    requires AllSeen(out, current, es, |es|)
    ensures Closed(store, out.nodes, out.edges, e, current)
  {
    forall a | a in store && Touches(a, current)
      ensures EdgeSeen(out, current, a)
    {
      var i :| 0 <= i < |es| && es[i] == a;
    }
  }

  lemma ExpandKeepsClosed(
    store: seq<Association>, maxDepth: nat, maxNodes: nat, w: Walk, out: Walk, d: map<NodeRef, nat>,
    e: map<NodeRef, nat>, h: nat, es: seq<Association>
  )
    requires ClosedBelow(store, w, d, maxDepth, h) && h < |w.nodes| && Leveled(out, e, h + 1)
    requires w.nodes <= out.nodes && w.edges <= out.edges
    requires forall x :: x in w.nodes ==> x in d && x in e && e[x] == d[x]
    requires forall a :: a in store && Touches(a, w.nodes[h]) ==> a in es
    requires |out.nodes| < maxNodes ==> AllSeen(out, w.nodes[h], es, |es|)
    ensures ClosedBelow(store, out, e, maxDepth, if |out.nodes| < maxNodes then h + 1 else h)
  {
    var top := if |out.nodes| < maxNodes then h + 1 else h;
    forall i | 0 <= i < top && i < |out.nodes| && out.nodes[i] in e && e[out.nodes[i]] < maxDepth
      ensures Closed(store, out.nodes, out.edges, e, out.nodes[i])
    {
      assert out.nodes[i] == w.nodes[i];
      if i < h {
        ClosedStays(store, w, out, d, e, w.nodes[i]);
      } else {
        assert out.nodes[h] in out.nodes;
        ExpandedCloses(store, out, e, w.nodes[h], es);
      }
    }
  }

  lemma ExpandKeeps(
    store: seq<Association>, start: NodeRef, maxDepth: nat, maxNodes: nat, w: Walk, p: Walk, out: Walk,
    d: map<NodeRef, nat>, h: nat, es: seq<Association>, added: seq<NodeRef>
  )
    requires Invariant(store, start, maxDepth, maxNodes, w, d, h) && Popped(w, p) && |w.nodes| < maxNodes
    requires w.queue[0].depth < maxDepth
    requires AllTouching(store, w.queue[0].node, es)
    requires Progress(store, p, out, w.queue[0].node, w.queue[0].depth, es, |es|, added, maxNodes)
    ensures Invariant(store, start, maxDepth, maxNodes, out, Deepen(d, added, w.queue[0].depth + 1), h + 1)
  {
    var current, depth := w.queue[0].node, w.queue[0].depth;
    HeadOfQueue(w, d, h);
    ExpandKeepsLevels(w, p, out, d, h, added, depth);
    ExpandKeepsBalls(store, start, maxDepth, w, out, d, current, es, added);
    ExpandKeepsShallow(store, start, maxDepth, w.edges, out.edges, current, depth, es);
    ExpandKeepsClosed(store, maxDepth, maxNodes, w, out, d, Deepen(d, added, depth + 1), h, es);
  }

  // ---- the traversal and what it returns

  datatype AssociationGraph = AssociationGraph(nodes: seq<NodeRef>, edges: seq<Association>)

  /** Distinct nodes within the ball and the bound; distinct stored associations between them. */
  ghost predicate WithinBounds(
    store: seq<Association>, start: NodeRef, maxDepth: nat, maxNodes: nat, g: AssociationGraph
  ) {
    && Distinct(g.nodes) && |g.nodes| <= maxNodes && start in g.nodes
    && (forall n :: n in g.nodes ==> n in Ball(store, start, maxDepth))
    && (forall i, j :: 0 <= i < j < |g.edges| ==> g.edges[i].id != g.edges[j].id)
    && (forall e :: e in g.edges ==> e in store && e.source in g.nodes && e.target in g.nodes)
    && EdgesShallow(store, start, maxDepth, g.edges)
  }

  /** Every node of the ball, and every association touching a node below the depth bound. */
  ghost predicate Complete(store: seq<Association>, start: NodeRef, maxDepth: nat, g: AssociationGraph) {
    && (forall n :: n in Ball(store, start, maxDepth) ==> n in g.nodes)
    && (maxDepth > 0 ==>
         forall e, n :: e in store && Touches(e, n) && n in Ball(store, start, maxDepth - 1) ==> e in g.edges)
  }

  /** No node left out is nearer to the start than a node taken in. */
  ghost predicate ClosestFirst(store: seq<Association>, start: NodeRef, nodes: seq<NodeRef>) {
    forall k: nat ::
      (forall n :: n in Ball(store, start, k) ==> n in nodes) || (forall n :: n in nodes ==> n in Ball(store, start, k))
  }

  ghost predicate Traversed(
    store: seq<Association>, start: NodeRef, maxDepth: nat, maxNodes: nat, g: AssociationGraph
  ) {
    && WithinBounds(store, start, maxDepth, maxNodes, g)
    && (|g.nodes| < maxNodes ==> Complete(store, start, maxDepth, g))
    && ClosestFirst(store, start, g.nodes)
  }

  lemma {:induction false} BallReached(
    store: seq<Association>, start: NodeRef, w: Walk, d: map<NodeRef, nat>, k: nat, v: NodeRef
  )
    requires start in w.nodes && start in d && d[start] == 0
    requires forall n :: n in w.nodes && n in d && d[n] < k ==> Closed(store, w.nodes, w.edges, d, n)
    requires v in Ball(store, start, k)
    ensures v in w.nodes && v in d && d[v] <= k
    decreases k
  {
    if k > 0 {
      if v in Ball(store, start, k - 1) {
        BallReached(store, start, w, d, k - 1, v);
      } else {
        var e, u := BallEdge(store, start, k, v);
        BallReached(store, start, w, d, k - 1, u);
        assert Closed(store, w.nodes, w.edges, d, u);
      }
    }
  }

  lemma BallEdge(store: seq<Association>, start: NodeRef, k: nat, v: NodeRef)
    returns (e: Association, u: NodeRef)
    requires k > 0 && v in Ball(store, start, k) && v !in Ball(store, start, k - 1)
    ensures e in store && Touches(e, u) && Neighbour(e, u) == v && u in Ball(store, start, k - 1)
  {
    e :| e in store && ((e.source in Ball(store, start, k - 1) && e.target == v)
                        || (e.target in Ball(store, start, k - 1) && e.source == v));
    u := if e.source in Ball(store, start, k - 1) && e.target == v then e.source else e.target;
  }

  // All nodes below level c have been closed, when c is the level of the last node taken from the queue;
  // all nodes lie in the ball of radius r.
  lemma LowerClosed(
    store: seq<Association>, start: NodeRef, maxDepth: nat, maxNodes: nat, w: Walk, d: map<NodeRef, nat>, h: nat
  ) returns (c: nat, r: nat)
    requires Leveled(w, d, h) && InBalls(store, start, maxDepth, w, d)
    requires ClosedBelow(store, w, d, maxDepth, if |w.nodes| < maxNodes then h else h - 1)
    ensures c <= maxDepth && r <= c + 1
    ensures forall n :: n in w.nodes && n in d && d[n] < c ==> Closed(store, w.nodes, w.edges, d, n)
    ensures forall n :: n in w.nodes ==> n in Ball(store, start, r)
  {
    if h == 0 {
      c, r := 0, 0;
      assert w.nodes == [start];
      assert start in w.nodes;
    } else {
      c := d[w.nodes[h - 1]];
      r := c + 1;
      assert w.nodes[h - 1] in w.nodes;
      BelowLastClosed(store, maxDepth, maxNodes, w, d, h);
    }
    WithinBall(store, start, w.nodes, d, r);
  }

  lemma WithinBall(store: seq<Association>, start: NodeRef, nodes: seq<NodeRef>, d: map<NodeRef, nat>, r: nat)
    requires forall n :: n in nodes ==> n in d && d[n] <= r && n in Ball(store, start, d[n])
    ensures forall n :: n in nodes ==> n in Ball(store, start, r)
  {
    forall n | n in nodes
      ensures n in Ball(store, start, r)
    {
      BallGrows(store, start, d[n], r);
    }
  }

  lemma BelowLastClosed(store: seq<Association>, maxDepth: nat, maxNodes: nat, w: Walk, d: map<NodeRef, nat>, h: nat)
    requires Leveled(w, d, h) && 0 < h && d[w.nodes[h - 1]] <= maxDepth
    requires ClosedBelow(store, w, d, maxDepth, if |w.nodes| < maxNodes then h else h - 1)
    ensures forall n :: n in w.nodes && n in d && d[n] < d[w.nodes[h - 1]] ==> Closed(store, w.nodes, w.edges, d, n)
  {
    forall n | n in w.nodes && n in d && d[n] < d[w.nodes[h - 1]]
      ensures Closed(store, w.nodes, w.edges, d, n)
    {
      var i :| 0 <= i < |w.nodes| && w.nodes[i] == n;
      assert i < h - 1;
    }
  }

  lemma IsClosestFirst(
    store: seq<Association>, start: NodeRef, maxDepth: nat, maxNodes: nat, w: Walk, d: map<NodeRef, nat>, h: nat
  )
    requires Invariant(store, start, maxDepth, maxNodes, w, d, h)
    ensures ClosestFirst(store, start, w.nodes)
  {
    var c, r := LowerClosed(store, start, maxDepth, maxNodes, w, d, h);
    forall k: nat
      ensures (forall n :: n in Ball(store, start, k) ==> n in w.nodes)
        || (forall n :: n in w.nodes ==> n in Ball(store, start, k))
    {
      if k <= c {
        forall n | n in Ball(store, start, k)
          ensures n in w.nodes
        {
          BallGrows(store, start, k, c);
          BallReached(store, start, w, d, c, n);
        }
      } else {
        BallGrows(store, start, r, k);
      }
    }
  }

  lemma IsComplete(
    store: seq<Association>, start: NodeRef, maxDepth: nat, maxNodes: nat, w: Walk, d: map<NodeRef, nat>, h: nat
  )
    requires Invariant(store, start, maxDepth, maxNodes, w, d, h)
    requires w.queue == [] && |w.nodes| < maxNodes
    ensures Complete(store, start, maxDepth, AssociationGraph(w.nodes, w.edges))
  {
    AllClosed(store, start, maxDepth, maxNodes, w, d, h);
    ClosedIsComplete(store, start, maxDepth, w, d);
  }

  lemma ClosedIsComplete(store: seq<Association>, start: NodeRef, maxDepth: nat, w: Walk, d: map<NodeRef, nat>)
    requires start in w.nodes && start in d && d[start] == 0
    requires forall n :: n in w.nodes && n in d && d[n] < maxDepth ==> Closed(store, w.nodes, w.edges, d, n)
    ensures Complete(store, start, maxDepth, AssociationGraph(w.nodes, w.edges))
  {
    forall n | n in Ball(store, start, maxDepth)
      ensures n in w.nodes
    {
      BallReached(store, start, w, d, maxDepth, n);
    }
    if maxDepth > 0 {
      forall e, n | e in store && Touches(e, n) && n in Ball(store, start, maxDepth - 1)
        ensures e in w.edges
      {
        BallReached(store, start, w, d, maxDepth - 1, n);
        assert Closed(store, w.nodes, w.edges, d, n);
      }
    }
  }

  lemma AllClosed(
    store: seq<Association>, start: NodeRef, maxDepth: nat, maxNodes: nat, w: Walk, d: map<NodeRef, nat>, h: nat
  )
    requires Invariant(store, start, maxDepth, maxNodes, w, d, h)
    requires w.queue == [] && |w.nodes| < maxNodes
    ensures start in w.nodes && start in d && d[start] == 0
    ensures forall n :: n in w.nodes && n in d && d[n] < maxDepth ==> Closed(store, w.nodes, w.edges, d, n)
  {
    assert h == |w.nodes|;
    forall n | n in w.nodes && n in d && d[n] < maxDepth
      ensures Closed(store, w.nodes, w.edges, d, n)
    {
      var i :| 0 <= i < |w.nodes| && w.nodes[i] == n;
    }
  }

  lemma IsTraversed(
    store: seq<Association>, start: NodeRef, maxDepth: nat, maxNodes: nat, w: Walk, d: map<NodeRef, nat>, h: nat
  )
    requires Invariant(store, start, maxDepth, maxNodes, w, d, h)
    requires w.queue == [] || |w.nodes| == maxNodes
    ensures Traversed(store, start, maxDepth, maxNodes, AssociationGraph(w.nodes, w.edges))
  {
    IsClosestFirst(store, start, maxDepth, maxNodes, w, d, h);
    if |w.nodes| < maxNodes {
      IsComplete(store, start, maxDepth, maxNodes, w, d, h);
    }
    forall n | n in w.nodes
      ensures n in Ball(store, start, maxDepth)
    {
      BallGrows(store, start, d[n], maxDepth);
    }
  }

  function NormalizeTraversalBound(value: Option<int>, defaultValue: nat): Result<nat> {
    match value
    case None => Ok(defaultValue)
    case Some(v) => if v < 0 then Err("must be a non-negative integer") else Ok(v)
  }

  /** The whole traversal, with its argument checks. */
  method TraverseAssociations(
    store: seq<Association>, startKind: NodeKind, startId: int, maxDepth: Option<int>, maxNodes: Option<int>
  ) returns (r: Result<AssociationGraph>)
    requires ValidStore(store)
    ensures r.Err? <==> startId <= 0 || (maxDepth.Some? && maxDepth.value < 0) || (maxNodes.Some? && maxNodes.value < 0)
    ensures r.Ok? ==>
      var depth := if maxDepth.Some? then maxDepth.value else 2;
      var bound := if maxNodes.Some? then maxNodes.value else 20;
      if bound == 0 then r.value == AssociationGraph([], [])
      else Traversed(store, NodeRef(startKind, startId), depth, bound, r.value)
  {
    if startId <= 0 {
      return Err("startId must be a positive integer");
    }
    var depthBound := NormalizeTraversalBound(maxDepth, 2);
    if depthBound.Err? {
      return Err(depthBound.message);
    }
    var nodeBound := NormalizeTraversalBound(maxNodes, 20);
    if nodeBound.Err? {
      return Err(nodeBound.message);
    }
    if nodeBound.value < 1 {
      return Ok(AssociationGraph([], []));
    }
    var g := Traverse(store, NodeRef(startKind, startId), depthBound.value, nodeBound.value);
    r := Ok(g);
  }

  method Traverse(store: seq<Association>, start: NodeRef, maxDepth: nat, maxNodes: nat) returns (g: AssociationGraph)
    requires ValidStore(store) && maxNodes >= 1
    ensures Traversed(store, start, maxDepth, maxNodes, g)
  {
    var w := Walk([start], {start}, [Entry(start, 0)], [], {});
    ghost var d: map<NodeRef, nat> := map[start := 0];
    ghost var h := 0;
    StartOk(store, start, maxDepth, maxNodes, w);
    while w.queue != [] && |w.nodes| < maxNodes
      invariant Invariant(store, start, maxDepth, maxNodes, w, d, h)
      decreases maxNodes - |w.nodes|, |w.queue|
    {
      w, d := Visit(store, start, maxDepth, maxNodes, w, d, h);
      h := h + 1;
    }
    IsTraversed(store, start, maxDepth, maxNodes, w, d, h);
    g := AssociationGraph(w.nodes, w.edges);
  }

  lemma StartOk(store: seq<Association>, start: NodeRef, maxDepth: nat, maxNodes: nat, w: Walk)
    requires maxNodes >= 1 && w == Walk([start], {start}, [Entry(start, 0)], [], {})
    ensures Invariant(store, start, maxDepth, maxNodes, w, map[start := 0], 0)
  {
  }

  /** One turn of the outer loop. */
  method Visit(
    store: seq<Association>, ghost start: NodeRef, maxDepth: nat, maxNodes: nat, w: Walk, ghost d: map<NodeRef, nat>,
    ghost h: nat
  ) returns (out: Walk, ghost e: map<NodeRef, nat>)
    requires ValidStore(store) && Invariant(store, start, maxDepth, maxNodes, w, d, h)
    requires w.queue != [] && |w.nodes| < maxNodes
    ensures Invariant(store, start, maxDepth, maxNodes, out, e, h + 1)
    ensures |out.nodes| > |w.nodes| || (|out.nodes| == |w.nodes| && |out.queue| < |w.queue|)
  {
    var p := w.(queue := w.queue[1..]);
    if w.queue[0].depth >= maxDepth {
      SkipKeeps(store, start, maxDepth, maxNodes, w, p, d, h);
      out, e := p, d;
    } else {
      out, e := Expand(store, start, maxDepth, maxNodes, w, p, d, h);
    }
  }

  method Expand(
    store: seq<Association>, ghost start: NodeRef, ghost maxDepth: nat, maxNodes: nat, w: Walk, p: Walk,
    ghost d: map<NodeRef, nat>, ghost h: nat
  ) returns (out: Walk, ghost e: map<NodeRef, nat>)
    requires ValidStore(store) && Invariant(store, start, maxDepth, maxNodes, w, d, h) && Popped(w, p)
    requires w.queue[0].depth < maxDepth && |w.nodes| < maxNodes
    ensures Invariant(store, start, maxDepth, maxNodes, out, e, h + 1)
    ensures Shrank(p, out)
  {
    ghost var es, added;
    out, es, added := ExamineHead(store, maxNodes, w, p, d, h);
    ExpandKeeps(store, start, maxDepth, maxNodes, w, p, out, d, h, es, added);
    e := Deepen(d, added, w.queue[0].depth + 1);
  }

  method ExamineHead(
    store: seq<Association>, maxNodes: nat, w: Walk, p: Walk, ghost d: map<NodeRef, nat>, ghost h: nat
  ) returns (out: Walk, ghost es: seq<Association>, ghost added: seq<NodeRef>)
    requires ValidStore(store) && NodesOk(w, maxNodes) && EdgesOk(store, w) && Leveled(w, d, h) && Popped(w, p)
    ensures AllTouching(store, w.queue[0].node, es) && Shrank(p, out)
    ensures Progress(store, p, out, w.queue[0].node, w.queue[0].depth, es, |es|, added, maxNodes)
  {
    var current := w.queue[0];
    PoppedReady(store, w, p, d, h, maxNodes);
    var found := AssociationsOf(store, current.node);
    es := found;
    out, added := ExamineAll(store, p, current.node, current.depth, found, maxNodes);
    Shrinks(p, out, current.node, current.depth, added);
  }

  lemma PoppedReady(store: seq<Association>, w: Walk, p: Walk, d: map<NodeRef, nat>, h: nat, maxNodes: nat)
    requires NodesOk(w, maxNodes) && EdgesOk(store, w) && Leveled(w, d, h) && Popped(w, p)
    ensures NodesOk(p, maxNodes) && EdgesOk(store, p) && w.queue[0].node in p.nodes
  {
    HeadOfQueue(w, d, h);
  }

  lemma Shrinks(p: Walk, out: Walk, current: NodeRef, depth: nat, added: seq<NodeRef>)
    requires Extended(p, out, current, depth, added)
    ensures Shrank(p, out)
  {
  }

  // Something was found, or the queue is as it was.
  ghost predicate Shrank(p: Walk, out: Walk) {
    |out.nodes| > |p.nodes| || (|out.nodes| == |p.nodes| && |out.queue| == |p.queue|)
  }
}
