/** The forward pass of Brandes' algorithm: a depth-bounded breadth-first search that counts paths. */
module BreadthFirstSearch {
  import opened Sequences
  import opened AssociationModel
  import opened FiniteSums
  import opened ShortestPaths

  datatype Search = Search(
    stack: seq<NodeRef>,
    queue: seq<NodeRef>,
    pred: map<NodeRef, seq<NodeRef>>,
    sigma: map<NodeRef, real>,
    dist: map<NodeRef, int>
  )

  ghost function Elements<T(!new)>(s: seq<T>): set<T> {
    set x | x in s
  }

  ghost function Lookup(m: map<NodeRef, real>): NodeRef -> real {
    x => if x in m then m[x] else 0.0
  }

  ghost function Order(st: Search): seq<NodeRef> {
    st.stack + st.queue
  }

  // ---- the search invariant, in five parts

  ghost predicate Domains(g: Graph, st: Search) {
    forall x :: x in g ==> x in st.pred && x in st.sigma && x in st.dist
  }

  /** Discovered nodes, in order of discovery, are the stack followed by the queue. */
  ghost predicate Discovered(g: Graph, s: NodeRef, m: nat, st: Search)
    requires Domains(g, st)
  {
    && s in g && st.dist[s] == 0
    && Distinct(Order(st))
    && (forall v :: v in Order(st) <==> v in g && st.dist[v] >= 0)
    && (forall v :: v in g ==> -1 <= st.dist[v] <= m && (st.dist[v] == 0 ==> v == s))
  }

  ghost predicate Sorted(g: Graph, st: Search)
    requires Domains(g, st)
  {
    var o := Order(st);
    && (forall v :: v in o ==> v in g)
    && (forall i, j :: 0 <= i < j < |o| ==> st.dist[o[i]] <= st.dist[o[j]])
    && (st.queue != [] ==> forall v :: v in o ==> st.dist[v] <= st.dist[st.queue[0]] + 1)
  }

  ghost predicate EdgesRelaxed(g: Graph, m: nat, st: Search)
    requires Domains(g, st) && WellFormed(g)
  {
    forall u, w :: u in st.stack && u in g && st.dist[u] < m && w in g[u] ==>
      0 <= st.dist[w] <= st.dist[u] + 1
  }

  ghost predicate PredsRecorded(g: Graph, s: NodeRef, st: Search)
    requires Domains(g, st)
  {
    && (forall w :: w in g ==> Distinct(st.pred[w]))
    && (forall u, w :: w in g ==>
         (u in st.pred[w] <==> u in st.stack && u in g && w in g[u] && st.dist[w] == st.dist[u] + 1))
    && (forall w :: w in g && st.dist[w] > 0 ==> st.pred[w] != [])
  }

  ghost predicate PathsCounted(g: Graph, s: NodeRef, st: Search)
    requires Domains(g, st)
  {
    forall w :: w in g ==>
      st.sigma[w] == if w == s then 1.0 else Sum(Lookup(st.sigma), Elements(st.pred[w]))
  }

  ghost predicate Invariant(g: Graph, s: NodeRef, m: nat, st: Search)
    requires WellFormed(g)
  {
    && Domains(g, st) && Discovered(g, s, m, st) && Sorted(g, st)
    && EdgesRelaxed(g, m, st) && PredsRecorded(g, s, st) && PathsCounted(g, s, st)
  }

  // ---- one node's neighbours

  /** Examining the edge from v to w. */
  function RelaxEdge(g: Graph, st: Search, v: NodeRef, w: NodeRef): (r: Search)
    requires Domains(g, st) && v in g && w in g
    ensures Domains(g, r)
  {
    var next := st.dist[v] + 1;
    var found := if st.dist[w] == -1 then st.(dist := st.dist[w := next], queue := st.queue + [w]) else st;
    if found.dist[w] == next then
      found.(sigma := found.sigma[w := found.sigma[w] + found.sigma[v]],
             pred := found.pred[w := found.pred[w] + [v]])
    else found
  }

  ghost predicate Within(g: Graph, ws: seq<NodeRef>) {
    forall i :: 0 <= i < |ws| ==> ws[i] in g
  }

  /** Examining the edges from v to its first n neighbours. */
  function RelaxFirst(g: Graph, st: Search, v: NodeRef, ws: seq<NodeRef>, n: nat): (r: Search)
    requires Domains(g, st) && v in g && n <= |ws| && Within(g, ws)
    ensures Domains(g, r)
  {
    if n == 0 then st else RelaxEdge(g, RelaxFirst(g, st, v, ws, n - 1), v, ws[n - 1])
  }

  method RelaxOne(g: Graph, v: NodeRef, w: NodeRef, st: Search) returns (out: Search)
    requires v in g && w in g && Domains(g, st) && st.dist[v] >= 0
    ensures out == RelaxEdge(g, st, v, w) && out.dist[v] == st.dist[v]
  {
    var queue, pred, sigma, dist := st.queue, st.pred, st.sigma, st.dist;
    var dv := dist[v];
    if dist[w] == -1 {
      dist := dist[w := dv + 1];
      queue := queue + [w];
    }
    if dist[w] == dv + 1 {
      sigma := sigma[w := sigma[w] + sigma[v]];
      pred := pred[w := pred[w] + [v]];
    }
    out := Search(st.stack, queue, pred, sigma, dist);
  }

  method RelaxNeighbours(g: Graph, v: NodeRef, st: Search) returns (out: Search)
    requires v in g && Within(g, g[v]) && Domains(g, st) && st.dist[v] >= 0
    ensures out == RelaxFirst(g, st, v, g[v], |g[v]|)
  {
    out := st;
    for i := 0 to |g[v]|
      invariant Domains(g, out) && out.dist[v] >= 0
      invariant out == RelaxFirst(g, st, v, g[v], i)
    {
      out := RelaxOne(g, v, g[v][i], out);
    }
  }

  lemma EdgeEffect(g: Graph, st: Search, v: NodeRef, w: NodeRef, x: NodeRef)
    requires Domains(g, st) && v in g && w in g && x in g && st.dist[v] >= 0
    ensures
      var r := RelaxEdge(g, st, v, w);
      && r.stack == st.stack
      && r.dist[x] == (if x == w && st.dist[x] == -1 then st.dist[v] + 1 else st.dist[x])
      && r.pred[x] == (if NextLevel(st, v, [w], x) then st.pred[x] + [v] else st.pred[x])
      && r.sigma[x] == (if NextLevel(st, v, [w], x) then st.sigma[x] + st.sigma[v] else st.sigma[x])
      && r.queue == (if st.dist[w] == -1 then st.queue + [w] else st.queue)
  {
  }

  lemma {:induction false} RelaxedDist(g: Graph, st: Search, v: NodeRef, ws: seq<NodeRef>, n: nat, x: NodeRef)
    requires Domains(g, st) && v in g && n <= |ws| && Within(g, ws)
    requires x in g && st.dist[v] >= 0
    ensures RelaxFirst(g, st, v, ws, n).dist[x] ==
      if x in ws[..n] && st.dist[x] == -1 then st.dist[v] + 1 else st.dist[x]
    ensures RelaxFirst(g, st, v, ws, n).stack == st.stack
  {
    if n > 0 {
      RelaxedDist(g, st, v, ws, n - 1, x);
      RelaxedDist(g, st, v, ws, n - 1, v);
      EdgeEffect(g, RelaxFirst(g, st, v, ws, n - 1), v, ws[n - 1], x);
      PrefixStep(ws, n - 1, x);
    }
  }

  lemma PrefixStep<T>(s: seq<T>, n: nat, x: T)
    requires n < |s|
    ensures x in s[..n + 1] <==> x in s[..n] || x == s[n]
  {
    assert s[..n + 1] == s[..n] + [s[n]];
  }

  /** The first n of ws that have not been discovered. */
  ghost function Unseen(st: Search, ws: seq<NodeRef>, n: nat): seq<NodeRef>
    requires n <= |ws| && forall w :: w in ws ==> w in st.dist
  {
    if n == 0 then []
    else if st.dist[ws[n - 1]] == -1 then Unseen(st, ws, n - 1) + [ws[n - 1]]
    else Unseen(st, ws, n - 1)
  }

  lemma {:induction false} UnseenMembers(st: Search, ws: seq<NodeRef>, n: nat, x: NodeRef)
    requires n <= |ws| && forall w :: w in ws ==> w in st.dist
    ensures x in Unseen(st, ws, n) <==> x in ws[..n] && st.dist[x] == -1
  {
    if n > 0 {
      UnseenMembers(st, ws, n - 1, x);
      PrefixStep(ws, n - 1, x);
    }
  }

  lemma {:induction false} UnseenDistinct(st: Search, ws: seq<NodeRef>, n: nat)
    requires n <= |ws| && Distinct(ws) && forall w :: w in ws ==> w in st.dist
    ensures Distinct(Unseen(st, ws, n))
  {
    if n > 0 {
      UnseenDistinct(st, ws, n - 1);
      UnseenMembers(st, ws, n - 1, ws[n - 1]);
    }
  }

  /** Relaxing edges appends exactly the neighbours not seen before. */
  lemma {:induction false} RelaxedQueue(g: Graph, st: Search, v: NodeRef, ws: seq<NodeRef>, n: nat)
    requires Domains(g, st) && v in g && n <= |ws| && Within(g, ws) && Distinct(ws)
    requires st.dist[v] >= 0 && forall w :: w in ws ==> w in st.dist
    ensures RelaxFirst(g, st, v, ws, n).queue == st.queue + Unseen(st, ws, n)
  {
    if n > 0 {
      RelaxedQueue(g, st, v, ws, n - 1);
      QueueNext(g, st, v, ws, n - 1);
    }
  }

  lemma QueueNext(g: Graph, st: Search, v: NodeRef, ws: seq<NodeRef>, n: nat)
    requires Domains(g, st) && v in g && n < |ws| && Within(g, ws) && Distinct(ws)
    requires st.dist[v] >= 0 && forall w :: w in ws ==> w in st.dist
    requires RelaxFirst(g, st, v, ws, n).queue == st.queue + Unseen(st, ws, n)
    ensures RelaxFirst(g, st, v, ws, n + 1).queue == st.queue + Unseen(st, ws, n + 1)
  {
    QueueStep(g, st, v, ws, n);
    AppendAssociates(st.queue, Unseen(st, ws, n), [ws[n]]);
  }

  lemma QueueStep(g: Graph, st: Search, v: NodeRef, ws: seq<NodeRef>, n: nat)
    requires Domains(g, st) && v in g && n < |ws| && Within(g, ws) && Distinct(ws)
    requires st.dist[v] >= 0
    ensures
      var before, after := RelaxFirst(g, st, v, ws, n), RelaxFirst(g, st, v, ws, n + 1);
      after.queue == if st.dist[ws[n]] == -1 then before.queue + [ws[n]] else before.queue
  {
    RelaxedDist(g, st, v, ws, n, v);
    RelaxedDist(g, st, v, ws, n, ws[n]);
    EdgeEffect(g, RelaxFirst(g, st, v, ws, n), v, ws[n], ws[n]);
  }

  predicate NextLevel(st: Search, v: NodeRef, ws: seq<NodeRef>, x: NodeRef)
    requires v in st.dist && x in st.dist
  {
    x in ws && (st.dist[x] == -1 || st.dist[x] == st.dist[v] + 1)
  }

  lemma {:induction false} RelaxedPred(g: Graph, st: Search, v: NodeRef, ws: seq<NodeRef>, n: nat, x: NodeRef)
    requires Domains(g, st) && v in g && n <= |ws| && Within(g, ws)
    requires x in g && st.dist[v] >= 0 && Distinct(ws)
    ensures RelaxFirst(g, st, v, ws, n).pred[x] ==
      if NextLevel(st, v, ws[..n], x) then st.pred[x] + [v] else st.pred[x]
  {
    if n > 0 {
      RelaxedPred(g, st, v, ws, n - 1, x);
      BeforeEdge(g, st, v, ws, n - 1, x);
    }
  }

  lemma {:induction false} SigmaOfCurrent(g: Graph, st: Search, v: NodeRef, ws: seq<NodeRef>, n: nat)
    requires Domains(g, st) && v in g && n <= |ws| && Within(g, ws) && st.dist[v] >= 0
    ensures RelaxFirst(g, st, v, ws, n).sigma[v] == st.sigma[v]
  {
    if n > 0 {
      SigmaOfCurrent(g, st, v, ws, n - 1);
      RelaxedDist(g, st, v, ws, n - 1, v);
      EdgeEffect(g, RelaxFirst(g, st, v, ws, n - 1), v, ws[n - 1], v);
    }
  }

  lemma {:induction false} RelaxedSigma(g: Graph, st: Search, v: NodeRef, ws: seq<NodeRef>, n: nat, x: NodeRef)
    requires Domains(g, st) && v in g && n <= |ws| && Within(g, ws)
    requires x in g && st.dist[v] >= 0 && Distinct(ws)
    ensures SigmaAfter(st, RelaxFirst(g, st, v, ws, n), v, ws[..n], x)
  {
    if n > 0 {
      RelaxedSigma(g, st, v, ws, n - 1, x);
      SigmaStepped(g, st, v, ws, n - 1, x);
    }
  }

  lemma SigmaStepped(g: Graph, st: Search, v: NodeRef, ws: seq<NodeRef>, n: nat, x: NodeRef)
    requires Domains(g, st) && v in g && n < |ws| && Within(g, ws)
    requires x in g && st.dist[v] >= 0 && Distinct(ws)
    requires SigmaAfter(st, RelaxFirst(g, st, v, ws, n), v, ws[..n], x)
    ensures SigmaAfter(st, RelaxFirst(g, st, v, ws, n + 1), v, ws[..n + 1], x)
  {
    SigmaOfCurrent(g, st, v, ws, n);
    BeforeEdge(g, st, v, ws, n, x);
  }

  ghost predicate SigmaAfter(st: Search, r: Search, v: NodeRef, ws: seq<NodeRef>, x: NodeRef)
    requires v in st.dist && x in st.dist && v in st.sigma && x in st.sigma && x in r.sigma
  {
    r.sigma[x] == if NextLevel(st, v, ws, x) then st.sigma[x] + st.sigma[v] else st.sigma[x]
  }

  // The edge to ws[n] touches x's record exactly when x = ws[n] lies on the next level.
  lemma BeforeEdge(g: Graph, st: Search, v: NodeRef, ws: seq<NodeRef>, n: nat, x: NodeRef)
    requires Domains(g, st) && v in g && n < |ws| && Within(g, ws)
    requires x in g && st.dist[v] >= 0 && Distinct(ws)
    ensures
      var before, after := RelaxFirst(g, st, v, ws, n), RelaxFirst(g, st, v, ws, n + 1);
      && after.pred[x] == (if NextLevel(st, v, [ws[n]], x) then before.pred[x] + [v] else before.pred[x])
      && after.sigma[x] ==
         (if NextLevel(st, v, [ws[n]], x) then before.sigma[x] + before.sigma[v] else before.sigma[x])
    ensures NextLevel(st, v, ws[..n + 1], x) <==> NextLevel(st, v, ws[..n], x) || NextLevel(st, v, [ws[n]], x)
    ensures !(NextLevel(st, v, ws[..n], x) && NextLevel(st, v, [ws[n]], x))
    ensures !NextLevel(st, v, ws[..n + 1], v)
  {
    RelaxedDist(g, st, v, ws, n, x);
    RelaxedDist(g, st, v, ws, n, v);
    EdgeEffect(g, RelaxFirst(g, st, v, ws, n), v, ws[n], x);
    PrefixStep(ws, n, x);
    assert ws[n] !in ws[..n];
  }

  // ---- one turn of the loop

  /** The edges looked at when v is taken from the queue: none once the depth bound is reached. */
  function Scanned(g: Graph, m: nat, st: Search, v: NodeRef): seq<NodeRef>
    requires v in g && v in st.dist
  {
    if st.dist[v] < m then g[v] else []
  }

  // What one turn of the loop changes, field by field; v is the node taken from the queue.

  ghost predicate OrderStep(st: Search, out: Search, v: NodeRef, ws: seq<NodeRef>, added: seq<NodeRef>) {
    && st.queue != [] && st.queue[0] == v
    && out.stack == st.stack + [v]
    && out.queue == st.queue[1..] + added
    && Distinct(added)
    && (forall w :: w in added <==> w in ws && w in st.dist && st.dist[w] == -1)
  }

  ghost predicate DistStep(g: Graph, st: Search, out: Search, v: NodeRef, ws: seq<NodeRef>)
    requires Domains(g, st) && Domains(g, out) && v in g
  {
    forall w :: w in g ==>
      out.dist[w] == if w in ws && st.dist[w] == -1 then st.dist[v] + 1 else st.dist[w]
  }

  ghost predicate PredStep(g: Graph, st: Search, out: Search, v: NodeRef, ws: seq<NodeRef>)
    requires Domains(g, st) && Domains(g, out) && v in g
  {
    forall w :: w in g ==>
      out.pred[w] == if NextLevel(st, v, ws, w) then st.pred[w] + [v] else st.pred[w]
  }

  ghost predicate SigmaStep(g: Graph, st: Search, out: Search, v: NodeRef, ws: seq<NodeRef>)
    requires Domains(g, st) && Domains(g, out) && v in g
  {
    forall w :: w in g ==>
      out.sigma[w] == if NextLevel(st, v, ws, w) then st.sigma[w] + st.sigma[v] else st.sigma[w]
  }

  lemma AllRelaxed(g: Graph, st: Search, v: NodeRef, ws: seq<NodeRef>, out: Search)
    requires Domains(g, st) && v in g && Within(g, ws) && Distinct(ws) && st.dist[v] >= 0
    requires out == RelaxFirst(g, st, v, ws, |ws|)
    ensures out.stack == st.stack && out.queue == st.queue + Unseen(st, ws, |ws|)
    ensures Domains(g, out)
    ensures DistStep(g, st, out, v, ws) && PredStep(g, st, out, v, ws) && SigmaStep(g, st, out, v, ws)
  {
    assert ws[..|ws|] == ws;
    RelaxedDist(g, st, v, ws, |ws|, v);
    RelaxedQueue(g, st, v, ws, |ws|);
    forall w | w in g
      ensures
        && out.dist[w] == (if w in ws && st.dist[w] == -1 then st.dist[v] + 1 else st.dist[w])
        && out.pred[w] == (if NextLevel(st, v, ws, w) then st.pred[w] + [v] else st.pred[w])
        && out.sigma[w] == (if NextLevel(st, v, ws, w) then st.sigma[w] + st.sigma[v] else st.sigma[w])
    {
      RelaxedDist(g, st, v, ws, |ws|, w);
      RelaxedPred(g, st, v, ws, |ws|, w);
      RelaxedSigma(g, st, v, ws, |ws|, w);
    }
  }

  lemma AllUnseen(st: Search, ws: seq<NodeRef>)
    requires Distinct(ws) && forall w :: w in ws ==> w in st.dist
    ensures Distinct(Unseen(st, ws, |ws|))
    ensures forall w :: w in Unseen(st, ws, |ws|) <==> w in ws && st.dist[w] == -1
  {
    UnseenDistinct(st, ws, |ws|);
    assert ws[..|ws|] == ws;
    forall w
      ensures w in Unseen(st, ws, |ws|) <==> w in ws && st.dist[w] == -1
    {
      UnseenMembers(st, ws, |ws|, w);
    }
  }

  // What the invariant says about the node about to be visited.
  ghost predicate HeadReady(g: Graph, m: nat, st: Search, v: NodeRef)
    requires Domains(g, st)
  {
    && v in g && v !in st.stack && 0 <= st.dist[v] <= m
    && (forall u :: u in st.stack ==> u in g && 0 <= st.dist[u] <= st.dist[v])
    && (forall u :: u in Order(st) ==> u in g && 0 <= st.dist[u] <= st.dist[v] + 1)
    && (forall u :: u in g ==> -1 <= st.dist[u] <= m && (st.dist[u] >= 0 ==> u in Order(st)))
  }

  lemma HeadIsReady(g: Graph, s: NodeRef, m: nat, st: Search)
    requires Domains(g, st) && Discovered(g, s, m, st) && Sorted(g, st) && st.queue != []
    ensures HeadReady(g, m, st, st.queue[0])
  {
    var o, n := Order(st), |st.stack|;
    assert o[n] == st.queue[0];
    forall u | u in st.stack
      ensures u != o[n] && u in g && 0 <= st.dist[u] <= st.dist[o[n]]
    {
      var i :| 0 <= i < n && st.stack[i] == u;
      assert o[i] == u;
    }
  }

  lemma KeepsDiscovered(
    g: Graph, s: NodeRef, m: nat, st: Search, out: Search, v: NodeRef, ws: seq<NodeRef>, added: seq<NodeRef>
  )
    requires Domains(g, st) && Domains(g, out) && Discovered(g, s, m, st) && HeadReady(g, m, st, v)
    requires OrderStep(st, out, v, ws, added) && DistStep(g, st, out, v, ws)
    requires forall w :: w in ws ==> w in g && st.dist[v] < m
    ensures Order(out) == Order(st) + added
    ensures Discovered(g, s, m, out)
  {
    OrderGrows(st, out, v, ws, added);
    assert forall w :: w in added ==> w in g && w !in Order(st);
    DistinctConcat(Order(st), added);
    forall x
      ensures x in Order(out) <==> x in g && out.dist[x] >= 0
    {
      assert x in Order(out) <==> x in Order(st) || x in added;
    }
  }

  lemma OrderGrows(st: Search, out: Search, v: NodeRef, ws: seq<NodeRef>, added: seq<NodeRef>)
    requires OrderStep(st, out, v, ws, added)
    ensures Order(out) == Order(st) + added
  {
    assert st.queue == [v] + st.queue[1..];
  }

  lemma KeepsSorted(
    g: Graph, m: nat, st: Search, out: Search, v: NodeRef, ws: seq<NodeRef>, added: seq<NodeRef>
  )
    requires Domains(g, st) && Domains(g, out) && Sorted(g, st) && HeadReady(g, m, st, v)
    requires OrderStep(st, out, v, ws, added) && DistStep(g, st, out, v, ws)
    requires forall w :: w in ws ==> w in g
    requires Order(out) == Order(st) + added
    ensures Sorted(g, out)
  {
    var o, d := Order(st), st.dist[v];
    forall i | 0 <= i < |Order(out)|
      ensures Order(out)[i] in g
      ensures i < |o| ==> Order(out)[i] == o[i] && out.dist[o[i]] == st.dist[o[i]] <= d + 1
      ensures i >= |o| ==> out.dist[Order(out)[i]] == d + 1
    {
      if i < |o| {
        assert Order(out)[i] == o[i] && o[i] in o;
      } else {
        assert Order(out)[i] == added[i - |o|] && added[i - |o|] in added;
      }
    }
    SortedTail(g, st, out, v, added, d);
  }

  lemma SortedTail(g: Graph, st: Search, out: Search, v: NodeRef, added: seq<NodeRef>, d: int)
    requires Domains(g, st) && Domains(g, out) && Sorted(g, st)
    requires Order(out) == Order(st) + added && |out.stack| == |st.stack| + 1
    requires st.queue != [] && st.queue[0] == v && v in g && d == st.dist[v]
    requires forall i :: 0 <= i < |Order(out)| ==> Order(out)[i] in g
    requires forall i :: 0 <= i < |Order(st)| ==>
      Order(out)[i] == Order(st)[i] && out.dist[Order(out)[i]] == st.dist[Order(st)[i]] <= d + 1
    requires forall i :: |Order(st)| <= i < |Order(out)| ==> out.dist[Order(out)[i]] == d + 1
    ensures Sorted(g, out)
  {
    var o, n := Order(st), |st.stack|;
    assert o[n] == v;
    if out.queue != [] {
      assert Order(out)[n + 1] == out.queue[0];
      assert out.dist[out.queue[0]] >= d;
    }
  }

  lemma KeepsEdges(
    g: Graph, m: nat, st: Search, out: Search, v: NodeRef, ws: seq<NodeRef>, added: seq<NodeRef>
  )
    requires WellFormed(g) && Domains(g, st) && Domains(g, out)
    requires EdgesRelaxed(g, m, st) && HeadReady(g, m, st, v)
    requires OrderStep(st, out, v, ws, added) && DistStep(g, st, out, v, ws)
    requires ws == Scanned(g, m, st, v)
    ensures EdgesRelaxed(g, m, out)
  {
    forall u, w | u in out.stack && u in g && out.dist[u] < m && w in g[u]
      ensures 0 <= out.dist[w] <= out.dist[u] + 1
    {
      if u == v {
        assert out.dist[v] == st.dist[v] && ws == g[v];
        assert st.dist[w] >= 0 ==> w in Order(st);
      } else {
        assert u in st.stack && out.dist[u] == st.dist[u];
        assert out.dist[w] == st.dist[w];
      }
    }
  }

  lemma KeepsPreds(
    g: Graph, s: NodeRef, m: nat, st: Search, out: Search, v: NodeRef, ws: seq<NodeRef>, added: seq<NodeRef>
  )
    requires WellFormed(g) && Domains(g, st) && Domains(g, out)
    requires EdgesRelaxed(g, m, st) && PredsRecorded(g, s, st) && HeadReady(g, m, st, v)
    requires OrderStep(st, out, v, ws, added) && DistStep(g, st, out, v, ws) && PredStep(g, st, out, v, ws)
    requires ws == Scanned(g, m, st, v)
    ensures PredsRecorded(g, s, out)
  {
    forall u, w | w in g
      ensures u in out.pred[w] <==> u in out.stack && u in g && w in g[u] && out.dist[w] == out.dist[u] + 1
    {
      PredRecorded(g, s, m, st, out, v, ws, added, u, w);
    }
    KeepsDistinctPreds(g, s, m, st, out, v, ws);
  }

  lemma KeepsDistinctPreds(g: Graph, s: NodeRef, m: nat, st: Search, out: Search, v: NodeRef, ws: seq<NodeRef>)
    requires Domains(g, st) && Domains(g, out) && PredsRecorded(g, s, st) && HeadReady(g, m, st, v)
    requires DistStep(g, st, out, v, ws) && PredStep(g, st, out, v, ws)
    ensures forall w :: w in g ==> Distinct(out.pred[w]) && (out.dist[w] > 0 ==> out.pred[w] != [])
  {
    forall w | w in g
      ensures Distinct(out.pred[w]) && (out.dist[w] > 0 ==> out.pred[w] != [])
    {
      assert v !in st.pred[w];
      assert Distinct(st.pred[w]);
    }
  }

  lemma PredRecorded(
    g: Graph, s: NodeRef, m: nat, st: Search, out: Search, v: NodeRef, ws: seq<NodeRef>, added: seq<NodeRef>,
    u: NodeRef, w: NodeRef
  )
    requires WellFormed(g) && Domains(g, st) && Domains(g, out)
    requires EdgesRelaxed(g, m, st) && PredsRecorded(g, s, st) && HeadReady(g, m, st, v)
    requires OrderStep(st, out, v, ws, added) && DistStep(g, st, out, v, ws) && PredStep(g, st, out, v, ws)
    requires ws == Scanned(g, m, st, v) && w in g
    ensures u in out.pred[w] <==> u in out.stack && u in g && w in g[u] && out.dist[w] == out.dist[u] + 1
  {
    var known, dw := st.pred[w], st.dist[w];
    assert u in known <==> u in st.stack && u in g && w in g[u] && dw == st.dist[u] + 1;
    assert u in out.stack <==> u in st.stack || u == v;
    assert u in out.pred[w] <==> u in known || (u == v && NextLevel(st, v, ws, w));
    if u in st.stack {
      assert u != v && out.dist[u] == st.dist[u];
      if dw == -1 && w in ws {
        assert w !in g[u];
      }
    } else if u == v {
      assert out.dist[v] == st.dist[v];
    }
  }

  lemma KeepsCounts(
    g: Graph, s: NodeRef, m: nat, st: Search, out: Search, v: NodeRef, ws: seq<NodeRef>, added: seq<NodeRef>
  )
    requires Domains(g, st) && Domains(g, out) && s in g && st.dist[s] == 0
    requires PredsRecorded(g, s, st) && PathsCounted(g, s, st) && HeadReady(g, m, st, v)
    requires OrderStep(st, out, v, ws, added)
    requires PredStep(g, st, out, v, ws) && SigmaStep(g, st, out, v, ws)
    ensures PathsCounted(g, s, out)
  {
    forall w | w in g
      ensures out.sigma[w] == if w == s then 1.0 else Sum(Lookup(out.sigma), Elements(out.pred[w]))
    {
      if w != s {
        CountStep(g, s, m, st, out, v, ws, w);
      }
    }
  }

  lemma CountStep(
    g: Graph, s: NodeRef, m: nat, st: Search, out: Search, v: NodeRef, ws: seq<NodeRef>, w: NodeRef
  )
    requires Domains(g, st) && Domains(g, out) && HeadReady(g, m, st, v)
    requires PredsRecorded(g, s, st) && w in g && st.sigma[w] == Sum(Lookup(st.sigma), Elements(st.pred[w]))
    requires PredStep(g, st, out, v, ws) && SigmaStep(g, st, out, v, ws)
    ensures out.sigma[w] == Sum(Lookup(out.sigma), Elements(out.pred[w]))
  {
    var us := Elements(st.pred[w]);
    CountsKept(g, s, m, st, out, v, ws, w);
    SumCongruent(Lookup(out.sigma), Lookup(st.sigma), us);
    if NextLevel(st, v, ws, w) {
      SumSnoc(Lookup(out.sigma), st.pred[w], v);
    }
  }

  // The counts that make up w's count do not change when v is relaxed.
  lemma CountsKept(
    g: Graph, s: NodeRef, m: nat, st: Search, out: Search, v: NodeRef, ws: seq<NodeRef>, w: NodeRef
  )
    requires Domains(g, st) && Domains(g, out) && HeadReady(g, m, st, v)
    requires PredsRecorded(g, s, st) && w in g && SigmaStep(g, st, out, v, ws)
    ensures v !in st.pred[w]
    ensures forall u :: u in Elements(st.pred[w]) + {v} ==> Lookup(out.sigma)(u) == Lookup(st.sigma)(u)
  {
    forall u | u in Elements(st.pred[w]) + {v}
      ensures Lookup(out.sigma)(u) == Lookup(st.sigma)(u)
    {
      assert u in g && 0 <= st.dist[u] <= st.dist[v];
    }
  }

  lemma SumSnoc(f: NodeRef -> real, us: seq<NodeRef>, v: NodeRef)
    requires v !in us
    ensures Sum(f, Elements(us + [v])) == Sum(f, Elements(us)) + f(v)
  {
    assert Elements(us + [v]) == Elements(us) + {v};
    SumInsert(f, Elements(us), v);
  }

  method VisitNext(g: Graph, ghost s: NodeRef, m: nat, st: Search) returns (out: Search)
    requires WellFormed(g) && Invariant(g, s, m, st) && st.queue != []
    ensures Invariant(g, s, m, out)
    ensures g.Keys - Elements(out.stack) < g.Keys - Elements(st.stack)
  {
    HeadIsReady(g, s, m, st);
    var v := st.queue[0];
    out := st.(stack := st.stack + [v], queue := st.queue[1..]);
    ghost var popped := out;
    if out.dist[v] < m {
      out := RelaxNeighbours(g, v, out);
    }
    TurnKeepsInvariant(g, s, m, st, popped, out, v);
    StackGrows(g, st.stack, v);
  }

  lemma StackGrows(g: Graph, stack: seq<NodeRef>, v: NodeRef)
    requires v in g && v !in stack
    ensures g.Keys - Elements(stack + [v]) < g.Keys - Elements(stack)
  {
    assert v in g.Keys - Elements(stack);
  }

  lemma TurnSteps(
    g: Graph, m: nat, st: Search, popped: Search, out: Search, v: NodeRef, ws: seq<NodeRef>
  )
    requires WellFormed(g) && Domains(g, st) && st.queue != [] && v == st.queue[0]
    requires v in g && st.dist[v] >= 0 && ws == Scanned(g, m, st, v)
    requires popped == st.(stack := st.stack + [v], queue := st.queue[1..])
    requires out == if st.dist[v] < m then RelaxFirst(g, popped, v, g[v], |g[v]|) else popped
    ensures Domains(g, out)
    ensures OrderStep(st, out, v, ws, Unseen(popped, ws, |ws|))
    ensures DistStep(g, st, out, v, ws) && PredStep(g, st, out, v, ws) && SigmaStep(g, st, out, v, ws)
  {
    AllRelaxed(g, popped, v, ws, out);
    AllUnseen(popped, ws);
    assert DistStep(g, popped, out, v, ws) && PredStep(g, popped, out, v, ws) && SigmaStep(g, popped, out, v, ws);
  }

  lemma TurnKeepsInvariant(g: Graph, s: NodeRef, m: nat, st: Search, popped: Search, out: Search, v: NodeRef)
    requires WellFormed(g) && Invariant(g, s, m, st) && st.queue != [] && v == st.queue[0]
    requires HeadReady(g, m, st, v)
    requires popped == st.(stack := st.stack + [v], queue := st.queue[1..])
    requires out == if st.dist[v] < m then RelaxFirst(g, popped, v, g[v], |g[v]|) else popped
    ensures Invariant(g, s, m, out)
    ensures out.stack == st.stack + [v]
  {
    var ws := Scanned(g, m, st, v);
    var added := Unseen(popped, ws, |ws|);
    TurnSteps(g, m, st, popped, out, v, ws);
    KeepsDiscovered(g, s, m, st, out, v, ws, added);
    KeepsSorted(g, m, st, out, v, ws, added);
    KeepsEdges(g, m, st, out, v, ws, added);
    KeepsPreds(g, s, m, st, out, v, ws, added);
    KeepsCounts(g, s, m, st, out, v, ws, added);
  }

  // ---- the whole search

  /** The maps and lists as they are set up for source s. */
  function Start(keys: seq<NodeRef>, s: NodeRef): Search {
    Search([], [s],
           map v | v in keys :: [],
           map v | v in keys :: if v == s then 1.0 else 0.0,
           map v | v in keys :: if v == s then 0 else -1)
  }

  lemma StartInvariant(g: Graph, keys: seq<NodeRef>, s: NodeRef, m: nat)
    requires WellFormed(g) && s in g && forall v :: v in keys <==> v in g
    ensures Invariant(g, s, m, Start(keys, s))
  {
    var st := Start(keys, s);
    assert Order(st) == [s];
    forall w | w in g && w != s
      ensures st.sigma[w] == Sum(Lookup(st.sigma), Elements(st.pred[w]))
    {
      assert Elements(st.pred[w]) == {};
    }
  }

  ghost predicate Finished(g: Graph, s: NodeRef, m: nat, st: Search)
    requires WellFormed(g)
  {
    Invariant(g, s, m, st) && st.queue == []
  }

  // ---- what a finished search has computed

  lemma FinishedStack(g: Graph, s: NodeRef, m: nat, st: Search)
    requires WellFormed(g) && Finished(g, s, m, st)
    ensures Distinct(st.stack) && forall v :: v in st.stack <==> v in g && st.dist[v] >= 0
    ensures forall i, j :: 0 <= i < j < |st.stack| ==> st.dist[st.stack[i]] <= st.dist[st.stack[j]]
  {
    assert Order(st) == st.stack;
  }

  // The local conditions from which distances follow.
  ghost predicate Levels(g: Graph, s: NodeRef, m: nat, dist: map<NodeRef, int>) {
    && (forall v :: v in g ==> v in dist && -1 <= dist[v] <= m && (dist[v] == 0 <==> v == s))
    && (forall u, w :: u in g && w in g[u] && w in g && 0 <= dist[u] < m ==> 0 <= dist[w] <= dist[u] + 1)
  }

  ghost predicate HasPred(g: Graph, dist: map<NodeRef, int>, t: NodeRef) {
    t in dist && exists u :: u in Preds(g, t) && u in dist && dist[u] == dist[t] - 1
  }

  lemma FinishedLevels(g: Graph, s: NodeRef, m: nat, st: Search)
    requires WellFormed(g) && Finished(g, s, m, st)
    ensures Levels(g, s, m, st.dist)
    ensures forall t {:trigger HasPred(g, st.dist, t)} :: t in g && st.dist[t] > 0 ==> HasPred(g, st.dist, t)
  {
    FinishedStack(g, s, m, st);
    forall t | t in g && st.dist[t] > 0
      ensures HasPred(g, st.dist, t)
    {
      var u := st.pred[t][0];
      assert u in st.pred[t];
      assert u in Preds(g, t);
    }
  }

  /** Every recorded distance is realised by a walk. */
  lemma {:induction false} DistSound(g: Graph, s: NodeRef, m: nat, dist: map<NodeRef, int>, t: NodeRef)
    requires Levels(g, s, m, dist) && t in g && dist[t] >= 0
    requires forall v {:trigger HasPred(g, dist, v)} :: v in g && dist[v] > 0 ==> HasPred(g, dist, v)
    ensures Walks(g, s, t, dist[t]) != {}
    decreases dist[t]
  {
    if dist[t] == 0 {
      assert Walks(g, s, t, 0) == {[s]};
    } else {
      assert HasPred(g, dist, t);
      var u :| u in Preds(g, t) && u in dist && dist[u] == dist[t] - 1;
      DistSound(g, s, m, dist, u);
      WalkExtends(g, s, u, t, dist[u]);
    }
  }

  /** No walk within the bound is shorter than the recorded distance. */
  lemma {:induction false} DistComplete(
    g: Graph, s: NodeRef, m: nat, dist: map<NodeRef, int>, t: NodeRef, k: nat
  )
    requires Levels(g, s, m, dist) && t in g
    requires k <= m && Walks(g, s, t, k) != {}
    ensures 0 <= dist[t] <= k
    decreases k
  {
    if k == 0 {
      assert s == t;
    } else {
      var u := WalkSplits(g, s, t, k);
      DistComplete(g, s, m, dist, u, k - 1);
    }
  }

  /** The search finds the exact distance of every node within the bound, and -1 for the others. */
  lemma DistIsExact(g: Graph, s: NodeRef, m: nat, st: Search, t: NodeRef)
    requires WellFormed(g) && Finished(g, s, m, st) && t in g
    ensures st.dist[t] == DistUpTo(g, s, t, m)
  {
    var d := DistUpTo(g, s, t, m);
    FinishedLevels(g, s, m, st);
    if d >= 0 {
      DistComplete(g, s, m, st.dist, t, d);
    }
    if st.dist[t] >= 0 {
      DistSound(g, s, m, st.dist, t);
    }
  }

  /** The recorded predecessors are exactly the neighbours one level closer to the source. */
  lemma PredIsExact(g: Graph, s: NodeRef, m: nat, st: Search, t: NodeRef)
    requires WellFormed(g) && Finished(g, s, m, st) && t in g
    ensures Distinct(st.pred[t]) && Elements(st.pred[t]) == ShortestPreds(g, s, t, m)
  {
    FinishedStack(g, s, m, st);
    DistIsExact(g, s, m, st, t);
    forall u
      ensures u in st.pred[t] <==> u in ShortestPreds(g, s, t, m)
    {
      if u in g {
        DistIsExact(g, s, m, st, u);
      }
    }
  }

  /** The search counts the shortest paths to every node. */
  lemma {:induction false} SigmaIsExact(g: Graph, s: NodeRef, m: nat, st: Search, t: NodeRef)
    requires WellFormed(g) && Finished(g, s, m, st) && t in g
    ensures st.sigma[t] == Sigma(g, s, t, m)
    decreases st.dist[t] + 1
  {
    if t == s {
      SourceAtZero(g, s, s, m);
    } else {
      SigmaRecurrence(g, s, t, m);
      PredIsExact(g, s, m, st, t);
      forall u | u in ShortestPreds(g, s, t, m)
        ensures Lookup(st.sigma)(u) == Count(ShortestOf(g, s, m))(u)
      {
        assert u in st.pred[t];
        SigmaIsExact(g, s, m, st, u);
      }
      SumCongruent(Lookup(st.sigma), Count(ShortestOf(g, s, m)), ShortestPreds(g, s, t, m));
    }
  }

  // ---- the same, as one statement about the result

  ghost predicate ExactRecords(g: Graph, s: NodeRef, m: nat, st: Search) {
    && Domains(g, st)
    && (forall t :: t in g ==> st.dist[t] == DistUpTo(g, s, t, m))
    && (forall t :: t in g ==> st.sigma[t] == Sigma(g, s, t, m))
    && (forall t :: t in g ==> Distinct(st.pred[t]))
    && (forall t, u :: t in g ==> (u in st.pred[t] <==> u in ShortestPreds(g, s, t, m)))
  }

  ghost predicate DistanceOrder(g: Graph, s: NodeRef, m: nat, stack: seq<NodeRef>) {
    && Distinct(stack)
    && (forall v :: v in stack <==> v in g && DistUpTo(g, s, v, m) >= 0)
    && (forall i, j :: 0 <= i < j < |stack| ==> DistUpTo(g, s, stack[i], m) <= DistUpTo(g, s, stack[j], m))
  }

  /**
   * Distances, path counts and predecessors are the true ones, and the stack holds exactly
   * the nodes within reach, in order of distance.
   */
  ghost predicate Exact(g: Graph, s: NodeRef, m: nat, st: Search) {
    ExactRecords(g, s, m, st) && DistanceOrder(g, s, m, st.stack)
  }

  lemma FinishedIsExact(g: Graph, s: NodeRef, m: nat, st: Search)
    requires WellFormed(g) && Finished(g, s, m, st)
    ensures Exact(g, s, m, st)
  {
    forall t | t in g
      ensures st.dist[t] == DistUpTo(g, s, t, m)
    {
      DistIsExact(g, s, m, st, t);
    }
    forall t | t in g
      ensures st.sigma[t] == Sigma(g, s, t, m)
    {
      SigmaIsExact(g, s, m, st, t);
    }
    forall t, u | t in g
      ensures Distinct(st.pred[t]) && (u in st.pred[t] <==> u in ShortestPreds(g, s, t, m))
    {
      PredIsExact(g, s, m, st, t);
      assert u in st.pred[t] <==> u in Elements(st.pred[t]);
    }
    FinishedStack(g, s, m, st);
  }

  method BoundedSearch(g: Graph, keys: seq<NodeRef>, s: NodeRef, m: nat) returns (st: Search)
    requires WellFormed(g) && s in g && forall v :: v in keys <==> v in g
    ensures Exact(g, s, m, st)
  {
    st := Start(keys, s);
    StartInvariant(g, keys, s, m);
    while st.queue != []
      invariant Invariant(g, s, m, st)
      decreases g.Keys - Elements(st.stack)
    {
      st := VisitNext(g, s, m, st);
    }
    FinishedIsExact(g, s, m, st);
  }
}
