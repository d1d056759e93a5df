/**
 * Label propagation (src/core/cluster.ts): every node repeatedly takes over the most frequent label
 * among its neighbours, smallest label first, visiting nodes in a deterministic shuffled order.
 */
module LabelPropagation {
  import opened AdjacencyMaps
  import opened ContradictionClusters

  type Labels = map<int, int>

  const MAX_ITERATIONS := 20

  // ---- the deterministic shuffle

  const TWO_32 := 0x1_0000_0000
  const TWO_31 := 0x8000_0000

  /** JavaScript's conversion of an integer to 32 bits. */
  function ToInt32(x: int): (r: int)
    ensures -TWO_31 <= r < TWO_31 && (r - x) % TWO_32 == 0
  {
    assert (x + TWO_31) == (x + TWO_31) / TWO_32 * TWO_32 + (x + TWO_31) % TWO_32;
    (x + TWO_31) % TWO_32 - TWO_31
  }

  function Abs(x: int): nat {
    if x < 0 then -x else x
  }

  function SwapIndex(iter: nat, i: nat): (j: nat)
    ensures j <= i
  {
    Abs(ToInt32(iter * 2654435761 + i * 2246822519)) % (i + 1)
  }

  /**
   * The index is the size, modulo i + 1, of the 32-bit number x that iter * 2654435761 + i * 2246822519
   * becomes, and x is the only number of 32 bits congruent to it.
   */
  lemma SwapIndexMeaning(iter: nat, i: nat, x: int)
    requires -0x8000_0000 <= x < 0x8000_0000
    requires (x - (iter * 2654435761 + i * 2246822519)) % 0x1_0000_0000 == 0
    ensures SwapIndex(iter, i) == (if x < 0 then -x else x) % (i + 1)
  {
    var n := iter * 2654435761 + i * 2246822519;
    OneOf32(x, ToInt32(n), n);
  }

  lemma OneOf32(x: int, y: int, n: int)
    requires -0x8000_0000 <= x < 0x8000_0000 && -0x8000_0000 <= y < 0x8000_0000
    requires (x - n) % 0x1_0000_0000 == 0 && (y - n) % 0x1_0000_0000 == 0
    ensures x == y
  {
  }

  function Swap(s: seq<int>, i: nat, j: nat): (r: seq<int>)
    requires i < |s| && j < |s|
    ensures |r| == |s|
  {
    s[i := s[j]][j := s[i]]
  }

  /** The swaps from position i down to position 1. */
  function ShuffledFrom(s: seq<int>, iter: nat, i: nat): (r: seq<int>)
    requires i < |s| || i == 0
    ensures |r| == |s|
    decreases i
  {
    if i == 0 then s else ShuffledFrom(Swap(s, i, SwapIndex(iter, i)), iter, i - 1)
  }

  function Shuffled(s: seq<int>, iter: nat): seq<int> {
    if s == [] then s else ShuffledFrom(s, iter, |s| - 1)
  }

  lemma SwapPermutes(s: seq<int>, i: nat, j: nat)
    requires i < |s| && j < |s|
    ensures multiset(Swap(s, i, j)) == multiset(s)
  {
  }

  /** The shuffle loses and repeats nothing. */
  lemma {:induction false} ShuffledPermutes(s: seq<int>, iter: nat, i: nat)
    requires i < |s| || i == 0
    ensures multiset(ShuffledFrom(s, iter, i)) == multiset(s)
    decreases i
  {
    if i > 0 {
      SwapPermutes(s, i, SwapIndex(iter, i));
      ShuffledPermutes(Swap(s, i, SwapIndex(iter, i)), iter, i - 1);
    }
  }

  /** The first round turns three nodes round. */
  lemma ShuffleExample(a: int, b: int, c: int)
    ensures Shuffled([a, b, c], 0) == [c, b, a]
  {
    SwapIndexMeaning(0, 2, 198677742);
    SwapIndexMeaning(0, 1, -2048144777);
    assert SwapIndex(0, 2) == 0 && SwapIndex(0, 1) == 1;
    assert Swap([a, b, c], 2, 0) == [c, b, a];
    assert Swap([c, b, a], 1, 1) == [c, b, a];
    assert ShuffledFrom([c, b, a], 0, 0) == [c, b, a];
    assert ShuffledFrom([c, b, a], 0, 1) == [c, b, a];
    assert ShuffledFrom([a, b, c], 0, 2) == [c, b, a];
  }

  method Shuffle(nodes: array<int>, iter: nat)
    modifies nodes
    ensures nodes[..] == Shuffled(old(nodes[..]), iter)
  {
    if nodes.Length == 0 {
      return;
    }
    var i := nodes.Length - 1;
    while i > 0
      invariant 0 <= i < nodes.Length
      invariant ShuffledFrom(nodes[..], iter, i) == Shuffled(old(nodes[..]), iter)
    {
      var j := SwapIndex(iter, i);
      ghost var before := nodes[..];
      nodes[i], nodes[j] := nodes[j], nodes[i];
      assert nodes[..] == Swap(before, i, j);
      i := i - 1;
    }
  }

  // ---- the label of one node

  predicate Labelled(labels: Labels, ns: seq<int>) {
    forall i :: 0 <= i < |ns| ==> ns[i] in labels
  }

  /** How many of ns carry label l. */
  function Count(labels: Labels, ns: seq<int>, l: int): nat
    requires Labelled(labels, ns)
  {
    if ns == [] then 0
    else
      var rest := ns[..|ns| - 1];
      Count(labels, rest, l) + if labels[ns[|ns| - 1]] == l then 1 else 0
  }

  /** l is the smallest of the most frequent labels of ns. */
  ghost predicate IsBest(labels: Labels, ns: seq<int>, l: int)
    requires Labelled(labels, ns)
  {
    Count(labels, ns, l) > 0 && forall k :: Beats(Count(labels, ns, l), l, Count(labels, ns, k), k)
  }

  predicate Beats(count: nat, l: int, other: nat, k: int) {
    other < count || (other == count && l <= k)
  }

  lemma {:induction false} CountedIsHeld(labels: Labels, ns: seq<int>, l: int)
    requires Labelled(labels, ns)
    ensures Count(labels, ns, l) > 0 ==> exists i :: 0 <= i < |ns| && labels[ns[i]] == l
    decreases |ns|
  {
    if ns != [] {
      var rest := ns[..|ns| - 1];
      CountedIsHeld(labels, rest, l);
      if Count(labels, rest, l) > 0 {
        var i :| 0 <= i < |rest| && labels[rest[i]] == l;
        assert labels[ns[i]] == l;
      } else if labels[ns[|ns| - 1]] == l {
        assert 0 <= |ns| - 1 < |ns|;
      }
    }
  }

  method CountLabels(labels: Labels, ns: seq<int>) returns (counts: map<int, nat>, order: seq<int>)
    requires Labelled(labels, ns)
    ensures forall l :: l in order <==> l in counts
    ensures forall l :: l in counts ==> counts[l] == Count(labels, ns, l) > 0
    ensures forall l :: l !in counts ==> Count(labels, ns, l) == 0
  {
    counts, order := map[], [];
    for i := 0 to |ns|
      invariant forall l :: l in order <==> l in counts
      invariant forall l :: l in counts ==> counts[l] == Count(labels, ns[..i], l) > 0
      invariant forall l :: l !in counts ==> Count(labels, ns[..i], l) == 0
    {
      var l := labels[ns[i]];
      assert ns[..i + 1][..i] == ns[..i];
      if l !in counts {
        order := order + [l];
      }
      counts := counts[l := (if l in counts then counts[l] else 0) + 1];
    }
    assert ns[..|ns|] == ns;
  }

  method ChooseLabel(labels: Labels, ns: seq<int>, own: int) returns (best: int)
    requires ns != [] && Labelled(labels, ns)
    ensures IsBest(labels, ns, best)
  {
    var counts, order := CountLabels(labels, ns);
    best := own;
    var bestCount := 0;
    for i := 0 to |order|
      invariant bestCount == 0 ==> i == 0
      invariant bestCount > 0 ==> best in counts && counts[best] == bestCount
      invariant forall k :: k in order[..i] ==> Beats(bestCount, best, counts[k], k)
    {
      var l := order[i];
      assert l in order && order[..i + 1] == order[..i] + [l];
      if counts[l] > bestCount || (counts[l] == bestCount && l < best) {
        best, bestCount := l, counts[l];
      }
    }
    assert order[..|order|] == order;
    SomeLabelCounted(labels, ns);
    forall k
      ensures Beats(Count(labels, ns, best), best, Count(labels, ns, k), k)
    {
      if k in counts {
        assert k in order;
      }
    }
  }

  lemma SomeLabelCounted(labels: Labels, ns: seq<int>)
    requires ns != [] && Labelled(labels, ns)
    ensures Count(labels, ns, labels[ns[|ns| - 1]]) > 0
  {
  }

  // ---- sweeps, for any equivalence that neighbours share

  ghost predicate Coherent(adj: Adjacency, same: (int, int) -> bool) {
    && (forall a :: a in adj ==> same(a, a))
    && (forall a, b {:trigger IsNeighbour(adj, a, b)} :: IsNeighbour(adj, a, b) ==> b in adj && same(a, b))
    && (forall a, b, c {:trigger Chained(same, a, b, c)} :: Chained(same, a, b, c) ==> same(a, c))
  }

  ghost predicate Chained(same: (int, int) -> bool, a: int, b: int, c: int) {
    same(a, b) && same(b, c)
  }

  // Every label is a node equivalent to its holder.
  ghost predicate Local(adj: Adjacency, same: (int, int) -> bool, labels: Labels) {
    labels.Keys == adj.Keys && forall n {:trigger LocalAt(adj, same, labels, n)} :: LocalAt(adj, same, labels, n)
  }

  ghost predicate LocalAt(adj: Adjacency, same: (int, int) -> bool, labels: Labels, n: int) {
    n in labels ==> labels[n] in adj && same(n, labels[n])
  }

  ghost predicate Settled(adj: Adjacency, labels: Labels, n: int) {
    && n in adj && n in labels && Labelled(labels, adj[n])
    && (adj[n] != [] ==> IsBest(labels, adj[n], labels[n]))
  }

  // ---- what a visit, a sweep and a whole run do to the labels

  /** Visiting n: with neighbours it takes their best label, without it keeps its own; others keep theirs. */
  ghost predicate Adopts(adj: Adjacency, before: Labels, n: int, after: Labels) {
    && n in adj && n in before && n in after && Labelled(before, adj[n])
    && after == before[n := after[n]]
    && if adj[n] == [] then after[n] == before[n] else IsBest(before, adj[n], after[n])
  }

  ghost predicate VisitAt(adj: Adjacency, nodes: seq<int>, trace: seq<Labels>, i: int)
    requires 0 <= i < |nodes| && i + 1 < |trace|
  {
    Adopts(adj, trace[i], nodes[i], trace[i + 1])
  }

  // The first n visits.
  ghost predicate SweptTo(adj: Adjacency, nodes: seq<int>, trace: seq<Labels>, n: nat) {
    && n <= |nodes| && |trace| == n + 1
    && forall i :: 0 <= i < n ==> VisitAt(adj, nodes, trace, i)
  }

  /** trace lists the labels before the first visit and after each one. */
  ghost predicate Swept(adj: Adjacency, nodes: seq<int>, trace: seq<Labels>) {
    SweptTo(adj, nodes, trace, |nodes|)
  }

  predicate MovesAt(trace: seq<Labels>, i: int)
    requires 0 <= i < |trace| - 1
  {
    trace[i] != trace[i + 1]
  }

  ghost predicate Moved(trace: seq<Labels>) {
    exists i :: 0 <= i < |trace| - 1 && MovesAt(trace, i)
  }

  /** The order of visits in round r: each round shuffles the order of the round before. */
  function NodesAt(keys: seq<int>, r: nat): seq<int> {
    Shuffled(OrderAfter(keys, r), r)
  }

  function OrderAfter(keys: seq<int>, rounds: nat): seq<int> {
    if rounds == 0 then keys else Shuffled(OrderAfter(keys, rounds - 1), rounds - 1)
  }

  /** Every round visits every node, and each as often as it is listed. */
  lemma {:induction false} VisitsEveryNode(keys: seq<int>, r: nat)
    ensures multiset(NodesAt(keys, r)) == multiset(keys)
    ensures forall n :: n in NodesAt(keys, r) <==> n in keys
  {
    var s := OrderAfter(keys, r);
    if r > 0 {
      VisitsEveryNode(keys, r - 1);
    }
    if s != [] {
      ShuffledPermutes(s, r, |s| - 1);
    }
    assert forall n :: n in NodesAt(keys, r) <==> n in multiset(NodesAt(keys, r));
  }

  function OwnLabels(keys: seq<int>): Labels {
    map n | n in keys :: n
  }

  function LabelsBefore(keys: seq<int>, rounds: seq<seq<Labels>>, r: nat): Labels
    requires r <= |rounds|
  {
    if r == 0 || rounds[r - 1] == [] then OwnLabels(keys) else rounds[r - 1][|rounds[r - 1]| - 1]
  }

  ghost predicate RoundOk(adj: Adjacency, keys: seq<int>, rounds: seq<seq<Labels>>, r: nat)
    requires r < |rounds|
  {
    Swept(adj, NodesAt(keys, r), rounds[r]) && rounds[r][0] == LabelsBefore(keys, rounds, r)
  }

  /** Rounds from each node carrying itself until one moves nothing, but no more than twenty. */
  ghost predicate IsRun(
    adj: Adjacency, keys: seq<int>, rounds: seq<seq<Labels>>, labels: Labels, converged: bool
  ) {
    && RunSoFar(adj, keys, rounds, labels, converged)
    && 0 < |rounds| <= 20 && (!converged ==> |rounds| == 20)
  }

  // Rounds so far, every one but perhaps the last moving something.
  ghost predicate RunSoFar(
    adj: Adjacency, keys: seq<int>, rounds: seq<seq<Labels>>, labels: Labels, converged: bool
  ) {
    && labels == LabelsBefore(keys, rounds, |rounds|)
    && (forall r :: 0 <= r < |rounds| ==> RoundOk(adj, keys, rounds, r))
    && (forall r :: 0 <= r < |rounds| - 1 ==> Moved(rounds[r]))
    && (converged ==> rounds != [] && !Moved(rounds[|rounds| - 1]))
    && (!converged && rounds != [] ==> Moved(rounds[|rounds| - 1]))
  }

  lemma AdoptsOnce(adj: Adjacency, before: Labels, n: int, one: Labels, two: Labels)
    requires Adopts(adj, before, n, one) && Adopts(adj, before, n, two)
    ensures one == two
  {
    if adj[n] != [] {
      var l, k := one[n], two[n];
      assert Beats(Count(before, adj[n], l), l, Count(before, adj[n], k), k);
      assert Beats(Count(before, adj[n], k), k, Count(before, adj[n], l), l);
    }
  }

  lemma {:induction false} SweepOnce(
    adj: Adjacency, nodes: seq<int>, one: seq<Labels>, two: seq<Labels>, n: nat
  )
    requires Swept(adj, nodes, one) && Swept(adj, nodes, two) && one[0] == two[0] && n <= |nodes|
    ensures one[..n + 1] == two[..n + 1]
  {
    if n > 0 {
      SweepOnce(adj, nodes, one, two, n - 1);
      assert one[n - 1] == one[..n][n - 1] == two[..n][n - 1] == two[n - 1];
      assert VisitAt(adj, nodes, one, n - 1) && VisitAt(adj, nodes, two, n - 1);
      AdoptsOnce(adj, one[n - 1], nodes[n - 1], one[n], two[n]);
    } else {
      assert one[..1] == [one[0]] == [two[0]] == two[..1];
    }
  }

  lemma {:induction false} RoundsOnce(
    adj: Adjacency, keys: seq<int>, one: seq<seq<Labels>>, two: seq<seq<Labels>>, n: nat
  )
    requires n <= |one| && n <= |two|
    requires forall r :: 0 <= r < n ==> RoundOk(adj, keys, one, r) && RoundOk(adj, keys, two, r)
    ensures one[..n] == two[..n]
  {
    if n > 0 {
      RoundsOnce(adj, keys, one, two, n - 1);
      var r := n - 1;
      assert RoundOk(adj, keys, one, r) && RoundOk(adj, keys, two, r);
      if r > 0 {
        assert one[r - 1] == one[..r][r - 1] == two[..r][r - 1] == two[r - 1];
      }
      SweepOnce(adj, NodesAt(keys, r), one[r], two[r], |NodesAt(keys, r)|);
      assert one[r] == one[r][..|one[r]|] == two[r][..|two[r]|] == two[r];
      assert one[..n] == one[..r] + [one[r]] && two[..n] == two[..r] + [two[r]];
    }
  }

  /** A graph and an order of its nodes allow one outcome only. */
  lemma RunIsDeterministic(
    adj: Adjacency, keys: seq<int>, one: seq<seq<Labels>>, labels: Labels, converged: bool,
    two: seq<seq<Labels>>, labels2: Labels, converged2: bool
  )
    requires IsRun(adj, keys, one, labels, converged) && IsRun(adj, keys, two, labels2, converged2)
    ensures one == two && labels == labels2 && converged == converged2
  {
    var n := if |one| <= |two| then |one| else |two|;
    RoundsOnce(adj, keys, one, two, n);
    assert n > 0 && one[n - 1] == one[..n][n - 1] == two[..n][n - 1] == two[n - 1];
    assert |one| == |two|;
    assert one == one[..n] == two[..n] == two;
  }

  ghost predicate AllSettled(adj: Adjacency, labels: Labels) {
    forall n :: n in adj ==> Settled(adj, labels, n)
  }

  method Relabel(adj: Adjacency, ghost same: (int, int) -> bool, labels: Labels, node: int)
    returns (out: Labels, changed: bool)
    requires Coherent(adj, same) && Local(adj, same, labels) && node in adj
    ensures Local(adj, same, out) && Adopts(adj, labels, node, out)
    ensures changed <==> out != labels
    ensures !changed ==> Settled(adj, labels, node)
  {
    out, changed := labels, false;
    NeighboursLabelled(adj, same, labels, node);
    if |adj[node]| == 0 {
      return;
    }
    var best := ChooseLabel(labels, adj[node], labels[node]);
    if best != labels[node] {
      BestIsLocal(adj, same, labels, node, best);
      out, changed := labels[node := best], true;
      LocalKept(adj, same, labels, node, best);
      assert out[node] != labels[node];
    }
  }

  lemma NeighboursLabelled(adj: Adjacency, same: (int, int) -> bool, labels: Labels, node: int)
    requires Coherent(adj, same) && Local(adj, same, labels) && node in adj
    ensures Labelled(labels, adj[node])
  {
    forall i | 0 <= i < |adj[node]|
      ensures adj[node][i] in labels
    {
      assert IsNeighbour(adj, node, adj[node][i]);
    }
  }

  lemma LocalKept(adj: Adjacency, same: (int, int) -> bool, labels: Labels, node: int, best: int)
    requires Local(adj, same, labels) && node in adj && best in adj && same(node, best)
    ensures Local(adj, same, labels[node := best])
  {
    var out := labels[node := best];
    assert out.Keys == adj.Keys;
    forall n
      ensures LocalAt(adj, same, out, n)
    {
      assert LocalAt(adj, same, labels, n);
    }
  }

  lemma BestIsLocal(adj: Adjacency, same: (int, int) -> bool, labels: Labels, node: int, best: int)
    requires Coherent(adj, same) && Local(adj, same, labels) && node in adj
    requires Labelled(labels, adj[node]) && IsBest(labels, adj[node], best)
    ensures best in adj && same(node, best)
  {
    CountedIsHeld(labels, adj[node], best);
    var i :| 0 <= i < |adj[node]| && labels[adj[node][i]] == best;
    var b := adj[node][i];
    assert IsNeighbour(adj, node, b) && LocalAt(adj, same, labels, b);
    assert Chained(same, node, b, best);
  }

  /** One sweep over all nodes; changed is false only if every node already held its best label. */
  method Sweep(adj: Adjacency, ghost same: (int, int) -> bool, nodes: seq<int>, labels: Labels)
    returns (out: Labels, changed: bool, ghost trace: seq<Labels>)
    requires Coherent(adj, same) && Local(adj, same, labels)
    requires forall n :: n in nodes ==> n in adj
    ensures Local(adj, same, out)
    ensures Swept(adj, nodes, trace) && trace[0] == labels && trace[|nodes|] == out
    ensures changed <==> Moved(trace)
    ensures !changed ==> out == labels && forall n :: n in nodes ==> Settled(adj, labels, n)
  {
    out, changed, trace := labels, false, [labels];
    for i := 0 to |nodes|
      invariant Local(adj, same, out)
      invariant SweptTo(adj, nodes, trace, i) && trace[0] == labels && trace[i] == out
      invariant changed <==> Moved(trace)
      invariant !changed ==> out == labels && SettledTo(adj, labels, nodes, i)
    {
      assert nodes[i] in nodes;
      ghost var before := trace;
      var moved;
      out, moved := Relabel(adj, same, out, nodes[i]);
      trace := trace + [out];
      VisitAdded(adj, nodes, before, i, out);
      MovedNext(before, out);
      changed := changed || moved;
    }
  }

  ghost predicate SettledTo(adj: Adjacency, labels: Labels, nodes: seq<int>, n: nat) {
    n <= |nodes| && forall j :: 0 <= j < n ==> Settled(adj, labels, nodes[j])
  }

  lemma VisitAdded(adj: Adjacency, nodes: seq<int>, trace: seq<Labels>, i: nat, next: Labels)
    requires i < |nodes| && SweptTo(adj, nodes, trace, i) && Adopts(adj, trace[i], nodes[i], next)
    ensures SweptTo(adj, nodes, trace + [next], i + 1)
  {
    var longer := trace + [next];
    forall k | 0 <= k < i + 1
      ensures VisitAt(adj, nodes, longer, k)
    {
      assert k < i ==> VisitAt(adj, nodes, trace, k);
    }
  }

  lemma MovedNext(trace: seq<Labels>, next: Labels)
    requires trace != []
    ensures Moved(trace + [next]) <==> Moved(trace) || next != trace[|trace| - 1]
  {
    var longer := trace + [next];
    if Moved(trace) {
      var i :| 0 <= i < |trace| - 1 && MovesAt(trace, i);
      assert MovesAt(longer, i);
    }
    if next != trace[|trace| - 1] {
      assert MovesAt(longer, |trace| - 1);
    }
    if Moved(longer) {
      var i :| 0 <= i < |longer| - 1 && MovesAt(longer, i);
      assert i < |trace| - 1 ==> MovesAt(trace, i);
    }
  }

  /**
   * The whole propagation. Labels stay equivalent to their holders, and if the loop stops because
   * a round changed nothing, every node holds the best label of its neighbourhood.
   */
  method Propagate(adj: Adjacency, keys: seq<int>, ghost same: (int, int) -> bool)
    returns (labels: Labels, converged: bool, ghost rounds: seq<seq<Labels>>)
    requires Coherent(adj, same) && forall a :: a in keys <==> a in adj
    ensures IsRun(adj, keys, rounds, labels, converged)
    ensures Local(adj, same, labels)
    ensures converged ==> AllSettled(adj, labels)
  {
    var nodes := new int[|keys|](i requires 0 <= i < |keys| => keys[i]);
    assert nodes[..] == keys;
    labels := OwnLabels(keys);
    converged, rounds := false, [];
    StartIsLocal(adj, keys, same);
    var iter := 0;
    while iter < MAX_ITERATIONS && !converged
      invariant iter == |rounds| <= MAX_ITERATIONS && (rounds == [] ==> !converged)
      invariant nodes[..] == OrderAfter(keys, iter)
      invariant Going(adj, keys, same, rounds, labels, converged)
      decreases MAX_ITERATIONS - iter
    {
      Shuffle(nodes, iter);
      VisitsEveryNode(keys, iter);
      labels, converged, rounds := Round(adj, keys, same, nodes[..], labels, rounds);
      iter := iter + 1;
    }
  }

  // What holds between rounds.
  ghost predicate Going(
    adj: Adjacency, keys: seq<int>, same: (int, int) -> bool, rounds: seq<seq<Labels>>, labels: Labels, converged: bool
  ) {
    && RunSoFar(adj, keys, rounds, labels, converged)
    && Local(adj, same, labels) && (converged ==> AllSettled(adj, labels))
  }

  lemma StartIsLocal(adj: Adjacency, keys: seq<int>, same: (int, int) -> bool)
    requires Coherent(adj, same) && forall a :: a in keys <==> a in adj
    ensures Going(adj, keys, same, [], OwnLabels(keys), false)
  {
    var labels := OwnLabels(keys);
    assert forall n :: n in labels.Keys <==> n in adj.Keys;
    assert Local(adj, same, labels);
  }

  method Round(
    adj: Adjacency, ghost keys: seq<int>, ghost same: (int, int) -> bool, nodes: seq<int>, labels: Labels,
    ghost before: seq<seq<Labels>>
  ) returns (out: Labels, converged: bool, ghost rounds: seq<seq<Labels>>)
    requires Coherent(adj, same) && (forall n :: n in keys <==> n in adj) && (forall n :: n in nodes <==> n in keys)
    requires nodes == NodesAt(keys, |before|) && Going(adj, keys, same, before, labels, false)
    ensures |rounds| == |before| + 1 && Going(adj, keys, same, rounds, out, converged)
  {
    var changed;
    ghost var trace;
    out, changed, trace := Sweep(adj, same, nodes, labels);
    RoundAdded(adj, keys, before, labels, trace);
    converged, rounds := !changed, before + [trace];
  }

  lemma RoundAdded(
    adj: Adjacency, keys: seq<int>, rounds: seq<seq<Labels>>, labels: Labels, trace: seq<Labels>
  )
    requires RunSoFar(adj, keys, rounds, labels, false)
    requires Swept(adj, NodesAt(keys, |rounds|), trace) && trace[0] == labels
    ensures RunSoFar(adj, keys, rounds + [trace], trace[|trace| - 1], !Moved(trace))
  {
    var longer := rounds + [trace];
    forall r | 0 <= r < |longer|
      ensures RoundOk(adj, keys, longer, r)
    {
      if r < |rounds| {
        assert RoundOk(adj, keys, rounds, r);
        assert LabelsBefore(keys, longer, r) == LabelsBefore(keys, rounds, r);
      }
    }
  }

  // ---- labels on the association graph

  ghost function Connects(edges: seq<Edge>, known: set<int>): (int, int) -> bool {
    (a, b) => Connected(edges, known, a, b)
  }

  lemma ConnectsCoherent(edges: seq<Edge>, known: set<int>, adj: Adjacency, keys: seq<int>)
    requires Represents(edges, known, adj, keys)
    ensures Coherent(adj, Connects(edges, known))
  {
    forall a, b, c
      ensures Connected(edges, known, a, a)
      ensures Connected(edges, known, a, b) && Connected(edges, known, b, c) ==> Connected(edges, known, a, c)
    {
      ConnectedIsEquivalence(edges, known, a, b, c);
    }
    forall a, b | a in adj && b in adj[a]
      ensures Connected(edges, known, a, b)
    {
      ConnectedSelf(edges, known, a);
      ConnectedStep(edges, known, a, a, b);
    }
  }
}
