/** Pair dependencies: how much of the shortest-path traffic from a source runs through a node. */
module Dependencies {
  import opened AssociationModel
  import opened FiniteSums
  import opened ShortestPaths

  /** The fraction of shortest s-t paths that pass through v; 0 when t is out of reach. */
  ghost function Fraction(g: Graph, s: NodeRef, m: nat, v: NodeRef, t: NodeRef): real {
    if Shortest(g, s, t, m) == {} then 0.0
    else ThroughCount(g, s, t, m, v) / Sigma(g, s, t, m)
  }

  ghost function FractionOf(g: Graph, s: NodeRef, m: nat, v: NodeRef): NodeRef -> real {
    t => Fraction(g, s, m, v, t)
  }

  /** The dependency of s on v: the sum of those fractions over every target other than v. */
  ghost function Dependency(g: Graph, s: NodeRef, m: nat, v: NodeRef): real {
    Sum(FractionOf(g, s, m, v), g.Keys - {v})
  }

  /** The nodes w one level further out than v that v precedes on a shortest path. */
  ghost function ShortestSuccs(g: Graph, s: NodeRef, m: nat, v: NodeRef): set<NodeRef> {
    set w | w in g.Keys && v in ShortestPreds(g, s, w, m)
  }

  ghost function Ratio(g: Graph, s: NodeRef, m: nat, v: NodeRef, w: NodeRef): real {
    if Shortest(g, s, w, m) == {} then 0.0 else Sigma(g, s, v, m) / Sigma(g, s, w, m)
  }

  ghost function RatioOf(g: Graph, s: NodeRef, m: nat, v: NodeRef): NodeRef -> real {
    w => Ratio(g, s, m, v, w)
  }

  ghost function DependencyOf(g: Graph, s: NodeRef, m: nat): NodeRef -> real {
    w => Dependency(g, s, m, w)
  }

  // What each successor w hands back to v: the path ratio times one plus w's own dependency.
  ghost function Share(g: Graph, s: NodeRef, m: nat, v: NodeRef): NodeRef -> real {
    Shares(RatioOf(g, s, m, v), DependencyOf(g, s, m))
  }

  // (w, t) -> the number of shortest paths to t through w
  ghost function Traffic(g: Graph, s: NodeRef, m: nat): (NodeRef, NodeRef) -> real {
    (w, t) => ThroughCount(g, s, t, m, w)
  }

  // (w, t) -> the fraction of shortest paths to t through w
  ghost function Fractions(g: Graph, s: NodeRef, m: nat): (NodeRef, NodeRef) -> real {
    (w, t) => Fraction(g, s, m, w, t)
  }

  // ---- elementary facts about Through

  lemma ReachedHasPaths(g: Graph, s: NodeRef, t: NodeRef, m: nat)
    ensures DistUpTo(g, s, t, m) >= 0 <==> Shortest(g, s, t, m) != {}
    ensures Sigma(g, s, t, m) > 0.0 <==> Shortest(g, s, t, m) != {}
  {
  }

  lemma ThroughSelf(g: Graph, s: NodeRef, m: nat, v: NodeRef)
    ensures Through(g, s, v, m, v) == Shortest(g, s, v, m)
  {
    forall p | p in Shortest(g, s, v, m)
      ensures v in p
    {
      ShortestEnds(g, s, v, m, p);
    }
  }

  lemma ThroughSource(g: Graph, s: NodeRef, m: nat, v: NodeRef)
    requires v != s
    ensures Through(g, s, s, m, v) == {}
  {
    SourceAtZero(g, s, s, m);
  }

  lemma ThroughBounded(g: Graph, s: NodeRef, t: NodeRef, m: nat, v: NodeRef)
    ensures 0.0 <= ThroughCount(g, s, t, m, v) <= Sigma(g, s, t, m)
  {
    SubsetSize(Through(g, s, t, m, v), Shortest(g, s, t, m));
  }

  /** A shortest path meets no node at its own level or beyond, except its end. */
  lemma {:induction false} ThroughNotDeeper(g: Graph, s: NodeRef, t: NodeRef, m: nat, v: NodeRef)
    requires t != v && DistUpTo(g, s, t, m) <= DistUpTo(g, s, v, m)
    ensures ThroughCount(g, s, t, m, v) == 0.0
    decreases DistUpTo(g, s, t, m) + 1
  {
    if DistUpTo(g, s, t, m) < 0 {
      assert Through(g, s, t, m, v) == {};
    } else if t == s {
      ThroughSource(g, s, m, v);
    } else {
      ThroughCountRecurrence(g, s, t, m, v);
      forall u | u in ShortestPreds(g, s, t, m)
        ensures Count(ThroughOf(g, s, m, v))(u) == 0.0
      {
        ThroughNotDeeper(g, s, u, m, v);
      }
      SumZero(Count(ThroughOf(g, s, m, v)), ShortestPreds(g, s, t, m));
    }
  }

  // ---- splitting the paths through v by the node that follows v

  /** Every shortest path through v to another node continues through exactly one successor of v. */
  lemma {:induction false} ThroughBySuccessor(g: Graph, s: NodeRef, m: nat, v: NodeRef, t: NodeRef)
    requires t in g && t != v
    ensures ThroughCount(g, s, t, m, v)
      == Column(Weighted(RatioOf(g, s, m, v), Traffic(g, s, m)), ShortestSuccs(g, s, m, v))(t)
    decreases DistUpTo(g, s, t, m) + 1
  {
    if DistUpTo(g, s, t, m) < 0 || t == s {
      SourceCase(g, s, m, v, t, RatioOf(g, s, m, v));
    } else if v in ShortestPreds(g, s, t, m) {
      DirectRatio(g, s, m, v, t);
      DirectCase(g, s, m, v, t, RatioOf(g, s, m, v));
    } else {
      forall u | u in ShortestPreds(g, s, t, m)
        ensures ThroughCount(g, s, u, m, v)
          == Column(Weighted(RatioOf(g, s, m, v), Traffic(g, s, m)), ShortestSuccs(g, s, m, v))(u)
      {
        ThroughBySuccessor(g, s, m, v, u);
      }
      LaterCase(g, s, m, v, t, RatioOf(g, s, m, v));
    }
  }

  lemma NoTraffic(g: Graph, s: NodeRef, m: nat, v: NodeRef, t: NodeRef)
    requires t != v && (DistUpTo(g, s, t, m) < 0 || t == s)
    ensures ThroughCount(g, s, t, m, v) == 0.0
  {
    if t == s {
      ThroughSource(g, s, m, v);
    }
  }

  lemma SuccessorIsDeeper(g: Graph, s: NodeRef, m: nat, v: NodeRef, w: NodeRef)
    requires w in ShortestSuccs(g, s, m, v)
    ensures 0 <= DistUpTo(g, s, v, m) && DistUpTo(g, s, w, m) == DistUpTo(g, s, v, m) + 1
    ensures w != s && w != v
  {
    SourceAtZero(g, s, w, m);
  }

  lemma SourceCase(g: Graph, s: NodeRef, m: nat, v: NodeRef, t: NodeRef, weight: NodeRef -> real)
    requires t != v && (DistUpTo(g, s, t, m) < 0 || t == s)
    ensures ThroughCount(g, s, t, m, v) == 0.0
    ensures Column(Weighted(weight, Traffic(g, s, m)), ShortestSuccs(g, s, m, v))(t) == 0.0
  {
    NoTraffic(g, s, m, v, t);
    var column := Row(Flip(Weighted(weight, Traffic(g, s, m))), t);
    forall w | w in ShortestSuccs(g, s, m, v)
      ensures column(w) == 0.0
    {
      SuccessorIsDeeper(g, s, m, v, w);
      NoTraffic(g, s, m, w, t);
    }
    SumZero(column, ShortestSuccs(g, s, m, v));
  }

  lemma DirectCase(g: Graph, s: NodeRef, m: nat, v: NodeRef, t: NodeRef, weight: NodeRef -> real)
    requires t in g && t != v && t != s && v in ShortestPreds(g, s, t, m)
    requires weight(t) * Sigma(g, s, t, m) == Sigma(g, s, v, m)
    ensures ThroughCount(g, s, t, m, v)
      == Column(Weighted(weight, Traffic(g, s, m)), ShortestSuccs(g, s, m, v))(t)
  {
    DirectPaths(g, s, m, v, t);
    ThroughSelf(g, s, m, t);
    var column := Row(Flip(Weighted(weight, Traffic(g, s, m))), t);
    assert column(t) == ThroughCount(g, s, t, m, v);
    forall w | w in ShortestSuccs(g, s, m, v) && w != t
      ensures column(w) == 0.0
    {
      SiblingCarriesNothing(g, s, m, v, t, w);
    }
    SumSingle(column, ShortestSuccs(g, s, m, v), t);
  }

  lemma SiblingCarriesNothing(g: Graph, s: NodeRef, m: nat, v: NodeRef, t: NodeRef, w: NodeRef)
    requires t in g && v in ShortestPreds(g, s, t, m)
    requires w in ShortestSuccs(g, s, m, v) && w != t
    ensures ThroughCount(g, s, t, m, w) == 0.0
  {
    SuccessorIsDeeper(g, s, m, v, w);
    SuccessorIsDeeper(g, s, m, v, t);
    ThroughNotDeeper(g, s, t, m, w);
  }

  lemma DirectPaths(g: Graph, s: NodeRef, m: nat, v: NodeRef, t: NodeRef)
    requires t != v && t != s && v in ShortestPreds(g, s, t, m)
    ensures ThroughCount(g, s, t, m, v) == Sigma(g, s, v, m)
  {
    var preds := ShortestPreds(g, s, t, m);
    ThroughCountRecurrence(g, s, t, m, v);
    var f := Count(ThroughOf(g, s, m, v));
    forall u | u in preds && u != v
      ensures f(u) == 0.0
    {
      ThroughNotDeeper(g, s, u, m, v);
    }
    SumSingle(f, preds, v);
    ThroughSelf(g, s, m, v);
  }

  lemma DirectRatio(g: Graph, s: NodeRef, m: nat, v: NodeRef, t: NodeRef)
    requires v in ShortestPreds(g, s, t, m)
    ensures RatioOf(g, s, m, v)(t) * Sigma(g, s, t, m) == Sigma(g, s, v, m)
  {
    ReachedHasPaths(g, s, t, m);
    DivMul(Sigma(g, s, v, m), Sigma(g, s, t, m));
  }

  lemma DivMul(a: real, b: real)
    requires b > 0.0
    ensures a / b * b == a
  {
  }

  lemma LaterCase(g: Graph, s: NodeRef, m: nat, v: NodeRef, t: NodeRef, weight: NodeRef -> real)
    requires t in g && t != v && t != s && v !in ShortestPreds(g, s, t, m)
    requires forall u :: u in ShortestPreds(g, s, t, m) ==>
      ThroughCount(g, s, u, m, v) == Column(Weighted(weight, Traffic(g, s, m)), ShortestSuccs(g, s, m, v))(u)
    ensures ThroughCount(g, s, t, m, v)
      == Column(Weighted(weight, Traffic(g, s, m)), ShortestSuccs(g, s, m, v))(t)
  {
    var succs := ShortestSuccs(g, s, m, v);
    var preds := ShortestPreds(g, s, t, m);
    var traffic := Traffic(g, s, m);
    ThroughCountRecurrence(g, s, t, m, v);
    SumCongruent(Count(ThroughOf(g, s, m, v)), Column(Weighted(weight, traffic), succs), preds);
    forall w | w in succs
      ensures traffic(w, t) == Rows(traffic, preds)(w)
    {
      ThroughCountRecurrence(g, s, t, m, w);
      SumCongruent(Count(ThroughOf(g, s, m, w)), Row(traffic, w), preds);
    }
    WeightedColumnSum(weight, traffic, succs, preds, t);
  }

  // ---- the recurrence of dependencies

  /** The fraction through v is the sum of its successors' fractions, each scaled by the path ratio. */
  lemma FractionBySuccessor(g: Graph, s: NodeRef, m: nat, v: NodeRef, t: NodeRef)
    requires t in g && t != v
    ensures Fractions(g, s, m)(v, t)
      == Column(Weighted(RatioOf(g, s, m, v), Fractions(g, s, m)), ShortestSuccs(g, s, m, v))(t)
  {
    ThroughBySuccessor(g, s, m, v, t);
    var c := FractionIsScaled(g, s, m, t);
    ScaledRecurrence(RatioOf(g, s, m, v), Traffic(g, s, m), Fractions(g, s, m),
      ShortestSuccs(g, s, m, v), v, t, c);
  }

  lemma FractionIsScaled(g: Graph, s: NodeRef, m: nat, t: NodeRef) returns (c: real)
    ensures ProportionalAt(Traffic(g, s, m), Fractions(g, s, m), t, c)
  {
    if Shortest(g, s, t, m) == {} {
      c := 0.0;
    } else {
      ReachedHasPaths(g, s, t, m);
      c := 1.0 / Sigma(g, s, t, m);
      forall w
        ensures Fraction(g, s, m, w, t) == c * ThroughCount(g, s, t, m, w)
      {
        FractionByReciprocal(g, s, m, t, w);
      }
    }
  }

  lemma FractionByReciprocal(g: Graph, s: NodeRef, m: nat, t: NodeRef, w: NodeRef)
    requires Shortest(g, s, t, m) != {} && Sigma(g, s, t, m) > 0.0
    ensures Fraction(g, s, m, w, t) == 1.0 / Sigma(g, s, t, m) * ThroughCount(g, s, t, m, w)
  {
    Reciprocal(ThroughCount(g, s, t, m, w), Sigma(g, s, t, m));
  }

  lemma Reciprocal(a: real, b: real)
    requires b > 0.0
    ensures a / b == 1.0 / b * a
  {
    var i := 1.0 / b;
    assert i * b == 1.0;
    assert (i * a) * b == (i * b) * a;
  }

  /** A successor receives all of its own traffic once more, on top of what it depends on. */
  lemma TargetsOf(g: Graph, s: NodeRef, m: nat, v: NodeRef, w: NodeRef)
    requires v in g && w in ShortestSuccs(g, s, m, v)
    ensures Sum(FractionOf(g, s, m, w), g.Keys - {v}) == 1.0 + Dependency(g, s, m, w)
  {
    var f := FractionOf(g, s, m, w);
    ReachedHasPaths(g, s, w, m);
    ThroughSelf(g, s, m, w);
    assert f(w) == 1.0;
    ThroughNotDeeper(g, s, v, m, w);
    assert f(v) == 0.0;
    ExchangeOne(f, g.Keys, v, w);
  }

  lemma ExchangeOne<T(!new)>(f: T -> real, s: set<T>, v: T, w: T)
    requires v in s && w in s && v != w
    ensures Sum(f, s - {v}) - f(w) == Sum(f, s - {w}) - f(v)
  {
    SumRemove(f, s - {v}, w);
    SumRemove(f, s - {w}, v);
    assert s - {v} - {w} == s - {w} - {v};
  }

  /** Brandes' recurrence: v's dependency is the sum of its successors' shares. */
  lemma DependencyRecurrence(g: Graph, s: NodeRef, m: nat, v: NodeRef)
    requires v in g
    ensures Dependency(g, s, m, v) == Sum(Share(g, s, m, v), ShortestSuccs(g, s, m, v))
  {
    var succs := ShortestSuccs(g, s, m, v);
    var targets := g.Keys - {v};
    var column := Column(Weighted(RatioOf(g, s, m, v), Fractions(g, s, m)), succs);
    forall t | t in targets
      ensures FractionOf(g, s, m, v)(t) == column(t)
    {
      FractionBySuccessor(g, s, m, v, t);
    }
    SumCongruent(FractionOf(g, s, m, v), column, targets);
    forall w | w in succs
      ensures Rows(Fractions(g, s, m), targets)(w) == 1.0 + DependencyOf(g, s, m)(w)
    {
      SuccessorTotal(g, s, m, v, w);
    }
    WeightedTotal(RatioOf(g, s, m, v), Fractions(g, s, m), succs, targets, DependencyOf(g, s, m));
  }

  lemma SuccessorTotal(g: Graph, s: NodeRef, m: nat, v: NodeRef, w: NodeRef)
    requires v in g && w in ShortestSuccs(g, s, m, v)
    ensures Rows(Fractions(g, s, m), g.Keys - {v})(w) == 1.0 + Dependency(g, s, m, w)
  {
    TargetsOf(g, s, m, v, w);
    SumCongruent(FractionOf(g, s, m, w), Row(Fractions(g, s, m), w), g.Keys - {v});
  }

  // ---- bounds and conservation

  lemma FractionBounds(g: Graph, s: NodeRef, m: nat, v: NodeRef, t: NodeRef)
    ensures 0.0 <= Fraction(g, s, m, v, t) <= 1.0
    ensures v != s ==> Fraction(g, s, m, v, s) == 0.0
  {
    ThroughBounded(g, s, t, m, v);
    if v != s {
      ThroughSource(g, s, m, v);
    }
    if Shortest(g, s, t, m) != {} {
      ReachedHasPaths(g, s, t, m);
      QuotientBounds(ThroughCount(g, s, t, m, v), Sigma(g, s, t, m));
    }
  }

  lemma DependencyBounds(g: Graph, s: NodeRef, m: nat, v: NodeRef)
    requires s in g && v in g && s != v
    ensures 0.0 <= Dependency(g, s, m, v) <= (|g| - 2) as real
  {
    var f := FractionOf(g, s, m, v);
    forall t
      ensures 0.0 <= f(t) <= 1.0
    {
      FractionBounds(g, s, m, v, t);
    }
    FractionBounds(g, s, m, v, s);
    SumWithin(f, g.Keys, v, s);
  }

  lemma SumWithin<T(!new)>(f: T -> real, all: set<T>, v: T, s: T)
    requires v in all && s in all && v != s && f(s) == 0.0
    requires forall t :: 0.0 <= f(t) <= 1.0
    ensures 0.0 <= Sum(f, all - {v}) <= (|all| - 2) as real
  {
    var rest := all - {v};
    SumRemove(f, rest, s);
    SumNonNegative(f, rest);
    SumAtMost(f, rest - {s}, 1.0);
    TwoFewer(all, v, s);
  }

  lemma TwoFewer<T>(all: set<T>, v: T, s: T)
    requires v in all && s in all && v != s
    ensures |all - {v} - {s}| == |all| - 2
  {
    assert |all - {v}| == |all| - 1;
  }

  // The nodes at distance d from the source.
  ghost function Level(g: Graph, s: NodeRef, m: nat, d: nat): set<NodeRef> {
    set v | v in g.Keys && DistUpTo(g, s, v, m) == d
  }

  ghost function Deeper(g: Graph, s: NodeRef, m: nat, d: nat): set<NodeRef> {
    set v | v in g.Keys && DistUpTo(g, s, v, m) > d
  }

  /** A shortest path to a node at level d or deeper crosses level d exactly once. */
  lemma {:induction false} LevelCarriesAll(g: Graph, s: NodeRef, m: nat, d: nat, t: NodeRef)
    requires t in g && DistUpTo(g, s, t, m) >= d
    ensures Sum(Row(Flip(Traffic(g, s, m)), t), Level(g, s, m, d)) == Sigma(g, s, t, m)
    decreases DistUpTo(g, s, t, m)
  {
    var level, column := Level(g, s, m, d), Row(Flip(Traffic(g, s, m)), t);
    if DistUpTo(g, s, t, m) == d {
      forall v | v in level && v != t
        ensures column(v) == 0.0
      {
        ThroughNotDeeper(g, s, t, m, v);
      }
      SumSingle(column, level, t);
      ThroughSelf(g, s, m, t);
    } else {
      SourceAtZero(g, s, t, m);
      forall u | u in ShortestPreds(g, s, t, m)
        ensures Sum(Row(Flip(Traffic(g, s, m)), u), level) == Sigma(g, s, u, m)
      {
        LevelCarriesAll(g, s, m, d, u);
      }
      LevelStep(g, s, m, d, t);
    }
  }

  lemma LevelStep(g: Graph, s: NodeRef, m: nat, d: nat, t: NodeRef)
    requires t in g && t != s && DistUpTo(g, s, t, m) > d
    requires forall u :: u in ShortestPreds(g, s, t, m) ==>
      Sum(Row(Flip(Traffic(g, s, m)), u), Level(g, s, m, d)) == Sigma(g, s, u, m)
    ensures Sum(Row(Flip(Traffic(g, s, m)), t), Level(g, s, m, d)) == Sigma(g, s, t, m)
  {
    var level, preds, traffic := Level(g, s, m, d), ShortestPreds(g, s, t, m), Traffic(g, s, m);
    forall v | v in level
      ensures Row(Flip(traffic), t)(v) == Rows(traffic, preds)(v)
    {
      ThroughCountRecurrence(g, s, t, m, v);
      SumCongruent(Count(ThroughOf(g, s, m, v)), Row(traffic, v), preds);
    }
    SumCongruent(Row(Flip(traffic), t), Rows(traffic, preds), level);
    SumSwap(traffic, level, preds);
    SigmaRecurrence(g, s, t, m);
    SumCongruent(Rows(Flip(traffic), level), Count(ShortestOf(g, s, m)), preds);
  }

  /** The fractions at one level add up to 1 for every deeper target. */
  lemma FractionsAtLevel(g: Graph, s: NodeRef, m: nat, d: nat, t: NodeRef)
    requires t in g && DistUpTo(g, s, t, m) > d
    ensures Sum(Row(Flip(Fractions(g, s, m)), t), Level(g, s, m, d)) == 1.0
  {
    LevelCarriesAll(g, s, m, d, t);
    ReachedHasPaths(g, s, t, m);
    var b := Sigma(g, s, t, m);
    ScaledToOne(Row(Flip(Traffic(g, s, m)), t), Row(Flip(Fractions(g, s, m)), t), Level(g, s, m, d), b);
  }

  lemma ScaledToOne(f: NodeRef -> real, h: NodeRef -> real, s: set<NodeRef>, b: real)
    requires b > 0.0 && Sum(f, s) == b
    requires forall x :: x in s ==> h(x) == f(x) / b
    ensures Sum(h, s) == 1.0
  {
    var i := 1.0 / b;
    forall x | x in s
      ensures IsScaled(i, f(x), h(x))
    {
      Reciprocal(f(x), b);
    }
    SumScale(f, h, i, s);
    assert i * b == 1.0;
  }

  lemma DependencyOnDeeper(g: Graph, s: NodeRef, m: nat, d: nat, v: NodeRef)
    requires v in Level(g, s, m, d)
    ensures Dependency(g, s, m, v) == Sum(Row(Fractions(g, s, m), v), Deeper(g, s, m, d))
  {
    var f, deeper := FractionOf(g, s, m, v), Deeper(g, s, m, d);
    forall t | t in g.Keys - {v} - deeper
      ensures f(t) == 0.0
    {
      ThroughNotDeeper(g, s, t, m, v);
    }
    SumSupport(f, deeper, g.Keys - {v});
    SumCongruent(f, Row(Fractions(g, s, m), v), deeper);
  }

  /** Conservation: the dependencies of one level add up to the number of reached nodes beyond it. */
  lemma LevelConservation(g: Graph, s: NodeRef, m: nat, d: nat)
    ensures Sum(DependencyOf(g, s, m), Level(g, s, m, d)) == |Deeper(g, s, m, d)| as real
  {
    var level, deeper, fractions := Level(g, s, m, d), Deeper(g, s, m, d), Fractions(g, s, m);
    forall v | v in level
      ensures DependencyOf(g, s, m)(v) == Rows(fractions, deeper)(v)
    {
      DependencyOnDeeper(g, s, m, d, v);
    }
    SumCongruent(DependencyOf(g, s, m), Rows(fractions, deeper), level);
    SumSwap(fractions, level, deeper);
    forall t | t in deeper
      ensures Rows(Flip(fractions), level)(t) == 1.0
    {
      FractionsAtLevel(g, s, m, d, t);
    }
    SumOfOnes(Rows(Flip(fractions), level), deeper);
  }

  lemma {:induction false} SumOfOnes(f: NodeRef -> real, s: set<NodeRef>)
    requires forall x :: x in s ==> f(x) == 1.0
    ensures Sum(f, s) == |s| as real
    decreases s
  {
    if s != {} {
      var x :| x in s;
      SumRemove(f, s, x);
      SumOfOnes(f, s - {x});
    }
  }
}
