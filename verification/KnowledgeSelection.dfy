/**
 * Choosing knowledge for a context (src/core/context.ts): one greedy pick after another, with a cap
 * per fact type and a penalty that grows with what has already been chosen.
 */
module KnowledgeSelection {
  import opened Sequences
  import opened FiniteSums

  // An empty slot key is no slot key.
  datatype Candidate = Candidate(id: int, factType: string, slotKey: string, baseScore: real)

  datatype Policy = Policy(maxPerFactType: int, diversityPenalty: real)

  datatype Reason = Reason(knowledgeMemoryId: int, diversityPenalty: real, finalScore: real)

  // ---- scores

  function TypeCount(cs: seq<Candidate>, t: string): nat {
    if cs == [] then 0 else TypeCount(cs[..|cs| - 1], t) + if cs[|cs| - 1].factType == t then 1 else 0
  }

  predicate SameSlot(a: Candidate, b: Candidate) {
    a.slotKey != "" && a.slotKey == b.slotKey
  }

  function SlotCount(cs: seq<Candidate>, c: Candidate): nat {
    if cs == [] then 0 else SlotCount(cs[..|cs| - 1], c) + if SameSlot(cs[|cs| - 1], c) then 1 else 0
  }

  function Penalty(p: Policy, selected: seq<Candidate>, c: Candidate): real {
    TypeCount(selected, c.factType) as real * p.diversityPenalty + SlotPenalty(p, selected, c)
  }

  function FinalScore(p: Policy, selected: seq<Candidate>, c: Candidate): real {
    c.baseScore - Penalty(p, selected, c)
  }

  predicate Eligible(p: Policy, selected: seq<Candidate>, c: Candidate) {
    TypeCount(selected, c.factType) < p.maxPerFactType
  }

  // ---- one greedy run

  /** Candidate i is the first of the best eligible ones. */
  ghost predicate IsPick(p: Policy, selected: seq<Candidate>, remaining: seq<Candidate>, i: int) {
    && 0 <= i < |remaining| && Eligible(p, selected, remaining[i])
    && forall j :: 0 <= j < |remaining| && Eligible(p, selected, remaining[j]) ==>
         NotBetter(p, selected, remaining[j], remaining[i], j < i)
  }

  predicate NotBetter(p: Policy, selected: seq<Candidate>, c: Candidate, best: Candidate, earlier: bool) {
    FinalScore(p, selected, c) <= FinalScore(p, selected, best)
    && (earlier ==> FinalScore(p, selected, c) < FinalScore(p, selected, best))
  }

  /** rests[k] is what was left before pick k, and picks[k] the place of pick k in it. */
  datatype Run = Run(selected: seq<Candidate>, rests: seq<seq<Candidate>>, picks: seq<int>)

  ghost predicate PickOk(p: Policy, r: Run, k: nat)
    requires k < |r.selected| == |r.picks| && |r.rests| == |r.selected| + 1
  {
    && IsPick(p, r.selected[..k], r.rests[k], r.picks[k])
    && r.selected[k] == r.rests[k][r.picks[k]]
    && r.rests[k + 1] == RemoveAt(r.rests[k], r.picks[k])
  }

  ghost predicate IsRun(candidates: seq<Candidate>, p: Policy, r: Run) {
    && |r.picks| == |r.selected| && |r.rests| == |r.selected| + 1 && r.rests[0] == candidates
    && forall k :: 0 <= k < |r.selected| ==> PickOk(p, r, k)
  }

  function Left(r: Run): seq<Candidate>
    requires r.rests != []
  {
    r.rests[|r.rests| - 1]
  }

  /** The run ends at the limit, or when no candidate is left that may be picked. */
  ghost predicate Finished(p: Policy, r: Run, limit: int) {
    && r.rests != []
    && (|r.selected| as int >= limit || forall i :: 0 <= i < |Left(r)| ==> !Eligible(p, r.selected, Left(r)[i]))
    && (|r.selected| > 0 ==> |r.selected| <= limit)
  }

  /** What the caller is told about pick k. */
  ghost predicate ReasonsOk(p: Policy, selected: seq<Candidate>, reasons: seq<Reason>) {
    && |reasons| == |selected|
    && forall k :: 0 <= k < |selected| ==> reasons[k] == ReasonAt(p, selected, k)
  }

  function ReasonAt(p: Policy, selected: seq<Candidate>, k: nat): Reason
    requires k < |selected|
  {
    Reason(selected[k].id, Penalty(p, selected[..k], selected[k]), FinalScore(p, selected[..k], selected[k]))
  }

  // ---- the loops

  method DiversityPenalty(p: Policy, selected: seq<Candidate>, counts: map<string, nat>, c: Candidate) returns (r: real)
    requires CountsOk(selected, counts)
    ensures r == Penalty(p, selected, c)
  {
    var sameTypePenalty := (if c.factType in counts then counts[c.factType] else 0) as real * p.diversityPenalty;
    var sameSlotPenalty := 0.0;
    for i := 0 to |selected|
      invariant sameSlotPenalty == SlotPenalty(p, selected[..i], c)
    {
      SlotPenaltyNext(p, selected, i, c);
      if SameSlot(selected[i], c) {
        sameSlotPenalty := sameSlotPenalty + p.diversityPenalty;
      }
    }
    assert selected[..|selected|] == selected;
    r := sameTypePenalty + sameSlotPenalty;
  }

  function SlotPenalty(p: Policy, selected: seq<Candidate>, c: Candidate): real {
    SlotCount(selected, c) as real * p.diversityPenalty
  }

  lemma SlotPenaltyNext(p: Policy, selected: seq<Candidate>, i: nat, c: Candidate)
    requires i < |selected|
    ensures SlotPenalty(p, selected[..i + 1], c) ==
      SlotPenalty(p, selected[..i], c) + if SameSlot(selected[i], c) then p.diversityPenalty else 0.0
  {
    assert selected[..i + 1][..i] == selected[..i];
    OneMore(p.diversityPenalty, SlotCount(selected[..i], c));
  }

  ghost predicate CountsOk(selected: seq<Candidate>, counts: map<string, nat>) {
    forall t :: TypeCount(selected, t) == if t in counts then counts[t] else 0
  }

  method FindBest(p: Policy, selected: seq<Candidate>, counts: map<string, nat>, remaining: seq<Candidate>)
    returns (bestIndex: int, bestScore: real, bestPenalty: real)
    requires CountsOk(selected, counts)
    ensures bestIndex == -1 ==> forall i :: 0 <= i < |remaining| ==> !Eligible(p, selected, remaining[i])
    ensures bestIndex != -1 ==>
      && IsPick(p, selected, remaining, bestIndex)
      && bestPenalty == Penalty(p, selected, remaining[bestIndex])
      && bestScore == FinalScore(p, selected, remaining[bestIndex])
  {
    bestIndex, bestScore, bestPenalty := -1, 0.0, 0.0;
    for i := 0 to |remaining|
      invariant bestIndex == -1 ==> forall j :: 0 <= j < i ==> !Eligible(p, selected, remaining[j])
      invariant bestIndex != -1 ==>
        && 0 <= bestIndex < i && IsPick(p, selected, remaining[..i], bestIndex)
        && bestPenalty == Penalty(p, selected, remaining[bestIndex])
        && bestScore == FinalScore(p, selected, remaining[bestIndex])
    {
      var candidate := remaining[i];
      var currentTypeCount := if candidate.factType in counts then counts[candidate.factType] else 0;
      if currentTypeCount < p.maxPerFactType {
        var diversityPenalty := DiversityPenalty(p, selected, counts, candidate);
        var finalScore := candidate.baseScore - diversityPenalty;
        if bestIndex == -1 || finalScore > bestScore {
          bestIndex, bestScore, bestPenalty := i, finalScore, diversityPenalty;
        }
      }
    }
    assert remaining[..|remaining|] == remaining;
  }

  method SelectKnowledge(candidates: seq<Candidate>, p: Policy, limit: int)
    returns (selected: seq<Candidate>, reasons: seq<Reason>, ghost r: Run)
    ensures r.selected == selected && IsRun(candidates, p, r) && Finished(p, r, limit)
    ensures ReasonsOk(p, selected, reasons)
  {
    var remaining := candidates;
    var counts: map<string, nat> := map[];
    selected, reasons, r := [], [], Run([], [candidates], []);
    while |remaining| > 0 && |selected| < limit
      invariant r.selected == selected && IsRun(candidates, p, r) && Left(r) == remaining
      invariant CountsOk(selected, counts) && ReasonsOk(p, selected, reasons)
      invariant |selected| > 0 ==> |selected| <= limit
      decreases |remaining|
    {
      var bestIndex, bestScore, bestPenalty := FindBest(p, selected, counts, remaining);
      if bestIndex == -1 {
        break;
      }
      var winner := remaining[bestIndex];
      RunGrows(candidates, p, r, bestIndex);
      r := Run(selected + [winner], r.rests + [RemoveAt(remaining, bestIndex)], r.picks + [bestIndex]);
      CountGrows(selected, counts, winner);
      ReasonsGrow(p, selected, reasons, winner, Reason(winner.id, bestPenalty, bestScore));
      remaining := RemoveAt(remaining, bestIndex);
      selected := selected + [winner];
      counts := counts[winner.factType := (if winner.factType in counts then counts[winner.factType] else 0) + 1];
      reasons := reasons + [Reason(winner.id, bestPenalty, bestScore)];
    }
  }

  lemma RunGrows(candidates: seq<Candidate>, p: Policy, r: Run, i: int)
    requires IsRun(candidates, p, r) && IsPick(p, r.selected, Left(r), i)
    ensures IsRun(
      candidates, p, Run(r.selected + [Left(r)[i]], r.rests + [RemoveAt(Left(r), i)], r.picks + [i]))
  {
    var next := Run(r.selected + [Left(r)[i]], r.rests + [RemoveAt(Left(r), i)], r.picks + [i]);
    forall k | 0 <= k < |next.selected|
      ensures PickOk(p, next, k)
    {
      if k < |r.selected| {
        assert PickOk(p, r, k);
        assert next.selected[..k] == r.selected[..k];
      } else {
        assert next.selected[..k] == r.selected;
      }
    }
  }

  lemma CountGrows(selected: seq<Candidate>, counts: map<string, nat>, c: Candidate)
    requires CountsOk(selected, counts)
    ensures CountsOk(
      selected + [c], counts[c.factType := (if c.factType in counts then counts[c.factType] else 0) + 1])
  {
    assert (selected + [c])[..|selected|] == selected;
  }

  lemma ReasonsGrow(p: Policy, selected: seq<Candidate>, reasons: seq<Reason>, c: Candidate, reason: Reason)
    requires ReasonsOk(p, selected, reasons)
    requires reason == Reason(c.id, Penalty(p, selected, c), FinalScore(p, selected, c))
    ensures ReasonsOk(p, selected + [c], reasons + [reason])
  {
    var longer := selected + [c];
    forall k | 0 <= k < |longer|
      ensures (reasons + [reason])[k] == ReasonAt(p, longer, k)
    {
      assert longer[..k] == selected[..k];
      assert k == |selected| ==> longer[..k] == selected;
    }
  }

  // ---- nothing is picked twice or lost

  lemma {:induction false} PicksAndRest(candidates: seq<Candidate>, p: Policy, r: Run, k: nat)
    requires IsRun(candidates, p, r) && k <= |r.selected|
    ensures multiset(r.selected[..k]) + multiset(r.rests[k]) == multiset(candidates)
  {
    if k > 0 {
      PicksAndRest(candidates, p, r, k - 1);
      assert PickOk(p, r, k - 1);
      var rest, i := r.rests[k - 1], r.picks[k - 1];
      assert rest == rest[..i] + [rest[i]] + rest[i + 1..];
      assert r.selected[..k] == r.selected[..k - 1] + [r.selected[k - 1]];
    } else {
      assert r.selected[..0] == [];
    }
  }

  // ---- how many are picked

  function TypeCap(p: Policy, candidates: seq<Candidate>, t: string): nat {
    var cap := if p.maxPerFactType < 0 then 0 else p.maxPerFactType;
    if TypeCount(candidates, t) < cap then TypeCount(candidates, t) else cap
  }

  function Types(cs: seq<Candidate>): set<string> {
    set i | 0 <= i < |cs| :: cs[i].factType
  }

  lemma {:induction false} CountsPartition(cs: seq<Candidate>, types: set<string>)
    requires Types(cs) <= types
    ensures Sum((t: string) => TypeCount(cs, t) as real, types) == |cs| as real
    decreases |cs|
  {
    var f := (t: string) => TypeCount(cs, t) as real;
    if cs == [] {
      SumZero(f, types);
    } else {
      var front, t := cs[..|cs| - 1], cs[|cs| - 1].factType;
      assert Types(front) <= types by {
        assert forall i :: 0 <= i < |front| ==> front[i] == cs[i];
      }
      CountsPartition(front, types);
      var g := (t: string) => TypeCount(front, t) as real;
      SumRemove(f, types, t);
      SumRemove(g, types, t);
      SumCongruent(f, g, types - {t});
    }
  }

  lemma TypeCountOfMultiset(a: seq<Candidate>, b: seq<Candidate>, c: seq<Candidate>, t: string)
    requires multiset(a) + multiset(b) == multiset(c)
    ensures TypeCount(a, t) + TypeCount(b, t) == TypeCount(c, t)
  {
    CountIsSize(a, t);
    CountIsSize(b, t);
    CountIsSize(c, t);
    var keep := (x: Candidate) => x.factType == t;
    forall x
      ensures multiset(Filter(c, keep))[x] == multiset(Filter(a, keep))[x] + multiset(Filter(b, keep))[x]
    {
      FilterCount(a, keep, x);
      FilterCount(b, keep, x);
      FilterCount(c, keep, x);
    }
    assert multiset(Filter(c, keep)) == multiset(Filter(a, keep)) + multiset(Filter(b, keep));
    assert |Filter(c, keep)| == |multiset(Filter(c, keep))|;
  }

  lemma {:induction false} CountIsSize(cs: seq<Candidate>, t: string)
    ensures TypeCount(cs, t) == |Filter(cs, (x: Candidate) => x.factType == t)|
    decreases |cs|
  {
    if cs != [] {
      CountIsSize(cs[..|cs| - 1], t);
    }
  }

  // No type is ever picked beyond its cap.
  lemma {:induction false} WithinCap(candidates: seq<Candidate>, p: Policy, r: Run, k: nat, t: string)
    requires IsRun(candidates, p, r) && k <= |r.selected|
    ensures TypeCount(r.selected[..k], t) <= if p.maxPerFactType < 0 then 0 else p.maxPerFactType
  {
    if k > 0 {
      WithinCap(candidates, p, r, k - 1, t);
      assert PickOk(p, r, k - 1);
      assert r.selected[..k][..k - 1] == r.selected[..k - 1];
    }
  }

  lemma {:induction false} SomeOfType(cs: seq<Candidate>, t: string)
    ensures TypeCount(cs, t) > 0 ==> exists i :: 0 <= i < |cs| && cs[i].factType == t
    decreases |cs|
  {
    if cs != [] {
      SomeOfType(cs[..|cs| - 1], t);
    }
  }

  // When no one left may be picked, every type is picked up to its cap.
  lemma ExhaustedType(candidates: seq<Candidate>, p: Policy, r: Run, t: string)
    requires IsRun(candidates, p, r)
    requires forall i :: 0 <= i < |Left(r)| ==> !Eligible(p, r.selected, Left(r)[i])
    ensures TypeCount(r.selected, t) == TypeCap(p, candidates, t)
  {
    var n := |r.selected|;
    PicksAndRest(candidates, p, r, n);
    WithinCap(candidates, p, r, n, t);
    assert r.selected[..n] == r.selected;
    TypeCountOfMultiset(r.selected, Left(r), candidates, t);
    SomeOfType(Left(r), t);
  }

  lemma AtMostCap(candidates: seq<Candidate>, p: Policy, r: Run, t: string)
    requires IsRun(candidates, p, r)
    ensures TypeCount(r.selected, t) <= TypeCap(p, candidates, t)
  {
    var n := |r.selected|;
    PicksAndRest(candidates, p, r, n);
    WithinCap(candidates, p, r, n, t);
    assert r.selected[..n] == r.selected;
    TypeCountOfMultiset(r.selected, Left(r), candidates, t);
  }

  function CapOf(p: Policy, candidates: seq<Candidate>): string -> real {
    (t: string) => TypeCap(p, candidates, t) as real
  }

  lemma SelectedTypes(candidates: seq<Candidate>, p: Policy, r: Run)
    requires IsRun(candidates, p, r)
    ensures Types(r.selected) <= Types(candidates)
  {
    var n := |r.selected|;
    PicksAndRest(candidates, p, r, n);
    assert r.selected[..n] == r.selected;
    forall i | 0 <= i < n
      ensures r.selected[i].factType in Types(candidates)
    {
      assert r.selected[i] in multiset(candidates);
    }
  }

  /** The selection has as many items as the limit and the caps of the types present allow. */
  lemma SelectionSize(candidates: seq<Candidate>, p: Policy, r: Run, limit: int)
    requires IsRun(candidates, p, r) && Finished(p, r, limit)
    ensures
      var room := Sum(CapOf(p, candidates), Types(candidates));
      |r.selected| as real == if limit <= 0 then 0.0 else if limit as real <= room then limit as real else room
  {
    var types := Types(candidates);
    var count := (t: string) => TypeCount(r.selected, t) as real;
    SelectedTypes(candidates, p, r);
    CountsPartition(r.selected, types);
    forall t | t in types
      ensures count(t) <= CapOf(p, candidates)(t)
    {
      AtMostCap(candidates, p, r, t);
    }
    SumMonotone(count, CapOf(p, candidates), types);
    if |r.selected| < limit {
      forall t | t in types
        ensures count(t) == CapOf(p, candidates)(t)
      {
        ExhaustedType(candidates, p, r, t);
      }
      SumCongruent(count, CapOf(p, candidates), types);
    }
  }

  // ---- what the penalty counts

  /** The places in the selection whose candidate has the property. */
  ghost function Places(cs: seq<Candidate>, p: Candidate -> bool): set<int> {
    set i | 0 <= i < |cs| && p(cs[i])
  }

  lemma PlacesNext(cs: seq<Candidate>, c: Candidate, p: Candidate -> bool)
    ensures |Places(cs + [c], p)| == |Places(cs, p)| + if p(c) then 1 else 0
  {
    assert Places(cs + [c], p) == Places(cs, p) + if p(c) then {|cs|} else {};
  }

  lemma {:induction false} TypePlaces(cs: seq<Candidate>, t: string)
    ensures TypeCount(cs, t) == |Places(cs, (x: Candidate) => x.factType == t)|
    decreases |cs|
  {
    if cs != [] {
      TypePlaces(cs[..|cs| - 1], t);
      PlacesNext(cs[..|cs| - 1], cs[|cs| - 1], (x: Candidate) => x.factType == t);
      SplitLast(cs);
    }
  }

  lemma {:induction false} SlotPlaces(cs: seq<Candidate>, c: Candidate)
    ensures SlotCount(cs, c) == |Places(cs, (x: Candidate) => c.slotKey != "" && x.slotKey == c.slotKey)|
    decreases |cs|
  {
    if cs != [] {
      SlotPlaces(cs[..|cs| - 1], c);
      PlacesNext(cs[..|cs| - 1], cs[|cs| - 1], (x: Candidate) => c.slotKey != "" && x.slotKey == c.slotKey);
      SplitLast(cs);
    }
  }

  /** The penalty is due once for each candidate selected of the same type, and once for each in the same slot. */
  lemma PenaltyMeaning(p: Policy, selected: seq<Candidate>, c: Candidate)
    ensures
      var ofType := |Places(selected, (x: Candidate) => x.factType == c.factType)|;
      var inSlot := |Places(selected, (x: Candidate) => c.slotKey != "" && x.slotKey == c.slotKey)|;
      Penalty(p, selected, c) == ofType as real * p.diversityPenalty + inSlot as real * p.diversityPenalty
  {
    TypePlaces(selected, c.factType);
    SlotPlaces(selected, c);
  }

  // ---- scores never rise along the selection

  lemma CountsMonotone(a: seq<Candidate>, c: Candidate, x: Candidate)
    ensures TypeCount(a + [c], x.factType) >= TypeCount(a, x.factType)
    ensures SlotCount(a + [c], x) >= SlotCount(a, x)
  {
    assert (a + [c])[..|a|] == a;
  }

  lemma PenaltyMonotone(p: Policy, a: seq<Candidate>, c: Candidate, x: Candidate)
    requires p.diversityPenalty >= 0.0
    ensures FinalScore(p, a + [c], x) <= FinalScore(p, a, x)
  {
    CountsMonotone(a, c, x);
    var longer := a + [c];
    PenaltyOfCounts(
      p.diversityPenalty, TypeCount(a, x.factType), SlotCount(a, x), TypeCount(longer, x.factType),
      SlotCount(longer, x));
  }

  lemma PenaltyOfCounts(d: real, t1: nat, s1: nat, t2: nat, s2: nat)
    requires d >= 0.0 && t1 <= t2 && s1 <= s2
    ensures t1 as real * d + s1 as real * d <= t2 as real * d + s2 as real * d
  {
    MoreIsMore(t1, t2, d);
    MoreIsMore(s1, s2, d);
  }

  lemma MoreIsMore(n: nat, m: nat, x: real)
    requires n <= m && x >= 0.0
    ensures n as real * x <= m as real * x
  {
  }

  /** With a penalty that is not negative the recorded scores never rise. */
  lemma ScoresNeverRise(candidates: seq<Candidate>, p: Policy, r: Run, k: nat)
    requires IsRun(candidates, p, r) && p.diversityPenalty >= 0.0 && k + 1 < |r.selected|
    ensures FinalScore(p, r.selected[..k + 1], r.selected[k + 1]) <= FinalScore(p, r.selected[..k], r.selected[k])
  {
    assert PickOk(p, r, k) && PickOk(p, r, k + 1);
    var before, c, x := r.selected[..k], r.selected[k], r.selected[k + 1];
    assert r.selected[..k + 1] == before + [c];
    var i, j := r.picks[k], r.picks[k + 1];
    var place := if j < i then j else j + 1;
    assert r.rests[k][place] == x;
    CountsMonotone(before, c, x);
    assert Eligible(p, before, x);
    assert NotBetter(p, before, r.rests[k][place], r.rests[k][i], place < i);
    PenaltyMonotone(p, before, c, x);
  }

  ghost predicate Rises(p: Policy, r: Run, k: nat) {
    && k + 1 < |r.selected|
    && FinalScore(p, r.selected[..k + 1], r.selected[k + 1]) > FinalScore(p, r.selected[..k], r.selected[k])
  }

  /** Scores of finished runs under this policy and limit never rise, whatever the candidates. */
  ghost predicate NeverRises(p: Policy, limit: int) {
    forall candidates, r, k: nat {:trigger IsRun(candidates, p, r), Rises(p, r, k)} ::
      IsRun(candidates, p, r) && Finished(p, r, limit) ==> !Rises(p, r, k)
  }

  /** A negative penalty is a reward: two equal candidates of one slot already come out rising. */
  lemma NegativePenaltyRises(p: Policy, limit: int) returns (twins: seq<Candidate>, r: Run)
    requires p.diversityPenalty < 0.0 && p.maxPerFactType >= 1 && limit >= 2
    ensures IsRun(twins, p, r) && Finished(p, r, limit) && Rises(p, r, 0)
  {
    var c, d := Candidate(1, "preference", "editor", 1.0), Candidate(2, "constraint", "editor", 1.0);
    twins := [c, d];
    r := Run([c, d], [[c, d], [d], []], [0, 0]);
    assert [c, d][..0] == [] && [c, d][..1] == [c] && [c][..0] == [];
    assert FinalScore(p, [], c) == 1.0 && FinalScore(p, [], d) == 1.0;
    assert RemoveAt([c, d], 0) == [d] && RemoveAt([d], 0) == [];
    assert IsPick(p, [], [c, d], 0) && PickOk(p, r, 0);
    assert TypeCount([c], "constraint") == 0 && SlotCount([c], d) == 1;
    assert IsPick(p, [c], [d], 0) && PickOk(p, r, 1);
  }

  lemma PickNeedsCap(candidates: seq<Candidate>, p: Policy, r: Run)
    requires IsRun(candidates, p, r)
    ensures r.selected != [] ==> p.maxPerFactType >= 1
  {
    if r.selected != [] {
      assert PickOk(p, r, 0);
    }
  }

  /**
   * The recorded scores never rise exactly under a penalty that is not negative, or a cap or limit
   * that leaves no two picks to compare.
   */
  lemma NeverRisesIff(p: Policy, limit: int)
    ensures NeverRises(p, limit) <==> p.diversityPenalty >= 0.0 || p.maxPerFactType < 1 || limit < 2
  {
    if p.diversityPenalty >= 0.0 || p.maxPerFactType < 1 || limit < 2 {
      forall candidates, r, k: nat | IsRun(candidates, p, r) && Finished(p, r, limit)
        ensures !Rises(p, r, k)
      {
        PickNeedsCap(candidates, p, r);
        if p.diversityPenalty >= 0.0 && k + 1 < |r.selected| {
          ScoresNeverRise(candidates, p, r, k);
        }
      }
    } else {
      var twins, r := NegativePenaltyRises(p, limit);
      assert IsRun(twins, p, r) && Rises(p, r, 0);
    }
  }
}
