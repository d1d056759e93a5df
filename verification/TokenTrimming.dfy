/**
 * Trimming a context to its token budget (src/core/context.ts): six loops that drop turns, summaries,
 * invariants, playbooks, associated knowledge and relevant knowledge, in this order.
 */
module TokenTrimming {
  import opened Wrappers
  import opened Sequences

  datatype Turn = Turn(id: int, priority: real, createdAt: int, tokenEstimate: int)

  datatype Summary = Summary(id: int, summary: string)

  datatype Invariant = Invariant(id: string, severity: string, title: string, instruction: string)

  datatype Playbook = Playbook(id: int, title: string, description: string, instructions: string)

  datatype Knowledge = Knowledge(id: int, fact: string)

  datatype WorkingMemory = WorkingMemory(summary: string, keyEntities: seq<string>, topicTags: seq<string>)

  datatype Trace = Trace(
    invariants: seq<string>, turns: seq<int>, summaries: seq<int>, playbooks: seq<int>, associated: seq<int>,
    knowledge: seq<int>
  )

  datatype Context = Context(
    turns: seq<Turn>, summaries: seq<Summary>, invariants: seq<Invariant>, playbooks: seq<Playbook>,
    associated: seq<Knowledge>, relevant: seq<Knowledge>, trustedCore: seq<Knowledge>, taskRelevant: seq<Knowledge>,
    trace: Trace
  )

  // What does not change while trimming.
  datatype Setting = Setting(estimator: string -> int, working: Option<WorkingMemory>, tokenBudget: int)

  // ---- the token estimate

  function WorkingTokens(e: Setting): int {
    match e.working
    case None => 0
    case Some(w) => e.estimator(w.summary) + Total(w.keyEntities, e.estimator) + Total(w.topicTags, e.estimator)
  }

  function TurnTokens(): Turn -> int {
    (t: Turn) => t.tokenEstimate
  }

  function FactTokens(e: Setting): Knowledge -> int {
    (k: Knowledge) => e.estimator(k.fact)
  }

  function SummaryTokens(e: Setting): Summary -> int {
    (s: Summary) => e.estimator(s.summary)
  }

  function PlaybookTokens(e: Setting): Playbook -> int {
    (p: Playbook) => e.estimator(p.title) + e.estimator(p.description) + e.estimator(p.instructions)
  }

  function InvariantTokens(e: Setting): Invariant -> int {
    (i: Invariant) => e.estimator(i.title) + e.estimator(i.instruction)
  }

  function RecomputeTokens(e: Setting, c: Context): int {
    Total(c.turns, TurnTokens()) + WorkingTokens(e)
    + Total(c.relevant, FactTokens(e))
    + Total(c.summaries, SummaryTokens(e))
    + Total(c.playbooks, PlaybookTokens(e))
    + Total(c.associated, FactTokens(e))
    + Total(c.invariants, InvariantTokens(e))
  }

  predicate Fits(e: Setting, c: Context) {
    RecomputeTokens(e, c) <= e.tokenBudget
  }

  // ---- what each loop drops next

  predicate Lower(a: Turn, b: Turn) {
    a.priority < b.priority || (a.priority == b.priority && a.createdAt < b.createdAt)
  }

  /** The place of the first of the lowest turns. */
  function LowestIndex(turns: seq<Turn>): (r: nat)
    requires turns != []
    ensures r < |turns|
    ensures forall i :: 0 <= i < r ==> Lower(turns[r], turns[i])
    ensures forall i :: r <= i < |turns| ==> !Lower(turns[i], turns[r])
  {
    if |turns| == 1 then 0
    else
      var front, last := turns[..|turns| - 1], turns[|turns| - 1];
      var r := LowestIndex(front);
      if Lower(last, front[r]) then |turns| - 1 else r
  }

  function DropLowestPriorityTurn(turns: seq<Turn>): seq<Turn> {
    if turns == [] then turns
    else
      var removal := turns[LowestIndex(turns)];
      Filter(turns, (t: Turn) => t.id != removal.id)
  }

  predicate Critical(i: Invariant) {
    i.severity == "critical"
  }

  /** The last place of an invariant that is not critical, or -1. */
  function RemovableIndex(invariants: seq<Invariant>): (r: int)
    ensures -1 <= r < |invariants|
    ensures r >= 0 ==> !Critical(invariants[r])
    ensures forall i :: r < i < |invariants| ==> Critical(invariants[i])
  {
    if invariants == [] then -1
    else if !Critical(invariants[|invariants| - 1]) then |invariants| - 1
    else RemovableIndex(invariants[..|invariants| - 1])
  }

  function PlaybookSize(e: Setting, p: Playbook): int {
    e.estimator(p.title + "\n" + p.description + "\n" + p.instructions)
  }

  function Sizes(e: Setting, ps: seq<Playbook>): (r: seq<int>)
    ensures |r| == |ps| && forall i :: 0 <= i < |r| ==> r[i] == PlaybookSize(e, ps[i])
  {
    seq(|ps|, i requires 0 <= i < |ps| => PlaybookSize(e, ps[i]))
  }

  /** The place of the first of the largest sizes. */
  ghost predicate IsLargest(sizes: seq<int>, r: nat) {
    && r < |sizes|
    && (forall i :: 0 <= i < r ==> sizes[i] < sizes[r])
    && (forall i :: r <= i < |sizes| ==> sizes[i] <= sizes[r])
  }

  function LargestIndex(sizes: seq<int>): (r: nat)
    requires sizes != []
    ensures IsLargest(sizes, r)
  {
    if |sizes| == 1 then 0
    else
      var r := LargestIndex(sizes[..|sizes| - 1]);
      if sizes[|sizes| - 1] > sizes[r] then |sizes| - 1 else r
  }

  function Front<T>(s: seq<T>): seq<T>
    requires s != []
  {
    s[..|s| - 1]
  }

  predicate Has(ks: seq<Knowledge>, id: int) {
    exists i :: 0 <= i < |ks| && ks[i].id == id
  }

  function StillIn(kept: seq<Knowledge>): Knowledge -> bool {
    (k: Knowledge) => Has(kept, k.id)
  }

  // ---- the drop order

  function DropTurn(c: Context): Context
    requires c.turns != []
  {
    var removed := c.turns[LowestIndex(c.turns)];
    c.(turns := DropLowestPriorityTurn(c.turns), trace := c.trace.(turns := c.trace.turns + [removed.id]))
  }

  function DropSummary(c: Context): Context
    requires c.summaries != []
  {
    var removed := c.summaries[|c.summaries| - 1];
    c.(summaries := Front(c.summaries), trace := c.trace.(summaries := c.trace.summaries + [removed.id]))
  }

  function DropInvariant(c: Context): Context
    requires RemovableIndex(c.invariants) >= 0
  {
    var i := RemovableIndex(c.invariants);
    c.(
      invariants := RemoveAt(c.invariants, i),
      trace := c.trace.(invariants := c.trace.invariants + [c.invariants[i].id]))
  }

  function DropPlaybook(e: Setting, c: Context): Context
    requires c.playbooks != []
  {
    var i := LargestIndex(Sizes(e, c.playbooks));
    c.(playbooks := RemoveAt(c.playbooks, i), trace := c.trace.(playbooks := c.trace.playbooks + [c.playbooks[i].id]))
  }

  function DropAssociated(c: Context): Context
    requires c.associated != []
  {
    var removed := c.associated[|c.associated| - 1];
    c.(associated := Front(c.associated), trace := c.trace.(associated := c.trace.associated + [removed.id]))
  }

  function DropRelevant(c: Context): Context
    requires c.relevant != []
  {
    var removed, kept := c.relevant[|c.relevant| - 1], Front(c.relevant);
    c.(
      relevant := kept,
      trustedCore := Filter(c.trustedCore, StillIn(kept)), taskRelevant := Filter(c.taskRelevant, StillIn(kept)),
      trace := c.trace.(knowledge := c.trace.knowledge + [removed.id]))
  }

  /** The single next drop, in the fixed order of the six categories. */
  function DropNext(e: Setting, c: Context): Option<Context> {
    if c.turns != [] then Some(DropTurn(c))
    else if c.summaries != [] then Some(DropSummary(c))
    else if RemovableIndex(c.invariants) >= 0 then Some(DropInvariant(c))
    else if c.playbooks != [] then Some(DropPlaybook(e, c))
    else if c.associated != [] then Some(DropAssociated(c))
    else if c.relevant != [] then Some(DropRelevant(c))
    else None
  }

  function Size(c: Context): nat {
    |c.turns| + |c.summaries| + |c.invariants| + |c.playbooks| + |c.associated| + |c.relevant|
  }

  lemma TurnGoes(turns: seq<Turn>)
    requires turns != []
    ensures |DropLowestPriorityTurn(turns)| < |turns|
  {
    var removal := turns[LowestIndex(turns)];
    SomethingFiltered(turns, (t: Turn) => t.id != removal.id, LowestIndex(turns));
  }

  lemma {:induction false} SomethingFiltered<T>(s: seq<T>, keep: T -> bool, i: nat)
    requires i < |s| && !keep(s[i])
    ensures |Filter(s, keep)| < |s|
    decreases |s|
  {
    if i < |s| - 1 {
      SomethingFiltered(s[..|s| - 1], keep, i);
    }
  }

  lemma DropShrinks(e: Setting, c: Context)
    requires DropNext(e, c).Some?
    ensures Size(DropNext(e, c).value) < Size(c)
  {
    if c.turns != [] {
      TurnGoes(c.turns);
    }
  }

  /** The first context along the drop order that fits, or the end of the order. */
  function Trimmed(e: Setting, c: Context): Context
    decreases Size(c)
  {
    if Fits(e, c) then c
    else
      match DropNext(e, c)
      case None => c
      case Some(next) =>
        DropShrinks(e, c);
        Trimmed(e, next)
  }

  // ---- the six loops

  method TrimTurns(e: Setting, c: Context) returns (r: Context, tokenEstimate: int)
    ensures Trimmed(e, r) == Trimmed(e, c) && tokenEstimate == RecomputeTokens(e, r)
    ensures tokenEstimate <= e.tokenBudget || r.turns == []
  {
    r := c;
    tokenEstimate := RecomputeTokens(e, r);
    while tokenEstimate > e.tokenBudget && |r.turns| > 0
      invariant Trimmed(e, r) == Trimmed(e, c) && tokenEstimate == RecomputeTokens(e, r)
      decreases |r.turns|
    {
      TurnGoes(r.turns);
      r := DropTurn(r);
      tokenEstimate := RecomputeTokens(e, r);
    }
  }

  method TrimSummaries(e: Setting, c: Context, estimate: int) returns (r: Context, tokenEstimate: int)
    requires estimate == RecomputeTokens(e, c) && (estimate <= e.tokenBudget || c.turns == [])
    ensures Trimmed(e, r) == Trimmed(e, c) && tokenEstimate == RecomputeTokens(e, r)
    ensures tokenEstimate <= e.tokenBudget || (r.turns == [] && r.summaries == [])
  {
    r, tokenEstimate := c, estimate;
    while tokenEstimate > e.tokenBudget && |r.summaries| > 0
      invariant Trimmed(e, r) == Trimmed(e, c) && tokenEstimate == RecomputeTokens(e, r)
      invariant tokenEstimate <= e.tokenBudget || r.turns == []
      decreases |r.summaries|
    {
      r := DropSummary(r);
      tokenEstimate := RecomputeTokens(e, r);
    }
  }

  method TrimInvariants(e: Setting, c: Context, estimate: int) returns (r: Context, tokenEstimate: int)
    requires estimate == RecomputeTokens(e, c) && (estimate <= e.tokenBudget || (c.turns == [] && c.summaries == []))
    ensures Trimmed(e, r) == Trimmed(e, c) && tokenEstimate == RecomputeTokens(e, r)
    ensures tokenEstimate <= e.tokenBudget ||
      (r.turns == [] && r.summaries == [] && RemovableIndex(r.invariants) < 0)
  {
    r, tokenEstimate := c, estimate;
    while tokenEstimate > e.tokenBudget && RemovableIndex(r.invariants) >= 0
      invariant Trimmed(e, r) == Trimmed(e, c) && tokenEstimate == RecomputeTokens(e, r)
      invariant tokenEstimate <= e.tokenBudget || (r.turns == [] && r.summaries == [])
      decreases |r.invariants|
    {
      r := DropInvariant(r);
      tokenEstimate := RecomputeTokens(e, r);
    }
  }

  method FindLargest(sizes: seq<int>) returns (worstIdx: nat)
    requires sizes != []
    ensures worstIdx == LargestIndex(sizes)
  {
    worstIdx := 0;
    for i := 1 to |sizes|
      invariant IsLargest(sizes[..i], worstIdx)
    {
      if sizes[i] > sizes[worstIdx] {
        worstIdx := i;
      }
    }
    assert sizes[..|sizes|] == sizes;
  }

  method TrimPlaybooks(e: Setting, c: Context, estimate: int) returns (r: Context, tokenEstimate: int)
    requires estimate == RecomputeTokens(e, c) && (estimate <= e.tokenBudget || Early(c))
    ensures Trimmed(e, r) == Trimmed(e, c) && tokenEstimate == RecomputeTokens(e, r)
    ensures tokenEstimate <= e.tokenBudget || (Early(r) && r.playbooks == [])
  {
    r, tokenEstimate := c, estimate;
    while tokenEstimate > e.tokenBudget && |r.playbooks| > 0
      invariant Trimmed(e, r) == Trimmed(e, c) && tokenEstimate == RecomputeTokens(e, r)
      invariant tokenEstimate <= e.tokenBudget || Early(r)
      decreases |r.playbooks|
    {
      var worstIdx := FindLargest(Sizes(e, r.playbooks));
      ghost var before := r;
      r := r.(
        playbooks := RemoveAt(r.playbooks, worstIdx),
        trace := r.trace.(playbooks := r.trace.playbooks + [r.playbooks[worstIdx].id]));
      assert r == DropPlaybook(e, before);
      tokenEstimate := RecomputeTokens(e, r);
    }
  }

  // Turns, summaries and removable invariants are all gone.
  predicate Early(c: Context) {
    c.turns == [] && c.summaries == [] && RemovableIndex(c.invariants) < 0
  }

  method TrimAssociated(e: Setting, c: Context, estimate: int) returns (r: Context, tokenEstimate: int)
    requires estimate == RecomputeTokens(e, c) && (estimate <= e.tokenBudget || (Early(c) && c.playbooks == []))
    ensures Trimmed(e, r) == Trimmed(e, c) && tokenEstimate == RecomputeTokens(e, r)
    ensures tokenEstimate <= e.tokenBudget || (Early(r) && r.playbooks == [] && r.associated == [])
  {
    r, tokenEstimate := c, estimate;
    while tokenEstimate > e.tokenBudget && |r.associated| > 0
      invariant Trimmed(e, r) == Trimmed(e, c) && tokenEstimate == RecomputeTokens(e, r)
      invariant tokenEstimate <= e.tokenBudget || (Early(r) && r.playbooks == [])
      decreases |r.associated|
    {
      r := DropAssociated(r);
      tokenEstimate := RecomputeTokens(e, r);
    }
  }

  method TrimRelevant(e: Setting, c: Context, estimate: int) returns (r: Context, tokenEstimate: int)
    requires estimate == RecomputeTokens(e, c)
    requires estimate <= e.tokenBudget || (Early(c) && c.playbooks == [] && c.associated == [])
    ensures r == Trimmed(e, c) && tokenEstimate == RecomputeTokens(e, r)
  {
    r, tokenEstimate := c, estimate;
    while tokenEstimate > e.tokenBudget && |r.relevant| > 0
      invariant Trimmed(e, r) == Trimmed(e, c) && tokenEstimate == RecomputeTokens(e, r)
      invariant tokenEstimate <= e.tokenBudget || (Early(r) && r.playbooks == [] && r.associated == [])
      decreases |r.relevant|
    {
      r := DropRelevant(r);
      tokenEstimate := RecomputeTokens(e, r);
    }
  }

  /** The cascade ends at the first context of the drop order that fits, with its true estimate. */
  method TrimContext(e: Setting, c: Context) returns (r: Context, tokenEstimate: int)
    ensures r == Trimmed(e, c) && tokenEstimate == RecomputeTokens(e, r)
  {
    r, tokenEstimate := TrimTurns(e, c);
    r, tokenEstimate := TrimSummaries(e, r, tokenEstimate);
    r, tokenEstimate := TrimInvariants(e, r, tokenEstimate);
    r, tokenEstimate := TrimPlaybooks(e, r, tokenEstimate);
    r, tokenEstimate := TrimAssociated(e, r, tokenEstimate);
    r, tokenEstimate := TrimRelevant(e, r, tokenEstimate);
  }

  // ---- the drop order as a whole

  /** The context after k drops, if there are that many. */
  function After(e: Setting, c: Context, k: nat): Option<Context>
    decreases k
  {
    if k == 0 then Some(c)
    else
      match DropNext(e, c)
      case None => None
      case Some(next) => After(e, next, k - 1)
  }

  /** The result is the first context along the order that fits; only the end of the order may not fit. */
  lemma FirstThatFits(e: Setting, c: Context) returns (k: nat)
    ensures After(e, c, k) == Some(Trimmed(e, c))
    ensures forall j :: 0 <= j < k ==> FailsAt(e, c, j)
    ensures Fits(e, Trimmed(e, c)) || DropNext(e, Trimmed(e, c)) == None
  {
    EndsWell(e, c);
    k := ReachedAfter(e, c);
  }

  lemma {:induction false} ReachedAfter(e: Setting, c: Context) returns (k: nat)
    ensures After(e, c, k) == Some(Trimmed(e, c)) && forall j :: 0 <= j < k ==> FailsAt(e, c, j)
    decreases Size(c)
  {
    k := 0;
    if !Fits(e, c) && DropNext(e, c).Some? {
      DropShrinks(e, c);
      var next := DropNext(e, c).value;
      var n := ReachedAfter(e, next);
      k := n + 1;
      TrimmedNext(e, c, next);
      AfterNext(e, c, next, n);
      NoneFitsBefore(e, c, next, n);
    }
  }

  lemma TrimmedNext(e: Setting, c: Context, next: Context)
    requires !Fits(e, c) && DropNext(e, c) == Some(next)
    ensures Trimmed(e, c) == Trimmed(e, next)
  {
  }

  ghost predicate FailsAt(e: Setting, c: Context, j: nat) {
    After(e, c, j).Some? && !Fits(e, After(e, c, j).value)
  }

  lemma NoneFitsBefore(e: Setting, c: Context, next: Context, n: nat)
    requires DropNext(e, c) == Some(next) && !Fits(e, c) && forall j :: 0 <= j < n ==> FailsAt(e, next, j)
    ensures forall j :: 0 <= j < n + 1 ==> FailsAt(e, c, j)
  {
    forall j | 0 <= j < n + 1
      ensures FailsAt(e, c, j)
    {
      if j > 0 {
        AfterNext(e, c, next, j - 1);
        assert FailsAt(e, next, j - 1);
      }
    }
  }

  lemma AfterNext(e: Setting, c: Context, next: Context, j: nat)
    requires DropNext(e, c) == Some(next)
    ensures After(e, c, j + 1) == After(e, next, j)
  {
  }

  lemma {:induction false} EndsWell(e: Setting, c: Context)
    ensures Fits(e, Trimmed(e, c)) || DropNext(e, Trimmed(e, c)) == None
    decreases Size(c)
  {
    if !Fits(e, c) && DropNext(e, c).Some? {
      DropShrinks(e, c);
      EndsWell(e, DropNext(e, c).value);
    }
  }

  /** Some context along the order fits exactly when the result does. */
  lemma FitsIfAnyDoes(e: Setting, c: Context, k: nat)
    requires After(e, c, k).Some? && Fits(e, After(e, c, k).value)
    ensures Fits(e, Trimmed(e, c))
    decreases k
  {
    if !Fits(e, c) {
      FitsIfAnyDoes(e, DropNext(e, c).value, k - 1);
    }
  }

  // Each category in turn: nothing is touched before everything earlier in the order is gone.
  ghost predicate Untouched(c: Context, r: Context) {
    && (r.summaries != c.summaries ==> r.turns == [])
    && (r.invariants != c.invariants ==> r.turns == [] && r.summaries == [])
    && (r.playbooks != c.playbooks ==> Early(r))
    && (r.associated != c.associated ==> Early(r) && r.playbooks == [])
    && (r.relevant != c.relevant ==> Early(r) && r.playbooks == [] && r.associated == [])
  }

  // What is gone stays gone.
  ghost predicate GoneStaysGone(c: Context, r: Context) {
    && (c.turns == [] ==> r.turns == []) && (c.summaries == [] ==> r.summaries == [])
    && (Early(c) ==> Early(r))
    && (c.playbooks == [] ==> r.playbooks == []) && (c.associated == [] ==> r.associated == [])
  }

  lemma {:induction false} LaterStays(e: Setting, c: Context)
    ensures GoneStaysGone(c, Trimmed(e, c))
    decreases Size(c)
  {
    if !Fits(e, c) && DropNext(e, c).Some? {
      DropShrinks(e, c);
      StepInOrder(e, c);
      LaterStays(e, DropNext(e, c).value);
    }
  }

  lemma StepInOrder(e: Setting, c: Context)
    requires DropNext(e, c).Some?
    ensures Untouched(c, DropNext(e, c).value) && GoneStaysGone(c, DropNext(e, c).value)
  {
  }

  lemma OrderComposes(c: Context, next: Context, r: Context)
    requires Untouched(c, next) && Untouched(next, r) && GoneStaysGone(next, r)
    ensures Untouched(c, r)
  {
  }

  /** A category loses something only when all categories before it have nothing left to lose. */
  lemma {:induction false} OrderRespected(e: Setting, c: Context)
    ensures Untouched(c, Trimmed(e, c))
    decreases Size(c)
  {
    if !Fits(e, c) && DropNext(e, c).Some? {
      DropShrinks(e, c);
      var next := DropNext(e, c).value;
      StepInOrder(e, c);
      OrderRespected(e, next);
      LaterStays(e, next);
      OrderComposes(c, next, Trimmed(e, next));
    }
  }

  // ---- what survives

  lemma RemoveKeepsFilter<T>(s: seq<T>, i: nat, keep: T -> bool)
    requires i < |s| && !keep(s[i])
    ensures Filter(RemoveAt(s, i), keep) == Filter(s, keep)
  {
    SplitAround(s, i);
    MiddleDropped(s[..i], s[i], s[i + 1..], keep);
  }

  lemma MiddleDropped<T>(a: seq<T>, x: T, b: seq<T>, keep: T -> bool)
    requires !keep(x)
    ensures Filter(a + [x] + b, keep) == Filter(a + b, keep)
  {
    Cut3(a + [x] + b, a, [x], b, keep);
    FilterConcat(a, b, keep);
  }

  /** Critical invariants survive whatever the budget, in their order. */
  lemma {:induction false} CriticalsSurvive(e: Setting, c: Context)
    ensures Filter(Trimmed(e, c).invariants, Critical) == Filter(c.invariants, Critical)
    decreases Size(c)
  {
    if !Fits(e, c) && DropNext(e, c).Some? {
      DropShrinks(e, c);
      var next := DropNext(e, c).value;
      CriticalsSurvive(e, next);
      if next.invariants != c.invariants {
        RemoveKeepsFilter(c.invariants, RemovableIndex(c.invariants), Critical);
      }
    }
  }

  /** So no invariant of critical severity is lost. */
  lemma NoCriticalDropped(e: Setting, c: Context, i: Invariant)
    requires i in c.invariants && i.severity == "critical"
    ensures i in Trimmed(e, c).invariants
  {
    CriticalsSurvive(e, c);
    FilterMember(c.invariants, Critical, i);
    FilterMember(Trimmed(e, c).invariants, Critical, i);
  }

  /** The invariant dropped is the last that is not critical. */
  lemma DroppedInvariantIsLast(c: Context, k: nat)
    requires RemovableIndex(c.invariants) >= 0 && k < |c.invariants|
    ensures
      var r := RemovableIndex(c.invariants);
      && c.invariants[r].severity != "critical" && (k > r ==> c.invariants[k].severity == "critical")
      && DropInvariant(c).invariants == c.invariants[..r] + c.invariants[r + 1..]
  {
  }

  // ---- which turn and which playbook go first

  /** The turn dropped has the least priority, of those the least time, and of those the first place. */
  lemma DroppedTurnIsLowest(turns: seq<Turn>, i: nat)
    requires i < |turns|
    ensures
      var r := LowestIndex(turns);
      && turns[r].priority <= turns[i].priority
      && (turns[i].priority == turns[r].priority ==> turns[r].createdAt <= turns[i].createdAt)
      && (turns[i].priority == turns[r].priority && turns[i].createdAt == turns[r].createdAt ==> r <= i)
  {
    assert if i < LowestIndex(turns) then Lower(turns[LowestIndex(turns)], turns[i])
           else !Lower(turns[i], turns[LowestIndex(turns)]);
  }

  /** The playbook dropped has the largest estimate of its text as shown, and of those the first place. */
  lemma DroppedPlaybookIsLargest(e: Setting, c: Context, i: nat)
    requires i < |c.playbooks|
    ensures
      var r := LargestIndex(Sizes(e, c.playbooks));
      var p, q := c.playbooks[r], c.playbooks[i];
      var dropped := e.estimator(p.title + "\n" + p.description + "\n" + p.instructions);
      var kept := e.estimator(q.title + "\n" + q.description + "\n" + q.instructions);
      && kept <= dropped && (kept == dropped ==> r <= i)
      && DropPlaybook(e, c).playbooks == c.playbooks[..r] + c.playbooks[r + 1..]
  {
    var sizes := Sizes(e, c.playbooks);
    assert sizes[i] == PlaybookSize(e, c.playbooks[i]);
  }

  // ---- kept and dropped make up the original

  function TurnIds(s: seq<Turn>): (r: seq<int>)
    ensures |r| == |s| && forall i :: 0 <= i < |r| ==> r[i] == s[i].id
  {
    seq(|s|, i requires 0 <= i < |s| => s[i].id)
  }

  function InvariantIds(s: seq<Invariant>): (r: seq<string>)
    ensures |r| == |s| && forall i :: 0 <= i < |r| ==> r[i] == s[i].id
  {
    seq(|s|, i requires 0 <= i < |s| => s[i].id)
  }

  function PlaybookIds(s: seq<Playbook>): (r: seq<int>)
    ensures |r| == |s| && forall i :: 0 <= i < |r| ==> r[i] == s[i].id
  {
    seq(|s|, i requires 0 <= i < |s| => s[i].id)
  }

  function SummaryIds(s: seq<Summary>): (r: seq<int>)
    ensures |r| == |s| && forall i :: 0 <= i < |r| ==> r[i] == s[i].id
  {
    seq(|s|, i requires 0 <= i < |s| => s[i].id)
  }

  function KnowledgeIds(s: seq<Knowledge>): (r: seq<int>)
    ensures |r| == |s| && forall i :: 0 <= i < |r| ==> r[i] == s[i].id
  {
    seq(|s|, i requires 0 <= i < |s| => s[i].id)
  }

  ghost predicate UniqueTurns(s: seq<Turn>) {
    forall i, j :: 0 <= i < j < |s| ==> s[i].id != s[j].id
  }

  // Kept and dropped ids of a context, category by category.
  ghost predicate SameTurns(a: Context, b: Context) {
    multiset(TurnIds(a.turns)) + multiset(a.trace.turns) == multiset(TurnIds(b.turns)) + multiset(b.trace.turns)
  }

  ghost predicate SameInvariants(a: Context, b: Context) {
    multiset(InvariantIds(a.invariants)) + multiset(a.trace.invariants) ==
    multiset(InvariantIds(b.invariants)) + multiset(b.trace.invariants)
  }

  ghost predicate SamePlaybooks(a: Context, b: Context) {
    multiset(PlaybookIds(a.playbooks)) + multiset(a.trace.playbooks) ==
    multiset(PlaybookIds(b.playbooks)) + multiset(b.trace.playbooks)
  }

  // Categories trimmed from the end: the dropped ids are the missing tail, last first.
  ghost predicate TailDropped<T>(was: seq<T>, now: seq<T>, wasTrace: seq<T>, trace: seq<T>) {
    && now <= was && |trace| == |wasTrace| + |was| - |now| && wasTrace <= trace
    && forall i :: |now| <= i < |was| ==> trace[|wasTrace| + |was| - 1 - i] == was[i]
  }

  ghost predicate SameTails(c: Context, r: Context) {
    && r.summaries <= c.summaries && r.associated <= c.associated && r.relevant <= c.relevant
    && TailDropped(SummaryIds(c.summaries), SummaryIds(r.summaries), c.trace.summaries, r.trace.summaries)
    && TailDropped(KnowledgeIds(c.associated), KnowledgeIds(r.associated), c.trace.associated, r.trace.associated)
    && TailDropped(KnowledgeIds(c.relevant), KnowledgeIds(r.relevant), c.trace.knowledge, r.trace.knowledge)
  }

  lemma FilterOutOne(s: seq<Turn>, i: nat)
    requires UniqueTurns(s) && i < |s|
    ensures Filter(s, (t: Turn) => t.id != s[i].id) == RemoveAt(s, i)
  {
    var keep := (t: Turn) => t.id != s[i].id;
    SplitAround(s, i);
    FilterAround(s[..i], s[i], s[i + 1..], keep);
  }

  lemma FilterAround(a: seq<Turn>, x: Turn, b: seq<Turn>, keep: Turn -> bool)
    requires !keep(x) && (forall i :: 0 <= i < |a| ==> keep(a[i])) && forall i :: 0 <= i < |b| ==> keep(b[i])
    ensures Filter(a + [x] + b, keep) == a + b
  {
    FilterConcat(a + [x], b, keep);
    FilterSnoc(a, x, keep);
    FilterAll(a, keep);
    FilterAll(b, keep);
    assert a + [] == a;
  }

  lemma RemovedPlusRest<T>(s: seq<T>, i: nat)
    requires i < |s|
    ensures multiset(RemoveAt(s, i)) + multiset{s[i]} == multiset(s)
  {
    assert s == s[..i] + [s[i]] + s[i + 1..];
  }

  lemma TurnStep(c: Context)
    requires c.turns != [] && UniqueTurns(c.turns)
    ensures SameTurns(c, DropTurn(c)) && UniqueTurns(DropTurn(c).turns)
  {
    var i := LowestIndex(c.turns);
    FilterOutOne(c.turns, i);
    RemovedPlusRest(TurnIds(c.turns), i);
    IdsWithout(c.turns, i);
  }

  lemma IdsWithout(s: seq<Turn>, i: nat)
    requires i < |s|
    ensures TurnIds(RemoveAt(s, i)) == RemoveAt(TurnIds(s), i)
    ensures UniqueTurns(s) ==> UniqueTurns(RemoveAt(s, i))
  {
  }

  lemma InvariantStep(c: Context)
    requires RemovableIndex(c.invariants) >= 0
    ensures SameInvariants(c, DropInvariant(c))
  {
    var i := RemovableIndex(c.invariants);
    RemovedPlusRest(InvariantIds(c.invariants), i);
    assert InvariantIds(RemoveAt(c.invariants, i)) == RemoveAt(InvariantIds(c.invariants), i);
  }

  lemma PlaybookStep(e: Setting, c: Context)
    requires c.playbooks != []
    ensures SamePlaybooks(c, DropPlaybook(e, c))
  {
    var i := LargestIndex(Sizes(e, c.playbooks));
    RemovedPlusRest(PlaybookIds(c.playbooks), i);
    assert PlaybookIds(RemoveAt(c.playbooks, i)) == RemoveAt(PlaybookIds(c.playbooks), i);
  }

  lemma PickStep(e: Setting, c: Context)
    requires DropNext(e, c).Some?
    ensures SameInvariants(c, DropNext(e, c).value) && SamePlaybooks(c, DropNext(e, c).value)
  {
    var next := DropNext(e, c).value;
    if c.turns != [] || c.summaries != [] {
      assert next.invariants == c.invariants && next.playbooks == c.playbooks;
    } else if RemovableIndex(c.invariants) >= 0 {
      InvariantStep(c);
    } else if c.playbooks != [] {
      PlaybookStep(e, c);
    }
  }

  /** Every turn, invariant and playbook is either kept or named as dropped, and none is both. */
  lemma {:induction false} KeptPlusDropped(e: Setting, c: Context)
    requires UniqueTurns(c.turns)
    ensures SameTurns(c, Trimmed(e, c)) && SameInvariants(c, Trimmed(e, c)) && SamePlaybooks(c, Trimmed(e, c))
    decreases Size(c)
  {
    if !Fits(e, c) && DropNext(e, c).Some? {
      var next := DropNext(e, c).value;
      DropShrinks(e, c);
      PickStep(e, c);
      NextTurns(e, c);
      KeptPlusDropped(e, next);
      SameComposes(c, next, Trimmed(e, next));
    }
  }

  lemma NextTurns(e: Setting, c: Context)
    requires UniqueTurns(c.turns) && DropNext(e, c).Some?
    ensures SameTurns(c, DropNext(e, c).value) && UniqueTurns(DropNext(e, c).value.turns)
  {
    if c.turns != [] {
      TurnStep(c);
    }
  }

  lemma SameComposes(a: Context, b: Context, c: Context)
    ensures SameTurns(a, b) && SameTurns(b, c) ==> SameTurns(a, c)
    ensures SameInvariants(a, b) && SameInvariants(b, c) ==> SameInvariants(a, c)
    ensures SamePlaybooks(a, b) && SamePlaybooks(b, c) ==> SamePlaybooks(a, c)
  {
  }

  ghost predicate SameOrDropsLast<T>(was: seq<T>, next: seq<T>, wasTrace: seq<T>, nextTrace: seq<T>) {
    || (next == was && nextTrace == wasTrace)
    || (was != [] && next == was[..|was| - 1] && nextTrace == wasTrace + [was[|was| - 1]])
  }

  lemma TailFacts(e: Setting, c: Context)
    requires DropNext(e, c).Some?
    ensures
      var next := DropNext(e, c).value;
      && SameOrDropsLast(SummaryIds(c.summaries), SummaryIds(next.summaries), c.trace.summaries, next.trace.summaries)
      && SameOrDropsLast(
           KnowledgeIds(c.associated), KnowledgeIds(next.associated), c.trace.associated, next.trace.associated)
      && SameOrDropsLast(KnowledgeIds(c.relevant), KnowledgeIds(next.relevant), c.trace.knowledge, next.trace.knowledge)
      && next.summaries <= c.summaries && next.associated <= c.associated && next.relevant <= c.relevant
  {
  }

  lemma TailStep<T>(was: seq<T>, next: seq<T>, now: seq<T>, wasTrace: seq<T>, nextTrace: seq<T>, trace: seq<T>)
    requires SameOrDropsLast(was, next, wasTrace, nextTrace) && TailDropped(next, now, nextTrace, trace)
    ensures TailDropped(was, now, wasTrace, trace)
  {
  }

  /** Summaries and knowledge keep a prefix, and the trace names what followed it, last first. */
  lemma {:induction false} TailsDropped(e: Setting, c: Context)
    ensures SameTails(c, Trimmed(e, c))
    decreases Size(c)
  {
    if !Fits(e, c) && DropNext(e, c).Some? {
      DropShrinks(e, c);
      var next := DropNext(e, c).value;
      TailFacts(e, c);
      TailsDropped(e, next);
      TailsCompose(c, next, Trimmed(e, next));
    }
  }

  lemma TailsCompose(c: Context, next: Context, r: Context)
    requires SameTails(next, r)
    requires SameOrDropsLast(
      SummaryIds(c.summaries), SummaryIds(next.summaries), c.trace.summaries, next.trace.summaries)
    requires SameOrDropsLast(
      KnowledgeIds(c.associated), KnowledgeIds(next.associated), c.trace.associated, next.trace.associated)
    requires SameOrDropsLast(
      KnowledgeIds(c.relevant), KnowledgeIds(next.relevant), c.trace.knowledge, next.trace.knowledge)
    requires next.summaries <= c.summaries && next.associated <= c.associated && next.relevant <= c.relevant
    ensures SameTails(c, r)
  {
    TailStep(SummaryIds(c.summaries), SummaryIds(next.summaries), SummaryIds(r.summaries),
      c.trace.summaries, next.trace.summaries, r.trace.summaries);
    TailStep(KnowledgeIds(c.associated), KnowledgeIds(next.associated), KnowledgeIds(r.associated),
      c.trace.associated, next.trace.associated, r.trace.associated);
    TailStep(KnowledgeIds(c.relevant), KnowledgeIds(next.relevant), KnowledgeIds(r.relevant),
      c.trace.knowledge, next.trace.knowledge, r.trace.knowledge);
  }

  // ---- trusted core and task-relevant knowledge

  ghost predicate UniqueIds(s: seq<Knowledge>) {
    forall i, j :: 0 <= i < j < |s| ==> s[i].id != s[j].id
  }

  lemma SplitStep(c: Context)
    requires c.relevant != [] && UniqueIds(c.relevant) && c.relevant == c.trustedCore + c.taskRelevant
    ensures DropRelevant(c).relevant == DropRelevant(c).trustedCore + DropRelevant(c).taskRelevant
  {
    var kept := Front(c.relevant);
    var keep, last := StillIn(kept), c.relevant[|c.relevant| - 1];
    FilterConcat(c.trustedCore, c.taskRelevant, keep);
    forall i | 0 <= i < |kept|
      ensures keep(kept[i])
    {
      assert Has(kept, kept[i].id);
    }
    FilterAll(kept, keep);
    assert !Has(kept, last.id);
    FilterSnoc(kept, last, keep);
    SplitLast(c.relevant);
  }

  /** Relevant knowledge stays the trusted core and then the knowledge chosen for relevance. */
  lemma {:induction false} RelevantIsCoreThenTask(e: Setting, c: Context)
    requires UniqueIds(c.relevant) && c.relevant == c.trustedCore + c.taskRelevant
    ensures Trimmed(e, c).relevant == Trimmed(e, c).trustedCore + Trimmed(e, c).taskRelevant
    decreases Size(c)
  {
    if !Fits(e, c) && DropNext(e, c).Some? {
      DropShrinks(e, c);
      var next := DropNext(e, c).value;
      if next.relevant != c.relevant {
        SplitStep(c);
      }
      RelevantIsCoreThenTask(e, next);
    }
  }

  // ---- what dropping saves

  lemma TotalWithout<T>(s: seq<T>, i: nat, size: T -> int)
    requires i < |s|
    ensures Total(s, size) == Total(RemoveAt(s, i), size) + size(s[i])
  {
    SplitAround(s, i);
    TotalAround(s[..i], s[i], s[i + 1..], size);
  }

  lemma TotalAround<T>(a: seq<T>, x: T, b: seq<T>, size: T -> int)
    ensures Total(a + [x] + b, size) == Total(a + b, size) + size(x)
  {
    TotalConcat(a + [x], b, size);
    TotalSnoc(a, x, size);
    TotalConcat(a, b, size);
  }

  /** The tokens of what is dropped next. */
  function NextTokens(e: Setting, c: Context): int
    requires DropNext(e, c).Some?
  {
    if c.turns != [] then c.turns[LowestIndex(c.turns)].tokenEstimate
    else if c.summaries != [] then e.estimator(c.summaries[|c.summaries| - 1].summary)
    else if RemovableIndex(c.invariants) >= 0 then
      var i := c.invariants[RemovableIndex(c.invariants)];
      e.estimator(i.title) + e.estimator(i.instruction)
    else if c.playbooks != [] then
      var p := c.playbooks[LargestIndex(Sizes(e, c.playbooks))];
      e.estimator(p.title) + e.estimator(p.description) + e.estimator(p.instructions)
    else if c.associated != [] then e.estimator(c.associated[|c.associated| - 1].fact)
    else e.estimator(c.relevant[|c.relevant| - 1].fact)
  }

  /** A drop lowers the estimate by exactly the tokens of what it drops. */
  lemma DropSavesItsTokens(e: Setting, c: Context)
    requires UniqueTurns(c.turns) && DropNext(e, c).Some?
    ensures RecomputeTokens(e, c) == RecomputeTokens(e, DropNext(e, c).value) + NextTokens(e, c)
  {
    if c.turns != [] {
      var i := LowestIndex(c.turns);
      FilterOutOne(c.turns, i);
      TotalWithout(c.turns, i, TurnTokens());
    } else if c.summaries != [] {
    } else if RemovableIndex(c.invariants) >= 0 {
      TotalWithout(c.invariants, RemovableIndex(c.invariants), InvariantTokens(e));
    } else if c.playbooks != [] {
      TotalWithout(c.playbooks, LargestIndex(Sizes(e, c.playbooks)), PlaybookTokens(e));
    }
  }

  ghost predicate NoNegativeTokens(e: Setting, c: Context) {
    (forall text :: e.estimator(text) >= 0) && forall i :: 0 <= i < |c.turns| ==> c.turns[i].tokenEstimate >= 0
  }

  /** With estimates that are never negative, trimming never raises the total. */
  lemma {:induction false} TrimmingNeverAdds(e: Setting, c: Context)
    requires UniqueTurns(c.turns) && NoNegativeTokens(e, c)
    ensures RecomputeTokens(e, Trimmed(e, c)) <= RecomputeTokens(e, c)
    decreases Size(c)
  {
    if !Fits(e, c) && DropNext(e, c).Some? {
      DropShrinks(e, c);
      DropSavesItsTokens(e, c);
      DropStaysNonNegative(e, c);
      TrimmingNeverAdds(e, DropNext(e, c).value);
    }
  }

  lemma DropStaysNonNegative(e: Setting, c: Context)
    requires UniqueTurns(c.turns) && NoNegativeTokens(e, c) && DropNext(e, c).Some?
    ensures NextTokens(e, c) >= 0
    ensures UniqueTurns(DropNext(e, c).value.turns) && NoNegativeTokens(e, DropNext(e, c).value)
  {
    if c.turns != [] {
      TurnStep(c);
      FilterOutOne(c.turns, LowestIndex(c.turns));
    }
  }

  // ---- what the estimate counts

  function WorkingTexts(e: Setting): seq<string> {
    if e.working == None then []
    else [e.working.value.summary] + e.working.value.keyEntities + e.working.value.topicTags
  }

  function Facts(ks: seq<Knowledge>): seq<string> {
    if ks == [] then [] else Facts(Front(ks)) + [ks[|ks| - 1].fact]
  }

  function SummaryTexts(ss: seq<Summary>): seq<string> {
    if ss == [] then [] else SummaryTexts(Front(ss)) + [ss[|ss| - 1].summary]
  }

  function PlaybookTexts(ps: seq<Playbook>): seq<string> {
    if ps == [] then []
    else
      var p := ps[|ps| - 1];
      PlaybookTexts(Front(ps)) + [p.title, p.description, p.instructions]
  }

  function InvariantTexts(rules: seq<Invariant>): seq<string> {
    if rules == [] then []
    else
      var i := rules[|rules| - 1];
      InvariantTexts(Front(rules)) + [i.title, i.instruction]
  }

  /** Every text of the context other than the turns, each as often as it is shown. */
  function Texts(e: Setting, c: Context): seq<string> {
    WorkingTexts(e) + Facts(c.relevant) + SummaryTexts(c.summaries) + PlaybookTexts(c.playbooks)
    + Facts(c.associated) + InvariantTexts(c.invariants)
  }

  lemma {:induction false} FactsCounted(e: Setting, ks: seq<Knowledge>)
    ensures Total(ks, FactTokens(e)) == Total(Facts(ks), e.estimator)
    decreases |ks|
  {
    if ks != [] {
      FactsCounted(e, Front(ks));
      TotalSnoc(Facts(Front(ks)), ks[|ks| - 1].fact, e.estimator);
    }
  }

  lemma {:induction false} SummariesCounted(e: Setting, ss: seq<Summary>)
    ensures Total(ss, SummaryTokens(e)) == Total(SummaryTexts(ss), e.estimator)
    decreases |ss|
  {
    if ss != [] {
      SummariesCounted(e, Front(ss));
      TotalSnoc(SummaryTexts(Front(ss)), ss[|ss| - 1].summary, e.estimator);
    }
  }

  lemma TotalOfTwo(a: string, b: string, size: string -> int)
    ensures Total([a, b], size) == size(a) + size(b)
  {
    TotalSnoc([], a, size);
    TotalSnoc([a], b, size);
    assert [] + [a] == [a] && [a] + [b] == [a, b];
  }

  lemma {:induction false} PlaybooksCounted(e: Setting, ps: seq<Playbook>)
    ensures Total(ps, PlaybookTokens(e)) == Total(PlaybookTexts(ps), e.estimator)
    decreases |ps|
  {
    if ps != [] {
      var p := ps[|ps| - 1];
      PlaybooksCounted(e, Front(ps));
      TotalConcat(PlaybookTexts(Front(ps)), [p.title, p.description, p.instructions], e.estimator);
      TotalOfTwo(p.title, p.description, e.estimator);
      TotalSnoc([p.title, p.description], p.instructions, e.estimator);
      assert [p.title, p.description] + [p.instructions] == [p.title, p.description, p.instructions];
    }
  }

  lemma {:induction false} InvariantsCounted(e: Setting, rules: seq<Invariant>)
    ensures Total(rules, InvariantTokens(e)) == Total(InvariantTexts(rules), e.estimator)
    decreases |rules|
  {
    if rules != [] {
      var i := rules[|rules| - 1];
      InvariantsCounted(e, Front(rules));
      TotalConcat(InvariantTexts(Front(rules)), [i.title, i.instruction], e.estimator);
      TotalOfTwo(i.title, i.instruction, e.estimator);
    }
  }

  lemma WorkingCounted(e: Setting)
    ensures WorkingTokens(e) == Total(WorkingTexts(e), e.estimator)
  {
    if e.working.Some? {
      var w := e.working.value;
      TotalConcat([w.summary] + w.keyEntities, w.topicTags, e.estimator);
      TotalConcat([w.summary], w.keyEntities, e.estimator);
      TotalSnoc([], w.summary, e.estimator);
      assert [] + [w.summary] == [w.summary];
    }
  }

  /** The estimate is the turns' own estimates and the estimate of every other text shown, each counted once. */
  lemma EstimateCountsEachText(e: Setting, c: Context)
    ensures RecomputeTokens(e, c) ==
      Total(c.turns, (t: Turn) => t.tokenEstimate) + Total(Texts(e, c), e.estimator)
  {
    WorkingCounted(e);
    FactsCounted(e, c.relevant);
    SummariesCounted(e, c.summaries);
    PlaybooksCounted(e, c.playbooks);
    FactsCounted(e, c.associated);
    InvariantsCounted(e, c.invariants);
    TextsTotal(e, c);
    assert Total(c.turns, TurnTokens()) == Total(c.turns, (t: Turn) => t.tokenEstimate) by {
      SameTotal(c.turns, TurnTokens(), (t: Turn) => t.tokenEstimate);
    }
  }

  lemma TextsTotal(e: Setting, c: Context)
    ensures Total(Texts(e, c), e.estimator) ==
      Total(WorkingTexts(e), e.estimator) + Total(Facts(c.relevant), e.estimator)
      + Total(SummaryTexts(c.summaries), e.estimator) + Total(PlaybookTexts(c.playbooks), e.estimator)
      + Total(Facts(c.associated), e.estimator) + Total(InvariantTexts(c.invariants), e.estimator)
  {
    var a := WorkingTexts(e) + Facts(c.relevant);
    var b := a + SummaryTexts(c.summaries);
    var d := b + PlaybookTexts(c.playbooks);
    var f := d + Facts(c.associated);
    TotalConcat(WorkingTexts(e), Facts(c.relevant), e.estimator);
    TotalConcat(a, SummaryTexts(c.summaries), e.estimator);
    TotalConcat(b, PlaybookTexts(c.playbooks), e.estimator);
    TotalConcat(d, Facts(c.associated), e.estimator);
    TotalConcat(f, InvariantTexts(c.invariants), e.estimator);
  }

  lemma {:induction false} SameTotal<T>(s: seq<T>, f: T -> int, g: T -> int)
    requires forall i :: 0 <= i < |s| ==> f(s[i]) == g(s[i])
    ensures Total(s, f) == Total(s, g)
    decreases |s|
  {
    if s != [] {
      SameTotal(s[..|s| - 1], f, g);
    }
  }

  // ---- when the budget is met

  /** What no trimming can remove: the working memory and the critical invariants. */
  function FixedTokens(e: Setting, c: Context): int {
    WorkingTokens(e) + Total(Filter(c.invariants, Critical), InvariantTokens(e))
  }

  lemma {:induction false} TotalNotNegative<T>(s: seq<T>, size: T -> int)
    requires forall i :: 0 <= i < |s| ==> size(s[i]) >= 0
    ensures Total(s, size) >= 0
    decreases |s|
  {
    if s != [] {
      TotalNotNegative(s[..|s| - 1], size);
    }
  }

  lemma {:induction false} FilteredTotal<T>(s: seq<T>, keep: T -> bool, size: T -> int)
    requires forall i :: 0 <= i < |s| ==> size(s[i]) >= 0
    ensures Total(Filter(s, keep), size) <= Total(s, size)
    decreases |s|
  {
    if s != [] {
      FilteredTotal(s[..|s| - 1], keep, size);
      TotalSnoc(Filter(s[..|s| - 1], keep), s[|s| - 1], size);
    }
  }

  lemma FixedIsLeast(e: Setting, c: Context)
    requires NoNegativeTokens(e, c)
    ensures FixedTokens(e, c) <= RecomputeTokens(e, c)
  {
    forall i | 0 <= i < |c.invariants|
      ensures InvariantTokens(e)(c.invariants[i]) >= 0
    {
      assert e.estimator(c.invariants[i].title) >= 0 && e.estimator(c.invariants[i].instruction) >= 0;
    }
    FilteredTotal(c.invariants, Critical, InvariantTokens(e));
    forall i | 0 <= i < |c.turns|
      ensures TurnTokens()(c.turns[i]) >= 0
    {
      assert c.turns[i].tokenEstimate >= 0;
    }
    TotalNotNegative(c.turns, TurnTokens());
    FactsNotNegative(e, c.relevant);
    forall i | 0 <= i < |c.summaries|
      ensures SummaryTokens(e)(c.summaries[i]) >= 0
    {
      assert e.estimator(c.summaries[i].summary) >= 0;
    }
    TotalNotNegative(c.summaries, SummaryTokens(e));
    PlaybooksNotNegative(e, c.playbooks);
    FactsNotNegative(e, c.associated);
  }

  lemma PlaybooksNotNegative(e: Setting, ps: seq<Playbook>)
    requires forall text :: e.estimator(text) >= 0
    ensures Total(ps, PlaybookTokens(e)) >= 0
  {
    forall i | 0 <= i < |ps|
      ensures PlaybookTokens(e)(ps[i]) >= 0
    {
      var p := ps[i];
      assert e.estimator(p.title) >= 0 && e.estimator(p.description) >= 0 && e.estimator(p.instructions) >= 0;
    }
    TotalNotNegative(ps, PlaybookTokens(e));
  }

  lemma FactsNotNegative(e: Setting, ks: seq<Knowledge>)
    requires forall text :: e.estimator(text) >= 0
    ensures Total(ks, FactTokens(e)) >= 0
  {
    forall i | 0 <= i < |ks|
      ensures FactTokens(e)(ks[i]) >= 0
    {
      assert e.estimator(ks[i].fact) >= 0;
    }
    TotalNotNegative(ks, FactTokens(e));
  }

  lemma NextNotNegative(e: Setting, c: Context)
    requires NoNegativeTokens(e, c) && DropNext(e, c).Some?
    ensures NoNegativeTokens(e, DropNext(e, c).value)
  {
    if c.turns != [] {
      var removal, kept := c.turns[LowestIndex(c.turns)], DropLowestPriorityTurn(c.turns);
      forall i | 0 <= i < |kept|
        ensures kept[i].tokenEstimate >= 0
      {
        var t := kept[i];
        FilterMember(c.turns, (t: Turn) => t.id != removal.id, t);
        assert t in kept && t in c.turns;
      }
    }
  }

  lemma {:induction false} TrimmedNotNegative(e: Setting, c: Context)
    requires NoNegativeTokens(e, c)
    ensures NoNegativeTokens(e, Trimmed(e, c))
    decreases Size(c)
  {
    if !Fits(e, c) && DropNext(e, c).Some? {
      DropShrinks(e, c);
      NextNotNegative(e, c);
      TrimmedNotNegative(e, DropNext(e, c).value);
    }
  }

  lemma NothingLeftIsFixed(e: Setting, c: Context)
    requires DropNext(e, c) == None
    ensures RecomputeTokens(e, c) == FixedTokens(e, c)
  {
    FilterAll(c.invariants, Critical);
    assert RecomputeTokens(e, c) == WorkingTokens(e) + Total(c.invariants, InvariantTokens(e));
  }

  /** With estimates that are never negative, the budget is met exactly when it holds what cannot be removed. */
  lemma BudgetMetIff(e: Setting, c: Context)
    requires NoNegativeTokens(e, c)
    ensures Fits(e, Trimmed(e, c)) <==> FixedTokens(e, c) <= e.tokenBudget
  {
    CriticalsSurvive(e, c);
    TrimmedNotNegative(e, c);
    FixedIsLeast(e, Trimmed(e, c));
    EndsWell(e, c);
    if DropNext(e, Trimmed(e, c)) == None {
      NothingLeftIsFixed(e, Trimmed(e, c));
    }
  }
}
