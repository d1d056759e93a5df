/**
 * Importing a bundle (src/core/bundles.ts) into a store of facts and playbooks, fact by fact, with
 * one of four ways to resolve a conflict.
 */
module BundleImport {
  import opened Wrappers
  import opened Sequences

  // The empty string stands for a missing slot key or normalised text.
  datatype Fact = Fact(
    id: nat, slotKey: string, knowledgeClass: string, normalizedFact: string, trustScore: real,
    confidenceScore: real, knowledgeState: string, retired: bool, superseded: bool, body: string
  )

  datatype Playbook = Playbook(title: string, status: string, body: string)

  datatype Bundle = Bundle(facts: seq<Fact>, playbooks: seq<Playbook>)

  datatype Resolution = Skip | Overwrite | Merge | TrustHigher

  datatype Outcome = Imported | Skipped | Overwritten | Merged

  datatype Counts = Counts(imported: nat, skipped: nat, overwritten: nat, merged: nat)

  datatype ImportOptions = ImportOptions(resolution: Resolution, preserveTrust: bool)

  // ---- the fact table as a value

  datatype Table = Table(facts: seq<Fact>, nextId: nat)

  predicate IsActive(f: Fact) {
    !f.retired && !f.superseded
  }

  function GetActive(t: Table): seq<Fact> {
    Filter(t.facts, IsActive)
  }

  function InsertFact(t: Table, f: Fact): Table {
    Table(t.facts + [f.(id := t.nextId, retired := false, superseded := false)], t.nextId + 1)
  }

  function ChangeAt(facts: seq<Fact>, id: nat, change: Fact -> Fact): (r: seq<Fact>)
    ensures |r| == |facts|
    ensures forall i :: 0 <= i < |r| ==> r[i] == if facts[i].id == id then change(facts[i]) else facts[i]
  {
    seq(|facts|, i requires 0 <= i < |facts| => if facts[i].id == id then change(facts[i]) else facts[i])
  }

  function Retire(t: Table, id: nat): Table {
    t.(facts := ChangeAt(t.facts, id, (f: Fact) => f.(retired := true)))
  }

  function SetTrust(t: Table, id: nat, trust: real): Table {
    t.(facts := ChangeAt(t.facts, id, (f: Fact) => f.(trustScore := trust)))
  }

  // ---- conflicts

  predicate SameSlot(e: Fact, f: Fact) {
    f.slotKey != "" && e.slotKey == f.slotKey && e.knowledgeClass == f.knowledgeClass
  }

  predicate SameText(e: Fact, f: Fact) {
    f.normalizedFact != "" && e.normalizedFact == f.normalizedFact
  }

  predicate Conflicts(e: Fact, f: Fact) {
    SameSlot(e, f) || SameText(e, f)
  }

  /** The first element with the property. */
  function Find<T>(s: seq<T>, p: T -> bool): (r: Option<T>)
    ensures r.Some? ==> r.value in s && p(r.value)
    ensures r.None? ==> forall i :: 0 <= i < |s| ==> !p(s[i])
  {
    if s == [] then None else if p(s[0]) then Some(s[0]) else Find(s[1..], p)
  }

  /** A fact in the same slot comes before one with the same text. */
  function FindConflictingFact(existing: seq<Fact>, incoming: Fact): Option<Fact> {
    var slot := Find(existing, (e: Fact) => SameSlot(e, incoming));
    if slot.Some? then slot else Find(existing, (e: Fact) => SameText(e, incoming))
  }

  function ResolveFactConflict(resolution: Resolution, existing: Fact, incoming: Fact): Outcome {
    match resolution
    case Skip => Skipped
    case Overwrite => Overwritten
    case Merge => Merged
    case TrustHigher => if incoming.trustScore > existing.trustScore then Overwritten else Skipped
  }

  function ToNewKnowledgeMemory(f: Fact, preserveTrust: bool): Fact {
    f.(
      trustScore := if preserveTrust then f.trustScore else f.confidenceScore,
      knowledgeState := if preserveTrust then f.knowledgeState else "provisional")
  }

  function Higher(a: real, b: real): real {
    if a >= b then a else b
  }

  // ---- what importing one fact, and all of them, does

  function OutcomeOf(t: Table, f: Fact, o: ImportOptions): Outcome {
    match FindConflictingFact(GetActive(t), f)
    case None => Imported
    case Some(conflict) => ResolveFactConflict(o.resolution, conflict, f)
  }

  function ImportOne(t: Table, f: Fact, o: ImportOptions): Table {
    var next := ToNewKnowledgeMemory(f, o.preserveTrust);
    match FindConflictingFact(GetActive(t), f)
    case None => InsertFact(t, next)
    case Some(conflict) =>
      match ResolveFactConflict(o.resolution, conflict, f)
      case Overwritten => InsertFact(Retire(t, conflict.id), next)
      case Merged => SetTrust(t, conflict.id, Higher(conflict.trustScore, f.trustScore))
      case _ => t
  }

  function ImportFacts(t: Table, facts: seq<Fact>, o: ImportOptions): Table {
    if facts == [] then t else ImportOne(ImportFacts(t, facts[..|facts| - 1], o), facts[|facts| - 1], o)
  }

  function Outcomes(t: Table, facts: seq<Fact>, o: ImportOptions): (r: seq<Outcome>)
    ensures |r| == |facts|
  {
    if facts == [] then []
    else
      var front, last := facts[..|facts| - 1], facts[|facts| - 1];
      Outcomes(t, front, o) + [OutcomeOf(ImportFacts(t, front, o), last, o)]
  }

  function CountOf(outcomes: seq<Outcome>, x: Outcome): nat {
    |Filter(outcomes, (y: Outcome) => y == x)|
  }

  function Tally(outcomes: seq<Outcome>): Counts {
    Counts(
      CountOf(outcomes, Imported), CountOf(outcomes, Skipped), CountOf(outcomes, Overwritten),
      CountOf(outcomes, Merged))
  }

  // ---- playbooks

  predicate IsListed(p: Playbook) {
    p.status == "draft" || p.status == "active"
  }

  function Titles(ps: seq<Playbook>): set<string> {
    set i | 0 <= i < |ps| :: ps[i].title
  }

  function ListedTitles(ps: seq<Playbook>): set<string> {
    Titles(Filter(ps, IsListed))
  }

  /** The playbooks added: those whose title neither the store nor an earlier one of the bundle has. */
  function NewPlaybooks(titles: set<string>, ps: seq<Playbook>): seq<Playbook> {
    if ps == [] then []
    else
      var front, last := ps[..|ps| - 1], ps[|ps| - 1];
      NewPlaybooks(titles, front) + if last.title in titles + Titles(front) then [] else [last]
  }

  // ---- the store and the import

  class Store {
    var facts: seq<Fact>
    var nextId: nat
    var playbooks: seq<Playbook>

    ghost function Value(): Table
      reads this
    {
      Table(facts, nextId)
    }

    constructor ()
      ensures Value() == Table([], 1) && playbooks == []
    {
      facts, nextId, playbooks := [], 1, [];
    }

    method InsertKnowledgeMemory(f: Fact)
      modifies this`facts, this`nextId
      ensures Value() == InsertFact(old(Value()), f)
    {
      facts := facts + [f.(id := nextId, retired := false, superseded := false)];
      nextId := nextId + 1;
    }

    method RetireKnowledgeMemory(id: nat)
      modifies this`facts
      ensures Value() == Retire(old(Value()), id)
    {
      facts := ChangeAt(facts, id, (f: Fact) => f.(retired := true));
    }

    method UpdateTrust(id: nat, trust: real)
      modifies this`facts
      ensures Value() == SetTrust(old(Value()), id, trust)
    {
      facts := ChangeAt(facts, id, (f: Fact) => f.(trustScore := trust));
    }
  }

  method ImportFact(store: Store, fact: Fact, o: ImportOptions) returns (outcome: Outcome)
    modifies store`facts, store`nextId
    ensures store.Value() == ImportOne(old(store.Value()), fact, o)
    ensures outcome == OutcomeOf(old(store.Value()), fact, o)
  {
    var existing := Filter(store.facts, IsActive);
    var conflict := FindConflictingFact(existing, fact);
    if conflict == None {
      store.InsertKnowledgeMemory(ToNewKnowledgeMemory(fact, o.preserveTrust));
      return Imported;
    }
    outcome := ResolveFactConflict(o.resolution, conflict.value, fact);
    if outcome == Overwritten {
      store.RetireKnowledgeMemory(conflict.value.id);
      store.InsertKnowledgeMemory(ToNewKnowledgeMemory(fact, o.preserveTrust));
    } else if outcome == Merged {
      store.UpdateTrust(conflict.value.id, Higher(conflict.value.trustScore, fact.trustScore));
    }
  }

  method ImportBundle(store: Store, bundle: Bundle, o: ImportOptions)
    returns (counts: Counts, playbooksImported: nat, playbooksSkipped: nat)
    modifies store
    ensures store.Value() == ImportFacts(old(store.Value()), bundle.facts, o)
    ensures counts == Tally(Outcomes(old(store.Value()), bundle.facts, o))
    ensures
      var added := NewPlaybooks(ListedTitles(old(store.playbooks)), bundle.playbooks);
      && store.playbooks == old(store.playbooks) + added
      && playbooksImported == |added| && playbooksImported + playbooksSkipped == |bundle.playbooks|
  {
    counts := ImportAllFacts(store, bundle.facts, o);
    playbooksImported, playbooksSkipped := ImportPlaybooks(store, bundle.playbooks);
  }

  method ImportAllFacts(store: Store, facts: seq<Fact>, o: ImportOptions) returns (counts: Counts)
    modifies store`facts, store`nextId
    ensures store.Value() == ImportFacts(old(store.Value()), facts, o)
    ensures counts == Tally(Outcomes(old(store.Value()), facts, o))
  {
    counts := Counts(0, 0, 0, 0);
    for i := 0 to |facts|
      invariant store.Value() == ImportFacts(old(store.Value()), facts[..i], o)
      invariant counts == Tally(Outcomes(old(store.Value()), facts[..i], o))
    {
      var outcome := ImportFact(store, facts[i], o);
      ImportNext(old(store.Value()), facts, i, o);
      TallyNext(Outcomes(old(store.Value()), facts[..i], o), outcome);
      counts := AddOne(counts, outcome);
    }
    assert facts[..|facts|] == facts;
  }

  lemma ImportNext(t: Table, facts: seq<Fact>, n: nat, o: ImportOptions)
    requires n < |facts|
    ensures ImportFacts(t, facts[..n + 1], o) == ImportOne(ImportFacts(t, facts[..n], o), facts[n], o)
    ensures Outcomes(t, facts[..n + 1], o) ==
      Outcomes(t, facts[..n], o) + [OutcomeOf(ImportFacts(t, facts[..n], o), facts[n], o)]
  {
    assert facts[..n + 1][..n] == facts[..n];
  }

  function AddOne(c: Counts, x: Outcome): Counts {
    match x
    case Imported => c.(imported := c.imported + 1)
    case Skipped => c.(skipped := c.skipped + 1)
    case Overwritten => c.(overwritten := c.overwritten + 1)
    case Merged => c.(merged := c.merged + 1)
  }

  lemma TallyNext(outcomes: seq<Outcome>, x: Outcome)
    ensures Tally(outcomes + [x]) == AddOne(Tally(outcomes), x)
  {
    FilterSnoc(outcomes, x, (y: Outcome) => y == Imported);
    FilterSnoc(outcomes, x, (y: Outcome) => y == Skipped);
    FilterSnoc(outcomes, x, (y: Outcome) => y == Overwritten);
    FilterSnoc(outcomes, x, (y: Outcome) => y == Merged);
  }

  method ImportPlaybooks(store: Store, playbooks: seq<Playbook>) returns (imported: nat, skipped: nat)
    modifies store`playbooks
    ensures
      var added := NewPlaybooks(ListedTitles(old(store.playbooks)), playbooks);
      && store.playbooks == old(store.playbooks) + added
      && imported == |added| && imported + skipped == |playbooks|
  {
    ghost var before := ListedTitles(store.playbooks);
    var existing := Filter(store.playbooks, IsListed);
    var existingTitles := set i | 0 <= i < |existing| :: existing[i].title;
    imported, skipped := 0, 0;
    for i := 0 to |playbooks|
      invariant existingTitles == before + Titles(playbooks[..i])
      invariant store.playbooks == old(store.playbooks) + NewPlaybooks(before, playbooks[..i])
      invariant imported == |NewPlaybooks(before, playbooks[..i])| && imported + skipped == i
    {
      var pb := playbooks[i];
      NewPlaybooksNext(before, playbooks, i);
      if pb.title in existingTitles {
        skipped := skipped + 1;
      } else {
        store.playbooks := store.playbooks + [pb];
        existingTitles := existingTitles + {pb.title};
        imported := imported + 1;
      }
    }
    assert playbooks[..|playbooks|] == playbooks;
  }

  lemma NewPlaybooksNext(titles: set<string>, ps: seq<Playbook>, i: nat)
    requires i < |ps|
    ensures
      var known := titles + Titles(ps[..i]);
      if ps[i].title in known then
        && titles + Titles(ps[..i + 1]) == known
        && NewPlaybooks(titles, ps[..i + 1]) == NewPlaybooks(titles, ps[..i])
      else
        && titles + Titles(ps[..i + 1]) == known + {ps[i].title}
        && NewPlaybooks(titles, ps[..i + 1]) == NewPlaybooks(titles, ps[..i]) + [ps[i]]
  {
    assert ps[..i + 1] == ps[..i] + [ps[i]] && ps[..i + 1][..i] == ps[..i];
    TitlesNext(ps[..i], ps[i]);
    assert NewPlaybooks(titles, ps[..i]) + [] == NewPlaybooks(titles, ps[..i]);
  }

  lemma TitlesNext(ps: seq<Playbook>, p: Playbook)
    ensures Titles(ps + [p]) == Titles(ps) + {p.title}
  {
    var longer := ps + [p];
    forall t | t in Titles(ps) + {p.title}
      ensures t in Titles(longer)
    {
      if t == p.title {
        assert longer[|ps|].title == t;
      } else {
        var i :| 0 <= i < |ps| && ps[i].title == t;
        assert longer[i].title == t;
      }
    }
    forall t | t in Titles(longer)
      ensures t in Titles(ps) + {p.title}
    {
      var i :| 0 <= i < |longer| && longer[i].title == t;
      assert i < |ps| ==> ps[i].title == t;
    }
  }

  // ---- every fact is counted once

  /** Each fact of the bundle has exactly one outcome. */
  lemma {:induction false} CountsAddUp(outcomes: seq<Outcome>)
    ensures
      var c := Tally(outcomes);
      c.imported + c.skipped + c.overwritten + c.merged == |outcomes|
    decreases |outcomes|
  {
    if outcomes != [] {
      CountsAddUp(outcomes[..|outcomes| - 1]);
      TallyNext(outcomes[..|outcomes| - 1], outcomes[|outcomes| - 1]);
      SplitLast(outcomes);
    }
  }

  // ---- one active fact per slot

  ghost predicate IdsOk(t: Table) {
    && (forall i :: 0 <= i < |t.facts| ==> t.facts[i].id < t.nextId)
    && (forall i, j :: 0 <= i < j < |t.facts| ==> t.facts[i].id != t.facts[j].id)
  }

  ghost predicate OneActivePerSlot(facts: seq<Fact>) {
    forall i, j :: 0 <= i < j < |facts| && IsActive(facts[i]) && IsActive(facts[j]) ==> !SameSlot(facts[i], facts[j])
  }

  ghost predicate NoActive(facts: seq<Fact>, p: Fact -> bool) {
    forall i :: 0 <= i < |facts| && IsActive(facts[i]) ==> !p(facts[i])
  }

  function SlotOf(f: Fact): Fact -> bool {
    (e: Fact) => SameSlot(e, f)
  }

  function TextOf(f: Fact): Fact -> bool {
    (e: Fact) => SameText(e, f)
  }

  // A search of the active facts finds an active fact of the table or shows there is none.
  lemma FindActive(t: Table, p: Fact -> bool)
    ensures
      var found := Find(GetActive(t), p);
      if found == None then NoActive(t.facts, p) else found.value in t.facts && IsActive(found.value) && p(found.value)
  {
    var active, found := GetActive(t), Find(GetActive(t), p);
    if found.Some? {
      FilterMember(t.facts, IsActive, found.value);
    } else {
      forall i | 0 <= i < |t.facts| && IsActive(t.facts[i])
        ensures !p(t.facts[i])
      {
        var x := t.facts[i];
        FilterMember(t.facts, IsActive, x);
        assert x in active;
        var k :| 0 <= k < |active| && active[k] == x;
      }
    }
  }

  /** What a conflict search means in terms of the table. */
  lemma ConflictMeaning(t: Table, f: Fact)
    ensures
      var found := FindConflictingFact(GetActive(t), f);
      if found == None then NoActive(t.facts, SlotOf(f)) && NoActive(t.facts, TextOf(f))
      else
        && found.value in t.facts && IsActive(found.value)
        && (SameSlot(found.value, f) || (NoActive(t.facts, SlotOf(f)) && SameText(found.value, f)))
  {
    FindActive(t, (e: Fact) => SameSlot(e, f));
    FindActive(t, (e: Fact) => SameText(e, f));
  }

  lemma RetireExactly(t: Table, e: Fact)
    requires IdsOk(t) && e in t.facts
    ensures forall i :: 0 <= i < |t.facts| ==>
      Retire(t, e.id).facts[i] == if t.facts[i] == e then e.(retired := true) else t.facts[i]
  {
    var k :| 0 <= k < |t.facts| && t.facts[k] == e;
  }

  lemma InsertKeepsSlots(t: Table, f: Fact)
    requires OneActivePerSlot(t.facts) && NoActive(t.facts, SlotOf(f))
    ensures OneActivePerSlot(InsertFact(t, f).facts)
  {
    forall i | 0 <= i < |t.facts| && IsActive(t.facts[i])
      ensures !SameSlot(t.facts[i], f)
    {
      assert !SlotOf(f)(t.facts[i]);
    }
  }

  lemma RetireFreesSlot(t: Table, e: Fact, f: Fact)
    requires IdsOk(t) && OneActivePerSlot(t.facts) && e in t.facts && IsActive(e)
    requires SameSlot(e, f) || NoActive(t.facts, SlotOf(f))
    ensures OneActivePerSlot(Retire(t, e.id).facts) && NoActive(Retire(t, e.id).facts, SlotOf(f))
  {
    RetireExactly(t, e);
    var after := Retire(t, e.id).facts;
    var k :| 0 <= k < |t.facts| && t.facts[k] == e;
    forall i | 0 <= i < |after| && IsActive(after[i])
      ensures !SlotOf(f)(after[i])
    {
      assert after[i] == t.facts[i] && i != k;
      if SameSlot(e, f) {
        assert if i < k then !SameSlot(t.facts[i], t.facts[k]) else !SameSlot(t.facts[k], t.facts[i]);
      } else {
        assert !SlotOf(f)(t.facts[i]);
      }
    }
  }

  lemma IdsKept(t: Table, f: Fact, o: ImportOptions)
    requires IdsOk(t)
    ensures IdsOk(ImportOne(t, f, o))
  {
    var next := ToNewKnowledgeMemory(f, o.preserveTrust);
    var found := FindConflictingFact(GetActive(t), f);
    if found == None {
      InsertKeepsIds(t, next);
    } else {
      SameIdsOk(t, Retire(t, found.value.id));
      InsertKeepsIds(Retire(t, found.value.id), next);
      SameIdsOk(t, SetTrust(t, found.value.id, Higher(found.value.trustScore, f.trustScore)));
    }
  }

  lemma InsertKeepsIds(t: Table, f: Fact)
    requires IdsOk(t)
    ensures IdsOk(InsertFact(t, f))
  {
  }

  lemma SameIdsOk(t: Table, u: Table)
    requires IdsOk(t) && u.nextId == t.nextId && |u.facts| == |t.facts|
    requires forall i :: 0 <= i < |t.facts| ==> u.facts[i].id == t.facts[i].id
    ensures IdsOk(u)
  {
  }

  lemma ImportOneKeepsSlots(t: Table, f: Fact, o: ImportOptions)
    requires IdsOk(t) && OneActivePerSlot(t.facts)
    ensures IdsOk(ImportOne(t, f, o)) && OneActivePerSlot(ImportOne(t, f, o).facts)
  {
    IdsKept(t, f, o);
    ConflictMeaning(t, f);
    var next := ToNewKnowledgeMemory(f, o.preserveTrust);
    match FindConflictingFact(GetActive(t), f)
    case None =>
      SlotCarriesOver(t.facts, f, next);
      InsertKeepsSlots(t, next);
    case Some(e) =>
      RetireFreesSlot(t, e, f);
      SlotCarriesOver(Retire(t, e.id).facts, f, next);
      InsertKeepsSlots(Retire(t, e.id), next);
      TrustKeepsSlots(t, e.id, Higher(e.trustScore, f.trustScore));
  }

  lemma SlotCarriesOver(facts: seq<Fact>, f: Fact, next: Fact)
    requires next.slotKey == f.slotKey && next.knowledgeClass == f.knowledgeClass && NoActive(facts, SlotOf(f))
    ensures NoActive(facts, SlotOf(next))
  {
    forall i | 0 <= i < |facts| && IsActive(facts[i])
      ensures !SlotOf(next)(facts[i])
    {
      assert !SlotOf(f)(facts[i]);
    }
  }

  lemma TrustKeepsSlots(t: Table, id: nat, trust: real)
    requires OneActivePerSlot(t.facts)
    ensures OneActivePerSlot(SetTrust(t, id, trust).facts)
  {
    var after := SetTrust(t, id, trust).facts;
    forall i, j | 0 <= i < j < |after| && IsActive(after[i]) && IsActive(after[j])
      ensures !SameSlot(after[i], after[j])
    {
      assert !SameSlot(t.facts[i], t.facts[j]);
    }
  }

  /** No import, however it resolves conflicts, leaves two active facts in one slot. */
  lemma {:induction false} ImportKeepsSlots(t: Table, facts: seq<Fact>, o: ImportOptions)
    requires IdsOk(t) && OneActivePerSlot(t.facts)
    ensures IdsOk(ImportFacts(t, facts, o)) && OneActivePerSlot(ImportFacts(t, facts, o).facts)
    decreases |facts|
  {
    if facts != [] {
      ImportKeepsSlots(t, facts[..|facts| - 1], o);
      ImportOneKeepsSlots(ImportFacts(t, facts[..|facts| - 1], o), facts[|facts| - 1], o);
    }
  }

  // ---- how many facts are active

  lemma {:induction false} RetireOne(facts: seq<Fact>, k: nat)
    requires k < |facts| && IsActive(facts[k])
    requires forall i, j :: 0 <= i < j < |facts| ==> facts[i].id != facts[j].id
    ensures
      var after := ChangeAt(facts, facts[k].id, (f: Fact) => f.(retired := true));
      |Filter(after, IsActive)| == |Filter(facts, IsActive)| - 1
    decreases |facts|
  {
    var id, change := facts[k].id, (f: Fact) => f.(retired := true);
    var front, last := facts[..|facts| - 1], facts[|facts| - 1];
    var after := ChangeAt(facts, id, change);
    assert after[..|facts| - 1] == ChangeAt(front, id, change);
    if k == |facts| - 1 {
      assert ChangeAt(front, id, change) == front;
    } else {
      RetireOne(front, k);
    }
  }

  lemma {:induction false} TrustKeepsActive(facts: seq<Fact>, id: nat, trust: real)
    ensures |Filter(ChangeAt(facts, id, (f: Fact) => f.(trustScore := trust)), IsActive)| == |Filter(facts, IsActive)|
    decreases |facts|
  {
    if facts != [] {
      var front, change := facts[..|facts| - 1], (f: Fact) => f.(trustScore := trust);
      TrustKeepsActive(front, id, trust);
      assert ChangeAt(facts, id, change)[..|facts| - 1] == ChangeAt(front, id, change);
    }
  }

  lemma InsertActive(t: Table, f: Fact)
    ensures |GetActive(InsertFact(t, f))| == |GetActive(t)| + 1
  {
    FilterSnoc(t.facts, f.(id := t.nextId, retired := false, superseded := false), IsActive);
  }

  lemma RetireActive(t: Table, e: Fact)
    requires IdsOk(t) && e in t.facts && IsActive(e)
    ensures |GetActive(Retire(t, e.id))| == |GetActive(t)| - 1
  {
    var k :| 0 <= k < |t.facts| && t.facts[k] == e;
    RetireOne(t.facts, k);
  }

  lemma OverwriteActive(t: Table, e: Fact, next: Fact)
    requires IdsOk(t) && e in t.facts && IsActive(e)
    ensures |GetActive(InsertFact(Retire(t, e.id), next))| == |GetActive(t)|
  {
    RetireActive(t, e);
    InsertActive(Retire(t, e.id), next);
  }

  lemma ActiveAfterOne(t: Table, f: Fact, o: ImportOptions)
    requires IdsOk(t)
    ensures |GetActive(ImportOne(t, f, o))| == |GetActive(t)| + if OutcomeOf(t, f, o) == Imported then 1 else 0
  {
    ConflictMeaning(t, f);
    var next := ToNewKnowledgeMemory(f, o.preserveTrust);
    var found := FindConflictingFact(GetActive(t), f);
    if found == None {
      InsertActive(t, next);
    } else if OutcomeOf(t, f, o) == Overwritten {
      OverwriteActive(t, found.value, next);
    } else if OutcomeOf(t, f, o) == Merged {
      TrustKeepsActive(t.facts, found.value.id, Higher(found.value.trustScore, f.trustScore));
    }
  }

  /** The number of active facts grows by exactly the number reported as imported. */
  lemma {:induction false} ActiveGrowsByImported(t: Table, facts: seq<Fact>, o: ImportOptions)
    requires IdsOk(t) && OneActivePerSlot(t.facts)
    ensures |GetActive(ImportFacts(t, facts, o))| == |GetActive(t)| + Tally(Outcomes(t, facts, o)).imported
    decreases |facts|
  {
    if facts != [] {
      var front, last := facts[..|facts| - 1], facts[|facts| - 1];
      ActiveGrowsByImported(t, front, o);
      ImportKeepsSlots(t, front, o);
      ActiveAfterOne(ImportFacts(t, front, o), last, o);
      TallyNext(Outcomes(t, front, o), OutcomeOf(ImportFacts(t, front, o), last, o));
    }
  }

  // ---- importing twice

  predicate Keyed(f: Fact) {
    f.slotKey != "" || f.normalizedFact != ""
  }

  /** Some active fact of the table conflicts with f. */
  ghost predicate Represented(t: Table, f: Fact) {
    exists i :: 0 <= i < |t.facts| && IsActive(t.facts[i]) && Conflicts(t.facts[i], f)
  }

  lemma RepresentedMeans(t: Table, f: Fact)
    ensures FindConflictingFact(GetActive(t), f).Some? <==> Represented(t, f)
  {
    ConflictMeaning(t, f);
    if Represented(t, f) {
      var i :| 0 <= i < |t.facts| && IsActive(t.facts[i]) && Conflicts(t.facts[i], f);
      assert SlotOf(f)(t.facts[i]) || TextOf(f)(t.facts[i]);
    }
  }

  /** Facts with one text are in one slot, or both in none. */
  predicate SlotFollowsText(e: Fact, f: Fact) {
    SameText(e, f) ==> e.slotKey == f.slotKey && (f.slotKey != "" ==> e.knowledgeClass == f.knowledgeClass)
  }

  /** In the bundle, and between the bundle and the active facts, slots follow texts. */
  ghost predicate SlotsFollowTexts(t: Table, facts: seq<Fact>) {
    && (forall i, f :: 0 <= i < |t.facts| && IsActive(t.facts[i]) && f in facts ==> SlotFollowsText(t.facts[i], f))
    && (forall e, f :: e in facts && f in facts ==> SlotFollowsText(e, f))
  }

  /** Importing facts of this list never loses what is represented: nothing is retired, or slots follow texts. */
  ghost predicate Steady(t: Table, facts: seq<Fact>, o: ImportOptions) {
    o.resolution in {Skip, Merge} || (IdsOk(t) && SlotsFollowTexts(t, facts))
  }

  lemma SteadyKept(t: Table, f: Fact, facts: seq<Fact>, o: ImportOptions)
    requires Steady(t, facts, o) && f in facts
    ensures Steady(ImportOne(t, f, o), facts, o)
  {
    if o.resolution !in {Skip, Merge} {
      IdsKept(t, f, o);
      var after := ImportOne(t, f, o);
      forall i, g | 0 <= i < |after.facts| && IsActive(after.facts[i]) && g in facts
        ensures SlotFollowsText(after.facts[i], g)
      {
        if i < |t.facts| {
          ConflictingRow(t, f, o, i);
          assert SlotFollowsText(t.facts[i], g);
        } else {
          assert SlotFollowsText(f, g);
        }
      }
    }
  }

  lemma {:induction false} SteadyThroughout(t: Table, facts: seq<Fact>, o: ImportOptions, part: seq<Fact>)
    requires Steady(t, facts, o) && forall f :: f in part ==> f in facts
    ensures Steady(ImportFacts(t, part, o), facts, o)
    decreases |part|
  {
    if part != [] {
      SteadyThroughout(t, facts, o, part[..|part| - 1]);
      SteadyKept(ImportFacts(t, part[..|part| - 1], o), part[|part| - 1], facts, o);
    }
  }

  /** Overwriting e with f keeps g represented exactly when f conflicts with g or another active fact does. */
  lemma OverwriteKeepsRepresented(t: Table, f: Fact, g: Fact, o: ImportOptions)
    requires IdsOk(t) && OutcomeOf(t, f, o) == Overwritten
    ensures
      var e := FindConflictingFact(GetActive(t), f).value;
      Represented(ImportOne(t, f, o), g) <==>
        Conflicts(f, g) ||
        exists i :: 0 <= i < |t.facts| && t.facts[i] != e && IsActive(t.facts[i]) && Conflicts(t.facts[i], g)
  {
    ConflictMeaning(t, f);
    var e, after := FindConflictingFact(GetActive(t), f).value, ImportOne(t, f, o).facts;
    forall i | 0 <= i < |t.facts|
      ensures after[i] == if t.facts[i] == e then e.(retired := true) else t.facts[i]
    {
      ConflictingRow(t, f, o, i);
    }
    ImportedRow(t, f, o);
    assert Conflicts(after[|t.facts|], g) <==> Conflicts(f, g);
    if exists i :: 0 <= i < |t.facts| && t.facts[i] != e && IsActive(t.facts[i]) && Conflicts(t.facts[i], g) {
      var i :| 0 <= i < |t.facts| && t.facts[i] != e && IsActive(t.facts[i]) && Conflicts(t.facts[i], g);
      assert IsActive(after[i]) && Conflicts(after[i], g);
    }
  }

  // What is represented stays so.
  lemma StaysRepresented(t: Table, f: Fact, g: Fact, facts: seq<Fact>, o: ImportOptions)
    requires Steady(t, facts, o) && f in facts && g in facts && Represented(t, f)
    ensures Represented(ImportOne(t, g, o), f)
  {
    var i :| 0 <= i < |t.facts| && IsActive(t.facts[i]) && Conflicts(t.facts[i], f);
    var after := ImportOne(t, g, o);
    if OutcomeOf(t, g, o) == Overwritten {
      ConflictMeaning(t, g);
      OverwriteKeepsRepresented(t, g, f, o);
      assert SlotFollowsText(t.facts[i], f) && SlotFollowsText(t.facts[i], g);
    } else {
      assert IsActive(after.facts[i]) && Conflicts(after.facts[i], f);
    }
  }

  lemma {:induction false} AllStayRepresented(t: Table, f: Fact, facts: seq<Fact>, o: ImportOptions, n: nat)
    requires Steady(t, facts, o) && f in facts && n <= |facts| && Represented(t, f)
    ensures Represented(ImportFacts(t, facts[..n], o), f)
  {
    if n > 0 {
      AllStayRepresented(t, f, facts, o, n - 1);
      ImportNext(t, facts, n - 1, o);
      SteadyThroughout(t, facts, o, facts[..n - 1]);
      StaysRepresented(ImportFacts(t, facts[..n - 1], o), f, facts[n - 1], facts, o);
    }
  }

  lemma ImportRepresents(t: Table, f: Fact, facts: seq<Fact>, o: ImportOptions)
    requires Steady(t, facts, o) && f in facts && Keyed(f)
    ensures Represented(ImportOne(t, f, o), f)
  {
    RepresentedMeans(t, f);
    if Represented(t, f) {
      StaysRepresented(t, f, f, facts, o);
    } else {
      var after := ImportOne(t, f, o);
      assert Conflicts(after.facts[|t.facts|], f);
    }
  }

  lemma {:induction false} ImportRepresentsAll(t: Table, facts: seq<Fact>, o: ImportOptions, i: nat, n: nat)
    requires Steady(t, facts, o) && i < n <= |facts| && Keyed(facts[i])
    ensures Represented(ImportFacts(t, facts[..n], o), facts[i])
    decreases n
  {
    ImportNext(t, facts, n - 1, o);
    SteadyThroughout(t, facts, o, facts[..n - 1]);
    if i == n - 1 {
      ImportRepresents(ImportFacts(t, facts[..n - 1], o), facts[i], facts, o);
    } else {
      ImportRepresentsAll(t, facts, o, i, n - 1);
      StaysRepresented(ImportFacts(t, facts[..n - 1], o), facts[i], facts[n - 1], facts, o);
    }
  }

  /**
   * Importing a bundle again with `skip` or `merge`, or in any way if slots follow texts, imports exactly the
   * facts that carry neither a slot key nor a normalised text: none, if there are none of those.
   */
  lemma SecondImport(t: Table, facts: seq<Fact>, o: ImportOptions, i: nat)
    requires Steady(t, facts, o) && i < |facts|
    ensures
      var once := ImportFacts(t, facts, o);
      OutcomeOf(ImportFacts(once, facts[..i], o), facts[i], o) == Imported <==> !Keyed(facts[i])
  {
    var once := ImportFacts(t, facts, o);
    RepresentedMeans(ImportFacts(once, facts[..i], o), facts[i]);
    if Keyed(facts[i]) {
      SteadyThroughout(t, facts, o, facts);
      RepresentedAfter(t, facts, o, i);
      AllStayRepresented(once, facts[i], facts, o, i);
    }
  }

  lemma RepresentedAfter(t: Table, facts: seq<Fact>, o: ImportOptions, i: nat)
    requires Steady(t, facts, o) && i < |facts| && Keyed(facts[i])
    ensures Represented(ImportFacts(t, facts, o), facts[i])
  {
    assert facts[..|facts|] == facts;
    ImportRepresentsAll(t, facts, o, i, |facts|);
  }

  // The newest row is the only active one, and has the keys of f.
  ghost predicate OnlyActive(t: Table, f: Fact) {
    && IdsOk(t) && t.facts != [] && IsActive(t.facts[|t.facts| - 1]) && SameKeys(t.facts[|t.facts| - 1], f)
    && forall i :: 0 <= i < |t.facts| - 1 ==> !IsActive(t.facts[i])
  }

  predicate SameKeys(e: Fact, f: Fact) {
    e.slotKey == f.slotKey && e.knowledgeClass == f.knowledgeClass && e.normalizedFact == f.normalizedFact
  }

  lemma OnlyActiveConflicts(t: Table, e: Fact, f: Fact)
    requires OnlyActive(t, e)
    ensures Represented(t, f) <==> Conflicts(e, f)
  {
    assert Conflicts(t.facts[|t.facts| - 1], f) <==> Conflicts(e, f);
  }

  lemma OverwriteOnly(t: Table, e: Fact, f: Fact, o: ImportOptions)
    requires OnlyActive(t, e) && Conflicts(e, f) && o.resolution == Overwrite
    ensures OnlyActive(ImportOne(t, f, o), f)
  {
    OnlyActiveConflicts(t, e, f);
    RepresentedMeans(t, f);
    ConflictMeaning(t, f);
    IdsKept(t, f, o);
    ImportedRow(t, f, o);
    forall i | 0 <= i < |t.facts|
      ensures !IsActive(ImportOne(t, f, o).facts[i])
    {
      ConflictingRow(t, f, o, i);
    }
  }

  /** Each fact conflicts with the one before. */
  ghost predicate Chain(facts: seq<Fact>) {
    forall i :: 0 <= i < |facts| - 1 ==> Conflicts(facts[i], facts[i + 1])
  }

  lemma FirstIsOnly(f: Fact, o: ImportOptions)
    ensures OnlyActive(ImportOne(Table([], 1), f, o), f)
  {
  }

  lemma {:induction false} LastOfChainIsOnly(facts: seq<Fact>, o: ImportOptions, n: nat)
    requires o.resolution == Overwrite && Chain(facts) && 0 < n <= |facts|
    ensures OnlyActive(ImportFacts(Table([], 1), facts[..n], o), facts[n - 1])
  {
    ImportNext(Table([], 1), facts, n - 1, o);
    if n > 1 {
      LastOfChainIsOnly(facts, o, n - 1);
      OverwriteOnly(ImportFacts(Table([], 1), facts[..n - 1], o), facts[n - 2], facts[n - 1], o);
    } else {
      FirstIsOnly(facts[0], o);
    }
  }

  /**
   * Where slots do not follow texts, overwriting can forget a fact: of a chain in which each fact overwrites
   * the one before, the second import imports the first again exactly when the last does not conflict with it.
   */
  lemma OverwriteChain(facts: seq<Fact>, o: ImportOptions)
    requires o.resolution == Overwrite && Chain(facts) && facts != []
    ensures OutcomeOf(ImportFacts(Table([], 1), facts, o), facts[0], o) == Imported <==>
      !Conflicts(facts[|facts| - 1], facts[0])
  {
    assert facts[..|facts|] == facts;
    LastOfChainIsOnly(facts, o, |facts|);
    var t := ImportFacts(Table([], 1), facts, o);
    OnlyActiveConflicts(t, facts[|facts| - 1], facts[0]);
    RepresentedMeans(t, facts[0]);
  }

  /** Such a chain: the slot's text changes, and with it goes the text of a fact without a slot. */
  lemma OverwriteForgets()
    ensures
      var first := Fact(1, "", "preference", "uses vim", 0.5, 0.5, "trusted", false, false, "");
      var second := Fact(2, "editor", "preference", "uses vim", 0.5, 0.5, "trusted", false, false, "");
      var third := Fact(3, "editor", "preference", "uses emacs", 0.5, 0.5, "trusted", false, false, "");
      var o := ImportOptions(Overwrite, true);
      OutcomeOf(ImportFacts(Table([], 1), [first, second, third], o), first, o) == Imported
  {
    var first := Fact(1, "", "preference", "uses vim", 0.5, 0.5, "trusted", false, false, "");
    var second := Fact(2, "editor", "preference", "uses vim", 0.5, 0.5, "trusted", false, false, "");
    var third := Fact(3, "editor", "preference", "uses emacs", 0.5, 0.5, "trusted", false, false, "");
    OverwriteChain([first, second, third], ImportOptions(Overwrite, true));
  }

  /** With `skip` the second import of a bundle of keyed facts changes nothing at all. */
  lemma SecondSkipChangesNothing(t: Table, facts: seq<Fact>, o: ImportOptions)
    requires o.resolution == Skip && forall i :: 0 <= i < |facts| ==> Keyed(facts[i])
    ensures ImportFacts(ImportFacts(t, facts, o), facts, o) == ImportFacts(t, facts, o)
  {
    var once := ImportFacts(t, facts, o);
    assert facts[..|facts|] == facts;
    forall i | 0 <= i < |facts|
      ensures OutcomeOf(once, facts[i], o) != Imported
    {
      RepresentedAfter(t, facts, o, i);
      RepresentedMeans(once, facts[i]);
    }
    SkipAll(once, facts, o, |facts|);
  }

  lemma {:induction false} SkipAll(t: Table, facts: seq<Fact>, o: ImportOptions, n: nat)
    requires o.resolution == Skip && n <= |facts|
    requires forall i :: 0 <= i < |facts| ==> OutcomeOf(t, facts[i], o) != Imported
    ensures ImportFacts(t, facts[..n], o) == t
  {
    if n > 0 {
      SkipAll(t, facts, o, n - 1);
      ImportNext(t, facts, n - 1, o);
    }
  }

  // ---- which playbooks are added

  /** A draft or active playbook has the title. */
  ghost predicate InUse(ps: seq<Playbook>, title: string) {
    exists i :: 0 <= i < |ps| && ps[i].title == title && (ps[i].status == "draft" || ps[i].status == "active")
  }

  lemma ListedMeaning(ps: seq<Playbook>, title: string)
    ensures title in ListedTitles(ps) <==> InUse(ps, title)
  {
    var listed := Filter(ps, IsListed);
    if title in ListedTitles(ps) {
      var k :| 0 <= k < |listed| && listed[k].title == title;
      var p := listed[k];
      assert p in listed;
      FilterMember(ps, IsListed, p);
      var i :| 0 <= i < |ps| && ps[i] == p;
    }
    if InUse(ps, title) {
      var i :| 0 <= i < |ps| && ps[i].title == title && (ps[i].status == "draft" || ps[i].status == "active");
      var p := ps[i];
      assert p in ps;
      FilterMember(ps, IsListed, p);
      var k :| 0 <= k < |listed| && listed[k] == p;
    }
  }

  lemma {:induction false} AddedTitles(titles: set<string>, ps: seq<Playbook>)
    ensures Titles(NewPlaybooks(titles, ps)) == Titles(ps) - titles
    ensures forall i, j :: 0 <= i < j < |NewPlaybooks(titles, ps)| ==>
      NewPlaybooks(titles, ps)[i].title != NewPlaybooks(titles, ps)[j].title
    decreases |ps|
  {
    if ps != [] {
      var front, last := ps[..|ps| - 1], ps[|ps| - 1];
      var before, now := NewPlaybooks(titles, front), NewPlaybooks(titles, ps);
      AddedTitles(titles, front);
      SplitLast(ps);
      TitlesNext(front, last);
      TitlesNext(before, last);
      assert before + [] == before;
      forall i, j | 0 <= i < j < |now|
        ensures now[i].title != now[j].title
      {
        assert i < |before| ==> before[i].title in Titles(before);
      }
    }
  }

  /**
   * A title of the bundle is added, once, exactly when no playbook of the store that is a draft or
   * active has it.
   */
  lemma AddedMeaning(before: seq<Playbook>, ps: seq<Playbook>, title: string)
    ensures
      var added := NewPlaybooks(ListedTitles(before), ps);
      && (title in Titles(added) <==> title in Titles(ps) && !InUse(before, title))
      && forall i, j :: 0 <= i < j < |added| ==> added[i].title != added[j].title
  {
    AddedTitles(ListedTitles(before), ps);
    ListedMeaning(before, title);
  }

  // ---- playbooks twice

  lemma {:induction false} AddsNothing(titles: set<string>, ps: seq<Playbook>)
    ensures NewPlaybooks(titles, ps) == [] <==> Titles(ps) <= titles
    decreases |ps|
  {
    if ps != [] {
      var front, last := ps[..|ps| - 1], ps[|ps| - 1];
      AddsNothing(titles, front);
      SplitLast(ps);
      TitlesNext(front, last);
    }
  }

  lemma ListedConcat(a: seq<Playbook>, b: seq<Playbook>)
    ensures ListedTitles(a + b) == ListedTitles(a) + ListedTitles(b)
  {
    FilterConcat(a, b, IsListed);
    TitlesConcat(Filter(a, IsListed), Filter(b, IsListed));
  }

  lemma TitlesConcat(a: seq<Playbook>, b: seq<Playbook>)
    ensures Titles(a + b) == Titles(a) + Titles(b)
  {
    forall t | t in Titles(a) + Titles(b)
      ensures t in Titles(a + b)
    {
      if t in Titles(a) {
        var i :| 0 <= i < |a| && a[i].title == t;
        assert (a + b)[i].title == t;
      } else {
        var i :| 0 <= i < |b| && b[i].title == t;
        assert (a + b)[|a| + i].title == t;
      }
    }
    forall t | t in Titles(a + b)
      ensures t in Titles(a) + Titles(b)
    {
      var i :| 0 <= i < |a + b| && (a + b)[i].title == t;
      assert if i < |a| then a[i].title == t else b[i - |a|].title == t;
    }
  }

  /** The first playbook with this title is a draft or active. */
  ghost predicate FirstIsListed(ps: seq<Playbook>, title: string) {
    exists i :: 0 <= i < |ps| && ps[i].title == title && IsListed(ps[i]) && title !in Titles(ps[..i])
  }

  lemma FirstListedNext(ps: seq<Playbook>, p: Playbook, title: string)
    ensures FirstIsListed(ps + [p], title) <==>
      FirstIsListed(ps, title) || (title !in Titles(ps) && p.title == title && IsListed(p))
  {
    var longer := ps + [p];
    if FirstIsListed(longer, title) {
      var i :| 0 <= i < |longer| && longer[i].title == title && IsListed(longer[i]) && title !in Titles(longer[..i]);
      assert longer[..i] == ps[..i];
      assert i == |ps| ==> ps[..i] == ps;
    }
    if FirstIsListed(ps, title) {
      var i :| 0 <= i < |ps| && ps[i].title == title && IsListed(ps[i]) && title !in Titles(ps[..i]);
      assert longer[..i] == ps[..i] && longer[i] == ps[i];
    }
    if title !in Titles(ps) && p.title == title && IsListed(p) {
      assert longer[..|ps|] == ps && longer[|ps|] == p;
    }
  }

  /** What the first import lists: the titles not listed before whose first playbook is a draft or active. */
  lemma {:induction false} NewlyListed(titles: set<string>, ps: seq<Playbook>, title: string)
    ensures title in ListedTitles(NewPlaybooks(titles, ps)) <==> title !in titles && FirstIsListed(ps, title)
    decreases |ps|
  {
    if ps != [] {
      var front, last := ps[..|ps| - 1], ps[|ps| - 1];
      NewlyListed(titles, front, title);
      SplitLast(ps);
      FirstListedNext(front, last, title);
      var added := NewPlaybooks(titles, front);
      ListedSnoc(added, last);
      assert added + [] == added;
    }
  }

  lemma ListedSnoc(ps: seq<Playbook>, p: Playbook)
    ensures ListedTitles(ps + [p]) == ListedTitles(ps) + if IsListed(p) then {p.title} else {}
  {
    FilterSnoc(ps, p, IsListed);
    TitlesNext(Filter(ps, IsListed), p);
    assert Filter(ps, IsListed) + [] == Filter(ps, IsListed);
  }

  lemma {:induction false} AllFirstListed(ps: seq<Playbook>)
    requires forall i :: 0 <= i < |ps| ==> IsListed(ps[i])
    ensures forall t :: t in Titles(ps) ==> FirstIsListed(ps, t)
    decreases |ps|
  {
    if ps != [] {
      var front, last := ps[..|ps| - 1], ps[|ps| - 1];
      AllFirstListed(front);
      SplitLast(ps);
      TitlesNext(front, last);
      forall t | t in Titles(ps)
        ensures FirstIsListed(ps, t)
      {
        FirstListedNext(front, last, t);
      }
    }
  }

  /**
   * The second import of the playbooks adds nothing exactly when each title of the bundle was listed
   * before the first, or the first playbook of the bundle with that title is a draft or active.
   */
  lemma SecondPlaybooks(before: seq<Playbook>, ps: seq<Playbook>)
    ensures
      var added := NewPlaybooks(ListedTitles(before), ps);
      NewPlaybooks(ListedTitles(before + added), ps) == [] <==>
      forall t :: t in Titles(ps) ==> t in ListedTitles(before) || FirstIsListed(ps, t)
    ensures (forall i :: 0 <= i < |ps| ==> IsListed(ps[i])) ==> forall t :: t in Titles(ps) ==> FirstIsListed(ps, t)
  {
    if forall i :: 0 <= i < |ps| ==> IsListed(ps[i]) {
      AllFirstListed(ps);
    }
    var added := NewPlaybooks(ListedTitles(before), ps);
    ListedConcat(before, added);
    AddsNothing(ListedTitles(before + added), ps);
    forall t
      ensures t in ListedTitles(before + added) <==> t in ListedTitles(before) || FirstIsListed(ps, t)
    {
      NewlyListed(ListedTitles(before), ps, t);
    }
  }

  // ---- one active fact per text

  ghost predicate OneActivePerText(facts: seq<Fact>) {
    forall i, j :: 0 <= i < j < |facts| && IsActive(facts[i]) && IsActive(facts[j]) ==> !SameText(facts[i], facts[j])
  }

  /** Some active fact other than e has the text of f. */
  ghost predicate OtherWithText(facts: seq<Fact>, e: Fact, f: Fact) {
    exists i :: 0 <= i < |facts| && IsActive(facts[i]) && facts[i] != e && SameText(facts[i], f)
  }

  /** Importing, skipping and merging never leave two active facts with one text. */
  lemma OthersKeepTexts(t: Table, f: Fact, o: ImportOptions)
    requires IdsOk(t) && OneActivePerText(t.facts) && OutcomeOf(t, f, o) != Overwritten
    ensures OneActivePerText(ImportOne(t, f, o).facts)
  {
    ConflictMeaning(t, f);
    var after, n := ImportOne(t, f, o).facts, |t.facts|;
    forall i, j | 0 <= i < j < |after| && IsActive(after[i]) && IsActive(after[j])
      ensures !SameText(after[i], after[j])
    {
      if j < n {
        assert !SameText(t.facts[i], t.facts[j]);
      } else {
        assert !TextOf(f)(t.facts[i]);
      }
    }
  }

  /** A table where it happens: the fact in the slot is overwritten with the text of another fact. */
  lemma TextRepeatedExample()
    ensures
      var inSlot := Fact(1, "editor", "preference", "uses vim", 0.5, 0.5, "trusted", false, false, "");
      var other := Fact(2, "", "preference", "uses emacs", 0.5, 0.5, "trusted", false, false, "");
      var incoming := Fact(9, "editor", "preference", "uses emacs", 0.5, 0.5, "trusted", false, false, "");
      var t, o := Table([inSlot, other], 3), ImportOptions(Overwrite, true);
      && IdsOk(t) && OneActivePerText(t.facts) && OutcomeOf(t, incoming, o) == Overwritten
      && !OneActivePerText(ImportOne(t, incoming, o).facts)
  {
    var inSlot := Fact(1, "editor", "preference", "uses vim", 0.5, 0.5, "trusted", false, false, "");
    var other := Fact(2, "", "preference", "uses emacs", 0.5, 0.5, "trusted", false, false, "");
    var incoming := Fact(9, "editor", "preference", "uses emacs", 0.5, 0.5, "trusted", false, false, "");
    var t, o := Table([inSlot, other], 3), ImportOptions(Overwrite, true);
    assert t.facts[0] == inSlot && t.facts[1] == other;
    ConflictMeaning(t, incoming);
    assert SlotOf(incoming)(t.facts[0]) && !SameSlot(other, incoming);
    assert FindConflictingFact(GetActive(t), incoming) == Some(inSlot);
    assert OtherWithText(t.facts, inSlot, incoming);
    OverwriteCanRepeatText(t, incoming, o);
  }

  /**
   * Texts are not kept unique: overwriting the fact in a slot leaves two active facts with one text
   * exactly when some other active fact already had that text.
   */
  lemma OverwriteCanRepeatText(t: Table, f: Fact, o: ImportOptions)
    requires IdsOk(t) && OneActivePerText(t.facts) && OutcomeOf(t, f, o) == Overwritten
    ensures OneActivePerText(ImportOne(t, f, o).facts) <==>
      !OtherWithText(t.facts, FindConflictingFact(GetActive(t), f).value, f)
  {
    ConflictMeaning(t, f);
    var e := FindConflictingFact(GetActive(t), f).value;
    RetireExactly(t, e);
    var after := ImportOne(t, f, o).facts;
    var n := |t.facts|;
    assert forall i :: 0 <= i < n ==> after[i] == Retire(t, e.id).facts[i];
    if OtherWithText(t.facts, e, f) {
      var i :| 0 <= i < n && IsActive(t.facts[i]) && t.facts[i] != e && SameText(t.facts[i], f);
      assert IsActive(after[i]) && IsActive(after[n]) && SameText(after[i], after[n]);
    } else {
      forall i, j | 0 <= i < j < |after| && IsActive(after[i]) && IsActive(after[j])
        ensures !SameText(after[i], after[j])
      {
        assert after[i] == t.facts[i] && t.facts[i] != e;
        assert j < n ==> after[j] == t.facts[j];
      }
    }
  }

  // ---- when a fact is imported, skipped, overwritten or merged

  /** The outcome in terms of the table: trust_higher overwrites exactly when the conflicting fact has less trust. */
  lemma OutcomeMeaning(t: Table, f: Fact, o: ImportOptions)
    ensures OutcomeOf(t, f, o) == Imported <==> NoActive(t.facts, SlotOf(f)) && NoActive(t.facts, TextOf(f))
    ensures OutcomeOf(t, f, o) != Imported ==>
      var e := FindConflictingFact(GetActive(t), f).value;
      && e in t.facts && IsActive(e)
      && (o.resolution == Skip ==> OutcomeOf(t, f, o) == Skipped)
      && (o.resolution == Overwrite ==> OutcomeOf(t, f, o) == Overwritten)
      && (o.resolution == Merge ==> OutcomeOf(t, f, o) == Merged)
      && (o.resolution == TrustHigher ==>
            OutcomeOf(t, f, o) == if e.trustScore < f.trustScore then Overwritten else Skipped)
  {
    ConflictMeaning(t, f);
    var found := FindConflictingFact(GetActive(t), f);
    if found.Some? {
      assert SlotOf(f)(found.value) || TextOf(f)(found.value);
    }
  }

  // ---- what ends up in the table

  /** A fact that is imported or overwrites another becomes the newest row: active, with its content kept. */
  lemma ImportedRow(t: Table, f: Fact, o: ImportOptions)
    requires OutcomeOf(t, f, o) in {Imported, Overwritten}
    ensures
      var after := ImportOne(t, f, o);
      var row := after.facts[|after.facts| - 1];
      && |after.facts| == |t.facts| + 1 && row.id == t.nextId && IsActive(row) && row.body == f.body
      && row.slotKey == f.slotKey && row.knowledgeClass == f.knowledgeClass && row.normalizedFact == f.normalizedFact
      && (o.preserveTrust ==> row.trustScore == f.trustScore && row.knowledgeState == f.knowledgeState)
      && (!o.preserveTrust ==> row.trustScore == f.confidenceScore && row.knowledgeState == "provisional")
  {
  }

  /** Only the conflicting row changes: overwriting retires it, merging lifts its trust to the higher of the two. */
  lemma ConflictingRow(t: Table, f: Fact, o: ImportOptions, i: nat)
    requires IdsOk(t) && i < |t.facts|
    ensures
      var was, now := t.facts[i], ImportOne(t, f, o).facts[i];
      if Some(was) != FindConflictingFact(GetActive(t), f) || OutcomeOf(t, f, o) == Skipped then now == was
      else if OutcomeOf(t, f, o) == Overwritten then now == was.(retired := true)
      else
        && now == was.(trustScore := now.trustScore) && now.trustScore >= was.trustScore
        && now.trustScore >= f.trustScore && now.trustScore in {was.trustScore, f.trustScore}
  {
    ConflictMeaning(t, f);
    if FindConflictingFact(GetActive(t), f).Some? {
      RetireExactly(t, FindConflictingFact(GetActive(t), f).value);
    }
  }
}
