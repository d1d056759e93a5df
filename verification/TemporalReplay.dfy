/**
 * Temporal replay (src/core/temporal.ts, src/contracts/temporal.ts): rebuilding the tables of a store
 * from its append-only event log.
 */
module TemporalReplay {
  import opened Wrappers
  import opened Sequences
  import opened Sorting

  datatype Kind =
    | Turn | WorkingMemory | Knowledge | WorkItem | Association | WorkClaim | Handoff | Playbook | SessionState
    | Other(name: string)

  predicate Replayable(k: Kind) {
    !k.Other?
  }

  /** A snapshot of one record: the fields replay looks at, and all the rest as body. */
  datatype Row = Row(
    id: int, sessionId: Option<string>, createdAt: int, updatedAt: int, claimedAt: int,
    status: string, expiresAt: Option<int>, releasedAt: Option<int>, releaseReason: Option<string>,
    decisionReason: Option<string>, revisionCount: Option<int>, body: string
  )

  datatype Event = Event(id: nat, kind: Kind, entityId: string, eventType: string, after: Option<Row>)

  // ---- tables that remember insertion order

  datatype Table = Table(keys: seq<string>, rows: map<string, Row>)

  const EMPTY := Table([], map[])

  ghost predicate TableOk(t: Table) {
    Distinct(t.keys) && forall k :: k in t.keys <==> k in t.rows
  }

  /** A key keeps its place when its row is replaced. */
  function Set(t: Table, k: string, row: Row): (r: Table)
    ensures TableOk(t) ==> TableOk(r)
  {
    Table(if k in t.rows then t.keys else t.keys + [k], t.rows[k := row])
  }

  function Delete(t: Table, k: string): (r: Table)
    ensures TableOk(t) ==> TableOk(r)
  {
    WithoutDistinct(t.keys, k);
    Table(Without(t.keys, k), t.rows - {k})
  }

  datatype Tables = Tables(
    turns: Table, workingMemory: Table, knowledge: Table, workItems: Table, workClaims: Table,
    handoffs: Table, associations: Table, playbooks: Table, sessionStates: Table
  )

  function Get(t: Tables, k: Kind): Table {
    match k
    case Turn => t.turns
    case WorkingMemory => t.workingMemory
    case Knowledge => t.knowledge
    case WorkItem => t.workItems
    case Association => t.associations
    case WorkClaim => t.workClaims
    case Handoff => t.handoffs
    case Playbook => t.playbooks
    case SessionState => t.sessionStates
    case Other(_) => EMPTY
  }

  const NO_TABLES := Tables(EMPTY, EMPTY, EMPTY, EMPTY, EMPTY, EMPTY, EMPTY, EMPTY, EMPTY)

  ghost predicate TablesOk(t: Tables) {
    forall k :: TableOk(Get(t, k))
  }

  // ---- what one event means

  function OrZero(count: Option<int>): Option<int> {
    if count.Some? then count else Some(0)
  }

  function SetIfAny(t: Table, e: Event): Table {
    if e.after.Some? then Set(t, e.entityId, e.after.value) else t
  }

  /** The effect of one event on the tables. */
  function Step(t: Tables, e: Event): Tables {
    match e.kind
    case Turn => t.(turns := SetIfAny(t.turns, e))
    case WorkingMemory => t.(workingMemory := SetIfAny(t.workingMemory, e))
    case Knowledge => t.(knowledge := SetIfAny(t.knowledge, e))
    case WorkItem =>
      t.(workItems :=
        if e.eventType == "work_item.deleted" then Delete(t.workItems, e.entityId) else SetIfAny(t.workItems, e))
    case Association =>
      t.(associations :=
        if e.eventType == "association.deleted" then Delete(t.associations, e.entityId)
        else SetIfAny(t.associations, e))
    case WorkClaim => t.(workClaims := SetIfAny(t.workClaims, e))
    case Handoff => t.(handoffs := SetIfAny(t.handoffs, e))
    case Playbook =>
      t.(playbooks :=
        if e.after.Some? then
          Set(t.playbooks, e.entityId, e.after.value.(revisionCount := OrZero(e.after.value.revisionCount)))
        else t.playbooks)
    case SessionState => t.(sessionStates := SetIfAny(t.sessionStates, e))
    case Other(_) => t
  }

  function Replay(events: seq<Event>): Tables {
    if events == [] then NO_TABLES else Step(Replay(events[..|events| - 1]), events[|events| - 1])
  }

  // ---- the fold

  predicate Earlier(a: Event, b: Event) {
    a.id <= b.id
  }

  function CreatedAt(): Row -> int {
    (r: Row) => r.createdAt
  }

  function UpdatedAt(): Row -> int {
    (r: Row) => r.updatedAt
  }

  function ClaimedAt(): Row -> int {
    (r: Row) => r.claimedAt
  }

  function TimeThenId(time: Row -> int): (Row, Row) -> bool {
    (a: Row, b: Row) => time(a) < time(b) || (time(a) == time(b) && a.id <= b.id)
  }

  function TimeOnly(time: Row -> int): (Row, Row) -> bool {
    (a: Row, b: Row) => time(a) <= time(b)
  }

  /** The rows of a table in insertion order. */
  function Values(t: Table): (r: seq<Row>)
    requires forall i :: 0 <= i < |t.keys| ==> t.keys[i] in t.rows
    ensures |r| == |t.keys| && forall i :: 0 <= i < |r| ==> r[i] == t.rows[t.keys[i]]
  {
    seq(|t.keys|, i requires 0 <= i < |t.keys| => t.rows[t.keys[i]])
  }

  datatype ReplayedState = ReplayedState(
    turns: seq<Row>, workingMemory: seq<Row>, knowledge: seq<Row>, workItems: seq<Row>, workClaims: seq<Row>,
    handoffs: seq<Row>, associations: seq<Row>, playbooks: seq<Row>, sessionStates: seq<Row>,
    watermarkEventId: Option<nat>
  )

  function InSession(session: Option<string>): Row -> bool {
    (r: Row) => session == None || session == Some("") || r.sessionId == session
  }

  function InSessionOrNone(session: Option<string>): Row -> bool {
    (r: Row) => session == None || session == Some("") || r.sessionId == None || r.sessionId == session
  }

  function All(): Row -> bool {
    (r: Row) => true
  }

  predicate Closed(t: Table) {
    forall i :: 0 <= i < |t.keys| ==> t.keys[i] in t.rows
  }

  predicate AllClosed(t: Tables) {
    && Closed(t.turns) && Closed(t.workingMemory) && Closed(t.knowledge) && Closed(t.workItems)
    && Closed(t.workClaims) && Closed(t.handoffs) && Closed(t.associations) && Closed(t.playbooks)
    && Closed(t.sessionStates)
  }

  /** A table as the replay hands it out: the wanted rows in order. */
  function List(t: Table, keep: Row -> bool, le: (Row, Row) -> bool): seq<Row>
    requires Closed(t)
  {
    Sort(Filter(Values(t), keep), le)
  }

  function Listed(t: Tables, session: Option<string>, watermark: Option<nat>): ReplayedState
    requires AllClosed(t)
  {
    ReplayedState(
      List(t.turns, InSession(session), TimeThenId(CreatedAt())),
      List(t.workingMemory, InSession(session), TimeThenId(CreatedAt())),
      List(t.knowledge, All(), TimeThenId(CreatedAt())),
      List(t.workItems, InSessionOrNone(session), TimeThenId(UpdatedAt())),
      List(t.workClaims, All(), TimeThenId(ClaimedAt())),
      List(t.handoffs, All(), TimeThenId(CreatedAt())),
      List(t.associations, All(), TimeThenId(CreatedAt())),
      List(t.playbooks, All(), TimeThenId(UpdatedAt())),
      List(t.sessionStates, InSession(session), TimeOnly(UpdatedAt())),
      watermark
    )
  }

  // Reads the list as given, not the sorted copy.
  function Watermark(events: seq<Event>): Option<nat> {
    if events == [] then None else Some(events[|events| - 1].id)
  }

  lemma {:induction false} ReplayTablesOk(events: seq<Event>)
    ensures TablesOk(Replay(events)) && AllClosed(Replay(events))
    decreases |events|
  {
    if events == [] {
      assert forall k :: Get(NO_TABLES, k) == EMPTY;
    } else {
      ReplayTablesOk(events[..|events| - 1]);
      StepTablesOk(Replay(events[..|events| - 1]), events[|events| - 1]);
    }
    OkIsClosed(Replay(events));
  }

  lemma StepTablesOk(t: Tables, e: Event)
    requires TablesOk(t)
    ensures TablesOk(Step(t, e))
  {
    forall k
      ensures TableOk(Get(Step(t, e), k))
    {
      assert TableOk(Get(t, k)) && TableOk(Get(t, e.kind));
    }
  }

  lemma OkIsClosed(t: Tables)
    requires TablesOk(t)
    ensures AllClosed(t)
  {
    TableClosed(Get(t, Turn));
    TableClosed(Get(t, WorkingMemory));
    TableClosed(Get(t, Knowledge));
    TableClosed(Get(t, WorkItem));
    TableClosed(Get(t, WorkClaim));
    TableClosed(Get(t, Handoff));
    TableClosed(Get(t, Association));
    TableClosed(Get(t, Playbook));
    TableClosed(Get(t, SessionState));
  }

  lemma TableClosed(t: Table)
    requires TableOk(t)
    ensures Closed(t)
  {
    forall i | 0 <= i < |t.keys|
      ensures t.keys[i] in t.rows
    {
      var k := t.keys[i];
      assert k in t.keys;
    }
  }

  /** The fold over the log, one event after another in id order, and the listings it returns. */
  method FoldTemporalState(events: seq<Event>, session: Option<string>) returns (r: ReplayedState)
    ensures AllClosed(Replay(Sort(events, Earlier)))
    ensures r == Listed(Replay(Sort(events, Earlier)), session, Watermark(events))
    ensures FieldsOf(r, session, RowsIn(Replay(Sort(events, Earlier))))
    ensures r.watermarkEventId == if events == [] then None else Some(events[|events| - 1].id)
  {
    var sorted := Sort(events, Earlier);
    var tables := NO_TABLES;
    for i := 0 to |sorted|
      invariant tables == Replay(sorted[..i])
    {
      assert sorted[..i + 1][..i] == sorted[..i];
      tables := FoldOne(tables, sorted[i]);
    }
    assert sorted[..|sorted|] == sorted;
    ReplayTablesOk(sorted);
    r := Listed(tables, session, Watermark(events));
    ListedFields(tables, session, r);
  }

  method FoldOne(before: Tables, e: Event) returns (t: Tables)
    ensures t == Step(before, e)
  {
    t := before;
    match e.kind
    case Turn => if e.after.Some? { t := t.(turns := Set(t.turns, e.entityId, e.after.value)); }
    case WorkingMemory =>
      if e.after.Some? {
        t := t.(workingMemory := Set(t.workingMemory, e.entityId, e.after.value));
      }
    case Knowledge => if e.after.Some? { t := t.(knowledge := Set(t.knowledge, e.entityId, e.after.value)); }
    case WorkItem =>
      if e.eventType == "work_item.deleted" {
        t := t.(workItems := Delete(t.workItems, e.entityId));
      } else if e.after.Some? {
        t := t.(workItems := Set(t.workItems, e.entityId, e.after.value));
      }
    case Association =>
      if e.eventType == "association.deleted" {
        t := t.(associations := Delete(t.associations, e.entityId));
      } else if e.after.Some? {
        t := t.(associations := Set(t.associations, e.entityId, e.after.value));
      }
    case WorkClaim => if e.after.Some? { t := t.(workClaims := Set(t.workClaims, e.entityId, e.after.value)); }
    case Handoff => if e.after.Some? { t := t.(handoffs := Set(t.handoffs, e.entityId, e.after.value)); }
    case Playbook =>
      if e.after.Some? {
        var playbook := e.after.value;
        t := t.(playbooks := Set(t.playbooks, e.entityId, playbook.(revisionCount := OrZero(playbook.revisionCount))));
      }
    case SessionState => if e.after.Some? { t := t.(sessionStates := Set(t.sessionStates, e.entityId, e.after.value)); }
    case Other(_) =>
  }

  // ---- listings

  ghost function KeysHolding(rows: map<string, Row>, x: Row): set<string> {
    set k | k in rows && rows[k] == x
  }

  ghost function Holding(t: Table, x: Row, n: nat): set<string>
    requires Closed(t) && n <= |t.keys|
  {
    set i | 0 <= i < n && t.rows[t.keys[i]] == x :: t.keys[i]
  }

  lemma HoldingNext(t: Table, x: Row, n: nat)
    requires Distinct(t.keys) && Closed(t) && n < |t.keys|
    ensures |Holding(t, x, n + 1)| == |Holding(t, x, n)| + if t.rows[t.keys[n]] == x then 1 else 0
  {
    var k := t.keys[n];
    if t.rows[k] == x {
      assert Holding(t, x, n + 1) == Holding(t, x, n) + {k};
      assert k !in Holding(t, x, n);
    } else {
      assert Holding(t, x, n + 1) == Holding(t, x, n);
    }
  }

  lemma {:induction false} ValuesCount(t: Table, x: Row, n: nat)
    requires Distinct(t.keys) && Closed(t) && n <= |t.keys|
    ensures multiset(Values(t)[..n])[x] == |Holding(t, x, n)|
  {
    if n > 0 {
      ValuesCount(t, x, n - 1);
      HoldingNext(t, x, n - 1);
      assert Values(t)[..n] == Values(t)[..n - 1] + [Values(t)[n - 1]];
    }
  }

  lemma HoldingAll(t: Table, x: Row)
    requires TableOk(t) && Closed(t)
    ensures Holding(t, x, |t.keys|) == KeysHolding(t.rows, x)
  {
    forall k | k in KeysHolding(t.rows, x)
      ensures k in Holding(t, x, |t.keys|)
    {
      assert k in t.keys;
      var i :| 0 <= i < |t.keys| && t.keys[i] == k;
    }
    forall k | k in Holding(t, x, |t.keys|)
      ensures k in KeysHolding(t.rows, x)
    {
    }
  }

  /** A listing holds each wanted row once for every key that has it, in order of le. */
  lemma ListIsExact(t: Table, keep: Row -> bool, le: (Row, Row) -> bool)
    requires TableOk(t) && Closed(t) && TotalPreorder(le)
    ensures Sorted(List(t, keep, le), le)
    ensures forall x :: multiset(List(t, keep, le))[x] == if keep(x) then |KeysHolding(t.rows, x)| else 0
  {
    SortSorted(Filter(Values(t), keep), le);
    forall x
      ensures multiset(List(t, keep, le))[x] == if keep(x) then |KeysHolding(t.rows, x)| else 0
    {
      FilterCount(Values(t), keep, x);
      ValuesCount(t, x, |t.keys|);
      HoldingAll(t, x);
      assert Values(t)[..|t.keys|] == Values(t);
    }
  }

  // ---- what each field of a replayed state holds

  /** The rows of a kind, by key. */
  type RowsOf = Kind -> map<string, Row>

  ghost function RowsIn(t: Tables): RowsOf {
    k => Get(t, k).rows
  }

  /** A wanted row is there once for every key that has it, and any other is not. */
  ghost predicate Holds(rows: seq<Row>, live: map<string, Row>, x: Row, wanted: bool) {
    multiset(rows)[x] == if wanted then |KeysHolding(live, x)| else 0
  }

  ghost predicate HoldsAll(rows: seq<Row>, live: map<string, Row>) {
    forall x :: Holds(rows, live, x, true)
  }

  /** The row belongs to the session, or no session is asked for. */
  predicate OfSession(session: Option<string>, x: Row) {
    session == None || session == Some("") || x.sessionId == session
  }

  ghost predicate HoldsSession(rows: seq<Row>, live: map<string, Row>, session: Option<string>) {
    forall x :: Holds(rows, live, x, OfSession(session, x))
  }

  /** Rows that belong to no session are wanted, too. */
  predicate OfSessionOrNone(session: Option<string>, x: Row) {
    OfSession(session, x) || x.sessionId == None
  }

  ghost predicate HoldsSessionOrNone(rows: seq<Row>, live: map<string, Row>, session: Option<string>) {
    forall x :: Holds(rows, live, x, OfSessionOrNone(session, x))
  }

  predicate Created(a: Row, b: Row) {
    a.createdAt < b.createdAt || (a.createdAt == b.createdAt && a.id <= b.id)
  }

  predicate Updated(a: Row, b: Row) {
    a.updatedAt < b.updatedAt || (a.updatedAt == b.updatedAt && a.id <= b.id)
  }

  predicate Claimed(a: Row, b: Row) {
    a.claimedAt < b.claimedAt || (a.claimedAt == b.claimedAt && a.id <= b.id)
  }

  ghost predicate InCreationOrder(rows: seq<Row>) {
    forall i, j {:trigger Created(rows[i], rows[j])} :: 0 <= i < j < |rows| ==> Created(rows[i], rows[j])
  }

  ghost predicate InUpdateOrder(rows: seq<Row>) {
    forall i, j {:trigger Updated(rows[i], rows[j])} :: 0 <= i < j < |rows| ==> Updated(rows[i], rows[j])
  }

  ghost predicate InClaimOrder(rows: seq<Row>) {
    forall i, j {:trigger Claimed(rows[i], rows[j])} :: 0 <= i < j < |rows| ==> Claimed(rows[i], rows[j])
  }

  ghost predicate InUpdateTimeOrder(rows: seq<Row>) {
    forall i, j :: 0 <= i < j < |rows| ==> rows[i].updatedAt <= rows[j].updatedAt
  }

  /** Each of the nine fields holds the rows of its own kind that the session admits, in its own order. */
  ghost predicate FieldsOf(r: ReplayedState, session: Option<string>, rowsOf: RowsOf) {
    && HoldsSession(r.turns, rowsOf(Turn), session) && InCreationOrder(r.turns)
    && HoldsSession(r.workingMemory, rowsOf(WorkingMemory), session) && InCreationOrder(r.workingMemory)
    && HoldsAll(r.knowledge, rowsOf(Knowledge)) && InCreationOrder(r.knowledge)
    && HoldsSessionOrNone(r.workItems, rowsOf(WorkItem), session) && InUpdateOrder(r.workItems)
    && HoldsAll(r.workClaims, rowsOf(WorkClaim)) && InClaimOrder(r.workClaims)
    && HoldsAll(r.handoffs, rowsOf(Handoff)) && InCreationOrder(r.handoffs)
    && HoldsAll(r.associations, rowsOf(Association)) && InCreationOrder(r.associations)
    && HoldsAll(r.playbooks, rowsOf(Playbook)) && InUpdateOrder(r.playbooks)
    && HoldsSession(r.sessionStates, rowsOf(SessionState), session) && InUpdateTimeOrder(r.sessionStates)
  }

  lemma CreationListing(t: Table, keep: Row -> bool)
    requires TableOk(t) && Closed(t)
    ensures
      var rows := List(t, keep, TimeThenId(CreatedAt()));
      InCreationOrder(rows) && forall x :: multiset(rows)[x] == if keep(x) then |KeysHolding(t.rows, x)| else 0
  {
    OrderIsPreorder(CreatedAt());
    ListIsExact(t, keep, TimeThenId(CreatedAt()));
  }

  lemma UpdateListing(t: Table, keep: Row -> bool)
    requires TableOk(t) && Closed(t)
    ensures
      var rows := List(t, keep, TimeThenId(UpdatedAt()));
      InUpdateOrder(rows) && forall x :: multiset(rows)[x] == if keep(x) then |KeysHolding(t.rows, x)| else 0
  {
    OrderIsPreorder(UpdatedAt());
    ListIsExact(t, keep, TimeThenId(UpdatedAt()));
  }

  lemma CreationBySession(t: Table, session: Option<string>, rows: seq<Row>, live: map<string, Row>)
    requires TableOk(t) && Closed(t) && live == t.rows && rows == List(t, InSession(session), TimeThenId(CreatedAt()))
    ensures HoldsSession(rows, live, session) && InCreationOrder(rows)
  {
    CreationListing(t, InSession(session));
  }

  lemma CreationOfAll(t: Table, rows: seq<Row>, live: map<string, Row>)
    requires TableOk(t) && Closed(t) && live == t.rows && rows == List(t, All(), TimeThenId(CreatedAt()))
    ensures HoldsAll(rows, live) && InCreationOrder(rows)
  {
    CreationListing(t, All());
  }

  lemma UpdateBySession(t: Table, session: Option<string>, rows: seq<Row>, live: map<string, Row>)
    requires TableOk(t) && Closed(t) && live == t.rows
    requires rows == List(t, InSessionOrNone(session), TimeThenId(UpdatedAt()))
    ensures HoldsSessionOrNone(rows, live, session) && InUpdateOrder(rows)
  {
    UpdateListing(t, InSessionOrNone(session));
  }

  lemma UpdateOfAll(t: Table, rows: seq<Row>, live: map<string, Row>)
    requires TableOk(t) && Closed(t) && live == t.rows && rows == List(t, All(), TimeThenId(UpdatedAt()))
    ensures HoldsAll(rows, live) && InUpdateOrder(rows)
  {
    UpdateListing(t, All());
  }

  lemma ClaimsOfAll(t: Table, rows: seq<Row>, live: map<string, Row>)
    requires TableOk(t) && Closed(t) && live == t.rows && rows == List(t, All(), TimeThenId(ClaimedAt()))
    ensures HoldsAll(rows, live) && InClaimOrder(rows)
  {
    OrderIsPreorder(ClaimedAt());
    ListIsExact(t, All(), TimeThenId(ClaimedAt()));
  }

  lemma StatesBySession(t: Table, session: Option<string>, rows: seq<Row>, live: map<string, Row>)
    requires TableOk(t) && Closed(t) && live == t.rows && rows == List(t, InSession(session), TimeOnly(UpdatedAt()))
    ensures HoldsSession(rows, live, session) && InUpdateTimeOrder(rows)
  {
    ListIsExact(t, InSession(session), TimeOnly(UpdatedAt()));
  }

  lemma ListedFields(t: Tables, session: Option<string>, r: ReplayedState)
    requires AllClosed(t) && TablesOk(t) && r == Listed(t, session, r.watermarkEventId)
    ensures FieldsOf(r, session, RowsIn(t))
  {
    var rowsOf := RowsIn(t);
    RowsInEach(t);
    AllTablesOk(t);
    CreationBySession(t.turns, session, r.turns, rowsOf(Turn));
    CreationBySession(t.workingMemory, session, r.workingMemory, rowsOf(WorkingMemory));
    CreationOfAll(t.knowledge, r.knowledge, rowsOf(Knowledge));
    UpdateBySession(t.workItems, session, r.workItems, rowsOf(WorkItem));
    ClaimsOfAll(t.workClaims, r.workClaims, rowsOf(WorkClaim));
    CreationOfAll(t.handoffs, r.handoffs, rowsOf(Handoff));
    CreationOfAll(t.associations, r.associations, rowsOf(Association));
    UpdateOfAll(t.playbooks, r.playbooks, rowsOf(Playbook));
    StatesBySession(t.sessionStates, session, r.sessionStates, rowsOf(SessionState));
  }

  lemma RowsInEach(t: Tables)
    ensures
      var rowsOf := RowsIn(t);
      && rowsOf(Turn) == t.turns.rows && rowsOf(WorkingMemory) == t.workingMemory.rows
      && rowsOf(Knowledge) == t.knowledge.rows && rowsOf(WorkItem) == t.workItems.rows
      && rowsOf(WorkClaim) == t.workClaims.rows && rowsOf(Handoff) == t.handoffs.rows
      && rowsOf(Association) == t.associations.rows && rowsOf(Playbook) == t.playbooks.rows
      && rowsOf(SessionState) == t.sessionStates.rows
  {
  }

  lemma AllTablesOk(t: Tables)
    requires TablesOk(t)
    ensures TableOk(t.turns) && TableOk(t.workingMemory) && TableOk(t.knowledge) && TableOk(t.workItems)
    ensures TableOk(t.workClaims) && TableOk(t.handoffs) && TableOk(t.associations) && TableOk(t.playbooks)
    ensures TableOk(t.sessionStates)
  {
    assert TableOk(Get(t, Turn)) && TableOk(Get(t, WorkingMemory)) && TableOk(Get(t, Knowledge));
    assert TableOk(Get(t, WorkItem)) && TableOk(Get(t, WorkClaim)) && TableOk(Get(t, Handoff));
    assert TableOk(Get(t, Association)) && TableOk(Get(t, Playbook)) && TableOk(Get(t, SessionState));
  }

  /** What the fields hold depends on the rows of the nine kinds only. */
  lemma FieldsOfSame(r: ReplayedState, session: Option<string>, one: RowsOf, two: RowsOf)
    requires FieldsOf(r, session, one) && forall k :: Replayable(k) ==> one(k) == two(k)
    ensures FieldsOf(r, session, two)
  {
  }

  // ---- the live store

  type Live = map<Kind, map<string, Row>>

  function At(live: Live, k: Kind): map<string, Row> {
    if k in live then live[k] else map[]
  }

  predicate IsDelete(kind: Kind, eventType: string) {
    || (kind == WorkItem && eventType == "work_item.deleted")
    || (kind == Association && eventType == "association.deleted")
  }

  /** A write of a full row. Every playbook has a revision count. */
  ghost predicate WrotePut(before: Live, e: Event, after: Live) {
    && Replayable(e.kind) && e.after.Some? && !IsDelete(e.kind, e.eventType)
    && (e.kind == Playbook ==> e.after.value.revisionCount.Some?)
    && after == before[e.kind := At(before, e.kind)[e.entityId := e.after.value]]
  }

  ghost predicate WroteDelete(before: Live, e: Event, after: Live) {
    IsDelete(e.kind, e.eventType) && after == before[e.kind := At(before, e.kind) - {e.entityId}]
  }

  /** An audit entry: no table changes. */
  ghost predicate WroteAudit(before: Live, e: Event, after: Live) {
    (e.kind.Other? || (e.after.None? && !IsDelete(e.kind, e.eventType))) && after == before
  }

  ghost predicate Wrote(before: Live, e: Event, after: Live) {
    WrotePut(before, e, after) || WroteDelete(before, e, after) || WroteAudit(before, e, after)
  }

  ghost predicate Increasing(log: seq<Event>) {
    forall i, j :: 0 <= i < j < |log| ==> log[i].id < log[j].id
  }

  /** history[i] is the live tables after the first i writes of log. */
  ghost predicate IsHistory(log: seq<Event>, history: seq<Live>) {
    && |history| == |log| + 1 && history[0] == map[] && Increasing(log)
    && forall i :: 0 <= i < |log| ==> Wrote(history[i], log[i], history[i + 1])
  }

  /** A store that logs what it writes. */
  class EventStore {
    var live: Live
    var log: seq<Event>
    var lastId: nat
    ghost var history: seq<Live>

    ghost predicate Valid()
      reads this
    {
      && IsHistory(log, history) && history[|log|] == live
      && (log != [] ==> log[|log| - 1].id <= lastId)
    }

    constructor ()
      ensures Valid() && log == []
    {
      live, log, lastId, history := map[], [], 0, [map[]];
    }

    method Append(kind: Kind, entityId: string, eventType: string, after: Option<Row>, gap: nat)
      modifies this`log, this`lastId
      ensures lastId == old(lastId) + 1 + gap
      ensures log == old(log) + [Event(lastId, kind, entityId, eventType, after)]
    {
      lastId := lastId + 1 + gap;
      log := log + [Event(lastId, kind, entityId, eventType, after)];
    }

    /** Writes a full row and logs its snapshot. */
    method Put(kind: Kind, entityId: string, eventType: string, row: Row, gap: nat)
      requires Valid() && Replayable(kind) && !IsDelete(kind, eventType)
      requires kind == Playbook ==> row.revisionCount.Some?
      modifies this
      ensures Valid() && lastId > old(lastId) && history == old(history) + [live]
      ensures live == old(live)[kind := At(old(live), kind)[entityId := row]]
      ensures log == old(log) + [Event(lastId, kind, entityId, eventType, Some(row))]
    {
      live := live[kind := At(live, kind)[entityId := row]];
      Append(kind, entityId, eventType, Some(row), gap);
      HistoryGrows(old(log), history, log[|log| - 1], live);
      history := history + [live];
    }

    /** Deletes a row and logs the deletion, with or without a snapshot. */
    method Remove(kind: Kind, entityId: string, eventType: string, after: Option<Row>, gap: nat)
      requires Valid() && IsDelete(kind, eventType)
      modifies this
      ensures Valid() && lastId > old(lastId) && history == old(history) + [live]
      ensures live == old(live)[kind := At(old(live), kind) - {entityId}]
      ensures log == old(log) + [Event(lastId, kind, entityId, eventType, after)]
    {
      live := live[kind := At(live, kind) - {entityId}];
      Append(kind, entityId, eventType, after, gap);
      HistoryGrows(old(log), history, log[|log| - 1], live);
      history := history + [live];
    }

    /** Logs something replay does not rebuild. */
    method Audit(name: string, entityId: string, eventType: string, after: Option<Row>, gap: nat)
      requires Valid()
      modifies this
      ensures Valid() && lastId > old(lastId) && history == old(history) + [live]
      ensures live == old(live) && log == old(log) + [Event(lastId, Other(name), entityId, eventType, after)]
    {
      Append(Other(name), entityId, eventType, after, gap);
      HistoryGrows(old(log), history, log[|log| - 1], live);
      history := history + [live];
    }
  }

  lemma HistoryGrows(log: seq<Event>, history: seq<Live>, e: Event, next: Live)
    requires IsHistory(log, history) && Wrote(history[|log|], e, next)
    requires log != [] ==> log[|log| - 1].id < e.id
    ensures IsHistory(log + [e], history + [next])
  {
    var longer, states := log + [e], history + [next];
    forall i | 0 <= i < |longer|
      ensures Wrote(states[i], longer[i], states[i + 1])
    {
      assert i < |log| ==> Wrote(history[i], log[i], history[i + 1]);
    }
    forall i | 0 <= i < |log|
      ensures log[i].id < e.id
    {
      assert i == |log| - 1 || log[i].id < log[|log| - 1].id;
    }
  }

  // ---- replay refines the live store

  lemma StepRefines(t: Tables, before: Live, e: Event, after: Live, k: Kind)
    requires Wrote(before, e, after) && Replayable(k)
    requires Get(t, k).rows == At(before, k)
    requires Get(t, e.kind).rows == if e.kind.Other? then map[] else At(before, e.kind)
    ensures Get(Step(t, e), k).rows == At(after, k)
  {
    if k != e.kind {
      assert Get(Step(t, e), k) == Get(t, k);
      assert At(after, k) == At(before, k);
    }
  }

  /** After any number of writes, replaying the events logged so far gives the live tables of that moment. */
  lemma {:induction false} ReplayRefinesLive(log: seq<Event>, history: seq<Live>, n: nat, k: Kind)
    requires IsHistory(log, history) && n <= |log| && Replayable(k)
    ensures Get(Replay(log[..n]), k).rows == At(history[n], k)
    decreases n
  {
    if n > 0 {
      var e := log[n - 1];
      assert log[..n][..n - 1] == log[..n - 1];
      ReplayRefinesLive(log, history, n - 1, k);
      if !e.kind.Other? {
        ReplayRefinesLive(log, history, n - 1, e.kind);
      }
      assert Wrote(history[n - 1], e, history[n]);
      StepRefines(Replay(log[..n - 1]), history[n - 1], e, history[n], k);
    }
  }

  function Through(w: nat): Event -> bool {
    (e: Event) => e.id <= w
  }

  /** How many events of the log have an id of at most w. */
  function CountThrough(log: seq<Event>, w: nat): (n: nat)
    ensures n <= |log|
  {
    |Filter(log, Through(w))|
  }

  lemma EarlierIsPreorder()
    ensures TotalPreorder(Earlier)
  {
  }

  lemma LastAgrees(log: seq<Event>, s: seq<Event>)
    requires Increasing(log) && Sorted(s, Earlier) && multiset(s) == multiset(log) && log != [] && s != []
    ensures s[|s| - 1] == log[|log| - 1]
  {
    var a, b := log[|log| - 1], s[|s| - 1];
    assert a in multiset(s) && b in multiset(log);
    var i :| 0 <= i < |s| && s[i] == a;
    var j :| 0 <= j < |log| && log[j] == b;
    assert i == |s| - 1 || Earlier(s[i], b);
  }

  lemma ButLast<T>(s: seq<T>)
    requires s != []
    ensures multiset(s[..|s| - 1]) == multiset(s) - multiset{s[|s| - 1]}
  {
    assert s == s[..|s| - 1] + [s[|s| - 1]];
  }

  lemma FrontsAgree(log: seq<Event>, s: seq<Event>)
    requires Increasing(log) && Sorted(s, Earlier) && multiset(s) == multiset(log)
    requires log != [] && s != [] && log[|log| - 1] == s[|s| - 1]
    ensures Increasing(log[..|log| - 1]) && Sorted(s[..|s| - 1], Earlier)
    ensures multiset(s[..|s| - 1]) == multiset(log[..|log| - 1])
  {
    ButLast(s);
    ButLast(log);
  }

  /** A strictly increasing log is the only sorted arrangement of its events. */
  lemma {:induction false} SortedIsUnique(log: seq<Event>, s: seq<Event>)
    requires Increasing(log) && Sorted(s, Earlier) && multiset(s) == multiset(log)
    ensures s == log
    decreases |log|
  {
    assert |s| == |multiset(s)| == |multiset(log)| == |log|;
    if log != [] {
      LastAgrees(log, s);
      FrontsAgree(log, s);
      var a, b := log[..|log| - 1], s[..|s| - 1];
      SortedIsUnique(a, b);
      SplitLast(s);
      SplitLast(log);
    }
  }

  lemma {:induction false} CutIsPrefix(log: seq<Event>, w: nat)
    requires Increasing(log)
    ensures Filter(log, Through(w)) == log[..CountThrough(log, w)]
    decreases |log|
  {
    if log != [] {
      if log[|log| - 1].id <= w {
        FilterAll(log, Through(w));
      } else {
        CutIsPrefix(log[..|log| - 1], w);
      }
    }
  }

  /**
   * Whatever order the events arrive in, folding those with id at most w gives exactly the live
   * tables as they were right after the last write with id at most w.
   */
  lemma ReplayAtWatermark(log: seq<Event>, history: seq<Live>, events: seq<Event>, w: nat, k: Kind)
    requires IsHistory(log, history) && multiset(events) == multiset(log) && Replayable(k)
    ensures Get(Replay(Sort(Filter(events, Through(w)), Earlier)), k).rows == At(history[CountThrough(log, w)], k)
  {
    var cut, mine := Filter(log, Through(w)), Filter(events, Through(w));
    CutIsPrefix(log, w);
    forall x
      ensures multiset(mine)[x] == multiset(cut)[x]
    {
      FilterCount(log, Through(w), x);
      FilterCount(events, Through(w), x);
    }
    assert multiset(mine) == multiset(cut);
    EarlierIsPreorder();
    SortSorted(mine, Earlier);
    SortedIsUnique(cut, Sort(mine, Earlier));
    ReplayRefinesLive(log, history, CountThrough(log, w), k);
  }

  ghost function LiveRows(live: Live): RowsOf {
    k => At(live, k)
  }

  /** The fold of a store's events, in whatever order they come, holds the live rows field by field. */
  lemma FoldIsLive(
    log: seq<Event>, history: seq<Live>, events: seq<Event>, session: Option<string>, r: ReplayedState
  )
    requires IsHistory(log, history) && multiset(events) == multiset(log)
    requires FieldsOf(r, session, RowsIn(Replay(Sort(events, Earlier))))
    ensures FieldsOf(r, session, LiveRows(history[|log|]))
  {
    OrderIrrelevant(log, events);
    forall k | Replayable(k)
      ensures RowsIn(Replay(log))(k) == LiveRows(history[|log|])(k)
    {
      ReplayRefinesLive(log, history, |log|, k);
      assert log[..|log|] == log;
    }
    FieldsOfSame(r, session, RowsIn(Replay(log)), LiveRows(history[|log|]));
  }

  /** So each listing of the replay holds exactly the wanted live rows of that moment, in order. */
  lemma ReplayedListing(
    log: seq<Event>, history: seq<Live>, events: seq<Event>, w: nat, k: Kind, keep: Row -> bool, le: (Row, Row) -> bool
  )
    requires IsHistory(log, history) && multiset(events) == multiset(log) && Replayable(k) && TotalPreorder(le)
    ensures
      var t := Get(Replay(Sort(Filter(events, Through(w)), Earlier)), k);
      var live := At(history[CountThrough(log, w)], k);
      && Closed(t) && Sorted(List(t, keep, le), le)
      && forall x :: multiset(List(t, keep, le))[x] == if keep(x) then |KeysHolding(live, x)| else 0
  {
    var s := Sort(Filter(events, Through(w)), Earlier);
    ReplayTablesOk(s);
    TableClosed(Get(Replay(s), k));
    ReplayAtWatermark(log, history, events, w, k);
    ListIsExact(Get(Replay(s), k), keep, le);
  }

  /** The order of the input list never matters to what is rebuilt. */
  lemma OrderIrrelevant(log: seq<Event>, events: seq<Event>)
    requires Increasing(log) && multiset(events) == multiset(log)
    ensures Replay(Sort(events, Earlier)) == Replay(log)
  {
    EarlierIsPreorder();
    SortSorted(events, Earlier);
    SortedIsUnique(log, Sort(events, Earlier));
  }

  /** Dropping all events of kinds replay does not know changes no table. */
  lemma {:induction false} UnknownKindsIgnored(events: seq<Event>)
    ensures Replay(Filter(events, (e: Event) => Replayable(e.kind))) == Replay(events)
    decreases |events|
  {
    var known := (e: Event) => Replayable(e.kind);
    if events != [] {
      var rest, last := events[..|events| - 1], events[|events| - 1];
      UnknownKindsIgnored(rest);
      if Replayable(last.kind) {
        var kept := Filter(rest, known);
        assert (kept + [last])[..|kept + [last]| - 1] == kept;
      }
    }
  }

  // ---- playbooks of old logs

  /** Every replayed playbook has a revision count. */
  lemma {:induction false} PlaybooksCounted(events: seq<Event>, k: string)
    ensures k in Get(Replay(events), Playbook).rows ==> Get(Replay(events), Playbook).rows[k].revisionCount.Some?
    decreases |events|
  {
    if events != [] {
      PlaybooksCounted(events[..|events| - 1], k);
    }
  }

  /** A playbook logged without a count is replayed with none, that is 0, and otherwise as logged. */
  lemma OldPlaybook(events: seq<Event>, e: Event)
    requires e.kind == Playbook && e.after.Some?
    ensures
      var rows, logged := Get(Replay(events + [e]), Playbook).rows, e.after.value;
      && e.entityId in rows
      && rows[e.entityId] == if logged.revisionCount == None then logged.(revisionCount := Some(0)) else logged
  {
    assert (events + [e])[..|events|] == events;
  }

  // ---- the watermark

  /** The reported watermark is an event's id, but only that of the last event in the list given. */
  lemma WatermarkMayBeStale()
    ensures
      var k := Other("source_document");
      var events := [Event(2, k, "a", "", None), Event(1, k, "b", "", None)];
      Watermark(events) == Some(1) && exists e :: e in events && e.id > 1
  {
    var k := Other("source_document");
    var events := [Event(2, k, "a", "", None), Event(1, k, "b", "", None)];
    assert events[0] in events;
  }

  /** For a list in id order, as the log is read, it is the newest id. */
  lemma WatermarkIsNewest(events: seq<Event>)
    requires Increasing(events) && events != []
    ensures Watermark(events).Some? && forall e :: e in events ==> e.id <= Watermark(events).value
  {
    var last := |events| - 1;
    forall e | e in events
      ensures e.id <= events[last].id
    {
      var i :| 0 <= i < |events| && events[i] == e;
      assert i == last || events[i].id < events[last].id;
    }
  }

  // ---- the effective status at a moment

  function NormalizeWorkClaimAt(claim: Row, asOf: int): Row {
    if claim.status != "active" || (claim.expiresAt.Some? && claim.expiresAt.value > asOf) then claim
    else claim.(
      status := "expired",
      releasedAt := if claim.releasedAt.Some? then claim.releasedAt else claim.expiresAt,
      releaseReason := if claim.releaseReason.Some? then claim.releaseReason else Some("expired"))
  }

  function NormalizeHandoffAt(handoff: Row, asOf: int): Row {
    if handoff.status != "pending" || handoff.expiresAt == None || handoff.expiresAt.value > asOf then handoff
    else handoff.(
      status := "expired",
      decisionReason := if handoff.decisionReason.Some? then handoff.decisionReason else Some("expired"))
  }

  function MapRows(rows: seq<Row>, f: Row -> Row): (r: seq<Row>)
    ensures |r| == |rows| && forall i :: 0 <= i < |r| ==> r[i] == f(rows[i])
  {
    if rows == [] then [] else MapRows(rows[..|rows| - 1], f) + [f(rows[|rows| - 1])]
  }

  lemma MapAppend(s: seq<Row>, x: Row, f: Row -> Row)
    ensures MapRows(s + [x], f) == MapRows(s, f) + [f(x)]
  {
    assert (s + [x])[..|s|] == s;
  }

  function ByClaimed(): (Row, Row) -> bool {
    TimeThenId(ClaimedAt())
  }

  function ByCreated(): (Row, Row) -> bool {
    TimeThenId(CreatedAt())
  }

  function NormalizeReplayedTemporalState(state: ReplayedState, asOf: int): ReplayedState {
    state.(
      workClaims := Sort(MapRows(state.workClaims, ClaimsAt(asOf)), ByClaimed()),
      handoffs := Sort(MapRows(state.handoffs, HandoffsAt(asOf)), ByCreated()))
  }

  ghost predicate Keeps(f: Row -> Row, le: (Row, Row) -> bool) {
    forall a, b :: le(f(a), f(b)) <==> le(a, b)
  }

  lemma {:induction false} InsertCommutes(s: seq<Row>, x: Row, f: Row -> Row, le: (Row, Row) -> bool)
    requires Keeps(f, le)
    ensures MapRows(Insert(s, x, le), f) == Insert(MapRows(s, f), f(x), le)
    decreases |s|
  {
    if s == [] {
      MapAppend([], x, f);
    } else {
      var rest, last := s[..|s| - 1], s[|s| - 1];
      InsertCommutes(rest, x, f, le);
      MapAppend(s, x, f);
      MapAppend(Insert(rest, x, le), last, f);
      assert MapRows(s, f)[..|s| - 1] == MapRows(rest, f);
      assert le(f(last), f(x)) <==> le(last, x);
    }
  }

  lemma {:induction false} SortCommutes(s: seq<Row>, f: Row -> Row, le: (Row, Row) -> bool)
    requires Keeps(f, le)
    ensures MapRows(Sort(s, le), f) == Sort(MapRows(s, f), le)
    decreases |s|
  {
    if s != [] {
      SortCommutes(s[..|s| - 1], f, le);
      InsertCommutes(Sort(s[..|s| - 1], le), s[|s| - 1], f, le);
      assert MapRows(s, f)[..|s| - 1] == MapRows(s[..|s| - 1], f);
    }
  }

  lemma {:induction false} SortOfSorted(s: seq<Row>, le: (Row, Row) -> bool)
    requires Sorted(s, le)
    ensures Sort(s, le) == s
    decreases |s|
  {
    if s != [] {
      SortOfSorted(s[..|s| - 1], le);
      InsertAtEnd(s[..|s| - 1], s[|s| - 1], le);
      SplitLast(s);
    }
  }

  lemma InsertAtEnd(s: seq<Row>, x: Row, le: (Row, Row) -> bool)
    requires s != [] ==> le(s[|s| - 1], x)
    ensures Insert(s, x, le) == s + [x]
  {
  }

  lemma MapTwice(s: seq<Row>, f: Row -> Row, g: Row -> Row, h: Row -> Row)
    requires forall r :: g(f(r)) == h(r)
    ensures MapRows(MapRows(s, f), g) == MapRows(s, h)
  {
  }

  lemma TwoPasses(s: seq<Row>, f: Row -> Row, g: Row -> Row, h: Row -> Row, le: (Row, Row) -> bool)
    requires Keeps(g, le) && TotalPreorder(le) && forall r :: g(f(r)) == h(r)
    ensures Sort(MapRows(Sort(MapRows(s, f), le), g), le) == Sort(MapRows(s, h), le)
  {
    SortMapped(MapRows(s, f), g, le);
    MapTwice(s, f, g, h);
  }

  function ClaimsAt(asOf: int): Row -> Row {
    (r: Row) => NormalizeWorkClaimAt(r, asOf)
  }

  function HandoffsAt(asOf: int): Row -> Row {
    (r: Row) => NormalizeHandoffAt(r, asOf)
  }

  lemma OrderIsPreorder(time: Row -> int)
    ensures TotalPreorder(TimeThenId(time))
  {
  }

  lemma ClaimTwice(r: Row, t1: int, t2: int)
    ensures NormalizeWorkClaimAt(NormalizeWorkClaimAt(r, t1), t2) == NormalizeWorkClaimAt(r, Max(t1, t2))
    ensures NormalizeWorkClaimAt(r, t2).claimedAt == r.claimedAt && NormalizeWorkClaimAt(r, t2).id == r.id
  {
  }

  lemma HandoffTwice(r: Row, t1: int, t2: int)
    ensures NormalizeHandoffAt(NormalizeHandoffAt(r, t1), t2) == NormalizeHandoffAt(r, Max(t1, t2))
    ensures NormalizeHandoffAt(r, t2).createdAt == r.createdAt && NormalizeHandoffAt(r, t2).id == r.id
  {
  }

  lemma ClaimFacts(t1: int, t2: int)
    ensures Keeps(ClaimsAt(t2), ByClaimed())
    ensures forall r :: ClaimsAt(t2)(ClaimsAt(t1)(r)) == ClaimsAt(Max(t1, t2))(r)
  {
    forall a, b
      ensures ByClaimed()(ClaimsAt(t2)(a), ClaimsAt(t2)(b)) <==> ByClaimed()(a, b)
    {
      ClaimTwice(a, t1, t2);
      ClaimTwice(b, t1, t2);
    }
    forall r
      ensures ClaimsAt(t2)(ClaimsAt(t1)(r)) == ClaimsAt(Max(t1, t2))(r)
    {
      ClaimTwice(r, t1, t2);
    }
  }

  lemma HandoffFacts(t1: int, t2: int)
    ensures Keeps(HandoffsAt(t2), ByCreated())
    ensures forall r :: HandoffsAt(t2)(HandoffsAt(t1)(r)) == HandoffsAt(Max(t1, t2))(r)
  {
    forall a, b
      ensures ByCreated()(HandoffsAt(t2)(a), HandoffsAt(t2)(b)) <==> ByCreated()(a, b)
    {
      HandoffTwice(a, t1, t2);
      HandoffTwice(b, t1, t2);
    }
    forall r
      ensures HandoffsAt(t2)(HandoffsAt(t1)(r)) == HandoffsAt(Max(t1, t2))(r)
    {
      HandoffTwice(r, t1, t2);
    }
  }

  /** Normalising at one moment and then at another is normalising at the later one. */
  lemma NormalizeTwice(state: ReplayedState, t1: int, t2: int)
    ensures NormalizeReplayedTemporalState(NormalizeReplayedTemporalState(state, t1), t2) ==
      NormalizeReplayedTemporalState(state, Max(t1, t2))
  {
    ClaimFacts(t1, t2);
    OrderIsPreorder(ClaimedAt());
    TwoPasses(state.workClaims, ClaimsAt(t1), ClaimsAt(t2), ClaimsAt(Max(t1, t2)), ByClaimed());
    HandoffFacts(t1, t2);
    OrderIsPreorder(CreatedAt());
    TwoPasses(state.handoffs, HandoffsAt(t1), HandoffsAt(t2), HandoffsAt(Max(t1, t2)), ByCreated());
  }

  // ---- what the normalised state holds

  /** A claim comes out expired exactly if it was, or was active and its time has passed or was never set. */
  lemma ClaimAsOf(claim: Row, asOf: int)
    ensures
      var out := NormalizeWorkClaimAt(claim, asOf);
      var lapsed := claim.status == "active" && (claim.expiresAt == None || claim.expiresAt.value <= asOf);
      && out == claim.(status := out.status, releasedAt := out.releasedAt, releaseReason := out.releaseReason)
      && (out.status == "expired" <==> claim.status == "expired" || lapsed)
      && (!lapsed ==> out == claim)
      && (lapsed && claim.releasedAt == None ==> out.releasedAt == claim.expiresAt)
      && (lapsed && claim.releaseReason == None ==> out.releaseReason == Some("expired"))
      && (claim.releasedAt.Some? ==> out.releasedAt == claim.releasedAt)
      && (claim.releaseReason.Some? ==> out.releaseReason == claim.releaseReason)
  {
  }

  /** A handoff comes out expired exactly if it was, or was pending with a time set that has passed. */
  lemma HandoffAsOf(handoff: Row, asOf: int)
    ensures
      var out := NormalizeHandoffAt(handoff, asOf);
      var lapsed := handoff.status == "pending" && handoff.expiresAt.Some? && handoff.expiresAt.value <= asOf;
      && out == handoff.(status := out.status, decisionReason := out.decisionReason)
      && (out.status == "expired" <==> handoff.status == "expired" || lapsed)
      && (!lapsed ==> out == handoff)
      && (lapsed && handoff.decisionReason == None ==> out.decisionReason == Some("expired"))
      && (handoff.decisionReason.Some? ==> out.decisionReason == handoff.decisionReason)
  {
  }

  function MapValues(rows: map<string, Row>, f: Row -> Row): map<string, Row> {
    map k | k in rows :: f(rows[k])
  }

  /** The rows with claims and handoffs as they stand at a moment. */
  ghost function RowsAsOf(rowsOf: RowsOf, asOf: int): RowsOf {
    k =>
      if k == WorkClaim then MapValues(rowsOf(k), ClaimsAt(asOf))
      else if k == Handoff then MapValues(rowsOf(k), HandoffsAt(asOf))
      else rowsOf(k)
  }

  function MapTable(t: Table, f: Row -> Row): Table {
    Table(t.keys, MapValues(t.rows, f))
  }

  lemma MappedTableOk(t: Table, f: Row -> Row)
    requires TableOk(t) && Closed(t)
    ensures TableOk(MapTable(t, f)) && Closed(MapTable(t, f)) && Values(MapTable(t, f)) == MapRows(Values(t), f)
  {
    var u := MapTable(t, f);
    assert forall k :: k in u.rows.Keys <==> k in t.rows.Keys;
    TableClosed(u);
  }

  lemma ListOfAll(t: Table, le: (Row, Row) -> bool)
    requires Closed(t)
    ensures List(t, All(), le) == Sort(Values(t), le)
  {
    FilterAll(Values(t), All());
  }

  lemma MappedListing(t: Table, f: Row -> Row, le: (Row, Row) -> bool)
    requires TableOk(t) && Closed(t) && Closed(MapTable(t, f)) && Keeps(f, le) && TotalPreorder(le)
    ensures Sort(MapRows(List(t, All(), le), f), le) == List(MapTable(t, f), All(), le)
  {
    ListOfAll(t, le);
    ListOfAll(MapTable(t, f), le);
    MappedTableOk(t, f);
    SortMapped(Values(t), f, le);
  }

  lemma SortMapped(rows: seq<Row>, f: Row -> Row, le: (Row, Row) -> bool)
    requires Keeps(f, le) && TotalPreorder(le)
    ensures Sort(MapRows(Sort(rows, le), f), le) == Sort(MapRows(rows, f), le)
  {
    SortCommutes(rows, f, le);
    SortSorted(MapRows(rows, f), le);
    SortOfSorted(Sort(MapRows(rows, f), le), le);
  }

  lemma NormalizedClaims(t: Table, asOf: int, rows: seq<Row>)
    requires TableOk(t) && Closed(t)
    requires rows == Sort(MapRows(List(t, All(), TimeThenId(ClaimedAt())), ClaimsAt(asOf)), ByClaimed())
    ensures HoldsAll(rows, MapValues(t.rows, ClaimsAt(asOf))) && InClaimOrder(rows)
  {
    ClaimFacts(asOf, asOf);
    OrderIsPreorder(ClaimedAt());
    MappedTableOk(t, ClaimsAt(asOf));
    MappedListing(t, ClaimsAt(asOf), ByClaimed());
    ClaimsOfAll(MapTable(t, ClaimsAt(asOf)), rows, MapValues(t.rows, ClaimsAt(asOf)));
  }

  lemma NormalizedHandoffs(t: Table, asOf: int, rows: seq<Row>)
    requires TableOk(t) && Closed(t)
    requires rows == Sort(MapRows(List(t, All(), TimeThenId(CreatedAt())), HandoffsAt(asOf)), ByCreated())
    ensures HoldsAll(rows, MapValues(t.rows, HandoffsAt(asOf))) && InCreationOrder(rows)
  {
    HandoffFacts(asOf, asOf);
    OrderIsPreorder(CreatedAt());
    MappedTableOk(t, HandoffsAt(asOf));
    MappedListing(t, HandoffsAt(asOf), ByCreated());
    CreationOfAll(MapTable(t, HandoffsAt(asOf)), rows, MapValues(t.rows, HandoffsAt(asOf)));
  }

  /** After normalising, the fields hold the rows with claims and handoffs as they stand at the moment. */
  lemma NormalizedFields(t: Tables, session: Option<string>, r: ReplayedState, asOf: int)
    requires AllClosed(t) && TablesOk(t) && r == Listed(t, session, r.watermarkEventId)
    ensures FieldsOf(NormalizeReplayedTemporalState(r, asOf), session, RowsAsOf(RowsIn(t), asOf))
  {
    var out := NormalizeReplayedTemporalState(r, asOf);
    ListedFields(t, session, r);
    AllTablesOk(t);
    RowsInEach(t);
    NormalizedClaims(t.workClaims, asOf, out.workClaims);
    NormalizedHandoffs(t.handoffs, asOf, out.handoffs);
    FieldsAsOf(r, session, RowsIn(t), asOf, out);
  }

  lemma FieldsAsOf(r: ReplayedState, session: Option<string>, rowsOf: RowsOf, asOf: int, out: ReplayedState)
    requires FieldsOf(r, session, rowsOf) && out == r.(workClaims := out.workClaims, handoffs := out.handoffs)
    requires HoldsAll(out.workClaims, MapValues(rowsOf(WorkClaim), ClaimsAt(asOf))) && InClaimOrder(out.workClaims)
    requires HoldsAll(out.handoffs, MapValues(rowsOf(Handoff), HandoffsAt(asOf))) && InCreationOrder(out.handoffs)
    ensures FieldsOf(out, session, RowsAsOf(rowsOf, asOf))
  {
    var moment := RowsAsOf(rowsOf, asOf);
    assert moment(Turn) == rowsOf(Turn) && moment(WorkingMemory) == rowsOf(WorkingMemory);
    assert moment(Knowledge) == rowsOf(Knowledge) && moment(WorkItem) == rowsOf(WorkItem);
    assert moment(Association) == rowsOf(Association) && moment(Playbook) == rowsOf(Playbook);
    assert moment(SessionState) == rowsOf(SessionState);
  }
}
