/**
 * The knowledge change poller (src/core/sync.ts, src/core/manager.ts): overlapping timer ticks, slow
 * and failing fetches, and a log that grows meanwhile. Each await of the source is a place where
 * other steps may come in between.
 */
module MemorySync {
  import opened Wrappers
  import opened Sequences
  import opened Sorting
  import opened TemporalReplay
  import opened Pagination

  datatype Change = Change(eventId: nat, eventType: string, knowledge: Row)

  // ---- turning events into changes

  predicate IsKnowledgeChangeEvent(e: Event) {
    e.kind == Knowledge && e.eventType != "knowledge.touched"
  }

  /** The snapshot in the event, or else the record as it is now. */
  function Resolve(lookup: string -> Option<Row>, e: Event): Option<Row> {
    if e.after.Some? then e.after else lookup(e.entityId)
  }

  function ChangesOf(lookup: string -> Option<Row>, e: Event): seq<Change> {
    if IsKnowledgeChangeEvent(e) && Resolve(lookup, e).Some?
    then [Change(e.id, e.eventType, Resolve(lookup, e).value)] else []
  }

  function Materialize(lookup: string -> Option<Row>, events: seq<Event>): seq<Change> {
    if events == [] then []
    else Materialize(lookup, events[..|events| - 1]) + ChangesOf(lookup, events[|events| - 1])
  }

  method MaterializeKnowledgeChanges(lookup: string -> Option<Row>, events: seq<Event>) returns (changes: seq<Change>)
    ensures changes == Materialize(lookup, events)
  {
    changes := [];
    for i := 0 to |events|
      invariant changes == Materialize(lookup, events[..i])
    {
      assert events[..i + 1][..i] == events[..i];
      var event := events[i];
      if IsKnowledgeChangeEvent(event) {
        var knowledge := Resolve(lookup, event);
        if knowledge.Some? {
          changes := changes + [Change(event.id, event.eventType, knowledge.value)];
        }
      }
    }
    assert events[..|events|] == events;
  }

  function Rows(changes: seq<Change>): (r: seq<Row>)
    ensures |r| == |changes| && forall i :: 0 <= i < |r| ==> r[i] == changes[i].knowledge
  {
    seq(|changes|, i requires 0 <= i < |changes| => changes[i].knowledge)
  }

  /** The rows of the first n batches. */
  function FlattenTo(batches: seq<seq<Row>>, n: nat): seq<Row>
    requires n <= |batches|
  {
    if n == 0 then [] else FlattenTo(batches, n - 1) + batches[n - 1]
  }

  function Flatten(batches: seq<seq<Row>>): seq<Row> {
    FlattenTo(batches, |batches|)
  }

  // ---- what should have been delivered

  function IsKnowledge(): Event -> bool {
    (e: Event) => e.kind == Knowledge
  }

  function KnowledgeEvents(log: seq<Event>): seq<Event> {
    Filter(log, IsKnowledge())
  }

  /** The knowledge events a reader at this cursor has not seen. */
  function Unseen(log: seq<Event>, cursor: Cursor): seq<Event> {
    Filter(log, (e: Event) => e.kind == Knowledge && Beyond(cursor, e))
  }

  lemma {:induction false} UnseenIsAfter(log: seq<Event>, cursor: Cursor)
    ensures Unseen(log, cursor) == After(KnowledgeEvents(log), cursor)
    decreases |log|
  {
    if log != [] {
      var front, last := log[..|log| - 1], log[|log| - 1];
      UnseenIsAfter(front, cursor);
      FilterSnoc(KnowledgeEvents(front), last, (e: Event) => Beyond(cursor, e));
    }
  }

  function Within(start: nat, end: nat): Event -> bool {
    (e: Event) => IsKnowledgeChangeEvent(e) && start < e.id <= end
  }

  /** The rows of all knowledge changes with ids in (start, end], in log order. */
  function Due(lookup: string -> Option<Row>, log: seq<Event>, start: nat, end: nat): seq<Row> {
    Rows(Materialize(lookup, Filter(log, Within(start, end))))
  }

  // ---- what goes out is what was logged

  /** A change: a knowledge event other than a touch. */
  function IsChange(start: nat, end: nat): Event -> bool {
    (e: Event) => e.kind == Knowledge && e.eventType != "knowledge.touched" && start < e.id <= end
  }

  /** A change with a snapshot goes out as that snapshot, under the id and type of its event. */
  lemma {:induction false} MaterializeSnapshots(lookup: string -> Option<Row>, events: seq<Event>)
    requires forall i :: 0 <= i < |events| ==>
      events[i].after.Some? && events[i].kind == Knowledge && events[i].eventType != "knowledge.touched"
    ensures
      var changes := Materialize(lookup, events);
      |changes| == |events| && forall i :: 0 <= i < |events| ==>
        changes[i] == Change(events[i].id, events[i].eventType, events[i].after.value)
    decreases |events|
  {
    if events != [] {
      MaterializeSnapshots(lookup, events[..|events| - 1]);
      var last := events[|events| - 1];
      assert ChangesOf(lookup, last) == [Change(last.id, last.eventType, last.after.value)];
    }
  }

  /**
   * What is due are the logged snapshots of the changes, in log order, whatever the records are by now,
   * if every change carries its snapshot.
   */
  lemma DueIsSnapshots(lookup: string -> Option<Row>, log: seq<Event>, start: nat, end: nat)
    requires forall e :: e in log && IsChange(start, end)(e) ==> e.after.Some?
    ensures
      var changes, due := Filter(log, IsChange(start, end)), Due(lookup, log, start, end);
      |due| == |changes| && forall i :: 0 <= i < |due| ==> Some(due[i]) == changes[i].after
  {
    var changes := Filter(log, Within(start, end));
    FilterSame(log, Within(start, end), IsChange(start, end));
    forall i | 0 <= i < |changes|
      ensures IsChange(start, end)(changes[i]) && changes[i].after.Some?
    {
      var e := changes[i];
      assert e in changes;
      FilterMember(log, IsChange(start, end), e);
    }
    MaterializeSnapshots(lookup, changes);
  }

  /** So the records as they are now make no difference. */
  lemma DueIgnoresLookup(
    lookup: string -> Option<Row>, other: string -> Option<Row>, log: seq<Event>, start: nat, end: nat
  )
    requires forall e :: e in log && IsChange(start, end)(e) ==> e.after.Some?
    ensures Due(lookup, log, start, end) == Due(other, log, start, end)
  {
    DueIsSnapshots(lookup, log, start, end);
    DueIsSnapshots(other, log, start, end);
  }

  /** A change without snapshot goes out with the record as it is now, and not at all if there is none. */
  lemma WithoutSnapshot(lookup: string -> Option<Row>, e: Event)
    requires e.kind == Knowledge && e.eventType != "knowledge.touched" && e.after == None
    ensures Rows(ChangesOf(lookup, e)) ==
      if lookup(e.entityId).Some? then [lookup(e.entityId).value] else []
  {
  }

  lemma {:induction false} FilterIncreasing(s: seq<Event>, keep: Event -> bool)
    requires Increasing(s)
    ensures Increasing(Filter(s, keep))
    decreases |s|
  {
    if s != [] {
      var front, last := s[..|s| - 1], s[|s| - 1];
      FilterIncreasing(front, keep);
      var kept := Filter(front, keep);
      forall i | 0 <= i < |kept|
        ensures kept[i].id < last.id
      {
        var x := kept[i];
        assert x in kept;
        FilterMember(front, keep, x);
      }
    }
  }

  lemma {:induction false} MaterializeConcat(lookup: string -> Option<Row>, a: seq<Event>, b: seq<Event>)
    ensures Materialize(lookup, a + b) == Materialize(lookup, a) + Materialize(lookup, b)
    decreases |b|
  {
    if b == [] {
      assert a + b == a;
    } else {
      MaterializeConcat(lookup, a, b[..|b| - 1]);
      MaterializeConcatSnoc(lookup, a, b[..|b| - 1], b[|b| - 1]);
      SplitLast(b);
    }
  }

  lemma MaterializeConcatSnoc(lookup: string -> Option<Row>, a: seq<Event>, b: seq<Event>, x: Event)
    requires Materialize(lookup, a + b) == Materialize(lookup, a) + Materialize(lookup, b)
    ensures Materialize(lookup, a + (b + [x])) == Materialize(lookup, a) + Materialize(lookup, b + [x])
  {
    AppendAssociates(a, b, [x]);
    MaterializeSnoc(lookup, a + b, x);
    MaterializeSnoc(lookup, b, x);
    AppendAssociates(Materialize(lookup, a), Materialize(lookup, b), ChangesOf(lookup, x));
  }

  lemma MaterializeSnoc(lookup: string -> Option<Row>, s: seq<Event>, x: Event)
    ensures Materialize(lookup, s + [x]) == Materialize(lookup, s) + ChangesOf(lookup, x)
  {
    assert (s + [x])[..|s|] == s;
  }

  // Events that are no changes yield none.
  lemma {:induction false} MaterializeFiltered(lookup: string -> Option<Row>, s: seq<Event>, keep: Event -> bool)
    requires forall i :: 0 <= i < |s| ==> (keep(s[i]) <==> IsKnowledgeChangeEvent(s[i]))
    ensures Materialize(lookup, Filter(s, keep)) == Materialize(lookup, s)
    decreases |s|
  {
    if s != [] {
      MaterializeFiltered(lookup, s[..|s| - 1], keep);
      var kept := Filter(s[..|s| - 1], keep);
      assert (kept + [s[|s| - 1]])[..|kept|] == kept;
    }
  }

  // ---- one page moves the cursor over exactly what it delivers

  lemma FilterGains(m: seq<Event>, a: seq<Event>, b: seq<Event>, c: seq<Event>, p: Event -> bool, q: Event -> bool)
    requires m == a + b + c && Filter(a, p) == Filter(a, q)
    requires Filter(b, p) == [] && Filter(c, p) == [] && Filter(c, q) == []
    ensures Filter(m, q) == Filter(m, p) + Filter(b, q)
  {
    Cut3(m, a, b, c, p);
    Cut3(m, a, b, c, q);
  }

  // m is the events up to the cursor, the page, and the events after it.
  ghost predicate Parts(m: seq<Event>, a: seq<Event>, b: seq<Event>, c: seq<Event>, cur: nat, next: nat) {
    && m == a + b + c
    && (forall k :: 0 <= k < |a| ==> a[k].id <= cur)
    && (forall k :: 0 <= k < |b| ==> cur < b[k].id <= next)
    && (forall k :: 0 <= k < |c| ==> next < c[k].id)
  }

  lemma FilterMoves(m: seq<Event>, a: seq<Event>, b: seq<Event>, c: seq<Event>, start: nat, cur: nat, next: nat)
    requires Parts(m, a, b, c, cur, next) && start <= cur <= next
    ensures Filter(m, Within(start, next)) == Filter(m, Within(start, cur)) + Filter(b, Within(start, next))
  {
    FilterSame(a, Within(start, cur), Within(start, next));
    FilterNone(b, Within(start, cur));
    FilterNone(c, Within(start, cur));
    FilterNone(c, Within(start, next));
    FilterGains(m, a, b, c, Within(start, cur), Within(start, next));
  }

  lemma SliceParts(m: seq<Event>, i: nat, j: nat, cur: nat)
    requires Increasing(m) && SplitsAt(m, Some(cur), i) && i < j <= |m|
    ensures cur < m[j - 1].id && Parts(m, m[..i], m[i..j], m[j..], cur, m[j - 1].id)
  {
    assert m == m[..i] + m[i..j] + m[j..];
    assert forall k :: i <= k < j ==> m[k].id <= m[j - 1].id;
  }

  lemma PrefixOfSuffix(m: seq<Event>, i: nat, events: seq<Event>)
    requires i <= |m| && events != [] && events <= m[i..]
    ensures i + |events| <= |m| && events == m[i..i + |events|]
    ensures events[|events| - 1] == m[i + |events| - 1]
  {
  }

  lemma PageParts(m: seq<Event>, cur: nat, events: seq<Event>) returns (a: seq<Event>, c: seq<Event>)
    requires Increasing(m) && events != [] && events <= After(m, Some(cur))
    ensures cur < events[|events| - 1].id && Parts(m, a, events, c, cur, events[|events| - 1].id)
  {
    var i := SplitPoint(m, Some(cur));
    var j := i + |events|;
    PrefixOfSuffix(m, i, events);
    SliceParts(m, i, j, cur);
    a, c := m[..i], m[j..];
  }

  lemma DueGrows(lookup: string -> Option<Row>, log: seq<Event>, start: nat, cur: nat, events: seq<Event>)
    requires Increasing(log) && start <= cur
    requires events != [] && events <= After(KnowledgeEvents(log), Some(cur))
    ensures
      var next := events[|events| - 1].id;
      && cur < next && events[|events| - 1] in log
      && Due(lookup, log, start, next) == Due(lookup, log, start, cur) + Rows(Materialize(lookup, events))
  {
    var m, next := KnowledgeEvents(log), events[|events| - 1].id;
    FilterIncreasing(log, IsKnowledge());
    var a, c := PageParts(m, cur, events);
    LastIn(m, a, events, c);
    FilterMember(log, IsKnowledge(), events[|events| - 1]);
    FilterMoves(m, a, events, c, start, cur, next);
    FilterTwice(log, IsKnowledge(), Within(start, cur));
    FilterTwice(log, IsKnowledge(), Within(start, next));
    MaterializeFiltered(lookup, events, Within(start, next));
    RowsGrow(lookup, Filter(log, Within(start, next)), Filter(log, Within(start, cur)), events, Within(start, next));
  }

  lemma LastIn(m: seq<Event>, a: seq<Event>, b: seq<Event>, c: seq<Event>)
    requires m == a + b + c && b != []
    ensures b[|b| - 1] in m
  {
    assert m[|a| + |b| - 1] == b[|b| - 1];
  }

  lemma RowsGrow(
    lookup: string -> Option<Row>, all: seq<Event>, before: seq<Event>, events: seq<Event>, keep: Event -> bool
  )
    requires all == before + Filter(events, keep)
    requires Materialize(lookup, Filter(events, keep)) == Materialize(lookup, events)
    ensures Rows(Materialize(lookup, all)) == Rows(Materialize(lookup, before)) + Rows(Materialize(lookup, events))
  {
    MaterializeConcat(lookup, before, Filter(events, keep));
  }

  lemma DueKept(lookup: string -> Option<Row>, log: seq<Event>, e: Event, start: nat, cur: nat)
    requires cur < e.id
    ensures Due(lookup, log + [e], start, cur) == Due(lookup, log, start, cur)
  {
    FilterSnoc(log, e, Within(start, cur));
  }

  lemma PageKept(log: seq<Event>, e: Event, cursor: Cursor, events: seq<Event>)
    requires events <= Unseen(log, cursor)
    ensures events <= Unseen(log + [e], cursor)
  {
    FilterSnoc(log, e, (x: Event) => x.kind == Knowledge && Beyond(cursor, x));
  }

  // ---- the poller and the log it reads

  datatype CursorPromise = NotAsked | Pending | Resolved(cursor: nat) | Rejected

  // Where the running poll waits, and the page on its way to it.
  datatype Stage = Idle | AwaitingCursor | AwaitingPage | PageReady(page: Page)

  datatype PollStep =
    | Write(e: Event) | TimerTick | CursorSettles(cursor: nat) | CursorThrows | Serve(limit: nat) | FetchThrows | Arrive

  /** Ids increase along the log and stay below the bound. */
  ghost predicate IdsBelow(log: seq<Event>, bound: nat) {
    log != [] ==> log[|log| - 1].id < bound && IdsBelow(log[..|log| - 1], log[|log| - 1].id)
  }

  ghost predicate LogOk(log: seq<Event>, lastId: nat) {
    IdsBelow(log, lastId + 1)
  }

  ghost predicate StageOk(promise: CursorPromise, cursor: Cursor, inFlight: bool, stage: Stage) {
    && (inFlight <==> stage != Idle)
    && (stage == AwaitingCursor <==> promise == Pending)
    && (cursor == None <==> !promise.Resolved?)
    && (stage.AwaitingPage? || stage.PageReady? ==> cursor.Some?)
  }

  /** Everything delivered so far is exactly what was due between the first cursor and the current one. */
  ghost predicate Delivered(
    lookup: string -> Option<Row>, log: seq<Event>, lastId: nat, start: nat, cursor: Cursor, batches: seq<seq<Row>>
  ) {
    if cursor == None then batches == []
    else start <= cursor.value <= lastId && Flatten(batches) == Due(lookup, log, start, cursor.value)
  }

  ghost predicate PageSound(log: seq<Event>, cursor: Cursor, page: Page) {
    && page.events <= Unseen(log, cursor)
    && (page.events == [] ==> page.nextCursor == None)
  }

  ghost predicate ReadyPageSound(log: seq<Event>, cursor: Cursor, stage: Stage) {
    stage.PageReady? ==> PageSound(log, cursor, stage.page)
  }

  ghost predicate Sound(
    lookup: string -> Option<Row>, log: seq<Event>, lastId: nat, start: nat, promise: CursorPromise, cursor: Cursor,
    inFlight: bool, stage: Stage, batches: seq<seq<Row>>
  ) {
    && LogOk(log, lastId) && StageOk(promise, cursor, inFlight, stage)
    && Delivered(lookup, log, lastId, start, cursor, batches) && ReadyPageSound(log, cursor, stage)
  }

  class Poller {
    const lookup: string -> Option<Row>
    var log: seq<Event>
    var lastId: nat
    var lastCursorPromise: CursorPromise
    var lastCursor: Cursor
    var inFlight: bool
    var stage: Stage
    var batches: seq<seq<Row>>
    ghost var start: nat

    ghost predicate Valid()
      reads this
    {
      Sound(lookup, log, lastId, start, lastCursorPromise, lastCursor, inFlight, stage, batches)
    }

    constructor (lookup: string -> Option<Row>)
      ensures Valid() && log == [] && batches == [] && stage == Idle && lastCursorPromise == NotAsked
    {
      this.lookup := lookup;
      log, lastId, lastCursorPromise, lastCursor, inFlight, stage, batches, start :=
        [], 0, NotAsked, None, false, Idle, [], 0;
    }

    /** Somebody writes to the log. */
    method Append(e: Event)
      requires Valid() && e.id > lastId
      modifies this`log, this`lastId
      ensures Valid() && log == old(log) + [e] && lastId == e.id
    {
      AppendKeepsSound(
        lookup, log, lastId, e, start, lastCursorPromise, lastCursor, inFlight, stage, batches);
      log, lastId := log + [e], e.id;
    }

    /** A timer tick: while a poll is running it does nothing. */
    method Tick()
      requires Valid()
      modifies this`inFlight, this`stage, this`lastCursorPromise
      ensures Valid()
      ensures old(inFlight) ==> stage == old(stage) && lastCursorPromise == old(lastCursorPromise)
      ensures !old(inFlight) && old(lastCursorPromise).NotAsked? ==> stage == AwaitingCursor
      ensures !old(inFlight) && old(lastCursorPromise).Resolved? ==> stage == AwaitingPage
      ensures !old(inFlight) && old(lastCursorPromise).Rejected? ==> stage == Idle
      ensures old(lastCursorPromise).Rejected? ==> lastCursorPromise.Rejected?
    {
      if inFlight {
        return;
      }
      inFlight := true;
      if lastCursorPromise == NotAsked {
        lastCursorPromise := Pending;
      }
      if lastCursor.Some? {
        stage := AwaitingPage;
      } else if lastCursorPromise == Rejected {
        // Awaiting a promise that has already failed throws at once.
        inFlight := false;
      } else {
        stage := AwaitingCursor;
      }
    }

    /** The first cursor arrives: an id the log has already given out, or 0. */
    method CursorResolves(cursor: nat)
      requires Valid() && stage == AwaitingCursor && cursor <= lastId
      modifies this`lastCursor, this`lastCursorPromise, this`stage, this`start
      ensures Valid() && lastCursor == Some(cursor) && start == cursor && stage == AwaitingPage
    {
      lastCursorPromise, lastCursor, start, stage := Resolved(cursor), Some(cursor), cursor, AwaitingPage;
      NothingDue(lookup, log, cursor);
    }

    /** The first cursor fails. The failed promise is kept, so it is never asked for again. */
    method CursorFails()
      requires Valid() && stage == AwaitingCursor
      modifies this`lastCursorPromise, this`stage, this`inFlight
      ensures Valid() && lastCursorPromise == Rejected && stage == Idle
    {
      lastCursorPromise, stage, inFlight := Rejected, Idle, false;
    }

    /** The server answers from the log as it is at this moment. */
    method PageServed(page: Page)
      requires Valid() && stage == AwaitingPage && PageOk(KnowledgeEvents(log), lastCursor, page)
      modifies this`stage
      ensures Valid() && stage == PageReady(page)
    {
      UnseenIsAfter(log, lastCursor);
      stage := PageReady(page);
    }

    /** The request fails: nothing is delivered and the cursor stays. */
    method PageFails()
      requires Valid() && (stage == AwaitingPage || stage.PageReady?)
      modifies this`stage, this`inFlight
      ensures Valid() && stage == Idle
    {
      stage, inFlight := Idle, false;
    }

    /** The answer arrives: its changes go out as one batch, if there are any, and the cursor moves past them. */
    method PageArrives()
      requires Valid() && stage.PageReady?
      modifies this`lastCursor, this`batches, this`stage, this`inFlight
      ensures Valid() && stage == Idle
      ensures batches == WithBatch(old(batches), Rows(Materialize(lookup, old(stage).page.events)))
      ensures lastCursor == NextCursor(old(stage).page, old(lastCursor))
    {
      var page := stage.page;
      var changes := MaterializeKnowledgeChanges(lookup, page.events);
      ArrivalKeepsSound(lookup, log, lastId, start, lastCursorPromise, lastCursor, batches, page);
      lastCursor, stage, inFlight := NextCursor(page, lastCursor), Idle, false;
      if |changes| > 0 {
        batches := batches + [Rows(changes)];
      }
    }

    /**
     * While the first cursor has not failed the poller can still deliver everything: ticks and answered
     * requests alone, with any first cursor the log has given out and any page size, bring it to where
     * what was delivered is all that was due up to the newest entry of the log.
     */
    method CatchUp(first: nat, limit: nat)
      requires Valid() && !lastCursorPromise.Rejected? && first <= lastId
      modifies this
      ensures Valid() && log == old(log) && lastId == old(lastId)
      ensures lastCursor.Some? && start == if old(lastCursor).Some? then old(start) else first
      ensures Flatten(batches) == Due(lookup, log, start, lastId)
    {
      Connect(first);
      if stage.PageReady? {
        PageArrives();
      }
      var done := false;
      while !done
        invariant Valid() && log == old(log) && lastId == old(lastId)
        invariant lastCursor.Some? && start == if old(lastCursor).Some? then old(start) else first
        invariant stage == Idle || stage == AwaitingPage
        invariant done ==> Flatten(batches) == Due(lookup, log, start, lastId)
        decreases !done, if lastCursor.Some? then lastId - lastCursor.value else 0
      {
        done := Poll(limit);
      }
    }

    /** The first cursor is asked for, if it has not been, and settles on first, if it has not settled. */
    method Connect(first: nat)
      requires Valid() && !lastCursorPromise.Rejected? && first <= lastId
      modifies this`inFlight, this`stage, this`lastCursorPromise, this`lastCursor, this`start
      ensures Valid() && lastCursor.Some? && start == if old(lastCursor).Some? then old(start) else first
    {
      if lastCursorPromise == NotAsked {
        Tick();
      }
      if stage == AwaitingCursor {
        CursorResolves(first);
      }
    }

    /** One poll that is answered. It moves the cursor on, or nothing is left to deliver. */
    method Poll(limit: nat) returns (last: bool)
      requires Valid() && lastCursor.Some? && (stage == Idle || stage == AwaitingPage)
      modifies this`inFlight, this`stage, this`lastCursorPromise, this`lastCursor, this`batches
      ensures Valid() && stage == Idle && lastCursor.Some?
      ensures last ==> Flatten(batches) == Due(lookup, log, start, lastId)
      ensures !last ==> lastCursor.value > old(lastCursor.value)
    {
      if stage == Idle {
        Tick();
      }
      var page := ServeFromLog(limit);
      last := page.nextCursor == None;
      AfterPage(lookup, log, lastId, start, lastCursor, batches, page);
      PageServed(page);
      PageArrives();
    }

    method CursorAnswers(cursor: Option<nat>)
      requires Valid()
      modifies this`lastCursor, this`lastCursorPromise, this`stage, this`inFlight, this`start
      ensures Valid()
      ensures old(lastCursorPromise).Rejected? ==> lastCursorPromise.Rejected?
      ensures old(lastCursor).Some? ==> lastCursor.Some? && start == old(start)
    {
      if stage == AwaitingCursor {
        if cursor.Some? && cursor.value <= lastId {
          CursorResolves(cursor.value);
        } else if cursor == None {
          CursorFails();
        }
      }
    }

    method FetchAnswers(limit: Option<nat>)
      requires Valid()
      modifies this`stage, this`inFlight
      ensures Valid()
    {
      if limit.Some? && stage == AwaitingPage {
        var page := ServeFromLog(limit.value);
        PageServed(page);
      } else if limit == None && (stage == AwaitingPage || stage.PageReady?) {
        PageFails();
      }
    }

    /** Takes a step if it is possible now. */
    method Take(step: PollStep)
      requires Valid()
      modifies this
      ensures Valid()
      ensures old(lastCursorPromise).Rejected? ==> lastCursorPromise.Rejected? && batches == old(batches)
      ensures old(lastCursor).Some? ==> lastCursor.Some? && start == old(start)
    {
      match step
      case Write(e) =>
        if e.id > lastId {
          Append(e);
        }
      case TimerTick =>
        Tick();
      case CursorSettles(c) =>
        CursorAnswers(Some(c));
      case CursorThrows =>
        CursorAnswers(None);
      case Serve(limit) =>
        FetchAnswers(Some(limit));
      case FetchThrows =>
        FetchAnswers(None);
      case Arrive =>
        if stage.PageReady? {
          PageArrives();
        }
    }

    method ServeFromLog(limit: nat) returns (page: Page)
      requires Valid() && stage == AwaitingPage
      ensures PageOk(KnowledgeEvents(log), lastCursor, page)
    {
      ghost var m := KnowledgeEvents(log);
      LogIncreases(log, lastId + 1);
      FilterIncreasing(log, IsKnowledge());
      PaginateEventsOk(m, m, lastCursor, limit + 1);
      page := PaginateEvents(KnowledgeEvents(log), lastCursor, limit + 1);
    }

    /**
     * Any run of log writes, ticks, answers and failures: what was delivered stays exactly what was due
     * from the first cursor to the current one, and once the first cursor has failed nothing ever is.
     */
    method Run(steps: seq<PollStep>)
      requires Valid()
      modifies this
      ensures Valid() && Delivered(lookup, log, lastId, start, lastCursor, batches)
      ensures old(lastCursorPromise).Rejected? ==> lastCursorPromise.Rejected? && batches == [] && lastCursor == None
      ensures old(lastCursor).Some? ==> lastCursor.Some? && start == old(start)
    {
      for i := 0 to |steps|
        invariant Valid()
        invariant old(lastCursorPromise).Rejected? ==> lastCursorPromise.Rejected?
        invariant old(lastCursor).Some? ==> lastCursor.Some? && start == old(start)
      {
        Take(steps[i]);
      }
    }
  }

  /** The last event of the page, or what the page names, or the cursor as it was. */
  function NextCursor(page: Page, cursor: Cursor): Cursor {
    if page.events != [] then Some(page.events[|page.events| - 1].id)
    else if page.nextCursor.Some? then page.nextCursor
    else cursor
  }

  /** An empty batch is not handed out. */
  function WithBatch(batches: seq<seq<Row>>, rows: seq<Row>): seq<seq<Row>> {
    if rows == [] then batches else batches + [rows]
  }

  lemma DeliveredKept(
    lookup: string -> Option<Row>, log: seq<Event>, lastId: nat, e: Event, start: nat, cursor: Cursor,
    batches: seq<seq<Row>>
  )
    requires Delivered(lookup, log, lastId, start, cursor, batches) && e.id > lastId
    ensures Delivered(lookup, log + [e], e.id, start, cursor, batches)
  {
    if cursor.Some? {
      DueKept(lookup, log, e, start, cursor.value);
    }
  }

  lemma AppendKeepsSound(
    lookup: string -> Option<Row>, log: seq<Event>, lastId: nat, e: Event, start: nat, promise: CursorPromise,
    cursor: Cursor, inFlight: bool, stage: Stage, batches: seq<seq<Row>>
  )
    requires Sound(lookup, log, lastId, start, promise, cursor, inFlight, stage, batches) && e.id > lastId
    ensures Sound(lookup, log + [e], e.id, start, promise, cursor, inFlight, stage, batches)
  {
    DeliveredKept(lookup, log, lastId, e, start, cursor, batches);
    LogGrows(log, lastId, e);
    PageStaysSound(log, e, cursor, stage);
  }

  lemma LogGrows(log: seq<Event>, lastId: nat, e: Event)
    requires LogOk(log, lastId) && e.id > lastId
    ensures LogOk(log + [e], e.id)
  {
    assert (log + [e])[..|log|] == log;
  }

  lemma {:induction false} LogIncreases(log: seq<Event>, bound: nat)
    requires IdsBelow(log, bound)
    ensures Increasing(log) && forall i :: 0 <= i < |log| ==> log[i].id < bound
    decreases |log|
  {
    if log != [] {
      var front, last := log[..|log| - 1], log[|log| - 1];
      LogIncreases(front, last.id);
      SplitLast(log);
      IncreasingSnoc(front, last, bound);
    }
  }

  lemma IncreasingSnoc(log: seq<Event>, e: Event, bound: nat)
    requires Increasing(log) && (forall i :: 0 <= i < |log| ==> log[i].id < e.id) && e.id < bound
    ensures Increasing(log + [e]) && forall i :: 0 <= i < |log + [e]| ==> (log + [e])[i].id < bound
  {
  }

  lemma PageStaysSound(log: seq<Event>, e: Event, cursor: Cursor, stage: Stage)
    requires ReadyPageSound(log, cursor, stage)
    ensures ReadyPageSound(log + [e], cursor, stage)
  {
    if stage.PageReady? {
      PageKept(log, e, cursor, stage.page.events);
    }
  }

  lemma AfterArrival(
    lookup: string -> Option<Row>, log: seq<Event>, lastId: nat, start: nat, cursor: Cursor, batches: seq<seq<Row>>,
    page: Page
  )
    requires LogOk(log, lastId) && cursor.Some? && Delivered(lookup, log, lastId, start, cursor, batches)
    requires PageSound(log, cursor, page)
    ensures NextCursor(page, cursor).Some?
    ensures Delivered(
      lookup, log, lastId, start, NextCursor(page, cursor), WithBatch(batches, Rows(Materialize(lookup, page.events))))
  {
    var events, cur := page.events, cursor.value;
    if events != [] {
      LogIncreases(log, lastId + 1);
      UnseenIsAfter(log, cursor);
      DueGrows(lookup, log, start, cur, events);
      var i :| 0 <= i < |log| && log[i] == events[|events| - 1];
      BatchDelivers(
        batches, Rows(Materialize(lookup, events)), Due(lookup, log, start, cur),
        Due(lookup, log, start, events[|events| - 1].id));
    }
  }

  lemma AfterPage(
    lookup: string -> Option<Row>, log: seq<Event>, lastId: nat, start: nat, cursor: Cursor, batches: seq<seq<Row>>,
    page: Page
  )
    requires LogOk(log, lastId) && cursor.Some? && Delivered(lookup, log, lastId, start, cursor, batches)
    requires PageOk(KnowledgeEvents(log), cursor, page)
    ensures
      var delivered := WithBatch(batches, Rows(Materialize(lookup, page.events)));
      if page.nextCursor == None then Flatten(delivered) == Due(lookup, log, start, lastId)
      else NextCursor(page, cursor).value > cursor.value
  {
    UnseenIsAfter(log, cursor);
    AfterArrival(lookup, log, lastId, start, cursor, batches, page);
    LogIncreases(log, lastId + 1);
    if page.nextCursor == None {
      CaughtUp(lookup, log, start, cursor.value, page, lastId);
    } else {
      FilterIncreasing(log, IsKnowledge());
      var _, _ := PageParts(KnowledgeEvents(log), cursor.value, page.events);
    }
  }

  lemma ArrivalKeepsSound(
    lookup: string -> Option<Row>, log: seq<Event>, lastId: nat, start: nat, promise: CursorPromise, cursor: Cursor,
    batches: seq<seq<Row>>, page: Page
  )
    requires Sound(lookup, log, lastId, start, promise, cursor, true, PageReady(page), batches)
    ensures Sound(
      lookup, log, lastId, start, promise, NextCursor(page, cursor), false, Idle,
      WithBatch(batches, Rows(Materialize(lookup, page.events))))
  {
    AfterArrival(lookup, log, lastId, start, cursor, batches, page);
  }

  lemma BatchDelivers(batches: seq<seq<Row>>, rows: seq<Row>, due: seq<Row>, next: seq<Row>)
    requires Flatten(batches) == due && next == due + rows
    ensures Flatten(WithBatch(batches, rows)) == next
  {
    FlattenAppend(batches, rows);
  }

  lemma FlattenAppend(batches: seq<seq<Row>>, rows: seq<Row>)
    ensures Flatten(batches + [rows]) == Flatten(batches) + rows
  {
    FlattenPrefix(batches, rows, |batches|);
  }

  lemma {:induction false} FlattenPrefix(batches: seq<seq<Row>>, rows: seq<Row>, n: nat)
    requires n <= |batches|
    ensures FlattenTo(batches + [rows], n) == FlattenTo(batches, n)
  {
    if n > 0 {
      FlattenPrefix(batches, rows, n - 1);
    }
  }

  /** After a page that names no next cursor, nothing in the log it was read from is left to deliver. */
  lemma CaughtUp(lookup: string -> Option<Row>, log: seq<Event>, start: nat, cur: nat, page: Page, end: nat)
    requires Increasing(log) && start <= cur
    requires PageOk(KnowledgeEvents(log), Some(cur), page) && page.nextCursor == None
    ensures
      var next := if page.events == [] then cur else page.events[|page.events| - 1].id;
      end >= next ==> Due(lookup, log, start, end) == Due(lookup, log, start, next)
  {
    var m := KnowledgeEvents(log);
    var next := if page.events == [] then cur else page.events[|page.events| - 1].id;
    if end >= next {
      FilterIncreasing(log, IsKnowledge());
      var i := SplitPoint(m, Some(cur));
      forall k | 0 <= k < |m|
        ensures m[k].id <= next
      {
        if k >= i {
          assert page.events[k - i] == m[k];
        }
      }
      FilterSame(m, Within(start, end), Within(start, next));
      FilterTwice(log, IsKnowledge(), Within(start, end));
      FilterTwice(log, IsKnowledge(), Within(start, next));
    }
  }

  lemma NothingDue(lookup: string -> Option<Row>, log: seq<Event>, cursor: nat)
    ensures Due(lookup, log, cursor, cursor) == []
  {
    FilterNone(log, Within(cursor, cursor));
  }
}
