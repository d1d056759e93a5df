/**
 * Rebuilding the state of an earlier moment (src/core/manager.ts): the log is read page by page, cut at an
 * event id, folded and normalised.
 */
module HistoricalReplay {
  import opened Wrappers
  import opened Sequences
  import opened Sorting
  import opened TemporalReplay
  import opened Pagination

  datatype Replayed = Replayed(state: ReplayedState, watermarkEventId: Option<nat>)

  function UpTo(through: Option<nat>): Event -> bool {
    (e: Event) => through == None || e.id <= through.value
  }

  /** The events a replay through this id is about. */
  function CutLog(log: seq<Event>, through: Option<nat>): seq<Event> {
    Filter(log, UpTo(through))
  }

  function ReplayedAt(log: seq<Event>, through: Option<nat>, session: Option<string>, asOf: int): Replayed
    requires AllClosed(Replay(CutLog(log, through)))
  {
    var cut := CutLog(log, through);
    Replayed(
      NormalizeReplayedTemporalState(Listed(Replay(cut), session, Watermark(cut)), asOf),
      if through.Some? then through else Watermark(cut))
  }

  /**
   * Whatever the page size, the replay of a log that is not too long is that of its events up to the
   * given id, and a longer one is an error.
   */
  method BuildReplayedState(
    fetchPage: Cursor -> Page, throughEventId: Option<nat>, session: Option<string>, asOf: int, ghost log: seq<Event>
  ) returns (r: Result<Replayed>)
    requires Increasing(log) && forall c :: PageOk(log, c, fetchPage(c))
    ensures AllClosed(Replay(CutLog(log, throughEventId)))
    ensures
      if |log| <= 5000 then r == Ok(ReplayedAt(log, throughEventId, session, asOf))
      else r == Err("event range exceeds maximum")
    ensures r.Ok? ==>
      && FieldsOf(r.value.state, session, RowsAsOf(RowsIn(Replay(CutLog(log, throughEventId))), asOf))
      && (throughEventId.Some? ==> r.value.watermarkEventId == throughEventId)
  {
    ReplayTablesOk(CutLog(log, throughEventId));
    EverythingAfterNone(log);
    var events := AccumulateMemoryEvents(fetchPage, None, None, log);
    if events.Err? {
      return Err(events.message);
    }
    var filteredEvents := CutLog(events.value, throughEventId);
    CutIsIncreasing(log, throughEventId);
    OrderIrrelevant(filteredEvents, filteredEvents);
    var folded := FoldTemporalState(filteredEvents, session);
    var replayed := NormalizeReplayedTemporalState(folded, asOf);
    NormalizedFields(Replay(CutLog(log, throughEventId)), session, folded, asOf);
    r := Ok(Replayed(replayed, if throughEventId.Some? then throughEventId else folded.watermarkEventId));
  }

  lemma EverythingAfterNone(log: seq<Event>)
    ensures After(log, None) == log
  {
    FilterAll(log, (e: Event) => Beyond(None, e));
  }

  /** The cut is a prefix of the log. */
  lemma CutIsIncreasing(log: seq<Event>, through: Option<nat>)
    requires Increasing(log)
    ensures CutLog(log, through) == log[..|CutLog(log, through)|] && Increasing(CutLog(log, through))
  {
    if through == None {
      FilterAll(log, UpTo(None));
    } else {
      CutIsPrefix(log, through.value);
      FilterSame(log, UpTo(through), Through(through.value));
    }
  }

  /** The tables that are listed are the live tables right after the last write the cut lets through. */
  lemma ReplayedIsLive(log: seq<Event>, history: seq<Live>, through: Option<nat>, k: Kind)
    requires IsHistory(log, history) && Replayable(k)
    ensures
      var cut := CutLog(log, through);
      |cut| <= |log| && Get(Replay(cut), k).rows == At(history[|cut|], k)
  {
    CutIsIncreasing(log, through);
    ReplayRefinesLive(log, history, |CutLog(log, through)|, k);
  }

  /** So a listing of the replayed state holds exactly the wanted live rows of that moment, in order. */
  lemma ListingIsLive(
    log: seq<Event>, history: seq<Live>, through: Option<nat>, k: Kind, keep: Row -> bool, le: (Row, Row) -> bool
  )
    requires IsHistory(log, history) && Replayable(k) && TotalPreorder(le)
    ensures |CutLog(log, through)| <= |log|
    ensures
      var cut := CutLog(log, through);
      var t, live := Get(Replay(cut), k), At(history[|cut|], k);
      && Closed(t) && Sorted(List(t, keep, le), le)
      && forall x :: multiset(List(t, keep, le))[x] == if keep(x) then |KeysHolding(live, x)| else 0
  {
    var cut := CutLog(log, through);
    ReplayedIsLive(log, history, through, k);
    ReplayTablesOk(cut);
    TableClosed(Get(Replay(cut), k));
    ListIsExact(Get(Replay(cut), k), keep, le);
  }

  /** Field by field the rebuilt state holds the live rows of that moment, claims and handoffs as they stand then. */
  lemma RebuiltIsLive(
    log: seq<Event>, history: seq<Live>, through: Option<nat>, session: Option<string>, asOf: int, r: ReplayedState
  )
    requires IsHistory(log, history)
    requires FieldsOf(r, session, RowsAsOf(RowsIn(Replay(CutLog(log, through))), asOf))
    ensures |CutLog(log, through)| <= |log|
    ensures FieldsOf(r, session, RowsAsOf(LiveRows(history[|CutLog(log, through)|]), asOf))
  {
    CutRowsAreLive(log, history, through);
    var one, two := RowsIn(Replay(CutLog(log, through))), LiveRows(history[|CutLog(log, through)|]);
    SameAsOf(one, two, asOf);
    FieldsOfSame(r, session, RowsAsOf(one, asOf), RowsAsOf(two, asOf));
  }

  lemma CutRowsAreLive(log: seq<Event>, history: seq<Live>, through: Option<nat>)
    requires IsHistory(log, history)
    ensures |CutLog(log, through)| <= |log|
    ensures
      var cut := CutLog(log, through);
      forall k :: Replayable(k) ==> RowsIn(Replay(cut))(k) == LiveRows(history[|cut|])(k)
  {
    CutIsIncreasing(log, through);
    var cut := CutLog(log, through);
    forall k | Replayable(k)
      ensures RowsIn(Replay(cut))(k) == LiveRows(history[|cut|])(k)
    {
      ReplayedIsLive(log, history, through, k);
    }
  }

  lemma SameAsOf(one: RowsOf, two: RowsOf, asOf: int)
    requires forall k :: Replayable(k) ==> one(k) == two(k)
    ensures forall k :: Replayable(k) ==> RowsAsOf(one, asOf)(k) == RowsAsOf(two, asOf)(k)
  {
  }

  /** For lists read this way the watermark of the fold is the newest id the cut lets through. */
  lemma WatermarkOfCut(log: seq<Event>, through: Option<nat>)
    requires Increasing(log)
    ensures
      var cut := CutLog(log, through);
      if cut == [] then Watermark(cut) == None
      else
        && Watermark(cut) == Some(cut[|cut| - 1].id) && cut[|cut| - 1] in log && UpTo(through)(cut[|cut| - 1])
        && forall e :: e in log && UpTo(through)(e) ==> e.id <= Watermark(cut).value
  {
    var cut := CutLog(log, through);
    CutIsIncreasing(log, through);
    if cut != [] {
      var last := cut[|cut| - 1];
      assert last in cut;
      FilterMember(log, UpTo(through), last);
      WatermarkIsNewest(cut);
      forall e | e in log && UpTo(through)(e)
        ensures e.id <= last.id
      {
        FilterMember(log, UpTo(through), e);
      }
    }
  }
}
