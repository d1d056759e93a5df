/**
 * Reading the event log page by page (src/core/temporal.ts, src/adapters/memory/index.ts): a loop over
 * cursors that must see every matching event once, or report that there are too many.
 */
module Pagination {
  import opened Wrappers
  import opened Sequences
  import opened Sorting
  import opened TemporalReplay

  type Cursor = Option<nat>

  datatype Page = Page(events: seq<Event>, nextCursor: Cursor)

  const DEFAULT_MAX_ACCUMULATED_EVENTS := 5000

  predicate Beyond(cursor: Cursor, e: Event) {
    cursor == None || e.id > cursor.value
  }

  /** The events a reader at this cursor has not seen. */
  function After(matching: seq<Event>, cursor: Cursor): seq<Event> {
    Filter(matching, (e: Event) => Beyond(cursor, e))
  }

  // ---- the page contract

  /**
   * What a server may answer at a cursor: the next unseen events in id order. It names the last one
   * of them as the next cursor, and names none only when nothing is left.
   */
  ghost predicate PageOk(matching: seq<Event>, cursor: Cursor, page: Page) {
    PageFits(After(matching, cursor), page)
  }

  ghost predicate PageFits(rest: seq<Event>, page: Page) {
    && page.events <= rest
    && if page.nextCursor == None then page.events == rest
       else page.events != [] && page.nextCursor.value == page.events[|page.events| - 1].id
  }

  /** JavaScript's slice(0, end): a negative end counts from the back. */
  function SliceTo(s: seq<Event>, end: int): (r: seq<Event>)
    ensures r <= s && |r| == if end < 0 then Max(0, |s| + end) else Min(end, |s|)
  {
    s[..if end < 0 then Max(0, |s| + end) else Min(end, |s|)]
  }

  function FirstPage(ordered: seq<Event>, limit: int): Page {
    var page := SliceTo(ordered, limit + 1);
    var hasMore := |page| > limit;
    var events := if hasMore then SliceTo(page, limit) else page;
    Page(events, if hasMore && events != [] then Some(events[|events| - 1].id) else None)
  }

  /** The in-memory server: a page of the sorted matching events. Limits are not checked. */
  function PaginateEvents(items: seq<Event>, cursor: Cursor, limit: int): Page {
    FirstPage(Sort(After(items, cursor), Earlier), limit)
  }

  /** A positive limit takes that many; a limit of at most -2 leaves out events at the back. */
  predicate LeavesSome(limit: int, size: nat) {
    limit > 0 || (limit < -1 && size + 2 * limit + 1 > 0)
  }

  lemma FirstPageFits(ordered: seq<Event>, limit: int)
    ensures PageFits(ordered, FirstPage(ordered, limit)) <==> ordered == [] || LeavesSome(limit, |ordered|)
    ensures limit >= 0 ==> |FirstPage(ordered, limit).events| <= limit
    ensures limit > 0 ==>
      && FirstPage(ordered, limit).events == ordered[..Min(limit, |ordered|)]
      && (FirstPage(ordered, limit).nextCursor == None <==> |ordered| <= limit)
    ensures ordered != [] && !LeavesSome(limit, |ordered|) ==> FirstPage(ordered, limit) == Page([], None)
  {
  }

  lemma SortedAfter(items: seq<Event>, matching: seq<Event>, cursor: Cursor)
    requires Increasing(matching) && multiset(items) == multiset(matching)
    ensures Sort(After(items, cursor), Earlier) == After(matching, cursor)
  {
    var beyond := (e: Event) => Beyond(cursor, e);
    var rest, mine := After(matching, cursor), After(items, cursor);
    forall x
      ensures multiset(mine)[x] == multiset(rest)[x]
    {
      FilterCount(matching, beyond, x);
      FilterCount(items, beyond, x);
    }
    assert multiset(mine) == multiset(rest);
    var i := SplitPoint(matching, cursor);
    EarlierIsPreorder();
    SortSorted(mine, Earlier);
    SortedIsUnique(rest, Sort(mine, Earlier));
  }

  /**
   * It keeps the page contract exactly when none is left to hand out or the limit leaves an event on the
   * page: a positive limit, or one of at most -2 with enough events left. Otherwise the page is empty and final.
   * With a positive limit it holds the next events up to the limit, and names a cursor only when more are left.
   */
  lemma PaginateEventsOk(items: seq<Event>, matching: seq<Event>, cursor: Cursor, limit: int)
    requires Increasing(matching) && multiset(items) == multiset(matching)
    ensures
      var rest, page := After(matching, cursor), PaginateEvents(items, cursor, limit);
      && (PageOk(matching, cursor, page) <==> rest == [] || LeavesSome(limit, |rest|))
      && (!PageOk(matching, cursor, page) ==> page == Page([], None))
      && (limit > 0 ==> page.events == rest[..Min(limit, |rest|)] && (page.nextCursor == None <==> |rest| <= limit))
      && (limit == 0 ==> page.events == [])
  {
    SortedAfter(items, matching, cursor);
    FirstPageFits(After(matching, cursor), limit);
  }

  // ---- cursors cut the matching events in two

  ghost predicate SplitsAt(matching: seq<Event>, cursor: Cursor, i: nat) {
    && i <= |matching|
    && (forall j :: 0 <= j < i ==> !Beyond(cursor, matching[j]))
    && (forall j :: i <= j < |matching| ==> Beyond(cursor, matching[j]))
  }

  lemma {:induction false} SplitGivesSuffix(matching: seq<Event>, cursor: Cursor, i: nat)
    requires SplitsAt(matching, cursor, i)
    ensures After(matching, cursor) == matching[i..]
    decreases |matching|
  {
    if matching != [] {
      var front := matching[..|matching| - 1];
      SplitLast(matching);
      if i < |matching| {
        SplitGivesSuffix(front, cursor, i);
      } else {
        SplitGivesSuffix(front, cursor, |front|);
      }
    }
  }

  lemma SplitPoint(matching: seq<Event>, cursor: Cursor) returns (i: nat)
    requires Increasing(matching)
    ensures SplitsAt(matching, cursor, i) && After(matching, cursor) == matching[i..]
  {
    i := 0;
    while i < |matching| && !Beyond(cursor, matching[i])
      invariant i <= |matching| && forall j :: 0 <= j < i ==> !Beyond(cursor, matching[j])
    {
      i := i + 1;
    }
    BeyondStays(matching, cursor, i);
    SplitGivesSuffix(matching, cursor, i);
  }

  lemma BeyondStays(matching: seq<Event>, cursor: Cursor, i: nat)
    requires Increasing(matching) && i <= |matching| && (i < |matching| ==> Beyond(cursor, matching[i]))
    ensures forall j :: i <= j < |matching| ==> Beyond(cursor, matching[j])
  {
  }

  lemma NextSplit(matching: seq<Event>, cursor: Cursor, i: nat, k: nat)
    requires Increasing(matching) && SplitsAt(matching, cursor, i) && 0 < k && i + k <= |matching|
    ensures SplitsAt(matching, Some(matching[i + k - 1].id), i + k)
  {
  }

  lemma JoinSlices(s: seq<Event>, i: nat, j: nat, k: nat)
    requires i <= j <= k <= |s|
    ensures s[i..j] + s[j..k] == s[i..k] && s[i..][..k - i] == s[i..k] && s[i..|s|] == s[i..]
  {
  }

  // What a page says about the reader's place.
  lemma PagePlace(matching: seq<Event>, cursor: Cursor, i: nat, page: Page)
    requires Increasing(matching) && SplitsAt(matching, cursor, i) && PageOk(matching, cursor, page)
    ensures i + |page.events| <= |matching| && page.events == matching[i..i + |page.events|]
    ensures page.nextCursor == None ==> i + |page.events| == |matching|
    ensures page.nextCursor.Some? ==>
      && page.events != [] && SplitsAt(matching, page.nextCursor, i + |page.events|)
      && (cursor.Some? ==> page.nextCursor.value > cursor.value)
  {
    SplitGivesSuffix(matching, cursor, i);
    JoinSlices(matching, i, i, i + |page.events|);
    if page.nextCursor.Some? {
      NextSplit(matching, cursor, i, |page.events|);
      assert page.events[|page.events| - 1] == matching[i + |page.events| - 1];
    }
  }

  // ---- the loop

  /**
   * Against any server that keeps the page contract the loop ends, and returns every matching event
   * after the initial cursor, once and in order, exactly when there are at most maxEvents of them.
   */
  method AccumulateMemoryEvents(
    fetchPage: Cursor -> Page, initialCursor: Cursor, maxEvents: Option<int>, ghost matching: seq<Event>
  ) returns (r: Result<seq<Event>>)
    requires Increasing(matching) && forall c :: PageOk(matching, c, fetchPage(c))
    ensures
      var cap := if maxEvents.Some? then maxEvents.value else 5000;
      var wanted := After(matching, initialCursor);
      if |wanted| <= cap then r == Ok(wanted) else r == Err("event range exceeds maximum")
  {
    var events: seq<Event> := [];
    var cursor := initialCursor;
    var absoluteMaxEvents := if maxEvents.Some? then maxEvents.value else DEFAULT_MAX_ACCUMULATED_EVENTS;
    ghost var start := SplitPoint(matching, initialCursor);
    ghost var i := start;
    while true
      invariant start <= i <= |matching| && SplitsAt(matching, cursor, i) && events == matching[start..i]
      decreases |matching| - i
    {
      var page := fetchPage(cursor);
      assert PageOk(matching, cursor, page);
      PagePlace(matching, cursor, i, page);
      JoinSlices(matching, start, i, i + |page.events|);
      events := events + page.events;
      i := i + |page.events|;
      if |events| > absoluteMaxEvents {
        return Err("event range exceeds maximum");
      }
      if page.nextCursor == None {
        return Ok(events);
      }
      if cursor != None && page.nextCursor.value <= cursor.value {
        return Err("event pagination cursor did not advance");
      }
      cursor := page.nextCursor;
    }
  }

  /** With a page size of 0 or -1 the in-memory server ends the loop with nothing, whatever it holds. */
  lemma ZeroLimitSeesNothing(items: seq<Event>, cursor: Cursor, limit: int)
    requires limit == 0 || limit == -1
    ensures PaginateEvents(items, cursor, limit) == Page([], None)
  {
  }
}
