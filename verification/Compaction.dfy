/**
 * Compaction (src/core/orchestrator.ts, src/core/manager.ts): the oldest active turns of a session are
 * summarised and archived while other sessions, and the same one, go on inserting. A summary keeps
 * only an id range, and that range must give back exactly the turns it summarised.
 */
module Compaction {
  import opened Wrappers
  import opened Sequences

  // archivedBy is the compaction log entry that archived the turn.
  datatype Turn = Turn(id: nat, session: string, content: string, tokens: int, archivedBy: Option<nat>)

  datatype Summary = Summary(session: string, turnIdStart: nat, turnIdEnd: nat, turnCount: nat, text: string)

  datatype LogEntry = LogEntry(
    session: string, turnIdStart: nat, turnIdEnd: nat, turnsCompacted: nat, tokensCompacted: int,
    workingMemoryId: nat, activeTurnCountBefore: nat, activeTurnCountAfter: nat
  )

  // ---- reading the turn table

  function OfSession(s: string): Turn -> bool {
    (t: Turn) => t.session == s
  }

  function ActiveOf(s: string): Turn -> bool {
    (t: Turn) => t.session == s && t.archivedBy == None
  }

  function ArchivedIn(s: string, startId: nat, endId: nat): Turn -> bool {
    (t: Turn) => t.session == s && startId <= t.id <= endId && t.archivedBy != None
  }

  function Transcript(turns: seq<Turn>, s: string): seq<Turn> {
    Filter(turns, OfSession(s))
  }

  function GetActiveTurns(turns: seq<Turn>, s: string): seq<Turn> {
    Filter(turns, ActiveOf(s))
  }

  function GetArchivedTurnRange(turns: seq<Turn>, s: string, startId: nat, endId: nat): seq<Turn> {
    Filter(turns, ArchivedIn(s, startId, endId))
  }

  function TokensOf(t: Turn): int {
    t.tokens
  }

  function Tokens(turns: seq<Turn>): int {
    Total(turns, TokensOf)
  }

  ghost predicate Ascending(turns: seq<Turn>) {
    forall i, j :: 0 <= i < j < |turns| ==> turns[i].id < turns[j].id
  }

  // ---- archiving

  function StampOne(t: Turn, log: nat): Turn {
    t.(archivedBy := Some(log))
  }

  function Stamp(turns: seq<Turn>, log: nat): (r: seq<Turn>)
    ensures |r| == |turns| && forall i :: 0 <= i < |r| ==> r[i] == StampOne(turns[i], log)
  {
    seq(|turns|, i requires 0 <= i < |turns| => StampOne(turns[i], log))
  }

  /** The table after archiving the given ids. */
  function StampIds(turns: seq<Turn>, ids: set<nat>, log: nat): (r: seq<Turn>)
    ensures |r| == |turns|
    ensures forall i :: 0 <= i < |r| ==> r[i] == if turns[i].id in ids then StampOne(turns[i], log) else turns[i]
  {
    seq(|turns|, i requires 0 <= i < |turns| => if turns[i].id in ids then StampOne(turns[i], log) else turns[i])
  }

  function Ids(turns: seq<Turn>): set<nat> {
    set i | 0 <= i < |turns| :: turns[i].id
  }

  // ---- what the summaries cover

  /** The archived turns of session s that the first n summaries cover, summary after summary. */
  ghost function Covered(summaries: seq<Summary>, covered: seq<seq<Turn>>, s: string, n: nat): seq<Turn>
    requires n <= |summaries| == |covered|
  {
    if n == 0 then []
    else
      Covered(summaries, covered, s, n - 1) +
        if summaries[n - 1].session == s then Stamp(covered[n - 1], n - 1) else []
  }

  /** A summary and its log entry describe the turns that were summarised. */
  ghost predicate Describes(summary: Summary, entry: LogEntry, n: nat, turns: seq<Turn>) {
    && turns != [] && (forall i :: 0 <= i < |turns| ==> turns[i].session == summary.session)
    && summary.turnIdStart == turns[0].id && summary.turnIdEnd == turns[|turns| - 1].id
    && summary.turnCount == |turns|
    && entry.session == summary.session && entry.workingMemoryId == n
    && entry.turnIdStart == summary.turnIdStart && entry.turnIdEnd == summary.turnIdEnd
    && entry.turnsCompacted == |turns| && entry.tokensCompacted == Tokens(turns)
    && entry.activeTurnCountBefore == entry.turnsCompacted + entry.activeTurnCountAfter
  }

  /** Session by session, the transcript is what the summaries cover followed by the active turns. */
  ghost predicate Accounted(turns: seq<Turn>, summaries: seq<Summary>, covered: seq<seq<Turn>>, s: string)
    requires |summaries| == |covered|
  {
    Transcript(turns, s) == Covered(summaries, covered, s, |summaries|) + GetActiveTurns(turns, s)
  }

  ghost predicate Consistent(turns: seq<Turn>, summaries: seq<Summary>, logs: seq<LogEntry>, covered: seq<seq<Turn>>) {
    && Ascending(turns) && |logs| == |summaries| == |covered|
    && (forall i :: 0 <= i < |summaries| ==> Describes(summaries[i], logs[i], i, covered[i]))
    && (forall s :: Accounted(turns, summaries, covered, s))
  }

  // ---- laws of stamping

  lemma {:induction false} StampTranscript(turns: seq<Turn>, ids: set<nat>, log: nat, s: string)
    ensures Transcript(StampIds(turns, ids, log), s) == StampIds(Transcript(turns, s), ids, log)
    decreases |turns|
  {
    if turns != [] {
      var front, last := turns[..|turns| - 1], turns[|turns| - 1];
      StampTranscript(front, ids, log, s);
      assert StampIds(turns, ids, log)[..|turns| - 1] == StampIds(front, ids, log);
      StampAppend(Transcript(front, s), last, ids, log);
    }
  }

  lemma StampAppend(turns: seq<Turn>, t: Turn, ids: set<nat>, log: nat)
    ensures StampIds(turns + [t], ids, log) ==
      StampIds(turns, ids, log) + [if t.id in ids then StampOne(t, log) else t]
  {
  }

  lemma StampNone(turns: seq<Turn>, ids: set<nat>, log: nat)
    requires forall i :: 0 <= i < |turns| ==> turns[i].id !in ids
    ensures StampIds(turns, ids, log) == turns
  {
  }

  // Archiving the first n active turns splits the transcript one step further along.
  lemma StampPrefix(past: seq<Turn>, active: seq<Turn>, n: nat, log: nat)
    requires n <= |active| && Ascending(past + active)
    ensures StampIds(past + active, Ids(active[..n]), log) == past + (Stamp(active[..n], log) + active[n..])
  {
    var all, ids := past + active, Ids(active[..n]);
    forall i | 0 <= i < |all|
      ensures all[i].id in ids <==> |past| <= i < |past| + n
    {
      if |past| <= i < |past| + n {
        assert active[..n][i - |past|] == all[i];
      }
      forall k | 0 <= k < n && i != |past| + k
        ensures all[i].id != active[..n][k].id
      {
        assert all[|past| + k] == active[k];
      }
    }
    var left, right := StampIds(all, ids, log), past + (Stamp(active[..n], log) + active[n..]);
    forall i | 0 <= i < |all|
      ensures left[i] == right[i]
    {
    }
    assert left == right;
  }

  lemma {:induction false} CoveredArchived(summaries: seq<Summary>, covered: seq<seq<Turn>>, s: string, n: nat)
    requires n <= |summaries| == |covered|
    ensures forall i :: 0 <= i < |Covered(summaries, covered, s, n)| ==>
      Covered(summaries, covered, s, n)[i].archivedBy != None
  {
    if n > 0 {
      CoveredArchived(summaries, covered, s, n - 1);
    }
  }

  lemma {:induction false} CoveredPrefix(
    summaries: seq<Summary>, covered: seq<seq<Turn>>, next: Summary, turns: seq<Turn>, s: string, n: nat
  )
    requires n <= |summaries| == |covered|
    ensures Covered(summaries + [next], covered + [turns], s, n) == Covered(summaries, covered, s, n)
  {
    if n > 0 {
      CoveredPrefix(summaries, covered, next, turns, s, n - 1);
    }
  }

  lemma TranscriptAscending(turns: seq<Turn>, s: string)
    requires Ascending(turns)
    ensures Ascending(Transcript(turns, s))
  {
    FilterAscending(turns, OfSession(s));
  }

  lemma {:induction false} FilterAscending(turns: seq<Turn>, keep: Turn -> bool)
    requires Ascending(turns)
    ensures Ascending(Filter(turns, keep))
    decreases |turns|
  {
    if turns != [] {
      var front, last := turns[..|turns| - 1], turns[|turns| - 1];
      FilterAscending(front, keep);
      var kept := Filter(front, keep);
      forall i | 0 <= i < |kept|
        ensures kept[i].id < last.id
      {
        var x := kept[i];
        assert x in kept;
        FilterMember(front, keep, x);
      }
    }
  }

  // The active turns are what is left of the transcript.
  lemma ActiveOfTranscript(turns: seq<Turn>, s: string)
    ensures GetActiveTurns(turns, s) == Filter(Transcript(turns, s), ActiveOf(s))
  {
    FilterTwice(turns, OfSession(s), ActiveOf(s));
  }

  // ---- inserting keeps the account

  lemma InsertAccounted(turns: seq<Turn>, t: Turn, summaries: seq<Summary>, covered: seq<seq<Turn>>, s: string)
    requires |summaries| == |covered| && Accounted(turns, summaries, covered, s) && t.archivedBy == None
    ensures Accounted(turns + [t], summaries, covered, s)
    ensures GetActiveTurns(turns, s) <= GetActiveTurns(turns + [t], s)
  {
    FilterSnoc(turns, t, OfSession(s));
    FilterSnoc(turns, t, ActiveOf(s));
  }

  lemma InsertConsistent(
    turns: seq<Turn>, t: Turn, summaries: seq<Summary>, logs: seq<LogEntry>, covered: seq<seq<Turn>>
  )
    requires Consistent(turns, summaries, logs, covered) && t.archivedBy == None
    requires forall i :: 0 <= i < |turns| ==> turns[i].id < t.id
    ensures Consistent(turns + [t], summaries, logs, covered)
  {
    forall s
      ensures Accounted(turns + [t], summaries, covered, s)
    {
      InsertAccounted(turns, t, summaries, covered, s);
    }
  }

  // ---- committing keeps the account

  // The table after archiving, for the session that was compacted.
  lemma CommitOwn(
    turns: seq<Turn>, summaries: seq<Summary>, covered: seq<seq<Turn>>, s: string, n: nat, next: Summary
  )
    requires |summaries| == |covered| && Ascending(turns) && Accounted(turns, summaries, covered, s)
    requires n <= |GetActiveTurns(turns, s)| && next.session == s
    ensures
      var active := GetActiveTurns(turns, s);
      var after := StampIds(turns, Ids(active[..n]), |summaries|);
      && GetActiveTurns(after, s) == active[n..]
      && Accounted(after, summaries + [next], covered + [active[..n]], s)
  {
    var active, log := GetActiveTurns(turns, s), |summaries|;
    var after, past := StampIds(turns, Ids(active[..n]), log), Covered(summaries, covered, s, log);
    var stamped := Stamp(active[..n], log);
    OwnTranscript(turns, summaries, covered, s, n);
    CoveredArchived(summaries, covered, s, log);
    ActiveOfTranscript(after, s);
    ActiveMembers(turns, s);
    ActiveLeft(past, stamped, active[n..], s);
    CoveredNow(summaries, covered, next, active[..n], s);
    AppendAssociates(past, stamped, active[n..]);
  }

  lemma OwnTranscript(turns: seq<Turn>, summaries: seq<Summary>, covered: seq<seq<Turn>>, s: string, n: nat)
    requires |summaries| == |covered| && Ascending(turns) && Accounted(turns, summaries, covered, s)
    requires n <= |GetActiveTurns(turns, s)|
    ensures
      var active, log := GetActiveTurns(turns, s), |summaries|;
      Transcript(StampIds(turns, Ids(active[..n]), log), s) ==
        Covered(summaries, covered, s, log) + (Stamp(active[..n], log) + active[n..])
  {
    var active, log := GetActiveTurns(turns, s), |summaries|;
    TranscriptAscending(turns, s);
    StampTranscript(turns, Ids(active[..n]), log, s);
    StampPrefix(Covered(summaries, covered, s, log), active, n, log);
  }

  lemma CoveredNow(
    summaries: seq<Summary>, covered: seq<seq<Turn>>, next: Summary, turns: seq<Turn>, s: string
  )
    requires |summaries| == |covered|
    ensures Covered(summaries + [next], covered + [turns], s, |summaries| + 1) ==
      Covered(summaries, covered, s, |summaries|) + if next.session == s then Stamp(turns, |summaries|) else []
  {
    CoveredPrefix(summaries, covered, next, turns, s, |summaries|);
  }

  lemma ActiveMembers(turns: seq<Turn>, s: string)
    ensures forall i :: 0 <= i < |GetActiveTurns(turns, s)| ==>
      GetActiveTurns(turns, s)[i] in turns && ActiveOf(s)(GetActiveTurns(turns, s)[i])
  {
    var active := GetActiveTurns(turns, s);
    forall i | 0 <= i < |active|
      ensures active[i] in turns && ActiveOf(s)(active[i])
    {
      var x := active[i];
      assert x in active;
      FilterMember(turns, ActiveOf(s), x);
    }
  }

  lemma ActiveLeft(past: seq<Turn>, stamped: seq<Turn>, left: seq<Turn>, s: string)
    requires forall i :: 0 <= i < |past| ==> past[i].archivedBy != None
    requires forall i :: 0 <= i < |stamped| ==> stamped[i].archivedBy != None
    requires forall i :: 0 <= i < |left| ==> ActiveOf(s)(left[i])
    ensures Filter(past + (stamped + left), ActiveOf(s)) == left
  {
    assert past + (stamped + left) == past + stamped + left;
    Cut3(past + (stamped + left), past, stamped, left, ActiveOf(s));
    FilterNone(past, ActiveOf(s));
    FilterNone(stamped, ActiveOf(s));
    FilterAll(left, ActiveOf(s));
  }

  // Nothing changes for the other sessions.
  lemma CommitOther(
    turns: seq<Turn>, summaries: seq<Summary>, covered: seq<seq<Turn>>, s: string, n: nat, next: Summary, other: string
  )
    requires |summaries| == |covered| && Ascending(turns) && Accounted(turns, summaries, covered, other)
    requires n <= |GetActiveTurns(turns, s)| && next.session == s && other != s
    ensures
      var active := GetActiveTurns(turns, s);
      var after := StampIds(turns, Ids(active[..n]), |summaries|);
      && GetActiveTurns(after, other) == GetActiveTurns(turns, other)
      && Accounted(after, summaries + [next], covered + [active[..n]], other)
  {
    var active := GetActiveTurns(turns, s);
    var after := StampIds(turns, Ids(active[..n]), |summaries|);
    OtherTranscript(turns, s, n, |summaries|, other);
    SameActive(turns, after, other);
    AccountKept(turns, after, summaries, covered, next, active[..n], other);
  }

  lemma SameActive(turns: seq<Turn>, after: seq<Turn>, s: string)
    requires Transcript(after, s) == Transcript(turns, s)
    ensures GetActiveTurns(after, s) == GetActiveTurns(turns, s)
  {
    ActiveOfTranscript(turns, s);
    ActiveOfTranscript(after, s);
  }

  lemma AccountKept(
    turns: seq<Turn>, after: seq<Turn>, summaries: seq<Summary>, covered: seq<seq<Turn>>, next: Summary,
    added: seq<Turn>, s: string
  )
    requires |summaries| == |covered| && Accounted(turns, summaries, covered, s) && next.session != s
    requires Transcript(after, s) == Transcript(turns, s) && GetActiveTurns(after, s) == GetActiveTurns(turns, s)
    ensures Accounted(after, summaries + [next], covered + [added], s)
  {
    CoveredNow(summaries, covered, next, added, s);
    assert Covered(summaries, covered, s, |summaries|) + [] == Covered(summaries, covered, s, |summaries|);
  }

  lemma OtherTranscript(turns: seq<Turn>, s: string, n: nat, log: nat, other: string)
    requires Ascending(turns) && n <= |GetActiveTurns(turns, s)| && other != s
    ensures Transcript(StampIds(turns, Ids(GetActiveTurns(turns, s)[..n]), log), other) == Transcript(turns, other)
  {
    var ids, theirs := Ids(GetActiveTurns(turns, s)[..n]), Transcript(turns, other);
    StampTranscript(turns, ids, log, other);
    forall i | 0 <= i < |theirs|
      ensures theirs[i].id !in ids
    {
      OthersUntouched(turns, s, n, other, i);
    }
    StampNone(theirs, ids, log);
  }

  lemma OthersUntouched(turns: seq<Turn>, s: string, n: nat, other: string, i: nat)
    requires Ascending(turns) && n <= |GetActiveTurns(turns, s)| && other != s && i < |Transcript(turns, other)|
    ensures Transcript(turns, other)[i].id !in Ids(GetActiveTurns(turns, s)[..n])
  {
    var active, t := GetActiveTurns(turns, s), Transcript(turns, other)[i];
    assert t in Transcript(turns, other);
    FilterMember(turns, OfSession(other), t);
    ActiveMembers(turns, s);
    forall k | 0 <= k < n
      ensures active[..n][k].id != t.id
    {
      var u := active[k];
      assert u in turns && u.session == s;
      SameIdSameTurn(turns, t, u);
    }
  }

  lemma SameIdSameTurn(turns: seq<Turn>, t: Turn, u: Turn)
    requires Ascending(turns) && t in turns && u in turns
    ensures t.id == u.id ==> t == u
  {
    var i :| 0 <= i < |turns| && turns[i] == t;
    var j :| 0 <= j < |turns| && turns[j] == u;
  }

  lemma CommitConsistent(
    turns: seq<Turn>, summaries: seq<Summary>, logs: seq<LogEntry>, covered: seq<seq<Turn>>,
    s: string, n: nat, next: Summary, entry: LogEntry
  )
    requires Consistent(turns, summaries, logs, covered) && n <= |GetActiveTurns(turns, s)| && next.session == s
    requires Describes(next, entry, |summaries|, GetActiveTurns(turns, s)[..n])
    ensures
      var active := GetActiveTurns(turns, s);
      Consistent(
        StampIds(turns, Ids(active[..n]), |summaries|), summaries + [next], logs + [entry], covered + [active[..n]])
  {
    var active := GetActiveTurns(turns, s);
    var after := StampIds(turns, Ids(active[..n]), |summaries|);
    forall o
      ensures Accounted(after, summaries + [next], covered + [active[..n]], o)
    {
      assert Accounted(turns, summaries, covered, o);
      if o == s {
        CommitOwn(turns, summaries, covered, s, n, next);
      } else {
        CommitOther(turns, summaries, covered, s, n, next, o);
      }
    }
    forall i, j | 0 <= i < j < |after|
      ensures after[i].id < after[j].id
    {
      assert turns[i].id < turns[j].id;
    }
  }

  // ---- the store

  ghost predicate IdsBelow(turns: seq<Turn>, nextTurnId: nat) {
    forall i :: 0 <= i < |turns| ==> turns[i].id < nextTurnId
  }

  // What a running compaction was given are still the oldest active turns of its session.
  ghost predicate AllStillActive(turns: seq<Turn>, running: map<string, seq<Turn>>) {
    forall s :: s in running ==> running[s] <= GetActiveTurns(turns, s)
  }

  class TurnStore {
    var turns: seq<Turn>
    var nextTurnId: nat
    var summaries: seq<Summary>
    var logs: seq<LogEntry>
    // The turns each running compaction was given, by session.
    var running: map<string, seq<Turn>>
    ghost var covered: seq<seq<Turn>>

    ghost predicate Valid()
      reads this
    {
      && Consistent(turns, summaries, logs, covered)
      && IdsBelow(turns, nextTurnId) && AllStillActive(turns, running)
    }

    constructor ()
      ensures Valid() && turns == [] && summaries == [] && running == map[]
    {
      turns, nextTurnId, summaries, logs, running, covered := [], 1, [], [], map[], [];
    }

    method InsertTurn(session: string, content: string, tokens: int) returns (t: Turn)
      requires Valid()
      modifies this`turns, this`nextTurnId
      ensures Valid() && t == Turn(old(nextTurnId), session, content, tokens, None)
      ensures turns == old(turns) + [t] && nextTurnId == old(nextTurnId) + 1
    {
      t := Turn(nextTurnId, session, content, tokens, None);
      InsertConsistent(turns, t, summaries, logs, covered);
      forall s | s in running
        ensures running[s] <= GetActiveTurns(turns + [t], s)
      {
        assert Accounted(turns, summaries, covered, s);
        InsertAccounted(turns, t, summaries, covered, s);
      }
      turns := turns + [t];
      nextTurnId := nextTurnId + 1;
    }

    /** A compaction of the session starts from its active turns. */
    method Begin(session: string) returns (given: seq<Turn>)
      requires Valid() && session !in running
      modifies this`running
      ensures Valid() && given == GetActiveTurns(turns, session) && running == old(running)[session := given]
    {
      given := GetActiveTurns(turns, session);
      running := running[session := given];
    }

    /** The compaction ends, or its summariser fails: nothing is archived. */
    method Abandon(session: string)
      requires Valid() && session in running
      modifies this`running
      ensures Valid() && running == old(running) - {session}
      ensures old(running)[session] <= GetActiveTurns(turns, session)
    {
      running := running - {session};
    }

    method ArchiveTurn(id: nat, log: nat)
      requires Ascending(turns)
      modifies this`turns
      ensures turns == StampIds(old(turns), {id}, log)
    {
      var k := 0;
      while k < |turns| && turns[k].id != id
        invariant 0 <= k <= |turns|
        invariant forall i :: 0 <= i < k ==> turns[i].id != id
      {
        k := k + 1;
      }
      if k < |turns| {
        turns := turns[k := StampOne(turns[k], log)];
      }
    }

    method ArchiveAll(toArchive: seq<Turn>, log: nat)
      requires Ascending(turns)
      modifies this`turns
      ensures turns == StampIds(old(turns), Ids(toArchive), log)
    {
      for k := 0 to |toArchive|
        invariant Ascending(turns) && turns == StampIds(old(turns), Ids(toArchive[..k]), log)
      {
        assert toArchive[..k + 1] == toArchive[..k] + [toArchive[k]];
        IdsAppend(toArchive[..k], toArchive[k]);
        ArchiveTurn(toArchive[k].id, log);
      }
      assert toArchive[..|toArchive|] == toArchive;
    }

    /**
     * The running compaction of the session finishes with a summary of all but the newest
     * retainedTurnCount of the turns it was given, however many turns arrived meanwhile.
     */
    method Commit(session: string, retainedTurnCount: int, text: string) returns (r: Result<Summary>)
      requires Valid() && session in running
      modifies this
      ensures Valid() && running == old(running) - {session} && nextTurnId == old(nextTurnId)
      ensures
        var given := old(running[session]);
        var n := |given| - retainedTurnCount;
        if retainedTurnCount < 0 || n <= 0 then
          && r.Err? && turns == old(turns) && summaries == old(summaries) && logs == old(logs)
        else
          && r.Ok? && r.value.text == text && r.value.session == session
          && turns == StampIds(old(turns), Ids(given[..n]), |old(logs)|)
          && summaries == old(summaries) + [r.value] && |logs| == |old(logs)| + 1
          && covered == old(covered) + [given[..n]]
          && GetActiveTurns(turns, session) == old(GetActiveTurns(turns, session))[n..]
    {
      var orderedTurns := running[session];
      Abandon(session);
      if retainedTurnCount < 0 {
        return Err("retainedTurnCount must be a non-negative integer");
      }
      var n := if |orderedTurns| - retainedTurnCount < 0 then 0 else |orderedTurns| - retainedTurnCount;
      var toArchive := orderedTurns[..n];
      if |toArchive| == 0 {
        return Err("no turns are eligible for compaction");
      }
      PrefixOfPrefix(orderedTurns, GetActiveTurns(turns, session), n);
      var summary := CommitCompaction(session, toArchive, |orderedTurns|, text);
      assert |toArchive| == n;
      r := Ok(summary);
    }

    /** Stores the summary and its log entry and archives the turns, all as one step. */
    method CommitCompaction(session: string, toArchive: seq<Turn>, before: nat, text: string) returns (summary: Summary)
      requires Valid() && session !in running && 0 < |toArchive| <= before
      requires toArchive <= GetActiveTurns(turns, session)
      modifies this`turns, this`summaries, this`logs, this`covered
      ensures Valid() && summary.text == text && summary.session == session
      ensures turns == StampIds(old(turns), Ids(toArchive), |old(logs)|)
      ensures summaries == old(summaries) + [summary] && |logs| == |old(logs)| + 1
      ensures covered == old(covered) + [toArchive]
      ensures GetActiveTurns(turns, session) == old(GetActiveTurns(turns, session))[|toArchive|..]
    {
      AllOfSession(turns, session, toArchive);
      var entry;
      summary, entry := MakeSummary(session, toArchive, text, |logs|, before);
      CommitFacts(turns, nextTurnId, summaries, logs, covered, running, session, toArchive, summary, entry);
      ArchiveAll(toArchive, |logs|);
      summaries, logs, covered := summaries + [summary], logs + [entry], covered + [toArchive];
    }

    method MakeSummary(session: string, toArchive: seq<Turn>, text: string, id: nat, before: nat)
      returns (summary: Summary, entry: LogEntry)
      requires toArchive != [] && forall i :: 0 <= i < |toArchive| ==> toArchive[i].session == session
      requires |toArchive| <= before
      ensures Describes(summary, entry, id, toArchive)
      ensures summary.session == session && summary.text == text && entry.activeTurnCountBefore == before
    {
      var startId, endId := toArchive[0].id, toArchive[|toArchive| - 1].id;
      var tokens := 0;
      for k := 0 to |toArchive|
        invariant tokens == Tokens(toArchive[..k])
      {
        assert toArchive[..k + 1][..k] == toArchive[..k];
        tokens := tokens + toArchive[k].tokens;
      }
      assert toArchive[..|toArchive|] == toArchive;
      summary := Summary(session, startId, endId, |toArchive|, text);
      entry := LogEntry(session, startId, endId, |toArchive|, tokens, id, before, before - |toArchive|);
    }
  }

  lemma AllOfSession(turns: seq<Turn>, s: string, some: seq<Turn>)
    requires some <= GetActiveTurns(turns, s)
    ensures forall i :: 0 <= i < |some| ==> some[i].session == s
  {
    ActiveMembers(turns, s);
    assert forall i :: 0 <= i < |some| ==> some[i] == GetActiveTurns(turns, s)[i];
  }

  lemma PrefixOfPrefix(a: seq<Turn>, b: seq<Turn>, n: nat)
    requires a <= b && n <= |a|
    ensures n <= |b| && a[..n] == b[..n]
  {
  }

  lemma CommitFacts(
    turns: seq<Turn>, nextTurnId: nat, summaries: seq<Summary>, logs: seq<LogEntry>, covered: seq<seq<Turn>>,
    running: map<string, seq<Turn>>, s: string, toArchive: seq<Turn>, next: Summary, entry: LogEntry
  )
    requires Consistent(turns, summaries, logs, covered) && IdsBelow(turns, nextTurnId)
    requires AllStillActive(turns, running)
    requires toArchive <= GetActiveTurns(turns, s) && next.session == s && s !in running
    requires Describes(next, entry, |summaries|, toArchive)
    ensures
      var after := StampIds(turns, Ids(toArchive), |summaries|);
      && Consistent(after, summaries + [next], logs + [entry], covered + [toArchive])
      && IdsBelow(after, nextTurnId) && AllStillActive(after, running)
      && GetActiveTurns(after, s) == GetActiveTurns(turns, s)[|toArchive|..]
  {
    var n := |toArchive|;
    PrefixOfPrefix(toArchive, GetActiveTurns(turns, s), n);
    assert toArchive[..n] == toArchive;
    CommitConsistent(turns, summaries, logs, covered, s, n, next, entry);
    OthersStayRunning(turns, summaries, covered, s, n, next, running);
    assert Accounted(turns, summaries, covered, s);
    CommitOwn(turns, summaries, covered, s, n, next);
  }

  lemma IdsAppend(turns: seq<Turn>, t: Turn)
    ensures Ids(turns + [t]) == Ids(turns) + {t.id}
  {
    forall x | x in Ids(turns) + {t.id}
      ensures x in Ids(turns + [t])
    {
      if x == t.id {
        assert (turns + [t])[|turns|] == t;
      } else {
        var i :| 0 <= i < |turns| && turns[i].id == x;
        assert (turns + [t])[i] == turns[i];
      }
    }
    forall x | x in Ids(turns + [t])
      ensures x in Ids(turns) + {t.id}
    {
      var i :| 0 <= i < |turns| + 1 && (turns + [t])[i].id == x;
      assert i < |turns| ==> turns[i].id == x;
    }
  }

  lemma OthersStayRunning(
    turns: seq<Turn>, summaries: seq<Summary>, covered: seq<seq<Turn>>, s: string, n: nat, next: Summary,
    running: map<string, seq<Turn>>
  )
    requires |summaries| == |covered| && Ascending(turns) && (forall o :: Accounted(turns, summaries, covered, o))
    requires n <= |GetActiveTurns(turns, s)| && next.session == s && s !in running
    requires forall o :: o in running ==> running[o] <= GetActiveTurns(turns, o)
    ensures forall o :: o in running ==>
      running[o] <= GetActiveTurns(StampIds(turns, Ids(GetActiveTurns(turns, s)[..n]), |summaries|), o)
  {
    forall o | o in running
      ensures running[o] <= GetActiveTurns(StampIds(turns, Ids(GetActiveTurns(turns, s)[..n]), |summaries|), o)
    {
      assert Accounted(turns, summaries, covered, o);
      CommitOther(turns, summaries, covered, s, n, next, o);
    }
  }

  // ---- what the account gives

  lemma {:induction false} CoveredSplits(
    summaries: seq<Summary>, covered: seq<seq<Turn>>, s: string, i: nat, n: nat
  ) returns (rest: seq<Turn>)
    requires i <= n <= |summaries| == |covered|
    ensures Covered(summaries, covered, s, n) == Covered(summaries, covered, s, i) + rest
  {
    if i == n {
      rest := [];
    } else {
      rest := CoveredSplits(summaries, covered, s, i, n - 1);
      rest := rest + if summaries[n - 1].session == s then Stamp(covered[n - 1], n - 1) else [];
    }
  }

  // The transcript around summary i.
  lemma TranscriptAround(
    turns: seq<Turn>, summaries: seq<Summary>, logs: seq<LogEntry>, covered: seq<seq<Turn>>, i: nat
  ) returns (before: seq<Turn>, rest: seq<Turn>)
    requires Consistent(turns, summaries, logs, covered) && i < |summaries|
    ensures before == Covered(summaries, covered, summaries[i].session, i)
    ensures Transcript(turns, summaries[i].session) == before + Stamp(covered[i], i) + rest
  {
    var s := summaries[i].session;
    assert Accounted(turns, summaries, covered, s);
    before := Covered(summaries, covered, s, i);
    var more := CoveredSplits(summaries, covered, s, i + 1, |summaries|);
    rest := more + GetActiveTurns(turns, s);
  }

  /** Reading back the id range of a summary gives exactly the turns it summarised. */
  lemma RangeReadsBack(
    turns: seq<Turn>, summaries: seq<Summary>, logs: seq<LogEntry>, covered: seq<seq<Turn>>, i: nat
  )
    requires Consistent(turns, summaries, logs, covered) && i < |summaries|
    ensures
      var w := summaries[i];
      GetArchivedTurnRange(turns, w.session, w.turnIdStart, w.turnIdEnd) == Stamp(covered[i], i)
  {
    var w := summaries[i];
    var before, rest := TranscriptAround(turns, summaries, logs, covered, i);
    var mine, all := Stamp(covered[i], i), Transcript(turns, w.session);
    assert Describes(w, logs[i], i, covered[i]);
    TranscriptAscending(turns, w.session);
    RangeCut(all, before, mine, rest, w);
    FilterTwice(turns, OfSession(w.session), ArchivedIn(w.session, w.turnIdStart, w.turnIdEnd));
  }

  lemma RangeCut(all: seq<Turn>, before: seq<Turn>, mine: seq<Turn>, rest: seq<Turn>, w: Summary)
    requires Ascending(all) && all == before + mine + rest && mine != []
    requires forall k :: 0 <= k < |mine| ==> mine[k].session == w.session && mine[k].archivedBy != None
    requires w.turnIdStart == mine[0].id && w.turnIdEnd == mine[|mine| - 1].id
    ensures Filter(all, ArchivedIn(w.session, w.turnIdStart, w.turnIdEnd)) == mine
  {
    var keep := ArchivedIn(w.session, w.turnIdStart, w.turnIdEnd);
    RangeBounds(all, before, mine, rest);
    FilterNone(before, keep);
    FilterAll(mine, keep);
    FilterNone(rest, keep);
    Cut3(all, before, mine, rest, keep);
  }

  lemma RangeBounds(all: seq<Turn>, before: seq<Turn>, mine: seq<Turn>, rest: seq<Turn>)
    requires Ascending(all) && all == before + mine + rest && mine != []
    ensures forall k :: 0 <= k < |before| ==> before[k].id < mine[0].id
    ensures forall k :: 0 <= k < |mine| ==> mine[0].id <= mine[k].id <= mine[|mine| - 1].id
    ensures forall k :: 0 <= k < |rest| ==> mine[|mine| - 1].id < rest[k].id
  {
    var first, last := |before|, |before| + |mine| - 1;
    assert all[first] == mine[0] && all[last] == mine[|mine| - 1];
    forall k | 0 <= k < |before|
      ensures before[k].id < mine[0].id
    {
      assert all[k] == before[k];
    }
    forall k | 0 <= k < |mine|
      ensures mine[0].id <= mine[k].id <= mine[|mine| - 1].id
    {
      assert all[first + k] == mine[k];
    }
    forall k | 0 <= k < |rest|
      ensures mine[|mine| - 1].id < rest[k].id
    {
      assert all[last + 1 + k] == rest[k];
    }
  }

  /** Every archived turn of a session is older than every active one. */
  lemma ArchivedBelowActive(
    turns: seq<Turn>, summaries: seq<Summary>, logs: seq<LogEntry>, covered: seq<seq<Turn>>, t: Turn, u: Turn
  )
    requires Consistent(turns, summaries, logs, covered) && t in turns && u in turns && t.session == u.session
    requires t.archivedBy != None && u.archivedBy == None
    ensures t.id < u.id
  {
    var s := t.session;
    assert Accounted(turns, summaries, covered, s);
    var all, active := Transcript(turns, s), GetActiveTurns(turns, s);
    var past := Covered(summaries, covered, s, |summaries|);
    TranscriptAscending(turns, s);
    FilterMember(turns, OfSession(s), t);
    FilterMember(turns, ActiveOf(s), u);
    ActiveMembers(turns, s);
    var i :| 0 <= i < |all| && all[i] == t;
    var j :| 0 <= j < |active| && active[j] == u;
    assert all[|past| + j] == u;
    ArchivedIsPast(past, active, i);
  }

  lemma ArchivedIsPast(past: seq<Turn>, active: seq<Turn>, i: nat)
    requires i < |past + active| && forall k :: 0 <= k < |active| ==> active[k].archivedBy == None
    ensures (past + active)[i].archivedBy != None ==> i < |past|
  {
    if i >= |past| {
      assert (past + active)[i] == active[i - |past|];
    }
  }

  /** The ranges of one session never overlap and follow each other. */
  lemma RangesFollow(
    turns: seq<Turn>, summaries: seq<Summary>, logs: seq<LogEntry>, covered: seq<seq<Turn>>, i: nat, j: nat
  )
    requires Consistent(turns, summaries, logs, covered) && i < j < |summaries|
    requires summaries[i].session == summaries[j].session
    ensures summaries[i].turnIdStart <= summaries[i].turnIdEnd < summaries[j].turnIdStart
  {
    var s := summaries[j].session;
    var before, rest := TranscriptAround(turns, summaries, logs, covered, j);
    var earlier := CoveredSplits(summaries, covered, s, i + 1, j);
    var first, all := Covered(summaries, covered, s, i), Transcript(turns, s);
    assert Describes(summaries[i], logs[i], i, covered[i]) && Describes(summaries[j], logs[j], j, covered[j]);
    TranscriptAscending(turns, s);
    var a, b := Stamp(covered[i], i), Stamp(covered[j], j);
    assert all == first + a + earlier + b + rest;
    assert all[|first|] == a[0] && all[|first| + |a| - 1] == a[|a| - 1];
    assert all[|before|] == b[0];
  }

  // ---- conservation

  function LoggedTokens(logs: seq<LogEntry>, s: string, n: nat): int
    requires n <= |logs|
  {
    if n == 0 then 0
    else LoggedTokens(logs, s, n - 1) + if logs[n - 1].session == s then logs[n - 1].tokensCompacted else 0
  }

  function LoggedTurns(logs: seq<LogEntry>, s: string, n: nat): int
    requires n <= |logs|
  {
    if n == 0 then 0
    else LoggedTurns(logs, s, n - 1) + if logs[n - 1].session == s then logs[n - 1].turnsCompacted else 0
  }

  lemma {:induction false} TokensStamped(turns: seq<Turn>, log: nat)
    ensures Tokens(Stamp(turns, log)) == Tokens(turns)
    decreases |turns|
  {
    if turns != [] {
      TokensStamped(turns[..|turns| - 1], log);
      assert Stamp(turns, log)[..|turns| - 1] == Stamp(turns[..|turns| - 1], log);
    }
  }

  lemma CoveredNext(summaries: seq<Summary>, covered: seq<seq<Turn>>, s: string, n: nat)
    requires 0 < n <= |summaries| == |covered|
    ensures
      var own := summaries[n - 1].session == s;
      var before, now := Covered(summaries, covered, s, n - 1), Covered(summaries, covered, s, n);
      && Tokens(now) == Tokens(before) + (if own then Tokens(covered[n - 1]) else 0)
      && |now| == |before| + (if own then |covered[n - 1]| else 0)
  {
    var front := Covered(summaries, covered, s, n - 1);
    TokensStamped(covered[n - 1], n - 1);
    TotalConcat(front, Stamp(covered[n - 1], n - 1), TokensOf);
    assert front + [] == front;
  }

  lemma {:induction false} CoveredIsLogged(
    summaries: seq<Summary>, logs: seq<LogEntry>, covered: seq<seq<Turn>>, s: string, n: nat
  )
    requires n <= |summaries| == |logs| == |covered|
    requires forall i :: 0 <= i < |summaries| ==> Describes(summaries[i], logs[i], i, covered[i])
    ensures Tokens(Covered(summaries, covered, s, n)) == LoggedTokens(logs, s, n)
    ensures |Covered(summaries, covered, s, n)| == LoggedTurns(logs, s, n)
  {
    if n > 0 {
      CoveredIsLogged(summaries, logs, covered, s, n - 1);
      assert Describes(summaries[n - 1], logs[n - 1], n - 1, covered[n - 1]);
      CoveredNext(summaries, covered, s, n);
    }
  }

  /** Compacted plus active is everything ever inserted, in turns and in tokens. */
  lemma NothingLost(
    turns: seq<Turn>, summaries: seq<Summary>, logs: seq<LogEntry>, covered: seq<seq<Turn>>, s: string
  )
    requires Consistent(turns, summaries, logs, covered)
    ensures |Transcript(turns, s)| == LoggedTurns(logs, s, |logs|) + |GetActiveTurns(turns, s)|
    ensures Tokens(Transcript(turns, s)) == LoggedTokens(logs, s, |logs|) + Tokens(GetActiveTurns(turns, s))
  {
    assert Accounted(turns, summaries, covered, s);
    CoveredIsLogged(summaries, logs, covered, s, |summaries|);
    TotalConcat(Covered(summaries, covered, s, |summaries|), GetActiveTurns(turns, s), TokensOf);
  }
}
