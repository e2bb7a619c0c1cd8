/**
 * The `matches` table and the statements of packages/shared/src/store/matches.ts that write it.
 * Each method is one statement (or one loop of statements): it states what becomes of the row, that
 * every row keeps its invariant, and the whole new table.
 */
module MatchStore {
  import opened Wrappers
  import opened MatchPhase
  import opened MatchRow
  import opened RowEffects

  type Table = map<MatchId, Row>

  /** noteLiveFeedMisses over the whole table. */
  function MissedAll(rows: Table, feed: LiveFeed, seen: set<MatchId>): Table {
    map id | id in rows :: Missed(rows[id], feed, id in seen)
  }

  /** finishMissingLiveMatches over the whole table. */
  function FinishedAll(rows: Table, threshold: nat, replayDelayMs: nat, now: int): Table {
    map id | id in rows :: Finished(rows[id], threshold, replayDelayMs, now)
  }

  /** recordHistoryPollMisses over the whole table. */
  function HistoryMissedAll(rows: Table, matchIds: set<MatchId>, limits: HistoryLimits, now: int): Table {
    map id | id in rows :: if id in matchIds then HistoryMiss(rows[id], limits, now) else rows[id]
  }

  datatype HistoryRow = HistoryRow(matchId: MatchId, matchSeqNum: int)

  /** The table after listing `listed` one row at a time. */
  function ListedAll(rows: Table, listed: seq<HistoryRow>): Table {
    if listed == [] then rows
    else
      var before := ListedAll(rows, listed[..|listed| - 1]);
      var row := listed[|listed| - 1];
      before[row.matchId := HistoryListed(Lookup(before, row.matchId), row.matchSeqNum)]
  }

  predicate TableInv(rows: Table) { forall id | id in rows :: RowInv(rows[id]) }

  /** No row but that of `id` is inserted, changed or deleted. */
  ghost predicate OnlyRow(before: Table, after: Table, id: MatchId) {
    forall k | k != id :: Lookup(after, k) == Lookup(before, k)
  }

  // ---- one page -------------------------------------------------------------------------------

  predicate Names(listed: seq<HistoryRow>, id: MatchId) { exists i :: 0 <= i < |listed| && listed[i].matchId == id }

  /** No later entry of the page names the same match. */
  ghost predicate LastNamed(listed: seq<HistoryRow>, i: nat)
    requires i < |listed|
  {
    forall j | i < j < |listed| :: listed[j].matchId != listed[i].matchId
  }

  lemma ListedTwice(r: Option<Row>, first: int, seqNum: int)
    ensures HistoryListed(Some(HistoryListed(r, first)), seqNum) == HistoryListed(r, seqNum)
  {
  }

  lemma {:induction false} UnnamedStays(rows: Table, listed: seq<HistoryRow>, id: MatchId)
    requires !Names(listed, id)
    ensures Lookup(ListedAll(rows, listed), id) == Lookup(rows, id)
  {
    if listed != [] {
      NamesSnoc(listed, id);
      UnnamedStays(rows, listed[..|listed| - 1], id);
    }
  }

  /** A row after a page is as the last entry that names it leaves it. */
  lemma {:induction false} LastEntryDecides(rows: Table, listed: seq<HistoryRow>, i: nat)
    requires i < |listed| && LastNamed(listed, i)
    ensures Lookup(ListedAll(rows, listed), listed[i].matchId)
            == Some(HistoryListed(Lookup(rows, listed[i].matchId), listed[i].matchSeqNum))
  {
    var n := |listed| - 1;
    if i == n {
      EarlierEntries(rows, listed[..n], listed[n].matchId, listed[n].matchSeqNum);
    } else {
      assert listed[n].matchId != listed[i].matchId && LastNamed(listed[..n], i);
      LastEntryDecides(rows, listed[..n], i);
    }
  }

  lemma NamesSnoc(listed: seq<HistoryRow>, id: MatchId)
    requires listed != []
    ensures Names(listed, id) <==> Names(listed[..|listed| - 1], id) || listed[|listed| - 1].matchId == id
  {
    var init := listed[..|listed| - 1];
    if Names(init, id) {
      var i :| 0 <= i < |init| && init[i].matchId == id;
      assert listed[i] == init[i];
    }
    if Names(listed, id) && listed[|listed| - 1].matchId != id {
      var i :| 0 <= i < |listed| && listed[i].matchId == id;
      assert init[i] == listed[i];
    }
  }

  /** Whatever a page's earlier entries left of a row, its last entry decides it. */
  lemma {:induction false} EarlierEntries(rows: Table, listed: seq<HistoryRow>, id: MatchId, seqNum: int)
    ensures HistoryListed(Lookup(ListedAll(rows, listed), id), seqNum) == HistoryListed(Lookup(rows, id), seqNum)
  {
    if listed != [] {
      var n := |listed| - 1;
      EarlierEntries(rows, listed[..n], id, seqNum);
      ListedTwice(Lookup(ListedAll(rows, listed[..n]), id), listed[n].matchSeqNum, seqNum);
    }
  }

  lemma PageListsEach(rows: Table, listed: seq<HistoryRow>)
    ensures forall i | 0 <= i < |listed| && LastNamed(listed, i) ::
              listed[i].matchId in ListedAll(rows, listed)
              && PageNoted(Lookup(rows, listed[i].matchId), ListedAll(rows, listed)[listed[i].matchId],
                           listed[i].matchSeqNum)
    ensures forall id | !Names(listed, id) :: Lookup(ListedAll(rows, listed), id) == Lookup(rows, id)
  {
    forall i | 0 <= i < |listed| && LastNamed(listed, i)
      ensures listed[i].matchId in ListedAll(rows, listed)
              && PageNoted(Lookup(rows, listed[i].matchId), ListedAll(rows, listed)[listed[i].matchId],
                           listed[i].matchSeqNum)
    {
      LastEntryDecides(rows, listed, i);
      PageIsNoted(Lookup(rows, listed[i].matchId), listed[i].matchSeqNum);
    }
    forall id | !Names(listed, id) ensures Lookup(ListedAll(rows, listed), id) == Lookup(rows, id) {
      UnnamedStays(rows, listed, id);
    }
  }

  class Matches {
    var rows: Table

    constructor ()
      ensures rows == map[]
    {
      rows := map[];
    }

    method TouchMatchLive(id: MatchId, feed: LiveFeed, now: int)
      modifies this
      ensures OnlyRow(old(rows), rows, id) && id in rows
      ensures Sighted(Lookup(old(rows), id), rows[id], feed, now)
      ensures TableInv(old(rows)) ==> TableInv(rows)
      ensures rows == old(rows)[id := Touched(Lookup(old(rows), id), feed, now)]
    {
      TouchSights(Lookup(rows, id), feed, now);
      rows := rows[id := Touched(Lookup(rows, id), feed, now)];
    }

    method NoteLiveFeedSeen(id: MatchId, feed: LiveFeed, now: int)
      modifies this
      ensures OnlyRow(old(rows), rows, id) && (id in rows <==> id in old(rows))
      ensures id in rows ==> Resumed(old(rows)[id], rows[id], feed, now) && rows[id].sources == old(rows)[id].sources
      ensures TableInv(old(rows)) ==> TableInv(rows)
      ensures rows == if id in old(rows)
                      then old(rows)[id := LiveSightingResume(old(rows)[id], feed, now)]
                      else old(rows)
    {
      if id in rows {
        SightingResumes(rows[id], feed, now);
        rows := rows[id := LiveSightingResume(rows[id], feed, now)];
      }
    }

    method NoteLiveClock(id: MatchId, duration: real)
      modifies this
      ensures OnlyRow(old(rows), rows, id) && (id in rows <==> id in old(rows))
      ensures id in rows ==> ClockNoted(old(rows)[id], rows[id], duration)
      ensures TableInv(old(rows)) ==> TableInv(rows)
      ensures rows == if id in old(rows) then old(rows)[id := Clocked(old(rows)[id], duration)]
                      else old(rows)
    {
      if id in rows {
        ClockCounts(rows[id], duration);
        rows := rows[id := Clocked(rows[id], duration)];
      }
    }

    method NoteLiveFeedMisses(feed: LiveFeed, seen: set<MatchId>)
      modifies this
      ensures rows.Keys == old(rows).Keys
      ensures forall id | id in rows ::
                MissNoted(old(rows)[id], rows[id], feed,
                          old(rows)[id].status.Live? && feed in old(rows)[id].sources && id !in seen)
      ensures TableInv(old(rows)) ==> TableInv(rows)
      ensures rows == MissedAll(old(rows), feed, seen)
    {
      forall id | id in rows
        ensures var counted := rows[id].status.Live? && feed in rows[id].sources && id !in seen;
                MissNoted(rows[id], Missed(rows[id], feed, id in seen), feed, counted)
        ensures RowInv(rows[id]) ==> RowInv(Missed(rows[id], feed, id in seen))
      {
        MissCounts(rows[id], feed, id in seen);
      }
      rows := MissedAll(rows, feed, seen);
    }

    /** Returns the ids the statement finished. */
    method FinishMissingLiveMatches(threshold: nat, replayDelayMs: nat, now: int)
      returns (finished: set<MatchId>)
      modifies this
      ensures rows.Keys == old(rows).Keys
      ensures forall id :: id in finished <==> id in old(rows) && Done(old(rows)[id], threshold)
      ensures forall id | id in rows ::
                if id in finished then FinishNoted(old(rows)[id], rows[id], replayDelayMs, now)
                else rows[id] == old(rows)[id]
      ensures TableInv(old(rows)) ==> TableInv(rows)
      ensures rows == FinishedAll(old(rows), threshold, replayDelayMs, now)
      ensures forall id | id in rows :: !Done(rows[id], threshold)
      ensures finished == set id | id in old(rows) && FinishGuard(old(rows)[id], threshold)
    {
      forall id | id in rows
        ensures if Done(rows[id], threshold)
                then FinishNoted(rows[id], Finished(rows[id], threshold, replayDelayMs, now), replayDelayMs, now)
                else Finished(rows[id], threshold, replayDelayMs, now) == rows[id]
        ensures RowInv(rows[id]) ==> RowInv(Finished(rows[id], threshold, replayDelayMs, now))
      {
        FinishIsNoted(rows[id], threshold, replayDelayMs, now);
      }
      finished := set id | id in rows && FinishGuard(rows[id], threshold);
      rows := FinishedAll(rows, threshold, replayDelayMs, now);
    }

    method MarkHistoryAvailable(id: MatchId, seqNum: int, now: int)
      modifies this
      ensures OnlyRow(old(rows), rows, id) && (id in rows <==> id in old(rows))
      ensures id in rows ==> HitNoted(old(rows)[id], rows[id], seqNum, now)
      ensures TableInv(old(rows)) ==> TableInv(rows)
      ensures rows == if id in old(rows) then old(rows)[id := HistoryHit(old(rows)[id], seqNum, now)]
                      else old(rows)
    {
      if id in rows {
        HitIsNoted(rows[id], seqNum, now);
        rows := rows[id := HistoryHit(rows[id], seqNum, now)];
      }
    }

    /** The waiters are selected first, then updated one at a time. */
    method RecordHistoryPollMisses(matchIds: set<MatchId>, limits: HistoryLimits, now: int)
      modifies this
      ensures rows.Keys == old(rows).Keys
      ensures forall id | id in rows ::
                if id in matchIds && WaiterPending(old(rows)[id]) then TrySpent(old(rows)[id], rows[id], limits, now)
                else rows[id] == old(rows)[id]
      ensures rows == HistoryMissedAll(old(rows), matchIds, limits, now)
    {
      forall id | id in rows
        ensures WaiterPending(rows[id]) ==> TrySpent(rows[id], HistoryMiss(rows[id], limits, now), limits, now)
      {
        MissSpendsTry(rows[id], limits, now);
      }
      ghost var before := rows;
      ghost var after := HistoryMissedAll(before, matchIds, limits, now);
      var selected := set id | id in matchIds && id in rows && WaiterPending(rows[id]);
      var todo := selected;
      assert forall k | k in before && k !in selected :: after[k] == before[k];
      while todo != {}
        invariant todo <= selected
        invariant rows.Keys == before.Keys
        invariant forall k | k in before :: rows[k] == if k in todo then before[k] else after[k]
        decreases todo
      {
        var id := PickOne(todo);
        UpdateWaiter(id, limits, now);
        todo := todo - {id};
      }
      assert forall k | k in before :: rows[k] == after[k];
    }

    /** The UPDATE of one selected waiter, from the counters and status it was selected with. */
    method UpdateWaiter(id: MatchId, limits: HistoryLimits, now: int)
      requires id in rows && WaiterPending(rows[id])
      modifies this
      ensures OnlyRow(old(rows), rows, id) && id in rows
      ensures TrySpent(old(rows)[id], rows[id], limits, now)
      ensures TableInv(old(rows)) ==> TableInv(rows)
      ensures rows == old(rows)[id := HistoryMiss(old(rows)[id], limits, now)]
    {
      MissSpendsTry(rows[id], limits, now);
      var r := rows[id];
      var next := AdvanceHistoryMiss(r.historyFast, r.historySlow, limits);
      var failMatch := next.failed && r.status.AwaitingHistory?;
      rows := rows[id := r.(
        historyFast := next.fastCount,
        historySlow := next.slowCount,
        historyLastPolledAt := Some(now),
        historyNextPollAt := if next.failed then None else Some(now + next.nextPollMs),
        status := if failMatch then Failed else r.status,
        lastError := if failMatch then Some("history_timeout") else r.lastError,
        lastErrorKind := if failMatch then Some(HistoryTimeout) else r.lastErrorKind,
        lastErrorAt := if failMatch then Some(now) else r.lastErrorAt)];
    }

    method UpsertHistoryMatches(listed: seq<HistoryRow>)
      modifies this
      ensures forall i | 0 <= i < |listed| && LastNamed(listed, i) ::
                listed[i].matchId in rows
                && PageNoted(Lookup(old(rows), listed[i].matchId), rows[listed[i].matchId], listed[i].matchSeqNum)
      ensures forall id | !Names(listed, id) :: Lookup(rows, id) == Lookup(old(rows), id)
      ensures rows == ListedAll(old(rows), listed)
    {
      PageListsEach(rows, listed);
      var i := 0;
      while i < |listed|
        invariant 0 <= i <= |listed|
        invariant rows == ListedAll(old(rows), listed[..i])
      {
        assert listed[..i + 1][..i] == listed[..i];
        var row := listed[i];
        rows := rows[row.matchId := HistoryListed(Lookup(rows, row.matchId), row.matchSeqNum)];
        i := i + 1;
      }
      assert listed[..i] == listed;
    }

    method SaveMatchFacts(id: MatchId, facts: Facts, fetched: Fetched, now: int)
      modifies this
      ensures OnlyRow(old(rows), rows, id) && (id in rows <==> id in old(rows))
      ensures id in rows ==> FactsNoted(old(rows)[id], rows[id], facts, fetched, now)
      ensures TableInv(old(rows)) ==> TableInv(rows)
      ensures rows == if id in old(rows)
                      then old(rows)[id := FactsSaved(old(rows)[id], facts, fetched, now)]
                      else old(rows)
    {
      if id in rows {
        FactsAreNoted(rows[id], facts, fetched, now);
        rows := rows[id := FactsSaved(rows[id], facts, fetched, now)];
      }
    }

    method InsertUndiscoveredMatch(id: MatchId, facts: Facts, fetched: Fetched, now: int)
      modifies this
      ensures OnlyRow(old(rows), rows, id) && id in rows
      ensures if id in old(rows) then rows == old(rows) else Discovery(rows[id], facts, fetched, now)
      ensures TableInv(old(rows)) ==> TableInv(rows)
      ensures rows == old(rows)[id := Undiscovered(Lookup(old(rows), id), facts, fetched, now)]
    {
      InsertDiscovers(facts, fetched, now);
      rows := rows[id := Undiscovered(Lookup(rows, id), facts, fetched, now)];
    }

    /** persistMatchRecord: the insert, if allowed, and then the save. */
    method PersistMatchRecord(id: MatchId, facts: Facts, fetched: Fetched, mustExist: bool, now: int)
      modifies this
      ensures forall k :: Lookup(rows, k) ==
                if k == id then Persisted(Lookup(old(rows), id), facts, fetched, mustExist, now)
                else Lookup(old(rows), k)
      ensures id in rows <==> id in old(rows) || !mustExist
      ensures id in old(rows) ==> FactsNoted(old(rows)[id], rows[id], facts, fetched, now)
      ensures id in rows && id !in old(rows) ==>
                FactsNoted(Undiscovered(None, facts, fetched, now), rows[id], facts, fetched, now)
                && Discovery(Undiscovered(None, facts, fetched, now), facts, fetched, now)
    {
      if !mustExist {
        InsertUndiscoveredMatch(id, facts, fetched, now);
      }
      SaveMatchFacts(id, facts, fetched, now);
    }

    method MarkSeqFetched(ids: set<MatchId>, now: int)
      modifies this
      ensures rows.Keys == old(rows).Keys
      ensures forall id | id in rows ::
                if id in ids then SeqStamped(old(rows)[id], rows[id], now) else rows[id] == old(rows)[id]
      ensures TableInv(old(rows)) ==> TableInv(rows)
      ensures forall id | id in rows && id in ids :: rows[id] == SeqMarked(old(rows)[id], now)
    {
      forall id | id in rows
        ensures SeqStamped(rows[id], SeqMarked(rows[id], now), now)
        ensures RowInv(rows[id]) ==> RowInv(SeqMarked(rows[id], now))
      {
        SeqIsStamped(rows[id], now);
      }
      rows := map id | id in rows :: if id in ids then SeqMarked(rows[id], now) else rows[id];
    }

    method MarkMatchReplayStatus(id: MatchId, status: Status, error: Option<string>,
                                 kind: Option<ErrorKind>, now: int)
      requires ReplayStage(status)
      modifies this
      ensures OnlyRow(old(rows), rows, id) && (id in rows <==> id in old(rows))
      ensures id in rows ==> StageNoted(old(rows)[id], rows[id], status, error, kind, now)
      ensures TableInv(old(rows)) ==> TableInv(rows)
      ensures rows == if id in old(rows)
                      then old(rows)[id := ReplayMarked(old(rows)[id], status, error, kind, now)]
                      else old(rows)
    {
      if id in rows {
        StageIsNoted(rows[id], status, error, kind, now);
        rows := rows[id := ReplayMarked(rows[id], status, error, kind, now)];
      }
    }

    /** The last statement of the parser's Publish. */
    method PublishStatus(id: MatchId)
      modifies this
      ensures OnlyRow(old(rows), rows, id) && (id in rows <==> id in old(rows))
      ensures id in rows ==> PublishNoted(old(rows)[id], rows[id])
      ensures TableInv(old(rows)) ==> TableInv(rows)
      ensures rows == if id in old(rows) then old(rows)[id := Published(old(rows)[id])] else old(rows)
    {
      if id in rows {
        PublishIsNoted(rows[id]);
        rows := rows[id := Published(rows[id])];
      }
    }
  }
}
