/**
 * A match that was finished too early and is listed again (liveSightingResumeSet of
 * packages/shared/src/store/matches.ts): the sighting takes back everything the finish and the
 * history waiter did to the row.
 */
module FalseFinish {
  import opened Wrappers
  import opened MatchPhase
  import opened MatchRow

  datatype Miss = Miss(limits: HistoryLimits, now: int)

  function MissedOften(r: Row, misses: seq<Miss>): Row {
    if misses == [] then r
    else
      var last := misses[|misses| - 1];
      HistoryMiss(MissedOften(r, misses[..|misses| - 1]), last.limits, last.now)
  }

  /** What misses can change, put back. */
  function Unmissed(r: Row, to: Row): Row {
    r.(status := to.status, historyFast := to.historyFast, historySlow := to.historySlow,
       historyNextPollAt := to.historyNextPollAt, historyLastPolledAt := to.historyLastPolledAt,
       lastError := to.lastError, lastErrorKind := to.lastErrorKind, lastErrorAt := to.lastErrorAt)
  }

  lemma {:induction false} MissesChangeTheWaiter(r: Row, misses: seq<Miss>)
    ensures Unmissed(MissedOften(r, misses), r) == r
    ensures MissedOften(r, misses).status == r.status
            || (r.status.AwaitingHistory? && MissedOften(r, misses).status.Failed?)
  {
    if misses != [] {
      MissesChangeTheWaiter(r, misses[..|misses| - 1]);
    }
  }

  /** A sighting forgets all that misses did, but for the time of the last one. */
  lemma ResumeAfterMisses(finished: Row, missed: Row, feed: LiveFeed, now: int)
    requires Unmissed(missed, finished) == finished
    requires !finished.status.Live? && !KeepOnLiveSighting(finished.status)
    requires !missed.status.Live? && !KeepOnLiveSighting(missed.status)
    ensures LiveSightingResume(missed, feed, now) ==
              LiveSightingResume(finished, feed, now).(historyLastPolledAt := missed.historyLastPolledAt)
  {
  }

  lemma ResumeAfterFinish(r: Row, threshold: nat, replayDelayMs: nat, at: int, feed: LiveFeed, now: int)
    requires RowInv(r) && FinishGuard(r, threshold)
    ensures var finished := Finished(r, threshold, replayDelayMs, at);
            && !finished.status.Live? && !KeepOnLiveSighting(finished.status)
            && LiveSightingResume(finished, feed, now) ==
                 LiveSightingResume(r, feed, now)
                 .(liveDisappearedCount := r.liveDisappearedCount + 1,
                   attempts := 0, nextAttemptAt := None, replayAvailableAt := None)
  {
  }

  /**
   * After a finish and any number of history misses, a sighting leaves the row as the same sighting
   * without the finish would have; what remains of it is the count of disappearances, the time of
   * the last history poll, and the retry and replay times, which start afresh.
   */
  lemma {:induction false} SightingUndoesFinish(r: Row, threshold: nat, replayDelayMs: nat, at: int, misses: seq<Miss>,
                             feed: LiveFeed, now: int)
    requires RowInv(r) && FinishGuard(r, threshold)
    ensures var finished := MissedOften(Finished(r, threshold, replayDelayMs, at), misses);
            LiveSightingResume(finished, feed, now) ==
              LiveSightingResume(r, feed, now)
              .(liveDisappearedCount := r.liveDisappearedCount + 1,
                historyLastPolledAt := finished.historyLastPolledAt,
                attempts := 0, nextAttemptAt := None, replayAvailableAt := None)
  {
    var finished := Finished(r, threshold, replayDelayMs, at);
    MissesChangeTheWaiter(finished, misses);
    ResumeAfterFinish(r, threshold, replayDelayMs, at, feed, now);
    ResumeAfterMisses(finished, MissedOften(finished, misses), feed, now);
  }
}
