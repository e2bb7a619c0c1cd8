/**
 * What each writer of a `matches` row promises its callers, as a relation between the row before and
 * the row after, and that it keeps the row's invariant.
 */
module RowEffects {
  import opened Wrappers
  import opened MatchPhase
  import opened MatchRow

  function MissedBy(r: Row, feed: LiveFeed): nat { if feed.LiveLeague? then r.leagueMissed else r.topMissed }

  function OtherFeed(feed: LiveFeed): LiveFeed { if feed.LiveLeague? then TopLive else LiveLeague }

  // ---- sightings ------------------------------------------------------------------------------

  /** Neither finished nor waiting: what a live row looks like. */
  predicate Unfinished(r: Row) {
    && r.historyNextPollAt.None? && r.historyFast == 0 && r.historySlow == 0
    && r.finishedAt.None? && r.replayAvailableAt.None? && r.attempts == 0 && r.nextAttemptAt.None?
  }

  predicate SameWaiter(before: Row, after: Row) {
    && after.historyNextPollAt == before.historyNextPollAt && after.historyFast == before.historyFast
    && after.historySlow == before.historySlow && after.finishedAt == before.finishedAt
    && after.replayAvailableAt == before.replayAvailableAt && after.attempts == before.attempts
    && after.nextAttemptAt == before.nextAttemptAt
  }

  predicate SameErrors(before: Row, after: Row) {
    && after.lastError == before.lastError && after.lastErrorKind == before.lastErrorKind
    && after.lastErrorAt == before.lastErrorAt
  }

  predicate NoErrors(r: Row) { r.lastError.None? && r.lastErrorKind.None? && r.lastErrorAt.None? }

  /** The columns that no sighting touches. */
  predicate SameFacts(before: Row, after: Row) {
    && after.matchSeqNum == before.matchSeqNum && after.durationMax == before.durationMax
    && after.seqFetchedAt == before.seqFetchedAt && after.detailsFetchedAt == before.detailsFetchedAt
    && after.liveDisappearedCount == before.liveDisappearedCount
    && after.historyLastPolledAt == before.historyLastPolledAt
  }

  /**
   * A row that a feed listed: it is live again exactly when its phase allows that, and then nothing
   * of an earlier finish is left; otherwise its phase, its waiter and its errors are as they were.
   */
  predicate Resumed(before: Row, after: Row, feed: LiveFeed, now: int) {
    && after.liveSeenAt == Some(now) && MissedBy(after, feed) == 0
    && MissedBy(after, OtherFeed(feed)) == MissedBy(before, OtherFeed(feed))
    && SameFacts(before, after)
    && (after.status.Live? <==> CanResumeLive(Some(before.status)))
    && (!after.status.Live? ==>
          && after.status == before.status && SameErrors(before, after) && SameWaiter(before, after)
          && after.liveDisappearedAt == before.liveDisappearedAt)
    && (after.status.Live? ==>
          && NoErrors(after) && after.liveDisappearedAt.None?
          && (if before.status.Live? then SameWaiter(before, after) else Unfinished(after)))
  }

  /** A touch also creates the row, and remembers the feed. */
  predicate Sighted(before: Option<Row>, after: Row, feed: LiveFeed, now: int) {
    && after.fromLive
    && match before
       case None =>
         && after.status.Live? && after.sources == [feed] && after.liveSeenAt == Some(now) && RowInv(after)
         && Unfinished(after) && NoErrors(after) && after.durationMax == 0.0 && MissedBy(after, feed) == 0
         && MissedBy(after, OtherFeed(feed)) == 0 && after.matchSeqNum.None? && after.liveDisappearedCount == 0
         && after.seqFetchedAt.None? && after.detailsFetchedAt.None?
       case Some(r) =>
         && Resumed(r, after, feed, now)
         && FeedAdded(r.sources, after.sources, feed)
  }

  /** liveSightingResumeSet ends live exactly where canResumeLive says so. */
  lemma SightingResumes(r: Row, feed: LiveFeed, now: int)
    ensures Resumed(r, LiveSightingResume(r, feed, now), feed, now)
    ensures LiveSightingResume(r, feed, now).sources == r.sources
    ensures LiveSightingResume(r, feed, now).fromLive == r.fromLive
    ensures RowInv(r) ==> RowInv(LiveSightingResume(r, feed, now))
  {
  }

  lemma TouchSights(r: Option<Row>, feed: LiveFeed, now: int)
    ensures Sighted(r, Touched(r, feed, now), feed, now)
    ensures (r.Some? ==> RowInv(r.value)) ==> RowInv(Touched(r, feed, now))
  {
    if r.Some? {
      SightingResumes(r.value.(sources := WithSource(r.value.sources, feed), fromLive := true), feed, now);
    }
  }

  // ---- misses and finishes --------------------------------------------------------------------

  /** The polled feed's counter goes up by one exactly when `counted`; nothing else changes. */
  predicate MissNoted(before: Row, after: Row, feed: LiveFeed, counted: bool) {
    && MissedBy(after, feed) == MissedBy(before, feed) + (if counted then 1 else 0)
    && after.(leagueMissed := before.leagueMissed, topMissed := before.topMissed) == before
    && MissedBy(after, OtherFeed(feed)) == MissedBy(before, OtherFeed(feed))
  }

  lemma MissCounts(r: Row, feed: LiveFeed, listed: bool)
    ensures MissNoted(r, Missed(r, feed, listed), feed, r.status.Live? && feed in r.sources && !listed)
    ensures RowInv(r) ==> RowInv(Missed(r, feed, listed))
  {
  }

  /** The clock column is the larger of what it was and a positive reading; nothing else changes. */
  predicate ClockNoted(before: Row, after: Row, duration: real) {
    && after.(durationMax := before.durationMax) == before
    && (after.durationMax == before.durationMax || (after.durationMax == duration && duration > 0.0))
    && after.durationMax >= before.durationMax && (duration > 0.0 ==> after.durationMax >= duration)
  }

  lemma ClockCounts(r: Row, duration: real)
    ensures ClockNoted(r, Clocked(r, duration), duration)
    ensures RowInv(r) ==> RowInv(Clocked(r, duration))
  {
  }

  /**
   * A finished row has left the feeds: a match that was played waits for history at once and for its
   * replay, within half a second of the delay in whole seconds; one that never started is closed with an error.
   */
  predicate FinishNoted(before: Row, after: Row, replayDelayMs: nat, now: int) {
    && after.liveDisappearedAt == Some(now) && after.liveDisappearedCount == before.liveDisappearedCount + 1
    && after.sources == before.sources && after.durationMax == before.durationMax
    && after.leagueMissed == before.leagueMissed && after.topMissed == before.topMissed
    && after.historyFast == before.historyFast && after.historySlow == before.historySlow
    && after.fromLive == before.fromLive && after.matchSeqNum == before.matchSeqNum
    && after.attempts == before.attempts && after.nextAttemptAt == before.nextAttemptAt
    && after.seqFetchedAt == before.seqFetchedAt && after.detailsFetchedAt == before.detailsFetchedAt
    && (before.durationMax > 0.0 ==>
          && after.status.AwaitingHistory? && after.historyNextPollAt == Some(now) && after.finishedAt == Some(now)
          && after.replayAvailableAt.Some? && SameErrors(before, after)
          && now + replayDelayMs - 500 < after.replayAvailableAt.value <= now + replayDelayMs + 500
          && (after.replayAvailableAt.value - now) % 1000 == 0)
    && (before.durationMax <= 0.0 ==>
          && after.status.NotStarted? && after.historyNextPollAt.None? && after.finishedAt == before.finishedAt
          && after.replayAvailableAt == before.replayAvailableAt
          && after.lastError.Some? && after.lastErrorKind == Some(NeverStarted) && after.lastErrorAt == Some(now))
  }

  /** The match is live and every live feed that listed it has given up on it. */
  predicate Done(r: Row, threshold: nat) {
    r.status.Live? && LiveFeedsDone(r.sources, r.leagueMissed, r.topMissed, threshold)
  }

  lemma FinishIsNoted(r: Row, threshold: nat, replayDelayMs: nat, now: int)
    ensures if Done(r, threshold) then FinishNoted(r, Finished(r, threshold, replayDelayMs, now), replayDelayMs, now)
            else Finished(r, threshold, replayDelayMs, now) == r
    ensures RowInv(r) ==> RowInv(Finished(r, threshold, replayDelayMs, now))
  {
  }

  // ---- history --------------------------------------------------------------------------------

  /** The feed is remembered once more if it was not yet. */
  predicate FeedAdded(before: seq<Ingest>, after: seq<Ingest>, s: Ingest) {
    s in after && before <= after && |after| == |before| + (if s in before then 0 else 1)
  }

  predicate BeforeDetails(s: Status) { s.AwaitingHistory? || s.NotStarted? || s.Discovered? || s.Failed? }

  /** A live row takes no hit; any other keeps the number, and waits no longer. */
  predicate HitNoted(before: Row, after: Row, seqNum: int, now: int) {
    && (before.status.Live? ==> after == before)
    && (!before.status.Live? ==>
          && after.matchSeqNum == Some(seqNum) && FeedAdded(before.sources, after.sources, History)
          && after.historyNextPollAt.None? && after.historyLastPolledAt == Some(now)
          && (after.status != before.status ==> BeforeDetails(before.status))
          && (BeforeDetails(before.status) ==> after.status.AwaitingDetails?)
          && after.(matchSeqNum := before.matchSeqNum, sources := before.sources, status := before.status,
                    historyNextPollAt := before.historyNextPollAt,
                    historyLastPolledAt := before.historyLastPolledAt) == before)
  }

  lemma HitIsNoted(r: Row, seqNum: int, now: int)
    ensures HitNoted(r, HistoryHit(r, seqNum, now), seqNum, now)
    ensures RowInv(r) ==> RowInv(HistoryHit(r, seqNum, now))
  {
  }

  /**
   * A pending waiter spends one try, fast ones first, and is due again after that try's delay; with
   * none left it is disarmed, and the match fails only if it still awaits history.
   */
  predicate TrySpent(before: Row, after: Row, limits: HistoryLimits, now: int) {
    var left := before.historyFast < limits.fastLimit || before.historySlow < limits.slowLimit;
    && after.historyLastPolledAt == Some(now) && after.matchSeqNum == before.matchSeqNum
    && after.historyFast + after.historySlow == before.historyFast + before.historySlow + (if left then 1 else 0)
    && (after.historyFast != before.historyFast <==> before.historyFast < limits.fastLimit)
    && (left ==>
          && after.status == before.status && SameErrors(before, after)
          && after.historyNextPollAt
             == Some(now + if before.historyFast < limits.fastLimit then limits.fastMs else limits.slowMs))
    && (!left ==>
          && after.historyNextPollAt.None?
          && (before.status.AwaitingHistory? ==>
                && after.status.Failed? && after.lastErrorAt == Some(now)
                && after.lastError.Some? && after.lastErrorKind == Some(HistoryTimeout))
          && (!before.status.AwaitingHistory? ==>
                after.status == before.status && SameErrors(before, after)))
    && after.(status := before.status, historyFast := before.historyFast, historySlow := before.historySlow,
              historyLastPolledAt := before.historyLastPolledAt, historyNextPollAt := before.historyNextPollAt,
              lastError := before.lastError, lastErrorKind := before.lastErrorKind,
              lastErrorAt := before.lastErrorAt) == before
  }

  lemma MissSpendsTry(r: Row, limits: HistoryLimits, now: int)
    ensures WaiterPending(r) ==> TrySpent(r, HistoryMiss(r, limits, now), limits, now)
    ensures !WaiterPending(r) ==> HistoryMiss(r, limits, now) == r
    ensures RowInv(r) ==> RowInv(HistoryMiss(r, limits, now))
  {
  }

  predicate StaysWhenListed(s: Status) {
    || s.Live? || s.DetailsReady? || s.AwaitingReplay? || s.ReplayStored? || s.ReplayUnavailable? || s.Parsed?
    || s.Failed?
  }

  /**
   * A row that a history page listed: it has the page's number and remembers the history; it awaits
   * details unless it is live, failed or past that. Nothing else of it moves, its waiter included.
   */
  predicate PageNoted(before: Option<Row>, after: Row, seqNum: int) {
    && after.matchSeqNum == Some(seqNum)
    && match before
       case None =>
         && after.status.AwaitingDetails? && after.sources == [History] && !after.fromLive
         && Unfinished(after) && NoErrors(after) && RowInv(after)
         && after.seqFetchedAt.None? && after.detailsFetchedAt.None? && after.liveSeenAt.None?
       case Some(r) =>
         && (if StaysWhenListed(r.status) then after.status == r.status else after.status.AwaitingDetails?)
         && FeedAdded(r.sources, after.sources, History)
         && after.(matchSeqNum := r.matchSeqNum, sources := r.sources, status := r.status) == r
  }

  lemma PageIsNoted(r: Option<Row>, seqNum: int)
    ensures PageNoted(r, HistoryListed(r, seqNum), seqNum)
    ensures (r.Some? ==> RowInv(r.value)) ==> RowInv(HistoryListed(r, seqNum))
  {
  }

  // ---- records --------------------------------------------------------------------------------

  /**
   * Facts fill what is empty; the phase follows from what has been fetched by now. Only a match that
   * was never live gets its replay time from its records.
   */
  predicate FactsNoted(before: Row, after: Row, facts: Facts, fetched: Fetched, now: int) {
    && (before.matchSeqNum.Some? ==> after.matchSeqNum == before.matchSeqNum)
    && (before.matchSeqNum.None? ==> after.matchSeqNum == facts.matchSeqNum)
    && (before.finishedAt.Some? ==> after.finishedAt == before.finishedAt)
    && (before.finishedAt.None? ==> after.finishedAt == facts.finishedAt)
    && (after.seqFetchedAt.Some? <==> before.seqFetchedAt.Some? || fetched.BySeq?)
    && (after.detailsFetchedAt.Some? <==> before.detailsFetchedAt.Some? || fetched.ByGc?)
    && (before.seqFetchedAt.Some? ==> after.seqFetchedAt == before.seqFetchedAt)
    && (before.detailsFetchedAt.Some? ==> after.detailsFetchedAt == before.detailsFetchedAt)
    && (if PastDetails(before.status) then after.status == before.status
        else after.status.DetailsReady? || after.status.AwaitingDetails?)
    && (!PastDetails(before.status) ==>
          (after.status.DetailsReady? <==> fetched.ByGc? || before.detailsFetchedAt.Some?))
    && after.lastError.None? && after.lastErrorKind.None?
    && (before.seqFetchedAt.None? && fetched.BySeq? ==> after.seqFetchedAt == Some(now))
    && (before.detailsFetchedAt.None? && fetched.ByGc? ==> after.detailsFetchedAt == Some(now))
    && (if fetched.BySeq? then FeedAdded(before.sources, after.sources, Seq) else after.sources == before.sources)
    && after.replayAvailableAt == (if !before.fromLive && before.replayAvailableAt.None? then Some(now)
                                   else before.replayAvailableAt)
    && after.(matchSeqNum := before.matchSeqNum, finishedAt := before.finishedAt,
              seqFetchedAt := before.seqFetchedAt, detailsFetchedAt := before.detailsFetchedAt,
              status := before.status, sources := before.sources, replayAvailableAt := before.replayAvailableAt,
              lastError := before.lastError, lastErrorKind := before.lastErrorKind) == before
  }

  lemma FactsAreNoted(r: Row, facts: Facts, fetched: Fetched, now: int)
    ensures FactsNoted(r, FactsSaved(r, facts, fetched, now), facts, fetched, now)
    ensures RowInv(r) ==> RowInv(FactsSaved(r, facts, fetched, now))
  {
  }

  /** Only the stamp of the sequence fetch is set, and an earlier one is kept. */
  predicate SeqStamped(before: Row, after: Row, now: int) {
    && after.(seqFetchedAt := before.seqFetchedAt) == before
    && after.seqFetchedAt.Some? && (before.seqFetchedAt.Some? ==> after == before)
    && (before.seqFetchedAt.None? ==> after.seqFetchedAt == Some(now))
  }

  lemma SeqIsStamped(r: Row, now: int)
    ensures SeqStamped(r, SeqMarked(r, now), now) && (RowInv(r) ==> RowInv(SeqMarked(r, now)))
  {
  }

  /** A row a record discovers: never live, with that record's stamp alone. */
  predicate Discovery(after: Row, facts: Facts, fetched: Fetched, now: int) {
    && RowInv(after) && !after.fromLive && after.matchSeqNum == facts.matchSeqNum
    && (if fetched.ByGc? then after.status.DetailsReady? else after.status.AwaitingDetails?)
    && (after.seqFetchedAt.Some? <==> fetched.BySeq?) && (after.detailsFetchedAt.Some? <==> fetched.ByGc?)
    && (Seq in after.sources <==> fetched.BySeq?) && |after.sources| <= 1
    && Unfinished(after) && NoErrors(after) && after.durationMax == 0.0 && after.liveSeenAt.None?
    && (fetched.BySeq? ==> after.seqFetchedAt == Some(now)) && (fetched.ByGc? ==> after.detailsFetchedAt == Some(now))
  }

  lemma InsertDiscovers(facts: Facts, fetched: Fetched, now: int)
    ensures Discovery(Undiscovered(None, facts, fetched, now), facts, fetched, now)
  {
  }

  // ---- replays --------------------------------------------------------------------------------

  /** Only the phase and the error columns move; a parsed match keeps its phase. */
  predicate StageNoted(before: Row, after: Row, status: Status, error: Option<string>, kind: Option<ErrorKind>,
                       now: int)
  {
    && after.(status := before.status, lastError := before.lastError, lastErrorKind := before.lastErrorKind,
              lastErrorAt := before.lastErrorAt) == before
    && (before.status.Parsed? ==> after.status.Parsed?) && (!before.status.Parsed? ==> after.status == status)
    && (error.None? ==> after.lastError == before.lastError && after.lastErrorAt == before.lastErrorAt)
    && (error.Some? ==> after.lastError == error && after.lastErrorAt == Some(now))
    && after.lastErrorKind == (if kind.None? then before.lastErrorKind else kind)
  }

  lemma StageIsNoted(r: Row, status: Status, error: Option<string>, kind: Option<ErrorKind>, now: int)
    requires ReplayStage(status)
    ensures StageNoted(r, ReplayMarked(r, status, error, kind, now), status, error, kind, now)
    ensures RowInv(r) ==> RowInv(ReplayMarked(r, status, error, kind, now))
  {
  }

  predicate AwaitsParser(s: Status) { s.ReplayStored? || s.AwaitingReplay? || s.DetailsReady? }

  /** Publishing parses the match exactly when it was waiting for the parser or parsed before. */
  predicate PublishNoted(before: Row, after: Row) {
    && after.(status := before.status) == before
    && (after.status.Parsed? <==> AwaitsParser(before.status) || before.status.Parsed?)
    && (!after.status.Parsed? ==> after == before)
  }

  lemma PublishIsNoted(r: Row)
    ensures PublishNoted(r, Published(r))
    ensures RowInv(r) ==> RowInv(Published(r))
  {
  }
}
