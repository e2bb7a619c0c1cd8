/**
 * One row of the `matches` table: the columns that decide its phase, and what each UPDATE of
 * packages/shared/src/store/matches.ts, packages/shared/src/store/replays.ts and the parser does
 * to them. Times are milliseconds on one clock; `now` is the transaction's time.
 */
module MatchRow {
  import opened Wrappers
  import opened MatchPhase

  type MatchId = int

  datatype Row = Row(
    status: Status,
    fromLive: bool,                       // column source: live or historical
    sources: seq<Ingest>,
    leagueMissed: nat, topMissed: nat,
    durationMax: real,
    liveSeenAt: Option<int>, liveDisappearedAt: Option<int>, liveDisappearedCount: nat,
    finishedAt: Option<int>, replayAvailableAt: Option<int>,
    historyNextPollAt: Option<int>, historyLastPolledAt: Option<int>,
    historyFast: nat, historySlow: nat,
    matchSeqNum: Option<int>, seqFetchedAt: Option<int>, detailsFetchedAt: Option<int>,
    lastError: Option<string>, lastErrorKind: Option<ErrorKind>, lastErrorAt: Option<int>,
    attempts: nat, nextAttemptAt: Option<int>)

  /** A fresh insert: every column not named by the statement takes its default. */
  function NewRow(status: Status, fromLive: bool, sources: seq<Ingest>): Row {
    Row(status, fromLive, sources, 0, 0, 0.0, None, None, 0, None, None, None, None, 0, 0,
        None, None, None, None, None, None, 0, None)
  }

  function WithSource(sources: seq<Ingest>, s: Ingest): seq<Ingest> {
    if s in sources then sources else sources + [s]
  }

  // ---- live feeds -----------------------------------------------------------------------------

  /** The SET list shared by every live sighting: a false finish is pulled back to `Live`. */
  function LiveSightingResume(r: Row, feed: LiveFeed, now: int): Row {
    var keep := KeepOnLiveSighting(r.status);
    var still := keep || r.status.Live?;
    r.(
      status := if keep then r.status else Live,
      lastError := if keep then r.lastError else None,
      lastErrorKind := if keep then r.lastErrorKind else None,
      lastErrorAt := if keep then r.lastErrorAt else None,
      finishedAt := if still then r.finishedAt else None,
      replayAvailableAt := if still then r.replayAvailableAt else None,
      historyNextPollAt := if still then r.historyNextPollAt else None,
      historyFast := if still then r.historyFast else 0,
      historySlow := if still then r.historySlow else 0,
      attempts := if still then r.attempts else 0,
      nextAttemptAt := if still then r.nextAttemptAt else None,
      liveSeenAt := Some(now),
      liveDisappearedAt := if keep then r.liveDisappearedAt else None,
      leagueMissed := if feed.LiveLeague? then 0 else r.leagueMissed,
      topMissed := if feed.TopLive? then 0 else r.topMissed)
  }

  /** touchMatchLive: insert, or resume and remember the feed. */
  function Touched(r: Option<Row>, feed: LiveFeed, now: int): Row {
    match r
    case None => NewRow(Live, true, [feed]).(liveSeenAt := Some(now))
    case Some(r) =>
      LiveSightingResume(r.(sources := WithSource(r.sources, feed), fromLive := true), feed, now)
  }

  /** noteLiveFeedMisses on one row; `listed` tells whether the poll named this match. */
  function Missed(r: Row, feed: LiveFeed, listed: bool): Row {
    if !r.status.Live? || feed !in r.sources || listed then r
    else if feed.LiveLeague? then r.(leagueMissed := r.leagueMissed + 1)
    else r.(topMissed := r.topMissed + 1)
  }

  function Clocked(r: Row, duration: real): Row {
    if duration > r.durationMax && duration > 0.0 then r.(durationMax := duration) else r
  }

  /** The WHERE clause of finishMissingLiveMatches. */
  predicate FinishGuard(r: Row, threshold: nat)
    ensures FinishGuard(r, threshold)
            <==> r.status.Live? && LiveFeedsDone(r.sources, r.leagueMissed, r.topMissed, threshold)
  {
    && r.status.Live?
    && (LiveLeague in r.sources || TopLive in r.sources)
    && (LiveLeague !in r.sources || r.leagueMissed >= threshold)
    && (TopLive !in r.sources || r.topMissed >= threshold)
  }

  /** finishMissingLiveMatches on one row. */
  function Finished(r: Row, threshold: nat, replayDelayMs: nat, now: int): Row {
    if !FinishGuard(r, threshold) then r
    else
      var started := r.durationMax > 0.0;
      var delaySec := (replayDelayMs + 500) / 1000;
      r.(
        liveDisappearedAt := Some(now),
        liveDisappearedCount := r.liveDisappearedCount + 1,
        finishedAt := if started then Some(now) else r.finishedAt,
        replayAvailableAt := if started then Some(now + delaySec * 1000) else r.replayAvailableAt,
        status := if started then AwaitingHistory else NotStarted,
        historyNextPollAt := if started then Some(now) else None,
        lastError := if started then r.lastError else Some("live listing never started"),
        lastErrorKind := if started then r.lastErrorKind else Some(NeverStarted),
        lastErrorAt := if started then r.lastErrorAt else Some(now))
  }

  // ---- history waiter -------------------------------------------------------------------------

  /** historyWaiterPending: armed by a live finish until a sequence number is stored. */
  predicate WaiterPending(r: Row) {
    r.historyNextPollAt.Some? && r.matchSeqNum.None?
  }

  /** markHistoryAvailable. */
  function HistoryHit(r: Row, seqNum: int, now: int): Row {
    if r.status.Live? then r
    else r.(
      matchSeqNum := Some(seqNum),
      sources := WithSource(r.sources, History),
      status :=
        if r.status.AwaitingHistory? || r.status.NotStarted? || r.status.Discovered? || r.status.Failed?
        then AwaitingDetails else r.status,
      historyLastPolledAt := Some(now),
      historyNextPollAt := None)
  }

  /** recordHistoryPollMisses on one row. */
  function HistoryMiss(r: Row, limits: HistoryLimits, now: int): Row {
    if !WaiterPending(r) then r
    else
      var next := AdvanceHistoryMiss(r.historyFast, r.historySlow, limits);
      var failMatch := next.failed && r.status.AwaitingHistory?;
      r.(
        historyFast := next.fastCount,
        historySlow := next.slowCount,
        historyLastPolledAt := Some(now),
        historyNextPollAt := if next.failed then None else Some(now + next.nextPollMs),
        status := if failMatch then Failed else r.status,
        lastError := if failMatch then Some("history_timeout") else r.lastError,
        lastErrorKind := if failMatch then Some(HistoryTimeout) else r.lastErrorKind,
        lastErrorAt := if failMatch then Some(now) else r.lastErrorAt)
  }

  /** upsertHistoryMatches on one listed match. */
  function HistoryListed(r: Option<Row>, seqNum: int): Row {
    match r
    case None => NewRow(AwaitingDetails, false, [History]).(matchSeqNum := Some(seqNum))
    case Some(r) => r.(
      matchSeqNum := Some(seqNum),
      sources := WithSource(r.sources, History),
      status :=
        if r.status.Live? || KeepOnLiveSighting(r.status) || r.status.Failed?
        then r.status else AwaitingDetails)
  }

  // ---- sequence-number and GC ingestion -------------------------------------------------------

  datatype Fetched = BySeq | ByGc

  /** What a fetched record says about the columns kept here. */
  datatype Facts = Facts(matchSeqNum: Option<int>, finishedAt: Option<int>)

  predicate PastDetails(s: Status) {
    s.AwaitingReplay? || s.ReplayStored? || s.ReplayUnavailable? || s.Parsed?
  }

  /** saveMatchFacts. */
  function FactsSaved(r: Row, facts: Facts, fetched: Fetched, now: int): Row {
    r.(
      matchSeqNum := Coalesce(r.matchSeqNum, facts.matchSeqNum),
      finishedAt := Coalesce(r.finishedAt, facts.finishedAt),
      replayAvailableAt :=
        if !r.fromLive && r.replayAvailableAt.None? then Some(now) else r.replayAvailableAt,
      seqFetchedAt := if fetched.BySeq? then Coalesce(r.seqFetchedAt, Some(now)) else r.seqFetchedAt,
      detailsFetchedAt :=
        if fetched.ByGc? then Coalesce(r.detailsFetchedAt, Some(now)) else r.detailsFetchedAt,
      sources := if fetched.BySeq? then WithSource(r.sources, Seq) else r.sources,
      status :=
        if PastDetails(r.status) then r.status
        else if fetched.ByGc? || r.detailsFetchedAt.Some? then DetailsReady
        else AwaitingDetails,
      lastError := None,
      lastErrorKind := None)
  }

  /** insertUndiscoveredMatch: no effect on a row that exists. */
  function Undiscovered(r: Option<Row>, facts: Facts, fetched: Fetched, now: int): Row {
    match r
    case Some(r) => r
    case None =>
      NewRow(if fetched.ByGc? then DetailsReady else AwaitingDetails, false,
             if fetched.BySeq? then [Seq] else [])
      .(matchSeqNum := facts.matchSeqNum,
        seqFetchedAt := if fetched.BySeq? then Some(now) else None,
        detailsFetchedAt := if fetched.ByGc? then Some(now) else None)
  }

  /** persistMatchRecord: insert when allowed, then save; a missing row that must exist stays missing. */
  function Persisted(r: Option<Row>, facts: Facts, fetched: Fetched, mustExist: bool, now: int): Option<Row> {
    if r.None? && mustExist then None
    else Some(FactsSaved(Undiscovered(r, facts, fetched, now), facts, fetched, now))
  }

  /** markSeqFetched on one row. */
  function SeqMarked(r: Row, now: int): Row { r.(seqFetchedAt := Coalesce(r.seqFetchedAt, Some(now))) }

  /** stampMatchSeqAttempt. */
  function AttemptStamped(r: Row, nextAttemptAt: Option<int>, bump: bool): Row {
    r.(attempts := r.attempts + (if bump then 1 else 0), nextAttemptAt := nextAttemptAt)
  }

  // ---- replay stages --------------------------------------------------------------------------

  predicate ReplayStage(s: Status) {
    s.AwaitingReplay? || s.ReplayStored? || s.ReplayUnavailable? || s.Failed?
  }

  /** markMatchReplayStatus. */
  function ReplayMarked(r: Row, status: Status, error: Option<string>, kind: Option<ErrorKind>, now: int): Row
    requires ReplayStage(status)
  {
    r.(
      status := if r.status.Parsed? then r.status else status,
      lastError := Coalesce(error, r.lastError),
      lastErrorKind := Coalesce(kind, r.lastErrorKind),
      lastErrorAt := if error.None? then r.lastErrorAt else Some(now))
  }

  /** The status step of the parser's Publish. */
  function Published(r: Row): Row {
    if r.status.ReplayStored? || r.status.AwaitingReplay? || r.status.DetailsReady?
    then r.(status := Parsed) else r
  }

  // ---- what every row keeps -------------------------------------------------------------------

  /**
   * A live row has nothing left over from an earlier finish; an armed history waiter belongs to a
   * match whose clock ran and that was finished; `AwaitingHistory` is always armed; `NotStarted`
   * never is; `DetailsReady` has its details.
   */
  predicate RowInv(r: Row) {
    && (r.status.Live? ==>
          && r.historyNextPollAt.None? && r.historyFast == 0 && r.historySlow == 0
          && r.finishedAt.None? && r.liveDisappearedAt.None?)
    && (r.status.AwaitingHistory? ==> r.historyNextPollAt.Some? && r.liveDisappearedAt.Some?)
    && (r.historyNextPollAt.Some? ==> r.durationMax > 0.0 && r.finishedAt.Some?)
    && (r.status.NotStarted? ==> r.historyNextPollAt.None? && r.liveDisappearedAt.Some?)
    && (r.status.DetailsReady? ==> r.detailsFetchedAt.Some?)
  }
}
