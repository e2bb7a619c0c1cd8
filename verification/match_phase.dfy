/**
 * The phases of one `matches` row and the pure decisions taken on them
 * (packages/shared/src/store/match-phase.ts).
 */
module MatchPhase {
  import opened Wrappers

  datatype Status =
    | Discovered | Live | AwaitingDetails | DetailsReady | AwaitingReplay | ReplayStored
    | ReplayUnavailable | Failed | AwaitingHistory | Parsed | NotStarted

  /** Entries of the `ingest_sources` array; the first two are live feeds. */
  datatype Ingest = LiveLeague | TopLive | History | Seq

  type LiveFeed = f: Ingest | f.LiveLeague? || f.TopLive? witness LiveLeague

  datatype ErrorKind =
    | Network | RateLimit | Auth | NotReady | Unavailable | HistoryTimeout | NeverStarted | Other

  /** Phases that a live-feed sighting does not pull back to `Live`. */
  predicate KeepOnLiveSighting(s: Status) {
    s.DetailsReady? || s.AwaitingReplay? || s.ReplayStored? || s.ReplayUnavailable? || s.Parsed?
  }

  predicate CanResumeLive(s: Option<Status>) {
    s.Some? && !KeepOnLiveSighting(s.value)
  }

  predicate LiveFeedsDone(sources: seq<Ingest>, liveMisses: nat, topMisses: nat, threshold: nat) {
    var hasLive := LiveLeague in sources;
    var hasTop := TopLive in sources;
    if !hasLive && !hasTop then false
    else if hasLive && liveMisses < threshold then false
    else if hasTop && topMisses < threshold then false
    else true
  }

  /** The four settings that bound how long the history waiter keeps polling. */
  datatype HistoryLimits = HistoryLimits(fastLimit: nat, slowLimit: nat, fastMs: nat, slowMs: nat)

  datatype HistoryPollState = HistoryPollState(
    fastCount: nat, slowCount: nat, failed: bool, nextPollMs: nat)

  function AdvanceHistoryMiss(fastCount: nat, slowCount: nat, limits: HistoryLimits): HistoryPollState {
    if fastCount < limits.fastLimit then
      HistoryPollState(fastCount + 1, slowCount, false, limits.fastMs)
    else if slowCount < limits.slowLimit then
      HistoryPollState(fastCount, slowCount + 1, false, limits.slowMs)
    else
      HistoryPollState(fastCount, slowCount, true, 0)
  }
}
