/**
 * What one step of a run does, in the words of the writers' own contracts: the machine of
 * MatchRuns moves a row exactly as the method that the event stands for promises.
 */
module MatchSteps {
  import opened Wrappers
  import opened MatchPhase
  import opened MatchRow
  import opened MatchStore
  import opened RowEffects
  import opened LivePolls
  import opened MatchRuns

  /** A league poll: the sighting of a listed match, then the end of the poll. */
  ghost predicate LeagueMoves(id: MatchId, before: Option<Row>, digest: Option<Digest>, games: map<MatchId, Game>,
                              seen: Option<Row>, after: Option<Row>, finished: bool, threshold: nat,
                              replayDelayMs: nat, now: int)
  {
    && (if id in games then ListedBy(before, digest, games[id], seen, now) else seen == before)
    && PollEnds(seen, LiveLeague, id in games, games != map[], after, finished, threshold, replayDelayMs, now)
  }

  ghost predicate TopMoves(id: MatchId, before: Option<Row>, listed: set<MatchId>, anyGames: bool, seen: Option<Row>,
                           after: Option<Row>, finished: bool, threshold: nat, replayDelayMs: nat, now: int)
  {
    && (if id in listed then seen.Some? && Sighted(before, seen.value, TopLive, now) else seen == before)
    && PollEnds(seen, TopLive, id in listed, anyGames, after, finished, threshold, replayDelayMs, now)
  }

  /** A crawl: a found match is hit, and then a missed one spends a try if it still waits. */
  ghost predicate CrawlMoves(id: MatchId, before: Row, found: map<MatchId, int>, missed: set<MatchId>, hit: Row,
                             after: Row, limits: HistoryLimits, now: int)
  {
    && (if id in found then HitNoted(before, hit, found[id], now) else hit == before)
    && (if id in missed && WaiterPending(hit) then TrySpent(hit, after, limits, now) else after == hit)
  }

  ghost predicate ListingMoves(id: MatchId, before: Option<Row>, listed: seq<HistoryRow>, after: Option<Row>) {
    && (!Names(listed, id) ==> after == before)
    && forall i | 0 <= i < |listed| && LastNamed(listed, i) && listed[i].matchId == id ::
         after.Some? && PageNoted(before, after.value, listed[i].matchSeqNum)
  }

  ghost predicate RecordMoves(before: Option<Row>, after: Option<Row>, facts: Facts, fetched: Fetched,
                              mustExist: bool, now: int)
  {
    match before
    case Some(r) => after.Some? && FactsNoted(r, after.value, facts, fetched, now)
    case None =>
      && (after.Some? <==> !mustExist)
      && (after.Some? ==>
            exists r :: Discovery(r, facts, fetched, now) && FactsNoted(r, after.value, facts, fetched, now))
  }

  /** What the writer that `ev` stands for promises of the row of `id`; `finished` tells whether it finishes it. */
  ghost predicate Moves(id: MatchId, before: Option<Row>, digest: Option<Digest>, ev: Event, after: Option<Row>,
                        finished: bool)
  {
    match ev
    case LeaguePolled(_, games, threshold, delay, now) =>
      exists seen :: LeagueMoves(id, before, digest, games, seen, after, finished, threshold, delay, now)
    case TopPolled(listed, anyGames, threshold, delay, now) =>
      exists seen :: TopMoves(id, before, listed, anyGames, seen, after, finished, threshold, delay, now)
    case RealtimeSeen(k, gameTime, now) =>
      !finished &&
      if k != id then after == before
      else after.Some? && exists r :: Sighted(before, r, TopLive, now) && ClockNoted(r, after.value, gameTime)
    case HistoryPolled(found, missed, limits, now) =>
      !finished &&
      if before.None? then after.None?
      else after.Some? && exists hit :: CrawlMoves(id, before.value, found, missed, hit, after.value, limits, now)
    case HistoryPageListed(listed) => !finished && ListingMoves(id, before, listed, after)
    case RecordPersisted(k, facts, fetched, mustExist, now) =>
      !finished && if k == id then RecordMoves(before, after, facts, fetched, mustExist, now) else after == before
    case SeqAttemptStamped(k, nextAttemptAt, bump) =>
      !finished &&
      if k != id || before.None? then after == before
      else && after.Some? && after.value.nextAttemptAt == nextAttemptAt
           && after.value.attempts - before.value.attempts == (if bump then 1 else 0)
           && after.value.(attempts := before.value.attempts, nextAttemptAt := before.value.nextAttemptAt)
              == before.value
    case SeqFetchedMarked(ids, now) =>
      !finished &&
      if id !in ids || before.None? then after == before
      else after.Some? && SeqStamped(before.value, after.value, now)
    case ReplayStageMarked(k, status, error, kind, now) =>
      !finished &&
      if k != id || before.None? then after == before
      else after.Some? && StageNoted(before.value, after.value, status, error, kind, now)
    case ReplayPublished(k) =>
      !finished &&
      if k != id || before.None? then after == before
      else after.Some? && PublishNoted(before.value, after.value)
    case StubEnsured(k) =>
      !finished &&
      if k != id || before.Some? then after == before
      else && after.Some? && after.value.status.AwaitingReplay? && after.value.sources == [] && !after.value.fromLive
           && Unfinished(after.value) && NoErrors(after.value) && after.value.durationMax == 0.0
           && after.value.matchSeqNum.None? && after.value.seqFetchedAt.None? && after.value.detailsFetchedAt.None?
    case WorkerRestarted(_) => !finished && after == before
  }

  lemma LeaguePollMoves(id: MatchId, row: Option<Row>, digest: Option<Digest>, games: map<MatchId, Game>,
                        threshold: nat, replayDelayMs: nat, now: int)
    ensures LeagueMoves(id, row, digest, games, LeagueSightings(row, digest, id, games, now),
                        LeaguePollRow(row, digest, id, games, threshold, replayDelayMs, now),
                        LeaguePollFinishes(row, digest, id, games, threshold, now), threshold, replayDelayMs, now)
  {
    if id in games { LeagueSightedIsListed(row, digest, games[id], now); }
    AfterMissesIsPollEnd(LeagueSightings(row, digest, id, games, now), LiveLeague, id in games, games != map[],
                         threshold, replayDelayMs, now);
  }

  lemma TopPollMoves(id: MatchId, row: Option<Row>, listed: set<MatchId>, anyGames: bool,
                     threshold: nat, replayDelayMs: nat, now: int)
    ensures TopMoves(id, row, listed, anyGames, TopSightings(row, id, listed, now),
                     TopPollRow(row, id, listed, anyGames, threshold, replayDelayMs, now),
                     TopPollFinishes(row, id, listed, anyGames, threshold, now), threshold, replayDelayMs, now)
  {
    TouchSights(row, TopLive, now);
    AfterMissesIsPollEnd(TopSightings(row, id, listed, now), TopLive, id in listed, anyGames,
                         threshold, replayDelayMs, now);
  }

  lemma CrawlIsHitThenMiss(id: MatchId, row: Row, found: map<MatchId, int>, missed: set<MatchId>,
                           limits: HistoryLimits, now: int)
    ensures var after := HistoryPollRow(Some(row), id, found, missed, limits, now);
            && after.Some?
            && exists hit :: CrawlMoves(id, row, found, missed, hit, after.value, limits, now)
  {
    var hit := if id in found then HistoryHit(row, found[id], now) else row;
    if id in found { HitIsNoted(row, found[id], now); }
    MissSpendsTry(hit, limits, now);
    assert CrawlMoves(id, row, found, missed, hit,
                      HistoryPollRow(Some(row), id, found, missed, limits, now).value, limits, now);
  }

  lemma ListingIsPageNoted(w: Table, id: MatchId, listed: seq<HistoryRow>)
    ensures ListingMoves(id, Lookup(w, id), listed, ListedRow(Lookup(w, id), id, listed))
  {
    ListedAllRows(w, listed, id);
    PageListsEach(w, listed);
  }

  lemma RecordIsNoted(row: Option<Row>, facts: Facts, fetched: Fetched, mustExist: bool, now: int)
    ensures RecordMoves(row, Persisted(row, facts, fetched, mustExist, now), facts, fetched, mustExist, now)
  {
    var r := Undiscovered(row, facts, fetched, now);
    FactsAreNoted(r, facts, fetched, now);
    InsertDiscovers(facts, fetched, now);
  }

  lemma RealtimeMoves(id: MatchId, row: Option<Row>, gameTime: real, now: int)
    ensures exists r :: Sighted(row, r, TopLive, now) && ClockNoted(r, RealtimeRow(row, gameTime, now), gameTime)
  {
    TouchSights(row, TopLive, now);
    ClockCounts(Touched(row, TopLive, now), gameTime);
  }

  predicate IsPoll(ev: Event) { ev.LeaguePolled? || ev.TopPolled? }

  lemma PollMoves(w: World, ev: Event, id: MatchId)
    requires ValidEvent(ev) && IsPoll(ev)
    ensures Moves(id, Lookup(w.rows, id), DigestOf(w, WorkerOf(ev), id), ev, StepRow(w, ev, id), Finishes(w, ev, id))
  {
    var row, digest := Lookup(w.rows, id), DigestOf(w, WorkerOf(ev), id);
    match ev
    case LeaguePolled(_, games, threshold, delay, now) =>
      LeaguePollMoves(id, row, digest, games, threshold, delay, now);
    case TopPolled(listed, anyGames, threshold, delay, now) =>
      TopPollMoves(id, row, listed, anyGames, threshold, delay, now);
  }

  lemma StageMoves(id: MatchId, row: Option<Row>, digest: Option<Digest>, ev: Event)
    requires ev.SeqFetchedMarked? || ev.ReplayStageMarked? || ev.ReplayPublished?
    requires ValidEvent(ev)
    ensures Moves(id, row, digest, ev, RowStep(id, row, digest, ev), false)
  {
    if row.Some? {
      match ev
      case SeqFetchedMarked(_, now) => SeqIsStamped(row.value, now);
      case ReplayStageMarked(_, status, error, kind, now) => StageIsNoted(row.value, status, error, kind, now);
      case ReplayPublished(_) => PublishIsNoted(row.value);
    }
  }

  lemma WriteMoves(w: World, ev: Event, id: MatchId)
    requires ValidEvent(ev) && !IsPoll(ev)
    ensures Moves(id, Lookup(w.rows, id), DigestOf(w, WorkerOf(ev), id), ev, StepRow(w, ev, id), false)
  {
    var row := Lookup(w.rows, id);
    match ev
    case RealtimeSeen(_, gameTime, now) => RealtimeMoves(id, row, gameTime, now);
    case HistoryPolled(found, missed, limits, now) =>
      if row.Some? { CrawlIsHitThenMiss(id, row.value, found, missed, limits, now); }
    case HistoryPageListed(listed) => ListingIsPageNoted(w.rows, id, listed);
    case RecordPersisted(_, facts, fetched, mustExist, now) => RecordIsNoted(row, facts, fetched, mustExist, now);
    case SeqAttemptStamped(_, _, _) =>
    case StubEnsured(_) =>
    case WorkerRestarted(_) =>
    case _ => StageMoves(id, row, DigestOf(w, WorkerOf(ev), id), ev);
  }

  /** Every step moves every row as the contract of its writer says. */
  lemma StepMoves(w: World, ev: Event, id: MatchId)
    requires ValidEvent(ev)
    ensures Moves(id, Lookup(w.rows, id), DigestOf(w, WorkerOf(ev), id), ev, Lookup(Step(w, ev).rows, id),
                  Finishes(w, ev, id))
  {
    StepIsRowStep(w, ev, id);
    if IsPoll(ev) {
      PollMoves(w, ev, id);
    } else {
      WriteMoves(w, ev, id);
    }
  }

  /**
   * A worker remembers the digest it listed last, until it finishes the match or restarts; the log
   * keeps exactly the polls that returned games.
   */
  lemma StepRemembers(w: World, ev: Event, worker: Worker, id: MatchId)
    requires ValidEvent(ev)
    ensures DigestOf(Step(w, ev), worker, id) ==
              if ev.LeaguePolled? && ev.worker == worker && Finishes(w, ev, id) then None
              else if ev.LeaguePolled? && ev.worker == worker && id in ev.games then Some(ev.games[id].digest)
              else if ev.WorkerRestarted? && ev.worker == worker then None
              else DigestOf(w, worker, id)
    ensures Step(w, ev).log == w.log + (
              if ev.LeaguePolled? && ev.games != map[] then [Poll(LiveLeague, ev.games.Keys)]
              else if ev.TopPolled? && ev.anyGames then [Poll(TopLive, ev.seen)] else [])
  {
  }
}
