/**
 * Whole runs of the ingest: every writer of the `matches` table as one atomic step, in any
 * order, with any number of live workers (each with its own digest memory), and a log of the
 * polls that returned games. The log is what the counters are measured against.
 */
module MatchRuns {
  import opened Wrappers
  import opened MatchPhase
  import opened MatchRow
  import opened MatchStore
  import opened LivePolls
  import opened RowEffects

  type Worker = nat

  /** A poll of one feed whose response was not empty, and the ids it listed. */
  datatype Poll = Poll(feed: LiveFeed, listed: set<MatchId>)

  datatype World = World(rows: Table, digests: map<Worker, map<MatchId, Digest>>, log: seq<Poll>)

  datatype Event =
    | LeaguePolled(worker: Worker, games: map<MatchId, Game>, threshold: nat, replayDelayMs: nat, now: int)
    | TopPolled(seen: set<MatchId>, anyGames: bool, threshold: nat, replayDelayMs: nat, now: int)
    | RealtimeSeen(id: MatchId, gameTime: real, now: int)
    | HistoryPolled(found: map<MatchId, int>, missed: set<MatchId>, limits: HistoryLimits, now: int)
    | HistoryPageListed(listed: seq<HistoryRow>)
    | RecordPersisted(id: MatchId, facts: Facts, fetched: Fetched, mustExist: bool, now: int)
    | SeqAttemptStamped(id: MatchId, nextAttemptAt: Option<int>, bump: bool)
    | SeqFetchedMarked(ids: set<MatchId>, now: int)
    | ReplayStageMarked(id: MatchId, status: Status, error: Option<string>, kind: Option<ErrorKind>, now: int)
    | ReplayPublished(id: MatchId)
    | StubEnsured(id: MatchId)
    | WorkerRestarted(worker: Worker)

  /** What the settings and the callers guarantee of an event. */
  predicate ValidEvent(ev: Event) {
    match ev
    case LeaguePolled(_, _, threshold, _, _) => threshold >= 1
    case TopPolled(seen, anyGames, threshold, _, _) => threshold >= 1 && (seen != {} ==> anyGames)
    case ReplayStageMarked(_, status, _, _, _) => ReplayStage(status)
    case _ => true
  }

  function DigestOf(w: World, worker: Worker, id: MatchId): Option<Digest> {
    if worker in w.digests then Lookup(w.digests[worker], id) else None
  }

  // ---- one step -------------------------------------------------------------------------------

  /** What an event does to the row of `id`; `digest` is what the polling worker remembers of it. */
  function RowStep(id: MatchId, row: Option<Row>, digest: Option<Digest>, ev: Event): Option<Row>
    requires ValidEvent(ev)
  {
    match ev
    case LeaguePolled(_, games, threshold, delay, now) =>
      LeaguePollRow(row, digest, id, games, threshold, delay, now)
    case TopPolled(seen, anyGames, threshold, delay, now) =>
      TopPollRow(row, id, seen, anyGames, threshold, delay, now)
    case RealtimeSeen(k, gameTime, now) =>
      if k == id then Some(RealtimeRow(row, gameTime, now)) else row
    case HistoryPolled(found, missed, limits, now) =>
      HistoryPollRow(row, id, found, missed, limits, now)
    case HistoryPageListed(listed) => ListedRow(row, id, listed)
    case RecordPersisted(k, facts, fetched, mustExist, now) =>
      if k == id then Persisted(row, facts, fetched, mustExist, now) else row
    case SeqAttemptStamped(k, nextAttemptAt, bump) =>
      if k == id && row.Some? then Some(AttemptStamped(row.value, nextAttemptAt, bump)) else row
    case SeqFetchedMarked(ids, now) =>
      if id in ids && row.Some? then Some(SeqMarked(row.value, now)) else row
    case ReplayStageMarked(k, status, error, kind, now) =>
      if k == id && row.Some? then Some(ReplayMarked(row.value, status, error, kind, now)) else row
    case ReplayPublished(k) => if k == id && row.Some? then Some(Published(row.value)) else row
    case StubEnsured(k) => if k == id && row.None? then Some(NewRow(AwaitingReplay, false, [])) else row
    case WorkerRestarted(_) => row
  }

  /** A row after the transaction that ends one crawl of a league's history: hits, then misses. */
  function HistoryPollRow(row: Option<Row>, id: MatchId, found: map<MatchId, int>, missed: set<MatchId>,
                          limits: HistoryLimits, now: int): Option<Row>
  {
    if row.None? then None
    else
      var hit := if id in found then HistoryHit(row.value, found[id], now) else row.value;
      Some(if id in missed then HistoryMiss(hit, limits, now) else hit)
  }

  /** A row after one listed history page. */
  function ListedRow(row: Option<Row>, id: MatchId, listed: seq<HistoryRow>): Option<Row> {
    if listed == [] then row
    else
      var before := ListedRow(row, id, listed[..|listed| - 1]);
      var last := listed[|listed| - 1];
      if last.matchId == id then Some(HistoryListed(before, last.matchSeqNum)) else before
  }

  /** Every id an event may insert. */
  function Mentioned(ev: Event): set<MatchId> {
    match ev
    case LeaguePolled(_, games, _, _, _) => games.Keys
    case TopPolled(seen, _, _, _, _) => seen
    case HistoryPageListed(listed) => set i | 0 <= i < |listed| :: listed[i].matchId
    case RealtimeSeen(k, _, _) => {k}
    case RecordPersisted(k, _, _, _, _) => {k}
    case StubEnsured(k) => {k}
    case _ => {}
  }

  function WorkerOf(ev: Event): Worker {
    if ev.LeaguePolled? then ev.worker else 0
  }

  /** The ids a poll finishes. */
  predicate Finishes(w: World, ev: Event, id: MatchId) {
    match ev
    case LeaguePolled(worker, games, threshold, _, now) =>
      LeaguePollFinishes(Lookup(w.rows, id), DigestOf(w, worker, id), id, games, threshold, now)
    case TopPolled(seen, anyGames, threshold, _, now) =>
      TopPollFinishes(Lookup(w.rows, id), id, seen, anyGames, threshold, now)
    case _ => false
  }

  function StepRow(w: World, ev: Event, id: MatchId): Option<Row>
    requires ValidEvent(ev)
  {
    RowStep(id, Lookup(w.rows, id), DigestOf(w, WorkerOf(ev), id), ev)
  }

  function Step(w: World, ev: Event): World
    requires ValidEvent(ev)
  {
    World(
      map id | id in w.rows.Keys + Mentioned(ev) && StepRow(w, ev, id).Some? :: StepRow(w, ev, id).value,
      match ev
      case LeaguePolled(worker, games, _, _, _) =>
        var known := if worker in w.digests then w.digests[worker] else map[];
        w.digests[worker :=
          map id | id in known.Keys + games.Keys && !Finishes(w, ev, id) ::
            if id in games then games[id].digest else known[id]]
      case WorkerRestarted(worker) => w.digests - {worker}
      case _ => w.digests,
      match ev
      case LeaguePolled(_, games, _, _, _) =>
        if games == map[] then w.log else w.log + [Poll(LiveLeague, games.Keys)]
      case TopPolled(seen, anyGames, _, _, _) =>
        if anyGames then w.log + [Poll(TopLive, seen)] else w.log
      case _ => w.log)
  }

  /** Only the rows an event mentions can appear, so a step is exactly its effect on each row. */
  lemma StepIsRowStep(w: World, ev: Event, id: MatchId)
    requires ValidEvent(ev)
    ensures Lookup(Step(w, ev).rows, id) == StepRow(w, ev, id)
  {
    if id !in w.rows.Keys + Mentioned(ev) {
      match ev
      case HistoryPageListed(listed) => ListedRowUnmentioned(id, listed);
      case _ =>
    }
  }

  lemma {:induction false} ListedRowUnmentioned(id: MatchId, listed: seq<HistoryRow>)
    requires forall i | 0 <= i < |listed| :: listed[i].matchId != id
    ensures ListedRow(None, id, listed) == None
  {
    if listed != [] {
      ListedRowUnmentioned(id, listed[..|listed| - 1]);
    }
  }

  /** Listing a page on the table is listing it on each row. */
  lemma {:induction false} ListedAllRows(rows: Table, listed: seq<HistoryRow>, id: MatchId)
    ensures Lookup(ListedAll(rows, listed), id) == ListedRow(Lookup(rows, id), id, listed)
  {
    if listed != [] {
      ListedAllRows(rows, listed[..|listed| - 1], id);
    }
  }

  // ---- runs -----------------------------------------------------------------------------------

  const Empty := World(map[], map[], [])

  predicate ValidRun(evs: seq<Event>) {
    forall i | 0 <= i < |evs| :: ValidEvent(evs[i])
  }

  function Run(w: World, evs: seq<Event>): World
    requires ValidRun(evs)
  {
    if evs == [] then w else Step(Run(w, evs[..|evs| - 1]), evs[|evs| - 1])
  }

  /** Polls of `feed` that omitted `id`, counted back to the last one that listed it. */
  function OmittedSinceListed(log: seq<Poll>, feed: LiveFeed, id: MatchId): nat {
    if log == [] then 0
    else
      var before := OmittedSinceListed(log[..|log| - 1], feed, id);
      var last := log[|log| - 1];
      if last.feed != feed then before else if id in last.listed then 0 else before + 1
  }

  /** The polls of a feed that omitted a match, with none since that listed it. */
  ghost function OmittingPolls(log: seq<Poll>, feed: LiveFeed, id: MatchId): set<nat> {
    set i: nat | i < |log| && log[i].feed == feed && NotListedFrom(log, i, feed, id)
  }

  ghost predicate NotListedFrom(log: seq<Poll>, i: nat, feed: LiveFeed, id: MatchId) {
    forall j | i <= j < |log| && log[j].feed == feed :: id !in log[j].listed
  }

  lemma OneMorePoll(log: seq<Poll>, n: nat, i: nat, feed: LiveFeed, id: MatchId)
    requires |log| == n + 1 && i <= n
    ensures NotListedFrom(log, i, feed, id) <==>
              NotListedFrom(log[..n], i, feed, id) && (log[n].feed == feed ==> id !in log[n].listed)
  {
    if NotListedFrom(log, i, feed, id) {
      assert forall j | i <= j < n :: log[..n][j] == log[j];
    } else {
      var j :| i <= j < |log| && log[j].feed == feed && id in log[j].listed;
      assert j < n ==> log[..n][j] == log[j];
    }
  }

  lemma {:induction false} OmittedCounts(log: seq<Poll>, feed: LiveFeed, id: MatchId)
    ensures OmittedSinceListed(log, feed, id) == |OmittingPolls(log, feed, id)|
  {
    if log != [] {
      var n := |log| - 1;
      var before := OmittingPolls(log[..n], feed, id);
      OmittedCounts(log[..n], feed, id);
      forall i: nat | i <= n
        ensures i in OmittingPolls(log, feed, id) <==>
                  (log[n].feed == feed ==> id !in log[n].listed) && (if i < n then i in before else log[n].feed == feed)
      {
        OneMorePoll(log, n, i, feed, id);
      }
      assert OmittingPolls(log, feed, id) ==
             if log[n].feed != feed then before else if id in log[n].listed then {} else before + {n};
    }
  }

  ghost predicate CountersBacked(r: Row, log: seq<Poll>, id: MatchId) {
    && r.leagueMissed <= OmittedSinceListed(log, LiveLeague, id)
    && r.topMissed <= OmittedSinceListed(log, TopLive, id)
  }

  /**
   * What every run keeps: each row's own invariant, counters never ahead of the log, and a
   * digest is remembered only for a row that the league feed is known to have listed.
   */
  ghost predicate WorldInv(w: World) {
    && (forall id | id in w.rows :: RowInv(w.rows[id]))
    && (forall id | id in w.rows :: CountersBacked(w.rows[id], w.log, id))
    && (forall worker, id :: DigestOf(w, worker, id).Some? ==>
          id in w.rows && LiveLeague in w.rows[id].sources)
    && (forall id | id in w.rows && w.rows[id].status.Live? :: HasLiveFeed(w.rows[id]))
  }

  predicate HasLiveFeed(r: Row) {
    LiveLeague in r.sources || TopLive in r.sources
  }

  // ---- rows keep their invariant --------------------------------------------------------------

  lemma AfterMissesKeepsRow(row: Option<Row>, feed: LiveFeed, listed: bool, counts: bool,
                            threshold: nat, replayDelayMs: nat, now: int)
    requires row.Some? && RowInv(row.value)
    ensures RowInv(AfterMisses(row, feed, listed, counts, threshold, replayDelayMs, now).value)
  {
  }

  lemma SightingKeepsRow(row: Option<Row>, feed: LiveFeed, now: int)
    requires row.Some? ==> RowInv(row.value)
    ensures RowInv(Touched(row, feed, now))
    ensures row.Some? ==> RowInv(LiveSightingResume(row.value, feed, now))
  {
  }

  lemma {:induction false} ListingKeepsRow(row: Option<Row>, id: MatchId, listed: seq<HistoryRow>)
    requires row.Some? ==> RowInv(row.value)
    ensures ListedRow(row, id, listed).Some? ==> RowInv(ListedRow(row, id, listed).value)
  {
    if listed != [] {
      ListingKeepsRow(row, id, listed[..|listed| - 1]);
    }
  }

  lemma LeaguePollKeepsRow(row: Option<Row>, digest: Option<Digest>, id: MatchId, games: map<MatchId, Game>,
                           threshold: nat, replayDelayMs: nat, now: int)
    requires row.Some? ==> RowInv(row.value)
    ensures var after := LeaguePollRow(row, digest, id, games, threshold, replayDelayMs, now);
            after.Some? ==> RowInv(after.value)
  {
    SightingKeepsRow(row, LiveLeague, now);
    var seen := LeagueSightings(row, digest, id, games, now);
    if seen.Some? {
      AfterMissesKeepsRow(seen, LiveLeague, id in games, games != map[], threshold, replayDelayMs, now);
    }
  }

  lemma TopPollKeepsRow(row: Option<Row>, id: MatchId, listed: set<MatchId>, anyGames: bool,
                        threshold: nat, replayDelayMs: nat, now: int)
    requires row.Some? ==> RowInv(row.value)
    ensures var after := TopPollRow(row, id, listed, anyGames, threshold, replayDelayMs, now);
            after.Some? ==> RowInv(after.value)
  {
    SightingKeepsRow(row, TopLive, now);
    var seen := TopSightings(row, id, listed, now);
    if seen.Some? {
      AfterMissesKeepsRow(seen, TopLive, id in listed, anyGames, threshold, replayDelayMs, now);
    }
  }

  lemma HistoryPollKeepsRow(row: Row, id: MatchId, found: map<MatchId, int>, missed: set<MatchId>,
                            limits: HistoryLimits, now: int)
    requires RowInv(row)
    ensures RowInv(HistoryPollRow(Some(row), id, found, missed, limits, now).value)
  {
    if id in found {
      HitIsNoted(row, found[id], now);
      MissSpendsTry(HistoryHit(row, found[id], now), limits, now);
    } else {
      MissSpendsTry(row, limits, now);
    }
  }

  lemma PersistKeepsRow(row: Option<Row>, facts: Facts, fetched: Fetched, mustExist: bool, now: int)
    requires row.Some? ==> RowInv(row.value)
    ensures var after := Persisted(row, facts, fetched, mustExist, now); after.Some? ==> RowInv(after.value)
  {
    var inserted := Undiscovered(row, facts, fetched, now);
    if row.None? {
      InsertDiscovers(facts, fetched, now);
    }
    FactsAreNoted(inserted, facts, fetched, now);
  }

  /** Every writer of the table keeps every row's invariant. */
  lemma RowStepKeepsRow(id: MatchId, row: Option<Row>, digest: Option<Digest>, ev: Event)
    requires ValidEvent(ev) && (row.Some? ==> RowInv(row.value))
    ensures RowStep(id, row, digest, ev).Some? ==> RowInv(RowStep(id, row, digest, ev).value)
  {
    match ev
    case LeaguePolled(_, games, threshold, delay, now) =>
      LeaguePollKeepsRow(row, digest, id, games, threshold, delay, now);
    case TopPolled(seen, anyGames, threshold, delay, now) =>
      TopPollKeepsRow(row, id, seen, anyGames, threshold, delay, now);
    case RealtimeSeen(_, _, now) => SightingKeepsRow(row, TopLive, now);
    case HistoryPolled(found, missed, limits, now) =>
      if row.Some? { HistoryPollKeepsRow(row.value, id, found, missed, limits, now); }
    case HistoryPageListed(listed) => ListingKeepsRow(row, id, listed);
    case RecordPersisted(_, facts, fetched, mustExist, now) =>
      PersistKeepsRow(row, facts, fetched, mustExist, now);
    case _ =>
  }

  // ---- the counters and the log ---------------------------------------------------------------

  /** Appending a poll to the log moves the count of one feed only. */
  lemma OmittedAfter(log: seq<Poll>, p: Poll, feed: LiveFeed, id: MatchId)
    ensures OmittedSinceListed(log + [p], feed, id) ==
              if p.feed != feed then OmittedSinceListed(log, feed, id)
              else if id in p.listed then 0
              else OmittedSinceListed(log, feed, id) + 1
  {
    assert (log + [p])[..|log|] == log;
  }

  lemma SightingKeepsSources(row: Option<Row>, feed: LiveFeed, now: int)
    requires row.Some?
    ensures forall s | s in row.value.sources :: s in Touched(row, feed, now).sources
    ensures LiveSightingResume(row.value, feed, now).sources == row.value.sources
  {
  }

  lemma AfterMissesKeepsSources(row: Option<Row>, feed: LiveFeed, listed: bool, counts: bool,
                                threshold: nat, replayDelayMs: nat, now: int)
    requires row.Some?
    ensures AfterMisses(row, feed, listed, counts, threshold, replayDelayMs, now).Some?
    ensures AfterMisses(row, feed, listed, counts, threshold, replayDelayMs, now).value.sources
            == row.value.sources
  {
  }

  lemma LeaguePollKeepsSources(row: Option<Row>, digest: Option<Digest>, id: MatchId, games: map<MatchId, Game>,
                               threshold: nat, replayDelayMs: nat, now: int)
    requires row.Some?
    ensures LeaguePollRow(row, digest, id, games, threshold, replayDelayMs, now).Some?
    ensures forall s | s in row.value.sources ::
              s in LeaguePollRow(row, digest, id, games, threshold, replayDelayMs, now).value.sources
  {
    SightingKeepsSources(row, LiveLeague, now);
    AfterMissesKeepsSources(LeagueSightings(row, digest, id, games, now), LiveLeague, id in games,
                            games != map[], threshold, replayDelayMs, now);
  }

  lemma TopPollKeepsSources(row: Option<Row>, id: MatchId, listed: set<MatchId>, anyGames: bool,
                            threshold: nat, replayDelayMs: nat, now: int)
    requires row.Some?
    ensures TopPollRow(row, id, listed, anyGames, threshold, replayDelayMs, now).Some?
    ensures forall s | s in row.value.sources ::
              s in TopPollRow(row, id, listed, anyGames, threshold, replayDelayMs, now).value.sources
  {
    SightingKeepsSources(row, TopLive, now);
    AfterMissesKeepsSources(TopSightings(row, id, listed, now), TopLive, id in listed, anyGames,
                            threshold, replayDelayMs, now);
  }

  /** Rows never disappear and never forget a feed; no writer but a poll raises a counter. */
  lemma RowStepKeepsSources(id: MatchId, row: Option<Row>, digest: Option<Digest>, ev: Event)
    requires ValidEvent(ev) && row.Some?
    ensures RowStep(id, row, digest, ev).Some?
    ensures forall s | s in row.value.sources :: s in RowStep(id, row, digest, ev).value.sources
    ensures !ev.LeaguePolled? && !ev.TopPolled? ==>
              && RowStep(id, row, digest, ev).value.leagueMissed <= row.value.leagueMissed
              && RowStep(id, row, digest, ev).value.topMissed <= row.value.topMissed
  {
    match ev
    case LeaguePolled(_, games, threshold, delay, now) =>
      LeaguePollKeepsSources(row, digest, id, games, threshold, delay, now);
    case TopPolled(seen, anyGames, threshold, delay, now) =>
      TopPollKeepsSources(row, id, seen, anyGames, threshold, delay, now);
    case HistoryPageListed(listed) => ListingKeepsCounters(row, id, listed);
    case _ =>
  }

  lemma {:induction false} ListingKeepsCounters(row: Option<Row>, id: MatchId, listed: seq<HistoryRow>)
    ensures ListedRow(row, id, listed).Some? ==>
              var r := ListedRow(row, id, listed).value;
              && r.leagueMissed == (if row.Some? then row.value.leagueMissed else 0)
              && r.topMissed == (if row.Some? then row.value.topMissed else 0)
              && forall s | row.Some? && s in row.value.sources :: s in r.sources
    ensures row.Some? ==> ListedRow(row, id, listed).Some?
  {
    if listed != [] {
      ListingKeepsCounters(row, id, listed[..|listed| - 1]);
    }
  }

  function CountOf(r: Row, feed: LiveFeed): nat {
    if feed.LiveLeague? then r.leagueMissed else r.topMissed
  }

  /** The end of a poll raises at most the polled feed's counter, by one, on a row it did not list. */
  lemma AfterMissesCounts(row: Option<Row>, polled: LiveFeed, listed: bool, counts: bool,
                          threshold: nat, replayDelayMs: nat, now: int, feed: LiveFeed)
    requires row.Some?
    ensures CountOf(AfterMisses(row, polled, listed, counts, threshold, replayDelayMs, now).value, feed)
            <= CountOf(row.value, feed) + (if feed == polled && counts && !listed then 1 else 0)
  {
  }

  /** A sighting clears its own feed's counter and leaves the other. */
  lemma SightingCounts(row: Option<Row>, seenBy: LiveFeed, now: int, feed: LiveFeed)
    ensures CountOf(Touched(row, seenBy, now), feed) ==
              if feed == seenBy || row.None? then 0 else CountOf(row.value, feed)
    ensures row.Some? ==>
              CountOf(LiveSightingResume(row.value, seenBy, now), feed) ==
              if feed == seenBy then 0 else CountOf(row.value, feed)
  {
  }

  lemma LeagueSightingsCount(row: Option<Row>, digest: Option<Digest>, id: MatchId,
                             games: map<MatchId, Game>, now: int, feed: LiveFeed)
    ensures LeagueSightings(row, digest, id, games, now).Some? ==>
              CountOf(LeagueSightings(row, digest, id, games, now).value, feed) ==
              if row.None? || (id in games && feed.LiveLeague?) then 0 else CountOf(row.value, feed)
  {
    SightingCounts(row, LiveLeague, now, feed);
  }

  lemma LeaguePollCounts(w: World, ev: Event, id: MatchId, feed: LiveFeed)
    requires ValidEvent(ev) && WorldInv(w) && ev.LeaguePolled? && StepRow(w, ev, id).Some?
    ensures CountOf(StepRow(w, ev, id).value, feed) <= OmittedSinceListed(Step(w, ev).log, feed, id)
  {
    var row := Lookup(w.rows, id);
    var seen := LeagueSightings(row, DigestOf(w, ev.worker, id), id, ev.games, ev.now);
    LeagueSightingsCount(row, DigestOf(w, ev.worker, id), id, ev.games, ev.now, feed);
    AfterMissesCounts(seen, LiveLeague, id in ev.games, ev.games != map[], ev.threshold, ev.replayDelayMs,
                      ev.now, feed);
    OmittedAfter(w.log, Poll(LiveLeague, ev.games.Keys), feed, id);
  }

  lemma TopPollCounts(w: World, ev: Event, id: MatchId, feed: LiveFeed)
    requires ValidEvent(ev) && WorldInv(w) && ev.TopPolled? && StepRow(w, ev, id).Some?
    ensures CountOf(StepRow(w, ev, id).value, feed) <= OmittedSinceListed(Step(w, ev).log, feed, id)
  {
    var row := Lookup(w.rows, id);
    SightingCounts(row, TopLive, ev.now, feed);
    var seen := TopSightings(row, id, ev.seen, ev.now);
    AfterMissesCounts(seen, TopLive, id in ev.seen, ev.anyGames, ev.threshold, ev.replayDelayMs,
                      ev.now, feed);
    OmittedAfter(w.log, Poll(TopLive, ev.seen), feed, id);
  }

  lemma StepKeepsCounters(w: World, ev: Event, id: MatchId)
    requires ValidEvent(ev) && WorldInv(w) && StepRow(w, ev, id).Some?
    ensures CountersBacked(StepRow(w, ev, id).value, Step(w, ev).log, id)
  {
    if ev.LeaguePolled? {
      LeaguePollCounts(w, ev, id, LiveLeague);
      LeaguePollCounts(w, ev, id, TopLive);
    } else if ev.TopPolled? {
      TopPollCounts(w, ev, id, LiveLeague);
      TopPollCounts(w, ev, id, TopLive);
    } else {
      var row := Lookup(w.rows, id);
      if row.Some? {
        RowStepKeepsSources(id, row, DigestOf(w, WorkerOf(ev), id), ev);
      } else if ev.HistoryPageListed? {
        ListingKeepsCounters(row, id, ev.listed);
      }
    }
  }

  // ---- runs keep the world invariant ----------------------------------------------------------

  /** A digest that survives a poll is of a game the poll listed, or was remembered before. */
  lemma StepKeepsDigests(w: World, ev: Event, worker: Worker, id: MatchId)
    requires ValidEvent(ev) && WorldInv(w)
    requires DigestOf(Step(w, ev), worker, id).Some?
    ensures Lookup(Step(w, ev).rows, id).Some?
    ensures LiveLeague in Step(w, ev).rows[id].sources
  {
    StepIsRowStep(w, ev, id);
    if DigestOf(w, worker, id).Some? {
      RowStepKeepsSources(id, Lookup(w.rows, id), DigestOf(w, WorkerOf(ev), id), ev);
    }
  }

  /** Only a live feed's sighting makes a row live. */
  predicate Sights(ev: Event, id: MatchId) {
    match ev
    case LeaguePolled(_, games, _, _, _) => id in games
    case TopPolled(seen, _, _, _, _) => id in seen
    case RealtimeSeen(k, _, _) => k == id
    case _ => false
  }

  lemma {:induction false} ListingKeepsLiveness(row: Option<Row>, id: MatchId, listed: seq<HistoryRow>)
    ensures row.Some? ==> ListedRow(row, id, listed).Some?
    ensures ListedRow(row, id, listed).Some? ==>
              (ListedRow(row, id, listed).value.status.Live? <==> row.Some? && row.value.status.Live?)
  {
    if listed != [] {
      ListingKeepsLiveness(row, id, listed[..|listed| - 1]);
    }
  }

  lemma OnlySightingsResume(w: World, ev: Event, id: MatchId)
    requires ValidEvent(ev) && !Sights(ev, id)
    requires StepRow(w, ev, id).Some? && StepRow(w, ev, id).value.status.Live?
    ensures id in w.rows && w.rows[id].status.Live?
  {
    if ev.HistoryPageListed? {
      ListingKeepsLiveness(Lookup(w.rows, id), id, ev.listed);
    }
  }

  lemma LiveRowHasFeed(w: World, ev: Event, id: MatchId)
    requires ValidEvent(ev) && WorldInv(w)
    requires StepRow(w, ev, id).Some? && StepRow(w, ev, id).value.status.Live?
    ensures HasLiveFeed(StepRow(w, ev, id).value)
  {
    if Sights(ev, id) {
      if ev.LeaguePolled? && DigestOf(w, ev.worker, id).Some? {
        RowStepKeepsSources(id, Lookup(w.rows, id), DigestOf(w, ev.worker, id), ev);
      }
    } else {
      OnlySightingsResume(w, ev, id);
      RowStepKeepsSources(id, Lookup(w.rows, id), DigestOf(w, WorkerOf(ev), id), ev);
    }
  }

  lemma StepKeepsWorld(w: World, ev: Event)
    requires ValidEvent(ev) && WorldInv(w)
    ensures WorldInv(Step(w, ev))
  {
    var w' := Step(w, ev);
    forall id | id in w'.rows ensures RowInv(w'.rows[id]) && CountersBacked(w'.rows[id], w'.log, id) {
      StepIsRowStep(w, ev, id);
      RowStepKeepsRow(id, Lookup(w.rows, id), DigestOf(w, WorkerOf(ev), id), ev);
      StepKeepsCounters(w, ev, id);
    }
    forall id | id in w'.rows && w'.rows[id].status.Live? ensures HasLiveFeed(w'.rows[id]) {
      StepIsRowStep(w, ev, id);
      LiveRowHasFeed(w, ev, id);
    }
    forall worker, id | DigestOf(w', worker, id).Some?
      ensures id in w'.rows && LiveLeague in w'.rows[id].sources
    {
      StepKeepsDigests(w, ev, worker, id);
    }
  }

  lemma {:induction false} RunFromKeepsWorld(w: World, evs: seq<Event>)
    requires WorldInv(w) && ValidRun(evs)
    ensures WorldInv(Run(w, evs))
  {
    if evs != [] {
      RunFromKeepsWorld(w, evs[..|evs| - 1]);
      StepKeepsWorld(Run(w, evs[..|evs| - 1]), evs[|evs| - 1]);
    }
  }

  /** Every state reachable from an empty table keeps the invariant. */
  lemma RunKeepsWorld(evs: seq<Event>)
    requires ValidRun(evs)
    ensures WorldInv(Run(Empty, evs))
  {
    RunFromKeepsWorld(Empty, evs);
  }

  // ---- what a finish means --------------------------------------------------------------------

  predicate IsPoll(ev: Event) {
    ev.LeaguePolled? || ev.TopPolled?
  }

  function ThresholdOf(ev: Event): nat
    requires IsPoll(ev)
  {
    ev.threshold
  }

  lemma LeagueListedIsNeverFinished(w: World, ev: Event, id: MatchId)
    requires ValidEvent(ev) && WorldInv(w) && ev.LeaguePolled? && Sights(ev, id)
    ensures !Finishes(w, ev, id) && StepRow(w, ev, id).Some?
    ensures var s := StepRow(w, ev, id).value.status; s.Live? || KeepOnLiveSighting(s)
  {
    var seen := LeagueSightings(Lookup(w.rows, id), DigestOf(w, ev.worker, id), id, ev.games, ev.now);
    ListedStaysUp(seen, LiveLeague, ev.threshold, ev.replayDelayMs, ev.now);
  }

  lemma TopListedIsNeverFinished(w: World, ev: Event, id: MatchId)
    requires ValidEvent(ev) && ev.TopPolled? && Sights(ev, id)
    ensures !Finishes(w, ev, id) && StepRow(w, ev, id).Some?
    ensures var s := StepRow(w, ev, id).value.status; s.Live? || KeepOnLiveSighting(s)
  {
    var seen := TopSightings(Lookup(w.rows, id), id, ev.seen, ev.now);
    ListedStaysUp(seen, TopLive, ev.threshold, ev.replayDelayMs, ev.now);
  }

  /** A poll that lists a match leaves it live, or in a phase that sightings do not touch. */
  lemma ListedIsNeverFinished(evs: seq<Event>, ev: Event, id: MatchId)
    requires ValidRun(evs) && ValidEvent(ev) && IsPoll(ev) && Sights(ev, id)
    ensures !Finishes(Run(Empty, evs), ev, id)
    ensures Lookup(Step(Run(Empty, evs), ev).rows, id).Some?
    ensures var s := Step(Run(Empty, evs), ev).rows[id].status; s.Live? || KeepOnLiveSighting(s)
  {
    RunKeepsWorld(evs);
    StepIsRowStep(Run(Empty, evs), ev, id);
    if ev.LeaguePolled? {
      LeagueListedIsNeverFinished(Run(Empty, evs), ev, id);
    } else {
      TopListedIsNeverFinished(Run(Empty, evs), ev, id);
    }
  }

  lemma ListedStaysUp(seen: Option<Row>, feed: LiveFeed, threshold: nat, replayDelayMs: nat, now: int)
    requires seen.Some? && feed in seen.value.sources && CountOf(seen.value, feed) == 0 && threshold >= 1
    ensures !MissesFinish(seen, feed, true, true, threshold)
    ensures AfterMisses(seen, feed, true, true, threshold, replayDelayMs, now) == seen
  {
  }

  lemma FinishMeansOmitted(w: World, ev: Event, id: MatchId, feed: LiveFeed)
    requires ValidEvent(ev) && WorldInv(w) && Finishes(w, ev, id) && !Sights(ev, id) && id in w.rows
    requires feed in w.rows[id].sources
    ensures OmittedSinceListed(Step(w, ev).log, feed, id) >= ThresholdOf(ev)
  {
    if ev.LeaguePolled? {
      LeaguePollCounts(w, ev, id, feed);
    } else {
      TopPollCounts(w, ev, id, feed);
    }
  }

  lemma FinishEndsThePhase(w: World, ev: Event, id: MatchId)
    requires ValidEvent(ev) && Finishes(w, ev, id) && !Sights(ev, id)
    ensures id in w.rows && w.rows[id].status.Live? && HasLiveFeed(w.rows[id])
    ensures StepRow(w, ev, id).Some?
    ensures StepRow(w, ev, id).value.status == if w.rows[id].durationMax > 0.0 then AwaitingHistory else NotStarted
  {
  }

  /**
   * A finish is never premature: the poll did not list the match, and every live feed that ever
   * listed it has since omitted it in at least `threshold` non-empty responses.
   */
  lemma FinishedOnlyWhenOmitted(evs: seq<Event>, ev: Event, id: MatchId)
    requires ValidRun(evs) && ValidEvent(ev) && Finishes(Run(Empty, evs), ev, id)
    ensures !Sights(ev, id)
    ensures id in Run(Empty, evs).rows && Run(Empty, evs).rows[id].status.Live?
    ensures HasLiveFeed(Run(Empty, evs).rows[id])
    ensures forall feed: LiveFeed | feed in Run(Empty, evs).rows[id].sources ::
              OmittedSinceListed(Step(Run(Empty, evs), ev).log, feed, id) >= ThresholdOf(ev)
    ensures Lookup(Step(Run(Empty, evs), ev).rows, id).Some?
    ensures Step(Run(Empty, evs), ev).rows[id].status ==
              if Run(Empty, evs).rows[id].durationMax > 0.0 then AwaitingHistory else NotStarted
  {
    var w := Run(Empty, evs);
    RunKeepsWorld(evs);
    if Sights(ev, id) { ListedIsNeverFinished(evs, ev, id); }
    FinishEndsThePhase(w, ev, id);
    StepIsRowStep(w, ev, id);
    forall feed: LiveFeed | feed in w.rows[id].sources
      ensures OmittedSinceListed(Step(w, ev).log, feed, id) >= ThresholdOf(ev)
    {
      FinishMeansOmitted(w, ev, id, feed);
    }
  }

  // ---- and a finish always comes --------------------------------------------------------------

  /** Non-empty polls of `feed` in a stretch of events. */
  function PollsOf(evs: seq<Event>, feed: LiveFeed): nat {
    if evs == [] then 0
    else
      var last := evs[|evs| - 1];
      PollsOf(evs[..|evs| - 1], feed) +
      (if (feed.LiveLeague? && last.LeaguePolled? && last.games != map[])
          || (feed.TopLive? && last.TopPolled? && last.anyGames) then 1 else 0)
  }

  ghost predicate Unsighted(evs: seq<Event>, id: MatchId, threshold: nat) {
    forall i | 0 <= i < |evs| ::
      !Sights(evs[i], id) && (IsPoll(evs[i]) ==> ThresholdOf(evs[i]) <= threshold)
  }

  lemma OneEvent(ev: Event, feed: LiveFeed)
    ensures PollsOf([ev], feed) ==
              if (feed.LiveLeague? && ev.LeaguePolled? && ev.games != map[])
                 || (feed.TopLive? && ev.TopPolled? && ev.anyGames) then 1 else 0
  {
    assert PollsOf([ev][..0], feed) == 0;
  }

  /** A poll that omits a live row and leaves it live counts the miss, and the miss is not yet enough. */
  lemma OmittedStaysLive(row: Row, polled: LiveFeed, counts: bool, threshold: nat, replayDelayMs: nat, now: int,
                         feed: LiveFeed)
    requires row.status.Live?
    requires AfterMisses(Some(row), polled, false, counts, threshold, replayDelayMs, now).value.status.Live?
    ensures var r := AfterMisses(Some(row), polled, false, counts, threshold, replayDelayMs, now).value;
            && r.sources == row.sources && (counts ==> !FinishGuard(r, threshold))
            && (feed in row.sources ==>
                  CountOf(r, feed) == CountOf(row, feed) + if counts && feed == polled then 1 else 0)
  {
  }

  /** Any other writer leaves the feeds of a live row and their counters alone. */
  lemma QuietStepOfLive(id: MatchId, row: Row, digest: Option<Digest>, ev: Event, feed: LiveFeed)
    requires ValidEvent(ev) && row.status.Live? && !Sights(ev, id) && !IsPoll(ev)
    ensures RowStep(id, Some(row), digest, ev).Some?
    ensures feed in RowStep(id, Some(row), digest, ev).value.sources <==> feed in row.sources
    ensures CountOf(RowStep(id, Some(row), digest, ev).value, feed) == CountOf(row, feed)
  {
    if ev.HistoryPageListed? {
      ListingKeepsLiveFeeds(row, id, ev.listed, feed);
    }
  }

  /** One unsighted step of a row that stays live: counters follow the polls and stay short. */
  lemma UnsightedStep(w: World, ev: Event, id: MatchId, feed: LiveFeed)
    requires ValidEvent(ev) && WorldInv(w) && !Sights(ev, id)
    requires StepRow(w, ev, id).Some? && StepRow(w, ev, id).value.status.Live?
    ensures id in w.rows && w.rows[id].status.Live?
    ensures feed in StepRow(w, ev, id).value.sources <==> feed in w.rows[id].sources
    ensures feed in w.rows[id].sources ==>
              CountOf(StepRow(w, ev, id).value, feed) == CountOf(w.rows[id], feed) + PollsOf([ev], feed)
    ensures PollsOf([ev], LiveLeague) + PollsOf([ev], TopLive) > 0 ==>
              IsPoll(ev) && !FinishGuard(StepRow(w, ev, id).value, ThresholdOf(ev))
  {
    OnlySightingsResume(w, ev, id);
    OneEvent(ev, feed);
    OneEvent(ev, LiveLeague);
    OneEvent(ev, TopLive);
    if ev.LeaguePolled? {
      OmittedStaysLive(w.rows[id], LiveLeague, ev.games != map[], ev.threshold, ev.replayDelayMs, ev.now, feed);
    } else if ev.TopPolled? {
      OmittedStaysLive(w.rows[id], TopLive, ev.anyGames, ev.threshold, ev.replayDelayMs, ev.now, feed);
    } else {
      QuietStepOfLive(id, w.rows[id], DigestOf(w, WorkerOf(ev), id), ev, feed);
    }
  }

  lemma {:induction false} ListingKeepsLiveFeeds(row: Row, id: MatchId, listed: seq<HistoryRow>, feed: LiveFeed)
    ensures ListedRow(Some(row), id, listed).Some?
    ensures feed in ListedRow(Some(row), id, listed).value.sources <==> feed in row.sources
    ensures CountOf(ListedRow(Some(row), id, listed).value, feed) == CountOf(row, feed)
  {
    if listed != [] {
      ListingKeepsLiveFeeds(row, id, listed[..|listed| - 1], feed);
    }
  }

  /** How a row that stayed live through `evs` compares with the row it was. */
  ghost predicate Trails(r0: Row, r: Row, evs: seq<Event>, threshold: nat) {
    && (LiveLeague in r.sources <==> LiveLeague in r0.sources)
    && (TopLive in r.sources <==> TopLive in r0.sources)
    && (LiveLeague in r.sources ==> r.leagueMissed >= PollsOf(evs, LiveLeague))
    && (TopLive in r.sources ==> r.topMissed >= PollsOf(evs, TopLive))
    && (PollsOf(evs, LiveLeague) + PollsOf(evs, TopLive) > 0 ==> !FinishGuard(r, threshold))
  }

  lemma TrailsStep(w: World, ev: Event, id: MatchId, r0: Row, evs: seq<Event>, threshold: nat)
    requires ValidEvent(ev) && WorldInv(w) && !Sights(ev, id)
    requires IsPoll(ev) ==> ThresholdOf(ev) <= threshold
    requires StepRow(w, ev, id).Some? && StepRow(w, ev, id).value.status.Live?
    requires id in w.rows && Trails(r0, w.rows[id], evs, threshold)
    ensures Trails(r0, StepRow(w, ev, id).value, evs + [ev], threshold)
  {
    UnsightedStep(w, ev, id, LiveLeague);
    UnsightedStep(w, ev, id, TopLive);
    assert (evs + [ev])[..|evs|] == evs && [ev][..0] == [];
    assert PollsOf(evs + [ev], LiveLeague) == PollsOf(evs, LiveLeague) + PollsOf([ev], LiveLeague);
    assert PollsOf(evs + [ev], TopLive) == PollsOf(evs, TopLive) + PollsOf([ev], TopLive);
  }

  lemma {:induction false} StillLiveMeansShort(w: World, evs: seq<Event>, id: MatchId, threshold: nat)
    requires WorldInv(w) && ValidRun(evs) && Unsighted(evs, id, threshold)
    requires id in Run(w, evs).rows && Run(w, evs).rows[id].status.Live?
    ensures id in w.rows && Trails(w.rows[id], Run(w, evs).rows[id], evs, threshold)
  {
    if evs != [] {
      var before, last := evs[..|evs| - 1], evs[|evs| - 1];
      RunFromKeepsWorld(w, before);
      StepIsRowStep(Run(w, before), last, id);
      OnlySightingsResume(Run(w, before), last, id);
      StillLiveMeansShort(w, before, id, threshold);
      TrailsStep(Run(w, before), last, id, w.rows[id], before, threshold);
      assert before + [last] == evs;
    }
  }

  /**
   * The converse: after `before`, if no worker sights a live match again and every live feed that
   * listed it answers at least `threshold` more polls, the match is no longer live.
   */
  lemma OmittedLongEnoughIsFinished(before: seq<Event>, evs: seq<Event>, id: MatchId, threshold: nat)
    requires ValidRun(before) && ValidRun(evs) && Unsighted(evs, id, threshold) && threshold >= 1
    requires id in Run(Empty, before).rows && Run(Empty, before).rows[id].status.Live?
    requires forall feed: LiveFeed | feed in Run(Empty, before).rows[id].sources ::
               PollsOf(evs, feed) >= threshold
    ensures id in Run(Run(Empty, before), evs).rows
    ensures !Run(Run(Empty, before), evs).rows[id].status.Live?
  {
    var w := Run(Empty, before);
    RunKeepsWorld(before);
    RowsStay(w, evs, id);
    if Run(w, evs).rows[id].status.Live? {
      StillLiveMeansShort(w, evs, id, threshold);
    }
  }

  lemma {:induction false} RowsStay(w: World, evs: seq<Event>, id: MatchId)
    requires ValidRun(evs) && id in w.rows
    ensures id in Run(w, evs).rows
  {
    if evs != [] {
      var before, last := evs[..|evs| - 1], evs[|evs| - 1];
      RowsStay(w, before, id);
      StepIsRowStep(Run(w, before), last, id);
      RowStepKeepsSources(id, Lookup(Run(w, before).rows, id),
                          DigestOf(Run(w, before), WorkerOf(last), id), last);
    }
  }

  // ---- records and pages in runs -----------------------------------------------------------------

  /** In every reachable state, ready details are not demoted by a record saved by sequence number. */
  lemma SequenceSaveKeepsDetails(evs: seq<Event>, id: MatchId, facts: Facts, mustExist: bool, now: int)
    requires ValidRun(evs) && id in Run(Empty, evs).rows && Run(Empty, evs).rows[id].status.DetailsReady?
    ensures var w := Step(Run(Empty, evs), RecordPersisted(id, facts, BySeq, mustExist, now));
            id in w.rows && w.rows[id].status.DetailsReady? && w.rows[id].seqFetchedAt.Some?
  {
    RunKeepsWorld(evs);
    StepIsRowStep(Run(Empty, evs), RecordPersisted(id, facts, BySeq, mustExist, now), id);
  }

  /** The number of the last entry of a page that names the match. */
  function LastNumber(listed: seq<HistoryRow>, id: MatchId): Option<int> {
    if listed == [] then None
    else if listed[|listed| - 1].matchId == id then Some(listed[|listed| - 1].matchSeqNum)
    else LastNumber(listed[..|listed| - 1], id)
  }

  /** However often a page names a match, the row is as if only its last entry did. */
  lemma {:induction false} PageIsItsLastEntry(row: Option<Row>, id: MatchId, listed: seq<HistoryRow>)
    ensures ListedRow(row, id, listed) ==
              if LastNumber(listed, id).None? then row
              else Some(HistoryListed(row, LastNumber(listed, id).value))
  {
    if listed != [] {
      PageIsItsLastEntry(row, id, listed[..|listed| - 1]);
    }
  }

  /** Listing a page again changes no row. */
  lemma ListingAPageTwice(row: Option<Row>, id: MatchId, listed: seq<HistoryRow>)
    ensures ListedRow(ListedRow(row, id, listed), id, listed) == ListedRow(row, id, listed)
  {
    PageIsItsLastEntry(row, id, listed);
    PageIsItsLastEntry(ListedRow(row, id, listed), id, listed);
  }

  // ---- parsed is final ------------------------------------------------------------------------

  lemma {:induction false} ListingKeepsParsed(row: Row, id: MatchId, listed: seq<HistoryRow>)
    requires row.status.Parsed?
    ensures ListedRow(Some(row), id, listed).Some? && ListedRow(Some(row), id, listed).value.status.Parsed?
  {
    if listed != [] {
      ListingKeepsParsed(row, id, listed[..|listed| - 1]);
    }
  }

  lemma ParsedStep(id: MatchId, row: Row, digest: Option<Digest>, ev: Event)
    requires ValidEvent(ev) && row.status.Parsed?
    ensures RowStep(id, Some(row), digest, ev).Some? && RowStep(id, Some(row), digest, ev).value.status.Parsed?
  {
    if ev.HistoryPageListed? {
      ListingKeepsParsed(row, id, ev.listed);
    }
  }

  /** No writer moves a parsed match, whatever happens afterwards. */
  lemma {:induction false} ParsedIsFinal(w: World, evs: seq<Event>, id: MatchId)
    requires ValidRun(evs) && id in w.rows && w.rows[id].status.Parsed?
    ensures id in Run(w, evs).rows && Run(w, evs).rows[id].status.Parsed?
  {
    if evs != [] {
      var mid, last := Run(w, evs[..|evs| - 1]), evs[|evs| - 1];
      ParsedIsFinal(w, evs[..|evs| - 1], id);
      StepIsRowStep(mid, last, id);
      ParsedStep(id, mid.rows[id], DigestOf(mid, WorkerOf(last), id), last);
    }
  }
}
