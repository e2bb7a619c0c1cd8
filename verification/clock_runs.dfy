/**
 * The game clock over whole runs (noteLiveClock of packages/shared/src/store/matches.ts, called by
 * packages/shared/src/jobs/poll-live.ts and poll-realtime-stats.ts), and what it decides: whether a
 * finished match was played.
 */
module ClockRuns {
  import opened Wrappers
  import opened MatchPhase
  import opened MatchRow
  import opened MatchStore
  import opened LivePolls
  import opened MatchRuns

  /** What an event reads off the clock of `id`. */
  function Reading(ev: Event, id: MatchId): Option<real> {
    match ev
    case LeaguePolled(_, games, _, _, _) => if id in games then Some(games[id].duration) else None
    case RealtimeSeen(k, gameTime, _) => if k == id then Some(gameTime) else None
    case _ => None
  }

  /** The longest positive reading, or 0. */
  function Longest(evs: seq<Event>, id: MatchId): (d: real)
    ensures d >= 0.0
    ensures forall i | 0 <= i < |evs| && Reading(evs[i], id).Some? :: Reading(evs[i], id).value <= d
    ensures d == 0.0 || exists i :: 0 <= i < |evs| && Reading(evs[i], id) == Some(d)
  {
    if evs == [] then 0.0
    else
      var before, last := evs[..|evs| - 1], evs[|evs| - 1];
      var d := Longest(before, id);
      assert forall i | 0 <= i < |before| :: before[i] == evs[i];
      if Reading(last, id).Some? && Reading(last, id).value > d then Reading(last, id).value else d
  }

  lemma AfterMissesKeepsClock(row: Option<Row>, feed: LiveFeed, listed: bool, counts: bool,
                              threshold: nat, replayDelayMs: nat, now: int)
    ensures ClockOf(AfterMisses(row, feed, listed, counts, threshold, replayDelayMs, now)) == ClockOf(row)
  {
  }

  lemma SightingClock(row: Option<Row>, feed: LiveFeed, now: int)
    ensures Touched(row, feed, now).durationMax == ClockOf(row)
    ensures row.Some? ==> LiveSightingResume(row.value, feed, now).durationMax == ClockOf(row)
  {
  }

  lemma {:induction false} ListingKeepsClock(row: Option<Row>, id: MatchId, listed: seq<HistoryRow>)
    ensures ClockOf(ListedRow(row, id, listed)) == ClockOf(row)
  {
    if listed != [] {
      ListingKeepsClock(row, id, listed[..|listed| - 1]);
    }
  }

  lemma PersistKeepsClock(row: Option<Row>, facts: Facts, fetched: Fetched, mustExist: bool, now: int)
    ensures ClockOf(Persisted(row, facts, fetched, mustExist, now)) == ClockOf(row)
  {
  }

  /** A listed match that has no row yet gets one, unless a worker remembers a match nobody stored. */
  lemma ReadingInserts(w: World, ev: Event, id: MatchId)
    requires ValidEvent(ev) && WorldInv(w) && Reading(ev, id).Some?
    ensures StepRow(w, ev, id).Some?
  {
    if ev.LeaguePolled? && DigestOf(w, ev.worker, id).Some? {
      assert id in w.rows;
    }
  }

  /** One step moves the clock exactly to a longer reading. */
  lemma StepMovesClock(w: World, ev: Event, id: MatchId)
    requires ValidEvent(ev) && WorldInv(w) && ClockOf(Lookup(w.rows, id)) >= 0.0
    ensures ClockOf(StepRow(w, ev, id)) ==
              if Reading(ev, id).Some? && Reading(ev, id).value > ClockOf(Lookup(w.rows, id))
              then Reading(ev, id).value else ClockOf(Lookup(w.rows, id))
  {
    var row := Lookup(w.rows, id);
    match ev
    case LeaguePolled(worker, games, threshold, delay, now) =>
      SightingClock(row, LiveLeague, now);
      if Reading(ev, id).Some? { ReadingInserts(w, ev, id); }
      AfterMissesKeepsClock(LeagueSightings(row, DigestOf(w, worker, id), id, games, now), LiveLeague, id in games,
                            games != map[], threshold, delay, now);
    case TopPolled(seen, anyGames, threshold, delay, now) =>
      SightingClock(row, TopLive, now);
      AfterMissesKeepsClock(TopSightings(row, id, seen, now), TopLive, id in seen, anyGames, threshold, delay, now);
    case RealtimeSeen(_, _, now) => SightingClock(row, TopLive, now);
    case HistoryPageListed(listed) => ListingKeepsClock(row, id, listed);
    case RecordPersisted(_, facts, fetched, mustExist, now) => PersistKeepsClock(row, facts, fetched, mustExist, now);
    case _ =>
  }

  /** In every reachable state the clock column is the longest reading there was, and 0 if there was none. */
  lemma {:induction false} ClockIsLongestReading(evs: seq<Event>, id: MatchId)
    requires ValidRun(evs)
    ensures ClockOf(Lookup(Run(Empty, evs).rows, id)) == Longest(evs, id)
  {
    if evs != [] {
      var before, last := evs[..|evs| - 1], evs[|evs| - 1];
      ClockIsLongestReading(before, id);
      RunKeepsWorld(before);
      StepIsRowStep(Run(Empty, before), last, id);
      StepMovesClock(Run(Empty, before), last, id);
    }
  }

  /**
   * A match that a poll finishes awaits history, polled at once, exactly when some listing or
   * realtime reading before showed its clock running; otherwise it never started.
   */
  lemma FinishedAwaitsHistoryIffPlayed(evs: seq<Event>, ev: Event, id: MatchId)
    requires ValidRun(evs) && ValidEvent(ev) && Finishes(Run(Empty, evs), ev, id)
    ensures Lookup(Step(Run(Empty, evs), ev).rows, id).Some?
    ensures var r := Step(Run(Empty, evs), ev).rows[id];
            var played := exists i :: 0 <= i < |evs| && Reading(evs[i], id).Some? && Reading(evs[i], id).value > 0.0;
            && r.status == (if played then AwaitingHistory else NotStarted)
            && r.historyNextPollAt == (if played then Some(ev.now) else None)
            && (played ==> r.durationMax == Longest(evs, id))
  {
    FinishedOnlyWhenOmitted(evs, ev, id);
    ClockIsLongestReading(evs, id);
    StepIsRowStep(Run(Empty, evs), ev, id);
    RunKeepsWorld(evs);
    ClockIsLongestReading(evs + [ev], id);
    assert (evs + [ev])[..|evs|] == evs;
    FinishArms(Run(Empty, evs), ev, id);
  }

  lemma FinishArms(w: World, ev: Event, id: MatchId)
    requires ValidEvent(ev) && Finishes(w, ev, id) && !Sights(ev, id)
    ensures StepRow(w, ev, id).Some? && id in w.rows
    ensures StepRow(w, ev, id).value.historyNextPollAt == if w.rows[id].durationMax > 0.0 then Some(ev.now) else None
    ensures StepRow(w, ev, id).value.durationMax == w.rows[id].durationMax
  {
  }
}
