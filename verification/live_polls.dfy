/**
 * The two live-feed polls (packages/shared/src/jobs/poll-live.ts, poll-top-live.ts) and the
 * realtime sighting (poll-realtime-stats.ts): one transaction that records sightings, then
 * misses, then finishes. What a poll does to a row depends on that row alone; the loops are
 * proved against that.
 */
module LivePolls {
  import opened Wrappers
  import opened MatchPhase
  import opened MatchRow
  import opened MatchStore
  import opened RowEffects

  /** SHA-1 of a listed game's score, series and players, as text. */
  type Digest = string

  datatype Game = Game(matchId: MatchId, digest: Digest, duration: real)

  /** `new Map(games.map(...))`: the last entry of an id wins. */
  function ById(games: seq<Game>): map<MatchId, Game> {
    if games == [] then map[]
    else ById(games[..|games| - 1])[games[|games| - 1].matchId := games[|games| - 1]]
  }

  /** A listed game: resume in place when its digest is the remembered one, touch otherwise. */
  function LeagueSighted(row: Option<Row>, digest: Option<Digest>, g: Game, now: int): Option<Row> {
    if digest == Some(g.digest) then
      match row
      case None => None
      case Some(r) => Some(Clocked(LiveSightingResume(r, LiveLeague, now), g.duration))
    else Some(Clocked(Touched(row, LiveLeague, now), g.duration))
  }

  /** The end of a poll on one row: count a miss, then finish. A poll of nothing does neither. */
  function AfterMisses(row: Option<Row>, feed: LiveFeed, listed: bool, counts: bool,
                       threshold: nat, replayDelayMs: nat, now: int): Option<Row>
  {
    if row.None? || !counts then row
    else Some(Finished(Missed(row.value, feed, listed), threshold, replayDelayMs, now))
  }

  predicate MissesFinish(row: Option<Row>, feed: LiveFeed, listed: bool, counts: bool, threshold: nat) {
    row.Some? && counts && FinishGuard(Missed(row.value, feed, listed), threshold)
  }

  function LeagueSightings(row: Option<Row>, digest: Option<Digest>, id: MatchId,
                           games: map<MatchId, Game>, now: int): Option<Row>
  {
    if id in games then LeagueSighted(row, digest, games[id], now) else row
  }

  /** A row after a league poll that returned `games`. */
  function LeaguePollRow(row: Option<Row>, digest: Option<Digest>, id: MatchId, games: map<MatchId, Game>,
                         threshold: nat, replayDelayMs: nat, now: int): Option<Row>
  {
    AfterMisses(LeagueSightings(row, digest, id, games, now), LiveLeague, id in games, games != map[],
                threshold, replayDelayMs, now)
  }

  /** Whether that poll finishes the row. */
  predicate LeaguePollFinishes(row: Option<Row>, digest: Option<Digest>, id: MatchId,
                               games: map<MatchId, Game>, threshold: nat, now: int)
  {
    MissesFinish(LeagueSightings(row, digest, id, games, now), LiveLeague, id in games, games != map[],
                 threshold)
  }

  function TopSightings(row: Option<Row>, id: MatchId, listed: set<MatchId>, now: int): Option<Row> {
    if id in listed then Some(Touched(row, TopLive, now)) else row
  }

  /** A row after a top-live poll; `anyGames` is false when the feed returned nothing at all. */
  function TopPollRow(row: Option<Row>, id: MatchId, listed: set<MatchId>, anyGames: bool,
                      threshold: nat, replayDelayMs: nat, now: int): Option<Row>
  {
    AfterMisses(TopSightings(row, id, listed, now), TopLive, id in listed, anyGames,
                threshold, replayDelayMs, now)
  }

  predicate TopPollFinishes(row: Option<Row>, id: MatchId, listed: set<MatchId>, anyGames: bool,
                            threshold: nat, now: int)
  {
    MissesFinish(TopSightings(row, id, listed, now), TopLive, id in listed, anyGames, threshold)
  }

  /** A row after poll-realtime-stats wrote it: a top-live touch and the game clock. */
  function RealtimeRow(row: Option<Row>, gameTime: real, now: int): Row {
    Clocked(Touched(row, TopLive, now), gameTime)
  }

  /** The entry of a response that counts for its match: no later one has the same id. */
  ghost predicate LastEntry(games: seq<Game>, i: nat)
    requires i < |games|
  {
    forall j | i < j < |games| :: games[j].matchId != games[i].matchId
  }

  predicate Lists(games: seq<Game>, id: MatchId) { exists i :: 0 <= i < |games| && games[i].matchId == id }

  lemma ListsSnoc(games: seq<Game>, id: MatchId)
    requires games != []
    ensures Lists(games, id) <==> Lists(games[..|games| - 1], id) || games[|games| - 1].matchId == id
  {
    var init := games[..|games| - 1];
    if Lists(init, id) {
      var i :| 0 <= i < |init| && init[i].matchId == id;
      assert games[i] == init[i];
    }
    if Lists(games, id) && games[|games| - 1].matchId != id {
      var i :| 0 <= i < |games| && games[i].matchId == id;
      assert init[i] == games[i];
    }
  }

  lemma {:induction false} ByIdLists(games: seq<Game>, id: MatchId)
    ensures id in ById(games) <==> Lists(games, id)
  {
    if games != [] {
      ByIdLists(games[..|games| - 1], id);
      ListsSnoc(games, id);
    }
  }

  /** Of several entries of one match the last one counts. */
  lemma {:induction false} ByIdIsLastEntry(games: seq<Game>, i: nat)
    requires i < |games| && LastEntry(games, i)
    ensures games[i].matchId in ById(games) && ById(games)[games[i].matchId] == games[i]
  {
    var n := |games| - 1;
    if i < n {
      assert games[n].matchId != games[i].matchId;
      assert LastEntry(games[..n], i);
      ByIdIsLastEntry(games[..n], i);
    }
  }

  lemma SomeAreListed(games: seq<Game>)
    ensures ById(games) != map[] <==> games != []
  {
    if games != [] {
      assert games[|games| - 1].matchId in ById(games);
    }
  }

  /** The clock column before a poll: 0 for a match that has no row. */
  function ClockBefore(rows: Table, id: MatchId): real { if id in rows then rows[id].durationMax else 0.0 }

  /**
   * A listed match has a row, unless its digest is remembered of a row that is gone; its clock is the
   * larger of what it was and a positive listed duration. An unlisted one is neither inserted nor moved.
   */
  ghost predicate ClocksNoted(before: Table, hashes: map<MatchId, Digest>, after: Table, games: seq<Game>) {
    && (forall i | 0 <= i < |games| && LastEntry(games, i) ::
          var g := games[i];
          && (g.matchId in after <==> g.matchId in before || Lookup(hashes, g.matchId) != Some(g.digest))
          && (g.matchId in after ==>
                LargerClock(ClockBefore(before, g.matchId), g.duration, after[g.matchId].durationMax)))
    && (forall id | !Lists(games, id) ::
          && (id in after <==> id in before)
          && (id in after ==> after[id].durationMax == before[id].durationMax))
  }

  /** `after` is the larger of `was` and a positive duration. */
  predicate LargerClock(was: real, duration: real, after: real) {
    after == if duration > 0.0 && duration > was then duration else was
  }

  lemma LeaguePollClock(row: Option<Row>, digest: Option<Digest>, id: MatchId, games: map<MatchId, Game>,
                        threshold: nat, replayDelayMs: nat, now: int)
    ensures var after := LeaguePollRow(row, digest, id, games, threshold, replayDelayMs, now);
            if id in games then
              && (after.Some? <==> row.Some? || digest != Some(games[id].digest))
              && (after.Some? ==> LargerClock(if row.Some? then row.value.durationMax else 0.0, games[id].duration,
                                              after.value.durationMax))
            else
              && (after.Some? <==> row.Some?)
              && (after.Some? ==> after.value.durationMax == row.value.durationMax)
  {
  }

  lemma PollNotesClocks(before: Table, hashes: map<MatchId, Digest>, after: Table, games: seq<Game>,
                        threshold: nat, replayDelayMs: nat, now: int)
    requires forall id :: Lookup(after, id) ==
               LeaguePollRow(Lookup(before, id), Lookup(hashes, id), id, ById(games), threshold, replayDelayMs, now)
    ensures ClocksNoted(before, hashes, after, games)
  {
    forall i | 0 <= i < |games| && LastEntry(games, i)
      ensures var g := games[i];
              && (g.matchId in after <==> g.matchId in before || Lookup(hashes, g.matchId) != Some(g.digest))
              && (g.matchId in after ==>
                    LargerClock(ClockBefore(before, g.matchId), g.duration, after[g.matchId].durationMax))
    {
      var id := games[i].matchId;
      ByIdIsLastEntry(games, i);
      LeaguePollClock(Lookup(before, id), Lookup(hashes, id), id, ById(games), threshold, replayDelayMs, now);
      assert Lookup(after, id).Some? <==> id in after;
    }
    forall id | !Lists(games, id)
      ensures (id in after <==> id in before) && (id in after ==> after[id].durationMax == before[id].durationMax)
    {
      ByIdLists(games, id);
      LeaguePollClock(Lookup(before, id), Lookup(hashes, id), id, ById(games), threshold, replayDelayMs, now);
      assert Lookup(after, id).Some? <==> id in after;
    }
  }

  /** Every listed game but those still to do has been sighted, and its digest remembered. */
  ghost predicate Recorded(rows0: Table, hashes0: map<MatchId, Digest>, rows: Table, hashes: map<MatchId, Digest>,
                           byId: map<MatchId, Game>, todo: set<MatchId>, now: int)
  {
    && (forall id :: Lookup(rows, id) ==
          if id in todo then Lookup(rows0, id)
          else LeagueSightings(Lookup(rows0, id), Lookup(hashes0, id), id, byId, now))
    && (forall id :: Lookup(hashes, id) ==
          if id in byId && id !in todo then Some(byId[id].digest) else Lookup(hashes0, id))
  }

  lemma RecordedStep(rows0: Table, hashes0: map<MatchId, Digest>, rows: Table, hashes: map<MatchId, Digest>,
                     rows': Table, hashes': map<MatchId, Digest>,
                     byId: map<MatchId, Game>, todo: set<MatchId>, id: MatchId, now: int)
    requires Recorded(rows0, hashes0, rows, hashes, byId, todo, now) && id in todo && todo <= byId.Keys
    requires forall k :: Lookup(rows', k) ==
               if k == id then LeagueSighted(Lookup(rows, id), Lookup(hashes, id), byId[id], now) else Lookup(rows, k)
    requires hashes' == hashes[id := byId[id].digest]
    ensures Recorded(rows0, hashes0, rows', hashes', byId, todo - {id}, now)
  {
    assert Lookup(hashes, id) == Lookup(hashes0, id) && Lookup(rows, id) == Lookup(rows0, id);
    forall k ensures Lookup(hashes', k) ==
                       if k in byId && k !in todo - {id} then Some(byId[k].digest) else Lookup(hashes0, k)
    {
      assert k != id ==> Lookup(hashes', k) == Lookup(hashes, k);
    }
  }

  // ---- what a poll promises, by relations ------------------------------------------------------

  function ClockOf(row: Option<Row>): real { if row.Some? then row.value.durationMax else 0.0 }

  /**
   * A listed game: touched when its digest is new, so that it has a row; else only a row that is
   * there is resumed. Either way the clock takes a longer positive duration.
   */
  ghost predicate ListedBy(before: Option<Row>, digest: Option<Digest>, g: Game, after: Option<Row>, now: int) {
    var changed := digest != Some(g.digest);
    && (after.Some? <==> before.Some? || changed)
    && (after.Some? ==>
          var stopped := after.value.(durationMax := ClockOf(before));
          && LargerClock(ClockOf(before), g.duration, after.value.durationMax)
          && (changed ==> Sighted(before, stopped, LiveLeague, now))
          && (!changed ==> Resumed(before.value, stopped, LiveLeague, now)
                           && stopped.sources == before.value.sources && stopped.fromLive == before.value.fromLive))
  }

  /** The end of a poll: one miss at most, and then a finish exactly if every known feed has given up. */
  ghost predicate PollEnds(seen: Option<Row>, feed: LiveFeed, listed: bool, counts: bool, after: Option<Row>,
                           finished: bool, threshold: nat, replayDelayMs: nat, now: int)
  {
    if seen.None? || !counts then after == seen && !finished
    else
      var r := seen.value;
      var miss := if r.status.Live? && feed in r.sources && !listed then 1 else 0;
      var missed := if feed.LiveLeague? then r.(leagueMissed := r.leagueMissed + miss)
                    else r.(topMissed := r.topMissed + miss);
      && after.Some? && (finished <==> Done(missed, threshold))
      && (if finished then FinishNoted(missed, after.value, replayDelayMs, now) else after.value == missed)
  }

  lemma LeagueSightedIsListed(row: Option<Row>, digest: Option<Digest>, g: Game, now: int)
    ensures ListedBy(row, digest, g, LeagueSighted(row, digest, g, now), now)
  {
    if digest == Some(g.digest) {
      if row.Some? { SightingResumes(row.value, LiveLeague, now); }
    } else {
      TouchSights(row, LiveLeague, now);
      assert Touched(row, LiveLeague, now).durationMax == ClockOf(row);
    }
  }

  lemma AfterMissesIsPollEnd(seen: Option<Row>, feed: LiveFeed, listed: bool, counts: bool,
                             threshold: nat, replayDelayMs: nat, now: int)
    ensures PollEnds(seen, feed, listed, counts, AfterMisses(seen, feed, listed, counts, threshold, replayDelayMs, now),
                     MissesFinish(seen, feed, listed, counts, threshold), threshold, replayDelayMs, now)
  {
    if seen.Some? && counts {
      MissCounts(seen.value, feed, listed);
      FinishIsNoted(Missed(seen.value, feed, listed), threshold, replayDelayMs, now);
    }
  }

  class LeaguePoller {
    const store: Matches
    var hashes: map<MatchId, Digest>

    constructor (store: Matches)
      ensures this.store == store && hashes == map[]
    {
      this.store := store;
      hashes := map[];
    }

    method RunPollLiveGames(games: seq<Game>, threshold: nat, replayDelayMs: nat, now: int)
      returns (finished: set<MatchId>, ghost sighted: Table)
      modifies this, store
      ensures forall id ::
                if id in ById(games) then
                  ListedBy(Lookup(old(store.rows), id), Lookup(old(hashes), id), ById(games)[id],
                           Lookup(sighted, id), now)
                else Lookup(sighted, id) == Lookup(old(store.rows), id)
      ensures forall id ::
                PollEnds(Lookup(sighted, id), LiveLeague, id in ById(games), games != [], Lookup(store.rows, id),
                         id in finished, threshold, replayDelayMs, now)
      ensures forall id :: Lookup(store.rows, id) ==
                LeaguePollRow(Lookup(old(store.rows), id), Lookup(old(hashes), id), id, ById(games),
                              threshold, replayDelayMs, now)
      ensures forall id :: id in finished <==>
                LeaguePollFinishes(Lookup(old(store.rows), id), Lookup(old(hashes), id), id, ById(games),
                                   threshold, now)
      ensures forall id :: Lookup(hashes, id) ==
                if id in finished then None
                else if id in ById(games) then Some(ById(games)[id].digest)
                else Lookup(old(hashes), id)
      ensures ClocksNoted(old(store.rows), old(hashes), store.rows, games)
    {
      var byId := IndexGames(games);
      RecordSightings(byId, now);
      sighted := store.rows;
      finished := CountMisses(byId.Keys, threshold, replayDelayMs, now);
      SomeAreListed(games);
      PollNotesClocks(old(store.rows), old(hashes), store.rows, games, threshold, replayDelayMs, now);
    }

    method IndexGames(games: seq<Game>) returns (byId: map<MatchId, Game>)
      ensures byId == ById(games)
    {
      byId := map[];
      for i := 0 to |games|
        invariant byId == ById(games[..i])
      {
        assert games[..i + 1][..i] == games[..i];
        byId := byId[games[i].matchId := games[i]];
      }
      assert games[..|games|] == games;
    }

    /** The loop over the listed games. */
    method RecordSightings(byId: map<MatchId, Game>, now: int)
      modifies this, store
      ensures forall id ::
                if id in byId then
                  ListedBy(Lookup(old(store.rows), id), Lookup(old(hashes), id), byId[id], Lookup(store.rows, id), now)
                else Lookup(store.rows, id) == Lookup(old(store.rows), id)
      ensures forall id :: Lookup(store.rows, id) ==
                LeagueSightings(Lookup(old(store.rows), id), Lookup(old(hashes), id), id, byId, now)
      ensures forall id :: Lookup(hashes, id) ==
                if id in byId then Some(byId[id].digest) else Lookup(old(hashes), id)
    {
      var todo := byId.Keys;
      while todo != {}
        invariant todo <= byId.Keys
        invariant Recorded(old(store.rows), old(hashes), store.rows, hashes, byId, todo, now)
        decreases todo
      {
        var id := PickOne(todo);
        ghost var rows, known := store.rows, hashes;
        RecordSighting(id, byId[id], now);
        RecordedStep(old(store.rows), old(hashes), rows, known, store.rows, hashes, byId, todo, id, now);
        todo := todo - {id};
      }
      forall id | id in byId
        ensures ListedBy(Lookup(old(store.rows), id), Lookup(old(hashes), id), byId[id], Lookup(store.rows, id), now)
      {
        LeagueSightedIsListed(Lookup(old(store.rows), id), Lookup(old(hashes), id), byId[id], now);
      }
    }

    /** One listed game inside the poll's transaction. */
    method RecordSighting(id: MatchId, game: Game, now: int)
      modifies this, store
      ensures forall k :: Lookup(store.rows, k) ==
                if k == id then LeagueSighted(Lookup(old(store.rows), id), Lookup(old(hashes), id), game, now)
                else Lookup(old(store.rows), k)
      ensures hashes == old(hashes)[id := game.digest]
    {
      var changed := Lookup(hashes, id) != Some(game.digest);
      if !changed {
        store.NoteLiveFeedSeen(id, LiveLeague, now);
      } else {
        store.TouchMatchLive(id, LiveLeague, now);
        hashes := hashes[id := game.digest];
      }
      store.NoteLiveClock(id, game.duration);
    }

    /** The end of the transaction: an empty list counts no miss and finishes nothing. */
    method CountMisses(currentIds: set<MatchId>, threshold: nat, replayDelayMs: nat, now: int)
      returns (finished: set<MatchId>)
      modifies this, store
      ensures forall id ::
                PollEnds(Lookup(old(store.rows), id), LiveLeague, id in currentIds, currentIds != {},
                         Lookup(store.rows, id), id in finished, threshold, replayDelayMs, now)
      ensures forall id :: Lookup(store.rows, id) ==
                AfterMisses(Lookup(old(store.rows), id), LiveLeague, id in currentIds, currentIds != {},
                            threshold, replayDelayMs, now)
      ensures forall id :: id in finished <==>
                MissesFinish(Lookup(old(store.rows), id), LiveLeague, id in currentIds, currentIds != {},
                             threshold)
      ensures hashes == old(hashes) - finished
    {
      forall id
        ensures PollEnds(Lookup(store.rows, id), LiveLeague, id in currentIds, currentIds != {},
                         AfterMisses(Lookup(store.rows, id), LiveLeague, id in currentIds, currentIds != {}, threshold,
                                     replayDelayMs, now),
                         MissesFinish(Lookup(store.rows, id), LiveLeague, id in currentIds, currentIds != {},
                                      threshold),
                         threshold, replayDelayMs, now)
      {
        AfterMissesIsPollEnd(Lookup(store.rows, id), LiveLeague, id in currentIds, currentIds != {}, threshold,
                             replayDelayMs, now);
      }
      finished := {};
      var suspectEmptyTick := currentIds == {};
      if !suspectEmptyTick {
        store.NoteLiveFeedMisses(LiveLeague, currentIds);
        finished := store.FinishMissingLiveMatches(threshold, replayDelayMs, now);
        hashes := hashes - finished;
      }
    }
  }

  /** An entry of the top-live feed: its id as a 64-bit integer, if it is one. */
  datatype TopGame = TopGame(matchId: Option<int>, leagueId: int)

  /** Only matches of a league are followed. */
  function ProTopLiveMatchId(g: TopGame): (id: Option<MatchId>)
    ensures id.Some? ==> id.value > 0 && g.leagueId > 0
  {
    if g.matchId.None? || g.matchId.value <= 0 || g.leagueId <= 0 then None else g.matchId
  }

  /** The ids a response lists, in order and possibly repeated. */
  function SeenIds(games: seq<TopGame>): seq<MatchId> {
    if games == [] then []
    else
      var before, id := SeenIds(games[..|games| - 1]), ProTopLiveMatchId(games[|games| - 1]);
      if id.None? then before else before + [id.value]
  }

  /** The loop over the response: a game without a league is passed over. */
  method TouchListed(store: Matches, games: seq<TopGame>, now: int) returns (seen: seq<MatchId>)
    modifies store
    ensures seen == SeenIds(games)
    ensures forall id :: Lookup(store.rows, id) == TopSightings(Lookup(old(store.rows), id), id, IdSet(seen), now)
  {
    seen := [];
    for i := 0 to |games|
      invariant seen == SeenIds(games[..i])
      invariant forall id :: Lookup(store.rows, id) == TopSightings(Lookup(old(store.rows), id), id, IdSet(seen), now)
    {
      assert games[..i + 1][..i] == games[..i];
      var matchId := ProTopLiveMatchId(games[i]);
      if matchId.None? { continue; }
      ghost var before := store.rows;
      store.TouchMatchLive(matchId.value, TopLive, now);
      TouchTwice(Lookup(old(store.rows), matchId.value), TopLive, now);
      assert forall id :: Lookup(store.rows, id) ==
               if id == matchId.value then Some(Touched(Lookup(before, id), TopLive, now)) else Lookup(before, id);
      assert forall id :: id in IdSet(seen + [matchId.value]) <==> id in IdSet(seen) || id == matchId.value;
      seen := seen + [matchId.value];
    }
    assert games[..|games|] == games;
  }

  function IdSet(ids: seq<MatchId>): set<MatchId> { set k | k in ids }

  /** The end of the transaction: a response without games counts no miss and finishes nothing. */
  method CountTopMisses(store: Matches, seen: set<MatchId>, anyGames: bool, threshold: nat, replayDelayMs: nat,
                        now: int)
    returns (finished: set<MatchId>)
    modifies store
    ensures forall id :: Lookup(store.rows, id) ==
              AfterMisses(Lookup(old(store.rows), id), TopLive, id in seen, anyGames, threshold, replayDelayMs, now)
    ensures forall id :: id in finished <==>
              MissesFinish(Lookup(old(store.rows), id), TopLive, id in seen, anyGames, threshold)
  {
    finished := {};
    if anyGames {
      store.NoteLiveFeedMisses(TopLive, seen);
      finished := store.FinishMissingLiveMatches(threshold, replayDelayMs, now);
    }
  }

  method RunPollTopLive(store: Matches, games: seq<TopGame>, threshold: nat, replayDelayMs: nat, now: int)
    returns (finished: set<MatchId>, ghost sighted: Table)
    modifies store
    ensures forall id ::
              if id in SeenIds(games) then
                id in sighted && Sighted(Lookup(old(store.rows), id), sighted[id], TopLive, now)
              else Lookup(sighted, id) == Lookup(old(store.rows), id)
    ensures forall id ::
              PollEnds(Lookup(sighted, id), TopLive, id in SeenIds(games), games != [], Lookup(store.rows, id),
                       id in finished, threshold, replayDelayMs, now)
    ensures forall id :: Lookup(store.rows, id) ==
              TopPollRow(Lookup(old(store.rows), id), id, IdSet(SeenIds(games)), games != [],
                         threshold, replayDelayMs, now)
    ensures forall id :: id in finished <==>
              TopPollFinishes(Lookup(old(store.rows), id), id, IdSet(SeenIds(games)), games != [], threshold, now)
  {
    finished := {};
    var seen := TouchListed(store, games, now);
    sighted := store.rows;
    forall id | id in seen
      ensures Sighted(Lookup(old(store.rows), id), Touched(Lookup(old(store.rows), id), TopLive, now), TopLive, now)
    {
      TouchSights(Lookup(old(store.rows), id), TopLive, now);
    }
    forall id
      ensures PollEnds(Lookup(sighted, id), TopLive, id in IdSet(seen), games != [],
                       AfterMisses(Lookup(sighted, id), TopLive, id in IdSet(seen), games != [], threshold,
                                   replayDelayMs, now),
                       MissesFinish(Lookup(sighted, id), TopLive, id in IdSet(seen), games != [], threshold),
                       threshold, replayDelayMs, now)
    {
      AfterMissesIsPollEnd(Lookup(sighted, id), TopLive, id in IdSet(seen), games != [], threshold, replayDelayMs, now);
    }
    if |seen| > 0 || |games| > 0 {
      finished := CountTopMisses(store, IdSet(seen), |games| > 0, threshold, replayDelayMs, now);
    }
  }

  /** The ids followed are exactly the positive ids that the response lists under a league. */
  lemma {:induction false} SeenComesFromGames(games: seq<TopGame>)
    ensures forall id :: id in SeenIds(games) <==> Followed(games, id)
    ensures SeenIds(games) != [] ==> games != []
  {
    if games != [] {
      var n := |games| - 1;
      var before := games[..n];
      SeenComesFromGames(before);
      forall id ensures id in SeenIds(games) <==> Followed(games, id) {
        SeenSnoc(games, id);
        FollowedSnoc(games, id);
      }
    }
  }

  predicate Followed(games: seq<TopGame>, id: MatchId) {
    id > 0 && exists i :: 0 <= i < |games| && games[i].matchId == Some(id) && games[i].leagueId > 0
  }

  lemma SeenSnoc(games: seq<TopGame>, id: MatchId)
    requires games != []
    ensures id in SeenIds(games) <==>
              id in SeenIds(games[..|games| - 1]) || ProTopLiveMatchId(games[|games| - 1]) == Some(id)
  {
  }

  lemma FollowedSnoc(games: seq<TopGame>, id: MatchId)
    requires games != []
    ensures Followed(games, id) <==>
              || Followed(games[..|games| - 1], id)
              || (id > 0 && games[|games| - 1].matchId == Some(id) && games[|games| - 1].leagueId > 0)
  {
    var init := games[..|games| - 1];
    if Followed(init, id) {
      var i :| 0 <= i < |init| && init[i].matchId == Some(id) && init[i].leagueId > 0;
      assert games[i] == init[i];
    }
    if Followed(games, id) {
      var i :| 0 <= i < |games| && games[i].matchId == Some(id) && games[i].leagueId > 0;
      assert i < |init| ==> init[i] == games[i];
    }
  }

  /** A feed may list a match twice: the second touch of one transaction changes nothing. */
  lemma TouchTwice(row: Option<Row>, feed: LiveFeed, now: int)
    ensures Touched(Some(Touched(row, feed, now)), feed, now) == Touched(row, feed, now)
  {
  }
}
