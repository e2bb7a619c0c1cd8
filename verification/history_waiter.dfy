/**
 * How long the history waiter of one finished match keeps polling
 * (packages/shared/src/store/match-phase.ts, advanceHistoryMiss; matches.ts,
 * recordHistoryPollMisses), measured over whole runs in which every other writer may act too.
 */
module HistoryWaiter {
  import opened Wrappers
  import opened MatchPhase
  import opened MatchRow
  import opened MatchStore
  import opened LivePolls
  import opened MatchRuns

  /** No live feed resumes the match, no crawl finds it, and the limits stay as they are. */
  ghost predicate Waiting(evs: seq<Event>, id: MatchId, limits: HistoryLimits) {
    forall i | 0 <= i < |evs| ::
      && !Sights(evs[i], id)
      && (evs[i].HistoryPolled? ==> id !in evs[i].found && evs[i].limits == limits)
  }

  /** Whether this event records a miss on the waiter of `id`. */
  predicate Misses(w: World, ev: Event, id: MatchId) {
    ev.HistoryPolled? && id in ev.missed && id in w.rows && WaiterPending(w.rows[id])
  }

  /** Misses recorded on the waiter of `id` while the events run from `w`. */
  function MissCount(w: World, evs: seq<Event>, id: MatchId): nat
    requires ValidRun(evs)
  {
    if evs == [] then 0
    else
      var before := evs[..|evs| - 1];
      MissCount(w, before, id) + (if Misses(Run(w, before), evs[|evs| - 1], id) then 1 else 0)
  }

  /** Sum of the delays those misses scheduled. */
  function Delays(w: World, evs: seq<Event>, id: MatchId): nat
    requires ValidRun(evs)
  {
    if evs == [] then 0
    else
      var before, last := evs[..|evs| - 1], evs[|evs| - 1];
      Delays(w, before, id) +
      if Misses(Run(w, before), last, id)
      then
        var r := Run(w, before).rows[id];
        AdvanceHistoryMiss(r.historyFast, r.historySlow, last.limits).nextPollMs
      else 0
  }

  function Min(a: nat, b: nat): nat { if a < b then a else b }

  /** The waiter after `misses` misses and `delayed` ms, counted from the moment it was armed. */
  ghost predicate Budget(r: Row, limits: HistoryLimits, misses: nat, delayed: nat) {
    var tries := limits.fastLimit + limits.slowLimit;
    && misses <= tries + 1
    && r.historyFast == Min(misses, limits.fastLimit)
    && r.historySlow == Min(misses, tries) - r.historyFast
    && (r.historyNextPollAt.Some? <==> misses <= tries)
    && delayed == r.historyFast * limits.fastMs + r.historySlow * limits.slowMs
  }

  /** Away from sightings and hits, only a recorded miss moves the waiter. */
  lemma OnlyMissesMoveTheWaiter(w: World, ev: Event, id: MatchId)
    requires ValidEvent(ev) && id in w.rows && !Sights(ev, id) && !w.rows[id].status.Live?
    requires ev.HistoryPolled? ==> id !in ev.found
    requires !Misses(w, ev, id)
    ensures StepRow(w, ev, id).Some?
    ensures var r := StepRow(w, ev, id).value;
            && !r.status.Live?
            && r.historyFast == w.rows[id].historyFast
            && r.historySlow == w.rows[id].historySlow
            && r.historyNextPollAt == w.rows[id].historyNextPollAt
  {
    if ev.HistoryPageListed? {
      ListingLeavesWaiter(w.rows[id], id, ev.listed);
    }
  }

  lemma {:induction false} ListingLeavesWaiter(row: Row, id: MatchId, listed: seq<HistoryRow>)
    requires !row.status.Live?
    ensures ListedRow(Some(row), id, listed).Some?
    ensures var r := ListedRow(Some(row), id, listed).value;
            && !r.status.Live?
            && r.historyFast == row.historyFast
            && r.historySlow == row.historySlow
            && r.historyNextPollAt == row.historyNextPollAt
  {
    if listed != [] {
      ListingLeavesWaiter(row, id, listed[..|listed| - 1]);
    }
  }

  /** One miss spends one try; past the last it disarms, and fails the match only if it still waits. */
  lemma MissSpendsBudget(r: Row, limits: HistoryLimits, misses: nat, delayed: nat, now: int)
    requires WaiterPending(r) && Budget(r, limits, misses, delayed)
    ensures Budget(HistoryMiss(r, limits, now), limits, misses + 1,
                   delayed + AdvanceHistoryMiss(r.historyFast, r.historySlow, limits).nextPollMs)
    ensures HistoryMiss(r, limits, now).status ==
              if misses == limits.fastLimit + limits.slowLimit && r.status.AwaitingHistory?
              then Failed else r.status
  {
    OneMore(r.historyFast, limits.fastMs);
    OneMore(r.historySlow, limits.slowMs);
  }

  lemma OneMore(n: nat, ms: nat)
    ensures (n + 1) * ms == n * ms + ms
  {
  }

  lemma FinishedRowArms(r: Row, feed: LiveFeed, threshold: nat, replayDelayMs: nat, now: int, limits: HistoryLimits)
    requires RowInv(r) && r.durationMax > 0.0 && FinishGuard(Missed(r, feed, false), threshold)
    ensures var r' := AfterMisses(Some(r), feed, false, true, threshold, replayDelayMs, now).value;
            Budget(r', limits, 0, 0) && r'.status.AwaitingHistory? && r'.historyNextPollAt == Some(now)
  {
  }

  /** A live finish of a match whose clock ran arms the waiter with its whole budget. */
  lemma FinishArmsWithFullBudget(evs: seq<Event>, ev: Event, id: MatchId, limits: HistoryLimits)
    requires ValidRun(evs) && ValidEvent(ev) && Finishes(Run(Empty, evs), ev, id)
    requires Run(Empty, evs).rows[id].durationMax > 0.0
    ensures id in Step(Run(Empty, evs), ev).rows
    ensures var r := Step(Run(Empty, evs), ev).rows[id];
            Budget(r, limits, 0, 0) && r.status.AwaitingHistory? && r.historyNextPollAt == Some(ev.now)
  {
    var w := Run(Empty, evs);
    RunKeepsWorld(evs);
    FinishedOnlyWhenOmitted(evs, ev, id);
    StepIsRowStep(w, ev, id);
    FinishedRowArms(w.rows[id], if ev.LeaguePolled? then LiveLeague else TopLive, ev.threshold,
                    ev.replayDelayMs, ev.now, limits);
  }

  /**
   * From there on, whatever else is written, `n` recorded misses leave the waiter armed exactly
   * while n <= fastLimit + slowLimit, and have scheduled one fast or slow delay each.
   */
  lemma {:induction false} WaiterBudget(w: World, evs: seq<Event>, id: MatchId, limits: HistoryLimits)
    requires ValidRun(evs) && Waiting(evs, id, limits)
    requires id in w.rows && Budget(w.rows[id], limits, 0, 0) && !w.rows[id].status.Live?
    ensures id in Run(w, evs).rows && !Run(w, evs).rows[id].status.Live?
    ensures Budget(Run(w, evs).rows[id], limits, MissCount(w, evs, id), Delays(w, evs, id))
  {
    if evs != [] {
      var before, last := evs[..|evs| - 1], evs[|evs| - 1];
      var mid := Run(w, before);
      WaiterBudget(w, before, id, limits);
      StepIsRowStep(mid, last, id);
      if Misses(mid, last, id) {
        MissSpendsBudget(mid.rows[id], limits, MissCount(w, before, id), Delays(w, before, id), last.now);
      } else {
        OnlyMissesMoveTheWaiter(mid, last, id);
      }
    }
  }

  // ---- a waiter that is never polled ----------------------------------------------------------

  lemma SeqNumStays(w: World, ev: Event, id: MatchId)
    requires ValidEvent(ev) && id in w.rows && w.rows[id].matchSeqNum.Some?
    ensures StepRow(w, ev, id).Some? && StepRow(w, ev, id).value.matchSeqNum.Some?
  {
    if ev.HistoryPageListed? {
      ListingKeepsSeqNum(w.rows[id], id, ev.listed);
    } else if IsPoll(ev) {
      PollKeepsSeqNum(w, ev, id);
    }
  }

  lemma PollKeepsSeqNum(w: World, ev: Event, id: MatchId)
    requires ValidEvent(ev) && IsPoll(ev) && id in w.rows && w.rows[id].matchSeqNum.Some?
    ensures StepRow(w, ev, id).Some? && StepRow(w, ev, id).value.matchSeqNum.Some?
  {
  }

  lemma {:induction false} ListingKeepsSeqNum(row: Row, id: MatchId, listed: seq<HistoryRow>)
    requires row.matchSeqNum.Some?
    ensures ListedRow(Some(row), id, listed).Some? && ListedRow(Some(row), id, listed).value.matchSeqNum.Some?
  {
    if listed != [] {
      ListingKeepsSeqNum(row, id, listed[..|listed| - 1]);
    }
  }

  /**
   * The budget is spent only by rows without a sequence number: a row that already has one when
   * it is armed stays armed for good, with no miss ever recorded, until a feed resumes it.
   */
  lemma {:induction false} ArmedWithSeqNumIsNeverPolled(
    w: World, evs: seq<Event>, id: MatchId, limits: HistoryLimits)
    requires ValidRun(evs) && Waiting(evs, id, limits)
    requires id in w.rows && Budget(w.rows[id], limits, 0, 0) && !w.rows[id].status.Live?
    requires w.rows[id].matchSeqNum.Some?
    ensures MissCount(w, evs, id) == 0
    ensures id in Run(w, evs).rows && Run(w, evs).rows[id].historyNextPollAt.Some?
    ensures Run(w, evs).rows[id].matchSeqNum.Some?
  {
    WaiterBudget(w, evs, id, limits);
    if evs != [] {
      var before, last := evs[..|evs| - 1], evs[|evs| - 1];
      ArmedWithSeqNumIsNeverPolled(w, before, id, limits);
      StepIsRowStep(Run(w, before), last, id);
      SeqNumStays(Run(w, before), last, id);
    }
  }

  lemma RunSnoc(w: World, evs: seq<Event>, ev: Event)
    requires ValidRun(evs) && ValidEvent(ev)
    ensures ValidRun(evs + [ev]) && Run(w, evs + [ev]) == Step(Run(w, evs), ev)
  {
    assert (evs + [ev])[..|evs|] == evs;
  }

  lemma RunOfTwo(w: World, a: Event, b: Event)
    requires ValidEvent(a) && ValidEvent(b)
    ensures ValidRun([a, b]) && Run(w, [a, b]) == Step(Step(w, a), b)
  {
    RunSnoc(w, [], a);
    assert [] + [a] == [a];
    RunSnoc(w, [a], b);
    assert [a] + [b] == [a, b];
  }

  lemma RunOfThree(w: World, a: Event, b: Event, c: Event)
    requires ValidEvent(a) && ValidEvent(b) && ValidEvent(c)
    ensures ValidRun([a, b, c]) && Run(w, [a, b, c]) == Step(Step(Step(w, a), b), c)
  {
    RunOfTwo(w, a, b);
    RunSnoc(w, [a, b], c);
    assert [a, b] + [c] == [a, b, c];
  }

  function SeenRow(): Row {
    NewRow(Live, true, [TopLive]).(liveSeenAt := Some(0), durationMax := 60.0)
  }

  lemma SeenByTopLive()
    ensures var w := Step(Empty, RealtimeSeen(1, 60.0, 0));
            w.digests == map[] && Lookup(w.rows, 1) == Some(SeenRow())
  {
    StepIsRowStep(Empty, RealtimeSeen(1, 60.0, 0), 1);
  }

  lemma ListedThenOmitted()
    ensures var r := Finished(Missed(HistoryListed(Some(SeenRow()), 7), TopLive, false), 1, 0, 5);
            r.status.AwaitingHistory? && r.historyNextPollAt.Some? && !WaiterPending(r)
  {
    var listed := HistoryListed(Some(SeenRow()), 7);
    assert listed.sources == [TopLive, History] && LiveLeague !in listed.sources && listed.sources[0] == TopLive;
    assert FinishGuard(Missed(listed, TopLive, false), 1);
  }

  lemma ListedOnce(w: World, row: Row, seqNum: int)
    requires Lookup(w.rows, 1) == Some(row) && w.digests == map[]
    ensures var w' := Step(w, HistoryPageListed([HistoryRow(1, seqNum)]));
            w'.digests == map[] && Lookup(w'.rows, 1) == Some(HistoryListed(Some(row), seqNum))
  {
    var listed := [HistoryRow(1, seqNum)];
    assert listed[..0] == [] && listed[|listed| - 1] == HistoryRow(1, seqNum);
    assert ListedRow(Some(row), 1, listed) == Some(HistoryListed(Some(row), seqNum));
    StepIsRowStep(w, HistoryPageListed([HistoryRow(1, seqNum)]), 1);
  }

  lemma OmittedOnce(w: World, row: Row)
    requires Lookup(w.rows, 1) == Some(row)
    ensures Lookup(Step(w, TopPolled({2}, true, 1, 0, 5)).rows, 1)
            == Some(Finished(Missed(row, TopLive, false), 1, 0, 5))
  {
    StepIsRowStep(w, TopPolled({2}, true, 1, 0, 5), 1);
  }

  /** Such a row is reachable: a history page lists the match while it is live, then it is finished. */
  lemma ListedWhileLive()
    ensures var evs := [RealtimeSeen(1, 60.0, 0), HistoryPageListed([HistoryRow(1, 7)]),
                        TopPolled({2}, true, 1, 0, 5)];
            && ValidRun(evs)
            && 1 in Run(Empty, evs).rows
            && Run(Empty, evs).rows[1].status.AwaitingHistory?
            && Run(Empty, evs).rows[1].historyNextPollAt.Some?
            && !WaiterPending(Run(Empty, evs).rows[1])
  {
    RunOfThree(Empty, RealtimeSeen(1, 60.0, 0), HistoryPageListed([HistoryRow(1, 7)]),
               TopPolled({2}, true, 1, 0, 5));
    SeenByTopLive();
    ListedOnce(Step(Empty, RealtimeSeen(1, 60.0, 0)), SeenRow(), 7);
    OmittedOnce(Step(Step(Empty, RealtimeSeen(1, 60.0, 0)), HistoryPageListed([HistoryRow(1, 7)])),
                HistoryListed(Some(SeenRow()), 7));
    ListedThenOmitted();
  }
}
