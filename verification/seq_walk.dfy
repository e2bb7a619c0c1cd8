/**
 * The walk over Valve's global match sequence numbers: any number of workers claim windows from
 * one stored cursor, window jobs rewind it when they are empty and bump it when they commit
 * (packages/shared/src/jobs/walk-seq-history.ts, seq-walk-cursor.ts, fetch-seq-window.ts).
 * Each statement that touches the stored cursor or the queue is its own step.
 */
module SeqWalk {
  import opened Wrappers
  import opened MatchPhase
  import opened MatchRow
  import opened MatchStore
  import opened RowEffects

  const SEQ_WALK_REWIND := 2000
  const SEQ_WALK_CAUGHT_UP_MS := 60000

  function ClaimAdvance(cursor: int, batchSize: int): int { cursor + batchSize }

  /** Two thousand numbers back, so that late matches are seen again, but not before the first. */
  function RewindSeqWalkCursor(startAt: int): (cursor: int)
    ensures 1 <= cursor && startAt - cursor <= SEQ_WALK_REWIND
    ensures cursor > 1 ==> startAt - cursor == SEQ_WALK_REWIND
  {
    if startAt - SEQ_WALK_REWIND > 1 then startAt - SEQ_WALK_REWIND else 1
  }

  /** How far a worker is inside claimSeqWalkWindow. */
  datatype Claim = Reading(start: int) | Queued(start: int)

  datatype Walk = Walk(
    cursor: int,
    jobs: set<int>,                        // starts of the window jobs ever added
    claims: map<nat, Claim>,               // workers in the middle of a claim
    committed: set<(int, int)>)            // (start, highest number) of committed responses

  datatype Step =
    | ReadCursor(worker: nat)
    | FoundAlive(worker: nat)              // a job with this key is alive: no enqueue
    | Enqueue(worker: nat)
    | CasAdvance(worker: nat)
    | Crash(worker: nat)
    | EmptyWindow(start: int)              // the job rewinds the cursor
    | CommitWindow(start: int, seqNums: seq<int>)

  function Highest(seqNums: seq<int>): Option<int> {
    if seqNums == [] then None
    else
      var before := Highest(seqNums[..|seqNums| - 1]);
      var last := seqNums[|seqNums| - 1];
      if before.None? || last > before.value then Some(last) else before
  }

  predicate Enabled(w: Walk, step: Step) {
    match step
    case ReadCursor(k) => k !in w.claims && w.cursor >= 1
    case FoundAlive(k) => k in w.claims && w.claims[k].Reading? && w.claims[k].start in w.jobs
    case Enqueue(k) => k in w.claims && w.claims[k].Reading?
    case CasAdvance(k) => k in w.claims && w.claims[k].Queued?
    case Crash(k) => k in w.claims
    case EmptyWindow(start) => start in w.jobs
    case CommitWindow(start, seqNums) => start in w.jobs && seqNums != []
  }

  function Cas(cursor: int, expected: int, next: int): int {
    if cursor == expected then next else cursor
  }

  function Bump(cursor: int, highest: int): int {
    if highest < 1 || cursor >= highest then cursor else highest
  }

  function Next(w: Walk, step: Step, batch: nat): Walk
    requires Enabled(w, step)
  {
    match step
    case ReadCursor(k) => w.(claims := w.claims[k := Reading(w.cursor)])
    case FoundAlive(k) => w.(claims := w.claims[k := Queued(w.claims[k].start)])
    case Enqueue(k) =>
      w.(jobs := w.jobs + {w.claims[k].start}, claims := w.claims[k := Queued(w.claims[k].start)])
    case CasAdvance(k) =>
      var start := w.claims[k].start;
      w.(cursor := Cas(w.cursor, start, ClaimAdvance(start, batch)), claims := w.claims - {k})
    case Crash(k) => w.(claims := w.claims - {k})
    case EmptyWindow(start) => w.(cursor := RewindSeqWalkCursor(start))
    case CommitWindow(start, seqNums) =>
      var highest := Highest(seqNums);
      if highest.None? then w
      else w.(cursor := Bump(w.cursor, highest.value), committed := w.committed + {(start, highest.value)})
  }

  ghost predicate ValidRun(w: Walk, steps: seq<Step>, batch: nat)
    decreases |steps|
  {
    steps == [] || (Enabled(w, steps[0]) && ValidRun(Next(w, steps[0], batch), steps[1..], batch))
  }

  ghost function Run(w: Walk, steps: seq<Step>, batch: nat): Walk
    requires ValidRun(w, steps, batch)
    decreases |steps|
  {
    if steps == [] then w else Run(Next(w, steps[0], batch), steps[1..], batch)
  }

  function Start(c0: int): Walk { Walk(c0, {}, map[], {}) }

  // ---- coverage -------------------------------------------------------------------------------

  ghost predicate Covered(w: Walk, batch: nat, n: int) {
    || (exists s :: s in w.jobs && s <= n < s + batch)
    || (exists r :: r in w.committed && r.0 <= n <= r.1)
  }

  /** `high` is the furthest the cursor has ever been; rewinds do not take it back. */
  ghost predicate CoveredBelow(w: Walk, c0: int, high: int, batch: nat) {
    && 1 <= w.cursor <= high
    && (forall s | s in w.jobs :: s <= high)
    && (forall k | k in w.claims :: w.claims[k].start <= high)
    && (forall k | k in w.claims && w.claims[k].Queued? :: w.claims[k].start in w.jobs)
    && (forall n | c0 <= n < high :: Covered(w, batch, n))
  }

  /** Nothing that was covered is ever forgotten. */
  lemma CoverGrows(w: Walk, step: Step, batch: nat, n: int)
    requires Enabled(w, step) && Covered(w, batch, n)
    ensures Covered(Next(w, step, batch), batch, n)
  {
    var w' := Next(w, step, batch);
    assert w.jobs <= w'.jobs && w.committed <= w'.committed;
    if s :| s in w.jobs && s <= n < s + batch {
      assert s in w'.jobs;
    } else {
      var r :| r in w.committed && r.0 <= n <= r.1;
      assert r in w'.committed;
    }
  }

  function Raised(high: int, w: Walk): int {
    if w.cursor > high then w.cursor else high
  }

  lemma StepKeepsCover(w: Walk, step: Step, c0: int, high: int, batch: nat)
    requires Enabled(w, step) && CoveredBelow(w, c0, high, batch)
    ensures CoveredBelow(Next(w, step, batch), c0, Raised(high, Next(w, step, batch)), batch)
  {
    var w' := Next(w, step, batch);
    forall n | c0 <= n < Raised(high, w') ensures Covered(w', batch, n) {
      if n < high {
        CoverGrows(w, step, batch, n);
      } else {
        match step
        case CasAdvance(k) =>
          assert w.claims[k].start in w'.jobs;
        case CommitWindow(start, seqNums) =>
          assert (start, Highest(seqNums).value) in w'.committed;
        case _ =>
      }
    }
  }

  lemma {:induction false} RunKeepsCover(w: Walk, steps: seq<Step>, c0: int, high: int, batch: nat)
    returns (top: int)
    requires ValidRun(w, steps, batch) && CoveredBelow(w, c0, high, batch)
    ensures top >= high && CoveredBelow(Run(w, steps, batch), c0, top, batch)
    decreases |steps|
  {
    top := high;
    if steps != [] {
      var w' := Next(w, steps[0], batch);
      StepKeepsCover(w, steps[0], c0, high, batch);
      top := RunKeepsCover(w', steps[1..], c0, Raised(high, w'), batch);
    }
  }

  /**
   * What moves the stored cursor: a claimer that still finds its own reading moves it on by one batch and
   * a later one not at all, a response moves it up to its highest number and never back, and only an
   * empty window, which puts it two thousand before its own start, takes it back.
   */
  lemma StepMovesCursor(w: Walk, step: Step, batch: nat)
    requires Enabled(w, step)
    ensures !step.EmptyWindow? ==> Next(w, step, batch).cursor >= w.cursor
    ensures step.CasAdvance? ==>
              Next(w, step, batch).cursor == w.cursor + (if w.claims[step.worker].start == w.cursor then batch else 0)
    ensures step.CommitWindow? ==> ResponseMoves(w, Next(w, step, batch), step.start, step.seqNums)
    ensures step.EmptyWindow? ==> EmptyMoves(w, Next(w, step, batch), step.start)
    ensures step.ReadCursor? || step.FoundAlive? || step.Enqueue? || step.Crash? ==>
              Next(w, step, batch).cursor == w.cursor && Next(w, step, batch).committed == w.committed
    ensures !step.Enqueue? ==> Next(w, step, batch).jobs == w.jobs
  {
    if step.CommitWindow? {
      HighestIsMember(step.seqNums);
    }
  }

  lemma {:induction false} HighestIsMember(seqNums: seq<int>)
    requires seqNums != []
    ensures Highest(seqNums).Some? && Highest(seqNums).value in seqNums
    ensures forall n | n in seqNums :: n <= Highest(seqNums).value
  {
    var before, last := seqNums[..|seqNums| - 1], seqNums[|seqNums| - 1];
    assert seqNums == before + [last];
    if before != [] {
      HighestIsMember(before);
    }
  }

  /**
   * A stored response: the cursor is at least what it was and at least every returned number, and one of
   * those; exactly the range from the window's start to the largest number is committed.
   */
  ghost predicate ResponseMoves(before: Walk, after: Walk, start: int, seqNums: seq<int>) {
    && after.jobs == before.jobs && after.claims == before.claims
    && exists h ::
         && h in seqNums && (forall n | n in seqNums :: n <= h)
         && after.committed == before.committed + {(start, h)}
         && after.cursor >= before.cursor && (h >= 1 ==> after.cursor >= h)
         && (after.cursor == before.cursor || (after.cursor == h && h >= 1))
  }

  /** An empty response: the cursor is two thousand before the window's own start, or at the first number. */
  predicate EmptyMoves(before: Walk, after: Walk, start: int) {
    && after.jobs == before.jobs && after.claims == before.claims && after.committed == before.committed
    && after.cursor >= 1 && after.cursor >= start - 2000 && (after.cursor == 1 || after.cursor == start - 2000)
  }

  /**
   * In every interleaving, with crashes between any two steps, every number between the first
   * cursor and the current one is in a window that was queued or in a response that was stored;
   * and the cursor is always one that the next claimer accepts.
   */
  lemma NoNumberIsSkipped(c0: int, steps: seq<Step>, batch: nat)
    requires c0 >= 1 && ValidRun(Start(c0), steps, batch)
    ensures Run(Start(c0), steps, batch).cursor >= 1
    ensures forall n | c0 <= n < Run(Start(c0), steps, batch).cursor ::
              Covered(Run(Start(c0), steps, batch), batch, n)
  {
    var top := RunKeepsCover(Start(c0), steps, c0, c0, batch);
  }

  // ---- the jobs -------------------------------------------------------------------------------

  /** highestSeqNum. */
  method HighestSeqNum(seqNums: seq<int>) returns (max: Option<int>)
    ensures max == Highest(seqNums)
    ensures max.None? <==> seqNums == []
    ensures max.Some? ==> max.value in seqNums && forall n | n in seqNums :: n <= max.value
  {
    max := None;
    for i := 0 to |seqNums|
      invariant max == Highest(seqNums[..i])
      invariant max.None? <==> i == 0
      invariant max.Some? ==> max.value in seqNums[..i] && forall n | n in seqNums[..i] :: n <= max.value
    {
      assert seqNums[..i + 1] == seqNums[..i] + [seqNums[i]];
      if max.None? || seqNums[i] > max.value {
        max := Some(seqNums[i]);
      }
    }
    assert seqNums[..|seqNums|] == seqNums;
  }

  lemma {:induction false} RunAppend(w: Walk, steps: seq<Step>, step: Step, batch: nat)
    requires ValidRun(w, steps, batch) && Enabled(Run(w, steps, batch), step)
    ensures ValidRun(w, steps + [step], batch)
    ensures Run(w, steps + [step], batch) == Next(Run(w, steps, batch), step, batch)
    decreases |steps|
  {
    if steps == [] {
      assert [step][1..] == [];
    } else {
      assert (steps + [step])[1..] == steps[1..] + [step];
      RunAppend(Next(w, steps[0], batch), steps[1..], step, batch);
    }
  }

  // ---- saving a response ----------------------------------------------------------------------

  datatype SeqMatch = SeqMatch(matchId: MatchId, seqNum: int, leagueId: int, facts: Facts)

  function SeqNums(matches: seq<SeqMatch>): seq<int> {
    seq(|matches|, i requires 0 <= i < |matches| => matches[i].seqNum)
  }

  function LeagueAt(matches: seq<SeqMatch>): set<nat> {
    set i: nat | i < |matches| && matches[i].leagueId > 0
  }

  /** Matches of a league; the others are only walked past. */
  function Professional(matches: seq<SeqMatch>): (pro: seq<SeqMatch>)
    ensures |pro| == |LeagueAt(matches)|
  {
    if matches == [] then []
    else
      var before, last := Professional(matches[..|matches| - 1]), matches[|matches| - 1];
      var at := LeagueAt(matches[..|matches| - 1]);
      assert LeagueAt(matches) == if last.leagueId > 0 then at + {|matches| - 1} else at;
      if last.leagueId > 0 then before + [last] else before
  }

  /** A row after the transaction that saves a response. */
  function SavedBySeq(row: Option<Row>, id: MatchId, pro: seq<SeqMatch>, now: int): Option<Row> {
    if pro == [] then row
    else
      var before, last := SavedBySeq(row, id, pro[..|pro| - 1], now), pro[|pro| - 1];
      if last.matchId == id then Persisted(before, last.facts, BySeq, false, now) else before
  }

  /**
   * A match the response names is stored and stamped as fetched by sequence number, keeping an
   * earlier stamp and a phase past its details; no other row changes, and rows keep their invariant.
   */
  lemma {:induction false} ResponseIsSaved(row: Option<Row>, id: MatchId, pro: seq<SeqMatch>, now: int)
    ensures var after := SavedBySeq(row, id, pro, now);
            && (row.Some? ==> after.Some?) && (row.Some? && RowInv(row.value) ==> RowInv(after.value))
            && (if exists m :: m in pro && m.matchId == id
                then after.Some? && after.value.seqFetchedAt.Some?
                     && (row.None? ==> RowInv(after.value) && after.value.seqFetchedAt == Some(now))
                     && (row.Some? && row.value.seqFetchedAt.Some? ==>
                           after.value.seqFetchedAt == row.value.seqFetchedAt)
                     && (row.Some? && PastDetails(row.value.status) ==> after.value.status == row.value.status)
                else after == row)
  {
    if pro != [] {
      var init, last := pro[..|pro| - 1], pro[|pro| - 1];
      assert pro == init + [last];
      ResponseIsSaved(row, id, init, now);
      if last.matchId == id {
        assert last in pro;
        SaveIsNoted(SavedBySeq(row, id, init, now), last.facts, now);
      } else {
        assert forall m | m in pro && m.matchId == id :: m in init;
        assert forall m | m in init :: m in pro;
      }
    }
  }

  /** A row after one record by sequence number was saved: found or discovered, then filled. */
  ghost predicate RecordNoted(row: Option<Row>, after: Option<Row>, facts: Facts, now: int) {
    && after.Some?
    && match row
       case Some(r) => FactsNoted(r, after.value, facts, BySeq, now)
       case None => exists r :: Discovery(r, facts, BySeq, now) && FactsNoted(r, after.value, facts, BySeq, now)
  }

  ghost predicate Once(pro: seq<SeqMatch>, k: nat)
    requires k < |pro|
  {
    forall j | 0 <= j < |pro| && j != k :: pro[j].matchId != pro[k].matchId
  }

  /** A match the response has once gets that record's facts. */
  lemma {:induction false} OneRecordIsNoted(row: Option<Row>, id: MatchId, pro: seq<SeqMatch>, k: nat, now: int)
    requires k < |pro| && pro[k].matchId == id && Once(pro, k)
    ensures RecordNoted(row, SavedBySeq(row, id, pro, now), pro[k].facts, now)
  {
    var n := |pro| - 1;
    if k < n {
      OneRecordIsNoted(row, id, pro[..n], k, now);
    } else {
      ResponseIsSaved(row, id, pro[..n], now);
      var found := Undiscovered(row, pro[k].facts, BySeq, now);
      FactsAreNoted(found, pro[k].facts, BySeq, now);
      InsertDiscovers(pro[k].facts, BySeq, now);
    }
  }

  lemma SaveIsNoted(row: Option<Row>, facts: Facts, now: int)
    ensures var after := Persisted(row, facts, BySeq, false, now);
            && after.Some? && after.value.seqFetchedAt.Some? && SeqMarked(after.value, now) == after.value
            && (row.Some? ==>
                  && (RowInv(row.value) ==> RowInv(after.value))
                  && (row.value.seqFetchedAt.Some? ==> after.value.seqFetchedAt == row.value.seqFetchedAt)
                  && (PastDetails(row.value.status) ==> after.value.status == row.value.status))
            && (row.None? ==> RowInv(after.value) && after.value.seqFetchedAt == Some(now))
  {
    if row.None? { InsertDiscovers(facts, BySeq, now); }
    FactsAreNoted(Undiscovered(row, facts, BySeq, now), facts, BySeq, now);
  }

  /** professionalSeqMatches. */
  method ProfessionalSeqMatches(matches: seq<SeqMatch>) returns (pro: seq<SeqMatch>)
    ensures pro == Professional(matches)
    ensures forall m :: m in pro <==> m in matches && m.leagueId > 0
  {
    pro := [];
    for i := 0 to |matches|
      invariant pro == Professional(matches[..i])
      invariant forall m :: m in pro <==> m in matches[..i] && m.leagueId > 0
    {
      assert matches[..i + 1] == matches[..i] + [matches[i]];
      if matches[i].leagueId > 0 { pro := pro + [matches[i]]; }
    }
    assert matches[..|matches|] == matches;
  }

  method SaveResponse(store: Matches, pro: seq<SeqMatch>, now: int)
    modifies store
    ensures forall id :: Lookup(store.rows, id) == SavedBySeq(Lookup(old(store.rows), id), id, pro, now)
    ensures forall k | 0 <= k < |pro| && Once(pro, k) ::
              RecordNoted(Lookup(old(store.rows), pro[k].matchId), Lookup(store.rows, pro[k].matchId),
                          pro[k].facts, now)
  {
    for i := 0 to |pro|
      invariant forall id :: Lookup(store.rows, id) == SavedBySeq(Lookup(old(store.rows), id), id, pro[..i], now)
    {
      assert pro[..i + 1][..i] == pro[..i];
      SaveOne(store, pro[i], now);
    }
    assert pro[..|pro|] == pro;
    forall k | 0 <= k < |pro| && Once(pro, k)
      ensures RecordNoted(Lookup(old(store.rows), pro[k].matchId), Lookup(store.rows, pro[k].matchId),
                          pro[k].facts, now)
    {
      OneRecordIsNoted(Lookup(old(store.rows), pro[k].matchId), pro[k].matchId, pro, k, now);
    }
  }

  /** persistMatchRecord stamps the row already, so markSeqFetched after it changes nothing. */
  method SaveOne(store: Matches, m: SeqMatch, now: int)
    modifies store
    ensures forall id :: Lookup(store.rows, id) ==
              if id == m.matchId then Persisted(Lookup(old(store.rows), id), m.facts, BySeq, false, now)
              else Lookup(old(store.rows), id)
  {
    SaveIsNoted(Lookup(store.rows, m.matchId), m.facts, now);
    store.PersistMatchRecord(m.matchId, m.facts, BySeq, false, now);
    ghost var saved := store.rows;
    assert Lookup(saved, m.matchId).Some?;
    store.MarkSeqFetched({m.matchId}, now);
    assert forall id :: Lookup(store.rows, id) == Lookup(saved, id);
  }

  /** The stored cursor and the queue, as one worker sees them when no other worker interferes. */
  class Walker {
    var walk: Walk
    var cooldown: Option<int>             // nothing is claimed before this time
    var globalMax: int                    // global_max_match_seq_num, 0 when unset
    const batch: nat

    constructor (c0: int, batch: nat)
      ensures walk == Start(c0) && this.batch == batch && cooldown == None && globalMax == 0
    {
      walk, cooldown, globalMax := Start(c0), None, 0;
      this.batch := batch;
    }

    /**
     * claimSeqWalkWindow: read, look for a live job, enqueue if there is none, then CAS.
     * The steps it takes are returned.
     */
    method ClaimSeqWalkWindow(worker: nat, jobKeyIsAlive: bool)
      returns (startAt: int, alreadyAlive: bool, ghost steps: seq<Step>)
      requires worker !in walk.claims && walk.cursor >= 1
      modifies this`walk
      ensures ValidRun(old(walk), steps, batch) && walk == Run(old(walk), steps, batch)
      ensures startAt == old(walk).cursor && walk.cursor == startAt + batch
      ensures walk.jobs == old(walk).jobs + {startAt} && walk.claims == old(walk).claims
      ensures walk.committed == old(walk).committed
      ensures alreadyAlive ==> walk.jobs == old(walk).jobs
      ensures alreadyAlive <==> jobKeyIsAlive && startAt in old(walk).jobs
    {
      ghost var w0 := walk;
      steps := [];
      startAt := walk.cursor;
      steps := Take(w0, steps, ReadCursor(worker));
      alreadyAlive := jobKeyIsAlive && startAt in walk.jobs;
      if alreadyAlive {
        steps := Take(w0, steps, FoundAlive(worker));
      } else {
        steps := Take(w0, steps, Enqueue(worker));
      }
      steps := Take(w0, steps, CasAdvance(worker));
    }

    method Take(ghost w0: Walk, ghost steps: seq<Step>, step: Step) returns (ghost steps': seq<Step>)
      requires ValidRun(w0, steps, batch) && walk == Run(w0, steps, batch) && Enabled(walk, step)
      modifies this`walk
      ensures walk == Next(old(walk), step, batch)
      ensures steps' == steps + [step] && ValidRun(w0, steps', batch) && walk == Run(w0, steps', batch)
    {
      RunAppend(w0, steps, step, batch);
      walk := Next(walk, step, batch);
      steps' := steps + [step];
    }

    /**
     * enqueueSeqWalkWindows: nothing until the cooldown is over; then it fills the room that is left,
     * giving up after four tries per slot. Every number it passes is queued, and the room is never exceeded.
     */
    method EnqueueSeqWalkWindows(worker: nat, parallelism: nat, inflight: nat, alive: nat -> bool,
                                 now: int, intervalMs: nat)
      returns (enqueued: nat, delayMs: int)
      requires worker !in walk.claims && walk.cursor >= 1
      modifies this`walk
      ensures cooldown.Some? && now < cooldown.value ==>
                walk == old(walk) && enqueued == 0 && now + delayMs == cooldown.value
      ensures cooldown.None? || cooldown.value <= now ==> delayMs == intervalMs
      ensures Refilled(old(walk), walk, batch, enqueued)
      ensures inflight + enqueued <= parallelism || enqueued == 0
      ensures (cooldown.None? || cooldown.value <= now) && (forall i :: !alive(i)) && inflight <= parallelism ==>
                enqueued == parallelism - inflight
    {
      if cooldown.Some? && cooldown.value > now {
        return 0, cooldown.value - now;
      }
      enqueued := FillRoom(worker, parallelism, inflight, alive);
      delayMs := intervalMs;
    }

    method FillRoom(worker: nat, parallelism: nat, inflight: nat, alive: nat -> bool) returns (enqueued: nat)
      requires worker !in walk.claims && walk.cursor >= 1
      modifies this`walk
      ensures Refilled(old(walk), walk, batch, enqueued)
      ensures inflight + enqueued <= parallelism || enqueued == 0
      ensures (forall i :: !alive(i)) && inflight <= parallelism ==> enqueued == parallelism - inflight
    {
      var room := parallelism - inflight;
      enqueued := 0;
      var spins := 0;
      while room > 0 && spins < parallelism * 4
        invariant Refilled(old(walk), walk, batch, enqueued)
        invariant room == parallelism - inflight - enqueued && (enqueued > 0 ==> room >= 0)
        invariant (forall i :: !alive(i)) ==> spins == enqueued
        invariant walk.cursor >= 1
        decreases parallelism * 4 - spins
      {
        ghost var before := walk;
        spins := spins + 1;
        var startAt, alreadyAlive;
        ghost var steps;
        startAt, alreadyAlive, steps := ClaimSeqWalkWindow(worker, alive(spins));
        CoverSurvives(before, steps, batch);
        RefilledByOne(old(walk), before, walk, batch, enqueued, if alreadyAlive then 0 else 1);
        if alreadyAlive { continue; }
        enqueued := enqueued + 1;
        room := room - 1;
      }
    }

    /**
     * runFetchSeqWindow: an empty response rewinds and starts the cooldown; any other is saved,
     * commits its range, bumps the cursor and the global counter, asks for the details of the saved
     * matches that have none, and claims further windows.
     */
    method RunFetchSeqWindow(store: Matches, worker: nat, startAt: int, matches: seq<SeqMatch>, now: int,
                             parallelism: nat, inflight: nat, alive: nat -> bool)
      returns (saved: nat, empty: bool, details: set<MatchId>, ghost done: Walk, ghost enqueued: nat)
      requires startAt in walk.jobs && worker !in walk.claims && walk.cursor >= 1
      modifies this`walk, this`cooldown, this`globalMax, store
      ensures empty <==> matches == []
      ensures done == Next(old(walk), if empty then EmptyWindow(startAt)
                                      else CommitWindow(startAt, SeqNums(matches)), batch)
      ensures !empty ==> ResponseMoves(old(walk), done, startAt, SeqNums(matches))
      ensures empty ==> EmptyMoves(old(walk), done, startAt)
      ensures forall id :: Lookup(store.rows, id) ==
                SavedBySeq(Lookup(old(store.rows), id), id, Professional(matches), now)
      ensures saved == |LeagueAt(matches)|
      ensures forall id :: id in details <==>
                && id in store.rows && store.rows[id].detailsFetchedAt.None?
                && exists m :: m in matches && m.leagueId > 0 && m.matchId == id
      ensures globalMax == if Highest(SeqNums(matches)).None? then old(globalMax)
                           else GlobalBump(old(globalMax), Highest(SeqNums(matches)).value)
      ensures empty ==> walk == done && cooldown == Some(now + SEQ_WALK_CAUGHT_UP_MS)
      ensures !empty ==> cooldown == old(cooldown) && Refilled(done, walk, batch, enqueued)
      ensures old(cooldown).Some? && now < old(cooldown).value ==> walk == done
    {
      done, enqueued := walk, 0;
      StepMovesCursor(walk, if |matches| == 0 then EmptyWindow(startAt)
                            else CommitWindow(startAt, SeqNums(matches)), batch);
      if |matches| == 0 {
        walk := walk.(cursor := RewindSeqWalkCursor(startAt));
        cooldown := Some(now + SEQ_WALK_CAUGHT_UP_MS);
        return 0, true, {}, walk, 0;
      }
      var highest := HighestSeqNum(SeqNums(matches));
      var pro := ProfessionalSeqMatches(matches);
      SaveResponse(store, pro, now);
      if highest.Some? {
        walk := walk.(cursor := Bump(walk.cursor, highest.value),
                      committed := walk.committed + {(startAt, highest.value)});
      }
      done := walk;
      if highest.Some? { globalMax := GlobalBump(globalMax, highest.value); }
      details := set m | m in pro && m.matchId in store.rows && store.rows[m.matchId].detailsFetchedAt.None?
                 :: m.matchId;
      var claimed, delayMs := EnqueueSeqWalkWindows(worker, parallelism, inflight, alive, now, 0);
      return |pro|, false, details, done, claimed;
    }
  }

  /** bumpGlobalMatchSeq: it never goes back. */
  function GlobalBump(current: int, seqNum: int): (next: int)
    ensures next >= current && (next == current || next == seqNum) && (seqNum > 0 ==> next >= seqNum)
  {
    if seqNum <= 0 || current > seqNum then current else seqNum
  }

  /** Windows have been claimed: the cursor moved on, and every number it passed is covered. */
  ghost predicate Refilled(before: Walk, after: Walk, batch: nat, enqueued: nat) {
    && after.claims == before.claims && after.committed == before.committed && before.jobs <= after.jobs
    && after.cursor >= before.cursor + enqueued * batch
    && (forall s | s in after.jobs && s !in before.jobs :: before.cursor <= s <= after.cursor)
    && forall n | before.cursor <= n < after.cursor :: Covered(after, batch, n)
  }

  lemma RefilledByOne(first: Walk, before: Walk, after: Walk, batch: nat, enqueued: nat, one: nat)
    requires Refilled(first, before, batch, enqueued) && one <= 1
    requires after.claims == before.claims && after.committed == before.committed
    requires after.jobs == before.jobs + {before.cursor} && after.cursor == before.cursor + batch
    ensures Refilled(first, after, batch, enqueued + one)
  {
    assert (enqueued + one) * batch <= enqueued * batch + batch;
    forall n | first.cursor <= n < after.cursor ensures Covered(after, batch, n) {
      if n < before.cursor {
        assert Covered(before, batch, n);
        if s :| s in before.jobs && s <= n < s + batch {
          assert s in after.jobs;
        } else {
          var r :| r in before.committed && r.0 <= n <= r.1;
          assert r in after.committed;
        }
      } else {
        assert before.cursor in after.jobs;
      }
    }
  }

  lemma {:induction false} CoverSurvives(w: Walk, steps: seq<Step>, batch: nat)
    requires ValidRun(w, steps, batch)
    ensures w.jobs <= Run(w, steps, batch).jobs && w.committed <= Run(w, steps, batch).committed
    ensures forall n | Covered(w, batch, n) :: Covered(Run(w, steps, batch), batch, n)
    decreases |steps|
  {
    if steps != [] {
      forall n | Covered(w, batch, n) ensures Covered(Next(w, steps[0], batch), batch, n) {
        CoverGrows(w, steps[0], batch, n);
      }
      CoverSurvives(Next(w, steps[0], batch), steps[1..], batch);
    }
  }
}
