/**
 * One archiver running by itself (archiveOne and runArchiveParsedReplays of
 * packages/shared/src/jobs/archive-parsed-replays.ts): every effect is a step of the protocol.
 */
module ArchiveJobs {
  import opened Archiver
  import opened Wrappers

  /** Whether existence checks, the copy, the UPDATE and the delete get through. */
  datatype Io = Io(sees: bool, copies: bool, marks: bool, deletes: bool)

  /** A row that listParsedUnarchived selects. */
  predicate Unarchived(w: World, m: MatchId) {
    m in w.rows && w.rows[m].parsed && !w.rows[m].archived && w.rows[m].key != ""
  }

  predicate Picks(w: World, worker: Worker, m: MatchId) { worker !in w.jobs && Unarchived(w, m) }

  function Ids(batch: seq<MatchId>): set<MatchId> { set m | m in batch }

  predicate Asked(matchId: Option<MatchId>, m: MatchId) { matchId.None? || matchId.value == m }

  /** How far a batch has come: which of its first `i` rows are archived now, and that no other row moved. */
  ghost predicate Progress(before: World, w: World, batch: seq<MatchId>, i: nat, marked: set<MatchId>)
    requires i <= |batch|
  {
    && w.rows.Keys == before.rows.Keys && w.jobs == before.jobs
    && (forall m | m in w.rows && m !in batch[..i] :: w.rows[m] == before.rows[m])
    && marked == set m | m in batch[..i] && m in w.rows && w.rows[m].archived
  }

  lemma ProgressStep(before: World, w: World, w': World, batch: seq<MatchId>, i: nat, marked: set<MatchId>)
    requires i < |batch| && Progress(before, w, batch, i, marked)
    requires batch[i] in w.rows && batch[i] !in batch[..i]
    requires w'.rows.Keys == w.rows.Keys && w'.jobs == w.jobs
    requires forall m | m in w.rows && m != batch[i] :: w'.rows[m] == w.rows[m]
    ensures Progress(before, w', batch, i + 1, if w'.rows[batch[i]].archived then marked + {batch[i]} else marked)
    ensures batch[i] !in marked
  {
    assert batch[..i + 1] == batch[..i] + [batch[i]];
  }

  lemma StillUnarchived(before: World, w: World, batch: seq<MatchId>, i: nat, marked: set<MatchId>)
    requires i < |batch| && Progress(before, w, batch, i, marked)
    requires batch[i] !in batch[..i] && Unarchived(before, batch[i])
    ensures Unarchived(w, batch[i])
  {
  }

  /** Whether the archiver gets as far as the UPDATE. */
  predicate ReachesMark(c: Config, w: World, row: Row, io: Io) {
    AlreadyThere(c, row.bucket, row.key) || (io.sees && (DestLoc(c, row.key) in w.objects || io.copies))
  }

  /** The row repointed; the source moved to the destination, or left behind when its delete fails. */
  function AfterArchive(c: Config, w: World, m: MatchId, io: Io): World
    requires m in w.rows && PointsAtReplay(c, w, m)
  {
    var row := w.rows[m];
    var source, dest := RowLoc(c, row), DestLoc(c, row.key);
    if !ReachesMark(c, w, row, io) then w
    else
      var copied := if source == dest || dest in w.objects then w.objects else w.objects[dest := w.objects[source]];
      if !io.marks then w.(objects := copied)
      else w.(rows := w.rows[m := Row(c.destBucket, c.destKey(row.key), row.salt, true, true)],
              objects := if source == dest || !io.deletes then copied else copied - {source})
  }

  lemma {:induction false} RunSnoc(c: Config, w: World, evs: seq<Event>, ev: Event)
    requires ValidRun(c, w, evs) && Enabled(c, Run(c, w, evs), ev) && Timely(c, Run(c, w, evs), ev)
    ensures ValidRun(c, w, evs + [ev]) && Run(c, w, evs + [ev]) == Step(c, Run(c, w, evs), ev)
    decreases |evs|
  {
    if evs == [] {
      assert ([] + [ev])[1..] == [];
    } else {
      RunSnoc(c, Step(c, w, evs[0]), evs[1..], ev);
      assert (evs + [ev])[1..] == evs[1..] + [ev];
    }
  }

  class ReplayArchive {
    const config: Config
    var world: World
    ghost var trace: seq<Event>
    var errors: set<MatchId>              // rows whose last_error is set

    /** The stores and the table are where a run of the protocol has brought them. */
    ghost predicate Valid()
      reads this
    {
      ValidRun(config, Empty, trace) && Run(config, Empty, trace) == world
    }

    constructor (config: Config)
      ensures Valid() && this.config == config && world == Empty && errors == {}
    {
      this.config := config;
      this.world := Empty;
      this.trace := [];
      this.errors := {};
    }

    /** Anyone's next step: other archivers, downloads, the parser, a crash. */
    method Take(ev: Event)
      requires Valid() && Enabled(config, world, ev) && Timely(config, world, ev)
      modifies this`world, this`trace
      ensures Valid() && world == Step(config, old(world), ev)
    {
      RunSnoc(config, Empty, trace, ev);
      trace := trace + [ev];
      world := Step(config, world, ev);
    }

    /** The existence checks and the copy: false is the error that leaves the row alone. */
    method BringOver(worker: Worker, io: Io) returns (ready: bool)
      requires Valid() && worker in world.jobs && world.jobs[worker].stage.CheckDest?
      requires Located(config, world.jobs[worker].bucket, world.jobs[worker].key) in world.objects
      modifies this`world, this`trace
      ensures Valid() && world.rows == old(world.rows)
      ensures var j := old(world.jobs[worker]);
              var source, dest := Located(config, j.bucket, j.key), DestLoc(config, j.key);
              && (ready <==> io.sees && (dest in old(world.objects) || io.copies))
              && world.objects ==
                   (if ready && dest !in old(world.objects)
                    then old(world.objects)[dest := old(world.objects)[source]] else old(world.objects))
              && world.jobs ==
                   (if ready then old(world.jobs)[worker := j.(stage := MarkRow)] else old(world.jobs) - {worker})
    {
      var j := world.jobs[worker];
      var destExists := io.sees && DestLoc(config, j.key) in world.objects;
      Take(Acted(worker, destExists));
      if !destExists {
        var srcExists := io.sees && Located(config, j.bucket, j.key) in world.objects;
        Take(Acted(worker, srcExists));
        if !srcExists { return false; }
        Take(Acted(worker, io.copies));
        if !io.copies { return false; }
      }
      return true;
    }

    /** The UPDATE, then the delete unless the object is where it belongs already. */
    method Repoint(worker: Worker, io: Io) returns (did: bool)
      requires Valid() && worker in world.jobs && world.jobs[worker].stage.MarkRow?
      modifies this`world, this`trace
      ensures Valid() && (did <==> io.marks) && world.jobs == old(world.jobs) - {worker}
      ensures var j := old(world.jobs[worker]);
              && world.rows ==
                   (if did && j.matchId in old(world.rows) && !old(world.rows)[j.matchId].archived
                    then old(world.rows)[j.matchId := old(world.rows)[j.matchId]
                           .(bucket := config.destBucket, key := config.destKey(j.key), archived := true)]
                    else old(world.rows))
              && world.objects ==
                   (if did && io.deletes && !AlreadyThere(config, j.bucket, j.key)
                    then old(world.objects) - {Located(config, j.bucket, j.key)} else old(world.objects))
    {
      var j := world.jobs[worker];
      Take(Acted(worker, io.marks));
      if !io.marks { return false; }
      if !AlreadyThere(config, j.bucket, j.key) {
        Take(Acted(worker, io.deletes));
      }
      return true;
    }

    /** archiveOne; `did` is its answer, false its exception. */
    method ArchiveOne(worker: Worker, m: MatchId, io: Io) returns (did: bool)
      requires Valid() && ValidConfig(config) && Picks(world, worker, m)
      modifies this`world, this`trace
      ensures Valid() && PointsAtReplay(config, old(world), m)
      ensures world == AfterArchive(config, old(world), m, io)
      ensures did <==> world.rows[m].archived
    {
      ghost var before := world;
      NeverDangles(config, trace, m);
      var row := world.rows[m];
      var alreadyThere := AlreadyThere(config, row.bucket, row.key);
      GuardSeparates(config, row.bucket, row.key);
      Take(Picked(worker, m));
      if !alreadyThere {
        var ready := BringOver(worker, io);
        if !ready {
          assert world.jobs == before.jobs;
          return false;
        }
      }
      did := Repoint(worker, io);
      assert world.jobs == before.jobs;
    }

    /** One turn of the loop: only this row and this archiver's objects move. */
    method ArchiveNext(worker: Worker, m: MatchId, io: Io) returns (did: bool)
      requires Valid() && ValidConfig(config) && Picks(world, worker, m)
      modifies this`world, this`trace
      ensures Valid() && world.jobs == old(world.jobs) && world.rows.Keys == old(world.rows).Keys
      ensures forall k | k in world.rows && k != m :: world.rows[k] == old(world.rows)[k]
      ensures did <==> world.rows[m].archived
    {
      did := ArchiveOne(worker, m, io);
    }

    /** The rows of one batch, each once; fewer than `limit` only when there are no more. */
    method ListParsedUnarchived(limit: nat, matchId: Option<MatchId>) returns (batch: seq<MatchId>)
      ensures |batch| <= limit
      ensures forall i | 0 <= i < |batch| :: Unarchived(world, batch[i]) && Asked(matchId, batch[i])
      ensures matchId.Some? ==> forall i | 0 <= i < |batch| :: batch[i] == matchId.value
      ensures forall i, j | 0 <= i < j < |batch| :: batch[i] != batch[j]
      ensures |batch| < limit ==> forall m | Unarchived(world, m) && Asked(matchId, m) :: m in batch
    {
      batch := [];
      var todo := set m | m in world.rows && Unarchived(world, m) && Asked(matchId, m);
      while todo != {} && |batch| < limit
        invariant |batch| <= limit
        invariant forall i | 0 <= i < |batch| :: Unarchived(world, batch[i]) && Asked(matchId, batch[i])
        invariant forall i | 0 <= i < |batch| :: batch[i] !in todo
        invariant forall i, j | 0 <= i < j < |batch| :: batch[i] != batch[j]
        invariant forall m | m in todo :: Unarchived(world, m) && Asked(matchId, m)
        invariant forall m | Unarchived(world, m) && Asked(matchId, m) :: m in todo || m in batch
        decreases todo
      {
        var m := PickOne(todo);
        batch := batch + [m];
        todo := todo - {m};
      }
    }

    /** The loop over a batch: an error is written to the row it befell and the loop goes on. */
    method ArchiveBatch(worker: Worker, batch: seq<MatchId>, ios: nat -> Io)
      returns (archived: nat, ghost marked: set<MatchId>)
      requires Valid() && ValidConfig(config) && worker !in world.jobs
      requires forall i | 0 <= i < |batch| :: Unarchived(world, batch[i])
      requires forall i, j | 0 <= i < j < |batch| :: batch[i] != batch[j]
      modifies this
      ensures Valid() && Progress(old(world), world, batch, |batch|, marked) && archived == |marked|
      ensures errors == old(errors) - marked + (Ids(batch) - marked)
    {
      archived, marked := 0, {};
      for i := 0 to |batch|
        invariant Valid() && Progress(old(world), world, batch, i, marked) && archived == |marked|
        invariant errors == old(errors) - marked + (Ids(batch[..i]) - marked)
      {
        ghost var w := world;
        NotYet(batch, i);
        StillUnarchived(old(world), world, batch, i, marked);
        var did := ArchiveNext(worker, batch[i], ios(i));
        ProgressStep(old(world), w, world, batch, i, marked);
        ErrorsStep(old(errors), errors, batch, i, marked);
        if did {
          archived := archived + 1;
          errors := errors - {batch[i]};
          marked := marked + {batch[i]};
        } else {
          errors := errors + {batch[i]};
        }
      }
      assert batch[..|batch|] == batch;
    }

    /** runArchiveParsedReplays; `refused` tells that the destination was not accepted. */
    method RunArchiveParsedReplays(worker: Worker, refused: bool, ios: nat -> Io, batchSize: nat,
                                   matchId: Option<MatchId>)
      returns (archived: nat, skipped: bool, more: bool, ghost batch: seq<MatchId>, ghost marked: set<MatchId>)
      requires Valid() && ValidConfig(config) && worker !in world.jobs
      modifies this
      ensures Valid() && skipped == refused
      ensures refused ==> archived == 0 && !more && world == old(world) && errors == old(errors)
      ensures !refused ==>
                && |batch| <= (if matchId.Some? then 1 else batchSize)
                && (forall i | 0 <= i < |batch| :: Unarchived(old(world), batch[i]) && Asked(matchId, batch[i]))
                && (matchId.Some? ==> forall i | 0 <= i < |batch| :: batch[i] == matchId.value)
                && Progress(old(world), world, batch, |batch|, marked) && archived == |marked|
                && errors == old(errors) - marked + (Ids(batch) - marked)
                && (more <==> |batch| >= batchSize)
      ensures !refused && matchId.None? && !more ==>
                forall m | Unarchived(old(world), m) :: m in batch
    {
      archived, skipped, more, batch, marked := 0, refused, false, [], {};
      if refused { return; }
      var rows := ListParsedUnarchived(if matchId.Some? then 1 else batchSize, matchId);
      batch := rows;
      archived, marked := ArchiveBatch(worker, rows, ios);
      more := |rows| >= batchSize;
    }
  }

  lemma NotYet(batch: seq<MatchId>, i: nat)
    requires i < |batch| && forall j, k | 0 <= j < k < |batch| :: batch[j] != batch[k]
    ensures batch[i] !in batch[..i]
  {
  }

  lemma ErrorsStep(before: set<MatchId>, errors: set<MatchId>, batch: seq<MatchId>, i: nat, marked: set<MatchId>)
    requires i < |batch| && batch[i] !in batch[..i] && batch[i] !in marked
    requires errors == before - marked + (Ids(batch[..i]) - marked)
    ensures errors + {batch[i]} == before - marked + (Ids(batch[..i + 1]) - marked)
    ensures errors - {batch[i]}
            == before - (marked + {batch[i]}) + (Ids(batch[..i + 1]) - (marked + {batch[i]}))
  {
    assert batch[..i + 1] == batch[..i] + [batch[i]];
  }
}
