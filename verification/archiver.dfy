/**
 * The cold-storage archiver (packages/shared/src/jobs/archive-parsed-replays.ts) as a state
 * machine: any number of archivers, each taking one effect at a time, any of them crashing
 * between two effects, while replays are downloaded again or found again
 * (packages/worker/src/jobs/download-replay.ts, packages/shared/src/jobs/adopt-replay-object.ts). A
 * bucket name stands for one store, and object writes, copies and deletes are atomic.
 */
module Archiver {
  import opened Wrappers

  type MatchId = nat
  type Worker = nat

  datatype Loc = Loc(bucket: string, key: string)

  /** The content of an object: one replay of one match. */
  datatype Replay = Replay(matchId: MatchId, salt: nat)

  /** A `match_replays` row that has an object; an empty `bucket` means the hot one. */
  datatype Row = Row(bucket: string, key: string, salt: nat, parsed: bool, archived: bool)

  /** What an archiver does next. */
  datatype Stage =
    | CheckDest      // ask whether the destination exists already
    | CheckSource    // it does not: ask for the source
    | CopyObject     // copy it over
    | MarkRow        // repoint the row
    | DeleteSource   // drop the source

  /** An archiver at work on a row it read: it keeps that reading. */
  datatype Job = Job(stage: Stage, matchId: MatchId, bucket: string, key: string)

  datatype World = World(rows: map<MatchId, Row>, objects: map<Loc, Replay>, jobs: map<Worker, Job>)

  /**
   * S3_BUCKET, the accepted destination bucket, and the functions that read bucket names and make
   * keys. The protocol uses only the laws of SettledDest.
   */
  datatype Config = Config(
    hot: string, destBucket: string,
    bucketOf: string -> string, destKey: string -> string, replayKey: (nat, nat) -> string)

  ghost predicate KeyLaws(c: Config) {
    && (forall key :: c.destKey(c.destKey(key)) == c.destKey(key))
    && (forall m1, s1, m2, s2 |
          c.destKey(c.replayKey(m1, s1)) == c.destKey(c.replayKey(m2, s2)) :: m1 == m2 && s1 == s2)
    && (forall m, s :: c.replayKey(m, s) != "")
  }

  function RawBucket(c: Config, bucket: string): string { if bucket == "" then c.hot else bucket }

  /** objectBucket(): where downloads go, and what they write into their row. */
  function HotText(c: Config): string { c.bucketOf(c.hot) }

  /** A row that names the hot bucket as downloads do is read as naming it. */
  predicate HotReadBack(c: Config) { c.bucketOf(RawBucket(c, HotText(c))) == HotText(c) }

  /** The same of the destination. */
  ghost predicate SettledDest(c: Config) {
    c.destBucket != "" && c.bucketOf(c.destBucket) == c.destBucket && KeyLaws(c)
  }

  ghost predicate ValidConfig(c: Config) { SettledDest(c) && HotReadBack(c) }

  /** The object a bucket and a key name. */
  function Located(c: Config, bucket: string, key: string): Loc { Loc(c.bucketOf(RawBucket(c, bucket)), key) }

  function DestLoc(c: Config, key: string): Loc { Loc(c.destBucket, c.destKey(key)) }

  /** sameObjectBucket and an unchanged key. */
  predicate AlreadyThere(c: Config, bucket: string, key: string) {
    var from := c.bucketOf(RawBucket(c, bucket));
    from != "" && from == c.bucketOf(c.destBucket) && key == c.destKey(key)
  }

  /** Where a row may be pointed: the hot bucket, by any name for it, or the archive. */
  datatype Place = Hot(bucket: string) | Cold

  function PlaceBucket(c: Config, p: Place): string { if p.Hot? then p.bucket else c.destBucket }

  function PlaceKey(c: Config, p: Place, r: Replay): string {
    var hotKey := c.replayKey(r.matchId, r.salt);
    if p.Hot? then hotKey else c.destKey(hotKey)
  }

  /** What the code writes for the hot bucket, or any other name that is read as it. */
  predicate IsHot(c: Config, bucket: string) {
    bucket == HotText(c) || c.bucketOf(RawBucket(c, bucket)) == HotText(c)
  }

  // ---- steps ----------------------------------------------------------------------------------

  datatype Event =
    | Stored(matchId: MatchId, salt: nat, bucket: string)   // a replay is downloaded to the hot bucket
    | Uploaded(matchId: MatchId)           // it is downloaded again: the object is written first
    | Relocated(matchId: MatchId, place: Place, parsed: bool)   // the row is pointed at a place the replay may have
    | Parsed(matchId: MatchId)
    | Picked(worker: Worker, matchId: MatchId)
    | Acted(worker: Worker, answer: bool)   // an archiver's next effect, and how it went
    | Crashed(worker: Worker)

  /** An existence check may miss an object but never invents one, and a copy needs its source. */
  predicate Possible(c: Config, w: World, j: Job) {
    match j.stage
    case CheckDest => DestLoc(c, j.key) in w.objects
    case CheckSource => Located(c, j.bucket, j.key) in w.objects
    case CopyObject => Located(c, j.bucket, j.key) in w.objects
    case _ => true
  }

  predicate Enabled(c: Config, w: World, ev: Event) {
    match ev
    case Stored(m, _, bucket) => m !in w.rows && IsHot(c, bucket)
    case Uploaded(m) => m in w.rows
    case Relocated(m, place, _) => m in w.rows && (place.Hot? ==> IsHot(c, place.bucket))
    case Parsed(m) => m in w.rows
    case Picked(worker, m) =>
      worker !in w.jobs && m in w.rows && w.rows[m].parsed && !w.rows[m].archived && w.rows[m].key != ""
    case Acted(worker, answer) =>
      && worker in w.jobs
      && (answer ==> Possible(c, w, w.jobs[worker]))
    case Crashed(worker) => worker in w.jobs
  }

  function Next(w: World, worker: Worker, stage: Stage): World
    requires worker in w.jobs
  {
    w.(jobs := w.jobs[worker := w.jobs[worker].(stage := stage)])
  }

  function Ended(w: World, worker: Worker): World { w.(jobs := w.jobs - {worker}) }

  /** markReplayArchived: only a row that is not archived yet is repointed. */
  function Marked(c: Config, row: Row, key: string): Row {
    if row.archived then row
    else row.(bucket := c.destBucket, key := c.destKey(key), archived := true)
  }

  function Copied(c: Config, w: World, worker: Worker): World
    requires worker in w.jobs && Located(c, w.jobs[worker].bucket, w.jobs[worker].key) in w.objects
  {
    var j := w.jobs[worker];
    Next(w.(objects := w.objects[DestLoc(c, j.key) := w.objects[Located(c, j.bucket, j.key)]]), worker, MarkRow)
  }

  function MarkedRows(c: Config, w: World, j: Job): World {
    if j.matchId in w.rows then w.(rows := w.rows[j.matchId := Marked(c, w.rows[j.matchId], j.key)]) else w
  }

  function Repointed(c: Config, w: World, worker: Worker): World
    requires worker in w.jobs
  {
    var j := w.jobs[worker];
    var marked := MarkedRows(c, w, j);
    if AlreadyThere(c, j.bucket, j.key) then Ended(marked, worker) else Next(marked, worker, DeleteSource)
  }

  function Deleted(c: Config, w: World, worker: Worker): World
    requires worker in w.jobs
  {
    var j := w.jobs[worker];
    Ended(w.(objects := w.objects - {Located(c, j.bucket, j.key)}), worker)
  }

  function Act(c: Config, w: World, worker: Worker, answer: bool): World
    requires Enabled(c, w, Acted(worker, answer))
  {
    match w.jobs[worker].stage
    case CheckDest => Next(w, worker, if answer then MarkRow else CheckSource)
    case CheckSource => if answer then Next(w, worker, CopyObject) else Ended(w, worker)
    case CopyObject => if answer then Copied(c, w, worker) else Ended(w, worker)
    case MarkRow => if answer then Repointed(c, w, worker) else Ended(w, worker)
    case DeleteSource => if answer then Deleted(c, w, worker) else Ended(w, worker)
  }

  /** What the row of `m` becomes; only a cold place leaves the archive mark as it is. */
  function RelocatedRow(c: Config, w: World, m: MatchId, place: Place, parsed: bool): Row
    requires m in w.rows
  {
    var r := w.rows[m];
    Row(PlaceBucket(c, place), PlaceKey(c, place, Replay(m, r.salt)), r.salt, parsed, place.Cold? && r.archived)
  }

  function Step(c: Config, w: World, ev: Event): World
    requires Enabled(c, w, ev)
  {
    match ev
    case Stored(m, salt, bucket) =>
      var key := c.replayKey(m, salt);
      w.(rows := w.rows[m := Row(bucket, key, salt, false, false)],
         objects := w.objects[Located(c, "", key) := Replay(m, salt)])
    case Uploaded(m) =>
      var r := Replay(m, w.rows[m].salt);
      w.(objects := w.objects[Located(c, "", c.replayKey(m, r.salt)) := r])
    case Relocated(m, place, parsed) => w.(rows := w.rows[m := RelocatedRow(c, w, m, place, parsed)])
    case Parsed(m) => w.(rows := w.rows[m := w.rows[m].(parsed := true)])
    case Picked(worker, m) =>
      var r := w.rows[m];
      var stage := if AlreadyThere(c, r.bucket, r.key) then MarkRow else CheckDest;
      w.(jobs := w.jobs[worker := Job(stage, m, r.bucket, r.key)])
    case Acted(worker, answer) => Act(c, w, worker, answer)
    case Crashed(worker) => Ended(w, worker)
  }

  /** A delete of this place is what some archiver does next. */
  predicate DeletePending(c: Config, w: World, at: Loc) {
    exists worker :: worker in w.jobs && w.jobs[worker].stage.DeleteSource?
                     && Located(c, w.jobs[worker].bucket, w.jobs[worker].key) == at
  }

  /** A row is pointed at a place only while its object is there and about to stay. */
  predicate Timely(c: Config, w: World, ev: Event)
    requires Enabled(c, w, ev)
  {
    ev.Relocated? ==>
      var at := RowLoc(c, RelocatedRow(c, w, ev.matchId, ev.place, ev.parsed));
      at in w.objects && !DeletePending(c, w, at)
  }

  predicate ValidRun(c: Config, w: World, evs: seq<Event>)
    decreases |evs|
  {
    evs == [] ||
    (Enabled(c, w, evs[0]) && Timely(c, w, evs[0]) && ValidRun(c, Step(c, w, evs[0]), evs[1..]))
  }

  function Run(c: Config, w: World, evs: seq<Event>): World
    requires ValidRun(c, w, evs)
    decreases |evs|
  {
    if evs == [] then w else Run(c, Step(c, w, evs[0]), evs[1..])
  }

  const Empty := World(map[], map[], map[])

  // ---- what every step keeps ------------------------------------------------------------------

  /** A key names one place in the archive; it is the place of this replay. */
  predicate KeyOf(c: Config, key: string, r: Replay) {
    c.destKey(key) == c.destKey(c.replayKey(r.matchId, r.salt))
  }

  function RowLoc(c: Config, row: Row): Loc { Located(c, row.bucket, row.key) }

  /** The row names an existing object, and it is the row's own replay. */
  predicate PointsAtReplay(c: Config, w: World, m: MatchId)
    requires m in w.rows
  {
    var at := RowLoc(c, w.rows[m]);
    at in w.objects && w.objects[at] == Replay(m, w.rows[m].salt)
  }

  /** An archived row is in the archive. */
  predicate RowOk(c: Config, w: World, m: MatchId)
    requires m in w.rows
  {
    && KeyOf(c, w.rows[m].key, Replay(m, w.rows[m].salt)) && PointsAtReplay(c, w, m)
    && (w.rows[m].archived ==> RowLoc(c, w.rows[m]) == DestLoc(c, w.rows[m].key))
  }

  /** An archiver read a key of its match; what it is about to do next cannot hurt. */
  predicate JobOk(c: Config, w: World, j: Job) {
    && j.matchId in w.rows
    && KeyOf(c, j.key, Replay(j.matchId, w.rows[j.matchId].salt))
    && (j.stage.MarkRow? ==> DestLoc(c, j.key) in w.objects)
    && (!j.stage.MarkRow? ==> !AlreadyThere(c, j.bucket, j.key))
    && (j.stage.DeleteSource? ==> RowLoc(c, w.rows[j.matchId]) != Located(c, j.bucket, j.key))
  }

  ghost predicate Inv(c: Config, w: World) {
    && (forall m | m in w.rows :: RowOk(c, w, m))
    && (forall at | at in w.objects :: KeyOf(c, at.key, w.objects[at]))
    && (forall worker | worker in w.jobs :: JobOk(c, w, w.jobs[worker]))
  }

  // ---- places ---------------------------------------------------------------------------------

  lemma KeyNamesOneReplay(c: Config, key1: string, r1: Replay, key2: string, r2: Replay)
    requires KeyLaws(c) && KeyOf(c, key1, r1) && KeyOf(c, key2, r2) && c.destKey(key1) == c.destKey(key2)
    ensures r1 == r2
  {
  }

  lemma DestKeyIsOwn(c: Config, key: string, r: Replay)
    requires KeyLaws(c) && KeyOf(c, key, r)
    ensures KeyOf(c, c.destKey(key), r)
  {
  }

  /** The delete guard: a source that is not the destination names another object. */
  lemma GuardSeparates(c: Config, bucket: string, key: string)
    requires SettledDest(c)
    ensures AlreadyThere(c, bucket, key) <==> Located(c, bucket, key) == DestLoc(c, key)
  {
  }

  /** A destination repeated is the same destination. */
  lemma DestOfDest(c: Config, key: string)
    requires SettledDest(c)
    ensures DestLoc(c, c.destKey(key)) == DestLoc(c, key)
    ensures Located(c, c.destBucket, c.destKey(key)) == DestLoc(c, key)
  {
  }

  lemma SameDestForSameReplay(c: Config, key1: string, key2: string, r: Replay)
    requires KeyOf(c, key1, r) && KeyOf(c, key2, r)
    ensures DestLoc(c, key1) == DestLoc(c, key2)
  {
  }

  // ---- each effect ----------------------------------------------------------------------------

  /** Writing a replay's own object somewhere leaves every other object and every row as they were. */
  lemma WriteKeepsRows(c: Config, w: World, at: Loc, r: Replay, m: MatchId)
    requires KeyLaws(c) && Inv(c, w) && KeyOf(c, at.key, r) && m in w.rows
    ensures PointsAtReplay(c, w.(objects := w.objects[at := r]), m)
  {
    if RowLoc(c, w.rows[m]) == at {
      KeyNamesOneReplay(c, at.key, r, at.key, w.objects[at]);
    }
  }

  lemma WriteKeepsJob(c: Config, w: World, w': World, at: Loc, r: Replay, j: Job)
    requires JobOk(c, w, j) && j.matchId in w'.rows && w'.rows[j.matchId] == w.rows[j.matchId]
    requires w'.objects == w.objects[at := r]
    ensures JobOk(c, w', j)
  {
  }

  lemma HotIsOnePlace(c: Config, bucket: string, key: string)
    requires HotReadBack(c) && IsHot(c, bucket)
    ensures Located(c, bucket, key) == Located(c, "", key)
  {
  }

  lemma StoredRowOk(c: Config, w: World, m: MatchId, salt: nat, bucket: string, k: MatchId)
    requires ValidConfig(c) && Inv(c, w) && Enabled(c, w, Stored(m, salt, bucket))
    requires k in w.rows || k == m
    ensures RowOk(c, Step(c, w, Stored(m, salt, bucket)), k)
  {
    if k == m {
      HotIsOnePlace(c, bucket, c.replayKey(m, salt));
    } else {
      assert RowOk(c, w, k);
      WriteKeepsRows(c, w, Located(c, "", c.replayKey(m, salt)), Replay(m, salt), k);
    }
  }

  lemma StoredKeepsJob(c: Config, w: World, m: MatchId, salt: nat, bucket: string, worker: Worker)
    requires Inv(c, w) && Enabled(c, w, Stored(m, salt, bucket)) && worker in w.jobs
    ensures JobOk(c, Step(c, w, Stored(m, salt, bucket)), w.jobs[worker])
  {
    assert JobOk(c, w, w.jobs[worker]);
    WriteKeepsJob(c, w, Step(c, w, Stored(m, salt, bucket)), Located(c, "", c.replayKey(m, salt)),
                  Replay(m, salt), w.jobs[worker]);
  }

  lemma StoredKeeps(c: Config, w: World, m: MatchId, salt: nat, bucket: string)
    requires ValidConfig(c) && Inv(c, w) && Enabled(c, w, Stored(m, salt, bucket))
    ensures Inv(c, Step(c, w, Stored(m, salt, bucket)))
  {
    var w' := Step(c, w, Stored(m, salt, bucket));
    forall k | k in w'.rows ensures RowOk(c, w', k) { StoredRowOk(c, w, m, salt, bucket, k); }
    forall v | v in w'.jobs ensures JobOk(c, w', w'.jobs[v]) { StoredKeepsJob(c, w, m, salt, bucket, v); }
  }

  lemma UploadedKeeps(c: Config, w: World, m: MatchId)
    requires SettledDest(c) && Inv(c, w) && m in w.rows
    ensures Inv(c, Step(c, w, Uploaded(m)))
  {
    var w' := Step(c, w, Uploaded(m));
    var r := Replay(m, w.rows[m].salt);
    var at := Located(c, "", c.replayKey(m, r.salt));
    forall k | k in w'.rows ensures RowOk(c, w', k) {
      assert RowOk(c, w, k);
      WriteKeepsRows(c, w, at, r, k);
    }
    forall v | v in w'.jobs ensures JobOk(c, w', w'.jobs[v]) {
      WriteKeepsJob(c, w, w', at, r, w.jobs[v]);
    }
  }

  lemma RelocatedKey(c: Config, w: World, m: MatchId, place: Place, parsed: bool)
    requires SettledDest(c) && m in w.rows
    ensures var row := RelocatedRow(c, w, m, place, parsed);
            && KeyOf(c, row.key, Replay(m, row.salt))
            && (place.Cold? ==> RowLoc(c, row) == DestLoc(c, row.key))
  {
    DestOfDest(c, c.replayKey(m, w.rows[m].salt));
  }

  lemma RelocatedRowOk(c: Config, w: World, m: MatchId, place: Place, parsed: bool)
    requires SettledDest(c) && Inv(c, w) && Enabled(c, w, Relocated(m, place, parsed))
    requires RowLoc(c, RelocatedRow(c, w, m, place, parsed)) in w.objects
    ensures RowOk(c, Step(c, w, Relocated(m, place, parsed)), m)
  {
    var row := RelocatedRow(c, w, m, place, parsed);
    var at := RowLoc(c, row);
    RelocatedKey(c, w, m, place, parsed);
    assert KeyOf(c, at.key, w.objects[at]);
    KeyNamesOneReplay(c, at.key, w.objects[at], row.key, Replay(m, row.salt));
  }

  lemma RelocationKeepsRow(c: Config, w: World, m: MatchId, place: Place, parsed: bool, k: MatchId)
    requires Inv(c, w) && Enabled(c, w, Relocated(m, place, parsed)) && k in w.rows && k != m
    ensures RowOk(c, Step(c, w, Relocated(m, place, parsed)), k)
  {
    assert RowOk(c, w, k);
  }

  lemma RelocationKeepsJob(c: Config, w: World, m: MatchId, place: Place, parsed: bool, worker: Worker)
    requires Inv(c, w) && Enabled(c, w, Relocated(m, place, parsed)) && Timely(c, w, Relocated(m, place, parsed))
    requires worker in w.jobs
    ensures JobOk(c, Step(c, w, Relocated(m, place, parsed)), w.jobs[worker])
  {
    assert JobOk(c, w, w.jobs[worker]);
  }

  lemma TimelyRelocationKeeps(c: Config, w: World, m: MatchId, place: Place, parsed: bool)
    requires SettledDest(c) && Inv(c, w) && Enabled(c, w, Relocated(m, place, parsed))
    requires Timely(c, w, Relocated(m, place, parsed))
    ensures Inv(c, Step(c, w, Relocated(m, place, parsed)))
  {
    var w' := Step(c, w, Relocated(m, place, parsed));
    RelocatedRowOk(c, w, m, place, parsed);
    forall k | k in w'.rows ensures RowOk(c, w', k) {
      if k != m { RelocationKeepsRow(c, w, m, place, parsed, k); }
    }
    forall v | v in w'.jobs ensures JobOk(c, w', w'.jobs[v]) {
      RelocationKeepsJob(c, w, m, place, parsed, v);
    }
  }

  /**
   * Pointing a row at a place keeps everything safe exactly when its object is there and no archiver
   * is about to delete it.
   */
  lemma RelocationKeepsIffTimely(c: Config, w: World, m: MatchId, place: Place, parsed: bool)
    requires SettledDest(c) && Inv(c, w) && Enabled(c, w, Relocated(m, place, parsed))
    ensures Inv(c, Step(c, w, Relocated(m, place, parsed))) <==> Timely(c, w, Relocated(m, place, parsed))
  {
    var w' := Step(c, w, Relocated(m, place, parsed));
    var at := RowLoc(c, w'.rows[m]);
    if Timely(c, w, Relocated(m, place, parsed)) {
      TimelyRelocationKeeps(c, w, m, place, parsed);
    } else if Inv(c, w') {
      assert RowOk(c, w', m);
      var worker :| worker in w.jobs && w.jobs[worker].stage.DeleteSource?
                    && Located(c, w.jobs[worker].bucket, w.jobs[worker].key) == at;
      PendingDeleteIsOwn(c, w, w', worker, m);
    }
  }

  /** A pending delete of a row's place belongs to an archiver of that match, and then the row is not safe. */
  lemma PendingDeleteIsOwn(c: Config, w: World, w': World, worker: Worker, m: MatchId)
    requires SettledDest(c) && Inv(c, w) && worker in w.jobs && w'.jobs == w.jobs && m in w'.rows
    requires w.jobs[worker].stage.DeleteSource?
    requires Located(c, w.jobs[worker].bucket, w.jobs[worker].key) == RowLoc(c, w'.rows[m])
    ensures !Inv(c, w')
  {
    if Inv(c, w') {
      var j := w'.jobs[worker];
      assert JobOk(c, w', j) && RowOk(c, w', m);
      KeyNamesOneReplay(c, j.key, Replay(j.matchId, w'.rows[j.matchId].salt), j.key, Replay(m, w'.rows[m].salt));
    }
  }

  /** After an untimely one, the delete that was pending leaves the row without its object. */
  lemma LateDeleteDangles(c: Config, w: World, worker: Worker, m: MatchId, place: Place, parsed: bool)
    requires Enabled(c, w, Relocated(m, place, parsed))
    requires worker in w.jobs && w.jobs[worker].stage.DeleteSource?
    requires Located(c, w.jobs[worker].bucket, w.jobs[worker].key)
             == RowLoc(c, RelocatedRow(c, w, m, place, parsed))
    ensures var w' := Step(c, w, Relocated(m, place, parsed));
            Enabled(c, w', Acted(worker, true)) && m in Step(c, w', Acted(worker, true)).rows
            && !PointsAtReplay(c, Step(c, w', Acted(worker, true)), m)
  {
  }

  lemma PickedKeeps(c: Config, w: World, worker: Worker, m: MatchId)
    requires SettledDest(c) && Inv(c, w) && Enabled(c, w, Picked(worker, m))
    ensures Inv(c, Step(c, w, Picked(worker, m)))
  {
    var w' := Step(c, w, Picked(worker, m));
    assert RowOk(c, w, m);
    GuardSeparates(c, w.rows[m].bucket, w.rows[m].key);
    forall k | k in w'.rows ensures RowOk(c, w', k) {
      assert RowOk(c, w, k);
    }
    forall v | v in w'.jobs ensures JobOk(c, w', w'.jobs[v]) {
      assert v != worker ==> JobOk(c, w, w.jobs[v]);
    }
  }

  lemma CopyKeeps(c: Config, w: World, worker: Worker)
    requires SettledDest(c) && Inv(c, w) && worker in w.jobs && w.jobs[worker].stage.CopyObject?
    requires Located(c, w.jobs[worker].bucket, w.jobs[worker].key) in w.objects
    ensures Inv(c, Copied(c, w, worker))
  {
    var w', j := Copied(c, w, worker), w.jobs[worker];
    var source := Located(c, j.bucket, j.key);
    var r := w.objects[source];
    assert KeyOf(c, source.key, r);
    DestKeyIsOwn(c, j.key, r);
    forall m | m in w'.rows ensures RowOk(c, w', m) {
      assert RowOk(c, w, m);
      WriteKeepsRows(c, w, DestLoc(c, j.key), r, m);
    }
    forall v | v in w'.jobs ensures JobOk(c, w', w'.jobs[v]) { CopyKeepsJob(c, w, worker, v); }
  }

  lemma CopyKeepsJob(c: Config, w: World, worker: Worker, v: Worker)
    requires Inv(c, w) && worker in w.jobs && w.jobs[worker].stage.CopyObject? && v in w.jobs
    requires Located(c, w.jobs[worker].bucket, w.jobs[worker].key) in w.objects
    ensures JobOk(c, Copied(c, w, worker), Copied(c, w, worker).jobs[v])
  {
    assert JobOk(c, w, w.jobs[v]);
  }

  lemma MarkedRowOk(c: Config, w: World, j: Job)
    requires SettledDest(c) && Inv(c, w) && JobOk(c, w, j) && j.stage.MarkRow?
    ensures var row := Marked(c, w.rows[j.matchId], j.key);
            && KeyOf(c, row.key, Replay(j.matchId, row.salt))
            && RowLoc(c, row) in w.objects && w.objects[RowLoc(c, row)] == Replay(j.matchId, row.salt)
            && RowLoc(c, row) == DestLoc(c, j.key)
  {
    var row := w.rows[j.matchId];
    var at, r := DestLoc(c, j.key), Replay(j.matchId, row.salt);
    assert RowOk(c, w, j.matchId);
    DestKeyIsOwn(c, j.key, r);
    DestOfDest(c, j.key);
    KeyNamesOneReplay(c, at.key, r, at.key, w.objects[at]);
  }

  lemma MarkKeepsReading(c: Config, w: World, j: Job, other: Job)
    requires SettledDest(c) && Inv(c, w) && JobOk(c, w, j) && j.stage.MarkRow? && JobOk(c, w, other)
    ensures var w' := MarkedRows(c, w, j);
            && other.matchId in w'.rows && w'.rows[other.matchId].salt == w.rows[other.matchId].salt
            && RowLoc(c, w'.rows[j.matchId]) == DestLoc(c, j.key)
            && (other.matchId != j.matchId ==> w'.rows[other.matchId] == w.rows[other.matchId])
            && (other.matchId == j.matchId && !AlreadyThere(c, other.bucket, other.key) ==>
                  RowLoc(c, w'.rows[j.matchId]) != Located(c, other.bucket, other.key))
  {
    MarkedRowOk(c, w, j);
    GuardSeparates(c, other.bucket, other.key);
    if other.matchId == j.matchId {
      SameDestForSameReplay(c, j.key, other.key, Replay(j.matchId, w.rows[j.matchId].salt));
    }
  }

  /** What another archiver read and what it is about to do stays right after the UPDATE. */
  lemma MarkKeepsOther(c: Config, w: World, j: Job, other: Job)
    requires SettledDest(c) && Inv(c, w) && JobOk(c, w, j) && j.stage.MarkRow? && JobOk(c, w, other)
    ensures JobOk(c, MarkedRows(c, w, j), other)
  {
    MarkKeepsReading(c, w, j, other);
  }

  /** So does what this one goes on to do. */
  lemma MarkKeepsOwn(c: Config, w: World, j: Job)
    requires SettledDest(c) && Inv(c, w) && JobOk(c, w, j) && j.stage.MarkRow? && !AlreadyThere(c, j.bucket, j.key)
    ensures JobOk(c, MarkedRows(c, w, j), j.(stage := DeleteSource))
  {
    MarkKeepsReading(c, w, j, j);
  }

  lemma MarkKeepsJob(c: Config, w: World, worker: Worker, v: Worker)
    requires SettledDest(c) && Inv(c, w) && worker in w.jobs && w.jobs[worker].stage.MarkRow?
    requires v in Repointed(c, w, worker).jobs
    ensures JobOk(c, Repointed(c, w, worker), Repointed(c, w, worker).jobs[v])
  {
    var j := w.jobs[worker];
    assert JobOk(c, w, j) && JobOk(c, w, w.jobs[v]);
    if v == worker {
      MarkKeepsOwn(c, w, j);
    } else {
      MarkKeepsOther(c, w, j, w.jobs[v]);
    }
    JobsDoNotMatter(c, MarkedRows(c, w, j), Repointed(c, w, worker), Repointed(c, w, worker).jobs[v]);
  }

  lemma JobsDoNotMatter(c: Config, w: World, w': World, j: Job)
    requires JobOk(c, w, j) && w'.rows == w.rows && w'.objects == w.objects
    ensures JobOk(c, w', j)
  {
  }

  lemma MarkKeepsRow(c: Config, w: World, worker: Worker, m: MatchId)
    requires SettledDest(c) && Inv(c, w) && worker in w.jobs && w.jobs[worker].stage.MarkRow? && m in w.rows
    ensures m in Repointed(c, w, worker).rows && RowOk(c, Repointed(c, w, worker), m)
  {
    assert JobOk(c, w, w.jobs[worker]) && RowOk(c, w, m);
    MarkedRowOk(c, w, w.jobs[worker]);
  }

  lemma MarkKeeps(c: Config, w: World, worker: Worker)
    requires SettledDest(c) && Inv(c, w) && worker in w.jobs && w.jobs[worker].stage.MarkRow?
    ensures Inv(c, Repointed(c, w, worker))
  {
    var w' := Repointed(c, w, worker);
    forall m | m in w'.rows ensures RowOk(c, w', m) { MarkKeepsRow(c, w, worker, m); }
    forall v | v in w'.jobs ensures JobOk(c, w', w'.jobs[v]) {
      MarkKeepsJob(c, w, worker, v);
    }
  }

  /** The source an archiver deletes is no row's object. */
  lemma DeletedSourceIsNoRows(c: Config, w: World, j: Job, m: MatchId)
    requires SettledDest(c) && Inv(c, w) && JobOk(c, w, j) && j.stage.DeleteSource? && m in w.rows
    ensures RowLoc(c, w.rows[m]) != Located(c, j.bucket, j.key)
  {
    GuardSeparates(c, j.bucket, j.key);
    assert RowOk(c, w, m);
    if m != j.matchId && w.rows[m].key == j.key {
      KeyNamesOneReplay(c, j.key, Replay(j.matchId, w.rows[j.matchId].salt), j.key, Replay(m, w.rows[m].salt));
    }
  }

  /** Nor is it the destination of any archiver. */
  lemma DeletedSourceIsNoDest(c: Config, w: World, j: Job, other: Job)
    requires SettledDest(c) && Inv(c, w) && JobOk(c, w, j) && j.stage.DeleteSource? && JobOk(c, w, other)
    ensures DestLoc(c, other.key) != Located(c, j.bucket, j.key)
  {
    GuardSeparates(c, j.bucket, j.key);
    DestOfDest(c, other.key);
  }

  lemma DeleteKeepsRow(c: Config, w: World, worker: Worker, m: MatchId)
    requires SettledDest(c) && Inv(c, w) && worker in w.jobs && w.jobs[worker].stage.DeleteSource?
    requires m in w.rows
    ensures RowOk(c, Deleted(c, w, worker), m)
  {
    assert JobOk(c, w, w.jobs[worker]) && RowOk(c, w, m);
    DeletedSourceIsNoRows(c, w, w.jobs[worker], m);
  }

  lemma DeleteKeepsJob(c: Config, w: World, worker: Worker, v: Worker)
    requires SettledDest(c) && Inv(c, w) && worker in w.jobs && w.jobs[worker].stage.DeleteSource?
    requires v in w.jobs && v != worker
    ensures JobOk(c, Deleted(c, w, worker), w.jobs[v])
  {
    assert JobOk(c, w, w.jobs[worker]) && JobOk(c, w, w.jobs[v]);
    DeletedSourceIsNoDest(c, w, w.jobs[worker], w.jobs[v]);
  }

  lemma DeleteKeeps(c: Config, w: World, worker: Worker)
    requires SettledDest(c) && Inv(c, w) && worker in w.jobs && w.jobs[worker].stage.DeleteSource?
    ensures Inv(c, Deleted(c, w, worker))
  {
    var w' := Deleted(c, w, worker);
    forall m | m in w'.rows ensures RowOk(c, w', m) { DeleteKeepsRow(c, w, worker, m); }
    forall v | v in w'.jobs ensures JobOk(c, w', w'.jobs[v]) { DeleteKeepsJob(c, w, worker, v); }
  }

  /** Effects that touch neither rows nor objects: checks, failures and crashes. */
  lemma QuietKeeps(c: Config, w: World, w': World, worker: Worker)
    requires Inv(c, w) && w'.rows == w.rows && w'.objects == w.objects
    requires w'.jobs.Keys <= w.jobs.Keys
    requires forall v | v in w'.jobs && v != worker :: w'.jobs[v] == w.jobs[v]
    requires worker in w'.jobs ==> JobOk(c, w', w'.jobs[worker])
    ensures Inv(c, w')
  {
    forall m | m in w'.rows ensures RowOk(c, w', m) {
      assert RowOk(c, w, m);
    }
    forall v | v in w'.jobs ensures JobOk(c, w', w'.jobs[v]) {
      assert JobOk(c, w, w.jobs[v]);
    }
  }

  lemma CheckedJobOk(c: Config, w: World, j: Job, stage: Stage)
    requires JobOk(c, w, j) && (j.stage.CheckDest? || j.stage.CheckSource?)
    requires stage.MarkRow? ==> DestLoc(c, j.key) in w.objects
    requires !stage.DeleteSource?
    ensures JobOk(c, w, j.(stage := stage))
  {
  }

  lemma CheckKeeps(c: Config, w: World, worker: Worker, answer: bool)
    requires Inv(c, w) && Enabled(c, w, Acted(worker, answer))
    requires var s := w.jobs[worker].stage; s.CheckDest? || s.CheckSource?
    ensures Inv(c, Act(c, w, worker, answer))
  {
    var w', j := Act(c, w, worker, answer), w.jobs[worker];
    assert JobOk(c, w, j);
    if worker in w'.jobs {
      CheckedJobOk(c, w, j, w'.jobs[worker].stage);
      JobsDoNotMatter(c, w, w', w'.jobs[worker]);
    }
    QuietKeeps(c, w, w', worker);
  }

  lemma ActKeeps(c: Config, w: World, worker: Worker, answer: bool)
    requires SettledDest(c) && Inv(c, w) && Enabled(c, w, Acted(worker, answer))
    ensures Inv(c, Act(c, w, worker, answer))
  {
    var stage := w.jobs[worker].stage;
    if stage.CheckDest? || stage.CheckSource? {
      CheckKeeps(c, w, worker, answer);
    } else if !answer {
      QuietKeeps(c, w, Ended(w, worker), worker);
    } else {
      match stage
      case CopyObject => CopyKeeps(c, w, worker);
      case MarkRow => MarkKeeps(c, w, worker);
      case DeleteSource => DeleteKeeps(c, w, worker);
    }
  }

  lemma ParsedKeeps(c: Config, w: World, m: MatchId)
    requires Inv(c, w) && m in w.rows
    ensures Inv(c, Step(c, w, Parsed(m)))
  {
    var w' := Step(c, w, Parsed(m));
    forall k | k in w'.rows ensures RowOk(c, w', k) { assert RowOk(c, w, k); }
    forall v | v in w'.jobs ensures JobOk(c, w', w'.jobs[v]) { assert JobOk(c, w, w.jobs[v]); }
  }

  lemma StepKeeps(c: Config, w: World, ev: Event)
    requires ValidConfig(c) && Inv(c, w) && Enabled(c, w, ev) && Timely(c, w, ev)
    ensures Inv(c, Step(c, w, ev))
  {
    match ev
    case Stored(m, salt, bucket) => StoredKeeps(c, w, m, salt, bucket);
    case Uploaded(m) => UploadedKeeps(c, w, m);
    case Relocated(m, place, parsed) => TimelyRelocationKeeps(c, w, m, place, parsed);
    case Parsed(m) => ParsedKeeps(c, w, m);
    case Picked(worker, m) => PickedKeeps(c, w, worker, m);
    case Acted(worker, answer) => ActKeeps(c, w, worker, answer);
    case Crashed(worker) => QuietKeeps(c, w, Ended(w, worker), worker);
  }

  // ---- whole runs -----------------------------------------------------------------------------

  lemma {:induction false} RunKeeps(c: Config, w: World, evs: seq<Event>)
    requires ValidConfig(c) && Inv(c, w) && ValidRun(c, w, evs)
    ensures Inv(c, Run(c, w, evs))
    decreases |evs|
  {
    if evs != [] {
      StepKeeps(c, w, evs[0]);
      RunKeeps(c, Step(c, w, evs[0]), evs[1..]);
    }
  }

  /**
   * However archivers interleave, fail and crash, and whatever is downloaded or found again in time,
   * every row names an existing object at every step, and it is that row's own replay.
   */
  lemma NeverDangles(c: Config, evs: seq<Event>, m: MatchId)
    requires ValidConfig(c) && ValidRun(c, Empty, evs) && m in Run(c, Empty, evs).rows
    ensures PointsAtReplay(c, Run(c, Empty, evs), m)
  {
    RunKeeps(c, Empty, evs);
    assert RowOk(c, Run(c, Empty, evs), m);
  }

  /** No delete that can happen hits the object of any row. */
  lemma DeletesHitNoRow(c: Config, evs: seq<Event>, worker: Worker, m: MatchId)
    requires ValidConfig(c) && ValidRun(c, Empty, evs)
    requires worker in Run(c, Empty, evs).jobs && Run(c, Empty, evs).jobs[worker].stage.DeleteSource?
    requires m in Run(c, Empty, evs).rows
    ensures var j := Run(c, Empty, evs).jobs[worker];
            Located(c, j.bucket, j.key) != RowLoc(c, Run(c, Empty, evs).rows[m])
  {
    RunKeeps(c, Empty, evs);
    var w := Run(c, Empty, evs);
    assert JobOk(c, w, w.jobs[worker]);
    DeletedSourceIsNoRows(c, w, w.jobs[worker], m);
  }
}
