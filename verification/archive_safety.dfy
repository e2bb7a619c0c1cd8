/**
 * When archiving is safe: the protocol's laws hold of the code's own keys, and of the hot and the
 * archive bucket's names exactly when they are read back as themselves.
 */
module ArchiveSafety {
  import opened ArchiveDest
  import opened Archiver
  import opened Decimal
  import opened ReplayKeys

  /** In every run, every row names its own replay's object. */
  ghost predicate Safe(c: Config) {
    forall evs, m | ValidRun(c, Empty, evs) && m in Run(c, Empty, evs).rows ::
      PointsAtReplay(c, Run(c, Empty, evs), m)
  }

  /** The archive is the hot bucket itself and no replay's key changes. */
  ghost predicate InPlace(c: Config) {
    && c.bucketOf(c.destBucket) == c.bucketOf(c.hot) != ""
    && forall m, s :: c.destKey(c.replayKey(m, s)) == c.replayKey(m, s)
  }

  // ---- in place: archiving only marks rows ----------------------------------------------------

  predicate InPlaceRow(c: Config, w: World, m: MatchId)
    requires m in w.rows
  {
    var r := w.rows[m];
    && r.key == c.replayKey(m, r.salt)
    && c.bucketOf(RawBucket(c, r.bucket)) == c.bucketOf(c.hot)
    && PointsAtReplay(c, w, m)
  }

  predicate InPlaceJob(c: Config, w: World, j: Job) {
    && j.stage.MarkRow? && AlreadyThere(c, j.bucket, j.key)
    && j.matchId in w.rows && w.rows[j.matchId].key == j.key
  }

  ghost predicate InPlaceInv(c: Config, w: World) {
    && (forall m | m in w.rows :: InPlaceRow(c, w, m))
    && (forall v | v in w.jobs :: InPlaceJob(c, w, w.jobs[v]))
  }

  /** Steps that keep the rows, and the objects of the rows. */
  lemma InPlaceQuiet(c: Config, w: World, w': World, worker: Worker)
    requires InPlaceInv(c, w) && w'.rows == w.rows && w'.objects == w.objects
    requires forall v | v in w'.jobs && v != worker :: v in w.jobs && w'.jobs[v] == w.jobs[v]
    requires worker in w'.jobs ==> InPlaceJob(c, w', w'.jobs[worker])
    ensures InPlaceInv(c, w')
  {
    forall m | m in w'.rows ensures InPlaceRow(c, w', m) { assert InPlaceRow(c, w, m); }
    forall v | v in w'.jobs ensures InPlaceJob(c, w', w'.jobs[v]) {
      assert v != worker ==> InPlaceJob(c, w, w.jobs[v]);
    }
  }

  lemma InPlaceStored(c: Config, w: World, m: MatchId, salt: nat, bucket: string)
    requires HotReadBack(c) && KeyLaws(c) && InPlace(c) && InPlaceInv(c, w) && Enabled(c, w, Stored(m, salt, bucket))
    ensures InPlaceInv(c, Step(c, w, Stored(m, salt, bucket)))
  {
    HotIsOnePlace(c, bucket, c.replayKey(m, salt));
    var w' := Step(c, w, Stored(m, salt, bucket));
    forall k | k in w'.rows ensures InPlaceRow(c, w', k) {
      if k != m {
        assert InPlaceRow(c, w, k);
        KeysDiffer(c, k, w.rows[k].salt, m, salt);
      }
    }
    forall v | v in w'.jobs ensures InPlaceJob(c, w', w'.jobs[v]) { assert InPlaceJob(c, w, w.jobs[v]); }
  }

  lemma InPlaceParsed(c: Config, w: World, m: MatchId)
    requires InPlaceInv(c, w) && m in w.rows
    ensures InPlaceInv(c, Step(c, w, Parsed(m)))
  {
    var w' := Step(c, w, Parsed(m));
    forall k | k in w'.rows ensures InPlaceRow(c, w', k) { assert InPlaceRow(c, w, k); }
    forall v | v in w'.jobs ensures InPlaceJob(c, w', w'.jobs[v]) { assert InPlaceJob(c, w, w.jobs[v]); }
  }

  lemma InPlaceMarked(c: Config, w: World, worker: Worker)
    requires c.destBucket != "" && InPlace(c) && InPlaceInv(c, w) && worker in w.jobs
    ensures InPlaceInv(c, Repointed(c, w, worker))
  {
    var w', j := Repointed(c, w, worker), w.jobs[worker];
    assert InPlaceJob(c, w, j);
    forall k | k in w'.rows ensures InPlaceRow(c, w', k) { assert InPlaceRow(c, w, k); }
    forall v | v in w'.jobs ensures InPlaceJob(c, w', w'.jobs[v]) { assert InPlaceJob(c, w, w.jobs[v]); }
  }

  lemma InPlaceUploaded(c: Config, w: World, m: MatchId)
    requires KeyLaws(c) && InPlace(c) && InPlaceInv(c, w) && m in w.rows
    ensures InPlaceInv(c, Step(c, w, Uploaded(m)))
  {
    var w' := Step(c, w, Uploaded(m));
    forall k | k in w'.rows ensures InPlaceRow(c, w', k) {
      assert InPlaceRow(c, w, k);
      if k != m {
        KeysDiffer(c, k, w.rows[k].salt, m, w.rows[m].salt);
      }
    }
    forall v | v in w'.jobs ensures InPlaceJob(c, w', w'.jobs[v]) { assert InPlaceJob(c, w, w.jobs[v]); }
  }

  lemma InPlaceRelocated(c: Config, w: World, m: MatchId, place: Place, parsed: bool)
    requires c.destBucket != "" && HotReadBack(c) && InPlace(c) && InPlaceInv(c, w)
    requires Enabled(c, w, Relocated(m, place, parsed))
    ensures InPlaceInv(c, Step(c, w, Relocated(m, place, parsed)))
  {
    var w' := Step(c, w, Relocated(m, place, parsed));
    forall k | k in w'.rows ensures InPlaceRow(c, w', k) { assert InPlaceRow(c, w, k); }
    forall v | v in w'.jobs ensures InPlaceJob(c, w', w'.jobs[v]) { assert InPlaceJob(c, w, w.jobs[v]); }
  }

  lemma InPlaceStep(c: Config, w: World, ev: Event)
    requires c.destBucket != "" && HotReadBack(c) && KeyLaws(c) && InPlace(c) && InPlaceInv(c, w) && Enabled(c, w, ev)
    ensures InPlaceInv(c, Step(c, w, ev))
  {
    match ev
    case Stored(m, salt, bucket) => InPlaceStored(c, w, m, salt, bucket);
    case Uploaded(m) => InPlaceUploaded(c, w, m);
    case Relocated(m, place, parsed) => InPlaceRelocated(c, w, m, place, parsed);
    case Parsed(m) => InPlaceParsed(c, w, m);
    case Picked(worker, m) =>
      assert InPlaceRow(c, w, m);
      InPlaceQuiet(c, w, Step(c, w, ev), worker);
    case Acted(worker, answer) =>
      assert InPlaceJob(c, w, w.jobs[worker]);
      if answer {
        InPlaceMarked(c, w, worker);
      } else {
        InPlaceQuiet(c, w, Ended(w, worker), worker);
      }
    case Crashed(worker) => InPlaceQuiet(c, w, Ended(w, worker), worker);
  }

  lemma KeysDiffer(c: Config, m1: nat, s1: nat, m2: nat, s2: nat)
    requires KeyLaws(c) && m1 != m2
    ensures c.replayKey(m1, s1) != c.replayKey(m2, s2)
  {
    var dest1, dest2 := c.destKey(c.replayKey(m1, s1)), c.destKey(c.replayKey(m2, s2));
  }

  lemma {:induction false} InPlaceRun(c: Config, w: World, evs: seq<Event>)
    requires c.destBucket != "" && HotReadBack(c) && KeyLaws(c) && InPlace(c) && InPlaceInv(c, w) && ValidRun(c, w, evs)
    ensures InPlaceInv(c, Run(c, w, evs))
    decreases |evs|
  {
    if evs != [] {
      InPlaceStep(c, w, evs[0]);
      InPlaceRun(c, Step(c, w, evs[0]), evs[1..]);
    }
  }

  // ---- an unsettled bucket loses a replay -----------------------------------------------------

  lemma RunCons(c: Config, w: World, ev: Event, rest: seq<Event>)
    requires Enabled(c, w, ev) && Timely(c, w, ev) && ValidRun(c, Step(c, w, ev), rest)
    ensures ValidRun(c, w, [ev] + rest) && Run(c, w, [ev] + rest) == Run(c, Step(c, w, ev), rest)
  {
    assert ([ev] + rest)[1..] == rest;
  }

  /** A row about to be archived, alone in the world. */
  function Waiting(c: Config, m: MatchId, salt: nat, stage: Stage): World {
    var key := c.replayKey(m, salt);
    World(map[m := Row(HotText(c), key, salt, true, false)],
          map[Located(c, HotText(c), key) := Replay(m, salt)],
          map[0 := Job(stage, m, HotText(c), key)])
  }

  lemma Prologue(c: Config, m: MatchId, salt: nat)
    requires HotReadBack(c) && KeyLaws(c) && !AlreadyThere(c, HotText(c), c.replayKey(m, salt))
    ensures var evs := [Stored(m, salt, HotText(c))] + ([Parsed(m)] + ([Picked(0, m)] + ([Acted(0, false)] + [])));
            ValidRun(c, Empty, evs) && Run(c, Empty, evs) == Waiting(c, m, salt, CheckSource)
  {
    var key := c.replayKey(m, salt);
    HotIsOnePlace(c, HotText(c), key);
    var w1 := Step(c, Empty, Stored(m, salt, HotText(c)));
    var w2 := Step(c, w1, Parsed(m));
    var w3 := Step(c, w2, Picked(0, m));
    assert w3 == Waiting(c, m, salt, CheckDest);
    RunCons(c, w3, Acted(0, false), []);
    RunCons(c, w2, Picked(0, m), [Acted(0, false)] + []);
    RunCons(c, w1, Parsed(m), [Picked(0, m)] + ([Acted(0, false)] + []));
    RunCons(c, Empty, Stored(m, salt, HotText(c)), [Parsed(m)] + ([Picked(0, m)] + ([Acted(0, false)] + [])));
  }

  lemma Epilogue(c: Config, m: MatchId, salt: nat)
    requires c.destBucket != "" && c.bucketOf(c.destBucket) != c.destBucket
    requires !AlreadyThere(c, HotText(c), c.replayKey(m, salt))
    ensures var w := Waiting(c, m, salt, CheckSource);
            var evs := [Acted(0, true)] + ([Acted(0, true)] + ([Acted(0, true)] + ([Acted(0, true)] + [])));
            && ValidRun(c, w, evs) && m in Run(c, w, evs).rows
            && !PointsAtReplay(c, Run(c, w, evs), m)
  {
    var act, w := Acted(0, true), Waiting(c, m, salt, CheckSource);
    var w1 := Step(c, w, act);
    var w2 := Step(c, w1, act);
    var w3 := Step(c, w2, act);
    RunCons(c, w3, act, []);
    RunCons(c, w2, act, [act] + []);
    RunCons(c, w1, act, [act] + ([act] + []));
    RunCons(c, w, act, [act] + ([act] + ([act] + [])));
  }

  lemma {:induction false} RunAppend(c: Config, w: World, evs: seq<Event>, more: seq<Event>)
    requires ValidRun(c, w, evs) && ValidRun(c, Run(c, w, evs), more)
    ensures ValidRun(c, w, evs + more) && Run(c, w, evs + more) == Run(c, Run(c, w, evs), more)
    decreases |evs|
  {
    if evs == [] {
      assert evs + more == more;
    } else {
      RunAppend(c, Step(c, w, evs[0]), evs[1..], more);
      assert (evs + more)[1..] == evs[1..] + more;
    }
  }

  lemma UnsettledLosesReplay(c: Config, m: MatchId, salt: nat) returns (evs: seq<Event>)
    requires c.destBucket != "" && HotReadBack(c) && KeyLaws(c) && c.bucketOf(c.destBucket) != c.destBucket
    requires !AlreadyThere(c, HotText(c), c.replayKey(m, salt))
    ensures ValidRun(c, Empty, evs) && m in Run(c, Empty, evs).rows
    ensures !PointsAtReplay(c, Run(c, Empty, evs), m)
  {
    Prologue(c, m, salt);
    Epilogue(c, m, salt);
    var before := [Stored(m, salt, HotText(c))] + ([Parsed(m)] + ([Picked(0, m)] + ([Acted(0, false)] + [])));
    var after := [Acted(0, true)] + ([Acted(0, true)] + ([Acted(0, true)] + ([Acted(0, true)] + [])));
    RunAppend(c, Empty, before, after);
    evs := before + after;
  }

  /** The archiver copies, repoints the row, and is about to delete the source. */
  lemma UpToDelete(c: Config, m: MatchId, salt: nat)
    requires c.destBucket != "" && !AlreadyThere(c, HotText(c), c.replayKey(m, salt))
    ensures var w := Waiting(c, m, salt, CheckSource);
            var evs := [Acted(0, true)] + ([Acted(0, true)] + ([Acted(0, true)] + []));
            && ValidRun(c, w, evs) && m in Run(c, w, evs).rows && Run(c, w, evs).rows[m].salt == salt
            && Run(c, w, evs).jobs == map[0 := Job(DeleteSource, m, HotText(c), c.replayKey(m, salt))]
  {
    var act, w := Acted(0, true), Waiting(c, m, salt, CheckSource);
    var w1 := Step(c, w, act);
    var w2 := Step(c, w1, act);
    RunCons(c, w2, act, []);
    RunCons(c, w1, act, [act] + []);
    RunCons(c, w, act, [act] + ([act] + []));
  }

  /**
   * Such a moment does come: a row pointed back at the hot object just before the archiver deletes
   * it is left without its replay.
   */
  lemma RelocationDuringArchive(c: Config, m: MatchId, salt: nat, parsed: bool) returns (evs: seq<Event>)
    requires ValidConfig(c) && !AlreadyThere(c, HotText(c), c.replayKey(m, salt))
    ensures ValidRun(c, Empty, evs) && Enabled(c, Run(c, Empty, evs), Relocated(m, Hot(HotText(c)), parsed))
    ensures var w' := Step(c, Run(c, Empty, evs), Relocated(m, Hot(HotText(c)), parsed));
            && Enabled(c, w', Acted(0, true)) && m in Step(c, w', Acted(0, true)).rows
            && !PointsAtReplay(c, Step(c, w', Acted(0, true)), m)
  {
    Prologue(c, m, salt);
    UpToDelete(c, m, salt);
    var before := [Stored(m, salt, HotText(c))] + ([Parsed(m)] + ([Picked(0, m)] + ([Acted(0, false)] + [])));
    var after := [Acted(0, true)] + ([Acted(0, true)] + ([Acted(0, true)] + []));
    RunAppend(c, Empty, before, after);
    evs := before + after;
    LateDeleteDangles(c, Run(c, Empty, evs), 0, m, Hot(HotText(c)), parsed);
  }

  /** A hot bucket that is not read back as itself loses the first replay downloaded to it. */
  lemma UnsettledHotLosesReplay(c: Config, m: MatchId, salt: nat)
    requires !HotReadBack(c)
    ensures var evs := [Stored(m, salt, HotText(c))];
            ValidRun(c, Empty, evs) && m in Run(c, Empty, evs).rows && !PointsAtReplay(c, Run(c, Empty, evs), m)
  {
    RunCons(c, Empty, Stored(m, salt, HotText(c)), []);
    assert [Stored(m, salt, HotText(c))] + [] == [Stored(m, salt, HotText(c))];
  }

  /** No run dangles exactly when both buckets are read back as themselves, or the hot one is and nothing moves. */
  lemma SafeIffSettled(c: Config)
    requires c.destBucket != "" && KeyLaws(c)
    ensures Safe(c) <==> HotReadBack(c) && (c.bucketOf(c.destBucket) == c.destBucket || InPlace(c))
  {
    if !HotReadBack(c) {
      UnsettledHotLosesReplay(c, 0, 0);
    } else if c.bucketOf(c.destBucket) == c.destBucket {
      forall evs, m | ValidRun(c, Empty, evs) && m in Run(c, Empty, evs).rows
        ensures PointsAtReplay(c, Run(c, Empty, evs), m)
      {
        NeverDangles(c, evs, m);
      }
    } else if InPlace(c) {
      forall evs, m | ValidRun(c, Empty, evs) && m in Run(c, Empty, evs).rows
        ensures PointsAtReplay(c, Run(c, Empty, evs), m)
      {
        InPlaceRun(c, Empty, evs);
        assert InPlaceRow(c, Run(c, Empty, evs), m);
      }
    } else {
      var m, s :| !AlreadyThere(c, HotText(c), c.replayKey(m, s));
      var evs := UnsettledLosesReplay(c, m, s);
    }
  }

  // ---- the code's own keys --------------------------------------------------------------------

  function ConfigFor(hot: string, dest: ArchiveDestination): Config {
    Config(hot, dest.bucket, BucketOf, key => JoinObjectPrefix(dest.prefix, key), ReplayObjectKey)
  }

  lemma CodeKeepsKeyLaws(hot: string, dest: ArchiveDestination)
    ensures KeyLaws(ConfigFor(hot, dest))
  {
    var c := ConfigFor(hot, dest);
    forall key ensures c.destKey(c.destKey(key)) == c.destKey(key) {
      JoinIsIdempotent(dest.prefix, key);
    }
    forall m1, s1, m2, s2 | c.destKey(c.replayKey(m1, s1)) == c.destKey(c.replayKey(m2, s2))
      ensures m1 == m2 && s1 == s2
    {
      ReplaysNeverCollide(dest.prefix, m1, s1, m2, s2);
    }
  }

  lemma PrefixOfBoth(q: string, head: string, k1: string, k2: string)
    requires head <= k1 && head <= k2 && |k1| > |head| && |k2| > |head| && k1[|head|] != k2[|head|]
    requires q <= k1 && q <= k2
    ensures q <= head
  {
  }

  lemma FolderEnd(q: string, head: string)
    requires q != "" && q <= head && q[|q| - 1] == '/'
    requires head != "" && '/' !in head[..|head| - 1]
    ensures q == head
  {
    var inner := head[..|head| - 1];
    assert head[|q| - 1] == q[|q| - 1];
    assert forall i | 0 <= i < |inner| :: head[i] == inner[i] && inner[i] in inner;
  }

  /** Two keys that part right after their folder have no other folder in common. */
  lemma CommonFolder(p: string, head: string, k1: string, k2: string)
    requires head <= k1 && head <= k2 && |k1| > |head| && |k2| > |head| && k1[|head|] != k2[|head|]
    requires head != "" && head[|head| - 1] == '/' && '/' !in head[..|head| - 1]
    requires p + "/" <= k1 && p + "/" <= k2
    ensures p + "/" == head
  {
    PrefixOfBoth(p + "/", head, k1, k2);
    FolderEnd(p + "/", head);
  }

  /** Neither of two such keys lies under the other. */
  lemma NotItsOwnFolder(p: string, k1: string, k2: string)
    requires |k1| > |HEAD| && |k2| > |HEAD| && k1[|HEAD|] != k2[|HEAD|]
    requires Under(p, k1) && Under(p, k2)
    ensures p + "/" <= k1 && p + "/" <= k2
  {
  }

  lemma JoinKeyFixes(p: string, k: string)
    ensures JoinKey(p, k) == k <==> p == "" || Under(p, k)
  {
    assert |p + "/" + k| > |k|;
  }

  lemma HeadIsOneFolder()
    ensures HEAD[|HEAD| - 1] == '/' && '/' !in HEAD[..|HEAD| - 1]
  {
  }

  lemma UnderHead(m: nat, s: nat)
    requires m < 10
    ensures HEAD <= ReplayObjectKey(m, s) && |ReplayObjectKey(m, s)| > |HEAD|
    ensures ReplayObjectKey(m, s)[|HEAD|] as int == '0' as int + m
  {
  }

  /** No replay's key changes exactly when the prefix is empty or is the folder all keys start with. */
  lemma PrefixThatMovesNothing(p: string)
    ensures (forall m: nat, s: nat :: JoinKey(p, ReplayObjectKey(m, s)) == ReplayObjectKey(m, s))
            <==> p == "" || p + "/" == HEAD
  {
    if p == "" || p + "/" == HEAD {
      forall m: nat, s: nat ensures JoinKey(p, ReplayObjectKey(m, s)) == ReplayObjectKey(m, s) {
        assert HEAD <= ReplayObjectKey(m, s);
        JoinKeyFixes(p, ReplayObjectKey(m, s));
      }
    } else {
      UnderHead(0, 0);
      UnderHead(1, 0);
      HeadIsOneFolder();
      JoinKeyFixes(p, ReplayObjectKey(0, 0));
      JoinKeyFixes(p, ReplayObjectKey(1, 0));
      if Under(p, ReplayObjectKey(0, 0)) && Under(p, ReplayObjectKey(1, 0)) {
        NotItsOwnFolder(p, ReplayObjectKey(0, 0), ReplayObjectKey(1, 0));
      }
      if p + "/" <= ReplayObjectKey(0, 0) && p + "/" <= ReplayObjectKey(1, 0) {
        CommonFolder(p, HEAD, ReplayObjectKey(0, 0), ReplayObjectKey(1, 0));
      }
    }
  }

  /** The condition of SafeIffSettled, for the code's keys. */
  predicate SafeDestination(hot: string, dest: ArchiveDestination) {
    || Settled(dest.bucket)
    || (&& BucketOf(dest.bucket) == BucketOf(hot) != ""
        && (NormalizeObjectPrefix(dest.prefix) == "" || NormalizeObjectPrefix(dest.prefix) + "/" == HEAD))
  }

  lemma InPlaceKeys(hot: string, dest: ArchiveDestination, p: string)
    requires p == NormalizeObjectPrefix(dest.prefix)
    ensures (forall m: nat, s: nat ::
               ConfigFor(hot, dest).destKey(ReplayObjectKey(m, s)) == ReplayObjectKey(m, s))
            <==> p == "" || p + "/" == HEAD
  {
    PrefixThatMovesNothing(p);
    var c := ConfigFor(hot, dest);
    forall m: nat, s: nat ensures c.destKey(ReplayObjectKey(m, s)) == JoinKey(p, ReplayObjectKey(m, s)) {
      NothingLeads(ReplayObjectKey(m, s));
    }
  }

  lemma HotBucketReadBack(hot: string, dest: ArchiveDestination)
    ensures HotReadBack(ConfigFor(hot, dest)) <==> Settled(BucketOf(hot))
  {
  }

  lemma DestinationIsSafe(hot: string, dest: ArchiveDestination)
    requires dest.bucket != ""
    ensures Safe(ConfigFor(hot, dest)) <==> Settled(BucketOf(hot)) && SafeDestination(hot, dest)
  {
    HotBucketReadBack(hot, dest);
    var c := ConfigFor(hot, dest);
    CodeKeepsKeyLaws(hot, dest);
    SafeIffSettled(c);
    InPlaceKeys(hot, dest, NormalizeObjectPrefix(dest.prefix));
    assert InPlace(c) <==>
      && c.bucketOf(c.destBucket) == c.bucketOf(c.hot) != ""
      && forall m: nat, s: nat :: c.destKey(ReplayObjectKey(m, s)) == ReplayObjectKey(m, s);
  }

  /**
   * Beside an accepted destination no row ever dangles exactly when the hot bucket's name is read back
   * as itself, and the destination's is too or moves nothing.
   */
  lemma ArchivingIsSafe(hot: string, archiveBucket: string, prefix: string, storageClass: string)
    requires ResolveArchiveDestination(hot, archiveBucket, prefix, storageClass).Accepted?
    ensures var dest := ResolveArchiveDestination(hot, archiveBucket, prefix, storageClass).dest;
            Safe(ConfigFor(hot, dest)) <==> Settled(BucketOf(hot)) && SafeDestination(hot, dest)
  {
    var accepted := Decided(ParseObjectLocation(hot), DestinationFor(hot, archiveBucket, prefix, storageClass));
    DestinationIsSafe(hot, ResolveArchiveDestination(hot, archiveBucket, prefix, storageClass).dest);
  }

  /**
   * An archive bucket with a space before its closing slash is accepted next to any other hot
   * bucket, and some run of archivers then leaves a row naming no object of its replay.
   */
  lemma SpaceLosesReplays(hot: string, name: string, prefix: string, storageClass: string)
    requires PlainName(hot) && PlainName(name) && hot != name
    ensures var resolved := ResolveArchiveDestination(hot, name + [' ', '/'], prefix, storageClass);
            resolved.Accepted? && !Safe(ConfigFor(hot, resolved.dest))
  {
    PlainNamesSettle(hot);
    UnsettledBucket(name);
    OtherName(hot, name);
    OtherBucketIsAccepted(hot, name + [' ', '/'], prefix, storageClass);
    DestinationIsSafe(hot, ResolveArchiveDestination(hot, name + [' ', '/'], prefix, storageClass).dest);
  }

  /**
   * The same name for the hot bucket is accepted beside any plain archive bucket; whatever is
   * accepted beside it, the first download leaves a row naming no object.
   */
  lemma HotSpaceLosesReplays(name: string, archiveBucket: string, prefix: string, storageClass: string)
    requires PlainName(name)
    ensures var resolved := ResolveArchiveDestination(name + [' ', '/'], archiveBucket, prefix, storageClass);
            && (PlainName(archiveBucket) ==> resolved.Accepted?)
            && (resolved.Accepted? ==> !Safe(ConfigFor(name + [' ', '/'], resolved.dest)))
  {
    var hot := name + [' ', '/'];
    UnsettledBucket(name);
    if PlainName(archiveBucket) {
      PlainNamesSettle(archiveBucket);
      OtherName(archiveBucket, name);
      OtherBucketIsAccepted(hot, archiveBucket, prefix, storageClass);
    }
    if ResolveArchiveDestination(hot, archiveBucket, prefix, storageClass).Accepted? {
      ArchivingIsSafe(hot, archiveBucket, prefix, storageClass);
    }
  }

  lemma OtherName(hot: string, name: string)
    requires PlainName(hot)
    ensures hot != name + [' ']
  {
    assert ' ' !in hot && (name + [' '])[|name|] == ' ';
  }

  /**
   * The archiver's early return, as the code writes it: the row's bucket is the archive's by
   * sameObjectBucket and its key needs no prefix. With a settled bucket that is one and the same object.
   */
  lemma EarlyReturnGuard(hot: string, dest: ArchiveDestination, bucket: string, key: string)
    ensures AlreadyThere(ConfigFor(hot, dest), bucket, key)
            <==> SameObjectBucket(if bucket == "" then hot else bucket, dest.bucket)
                 && key == JoinObjectPrefix(dest.prefix, key)
    ensures dest.bucket != "" && Settled(dest.bucket) ==>
              (AlreadyThere(ConfigFor(hot, dest), bucket, key)
               <==> Located(ConfigFor(hot, dest), bucket, key) == DestLoc(ConfigFor(hot, dest), key))
  {
    if dest.bucket != "" && Settled(dest.bucket) {
      CodeKeepsKeyLaws(hot, dest);
      GuardSeparates(ConfigFor(hot, dest), bucket, key);
    }
  }
}
