/**
 * What one writer of a `matches` row leaves for another: laws between the updates of
 * packages/shared/src/store/matches.ts that the run invariants do not show.
 */
module RowLaws {
  import opened Wrappers
  import opened MatchPhase
  import opened MatchRow
  import opened IngestOrder

  // ---- clocks ---------------------------------------------------------------------------------

  function ClockedAll(r: Row, readings: seq<real>): Row {
    if readings == [] then r else Clocked(ClockedAll(r, readings[..|readings| - 1]), readings[|readings| - 1])
  }

  /** The column is the running maximum: it bounds every reading and is one of them, or what it was. */
  lemma {:induction false} ClockIsRunningMaximum(r: Row, readings: seq<real>)
    requires r.durationMax >= 0.0
    ensures var m := ClockedAll(r, readings).durationMax;
            && ClockedAll(r, readings) == r.(durationMax := m)
            && m >= r.durationMax && (forall d | d in readings :: m >= d)
            && (m == r.durationMax || m in readings)
  {
    if readings != [] {
      var before := readings[..|readings| - 1];
      ClockIsRunningMaximum(r, before);
      assert readings == before + [readings[|readings| - 1]];
    }
  }

  // ---- history --------------------------------------------------------------------------------

  /** A match that was found is not missed afterwards, and being found again changes only the time. */
  lemma FoundIsNotMissed(r: Row, seqNum: int, now: int, limits: HistoryLimits, later: int)
    requires RowInv(r)
    ensures HistoryMiss(HistoryHit(r, seqNum, now), limits, later) == HistoryHit(r, seqNum, now)
    ensures HistoryHit(HistoryHit(r, seqNum, now), seqNum, later) == HistoryHit(r, seqNum, later)
    ensures !r.status.Live? ==>
              HistoryHit(r, seqNum, now).matchSeqNum == Some(seqNum) && History in HistoryHit(r, seqNum, now).sources
  {
  }

  // ---- records --------------------------------------------------------------------------------

  /** Persisting one record twice is persisting it once, whether or not the match was known. */
  lemma PersistingTwice(r: Option<Row>, facts: Facts, fetched: Fetched, mustExist: bool, now: int, later: int)
    ensures Persisted(Persisted(r, facts, fetched, mustExist, now), facts, fetched, mustExist, later)
            == Persisted(r, facts, fetched, mustExist, now)
  {
  }

  /** One call of persistMatchRecord; `mustExist` refuses an unknown match. */
  datatype Persist = Persist(save: Save, mustExist: bool)

  function PersistAll(r: Option<Row>, calls: seq<Persist>): Option<Row> {
    if calls == [] then r
    else
      var last := calls[|calls| - 1];
      Persisted(PersistAll(r, calls[..|calls| - 1]), last.save.facts, last.save.fetched, last.mustExist,
                last.save.now)
  }

  /** The saves of an unknown match from the first call on that may insert it. */
  function Admitted(calls: seq<Persist>): seq<Save> {
    if calls == [] then []
    else
      var before, last := Admitted(calls[..|calls| - 1]), calls[|calls| - 1];
      if before == [] && last.mustExist then [] else before + [last.save]
  }

  /** When every call may insert, every record counts. */
  lemma {:induction false} AllAdmitted(calls: seq<Persist>)
    requires forall i | 0 <= i < |calls| :: !calls[i].mustExist
    ensures |Admitted(calls)| == |calls|
    ensures forall i | 0 <= i < |calls| :: Admitted(calls)[i] == calls[i].save
  {
    if calls != [] {
      AllAdmitted(calls[..|calls| - 1]);
    }
  }

  predicate SavedAs(row: Row, kinds: set<Fetched>) {
    && row.status == (if ByGc in kinds then DetailsReady else AwaitingDetails)
    && row.sources == (if BySeq in kinds then [Seq] else []) && !row.fromLive
    && (row.seqFetchedAt.Some? <==> BySeq in kinds) && (row.detailsFetchedAt.Some? <==> ByGc in kinds)
  }

  lemma SavedAsOneMore(row: Row, kinds: set<Fetched>, save: Save)
    requires SavedAs(row, kinds)
    ensures SavedAs(FactsSaved(row, save.facts, save.fetched, save.now), kinds + {save.fetched})
  {
  }

  lemma SavedAsFirst(save: Save)
    ensures SavedAs(FactsSaved(Undiscovered(None, save.facts, save.fetched, save.now), save.facts, save.fetched,
                               save.now), {save.fetched})
  {
  }

  /** A match first heard of by its records: phase, flags and feeds follow from the kinds that counted. */
  lemma {:induction false} DiscoveredPhase(calls: seq<Persist>)
    ensures PersistAll(None, calls).Some? <==> Admitted(calls) != []
    ensures Admitted(calls) != [] ==> SavedAs(PersistAll(None, calls).value, Kinds(Admitted(calls)))
  {
    if calls != [] {
      var init, last := calls[..|calls| - 1], calls[|calls| - 1];
      DiscoveredPhase(init);
      if Admitted(calls) != [] {
        KindsOfPrefix(Admitted(calls));
        assert Admitted(calls)[..|Admitted(calls)| - 1] == Admitted(init);
        if Admitted(init) == [] {
          assert Kinds(Admitted(init)) == {};
          SavedAsFirst(last.save);
        } else {
          SavedAsOneMore(PersistAll(None, init).value, Kinds(Admitted(init)), last.save);
        }
      }
    }
  }

  /** So lists with the same kinds end an unknown match the same, in any order and with any repetitions. */
  lemma FirstRecordsCommute(a: seq<Persist>, b: seq<Persist>)
    requires Kinds(Admitted(a)) == Kinds(Admitted(b))
    ensures var x, y := PersistAll(None, a), PersistAll(None, b);
            && (x.Some? <==> y.Some?)
            && (x.Some? ==>
                  && x.value.status == y.value.status && x.value.sources == y.value.sources
                  && (x.value.seqFetchedAt.Some? <==> y.value.seqFetchedAt.Some?)
                  && (x.value.detailsFetchedAt.Some? <==> y.value.detailsFetchedAt.Some?))
  {
    DiscoveredPhase(a);
    DiscoveredPhase(b);
    if Admitted(a) != [] { assert Admitted(a)[0].fetched in Kinds(Admitted(a)); }
    if Admitted(b) != [] { assert Admitted(b)[0].fetched in Kinds(Admitted(b)); }
  }

  /** The sequence number a live row was given by history survives every record saved later. */
  lemma {:induction false} SavedFactsFillOnly(r: Row, saves: seq<Save>)
    ensures var s := SaveAll(r, saves);
            && (r.matchSeqNum.Some? ==> s.matchSeqNum == r.matchSeqNum)
            && (r.finishedAt.Some? ==> s.finishedAt == r.finishedAt)
            && (forall f | f in r.sources :: f in s.sources)
  {
    if saves != [] {
      SavedFactsFillOnly(r, saves[..|saves| - 1]);
    }
  }
}
