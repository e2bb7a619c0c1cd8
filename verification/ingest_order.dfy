/**
 * Sequence-number and GC records of one match arrive in any order, possibly more than once
 * (packages/shared/src/store/matches.ts, saveMatchFacts). Only which kinds arrived decides the
 * phase and the fetched flags.
 */
module IngestOrder {
  import opened Wrappers
  import opened MatchPhase
  import opened MatchRow

  datatype Save = Save(facts: Facts, fetched: Fetched, now: int)

  function SaveAll(r: Row, saves: seq<Save>): Row {
    if saves == [] then r
    else
      var last := saves[|saves| - 1];
      FactsSaved(SaveAll(r, saves[..|saves| - 1]), last.facts, last.fetched, last.now)
  }

  function Kinds(saves: seq<Save>): set<Fetched> {
    set i | 0 <= i < |saves| :: saves[i].fetched
  }

  lemma KindsOfPrefix(saves: seq<Save>)
    requires saves != []
    ensures Kinds(saves) == Kinds(saves[..|saves| - 1]) + {saves[|saves| - 1].fetched}
  {
    var last := |saves| - 1;
    forall k | k in Kinds(saves) ensures k in Kinds(saves[..last]) + {saves[last].fetched} {
      var i :| 0 <= i < |saves| && saves[i].fetched == k;
      assert i < last ==> saves[..last][i].fetched == k;
    }
    forall k | k in Kinds(saves[..last]) ensures k in Kinds(saves) {
      var i :| 0 <= i < last && saves[..last][i].fetched == k;
      assert saves[i].fetched == k;
    }
  }

  /** Phase and flags after any non-empty list of saves, in terms of the kinds alone. */
  lemma {:induction false} SavedPhase(r: Row, saves: seq<Save>)
    requires saves != []
    ensures SaveAll(r, saves).status ==
              if PastDetails(r.status) then r.status
              else if r.detailsFetchedAt.Some? || ByGc in Kinds(saves) then DetailsReady
              else AwaitingDetails
    ensures SaveAll(r, saves).seqFetchedAt.Some? <==> r.seqFetchedAt.Some? || BySeq in Kinds(saves)
    ensures SaveAll(r, saves).detailsFetchedAt.Some? <==> r.detailsFetchedAt.Some? || ByGc in Kinds(saves)
  {
    KindsOfPrefix(saves);
    if |saves| > 1 {
      SavedPhase(r, saves[..|saves| - 1]);
    }
  }

  /** Reordering or repeating the saves changes neither the phase nor the flags. */
  lemma OrderIsIrrelevant(r: Row, a: seq<Save>, b: seq<Save>)
    requires Kinds(a) == Kinds(b)
    ensures SaveAll(r, a).status == SaveAll(r, b).status
    ensures SaveAll(r, a).seqFetchedAt.Some? <==> SaveAll(r, b).seqFetchedAt.Some?
    ensures SaveAll(r, a).detailsFetchedAt.Some? <==> SaveAll(r, b).detailsFetchedAt.Some?
  {
    if a != [] { assert a[0].fetched in Kinds(a); }
    if b != [] { assert b[0].fetched in Kinds(b); }
    if a != [] && b != [] {
      SavedPhase(r, a);
      SavedPhase(r, b);
    }
  }

  /** Saving the same record again changes no column at all. */
  lemma SavingTwice(r: Row, facts: Facts, fetched: Fetched, now: int, later: int)
    ensures FactsSaved(FactsSaved(r, facts, fetched, now), facts, fetched, later)
            == FactsSaved(r, facts, fetched, now)
  {
  }
}
