/**
 * The two writers of `match_objectives`, for one match: ingestion
 * (packages/shared/src/store/matches.ts) and the replay parser
 * (packages/parser/internal/store/store.go).
 */
module Objectives {
  import opened Wrappers

  /** An objective as a writer reports it. */
  datatype Entry = Entry(time: int, kind: string, team: Option<int>, slot: Option<int>, key: Option<string>,
                         value: Option<int>)

  datatype Row = Row(seqNo: int, entry: Entry)

  const FIRST_BLOOD: string := "first_blood"

  /** `COALESCE(key, '')` */
  function KeyText(key: Option<string>): string { if key.Some? then key.value else "" }

  /** The two entries are the same objective. */
  predicate Same(a: Entry, b: Entry) { a.kind == b.kind && a.time == b.time && KeyText(a.key) == KeyText(b.key) }

  predicate Known(rows: seq<Row>, e: Entry) { exists i :: 0 <= i < |rows| && Same(rows[i].entry, e) }

  predicate HasFirstBlood(rows: seq<Row>) { exists i :: 0 <= i < |rows| && rows[i].entry.kind == FIRST_BLOOD }

  /** `COALESCE(max(seq), -1)` */
  function MaxSeq(rows: seq<Row>): (m: int)
    ensures forall i | 0 <= i < |rows| :: rows[i].seqNo <= m
    ensures if rows == [] then m == -1 else exists i :: 0 <= i < |rows| && rows[i].seqNo == m
  {
    if rows == [] then -1
    else if |rows| == 1 then rows[0].seqNo
    else
      var before, last := MaxSeq(rows[..|rows| - 1]), rows[|rows| - 1].seqNo;
      if last > before then last else before
  }

  predicate Skipped(rows: seq<Row>, e: Entry) {
    Known(rows, e) || (e.kind == FIRST_BLOOD && HasFirstBlood(rows))
  }

  function Added(rows: seq<Row>, e: Entry): seq<Row> {
    if Skipped(rows, e) then rows else rows + [Row(MaxSeq(rows) + 1, e)]
  }

  function AddedAll(rows: seq<Row>, entries: seq<Entry>): seq<Row> {
    if entries == [] then rows else Added(AddedAll(rows, entries[..|entries| - 1]), entries[|entries| - 1])
  }

  // ---- which entries become rows --------------------------------------------------------------

  predicate NoKey(e: Entry) { e.key == None || e.key == Some("") }

  /** One objective: the same kind at the same time with the same key, if any. */
  predicate OneObjective(a: Entry, b: Entry) {
    a.kind == b.kind && a.time == b.time && (a.key == b.key || (NoKey(a) && NoKey(b)))
  }

  /** Neither the table nor an earlier entry has this objective, nor a first blood when it is one. */
  ghost predicate IsNew(rows: seq<Row>, entries: seq<Entry>, k: nat)
    requires k < |entries|
  {
    var e := entries[k];
    && (forall i | 0 <= i < |rows| :: !OneObjective(rows[i].entry, e))
    && (forall j | 0 <= j < k :: !OneObjective(entries[j], e))
    && (e.kind == "first_blood" ==>
          && (forall i | 0 <= i < |rows| :: rows[i].entry.kind != "first_blood")
          && forall j | 0 <= j < k :: entries[j].kind != "first_blood")
  }

  /** The number after all others: 0 in an empty table. */
  predicate NextNumber(rows: seq<Row>, n: int) {
    if rows == [] then n == 0
    else (forall i | 0 <= i < |rows| :: rows[i].seqNo < n) && exists i :: 0 <= i < |rows| && rows[i].seqNo == n - 1
  }

  ghost function NewOnes(rows: seq<Row>, entries: seq<Entry>): set<nat> {
    set k | 0 <= k < |entries| && IsNew(rows, entries, k)
  }

  /** The numbers of a set below `n`, in order. */
  ghost predicate Enumerates(at: seq<nat>, s: set<nat>, n: nat) {
    && (forall k | 0 <= k < |at| :: at[k] < n && at[k] in s)
    && (forall j, k | 0 <= j < k < |at| :: at[j] < at[k])
    && forall i | i in s && i < n :: i in at
  }

  /** The entries at these positions are appended, numbered from `base` on. */
  ghost predicate Appended(before: seq<Row>, entries: seq<Entry>, after: seq<Row>, at: seq<nat>, base: int) {
    && |after| == |before| + |at| && after[..|before|] == before
    && (forall k | 0 <= k < |at| :: at[k] < |entries|)
    && forall i | |before| <= i < |after| ::
         after[i] == Row(base + (i - |before|), entries[at[i - |before|]])
  }

  /** The table has grown by the new entries, in order, under consecutive numbers; `at` says which they are. */
  ghost predicate Reported(before: seq<Row>, entries: seq<Entry>, after: seq<Row>, at: seq<nat>) {
    && Enumerates(at, NewOnes(before, entries), |entries|)
    && exists base :: NextNumber(before, base) && Appended(before, entries, after, at, base)
  }

  lemma SameIsOneObjective(a: Entry, b: Entry)
    ensures Same(a, b) <==> OneObjective(a, b)
  {
  }

  lemma {:induction false} KnownAfter(rows: seq<Row>, entries: seq<Entry>, e: Entry)
    ensures Known(AddedAll(rows, entries), e) || (e.kind == FIRST_BLOOD && HasFirstBlood(AddedAll(rows, entries)))
            <==> || Known(rows, e) || (exists j :: 0 <= j < |entries| && Same(entries[j], e))
                 || (e.kind == FIRST_BLOOD
                     && (HasFirstBlood(rows) || exists j :: 0 <= j < |entries| && entries[j].kind == FIRST_BLOOD))
  {
    if entries != [] {
      var n := |entries| - 1;
      KnownAfter(rows, entries[..n], e);
      KnownAfter(rows, entries[..n], entries[n]);
      SkippedAfterAdding(AddedAll(rows, entries[..n]), entries[n], e);
      EarlierOrLast(entries, e);
    }
  }

  lemma SkippedAfterAdding(rows: seq<Row>, added: Entry, e: Entry)
    ensures Skipped(Added(rows, added), e) <==>
              Skipped(rows, e) || Same(added, e) || (e.kind == FIRST_BLOOD && added.kind == FIRST_BLOOD)
  {
    if Skipped(rows, added) {
      if Same(added, e) || (e.kind == FIRST_BLOOD && added.kind == FIRST_BLOOD) {
        LikeSkipped(rows, added, e);
      }
    } else {
      var more := Added(rows, added);
      assert more[|rows|].entry == added;
      assert forall i | 0 <= i < |rows| :: more[i] == rows[i];
    }
  }

  lemma LikeSkipped(rows: seq<Row>, a: Entry, b: Entry)
    requires Skipped(rows, a) && (Same(a, b) || (a.kind == FIRST_BLOOD && b.kind == FIRST_BLOOD))
    ensures Skipped(rows, b)
  {
    if Known(rows, a) {
      var i :| 0 <= i < |rows| && Same(rows[i].entry, a);
      if Same(a, b) {
        assert Same(rows[i].entry, b);
      } else {
        assert rows[i].entry.kind == FIRST_BLOOD;
      }
    }
  }

  lemma EarlierOrLast(entries: seq<Entry>, e: Entry)
    requires entries != []
    ensures var n := |entries| - 1;
            && ((exists j :: 0 <= j < |entries| && Same(entries[j], e)) <==>
                  (exists j :: 0 <= j < n && Same(entries[..n][j], e)) || Same(entries[n], e))
            && ((exists j :: 0 <= j < |entries| && entries[j].kind == FIRST_BLOOD) <==>
                  (exists j :: 0 <= j < n && entries[..n][j].kind == FIRST_BLOOD) || entries[n].kind == FIRST_BLOOD)
  {
    var n := |entries| - 1;
    assert forall j | 0 <= j < n :: entries[..n][j] == entries[j];
  }

  lemma NewIsNotSkipped(rows: seq<Row>, entries: seq<Entry>, k: nat)
    requires k < |entries|
    ensures IsNew(rows, entries, k) <==> !Skipped(AddedAll(rows, entries[..k]), entries[k])
  {
    KnownAfter(rows, entries[..k], entries[k]);
    forall i | 0 <= i < |rows| ensures Same(rows[i].entry, entries[k]) <==> OneObjective(rows[i].entry, entries[k]) {
      SameIsOneObjective(rows[i].entry, entries[k]);
    }
    forall j | 0 <= j < k ensures Same(entries[..k][j], entries[k]) <==> OneObjective(entries[j], entries[k]) {
      SameIsOneObjective(entries[j], entries[k]);
    }
    assert forall j | 0 <= j < k :: entries[..k][j] == entries[j];
  }

  lemma NextNumberIsNext(rows: seq<Row>)
    ensures NextNumber(rows, MaxSeq(rows) + 1)
  {
  }

  lemma EnumeratesOneMore(at: seq<nat>, more: seq<nat>, s: set<nat>, n: nat)
    requires n > 0 && Enumerates(at, s, n - 1) && more == if n - 1 in s then at + [n - 1] else at
    ensures Enumerates(more, s, n)
  {
    if n - 1 in s {
      assert more[|at|] == n - 1;
      assert forall i | i in at :: i in more;
    }
  }

  lemma NumbersGoOn(before: seq<Row>, entries: seq<Entry>, after: seq<Row>, at: seq<nat>, base: int)
    requires Appended(before, entries, after, at, base) && base == MaxSeq(before) + 1
    ensures MaxSeq(after) + 1 == base + |at|
  {
    if at == [] {
      assert after == before;
    } else {
      assert after[|after| - 1].seqNo == base + |at| - 1;
      forall i | 0 <= i < |after| ensures after[i].seqNo < base + |at| {
        if i < |before| {
          assert after[..|before|][i] == before[i];
        }
      }
    }
  }

  lemma AppendedOneMore(first: seq<Row>, before: seq<Row>, after: seq<Row>, entries: seq<Entry>, at: seq<nat>,
                        more: seq<nat>, base: int, n: nat)
    requires n < |entries| && Appended(first, entries, before, at, base)
    requires after == before + [Row(base + |at|, entries[n])] && more == at + [n]
    ensures Appended(first, entries, after, more, base)
  {
    assert after[..|before|] == before;
    forall i | |first| <= i < |after| ensures after[i] == Row(base + (i - |first|), entries[more[i - |first|]]) {
      if i < |before| { assert after[i] == before[i]; }
    }
  }

  lemma AddedStep(rows: seq<Row>, entries: seq<Entry>, k: nat)
    requires k < |entries|
    ensures var before := AddedAll(rows, entries[..k]);
            AddedAll(rows, entries[..k + 1]) ==
              if IsNew(rows, entries, k) then before + [Row(MaxSeq(before) + 1, entries[k])] else before
  {
    NewIsNotSkipped(rows, entries, k);
    assert entries[..k + 1][..k] == entries[..k];
  }

  /** One turn of a loop: the table grows by the entry exactly if it is new. */
  ghost predicate Turn(tables: seq<seq<Row>>, entries: seq<Entry>, s: set<nat>, k: nat)
    requires |tables| == |entries| + 1 && k < |entries|
  {
    tables[k + 1] == if k in s then tables[k] + [Row(MaxSeq(tables[k]) + 1, entries[k])] else tables[k]
  }

  ghost function InOrder(s: set<nat>, n: nat): seq<nat> {
    if n == 0 then [] else if n - 1 in s then InOrder(s, n - 1) + [n - 1] else InOrder(s, n - 1)
  }

  lemma {:induction false} InOrderEnumerates(s: set<nat>, n: nat)
    ensures Enumerates(InOrder(s, n), s, n)
  {
    if n > 0 {
      InOrderEnumerates(s, n - 1);
      EnumeratesOneMore(InOrder(s, n - 1), InOrder(s, n), s, n);
    }
  }

  lemma OneTurnAppends(first: seq<Row>, before: seq<Row>, after: seq<Row>, entries: seq<Entry>, s: set<nat>, n: nat,
                       base: int)
    requires 0 < n <= |entries| && Appended(first, entries, before, InOrder(s, n - 1), base)
    requires after == if n - 1 in s then before + [Row(base + |InOrder(s, n - 1)|, entries[n - 1])] else before
    ensures Appended(first, entries, after, InOrder(s, n), base)
  {
    if n - 1 in s {
      AppendedOneMore(first, before, after, entries, InOrder(s, n - 1), InOrder(s, n), base, n - 1);
    }
  }

  lemma NothingAppended(first: seq<Row>, entries: seq<Entry>, base: int)
    ensures Appended(first, entries, first, [], base)
  {
  }

  lemma {:induction false} TurnsAppend(tables: seq<seq<Row>>, entries: seq<Entry>, s: set<nat>, n: nat, base: int)
    requires |tables| == |entries| + 1 && n <= |entries| && base == MaxSeq(tables[0]) + 1
    requires forall k | 0 <= k < n :: Turn(tables, entries, s, k)
    ensures Appended(tables[0], entries, tables[n], InOrder(s, n), base)
  {
    if n == 0 {
      NothingAppended(tables[0], entries, base);
    } else {
      TurnsAppend(tables, entries, s, n - 1, base);
      assert Turn(tables, entries, s, n - 1);
      NumbersGoOn(tables[0], entries, tables[n - 1], InOrder(s, n - 1), base);
      OneTurnAppends(tables[0], tables[n - 1], tables[n], entries, s, n, base);
    }
  }

  /** The table after each number of entries. */
  lemma {:induction false} TablesOf(rows: seq<Row>, entries: seq<Entry>, n: nat) returns (tables: seq<seq<Row>>)
    requires n <= |entries|
    ensures |tables| == n + 1 && forall k | 0 <= k <= n :: tables[k] == AddedAll(rows, entries[..k])
  {
    tables := [AddedAll(rows, entries[..0])];
    if n > 0 {
      tables := TablesOf(rows, entries, n - 1);
      tables := tables + [AddedAll(rows, entries[..n])];
    }
  }

  lemma RuleTurns(rows: seq<Row>, entries: seq<Entry>, tables: seq<seq<Row>>, k: nat)
    requires |tables| == |entries| + 1 && k < |entries|
    requires tables[k] == AddedAll(rows, entries[..k]) && tables[k + 1] == AddedAll(rows, entries[..k + 1])
    ensures Turn(tables, entries, NewOnes(rows, entries), k)
  {
    AddedStep(rows, entries, k);
  }

  /** The rule that both loops follow adds exactly the new entries. */
  lemma AddedAllReports(rows: seq<Row>, entries: seq<Entry>) returns (at: seq<nat>)
    ensures Reported(rows, entries, AddedAll(rows, entries), at)
  {
    var tables := TablesOf(rows, entries, |entries|);
    forall k | 0 <= k < |entries| ensures Turn(tables, entries, NewOnes(rows, entries), k) {
      RuleTurns(rows, entries, tables, k);
    }
    at := InOrder(NewOnes(rows, entries), |entries|);
    InOrderEnumerates(NewOnes(rows, entries), |entries|);
    TurnsAppend(tables, entries, NewOnes(rows, entries), |entries|, MaxSeq(tables[0]) + 1);
    WholeList(rows, entries);
    NextNumberIsNext(rows);
  }

  lemma WholeList(rows: seq<Row>, entries: seq<Entry>)
    ensures AddedAll(rows, entries[..0]) == rows && AddedAll(rows, entries[..|entries|]) == AddedAll(rows, entries)
  {
    assert entries[..|entries|] == entries;
  }

  // ---- the writers ----------------------------------------------------------------------------

  /** The parser's objectives have a plain string for a key; nullStr stores an empty one as null. */
  datatype ParsedObjective = ParsedObjective(time: int, kind: string, team: Option<int>, slot: Option<int>,
                                             key: string, value: Option<int>)

  function NullStr(s: string): Option<string> { if s == "" then None else Some(s) }

  function EntryOf(o: ParsedObjective): Entry { Entry(o.time, o.kind, o.team, o.slot, NullStr(o.key), o.value) }

  function EntriesOf(os: seq<ParsedObjective>): seq<Entry> {
    seq(|os|, i requires 0 <= i < |os| => EntryOf(os[i]))
  }

  /** What the parser's objective is stored as; an empty key becomes null. */
  predicate StoredAs(o: ParsedObjective, e: Entry) {
    && e.time == o.time && e.kind == o.kind && e.team == o.team && e.slot == o.slot && e.value == o.value
    && (if o.key == "" then e.key.None? else e.key.Some? && e.key.value == o.key)
  }

  class MatchObjectives {
    var rows: seq<Row>

    constructor ()
      ensures rows == []
    {
      rows := [];
    }

    method Insert(e: Entry)
      modifies this
      ensures rows == old(rows) + [Row(MaxSeq(old(rows)) + 1, e)]
    {
      var next := MaxSeq(rows) + 1;
      rows := rows + [Row(next, e)];
    }

    method ReplaceObjectives(entries: seq<Entry>) returns (ghost at: seq<nat>)
      modifies this
      ensures Reported(old(rows), entries, rows, at)
      ensures rows == AddedAll(old(rows), entries)
    {
      for i := 0 to |entries|
        invariant rows == AddedAll(old(rows), entries[..i])
      {
        var row := entries[i];
        assert entries[..i + 1][..i] == entries[..i];
        if Known(rows, row) { continue; }
        if row.kind == FIRST_BLOOD {
          if HasFirstBlood(rows) { continue; }
        }
        Insert(row);
      }
      assert entries[..|entries|] == entries;
      at := AddedAllReports(old(rows), entries);
    }

    method PublishObjectives(objectives: seq<ParsedObjective>) returns (ghost stored: seq<Entry>, ghost at: seq<nat>)
      modifies this
      ensures |stored| == |objectives| && forall i | 0 <= i < |objectives| :: StoredAs(objectives[i], stored[i])
      ensures Reported(old(rows), stored, rows, at)
      ensures rows == AddedAll(old(rows), EntriesOf(objectives))
    {
      ghost var entries := EntriesOf(objectives);
      for i := 0 to |objectives|
        invariant rows == AddedAll(old(rows), entries[..i])
      {
        var o := objectives[i];
        assert entries[..i + 1][..i] == entries[..i];
        var found := Known(rows, EntryOf(o));
        if found { continue; }
        if o.kind == FIRST_BLOOD {
          found := HasFirstBlood(rows);
          if found { continue; }
        }
        Insert(EntryOf(o));
      }
      assert entries[..|entries|] == entries;
      stored := entries;
      at := AddedAllReports(old(rows), entries);
    }
  }

  // ---- what every run keeps -------------------------------------------------------------------

  /** No objective twice, one first blood at most, and every row its own number. */
  predicate Inv(rows: seq<Row>) {
    && (forall i, j | 0 <= i < j < |rows| :: !Same(rows[i].entry, rows[j].entry))
    && (forall i, j | 0 <= i < j < |rows| ::
          !(rows[i].entry.kind == FIRST_BLOOD && rows[j].entry.kind == FIRST_BLOOD))
    && (forall i, j | 0 <= i < j < |rows| :: rows[i].seqNo < rows[j].seqNo)
  }

  lemma AddedKeeps(rows: seq<Row>, e: Entry)
    requires Inv(rows)
    ensures Inv(Added(rows, e))
  {
    var rows' := Added(rows, e);
    forall i, j | 0 <= i < j < |rows'|
      ensures !Same(rows'[i].entry, rows'[j].entry) && rows'[i].seqNo < rows'[j].seqNo
    {
      if j == |rows| {
        assert rows'[i] == rows[i];
      }
    }
  }

  lemma {:induction false} AddedAllKeeps(rows: seq<Row>, entries: seq<Entry>)
    requires Inv(rows)
    ensures Inv(AddedAll(rows, entries))
  {
    if entries != [] {
      AddedAllKeeps(rows, entries[..|entries| - 1]);
      AddedKeeps(AddedAll(rows, entries[..|entries| - 1]), entries[|entries| - 1]);
    }
  }

  /** Runs of either writer, one after the other. */
  function Runs(rows: seq<Row>, runs: seq<seq<Entry>>): seq<Row> {
    if runs == [] then rows else AddedAll(Runs(rows, runs[..|runs| - 1]), runs[|runs| - 1])
  }

  /** However often and in whatever order the writers run, the table keeps its invariant. */
  lemma {:induction false} RunsKeep(runs: seq<seq<Entry>>)
    ensures Inv(Runs([], runs))
  {
    if runs != [] {
      RunsKeep(runs[..|runs| - 1]);
      AddedAllKeeps(Runs([], runs[..|runs| - 1]), runs[|runs| - 1]);
    }
  }

  // ---- rows only grow -------------------------------------------------------------------------

  lemma {:induction false} RowsStay(rows: seq<Row>, entries: seq<Entry>)
    ensures rows <= AddedAll(rows, entries)
  {
    if entries != [] {
      RowsStay(rows, entries[..|entries| - 1]);
    }
  }

  lemma {:induction false} RowsStayOverRuns(rows: seq<Row>, runs: seq<seq<Entry>>)
    ensures rows <= Runs(rows, runs)
  {
    if runs != [] {
      RowsStayOverRuns(rows, runs[..|runs| - 1]);
      RowsStay(Runs(rows, runs[..|runs| - 1]), runs[|runs| - 1]);
    }
  }

  lemma SkippedStays(rows: seq<Row>, more: seq<Row>, e: Entry)
    requires rows <= more && Skipped(rows, e)
    ensures Skipped(more, e)
  {
    if Known(rows, e) {
      var i :| 0 <= i < |rows| && Same(rows[i].entry, e);
      assert more[i] == rows[i];
    } else {
      var i :| 0 <= i < |rows| && rows[i].entry.kind == FIRST_BLOOD;
      assert more[i] == rows[i];
    }
  }

  /** An entry is in the table afterwards, or it is a first blood and there is one. */
  lemma {:induction false} EveryEntryIsThere(rows: seq<Row>, entries: seq<Entry>, k: nat)
    requires k < |entries|
    ensures Skipped(AddedAll(rows, entries), entries[k])
  {
    var n := |entries| - 1;
    var before := AddedAll(rows, entries[..n]);
    if k == n {
      if !Skipped(before, entries[n]) {
        assert AddedAll(rows, entries)[|before|].entry == entries[n];
      }
    } else {
      EveryEntryIsThere(rows, entries[..n], k);
      SkippedStays(before, AddedAll(rows, entries), entries[k]);
    }
  }

  lemma {:induction false} NothingNew(rows: seq<Row>, entries: seq<Entry>)
    requires forall k | 0 <= k < |entries| :: Skipped(rows, entries[k])
    ensures AddedAll(rows, entries) == rows
  {
    if entries != [] {
      NothingNew(rows, entries[..|entries| - 1]);
    }
  }

  /** The same list, as either writer would report it: a missing key and an empty one are alike. */
  predicate Alike(a: seq<Entry>, b: seq<Entry>) {
    |a| == |b| && forall k | 0 <= k < |a| :: Same(a[k], b[k])
  }

  lemma AlikeIsSkipped(rows: seq<Row>, a: Entry, b: Entry)
    requires Same(a, b) && Skipped(rows, a)
    ensures Skipped(rows, b)
  {
    if Known(rows, a) {
      var i :| 0 <= i < |rows| && Same(rows[i].entry, a);
      assert Same(rows[i].entry, b);
    }
  }

  /** Running a list again adds nothing, by either writer, and whatever was written in between. */
  lemma RerunAddsNothing(rows: seq<Row>, entries: seq<Entry>, between: seq<seq<Entry>>, again: seq<Entry>)
    requires Alike(entries, again)
    ensures var after := Runs(AddedAll(rows, entries), between);
            AddedAll(after, again) == after
  {
    var first := AddedAll(rows, entries);
    var after := Runs(first, between);
    RowsStayOverRuns(first, between);
    forall k | 0 <= k < |again| ensures Skipped(after, again[k]) {
      EveryEntryIsThere(rows, entries, k);
      SkippedStays(first, after, entries[k]);
      AlikeIsSkipped(after, entries[k], again[k]);
    }
    NothingNew(after, again);
  }

  /** The parser's list is alike the one ingestion would write for it, with null or empty keys. */
  lemma NullAndEmptyAreAlike(os: seq<ParsedObjective>, entries: seq<Entry>)
    requires |entries| == |os|
    requires forall k | 0 <= k < |os| :: entries[k] == EntryOf(os[k]).(key := Some(os[k].key))
    ensures Alike(EntriesOf(os), entries)
  {
  }
}
