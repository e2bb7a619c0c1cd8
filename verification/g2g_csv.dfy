/**
 * Reading one line of a CSV export (packages/cli/src/g2g-csv.ts; RFC 4180, section 2). The reader
 * drops an unquoted empty field at the end of a line, and nothing else.
 */
module G2gCsv {
  import opened Wrappers

  datatype Quoted = Quoted(field: string, rest: string)

  /** Reading up to the closing quote, or to the end when there is none. */
  function ReadQuoted(s: string): (q: Quoted)
    ensures |q.rest| <= |s|
  {
    if s == [] then Quoted([], [])
    else if s[0] == '"' && |s| > 1 && s[1] == '"' then
      var q := ReadQuoted(s[2..]);
      Quoted(['"'] + q.field, q.rest)
    else if s[0] == '"' then Quoted([], s[1..])
    else
      var q := ReadQuoted(s[1..]);
      Quoted([s[0]] + q.field, q.rest)
  }

  function AfterComma(s: string): string { if s != [] && s[0] == ',' then s[1..] else s }

  /** `indexOf(',')` */
  function Comma(s: string): (c: Option<nat>)
    ensures c.Some? ==> c.value < |s| && s[c.value] == ','
  {
    if s == [] then None
    else if s[0] == ',' then Some(0)
    else
      match Comma(s[1..])
      case None => None
      case Some(c) => Some(c + 1)
  }

  /** The first field of a line that is not empty, and the text after its comma. */
  function First(s: string): (q: Quoted)
    requires s != []
    ensures |q.rest| < |s|
  {
    if s[0] == '"' then
      var q := ReadQuoted(s[1..]);
      Quoted(q.field, AfterComma(q.rest))
    else
      match Comma(s)
      case None => Quoted(s, [])
      case Some(c) => Quoted(s[..c], s[c + 1..])
  }

  function Fields(s: string): seq<string>
    decreases |s|
  {
    if s == [] then [] else [First(s).field] + Fields(First(s).rest)
  }

  // ---- the loops ------------------------------------------------------------------------------

  lemma QuotedStep(line: string, i: nat, field: string)
    requires i < |line|
    ensures var q := ReadQuoted(line[i..]);
            var all := Quoted(field + q.field, q.rest);
            if line[i] != '"' then
              all == Quoted(field + [line[i]] + ReadQuoted(line[i + 1..]).field, ReadQuoted(line[i + 1..]).rest)
            else if i + 1 < |line| && line[i + 1] == '"' then
              all == Quoted(field + ['"'] + ReadQuoted(line[i + 2..]).field, ReadQuoted(line[i + 2..]).rest)
            else all == Quoted(field, line[i + 1..])
  {
    var s := line[i..];
    assert s[1..] == line[i + 1..];
    if line[i] == '"' && i + 1 < |line| && line[i + 1] == '"' {
      assert s[2..] == line[i + 2..];
      assert field + (['"'] + ReadQuoted(s[2..]).field) == field + ['"'] + ReadQuoted(s[2..]).field;
    } else if line[i] == '"' {
      assert field + [] == field;
    } else {
      assert field + ([line[i]] + ReadQuoted(s[1..]).field) == field + [line[i]] + ReadQuoted(s[1..]).field;
    }
  }

  /** The inner loop: from just after an opening quote. */
  method ParseQuoted(line: string, start: nat) returns (field: string, i: nat)
    requires start <= |line|
    ensures start <= i <= |line| && Quoted(field, line[i..]) == ReadQuoted(line[start..])
  {
    field, i := [], start;
    ghost var goal := ReadQuoted(line[start..]);
    assert [] + goal.field == goal.field;
    while i < |line|
      invariant start <= i <= |line|
      invariant Quoted(field + ReadQuoted(line[i..]).field, ReadQuoted(line[i..]).rest) == goal
      decreases |line| - i
    {
      QuotedStep(line, i, field);
      if line[i] == '"' {
        if i + 1 < |line| && line[i + 1] == '"' {
          field := field + ['"'];
          i := i + 2;
          continue;
        }
        i := i + 1;
        return;
      }
      field := field + [line[i]];
      i := i + 1;
    }
    assert field + [] == field && line[|line|..] == [];
  }

  lemma FieldsStep(s: string, fields: seq<string>)
    requires s != []
    ensures fields + Fields(s) == fields + [First(s).field] + Fields(First(s).rest)
  {
    assert fields + ([First(s).field] + Fields(First(s).rest)) == fields + [First(s).field] + Fields(First(s).rest);
  }

  /** One turn of the outer loop: the next field, and where the one after it starts. */
  method ParseField(line: string, start: nat) returns (field: string, i: nat)
    requires start < |line|
    ensures start < i <= |line| && Quoted(field, line[i..]) == First(line[start..])
  {
    var s := line[start..];
    if line[start] == '"' {
      assert s[1..] == line[start + 1..];
      field, i := ParseQuoted(line, start + 1);
      if i < |line| && line[i] == ',' {
        assert line[i..][1..] == line[i + 1..];
        i := i + 1;
      }
      return;
    }
    var comma := Comma(s);
    if comma.None? {
      assert line[|line|..] == [];
      return s, |line|;
    }
    assert s[comma.value + 1..] == line[start + comma.value + 1..];
    return s[..comma.value], start + comma.value + 1;
  }

  method ParseCsvLine(line: string) returns (fields: seq<string>)
    ensures fields == Fields(line)
  {
    fields := [];
    var i := 0;
    ghost var goal := Fields(line);
    assert line[0..] == line && [] + goal == goal;
    while i < |line|
      invariant 0 <= i <= |line| && fields + Fields(line[i..]) == goal
      decreases |line| - i
    {
      FieldsStep(line[i..], fields);
      var field, next := ParseField(line, i);
      fields := fields + [field];
      i := next;
    }
    assert fields + [] == fields;
  }

  // ---- printing -------------------------------------------------------------------------------

  /** A field as a writer may print it: quoted, with its quotes doubled, or as it is. */
  datatype Cell = InQuotes(field: string) | Plain(field: string)

  function Doubled(s: string): string {
    if s == [] then [] else (if s[0] == '"' then ['"', '"'] else [s[0]]) + Doubled(s[1..])
  }

  function PrintCell(c: Cell): string {
    if c.InQuotes? then ['"'] + Doubled(c.field) + ['"'] else c.field
  }

  function PrintLine(cells: seq<Cell>): string {
    if cells == [] then []
    else if |cells| == 1 then PrintCell(cells[0])
    else PrintCell(cells[0]) + [','] + PrintLine(cells[1..])
  }

  function FieldsOf(cells: seq<Cell>): seq<string> {
    seq(|cells|, i requires 0 <= i < |cells| => cells[i].field)
  }

  /** What may stand without quotes. */
  predicate MayBePlain(s: string) { ',' !in s && (s == [] || s[0] != '"') }

  /** A character as it stands between quotes. */
  function InQuotesChar(c: char): string { if c == '"' then ['"', '"'] else [c] }

  lemma DoubledSplits(s: string, end: string)
    requires s != []
    ensures Doubled(s) + end == InQuotesChar(s[0]) + (Doubled(s[1..]) + end)
  {
  }

  lemma OneCharRead(c: char, tail: string)
    ensures ReadQuoted(InQuotesChar(c) + tail) == Quoted([c] + ReadQuoted(tail).field, ReadQuoted(tail).rest)
  {
    if c == '"' {
      assert (['"', '"'] + tail)[2..] == tail;
    } else {
      assert ([c] + tail)[1..] == tail;
    }
  }

  lemma {:induction false} DoubledIsReadBack(s: string, rest: string)
    requires rest == [] || rest[0] != '"'
    ensures ReadQuoted(Doubled(s) + (['"'] + rest)) == Quoted(s, rest)
  {
    if s == [] {
      assert Doubled(s) + (['"'] + rest) == ['"'] + rest && (['"'] + rest)[1..] == rest;
    } else {
      DoubledIsReadBack(s[1..], rest);
      DoubledSplits(s, ['"'] + rest);
      OneCharRead(s[0], Doubled(s[1..]) + (['"'] + rest));
      assert [s[0]] + s[1..] == s;
    }
  }

  lemma {:induction false} CommaAfter(s: string, rest: string)
    requires ',' !in s
    ensures Comma(s + ([','] + rest)) == Some(|s|) && Comma(s) == None
  {
    var whole := s + ([','] + rest);
    if s == [] {
      assert whole[0] == ',';
    } else {
      assert s[0] in s && whole[0] == s[0] && whole[1..] == s[1..] + ([','] + rest);
      CommaAfter(s[1..], rest);
    }
  }

  lemma AfterQuote(quote: string, body: string, after: string)
    requires |quote| == 1
    ensures (quote + body + quote + after)[1..] == body + (quote + after)
    ensures (quote + body + quote + after)[0] == quote[0]
  {
  }

  lemma FirstAfterQuote(s: string, body: string)
    requires s != [] && s[0] == '"' && s[1..] == body
    ensures First(s) == Quoted(ReadQuoted(body).field, AfterComma(ReadQuoted(body).rest))
  {
  }

  lemma QuotedFirst(field: string, rest: string, after: string)
    requires after == [] || after[0] == ','
    requires rest == AfterComma(after)
    ensures First(['"'] + Doubled(field) + ['"'] + after) == Quoted(field, rest)
  {
    DoubledIsReadBack(field, after);
    AfterQuote(['"'], Doubled(field), after);
    FirstAfterQuote(['"'] + Doubled(field) + ['"'] + after, Doubled(field) + (['"'] + after));
  }

  lemma PlainFirst(field: string, rest: string)
    requires MayBePlain(field)
    ensures First(field + ([','] + rest)) == Quoted(field, rest)
  {
    var s := field + ([','] + rest);
    CommaAfter(field, rest);
    assert s[0] == (if field == [] then ',' else field[0]);
    assert s[..|field|] == field && s[|field| + 1..] == rest;
  }

  lemma OneField(s: string, field: string, rest: string)
    requires s != [] && First(s) == Quoted(field, rest)
    ensures Fields(s) == [field] + Fields(rest)
  {
  }

  lemma Regroup(a: string, b: string, c: string)
    ensures (a + b) + c == a + (b + c)
  {
  }

  /** A cell and a comma are read as that cell's field. */
  lemma CellReadBack(c: Cell, rest: string)
    requires c.Plain? ==> MayBePlain(c.field)
    ensures Fields(PrintCell(c) + [','] + rest) == [c.field] + Fields(rest)
  {
    var after := [','] + rest;
    Regroup(PrintCell(c), [','], rest);
    if c.InQuotes? {
      assert after[1..] == rest;
      QuotedFirst(c.field, rest, after);
    } else {
      PlainFirst(c.field, rest);
    }
    OneField(PrintCell(c) + after, c.field, rest);
  }

  /** The last cell is read back unless it is plain and empty. */
  lemma LastCellReadBack(c: Cell)
    requires c.Plain? ==> MayBePlain(c.field)
    ensures Fields(PrintCell(c)) == (if c == Plain([]) then [] else [c.field])
  {
    if c.InQuotes? {
      QuotedFirst(c.field, [], []);
      assert PrintCell(c) + [] == PrintCell(c);
    } else if c.field != [] {
      CommaAfter(c.field, []);
    }
  }

  lemma {:induction false} OpenQuote(s: string)
    ensures ReadQuoted(Doubled(s)) == Quoted(s, [])
  {
    if s != [] {
      OpenQuote(s[1..]);
      OneCharRead(s[0], Doubled(s[1..]));
      assert [s[0]] + s[1..] == s;
    }
  }

  /** A quote that is never closed takes the rest of the line. */
  lemma OpenQuoteTakesAll(field: string)
    ensures Fields(['"'] + Doubled(field)) == [field]
  {
    var s := ['"'] + Doubled(field);
    OpenQuote(field);
    assert s[1..] == Doubled(field);
    OneField(s, field, []);
  }

  /** What stands right after a closing quote, other than a comma, starts the next field. */
  lemma AfterClosingQuote(field: string, more: string)
    requires more != [] && more[0] != ',' && more[0] != '"'
    ensures Fields(['"'] + Doubled(field) + ['"'] + more) == [field] + Fields(more)
  {
    var s := ['"'] + Doubled(field) + ['"'] + more;
    DoubledIsReadBack(field, more);
    AfterQuote(['"'], Doubled(field), more);
    FirstAfterQuote(s, Doubled(field) + (['"'] + more));
    OneField(s, field, more);
  }

  /** What the reader makes of a printed line. */
  function ReadFields(cells: seq<Cell>): seq<string> {
    if cells != [] && cells[|cells| - 1] == Plain([]) then FieldsOf(cells[..|cells| - 1]) else FieldsOf(cells)
  }

  lemma ReadFieldsSplits(cells: seq<Cell>)
    requires |cells| > 1
    ensures ReadFields(cells) == [cells[0].field] + ReadFields(cells[1..])
  {
    var tail := cells[1..];
    assert tail[|tail| - 1] == cells[|cells| - 1];
    assert FieldsOf(cells) == [cells[0].field] + FieldsOf(tail);
    assert FieldsOf(cells[..|cells| - 1]) == [cells[0].field] + FieldsOf(tail[..|tail| - 1]);
  }

  predicate Printable(cells: seq<Cell>) {
    forall i | 0 <= i < |cells| :: cells[i].Plain? ==> MayBePlain(cells[i].field)
  }

  lemma OneCellReadBack(cells: seq<Cell>)
    requires |cells| == 1 && Printable(cells)
    ensures Fields(PrintLine(cells)) == ReadFields(cells)
  {
    LastCellReadBack(cells[0]);
    assert FieldsOf(cells) == [cells[0].field];
  }

  lemma PrintLineSplits(cells: seq<Cell>)
    requires |cells| > 1
    ensures PrintLine(cells) == PrintCell(cells[0]) + [','] + PrintLine(cells[1..])
  {
  }

  lemma {:induction false} LineReadBack(cells: seq<Cell>)
    requires Printable(cells)
    ensures Fields(PrintLine(cells)) == ReadFields(cells)
  {
    if |cells| == 1 {
      OneCellReadBack(cells);
    } else if |cells| > 1 {
      var tail := cells[1..];
      assert Printable(tail);
      PrintLineSplits(cells);
      CellReadBack(cells[0], PrintLine(tail));
      LineReadBack(tail);
      ReadFieldsSplits(cells);
    }
  }

  /** A printed line gives back its fields exactly when it does not end in a plain empty one. */
  lemma CsvRoundTrip(cells: seq<Cell>)
    requires Printable(cells)
    ensures Fields(PrintLine(cells)) == FieldsOf(cells)
            <==> cells == [] || cells[|cells| - 1] != Plain([])
  {
    LineReadBack(cells);
    assert cells != [] ==> |FieldsOf(cells[..|cells| - 1])| < |FieldsOf(cells)|;
  }

  /** With every field quoted, any list of any strings comes back. */
  lemma QuotedFieldsRoundTrip(fields: seq<string>)
    ensures Fields(PrintLine(seq(|fields|, i requires 0 <= i < |fields| => InQuotes(fields[i])))) == fields
  {
    var cells := seq(|fields|, i requires 0 <= i < |fields| => InQuotes(fields[i]));
    CsvRoundTrip(cells);
    assert FieldsOf(cells) == fields;
  }
}
