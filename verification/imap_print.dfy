/**
 * Logical lines as RFC 3501 (section 4.3) has a server send them: runs of text ending in a literal
 * header, each followed by that literal's octets, and a final text.
 */
module ImapPrint {
  import opened Decimal
  import opened Imap
  import opened ImapLayout
  import opened LineStreams
  import opened Wrappers

  predicate PlainText(s: string) { forall j | 0 <= j < |s| :: !CrlfAt(s, j) }

  function Header(text: string, n: nat): string { text + "{" + PrintNat(n) + "}" }

  /** The text holds no CRLF and ends in a header announcing exactly the octets that follow. */
  predicate Announced(p: Part) { PlainText(p.head) && LiteralLength(p.head) == Some(|p.octets|) }

  lemma {:induction false} DigitsEndAtNonDigit(head: string, digits: string)
    requires AllDigits(digits) && (head == [] || !IsDigit(head[|head| - 1]))
    ensures DigitSuffix(head + digits) == |digits|
    decreases |digits|
  {
    var s := head + digits;
    if digits == [] {
      assert s == head;
    } else {
      assert s[..|s| - 1] == head + digits[..|digits| - 1];
      DigitsEndAtNonDigit(head, digits[..|digits| - 1]);
    }
  }

  lemma HeaderLength(text: string, n: nat)
    ensures LiteralLength(Header(text, n)) == Some(n)
  {
    var digits, header := PrintNat(n), Header(text, n);
    PrintNatParses(n);
    DigitsEndAtNonDigit(text + "{", digits);
    var inner := header[..|header| - 1];
    assert inner == text + "{" + digits;
    assert inner[|inner| - |digits|..] == digits;
  }

  lemma HeaderIsPlain(text: string, n: nat)
    requires PlainText(text)
    ensures PlainText(Header(text, n))
  {
    var header := Header(text, n);
    PrintNatParses(n);
    forall j | 0 <= j < |header| ensures !CrlfAt(header, j) {
      assert j + 1 < |text| ==> !CrlfAt(text, j);
    }
  }

  /** Any text with a decimal header is a good part, whatever the octets are. */
  lemma HeaderAnnounces(text: string, octets: string)
    requires PlainText(text)
    ensures Announced(Part(Header(text, |octets|), octets))
  {
    HeaderLength(text, |octets|);
    HeaderIsPlain(text, |octets|);
  }

  lemma {:induction false} FirstCrlf(raw: string, i: nat, segment: string)
    requires SegmentAt(raw, i, segment) && PlainText(segment)
    ensures IndexOfCrlf(raw, i) == Some(i + |segment|)
    decreases |segment|
  {
    if segment != [] {
      assert segment[0] == raw[i];
      assert |segment| > 1 ==> segment[1] == raw[i + 1];
      assert !CrlfAt(segment, 0);
      var tail := segment[1..];
      assert raw[i + 1..i + 1 + |tail|] == tail;
      forall j | 0 <= j < |tail| ensures !CrlfAt(tail, j) {
        assert !CrlfAt(segment, j + 1);
      }
      FirstCrlf(raw, i + 1, tail);
    }
  }

  lemma EndsAtSegment(raw: string, i: nat, segment: string)
    requires SegmentAt(raw, i, segment) && PlainText(segment)
    ensures LineEnd(raw, i) == Some(i + |segment|) <==> LiteralLength(segment).None?
  {
    FirstCrlf(raw, i, segment);
  }

  lemma SkipsPart(raw: string, i: nat, p: Part)
    requires SegmentAt(raw, i, p.head) && Announced(p) && Beyond(i, p) <= |raw|
    ensures LineEnd(raw, i) == LineEnd(raw, Beyond(i, p))
  {
    FirstCrlf(raw, i, p.head);
    assert NextPiece(raw, i) == Skips(Beyond(i, p));
  }

  lemma PrintedLineEnds(raw: string, parts: seq<Part>, final: string)
    requires PrintedAt(raw, 0, parts, final)
    requires PlainText(final) && forall k | 0 <= k < |parts| :: Announced(parts[k])
    ensures LineEnd(raw, 0) == Some(|Print(parts, final)|) <==> LiteralLength(final).None?
  {
    var scan := (i: nat) => LineEnd(raw, i);
    forall i: nat, k | 0 <= k < |parts| && SegmentAt(raw, i, parts[k].head) && Beyond(i, parts[k]) <= |raw|
      ensures scan(i) == scan(Beyond(i, parts[k]))
    {
      SkipsPart(raw, i, parts[k]);
    }
    forall i: nat | SegmentAt(raw, i, final)
      ensures scan(i) == Some(i + |final|) <==> LiteralLength(final).None?
    {
      EndsAtSegment(raw, i, final);
    }
    ScanEnds(raw, parts, final, scan, LiteralLength(final).None?);
  }

  lemma ReadAt(line: string, rest: string)
    ensures ParseLogicalLine(line + CRLF + rest) == Some(Parsed(line, rest))
            <==> LineEnd(line + CRLF + rest, 0) == Some(|line|)
  {
    var raw := line + CRLF + rest;
    assert raw[..|line|] == line && raw[|line| + 2..] == rest;
    if LineEnd(raw, 0).Some? {
      assert |raw[..LineEnd(raw, 0).value]| == LineEnd(raw, 0).value;
    }
  }

  /**
   * A line made of announced literals is read back whole, whatever octets the literals hold, exactly
   * when its final text does not itself end in a literal header.
   */
  lemma PrintedLineIsReadBack(parts: seq<Part>, final: string, rest: string)
    requires PlainText(final) && forall k | 0 <= k < |parts| :: Announced(parts[k])
    ensures ParseLogicalLine(Print(parts, final) + CRLF + rest) == Some(Parsed(Print(parts, final), rest))
            <==> LiteralLength(final).None?
  {
    StandsAtStart(parts, final, rest);
    PrintedLineEnds(Print(parts, final) + CRLF + rest, parts, final);
    ReadAt(Print(parts, final), rest);
  }
}
