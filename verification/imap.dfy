/**
 * The line reader of the IMAP client (packages/shared/src/steam/imap.ts): a logical line runs to
 * the first CRLF that does not follow a literal header `{n}`, and a literal's n octets belong to
 * the line whatever they are (RFC 3501, section 4.3). Octets are characters here, as in the
 * Latin-1 text the reader searches.
 */
module Imap {
  import opened Decimal
  import opened LineStreams
  import opened Wrappers

  const CRLF: string := "\r\n"

  predicate CrlfAt(raw: string, j: nat) {
    j + 1 < |raw| && raw[j] == '\r' && raw[j + 1] == '\n'
  }

  /** `raw.indexOf('\r\n', i)`. */
  function IndexOfCrlf(raw: string, i: nat): (at: Option<nat>)
    ensures at.Some? ==> i <= at.value && CrlfAt(raw, at.value)
    decreases |raw| - i
  {
    if i + 1 >= |raw| then None
    else if CrlfAt(raw, i) then Some(i)
    else IndexOfCrlf(raw, i + 1)
  }

  /** How many of the last characters of `s` are digits. */
  function DigitSuffix(s: string): (n: nat)
    ensures n <= |s| && forall i | |s| - n <= i < |s| :: IsDigit(s[i])
  {
    if s == [] || !IsDigit(s[|s| - 1]) then 0 else DigitSuffix(s[..|s| - 1]) + 1
  }

  /** The length announced by a segment matching `/\{(\d+)\}$/`. */
  function LiteralLength(segment: string): Option<nat> {
    if segment == [] || segment[|segment| - 1] != '}' then None
    else
      var inner := segment[..|segment| - 1];
      var n := DigitSuffix(inner);
      if n == 0 || n == |inner| || inner[|inner| - n - 1] != '{' then None
      else Some(ParseNat(inner[|inner| - n..]))
  }

  lemma {:induction false} DigitsAre(s: string, n: nat)
    requires n <= |s| && (forall i | |s| - n <= i < |s| :: IsDigit(s[i])) && (n < |s| ==> !IsDigit(s[|s| - n - 1]))
    ensures DigitSuffix(s) == n
    decreases n
  {
    if n > 0 {
      DigitsAre(s[..|s| - 1], n - 1);
    }
  }

  /** The number of a header's braces. */
  ghost predicate Braced(segment: string, text: string, digits: string) {
    segment == text + "{" + digits + "}" && digits != [] && AllDigits(digits)
  }

  lemma BracedAnnounces(segment: string, text: string, digits: string)
    requires Braced(segment, text, digits)
    ensures LiteralLength(segment) == Some(ParseNat(digits))
  {
    var inner := segment[..|segment| - 1];
    assert inner == text + "{" + digits;
    DigitsAre(inner, |digits|);
    assert inner[|inner| - |digits|..] == digits;
  }

  lemma AnnouncedIsBraced(segment: string) returns (text: string, digits: string)
    requires LiteralLength(segment).Some?
    ensures Braced(segment, text, digits)
  {
    var inner := segment[..|segment| - 1];
    var d := DigitSuffix(inner);
    text, digits := inner[..|inner| - d - 1], inner[|inner| - d..];
    assert inner == text + "{" + digits;
  }

  /** A segment announces a literal exactly when it ends in a decimal number between braces. */
  lemma AnnouncesIffBraced(segment: string, n: nat)
    ensures LiteralLength(segment) == Some(n) <==>
              exists text: string, digits: string :: Braced(segment, text, digits) && ParseNat(digits) == n
  {
    if LiteralLength(segment).Some? {
      var text, digits := AnnouncedIsBraced(segment);
      BracedAnnounces(segment, text, digits);
    }
    if text: string, digits: string :| Braced(segment, text, digits) && ParseNat(digits) == n {
      BracedAnnounces(segment, text, digits);
    }
  }

  /** What the text from `i` turns out to be. */
  datatype Piece =
    | Incomplete
    | Ends(crlf: nat)                      // the line ends at this CRLF
    | Skips(next: nat)                     // a literal ends where the scan goes on

  function NextPiece(raw: string, i: nat): (p: Piece)
    ensures p.Ends? ==> i <= p.crlf && CrlfAt(raw, p.crlf)
    ensures p.Skips? ==> i + 2 <= p.next <= |raw|
  {
    match IndexOfCrlf(raw, i)
    case None => Incomplete
    case Some(crlf) =>
      match LiteralLength(raw[i..crlf])
      case None => Ends(crlf)
      case Some(n) => if crlf + 2 + n > |raw| then Incomplete else Skips(crlf + 2 + n)
  }

  /** The position of the CRLF that ends the logical line, scanning from `i`. */
  function LineEnd(raw: string, i: nat): (end: Option<nat>)
    ensures end.Some? ==> i <= end.value && CrlfAt(raw, end.value)
    decreases |raw| - i
  {
    if i >= |raw| then None
    else
      match NextPiece(raw, i)
      case Incomplete => None
      case Ends(crlf) => Some(crlf)
      case Skips(next) => LineEnd(raw, next)
  }

  function ParseLogicalLine(buf: string): Option<Parsed> {
    match LineEnd(buf, 0)
    case None => None
    case Some(end) => Some(Parsed(buf[..end], buf[end + 2..]))
  }

  method TryParseLogicalLine(buf: string) returns (parsed: Option<Parsed>)
    ensures parsed == ParseLogicalLine(buf)
  {
    var i := 0;
    while i < |buf|
      invariant 0 <= i <= |buf| && LineEnd(buf, 0) == LineEnd(buf, i)
      decreases |buf| - i
    {
      match NextPiece(buf, i)
      case Incomplete => return None;
      case Skips(next) => i := next;
      case Ends(crlf) => return Some(Parsed(buf[..crlf], buf[crlf + 2..]));
    }
    return None;
  }

  // ---- chunks do not matter -------------------------------------------------------------------

  lemma {:induction false} IndexOfCrlfExtends(raw: string, more: string, i: nat)
    requires IndexOfCrlf(raw, i).Some?
    ensures IndexOfCrlf(raw + more, i) == IndexOfCrlf(raw, i)
    decreases |raw| - i
  {
    if !CrlfAt(raw, i) {
      IndexOfCrlfExtends(raw, more, i + 1);
    }
  }

  lemma NextPieceExtends(raw: string, more: string, i: nat)
    requires !NextPiece(raw, i).Incomplete?
    ensures NextPiece(raw + more, i) == NextPiece(raw, i)
  {
    IndexOfCrlfExtends(raw, more, i);
    assert (raw + more)[i..IndexOfCrlf(raw, i).value] == raw[i..IndexOfCrlf(raw, i).value];
  }

  lemma {:induction false} LineEndExtends(raw: string, more: string, i: nat)
    requires LineEnd(raw, i).Some?
    ensures LineEnd(raw + more, i) == LineEnd(raw, i)
    decreases |raw| - i
  {
    NextPieceExtends(raw, more, i);
    if NextPiece(raw, i).Skips? {
      LineEndExtends(raw, more, NextPiece(raw, i).next);
    }
  }

  lemma CutExtends(buf: string, more: string, end: nat)
    requires end + 2 <= |buf|
    ensures (buf + more)[..end] == buf[..end] && (buf + more)[end + 2..] == buf[end + 2..] + more
  {
  }

  /** A line that has been read is not changed by what arrives later. */
  lemma AppendKeepsLine(buf: string, more: string)
    requires ParseLogicalLine(buf).Some?
    ensures ParseLogicalLine(buf + more)
            == Some(Parsed(ParseLogicalLine(buf).value.line, ParseLogicalLine(buf).value.rest + more))
  {
    LineEndExtends(buf, more, 0);
    CutExtends(buf, more, LineEnd(buf, 0).value);
  }

  /** What is read and what is kept are the whole buffer. */
  lemma NothingIsLost(buf: string)
    requires ParseLogicalLine(buf).Some?
    ensures buf == ParseLogicalLine(buf).value.line + CRLF + ParseLogicalLine(buf).value.rest
  {
    var end := LineEnd(buf, 0).value;
    assert buf == buf[..end] + [buf[end], buf[end + 1]] + buf[end + 2..];
  }

  /** Every proper prefix of a line and its CRLF asks for more. */
  lemma ProperPrefixAsksForMore(buf: string, k: nat)
    requires ParseLogicalLine(buf).Some? && k < |ParseLogicalLine(buf).value.line| + 2
    ensures k <= |buf| && ParseLogicalLine(buf[..k]).None?
  {
    NothingIsLost(buf);
    var head, tail := buf[..k], buf[k..];
    assert head + tail == buf;
    if ParseLogicalLine(head).Some? {
      NothingIsLost(head);
      AppendKeepsLine(head, tail);
    }
  }

  lemma LogicalLinesAreSteady()
    ensures Steady(ParseLogicalLine)
  {
    forall buf, more | ParseLogicalLine(buf).Some?
      ensures ParseLogicalLine(buf + more)
              == Some(Parsed(ParseLogicalLine(buf).value.line, ParseLogicalLine(buf).value.rest + more))
    {
      AppendKeepsLine(buf, more);
    }
  }

  /** The lines of an IMAP stream do not depend on how the socket cuts it. */
  lemma ImapChunksDoNotMatter(chunks: seq<string>)
    ensures Steady(ParseLogicalLine)
    ensures Fed(ParseLogicalLine, chunks) == AllLines(ParseLogicalLine, Joined(chunks))
  {
    LogicalLinesAreSteady();
    ChunksDoNotMatter(ParseLogicalLine, chunks);
  }

  /** The client's buffer: chunks are appended, lines are taken off the front. */
  class ImapClient {
    var buf: string
    ghost var received: string
    ghost var delivered: seq<string>

    ghost predicate Valid()
      reads this
    {
      Tracks(ParseLogicalLine, received, delivered, buf)
    }

    constructor ()
      ensures Valid() && buf == "" && received == "" && delivered == []
    {
      buf, received, delivered := "", "", [];
      LogicalLinesAreSteady();
    }

    method OnData(chunk: string)
      requires Valid()
      modifies this
      ensures Valid() && received == old(received) + chunk && delivered == old(delivered)
      ensures buf == old(buf) + chunk
    {
      TracksChunk(ParseLogicalLine, received, delivered, buf, chunk);
      buf := buf + chunk;
      received := received + chunk;
    }

    /**
     * readLogicalLine between two waits: the next line of everything received so far, or none
     * when every such line has been delivered.
     */
    method TakeLine() returns (line: Option<string>)
      requires Valid()
      modifies this
      ensures Valid() && received == old(received)
      ensures line.None? ==>
                && buf == old(buf) && delivered == old(delivered)
                && AllLines(ParseLogicalLine, received).lines == delivered
      ensures line.Some? ==>
                && delivered == old(delivered) + [line.value]
                && delivered <= AllLines(ParseLogicalLine, received).lines
                && old(buf) == line.value + CRLF + buf
    {
      var parsed := TryParseLogicalLine(buf);
      TracksLine(ParseLogicalLine, received, delivered, buf);
      if parsed.None? { return None; }
      NothingIsLost(buf);
      buf := parsed.value.rest;
      delivered := delivered + [parsed.value.line];
      return Some(parsed.value.line);
    }
  }
}
