/** Quoting a user name or a password for an IMAP command (packages/shared/src/steam/imap.ts). */
module ImapQuote {
  import opened Imap
  import opened Wrappers

  function ReplaceAll(s: string, c: char, text: string): string {
    if s == [] then [] else (if s[0] == c then text else [s[0]]) + ReplaceAll(s[1..], c, text)
  }

  /** quoteImapString: backslashes are doubled first, then quotes are escaped. */
  function QuoteImapString(value: string): string {
    "\"" + ReplaceAll(ReplaceAll(value, '\\', "\\\\"), '"', "\\\"") + "\""
  }

  /** The characters a quote turns `c` into. */
  function EscapedChar(c: char): string { if c == '\\' || c == '"' then ['\\', c] else [c] }

  /** Both passes at once. */
  function Escaped(value: string): string {
    if value == [] then [] else EscapedChar(value[0]) + Escaped(value[1..])
  }

  lemma ReplaceAllCons(x: char, s: string, c: char, text: string)
    ensures ReplaceAll([x] + s, c, text) == (if x == c then text else [x]) + ReplaceAll(s, c, text)
  {
    assert ([x] + s)[1..] == s;
  }

  lemma {:induction false} TwoPassesEscape(value: string)
    ensures ReplaceAll(ReplaceAll(value, '\\', "\\\\"), '"', "\\\"") == Escaped(value)
  {
    if value != [] {
      var x, inner := value[0], ReplaceAll(value[1..], '\\', "\\\\");
      TwoPassesEscape(value[1..]);
      if x == '\\' {
        assert "\\\\" + inner == ['\\'] + (['\\'] + inner);
        ReplaceAllCons('\\', ['\\'] + inner, '"', "\\\"");
        ReplaceAllCons('\\', inner, '"', "\\\"");
      } else {
        ReplaceAllCons(x, inner, '"', "\\\"");
      }
    }
  }

  /** TEXT-CHAR of RFC 3501 (section 9): a seven-bit character other than NUL, CR and LF. */
  predicate TextChar(c: char) { 1 <= c as int <= 127 && c != '\r' && c != '\n' }

  predicate AllText(s: string) { forall c | c in s :: TextChar(c) }

  /** A server's reading of a quoted string (RFC 3501, section 9): its value and what follows it. */
  function Unquote(s: string): Option<(string, string)> {
    if s == [] || s[0] != '"' then None else UnquoteBody(s[1..])
  }

  /** Between the quotes stand TEXT-CHARs; a backslash makes a quote or a backslash one of them. */
  function UnquoteBody(s: string): Option<(string, string)>
    decreases |s|
  {
    if s == [] then None
    else if s[0] == '"' then Some(([], s[1..]))
    else
      var escaped := s[0] == '\\';
      if escaped && (|s| < 2 || (s[1] != '\\' && s[1] != '"')) then None
      else if !TextChar(s[0]) then None
      else
        match UnquoteBody(if escaped then s[2..] else s[1..])
        case None => None
        case Some((v, rest)) => Some(([if escaped then s[1] else s[0]] + v, rest))
  }

  lemma PlainCharReads(c: char, tail: string)
    requires c != '"' && c != '\\'
    ensures UnquoteBody([c] + tail) ==
              if !TextChar(c) || UnquoteBody(tail).None? then None
              else Some(([c] + UnquoteBody(tail).value.0, UnquoteBody(tail).value.1))
  {
    assert ([c] + tail)[1..] == tail;
  }

  lemma EscapedCharReads(c: char, tail: string)
    requires c == '"' || c == '\\'
    ensures UnquoteBody(['\\', c] + tail) ==
              if UnquoteBody(tail).None? then None
              else Some(([c] + UnquoteBody(tail).value.0, UnquoteBody(tail).value.1))
  {
    assert (['\\', c] + tail)[2..] == tail;
  }

  lemma EscapedSplits(c: char, others: string, end: string)
    ensures Escaped([c] + others) + end == EscapedChar(c) + (Escaped(others) + end)
  {
    assert ([c] + others)[1..] == others;
  }

  lemma CharReads(c: char, tail: string)
    ensures UnquoteBody(EscapedChar(c) + tail) ==
              if !TextChar(c) || UnquoteBody(tail).None? then None
              else Some(([c] + UnquoteBody(tail).value.0, UnquoteBody(tail).value.1))
  {
    if c == '\\' || c == '"' {
      EscapedCharReads(c, tail);
    } else {
      PlainCharReads(c, tail);
    }
  }

  lemma {:induction false} EscapedIsReadBack(value: string, rest: string)
    ensures UnquoteBody(Escaped(value) + (['"'] + rest))
            == if AllText(value) then Some((value, rest)) else None
  {
    if value == [] {
      assert Escaped(value) + (['"'] + rest) == ['"'] + rest;
    } else {
      var c, others := value[0], value[1..];
      assert [c] + others == value;
      EscapedIsReadBack(others, rest);
      AllTextSplits(value);
      EscapedSplits(c, others, ['"'] + rest);
      CharReads(c, Escaped(others) + (['"'] + rest));
    }
  }

  lemma AllTextSplits(value: string)
    requires value != []
    ensures AllText(value) <==> TextChar(value[0]) && AllText(value[1..])
  {
    assert value == [value[0]] + value[1..];
  }

  lemma QuotesEscaped(value: string, rest: string)
    ensures Unquote(QuoteImapString(value) + rest) == UnquoteBody(Escaped(value) + (['"'] + rest))
  {
    TwoPassesEscape(value);
    assert (QuoteImapString(value) + rest)[1..] == Escaped(value) + (['"'] + rest);
  }

  /**
   * A server reads a quoted value as it is exactly when the value is all TEXT-CHARs; any other
   * value is not a quoted string at all. Quotes and backslashes never end it early.
   */
  lemma QuotedStringIsReadBack(value: string, rest: string)
    ensures Unquote(QuoteImapString(value) + rest) == Some((value, rest)) <==> AllText(value)
    ensures Unquote(QuoteImapString(value) + rest).None? <==> !AllText(value)
  {
    QuotesEscaped(value, rest);
    EscapedIsReadBack(value, rest);
  }

  /** A line break in a user name or a password is sent as it is, and ends the command's line. */
  lemma LineBreakIsRefused(before: string, after: string, rest: string) returns (i: nat)
    ensures var value := before + ['\r', '\n'] + after;
            Unquote(QuoteImapString(value) + rest).None? && CrlfAt(QuoteImapString(value), i)
  {
    var value := before + ['\r', '\n'] + after;
    assert value[|before|] == '\r' && value[|before|] in value;
    QuotedStringIsReadBack(value, rest);
    TwoPassesEscape(value);
    i := EscapedKeepsLineBreak(before, after);
    assert QuoteImapString(value) == ['"'] + Escaped(value) + ['"'];
    i := i + 1;
  }

  lemma {:induction false} EscapedKeepsLineBreak(before: string, after: string) returns (i: nat)
    ensures CrlfAt(Escaped(before + ['\r', '\n'] + after), i)
  {
    var value := before + ['\r', '\n'] + after;
    if before == [] {
      assert value[0] == '\r' && value[1..][0] == '\n';
      i := 0;
    } else {
      i := EscapedKeepsLineBreak(before[1..], after);
      assert value[1..] == before[1..] + ['\r', '\n'] + after;
      i := i + |EscapedChar(value[0])|;
    }
  }
}
