/** Where the pieces of a printed logical line stand in a buffer. */
module ImapLayout {
  import opened Imap
  import opened Wrappers

  /** Text ending in a literal header, and the octets that follow its CRLF. */
  datatype Part = Part(head: string, octets: string)

  function Print(parts: seq<Part>, final: string): string {
    if parts == [] then final
    else parts[0].head + CRLF + parts[0].octets + Print(parts[1..], final)
  }

  /** `segment` and a CRLF stand at `i`. */
  predicate SegmentAt(raw: string, i: nat, segment: string) {
    i + |segment| <= |raw| && raw[i..i + |segment|] == segment && CrlfAt(raw, i + |segment|)
  }

  function Beyond(i: nat, p: Part): nat { i + |p.head| + 2 + |p.octets| }

  /** Where the final text starts. */
  function FinalAt(i: nat, parts: seq<Part>): nat
    decreases |parts|
  {
    if parts == [] then i else FinalAt(Beyond(i, parts[0]), parts[1..])
  }

  /** The printed line and its CRLF stand at `i`. */
  predicate PrintedAt(raw: string, i: nat, parts: seq<Part>, final: string)
    decreases |parts|
  {
    if parts == [] then SegmentAt(raw, i, final)
    else
      && SegmentAt(raw, i, parts[0].head) && Beyond(i, parts[0]) <= |raw|
      && PrintedAt(raw, Beyond(i, parts[0]), parts[1..], final)
  }

  /** Taking `segment`, a CRLF and `octets` off the front of the text from `i`. */
  lemma TakeSegment(raw: string, i: nat, segment: string, octets: string, tail: string)
    requires i <= |raw| && raw[i..] == segment + CRLF + octets + tail
    ensures var next := i + |segment| + 2 + |octets|;
            next <= |raw| && raw[next..] == tail && SegmentAt(raw, i, segment)
  {
    var whole := segment + CRLF + octets + tail;
    assert forall k | 0 <= k < |whole| :: raw[i + k] == whole[k];
    assert raw[i..i + |segment|] == segment;
    assert whole[|segment|] == '\r' && whole[|segment| + 1] == '\n';
    assert whole[|segment| + 2 + |octets|..] == tail;
    assert raw[i + |segment| + 2 + |octets|..] == tail;
  }

  lemma Regroup(head: string, octets: string, printed: string, rest: string)
    ensures (head + CRLF + octets + printed) + CRLF + rest == head + CRLF + octets + (printed + CRLF + rest)
  {
  }

  lemma {:induction false} PrintedStandsThere(raw: string, i: nat, parts: seq<Part>, final: string, rest: string)
    requires i <= |raw| && raw[i..] == Print(parts, final) + CRLF + rest
    ensures PrintedAt(raw, i, parts, final)
    decreases |parts|
  {
    if parts == [] {
      assert final + CRLF + rest == final + CRLF + "" + rest;
      TakeSegment(raw, i, final, "", rest);
    } else {
      var p, printed := parts[0], Print(parts[1..], final);
      Regroup(p.head, p.octets, printed, rest);
      TakeSegment(raw, i, p.head, p.octets, printed + CRLF + rest);
      PrintedStandsThere(raw, Beyond(i, p), parts[1..], final, rest);
    }
  }

  lemma StandsAtStart(parts: seq<Part>, final: string, rest: string)
    ensures PrintedAt(Print(parts, final) + CRLF + rest, 0, parts, final)
  {
    var raw := Print(parts, final) + CRLF + rest;
    assert raw[0..] == raw;
    PrintedStandsThere(raw, 0, parts, final, rest);
  }

  lemma {:induction false} FinalEnds(i: nat, parts: seq<Part>, final: string)
    ensures FinalAt(i, parts) + |final| == i + |Print(parts, final)|
    decreases |parts|
  {
    if parts != [] {
      FinalEnds(Beyond(i, parts[0]), parts[1..], final);
    }
  }

  /** A scan that is unmoved by skipping any one part is unmoved by skipping all of them. */
  lemma {:induction false} SkipAll<T>(raw: string, i: nat, parts: seq<Part>, final: string, scan: nat -> T)
    requires PrintedAt(raw, i, parts, final)
    requires forall i: nat, k {:trigger SegmentAt(raw, i, parts[k].head)} |
               0 <= k < |parts| && SegmentAt(raw, i, parts[k].head) && Beyond(i, parts[k]) <= |raw| ::
               scan(i) == scan(Beyond(i, parts[k]))
    ensures scan(i) == scan(FinalAt(i, parts)) && SegmentAt(raw, FinalAt(i, parts), final)
    decreases |parts|
  {
    if parts != [] {
      var others := parts[1..];
      forall j: nat, k | 0 <= k < |others| && SegmentAt(raw, j, others[k].head) && Beyond(j, others[k]) <= |raw|
        ensures scan(j) == scan(Beyond(j, others[k]))
      {
        assert SegmentAt(raw, j, parts[k + 1].head);
      }
      SkipAll(raw, Beyond(i, parts[0]), others, final, scan);
    }
  }

  /** A scan that skips every part ends at the end of the line just when it stops at the final text. */
  lemma ScanEnds(raw: string, parts: seq<Part>, final: string, scan: nat -> Option<nat>, stops: bool)
    requires PrintedAt(raw, 0, parts, final)
    requires forall i: nat, k {:trigger SegmentAt(raw, i, parts[k].head)} |
               0 <= k < |parts| && SegmentAt(raw, i, parts[k].head) && Beyond(i, parts[k]) <= |raw| ::
               scan(i) == scan(Beyond(i, parts[k]))
    requires forall i: nat | SegmentAt(raw, i, final) :: scan(i) == Some(i + |final|) <==> stops
    ensures scan(0) == Some(|Print(parts, final)|) <==> stops
  {
    SkipAll(raw, 0, parts, final, scan);
    FinalEnds(0, parts, final);
  }
}
