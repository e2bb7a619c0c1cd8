/**
 * Taking lines off the front of a growing buffer, for any reader that never changes its mind
 * once it has seen a whole line.
 */
module LineStreams {
  import opened Wrappers

  datatype Parsed = Parsed(line: string, rest: string)

  type Reader = string -> Option<Parsed>

  /** A line that was read stays the same whatever arrives later, and uses up part of the buffer. */
  ghost predicate Steady(read: Reader) {
    && (forall buf | read(buf).Some? :: |read(buf).value.rest| < |buf|)
    && (forall buf, more {:trigger read(buf + more)} | read(buf).Some? ::
          read(buf + more) == Some(Parsed(read(buf).value.line, read(buf).value.rest + more)))
  }

  datatype Lines = Lines(lines: seq<string>, rest: string)

  /** Every line a buffer holds, and the tail that is not a line yet. */
  ghost function AllLines(read: Reader, buf: string): Lines
    requires Steady(read)
    decreases |buf|
  {
    match read(buf)
    case None => Lines([], buf)
    case Some(p) =>
      var more := AllLines(read, p.rest);
      Lines([p.line] + more.lines, more.rest)
  }

  /** Reading everything readable after each chunk. */
  ghost function Fed(read: Reader, chunks: seq<string>): Lines
    requires Steady(read)
  {
    if chunks == [] then Lines([], "")
    else
      var before := Fed(read, chunks[..|chunks| - 1]);
      var now := AllLines(read, before.rest + chunks[|chunks| - 1]);
      Lines(before.lines + now.lines, now.rest)
  }

  function Joined(chunks: seq<string>): string {
    if chunks == [] then "" else Joined(chunks[..|chunks| - 1]) + chunks[|chunks| - 1]
  }

  lemma {:induction false} ReadingResumes(read: Reader, buf: string, more: string)
    requires Steady(read)
    ensures AllLines(read, buf + more) ==
              var tail := AllLines(read, AllLines(read, buf).rest + more);
              Lines(AllLines(read, buf).lines + tail.lines, tail.rest)
    decreases |buf|
  {
    match read(buf)
    case None =>
      assert [] + AllLines(read, buf + more).lines == AllLines(read, buf + more).lines;
    case Some(p) =>
      assert read(buf + more) == Some(Parsed(p.line, p.rest + more));
      ReadingResumes(read, p.rest, more);
      var inner := AllLines(read, p.rest);
      var tail := AllLines(read, inner.rest + more);
      assert [p.line] + (inner.lines + tail.lines) == [p.line] + inner.lines + tail.lines;
  }

  /** However a stream is cut into chunks, the same lines come out, and the same tail is left. */
  lemma {:induction false} ChunksDoNotMatter(read: Reader, chunks: seq<string>)
    requires Steady(read)
    ensures Fed(read, chunks) == AllLines(read, Joined(chunks))
  {
    if chunks != [] {
      var before := chunks[..|chunks| - 1];
      ChunksDoNotMatter(read, before);
      ReadingResumes(read, Joined(before), chunks[|chunks| - 1]);
    }
  }

  /** Nothing more can be read from what AllLines leaves. */
  lemma {:induction false} RestIsUnread(read: Reader, buf: string)
    requires Steady(read)
    ensures read(AllLines(read, buf).rest).None?
    decreases |buf|
  {
    if read(buf).Some? {
      RestIsUnread(read, read(buf).value.rest);
    }
  }

  /** `delivered` are the first lines of everything `received`; the others are still in `buf`. */
  ghost predicate Tracks(read: Reader, received: string, delivered: seq<string>, buf: string) {
    && Steady(read)
    && AllLines(read, received) == Lines(delivered + AllLines(read, buf).lines, AllLines(read, buf).rest)
  }

  lemma TracksChunk(read: Reader, received: string, delivered: seq<string>, buf: string, chunk: string)
    requires Tracks(read, received, delivered, buf)
    ensures Tracks(read, received + chunk, delivered, buf + chunk)
  {
    var kept := AllLines(read, buf).rest + chunk;
    ReadingResumes(read, received, chunk);
    ReadingResumes(read, buf, chunk);
    Regroup(delivered, AllLines(read, buf).lines, AllLines(read, kept),
            AllLines(read, received + chunk), AllLines(read, buf + chunk));
  }

  lemma Regroup(delivered: seq<string>, mine: seq<string>, tail: Lines, all: Lines, here: Lines)
    requires all == Lines(delivered + mine + tail.lines, tail.rest)
    requires here == Lines(mine + tail.lines, tail.rest)
    ensures all == Lines(delivered + here.lines, here.rest)
  {
    assert delivered + mine + tail.lines == delivered + (mine + tail.lines);
  }

  lemma TracksLine(read: Reader, received: string, delivered: seq<string>, buf: string)
    requires Tracks(read, received, delivered, buf)
    ensures read(buf).None? ==> AllLines(read, received).lines == delivered
    ensures read(buf).Some? ==>
              && Tracks(read, received, delivered + [read(buf).value.line], read(buf).value.rest)
              && delivered + [read(buf).value.line] <= AllLines(read, received).lines
  {
    match read(buf)
    case None =>
    case Some(p) =>
      var more := AllLines(read, p.rest).lines;
      assert delivered + ([p.line] + more) == delivered + [p.line] + more;
  }
}
