/**
 * Base 128 varints (packages/shared/src/gc/protobuf.ts; "Base 128 Varints" in the Protocol Buffers
 * encoding specification). Numbers are unbounded here, as bigint is.
 */
module Varints {
  import opened Wrappers

  type byte = x: int | 0 <= x < 256

  datatype Error = VarintTooLong | TruncatedVarint | TruncatedFixed32 | TruncatedFixed64 | UnsupportedWire(wire: nat)

  /** A value and how many bytes it took. */
  datatype Read = Read(value: int, used: nat)

  /** At most this many groups of seven bits are read. */
  const GROUPS: nat := 10

  /** `b & 0x7f`. */
  function Low7(b: byte): nat { if b < 128 then b else b - 128 }

  function Groups(n: nat): (p: nat)
    ensures p > 0
  {
    if n == 0 then 1 else 128 * Groups(n - 1)
  }

  /** Reading from the front of `s` with `groups` bytes allowed. */
  function ReadFrom(s: seq<byte>, groups: nat): (r: Result<Read, Error>)
    requires groups > 0
    ensures r.Ok? ==> 0 <= r.value.value && 1 <= r.value.used <= groups && r.value.used <= |s|
    decreases |s|
  {
    if s == [] then Err(TruncatedVarint)
    else if s[0] < 128 then Ok(Read(s[0], 1))
    else if groups == 1 then Err(VarintTooLong)
    else
      match ReadFrom(s[1..], groups - 1)
      case Err(e) => Err(e)
      case Ok(r) => Ok(Read(Low7(s[0]) + 128 * r.value, r.used + 1))
  }

  /** `x << 7 * k`. */
  function Shifted(x: int, k: nat): int {
    if k == 0 then x else 128 * Shifted(x, k - 1)
  }

  lemma {:induction false} ShiftedAdds(low: int, high: int, k: nat)
    ensures Shifted(low + 128 * high, k) == Shifted(low, k) + Shifted(high, k + 1)
  {
    if k > 0 {
      ShiftedAdds(low, high, k - 1);
    }
  }

  /** What is left to do once `low` has been read from `k` groups. */
  function Resumed(r: Result<Read, Error>, low: int, k: nat): Result<Read, Error> {
    match r
    case Err(e) => Err(e)
    case Ok(r) => Ok(Read(low + Shifted(r.value, k), k + r.used))
  }

  lemma ResumedOnce(r: Result<Read, Error>, low: int)
    ensures Resumed(r, low, 1) == match r
                                  case Err(e) => Err(e)
                                  case Ok(r) => Ok(Read(low + 128 * r.value, r.used + 1))
  {
    if r.Ok? {
      assert Shifted(r.value.value, 1) == 128 * Shifted(r.value.value, 0);
    }
  }

  lemma ResumedTwice(r: Result<Read, Error>, group: int, low: int, k: nat)
    ensures Resumed(Resumed(r, group, 1), low, k) == Resumed(r, low + Shifted(group, k), k + 1)
  {
    match r
    case Err(_) =>
    case Ok(r) =>
      assert Shifted(r.value, 1) == 128 * r.value;
      ShiftedAdds(group, r.value, k);
  }

  lemma ReadGroup(s: seq<byte>, groups: nat)
    requires groups > 1 && s != [] && s[0] >= 128
    ensures ReadFrom(s, groups) == Resumed(ReadFrom(s[1..], groups - 1), Low7(s[0]), 1)
  {
    ResumedOnce(ReadFrom(s[1..], groups - 1), Low7(s[0]));
  }

  /** The same, at an offset, with `low` read already from `k` groups; the form the loop works in. */
  function ReadAt(buf: seq<byte>, pos: nat, low: int, k: nat): Result<Read, Error>
    requires k < GROUPS
    decreases |buf| - pos
  {
    if pos >= |buf| then Err(TruncatedVarint)
    else if buf[pos] < 128 then Ok(Read(low + Shifted(Low7(buf[pos]), k), k + 1))
    else if k + 1 == GROUPS then Err(VarintTooLong)
    else ReadAt(buf, pos + 1, low + Shifted(Low7(buf[pos]), k), k + 1)
  }

  lemma {:induction false} ReadAtIsReadFrom(buf: seq<byte>, pos: nat, low: int, k: nat)
    requires k < GROUPS && pos <= |buf|
    ensures ReadAt(buf, pos, low, k) == Resumed(ReadFrom(buf[pos..], GROUPS - k), low, k)
    decreases GROUPS - k
  {
    if pos < |buf| && buf[pos] >= 128 && k + 1 < GROUPS {
      assert buf[pos..][1..] == buf[pos + 1..];
      ReadAtIsReadFrom(buf, pos + 1, low + Shifted(Low7(buf[pos]), k), k + 1);
      ReadGroup(buf[pos..], GROUPS - k);
      ResumedTwice(ReadFrom(buf[pos + 1..], GROUPS - k - 1), Low7(buf[pos]), low, k);
    }
  }

  lemma ReadAtStart(buf: seq<byte>, offset: nat)
    requires offset <= |buf|
    ensures ReadAt(buf, offset, 0, 0) == ReadFrom(buf[offset..], GROUPS)
  {
    ReadAtIsReadFrom(buf, offset, 0, 0);
  }

  method ReadVarint(buf: seq<byte>, offset: nat) returns (r: Result<Read, Error>)
    requires offset <= |buf|
    ensures r == ReadFrom(buf[offset..], GROUPS)
  {
    var result: int, shift: nat, pos: nat := 0, 0, offset;
    ReadAtStart(buf, offset);
    ghost var goal := ReadAt(buf, offset, 0, 0);
    while pos < |buf|
      invariant offset <= pos <= |buf| && shift == 7 * (pos - offset) && pos - offset < GROUPS
      invariant ReadAt(buf, pos, result, pos - offset) == goal
      decreases |buf| - pos
    {
      var b := buf[pos];
      result := result + Shifted(Low7(b), shift / 7);
      pos := pos + 1;
      if b < 128 { return Ok(Read(result, pos - offset)); }
      shift := shift + 7;
      if shift > 63 { return Err(VarintTooLong); }
    }
    return Err(TruncatedVarint);
  }

  /** A negative value leaves the loop at once, and a byte keeps its low eight bits. */
  function Varint(value: int): (s: seq<byte>)
    ensures s != []
  {
    if value < 128 then [value % 256] else [value % 128 + 128] + Varint(value / 128)
  }

  method WriteVarint(value: int) returns (bytes: seq<byte>)
    ensures bytes == Varint(value)
  {
    bytes := [];
    var n := value;
    while n >= 128
      invariant bytes + Varint(n) == Varint(value)
      decreases n
    {
      assert bytes + ([n % 128 + 128] + Varint(n / 128)) == (bytes + [n % 128 + 128]) + Varint(n / 128);
      bytes := bytes + [n % 128 + 128];
      n := n / 128;
    }
    bytes := bytes + [n % 256];
  }

  // ---- round trip -----------------------------------------------------------------------------

  lemma ReadOneByte(value: int, rest: seq<byte>, groups: nat)
    requires value < 128 && groups > 0
    ensures ReadFrom(Varint(value) + rest, groups) == Ok(Read(value, 1)) <==> 0 <= value
  {
    var s := Varint(value) + rest;
    assert s[0] == value % 256;
  }

  lemma ReadMore(value: nat, rest: seq<byte>, groups: nat)
    requires value >= 128 && groups > 1
    ensures ReadFrom(Varint(value) + rest, groups)
            == Resumed(ReadFrom(Varint(value / 128) + rest, groups - 1), value % 128, 1)
  {
    var s := Varint(value) + rest;
    assert s[0] == value % 128 + 128 && s[1..] == Varint(value / 128) + rest;
    ReadGroup(s, groups);
  }

  lemma {:induction false} ReadBack(value: int, rest: seq<byte>, groups: nat)
    requires groups > 0
    ensures ReadFrom(Varint(value) + rest, groups) == Ok(Read(value, |Varint(value)|))
            <==> 0 <= value < Groups(groups)
    decreases groups
  {
    assert Groups(1) == 128 * Groups(0) == 128;
    if value < 128 {
      ReadOneByte(value, rest, groups);
      AtLeastOneGroup(groups);
    } else if groups == 1 {
      assert (Varint(value) + rest)[0] == value % 128 + 128;
    } else {
      ReadMore(value, rest, groups);
      ResumedOnce(ReadFrom(Varint(value / 128) + rest, groups - 1), value % 128);
      ReadBack(value / 128, rest, groups - 1);
    }
  }

  lemma {:induction false} AtLeastOneGroup(groups: nat)
    requires groups > 0
    ensures Groups(groups) >= 128
  {
    if groups > 1 {
      AtLeastOneGroup(groups - 1);
    }
  }

  lemma TenGroups()
    ensures Groups(GROUPS) == 0x40_00000000_00000000
  {
    assert Groups(5) == 0x8_0000_0000;
    assert Groups(GROUPS) == 128 * (128 * (128 * (128 * (128 * Groups(5)))));
  }

  /** What WriteVarint writes is read back, whatever follows it, exactly for values of up to 70 bits. */
  lemma VarintRoundTrip(value: int, rest: seq<byte>)
    ensures ReadFrom(Varint(value) + rest, GROUPS) == Ok(Read(value, |Varint(value)|))
            <==> 0 <= value < 0x40_00000000_00000000
  {
    TenGroups();
    ReadBack(value, rest, GROUPS);
  }

  lemma {:induction false} ReadTooWide(value: int, rest: seq<byte>, groups: nat)
    requires groups > 0 && value >= Groups(groups)
    ensures ReadFrom(Varint(value) + rest, groups) == Err(VarintTooLong)
    decreases groups
  {
    AtLeastOneGroup(groups);
    if groups == 1 {
      assert (Varint(value) + rest)[0] == value % 128 + 128;
    } else {
      ReadMore(value, rest, groups);
      ReadTooWide(value / 128, rest, groups - 1);
    }
  }

  /** A wider value is refused, whatever follows it. */
  lemma WideVarintIsTooLong(value: int, rest: seq<byte>)
    requires value >= 0x40_00000000_00000000
    ensures ReadFrom(Varint(value) + rest, GROUPS) == Err(VarintTooLong)
  {
    TenGroups();
    ReadTooWide(value, rest, GROUPS);
  }

  /** Bytes after a varint do not change it, nor a varint that is too long. */
  lemma {:induction false} ReadFromExtends(s: seq<byte>, more: seq<byte>, groups: nat)
    requires groups > 0 && ReadFrom(s, groups) != Err(TruncatedVarint)
    ensures ReadFrom(s + more, groups) == ReadFrom(s, groups)
    decreases groups
  {
    assert (s + more)[0] == s[0];
    if s[0] >= 128 && groups > 1 {
      assert (s + more)[1..] == s[1..] + more;
      ReadFromExtends(s[1..], more, groups - 1);
    }
  }

  /** A zero byte ends a varint that was cut short. */
  lemma {:induction false} ZeroEnds(s: seq<byte>, rest: seq<byte>, groups: nat)
    requires groups > 0 && ReadFrom(s, groups) == Err(TruncatedVarint)
    ensures |s| < groups
    ensures ReadFrom(s + ([0] + rest), groups).Ok?
    ensures ReadFrom(s + ([0] + rest), groups).value.used == |s| + 1
    decreases groups
  {
    var t := s + ([0] + rest);
    if s == [] {
      assert t == [0] + rest;
    } else {
      assert t[1..] == s[1..] + ([0] + rest);
      ZeroEnds(s[1..], rest, groups - 1);
      ReadGroup(t, groups);
    }
  }
}
