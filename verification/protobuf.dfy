/**
 * The protobuf field reader and writer of the game-coordinator client
 * (packages/shared/src/gc/protobuf.ts; "Message Structure" in the Protocol Buffers encoding
 * specification).
 */
module Protobuf {
  import opened JsNumber
  import opened Varints
  import opened Wrappers

  datatype Payload =
    | VarintValue(v: int)
    | Bytes(bytes: seq<byte>)
    | Fixed32(n32: nat)
    | Fixed64(n64: nat)

  datatype Field = Field(number: nat, payload: Payload)

  type Fields = Result<seq<Field>, Error>

  /** Little-endian value. */
  function LittleEndian(s: seq<byte>): nat {
    if s == [] then 0 else s[0] + 256 * LittleEndian(s[1..])
  }

  /** What stands at the front of a buffer. */
  datatype Taken =
    | Took(field: Field, used: nat)
    | Fails(error: Error)            // no further byte can help
    | Short(answer: Fields)          // the buffer ends inside the field: what the reader makes of that

  function ShortOrFails(e: Error): Taken {
    if e.TruncatedVarint? then Short(Err(e)) else Fails(e)
  }

  function TakePayload(number: nat, wire: nat, t: seq<byte>): (r: Taken)
    ensures r.Took? ==> r.used <= |t|
  {
    match wire
    case 0 =>
      (match ReadFrom(t, GROUPS)
       case Err(e) => ShortOrFails(e)
       case Ok(r) => Took(Field(number, VarintValue(r.value)), r.used))
    case 1 =>
      if |t| < 8 then Short(Err(TruncatedFixed64)) else Took(Field(number, Fixed64(LittleEndian(t[..8]))), 8)
    case 2 =>
      (match ReadFrom(t, GROUPS)
       case Err(e) => ShortOrFails(e)
       case Ok(r) => TakeBytes(number, t[r.used..], Read(Number(r.value), r.used)))
    case 5 =>
      if |t| < 4 then Short(Err(TruncatedFixed32)) else Took(Field(number, Fixed32(LittleEndian(t[..4]))), 4)
    case _ => Fails(UnsupportedWire(wire))
  }

  /** A length-delimited payload that is cut off is taken for what is there. */
  function TakeBytes(number: nat, t: seq<byte>, length: Read): Taken
    requires 0 <= length.value
  {
    if length.value <= |t| then Took(Field(number, Bytes(t[..length.value])), length.used + length.value)
    else Short(Ok([Field(number, Bytes(t))]))
  }

  function After(r: Taken, tag: nat): Taken {
    if r.Took? then r.(used := r.used + tag) else r
  }

  function Take(s: seq<byte>): (r: Taken)
    ensures r.Took? ==> 1 <= r.used <= |s|
  {
    match ReadFrom(s, GROUPS)
    case Err(e) => ShortOrFails(e)
    case Ok(tag) => After(TakePayload(Number(tag.value / 8), tag.value % 8, s[tag.used..]), tag.used)
  }

  function Prepend(fs: seq<Field>, r: Fields): Fields {
    match r
    case Err(e) => Err(e)
    case Ok(more) => Ok(fs + more)
  }

  function FieldsOf(s: seq<byte>): Fields
    decreases |s|
  {
    if s == [] then Ok([])
    else
      match Take(s)
      case Took(f, n) => Prepend([f], FieldsOf(s[n..]))
      case Fails(e) => Err(e)
      case Short(answer) => answer
  }

  // ---- the reader's loop ----------------------------------------------------------------------

  function FourBytesValue(b0: int, b1: int, b2: int, b3: int): int {
    b0 + 0x100 * b1 + 0x10000 * b2 + 0x1000000 * b3
  }

  lemma ByteStep(s: seq<byte>, i: nat)
    requires i < |s|
    ensures LittleEndian(s[i..]) == s[i] + 256 * LittleEndian(s[i + 1..])
  {
    assert s[i..][1..] == s[i + 1..];
  }

  lemma FourBytesFirst(s: seq<byte>)
    requires |s| >= 4
    ensures LittleEndian(s) == FourBytesValue(s[0], s[1], s[2], s[3]) + 0x1_0000_0000 * LittleEndian(s[4..])
  {
    assert s[0..] == s;
    ByteStep(s, 0);
    ByteStep(s, 1);
    ByteStep(s, 2);
    ByteStep(s, 3);
  }

  lemma FourBytes(s: seq<byte>)
    requires |s| == 4
    ensures LittleEndian(s) == FourBytesValue(s[0], s[1], s[2], s[3])
  {
    FourBytesFirst(s);
  }

  lemma LittleEndianSplits(a: seq<byte>, b: seq<byte>)
    requires |a| == 4
    ensures LittleEndian(a + b) == LittleEndian(a) + 0x1_0000_0000 * LittleEndian(b)
  {
    FourBytes(a);
    FourBytesFirst(a + b);
    assert (a + b)[4..] == b;
  }

  method ReadFixed32(buf: seq<byte>, pos: nat) returns (n: nat)
    requires pos + 4 <= |buf|
    ensures n == LittleEndian(buf[pos..pos + 4])
  {
    FourBytes(buf[pos..pos + 4]);
    n := FourBytesValue(buf[pos], buf[pos + 1], buf[pos + 2], buf[pos + 3]);
  }

  method ReadPayload(buf: seq<byte>, pos: nat, number: nat, wire: nat) returns (r: Taken)
    requires pos <= |buf|
    ensures r == TakePayload(number, wire, buf[pos..])
  {
    if wire == 0 {
      var v := ReadVarint(buf, pos);
      return if v.Err? then ShortOrFails(v.error) else Took(Field(number, VarintValue(v.value.value)), v.value.used);
    }
    if wire == 2 {
      var length := ReadVarint(buf, pos);
      if length.Err? { return ShortOrFails(length.error); }
      assert buf[pos..][length.value.used..] == buf[pos + length.value.used..];
      return TakeBytes(number, buf[pos + length.value.used..], Read(Number(length.value.value), length.value.used));
    }
    if wire == 5 {
      if pos + 4 > |buf| { return Short(Err(TruncatedFixed32)); }
      assert buf[pos..][..4] == buf[pos..pos + 4];
      var n := ReadFixed32(buf, pos);
      return Took(Field(number, Fixed32(n)), 4);
    }
    if wire == 1 {
      if pos + 8 > |buf| { return Short(Err(TruncatedFixed64)); }
      var lo := ReadFixed32(buf, pos);
      var hi := ReadFixed32(buf, pos + 4);
      assert buf[pos..][..8] == buf[pos..pos + 4] + buf[pos + 4..pos + 8];
      LittleEndianSplits(buf[pos..pos + 4], buf[pos + 4..pos + 8]);
      return Took(Field(number, Fixed64(lo + 0x1_0000_0000 * hi)), 8);
    }
    return Fails(UnsupportedWire(wire));
  }

  method ReadField(buf: seq<byte>, pos: nat) returns (r: Taken)
    requires pos <= |buf|
    ensures r == Take(buf[pos..])
  {
    var tag := ReadVarint(buf, pos);
    if tag.Err? { return ShortOrFails(tag.error); }
    assert buf[pos..][tag.value.used..] == buf[pos + tag.value.used..];
    var payload := ReadPayload(buf, pos + tag.value.used, Number(tag.value.value / 8), tag.value.value % 8);
    return After(payload, tag.value.used);
  }

  lemma PrependTwice(a: seq<Field>, b: seq<Field>, r: Fields)
    ensures Prepend(a, Prepend(b, r)) == Prepend(a + b, r)
  {
    match r
    case Err(_) =>
    case Ok(more) => assert a + (b + more) == a + b + more;
  }

  lemma PrependNothing(r: Fields)
    ensures Prepend([], r) == r
  {
    if r.Ok? { assert [] + r.value == r.value; }
  }

  lemma FirstStep(s: seq<byte>, fields: seq<Field>)
    requires s != []
    ensures Prepend(fields, FieldsOf(s)) ==
              var one := Take(s);
              if one.Took? then Prepend(fields + [one.field], FieldsOf(s[one.used..]))
              else if one.Fails? then Err(one.error)
              else Prepend(fields, one.answer)
  {
    if Take(s).Took? {
      PrependTwice(fields, [Take(s).field], FieldsOf(s[Take(s).used..]));
    }
  }

  lemma FieldsStep(buf: seq<byte>, pos: nat, fields: seq<Field>)
    requires pos < |buf|
    ensures Prepend(fields, FieldsOf(buf[pos..])) ==
              var one := Take(buf[pos..]);
              if one.Took? then Prepend(fields + [one.field], FieldsOf(buf[pos + one.used..]))
              else if one.Fails? then Err(one.error)
              else Prepend(fields, one.answer)
  {
    FirstStep(buf[pos..], fields);
    if Take(buf[pos..]).Took? {
      assert buf[pos..][Take(buf[pos..]).used..] == buf[pos + Take(buf[pos..]).used..];
    }
  }

  method DecodeFields(buf: seq<byte>) returns (r: Fields)
    ensures r == FieldsOf(buf)
  {
    var fields: seq<Field>, pos := [], 0;
    ghost var goal := FieldsOf(buf);
    assert buf[0..] == buf;
    PrependNothing(goal);
    while pos < |buf|
      invariant pos <= |buf| && Prepend(fields, FieldsOf(buf[pos..])) == goal
      decreases |buf| - pos
    {
      FieldsStep(buf, pos, fields);
      var one := ReadField(buf, pos);
      match one
      case Took(f, n) =>
        fields := fields + [f];
        pos := pos + n;
      case Fails(e) => return Err(e);
      case Short(answer) => return Prepend(fields, answer);
    }
    assert fields + [] == fields;
    r := Ok(fields);
  }

  // ---- a reference encoder --------------------------------------------------------------------

  function LittleEndianBytes(n: nat, k: nat): (s: seq<byte>)
    ensures |s| == k
  {
    if k == 0 then [] else [n % 256] + LittleEndianBytes(n / 256, k - 1)
  }

  function WireOf(p: Payload): nat {
    match p
    case VarintValue(_) => 0
    case Bytes(_) => 2
    case Fixed32(_) => 5
    case Fixed64(_) => 1
  }

  function EncodePayload(p: Payload): seq<byte> {
    match p
    case VarintValue(v) => Varint(v)
    case Bytes(b) => Varint(|b|) + b
    case Fixed32(n) => LittleEndianBytes(n, 4)
    case Fixed64(n) => LittleEndianBytes(n, 8)
  }

  function Encode(f: Field): (s: seq<byte>)
    ensures s != []
  {
    Varint(8 * f.number + WireOf(f.payload)) + EncodePayload(f.payload)
  }

  function EncodeAll(fs: seq<Field>): seq<byte> {
    if fs == [] then [] else Encode(fs[0]) + EncodeAll(fs[1..])
  }

  const LIMIT: nat := 0x40_00000000_00000000   // 2^70

  /**
   * What fits the wire and the reader: tags, varints and lengths of at most 70 bits, fixed numbers of
   * their width, and field numbers and lengths that survive the conversion to Number.
   */
  predicate Fits(f: Field) {
    && 8 * f.number + 7 < LIMIT && Number(f.number) == f.number
    && match f.payload
       case VarintValue(v) => 0 <= v < LIMIT
       case Bytes(b) => |b| < LIMIT && Number(|b|) == |b|
       case Fixed32(n) => n < 0x1_0000_0000
       case Fixed64(n) => n < 0x1_0000_0000_0000_0000
  }

  function Power256(k: nat): nat { if k == 0 then 1 else 256 * Power256(k - 1) }

  lemma {:induction false} LittleEndianReadBack(n: nat, k: nat)
    requires n < Power256(k)
    ensures LittleEndian(LittleEndianBytes(n, k)) == n
  {
    if k > 0 {
      LittleEndianReadBack(n / 256, k - 1);
    }
  }

  lemma BytesReadBack(number: nat, b: seq<byte>, rest: seq<byte>)
    requires |b| < LIMIT && Number(|b|) == |b|
    ensures TakePayload(number, 2, Varint(|b|) + b + rest) == Took(Field(number, Bytes(b)), |Varint(|b|)| + |b|)
  {
    VarintRoundTrip(|b|, b + rest);
    var s := Varint(|b|) + b + rest;
    assert s == Varint(|b|) + (b + rest);
    assert s[|Varint(|b|)|..] == b + rest && (b + rest)[..|b|] == b;
  }

  lemma Fixed32ReadBack(number: nat, n: nat, rest: seq<byte>)
    requires n < 0x1_0000_0000
    ensures TakePayload(number, 5, LittleEndianBytes(n, 4) + rest) == Took(Field(number, Fixed32(n)), 4)
  {
    assert Power256(4) == 0x1_0000_0000;
    LittleEndianReadBack(n, 4);
    assert (LittleEndianBytes(n, 4) + rest)[..4] == LittleEndianBytes(n, 4);
  }

  lemma Fixed64ReadBack(number: nat, n: nat, rest: seq<byte>)
    requires n < 0x1_0000_0000_0000_0000
    ensures TakePayload(number, 1, LittleEndianBytes(n, 8) + rest) == Took(Field(number, Fixed64(n)), 8)
  {
    assert Power256(4) == 0x1_0000_0000 && Power256(8) == 256 * (256 * (256 * (256 * Power256(4))));
    LittleEndianReadBack(n, 8);
    assert (LittleEndianBytes(n, 8) + rest)[..8] == LittleEndianBytes(n, 8);
  }

  lemma PayloadReadBack(number: nat, p: Payload, rest: seq<byte>)
    requires Fits(Field(number, p))
    ensures TakePayload(number, WireOf(p), EncodePayload(p) + rest)
            == Took(Field(number, p), |EncodePayload(p)|)
  {
    match p
    case VarintValue(v) => VarintRoundTrip(v, rest);
    case Bytes(b) => BytesReadBack(number, b, rest);
    case Fixed32(n) => Fixed32ReadBack(number, n, rest);
    case Fixed64(n) => Fixed64ReadBack(number, n, rest);
  }

  lemma TagParts(number: nat, wire: nat)
    requires wire < 8
    ensures (8 * number + wire) / 8 == number && (8 * number + wire) % 8 == wire
  {
  }

  lemma TagReadBack(number: nat, wire: nat, tail: seq<byte>)
    requires wire < 8 && 8 * number + wire < LIMIT
    ensures var tag := Varint(8 * number + wire);
            Take(tag + tail) == After(TakePayload(Number(number), wire, tail), |tag|)
  {
    var tag := Varint(8 * number + wire);
    VarintRoundTrip(8 * number + wire, tail);
    TagParts(number, wire);
    assert (tag + tail)[|tag|..] == tail;
  }

  lemma TagFits(f: Field)
    requires Fits(f)
    ensures WireOf(f.payload) < 8 && 8 * f.number + WireOf(f.payload) < LIMIT
  {
  }

  lemma TookAfter(number: nat, p: Payload, t: seq<byte>, tag: nat)
    requires TakePayload(number, WireOf(p), EncodePayload(p) + t) == Took(Field(number, p), |EncodePayload(p)|)
    ensures After(TakePayload(number, WireOf(p), EncodePayload(p) + t), tag)
            == Took(Field(number, p), tag + |EncodePayload(p)|)
  {
  }

  lemma FieldReadBack(f: Field, rest: seq<byte>)
    requires Fits(f)
    ensures Take(Encode(f) + rest) == Took(f, |Encode(f)|)
  {
    var tag := Varint(8 * f.number + WireOf(f.payload));
    var whole := Encode(f) + rest;
    assert whole == tag + (EncodePayload(f.payload) + rest) && |Encode(f)| == |tag| + |EncodePayload(f.payload)|;
    TakesBack(f, tag, rest, whole);
  }

  lemma TakesBack(f: Field, tag: seq<byte>, rest: seq<byte>, whole: seq<byte>)
    requires Fits(f) && tag == Varint(8 * f.number + WireOf(f.payload))
    requires whole == tag + (EncodePayload(f.payload) + rest)
    ensures Take(whole) == Took(f, |tag| + |EncodePayload(f.payload)|)
  {
    TagFits(f);
    TagReadBack(f.number, WireOf(f.payload), EncodePayload(f.payload) + rest);
    PayloadReadBack(f.number, f.payload, rest);
    TookAfter(f.number, f.payload, rest, |tag|);
  }

  /** Decoding undoes encoding, for every list of fields that fit, whatever bytes follow. */
  lemma {:induction false} FieldsReadBack(fs: seq<Field>, rest: seq<byte>)
    requires forall i | 0 <= i < |fs| :: Fits(fs[i])
    ensures FieldsOf(EncodeAll(fs) + rest) == Prepend(fs, FieldsOf(rest))
  {
    if fs == [] {
      assert EncodeAll(fs) + rest == rest;
      PrependNothing(FieldsOf(rest));
    } else {
      var tail := EncodeAll(fs[1..]) + rest;
      assert EncodeAll(fs) + rest == Encode(fs[0]) + tail;
      FieldReadBack(fs[0], tail);
      assert (Encode(fs[0]) + tail)[|Encode(fs[0])|..] == tail;
      FieldsReadBack(fs[1..], rest);
      PrependTwice([fs[0]], fs[1..], FieldsOf(rest));
      assert [fs[0]] + fs[1..] == fs;
    }
  }
}
