/**
 * What the client writes to the game coordinator and how it reads repeated and signed values
 * (packages/shared/src/gc/protobuf.ts).
 */
module ProtobufValues {
  import opened JsNumber
  import opened Protobuf
  import opened Varints
  import opened Wrappers

  // ---- writing --------------------------------------------------------------------------------

  /** The result of JavaScript's bitwise operators: 32 bits, signed. */
  function ToInt32(x: int): (r: int)
    ensures -0x8000_0000 <= r < 0x8000_0000
  {
    var low := x % 0x1_0000_0000;
    if low < 0x8000_0000 then low else low - 0x1_0000_0000
  }

  /** The tag is computed with `(field << 3) | 0`. */
  function EncodeVarintField(field: nat, value: int): seq<byte> {
    Varint(ToInt32(field * 8)) + Varint(value)
  }

  function EncodeClientHello(): seq<byte> {
    EncodeVarintField(1, 1) + EncodeVarintField(7, 1)
  }

  function EncodeMatchDetailsRequest(matchId: int): seq<byte> {
    [8] + Varint(matchId)
  }

  lemma {:induction false} OneTerminatedVarint(value: int, groups: nat)
    requires groups > 0
    ensures ReadFrom(Varint(value), groups).Ok? ==> ReadFrom(Varint(value), groups).value.used == |Varint(value)|
    decreases groups
  {
    var s := Varint(value);
    if value >= 128 && groups > 1 {
      assert s[1..] == Varint(value / 128);
      OneTerminatedVarint(value / 128, groups - 1);
      ReadGroup(s, groups);
    }
  }

  lemma TagBits(field: nat)
    ensures ToInt32(field * 8) == field * 8 <==> field < 0x1000_0000
    ensures ToInt32(field * 8) % 8 == 0
  {
  }

  /** A tag that is left open swallows the value's bytes, and no value follows. */
  lemma OpenTagSwallows(first: byte, value: int)
    requires first >= 128 && first % 8 == 0
    ensures !FieldsOf([first] + Varint(value)).Ok?
  {
    var s := [first] + Varint(value);
    assert s[1..] == Varint(value);
    ReadGroup(s, GROUPS);
    OneTerminatedVarint(value, GROUPS - 1);
    var rest := ReadFrom(Varint(value), GROUPS - 1);
    if rest.Ok? {
      ResumedOnce(rest, Low7(first));
      var tag := first - 128 + 128 * rest.value.value;
      TagMultiple(first - 128, rest.value.value);
      assert ReadFrom(s, GROUPS) == Ok(Read(tag, |s|));
      assert s[|s|..] == [];
    }
  }

  lemma TagMultiple(low: int, high: int)
    requires low % 8 == 0
    ensures (low + 128 * high) % 8 == 0
  {
    EightTimes(low + 128 * high, low / 8 + 16 * high);
  }

  lemma EightTimes(n: int, k: int)
    requires n == 8 * k
    ensures n % 8 == 0
  {
  }

  lemma LastField(s: seq<byte>, f: Field)
    requires s != [] && Take(s) == Took(f, |s|)
    ensures FieldsOf(s) == Ok([f])
  {
    assert s[|s|..] == [] && [f] + [] == [f];
  }

  lemma ValueAlone(number: nat, value: int)
    ensures var r := TakePayload(number, 0, Varint(value));
            && (r.Took? ==> r.used == |Varint(value)|)
            && (r == Took(Field(number, VarintValue(value)), |Varint(value)|) <==> 0 <= value < LIMIT)
  {
    var t := Varint(value);
    assert t + [] == t;
    VarintRoundTrip(value, []);
    OneTerminatedVarint(value, GROUPS);
  }

  lemma OneFieldAnswer(s: seq<byte>, f: Field)
    requires s != [] && (Take(s).Took? ==> Take(s).used == |s|)
    requires Take(s).Short? ==> Take(s).answer.Err?
    ensures FieldsOf(s) == Ok([f]) <==> Take(s) == Took(f, |s|)
  {
    if Take(s).Took? {
      LastField(s, Take(s).field);
    }
  }

  /** A whole tag, then the value's own bytes. */
  lemma ClosedTag(tag: nat, value: int)
    requires tag % 8 == 0 && tag < 0x8000_0000
    ensures FieldsOf(Varint(tag) + Varint(value)) == Ok([Field(tag / 8, VarintValue(value))])
            <==> 0 <= value < LIMIT
  {
    TagReadBack(tag / 8, 0, Varint(value));
    ValueAlone(tag / 8, value);
    OneFieldAnswer(Varint(tag) + Varint(value), Field(tag / 8, VarintValue(value)));
  }

  lemma NegativeTag(tag: int, field: nat, value: int)
    requires -0x8000_0000 <= tag < 0 && tag % 8 == 0 && field >= 0x1000_0000
    ensures FieldsOf(Varint(tag) + Varint(value)) != Ok([Field(field, VarintValue(value))])
  {
    var first: byte := tag % 256;
    assert Varint(tag) == [first] && first % 8 == 0;
    if first < 128 {
      var s := [first] + Varint(value);
      assert s[0] == first && ReadFrom(s, GROUPS) == Ok(Read(first, 1));
      assert Take(s).Took? ==> Take(s).field.number == first / 8;
      FirstField(s);
    } else {
      OpenTagSwallows(first, value);
    }
  }

  /** The first field of an answer is the first one taken. */
  lemma FirstField(s: seq<byte>)
    requires s != []
    ensures Take(s).Took? && FieldsOf(s).Ok? ==> FieldsOf(s).value != [] && FieldsOf(s).value[0] == Take(s).field
  {
  }

  /**
   * A written varint field is decoded as it was written exactly when its number keeps 28 bits, so
   * that the tag stays within JavaScript's bitwise range, and its value keeps 70.
   */
  lemma VarintFieldRoundTrip(field: nat, value: int)
    ensures FieldsOf(EncodeVarintField(field, value)) == Ok([Field(field, VarintValue(value))])
            <==> field < 0x1000_0000 && 0 <= value < LIMIT
  {
    var tag := ToInt32(field * 8);
    TagBits(field);
    if tag >= 0 {
      ClosedTag(tag, value);
      if field >= 0x1000_0000 {
        WrongNumber(tag, field, value);
      }
    } else {
      NegativeTag(tag, field, value);
    }
  }

  /** What stands behind a whole tag is a field of that tag's number, and all of it, or an error. */
  lemma WholeTagTakes(tag: nat, value: int)
    requires tag % 8 == 0 && tag < 0x8000_0000
    ensures var s := Varint(tag) + Varint(value);
            && s != [] && (Take(s).Took? ==> Take(s).used == |s| && Take(s).field.number == tag / 8)
            && (Take(s).Short? ==> Take(s).answer.Err?)
  {
    TagReadBack(tag / 8, 0, Varint(value));
    ValueAlone(tag / 8, value);
  }

  lemma OtherField(s: seq<byte>, f: Field)
    requires s != [] && (Take(s).Took? ==> Take(s).used == |s| && Take(s).field.number != f.number)
    requires Take(s).Short? ==> Take(s).answer.Err?
    ensures FieldsOf(s) != Ok([f])
  {
    OneFieldAnswer(s, f);
  }

  lemma WrongNumber(tag: nat, field: nat, value: int)
    requires tag % 8 == 0 && tag < 0x8000_0000 && tag / 8 != field
    ensures FieldsOf(Varint(tag) + Varint(value)) != Ok([Field(field, VarintValue(value))])
  {
    WholeTagTakes(tag, value);
    OtherField(Varint(tag) + Varint(value), Field(field, VarintValue(value)));
  }

  lemma RequestIsVarintField(field: nat, tag: byte, matchId: int)
    requires field < 16 && tag == 8 * field
    ensures [tag] + Varint(matchId) == EncodeVarintField(field, matchId)
  {
    TagBits(field);
    assert Varint(8 * field) == [tag];
  }

  /** The request is the one varint field it stands for. */
  lemma MatchDetailsRequestIsFieldOne(matchId: int)
    ensures EncodeMatchDetailsRequest(matchId) == EncodeVarintField(1, matchId)
    ensures FieldsOf(EncodeMatchDetailsRequest(matchId)) == Ok([Field(1, VarintValue(matchId))])
            <==> 0 <= matchId < LIMIT
  {
    VarintFieldRoundTrip(1, matchId);
    RequestIsVarintField(1, 8, matchId);
  }

  lemma TwoVarintFields(a: nat, x: nat, b: nat, y: nat)
    requires a < 0x1000_0000 && b < 0x1000_0000 && x < LIMIT && y < LIMIT
    ensures FieldsOf(EncodeVarintField(a, x) + EncodeVarintField(b, y))
            == Ok([Field(a, VarintValue(x)), Field(b, VarintValue(y))])
  {
    VarintFieldFits(a, x);
    VarintFieldFits(b, y);
    TwoFieldsReadBack(Field(a, VarintValue(x)), Field(b, VarintValue(y)));
  }

  lemma VarintFieldFits(field: nat, value: nat)
    requires field < 0x1000_0000 && value < LIMIT
    ensures Fits(Field(field, VarintValue(value)))
    ensures EncodeVarintField(field, value) == Encode(Field(field, VarintValue(value)))
  {
    TagBits(field);
  }

  lemma TwoFieldsReadBack(f: Field, g: Field)
    requires Fits(f) && Fits(g)
    ensures FieldsOf(Encode(f) + Encode(g)) == Ok([f, g])
  {
    var fs := [f, g];
    assert fs[1..] == [g] && fs[1..][1..] == [];
    assert EncodeAll([g]) == Encode(g) + [] == Encode(g);
    assert EncodeAll(fs) + [] == Encode(f) + Encode(g);
    FieldsReadBack(fs, []);
    assert fs + [] == fs;
  }

  /** The greeting says version 1 and engine 1, in that order. */
  lemma ClientHelloSaysVersionAndEngine()
    ensures FieldsOf(EncodeClientHello()) == Ok([Field(1, VarintValue(1)), Field(7, VarintValue(1))])
  {
    TwoVarintFields(1, 1, 7, 1);
  }

  // ---- packed numbers -------------------------------------------------------------------------

  function PackedOf(s: seq<byte>): Result<seq<int>, Error>
    decreases |s|
  {
    if s == [] then Ok([])
    else
      match ReadFrom(s, GROUPS)
      case Err(e) => Err(e)
      case Ok(r) => Put([Number(r.value)], PackedOf(s[r.used..]))
  }

  function Put(ns: seq<int>, r: Result<seq<int>, Error>): Result<seq<int>, Error> {
    match r
    case Err(e) => Err(e)
    case Ok(more) => Ok(ns + more)
  }

  /** `out` and what the bytes from `pos` on still hold make up the whole answer. */
  ghost predicate Unpacked(bytes: seq<byte>, pos: nat, out: seq<int>, goal: Result<seq<int>, Error>) {
    pos <= |bytes| && Put(out, PackedOf(bytes[pos..])) == goal
  }

  lemma UnpackingStarts(bytes: seq<byte>)
    ensures Unpacked(bytes, 0, [], PackedOf(bytes))
  {
    var goal := PackedOf(bytes);
    assert bytes[0..] == bytes;
    assert goal.Ok? ==> [] + goal.value == goal.value;
  }

  lemma UnpackingStep(bytes: seq<byte>, pos: nat, out: seq<int>, goal: Result<seq<int>, Error>,
                      one: Result<Read, Error>)
    requires Unpacked(bytes, pos, out, goal) && pos < |bytes| && one == ReadFrom(bytes[pos..], GROUPS)
    ensures one.Err? ==> goal == Err(one.error)
    ensures one.Ok? ==> Unpacked(bytes, pos + one.value.used, out + [Number(one.value.value)], goal)
  {
    if one.Ok? {
      assert bytes[pos..][one.value.used..] == bytes[pos + one.value.used..];
      var rest := PackedOf(bytes[pos + one.value.used..]);
      var n := Number(one.value.value);
      assert rest.Ok? ==> out + ([n] + rest.value) == out + [n] + rest.value;
    }
  }

  lemma UnpackingEnds(bytes: seq<byte>, out: seq<int>, goal: Result<seq<int>, Error>)
    requires Unpacked(bytes, |bytes|, out, goal)
    ensures goal == Ok(out)
  {
    assert out + [] == out;
  }

  method PackedUint32(field: Option<Field>) returns (r: Result<seq<int>, Error>)
    ensures r == if field.Some? && field.value.payload.Bytes? then PackedOf(field.value.payload.bytes) else Ok([])
  {
    if field.None? || !field.value.payload.Bytes? { return Ok([]); }
    var bytes := field.value.payload.bytes;
    var out: seq<int>, pos := [], 0;
    ghost var goal := PackedOf(bytes);
    UnpackingStarts(bytes);
    while pos < |bytes|
      invariant Unpacked(bytes, pos, out, goal)
      decreases |bytes| - pos
    {
      var one := ReadVarint(bytes, pos);
      UnpackingStep(bytes, pos, out, goal, one);
      if one.Err? { return Err(one.error); }
      out := out + [Number(one.value.value)];
      pos := pos + one.value.used;
    }
    UnpackingEnds(bytes, out, goal);
    return Ok(out);
  }

  function PackedBytes(ns: seq<nat>): seq<byte> {
    if ns == [] then [] else Varint(ns[0]) + PackedBytes(ns[1..])
  }

  lemma PackedFirst(n: nat, ns: seq<nat>)
    requires n < LIMIT
    ensures PackedOf(PackedBytes([n] + ns)) == Put([Number(n)], PackedOf(PackedBytes(ns)))
  {
    assert ([n] + ns)[1..] == ns;
    var rest := PackedBytes(ns);
    VarintRoundTrip(n, rest);
    assert (Varint(n) + rest)[|Varint(n)|..] == rest;
  }

  lemma FirstIsNarrow(n: nat, rest: seq<nat>)
    requires n < LIMIT
    ensures (forall i | 0 <= i < |[n] + rest| :: ([n] + rest)[i] < LIMIT)
            <==> forall i | 0 <= i < |rest| :: rest[i] < LIMIT
  {
    assert forall i | 0 < i < |[n] + rest| :: ([n] + rest)[i] == rest[i - 1];
    assert forall i | 0 <= i < |rest| :: rest[i] == ([n] + rest)[i + 1];
  }

  lemma NumbersCons(n: nat, rest: seq<nat>)
    ensures Numbers([n] + rest) == [Number(n)] + Numbers(rest)
  {
  }

  /** Every packed number comes back as the Number nearest to it, in order; wider ones are refused. */
  lemma {:induction false} PackedReadBack(ns: seq<nat>)
    ensures PackedOf(PackedBytes(ns)) ==
              if forall i | 0 <= i < |ns| :: ns[i] < LIMIT then Ok(Numbers(ns)) else Err(VarintTooLong)
  {
    if ns == [] {
      assert Numbers(ns) == [];
    } else {
      var n, rest := ns[0], ns[1..];
      assert [n] + rest == ns;
      PackedReadBack(rest);
      if n < LIMIT {
        PackedFirst(n, rest);
        FirstIsNarrow(n, rest);
        NumbersCons(n, rest);
      } else {
        WideVarintIsTooLong(n, PackedBytes(rest));
      }
    }
  }

  function Numbers(ns: seq<nat>): seq<int> { seq(|ns|, i requires 0 <= i < |ns| => Number(ns[i])) }

  predicate AllRepresentable(ns: seq<nat>) { forall i | 0 <= i < |ns| :: Representable(ns[i]) }

  lemma NumbersKeep(ns: seq<nat>)
    ensures Numbers(ns) == ns <==> AllRepresentable(ns)
  {
    forall i | 0 <= i < |ns| ensures Numbers(ns)[i] == ns[i] <==> Representable(ns[i]) {
      NumberIsNearest(ns[i]);
    }
  }

  /** Packed numbers come back unchanged exactly when each has at most 70 bits and is representable, as uint32s are. */
  lemma PackedRoundTrip(ns: seq<nat>)
    ensures PackedOf(PackedBytes(ns)) == Ok(ns)
            <==> AllRepresentable(ns) && forall i | 0 <= i < |ns| :: ns[i] < LIMIT
  {
    PackedReadBack(ns);
    NumbersKeep(ns);
  }

  // ---- repeated numbers -----------------------------------------------------------------------

  function Num(f: Field): Option<int> {
    match f.payload
    case VarintValue(v) => Some(Number(v))
    case Fixed32(n) => Some(n)
    case Fixed64(n) => Some(Number(n))
    case Bytes(_) => None
  }

  function All(fields: seq<Field>, id: nat): seq<Field> {
    if fields == [] then []
    else (if fields[0].number == id then [fields[0]] else []) + All(fields[1..], id)
  }

  function Nums(found: seq<Field>): seq<int> {
    if found == [] then []
    else (if Num(found[0]).Some? then [Num(found[0]).value] else []) + Nums(found[1..])
  }

  /** Only a field that is there once, as bytes, is read as packed. */
  function RepeatedUint32(fields: seq<Field>, id: nat): Result<seq<int>, Error> {
    var found := All(fields, id);
    if |found| == 1 && found[0].payload.Bytes? then PackedOf(found[0].payload.bytes) else Ok(Nums(found))
  }

  function AsVarints(id: nat, ns: seq<nat>): seq<Field> {
    if ns == [] then [] else [Field(id, VarintValue(ns[0]))] + AsVarints(id, ns[1..])
  }

  lemma FirstOccurrence(id: nat, f: Field, fields: seq<Field>)
    requires f.number == id
    ensures All([f] + fields, id) == [f] + All(fields, id)
    ensures Nums([f] + fields) == (if Num(f).Some? then [Num(f).value] else []) + Nums(fields)
  {
    assert ([f] + fields)[1..] == fields;
  }

  lemma {:induction false} UnpackedNums(id: nat, ns: seq<nat>)
    ensures All(AsVarints(id, ns), id) == AsVarints(id, ns) && Nums(AsVarints(id, ns)) == Numbers(ns)
    ensures |AsVarints(id, ns)| == 1 ==> !AsVarints(id, ns)[0].payload.Bytes?
  {
    if ns == [] {
      assert Numbers(ns) == [];
    } else {
      var n, rest := ns[0], ns[1..];
      UnpackedNums(id, rest);
      assert AsVarints(id, ns) == [Field(id, VarintValue(n))] + AsVarints(id, rest);
      FirstOccurrence(id, Field(id, VarintValue(n)), AsVarints(id, rest));
      NumbersCons(n, rest);
      assert [n] + rest == ns;
    }
  }

  lemma OnePackedField(id: nat, bytes: seq<byte>)
    ensures RepeatedUint32([Field(id, Bytes(bytes))], id) == PackedOf(bytes)
  {
    var packed := [Field(id, Bytes(bytes))];
    assert All(packed[1..], id) == [];
    assert All(packed, id) == packed;
  }

  /**
   * Either encoding of a repeated field gives the same numbers, and gives them unchanged exactly when
   * they are representable.
   */
  lemma PackedOrNot(id: nat, ns: seq<nat>)
    requires forall i | 0 <= i < |ns| :: ns[i] < LIMIT
    ensures RepeatedUint32(AsVarints(id, ns), id)
            == RepeatedUint32([Field(id, Bytes(PackedBytes(ns)))], id)
            == Ok(Numbers(ns))
    ensures RepeatedUint32(AsVarints(id, ns), id) == Ok(ns) <==> AllRepresentable(ns)
  {
    UnpackedNums(id, ns);
    PackedReadBack(ns);
    OnePackedField(id, PackedBytes(ns));
    NumbersKeep(ns);
  }

  // ---- packed numbers in several parts --------------------------------------------------------

  lemma AllCons(f: Field, fields: seq<Field>, id: nat)
    ensures All([f] + fields, id) == (if f.number == id then [f] else []) + All(fields, id)
  {
    assert ([f] + fields)[1..] == fields;
  }

  lemma JoinRegroups(a: seq<Field>, b: seq<Field>, c: seq<Field>)
    ensures a + (b + c) == (a + b) + c
  {
  }

  /** The occurrences in two parts of a message are those of the one and then those of the other. */
  lemma {:induction false} AllOfJoin(a: seq<Field>, b: seq<Field>, id: nat)
    ensures All(a + b, id) == All(a, id) + All(b, id)
  {
    if a == [] {
      assert a + b == b;
    } else {
      AllOfJoin(a[1..], b, id);
      AllCons(a[0], a[1..], id);
      AllCons(a[0], a[1..] + b, id);
      assert [a[0]] + a[1..] == a && [a[0]] + (a[1..] + b) == a + b;
      JoinRegroups(if a[0].number == id then [a[0]] else [], All(a[1..], id), All(b, id));
    }
  }

  /** A field counts exactly when its number is asked for. */
  lemma OneCounts(f: Field, id: nat)
    ensures All([f], id) == if f.number == id then [f] else []
  {
    assert All([f][1..], id) == [];
  }

  /** The number of a field that is not length-delimited. */
  function PlainNumber(p: Payload): int
    requires !p.Bytes?
  {
    match p
    case VarintValue(v) => Number(v)
    case Fixed32(n) => n
    case Fixed64(n) => Number(n)
  }

  /** What a list of occurrences says together: each gives its number, or its packed numbers. */
  function SpecReading(found: seq<Field>): Result<seq<int>, Error> {
    if found == [] then Ok([])
    else
      var rest := SpecReading(found[1..]);
      if !found[0].payload.Bytes? then Put([PlainNumber(found[0].payload)], rest)
      else
        match PackedOf(found[0].payload.bytes)
        case Err(e) => Err(e)
        case Ok(ns) => Put(ns, rest)
  }

  predicate NoPackedNumbers(found: seq<Field>) {
    forall i | 0 <= i < |found| :: found[i].payload.Bytes? ==> found[i].payload.bytes == []
  }

  lemma PackedIsEmptyOnlyIfBytesAre(s: seq<byte>)
    ensures PackedOf(s) == Ok([]) <==> s == []
  {
    if s != [] && ReadFrom(s, GROUPS).Ok? {
      var r := ReadFrom(s, GROUPS).value;
      var rest := PackedOf(s[r.used..]);
      assert rest.Ok? ==> |[Number(r.value)] + rest.value| > 0;
    }
  }

  lemma NoPackedTail(found: seq<Field>)
    requires found != []
    ensures NoPackedNumbers(found) <==>
              NoPackedNumbers(found[1..]) && (found[0].payload.Bytes? ==> found[0].payload.bytes == [])
  {
    assert forall i | 0 < i < |found| :: found[i] == found[1..][i - 1];
    assert forall i | 0 <= i < |found| - 1 :: found[1..][i] == found[i + 1];
  }

  lemma PutMore(first: seq<int>, least: seq<int>, nums: seq<int>, rest: Result<seq<int>, Error>)
    requires |least| <= |first| && (|first| == |least| ==> first == least)
    requires rest.Ok? ==> |rest.value| >= |nums|
    ensures Put(first, rest).Ok? ==> |Put(first, rest).value| >= |least + nums|
    ensures Put(first, rest) == Ok(least + nums) <==> first == least && rest == Ok(nums)
  {
    if rest.Ok? && first + rest.value == least + nums {
      assert |first| == |least|;
      assert (first + rest.value)[|first|..] == rest.value && (least + nums)[|least|..] == nums;
    }
  }

  /** Leaving the packed parts out is right exactly when there is nothing in them. */
  lemma {:induction false} NumsAreSpecIffNothingPacked(found: seq<Field>)
    ensures SpecReading(found) == Ok(Nums(found)) <==> NoPackedNumbers(found)
    ensures SpecReading(found).Ok? ==> |SpecReading(found).value| >= |Nums(found)|
  {
    if found != [] {
      var f, tail := found[0], found[1..];
      var rest, nums := SpecReading(tail), Nums(tail);
      NumsAreSpecIffNothingPacked(tail);
      NoPackedTail(found);
      if f.payload.Bytes? {
        PackedIsEmptyOnlyIfBytesAre(f.payload.bytes);
        if PackedOf(f.payload.bytes).Ok? {
          PutMore(PackedOf(f.payload.bytes).value, [], nums, rest);
        }
        assert [] + nums == nums;
      } else {
        PutMore([Num(f).value], [Num(f).value], nums, rest);
      }
    }
  }

  lemma OneOccurrence(found: seq<Field>)
    requires |found| == 1
    ensures SpecReading(found) ==
              if found[0].payload.Bytes? then PackedOf(found[0].payload.bytes) else Ok(Nums(found))
  {
    assert found[1..] == [];
    if found[0].payload.Bytes? && PackedOf(found[0].payload.bytes).Ok? {
      var ns := PackedOf(found[0].payload.bytes).value;
      assert ns + [] == ns;
    }
  }

  /**
   * A repeated field is read as all its occurrences say exactly when it occurs once, or no occurrence
   * holds packed numbers: packed numbers in several parts, or mixed with plain ones, are dropped.
   */
  lemma RepeatedIsSpec(fields: seq<Field>, id: nat)
    ensures RepeatedUint32(fields, id) == SpecReading(All(fields, id))
            <==> |All(fields, id)| == 1 || NoPackedNumbers(All(fields, id))
  {
    var found := All(fields, id);
    if |found| == 1 {
      OneOccurrence(found);
    } else {
      NumsAreSpecIffNothingPacked(found);
    }
  }

  /** Two packed parts give nothing at all, whatever is in them. */
  lemma {:induction false} SeveralPackedPartsAreDropped(id: nat, parts: seq<Field>)
    requires |parts| >= 2 && forall i | 0 <= i < |parts| :: parts[i].number == id && parts[i].payload.Bytes?
    ensures RepeatedUint32(parts, id) == Ok([])
  {
    AllBytesHaveNoNums(id, parts);
  }

  lemma {:induction false} AllBytesHaveNoNums(id: nat, parts: seq<Field>)
    requires forall i | 0 <= i < |parts| :: parts[i].number == id && parts[i].payload.Bytes?
    ensures All(parts, id) == parts && Nums(parts) == []
  {
    if parts != [] {
      AllBytesHaveNoNums(id, parts[1..]);
      assert [parts[0]] + parts[1..] == parts;
    }
  }

  // ---- zigzag ---------------------------------------------------------------------------------

  /** Exclusive or of a 32-bit number with 0 or with -1, whose bits are all ones. */
  function XorSign(y: int, sign: int): int
    requires sign == 0 || sign == -1
  {
    if sign == 0 then y else -y - 1
  }

  /** `(n >>> 1) ^ -(n & 1)`: both operators work on the low 32 bits of a Number. */
  function SignedOf(n: nat): int {
    XorSign(n % 0x1_0000_0000 / 2, -(n % 2))
  }

  /** The varint is converted to a Number first. */
  function ProtoSint32(v: nat): int { SignedOf(Number(v)) }

  /** The specification's zigzag: 0, -1, 1, -2, ... are written 0, 1, 2, 3, ... */
  function ZigZag(x: int): nat {
    if x >= 0 then 2 * x else -2 * x - 1
  }

  lemma LowBit(n: nat)
    ensures n % 0x1_0000_0000 % 2 == n % 2
  {
    var q, r := n / 0x1_0000_0000, n % 0x1_0000_0000;
    assert n == 2 * (0x8000_0000 * q) + r;
  }

  lemma Halves(u: nat)
    ensures 2 * (u / 2) + u % 2 == u
  {
  }

  lemma SignedIsZigZag(n: nat)
    ensures -0x8000_0000 <= SignedOf(n) < 0x8000_0000 && ZigZag(SignedOf(n)) == n % 0x1_0000_0000
  {
    LowBit(n);
    Halves(n % 0x1_0000_0000);
  }

  lemma ZigZagSmall(x: int)
    ensures ZigZag(x) < 0x1_0000_0000 <==> -0x8000_0000 <= x < 0x8000_0000
    ensures ZigZag(x) < 0x1_0000_0000 ==> SignedOf(ZigZag(x)) == x
  {
    if ZigZag(x) < 0x1_0000_0000 {
      SignedIsZigZag(ZigZag(x));
      SmallLowBits(ZigZag(x));
      ZigZagIsInjective(SignedOf(ZigZag(x)), x);
    }
  }

  lemma SmallLowBits(n: nat)
    requires n < 0x1_0000_0000
    ensures n % 0x1_0000_0000 == n
  {
  }

  lemma ZigZagIsInjective(x: int, y: int)
    ensures ZigZag(x) == ZigZag(y) <==> x == y
  {
  }

  /** Reading undoes zigzag exactly on signed 32-bit values, and every varint is read as such a value. */
  lemma ZigZagRoundTrip(x: int, v: nat)
    ensures -0x8000_0000 <= x < 0x8000_0000 <==> ZigZag(x) < 0x1_0000_0000 && ProtoSint32(ZigZag(x)) == x
    ensures -0x8000_0000 <= ProtoSint32(v) < 0x8000_0000
  {
    ZigZagSmall(x);
    SignedIsZigZag(Number(v));
  }

  lemma CloseWithSameLowBits(a: nat, b: nat)
    requires -0x2_0000 < a - b < 0x2_0000
    ensures a % 0x1_0000_0000 == b % 0x1_0000_0000 <==> a == b
  {
    var qa, qb := a / 0x1_0000_0000, b / 0x1_0000_0000;
    assert a == 0x1_0000_0000 * qa + a % 0x1_0000_0000 && b == 0x1_0000_0000 * qb + b % 0x1_0000_0000;
  }

  /** The low 32 bits of a varint decide its reading exactly when the varint is representable. */
  lemma LowBitsDecideIffRepresentable(v: nat)
    requires v < LIMIT
    ensures ZigZag(ProtoSint32(v)) == v % 0x1_0000_0000 <==> Representable(v)
  {
    SignedIsZigZag(Number(v));
    NumberOfVarint(v);
    NumberIsNearest(v);
    CloseWithSameLowBits(Number(v), v);
  }

  lemma OnePacked(n: nat)
    requires n < LIMIT
    ensures PackedOf(PackedBytes([n])) == Ok([Number(n)])
  {
    PackedFirst(n, []);
    assert [n] + [] == [n] && [Number(n)] + [] == [Number(n)];
  }

  lemma SignedOfMultiple(n: nat, q: nat)
    requires n == 0x1_0000_0000 * q
    ensures SignedOf(n) == 0 && SignedOf(n + 1) == -1
  {
    LowBit(n);
    LowBit(n + 1);
    assert n % 0x1_0000_0000 == 0 && (n + 1) % 0x1_0000_0000 == 1;
  }

  /** The first integer that is lost is read as 0 where its low bits say -1, and is packed as 2^53. */
  lemma FirstLostReading(n: nat)
    requires n == EXACT + 1
    ensures ProtoSint32(n) == 0 && SignedOf(n) == -1
    ensures PackedOf(PackedBytes([n])) == Ok([n - 1])
  {
    FirstLost();
    OnePacked(n);
    SignedOfMultiple(n - 1, 0x20_0000);
  }
}
