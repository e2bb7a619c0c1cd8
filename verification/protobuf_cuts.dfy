/**
 * What the field reader makes of a buffer that ends inside a field
 * (packages/shared/src/gc/protobuf.ts): only a length-delimited payload may be cut off unnoticed.
 */
module ProtobufCuts {
  import opened JsNumber
  import opened Protobuf
  import opened Varints
  import opened Wrappers

  /** A varint cut before its last group is noticed, if it is not too long anyway. */
  lemma {:induction false} CutVarint(value: int, k: nat, groups: nat)
    requires k < |Varint(value)| && k < groups
    ensures ReadFrom(Varint(value)[..k], groups) == Err(TruncatedVarint)
    decreases groups
  {
    var s := Varint(value);
    if k > 0 {
      assert s[..k][0] == s[0] >= 128 && s[1..] == Varint(value / 128);
      assert s[..k][1..] == s[1..][..k - 1];
      CutVarint(value / 128, k - 1, groups - 1);
    }
  }

  /** A value below 2^70 has at most ten groups. */
  lemma {:induction false} FitsGroups(value: int, groups: nat)
    requires groups > 0 && ReadFrom(Varint(value), groups).Ok?
    ensures |Varint(value)| <= groups
    decreases groups
  {
    var s := Varint(value);
    if |s| > 1 && groups > 1 {
      assert s[1..] == Varint(value / 128);
      ReadGroup(s, groups);
      FitsGroups(value / 128, groups - 1);
    }
  }

  lemma CutFittingVarint(value: nat, k: nat)
    requires value < LIMIT && k < |Varint(value)|
    ensures ReadFrom(Varint(value)[..k], GROUPS) == Err(TruncatedVarint)
  {
    VarintRoundTrip(value, []);
    assert Varint(value) + [] == Varint(value);
    FitsGroups(value, GROUPS);
    CutVarint(value, k, GROUPS);
  }

  /** What is left of a field whose payload ends after `t`. */
  function CutAnswer(f: Field, t: seq<byte>): Fields {
    match f.payload
    case VarintValue(_) => Err(TruncatedVarint)
    case Fixed32(_) => Err(TruncatedFixed32)
    case Fixed64(_) => Err(TruncatedFixed64)
    case Bytes(b) =>
      if |t| < |Varint(|b|)| then Err(TruncatedVarint) else Ok([Field(f.number, Bytes(t[|Varint(|b|)|..]))])
  }

  lemma CutBytes(f: Field, k: nat)
    requires Fits(f) && f.payload.Bytes? && |Varint(|f.payload.bytes|)| <= k < |EncodePayload(f.payload)|
    ensures TakePayload(f.number, 2, EncodePayload(f.payload)[..k])
            == Short(CutAnswer(f, EncodePayload(f.payload)[..k]))
  {
    var b := f.payload.bytes;
    var head := Varint(|b|);
    var t := EncodePayload(f.payload)[..k];
    assert t == head + b[..k - |head|];
    VarintRoundTrip(|b|, b[..k - |head|]);
    assert t[|head|..] == b[..k - |head|];
  }

  lemma CutPayload(f: Field, k: nat)
    requires Fits(f) && k < |EncodePayload(f.payload)|
    ensures TakePayload(f.number, WireOf(f.payload), EncodePayload(f.payload)[..k])
            == Short(CutAnswer(f, EncodePayload(f.payload)[..k]))
  {
    match f.payload
    case VarintValue(v) => CutFittingVarint(v, k);
    case Fixed32(_) =>
    case Fixed64(_) =>
    case Bytes(b) =>
      if k < |Varint(|b|)| {
        assert EncodePayload(f.payload)[..k] == Varint(|b|)[..k];
        CutFittingVarint(|b|, k);
      } else {
        CutBytes(f, k);
      }
  }

  lemma CutAfterTag(f: Field, tag: seq<byte>, t: seq<byte>)
    requires Fits(f) && tag == Varint(8 * f.number + WireOf(f.payload))
    requires TakePayload(f.number, WireOf(f.payload), t) == Short(CutAnswer(f, t))
    ensures FieldsOf(tag + t) == CutAnswer(f, t)
  {
    TagFits(f);
    TagReadBack(f.number, WireOf(f.payload), t);
    assert tag + t != [];
  }

  lemma CutTag(f: Field, k: nat)
    requires Fits(f) && 0 < k < |Varint(8 * f.number + WireOf(f.payload))|
    ensures FieldsOf(Varint(8 * f.number + WireOf(f.payload))[..k]) == Err(TruncatedVarint)
  {
    TagFits(f);
    CutFittingVarint(8 * f.number + WireOf(f.payload), k);
  }

  /**
   * Every proper prefix of an encoded field: nothing at all, an error that names what was cut, or, when only
   * the content of a length-delimited payload is cut, a field with what is there of it.
   */
  lemma CutField(f: Field, k: nat)
    requires Fits(f) && k < |Encode(f)|
    ensures var tag := |Varint(8 * f.number + WireOf(f.payload))|;
            FieldsOf(Encode(f)[..k]) ==
              if k == 0 then Ok([])
              else if k < tag then Err(TruncatedVarint)
              else CutAnswer(f, EncodePayload(f.payload)[..k - tag])
  {
    var tag := Varint(8 * f.number + WireOf(f.payload));
    if 0 < k < |tag| {
      assert Encode(f)[..k] == tag[..k];
      CutTag(f, k);
    } else if k >= |tag| {
      assert Encode(f)[..k] == tag + EncodePayload(f.payload)[..k - |tag|];
      CutPayload(f, k - |tag|);
      CutAfterTag(f, tag, EncodePayload(f.payload)[..k - |tag|]);
    }
  }
}
