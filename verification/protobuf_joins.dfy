/**
 * Decoding two buffers laid end to end: it is decoding each of them, exactly when the first one
 * does not end inside a field.
 */
module ProtobufJoins {
  import opened JsNumber
  import opened Protobuf
  import opened Varints
  import opened Wrappers

  function Joined(a: Fields, b: Fields): Fields {
    match a
    case Err(e) => Err(e)
    case Ok(fs) => Prepend(fs, b)
  }

  /** Reading `s` comes to its end with a field begun and not finished. */
  predicate Cut(s: seq<byte>)
    decreases |s|
  {
    s != [] &&
    match Take(s)
    case Took(_, n) => Cut(s[n..])
    case Fails(_) => false
    case Short(_) => true
  }

  lemma BytesExtend(number: nat, t: seq<byte>, more: seq<byte>, length: Read)
    requires 0 <= length.value && !TakeBytes(number, t, length).Short?
    ensures TakeBytes(number, t + more, length) == TakeBytes(number, t, length)
  {
    assert (t + more)[..length.value] == t[..length.value];
  }

  lemma PayloadExtends(number: nat, wire: nat, t: seq<byte>, more: seq<byte>)
    requires !TakePayload(number, wire, t).Short?
    ensures TakePayload(number, wire, t + more) == TakePayload(number, wire, t)
  {
    if wire == 0 {
      ReadFromExtends(t, more, GROUPS);
    } else if wire == 2 {
      ReadFromExtends(t, more, GROUPS);
      match ReadFrom(t, GROUPS)
      case Err(_) =>
      case Ok(length) =>
        assert (t + more)[length.used..] == t[length.used..] + more;
        BytesExtend(number, t[length.used..], more, Read(Number(length.value), length.used));
    } else if wire == 5 {
      assert (t + more)[..4] == t[..4];
    } else if wire == 1 {
      assert (t + more)[..8] == t[..8];
    }
  }

  /** A whole field, or an error, does not change when bytes arrive behind it. */
  lemma TakeExtends(s: seq<byte>, more: seq<byte>)
    requires !Take(s).Short?
    ensures Take(s + more) == Take(s)
  {
    ReadFromExtends(s, more, GROUPS);
    match ReadFrom(s, GROUPS)
    case Err(_) =>
    case Ok(tag) =>
      assert (s + more)[tag.used..] == s[tag.used..] + more;
      PayloadExtends(Number(tag.value / 8), tag.value % 8, s[tag.used..], more);
  }

  lemma JoinedTake(s: seq<byte>, b: seq<byte>)
    requires s != [] && Take(s).Took?
    ensures var n := Take(s).used;
            && FieldsOf(s + b) == Prepend([Take(s).field], FieldsOf(s[n..] + b))
            && FieldsOf(s) == Prepend([Take(s).field], FieldsOf(s[n..]))
  {
    TakeExtends(s, b);
    assert (s + b)[Take(s).used..] == s[Take(s).used..] + b;
  }

  lemma JoinedPrepend(f: Field, a: Fields, b: Fields)
    ensures Joined(Prepend([f], a), b) == Prepend([f], Joined(a, b))
  {
    match a
    case Err(_) =>
    case Ok(fs) => PrependTwice([f], fs, b);
  }

  lemma {:induction false} WholeFieldsJoin(a: seq<byte>, b: seq<byte>)
    requires !Cut(a)
    ensures FieldsOf(a + b) == Joined(FieldsOf(a), FieldsOf(b))
    decreases |a|
  {
    if a == [] {
      assert a + b == b;
      PrependNothing(FieldsOf(b));
    } else {
      match Take(a)
      case Took(f, n) =>
        JoinedTake(a, b);
        WholeFieldsJoin(a[n..], b);
        JoinedPrepend(f, FieldsOf(a[n..]), FieldsOf(b));
      case Fails(_) => TakeExtends(a, b);
    }
  }

  // ---- filling up a field ---------------------------------------------------------------------

  function Zeros(n: nat): (s: seq<byte>)
    ensures |s| == n
  {
    seq(n, _ => 0)
  }

  /** The field is finished by `b` and is another one than the reader made of its cut form. */
  predicate Finishes(cut: Taken, full: Taken, length: nat) {
    && cut.Short? && full.Took? && full.used == length
    && (cut.answer.Ok? ==> |cut.answer.value| == 1 && cut.answer.value[0] != full.field)
  }

  lemma FillBytes(number: nat, t: seq<byte>, length: Read)
    requires 0 <= length.value && TakeBytes(number, t, length).Short?
    ensures var b := Zeros(length.value - |t|);
            Finishes(TakeBytes(number, t, length), TakeBytes(number, t + b, length), length.used + |t| + |b|)
  {
    var b := Zeros(length.value - |t|);
    assert (t + b)[..length.value] == t + b && |t + b| > |t|;
  }

  lemma FillLength(number: nat, t: seq<byte>) returns (b: seq<byte>)
    requires ReadFrom(t, GROUPS) == Err(TruncatedVarint)
    ensures Finishes(TakePayload(number, 2, t), TakePayload(number, 2, t + b), |t| + |b|)
  {
    ZeroEnds(t, [], GROUPS);
    assert [0] + [] == [0];
    var length := ReadFrom(t + [0], GROUPS).value;
    var zeros := Zeros(Number(length.value));
    b := [0] + zeros;
    ReadFromExtends(t + [0], zeros, GROUPS);
    assert t + [0] + zeros == t + b;
    assert (t + b)[length.used..] == zeros;
    assert zeros[..Number(length.value)] == zeros;
  }

  lemma FillPayload(number: nat, wire: nat, t: seq<byte>) returns (b: seq<byte>)
    requires TakePayload(number, wire, t).Short?
    ensures Finishes(TakePayload(number, wire, t), TakePayload(number, wire, t + b), |t| + |b|)
  {
    if wire == 0 {
      ZeroEnds(t, [], GROUPS);
      assert [0] + [] == [0];
      b := [0];
    } else if wire == 2 {
      if ReadFrom(t, GROUPS).Err? {
        b := FillLength(number, t);
      } else {
        var length := ReadFrom(t, GROUPS).value;
        b := Zeros(Number(length.value) - (|t| - length.used));
        ReadFromExtends(t, b, GROUPS);
        assert (t + b)[length.used..] == t[length.used..] + b;
        FillBytes(number, t[length.used..], Read(Number(length.value), length.used));
      }
    } else if wire == 5 {
      b := Zeros(4 - |t|);
    } else {
      b := Zeros(8 - |t|);
    }
  }

  lemma EmptyPayload(number: nat, wire: nat)
    ensures var r := TakePayload(number, wire, []);
            (r.Short? && r.answer.Err?) || (r.Fails? && r.error.UnsupportedWire?)
  {
  }

  /** Wire types the reader refuses come out as soon as the tag does. */
  predicate Refuses(cut: Taken, full: Taken) {
    && full.Fails? && full.error.UnsupportedWire?
    && cut.Short? && cut.answer.Err? && !cut.answer.error.UnsupportedWire?
  }

  lemma FillAfterTag(s: seq<byte>) returns (b: seq<byte>)
    requires Take(s).Short? && ReadFrom(s, GROUPS).Ok?
    ensures Finishes(Take(s), Take(s + b), |s| + |b|)
  {
    var tag := ReadFrom(s, GROUPS).value;
    b := FillPayload(Number(tag.value / 8), tag.value % 8, s[tag.used..]);
    ReadFromExtends(s, b, GROUPS);
    assert (s + b)[tag.used..] == s[tag.used..] + b;
  }

  lemma FillFromTag(number: nat, wire: nat) returns (c: seq<byte>)
    ensures var r := TakePayload(number, wire, c);
            (r.Took? && r.used == |c|) || (r.Fails? && r.error.UnsupportedWire?)
  {
    EmptyPayload(number, wire);
    c := [];
    if TakePayload(number, wire, []).Short? {
      c := FillPayload(number, wire, []);
      assert [] + c == c;
    }
  }

  lemma FillTag(s: seq<byte>) returns (b: seq<byte>)
    requires ReadFrom(s, GROUPS) == Err(TruncatedVarint)
    ensures Finishes(Take(s), Take(s + b), |s| + |b|) || Refuses(Take(s), Take(s + b))
  {
    ZeroEnds(s, [], GROUPS);
    assert [0] + [] == [0];
    var tag := ReadFrom(s + [0], GROUPS).value;
    var c := FillFromTag(Number(tag.value / 8), tag.value % 8);
    b := [0] + c;
    ReadFromExtends(s + [0], c, GROUPS);
    assert s + [0] + c == s + b;
    assert (s + b)[tag.used..] == c;
  }

  lemma ShortTag(s: seq<byte>)
    requires Take(s).Short?
    ensures ReadFrom(s, GROUPS).Ok? || ReadFrom(s, GROUPS) == Err(TruncatedVarint)
  {
  }

  /** Whatever was begun, some bytes bring out a field, or a wire type the reader refuses. */
  lemma Fill(s: seq<byte>) returns (b: seq<byte>)
    requires Take(s).Short?
    ensures Finishes(Take(s), Take(s + b), |s| + |b|) || Refuses(Take(s), Take(s + b))
  {
    ShortTag(s);
    if ReadFrom(s, GROUPS).Ok? {
      b := FillAfterTag(s);
    } else {
      b := FillTag(s);
    }
  }

  lemma PrependIsInjective(f: Field, r1: Fields, r2: Fields)
    requires Prepend([f], r1) == Prepend([f], r2)
    ensures r1 == r2
  {
    if r1.Ok? {
      assert ([f] + r1.value)[1..] == r1.value && ([f] + r2.value)[1..] == r2.value;
    }
  }

  lemma FilledDoesNotJoin(a: seq<byte>, b: seq<byte>)
    requires a != [] && Take(a).Short?
    requires Finishes(Take(a), Take(a + b), |a| + |b|) || Refuses(Take(a), Take(a + b))
    ensures FieldsOf(a + b) != Joined(FieldsOf(a), FieldsOf(b))
  {
    var answer := Take(a).answer;
    assert FieldsOf(a) == answer;
    if Take(a + b).Took? {
      var f := Take(a + b).field;
      assert (a + b)[|a| + |b|..] == [];
      assert FieldsOf(a + b) == Ok([f] + []);
      if answer.Ok? && FieldsOf(b).Ok? {
        assert (answer.value + FieldsOf(b).value)[0] == answer.value[0];
      }
    }
  }

  /** A buffer that ends inside a field decodes differently on its own than with the bytes it lacks. */
  lemma {:induction false} CutFieldsDoNotJoin(a: seq<byte>) returns (b: seq<byte>)
    requires Cut(a)
    ensures FieldsOf(a + b) != Joined(FieldsOf(a), FieldsOf(b))
    decreases |a|
  {
    match Take(a)
    case Took(f, n) =>
      b := CutFieldsDoNotJoin(a[n..]);
      JoinedTake(a, b);
      JoinedPrepend(f, FieldsOf(a[n..]), FieldsOf(b));
      if FieldsOf(a + b) == Joined(FieldsOf(a), FieldsOf(b)) {
        PrependIsInjective(f, FieldsOf(a[n..] + b), Joined(FieldsOf(a[n..]), FieldsOf(b)));
      }
    case Short(answer) =>
      b := Fill(a);
      FilledDoesNotJoin(a, b);
  }

  /** Decoding distributes over concatenation exactly when the first part does not end inside a field. */
  lemma JoinsIffNotCut(a: seq<byte>)
    ensures (forall b :: FieldsOf(a + b) == Joined(FieldsOf(a), FieldsOf(b))) <==> !Cut(a)
  {
    if Cut(a) {
      var b := CutFieldsDoNotJoin(a);
    } else {
      forall b ensures FieldsOf(a + b) == Joined(FieldsOf(a), FieldsOf(b)) {
        WholeFieldsJoin(a, b);
      }
    }
  }
}
