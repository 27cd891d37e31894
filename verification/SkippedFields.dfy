/** What a field of the wire format is, whether or not anybody knows it, and that skipping one skips it and no more. */
module SkippedFields {
  import opened Wire

  // ----- Varints as they come, canonical or not -----

  /** Groups of seven bits, all but the last with the top bit set. */
  predicate IsVarint(b: bytes) {
    0 < |b| <= 10 && b[|b| - 1] < 128 && forall i | 0 <= i < |b| - 1 :: b[i] >= 128
  }

  /** The number, its lowest group first. */
  function VarintNumber(b: bytes): nat {
    if b == [] then 0 else b[0] % 128 + 128 * VarintNumber(b[1..])
  }

  function Number32(b: bytes): nat {
    VarintNumber(b) % 0x1_0000_0000
  }

  lemma NumberFits(key: bytes)
    ensures Number32(key) < TWO_32
  {
  }

  lemma {:induction false} VarintReads(v: bytes, rest: bytes, count: nat)
    requires IsVarint(v) && count + |v| <= MAX_VARINT_BYTES
    ensures VarintFrom(v + rest, count) == Done(VarintNumber(v), rest)
    decreases |v|
  {
    hide VarintFrom, VarintNumber;
    NumberOf(v);
    if |v| > 1 {
      assert v + rest == [v[0]] + (v[1..] + rest);
      VarintReads(v[1..], rest, count + 1);
      VarintContinues(v[0] - 128, v[1..] + rest, count);
    } else {
      assert v == [v[0]];
      LastByte(v[0], rest, count);
    }
  }

  lemma NumberOf(v: bytes)
    requires v != []
    ensures VarintNumber(v) == v[0] % 128 + 128 * VarintNumber(v[1..]) && VarintNumber([]) == 0
    ensures v[0] < 128 ==> v[0] % 128 == v[0]
    ensures v[0] >= 128 ==> v[0] % 128 == v[0] - 128
  {
  }

  lemma LastByte(b: byte, rest: bytes, count: nat)
    requires b < 128 && count < MAX_VARINT_BYTES
    ensures VarintFrom([b] + rest, count) == Done(b, rest)
  {
    assert ([b] + rest)[1..] == rest;
  }

  lemma {:induction false} ReadIsVarint(b: bytes, count: nat)
    requires VarintFrom(b, count).Done?
    ensures var r := VarintFrom(b, count);
      var v := b[..|b| - |r.rest|];
      b == v + r.rest && IsVarint(v) && count + |v| <= MAX_VARINT_BYTES && VarintNumber(v) == r.value
    decreases |b|
  {
    hide VarintFrom, VarintNumber, IsVarint;
    var r := VarintFrom(b, count);
    ReadOneByte(b, count);
    if b[0] < 128 {
      assert b[..|b| - |r.rest|] == [b[0]];
      OneByteVarint(b[0]);
    } else {
      ReadIsVarint(b[1..], count + 1);
      VarintGrows(b, b[1..][..|b[1..]| - |r.rest|], r.rest);
    }
  }

  lemma ReadOneByte(b: bytes, count: nat)
    requires VarintFrom(b, count).Done?
    ensures b != [] && count < MAX_VARINT_BYTES
    ensures b[0] < 128 ==> VarintFrom(b, count) == Done(b[0], b[1..])
    ensures b[0] >= 128 ==>
      var next := VarintFrom(b[1..], count + 1);
      next.Done? && VarintFrom(b, count) == Done(b[0] - 128 + 128 * next.value, next.rest)
  {
  }

  lemma OneByteVarint(b: byte)
    requires b < 128
    ensures IsVarint([b]) && VarintNumber([b]) == b
  {
    assert [b][1..] == [];
  }

  lemma VarintGrows(b: bytes, v: bytes, rest: bytes)
    requires b != [] && b[0] >= 128 && b[1..] == v + rest && IsVarint(v) && |v| < 10
    ensures b == [b[0]] + v + rest && IsVarint([b[0]] + v) && b[..|b| - |rest|] == [b[0]] + v
    ensures VarintNumber([b[0]] + v) == b[0] - 128 + 128 * VarintNumber(v)
  {
    hide VarintNumber, IsVarint;
    var longer := [b[0]] + v;
    assert longer[0] == b[0] && longer[1..] == v;
    NumberOf(longer);
    LongerVarint(b[0], v);
    assert b == [b[0]] + (v + rest) == longer + rest;
  }

  lemma LongerVarint(first: byte, v: bytes)
    requires first >= 128 && IsVarint(v) && |v| < 10
    ensures IsVarint([first] + v)
  {
  }

  lemma VarintThere(v: bytes, rest: bytes)
    requires IsVarint(v)
    ensures Varint64At(v + rest).Done? && Varint64At(v + rest).rest == rest
    ensures Varint32At(v + rest) == Done(Number32(v), rest)
  {
    hide VarintFrom, VarintNumber;
    VarintReads(v, rest, 0);
  }

  lemma ThereIsVarint(b: bytes)
    requires Varint64At(b).Done? || Varint32At(b).Done?
    ensures Varint64At(b).Done? && Varint32At(b).Done? && Varint64At(b).rest == Varint32At(b).rest
    ensures var rest := Varint32At(b).rest;
      var v := b[..|b| - |rest|];
      b == v + rest && IsVarint(v) && Number32(v) == Varint32At(b).value
  {
    hide VarintFrom, VarintNumber, IsVarint;
    ReadIsVarint(b, 0);
  }

  // ----- Fields -----

  /** The bytes of a field: those of its tag, and those the tag announces. A group ends with a tag of its own. */
  datatype Field = Field(key: bytes, payload: Payload)

  datatype Payload =
    | Digits(varint: bytes)
    | Raw(data: bytes)
    | Counted(length: bytes, data: bytes)
    | Group(fields: seq<Field>, end: bytes)

  function PayloadBytes(p: Payload): bytes
    decreases p, 0
  {
    match p
    case Digits(varint) => varint
    case Raw(data) => data
    case Counted(length, data) => length + data
    case Group(fields, end) => AllBytes(fields) + end
  }

  function WholeBytes(f: Field): bytes
    decreases f, 1
  {
    f.key + PayloadBytes(f.payload)
  }

  function AllBytes(fields: seq<Field>): bytes
    decreases fields
  {
    if fields == [] then [] else WholeBytes(fields[0]) + AllBytes(fields[1..])
  }

  /** The payload is what a tag announces by its lowest three bits, with groups nested at most `room` deep. */
  ghost predicate Announced(tag: nat, p: Payload, room: nat)
    decreases p, 0
  {
    match p
    case Digits(varint) => tag % 8 == 0 && IsVarint(varint)
    case Raw(data) => (tag % 8 == 1 && |data| == 8) || (tag % 8 == 5 && |data| == 4)
    case Counted(length, data) =>
      tag % 8 == 2 && IsVarint(length) && Number32(length) == |data| < 0x8000_0000
    case Group(fields, end) =>
      && tag % 8 == 3 && room > 0 && IsVarint(end) && Number32(end) == tag + 1
      && AllProper(fields, room - 1)
  }

  ghost predicate AllProper(fields: seq<Field>, room: nat)
    decreases fields
  {
    forall i | 0 <= i < |fields| :: Proper(fields[i], room)
  }

  ghost predicate Proper(f: Field, room: nat)
    decreases f, 1
  {
    IsVarint(f.key) && Number32(f.key) > 0 && Announced(Number32(f.key), f.payload, room)
  }

  // ----- Skipping goes over one field -----

  /** Whatever the field and whatever follows, skipping it leaves just what follows. */
  lemma {:induction false} FieldIsSkipped(tag: nat, p: Payload, rest: bytes, room: nat)
    requires tag < TWO_32 && Announced(tag, p, room)
    ensures AfterField(PayloadBytes(p) + rest, tag, room) == Done((), rest)
    decreases p, 0
  {
    hide Varint32At, Varint64At, IsVarint, Number32, AllBytes, AfterMessage, FixedValue;
    match p
    case Digits(varint) => VarintThere(varint, rest);
    case Raw(data) => assert (data + rest)[|data|..] == rest;
    case Counted(length, data) =>
      assert length + data + rest == length + (data + rest);
      VarintThere(length, data + rest);
      assert (data + rest)[|data|..] == rest;
    case Group(fields, end) =>
      FieldsAreSkipped(fields, end, rest, room - 1);
      assert MakeTag(tag / 8, END_GROUP) == tag + 1;
  }

  lemma {:induction false} FieldsAreSkipped(fields: seq<Field>, end: bytes, rest: bytes, room: nat)
    requires AllProper(fields, room) && IsVarint(end) && Number32(end) % 8 == 4
    ensures AfterMessage(AllBytes(fields) + end + rest, room) == Done(Number32(end), rest)
    decreases fields
  {
    hide Varint32At, IsVarint, Number32, PayloadBytes, Announced, AfterField, AfterMessage;
    if fields == [] {
      assert [] + end + rest == end + rest;
      EndThere(end, rest, room);
    } else {
      var f, others := fields[0], AllBytes(fields[1..]) + end + rest;
      assert Proper(f, room);
      assert AllBytes(fields) + end + rest == f.key + (PayloadBytes(f.payload) + others);
      AnnouncedIsNoEnd(Number32(f.key), f.payload, room);
      NumberFits(f.key);
      FieldIsSkipped(Number32(f.key), f.payload, others, room);
      FieldThere(f.key, PayloadBytes(f.payload), others, room);
      FieldsAreSkipped(fields[1..], end, rest, room);
    }
  }

  lemma EndThere(end: bytes, rest: bytes, room: nat)
    requires IsVarint(end) && Number32(end) % 8 == END_GROUP
    ensures AfterMessage(end + rest, room) == Done(Number32(end), rest)
  {
    hide Varint32At, IsVarint, Number32, AfterField;
    VarintThere(end, rest);
  }

  /** A tag, and then bytes that are skipped by it. */
  lemma FieldThere(key: bytes, payload: bytes, others: bytes, room: nat)
    requires IsVarint(key) && Number32(key) > 0 && Number32(key) % 8 != END_GROUP && Number32(key) < TWO_32
    requires AfterField(payload + others, Number32(key), room) == Done((), others)
    ensures AfterMessage(key + (payload + others), room) == AfterMessage(others, room)
  {
    hide Varint32At, IsVarint, Number32, AfterField;
    VarintThere(key, payload + others);
  }

  lemma AnnouncedIsNoEnd(tag: nat, p: Payload, room: nat)
    requires Announced(tag, p, room)
    ensures tag % 8 != END_GROUP
  {
  }

  // ----- What is skipped is one field -----

  /** Whatever can be skipped is a field that the tag announces. */
  lemma {:induction false} SkippedIsField(b: bytes, tag: nat, room: nat) returns (p: Payload)
    requires tag < TWO_32 && AfterField(b, tag, room).Done?
    ensures Announced(tag, p, room) && b == PayloadBytes(p) + AfterField(b, tag, room).rest
    decreases |b|, 1
  {
    hide Varint32At, Varint64At, IsVarint, Number32, AllBytes, AfterMessage, FixedValue;
    var rest := AfterField(b, tag, room).rest;
    if tag % 8 == VARINT {
      ThereIsVarint(b);
      p := Digits(b[..|b| - |rest|]);
    } else if tag % 8 == FIXED_64 || tag % 8 == FIXED_32 {
      p := Raw(b[..|b| - |rest|]);
    } else if tag % 8 == LENGTH_DELIMITED {
      ThereIsVarint(b);
      var length := Varint32At(b);
      p := Counted(b[..|b| - |length.rest|], length.rest[..length.value]);
      assert length.rest == length.rest[..length.value] + rest;
    } else {
      var fields, end := SkippedAreFields(b, room - 1);
      p := Group(fields, end);
      assert MakeTag(tag / 8, END_GROUP) == tag + 1;
    }
  }

  lemma {:induction false} SkippedAreFields(b: bytes, room: nat) returns (fields: seq<Field>, end: bytes)
    requires AfterMessage(b, room).Done? && AfterMessage(b, room).value != 0
    ensures AllProper(fields, room) && IsVarint(end)
    ensures Number32(end) == AfterMessage(b, room).value && Number32(end) % 8 == 4
    ensures b == AllBytes(fields) + end + AfterMessage(b, room).rest
    decreases |b|, 0
  {
    hide TagAt, IsVarint, Number32, PayloadBytes, AllBytes, AfterField, AfterMessage, AllProper, Proper, Announced;
    MessageGoesOn(b, room);
    var tag := TagAt(b);
    var key := KeyThere(b);
    if tag.tag % 8 == END_GROUP {
      fields, end := [], key;
      NoFields(room);
      assert [] + end + tag.rest == end + tag.rest;
    } else {
      var p := SkippedIsField(tag.rest, tag.tag, room);
      var next := AfterField(tag.rest, tag.tag, room).rest;
      var others;
      others, end := SkippedAreFields(next, room);
      fields := [Field(key, p)] + others;
      ProperField(key, p, room);
      OneMoreField(Field(key, p), others, room);
      Regrouped(key, PayloadBytes(p), AllBytes(others), end, AfterMessage(next, room).rest);
    }
  }

  lemma MessageGoesOn(b: bytes, room: nat)
    requires AfterMessage(b, room).Done? && AfterMessage(b, room).value != 0
    ensures var tag, after := TagAt(b), AfterMessage(b, room);
      && tag.Next?
      && (tag.tag % 8 == END_GROUP ==> after == Done(tag.tag, tag.rest))
      && (tag.tag % 8 != END_GROUP ==>
            var next := AfterField(tag.rest, tag.tag, room);
            next.Done? && |next.rest| < |b| && after == AfterMessage(next.rest, room))
  {
    hide TagAt, AfterField;
  }

  lemma KeyThere(b: bytes) returns (key: bytes)
    requires TagAt(b).Next?
    ensures b == key + TagAt(b).rest && IsVarint(key) && Number32(key) == TagAt(b).tag > 0
  {
    hide Varint32At, IsVarint, Number32;
    ThereIsVarint(b);
    key := b[..|b| - |TagAt(b).rest|];
  }

  lemma ProperField(key: bytes, p: Payload, room: nat)
    requires IsVarint(key) && Number32(key) > 0 && Announced(Number32(key), p, room)
    ensures Proper(Field(key, p), room)
  {
  }

  lemma NoFields(room: nat)
    ensures AllProper([], room) && AllBytes([]) == []
  {
  }

  lemma OneMoreField(f: Field, others: seq<Field>, room: nat)
    ensures AllBytes([f] + others) == f.key + PayloadBytes(f.payload) + AllBytes(others)
    ensures Proper(f, room) && AllProper(others, room) ==> AllProper([f] + others, room)
  {
    hide PayloadBytes, Proper;
    assert ([f] + others)[1..] == others;
  }

  lemma Regrouped(a: bytes, b: bytes, c: bytes, d: bytes, e: bytes)
    ensures a + (b + (c + d + e)) == (a + b + c) + d + e
  {
  }

  /** Skipping by a tag goes exactly over what the tag announces, for all bytes. */
  lemma SkipsOneField(b: bytes, tag: nat, rest: bytes, room: nat)
    requires tag < TWO_32
    ensures AfterField(b, tag, room) == Done((), rest)
       <==> exists p :: Announced(tag, p, room) && b == PayloadBytes(p) + rest
  {
    hide AfterField, PayloadBytes, Announced;
    if AfterField(b, tag, room) == Done((), rest) {
      var p := SkippedIsField(b, tag, room);
      assert Announced(tag, p, room) && b == PayloadBytes(p) + rest;
    }
    if p :| Announced(tag, p, room) && b == PayloadBytes(p) + rest {
      FieldIsSkipped(tag, p, rest, room);
    }
  }
}
