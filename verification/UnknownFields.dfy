/** Fields nobody knows, before, between and after fields that are known: the parsers pass over them. */
module UnknownFields {
  import opened OrderedMaps
  import opened Wire
  import opened Extensions
  import opened ExtensionCodec
  import opened ExtensionParsing
  import opened PacketLoop
  import opened SkippedFields

  // ----- A whole field is read from its own bytes alone -----

  /** What is made of a number depends on the bytes of the number only. */
  lemma PrimitiveConsumes(t: FieldType, tag: nat, p: Payload, rest: bytes, room: nat)
    requires IsPrimitive(t) && tag % 8 == WireTypeOf(t) && Announced(tag, p, room)
    ensures var alone := PrimitiveAt(t, PayloadBytes(p));
      alone.Done? && alone.rest == [] && PrimitiveAt(t, PayloadBytes(p) + rest) == Done(alone.value, rest)
  {
    hide Varint32At, Varint64At, FixedAt, VarintNumber, IsVarint, Number32, AllProper, ToSigned, ZigZagDecode;
    assert PayloadBytes(p) + [] == PayloadBytes(p);
    match p
    case Digits(varint) =>
      SameNumber(varint, rest);
      SameNumber(varint, []);
    case Raw(data) =>
      SameData(data, rest);
      SameData(data, []);
  }

  lemma SameData(data: bytes, rest: bytes)
    ensures FixedAt(data + rest, |data|) == Done(FixedValue(data), rest)
  {
    hide FixedValue;
    assert (data + rest)[..|data|] == data && (data + rest)[|data|..] == rest;
  }

  lemma SameNumber(v: bytes, rest: bytes)
    requires IsVarint(v)
    ensures Varint64At(v + rest) == Done(VarintNumber(v) % TWO_64, rest)
    ensures Varint32At(v + rest) == Done(Number32(v), rest)
  {
    hide VarintFrom, VarintNumber;
    VarintReads(v, rest, 0);
  }

  lemma CountedThere(length: bytes, data: bytes, rest: bytes)
    requires IsVarint(length) && Number32(length) == |data|
    ensures Varint32At(length + data + rest) == Done(|data|, data + rest)
    ensures (data + rest)[..Min(|data|, |data + rest|)] == data && (data + rest)[Min(|data|, |data + rest|)..] == rest
  {
    hide IsVarint, Number32, Varint32At;
    assert length + data + rest == length + (data + rest);
    VarintThere(length, data + rest);
  }

  /** The same for a whole value. */
  lemma ValueConsumes(registry: Registry, info: ExtensionInfo, was: Message, tag: nat, p: Payload, rest: bytes,
                      room: nat)
    requires WellFormed(registry) && tag % 8 == WireTypeOf(info.fieldType) && Announced(tag, p, room)
    ensures var alone := ValueParsed(registry, info, was, PayloadBytes(p), room);
      && (alone.Done? ==> alone.rest == [])
      && ValueParsed(registry, info, was, PayloadBytes(p) + rest, room)
        == if alone.Done? then Done(alone.value, rest) else Failed
  {
    hide PrimitiveAt, Parsed, Varint32At, IsVarint, Number32, AllProper, IsTail;
    assert PayloadBytes(p) + [] == PayloadBytes(p);
    if IsPrimitive(info.fieldType) {
      PrimitiveConsumes(info.fieldType, tag, p, rest, room);
    } else {
      CountedThere(p.length, p.data, rest);
      CountedThere(p.length, p.data, []);
      assert p.data + [] == p.data && p.data[..|p.data|] == p.data && p.data[|p.data|..] == [];
      assert (p.data + rest)[..|p.data|] == p.data && (p.data + rest)[|p.data|..] == rest;
    }
  }

  /** Parsing a field of an extension set. */
  lemma FieldConsumes(registry: Registry, t: nat, m: Message, tag: nat, p: Payload, rest: bytes, room: nat)
    requires WellFormed(registry) && tag < TWO_32 && Announced(tag, p, room)
    ensures var alone := FieldParsed(registry, t, m, tag, PayloadBytes(p), room);
      && (alone.Done? ==> alone.rest == [])
      && FieldParsed(registry, t, m, tag, PayloadBytes(p) + rest, room)
        == if alone.Done? then Done(alone.value, rest) else Failed
    ensures !Expected(registry, t, tag) ==> FieldParsed(registry, t, m, tag, PayloadBytes(p), room) == Done(m, [])
  {
    hide PayloadBytes, AfterField, ValueParsed, PackedParsed, Stored, Announced, WireTypeOf, Varint32At;
    if !Expected(registry, t, tag) {
      FieldIsSkipped(tag, p, rest, room);
      FieldIsSkipped(tag, p, [], room);
      assert PayloadBytes(p) + [] == PayloadBytes(p);
    } else if registry[(t, tag / 8)].packed {
      PackedConsumes(tag, p, rest, room);
      PackedConsumes(tag, p, [], room);
      assert PayloadBytes(p) + [] == PayloadBytes(p);
    } else {
      ValueConsumes(registry, registry[(t, tag / 8)], MessageIn(Entry(m, tag / 8)), tag, p, rest, room);
    }
  }

  lemma PackedConsumes(tag: nat, p: Payload, rest: bytes, room: nat)
    requires Announced(tag, p, room) && tag % 8 == LENGTH_DELIMITED
    ensures p.Counted? && Varint32At(PayloadBytes(p) + rest) == Done(|p.data|, p.data + rest)
    ensures (p.data + rest)[..Min(|p.data|, |p.data + rest|)] == p.data
    ensures (p.data + rest)[Min(|p.data|, |p.data + rest|)..] == rest
  {
    hide Varint32At, IsVarint, Number32, AllProper;
    CountedThere(p.length, p.data, rest);
  }

  // ----- Whole fields, one after another -----

  /** What the message loop makes of whole fields. */
  function AfterFields(registry: Registry, t: nat, m: Message, fields: seq<Field>, room: nat): Option<Message>
    requires WellFormed(registry)
    decreases |fields|
  {
    if fields == [] then Some(m)
    else
      match FieldParsed(registry, t, m, Number32(fields[0].key), PayloadBytes(fields[0].payload), room)
      case Failed => None
      case Done(m', _) => AfterFields(registry, t, m', fields[1..], room)
  }

  lemma {:induction false} ParsedThroughFields(registry: Registry, t: nat, m: Message, fields: seq<Field>, b: bytes,
                                               room: nat)
    requires WellFormed(registry) && AllProper(fields, room)
    ensures Parsed(registry, t, m, AllBytes(fields) + b, room)
         == match AfterFields(registry, t, m, fields, room)
            case None => None
            case Some(m') => Parsed(registry, t, m', b, room)
    decreases |fields|
  {
    hide Parsed, TagAt, FieldParsed, PayloadBytes, AllBytes, Announced, Number32, IsVarint;
    BytesOfFields(fields, b);
    if fields != [] {
      var f, others := fields[0], AllBytes(fields[1..]) + b;
      assert Proper(f, room);
      KeyReads(f.key, PayloadBytes(f.payload) + others);
      AnnouncedIsNoEnd(Number32(f.key), f.payload, room);
      ParsedByField(registry, t, m, AllBytes(fields) + b, room);
      FieldConsumes(registry, t, m, Number32(f.key), f.payload, others, room);
      var r := FieldParsed(registry, t, m, Number32(f.key), PayloadBytes(f.payload), room);
      if r.Done? { ParsedThroughFields(registry, t, r.value, fields[1..], b, room); }
    }
  }

  lemma BytesOfFields(fields: seq<Field>, b: bytes)
    ensures fields == [] ==> AllBytes(fields) + b == b
    ensures fields != [] ==>
      AllBytes(fields) + b == fields[0].key + (PayloadBytes(fields[0].payload) + (AllBytes(fields[1..]) + b))
  {
    hide PayloadBytes;
  }

  lemma ParsedByField(registry: Registry, t: nat, m: Message, b: bytes, room: nat)
    requires WellFormed(registry) && TagAt(b).Next? && TagAt(b).tag % 8 != END_GROUP
    ensures Parsed(registry, t, m, b, room)
         == match FieldParsed(registry, t, m, TagAt(b).tag, TagAt(b).rest, room)
            case Failed => None
            case Done(m', rest') => Parsed(registry, t, m', rest', room)
  {
    hide TagAt, FieldParsed;
  }

  lemma KeyReads(key: bytes, rest: bytes)
    requires IsVarint(key) && Number32(key) > 0
    ensures TagAt(key + rest) == Next(Number32(key), rest) && Number32(key) < TWO_32
  {
    hide Varint32At, VarintNumber;
    VarintThere(key, rest);
  }

  /** Nobody reads these fields: their number is not registered for the type, or under another wire type. */
  predicate AllUnknown(registry: Registry, t: nat, fields: seq<Field>) {
    forall i | 0 <= i < |fields| :: !Expected(registry, t, Number32(fields[i].key))
  }

  lemma {:induction false} UnknownChangeNothing(registry: Registry, t: nat, m: Message, fields: seq<Field>, room: nat)
    requires WellFormed(registry) && AllProper(fields, room) && AllUnknown(registry, t, fields)
    ensures AfterFields(registry, t, m, fields, room) == Some(m)
    decreases |fields|
  {
    hide FieldParsed, PayloadBytes, Announced, Number32, IsVarint, Expected;
    if fields != [] {
      assert Proper(fields[0], room);
      NumberFits(fields[0].key);
      FieldConsumes(registry, t, m, Number32(fields[0].key), fields[0].payload, [], room);
      UnknownChangeNothing(registry, t, m, fields[1..], room);
    }
  }

  /** Wherever among whole fields they stand and whatever bytes follow, fields nobody knows make no difference. */
  lemma UnknownAreSkipped(registry: Registry, t: nat, m: Message, before: seq<Field>, unknown: seq<Field>, b: bytes,
                          room: nat)
    requires WellFormed(registry) && AllProper(before, room) && AllProper(unknown, room)
    requires AllUnknown(registry, t, unknown)
    ensures Parsed(registry, t, m, AllBytes(before) + AllBytes(unknown) + b, room)
         == Parsed(registry, t, m, AllBytes(before) + b, room)
  {
    hide Parsed, AfterFields, AllProper, AllUnknown, AllBytes;
    assert AllBytes(before) + AllBytes(unknown) + b == AllBytes(before) + (AllBytes(unknown) + b);
    ParsedThroughFields(registry, t, m, before, AllBytes(unknown) + b, room);
    ParsedThroughFields(registry, t, m, before, b, room);
    var r := AfterFields(registry, t, m, before, room);
    if r.Some? {
      ParsedThroughFields(registry, t, r.value, unknown, b, room);
      UnknownChangeNothing(registry, t, r.value, unknown, room);
    }
  }

  // ----- The same for the packets, failures included -----

  function WithRest(r: FieldRun, rest: bytes): FieldRun {
    match r
    case Stopped(m) => Stopped(m)
    case Ran(m, _) => Ran(m, rest)
  }

  /** Reading a declared field of a packet depends on the bytes of the field only. */
  lemma RunFieldConsumes(t: nat, m: Message, tag: nat, p: Payload, rest: bytes, room: nat)
    requires Expected(Schema(), t, tag) && Announced(tag, p, room)
    ensures RunField(t, m, tag, PayloadBytes(p) + rest, room)
         == WithRest(RunField(t, m, tag, PayloadBytes(p), room), rest)
    ensures RunField(t, m, tag, PayloadBytes(p), room).Ran? ==> RunField(t, m, tag, PayloadBytes(p), room).rest == []
  {
    hide PayloadBytes, PrimitiveAt, RunMessage, RunString, Stored, Announced, WireTypeOf, Schema, Varint32At, FieldInfo,
      Expected, Entry, MessageIn, StringIn;
    var info := FieldInfo(t, tag / 8);
    DeclaredPayload(t, tag, p, room);
    if IsPrimitive(info.fieldType) {
      PrimitiveConsumes(info.fieldType, tag, p, rest, room);
    } else {
      PackedConsumes(tag, p, rest, room);
      PackedConsumes(tag, p, [], room);
      assert PayloadBytes(p) + [] == PayloadBytes(p) && p.data + [] == p.data;
      CountedRuns(info, m, tag / 8, p, rest, room);
    }
  }

  lemma DeclaredPayload(t: nat, tag: nat, p: Payload, room: nat)
    requires Expected(Schema(), t, tag) && Announced(tag, p, room)
    ensures var info := FieldInfo(t, tag / 8);
      && tag % 8 == WireTypeOf(info.fieldType)
      && (!IsPrimitive(info.fieldType) ==> tag % 8 == LENGTH_DELIMITED && p.Counted? && |p.data| < TWO_31)
  {
    hide AllProper, IsVarint, Number32, FieldInfo;
  }

  lemma CountedRuns(info: ExtensionInfo, m: Message, n: int, p: Payload, rest: bytes, room: nat)
    requires p.Counted? && |p.data| < TWO_31
    requires Varint32At(PayloadBytes(p) + rest) == Done(|p.data|, p.data + rest)
    requires Varint32At(PayloadBytes(p)) == Done(|p.data|, p.data)
    ensures var start := if info.repeated then EMPTY else MessageIn(Entry(m, n));
      var alone := RunMessage(info.messageType, start, PayloadBytes(p), room);
      RunMessage(info.messageType, start, PayloadBytes(p) + rest, room) == WithRest(alone, rest)
      && (alone.Ran? ==> alone.rest == [])
    ensures RunString(StringIn(Entry(m, n)), PayloadBytes(p)) == RanString(p.data, [])
    ensures RunString(StringIn(Entry(m, n)), PayloadBytes(p) + rest) == RanString(p.data, rest)
  {
    hide PayloadBytes, Varint32At, RunLoop, Entry, MessageIn, StringIn;
    assert (p.data + rest)[..|p.data|] == p.data && (p.data + rest)[|p.data|..] == rest;
    assert p.data[..|p.data|] == p.data && p.data[|p.data|..] == [];
  }

  /** Where the loop is after whole fields: in its middle, or stopped by a field that is no good. */
  ghost function RunFields(t: nat, m: Message, fields: seq<Field>, room: nat): FieldRun
    decreases |fields|
  {
    if fields == [] then Ran(m, [])
    else
      var tag := Number32(fields[0].key);
      if !Expected(Schema(), t, tag) then RunFields(t, m, fields[1..], room)
      else
        match RunField(t, m, tag, PayloadBytes(fields[0].payload), room)
        case Stopped(m') => Stopped(m')
        case Ran(m', _) => RunFields(t, m', fields[1..], room)
  }

  lemma {:induction false} RunThroughFields(t: nat, m: Message, fields: seq<Field>, b: bytes, room: nat)
    requires AllProper(fields, room)
    ensures RunLoop(t, m, AllBytes(fields) + b, room)
         == match RunFields(t, m, fields, room)
            case Stopped(m') => Run(false, false, m')
            case Ran(m', _) => RunLoop(t, m', b, room)
    decreases |fields|
  {
    hide TagAt, PayloadBytes, AllBytes, Announced, Number32, IsVarint, RunField, AfterField, Schema, Expected;
    BytesOfFields(fields, b);
    if fields != [] {
      var f, others := fields[0], AllBytes(fields[1..]) + b;
      var tag := Number32(f.key);
      assert Proper(f, room);
      KeyReads(f.key, PayloadBytes(f.payload) + others);
      AnnouncedIsNoEnd(tag, f.payload, room);
      if Expected(Schema(), t, tag) {
        RunFieldConsumes(t, m, tag, f.payload, others, room);
        var r := RunField(t, m, tag, PayloadBytes(f.payload), room);
        if r.Ran? { RunThroughFields(t, r.message, fields[1..], b, room); }
      } else {
        FieldIsSkipped(tag, f.payload, others, room);
        RunThroughFields(t, m, fields[1..], b, room);
      }
    }
  }

  lemma {:induction false} UnknownLeaveRun(t: nat, m: Message, fields: seq<Field>, room: nat)
    requires AllUnknown(Schema(), t, fields)
    ensures RunFields(t, m, fields, room) == Ran(m, [])
    decreases |fields|
  {
    hide Schema, Expected, RunField, Number32;
    if fields != [] { UnknownLeaveRun(t, m, fields[1..], room); }
  }

  /** The parser of a packet ends as it does without the fields nobody knows: in the same way, with the same message. */
  lemma UnknownInPackets(t: nat, m: Message, before: seq<Field>, unknown: seq<Field>, b: bytes, room: nat)
    requires AllProper(before, room) && AllProper(unknown, room) && AllUnknown(Schema(), t, unknown)
    ensures RunLoop(t, m, AllBytes(before) + AllBytes(unknown) + b, room) == RunLoop(t, m, AllBytes(before) + b, room)
  {
    hide RunLoop, RunFields, AllProper, AllUnknown, AllBytes, Schema;
    assert AllBytes(before) + AllBytes(unknown) + b == AllBytes(before) + (AllBytes(unknown) + b);
    RunThroughFields(t, m, before, AllBytes(unknown) + b, room);
    RunThroughFields(t, m, before, b, room);
    var r := RunFields(t, m, before, room);
    if r.Ran? {
      RunThroughFields(t, r.message, unknown, b, room);
      UnknownLeaveRun(t, r.message, unknown, room);
    }
  }

  // ----- A field nobody knows after a product code -----

  /** A product code "A", and then a string under number 4, whose bytes would read as a product code of their own. */
  lemma UnknownStringExample(room: nat)
    ensures RunLoop(FEED, EMPTY, [10, 1, 65, 34, 2, 10, 0], room)
         == Run(true, true, Message(map[1 := Singular(STRING, false, Str([65]))], 0))
  {
    hide RunLoop, Schema, AllBytes, AllProper, AllUnknown, Number32;
    var code, unknown := Field([10], Counted([1], [65])), Field([34], Counted([2], [10, 0]));
    OneField(code, room);
    OneField(unknown, room);
    NotInFeed([unknown], 34);
    UnknownInPackets(FEED, EMPTY, [code], [unknown], [], room);
    assert AllBytes([code]) + AllBytes([unknown]) + [] == [10, 1, 65, 34, 2, 10, 0];
    CodeAlone(code, room);
  }

  lemma OneField(f: Field, room: nat)
    requires |f.key| == 1 && 0 < f.key[0] < 128 && f.payload.Counted? && f.key[0] % 8 == 2
    requires |f.payload.length| == 1 && f.payload.length[0] == |f.payload.data| < 128
    ensures AllProper([f], room) && Number32(f.key) == f.key[0]
    ensures AllBytes([f]) == f.key + (f.payload.length + f.payload.data)
  {
    hide VarintNumber, Number32, IsVarint, AllProper, AllBytes;
    OneByte(f.key);
    OneByte(f.payload.length);
    assert Announced(Number32(f.key), f.payload, room);
    Alone(f, room);
    assert PayloadBytes(f.payload) == f.payload.length + f.payload.data;
  }

  lemma Alone(f: Field, room: nat)
    ensures AllProper([f], room) <==> Proper(f, room)
    ensures AllBytes([f]) == f.key + PayloadBytes(f.payload)
  {
    hide Proper, PayloadBytes;
    assert [f][0] == f && [f][1..] == [] && AllBytes([]) == [];
    assert WholeBytes(f) + [] == WholeBytes(f);
  }

  lemma OneByte(b: bytes)
    requires |b| == 1 && b[0] < 128
    ensures IsVarint(b) && Number32(b) == b[0]
  {
    assert VarintNumber(b[1..]) == 0;
  }

  lemma NotInFeed(fields: seq<Field>, tag: nat)
    requires |fields| == 1 && Number32(fields[0].key) == tag == 34
    ensures AllUnknown(Schema(), FEED, fields)
  {
    hide Schema, Number32, FieldInfo, WireTypeOf;
  }

  lemma CodeAlone(code: Field, room: nat)
    requires code.payload == Counted([1], [65]) && Number32(code.key) == 10 && AllProper([code], room)
    ensures RunLoop(FEED, EMPTY, AllBytes([code]) + [], room)
         == Run(true, true, Message(map[1 := Singular(STRING, false, Str([65]))], 0))
  {
    hide RunLoop, Schema, AllBytes, AllProper, Number32, RunString, Varint32At, Stored, RunMessage;
    var p, m := code.payload, Message(map[1 := Singular(STRING, false, Str([65]))], 0);
    RunThroughFields(FEED, EMPTY, [code], [], room);
    IsProductCode();
    OneByte([1]);
    CountedThere(p.length, p.data, []);
    assert PayloadBytes(p) + [] == PayloadBytes(p) == p.length + p.data + [] && p.data + [] == p.data;
    CountedRuns(FieldInfo(FEED, 1), EMPTY, 1, p, [], room);
    StoredCode(m);
    assert [code][1..] == [];
    RunsOut(m, room);
  }

  lemma IsProductCode()
    ensures Expected(Schema(), FEED, 10)
  {
  }

  lemma StoredCode(m: Message)
    requires m == Message(map[1 := Singular(STRING, false, Str([65]))], 0)
    ensures Stored(EMPTY, 1, FieldInfo(FEED, 1), Str([65])) == m
  {
  }

  lemma RunsOut(m: Message, room: nat)
    ensures RunLoop(FEED, m, [], room) == Run(true, true, m)
  {
  }
}
