/** What is written for extensions is a list of whole fields, which whoever does not know the extensions passes over. */
module ExtensionFields {
  import opened OrderedMaps
  import opened Wire
  import opened Extensions
  import opened ExtensionCodec
  import opened ExtensionParsing
  import opened SkippedFields
  import opened UnknownFields

  // ----- What the bytes of a number stand for -----

  /** The number that bytes stand for, the lowest byte first. */
  function LittleEndian(b: bytes): nat {
    if b == [] then 0 else b[0] + 0x100 * LittleEndian(b[1..])
  }

  /**
   * The numbers of the wire format: two's complement of 64 bits for `int32`, `int64` and enums, twos and ones apart for
   * `sint32` and `sint64`, and four or eight bytes for the fixed-size types.
   */
  lemma NumberMeans(t: FieldType, v: int)
    requires IsPrimitive(t) && InRange(t, v)
    ensures var b := PrimitiveBytes(t, v);
      match t
      case INT32 => IsVarint(b) && VarintNumber(b) == if v >= 0 then v else v + 0x1_0000_0000_0000_0000
      case INT64 => IsVarint(b) && VarintNumber(b) == if v >= 0 then v else v + 0x1_0000_0000_0000_0000
      case ENUM => IsVarint(b) && VarintNumber(b) == if v >= 0 then v else v + 0x1_0000_0000_0000_0000
      case UINT32 => IsVarint(b) && VarintNumber(b) == v
      case UINT64 => IsVarint(b) && VarintNumber(b) == v
      case BOOL => b == [v]
      case SINT32 => IsVarint(b) && VarintNumber(b) == if v >= 0 then v + v else -v - v - 1
      case SINT64 => IsVarint(b) && VarintNumber(b) == if v >= 0 then v + v else -v - v - 1
      case FIXED32 => |b| == 4 && LittleEndian(b) == v
      case FLOAT => |b| == 4 && LittleEndian(b) == v
      case SFIXED32 => |b| == 4 && LittleEndian(b) == if v >= 0 then v else v + 0x1_0000_0000
      case FIXED64 => |b| == 8 && LittleEndian(b) == v
      case DOUBLE => |b| == 8 && LittleEndian(b) == v
      case SFIXED64 => |b| == 8 && LittleEndian(b) == if v >= 0 then v else v + 0x1_0000_0000_0000_0000
  {
    hide VarintBytes, FixedBytes, Power256, LittleEndian, VarintNumber, IsVarint;
    Widths();
    match t
    case INT32 => VarintMeans(ToUnsigned(v, TWO_63));
    case INT64 => VarintMeans(ToUnsigned(v, TWO_63));
    case ENUM => VarintMeans(ToUnsigned(v, TWO_63));
    case UINT32 => VarintMeans(v);
    case UINT64 => VarintMeans(v);
    case BOOL => ShortVarint(v);
    case SINT32 => VarintMeans(ZigZagEncode(v));
    case SINT64 => VarintMeans(ZigZagEncode(v));
    case FIXED32 => FixedMeans(v, 4);
    case FLOAT => FixedMeans(v, 4);
    case SFIXED32 => FixedMeans(ToUnsigned(v, TWO_31), 4);
    case FIXED64 => FixedMeans(v, 8);
    case DOUBLE => FixedMeans(v, 8);
    case SFIXED64 => FixedMeans(ToUnsigned(v, TWO_63), 8);
  }

  lemma ShortVarint(n: nat)
    requires n < 128
    ensures VarintBytes(n) == [n]
  {
  }

  lemma VarintMeans(n: nat)
    requires n < TWO_64
    ensures IsVarint(VarintBytes(n)) && VarintNumber(VarintBytes(n)) == n
  {
    hide VarintBytes, VarintFrom, VarintSize64, VarintSize32, VarintNumber, IsVarint;
    VarintSizeExact(n);
    VarintFromBytes(n, [], 0);
    assert VarintBytes(n) + [] == VarintBytes(n);
    ReadIsVarint(VarintBytes(n), 0);
    assert VarintBytes(n)[..|VarintBytes(n)|] == VarintBytes(n);
  }

  lemma {:induction false} FixedMeans(n: nat, width: nat)
    requires n < Power256(width)
    ensures |FixedBytes(n, width)| == width && LittleEndian(FixedBytes(n, width)) == n
    decreases width
  {
    if width > 0 {
      FixedMeans(n / 256, width - 1);
      assert FixedBytes(n, width)[1..] == FixedBytes(n / 256, width - 1);
    }
  }

  // ----- Values are payloads -----

  /** By the wire type of its type, a value's bytes are announced for what they are. */
  lemma ValueIsPayload(registry: Registry, info: ExtensionInfo, v: Value, tag: nat, room: nat, levels: nat)
    returns (p: Payload)
    requires TypedValue(registry, info, v, room) && FreshValue(v) && FitsValue(v)
    requires tag % 8 == WireTypeOf(info.fieldType)
    ensures ValueBytes(info.fieldType, v) == PayloadBytes(p) && Announced(tag, p, levels)
  {
    hide VarintBytes, PrimitiveBytes, RangeBytes, RangeSize, IsVarint, VarintNumber, AllProper, LittleEndian;
    match v {
      case Num(n) => p := NumberIsPayload(info.fieldType, n, tag, levels);
      case Str(s) =>
        VarintMeans(|s|);
        p := Counted(VarintBytes(|s|), s);
      case Msg(m) =>
        VarintMeans(Size(m));
        BytesMatchSize(registry, info.messageType, m, room - 1, FIRST_NUMBER, PAST_NUMBERS);
        p := Counted(VarintBytes(Size(m)), Bytes(m));
    }
  }

  lemma NumberIsPayload(t: FieldType, v: int, tag: nat, levels: nat) returns (p: Payload)
    requires IsPrimitive(t) && InRange(t, v) && tag % 8 == WireTypeOf(t)
    ensures PrimitiveBytes(t, v) == PayloadBytes(p) && Announced(tag, p, levels)
  {
    hide PrimitiveBytes, VarintNumber, AllProper, LittleEndian;
    NumberMeans(t, v);
    p := if tag % 8 == VARINT then Digits(PrimitiveBytes(t, v)) else Raw(PrimitiveBytes(t, v));
  }

  /**
   * Whoever does not know the extension skips just the bytes of its value: the wire type in the tag tells how many they
   * are.
   */
  lemma ValueIsSkipped(registry: Registry, info: ExtensionInfo, v: Value, n: nat, rest: bytes, room: nat, levels: nat)
    requires TypedValue(registry, info, v, room) && FreshValue(v) && FitsValue(v) && n < TWO_29
    ensures AfterField(ValueBytes(info.fieldType, v) + rest, n * 8 + WireTypeOf(info.fieldType), levels)
         == Done((), rest)
  {
    hide AfterField, ValueBytes, TypedValue, FreshValue, FitsValue, Announced, PayloadBytes;
    var p := ValueIsPayload(registry, info, v, n * 8 + WireTypeOf(info.fieldType), room, levels);
    FieldIsSkipped(n * 8 + WireTypeOf(info.fieldType), p, rest, levels);
  }

  // ----- Extensions are fields -----

  /** Whole fields, all of them under one number. */
  ghost predicate FieldsOf(fields: seq<Field>, n: nat, levels: nat) {
    AllProper(fields, levels) && forall i | 0 <= i < |fields| :: Number32(fields[i].key) / 8 == n
  }

  /** A tag for a number, and what it announces. */
  lemma TaggedField(n: nat, wireType: nat, p: Payload, levels: nat) returns (f: Field)
    requires 0 < n < TWO_29 && wireType < 8 && Announced(n * 8 + wireType, p, levels)
    ensures WholeBytes(f) == VarintBytes(TagOf(n, wireType)) + PayloadBytes(p)
    ensures Proper(f, levels) && Number32(f.key) == n * 8 + wireType
  {
    hide VarintBytes, IsVarint, VarintNumber, PayloadBytes, Announced;
    VarintMeans(n * 8 + wireType);
    f := Field(VarintBytes(n * 8 + wireType), p);
  }

  lemma {:induction false} FieldsAreFields(registry: Registry, info: ExtensionInfo, n: nat, values: seq<Value>,
                                           room: nat, levels: nat) returns (fields: seq<Field>)
    requires 0 < n < TWO_29 && forall i | 0 <= i < |values| :: TypedValue(registry, info, values[i], room)
    requires forall i | 0 <= i < |values| :: FreshValue(values[i]) && FitsValue(values[i])
    ensures AllBytes(fields) == FieldsBytes(n, info.fieldType, values) && FieldsOf(fields, n, levels)
    decreases |values|
  {
    hide VarintBytes, ValueBytes, TypedValue, FreshValue, FitsValue, Announced, PayloadBytes, AllBytes, FieldsOf,
      Proper, WholeBytes, TagOf;
    if values == [] {
      fields := [];
      NoFieldsOf(n, levels);
    } else {
      var w := WireTypeOf(info.fieldType);
      var p := ValueIsPayload(registry, info, values[0], n * 8 + w, room, levels);
      var f := TaggedField(n, w, p, levels);
      var others := FieldsAreFields(registry, info, n, values[1..], room, levels);
      fields := [f] + others;
      OneMoreOf(f, others, n, levels);
    }
  }

  lemma NoFieldsOf(n: nat, levels: nat)
    ensures AllBytes([]) == [] && FieldsOf([], n, levels)
  {
  }

  lemma OneMoreOf(f: Field, others: seq<Field>, n: nat, levels: nat)
    requires Proper(f, levels) && Number32(f.key) / 8 == n && FieldsOf(others, n, levels)
    ensures AllBytes([f] + others) == WholeBytes(f) + AllBytes(others) && FieldsOf([f] + others, n, levels)
  {
    hide WholeBytes, Number32, Proper;
    assert ([f] + others)[1..] == others;
  }

  /** Every extension of a typed set is written as whole fields under its number, one field when it is packed. */
  lemma ExtensionIsFields(registry: Registry, info: ExtensionInfo, n: nat, e: Extension, room: nat, levels: nat)
    returns (fields: seq<Field>)
    requires 0 < n < TWO_29 && (e.Repeated? && e.packed ==> IsPrimitive(info.fieldType))
    requires TypedExtension(registry, info, e, room) && FreshExtension(e) && FitsExtension(e)
    ensures AllBytes(fields) == ExtensionBytes(n, e) && FieldsOf(fields, n, levels)
  {
    hide VarintBytes, ValueBytes, PackedBytes, FieldsBytes, TypedValue, FreshValue, FitsValue, Announced, PayloadBytes,
      AllBytes, FieldsOf, Proper, WholeBytes, TagOf, ValuesSize;
    fields := [];
    NoFieldsOf(n, levels);
    match e {
      case Singular(t, cleared, value) =>
        if !cleared {
          var p := ValueIsPayload(registry, info, value, n * 8 + WireTypeOf(t), room, levels);
          var f := TaggedField(n, WireTypeOf(t), p, levels);
          OneMoreOf(f, [], n, levels);
          fields := [f] + [];
          assert WholeBytes(f) + [] == WholeBytes(f);
        }
      case Repeated(t, packed, values, cached) =>
        if !packed {
          fields := FieldsAreFields(registry, info, n, values, room, levels);
        } else if cached != 0 {
          var f := PackedIsField(registry, info, n, e, room, levels);
          OneMoreOf(f, [], n, levels);
          fields := [f] + [];
          assert WholeBytes(f) + [] == WholeBytes(f);
        }
    }
  }

  lemma PackedIsField(registry: Registry, info: ExtensionInfo, n: nat, e: Extension, room: nat, levels: nat)
    returns (f: Field)
    requires 0 < n < TWO_29 && e.Repeated? && e.packed && IsPrimitive(info.fieldType)
    requires TypedExtension(registry, info, e, room) && FreshExtension(e) && FitsExtension(e)
    ensures Proper(f, levels) && Number32(f.key) / 8 == n
    ensures WholeBytes(f) == VarintBytes(TagOf(n, LENGTH_DELIMITED)) + VarintBytes(e.cachedSize % TWO_32)
      + PackedBytes(e.fieldType, e.values)
  {
    hide VarintBytes, PackedBytes, TypedValue, FreshValue, FitsValue, IsVarint, VarintNumber, Proper, WholeBytes, TagOf,
      ValuesSize, AllProper;
    PackedIsSized(registry, info, e, room);
    VarintMeans(e.cachedSize % TWO_32);
    var p := Counted(VarintBytes(e.cachedSize % TWO_32), PackedBytes(e.fieldType, e.values));
    assert Announced(n * 8 + LENGTH_DELIMITED, p, levels);
    f := TaggedField(n, LENGTH_DELIMITED, p, levels);
  }

  // ----- Sets are fields -----

  /** Whole fields, each under the number of an extension of the set. */
  ghost predicate FieldsIn(fields: seq<Field>, m: Message, levels: nat) {
    AllProper(fields, levels) && forall i | 0 <= i < |fields| :: Number32(fields[i].key) / 8 in m.extensions
  }

  /** In the order of their numbers, which start at `lo`. */
  ghost predicate InOrder(fields: seq<Field>, lo: int) {
    && (forall i | 0 <= i < |fields| :: lo <= Number32(fields[i].key) / 8)
    && forall i, j | 0 <= i < j < |fields| :: Number32(fields[i].key) / 8 <= Number32(fields[j].key) / 8
  }

  lemma {:induction false} RangeIsFields(registry: Registry, t: nat, m: Message, room: nat, levels: nat, lo: nat,
                                         hi: nat)
    returns (fields: seq<Field>)
    requires WellFormed(registry) && Typed(registry, t, m, room) && Numbered(m) && Fresh(m) && Fits(m)
    ensures AllBytes(fields) == RangeBytes(m, lo, hi) && FieldsIn(fields, m, levels) && InOrder(fields, lo)
    decreases hi - lo
  {
    hide AllBytes, FieldsIn, InOrder, ExtensionBytes, TypedExtension, FreshExtension, FitsExtension, FieldsOf;
    if lo >= hi {
      fields := [];
      NoFieldsIn(m, levels, lo);
    } else {
      fields := RangeIsFields(registry, t, m, room, levels, lo + 1, hi);
      if lo !in m.extensions {
        LaterInOrder(fields, lo);
      } else {
        PackedIsPrimitive(registry, t, m, room, lo);
        var first := ExtensionIsFields(registry, registry[(t, lo)], lo, m.extensions[lo], room, levels);
        MoreIn(first, fields, m, lo, levels);
        fields := first + fields;
      }
    }
  }

  lemma PackedIsPrimitive(registry: Registry, t: nat, m: Message, room: nat, n: int)
    requires WellFormed(registry) && Typed(registry, t, m, room) && n in m.extensions
    ensures (t, n) in registry
    ensures m.extensions[n].Repeated? && m.extensions[n].packed ==> IsPrimitive(registry[(t, n)].fieldType)
  {
    hide TypedValue;
  }

  lemma NoFieldsIn(m: Message, levels: nat, lo: int)
    ensures AllBytes([]) == [] && FieldsIn([], m, levels) && InOrder([], lo)
  {
  }

  lemma LaterInOrder(fields: seq<Field>, lo: int)
    requires InOrder(fields, lo + 1)
    ensures InOrder(fields, lo)
  {
  }

  lemma MoreIn(a: seq<Field>, b: seq<Field>, m: Message, n: nat, levels: nat)
    requires FieldsOf(a, n, levels) && n in m.extensions && FieldsIn(b, m, levels) && InOrder(b, n + 1)
    ensures AllBytes(a + b) == AllBytes(a) + AllBytes(b) && FieldsIn(a + b, m, levels) && InOrder(a + b, n)
  {
    hide Number32, AllBytes, Proper;
    BytesJoin(a, b);
    OrderJoins(a, b, n);
  }

  lemma OrderJoins(a: seq<Field>, b: seq<Field>, n: nat)
    requires forall i | 0 <= i < |a| :: Number32(a[i].key) / 8 == n
    requires InOrder(b, n + 1)
    ensures InOrder(a + b, n)
  {
    hide Number32;
    var all := a + b;
    forall i | 0 <= i < |all| ensures n <= Number32(all[i].key) / 8 && (i < |a| ==> Number32(all[i].key) / 8 == n) {
      if i < |a| { assert all[i] == a[i]; } else { assert all[i] == b[i - |a|]; }
    }
    forall i, j | 0 <= i < j < |all| ensures Number32(all[i].key) / 8 <= Number32(all[j].key) / 8 {
      if i >= |a| { assert all[i] == b[i - |a|] && all[j] == b[j - |a|]; }
    }
  }

  lemma {:induction false} BytesJoin(a: seq<Field>, b: seq<Field>)
    ensures AllBytes(a + b) == AllBytes(a) + AllBytes(b)
    decreases |a|
  {
    hide WholeBytes;
    if a == [] {
      assert a + b == b;
    } else {
      assert (a + b)[1..] == a[1..] + b;
      BytesJoin(a[1..], b);
    }
  }

  /** What serialization writes of any typed set is whole fields under the numbers of its extensions, in their order. */
  lemma SerializedIsFields(registry: Registry, t: nat, m: Message, room: nat, levels: nat) returns (fields: seq<Field>)
    requires WellFormed(registry) && Typed(registry, t, m, room) && Numbered(m) && Fits(m)
    ensures AllBytes(fields) == Serialized(m) && FieldsIn(fields, m, levels) && InOrder(fields, 1)
  {
    FilledStaysTyped(registry, t, m, room);
    FilledIsFresh(m);
    fields := RangeIsFields(registry, t, Filled(m), room, levels, FIRST_NUMBER, PAST_NUMBERS);
  }

  /** Parsed with a registry that knows none of its numbers, a serialized set leaves no trace, wherever it stands. */
  lemma UnknownSetIsSkipped(registry: Registry, t: nat, m: Message, room: nat, other: Registry, u: nat, s: Message,
                            before: seq<Field>, rest: bytes, levels: nat)
    requires WellFormed(registry) && Typed(registry, t, m, room) && Numbered(m) && Fits(m)
    requires WellFormed(other) && (forall n: nat | n in m.extensions :: (u, n) !in other)
    requires AllProper(before, levels)
    ensures Parsed(other, u, s, AllBytes(before) + Serialized(m) + rest, levels)
         == Parsed(other, u, s, AllBytes(before) + rest, levels)
  {
    hide Parsed, AllBytes, AllProper, Serialized, Typed, Fits, Number32;
    var fields := SerializedIsFields(registry, t, m, room, levels);
    UnknownAreSkipped(other, u, s, before, fields, rest, levels);
  }

  /** What is parsed before fields nobody knows, and after them, is merged as if they were not there. */
  lemma MergeAroundUnknown(registry: Registry, t: nat, a: Message, unknown: seq<Field>, b: Message, room: nat)
    requires WellFormed(registry) && AllProper(unknown, room) && AllUnknown(registry, t, unknown)
    requires Typed(registry, t, a, room) && Numbered(a) && Fits(a)
    requires Typed(registry, t, b, room) && Numbered(b) && Fits(b)
    ensures ParsedAlone(registry, t, Serialized(a) + AllBytes(unknown) + Serialized(b), room)
         == Some(Observed(Merge(a, b)))
  {
    hide Parsed, AllBytes, AllProper, AllUnknown, Serialized, Typed, Fits, Merge, Observed;
    var fields := SerializedIsFields(registry, t, a, room, room);
    InAreProper(fields, a, room);
    UnknownAreSkipped(registry, t, EMPTY, fields, unknown, Serialized(b), room);
    ConcatenationIsMerge(registry, t, a, b, room);
  }

  lemma InAreProper(fields: seq<Field>, m: Message, levels: nat)
    requires FieldsIn(fields, m, levels)
    ensures AllProper(fields, levels)
  {
  }
}
