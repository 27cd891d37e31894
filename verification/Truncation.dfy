/** Parsing bytes that stop too early: which prefixes of a serialized message are taken for a whole one. */
module Truncation {
  import opened OrderedMaps
  import opened Wire
  import opened Extensions
  import opened ExtensionCodec
  import opened ExtensionParsing

  // ----- Lengths that reach past the end -----

  /**
   * A message or packed field whose length is at least what is left is parsed exactly as if the length were what is
   * left; a string or bytes field is read only when it is all there.
   */
  lemma LengthBeyondEnd(registry: Registry, t: nat, m: Message, tag: nat, size: nat, body: bytes, room: nat)
    requires WellFormed(registry) && Expected(registry, t, tag) && tag % 8 == LENGTH_DELIMITED
    requires |body| <= size < TWO_32
    ensures var info := registry[(t, tag / 8)];
      var r := FieldParsed(registry, t, m, tag, VarintBytes(size) + body, room);
      if info.packed || info.fieldType == MESSAGE
      then r == FieldParsed(registry, t, m, tag, VarintBytes(|body|) + body, room)
      else r.Done? <==> size == |body| < TWO_31
  {
    hide VarintBytes, Varint32At, Parsed, PackedParsed, ValueParsed, AfterField, Stored, PrimitiveAt, IsTail;
    LengthThere(size, body);
    LengthThere(|body|, body);
    var info := registry[(t, tag / 8)];
    if info.packed {
      assert body[..Min(size, |body|)] == body && body[Min(size, |body|)..] == [];
    } else {
      ValueBeyondEnd(registry, info, MessageIn(Entry(m, tag / 8)), VarintBytes(size) + body,
                     VarintBytes(|body|) + body, size, body, room);
    }
  }

  /** `b` starts with a length that reaches past the end, `cut` with the length of what is there. */
  lemma ValueBeyondEnd(registry: Registry, info: ExtensionInfo, was: Message, b: bytes, cut: bytes, size: nat,
                       body: bytes, room: nat)
    requires WellFormed(registry) && !IsPrimitive(info.fieldType) && |body| <= size
    requires Varint32At(b) == Done(size, body) && Varint32At(cut) == Done(|body|, body)
    ensures var r := ValueParsed(registry, info, was, b, room);
      if info.fieldType == MESSAGE
      then r == ValueParsed(registry, info, was, cut, room)
      else r.Done? <==> size == |body| < TWO_31
  {
    hide Varint32At, Parsed, PrimitiveAt, IsTail;
    assert body[..Min(size, |body|)] == body && body[Min(size, |body|)..] == [];
  }

  // ----- Where the bytes of a message may stop -----

  /** After `k` bytes of the value: numbers and strings must be whole, a message may stop where its fields may. */
  predicate StopsInValue(t: FieldType, v: Value, k: nat)
    decreases v, 0
  {
    match v
    case Msg(m) =>
      var length := |VarintBytes(m.cachedSize % TWO_32)|;
      k >= length && StopsInRange(m, FIRST_NUMBER, PAST_NUMBERS, k - length)
    case _ => k == |ValueBytes(t, v)|
  }

  function TagLength(n: int, wireType: nat): nat
    requires wireType < 8
  {
    |VarintBytes(TagOf(n, wireType))|
  }

  predicate StopsInField(n: int, t: FieldType, v: Value, k: nat)
    decreases v, 1
  {
    k == 0 || (k >= TagLength(n, WireTypeOf(t)) && StopsInValue(t, v, k - TagLength(n, WireTypeOf(t))))
  }

  predicate StopsInFields(n: int, t: FieldType, values: seq<Value>, k: nat)
    decreases values
  {
    if values == [] then k == 0
    else
      var size := TagLength(n, WireTypeOf(t)) + |ValueBytes(t, values[0])|;
      if k < size then StopsInField(n, t, values[0], k) else StopsInFields(n, t, values[1..], k - size)
  }

  /** The elements of a packed field may stop after any of them. */
  predicate StopsInPacked(t: FieldType, values: seq<Value>, k: nat)
    decreases values
  {
    || k == 0
    || (&& values != [] && k >= |ValueBytes(t, values[0])|
        && StopsInPacked(t, values[1..], k - |ValueBytes(t, values[0])|))
  }

  predicate StopsInExtension(n: int, e: Extension, k: nat)
    decreases e
  {
    match e
    case Singular(t, cleared, value) => if cleared then k == 0 else StopsInField(n, t, value, k)
    case Repeated(t, packed, values, cached) =>
      if !packed then StopsInFields(n, t, values, k)
      else
        var start := TagLength(n, LENGTH_DELIMITED) + |VarintBytes(cached % TWO_32)|;
        k == 0 || (cached != 0 && k >= start && StopsInPacked(t, values, k - start))
  }

  /** Between the extensions numbered from `lo` up to `hi`, or where one of them may stop. */
  predicate StopsInRange(m: Message, lo: int, hi: int, k: nat)
    decreases m, hi - lo
  {
    if lo >= hi then k == 0
    else if lo in m.extensions && k < |ExtensionBytes(lo, m.extensions[lo])|
      then StopsInExtension(lo, m.extensions[lo], k)
    else if lo in m.extensions then StopsInRange(m, lo + 1, hi, k - |ExtensionBytes(lo, m.extensions[lo])|)
    else StopsInRange(m, lo + 1, hi, k)
  }

  predicate Stops(m: Message, k: nat) {
    StopsInRange(m, FIRST_NUMBER, PAST_NUMBERS, k)
  }

  // ----- What is cut short cannot be read -----

  lemma {:induction false} VarintCut(n: nat, k: nat, count: nat)
    requires k < |VarintBytes(n)|
    ensures VarintFrom(VarintBytes(n)[..k], count) == Failed
    decreases k
  {
    if k > 0 && count < MAX_VARINT_BYTES {
      VarintCut(n / 128, k - 1, count + 1);
      assert VarintBytes(n)[..k] == [n % 128 + 128] + VarintBytes(n / 128)[..k - 1];
      assert VarintBytes(n)[..k][1..] == VarintBytes(n / 128)[..k - 1];
    }
  }

  lemma PrimitiveCut(t: FieldType, v: int, k: nat)
    requires IsPrimitive(t) && InRange(t, v) && k < |PrimitiveBytes(t, v)|
    ensures PrimitiveAt(t, PrimitiveBytes(t, v)[..k]) == Failed
  {
    hide VarintBytes, VarintFrom, FixedBytes, FixedValue;
    match t
    case INT32 => VarintCut(ToUnsigned(v, TWO_63), k, 0);
    case ENUM => VarintCut(ToUnsigned(v, TWO_63), k, 0);
    case INT64 => VarintCut(ToUnsigned(v, TWO_63), k, 0);
    case UINT32 => VarintCut(v, k, 0);
    case UINT64 => VarintCut(v, k, 0);
    case SINT32 => VarintCut(ZigZagEncode(v), k, 0);
    case SINT64 => VarintCut(ZigZagEncode(v), k, 0);
    case BOOL => VarintCut(v, k, 0);
    case _ =>
  }

  lemma TagCut(n: int, wireType: nat, k: nat)
    requires wireType < 8 && 0 < k < TagLength(n, wireType)
    ensures TagAt(VarintBytes(TagOf(n, wireType))[..k]) == Broken
  {
    hide VarintBytes, VarintFrom;
    VarintCut(TagOf(n, wireType), k, 0);
  }

  lemma PlainValueCut(registry: Registry, info: ExtensionInfo, was: Message, v: Value, k: nat, room: nat)
    requires WellFormed(registry) && TypedValue(registry, info, v, room) && FitsValue(v) && !v.Msg?
    requires k < |ValueBytes(info.fieldType, v)|
    ensures ValueParsed(registry, info, was, ValueBytes(info.fieldType, v)[..k], room) == Failed
  {
    hide VarintBytes, VarintFrom, PrimitiveBytes, PrimitiveAt, Parsed;
    match v
    case Num(n) => PrimitiveCut(info.fieldType, n, k);
    case Str(s) => StringCut(s, k);
  }

  lemma StringCut(s: bytes, k: nat)
    requires |s| < TWO_31 && k < |VarintBytes(|s|)| + |s|
    ensures var b := (VarintBytes(|s|) + s)[..k];
      Varint32At(b).Done? ==> Varint32At(b).value > |Varint32At(b).rest|
  {
    hide VarintBytes, VarintFrom;
    var length := |VarintBytes(|s|)|;
    if k < length {
      VarintCut(|s|, k, 0);
      assert (VarintBytes(|s|) + s)[..k] == VarintBytes(|s|)[..k];
    } else {
      VarintRoundTrip(|s|, s[..k - length]);
      assert (VarintBytes(|s|) + s)[..k] == VarintBytes(|s|) + s[..k - length];
    }
  }

  /** A message that is cut short after its length is parsed within what there is of it. */
  lemma MessageValueCut(registry: Registry, info: ExtensionInfo, was: Message, m: Message, k: nat, room: nat)
    requires WellFormed(registry) && info.fieldType == MESSAGE && room > 0 && Size(m) < TWO_31
    requires m.cachedSize == Size(m) == |Bytes(m)| && k <= |ValueBytes(MESSAGE, Msg(m))|
    ensures var length, start := |VarintBytes(Size(m))|, if info.repeated then EMPTY else was;
      ValueParsed(registry, info, was, ValueBytes(MESSAGE, Msg(m))[..k], room) ==
        if k < length then Failed
        else
          match Parsed(registry, info.messageType, start, Bytes(m)[..k - length], room - 1)
          case None => Failed
          case Some(inner) => Done(Msg(inner), [])
  {
    hide VarintBytes, VarintFrom, RangeBytes, RangeSize, Bytes, Size, Parsed, Varint32At, IsTail;
    var size, body := Size(m), Bytes(m);
    var length := |VarintBytes(size)|;
    assert ValueBytes(MESSAGE, Msg(m)) == VarintBytes(size) + body;
    if k < length {
      NoLengthThere(size, body, k);
    } else {
      var cut := body[..k - length];
      assert (VarintBytes(size) + body)[..k] == VarintBytes(size) + cut;
      LengthThere(size, cut);
      assert cut[..Min(size, |cut|)] == cut && cut[Min(size, |cut|)..] == [];
    }
  }

  lemma NoLengthThere(size: nat, body: bytes, k: nat)
    requires k < |VarintBytes(size)|
    ensures Varint32At((VarintBytes(size) + body)[..k]) == Failed
  {
    hide VarintBytes, VarintFrom;
    VarintCut(size, k, 0);
    assert (VarintBytes(size) + body)[..k] == VarintBytes(size)[..k];
  }

  // ----- Fields that are cut short -----

  /** A tag, and then what there is of the value. */
  lemma FieldCutParsed(registry: Registry, t: nat, s: Message, n: int, b: bytes, room: nat)
    requires WellFormed(registry) && 0 < n < TWO_29 && (t, n) in registry && !registry[(t, n)].packed
    ensures var info := registry[(t, n)];
      Parsed(registry, t, s, VarintBytes(TagOf(n, WireTypeOf(info.fieldType))) + b, room)
      == match ValueParsed(registry, info, MessageIn(Entry(s, n)), b, room)
         case Failed => None
         case Done(v, rest) => Parsed(registry, t, Stored(s, n, info, v), rest, room)
  {
    hide *;
    var w := WireTypeOf(registry[(t, n)].fieldType);
    TagOfIsTag(n, w);
    TagRoundTrip(n, w, b);
    RegisteredField(registry, t, s, n, b, room);
    ParsedField(registry, t, s, TagBytes(n, w) + b, n * 8 + w, b, room);
  }

  lemma TagOfIsTag(n: int, wireType: nat)
    requires 0 < n < TWO_29 && wireType in {VARINT, FIXED_64, LENGTH_DELIMITED, FIXED_32}
    ensures VarintBytes(TagOf(n, wireType)) == TagBytes(n, wireType)
    ensures wireType < 8 && (n * 8 + wireType) % 8 != END_GROUP
  {
    hide VarintBytes;
  }

  lemma ParsedField(registry: Registry, t: nat, s: Message, b: bytes, tag: nat, rest: bytes, room: nat)
    requires WellFormed(registry) && TagAt(b) == Next(tag, rest) && tag % 8 != END_GROUP
    ensures Parsed(registry, t, s, b, room)
         == match FieldParsed(registry, t, s, tag, rest, room)
            case Failed => None
            case Done(s', rest') => Parsed(registry, t, s', rest', room)
  {
    hide TagAt, FieldParsed;
  }

  lemma TagCutParsed(registry: Registry, t: nat, s: Message, n: int, wireType: nat, value: bytes, k: nat, room: nat)
    requires WellFormed(registry) && wireType < 8 && k < TagLength(n, wireType)
    ensures Parsed(registry, t, s, (VarintBytes(TagOf(n, wireType)) + value)[..k], room)
         == if k == 0 then Some(s) else None
  {
    hide VarintBytes, VarintFrom, TagAt, FieldParsed, AfterField;
    assert (VarintBytes(TagOf(n, wireType)) + value)[..k] == VarintBytes(TagOf(n, wireType))[..k];
    if k > 0 { TagCut(n, wireType, k); }
  }

  lemma {:induction false} FieldCut(registry: Registry, t: nat, s: Message, n: int, v: Value, k: nat, room: nat)
    requires WellFormed(registry) && 0 < n < TWO_29 && (t, n) in registry && !registry[(t, n)].packed
    requires TypedValue(registry, registry[(t, n)], v, room) && FreshValue(v) && FitsValue(v)
    requires var info := registry[(t, n)];
      k < TagLength(n, WireTypeOf(info.fieldType)) + |ValueBytes(info.fieldType, v)|
    ensures var info := registry[(t, n)];
      var b := VarintBytes(TagOf(n, WireTypeOf(info.fieldType))) + ValueBytes(info.fieldType, v);
      Parsed(registry, t, s, b[..k], room).Some? <==> StopsInField(n, info.fieldType, v, k)
    decreases v, 2
  {
    hide VarintBytes, ValueBytes, Parsed, ValueParsed, Stored, TypedValue, FreshValue, FitsValue, WireTypeOf,
      StopsInValue;
    var info := registry[(t, n)];
    var length, value := TagLength(n, WireTypeOf(info.fieldType)), ValueBytes(info.fieldType, v);
    if k < length {
      TagCutParsed(registry, t, s, n, WireTypeOf(info.fieldType), value, k, room);
    } else {
      var was, j := MessageIn(Entry(s, n)), k - length;
      assert (VarintBytes(TagOf(n, WireTypeOf(info.fieldType))) + value)[..k]
          == VarintBytes(TagOf(n, WireTypeOf(info.fieldType))) + value[..j];
      FieldCutParsed(registry, t, s, n, value[..j], room);
      ValueCut(registry, info, was, v, j, room);
      var r := ValueParsed(registry, info, was, value[..j], room);
      if r.Done? { AtTheEnd(registry, t, Stored(s, n, info, r.value), room); }
    }
  }

  /** What there is of a value is read, to its end, exactly when it may stop there. */
  lemma {:induction false} ValueCut(registry: Registry, info: ExtensionInfo, was: Message, v: Value, k: nat, room: nat)
    requires WellFormed(registry) && TypedValue(registry, info, v, room) && FreshValue(v) && FitsValue(v)
    requires k < |ValueBytes(info.fieldType, v)|
    ensures var r := ValueParsed(registry, info, was, ValueBytes(info.fieldType, v)[..k], room);
      (r.Done? <==> StopsInValue(info.fieldType, v, k)) && (r.Done? ==> r.rest == [])
    decreases v, 1
  {
    hide ValueParsed, ValueBytes, VarintBytes;
    if v.Msg? {
      NestedMessage(registry, info, v.m, room);
      hide FreshValue, FitsValue, TypedValue, ValueBytes, ValueParsed, StopsInValue;
      MessageFieldCut(registry, info, was, v.m, k, room);
    } else {
      PlainValueCut(registry, info, was, v, k, room);
    }
  }

  lemma NestedMessage(registry: Registry, info: ExtensionInfo, m: Message, room: nat)
    requires TypedValue(registry, info, Msg(m), room) && FreshValue(Msg(m)) && FitsValue(Msg(m))
    ensures info.fieldType == MESSAGE && room > 0 && Typed(registry, info.messageType, m, room - 1) && Numbered(m)
    ensures Fresh(m) && Fits(m) && m.cachedSize == Size(m) < TWO_31
  {
    hide Size;
  }

  lemma {:induction false} MessageFieldCut(registry: Registry, info: ExtensionInfo, was: Message, m: Message, k: nat,
                                           room: nat)
    requires WellFormed(registry) && info.fieldType == MESSAGE && room > 0
    requires Typed(registry, info.messageType, m, room - 1) && Numbered(m) && Fresh(m) && Fits(m)
    requires m.cachedSize == Size(m) < TWO_31 && k < |ValueBytes(MESSAGE, Msg(m))|
    ensures var r := ValueParsed(registry, info, was, ValueBytes(MESSAGE, Msg(m))[..k], room);
      (r.Done? <==> StopsInValue(MESSAGE, Msg(m), k)) && (r.Done? ==> r.rest == [])
    decreases m, 2
  {
    hide VarintBytes, RangeBytes, RangeSize, Parsed, ValueParsed, StopsInRange, Typed, Fresh, Fits, Numbered;
    BytesMatchSize(registry, info.messageType, m, room - 1, FIRST_NUMBER, PAST_NUMBERS);
    MessageValueCut(registry, info, was, m, k, room);
    var length := |VarintBytes(Size(m))|;
    if k >= length {
      MessageCut(registry, info.messageType, if info.repeated then EMPTY else was, m, k - length, room - 1);
    }
  }

  /**
   * The first `k` bytes of a message are parsed, into whatever message, exactly when they stop between two fields, or
   * in a message or packed field between two of its fields or elements, and so on inwards.
   */
  lemma {:induction false} MessageCut(registry: Registry, t: nat, s: Message, m: Message, k: nat, room: nat)
    requires WellFormed(registry) && Typed(registry, t, m, room) && Numbered(m) && Fresh(m) && Fits(m)
    requires k <= |Bytes(m)|
    ensures Parsed(registry, t, s, Bytes(m)[..k], room).Some? <==> Stops(m, k)
    decreases m, 1
  {
    RangeCut(registry, t, s, m, k, room, FIRST_NUMBER, PAST_NUMBERS);
  }

  lemma {:induction false} RangeCut(registry: Registry, t: nat, s: Message, m: Message, k: nat, room: nat, lo: int,
                                    hi: int)
    requires WellFormed(registry) && Typed(registry, t, m, room) && Numbered(m) && Fresh(m) && Fits(m)
    requires k <= |RangeBytes(m, lo, hi)|
    ensures Parsed(registry, t, s, RangeBytes(m, lo, hi)[..k], room).Some? <==> StopsInRange(m, lo, hi, k)
    decreases m, 0, hi - lo
  {
    hide Reads, Parsed, ExtensionBytes, MergeOne, TypedExtension, StopsInExtension;
    if lo >= hi {
      AtTheEnd(registry, t, s, room);
    } else if lo in m.extensions {
      var e := m.extensions[lo];
      var first, tail := ExtensionBytes(lo, e), RangeBytes(m, lo + 1, hi);
      if k < |first| {
        assert (first + tail)[..k] == first[..k];
        ExtensionCut(registry, t, s, lo, e, k, room);
      } else {
        var cut := tail[..k - |first|];
        assert (first + tail)[..k] == first + cut;
        ExtensionReadBack(registry, t, s, lo, e, cut, room);
        ParsedThroughReads(registry, t, s, first + cut, MergeOne(s, lo, e), cut, room);
        RangeCut(registry, t, MergeOne(s, lo, e), m, k - |first|, room, lo + 1, hi);
      }
    } else {
      assert RangeBytes(m, lo, hi) == RangeBytes(m, lo + 1, hi);
      RangeCut(registry, t, s, m, k, room, lo + 1, hi);
    }
  }

  lemma {:induction false} ExtensionCut(registry: Registry, t: nat, s: Message, n: int, e: Extension, k: nat, room: nat)
    requires WellFormed(registry) && 0 < n < TWO_29 && (t, n) in registry
    requires TypedExtension(registry, registry[(t, n)], e, room) && FreshExtension(e) && FitsExtension(e)
    requires k < |ExtensionBytes(n, e)|
    ensures Parsed(registry, t, s, ExtensionBytes(n, e)[..k], room).Some? <==> StopsInExtension(n, e, k)
    decreases e
  {
    hide Parsed, VarintBytes, ValueBytes, PackedBytes, FieldsBytes, TypedValue, FreshValue, FitsValue, ValuesSize,
      StopsInField, StopsInFields, StopsInPacked;
    match e
    case Singular(_, _, value) => FieldCut(registry, t, s, n, value, k, room);
    case Repeated(_, packed, values, _) =>
      if packed {
        PackedCut(registry, t, s, n, e, k, room);
      } else {
        FieldsCut(registry, t, s, n, values, k, room);
      }
  }

  lemma {:induction false} FieldsCut(registry: Registry, t: nat, s: Message, n: int, values: seq<Value>, k: nat,
                                     room: nat)
    requires WellFormed(registry) && 0 < n < TWO_29 && (t, n) in registry && !registry[(t, n)].packed
    requires forall i | 0 <= i < |values| :: TypedValue(registry, registry[(t, n)], values[i], room)
    requires forall i | 0 <= i < |values| :: FreshValue(values[i]) && FitsValue(values[i])
    requires k <= |FieldsBytes(n, registry[(t, n)].fieldType, values)|
    ensures var info := registry[(t, n)];
      Parsed(registry, t, s, FieldsBytes(n, info.fieldType, values)[..k], room).Some?
      <==> StopsInFields(n, info.fieldType, values, k)
    decreases values
  {
    hide Parsed, Reads, VarintBytes, ValueBytes, TypedValue, FreshValue, FitsValue, Stored, ReadBack, StopsInField,
      WireTypeOf;
    var info := registry[(t, n)];
    if values == [] {
      AtTheEnd(registry, t, s, room);
    } else {
      var first := VarintBytes(TagOf(n, WireTypeOf(info.fieldType))) + ValueBytes(info.fieldType, values[0]);
      var tail := FieldsBytes(n, info.fieldType, values[1..]);
      if k < |first| {
        assert (first + tail)[..k] == first[..k];
        FieldCut(registry, t, s, n, values[0], k, room);
      } else {
        var cut, next := tail[..k - |first|], Stored(s, n, info, ReadBack(info, MessageIn(Entry(s, n)), values[0]));
        assert (first + tail)[..k] == first + cut;
        FieldReadBack(registry, t, s, n, values[0], cut, room);
        ParsedThroughReads(registry, t, s, first + cut, next, cut, room);
        FieldsCut(registry, t, next, n, values[1..], k - |first|, room);
      }
    }
  }

  lemma PackedCut(registry: Registry, t: nat, s: Message, n: int, e: Extension, k: nat, room: nat)
    requires WellFormed(registry) && 0 < n < TWO_29 && (t, n) in registry
    requires TypedExtension(registry, registry[(t, n)], e, room) && FreshExtension(e) && FitsExtension(e)
    requires e.Repeated? && e.packed && k < |ExtensionBytes(n, e)|
    ensures Parsed(registry, t, s, ExtensionBytes(n, e)[..k], room).Some? <==> StopsInExtension(n, e, k)
  {
    hide Parsed, VarintBytes, PackedBytes, TypedValue, FreshValue, FitsValue, ValuesSize, StopsInPacked, FieldParsed,
      WellFormed;
    var value := VarintBytes(e.cachedSize % TWO_32) + PackedBytes(e.fieldType, e.values);
    var tag := VarintBytes(TagOf(n, LENGTH_DELIMITED));
    var length := |tag|;
    PackedExtension(n, e, k);
    hide ExtensionBytes, StopsInExtension, TypedExtension, FreshExtension, FitsExtension;
    if k < length {
      TagCutParsed(registry, t, s, n, LENGTH_DELIMITED, value, k, room);
    } else {
      var cut := value[..k - length];
      assert (tag + value)[..k] == tag + cut;
      PackedTagParsed(registry, t, s, n, cut, room);
      PackedValueCut(registry, t, s, n, e, k - length, room);
      var r := FieldParsed(registry, t, s, n * 8 + LENGTH_DELIMITED, cut, room);
      if r.Done? { AtTheEnd(registry, t, r.value, room); }
    }
  }

  lemma PackedTagParsed(registry: Registry, t: nat, s: Message, n: int, b: bytes, room: nat)
    requires WellFormed(registry) && 0 < n < TWO_29
    ensures Parsed(registry, t, s, VarintBytes(TagOf(n, LENGTH_DELIMITED)) + b, room)
         == match FieldParsed(registry, t, s, n * 8 + LENGTH_DELIMITED, b, room)
            case Failed => None
            case Done(s', rest) => Parsed(registry, t, s', rest, room)
  {
    hide VarintBytes, TagAt, FieldParsed, Parsed;
    TagRoundTrip(n, LENGTH_DELIMITED, b);
    ParsedField(registry, t, s, TagBytes(n, LENGTH_DELIMITED) + b, n * 8 + LENGTH_DELIMITED, b, room);
  }

  lemma PackedExtension(n: int, e: Extension, k: nat)
    requires e.Repeated? && e.packed && k < |ExtensionBytes(n, e)|
    ensures e.cachedSize > 0
    ensures ExtensionBytes(n, e)
         == VarintBytes(TagOf(n, LENGTH_DELIMITED))
           + (VarintBytes(e.cachedSize % TWO_32) + PackedBytes(e.fieldType, e.values))
    ensures var start := TagLength(n, LENGTH_DELIMITED) + |VarintBytes(e.cachedSize % TWO_32)|;
      StopsInExtension(n, e, k) <==> k == 0 || (k >= start && StopsInPacked(e.fieldType, e.values, k - start))
  {
    hide VarintBytes, PackedBytes, StopsInPacked;
  }

  lemma PackedValueCut(registry: Registry, t: nat, s: Message, n: int, e: Extension, k: nat, room: nat)
    requires WellFormed(registry) && 0 < n < TWO_29 && (t, n) in registry && registry[(t, n)].packed
    requires TypedExtension(registry, registry[(t, n)], e, room) && FreshExtension(e) && FitsExtension(e)
    requires e.Repeated? && e.packed && e.cachedSize > 0
    requires k < |VarintBytes(e.cachedSize % TWO_32)| + |PackedBytes(e.fieldType, e.values)|
    ensures var value := VarintBytes(e.cachedSize % TWO_32) + PackedBytes(e.fieldType, e.values);
      var r := FieldParsed(registry, t, s, n * 8 + LENGTH_DELIMITED, value[..k], room);
      var length := |VarintBytes(e.cachedSize % TWO_32)|;
      (r.Done? <==> k >= length && StopsInPacked(e.fieldType, e.values, k - length)) && (r.Done? ==> r.rest == [])
  {
    hide TypedExtension, FreshExtension, FitsExtension, FieldParsed, PackedParsed, VarintBytes, Varint32At, PackedBytes,
      TypedValue, ValuesSize, StopsInPacked;
    var info, size := registry[(t, n)], e.cachedSize % TWO_32;
    var length, body := |VarintBytes(size)|, PackedBytes(e.fieldType, e.values);
    PackedIsSized(registry, info, e, room);
    RegisteredPackedField(registry, t, s, n, (VarintBytes(size) + body)[..k], room);
    if k < length {
      NoLengthThere(size, body, k);
    } else {
      var cut := body[..k - length];
      assert (VarintBytes(size) + body)[..k] == VarintBytes(size) + cut;
      LengthThere(size, cut);
      assert cut[..Min(size, |cut|)] == cut && cut[Min(size, |cut|)..] == [];
      ElementsCut(registry, info, s, n, e.values, k - length, room);
    }
  }

  lemma {:induction false} ElementsCut(registry: Registry, info: ExtensionInfo, s: Message, n: int, values: seq<Value>,
                                       k: nat, room: nat)
    requires IsPrimitive(info.fieldType) && forall i | 0 <= i < |values| :: TypedValue(registry, info, values[i], room)
    requires k <= |PackedBytes(info.fieldType, values)|
    ensures PackedParsed(s, n, info, PackedBytes(info.fieldType, values)[..k]).Some?
       <==> StopsInPacked(info.fieldType, values, k)
    decreases |values|
  {
    hide PrimitiveAt, PrimitiveBytes, Stored, InRange;
    if values != [] && k > 0 {
      assert TypedValue(registry, info, values[0], room);
      var v := values[0].n;
      var first, tail := PrimitiveBytes(info.fieldType, v), PackedBytes(info.fieldType, values[1..]);
      if k < |first| {
        assert (first + tail)[..k] == first[..k];
        PrimitiveCut(info.fieldType, v, k);
      } else {
        var cut := tail[..k - |first|];
        assert (first + tail)[..k] == first + cut;
        PrimitiveRoundTrip(info.fieldType, v, cut);
        ElementsCut(registry, info, Stored(s, n, info, Num(v)), n, values[1..], k - |first|, room);
      }
    }
  }

  /** What is left of a serialized message after its end was cut off. */
  lemma SerializedCut(registry: Registry, t: nat, s: Message, m: Message, k: nat, room: nat)
    requires WellFormed(registry) && Typed(registry, t, m, room) && Numbered(m) && Fits(m)
    requires k <= |Serialized(m)|
    ensures Parsed(registry, t, s, Serialized(m)[..k], room).Some? <==> Stops(Filled(m), k)
  {
    FilledStaysTyped(registry, t, m, room);
    FilledIsFresh(m);
    MessageCut(registry, t, s, Filled(m), k, room);
  }
}
