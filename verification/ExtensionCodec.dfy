/** Sizes, serialized bytes and parsing of extensions, and the theorem that concatenation is merging. */
module ExtensionCodec {
  import opened OrderedMaps
  import opened Wire
  import opened Extensions

  /** Field numbers are positive `int`s. */
  const FIRST_NUMBER := 1
  const PAST_NUMBERS := TWO_31

  // ----- ByteSize -----

  /** What `ByteSize` adds up over the extensions numbered from `lo` up to `hi`. */
  function RangeSize(m: Message, lo: int, hi: int): nat
    decreases m, hi - lo
  {
    if lo >= hi then 0
    else (if lo in m.extensions then ExtensionSize(lo, m.extensions[lo]) else 0) + RangeSize(m, lo + 1, hi)
  }

  function Size(m: Message): nat
    decreases m, PAST_NUMBERS
  {
    RangeSize(m, FIRST_NUMBER, PAST_NUMBERS)
  }

  function ExtensionSize(n: int, e: Extension): nat
    decreases e
  {
    match e
    case Singular(t, cleared, value) => if cleared then 0 else TagSizeOf(n) + ValueSize(t, value)
    case Repeated(t, packed, values, _) =>
      var data := ValuesSize(t, values);
      if !packed then TagSizeOf(n) * |values| + data
      else if data > 0 then data + VarintSize32(data % TWO_32) + VarintSize32(TagOf(n, LENGTH_DELIMITED))
      else 0
  }

  /** The field number as the unsigned 32-bit number it becomes in a tag. */
  function TagOf(n: int, wireType: nat): nat
    requires wireType < 8
  {
    MakeTag(n % TWO_32, wireType)
  }

  function TagSizeOf(n: int): nat {
    TagSize(n % TWO_32)
  }

  function ValuesSize(t: FieldType, values: seq<Value>): nat
    decreases values
  {
    if values == [] then 0 else ValueSize(t, values[0]) + ValuesSize(t, values[1..])
  }

  function ValueSize(t: FieldType, v: Value): nat
    decreases v
  {
    match v
    case Num(n) => if IsPrimitive(t) && InRange(t, n) then PrimitiveSize(t, n) else 0
    case Str(s) => VarintSize32(|s| % TWO_32) + |s|
    case Msg(m) => var size := Size(m); VarintSize32(size % TWO_32) + size
  }

  /** What `ByteSize` leaves behind: the sizes it computed, where serialization will look for them. */
  function Filled(m: Message): Message
    decreases m
  {
    Message(map n | n in m.extensions :: FilledExtension(m.extensions[n]), m.cachedSize)
  }

  function FilledExtension(e: Extension): Extension
    decreases e
  {
    match e
    case Singular(t, cleared, value) => if cleared then e else Singular(t, cleared, FilledValue(value))
    case Repeated(t, packed, values, cached) =>
      Repeated(t, packed, seq(|values|, i requires 0 <= i < |values| => FilledValue(values[i])),
               if packed then ValuesSize(t, values) else cached)
  }

  function FilledValue(v: Value): Value
    decreases v
  {
    match v
    case Msg(m) => Msg(Filled(m).(cachedSize := Size(m)))
    case _ => v
  }

  // ----- SerializeWithCachedSizes -----

  /** The bytes of the extensions numbered from `lo` up to `hi`, in that order, with the remembered sizes. */
  function RangeBytes(m: Message, lo: int, hi: int): bytes
    decreases m, hi - lo
  {
    if lo >= hi then []
    else (if lo in m.extensions then ExtensionBytes(lo, m.extensions[lo]) else []) + RangeBytes(m, lo + 1, hi)
  }

  function Bytes(m: Message): bytes
    decreases m, PAST_NUMBERS
  {
    RangeBytes(m, FIRST_NUMBER, PAST_NUMBERS)
  }

  function ExtensionBytes(n: int, e: Extension): bytes
    decreases e
  {
    match e
    case Singular(t, cleared, value) =>
      if cleared then [] else VarintBytes(TagOf(n, WireTypeOf(t))) + ValueBytes(t, value)
    case Repeated(t, packed, values, cached) =>
      if !packed then FieldsBytes(n, t, values)
      else if cached == 0 then []
      else VarintBytes(TagOf(n, LENGTH_DELIMITED)) + VarintBytes(cached % TWO_32) + PackedBytes(t, values)
  }

  function FieldsBytes(n: int, t: FieldType, values: seq<Value>): bytes
    decreases values
  {
    if values == [] then []
    else VarintBytes(TagOf(n, WireTypeOf(t))) + ValueBytes(t, values[0]) + FieldsBytes(n, t, values[1..])
  }

  function PackedBytes(t: FieldType, values: seq<Value>): bytes
    decreases values
  {
    if values == [] then [] else ValueBytes(t, values[0]) + PackedBytes(t, values[1..])
  }

  function ValueBytes(t: FieldType, v: Value): bytes
    decreases v
  {
    match v
    case Num(n) => if IsPrimitive(t) && InRange(t, n) then PrimitiveBytes(t, n) else []
    case Str(s) => VarintBytes(|s| % TWO_32) + s
    case Msg(m) => VarintBytes(m.cachedSize % TWO_32) + Bytes(m)
  }

  // ----- Sizes agree with bytes -----

  /** Every remembered size below is the size there is. */
  ghost predicate Fresh(m: Message)
    decreases m
  {
    forall n | n in m.extensions :: FreshExtension(m.extensions[n])
  }

  ghost predicate FreshExtension(e: Extension)
    decreases e
  {
    match e
    case Singular(t, cleared, value) => !cleared ==> FreshValue(value)
    case Repeated(t, packed, values, cached) =>
      && (packed ==> cached == ValuesSize(t, values))
      && forall i | 0 <= i < |values| :: FreshValue(values[i])
  }

  ghost predicate FreshValue(v: Value)
    decreases v
  {
    v.Msg? ==> Fresh(v.m) && v.m.cachedSize == Size(v.m)
  }

  /** Every length that is written fits the `int` it is kept in. */
  ghost predicate Fits(m: Message)
    decreases m
  {
    forall n | n in m.extensions :: FitsExtension(m.extensions[n])
  }

  ghost predicate FitsExtension(e: Extension)
    decreases e
  {
    match e
    case Singular(t, cleared, value) => !cleared ==> FitsValue(value)
    case Repeated(t, packed, values, _) =>
      && (packed ==> ValuesSize(t, values) < TWO_31)
      && forall i | 0 <= i < |values| :: FitsValue(values[i])
  }

  ghost predicate FitsValue(v: Value)
    decreases v
  {
    match v
    case Num(_) => true
    case Str(s) => |s| < TWO_31
    case Msg(m) => Size(m) < TWO_31 && Fits(m)
  }

  /** `ByteSize` leaves every size fresh, changes no size, and shows nothing. */
  lemma {:induction false} FilledIsFresh(m: Message)
    ensures Fresh(Filled(m)) && Size(Filled(m)) == Size(m) && Observed(Filled(m)) == Observed(m)
    decreases m, 1
  {
    forall n | n in m.extensions
      ensures FreshExtension(FilledExtension(m.extensions[n]))
      ensures ObservedExtension(FilledExtension(m.extensions[n])) == ObservedExtension(m.extensions[n])
      ensures Dead(FilledExtension(m.extensions[n])) <==> Dead(m.extensions[n])
    {
      FilledExtensionIsFresh(n, m.extensions[n]);
    }
    assert Observed(Filled(m)).extensions == Observed(m).extensions;
    FilledRange(m, FIRST_NUMBER, PAST_NUMBERS);
  }

  lemma {:induction false} FilledRange(m: Message, lo: int, hi: int)
    ensures RangeSize(Filled(m), lo, hi) == RangeSize(m, lo, hi)
    decreases m, 0, hi - lo
  {
    if lo < hi {
      FilledRange(m, lo + 1, hi);
      if lo in m.extensions { FilledExtensionIsFresh(lo, m.extensions[lo]); }
    }
  }

  lemma {:induction false} FilledExtensionIsFresh(n: int, e: Extension)
    ensures FreshExtension(FilledExtension(e)) && ExtensionSize(n, FilledExtension(e)) == ExtensionSize(n, e)
    ensures ObservedExtension(FilledExtension(e)) == ObservedExtension(e) && (Dead(FilledExtension(e)) <==> Dead(e))
    decreases e
  {
    match e
    case Singular(t, cleared, value) => if !cleared { FilledValueIsFresh(t, value); }
    case Repeated(t, packed, values, _) =>
      forall i | 0 <= i < |values|
        ensures FreshValue(FilledValue(values[i]))
        ensures ObservedValue(FilledValue(values[i])) == ObservedValue(values[i])
      {
        FilledValueIsFresh(t, values[i]);
      }
      var filled := FilledExtension(e).values;
      FilledValuesSize(t, values, filled);
      assert FreshExtension(FilledExtension(e));
  }

  lemma {:induction false} FilledValuesSize(t: FieldType, values: seq<Value>, filled: seq<Value>)
    requires |filled| == |values| && forall i | 0 <= i < |values| :: filled[i] == FilledValue(values[i])
    ensures ValuesSize(t, filled) == ValuesSize(t, values)
    decreases values
  {
    if values != [] {
      FilledValueIsFresh(t, values[0]);
      FilledValuesSize(t, values[1..], filled[1..]);
    }
  }

  lemma {:induction false} FilledValueIsFresh(t: FieldType, v: Value)
    ensures FreshValue(FilledValue(v)) && ValueSize(t, FilledValue(v)) == ValueSize(t, v)
    ensures ObservedValue(FilledValue(v)) == ObservedValue(v)
    decreases v
  {
    match v
    case Msg(m) =>
      FilledIsFresh(m);
      CachedSizeIrrelevant(Filled(m), Size(m));
    case _ =>
  }

  lemma {:induction false} CachedSizeIrrelevant(m: Message, size: nat)
    ensures Size(m.(cachedSize := size)) == Size(m) && Bytes(m.(cachedSize := size)) == Bytes(m)
    ensures Observed(m.(cachedSize := size)) == Observed(m) && (Fresh(m.(cachedSize := size)) <==> Fresh(m))
  {
    CachedSizeIrrelevantInRange(m, size, FIRST_NUMBER, PAST_NUMBERS);
  }

  lemma {:induction false} CachedSizeIrrelevantInRange(m: Message, size: nat, lo: int, hi: int)
    ensures RangeSize(m.(cachedSize := size), lo, hi) == RangeSize(m, lo, hi)
    ensures RangeBytes(m.(cachedSize := size), lo, hi) == RangeBytes(m, lo, hi)
    decreases hi - lo
  {
    if lo < hi { CachedSizeIrrelevantInRange(m, size, lo + 1, hi); }
  }

  /** The serializer writes as many bytes as `ByteSize` counted, for every type and every kind of extension. */
  lemma {:induction false} BytesMatchSize(registry: Registry, t: nat, m: Message, room: nat, lo: int, hi: int)
    requires Typed(registry, t, m, room) && Fresh(m) && Fits(m)
    ensures |RangeBytes(m, lo, hi)| == RangeSize(m, lo, hi)
    decreases m, 0, hi - lo
  {
    if lo < hi {
      BytesMatchSize(registry, t, m, room, lo + 1, hi);
      if lo in m.extensions { ExtensionBytesMatchSize(registry, registry[(t, lo)], lo, m.extensions[lo], room); }
    }
  }

  lemma {:induction false} ExtensionBytesMatchSize(registry: Registry, info: ExtensionInfo, n: int, e: Extension,
                                                   room: nat)
    requires TypedExtension(registry, info, e, room) && FreshExtension(e) && FitsExtension(e)
    ensures |ExtensionBytes(n, e)| == ExtensionSize(n, e)
    decreases e
  {
    hide VarintBytes, ValueBytes, ValueSize, PackedBytes, ValuesSize, FieldsBytes, TypedValue, FreshValue, FitsValue;
    match e
    case Singular(t, cleared, value) =>
      TagSizeExact(n % TWO_32, WireTypeOf(t));
      if !cleared { ValueBytesMatchSize(registry, info, value, room); }
    case Repeated(t, packed, values, cached) =>
      if packed {
        TagSizeExact(n % TWO_32, LENGTH_DELIMITED);
        PackedBytesMatchSize(registry, info, values, room);
        VarintSizeExact(cached);
      } else {
        FieldsBytesMatchSize(registry, info, n, values, room);
      }
  }

  lemma {:induction false} PackedBytesMatchSize(registry: Registry, info: ExtensionInfo, values: seq<Value>, room: nat)
    requires forall i | 0 <= i < |values| :: TypedValue(registry, info, values[i], room)
    requires forall i | 0 <= i < |values| :: FreshValue(values[i]) && FitsValue(values[i])
    ensures |PackedBytes(info.fieldType, values)| == ValuesSize(info.fieldType, values)
    decreases values
  {
    if values != [] {
      ValueBytesMatchSize(registry, info, values[0], room);
      PackedBytesMatchSize(registry, info, values[1..], room);
    }
  }

  lemma {:induction false} FieldsBytesMatchSize(registry: Registry, info: ExtensionInfo, n: int, values: seq<Value>,
                                                room: nat)
    requires forall i | 0 <= i < |values| :: TypedValue(registry, info, values[i], room)
    requires forall i | 0 <= i < |values| :: FreshValue(values[i]) && FitsValue(values[i])
    ensures |FieldsBytes(n, info.fieldType, values)| == TagSizeOf(n) * |values| + ValuesSize(info.fieldType, values)
    decreases values
  {
    hide VarintBytes, ValueBytes, ValueSize, TypedValue, FreshValue, FitsValue;
    if values != [] {
      ValueBytesMatchSize(registry, info, values[0], room);
      TagSizeExact(n % TWO_32, WireTypeOf(info.fieldType));
      FieldsBytesMatchSize(registry, info, n, values[1..], room);
      assert TagSizeOf(n) * |values| == TagSizeOf(n) + TagSizeOf(n) * |values[1..]|;
    }
  }

  lemma {:induction false} ValueBytesMatchSize(registry: Registry, info: ExtensionInfo, v: Value, room: nat)
    requires TypedValue(registry, info, v, room) && FreshValue(v) && FitsValue(v)
    ensures |ValueBytes(info.fieldType, v)| == ValueSize(info.fieldType, v)
    decreases v
  {
    match v
    case Num(n) => PrimitiveSizeExact(info.fieldType, n);
    case Str(s) => VarintSizeExact(|s|);
    case Msg(m) =>
      VarintSizeExact(Size(m));
      BytesMatchSize(registry, info.messageType, m, room - 1, FIRST_NUMBER, PAST_NUMBERS);
  }

  /** Filling in the sizes keeps a message typed and within bounds. */
  lemma {:induction false} FilledStaysTyped(registry: Registry, t: nat, m: Message, room: nat)
    requires Typed(registry, t, m, room) && Fits(m)
    ensures Typed(registry, t, Filled(m), room) && Fits(Filled(m)) && (Numbered(m) ==> Numbered(Filled(m)))
    decreases m
  {
    forall n | n in m.extensions
      ensures TypedExtension(registry, registry[(t, n)], FilledExtension(m.extensions[n]), room)
      ensures FitsExtension(FilledExtension(m.extensions[n]))
    {
      FilledExtensionStaysTyped(registry, registry[(t, n)], m.extensions[n], room);
    }
  }

  lemma {:induction false} FilledExtensionStaysTyped(registry: Registry, info: ExtensionInfo, e: Extension, room: nat)
    requires TypedExtension(registry, info, e, room) && FitsExtension(e)
    ensures TypedExtension(registry, info, FilledExtension(e), room) && FitsExtension(FilledExtension(e))
    decreases e
  {
    match e
    case Singular(t, cleared, value) => if !cleared { FilledValueStaysTyped(registry, info, value, room); }
    case Repeated(t, packed, values, _) =>
      forall i | 0 <= i < |values|
        ensures TypedValue(registry, info, FilledValue(values[i]), room) && FitsValue(FilledValue(values[i]))
      {
        FilledValueStaysTyped(registry, info, values[i], room);
      }
      FilledExtensionIsFresh(0, e);
      FilledValuesSize(t, values, FilledExtension(e).values);
  }

  lemma {:induction false} FilledValueStaysTyped(registry: Registry, info: ExtensionInfo, v: Value, room: nat)
    requires TypedValue(registry, info, v, room) && FitsValue(v)
    ensures TypedValue(registry, info, FilledValue(v), room) && FitsValue(FilledValue(v))
    decreases v
  {
    match v
    case Msg(m) =>
      FilledStaysTyped(registry, info.messageType, m, room - 1);
      FilledIsFresh(m);
      CachedSizeIrrelevant(Filled(m), Size(m));
    case _ =>
  }
}
