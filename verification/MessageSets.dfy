/** The MessageSet format: each message extension in a group of its own, holding its number and its bytes. */
module MessageSets {
  import opened OrderedMaps
  import opened Wire
  import opened Extensions
  import opened ExtensionCodec
  import opened ExtensionParsing

  const ITEM_NUMBER := 1
  const TYPE_ID_NUMBER := 2
  const MESSAGE_NUMBER := 3
  const ITEM_START_TAG := 11
  const ITEM_END_TAG := 12
  const TYPE_ID_TAG := 16
  const MESSAGE_TAG := 26

  /** The sizes of the four tags together. */
  const ITEM_TAGS_SIZE := 4

  /** A stream of its own starts with all the nesting there is. */
  const FULL_ROOM := 100

  lemma TagConstants()
    ensures ITEM_START_TAG == MakeTag(ITEM_NUMBER, START_GROUP) && ITEM_END_TAG == MakeTag(ITEM_NUMBER, END_GROUP)
    ensures TYPE_ID_TAG == MakeTag(TYPE_ID_NUMBER, VARINT) && MESSAGE_TAG == MakeTag(MESSAGE_NUMBER, LENGTH_DELIMITED)
    ensures |VarintBytes(ITEM_START_TAG)| == |VarintBytes(ITEM_END_TAG)| == 1
    ensures |VarintBytes(TYPE_ID_TAG)| == |VarintBytes(MESSAGE_TAG)| == 1
  {
  }

  /** Only singular messages have the format's own form. */
  predicate IsItem(e: Extension) {
    e.Singular? && e.fieldType == MESSAGE
  }

  // ----- Size and bytes -----

  function ItemSize(n: int, e: Extension): nat {
    if !IsItem(e) then ExtensionSize(n, e)
    else if e.cleared then 0
    else ITEM_TAGS_SIZE + VarintSize32(n % TWO_32) + ValueSize(MESSAGE, e.value)
  }

  function SetRangeSize(m: Message, lo: int, hi: int): nat
    decreases hi - lo
  {
    if lo >= hi then 0
    else (if lo in m.extensions then ItemSize(lo, m.extensions[lo]) else 0) + SetRangeSize(m, lo + 1, hi)
  }

  function SetSize(m: Message): nat {
    SetRangeSize(m, FIRST_NUMBER, PAST_NUMBERS)
  }

  function ItemBytes(n: int, e: Extension): bytes {
    if !IsItem(e) then ExtensionBytes(n, e)
    else if e.cleared then []
    else
      VarintBytes(ITEM_START_TAG) + (VarintBytes(TYPE_ID_TAG) + (VarintBytes(n % TWO_32)
      + (VarintBytes(MESSAGE_TAG) + (ValueBytes(MESSAGE, e.value) + VarintBytes(ITEM_END_TAG)))))
  }

  function SetRangeBytes(m: Message, lo: int, hi: int): bytes
    decreases hi - lo
  {
    if lo >= hi then []
    else (if lo in m.extensions then ItemBytes(lo, m.extensions[lo]) else []) + SetRangeBytes(m, lo + 1, hi)
  }

  function SetBytes(m: Message): bytes {
    SetRangeBytes(m, FIRST_NUMBER, PAST_NUMBERS)
  }

  /** The MessageSet bytes number what `MessageSetByteSize` said. */
  lemma {:induction false} SetBytesMatchSize(registry: Registry, t: nat, m: Message, room: nat, lo: int, hi: int)
    requires Typed(registry, t, m, room) && Fresh(m) && Fits(m)
    ensures |SetRangeBytes(m, lo, hi)| == SetRangeSize(m, lo, hi)
    decreases hi - lo
  {
    hide ExtensionBytes, ExtensionSize;
    if lo < hi {
      SetBytesMatchSize(registry, t, m, room, lo + 1, hi);
      if lo in m.extensions { ItemBytesMatchSize(registry, registry[(t, lo)], lo, m.extensions[lo], room); }
    }
  }

  lemma ItemBytesMatchSize(registry: Registry, info: ExtensionInfo, n: int, e: Extension, room: nat)
    requires TypedExtension(registry, info, e, room) && FreshExtension(e) && FitsExtension(e)
    ensures |ItemBytes(n, e)| == ItemSize(n, e)
  {
    hide VarintBytes, ValueBytes, ValueSize;
    if !IsItem(e) {
      ExtensionBytesMatchSize(registry, info, n, e, room);
    } else if !e.cleared {
      TagConstants();
      VarintSizeExact(n % TWO_32);
      ValueBytesMatchSize(registry, info, e.value, room);
    }
  }

  // ----- Parsing -----

  /** `ParseMessageSet`. */
  function SetParsed(registry: Registry, t: nat, m: Message, b: bytes, room: nat): Option<Message>
    requires WellFormed(registry)
    decreases |b|
  {
    match TagAt(b)
    case AtEnd => Some(m)
    case Broken => None
    case Next(tag, rest) =>
      match (if tag == ITEM_START_TAG then ItemParsed(registry, t, m, 0, [], rest, room)
             else FieldParsed(registry, t, m, tag, rest, room))
      case Failed => None
      case Done(m', rest') => SetParsed(registry, t, m', rest', room)
  }

  /** `ParseMessageSetItem`: message bytes that come before the number are kept until it comes. */
  function ItemParsed(registry: Registry, t: nat, m: Message, fakeTag: nat, data: bytes, b: bytes,
                      room: nat): (r: Read<Message>)
    requires WellFormed(registry)
    ensures r.Done? ==> |r.rest| <= |b|
    decreases |b|
  {
    match TagAt(b)
    case AtEnd => Failed
    case Broken => Failed
    case Next(tag, rest) =>
      if tag == TYPE_ID_TAG then
        match Varint32At(rest)
        case Failed => Failed
        case Done(typeId, rest') =>
          var fakeTag' := MakeTag(typeId, LENGTH_DELIMITED);
          if data == [] then ItemParsed(registry, t, m, fakeTag', [], rest', room)
          else
            (match FieldParsed(registry, t, m, fakeTag', data, FULL_ROOM)
             case Failed => Failed
             case Done(m', _) => ItemParsed(registry, t, m', fakeTag', [], rest', room))
      else if tag == MESSAGE_TAG then
        if fakeTag == 0 then
          match Varint32At(rest)
          case Failed => Failed
          case Done(length, rest') =>
            if length >= TWO_31 || length > |rest'| then Failed
            else ItemParsed(registry, t, m, 0, data + VarintBytes(length) + rest'[..length], rest'[length..], room)
        else
          match FieldParsed(registry, t, m, fakeTag, rest, room)
          case Failed => Failed
          case Done(m', rest') => ItemParsed(registry, t, m', fakeTag, [], rest', room)
      else if tag == ITEM_END_TAG then Done(m, rest)
      else
        match AfterField(rest, tag, room)
        case Failed => Failed
        case Done(_, rest') => ItemParsed(registry, t, m, fakeTag, data, rest', room)
  }

  // ----- Reading back -----

  lemma TagReadBack(tag: nat, rest: bytes)
    requires 0 < tag < TWO_32
    ensures TagAt(VarintBytes(tag) + rest) == Next(tag, rest)
  {
    hide VarintBytes, Varint32At, Varint64At;
    VarintSizeExact(tag);
    VarintRoundTrip(tag, rest);
  }

  /** One item, up to its end tag. */
  lemma ItemReadBack(registry: Registry, t: nat, s: Message, n: int, e: Extension, rest: bytes, room: nat)
    requires WellFormed(registry) && 0 < n < TWO_29 && (t, n) in registry
    requires TypedExtension(registry, registry[(t, n)], e, room) && FreshExtension(e) && FitsExtension(e)
    requires IsItem(e) && !e.cleared
    ensures SetParsed(registry, t, s, ItemBytes(n, e) + rest, room)
      == SetParsed(registry, t, MergeOne(s, n, e), rest, room)
  {
    hide VarintBytes, ValueBytes, TagAt, Varint32At, FieldParsed, AfterField, MergeOne, TypedExtension, FreshExtension,
      FitsExtension, ItemParsed, SetParsed;
    var end := VarintBytes(ITEM_END_TAG) + rest;
    var message := ValueBytes(MESSAGE, e.value) + end;
    var afterId := VarintBytes(MESSAGE_TAG) + message;
    var id := VarintBytes(n) + afterId;
    var inside := VarintBytes(TYPE_ID_TAG) + id;
    assert ItemBytes(n, e) + rest == VarintBytes(ITEM_START_TAG) + inside;
    TagReadBack(ITEM_START_TAG, inside);
    TagReadBack(TYPE_ID_TAG, id);
    VarintRoundTrip(n, afterId);
    TagReadBack(MESSAGE_TAG, message);
    TagReadBack(ITEM_END_TAG, rest);
    MessageFieldReadBack(registry, t, s, n, e, end, room);
    ItemSteps(registry, t, s, n, inside, id, afterId, message, end, rest, MergeOne(s, n, e), room);
    SetStep(registry, t, s, VarintBytes(ITEM_START_TAG) + inside, room);
  }

  lemma MessageFieldReadBack(registry: Registry, t: nat, s: Message, n: int, e: Extension, rest: bytes, room: nat)
    requires WellFormed(registry) && 0 < n < TWO_29 && (t, n) in registry
    requires TypedExtension(registry, registry[(t, n)], e, room) && FreshExtension(e) && FitsExtension(e)
    requires IsItem(e) && !e.cleared
    ensures FieldParsed(registry, t, s, n * 8 + LENGTH_DELIMITED, ValueBytes(MESSAGE, e.value) + rest, room)
         == Done(MergeOne(s, n, e), rest)
  {
    hide ValueBytes, FieldParsed, ValueParsed, Stored, ReadBack, MergeOne, TypedValue, FreshValue, FitsValue, MessageIn;
    var info := registry[(t, n)];
    RegisteredField(registry, t, s, n, ValueBytes(MESSAGE, e.value) + rest, room);
    ValueReadBack(registry, info, MessageIn(Entry(s, n)), e.value, rest, room);
    SingularStored(registry, info, s, n, e, room);
  }

  lemma ItemEnds(registry: Registry, t: nat, s: Message, fake: nat, end: bytes, rest: bytes, room: nat)
    requires WellFormed(registry) && TagAt(end) == Next(ITEM_END_TAG, rest)
    ensures ItemParsed(registry, t, s, fake, [], end, room) == Done(s, rest)
  {
    hide TagAt, Varint32At, FieldParsed, AfterField;
  }

  lemma ItemMessage(registry: Registry, t: nat, s: Message, fake: nat, afterId: bytes, message: bytes, end: bytes,
                    rest: bytes, s': Message, room: nat)
    requires WellFormed(registry) && fake != 0 && TagAt(afterId) == Next(MESSAGE_TAG, message)
    requires FieldParsed(registry, t, s, fake, message, room) == Done(s', end)
    requires TagAt(end) == Next(ITEM_END_TAG, rest)
    ensures ItemParsed(registry, t, s, fake, [], afterId, room) == Done(s', rest)
  {
    hide TagAt, Varint32At, FieldParsed, AfterField;
    ItemEnds(registry, t, s', fake, end, rest, room);
  }

  lemma ItemSteps(registry: Registry, t: nat, s: Message, n: int, inside: bytes, id: bytes, afterId: bytes,
                  message: bytes, end: bytes,
                  rest: bytes, s': Message, room: nat)
    requires WellFormed(registry) && 0 < n < TWO_29
    requires TagAt(inside) == Next(TYPE_ID_TAG, id) && Varint32At(id) == Done(n, afterId)
    requires TagAt(afterId) == Next(MESSAGE_TAG, message)
    requires FieldParsed(registry, t, s, n * 8 + LENGTH_DELIMITED, message, room) == Done(s', end)
    requires TagAt(end) == Next(ITEM_END_TAG, rest)
    ensures ItemParsed(registry, t, s, 0, [], inside, room) == Done(s', rest)
  {
    hide TagAt, Varint32At, FieldParsed, AfterField;
    assert MakeTag(n, LENGTH_DELIMITED) == n * 8 + LENGTH_DELIMITED;
    ItemMessage(registry, t, s, n * 8 + LENGTH_DELIMITED, afterId, message, end, rest, s', room);
  }

  /**
   * Messages that come before the number are merged when the number comes; but only the first of them is looked at,
   * and `more`, the others, is lost.
   */
  lemma OnlyFirstKeptMessageCounts(registry: Registry, t: nat, s: Message, n: int, e: Extension, more: bytes,
                                   rest: bytes, room: nat)
    requires WellFormed(registry) && 0 < n < TWO_29 && (t, n) in registry
    requires TypedExtension(registry, registry[(t, n)], e, FULL_ROOM) && FreshExtension(e) && FitsExtension(e)
    requires IsItem(e) && !e.cleared
    ensures ItemParsed(registry, t, s, 0, ValueBytes(MESSAGE, e.value) + more,
                       VarintBytes(TYPE_ID_TAG) + (VarintBytes(n) + (VarintBytes(ITEM_END_TAG) + rest)), room)
         == Done(MergeOne(s, n, e), rest)
  {
    hide VarintBytes, TagAt, Varint32At, FieldParsed, AfterField, MergeOne, FreshExtension, FitsExtension;
    var data := ValueBytes(MESSAGE, e.value) + more;
    var end := VarintBytes(ITEM_END_TAG) + rest;
    var id := VarintBytes(n) + end;
    TagReadBack(TYPE_ID_TAG, id);
    VarintRoundTrip(n, end);
    TagReadBack(ITEM_END_TAG, rest);
    MessageFieldReadBack(registry, t, s, n, e, more, FULL_ROOM);
    assert MakeTag(n, LENGTH_DELIMITED) == n * 8 + LENGTH_DELIMITED;
    assert data != [];
    assert ItemParsed(registry, t, MergeOne(s, n, e), n * 8 + LENGTH_DELIMITED, [], end, room)
      == Done(MergeOne(s, n, e), rest);
  }

  lemma SetStep(registry: Registry, t: nat, s: Message, b: bytes, room: nat)
    requires WellFormed(registry) && TagAt(b).Next? && TagAt(b).tag == ITEM_START_TAG
    requires ItemParsed(registry, t, s, 0, [], TagAt(b).rest, room).Done?
    ensures var r := ItemParsed(registry, t, s, 0, [], TagAt(b).rest, room);
      SetParsed(registry, t, s, b, room) == SetParsed(registry, t, r.value, r.rest, room)
  {
  }

  /** The MessageSet loop goes through ordinary fields as the message loop does. */
  lemma {:induction false} SetThroughReads(registry: Registry, t: nat, s: Message, b: bytes, s': Message, b': bytes,
                                           room: nat)
    requires WellFormed(registry) && Reads(registry, t, s, b, s', b', room)
    ensures SetParsed(registry, t, s, b, room) == SetParsed(registry, t, s', b', room)
    decreases |b|
  {
    hide TagAt, FieldParsed;
    if !(s == s' && b == b') {
      var tag := TagAt(b);
      var r := FieldParsed(registry, t, s, tag.tag, tag.rest, room);
      assert tag.tag != ITEM_START_TAG;
      SetThroughReads(registry, t, r.value, r.rest, s', b', room);
    }
  }

  lemma {:induction false} SetRangeReadBack(registry: Registry, t: nat, s: Message, m: Message, room: nat, lo: int,
                                            hi: int)
    requires WellFormed(registry) && Typed(registry, t, m, room) && Fresh(m) && Fits(m)
    requires forall n | n in m.extensions && !Dead(m.extensions[n]) :: n < TWO_29
    ensures SetParsed(registry, t, s, SetRangeBytes(m, lo, hi), room) == Some(Merge(s, Observed(Slice(m, lo, hi))))
    decreases hi - lo
  {
    hide SetParsed, Merge, Observed, ExtensionBytes, MergeOne, TypedExtension, FreshExtension, FitsExtension, Reads,
      ItemBytes;
    if lo >= hi {
      SliceNone(s, m, lo, hi);
      SetAtTheEnd(registry, t, s, room);
    } else if lo in m.extensions {
      var e := m.extensions[lo];
      var tail := SetRangeBytes(m, lo + 1, hi);
      ItemOrFieldReadBack(registry, t, s, lo, e, tail, room);
      SetRangeReadBack(registry, t, MergeOne(s, lo, e), m, room, lo + 1, hi);
      SliceFirst(s, m, lo, hi);
    } else {
      assert SetRangeBytes(m, lo, hi) == SetRangeBytes(m, lo + 1, hi);
      SetRangeReadBack(registry, t, s, m, room, lo + 1, hi);
      assert Slice(m, lo, hi).extensions == Slice(m, lo + 1, hi).extensions;
    }
  }

  lemma SetAtTheEnd(registry: Registry, t: nat, s: Message, room: nat)
    requires WellFormed(registry)
    ensures SetParsed(registry, t, s, [], room) == Some(s)
  {
  }

  lemma ItemOrFieldReadBack(registry: Registry, t: nat, s: Message, n: int, e: Extension, rest: bytes, room: nat)
    requires WellFormed(registry) && 0 < n && (t, n) in registry && (!Dead(e) ==> n < TWO_29)
    requires TypedExtension(registry, registry[(t, n)], e, room) && FreshExtension(e) && FitsExtension(e)
    ensures SetParsed(registry, t, s, ItemBytes(n, e) + rest, room)
      == SetParsed(registry, t, MergeOne(s, n, e), rest, room)
  {
    if Dead(e) {
      DeadWritesNothing(n, e);
      assert ItemBytes(n, e) + rest == rest;
    } else if IsItem(e) {
      ItemReadBack(registry, t, s, n, e, rest, room);
    } else {
      ExtensionReadBack(registry, t, s, n, e, rest, room);
      SetThroughReads(registry, t, s, ExtensionBytes(n, e) + rest, MergeOne(s, n, e), rest, room);
    }
  }

  lemma DeadWritesNothing(n: int, e: Extension)
    requires Dead(e) && FreshExtension(e)
    ensures ExtensionBytes(n, e) == ItemBytes(n, e) == []
  {
  }

  // ----- What cannot be read back -----

  /** No field number above 29 bits. */
  predicate NumbersFit(m: Message) {
    forall n | n in m.extensions :: n < TWO_29
  }

  /** Whatever the bytes are, parsing never makes an extension numbered beyond 29 bits. */
  lemma {:induction false} SetNumbersFit(registry: Registry, t: nat, m: Message, b: bytes, room: nat)
    requires WellFormed(registry) && NumbersFit(m)
    ensures var r := SetParsed(registry, t, m, b, room); r.Some? ==> NumbersFit(r.value)
    decreases |b|
  {
    hide TagAt, FieldParsed, ItemParsed;
    match TagAt(b)
    case AtEnd =>
    case Broken =>
    case Next(tag, rest) =>
      FieldNumberFits(registry, t, m, tag, rest, room);
      ItemNumbersFit(registry, t, m, 0, [], rest, room);
      var r := if tag == ITEM_START_TAG then ItemParsed(registry, t, m, 0, [], rest, room)
               else FieldParsed(registry, t, m, tag, rest, room);
      if r.Done? { SetNumbersFit(registry, t, r.value, r.rest, room); }
  }

  lemma {:induction false} ItemNumbersFit(registry: Registry, t: nat, m: Message, fakeTag: nat, data: bytes, b: bytes,
                                          room: nat)
    requires WellFormed(registry) && NumbersFit(m) && fakeTag < TWO_32
    ensures var r := ItemParsed(registry, t, m, fakeTag, data, b, room); r.Done? ==> NumbersFit(r.value)
    decreases |b|
  {
    hide TagAt, FieldParsed, Varint32At, AfterField, NumbersFit, MakeTag;
    match TagAt(b)
    case AtEnd =>
    case Broken =>
    case Next(tag, rest) =>
      if tag == TYPE_ID_TAG {
        var id := Varint32At(rest);
        if id.Done? {
          TagInRange(id.value);
          var fake := MakeTag(id.value, LENGTH_DELIMITED);
          FieldNumberFits(registry, t, m, fake, data, FULL_ROOM);
          var r := FieldParsed(registry, t, m, fake, data, FULL_ROOM);
          if data == [] {
            ItemNumbersFit(registry, t, m, fake, [], id.rest, room);
          } else if r.Done? {
            ItemNumbersFit(registry, t, r.value, fake, [], id.rest, room);
          }
        }
      } else if tag == MESSAGE_TAG {
        if fakeTag == 0 {
          var length := Varint32At(rest);
          if length.Done? && length.value < TWO_31 && length.value <= |length.rest| {
            ItemNumbersFit(registry, t, m, 0, data + VarintBytes(length.value) + length.rest[..length.value],
                           length.rest[length.value..], room);
          }
        } else {
          FieldNumberFits(registry, t, m, fakeTag, rest, room);
          var r := FieldParsed(registry, t, m, fakeTag, rest, room);
          if r.Done? { ItemNumbersFit(registry, t, r.value, fakeTag, [], r.rest, room); }
        }
      } else if tag != ITEM_END_TAG {
        var r := AfterField(rest, tag, room);
        if r.Done? { ItemNumbersFit(registry, t, m, fakeTag, data, r.rest, room); }
      }
  }

  lemma TagInRange(n: nat)
    ensures MakeTag(n, LENGTH_DELIMITED) < TWO_32
  {
  }

  lemma FieldNumberFits(registry: Registry, t: nat, m: Message, tag: nat, b: bytes, room: nat)
    requires WellFormed(registry) && NumbersFit(m) && tag < TWO_32
    ensures var r := FieldParsed(registry, t, m, tag, b, room); r.Done? ==> NumbersFit(r.value)
  {
    hide ValueParsed, Varint32At, AfterField, PackedParsed;
    if Expected(registry, t, tag) && registry[(t, tag / 8)].packed {
      var size := Varint32At(b);
      if size.Done? {
        PackedNumberFits(m, tag / 8, registry[(t, tag / 8)], size.rest[..Min(size.value, |size.rest|)]);
      }
    }
  }

  lemma {:induction false} PackedNumberFits(m: Message, n: int, info: ExtensionInfo, window: bytes)
    requires NumbersFit(m) && n < TWO_29 && IsPrimitive(info.fieldType)
    ensures var r := PackedParsed(m, n, info, window); r.Some? ==> NumbersFit(r.value)
    decreases |window|
  {
    hide PrimitiveAt;
    if window != [] {
      var r := PrimitiveAt(info.fieldType, window);
      if r.Done? { PackedNumberFits(Stored(m, n, info, Num(r.value)), n, info, r.rest); }
    }
  }

  /** A set comes back from its MessageSet bytes if and only if every live extension is numbered within 29 bits. */
  lemma SetRoundTripExact(registry: Registry, t: nat, m: Message, room: nat)
    requires WellFormed(registry) && Typed(registry, t, m, room) && Fits(m)
    ensures SetParsed(registry, t, EMPTY, SetBytes(Filled(m)), room) == Some(Observed(m))
       <==> forall n | n in m.extensions && !Dead(m.extensions[n]) :: n < TWO_29
  {
    var f := Filled(m);
    FilledIsFresh(m);
    FilledStaysTyped(registry, t, m, room);
    forall n | n in m.extensions ensures Dead(f.extensions[n]) <==> Dead(m.extensions[n]) {
      FilledExtensionIsFresh(n, m.extensions[n]);
    }
    hide SetParsed, SetRangeBytes, Filled, Fresh, Fits, Typed;
    if forall n | n in m.extensions && !Dead(m.extensions[n]) :: n < TWO_29 {
      SetRangeReadBack(registry, t, EMPTY, f, room, FIRST_NUMBER, PAST_NUMBERS);
      AllNumbers(registry, t, f, room);
      MergeIntoEmpty(m);
    } else {
      SetNumbersFit(registry, t, EMPTY, SetBytes(f), room);
      var n :| n in m.extensions && !Dead(m.extensions[n]) && n >= TWO_29;
      assert n in Observed(m).extensions;
    }
  }

  lemma AllNumbers(registry: Registry, t: nat, m: Message, room: nat)
    requires Typed(registry, t, m, room)
    ensures Observed(Slice(m, FIRST_NUMBER, PAST_NUMBERS)) == Observed(m)
  {
    assert Slice(m, FIRST_NUMBER, PAST_NUMBERS).extensions == m.extensions;
  }
}
