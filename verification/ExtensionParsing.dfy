/** Parsing into an extension set, and the theorem that parsing serialized bytes merges what they came from. */
module ExtensionParsing {
  import opened OrderedMaps
  import opened Wire
  import opened Extensions
  import opened ExtensionCodec

  // ----- Storing what was parsed -----

  function WithEntry(m: Message, n: int, e: Extension): Message {
    m.(extensions := m.extensions[n := e])
  }

  /** `Add…` or `Set…`; an enum value nobody knows is dropped. */
  function Stored(m: Message, n: int, info: ExtensionInfo, v: Value): Message {
    if info.fieldType == ENUM && v.Num? && v.n !in info.validEnums then m
    else if info.repeated then WithEntry(m, n, Appended(Entry(m, n), info.fieldType, info.packed, [v]))
    else WithEntry(m, n, Overwritten(Entry(m, n), info.fieldType, v))
  }

  // ----- Parsing -----

  /** `FindExtensionInfoFromTag`: the extension is registered and the wire type is the expected one. */
  predicate Expected(registry: Registry, t: nat, tag: nat) {
    && (t, tag / 8) in registry
    && var info := registry[(t, tag / 8)];
       tag % 8 == if info.packed then LENGTH_DELIMITED else WireTypeOf(info.fieldType)
  }

  function Min(a: nat, b: nat): nat {
    if a < b then a else b
  }

  /** The message loop: fields until the end; an end-group tag or a broken tag makes the message unusable. */
  function Parsed(registry: Registry, t: nat, m: Message, b: bytes, room: nat): Option<Message>
    requires WellFormed(registry)
    decreases |b|, 1
  {
    match TagAt(b)
    case AtEnd => Some(m)
    case Broken => None
    case Next(tag, rest) =>
      if tag % 8 == END_GROUP then None
      else
        match FieldParsed(registry, t, m, tag, rest, room)
        case Failed => None
        case Done(m', rest') => Parsed(registry, t, m', rest', room)
  }

  /** `ParseField`, the tag being read already. */
  function FieldParsed(registry: Registry, t: nat, m: Message, tag: nat, b: bytes, room: nat): (r: Read<Message>)
    requires WellFormed(registry)
    ensures r.Done? ==> |r.rest| <= |b| && r.rest == b[|b| - |r.rest|..]
    decreases |b|, 2
  {
    if !Expected(registry, t, tag) then
      match AfterField(b, tag, room) case Failed => Failed case Done(_, rest) => Done(m, rest)
    else
      var n, info := tag / 8, registry[(t, tag / 8)];
      if info.packed then
        match Varint32At(b)
        case Failed => Failed
        case Done(size, rest) =>
          (match PackedParsed(m, n, info, rest[..Min(size, |rest|)])
           case None => Failed
           case Some(m') => Done(m', rest[Min(size, |rest|)..]))
      else
        match ValueParsed(registry, info, MessageIn(Entry(m, n)), b, room)
        case Failed => Failed
        case Done(v, rest) => Done(Stored(m, n, info, v), rest)
  }

  /** The elements of a packed field, which end where its window ends. */
  function PackedParsed(m: Message, n: int, info: ExtensionInfo, window: bytes): Option<Message>
    requires IsPrimitive(info.fieldType)
    decreases |window|
  {
    if window == [] then Some(m)
    else
      match PrimitiveAt(info.fieldType, window)
      case Failed => None
      case Done(v, rest) => PackedParsed(Stored(m, n, info, Num(v)), n, info, rest)
  }

  predicate IsTail(rest: bytes, b: bytes) {
    |rest| <= |b| && rest == b[|b| - |rest|..]
  }

  lemma TailIs(rest: bytes, b: bytes)
    requires |rest| <= |b| && rest == b[|b| - |rest|..]
    ensures IsTail(rest, b)
  {
  }

  lemma TailOfTail(rest: bytes, b: bytes, k: nat)
    requires IsTail(rest, b) && k <= |rest|
    ensures IsTail(rest[k..], b)
  {
  }

  /**
   * One value. A singular message is parsed into the one there was; a length beyond the end is cut back for messages.
   */
  function ValueParsed(registry: Registry, info: ExtensionInfo, was: Message, b: bytes, room: nat): (r: Read<Value>)
    requires WellFormed(registry)
    ensures r.Done? ==> |r.rest| < |b| && IsTail(r.rest, b)
    decreases |b|, 0
  {
    hide IsTail, PrimitiveAt, Varint32At;
    if IsPrimitive(info.fieldType) then
      match PrimitiveAt(info.fieldType, b)
      case Failed => Failed
      case Done(v, rest) => TailIs(rest, b); Done(Num(v), rest)
    else
      match Varint32At(b)
      case Failed => Failed
      case Done(size, rest) =>
        TailIs(rest, b);
        TailOfTail(rest, b, Min(size, |rest|));
        if info.fieldType == MESSAGE then
          if room == 0 then Failed else
          var start := if info.repeated then EMPTY else was;
          (match Parsed(registry, info.messageType, start, rest[..Min(size, |rest|)], room - 1)
           case None => Failed
           case Some(m) => Done(Msg(m), rest[Min(size, |rest|)..]))
        else if size >= TWO_31 || size > |rest| then Failed
        else Done(Str(rest[..size]), rest[size..])
  }

  // ----- What parsing can make -----

  /**
   * Whatever the bytes are, parsing into a message of a type gives a message of that type: known enum values, numbers
   * of the right width, field numbers that fit a tag, and nesting within a bound at least the room there is.
   */
  lemma {:induction false} ParsedStaysTyped(registry: Registry, t: nat, m: Message, b: bytes, room: nat, bound: nat)
    requires WellFormed(registry) && room <= bound && Typed(registry, t, m, bound) && Numbered(m)
    ensures var r := Parsed(registry, t, m, b, room);
      r.Some? ==> Typed(registry, t, r.value, bound) && Numbered(r.value)
    decreases |b|, 1
  {
    hide TagAt, FieldParsed, Typed, Numbered;
    var tag := TagAt(b);
    if tag.Next? && tag.tag % 8 != END_GROUP {
      FieldParsedStaysTyped(registry, t, m, tag.tag, tag.rest, room, bound);
      var r := FieldParsed(registry, t, m, tag.tag, tag.rest, room);
      if r.Done? { ParsedStaysTyped(registry, t, r.value, r.rest, room, bound); }
    }
  }

  lemma {:induction false} FieldParsedStaysTyped(registry: Registry, t: nat, m: Message, tag: nat, b: bytes, room: nat,
                                                 bound: nat)
    requires WellFormed(registry) && room <= bound && Typed(registry, t, m, bound) && Numbered(m) && tag < TWO_32
    ensures var r := FieldParsed(registry, t, m, tag, b, room);
      r.Done? ==> Typed(registry, t, r.value, bound) && Numbered(r.value)
    decreases |b|, 2
  {
    hide AfterField, Varint32At, PackedParsed, ValueParsed, Typed, Numbered, Stored;
    if Expected(registry, t, tag) {
      var n, info := tag / 8, registry[(t, tag / 8)];
      if info.packed {
        var size := Varint32At(b);
        if size.Done? {
          PackedParsedStaysTyped(registry, t, m, n, size.rest[..Min(size.value, |size.rest|)], bound);
        }
      } else {
        EntryMessageIsTyped(registry, t, m, n, bound);
        ValueParsedIsTyped(registry, info, MessageIn(Entry(m, n)), b, room, bound);
        var r := ValueParsed(registry, info, MessageIn(Entry(m, n)), b, room);
        if r.Done? { StoredStaysTyped(registry, t, m, n, r.value, bound); }
      }
    }
  }

  lemma EntryMessageIsTyped(registry: Registry, t: nat, m: Message, n: int, room: nat)
    requires Typed(registry, t, m, room) && (t, n) in registry
    ensures registry[(t, n)].fieldType == MESSAGE && room > 0 ==>
              Typed(registry, registry[(t, n)].messageType, MessageIn(Entry(m, n)), room - 1)
                && Numbered(MessageIn(Entry(m, n)))
  {
    if n in m.extensions {
      var e := m.extensions[n];
      assert TypedExtension(registry, registry[(t, n)], e, room);
      if e.Singular? { assert TypedValue(registry, registry[(t, n)], e.value, room); }
    }
  }

  lemma {:induction false} PackedParsedStaysTyped(registry: Registry, t: nat, m: Message, n: int, window: bytes,
                                                  room: nat)
    requires WellFormed(registry) && Typed(registry, t, m, room) && Numbered(m) && n < TWO_29 && (t, n) in registry
    requires registry[(t, n)].packed
    ensures var r := PackedParsed(m, n, registry[(t, n)], window);
      r.Some? ==> Typed(registry, t, r.value, room) && Numbered(r.value)
    decreases |window|
  {
    hide PrimitiveAt, Typed, Numbered, Stored;
    var info := registry[(t, n)];
    if window != [] {
      var r := PrimitiveAt(info.fieldType, window);
      if r.Done? {
        PrimitiveReadInRange(info.fieldType, window);
        StoredStaysTyped(registry, t, m, n, Num(r.value), room);
        PackedParsedStaysTyped(registry, t, Stored(m, n, info, Num(r.value)), n, r.rest, room);
      }
    }
  }

  /** A value of the declared type, except that an enum value may be unknown. */
  ghost predicate Readable(registry: Registry, info: ExtensionInfo, v: Value, room: nat) {
    if info.fieldType == ENUM then v.Num? && InRange(ENUM, v.n) else TypedValue(registry, info, v, room)
  }

  lemma {:induction false} ValueParsedIsTyped(registry: Registry, info: ExtensionInfo, was: Message, b: bytes,
                                              room: nat, bound: nat)
    requires WellFormed(registry) && room <= bound
    requires info.fieldType == MESSAGE && room > 0 ==>
      Typed(registry, info.messageType, was, bound - 1) && Numbered(was)
    ensures var r := ValueParsed(registry, info, was, b, room); r.Done? ==> Readable(registry, info, r.value, bound)
    decreases |b|, 0
  {
    hide Varint32At, PrimitiveAt, Parsed, InRange;
    if IsPrimitive(info.fieldType) {
      PrimitiveReadInRange(info.fieldType, b);
    } else if info.fieldType == MESSAGE && room > 0 {
      var size := Varint32At(b);
      if size.Done? {
        var start := if info.repeated then EMPTY else was;
        ParsedStaysTyped(registry, info.messageType, start, size.rest[..Min(size.value, |size.rest|)], room - 1,
                         bound - 1);
      }
    }
  }

  lemma StoredStaysTyped(registry: Registry, t: nat, m: Message, n: int, v: Value, room: nat)
    requires WellFormed(registry) && Typed(registry, t, m, room) && Numbered(m) && n < TWO_29 && (t, n) in registry
    requires Readable(registry, registry[(t, n)], v, room)
    ensures Typed(registry, t, Stored(m, n, registry[(t, n)], v), room) && Numbered(Stored(m, n, registry[(t, n)], v))
  {
    hide InRange, TypedValue;
    var info := registry[(t, n)];
    var s := Stored(m, n, info, v);
    if s != m {
      StorableIsTyped(registry, info, v, room);
      assert TypedExtension(registry, info, s.extensions[n], room);
    }
  }

  lemma StorableIsTyped(registry: Registry, info: ExtensionInfo, v: Value, room: nat)
    requires Readable(registry, info, v, room) && (info.fieldType == ENUM && v.Num? ==> v.n in info.validEnums)
    ensures TypedValue(registry, info, v, room)
  {
  }

  // ----- Reading fields one after another -----

  /** Reading whole fields, none of them a group, takes the message from `s` at `b` to `s'` at `b'`. */
  ghost predicate Reads(registry: Registry, t: nat, s: Message, b: bytes, s': Message, b': bytes, room: nat)
    requires WellFormed(registry)
    decreases |b|
  {
    || (s == s' && b == b')
    || match TagAt(b)
       case AtEnd => false
       case Broken => false
       case Next(tag, rest) =>
         && tag % 8 != START_GROUP && tag % 8 != END_GROUP
         && match FieldParsed(registry, t, s, tag, rest, room)
            case Failed => false
            case Done(next, rest') => Reads(registry, t, next, rest', s', b', room)
  }

  lemma ReadsOne(registry: Registry, t: nat, s: Message, b: bytes, tag: nat, rest: bytes, s': Message, b': bytes,
                 room: nat)
    requires WellFormed(registry) && TagAt(b) == Next(tag, rest) && tag % 8 != START_GROUP && tag % 8 != END_GROUP
    requires FieldParsed(registry, t, s, tag, rest, room) == Done(s', b')
    ensures Reads(registry, t, s, b, s', b', room)
  {
    hide TagAt, FieldParsed;
  }

  lemma ReadsNothing(registry: Registry, t: nat, s: Message, b: bytes, room: nat)
    requires WellFormed(registry)
    ensures Reads(registry, t, s, b, s, b, room)
  {
  }

  lemma {:induction false} ReadsThen(registry: Registry, t: nat, s: Message, b: bytes, s': Message, b': bytes,
                                     s'': Message, b'': bytes, room: nat)
    requires WellFormed(registry) && Reads(registry, t, s, b, s', b', room)
      && Reads(registry, t, s', b', s'', b'', room)
    ensures Reads(registry, t, s, b, s'', b'', room)
    decreases |b|
  {
    hide TagAt, FieldParsed;
    if !(s == s' && b == b') {
      var tag := TagAt(b);
      var r := FieldParsed(registry, t, s, tag.tag, tag.rest, room);
      ReadsThen(registry, t, r.value, r.rest, s', b', s'', b'', room);
    }
  }

  /** The message loop goes through what can be read. */
  lemma {:induction false} ParsedThroughReads(registry: Registry, t: nat, s: Message, b: bytes, s': Message, b': bytes,
                                              room: nat)
    requires WellFormed(registry) && Reads(registry, t, s, b, s', b', room)
    ensures Parsed(registry, t, s, b, room) == Parsed(registry, t, s', b', room)
    decreases |b|
  {
    hide TagAt, FieldParsed;
    if !(s == s' && b == b') {
      var tag := TagAt(b);
      var r := FieldParsed(registry, t, s, tag.tag, tag.rest, room);
      ParsedThroughReads(registry, t, r.value, r.rest, s', b', room);
    }
  }

  // ----- Parsing what was serialized -----

  /** The extensions numbered from `lo` up to `hi`. */
  function Slice(m: Message, lo: int, hi: int): Message {
    Message(map n | n in m.extensions && lo <= n < hi :: m.extensions[n], m.cachedSize)
  }

  /** One extension merged in. */
  function MergeOne(s: Message, n: int, e: Extension): Message {
    if Dead(e) then s else WithEntry(s, n, MergedExtension(Entry(s, n), ObservedExtension(e)))
  }

  /** A value of a registered extension is read back as what can be observed of it, merged with what there was. */
  function ReadBack(info: ExtensionInfo, was: Message, v: Value): Value {
    match v
    case Msg(m) => Msg(Merge(if info.repeated then EMPTY else was, Observed(m)))
    case _ => v
  }

  lemma {:induction false} ValueReadBack(registry: Registry, info: ExtensionInfo, was: Message, v: Value, rest: bytes,
                                         room: nat)
    requires WellFormed(registry) && TypedValue(registry, info, v, room) && FreshValue(v) && FitsValue(v)
    ensures ValueParsed(registry, info, was, ValueBytes(info.fieldType, v) + rest, room)
      == Done(ReadBack(info, was, v), rest)
    decreases v, 0
  {
    hide Parsed, RangeBytes, RangeSize, VarintBytes, PrimitiveAt, PrimitiveBytes, Varint32At;
    match v
    case Num(n) => PrimitiveRoundTrip(info.fieldType, n, rest);
    case Str(s) =>
      assert VarintBytes(|s|) + s + rest == VarintBytes(|s|) + (s + rest);
      LengthThere(|s|, s + rest);
      assert (s + rest)[..|s|] == s && (s + rest)[|s|..] == rest;
    case Msg(m) => MessageValueReadBack(registry, info, was, m, rest, room);
  }

  lemma {:induction false} MessageValueReadBack(registry: Registry, info: ExtensionInfo, was: Message, m: Message,
                                                rest: bytes, room: nat)
    requires WellFormed(registry) && TypedValue(registry, info, Msg(m), room) && FreshValue(Msg(m)) && FitsValue(Msg(m))
    ensures ValueParsed(registry, info, was, ValueBytes(info.fieldType, Msg(m)) + rest, room)
         == Done(ReadBack(info, was, Msg(m)), rest)
    decreases m, 2
  {
    hide Parsed, RangeBytes, RangeSize, VarintBytes, PrimitiveAt, Varint32At, Merge, Observed, IsTail;
    var size, body := Size(m), Bytes(m);
    BytesMatchSize(registry, info.messageType, m, room - 1, FIRST_NUMBER, PAST_NUMBERS);
    assert VarintBytes(size) + body + rest == VarintBytes(size) + (body + rest);
    LengthThere(size, body + rest);
    assert (body + rest)[..size] == body && (body + rest)[size..] == rest;
    MessageReadBack(registry, info.messageType, if info.repeated then EMPTY else was, m, room - 1);
  }

  /** Parsing the bytes of a message into another merges the two. */
  lemma {:induction false} MessageReadBack(registry: Registry, t: nat, s: Message, m: Message, room: nat)
    requires WellFormed(registry) && Typed(registry, t, m, room) && Numbered(m) && Fresh(m) && Fits(m)
    ensures Parsed(registry, t, s, Bytes(m), room) == Some(Merge(s, Observed(m)))
    decreases m, 1
  {
    hide Parsed, RangeBytes, Merge, Reads;
    RangeReadBack(registry, t, s, m, [], room, FIRST_NUMBER, PAST_NUMBERS);
    ParsedThroughReads(registry, t, s, Bytes(m) + [], Merge(s, Observed(Slice(m, FIRST_NUMBER, PAST_NUMBERS))), [],
                       room);
    assert Bytes(m) + [] == Bytes(m);
    SliceWhole(m);
    AtTheEnd(registry, t, Merge(s, Observed(m)), room);
  }

  lemma AtTheEnd(registry: Registry, t: nat, m: Message, room: nat)
    requires WellFormed(registry)
    ensures Parsed(registry, t, m, [], room) == Some(m)
  {
  }

  lemma SliceWhole(m: Message)
    requires Numbered(m)
    ensures Observed(Slice(m, FIRST_NUMBER, PAST_NUMBERS)) == Observed(m)
  {
    assert Slice(m, FIRST_NUMBER, PAST_NUMBERS).extensions == m.extensions;
  }

  lemma SliceNone(s: Message, m: Message, lo: int, hi: int)
    requires lo >= hi
    ensures Merge(s, Observed(Slice(m, lo, hi))) == s
  {
    assert Merge(s, Observed(Slice(m, lo, hi))).extensions == s.extensions;
  }

  lemma {:induction false} RangeReadBack(registry: Registry, t: nat, s: Message, m: Message, rest: bytes, room: nat,
                                         lo: int, hi: int)
    requires WellFormed(registry) && Typed(registry, t, m, room) && Numbered(m) && Fresh(m) && Fits(m)
    ensures Reads(registry, t, s, RangeBytes(m, lo, hi) + rest, Merge(s, Observed(Slice(m, lo, hi))), rest, room)
    decreases m, 0, hi - lo
  {
    hide Reads, Merge, Observed, ExtensionBytes, MergeOne, TypedExtension;
    if lo >= hi {
      assert RangeBytes(m, lo, hi) + rest == rest;
      SliceNone(s, m, lo, hi);
      ReadsNothing(registry, t, s, rest, room);
    } else if lo in m.extensions {
      var e := m.extensions[lo];
      var tail := RangeBytes(m, lo + 1, hi);
      assert ExtensionBytes(lo, e) + tail + rest == ExtensionBytes(lo, e) + (tail + rest);
      ExtensionReadBack(registry, t, s, lo, e, tail + rest, room);
      RangeReadBack(registry, t, MergeOne(s, lo, e), m, rest, room, lo + 1, hi);
      SliceFirst(s, m, lo, hi);
      ReadsThen(registry, t, s, ExtensionBytes(lo, e) + (tail + rest), MergeOne(s, lo, e), tail + rest,
                Merge(s, Observed(Slice(m, lo, hi))), rest, room);
    } else {
      assert RangeBytes(m, lo, hi) == RangeBytes(m, lo + 1, hi);
      RangeReadBack(registry, t, s, m, rest, room, lo + 1, hi);
      assert Slice(m, lo, hi).extensions == Slice(m, lo + 1, hi).extensions;
    }
  }

  lemma MergeEntry(s: Message, m: Message, n: int)
    ensures n in Merge(s, Observed(m)).extensions
      <==> n in s.extensions || (n in m.extensions && !Dead(m.extensions[n]))
    ensures n in m.extensions && !Dead(m.extensions[n]) ==>
              Merge(s, Observed(m)).extensions[n] == MergedExtension(Entry(s, n), ObservedExtension(m.extensions[n]))
    ensures n in s.extensions && !(n in m.extensions && !Dead(m.extensions[n])) ==>
              Merge(s, Observed(m)).extensions[n] == s.extensions[n]
  {
    hide MergedExtension;
    if n in m.extensions && !Dead(m.extensions[n]) { LiveMerges(m.extensions[n]); }
  }

  lemma SliceFirst(s: Message, m: Message, lo: int, hi: int)
    requires lo < hi && lo in m.extensions
    ensures Merge(s, Observed(Slice(m, lo, hi)))
      == Merge(MergeOne(s, lo, m.extensions[lo]), Observed(Slice(m, lo + 1, hi)))
  {
    hide MergedExtension, ObservedExtension, Observed, Dead;
    var whole, tail, next := Slice(m, lo, hi), Slice(m, lo + 1, hi), MergeOne(s, lo, m.extensions[lo]);
    var left, right := Merge(s, Observed(whole)), Merge(next, Observed(tail));
    forall n
      ensures n in left.extensions <==> n in right.extensions
      ensures n in left.extensions ==> left.extensions[n] == right.extensions[n]
    {
      MergeEntry(s, whole, n);
      MergeEntry(next, tail, n);
    }
    assert left.extensions == right.extensions;
  }

  lemma {:induction false} ExtensionReadBack(registry: Registry, t: nat, s: Message, n: int, e: Extension, rest: bytes,
                                             room: nat)
    requires WellFormed(registry) && 0 < n < TWO_29 && (t, n) in registry
    requires TypedExtension(registry, registry[(t, n)], e, room) && FreshExtension(e) && FitsExtension(e)
    ensures Reads(registry, t, s, ExtensionBytes(n, e) + rest, MergeOne(s, n, e), rest, room)
    decreases e
  {
    hide Reads, FieldsBytes, Merge;
    match e
    case Singular(_, cleared, value) =>
      if !cleared {
        FieldReadBack(registry, t, s, n, value, rest, room);
        SingularStored(registry, registry[(t, n)], s, n, e, room);
      } else {
        assert [] + rest == rest;
        ReadsNothing(registry, t, s, rest, room);
      }
    case Repeated(_, packed, values, cached) =>
      if packed {
        PackedFieldReadBack(registry, t, s, n, e, rest, room);
      } else {
        FieldsReadBack(registry, t, s, n, values, rest, room);
        ElementsStored(registry, registry[(t, n)], s, n, e, room);
      }
  }

  lemma SingularStored(registry: Registry, info: ExtensionInfo, s: Message, n: int, e: Extension, room: nat)
    requires e.Singular? && !e.cleared && TypedExtension(registry, info, e, room)
    ensures Stored(s, n, info, ReadBack(info, MessageIn(Entry(s, n)), e.value)) == MergeOne(s, n, e)
  {
    hide Typed, InRange;
    if !e.value.Msg? {
      assert ObservedExtension(e) == e;
      assert MergedExtension(Entry(s, n), e) == Overwritten(Entry(s, n), e.fieldType, e.value);
    } else {
      assert MergedExtension(Entry(s, n), ObservedExtension(e))
          == Overwritten(Entry(s, n), e.fieldType, Msg(Merge(MessageIn(Entry(s, n)), Observed(e.value.m))));
    }
  }

  /** One tag and value. */
  lemma {:induction false} FieldReadBack(registry: Registry, t: nat, s: Message, n: int, v: Value, rest: bytes,
                                         room: nat)
    requires WellFormed(registry) && 0 < n < TWO_29 && (t, n) in registry && !registry[(t, n)].packed
    requires TypedValue(registry, registry[(t, n)], v, room) && FreshValue(v) && FitsValue(v)
    ensures var info := registry[(t, n)];
      Reads(registry, t, s, VarintBytes(TagOf(n, WireTypeOf(info.fieldType))) + ValueBytes(info.fieldType, v) + rest,
            Stored(s, n, info, ReadBack(info, MessageIn(Entry(s, n)), v)), rest, room)
    decreases v, 1
  {
    hide Reads, VarintBytes, ValueBytes, FieldParsed, ValueParsed, Stored, ReadBack, TypedValue, FreshValue, FitsValue,
      TagAt, MessageIn, WireTypeOf;
    var info := registry[(t, n)];
    var w, body := WireTypeOf(info.fieldType), ValueBytes(info.fieldType, v) + rest;
    var b := TagBytes(n, w) + body;
    assert VarintBytes(TagOf(n, w)) + ValueBytes(info.fieldType, v) + rest == b;
    TagRoundTrip(n, w, body);
    ValueReadBack(registry, info, MessageIn(Entry(s, n)), v, rest, room);
    RegisteredField(registry, t, s, n, body, room);
    ReadsOne(registry, t, s, b, n * 8 + w, body, Stored(s, n, info, ReadBack(info, MessageIn(Entry(s, n)), v)), rest,
             room);
  }

  /** A registered field whose tag has the expected wire type. */
  lemma RegisteredField(registry: Registry, t: nat, s: Message, n: int, b: bytes, room: nat)
    requires WellFormed(registry) && 0 < n < TWO_29 && (t, n) in registry && !registry[(t, n)].packed
    ensures var info := registry[(t, n)];
      FieldParsed(registry, t, s, n * 8 + WireTypeOf(info.fieldType), b, room)
      == match ValueParsed(registry, info, MessageIn(Entry(s, n)), b, room)
         case Failed => Failed
         case Done(v, rest) => Done(Stored(s, n, info, v), rest)
  {
    hide ValueParsed, Stored, AfterField, MessageIn;
    var info := registry[(t, n)];
    var tag := n * 8 + WireTypeOf(info.fieldType);
    assert tag / 8 == n && tag % 8 == WireTypeOf(info.fieldType);
  }

  lemma RegisteredPackedField(registry: Registry, t: nat, s: Message, n: int, b: bytes, room: nat)
    requires WellFormed(registry) && 0 < n < TWO_29 && (t, n) in registry && registry[(t, n)].packed
    ensures var info := registry[(t, n)];
      FieldParsed(registry, t, s, n * 8 + LENGTH_DELIMITED, b, room)
      == match Varint32At(b)
         case Failed => Failed
         case Done(size, rest) =>
           match PackedParsed(s, n, info, rest[..Min(size, |rest|)])
           case None => Failed
           case Some(s') => Done(s', rest[Min(size, |rest|)..])
  {
    hide PackedParsed, AfterField, Varint32At;
    var tag := n * 8 + LENGTH_DELIMITED;
    assert tag / 8 == n && tag % 8 == LENGTH_DELIMITED;
  }

  /** The elements, stored one after the other. */
  function StoredAll(info: ExtensionInfo, s: Message, n: int, values: seq<Value>): Message
    decreases |values|
  {
    if values == [] then s
    else StoredAll(info, Stored(s, n, info, ReadBack(info, MessageIn(Entry(s, n)), values[0])), n, values[1..])
  }

  lemma {:induction false} FieldsReadBack(registry: Registry, t: nat, s: Message, n: int, values: seq<Value>,
                                          rest: bytes, room: nat)
    requires WellFormed(registry) && 0 < n < TWO_29 && (t, n) in registry
    requires var info := registry[(t, n)];
      && info.repeated && !info.packed && (forall i | 0 <= i < |values| :: TypedValue(registry, info, values[i], room))
      && (forall i | 0 <= i < |values| :: FreshValue(values[i]) && FitsValue(values[i]))
    ensures var info := registry[(t, n)];
      Reads(registry, t, s, FieldsBytes(n, info.fieldType, values) + rest, StoredAll(info, s, n, values), rest, room)
    decreases values
  {
    hide Reads, Stored, ReadBack, TypedValue, FreshValue, FitsValue, VarintBytes, ValueBytes, WireTypeOf;
    var info := registry[(t, n)];
    if values == [] {
      assert [] + rest == rest;
      ReadsNothing(registry, t, s, rest, room);
    } else {
      var head := VarintBytes(TagOf(n, WireTypeOf(info.fieldType))) + ValueBytes(info.fieldType, values[0]);
      var tail := FieldsBytes(n, info.fieldType, values[1..]);
      assert head + tail + rest == head + (tail + rest);
      var next := Stored(s, n, info, ReadBack(info, MessageIn(Entry(s, n)), values[0]));
      FieldReadBack(registry, t, s, n, values[0], tail + rest, room);
      FieldsReadBack(registry, t, next, n, values[1..], rest, room);
      ReadsThen(registry, t, s, head + (tail + rest), next, tail + rest, StoredAll(info, s, n, values), rest, room);
    }
  }

  function ReadBacks(info: ExtensionInfo, values: seq<Value>): (read: seq<Value>)
    ensures |read| == |values| && forall i | 0 <= i < |values| :: read[i] == ReadBack(info, EMPTY, values[i])
  {
    seq(|values|, i requires 0 <= i < |values| => ReadBack(info, EMPTY, values[i]))
  }

  /** Storing the elements one by one appends them. */
  lemma {:induction false} StoredAllAppends(registry: Registry, info: ExtensionInfo, s: Message, n: int,
                                            values: seq<Value>, room: nat)
    requires info.repeated && forall i | 0 <= i < |values| :: TypedValue(registry, info, values[i], room)
    ensures StoredAll(info, s, n, values) ==
      if values == [] then s
      else WithEntry(s, n, Appended(Entry(s, n), info.fieldType, info.packed, ReadBacks(info, values)))
    decreases |values|
  {
    hide ReadBack;
    if values != [] {
      ReadBackOfRepeated(info, MessageIn(Entry(s, n)), values[0]);
      assert TypedValue(registry, info, values[0], room);
      var all, others := ReadBacks(info, values), ReadBacks(info, values[1..]);
      assert all == [all[0]] + others;
      StoredAllAppends(registry, info, Stored(s, n, info, all[0]), n, values[1..], room);
      assert Stored(s, n, info, all[0])
        == WithEntry(s, n, Appended(Entry(s, n), info.fieldType, info.packed, [all[0]])) by {
        StoredElement(registry, info, s, n, values[0], room);
      }
      AppendedTwice(Entry(s, n), info.fieldType, info.packed, [all[0]], others);
      StoredTwice(s, n, Appended(Entry(s, n), info.fieldType, info.packed, [all[0]]),
                  Appended(Entry(s, n), info.fieldType, info.packed, all));
      if values[1..] == [] { assert all == [all[0]]; }
    }
  }

  lemma StoredTwice(s: Message, n: int, first: Extension, second: Extension)
    ensures WithEntry(WithEntry(s, n, first), n, second) == WithEntry(s, n, second)
    ensures Entry(WithEntry(s, n, first), n) == Some(first)
  {
    assert s.extensions[n := first][n := second] == s.extensions[n := second];
  }

  lemma StoredElement(registry: Registry, info: ExtensionInfo, s: Message, n: int, v: Value, room: nat)
    requires info.repeated && TypedValue(registry, info, v, room)
    ensures Stored(s, n, info, ReadBack(info, EMPTY, v))
         == WithEntry(s, n, Appended(Entry(s, n), info.fieldType, info.packed, [ReadBack(info, EMPTY, v)]))
  {
    hide Typed, InRange;
  }

  lemma AppendedTwice(was: Option<Extension>, t: FieldType, packed: bool, first: seq<Value>, others: seq<Value>)
    ensures Appended(Some(Appended(was, t, packed, first)), t, packed, others)
      == Appended(was, t, packed, first + others)
  {
    if was.Some? && was.value.Repeated? {
      assert was.value.values + first + others == was.value.values + (first + others);
    }
  }

  lemma ReadBackOfRepeated(info: ExtensionInfo, was: Message, v: Value)
    requires info.repeated
    ensures ReadBack(info, was, v) == ReadBack(info, EMPTY, v)
  {
  }

  lemma ElementsStored(registry: Registry, info: ExtensionInfo, s: Message, n: int, e: Extension, room: nat)
    requires e.Repeated? && TypedExtension(registry, info, e, room)
    ensures StoredAll(info, s, n, e.values) == MergeOne(s, n, e)
  {
    StoredAllAppends(registry, info, s, n, e.values, room);
    var values := e.values;
    var read := ReadBacks(info, values);
    var o := ObservedExtension(e);
    var copies := seq(|o.values|, i requires 0 <= i < |o.values| => Copied(o.values[i]));
    forall i | 0 <= i < |values| ensures read[i] == copies[i] {
      assert o.values[i] == ObservedValue(values[i]);
    }
    assert read == copies;
  }

  lemma PackedFieldReadBack(registry: Registry, t: nat, s: Message, n: int, e: Extension, rest: bytes, room: nat)
    requires WellFormed(registry) && 0 < n < TWO_29 && (t, n) in registry
    requires TypedExtension(registry, registry[(t, n)], e, room) && FreshExtension(e) && FitsExtension(e)
    requires e.Repeated? && e.packed
    ensures Reads(registry, t, s, ExtensionBytes(n, e) + rest, MergeOne(s, n, e), rest, room)
  {
    hide Reads, FieldParsed, VarintBytes, PackedBytes, StoredAll, MergeOne, TagAt, TypedValue, ValuesSize;
    var info := registry[(t, n)];
    PackedSizePositive(registry, info, e.values, room);
    if e.values == [] {
      assert [] + rest == rest;
      ElementsStored(registry, info, s, n, e, room);
      NothingStored(info, s, n);
      ReadsNothing(registry, t, s, rest, room);
    } else {
      var b := VarintBytes(e.cachedSize) + (PackedBytes(info.fieldType, e.values) + rest);
      assert ExtensionBytes(n, e) + rest == TagBytes(n, LENGTH_DELIMITED) + b;
      TagRoundTrip(n, LENGTH_DELIMITED, b);
      PackedFieldParsed(registry, t, s, n, e, rest, room);
      ReadsOne(registry, t, s, TagBytes(n, LENGTH_DELIMITED) + b, n * 8 + LENGTH_DELIMITED, b, MergeOne(s, n, e), rest,
               room);
    }
  }

  lemma LengthThere(size: nat, body: bytes)
    requires size < TWO_32
    ensures Varint32At(VarintBytes(size) + body) == Done(size, body)
  {
    hide VarintBytes, Varint32At, Varint64At;
    VarintRoundTrip(size, body);
    assert size % TWO_32 == size;
  }

  lemma PackedIsSized(registry: Registry, info: ExtensionInfo, e: Extension, room: nat)
    requires TypedExtension(registry, info, e, room) && FreshExtension(e) && FitsExtension(e)
    requires e.Repeated? && e.packed && IsPrimitive(info.fieldType)
    ensures e.fieldType == info.fieldType && e.cachedSize % TWO_32 == |PackedBytes(e.fieldType, e.values)|
    ensures forall i | 0 <= i < |e.values| :: TypedValue(registry, info, e.values[i], room)
  {
    hide VarintBytes, PackedBytes, TypedValue, FreshValue, FitsValue, ValuesSize;
    PackedBytesMatchSize(registry, info, e.values, room);
  }

  lemma PackedFieldParsed(registry: Registry, t: nat, s: Message, n: int, e: Extension, rest: bytes, room: nat)
    requires WellFormed(registry) && 0 < n < TWO_29 && (t, n) in registry
    requires TypedExtension(registry, registry[(t, n)], e, room) && FreshExtension(e) && FitsExtension(e)
    requires e.Repeated? && e.packed
    ensures FieldParsed(registry, t, s, n * 8 + LENGTH_DELIMITED,
                        VarintBytes(e.cachedSize) + (PackedBytes(e.fieldType, e.values) + rest), room)
         == Done(MergeOne(s, n, e), rest)
  {
    hide FieldParsed, PackedParsed, VarintBytes, PackedBytes, StoredAll, MergeOne, Varint32At, TypedValue, ValuesSize;
    var info := registry[(t, n)];
    var size, body := e.cachedSize, PackedBytes(info.fieldType, e.values);
    var tail := body + rest;
    PackedIsSized(registry, info, e, room);
    assert size == |body| < TWO_31;
    ElementsStored(registry, info, s, n, e, room);
    hide TypedExtension, FreshExtension, FitsExtension;
    PackedReadBack(registry, info, s, n, e.values, room);
    LengthThere(size, tail);
    assert tail[..size] == body && tail[size..] == rest;
    RegisteredPackedField(registry, t, s, n, VarintBytes(size) + tail, room);
  }

  lemma NothingStored(info: ExtensionInfo, s: Message, n: int)
    ensures StoredAll(info, s, n, []) == s
  {
  }

  lemma {:induction false} PackedSizePositive(registry: Registry, info: ExtensionInfo, values: seq<Value>, room: nat)
    requires IsPrimitive(info.fieldType) && forall i | 0 <= i < |values| :: TypedValue(registry, info, values[i], room)
    ensures ValuesSize(info.fieldType, values) > 0 <==> values != []
  {
    if values != [] {
      assert TypedValue(registry, info, values[0], room);
      PrimitiveSizeExact(info.fieldType, values[0].n);
    }
  }

  lemma {:induction false} PackedReadBack(registry: Registry, info: ExtensionInfo, s: Message, n: int,
                                          values: seq<Value>, room: nat)
    requires IsPrimitive(info.fieldType) && forall i | 0 <= i < |values| :: TypedValue(registry, info, values[i], room)
    ensures PackedParsed(s, n, info, PackedBytes(info.fieldType, values)) == Some(StoredAll(info, s, n, values))
    decreases |values|
  {
    if values != [] {
      assert TypedValue(registry, info, values[0], room);
      var tail := PackedBytes(info.fieldType, values[1..]);
      PrimitiveRoundTrip(info.fieldType, values[0].n, tail);
      PackedReadBack(registry, info, Stored(s, n, info, values[0]), n, values[1..], room);
    }
  }

  // ----- The theorems -----

  /** `ParseFromArray`, which starts by clearing: here, from an empty message. */
  function ParsedAlone(registry: Registry, t: nat, b: bytes, room: nat): Option<Message>
    requires WellFormed(registry)
  {
    Parsed(registry, t, EMPTY, b, room)
  }

  /** What `SerializeToString` writes: `ByteSize` first, then the bytes. */
  function Serialized(m: Message): bytes {
    Bytes(Filled(m))
  }

  /** Serializing and parsing back into any message merges what can be observed. */
  lemma SerializedReadBack(registry: Registry, t: nat, s: Message, m: Message, rest: bytes, room: nat)
    requires WellFormed(registry) && Typed(registry, t, m, room) && Numbered(m) && Fits(m)
    ensures Parsed(registry, t, s, Serialized(m) + rest, room) == Parsed(registry, t, Merge(s, Observed(m)), rest, room)
  {
    var f := Filled(m);
    FilledStaysTyped(registry, t, m, room);
    FilledIsFresh(m);
    RangeReadBack(registry, t, s, f, rest, room, FIRST_NUMBER, PAST_NUMBERS);
    SliceWhole(f);
    ParsedThroughReads(registry, t, s, Bytes(f) + rest, Merge(s, Observed(m)), rest, room);
  }

  /** Parsing one serialized message after another gives what merging the second into the first lets one observe. */
  lemma ConcatenationIsMerge(registry: Registry, t: nat, a: Message, b: Message, room: nat)
    requires WellFormed(registry)
    requires Typed(registry, t, a, room) && Numbered(a) && Fits(a)
    requires Typed(registry, t, b, room) && Numbered(b) && Fits(b)
    ensures ParsedAlone(registry, t, Serialized(a) + Serialized(b), room) == Some(Observed(Merge(a, b)))
  {
    SerializedReadBack(registry, t, EMPTY, a, Serialized(b), room);
    MergeIntoEmpty(a);
    SerializedReadBack(registry, t, Observed(a), b, [], room);
    assert Serialized(b) + [] == Serialized(b);
    ObservedMerge(registry, t, a, b, room);
  }

  /** In particular, parsing what was serialized gives back what can be observed. */
  lemma ParseAfterSerialize(registry: Registry, t: nat, m: Message, room: nat)
    requires WellFormed(registry) && Typed(registry, t, m, room) && Numbered(m) && Fits(m)
    ensures ParsedAlone(registry, t, Serialized(m), room) == Some(Observed(m))
  {
    SerializedReadBack(registry, t, EMPTY, m, [], room);
    assert Serialized(m) + [] == Serialized(m);
    MergeIntoEmpty(m);
  }

  /** The same when the message parsed into was used before and cleared: what is left of it cannot be observed. */
  lemma ConcatenationIsMergeInPlace(registry: Registry, t: nat, used: Message, a: Message, b: Message, room: nat)
    requires WellFormed(registry) && Typed(registry, t, used, room)
    requires Typed(registry, t, a, room) && Numbered(a) && Fits(a)
    requires Typed(registry, t, b, room) && Numbered(b) && Fits(b)
    ensures var r := Parsed(registry, t, Cleared(used), Serialized(a) + Serialized(b), room);
      r.Some? && Observed(r.value) == Observed(Merge(a, b))
  {
    hide Parsed, Typed, Merge, Observed, Cleared, Serialized;
    var s, x, y := Cleared(used), Observed(a), Observed(b);
    SerializedReadBack(registry, t, s, a, Serialized(b), room);
    SerializedReadBack(registry, t, Merge(s, x), b, [], room);
    assert Serialized(b) + [] == Serialized(b);
    AtTheEnd(registry, t, Merge(Merge(s, x), y), room);
    ClearedIsBlank(registry, t, used, room);
    ObservedStaysTyped(registry, t, a, room);
    ObservedStaysTyped(registry, t, b, room);
    MergeStaysTyped(registry, t, s, x, room);
    ObservedMerge(registry, t, Merge(s, x), y, room);
    ObservedMerge(registry, t, s, x, room);
    ObservedMerge(registry, t, a, b, room);
    ObservedTwice(a);
    ObservedTwice(b);
    MergeIntoEmpty(a);
  }
}
