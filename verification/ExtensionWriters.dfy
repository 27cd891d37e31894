/** `ByteSize`, `SerializeWithCachedSizes` and `SerializeWithCachedSizesToArray`, step by step. */
module ExtensionWriters {
  import opened Wire
  import opened CodedStream
  import opened Extensions
  import opened ExtensionCodec

  // ----- Going through a map in the order of its keys -----

  /** `lower_bound`: the first key not below `from`. */
  method NextKey(m: map<int, Extension>, from: int) returns (found: bool, n: int)
    ensures found ==> n in m && n >= from && forall k | from <= k < n :: k !in m
    ensures !found ==> forall k | k >= from :: k !in m
  {
    var candidates := set k | k in m && k >= from;
    assert forall k | k >= from && k in m :: k in candidates;
    if candidates == {} { return false, from; }
    n :| n in candidates;
    var others := candidates - {n};
    while others != {}
      invariant n in candidates && others <= candidates
      invariant forall k | k in candidates && k !in others :: n <= k
    {
      var k :| k in others;
      if k < n { n := k; }
      others := others - {k};
    }
    found := true;
  }

  lemma {:induction false} RangesJoin(m: Message, lo: int, mid: int, hi: int)
    requires lo <= mid <= hi
    ensures RangeBytes(m, lo, hi) == RangeBytes(m, lo, mid) + RangeBytes(m, mid, hi)
    ensures RangeSize(m, lo, hi) == RangeSize(m, lo, mid) + RangeSize(m, mid, hi)
    decreases mid - lo
  {
    if lo < mid { RangesJoin(m, lo + 1, mid, hi); }
  }

  lemma {:induction false} EmptyRange(m: Message, lo: int, hi: int)
    requires forall k | lo <= k < hi :: k !in m.extensions
    ensures RangeBytes(m, lo, hi) == [] && RangeSize(m, lo, hi) == 0
    decreases hi - lo
  {
    if lo < hi { EmptyRange(m, lo + 1, hi); }
  }

  /** From one key to just past the next. */
  lemma NextInRange(m: Message, lo: int, done: int, n: int)
    requires lo <= done <= n && n in m.extensions && forall k | done <= k < n :: k !in m.extensions
    ensures RangeBytes(m, lo, n + 1) == RangeBytes(m, lo, done) + ExtensionBytes(n, m.extensions[n])
    ensures RangeSize(m, lo, n + 1) == RangeSize(m, lo, done) + ExtensionSize(n, m.extensions[n])
  {
    hide ExtensionBytes, ExtensionSize;
    RangesJoin(m, lo, done, n + 1);
    RangesJoin(m, done, n, n + 1);
    EmptyRange(m, done, n);
    assert RangeBytes(m, n + 1, n + 1) == [];
    assert RangeBytes(m, n, n + 1) == ExtensionBytes(n, m.extensions[n]);
  }

  lemma RestOfRange(m: Message, lo: int, done: int, hi: int)
    requires lo <= done && forall k | done <= k < hi :: k !in m.extensions
    ensures done <= hi ==>
      RangeBytes(m, lo, hi) == RangeBytes(m, lo, done) && RangeSize(m, lo, hi) == RangeSize(m, lo, done)
  {
    if done <= hi {
      RangesJoin(m, lo, done, hi);
      EmptyRange(m, done, hi);
    }
  }

  // ----- To a stream -----

  /** The extensions numbered from `start` up to `end`, in order. */
  method SerializeWithCachedSizes(m: Message, start: int, end: int, output: CodedOutputStream,
                                  ghost registry: Registry, ghost t: nat, ghost room: nat)
    requires Typed(registry, t, m, room)
    modifies output
    ensures output.written == old(output.written) + RangeBytes(m, start, end)
    decreases m
  {
    hide RangeBytes, RangeSize, ExtensionBytes, TypedExtension;
    ghost var done := start;
    EmptyRange(m, start, start);
    var found, n := NextKey(m.extensions, start);
    while found && n < end
      invariant start <= done && (done == start || done <= end)
      invariant output.written == old(output.written) + RangeBytes(m, start, done)
      invariant found ==> n >= done && n in m.extensions && forall k | done <= k < n :: k !in m.extensions
      invariant !found ==> forall k | k >= done :: k !in m.extensions
      decreases end - done
    {
      NextInRange(m, start, done, n);
      SerializeExtension(n, m.extensions[n], output, registry, registry[(t, n)], room);
      done := n + 1;
      found, n := NextKey(m.extensions, n + 1);
    }
    RestOfRange(m, start, done, end);
    if done > end { EmptyRange(m, start, end); }
  }

  method WriteTag(n: int, wireType: nat, output: CodedOutputStream)
    requires wireType < 8
    modifies output
    ensures output.written == old(output.written) + VarintBytes(TagOf(n, wireType))
  {
    output.WriteVarint(TagOf(n, wireType));
  }

  method SerializeExtension(n: int, e: Extension, output: CodedOutputStream,
                            ghost registry: Registry, ghost info: ExtensionInfo, ghost room: nat)
    requires TypedExtension(registry, info, e, room)
    modifies output
    ensures output.written == old(output.written) + ExtensionBytes(n, e)
    decreases e
  {
    hide VarintBytes, ValueBytes, TypedValue;
    match e {
      case Singular(t, cleared, value) =>
        if cleared { return; }
        WriteTag(n, WireTypeOf(t), output);
        WriteValue(t, value, output, registry, info, room);
      case Repeated(t, packed, values, cached) =>
        if packed {
          if cached == 0 { return; }
          WriteTag(n, LENGTH_DELIMITED, output);
          output.WriteVarint(cached % TWO_32);
          WritePacked(t, values, output, registry, info, room);
        } else {
          WriteFields(n, t, values, output, registry, info, room);
        }
    }
  }

  method WritePacked(t: FieldType, values: seq<Value>, output: CodedOutputStream,
                     ghost registry: Registry, ghost info: ExtensionInfo, ghost room: nat)
    requires t == info.fieldType && forall i | 0 <= i < |values| :: TypedValue(registry, info, values[i], room)
    modifies output
    ensures output.written == old(output.written) + PackedBytes(t, values)
    decreases values
  {
    hide ValueBytes, TypedValue;
    for i := 0 to |values|
      invariant output.written + PackedBytes(t, values[i..]) == old(output.written) + PackedBytes(t, values)
    {
      assert values[i..][1..] == values[i + 1..];
      ghost var before := output.written;
      WriteValue(t, values[i], output, registry, info, room);
      assert before + PackedBytes(t, values[i..]) == output.written + PackedBytes(t, values[i + 1..]);
    }
    assert output.written + [] == output.written;
  }

  method WriteFields(n: int, t: FieldType, values: seq<Value>, output: CodedOutputStream,
                     ghost registry: Registry, ghost info: ExtensionInfo, ghost room: nat)
    requires t == info.fieldType && forall i | 0 <= i < |values| :: TypedValue(registry, info, values[i], room)
    modifies output
    ensures output.written == old(output.written) + FieldsBytes(n, t, values)
    decreases values
  {
    hide ValueBytes, TypedValue, VarintBytes;
    for i := 0 to |values|
      invariant output.written + FieldsBytes(n, t, values[i..]) == old(output.written) + FieldsBytes(n, t, values)
    {
      assert values[i..][1..] == values[i + 1..];
      ghost var before := output.written;
      WriteTag(n, WireTypeOf(t), output);
      WriteValue(t, values[i], output, registry, info, room);
      assert before + FieldsBytes(n, t, values[i..]) == output.written + FieldsBytes(n, t, values[i + 1..]);
    }
    assert output.written + [] == output.written;
  }

  /** A nested message writes the size it remembers. */
  method WriteValue(t: FieldType, v: Value, output: CodedOutputStream,
                    ghost registry: Registry, ghost info: ExtensionInfo, ghost room: nat)
    requires t == info.fieldType && TypedValue(registry, info, v, room)
    modifies output
    ensures output.written == old(output.written) + ValueBytes(t, v)
    decreases v
  {
    hide VarintBytes, RangeBytes, PrimitiveBytes;
    match v {
      case Num(n) => output.WritePrimitive(t, n);
      case Str(s) =>
        output.WriteVarint(|s| % TWO_32);
        output.WriteString(s);
      case Msg(m) =>
        output.WriteVarint(m.cachedSize % TWO_32);
        SerializeWithCachedSizes(m, FIRST_NUMBER, PAST_NUMBERS, output, registry, info.messageType, room - 1);
    }
  }

  // ----- To an array -----

  method SerializeWithCachedSizesToArray(m: Message, start: int, end: int, buffer: array<byte>, target: nat,
                                         ghost registry: Registry, ghost t: nat, ghost room: nat) returns (past: nat)
    requires Typed(registry, t, m, room) && target + |RangeBytes(m, start, end)| <= buffer.Length
    modifies buffer
    ensures past == target + |RangeBytes(m, start, end)|
    ensures buffer[..] == Overwrite(old(buffer[..]), target, RangeBytes(m, start, end))
    decreases m
  {
    hide RangeBytes, RangeSize, ExtensionBytes, TypedExtension, Overwrite;
    ghost var was, done := buffer[..], start;
    EmptyRange(m, start, start);
    OverwriteNothing(was, target);
    past := target;
    var found, n := NextKey(m.extensions, start);
    while found && n < end
      invariant start <= done && (done == start || done <= end)
      invariant past == target + |RangeBytes(m, start, done)| && past <= buffer.Length
      invariant buffer[..] == Overwrite(was, target, RangeBytes(m, start, done))
      invariant found ==> n >= done && n in m.extensions && forall k | done <= k < n :: k !in m.extensions
      invariant !found ==> forall k | k >= done :: k !in m.extensions
      decreases end - done
    {
      NextInRange(m, start, done, n);
      RangesJoin(m, start, n + 1, end);
      past := SerializeExtensionToArray(n, m.extensions[n], buffer, past, registry, registry[(t, n)], room);
      OverwriteThen(was, target, RangeBytes(m, start, done), ExtensionBytes(n, m.extensions[n]));
      done := n + 1;
      found, n := NextKey(m.extensions, n + 1);
    }
    RestOfRange(m, start, done, end);
    if done > end { EmptyRange(m, start, end); }
  }

  method WriteTagToArray(n: int, wireType: nat, buffer: array<byte>, target: nat) returns (past: nat)
    requires wireType < 8 && target + |VarintBytes(TagOf(n, wireType))| <= buffer.Length
    modifies buffer
    ensures past == target + |VarintBytes(TagOf(n, wireType))|
    ensures buffer[..] == Overwrite(old(buffer[..]), target, VarintBytes(TagOf(n, wireType)))
  {
    past := CodedOutputStream.WriteVarintToArray(TagOf(n, wireType), buffer, target);
  }

  method SerializeExtensionToArray(n: int, e: Extension, buffer: array<byte>, target: nat,
                                   ghost registry: Registry, ghost info: ExtensionInfo, ghost room: nat)
                                     returns (past: nat)
    requires TypedExtension(registry, info, e, room) && target + |ExtensionBytes(n, e)| <= buffer.Length
    modifies buffer
    ensures past == target + |ExtensionBytes(n, e)|
    ensures buffer[..] == Overwrite(old(buffer[..]), target, ExtensionBytes(n, e))
    decreases e
  {
    hide VarintBytes, ValueBytes, TypedValue, PackedBytes, FieldsBytes, Overwrite;
    ghost var was := buffer[..];
    OverwriteNothing(was, target);
    match e {
      case Singular(t, cleared, value) =>
        if cleared { return target; }
        past := WriteTagToArray(n, WireTypeOf(t), buffer, target);
        past := WriteValueToArray(t, value, buffer, past, registry, info, room);
        OverwriteThen(was, target, VarintBytes(TagOf(n, WireTypeOf(t))), ValueBytes(t, value));
      case Repeated(t, packed, values, cached) =>
        if packed {
          if cached == 0 { return target; }
          past := WriteTagToArray(n, LENGTH_DELIMITED, buffer, target);
          past := CodedOutputStream.WriteVarintToArray(cached % TWO_32, buffer, past);
          OverwriteThen(was, target, VarintBytes(TagOf(n, LENGTH_DELIMITED)), VarintBytes(cached % TWO_32));
          past := WritePackedToArray(t, values, buffer, past, registry, info, room);
          OverwriteThen(was, target, VarintBytes(TagOf(n, LENGTH_DELIMITED)) + VarintBytes(cached % TWO_32),
                        PackedBytes(t, values));
        } else {
          past := WriteFieldsToArray(n, t, values, buffer, target, registry, info, room);
        }
    }
  }

  lemma {:induction false} PackedJoin(t: FieldType, values: seq<Value>, i: nat)
    requires i < |values|
    ensures PackedBytes(t, values[..i + 1]) == PackedBytes(t, values[..i]) + ValueBytes(t, values[i])
    ensures |PackedBytes(t, values[..i + 1])| <= |PackedBytes(t, values)|
    decreases |values|
  {
    hide ValueBytes;
    assert values[..i + 1][0] == values[0] && values[..i + 1][1..] == values[1..][..i];
    if i > 0 {
      PackedJoin(t, values[1..], i - 1);
      assert values[..i][0] == values[0] && values[..i][1..] == values[1..][..i - 1];
    }
  }

  lemma {:induction false} FieldsJoin(n: int, t: FieldType, values: seq<Value>, i: nat)
    requires i < |values|
    ensures FieldsBytes(n, t, values[..i + 1])
         == FieldsBytes(n, t, values[..i]) + (VarintBytes(TagOf(n, WireTypeOf(t))) + ValueBytes(t, values[i]))
    ensures |FieldsBytes(n, t, values[..i + 1])| <= |FieldsBytes(n, t, values)|
    decreases |values|
  {
    hide ValueBytes, VarintBytes, TagOf, WireTypeOf;
    assert values[..i + 1][0] == values[0] && values[..i + 1][1..] == values[1..][..i];
    if i > 0 {
      FieldsJoin(n, t, values[1..], i - 1);
      assert values[..i][0] == values[0] && values[..i][1..] == values[1..][..i - 1];
    }
  }

  method WritePackedToArray(t: FieldType, values: seq<Value>, buffer: array<byte>, target: nat,
                            ghost registry: Registry, ghost info: ExtensionInfo, ghost room: nat) returns (past: nat)
    requires t == info.fieldType && forall i | 0 <= i < |values| :: TypedValue(registry, info, values[i], room)
    requires target + |PackedBytes(t, values)| <= buffer.Length
    modifies buffer
    ensures past == target + |PackedBytes(t, values)|
    ensures buffer[..] == Overwrite(old(buffer[..]), target, PackedBytes(t, values))
    decreases values
  {
    hide ValueBytes, TypedValue, Overwrite;
    ghost var was := buffer[..];
    OverwriteNothing(was, target);
    past := target;
    for i := 0 to |values|
      invariant past == target + |PackedBytes(t, values[..i])| && past <= buffer.Length
      invariant buffer[..] == Overwrite(was, target, PackedBytes(t, values[..i]))
    {
      PackedJoin(t, values, i);
      past := WriteValueToArray(t, values[i], buffer, past, registry, info, room);
      OverwriteThen(was, target, PackedBytes(t, values[..i]), ValueBytes(t, values[i]));
    }
    assert values[..|values|] == values;
  }

  method WriteFieldsToArray(n: int, t: FieldType, values: seq<Value>, buffer: array<byte>, target: nat,
                            ghost registry: Registry, ghost info: ExtensionInfo, ghost room: nat) returns (past: nat)
    requires t == info.fieldType && forall i | 0 <= i < |values| :: TypedValue(registry, info, values[i], room)
    requires target + |FieldsBytes(n, t, values)| <= buffer.Length
    modifies buffer
    ensures past == target + |FieldsBytes(n, t, values)|
    ensures buffer[..] == Overwrite(old(buffer[..]), target, FieldsBytes(n, t, values))
    decreases values
  {
    hide ValueBytes, VarintBytes, TypedValue, Overwrite;
    ghost var was := buffer[..];
    OverwriteNothing(was, target);
    past := target;
    for i := 0 to |values|
      invariant past == target + |FieldsBytes(n, t, values[..i])| && past <= buffer.Length
      invariant buffer[..] == Overwrite(was, target, FieldsBytes(n, t, values[..i]))
    {
      FieldsJoin(n, t, values, i);
      ghost var tag, done := VarintBytes(TagOf(n, WireTypeOf(t))), FieldsBytes(n, t, values[..i]);
      past := WriteTagToArray(n, WireTypeOf(t), buffer, past);
      OverwriteThen(was, target, done, tag);
      past := WriteValueToArray(t, values[i], buffer, past, registry, info, room);
      OverwriteThen(was, target, done + tag, ValueBytes(t, values[i]));
      assert done + tag + ValueBytes(t, values[i]) == done + (tag + ValueBytes(t, values[i]));
    }
    assert values[..|values|] == values;
  }

  method WriteValueToArray(t: FieldType, v: Value, buffer: array<byte>, target: nat,
                           ghost registry: Registry, ghost info: ExtensionInfo, ghost room: nat) returns (past: nat)
    requires t == info.fieldType && TypedValue(registry, info, v, room) && target + |ValueBytes(t, v)| <= buffer.Length
    modifies buffer
    ensures past == target + |ValueBytes(t, v)|
    ensures buffer[..] == Overwrite(old(buffer[..]), target, ValueBytes(t, v))
    decreases v
  {
    hide VarintBytes, RangeBytes, PrimitiveBytes, Overwrite;
    ghost var was := buffer[..];
    match v {
      case Num(n) => past := CodedOutputStream.WritePrimitiveToArray(t, n, buffer, target);
      case Str(s) =>
        past := CodedOutputStream.WriteVarintToArray(|s| % TWO_32, buffer, target);
        past := CodedOutputStream.WriteStringToArray(s, buffer, past);
        OverwriteThen(was, target, VarintBytes(|s| % TWO_32), s);
      case Msg(m) =>
        past := CodedOutputStream.WriteVarintToArray(m.cachedSize % TWO_32, buffer, target);
        past := SerializeWithCachedSizesToArray(m, FIRST_NUMBER, PAST_NUMBERS, buffer, past, registry, info.messageType,
                                                room - 1);
        OverwriteThen(was, target, VarintBytes(m.cachedSize % TWO_32), Bytes(m));
    }
  }

  // ----- ByteSize -----

  /** The extensions numbered below `done` have their sizes filled in. */
  ghost function FilledBelow(m: Message, done: int): Message {
    m.(extensions := map n | n in m.extensions ::
       if n < done then FilledExtension(m.extensions[n]) else m.extensions[n])
  }

  /** Adds up the sizes and returns the message with the sizes it remembers brought up to date. */
  method ByteSize(m: Message) returns (size: nat, filled: Message)
    requires Positive(m)
    ensures size == Size(m) && filled == Filled(m)
    decreases m
  {
    hide RangeBytes, RangeSize, ExtensionSize, ExtensionBytes, FilledExtension, PositiveExtension;
    size, filled := 0, m;
    ghost var done := FIRST_NUMBER;
    EmptyRange(m, done, done);
    assert filled.extensions == FilledBelow(m, done).extensions;
    var found, n := NextKey(m.extensions, FIRST_NUMBER);
    while found
      invariant FIRST_NUMBER <= done <= PAST_NUMBERS && size == RangeSize(m, FIRST_NUMBER, done)
      invariant filled == FilledBelow(m, done)
      invariant found ==> n >= done && n in m.extensions && forall k | done <= k < n :: k !in m.extensions
      invariant !found ==> forall k | k >= done :: k !in m.extensions
      decreases PAST_NUMBERS - done, found
    {
      NextInRange(m, FIRST_NUMBER, done, n);
      var part, e := ExtensionByteSize(n, m.extensions[n]);
      size := size + part;
      filled := filled.(extensions := filled.extensions[n := e]);
      assert filled.extensions == FilledBelow(m, n + 1).extensions;
      done := n + 1;
      found, n := NextKey(m.extensions, n + 1);
    }
    RestOfRange(m, FIRST_NUMBER, done, PAST_NUMBERS);
    assert filled.extensions == Filled(m).extensions;
  }

  /** All the way down, field numbers are positive `int`s. */
  ghost predicate Positive(m: Message)
    decreases m
  {
    forall n | n in m.extensions :: FIRST_NUMBER <= n < PAST_NUMBERS && PositiveExtension(m.extensions[n])
  }

  ghost predicate PositiveExtension(e: Extension)
    decreases e
  {
    match e
    case Singular(_, _, value) => PositiveValue(value)
    case Repeated(_, _, values, _) => forall i | 0 <= i < |values| :: PositiveValue(values[i])
  }

  ghost predicate PositiveValue(v: Value)
    decreases v
  {
    v.Msg? ==> Positive(v.m)
  }

  method ExtensionByteSize(n: int, e: Extension) returns (size: nat, filled: Extension)
    requires PositiveExtension(e)
    ensures size == ExtensionSize(n, e) && filled == FilledExtension(e)
    decreases e
  {
    hide ValueSize, FilledValue, PositiveValue;
    match e {
      case Singular(t, cleared, value) =>
        if cleared { return 0, e; }
        var part, v := ValueByteSize(t, value);
        size, filled := TagSizeOf(n) + part, Singular(t, cleared, v);
      case Repeated(t, packed, values, cached) =>
        var data, vs := ValuesByteSize(t, values);
        filled := Repeated(t, packed, vs, if packed then data else cached);
        assert filled.values == FilledExtension(e).values;
        size := if !packed then TagSizeOf(n) * |values| + data
                else if data > 0 then data + VarintSize32(data % TWO_32) + VarintSize32(TagOf(n, LENGTH_DELIMITED))
                else 0;
    }
  }

  method ValuesByteSize(t: FieldType, values: seq<Value>) returns (size: nat, filled: seq<Value>)
    requires forall i | 0 <= i < |values| :: PositiveValue(values[i])
    ensures size == ValuesSize(t, values)
    ensures |filled| == |values| && forall i | 0 <= i < |values| :: filled[i] == FilledValue(values[i])
    decreases values
  {
    hide ValueSize, FilledValue, PositiveValue;
    size, filled := 0, [];
    for i := 0 to |values|
      invariant size + ValuesSize(t, values[i..]) == ValuesSize(t, values)
      invariant |filled| == i && forall k | 0 <= k < i :: filled[k] == FilledValue(values[k])
    {
      assert values[i..][1..] == values[i + 1..];
      var part, v := ValueByteSize(t, values[i]);
      size, filled := size + part, filled + [v];
    }
  }

  method ValueByteSize(t: FieldType, v: Value) returns (size: nat, filled: Value)
    requires PositiveValue(v)
    ensures size == ValueSize(t, v) && filled == FilledValue(v)
    decreases v
  {
    hide RangeSize;
    match v {
      case Num(n) => size, filled := if IsPrimitive(t) && InRange(t, n) then PrimitiveSize(t, n) else 0, v;
      case Str(s) => size, filled := VarintSize32(|s| % TWO_32) + |s|, v;
      case Msg(m) =>
        var inner, m' := ByteSize(m);
        size, filled := VarintSize32(inner % TWO_32) + inner, Msg(m'.(cachedSize := inner));
    }
  }

  lemma {:induction false} TypedIsPositive(registry: Registry, t: nat, m: Message, room: nat)
    requires Typed(registry, t, m, room)
    ensures Positive(m)
    decreases m
  {
    forall n | n in m.extensions ensures PositiveExtension(m.extensions[n]) {
      TypedExtensionIsPositive(registry, registry[(t, n)], m.extensions[n], room);
    }
  }

  lemma {:induction false} TypedExtensionIsPositive(registry: Registry, info: ExtensionInfo, e: Extension, room: nat)
    requires TypedExtension(registry, info, e, room)
    ensures PositiveExtension(e)
    decreases e
  {
    match e
    case Singular(_, _, value) =>
      if value.Msg? { TypedIsPositive(registry, info.messageType, value.m, room - 1); }
    case Repeated(_, _, values, _) =>
      forall i | 0 <= i < |values| ensures PositiveValue(values[i]) {
        assert TypedValue(registry, info, values[i], room);
        if values[i].Msg? { TypedIsPositive(registry, info.messageType, values[i].m, room - 1); }
      }
  }

  // ----- All three agree -----

  /** `ByteSize`, then the stream form: as many bytes as were counted. */
  method SerializeToStream(m: Message, output: CodedOutputStream, ghost registry: Registry, ghost t: nat,
                           ghost room: nat)
    returns (size: nat, filled: Message)
    requires Typed(registry, t, m, room) && Fits(m)
    modifies output
    ensures filled == Filled(m) && output.written == old(output.written) + Bytes(filled)
    ensures size == |Bytes(filled)| == Size(m)
  {
    hide Typed, Fits, Fresh, RangeBytes, RangeSize, Filled;
    TypedIsPositive(registry, t, m, room);
    size, filled := ByteSize(m);
    FilledIsFresh(m);
    FilledStaysTyped(registry, t, m, room);
    BytesMatchSize(registry, t, filled, room, FIRST_NUMBER, PAST_NUMBERS);
    SerializeWithCachedSizes(filled, FIRST_NUMBER, PAST_NUMBERS, output, registry, t, room);
  }

  /** `ByteSize`, then the array form into an array of just that size: the same bytes, up to its very end. */
  method SerializeToArray(m: Message, ghost registry: Registry, ghost t: nat, ghost room: nat)
    returns (buffer: array<byte>, filled: Message)
    requires Typed(registry, t, m, room) && Fits(m)
    ensures fresh(buffer) && filled == Filled(m)
    ensures buffer[..] == Bytes(filled) && buffer.Length == Size(m)
  {
    hide Typed, Fits, Fresh, RangeBytes, RangeSize, Filled;
    TypedIsPositive(registry, t, m, room);
    var size;
    size, filled := ByteSize(m);
    FilledIsFresh(m);
    FilledStaysTyped(registry, t, m, room);
    BytesMatchSize(registry, t, filled, room, FIRST_NUMBER, PAST_NUMBERS);
    buffer := new byte[size];
    var past := SerializeWithCachedSizesToArray(filled, FIRST_NUMBER, PAST_NUMBERS, buffer, 0, registry, t, room);
  }
}
