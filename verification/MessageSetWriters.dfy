/** `MessageSetByteSize` and the two serializers of the MessageSet format, step by step. */
module MessageSetWriters {
  import opened Wire
  import opened CodedStream
  import opened Extensions
  import opened ExtensionCodec
  import opened ExtensionWriters
  import opened MessageSets

  lemma {:induction false} SetRangesJoin(m: Message, lo: int, mid: int, hi: int)
    requires lo <= mid <= hi
    ensures SetRangeBytes(m, lo, hi) == SetRangeBytes(m, lo, mid) + SetRangeBytes(m, mid, hi)
    ensures SetRangeSize(m, lo, hi) == SetRangeSize(m, lo, mid) + SetRangeSize(m, mid, hi)
    decreases mid - lo
  {
    hide ItemBytes, ItemSize;
    if lo < mid { SetRangesJoin(m, lo + 1, mid, hi); }
  }

  lemma {:induction false} EmptySetRange(m: Message, lo: int, hi: int)
    requires forall k | lo <= k < hi :: k !in m.extensions
    ensures SetRangeBytes(m, lo, hi) == [] && SetRangeSize(m, lo, hi) == 0
    decreases hi - lo
  {
    if lo < hi { EmptySetRange(m, lo + 1, hi); }
  }

  /** From one key to just past the next. */
  lemma NextInSetRange(m: Message, lo: int, done: int, n: int)
    requires lo <= done <= n && n in m.extensions && forall k | done <= k < n :: k !in m.extensions
    ensures SetRangeBytes(m, lo, n + 1) == SetRangeBytes(m, lo, done) + ItemBytes(n, m.extensions[n])
    ensures SetRangeSize(m, lo, n + 1) == SetRangeSize(m, lo, done) + ItemSize(n, m.extensions[n])
  {
    hide ItemBytes, ItemSize;
    SetRangesJoin(m, lo, done, n + 1);
    SetRangesJoin(m, done, n, n + 1);
    EmptySetRange(m, done, n);
    assert SetRangeBytes(m, n + 1, n + 1) == [];
    assert SetRangeBytes(m, n, n + 1) == ItemBytes(n, m.extensions[n]);
  }

  lemma RestOfSet(m: Message, done: int)
    requires FIRST_NUMBER <= done <= PAST_NUMBERS && forall k | k >= done :: k !in m.extensions
    ensures SetBytes(m) == SetRangeBytes(m, FIRST_NUMBER, done) && SetSize(m) == SetRangeSize(m, FIRST_NUMBER, done)
  {
    SetRangesJoin(m, FIRST_NUMBER, done, PAST_NUMBERS);
    EmptySetRange(m, done, PAST_NUMBERS);
  }

  /** `SerializeMessageSetItemWithCachedSizes`. */
  method SerializeItem(n: int, e: Extension, output: CodedOutputStream,
                       ghost registry: Registry, ghost info: ExtensionInfo, ghost room: nat)
    requires TypedExtension(registry, info, e, room)
    modifies output
    ensures output.written == old(output.written) + ItemBytes(n, e)
  {
    hide VarintBytes, ValueBytes, ExtensionBytes, TypedValue;
    if e.fieldType != MESSAGE || e.Repeated? {
      SerializeExtension(n, e, output, registry, info, room);
      return;
    }
    if e.cleared { return; }
    TagConstants();
    output.WriteVarint(ITEM_START_TAG);
    output.WriteVarint(TYPE_ID_TAG);
    output.WriteVarint(n % TWO_32);
    output.WriteVarint(MESSAGE_TAG);
    WriteValue(MESSAGE, e.value, output, registry, info, room);
    output.WriteVarint(ITEM_END_TAG);
  }

  /** `SerializeMessageSetItemWithCachedSizesToArray`. */
  method SerializeItemToArray(n: int, e: Extension, buffer: array<byte>, target: nat,
                              ghost registry: Registry, ghost info: ExtensionInfo, ghost room: nat) returns (past: nat)
    requires TypedExtension(registry, info, e, room) && target + |ItemBytes(n, e)| <= buffer.Length
    modifies buffer
    ensures past == target + |ItemBytes(n, e)|
    ensures buffer[..] == Overwrite(old(buffer[..]), target, ItemBytes(n, e))
  {
    hide VarintBytes, ValueBytes, ExtensionBytes, TypedValue, Overwrite;
    if e.fieldType != MESSAGE || e.Repeated? {
      past := SerializeExtensionToArray(n, e, buffer, target, registry, info, room);
      return;
    }
    ghost var was := buffer[..];
    OverwriteNothing(was, target);
    if e.cleared { return target; }
    ghost var start, typeId, number := VarintBytes(ITEM_START_TAG), VarintBytes(TYPE_ID_TAG), VarintBytes(n % TWO_32);
    ghost var message, body, end := VarintBytes(MESSAGE_TAG), ValueBytes(MESSAGE, e.value), VarintBytes(ITEM_END_TAG);
    assert ItemBytes(n, e) == start + typeId + number + message + body + end;
    past := CodedOutputStream.WriteVarintToArray(ITEM_START_TAG, buffer, target);
    past := CodedOutputStream.WriteVarintToArray(TYPE_ID_TAG, buffer, past);
    OverwriteThen(was, target, start, typeId);
    past := CodedOutputStream.WriteVarintToArray(n % TWO_32, buffer, past);
    OverwriteThen(was, target, start + typeId, number);
    past := CodedOutputStream.WriteVarintToArray(MESSAGE_TAG, buffer, past);
    OverwriteThen(was, target, start + typeId + number, message);
    past := WriteValueToArray(MESSAGE, e.value, buffer, past, registry, info, room);
    OverwriteThen(was, target, start + typeId + number + message, body);
    past := CodedOutputStream.WriteVarintToArray(ITEM_END_TAG, buffer, past);
    OverwriteThen(was, target, start + typeId + number + message + body, end);
  }

  /** `MessageSetItemByteSize`. */
  method ItemByteSize(n: int, e: Extension) returns (size: nat, filled: Extension)
    requires PositiveExtension(e)
    ensures size == ItemSize(n, e) && filled == FilledExtension(e)
  {
    if e.fieldType != MESSAGE || e.Repeated? {
      size, filled := ExtensionByteSize(n, e);
      return;
    }
    if e.cleared { return 0, e; }
    var part, v := ValueByteSize(MESSAGE, e.value);
    size, filled := ITEM_TAGS_SIZE + VarintSize32(n % TWO_32) + part, e.(value := v);
  }

  /** `MessageSetByteSize`. */
  method SetByteSize(m: Message) returns (size: nat, filled: Message)
    requires Positive(m)
    ensures size == SetSize(m) && filled == Filled(m)
  {
    hide SetRangeBytes, SetRangeSize, ItemSize, ItemBytes, FilledExtension, PositiveExtension;
    size, filled := 0, m;
    ghost var done := FIRST_NUMBER;
    EmptySetRange(m, done, done);
    assert filled.extensions == FilledBelow(m, done).extensions;
    var found, n := NextKey(m.extensions, FIRST_NUMBER);
    while found
      invariant FIRST_NUMBER <= done <= PAST_NUMBERS && size == SetRangeSize(m, FIRST_NUMBER, done)
      invariant filled == FilledBelow(m, done)
      invariant found ==> n >= done && n in m.extensions && forall k | done <= k < n :: k !in m.extensions
      invariant !found ==> forall k | k >= done :: k !in m.extensions
      decreases PAST_NUMBERS - done, found
    {
      NextInSetRange(m, FIRST_NUMBER, done, n);
      var part, e := ItemByteSize(n, m.extensions[n]);
      size := size + part;
      filled := filled.(extensions := filled.extensions[n := e]);
      assert filled.extensions == FilledBelow(m, n + 1).extensions;
      done := n + 1;
      found, n := NextKey(m.extensions, n + 1);
    }
    RestOfSet(m, done);
    assert filled.extensions == Filled(m).extensions;
  }

  /** `MessageSetByteSize`, then `SerializeMessageSetWithCachedSizes`: as many bytes as were counted. */
  method SerializeSet(m: Message, output: CodedOutputStream, ghost registry: Registry, ghost t: nat, ghost room: nat)
    returns (size: nat, filled: Message)
    requires Typed(registry, t, m, room) && Fits(m)
    modifies output
    ensures filled == Filled(m) && output.written == old(output.written) + SetBytes(filled)
    ensures size == |SetBytes(filled)| == SetSize(m)
  {
    hide Fits, Fresh, SetRangeBytes, SetRangeSize, Filled, TypedExtension, ItemBytes;
    TypedIsPositive(registry, t, m, room);
    size, filled := SetByteSize(m);
    FilledSet(registry, t, m, room);
    ghost var done := FIRST_NUMBER;
    EmptySetRange(filled, done, done);
    var found, n := NextKey(filled.extensions, FIRST_NUMBER);
    while found
      invariant FIRST_NUMBER <= done <= PAST_NUMBERS
      invariant output.written == old(output.written) + SetRangeBytes(filled, FIRST_NUMBER, done)
      invariant found ==> n >= done && n in filled.extensions && forall k | done <= k < n :: k !in filled.extensions
      invariant !found ==> forall k | k >= done :: k !in filled.extensions
      decreases PAST_NUMBERS - done, found
    {
      NextInSetRange(filled, FIRST_NUMBER, done, n);
      SerializeItem(n, filled.extensions[n], output, registry, registry[(t, n)], room);
      done := n + 1;
      found, n := NextKey(filled.extensions, n + 1);
    }
    RestOfSet(filled, done);
  }

  /**
   * `MessageSetByteSize`, then `SerializeMessageSetWithCachedSizesToArray` into an array of that size: the same bytes.
   */
  method SerializeSetToArray(m: Message, ghost registry: Registry, ghost t: nat, ghost room: nat)
    returns (buffer: array<byte>, filled: Message)
    requires Typed(registry, t, m, room) && Fits(m)
    ensures fresh(buffer) && filled == Filled(m)
    ensures buffer[..] == SetBytes(filled) && buffer.Length == SetSize(m)
  {
    hide Fits, Fresh, SetRangeBytes, SetRangeSize, Filled, TypedExtension, ItemBytes, Overwrite;
    TypedIsPositive(registry, t, m, room);
    var size;
    size, filled := SetByteSize(m);
    FilledSet(registry, t, m, room);
    buffer := new byte[size];
    ghost var was, done := buffer[..], FIRST_NUMBER;
    EmptySetRange(filled, done, done);
    OverwriteNothing(was, 0);
    var past := 0;
    var found, n := NextKey(filled.extensions, FIRST_NUMBER);
    while found
      invariant FIRST_NUMBER <= done <= PAST_NUMBERS
      invariant past == |SetRangeBytes(filled, FIRST_NUMBER, done)| <= buffer.Length
      invariant buffer[..] == Overwrite(was, 0, SetRangeBytes(filled, FIRST_NUMBER, done))
      invariant found ==> n >= done && n in filled.extensions && forall k | done <= k < n :: k !in filled.extensions
      invariant !found ==> forall k | k >= done :: k !in filled.extensions
      decreases PAST_NUMBERS - done, found
    {
      NextInSetRange(filled, FIRST_NUMBER, done, n);
      SetRangesJoin(filled, FIRST_NUMBER, n + 1, PAST_NUMBERS);
      past := SerializeItemToArray(n, filled.extensions[n], buffer, past, registry, registry[(t, n)], room);
      OverwriteThen(was, 0, SetRangeBytes(filled, FIRST_NUMBER, done), ItemBytes(n, filled.extensions[n]));
      done := n + 1;
      found, n := NextKey(filled.extensions, n + 1);
    }
    RestOfSet(filled, done);
    OverwriteAll(was, SetBytes(filled));
  }

  lemma OverwriteAll(was: bytes, b: bytes)
    requires |was| == |b|
    ensures Overwrite(was, 0, b) == b
  {
  }

  /** What filling in the sizes means for a set: typed as before, and counted right. */
  lemma FilledSet(registry: Registry, t: nat, m: Message, room: nat)
    requires Typed(registry, t, m, room) && Fits(m)
    ensures Typed(registry, t, Filled(m), room) && |SetBytes(Filled(m))| == SetSize(m)
  {
    hide Typed, Fits, Fresh;
    FilledIsFresh(m);
    FilledStaysTyped(registry, t, m, room);
    SetBytesMatchSize(registry, t, Filled(m), room, FIRST_NUMBER, PAST_NUMBERS);
    FilledSetSize(m, FIRST_NUMBER, PAST_NUMBERS);
  }

  lemma {:induction false} FilledSetSize(m: Message, lo: int, hi: int)
    ensures SetRangeSize(Filled(m), lo, hi) == SetRangeSize(m, lo, hi)
    decreases hi - lo
  {
    if lo < hi {
      FilledSetSize(m, lo + 1, hi);
      if lo in m.extensions { FilledItemSize(lo, m.extensions[lo]); }
    }
  }

  lemma FilledItemSize(n: int, e: Extension)
    ensures ItemSize(n, FilledExtension(e)) == ItemSize(n, e)
  {
    if !IsItem(e) {
      FilledExtensionIsFresh(n, e);
    } else if !e.cleared {
      FilledValueIsFresh(MESSAGE, e.value);
    }
  }
}
