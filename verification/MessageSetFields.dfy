/** What is written for an item of a MessageSet, in terms of the wire format alone. */
module MessageSetFields {
  import opened OrderedMaps
  import opened Wire
  import opened Extensions
  import opened ExtensionCodec
  import opened ExtensionParsing
  import opened SkippedFields
  import opened ExtensionFields
  import opened MessageSets

  /** A group numbered 1, of a varint numbered 2 that holds `id`, and bytes numbered 3. */
  ghost predicate IsItemGroup(f: Field, id: nat, data: bytes) {
    && Number32(f.key) == 8 * 1 + 3 && f.payload.Group? && |f.payload.fields| == 2
    && var typeId, message := f.payload.fields[0], f.payload.fields[1];
    && Number32(typeId.key) == 8 * 2 + 0 && typeId.payload.Digits? && VarintNumber(typeId.payload.varint) == id
    && Number32(message.key) == 8 * 3 + 2 && message.payload.Counted? && message.payload.data == data
  }

  /** Each live message of a set is written as such a group, whole, with its number and its bytes. */
  lemma ItemIsGroup(registry: Registry, info: ExtensionInfo, n: nat, e: Extension, room: nat, levels: nat)
    returns (f: Field)
    requires TypedExtension(registry, info, e, room) && FreshExtension(e) && FitsExtension(e)
    requires IsItem(e) && !e.cleared && n < TWO_32 && levels > 0
    ensures e.value.Msg?
    ensures ItemBytes(n, e) == WholeBytes(f) && Proper(f, levels) && IsItemGroup(f, n, Bytes(e.value.m))
  {
    hide VarintBytes, VarintNumber, IsVarint, TypedExtension, FreshExtension, FitsExtension;
    MessageIsCounted(registry, info, e, room);
    var m := e.value.m;
    assert ValueBytes(MESSAGE, e.value) == VarintBytes(m.cachedSize % TWO_32) + Bytes(m);
    VarintMeans(n);
    VarintMeans(ITEM_START_TAG);
    VarintMeans(TYPE_ID_TAG);
    VarintMeans(MESSAGE_TAG);
    VarintMeans(ITEM_END_TAG);
    var typeId := Field(VarintBytes(TYPE_ID_TAG), Digits(VarintBytes(n)));
    var message := Field(VarintBytes(MESSAGE_TAG), Counted(VarintBytes(m.cachedSize % TWO_32), Bytes(m)));
    f := Field(VarintBytes(ITEM_START_TAG), Group([typeId, message], VarintBytes(ITEM_END_TAG)));
    TwoFields(typeId, message);
    assert Proper(typeId, levels - 1);
    assert Number32(message.key) == 26;
    assert IsVarint(message.payload.length);
    assert Number32(message.payload.length) == |message.payload.data|;
    assert |message.payload.data| < TWO_31;
    assert Proper(message, levels - 1);
    assert AllProper([typeId, message], levels - 1);
    Assembled(VarintBytes(ITEM_START_TAG), VarintBytes(TYPE_ID_TAG), VarintBytes(n), VarintBytes(MESSAGE_TAG),
              VarintBytes(m.cachedSize % TWO_32), Bytes(m), VarintBytes(ITEM_END_TAG));
    assert ItemBytes(n, e) == WholeBytes(f);
    assert Proper(f, levels);
    assert IsItemGroup(f, n, Bytes(m));
  }

  lemma MessageIsCounted(registry: Registry, info: ExtensionInfo, e: Extension, room: nat)
    requires TypedExtension(registry, info, e, room) && FreshExtension(e) && FitsExtension(e)
    requires IsItem(e) && !e.cleared
    ensures e.value.Msg? && e.value.m.cachedSize % TWO_32 == |Bytes(e.value.m)| < TWO_31
    ensures var length := VarintBytes(e.value.m.cachedSize % TWO_32);
      IsVarint(length) && Number32(length) == |Bytes(e.value.m)|
  {
    hide VarintBytes, VarintNumber, IsVarint;
    BytesMatchSize(registry, info.messageType, e.value.m, room - 1, FIRST_NUMBER, PAST_NUMBERS);
    VarintMeans(e.value.m.cachedSize % TWO_32);
    assert e.value.m.cachedSize == Size(e.value.m);
    assert Size(e.value.m) < TWO_31;
    assert |Bytes(e.value.m)| == Size(e.value.m);
  }

  lemma TwoFields(a: Field, b: Field)
    ensures AllBytes([a, b]) == WholeBytes(a) + WholeBytes(b)
  {
    hide WholeBytes;
    assert [a, b][1..] == [b] && [b][1..] == [] && AllBytes([]) == [];
    assert WholeBytes(b) + [] == WholeBytes(b);
  }

  lemma Assembled(start: bytes, key: bytes, id: bytes, tag: bytes, length: bytes, data: bytes, end: bytes)
    ensures start + (key + (id + (tag + ((length + data) + end))))
         == start + ((key + id) + (tag + (length + data)) + end)
  {
  }

  /** So whoever reads the set as an ordinary message, without a field numbered 1, passes over the item. */
  lemma ItemIsSkipped(registry: Registry, info: ExtensionInfo, n: nat, e: Extension, room: nat, levels: nat,
                      rest: bytes) returns (key: bytes)
    requires TypedExtension(registry, info, e, room) && FreshExtension(e) && FitsExtension(e)
    requires IsItem(e) && !e.cleared && n < TWO_32 && levels > 0
    ensures IsVarint(key) && Number32(key) == 11 && key <= ItemBytes(n, e)
    ensures AfterField(ItemBytes(n, e)[|key|..] + rest, 11, levels) == Done((), rest)
  {
    hide ItemBytes, VarintNumber, IsVarint, PayloadBytes, AfterField, TypedExtension, FreshExtension, FitsExtension;
    var f := ItemIsGroup(registry, info, n, e, room, levels);
    FieldIsSkipped(11, f.payload, rest, levels);
    key := f.key;
    assert ItemBytes(n, e) == key + PayloadBytes(f.payload);
    assert ItemBytes(n, e)[|key|..] == PayloadBytes(f.payload);
  }

  // ----- The order of the items -----

  lemma {:induction false} NoItemsBefore(m: Message, lo: int, n: int, hi: int)
    requires lo <= n <= hi && forall k | lo <= k < n :: k !in m.extensions
    ensures SetRangeBytes(m, lo, hi) == SetRangeBytes(m, n, hi)
    decreases n - lo
  {
    hide ItemBytes;
    if lo < n {
      NoItemsBefore(m, lo + 1, n, hi);
      assert SetRangeBytes(m, lo, hi) == [] + SetRangeBytes(m, lo + 1, hi);
    }
  }

  lemma {:induction false} SameItems(m: Message, other: Message, lo: int, hi: int)
    requires forall k | lo <= k < hi :: Entry(m, k) == Entry(other, k)
    ensures SetRangeBytes(m, lo, hi) == SetRangeBytes(other, lo, hi)
    decreases hi - lo
  {
    hide ItemBytes;
    if lo < hi {
      assert Entry(m, lo) == Entry(other, lo);
      SameItems(m, other, lo + 1, hi);
    }
  }

  /** The item of the least number comes first, and then what the set without it would be written as. */
  lemma LeastItemFirst(m: Message, n: int)
    requires n in m.extensions && FIRST_NUMBER <= n < PAST_NUMBERS
    requires forall k | k in m.extensions :: n <= k
    ensures SetBytes(m) == ItemBytes(n, m.extensions[n]) + SetBytes(m.(extensions := m.extensions - {n}))
  {
    hide ItemBytes, SetRangeBytes;
    var rest := m.(extensions := m.extensions - {n});
    NoItemsBefore(m, FIRST_NUMBER, n, PAST_NUMBERS);
    NoItemsBefore(rest, FIRST_NUMBER, n + 1, PAST_NUMBERS);
    SameItems(m, rest, n + 1, PAST_NUMBERS);
    FirstItem(m, n);
  }

  lemma FirstItem(m: Message, n: int)
    requires n in m.extensions && n < PAST_NUMBERS
    ensures SetRangeBytes(m, n, PAST_NUMBERS)
         == ItemBytes(n, m.extensions[n]) + SetRangeBytes(m, n + 1, PAST_NUMBERS)
  {
    hide ItemBytes;
  }
}
