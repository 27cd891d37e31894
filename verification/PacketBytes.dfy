/** The packets of the order server byte by byte: which tag each field has, and what follows it. */
module PacketBytes {
  import opened OrderedMaps
  import opened Wire
  import opened Extensions
  import opened ExtensionCodec
  import opened ExtensionParsing
  import opened PacketLoop
  import opened MyPacket

  // ----- Fields -----

  /** An `int32`: two's complement of 64 bits as a varint. */
  function NumberOnWire(tag: byte, v: Option<int32>): bytes {
    if v.Some? then [tag] + VarintBytes(if v.value >= 0 then v.value else v.value + 0x1_0000_0000_0000_0000) else []
  }

  /** A `float`: four bytes. */
  function FloatOnWire(tag: byte, v: Option<float>): bytes {
    if v.Some? then [tag] + FixedBytes(v.value, 4) else []
  }

  /** A length and then what has it. */
  function CountedOnWire(tag: byte, data: bytes): bytes {
    [tag] + VarintBytes(|data|) + data
  }

  function TextOnWire(tag: byte, v: Option<bytes>): bytes {
    if v.Some? then CountedOnWire(tag, v.value) else []
  }

  function DepthOnWire(d: Depth): bytes {
    NumberOnWire(8, d.count) + NumberOnWire(16, d.qty) + FloatOnWire(29, d.price)
  }

  function PositionOnWire(p: Position): bytes {
    FloatOnWire(13, p.x) + FloatOnWire(21, p.y) + FloatOnWire(29, p.z)
  }

  function DepthsOnWire(tag: byte, ds: seq<Depth>): bytes {
    if ds == [] then [] else CountedOnWire(tag, DepthOnWire(ds[0])) + DepthsOnWire(tag, ds[1..])
  }

  // ----- What is written -----

  lemma OneByteTag(n: nat, wireType: nat)
    requires 1 <= n <= 4 && wireType < 8
    ensures VarintBytes(TagOf(n, wireType)) == [8 * n + wireType]
  {
    hide VarintBytes;
    assert n % TWO_32 == n;
    assert TagOf(n, wireType) == 8 * n + wireType < 128;
    ShortVarint(8 * n + wireType);
  }

  lemma ShortVarint(n: nat)
    requires n < 128
    ensures VarintBytes(n) == [n]
  {
  }

  lemma NumberIs(n: nat, v: Option<int32>)
    requires 1 <= n <= 4
    ensures FieldBytes(n, INT32, Number(v)) == NumberOnWire(8 * n, v)
  {
    hide VarintBytes;
    OneByteTag(n, VARINT);
    if v.Some? {
      assert ValueBytes(INT32, Num(v.value)) == PrimitiveBytes(INT32, v.value);
      assert FieldBytes(n, INT32, Number(v)) == VarintBytes(TagOf(n, VARINT)) + ValueBytes(INT32, Num(v.value));
    }
  }

  lemma FloatIs(n: nat, v: Option<float>)
    requires 1 <= n <= 4
    ensures FieldBytes(n, FLOAT, Number(v)) == FloatOnWire(8 * n + 5, v)
  {
    hide VarintBytes, FixedBytes;
    OneByteTag(n, FIXED_32);
    if v.Some? {
      assert ValueBytes(FLOAT, Num(v.value)) == PrimitiveBytes(FLOAT, v.value);
      assert FieldBytes(n, FLOAT, Number(v)) == VarintBytes(TagOf(n, FIXED_32)) + ValueBytes(FLOAT, Num(v.value));
    }
  }

  lemma TextIs(n: nat, v: Option<bytes>)
    requires 1 <= n <= 4 && (v.Some? ==> |v.value| < TWO_32)
    ensures FieldBytes(n, STRING, Text(v)) == TextOnWire(8 * n + 2, v)
  {
    hide VarintBytes;
    OneByteTag(n, LENGTH_DELIMITED);
    if v.Some? {
      assert ValueBytes(STRING, Str(v.value)) == VarintBytes(|v.value|) + v.value;
      assert FieldBytes(n, STRING, Text(v))
        == VarintBytes(TagOf(n, LENGTH_DELIMITED)) + ValueBytes(STRING, Str(v.value));
      assert [8 * n + 2] + (VarintBytes(|v.value|) + v.value) == TextOnWire(8 * n + 2, v);
    }
  }

  lemma DepthIs(d: Depth)
    ensures Bytes(DepthMessage(d)) == DepthOnWire(d)
  {
    hide FieldBytes, NumberOnWire, FloatOnWire, RangeBytes, RangeSize, DepthMessage;
    DepthParts(d);
    NumberIs(1, d.count);
    NumberIs(2, d.qty);
    FloatIs(3, d.price);
  }

  lemma PositionIs(p: Position)
    ensures Bytes(PositionMessage(p)) == PositionOnWire(p)
  {
    hide FieldBytes, NumberOnWire, FloatOnWire, RangeBytes, RangeSize, PositionMessage;
    PositionParts(p);
    FloatIs(1, p.x);
    FloatIs(2, p.y);
    FloatIs(3, p.z);
  }

  lemma OrderIs(orderNumber: Option<int32>, orderQty: Option<int32>, orderPrice: Option<float>,
                productCode: Option<bytes>, cachedSize: nat)
    requires productCode.Some? ==> |productCode.value| < TWO_32
    ensures Bytes(OrderMessage(orderNumber, orderQty, orderPrice, productCode, cachedSize)) ==
      NumberOnWire(8, orderNumber) + NumberOnWire(16, orderQty) + FloatOnWire(29, orderPrice)
      + TextOnWire(34, productCode)
  {
    hide FieldBytes, NumberOnWire, FloatOnWire, TextOnWire, RangeBytes, RangeSize, OrderMessage;
    OrderParts(orderNumber, orderQty, orderPrice, productCode, cachedSize);
    NumberIs(1, orderNumber);
    NumberIs(2, orderQty);
    FloatIs(3, orderPrice);
    TextIs(4, productCode);
  }

  // ----- Packets inside packets -----

  /** What a depth is counted as is the number of its bytes. */
  lemma DepthSizeIs(d: Depth)
    ensures Size(DepthMessage(d)) == |DepthOnWire(d)| < TWO_31
  {
    hide RangeSize, RangeBytes, DepthOnWire, DepthMessage, Typed, Schema;
    DepthIsTyped(d, 1);
    DepthIs(d);
    FilledIsFresh(DepthMessage(d));
    DepthIsPlain(d);
    BytesMatchSize(Schema(), DEPTH, DepthMessage(d), 1, FIRST_NUMBER, PAST_NUMBERS);
  }

  lemma DepthIsPlain(d: Depth)
    ensures Filled(DepthMessage(d)) == DepthMessage(d)
  {
    PlainFilled(DepthMessage(d));
  }

  lemma PositionSizeIs(p: Position)
    ensures Size(PositionMessage(p)) == |PositionOnWire(p)| < TWO_31
  {
    hide RangeSize, RangeBytes, PositionOnWire, PositionMessage, Typed, Schema;
    PositionIsTyped(p, 1);
    PositionIs(p);
    FilledIsFresh(PositionMessage(p));
    PositionIsPlain(p);
    BytesMatchSize(Schema(), POSITION, PositionMessage(p), 1, FIRST_NUMBER, PAST_NUMBERS);
  }

  lemma PositionIsPlain(p: Position)
    ensures Filled(PositionMessage(p)) == PositionMessage(p)
  {
    PlainFilled(PositionMessage(p));
  }

  lemma DepthIsCounted(n: nat, d: Depth)
    requires 1 <= n <= 4
    ensures var m := DepthMessage(d.(cachedSize := Size(DepthMessage(d))));
      VarintBytes(TagOf(n, LENGTH_DELIMITED)) + ValueBytes(MESSAGE, Msg(m)) == CountedOnWire(8 * n + 2, DepthOnWire(d))
  {
    hide VarintBytes, RangeBytes, RangeSize, DepthOnWire;
    OneByteTag(n, LENGTH_DELIMITED);
    var measured := d.(cachedSize := Size(DepthMessage(d)));
    DepthIs(measured);
    SameDepth(d, measured);
    DepthSizeIs(d);
    assert [8 * n + 2] + (VarintBytes(|DepthOnWire(d)|) + DepthOnWire(d)) == CountedOnWire(8 * n + 2, DepthOnWire(d));
  }

  lemma SameDepth(d: Depth, e: Depth)
    requires e == d.(cachedSize := e.cachedSize)
    ensures DepthOnWire(e) == DepthOnWire(d)
  {
  }

  lemma {:induction false} DepthsAre(n: nat, ds: seq<Depth>)
    requires 1 <= n <= 4
    ensures FieldsBytes(n, MESSAGE, DepthValues(Measured(ds))) == DepthsOnWire(8 * n + 2, ds)
    decreases |ds|
  {
    hide VarintBytes, RangeBytes, RangeSize, DepthOnWire, DepthMessage;
    if ds != [] {
      DepthsAre(n, ds[1..]);
      DepthIsCounted(n, ds[0]);
      assert DepthValues(Measured(ds))[1..] == DepthValues(Measured(ds[1..]));
    }
  }

  /** A serialized feed: the product code, the bids and then the asks. */
  lemma FeedIs(productCode: Option<bytes>, bidDepth: seq<Depth>, askDepth: seq<Depth>, cachedSize: nat)
    requires productCode.Some? ==> |productCode.value| < TWO_32
    ensures Serialized(FeedMessage(productCode, bidDepth, askDepth, cachedSize)) ==
      TextOnWire(10, productCode) + DepthsOnWire(18, bidDepth) + DepthsOnWire(26, askDepth)
  {
    hide FieldBytes, FieldsBytes, TextOnWire, DepthsOnWire, RangeBytes, RangeSize, FeedMessage, DepthValues, Measured,
      Filled;
    FeedFilled(productCode, bidDepth, askDepth, cachedSize);
    FeedParts(productCode, Measured(bidDepth), Measured(askDepth), cachedSize);
    TextIs(1, productCode);
    DepthsAre(2, bidDepth);
    DepthsAre(3, askDepth);
  }

  /** A serialized login result: the player's number, name and position. */
  lemma LoginResultIs(playerId: Option<int32>, playerName: Option<bytes>, playerPos: Option<Position>, cachedSize: nat)
    requires playerName.Some? ==> |playerName.value| < TWO_32
    ensures Serialized(LoginResultMessage(playerId, playerName, playerPos, cachedSize)) ==
      NumberOnWire(8, playerId) + TextOnWire(18, playerName)
      + if playerPos.Some? then CountedOnWire(26, PositionOnWire(playerPos.value)) else []
  {
    hide FieldBytes, NumberOnWire, TextOnWire, CountedOnWire, PositionOnWire, RangeBytes, RangeSize, LoginResultMessage,
      PositionMessage, Filled;
    LoginResultFilled(playerId, playerName, playerPos, cachedSize);
    var pos := if playerPos.Some? then Some(playerPos.value.(cachedSize := Size(PositionMessage(playerPos.value))))
      else None;
    LoginResultParts(playerId, playerName, pos, cachedSize);
    NumberIs(1, playerId);
    TextIs(2, playerName);
    if playerPos.Some? { PositionIsCounted(playerPos.value); } else { NoPosition(); }
  }

  lemma NoPosition()
    ensures FieldBytes(3, MESSAGE, None) == []
  {
  }

  lemma PositionIsCounted(p: Position)
    ensures var m := PositionMessage(p.(cachedSize := Size(PositionMessage(p))));
      FieldBytes(3, MESSAGE, Some(Msg(m))) == CountedOnWire(26, PositionOnWire(p))
  {
    hide VarintBytes, RangeBytes, RangeSize, PositionOnWire;
    OneByteTag(3, LENGTH_DELIMITED);
    var measured := p.(cachedSize := Size(PositionMessage(p)));
    PositionIs(measured);
    SamePosition(p, measured);
    PositionSizeIs(p);
    var m := PositionMessage(measured);
    assert ValueBytes(MESSAGE, Msg(m)) == VarintBytes(|PositionOnWire(p)|) + PositionOnWire(p);
    assert FieldBytes(3, MESSAGE, Some(Msg(m)))
      == VarintBytes(TagOf(3, LENGTH_DELIMITED)) + ValueBytes(MESSAGE, Msg(m));
    assert [26] + (VarintBytes(|PositionOnWire(p)|) + PositionOnWire(p)) == CountedOnWire(26, PositionOnWire(p));
  }

  lemma SamePosition(p: Position, q: Position)
    requires q == p.(cachedSize := q.cachedSize)
    ensures PositionOnWire(q) == PositionOnWire(p)
  {
  }
}
