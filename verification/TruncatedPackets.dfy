/** The server's packets when their end is missing: the loop takes some, the check for required fields takes fewer. */
module TruncatedPackets {
  import opened OrderedMaps
  import opened Wire
  import opened Extensions
  import opened ExtensionCodec
  import opened ExtensionParsing
  import opened PacketLoop
  import opened MyPacket
  import opened Truncation

  /** The loop reaches the end of the first `k` bytes of a serialized packet exactly when the packet may stop there. */
  lemma PacketCut(t: nat, m: Message, k: nat, room: nat)
    requires Typed(Schema(), t, m, room) && Numbered(m) && Fits(m) && k <= |Serialized(m)|
    ensures var run := RunLoop(t, EMPTY, Serialized(m)[..k], room); run.ok && run.ended <==> Stops(Filled(m), k)
  {
    hide *;
    assert WellFormed(Schema());
    SerializedCut(Schema(), t, EMPTY, m, k, room);
    RunIsParsed(t, EMPTY, Serialized(m)[..k], room);
  }

  // ----- Required fields -----

  /** What `Feed::IsInitialized` asks for, of the feed as a message. */
  predicate FeedInitialized(m: Message) {
    1 in m.extensions && DepthsInitialized(m, 2) && DepthsInitialized(m, 3)
  }

  predicate DepthsInitialized(m: Message, n: int) {
    n in m.extensions && m.extensions[n].Repeated? ==> forall i | 0 <= i < |m.extensions[n].values| ::
      Complete(m.extensions[n].values[i])
  }

  predicate Complete(v: Value) {
    v.Msg? && 1 in v.m.extensions && 2 in v.m.extensions && 3 in v.m.extensions
  }

  predicate AllInitialized(ds: seq<Depth>) {
    forall i | 0 <= i < |ds| :: DepthInitialized(ds[i])
  }

  lemma FeedInitializedIs(productCode: Option<bytes>, bids: seq<Depth>, asks: seq<Depth>, cachedSize: nat)
    ensures FeedInitialized(FeedMessage(productCode, bids, asks, cachedSize))
       <==> productCode.Some? && AllInitialized(bids) && AllInitialized(asks)
  {
    var m := FeedMessage(productCode, bids, asks, cachedSize);
    DepthsInitializedIs(m, 2, bids, cachedSize);
    DepthsInitializedIs(m, 3, asks, cachedSize);
  }

  lemma DepthsInitializedIs(m: Message, n: int, ds: seq<Depth>, cachedSize: nat)
    requires Entry(m, n) == DepthsEntry(ds)
    ensures DepthsInitialized(m, n) <==> AllInitialized(ds)
  {
    forall i | 0 <= i < |ds| ensures Complete(DepthValues(ds)[i]) <==> DepthInitialized(ds[i]) {}
  }

  // ----- The bytes of a feed -----

  function CodeBytes(code: bytes): bytes {
    FieldBytes(1, STRING, Text(Some(code)))
  }

  function DepthsBytes(n: int, ds: seq<Depth>): bytes {
    FieldsBytes(n, MESSAGE, DepthValues(Measured(ds)))
  }

  function TheFeed(code: bytes, bids: seq<Depth>, asks: seq<Depth>): Message {
    FeedMessage(Some(code), bids, asks, 0)
  }

  lemma FeedBytes(code: bytes, bids: seq<Depth>, asks: seq<Depth>)
    ensures Serialized(TheFeed(code, bids, asks)) == CodeBytes(code) + DepthsBytes(2, bids) + DepthsBytes(3, asks)
  {
    hide FeedMessage, FieldBytes, FieldsBytes, RangeBytes, Measured, DepthValues;
    FeedFilled(Some(code), bids, asks, 0);
    FeedParts(Some(code), Measured(bids), Measured(asks), 0);
  }

  lemma FieldsJoin(n: int, t: FieldType, a: seq<Value>, b: seq<Value>)
    ensures FieldsBytes(n, t, a + b) == FieldsBytes(n, t, a) + FieldsBytes(n, t, b)
    decreases |a|
  {
    hide VarintBytes, ValueBytes, WireTypeOf;
    if a == [] {
      assert a + b == b;
    } else {
      assert (a + b)[1..] == a[1..] + b;
      FieldsJoin(n, t, a[1..], b);
    }
  }

  lemma DepthsJoin(n: int, a: seq<Depth>, b: seq<Depth>)
    ensures DepthsBytes(n, a + b) == DepthsBytes(n, a) + DepthsBytes(n, b)
  {
    hide FieldsBytes, DepthMessage;
    assert Measured(a + b) == Measured(a) + Measured(b);
    assert DepthValues(Measured(a) + Measured(b)) == DepthValues(Measured(a)) + DepthValues(Measured(b));
    FieldsJoin(n, MESSAGE, DepthValues(Measured(a)), DepthValues(Measured(b)));
  }

  // ----- A depth that is cut short -----

  /** Short of its end a number or string field is nothing, or unreadable. */
  lemma PlainFieldCut(t: nat, s: Message, n: int, v: Value, k: nat, room: nat)
    requires 1 <= n <= FieldCount(t) && !v.Msg? && TypedValue(Schema(), FieldInfo(t, n), v, room) && FitsValue(v)
    requires var fieldType := FieldInfo(t, n).fieldType; k < |FieldBytes(n, fieldType, Some(v))|
    ensures Parsed(Schema(), t, s, FieldBytes(n, FieldInfo(t, n).fieldType, Some(v))[..k], room) == if k == 0
      then Some(s) else None
  {
    hide VarintBytes, ValueBytes, Parsed, TypedValue, FieldInfo, Schema, FitsValue, WireTypeOf;
    var info := FieldInfo(t, n);
    assert (t, n) in Schema() && Schema()[(t, n)] == info;
    assert FieldBytes(n, info.fieldType, Some(v))
      == VarintBytes(TagOf(n, WireTypeOf(info.fieldType))) + ValueBytes(info.fieldType, v);
    FieldCut(Schema(), t, s, n, v, k, room);
    if k == 0 { AtTheEnd(Schema(), t, s, room); }
  }

  lemma PlainFieldRead(t: nat, s: Message, n: int, v: Value, rest: bytes, room: nat)
    requires 1 <= n <= FieldCount(t) && !v.Msg? && TypedValue(Schema(), FieldInfo(t, n), v, room) && FitsValue(v)
    ensures Parsed(Schema(), t, s, FieldBytes(n, FieldInfo(t, n).fieldType, Some(v)) + rest, room)
         == Parsed(Schema(), t, Stored(s, n, FieldInfo(t, n), v), rest, room)
  {
    hide VarintBytes, ValueBytes, Parsed, TypedValue, FieldInfo, Schema, FitsValue, WireTypeOf, Stored, Reads;
    var info := FieldInfo(t, n);
    assert (t, n) in Schema() && Schema()[(t, n)] == info;
    FieldReadBack(Schema(), t, s, n, v, rest, room);
    ParsedThroughReads(Schema(), t, s, FieldBytes(n, info.fieldType, Some(v)) + rest, Stored(s, n, info, v), rest,
                       room);
  }

  lemma DepthNumber(n: int, v: int, room: nat)
    requires 1 <= n <= 3 && InRange(FieldInfo(DEPTH, n).fieldType, v)
    ensures TypedValue(Schema(), FieldInfo(DEPTH, n), Num(v), room) && FitsValue(Num(v))
  {
    hide Schema;
  }

  lemma NoPriceYet(count: int, qty: int)
    ensures var s1 := Stored(EMPTY, 1, FieldInfo(DEPTH, 1), Num(count));
      3 !in EMPTY.extensions && 3 !in s1.extensions && 3 !in Stored(s1, 2, FieldInfo(DEPTH, 2), Num(qty)).extensions
  {
  }

  /** A depth that is cut short lacks its price, if it is read at all. */
  lemma DepthCut(d: Depth, k: nat, room: nat)
    requires DepthInitialized(d) && k < |Bytes(DepthMessage(d))|
    ensures var r := Parsed(Schema(), DEPTH, EMPTY, Bytes(DepthMessage(d))[..k], room);
      r.Some? ==> 3 !in r.value.extensions
  {
    hide Parsed, Schema, FieldBytes, DepthMessage, RangeBytes;
    DepthParts(d);
    DepthPartsCut(d.count.value, d.qty.value, d.price.value, k, room);
  }

  lemma DepthPartsCut(count: int32, qty: int32, price: float, k: nat, room: nat)
    requires k < |FieldBytes(1, INT32, Some(Num(count))) + FieldBytes(2, INT32, Some(Num(qty)))
                  + FieldBytes(3, FLOAT, Some(Num(price)))|
    ensures var b := FieldBytes(1, INT32, Some(Num(count))) + FieldBytes(2, INT32, Some(Num(qty)))
                     + FieldBytes(3, FLOAT, Some(Num(price)));
      var r := Parsed(Schema(), DEPTH, EMPTY, b[..k], room);
      r.Some? ==> 3 !in r.value.extensions
  {
    DepthNumber(1, count, room);
    DepthNumber(2, qty, room);
    DepthNumber(3, price, room);
    NoPriceYet(count, qty);
    var one, two := FieldBytes(1, INT32, Some(Num(count))), FieldBytes(2, INT32, Some(Num(qty)));
    var three := FieldBytes(3, FLOAT, Some(Num(price)));
    var s1 := Stored(EMPTY, 1, FieldInfo(DEPTH, 1), Num(count));
    var s2 := Stored(s1, 2, FieldInfo(DEPTH, 2), Num(qty));
    assert FieldInfo(DEPTH, 1).fieldType == INT32 && FieldInfo(DEPTH, 2).fieldType == INT32;
    assert FieldInfo(DEPTH, 3).fieldType == FLOAT && FieldCount(DEPTH) == 3;
    CutOfThree(one, two, three, k);
    hide *;
    if k < |one| {
      PlainFieldCut(DEPTH, EMPTY, 1, Num(count), k, room);
    } else if k < |one| + |two| {
      var j := k - |one|;
      PlainFieldRead(DEPTH, EMPTY, 1, Num(count), two[..j], room);
      PlainFieldCut(DEPTH, s1, 2, Num(qty), j, room);
    } else {
      var j := k - |one| - |two|;
      PlainFieldRead(DEPTH, EMPTY, 1, Num(count), two + three[..j], room);
      PlainFieldRead(DEPTH, s1, 2, Num(qty), three[..j], room);
      PlainFieldCut(DEPTH, s2, 3, Num(price), j, room);
    }
  }

  lemma CutOfThree(one: bytes, two: bytes, three: bytes, k: nat)
    requires k <= |one + two + three|
    ensures k < |one| ==> (one + two + three)[..k] == one[..k]
    ensures |one| <= k < |one| + |two| ==> (one + two + three)[..k] == one + two[..k - |one|]
    ensures |one| + |two| <= k ==> (one + two + three)[..k] == one + (two + three[..k - |one| - |two|])
  {
  }

  // ----- A list of depths that is cut short -----

  function DepthBytes(n: int, d: Depth): bytes {
    DepthsBytes(n, [d])
  }

  /** The depth as it is written: with its size. */
  function Written(d: Depth): Depth {
    d.(cachedSize := Size(DepthMessage(d)))
  }

  lemma DepthBytesAre(n: int, d: Depth)
    ensures DepthBytes(n, d)
      == VarintBytes(TagOf(n, LENGTH_DELIMITED)) + ValueBytes(MESSAGE, Msg(DepthMessage(Written(d))))
  {
    hide DepthMessage, VarintBytes, ValueBytes, RangeSize;
    assert Measured([d]) == [Written(d)];
    assert DepthValues([Written(d)]) == [Msg(DepthMessage(Written(d)))];
    NoFields(n);
    assert DepthValues([Written(d)])[1..] == [];
  }

  lemma NumbersAreFresh(d: Depth)
    ensures Fresh(DepthMessage(d))
  {
    var m := DepthMessage(d);
    forall n | n in m.extensions ensures FreshExtension(m.extensions[n]) {
      assert m.extensions[n].Singular? && m.extensions[n].value.Num?;
    }
  }

  lemma WrittenIsFresh(d: Depth)
    ensures var m := DepthMessage(Written(d));
      Fresh(m) && m.cachedSize == Size(m) == |Bytes(m)| < TWO_31 && FreshValue(Msg(m))
        && Bytes(m) == Bytes(DepthMessage(d))
  {
    hide RangeSize, RangeBytes;
    CachedSizeIrrelevant(DepthMessage(d), Size(DepthMessage(d)));
    DepthIsTyped(Written(d), 1);
    NumbersAreFresh(Written(d));
    BytesMatchSize(Schema(), DEPTH, DepthMessage(Written(d)), 1, FIRST_NUMBER, PAST_NUMBERS);
  }

  /** One depth of a feed, whole, is read and stored. */
  lemma DepthRead(n: int, s: Message, d: Depth, rest: bytes, room: nat) returns (next: Message)
    requires 2 <= n <= 3 && room > 0
    ensures Parsed(Schema(), FEED, s, DepthBytes(n, d) + rest, room) == Parsed(Schema(), FEED, next, rest, room)
  {
    hide Parsed, Reads, VarintBytes, ValueBytes, TypedValue, FitsValue, FreshValue, DepthsBytes, Stored, ReadBack,
      DepthMessage, Schema;
    var v := Msg(DepthMessage(Written(d)));
    DepthBytesAre(n, d);
    DepthFieldTyped(n, Written(d), room);
    WrittenIsFresh(d);
    FeedDepthField(n);
    FieldReadBack(Schema(), FEED, s, n, v, rest, room);
    next := Stored(s, n, FieldInfo(FEED, n), ReadBack(FieldInfo(FEED, n), MessageIn(Entry(s, n)), v));
    ParsedThroughReads(Schema(), FEED, s, DepthBytes(n, d) + rest, next, rest, room);
  }

  lemma FeedDepthField(n: int)
    requires 2 <= n <= 3
    ensures (FEED, n) in Schema() && Schema()[(FEED, n)] == FieldInfo(FEED, n)
    ensures FieldInfo(FEED, n) == ExtensionInfo(MESSAGE, true, false, {}, DEPTH)
  {
  }

  /** One depth, cut short: what there is of it is stored, if it can be read, and lacks its price. */
  lemma DepthInFeedCut(n: int, s: Message, d: Depth, k: nat, room: nat)
    requires 2 <= n <= 3 && room > 0 && DepthInitialized(d) && 0 < k < |DepthBytes(n, d)|
    ensures var r := Parsed(Schema(), FEED, s, DepthBytes(n, d)[..k], room); r.Some? ==> !DepthsInitialized(r.value, n)
  {
    hide Parsed, VarintBytes, ValueBytes, DepthBytes, Stored, DepthMessage, Schema, ValueParsed, DepthsInitialized;
    var v := Msg(DepthMessage(Written(d)));
    var tag, value := VarintBytes(TagOf(n, LENGTH_DELIMITED)), ValueBytes(MESSAGE, v);
    DepthBytesAre(n, d);
    FeedDepthField(n);
    assert WireTypeOf(MESSAGE) == LENGTH_DELIMITED;
    if k < |tag| {
      TagCutParsed(Schema(), FEED, s, n, LENGTH_DELIMITED, value, k, room);
    } else {
      var was, j := MessageIn(Entry(s, n)), k - |tag|;
      assert (tag + value)[..k] == tag + value[..j];
      FieldCutParsed(Schema(), FEED, s, n, value[..j], room);
      DepthValueCut(n, was, d, j, room);
      var r := ValueParsed(Schema(), FieldInfo(FEED, n), was, value[..j], room);
      if r.Done? {
        AtTheEnd(Schema(), FEED, Stored(s, n, FieldInfo(FEED, n), r.value), room);
        IncompleteStored(n, s, r.value.m);
      }
    }
  }

  lemma DepthValueCut(n: int, was: Message, d: Depth, k: nat, room: nat)
    requires 2 <= n <= 3 && room > 0 && DepthInitialized(d) && k < |ValueBytes(MESSAGE, Msg(DepthMessage(Written(d))))|
    ensures var value := ValueBytes(MESSAGE, Msg(DepthMessage(Written(d))));
      var r := ValueParsed(Schema(), FieldInfo(FEED, n), was, value[..k], room);
      r.Done? ==> r.rest == [] && r.value.Msg? && 3 !in r.value.m.extensions
  {
    hide Parsed, VarintBytes, RangeBytes, RangeSize, DepthMessage, Schema, ValueParsed, Fresh, FreshValue, WellFormed;
    var m := DepthMessage(Written(d));
    WrittenIsFresh(d);
    FeedDepthField(n);
    MessageValueCut(Schema(), FieldInfo(FEED, n), was, m, k, room);
    var length := |VarintBytes(Size(m))|;
    if k >= length { DepthCut(Written(d), k - length, room - 1); }
  }

  lemma IncompleteStored(n: int, s: Message, m: Message)
    requires 2 <= n <= 3 && 3 !in m.extensions
    ensures !DepthsInitialized(Stored(s, n, FieldInfo(FEED, n), Msg(m)), n)
  {
    FeedDepthField(n);
    var values := Stored(s, n, FieldInfo(FEED, n), Msg(m)).extensions[n].values;
    assert values[|values| - 1] == Msg(m);
    assert !Complete(values[|values| - 1]);
  }

  /** A list of depths, cut short, stops between two of them or leaves one without its price, if it is read at all. */
  lemma {:induction false} DepthsCut(n: int, s: Message, ds: seq<Depth>, k: nat, room: nat) returns (i: nat)
    requires 2 <= n <= 3 && room > 0 && AllInitialized(ds) && k <= |DepthsBytes(n, ds)|
    ensures i <= |ds|
    ensures var r := Parsed(Schema(), FEED, s, DepthsBytes(n, ds)[..k], room);
      k == |DepthsBytes(n, ds[..i])| || (r.Some? ==> !DepthsInitialized(r.value, n))
    decreases |ds|
  {
    hide Parsed, DepthsBytes, DepthsInitialized, Schema;
    i := 0;
    NoDepths(n);
    assert ds[..0] == [];
    if ds != [] && k > 0 {
      assert ds == [ds[0]] + ds[1..];
      DepthsJoin(n, [ds[0]], ds[1..]);
      var first, tail := DepthBytes(n, ds[0]), DepthsBytes(n, ds[1..]);
      if k < |first| {
        assert (first + tail)[..k] == first[..k];
        DepthInFeedCut(n, s, ds[0], k, room);
      } else {
        var cut := tail[..k - |first|];
        assert (first + tail)[..k] == first + cut;
        var next := DepthRead(n, s, ds[0], cut, room);
        var j := DepthsCut(n, next, ds[1..], k - |first|, room);
        i := j + 1;
        assert ds[..i] == [ds[0]] + ds[1..][..j];
        DepthsJoin(n, [ds[0]], ds[1..][..j]);
      }
    }
  }

  lemma NoDepths(n: int)
    ensures DepthsBytes(n, []) == []
  {
    assert DepthValues(Measured([])) == [];
    NoFields(n);
  }

  /** A whole list is read. */
  lemma {:induction false} DepthsRead(n: int, s: Message, ds: seq<Depth>, rest: bytes, room: nat)
    returns (next: Message)
    requires 2 <= n <= 3 && room > 0
    ensures Parsed(Schema(), FEED, s, DepthsBytes(n, ds) + rest, room) == Parsed(Schema(), FEED, next, rest, room)
    decreases |ds|
  {
    hide Parsed, DepthsBytes, Schema;
    if ds == [] {
      NoDepths(n);
      assert [] + rest == rest;
      next := s;
    } else {
      assert ds == [ds[0]] + ds[1..];
      DepthsJoin(n, [ds[0]], ds[1..]);
      var tail := DepthsBytes(n, ds[1..]);
      assert DepthBytes(n, ds[0]) + tail + rest == DepthBytes(n, ds[0]) + (tail + rest);
      next := DepthRead(n, s, ds[0], tail + rest, room);
      next := DepthsRead(n, next, ds[1..], rest, room);
    }
  }

  // ----- A feed that is cut short -----

  /** The cut leaves the bytes of the same feed with fewer depths. */
  ghost predicate LeavesFewerDepths(code: bytes, bids: seq<Depth>, asks: seq<Depth>, k: nat) {
    exists i, j | 0 <= i <= |bids| && 0 <= j <= |asks| && (i == |bids| || j == 0) ::
      k == |Serialized(TheFeed(code, bids[..i], asks[..j]))|
  }

  /** A whole feed with its required fields is read. */
  lemma WholeFeed(code: bytes, bids: seq<Depth>, asks: seq<Depth>, room: nat)
    requires room > 0 && |code| < TWO_31 && AllInitialized(bids) && AllInitialized(asks)
    ensures var run := RunLoop(FEED, EMPTY, Serialized(TheFeed(code, bids, asks)), room);
      run == Run(true, true, TheFeed(code, Unmeasured(bids), Unmeasured(asks))) && FeedInitialized(run.message)
  {
    hide FeedMessage, RunLoop, Serialized, Observed, Schema, FeedInitialized;
    FeedInitializedIs(Some(code), Unmeasured(bids), Unmeasured(asks), 0);
    assert AllInitialized(Unmeasured(bids)) && AllInitialized(Unmeasured(asks));
    FeedIsTyped(Some(code), bids, asks, 0, room);
    ParseAfterSerialize(Schema(), FEED, TheFeed(code, bids, asks), room);
    RunIsParsed(FEED, EMPTY, Serialized(TheFeed(code, bids, asks)), room);
    RunOfParsed(FEED, Serialized(TheFeed(code, bids, asks)), room);
  }

  lemma RunOfParsed(t: nat, b: bytes, room: nat)
    ensures var run := RunLoop(t, EMPTY, b, room);
      run.ok && run.ended ==> run == Run(true, true, run.message)
  {
    hide RunLoop;
  }

  lemma FewerIsPrefix(code: bytes, bids: seq<Depth>, asks: seq<Depth>, i: nat, j: nat)
    requires i <= |bids| && j <= |asks| && (i == |bids| || j == 0)
    ensures Serialized(TheFeed(code, bids[..i], asks[..j])) <= Serialized(TheFeed(code, bids, asks))
  {
    hide Serialized, TheFeed, DepthsBytes, CodeBytes;
    FeedBytes(code, bids, asks);
    FeedBytes(code, bids[..i], asks[..j]);
    FewerDepthsIsPrefix(2, bids, i);
    FewerDepthsIsPrefix(3, asks, j);
    NoDepths(3);
    assert asks[..0] == [] && bids[..|bids|] == bids;
    Prefixes(CodeBytes(code), DepthsBytes(2, bids), DepthsBytes(2, bids[..i]),
             DepthsBytes(3, asks), DepthsBytes(3, asks[..j]));
  }

  lemma FewerDepthsIsPrefix(n: int, ds: seq<Depth>, i: nat)
    requires i <= |ds|
    ensures DepthsBytes(n, ds[..i]) <= DepthsBytes(n, ds)
  {
    hide DepthsBytes;
    assert ds == ds[..i] + ds[i..];
    DepthsJoin(n, ds[..i], ds[i..]);
  }

  lemma Prefixes(one: bytes, two: bytes, two': bytes, three: bytes, three': bytes)
    requires two' <= two && three' <= three && (two' == two || three' == [])
    ensures one + two' + three' <= one + two + three
  {
    if two' == two {
      assert one + two + three == (one + two' + three') + three[|three'|..];
    } else {
      assert one + two + three == (one + two' + three') + (two[|two'|..] + three);
    }
  }

  /** Within the product code nothing is read that is a feed. */
  lemma CodeCut(code: bytes, k: nat, room: nat)
    requires |code| < TWO_31 && k < |CodeBytes(code)|
    ensures var r := Parsed(Schema(), FEED, EMPTY, CodeBytes(code)[..k], room); r.Some? ==> !FeedInitialized(r.value)
  {
    hide Parsed, Schema, FieldBytes;
    CodeTyped(code, room);
    PlainFieldCut(FEED, EMPTY, 1, Str(code), k, room);
  }

  lemma CodeTyped(code: bytes, room: nat)
    requires |code| < TWO_31
    ensures FieldInfo(FEED, 1).fieldType == STRING && FieldCount(FEED) == 3
    ensures TypedValue(Schema(), FieldInfo(FEED, 1), Str(code), room) && FitsValue(Str(code))
  {
    hide Schema;
  }

  lemma CodeRead(code: bytes, rest: bytes, room: nat) returns (s: Message)
    requires |code| < TWO_31
    ensures s == TheFeed(code, [], [])
    ensures Parsed(Schema(), FEED, EMPTY, CodeBytes(code) + rest, room) == Parsed(Schema(), FEED, s, rest, room)
  {
    CodeTyped(code, room);
    assert EMPTY == FeedMessage(None, [], [], 0);
    FeedTextStored(EMPTY, None, [], [], code, 0);
    hide Parsed, Schema, FieldBytes, Stored, FeedMessage;
    PlainFieldRead(FEED, EMPTY, 1, Str(code), rest, room);
    s := TheFeed(code, [], []);
  }

  /** Anywhere else a cut feed is not read, or lacks a required field. */
  lemma CutElsewhere(code: bytes, bids: seq<Depth>, asks: seq<Depth>, k: nat, room: nat)
    requires room > 0 && |code| < TWO_31 && AllInitialized(bids) && AllInitialized(asks)
    requires k <= |Serialized(TheFeed(code, bids, asks))| && !LeavesFewerDepths(code, bids, asks, k)
    ensures var r := Parsed(Schema(), FEED, EMPTY, Serialized(TheFeed(code, bids, asks))[..k], room);
      r.Some? ==> !FeedInitialized(r.value)
  {
    hide Parsed, Schema, Serialized, TheFeed, DepthsBytes, CodeBytes, DepthsInitialized;
    FeedBytes(code, bids, asks);
    var one, two, three := CodeBytes(code), DepthsBytes(2, bids), DepthsBytes(3, asks);
    CutOfThree(one, two, three, k);
    if k < |one| {
      CodeCut(code, k, room);
    } else if k < |one| + |two| {
      var cut := two[..k - |one|];
      var s := CodeRead(code, cut, room);
      var i := DepthsCut(2, s, bids, k - |one|, room);
      BidsLength(code, bids, asks, i);
    } else {
      var cut := three[..k - |one| - |two|];
      var s := CodeRead(code, two + cut, room);
      s := DepthsRead(2, s, bids, cut, room);
      var j := DepthsCut(3, s, asks, k - |one| - |two|, room);
      FeedBytes(code, bids, asks[..j]);
      assert bids[..|bids|] == bids;
    }
  }

  lemma BidsLength(code: bytes, bids: seq<Depth>, asks: seq<Depth>, i: nat)
    requires i <= |bids|
    ensures |Serialized(TheFeed(code, bids[..i], asks[..0]))| == |CodeBytes(code)| + |DepthsBytes(2, bids[..i])|
  {
    FeedBytes(code, bids[..i], asks[..0]);
    assert asks[..0] == [];
    NoDepths(3);
  }

  /**
   * The first bytes of a serialized feed are read to their end as a feed that has its required fields exactly when
   * they are the bytes of the same feed with fewer depths: the required fields of a depth stop every other cut that
   * the loop lets through.
   */
  lemma FeedCut(code: bytes, bids: seq<Depth>, asks: seq<Depth>, k: nat, room: nat)
    requires room > 0 && |code| < TWO_31 && AllInitialized(bids) && AllInitialized(asks)
    requires k <= |Serialized(TheFeed(code, bids, asks))|
    ensures var run := RunLoop(FEED, EMPTY, Serialized(TheFeed(code, bids, asks))[..k], room);
      run.ok && run.ended && FeedInitialized(run.message) <==> LeavesFewerDepths(code, bids, asks, k)
  {
    hide RunLoop, Serialized, TheFeed, FeedInitialized, Parsed, Schema;
    var cut := Serialized(TheFeed(code, bids, asks))[..k];
    if LeavesFewerDepths(code, bids, asks, k) {
      var i, j :| 0 <= i <= |bids| && 0 <= j <= |asks| && (i == |bids| || j == 0)
        && k == |Serialized(TheFeed(code, bids[..i], asks[..j]))|;
      FewerIsPrefix(code, bids, asks, i, j);
      assert cut == Serialized(TheFeed(code, bids[..i], asks[..j]));
      WholeFeed(code, bids[..i], asks[..j], room);
    } else {
      CutElsewhere(code, bids, asks, k, room);
      RunIsParsed(FEED, EMPTY, cut, room);
    }
  }

  // ----- A truncated feed that the loop takes -----

  const ONE_DEPTH := Depth(Some(1), Some(2), Some(3), 0)

  /**
   * "A" with one depth, cut right after the length of the depth: the length reaches past the end, and the loop reads
   * a feed with an empty depth.
   */
  lemma TruncatedFeedExample(room: nat)
    requires room > 0
    ensures var whole := Serialized(TheFeed([65], [ONE_DEPTH], [])); var cut: bytes := [10, 1, 65, 18, 9];
      |whole| == 14 && whole[..5] == cut
      && var run := RunLoop(FEED, EMPTY, cut, room);
         run == Run(true, true, TheFeed([65], [NEW_DEPTH], [])) && !FeedInitialized(run.message)
  {
    var cut: bytes := [10, 1, 65, 18, 9];
    ExampleBytes();
    FeedInitializedIs(Some([65]), [NEW_DEPTH], [], 0);
    assert !DepthInitialized(NEW_DEPTH) && [NEW_DEPTH][0] == NEW_DEPTH;
    hide RunLoop, Serialized, TheFeed, Parsed, Schema, FeedInitialized;
    var s := CodeRead([65], [18, 9], room);
    assert [10, 1, 65] + [18, 9] == cut;
    LengthOnly(s, room);
    RunIsParsed(FEED, EMPTY, cut, room);
    RunOfParsed(FEED, cut, room);
  }

  lemma LengthOnly(s: Message, room: nat)
    requires room > 0 && s == TheFeed([65], [], [])
    ensures Parsed(Schema(), FEED, s, [18, 9], room) == Some(TheFeed([65], [NEW_DEPTH], []))
  {
    hide Parsed, Schema, ValueParsed, FeedMessage, DepthMessage, Stored, VarintBytes;
    var b: bytes := [9];
    BidTag(b);
    EmptyBidStored(s);
    FeedDepthField(2);
    FieldCutParsed(Schema(), FEED, s, 2, b, room);
    EmptyMessageValue(MessageIn(Entry(s, 2)), room);
    AtTheEnd(Schema(), FEED, TheFeed([65], [NEW_DEPTH], []), room);
  }

  lemma BidTag(b: bytes)
    requires b == [9]
    ensures VarintBytes(TagOf(2, WireTypeOf(MESSAGE))) + b == [18, 9]
  {
  }

  lemma EmptyBidStored(s: Message)
    requires s == TheFeed([65], [], [])
    ensures Stored(s, 2, FieldInfo(FEED, 2), Msg(EMPTY)) == TheFeed([65], [NEW_DEPTH], [])
  {
    hide Stored, FeedMessage, DepthMessage;
    NewDepthIsEmpty();
    FeedBidStored(Some([65]), [], [], NEW_DEPTH, 0);
    assert [] + [NEW_DEPTH] == [NEW_DEPTH];
  }

  lemma EmptyMessageValue(was: Message, room: nat)
    requires room > 0
    ensures ValueParsed(Schema(), FieldInfo(FEED, 2), was, [9], room) == Done(Msg(EMPTY), [])
  {
    FeedDepthField(2);
    assert VarintBytes(9) == [9] && VarintBytes(9) + [] == [9];
    VarintRoundTrip(9, []);
    AtTheEnd(Schema(), DEPTH, EMPTY, room - 1);
    hide Parsed, Schema, Varint32At, VarintBytes;
  }

  lemma ExampleBytes()
    ensures CodeBytes([65]) == [10, 1, 65]
    ensures var whole := Serialized(TheFeed([65], [ONE_DEPTH], [])); |whole| == 14 && whole[..5] == [10, 1, 65, 18, 9]
  {
    hide Serialized, TheFeed, DepthsBytes, CodeBytes;
    ExampleCode();
    ExampleDepth();
    FeedBytes([65], [ONE_DEPTH], []);
    NoDepths(3);
  }

  lemma ExampleCode()
    ensures CodeBytes([65]) == [10, 1, 65]
  {
    assert VarintBytes(TagOf(1, LENGTH_DELIMITED)) == [10] && VarintBytes(1) == [1];
  }

  lemma ExampleDepth()
    ensures |DepthsBytes(2, [ONE_DEPTH])| == 11 && DepthsBytes(2, [ONE_DEPTH])[..2] == [18, 9]
  {
    hide DepthMessage, RangeBytes, RangeSize, DepthsBytes;
    ExampleBody();
    NineByteDepth(ONE_DEPTH);
  }

  lemma NineByteDepth(d: Depth)
    requires |Bytes(DepthMessage(d))| == 9
    ensures |DepthBytes(2, d)| == 11 && DepthBytes(2, d)[..2] == [18, 9]
  {
    assert VarintBytes(TagOf(2, LENGTH_DELIMITED)) == [18] && VarintBytes(9) == [9];
    WrittenIsFresh(d);
    hide VarintBytes, DepthMessage, RangeBytes, RangeSize, DepthsBytes;
    DepthBytesAre(2, d);
  }

  lemma ExampleBody()
    ensures |Bytes(DepthMessage(ONE_DEPTH))| == 9
  {
    hide FieldBytes, RangeBytes, RangeSize, DepthMessage;
    ExampleNumbers();
    DepthParts(ONE_DEPTH);
  }

  lemma ExampleNumbers()
    ensures |FieldBytes(1, INT32, Some(Num(1)))| == 2 && |FieldBytes(2, INT32, Some(Num(2)))| == 2
    ensures |FieldBytes(3, FLOAT, Some(Num(3)))| == 5
  {
    assert TagOf(1, VARINT) == 8 && TagOf(2, VARINT) == 16 && TagOf(3, FIXED_32) == 29;
  }
}
