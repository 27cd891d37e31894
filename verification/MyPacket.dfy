/** The packets of the order server: the generated parsers with their jumps, serializers, sizes and merges. */
module MyPacket {
  import opened OrderedMaps
  import opened Wire
  import opened CodedStream
  import opened Extensions
  import opened ExtensionCodec
  import opened ExtensionParsing
  import opened ExtensionWriters
  import opened PacketLoop

  type int32 = x: int | -0x8000_0000 <= x < 0x8000_0000
  /** The bit pattern of a single-precision number. */
  type float = x: int | 0 <= x < 0x1_0000_0000

  // ----- Packets as messages -----

  /** A field that is there when its has-bit is set. */
  function Put(fields: map<int, Extension>, n: int, t: FieldType, v: Option<Value>): map<int, Extension> {
    if v.Some? then fields[n := Singular(t, false, v.value)] else fields
  }

  /** A repeated field that is there when it has elements. */
  function PutAll(fields: map<int, Extension>, n: int, t: FieldType, values: seq<Value>): map<int, Extension> {
    if values != [] then fields[n := Repeated(t, false, values, 0)] else fields
  }

  function Number(v: Option<int>): Option<Value> {
    if v.Some? then Some(Num(v.value)) else None
  }

  function Text(v: Option<bytes>): Option<Value> {
    if v.Some? then Some(Str(v.value)) else None
  }

  /** An absent value has no has-bit. */
  datatype Depth = Depth(count: Option<int32>, qty: Option<int32>, price: Option<float>, cachedSize: nat)

  datatype Position = Position(x: Option<float>, y: Option<float>, z: Option<float>, cachedSize: nat)

  const NEW_DEPTH := Depth(None, None, None, 0)
  const NEW_POSITION := Position(None, None, None, 0)

  function DepthMessage(d: Depth): Message {
    Message(Put(Put(Put(map[], 1, INT32, Number(d.count)), 2, INT32, Number(d.qty)), 3, FLOAT, Number(d.price)),
            d.cachedSize)
  }

  function PositionMessage(p: Position): Message {
    Message(Put(Put(Put(map[], 1, FLOAT, Number(p.x)), 2, FLOAT, Number(p.y)), 3, FLOAT, Number(p.z)), p.cachedSize)
  }

  function DepthValues(ds: seq<Depth>): (values: seq<Value>)
    ensures |values| == |ds| && forall i | 0 <= i < |ds| :: values[i] == Msg(DepthMessage(ds[i]))
  {
    seq(|ds|, i requires 0 <= i < |ds| => Msg(DepthMessage(ds[i])))
  }

  function FeedMessage(productCode: Option<bytes>, bidDepth: seq<Depth>, askDepth: seq<Depth>,
                       cachedSize: nat): Message
  {
    Message(PutAll(PutAll(Put(map[], 1, STRING, Text(productCode)), 2, MESSAGE, DepthValues(bidDepth)),
                   3, MESSAGE, DepthValues(askDepth)), cachedSize)
  }

  function OrderMessage(orderNumber: Option<int32>, orderQty: Option<int32>, orderPrice: Option<float>,
                        productCode: Option<bytes>, cachedSize: nat): Message
  {
    Message(Put(Put(Put(Put(map[], 1, INT32, Number(orderNumber)), 2, INT32, Number(orderQty)), 3, FLOAT,
                    Number(orderPrice)),
                4, STRING, Text(productCode)), cachedSize)
  }

  function LoginResultMessage(playerId: Option<int32>, playerName: Option<bytes>, playerPos: Option<Position>,
                              cachedSize: nat): Message
  {
    Message(Put(Put(Put(map[], 1, INT32, Number(playerId)), 2, STRING, Text(playerName)),
                3, MESSAGE, if playerPos.Some? then Some(Msg(PositionMessage(playerPos.value))) else None), cachedSize)
  }

  // ----- The plain loop, field by field -----

  /** The outcome of the plain loop after a number field. */
  lemma NumberField(t: nat, n: nat, m: Message, tag: nat, b: bytes, room: nat)
    requires 1 <= n <= FieldCount(t) && tag == n * 8 + WireTypeOf(FieldInfo(t, n).fieldType)
      && IsPrimitive(FieldInfo(t, n).fieldType)
    ensures Expected(Schema(), t, tag)
    ensures var info := FieldInfo(t, n);
      var r := PrimitiveAt(info.fieldType, b);
      RunFrom(t, m, tag, b, room) ==
        if r.Failed? then Run(false, false, m) else RunLoop(t, Stored(m, n, info, Num(r.value)), r.rest, room)
  {
    hide PrimitiveAt, Stored, Schema, RunLoop, Expected;
    TagOfField(t, n, tag);
  }

  lemma StringField(t: nat, n: nat, m: Message, tag: nat, b: bytes, room: nat)
    requires 1 <= n <= FieldCount(t) && tag == n * 8 + WireTypeOf(FieldInfo(t, n).fieldType)
      && FieldInfo(t, n).fieldType == STRING
    ensures Expected(Schema(), t, tag)
    ensures var info := FieldInfo(t, n);
      var r := RunString(StringIn(Entry(m, n)), b);
      RunFrom(t, m, tag, b, room) ==
        if r.StoppedString? then Run(false, false, Stored(m, n, info, Str(r.s)))
        else RunLoop(t, Stored(m, n, info, Str(r.s)), r.rest, room)
  {
    hide RunString, StringIn, Stored, Schema, RunLoop, Expected;
    TagOfField(t, n, tag);
  }

  lemma MessageField(t: nat, n: nat, m: Message, tag: nat, b: bytes, room: nat)
    requires 1 <= n <= FieldCount(t) && tag == n * 8 + WireTypeOf(FieldInfo(t, n).fieldType)
      && FieldInfo(t, n).fieldType == MESSAGE
    ensures Expected(Schema(), t, tag)
    ensures var info := FieldInfo(t, n);
      var r := RunMessage(info.messageType, if info.repeated then EMPTY else MessageIn(Entry(m, n)), b, room);
      RunFrom(t, m, tag, b, room) ==
        if r.Stopped? then Run(false, false, Stored(m, n, info, Msg(r.message)))
        else RunLoop(t, Stored(m, n, info, Msg(r.message)), r.rest, room)
  {
    hide RunMessage, MessageIn, Stored, Schema, RunLoop, Expected;
    TagOfField(t, n, tag);
  }

  /** The outcome of the plain loop, by what is next. */
  lemma NextTagRun(t: nat, m: Message, b: bytes, room: nat)
    ensures var tag := TagAt(b);
      && (tag.AtEnd? ==> RunLoop(t, m, b, room) == Run(true, true, m))
      && (tag.Broken? ==> RunLoop(t, m, b, room) == Run(true, false, m))
      && (tag.Next? && Expected(Schema(), t, tag.tag) ==>
          RunLoop(t, m, b, room) == RunFrom(t, m, tag.tag, tag.rest, room))
      && (tag.Next? && !Expected(Schema(), t, tag.tag) ==>
            RunLoop(t, m, b, room) ==
              if tag.tag % 8 == END_GROUP then Run(true, false, m)
              else var after := AfterField(tag.rest, tag.tag, room);
                   if after.Failed? then Run(false, false, m) else RunLoop(t, m, after.rest, room))
  {
    hide TagAt, AfterField, Schema, RunFrom;
  }

  /** Field numbers and wire types are told apart by the tag. */
  lemma TagExpected(t: nat, tag: nat)
    ensures Expected(Schema(), t, tag)
      <==> 1 <= tag / 8 <= FieldCount(t) && tag % 8 == WireTypeOf(FieldInfo(t, tag / 8).fieldType)
  {
  }

  /** `GetTagFieldNumber`. */
  function FieldNumber(tag: nat): nat {
    tag / 8
  }

  /** `GetTagWireType`. */
  function WireType(tag: nat): nat {
    tag % 8
  }

  lemma TagParts(t: nat, tag: nat)
    ensures tag == FieldNumber(tag) * 8 + WireType(tag)
    ensures Expected(Schema(), t, tag) <==>
      1 <= FieldNumber(tag) <= FieldCount(t) && WireType(tag) == WireTypeOf(FieldInfo(t, FieldNumber(tag)).fieldType)
  {
    TagExpected(t, tag);
  }

  lemma TagOfField(t: nat, n: nat, tag: nat)
    requires 1 <= n <= FieldCount(t) && tag == n * 8 + WireTypeOf(FieldInfo(t, n).fieldType)
    ensures Expected(Schema(), t, tag) && tag / 8 == n && 0 < tag < TWO_32
  {
    assert tag / 8 == n && tag % 8 == WireTypeOf(FieldInfo(t, n).fieldType);
    TagExpected(t, tag);
  }

  lemma TagFacts(b: bytes)
    ensures TagAt(b).AtEnd? <==> b == []
    ensures TagAt(b).Next? ==> 0 < TagAt(b).tag < TWO_32 && |TagAt(b).rest| < |b|
  {
  }

  /**
   * How the cases of a switch may leave off: with failure, by returning at the end, or back at the head of the loop.
   */
  ghost predicate Outcome(t: nat, run: Run, ok: bool, returned: bool, m: Message, rest: bytes, legitimateEnd: bool,
                          room: nat)
  {
    && (!ok ==> run == Run(false, false, m))
    && (ok && returned ==> run == Run(true, true, m) && legitimateEnd && rest == [])
    && (ok && !returned ==> !legitimateEnd && run == RunLoop(t, m, rest, room))
  }

  /** `handle_uninterpreted`: an end-group tag ends the message; anything else is skipped. */
  method HandleUninterpreted(ghost t: nat, ghost m: Message, tag: nat, ghost b: bytes, input: CodedInputStream)
    returns (ok: bool, returned: bool)
    requires input.Valid() && input.Room() >= 0 && !input.legitimateEnd
    requires TagAt(b) == Next(tag, input.Rest()) && !Expected(Schema(), t, tag)
    modifies input`pos, input`lastTag, input`legitimateEnd, input`depth
    ensures input.Valid()
      && (ok ==> input.depth == old(input.depth) && input.pos >= old(input.pos) && !input.legitimateEnd)
    ensures !ok ==> RunLoop(t, m, b, old(input.Room())) == Run(false, false, m)
    ensures ok && returned ==> RunLoop(t, m, b, old(input.Room())) == Run(true, false, m)
    ensures ok && !returned ==> RunLoop(t, m, b, old(input.Room())) == RunLoop(t, m, input.Rest(), input.Room())
  {
    hide RunLoop, RunFrom, TagAt, AfterField, Schema, Expected;
    NextTagRun(t, m, b, input.Room());
    if tag % 8 == END_GROUP { return true, true; }
    ok := input.SkipField(tag);
    returned := false;
  }

  /** A jump, taken if the next tag is the expected one. */
  method Jump(ghost t: nat, ghost m: Message, tag: nat, input: CodedInputStream) returns (taken: bool)
    requires input.Valid() && 0 < tag < TWO_32 && Expected(Schema(), t, tag) && input.Room() >= 0
    modifies input`pos
    ensures input.Valid() && input.pos >= old(input.pos)
    ensures taken ==> RunLoop(t, m, old(input.Rest()), input.Room()) == RunFrom(t, m, tag, input.Rest(), input.Room())
    ensures !taken ==> input.pos == old(input.pos)
  {
    hide RunLoop, RunFrom, TagAt, Schema, Expected;
    NextTagRun(t, m, input.Rest(), input.Room());
    taken := input.ExpectTag(tag);
  }

  /** The end, if the stream can tell. */
  method ReturnAtEnd(ghost t: nat, ghost m: Message, input: CodedInputStream) returns (returned: bool)
    requires input.Valid() && input.Room() >= 0 && !input.legitimateEnd
    modifies input`lastTag, input`legitimateEnd
    ensures returned ==> RunLoop(t, m, input.Rest(), input.Room()) == Run(true, true, m) && input.Rest() == []
    ensures returned == input.legitimateEnd
  {
    hide RunLoop, RunFrom, TagAt, Schema, Expected;
    NextTagRun(t, m, input.Rest(), input.Room());
    TagFacts(input.Rest());
    returned := input.ExpectAtEnd();
  }

  /** `ReadString` into a member that may hold something. */
  method ReadText(was: bytes, input: CodedInputStream) returns (ok: bool, s: bytes)
    requires input.Valid()
    modifies input`pos
    ensures input.Valid() && (ok ==> input.pos > old(input.pos))
    ensures RunString(was, old(input.Rest())) == if ok then RanString(s, input.Rest()) else StoppedString(s)
  {
    hide Varint32At;
    var size;
    ok, size := input.ReadVarint32();
    if !ok { return false, was; }
    ok, s := input.ReadString(size, was);
  }

  // ----- Depth -----

  lemma DepthStored(d: Depth, n: nat, v: int)
    requires 1 <= n <= 3 && InRange(FieldInfo(DEPTH, n).fieldType, v)
    ensures Stored(DepthMessage(d), n, FieldInfo(DEPTH, n), Num(v)) == DepthMessage(
      if n == 1 then d.(count := Some(v)) else if n == 2 then d.(qty := Some(v)) else d.(price := Some(v)))
  {
  }

  /** The tags that the jumps compare with. */
  function DepthTag(at: nat): nat {
    if at == 1 then 8 else if at == 2 then 16 else 29
  }

  lemma DepthTagExpected(at: nat)
    requires 1 <= at <= 3
    ensures Expected(Schema(), DEPTH, DepthTag(at)) && DepthTag(at) / 8 == at && 0 < DepthTag(at) < TWO_32
  {
    TagOfField(DEPTH, at, DepthTag(at));
  }

  /** The switch: the field that a tag leads to, 0 for `handle_uninterpreted`. */
  method DepthCase(tag: nat) returns (first: nat)
    ensures first != 0 ==> 1 <= first <= 3 && DepthTag(first) == tag
    ensures first == 0 ==> !Expected(Schema(), DEPTH, tag)
  {
    hide Schema, Expected, FieldNumber, WireType;
    TagParts(DEPTH, tag);
    first := 0;
    if FieldNumber(tag) == 1 && WireType(tag) == VARINT {
      first := 1;
    } else if FieldNumber(tag) == 2 && WireType(tag) == VARINT {
      first := 2;
    } else if FieldNumber(tag) == 3 && WireType(tag) == FIXED_32 {
      first := 3;
    }
  }

  /** The jumps after field `at`: the field whose tag is next, 0 for the head of the loop, or a return at the end. */
  method DepthJumps(at: nat, ghost m: Message, input: CodedInputStream) returns (next: nat, returned: bool)
    requires input.Valid() && !input.legitimateEnd && input.Room() >= 0 && 1 <= at <= 3
    modifies input`pos, input`lastTag, input`legitimateEnd
    ensures input.Valid() && input.pos >= old(input.pos) && next <= 3
    ensures returned ==> RunLoop(DEPTH, m, old(input.Rest()), input.Room()) == Run(true, true, m)
    ensures returned ==> input.legitimateEnd && input.Rest() == []
    ensures !returned ==> !input.legitimateEnd
    ensures !returned && next == 0 ==> input.pos == old(input.pos)
    ensures !returned && next != 0 ==>
      && Expected(Schema(), DEPTH, DepthTag(next))
      && RunLoop(DEPTH, m, old(input.Rest()), input.Room())
        == RunFrom(DEPTH, m, DepthTag(next), input.Rest(), input.Room())
  {
    hide RunLoop, RunFrom, TagAt, Schema, Expected, DepthTag;
    next, returned := 0, false;
    if at < 3 {
      DepthTagExpected(at + 1);
      var jump := Jump(DEPTH, m, DepthTag(at + 1), input);
      if jump { next := at + 1; }
    } else {
      returned := ReturnAtEnd(DEPTH, m, input);
    }
  }

  /** `Depth::MergePartialFromCodedStream`: the loop that reads tags. */
  method MergeDepthFromCodedStream(d: Depth, input: CodedInputStream) returns (ok: bool, r: Depth)
    requires input.Valid() && input.Room() >= 0 && !input.legitimateEnd
    modifies input`pos, input`lastTag, input`legitimateEnd, input`depth
    ensures input.Valid() && (ok ==> input.depth == old(input.depth))
    ensures var run := RunLoop(DEPTH, DepthMessage(d), old(input.Rest()), old(input.Room()));
      && ok == run.ok && DepthMessage(r) == run.message
      && (ok ==> input.legitimateEnd == run.ended && (run.ended ==> input.Rest() == []))
  {
    hide RunLoop, RunFrom, TagAt, AfterField, Schema, DepthMessage, Expected;
    ghost var run, room := RunLoop(DEPTH, DepthMessage(d), input.Rest(), input.Room()), input.Room();
    r := d;
    while true
      invariant input.Valid() && input.depth == old(input.depth) && !input.legitimateEnd
      invariant run == RunLoop(DEPTH, DepthMessage(r), input.Rest(), room)
      decreases input.limit - input.pos
    {
      ghost var b := input.Rest();
      TagFacts(b);
      NextTagRun(DEPTH, DepthMessage(r), b, room);
      var tag := input.ReadTag();
      if tag == 0 { return true, r; }
      var first := DepthCase(tag);
      if first != 0 {
        var returned;
        ok, returned, r := MergeDepthFields(r, first, input);
        if !ok || returned { return; }
      } else {
        var returned;
        ok, returned := HandleUninterpreted(DEPTH, DepthMessage(r), tag, b, input);
        if !ok || returned { return; }
      }
    }
  }

  /** One field, and the jump after it. */
  method DepthStep(d: Depth, at: nat, input: CodedInputStream)
    returns (ok: bool, next: nat, returned: bool, r: Depth)
    requires input.Valid() && !input.legitimateEnd && input.Room() >= 0 && 1 <= at <= 3
    requires Expected(Schema(), DEPTH, DepthTag(at))
    modifies input`pos, input`lastTag, input`legitimateEnd
    ensures input.Valid() && input.pos >= old(input.pos) && next <= 3
      && (ok && !returned ==> input.pos > old(input.pos))
    ensures ok && !returned && next != 0 ==> Expected(Schema(), DEPTH, DepthTag(next))
    ensures DepthStepped(RunFrom(DEPTH, DepthMessage(d), DepthTag(at), old(input.Rest()), input.Room()), ok, next,
                         returned,
                         DepthMessage(r), input.Rest(), input.legitimateEnd, input.Room())
  {
    hide RunLoop, RunFrom, TagAt, Schema, DepthMessage, Expected, DepthTag;
    next, returned := 0, false;
    ok, r := ReadDepthField(d, at, input);
    if ok { next, returned := DepthJumps(at, DepthMessage(r), input); }
  }

  ghost predicate DepthStepped(run: Run, ok: bool, next: nat, returned: bool, m: Message, rest: bytes,
                               legitimateEnd: bool, room: nat)
    requires ok && !returned && next != 0 ==> Expected(Schema(), DEPTH, DepthTag(next))
  {
    if ok && !returned && next != 0 then !legitimateEnd && run == RunFrom(DEPTH, m, DepthTag(next), rest, room)
    else Outcome(DEPTH, run, ok, returned, m, rest, legitimateEnd, room)
  }

  lemma DepthStarts(m: Message, at: nat, rest: bytes, room: nat)
    requires 1 <= at <= 3 && Expected(Schema(), DEPTH, DepthTag(at))
    ensures DepthStepped(RunFrom(DEPTH, m, DepthTag(at), rest, room), true, at, false, m, rest, false, room)
  {
    hide Expected, Schema, RunFrom, DepthTag;
  }

  lemma DepthEnds(run: Run, ok: bool, next: nat, returned: bool, m: Message, rest: bytes, legitimateEnd: bool,
                  room: nat)
    requires !(ok && !returned && next != 0) && DepthStepped(run, ok, next, returned, m, rest, legitimateEnd, room)
    ensures Outcome(DEPTH, run, ok, returned, m, rest, legitimateEnd, room)
  {
    hide Expected, Schema, RunFrom, DepthTag;
  }

  /** The cases of the switch: field `first` is read, and then whatever the jumps lead to. */
  method MergeDepthFields(d: Depth, first: nat, input: CodedInputStream) returns (ok: bool, returned: bool, r: Depth)
    requires input.Valid() && !input.legitimateEnd && input.Room() >= 0 && 1 <= first <= 3
    modifies input`pos, input`lastTag, input`legitimateEnd
    ensures input.Valid() && input.pos >= old(input.pos)
    ensures Expected(Schema(), DEPTH, DepthTag(first))
    ensures Outcome(DEPTH, RunFrom(DEPTH, DepthMessage(d), DepthTag(first), old(input.Rest()), old(input.Room())),
                    ok, returned, DepthMessage(r), input.Rest(), input.legitimateEnd, input.Room())
  {
    DepthTagExpected(first);
    hide RunLoop, RunFrom, TagAt, Schema, DepthMessage, Expected, DepthTag, Outcome, DepthStepped;
    ghost var run := RunFrom(DEPTH, DepthMessage(d), DepthTag(first), input.Rest(), input.Room());
    DepthStarts(DepthMessage(d), first, input.Rest(), input.Room());
    var at := first;
    ok, returned, r := true, false, d;
    while at != 0
      invariant input.Valid() && input.pos >= old(input.pos) && !input.legitimateEnd && ok && !returned && at <= 3
      invariant at != 0 ==> Expected(Schema(), DEPTH, DepthTag(at))
      invariant DepthStepped(run, ok, at, returned, DepthMessage(r), input.Rest(), input.legitimateEnd, input.Room())
      decreases input.limit - input.pos
    {
      ok, at, returned, r := DepthStep(r, at, input);
      if !ok || returned { break; }
    }
    DepthEnds(run, ok, at, returned, DepthMessage(r), input.Rest(), input.legitimateEnd, input.Room());
  }

  /** One field, into its member. */
  method ReadDepthField(d: Depth, at: nat, input: CodedInputStream) returns (ok: bool, r: Depth)
    requires input.Valid() && !input.legitimateEnd && input.Room() >= 0 && 1 <= at <= 3
    requires Expected(Schema(), DEPTH, DepthTag(at))
    modifies input`pos
    ensures input.Valid() && input.pos >= old(input.pos) && (ok ==> input.pos > old(input.pos))
    ensures RunFrom(DEPTH, DepthMessage(d), DepthTag(at), old(input.Rest()), input.Room())
         == if ok then RunLoop(DEPTH, DepthMessage(r), input.Rest(), input.Room())
           else Run(false, false, DepthMessage(r))
  {
    hide RunLoop, RunFrom, TagAt, PrimitiveAt, Stored, Schema, DepthMessage, Expected, DepthTag;
    DepthTagExpected(at);
    NumberField(DEPTH, at, DepthMessage(d), DepthTag(at), input.Rest(), input.Room());
    r := d;
    var v;
    ok, v := input.ReadPrimitive(if at == 3 then FLOAT else INT32);
    if !ok { return; }
    DepthStored(r, at, v);
    if at == 1 {
      r := r.(count := Some(v));
    } else if at == 2 {
      r := r.(qty := Some(v));
    } else {
      r := r.(price := Some(v));
    }
  }

  /** `ReadMessageNoVirtual`, for a Depth. */
  method ReadDepth(d: Depth, input: CodedInputStream) returns (ok: bool, r: Depth)
    requires input.Valid() && input.Room() >= 0 && !input.legitimateEnd
    modifies input`pos, input`limit, input`lastTag, input`legitimateEnd, input`depth
    ensures input.Valid()
    ensures ok ==>
      input.depth == old(input.depth) && input.limit == old(input.limit) && !input.legitimateEnd
        && input.pos > old(input.pos)
    ensures RunMessage(DEPTH, DepthMessage(d), old(input.Rest()), old(input.Room()))
         == if ok then Ran(DepthMessage(r), input.Rest()) else Stopped(DepthMessage(r))
  {
    hide RunWithin, Varint32At, DepthMessage;
    r := d;
    var size;
    ok, size := input.ReadVarint32();
    if !ok { return; }
    ok, r := ReadDepthWithin(d, size, input);
  }

  method ReadDepthWithin(d: Depth, size: nat, input: CodedInputStream) returns (ok: bool, r: Depth)
    requires input.Valid() && input.Room() >= 0 && !input.legitimateEnd
    modifies input`pos, input`limit, input`lastTag, input`legitimateEnd, input`depth
    ensures input.Valid()
    ensures ok ==>
      input.depth == old(input.depth) && input.limit == old(input.limit) && !input.legitimateEnd
        && input.pos >= old(input.pos)
    ensures RunWithin(DEPTH, DepthMessage(d), size, old(input.Rest()), old(input.Room()))
         == if ok then Ran(DepthMessage(r), input.Rest()) else Stopped(DepthMessage(r))
  {
    hide RunLoop, DepthMessage;
    r := d;
    ghost var after := input.Rest();
    ok := input.IncrementRecursionDepth();
    if !ok { return; }
    var oldLimit := input.PushLimit(size);
    ghost var before := input.pos;
    assert input.Rest() == after[..Min(size, |after|)];
    ok, r := MergeDepthFromCodedStream(d, input);
    if !ok { return; }
    if !input.legitimateEnd { return false, r; }
    input.PopLimit(oldLimit);
    input.DecrementRecursionDepth();
    assert input.Rest() == after[Min(size, |after|)..];
  }

  // ----- Position -----

  lemma PositionStored(p: Position, n: nat, v: int)
    requires 1 <= n <= 3 && InRange(FieldInfo(POSITION, n).fieldType, v)
    ensures Stored(PositionMessage(p), n, FieldInfo(POSITION, n), Num(v)) == PositionMessage(
      if n == 1 then p.(x := Some(v)) else if n == 2 then p.(y := Some(v)) else p.(z := Some(v)))
  {
  }

  /** The tags that the jumps compare with. */
  function PositionTag(at: nat): nat {
    if at == 1 then 13 else if at == 2 then 21 else 29
  }

  lemma PositionTagExpected(at: nat)
    requires 1 <= at <= 3
    ensures Expected(Schema(), POSITION, PositionTag(at)) && PositionTag(at) / 8 == at && 0 < PositionTag(at) < TWO_32
  {
    TagOfField(POSITION, at, PositionTag(at));
  }

  /** The switch: the field that a tag leads to, 0 for `handle_uninterpreted`. */
  method PositionCase(tag: nat) returns (first: nat)
    ensures first != 0 ==> 1 <= first <= 3 && PositionTag(first) == tag
    ensures first == 0 ==> !Expected(Schema(), POSITION, tag)
  {
    hide Schema, Expected, FieldNumber, WireType;
    TagParts(POSITION, tag);
    first := 0;
    if FieldNumber(tag) == 1 && WireType(tag) == FIXED_32 {
      first := 1;
    } else if FieldNumber(tag) == 2 && WireType(tag) == FIXED_32 {
      first := 2;
    } else if FieldNumber(tag) == 3 && WireType(tag) == FIXED_32 {
      first := 3;
    }
  }

  /** The jumps after field `at`: the field whose tag is next, 0 for the head of the loop, or a return at the end. */
  method PositionJumps(at: nat, ghost m: Message, input: CodedInputStream) returns (next: nat, returned: bool)
    requires input.Valid() && !input.legitimateEnd && input.Room() >= 0 && 1 <= at <= 3
    modifies input`pos, input`lastTag, input`legitimateEnd
    ensures input.Valid() && input.pos >= old(input.pos) && next <= 3
    ensures returned ==> RunLoop(POSITION, m, old(input.Rest()), input.Room()) == Run(true, true, m)
    ensures returned ==> input.legitimateEnd && input.Rest() == []
    ensures !returned ==> !input.legitimateEnd
    ensures !returned && next == 0 ==> input.pos == old(input.pos)
    ensures !returned && next != 0 ==>
      && Expected(Schema(), POSITION, PositionTag(next))
      && RunLoop(POSITION, m, old(input.Rest()), input.Room())
        == RunFrom(POSITION, m, PositionTag(next), input.Rest(), input.Room())
  {
    hide RunLoop, RunFrom, TagAt, Schema, Expected, PositionTag;
    next, returned := 0, false;
    if at < 3 {
      PositionTagExpected(at + 1);
      var jump := Jump(POSITION, m, PositionTag(at + 1), input);
      if jump { next := at + 1; }
    } else {
      returned := ReturnAtEnd(POSITION, m, input);
    }
  }

  /** `Position::MergePartialFromCodedStream`: the loop that reads tags. */
  method MergePositionFromCodedStream(p: Position, input: CodedInputStream) returns (ok: bool, r: Position)
    requires input.Valid() && input.Room() >= 0 && !input.legitimateEnd
    modifies input`pos, input`lastTag, input`legitimateEnd, input`depth
    ensures input.Valid() && (ok ==> input.depth == old(input.depth))
    ensures var run := RunLoop(POSITION, PositionMessage(p), old(input.Rest()), old(input.Room()));
      && ok == run.ok && PositionMessage(r) == run.message
      && (ok ==> input.legitimateEnd == run.ended && (run.ended ==> input.Rest() == []))
  {
    hide RunLoop, RunFrom, TagAt, AfterField, Schema, PositionMessage, Expected;
    ghost var run, room := RunLoop(POSITION, PositionMessage(p), input.Rest(), input.Room()), input.Room();
    r := p;
    while true
      invariant input.Valid() && input.depth == old(input.depth) && !input.legitimateEnd
      invariant run == RunLoop(POSITION, PositionMessage(r), input.Rest(), room)
      decreases input.limit - input.pos
    {
      ghost var b := input.Rest();
      TagFacts(b);
      NextTagRun(POSITION, PositionMessage(r), b, room);
      var tag := input.ReadTag();
      if tag == 0 { return true, r; }
      var first := PositionCase(tag);
      if first != 0 {
        var returned;
        ok, returned, r := MergePositionFields(r, first, input);
        if !ok || returned { return; }
      } else {
        var returned;
        ok, returned := HandleUninterpreted(POSITION, PositionMessage(r), tag, b, input);
        if !ok || returned { return; }
      }
    }
  }

  /** One field, and the jump after it. */
  method PositionStep(p: Position, at: nat, input: CodedInputStream)
    returns (ok: bool, next: nat, returned: bool, r: Position)
    requires input.Valid() && !input.legitimateEnd && input.Room() >= 0 && 1 <= at <= 3
    requires Expected(Schema(), POSITION, PositionTag(at))
    modifies input`pos, input`lastTag, input`legitimateEnd
    ensures input.Valid() && input.pos >= old(input.pos) && next <= 3
      && (ok && !returned ==> input.pos > old(input.pos))
    ensures ok && !returned && next != 0 ==> Expected(Schema(), POSITION, PositionTag(next))
    ensures PositionStepped(RunFrom(POSITION, PositionMessage(p), PositionTag(at), old(input.Rest()), input.Room()), ok,
                            next, returned,
                         PositionMessage(r), input.Rest(), input.legitimateEnd, input.Room())
  {
    hide RunLoop, RunFrom, TagAt, Schema, PositionMessage, Expected, PositionTag;
    next, returned := 0, false;
    ok, r := ReadPositionField(p, at, input);
    if ok { next, returned := PositionJumps(at, PositionMessage(r), input); }
  }

  ghost predicate PositionStepped(run: Run, ok: bool, next: nat, returned: bool, m: Message, rest: bytes,
                               legitimateEnd: bool, room: nat)
    requires ok && !returned && next != 0 ==> Expected(Schema(), POSITION, PositionTag(next))
  {
    if ok && !returned && next != 0 then !legitimateEnd && run == RunFrom(POSITION, m, PositionTag(next), rest, room)
    else Outcome(POSITION, run, ok, returned, m, rest, legitimateEnd, room)
  }

  lemma PositionStarts(m: Message, at: nat, rest: bytes, room: nat)
    requires 1 <= at <= 3 && Expected(Schema(), POSITION, PositionTag(at))
    ensures PositionStepped(RunFrom(POSITION, m, PositionTag(at), rest, room), true, at, false, m, rest, false, room)
  {
    hide Expected, Schema, RunFrom, PositionTag;
  }

  lemma PositionEnds(run: Run, ok: bool, next: nat, returned: bool, m: Message, rest: bytes, legitimateEnd: bool,
                     room: nat)
    requires !(ok && !returned && next != 0) && PositionStepped(run, ok, next, returned, m, rest, legitimateEnd, room)
    ensures Outcome(POSITION, run, ok, returned, m, rest, legitimateEnd, room)
  {
    hide Expected, Schema, RunFrom, PositionTag;
  }

  /** The cases of the switch: field `first` is read, and then whatever the jumps lead to. */
  method MergePositionFields(p: Position, first: nat, input: CodedInputStream)
    returns (ok: bool, returned: bool, r: Position)
    requires input.Valid() && !input.legitimateEnd && input.Room() >= 0 && 1 <= first <= 3
    modifies input`pos, input`lastTag, input`legitimateEnd
    ensures input.Valid() && input.pos >= old(input.pos)
    ensures Expected(Schema(), POSITION, PositionTag(first))
    ensures Outcome(POSITION,
                    RunFrom(POSITION, PositionMessage(p), PositionTag(first), old(input.Rest()), old(input.Room())),
                    ok, returned, PositionMessage(r), input.Rest(), input.legitimateEnd, input.Room())
  {
    PositionTagExpected(first);
    hide RunLoop, RunFrom, TagAt, Schema, PositionMessage, Expected, PositionTag, Outcome, PositionStepped;
    ghost var run := RunFrom(POSITION, PositionMessage(p), PositionTag(first), input.Rest(), input.Room());
    PositionStarts(PositionMessage(p), first, input.Rest(), input.Room());
    var at := first;
    ok, returned, r := true, false, p;
    while at != 0
      invariant input.Valid() && input.pos >= old(input.pos) && !input.legitimateEnd && ok && !returned && at <= 3
      invariant at != 0 ==> Expected(Schema(), POSITION, PositionTag(at))
      invariant PositionStepped(run, ok, at, returned, PositionMessage(r), input.Rest(), input.legitimateEnd,
                                input.Room())
      decreases input.limit - input.pos
    {
      ok, at, returned, r := PositionStep(r, at, input);
      if !ok || returned { break; }
    }
    PositionEnds(run, ok, at, returned, PositionMessage(r), input.Rest(), input.legitimateEnd, input.Room());
  }

  /** One field, into its member. */
  method ReadPositionField(p: Position, at: nat, input: CodedInputStream) returns (ok: bool, r: Position)
    requires input.Valid() && !input.legitimateEnd && input.Room() >= 0 && 1 <= at <= 3
    requires Expected(Schema(), POSITION, PositionTag(at))
    modifies input`pos
    ensures input.Valid() && input.pos >= old(input.pos) && (ok ==> input.pos > old(input.pos))
    ensures RunFrom(POSITION, PositionMessage(p), PositionTag(at), old(input.Rest()), input.Room())
         == if ok then RunLoop(POSITION, PositionMessage(r), input.Rest(), input.Room())
           else Run(false, false, PositionMessage(r))
  {
    hide RunLoop, RunFrom, TagAt, PrimitiveAt, Stored, Schema, PositionMessage, Expected, PositionTag;
    PositionTagExpected(at);
    NumberField(POSITION, at, PositionMessage(p), PositionTag(at), input.Rest(), input.Room());
    r := p;
    var v;
    ok, v := input.ReadPrimitive(FLOAT);
    if !ok { return; }
    PositionStored(r, at, v);
    if at == 1 {
      r := r.(x := Some(v));
    } else if at == 2 {
      r := r.(y := Some(v));
    } else {
      r := r.(z := Some(v));
    }
  }

  /** `ReadMessageNoVirtual`, for a Position. */
  method ReadPosition(p: Position, input: CodedInputStream) returns (ok: bool, r: Position)
    requires input.Valid() && input.Room() >= 0 && !input.legitimateEnd
    modifies input`pos, input`limit, input`lastTag, input`legitimateEnd, input`depth
    ensures input.Valid()
    ensures ok ==>
      input.depth == old(input.depth) && input.limit == old(input.limit) && !input.legitimateEnd
        && input.pos > old(input.pos)
    ensures RunMessage(POSITION, PositionMessage(p), old(input.Rest()), old(input.Room()))
         == if ok then Ran(PositionMessage(r), input.Rest()) else Stopped(PositionMessage(r))
  {
    hide RunWithin, Varint32At, PositionMessage;
    r := p;
    var size;
    ok, size := input.ReadVarint32();
    if !ok { return; }
    ok, r := ReadPositionWithin(p, size, input);
  }

  method ReadPositionWithin(p: Position, size: nat, input: CodedInputStream) returns (ok: bool, r: Position)
    requires input.Valid() && input.Room() >= 0 && !input.legitimateEnd
    modifies input`pos, input`limit, input`lastTag, input`legitimateEnd, input`depth
    ensures input.Valid()
    ensures ok ==>
      input.depth == old(input.depth) && input.limit == old(input.limit) && !input.legitimateEnd
        && input.pos >= old(input.pos)
    ensures RunWithin(POSITION, PositionMessage(p), size, old(input.Rest()), old(input.Room()))
         == if ok then Ran(PositionMessage(r), input.Rest()) else Stopped(PositionMessage(r))
  {
    hide RunLoop, PositionMessage;
    r := p;
    ghost var after := input.Rest();
    ok := input.IncrementRecursionDepth();
    if !ok { return; }
    var oldLimit := input.PushLimit(size);
    ghost var before := input.pos;
    assert input.Rest() == after[..Min(size, |after|)];
    ok, r := MergePositionFromCodedStream(p, input);
    if !ok { return; }
    if !input.legitimateEnd { return false, r; }
    input.PopLimit(oldLimit);
    input.DecrementRecursionDepth();
    assert input.Rest() == after[Min(size, |after|)..];
  }

  // ----- Fields on the wire -----

  /** The bytes of field `n`, none when it is absent. */
  function Part(m: Message, n: int): bytes {
    if n in m.extensions then ExtensionBytes(n, m.extensions[n]) else []
  }

  function PartSize(m: Message, n: int): nat {
    if n in m.extensions then ExtensionSize(n, m.extensions[n]) else 0
  }

  /** A packet is its fields, one after the other. */
  lemma FourParts(m: Message)
    requires forall n | n in m.extensions :: 1 <= n <= 4
    ensures Bytes(m) == Part(m, 1) + Part(m, 2) + Part(m, 3) + Part(m, 4)
    ensures Size(m) == PartSize(m, 1) + PartSize(m, 2) + PartSize(m, 3) + PartSize(m, 4)
  {
    hide Part, PartSize, RangeBytes, RangeSize;
    RangesJoin(m, 1, 5, PAST_NUMBERS);
    EmptyRange(m, 5, PAST_NUMBERS);
    OnePart(m, 1, 5);
    OnePart(m, 2, 5);
    OnePart(m, 3, 5);
    OnePart(m, 4, 5);
    NoPart(m, 5);
    assert RangeBytes(m, 1, 5) == Part(m, 1) + (Part(m, 2) + (Part(m, 3) + (Part(m, 4) + [])));
  }

  lemma OnePart(m: Message, n: int, end: int)
    requires n < end
    ensures RangeBytes(m, n, end) == Part(m, n) + RangeBytes(m, n + 1, end)
    ensures RangeSize(m, n, end) == PartSize(m, n) + RangeSize(m, n + 1, end)
  {
    hide ExtensionBytes, ExtensionSize;
  }

  lemma NoPart(m: Message, end: int)
    ensures RangeBytes(m, end, end) == [] && RangeSize(m, end, end) == 0
  {
  }

  /** What a singular field adds, by its value. */
  function FieldBytes(n: int, t: FieldType, v: Option<Value>): bytes {
    if v.Some? then ExtensionBytes(n, Singular(t, false, v.value)) else []
  }

  function FieldSize(n: int, t: FieldType, v: Option<Value>): nat {
    if v.Some? then ExtensionSize(n, Singular(t, false, v.value)) else 0
  }

  method WriteNumber(n: int, t: FieldType, v: Option<int>, output: CodedOutputStream)
    requires IsPrimitive(t) && (v.Some? ==> InRange(t, v.value))
    modifies output
    ensures output.written == old(output.written) + FieldBytes(n, t, Number(v))
  {
    hide VarintBytes, PrimitiveBytes;
    if v.Some? {
      assert FieldBytes(n, t, Number(v)) == VarintBytes(TagOf(n, WireTypeOf(t))) + ValueBytes(t, Num(v.value));
      WriteTag(n, WireTypeOf(t), output);
      output.WritePrimitive(t, v.value);
    } else {
      assert output.written + [] == output.written;
    }
  }

  method WriteText(n: int, v: Option<bytes>, output: CodedOutputStream)
    modifies output
    ensures output.written == old(output.written) + FieldBytes(n, STRING, Text(v))
  {
    hide VarintBytes;
    if v.Some? {
      assert FieldBytes(n, STRING, Text(v))
        == VarintBytes(TagOf(n, LENGTH_DELIMITED)) + ValueBytes(STRING, Str(v.value));
      WriteTag(n, LENGTH_DELIMITED, output);
      output.WriteVarint(|v.value| % TWO_32);
      output.WriteString(v.value);
    } else {
      assert output.written + [] == output.written;
    }
  }

  // ----- Depths and positions: size, bytes, merge -----

  lemma DepthParts(d: Depth)
    ensures var m := DepthMessage(d);
      && Bytes(m) == FieldBytes(1, INT32, Number(d.count)) + FieldBytes(2, INT32, Number(d.qty))
        + FieldBytes(3, FLOAT, Number(d.price))
      && Size(m) == FieldSize(1, INT32, Number(d.count)) + FieldSize(2, INT32, Number(d.qty))
        + FieldSize(3, FLOAT, Number(d.price))
  {
    hide RangeBytes, RangeSize, ExtensionBytes, ExtensionSize;
    FourParts(DepthMessage(d));
  }

  lemma PositionParts(p: Position)
    ensures var m := PositionMessage(p);
      && Bytes(m) == FieldBytes(1, FLOAT, Number(p.x)) + FieldBytes(2, FLOAT, Number(p.y))
        + FieldBytes(3, FLOAT, Number(p.z))
      && Size(m) == FieldSize(1, FLOAT, Number(p.x)) + FieldSize(2, FLOAT, Number(p.y))
        + FieldSize(3, FLOAT, Number(p.z))
  {
    hide RangeBytes, RangeSize, ExtensionBytes, ExtensionSize;
    FourParts(PositionMessage(p));
  }

  method SerializeDepth(d: Depth, output: CodedOutputStream)
    modifies output
    ensures output.written == old(output.written) + Bytes(DepthMessage(d))
  {
    hide RangeBytes, DepthMessage, FieldBytes;
    DepthParts(d);
    WriteNumber(1, INT32, d.count, output);
    WriteNumber(2, INT32, d.qty, output);
    WriteNumber(3, FLOAT, d.price, output);
  }

  method SerializePosition(p: Position, output: CodedOutputStream)
    modifies output
    ensures output.written == old(output.written) + Bytes(PositionMessage(p))
  {
    hide RangeBytes, PositionMessage, FieldBytes;
    PositionParts(p);
    WriteNumber(1, FLOAT, p.x, output);
    WriteNumber(2, FLOAT, p.y, output);
    WriteNumber(3, FLOAT, p.z, output);
  }

  /** The tags of these packets take one byte. */
  lemma FieldSizes(n: int, t: FieldType, v: Option<Value>)
    requires 1 <= n <= 4
    ensures FieldSize(n, t, v) == if v.Some? then 1 + ValueSize(t, v.value) else 0
  {
    hide ValueSize;
    assert TagSizeOf(n) == 1;
  }

  /** `Depth::ByteSize`, which remembers the size. */
  method DepthByteSize(d: Depth) returns (size: nat, r: Depth)
    ensures size == Size(DepthMessage(d)) && r == d.(cachedSize := size)
  {
    hide RangeBytes, RangeSize, DepthMessage, FieldSize, FieldBytes;
    DepthParts(d);
    FieldSizes(1, INT32, Number(d.count));
    FieldSizes(2, INT32, Number(d.qty));
    FieldSizes(3, FLOAT, Number(d.price));
    size := 0;
    if d.count.Some? { size := size + 1 + PrimitiveSize(INT32, d.count.value); }
    if d.qty.Some? { size := size + 1 + PrimitiveSize(INT32, d.qty.value); }
    if d.price.Some? { size := size + 1 + 4; }
    r := d.(cachedSize := size);
  }

  /** `Position::ByteSize`. */
  method PositionByteSize(p: Position) returns (size: nat, r: Position)
    ensures size == Size(PositionMessage(p)) && r == p.(cachedSize := size)
  {
    hide RangeBytes, RangeSize, PositionMessage, FieldSize, FieldBytes;
    PositionParts(p);
    FieldSizes(1, FLOAT, Number(p.x));
    FieldSizes(2, FLOAT, Number(p.y));
    FieldSizes(3, FLOAT, Number(p.z));
    size := 0;
    if p.x.Some? { size := size + 1 + 4; }
    if p.y.Some? { size := size + 1 + 4; }
    if p.z.Some? { size := size + 1 + 4; }
    r := p.(cachedSize := size);
  }

  /** `Depth::MergeFrom`. */
  method MergeDepth(d: Depth, from: Depth) returns (r: Depth)
    ensures DepthMessage(r) == Merge(DepthMessage(d), DepthMessage(from))
    ensures r == Depth(Later(d.count, from.count), Later(d.qty, from.qty), Later(d.price, from.price), d.cachedSize)
  {
    r := d;
    if from.count.Some? { r := r.(count := from.count); }
    if from.qty.Some? { r := r.(qty := from.qty); }
    if from.price.Some? { r := r.(price := from.price); }
    DepthsMerged(d, from, r);
  }

  /** `Position::MergeFrom`. */
  method MergePosition(p: Position, from: Position) returns (r: Position)
    ensures PositionMessage(r) == Merge(PositionMessage(p), PositionMessage(from))
    ensures r == Position(Later(p.x, from.x), Later(p.y, from.y), Later(p.z, from.z), p.cachedSize)
  {
    r := p;
    if from.x.Some? { r := r.(x := from.x); }
    if from.y.Some? { r := r.(y := from.y); }
    if from.z.Some? { r := r.(z := from.z); }
    PositionsMerged(p, from, r);
  }

  /** The later value, if there is one. */
  function Later<T>(first: Option<T>, second: Option<T>): Option<T> {
    if second.Some? then second else first
  }

  lemma DepthEntry(d: Depth, k: int)
    ensures Entry(DepthMessage(d), k) ==
      if k == 1 then FieldEntry(INT32, Number(d.count)) else if k == 2 then FieldEntry(INT32, Number(d.qty))
      else if k == 3 then FieldEntry(FLOAT, Number(d.price)) else None
  {
  }

  lemma PositionEntry(p: Position, k: int)
    ensures Entry(PositionMessage(p), k) ==
      if k == 1 then FieldEntry(FLOAT, Number(p.x)) else if k == 2 then FieldEntry(FLOAT, Number(p.y))
      else if k == 3 then FieldEntry(FLOAT, Number(p.z)) else None
  {
  }

  lemma DepthsMerged(d: Depth, from: Depth, r: Depth)
    requires r == Depth(Later(d.count, from.count), Later(d.qty, from.qty), Later(d.price, from.price), d.cachedSize)
    ensures DepthMessage(r) == Merge(DepthMessage(d), DepthMessage(from))
  {
    hide Merge;
    assert DepthMessage(r).cachedSize == DepthMessage(d).cachedSize;
    forall k
      ensures LaterEntry(DEPTH, Entry(DepthMessage(d), k), Entry(DepthMessage(from), k), Entry(DepthMessage(r), k), k)
    {
      DepthEntry(d, k);
      DepthEntry(from, k);
      DepthEntry(r, k);
      hide DepthMessage;
    }
    LaterFields(DEPTH, DepthMessage(d), DepthMessage(from), DepthMessage(r));
  }

  lemma PositionsMerged(p: Position, from: Position, r: Position)
    requires r == Position(Later(p.x, from.x), Later(p.y, from.y), Later(p.z, from.z), p.cachedSize)
    ensures PositionMessage(r) == Merge(PositionMessage(p), PositionMessage(from))
  {
    hide Merge;
    assert PositionMessage(r).cachedSize == PositionMessage(p).cachedSize;
    forall k
      ensures LaterEntry(POSITION, Entry(PositionMessage(p), k), Entry(PositionMessage(from), k),
                         Entry(PositionMessage(r), k), k)
    {
      PositionEntry(p, k);
      PositionEntry(from, k);
      PositionEntry(r, k);
      hide PositionMessage;
    }
    LaterFields(POSITION, PositionMessage(p), PositionMessage(from), PositionMessage(r));
  }

  /** A singular field that is there, and is no message. */
  predicate Plain(e: Extension) {
    e.Singular? && !e.cleared && !e.value.Msg?
  }

  /** A plain field of its declared type, if there is one, and the later of the two in the result. */
  ghost predicate LaterEntry(t: nat, a: Option<Extension>, b: Option<Extension>, r: Option<Extension>, k: int) {
    && (a.Some? ==> Plain(a.value) && a.value.fieldType == FieldInfo(t, k).fieldType)
    && (b.Some? ==> Plain(b.value) && b.value.fieldType == FieldInfo(t, k).fieldType)
    && r == Later(a, b)
  }

  /** Messages of plain fields merge by taking the later value of each. */
  lemma LaterFields(t: nat, a: Message, b: Message, r: Message)
    requires r.cachedSize == a.cachedSize
    requires forall k :: LaterEntry(t, Entry(a, k), Entry(b, k), Entry(r, k), k)
    ensures r == Merge(a, b)
  {
    hide MergedExtension, FieldInfo;
    forall k
      ensures k in r.extensions <==> k in a.extensions || k in b.extensions
      ensures k in b.extensions ==> Merges(b.extensions[k])
      ensures k in b.extensions ==>
        r.extensions[k] == MergedExtension(if k in a.extensions then Some(a.extensions[k]) else None, b.extensions[k])
      ensures k in r.extensions && k !in b.extensions ==> r.extensions[k] == a.extensions[k]
    {
      assert LaterEntry(t, Entry(a, k), Entry(b, k), Entry(r, k), k);
      if k in b.extensions { PlainEntry(Entry(a, k), b.extensions[k]); }
    }
    assert r.extensions == Merge(a, b).extensions;
  }

  lemma PlainFilled(m: Message)
    requires forall n | n in m.extensions :: Plain(m.extensions[n])
    ensures Filled(m) == m
  {
    forall n | n in m.extensions ensures FilledExtension(m.extensions[n]) == m.extensions[n] {
    }
    assert Filled(m).extensions == m.extensions;
  }

  lemma PlainEntry(was: Option<Extension>, e: Extension)
    requires Plain(e) && (was.Some? ==> was.value.Singular? && was.value.fieldType == e.fieldType)
    ensures Merges(e) && MergedExtension(was, e) == e
  {
  }

  lemma OrdersMerged(na: Option<int32>, qa: Option<int32>, pa: Option<float>, ca: Option<bytes>, sa: nat,
                     nb: Option<int32>, qb: Option<int32>, pb: Option<float>, cb: Option<bytes>, sb: nat)
    ensures OrderMessage(Later(na, nb), Later(qa, qb), Later(pa, pb), Later(ca, cb), sa)
         == Merge(OrderMessage(na, qa, pa, ca, sa), OrderMessage(nb, qb, pb, cb, sb))
  {
    hide Merge;
    var a, b := OrderMessage(na, qa, pa, ca, sa), OrderMessage(nb, qb, pb, cb, sb);
    var r := OrderMessage(Later(na, nb), Later(qa, qb), Later(pa, pb), Later(ca, cb), sa);
    assert r.cachedSize == a.cachedSize;
    hide OrderMessage, LaterEntry;
    forall k ensures LaterEntry(ORDER, Entry(a, k), Entry(b, k), Entry(r, k), k) {
      OrderLaterEntry(na, qa, pa, ca, sa, nb, qb, pb, cb, sb, k);
    }
    LaterFields(ORDER, a, b, r);
  }

  lemma OrderLaterEntry(na: Option<int32>, qa: Option<int32>, pa: Option<float>, ca: Option<bytes>, sa: nat,
                        nb: Option<int32>, qb: Option<int32>, pb: Option<float>, cb: Option<bytes>, sb: nat, k: int)
    ensures LaterEntry(ORDER, Entry(OrderMessage(na, qa, pa, ca, sa), k), Entry(OrderMessage(nb, qb, pb, cb, sb), k),
                       Entry(OrderMessage(Later(na, nb), Later(qa, qb), Later(pa, pb), Later(ca, cb), sa), k), k)
  {
    hide OrderMessage;
    OrderEntry(na, qa, pa, ca, sa, k);
    OrderEntry(nb, qb, pb, cb, sb, k);
    OrderEntry(Later(na, nb), Later(qa, qb), Later(pa, pb), Later(ca, cb), sa, k);
  }

  /** A singular field's entry, by its value. */
  function FieldEntry(t: FieldType, v: Option<Value>): Option<Extension> {
    if v.Some? then Some(Singular(t, false, v.value)) else None
  }

  lemma OrderEntry(n: Option<int32>, q: Option<int32>, p: Option<float>, c: Option<bytes>, s: nat, k: int)
    ensures Entry(OrderMessage(n, q, p, c, s), k) ==
      if k == 1 then FieldEntry(INT32, Number(n)) else if k == 2 then FieldEntry(INT32, Number(q))
      else if k == 3 then FieldEntry(FLOAT, Number(p)) else if k == 4 then FieldEntry(STRING, Text(c)) else None
  {
  }

  lemma OrderParts(orderNumber: Option<int32>, orderQty: Option<int32>, orderPrice: Option<float>,
                   productCode: Option<bytes>,
                   cachedSize: nat)
    ensures var m := OrderMessage(orderNumber, orderQty, orderPrice, productCode, cachedSize);
      && Bytes(m) == FieldBytes(1, INT32, Number(orderNumber)) + FieldBytes(2, INT32, Number(orderQty))
                     + FieldBytes(3, FLOAT, Number(orderPrice)) + FieldBytes(4, STRING, Text(productCode))
      && Size(m) == FieldSize(1, INT32, Number(orderNumber)) + FieldSize(2, INT32, Number(orderQty))
                    + FieldSize(3, FLOAT, Number(orderPrice)) + FieldSize(4, STRING, Text(productCode))
      && Filled(m) == m
  {
    hide RangeBytes, RangeSize, ExtensionBytes, ExtensionSize, Filled;
    var m := OrderMessage(orderNumber, orderQty, orderPrice, productCode, cachedSize);
    FourParts(m);
    PlainFilled(m);
  }

  lemma OrderNumberStored(orderNumber: Option<int32>, orderQty: Option<int32>, orderPrice: Option<float>,
                          productCode: Option<bytes>, cachedSize: nat, n: nat, v: int)
    requires 1 <= n <= 3 && InRange(FieldInfo(ORDER, n).fieldType, v)
    ensures Stored(OrderMessage(orderNumber, orderQty, orderPrice, productCode, cachedSize), n, FieldInfo(ORDER, n),
                   Num(v)) ==
      if n == 1 then OrderMessage(Some(v), orderQty, orderPrice, productCode, cachedSize)
      else if n == 2 then OrderMessage(orderNumber, Some(v), orderPrice, productCode, cachedSize)
      else OrderMessage(orderNumber, orderQty, Some(v), productCode, cachedSize)
  {
    var m := OrderMessage(orderNumber, orderQty, orderPrice, productCode, cachedSize);
    var r := if n == 1 then OrderMessage(Some(v), orderQty, orderPrice, productCode, cachedSize)
             else if n == 2 then OrderMessage(orderNumber, Some(v), orderPrice, productCode, cachedSize)
             else OrderMessage(orderNumber, orderQty, Some(v), productCode, cachedSize);
    assert r.cachedSize == m.cachedSize;
    forall k
      ensures Entry(r, k) == if k == n then Some(Singular(FieldInfo(ORDER, n).fieldType, false, Num(v)))
        else Entry(m, k)
    {
      OrderEntry(orderNumber, orderQty, orderPrice, productCode, cachedSize, k);
      OrderEntry(if n == 1 then Some(v) else orderNumber, if n == 2 then Some(v) else orderQty,
                 if n == 3 then Some(v) else orderPrice, productCode, cachedSize, k);
      hide OrderMessage;
    }
    OrderEntry(orderNumber, orderQty, orderPrice, productCode, cachedSize, n);
    hide OrderMessage;
    FieldStored(m, n, FieldInfo(ORDER, n), v, r);
  }

  lemma FieldStored(m: Message, n: int, info: ExtensionInfo, v: int, r: Message)
    requires info.fieldType != ENUM && !info.repeated && r.cachedSize == m.cachedSize
    requires Entry(m, n).Some? ==> Entry(m, n).value.Singular? && Entry(m, n).value.fieldType == info.fieldType
    requires forall k :: Entry(r, k) == if k == n then Some(Singular(info.fieldType, false, Num(v))) else Entry(m, k)
    ensures Stored(m, n, info, Num(v)) == r
  {
    var s := Stored(m, n, info, Num(v));
    forall k
      ensures k in s.extensions <==> k in r.extensions
      ensures k in s.extensions ==> s.extensions[k] == r.extensions[k]
    {
      assert Entry(r, k) == if k == n then Some(Singular(info.fieldType, false, Num(v))) else Entry(m, k);
    }
    assert s.extensions == r.extensions;
  }

  lemma OrderTextStored(m: Message, orderNumber: Option<int32>, orderQty: Option<int32>, orderPrice: Option<float>,
                        productCode: Option<bytes>, s: bytes, cachedSize: nat)
    requires m == OrderMessage(orderNumber, orderQty, orderPrice, productCode, cachedSize)
    ensures StringIn(Entry(m, 4)) == if productCode.Some? then productCode.value else []
    ensures Stored(m, 4, FieldInfo(ORDER, 4), Str(s))
      == OrderMessage(orderNumber, orderQty, orderPrice, Some(s), cachedSize)
  {
  }

  // ----- Order -----

  /** The tags that the jumps compare with. */
  function OrderTag(at: nat): nat {
    if at == 1 then 8 else if at == 2 then 16 else if at == 3 then 29 else 34
  }

  lemma OrderTagExpected(at: nat)
    requires 1 <= at <= 4
    ensures Expected(Schema(), ORDER, OrderTag(at)) && OrderTag(at) / 8 == at && 0 < OrderTag(at) < TWO_32
  {
    TagOfField(ORDER, at, OrderTag(at));
  }

  /** The switch: the field that a tag leads to, 0 for `handle_uninterpreted`. */
  method OrderCase(tag: nat) returns (first: nat)
    ensures first != 0 ==> 1 <= first <= 4 && OrderTag(first) == tag
    ensures first == 0 ==> !Expected(Schema(), ORDER, tag)
  {
    hide Schema, Expected, FieldNumber, WireType;
    TagParts(ORDER, tag);
    first := 0;
    if FieldNumber(tag) == 1 && WireType(tag) == VARINT {
      first := 1;
    } else if FieldNumber(tag) == 2 && WireType(tag) == VARINT {
      first := 2;
    } else if FieldNumber(tag) == 3 && WireType(tag) == FIXED_32 {
      first := 3;
    } else if FieldNumber(tag) == 4 && WireType(tag) == LENGTH_DELIMITED {
      first := 4;
    }
  }

  /** The jumps after field `at`: the field whose tag is next, 0 for the head of the loop, or a return at the end. */
  method OrderJumps(at: nat, ghost m: Message, input: CodedInputStream) returns (next: nat, returned: bool)
    requires input.Valid() && !input.legitimateEnd && input.Room() >= 0 && 1 <= at <= 4
    modifies input`pos, input`lastTag, input`legitimateEnd
    ensures input.Valid() && input.pos >= old(input.pos) && next <= 4
    ensures returned ==> RunLoop(ORDER, m, old(input.Rest()), input.Room()) == Run(true, true, m)
    ensures returned ==> input.legitimateEnd && input.Rest() == []
    ensures !returned ==> !input.legitimateEnd
    ensures !returned && next == 0 ==> input.pos == old(input.pos)
    ensures !returned && next != 0 ==>
      && Expected(Schema(), ORDER, OrderTag(next))
      && RunLoop(ORDER, m, old(input.Rest()), input.Room())
        == RunFrom(ORDER, m, OrderTag(next), input.Rest(), input.Room())
  {
    hide RunLoop, RunFrom, TagAt, Schema, Expected, OrderTag;
    next, returned := 0, false;
    if at < 4 {
      OrderTagExpected(at + 1);
      var jump := Jump(ORDER, m, OrderTag(at + 1), input);
      if jump { next := at + 1; }
    } else {
      returned := ReturnAtEnd(ORDER, m, input);
    }
  }

  class Order {
    var orderNumber: Option<int32>
    var orderQty: Option<int32>
    var orderPrice: Option<float>
    var productCode: Option<bytes>
    var cachedSize: nat

    constructor ()
      ensures Now() == EMPTY
    {
      orderNumber, orderQty, orderPrice, productCode := None, None, None, None;
      cachedSize := 0;
    }

    ghost function Now(): Message
      reads this
    {
      OrderMessage(orderNumber, orderQty, orderPrice, productCode, cachedSize)
    }

    /** `Order::MergePartialFromCodedStream`: the loop that reads tags. */
    method MergePartialFromCodedStream(input: CodedInputStream) returns (ok: bool)
      requires input.Valid() && input.Room() >= 0 && !input.legitimateEnd
      modifies this, input`pos, input`limit, input`lastTag, input`legitimateEnd, input`depth
      ensures input.Valid()
      ensures var run := RunLoop(ORDER, old(Now()), old(input.Rest()), old(input.Room()));
        && ok == run.ok && Now() == run.message
        && (ok ==> input.legitimateEnd == run.ended && (run.ended ==> input.Rest() == []))
    {
      hide RunLoop, RunFrom, TagAt, AfterField, Schema, OrderMessage, Expected;
      ghost var run, room := RunLoop(ORDER, Now(), input.Rest(), input.Room()), input.Room();
      while true
        invariant input.Valid() && input.depth == old(input.depth) && !input.legitimateEnd
        invariant run == RunLoop(ORDER, Now(), input.Rest(), room)
        decreases input.limit - input.pos
      {
        ghost var b := input.Rest();
        TagFacts(b);
        NextTagRun(ORDER, Now(), b, room);
        var tag := input.ReadTag();
        if tag == 0 { return true; }
        var first := OrderCase(tag);
        if first != 0 {
          var returned;
          ok, returned := MergeFields(first, input);
          if !ok || returned { return; }
        } else {
          var returned;
          ok, returned := HandleUninterpreted(ORDER, Now(), tag, b, input);
          if !ok || returned { return; }
        }
      }
    }

    /** The cases of the switch: field `first` is read, and then whatever the jumps lead to. */
    method MergeFields(first: nat, input: CodedInputStream) returns (ok: bool, returned: bool)
      requires input.Valid() && !input.legitimateEnd && input.Room() >= 0 && 1 <= first <= 4
      modifies this, input`pos, input`limit, input`lastTag, input`legitimateEnd, input`depth
      ensures input.Valid()
      ensures ok ==> input.depth == old(input.depth) && input.limit == old(input.limit) && input.pos >= old(input.pos)
      ensures Expected(Schema(), ORDER, OrderTag(first))
      ensures Outcome(ORDER, RunFrom(ORDER, old(Now()), OrderTag(first), old(input.Rest()), old(input.Room())),
                      ok, returned, Now(), input.Rest(), input.legitimateEnd, old(input.Room()))
    {
      hide RunLoop, RunFrom, TagAt, Schema, OrderMessage, Expected, OrderTag;
      OrderTagExpected(first);
      ghost var run, room := RunFrom(ORDER, Now(), OrderTag(first), input.Rest(), input.Room()), input.Room();
      var at := first;
      ok, returned := true, false;
      while at != 0
        invariant at <= 4 && input.Valid() && !input.legitimateEnd && ok && !returned
        invariant input.pos >= old(input.pos) && input.limit == old(input.limit) && input.depth == old(input.depth)
        invariant at != 0 ==> Expected(Schema(), ORDER, OrderTag(at))
        invariant run ==
          if at == 0 then RunLoop(ORDER, Now(), input.Rest(), room)
          else RunFrom(ORDER, Now(), OrderTag(at), input.Rest(), room)
        decreases input.limit - input.pos, at
      {
        ok := ReadField(at, input);
        if !ok { return; }
        at, returned := OrderJumps(at, Now(), input);
        if returned { return; }
      }
    }

    method ParseOrderNumber(input: CodedInputStream) returns (ok: bool)
      requires input.Valid() && !input.legitimateEnd && input.Room() >= 0
      modifies this`orderNumber, input`pos
      ensures input.Valid() && (ok ==> input.pos > old(input.pos))
      ensures Expected(Schema(), ORDER, 8)
      ensures RunFrom(ORDER, old(Now()), 8, old(input.Rest()), input.Room())
           == if ok then RunLoop(ORDER, Now(), input.Rest(), input.Room()) else Run(false, false, Now())
    {
      hide RunLoop, RunFrom, TagAt, PrimitiveAt, Schema, Expected, RunString, RunMessage, OrderMessage, Stored,
        MessageIn, StringIn;
      NumberField(ORDER, 1, Now(), 8, input.Rest(), input.Room());
      var v;
      ok, v := input.ReadPrimitive(INT32);
      if !ok { return; }
      OrderNumberStored(orderNumber, orderQty, orderPrice, productCode, cachedSize, 1, v);
      orderNumber := Some(v);
    }

    method ParseOrderQty(input: CodedInputStream) returns (ok: bool)
      requires input.Valid() && !input.legitimateEnd && input.Room() >= 0
      modifies this`orderQty, input`pos
      ensures input.Valid() && (ok ==> input.pos > old(input.pos))
      ensures Expected(Schema(), ORDER, 16)
      ensures RunFrom(ORDER, old(Now()), 16, old(input.Rest()), input.Room())
           == if ok then RunLoop(ORDER, Now(), input.Rest(), input.Room()) else Run(false, false, Now())
    {
      hide RunLoop, RunFrom, TagAt, PrimitiveAt, Schema, Expected, RunString, RunMessage, OrderMessage, Stored,
        MessageIn, StringIn;
      NumberField(ORDER, 2, Now(), 16, input.Rest(), input.Room());
      var v;
      ok, v := input.ReadPrimitive(INT32);
      if !ok { return; }
      OrderNumberStored(orderNumber, orderQty, orderPrice, productCode, cachedSize, 2, v);
      orderQty := Some(v);
    }

    method ParseOrderPrice(input: CodedInputStream) returns (ok: bool)
      requires input.Valid() && !input.legitimateEnd && input.Room() >= 0
      modifies this`orderPrice, input`pos
      ensures input.Valid() && (ok ==> input.pos > old(input.pos))
      ensures Expected(Schema(), ORDER, 29)
      ensures RunFrom(ORDER, old(Now()), 29, old(input.Rest()), input.Room())
           == if ok then RunLoop(ORDER, Now(), input.Rest(), input.Room()) else Run(false, false, Now())
    {
      hide RunLoop, RunFrom, TagAt, PrimitiveAt, Schema, Expected, RunString, RunMessage, OrderMessage, Stored,
        MessageIn, StringIn;
      NumberField(ORDER, 3, Now(), 29, input.Rest(), input.Room());
      var v;
      ok, v := input.ReadPrimitive(FLOAT);
      if !ok { return; }
      OrderNumberStored(orderNumber, orderQty, orderPrice, productCode, cachedSize, 3, v);
      orderPrice := Some(v);
    }

    method ParseProductCode(input: CodedInputStream) returns (ok: bool)
      requires input.Valid() && !input.legitimateEnd && input.Room() >= 0
      modifies this`productCode, input`pos
      ensures input.Valid() && (ok ==> input.pos > old(input.pos))
      ensures Expected(Schema(), ORDER, 34)
      ensures RunFrom(ORDER, old(Now()), 34, old(input.Rest()), input.Room())
           == if ok then RunLoop(ORDER, Now(), input.Rest(), input.Room()) else Run(false, false, Now())
    {
      hide RunLoop, RunFrom, TagAt, PrimitiveAt, Schema, Expected, RunString, RunMessage, OrderMessage, Stored,
        MessageIn, StringIn;
      StringField(ORDER, 4, Now(), 34, input.Rest(), input.Room());
      OrderTextStored(Now(), orderNumber, orderQty, orderPrice, productCode, [], cachedSize);
      var s;
      ok, s := ReadText(if productCode.Some? then productCode.value else [], input);
      OrderTextStored(Now(), orderNumber, orderQty, orderPrice, productCode, s, cachedSize);
      productCode := Some(s);
    }

    /** `Order::SerializeWithCachedSizes`. */
    method SerializeWithCachedSizes(output: CodedOutputStream)
      modifies output
      ensures output.written == old(output.written) + Bytes(Now())
    {
      hide RangeBytes, OrderMessage, FieldBytes;
      OrderParts(orderNumber, orderQty, orderPrice, productCode, cachedSize);
      WriteNumber(1, INT32, orderNumber, output);
      WriteNumber(2, INT32, orderQty, output);
      WriteNumber(3, FLOAT, orderPrice, output);
      WriteText(4, productCode, output);
    }

    /** `Order::ByteSize`. */
    method ByteSize() returns (size: nat)
      modifies this`cachedSize
      ensures size == Size(old(Now())) && Now() == Filled(old(Now())).(cachedSize := size)
    {
      hide RangeBytes, RangeSize, FieldSize, FieldBytes, Filled;
      OrderParts(orderNumber, orderQty, orderPrice, productCode, cachedSize);
      FieldSizes(1, INT32, Number(orderNumber));
      FieldSizes(2, INT32, Number(orderQty));
      FieldSizes(3, FLOAT, Number(orderPrice));
      FieldSizes(4, STRING, Text(productCode));
      size := 0;
      if orderNumber.Some? { size := size + 1 + PrimitiveSize(INT32, orderNumber.value); }
      if orderQty.Some? { size := size + 1 + PrimitiveSize(INT32, orderQty.value); }
      if orderPrice.Some? { size := size + 1 + 4; }
      if productCode.Some? { size := size + 1 + (VarintSize32(|productCode.value| % TWO_32) + |productCode.value|); }
      cachedSize := size;
    }

    /** `Order::MergeFrom`. */
    method MergeFrom(from: Order)
      requires from != this
      modifies this
      ensures Now() == Merge(old(Now()), from.Now())
    {
      hide Merge, OrderMessage;
      OrdersMerged(orderNumber, orderQty, orderPrice, productCode, cachedSize,
                   from.orderNumber, from.orderQty, from.orderPrice, from.productCode, from.cachedSize);
      if from.orderNumber.Some? { orderNumber := from.orderNumber; }
      if from.orderQty.Some? { orderQty := from.orderQty; }
      if from.orderPrice.Some? { orderPrice := from.orderPrice; }
      if from.productCode.Some? { productCode := from.productCode; }
    }

    /** `Order::IsInitialized`: all four fields are required. */
    method IsInitialized() returns (r: bool)
      ensures r <==> {1, 2, 3, 4} <= Now().extensions.Keys
    {
      r := orderNumber.Some? && orderQty.Some? && orderPrice.Some? && productCode.Some?;
    }

    /** One field, into its member; what was read of a string or message stays there when the rest cannot be. */
    method ReadField(at: nat, input: CodedInputStream) returns (ok: bool)
      requires input.Valid() && !input.legitimateEnd && input.Room() >= 0 && 1 <= at <= 4
      requires Expected(Schema(), ORDER, OrderTag(at))
      modifies this, input`pos, input`limit, input`lastTag, input`legitimateEnd, input`depth
      ensures input.Valid()
      ensures ok ==> input.depth == old(input.depth) && input.limit == old(input.limit) && input.pos > old(input.pos)
      ensures ok ==> !input.legitimateEnd
      ensures RunFrom(ORDER, old(Now()), OrderTag(at), old(input.Rest()), old(input.Room()))
           == if ok then RunLoop(ORDER, Now(), input.Rest(), old(input.Room())) else Run(false, false, Now())
    {
      hide RunLoop, RunFrom, Schema, Expected, OrderMessage;
      if at == 1 {
        ok := ParseOrderNumber(input);
      } else if at == 2 {
        ok := ParseOrderQty(input);
      } else if at == 3 {
        ok := ParseOrderPrice(input);
      } else {
        ok := ParseProductCode(input);
      }
    }
  }

  lemma FeedParts(productCode: Option<bytes>, bidDepth: seq<Depth>, askDepth: seq<Depth>, cachedSize: nat)
    ensures var m := FeedMessage(productCode, bidDepth, askDepth, cachedSize);
      && Bytes(m) == FieldBytes(1, STRING, Text(productCode)) + FieldsBytes(2, MESSAGE, DepthValues(bidDepth))
                     + FieldsBytes(3, MESSAGE, DepthValues(askDepth))
      && Size(m) == FieldSize(1, STRING, Text(productCode)) + (|bidDepth| + ValuesSize(MESSAGE, DepthValues(bidDepth)))
                    + (|askDepth| + ValuesSize(MESSAGE, DepthValues(askDepth)))
  {
    hide Part, PartSize, FieldBytes, FieldSize;
    var m := FeedMessage(productCode, bidDepth, askDepth, cachedSize);
    FourParts(m);
    FeedEntry(productCode, bidDepth, askDepth, cachedSize, 1);
    FeedEntry(productCode, bidDepth, askDepth, cachedSize, 2);
    FeedEntry(productCode, bidDepth, askDepth, cachedSize, 3);
    FeedEntry(productCode, bidDepth, askDepth, cachedSize, 4);
    hide RangeBytes, RangeSize, FieldsBytes, ValuesSize, FeedMessage, ExtensionBytes, ExtensionSize;
    DepthsPart(m, 2, bidDepth);
    DepthsPart(m, 3, askDepth);
    TextPart(m, productCode);
    assert Part(m, 4) == [] && PartSize(m, 4) == 0 by { AbsentPart(m, 4); }
  }

  lemma AbsentPart(m: Message, n: int)
    requires Entry(m, n) == None
    ensures Part(m, n) == [] && PartSize(m, n) == 0
  {
  }

  lemma TextPart(m: Message, text: Option<bytes>)
    requires Entry(m, 1) == FieldEntry(STRING, Text(text))
    ensures Part(m, 1) == FieldBytes(1, STRING, Text(text)) && PartSize(m, 1) == FieldSize(1, STRING, Text(text))
  {
    hide ExtensionBytes, ExtensionSize;
  }

  lemma DepthsPart(m: Message, n: int, ds: seq<Depth>)
    requires 2 <= n <= 3 && Entry(m, n) == DepthsEntry(ds)
    ensures Part(m, n) == FieldsBytes(n, MESSAGE, DepthValues(ds))
    ensures PartSize(m, n) == |ds| + ValuesSize(MESSAGE, DepthValues(ds))
  {
    assert TagSizeOf(n) == 1;
    if ds == [] { NoFields(n); assert DepthValues(ds) == []; }
    hide FieldsBytes, ValuesSize, TagSizeOf;
  }

  lemma NoFields(n: int)
    ensures FieldsBytes(n, MESSAGE, []) == [] && ValuesSize(MESSAGE, []) == 0
  {
  }

  predicate DepthInitialized(d: Depth) {
    d.count.Some? && d.qty.Some? && d.price.Some?
  }

  /** What `ByteSize` leaves in a depth list. */
  function Measured(ds: seq<Depth>): (r: seq<Depth>)
    ensures |r| == |ds| && forall i | 0 <= i < |ds| :: r[i] == ds[i].(cachedSize := Size(DepthMessage(ds[i])))
  {
    seq(|ds|, i requires 0 <= i < |ds| => ds[i].(cachedSize := Size(DepthMessage(ds[i]))))
  }

  lemma MeasuredIsFilled(d: Depth)
    ensures FilledValue(Msg(DepthMessage(d))) == Msg(DepthMessage(d.(cachedSize := Size(DepthMessage(d)))))
  {
    hide RangeSize;
    PlainFilled(DepthMessage(d));
  }

  lemma FeedFilled(productCode: Option<bytes>, bidDepth: seq<Depth>, askDepth: seq<Depth>, cachedSize: nat)
    ensures Filled(FeedMessage(productCode, bidDepth, askDepth, cachedSize))
         == FeedMessage(productCode, Measured(bidDepth), Measured(askDepth), cachedSize)
  {
    hide DepthMessage;
    if bidDepth != [] { DepthsFilled(bidDepth); }
    if askDepth != [] { DepthsFilled(askDepth); }
    var m, r := FeedMessage(productCode, bidDepth, askDepth, cachedSize),
      FeedMessage(productCode, Measured(bidDepth), Measured(askDepth), cachedSize);
    forall n | n in m.extensions ensures n in r.extensions && FilledExtension(m.extensions[n]) == r.extensions[n] {
    }
    assert Filled(m).extensions == r.extensions;
  }

  lemma DepthsFilled(ds: seq<Depth>)
    requires ds != []
    ensures FilledExtension(Repeated(MESSAGE, false, DepthValues(ds), 0))
      == Repeated(MESSAGE, false, DepthValues(Measured(ds)), 0)
  {
    var filled := FilledExtension(Repeated(MESSAGE, false, DepthValues(ds), 0));
    forall i | 0 <= i < |ds| ensures filled.values[i] == DepthValues(Measured(ds))[i] {
      MeasuredIsFilled(ds[i]);
    }
    assert filled.values == DepthValues(Measured(ds));
  }

  /** `WriteMessage` for each element. */
  method WriteDepths(n: int, ds: seq<Depth>, output: CodedOutputStream)
    modifies output
    ensures output.written == old(output.written) + FieldsBytes(n, MESSAGE, DepthValues(ds))
  {
    hide VarintBytes, RangeBytes, DepthMessage;
    ghost var values := DepthValues(ds);
    for i := 0 to |ds|
      invariant output.written + FieldsBytes(n, MESSAGE, values[i..])
        == old(output.written) + FieldsBytes(n, MESSAGE, values)
    {
      assert values[i..][0] == Msg(DepthMessage(ds[i])) && values[i..][1..] == values[i + 1..];
      ghost var before := output.written;
      WriteTag(n, LENGTH_DELIMITED, output);
      DepthCachedSize(ds[i]);
      output.WriteVarint(ds[i].cachedSize % TWO_32);
      SerializeDepth(ds[i], output);
      assert before + FieldsBytes(n, MESSAGE, values[i..]) == output.written + FieldsBytes(n, MESSAGE, values[i + 1..]);
    }
    assert output.written + [] == output.written;
  }

  lemma DepthCachedSize(d: Depth)
    ensures DepthMessage(d).cachedSize == d.cachedSize
  {
  }

  /** `MessageSizeNoVirtual` for each element, which remembers its size. */
  method MeasureDepths(ds: seq<Depth>) returns (size: nat, r: seq<Depth>)
    ensures size == ValuesSize(MESSAGE, DepthValues(ds)) && r == Measured(ds)
  {
    hide RangeSize, DepthMessage;
    ghost var values := DepthValues(ds);
    size, r := 0, [];
    for i := 0 to |ds|
      invariant size + ValuesSize(MESSAGE, values[i..]) == ValuesSize(MESSAGE, values)
      invariant |r| == i && forall k | 0 <= k < i :: r[k] == Measured(ds)[k]
    {
      assert values[i..][0] == Msg(DepthMessage(ds[i])) && values[i..][1..] == values[i + 1..];
      var inner, d := DepthByteSize(ds[i]);
      size, r := size + VarintSize32(inner % TWO_32) + inner, r + [d];
    }
    assert r == Measured(ds);
  }

  /** `RepeatedPtrField::MergeFrom`: new elements, merged into. */
  method CopyDepths(ds: seq<Depth>) returns (r: seq<Depth>)
    ensures |r| == |ds| && forall i | 0 <= i < |ds| :: r[i] == ds[i].(cachedSize := 0)
  {
    r := [];
    for i := 0 to |ds|
      invariant |r| == i && forall k | 0 <= k < i :: r[k] == ds[k].(cachedSize := 0)
    {
      var d := MergeDepth(NEW_DEPTH, ds[i]);
      r := r + [d];
    }
  }

  lemma CopiedDepth(d: Depth)
    ensures Copied(Msg(DepthMessage(d))) == Msg(DepthMessage(d.(cachedSize := 0)))
  {
    NewDepthIsEmpty();
    DepthsMerged(NEW_DEPTH, d, d.(cachedSize := 0));
  }

  lemma DepthsAppended(was: seq<Depth>, ds: seq<Depth>, copies: seq<Depth>)
    requires |copies| == |ds| && forall i | 0 <= i < |ds| :: copies[i] == ds[i].(cachedSize := 0)
    requires ds != []
    ensures MergedExtension(if was != [] then Some(Repeated(MESSAGE, false, DepthValues(was), 0)) else None,
                            Repeated(MESSAGE, false, DepthValues(ds), 0))
         == Repeated(MESSAGE, false, DepthValues(was + copies), 0)
  {
    var values := DepthValues(ds);
    var copied := seq(|values|, i requires 0 <= i < |values| => Copied(values[i]));
    forall i | 0 <= i < |ds| ensures copied[i] == DepthValues(copies)[i] {
      CopiedDepth(ds[i]);
    }
    assert copied == DepthValues(copies);
    assert DepthValues(was + copies) == DepthValues(was) + DepthValues(copies);
    if was == [] { assert was + copies == copies; }
  }

  lemma FeedsMerged(pa: Option<bytes>, ba: seq<Depth>, aa: seq<Depth>, ca: nat, pb: Option<bytes>, bb: seq<Depth>,
                    ab: seq<Depth>, cb: nat, bc: seq<Depth>, ac: seq<Depth>)
    requires |bc| == |bb| && forall i | 0 <= i < |bb| :: bc[i] == bb[i].(cachedSize := 0)
    requires |ac| == |ab| && forall i | 0 <= i < |ab| :: ac[i] == ab[i].(cachedSize := 0)
    ensures FeedMessage(Later(pa, pb), ba + bc, aa + ac, ca)
      == Merge(FeedMessage(pa, ba, aa, ca), FeedMessage(pb, bb, ab, cb))
  {
    var a, b := FeedMessage(pa, ba, aa, ca), FeedMessage(pb, bb, ab, cb);
    var r := FeedMessage(Later(pa, pb), ba + bc, aa + ac, ca);
    assert r.cachedSize == a.cachedSize;
    DepthListsMerged(ba, bb, bc);
    DepthListsMerged(aa, ab, ac);
    hide FeedMessage, DepthMessage, MergeAt, DepthsEntry;
    forall k ensures MergeAt(Entry(a, k), Entry(b, k), Entry(r, k)) {
      FeedEntry(pa, ba, aa, ca, k);
      FeedEntry(pb, bb, ab, cb, k);
      FeedEntry(Later(pa, pb), ba + bc, aa + ac, ca, k);
      TextsMerged(pa, pb);
      NothingMerged();
    }
    MergedAtAll(a, b, r);
  }

  lemma DepthListsMerged(was: seq<Depth>, ds: seq<Depth>, copies: seq<Depth>)
    requires |copies| == |ds| && forall i | 0 <= i < |ds| :: copies[i] == ds[i].(cachedSize := 0)
    ensures MergeAt(DepthsEntry(was), DepthsEntry(ds), DepthsEntry(was + copies))
  {
    hide MergedExtension, DepthMessage;
    if ds != [] { DepthsAppended(was, ds, copies); } else { assert was + copies == was; }
  }

  lemma TextsMerged(was: Option<bytes>, text: Option<bytes>)
    ensures MergeAt(FieldEntry(STRING, Text(was)), FieldEntry(STRING, Text(text)),
                    FieldEntry(STRING, Text(Later(was, text))))
  {
    if text.Some? { PlainEntry(FieldEntry(STRING, Text(was)), FieldEntry(STRING, Text(text)).value); }
  }

  lemma NothingMerged()
    ensures MergeAt(None, None, None)
  {
  }

  lemma FeedTextStored(m: Message, productCode: Option<bytes>, bidDepth: seq<Depth>, askDepth: seq<Depth>, s: bytes,
                       cachedSize: nat)
    requires m == FeedMessage(productCode, bidDepth, askDepth, cachedSize)
    ensures StringIn(Entry(m, 1)) == if productCode.Some? then productCode.value else []
    ensures Stored(m, 1, FieldInfo(FEED, 1), Str(s)) == FeedMessage(Some(s), bidDepth, askDepth, cachedSize)
  {
  }

  lemma FeedBidStored(productCode: Option<bytes>, bidDepth: seq<Depth>, askDepth: seq<Depth>, d: Depth, cachedSize: nat)
    ensures Stored(FeedMessage(productCode, bidDepth, askDepth, cachedSize), 2, FieldInfo(FEED, 2),
                   Msg(DepthMessage(d)))
         == FeedMessage(productCode, bidDepth + [d], askDepth, cachedSize)
  {
    hide DepthMessage;
    var values, v := DepthValues(bidDepth), Msg(DepthMessage(d));
    assert DepthValues(bidDepth + [d]) == values + [v];
    if values == [] { assert values + [v] == [v]; }
    assert Stored(FeedMessage(productCode, bidDepth, askDepth, cachedSize), 2, FieldInfo(FEED, 2), v).extensions
        == FeedMessage(productCode, bidDepth + [d], askDepth, cachedSize).extensions;
  }

  lemma FeedAskStored(productCode: Option<bytes>, bidDepth: seq<Depth>, askDepth: seq<Depth>, d: Depth, cachedSize: nat)
    ensures Stored(FeedMessage(productCode, bidDepth, askDepth, cachedSize), 3, FieldInfo(FEED, 3),
                   Msg(DepthMessage(d)))
         == FeedMessage(productCode, bidDepth, askDepth + [d], cachedSize)
  {
    hide DepthMessage;
    var values, v := DepthValues(askDepth), Msg(DepthMessage(d));
    assert DepthValues(askDepth + [d]) == values + [v];
    if values == [] { assert values + [v] == [v]; }
    assert Stored(FeedMessage(productCode, bidDepth, askDepth, cachedSize), 3, FieldInfo(FEED, 3), v).extensions
        == FeedMessage(productCode, bidDepth, askDepth + [d], cachedSize).extensions;
  }

  lemma NewDepthIsEmpty()
    ensures DepthMessage(NEW_DEPTH) == EMPTY && PositionMessage(NEW_POSITION) == EMPTY
  {
  }

  // ----- Feed -----

  /** The tags that the jumps compare with. */
  function FeedTag(at: nat): nat {
    if at == 1 then 10 else if at == 2 then 18 else 26
  }

  lemma FeedTagExpected(at: nat)
    requires 1 <= at <= 3
    ensures Expected(Schema(), FEED, FeedTag(at)) && FeedTag(at) / 8 == at && 0 < FeedTag(at) < TWO_32
  {
    TagOfField(FEED, at, FeedTag(at));
  }

  /** The switch: the field that a tag leads to, 0 for `handle_uninterpreted`. */
  method FeedCase(tag: nat) returns (first: nat)
    ensures first != 0 ==> 1 <= first <= 3 && FeedTag(first) == tag
    ensures first == 0 ==> !Expected(Schema(), FEED, tag)
  {
    hide Schema, Expected, FieldNumber, WireType;
    TagParts(FEED, tag);
    first := 0;
    if FieldNumber(tag) == 1 && WireType(tag) == LENGTH_DELIMITED {
      first := 1;
    } else if FieldNumber(tag) == 2 && WireType(tag) == LENGTH_DELIMITED {
      first := 2;
    } else if FieldNumber(tag) == 3 && WireType(tag) == LENGTH_DELIMITED {
      first := 3;
    }
  }

  /** The jumps after field `at`: the field whose tag is next, 0 for the head of the loop, or a return at the end. */
  method FeedJumps(at: nat, ghost m: Message, input: CodedInputStream) returns (next: nat, returned: bool)
    requires input.Valid() && !input.legitimateEnd && input.Room() >= 0 && 1 <= at <= 3
    modifies input`pos, input`lastTag, input`legitimateEnd
    ensures input.Valid() && input.pos >= old(input.pos) && next <= 3
    ensures returned ==> RunLoop(FEED, m, old(input.Rest()), input.Room()) == Run(true, true, m)
    ensures returned ==> input.legitimateEnd && input.Rest() == []
    ensures !returned ==> !input.legitimateEnd
    ensures !returned && next == 0 ==> input.pos == old(input.pos)
    ensures !returned && next != 0 ==>
      && Expected(Schema(), FEED, FeedTag(next))
      && RunLoop(FEED, m, old(input.Rest()), input.Room())
        == RunFrom(FEED, m, FeedTag(next), input.Rest(), input.Room())
  {
    hide RunLoop, RunFrom, TagAt, Schema, Expected, FeedTag;
    next, returned := 0, false;
    FeedTagExpected(2);
    FeedTagExpected(3);
    var taken := false;
    if at <= 2 { taken := Jump(FEED, m, FeedTag(2), input); }
    if taken { return 2, false; }
    if at >= 2 { taken := Jump(FEED, m, FeedTag(3), input); }
    if taken { return 3, false; }
    if at == 3 { returned := ReturnAtEnd(FEED, m, input); }
  }

  class Feed {
    var productCode: Option<bytes>
    var bidDepth: seq<Depth>
    var askDepth: seq<Depth>
    var cachedSize: nat

    constructor ()
      ensures Now() == EMPTY
    {
      productCode, bidDepth, askDepth := None, [], [];
      cachedSize := 0;
    }

    ghost function Now(): Message
      reads this
    {
      FeedMessage(productCode, bidDepth, askDepth, cachedSize)
    }

    /** `Feed::MergePartialFromCodedStream`: the loop that reads tags. */
    method MergePartialFromCodedStream(input: CodedInputStream) returns (ok: bool)
      requires input.Valid() && input.Room() >= 0 && !input.legitimateEnd
      modifies this, input`pos, input`limit, input`lastTag, input`legitimateEnd, input`depth
      ensures input.Valid()
      ensures var run := RunLoop(FEED, old(Now()), old(input.Rest()), old(input.Room()));
        && ok == run.ok && Now() == run.message
        && (ok ==> input.legitimateEnd == run.ended && (run.ended ==> input.Rest() == []))
    {
      hide RunLoop, RunFrom, TagAt, AfterField, Schema, FeedMessage, Expected;
      ghost var run, room := RunLoop(FEED, Now(), input.Rest(), input.Room()), input.Room();
      while true
        invariant input.Valid() && input.depth == old(input.depth) && !input.legitimateEnd
        invariant run == RunLoop(FEED, Now(), input.Rest(), room)
        decreases input.limit - input.pos
      {
        ghost var b := input.Rest();
        TagFacts(b);
        NextTagRun(FEED, Now(), b, room);
        var tag := input.ReadTag();
        if tag == 0 { return true; }
        var first := FeedCase(tag);
        if first != 0 {
          var returned;
          ok, returned := MergeFields(first, input);
          if !ok || returned { return; }
        } else {
          var returned;
          ok, returned := HandleUninterpreted(FEED, Now(), tag, b, input);
          if !ok || returned { return; }
        }
      }
    }

    /** The cases of the switch: field `first` is read, and then whatever the jumps lead to. */
    method MergeFields(first: nat, input: CodedInputStream) returns (ok: bool, returned: bool)
      requires input.Valid() && !input.legitimateEnd && input.Room() >= 0 && 1 <= first <= 3
      modifies this, input`pos, input`limit, input`lastTag, input`legitimateEnd, input`depth
      ensures input.Valid()
      ensures ok ==> input.depth == old(input.depth) && input.limit == old(input.limit) && input.pos >= old(input.pos)
      ensures Expected(Schema(), FEED, FeedTag(first))
      ensures Outcome(FEED, RunFrom(FEED, old(Now()), FeedTag(first), old(input.Rest()), old(input.Room())),
                      ok, returned, Now(), input.Rest(), input.legitimateEnd, old(input.Room()))
    {
      hide RunLoop, RunFrom, TagAt, Schema, FeedMessage, Expected, FeedTag;
      FeedTagExpected(first);
      ghost var run, room := RunFrom(FEED, Now(), FeedTag(first), input.Rest(), input.Room()), input.Room();
      var at := first;
      ok, returned := true, false;
      while at != 0
        invariant at <= 3 && input.Valid() && !input.legitimateEnd && ok && !returned
        invariant input.pos >= old(input.pos) && input.limit == old(input.limit) && input.depth == old(input.depth)
        invariant at != 0 ==> Expected(Schema(), FEED, FeedTag(at))
        invariant run ==
          if at == 0 then RunLoop(FEED, Now(), input.Rest(), room)
          else RunFrom(FEED, Now(), FeedTag(at), input.Rest(), room)
        decreases input.limit - input.pos, at
      {
        ok := ReadField(at, input);
        if !ok { return; }
        at, returned := FeedJumps(at, Now(), input);
        if returned { return; }
      }
    }

    method ParseProductCode(input: CodedInputStream) returns (ok: bool)
      requires input.Valid() && !input.legitimateEnd && input.Room() >= 0
      modifies this`productCode, input`pos
      ensures input.Valid() && (ok ==> input.pos > old(input.pos))
      ensures Expected(Schema(), FEED, 10)
      ensures RunFrom(FEED, old(Now()), 10, old(input.Rest()), input.Room())
           == if ok then RunLoop(FEED, Now(), input.Rest(), input.Room()) else Run(false, false, Now())
    {
      hide RunLoop, RunFrom, TagAt, PrimitiveAt, Schema, Expected, RunString, RunMessage, FeedMessage, Stored,
        MessageIn, StringIn;
      StringField(FEED, 1, Now(), 10, input.Rest(), input.Room());
      FeedTextStored(Now(), productCode, bidDepth, askDepth, [], cachedSize);
      var s;
      ok, s := ReadText(if productCode.Some? then productCode.value else [], input);
      FeedTextStored(Now(), productCode, bidDepth, askDepth, s, cachedSize);
      productCode := Some(s);
    }

    method ParseBidDepth(input: CodedInputStream) returns (ok: bool)
      requires input.Valid() && !input.legitimateEnd && input.Room() >= 0
      modifies this`bidDepth, input`pos, input`limit, input`lastTag, input`legitimateEnd, input`depth
      ensures input.Valid()
      ensures ok ==> input.depth == old(input.depth) && input.limit == old(input.limit)
      ensures ok ==> !input.legitimateEnd && input.pos > old(input.pos)
      ensures Expected(Schema(), FEED, 18)
      ensures RunFrom(FEED, old(Now()), 18, old(input.Rest()), old(input.Room()))
           == if ok then RunLoop(FEED, Now(), input.Rest(), old(input.Room())) else Run(false, false, Now())
    {
      hide DepthMessage, RunLoop, RunFrom, TagAt, PrimitiveAt, Schema, Expected, RunString, RunMessage, FeedMessage,
        Stored, MessageIn, StringIn;
      MessageField(FEED, 2, Now(), 18, input.Rest(), input.Room());
      NewDepthIsEmpty();
      var d;
      ok, d := ReadDepth(NEW_DEPTH, input);
      FeedBidStored(productCode, bidDepth, askDepth, d, cachedSize);
      bidDepth := bidDepth + [d];
    }

    method ParseAskDepth(input: CodedInputStream) returns (ok: bool)
      requires input.Valid() && !input.legitimateEnd && input.Room() >= 0
      modifies this`askDepth, input`pos, input`limit, input`lastTag, input`legitimateEnd, input`depth
      ensures input.Valid()
      ensures ok ==> input.depth == old(input.depth) && input.limit == old(input.limit)
      ensures ok ==> !input.legitimateEnd && input.pos > old(input.pos)
      ensures Expected(Schema(), FEED, 26)
      ensures RunFrom(FEED, old(Now()), 26, old(input.Rest()), old(input.Room()))
           == if ok then RunLoop(FEED, Now(), input.Rest(), old(input.Room())) else Run(false, false, Now())
    {
      hide DepthMessage, RunLoop, RunFrom, TagAt, PrimitiveAt, Schema, Expected, RunString, RunMessage, FeedMessage,
        Stored, MessageIn, StringIn;
      MessageField(FEED, 3, Now(), 26, input.Rest(), input.Room());
      NewDepthIsEmpty();
      var d;
      ok, d := ReadDepth(NEW_DEPTH, input);
      FeedAskStored(productCode, bidDepth, askDepth, d, cachedSize);
      askDepth := askDepth + [d];
    }

    /** `Feed::SerializeWithCachedSizes`. */
    method SerializeWithCachedSizes(output: CodedOutputStream)
      modifies output
      ensures output.written == old(output.written) + Bytes(Now())
    {
      hide RangeBytes, FeedMessage, FieldBytes, FieldsBytes;
      FeedParts(productCode, bidDepth, askDepth, cachedSize);
      WriteText(1, productCode, output);
      WriteDepths(2, bidDepth, output);
      WriteDepths(3, askDepth, output);
    }

    /** `Feed::ByteSize`. */
    method ByteSize() returns (size: nat)
      modifies this
      ensures size == Size(old(Now())) && Now() == Filled(old(Now())).(cachedSize := size)
    {
      hide RangeBytes, RangeSize, FieldSize, FieldBytes, FieldsBytes, ValuesSize, Filled, DepthMessage;
      FeedParts(productCode, bidDepth, askDepth, cachedSize);
      FieldSizes(1, STRING, Text(productCode));
      FeedFilled(productCode, bidDepth, askDepth, cachedSize);
      size := 0;
      if productCode.Some? { size := size + 1 + (VarintSize32(|productCode.value| % TWO_32) + |productCode.value|); }
      var part;
      size := size + 1 * |bidDepth|;
      part, bidDepth := MeasureDepths(bidDepth);
      size := size + part;
      size := size + 1 * |askDepth|;
      part, askDepth := MeasureDepths(askDepth);
      size := size + part;
      cachedSize := size;
    }

    /** `Feed::MergeFrom`: the depth lists are appended. */
    method MergeFrom(from: Feed)
      requires from != this
      modifies this
      ensures Now() == Merge(old(Now()), from.Now())
    {
      hide Merge, FeedMessage;
      var bids := CopyDepths(from.bidDepth);
      var asks := CopyDepths(from.askDepth);
      FeedsMerged(productCode, bidDepth, askDepth, cachedSize, from.productCode, from.bidDepth, from.askDepth,
                  from.cachedSize, bids, asks);
      bidDepth := bidDepth + bids;
      askDepth := askDepth + asks;
      if from.productCode.Some? { productCode := from.productCode; }
    }

    /** `Feed::IsInitialized`: the product code is required, and every field of every depth. */
    method IsInitialized() returns (r: bool)
      ensures r <==>
        && productCode.Some? && (forall d | d in bidDepth :: DepthInitialized(d))
        && forall d | d in askDepth :: DepthInitialized(d)
    {
      if productCode.None? { return false; }
      for i := 0 to |bidDepth|
        invariant forall k | 0 <= k < i :: DepthInitialized(bidDepth[k])
      {
        if !DepthInitialized(bidDepth[i]) { return false; }
      }
      for i := 0 to |askDepth|
        invariant forall k | 0 <= k < i :: DepthInitialized(askDepth[k])
      {
        if !DepthInitialized(askDepth[i]) { return false; }
      }
      return true;
    }

    /** One field, into its member; what was read of a string or message stays there when the rest cannot be. */
    method ReadField(at: nat, input: CodedInputStream) returns (ok: bool)
      requires input.Valid() && !input.legitimateEnd && input.Room() >= 0 && 1 <= at <= 3
      requires Expected(Schema(), FEED, FeedTag(at))
      modifies this, input`pos, input`limit, input`lastTag, input`legitimateEnd, input`depth
      ensures input.Valid()
      ensures ok ==> input.depth == old(input.depth) && input.limit == old(input.limit) && input.pos > old(input.pos)
      ensures ok ==> !input.legitimateEnd
      ensures RunFrom(FEED, old(Now()), FeedTag(at), old(input.Rest()), old(input.Room()))
           == if ok then RunLoop(FEED, Now(), input.Rest(), old(input.Room())) else Run(false, false, Now())
    {
      hide RunLoop, RunFrom, Schema, Expected, FeedMessage;
      if at == 1 {
        ok := ParseProductCode(input);
      } else if at == 2 {
        ok := ParseBidDepth(input);
      } else {
        ok := ParseAskDepth(input);
      }
    }
  }

  lemma LoginResultParts(playerId: Option<int32>, playerName: Option<bytes>, playerPos: Option<Position>,
                         cachedSize: nat)
    ensures var m := LoginResultMessage(playerId, playerName, playerPos, cachedSize);
      var pos := if playerPos.Some? then Some(Msg(PositionMessage(playerPos.value))) else None;
      && Bytes(m) == FieldBytes(1, INT32, Number(playerId)) + FieldBytes(2, STRING, Text(playerName))
        + FieldBytes(3, MESSAGE, pos)
      && Size(m) == FieldSize(1, INT32, Number(playerId)) + FieldSize(2, STRING, Text(playerName))
        + FieldSize(3, MESSAGE, pos)
  {
    hide RangeBytes, RangeSize, ExtensionBytes, ExtensionSize, PositionMessage;
    FourParts(LoginResultMessage(playerId, playerName, playerPos, cachedSize));
  }

  lemma LoginResultFilled(playerId: Option<int32>, playerName: Option<bytes>, playerPos: Option<Position>,
                          cachedSize: nat)
    ensures Filled(LoginResultMessage(playerId, playerName, playerPos, cachedSize))
      == LoginResultMessage(playerId, playerName,
      if playerPos.Some? then Some(playerPos.value.(cachedSize := Size(PositionMessage(playerPos.value))))
        else None, cachedSize)
  {
    hide PositionMessage, RangeSize;
    var m := LoginResultMessage(playerId, playerName, playerPos, cachedSize);
    var pos := if playerPos.Some? then Some(playerPos.value.(cachedSize := Size(PositionMessage(playerPos.value))))
      else None;
    if playerPos.Some? { PositionFilled(playerPos.value); }
    forall n | n in m.extensions
      ensures n in LoginResultMessage(playerId, playerName, pos, cachedSize).extensions
      ensures FilledExtension(m.extensions[n])
        == LoginResultMessage(playerId, playerName, pos, cachedSize).extensions[n]
    {
    }
    assert Filled(m).extensions == LoginResultMessage(playerId, playerName, pos, cachedSize).extensions;
  }

  lemma PositionFilled(p: Position)
    ensures FilledValue(Msg(PositionMessage(p))) == Msg(PositionMessage(p.(cachedSize := Size(PositionMessage(p)))))
  {
    hide RangeSize;
    PlainFilled(PositionMessage(p));
  }

  lemma LoginResultsMerged(ia: Option<int32>, na: Option<bytes>, pa: Option<Position>, ca: nat,
                           ib: Option<int32>, nb: Option<bytes>, pb: Option<Position>, cb: nat, pos: Option<Position>)
    requires pb.None? ==> pos == pa
    requires pb.Some? ==>
      pos.Some? && PositionMessage(pos.value)
        == Merge(PositionMessage(if pa.Some? then pa.value else NEW_POSITION), PositionMessage(pb.value))
    ensures LoginResultMessage(Later(ia, ib), Later(na, nb), pos, ca)
         == Merge(LoginResultMessage(ia, na, pa, ca), LoginResultMessage(ib, nb, pb, cb))
  {
    var a, b := LoginResultMessage(ia, na, pa, ca), LoginResultMessage(ib, nb, pb, cb);
    var r := LoginResultMessage(Later(ia, ib), Later(na, nb), pos, ca);
    assert r.cachedSize == a.cachedSize;
    hide LoginResultMessage, PositionMessage, MergeAt;
    forall k ensures MergeAt(Entry(a, k), Entry(b, k), Entry(r, k)) {
      LoginResultMergedAt(ia, na, pa, ca, ib, nb, pb, cb, pos, k);
    }
    MergedAtAll(a, b, r);
  }

  /** The entry of a merge. */
  ghost predicate MergeAt(a: Option<Extension>, b: Option<Extension>, r: Option<Extension>) {
    if b.Some? then Merges(b.value) && r == Some(MergedExtension(a, b.value)) else r == a
  }

  lemma MergedAtAll(a: Message, b: Message, r: Message)
    requires r.cachedSize == a.cachedSize && forall k :: MergeAt(Entry(a, k), Entry(b, k), Entry(r, k))
    ensures r == Merge(a, b)
  {
    hide MergedExtension, Merges;
    forall k
      ensures k in r.extensions <==> k in a.extensions || k in b.extensions
      ensures k in b.extensions ==> Merges(b.extensions[k])
      ensures k in b.extensions ==>
        r.extensions[k] == MergedExtension(if k in a.extensions then Some(a.extensions[k]) else None, b.extensions[k])
      ensures k in r.extensions && k !in b.extensions ==> r.extensions[k] == a.extensions[k]
    {
      assert MergeAt(Entry(a, k), Entry(b, k), Entry(r, k));
    }
    assert r.extensions == Merge(a, b).extensions;
  }

  lemma LoginResultMergedAt(ia: Option<int32>, na: Option<bytes>, pa: Option<Position>, ca: nat,
                            ib: Option<int32>, nb: Option<bytes>, pb: Option<Position>, cb: nat, pos: Option<Position>,
                              k: int)
    requires pb.None? ==> pos == pa
    requires pb.Some? ==>
      pos.Some? && PositionMessage(pos.value)
        == Merge(PositionMessage(if pa.Some? then pa.value else NEW_POSITION), PositionMessage(pb.value))
    ensures MergeAt(Entry(LoginResultMessage(ia, na, pa, ca), k), Entry(LoginResultMessage(ib, nb, pb, cb), k),
                    Entry(LoginResultMessage(Later(ia, ib), Later(na, nb), pos, ca), k))
  {
    hide LoginResultMessage, PositionMessage, Merge;
    LoginResultEntry(ia, na, pa, ca, k);
    LoginResultEntry(ib, nb, pb, cb, k);
    LoginResultEntry(Later(ia, ib), Later(na, nb), pos, ca, k);
    NewDepthIsEmpty();
    var was, e := Entry(LoginResultMessage(ia, na, pa, ca), k), Entry(LoginResultMessage(ib, nb, pb, cb), k);
    if e.Some? {
      if k == 3 {
        PositionFieldMerged(was, PositionMessage(pb.value), PositionMessage(pos.value));
      } else {
        PlainEntry(was, e.value);
      }
    }
  }

  lemma PositionFieldMerged(was: Option<Extension>, m: Message, r: Message)
    requires was.Some? ==> was.value.Singular? && was.value.fieldType == MESSAGE && was.value.value.Msg?
    requires r == Merge(MessageIn(was), m)
    ensures MergedExtension(was, Singular(MESSAGE, false, Msg(m))) == Singular(MESSAGE, false, Msg(r))
  {
  }

  lemma PositionCachedSize(p: Position)
    ensures PositionMessage(p).cachedSize == p.cachedSize
  {
  }

  lemma LoginNumberStored(playerId: Option<int32>, playerName: Option<bytes>, playerPos: Option<Position>,
                          cachedSize: nat, v: int)
    requires InRange(INT32, v)
    ensures Stored(LoginResultMessage(playerId, playerName, playerPos, cachedSize), 1, FieldInfo(LOGIN_RESULT, 1),
                   Num(v))
         == LoginResultMessage(Some(v), playerName, playerPos, cachedSize)
  {
  }

  lemma LoginTextStored(playerId: Option<int32>, playerName: Option<bytes>, playerPos: Option<Position>,
                        cachedSize: nat, s: bytes)
    ensures var m := LoginResultMessage(playerId, playerName, playerPos, cachedSize);
      && StringIn(Entry(m, 2)) == (if playerName.Some? then playerName.value else [])
      && Stored(m, 2, FieldInfo(LOGIN_RESULT, 2), Str(s))
        == LoginResultMessage(playerId, Some(s), playerPos, cachedSize)
  {
  }

  lemma LoginPositionStored(playerId: Option<int32>, playerName: Option<bytes>, playerPos: Option<Position>,
                            cachedSize: nat, p: Position)
    ensures var m := LoginResultMessage(playerId, playerName, playerPos, cachedSize);
      && MessageIn(Entry(m, 3)) == PositionMessage(if playerPos.Some? then playerPos.value else NEW_POSITION)
      && Stored(m, 3, FieldInfo(LOGIN_RESULT, 3), Msg(PositionMessage(p)))
        == LoginResultMessage(playerId, playerName, Some(p), cachedSize)
  {
    hide PositionMessage;
    NewDepthIsEmpty();
  }

  // ----- LoginResult -----

  /** The tags that the jumps compare with. */
  function LoginResultTag(at: nat): nat {
    if at == 1 then 8 else if at == 2 then 18 else 26
  }

  lemma LoginResultTagExpected(at: nat)
    requires 1 <= at <= 3
    ensures Expected(Schema(), LOGIN_RESULT, LoginResultTag(at)) && LoginResultTag(at) / 8 == at
      && 0 < LoginResultTag(at) < TWO_32
  {
    TagOfField(LOGIN_RESULT, at, LoginResultTag(at));
  }

  /** The switch: the field that a tag leads to, 0 for `handle_uninterpreted`. */
  method LoginResultCase(tag: nat) returns (first: nat)
    ensures first != 0 ==> 1 <= first <= 3 && LoginResultTag(first) == tag
    ensures first == 0 ==> !Expected(Schema(), LOGIN_RESULT, tag)
  {
    hide Schema, Expected, FieldNumber, WireType;
    TagParts(LOGIN_RESULT, tag);
    first := 0;
    if FieldNumber(tag) == 1 && WireType(tag) == VARINT {
      first := 1;
    } else if FieldNumber(tag) == 2 && WireType(tag) == LENGTH_DELIMITED {
      first := 2;
    } else if FieldNumber(tag) == 3 && WireType(tag) == LENGTH_DELIMITED {
      first := 3;
    }
  }

  /** The jumps after field `at`: the field whose tag is next, 0 for the head of the loop, or a return at the end. */
  method LoginResultJumps(at: nat, ghost m: Message, input: CodedInputStream) returns (next: nat, returned: bool)
    requires input.Valid() && !input.legitimateEnd && input.Room() >= 0 && 1 <= at <= 3
    modifies input`pos, input`lastTag, input`legitimateEnd
    ensures input.Valid() && input.pos >= old(input.pos) && next <= 3
    ensures returned ==> RunLoop(LOGIN_RESULT, m, old(input.Rest()), input.Room()) == Run(true, true, m)
    ensures returned ==> input.legitimateEnd && input.Rest() == []
    ensures !returned ==> !input.legitimateEnd
    ensures !returned && next == 0 ==> input.pos == old(input.pos)
    ensures !returned && next != 0 ==>
      && Expected(Schema(), LOGIN_RESULT, LoginResultTag(next))
      && RunLoop(LOGIN_RESULT, m, old(input.Rest()), input.Room())
        == RunFrom(LOGIN_RESULT, m, LoginResultTag(next), input.Rest(), input.Room())
  {
    hide RunLoop, RunFrom, TagAt, Schema, Expected, LoginResultTag;
    next, returned := 0, false;
    if at < 3 {
      LoginResultTagExpected(at + 1);
      var jump := Jump(LOGIN_RESULT, m, LoginResultTag(at + 1), input);
      if jump { next := at + 1; }
    } else {
      returned := ReturnAtEnd(LOGIN_RESULT, m, input);
    }
  }

  class LoginResult {
    var playerId: Option<int32>
    var playerName: Option<bytes>
    var playerPos: Option<Position>
    var cachedSize: nat

    constructor ()
      ensures Now() == EMPTY
    {
      playerId, playerName, playerPos := None, None, None;
      cachedSize := 0;
    }

    ghost function Now(): Message
      reads this
    {
      LoginResultMessage(playerId, playerName, playerPos, cachedSize)
    }

    /** `LoginResult::MergePartialFromCodedStream`: the loop that reads tags. */
    method MergePartialFromCodedStream(input: CodedInputStream) returns (ok: bool)
      requires input.Valid() && input.Room() >= 0 && !input.legitimateEnd
      modifies this, input`pos, input`limit, input`lastTag, input`legitimateEnd, input`depth
      ensures input.Valid()
      ensures var run := RunLoop(LOGIN_RESULT, old(Now()), old(input.Rest()), old(input.Room()));
        && ok == run.ok && Now() == run.message
        && (ok ==> input.legitimateEnd == run.ended && (run.ended ==> input.Rest() == []))
    {
      hide RunLoop, RunFrom, TagAt, AfterField, Schema, LoginResultMessage, Expected;
      ghost var run, room := RunLoop(LOGIN_RESULT, Now(), input.Rest(), input.Room()), input.Room();
      while true
        invariant input.Valid() && input.depth == old(input.depth) && !input.legitimateEnd
        invariant run == RunLoop(LOGIN_RESULT, Now(), input.Rest(), room)
        decreases input.limit - input.pos
      {
        ghost var b := input.Rest();
        TagFacts(b);
        NextTagRun(LOGIN_RESULT, Now(), b, room);
        var tag := input.ReadTag();
        if tag == 0 { return true; }
        var first := LoginResultCase(tag);
        if first != 0 {
          var returned;
          ok, returned := MergeFields(first, input);
          if !ok || returned { return; }
        } else {
          var returned;
          ok, returned := HandleUninterpreted(LOGIN_RESULT, Now(), tag, b, input);
          if !ok || returned { return; }
        }
      }
    }

    /** The cases of the switch: field `first` is read, and then whatever the jumps lead to. */
    method MergeFields(first: nat, input: CodedInputStream) returns (ok: bool, returned: bool)
      requires input.Valid() && !input.legitimateEnd && input.Room() >= 0 && 1 <= first <= 3
      modifies this, input`pos, input`limit, input`lastTag, input`legitimateEnd, input`depth
      ensures input.Valid()
      ensures ok ==> input.depth == old(input.depth) && input.limit == old(input.limit) && input.pos >= old(input.pos)
      ensures Expected(Schema(), LOGIN_RESULT, LoginResultTag(first))
      ensures Outcome(LOGIN_RESULT,
                      RunFrom(LOGIN_RESULT, old(Now()), LoginResultTag(first), old(input.Rest()), old(input.Room())),
                      ok, returned, Now(), input.Rest(), input.legitimateEnd, old(input.Room()))
    {
      hide RunLoop, RunFrom, TagAt, Schema, LoginResultMessage, Expected, LoginResultTag;
      LoginResultTagExpected(first);
      ghost var run, room :=
        RunFrom(LOGIN_RESULT, Now(), LoginResultTag(first), input.Rest(), input.Room()), input.Room();
      var at := first;
      ok, returned := true, false;
      while at != 0
        invariant at <= 3 && input.Valid() && !input.legitimateEnd && ok && !returned
        invariant input.pos >= old(input.pos) && input.limit == old(input.limit) && input.depth == old(input.depth)
        invariant at != 0 ==> Expected(Schema(), LOGIN_RESULT, LoginResultTag(at))
        invariant run ==
          if at == 0 then RunLoop(LOGIN_RESULT, Now(), input.Rest(), room)
          else RunFrom(LOGIN_RESULT, Now(), LoginResultTag(at), input.Rest(), room)
        decreases input.limit - input.pos, at
      {
        ok := ReadField(at, input);
        if !ok { return; }
        at, returned := LoginResultJumps(at, Now(), input);
        if returned { return; }
      }
    }

    method ParsePlayerId(input: CodedInputStream) returns (ok: bool)
      requires input.Valid() && !input.legitimateEnd && input.Room() >= 0
      modifies this`playerId, input`pos
      ensures input.Valid() && (ok ==> input.pos > old(input.pos))
      ensures Expected(Schema(), LOGIN_RESULT, 8)
      ensures RunFrom(LOGIN_RESULT, old(Now()), 8, old(input.Rest()), input.Room())
           == if ok then RunLoop(LOGIN_RESULT, Now(), input.Rest(), input.Room()) else Run(false, false, Now())
    {
      hide RunLoop, RunFrom, TagAt, PrimitiveAt, Schema, Expected, RunString, RunMessage, LoginResultMessage, Stored,
        MessageIn, StringIn;
      NumberField(LOGIN_RESULT, 1, Now(), 8, input.Rest(), input.Room());
      var v;
      ok, v := input.ReadPrimitive(INT32);
      if !ok { return; }
      LoginNumberStored(playerId, playerName, playerPos, cachedSize, v);
      playerId := Some(v);
    }

    method ParsePlayerName(input: CodedInputStream) returns (ok: bool)
      requires input.Valid() && !input.legitimateEnd && input.Room() >= 0
      modifies this`playerName, input`pos
      ensures input.Valid() && (ok ==> input.pos > old(input.pos))
      ensures Expected(Schema(), LOGIN_RESULT, 18)
      ensures RunFrom(LOGIN_RESULT, old(Now()), 18, old(input.Rest()), input.Room())
           == if ok then RunLoop(LOGIN_RESULT, Now(), input.Rest(), input.Room()) else Run(false, false, Now())
    {
      hide RunLoop, RunFrom, TagAt, PrimitiveAt, Schema, Expected, RunString, RunMessage, LoginResultMessage, Stored,
        MessageIn, StringIn;
      StringField(LOGIN_RESULT, 2, Now(), 18, input.Rest(), input.Room());
      LoginTextStored(playerId, playerName, playerPos, cachedSize, []);
      var s;
      ok, s := ReadText(if playerName.Some? then playerName.value else [], input);
      LoginTextStored(playerId, playerName, playerPos, cachedSize, s);
      playerName := Some(s);
    }

    method ParsePlayerPos(input: CodedInputStream) returns (ok: bool)
      requires input.Valid() && !input.legitimateEnd && input.Room() >= 0
      modifies this`playerPos, input`pos, input`limit, input`lastTag, input`legitimateEnd, input`depth
      ensures input.Valid()
      ensures ok ==> input.depth == old(input.depth) && input.limit == old(input.limit)
      ensures ok ==> !input.legitimateEnd && input.pos > old(input.pos)
      ensures Expected(Schema(), LOGIN_RESULT, 26)
      ensures RunFrom(LOGIN_RESULT, old(Now()), 26, old(input.Rest()), old(input.Room()))
           == if ok then RunLoop(LOGIN_RESULT, Now(), input.Rest(), old(input.Room())) else Run(false, false, Now())
    {
      hide RunLoop, RunFrom, TagAt, PrimitiveAt, Schema, Expected, RunString, RunMessage, LoginResultMessage, Stored,
        MessageIn, StringIn;
      MessageField(LOGIN_RESULT, 3, Now(), 26, input.Rest(), input.Room());
      LoginPositionStored(playerId, playerName, playerPos, cachedSize, NEW_POSITION);
      var p;
      ok, p := ReadPosition(if playerPos.Some? then playerPos.value else NEW_POSITION, input);
      LoginPositionStored(playerId, playerName, playerPos, cachedSize, p);
      playerPos := Some(p);
    }

    /** `LoginResult::SerializeWithCachedSizes`. */
    method SerializeWithCachedSizes(output: CodedOutputStream)
      modifies output
      ensures output.written == old(output.written) + Bytes(Now())
    {
      hide RangeBytes, LoginResultMessage, PositionMessage, VarintBytes;
      LoginResultParts(playerId, playerName, playerPos, cachedSize);
      WriteNumber(1, INT32, playerId, output);
      WriteText(2, playerName, output);
      if playerPos.None? {
        assert output.written + [] == output.written;
      } else {
        PositionCachedSize(playerPos.value);
        assert FieldBytes(3, MESSAGE, Some(Msg(PositionMessage(playerPos.value))))
            == VarintBytes(TagOf(3, LENGTH_DELIMITED)) + ValueBytes(MESSAGE, Msg(PositionMessage(playerPos.value)));
        WriteTag(3, LENGTH_DELIMITED, output);
        output.WriteVarint(playerPos.value.cachedSize % TWO_32);
        SerializePosition(playerPos.value, output);
      }
    }

    /** `LoginResult::ByteSize`. */
    method ByteSize() returns (size: nat)
      modifies this
      ensures size == Size(old(Now())) && Now() == Filled(old(Now())).(cachedSize := size)
    {
      hide RangeBytes, RangeSize, FieldSize, FieldBytes, Filled, PositionMessage;
      LoginResultParts(playerId, playerName, playerPos, cachedSize);
      FieldSizes(1, INT32, Number(playerId));
      FieldSizes(2, STRING, Text(playerName));
      FieldSizes(3, MESSAGE, if playerPos.Some? then Some(Msg(PositionMessage(playerPos.value))) else None);
      LoginResultFilled(playerId, playerName, playerPos, cachedSize);
      size := 0;
      if playerId.Some? { size := size + 1 + PrimitiveSize(INT32, playerId.value); }
      if playerName.Some? { size := size + 1 + (VarintSize32(|playerName.value| % TWO_32) + |playerName.value|); }
      if playerPos.Some? {
        var inner, p := PositionByteSize(playerPos.value);
        size := size + 1 + (VarintSize32(inner % TWO_32) + inner);
        playerPos := Some(p);
      }
      cachedSize := size;
    }

    /** `LoginResult::MergeFrom`. */
    method MergeFrom(from: LoginResult)
      requires from != this
      modifies this
      ensures Now() == Merge(old(Now()), from.Now())
    {
      hide Merge, PositionMessage;
      var pos := playerPos;
      if from.playerPos.Some? {
        var p := MergePosition(if playerPos.Some? then playerPos.value else NEW_POSITION, from.playerPos.value);
        pos := Some(p);
      }
      LoginResultsMerged(playerId, playerName, playerPos, cachedSize, from.playerId, from.playerName, from.playerPos,
                         from.cachedSize, pos);
      if from.playerId.Some? { playerId := from.playerId; }
      if from.playerName.Some? { playerName := from.playerName; }
      playerPos := pos;
    }

    /** `LoginResult::IsInitialized`. */
    method IsInitialized() returns (r: bool)
      ensures r <==> {1, 2, 3} <= Now().extensions.Keys && {1, 2, 3} <= Now().extensions[3].value.m.extensions.Keys
    {
      r := playerId.Some? && playerName.Some? && playerPos.Some?
           && playerPos.value.x.Some? && playerPos.value.y.Some? && playerPos.value.z.Some?;
    }

    /** One field, into its member; what was read of a string or message stays there when the rest cannot be. */
    method ReadField(at: nat, input: CodedInputStream) returns (ok: bool)
      requires input.Valid() && !input.legitimateEnd && input.Room() >= 0 && 1 <= at <= 3
      requires Expected(Schema(), LOGIN_RESULT, LoginResultTag(at))
      modifies this, input`pos, input`limit, input`lastTag, input`legitimateEnd, input`depth
      ensures input.Valid()
      ensures ok ==> input.depth == old(input.depth) && input.limit == old(input.limit) && input.pos > old(input.pos)
      ensures ok ==> !input.legitimateEnd
      ensures RunFrom(LOGIN_RESULT, old(Now()), LoginResultTag(at), old(input.Rest()), old(input.Room()))
           == if ok then RunLoop(LOGIN_RESULT, Now(), input.Rest(), old(input.Room())) else Run(false, false, Now())
    {
      hide RunLoop, RunFrom, Schema, Expected, LoginResultMessage;
      if at == 1 {
        ok := ParsePlayerId(input);
      } else if at == 2 {
        ok := ParsePlayerName(input);
      } else {
        ok := ParsePlayerPos(input);
      }
    }
  }

  // ----- Concatenation is merging, packet by packet -----

  /** A message with declared fields that are typed and fit is typed and fits. */
  lemma TypedByFields(t: nat, m: Message, room: nat)
    requires forall n | n in m.extensions ::
      1 <= n <= FieldCount(t) && TypedExtension(Schema(), FieldInfo(t, n), m.extensions[n], room)
    requires forall n | n in m.extensions :: FitsExtension(m.extensions[n])
    ensures Typed(Schema(), t, m, room) && Numbered(m) && Fits(m)
  {
    hide TypedExtension, FitsExtension, FieldInfo;
  }

  lemma ObservedByFields(m: Message, o: Message)
    requires o.cachedSize == 0 && forall k :: k in m.extensions <==> k in o.extensions
    requires forall k | k in m.extensions ::
      !Dead(m.extensions[k]) && ObservedExtension(m.extensions[k]) == o.extensions[k]
    ensures Observed(m) == o
  {
    var r := Observed(m).extensions;
    forall k
      ensures k in r <==> k in o.extensions
      ensures k in r ==> r[k] == o.extensions[k]
    {
      if k in m.extensions { assert r[k] == ObservedExtension(m.extensions[k]); }
    }
    assert Observed(m).extensions == o.extensions;
  }

  /** A field that is typed, fits, and is observed as in another message, or is in neither. */
  ghost predicate FieldAgrees(t: nat, e: Option<Extension>, o: Option<Extension>, k: int, room: nat) {
    && (e.Some? <==> o.Some?)
    && (e.Some? ==>
          && 1 <= k <= FieldCount(t) && TypedExtension(Schema(), FieldInfo(t, k), e.value, room)
          && FitsExtension(e.value)
          && !Dead(e.value) && ObservedExtension(e.value) == o.value)
  }

  lemma AllFieldsAgree(t: nat, m: Message, o: Message, room: nat)
    requires o.cachedSize == 0 && forall k :: FieldAgrees(t, Entry(m, k), Entry(o, k), k, room)
    ensures Typed(Schema(), t, m, room) && Numbered(m) && Fits(m) && Observed(m) == o
  {
    hide TypedExtension, FitsExtension, ObservedExtension, Typed, Numbered, Fits, Dead, FieldInfo, Schema;
    forall k
      ensures k in m.extensions ==>
        1 <= k <= FieldCount(t) && TypedExtension(Schema(), FieldInfo(t, k), m.extensions[k], room)
          && FitsExtension(m.extensions[k])
      ensures k in m.extensions <==> k in o.extensions
      ensures k in m.extensions ==> !Dead(m.extensions[k]) && ObservedExtension(m.extensions[k]) == o.extensions[k]
    {
      assert FieldAgrees(t, Entry(m, k), Entry(o, k), k, room);
    }
    TypedByFields(t, m, room);
    ObservedByFields(m, o);
  }

  lemma NumberTyped(info: ExtensionInfo, v: int, room: nat)
    requires IsPrimitive(info.fieldType) && InRange(info.fieldType, v) && !info.repeated && info.fieldType != ENUM
    ensures var e := Singular(info.fieldType, false, Num(v));
      TypedExtension(Schema(), info, e, room) && FitsExtension(e) && ObservedExtension(e) == e
  {
    hide Schema, InRange;
  }

  lemma TextTyped(info: ExtensionInfo, v: bytes, room: nat)
    requires info.fieldType == STRING && !info.repeated && |v| < TWO_31
    ensures var e := Singular(STRING, false, Str(v));
      TypedExtension(Schema(), info, e, room) && FitsExtension(e) && ObservedExtension(e) == e
  {
    hide Schema;
  }

  lemma NumberAgrees(t: nat, k: int, fieldType: FieldType, v: Option<int>, room: nat)
    requires 1 <= k <= FieldCount(t) && FieldInfo(t, k).fieldType == fieldType && !FieldInfo(t, k).repeated
    requires IsPrimitive(fieldType) && (v.Some? ==> InRange(fieldType, v.value))
    ensures FieldAgrees(t, FieldEntry(fieldType, Number(v)), FieldEntry(fieldType, Number(v)), k, room)
  {
    hide Schema, InRange, TypedExtension, FitsExtension, ObservedExtension, FieldInfo;
    if v.Some? { NumberTyped(FieldInfo(t, k), v.value, room); }
  }

  lemma TextAgrees(t: nat, k: int, v: Option<bytes>, room: nat)
    requires 1 <= k <= FieldCount(t) && FieldInfo(t, k).fieldType == STRING && !FieldInfo(t, k).repeated && Short(v)
    ensures FieldAgrees(t, FieldEntry(STRING, Text(v)), FieldEntry(STRING, Text(v)), k, room)
  {
    hide Schema, TypedExtension, FitsExtension, ObservedExtension, FieldInfo;
    if v.Some? { TextTyped(FieldInfo(t, k), v.value, room); }
  }

  lemma NothingAgrees(t: nat, k: int, room: nat)
    ensures FieldAgrees(t, None, None, k, room)
  {
  }

  lemma DepthIsTyped(d: Depth, room: nat)
    ensures var m := DepthMessage(d);
      Typed(Schema(), DEPTH, m, room) && Numbered(m) && Fits(m) && Size(m) < TWO_31
        && Observed(m) == DepthMessage(d.(cachedSize := 0))
  {
    DepthIsSmall(d);
    NumberAgrees(DEPTH, 1, INT32, d.count, room);
    NumberAgrees(DEPTH, 2, INT32, d.qty, room);
    NumberAgrees(DEPTH, 3, FLOAT, d.price, room);
    var m, o := DepthMessage(d), DepthMessage(d.(cachedSize := 0));
    assert o.cachedSize == 0;
    hide FieldAgrees, FieldEntry, RangeSize, Observed, Schema, Typed, Numbered, Fits, DepthMessage;
    forall k ensures FieldAgrees(DEPTH, Entry(m, k), Entry(o, k), k, room) {
      DepthEntry(d, k);
      DepthEntry(d.(cachedSize := 0), k);
      NothingAgrees(DEPTH, k, room);
    }
    AllFieldsAgree(DEPTH, m, o, room);
  }

  lemma DepthIsSmall(d: Depth)
    ensures Size(DepthMessage(d)) < TWO_31
  {
    DepthParts(d);
    FieldSizes(1, INT32, Number(d.count));
    FieldSizes(2, INT32, Number(d.qty));
    FieldSizes(3, FLOAT, Number(d.price));
    if d.count.Some? { PrimitiveSizeExact(INT32, d.count.value); }
    if d.qty.Some? { PrimitiveSizeExact(INT32, d.qty.value); }
    hide RangeBytes, RangeSize, FieldSize, FieldBytes, PrimitiveSize, DepthMessage;
  }

  lemma PositionIsTyped(p: Position, room: nat)
    ensures var m := PositionMessage(p);
      Typed(Schema(), POSITION, m, room) && Numbered(m) && Fits(m) && Size(m) < TWO_31
        && Observed(m) == PositionMessage(p.(cachedSize := 0))
  {
    PositionIsSmall(p);
    NumberAgrees(POSITION, 1, FLOAT, p.x, room);
    NumberAgrees(POSITION, 2, FLOAT, p.y, room);
    NumberAgrees(POSITION, 3, FLOAT, p.z, room);
    var m, o := PositionMessage(p), PositionMessage(p.(cachedSize := 0));
    assert o.cachedSize == 0;
    hide FieldAgrees, FieldEntry, RangeSize, Observed, Schema, Typed, Numbered, Fits, PositionMessage;
    forall k ensures FieldAgrees(POSITION, Entry(m, k), Entry(o, k), k, room) {
      PositionEntry(p, k);
      PositionEntry(p.(cachedSize := 0), k);
      NothingAgrees(POSITION, k, room);
    }
    AllFieldsAgree(POSITION, m, o, room);
  }

  lemma PositionIsSmall(p: Position)
    ensures Size(PositionMessage(p)) < TWO_31
  {
    hide RangeBytes, RangeSize, FieldSize, FieldBytes, PositionMessage;
    PositionParts(p);
    FieldSizes(1, FLOAT, Number(p.x));
    FieldSizes(2, FLOAT, Number(p.y));
    FieldSizes(3, FLOAT, Number(p.z));
  }

  /** The depths as they are parsed: with no size to remember yet. */
  function Unmeasured(ds: seq<Depth>): (r: seq<Depth>)
    ensures |r| == |ds| && forall i | 0 <= i < |ds| :: r[i] == ds[i].(cachedSize := 0)
  {
    seq(|ds|, i requires 0 <= i < |ds| => ds[i].(cachedSize := 0))
  }

  lemma DepthsAgree(n: int, ds: seq<Depth>, room: nat)
    requires room > 0 && 2 <= n <= 3
    ensures FieldAgrees(FEED, DepthsEntry(ds), DepthsEntry(Unmeasured(ds)), n, room)
  {
    hide Schema, TypedExtension, FitsExtension, ObservedExtension;
    if ds != [] { DepthsAreTyped(n, ds, room); }
  }

  lemma DepthsAreTyped(n: int, ds: seq<Depth>, room: nat)
    requires ds != [] && room > 0 && 2 <= n <= 3
    ensures var e := Repeated(MESSAGE, false, DepthValues(ds), 0);
      && TypedExtension(Schema(), FieldInfo(FEED, n), e, room) && FitsExtension(e)
      && ObservedExtension(e) == Repeated(MESSAGE, false, DepthValues(Unmeasured(ds)), 0)
  {
    hide Schema, DepthMessage, RangeSize, Filled;
    var values := DepthValues(ds);
    forall i | 0 <= i < |values|
      ensures TypedValue(Schema(), FieldInfo(FEED, n), values[i], room) && FitsValue(values[i])
      ensures ObservedValue(values[i]) == Msg(DepthMessage(ds[i].(cachedSize := 0)))
    {
      DepthFieldTyped(n, ds[i], room);
    }
    DepthsObserved(ds);
  }

  lemma MessageTyped(info: ExtensionInfo, m: Message, room: nat)
    requires info.fieldType == MESSAGE && room > 0 && Typed(Schema(), info.messageType, m, room - 1) && Numbered(m)
    requires Fits(m) && Size(m) < TWO_31
    ensures TypedValue(Schema(), info, Msg(m), room) && FitsValue(Msg(m)) && ObservedValue(Msg(m)) == Msg(Observed(m))
  {
    hide Schema, RangeSize;
  }

  lemma DepthField(n: int)
    requires 2 <= n <= 3
    ensures FieldInfo(FEED, n).fieldType == MESSAGE && FieldInfo(FEED, n).messageType == DEPTH
  {
  }

  lemma DepthFieldTyped(n: int, d: Depth, room: nat)
    requires room > 0 && 2 <= n <= 3
    ensures var v := Msg(DepthMessage(d));
      && TypedValue(Schema(), FieldInfo(FEED, n), v, room) && FitsValue(v)
      && ObservedValue(v) == Msg(DepthMessage(d.(cachedSize := 0)))
  {
    hide *;
    assert FieldInfo(FEED, n).fieldType == MESSAGE && FieldInfo(FEED, n).messageType == DEPTH by { DepthField(n); }
    DepthIsTyped(d, room - 1);
    MessageTyped(FieldInfo(FEED, n), DepthMessage(d), room);
  }

  lemma DepthsObserved(ds: seq<Depth>)
    requires forall i | 0 <= i < |ds| :: ObservedValue(DepthValues(ds)[i]) == Msg(DepthMessage(ds[i].(cachedSize := 0)))
    ensures ObservedExtension(Repeated(MESSAGE, false, DepthValues(ds), 0))
      == Repeated(MESSAGE, false, DepthValues(Unmeasured(ds)), 0)
  {
    hide DepthMessage;
    assert ObservedExtension(Repeated(MESSAGE, false, DepthValues(ds), 0)).values == DepthValues(Unmeasured(ds));
  }

  predicate Short(text: Option<bytes>) {
    text.Some? ==> |text.value| < TWO_31
  }

  /** A repeated field's entry, by its elements. */
  function DepthsEntry(ds: seq<Depth>): Option<Extension> {
    if ds != [] then Some(Repeated(MESSAGE, false, DepthValues(ds), 0)) else None
  }

  lemma FeedEntry(p: Option<bytes>, bids: seq<Depth>, asks: seq<Depth>, cachedSize: nat, k: int)
    ensures Entry(FeedMessage(p, bids, asks, cachedSize), k) ==
      if k == 1 then FieldEntry(STRING, Text(p)) else if k == 2 then DepthsEntry(bids)
      else if k == 3 then DepthsEntry(asks) else None
  {
    hide DepthMessage;
  }

  lemma FeedIsTyped(p: Option<bytes>, bids: seq<Depth>, asks: seq<Depth>, cachedSize: nat, room: nat)
    requires room > 0 && Short(p)
    ensures var m := FeedMessage(p, bids, asks, cachedSize);
      Typed(Schema(), FEED, m, room) && Numbered(m) && Fits(m)
        && Observed(m) == FeedMessage(p, Unmeasured(bids), Unmeasured(asks), 0)
  {
    var m, o := FeedMessage(p, bids, asks, cachedSize), FeedMessage(p, Unmeasured(bids), Unmeasured(asks), 0);
    assert o.cachedSize == 0;
    TextAgrees(FEED, 1, p, room);
    DepthsAgree(2, bids, room);
    DepthsAgree(3, asks, room);
    hide FieldAgrees, FieldEntry, DepthsEntry, FeedMessage, Schema, Typed, Numbered, Fits, Observed;
    forall k ensures FieldAgrees(FEED, Entry(m, k), Entry(o, k), k, room) {
      FeedEntry(p, bids, asks, cachedSize, k);
      FeedEntry(p, Unmeasured(bids), Unmeasured(asks), 0, k);
      NothingAgrees(FEED, k, room);
    }
    AllFieldsAgree(FEED, m, o, room);
  }

  /** A feed parsed from two serialized ones: the later product code, and the depth lists one after the other. */
  lemma FeedConcatenation(pa: Option<bytes>, ba: seq<Depth>, aa: seq<Depth>, pb: Option<bytes>, bb: seq<Depth>,
                          ab: seq<Depth>, room: nat)
    requires room > 0 && Short(pa) && Short(pb)
    ensures RunLoop(FEED, EMPTY, Serialized(FeedMessage(pa, ba, aa, 0)) + Serialized(FeedMessage(pb, bb, ab, 0)), room)
         == Run(true, true, FeedMessage(Later(pa, pb), Unmeasured(ba + bb), Unmeasured(aa + ab), 0))
  {
    hide RunLoop, Serialized, FeedMessage, Merge, Observed, Typed, Numbered, Fits, Schema;
    FeedIsTyped(pa, ba, aa, 0, room);
    FeedIsTyped(pb, bb, ab, 0, room);
    FeedsMerged(pa, ba, aa, 0, pb, bb, ab, 0, Unmeasured(bb), Unmeasured(ab));
    FeedIsTyped(Later(pa, pb), ba + Unmeasured(bb), aa + Unmeasured(ab), 0, room);
    PacketConcatenation(FEED, FeedMessage(pa, ba, aa, 0), FeedMessage(pb, bb, ab, 0), room);
    assert Unmeasured(ba + Unmeasured(bb)) == Unmeasured(ba + bb);
    assert Unmeasured(aa + Unmeasured(ab)) == Unmeasured(aa + ab);
  }

  lemma OrderIsTyped(n: Option<int32>, q: Option<int32>, p: Option<float>, c: Option<bytes>, room: nat)
    requires Short(c)
    ensures var m := OrderMessage(n, q, p, c, 0);
      Typed(Schema(), ORDER, m, room) && Numbered(m) && Fits(m) && Observed(m) == m
  {
    var m := OrderMessage(n, q, p, c, 0);
    assert m.cachedSize == 0;
    NumberAgrees(ORDER, 1, INT32, n, room);
    NumberAgrees(ORDER, 2, INT32, q, room);
    NumberAgrees(ORDER, 3, FLOAT, p, room);
    TextAgrees(ORDER, 4, c, room);
    hide FieldAgrees, FieldEntry, OrderMessage, Schema, Typed, Numbered, Fits, Observed;
    forall k ensures FieldAgrees(ORDER, Entry(m, k), Entry(m, k), k, room) {
      OrderEntry(n, q, p, c, 0, k);
      NothingAgrees(ORDER, k, room);
    }
    AllFieldsAgree(ORDER, m, m, room);
  }

  /** An order parsed from two serialized ones: the later value of every field. */
  lemma OrderConcatenation(na: Option<int32>, qa: Option<int32>, pa: Option<float>, ca: Option<bytes>,
                           nb: Option<int32>, qb: Option<int32>, pb: Option<float>, cb: Option<bytes>, room: nat)
    requires Short(ca) && Short(cb)
    ensures RunLoop(ORDER, EMPTY,
                    Serialized(OrderMessage(na, qa, pa, ca, 0)) + Serialized(OrderMessage(nb, qb, pb, cb, 0)), room)
         == Run(true, true, OrderMessage(Later(na, nb), Later(qa, qb), Later(pa, pb), Later(ca, cb), 0))
  {
    hide RunLoop, Serialized, OrderMessage, Merge, Observed, Typed, Numbered, Fits, Schema;
    OrderIsTyped(na, qa, pa, ca, room);
    OrderIsTyped(nb, qb, pb, cb, room);
    OrdersMerged(na, qa, pa, ca, 0, nb, qb, pb, cb, 0);
    OrderIsTyped(Later(na, nb), Later(qa, qb), Later(pa, pb), Later(ca, cb), room);
    PacketConcatenation(ORDER, OrderMessage(na, qa, pa, ca, 0), OrderMessage(nb, qb, pb, cb, 0), room);
  }

  /** A position as it is parsed. */
  function UnmeasuredPosition(p: Option<Position>): Option<Position> {
    if p.Some? then Some(p.value.(cachedSize := 0)) else None
  }

  lemma LoginResultEntry(i: Option<int32>, n: Option<bytes>, p: Option<Position>, s: nat, k: int)
    ensures Entry(LoginResultMessage(i, n, p, s), k) ==
      if k == 1 then FieldEntry(INT32, Number(i)) else if k == 2 then FieldEntry(STRING, Text(n))
      else if k == 3 then FieldEntry(MESSAGE, PositionField(p)) else None
  {
    hide PositionMessage;
  }

  lemma LoginResultIsTyped(i: Option<int32>, n: Option<bytes>, p: Option<Position>, room: nat)
    requires room > 0 && Short(n)
    ensures var m := LoginResultMessage(i, n, p, 0);
      Typed(Schema(), LOGIN_RESULT, m, room) && Numbered(m) && Fits(m)
        && Observed(m) == LoginResultMessage(i, n, UnmeasuredPosition(p), 0)
  {
    var m, o := LoginResultMessage(i, n, p, 0), LoginResultMessage(i, n, UnmeasuredPosition(p), 0);
    assert o.cachedSize == 0;
    NumberAgrees(LOGIN_RESULT, 1, INT32, i, room);
    TextAgrees(LOGIN_RESULT, 2, n, room);
    PositionAgrees(p, room);
    hide FieldAgrees, FieldEntry, PositionField, LoginResultMessage, Schema, Typed, Numbered, Fits, Observed;
    forall k ensures FieldAgrees(LOGIN_RESULT, Entry(m, k), Entry(o, k), k, room) {
      LoginResultEntry(i, n, p, 0, k);
      LoginResultEntry(i, n, UnmeasuredPosition(p), 0, k);
      NothingAgrees(LOGIN_RESULT, k, room);
    }
    AllFieldsAgree(LOGIN_RESULT, m, o, room);
  }

  function PositionField(p: Option<Position>): Option<Value> {
    if p.Some? then Some(Msg(PositionMessage(p.value))) else None
  }

  lemma PositionAgrees(p: Option<Position>, room: nat)
    requires room > 0
    ensures FieldAgrees(LOGIN_RESULT, FieldEntry(MESSAGE, PositionField(p)),
                        FieldEntry(MESSAGE, PositionField(UnmeasuredPosition(p))), 3, room)
  {
    hide Schema, TypedExtension, FitsExtension, ObservedExtension, PositionMessage;
    if p.Some? { PositionFieldTyped(p.value, room); }
  }

  lemma PositionFieldTyped(p: Position, room: nat)
    requires room > 0
    ensures var e := Singular(MESSAGE, false, Msg(PositionMessage(p)));
      && TypedExtension(Schema(), FieldInfo(LOGIN_RESULT, 3), e, room) && FitsExtension(e)
      && ObservedExtension(e) == Singular(MESSAGE, false, Msg(PositionMessage(p.(cachedSize := 0))))
  {
    hide Schema, PositionMessage, RangeSize, InRange;
    assert FieldInfo(LOGIN_RESULT, 3).fieldType == MESSAGE && FieldInfo(LOGIN_RESULT, 3).messageType == POSITION;
    PositionIsTyped(p, room - 1);
  }

  /** Positions merge by coordinate. */
  function LaterPosition(a: Option<Position>, b: Option<Position>): Option<Position> {
    if b.None? then a
    else
      var was := if a.Some? then a.value else NEW_POSITION;
      Some(Position(Later(was.x, b.value.x), Later(was.y, b.value.y), Later(was.z, b.value.z), was.cachedSize))
  }

  /** A login result parsed from two serialized ones: the later number and name, and the positions merged. */
  lemma LoginResultConcatenation(ia: Option<int32>, na: Option<bytes>, pa: Option<Position>,
                                 ib: Option<int32>, nb: Option<bytes>, pb: Option<Position>, room: nat)
    requires room > 0 && Short(na) && Short(nb)
    ensures RunLoop(LOGIN_RESULT, EMPTY,
                    Serialized(LoginResultMessage(ia, na, pa, 0)) + Serialized(LoginResultMessage(ib, nb, pb, 0)), room)
         == Run(true, true,
                LoginResultMessage(Later(ia, ib), Later(na, nb), UnmeasuredPosition(LaterPosition(pa, pb)), 0))
  {
    hide RunLoop, Serialized, LoginResultMessage, Merge, Observed, Typed, Numbered, Fits, Schema;
    LoginResultIsTyped(ia, na, pa, room);
    LoginResultIsTyped(ib, nb, pb, room);
    var pos := LaterPosition(pa, pb);
    if pb.Some? { PositionsMerged(if pa.Some? then pa.value else NEW_POSITION, pb.value, pos.value); }
    LoginResultsMerged(ia, na, pa, 0, ib, nb, pb, 0, pos);
    LoginResultIsTyped(Later(ia, ib), Later(na, nb), pos, room);
    PacketConcatenation(LOGIN_RESULT, LoginResultMessage(ia, na, pa, 0), LoginResultMessage(ib, nb, pb, 0), room);
  }
}
