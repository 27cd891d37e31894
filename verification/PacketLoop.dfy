/** The plain way to parse one of the server's packets: read a tag, deal with its field, repeat. */
module PacketLoop {
  import opened OrderedMaps
  import opened Wire
  import opened Extensions
  import opened ExtensionCodec
  import opened ExtensionParsing

  // ----- The packets -----

  const POSITION: nat := 0
  const LOGIN_RESULT: nat := 1
  const DEPTH: nat := 2
  const FEED: nat := 3
  const ORDER: nat := 4

  function FieldCount(t: nat): nat {
    if t == ORDER then 4 else if t <= FEED then 3 else 0
  }

  /** The declared fields, by packet and number. */
  function FieldInfo(t: nat, n: int): (info: ExtensionInfo)
    ensures !info.packed && info.fieldType != ENUM
  {
    if t == POSITION then ExtensionInfo(FLOAT, false, false, {}, 0)
    else if t == LOGIN_RESULT then
      if n == 1 then ExtensionInfo(INT32, false, false, {}, 0)
      else if n == 2 then ExtensionInfo(STRING, false, false, {}, 0)
      else ExtensionInfo(MESSAGE, false, false, {}, POSITION)
    else if t == FEED then
      if n == 1 then ExtensionInfo(STRING, false, false, {}, 0)
      else ExtensionInfo(MESSAGE, true, false, {}, DEPTH)
    else
      if n == 1 || n == 2 then ExtensionInfo(INT32, false, false, {}, 0)
      else if n == 3 then ExtensionInfo(FLOAT, false, false, {}, 0)
      else ExtensionInfo(STRING, false, false, {}, 0)
  }

  ghost function Schema(): (schema: Registry)
    ensures forall t: nat, n: int :: (t, n) in schema <==> 1 <= n <= FieldCount(t)
    ensures forall t: nat, n: int | (t, n) in schema :: schema[(t, n)] == FieldInfo(t, n)
    ensures WellFormed(schema)
  {
    map t: nat, n: int | 0 <= t <= ORDER && 1 <= n <= FieldCount(t) :: (t, n) := FieldInfo(t, n)
  }

  // ----- The loop -----

  /** What the parser returns, whether it stopped where a message may end, and what it made of the message. */
  datatype Run = Run(ok: bool, ended: bool, message: Message)

  datatype FieldRun = Stopped(message: Message) | Ran(message: Message, rest: bytes)

  /** Read a tag; a declared field of its declared wire type is read, an end-group tag ends, all else is skipped. */
  ghost function RunLoop(t: nat, m: Message, b: bytes, room: nat): Run
    decreases |b|, 1
  {
    match TagAt(b)
    case AtEnd => Run(true, true, m)
    case Broken => Run(true, false, m)
    case Next(tag, rest) =>
      if Expected(Schema(), t, tag) then RunFrom(t, m, tag, rest, room)
      else if tag % 8 == END_GROUP then Run(true, false, m)
      else
        match AfterField(rest, tag, room)
        case Failed => Run(false, false, m)
        case Done(_, rest') => RunLoop(t, m, rest', room)
  }

  /** The loop, with the tag of a declared field behind. */
  ghost function RunFrom(t: nat, m: Message, tag: nat, b: bytes, room: nat): Run
    requires Expected(Schema(), t, tag)
    decreases |b|, 2
  {
    match RunField(t, m, tag, b, room)
    case Stopped(m') => Run(false, false, m')
    case Ran(m', rest) => RunLoop(t, m', rest, room)
  }

  /** One field. A string or message that cannot be read to its end is present all the same, with what was read. */
  ghost function RunField(t: nat, m: Message, tag: nat, b: bytes, room: nat): (r: FieldRun)
    requires Expected(Schema(), t, tag)
    ensures r.Ran? ==> |r.rest| < |b|
    decreases |b|, 0
  {
    var n, info := tag / 8, FieldInfo(t, tag / 8);
    if IsPrimitive(info.fieldType) then
      match PrimitiveAt(info.fieldType, b)
      case Failed => Stopped(m)
      case Done(v, rest) => Ran(Stored(m, n, info, Num(v)), rest)
    else if info.fieldType == MESSAGE then
      match RunMessage(info.messageType, if info.repeated then EMPTY else MessageIn(Entry(m, n)), b, room)
      case Stopped(inner) => Stopped(Stored(m, n, info, Msg(inner)))
      case Ran(inner, rest) => Ran(Stored(m, n, info, Msg(inner)), rest)
    else
      match RunString(StringIn(Entry(m, n)), b)
      case StoppedString(s) => Stopped(Stored(m, n, info, Str(s)))
      case RanString(s, rest) => Ran(Stored(m, n, info, Str(s)), rest)
  }

  /** `ReadMessageNoVirtual`. */
  ghost function RunMessage(t: nat, was: Message, b: bytes, room: nat): (r: FieldRun)
    ensures r.Ran? ==> |r.rest| < |b|
    decreases |b|, -1
  {
    match Varint32At(b)
    case Failed => Stopped(was)
    case Done(size, rest) => RunWithin(t, was, size, rest, room)
  }

  /** The message within its limit, or the one in force when that comes first. */
  ghost function RunWithin(t: nat, was: Message, size: nat, b: bytes, room: nat): (r: FieldRun)
    ensures r.Ran? ==> |r.rest| <= |b|
    decreases |b|, 3
  {
    if room == 0 then Stopped(was) else
    var inner := RunLoop(t, was, b[..Min(size, |b|)], room - 1);
    if inner.ok && inner.ended then Ran(inner.message, b[Min(size, |b|)..]) else Stopped(inner.message)
  }

  datatype StringRun = StoppedString(s: bytes) | RanString(s: bytes, rest: bytes)

  /** `WireFormatLite::ReadString`. */
  function RunString(was: bytes, b: bytes): (r: StringRun)
    ensures r.RanString? ==> |r.rest| < |b|
  {
    match Varint32At(b)
    case Failed => StoppedString(was)
    case Done(size, rest) =>
      if size >= TWO_31 then StoppedString(was)
      else if size > |rest| then StoppedString(rest)
      else RanString(rest[..size], rest[size..])
  }

  /** The singular string there is; a new one starts empty. */
  function StringIn(was: Option<Extension>): bytes {
    if was.Some? && was.value.Singular? && was.value.value.Str? then was.value.value.s else []
  }

  /** The loop succeeds at the end of a message exactly when the bytes parse, and then makes the same message. */
  lemma {:induction false} RunIsParsed(t: nat, m: Message, b: bytes, room: nat)
    ensures var r, p := RunLoop(t, m, b, room), Parsed(Schema(), t, m, b, room);
      (r.ok && r.ended <==> p.Some?) && (p.Some? ==> p.value == r.message)
    decreases |b|, 1
  {
    hide TagAt, AfterField, FieldParsed, Parsed, RunField, Schema;
    ParsedStep(t, m, b, room);
    var tag := TagAt(b);
    if tag.Next? {
      if Expected(Schema(), t, tag.tag) {
        RunFieldIsParsed(t, m, tag.tag, tag.rest, room);
        var r := RunField(t, m, tag.tag, tag.rest, room);
        if r.Ran? { RunIsParsed(t, r.message, r.rest, room); }
      } else if tag.tag % 8 != END_GROUP {
        var r := AfterField(tag.rest, tag.tag, room);
        if r.Done? { RunIsParsed(t, m, r.rest, room); }
      }
    }
  }

  lemma ParsedStep(t: nat, m: Message, b: bytes, room: nat)
    ensures var tag := TagAt(b);
      && (tag.AtEnd? ==> Parsed(Schema(), t, m, b, room) == Some(m))
      && (tag.Broken? ==> Parsed(Schema(), t, m, b, room) == None)
      && (tag.Next? && tag.tag % 8 == END_GROUP ==>
            Parsed(Schema(), t, m, b, room) == None && !Expected(Schema(), t, tag.tag))
      && (tag.Next? && tag.tag % 8 != END_GROUP && Expected(Schema(), t, tag.tag) ==>
            var field := FieldParsed(Schema(), t, m, tag.tag, tag.rest, room);
            Parsed(Schema(), t, m, b, room) == if field.Failed? then None
              else Parsed(Schema(), t, field.value, field.rest, room))
      && (tag.Next? && tag.tag % 8 != END_GROUP && !Expected(Schema(), t, tag.tag) ==>
            var after := AfterField(tag.rest, tag.tag, room);
            Parsed(Schema(), t, m, b, room) == if after.Failed? then None else Parsed(Schema(), t, m, after.rest, room))
  {
    hide TagAt, AfterField, Schema;
  }

  lemma {:induction false} RunFieldIsParsed(t: nat, m: Message, tag: nat, b: bytes, room: nat)
    requires Expected(Schema(), t, tag)
    ensures var r, p := RunField(t, m, tag, b, room), FieldParsed(Schema(), t, m, tag, b, room);
      (r.Ran? <==> p.Done?) && (r.Ran? ==> p == Done(r.message, r.rest))
    decreases |b|, 0
  {
    hide Varint32At, PrimitiveAt, AfterField, Stored, Parsed, RunLoop, ValueParsed, RunMessage;
    var n, info := tag / 8, FieldInfo(t, tag / 8);
    var was := MessageIn(Entry(m, n));
    if info.fieldType == MESSAGE {
      RunMessageIsParsed(info, was, b, room);
    } else {
      PlainValueParsed(info, was, b, room);
    }
  }

  lemma PlainValueParsed(info: ExtensionInfo, was: Message, b: bytes, room: nat)
    requires info.fieldType != MESSAGE
    ensures ValueParsed(Schema(), info, was, b, room)
         == if IsPrimitive(info.fieldType) then
              match PrimitiveAt(info.fieldType, b) case Failed => Failed case Done(v, rest) => Done(Num(v), rest)
            else
              match Varint32At(b)
              case Failed => Failed
              case Done(size, rest) =>
                if size >= TWO_31 || size > |rest| then Failed else Done(Str(rest[..size]), rest[size..])
  {
    hide Varint32At, PrimitiveAt, Parsed;
  }

  lemma {:induction false} RunMessageIsParsed(info: ExtensionInfo, was: Message, b: bytes, room: nat)
    requires info.fieldType == MESSAGE
    ensures var r := RunMessage(info.messageType, if info.repeated then EMPTY else was, b, room);
      ValueParsed(Schema(), info, was, b, room) == if r.Ran? then Done(Msg(r.message), r.rest) else Failed
    decreases |b|, -1
  {
    hide Varint32At, PrimitiveAt, Parsed, RunLoop;
    var start, size := if info.repeated then EMPTY else was, Varint32At(b);
    if size.Done? && room > 0 {
      RunIsParsed(info.messageType, start, size.rest[..Min(size.value, |size.rest|)], room - 1);
    }
  }

  /**
   * Parsing one serialized packet after another ends well and gives what merging the second into the first lets one
   * observe.
   */
  lemma PacketConcatenation(t: nat, a: Message, b: Message, room: nat)
    requires Typed(Schema(), t, a, room) && Numbered(a) && Fits(a)
    requires Typed(Schema(), t, b, room) && Numbered(b) && Fits(b)
    ensures RunLoop(t, EMPTY, Serialized(a) + Serialized(b), room) == Run(true, true, Observed(Merge(a, b)))
  {
    ConcatenationIsMerge(Schema(), t, a, b, room);
    RunIsParsed(t, EMPTY, Serialized(a) + Serialized(b), room);
  }
}
