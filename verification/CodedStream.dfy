/** `CodedInputStream` over an array, and `CodedOutputStream`. */
module CodedStream {
  import opened Wire

  const RECURSION_LIMIT := 100

  /** `low << bits` put on top of what was read before; `scale` is 2 to the `bits`. */
  function Accumulate(value: nat, low: nat, scale: nat): nat {
    value + low * scale
  }

  /** The varint whose low part is `value` and whose high part, yet to be read, counts `scale`, cut to 64 bits. */
  ghost function Finish(r: Read<nat>, value: nat, scale: nat): Read<nat> {
    match r
    case Failed => Failed
    case Done(high, rest) => Done(Accumulate(value, high, scale) % TWO_64, rest)
  }

  /** One round of reading a varint. */
  lemma VarintStep(b: bytes, count: nat, value: nat, scale: nat)
    ensures count >= MAX_VARINT_BYTES || b == [] ==> Finish(VarintFrom(b, count), value, scale) == Failed
    ensures count < MAX_VARINT_BYTES && b != [] && b[0] < 128 ==>
              Finish(VarintFrom(b, count), value, scale) == Done(Accumulate(value, b[0], scale) % TWO_64, b[1..])
    ensures count < MAX_VARINT_BYTES && b != [] && b[0] >= 128 ==>
              Finish(VarintFrom(b, count), value, scale)
              == Finish(VarintFrom(b[1..], count + 1), Accumulate(value, b[0] - 128, scale), 128 * scale)
  {
    if count < MAX_VARINT_BYTES && b != [] && b[0] >= 128 {
      var r := VarintFrom(b[1..], count + 1);
      if r.Done? {
        assert (b[0] - 128 + 128 * r.value) * scale == (b[0] - 128) * scale + r.value * (128 * scale);
      }
    }
  }

  lemma VarintWhole(b: bytes)
    ensures Finish(VarintFrom(b, 0), 0, 1) == Varint64At(b)
  {
  }

  lemma GroupSkipped(b: bytes, tag: nat, room: nat)
    requires tag % 8 == START_GROUP
    ensures AfterField(b, tag, room) ==
      if room == 0 then Failed else
      match AfterMessage(b, room - 1)
      case Failed => Failed
      case Done(last, rest) => if last == MakeTag(tag / 8, END_GROUP) then Done((), rest) else Failed
  {
    hide Varint64At, Varint32At, FixedAt, AfterMessage, MakeTag;
  }

  lemma NoBytes(d: bytes, i: nat)
    requires i <= |d|
    ensures FixedValue(d[i..i]) == 0
  {
  }

  lemma OneMoreByte(d: bytes, i: nat, end: nat)
    requires i < end <= |d|
    ensures FixedValue(d[i..end]) == d[i] + 256 * FixedValue(d[i + 1..end])
  {
    assert d[i..end][1..] == d[i + 1..end];
  }

  /** Tags of one byte and of two. */
  lemma ShortTag(b: bytes, tag: nat)
    requires 0 < tag < 0x80 && b != [] && b[0] == tag
    ensures TagAt(b) == Next(tag, b[1..])
  {
    assert VarintFrom(b, 0) == Done(tag, b[1..]);
  }

  lemma LongerTag(b: bytes, tag: nat)
    requires 0x80 <= tag < 0x4000 && |b| >= 2 && b[0] == tag % 128 + 128 && b[1] == tag / 128
    ensures TagAt(b) == Next(tag, b[2..])
  {
    assert b[1..][1..] == b[2..];
    assert VarintFrom(b[1..], 1) == Done(tag / 128, b[2..]);
    assert VarintFrom(b, 0) == Done(tag, b[2..]);
  }

  lemma SliceOfSlice(d: bytes, from: nat, middle: nat, to: nat)
    requires from <= middle <= to <= |d|
    ensures d[from..middle] == d[from..to][..middle - from] && d[middle..to] == d[from..to][middle - from..]
  {
    var whole := d[from..to];
    forall i | 0 <= i < middle - from ensures d[from..middle][i] == whole[..middle - from][i] {
    }
    assert |d[middle..to]| == |whole[middle - from..]|;
    forall i | 0 <= i < to - middle ensures d[middle..to][i] == whole[middle - from..][i] {
    }
  }

  /** The stream made of an array has its limit at the end of the array from the start. */
  class CodedInputStream {
    const data: bytes
    var pos: nat
    var limit: nat
    var lastTag: nat
    var legitimateEnd: bool
    var depth: nat

    constructor (data: bytes)
      ensures Valid() && this.data == data && Rest() == data && depth == 0 && !legitimateEnd
    {
      this.data := data;
      pos, limit, lastTag, legitimateEnd, depth := 0, |data|, 0, false, 0;
      new;
      assert Rest() == data;
    }

    ghost predicate Valid()
      reads this`pos, this`limit
    {
      pos <= limit <= |data|
    }

    /** What is left before the limit. */
    ghost function Rest(): bytes
      reads this`pos, this`limit
      requires Valid()
    {
      data[pos..limit]
    }

    /** How many more levels of nesting are allowed. */
    ghost function Room(): int
      reads this`depth
    {
      RECURSION_LIMIT - depth
    }

    /** `ReadVarint64Slow`. */
    method ReadVarint64() returns (ok: bool, value: nat)
      requires Valid()
      modifies this`pos
      ensures Valid() && pos >= old(pos)
      ensures Varint64At(old(Rest())) == if ok then Done(value, Rest()) else Failed
      ensures ok ==> pos > old(pos)
    {
      hide VarintFrom, Finish, Accumulate, Varint64At;
      VarintWhole(Rest());
      value := 0;
      var count, scale := 0, 1;
      while true
        invariant Valid() && pos >= old(pos) && count <= MAX_VARINT_BYTES && scale >= 0
        invariant Varint64At(old(Rest())) == Finish(VarintFrom(Rest(), count), value, scale)
        decreases MAX_VARINT_BYTES - count
      {
        VarintStep(Rest(), count, value, scale);
        if count == MAX_VARINT_BYTES || pos == limit { return false, value; }
        var b: int := data[pos];
        SliceOfSlice(data, pos, pos + 1, limit);
        pos := pos + 1;
        if b < 128 {
          value := Accumulate(value, b, scale) % TWO_64;
          return true, value;
        }
        value, scale, count := Accumulate(value, b - 128, scale), 128 * scale, count + 1;
      }
    }

    /** The high-order bits are read and dropped. */
    method ReadVarint32() returns (ok: bool, value: nat)
      requires Valid()
      modifies this`pos
      ensures Valid() && pos >= old(pos)
      ensures Varint32At(old(Rest())) == if ok then Done(value, Rest()) else Failed
      ensures ok ==> pos > old(pos)
    {
      hide Varint32At, Varint64At;
      Varint32IsTruncated(Rest());
      ok, value := ReadVarint64();
      value := value % TWO_32;
    }

    method ReadLittleEndian(width: nat) returns (ok: bool, value: nat)
      requires Valid()
      modifies this`pos
      ensures Valid() && pos >= old(pos)
      ensures FixedAt(old(Rest()), width) == if ok then Done(value, Rest()) else Failed
    {
      hide FixedValue;
      if limit - pos < width { return false, 0; }
      value := 0;
      var i := width;
      NoBytes(data, pos + width);
      while i > 0
        invariant Valid() && pos == old(pos)
        invariant 0 <= i <= width && value == FixedValue(data[pos + i..pos + width])
      {
        i := i - 1;
        OneMoreByte(data, pos + i, pos + width);
        value := data[pos + i] + 256 * value;
      }
      SliceOfSlice(data, pos, pos + width, limit);
      pos := pos + width;
      return true, value;
    }

    /**
     * `InternalReadStringInline`: on failure the string holds what there was, unless the size is negative as an `int`.
     */
    method ReadString(size: nat, was: bytes) returns (ok: bool, value: bytes)
      requires Valid()
      modifies this`pos
      ensures Valid() && pos >= old(pos)
      ensures ok <==> size < TWO_31 && size <= |old(Rest())|
      ensures ok ==> value == old(Rest())[..size] && Rest() == old(Rest())[size..]
      ensures !ok ==> value == if size < TWO_31 then old(Rest()) else was
    {
      if size >= TWO_31 { return false, was; }
      if limit - pos >= size {
        value := data[pos..pos + size];
        SliceOfSlice(data, pos, pos + size, limit);
        pos := pos + size;
        return true, value;
      }
      value := data[pos..limit];
      pos := limit;
      return false, value;
    }

    method Skip(count: nat) returns (ok: bool)
      requires Valid()
      modifies this`pos
      ensures Valid() && pos >= old(pos)
      ensures ok <==> count < TWO_31 && count <= |old(Rest())|
      ensures ok ==> Rest() == old(Rest())[count..]
    {
      if count >= TWO_31 { return false; }
      if count <= limit - pos {
        SliceOfSlice(data, pos, pos + count, limit);
        pos := pos + count;
        return true;
      }
      pos := limit;
      return false;
    }

    /** Zero at the end, which is then legitimate, and when there is no tag. */
    method ReadTag() returns (tag: nat)
      requires Valid()
      modifies this`pos, this`lastTag, this`legitimateEnd
      ensures Valid() && pos >= old(pos) && lastTag == tag
      ensures match TagAt(old(Rest()))
        case AtEnd => tag == 0 && legitimateEnd && pos == old(pos)
        case Broken => tag == 0 && legitimateEnd == old(legitimateEnd)
        case Next(t, rest) => tag == t && Rest() == rest && legitimateEnd == old(legitimateEnd) && pos > old(pos)
    {
      if pos == limit {
        lastTag, legitimateEnd := 0, true;
        return 0;
      }
      var ok, value := ReadVarint32();
      lastTag := if ok then value else 0;
      return lastTag;
    }

    /** Compares the bytes of the stream with the one or two bytes of a tag, and declines longer ones. */
    method ExpectTag(expected: nat) returns (ok: bool)
      requires Valid() && 0 < expected < TWO_32
      modifies this`pos
      ensures Valid() && pos >= old(pos)
      ensures ok ==> TagAt(old(Rest())) == Next(expected, Rest())
      ensures !ok ==> pos == old(pos)
    {
      hide TagAt;
      ghost var start := Rest();
      if expected < 0x80 {
        ok := pos < limit && data[pos] == expected;
        if ok {
          SliceOfSlice(data, pos, pos + 1, limit);
          pos := pos + 1;
          ShortTag(start, expected);
        }
      } else if expected < 0x4000 {
        ok := limit - pos >= 2 && data[pos] == expected % 128 + 128 && data[pos + 1] == expected / 128;
        if ok {
          SliceOfSlice(data, pos, pos + 2, limit);
          pos := pos + 2;
          LongerTag(start, expected);
        }
      } else {
        ok := false;
      }
    }

    method ExpectAtEnd() returns (ok: bool)
      requires Valid()
      modifies this`lastTag, this`legitimateEnd
      ensures ok <==> Rest() == []
      ensures ok ==> lastTag == 0 && legitimateEnd
      ensures !ok ==> lastTag == old(lastTag) && legitimateEnd == old(legitimateEnd)
    {
      ok := pos == limit;
      if ok { lastTag, legitimateEnd := 0, true; }
    }

    /** A limit beyond the one in force, or negative as an `int`, is cut back to the one in force. */
    method PushLimit(byteLimit: nat) returns (oldLimit: nat)
      requires Valid()
      modifies this`limit
      ensures Valid() && oldLimit == old(limit) && limit <= oldLimit
      ensures Rest() == old(Rest())[..if byteLimit < |old(Rest())| then byteLimit else |old(Rest())|]
      ensures data[limit..oldLimit] == old(Rest())[|Rest()|..]
    {
      oldLimit := limit;
      ghost var start := Rest();
      if byteLimit < limit - pos {
        limit := pos + byteLimit;
      }
      SliceOfSlice(data, pos, limit, oldLimit);
    }

    method PopLimit(oldLimit: nat)
      requires Valid() && limit <= oldLimit <= |data|
      modifies this`limit, this`legitimateEnd
      ensures Valid() && limit == oldLimit && !legitimateEnd
    {
      limit, legitimateEnd := oldLimit, false;
    }

    method IncrementRecursionDepth() returns (ok: bool)
      modifies this`depth
      ensures depth == old(depth) + 1 && ok == (old(Room()) > 0)
    {
      depth := depth + 1;
      ok := depth <= RECURSION_LIMIT;
    }

    method DecrementRecursionDepth()
      modifies this`depth
      ensures depth == if old(depth) > 0 then old(depth) - 1 else 0
    {
      if depth > 0 { depth := depth - 1; }
    }

    method ReadPrimitive(t: FieldType) returns (ok: bool, value: int)
      requires Valid() && IsPrimitive(t)
      modifies this`pos
      ensures Valid() && pos >= old(pos)
      ensures PrimitiveAt(t, old(Rest())) == if ok then Done(value, Rest()) else Failed
      ensures ok ==> InRange(t, value) && pos > old(pos)
    {
      hide VarintFrom, FixedValue, InRange;
      PrimitiveReadInRange(t, Rest());
      var n;
      match t {
        case INT32 => ok, n := ReadVarint32(); value := ToSigned(n, TWO_31);
        case ENUM => ok, n := ReadVarint32(); value := ToSigned(n, TWO_31);
        case INT64 => ok, n := ReadVarint64(); value := ToSigned(n, TWO_63);
        case UINT32 => ok, value := ReadVarint32();
        case UINT64 => ok, value := ReadVarint64();
        case SINT32 => ok, n := ReadVarint32(); value := ZigZagDecode(n);
        case SINT64 => ok, n := ReadVarint64(); value := ZigZagDecode(n);
        case BOOL => ok, n := ReadVarint32(); value := if n != 0 then 1 else 0;
        case FIXED32 => ok, value := ReadLittleEndian(4);
        case FLOAT => ok, value := ReadLittleEndian(4);
        case SFIXED32 => ok, n := ReadLittleEndian(4); value := ToSigned(n, TWO_31);
        case FIXED64 => ok, value := ReadLittleEndian(8);
        case DOUBLE => ok, value := ReadLittleEndian(8);
        case SFIXED64 => ok, n := ReadLittleEndian(8); value := ToSigned(n, TWO_63);
      }
    }

    method SkipField(tag: nat) returns (ok: bool)
      requires Valid() && Room() >= 0
      modifies this`pos, this`lastTag, this`legitimateEnd, this`depth
      ensures Valid() && pos >= old(pos)
      ensures AfterField(old(Rest()), tag, old(Room())) == if ok then Done((), Rest()) else Failed
      ensures ok ==> depth == old(depth) && legitimateEnd == old(legitimateEnd)
      decreases limit - pos, 2
    {
      hide Varint64At, Varint32At, FixedAt, AfterMessage;
      var wireType, value := tag % 8, 0;
      if wireType == VARINT {
        ok, value := ReadVarint64();
      } else if wireType == FIXED_64 {
        ok, value := ReadLittleEndian(8);
      } else if wireType == FIXED_32 {
        ok, value := ReadLittleEndian(4);
      } else if wireType == LENGTH_DELIMITED {
        var length;
        ok, length := ReadVarint32();
        if ok { ok := Skip(length); }
      } else if wireType == START_GROUP {
        ok := SkipGroup(tag);
      } else {
        ok := false;
      }
    }

    method SkipGroup(tag: nat) returns (ok: bool)
      requires Valid() && Room() >= 0 && tag % 8 == START_GROUP
      modifies this`pos, this`lastTag, this`legitimateEnd, this`depth
      ensures Valid() && pos >= old(pos)
      ensures AfterField(old(Rest()), tag, old(Room())) == if ok then Done((), Rest()) else Failed
      ensures ok ==> depth == old(depth) && legitimateEnd == old(legitimateEnd)
      decreases limit - pos, 1
    {
      hide AfterField, AfterMessage, MakeTag;
      GroupSkipped(Rest(), tag, Room());
      TagKeepsWireType(tag / 8, END_GROUP);
      ok := IncrementRecursionDepth();
      if !ok { return; }
      ok := SkipMessage();
      if !ok { return; }
      DecrementRecursionDepth();
      ok := lastTag == MakeTag(tag / 8, END_GROUP);
    }

    method SkipMessage() returns (ok: bool)
      requires Valid() && Room() >= 0
      modifies this`pos, this`lastTag, this`legitimateEnd, this`depth
      ensures Valid() && pos >= old(pos)
      ensures match AfterMessage(old(Rest()), old(Room()))
        case Failed => !ok
        case Done(last, rest) =>
          ok && lastTag == last && (last != 0 ==> Rest() == rest && legitimateEnd == old(legitimateEnd))
      ensures ok ==> depth == old(depth)
      decreases limit - pos, 0
    {
      hide TagAt, AfterField;
      while true
        invariant Valid() && pos >= old(pos) && depth == old(depth) && legitimateEnd == old(legitimateEnd)
        invariant AfterMessage(old(Rest()), old(Room())) == AfterMessage(Rest(), Room())
        decreases limit - pos
      {
        var tag := ReadTag();
        if tag == 0 { return true; }
        if tag % 8 == END_GROUP { return true; }
        ok := SkipField(tag);
        if !ok { return; }
      }
    }
  }

  /** Bytes put over others. */
  function Overwrite(was: bytes, at: nat, b: bytes): (now: bytes)
    requires at + |b| <= |was|
    ensures |now| == |was|
  {
    was[..at] + b + was[at + |b|..]
  }

  lemma OverwriteThen(was: bytes, at: nat, b: bytes, c: bytes)
    requires at + |b| + |c| <= |was|
    ensures Overwrite(Overwrite(was, at, b), at + |b|, c) == Overwrite(was, at, b + c)
  {
    var once := Overwrite(was, at, b);
    assert once[..at + |b|] == was[..at] + b;
    assert once[at + |b| + |c|..] == was[at + |b| + |c|..];
  }

  lemma OverwriteNothing(was: bytes, at: nat)
    requires at <= |was|
    ensures Overwrite(was, at, []) == was
  {
  }

  /** A stream that bytes are appended to, and the writers of the array form. */
  class CodedOutputStream {
    var written: bytes

    constructor ()
      ensures written == []
    {
      written := [];
    }

    /** `WriteVarint32` and `WriteVarint64`, the slow way: seven bits at a time. */
    method WriteVarint(n: nat)
      modifies this
      ensures written == old(written) + VarintBytes(n)
    {
      var value, b: bytes := n, [];
      while value > 0x7F
        invariant b + VarintBytes(value) == VarintBytes(n)
      {
        assert b + VarintBytes(value) == b + [value % 128 + 128] + VarintBytes(value / 128);
        b := b + [value % 128 + 128];
        value := value / 128;
      }
      written := written + (b + [value]);
    }

    method WriteString(s: bytes)
      modifies this
      ensures written == old(written) + s
    {
      written := written + s;
    }

    method WriteLittleEndian(n: nat, width: nat)
      modifies this
      ensures written == old(written) + FixedBytes(n, width)
    {
      var value, b: bytes := n, [];
      for i := 0 to width
        invariant b + FixedBytes(value, width - i) == FixedBytes(n, width)
      {
        assert b + FixedBytes(value, width - i) == b + [value % 256] + FixedBytes(value / 256, width - i - 1);
        b := b + [value % 256];
        value := value / 256;
      }
      assert b + FixedBytes(value, 0) == b;
      written := written + b;
    }

    /** `Write…NoTag`. */
    method WritePrimitive(t: FieldType, v: int)
      requires IsPrimitive(t) && InRange(t, v)
      modifies this
      ensures written == old(written) + PrimitiveBytes(t, v)
    {
      hide VarintBytes, FixedBytes;
      match t {
        case INT32 => WriteVarint(ToUnsigned(v, TWO_63));
        case ENUM => WriteVarint(ToUnsigned(v, TWO_63));
        case INT64 => WriteVarint(ToUnsigned(v, TWO_63));
        case UINT32 => WriteVarint(v);
        case UINT64 => WriteVarint(v);
        case SINT32 => WriteVarint(ZigZagEncode(v));
        case SINT64 => WriteVarint(ZigZagEncode(v));
        case BOOL => WriteVarint(v);
        case FIXED32 => WriteLittleEndian(v, 4);
        case FLOAT => WriteLittleEndian(v, 4);
        case SFIXED32 => WriteLittleEndian(ToUnsigned(v, TWO_31), 4);
        case FIXED64 => WriteLittleEndian(v, 8);
        case DOUBLE => WriteLittleEndian(v, 8);
        case SFIXED64 => WriteLittleEndian(ToUnsigned(v, TWO_63), 8);
      }
    }

    /** `WriteVarint64ToArray`: the size first, then the groups of seven bits, and the last byte loses its top bit. */
    static method WriteVarintToArray(n: nat, buffer: array<byte>, target: nat) returns (end: nat)
      requires n < TWO_64 && target + |VarintBytes(n)| <= buffer.Length
      modifies buffer
      ensures end == target + |VarintBytes(n)|
      ensures buffer[..] == Overwrite(old(buffer[..]), target, VarintBytes(n))
    {
      hide Overwrite, VarintSize64;
      VarintSizeExact(n);
      ghost var was, done: bytes := buffer[..], [];
      OverwriteNothing(was, target);
      var size, i, value := VarintSize64(n), 0, n;
      while i < size - 1
        invariant 0 <= i < size && |done| == i
        invariant done + VarintBytes(value) == VarintBytes(n) && |VarintBytes(value)| == size - i
        invariant buffer[..] == Overwrite(was, target, done)
      {
        WriteByte(value % 128 + 128, buffer, target + i);
        OverwriteThen(was, target, done, [value % 128 + 128]);
        done := done + [value % 128 + 128];
        value := value / 128;
        i := i + 1;
      }
      WriteByte(value, buffer, target + i);
      OverwriteThen(was, target, done, [value]);
      end := target + size;
    }

    static method WriteLittleEndianToArray(n: nat, width: nat, buffer: array<byte>, target: nat) returns (end: nat)
      requires target + width <= buffer.Length
      modifies buffer
      ensures end == target + width
      ensures buffer[..] == Overwrite(old(buffer[..]), target, FixedBytes(n, width))
    {
      hide Overwrite;
      ghost var was, done: bytes := buffer[..], [];
      OverwriteNothing(was, target);
      var value := n;
      for i := 0 to width
        invariant |done| == i && done + FixedBytes(value, width - i) == FixedBytes(n, width)
        invariant buffer[..] == Overwrite(was, target, done)
      {
        assert done + FixedBytes(value, width - i) == done + [value % 256] + FixedBytes(value / 256, width - i - 1);
        WriteByte(value % 256, buffer, target + i);
        OverwriteThen(was, target, done, [value % 256]);
        done := done + [value % 256];
        value := value / 256;
      }
      assert done + FixedBytes(value, 0) == done;
      end := target + width;
    }

    static method WriteStringToArray(s: bytes, buffer: array<byte>, target: nat) returns (end: nat)
      requires target + |s| <= buffer.Length
      modifies buffer
      ensures end == target + |s|
      ensures buffer[..] == Overwrite(old(buffer[..]), target, s)
    {
      forall i | 0 <= i < |s| { buffer[target + i] := s[i]; }
      end := target + |s|;
    }

    static method WritePrimitiveToArray(t: FieldType, v: int, buffer: array<byte>, target: nat) returns (end: nat)
      requires IsPrimitive(t) && InRange(t, v) && target + |PrimitiveBytes(t, v)| <= buffer.Length
      modifies buffer
      ensures end == target + |PrimitiveBytes(t, v)|
      ensures buffer[..] == Overwrite(old(buffer[..]), target, PrimitiveBytes(t, v))
    {
      hide VarintBytes, FixedBytes, Overwrite;
      match t {
        case INT32 => end := WriteVarintToArray(ToUnsigned(v, TWO_63), buffer, target);
        case ENUM => end := WriteVarintToArray(ToUnsigned(v, TWO_63), buffer, target);
        case INT64 => end := WriteVarintToArray(ToUnsigned(v, TWO_63), buffer, target);
        case UINT32 => end := WriteVarintToArray(v, buffer, target);
        case UINT64 => end := WriteVarintToArray(v, buffer, target);
        case SINT32 => end := WriteVarintToArray(ZigZagEncode(v), buffer, target);
        case SINT64 => end := WriteVarintToArray(ZigZagEncode(v), buffer, target);
        case BOOL => end := WriteVarintToArray(v, buffer, target);
        case FIXED32 => end := WriteLittleEndianToArray(v, 4, buffer, target);
        case FLOAT => end := WriteLittleEndianToArray(v, 4, buffer, target);
        case SFIXED32 => end := WriteLittleEndianToArray(ToUnsigned(v, TWO_31), 4, buffer, target);
        case FIXED64 => end := WriteLittleEndianToArray(v, 8, buffer, target);
        case DOUBLE => end := WriteLittleEndianToArray(v, 8, buffer, target);
        case SFIXED64 => end := WriteLittleEndianToArray(ToUnsigned(v, TWO_63), 8, buffer, target);
      }
    }

    static method WriteByte(b: byte, buffer: array<byte>, target: nat)
      requires target < buffer.Length
      modifies buffer
      ensures buffer[..] == Overwrite(old(buffer[..]), target, [b])
    {
      buffer[target] := b;
    }
  }
}
