/** The wire format: varints, fixed-width numbers, tags, and skipping fields nobody knows. */
module Wire {

  type byte = x: int | 0 <= x < 256
  type bytes = seq<byte>

  const TWO_29 := 0x2000_0000
  const TWO_31 := 0x8000_0000
  const TWO_32 := 0x1_0000_0000
  const TWO_63 := 0x8000_0000_0000_0000
  const TWO_64 := 0x1_0000_0000_0000_0000

  /** What reading from the front of some bytes gives. */
  datatype Read<+T> = Failed | Done(value: T, rest: bytes)

  // ----- Varints -----

  const MAX_VARINT_BYTES := 10

  function VarintBytes(n: nat): (b: bytes)
    ensures |b| > 0
  {
    if n < 128 then [n] else [n % 128 + 128] + VarintBytes(n / 128)
  }

  /** The varint at the front, `count` bytes of which are behind us, before it is cut to a width. */
  function VarintFrom(b: bytes, count: nat): (r: Read<nat>)
    ensures r.Done? ==> |r.rest| < |b| && r.rest == b[|b| - |r.rest|..]
    decreases |b|
  {
    if count >= MAX_VARINT_BYTES || b == [] then Failed
    else if b[0] < 128 then Done(b[0], b[1..])
    else
      match VarintFrom(b[1..], count + 1)
      case Failed => Failed
      case Done(high, rest) => Done(b[0] - 128 + 128 * high, rest)
  }

  function Varint64At(b: bytes): (r: Read<nat>)
    ensures r.Done? ==> |r.rest| < |b| && r.rest == b[|b| - |r.rest|..] && r.value < TWO_64
  {
    match VarintFrom(b, 0)
    case Failed => Failed
    case Done(value, rest) => Done(value % TWO_64, rest)
  }

  /** Bits above the lowest 32 are read and dropped. */
  function Varint32At(b: bytes): (r: Read<nat>)
    ensures r.Done? ==> |r.rest| < |b| && r.rest == b[|b| - |r.rest|..] && r.value < TWO_32
  {
    match VarintFrom(b, 0)
    case Failed => Failed
    case Done(value, rest) => Done(value % TWO_32, rest)
  }

  /** Dropping bits in two steps or in one. */
  lemma TruncateTwice(n: nat)
    ensures n % TWO_64 % TWO_32 == n % TWO_32
  {
    var high := n / TWO_64;
    assert n == (high * TWO_32) * TWO_32 + n % TWO_64;
    assert ((high * TWO_32) * TWO_32 + n % TWO_64) % TWO_32 == n % TWO_64 % TWO_32;
  }

  lemma Varint32IsTruncated(b: bytes)
    ensures Varint64At(b).Failed? ==> Varint32At(b) == Failed
    ensures Varint64At(b).Done? ==> Varint32At(b) == Done(Varint64At(b).value % TWO_32, Varint64At(b).rest)
  {
    var r := VarintFrom(b, 0);
    if r.Done? { TruncateTwice(r.value); }
  }

  function Power128(k: nat): nat {
    if k == 0 then 1 else 128 * Power128(k - 1)
  }

  lemma {:induction false} VarintLengthAtMost(n: nat, k: nat)
    requires k > 0
    ensures |VarintBytes(n)| <= k <==> n < Power128(k)
  {
    assert Power128(k) == 128 * Power128(k - 1);
    if n >= 128 && k > 1 {
      VarintLengthAtMost(n / 128, k - 1);
    } else if n < 128 {
      PowerPositive(k - 1);
    }
  }

  lemma {:induction false} PowerPositive(k: nat)
    ensures Power128(k) >= 1
  {
    if k > 0 { PowerPositive(k - 1); }
  }

  lemma {:induction false} VarintFromBytes(n: nat, rest: bytes, count: nat)
    requires count + |VarintBytes(n)| <= MAX_VARINT_BYTES
    ensures VarintFrom(VarintBytes(n) + rest, count) == Done(n, rest)
    decreases n
  {
    hide VarintBytes, VarintFrom;
    if n < 128 {
      VarintEnds(n, rest, count);
    } else {
      var low, high := n % 128, n / 128;
      LowAndHigh(n, low, high);
      VarintGroups(n, low, high);
      VarintFromBytes(high, rest, count + 1);
      assert VarintBytes(n) + rest == [low + 128] + (VarintBytes(high) + rest);
      VarintContinues(low, VarintBytes(high) + rest, count);
    }
  }

  lemma LowAndHigh(n: nat, low: nat, high: nat)
    requires low == n % 128 && high == n / 128
    ensures low < 128 && n == low + 128 * high && (n > 0 ==> high < n)
  {
  }

  lemma VarintGroups(n: nat, low: nat, high: nat)
    requires n >= 128 && low == n % 128 && high == n / 128
    ensures VarintBytes(n) == [low + 128] + VarintBytes(high)
  {
  }

  lemma VarintEnds(n: nat, rest: bytes, count: nat)
    requires n < 128 && count < MAX_VARINT_BYTES
    ensures VarintFrom(VarintBytes(n) + rest, count) == Done(n, rest)
  {
    assert VarintBytes(n) == [n] && ([n] + rest)[1..] == rest;
  }

  lemma VarintContinues(low: nat, b: bytes, count: nat)
    requires low < 128 && count < MAX_VARINT_BYTES
    ensures VarintFrom([low + 128] + b, count)
         == match VarintFrom(b, count + 1) case Failed => Failed case Done(high, rest) => Done(low + 128 * high, rest)
  {
    assert ([low + 128] + b)[1..] == b;
  }

  function VarintSize32(n: nat): nat
    requires n < TWO_32
  {
    if n < 0x80 then 1 else if n < 0x4000 then 2 else if n < 0x20_0000 then 3 else if n < 0x1000_0000 then 4 else 5
  }

  function VarintSize64(n: nat): nat
    requires n < TWO_64
  {
    if n < 0x8_0000_0000 then
      if n < 0x80 then 1 else if n < 0x4000 then 2 else if n < 0x20_0000 then 3 else if n < 0x1000_0000 then 4 else 5
    else
      if n < 0x400_0000_0000 then 6 else if n < 0x2_0000_0000_0000 then 7 else if n < 0x100_0000_0000_0000 then 8
      else if n < 0x8000_0000_0000_0000 then 9 else 10
  }

  /** The powers of 128 up to the tenth, so that the solver need not unroll. */
  lemma Powers()
    ensures Power128(1) == 0x80 && Power128(2) == 0x4000 && Power128(3) == 0x20_0000 && Power128(4) == 0x1000_0000
    ensures Power128(5) == 0x8_0000_0000 && Power128(6) == 0x400_0000_0000 && Power128(7) == 0x2_0000_0000_0000
    ensures Power128(8) == 0x100_0000_0000_0000 && Power128(9) == 0x8000_0000_0000_0000
    ensures Power128(10) == 0x40_0000_0000_0000_0000
  {
    assert Power128(0) == 1;
  }

  /** The size functions predict the bytes written, and whatever is written is read back. */
  lemma VarintSizeExact(n: nat)
    requires n < TWO_64
    ensures |VarintBytes(n)| == VarintSize64(n) <= MAX_VARINT_BYTES
    ensures n < TWO_32 ==> VarintSize64(n) == VarintSize32(n)
  {
    hide Power128;
    Powers();
    forall k: nat | 1 <= k <= 10 ensures |VarintBytes(n)| <= k <==> n < Power128(k) {
      VarintLengthAtMost(n, k);
    }
    assert forall k: nat | 1 <= k <= 10 :: |VarintBytes(n)| <= k <==> n < Power128(k);
    assert |VarintBytes(n)| <= 1 <==> n < Power128(1);
    assert |VarintBytes(n)| <= 2 <==> n < Power128(2);
    assert |VarintBytes(n)| <= 3 <==> n < Power128(3);
    assert |VarintBytes(n)| <= 4 <==> n < Power128(4);
    assert |VarintBytes(n)| <= 5 <==> n < Power128(5);
    assert |VarintBytes(n)| <= 6 <==> n < Power128(6);
    assert |VarintBytes(n)| <= 7 <==> n < Power128(7);
    assert |VarintBytes(n)| <= 8 <==> n < Power128(8);
    assert |VarintBytes(n)| <= 9 <==> n < Power128(9);
    assert |VarintBytes(n)| <= 10 <==> n < Power128(10);
  }

  lemma VarintRoundTrip(n: nat, rest: bytes)
    requires n < TWO_64
    ensures Varint64At(VarintBytes(n) + rest) == Done(n, rest)
    ensures Varint32At(VarintBytes(n) + rest) == Done(n % TWO_32, rest)
  {
    hide VarintBytes, VarintFrom, VarintSize64, VarintSize32;
    VarintSizeExact(n);
    VarintFromBytes(n, rest, 0);
  }

  // ----- Fixed width, least significant byte first -----

  function FixedBytes(n: nat, width: nat): (b: bytes)
    ensures |b| == width
  {
    if width == 0 then [] else [n % 256] + FixedBytes(n / 256, width - 1)
  }

  function FixedValue(b: bytes): nat {
    if b == [] then 0 else b[0] + 256 * FixedValue(b[1..])
  }

  function FixedAt(b: bytes, width: nat): (r: Read<nat>)
    ensures r.Done? ==> |r.rest| == |b| - width && r.rest == b[|b| - |r.rest|..]
  {
    if |b| < width then Failed else Done(FixedValue(b[..width]), b[width..])
  }

  function Power256(k: nat): nat {
    if k == 0 then 1 else 256 * Power256(k - 1)
  }

  lemma {:induction false} FixedValueOfBytes(n: nat, width: nat)
    requires n < Power256(width)
    ensures FixedValue(FixedBytes(n, width)) == n
  {
    if width > 0 {
      FixedValueOfBytes(n / 256, width - 1);
      assert FixedBytes(n, width)[1..] == FixedBytes(n / 256, width - 1);
    }
  }

  lemma {:induction false} FixedValueBound(b: bytes)
    ensures FixedValue(b) < Power256(|b|)
  {
    if b != [] { FixedValueBound(b[1..]); }
  }

  lemma Widths()
    ensures Power256(4) == TWO_32 && Power256(8) == TWO_64
  {
    assert Power256(4) == 256 * 256 * 256 * 256;
  }

  lemma FixedRoundTrip(n: nat, width: nat, rest: bytes)
    requires n < Power256(width)
    ensures FixedAt(FixedBytes(n, width) + rest, width) == Done(n, rest)
  {
    FixedValueOfBytes(n, width);
    var b := FixedBytes(n, width) + rest;
    assert b[..width] == FixedBytes(n, width) && b[width..] == rest;
  }

  // ----- What the bytes are, one by one -----

  lemma DivideTwice(n: nat, a: nat, b: nat)
    requires a > 0 && b > 0
    ensures a * b > 0 && n / a / b == n / (a * b)
  {
    var q, r := n / a, n % a;
    var q', r' := q / b, q % b;
    DividedIs(n, a, q, r);
    DividedIs(q, b, q', r');
    Distribute(q', b, r', a);
    RemainderFits(r', a, r, b);
    QuotientIs(n, a * b, q', r' * a + r);
  }

  lemma DividedIs(n: nat, a: nat, q: nat, r: nat)
    requires a > 0 && q == n / a && r == n % a
    ensures n == q * a + r && r < a
  {
  }

  lemma Distribute(x: nat, b: nat, y: nat, a: nat)
    ensures (x * b + y) * a == x * (a * b) + y * a
  {
  }

  lemma RemainderFits(x: nat, a: nat, r: nat, b: nat)
    requires x < b && r < a
    ensures 0 <= x * a + r < a * b
  {
    assert x * a <= (b - 1) * a;
  }

  lemma QuotientIs(n: nat, d: nat, q: nat, r: nat)
    requires d > 0 && n == q * d + r && r < d
    ensures n / d == q
  {
    var p := n / d;
    assert n == p * d + n % d;
    if p < q { OneMoreTimes(p, q, d); } else if q < p { OneMoreTimes(q, p, d); }
  }

  lemma OneMoreTimes(a: nat, b: nat, d: nat)
    requires a < b
    ensures a * d + d <= b * d
  {
    assert (a + 1) * d <= b * d;
  }

  /**
   * Byte `k` of a varint holds seven bits, the lowest group first; all but the last have the top bit set, and no group
   * is superfluous.
   */
  lemma {:induction false} VarintByteAt(n: nat, k: nat)
    requires k < |VarintBytes(n)|
    ensures Power128(k) > 0 && VarintBytes(n)[k] % 128 == n / Power128(k) % 128
    ensures VarintBytes(n)[k] >= 128 <==> k < |VarintBytes(n)| - 1
    ensures k == |VarintBytes(n)| - 1 && k > 0 ==> VarintBytes(n)[k] > 0
    decreases k
  {
    PowerPositive(k);
    if k > 0 {
      VarintByteAt(n / 128, k - 1);
      PowerPositive(k - 1);
      DivideTwice(n, 128, Power128(k - 1));
    }
  }

  /** Byte `k` of a fixed-width number holds eight bits, the lowest first. */
  lemma {:induction false} FixedByteAt(n: nat, width: nat, k: nat)
    requires k < width
    ensures Power256(k) > 0 && FixedBytes(n, width)[k] == n / Power256(k) % 256
    decreases k
  {
    FixedPowerPositive(k);
    if k > 0 {
      FixedByteAt(n / 256, width - 1, k - 1);
      FixedPowerPositive(k - 1);
      DivideTwice(n, 256, Power256(k - 1));
    }
  }

  lemma {:induction false} FixedPowerPositive(k: nat)
    ensures Power256(k) > 0
  {
    if k > 0 { FixedPowerPositive(k - 1); }
  }

  // ----- Signed numbers -----

  function ToSigned(n: nat, half: nat): int {
    if n < half then n else n - 2 * half
  }

  function ToUnsigned(v: int, half: nat): (n: nat)
    requires 0 <= v + half < 2 * half
    ensures n < 2 * half && ToSigned(n, half) == v
  {
    if v >= 0 then v else v + 2 * half
  }

  /** `ZigZagEncode`: small absolute values get small codes. */
  function ZigZagEncode(v: int): nat {
    if v >= 0 then 2 * v else -2 * v - 1
  }

  function ZigZagDecode(n: nat): int {
    if n % 2 == 0 then n / 2 else -(n / 2) - 1
  }

  // ----- Field types -----

  /** Every declared type except groups. Floating-point values are their bit patterns. */
  datatype FieldType =
    | DOUBLE | FLOAT | INT64 | UINT64 | INT32 | FIXED64 | FIXED32 | BOOL
    | STRING | MESSAGE | BYTES | UINT32 | ENUM | SFIXED32 | SFIXED64 | SINT32 | SINT64

  const VARINT := 0
  const FIXED_64 := 1
  const LENGTH_DELIMITED := 2
  const START_GROUP := 3
  const END_GROUP := 4
  const FIXED_32 := 5

  /** `WireTypeForFieldType`. */
  function WireTypeOf(t: FieldType): (w: nat)
    ensures w in {VARINT, FIXED_64, LENGTH_DELIMITED, FIXED_32}
  {
    match t
    case DOUBLE => FIXED_64
    case FIXED64 => FIXED_64
    case SFIXED64 => FIXED_64
    case FLOAT => FIXED_32
    case FIXED32 => FIXED_32
    case SFIXED32 => FIXED_32
    case STRING => LENGTH_DELIMITED
    case MESSAGE => LENGTH_DELIMITED
    case BYTES => LENGTH_DELIMITED
    case INT64 => VARINT
    case UINT64 => VARINT
    case INT32 => VARINT
    case BOOL => VARINT
    case UINT32 => VARINT
    case ENUM => VARINT
    case SINT32 => VARINT
    case SINT64 => VARINT
  }

  predicate IsPrimitive(t: FieldType) {
    t != STRING && t != BYTES && t != MESSAGE
  }

  /** The values of the C++ type: integers of its width, 0 and 1 for `bool`, bit patterns for floating point. */
  predicate InRange(t: FieldType, v: int)
    requires IsPrimitive(t)
  {
    match t
    case INT32 => -TWO_31 <= v < TWO_31
    case SINT32 => -TWO_31 <= v < TWO_31
    case SFIXED32 => -TWO_31 <= v < TWO_31
    case ENUM => -TWO_31 <= v < TWO_31
    case INT64 => -TWO_63 <= v < TWO_63
    case SINT64 => -TWO_63 <= v < TWO_63
    case SFIXED64 => -TWO_63 <= v < TWO_63
    case UINT32 => 0 <= v < TWO_32
    case FIXED32 => 0 <= v < TWO_32
    case FLOAT => 0 <= v < TWO_32
    case UINT64 => 0 <= v < TWO_64
    case FIXED64 => 0 <= v < TWO_64
    case DOUBLE => 0 <= v < TWO_64
    case BOOL => v == 0 || v == 1
  }

  /** `Write…NoTag`. A negative `int32` or enum is extended to 64 bits and takes ten bytes. */
  function PrimitiveBytes(t: FieldType, v: int): (b: bytes)
    requires IsPrimitive(t) && InRange(t, v)
  {
    match t
    case INT32 => VarintBytes(ToUnsigned(v, TWO_63))
    case ENUM => VarintBytes(ToUnsigned(v, TWO_63))
    case INT64 => VarintBytes(ToUnsigned(v, TWO_63))
    case UINT32 => VarintBytes(v)
    case UINT64 => VarintBytes(v)
    case SINT32 => VarintBytes(ZigZagEncode(v))
    case SINT64 => VarintBytes(ZigZagEncode(v))
    case BOOL => VarintBytes(v)
    case FIXED32 => FixedBytes(v, 4)
    case FLOAT => FixedBytes(v, 4)
    case SFIXED32 => FixedBytes(ToUnsigned(v, TWO_31), 4)
    case FIXED64 => FixedBytes(v, 8)
    case DOUBLE => FixedBytes(v, 8)
    case SFIXED64 => FixedBytes(ToUnsigned(v, TWO_63), 8)
  }

  /** `…Size`, and the `k…Size` constants of the fixed-size types. */
  function PrimitiveSize(t: FieldType, v: int): (size: nat)
    requires IsPrimitive(t) && InRange(t, v)
  {
    match t
    case INT32 => if v < 0 then 10 else VarintSize32(v)
    case ENUM => if v < 0 then 10 else VarintSize32(v)
    case INT64 => VarintSize64(ToUnsigned(v, TWO_63))
    case UINT32 => VarintSize32(v)
    case UINT64 => VarintSize64(v)
    case SINT32 => VarintSize32(ZigZagEncode(v))
    case SINT64 => VarintSize64(ZigZagEncode(v))
    case BOOL => 1
    case FIXED32 => 4
    case FLOAT => 4
    case SFIXED32 => 4
    case FIXED64 => 8
    case DOUBLE => 8
    case SFIXED64 => 8
  }

  function AsSigned(r: Read<nat>, half: nat): Read<int> {
    match r case Failed => Failed case Done(value, rest) => Done(ToSigned(value, half), rest)
  }

  function AsZigZag(r: Read<nat>): Read<int> {
    match r case Failed => Failed case Done(value, rest) => Done(ZigZagDecode(value), rest)
  }

  function AsBool(r: Read<nat>): Read<int> {
    match r case Failed => Failed case Done(value, rest) => Done(if value != 0 then 1 else 0, rest)
  }

  /** `ReadPrimitive`. */
  function PrimitiveAt(t: FieldType, b: bytes): (r: Read<int>)
    requires IsPrimitive(t)
    ensures r.Done? ==> |r.rest| < |b| && r.rest == b[|b| - |r.rest|..]
  {
    match t
    case INT32 => AsSigned(Varint32At(b), TWO_31)
    case ENUM => AsSigned(Varint32At(b), TWO_31)
    case INT64 => AsSigned(Varint64At(b), TWO_63)
    case UINT32 => Varint32At(b)
    case UINT64 => Varint64At(b)
    case SINT32 => AsZigZag(Varint32At(b))
    case SINT64 => AsZigZag(Varint64At(b))
    case BOOL => AsBool(Varint32At(b))
    case FIXED32 => FixedAt(b, 4)
    case FLOAT => FixedAt(b, 4)
    case SFIXED32 => AsSigned(FixedAt(b, 4), TWO_31)
    case FIXED64 => FixedAt(b, 8)
    case DOUBLE => FixedAt(b, 8)
    case SFIXED64 => AsSigned(FixedAt(b, 8), TWO_63)
  }

  /** Whatever is read is a value of the type. */
  lemma PrimitiveReadInRange(t: FieldType, b: bytes)
    requires IsPrimitive(t)
    ensures PrimitiveAt(t, b).Done? ==> InRange(t, PrimitiveAt(t, b).value)
  {
    hide FixedValue, Power256;
    Widths();
    if |b| >= 4 { FixedValueBound(b[..4]); }
    if |b| >= 8 { FixedValueBound(b[..8]); }
  }

  lemma ZigZagRoundTrip(v: int)
    ensures ZigZagDecode(ZigZagEncode(v)) == v
    ensures -TWO_31 <= v < TWO_31 ==> ZigZagEncode(v) < TWO_32
    ensures -TWO_63 <= v < TWO_63 ==> ZigZagEncode(v) < TWO_64
  {
  }

  /** The sign extension of a 32-bit number keeps its low 32 bits. */
  lemma SignExtension(v: int)
    requires -TWO_31 <= v < TWO_31
    ensures ToSigned(ToUnsigned(v, TWO_63) % TWO_32, TWO_31) == v
  {
    if v < 0 {
      assert v + TWO_64 == (v + TWO_32) + (TWO_32 - 1) * TWO_32;
    }
  }

  /** Every value of every type is read back from its bytes, with what follows untouched. */
  lemma PrimitiveRoundTrip(t: FieldType, v: int, rest: bytes)
    requires IsPrimitive(t) && InRange(t, v)
    ensures PrimitiveAt(t, PrimitiveBytes(t, v) + rest) == Done(v, rest)
  {
    if WireTypeOf(t) == VARINT {
      VarintTypeRoundTrip(t, v, rest);
    } else {
      FixedTypeRoundTrip(t, v, rest);
    }
  }

  lemma VarintTypeRoundTrip(t: FieldType, v: int, rest: bytes)
    requires IsPrimitive(t) && InRange(t, v) && WireTypeOf(t) == VARINT
    ensures PrimitiveAt(t, PrimitiveBytes(t, v) + rest) == Done(v, rest)
  {
    hide PrimitiveBytes, PrimitiveAt;
    if t == INT32 || t == ENUM || t == INT64 {
      TwosComplementRoundTrip(t, v, rest);
    } else if t == SINT32 || t == SINT64 {
      ZigZagTypeRoundTrip(t, v, rest);
    } else if t == UINT64 {
      WideRoundTrip(v, rest);
    } else {
      NarrowRoundTrip(t, v, rest);
    }
  }

  lemma WideRoundTrip(v: int, rest: bytes)
    requires InRange(UINT64, v)
    ensures PrimitiveAt(UINT64, PrimitiveBytes(UINT64, v) + rest) == Done(v, rest)
  {
    hide VarintBytes, VarintFrom, Varint32At, Varint64At, FixedBytes, FixedAt;
    VarintRoundTrip(v, rest);
  }

  lemma NarrowRoundTrip(t: FieldType, v: int, rest: bytes)
    requires (t == UINT32 || t == BOOL) && InRange(t, v)
    ensures PrimitiveAt(t, PrimitiveBytes(t, v) + rest) == Done(v, rest)
  {
    hide VarintBytes, VarintFrom, Varint32At, Varint64At, FixedBytes, FixedAt;
    Below32(v);
    VarintRoundTrip(v, rest);
  }

  lemma Below32(v: int)
    requires 0 <= v < TWO_32
    ensures v % TWO_32 == v
  {
  }

  lemma TwosComplementRoundTrip(t: FieldType, v: int, rest: bytes)
    requires (t == INT32 || t == ENUM || t == INT64) && InRange(t, v)
    ensures PrimitiveAt(t, PrimitiveBytes(t, v) + rest) == Done(v, rest)
  {
    hide VarintBytes, VarintFrom, Varint32At, Varint64At, FixedBytes, FixedAt;
    VarintRoundTrip(ToUnsigned(v, TWO_63), rest);
    if t != INT64 { SignExtension(v); }
  }

  lemma ZigZagTypeRoundTrip(t: FieldType, v: int, rest: bytes)
    requires (t == SINT32 || t == SINT64) && InRange(t, v)
    ensures PrimitiveAt(t, PrimitiveBytes(t, v) + rest) == Done(v, rest)
  {
    hide VarintBytes, VarintFrom, Varint32At, Varint64At, FixedBytes, FixedAt, ZigZagEncode, ZigZagDecode;
    ZigZagRoundTrip(v);
    VarintRoundTrip(ZigZagEncode(v), rest);
  }

  lemma FixedTypeRoundTrip(t: FieldType, v: int, rest: bytes)
    requires IsPrimitive(t) && InRange(t, v) && WireTypeOf(t) != VARINT
    ensures PrimitiveAt(t, PrimitiveBytes(t, v) + rest) == Done(v, rest)
  {
    hide FixedBytes, FixedValue, Power256, FixedAt;
    Widths();
    match t
    case FIXED32 => FixedRoundTrip(v, 4, rest);
    case FLOAT => FixedRoundTrip(v, 4, rest);
    case SFIXED32 => FixedRoundTrip(ToUnsigned(v, TWO_31), 4, rest);
    case FIXED64 => FixedRoundTrip(v, 8, rest);
    case DOUBLE => FixedRoundTrip(v, 8, rest);
    case SFIXED64 => FixedRoundTrip(ToUnsigned(v, TWO_63), 8, rest);
  }

  /** The size functions predict what is written. */
  lemma PrimitiveSizeExact(t: FieldType, v: int)
    requires IsPrimitive(t) && InRange(t, v)
    ensures 0 < |PrimitiveBytes(t, v)| == PrimitiveSize(t, v) <= 10
  {
    hide FixedBytes, VarintBytes;
    match t
    case INT32 => VarintSizeExact(ToUnsigned(v, TWO_63));
    case ENUM => VarintSizeExact(ToUnsigned(v, TWO_63));
    case INT64 => VarintSizeExact(ToUnsigned(v, TWO_63));
    case UINT32 => VarintSizeExact(v);
    case UINT64 => VarintSizeExact(v);
    case SINT32 => VarintSizeExact(ZigZagEncode(v));
    case SINT64 => VarintSizeExact(ZigZagEncode(v));
    case BOOL => VarintSizeExact(v);
    case FIXED32 =>
    case FLOAT =>
    case SFIXED32 =>
    case FIXED64 =>
    case DOUBLE =>
    case SFIXED64 =>
  }

  // ----- Tags -----


  /** `MakeTag`: a 32-bit number, so that a field number of 2^29 or more loses its high bits. */
  function MakeTag(number: nat, wireType: nat): nat
    requires wireType < 8
  {
    (number * 8 + wireType) % TWO_32
  }

  /** The low three bits survive whatever the field number. */
  lemma TagKeepsWireType(number: nat, wireType: nat)
    requires wireType < 8
    ensures MakeTag(number, wireType) % 8 == wireType
  {
    var n := number * 8 + wireType;
    assert n % TWO_32 == n - (n / TWO_32) * TWO_32;
  }

  function TagBytes(number: nat, wireType: nat): bytes
    requires wireType < 8
  {
    VarintBytes(MakeTag(number, wireType))
  }

  /** `TagSize`: the size of the tag without its wire type. */
  function TagSize(number: nat): nat {
    VarintSize32(number * 8 % TWO_32)
  }

  /** What `ReadTag` finds: the end, which is where a message may stop; no tag; or a tag. */
  datatype NextTag = AtEnd | Broken | Next(tag: nat, rest: bytes)

  function TagAt(b: bytes): (t: NextTag)
    ensures t.AtEnd? <==> b == []
    ensures t.Next? ==> 0 < t.tag < TWO_32 && |t.rest| < |b| && t.rest == b[|b| - |t.rest|..]
  {
    if b == [] then AtEnd
    else
      match Varint32At(b)
      case Failed => Broken
      case Done(tag, rest) => if tag == 0 then Broken else Next(tag, rest)
  }

  /** The wire type does not change the size of a tag. */
  lemma TagSizeExact(number: nat, wireType: nat)
    requires wireType < 8
    ensures |TagBytes(number, wireType)| == TagSize(number) == VarintSize32(MakeTag(number, wireType))
  {
    hide VarintBytes;
    var n := number * 8;
    assert n % TWO_32 == n - (n / TWO_32) * TWO_32;
    assert (n % TWO_32) % 8 == 0;
    assert MakeTag(number, wireType) == n % TWO_32 + wireType by {
      assert n + wireType == (n / TWO_32) * TWO_32 + (n % TWO_32 + wireType);
    }
    VarintSizeExact(MakeTag(number, wireType));
  }

  lemma TagRoundTrip(number: nat, wireType: nat, rest: bytes)
    requires 0 < number < TWO_29 && wireType < 8
    ensures TagAt(TagBytes(number, wireType) + rest) == Next(number * 8 + wireType, rest)
  {
    hide VarintBytes, Varint32At, Varint64At;
    VarintRoundTrip(number * 8 + wireType, rest);
    VarintSizeExact(number * 8 + wireType);
  }

  // ----- Skipping -----

  /** `SkipField`: the bytes after the field, if it can be skipped with `room` more levels of nesting. */
  function AfterField(b: bytes, tag: nat, room: nat): (r: Read<()>)
    ensures r.Done? ==> |r.rest| <= |b| && r.rest == b[|b| - |r.rest|..]
    decreases |b|, 1
  {
    var wireType := tag % 8;
    if wireType == VARINT then
      match Varint64At(b) case Failed => Failed case Done(_, rest) => Done((), rest)
    else if wireType == FIXED_64 then
      match FixedAt(b, 8) case Failed => Failed case Done(_, rest) => Done((), rest)
    else if wireType == FIXED_32 then
      match FixedAt(b, 4) case Failed => Failed case Done(_, rest) => Done((), rest)
    else if wireType == LENGTH_DELIMITED then
      match Varint32At(b)
      case Failed => Failed
      case Done(length, rest) =>
        if length >= TWO_31 || length > |rest| then Failed else Done((), rest[length..])
    else if wireType == START_GROUP then
      if room == 0 then Failed else
      match AfterMessage(b, room - 1)
      case Failed => Failed
      case Done(last, rest) => if last == MakeTag(tag / 8, END_GROUP) then Done((), rest) else Failed
    else Failed
  }

  /** `SkipMessage`: up to the end or an end-group tag, which is returned; the end counts as tag 0. */
  function AfterMessage(b: bytes, room: nat): (r: Read<nat>)
    ensures r.Done? ==> |r.rest| <= |b| && r.rest == b[|b| - |r.rest|..]
    decreases |b|, 0
  {
    hide TagAt;
    match TagAt(b)
    case AtEnd => Done(0, b)
    case Broken => Done(0, [])
    case Next(tag, rest) =>
      if tag % 8 == END_GROUP then Done(tag, rest)
      else
        match AfterField(rest, tag, room)
        case Failed => Failed
        case Done(_, rest') => AfterMessage(rest', room)
  }
}
