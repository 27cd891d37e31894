/** `DynamicMessageFactory`: the memory layout of a dynamic message and the prototypes of its types. */
module DynamicMessage {
  import opened OrderedMaps

  // ----- Alignment -----

  const SAFE_ALIGNMENT := 8
  const BITS_PER_WORD := 32
  const WORD_SIZE := 4

  function DivideRoundingUp(i: nat, j: nat): nat
    requires j > 0
  {
    (i + (j - 1)) / j
  }

  function AlignTo(offset: nat, alignment: nat): nat
    requires alignment > 0
  {
    DivideRoundingUp(offset, alignment) * alignment
  }

  function AlignOffset(offset: nat): nat {
    AlignTo(offset, SAFE_ALIGNMENT)
  }

  /** The quotient is the least whose product covers `i`. */
  lemma DivideRoundingUpLeast(i: nat, j: nat, q: nat)
    requires j > 0
    ensures i <= DivideRoundingUp(i, j) * j < i + j
    ensures q * j >= i ==> DivideRoundingUp(i, j) <= q
  {
    var n := i + (j - 1);
    assert n == (n / j) * j + n % j;
    if q < n / j { LessCoversLess(q, n / j, j); }
  }

  lemma LessCoversLess(q: nat, r: nat, j: nat)
    requires q < r
    ensures q * j + j <= r * j
  {
    assert r * j == q * j + j + (r - q - 1) * j;
    assert (r - q - 1) * j >= 0;
  }

  /** `AlignTo` gives the least multiple of the alignment that is not before the offset. */
  lemma AlignToLeast(offset: nat, alignment: nat)
    requires alignment > 0
    ensures offset <= AlignTo(offset, alignment) < offset + alignment
    ensures AlignTo(offset, alignment) % alignment == 0
    ensures forall m: nat | m % alignment == 0 && m >= offset :: AlignTo(offset, alignment) <= m
  {
    var q := DivideRoundingUp(offset, alignment);
    DivideRoundingUpLeast(offset, alignment, q);
    MultipleHasNoRemainder(q, alignment);
    forall m: nat | m % alignment == 0 && m >= offset ensures AlignTo(offset, alignment) <= m {
      MultipleIsNoLess(offset, alignment, m);
    }
  }

  lemma MultipleIsNoLess(offset: nat, alignment: nat, m: nat)
    requires alignment > 0 && m % alignment == 0 && m >= offset
    ensures AlignTo(offset, alignment) <= m
  {
    var q, k := DivideRoundingUp(offset, alignment), m / alignment;
    assert m == k * alignment;
    DivideRoundingUpLeast(offset, alignment, k);
    assert q <= k;
    assert k * alignment == q * alignment + (k - q) * alignment;
    assert (k - q) * alignment >= 0;
  }

  lemma {:induction false} FactorsSpread(d: int, n: nat)
    requires d != 0
    ensures d * n >= n || d * n + n <= 0
    decreases if d > 0 then d else -d
  {
    if d > 1 {
      FactorsSpread(d - 1, n);
      assert d * n == (d - 1) * n + n;
      assert (d - 1) * n >= 0;
    } else if d < -1 {
      FactorsSpread(d + 1, n);
      assert d * n == (d + 1) * n - n;
      assert (d + 1) * n <= 0;
    }
  }

  lemma MultipleHasNoRemainder(q: nat, n: nat)
    requires n > 0
    ensures (q * n) % n == 0
  {
    var d := q - (q * n) / n;
    assert d * n == (q * n) % n;
    if d != 0 { FactorsSpread(d, n); }
  }

  // ----- Types -----

  type TypeId = nat

  datatype CppType = INT32 | INT64 | UINT32 | UINT64 | DOUBLE | FLOAT | BOOL | ENUM | STRING | MESSAGE(target: TypeId)

  datatype Field = Field(repeated: bool, cppType: CppType)

  datatype MessageType = MessageType(fields: seq<Field>, hasExtensionRanges: bool)

  /** The sizes of the C++ objects involved, which depend on the platform. */
  datatype Sizes = Sizes(dynamicMessage: nat, extensionSet: nat, unknownFieldSet: nat,
                         repeatedField: nat, repeatedPtrField: nat, pointer: nat)

  predicate Positive(z: Sizes) {
    && z.dynamicMessage > 0 && z.extensionSet > 0 && z.unknownFieldSet > 0
    && z.repeatedField > 0 && z.repeatedPtrField > 0 && z.pointer > 0
  }

  /** `FieldSpaceUsed`. */
  function FieldSpaceUsed(f: Field, z: Sizes): (size: nat)
    ensures Positive(z) ==> size > 0
  {
    if f.repeated then
      if f.cppType.STRING? || f.cppType.MESSAGE? then z.repeatedPtrField else z.repeatedField
    else
      match f.cppType
      case INT32 => 4
      case INT64 => 8
      case UINT32 => 4
      case UINT64 => 8
      case DOUBLE => 8
      case FLOAT => 4
      case BOOL => 1
      case ENUM => 4
      case STRING => z.pointer
      case MESSAGE(_) => z.pointer
  }

  /** How many values a variable of a scalar type has; a floating-point one, as many as bit patterns. */
  function ValuesOf(t: CppType): (n: Option<nat>) {
    match t
    case BOOL => Some(2)
    case INT32 | UINT32 | FLOAT | ENUM => Some(0x1_0000_0000)
    case INT64 | UINT64 | DOUBLE => Some(0x1_0000_0000_0000_0000)
    case STRING | MESSAGE(_) => None
  }

  function StatesOf(bytes: nat): nat {
    if bytes == 0 then 1 else 256 * StatesOf(bytes - 1)
  }

  /**
   * A slot holds every value of its type and is no byte longer than that takes; what is no scalar is behind a pointer,
   * and a repeated field is a vector, of pointers for what is no scalar.
   */
  lemma SlotHoldsValues(f: Field, z: Sizes)
    ensures var values, size := ValuesOf(f.cppType), FieldSpaceUsed(f, z);
      && (!f.repeated && values.Some? ==> size > 0 && StatesOf(size - 1) < values.value <= StatesOf(size))
      && (!f.repeated && values.None? ==> size == z.pointer)
      && (f.repeated ==> size == if values.Some? then z.repeatedField else z.repeatedPtrField)
  {
    assert StatesOf(0) == 1 && StatesOf(1) == 0x100 && StatesOf(3) == 0x100_0000 && StatesOf(4) == 0x1_0000_0000;
    assert StatesOf(7) == 0x100_0000_0000_0000;
    assert StatesOf(8) == 0x1_0000_0000_0000_0000;
  }

  // ----- Layout -----

  /** Offsets inside a dynamic message; no extension set is -1. */
  datatype Layout = Layout(size: nat, hasBits: nat, extensions: int, unknownFields: nat, offsets: seq<nat>)

  /** A part of the object: where it starts and how long it is. */
  datatype Part = Part(start: nat, length: nat)

  function HasBitsLength(t: MessageType): nat {
    DivideRoundingUp(|t.fields|, BITS_PER_WORD) * WORD_SIZE
  }

  /** The has-bits are the fewest words of 32 bits that have one for every field. */
  lemma HasBitsLeast(t: MessageType, words: nat)
    ensures HasBitsLength(t) % 4 == 0 && HasBitsLength(t) * 8 >= |t.fields|
    ensures words * 32 >= |t.fields| ==> HasBitsLength(t) <= words * 4
  {
    hide DivideRoundingUp;
    DivideRoundingUpLeast(|t.fields|, BITS_PER_WORD, words);
  }

  /** The parts of an object: header, has-bits, extension set if any, the fields, and the unknown fields. */
  function Parts(t: MessageType, z: Sizes, x: Layout): seq<Part>
    requires |x.offsets| == |t.fields|
  {
    [Part(0, z.dynamicMessage), Part(x.hasBits, HasBitsLength(t))]
    + (if t.hasExtensionRanges && x.extensions >= 0 then [Part(x.extensions, z.extensionSet)] else [])
    + seq(|t.fields|, i requires 0 <= i < |t.fields| => Part(x.offsets[i], FieldSpaceUsed(t.fields[i], z)))
    + [Part(x.unknownFields, z.unknownFieldSet)]
  }

  /** No two parts overlap, all lie inside the object, and everything is aligned. */
  ghost predicate Safe(t: MessageType, z: Sizes, x: Layout) {
    && |x.offsets| == |t.fields|
    && (t.hasExtensionRanges <==> x.extensions >= 0)
    && (forall i, j | 0 <= i < j < |Parts(t, z, x)| ::
          Parts(t, z, x)[i].start + Parts(t, z, x)[i].length <= Parts(t, z, x)[j].start)
    && (forall i | 0 <= i < |Parts(t, z, x)| :: Parts(t, z, x)[i].start + Parts(t, z, x)[i].length <= x.size)
    && (forall i | 0 <= i < |t.fields| :: Positive(z) ==> x.offsets[i] % Alignment(t.fields[i], z) == 0)
    && HasBitsLength(t) * 8 >= |t.fields|
    && x.hasBits % SAFE_ALIGNMENT == 0 && x.unknownFields % SAFE_ALIGNMENT == 0 && x.size % SAFE_ALIGNMENT == 0
    && (t.hasExtensionRanges ==> x.extensions % SAFE_ALIGNMENT == 0)
  }

  /** `min(kSafeAlignment, field_size)`. */
  function Alignment(f: Field, z: Sizes): (a: nat)
    requires Positive(z)
    ensures a > 0
  {
    var size := FieldSpaceUsed(f, z);
    if size < SAFE_ALIGNMENT then size else SAFE_ALIGNMENT
  }

  /** A slot of up to 8 bytes starts at a multiple of its length, a longer one at a multiple of 8. */
  lemma SlotsAligned(t: MessageType, z: Sizes, x: Layout, i: nat)
    requires Positive(z) && Safe(t, z, x) && i < |t.fields|
    ensures var size := FieldSpaceUsed(t.fields[i], z);
      x.offsets[i] % (if size <= 8 then size else 8) == 0
  {
    hide FieldSpaceUsed, Parts;
  }

  /** Where what comes before field `i` ends. */
  function EndBefore(t: MessageType, z: Sizes, x: Layout, i: nat): int
    requires i <= |t.fields| && i <= |x.offsets|
  {
    if i > 0 then x.offsets[i - 1] + FieldSpaceUsed(t.fields[i - 1], z)
    else if t.hasExtensionRanges then x.extensions + z.extensionSet
    else x.hasBits + HasBitsLength(t)
  }

  /** A part starts at a multiple of its alignment, after what is before it, with less than `slack` between. */
  predicate Follows(end: int, start: int, alignment: nat, slack: nat)
    requires alignment > 0
  {
    end <= start < end + slack && start % alignment == 0
  }

  /** Nothing is wasted: each part starts at the first place of its alignment after the one before. The fields begin
      at a multiple of 8, whatever the alignment of the first. */
  ghost predicate Lean(t: MessageType, z: Sizes, x: Layout)
    requires Positive(z) && |x.offsets| == |t.fields|
  {
    && Follows(z.dynamicMessage, x.hasBits, SAFE_ALIGNMENT, SAFE_ALIGNMENT)
    && (if t.hasExtensionRanges
        then Follows(x.hasBits + HasBitsLength(t), x.extensions, SAFE_ALIGNMENT, SAFE_ALIGNMENT)
        else x.extensions == -1)
    && (forall i | 0 <= i < |t.fields| :: FieldFollows(t, z, x, i))
    && Follows(EndBefore(t, z, x, |t.fields|), x.unknownFields, SAFE_ALIGNMENT, SAFE_ALIGNMENT)
    && Follows(x.unknownFields + z.unknownFieldSet, x.size, SAFE_ALIGNMENT, SAFE_ALIGNMENT)
  }

  ghost predicate FieldFollows(t: MessageType, z: Sizes, x: Layout, i: nat)
    requires Positive(z) && |x.offsets| == |t.fields| && i < |t.fields|
  {
    var alignment := Alignment(t.fields[i], z);
    Follows(EndBefore(t, z, x, i), x.offsets[i], alignment, if i == 0 then alignment + SAFE_ALIGNMENT - 1
            else alignment)
  }

  lemma LeanIsSafe(t: MessageType, z: Sizes, x: Layout)
    requires Positive(z) && |x.offsets| == |t.fields| && Lean(t, z, x)
    ensures Safe(t, z, x)
  {
    var parts := Parts(t, z, x);
    DivideRoundingUpLeast(|t.fields|, BITS_PER_WORD, 0);
    PartsFollow(t, z, x);
    ConsecutiveInOrder(parts);
    forall i | 0 <= i < |t.fields| ensures x.offsets[i] % Alignment(t.fields[i], z) == 0 {
      assert FieldFollows(t, z, x, i);
    }
  }

  /** Each part starts after the one before it has ended. */
  lemma PartsFollow(t: MessageType, z: Sizes, x: Layout)
    requires Positive(z) && |x.offsets| == |t.fields| && Lean(t, z, x)
    ensures var parts := Parts(t, z, x);
      && (forall i | 0 <= i < |parts| - 1 :: parts[i].start + parts[i].length <= parts[i + 1].start)
      && parts[|parts| - 1].start + parts[|parts| - 1].length <= x.size
  {
    hide FieldSpaceUsed, DivideRoundingUp;
    var parts, head := Parts(t, z, x), if t.hasExtensionRanges then 3 else 2;
    assert |parts| == head + |t.fields| + 1;
    forall i | 0 <= i < |parts| - 1 ensures parts[i].start + parts[i].length <= parts[i + 1].start {
      if i >= head - 1 && i + 1 - head < |t.fields| { assert FieldFollows(t, z, x, i + 1 - head); }
    }
  }

  lemma {:induction false} ConsecutiveInOrder(parts: seq<Part>)
    requires parts != []
    requires forall i | 0 <= i < |parts| - 1 :: parts[i].start + parts[i].length <= parts[i + 1].start
    ensures forall i, j | 0 <= i < j < |parts| :: parts[i].start + parts[i].length <= parts[j].start
  {
    var n := |parts| - 1;
    if n > 0 {
      ConsecutiveInOrder(parts[..n]);
      forall i, j | 0 <= i < j < |parts| ensures parts[i].start + parts[i].length <= parts[j].start {
        assert parts[..n][i] == parts[i];
        if j < n { assert parts[..n][j] == parts[j]; } else if i < n - 1 { assert parts[..n][n - 1] == parts[n - 1]; }
      }
    }
  }

  /** Packs the parts in order, as the factory does when it first sees a type. */
  method ComputeLayout(t: MessageType, z: Sizes) returns (x: Layout)
    requires Positive(z)
    ensures Safe(t, z, x) && Lean(t, z, x)
  {
    hide DivideRoundingUp, AlignTo, Safe;
    var offsets := new nat[|t.fields|];
    var size: nat := z.dynamicMessage;
    AlignToLeast(size, SAFE_ALIGNMENT);
    size := AlignOffset(size);

    var hasBits := size;
    size := size + DivideRoundingUp(|t.fields|, BITS_PER_WORD) * WORD_SIZE;
    AlignToLeast(size, SAFE_ALIGNMENT);
    size := AlignOffset(size);

    var extensions: int := -1;
    if t.hasExtensionRanges {
      extensions := size;
      size := size + z.extensionSet;
      AlignToLeast(size, SAFE_ALIGNMENT);
      size := AlignOffset(size);
    }
    ghost var begin: nat, all: seq<nat> := size, [];
    for i := 0 to |t.fields|
      invariant offsets[..i] == all && |all| == i
      invariant size == PackedEnd(t, z, begin, all)
      invariant forall k | 0 <= k < i :: PackedAt(t, z, begin, all, k)
    {
      var fieldSize := FieldSpaceUsed(t.fields[i], z);
      var alignment := if fieldSize < SAFE_ALIGNMENT then fieldSize else SAFE_ALIGNMENT;
      AlignToLeast(size, alignment);
      ghost var was := all;
      size := AlignTo(size, alignment);
      offsets[i] := size;
      all := all + [size];
      forall k | 0 <= k <= i ensures PackedAt(t, z, begin, all, k) {
        if k < i { assert PackedAt(t, z, begin, was, k); assert all[..k] == was[..k]; } else { assert all[..k] == was; }
      }
      size := size + fieldSize;
    }

    AlignToLeast(size, SAFE_ALIGNMENT);
    size := AlignOffset(size);
    var unknownFields := size;
    size := size + z.unknownFieldSet;
    AlignToLeast(size, SAFE_ALIGNMENT);
    size := AlignOffset(size);
    x := Layout(size, hasBits, extensions, unknownFields, offsets[..]);
    assert x.offsets == all;
    PackedIsLean(t, z, x, begin);
    LeanIsSafe(t, z, x);
  }

  /** Where the fields placed so far end. */
  ghost function PackedEnd(t: MessageType, z: Sizes, begin: nat, offsets: seq<nat>): nat
    requires |offsets| <= |t.fields|
  {
    if offsets == [] then begin
    else offsets[|offsets| - 1] + FieldSpaceUsed(t.fields[|offsets| - 1], z)
  }

  ghost predicate PackedAt(t: MessageType, z: Sizes, begin: nat, offsets: seq<nat>, i: nat)
    requires Positive(z) && i < |offsets| <= |t.fields|
  {
    var alignment := Alignment(t.fields[i], z);
    Follows(PackedEnd(t, z, begin, offsets[..i]), offsets[i], alignment, alignment)
  }

  lemma PackedIsLean(t: MessageType, z: Sizes, x: Layout, begin: nat)
    requires Positive(z) && |x.offsets| == |t.fields|
    requires Follows(z.dynamicMessage, x.hasBits, SAFE_ALIGNMENT, SAFE_ALIGNMENT)
    requires if t.hasExtensionRanges
             then Follows(x.hasBits + HasBitsLength(t), x.extensions, SAFE_ALIGNMENT, SAFE_ALIGNMENT)
             else x.extensions == -1
    requires Follows(EndBefore(t, z, x, 0), begin, SAFE_ALIGNMENT, SAFE_ALIGNMENT)
    requires forall k | 0 <= k < |t.fields| :: PackedAt(t, z, begin, x.offsets, k)
    requires Follows(PackedEnd(t, z, begin, x.offsets), x.unknownFields, SAFE_ALIGNMENT, SAFE_ALIGNMENT)
    requires t.fields == [] ==> x.unknownFields == begin
    requires Follows(x.unknownFields + z.unknownFieldSet, x.size, SAFE_ALIGNMENT, SAFE_ALIGNMENT)
    ensures Lean(t, z, x)
  {
    hide FieldSpaceUsed, HasBitsLength;
    forall i | 0 <= i < |t.fields| ensures FieldFollows(t, z, x, i) {
      assert PackedAt(t, z, begin, x.offsets, i);
    }
  }

  // ----- Prototypes -----

  /** The address of a prototype message. */
  type Address = nat

  datatype TypeInfo = TypeInfo(layout: Layout, prototype: Address)

  type Types = map<TypeId, MessageType>

  /** Every message type a field names is a type. */
  ghost predicate WellTyped(types: Types) {
    forall t, i | t in types && 0 <= i < |types[t].fields| && types[t].fields[i].cppType.MESSAGE? ::
      types[t].fields[i].cppType.target in types
  }

  predicate IsLink(f: Field) { f.cppType.MESSAGE? && !f.repeated }

  /** One step through a singular message field, except out of a type the generated factory serves. */
  ghost predicate Edge(types: Types, generated: map<TypeId, Address>, a: TypeId, b: TypeId) {
    && a in types && a !in generated
    && exists i :: 0 <= i < |types[a].fields| && IsLink(types[a].fields[i]) && types[a].fields[i].cppType.target == b
  }

  ghost predicate Walk(types: Types, generated: map<TypeId, Address>, path: seq<TypeId>) {
    path != [] && forall i | 0 <= i < |path| - 1 :: Edge(types, generated, path[i], path[i + 1])
  }

  datatype State = State(infos: map<TypeId, TypeInfo>, pointers: map<Address, seq<Option<Address>>>,
                         nextAddress: Address)

  predicate Known(generated: map<TypeId, Address>, s: State, t: TypeId) {
    t in generated || t in s.infos
  }

  function PrototypeOf(generated: map<TypeId, Address>, s: State, t: TypeId): Address
    requires Known(generated, s, t)
  {
    if t in generated then generated[t] else s.infos[t].prototype
  }

  /** Every entry has a safe layout and a prototype of its own, with room for a pointer per field. */
  ghost predicate Sound(types: Types, sizes: Sizes, generated: map<TypeId, Address>, s: State) {
    && (forall t | t in s.infos ::
          && t in types && t !in generated
          && s.infos[t].prototype < s.nextAddress && s.infos[t].prototype in s.pointers
          && |s.pointers[s.infos[t].prototype]| == |types[t].fields| && Safe(types[t], sizes, s.infos[t].layout))
    && (forall t, u | t in s.infos && u in s.infos && t != u :: s.infos[t].prototype != s.infos[u].prototype)
    && (forall p | p in s.pointers :: p < s.nextAddress)
  }

  /** The first `n` singular message fields of the type's prototype point at the prototypes of their types. */
  ghost predicate LinkedUpTo(types: Types, generated: map<TypeId, Address>, s: State, t: TypeId, n: nat) {
    && t in types && t in s.infos && s.infos[t].prototype in s.pointers
    && n <= |types[t].fields| == |s.pointers[s.infos[t].prototype]|
    && forall i | 0 <= i < n && IsLink(types[t].fields[i]) ::
         && Known(generated, s, types[t].fields[i].cppType.target)
         && s.pointers[s.infos[t].prototype][i] == Some(PrototypeOf(generated, s, types[t].fields[i].cppType.target))
  }

  ghost predicate Linked(types: Types, generated: map<TypeId, Address>, s: State, t: TypeId) {
    t in types && LinkedUpTo(types, generated, s, t, |types[t].fields|)
  }

  /** Nothing is half-built. */
  ghost predicate Complete(types: Types, generated: map<TypeId, Address>, s: State) {
    forall t | t in s.infos :: Linked(types, generated, s, t)
  }

  /** Everything new is fully built. */
  ghost predicate NewAreLinked(types: Types, generated: map<TypeId, Address>, s: State, s': State) {
    forall t | t in s'.infos && t !in s.infos :: Linked(types, generated, s', t)
  }

  /** Entries stay as they are, and so do the pointers of every prototype outside `open`. */
  ghost predicate Extends(s: State, s': State, open: set<Address>) {
    && (forall t | t in s.infos :: t in s'.infos && s'.infos[t] == s.infos[t])
    && (forall p | p in s.pointers && p !in open :: p in s'.pointers && s'.pointers[p] == s.pointers[p])
    && s.nextAddress <= s'.nextAddress
    && (forall t | t in s'.infos && t !in s.infos :: s'.infos[t].prototype >= s.nextAddress)
  }

  lemma LinkedStays(types: Types, generated: map<TypeId, Address>, s: State, s': State, open: set<Address>, t: TypeId,
                    n: nat)
    requires LinkedUpTo(types, generated, s, t, n) && Extends(s, s', open)
    requires s.infos[t].prototype !in open
    ensures LinkedUpTo(types, generated, s', t, n)
  {
    var p := s.infos[t].prototype;
    assert s'.pointers[p] == s.pointers[p];
    forall i | 0 <= i < n && IsLink(types[t].fields[i])
      ensures Known(generated, s', types[t].fields[i].cppType.target)
      ensures s'.pointers[p][i] == Some(PrototypeOf(generated, s', types[t].fields[i].cppType.target))
    {
      assert Known(generated, s, types[t].fields[i].cppType.target);
    }
  }

  /** Two stages after one another, the second leaving alone what the first built. */
  lemma ThenExtends(types: Types, generated: map<TypeId, Address>, s: State, s': State, s'': State, open: set<Address>)
    requires Extends(s, s', open) && Extends(s', s'', open)
    requires NewAreLinked(types, generated, s, s') && NewAreLinked(types, generated, s', s'')
    requires forall p | p in open :: p < s.nextAddress
    ensures Extends(s, s'', open) && NewAreLinked(types, generated, s, s'')
  {
    forall p | p in s.pointers && p !in open ensures p in s''.pointers && s''.pointers[p] == s.pointers[p] {
      assert p in s'.pointers;
    }
    forall t | t in s''.infos && t !in s.infos
      ensures Linked(types, generated, s'', t) && s''.infos[t].prototype >= s.nextAddress
    {
      if t in s'.infos {
        assert Linked(types, generated, s', t);
        LinkedStays(types, generated, s', s'', open, t, |types[t].fields|);
      }
    }
  }

  lemma NothingLinkedYet(types: Types, generated: map<TypeId, Address>, s: State, t: TypeId)
    requires t in types && t in s.infos && s.infos[t].prototype in s.pointers
    requires |types[t].fields| == |s.pointers[s.infos[t].prototype]|
    ensures LinkedUpTo(types, generated, s, t, 0) && NewAreLinked(types, generated, s, s)
  {
  }

  lemma LinkedOneMore(types: Types, generated: map<TypeId, Address>, s: State, t: TypeId, i: nat)
    requires LinkedUpTo(types, generated, s, t, i) && i < |types[t].fields| && !IsLink(types[t].fields[i])
    ensures LinkedUpTo(types, generated, s, t, i + 1)
  {
  }

  lemma FewerMissing(types: Types, s: State, s': State, p: Address)
    requires Extends(s, s', {p})
    ensures types.Keys - s'.infos.Keys <= types.Keys - s.infos.Keys
  {
  }

  lemma ExtendsMore(s: State, s': State, p: Address)
    requires Extends(s, s', {})
    ensures Extends(s, s', {p})
  {
  }

  lemma IsLinked(types: Types, generated: map<TypeId, Address>, s: State, t: TypeId)
    requires t in types && LinkedUpTo(types, generated, s, t, |types[t].fields|)
    ensures Linked(types, generated, s, t)
  {
  }

  lemma StaysComplete(types: Types, sizes: Sizes, generated: map<TypeId, Address>, s: State, s': State)
    requires Complete(types, generated, s) && Extends(s, s', {}) && NewAreLinked(types, generated, s, s')
    ensures Complete(types, generated, s')
  {
    forall t | t in s'.infos ensures Linked(types, generated, s', t) {
      if t in s.infos {
        assert Linked(types, generated, s, t);
        LinkedStays(types, generated, s, s', {}, t, |types[t].fields|);
      }
    }
  }

  /** A new entry, not linked yet. */
  lemma EntryAdded(types: Types, sizes: Sizes, generated: map<TypeId, Address>, s: State, t: TypeId, layout: Layout,
                   s': State)
    requires Sound(types, sizes, generated, s) && t in types && !Known(generated, s, t) && Safe(types[t], sizes, layout)
    requires s' == State(s.infos[t := TypeInfo(layout, s.nextAddress)],
                         s.pointers[s.nextAddress := seq(|types[t].fields|, _ => None)], s.nextAddress + 1)
    ensures Sound(types, sizes, generated, s') && Extends(s, s', {})
    ensures types.Keys - s'.infos.Keys < types.Keys - s.infos.Keys
  {
    hide Safe;
    assert t in types.Keys - s.infos.Keys && t !in types.Keys - s'.infos.Keys;
  }

  /** The entry is added and then linked, with all that this brings in. */
  lemma EntryLinked(types: Types, generated: map<TypeId, Address>, s: State, added: State, t: TypeId, s': State)
    requires Extends(s, added, {}) && added.infos.Keys == s.infos.Keys + {t}
      && added.infos[t].prototype == s.nextAddress
    requires forall p | p in s.pointers :: p < s.nextAddress
    requires Extends(added, s', {s.nextAddress}) && NewAreLinked(types, generated, added, s')
    requires Linked(types, generated, s', t)
    ensures Extends(s, s', {}) && NewAreLinked(types, generated, s, s')
  {
    hide Linked;
    forall u | u in s'.infos && u !in s.infos
      ensures Linked(types, generated, s', u) && s'.infos[u].prototype >= s.nextAddress
    {
    }
  }

  /** Filling in one pointer of an open prototype. */
  lemma PointerSet(types: Types, sizes: Sizes, generated: map<TypeId, Address>, s: State, t: TypeId, i: nat, s': State)
    requires Sound(types, sizes, generated, s) && LinkedUpTo(types, generated, s, t, i) && i < |types[t].fields|
    requires IsLink(types[t].fields[i]) && Known(generated, s, types[t].fields[i].cppType.target)
    requires var p := s.infos[t].prototype;
      s' == s.(pointers :=
               s.pointers[p := s.pointers[p][i := Some(PrototypeOf(generated, s, types[t].fields[i].cppType.target))]])
    ensures Sound(types, sizes, generated, s') && LinkedUpTo(types, generated, s', t, i + 1)
    ensures Extends(s, s', {s.infos[t].prototype}) && NewAreLinked(types, generated, s, s')
  {
    hide Safe;
    assert s'.infos == s.infos;
    forall j | 0 <= j < i + 1 && IsLink(types[t].fields[j])
      ensures Known(generated, s', types[t].fields[j].cppType.target)
      ensures s'.pointers[s.infos[t].prototype][j]
        == Some(PrototypeOf(generated, s', types[t].fields[j].cppType.target))
    {
      if j < i {
        assert Known(generated, s, types[t].fields[j].cppType.target);
      }
    }
  }

  /** One round of the linking loop: the field's type is provided, and then the pointer is set. */
  lemma FieldLinked(types: Types, sizes: Sizes, generated: map<TypeId, Address>,
                    start: State, before: State, between: State, t: TypeId, i: nat, after: State)
    requires t in types && i < |types[t].fields| && t in start.infos
    requires start.infos[t].prototype < start.nextAddress
    requires Extends(start, before, {start.infos[t].prototype}) && NewAreLinked(types, generated, start, before)
    requires LinkedUpTo(types, generated, before, t, i)
    requires Extends(before, between, {}) && NewAreLinked(types, generated, before, between)
    requires Sound(types, sizes, generated, between)
    requires IsLink(types[t].fields[i]) && Known(generated, between, types[t].fields[i].cppType.target)
    requires var p := start.infos[t].prototype;
      && p in between.pointers && i < |between.pointers[p]|
      && after == between.(pointers := between.pointers[p :=
                    between.pointers[p][i := Some(PrototypeOf(generated, between, types[t].fields[i].cppType.target))]])
    ensures Sound(types, sizes, generated, after)
    ensures Extends(start, after, {start.infos[t].prototype}) && NewAreLinked(types, generated, start, after)
    ensures LinkedUpTo(types, generated, after, t, i + 1)
  {
    hide Safe, Linked, LinkedUpTo, NewAreLinked, Sound;
    var self := start.infos[t].prototype;
    LinkedStays(types, generated, before, between, {}, t, i);
    PointerSet(types, sizes, generated, between, t, i, after);
    ExtendsMore(before, between, self);
    ThenExtends(types, generated, before, between, after, {self});
    ThenExtends(types, generated, start, before, after, {self});
  }

  /** When nothing is half-built, every type reachable through singular message fields has a linked prototype. */
  lemma {:induction false} WalkIsKnown(types: Types, generated: map<TypeId, Address>, s: State, path: seq<TypeId>)
    requires Complete(types, generated, s) && Walk(types, generated, path) && Known(generated, s, path[0])
    ensures Known(generated, s, path[|path| - 1])
    decreases |path|
  {
    if |path| > 1 {
      assert Edge(types, generated, path[0], path[1]);
      assert Linked(types, generated, s, path[0]);
      forall i | 0 <= i < |path[1..]| - 1 ensures Edge(types, generated, path[1..][i], path[1..][i + 1]) {
        assert Edge(types, generated, path[i + 1], path[i + 2]);
      }
      WalkIsKnown(types, generated, s, path[1..]);
    }
  }

  /**
   * `generated` holds the prototypes of the generated pool when the factory delegates to it, and is empty otherwise.
   */
  class DynamicMessageFactory {
    const types: Types
    const sizes: Sizes
    const generated: map<TypeId, Address>
    var infos: map<TypeId, TypeInfo>
    /** What the message fields of each prototype point at; null at first. */
    var pointers: map<Address, seq<Option<Address>>>
    var nextAddress: Address

    constructor (types: Types, sizes: Sizes, generated: map<TypeId, Address>)
      requires WellTyped(types) && Positive(sizes)
      ensures this.types == types && this.sizes == sizes && this.generated == generated
      ensures Valid() && Now() == State(map[], map[], 0)
    {
      this.types, this.sizes, this.generated := types, sizes, generated;
      infos, pointers, nextAddress := map[], map[], 0;
    }

    ghost function Now(): State
      reads this
    {
      State(infos, pointers, nextAddress)
    }

    ghost predicate Valid()
      reads this
    {
      WellTyped(types) && Positive(sizes) && Sound(types, sizes, generated, Now())
    }

    method GetPrototypeNoLock(t: TypeId) returns (prototype: Address)
      requires Valid() && t in types
      modifies this
      ensures Valid() && Extends(old(Now()), Now(), {}) && NewAreLinked(types, generated, old(Now()), Now())
      ensures Known(generated, Now(), t) && prototype == PrototypeOf(generated, Now(), t)
      ensures Known(generated, old(Now()), t) ==> Now() == old(Now())
      decreases types.Keys - infos.Keys, 0
    {
      hide Safe, Linked, LinkedUpTo;
      if t in generated { return generated[t]; }
      if t in infos { return infos[t].prototype; }
      ghost var before := Now();
      var layout := ComputeLayout(types[t], sizes);
      prototype := nextAddress;
      nextAddress := nextAddress + 1;
      infos := infos[t := TypeInfo(layout, prototype)];
      pointers := pointers[prototype := seq(|types[t].fields|, _ => None)];
      ghost var added := Now();
      EntryAdded(types, sizes, generated, before, t, layout, added);
      CrossLinkPrototypes(t);
      EntryLinked(types, generated, before, added, t, Now());
    }

    /** Points the singular message fields of a new prototype at the prototypes of their types. */
    method CrossLinkPrototypes(t: TypeId)
      requires Valid() && t in infos
      modifies this
      ensures Valid() && Extends(old(Now()), Now(), {old(infos)[t].prototype})
      ensures NewAreLinked(types, generated, old(Now()), Now()) && Linked(types, generated, Now(), t)
      decreases types.Keys - infos.Keys, 2
    {
      hide Safe, Linked, LinkedUpTo, NewAreLinked;
      ghost var start, self := Now(), infos[t].prototype;
      NothingLinkedYet(types, generated, start, t);
      for i := 0 to |types[t].fields|
        invariant Valid() && t in infos && infos[t].prototype == self
        invariant Extends(start, Now(), {self}) && NewAreLinked(types, generated, start, Now())
        invariant LinkedUpTo(types, generated, Now(), t, i)
      {
        FewerMissing(types, start, Now(), self);
        CrossLinkField(t, i, start);
      }
      IsLinked(types, generated, Now(), t);
    }

    /** One field of `CrossLinkPrototypes`. */
    method CrossLinkField(t: TypeId, i: nat, ghost start: State)
      requires Valid() && t in types && t in start.infos && i < |types[t].fields|
      requires start.infos[t].prototype < start.nextAddress
      requires Extends(start, Now(), {start.infos[t].prototype}) && NewAreLinked(types, generated, start, Now())
      requires LinkedUpTo(types, generated, Now(), t, i)
      modifies this
      ensures Valid()
      ensures Extends(start, Now(), {start.infos[t].prototype}) && NewAreLinked(types, generated, start, Now())
      ensures LinkedUpTo(types, generated, Now(), t, i + 1)
      decreases types.Keys - infos.Keys, 1
    {
      hide Safe, Linked, LinkedUpTo, NewAreLinked;
      if IsLink(types[t].fields[i]) {
        ghost var before := Now();
        var target := GetPrototypeNoLock(types[t].fields[i].cppType.target);
        ghost var between := Now();
        var self := infos[t].prototype;
        pointers := pointers[self := pointers[self][i := Some(target)]];
        FieldLinked(types, sizes, generated, start, before, between, t, i, Now());
      } else {
        LinkedOneMore(types, generated, Now(), t, i);
      }
    }

    /** `GetPrototype`: the mutex lets nobody see a half-built state. */
    method GetPrototype(t: TypeId) returns (prototype: Address)
      requires Valid() && Complete(types, generated, Now()) && t in types
      modifies this
      ensures Valid() && Complete(types, generated, Now()) && Extends(old(Now()), Now(), {})
      ensures Known(generated, Now(), t) && prototype == PrototypeOf(generated, Now(), t)
      ensures Known(generated, old(Now()), t) ==> Now() == old(Now())
      ensures forall path | Walk(types, generated, path) && path[0] == t :: Known(generated, Now(), path[|path| - 1])
    {
      hide Safe, LinkedUpTo;
      ghost var before := Now();
      prototype := GetPrototypeNoLock(t);
      StaysComplete(types, sizes, generated, before, Now());
      forall path | Walk(types, generated, path) && path[0] == t ensures Known(generated, Now(), path[|path| - 1]) {
        WalkIsKnown(types, generated, Now(), path);
      }
    }
  }
}
