/** `ExtensionSet`: the map of extensions, updated in place by setting, adding, clearing, merging and parsing. */
module ExtensionSets {
  import opened OrderedMaps
  import opened Wire
  import opened CodedStream
  import opened Extensions
  import opened ExtensionCodec
  import opened ExtensionParsing
  import opened ExtensionWriters
  import opened MessageSets

  // ----- Merging one extension after another -----

  /** The extensions of a message whose numbers are in `done`. */
  ghost function Only(m: Message, done: set<int>): Message {
    m.(extensions := map n | n in m.extensions && n in done :: m.extensions[n])
  }

  ghost function MergeEntryInto(s: Message, n: int, e: Extension): Message {
    if Merges(e) then WithEntry(s, n, MergedExtension(Entry(s, n), e)) else s
  }

  lemma MergeNext(s: Message, other: Message, done: set<int>, n: int)
    requires n in other.extensions && n !in done
    ensures Merge(s, Only(other, done + {n})) == MergeEntryInto(Merge(s, Only(other, done)), n, other.extensions[n])
  {
    hide MergedExtension;
    var before, after := Merge(s, Only(other, done)), Merge(s, Only(other, done + {n}));
    assert Entry(before, n) == Entry(s, n);
    assert after.extensions == MergeEntryInto(before, n, other.extensions[n]).extensions;
  }

  lemma MergeNone(s: Message, other: Message)
    ensures Merge(s, Only(other, {})) == s
  {
    assert Merge(s, Only(other, {})).extensions == s.extensions;
  }

  lemma MergeAll(s: Message, other: Message, done: set<int>)
    requires done == other.extensions.Keys
    ensures Merge(s, Only(other, done)) == Merge(s, other)
  {
    assert Only(other, done).extensions == other.extensions;
  }

  lemma EntryTyped(registry: Registry, t: nat, s: Message, n: int, e: Extension, room: nat)
    requires Typed(registry, t, s, room) && 0 < n < TWO_31 && (t, n) in registry
    requires TypedExtension(registry, registry[(t, n)], e, room)
    ensures Typed(registry, t, WithEntry(s, n, e), room)
    ensures Numbered(s) && n < TWO_29 ==> Numbered(WithEntry(s, n, e))
  {
    hide TypedExtension;
  }

  lemma EmptyIsTyped(registry: Registry, t: nat, room: nat)
    ensures Typed(registry, t, EMPTY, room) && Numbered(EMPTY)
  {
  }

  class ExtensionSet {
    var extensions: map<int, Extension>
    /** Kept by the message that holds the set. */
    var cachedSize: nat

    constructor (m: Message)
      ensures Now() == m
    {
      extensions, cachedSize := m.extensions, m.cachedSize;
    }

    function Now(): Message
      reads this
    {
      Message(extensions, cachedSize)
    }

    /** `Has`, of a singular extension: there is something to be observed. */
    method Has(n: int) returns (r: bool)
      requires n in extensions ==> extensions[n].Singular?
      ensures r == (n in Observed(Now()).extensions)
    {
      hide ObservedExtension;
      r := n in extensions && !extensions[n].cleared;
    }

    /** `ExtensionSize`, of a repeated one: as many elements as can be observed. */
    method ExtensionSize(n: int) returns (size: nat)
      requires n in extensions ==> extensions[n].Repeated?
      ensures var o := Entry(Observed(Now()), n);
        if o.Some? then o.value.Repeated? && size == |o.value.values| else size == 0
    {
      ShownExactly(Now(), n);
      size := if n in extensions then |extensions[n].values| else 0;
    }

    /** Inserts unless there is one. */
    method MaybeNewExtension(n: int, initial: Extension) returns (isNew: bool)
      modifies this`extensions
      ensures isNew == (n !in old(extensions))
      ensures extensions == if isNew then old(extensions)[n := initial] else old(extensions)
    {
      isNew := n !in extensions;
      if isNew { extensions := extensions[n := initial]; }
    }

    /** `Set…`, and assigning to what `MutableString` returns. */
    method Set(n: int, t: FieldType, value: Value)
      requires n in extensions ==> extensions[n].Singular?
      modifies this`extensions
      ensures Now() == WithEntry(old(Now()), n, Overwritten(Entry(old(Now()), n), t, value))
      ensures n in extensions && extensions[n].Singular? && !extensions[n].cleared && extensions[n].value == value
    {
      var isNew := MaybeNewExtension(n, Singular(t, true, value));
      extensions := extensions[n := extensions[n].(cleared := false, value := value)];
      assert extensions == old(extensions)[n := extensions[n]];
    }

    /** `Add…`. */
    method Add(n: int, t: FieldType, packed: bool, value: Value)
      requires n in extensions ==> extensions[n].Repeated?
      modifies this`extensions
      ensures Now() == WithEntry(old(Now()), n, Appended(Entry(old(Now()), n), t, packed, [value]))
      ensures n in extensions && extensions[n].Repeated?
      ensures extensions[n].values == (if n in old(extensions) then old(extensions)[n].values else []) + [value]
    {
      var isNew := MaybeNewExtension(n, Repeated(t, packed, [], 0));
      extensions := extensions[n := extensions[n].(values := extensions[n].values + [value])];
      assert isNew ==> extensions[n].values == [value];
      assert extensions == old(extensions)[n := extensions[n]];
    }

    /** `MutableMessage`: what is found, cleared or not, counts as present from now on. */
    method MutableMessage(n: int, t: FieldType) returns (m: Message)
      requires n in extensions ==> extensions[n].Singular? && extensions[n].value.Msg?
      modifies this`extensions
      ensures m == MessageIn(Entry(old(Now()), n))
      ensures Now() == WithEntry(old(Now()), n, Overwritten(Entry(old(Now()), n), t, Msg(m)))
    {
      var isNew := MaybeNewExtension(n, Singular(t, true, Msg(EMPTY)));
      m := extensions[n].value.m;
      extensions := extensions[n := extensions[n].(cleared := false)];
      assert extensions == old(extensions)[n := extensions[n]];
    }

    /** `Clear`. */
    method Clear()
      requires Positive(Now())
      modifies this`extensions
      ensures Now() == Cleared(old(Now()))
      decreases Now()
    {
      hide ClearedExtension;
      ghost var was, done: set<int> := extensions, {};
      var found, n := NextKey(extensions, FIRST_NUMBER);
      while found
        invariant extensions.Keys == was.Keys && done <= was.Keys
        invariant forall k | k in was :: extensions[k] == if k in done then ClearedExtension(was[k]) else was[k]
        invariant found ==> n in was && forall k | k in done :: k < n
        invariant forall k | k in was && k !in done :: found && k >= n
        decreases was.Keys - done
      {
        ClearExtension(n);
        done := done + {n};
        found, n := NextKey(extensions, n + 1);
      }
      assert extensions == Cleared(old(Now())).extensions;
    }

    /** `ClearExtension`, of an extension that there is. */
    method ClearExtension(n: int)
      requires n in extensions && PositiveExtension(extensions[n])
      modifies this`extensions
      ensures extensions == old(extensions)[n := ClearedExtension(old(extensions)[n])]
      decreases extensions[n]
    {
      match extensions[n] {
        case Singular(t, cleared, value) =>
          if !cleared {
            var emptied := value;
            match value {
              case Num(_) =>
              case Str(_) => emptied := Str([]);
              case Msg(m) =>
                var inner := new ExtensionSet(m);
                inner.Clear();
                emptied := Msg(inner.Now());
            }
            extensions := extensions[n := Singular(t, true, emptied)];
          }
        case Repeated(t, packed, _, cached) =>
          extensions := extensions[n := Repeated(t, packed, [], cached)];
      }
      assert extensions == old(extensions)[n := extensions[n]];
    }

    /** `MergeFrom`, in the order of the numbers. */
    method MergeFrom(other: Message, ghost registry: Registry, ghost t: nat, ghost room: nat)
      requires Typed(registry, t, Now(), room) && Typed(registry, t, other, room)
      modifies this`extensions
      ensures Now() == Merge(old(Now()), other)
      decreases other, 0
    {
      hide Merge, Only, MergedExtension, TypedExtension;
      ghost var was, done := Now(), {};
      MergeNone(was, other);
      var found, n := NextKey(other.extensions, 0);
      while found
        invariant Now() == Merge(was, Only(other, done)) && Typed(registry, t, Now(), room)
        invariant done <= other.extensions.Keys
        invariant found ==> n in other.extensions && forall k | k in done :: k < n
        invariant forall k | k in other.extensions && k !in done :: found && k >= n
        decreases other.extensions.Keys - done
      {
        MergeNext(was, other, done, n);
        MergeExtension(n, other.extensions[n], registry, t, room);
        done := done + {n};
        found, n := NextKey(other.extensions, n + 1);
      }
      MergeAll(was, other, done);
    }

    method MergeMessage(n: int, fieldType: FieldType, m: Message,
                        ghost registry: Registry, ghost info: ExtensionInfo, ghost room: nat)
      requires TypedExtension(registry, info, Singular(fieldType, false, Msg(m)), room)
      requires n in extensions ==> TypedExtension(registry, info, extensions[n], room)
      modifies this`extensions
      ensures Now()
        == WithEntry(old(Now()), n, MergedExtension(Entry(old(Now()), n), Singular(fieldType, false, Msg(m))))
      decreases m, 1
    {
      hide Merge, Typed;
      assert TypedValue(registry, info, Msg(m), room);
      EmptyIsTyped(registry, info.messageType, room - 1);
      var target := MutableMessage(n, fieldType);
      var inner := new ExtensionSet(target);
      inner.MergeFrom(m, registry, info.messageType, room - 1);
      extensions := extensions[n := extensions[n].(value := Msg(inner.Now()))];
      assert extensions == old(extensions)[n := extensions[n]];
    }

    method MergeRepeated(n: int, fieldType: FieldType, packed: bool, values: seq<Value>,
                         ghost registry: Registry, ghost info: ExtensionInfo, ghost room: nat)
      requires n in extensions ==> extensions[n].Repeated?
      requires forall i | 0 <= i < |values| :: TypedValue(registry, info, values[i], room)
      modifies this`extensions
      ensures Now()
        == WithEntry(old(Now()), n, MergedExtension(Entry(old(Now()), n), Repeated(fieldType, packed, values, 0)))
      decreases values
    {
      hide Copied, TypedValue;
      var isNew := MaybeNewExtension(n, Repeated(fieldType, packed, [], 0));
      ghost var base := extensions[n];
      ghost var copies: seq<Value> := [];
      assert base.values + copies == base.values;
      for i := 0 to |values|
        invariant |copies| == i && forall k | 0 <= k < i :: copies[k] == Copied(values[k])
        invariant n in extensions && extensions == old(extensions)[n := base.(values := base.values + copies)]
      {
        var copy := CopyOf(values[i], registry, info, room);
        extensions := extensions[n := extensions[n].(values := extensions[n].values + [copy])];
        copies := copies + [copy];
        assert base.values + copies == base.values + copies[..i] + [copy];
        assert extensions == old(extensions)[n := extensions[n]];
      }
      ghost var e := Repeated(fieldType, packed, values, 0);
      assert MergedExtension(Entry(old(Now()), n), e) == Appended(Entry(old(Now()), n), fieldType, packed, copies) by {
        assert seq(|values|, i requires 0 <= i < |values| => Copied(values[i])) == copies;
      }
      assert extensions[n] == Appended(Entry(old(Now()), n), fieldType, packed, copies);
    }

    /** A new element, merged into. */
    static method CopyOf(v: Value, ghost registry: Registry, ghost info: ExtensionInfo, ghost room: nat)
      returns (copy: Value)
      requires TypedValue(registry, info, v, room)
      ensures copy == Copied(v)
      decreases v
    {
      if v.Msg? {
        EmptyIsTyped(registry, info.messageType, room - 1);
        var inner := new ExtensionSet(EMPTY);
        inner.MergeFrom(v.m, registry, info.messageType, room - 1);
        copy := Msg(inner.Now());
      } else {
        copy := v;
      }
    }

    method MergeExtension(n: int, e: Extension, ghost registry: Registry, ghost t: nat, ghost room: nat)
      requires Typed(registry, t, Now(), room) && 0 < n < TWO_31 && (t, n) in registry
      requires TypedExtension(registry, registry[(t, n)], e, room)
      modifies this`extensions
      ensures Now() == MergeEntryInto(old(Now()), n, e) && Typed(registry, t, Now(), room)
      decreases e
    {
      hide Typed;
      ghost var info, was := registry[(t, n)], Now();
      EntryIsTyped(registry, t, was, n, room);
      if Merges(e) {
        EntryStaysTyped(registry, info, Entry(was, n), e, room);
        EntryTyped(registry, t, was, n, MergedExtension(Entry(was, n), e), room);
      }
      match e {
        case Singular(fieldType, cleared, value) =>
          if !cleared {
            if value.Msg? {
              MergeMessage(n, fieldType, value.m, registry, info, room);
            } else {
              Set(n, fieldType, value);
            }
          }
        case Repeated(fieldType, packed, values, _) =>
          MergeRepeated(n, fieldType, packed, values, registry, info, room);
      }
    }
  
    // ----- Parsing -----

    /** Sets or adds what was read; an enum value nobody knows is dropped. */
    method Store(n: int, info: ExtensionInfo, v: Value)
      requires n in extensions ==> extensions[n].Repeated? == info.repeated
      modifies this`extensions
      ensures Now() == Stored(old(Now()), n, info, v)
    {
      if info.fieldType == ENUM && v.Num? && v.n !in info.validEnums { return; }
      if info.repeated {
        Add(n, info.fieldType, info.packed, v);
      } else {
        Set(n, info.fieldType, v);
      }
    }

    /** The packed branch of `ParseFieldWithExtensionInfo`. */
    method ParsePacked(registry: Registry, t: nat, n: int, input: CodedInputStream, ghost bound: nat) returns (ok: bool)
      requires WellFormed(registry) && (t, n) in registry && registry[(t, n)].packed && n < TWO_29
      requires input.Valid() && 0 <= input.Room() <= bound && !input.legitimateEnd
      requires Typed(registry, t, Now(), bound) && Numbered(Now())
      modifies this`extensions, input`pos, input`limit, input`legitimateEnd
      ensures input.Valid()
      ensures ok ==> input.limit == old(input.limit) && !input.legitimateEnd && input.pos >= old(input.pos)
      ensures ok <==> PackedFieldAt(registry[(t, n)], n, old(Now()), old(input.Rest())).Done?
      ensures ok ==> PackedFieldAt(registry[(t, n)], n, old(Now()), old(input.Rest())) == Done(Now(), input.Rest())
    {
      hide Typed, Numbered, Varint32At, PackedParsed;
      var size;
      ok, size := input.ReadVarint32();
      if !ok { return; }
      ghost var after := input.Rest();
      var oldLimit := input.PushLimit(size);
      assert input.Rest() == after[..Min(size, |after|)];
      ok := ParseElements(registry, t, n, input, bound);
      if !ok { return; }
      input.PopLimit(oldLimit);
      assert input.Rest() == after[Min(size, |after|)..];
    }

    /** The elements of a packed field, up to the limit. */
    method ParseElements(registry: Registry, t: nat, n: int, input: CodedInputStream, ghost bound: nat)
      returns (ok: bool)
      requires WellFormed(registry) && (t, n) in registry && registry[(t, n)].packed && n < TWO_29 && input.Valid()
      requires Typed(registry, t, Now(), bound) && Numbered(Now())
      modifies this`extensions, input`pos
      ensures input.Valid() && (ok ==> input.pos == input.limit)
      ensures input.pos >= old(input.pos)
      ensures PackedParsed(old(Now()), n, registry[(t, n)], old(input.Rest())) == if ok then Some(Now()) else None
    {
      hide Typed, Numbered, PrimitiveAt, Stored;
      var info := registry[(t, n)];
      ghost var was, window := Now(), input.Rest();
      while input.limit - input.pos > 0
        invariant input.Valid() && input.pos >= old(input.pos)
        invariant Typed(registry, t, Now(), bound) && Numbered(Now())
        invariant PackedParsed(was, n, info, window) == PackedParsed(Now(), n, info, input.Rest())
        decreases input.limit - input.pos
      {
        var value;
        ok, value := input.ReadPrimitive(info.fieldType);
        if !ok { return; }
        StoredStaysTyped(registry, t, Now(), n, Num(value), bound);
        EntryKind(registry, t, Now(), n, bound);
        Store(n, info, Num(value));
      }
      ok := true;
    }

    /** `ReadMessage`: the nested message gets a limit of its own, which must be where it ends. */
    static method ReadMessage(registry: Registry, t: nat, was: Message, input: CodedInputStream, ghost bound: nat)
      returns (ok: bool, m: Message)
      requires WellFormed(registry) && input.Valid() && 0 <= input.Room() <= bound && !input.legitimateEnd
      requires input.Room() > 0 ==> Typed(registry, t, was, bound - 1) && Numbered(was)
      modifies input`pos, input`limit, input`lastTag, input`legitimateEnd, input`depth
      ensures input.Valid()
      ensures ok ==> input.limit == old(input.limit) && !input.legitimateEnd && input.depth == old(input.depth)
      ensures MessageAt(registry, t, was, old(input.Rest()), old(input.Room())) == if ok then Done(m, input.Rest())
        else Failed
      decreases input.limit - input.pos, 1
    {
      hide Typed, Numbered, Varint32At, Parsed;
      m := was;
      var size;
      ok, size := input.ReadVarint32();
      if !ok { return; }
      ghost var after := input.Rest();
      ok := input.IncrementRecursionDepth();
      if !ok { return; }
      var oldLimit := input.PushLimit(size);
      ghost var window := input.Rest();
      assert window == after[..Min(size, |after|)];
      var inner := new ExtensionSet(was);
      ok := inner.MergePartialFromCodedStream(registry, t, input, bound - 1);
      if !ok { return; }
      m := inner.Now();
      if !input.legitimateEnd { ok := false; return; }
      input.PopLimit(oldLimit);
      input.DecrementRecursionDepth();
      assert input.Rest() == after[Min(size, |after|)..];
    }

    /** The strings and messages of `ParseFieldWithExtensionInfo`. */
    method ParseDelimited(registry: Registry, t: nat, n: int, input: CodedInputStream, ghost bound: nat)
      returns (ok: bool)
      requires WellFormed(registry) && (t, n) in registry && !IsPrimitive(registry[(t, n)].fieldType) && n < TWO_29
      requires input.Valid() && 0 <= input.Room() <= bound && !input.legitimateEnd
      requires Typed(registry, t, Now(), bound) && Numbered(Now())
      modifies this`extensions, input`pos, input`limit, input`lastTag, input`legitimateEnd, input`depth
      ensures input.Valid()
      ensures ok ==> input.limit == old(input.limit) && !input.legitimateEnd && input.depth == old(input.depth)
      ensures ok <==> ValueFieldAt(registry, t, n, old(Now()), old(input.Rest()), old(input.Room())).Done?
      ensures ok ==>
        ValueFieldAt(registry, t, n, old(Now()), old(input.Rest()), old(input.Room())) == Done(Now(), input.Rest())
      decreases input.limit - input.pos, 2
    {
      hide Typed, Numbered, Varint32At, Parsed, Merge, Observed, PrimitiveAt, AfterField;
      var info := registry[(t, n)];
      EntryKind(registry, t, Now(), n, bound);
      if info.fieldType == MESSAGE {
        EntryMessageIsTyped(registry, t, Now(), n, bound);
        if input.Room() > 0 { EmptyIsTyped(registry, info.messageType, bound - 1); }
        ghost var was := Now();
        var target := EMPTY;
        if !info.repeated { target := MutableMessage(n, MESSAGE); }
        var m;
        ok, m := ReadMessage(registry, info.messageType, target, input, bound);
        if !ok { return; }
        if info.repeated {
          Add(n, MESSAGE, info.packed, Msg(m));
        } else {
          extensions := extensions[n := extensions[n].(value := Msg(m))];
          assert Now() == WithEntry(was, n, Overwritten(Entry(was, n), MESSAGE, Msg(m))) by {
            StoredTwice(was, n, Overwritten(Entry(was, n), MESSAGE, Msg(target)),
                        Overwritten(Entry(was, n), MESSAGE, Msg(m)));
          }
        }
      } else {
        ok := ParseText(registry, t, n, input, bound);
      }
    }

    /** The strings. */
    method ParseText(registry: Registry, t: nat, n: int, input: CodedInputStream, ghost bound: nat) returns (ok: bool)
      requires WellFormed(registry) && (t, n) in registry && !IsPrimitive(registry[(t, n)].fieldType) && n < TWO_29
      requires registry[(t, n)].fieldType != MESSAGE
      requires input.Valid() && 0 <= input.Room() <= bound && !input.legitimateEnd
      requires Typed(registry, t, Now(), bound) && Numbered(Now())
      modifies this`extensions, input`pos, input`limit, input`lastTag, input`legitimateEnd, input`depth
      ensures input.Valid()
      ensures ok ==> input.limit == old(input.limit) && !input.legitimateEnd && input.depth == old(input.depth)
      ensures ok <==> ValueFieldAt(registry, t, n, old(Now()), old(input.Rest()), old(input.Room())).Done?
      ensures ok ==>
        ValueFieldAt(registry, t, n, old(Now()), old(input.Rest()), old(input.Room())) == Done(Now(), input.Rest())
    {
      hide Typed, Numbered, Varint32At, Parsed, Merge, Observed, PrimitiveAt, AfterField;
      var info := registry[(t, n)];
      EntryKind(registry, t, Now(), n, bound);
      var size, s;
      ok, size := input.ReadVarint32();
      if !ok { return; }
      ok, s := input.ReadString(size, []);
      if !ok { return; }
      Store(n, info, Str(s));
    }

    /** `ParseField`. */
    method ParseField(registry: Registry, t: nat, tag: nat, input: CodedInputStream, ghost bound: nat)
      returns (ok: bool)
      requires WellFormed(registry) && tag < TWO_32
      requires input.Valid() && 0 <= input.Room() <= bound && !input.legitimateEnd
      requires Typed(registry, t, Now(), bound) && Numbered(Now())
      modifies this`extensions, input`pos, input`limit, input`lastTag, input`legitimateEnd, input`depth
      ensures input.Valid()
      ensures ok ==> input.limit == old(input.limit) && !input.legitimateEnd && input.depth == old(input.depth)
      ensures ok <==> FieldParsed(registry, t, old(Now()), tag, old(input.Rest()), old(input.Room())).Done?
      ensures ok ==>
        FieldParsed(registry, t, old(Now()), tag, old(input.Rest()), old(input.Room())) == Done(Now(), input.Rest())
      decreases input.limit - input.pos, 3
    {
      hide Typed, Numbered, Varint32At, Parsed, ValueParsed, PackedParsed, AfterField, PrimitiveAt, Stored;
      if !Expected(registry, t, tag) {
        ok := input.SkipField(tag);
        return;
      }
      var n, info := tag / 8, registry[(t, tag / 8)];
      if info.packed {
        ok := ParsePacked(registry, t, n, input, bound);
      } else if IsPrimitive(info.fieldType) {
        EntryKind(registry, t, Now(), n, bound);
        PrimitiveField(registry, info, MessageIn(Entry(Now(), n)), input.Rest(), input.Room());
        var value;
        ok, value := input.ReadPrimitive(info.fieldType);
        if ok { Store(n, info, Num(value)); }
      } else {
        ok := ParseDelimited(registry, t, n, input, bound);
      }
    }

    /**
     * The loop of a message whose fields are its extensions: it stops at the end, at a broken tag, or at an end-group
     * tag.
     */
    method MergePartialFromCodedStream(registry: Registry, t: nat, input: CodedInputStream, ghost bound: nat)
      returns (ok: bool)
      requires WellFormed(registry)
      requires input.Valid() && 0 <= input.Room() <= bound && !input.legitimateEnd
      requires Typed(registry, t, Now(), bound) && Numbered(Now())
      modifies this`extensions, input`pos, input`limit, input`lastTag, input`legitimateEnd, input`depth
      ensures input.Valid()
      ensures ok && input.legitimateEnd <==> Parsed(registry, t, old(Now()), old(input.Rest()), old(input.Room())).Some?
      ensures ok && input.legitimateEnd ==>
        && Parsed(registry, t, old(Now()), old(input.Rest()), old(input.Room())) == Some(Now())
        && input.limit == old(input.limit) && input.pos == input.limit && input.depth == old(input.depth)
      decreases input.limit - input.pos, 0
    {
      hide Typed, Numbered, FieldParsed, TagAt;
      ghost var was, start, room := Now(), input.Rest(), input.Room();
      while true
        invariant input.Valid() && input.limit == old(input.limit) && input.depth == old(input.depth)
          && !input.legitimateEnd
        invariant input.pos >= old(input.pos)
        invariant Typed(registry, t, Now(), bound) && Numbered(Now())
        invariant Parsed(registry, t, was, start, room) == Parsed(registry, t, Now(), input.Rest(), room)
        decreases input.limit - input.pos
      {
        ghost var before := input.Rest();
        TagFacts(before);
        var tag := input.ReadTag();
        if tag == 0 { return true; }
        if tag % 8 == END_GROUP { return true; }
        FieldParsedStaysTyped(registry, t, Now(), tag, input.Rest(), room, bound);
        ok := ParseField(registry, t, tag, input, bound);
        if !ok { return false; }
      }
    }
  
    /** `ParseFromArray`. */
    method ParseFromArray(registry: Registry, t: nat, data: bytes) returns (ok: bool)
      requires WellFormed(registry) && Typed(registry, t, Now(), RECURSION_LIMIT) && Numbered(Now())
      modifies this`extensions
      ensures ok <==> Parsed(registry, t, Cleared(old(Now())), data, RECURSION_LIMIT).Some?
      ensures ok ==> Parsed(registry, t, Cleared(old(Now())), data, RECURSION_LIMIT) == Some(Now())
    {
      hide Typed, Numbered, Parsed, Cleared, Positive;
      ClearedIsBlank(registry, t, Now(), RECURSION_LIMIT);
      TypedIsPositive(registry, t, Now(), RECURSION_LIMIT);
      Clear();
      var input := new CodedInputStream(data);
      ok := MergePartialFromCodedStream(registry, t, input, RECURSION_LIMIT);
      ok := ok && input.legitimateEnd;
    }

    // ----- The MessageSet format -----

    /** Message bytes that came before their number, parsed from a stream of their own. */
    method ParseKeptMessage(registry: Registry, t: nat, fakeTag: nat, messageData: bytes, ghost bound: nat)
      returns (ok: bool)
      requires WellFormed(registry) && FULL_ROOM <= bound && fakeTag < TWO_32
      requires Typed(registry, t, Now(), bound) && Numbered(Now())
      modifies this`extensions
      ensures ok ==> Typed(registry, t, Now(), bound) && Numbered(Now())
      ensures ok <==> FieldParsed(registry, t, old(Now()), fakeTag, messageData, FULL_ROOM).Done?
      ensures ok ==> FieldParsed(registry, t, old(Now()), fakeTag, messageData, FULL_ROOM).value == Now()
    {
      hide Typed, Numbered, FieldParsed;
      FieldParsedStaysTyped(registry, t, Now(), fakeTag, messageData, FULL_ROOM, bound);
      var sub := new CodedInputStream(messageData);
      ok := ParseField(registry, t, fakeTag, sub, bound);
    }

    /** The number of an item, after its tag at `b`; message bytes kept so far are parsed now. */
    method ReadTypeId(registry: Registry, t: nat, messageData: bytes, input: CodedInputStream,
                      ghost was: nat, ghost b: bytes, ghost bound: nat) returns (ok: bool, fakeTag: nat)
      requires WellFormed(registry) && FULL_ROOM <= bound
      requires input.Valid() && 0 <= input.Room() <= bound && !input.legitimateEnd
      requires Typed(registry, t, Now(), bound) && Numbered(Now())
      requires TagAt(b) == Next(TYPE_ID_TAG, input.Rest())
      modifies this`extensions, input`pos, input`limit, input`lastTag, input`legitimateEnd, input`depth
      ensures input.Valid()
      ensures ok ==> input.limit == old(input.limit) && !input.legitimateEnd && input.depth == old(input.depth)
      ensures ok ==> input.pos >= old(input.pos)
      ensures ok ==> Typed(registry, t, Now(), bound) && Numbered(Now())
      ensures fakeTag < TWO_32
      ensures ItemParsed(registry, t, old(Now()), was, messageData, b, old(input.Room()))
           == if ok then ItemParsed(registry, t, Now(), fakeTag, [], input.Rest(), old(input.Room())) else Failed
    {
      hide Typed, Numbered, FieldParsed, TagAt, Varint32At, AfterField, VarintBytes, MakeTag, WellFormed;
      var typeId;
      fakeTag := 0;
      ok, typeId := input.ReadVarint32();
      if !ok { return; }
      fakeTag := MakeTag(typeId, LENGTH_DELIMITED);
      TagInRange(typeId);
      if messageData != [] {
        ok := ParseKeptMessage(registry, t, fakeTag, messageData, bound);
      }
    }

    /** The message of an item, after its tag at `b`: parsed, or kept when its number is not known yet. */
    method ReadItemMessage(registry: Registry, t: nat, fakeTag: nat, messageData: bytes, input: CodedInputStream,
                           ghost b: bytes, ghost bound: nat) returns (ok: bool, kept: bytes)
      requires WellFormed(registry) && FULL_ROOM <= bound
      requires input.Valid() && 0 <= input.Room() <= bound && !input.legitimateEnd
      requires Typed(registry, t, Now(), bound) && Numbered(Now())
      requires TagAt(b) == Next(MESSAGE_TAG, input.Rest()) && fakeTag < TWO_32 && (fakeTag != 0 ==> messageData == [])
      modifies this`extensions, input`pos, input`limit, input`lastTag, input`legitimateEnd, input`depth
      ensures input.Valid()
      ensures ok ==> input.limit == old(input.limit) && !input.legitimateEnd && input.depth == old(input.depth)
      ensures ok ==> input.pos >= old(input.pos)
      ensures ok ==> Typed(registry, t, Now(), bound) && Numbered(Now())
      ensures fakeTag != 0 ==> kept == []
      ensures ItemParsed(registry, t, old(Now()), fakeTag, messageData, b, old(input.Room()))
           == if ok then ItemParsed(registry, t, Now(), fakeTag, kept, input.Rest(), old(input.Room())) else Failed
    {
      hide Typed, Numbered, FieldParsed, TagAt, Varint32At, AfterField, VarintBytes, MakeTag, WellFormed, ItemParsed;
      ItemAtMessage(registry, t, Now(), fakeTag, messageData, b, input.Rest(), input.Room());
      kept := messageData;
      if fakeTag == 0 {
        var length, temp;
        ok, length := input.ReadVarint32();
        if !ok { return; }
        ok, temp := input.ReadString(length, []);
        if !ok { return; }
        var output := new CodedOutputStream();
        output.WriteVarint(length);
        kept := messageData + output.written + temp;
        assert kept == messageData + VarintBytes(length) + temp;
      } else {
        FieldParsedStaysTyped(registry, t, Now(), fakeTag, input.Rest(), input.Room(), bound);
        ok := ParseField(registry, t, fakeTag, input, bound);
      }
    }

    /** `ParseMessageSetItem`. */
    method ParseMessageSetItem(registry: Registry, t: nat, input: CodedInputStream, ghost bound: nat) returns (ok: bool)
      requires WellFormed(registry) && FULL_ROOM <= bound
      requires input.Valid() && 0 <= input.Room() <= bound && !input.legitimateEnd
      requires Typed(registry, t, Now(), bound) && Numbered(Now())
      modifies this`extensions, input`pos, input`limit, input`lastTag, input`legitimateEnd, input`depth
      ensures input.Valid()
      ensures ok ==> input.limit == old(input.limit) && !input.legitimateEnd && input.depth == old(input.depth)
      ensures ok ==> Typed(registry, t, Now(), bound) && Numbered(Now())
      ensures ok <==> ItemParsed(registry, t, old(Now()), 0, [], old(input.Rest()), old(input.Room())).Done?
      ensures ok ==>
        ItemParsed(registry, t, old(Now()), 0, [], old(input.Rest()), old(input.Room())) == Done(Now(), input.Rest())
    {
      hide Typed, Numbered, FieldParsed, TagAt, Varint32At, AfterField, VarintBytes, MakeTag, WellFormed;
      ghost var was, start, room := Now(), input.Rest(), input.Room();
      var fakeTag: nat, messageData: bytes := 0, [];
      while true
        invariant input.Valid() && input.limit == old(input.limit) && input.depth == old(input.depth)
          && !input.legitimateEnd
        invariant Typed(registry, t, Now(), bound) && Numbered(Now())
        invariant fakeTag < TWO_32 && (fakeTag != 0 ==> messageData == [])
        invariant ItemParsed(registry, t, was, 0, [], start, room)
               == ItemParsed(registry, t, Now(), fakeTag, messageData, input.Rest(), room)
        decreases input.limit - input.pos
      {
        ghost var b := input.Rest();
        TagFacts(b);
        var tag := input.ReadTag();
        if tag == 0 { return false; }
        if tag == TYPE_ID_TAG {
          ok, fakeTag := ReadTypeId(registry, t, messageData, input, fakeTag, b, bound);
          messageData := [];
          if !ok { return; }
        } else if tag == MESSAGE_TAG {
          ok, messageData := ReadItemMessage(registry, t, fakeTag, messageData, input, b, bound);
          if !ok { return; }
        } else if tag == ITEM_END_TAG {
          return true;
        } else {
          ok := input.SkipField(tag);
          if !ok { return; }
        }
      }
    }

    /** `ParseMessageSet`. */
    method ParseMessageSet(registry: Registry, t: nat, input: CodedInputStream, ghost bound: nat) returns (ok: bool)
      requires WellFormed(registry) && FULL_ROOM <= bound
      requires input.Valid() && 0 <= input.Room() <= bound && !input.legitimateEnd
      requires Typed(registry, t, Now(), bound) && Numbered(Now())
      modifies this`extensions, input`pos, input`limit, input`lastTag, input`legitimateEnd, input`depth
      ensures input.Valid()
      ensures ok && input.legitimateEnd
        <==> SetParsed(registry, t, old(Now()), old(input.Rest()), old(input.Room())).Some?
      ensures ok && input.legitimateEnd ==>
        SetParsed(registry, t, old(Now()), old(input.Rest()), old(input.Room())) == Some(Now())
    {
      hide Typed, Numbered, FieldParsed, ItemParsed, TagAt;
      ghost var was, start, room := Now(), input.Rest(), input.Room();
      while true
        invariant input.Valid() && input.limit == old(input.limit) && input.depth == old(input.depth)
          && !input.legitimateEnd
        invariant Typed(registry, t, Now(), bound) && Numbered(Now())
        invariant SetParsed(registry, t, was, start, room) == SetParsed(registry, t, Now(), input.Rest(), room)
        decreases input.limit - input.pos
      {
        TagFacts(input.Rest());
        var tag := input.ReadTag();
        if tag == 0 { return true; }
        if tag == ITEM_START_TAG {
          ok := ParseMessageSetItem(registry, t, input, bound);
        } else {
          FieldParsedStaysTyped(registry, t, Now(), tag, input.Rest(), room, bound);
          ok := ParseField(registry, t, tag, input, bound);
        }
        if !ok { return false; }
      }
    }
  }


  lemma ItemAtMessage(registry: Registry, t: nat, m: Message, fakeTag: nat, data: bytes, b: bytes, rest: bytes,
                      room: nat)
    requires WellFormed(registry) && TagAt(b) == Next(MESSAGE_TAG, rest)
    ensures fakeTag == 0 ==>
      var length := Varint32At(rest);
      ItemParsed(registry, t, m, fakeTag, data, b, room) ==
        if length.Failed? || length.value >= TWO_31 || length.value > |length.rest| then Failed
        else ItemParsed(registry, t, m, 0, data + VarintBytes(length.value) + length.rest[..length.value],
                        length.rest[length.value..], room)
    ensures fakeTag != 0 ==>
      var field := FieldParsed(registry, t, m, fakeTag, rest, room);
      ItemParsed(registry, t, m, fakeTag, data, b, room) ==
        if field.Failed? then Failed else ItemParsed(registry, t, field.value, fakeTag, [], field.rest, room)
  {
    hide TagAt, Varint32At, FieldParsed, AfterField, VarintBytes, WellFormed;
  }

  lemma TagFacts(b: bytes)
    ensures TagAt(b).AtEnd? <==> b == []
    ensures TagAt(b).Next? ==> 0 < TagAt(b).tag < TWO_32 && |TagAt(b).rest| < |b|
  {
  }

  lemma PrimitiveField(registry: Registry, info: ExtensionInfo, was: Message, b: bytes, room: nat)
    requires WellFormed(registry) && IsPrimitive(info.fieldType)
    ensures ValueParsed(registry, info, was, b, room) ==
      match PrimitiveAt(info.fieldType, b) case Failed => Failed case Done(v, rest) => Done(Num(v), rest)
  {
  }

  /** `ReadMessage`, as a function. */
  function MessageAt(registry: Registry, t: nat, was: Message, b: bytes, room: nat): Read<Message>
    requires WellFormed(registry)
  {
    match Varint32At(b)
    case Failed => Failed
    case Done(size, rest) =>
      if room == 0 then Failed else
      match Parsed(registry, t, was, rest[..Min(size, |rest|)], room - 1)
      case None => Failed
      case Some(m) => Done(m, rest[Min(size, |rest|)..])
  }

  /** A field that is not packed, as a function. */
  function ValueFieldAt(registry: Registry, t: nat, n: int, m: Message, b: bytes, room: nat): Read<Message>
    requires WellFormed(registry) && (t, n) in registry
  {
    match ValueParsed(registry, registry[(t, n)], MessageIn(Entry(m, n)), b, room)
    case Failed => Failed
    case Done(v, rest) => Done(Stored(m, n, registry[(t, n)], v), rest)
  }

  /** The packed branch, as a function. */
  function PackedFieldAt(info: ExtensionInfo, n: int, m: Message, b: bytes): Read<Message>
    requires IsPrimitive(info.fieldType)
  {
    match Varint32At(b)
    case Failed => Failed
    case Done(size, rest) =>
      match PackedParsed(m, n, info, rest[..Min(size, |rest|)])
      case None => Failed
      case Some(m') => Done(m', rest[Min(size, |rest|)..])
  }

  lemma EntryKind(registry: Registry, t: nat, m: Message, n: int, room: nat)
    requires Typed(registry, t, m, room) && (t, n) in registry
    ensures n in m.extensions ==> m.extensions[n].Repeated? == registry[(t, n)].repeated
    ensures n in m.extensions && registry[(t, n)].fieldType == MESSAGE && !registry[(t, n)].repeated ==>
              m.extensions[n].value.Msg?
  {
    if n in m.extensions {
      assert TypedExtension(registry, registry[(t, n)], m.extensions[n], room);
    }
  }

  lemma EntryIsTyped(registry: Registry, t: nat, s: Message, n: int, room: nat)
    requires Typed(registry, t, s, room)
    ensures n in s.extensions ==>
      (t, n) in registry && TypedExtension(registry, registry[(t, n)], s.extensions[n], room)
  {
  }
}
