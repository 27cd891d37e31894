/** The values an `ExtensionSet` holds, how two sets merge, and what of a set can be observed. */
module Extensions {
  import opened OrderedMaps
  import opened Wire

  /** Numbers, booleans, enums and floating-point patterns are `Num`. */
  datatype Value = Num(n: int) | Str(s: bytes) | Msg(m: Message)

  /** The union `ExtensionSet::Extension`. */
  datatype Extension =
    | Singular(fieldType: FieldType, cleared: bool, value: Value)
    | Repeated(fieldType: FieldType, packed: bool, values: seq<Value>, cachedSize: nat)

  /** A message all of whose fields are extensions, with the size it remembers. */
  datatype Message = Message(extensions: map<int, Extension>, cachedSize: nat)

  const EMPTY := Message(map[], 0)

  // ----- The registry -----

  datatype ExtensionInfo =
    ExtensionInfo(fieldType: FieldType, repeated: bool, packed: bool, validEnums: set<int>, messageType: nat)

  /** By the extended message type and the field number. */
  type Registry = map<(nat, int), ExtensionInfo>

  /** Field numbers are positive, and only repeated numbers can be packed; parsing any other packed field is fatal. */
  predicate WellFormed(registry: Registry) {
    forall k | k in registry ::
      k.1 > 0 && (registry[k].packed ==> registry[k].repeated && IsPrimitive(registry[k].fieldType))
  }

  /** The field numbers fit a tag. */
  ghost predicate Numbered(m: Message) {
    forall n | n in m.extensions :: 0 < n < TWO_29
  }

  /** The message holds what the registry says, nested at most `room` deep, and cleared messages are empty. */
  ghost predicate Typed(registry: Registry, t: nat, m: Message, room: nat)
    decreases m
  {
    forall n | n in m.extensions ::
      && 0 < n < TWO_31 && (t, n) in registry
      && TypedExtension(registry, registry[(t, n)], m.extensions[n], room)
  }

  ghost predicate TypedExtension(registry: Registry, info: ExtensionInfo, e: Extension, room: nat)
    decreases e
  {
    e.fieldType == info.fieldType
    && match e {
         case Singular(_, cleared, value) =>
           && !info.repeated && TypedValue(registry, info, value, room)
           && (cleared && value.Msg? ==> Blank(value.m))
         case Repeated(_, packed, values, _) =>
           && info.repeated && packed == info.packed
           && forall i | 0 <= i < |values| :: TypedValue(registry, info, values[i], room)
       }
  }

  ghost predicate TypedValue(registry: Registry, info: ExtensionInfo, v: Value, room: nat)
    decreases v
  {
    match info.fieldType
    case MESSAGE => v.Msg? && room > 0 && Numbered(v.m) && Typed(registry, info.messageType, v.m, room - 1)
    case STRING => v.Str?
    case BYTES => v.Str?
    case _ => v.Num? && InRange(info.fieldType, v.n) && (info.fieldType == ENUM ==> v.n in info.validEnums)
  }

  // ----- What can be observed -----

  /** A cleared singular extension, or a repeated one with no elements, is as good as absent. */
  predicate Dead(e: Extension) {
    match e
    case Singular(_, cleared, _) => cleared
    case Repeated(_, _, values, _) => values == []
  }

  predicate Blank(m: Message) {
    forall n | n in m.extensions :: Dead(m.extensions[n])
  }

  /** The message without its dead extensions and without remembered sizes, all the way down. */
  function Observed(m: Message): Message
    decreases m
  {
    Message(map n | n in m.extensions && !Dead(m.extensions[n]) :: ObservedExtension(m.extensions[n]), 0)
  }

  function ObservedExtension(e: Extension): Extension
    decreases e
  {
    match e
    case Singular(t, cleared, value) => Singular(t, cleared, ObservedValue(value))
    case Repeated(t, packed, values, _) =>
      Repeated(t, packed, seq(|values|, i requires 0 <= i < |values| => ObservedValue(values[i])), 0)
  }

  function ObservedValue(v: Value): Value
    decreases v
  {
    match v
    case Msg(m) => Msg(Observed(m))
    case _ => v
  }

  /** What can be observed under a number: nothing of what is cleared or empty, and else just the values. */
  lemma ShownExactly(m: Message, n: int)
    ensures var e, o := Entry(m, n), Entry(Observed(m), n);
      && (o.Some? <==> e.Some? && if e.value.Singular? then !e.value.cleared else |e.value.values| > 0)
      && (o.Some? ==> o.value.fieldType == e.value.fieldType && o.value.Singular? == e.value.Singular?)
      && (o.Some? && o.value.Singular? ==> !o.value.cleared && ShownAs(e.value.value, o.value.value))
      && (o.Some? && o.value.Repeated? ==>
            && |o.value.values| == |e.value.values|
            && forall i | 0 <= i < |o.value.values| :: ShownAs(e.value.values[i], o.value.values[i]))
  {
    if n in m.extensions && !Dead(m.extensions[n]) {
      var e := m.extensions[n];
      assert Observed(m).extensions[n] == ObservedExtension(e);
      if e.Singular? {
        ObservedIsShown(e.value);
      } else {
        forall i | 0 <= i < |e.values| ensures ShownAs(e.values[i], ObservedExtension(e).values[i]) {
          ObservedIsShown(e.values[i]);
        }
      }
    }
  }

  lemma ObservedIsShown(v: Value)
    ensures ShownAs(v, ObservedValue(v))
  {
  }

  /** Numbers and strings show as they are, a message by what can be observed of it. */
  predicate ShownAs(v: Value, o: Value) {
    if v.Msg? then o.Msg? && o.m == Observed(v.m) else o == v
  }

  lemma {:induction false} ObservedTwice(m: Message)
    ensures Observed(Observed(m)) == Observed(m)
    decreases m
  {
    var o := Observed(m);
    forall n | n in o.extensions
      ensures !Dead(o.extensions[n]) && ObservedExtension(o.extensions[n]) == o.extensions[n]
    {
      ObservedExtensionTwice(m.extensions[n]);
    }
    assert Observed(o).extensions == o.extensions;
  }

  lemma {:induction false} ObservedExtensionTwice(e: Extension)
    requires !Dead(e)
    ensures !Dead(ObservedExtension(e)) && ObservedExtension(ObservedExtension(e)) == ObservedExtension(e)
    decreases e
  {
    match e
    case Singular(_, _, value) => if value.Msg? { ObservedTwice(value.m); }
    case Repeated(_, _, values, _) =>
      forall i | 0 <= i < |values| ensures ObservedValue(ObservedValue(values[i])) == ObservedValue(values[i]) {
        if values[i].Msg? { ObservedTwice(values[i].m); }
      }
  }

  lemma {:induction false} ObservedStaysTyped(registry: Registry, t: nat, m: Message, room: nat)
    requires Typed(registry, t, m, room)
    ensures Typed(registry, t, Observed(m), room) && (Numbered(m) ==> Numbered(Observed(m)))
    decreases m
  {
    forall n | n in Observed(m).extensions
      ensures TypedExtension(registry, registry[(t, n)], ObservedExtension(m.extensions[n]), room)
    {
      ObservedExtensionStaysTyped(registry, registry[(t, n)], m.extensions[n], room);
    }
  }

  lemma {:induction false} ObservedExtensionStaysTyped(registry: Registry, info: ExtensionInfo, e: Extension, room: nat)
    requires TypedExtension(registry, info, e, room) && !Dead(e)
    ensures TypedExtension(registry, info, ObservedExtension(e), room)
    decreases e
  {
    match e
    case Singular(_, _, value) => if value.Msg? { ObservedStaysTyped(registry, info.messageType, value.m, room - 1); }
    case Repeated(_, _, values, _) =>
      forall i | 0 <= i < |values| ensures TypedValue(registry, info, ObservedValue(values[i]), room) {
        assert TypedValue(registry, info, values[i], room);
        if values[i].Msg? { ObservedStaysTyped(registry, info.messageType, values[i].m, room - 1); }
      }
  }

  // ----- Merging -----

  /** Cleared singular extensions are passed over; repeated ones are not, even when empty. */
  predicate Merges(e: Extension) {
    e.Singular? ==> !e.cleared
  }

  /** `MergeFrom`. */
  function Merge(a: Message, b: Message): Message
    decreases b
  {
    Message(map n | n in a.extensions.Keys + b.extensions.Keys && (n in a.extensions || Merges(b.extensions[n])) ::
              if n in b.extensions && Merges(b.extensions[n])
              then MergedExtension(if n in a.extensions then Some(a.extensions[n]) else None, b.extensions[n])
              else a.extensions[n],
            a.cachedSize)
  }

  /** Singular numbers and strings are replaced, singular messages merged, and repeated fields concatenated. */
  function MergedExtension(was: Option<Extension>, e: Extension): Extension
    decreases e
  {
    match e
    case Singular(t, _, Msg(m)) => Overwritten(was, t, Msg(Merge(MessageIn(was), m)))
    case Singular(t, _, value) => Overwritten(was, t, value)
    case Repeated(t, packed, values, _) =>
      Appended(was, t, packed, seq(|values|, i requires 0 <= i < |values| => Copied(values[i])))
  }

  /** A new element starts empty and is merged into. */
  function Copied(v: Value): Value
    decreases v
  {
    match v
    case Msg(m) => Msg(Merge(EMPTY, m))
    case _ => v
  }

  /** The singular message there is, cleared or not; a new one starts empty. */
  function MessageIn(was: Option<Extension>): Message {
    if was.Some? && was.value.Singular? && was.value.value.Msg? then was.value.value.m else EMPTY
  }

  /** The effect of `Set…` on one entry. */
  function Overwritten(was: Option<Extension>, t: FieldType, value: Value): Extension {
    if was.Some? && was.value.Singular? then Singular(was.value.fieldType, false, value) else Singular(t, false, value)
  }

  /** The effect of `Add…`, for a whole list of elements. */
  function Appended(was: Option<Extension>, t: FieldType, packed: bool, values: seq<Value>): Extension {
    if was.Some? && was.value.Repeated? then was.value.(values := was.value.values + values)
    else Repeated(t, packed, values, 0)
  }

  function Entry(m: Message, n: int): Option<Extension> {
    if n in m.extensions then Some(m.extensions[n]) else None
  }

  lemma BlankShowsNothing(m: Message)
    requires Blank(m)
    ensures Observed(m) == EMPTY
  {
    forall n ensures n !in Observed(m).extensions {
      if n in m.extensions { assert Dead(m.extensions[n]); }
    }
    assert Observed(m).extensions == map[];
  }

  /** Merging into an empty message what can be observed of another gives just that. */
  lemma {:induction false} MergeIntoEmpty(m: Message)
    ensures Merge(EMPTY, Observed(m)) == Observed(m)
    decreases m
  {
    var o := Observed(m);
    forall n | n in o.extensions
      ensures Merges(o.extensions[n]) && MergedExtension(None, o.extensions[n]) == o.extensions[n]
    {
      ExtensionIntoNothing(m.extensions[n]);
    }
    assert Merge(EMPTY, o).extensions == o.extensions;
  }

  lemma {:induction false} ExtensionIntoNothing(e: Extension)
    requires !Dead(e)
    ensures MergedExtension(None, ObservedExtension(e)) == ObservedExtension(e)
    decreases e
  {
    match e
    case Singular(_, _, Msg(m)) => MergeIntoEmpty(m);
    case Singular(_, _, _) =>
    case Repeated(_, _, values, _) =>
      forall i | 0 <= i < |values| ensures Copied(ObservedValue(values[i])) == ObservedValue(values[i]) {
        if values[i].Msg? { MergeIntoEmpty(values[i].m); }
      }
  }

  /** Whether an entry comes out dead, and what can be observed of it, is settled by what can be observed before. */
  ghost predicate EntryAgrees(was: Option<Extension>, e: Extension)
    requires Merges(e)
  {
    var merged, live := MergedExtension(was, e), was.Some? && !Dead(was.value);
    && (Dead(merged) <==> !live && Dead(e))
    && (!Dead(e) ==>
          ObservedExtension(merged)
          == MergedExtension(if live then Some(ObservedExtension(was.value)) else None, ObservedExtension(e)))
    && (Dead(e) && live ==> ObservedExtension(merged) == ObservedExtension(was.value))
  }

  /** What can be observed of a merge is the merge of what can be observed. */
  lemma {:induction false} ObservedMerge(registry: Registry, t: nat, a: Message, b: Message, room: nat)
    requires Typed(registry, t, a, room) && Typed(registry, t, b, room)
    ensures Observed(Merge(a, b)) == Merge(Observed(a), Observed(b))
    decreases b, 0
  {
    hide MergedExtension, ObservedExtension, TypedExtension;
    var left, right := Observed(Merge(a, b)), Merge(Observed(a), Observed(b));
    forall n
      ensures n in left.extensions <==> n in right.extensions
      ensures n in left.extensions ==> left.extensions[n] == right.extensions[n]
    {
      if n in b.extensions && Merges(b.extensions[n]) {
        ObservedEntry(registry, registry[(t, n)], Entry(a, n), b.extensions[n], room);
        if !Dead(b.extensions[n]) { LiveMerges(b.extensions[n]); }
      }
    }
  }

  /**
   * What a merge shows under a number: what either set shows when the other shows nothing there; the other set's value
   * where it has a number or a string; two messages merged; and two lists one after the other.
   */
  lemma MergeShows(registry: Registry, t: nat, a: Message, b: Message, room: nat, n: int)
    requires Typed(registry, t, a, room) && Typed(registry, t, b, room)
    ensures var x, y, z := Entry(Observed(a), n), Entry(Observed(b), n), Entry(Observed(Merge(a, b)), n);
      && (y.None? ==> z == x)
      && (x.None? ==> z == y)
      && (x.Some? && y.Some? && y.value.Singular? && !y.value.value.Msg? ==> z == y)
      && (x.Some? && y.Some? && y.value.Singular? && y.value.value.Msg? ==>
            && x.value.Singular? && x.value.value.Msg?
            && z == Some(y.value.(value := Msg(Merge(x.value.value.m, y.value.value.m)))))
      && (x.Some? && y.Some? && y.value.Repeated? ==>
            x.value.Repeated? && z == Some(y.value.(values := x.value.values + y.value.values)))
  {
    hide Merge, Observed, MergedExtension, TypedExtension, Merges, Dead;
    ObservedMerge(registry, t, a, b, room);
    ObservedStaysTyped(registry, t, a, room);
    ObservedStaysTyped(registry, t, b, room);
    var x, y := Observed(a), Observed(b);
    if n in y.extensions {
      ShownIsCopied(b, n);
      EntryOfMerge(x, y, n);
      if n in x.extensions {
        ShownIsCopied(a, n);
        MergedShows(registry, registry[(t, n)], x.extensions[n], y.extensions[n], room);
      }
    } else {
      EntryOfMerge(x, y, n);
    }
  }

  lemma EntryOfMerge(x: Message, y: Message, n: int)
    requires n in y.extensions ==> Merges(y.extensions[n])
    ensures Entry(Merge(x, y), n) ==
      if n in y.extensions then Some(MergedExtension(Entry(x, n), y.extensions[n])) else Entry(x, n)
  {
    hide MergedExtension, Merges;
  }

  lemma MergedShows(registry: Registry, info: ExtensionInfo, was: Extension, e: Extension, room: nat)
    requires TypedExtension(registry, info, was, room) && TypedExtension(registry, info, e, room)
    requires Merges(was) && Merges(e)
    requires e.Repeated? ==> seq(|e.values|, i requires 0 <= i < |e.values| => Copied(e.values[i])) == e.values
    requires was.Repeated? ==> was.cachedSize == 0
    requires e.Repeated? ==> e.cachedSize == 0
    ensures var z := MergedExtension(Some(was), e);
      && (e.Singular? && !e.value.Msg? ==> z == e)
      && (e.Singular? && e.value.Msg? ==>
            was.Singular? && was.value.Msg? && z == e.(value := Msg(Merge(was.value.m, e.value.m))))
      && (e.Repeated? ==> was.Repeated? && z == e.(values := was.values + e.values))
  {
    hide Merge, Copied, Typed;
  }

  /** What is shown of a set is as a merge into nothing leaves it. */
  lemma ShownIsCopied(b: Message, n: int)
    requires n in Observed(b).extensions
    ensures var e := Observed(b).extensions[n];
      Merges(e) && MergedExtension(None, e) == e && (e.Repeated? ==> e.cachedSize == 0)
      && (e.Repeated? ==> seq(|e.values|, i requires 0 <= i < |e.values| => Copied(e.values[i])) == e.values)
  {
    ExtensionIntoNothing(b.extensions[n]);
  }

  lemma LiveMerges(e: Extension)
    requires !Dead(e)
    ensures Merges(ObservedExtension(e))
  {
  }

  lemma {:induction false} ObservedEntry(registry: Registry, info: ExtensionInfo, was: Option<Extension>, e: Extension,
                                         room: nat)
    requires Merges(e) && TypedExtension(registry, info, e, room)
    requires was.Some? ==> TypedExtension(registry, info, was.value, room)
    ensures EntryAgrees(was, e)
    decreases e
  {
    match e
    case Singular(_, _, Msg(m)) =>
      var base := MessageIn(was);
      assert Typed(registry, info.messageType, base, room - 1);
      ObservedMerge(registry, info.messageType, base, m, room - 1);
      MessageEntryAgrees(was, e);
    case Singular(_, _, _) =>
    case Repeated(_, _, values, _) =>
      forall i | 0 <= i < |values| ensures ObservedValue(Copied(values[i])) == Copied(ObservedValue(values[i])) {
        if values[i].Msg? {
          assert TypedValue(registry, info, values[i], room);
          ObservedMerge(registry, info.messageType, EMPTY, values[i].m, room - 1);
          BlankShowsNothing(EMPTY);
        }
      }
      RepeatedEntryAgrees(was, e);
  }

  lemma MessageEntryAgrees(was: Option<Extension>, e: Extension)
    requires e.Singular? && !e.cleared && e.value.Msg?
    requires was.Some? ==> was.value.Singular? && was.value.fieldType == e.fieldType
    requires was.Some? ==> was.value.value.Msg? && (was.value.cleared ==> Blank(was.value.value.m))
    requires Observed(Merge(MessageIn(was), e.value.m)) == Merge(Observed(MessageIn(was)), Observed(e.value.m))
    ensures EntryAgrees(was, e)
  {
    if was == None || was.value.cleared { BlankShowsNothing(MessageIn(was)); }
  }

  lemma RepeatedEntryAgrees(was: Option<Extension>, e: Extension)
    requires e.Repeated?
    requires was.Some? ==> was.value.Repeated? && was.value.fieldType == e.fieldType && was.value.packed == e.packed
    requires forall i | 0 <= i < |e.values| :: ObservedValue(Copied(e.values[i])) == Copied(ObservedValue(e.values[i]))
    ensures EntryAgrees(was, e)
  {
    hide ObservedValue, Copied;
    var merged, live := MergedExtension(was, e), was.Some? && !Dead(was.value);
    var copies := seq(|e.values|, i requires 0 <= i < |e.values| => Copied(e.values[i]));
    if !Dead(e) {
      var mine := ObservedExtension(e);
      var target := MergedExtension(if live then Some(ObservedExtension(was.value)) else None, mine);
      assert merged.values == (if live then was.value.values else []) + copies;
      assert ObservedExtension(merged).values == target.values;
    } else {
      assert copies == [];
      if was.Some? { assert merged.values == was.value.values; }
    }
  }

  /** A merge of two messages of a type is of that type. */
  lemma {:induction false} MergeStaysTyped(registry: Registry, t: nat, a: Message, b: Message, room: nat)
    requires Typed(registry, t, a, room) && Typed(registry, t, b, room)
    ensures Typed(registry, t, Merge(a, b), room)
    ensures Numbered(a) && Numbered(b) ==> Numbered(Merge(a, b))
    decreases b, 0
  {
    hide TypedExtension, MergedExtension;
    forall n | n in Merge(a, b).extensions && n in b.extensions && Merges(b.extensions[n])
      ensures TypedExtension(registry, registry[(t, n)], Merge(a, b).extensions[n], room)
    {
      EntryStaysTyped(registry, registry[(t, n)], Entry(a, n), b.extensions[n], room);
    }
  }

  lemma {:induction false} EntryStaysTyped(registry: Registry, info: ExtensionInfo, was: Option<Extension>,
                                           e: Extension, room: nat)
    requires Merges(e) && TypedExtension(registry, info, e, room)
    requires was.Some? ==> TypedExtension(registry, info, was.value, room)
    ensures TypedExtension(registry, info, MergedExtension(was, e), room)
    decreases e
  {
    match e
    case Singular(_, _, Msg(m)) =>
      assert Typed(registry, info.messageType, MessageIn(was), room - 1);
      MergeStaysTyped(registry, info.messageType, MessageIn(was), m, room - 1);
    case Singular(_, _, _) =>
    case Repeated(_, _, values, _) =>
      forall i | 0 <= i < |values| ensures TypedValue(registry, info, Copied(values[i]), room) {
        CopyStaysTyped(registry, info, values[i], room);
      }
  }

  lemma {:induction false} CopyStaysTyped(registry: Registry, info: ExtensionInfo, v: Value, room: nat)
    requires TypedValue(registry, info, v, room)
    ensures TypedValue(registry, info, Copied(v), room)
    decreases v
  {
    match v
    case Msg(m) => MergeStaysTyped(registry, info.messageType, EMPTY, m, room - 1);
    case _ =>
  }

  // ----- Clearing -----

  /** `Clear`: nothing is removed, everything is emptied. */
  function Cleared(m: Message): Message
    decreases m
  {
    m.(extensions := map n | n in m.extensions :: ClearedExtension(m.extensions[n]))
  }

  function ClearedExtension(e: Extension): Extension
    decreases e
  {
    match e
    case Singular(t, cleared, value) => if cleared then e else Singular(t, true, ClearedValue(value))
    case Repeated(_, _, _, _) => e.(values := [])
  }

  /** A number stays behind the flag that says it is not there. */
  function ClearedValue(v: Value): Value
    decreases v
  {
    match v
    case Num(_) => v
    case Str(_) => Str([])
    case Msg(m) => Msg(Cleared(m))
  }

  /** A cleared message is blank, stays of its type, and shows nothing. */
  lemma {:induction false} ClearedIsBlank(registry: Registry, t: nat, m: Message, room: nat)
    requires Typed(registry, t, m, room)
    ensures Blank(Cleared(m)) && Observed(Cleared(m)) == EMPTY
    ensures Typed(registry, t, Cleared(m), room) && (Numbered(m) ==> Numbered(Cleared(m)))
    decreases m
  {
    forall n | n in m.extensions
      ensures TypedExtension(registry, registry[(t, n)], ClearedExtension(m.extensions[n]), room)
    {
      ClearedExtensionStaysTyped(registry, registry[(t, n)], m.extensions[n], room);
    }
    BlankShowsNothing(Cleared(m));
  }

  lemma {:induction false} ClearedExtensionStaysTyped(registry: Registry, info: ExtensionInfo, e: Extension, room: nat)
    requires TypedExtension(registry, info, e, room)
    ensures TypedExtension(registry, info, ClearedExtension(e), room) && Dead(ClearedExtension(e))
    decreases e
  {
    match e
    case Singular(_, cleared, value) =>
      if value.Msg? && !cleared { ClearedIsBlank(registry, info.messageType, value.m, room - 1); }
    case Repeated(_, _, _, _) =>
  }
}
