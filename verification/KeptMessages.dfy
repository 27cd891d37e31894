/** What becomes of several messages that come before the number of a MessageSet item. */
module KeptMessages {
  import opened OrderedMaps
  import opened Wire
  import opened Extensions
  import opened ExtensionCodec
  import opened ExtensionParsing
  import opened MessageSets

  // ----- Merging one message after another -----

  ghost predicate IsObserved(m: Message) {
    Observed(m) == m
  }

  function MergedInTurn(x: Message, ms: seq<Message>): Message
    decreases |ms|
  {
    if ms == [] then x else MergedInTurn(Merge(x, ms[0]), ms[1..])
  }

  lemma ObservedEntry(m: Message, n: int)
    requires IsObserved(m) && n in m.extensions
    ensures !Dead(m.extensions[n]) && Merges(m.extensions[n]) && ObservedExtension(m.extensions[n]) == m.extensions[n]
    ensures MergedExtension(None, m.extensions[n]) == m.extensions[n]
  {
    assert n in Observed(m).extensions;
    ExtensionIntoNothing(m.extensions[n]);
  }

  lemma ObservedCopies(values: seq<Value>)
    requires forall i | 0 <= i < |values| :: ObservedValue(values[i]) == values[i]
    ensures seq(|values|, i requires 0 <= i < |values| => Copied(values[i])) == values
  {
    forall i | 0 <= i < |values| ensures Copied(values[i]) == values[i] {
      if values[i].Msg? { MergeIntoEmpty(values[i].m); }
    }
  }

  /** One entry of the two ways to merge three messages. */
  lemma {:induction false} EntryAssociative(registry: Registry, info: ExtensionInfo, a: Option<Extension>, b: Extension,
                                            c: Extension,
                                            room: nat)
    requires a.Some? ==> TypedExtension(registry, info, a.value, room)
    requires TypedExtension(registry, info, b, room) && TypedExtension(registry, info, c, room)
    requires !Dead(b) && !Dead(c) && ObservedExtension(b) == b && ObservedExtension(c) == c
    ensures MergedExtension(Some(MergedExtension(a, b)), c) == MergedExtension(a, MergedExtension(Some(b), c))
    decreases c
  {
    match c {
      case Singular(t, _, Msg(m)) =>
        if a.Some? && a.value.value.Msg? {
          MergeAssociative(registry, info.messageType, a.value.value.m, b.value.m, m, room - 1);
        } else {
          EmptyTyped(registry, info.messageType, room - 1);
          MergeAssociative(registry, info.messageType, EMPTY, b.value.m, m, room - 1);
        }
      case Singular(t, _, value) =>
      case Repeated(t, packed, values, _) =>
        forall i | 0 <= i < |values| ensures ObservedValue(values[i]) == values[i] {
          assert ObservedExtension(c).values[i] == values[i];
        }
        forall i | 0 <= i < |b.values| ensures ObservedValue(b.values[i]) == b.values[i] {
          assert ObservedExtension(b).values[i] == b.values[i];
        }
        ObservedCopies(values);
        ObservedCopies(b.values);
        forall i | 0 <= i < |b.values + values| ensures ObservedValue((b.values + values)[i])
          == (b.values + values)[i] {}
        ObservedCopies(b.values + values);
        if a.Some? { assert a.value.values + b.values + values == a.value.values + (b.values + values); }
    }
  }

  lemma EmptyTyped(registry: Registry, t: nat, room: nat)
    ensures Typed(registry, t, EMPTY, room)
  {
  }

  lemma {:induction false} MergeAssociative(registry: Registry, t: nat, a: Message, b: Message, c: Message, room: nat)
    requires Typed(registry, t, a, room) && Typed(registry, t, b, room) && Typed(registry, t, c, room)
    requires IsObserved(b) && IsObserved(c)
    ensures Merge(Merge(a, b), c) == Merge(a, Merge(b, c))
    decreases c
  {
    hide Merge, MergedExtension, Merges, IsObserved, TypedExtension;
    var ab, bc := Merge(a, b), Merge(b, c);
    forall n ensures Entry(Merge(ab, c), n) == Entry(Merge(a, bc), n) {
      MergedEntry(a, b, n);
      MergedEntry(b, c, n);
      MergedEntry(ab, c, n);
      MergedEntry(a, bc, n);
      if n in b.extensions { ObservedEntry(b, n); }
      if n in c.extensions { ObservedEntry(c, n); }
      if n in b.extensions && n in c.extensions {
        EntryAssociative(registry, registry[(t, n)], Entry(a, n), b.extensions[n], c.extensions[n], room);
      }
    }
    MergedEntry(a, b, 0);
    MergedEntry(ab, c, 0);
    MergedEntry(a, bc, 0);
    SameEntries(Merge(ab, c), Merge(a, bc));
  }

  lemma MergedEntry(a: Message, b: Message, n: int)
    ensures Merge(a, b).cachedSize == a.cachedSize
    ensures Entry(Merge(a, b), n) ==
      if n in b.extensions && Merges(b.extensions[n]) then Some(MergedExtension(Entry(a, n), b.extensions[n]))
      else Entry(a, n)
    ensures n in b.extensions && Merges(b.extensions[n]) ==> Merges(MergedExtension(Entry(a, n), b.extensions[n]))
  {
  }

  lemma SameEntries(a: Message, b: Message)
    requires a.cachedSize == b.cachedSize && forall n :: Entry(a, n) == Entry(b, n)
    ensures a == b
  {
    forall n ensures n in a.extensions <==> n in b.extensions { assert Entry(a, n) == Entry(b, n); }
    forall n | n in a.extensions ensures a.extensions[n] == b.extensions[n] { assert Entry(a, n) == Entry(b, n); }
    assert a.extensions == b.extensions;
  }

  function Gathered(ms: seq<Message>): Message {
    MergedInTurn(EMPTY, ms)
  }

  ghost predicate AllObserved(registry: Registry, t: nat, ms: seq<Message>, room: nat) {
    forall i | 0 <= i < |ms| :: IsObserved(ms[i]) && Typed(registry, t, ms[i], room)
  }

  lemma MergeNothing(x: Message)
    ensures Merge(x, EMPTY) == x
  {
    assert Merge(x, EMPTY).extensions == x.extensions;
  }

  /** Merging one after another is merging once what they come to. */
  lemma {:induction false} MergedAtOnce(registry: Registry, t: nat, x: Message, ms: seq<Message>, room: nat)
    requires Typed(registry, t, x, room) && AllObserved(registry, t, ms, room)
    ensures MergedInTurn(x, ms) == Merge(x, Gathered(ms))
    ensures Typed(registry, t, Gathered(ms), room) && IsObserved(Gathered(ms))
    decreases |ms|
  {
    EmptyTyped(registry, t, room);
    if ms == [] {
      MergeNothing(x);
      assert Observed(EMPTY).extensions == map[];
    } else {
      var m, rest := ms[0], ms[1..];
      MergeIntoEmpty(m);
      MergeStaysTyped(registry, t, x, m, room);
      MergedAtOnce(registry, t, m, rest, room);
      MergedAtOnce(registry, t, Merge(x, m), rest, room);
      MergeAssociative(registry, t, x, m, Gathered(rest), room);
      MergeStaysTyped(registry, t, m, Gathered(rest), room);
      ObservedMerge(registry, t, m, Gathered(rest), room);
    }
  }

  // ----- Merging what is there already -----

  /** Everything that `b` says is in `x` already; it has no repeated extension. */
  predicate Absorbs(x: Message, b: Message)
    decreases b
  {
    forall n | n in b.extensions && Merges(b.extensions[n]) ::
      n in x.extensions && AbsorbsExtension(x.extensions[n], b.extensions[n])
  }

  predicate AbsorbsExtension(was: Extension, e: Extension)
    decreases e
  {
    match e
    case Singular(_, _, Msg(m)) => was.Singular? && !was.cleared && was.value.Msg? && Absorbs(was.value.m, m)
    case Singular(_, _, value) => was.Singular? && !was.cleared && was.value == value
    case Repeated(_, _, values, _) => was.Repeated? && values == []
  }

  lemma {:induction false} MergeUnchanged(x: Message, b: Message)
    ensures Merge(x, b) == x <==> Absorbs(x, b)
    decreases b
  {
    var merged := Merge(x, b);
    forall n | n in b.extensions && Merges(b.extensions[n])
      ensures n in merged.extensions && merged.extensions[n] == MergedExtension(Entry(x, n), b.extensions[n])
      ensures n in x.extensions && merged.extensions[n] == x.extensions[n]
         <==> n in x.extensions && AbsorbsExtension(x.extensions[n], b.extensions[n])
    {
      if n in x.extensions { ExtensionUnchanged(x.extensions[n], b.extensions[n]); }
    }
    if Absorbs(x, b) {
      forall n ensures Entry(merged, n) == Entry(x, n) {}
      SameEntries(merged, x);
    }
  }

  lemma {:induction false} ExtensionUnchanged(was: Extension, e: Extension)
    requires Merges(e)
    ensures MergedExtension(Some(was), e) == was <==> AbsorbsExtension(was, e)
    decreases e
  {
    match e {
      case Singular(_, _, Msg(m)) => if was.Singular? && was.value.Msg? { MergeUnchanged(was.value.m, m); }
      case Singular(_, _, value) =>
      case Repeated(t, packed, values, _) =>
        if was.Repeated? {
          var copies := seq(|values|, i requires 0 <= i < |values| => Copied(values[i]));
          assert |was.values + copies| == |was.values| + |values|;
          if values == [] { assert was.values + copies == was.values; }
        }
    }
  }

  // ----- Messages before the number -----

  function Item(m: Message): Extension {
    Singular(MESSAGE, false, Msg(m))
  }

  function KeptBytes(ms: seq<Message>): bytes {
    if ms == [] then [] else ValueBytes(MESSAGE, Msg(ms[0])) + KeptBytes(ms[1..])
  }

  /** The set if every message were merged. */
  function AllMerged(s: Message, n: int, ms: seq<Message>): Message
    decreases |ms|
  {
    if ms == [] then s else AllMerged(MergeOne(s, n, Item(ms[0])), n, ms[1..])
  }

  function Observations(ms: seq<Message>): (os: seq<Message>)
    ensures |os| == |ms|
  {
    seq(|ms|, i requires 0 <= i < |ms| => Observed(ms[i]))
  }

  lemma {:induction false} AllMergedInTurn(s: Message, n: int, x: Message, ms: seq<Message>)
    requires n in s.extensions && s.extensions[n] == Item(x)
    ensures AllMerged(s, n, ms) == WithEntry(s, n, Item(MergedInTurn(x, Observations(ms))))
    decreases |ms|
  {
    if ms == [] {
      assert s.extensions[n := Item(x)] == s.extensions;
    } else {
      var y := Merge(x, Observed(ms[0]));
      var s' := MergeOne(s, n, Item(ms[0]));
      assert ObservedExtension(Item(ms[0])) == Item(Observed(ms[0]));
      assert s' == WithEntry(s, n, Item(y));
      AllMergedInTurn(s', n, y, ms[1..]);
      assert Observations(ms)[1..] == Observations(ms[1..]);
    }
  }

  ghost predicate Kept(registry: Registry, info: ExtensionInfo, m: Message) {
    TypedExtension(registry, info, Item(m), FULL_ROOM) && FreshExtension(Item(m)) && FitsExtension(Item(m))
  }

  /** The message under `n` once the first is merged. */
  function AfterFirst(s: Message, n: int, m: Message): Message {
    Merge(MessageIn(Entry(s, n)), Observed(m))
  }

  /**
   * Of the messages before the number only the first is merged. Nothing is lost by that exactly when everything that
   * the others come to is in the set already, and in particular when there is no other.
   */
  lemma NothingLostExactly(registry: Registry, t: nat, s: Message, n: int, ms: seq<Message>, rest: bytes, room: nat)
    requires WellFormed(registry) && 0 < n < TWO_29 && (t, n) in registry && ms != []
    requires Typed(registry, t, s, FULL_ROOM) && forall i | 0 <= i < |ms| :: Kept(registry, registry[(t, n)], ms[i])
    ensures var r := ItemParsed(registry, t, s, 0, KeptBytes(ms),
                                VarintBytes(TYPE_ID_TAG) + (VarintBytes(n) + (VarintBytes(ITEM_END_TAG) + rest)), room);
      && r == Done(MergeOne(s, n, Item(ms[0])), rest)
      && (r == Done(AllMerged(s, n, ms), rest) <==> Absorbs(AfterFirst(s, n, ms[0]), Gathered(Observations(ms[1..]))))
  {
    var info, first := registry[(t, n)], MergeOne(s, n, Item(ms[0]));
    assert Kept(registry, info, ms[0]);
    FirstIsMerged(registry, t, s, n, ms[0]);
    OnlyFirstKeptMessageCounts(registry, t, s, n, Item(ms[0]), KeptBytes(ms[1..]), rest, room);
    assert forall i | 0 <= i < |ms[1..]| :: Kept(registry, info, ms[1..][i]);
    var x := AfterFirst(s, n, ms[0]);
    OthersAbsorbed(registry, info, first, n, x, ms[1..]);
    assert AllMerged(s, n, ms) == AllMerged(first, n, ms[1..]);
    hide MergeOne, AllMerged, ItemParsed, Kept, AfterFirst, Absorbs, Gathered, Observations;
  }

  lemma OthersAbsorbed(registry: Registry, info: ExtensionInfo, first: Message, n: int, x: Message, ms: seq<Message>)
    requires info.fieldType == MESSAGE && n in first.extensions && first.extensions[n] == Item(x)
    requires Typed(registry, info.messageType, x, FULL_ROOM - 1) && forall i | 0 <= i < |ms| ::
      Kept(registry, info, ms[i])
    ensures AllMerged(first, n, ms) == first <==> Absorbs(x, Gathered(Observations(ms)))
  {
    var others := Observations(ms);
    AllMergedInTurn(first, n, x, ms);
    forall i | 0 <= i < |others|
      ensures IsObserved(others[i]) && Typed(registry, info.messageType, others[i], FULL_ROOM - 1)
    {
      assert Kept(registry, info, ms[i]) && TypedValue(registry, info, Msg(ms[i]), FULL_ROOM);
      ObservedTwice(ms[i]);
      ObservedStaysTyped(registry, info.messageType, ms[i], FULL_ROOM - 1);
    }
    MergedAtOnce(registry, info.messageType, x, others, FULL_ROOM - 1);
    MergeUnchanged(x, Gathered(others));
    if MergedInTurn(x, others) == x {
      assert first.extensions[n := Item(x)] == first.extensions;
    } else {
      assert AllMerged(first, n, ms).extensions[n] != first.extensions[n];
    }
  }

  lemma FirstIsMerged(registry: Registry, t: nat, s: Message, n: int, m: Message)
    requires 0 < n < TWO_29 && (t, n) in registry && Typed(registry, t, s, FULL_ROOM)
      && Kept(registry, registry[(t, n)], m)
    ensures var first, x := MergeOne(s, n, Item(m)), AfterFirst(s, n, m);
      n in first.extensions && first.extensions[n] == Item(x)
        && Typed(registry, registry[(t, n)].messageType, x, FULL_ROOM - 1)
  {
    var info := registry[(t, n)];
    assert info.fieldType == MESSAGE && TypedValue(registry, info, Msg(m), FULL_ROOM);
    EntryMessageIsTyped(registry, t, s, n, FULL_ROOM);
    ObservedStaysTyped(registry, info.messageType, m, FULL_ROOM - 1);
    MergeStaysTyped(registry, info.messageType, MessageIn(Entry(s, n)), Observed(m), FULL_ROOM - 1);
    assert ObservedExtension(Item(m)) == Item(Observed(m));
    assert n in s.extensions ==> TypedExtension(registry, info, s.extensions[n], FULL_ROOM);
    assert MergedExtension(Entry(s, n), Item(Observed(m))) == Item(AfterFirst(s, n, m));
  }

  // ----- An input that loses a message -----

  const NUMBER_FIELD := ExtensionInfo(INT32, false, false, {}, 0)
  const ITEMS: Registry := map[(0, 1) := ExtensionInfo(MESSAGE, false, false, {}, 1), (1, 1) := NUMBER_FIELD]
  const SEVEN := Message(map[1 := Singular(INT32, false, Num(7))], 2)

  /** Before the number come an empty message and one that holds a 7: what is made of them holds nothing. */
  lemma LostMessageExample(rest: bytes)
    ensures var r := ItemParsed(ITEMS, 0, EMPTY, 0, KeptBytes([EMPTY, SEVEN]),
                                VarintBytes(TYPE_ID_TAG)
                                  + (VarintBytes(1) + (VarintBytes(ITEM_END_TAG) + rest)), FULL_ROOM);
      r == Done(Message(map[1 := Item(EMPTY)], 0), rest) && r != Done(AllMerged(EMPTY, 1, [EMPTY, SEVEN]), rest)
  {
    hide ItemParsed, KeptBytes, VarintBytes, AllMerged, MergeOne, Absorbs, Gathered, Observations, Kept, AfterFirst,
      Typed, WellFormed;
    var ms := [EMPTY, SEVEN];
    ExampleKept();
    ExampleAbsorbs();
    ItemsAreFine();
    assert ms[1..] == [SEVEN];
    NothingLostExactly(ITEMS, 0, EMPTY, 1, ms, rest, FULL_ROOM);
  }

  lemma ItemsAreFine()
    ensures WellFormed(ITEMS) && (0, 1) in ITEMS && Typed(ITEMS, 0, EMPTY, FULL_ROOM)
  {
  }

  lemma ExampleAbsorbs()
    ensures MergeOne(EMPTY, 1, Item(EMPTY)) == Message(map[1 := Item(EMPTY)], 0)
    ensures !Absorbs(AfterFirst(EMPTY, 1, EMPTY), Gathered(Observations([SEVEN])))
  {
    assert Observed(EMPTY) == EMPTY by { assert Observed(EMPTY).extensions == map[]; }
    MergeNothing(EMPTY);
    assert AfterFirst(EMPTY, 1, EMPTY) == EMPTY;
    var others := Observations([SEVEN]);
    assert others == [Observed(SEVEN)];
    assert Gathered(others) == Observed(SEVEN) by { GatheredOne(SEVEN); }
    assert 1 in Observed(SEVEN).extensions && Merges(Observed(SEVEN).extensions[1]);
    assert ObservedExtension(Item(EMPTY)) == Item(EMPTY);
  }

  lemma GatheredOne(m: Message)
    ensures Gathered([Observed(m)]) == Observed(m)
  {
    var o, rest := Observed(m), [Observed(m)][1..];
    ObservedTwice(m);
    MergeIntoEmpty(o);
    assert MergedInTurn(EMPTY, [o]) == MergedInTurn(Merge(EMPTY, o), rest);
    assert MergedInTurn(Merge(EMPTY, o), rest) == Merge(EMPTY, o);
  }

  lemma ExampleKept()
    ensures Kept(ITEMS, ITEMS[(0, 1)], EMPTY) && Kept(ITEMS, ITEMS[(0, 1)], SEVEN)
  {
    SizeOfRest(EMPTY, FIRST_NUMBER, PAST_NUMBERS);
    SizeOfRest(SEVEN, FIRST_NUMBER + 1, PAST_NUMBERS);
    assert Size(EMPTY) == 0;
    assert ExtensionSize(1, SEVEN.extensions[1]) == 2;
    assert Size(SEVEN) == 2;
    assert TypedExtension(ITEMS, NUMBER_FIELD, SEVEN.extensions[1], FULL_ROOM - 1);
    hide Size;
    assert FreshExtension(SEVEN.extensions[1]) && FitsExtension(SEVEN.extensions[1]);
    assert FreshExtension(Item(SEVEN)) && FitsExtension(Item(SEVEN));
    assert FreshExtension(Item(EMPTY)) && FitsExtension(Item(EMPTY));
  }

  lemma {:induction false} SizeOfRest(m: Message, lo: int, hi: int)
    requires forall n | n in m.extensions :: n < lo
    ensures RangeSize(m, lo, hi) == 0
    decreases hi - lo
  {
    if lo < hi { SizeOfRest(m, lo + 1, hi); }
  }

  // ----- An input that does not come back -----

  const LARGE_ITEMS: Registry := map[(0, TWO_29) := ExtensionInfo(MESSAGE, false, false, {}, 1)]
  const LARGE := Message(map[TWO_29 := Item(EMPTY)], 0)

  /** An empty message under the first number that a tag has no room for. */
  lemma LargeNumberExample()
    ensures Typed(LARGE_ITEMS, 0, LARGE, 1)
    ensures SetParsed(LARGE_ITEMS, 0, EMPTY, SetBytes(Filled(LARGE)), 1) != Some(Observed(LARGE))
  {
    hide SetParsed, SetBytes, Filled, Observed, Typed, Fits;
    LargeFits();
    SetRoundTripExact(LARGE_ITEMS, 0, LARGE, 1);
    assert TWO_29 in LARGE.extensions && !Dead(LARGE.extensions[TWO_29]);
  }

  lemma LargeFits()
    ensures WellFormed(LARGE_ITEMS) && Typed(LARGE_ITEMS, 0, LARGE, 1) && Fits(LARGE)
  {
    SizeOfRest(EMPTY, FIRST_NUMBER, PAST_NUMBERS);
    assert Size(EMPTY) == 0;
    assert FitsExtension(Item(EMPTY));
  }
}
