/** Which numbers the fields and the extensions of a file may have, position by position. */
module FieldNumbers {
  import opened Names
  import opened OrderedMaps
  import opened Protos
  import opened PoolTables
  import opened SymbolOwnership
  import opened Declarations
  import opened ScopeLookup
  import opened References

  // ----- The positions of fields, in the order in which they are linked -----

  /** The fields and extensions of a message itself: the path starts below it. */
  function OwnFields(m: MessageProto): seq<Position> {
    seq(|m.fields|, i requires 0 <= i => Position([], FieldOf(i)))
    + seq(|m.extensions|, i requires 0 <= i => Position([], ExtensionOf(i)))
  }

  function Deeper(n: nat, list: seq<Position>): (r: seq<Position>)
    ensures |r| == |list| && forall i | 0 <= i < |list| :: r[i] == Position([n] + list[i].path, list[i].place)
  {
    seq(|list|, i requires 0 <= i < |list| => Position([n] + list[i].path, list[i].place))
  }

  function FieldsInside(m: MessageProto): seq<Position>
    decreases m, 0
  {
    FieldsAmong(m.nested) + OwnFields(m)
  }

  function FieldsAmong(messages: seq<MessageProto>): seq<Position>
    decreases messages, 1
  {
    if messages == [] then []
    else
      var n := |messages| - 1;
      FieldsAmong(messages[..n]) + Deeper(n, FieldsInside(messages[n]))
  }

  function FieldsOfFile(proto: FileProto): seq<Position> {
    FieldsAmong(proto.messages) + seq(|proto.extensions|, i requires 0 <= i => Position([], ExtensionOf(i)))
  }

  ghost predicate Distinct<T>(s: seq<T>) {
    forall i, j | 0 <= i < j < |s| :: s[i] != s[j]
  }

  lemma DistinctJoins<T>(a: seq<T>, b: seq<T>)
    requires Distinct(a) && Distinct(b) && forall x | x in a :: x !in b
    ensures Distinct(a + b)
  {
    var all := a + b;
    forall i, j | 0 <= i < j < |all| ensures all[i] != all[j] {
      if i < |a| <= j { assert all[i] in a && all[j] in b; }
    }
  }

  /** At or below a message. */
  predicate StandsInside(m: MessageProto, at: Position) {
    if at.path == [] then InMessage(m, at.place) else InMessages(m.nested, at.path, at.place)
  }

  lemma {:induction false} InsideListed(m: MessageProto)
    ensures Distinct(FieldsInside(m))
    ensures forall at :: at in FieldsInside(m) <==> HoldsField(at.place) && StandsInside(m, at)
    decreases m, 0
  {
    hide FieldsAmong, Distinct, InMessages;
    AmongListed(m.nested);
    OwnListed(m);
    forall path, place | InMessages(m.nested, path, place) ensures path != [] { PathIsThere(m.nested, path, place); }
    DistinctJoins(FieldsAmong(m.nested), OwnFields(m));
  }

  lemma OwnListed(m: MessageProto)
    ensures Distinct(OwnFields(m))
    ensures forall at :: at in OwnFields(m) <==> at.path == [] && HoldsField(at.place) && InMessage(m, at.place)
  {
    var own := OwnFields(m);
    forall at: Position | at.path == [] && HoldsField(at.place) && InMessage(m, at.place) ensures at in own {
      if at.place.FieldOf? { assert own[at.place.i] == at; } else { assert own[|m.fields| + at.place.i] == at; }
    }
  }

  lemma {:induction false} AmongListed(messages: seq<MessageProto>)
    ensures Distinct(FieldsAmong(messages))
    ensures forall at ::
      at in FieldsAmong(messages) <==> HoldsField(at.place) && InMessages(messages, at.path, at.place)
    decreases messages, 1
  {
    hide FieldsInside;
    if messages != [] {
      var n := |messages| - 1;
      AmongListed(messages[..n]);
      InsideListed(messages[n]);
      DeeperDistinct(n, FieldsInside(messages[n]));
      forall at { DeeperListed(messages, n, at); }
      DistinctJoins(FieldsAmong(messages[..n]), Deeper(n, FieldsInside(messages[n])));
    }
  }

  lemma DeeperDistinct(n: nat, list: seq<Position>)
    requires Distinct(list)
    ensures Distinct(Deeper(n, list))
  {
    var deeper := Deeper(n, list);
    forall i, j | 0 <= i < j < |list| ensures deeper[i] != deeper[j] {
      assert deeper[i].path[1..] == list[i].path && deeper[j].path[1..] == list[j].path;
    }
  }

  lemma DeeperListed(messages: seq<MessageProto>, n: nat, at: Position)
    requires n == |messages| - 1
    requires forall at :: at in FieldsInside(messages[n]) <==> HoldsField(at.place) && StandsInside(messages[n], at)
    ensures at in Deeper(n, FieldsInside(messages[n]))
       <==> HoldsField(at.place) && InMessages(messages, at.path, at.place) && at.path[0] == n
    ensures InMessages(messages[..n], at.path, at.place)
       <==> InMessages(messages, at.path, at.place) && at.path[0] < n
  {
    hide FieldsInside;
    var inner := FieldsInside(messages[n]);
    var list := Deeper(n, inner);
    if at in list {
      var i :| 0 <= i < |list| && list[i] == at;
      assert inner[i] in inner && at.path[1..] == inner[i].path;
    }
    if HoldsField(at.place) && InMessages(messages, at.path, at.place) && at.path[0] == n {
      var below := Position(at.path[1..], at.place);
      assert below in inner;
      var i :| 0 <= i < |inner| && inner[i] == below;
      assert at.path == [n] + below.path;
      assert list[i] == at;
    }
  }

  lemma FileListed(proto: FileProto)
    ensures Distinct(FieldsOfFile(proto))
    ensures forall at :: at in FieldsOfFile(proto) <==> HoldsField(at.place) && InFile(proto, at)
  {
    hide FieldsAmong, InMessages;
    var top := seq(|proto.extensions|, i requires 0 <= i => Position([], ExtensionOf(i)));
    AmongListed(proto.messages);
    forall path, place | InMessages(proto.messages, path, place) ensures path != [] {
      PathIsThere(proto.messages, path, place);
    }
    DistinctJoins(FieldsAmong(proto.messages), top);
    forall i | 0 <= i < |proto.extensions| ensures Position([], ExtensionOf(i)) in top {
      assert top[i] == Position([], ExtensionOf(i));
    }
  }

  // ----- The key of each -----

  /** A field has its number in its own message, an extension in what it extends. */
  ghost function KeyInMessage(env: Env, m: MessageProto, full: string, place: Place): ExtensionKey
    requires InMessage(m, place) && HoldsField(place)
  {
    match place
    case FieldOf(i) => FieldKey(env, m.fields[i], Under(full, m.fields[i].name), Some(Ref(env.file, full)))
    case ExtensionOf(i) => FieldKey(env, m.extensions[i], Under(full, m.extensions[i].name), None)
  }

  ghost function KeyInMessages(env: Env, messages: seq<MessageProto>, scope: string, path: seq<nat>,
                               place: Place): ExtensionKey
    requires InMessages(messages, path, place) && HoldsField(place)
    decreases |path|
  {
    var m := messages[path[0]];
    var full := Under(scope, m.name);
    if |path| == 1 then KeyInMessage(env, m, full, place) else KeyInMessages(env, m.nested, full, path[1..], place)
  }

  ghost function KeyInFile(env: Env, proto: FileProto, at: Position): ExtensionKey
    requires InFile(proto, at) && HoldsField(at.place)
  {
    if at.path != [] then KeyInMessages(env, proto.messages, PackageOf(proto), at.path, at.place)
    else FieldKey(env, proto.extensions[at.place.i], Under(PackageOf(proto), proto.extensions[at.place.i].name), None)
  }

  ghost function KeyInside(env: Env, m: MessageProto, full: string, at: Position): ExtensionKey
    requires StandsInside(m, at) && HoldsField(at.place)
  {
    if at.path == [] then KeyInMessage(env, m, full, at.place)
    else KeyInMessages(env, m.nested, full, at.path, at.place)
  }

  ghost predicate KeysInside(env: Env, m: MessageProto, full: string, keys: seq<ExtensionKey>, list: seq<Position>) {
    && |keys| == |list|
    && forall i | 0 <= i < |keys| ::
         HoldsField(list[i].place) && StandsInside(m, list[i]) && keys[i] == KeyInside(env, m, full, list[i])
  }

  ghost predicate KeysAmong(env: Env, messages: seq<MessageProto>, scope: string, keys: seq<ExtensionKey>,
                            list: seq<Position>)
  {
    && |keys| == |list|
    && forall i | 0 <= i < |keys| ::
         && HoldsField(list[i].place) && InMessages(messages, list[i].path, list[i].place)
         && keys[i] == KeyInMessages(env, messages, scope, list[i].path, list[i].place)
  }

  lemma OwnKeys(env: Env, m: MessageProto, full: string)
    ensures KeysInside(env, m, full, FieldKeys(env, m.fields, full, false) + FieldKeys(env, m.extensions, full, true),
                       OwnFields(m))
  {
    hide FieldKey, Under, Join;
    forall n { UnderIsJoin(full, n); }
  }

  lemma NestedKeys(env: Env, m: MessageProto, full: string)
    requires KeysAmong(env, m.nested, full, MessagesKeys(env, m.nested, full), FieldsAmong(m.nested))
    ensures KeysInside(env, m, full, MessagesKeys(env, m.nested, full), FieldsAmong(m.nested))
  {
    hide InMessages, FieldsAmong, MessagesKeys, KeyInMessages;
    var list := FieldsAmong(m.nested);
    forall i | 0 <= i < |list| ensures list[i].path != [] { PathIsThere(m.nested, list[i].path, list[i].place); }
  }

  lemma {:induction false} KeysOfMessage(env: Env, m: MessageProto, scope: string)
    ensures KeysInside(env, m, Under(scope, m.name), MessageKeys(env, m, scope), FieldsInside(m))
    decreases m, 0
  {
    hide Under, Join, KeysAmong, FieldsAmong, OwnFields, MessagesKeys, FieldKeys, StandsInside, KeyInside;
    var full := Join(scope, m.name);
    UnderIsJoin(scope, m.name);
    KeysOfMessages(env, m.nested, full);
    NestedKeys(env, m, full);
    OwnKeys(env, m, full);
  }

  lemma KeysGoDeeper(env: Env, messages: seq<MessageProto>, scope: string, keys: seq<ExtensionKey>, list: seq<Position>,
                     n: nat)
    requires n < |messages| && KeysInside(env, messages[n], Under(scope, messages[n].name), keys, list)
    ensures KeysAmong(env, messages, scope, keys, Deeper(n, list))
  {
    hide Under, KeyInMessage;
    var deeper := Deeper(n, list);
    forall i | 0 <= i < |list|
      ensures InMessages(messages, deeper[i].path, deeper[i].place)
      ensures KeyInMessages(env, messages, scope, deeper[i].path, deeper[i].place)
           == KeyInside(env, messages[n], Under(scope, messages[n].name), list[i])
    {
      assert deeper[i].path[1..] == list[i].path;
    }
  }

  lemma KeysOfFewer(env: Env, messages: seq<MessageProto>, scope: string, keys: seq<ExtensionKey>, list: seq<Position>,
                    n: nat)
    requires n <= |messages| && KeysAmong(env, messages[..n], scope, keys, list)
    ensures KeysAmong(env, messages, scope, keys, list)
  {
    hide Under, KeyInMessage;
  }

  lemma KeysJoin(env: Env, messages: seq<MessageProto>, scope: string, a: seq<ExtensionKey>, p: seq<Position>,
                 b: seq<ExtensionKey>, q: seq<Position>)
    requires KeysAmong(env, messages, scope, a, p) && KeysAmong(env, messages, scope, b, q)
    ensures KeysAmong(env, messages, scope, a + b, p + q)
  {
    hide InMessages, KeyInMessages;
  }

  lemma {:induction false} KeysOfMessages(env: Env, messages: seq<MessageProto>, scope: string)
    ensures KeysAmong(env, messages, scope, MessagesKeys(env, messages, scope), FieldsAmong(messages))
    decreases messages, 1
  {
    hide KeysAmong, KeysInside, MessageKeys, FieldsInside, Deeper, Under;
    if messages == [] {
      NoKeys(env, scope);
    } else {
      var n := |messages| - 1;
      KeysOfMessages(env, messages[..n], scope);
      KeysOfFewer(env, messages, scope, MessagesKeys(env, messages[..n], scope), FieldsAmong(messages[..n]), n);
      KeysOfMessage(env, messages[n], scope);
      KeysGoDeeper(env, messages, scope, MessageKeys(env, messages[n], scope), FieldsInside(messages[n]), n);
      KeysJoin(env, messages, scope, MessagesKeys(env, messages[..n], scope), FieldsAmong(messages[..n]),
               MessageKeys(env, messages[n], scope), Deeper(n, FieldsInside(messages[n])));
    }
  }

  lemma NoKeys(env: Env, scope: string)
    ensures KeysAmong(env, [], scope, [], [])
  {
  }

  lemma KeysOfFile(env: Env, proto: FileProto)
    ensures |FileKeys(env, proto)| == |FieldsOfFile(proto)|
    ensures forall i | 0 <= i < |FieldsOfFile(proto)| ::
      var at := FieldsOfFile(proto)[i];
      InFile(proto, at) && HoldsField(at.place) && FileKeys(env, proto)[i] == KeyInFile(env, proto, at)
  {
    hide FieldsAmong, MessagesKeys, KeyInMessages, FieldKey, InMessages, Under, Join;
    var scope := PackageOf(proto);
    KeysOfMessages(env, proto.messages, scope);
    var list := FieldsAmong(proto.messages);
    forall i | 0 <= i < |list| ensures list[i].path != [] {
      PathIsThere(proto.messages, list[i].path, list[i].place);
    }
    forall n { UnderIsJoin(scope, n); }
  }

  /** No number is used twice if and only if no two positions of the file have one. */
  lemma NumbersExactly(env: Env, proto: FileProto)
    ensures Unused({}, FileKeys(env, proto)) <==>
      forall a, b | InFile(proto, a) && InFile(proto, b) && HoldsField(a.place) && HoldsField(b.place) && a != b ::
        KeyInFile(env, proto, a) != KeyInFile(env, proto, b)
  {
    hide FileKeys, FieldsOfFile, KeyInFile, InFile;
    var keys, list := FileKeys(env, proto), FieldsOfFile(proto);
    KeysOfFile(env, proto);
    FileListed(proto);
    if Unused({}, keys) {
      forall a, b | InFile(proto, a) && InFile(proto, b) && HoldsField(a.place) && HoldsField(b.place) && a != b
        ensures KeyInFile(env, proto, a) != KeyInFile(env, proto, b)
      {
        assert a in list && b in list;
        var i, j :| 0 <= i < |list| && 0 <= j < |list| && list[i] == a && list[j] == b;
        assert i != j && keys[i] != keys[j];
      }
    }
    if forall a, b | InFile(proto, a) && InFile(proto, b) && HoldsField(a.place) && HoldsField(b.place) && a != b ::
         KeyInFile(env, proto, a) != KeyInFile(env, proto, b)
    {
      forall i, j | 0 <= i < j < |keys| ensures keys[i] != keys[j] { assert list[i] != list[j]; }
    }
  }

  // ----- Fields of one message, and extensions of one type -----

  /** The fields of one message have different numbers. */
  ghost predicate FieldsApart(proto: FileProto) {
    forall path: seq<nat>, i: nat, j: nat
      | InFile(proto, Position(path, FieldOf(i))) && InFile(proto, Position(path, FieldOf(j))) && i != j ::
      FieldAt(proto, Position(path, FieldOf(i))).number != FieldAt(proto, Position(path, FieldOf(j))).number
  }

  predicate IsExtension(proto: FileProto, at: Position) {
    InFile(proto, at) && at.place.ExtensionOf?
  }

  /** What the extension extends, once that is known to be there. */
  ghost function Extended(env: Env, proto: FileProto, at: Position): Ref
    requires IsExtension(proto, at) && FieldAt(proto, at).extendee.Some?
    requires Resolve(env, FieldAt(proto, at).extendee.value, NameAt(proto, at), LOOKUP_ALL).Some?
  {
    var e := Resolve(env, FieldAt(proto, at).extendee.value, NameAt(proto, at), LOOKUP_ALL).value;
    Ref(e.file, e.name)
  }

  ghost predicate ExtendsSomething(env: Env, proto: FileProto, at: Position)
    requires IsExtension(proto, at)
  {
    && FieldAt(proto, at).extendee.Some?
    && Resolve(env, FieldAt(proto, at).extendee.value, NameAt(proto, at), LOOKUP_ALL).Some?
  }

  /** The extensions of one type have different numbers, wherever in the file they are. */
  ghost predicate ExtensionsApart(env: Env, proto: FileProto) {
    forall a, b | IsExtension(proto, a) && IsExtension(proto, b) && a != b
                  && ExtendsSomething(env, proto, a) && ExtendsSomething(env, proto, b) ::
      Extended(env, proto, a) != Extended(env, proto, b) || FieldAt(proto, a).number != FieldAt(proto, b).number
  }

  lemma {:induction false} KeyIs(env: Env, messages: seq<MessageProto>, scope: string, path: seq<nat>, place: Place)
    requires InMessages(messages, path, place) && HoldsField(place)
    ensures InMessages(messages, path, Self)
    ensures KeyInMessages(env, messages, scope, path, place)
         == FieldKey(env, FieldInMessages(messages, path, place), NameInMessages(messages, scope, path, place),
                     if place.FieldOf? then Some(Ref(env.file, NameInMessages(messages, scope, path, Self))) else None)
    ensures SoundInMessages(messages, path, place) ==>
      ValidField(FieldInMessages(messages, path, place), place.ExtensionOf?)
    ensures SoundInMessages(messages, path, Self) ==> ValidRanges(MessageAlong(messages, path))
    ensures place.FieldOf? ==> FieldInMessages(messages, path, place) in MessageAlong(messages, path).fields
    decreases |path|
  {
    hide FieldKey, Under, ValidRanges, ValidField, ValidIdentifier;
    if |path| > 1 {
      KeyIs(env, messages[path[0]].nested, Under(scope, messages[path[0]].name), path[1..], place);
    }
  }

  lemma FieldHasKey(env: Env, proto: FileProto, at: Position)
    requires InFile(proto, at) && at.place.FieldOf? && SoundAt(proto, at)
    ensures InFile(proto, Position(at.path, Self))
    ensures KeyInFile(env, proto, at)
         == (Some(Ref(env.file, NameAt(proto, Position(at.path, Self)))), FieldAt(proto, at).number)
  {
    hide InMessages, NameInMessages, SoundInMessages, KeyInMessages, FieldInMessages, Resolve;
    KeyIs(env, proto.messages, PackageOf(proto), at.path, at.place);
  }

  lemma ExtensionHasKey(env: Env, proto: FileProto, at: Position)
    requires IsExtension(proto, at) && SoundAt(proto, at)
    requires FieldRefers(env, FieldAt(proto, at), NameAt(proto, at))
    ensures ExtendsSomething(env, proto, at)
    ensures KeyInFile(env, proto, at) == (Some(Extended(env, proto, at)), FieldAt(proto, at).number)
  {
    hide InMessages, NameInMessages, SoundInMessages, KeyInMessages, FieldInMessages, Resolve, TypeThere, LeavesNumber;
    if at.path != [] { KeyIs(env, proto.messages, PackageOf(proto), at.path, at.place); }
  }

  /** No extension of a message of this file has the number of one of its fields. */
  lemma NumberIsLeft(env: Env, proto: FileProto, a: Position, b: Position)
    requires Acceptable({}, proto) && env.file in env.descs && env.descs[env.file].proto == proto
    requires InFile(proto, a) && a.place.FieldOf? && IsExtension(proto, b)
    requires FieldRefers(env, FieldAt(proto, b), NameAt(proto, b))
    ensures KeyInFile(env, proto, a) != KeyInFile(env, proto, b)
  {
    hide InMessages, NameInMessages, SoundInMessages, KeyInMessages, FieldInMessages, Resolve, TypeThere, MessageAlong,
      NameAt;
    FieldHasKey(env, proto, a);
    ExtensionHasKey(env, proto, b);
    NumberNotLeft(proto, a);
  }

  lemma NumberNotLeft(proto: FileProto, a: Position)
    requires Acceptable({}, proto) && InFile(proto, a) && a.place.FieldOf?
    ensures InFile(proto, Position(a.path, Self))
    ensures !LeavesNumber(proto, NameAt(proto, Position(a.path, Self)), FieldAt(proto, a).number)
  {
    hide InMessages, NameAt, SoundAt, IsLeft, MessageAlong, FieldAt;
    FieldOutOfRanges(proto, a);
    var holder := NameAt(proto, Position(a.path, Self));
    forall path | StandsAt(proto, path, holder) ensures path == a.path {
      assert Position(path, Self) == Position(a.path, Self);
    }
  }

  lemma FieldOutOfRanges(proto: FileProto, a: Position)
    requires Acceptable({}, proto) && InFile(proto, a) && a.place.FieldOf?
    ensures InFile(proto, Position(a.path, Self)) && InMessages(proto.messages, a.path, Self)
    ensures !IsLeft(MessageAlong(proto.messages, a.path), FieldAt(proto, a).number)
  {
    hide InMessages, NameInMessages, SoundInMessages, FieldInMessages, MessageAlong, NameAt;
    var env := Env(map[], map[], 0, {}, false);
    KeyIs(env, proto.messages, PackageOf(proto), a.path, a.place);
    assert SoundAt(proto, Position(a.path, Self));
  }

  /**
   * A file all of which is well-formed and refers to what there is uses no number twice if and only if the fields of
   * each of its messages have different numbers, and its extensions of each type; fields and extensions never clash.
   */
  lemma NumbersMean(env: Env, proto: FileProto)
    requires Acceptable({}, proto) && env.file in env.descs && env.descs[env.file].proto == proto
    requires FieldsRefer(env, proto)
    ensures Unused({}, FileKeys(env, proto)) <==> FieldsApart(proto) && ExtensionsApart(env, proto)
  {
    hide FileKeys, KeyInFile, InFile, NameAt, FieldAt, SoundAt, FieldRefers, Resolve, Unused, FieldsApart,
      ExtensionsApart;
    NumbersExactly(env, proto);
    if Unused({}, FileKeys(env, proto)) {
      KeysApart(env, proto);
    }
    if FieldsApart(proto) && ExtensionsApart(env, proto) {
      forall a, b | InFile(proto, a) && InFile(proto, b) && HoldsField(a.place) && HoldsField(b.place) && a != b
        ensures KeyInFile(env, proto, a) != KeyInFile(env, proto, b)
      {
        if a.place.FieldOf? && b.place.FieldOf? {
          FieldKeysApart(env, proto, a, b);
        } else if a.place.FieldOf? {
          NumberIsLeft(env, proto, a, b);
        } else if b.place.FieldOf? {
          NumberIsLeft(env, proto, b, a);
        } else {
          ExtensionKeysApart(env, proto, a, b);
        }
      }
    }
  }

  lemma FieldKeysApart(env: Env, proto: FileProto, a: Position, b: Position)
    requires Acceptable({}, proto) && FieldsApart(proto)
    requires InFile(proto, a) && InFile(proto, b) && a.place.FieldOf? && b.place.FieldOf? && a != b
    ensures KeyInFile(env, proto, a) != KeyInFile(env, proto, b)
  {
    hide KeyInFile, InFile, NameAt, FieldAt, SoundAt;
    FieldHasKey(env, proto, a);
    FieldHasKey(env, proto, b);
    if a.path == b.path {
      assert a == Position(a.path, FieldOf(a.place.i)) && b == Position(a.path, FieldOf(b.place.i));
    } else {
      assert Position(a.path, Self) != Position(b.path, Self);
    }
  }

  lemma ExtensionKeysApart(env: Env, proto: FileProto, a: Position, b: Position)
    requires Acceptable({}, proto) && FieldsRefer(env, proto) && ExtensionsApart(env, proto)
    requires IsExtension(proto, a) && IsExtension(proto, b) && a != b
    ensures KeyInFile(env, proto, a) != KeyInFile(env, proto, b)
  {
    hide KeyInFile, InFile, NameAt, FieldAt, SoundAt, FieldRefers, Resolve;
    ExtensionHasKey(env, proto, a);
    ExtensionHasKey(env, proto, b);
  }

  lemma KeysApart(env: Env, proto: FileProto)
    requires Acceptable({}, proto) && FieldsRefer(env, proto)
    requires forall a, b
               | InFile(proto, a) && InFile(proto, b) && HoldsField(a.place) && HoldsField(b.place) && a != b ::
               KeyInFile(env, proto, a) != KeyInFile(env, proto, b)
    ensures FieldsApart(proto) && ExtensionsApart(env, proto)
  {
    hide KeyInFile, InFile, NameAt, FieldAt, SoundAt, FieldRefers, Resolve;
    forall path: seq<nat>, i: nat, j: nat
      | InFile(proto, Position(path, FieldOf(i))) && InFile(proto, Position(path, FieldOf(j))) && i != j
      ensures FieldAt(proto, Position(path, FieldOf(i))).number != FieldAt(proto, Position(path, FieldOf(j))).number
    {
      FieldHasKey(env, proto, Position(path, FieldOf(i)));
      FieldHasKey(env, proto, Position(path, FieldOf(j)));
    }
    forall a, b | IsExtension(proto, a) && IsExtension(proto, b) && a != b
                  && ExtendsSomething(env, proto, a) && ExtendsSomething(env, proto, b)
      ensures Extended(env, proto, a) != Extended(env, proto, b) || FieldAt(proto, a).number != FieldAt(proto, b).number
    {
      ExtensionHasKey(env, proto, a);
      ExtensionHasKey(env, proto, b);
    }
  }
}
