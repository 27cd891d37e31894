/** What the references of a file have to mean, position by position. */
module References {
  import opened Names
  import opened OrderedMaps
  import opened Protos
  import opened PoolTables
  import opened SymbolOwnership
  import opened Declarations
  import opened ScopeLookup

  // ----- Every field and every method is linked -----

  predicate HoldsField(place: Place) {
    place.FieldOf? || place.ExtensionOf?
  }

  function FieldInMessages(messages: seq<MessageProto>, path: seq<nat>, place: Place): FieldProto
    requires InMessages(messages, path, place) && HoldsField(place)
    decreases |path|
  {
    var m := messages[path[0]];
    if |path| > 1 then FieldInMessages(m.nested, path[1..], place)
    else if place.FieldOf? then m.fields[place.i] else m.extensions[place.i]
  }

  function FieldAt(proto: FileProto, at: Position): FieldProto
    requires InFile(proto, at) && HoldsField(at.place)
  {
    if at.path == [] then proto.extensions[at.place.i] else FieldInMessages(proto.messages, at.path, at.place)
  }

  ghost predicate AllLink(env: Env, messages: seq<MessageProto>, scope: string) {
    forall path, place | InMessages(messages, path, place) && HoldsField(place) ::
      FieldLinks(env, FieldInMessages(messages, path, place), NameInMessages(messages, scope, path, place))
  }

  lemma {:induction false} LinkedAt(env: Env, messages: seq<MessageProto>, scope: string, path: seq<nat>, place: Place)
    requires MessagesLink(env, messages, scope) && InMessages(messages, path, place) && HoldsField(place)
    ensures FieldLinks(env, FieldInMessages(messages, path, place), NameInMessages(messages, scope, path, place))
    decreases |path|
  {
    hide FieldLinks, Join, Under;
    var m := messages[path[0]];
    UnderIsJoin(scope, m.name);
    var full := Join(scope, m.name);
    assert MessageLinks(env, m, scope);
    if |path| > 1 {
      LinkedAt(env, m.nested, full, path[1..], place);
    } else if place.FieldOf? {
      UnderIsJoin(full, m.fields[place.i].name);
    } else {
      UnderIsJoin(full, m.extensions[place.i].name);
    }
  }

  lemma FieldsLinkAt(env: Env, messages: seq<MessageProto>, scope: string, i: nat)
    requires AllLink(env, messages, scope) && i < |messages|
    ensures var m := messages[i];
      FieldsLink(env, m.fields, Join(scope, m.name)) && FieldsLink(env, m.extensions, Join(scope, m.name))
  {
    hide FieldLinks, Join, Under;
    var m := messages[i];
    var full := Join(scope, m.name);
    UnderIsJoin(scope, m.name);
    forall j | 0 <= j < |m.fields| ensures FieldLinks(env, m.fields[j], Join(full, m.fields[j].name)) {
      assert InMessages(messages, [i], FieldOf(j));
      UnderIsJoin(full, m.fields[j].name);
    }
    forall j | 0 <= j < |m.extensions| ensures FieldLinks(env, m.extensions[j], Join(full, m.extensions[j].name)) {
      assert InMessages(messages, [i], ExtensionOf(j));
      UnderIsJoin(full, m.extensions[j].name);
    }
  }

  lemma NestedLinkAt(env: Env, messages: seq<MessageProto>, scope: string, i: nat)
    requires AllLink(env, messages, scope) && i < |messages|
    ensures AllLink(env, messages[i].nested, Join(scope, messages[i].name))
  {
    hide FieldLinks, Join, Under;
    var m := messages[i];
    UnderIsJoin(scope, m.name);
    forall path, place | InMessages(m.nested, path, place) && HoldsField(place)
      ensures FieldLinks(env, FieldInMessages(m.nested, path, place),
                         NameInMessages(m.nested, Join(scope, m.name), path, place))
    {
      var longer := [i] + path;
      assert longer[1..] == path;
      assert InMessages(messages, longer, place);
    }
  }

  lemma {:induction false} AllLinked(env: Env, messages: seq<MessageProto>, scope: string)
    requires AllLink(env, messages, scope)
    ensures MessagesLink(env, messages, scope)
    decreases messages
  {
    hide AllLink, FieldsLink, Join;
    forall i | 0 <= i < |messages| ensures MessageLinks(env, messages[i], scope) {
      FieldsLinkAt(env, messages, scope, i);
      NestedLinkAt(env, messages, scope, i);
      AllLinked(env, messages[i].nested, Join(scope, messages[i].name));
    }
  }

  ghost predicate FieldsAllLink(env: Env, proto: FileProto) {
    forall at | InFile(proto, at) && HoldsField(at.place) :: FieldLinks(env, FieldAt(proto, at), NameAt(proto, at))
  }

  ghost predicate MethodsAllLink(env: Env, proto: FileProto) {
    forall i: nat, j: nat | InFile(proto, Position([], MethodOf(i, j))) ::
      MethodLinks(env, proto.services[i].methods[j], NameAt(proto, Position([], ServiceOf(i))))
  }

  /** A file links if and only if each field and extension at each of its positions does, and each of its methods. */
  lemma LinksExactly(env: Env, proto: FileProto)
    ensures FileLinks(env, proto) <==> FieldsAllLink(env, proto) && MethodsAllLink(env, proto)
  {
    hide MessagesLink, FieldsLink, ServiceLinks, FieldsAllLink, MethodsAllLink;
    FieldsLinkExactly(env, proto);
    ServicesLinkExactly(env, proto);
  }

  lemma FieldsLinkExactly(env: Env, proto: FileProto)
    ensures FieldsAllLink(env, proto) <==>
      MessagesLink(env, proto.messages, PackageOf(proto)) && FieldsLink(env, proto.extensions, PackageOf(proto))
  {
    hide FieldLinks, MessagesLink, Join, Under, InMessages, FieldInMessages, NameInMessages;
    var scope := PackageOf(proto);
    forall n { UnderIsJoin(scope, n); }
    if FieldsAllLink(env, proto) {
      forall path, place | InMessages(proto.messages, path, place) && HoldsField(place)
        ensures FieldLinks(env, FieldInMessages(proto.messages, path, place),
                           NameInMessages(proto.messages, scope, path, place))
      {
        PathIsThere(proto.messages, path, place);
        assert InFile(proto, Position(path, place));
      }
      AllLinked(env, proto.messages, scope);
      forall i | 0 <= i < |proto.extensions|
        ensures FieldLinks(env, proto.extensions[i], Join(scope, proto.extensions[i].name))
      {
        assert InFile(proto, Position([], ExtensionOf(i)));
      }
    }
    if MessagesLink(env, proto.messages, scope) && FieldsLink(env, proto.extensions, scope) {
      forall at | InFile(proto, at) && HoldsField(at.place)
        ensures FieldLinks(env, FieldAt(proto, at), NameAt(proto, at))
      {
        if at.path != [] { LinkedAt(env, proto.messages, scope, at.path, at.place); }
      }
    }
  }

  lemma ServicesLinkExactly(env: Env, proto: FileProto)
    ensures MethodsAllLink(env, proto) <==>
      forall i | 0 <= i < |proto.services| :: ServiceLinks(env, proto.services[i], PackageOf(proto))
  {
    hide MethodLinks, Join, Under;
    var scope := PackageOf(proto);
    forall n { UnderIsJoin(scope, n); }
    if MethodsAllLink(env, proto) {
      forall i, j | 0 <= i < |proto.services| && 0 <= j < |proto.services[i].methods|
        ensures MethodLinks(env, proto.services[i].methods[j], Join(scope, proto.services[i].name))
      {
        assert InFile(proto, Position([], MethodOf(i, j)));
      }
    }
    if forall i | 0 <= i < |proto.services| :: ServiceLinks(env, proto.services[i], scope) {
      forall i: nat, j: nat | InFile(proto, Position([], MethodOf(i, j)))
        ensures MethodLinks(env, proto.services[i].methods[j], NameAt(proto, Position([], ServiceOf(i))))
      {
        assert ServiceLinks(env, proto.services[i], scope);
      }
    }
  }

  // ----- Looking declarations up by their full names -----

  function MessageAlong(messages: seq<MessageProto>, path: seq<nat>): MessageProto
    requires InMessages(messages, path, Self)
    decreases |path|
  {
    if |path| == 1 then messages[path[0]] else MessageAlong(messages[path[0]].nested, path[1..])
  }

  /** The message at this path has this full name. */
  ghost predicate MessageIs(messages: seq<MessageProto>, scope: string, path: seq<nat>, name: string) {
    InMessages(messages, path, Self) && NameInMessages(messages, scope, path, Self) == name
  }

  /** One message further into a list. */
  function Later(path: seq<nat>): seq<nat>
    requires path != []
  {
    [path[0] + 1] + path[1..]
  }

  lemma LaterIs(messages: seq<MessageProto>, scope: string, path: seq<nat>, place: Place)
    requires messages != [] && InMessages(messages[1..], path, place)
    ensures InMessages(messages, Later(path), place)
    ensures NameInMessages(messages, scope, Later(path), place) == NameInMessages(messages[1..], scope, path, place)
    ensures InMessages(messages[1..], path, Self) && InMessages(messages, Later(path), Self) ==>
      MessageAlong(messages, Later(path)) == MessageAlong(messages[1..], path)
  {
    assert Later(path)[1..] == path[1..];
  }

  lemma InsideIs(messages: seq<MessageProto>, scope: string, path: seq<nat>, place: Place)
    requires messages != [] && InMessages(messages[0].nested, path, place)
    ensures InMessages(messages, [0] + path, place)
    ensures NameInMessages(messages, scope, [0] + path, place)
         == NameInMessages(messages[0].nested, Under(scope, messages[0].name), path, place)
    ensures InMessages(messages[0].nested, path, Self) && InMessages(messages, [0] + path, Self) ==>
      MessageAlong(messages, [0] + path) == MessageAlong(messages[0].nested, path)
  {
    PathIsThere(messages[0].nested, path, place);
    assert ([0] + path)[1..] == path;
  }

  /** A message that is found stands at a position of that name; one that is not found stands at none. */
  lemma {:induction false} MessageFound(messages: seq<MessageProto>, scope: string, name: string)
    ensures var found := MessageAt(messages, scope, name);
      if found.Some? then exists path :: MessageIs(messages, scope, path, name)
                                         && MessageAlong(messages, path) == found.value
      else forall path :: !MessageIs(messages, scope, path, name)
    decreases messages
  {
    if messages != [] {
      var first, rest := messages[0], messages[1..];
      var full := Join(scope, first.name);
      UnderIsJoin(scope, first.name);
      MessageFound(first.nested, full, name);
      MessageFound(rest, scope, name);
      if full == name {
        assert MessageIs(messages, scope, [0], name) && MessageAlong(messages, [0]) == first;
      } else if MessageAt(first.nested, full, name).Some? {
        var path :| MessageIs(first.nested, full, path, name)
                    && MessageAlong(first.nested, path) == MessageAt(first.nested, full, name).value;
        InsideIs(messages, scope, path, Self);
        assert MessageIs(messages, scope, [0] + path, name);
      } else if MessageAt(rest, scope, name).Some? {
        var path :| MessageIs(rest, scope, path, name)
                    && MessageAlong(rest, path) == MessageAt(rest, scope, name).value;
        PathIsThere(rest, path, Self);
        LaterIs(messages, scope, path, Self);
        assert MessageIs(messages, scope, Later(path), name);
      } else {
        forall path | MessageIs(messages, scope, path, name) ensures false { NoMessage(messages, scope, path, name); }
      }
    }
  }

  lemma NoMessage(messages: seq<MessageProto>, scope: string, path: seq<nat>, name: string)
    requires messages != [] && MessageIs(messages, scope, path, name)
    ensures var full := Under(scope, messages[0].name);
      || full == name || (path != [] && MessageIs(messages[0].nested, full, path[1..], name))
      || exists other :: MessageIs(messages[1..], scope, other, name)
  {
    hide Under;
    if path[0] > 0 {
      var other := [path[0] - 1] + path[1..];
      assert other[1..] == path[1..];
      assert MessageIs(messages[1..], scope, other, name);
    }
  }

  ghost predicate StandsAt(proto: FileProto, path: seq<nat>, name: string) {
    InFile(proto, Position(path, Self)) && NameAt(proto, Position(path, Self)) == name
  }

  /** The number is in one of the ranges that the message leaves to extensions: from the first to before the end. */
  predicate IsLeft(m: MessageProto, number: int) {
    exists k :: 0 <= k < |m.ranges| && m.ranges[k].0 <= number < m.ranges[k].1
  }

  /** A message of the file with this full name leaves the number to extensions. */
  ghost predicate LeavesNumber(proto: FileProto, name: string, number: int) {
    exists path :: StandsAt(proto, path, name) && IsLeft(MessageAlong(proto.messages, path), number)
  }

  /** A descriptor made from a file that builds. */
  ghost predicate SoundDesc(d: FileDesc) {
    d.package == PackageOf(d.proto) && Acceptable({}, d.proto)
  }

  lemma StandsIs(proto: FileProto, path: seq<nat>, name: string)
    ensures StandsAt(proto, path, name) <==> MessageIs(proto.messages, PackageOf(proto), path, name)
  {
    hide NameInMessages, MessageAlong;
    if InMessages(proto.messages, path, Self) { PathIsThere(proto.messages, path, Self); }
  }

  lemma NumberLeftExactly(descs: map<Id, FileDesc>, message: Ref, number: int)
    requires message.file in descs && SoundDesc(descs[message.file])
    ensures DeclaresNumber(descs, message, number) <==> LeavesNumber(descs[message.file].proto, message.name, number)
  {
    hide MessageAt, InFile, NameAt, SoundAt, InMessages, NameInMessages, MessageAlong;
    var d := descs[message.file];
    var proto := d.proto;
    var found := MessageAt(proto.messages, d.package, message.name);
    MessageFound(proto.messages, d.package, message.name);
    forall path { StandsIs(proto, path, message.name); }
    if found.Some? {
      var path :| MessageIs(proto.messages, d.package, path, message.name)
                  && MessageAlong(proto.messages, path) == found.value;
      assert StandsAt(proto, path, message.name);
      forall other | StandsAt(proto, other, message.name) ensures other == path {
        assert Position(other, Self) == Position(path, Self);
      }
    }
  }

  // ----- Enums and their values -----

  function EnumInMessages(messages: seq<MessageProto>, path: seq<nat>, i: nat): EnumProto
    requires InMessages(messages, path, EnumOf(i))
    decreases |path|
  {
    var m := messages[path[0]];
    if |path| > 1 then EnumInMessages(m.nested, path[1..], i) else m.enums[i]
  }

  ghost predicate EnumIs(messages: seq<MessageProto>, scope: string, path: seq<nat>, i: nat, name: string) {
    InMessages(messages, path, EnumOf(i)) && NameInMessages(messages, scope, path, EnumOf(i)) == name
  }

  lemma {:induction false} EnumNamedIs(enums: seq<EnumProto>, scope: string, name: string)
    ensures var found := EnumNamed(enums, scope, name);
      if found.Some? then exists i: nat :: i < |enums| && enums[i] == found.value && Under(scope, enums[i].name) == name
      else forall i | 0 <= i < |enums| :: Under(scope, enums[i].name) != name
    decreases |enums|
  {
    hide Under, Join;
    if enums != [] {
      UnderIsJoin(scope, enums[0].name);
      EnumNamedIs(enums[1..], scope, name);
      if Join(scope, enums[0].name) != name && EnumNamed(enums[1..], scope, name).Some? {
        var i: nat :| i < |enums[1..]| && enums[1..][i] == EnumNamed(enums[1..], scope, name).value
                      && Under(scope, enums[1..][i].name) == name;
        assert enums[i + 1] == enums[1..][i];
      } else if EnumNamed(enums[1..], scope, name).None? {
        forall i | 0 < i < |enums| ensures Under(scope, enums[i].name) != name { assert enums[i] == enums[1..][i - 1]; }
      }
    }
  }

  lemma LaterEnum(messages: seq<MessageProto>, path: seq<nat>, i: nat)
    requires messages != [] && InMessages(messages[1..], path, EnumOf(i))
    requires InMessages(messages, Later(path), EnumOf(i))
    ensures EnumInMessages(messages, Later(path), i) == EnumInMessages(messages[1..], path, i)
  {
    assert Later(path)[1..] == path[1..];
  }

  lemma InsideEnum(messages: seq<MessageProto>, path: seq<nat>, i: nat)
    requires messages != [] && InMessages(messages[0].nested, path, EnumOf(i))
    requires InMessages(messages, [0] + path, EnumOf(i))
    ensures EnumInMessages(messages, [0] + path, i) == EnumInMessages(messages[0].nested, path, i)
  {
    PathIsThere(messages[0].nested, path, EnumOf(i));
    assert ([0] + path)[1..] == path;
  }

  /** An enum that is found stands at a position of that name; one that is not found stands at none. */
  lemma {:induction false} EnumFound(messages: seq<MessageProto>, scope: string, name: string)
    ensures var found := EnumInside(messages, scope, name);
      if found.Some? then exists path, i: nat :: EnumIs(messages, scope, path, i, name)
                                                 && EnumInMessages(messages, path, i) == found.value
      else forall path, i: nat :: !EnumIs(messages, scope, path, i, name)
    decreases messages
  {
    hide Join, Under;
    if messages != [] {
      var first, rest := messages[0], messages[1..];
      var full := Join(scope, first.name);
      UnderIsJoin(scope, first.name);
      EnumNamedIs(first.enums, full, name);
      EnumFound(first.nested, full, name);
      EnumFound(rest, scope, name);
      if EnumNamed(first.enums, full, name).Some? {
        var i: nat :| i < |first.enums| && first.enums[i] == EnumNamed(first.enums, full, name).value
                      && Under(full, first.enums[i].name) == name;
        assert EnumIs(messages, scope, [0], i, name) && EnumInMessages(messages, [0], i) == first.enums[i];
      } else if EnumInside(first.nested, full, name).Some? {
        var path, i: nat :| EnumIs(first.nested, full, path, i, name)
                            && EnumInMessages(first.nested, path, i) == EnumInside(first.nested, full, name).value;
        InsideIs(messages, scope, path, EnumOf(i));
        InsideEnum(messages, path, i);
        assert EnumIs(messages, scope, [0] + path, i, name);
      } else if EnumInside(rest, scope, name).Some? {
        var path, i: nat :| EnumIs(rest, scope, path, i, name)
                            && EnumInMessages(rest, path, i) == EnumInside(rest, scope, name).value;
        PathIsThere(rest, path, EnumOf(i));
        LaterIs(messages, scope, path, EnumOf(i));
        LaterEnum(messages, path, i);
        assert EnumIs(messages, scope, Later(path), i, name);
      } else {
        forall path, i: nat | EnumIs(messages, scope, path, i, name) ensures false {
          NoEnum(messages, scope, path, i, name);
        }
      }
    }
  }

  lemma NoEnum(messages: seq<MessageProto>, scope: string, path: seq<nat>, i: nat, name: string)
    requires messages != [] && EnumIs(messages, scope, path, i, name)
    ensures var full := Under(scope, messages[0].name);
      || (i < |messages[0].enums| && Under(full, messages[0].enums[i].name) == name)
      || (path != [] && EnumIs(messages[0].nested, full, path[1..], i, name))
      || exists other :: EnumIs(messages[1..], scope, other, i, name)
  {
    hide Under;
    if path[0] > 0 {
      var other := [path[0] - 1] + path[1..];
      assert other[1..] == path[1..];
      assert EnumIs(messages[1..], scope, other, i, name);
    }
  }

  /** The full name of what holds the members at this path: a message, or the file's package. */
  function HolderOf(proto: FileProto, path: seq<nat>): string
    requires path == [] || InMessages(proto.messages, path, Self)
  {
    if path == [] then PackageOf(proto) else NameInMessages(proto.messages, PackageOf(proto), path, Self)
  }

  function EnumAt(proto: FileProto, path: seq<nat>, i: nat): EnumProto
    requires InFile(proto, Position(path, EnumOf(i)))
  {
    if path == [] then proto.enums[i] else EnumInMessages(proto.messages, path, i)
  }

  lemma {:induction false} EnumStandsInMessages(messages: seq<MessageProto>, scope: string, path: seq<nat>, i: nat)
    requires InMessages(messages, path, EnumOf(i))
    ensures InMessages(messages, path, Self)
    ensures var e, holder := EnumInMessages(messages, path, i), NameInMessages(messages, scope, path, Self);
      && NameInMessages(messages, scope, path, EnumOf(i)) == Under(holder, e.name)
      && (SoundInMessages(messages, path, EnumOf(i)) ==> ValidIdentifier(e.name))
      && (forall j: nat :: InMessages(messages, path, ValueOf(i, j)) <==> j < |e.values|)
      && forall j: nat | j < |e.values| ::
           NameInMessages(messages, scope, path, ValueOf(i, j)) == Under(holder, e.values[j])
    decreases |path|
  {
    hide Under;
    if |path| > 1 {
      EnumStandsInMessages(messages[path[0]].nested, Under(scope, messages[path[0]].name), path[1..], i);
    }
  }

  lemma EnumStands(proto: FileProto, path: seq<nat>, i: nat)
    requires InFile(proto, Position(path, EnumOf(i)))
    ensures path == [] || InMessages(proto.messages, path, Self)
    ensures var e, holder := EnumAt(proto, path, i), HolderOf(proto, path);
      && NameAt(proto, Position(path, EnumOf(i))) == Under(holder, e.name)
      && (SoundAt(proto, Position(path, EnumOf(i))) ==> ValidIdentifier(e.name))
      && (forall j: nat :: InFile(proto, Position(path, ValueOf(i, j))) <==> j < |e.values|)
      && forall j: nat | j < |e.values| ::
           NameAt(proto, Position(path, ValueOf(i, j))) == Under(holder, e.values[j])
  {
    hide Under;
    if path != [] { EnumStandsInMessages(proto.messages, PackageOf(proto), path, i); }
  }

  /** An enum and one of its values stand in the file under these names. */
  ghost predicate ValueStands(proto: FileProto, path: seq<nat>, i: nat, j: nat, enum: string, value: string) {
    && InFile(proto, Position(path, EnumOf(i))) && NameAt(proto, Position(path, EnumOf(i))) == enum
    && InFile(proto, Position(path, ValueOf(i, j))) && NameAt(proto, Position(path, ValueOf(i, j))) == value
  }

  lemma SearchedStands(file: FileDesc, enum: string)
    requires file.package == PackageOf(file.proto)
    ensures var proto, found := file.proto, EnumSearched(file, enum);
      if found.Some?
      then exists path, i: nat :: InFile(proto, Position(path, EnumOf(i)))
                                  && NameAt(proto, Position(path, EnumOf(i))) == enum
                                  && EnumAt(proto, path, i) == found.value
      else forall path, i: nat | InFile(proto, Position(path, EnumOf(i))) ::
             NameAt(proto, Position(path, EnumOf(i))) != enum
  {
    hide Under, EnumNamed, EnumInside, InMessages, NameInMessages, EnumInMessages;
    var proto := file.proto;
    EnumNamedIs(proto.enums, file.package, enum);
    EnumFound(proto.messages, file.package, enum);
    if EnumNamed(proto.enums, file.package, enum).Some? {
      var i: nat :| i < |proto.enums| && proto.enums[i] == EnumNamed(proto.enums, file.package, enum).value
                    && Under(file.package, proto.enums[i].name) == enum;
      assert InFile(proto, Position([], EnumOf(i)));
    } else if EnumInside(proto.messages, file.package, enum).Some? {
      var path, i: nat :| EnumIs(proto.messages, file.package, path, i, enum)
        && EnumInMessages(proto.messages, path, i) == EnumInside(proto.messages, file.package, enum).value;
      PathIsThere(proto.messages, path, EnumOf(i));
      assert InFile(proto, Position(path, EnumOf(i)));
    } else {
      forall path, i: nat | InFile(proto, Position(path, EnumOf(i)))
        ensures NameAt(proto, Position(path, EnumOf(i))) != enum
      {
        if path != [] { assert !EnumIs(proto.messages, file.package, path, i, enum); }
      }
    }
  }

  /** Where the values of an enum are: beside it. */
  lemma BesideIs(holder: string, name: string)
    requires ValidIdentifier(name)
    ensures Beside(Under(holder, name)) == holder
  {
    assert NoDot(name);
    if holder != "" { ParentOfJoined(holder, name); }
  }

  lemma ValueIsBeside(file: FileDesc, enum: string, value: string, path: seq<nat>, i: nat)
    requires SoundDesc(file) && InFile(file.proto, Position(path, EnumOf(i)))
    requires NameAt(file.proto, Position(path, EnumOf(i))) == enum
    requires EnumSearched(file, enum) == Some(EnumAt(file.proto, path, i))
    ensures HasValue(file, enum, value) <==> exists j: nat :: ValueStands(file.proto, path, i, j, enum, value)
  {
    hide InFile, NameAt, SoundAt, EnumSearched, EnumAt, Beside, HolderOf, Join, Under, ValidIdentifier;
    EnumStands(file.proto, path, i);
    var e, holder := EnumAt(file.proto, path, i), HolderOf(file.proto, path);
    BesideIs(holder, e.name);
    forall v ensures Under(holder, v) == Join(holder, v) { UnderIsJoin(holder, v); }
    if j :| 0 <= j < |e.values| && Join(holder, e.values[j]) == value {
      assert ValueStands(file.proto, path, i, j, enum, value);
    }
    if j: nat :| ValueStands(file.proto, path, i, j, enum, value) {
      assert Join(holder, e.values[j]) == value;
    }
  }

  /** A value is found among those of an enum if and only if the file has both, the value listed with the enum. */
  lemma ValueExactly(file: FileDesc, enum: string, value: string)
    requires SoundDesc(file)
    ensures HasValue(file, enum, value)
       <==> exists path, i: nat, j: nat :: ValueStands(file.proto, path, i, j, enum, value)
  {
    hide InFile, NameAt, SoundAt, EnumSearched, EnumAt, Beside, HolderOf, Join;
    var proto := file.proto;
    SearchedStands(file, enum);
    var found := EnumSearched(file, enum);
    if found.Some? {
      var path, i: nat :| InFile(proto, Position(path, EnumOf(i))) && NameAt(proto, Position(path, EnumOf(i))) == enum
                          && EnumAt(proto, path, i) == found.value;
      ValueIsBeside(file, enum, value, path, i);
      forall other, k: nat, j: nat | ValueStands(proto, other, k, j, enum, value) ensures other == path && k == i {
        assert Position(other, EnumOf(k)) == Position(path, EnumOf(i));
      }
    }
  }

  // ----- What a field or a method refers to -----

  /** The file of every symbol in the table has a sound descriptor. */
  ghost predicate SoundEnv(env: Env) {
    forall n | n in env.symbols :: env.symbols[n].file in env.descs && SoundDesc(env.descs[env.symbols[n].file])
  }

  /** A type of the kind that is declared: a message, an enum, or either when nothing is said. */
  predicate AsDeclared(t: FieldType, kind: Kind) {
    (t, kind) in {(Unset, MESSAGE), (Unset, ENUM), (MessageType, MESSAGE), (EnumType, ENUM)}
  }

  /** The name is found, from the enum outwards, and stands among the values of the enum in its file. */
  ghost predicate DefaultThere(env: Env, enum: Symbol, name: string) {
    && enum.kind == ENUM && enum.file in env.descs
    && var v := Resolve(env, name, enum.name, LOOKUP_ALL);
       && v.Some? && v.value.kind == ENUM_VALUE && v.value.file == enum.file
       && exists path, i: nat, j: nat :: ValueStands(env.descs[enum.file].proto, path, i, j, enum.name, v.value.name)
  }

  /** A field with a type name refers to a type that is as declared; one without is not of a named type. */
  ghost predicate TypeThere(env: Env, f: FieldProto, full: string) {
    && (f.typeName.None? ==> f.fieldType in {Unset, Primitive})
    && (f.typeName.Some? ==>
          var t := Resolve(env, f.typeName.value, full, LOOKUP_TYPES);
          && t.Some? && AsDeclared(f.fieldType, t.value.kind)
          && (f.defaultValue.Some? ==> DefaultThere(env, t.value, f.defaultValue.value)))
  }

  /** What is extended is a message, which has the number among those it leaves to extensions. */
  ghost predicate ExtendeeThere(env: Env, f: FieldProto, full: string) {
    f.extendee.Some? ==>
      var e := Resolve(env, f.extendee.value, full, LOOKUP_ALL);
      && e.Some? && e.value.kind == MESSAGE && e.value.file in env.descs
      && LeavesNumber(env.descs[e.value.file].proto, e.value.name, f.number)
  }

  ghost predicate FieldRefers(env: Env, f: FieldProto, full: string) {
    TypeThere(env, f, full) && ExtendeeThere(env, f, full)
  }

  ghost predicate MethodRefers(env: Env, m: MethodProto, full: string) {
    forall name | name in {m.input, m.output} ::
      var t := Resolve(env, name, full, LOOKUP_ALL); t.Some? && t.value.kind == MESSAGE
  }

  /** What a lookup answers is a symbol of the table. */
  lemma {:induction false} ResolvedIsThere(env: Env, name: string, scope: string, mode: ResolveMode)
    ensures var r := ResolveFrom(env, name, scope, mode);
      r.Some? ==> exists n :: n in env.symbols && env.symbols[n] == r.value
    decreases |scope|
  {
    hide MayUse;
    if LastDot(scope) >= 0 { ResolvedIsThere(env, name, Parent(scope), mode); }
  }

  lemma FileOfResolved(env: Env, name: string, scope: string, mode: ResolveMode)
    requires SoundEnv(env)
    ensures var r := Resolve(env, name, scope, mode);
      r.Some? ==> r.value.file in env.descs && SoundDesc(env.descs[r.value.file])
  {
    hide MayUse, ResolveFrom, SoundDesc;
    ResolvedIsThere(env, name, scope, mode);
  }

  lemma DefaultExactly(env: Env, f: FieldProto, enum: Symbol)
    requires enum.file in env.descs && SoundDesc(env.descs[enum.file]) && f.defaultValue.Some?
    ensures DefaultLinks(env, f, enum) <==> DefaultThere(env, enum, f.defaultValue.value)
  {
    hide Resolve, HasValue, ValueStands, SoundDesc;
    var v := Resolve(env, f.defaultValue.value, enum.name, LOOKUP_ALL);
    if v.Some? { ValueExactly(env.descs[enum.file], enum.name, v.value.name); }
  }

  lemma TypeExactly(env: Env, f: FieldProto, full: string)
    requires SoundEnv(env)
    ensures TypeLinks(env, f, full) <==> TypeThere(env, f, full)
  {
    hide Resolve, DefaultLinks, DefaultThere, SoundDesc, SoundEnv;
    if f.typeName.Some? {
      FileOfResolved(env, f.typeName.value, full, LOOKUP_TYPES);
      var t := Resolve(env, f.typeName.value, full, LOOKUP_TYPES);
      if t.Some? {
        if f.defaultValue.Some? { DefaultExactly(env, f, t.value); } else { NoDefault(env, f, t.value); }
      }
    }
  }

  lemma NoDefault(env: Env, f: FieldProto, s: Symbol)
    requires f.defaultValue.None?
    ensures DefaultLinks(env, f, s)
  {
  }

  lemma ExtendeeExactly(env: Env, f: FieldProto, full: string)
    requires SoundEnv(env)
    ensures ExtendeeLinks(env, f, full) <==> ExtendeeThere(env, f, full)
  {
    hide Resolve, DeclaresNumber, LeavesNumber, SoundDesc, SoundEnv;
    if f.extendee.Some? {
      FileOfResolved(env, f.extendee.value, full, LOOKUP_ALL);
      var e := Resolve(env, f.extendee.value, full, LOOKUP_ALL);
      if e.Some? { NumberLeftExactly(env.descs, Ref(e.value.file, e.value.name), f.number); }
    }
  }

  /** Each field and extension of the file, at each of its positions, refers to what there is. */
  ghost predicate FieldsRefer(env: Env, proto: FileProto) {
    forall at | InFile(proto, at) && HoldsField(at.place) :: FieldRefers(env, FieldAt(proto, at), NameAt(proto, at))
  }

  ghost predicate MethodsRefer(env: Env, proto: FileProto) {
    forall i: nat, j: nat | InFile(proto, Position([], MethodOf(i, j))) ::
      MethodRefers(env, proto.services[i].methods[j], NameAt(proto, Position([], MethodOf(i, j))))
  }

  /** A file links if and only if all that is declared in it refers to what there is. */
  lemma ReferencesExactly(env: Env, proto: FileProto)
    requires SoundEnv(env)
    ensures FileLinks(env, proto) <==> FieldsRefer(env, proto) && MethodsRefer(env, proto)
  {
    hide FileLinks, TypeLinks, TypeThere, ExtendeeLinks, ExtendeeThere, MethodsAllLink, MethodsRefer, InFile, SoundEnv,
      FieldAt, NameAt;
    LinksExactly(env, proto);
    MethodsReferExactly(env, proto);
    forall at | InFile(proto, at) && HoldsField(at.place)
      ensures FieldLinks(env, FieldAt(proto, at), NameAt(proto, at))
         <==> FieldRefers(env, FieldAt(proto, at), NameAt(proto, at))
    {
      TypeExactly(env, FieldAt(proto, at), NameAt(proto, at));
      ExtendeeExactly(env, FieldAt(proto, at), NameAt(proto, at));
    }
  }

  lemma MethodsReferExactly(env: Env, proto: FileProto)
    ensures MethodsAllLink(env, proto) <==> MethodsRefer(env, proto)
  {
    hide Resolve, MethodLinks, MethodRefers;
    forall i: nat, j: nat | InFile(proto, Position([], MethodOf(i, j)))
      ensures MethodRefers(env, proto.services[i].methods[j], NameAt(proto, Position([], MethodOf(i, j))))
         <==> MethodLinks(env, proto.services[i].methods[j], NameAt(proto, Position([], ServiceOf(i))))
    {
      MethodRefersExactly(env, proto.services[i].methods[j], NameAt(proto, Position([], ServiceOf(i))));
    }
  }

  lemma MethodRefersExactly(env: Env, m: MethodProto, service: string)
    ensures MethodRefers(env, m, service + "." + m.name) <==> MethodLinks(env, m, service)
  {
    hide Resolve;
    assert service + "." + m.name == service + ['.'] + m.name;
    assert m.input in {m.input, m.output} && m.output in {m.input, m.output};
  }
}
