/** C++-style name lookup from a scope outwards. */
module ScopeLookup {
  import opened Names
  import opened OrderedMaps
  import opened Protos
  import opened PoolTables
  import opened SymbolOwnership

  datatype ResolveMode = LOOKUP_ALL | LOOKUP_TYPES

  /** What a file under construction can see: the table, itself, and what it imports. */
  datatype Env = Env(symbols: Symbols, descs: map<Id, FileDesc>, file: Id, dependencies: set<Id>, enforce: bool)

  predicate IsType(kind: Kind) { kind == MESSAGE || kind == ENUM }

  predicate IsAggregate(kind: Kind) { kind == MESSAGE || kind == PACKAGE || kind == ENUM || kind == SERVICE }

  /** `IsInPackage`: the package is `package`, or one inside it. */
  predicate IsInPackage(descs: map<Id, FileDesc>, file: Id, package: string) {
    file in descs && Covers(package, descs[file].package)
  }

  /** A symbol may be used when its file is this one or imported; a package, when any of those files uses it. */
  ghost predicate MayUse(env: Env, name: string, s: Symbol) {
    || !env.enforce || s.file == env.file || s.file in env.dependencies
    || (s.kind == PACKAGE && (IsInPackage(env.descs, env.file, name)
                              || exists d :: d in env.dependencies && IsInPackage(env.descs, d, name)))
  }

  /** `FindSymbol` when there is no fallback database. */
  ghost function Visible(env: Env, name: string): Option<Symbol> {
    if name in env.symbols && MayUse(env, name, env.symbols[name]) then Some(env.symbols[name]) else None
  }

  function FirstPart(name: string): string {
    if FirstDot(name) < 0 then name else name[..FirstDot(name)]
  }

  /** What the first component must be for a scope to be chosen: an aggregate to look inside for a
      compound name, a type in `LOOKUP_TYPES` mode for a simple one. */
  predicate Suits(name: string, mode: ResolveMode, s: Symbol) {
    if |FirstPart(name)| < |name| then IsAggregate(s.kind) else mode == LOOKUP_TYPES ==> IsType(s.kind)
  }

  /** `scope` encloses `relativeTo`, and the first component of `name` resolves suitably in it. */
  ghost predicate Accepts(env: Env, name: string, relativeTo: string, mode: ResolveMode, scope: string) {
    && Covers(scope, relativeTo) && scope != relativeTo
    && var s := Visible(env, scope + ['.'] + FirstPart(name)); s.Some? && Suits(name, mode, s.value)
  }

  ghost predicate Innermost(env: Env, name: string, relativeTo: string, mode: ResolveMode, scope: string) {
    && Accepts(env, name, relativeTo, mode, scope)
    && forall other | Accepts(env, name, relativeTo, mode, other) :: |other| <= |scope|
  }

  /** The loop of `LookupSymbolNoPlaceholder` with no fallback database. */
  ghost function ResolveFrom(env: Env, name: string, scope: string, mode: ResolveMode): Option<Symbol>
    decreases |scope|
  {
    if LastDot(scope) < 0 then Visible(env, name)
    else
      var outer := Parent(scope);
      var s := Visible(env, outer + ['.'] + FirstPart(name));
      if s.Some? && Suits(name, mode, s.value) then Visible(env, outer + ['.'] + name)
      else ResolveFrom(env, name, outer, mode)
  }

  ghost function Resolve(env: Env, name: string, relativeTo: string, mode: ResolveMode): Option<Symbol> {
    if name != "" && name[0] == '.' then Visible(env, name[1..]) else ResolveFrom(env, name, relativeTo, mode)
  }

  /** Found if and only if a symbol of that full name is in the table and may be used, and then it is that symbol. */
  ghost predicate FoundAs(env: Env, full: string, result: Option<Symbol>) {
    && (result.Some? <==> full in env.symbols && MayUse(env, full, env.symbols[full]))
    && (result.Some? ==> result.value == env.symbols[full])
  }

  /** A name that starts with a dot is taken as it stands after the dot, from every scope and in every mode. */
  lemma AbsoluteName(env: Env, full: string, scope: string, mode: ResolveMode)
    ensures FoundAs(env, full, Resolve(env, "." + full, scope, mode))
  {
    hide MayUse, ResolveFrom;
    var name := "." + full;
    assert name[0] == '.' && name[1..] == full;
  }

  /** One turn of the loop. */
  lemma ScopeStep(env: Env, name: string, scope: string, mode: ResolveMode)
    ensures |FirstPart(name)| <= |name|
    ensures LastDot(scope) < 0 ==> ResolveFrom(env, name, scope, mode) == Visible(env, name)
    ensures LastDot(scope) >= 0 ==>
      var outer, first := scope[..LastDot(scope)], FirstPart(name);
      var s := Visible(env, outer + ['.'] + first);
      && (s.Some? && |first| < |name| && IsAggregate(s.value.kind) ==>
            ResolveFrom(env, name, scope, mode) == Visible(env, outer + ['.'] + first + name[|first|..]))
      && (s.Some? && |first| == |name| && (mode != LOOKUP_TYPES || IsType(s.value.kind)) ==>
            ResolveFrom(env, name, scope, mode) == s)
      && (s.None? || (if |first| < |name| then !IsAggregate(s.value.kind)
                      else mode == LOOKUP_TYPES && !IsType(s.value.kind)) ==>
            ResolveFrom(env, name, scope, mode) == ResolveFrom(env, name, outer, mode))
  {
    hide Visible;
    if LastDot(scope) >= 0 {
      var outer, first := scope[..LastDot(scope)], FirstPart(name);
      assert outer + ['.'] + first + name[|first|..] == outer + ['.'] + name;
    }
  }

  /** The loop commits to the innermost scope that accepts the first component, and looks the whole
      name up there and nowhere else; with no such scope it looks the name up at the root. */
  lemma {:induction false} ResolveIsInnermost(env: Env, name: string, relativeTo: string, mode: ResolveMode)
    ensures forall scope | Innermost(env, name, relativeTo, mode, scope) ::
      ResolveFrom(env, name, relativeTo, mode) == Visible(env, scope + ['.'] + name)
    ensures (forall scope :: !Accepts(env, name, relativeTo, mode, scope)) ==>
      ResolveFrom(env, name, relativeTo, mode) == Visible(env, name)
    decreases |relativeTo|
  {
    if LastDot(relativeTo) < 0 {
      forall scope ensures !Accepts(env, name, relativeTo, mode, scope) {
        if Covers(scope, relativeTo) && scope != relativeTo { CoversParent(scope, relativeTo); }
      }
    } else {
      var outer := Parent(relativeTo);
      assert outer != relativeTo;
      ResolveIsInnermost(env, name, outer, mode);
      if Accepts(env, name, relativeTo, mode, outer) {
        forall scope | Innermost(env, name, relativeTo, mode, scope) ensures scope == outer {
          CoversParent(scope, relativeTo);
          assert |scope| == |outer|;
          CoversLinear(scope, outer, relativeTo);
          CoversLinear(outer, scope, relativeTo);
        }
      } else {
        forall scope ensures Accepts(env, name, relativeTo, mode, scope) <==> Accepts(env, name, outer, mode, scope) {
          if Accepts(env, name, relativeTo, mode, scope) { CoversParent(scope, relativeTo); }
          if Covers(scope, outer) { CoversTransitive(scope, outer, relativeTo); }
        }
        forall scope | Innermost(env, name, relativeTo, mode, scope) ensures Innermost(env, name, outer, mode, scope) {
        }
      }
    }
  }

  /** Whether some scope accepts is decided: either one is innermost or none accepts. */
  lemma {:induction false} InnermostExists(env: Env, name: string, relativeTo: string, mode: ResolveMode, scope: string)
    requires Accepts(env, name, relativeTo, mode, scope)
    ensures exists best :: Innermost(env, name, relativeTo, mode, best)
    decreases |relativeTo| - |scope|
  {
    if !Innermost(env, name, relativeTo, mode, scope) {
      var other :| Accepts(env, name, relativeTo, mode, other) && |other| > |scope|;
      InnermostExists(env, name, relativeTo, mode, other);
    }
  }

  /** After committing, outer scopes are not tried again, whatever they hold: the lookup fails exactly when the name
      cannot be seen in the innermost accepting scope, and that can only happen to a compound name. */
  lemma CommittedLookupFails(env: Env, name: string, relativeTo: string, mode: ResolveMode, inner: string)
    requires Innermost(env, name, relativeTo, mode, inner)
    ensures ResolveFrom(env, name, relativeTo, mode) == None <==> Visible(env, inner + ['.'] + name) == None
    ensures ResolveFrom(env, name, relativeTo, mode) == None ==> FirstPart(name) != name
  {
    ResolveIsInnermost(env, name, relativeTo, mode);
  }

  lemma FirstOfSimple(name: string)
    requires NoDot(name)
    ensures FirstPart(name) == name
  {
  }

  lemma FirstOfCompound(first: string, rest: string)
    requires NoDot(first)
    ensures FirstPart(first + "." + rest) == first
  {
    var name := first + "." + rest;
    assert name[|first|] == '.' && forall i | 0 <= i < |first| :: name[i] == first[i];
    assert FirstDot(name) == |first|;
  }

  /** A scope is chosen for a simple name when it has something of that name: a type, if a type is meant. */
  lemma SimpleAccepted(env: Env, name: string, relativeTo: string, mode: ResolveMode, scope: string)
    requires NoDot(name)
    ensures Accepts(env, name, relativeTo, mode, scope) <==>
      && scope < relativeTo && relativeTo[|scope|] == '.' && scope + "." + name in env.symbols
      && MayUse(env, scope + "." + name, env.symbols[scope + "." + name])
      && (mode == LOOKUP_TYPES ==> env.symbols[scope + "." + name].kind in {MESSAGE, ENUM})
  {
    hide MayUse, FirstPart;
    FirstOfSimple(name);
    assert scope + "." + name == scope + ['.'] + name;
  }

  /** For a compound name it is chosen when its first component there is something that has names inside. */
  lemma CompoundAccepted(env: Env, first: string, rest: string, relativeTo: string, mode: ResolveMode, scope: string)
    requires NoDot(first)
    ensures Accepts(env, first + "." + rest, relativeTo, mode, scope) <==>
      && scope < relativeTo && relativeTo[|scope|] == '.' && scope + "." + first in env.symbols
      && MayUse(env, scope + "." + first, env.symbols[scope + "." + first])
      && env.symbols[scope + "." + first].kind in {MESSAGE, PACKAGE, ENUM, SERVICE}
  {
    hide MayUse, FirstPart;
    FirstOfCompound(first, rest);
    assert scope + "." + first == scope + ['.'] + first;
  }

  const SHADOWING: Env := Env(
    map["Bar" := Symbol(MESSAGE, 0, "Bar", 0), "Bar.Baz" := Symbol(MESSAGE, 0, "Bar.Baz", 0), "M" :=
        Symbol(MESSAGE, 0, "M", 0),
        "M.Bar" := Symbol(MESSAGE, 0, "M.Bar", 0)], map[], 0, {}, true)

  /** A message "M.Bar" without a "Baz" hides "Bar.Baz" from the fields of "M". */
  lemma ShadowedExample()
    ensures Visible(SHADOWING, "Bar.Baz").Some? && Resolve(SHADOWING, "Bar.Baz", "M.f", LOOKUP_TYPES) == None
  {
    hide LastDot, FirstDot, FirstPart, Parent;
    ShadowedNames();
  }

  lemma ShadowedNames()
    ensures LastDot("M.f") == 1 && Parent("M.f") == "M" && FirstPart("Bar.Baz") == "Bar"
    ensures "M" + ['.'] + "Bar" == "M.Bar" && "M" + ['.'] + "Bar.Baz" == "M.Bar.Baz"
  {
    assert LastDot("M.f") == 1;
    assert FirstDot("Bar.Baz") == 3;
  }

  // ----- References that resolve -----

  /** The type a field names is of the sort its declaration asks for. */
  predicate TypeFits(t: FieldType, kind: Kind) {
    match t
    case Unset => kind == MESSAGE || kind == ENUM
    case MessageType => kind == MESSAGE
    case EnumType => kind == ENUM
    case Primitive => false
  }

  ghost predicate FieldLinks(env: Env, f: FieldProto, fullName: string) {
    ExtendeeLinks(env, f, fullName) && TypeLinks(env, f, fullName)
  }

  /** The extendee is a message, and leaves the number to extensions. */
  ghost predicate ExtendeeLinks(env: Env, f: FieldProto, fullName: string) {
    ExtendeeResolves(env, f, fullName) && (f.extendee.Some? ==>
      var s := Resolve(env, f.extendee.value, fullName, LOOKUP_ALL).value;
      DeclaresNumber(env.descs, Ref(s.file, s.name), f.number))
  }

  ghost predicate ExtendeeResolves(env: Env, f: FieldProto, fullName: string) {
    f.extendee.Some? ==>
      var s := Resolve(env, f.extendee.value, fullName, LOOKUP_ALL); s.Some? && s.value.kind == MESSAGE
  }

  /** The message of that full name, among these and those inside them. */
  function MessageAt(messages: seq<MessageProto>, scope: string, name: string): Option<MessageProto>
    decreases messages
  {
    if messages == [] then None
    else
      var full := Join(scope, messages[0].name);
      if full == name then Some(messages[0])
      else
        var inside := MessageAt(messages[0].nested, full, name);
        if inside.Some? then inside else MessageAt(messages[1..], scope, name)
  }

  /** `IsExtensionNumber`. */
  predicate DeclaresNumber(descs: map<Id, FileDesc>, message: Ref, number: int) {
    message.file in descs &&
    var m := MessageAt(descs[message.file].proto.messages, descs[message.file].package, message.name);
    m.Some? && exists i :: 0 <= i < |m.value.ranges| && InRange(m.value.ranges[i], number)
  }

  function EnumNamed(enums: seq<EnumProto>, scope: string, name: string): Option<EnumProto> {
    if enums == [] then None
    else if Join(scope, enums[0].name) == name then Some(enums[0])
    else EnumNamed(enums[1..], scope, name)
  }

  /** The enum of that full name, inside these messages. */
  function EnumInside(messages: seq<MessageProto>, scope: string, name: string): Option<EnumProto>
    decreases messages
  {
    if messages == [] then None
    else
      var full := Join(scope, messages[0].name);
      var own, inner := EnumNamed(messages[0].enums, full, name), EnumInside(messages[0].nested, full, name);
      if own.Some? then own else if inner.Some? then inner else EnumInside(messages[1..], scope, name)
  }

  /** The value of that full name is one of the enum's. */
  predicate DeclaresValue(descs: map<Id, FileDesc>, enum: Ref, value: string) {
    enum.file in descs && HasValue(descs[enum.file], enum.name, value)
  }

  /** The enum of that full name, at the top level or inside the messages of a file. */
  function EnumSearched(file: FileDesc, enum: string): Option<EnumProto> {
    var atTop := EnumNamed(file.proto.enums, file.package, enum);
    if atTop.Some? then atTop else EnumInside(file.proto.messages, file.package, enum)
  }

  /** Values are named beside their enum, not inside it. */
  function Beside(enum: string): string {
    if LastDot(enum) < 0 then "" else Parent(enum)
  }

  predicate HasValue(file: FileDesc, enum: string, value: string) {
    var e := EnumSearched(file, enum);
    e.Some? && exists i :: 0 <= i < |e.value.values| && Join(Beside(enum), e.value.values[i]) == value
  }

  /** A default is for enums, and is found, from the enum outwards, among its values. */
  ghost predicate DefaultLinks(env: Env, f: FieldProto, s: Symbol) {
    f.defaultValue.Some? ==>
      && s.kind == ENUM
      && var v := Resolve(env, f.defaultValue.value, s.name, LOOKUP_ALL);
         v.Some? && IsValueOf(env.descs, v.value, s)
  }

  predicate IsValueOf(descs: map<Id, FileDesc>, v: Symbol, enum: Symbol) {
    v.kind == ENUM_VALUE && v.file == enum.file && DeclaresValue(descs, Ref(enum.file, enum.name), v.name)
  }

  ghost predicate TypeLinks(env: Env, f: FieldProto, fullName: string) {
    match f.typeName
    case Some(t) =>
      var s := Resolve(env, t, fullName, LOOKUP_TYPES);
      s.Some? && TypeFits(f.fieldType, s.value.kind) && DefaultLinks(env, f, s.value)
    case None => f.fieldType != MessageType && f.fieldType != EnumType
  }

  ghost predicate FieldsLink(env: Env, fields: seq<FieldProto>, scope: string) {
    forall i | 0 <= i < |fields| :: FieldLinks(env, fields[i], Join(scope, fields[i].name))
  }

  ghost predicate MessageLinks(env: Env, m: MessageProto, scope: string)
    decreases m, 0
  {
    var full := Join(scope, m.name);
    MessagesLink(env, m.nested, full) && FieldsLink(env, m.fields, full) && FieldsLink(env, m.extensions, full)
  }

  ghost predicate MessagesLink(env: Env, messages: seq<MessageProto>, scope: string)
    decreases messages, 1
  {
    forall i | 0 <= i < |messages| :: MessageLinks(env, messages[i], scope)
  }

  ghost predicate MethodLinks(env: Env, m: MethodProto, service: string) {
    var full := service + ['.'] + m.name;
    var input, output := Resolve(env, m.input, full, LOOKUP_ALL), Resolve(env, m.output, full, LOOKUP_ALL);
    input.Some? && input.value.kind == MESSAGE && output.Some? && output.value.kind == MESSAGE
  }

  ghost predicate ServiceLinks(env: Env, s: ServiceProto, scope: string) {
    forall i | 0 <= i < |s.methods| :: MethodLinks(env, s.methods[i], Join(scope, s.name))
  }

  /** Every reference in the file resolves to something of the right kind. */
  ghost predicate FileLinks(env: Env, proto: FileProto) {
    var scope := PackageOf(proto);
    && MessagesLink(env, proto.messages, scope)
    && FieldsLink(env, proto.extensions, scope)
    && (forall i | 0 <= i < |proto.services| :: ServiceLinks(env, proto.services[i], scope))
  }

  // ----- Numbers used once -----

  function Container(env: Env, scope: string, isExtension: bool): Option<Ref> {
    if isExtension then None else Some(Ref(env.file, scope))
  }

  ghost function FieldKeys(env: Env, fields: seq<FieldProto>, scope: string,
                           isExtension: bool): (keys: seq<ExtensionKey>)
    ensures |keys| == |fields|
  {
    seq(|fields|, i requires 0 <= i < |fields| =>
      FieldKey(env, fields[i], Join(scope, fields[i].name), Container(env, scope, isExtension)))
  }

  ghost function MessageKeys(env: Env, m: MessageProto, scope: string): seq<ExtensionKey>
    decreases m, 0
  {
    var full := Join(scope, m.name);
    MessagesKeys(env, m.nested, full)
      + (FieldKeys(env, m.fields, full, false) + FieldKeys(env, m.extensions, full, true))
  }

  ghost function MessagesKeys(env: Env, messages: seq<MessageProto>, scope: string): seq<ExtensionKey>
    decreases messages, 1
  {
    if messages == [] then []
    else MessagesKeys(env, messages[..|messages| - 1], scope) + MessageKeys(env, messages[|messages| - 1], scope)
  }

  /** The numbers of all the fields and extensions of a file, each with its type. */
  ghost function FileKeys(env: Env, proto: FileProto): seq<ExtensionKey> {
    MessagesKeys(env, proto.messages, PackageOf(proto)) + FieldKeys(env, proto.extensions, PackageOf(proto), true)
  }

  /** No number is used twice, nor one that was used before. */
  ghost predicate Unused(before: set<ExtensionKey>, keys: seq<ExtensionKey>) {
    && (forall i, j | 0 <= i < j < |keys| :: keys[i] != keys[j])
    && (forall i | 0 <= i < |keys| :: keys[i] !in before)
  }

  lemma UnusedSplit(before: set<ExtensionKey>, a: seq<ExtensionKey>, b: seq<ExtensionKey>)
    ensures Unused(before, a + b) <==> Unused(before, a) && Unused(before + Elements(a), b)
    ensures before + Elements(a + b) == before + Elements(a) + Elements(b)
  {
    var all := a + b;
    if Unused(before, all) {
      forall i, j | 0 <= i < j < |a| ensures a[i] != a[j] { assert all[i] != all[j]; }
      forall i | 0 <= i < |a| ensures a[i] !in before { assert all[i] == a[i]; }
      forall i, j | 0 <= i < j < |b| ensures b[i] != b[j] { assert all[|a| + i] != all[|a| + j]; }
      forall i, j | 0 <= i < |a| && 0 <= j < |b| ensures a[i] != b[j] { assert all[i] != all[|a| + j]; }
      forall j | 0 <= j < |b| ensures b[j] !in before + Elements(a) { assert all[|a| + j] == b[j]; }
    }
    if Unused(before, a) && Unused(before + Elements(a), b) {
      forall i, j | 0 <= i < j < |all| ensures all[i] != all[j] {
        if i < |a| <= j { assert all[j] == b[j - |a|] && a[i] in Elements(a); }
      }
    }
  }

  lemma NothingUsed(before: set<ExtensionKey>)
    ensures Unused(before, []) && before + Elements<ExtensionKey>([]) == before
  {
  }

  lemma UnusedNext(before: set<ExtensionKey>, keys: seq<ExtensionKey>, i: nat)
    requires i < |keys|
    ensures Unused(before, keys[..i + 1]) <==> Unused(before, keys[..i]) && keys[i] !in before + Elements(keys[..i])
    ensures before + Elements(keys[..i + 1]) == before + Elements(keys[..i]) + {keys[i]}
  {
    assert keys[..i + 1] == keys[..i] + [keys[i]];
    UnusedSplit(before, keys[..i], [keys[i]]);
  }

  // ----- What linking enters in the tables -----

  /** The type that holds a field, or that an extension extends, and the number of the field. */
  ghost function FieldKey(env: Env, f: FieldProto, fullName: string, container: Option<Ref>): ExtensionKey {
    match f.extendee
    case None => (container, f.number)
    case Some(name) =>
      match Resolve(env, name, fullName, LOOKUP_ALL)
      case None => (container, f.number)
      case Some(s) => (Some(Ref(s.file, s.name)), f.number)
  }

  ghost function ExtensionKeyOf(env: Env, f: FieldProto, fullName: string): ExtensionKey {
    FieldKey(env, f, fullName, None)
  }

  type Entries = map<ExtensionKey, Ref>

  /** A number that was claimed stays with who claimed it. */
  function Claimed(m: Entries, key: ExtensionKey, field: Ref): Entries {
    if key in m then m else m[key := field]
  }

  ghost function FieldEntered(m: Entries, env: Env, f: FieldProto, fullName: string, isExtension: bool): Entries {
    if isExtension then Claimed(m, ExtensionKeyOf(env, f, fullName), Ref(env.file, fullName)) else m
  }

  lemma EnteredUnderKey(m: Entries, env: Env, f: FieldProto, fullName: string, container: Option<Ref>,
                        isExtension: bool)
    requires isExtension ==> container.None?
    ensures FieldEntered(m, env, f, fullName, isExtension)
         == if isExtension then Claimed(m, FieldKey(env, f, fullName, container), Ref(env.file, fullName)) else m
  {
  }

  ghost function FieldsEntered(m: Entries, env: Env, fields: seq<FieldProto>, scope: string, isExtension: bool): Entries
    decreases |fields|
  {
    if fields == [] then m
    else
      var last, init := fields[|fields| - 1], fields[..|fields| - 1];
      FieldEntered(FieldsEntered(m, env, init, scope, isExtension), env, last, Join(scope, last.name), isExtension)
  }

  lemma NoFields(m: Entries, env: Env, scope: string, isExtension: bool)
    ensures FieldsLink(env, [], scope) && FieldsEntered(m, env, [], scope, isExtension) == m
  {
  }

  /** One more field of a list. */
  lemma FieldsStep(m: Entries, env: Env, fields: seq<FieldProto>, scope: string, isExtension: bool, i: nat)
    requires i < |fields|
    ensures FieldsLink(env, fields[..i + 1], scope)
       <==> FieldsLink(env, fields[..i], scope) && FieldLinks(env, fields[i], Join(scope, fields[i].name))
    ensures FieldKeys(env, fields, scope, isExtension)[i]
         == FieldKey(env, fields[i], Join(scope, fields[i].name), Container(env, scope, isExtension))
    ensures FieldsEntered(m, env, fields[..i + 1], scope, isExtension)
         == FieldEntered(FieldsEntered(m, env, fields[..i], scope, isExtension), env, fields[i],
                         Join(scope, fields[i].name), isExtension)
  {
    hide FieldLinks, FieldKey, FieldEntered, Join;
    var next := fields[..i + 1];
    assert next[..i] == fields[..i] && next[i] == fields[i];
    assert forall k | 0 <= k < i :: next[k] == fields[..i][k];
  }

  ghost function MessageEntered(m: Entries, env: Env, message: MessageProto, scope: string): Entries
    decreases message, 0
  {
    var full := Join(scope, message.name);
    var inside := MessagesEntered(m, env, message.nested, full);
    FieldsEntered(FieldsEntered(inside, env, message.fields, full, false), env, message.extensions, full, true)
  }

  ghost function MessagesEntered(m: Entries, env: Env, messages: seq<MessageProto>, scope: string): Entries
    decreases messages, 1
  {
    if messages == [] then m
    else
      var last, init := messages[|messages| - 1], messages[..|messages| - 1];
      MessageEntered(MessagesEntered(m, env, init, scope), env, last, scope)
  }

  ghost function FileEntered(m: Entries, env: Env, proto: FileProto): Entries {
    var scope := PackageOf(proto);
    FieldsEntered(MessagesEntered(m, env, proto.messages, scope), env, proto.extensions, scope, true)
  }

  // ----- Claims in turn -----

  /** An extension and the number it claims of a type. */
  type Claim = (ExtensionKey, Ref)

  function EnteredInTurn(m: Entries, claims: seq<Claim>): Entries
    decreases |claims|
  {
    if claims == [] then m
    else
      var last := claims[|claims| - 1];
      Claimed(EnteredInTurn(m, claims[..|claims| - 1]), last.0, last.1)
  }

  ghost predicate ClaimsKey(claims: seq<Claim>, key: ExtensionKey) {
    exists i :: 0 <= i < |claims| && claims[i].0 == key
  }

  function FirstClaim(claims: seq<Claim>, key: ExtensionKey): (i: nat)
    requires ClaimsKey(claims, key)
    ensures i < |claims| && claims[i].0 == key && forall j | 0 <= j < i :: claims[j].0 != key
  {
    if claims[0].0 == key then 0 else FirstClaim(claims[1..], key) + 1
  }

  /** What is found under a number: what there was, or else who claimed it first. */
  lemma {:induction false} InTurn(m: Entries, claims: seq<Claim>, key: ExtensionKey)
    ensures var u := EnteredInTurn(m, claims);
      && (key in u <==> key in m || ClaimsKey(claims, key))
      && (key in m ==> u[key] == m[key])
      && (key !in m && ClaimsKey(claims, key) ==> u[key] == claims[FirstClaim(claims, key)].1)
    decreases |claims|
  {
    if claims != [] {
      var init, n := claims[..|claims| - 1], |claims| - 1;
      InTurn(m, init, key);
      if ClaimsKey(init, key) {
        var i := FirstClaim(init, key);
        assert claims[i].0 == key && forall j | 0 <= j < i :: claims[j].0 == init[j].0;
        assert FirstClaim(claims, key) == i;
      } else if ClaimsKey(claims, key) {
        assert forall j | 0 <= j < n :: claims[j].0 == init[j].0;
        assert FirstClaim(claims, key) == n;
      }
    }
  }

  lemma {:induction false} InTurnJoins(m: Entries, a: seq<Claim>, b: seq<Claim>)
    ensures EnteredInTurn(m, a + b) == EnteredInTurn(EnteredInTurn(m, a), b)
    decreases |b|
  {
    if b == [] {
      assert a + b == a;
    } else {
      assert (a + b)[..|a + b| - 1] == a + b[..|b| - 1];
      InTurnJoins(m, a, b[..|b| - 1]);
    }
  }

  ghost function FieldsClaims(env: Env, fields: seq<FieldProto>, scope: string): (claims: seq<Claim>)
    ensures |claims| == |fields|
  {
    seq(|fields|, i requires 0 <= i < |fields| =>
      (KeyAt(env, fields, scope, i), Ref(env.file, Join(scope, fields[i].name))))
  }

  lemma {:induction false} FieldsInTurn(m: Entries, env: Env, fields: seq<FieldProto>, scope: string)
    ensures FieldsEntered(m, env, fields, scope, true) == EnteredInTurn(m, FieldsClaims(env, fields, scope))
    decreases |fields|
  {
    hide FieldKey, Join;
    if fields != [] {
      var init := fields[..|fields| - 1];
      FieldsInTurn(m, env, init, scope);
      assert FieldsClaims(env, fields, scope)[..|fields| - 1] == FieldsClaims(env, init, scope);
    }
  }

  // ----- Extensions of one list -----

  /** The extension with this index is `field`, and claims `key`. */
  ghost predicate ClaimsAt(env: Env, fields: seq<FieldProto>, scope: string, i: nat, key: ExtensionKey, field: Ref)
    requires i < |fields|
  {
    KeyAt(env, fields, scope, i) == key && field == Ref(env.file, Join(scope, fields[i].name))
  }

  ghost function KeyAt(env: Env, fields: seq<FieldProto>, scope: string, i: nat): ExtensionKey
    requires i < |fields|
  {
    ExtensionKeyOf(env, fields[i], Join(scope, fields[i].name))
  }

  /** No extension before this one claims its number. */
  ghost predicate ClaimsFirst(env: Env, fields: seq<FieldProto>, scope: string, i: nat)
    requires i < |fields|
  {
    forall j | 0 <= j < i :: KeyAt(env, fields, scope, j) != KeyAt(env, fields, scope, i)
  }

  /**
   * Every extension is entered, under its number of its type, unless another has claimed the number before; nothing
   * else is entered, and what there was stays.
   */
  lemma ExtensionsEntered(m: Entries, env: Env, fields: seq<FieldProto>, scope: string)
    ensures var u := FieldsEntered(m, env, fields, scope, true);
      && Submap(m, u)
      && (forall i | 0 <= i < |fields| :: KeyAt(env, fields, scope, i) in u)
      && (forall i | 0 <= i < |fields| && KeyAt(env, fields, scope, i) !in m && ClaimsFirst(env, fields, scope, i) ::
            u[KeyAt(env, fields, scope, i)] == Ref(env.file, Join(scope, fields[i].name)))
      && (forall k | k in u && k !in m :: exists i :: 0 <= i < |fields| && ClaimsFirst(env, fields, scope, i)
                                                      && ClaimsAt(env, fields, scope, i, k, u[k]))
  {
    hide KeyAt, Join, FieldsEntered, EnteredInTurn;
    var claims, u := FieldsClaims(env, fields, scope), FieldsEntered(m, env, fields, scope, true);
    FieldsInTurn(m, env, fields, scope);
    assert forall i | 0 <= i < |fields| :: claims[i].0 == KeyAt(env, fields, scope, i);
    forall k ensures k in u <==> k in m || ClaimsKey(claims, k) { InTurn(m, claims, k); }
    forall k | k in m ensures u[k] == m[k] { InTurn(m, claims, k); }
    forall i | 0 <= i < |fields| ensures KeyAt(env, fields, scope, i) in u { assert ClaimsKey(claims, claims[i].0); }
    forall i | 0 <= i < |fields| && KeyAt(env, fields, scope, i) !in m && ClaimsFirst(env, fields, scope, i)
      ensures u[KeyAt(env, fields, scope, i)] == Ref(env.file, Join(scope, fields[i].name))
    {
      InTurn(m, claims, claims[i].0);
      assert FirstClaim(claims, claims[i].0) == i;
    }
    forall k | k in u && k !in m
      ensures exists i ::
        0 <= i < |fields| && ClaimsFirst(env, fields, scope, i) && ClaimsAt(env, fields, scope, i, k, u[k])
    {
      InTurn(m, claims, k);
      var i := FirstClaim(claims, k);
      assert ClaimsFirst(env, fields, scope, i) && ClaimsAt(env, fields, scope, i, k, u[k]);
    }
  }

  /** An extension that is new is the one found by its number exactly when nobody claimed the number before it. */
  lemma FoundByNumberExactly(m: Entries, env: Env, fields: seq<FieldProto>, scope: string, i: nat)
    requires i < |fields|
    requires var key := KeyAt(env, fields, scope, i);
      key in m ==> m[key] != Ref(env.file, Join(scope, fields[i].name))
    requires forall j, k | 0 <= j < k < |fields| :: Join(scope, fields[j].name) != Join(scope, fields[k].name)
    ensures var u, key := FieldsEntered(m, env, fields, scope, true), KeyAt(env, fields, scope, i);
      key in u && (u[key] == Ref(env.file, Join(scope, fields[i].name))
                   <==> key !in m && ClaimsFirst(env, fields, scope, i))
  {
    hide Join, KeyAt, FieldsEntered;
    ExtensionsEntered(m, env, fields, scope);
    var u, key := FieldsEntered(m, env, fields, scope, true), KeyAt(env, fields, scope, i);
    if key !in m && u[key] == Ref(env.file, Join(scope, fields[i].name)) {
      var j :| 0 <= j < |fields| && ClaimsFirst(env, fields, scope, j) && ClaimsAt(env, fields, scope, j, key, u[key]);
      assert j == i;
    }
  }

  lemma {:induction false} PlainFieldsEnterNothing(m: Entries, env: Env, fields: seq<FieldProto>, scope: string)
    ensures FieldsEntered(m, env, fields, scope, false) == m
    decreases |fields|
  {
    if fields != [] { PlainFieldsEnterNothing(m, env, fields[..|fields| - 1], scope); }
  }

  lemma {:induction false} MessageOnlyAdds(m: Entries, env: Env, message: MessageProto, scope: string)
    ensures Submap(m, MessageEntered(m, env, message, scope))
    ensures forall i | 0 <= i < |message.extensions| ::
      KeyAt(env, message.extensions, Join(scope, message.name), i) in MessageEntered(m, env, message, scope)
    decreases message, 0
  {
    hide Join, KeyAt;
    var full := Join(scope, message.name);
    MessagesOnlyAdd(m, env, message.nested, full);
    var u := MessagesEntered(m, env, message.nested, full);
    PlainFieldsEnterNothing(u, env, message.fields, full);
    ExtensionsEntered(u, env, message.extensions, full);
  }

  lemma {:induction false} MessagesOnlyAdd(m: Entries, env: Env, messages: seq<MessageProto>, scope: string)
    ensures Submap(m, MessagesEntered(m, env, messages, scope))
    decreases messages, 1
  {
    if messages != [] {
      var n := |messages| - 1;
      MessagesOnlyAdd(m, env, messages[..n], scope);
      MessageOnlyAdds(MessagesEntered(m, env, messages[..n], scope), env, messages[n], scope);
    }
  }

  /** Linking a file takes no number from anyone, and leaves none that its extensions claim free. */
  lemma FileOnlyAdds(m: Entries, env: Env, proto: FileProto)
    ensures Submap(m, FileEntered(m, env, proto))
    ensures forall i | 0 <= i < |proto.extensions| ::
      KeyAt(env, proto.extensions, PackageOf(proto), i) in FileEntered(m, env, proto)
  {
    hide KeyAt, PackageOf;
    var u := MessagesEntered(m, env, proto.messages, PackageOf(proto));
    MessagesOnlyAdd(m, env, proto.messages, PackageOf(proto));
    ExtensionsEntered(u, env, proto.extensions, PackageOf(proto));
  }
}
