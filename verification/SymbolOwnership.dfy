/** What a file declares, and why a declared name always sits under names of the same file or packages. */
module SymbolOwnership {
  import opened Names
  import opened OrderedMaps
  import opened Protos
  import opened PoolTables

  type Symbols = map<string, Symbol>

  // ----- The steps of building a file's descriptors -----

  const MAX_NUMBER := 0x1FFF_FFFF
  const FIRST_RESERVED_NUMBER := 19000
  const LAST_RESERVED_NUMBER := 19999

  /** What `DescriptorBuilder::ValidateSymbolName` accepts. */
  predicate ValidIdentifier(name: string) {
    name != "" && forall i | 0 <= i < |name| ::
      'a' <= name[i] <= 'z' || 'A' <= name[i] <= 'Z' || '0' <= name[i] <= '9' || name[i] == '_'
  }

  predicate ValidField(f: FieldProto, isExtension: bool) {
    && f.number > 0 && (isExtension || f.number <= MAX_NUMBER)
    && !(FIRST_RESERVED_NUMBER <= f.number <= LAST_RESERVED_NUMBER)
    && (isExtension <==> f.extendee.Some?)
  }

  predicate InRange(range: (int, int), number: int) {
    range.0 <= number < range.1
  }

  /** Ranges are of positive numbers, not empty, hold no number of a field, and do not overlap. */
  predicate ValidRanges(m: MessageProto) {
    && (forall i | 0 <= i < |m.ranges| :: 0 < m.ranges[i].0 < m.ranges[i].1)
    && (forall i, j | 0 <= i < |m.fields| && 0 <= j < |m.ranges| :: !InRange(m.ranges[j], m.fields[i].number))
    && (forall i, j | 0 <= i < j < |m.ranges| :: m.ranges[i].1 <= m.ranges[j].0 || m.ranges[j].1 <= m.ranges[i].0)
  }

  function Join(scope: string, name: string): string {
    if scope == "" then name else scope + ['.'] + name
  }

  /** One thing that happens while descriptors are built: a check, or a symbol declared. */
  datatype Step = Check(ok: bool) | Declare(name: string, kind: Kind)

  function FieldSteps(fields: seq<FieldProto>, scope: string, isExtension: bool): seq<Step> {
    if fields == [] then []
    else
      var f := fields[0];
      [Check(ValidIdentifier(f.name)), Check(ValidField(f, isExtension)), Declare(Join(scope, f.name), FIELD)]
      + FieldSteps(fields[1..], scope, isExtension)
  }

  function ValueSteps(values: seq<string>, scope: string): seq<Step> {
    if values == [] then []
    else
      [Check(ValidIdentifier(values[0])), Declare(Join(scope, values[0]), ENUM_VALUE)] + ValueSteps(values[1..], scope)
  }

  /** Enum values are declared beside their type, not under it. */
  function EnumSteps(enums: seq<EnumProto>, scope: string): seq<Step> {
    if enums == [] then []
    else
      var e := enums[0];
      [Check(ValidIdentifier(e.name)), Check(e.values != [])] + ValueSteps(e.values, scope)
      + [Declare(Join(scope, e.name), ENUM)] + EnumSteps(enums[1..], scope)
  }

  function MemberSteps(m: MessageProto, full: string): seq<Step>
    decreases m, 0
  {
    FieldSteps(m.fields, full, false) + MessagesSteps(m.nested, full)
    + EnumSteps(m.enums, full) + FieldSteps(m.extensions, full, true)
  }

  /** A message is declared after everything inside it. */
  function MessageSteps(m: MessageProto, scope: string): seq<Step>
    decreases m, 1
  {
    [Check(ValidIdentifier(m.name)), Check(ValidRanges(m))] + MemberSteps(m, Join(scope, m.name))
    + [Declare(Join(scope, m.name), MESSAGE)]
  }

  function MessagesSteps(messages: seq<MessageProto>, scope: string): seq<Step>
    decreases messages
  {
    if messages == [] then [] else MessageSteps(messages[0], scope) + MessagesSteps(messages[1..], scope)
  }

  function MethodSteps(methods: seq<MethodProto>, service: string): seq<Step> {
    if methods == [] then []
    else [Check(ValidIdentifier(methods[0].name)), Declare(service + ['.'] + methods[0].name, METHOD)]
         + MethodSteps(methods[1..], service)
  }

  function ServiceSteps(services: seq<ServiceProto>, scope: string): seq<Step> {
    if services == [] then []
    else
      var full := Join(scope, services[0].name);
      [Check(ValidIdentifier(services[0].name))] + MethodSteps(services[0].methods, full) + [Declare(full, SERVICE)]
      + ServiceSteps(services[1..], scope)
  }

  // ----- One more of a list -----

  lemma FieldStepsNext(fields: seq<FieldProto>, scope: string, isExtension: bool, i: nat, done: seq<Step>,
                       all: seq<Step>)
    requires i < |fields| && done + FieldSteps(fields[i..], scope, isExtension) == all
    ensures done
      + [Check(ValidIdentifier(fields[i].name)), Check(ValidField(fields[i], isExtension)),
         Declare(Join(scope, fields[i].name), FIELD)] + FieldSteps(fields[i + 1..], scope, isExtension) == all
  {
    hide ValidField, Join;
    assert fields[i..][1..] == fields[i + 1..];
  }

  lemma NoFieldSteps(fields: seq<FieldProto>, scope: string, isExtension: bool)
    ensures FieldSteps(fields[|fields|..], scope, isExtension) == []
  {
  }

  lemma ValueStepsNext(values: seq<string>, scope: string, i: nat, done: seq<Step>, all: seq<Step>)
    requires i < |values| && done + ValueSteps(values[i..], scope) == all
    ensures done + [Check(ValidIdentifier(values[i])), Declare(Join(scope, values[i]), ENUM_VALUE)]
      + ValueSteps(values[i + 1..], scope) == all
  {
    hide Join;
    assert values[i..][1..] == values[i + 1..];
  }

  lemma NoValueSteps(values: seq<string>, scope: string)
    ensures ValueSteps(values[|values|..], scope) == []
  {
  }

  lemma EnumStepsNext(enums: seq<EnumProto>, scope: string, i: nat, done: seq<Step>, all: seq<Step>)
    requires i < |enums| && done + EnumSteps(enums[i..], scope) == all
    ensures done + EnumSteps([enums[i]], scope) + EnumSteps(enums[i + 1..], scope) == all
  {
    assert enums[i..][1..] == enums[i + 1..];
    assert [enums[i]][1..] == [];
  }

  lemma NoEnumSteps(enums: seq<EnumProto>, scope: string)
    ensures EnumSteps(enums[|enums|..], scope) == []
  {
  }

  lemma MethodStepsNext(methods: seq<MethodProto>, service: string, i: nat, done: seq<Step>, all: seq<Step>)
    requires i < |methods| && done + MethodSteps(methods[i..], service) == all
    ensures done + [Check(ValidIdentifier(methods[i].name)), Declare(service + ['.'] + methods[i].name, METHOD)]
      + MethodSteps(methods[i + 1..], service) == all
  {
    assert methods[i..][1..] == methods[i + 1..];
  }

  lemma NoMethodSteps(methods: seq<MethodProto>, service: string)
    ensures MethodSteps(methods[|methods|..], service) == []
  {
  }

  lemma ServiceStepsNext(services: seq<ServiceProto>, scope: string, i: nat, done: seq<Step>, all: seq<Step>)
    requires i < |services| && done + ServiceSteps(services[i..], scope) == all
    ensures done + ServiceSteps([services[i]], scope) + ServiceSteps(services[i + 1..], scope) == all
  {
    assert services[i..][1..] == services[i + 1..];
    assert [services[i]][1..] == [];
  }

  lemma NoServiceSteps(services: seq<ServiceProto>, scope: string)
    ensures ServiceSteps(services[|services|..], scope) == []
  {
  }

  lemma MessagesStepsNext(messages: seq<MessageProto>, scope: string, i: nat, done: seq<Step>, all: seq<Step>)
    requires i < |messages| && done + MessagesSteps(messages[i..], scope) == all
    ensures done + MessageSteps(messages[i], scope) + MessagesSteps(messages[i + 1..], scope) == all
  {
    hide MessageSteps;
    assert messages[i..][1..] == messages[i + 1..];
  }

  lemma NoMessagesSteps(messages: seq<MessageProto>, scope: string)
    ensures MessagesSteps(messages[|messages|..], scope) == []
  {
  }

  function PackageOf(proto: FileProto): string {
    match proto.package case Some(p) => p case None => ""
  }

  function FileSteps(proto: FileProto): seq<Step> {
    var scope := PackageOf(proto);
    MessagesSteps(proto.messages, scope) + EnumSteps(proto.enums, scope)
    + ServiceSteps(proto.services, scope) + FieldSteps(proto.extensions, scope, true)
  }

  function Declared(steps: seq<Step>): set<string> {
    set s | s in steps && s.Declare? :: s.name
  }

  /** The steps report no error from a table that has `names`: every check holds and no name is taken. */
  predicate Clean(names: set<string>, steps: seq<Step>)
    decreases |steps|
  {
    steps == [] ||
    match steps[0]
    case Check(ok) => ok && Clean(names, steps[1..])
    case Declare(name, _) => name !in names && Clean(names + {name}, steps[1..])
  }

  lemma {:induction false} CleanSplit(names: set<string>, a: seq<Step>, b: seq<Step>)
    ensures Clean(names, a + b) <==> Clean(names, a) && Clean(names + Declared(a), b)
    decreases |a|
  {
    if a == [] {
      assert a + b == b;
      assert names + Declared(a) == names;
    } else {
      assert (a + b)[0] == a[0] && (a + b)[1..] == a[1..] + b;
      var names' := if a[0].Declare? then names + {a[0].name} else names;
      CleanSplit(names', a[1..], b);
      DeclaredSplit([a[0]], a[1..]);
      assert [a[0]] + a[1..] == a;
      assert names' + Declared(a[1..]) == names + Declared(a);
    }
  }

  /** Steps that report no error report none when fewer names are taken. */
  lemma {:induction false} CleanWithFewer(fewer: set<string>, names: set<string>, steps: seq<Step>)
    requires Clean(names, steps) && fewer <= names
    ensures Clean(fewer, steps)
    decreases |steps|
  {
    if steps != [] {
      if steps[0].Declare? {
        CleanWithFewer(fewer + {steps[0].name}, names + {steps[0].name}, steps[1..]);
      } else {
        CleanWithFewer(fewer, names, steps[1..]);
      }
    }
  }

  lemma DeclaredSplit(a: seq<Step>, b: seq<Step>)
    ensures Declared(a + b) == Declared(a) + Declared(b)
  {
    assert forall s :: s in a + b <==> s in a || s in b;
  }

  // ----- Every declared name has its scope declared too -----

  /** `full` is directly inside `scope`. */
  predicate DirectlyIn(full: string, scope: string) {
    if scope == "" then NoDot(full) else LastDot(full) >= 0 && Parent(full) == scope
  }

  predicate HoldsNames(s: Step) {
    s.Declare? && s.name != "" && (s.kind == MESSAGE || s.kind == SERVICE)
  }

  ghost predicate InScope(name: string, scope: string, steps: seq<Step>) {
    DirectlyIn(name, scope) || exists s :: s in steps && HoldsNames(s) && DirectlyIn(name, s.name)
  }

  /** No package is declared, and every name lies in `scope` or in a message or service of the same steps. */
  ghost predicate Scoped(steps: seq<Step>, scope: string) {
    forall s | s in steps && s.Declare? :: s.kind != PACKAGE && InScope(s.name, scope, steps)
  }

  lemma JoinIsIn(scope: string, name: string)
    requires ValidIdentifier(name)
    ensures DirectlyIn(Join(scope, name), scope) && Join(scope, name) != ""
  {
    assert NoDot(name);
    if scope != "" { ParentOfJoined(scope, name); }
  }

  lemma ScopedSplit(a: seq<Step>, b: seq<Step>, scope: string)
    requires Scoped(a, scope) && Scoped(b, scope)
    ensures Scoped(a + b, scope)
  {
    forall s | s in a + b && s.Declare? ensures InScope(s.name, scope, a + b) {
      if s in a { assert InScope(s.name, scope, a); } else { assert InScope(s.name, scope, b); }
    }
  }

  /** Steps scoped in a message or service that is itself declared last. */
  lemma ScopedInside(inner: seq<Step>, holder: Step, scope: string)
    requires HoldsNames(holder) && DirectlyIn(holder.name, scope) && Scoped(inner, holder.name)
    ensures Scoped(inner + [holder], scope)
  {
    var all := inner + [holder];
    assert holder in all;
    forall s | s in all && s.Declare? ensures s.kind != PACKAGE && InScope(s.name, scope, all) {
      if s in inner { assert InScope(s.name, holder.name, inner); }
    }
  }

  lemma {:induction false} FieldsScoped(fields: seq<FieldProto>, scope: string, isExtension: bool, names: set<string>)
    requires Clean(names, FieldSteps(fields, scope, isExtension))
    ensures Scoped(FieldSteps(fields, scope, isExtension), scope)
    decreases |fields|
  {
    if fields != [] {
      var f := fields[0];
      var first := [Check(ValidIdentifier(f.name)), Check(ValidField(f, isExtension)),
                    Declare(Join(scope, f.name), FIELD)];
      CleanSplit(names, first, FieldSteps(fields[1..], scope, isExtension));
      JoinIsIn(scope, f.name);
      FieldsScoped(fields[1..], scope, isExtension, names + Declared(first));
      ScopedSplit(first, FieldSteps(fields[1..], scope, isExtension), scope);
    }
  }

  lemma {:induction false} ValuesScoped(values: seq<string>, scope: string, names: set<string>)
    requires Clean(names, ValueSteps(values, scope))
    ensures Scoped(ValueSteps(values, scope), scope)
    decreases |values|
  {
    if values != [] {
      var first := [Check(ValidIdentifier(values[0])), Declare(Join(scope, values[0]), ENUM_VALUE)];
      CleanSplit(names, first, ValueSteps(values[1..], scope));
      JoinIsIn(scope, values[0]);
      ValuesScoped(values[1..], scope, names + Declared(first));
      ScopedSplit(first, ValueSteps(values[1..], scope), scope);
    }
  }

  lemma {:induction false} EnumsScoped(enums: seq<EnumProto>, scope: string, names: set<string>)
    requires Clean(names, EnumSteps(enums, scope))
    ensures Scoped(EnumSteps(enums, scope), scope)
    decreases |enums|
  {
    if enums != [] {
      var e := enums[0];
      var checks := [Check(ValidIdentifier(e.name)), Check(e.values != [])];
      var values, self, rest :=
        ValueSteps(e.values, scope), [Declare(Join(scope, e.name), ENUM)], EnumSteps(enums[1..], scope);
      CleanSplit(names, checks + values + self, rest);
      CleanSplit(names, checks + values, self);
      CleanSplit(names, checks, values);
      JoinIsIn(scope, e.name);
      ValuesScoped(e.values, scope, names + Declared(checks));
      EnumsScoped(enums[1..], scope, names + Declared(checks + values + self));
      ScopedSplit(checks, values, scope);
      ScopedSplit(checks + values, self, scope);
      ScopedSplit(checks + values + self, rest, scope);
    }
  }

  lemma {:induction false} MethodsScoped(methods: seq<MethodProto>, service: string, names: set<string>)
    requires service != "" && Clean(names, MethodSteps(methods, service))
    ensures Scoped(MethodSteps(methods, service), service)
    decreases |methods|
  {
    if methods != [] {
      var first := [Check(ValidIdentifier(methods[0].name)), Declare(service + ['.'] + methods[0].name, METHOD)];
      CleanSplit(names, first, MethodSteps(methods[1..], service));
      JoinIsIn(service, methods[0].name);
      MethodsScoped(methods[1..], service, names + Declared(first));
      ScopedSplit(first, MethodSteps(methods[1..], service), service);
    }
  }

  lemma {:induction false} ServicesScoped(services: seq<ServiceProto>, scope: string, names: set<string>)
    requires Clean(names, ServiceSteps(services, scope))
    ensures Scoped(ServiceSteps(services, scope), scope)
    decreases |services|
  {
    if services != [] {
      var full := Join(scope, services[0].name);
      var check, methods := [Check(ValidIdentifier(services[0].name))], MethodSteps(services[0].methods, full);
      var self, rest := Declare(full, SERVICE), ServiceSteps(services[1..], scope);
      CleanSplit(names, check + methods + [self], rest);
      CleanSplit(names, check + methods, [self]);
      CleanSplit(names, check, methods);
      JoinIsIn(scope, services[0].name);
      MethodsScoped(services[0].methods, full, names + Declared(check));
      ScopedSplit(check, methods, full);
      ScopedInside(check + methods, self, scope);
      ServicesScoped(services[1..], scope, names + Declared(check + methods + [self]));
      ScopedSplit(check + methods + [self], rest, scope);
    }
  }

  lemma {:induction false} MembersScoped(m: MessageProto, full: string, names: set<string>)
    requires Clean(names, MemberSteps(m, full))
    ensures Scoped(MemberSteps(m, full), full)
    decreases m, 0
  {
    var fields, nested := FieldSteps(m.fields, full, false), MessagesSteps(m.nested, full);
    var enums, extensions := EnumSteps(m.enums, full), FieldSteps(m.extensions, full, true);
    CleanSplit(names, fields + nested + enums, extensions);
    CleanSplit(names, fields + nested, enums);
    CleanSplit(names, fields, nested);
    FieldsScoped(m.fields, full, false, names);
    MessagesScoped(m.nested, full, names + Declared(fields));
    EnumsScoped(m.enums, full, names + Declared(fields + nested));
    FieldsScoped(m.extensions, full, true, names + Declared(fields + nested + enums));
    ScopedSplit(fields, nested, full);
    ScopedSplit(fields + nested, enums, full);
    ScopedSplit(fields + nested + enums, extensions, full);
  }

  lemma {:induction false} MessageScoped(m: MessageProto, scope: string, names: set<string>)
    requires Clean(names, MessageSteps(m, scope))
    ensures Scoped(MessageSteps(m, scope), scope)
    decreases m, 1
  {
    var full := Join(scope, m.name);
    var check := [Check(ValidIdentifier(m.name)), Check(ValidRanges(m))];
    var members, self := MemberSteps(m, full), Declare(full, MESSAGE);
    CleanSplit(names, check + members, [self]);
    CleanSplit(names, check, members);
    JoinIsIn(scope, m.name);
    MembersScoped(m, full, names + Declared(check));
    ScopedSplit(check, members, full);
    ScopedInside(check + members, self, scope);
  }

  lemma {:induction false} MessagesScoped(messages: seq<MessageProto>, scope: string, names: set<string>)
    requires Clean(names, MessagesSteps(messages, scope))
    ensures Scoped(MessagesSteps(messages, scope), scope)
    decreases messages
  {
    if messages != [] {
      var first, rest := MessageSteps(messages[0], scope), MessagesSteps(messages[1..], scope);
      CleanSplit(names, first, rest);
      MessageScoped(messages[0], scope, names);
      MessagesScoped(messages[1..], scope, names + Declared(first));
      ScopedSplit(first, rest, scope);
    }
  }

  /** A file built without error declares every name in its package, or in a message or service it declares. */
  lemma FileScoped(proto: FileProto, names: set<string>)
    requires Clean(names, FileSteps(proto))
    ensures Scoped(FileSteps(proto), PackageOf(proto))
  {
    var scope := PackageOf(proto);
    var messages, enums := MessagesSteps(proto.messages, scope), EnumSteps(proto.enums, scope);
    var services, extensions := ServiceSteps(proto.services, scope), FieldSteps(proto.extensions, scope, true);
    CleanSplit(names, messages + enums + services, extensions);
    CleanSplit(names, messages + enums, services);
    CleanSplit(names, messages, enums);
    MessagesScoped(proto.messages, scope, names);
    EnumsScoped(proto.enums, scope, names + Declared(messages));
    ServicesScoped(proto.services, scope, names + Declared(messages + enums));
    FieldsScoped(proto.extensions, scope, true, names + Declared(messages + enums + services));
    ScopedSplit(messages, enums, scope);
    ScopedSplit(messages + enums, services, scope);
    ScopedSplit(messages + enums + services, extensions, scope);
  }

  // ----- Ownership of sub-symbols -----

  ghost predicate OwnedAt(symbols: Symbols, n: string)
    requires n in symbols
  {
    LastDot(n) >= 0 ==>
      && Parent(n) in symbols
      && (symbols[Parent(n)].kind == PACKAGE
          || (symbols[Parent(n)].file == symbols[n].file && symbols[n].kind != PACKAGE))
  }

  /** The nearest dotted prefix of a symbol is a symbol: a package, or a symbol of the same file. */
  ghost predicate Owned(symbols: Symbols) {
    forall n | n in symbols :: OwnedAt(symbols, n)
  }

  /** Hence every dotted prefix of a symbol is a symbol, every prefix of a package is a package, and
      a prefix that is not a package belongs to the symbol's own file. */
  lemma {:induction false} PrefixesOwned(symbols: Symbols, p: string, n: string)
    requires Owned(symbols) && n in symbols && Covers(p, n)
    ensures p in symbols
    ensures symbols[n].kind == PACKAGE ==> symbols[p].kind == PACKAGE
    ensures symbols[p].kind != PACKAGE ==> symbols[p].file == symbols[n].file
    decreases |n|
  {
    if p != n {
      CoversParent(p, n);
      assert OwnedAt(symbols, n);
      PrefixesOwned(symbols, p, Parent(n));
    }
  }

  /** `IsSubSymbolOfBuiltType`. */
  ghost predicate SubSymbolOfBuiltType(symbols: Symbols, name: string) {
    exists p :: p in symbols && symbols[p].kind != PACKAGE && p != name && Covers(p, name)
  }

  /** Why the fallback database may be skipped for a sub-symbol of a built type: in any table that
      grows out of this one, the name can only come from a file that is already here. */
  lemma SubSymbolsAreHere(symbols: Symbols, later: Symbols, name: string)
    requires SubSymbolOfBuiltType(symbols, name) && Submap(symbols, later) && Owned(later) && name in later
    ensures exists p :: p in symbols && Covers(p, name) && symbols[p].file == later[name].file
  {
    var p :| p in symbols && symbols[p].kind != PACKAGE && p != name && Covers(p, name);
    PrefixesOwned(later, p, name);
  }

  // ----- Packages -----

  /** `AddPackage` reports no error. */
  predicate PackageClean(symbols: Symbols, name: string)
    decreases |name|
  {
    if name in symbols then symbols[name].kind == PACKAGE
    else
      && ValidIdentifier(name[LastDot(name) + 1..])
      && (LastDot(name) >= 0 ==> PackageClean(symbols, Parent(name)))
  }

  lemma {:induction false} PackageCleanFrame(symbols: Symbols, other: Symbols, name: string)
    requires forall n | |n| <= |name| :: n in symbols <==> n in other
    requires forall n | |n| <= |name| && n in symbols :: symbols[n].kind == other[n].kind
    ensures PackageClean(symbols, name) <==> PackageClean(other, name)
    decreases |name|
  {
    if name !in symbols && LastDot(name) >= 0 { PackageCleanFrame(symbols, other, Parent(name)); }
  }

  /** The names `AddPackage` adds: `name` and its prefixes, down to one that is there. */
  function PackageNames(names: set<string>, name: string): set<string>
    decreases |name|
  {
    if name in names then {}
    else if LastDot(name) < 0 then {name}
    else {name} + PackageNames(names, Parent(name))
  }

  lemma {:induction false} PackageNamesFrame(names: set<string>, other: set<string>, name: string)
    requires forall n | |n| <= |name| :: n in names <==> n in other
    ensures PackageNames(names, name) == PackageNames(other, name)
    decreases |name|
  {
    if name !in names && LastDot(name) >= 0 { PackageNamesFrame(names, other, Parent(name)); }
  }

  /** From `name` down to a package that was there before, every prefix is a package now. */
  ghost predicate PackageChain(before: Symbols, after: Symbols, name: string)
    decreases |name|
  {
    && name in after && after[name].kind == PACKAGE
    && (name !in before && LastDot(name) >= 0 ==> PackageChain(before, after, Parent(name)))
  }

  lemma {:induction false} PackageChainFrame(before: Symbols, other: Symbols, after: Symbols, name: string)
    requires PackageChain(other, after, name)
    requires forall n | |n| <= |name| && n in other :: n in before
    ensures PackageChain(before, after, name)
    decreases |name|
  {
    if name !in before && LastDot(name) >= 0 { PackageChainFrame(before, other, after, Parent(name)); }
  }

  lemma {:induction false} PackageChainParent(before: Symbols, after: Symbols, name: string, n: string)
    requires Owned(before) && PackageChain(before, after, name) && Covers(n, name) && n !in before
    ensures LastDot(n) >= 0 ==> Parent(n) in after && after[Parent(n)].kind == PACKAGE
    decreases |name|
  {
    if n != name {
      CoversParent(n, name);
      if name in before { PrefixesOwned(before, n, name); }
      PackageChainParent(before, after, Parent(name), n);
    } else if LastDot(n) >= 0 {
      assert PackageChain(before, after, Parent(n));
    }
  }

  /** What was added is packages of `file` that are prefixes of `name`. */
  ghost predicate OnlyPackagesAdded(before: Symbols, after: Symbols, name: string, file: Id) {
    && Submap(before, after) && after.Keys == before.Keys + PackageNames(before.Keys, name)
    && forall n | n in after && n !in before :: Covers(n, name) && after[n].kind == PACKAGE && after[n].file == file
  }

  lemma KnownPackage(symbols: Symbols, name: string, file: Id)
    requires name in symbols
    ensures OnlyPackagesAdded(symbols, symbols, name, file)
    ensures PackageClean(symbols, name) <==> symbols[name].kind == PACKAGE
    ensures PackageClean(symbols, name) ==> PackageChain(symbols, symbols, name)
  {
  }

  lemma TopPackage(symbols: Symbols, name: string, s: Symbol)
    requires name !in symbols && LastDot(name) < 0 && s.kind == PACKAGE
    ensures OnlyPackagesAdded(symbols, symbols[name := s], name, s.file)
    ensures PackageClean(symbols, name) <==> ValidIdentifier(name)
    ensures PackageChain(symbols, symbols[name := s], name)
  {
    hide LastDot, ValidIdentifier, Parent;
    assert name[0..] == name;
  }

  /** One level of `AddPackage`: the name is added, and then its parent package. */
  lemma PackageLevel(before: Symbols, mid: Symbols, after: Symbols, name: string, s: Symbol)
    requires name !in before && LastDot(name) >= 0 && mid == before[name := s] && s.kind == PACKAGE
    requires OnlyPackagesAdded(mid, after, Parent(name), s.file)
    ensures OnlyPackagesAdded(before, after, name, s.file)
    ensures PackageClean(before, name)
      <==> ValidIdentifier(name[LastDot(name) + 1..]) && PackageClean(mid, Parent(name))
    ensures PackageChain(mid, after, Parent(name)) ==> PackageChain(before, after, name)
  {
    PackageLevelFrame(before, mid, after, name, s);
    PackageNamesFrame(before.Keys, mid.Keys, Parent(name));
    assert mid.Keys == before.Keys + {name};
    assert PackageNames(before.Keys, name) == {name} + PackageNames(before.Keys, Parent(name));
    assert after.Keys == before.Keys + PackageNames(before.Keys, name);
    hide PackageClean, PackageChain, PackageNames;
    forall n | n in after && n !in before
      ensures Covers(n, name) && after[n].kind == PACKAGE && after[n].file == s.file
    {
      if n != name {
        assert n !in mid;
        CoversTransitive(n, Parent(name), name);
      } else {
        assert after[n] == mid[n];
      }
    }
    assert Submap(before, after) by {
      forall k | k in before ensures k in after && after[k] == before[k] { assert k in mid && mid[k] == before[k]; }
    }
  }

  lemma PackageLevelFrame(before: Symbols, mid: Symbols, after: Symbols, name: string, s: Symbol)
    requires name !in before && LastDot(name) >= 0 && mid == before[name := s]
    requires name in after && after[name].kind == PACKAGE
    ensures PackageClean(before, name)
      <==> ValidIdentifier(name[LastDot(name) + 1..]) && PackageClean(mid, Parent(name))
    ensures PackageChain(mid, after, Parent(name)) ==> PackageChain(before, after, name)
  {
    hide ValidIdentifier, PackageClean;
    CleanBelow(before, name);
    ShorterNames(before, mid, name, s);
    PackageCleanFrame(before, mid, Parent(name));
    if PackageChain(mid, after, Parent(name)) { PackageChainFrame(before, mid, after, Parent(name)); }
  }

  lemma CleanBelow(symbols: Symbols, name: string)
    requires name !in symbols && LastDot(name) >= 0
    ensures PackageClean(symbols, name)
      <==> ValidIdentifier(name[LastDot(name) + 1..]) && PackageClean(symbols, Parent(name))
  {
    hide ValidIdentifier;
  }

  lemma ShorterNames(before: Symbols, mid: Symbols, name: string, s: Symbol)
    requires LastDot(name) >= 0 && mid == before[name := s]
    ensures |Parent(name)| < |name|
    ensures forall n | |n| <= |Parent(name)| :: n in mid <==> n in before
    ensures forall n | |n| <= |Parent(name)| && n in mid :: before[n] == mid[n]
  {
  }

  lemma OwnedAfterPackage(before: Symbols, after: Symbols, name: string, file: Id)
    requires Owned(before) && OnlyPackagesAdded(before, after, name, file) && PackageChain(before, after, name)
    ensures Owned(after)
  {
    forall n | n in after ensures OwnedAt(after, n) {
      if n in before { assert OwnedAt(before, n); } else { PackageChainParent(before, after, name, n); }
    }
  }

  /** The table after the steps: the old symbols, and the declared ones in `file`. */
  ghost predicate StepsAdded(before: Symbols, after: Symbols, steps: seq<Step>, file: Id) {
    && Submap(before, after) && after.Keys == before.Keys + Declared(steps)
    && forall s | s in steps && s.Declare? :: after[s.name].kind == s.kind && after[s.name].file == file
  }

  lemma OwnedAfterSteps(before: Symbols, after: Symbols, steps: seq<Step>, scope: string, file: Id)
    requires Owned(before) && Scoped(steps, scope) && StepsAdded(before, after, steps, file)
    requires scope != "" ==> scope in before && before[scope].kind == PACKAGE
    ensures Owned(after)
  {
    forall n | n in after ensures OwnedAt(after, n) {
      if n in before {
        assert OwnedAt(before, n);
      } else {
        var s :| s in steps && s.Declare? && s.name == n;
        assert InScope(n, scope, steps);
        if DirectlyIn(n, scope) {
          if scope == "" { assert NoDot(n); }
        } else {
          var h :| h in steps && HoldsNames(h) && DirectlyIn(n, h.name);
        }
      }
    }
  }
}
