/** `DescriptorBuilder`: builds one file inside a transaction on the pool's tables. */
module DescriptorBuilder {
  import opened Names
  import opened OrderedMaps
  import opened Protos
  import opened PoolTables
  import opened SymbolOwnership
  import opened ScopeLookup
  import opened PublicImports
  import opened PoolInvariant
  import opened BuildConditions
  import opened LinkingSight
  import FallbackDatabase
  import MergedDatabase

  class DescriptorBuilder {
    const pool: Pool
    const tables: Tables
    var hadErrors: bool
    var file: Id
    var dependencies: set<Id>
    var possibleUndeclaredDependency: Option<Id>
    /** The fields of the file by number, each with its type. */
    var fieldsByNumber: set<ExtensionKey>

    constructor (pool: Pool, tables: Tables)
      ensures this.pool == pool && this.tables == tables
      ensures !hadErrors
    {
      this.pool, this.tables := pool, tables;
      hadErrors, file, dependencies, possibleUndeclaredDependency, fieldsByNumber := false, 0, {}, None, {};
    }

    // ----- Building descriptors -----

    method AllocateString() returns (key: Id)
      requires Inv(tables.StateNow())
      modifies tables
      ensures StepsDone(old(tables.StateNow()), tables.StateNow(), [], file, hadErrors, hadErrors)
      ensures key in tables.strings
    {
      ghost var p := tables.StateNow();
      key := tables.AllocateString();
      AllocationStep(p, tables.StateNow(), PoolTables.AllocateString(key));
      StepsAfterAllocation(p, tables.StateNow(), file, hadErrors);
    }

    method ValidateSymbolName(name: string)
      modifies this`hadErrors
      ensures hadErrors == (old(hadErrors) || !ValidIdentifier(name))
    {
      if name == "" {
        hadErrors := true;
      } else {
        for i := 0 to |name|
          invariant hadErrors == (old(hadErrors) || exists k :: 0 <= k < i && !ValidIdentifier([name[k]]))
        {
          if (name[i] < 'a' || 'z' < name[i]) && (name[i] < 'A' || 'Z' < name[i]) &&
             (name[i] < '0' || '9' < name[i]) && name[i] != '_' {
            assert !ValidIdentifier([name[i]]) by { assert [name[i]][0] == name[i]; }
            hadErrors := true;
          }
        }
        CharacterByCharacter(name);
      }
    }

    method AddSymbol(fullName: string, key: Id, kind: Kind)
      requires Inv(tables.StateNow()) && IsLoaded(tables.StateNow(), file)
      requires key in tables.strings && kind != PACKAGE
      modifies this`hadErrors, tables
      ensures StepsDone(old(tables.StateNow()), tables.StateNow(), [Declare(fullName, kind)], file, old(hadErrors),
                        hadErrors)
      ensures IsLoaded(tables.StateNow(), file)
    {
      hide Inv;
      ghost var p := tables.StateNow();
      var added := tables.AddSymbol(fullName, Symbol(kind, file, fullName, key));
      if !added { hadErrors := true; }
      DeclareStep(p, tables.StateNow(), fullName, Symbol(kind, file, fullName, key), old(hadErrors));
    }

    /** The steps done since `p` and `x`, extended by those done since `q` and `y`. */
    lemma Extend(p: State, q: State, done: seq<Step>, next: seq<Step>, x: bool, y: bool)
      requires StepsDone(p, q, done, file, x, y)
      requires StepsDone(q, tables.StateNow(), next, file, y, hadErrors)
      ensures StepsDone(p, tables.StateNow(), done + next, file, x, hadErrors)
    {
      StepsCompose(p, q, tables.StateNow(), done, next, file, x, y, hadErrors);
    }

    lemma KeyStays(p: State, steps: seq<Step>, x: bool, key: Id)
      requires StepsDone(p, tables.StateNow(), steps, file, x, hadErrors) && key in p.log.now.strings
      ensures key in tables.strings
    {
    }

    /** A check that may report an error. */
    method Report(ok: bool)
      requires Inv(tables.StateNow()) && IsLoaded(tables.StateNow(), file)
      modifies this`hadErrors, tables
      ensures StepsDone(old(tables.StateNow()), tables.StateNow(), [Check(ok)], file, old(hadErrors), hadErrors)
      ensures Inv(tables.StateNow()) && IsLoaded(tables.StateNow(), file)
      ensures tables.strings == old(tables.strings)
    {
      CheckStep(tables.StateNow(), ok, file, hadErrors);
      if !ok { hadErrors := true; }
    }

    /** What every descriptor starts with: its full name is allocated, and its name checked. */
    method Begin(name: string) returns (key: Id)
      requires Inv(tables.StateNow()) && IsLoaded(tables.StateNow(), file)
      modifies this`hadErrors, tables
      ensures StepsDone(old(tables.StateNow()), tables.StateNow(), [Check(ValidIdentifier(name))], file, old(hadErrors),
                        hadErrors)
      ensures Inv(tables.StateNow()) && IsLoaded(tables.StateNow(), file)
      ensures key in tables.strings
    {
      ghost var p, x := tables.StateNow(), hadErrors;
      key := AllocateString();
      ghost var q := tables.StateNow();
      ValidateSymbolName(name);
      CheckStep(q, ValidIdentifier(name), file, x);
      Extend(p, q, [], [Check(ValidIdentifier(name))], x, x);
      assert [] + [Check(ValidIdentifier(name))] == [Check(ValidIdentifier(name))];
    }

    method BuildFieldOrExtension(f: FieldProto, scope: string, isExtension: bool)
      requires Inv(tables.StateNow()) && IsLoaded(tables.StateNow(), file)
      modifies this`hadErrors, tables
      ensures StepsDone(old(tables.StateNow()), tables.StateNow(),
                        [Check(ValidIdentifier(f.name)), Check(ValidField(f, isExtension)),
                         Declare(Join(scope, f.name), FIELD)], file, old(hadErrors), hadErrors)
      ensures Inv(tables.StateNow()) && IsLoaded(tables.StateNow(), file)
    {
      hide StepsDone, Inv, IsLoaded;
      ghost var p, x := tables.StateNow(), hadErrors;
      var key := Begin(f.name);
      ghost var q, y := tables.StateNow(), hadErrors;
      Report(ValidField(f, isExtension));
      Extend(p, q, [Check(ValidIdentifier(f.name))], [Check(ValidField(f, isExtension))], x, y);
      ghost var done := [Check(ValidIdentifier(f.name))] + [Check(ValidField(f, isExtension))];
      q, y := tables.StateNow(), hadErrors;
      AddSymbol(Join(scope, f.name), key, FIELD);
      Extend(p, q, done, [Declare(Join(scope, f.name), FIELD)], x, y);
      assert done + [Declare(Join(scope, f.name), FIELD)]
          == [Check(ValidIdentifier(f.name)), Check(ValidField(f, isExtension)), Declare(Join(scope, f.name), FIELD)];
    }

    method BuildFields(fields: seq<FieldProto>, scope: string, isExtension: bool)
      requires Inv(tables.StateNow()) && IsLoaded(tables.StateNow(), file)
      modifies this`hadErrors, tables
      ensures StepsDone(old(tables.StateNow()), tables.StateNow(), FieldSteps(fields, scope, isExtension), file,
                        old(hadErrors), hadErrors)
      ensures Inv(tables.StateNow()) && IsLoaded(tables.StateNow(), file)
    {
      hide StepsDone, Inv, IsLoaded, FieldSteps;
      ghost var p, x := tables.StateNow(), hadErrors;
      ghost var done: seq<Step> := [];
      NoSteps(p, file, x);
      assert fields[0..] == fields;
      for i := 0 to |fields|
        invariant done + FieldSteps(fields[i..], scope, isExtension) == FieldSteps(fields, scope, isExtension)
        invariant StepsDone(p, tables.StateNow(), done, file, x, hadErrors)
        invariant Inv(tables.StateNow()) && IsLoaded(tables.StateNow(), file)
      {
        ghost var q, y := tables.StateNow(), hadErrors;
        BuildFieldOrExtension(fields[i], scope, isExtension);
        ghost var next :=
          [Check(ValidIdentifier(fields[i].name)), Check(ValidField(fields[i], isExtension)),
           Declare(Join(scope, fields[i].name), FIELD)];
        FieldStepsNext(fields, scope, isExtension, i, done, FieldSteps(fields, scope, isExtension));
        Extend(p, q, done, next, x, y);
        done := done + next;
      }
      NoFieldSteps(fields, scope, isExtension);
      assert done + [] == done;
    }

    method BuildEnumValue(value: string, enumName: string, enumFullName: string, ghost scope: string)
      requires enumFullName == Join(scope, enumName)
      requires Inv(tables.StateNow()) && IsLoaded(tables.StateNow(), file)
      modifies this`hadErrors, tables
      ensures StepsDone(old(tables.StateNow()), tables.StateNow(),
                        [Check(ValidIdentifier(value)), Declare(Join(scope, value), ENUM_VALUE)], file, old(hadErrors),
                          hadErrors)
      ensures Inv(tables.StateNow()) && IsLoaded(tables.StateNow(), file)
    {
      hide StepsDone, Inv, IsLoaded;
      ghost var p, x := tables.StateNow(), hadErrors;
      var key := Begin(value);
      ghost var q, y := tables.StateNow(), hadErrors;
      var fullName := enumFullName[..|enumFullName| - |enumName|] + value;
      assert fullName == Join(scope, value);
      AddSymbol(fullName, key, ENUM_VALUE);
      Extend(p, q, [Check(ValidIdentifier(value))], [Declare(fullName, ENUM_VALUE)], x, y);
      assert [Check(ValidIdentifier(value))] + [Declare(fullName, ENUM_VALUE)]
          == [Check(ValidIdentifier(value)), Declare(Join(scope, value), ENUM_VALUE)];
    }

    method BuildEnumValues(values: seq<string>, enumName: string, enumFullName: string, ghost scope: string)
      requires enumFullName == Join(scope, enumName)
      requires Inv(tables.StateNow()) && IsLoaded(tables.StateNow(), file)
      modifies this`hadErrors, tables
      ensures StepsDone(old(tables.StateNow()), tables.StateNow(), ValueSteps(values, scope), file, old(hadErrors),
                        hadErrors)
      ensures Inv(tables.StateNow()) && IsLoaded(tables.StateNow(), file)
    {
      hide StepsDone, Inv, IsLoaded, ValueSteps;
      ghost var p, x := tables.StateNow(), hadErrors;
      ghost var done: seq<Step> := [];
      NoSteps(p, file, x);
      assert values[0..] == values;
      for i := 0 to |values|
        invariant done + ValueSteps(values[i..], scope) == ValueSteps(values, scope)
        invariant StepsDone(p, tables.StateNow(), done, file, x, hadErrors)
        invariant Inv(tables.StateNow()) && IsLoaded(tables.StateNow(), file)
      {
        ghost var q, y := tables.StateNow(), hadErrors;
        BuildEnumValue(values[i], enumName, enumFullName, scope);
        ghost var next := [Check(ValidIdentifier(values[i])), Declare(Join(scope, values[i]), ENUM_VALUE)];
        ValueStepsNext(values, scope, i, done, ValueSteps(values, scope));
        Extend(p, q, done, next, x, y);
        done := done + next;
      }
      NoValueSteps(values, scope);
      assert done + [] == done;
    }

    method BuildEnum(e: EnumProto, scope: string)
      requires Inv(tables.StateNow()) && IsLoaded(tables.StateNow(), file)
      modifies this`hadErrors, tables
      ensures StepsDone(old(tables.StateNow()), tables.StateNow(), EnumSteps([e], scope), file, old(hadErrors),
                        hadErrors)
      ensures Inv(tables.StateNow()) && IsLoaded(tables.StateNow(), file)
    {
      hide StepsDone, Inv, IsLoaded;
      ghost var p, x := tables.StateNow(), hadErrors;
      var fullName := Join(scope, e.name);
      var key := Begin(e.name);
      ghost var done := [Check(ValidIdentifier(e.name))];
      ghost var q, y := tables.StateNow(), hadErrors;
      Report(e.values != []);
      Extend(p, q, done, [Check(e.values != [])], x, y);
      done := done + [Check(e.values != [])];
      q, y := tables.StateNow(), hadErrors;
      BuildEnumValues(e.values, e.name, fullName, scope);
      Extend(p, q, done, ValueSteps(e.values, scope), x, y);
      KeyStays(q, ValueSteps(e.values, scope), y, key);
      done := done + ValueSteps(e.values, scope);
      q, y := tables.StateNow(), hadErrors;
      AddSymbol(fullName, key, ENUM);
      Extend(p, q, done, [Declare(fullName, ENUM)], x, y);
      assert [e][1..] == [];
      assert done + [Declare(fullName, ENUM)] == EnumSteps([e], scope);
    }

    method BuildEnums(enums: seq<EnumProto>, scope: string)
      requires Inv(tables.StateNow()) && IsLoaded(tables.StateNow(), file)
      modifies this`hadErrors, tables
      ensures StepsDone(old(tables.StateNow()), tables.StateNow(), EnumSteps(enums, scope), file, old(hadErrors),
                        hadErrors)
      ensures Inv(tables.StateNow()) && IsLoaded(tables.StateNow(), file)
    {
      hide StepsDone, Inv, IsLoaded, EnumSteps;
      ghost var p, x := tables.StateNow(), hadErrors;
      ghost var done: seq<Step> := [];
      NoSteps(p, file, x);
      assert enums[0..] == enums;
      for i := 0 to |enums|
        invariant done + EnumSteps(enums[i..], scope) == EnumSteps(enums, scope)
        invariant StepsDone(p, tables.StateNow(), done, file, x, hadErrors)
        invariant Inv(tables.StateNow()) && IsLoaded(tables.StateNow(), file)
      {
        ghost var q, y := tables.StateNow(), hadErrors;
        BuildEnum(enums[i], scope);
        ghost var next := EnumSteps([enums[i]], scope);
        EnumStepsNext(enums, scope, i, done, EnumSteps(enums, scope));
        Extend(p, q, done, next, x, y);
        done := done + next;
      }
      NoEnumSteps(enums, scope);
      assert done + [] == done;
    }

    method BuildMethod(m: MethodProto, service: string)
      requires Inv(tables.StateNow()) && IsLoaded(tables.StateNow(), file)
      modifies this`hadErrors, tables
      ensures StepsDone(old(tables.StateNow()), tables.StateNow(),
                        [Check(ValidIdentifier(m.name)), Declare(service + ['.'] + m.name, METHOD)], file,
                          old(hadErrors), hadErrors)
      ensures Inv(tables.StateNow()) && IsLoaded(tables.StateNow(), file)
    {
      hide StepsDone, Inv, IsLoaded;
      ghost var p, x := tables.StateNow(), hadErrors;
      var key := Begin(m.name);
      ghost var q, y := tables.StateNow(), hadErrors;
      AddSymbol(service + ['.'] + m.name, key, METHOD);
      Extend(p, q, [Check(ValidIdentifier(m.name))], [Declare(service + ['.'] + m.name, METHOD)], x, y);
      assert [Check(ValidIdentifier(m.name))] + [Declare(service + ['.'] + m.name, METHOD)]
          == [Check(ValidIdentifier(m.name)), Declare(service + ['.'] + m.name, METHOD)];
    }

    method BuildMethods(methods: seq<MethodProto>, service: string)
      requires Inv(tables.StateNow()) && IsLoaded(tables.StateNow(), file)
      modifies this`hadErrors, tables
      ensures StepsDone(old(tables.StateNow()), tables.StateNow(), MethodSteps(methods, service), file, old(hadErrors),
                        hadErrors)
      ensures Inv(tables.StateNow()) && IsLoaded(tables.StateNow(), file)
    {
      hide StepsDone, Inv, IsLoaded, MethodSteps;
      ghost var p, x := tables.StateNow(), hadErrors;
      ghost var done: seq<Step> := [];
      NoSteps(p, file, x);
      assert methods[0..] == methods;
      for i := 0 to |methods|
        invariant done + MethodSteps(methods[i..], service) == MethodSteps(methods, service)
        invariant StepsDone(p, tables.StateNow(), done, file, x, hadErrors)
        invariant Inv(tables.StateNow()) && IsLoaded(tables.StateNow(), file)
      {
        ghost var q, y := tables.StateNow(), hadErrors;
        BuildMethod(methods[i], service);
        ghost var next := [Check(ValidIdentifier(methods[i].name)), Declare(service + ['.'] + methods[i].name, METHOD)];
        MethodStepsNext(methods, service, i, done, MethodSteps(methods, service));
        Extend(p, q, done, next, x, y);
        done := done + next;
      }
      NoMethodSteps(methods, service);
      assert done + [] == done;
    }

    method BuildService(s: ServiceProto, scope: string)
      requires Inv(tables.StateNow()) && IsLoaded(tables.StateNow(), file)
      modifies this`hadErrors, tables
      ensures StepsDone(old(tables.StateNow()), tables.StateNow(), ServiceSteps([s], scope), file, old(hadErrors),
                        hadErrors)
      ensures Inv(tables.StateNow()) && IsLoaded(tables.StateNow(), file)
    {
      hide StepsDone, Inv, IsLoaded;
      ghost var p, x := tables.StateNow(), hadErrors;
      var fullName := Join(scope, s.name);
      var key := Begin(s.name);
      ghost var done := [Check(ValidIdentifier(s.name))];
      ghost var q, y := tables.StateNow(), hadErrors;
      BuildMethods(s.methods, fullName);
      Extend(p, q, done, MethodSteps(s.methods, fullName), x, y);
      KeyStays(q, MethodSteps(s.methods, fullName), y, key);
      done := done + MethodSteps(s.methods, fullName);
      q, y := tables.StateNow(), hadErrors;
      AddSymbol(fullName, key, SERVICE);
      Extend(p, q, done, [Declare(fullName, SERVICE)], x, y);
      assert [s][1..] == [];
      assert done + [Declare(fullName, SERVICE)] == ServiceSteps([s], scope);
    }

    method BuildServices(services: seq<ServiceProto>, scope: string)
      requires Inv(tables.StateNow()) && IsLoaded(tables.StateNow(), file)
      modifies this`hadErrors, tables
      ensures StepsDone(old(tables.StateNow()), tables.StateNow(), ServiceSteps(services, scope), file, old(hadErrors),
                        hadErrors)
      ensures Inv(tables.StateNow()) && IsLoaded(tables.StateNow(), file)
    {
      hide StepsDone, Inv, IsLoaded, ServiceSteps;
      ghost var p, x := tables.StateNow(), hadErrors;
      ghost var done: seq<Step> := [];
      NoSteps(p, file, x);
      assert services[0..] == services;
      for i := 0 to |services|
        invariant done + ServiceSteps(services[i..], scope) == ServiceSteps(services, scope)
        invariant StepsDone(p, tables.StateNow(), done, file, x, hadErrors)
        invariant Inv(tables.StateNow()) && IsLoaded(tables.StateNow(), file)
      {
        ghost var q, y := tables.StateNow(), hadErrors;
        BuildService(services[i], scope);
        ghost var next := ServiceSteps([services[i]], scope);
        ServiceStepsNext(services, scope, i, done, ServiceSteps(services, scope));
        Extend(p, q, done, next, x, y);
        done := done + next;
      }
      NoServiceSteps(services, scope);
      assert done + [] == done;
    }

    method BuildMembers(m: MessageProto, fullName: string)
      requires Inv(tables.StateNow()) && IsLoaded(tables.StateNow(), file)
      modifies this`hadErrors, tables
      ensures StepsDone(old(tables.StateNow()), tables.StateNow(), MemberSteps(m, fullName), file, old(hadErrors),
                        hadErrors)
      ensures Inv(tables.StateNow()) && IsLoaded(tables.StateNow(), file)
      decreases m, 0
    {
      hide StepsDone, Inv, IsLoaded;
      ghost var p, x := tables.StateNow(), hadErrors;
      BuildFields(m.fields, fullName, false);
      ghost var done := FieldSteps(m.fields, fullName, false);
      ghost var q, y := tables.StateNow(), hadErrors;
      BuildMessages(m.nested, fullName);
      Extend(p, q, done, MessagesSteps(m.nested, fullName), x, y);
      done := done + MessagesSteps(m.nested, fullName);
      q, y := tables.StateNow(), hadErrors;
      BuildEnums(m.enums, fullName);
      Extend(p, q, done, EnumSteps(m.enums, fullName), x, y);
      done := done + EnumSteps(m.enums, fullName);
      q, y := tables.StateNow(), hadErrors;
      BuildFields(m.extensions, fullName, true);
      Extend(p, q, done, FieldSteps(m.extensions, fullName, true), x, y);
    }

    /** A message is declared after everything inside it. */
    method BuildMessage(m: MessageProto, scope: string)
      requires Inv(tables.StateNow()) && IsLoaded(tables.StateNow(), file)
      modifies this`hadErrors, tables
      ensures StepsDone(old(tables.StateNow()), tables.StateNow(), MessageSteps(m, scope), file, old(hadErrors),
                        hadErrors)
      ensures Inv(tables.StateNow()) && IsLoaded(tables.StateNow(), file)
      decreases m, 1
    {
      hide StepsDone, Inv, IsLoaded, MemberSteps, ValidRanges, ValidIdentifier;
      ghost var p, x := tables.StateNow(), hadErrors;
      var fullName := Join(scope, m.name);
      var key := Begin(m.name);
      ghost var q, y := tables.StateNow(), hadErrors;
      Report(ValidRanges(m));
      Extend(p, q, [Check(ValidIdentifier(m.name))], [Check(ValidRanges(m))], x, y);
      ghost var done := [Check(ValidIdentifier(m.name))] + [Check(ValidRanges(m))];
      q, y := tables.StateNow(), hadErrors;
      BuildMembers(m, fullName);
      ghost var members := MemberSteps(m, fullName);
      KeyStays(q, members, y, key);
      Extend(p, q, done, members, x, y);
      done := done + members;
      q, y := tables.StateNow(), hadErrors;
      AddSymbol(fullName, key, MESSAGE);
      Extend(p, q, done, [Declare(fullName, MESSAGE)], x, y);
      assert done + [Declare(fullName, MESSAGE)] == MessageSteps(m, scope);
    }

    method BuildMessages(messages: seq<MessageProto>, scope: string)
      requires Inv(tables.StateNow()) && IsLoaded(tables.StateNow(), file)
      modifies this`hadErrors, tables
      ensures StepsDone(old(tables.StateNow()), tables.StateNow(), MessagesSteps(messages, scope), file, old(hadErrors),
                        hadErrors)
      ensures Inv(tables.StateNow()) && IsLoaded(tables.StateNow(), file)
      decreases messages
    {
      hide StepsDone, Inv, IsLoaded, MessagesSteps, MessageSteps;
      ghost var p, x := tables.StateNow(), hadErrors;
      ghost var done: seq<Step> := [];
      NoSteps(p, file, x);
      assert messages[0..] == messages;
      for i := 0 to |messages|
        invariant done + MessagesSteps(messages[i..], scope) == MessagesSteps(messages, scope)
        invariant StepsDone(p, tables.StateNow(), done, file, x, hadErrors)
        invariant Inv(tables.StateNow()) && IsLoaded(tables.StateNow(), file)
      {
        ghost var q, y := tables.StateNow(), hadErrors;
        BuildMessage(messages[i], scope);
        ghost var next := MessageSteps(messages[i], scope);
        MessagesStepsNext(messages, scope, i, done, MessagesSteps(messages, scope));
        Extend(p, q, done, next, x, y);
        done := done + next;
      }
      NoMessagesSteps(messages, scope);
      assert done + [] == done;
    }

    method BuildChildren(proto: FileProto)
      requires Inv(tables.StateNow()) && IsLoaded(tables.StateNow(), file)
      modifies this`hadErrors, tables
      ensures StepsDone(old(tables.StateNow()), tables.StateNow(), FileSteps(proto), file, old(hadErrors), hadErrors)
      ensures Inv(tables.StateNow()) && IsLoaded(tables.StateNow(), file)
    {
      hide StepsDone, Inv, IsLoaded;
      var scope := PackageOf(proto);
      ghost var p, x := tables.StateNow(), hadErrors;
      BuildMessages(proto.messages, scope);
      ghost var done := MessagesSteps(proto.messages, scope);
      ghost var q, y := tables.StateNow(), hadErrors;
      BuildEnums(proto.enums, scope);
      Extend(p, q, done, EnumSteps(proto.enums, scope), x, y);
      done := done + EnumSteps(proto.enums, scope);
      q, y := tables.StateNow(), hadErrors;
      BuildServices(proto.services, scope);
      Extend(p, q, done, ServiceSteps(proto.services, scope), x, y);
      done := done + ServiceSteps(proto.services, scope);
      q, y := tables.StateNow(), hadErrors;
      BuildFields(proto.extensions, scope, true);
      Extend(p, q, done, FieldSteps(proto.extensions, scope, true), x, y);
    }

    // ----- The file and its imports -----

    /** Registers the package and, until one is known, each enclosing package. */
    method AddPackage(name: string, key: Id)
      requires Inv(tables.StateNow()) && IsLoaded(tables.StateNow(), file) && key in tables.strings
      modifies this`hadErrors, tables
      ensures PackageAdded(old(tables.StateNow()), tables.StateNow(), name, file, old(hadErrors), hadErrors)
      ensures Inv(tables.StateNow()) && IsLoaded(tables.StateNow(), file)
      decreases |name|
    {
      hide PackageClean, PackageChain, Inv, Grows, OnlyPackagesAdded;
      ghost var p, x := tables.StateNow(), hadErrors;
      var s := Symbol(PACKAGE, file, name, key);
      var added := tables.AddSymbol(name, s);
      ghost var q := tables.StateNow();
      SymbolStep(p, q, name, s);
      StillLoaded(p, q, file);
      if added {
        var dot := LastDot(name);
        if dot < 0 {
          PackageWithoutParent(p, q, name, s, x);
          ValidateSymbolName(name);
        } else {
          var parentKey := AllocateString();
          ghost var r := tables.StateNow();
          assert Grows(q, r) && r.log.now.symbols == q.log.now.symbols && r.descs == q.descs by {
            AllocatedOnly(q, r, file, x);
          }
          StillLoaded(q, r, file);
          AddPackage(name[..dot], parentKey);
          PackageWithParent(p, r, tables.StateNow(), name, s, x, hadErrors);
          ValidateSymbolName(name[dot + 1..]);
        }
      } else {
        PackageWithoutParent(p, q, name, s, x);
        if tables.symbolsByName[name].kind != PACKAGE { hadErrors := true; }
      }
    }

    lemma AllocatedOnly(p: State, q: State, file: Id, x: bool)
      requires StepsDone(p, q, [], file, x, x)
      ensures Grows(p, q) && q.log.now.symbols == p.log.now.symbols && q.descs == p.descs
    {
      assert Declared([]) == {};
    }

    /** Adds everything reachable from `f` along public imports. */
    method RecordPublicDependencies(f: Option<Id>)
      requires FilesOk(tables.StateNow()) && (f.Some? ==> IsLoaded(tables.StateNow(), f.value))
      modifies this`dependencies
      ensures old(dependencies) <= dependencies && (f.Some? ==> f.value in dependencies)
      ensures Closed(tables.descs, dependencies - old(dependencies), dependencies)
      ensures forall b | b in dependencies - old(dependencies) :: f.Some? && Reaches(tables.descs, f.value, b)
      ensures dependencies - old(dependencies) <= tables.descs.Keys
      ensures AllLoaded(tables.StateNow(), dependencies - old(dependencies))
      decreases tables.descs.Keys - dependencies
    {
      if f.None? || f.value in dependencies { return; }
      ghost var before := dependencies;
      var id := f.value;
      dependencies := dependencies + {id};
      ReachesSelf(tables.descs, id);
      var d := tables.descs[id];
      assert DependenciesInOrder(tables.StateNow(), id);
      for i := 0 to |d.publicDependencies|
        invariant before + {id} <= dependencies
        invariant forall k | 0 <= k < i && PublicEdge(d, k).Some? :: PublicEdge(d, k).value in dependencies
        invariant Closed(tables.descs, dependencies - before - {id}, dependencies)
        invariant forall b | b in dependencies - before :: Reaches(tables.descs, id, b)
        invariant dependencies - before <= tables.descs.Keys && AllLoaded(tables.StateNow(), dependencies - before)
      {
        ghost var now := dependencies;
        var edge := PublicEdge(d, i);
        RecordPublicDependencies(edge);
        forall b | b in dependencies - now ensures Reaches(tables.descs, id, b) {
          assert HasEdge(tables.descs, id, edge.value);
          ReachesEdge(tables.descs, id, edge.value, b);
        }
      }
    }

    /** Each import, looked up by name; one listed twice or not loaded is an error. */
    method FindDependencies(names: seq<string>) returns (found: seq<Option<Id>>)
      modifies this`hadErrors
      ensures |found| == |names|
      ensures forall k | 0 <= k < |names| :: found[k] == FileNamed(tables.filesByName, names[k])
      ensures hadErrors <==> old(hadErrors) || !NamesOk(tables.filesByName.Keys, names)
    {
      var seen: set<string> := {};
      found := [];
      for i := 0 to |names|
        invariant seen == Elements(names[..i]) && |found| == i
        invariant forall k | 0 <= k < i :: found[k] == FileNamed(tables.filesByName, names[k])
        invariant hadErrors <==> old(hadErrors) || !NamesOk(tables.filesByName.Keys, names[..i])
      {
        var name := names[i];
        assert names[..i + 1] == names[..i] + [name];
        NamesOkSnoc(tables.filesByName.Keys, names[..i], name);
        if name in seen { hadErrors := true; }
        seen := seen + {name};
        var dependency := if name in tables.filesByName then Some(tables.filesByName[name].file) else None;
        if dependency.None? { hadErrors := true; }
        found := found + [dependency];
      }
      assert names[..|names|] == names;
    }

    /** The public-import indexes that name an import; any other is an error. */
    method CheckPublicIndexes(count: nat, indexes: seq<int>) returns (publics: seq<nat>)
      modifies this`hadErrors
      ensures publics == ValidIndexes(count, indexes)
      ensures hadErrors <==> old(hadErrors) || !IndexesOk(count, indexes)
    {
      publics := [];
      for i := 0 to |indexes|
        invariant hadErrors <==> old(hadErrors) || !IndexesOk(count, indexes[..i])
        invariant publics == ValidIndexes(count, indexes[..i])
      {
        var index := indexes[i];
        assert indexes[..i + 1][..i] == indexes[..i];
        if 0 <= index < count { publics := publics + [index]; } else { hadErrors := true; }
      }
      assert indexes[..|indexes|] == indexes;
    }

    /** Looks the imports up and computes what the file may use. */
    method LoadDependencies(proto: FileProto)
      requires Inv(tables.StateNow()) && IsLoaded(tables.StateNow(), file)
      requires file in tables.descs && tables.descs[file] == FileDesc(proto.name, PackageOf(proto), [], [], proto)
      requires forall id | id in tables.descs :: id <= file
      modifies this`hadErrors, this`dependencies, tables`descs
      ensures Inv(tables.StateNow()) && IsLoaded(tables.StateNow(), file)
      ensures tables.descs == old(tables.descs)[file := tables.descs[file]]
      ensures ImportsResolved(proto, tables.StateNow(), file)
      ensures hadErrors <==> old(hadErrors) || !ImportsOk(tables.filesByName.Keys, proto)
      ensures IsPublicClosure(tables.descs, tables.descs[file].dependencies, dependencies)
      ensures dependencies <= tables.descs.Keys && AllLoaded(tables.StateNow(), dependencies)
    {
      ghost var p := tables.StateNow();
      var found := FindDependencies(proto.dependencies);
      var publics := CheckPublicIndexes(|proto.dependencies|, proto.publicDependencies);
      var d := tables.descs[file].(dependencies := found, publicDependencies := publics);
      forall i | 0 <= i < |found| && found[i].Some? ensures found[i].value <= file && IsLoaded(p, found[i].value) {
        assert found[i] == FileNamed(p.log.now.files, proto.dependencies[i]);
      }
      tables.descs := tables.descs[file := d];
      DependenciesStep(p, tables.StateNow(), file, d);
      CollectDependencies(found);
    }

    method CollectDependencies(direct: seq<Option<Id>>)
      requires FilesOk(tables.StateNow())
      requires forall i | 0 <= i < |direct| && direct[i].Some? :: IsLoaded(tables.StateNow(), direct[i].value)
      modifies this`dependencies
      ensures IsPublicClosure(tables.descs, direct, dependencies) && dependencies <= tables.descs.Keys
      ensures AllLoaded(tables.StateNow(), dependencies)
    {
      dependencies := {};
      for i := 0 to |direct|
        invariant AllLoaded(tables.StateNow(), dependencies)
        invariant Closed(tables.descs, dependencies, dependencies) && dependencies <= tables.descs.Keys
        invariant forall k | 0 <= k < i && direct[k].Some? :: direct[k].value in dependencies
        invariant forall b | b in dependencies :: exists k, a ::
          0 <= k < |direct| && direct[k] == Some(a) && Reaches(tables.descs, a, b)
      {
        ghost var before := dependencies;
        RecordPublicDependencies(direct[i]);
        forall b | b in dependencies
          ensures exists k, a :: 0 <= k < |direct| && direct[k] == Some(a) && Reaches(tables.descs, a, b)
        {
          if b !in before {
            assert b in dependencies - before;
            assert direct[i] == Some(direct[i].value) && Reaches(tables.descs, direct[i].value, b);
          }
        }
      }
      ClosureIsExact(tables.descs, direct, dependencies);
    }

    // ----- Looking names up while cross-linking -----

    ghost function EnvNow(): Env
      reads this, tables
    {
      Env(tables.symbolsByName, tables.descs, file, dependencies, pool.enforceDependencies)
    }

    /** Nothing that is built meanwhile can be seen by this file. */
    ghost predicate SettledNow()
      reads this, tables
    {
      Settled(pool, tables.StateNow(), file, dependencies)
    }

    method FindSymbolNotEnforcingDeps(name: string) returns (result: Option<Symbol>)
      requires Ready(pool) && Inv(tables.StateNow())
      modifies tables
      ensures Linked(pool, old(tables.StateNow()), tables.StateNow()) && Inv(tables.StateNow())
      ensures result.Some? ==> name in tables.symbolsByName && tables.symbolsByName[name] == result.value
      ensures name in old(tables.symbolsByName) ==> result.Some? && tables.StateNow() == old(tables.StateNow())
      ensures pool.fallback.None? ==> tables.StateNow() == old(tables.StateNow())
      ensures pool.fallback.None? && result.None? ==> name !in tables.symbolsByName
      decreases Unseen(pool, tables.StateNow()), 18
    {
      LinkedRefl(pool, tables.StateNow());
      if name in tables.symbolsByName { return Some(tables.symbolsByName[name]); }
      var loaded := TryFindSymbolInFallbackDatabase(pool, tables, name);
      if loaded && name in tables.symbolsByName { return Some(tables.symbolsByName[name]); }
      return None;
    }

    /** Some imported file's package is `name` or lies inside it. */
    method SomeDependencyInPackage(name: string) returns (found: bool)
      ensures found <==> exists d :: d in dependencies && IsInPackage(tables.descs, d, name)
    {
      var rest := dependencies;
      while rest != {}
        invariant rest <= dependencies
        invariant forall d | d in dependencies - rest :: !IsInPackage(tables.descs, d, name)
        decreases rest
      {
        var d :| d in rest;
        if IsInPackage(tables.descs, d, name) { return true; }
        rest := rest - {d};
      }
      return false;
    }

    /** Only symbols of this file, its imports, or packages they use, are found. */
    method FindSymbol(name: string) returns (result: Option<Symbol>)
      requires Ready(pool) && Inv(tables.StateNow())
      modifies this`possibleUndeclaredDependency, tables
      ensures Linked(pool, old(tables.StateNow()), tables.StateNow()) && Inv(tables.StateNow())
      ensures result == Visible(EnvNow(), name) || result.None?
      ensures pool.fallback.None? ==> tables.StateNow() == old(tables.StateNow())
      ensures old(SettledNow()) ==> result == Visible(old(EnvNow()), name)
      decreases Unseen(pool, tables.StateNow()), 19
    {
      hide Linked, Inv, Settled, OwnedIn;
      ghost var p := tables.StateNow();
      result := FindSymbolNotEnforcingDeps(name);
      LinkedEnv(p);
      if result.None? { return; }
      if !pool.enforceDependencies { return; }
      var s := result.value;
      if s.file == file || s.file in dependencies { return; }
      if s.kind == PACKAGE {
        if IsInPackage(tables.descs, file, name) { return; }
        var found := SomeDependencyInPackage(name);
        if found { return; }
      }
      possibleUndeclaredDependency := Some(s.file);
      result := None;
    }

    /** What was settled at `p` still is, and sees the same. */
    lemma SeesTheSame(p: State, name: string)
      requires Inv(p) && Linked(pool, p, tables.StateNow())
      ensures Settled(pool, p, file, dependencies) ==>
        SettledNow() && Visible(EnvOf(pool, p, file, dependencies), name) == Visible(EnvNow(), name)
    {
      hide Inv, Linked, Settled, Visible;
      LinkedEnv(p);
    }

    /** Scopes are tried from the inside out; the first that has the first component decides. */
    method LookupSymbolNoPlaceholder(name: string, relativeTo: string, mode: ResolveMode)
      returns (result: Option<Symbol>)
      requires Ready(pool) && Inv(tables.StateNow())
      modifies this`possibleUndeclaredDependency, tables
      ensures Linked(pool, old(tables.StateNow()), tables.StateNow()) && Inv(tables.StateNow())
      ensures result.Some? ==> exists n :: result == Visible(EnvNow(), n)
      ensures pool.fallback.None? ==> tables.StateNow() == old(tables.StateNow())
      ensures old(SettledNow()) ==> result == Resolve(old(EnvNow()), name, relativeTo, mode)
      ensures old(SettledNow()) && name != "" && name[0] == '.' ==>
        FoundAs(old(EnvNow()), name[1..], result)
      decreases Unseen(pool, tables.StateNow()), 20
    {
      hide Inv, Linked, Ready, Unseen, OwnedIn, Visible, Settled, SameSight, ResolveFrom, FirstDot, LastDot, IsType,
        IsAggregate, FoundAs;
      ghost var p, env := tables.StateNow(), EnvNow();
      LinkedRefl(pool, p);
      possibleUndeclaredDependency := None;
      if name != "" && name[0] == '.' {
        AbsoluteName(env, name[1..], relativeTo, mode);
        assert name == "." + name[1..];
        result := FindSymbol(name[1..]);
        return;
      }
      var dot := FirstDot(name);
      var firstPart := if dot < 0 then name else name[..dot];
      var scopeToTry := relativeTo;
      while true
        invariant Linked(pool, p, tables.StateNow()) && Inv(tables.StateNow())
        invariant pool.fallback.None? ==> tables.StateNow() == p
        invariant old(SettledNow()) ==>
          Resolve(env, name, relativeTo, mode) == ResolveFrom(env, name, scopeToTry, mode)
        decreases |scopeToTry|
      {
        ghost var q := tables.StateNow();
        LinkedShrinks(pool, p, q);
        ScopeStep(env, name, scopeToTry, mode);
        dot := LastDot(scopeToTry);
        if dot < 0 {
          SeesTheSame(p, name);
          result := FindSymbol(name);
          LinkedTransitive(pool, p, q, tables.StateNow());
          return;
        }
        scopeToTry := scopeToTry[..dot];
        SeesTheSame(p, scopeToTry + ['.'] + firstPart);
        result := FindSymbol(scopeToTry + ['.'] + firstPart);
        LinkedTransitive(pool, p, q, tables.StateNow());
        if result.Some? {
          if |firstPart| < |name| {
            if IsAggregate(result.value.kind) {
              ghost var r := tables.StateNow();
              LinkedShrinks(pool, p, r);
              SeesTheSame(p, scopeToTry + ['.'] + firstPart + name[|firstPart|..]);
              result := FindSymbol(scopeToTry + ['.'] + firstPart + name[|firstPart|..]);
              LinkedTransitive(pool, p, r, tables.StateNow());
              return;
            }
          } else if mode == LOOKUP_TYPES && !IsType(result.value.kind) {
          } else {
            return;
          }
        }
      }
    }

    // ----- Cross-linking -----

    /**
     * Enters a field under its number, and an extension in the pool; whether that number was free there is not asked.
     */
    method EnterField(key: ExtensionKey, fullName: string, isExtension: bool)
      requires Inv(tables.StateNow()) && IsLoaded(tables.StateNow(), file)
      requires isExtension && key.0.Some? ==> IsLoaded(tables.StateNow(), key.0.value.file)
      modifies this`hadErrors, this`fieldsByNumber, tables
      ensures Linked(pool, old(tables.StateNow()), tables.StateNow())
      ensures Inv(tables.StateNow()) && IsLoaded(tables.StateNow(), file)
      ensures hadErrors == (old(hadErrors) || key in old(fieldsByNumber))
        && fieldsByNumber == old(fieldsByNumber) + {key}
      ensures tables.LogNow() ==
        if isExtension then WithExtension(old(tables.LogNow()), key, Ref(file, fullName)) else old(tables.LogNow())
      ensures tables.extensions ==
        if isExtension then Claimed(old(tables.extensions), key, Ref(file, fullName)) else old(tables.extensions)
    {
      hide Inv, Linked, IsLoaded;
      ghost var r := tables.StateNow();
      LinkedRefl(pool, r);
      if key in fieldsByNumber { hadErrors := true; }
      fieldsByNumber := fieldsByNumber + {key};
      if isExtension {
        var _ := tables.AddExtension(key, Ref(file, fullName));
        ExtensionStep(pool, r, tables.StateNow(), key, Ref(file, fullName));
        LinkedStillLoaded(pool, r, tables.StateNow(), file);
      }
    }

    /** The type that holds a field or that an extension extends; false if that is not a message. */
    method CrossLinkExtendee(f: FieldProto, fullName: string, container: Option<Ref>)
      returns (extended: bool, containing: Option<Ref>)
      requires Ready(pool) && Inv(tables.StateNow()) && IsLoaded(tables.StateNow(), file)
      modifies this`hadErrors, this`possibleUndeclaredDependency, tables
      ensures Linked(pool, old(tables.StateNow()), tables.StateNow())
      ensures Inv(tables.StateNow()) && IsLoaded(tables.StateNow(), file)
      ensures (old(hadErrors) ==> hadErrors) && (!extended ==> hadErrors)
      ensures extended && f.extendee.Some? ==> containing.Some? && IsLoaded(tables.StateNow(), containing.value.file)
      ensures extended && f.extendee.None? ==> containing == container
      ensures pool.fallback.None? ==> EnvNow() == old(EnvNow()) && tables.extensions == old(tables.extensions)
      ensures old(SettledNow()) ==>
        && hadErrors == (old(hadErrors) || !ExtendeeLinks(old(EnvNow()), f, fullName))
        && (extended <==> ExtendeeResolves(old(EnvNow()), f, fullName))
        && (extended ==> (containing, f.number) == FieldKey(old(EnvNow()), f, fullName, container))
      decreases Unseen(pool, tables.StateNow()), 21
    {
      hide Inv, Linked, Resolve, Visible, IsLoaded, Settled, MessageAt, SameSight, FoundAs;
      ghost var p := tables.StateNow();
      LinkedRefl(pool, p);
      if f.extendee.None? { return true, container; }
      var s := LookupSymbolNoPlaceholder(f.extendee.value, fullName, LOOKUP_ALL);
      LinkedStillLoaded(pool, p, tables.StateNow(), file);
      LinkedEnv(p);
      ResolvesTheSame(p, f.extendee.value, fullName, LOOKUP_ALL);
      if s.None? || s.value.kind != MESSAGE { hadErrors := true; return false, None; }
      FoundIsLoaded(tables.StateNow(), EnvNow(), s);
      var message := Ref(s.value.file, s.value.name);
      if !DeclaresNumber(tables.descs, message, f.number) { hadErrors := true; }
      return true, Some(message);
    }

    lemma ResolvesTheSame(p: State, name: string, relativeTo: string, mode: ResolveMode)
      requires Inv(p) && Linked(pool, p, tables.StateNow())
      ensures Settled(pool, p, file, dependencies) ==>
        var s := Resolve(EnvOf(pool, p, file, dependencies), name, relativeTo, mode);
        && s == Resolve(EnvNow(), name, relativeTo, mode)
        && (s.Some? ==> SameDesc(p.descs, tables.descs, s.value.file))
    {
      hide Settled, Resolve, Inv, Linked, SameDesc;
      if Settled(pool, p, file, dependencies) {
        ResolveStays(pool, p, tables.StateNow(), file, dependencies, name, relativeTo, mode);
      }
    }

    /** The default value of a field whose type is known. */
    method CrossLinkDefault(f: FieldProto, t: Symbol)
      requires Ready(pool) && Inv(tables.StateNow()) && IsLoaded(tables.StateNow(), file) && f.defaultValue.Some?
      modifies this`hadErrors, this`possibleUndeclaredDependency, tables
      ensures Linked(pool, old(tables.StateNow()), tables.StateNow())
      ensures Inv(tables.StateNow()) && IsLoaded(tables.StateNow(), file)
      ensures old(hadErrors) ==> hadErrors
      ensures pool.fallback.None? ==> EnvNow() == old(EnvNow()) && tables.extensions == old(tables.extensions)
      ensures old(SettledNow()) ==> hadErrors == (old(hadErrors) || !DefaultLinks(old(EnvNow()), f, t))
      decreases Unseen(pool, tables.StateNow()), 21
    {
      hide Inv, Linked, Resolve, Visible, IsLoaded, HasValue, Settled, SameSight, FoundAs;
      ghost var p := tables.StateNow();
      LinkedRefl(pool, p);
      if t.kind != ENUM { hadErrors := true; return; }
      var v := LookupSymbolNoPlaceholder(f.defaultValue.value, t.name, LOOKUP_ALL);
      LinkedStillLoaded(pool, p, tables.StateNow(), file);
      LinkedEnv(p);
      ResolvesTheSame(p, f.defaultValue.value, t.name, LOOKUP_ALL);
      if v.None? || !IsValueOf(tables.descs, v.value, t) { hadErrors := true; }
    }

    lemma DefaultsTheSame(p: State, f: FieldProto, t: Symbol)
      requires Inv(p) && Linked(pool, p, tables.StateNow())
      ensures Settled(pool, p, file, dependencies) && SameDesc(p.descs, tables.descs, t.file) ==>
        (DefaultLinks(EnvOf(pool, p, file, dependencies), f, t) <==> DefaultLinks(EnvNow(), f, t))
    {
      hide Settled, Inv, Linked, SameDesc, DefaultLinks;
      if Settled(pool, p, file, dependencies) && SameDesc(p.descs, tables.descs, t.file) {
        SightStays(pool, p, tables.StateNow(), file, dependencies);
        SightIsView(EnvOf(pool, p, file, dependencies), EnvNow());
        DefaultSame(EnvOf(pool, p, file, dependencies), EnvNow(), f, t, t);
      }
    }

    /** The type of a field; false if the field is left as it is because of an error. */
    method CrossLinkType(f: FieldProto, fullName: string) returns (typed: bool)
      requires Ready(pool) && Inv(tables.StateNow()) && IsLoaded(tables.StateNow(), file)
      modifies this`hadErrors, this`possibleUndeclaredDependency, tables
      ensures Linked(pool, old(tables.StateNow()), tables.StateNow())
      ensures Inv(tables.StateNow()) && IsLoaded(tables.StateNow(), file)
      ensures (old(hadErrors) ==> hadErrors) && (!typed ==> hadErrors)
      ensures pool.fallback.None? ==> EnvNow() == old(EnvNow()) && tables.extensions == old(tables.extensions)
      ensures old(SettledNow()) ==>
        && hadErrors == (old(hadErrors) || !TypeLinks(old(EnvNow()), f, fullName))
        && (TypeLinks(old(EnvNow()), f, fullName) ==> typed)
      decreases Unseen(pool, tables.StateNow()), 22
    {
      hide Inv, Linked, Resolve, Visible, IsLoaded, IsValueOf, Settled, SameSight, SameDesc, FoundAs;
      ghost var p := tables.StateNow();
      LinkedRefl(pool, p);
      if f.typeName.Some? {
        var t := LookupSymbolNoPlaceholder(f.typeName.value, fullName, LOOKUP_TYPES);
        ghost var q := tables.StateNow();
        LinkedStillLoaded(pool, p, q, file);
        LinkedShrinks(pool, p, q);
        LinkedEnv(p);
        ResolvesTheSame(p, f.typeName.value, fullName, LOOKUP_TYPES);
        if t.None? { hadErrors := true; return false; }
        if f.fieldType == Primitive {
          hadErrors := true;
        } else if !TypeFits(f.fieldType, t.value.kind) {
          hadErrors := true;
          return false;
        } else if f.defaultValue.Some? {
          DefaultsTheSame(p, f, t.value);
          CrossLinkDefault(f, t.value);
          LinkedTransitive(pool, p, q, tables.StateNow());
          LinkedEnv(p);
        }
      } else if f.fieldType == MessageType || f.fieldType == EnumType {
        hadErrors := true;
      }
      return true;
    }

    method CrossLinkField(f: FieldProto, fullName: string, container: Option<Ref>, isExtension: bool)
      requires isExtension ==> container.None?
      requires Ready(pool) && Inv(tables.StateNow()) && IsLoaded(tables.StateNow(), file)
      modifies this`hadErrors, this`possibleUndeclaredDependency, this`fieldsByNumber, tables
      ensures Linked(pool, old(tables.StateNow()), tables.StateNow())
      ensures Inv(tables.StateNow()) && IsLoaded(tables.StateNow(), file)
      ensures old(hadErrors) ==> hadErrors
      ensures old(SettledNow()) ==>
        hadErrors == (old(hadErrors) || !FieldLinks(old(EnvNow()), f, fullName)
                      || FieldKey(old(EnvNow()), f, fullName, container) in old(fieldsByNumber))
      ensures old(SettledNow()) && FieldLinks(old(EnvNow()), f, fullName) ==>
        fieldsByNumber == old(fieldsByNumber) + {FieldKey(old(EnvNow()), f, fullName, container)}
      ensures pool.fallback.None? ==> EnvNow() == old(EnvNow())
      ensures pool.fallback.None? && FieldLinks(EnvNow(), f, fullName) ==>
        tables.extensions == FieldEntered(old(tables.extensions), EnvNow(), f, fullName, isExtension)
      decreases Unseen(pool, tables.StateNow()), 23
    {
      hide Inv, Linked, ExtendeeResolves, TypeLinks, FieldKey, FieldEntered, Claimed, IsLoaded, Settled, SameSight;
      ghost var p := tables.StateNow();
      LinkedRefl(pool, p);
      var extended, containing := CrossLinkExtendee(f, fullName, container);
      LinkedEnv(p);
      if !extended { return; }
      ghost var q := tables.StateNow();
      LinkedShrinks(pool, p, q);
      FieldLinksTheSame(p, f, fullName, container);
      var typed := CrossLinkType(f, fullName);
      LinkedTransitive(pool, p, q, tables.StateNow());
      LinkedEnv(p);
      if !typed { return; }
      if f.extendee.Some? { LinkedStillLoaded(pool, q, tables.StateNow(), containing.value.file); }
      ghost var r := tables.StateNow();
      EnteredUnderKey(tables.extensions, EnvNow(), f, fullName, container, isExtension);
      EnterField((containing, f.number), fullName, isExtension);
      LinkedTransitive(pool, p, r, tables.StateNow());
      LinkedEnv(p);
    }

    /** Cross-linking leaves what a settled file can see alone; with no fallback database, all there is. */
    lemma LinkedEnv(p: State)
      requires Inv(p) && Linked(pool, p, tables.StateNow())
      ensures pool.fallback.None? ==>
        EnvNow() == EnvOf(pool, p, file, dependencies) && Settled(pool, p, file, dependencies)
      ensures Settled(pool, p, file, dependencies) ==>
        SettledNow() && SameSight(EnvOf(pool, p, file, dependencies), EnvNow())
    {
      if Settled(pool, p, file, dependencies) { SightStays(pool, p, tables.StateNow(), file, dependencies); }
      hide Settled, SameSight, Inv, OwnedIn, Grows;
    }

    lemma FieldLinksTheSame(p: State, f: FieldProto, fullName: string, container: Option<Ref>)
      requires Inv(p) && Linked(pool, p, tables.StateNow())
      ensures Settled(pool, p, file, dependencies) ==>
        var env := EnvOf(pool, p, file, dependencies);
        && (TypeLinks(env, f, fullName) <==> TypeLinks(EnvNow(), f, fullName))
        && (FieldLinks(env, f, fullName) <==> FieldLinks(EnvNow(), f, fullName))
        && FieldKey(env, f, fullName, container) == FieldKey(EnvNow(), f, fullName, container)
    {
      hide Settled, Inv, Linked, TypeLinks, FieldLinks, FieldKey;
      if Settled(pool, p, file, dependencies) {
        FieldStays(pool, p, tables.StateNow(), file, dependencies, f, fullName, container);
      }
    }

    method CrossLinkFields(fields: seq<FieldProto>, scope: string, isExtension: bool)
      requires Ready(pool) && Inv(tables.StateNow()) && IsLoaded(tables.StateNow(), file)
      modifies this`hadErrors, this`possibleUndeclaredDependency, this`fieldsByNumber, tables
      ensures Linked(pool, old(tables.StateNow()), tables.StateNow())
      ensures Inv(tables.StateNow()) && IsLoaded(tables.StateNow(), file)
      ensures old(hadErrors) ==> hadErrors
      ensures old(SettledNow()) ==>
        hadErrors == (old(hadErrors) || !FieldsLink(old(EnvNow()), fields, scope)
                      || !Unused(old(fieldsByNumber), FieldKeys(old(EnvNow()), fields, scope, isExtension)))
      ensures old(SettledNow()) && FieldsLink(old(EnvNow()), fields, scope) ==>
        fieldsByNumber == old(fieldsByNumber) + Elements(FieldKeys(old(EnvNow()), fields, scope, isExtension))
      ensures pool.fallback.None? ==> EnvNow() == old(EnvNow())
      ensures pool.fallback.None? && FieldsLink(EnvNow(), fields, scope) ==>
        tables.extensions == FieldsEntered(old(tables.extensions), EnvNow(), fields, scope, isExtension)
      decreases Unseen(pool, tables.StateNow()), 24
    {
      hide Inv, Linked, FieldLinks, FieldsLink, FieldEntered, FieldsEntered, FieldKey, FieldKeys, Unused, IsLoaded,
        Settled, SameSight;
      ghost var p, env := tables.StateNow(), EnvNow();
      ghost var keys := FieldKeys(env, fields, scope, isExtension);
      LinkedRefl(pool, p);
      NothingUsed(old(fieldsByNumber));
      NoFields(p.log.now.extensions, env, scope, isExtension);
      assert fields[..0] == [] && keys[..0] == [];
      for i := 0 to |fields|
        invariant Linked(pool, p, tables.StateNow())
        invariant Inv(tables.StateNow()) && IsLoaded(tables.StateNow(), file)
        invariant old(hadErrors) ==> hadErrors
        invariant pool.fallback.None? ==> EnvNow() == env
        invariant old(SettledNow()) ==>
          hadErrors == (old(hadErrors) || !FieldsLink(env, fields[..i], scope)
                        || !Unused(old(fieldsByNumber), keys[..i]))
        invariant old(SettledNow()) && FieldsLink(env, fields[..i], scope) ==>
          fieldsByNumber == old(fieldsByNumber) + Elements(keys[..i])
        invariant pool.fallback.None? && FieldsLink(env, fields[..i], scope) ==>
          tables.extensions == FieldsEntered(p.log.now.extensions, env, fields[..i], scope, isExtension)
      {
        FieldsStep(p.log.now.extensions, env, fields, scope, isExtension, i);
        ghost var q := tables.StateNow();
        LinkedShrinks(pool, p, q);
        UnusedNext(old(fieldsByNumber), keys, i);
        var container := if isExtension then None else Some(Ref(file, scope));
        LinkedEnv(p);
        FieldLinksTheSame(p, fields[i], Join(scope, fields[i].name), container);
        CrossLinkField(fields[i], Join(scope, fields[i].name), container, isExtension);
        LinkedTransitive(pool, p, q, tables.StateNow());
      }
      assert fields[..|fields|] == fields && keys[..|fields|] == keys;
    }

    method CrossLinkMessages(messages: seq<MessageProto>, scope: string)
      requires Ready(pool) && Inv(tables.StateNow()) && IsLoaded(tables.StateNow(), file)
      modifies this`hadErrors, this`possibleUndeclaredDependency, this`fieldsByNumber, tables
      ensures Linked(pool, old(tables.StateNow()), tables.StateNow())
      ensures Inv(tables.StateNow()) && IsLoaded(tables.StateNow(), file)
      ensures old(hadErrors) ==> hadErrors
      ensures old(SettledNow()) ==>
        hadErrors == (old(hadErrors) || !MessagesLink(old(EnvNow()), messages, scope)
                      || !Unused(old(fieldsByNumber), MessagesKeys(old(EnvNow()), messages, scope)))
      ensures old(SettledNow()) && MessagesLink(old(EnvNow()), messages, scope) ==>
        fieldsByNumber == old(fieldsByNumber) + Elements(MessagesKeys(old(EnvNow()), messages, scope))
      ensures pool.fallback.None? ==> EnvNow() == old(EnvNow())
      ensures pool.fallback.None? && MessagesLink(EnvNow(), messages, scope) ==>
        tables.extensions == MessagesEntered(old(tables.extensions), EnvNow(), messages, scope)
      decreases Unseen(pool, tables.StateNow()), 25, messages, 1
    {
      hide Inv, Linked, MessageLinks, MessageEntered, MessageKeys, Unused, IsLoaded, Settled, SameSight;
      ghost var p, env := tables.StateNow(), EnvNow();
      LinkedRefl(pool, p);
      NothingUsed(old(fieldsByNumber));
      for i := 0 to |messages|
        invariant Linked(pool, p, tables.StateNow())
        invariant Inv(tables.StateNow()) && IsLoaded(tables.StateNow(), file)
        invariant old(hadErrors) ==> hadErrors
        invariant pool.fallback.None? ==> EnvNow() == env
        invariant old(SettledNow()) ==>
          hadErrors == (old(hadErrors) || (exists k :: 0 <= k < i && !MessageLinks(env, messages[k], scope))
                        || !Unused(old(fieldsByNumber), MessagesKeys(env, messages[..i], scope)))
        invariant old(SettledNow()) && (forall k | 0 <= k < i :: MessageLinks(env, messages[k], scope)) ==>
          fieldsByNumber == old(fieldsByNumber) + Elements(MessagesKeys(env, messages[..i], scope))
        invariant pool.fallback.None? && (forall k | 0 <= k < i :: MessageLinks(env, messages[k], scope)) ==>
          tables.extensions == MessagesEntered(p.log.now.extensions, env, messages[..i], scope)
      {
        assert messages[..i + 1][..i] == messages[..i];
        UnusedSplit(old(fieldsByNumber), MessagesKeys(env, messages[..i], scope), MessageKeys(env, messages[i], scope));
        ghost var q := tables.StateNow();
        LinkedShrinks(pool, p, q);
        LinkedEnv(p);
        MessageLinksTheSame(p, messages[i], scope);
        CrossLinkMessage(messages[i], scope);
        LinkedTransitive(pool, p, q, tables.StateNow());
      }
      assert messages[..|messages|] == messages;
    }

    lemma MessageLinksTheSame(p: State, m: MessageProto, scope: string)
      requires Inv(p) && Linked(pool, p, tables.StateNow())
      ensures Settled(pool, p, file, dependencies) ==>
        var env := EnvOf(pool, p, file, dependencies);
        && (MessageLinks(env, m, scope) <==> MessageLinks(EnvNow(), m, scope))
        && MessageKeys(env, m, scope) == MessageKeys(EnvNow(), m, scope)
    {
      hide Settled, Inv, Linked, MessageLinks, MessageKeys;
      if Settled(pool, p, file, dependencies) {
        MessageStays(pool, p, tables.StateNow(), file, dependencies, m, scope);
      }
    }

    lemma ListLinksTheSame(p: State, fields: seq<FieldProto>, scope: string, isExtension: bool)
      requires Inv(p) && Linked(pool, p, tables.StateNow())
      ensures Settled(pool, p, file, dependencies) ==>
        var env := EnvOf(pool, p, file, dependencies);
        && (FieldsLink(env, fields, scope) <==> FieldsLink(EnvNow(), fields, scope))
        && FieldKeys(env, fields, scope, isExtension) == FieldKeys(EnvNow(), fields, scope, isExtension)
    {
      hide Settled, Inv, Linked, FieldsLink, FieldKeys;
      if Settled(pool, p, file, dependencies) {
        ListsStay(pool, p, tables.StateNow(), file, dependencies, fields, [], scope, isExtension);
      }
    }

    method CrossLinkMessage(m: MessageProto, scope: string)
      requires Ready(pool) && Inv(tables.StateNow()) && IsLoaded(tables.StateNow(), file)
      modifies this`hadErrors, this`possibleUndeclaredDependency, this`fieldsByNumber, tables
      ensures Linked(pool, old(tables.StateNow()), tables.StateNow())
      ensures Inv(tables.StateNow()) && IsLoaded(tables.StateNow(), file)
      ensures old(hadErrors) ==> hadErrors
      ensures old(SettledNow()) ==>
        hadErrors == (old(hadErrors) || !MessageLinks(old(EnvNow()), m, scope)
                      || !Unused(old(fieldsByNumber), MessageKeys(old(EnvNow()), m, scope)))
      ensures old(SettledNow()) && MessageLinks(old(EnvNow()), m, scope) ==>
        fieldsByNumber == old(fieldsByNumber) + Elements(MessageKeys(old(EnvNow()), m, scope))
      ensures pool.fallback.None? ==> EnvNow() == old(EnvNow())
      ensures pool.fallback.None? && MessageLinks(EnvNow(), m, scope) ==>
        tables.extensions == MessageEntered(old(tables.extensions), EnvNow(), m, scope)
      decreases Unseen(pool, tables.StateNow()), 25, m, 0
    {
      hide Inv, Linked, FieldsLink, FieldsEntered, MessagesLink, MessagesEntered, FieldKeys, MessagesKeys, Unused,
        IsLoaded, Settled, SameSight;
      ghost var p, env := tables.StateNow(), EnvNow();
      var fullName := Join(scope, m.name);
      CrossLinkMessages(m.nested, fullName);
      ghost var nested, plain := MessagesKeys(env, m.nested, fullName), FieldKeys(env, m.fields, fullName, false);
      UnusedSplit(old(fieldsByNumber), nested, plain + FieldKeys(env, m.extensions, fullName, true));
      UnusedSplit(old(fieldsByNumber) + Elements(nested), plain, FieldKeys(env, m.extensions, fullName, true));
      ghost var q := tables.StateNow();
      LinkedShrinks(pool, p, q);
      LinkedEnv(p);
      ListLinksTheSame(p, m.fields, fullName, false);
      CrossLinkFields(m.fields, fullName, false);
      LinkedTransitive(pool, p, q, tables.StateNow());
      q := tables.StateNow();
      LinkedShrinks(pool, p, q);
      LinkedEnv(p);
      ListLinksTheSame(p, m.extensions, fullName, true);
      CrossLinkFields(m.extensions, fullName, true);
      LinkedTransitive(pool, p, q, tables.StateNow());
    }

    method CrossLinkMethod(m: MethodProto, service: string)
      requires Ready(pool) && Inv(tables.StateNow()) && IsLoaded(tables.StateNow(), file)
      modifies this`hadErrors, this`possibleUndeclaredDependency, tables
      ensures Linked(pool, old(tables.StateNow()), tables.StateNow())
      ensures Inv(tables.StateNow()) && IsLoaded(tables.StateNow(), file)
      ensures old(hadErrors) ==> hadErrors
      ensures old(SettledNow()) ==> hadErrors == (old(hadErrors) || !MethodLinks(old(EnvNow()), m, service))
      ensures pool.fallback.None? ==> EnvNow() == old(EnvNow()) && tables.extensions == old(tables.extensions)
      decreases Unseen(pool, tables.StateNow()), 22
    {
      hide Inv, Linked, Ready, Unseen, OwnedIn, Resolve, IsLoaded, Settled, SameSight, SameDesc, FoundAs;
      ghost var p := tables.StateNow();
      var fullName := service + ['.'] + m.name;
      var input := LookupSymbolNoPlaceholder(m.input, fullName, LOOKUP_ALL);
      if input.None? || input.value.kind != MESSAGE { hadErrors := true; }
      ghost var q := tables.StateNow();
      LinkedShrinks(pool, p, q);
      LinkedStillLoaded(pool, p, q, file);
      LinkedEnv(p);
      ResolvesTheSame(p, m.output, fullName, LOOKUP_ALL);
      var output := LookupSymbolNoPlaceholder(m.output, fullName, LOOKUP_ALL);
      if output.None? || output.value.kind != MESSAGE { hadErrors := true; }
      LinkedTransitive(pool, p, q, tables.StateNow());
      LinkedStillLoaded(pool, q, tables.StateNow(), file);
      LinkedEnv(p);
    }

    lemma MethodLinksTheSame(p: State, m: MethodProto, service: string)
      requires Inv(p) && Linked(pool, p, tables.StateNow())
      ensures Settled(pool, p, file, dependencies) ==>
        (MethodLinks(EnvOf(pool, p, file, dependencies), m, service) <==> MethodLinks(EnvNow(), m, service))
    {
      hide Settled, Inv, Linked, Resolve, SameDesc;
      ResolvesTheSame(p, m.input, service + ['.'] + m.name, LOOKUP_ALL);
      ResolvesTheSame(p, m.output, service + ['.'] + m.name, LOOKUP_ALL);
    }

    lemma ServiceLinksTheSame(p: State, s: ServiceProto, scope: string)
      requires Inv(p) && Linked(pool, p, tables.StateNow())
      ensures Settled(pool, p, file, dependencies) ==>
        (ServiceLinks(EnvOf(pool, p, file, dependencies), s, scope) <==> ServiceLinks(EnvNow(), s, scope))
    {
      hide Settled, Inv, Linked, ServiceLinks;
      if Settled(pool, p, file, dependencies) {
        ServiceStays(pool, p, tables.StateNow(), file, dependencies, s, scope);
      }
    }

    method CrossLinkService(s: ServiceProto, scope: string)
      requires Ready(pool) && Inv(tables.StateNow()) && IsLoaded(tables.StateNow(), file)
      modifies this`hadErrors, this`possibleUndeclaredDependency, tables
      ensures Linked(pool, old(tables.StateNow()), tables.StateNow())
      ensures Inv(tables.StateNow()) && IsLoaded(tables.StateNow(), file)
      ensures old(hadErrors) ==> hadErrors
      ensures old(SettledNow()) ==> hadErrors == (old(hadErrors) || !ServiceLinks(old(EnvNow()), s, scope))
      ensures pool.fallback.None? ==> EnvNow() == old(EnvNow()) && tables.extensions == old(tables.extensions)
      decreases Unseen(pool, tables.StateNow()), 23
    {
      hide Inv, Linked, MethodLinks, IsLoaded, Settled, SameSight;
      ghost var p, env := tables.StateNow(), EnvNow();
      LinkedRefl(pool, p);
      var fullName := Join(scope, s.name);
      for i := 0 to |s.methods|
        invariant Linked(pool, p, tables.StateNow())
        invariant Inv(tables.StateNow()) && IsLoaded(tables.StateNow(), file)
        invariant old(hadErrors) ==> hadErrors
        invariant old(SettledNow()) ==>
          hadErrors == (old(hadErrors) || exists k :: 0 <= k < i && !MethodLinks(env, s.methods[k], fullName))
        invariant pool.fallback.None? ==> EnvNow() == env && tables.extensions == p.log.now.extensions
      {
        ghost var q := tables.StateNow();
        LinkedShrinks(pool, p, q);
        LinkedEnv(p);
        MethodLinksTheSame(p, s.methods[i], fullName);
        CrossLinkMethod(s.methods[i], fullName);
        LinkedTransitive(pool, p, q, tables.StateNow());
      }
    }

    method CrossLinkFile(proto: FileProto)
      requires Ready(pool) && Inv(tables.StateNow()) && IsLoaded(tables.StateNow(), file)
      modifies this`hadErrors, this`possibleUndeclaredDependency, this`fieldsByNumber, tables
      ensures Linked(pool, old(tables.StateNow()), tables.StateNow())
      ensures Inv(tables.StateNow()) && IsLoaded(tables.StateNow(), file)
      ensures old(hadErrors) ==> hadErrors
      ensures old(SettledNow()) ==>
        hadErrors == (old(hadErrors) || !FileLinks(old(EnvNow()), proto)
                      || !Unused(old(fieldsByNumber), FileKeys(old(EnvNow()), proto)))
      ensures pool.fallback.None? ==> EnvNow() == old(EnvNow())
      ensures pool.fallback.None? && FileLinks(EnvNow(), proto) ==>
        tables.extensions == FileEntered(old(tables.extensions), EnvNow(), proto)
      decreases Unseen(pool, tables.StateNow()), 27
    {
      hide Inv, Linked, MessagesLink, MessagesEntered, ServiceLinks, FieldsLink, FieldsEntered, FieldKeys, MessagesKeys,
        Unused, IsLoaded, Settled, SameSight;
      ghost var p, env := tables.StateNow(), EnvNow();
      var scope := PackageOf(proto);
      UnusedSplit(old(fieldsByNumber), MessagesKeys(env, proto.messages, scope),
                  FieldKeys(env, proto.extensions, scope, true));
      CrossLinkMessages(proto.messages, scope);
      ghost var q := tables.StateNow();
      LinkedShrinks(pool, p, q);
      LinkedEnv(p);
      ListLinksTheSame(p, proto.extensions, scope, true);
      CrossLinkFields(proto.extensions, scope, true);
      LinkedTransitive(pool, p, q, tables.StateNow());
      ghost var before, entries := hadErrors, tables.extensions;
      for i := 0 to |proto.services|
        invariant Linked(pool, p, tables.StateNow())
        invariant Inv(tables.StateNow()) && IsLoaded(tables.StateNow(), file)
        invariant before ==> hadErrors
        invariant old(SettledNow()) ==>
          hadErrors == (before || exists k :: 0 <= k < i && !ServiceLinks(env, proto.services[k], scope))
        invariant pool.fallback.None? ==> EnvNow() == env && tables.extensions == entries
      {
        q := tables.StateNow();
        LinkedShrinks(pool, p, q);
        LinkedEnv(p);
        ServiceLinksTheSame(p, proto.services[i], scope);
        CrossLinkService(proto.services[i], scope);
        LinkedTransitive(pool, p, q, tables.StateNow());
      }
    }

    // ----- The transaction -----

    /** Opens the transaction and enters the new file; false if its name is taken. */
    method OpenFile(proto: FileProto) returns (added: bool, packageKey: Id)
      requires Inv(tables.StateNow()) && proto.name !in tables.pendingFiles
      modifies this`file, this`hadErrors, this`fieldsByNumber, tables
      ensures fieldsByNumber == {}
      ensures added <==> proto.name !in old(tables.filesByName)
      ensures hadErrors == (old(hadErrors) || !added)
      ensures Grows(old(Opened(tables.StateNow())), tables.StateNow())
      ensures file == old(tables.nextId) && file in tables.descs && file !in old(tables.descs)
      ensures tables.extensions == old(tables.extensions)
      ensures tables.symbolsByName == old(tables.symbolsByName) && packageKey in tables.strings
      ensures tables.descs == old(tables.descs)[file := FileDesc(proto.name, PackageOf(proto), [], [], proto)]
      ensures added ==> Inv(tables.StateNow()) && IsLoaded(tables.StateNow(), file)
      ensures added ==> proto.name in tables.filesByName && tables.filesByName[proto.name].file == file
      ensures added ==> tables.filesByName == old(tables.filesByName)[proto.name := tables.filesByName[proto.name]]
      ensures forall id | id in tables.descs :: id <= file
    {
      hide Inv, Grows, IsLoaded;
      ghost var p := tables.StateNow();
      var nameKey;
      nameKey, packageKey := AllocateFile();
      fieldsByNumber := {};
      ghost var q := tables.StateNow();
      var d := FileDesc(proto.name, PackageOf(proto), [], [], proto);
      tables.descs := tables.descs[file := d];
      added := tables.AddFile(proto.name, FileEntry(file, nameKey));
      EnterStep(Opened(p), q, tables.StateNow(), file, nameKey, d);
      if !added { hadErrors := true; }
    }

    /** The checkpoint, and the memory of a file descriptor, its tables and its two names. */
    method AllocateFile() returns (nameKey: Id, packageKey: Id)
      requires Inv(tables.StateNow())
      modifies this`file, tables
      ensures Inv(tables.StateNow()) && Grows(old(Opened(tables.StateNow())), tables.StateNow())
      ensures file == old(tables.nextId) && file in tables.allocations && file !in tables.descs
      ensures tables.extensions == old(tables.extensions)
      ensures nameKey in tables.strings && packageKey in tables.strings
      ensures tables.symbolsByName == old(tables.symbolsByName) && tables.filesByName == old(tables.filesByName)
      ensures tables.descs == old(tables.descs) && tables.pendingFiles == old(tables.pendingFiles)
      ensures forall id | id in tables.descs :: id <= file
    {
      hide Inv, Grows, IsLoaded, Submap, Grown;
      ghost var p := tables.StateNow();
      OpenTransaction(p);
      DescsBelow(p);
      tables.AddCheckpoint();
      ghost var p1 := tables.StateNow();
      file := tables.AllocateBytes();
      ghost var p2 := tables.StateNow();
      AllocationStep(p1, p2, PoolTables.AllocateBytes(file));
      var fileTables := tables.AllocateFileTables();
      ghost var p3 := tables.StateNow();
      AllocationStep(p2, p3, PoolTables.AllocateFileTables(fileTables));
      GrowsTransitive(p1, p2, p3);
      nameKey := tables.AllocateString();
      ghost var p4 := tables.StateNow();
      AllocationStep(p3, p4, PoolTables.AllocateString(nameKey));
      GrowsTransitive(p1, p3, p4);
      packageKey := tables.AllocateString();
      ghost var p5 := tables.StateNow();
      AllocationStep(p4, p5, PoolTables.AllocateString(packageKey));
      GrowsTransitive(p1, p4, p5);
    }

    /** Package, imports and descriptors of the file just entered. */
    method BuildContents(proto: FileProto, packageKey: Id, ghost base: State)
      requires Inv(tables.StateNow()) && IsLoaded(tables.StateNow(), file) && packageKey in tables.strings
      requires Grows(base, tables.StateNow()) && base.nextId <= file && file !in base.descs
      requires forall id | id in tables.descs :: id <= file
      requires file in tables.descs && tables.descs[file] == FileDesc(proto.name, PackageOf(proto), [], [], proto)
      requires !hadErrors
      modifies this`hadErrors, this`dependencies, tables
      ensures Inv(tables.StateNow()) && IsLoaded(tables.StateNow(), file) && Grows(base, tables.StateNow())
      ensures tables.filesByName == old(tables.filesByName)
      ensures file in tables.descs && IsPublicClosure(tables.descs, tables.descs[file].dependencies, dependencies)
      ensures dependencies <= tables.descs.Keys && AllLoaded(tables.StateNow(), dependencies)
      ensures tables.descs == old(tables.descs)[file := tables.descs[file]]
        && ImportsResolved(proto, tables.StateNow(), file)
      ensures tables.extensions == old(tables.extensions)
      ensures !hadErrors ==> SymbolsEntered(old(tables.symbolsByName), tables.symbolsByName, proto, file)
      ensures !hadErrors <==> ContentsOk(old(tables.symbolsByName), old(tables.filesByName.Keys), proto)
      ensures !hadErrors ==> Built(tables.StateNow(), proto, file)
      ensures !hadErrors && OwnedBut(old(tables.StateNow()), file) ==> OwnedIn(tables.StateNow())
    {
      hide Inv, Grows, IsLoaded, StepsDone, PackageAdded, OwnedIn, OwnedBut, ContentsOk, Built, ImportsResolved,
        ImportsOk, IsPublicClosure, SymbolsEntered, SymbolsOk, AllLoaded;
      ghost var p := tables.StateNow();
      var package := PackageOf(proto);
      if package != "" {
        AddPackage(package, packageKey);
        PackageFacts(p, tables.StateNow(), package, file, false, hadErrors);
        GrowsTransitive(base, p, tables.StateNow());
      }
      ghost var q, x := tables.StateNow(), hadErrors;
      LoadDependencies(proto);
      ghost var r, y := tables.StateNow(), hadErrors;
      RewriteStep(base, q, r, file);
      BuildChildren(proto);
      ghost var t := tables.StateNow();
      StepsFacts(r, t, FileSteps(proto), file, y, hadErrors);
      GrowsTransitive(base, r, t);
      ContentsDone(p, q, r, t, proto, file, x, y, hadErrors);
      StillResolved(proto, r, t, file);
      StillAllLoaded(r, t, dependencies);
      if !hadErrors {
        InvSymbols(t);
        SymbolsAreEntered(p, q, r, t, proto, file, x, y);
      }
    }

    /** From the checkpoint on: all of the file is entered, or nothing is. */
    method BuildFromCheckpoint(proto: FileProto) returns (result: Option<Id>)
      requires Ready(pool) && Inv(tables.StateNow()) && !hadErrors && proto.name !in tables.pendingFiles
      requires pool.fallback.Some? ==> proto.name in Unseen(pool, tables.StateNow())
      modifies this, tables
      ensures Inv(tables.StateNow()) && Grows(old(tables.StateNow()), tables.StateNow())
      ensures OwnedIn(old(tables.StateNow())) ==> OwnedIn(tables.StateNow())
      ensures result.None? ==> SameTables(old(tables.StateNow()), tables.StateNow())
      ensures result.Some? ==> Built(tables.StateNow(), proto, result.value) && result.value == old(tables.nextId)
      ensures NewAreForeign(old(tables.StateNow()), tables.StateNow())
      ensures Foreseen(pool, old(tables.StateNow())) ==>
        (result.Some? <==> proto.name !in old(tables.filesByName) && Buildable(pool, old(tables.StateNow()), proto))
      ensures pool.fallback.None? && result.Some? ==> JustBuilt(pool, old(tables.StateNow()), tables.StateNow(), proto)
      decreases Unseen(pool, tables.StateNow()), if pool.fallback.None? then 99 else 10
    {
      hide Inv, Grows, Linked, IsLoaded, OwnedIn, OwnedBut, Built, FileLinks, FileEntered, ContentsOk, IsPublicClosure,
        ImportsResolved, SymbolsEntered, SameNames, SameView, EntryEnv, Unused, FileKeys, Unseen, NewAreForeign,
        SettledNow, Foreseen, AllLoaded, Ready, Submap, EntryDesc;
      ghost var p := tables.StateNow();
      var added, packageKey := OpenFile(proto);
      if !added {
        Rollback(p);
        return None;
      }
      ghost var p1 := tables.StateNow();
      OwnedAfterEntering(p, p1, proto.name, file);
      assert tables.filesByName.Keys == p.log.now.files.Keys + {proto.name};
      BuildContents(proto, packageKey, Opened(p));
      ghost var built, sound := tables.StateNow(), !hadErrors;
      if sound {
        LinksAsForeseen(p, proto);
        BuiltIsSettled(p);
      }
      UnseenAfterEntering(pool, p, built, proto.name);
      CrossLinkFile(proto);
      ghost var u := tables.StateNow();
      LinkedFacts(pool, built, u, proto, file);
      GrowsTransitive(Opened(p), built, u);
      if !hadErrors && proto.rejected { hadErrors := true; }
      if hadErrors {
        Rollback(p);
        result := None;
      } else {
        ForeignTransitive(Opened(p), built, u);
        Commit(p, proto);
        result := Some(file);
      }
    }

    /** A file that has been entered without an error links as could be told before it was entered. */
    lemma LinksAsForeseen(p: State, proto: FileProto)
      requires Inv(p) && Inv(tables.StateNow()) && file == p.nextId
      requires SymbolsEntered(p.log.now.symbols, tables.symbolsByName, proto, file)
      requires ContentsOk(p.log.now.symbols, tables.filesByName.Keys, proto)
      requires file in tables.descs && tables.descs == p.descs[file := tables.descs[file]]
      requires ImportsResolved(proto, tables.StateNow(), file)
      requires proto.name in tables.filesByName && tables.filesByName[proto.name].file == file
      requires tables.filesByName == p.log.now.files[proto.name := tables.filesByName[proto.name]]
      requires IsPublicClosure(tables.descs, tables.descs[file].dependencies, dependencies)
      requires dependencies <= tables.descs.Keys
      ensures NewAreForeign(Opened(p), tables.StateNow())
      ensures tables.descs[file] == EntryDesc(p.log.now.files, proto, file)
      ensures var env, now := EntryEnv(pool, p, proto), EnvNow();
        && (FileLinks(now, proto) <==> FileLinks(env, proto)) && FileKeys(now, proto) == FileKeys(env, proto)
        && FileEntered(p.log.now.extensions, now, proto) == FileEntered(p.log.now.extensions, env, proto)
    {
      hide Inv, ContentsOk, SymbolsEntered, ImportsResolved, IsPublicClosure, FileLinks, FileKeys, FileEntered,
        EntryEnv, EntryDesc, SameNames, SameView, NewAreForeign;
      EntryEnvReached(pool, p, tables.StateNow(), proto, dependencies);
      OpenTransaction(p);
      EnteredAreForeign(Opened(p), tables.StateNow(), proto, tables.filesByName.Keys);
      EnvHasDescs(tables.StateNow());
      NamesAreView(EnvNow(), EntryEnv(pool, p, proto));
      FileSame(EnvNow(), EntryEnv(pool, p, proto), p.log.now.extensions, proto);
    }

    /** What is built without an error from an owned pool is settled, when dependencies are enforced. */
    lemma BuiltIsSettled(p: State)
      requires OwnedIn(p) ==> OwnedIn(tables.StateNow())
      requires IsLoaded(tables.StateNow(), file) && AllLoaded(tables.StateNow(), dependencies)
      ensures Foreseen(pool, p) ==> SettledNow()
      ensures pool.fallback.None? ==> Foreseen(pool, p)
    {
      hide IsLoaded, AllLoaded, OwnedIn;
    }

    lemma EnvHasDescs(s: State)
      requires Inv(s)
      ensures forall n | n in s.log.now.symbols :: s.log.now.symbols[n].file in s.descs
    {
    }

    lemma ForeignOpened(p: State, q: State)
      requires NewAreForeign(Opened(p), q)
      ensures NewAreForeign(p, q)
    {
    }

    lemma ForeignCommitted(p: State, u: State, q: State)
      requires NewAreForeign(p, u) && q.log.now == u.log.now
      ensures NewAreForeign(p, q)
    {
    }

    method Rollback(ghost p: State)
      requires Inv(p) && Grows(Opened(p), tables.StateNow())
      modifies tables
      ensures SameTables(p, tables.StateNow()) && Inv(tables.StateNow()) && Grows(p, tables.StateNow())
      ensures (OwnedIn(p) ==> OwnedIn(tables.StateNow())) && NewAreForeign(p, tables.StateNow())
    {
      hide Inv, NewAreForeign;
      ghost var u := tables.StateNow();
      LastCheckpoint(p, u);
      tables.RollbackToLastCheckpoint();
      FailedTransaction(p, u, tables.StateNow());
      SameAreForeign(p, tables.StateNow());
    }

    method Commit(ghost p: State, ghost proto: FileProto)
      requires Inv(p) && Inv(tables.StateNow()) && Grows(Opened(p), tables.StateNow())
      modifies tables
      ensures Inv(tables.StateNow()) && Grows(p, tables.StateNow())
      ensures tables.LogNow().now == old(tables.LogNow().now) && tables.descs == old(tables.descs)
      ensures Built(old(tables.StateNow()), proto, file) ==> Built(tables.StateNow(), proto, file)
      ensures OwnedIn(old(tables.StateNow())) ==> OwnedIn(tables.StateNow())
      ensures NewAreForeign(Opened(p), old(tables.StateNow())) ==> NewAreForeign(p, tables.StateNow())
    {
      hide Inv, Grows, OwnedIn, Built, NewAreForeign;
      ghost var u := tables.StateNow();
      LastCheckpoint(p, u);
      tables.ClearLastCheckpoint();
      if NewAreForeign(Opened(p), u) {
        ForeignOpened(p, u);
        ForeignCommitted(p, u, tables.StateNow());
      }
      CommittedTransaction(p, u, tables.StateNow());
      SameFilesOwned(u, tables.StateNow());
      SameFilesBuilt(u, tables.StateNow(), proto, file);
    }

    /** Loads the imports that are not in the pool; whether that works is found out later. */
    method LoadImports(proto: FileProto)
      requires Ready(pool) && Inv(tables.StateNow()) && pool.fallback.Some?
      requires proto.name in Unseen(pool, tables.StateNow())
      modifies tables
      ensures Inv(tables.StateNow()) && Grows(old(tables.StateNow()), tables.StateNow())
      ensures OwnedIn(old(tables.StateNow())) ==> OwnedIn(tables.StateNow())
      ensures proto.name !in tables.filesByName && NewAreForeign(old(tables.StateNow()), tables.StateNow())
      ensures ImportsTried(proto, tables.StateNow())
      decreases Unseen(pool, tables.StateNow()), 11
    {
      hide Inv, Grows, OwnedIn, NewAreForeign;
      ghost var p := tables.StateNow();
      tables.pendingFiles := tables.pendingFiles + [proto.name];
      ghost var p1 := tables.StateNow();
      InvIgnoresLists(p, p1);
      InvGrowsRefl(p1);
      SameAreForeign(p1, p1);
      for i := 0 to |proto.dependencies|
        invariant Inv(tables.StateNow()) && Grows(p1, tables.StateNow()) && NewAreForeign(p1, tables.StateNow())
        invariant OwnedIn(p) ==> OwnedIn(tables.StateNow())
        invariant forall k | 0 <= k < i ::
          proto.dependencies[k] in tables.filesByName || proto.dependencies[k] in tables.knownBadFiles
      {
        if proto.dependencies[i] !in tables.filesByName {
          ghost var q := tables.StateNow();
          UnseenPending(pool, p, q, proto.name);
          var _ := TryFindFileInFallbackDatabase(pool, tables, proto.dependencies[i]);
          GrowsTransitive(p1, q, tables.StateNow());
          ForeignTransitive(p1, q, tables.StateNow());
          GrowsKeepsNames(q, tables.StateNow());
        }
      }
      ghost var q := tables.StateNow();
      PendingPopped(p1, q);
      tables.pendingFiles := tables.pendingFiles[..|tables.pendingFiles| - 1];
      InvIgnoresLists(q, tables.StateNow());
      GrowsUnderPending(p, q, tables.StateNow(), proto.name);
      ForeignSame(p1, q, p, tables.StateNow());
    }

    lemma ForeignSame(p: State, q: State, p': State, q': State)
      requires NewAreForeign(p, q) && p'.log.now == p.log.now && p'.descs == p.descs && q'.log.now == q.log.now
      ensures NewAreForeign(p', q')
    {
    }

    /** Each import is in the pool, or could not be loaded. */
    ghost predicate ImportsTried(proto: FileProto, s: State) {
      forall i | 0 <= i < |proto.dependencies| ::
        proto.dependencies[i] in s.log.now.files || proto.dependencies[i] in s.knownBadFiles
    }

    lemma PendingPopped(p: State, q: State)
      requires Grows(p, q)
      ensures q.pendingFiles == p.pendingFiles
    {
    }

    /**
     * Builds a file. With a fallback database its imports are loaded first, outside the transaction; `loaded` is the
     * pool once they are.
     */
    method BuildFile(proto: FileProto) returns (result: Option<Id>, ghost loaded: State)
      requires Ready(pool) && Inv(tables.StateNow()) && !hadErrors
      requires pool.fallback.Some? ==> proto.name in NamesIn(pool) && proto.name !in tables.filesByName
      modifies this, tables
      ensures Inv(tables.StateNow()) && Grows(old(tables.StateNow()), tables.StateNow())
      ensures OwnedIn(old(tables.StateNow())) ==> OwnedIn(tables.StateNow())
      ensures result.Some? ==> proto.name in tables.filesByName && tables.filesByName[proto.name].file == result.value
      ensures result.Some? && proto.name !in old(tables.filesByName) ==> Built(tables.StateNow(), proto, result.value)
      ensures result.None? && proto.name !in old(tables.filesByName) ==> proto.name !in tables.filesByName
      ensures NewAreForeign(old(tables.StateNow()), tables.StateNow())
      ensures pool.fallback.None? ==> loaded == old(tables.StateNow())
      ensures proto.name !in old(tables.filesByName) && proto.name !in old(tables.pendingFiles) ==>
        && Inv(loaded) && Grows(old(tables.StateNow()), loaded) && Grows(loaded, tables.StateNow())
        && proto.name !in loaded.log.now.files && (pool.fallback.Some? ==> ImportsTried(proto, loaded))
        && (result.None? ==> SameTables(loaded, tables.StateNow()))
        && (result.Some? ==> result.value == loaded.nextId)
        && (Foreseen(pool, old(tables.StateNow())) ==> (result.Some? <==> Buildable(pool, loaded, proto)))
      ensures proto.name !in old(tables.filesByName) && proto.name in old(tables.pendingFiles) ==>
        result.None? && tables.StateNow() == old(tables.StateNow())
      ensures pool.fallback.None? && result.None? ==> SameTables(old(tables.StateNow()), tables.StateNow())
      ensures pool.fallback.None? && proto.name in old(tables.filesByName) ==>
        SameTables(old(tables.StateNow()), tables.StateNow())
        && (result.Some? <==> old(tables.descs)[old(tables.filesByName)[proto.name].file].proto == proto)
      ensures pool.fallback.None? && proto.name !in old(tables.filesByName) && result.Some? ==>
        result.value == old(tables.nextId) && JustBuilt(pool, old(tables.StateNow()), tables.StateNow(), proto)
      decreases Unseen(pool, tables.StateNow()), if pool.fallback.None? then 100 else 12
    {
      hide Inv, Grows, OwnedIn, Buildable, Built, JustBuilt, NewAreForeign, ImportsTried;
      ghost var p := tables.StateNow();
      loaded := p;
      InvGrowsRefl(p);
      SameAreForeign(p, p);
      if proto.name in tables.filesByName {
        NamedDesc(p, proto.name);
        var existing := tables.filesByName[proto.name].file;
        if tables.descs[existing].proto == proto { return Some(existing), p; }
      }
      for i := 0 to |tables.pendingFiles|
        invariant proto.name !in tables.pendingFiles[..i]
      {
        if tables.pendingFiles[i] == proto.name {
          hadErrors := true;
          return None, p;
        }
      }
      assert tables.pendingFiles[..|tables.pendingFiles|] == tables.pendingFiles;
      if pool.fallback.Some? { LoadImports(proto); }
      loaded := tables.StateNow();
      UnseenShrinks(pool, p, loaded);
      PendingPopped(p, loaded);
      result := BuildFromCheckpoint(proto);
      if result.Some? { BuiltIsNamed(tables.StateNow(), proto, result.value); }
      GrowsTransitive(p, loaded, tables.StateNow());
      ForeignTransitive(p, loaded, tables.StateNow());
    }

    lemma BuiltIsNamed(s: State, proto: FileProto, file: Id)
      requires Built(s, proto, file)
      ensures proto.name in s.log.now.files && s.log.now.files[proto.name].file == file
    {
    }
  }

  // ----- The fallback database -----

  /** Loads a file by name, once; a name that fails is not tried again. */
  method TryFindFileInFallbackDatabase(pool: Pool, tables: Tables, name: string) returns (found: bool)
    requires Ready(pool) && Inv(tables.StateNow()) && name !in tables.filesByName
    modifies tables
    ensures Inv(tables.StateNow()) && Grows(old(tables.StateNow()), tables.StateNow())
    ensures OwnedIn(old(tables.StateNow())) ==> OwnedIn(tables.StateNow())
    ensures NewAreForeign(old(tables.StateNow()), tables.StateNow())
    ensures found <==> name in tables.filesByName
    ensures pool.fallback.None? ==> !found && tables.StateNow() == old(tables.StateNow())
    ensures !found && pool.fallback.Some? ==> name in tables.knownBadFiles
    ensures name in old(tables.knownBadFiles) ==> !found && tables.StateNow() == old(tables.StateNow())
    ensures found ==> pool.fallback.value.byName(name).Some?
    decreases Unseen(pool, tables.StateNow()), 14
  {
    hide Inv, Grows, OwnedIn, Built, Buildable, NewAreForeign;
    ghost var p := tables.StateNow();
    InvGrowsRefl(p);
    SameAreForeign(p, p);
    if pool.fallback.None? || name in tables.knownBadFiles { return false; }
    var proto := pool.fallback.value.byName(name);
    var built: Option<Id> := None;
    if proto.Some? {
      var builder := new DescriptorBuilder(pool, tables);
      ghost var loaded;
      built, loaded := builder.BuildFile(proto.value);
    }
    if built.None? {
      ghost var q := tables.StateNow();
      tables.knownBadFiles := tables.knownBadFiles + {name};
      InvIgnoresLists(q, tables.StateNow());
      MoreBadFiles(p, q, tables.StateNow());
      MoreBadFilesForeign(p, q, tables.StateNow());
      return false;
    }
    return true;
  }

  lemma MoreBadFilesForeign(p: State, q: State, r: State)
    requires NewAreForeign(p, q) && r.log == q.log
    ensures NewAreForeign(p, r)
  {
  }

  lemma MoreBadFiles(p: State, q: State, r: State)
    requires Grows(p, q) && r == q.(knownBadFiles := r.knownBadFiles) && q.knownBadFiles <= r.knownBadFiles
    ensures Grows(p, r)
  {
  }

  method IsSubSymbolOfBuiltType(tables: Tables, name: string) returns (found: bool)
    ensures found <==> SubSymbolOfBuiltType(tables.symbolsByName, name)
  {
    var prefix := name;
    while true
      invariant Covers(prefix, name)
      invariant forall p | Covers(p, name) && p != name && p in tables.symbolsByName
                           && tables.symbolsByName[p].kind != PACKAGE :: Covers(p, prefix) && p != prefix
      decreases |prefix|
    {
      var dot := LastDot(prefix);
      if dot < 0 {
        forall p | Covers(p, prefix) && p != prefix ensures false { CoversParent(p, prefix); }
        return false;
      }
      forall p | Covers(p, prefix) && p != prefix ensures Covers(p, Parent(prefix)) { CoversParent(p, prefix); }
      CoversTransitive(Parent(prefix), prefix, name);
      prefix := prefix[..dot];
      if prefix in tables.symbolsByName && tables.symbolsByName[prefix].kind != PACKAGE {
        return true;
      }
    }
  }

  /** The file that the database names is among those in the pool. */
  ghost predicate IsAnswer(pool: Pool, q: FallbackDatabase.Query, files: set<string>)
    requires pool.fallback.Some?
  {
    var proto := pool.fallback.value.answer(q);
    proto.Some? && proto.value.name in files
  }

  /** The database names a file that is not in the pool. */
  ghost predicate MayBuild(pool: Pool, q: FallbackDatabase.Query, files: set<string>)
    requires pool.fallback.Some?
  {
    var proto := pool.fallback.value.answer(q);
    proto.Some? && proto.value.name !in files
  }

  /** Loads the file the database names for a symbol, unless the symbol lies inside a type that is
      built already, or that file is in the pool and so lacks the symbol. */
  method TryFindSymbolInFallbackDatabase(pool: Pool, tables: Tables, name: string) returns (found: bool)
    requires Ready(pool) && Inv(tables.StateNow())
    modifies tables
    ensures Linked(pool, old(tables.StateNow()), tables.StateNow()) && Inv(tables.StateNow())
    ensures pool.fallback.None? ==> !found && tables.StateNow() == old(tables.StateNow())
    ensures SubSymbolOfBuiltType(old(tables.symbolsByName), name) ==>
      !found && tables.StateNow() == old(tables.StateNow())
    ensures pool.fallback.Some? && found ==> IsAnswer(pool, MergedDatabase.BySymbol(name), tables.filesByName.Keys)
    ensures pool.fallback.Some? && !MayBuild(pool, MergedDatabase.BySymbol(name), old(tables.filesByName.Keys)) ==>
      !found && tables.StateNow() == old(tables.StateNow())
    decreases Unseen(pool, tables.StateNow()), 15
  {
    hide Inv, Grows, OwnedIn, Built, Buildable, SubSymbolOfBuiltType;
    LinkedRefl(pool, tables.StateNow());
    if pool.fallback.None? { return false; }
    var here := IsSubSymbolOfBuiltType(tables, name);
    if here { return false; }
    found := TryBuild(pool, tables, MergedDatabase.BySymbol(name));
  }

  /** Loads the file the database names for an extension number. */
  method TryFindExtensionInFallbackDatabase(pool: Pool, tables: Tables, containing: string, number: int)
    returns (found: bool)
    requires Ready(pool) && Inv(tables.StateNow())
    modifies tables
    ensures Linked(pool, old(tables.StateNow()), tables.StateNow()) && Inv(tables.StateNow())
    ensures pool.fallback.None? ==> !found && tables.StateNow() == old(tables.StateNow())
    ensures pool.fallback.Some? && found ==>
      IsAnswer(pool, MergedDatabase.ByExtension(containing, number), tables.filesByName.Keys)
    ensures var query := MergedDatabase.ByExtension(containing, number);
      pool.fallback.Some? && !MayBuild(pool, query, old(tables.filesByName.Keys)) ==>
        !found && tables.StateNow() == old(tables.StateNow())
  {
    hide Inv, Grows, OwnedIn;
    LinkedRefl(pool, tables.StateNow());
    if pool.fallback.None? { return false; }
    found := TryBuild(pool, tables, MergedDatabase.ByExtension(containing, number));
  }

  method TryBuild(pool: Pool, tables: Tables, q: FallbackDatabase.Query) returns (found: bool)
    requires Ready(pool) && Inv(tables.StateNow()) && pool.fallback.Some?
    modifies tables
    ensures Linked(pool, old(tables.StateNow()), tables.StateNow()) && Inv(tables.StateNow())
    ensures found ==> IsAnswer(pool, q, tables.filesByName.Keys)
    ensures !MayBuild(pool, q, old(tables.filesByName.Keys)) ==> !found && tables.StateNow() == old(tables.StateNow())
    decreases Unseen(pool, tables.StateNow()), 14
  {
    hide Inv, Grows, OwnedIn, Built, Buildable;
    LinkedRefl(pool, tables.StateNow());
    var proto := pool.fallback.value.answer(q);
    if proto.None? || proto.value.name in tables.filesByName { return false; }
    var builder := new DescriptorBuilder(pool, tables);
    var built;
    ghost var loaded;
    built, loaded := builder.BuildFile(proto.value);
    return built.Some?;
  }

  // ----- A pool over its whole life -----

  /** The file of that name, loaded if need be: found exactly when it is in the pool afterwards. */
  method FindFileByName(pool: Pool, tables: Tables, name: string) returns (result: Option<Id>)
    requires Ready(pool) && Inv(tables.StateNow())
    modifies tables
    ensures Linked(pool, old(tables.StateNow()), tables.StateNow()) && Inv(tables.StateNow())
    ensures pool.fallback.None? ==> tables.StateNow() == old(tables.StateNow())
    ensures result == FileNamed(tables.filesByName, name)
    ensures name in old(tables.filesByName) ==> tables.StateNow() == old(tables.StateNow())
  {
    hide Inv, Grows, OwnedIn, Built, Buildable;
    LinkedRefl(pool, tables.StateNow());
    if name in tables.filesByName { return Some(tables.filesByName[name].file); }
    var found := TryFindFileInFallbackDatabase(pool, tables, name);
    return if found then Some(tables.filesByName[name].file) else None;
  }

  /** `FindByNameHelper`, from which all the finders of descriptors by name take their answers. */
  method FindByName(pool: Pool, tables: Tables, name: string) returns (result: Option<Symbol>)
    requires Ready(pool) && Inv(tables.StateNow())
    modifies tables
    ensures Linked(pool, old(tables.StateNow()), tables.StateNow()) && Inv(tables.StateNow())
    ensures pool.fallback.None? ==> tables.StateNow() == old(tables.StateNow())
    ensures result.Some? ==> name in tables.symbolsByName && tables.symbolsByName[name] == result.value
    ensures result.None? ==> name !in old(tables.symbolsByName)
    ensures name in old(tables.symbolsByName) || SubSymbolOfBuiltType(old(tables.symbolsByName), name) ==>
      tables.StateNow() == old(tables.StateNow())
  {
    hide Inv, Grows, OwnedIn, SubSymbolOfBuiltType;
    LinkedRefl(pool, tables.StateNow());
    if name in tables.symbolsByName { return Some(tables.symbolsByName[name]); }
    var found := TryFindSymbolInFallbackDatabase(pool, tables, name);
    return if found && name in tables.symbolsByName then Some(tables.symbolsByName[name]) else None;
  }

  method FindExtensionByNumber(pool: Pool, tables: Tables, extendee: Ref, number: int) returns (result: Option<Ref>)
    requires Ready(pool) && Inv(tables.StateNow())
    modifies tables
    ensures Linked(pool, old(tables.StateNow()), tables.StateNow()) && Inv(tables.StateNow())
    ensures pool.fallback.None? ==> tables.StateNow() == old(tables.StateNow())
    ensures result.Some? ==>
      (Some(extendee), number) in tables.extensions && tables.extensions[(Some(extendee), number)] == result.value
    ensures result.None? ==> (Some(extendee), number) !in old(tables.extensions)
    ensures (Some(extendee), number) in old(tables.extensions) ==> tables.StateNow() == old(tables.StateNow())
  {
    hide Inv, Grows, OwnedIn;
    LinkedRefl(pool, tables.StateNow());
    var key := (Some(extendee), number);
    if key in tables.extensions { return Some(tables.extensions[key]); }
    var found := TryFindExtensionInFallbackDatabase(pool, tables, extendee.name, number);
    return if found && key in tables.extensions then Some(tables.extensions[key]) else None;
  }

  datatype Request =
    | Build(proto: FileProto) | FindFile(filename: string)
    | FindSymbol(symbol: string) | FindExtension(extendee: Ref, number: int)

  /** What was answered is in the pool. */
  ghost predicate Holds(s: State, request: Request) {
    match request
    case Build(proto) => proto.name in s.log.now.files && IsFileOf(s, proto)
    case FindFile(filename) => filename in s.log.now.files
    case FindSymbol(symbol) => symbol in s.log.now.symbols
    case FindExtension(extendee, number) => (Some(extendee), number) in s.log.now.extensions
  }

  ghost predicate IsFileOf(s: State, proto: FileProto)
    requires proto.name in s.log.now.files
  {
    var file := s.log.now.files[proto.name].file;
    file in s.descs && s.descs[file].proto == proto
  }

  lemma HoldsOn(p: State, q: State, request: Request)
    requires Grows(p, q) && Holds(p, request)
    ensures Holds(q, request)
  {
  }

  lemma BuiltHolds(s: State, proto: FileProto, file: Id)
    requires Built(s, proto, file)
    ensures Holds(s, Build(proto))
  {
  }

  /** One request: whatever fails on the way, a pool at rest is at rest afterwards. */
  method Handle(pool: Pool, tables: Tables, request: Request) returns (answer: bool)
    requires Ready(pool) && AtRest(tables.StateNow())
    modifies tables
    ensures AtRest(tables.StateNow()) && Grows(old(tables.StateNow()), tables.StateNow())
    ensures answer ==> Holds(tables.StateNow(), request)
    ensures !answer && pool.fallback.None? && !request.Build? ==>
      !Holds(tables.StateNow(), request) && tables.StateNow() == old(tables.StateNow())
    ensures Holds(old(tables.StateNow()), request) && (request.Build? ==> pool.fallback.None?) ==> answer
  {
    hide Inv, Grows, OwnedIn, Built, Buildable;
    ghost var p := tables.StateNow();
    InvGrowsRefl(p);
    match request {
      case Build(proto) =>
        answer := false;
        if pool.fallback.None? {
          var builder := new DescriptorBuilder(pool, tables);
          var file;
          ghost var loaded;
          file, loaded := builder.BuildFile(proto);
          answer := file.Some?;
          if proto.name in p.log.now.files {
            NamedDesc(p, proto.name);
          } else if answer {
            BuiltHolds(tables.StateNow(), proto, file.value);
          }
        }
      case FindFile(filename) =>
        var file := FindFileByName(pool, tables, filename);
        answer := file.Some?;
        LinkedKeeps(pool, p, tables.StateNow());
      case FindSymbol(symbol) =>
        var found := FindByName(pool, tables, symbol);
        answer := found.Some?;
        LinkedKeeps(pool, p, tables.StateNow());
      case FindExtension(extendee, number) =>
        var field := FindExtensionByNumber(pool, tables, extendee, number);
        answer := field.Some?;
        LinkedKeeps(pool, p, tables.StateNow());
    }
    GrowsKeepsRest(p, tables.StateNow());
  }

  /** Any list of requests on a new pool: it is at rest afterwards, and every answer that was given still holds. */
  method Serve(pool: Pool, requests: seq<Request>) returns (tables: Tables, answers: seq<bool>)
    requires Ready(pool)
    ensures AtRest(tables.StateNow()) && |answers| == |requests|
    ensures forall i | 0 <= i < |requests| && answers[i] :: Holds(tables.StateNow(), requests[i])
  {
    hide Inv, Grows, OwnedIn, Holds, AtRest;
    tables := new Tables();
    answers := [];
    NewPoolIsAtRest();
    for i := 0 to |requests|
      invariant fresh(tables) && AtRest(tables.StateNow()) && |answers| == i
      invariant forall k | 0 <= k < i && answers[k] :: Holds(tables.StateNow(), requests[k])
    {
      ghost var p := tables.StateNow();
      var answer := Handle(pool, tables, requests[i]);
      forall k | 0 <= k < i && answers[k] ensures Holds(tables.StateNow(), requests[k]) {
        HoldsOn(p, tables.StateNow(), requests[k]);
      }
      answers := answers + [answer];
    }
  }

  lemma CharacterByCharacter(name: string)
    requires name != ""
    ensures ValidIdentifier(name) <==> forall k | 0 <= k < |name| :: ValidIdentifier([name[k]])
  {
    forall k | 0 <= k < |name| ensures ValidIdentifier([name[k]]) <==>
      ('a' <= name[k] <= 'z' || 'A' <= name[k] <= 'Z' || '0' <= name[k] <= '9' || name[k] == '_')
    {
      assert [name[k]][0] == name[k];
    }
  }
}
