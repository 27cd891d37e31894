/** Which names and extensions of a file an index answers, once the file has been added. */
module IndexedNames {
  import opened Names
  import opened OrderedMaps
  import opened Protos
  import opened DescriptorDatabase

  // ----- What a file holds, read off the file -----

  /** A message, enum, extension or service at the top level of the file. */
  ghost predicate TopLevel(file: FileProto, name: string) {
    || (exists i :: 0 <= i < |file.messages| && file.messages[i].name == name)
    || (exists i :: 0 <= i < |file.enums| && file.enums[i].name == name)
    || (exists i :: 0 <= i < |file.extensions| && file.extensions[i].name == name)
    || (exists i :: 0 <= i < |file.services| && file.services[i].name == name)
  }

  function Qualified(file: FileProto, name: string): string {
    if file.package.Some? && file.package.value != "" then file.package.value + "." + name else name
  }

  /** The extension is declared in one of the messages, or in a message inside one, to any depth. */
  ghost predicate Nests(messages: seq<MessageProto>, e: FieldProto)
    decreases messages
  {
    exists i :: 0 <= i < |messages| && (e in messages[i].extensions || Nests(messages[i].nested, e))
  }

  ghost predicate DeclaresExtension(file: FileProto, e: FieldProto) {
    e in file.extensions || Nests(file.messages, e)
  }

  // ----- What is inserted for it -----

  /** `AddFile` inserts the qualified top-level names and the extensions of the file, and nothing else. */
  lemma InsertedExactly(file: FileProto, full: string, e: FieldProto)
    ensures Symbol(full) in Insertions(file) <==> exists n :: TopLevel(file, n) && full == Qualified(file, n)
    ensures Extension(e) in Insertions(file) <==> DeclaresExtension(file, e)
  {
    hide MessageInsertions, SymbolInsertions, ScopedExtensionInsertions, Nests, TopLevel, Qualified, PathOf;
    var path := PathOf(file);
    MessagesInserted(path, file.messages, full, e);
    NamesInserted(path, EnumNames(file.enums), full, e);
    ScopedInserted(path, file.extensions, full, e);
    NamesInserted(path, ServiceNames(file.services), full, e);
    InFour(MessageInsertions(path, file.messages), SymbolInsertions(path, EnumNames(file.enums)),
           ScopedExtensionInsertions(path, file.extensions), SymbolInsertions(path, ServiceNames(file.services)),
           Symbol(full));
    InFour(MessageInsertions(path, file.messages), SymbolInsertions(path, EnumNames(file.enums)),
           ScopedExtensionInsertions(path, file.extensions), SymbolInsertions(path, ServiceNames(file.services)),
           Extension(e));
    NamedAtTop(file, full);
  }

  /** Some message in the list has the name, after a path. */
  ghost predicate MessageNamed(path: string, messages: seq<MessageProto>, full: string) {
    exists i :: 0 <= i < |messages| && full == path + messages[i].name
  }

  ghost predicate FieldNamed(path: string, fields: seq<FieldProto>, full: string) {
    exists i :: 0 <= i < |fields| && full == path + fields[i].name
  }

  ghost predicate Named(path: string, names: seq<string>, full: string) {
    exists i :: 0 <= i < |names| && full == path + names[i]
  }

  lemma NamedAtTop(file: FileProto, full: string)
    ensures (exists n :: TopLevel(file, n) && full == Qualified(file, n)) <==>
      || MessageNamed(PathOf(file), file.messages, full) || Named(PathOf(file), EnumNames(file.enums), full)
      || FieldNamed(PathOf(file), file.extensions, full) || Named(PathOf(file), ServiceNames(file.services), full)
  {
    hide TopLevel, PathOf, Qualified, Named, EnumNames, ServiceNames;
    var path := PathOf(file);
    forall n ensures Qualified(file, n) == path + n { QualifiedIs(file, n); }
    forall n { TopIs(file, n); }
    NamedIs(path, EnumNames(file.enums), full);
    NamedIs(path, ServiceNames(file.services), full);
    if MessageNamed(path, file.messages, full) {
      var i :| 0 <= i < |file.messages| && full == path + file.messages[i].name;
      assert TopLevel(file, file.messages[i].name);
    }
    if FieldNamed(path, file.extensions, full) {
      var i :| 0 <= i < |file.extensions| && full == path + file.extensions[i].name;
      assert TopLevel(file, file.extensions[i].name);
    }
  }

  lemma QualifiedIs(file: FileProto, n: string)
    ensures Qualified(file, n) == PathOf(file) + n
  {
  }

  lemma NamedIs(path: string, names: seq<string>, full: string)
    ensures Named(path, names, full) <==> exists n :: n in names && full == path + n
  {
  }

  lemma TopIs(file: FileProto, n: string)
    ensures TopLevel(file, n) <==>
      || (exists i :: 0 <= i < |file.messages| && file.messages[i].name == n) || n in EnumNames(file.enums)
      || (exists i :: 0 <= i < |file.extensions| && file.extensions[i].name == n) || n in ServiceNames(file.services)
  {
    if i :| 0 <= i < |file.enums| && file.enums[i].name == n { assert EnumNames(file.enums)[i] == n; }
    if i :| 0 <= i < |file.services| && file.services[i].name == n { assert ServiceNames(file.services)[i] == n; }
  }

  lemma InFour(a: seq<Insertion>, b: seq<Insertion>, c: seq<Insertion>, d: seq<Insertion>, one: Insertion)
    ensures one in a + (b + (c + d)) <==> one in a || one in b || one in c || one in d
  {
  }

  lemma {:induction false} MessagesInserted(path: string, messages: seq<MessageProto>, full: string, e: FieldProto)
    ensures Symbol(full) in MessageInsertions(path, messages) <==> MessageNamed(path, messages, full)
    ensures Extension(e) in MessageInsertions(path, messages) <==> Nests(messages, e)
    decreases |messages|
  {
    hide NestedInsertions, Nests;
    if messages == [] {
      NestsFirst(messages, e);
    } else {
      var rest := messages[1..];
      NestedInserted([messages[0]], full, e);
      MessagesInserted(path, rest, full, e);
      NestsFirst(messages, e);
      if i :| 0 <= i < |messages| && full == path + messages[i].name {
        if i > 0 { assert full == path + rest[i - 1].name; }
      }
      if i :| 0 <= i < |rest| && full == path + rest[i].name { assert full == path + messages[i + 1].name; }
    }
  }

  lemma NestsFirst(messages: seq<MessageProto>, e: FieldProto)
    ensures messages == [] ==> !Nests(messages, e)
    ensures messages != [] ==>
      (Nests(messages, e) <==> Nests([messages[0]], e) || Nests(messages[1..], e))
      && (Nests([messages[0]], e) <==> e in messages[0].extensions || Nests(messages[0].nested, e))
  {
    if messages != [] {
      var rest := messages[1..];
      assert [messages[0]][0] == messages[0];
      if Nests(messages, e) {
        var i :| 0 <= i < |messages| && (e in messages[i].extensions || Nests(messages[i].nested, e));
        if i > 0 { assert rest[i - 1] == messages[i]; }
      }
      if Nests(rest, e) {
        var i :| 0 <= i < |rest| && (e in rest[i].extensions || Nests(rest[i].nested, e));
        assert messages[i + 1] == rest[i];
      }
    }
  }

  lemma {:induction false} NestedInserted(messages: seq<MessageProto>, full: string, e: FieldProto)
    ensures Symbol(full) !in NestedInsertions(messages)
    ensures Extension(e) in NestedInsertions(messages) <==> Nests(messages, e)
    decreases messages
  {
    hide Nests;
    NestsFirst(messages, e);
    if messages != [] {
      NestedInserted(messages[0].nested, full, e);
      OwnInserted(messages[0].extensions, full, e);
      NestedInserted(messages[1..], full, e);
    }
  }

  lemma {:induction false} OwnInserted(fields: seq<FieldProto>, full: string, e: FieldProto)
    ensures Symbol(full) !in ExtensionInsertions(fields)
    ensures Extension(e) in ExtensionInsertions(fields) <==> e in fields
    decreases |fields|
  {
    if fields != [] {
      OwnInserted(fields[1..], full, e);
      assert e in fields <==> e == fields[0] || e in fields[1..];
    }
  }

  lemma {:induction false} NamesInserted(path: string, names: seq<string>, full: string, e: FieldProto)
    ensures Symbol(full) in SymbolInsertions(path, names) <==> Named(path, names, full)
    ensures Extension(e) !in SymbolInsertions(path, names)
    decreases |names|
  {
    if names != [] {
      var rest := names[1..];
      NamesInserted(path, rest, full, e);
      if i :| 0 <= i < |names| && full == path + names[i] {
        if i > 0 { assert full == path + rest[i - 1]; }
      }
      if i :| 0 <= i < |rest| && full == path + rest[i] { assert full == path + names[i + 1]; }
    }
  }

  lemma {:induction false} ScopedInserted(path: string, fields: seq<FieldProto>, full: string, e: FieldProto)
    ensures Symbol(full) in ScopedExtensionInsertions(path, fields) <==> FieldNamed(path, fields, full)
    ensures Extension(e) in ScopedExtensionInsertions(path, fields) <==> e in fields
    decreases |fields|
  {
    if fields != [] {
      var rest := fields[1..];
      ScopedInserted(path, rest, full, e);
      assert e in fields <==> e == fields[0] || e in rest;
      if i :| 0 <= i < |fields| && full == path + fields[i].name {
        if i > 0 { assert full == path + rest[i - 1].name; }
      }
      if i :| 0 <= i < |rest| && full == path + rest[i].name { assert full == path + fields[i + 1].name; }
    }
  }

  // ----- What is inserted is there, and stays -----

  /** Keys and values are never removed. */
  lemma AppliedKeeps(x: Index, one: Insertion, v: FileProto, k: string, key: ExtensionKey, f: FileProto)
    ensures HasPair(x.bySymbol, k, f) ==> HasPair(Apply(x, one, v).1.bySymbol, k, f)
    ensures HasPair(x.byExtension, key, f) ==> HasPair(Apply(x, one, v).1.byExtension, key, f)
  {
    hide HasPair, Less, KeyLess;
    match one {
      case Symbol(name) =>
        if Find(Less, x.bySymbol, name) == |x.bySymbol| { InsertMembers(Less, x.bySymbol, name, v, k, f); }
      case Extension(e) =>
        if ExtendeeOf(e) != "" && ExtendeeOf(e)[0] == '.' {
          var at := (ExtendeeOf(e)[1..], e.number);
          if Find(KeyLess, x.byExtension, at) == |x.byExtension| {
            InsertMembers(KeyLess, x.byExtension, at, v, key, f);
          }
        }
    }
  }

  lemma {:induction false} AllAppliedKeeps(x: Index, todo: seq<Insertion>, v: FileProto, k: string, key: ExtensionKey,
                                           f: FileProto)
    ensures HasPair(x.bySymbol, k, f) ==> HasPair(ApplyAll(x, todo, v).1.bySymbol, k, f)
    ensures HasPair(x.byExtension, key, f) ==> HasPair(ApplyAll(x, todo, v).1.byExtension, key, f)
    decreases |todo|
  {
    hide HasPair, Apply;
    if todo != [] {
      AppliedKeeps(x, todo[0], v, k, key, f);
      AllAppliedKeeps(Apply(x, todo[0], v).1, todo[1..], v, k, key, f);
    }
  }

  /** A fully-qualified extension goes under its extendee without the dot, and its number. */
  predicate FiledUnder(e: FieldProto, key: ExtensionKey) {
    e.extendee.Some? && e.extendee.value == "." + key.0 && e.number == key.1
  }

  ghost predicate SomeFiledUnder(todo: seq<Insertion>, key: ExtensionKey) {
    exists e :: Extension(e) in todo && FiledUnder(e, key)
  }

  /** One insertion that succeeds and leaves the symbol map valid enters what it names. */
  lemma OneApplied(x: Index, one: Insertion, v: FileProto, k: string, key: ExtensionKey, f: FileProto)
    requires Valid(x.bySymbol) && Sorted(KeyLess, x.byExtension)
    requires Apply(x, one, v).0 && Valid(Apply(x, one, v).1.bySymbol)
    ensures var y := Apply(x, one, v).1;
      && Sorted(KeyLess, y.byExtension)
      && (HasPair(y.bySymbol, k, f) <==> HasPair(x.bySymbol, k, f) || (f == v && one == Symbol(k)))
      && (HasPair(y.byExtension, key, f)
          <==> HasPair(x.byExtension, key, f) || (f == v && one.Extension? && FiledUnder(one.proto, key)))
  {
    hide Valid, HasPair, Less, KeyLess, Sorted;
    match one {
      case Symbol(name) =>
        WithSymbolExact(x.bySymbol, name, v);
      case Extension(e) =>
        var extendee := ExtendeeOf(e);
        if extendee != "" && extendee[0] == '.' {
          ExtensionOrder();
          InsertSorted(KeyLess, x.byExtension, (extendee[1..], e.number), v);
          InsertMembers(KeyLess, x.byExtension, (extendee[1..], e.number), v, key, f);
          assert extendee == "." + extendee[1..];
          assert "." + key.0 == extendee <==> key.0 == extendee[1..] by { assert ("." + key.0)[1..] == key.0; }
        } else {
          assert ("." + key.0)[0] == '.';
        }
    }
  }

  /** A symbol map that is not valid never becomes valid again, so that one that is valid at the end always was. */
  lemma {:induction false} AlwaysWasValid(x: Index, todo: seq<Insertion>, v: FileProto)
    requires !Antichain(x.bySymbol)
    ensures !Antichain(ApplyAll(x, todo, v).1.bySymbol)
    decreases |todo|
  {
    hide Antichain;
    if todo != [] {
      if todo[0].Symbol? {
        BrokenStaysBroken(x.bySymbol, [(todo[0].name, v)]);
        OneCall(x.bySymbol, todo[0].name, v);
      }
      AlwaysWasValid(Apply(x, todo[0], v).1, todo[1..], v);
    }
  }

  lemma OneCall(s: Symbols, name: string, v: FileProto)
    ensures WithSymbols(s, [(name, v)]) == WithSymbol(s, name, v).1
  {
    hide WithSymbol;
    assert [(name, v)][1..] == [];
  }

  lemma StepStaysSorted(x: Index, one: Insertion, v: FileProto)
    requires Valid(x.bySymbol)
    ensures var s := Apply(x, one, v).1.bySymbol; Valid(s) <==> Antichain(s)
  {
    hide Antichain, HasPair;
    if one.Symbol? && ValidSymbol(one.name) && WithSymbol(x.bySymbol, one.name, v).0 {
      InsertKeepsValid(x.bySymbol, one.name, v);
    }
  }

  lemma {:induction false} AllApplied(x: Index, todo: seq<Insertion>, v: FileProto, k: string, key: ExtensionKey,
                                      f: FileProto)
    requires Valid(x.bySymbol) && Sorted(KeyLess, x.byExtension)
    requires ApplyAll(x, todo, v).0 && Valid(ApplyAll(x, todo, v).1.bySymbol)
    ensures var y := ApplyAll(x, todo, v).1;
      && Sorted(KeyLess, y.byExtension)
      && (HasPair(y.bySymbol, k, f) <==> HasPair(x.bySymbol, k, f) || (f == v && Symbol(k) in todo))
      && (HasPair(y.byExtension, key, f) <==> HasPair(x.byExtension, key, f) || (f == v && SomeFiledUnder(todo, key)))
    decreases |todo|
  {
    hide HasPair, Apply, Sorted, FiledUnder, KeyLess, SomeFiledUnder;
    if todo == [] {
      NoneFiled(key);
    } else {
      var y := Apply(x, todo[0], v).1;
      StepStaysSorted(x, todo[0], v);
      if !Antichain(y.bySymbol) { AlwaysWasValid(y, todo[1..], v); }
      OneApplied(x, todo[0], v, k, key, f);
      AllApplied(y, todo[1..], v, k, key, f);
      FiledFirst(todo, key);
      assert Symbol(k) in todo <==> Symbol(k) == todo[0] || Symbol(k) in todo[1..];
    }
  }

  lemma NoneFiled(key: ExtensionKey)
    ensures !SomeFiledUnder([], key)
  {
  }

  lemma FiledFirst(todo: seq<Insertion>, key: ExtensionKey)
    requires todo != []
    ensures SomeFiledUnder(todo, key)
       <==> (todo[0].Extension? && FiledUnder(todo[0].proto, key)) || SomeFiledUnder(todo[1..], key)
  {
    hide FiledUnder;
    assert todo == [todo[0]] + todo[1..];
    if todo[0].Extension? && FiledUnder(todo[0].proto, key) { assert Extension(todo[0].proto) in todo; }
    if SomeFiledUnder(todo[1..], key) {
      var e :| Extension(e) in todo[1..] && FiledUnder(e, key);
      assert Extension(e) in todo;
    }
  }

  // ----- What is answered -----

  /** The name, or one under it, of something at the top level of the file. */
  ghost predicate AnswersFor(file: FileProto, query: string) {
    exists n :: TopLevel(file, n) && Covers(Qualified(file, n), query)
  }

  ghost predicate HoldsExtension(file: FileProto, containing: string, number: int) {
    exists e :: DeclaresExtension(file, e) && FiledUnder(e, (containing, number))
  }

  /**
   * After a file has been added, with the symbol map valid still, a symbol query answers it exactly for the qualified
   * names of its top level and what lies under them, an extension query for the fully-qualified extensions it declares
   * anywhere; every other query is answered as before.
   */
  lemma AddedExactly(x: Index, file: FileProto, query: string, containing: string, number: int, f: FileProto)
    requires Valid(x.bySymbol) && Sorted(KeyLess, x.byExtension)
    requires WithFile(x, file).0 && Valid(WithFile(x, file).1.bySymbol)
    ensures var y := WithFile(x, file).1;
      && Sorted(KeyLess, y.byExtension)
      && (FindSymbol(y.bySymbol, query) == Some(f)
          <==> FindSymbol(x.bySymbol, query) == Some(f) || (f == file && AnswersFor(file, query)))
      && (FindExtension(y, containing, number) == Some(f)
          <==> || FindExtension(x, containing, number) == Some(f)
               || (f == file && HoldsExtension(file, containing, number)))
  {
    hide Valid, Sorted, HasPair, ApplyAll, Insertions, TopLevel, Qualified, Covers, DeclaresExtension, FiledUnder,
      KeyLess, FindSymbol;
    var x0, todo := x.(byName := x.byName[file.name := file]), Insertions(file);
    var y := WithFile(x, file).1;
    var key := (containing, number);
    FindSymbolCorrect(x.bySymbol, query, f);
    FindSymbolCorrect(y.bySymbol, query, f);
    ExtensionOrder();
    forall k
      ensures HasPair(y.bySymbol, k, f)
        <==> HasPair(x.bySymbol, k, f) || (f == file && exists n :: TopLevel(file, n) && k == Qualified(file, n))
      ensures Sorted(KeyLess, y.byExtension)
    {
      AllApplied(x0, todo, file, k, key, f);
      InsertedNames(file, k);
    }
    AllApplied(x0, todo, file, "", key, f);
    InsertedExtensions(file, key);
    LookupIsMember(KeyLess, x.byExtension, key, f);
    LookupIsMember(KeyLess, y.byExtension, key, f);
  }

  lemma InsertedNames(file: FileProto, full: string)
    ensures Symbol(full) in Insertions(file) <==> exists n :: TopLevel(file, n) && full == Qualified(file, n)
  {
    hide Insertions, TopLevel, Qualified, DeclaresExtension;
    InsertedExactly(file, full, FieldProto("", 0, Unset, None, None, None));
  }

  lemma InsertedExtensions(file: FileProto, key: ExtensionKey)
    ensures SomeFiledUnder(Insertions(file), key) <==> HoldsExtension(file, key.0, key.1)
  {
    hide Insertions, TopLevel, Qualified, DeclaresExtension, FiledUnder;
    forall e ensures Extension(e) in Insertions(file) <==> DeclaresExtension(file, e) { InsertedExactly(file, "", e); }
  }

  // ----- Over runs -----

  /** The calls of `AddSymbol` that adding a file makes, up to the first insertion that fails. */
  function Calls(x: Index, todo: seq<Insertion>, v: FileProto): seq<(string, FileProto)>
    decreases |todo|
  {
    if todo == [] then []
    else
      (match todo[0] case Symbol(name) => [(name, v)] case Extension(_) => [])
      + (if Apply(x, todo[0], v).0 then Calls(Apply(x, todo[0], v).1, todo[1..], v) else [])
  }

  function FileCalls(x: Index, file: FileProto): seq<(string, FileProto)> {
    if file.name in x.byName then []
    else Calls(x.(byName := x.byName[file.name := file]), Insertions(file), file)
  }

  function RunCalls(x: Index, files: seq<FileProto>): seq<(string, FileProto)>
    decreases |files|
  {
    if files == [] then [] else FileCalls(x, files[0]) + RunCalls(WithFile(x, files[0]).1, files[1..])
  }

  lemma {:induction false} CallsMakeSymbols(x: Index, todo: seq<Insertion>, v: FileProto)
    ensures ApplyAll(x, todo, v).1.bySymbol == WithSymbols(x.bySymbol, Calls(x, todo, v))
    decreases |todo|
  {
    hide WithSymbol;
    if todo != [] {
      var (ok, y) := Apply(x, todo[0], v);
      var rest := if ok then Calls(y, todo[1..], v) else [];
      if ok { CallsMakeSymbols(y, todo[1..], v); }
      match todo[0]
      case Symbol(name) => assert ([(name, v)] + rest)[1..] == rest;
      case Extension(_) => assert [] + rest == rest;
    }
  }

  lemma {:induction false} SymbolsSplit(s: Symbols, a: seq<(string, FileProto)>, b: seq<(string, FileProto)>)
    ensures WithSymbols(s, a + b) == WithSymbols(WithSymbols(s, a), b)
    ensures EverSkipsBegin(s, a + b) <==> EverSkipsBegin(s, a) || EverSkipsBegin(WithSymbols(s, a), b)
    decreases |a|
  {
    hide WithSymbol, SkipsBegin;
    if a == [] {
      assert a + b == b;
    } else {
      assert (a + b)[0] == a[0] && (a + b)[1..] == a[1..] + b;
      SymbolsSplit(WithSymbol(s, a[0].0, a[0].1).1, a[1..], b);
    }
  }

  lemma FileMakesSymbols(x: Index, file: FileProto)
    ensures WithFile(x, file).1.bySymbol == WithSymbols(x.bySymbol, FileCalls(x, file))
  {
    hide ApplyAll, Calls, Insertions;
    if file.name !in x.byName {
      CallsMakeSymbols(x.(byName := x.byName[file.name := file]), Insertions(file), file);
    }
  }

  /** The symbol map of a run is that of its `AddSymbol` calls, so it stays valid unless one steps over `begin()`. */
  lemma {:induction false} RunMakesSymbols(x: Index, files: seq<FileProto>)
    ensures WithFiles(x, files).bySymbol == WithSymbols(x.bySymbol, RunCalls(x, files))
    decreases |files|
  {
    hide WithFile, FileCalls, EverSkipsBegin;
    if files != [] {
      FileMakesSymbols(x, files[0]);
      RunMakesSymbols(WithFile(x, files[0]).1, files[1..]);
      SymbolsSplit(x.bySymbol, FileCalls(x, files[0]), RunCalls(WithFile(x, files[0]).1, files[1..]));
    }
  }

  /** The file is added in its turn. */
  predicate Accepted(x: Index, files: seq<FileProto>, k: nat)
    requires k < |files|
  {
    WithFile(WithFiles(x, files[..k]), files[k]).0
  }

  /**
   * Over every run of `AddFile` in which no call of `AddSymbol` steps over `begin()`: each file that was accepted
   * answers, at the end, every query for a name of its top level and for whatever lies under one, and every query for
   * an extension it declares.
   */
  lemma {:induction false} AcceptedIsFound(x: Index, files: seq<FileProto>, k: nat, query: string, containing: string,
                                           number: int)
    requires SelfConsistent(x) && Valid(x.bySymbol) && !EverSkipsBegin(x.bySymbol, RunCalls(x, files))
    requires k < |files| && Accepted(x, files, k)
    ensures AnswersFor(files[k], query) ==> FindSymbol(WithFiles(x, files).bySymbol, query) == Some(files[k])
    ensures HoldsExtension(files[k], containing, number) ==>
      FindExtension(WithFiles(x, files), containing, number) == Some(files[k])
    decreases |files|
  {
    hide Valid, SelfConsistent, WithFile, FileCalls, FindSymbol, FindExtension, AnswersFor, HoldsExtension,
      EverSkipsBegin;
    var y, rest := WithFile(x, files[0]).1, files[1..];
    OneFileOfRun(x, files);
    if k == 0 {
      assert files[..0] == [];
      SortedNow(x);
      AddedExactly(x, files[0], query, containing, number, files[0]);
      FoundStays(y, rest, query, containing, number, files[0]);
    } else {
      assert files[..k][0] == files[0] && files[..k][1..] == rest[..k - 1];
      AcceptedIsFound(y, rest, k - 1, query, containing, number);
    }
  }

  lemma SortedNow(x: Index)
    requires SelfConsistent(x)
    ensures Sorted(KeyLess, x.byExtension)
  {
  }

  lemma OneFileOfRun(x: Index, files: seq<FileProto>)
    requires files != [] && SelfConsistent(x) && Valid(x.bySymbol)
    requires !EverSkipsBegin(x.bySymbol, RunCalls(x, files))
    ensures var y := WithFile(x, files[0]).1;
      SelfConsistent(y) && Valid(y.bySymbol) && !EverSkipsBegin(y.bySymbol, RunCalls(y, files[1..]))
  {
    hide Valid, SelfConsistent, WithFile, FileCalls, EverSkipsBegin;
    var y := WithFile(x, files[0]).1;
    FileMakesSymbols(x, files[0]);
    SymbolsSplit(x.bySymbol, FileCalls(x, files[0]), RunCalls(y, files[1..]));
    InvariantOverRuns(x.bySymbol, FileCalls(x, files[0]));
    ReachableConsistent(x, [files[0]]);
    assert [files[0]][1..] == [];
    assert WithFiles(x, [files[0]]) == y;
  }

  /** What is found stays found. */
  lemma FoundStays(x: Index, files: seq<FileProto>, query: string, containing: string, number: int, f: FileProto)
    requires SelfConsistent(x) && Valid(x.bySymbol) && !EverSkipsBegin(x.bySymbol, RunCalls(x, files))
    ensures FindSymbol(x.bySymbol, query) == Some(f) ==> FindSymbol(WithFiles(x, files).bySymbol, query) == Some(f)
    ensures FindExtension(x, containing, number) == Some(f) ==>
      FindExtension(WithFiles(x, files), containing, number) == Some(f)
  {
    hide Valid, SelfConsistent, HasPair, Sorted, WithFiles, RunCalls, EverSkipsBegin, FindSymbol, KeyLess, Covers;
    var y, key := WithFiles(x, files), (containing, number);
    RunMakesSymbols(x, files);
    InvariantOverRuns(x.bySymbol, RunCalls(x, files));
    ReachableConsistent(x, files);
    SortedNow(x);
    SortedNow(y);
    ExtensionOrder();
    FindSymbolCorrect(x.bySymbol, query, f);
    FindSymbolCorrect(y.bySymbol, query, f);
    LookupIsMember(KeyLess, x.byExtension, key, f);
    LookupIsMember(KeyLess, y.byExtension, key, f);
    forall k ensures HasPair(x.bySymbol, k, f) ==> HasPair(y.bySymbol, k, f)
             ensures HasPair(x.byExtension, key, f) ==> HasPair(y.byExtension, key, f) {
      RunKeeps(x, files, k, key, f);
    }
    RunKeeps(x, files, "", key, f);
  }

  lemma {:induction false} RunKeeps(x: Index, files: seq<FileProto>, k: string, key: ExtensionKey, f: FileProto)
    ensures HasPair(x.bySymbol, k, f) ==> HasPair(WithFiles(x, files).bySymbol, k, f)
    ensures HasPair(x.byExtension, key, f) ==> HasPair(WithFiles(x, files).byExtension, key, f)
    decreases |files|
  {
    hide HasPair, ApplyAll, Insertions;
    if files != [] {
      if files[0].name !in x.byName {
        AllAppliedKeeps(x.(byName := x.byName[files[0].name := files[0]]), Insertions(files[0]), files[0], k, key, f);
      }
      RunKeeps(WithFile(x, files[0]).1, files[1..], k, key, f);
    }
  }
}
