/** Which files an index accepts, read off the names and the extensions of the file. */
module AcceptedFiles {
  import opened Names
  import opened OrderedMaps
  import opened Protos
  import opened DescriptorDatabase
  import opened IndexedNames

  // ----- What a file brings -----

  function MessageNames(messages: seq<MessageProto>): seq<string> {
    seq(|messages|, i requires 0 <= i < |messages| => messages[i].name)
  }

  function FieldNames(fields: seq<FieldProto>): seq<string> {
    seq(|fields|, i requires 0 <= i < |fields| => fields[i].name)
  }

  /** The names at the top level, one for each message, enum, extension and service. */
  function TopNames(file: FileProto): seq<string> {
    MessageNames(file.messages) + EnumNames(file.enums) + FieldNames(file.extensions) + ServiceNames(file.services)
  }

  /** The full names of those. */
  function QualifiedNames(file: FileProto): seq<string> {
    seq(|TopNames(file)|, i requires 0 <= i < |TopNames(file)| => Qualified(file, TopNames(file)[i]))
  }

  /** The extensions in messages, those of the messages inside a message before its own. */
  function NestedExtensions(messages: seq<MessageProto>): seq<FieldProto>
    decreases messages
  {
    if messages == [] then []
    else NestedExtensions(messages[0].nested) + messages[0].extensions + NestedExtensions(messages[1..])
  }

  /** All the extensions of a file, each as often as it is declared. */
  function AllExtensions(file: FileProto): seq<FieldProto> {
    NestedExtensions(file.messages) + file.extensions
  }

  // ----- When they fit -----

  /** One of the names is, or is inside, the other. */
  predicate Clash(a: string, b: string) {
    Covers(a, b) || Covers(b, a)
  }

  /** The names are of symbols, do not clash with each other, and clash with none that is there. */
  ghost predicate NamesFit(s: Symbols, names: seq<string>) {
    && (forall i | 0 <= i < |names| :: ValidSymbol(names[i]) && forall k | HasKey(s, k) :: !Clash(k, names[i]))
    && forall i, j | 0 <= i < j < |names| :: !Clash(names[i], names[j])
  }

  /** The fully-qualified extensions have different numbers of their types, none of which is taken. */
  ghost predicate NumbersFit(s: Extensions, extensions: seq<FieldProto>) {
    && (forall i, key | 0 <= i < |extensions| && FiledUnder(extensions[i], key) :: !HasKey(s, key))
    && forall i, j, key | 0 <= i < j < |extensions| && FiledUnder(extensions[i], key) :: !FiledUnder(extensions[j], key)
  }

  // ----- The insertions of a file -----

  function NameIn(one: Insertion): seq<string> {
    match one case Symbol(name) => [name] case Extension(_) => []
  }

  function ExtensionIn(one: Insertion): seq<FieldProto> {
    match one case Symbol(_) => [] case Extension(e) => [e]
  }

  function OnlySymbols(todo: seq<Insertion>): seq<string> {
    if todo == [] then [] else NameIn(todo[0]) + OnlySymbols(todo[1..])
  }

  function OnlyExtensions(todo: seq<Insertion>): seq<FieldProto> {
    if todo == [] then [] else ExtensionIn(todo[0]) + OnlyExtensions(todo[1..])
  }

  lemma {:induction false} OnlySplit(a: seq<Insertion>, b: seq<Insertion>)
    ensures OnlySymbols(a + b) == OnlySymbols(a) + OnlySymbols(b)
    ensures OnlyExtensions(a + b) == OnlyExtensions(a) + OnlyExtensions(b)
    decreases |a|
  {
    hide NameIn, ExtensionIn;
    if a == [] {
      assert a + b == b;
    } else {
      assert (a + b)[0] == a[0] && (a + b)[1..] == a[1..] + b;
      OnlySplit(a[1..], b);
      assert OnlySymbols(a + b) == NameIn(a[0]) + (OnlySymbols(a[1..]) + OnlySymbols(b));
      assert OnlyExtensions(a + b) == ExtensionIn(a[0]) + (OnlyExtensions(a[1..]) + OnlyExtensions(b));
    }
  }

  lemma OneOnly(one: Insertion)
    ensures OnlySymbols([one]) == NameIn(one) && OnlyExtensions([one]) == ExtensionIn(one)
  {
    assert [one][1..] == [];
  }

  /** Each name after a path. */
  function After(path: string, names: seq<string>): seq<string> {
    seq(|names|, i requires 0 <= i < |names| => path + names[i])
  }

  lemma AfterSplit(path: string, a: seq<string>, b: seq<string>)
    ensures After(path, a + b) == After(path, a) + After(path, b)
  {
  }

  lemma {:induction false} OnlyOfNames(path: string, names: seq<string>)
    ensures OnlySymbols(SymbolInsertions(path, names)) == After(path, names)
    ensures OnlyExtensions(SymbolInsertions(path, names)) == []
    decreases |names|
  {
    if names != [] {
      OnlySplit([Symbol(path + names[0])], SymbolInsertions(path, names[1..]));
      OneOnly(Symbol(path + names[0]));
      OnlyOfNames(path, names[1..]);
      assert After(path, names) == [path + names[0]] + After(path, names[1..]);
    }
  }

  lemma {:induction false} OnlyOfExtensions(fields: seq<FieldProto>)
    ensures OnlySymbols(ExtensionInsertions(fields)) == [] && OnlyExtensions(ExtensionInsertions(fields)) == fields
    decreases |fields|
  {
    if fields != [] {
      OnlySplit([Extension(fields[0])], ExtensionInsertions(fields[1..]));
      OneOnly(Extension(fields[0]));
      OnlyOfExtensions(fields[1..]);
    }
  }

  lemma {:induction false} OnlyOfScoped(path: string, fields: seq<FieldProto>)
    ensures OnlySymbols(ScopedExtensionInsertions(path, fields)) == After(path, FieldNames(fields))
    ensures OnlyExtensions(ScopedExtensionInsertions(path, fields)) == fields
    decreases |fields|
  {
    hide OnlySymbols, OnlyExtensions, After, FieldNames;
    if fields == [] {
      OnlyOfNoFields(path);
    } else {
      var first, second := Symbol(path + fields[0].name), Extension(fields[0]);
      assert [first, second] == [first] + [second];
      OnlySplit([first, second], ScopedExtensionInsertions(path, fields[1..]));
      OnlySplit([first], [second]);
      OneOnly(first);
      OneOnly(second);
      OnlyOfScoped(path, fields[1..]);
      FieldsOfFirst(path, fields);
      assert [fields[0]] + fields[1..] == fields;
    }
  }

  lemma OnlyOfNoFields(path: string)
    ensures OnlySymbols([]) == After(path, FieldNames([])) && OnlyExtensions([]) == []
  {
  }

  lemma FieldsOfFirst(path: string, fields: seq<FieldProto>)
    requires fields != []
    ensures After(path, FieldNames(fields)) == [path + fields[0].name] + After(path, FieldNames(fields[1..]))
  {
  }

  lemma {:induction false} OnlyOfNested(messages: seq<MessageProto>)
    ensures OnlySymbols(NestedInsertions(messages)) == []
    ensures OnlyExtensions(NestedInsertions(messages)) == NestedExtensions(messages)
    decreases messages
  {
    if messages != [] {
      var inner, own := NestedInsertions(messages[0].nested), ExtensionInsertions(messages[0].extensions);
      OnlySplit(inner + own, NestedInsertions(messages[1..]));
      OnlySplit(inner, own);
      OnlyOfNested(messages[0].nested);
      OnlyOfExtensions(messages[0].extensions);
      OnlyOfNested(messages[1..]);
    }
  }

  lemma {:induction false} OnlyOfMessages(path: string, messages: seq<MessageProto>)
    ensures OnlySymbols(MessageInsertions(path, messages)) == After(path, MessageNames(messages))
    ensures OnlyExtensions(MessageInsertions(path, messages)) == NestedExtensions(messages)
    decreases |messages|
  {
    hide NestedInsertions, OnlySymbols, OnlyExtensions, NestedExtensions, After, MessageNames;
    if messages == [] {
      OnlyOfNone(path);
    } else {
      var first, nested := Symbol(path + messages[0].name), NestedInsertions([messages[0]]);
      OnlySplit([first] + nested, MessageInsertions(path, messages[1..]));
      OnlySplit([first], nested);
      OneOnly(first);
      OnlyOfNested([messages[0]]);
      OnlyOfMessages(path, messages[1..]);
      NestedOfFirst(messages);
      NamesOfFirst(path, messages);
    }
  }

  lemma OnlyOfNone(path: string)
    ensures OnlySymbols([]) == After(path, MessageNames([])) && OnlyExtensions([]) == NestedExtensions([])
  {
  }

  lemma NamesOfFirst(path: string, messages: seq<MessageProto>)
    requires messages != []
    ensures After(path, MessageNames(messages)) == [path + messages[0].name] + After(path, MessageNames(messages[1..]))
  {
  }

  lemma NestedOfFirst(messages: seq<MessageProto>)
    requires messages != []
    ensures NestedExtensions(messages) == NestedExtensions([messages[0]]) + NestedExtensions(messages[1..])
  {
    assert [messages[0]][1..] == [];
  }

  /** `AddFile` inserts each name of the top level and each extension of the file, once for every time it is there. */
  lemma InsertedOnce(file: FileProto)
    ensures OnlySymbols(Insertions(file)) == QualifiedNames(file)
    ensures OnlyExtensions(Insertions(file)) == AllExtensions(file)
  {
    hide OnlySymbols, OnlyExtensions, MessageInsertions, SymbolInsertions, ScopedExtensionInsertions, NestedExtensions,
      After, PathOf, MessageNames, EnumNames, FieldNames, ServiceNames, QualifiedNames;
    var path := PathOf(file);
    var a, b := MessageInsertions(path, file.messages), SymbolInsertions(path, EnumNames(file.enums));
    var c, d := ScopedExtensionInsertions(path, file.extensions), SymbolInsertions(path, ServiceNames(file.services));
    OnlySplit(a, b + (c + d));
    OnlySplit(b, c + d);
    OnlySplit(c, d);
    OnlyOfMessages(path, file.messages);
    OnlyOfNames(path, EnumNames(file.enums));
    OnlyOfScoped(path, file.extensions);
    OnlyOfNames(path, ServiceNames(file.services));
    AfterSplit(path, MessageNames(file.messages) + EnumNames(file.enums) + FieldNames(file.extensions),
               ServiceNames(file.services));
    AfterSplit(path, MessageNames(file.messages) + EnumNames(file.enums), FieldNames(file.extensions));
    AfterSplit(path, MessageNames(file.messages), EnumNames(file.enums));
    QualifiedAre(file);
  }

  lemma QualifiedAre(file: FileProto)
    ensures QualifiedNames(file) == After(PathOf(file), TopNames(file))
  {
    hide PathOf, Qualified, TopNames;
    forall n { QualifiedIs(file, n); }
  }

  // ----- When the insertions succeed -----

  lemma ClashIsConflict(s: Symbols, name: string)
    ensures Conflict(s, name) <==> exists k :: HasKey(s, k) && Clash(k, name)
  {
    if Conflict(s, name) {
      var i :| 0 <= i < |s| && (Covers(s[i].0, name) || Covers(name, s[i].0));
      assert HasKey(s, s[i].0) && Clash(s[i].0, name);
    }
  }

  /** One name that fits, and then the others. */
  lemma NamesFitFirst(s: Symbols, t: Symbols, names: seq<string>)
    requires names != []
    requires forall k :: HasKey(t, k) <==> k == names[0] || HasKey(s, k)
    requires ValidSymbol(names[0]) && forall k | HasKey(s, k) :: !Clash(k, names[0])
    ensures NamesFit(s, names) <==> NamesFit(t, names[1..])
  {
    hide Covers;
    var rest := names[1..];
    assert forall i | 0 <= i < |rest| :: rest[i] == names[i + 1];
    if NamesFit(s, names) {
      forall i, k | 0 <= i < |rest| && HasKey(t, k) ensures ValidSymbol(rest[i]) && !Clash(k, rest[i]) {
        assert names[i + 1] == rest[i];
      }
    }
    if NamesFit(t, rest) {
      assert HasKey(t, names[0]);
      forall i | 0 <= i < |names| ensures ValidSymbol(names[i]) && forall k | HasKey(s, k) :: !Clash(k, names[i]) {
        if i > 0 { assert names[i] == rest[i - 1]; }
      }
      forall i, j | 0 <= i < j < |names| ensures !Clash(names[i], names[j]) {
        assert names[j] == rest[j - 1] && (i > 0 ==> names[i] == rest[i - 1]);
      }
    }
  }

  lemma NumbersFitFirst(s: Extensions, t: Extensions, extensions: seq<FieldProto>)
    requires extensions != []
    requires forall key :: HasKey(t, key) <==> FiledUnder(extensions[0], key) || HasKey(s, key)
    requires forall key | FiledUnder(extensions[0], key) :: !HasKey(s, key)
    ensures NumbersFit(s, extensions) <==> NumbersFit(t, extensions[1..])
  {
    hide FiledUnder;
    var rest := extensions[1..];
    if NumbersFit(s, extensions) {
      forall i, key | 0 <= i < |rest| && FiledUnder(rest[i], key) ensures !HasKey(t, key) {
        assert extensions[i + 1] == rest[i];
      }
      forall i, j, key | 0 <= i < j < |rest| && FiledUnder(rest[i], key) ensures !FiledUnder(rest[j], key) {
        assert extensions[i + 1] == rest[i] && extensions[j + 1] == rest[j];
      }
    }
    if NumbersFit(t, rest) {
      forall i, key | 0 <= i < |extensions| && FiledUnder(extensions[i], key) ensures !HasKey(s, key) {
        if i > 0 { assert extensions[i] == rest[i - 1]; }
      }
      forall i, j, key | 0 <= i < j < |extensions| && FiledUnder(extensions[i], key)
        ensures !FiledUnder(extensions[j], key)
      {
        assert extensions[j] == rest[j - 1] && (i > 0 ==> extensions[i] == rest[i - 1]);
      }
    }
  }

  /** A symbol is inserted exactly when it fits, if the case that `AddSymbol` gets wrong does not come up. */
  lemma SymbolApplies(s: Symbols, name: string, v: FileProto)
    requires Valid(s) && !(ValidSymbol(name) && SkipsBegin(s, name))
    ensures var (ok, t) := WithSymbol(s, name, v);
      && (ok <==> ValidSymbol(name) && forall k | HasKey(s, k) :: !Clash(k, name))
      && Valid(t) && (ok ==> forall k :: HasKey(t, k) <==> k == name || HasKey(s, k))
  {
    hide Valid, SkipsBegin, Less, Covers;
    var (ok, t) := WithSymbol(s, name, v);
    WithSymbolExact(s, name, v);
    ClashIsConflict(s, name);
    if ok {
      AcceptedIsAbsent(s, name, v);
      forall k { InsertKeys(Less, s, name, v, k); }
    }
  }

  lemma ExtensionApplies(s: Extensions, e: FieldProto, v: FileProto)
    requires Sorted(KeyLess, s)
    ensures var (ok, t) := WithExtension(s, e, v);
      && (ok <==> forall key | FiledUnder(e, key) :: !HasKey(s, key))
      && Sorted(KeyLess, t) && (ok ==> forall key :: HasKey(t, key) <==> FiledUnder(e, key) || HasKey(s, key))
  {
    hide KeyLess;
    var (ok, t) := WithExtension(s, e, v);
    ExtensionOrder();
    var extendee := ExtendeeOf(e);
    if extendee != "" && extendee[0] == '.' {
      var at := (extendee[1..], e.number);
      assert extendee == "." + at.0;
      forall key: ExtensionKey ensures FiledUnder(e, key) <==> key == at {
        assert ("." + key.0)[1..] == key.0;
      }
      FindSeesKey(s, at);
      InsertSorted(KeyLess, s, at, v);
      if ok { forall key { InsertKeys(KeyLess, s, at, v, key); } }
    } else {
      forall key: ExtensionKey ensures !FiledUnder(e, key) { assert ("." + key.0)[0] == '.'; }
    }
  }

  lemma FindSeesKey(s: Extensions, at: ExtensionKey)
    requires Sorted(KeyLess, s)
    ensures Find(KeyLess, s, at) < |s| <==> HasKey(s, at)
  {
    hide KeyLess;
    ExtensionOrder();
    if i :| 0 <= i < |s| && s[i].0 == at { LookupIsMember(KeyLess, s, at, s[i].1); assert HasPair(s, at, s[i].1); }
  }

  lemma {:induction false} AppliesExactly(x: Index, todo: seq<Insertion>, v: FileProto)
    requires Valid(x.bySymbol) && Sorted(KeyLess, x.byExtension) && !EverSkipsBegin(x.bySymbol, Calls(x, todo, v))
    ensures ApplyAll(x, todo, v).0 <==>
      NamesFit(x.bySymbol, OnlySymbols(todo)) && NumbersFit(x.byExtension, OnlyExtensions(todo))
    decreases |todo|
  {
    hide Valid, Sorted, KeyLess, WithSymbol, WithExtension, NamesFit, NumbersFit, SkipsBegin, ValidSymbol;
    if todo == [] {
      NothingFits(x);
    } else {
      var y := Apply(x, todo[0], v).1;
      CallsFirst(x, todo, v);
      if Apply(x, todo[0], v).0 { AppliesExactly(y, todo[1..], v); }
      match todo[0] {
        case Symbol(name) => SymbolFirst(x, todo, v);
        case Extension(e) => ExtensionFirst(x, todo, v);
      }
    }
  }

  lemma NothingFits(x: Index)
    ensures NamesFit(x.bySymbol, []) && NumbersFit(x.byExtension, [])
  {
  }

  /** The first insertion is not the case that `AddSymbol` gets wrong, nor does it come up later. */
  lemma CallsFirst(x: Index, todo: seq<Insertion>, v: FileProto)
    requires todo != [] && Valid(x.bySymbol) && Sorted(KeyLess, x.byExtension)
    requires !EverSkipsBegin(x.bySymbol, Calls(x, todo, v))
    ensures var (ok, y) := Apply(x, todo[0], v);
      && Valid(y.bySymbol) && Sorted(KeyLess, y.byExtension)
      && (ok ==> !EverSkipsBegin(y.bySymbol, Calls(y, todo[1..], v)))
    ensures todo[0].Symbol? ==> !(ValidSymbol(todo[0].name) && SkipsBegin(x.bySymbol, todo[0].name))
  {
    hide Valid, Sorted, KeyLess, WithSymbol, WithExtension, SkipsBegin, ValidSymbol;
    var (ok, y) := Apply(x, todo[0], v);
    var rest := if ok then Calls(y, todo[1..], v) else [];
    match todo[0]
    case Symbol(name) =>
      assert Calls(x, todo, v) == [(name, v)] + rest;
      assert ([(name, v)] + rest)[1..] == rest;
      SymbolApplies(x.bySymbol, name, v);
    case Extension(e) =>
      assert Calls(x, todo, v) == [] + rest == rest;
      ExtensionApplies(x.byExtension, e, v);
  }

  lemma SymbolFirst(x: Index, todo: seq<Insertion>, v: FileProto)
    requires todo != [] && todo[0].Symbol? && Valid(x.bySymbol)
    requires !(ValidSymbol(todo[0].name) && SkipsBegin(x.bySymbol, todo[0].name))
    ensures var (ok, y) := Apply(x, todo[0], v);
      && OnlyExtensions(todo) == OnlyExtensions(todo[1..]) && y.byExtension == x.byExtension
      && (NamesFit(x.bySymbol, OnlySymbols(todo)) <==> ok && NamesFit(y.bySymbol, OnlySymbols(todo[1..])))
  {
    hide Valid, WithSymbol, SkipsBegin, ValidSymbol, Clash, HasKey;
    var names := OnlySymbols(todo);
    assert names[0] == todo[0].name && names[1..] == OnlySymbols(todo[1..]);
    SymbolApplies(x.bySymbol, todo[0].name, v);
    if Apply(x, todo[0], v).0 { NamesFitFirst(x.bySymbol, Apply(x, todo[0], v).1.bySymbol, names); }
  }

  lemma ExtensionFirst(x: Index, todo: seq<Insertion>, v: FileProto)
    requires todo != [] && todo[0].Extension? && Sorted(KeyLess, x.byExtension)
    ensures var (ok, y) := Apply(x, todo[0], v);
      && OnlySymbols(todo) == OnlySymbols(todo[1..]) && y.bySymbol == x.bySymbol
      && (NumbersFit(x.byExtension, OnlyExtensions(todo))
          <==> ok && NumbersFit(y.byExtension, OnlyExtensions(todo[1..])))
  {
    hide Sorted, KeyLess, WithExtension, FiledUnder, HasKey;
    var list := OnlyExtensions(todo);
    assert list[0] == todo[0].proto && list[1..] == OnlyExtensions(todo[1..]);
    ExtensionApplies(x.byExtension, todo[0].proto, v);
    if Apply(x, todo[0], v).0 { NumbersFitFirst(x.byExtension, Apply(x, todo[0], v).1.byExtension, list); }
  }

  /**
   * `AddFile` succeeds if and only if the name of the file is new, its top-level names fit, and so do the numbers of
   * its extensions, unless `AddSymbol` steps over `begin()` on the way.
   */
  lemma AcceptedFileExactly(x: Index, file: FileProto)
    requires Valid(x.bySymbol) && Sorted(KeyLess, x.byExtension)
    requires !EverSkipsBegin(x.bySymbol, FileCalls(x, file))
    ensures WithFile(x, file).0 <==>
      && file.name !in x.byName
      && NamesFit(x.bySymbol, QualifiedNames(file))
      && NumbersFit(x.byExtension, AllExtensions(file))
  {
    hide Valid, Sorted, KeyLess, NamesFit, NumbersFit, Insertions, Calls, ApplyAll, EverSkipsBegin,
      QualifiedNames, AllExtensions;
    InsertedOnce(file);
    if file.name !in x.byName {
      AppliesExactly(x.(byName := x.byName[file.name := file]), Insertions(file), file);
    }
  }
}
