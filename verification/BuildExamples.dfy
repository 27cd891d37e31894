/** Files that show what a pool accepts although one might not expect it. */
module BuildExamples {
  import opened Names
  import opened OrderedMaps
  import opened Protos
  import opened PoolTables
  import opened SymbolOwnership
  import opened ScopeLookup
  import opened PublicImports
  import opened PoolInvariant
  import opened BuildConditions
  import DescriptorBuilder

  // ----- A file that imports itself -----

  const SELF := FileProto("s", None, ["s"], [], [], [], [], [], false)

  /** It can be built, its import being in the tables by then. */
  lemma SelfImportExample(pool: Pool)
    ensures Buildable(pool, NEW_POOL, SELF)
    ensures EntryDesc(map[], SELF, 0).dependencies == [Some(0)]
  {
    assert FileSteps(SELF) == [];
    assert FileKeys(EntryEnv(pool, NEW_POOL, SELF), SELF) == [];
  }

  // ----- Two files that claim one number -----

  const MESSAGE_M := MessageProto("M", [], [], [], [], [(1, 100)])
  const EXTENSION_X := FieldProto("x", 5, Primitive, None, Some("M"), None)
  const EXTENSION_Y := FieldProto("y", 5, Primitive, None, Some("M"), None)
  const FIRST := FileProto("a", None, [], [], [MESSAGE_M], [], [], [EXTENSION_X], false)
  const SECOND := FileProto("b", None, ["a"], [], [], [], [], [EXTENSION_Y], false)

  function ClaimedNumber(file: Id): ExtensionKey {
    (Some(Ref(file, "M")), 5)
  }

  lemma FirstSteps()
    ensures FileSteps(FIRST)
      == [Check(true), Check(true), Declare("M", MESSAGE), Check(true), Check(true), Declare("x", FIELD)]
    ensures FileSteps(SECOND) == [Check(true), Check(true), Declare("y", FIELD)]
  {
    assert ValidIdentifier("M") && ValidIdentifier("x") && ValidIdentifier("y");
    assert [MESSAGE_M][1..] == [] && [EXTENSION_X][1..] == [] && [EXTENSION_Y][1..] == [];
    assert MemberSteps(MESSAGE_M, "M") == [];
    assert MessageSteps(MESSAGE_M, "") == [Check(true), Check(true), Declare("M", MESSAGE)];
    assert MessagesSteps([MESSAGE_M], "") == [Check(true), Check(true), Declare("M", MESSAGE)];
    assert FieldSteps([EXTENSION_X], "", true) == [Check(true), Check(true), Declare("x", FIELD)];
    assert FieldSteps([EXTENSION_Y], "", true) == [Check(true), Check(true), Declare("y", FIELD)];
  }

  lemma FirstIsClean()
    ensures Clean({}, FileSteps(FIRST)) && Declared(FileSteps(FIRST)) == {"M", "x"}
    ensures KindOf(FIRST, "M") == MESSAGE && KindOf(FIRST, "x") == FIELD
  {
    hide FileSteps;
    FirstSteps();
    var first, second :=
      [Check(true), Check(true), Declare("M", MESSAGE)], [Check(true), Check(true), Declare("x", FIELD)];
    assert FileSteps(FIRST) == first + second;
    DeclareOnly({}, "M", MESSAGE);
    DeclareOnly({"M"}, "x", FIELD);
    hide Clean;
    CleanSplit({}, first, second);
    DeclaredSplit(first, second);
    KindIs(FIRST, 2, "M", MESSAGE);
    KindIs(FIRST, 5, "x", FIELD);
  }

  lemma KindIs(proto: FileProto, i: nat, name: string, kind: Kind)
    requires i < |FileSteps(proto)| && FileSteps(proto)[i] == Declare(name, kind)
    requires forall d | d in FileSteps(proto) && d.Declare? && d.name == name :: d.kind == kind
    ensures KindOf(proto, name) == kind
  {
    hide FileSteps;
    assert Declare(name, kind) in FileSteps(proto);
  }

  lemma DeclareOnly(names: set<string>, name: string, kind: Kind)
    requires name !in names
    ensures var steps := [Check(true), Check(true), Declare(name, kind)];
      Clean(names, steps) && Declared(steps) == {name}
  {
    var last, rest := [Declare(name, kind)], [Check(true), Declare(name, kind)];
    var steps := [Check(true), Check(true), Declare(name, kind)];
    assert last[1..] == [] && rest[1..] == last && steps[1..] == rest;
    assert Clean(names, last);
    assert Clean(names, rest);
    assert steps[2] == Declare(name, kind);
  }

  lemma LinksTo(env: Env, f: FieldProto, file: Id)
    requires f.extendee == Some("M") && f.typeName == None && f.fieldType == Primitive && f.number == 5
    requires LastDot(f.name) < 0 && Visible(env, "M").Some? && Visible(env, "M").value.kind == MESSAGE
    requires Visible(env, "M").value.file == file && Visible(env, "M").value.name == "M"
    requires file in env.descs && env.descs[file].proto == FIRST && env.descs[file].package == ""
    ensures FieldLinks(env, f, f.name) && FieldKey(env, f, f.name, None) == ClaimedNumber(file)
  {
    assert Resolve(env, "M", f.name, LOOKUP_ALL) == Visible(env, "M");
    assert MessageAt(FIRST.messages, "", "M") == Some(MESSAGE_M);
    assert InRange(MESSAGE_M.ranges[0], 5);
  }

  lemma LinksAlone(env: Env, f: FieldProto, m: Entries, file: Id)
    requires FieldLinks(env, f, f.name) && FieldKey(env, f, f.name, None) == ClaimedNumber(file)
    ensures FieldsLink(env, [f], "") && FieldKeys(env, [f], "", true) == [ClaimedNumber(file)]
    ensures FieldsEntered(m, env, [f], "", true) == Claimed(m, ClaimedNumber(file), Ref(env.file, f.name))
  {
    hide FieldLinks, FieldKey;
    assert [f][..0] == [];
  }

  lemma FirstBuilds(pool: Pool)
    ensures Buildable(pool, NEW_POOL, FIRST)
    ensures ExtensionsAfter(pool, NEW_POOL, FIRST) == map[ClaimedNumber(0) := Ref(0, "x")]
  {
    hide FileSteps, Clean, EntryEnv, Visible, FieldLinks, FieldKey, FieldsLink, FieldKeys, FieldsEntered, MessagesLink,
      MessagesKeys, MessagesEntered, NewNames, KindOf, FileLinks, FileKeys, FileEntered;
    FirstIsClean();
    var env := EntryEnv(pool, NEW_POOL, FIRST);
    FirstEnv(pool);
    LinksTo(env, EXTENSION_X, 0);
    LinksAlone(env, EXTENSION_X, map[], 0);
    MessageLinksAlone(env);
    FileIs(env, FIRST, map[]);
    var none: Symbols := map[];
    assert none.Keys + {} == {};
    assert ContentsOk(none, {} + {"a"}, FIRST);
    OneKey(ClaimedNumber(0));
    assert FileKeys(env, FIRST) == [ClaimedNumber(0)];
  }

  lemma OneKey(key: ExtensionKey)
    ensures Unused({}, [key])
  {
  }

  /** A file with no service. */
  lemma FileIs(env: Env, proto: FileProto, m: Entries)
    requires proto.services == [] && proto.package == None
    ensures FileLinks(env, proto) <==> MessagesLink(env, proto.messages, "") && FieldsLink(env, proto.extensions, "")
    ensures FileKeys(env, proto) == MessagesKeys(env, proto.messages, "") + FieldKeys(env, proto.extensions, "", true)
    ensures FileEntered(m, env, proto)
      == FieldsEntered(MessagesEntered(m, env, proto.messages, ""), env, proto.extensions, "", true)
  {
    hide MessagesLink, FieldsLink, MessagesKeys, FieldKeys, FieldsEntered, MessagesEntered;
  }

  lemma FirstEnv(pool: Pool)
    ensures var env := EntryEnv(pool, NEW_POOL, FIRST);
      && Visible(env, "M") == Some(Symbol(MESSAGE, 0, "M", 0)) && env.file == 0
      && 0 in env.descs && env.descs[0].proto == FIRST && env.descs[0].package == ""
  {
    hide FileSteps, KindOf;
    FirstIsClean();
    assert "M" in NewNames({}, FIRST);
  }

  /** A message without fields has nothing to link. */
  lemma MessageLinksAlone(env: Env)
    ensures MessagesLink(env, [MESSAGE_M], "") && MessagesKeys(env, [MESSAGE_M], "") == []
    ensures MessagesEntered(map[], env, [MESSAGE_M], "") == map[]
  {
    assert [MESSAGE_M][..0] == [];
    assert MessageKeys(env, MESSAGE_M, "") == [];
  }

  lemma SecondBuilds(pool: Pool, q: State)
    requires Inv(q) && JustBuilt(pool, NEW_POOL, q, FIRST) && "a" in q.log.now.files && q.log.now.files["a"].file == 0
    ensures Buildable(pool, q, SECOND) && ExtensionsAfter(pool, q, SECOND) == q.log.now.extensions
    ensures q.log.now.extensions == map[ClaimedNumber(0) := Ref(0, "x")]
  {
    hide Inv, JustBuilt, EntryEnv, Visible, Buildable, ExtensionsAfter, FileSteps, Clean, FieldLinks, FieldKey,
      FieldsLink, FieldKeys, FieldsEntered, FileLinks, FileKeys, FileEntered, MessagesLink, MessagesKeys,
        MessagesEntered;
    var env, m := EntryEnv(pool, q, SECOND), q.log.now.extensions;
    FirstBuilds(pool);
    FirstExtensions(pool, q);
    SecondEnv(pool, q);
    SecondIsClean(q.log.now.symbols.Keys);
    LinksTo(env, EXTENSION_Y, 0);
    LinksAlone(env, EXTENSION_Y, m, 0);
    FileIs(env, SECOND, m);
    SecondIs(pool, q, env);
    SecondExtensions(pool, q, env, m);
  }

  lemma FirstExtensions(pool: Pool, q: State)
    requires JustBuilt(pool, NEW_POOL, q, FIRST)
    ensures q.log.now.extensions == ExtensionsAfter(pool, NEW_POOL, FIRST)
  {
    hide ExtensionsAfter, SymbolsEntered, EntryDesc;
  }

  lemma SecondExtensions(pool: Pool, q: State, env: Env, m: Entries)
    requires env == EntryEnv(pool, q, SECOND) && m == q.log.now.extensions == map[ClaimedNumber(0) := Ref(0, "x")]
    requires FileEntered(m, env, SECOND) == FieldsEntered(MessagesEntered(m, env, [], ""), env, [EXTENSION_Y], "", true)
    requires FieldsEntered(m, env, [EXTENSION_Y], "", true) == Claimed(m, ClaimedNumber(0), Ref(env.file, "y"))
    ensures ExtensionsAfter(pool, q, SECOND) == m
  {
    hide EntryEnv, FileEntered, FieldsEntered;
    assert MessagesEntered(m, env, [], "") == m;
  }

  lemma SecondIs(pool: Pool, q: State, env: Env)
    requires env == EntryEnv(pool, q, SECOND) && "a" in q.log.now.files
    requires Clean(q.log.now.symbols.Keys, FileSteps(SECOND))
    requires FieldsLink(env, [EXTENSION_Y], "") && FieldKeys(env, [EXTENSION_Y], "", true) == [ClaimedNumber(0)]
    requires FileLinks(env, SECOND) <==> MessagesLink(env, [], "") && FieldsLink(env, [EXTENSION_Y], "")
    requires FileKeys(env, SECOND) == MessagesKeys(env, [], "") + FieldKeys(env, [EXTENSION_Y], "", true)
    ensures Buildable(pool, q, SECOND)
  {
    hide Clean, FileSteps, EntryEnv, FileLinks, FileKeys, FieldsLink, FieldKeys;
    assert FileKeys(env, SECOND) == [ClaimedNumber(0)];
    OneKey(ClaimedNumber(0));
    assert q.log.now.symbols.Keys + {} == q.log.now.symbols.Keys;
  }

  lemma SecondEnv(pool: Pool, q: State)
    requires Inv(q) && JustBuilt(pool, NEW_POOL, q, FIRST) && "a" in q.log.now.files && q.log.now.files["a"].file == 0
    ensures var env := EntryEnv(pool, q, SECOND);
      && Visible(env, "M").Some? && Visible(env, "M").value.kind == MESSAGE
      && Visible(env, "M").value.file == 0 && Visible(env, "M").value.name == "M"
      && 0 in env.descs && env.descs[0].proto == FIRST && env.descs[0].package == ""
    ensures q.log.now.symbols.Keys == {"M", "x"} && "a" in q.log.now.files
  {
    hide Inv, JustBuilt, EntryEnv, EntryDesc, NewNames, FileSteps;
    FirstDesc(pool, q);
    FirstSymbols(pool, q);
    FirstIsImported(pool, q);
    SecondSees(pool, q);
  }

  lemma SecondSees(pool: Pool, q: State)
    requires "M" in q.log.now.symbols && 0 in q.descs && q.nextId != 0
    ensures var env := EntryEnv(pool, q, SECOND);
      && "M" in env.symbols && env.symbols["M"] == q.log.now.symbols["M"]
      && 0 in env.descs && env.descs[0] == q.descs[0]
  {
    hide NewNames, EntryDesc;
  }

  lemma FirstDesc(pool: Pool, q: State)
    requires Inv(q) && JustBuilt(pool, NEW_POOL, q, FIRST)
    ensures 0 in q.descs && q.descs[0].proto == FIRST && q.descs[0].package == "" && q.nextId != 0
    ensures "a" in q.log.now.files
  {
    hide SymbolsEntered, ExtensionsAfter;
  }

  lemma FirstSymbols(pool: Pool, q: State)
    requires JustBuilt(pool, NEW_POOL, q, FIRST)
    ensures q.log.now.symbols.Keys == {"M", "x"}
    ensures "M" in q.log.now.symbols
    ensures var s := q.log.now.symbols["M"]; s.kind == MESSAGE && s.file == 0 && s.name == "M"
  {
    hide FileSteps, Clean, KindOf, ExtensionsAfter, EntryDesc;
    FirstIsClean();
    assert NewNames({}, FIRST) == {"M", "x"};
    assert "M" in q.log.now.symbols && "M" !in NEW_POOL.log.now.symbols;
  }

  lemma FirstIsImported(pool: Pool, q: State)
    requires "a" in q.log.now.files && q.log.now.files["a"].file == 0 && 0 in q.descs && q.nextId != 0
    ensures 0 in EntryEnv(pool, q, SECOND).dependencies
  {
    var env, d := EntryEnv(pool, q, SECOND), EntryDesc(q.log.now.files, SECOND, q.nextId);
    assert d.dependencies == [Some(0)];
    ReachesSelf(env.descs, 0);
    assert ReachedFrom(env.descs, d.dependencies, 0) by { assert d.dependencies[0] == Some(0); }
  }

  lemma SecondIsClean(names: set<string>)
    requires names == {"M", "x"}
    ensures Clean(names, FileSteps(SECOND))
  {
    FirstSteps();
    DeclareOnly(names, "y", FIELD);
  }

  /** Both files build without an error, and the number finds the extension of the first. */
  method CollisionExample(pool: Pool) returns (tables: Tables, a: Option<Id>, b: Option<Id>)
    requires pool.fallback.None?
    ensures a.Some? && b.Some? && a != b
    ensures tables.extensions == map[ClaimedNumber(a.value) := Ref(a.value, "x")]
  {
    hide Inv, Buildable, JustBuilt, ExtensionsAfter, Grows, OwnedIn, Built;
    tables := new Tables();
    NewPoolIsSound();
    FirstBuilds(pool);
    var builder := new DescriptorBuilder.DescriptorBuilder(pool, tables);
    ghost var loaded;
    a, loaded := builder.BuildFile(FIRST);
    ghost var q := tables.StateNow();
    JustBuiltNames(pool, NEW_POOL, q, FIRST);
    GrowsKeepsRest(NEW_POOL, q);
    assert "b" !in tables.filesByName;
    SecondBuilds(pool, q);
    builder := new DescriptorBuilder.DescriptorBuilder(pool, tables);
    b, loaded := builder.BuildFile(SECOND);
    JustBuiltNames(pool, q, tables.StateNow(), SECOND);
  }

  lemma JustBuiltNames(pool: Pool, p: State, q: State, proto: FileProto)
    requires Inv(q) && JustBuilt(pool, p, q, proto)
    ensures q.log.now.files.Keys == p.log.now.files.Keys + {proto.name}
    ensures q.log.now.extensions == ExtensionsAfter(pool, p, proto) && p.nextId < q.nextId
  {
    assert p.nextId in q.descs;
  }
}
