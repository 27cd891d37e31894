/** When a file can be built into a pool that has no fallback database, said of the pool as it is before the build. */
module BuildConditions {
  import opened Names
  import opened OrderedMaps
  import opened Protos
  import opened PoolTables
  import opened SymbolOwnership
  import opened ScopeLookup
  import opened PublicImports
  import opened PoolInvariant

  // ----- What the references of a file are resolved in -----

  /** The names that a build adds: its package, with the parents not known yet, and everything it declares. */
  function NewNames(names: set<string>, proto: FileProto): set<string> {
    PackagePart(names, proto) + Declared(FileSteps(proto))
  }

  function PackagePart(names: set<string>, proto: FileProto): set<string> {
    if PackageOf(proto) == "" then {} else PackageNames(names, PackageOf(proto))
  }

  ghost function KindOf(proto: FileProto, name: string): Kind {
    if exists d :: d in FileSteps(proto) && d.Declare? && d.name == name
    then var d :| d in FileSteps(proto) && d.Declare? && d.name == name; d.kind
    else PACKAGE
  }

  ghost function EntrySymbols(symbols: Symbols, proto: FileProto, file: Id): Symbols {
    map n | n in symbols.Keys + NewNames(symbols.Keys, proto) ::
      if n in symbols then symbols[n] else Symbol(KindOf(proto, n), file, n, 0)
  }

  /** The file itself is found, should it import itself. */
  function EntryImport(files: map<string, FileEntry>, proto: FileProto, file: Id, name: string): Option<Id> {
    if name == proto.name then Some(file) else FileNamed(files, name)
  }

  function EntryDesc(files: map<string, FileEntry>, proto: FileProto, file: Id): FileDesc {
    FileDesc(proto.name, PackageOf(proto),
             seq(|proto.dependencies|, i requires 0 <= i < |proto.dependencies| =>
               EntryImport(files, proto, file, proto.dependencies[i])),
             ValidIndexes(|proto.dependencies|, proto.publicDependencies), proto)
  }

  ghost predicate ReachedFrom(descs: Descs, direct: seq<Option<Id>>, b: Id) {
    exists i, a :: 0 <= i < |direct| && direct[i] == Some(a) && Reaches(descs, a, b)
  }

  /** The imports, and what they import publicly. */
  ghost function Usable(descs: Descs, direct: seq<Option<Id>>): set<Id> {
    set b | b in descs.Keys && ReachedFrom(descs, direct, b)
  }

  ghost function EntryEnv(pool: Pool, p: State, proto: FileProto): Env {
    var file := p.nextId;
    var d := EntryDesc(p.log.now.files, proto, file);
    var descs := p.descs[file := d];
    Env(EntrySymbols(p.log.now.symbols, proto, file), descs, file, Usable(descs, d.dependencies),
        pool.enforceDependencies)
  }

  /**
   * A file of a new name can be built: its package and names are free and well-formed, its imports are in the pool,
   * its references resolve to what it may use, and it uses no field number twice.
   */
  ghost predicate Buildable(pool: Pool, p: State, proto: FileProto) {
    && ContentsOk(p.log.now.symbols, p.log.now.files.Keys + {proto.name}, proto)
    && FileLinks(EntryEnv(pool, p, proto), proto)
    && Unused({}, FileKeys(EntryEnv(pool, p, proto), proto))
    && !proto.rejected
  }

  /** The extensions that are in the pool after the build. */
  ghost function ExtensionsAfter(pool: Pool, p: State, proto: FileProto): Entries {
    FileEntered(p.log.now.extensions, EntryEnv(pool, p, proto), proto)
  }

  /** The symbols that are in the pool after the build, whatever memory holds their names. */
  ghost predicate SymbolsEntered(before: Symbols, after: Symbols, proto: FileProto, file: Id) {
    && Submap(before, after) && after.Keys == before.Keys + NewNames(before.Keys, proto)
    && forall n | n in after && n !in before ::
         after[n].file == file && after[n].kind == KindOf(proto, n) && after[n].name == n
  }

  /** What a build adds to a pool, apart from memory: exactly its symbols, its file and its extensions. */
  ghost predicate JustBuilt(pool: Pool, p: State, q: State, proto: FileProto) {
    && SymbolsEntered(p.log.now.symbols, q.log.now.symbols, proto, p.nextId)
    && q.log.now.files.Keys == p.log.now.files.Keys + {proto.name}
    && q.descs == p.descs[p.nextId := EntryDesc(p.log.now.files, proto, p.nextId)]
    && q.log.now.extensions == ExtensionsAfter(pool, p, proto)
  }

  // ----- What the build computes is that -----

  lemma SymbolsAreEntered(p: State, q: State, r: State, t: State, proto: FileProto, file: Id, x: bool, y: bool)
    requires PackageStep(p, q, proto, file, x) && r.log == q.log
    requires StepsDone(r, t, FileSteps(proto), file, y, false) && SymbolsOk(t)
    ensures SymbolsEntered(p.log.now.symbols, t.log.now.symbols, proto, file)
  {
    hide Inv, Grows, FileSteps, Clean, StepsAdded, SymbolsEntered, SymbolsOk, PackageStep;
    PackagesEntered(p, q, proto, file, x);
    hide *;
    StepsEntered(p.log.now.symbols, q.log.now.symbols, t.log.now.symbols, proto, file, t);
  }

  lemma PackagesEntered(p: State, q: State, proto: FileProto, file: Id, x: bool)
    requires PackageStep(p, q, proto, file, x)
    ensures var before, mid := p.log.now.symbols, q.log.now.symbols;
      && Submap(before, mid) && mid.Keys == before.Keys + PackagePart(before.Keys, proto)
      && forall n | n in mid && n !in before :: mid[n].kind == PACKAGE && mid[n].file == file
  {
    hide Inv, Grows, PackageClean, PackageChain, PackageNames;
  }

  lemma StepsEntered(before: Symbols, mid: Symbols, after: Symbols, proto: FileProto, file: Id, t: State)
    requires Submap(before, mid) && mid.Keys == before.Keys + PackagePart(before.Keys, proto)
    requires forall n | n in mid && n !in before :: mid[n].kind == PACKAGE && mid[n].file == file
    requires StepsAdded(mid, after, FileSteps(proto), file)
    requires SymbolsOk(t) && t.log.now.symbols == after
    ensures SymbolsEntered(before, after, proto, file)
  {
    hide FileSteps, PackagePart, IsLoaded;
    forall n | n in after && n !in before
      ensures after[n].file == file && after[n].kind == KindOf(proto, n)
    {
      if exists d :: d in FileSteps(proto) && d.Declare? && d.name == n {
      } else {
        assert n !in Declared(FileSteps(proto));
        assert n in mid && after[n] == mid[n];
      }
    }
  }

  lemma StillResolved(proto: FileProto, r: State, t: State, file: Id)
    requires ImportsResolved(proto, r, file) && t.descs == r.descs && t.log.now.files == r.log.now.files
    ensures ImportsResolved(proto, t, file)
  {
  }

  lemma InvSymbols(s: State)
    requires Inv(s)
    ensures SymbolsOk(s)
  {
  }

  /** Two environments that tell apart nothing but where names are kept. */
  ghost predicate SameNames(e: Env, f: Env) {
    && e.descs == f.descs && e.file == f.file && e.dependencies == f.dependencies && e.enforce == f.enforce
    && e.symbols.Keys == f.symbols.Keys
    && forall n | n in e.symbols :: SameSymbol(e.symbols[n], f.symbols[n])
  }

  predicate SameSymbol(a: Symbol, b: Symbol) {
    a.kind == b.kind && a.file == b.file && a.name == b.name
  }

  ghost predicate SameFound(a: Option<Symbol>, b: Option<Symbol>) {
    a.Some? == b.Some? && (a.Some? ==> SameSymbol(a.value, b.value))
  }

  lemma EntryEnvReached(pool: Pool, p: State, t: State, proto: FileProto, dependencies: set<Id>)
    requires Inv(p) && SymbolsEntered(p.log.now.symbols, t.log.now.symbols, proto, p.nextId)
    requires p.nextId in t.descs && t.descs == p.descs[p.nextId := t.descs[p.nextId]]
    requires ImportsResolved(proto, t, p.nextId)
    requires proto.name in t.log.now.files && t.log.now.files[proto.name].file == p.nextId
    requires t.log.now.files == p.log.now.files[proto.name := t.log.now.files[proto.name]]
    requires IsPublicClosure(t.descs, t.descs[p.nextId].dependencies, dependencies) && dependencies <= t.descs.Keys
    ensures SameNames(Env(t.log.now.symbols, t.descs, p.nextId, dependencies, pool.enforceDependencies),
                      EntryEnv(pool, p, proto))
    ensures t.descs[p.nextId] == EntryDesc(p.log.now.files, proto, p.nextId)
  {
    var d := EntryDesc(p.log.now.files, proto, p.nextId);
    assert t.descs[p.nextId].dependencies == d.dependencies;
    assert t.descs[p.nextId] == d;
    forall b ensures b in dependencies <==> b in Usable(t.descs, d.dependencies) {
      assert ReachedFrom(t.descs, d.dependencies, b)
        <==> exists i, a :: 0 <= i < |d.dependencies| && d.dependencies[i] == Some(a) && Reaches(t.descs, a, b);
    }
    assert dependencies == Usable(t.descs, d.dependencies);
  }

  // ----- Links do not depend on where names are kept -----

  /** Two environments in which the same symbols can be seen, wherever their names are kept, in the same files. */
  ghost predicate SameView(e: Env, f: Env) {
    && e.file == f.file
    && (forall n :: SameFound(Visible(e, n), Visible(f, n)))
    && forall n | Visible(e, n).Some? :: SameDesc(e.descs, f.descs, Visible(e, n).value.file)
  }

  predicate SameDesc(a: Descs, b: Descs, file: Id) {
    file in a && file in b && a[file] == b[file]
  }

  lemma NamesAreView(e: Env, f: Env)
    requires SameNames(e, f) && forall n | n in e.symbols :: e.symbols[n].file in e.descs
    ensures SameView(e, f)
  {
    forall n ensures SameFound(Visible(e, n), Visible(f, n)) {
      if n in e.symbols { assert SameSymbol(e.symbols[n], f.symbols[n]); }
    }
  }

  lemma VisibleSame(e: Env, f: Env, name: string)
    requires SameView(e, f)
    ensures SameFound(Visible(e, name), Visible(f, name))
    ensures Visible(e, name).Some? ==> SameDesc(e.descs, f.descs, Visible(e, name).value.file)
  {
  }

  lemma {:induction false} ResolveFromSame(e: Env, f: Env, name: string, scope: string, mode: ResolveMode)
    requires SameView(e, f)
    ensures SameFound(ResolveFrom(e, name, scope, mode), ResolveFrom(f, name, scope, mode))
    ensures var s := ResolveFrom(e, name, scope, mode); s.Some? ==> SameDesc(e.descs, f.descs, s.value.file)
    decreases |scope|
  {
    hide Visible, SameView, LastDot, FirstPart, SameDesc;
    VisibleSame(e, f, name);
    if LastDot(scope) >= 0 {
      var outer := Parent(scope);
      VisibleSame(e, f, outer + ['.'] + FirstPart(name));
      VisibleSame(e, f, outer + ['.'] + name);
      ResolveFromSame(e, f, name, outer, mode);
    }
  }

  lemma ResolveSame(e: Env, f: Env, name: string, relativeTo: string, mode: ResolveMode)
    requires SameView(e, f)
    ensures SameFound(Resolve(e, name, relativeTo, mode), Resolve(f, name, relativeTo, mode))
    ensures var s := Resolve(e, name, relativeTo, mode); s.Some? ==> SameDesc(e.descs, f.descs, s.value.file)
  {
    hide Visible, ResolveFrom, SameView, SameDesc;
    if name != "" && name[0] == '.' {
      VisibleSame(e, f, name[1..]);
    } else {
      ResolveFromSame(e, f, name, relativeTo, mode);
    }
  }

  lemma FieldSame(e: Env, f: Env, field: FieldProto, fullName: string, container: Option<Ref>)
    requires SameView(e, f)
    ensures FieldLinks(e, field, fullName) <==> FieldLinks(f, field, fullName)
    ensures FieldKey(e, field, fullName, container) == FieldKey(f, field, fullName, container)
  {
    hide ExtendeeLinks, TypeLinks, FieldKey;
    ExtendeeSame(e, f, field, fullName, container);
    TypeSame(e, f, field, fullName);
  }

  lemma ExtendeeSame(e: Env, f: Env, field: FieldProto, fullName: string, container: Option<Ref>)
    requires SameView(e, f)
    ensures ExtendeeLinks(e, field, fullName) <==> ExtendeeLinks(f, field, fullName)
    ensures ExtendeeResolves(e, field, fullName) <==> ExtendeeResolves(f, field, fullName)
    ensures FieldKey(e, field, fullName, container) == FieldKey(f, field, fullName, container)
  {
    hide Resolve, SameView, MessageAt;
    if field.extendee.Some? { ResolveSame(e, f, field.extendee.value, fullName, LOOKUP_ALL); }
  }

  lemma TypeSame(e: Env, f: Env, field: FieldProto, fullName: string)
    requires SameView(e, f)
    ensures TypeLinks(e, field, fullName) <==> TypeLinks(f, field, fullName)
  {
    hide Resolve, SameView, DefaultLinks, SameDesc;
    if field.typeName.Some? {
      ResolveSame(e, f, field.typeName.value, fullName, LOOKUP_TYPES);
      var s, t := Resolve(e, field.typeName.value, fullName, LOOKUP_TYPES),
        Resolve(f, field.typeName.value, fullName, LOOKUP_TYPES);
      if s.Some? { DefaultSame(e, f, field, s.value, t.value); }
    }
  }

  lemma DefaultSame(e: Env, f: Env, field: FieldProto, s: Symbol, t: Symbol)
    requires SameView(e, f) && SameSymbol(s, t) && SameDesc(e.descs, f.descs, s.file)
    ensures DefaultLinks(e, field, s) <==> DefaultLinks(f, field, t)
  {
    hide Resolve, SameView, DeclaresValue, SameDesc;
    if field.defaultValue.Some? {
      ResolveSame(e, f, field.defaultValue.value, s.name, LOOKUP_ALL);
      var v := Resolve(e, field.defaultValue.value, s.name, LOOKUP_ALL);
      if v.Some? { ValueSame(e.descs, f.descs, Ref(s.file, s.name), v.value.name); }
    }
  }

  lemma ValueSame(a: Descs, b: Descs, enum: Ref, value: string)
    requires SameDesc(a, b, enum.file)
    ensures DeclaresValue(a, enum, value) <==> DeclaresValue(b, enum, value)
  {
    hide HasValue;
  }

  lemma FieldsSame(e: Env, f: Env, fields: seq<FieldProto>, scope: string, isExtension: bool)
    requires SameView(e, f)
    ensures FieldsLink(e, fields, scope) <==> FieldsLink(f, fields, scope)
    ensures FieldKeys(e, fields, scope, isExtension) == FieldKeys(f, fields, scope, isExtension)
  {
    hide FieldLinks, FieldKey, Join;
    forall i | 0 <= i < |fields|
      ensures FieldLinks(e, fields[i], Join(scope, fields[i].name))
        <==> FieldLinks(f, fields[i], Join(scope, fields[i].name))
      ensures FieldKeys(e, fields, scope, isExtension)[i] == FieldKeys(f, fields, scope, isExtension)[i]
    {
      FieldSame(e, f, fields[i], Join(scope, fields[i].name), Container(e, scope, isExtension));
    }
  }

  lemma {:induction false} EntriesSame(e: Env, f: Env, m: Entries, fields: seq<FieldProto>, scope: string,
                                       isExtension: bool)
    requires SameView(e, f)
    ensures FieldsEntered(m, e, fields, scope, isExtension) == FieldsEntered(m, f, fields, scope, isExtension)
    decreases |fields|
  {
    hide FieldKey, Join;
    if fields != [] {
      var last := fields[|fields| - 1];
      EntriesSame(e, f, m, fields[..|fields| - 1], scope, isExtension);
      FieldSame(e, f, last, Join(scope, last.name), None);
    }
  }

  lemma {:induction false} MessageSame(e: Env, f: Env, m: Entries, message: MessageProto, scope: string)
    requires SameView(e, f)
    ensures MessageLinks(e, message, scope) <==> MessageLinks(f, message, scope)
    ensures MessageKeys(e, message, scope) == MessageKeys(f, message, scope)
    ensures MessageEntered(m, e, message, scope) == MessageEntered(m, f, message, scope)
    decreases message, 0
  {
    hide FieldsLink, FieldKeys, FieldsEntered, Join, SameView;
    var full := Join(scope, message.name);
    MessagesSame(e, f, m, message.nested, full);
    FieldsSame(e, f, message.fields, full, false);
    FieldsSame(e, f, message.extensions, full, true);
    var inside := MessagesEntered(m, e, message.nested, full);
    EntriesSame(e, f, inside, message.fields, full, false);
    EntriesSame(e, f, FieldsEntered(inside, e, message.fields, full, false), message.extensions, full, true);
  }

  lemma {:induction false} MessagesSame(e: Env, f: Env, m: Entries, messages: seq<MessageProto>, scope: string)
    requires SameView(e, f)
    ensures MessagesLink(e, messages, scope) <==> MessagesLink(f, messages, scope)
    ensures MessagesKeys(e, messages, scope) == MessagesKeys(f, messages, scope)
    ensures MessagesEntered(m, e, messages, scope) == MessagesEntered(m, f, messages, scope)
    decreases messages, 1
  {
    hide SameView;
    forall i | 0 <= i < |messages|
      ensures MessageLinks(e, messages[i], scope) <==> MessageLinks(f, messages[i], scope)
    {
      MessageSame(e, f, m, messages[i], scope);
    }
    if messages != [] {
      var n := |messages| - 1;
      MessagesSame(e, f, m, messages[..n], scope);
      MessageSame(e, f, MessagesEntered(m, e, messages[..n], scope), messages[n], scope);
    }
  }

  lemma ServiceSame(e: Env, f: Env, service: ServiceProto, scope: string)
    requires SameView(e, f)
    ensures ServiceLinks(e, service, scope) <==> ServiceLinks(f, service, scope)
  {
    hide Resolve, SameView, Join;
    var full := Join(scope, service.name);
    forall i | 0 <= i < |service.methods|
      ensures MethodLinks(e, service.methods[i], full) <==> MethodLinks(f, service.methods[i], full)
    {
      var m := service.methods[i];
      ResolveSame(e, f, m.input, full + ['.'] + m.name, LOOKUP_ALL);
      ResolveSame(e, f, m.output, full + ['.'] + m.name, LOOKUP_ALL);
    }
  }

  /** Whether a file links, which numbers it uses and what it enters are the same. */
  lemma FileSame(e: Env, f: Env, m: Entries, proto: FileProto)
    requires SameView(e, f)
    ensures FileLinks(e, proto) <==> FileLinks(f, proto)
    ensures FileKeys(e, proto) == FileKeys(f, proto) && FileEntered(m, e, proto) == FileEntered(m, f, proto)
  {
    hide SameView, MessagesLink, MessagesKeys, MessagesEntered, FieldsLink, FieldKeys, FieldsEntered, ServiceLinks,
      PackageOf;
    var scope := PackageOf(proto);
    MessagesSame(e, f, m, proto.messages, scope);
    FieldsSame(e, f, proto.extensions, scope, true);
    EntriesSame(e, f, MessagesEntered(m, e, proto.messages, scope), proto.extensions, scope, true);
    forall i | 0 <= i < |proto.services|
      ensures ServiceLinks(e, proto.services[i], scope) <==> ServiceLinks(f, proto.services[i], scope)
    {
      ServiceSame(e, f, proto.services[i], scope);
    }
  }
}
