/** What holds of a pool's tables between operations, and how the tables may change while files are built. */
module PoolInvariant {
  import opened Names
  import opened OrderedMaps
  import opened Protos
  import opened PoolTables
  import opened SymbolOwnership
  import opened ScopeLookup
  import FallbackDatabase

  /** The settings of a `DescriptorPool`; unknown dependencies are not allowed and there is no underlay. */
  datatype Pool = Pool(fallback: Option<FallbackDatabase.Database>, enforceDependencies: bool)

  ghost predicate Ready(pool: Pool) {
    pool.fallback.Some? ==> FallbackDatabase.Consistent(pool.fallback.value)
  }

  /** The names of the files that the fallback database can answer with. */
  function NamesIn(pool: Pool): set<string> {
    match pool.fallback case Some(db) => db.names case None => {}
  }

  /** The measure of recursive building: names neither being built nor in the pool. */
  ghost function Unseen(pool: Pool, s: State): set<string> {
    NamesIn(pool) - Elements(s.pendingFiles) - s.log.now.files.Keys
  }

  // ----- The invariant -----

  ghost predicate IsLoaded(s: State, file: Id) {
    && file in s.descs && s.descs[file].name in s.log.now.files
    && s.log.now.files[s.descs[file].name].file == file
  }

  ghost predicate AllLoaded(s: State, files: set<Id>) {
    forall f | f in files :: IsLoaded(s, f)
  }

  /** Each dependency that was found is in the pool, and is the file itself or was added earlier. */
  ghost predicate DependenciesInOrder(s: State, file: Id) {
    file in s.descs &&
    forall i | 0 <= i < |s.descs[file].dependencies| && s.descs[file].dependencies[i].Some? ::
      s.descs[file].dependencies[i].value <= file && IsLoaded(s, s.descs[file].dependencies[i].value)
  }

  ghost predicate FilesOk(s: State) {
    forall n | n in s.log.now.files ::
      && s.log.now.files[n].file in s.descs && s.descs[s.log.now.files[n].file].name == n
      && DependenciesInOrder(s, s.log.now.files[n].file)
  }

  /** A symbol is filed under its own full name, and its file is in the pool. */
  ghost predicate SymbolsOk(s: State) {
    forall n | n in s.log.now.symbols :: IsLoaded(s, s.log.now.symbols[n].file) && s.log.now.symbols[n].name == n
  }

  /** No extension refers to a file that is gone, nor does the type it extends. */
  ghost predicate ExtensionsOk(s: State) {
    forall k | k in s.log.now.extensions ::
      (k.0.Some? ==> IsLoaded(s, k.0.value.file)) && IsLoaded(s, s.log.now.extensions[k].file)
  }

  ghost predicate MemoryOk(s: State) {
    && WellFormed(s.log) && Live(s.log.now)
    && (forall id | id in s.log.now.allocations :: id < s.nextId)
    && (forall id | id in s.descs :: id in s.log.now.allocations)
  }

  ghost predicate Inv(s: State) {
    MemoryOk(s) && FilesOk(s) && SymbolsOk(s) && ExtensionsOk(s)
  }

  /** Every file, but for those being built, is in the pool with all it declares, linked to its imports. */
  ghost predicate FilesBuilt(s: State, building: set<Id>) {
    forall n | n in s.log.now.files && s.log.now.files[n].file in s.descs && s.log.now.files[n].file !in building ::
      Built(s, s.descs[s.log.now.files[n].file].proto, s.log.now.files[n].file)
  }

  /** What holds of a pool no build of which has gone wrong half-way. */
  ghost predicate OwnedIn(s: State) {
    Owned(s.log.now.symbols) && FilesBuilt(s, {})
  }

  /** The same while a file is being built. */
  ghost predicate OwnedBut(s: State, file: Id) {
    Owned(s.log.now.symbols) && FilesBuilt(s, {file})
  }

  // ----- Growth -----

  /** The tables gained entries and lost none; the work is undone by the checkpoints that were open;
      and no file whose import list is being loaded was added (none that is being built was added). */
  ghost predicate Grows(p: State, q: State) {
    && Grown(p.log, q.log) && q.pendingFiles == p.pendingFiles
    && p.knownBadFiles <= q.knownBadFiles && p.nextId <= q.nextId
    && Submap(p.descs, q.descs)
    && (forall id | id in q.descs && id !in p.descs :: id >= p.nextId)
    && (forall n | n in q.log.now.files && n !in p.log.now.files :: n !in p.pendingFiles)
  }

  lemma GrowsRefl(p: State)
    requires WellFormed(p.log)
    ensures Grows(p, p)
  {
  }

  lemma GrowsTransitive(p: State, q: State, r: State)
    requires Grows(p, q) && Grows(q, r)
    ensures Grows(p, r)
  {
    GrownTransitive(p.log, q.log, r.log);
  }

  lemma UnseenShrinks(pool: Pool, p: State, q: State)
    requires Grows(p, q)
    ensures Unseen(pool, q) <= Unseen(pool, p)
  {
  }

  lemma StillLoaded(p: State, q: State, file: Id)
    requires Grows(p, q) && IsLoaded(p, file)
    ensures IsLoaded(q, file)
  {
  }

  lemma StillAllLoaded(p: State, q: State, files: set<Id>)
    requires AllLoaded(p, files) && q.descs == p.descs && q.log.now.files == p.log.now.files
    ensures AllLoaded(q, files)
  {
    forall f | f in files ensures IsLoaded(q, f) { assert IsLoaded(p, f); }
  }

  /** Every new symbol is of a new file, and no new package is nameless. */
  ghost predicate NewAreForeign(p: State, q: State) {
    forall n | n in q.log.now.symbols && n !in p.log.now.symbols ::
      q.log.now.symbols[n].file !in p.descs && (n == "" ==> q.log.now.symbols[n].kind != PACKAGE)
  }

  lemma ForeignTransitive(p: State, q: State, r: State)
    requires Grows(p, q) && Grows(q, r) && NewAreForeign(p, q) && NewAreForeign(q, r)
    ensures NewAreForeign(p, r)
  {
    forall n | n in r.log.now.symbols && n !in p.log.now.symbols
      ensures r.log.now.symbols[n].file !in p.descs && (n == "" ==> r.log.now.symbols[n].kind != PACKAGE)
    {
      if n in q.log.now.symbols { assert r.log.now.symbols[n] == q.log.now.symbols[n]; }
    }
  }

  lemma SameAreForeign(p: State, q: State)
    requires q.log.now.symbols == p.log.now.symbols
    ensures NewAreForeign(p, q)
  {
  }

  /** What a part of a build does to a pool: with no fallback database it leaves symbols and files alone. */
  ghost predicate Linked(pool: Pool, p: State, q: State) {
    && Inv(q) && Grows(p, q) && (OwnedIn(p) ==> OwnedIn(q)) && NewAreForeign(p, q)
    && (pool.fallback.None? ==>
          q.log.now.symbols == p.log.now.symbols && q.log.now.files == p.log.now.files && q.descs == p.descs)
  }

  lemma LinkedRefl(pool: Pool, p: State)
    requires Inv(p)
    ensures Linked(pool, p, p)
  {
    GrowsRefl(p);
  }

  lemma LinkedTransitive(pool: Pool, p: State, q: State, r: State)
    requires Linked(pool, p, q) && Linked(pool, q, r)
    ensures Linked(pool, p, r)
  {
    GrowsTransitive(p, q, r);
    ForeignTransitive(p, q, r);
  }

  /** The state without what only the log of this transaction, the allocator and the list of bad files remember. */
  ghost predicate SameTables(p: State, q: State) {
    q.log == p.log && q.descs == p.descs && q.pendingFiles == p.pendingFiles
  }

  /** A failed transaction: everything is as it was when it began. */
  lemma FailedTransaction(p: State, u: State, q: State)
    requires Inv(p) && Grows(p.(log := Checkpointed(p.log)), u)
    requires u.log.checkpoints != [] && Fits(u.log, u.log.checkpoints[|u.log.checkpoints| - 1])
    requires q.log == RolledBack(u.log) && q.pendingFiles == u.pendingFiles
    requires q.descs == map id | id in u.descs && id in q.log.now.allocations :: u.descs[id]
    requires q.knownBadFiles == u.knownBadFiles && q.nextId == u.nextId
    ensures SameTables(p, q) && Inv(q) && Grows(p, q)
  {
    TransactionFails(p.log, u.log);
    assert q.descs == p.descs;
    forall file | IsLoaded(p, file) ensures IsLoaded(q, file) {}
    forall n | n in q.log.now.files ensures DependenciesInOrder(q, q.log.now.files[n].file) {
      assert DependenciesInOrder(p, p.log.now.files[n].file);
    }
    GrowsRefl(p);
  }

  lemma CommittedTransaction(p: State, u: State, q: State)
    requires Inv(p) && Inv(u) && Grows(p.(log := Checkpointed(p.log)), u)
    requires u.log.checkpoints != [] && q == u.(log := Cleared(u.log))
    ensures Inv(q) && Grows(p, q) && q.log.now == u.log.now
  {
    TransactionCommits(p.log, u.log);
    forall file | IsLoaded(u, file) ensures IsLoaded(q, file) {}
    forall n | n in q.log.now.files ensures DependenciesInOrder(q, q.log.now.files[n].file) {
      assert DependenciesInOrder(u, u.log.now.files[n].file);
    }
  }

  /** Opening a transaction changes nothing the invariant looks at. */
  lemma OpenTransaction(p: State)
    requires Inv(p)
    ensures Inv(p.(log := Checkpointed(p.log))) && p.log.now == Checkpointed(p.log).now
  {
    var q := p.(log := Checkpointed(p.log));
    CheckpointRefines(p.log);
    forall file | IsLoaded(p, file) ensures IsLoaded(q, file) {}
    forall n | n in q.log.now.files ensures DependenciesInOrder(q, q.log.now.files[n].file) {
      assert DependenciesInOrder(p, p.log.now.files[n].file);
    }
  }

  // ----- Single additions -----

  /** Allocation of a string, of file tables or of bytes. */
  lemma AllocationStep(p: State, q: State, op: Op)
    requires Inv(p) && (op.AllocateString? || op.AllocateFileTables? || op.AllocateBytes?) && op.id == p.nextId
    requires q == p.(log := Do(p.log, op), nextId := p.nextId + 1)
    ensures Inv(q) && Grows(p, q)
  {
    AddGrows(p.log, op);
    forall file | IsLoaded(p, file) ensures IsLoaded(q, file) {}
    forall n | n in q.log.now.files ensures DependenciesInOrder(q, q.log.now.files[n].file) {
      assert DependenciesInOrder(p, p.log.now.files[n].file);
    }
  }

  lemma SymbolStep(p: State, q: State, name: string, s: Symbol)
    requires Inv(p) && IsLoaded(p, s.file) && s.key in p.log.now.strings && s.name == name
    requires q == p.(log := WithSymbol(p.log, name, s))
    ensures Inv(q) && Grows(p, q)
  {
    hide MemoryOk, Grows;
    SymbolLogged(p, q, name, s);
    forall file | IsLoaded(p, file) ensures IsLoaded(q, file) {}
    forall n | n in q.log.now.files ensures DependenciesInOrder(q, q.log.now.files[n].file) {
      assert DependenciesInOrder(p, p.log.now.files[n].file);
    }
  }

  lemma SymbolLogged(p: State, q: State, name: string, s: Symbol)
    requires MemoryOk(p) && s.file in p.descs && s.key in p.log.now.strings
    requires q == p.(log := WithSymbol(p.log, name, s))
    ensures MemoryOk(q) && Grows(p, q)
  {
    assert s.file in p.log.now.allocations;
    AddGrows(p.log, AddSymbol(name, s));
  }

  lemma ExtensionStep(pool: Pool, p: State, q: State, key: ExtensionKey, field: Ref)
    requires Inv(p) && (key.0.Some? ==> IsLoaded(p, key.0.value.file)) && IsLoaded(p, field.file)
    requires q == p.(log := WithExtension(p.log, key, field))
    ensures Linked(pool, p, q) && Inv(q)
  {
    hide MemoryOk, FilesOk, SymbolsOk, ExtensionsOk, OwnedIn, Grows;
    ExtensionLogged(p, q, key, field);
    ExtensionKeepsFiles(p, q);
    ExtensionsStayOk(p, q, key, field);
    SameFilesOwned(p, q);
  }

  lemma ExtensionLogged(p: State, q: State, key: ExtensionKey, field: Ref)
    requires MemoryOk(p) && field.file in p.descs && (key.0.Some? ==> key.0.value.file in p.descs)
    requires q == p.(log := WithExtension(p.log, key, field))
    ensures MemoryOk(q) && Grows(p, q)
  {
    assert field.file in p.log.now.allocations;
    AddGrows(p.log, AddExtension(key, field));
  }

  lemma ExtensionsStayOk(p: State, q: State, key: ExtensionKey, field: Ref)
    requires ExtensionsOk(p) && (key.0.Some? ==> IsLoaded(p, key.0.value.file)) && IsLoaded(p, field.file)
    requires q == p.(log := WithExtension(p.log, key, field))
    ensures ExtensionsOk(q)
  {
    forall file | IsLoaded(p, file) ensures IsLoaded(q, file) {}
  }

  lemma ExtensionKeepsFiles(p: State, q: State)
    requires FilesOk(p) && SymbolsOk(p) && q.descs == p.descs
    requires q.log.now.files == p.log.now.files && q.log.now.symbols == p.log.now.symbols
    ensures FilesOk(q) && SymbolsOk(q)
  {
    forall file | IsLoaded(p, file) ensures IsLoaded(q, file) {}
    forall n | n in q.log.now.files ensures DependenciesInOrder(q, q.log.now.files[n].file) {
      assert DependenciesInOrder(p, p.log.now.files[n].file);
    }
  }

  lemma SameFilesOwned(p: State, q: State)
    requires q.log.now.files == p.log.now.files && q.log.now.symbols == p.log.now.symbols && q.descs == p.descs
    ensures OwnedIn(p) ==> OwnedIn(q)
  {
    if OwnedIn(p) {
      forall n | n in q.log.now.files && q.log.now.files[n].file in q.descs
        ensures Built(q, q.descs[q.log.now.files[n].file].proto, q.log.now.files[n].file)
      {
        assert Built(p, p.descs[p.log.now.files[n].file].proto, p.log.now.files[n].file);
      }
    }
  }

  lemma SameFilesBuilt(p: State, q: State, proto: FileProto, file: Id)
    requires q.log.now.files == p.log.now.files && q.log.now.symbols == p.log.now.symbols && q.descs == p.descs
    ensures Built(p, proto, file) ==> Built(q, proto, file)
  {
  }

  /** A new file with no dependencies yet. */
  lemma FileStep(p: State, q: State, file: Id, key: Id, d: FileDesc)
    requires Inv(p) && file in p.log.now.allocations && file !in p.descs && key in p.log.now.strings
    requires d.name !in p.log.now.files && d.dependencies == []
    requires q == p.(log := WithFile(p.log, d.name, FileEntry(file, key)), descs := p.descs[file := d])
    ensures Inv(q) && Grown(p.log, q.log) && IsLoaded(q, file)
  {
    AddGrows(p.log, AddFile(d.name, FileEntry(file, key)));
    forall f | IsLoaded(p, f) ensures IsLoaded(q, f) {}
    forall n | n in q.log.now.files ensures DependenciesInOrder(q, q.log.now.files[n].file) {
      if n != d.name { assert DependenciesInOrder(p, p.log.now.files[n].file); }
    }
  }

  /** The dependencies of a file are filled in. */
  lemma DependenciesStep(p: State, q: State, file: Id, d: FileDesc)
    requires Inv(p) && IsLoaded(p, file) && d.name == p.descs[file].name
    requires forall i | 0 <= i < |d.dependencies| && d.dependencies[i].Some? ::
               d.dependencies[i].value <= file && IsLoaded(p, d.dependencies[i].value)
    requires q == p.(descs := p.descs[file := d])
    ensures Inv(q) && IsLoaded(q, file)
  {
    forall f | IsLoaded(p, f) ensures IsLoaded(q, f) {}
    forall n | n in q.log.now.files ensures DependenciesInOrder(q, q.log.now.files[n].file) {
      assert DependenciesInOrder(p, p.log.now.files[n].file);
    }
  }

  // ----- Building descriptors -----

  /** What a list of build steps does to the tables, and to the error flag. */
  ghost predicate StepsDone(p: State, q: State, steps: seq<Step>, file: Id, before: bool, after: bool) {
    && Inv(q) && Grows(p, q) && q.descs == p.descs && q.log.now.files == p.log.now.files
    && q.knownBadFiles == p.knownBadFiles && q.log.now.extensions == p.log.now.extensions
    && (after <==> before || !Clean(p.log.now.symbols.Keys, steps))
    && (Clean(p.log.now.symbols.Keys, steps) ==> StepsAdded(p.log.now.symbols, q.log.now.symbols, steps, file))
  }

  lemma StepsCompose(p: State, q: State, r: State, a: seq<Step>, b: seq<Step>, file: Id, x: bool, y: bool, z: bool)
    requires StepsDone(p, q, a, file, x, y) && StepsDone(q, r, b, file, y, z)
    ensures StepsDone(p, r, a + b, file, x, z)
  {
    GrowsTransitive(p, q, r);
    CleanSplit(p.log.now.symbols.Keys, a, b);
    DeclaredSplit(a, b);
    if Clean(p.log.now.symbols.Keys, a) {
      assert q.log.now.symbols.Keys == p.log.now.symbols.Keys + Declared(a);
    }
  }

  lemma CheckStep(p: State, ok: bool, file: Id, before: bool)
    requires Inv(p)
    ensures StepsDone(p, p, [Check(ok)], file, before, before || !ok)
  {
    GrowsRefl(p);
    assert [Check(ok)][1..] == [];
    assert Declared([Check(ok)]) == {};
  }

  lemma NoSteps(p: State, file: Id, before: bool)
    requires Inv(p)
    ensures StepsDone(p, p, [], file, before, before)
  {
    GrowsRefl(p);
    assert Declared([]) == {};
  }

  /** Allocation is invisible to the steps. */
  lemma StepsAfterAllocation(p: State, q: State, file: Id, before: bool)
    requires Inv(q) && Grows(p, q) && q.descs == p.descs && q.knownBadFiles == p.knownBadFiles
    requires q.log.now.symbols == p.log.now.symbols && q.log.now.files == p.log.now.files
    requires q.log.now.extensions == p.log.now.extensions
    ensures StepsDone(p, q, [], file, before, before)
  {
    assert Declared([]) == {};
  }

  lemma DeclareStep(p: State, q: State, name: string, s: Symbol, before: bool)
    requires Inv(p) && IsLoaded(p, s.file) && s.key in p.log.now.strings && s.kind != PACKAGE && s.name == name
    requires q == p.(log := WithSymbol(p.log, name, s))
    ensures StepsDone(p, q, [Declare(name, s.kind)], s.file, before, before || name in p.log.now.symbols)
  {
    hide Inv, Grows, IsLoaded, Clean, StepsAdded;
    SymbolStep(p, q, name, s);
    OneDeclared(p.log.now.symbols, name, s);
  }

  lemma OneDeclared(symbols: Symbols, name: string, s: Symbol)
    ensures Clean(symbols.Keys, [Declare(name, s.kind)]) <==> name !in symbols
    ensures name !in symbols ==> StepsAdded(symbols, symbols[name := s], [Declare(name, s.kind)], s.file)
  {
    var steps := [Declare(name, s.kind)];
    assert steps[1..] == [];
    assert steps[0] == Declare(name, s.kind);
    assert Declared(steps) == {name};
  }

  // ----- Packages -----

  /** What `AddPackage` does to the tables and to the error flag. */
  ghost predicate PackageAdded(p: State, q: State, name: string, file: Id, before: bool, after: bool) {
    && Inv(q) && Grows(p, q) && q.descs == p.descs && q.log.now.files == p.log.now.files
    && q.knownBadFiles == p.knownBadFiles && q.log.now.extensions == p.log.now.extensions
    && OnlyPackagesAdded(p.log.now.symbols, q.log.now.symbols, name, file)
    && (after <==> before || !PackageClean(p.log.now.symbols, name))
    && (PackageClean(p.log.now.symbols, name) ==> PackageChain(p.log.now.symbols, q.log.now.symbols, name))
  }

  lemma PackageWithoutParent(p: State, q: State, name: string, s: Symbol, before: bool)
    requires Inv(p) && IsLoaded(p, s.file) && s.key in p.log.now.strings && s.kind == PACKAGE && s.name == name
    requires q == p.(log := WithSymbol(p.log, name, s))
    requires name in p.log.now.symbols || LastDot(name) < 0
    ensures name in p.log.now.symbols ==>
      PackageAdded(p, q, name, s.file, before, before || p.log.now.symbols[name].kind != PACKAGE)
    ensures name !in p.log.now.symbols ==> PackageAdded(p, q, name, s.file, before, before || !ValidIdentifier(name))
  {
    hide Inv, Grows, OnlyPackagesAdded, PackageClean, PackageChain;
    SymbolStep(p, q, name, s);
    if name in p.log.now.symbols {
      KnownPackage(p.log.now.symbols, name, s.file);
    } else {
      TopPackage(p.log.now.symbols, name, s);
    }
  }

  lemma PackageWithParent(p: State, q: State, r: State, name: string, s: Symbol, before: bool, after: bool)
    requires Inv(p) && IsLoaded(p, s.file) && s.key in p.log.now.strings && s.kind == PACKAGE && s.name == name
    requires name !in p.log.now.symbols && LastDot(name) >= 0
    requires Inv(q) && Grows(p.(log := WithSymbol(p.log, name, s)), q) && q.descs == p.descs
    requires q.log.now.symbols == p.log.now.symbols[name := s] && q.log.now.files == p.log.now.files
    requires q.knownBadFiles == p.knownBadFiles && q.log.now.extensions == p.log.now.extensions
    requires PackageAdded(q, r, Parent(name), s.file, before, after)
    ensures PackageAdded(p, r, name, s.file, before, after || !ValidIdentifier(name[LastDot(name) + 1..]))
  {
    hide Inv, Grows, PackageClean, PackageChain, OnlyPackagesAdded;
    var p' := p.(log := WithSymbol(p.log, name, s));
    SymbolStep(p, p', name, s);
    GrowsTransitive(p, p', q);
    GrowsTransitive(p, q, r);
    PackageLevel(p.log.now.symbols, q.log.now.symbols, r.log.now.symbols, name, s);
  }

  /** Building a file's package and descriptors without error keeps every symbol owned. */
  lemma OwnedAfterBuild(p: State, q: State, q': State, r: State, proto: FileProto, file: Id, x: bool, y: bool, z: bool)
    requires Owned(p.log.now.symbols) && StepsDone(q', r, FileSteps(proto), file, y, z) && !z
    requires q'.log == q.log
    requires if PackageOf(proto) == "" then q.log.now.symbols == p.log.now.symbols
             else PackageAdded(p, q, PackageOf(proto), file, x, false)
    ensures Owned(r.log.now.symbols)
  {
    var package := PackageOf(proto);
    if package != "" { OwnedAfterPackage(p.log.now.symbols, q.log.now.symbols, package, file); }
    FileScoped(proto, q.log.now.symbols.Keys);
    OwnedAfterSteps(q.log.now.symbols, r.log.now.symbols, FileSteps(proto), package, file);
  }

  // ----- Imports -----

  function FileNamed(files: map<string, FileEntry>, name: string): Option<Id> {
    if name in files then Some(files[name].file) else None
  }

  /** The imports are in the pool and none is listed twice. */
  predicate NamesOk(files: set<string>, names: seq<string>) {
    && (forall i | 0 <= i < |names| :: names[i] in files)
    && (forall i, j | 0 <= i < j < |names| :: names[i] != names[j])
  }

  lemma NamesOkSnoc(files: set<string>, names: seq<string>, name: string)
    ensures NamesOk(files, names + [name]) <==> NamesOk(files, names) && name in files && name !in Elements(names)
  {
    var all := names + [name];
    if NamesOk(files, all) {
      assert all[|names|] == name;
      forall i | 0 <= i < |names| ensures names[i] in files && names[i] != name { assert all[i] == names[i]; }
      forall i, j | 0 <= i < j < |names| ensures names[i] != names[j] { assert all[i] == names[i] && all[j] == names[j];
          }
    } else if NamesOk(files, names) && name in files && name !in Elements(names) {
      forall i | 0 <= i < |all| ensures all[i] in files { if i < |names| { assert all[i] == names[i]; } }
      forall i, j | 0 <= i < j < |all| ensures all[i] != all[j] {
        assert all[i] == names[i];
        if j == |names| { assert names[i] in Elements(names); }
      }
    }
  }

  predicate IndexesOk(n: nat, indexes: seq<int>) {
    forall i | 0 <= i < |indexes| :: 0 <= indexes[i] < n
  }

  function ValidIndexes(n: nat, indexes: seq<int>): seq<nat> {
    if indexes == [] then []
    else
      var last := indexes[|indexes| - 1];
      ValidIndexes(n, indexes[..|indexes| - 1]) + if 0 <= last < n then [last] else []
  }

  predicate ImportsOk(files: set<string>, proto: FileProto) {
    NamesOk(files, proto.dependencies) && IndexesOk(|proto.dependencies|, proto.publicDependencies)
  }

  /** The file's descriptor lists what each import name stands for, and the valid public ones. */
  ghost predicate ImportsResolved(proto: FileProto, s: State, file: Id) {
    && file in s.descs && s.descs[file].proto == proto && s.descs[file].name == proto.name
    && s.descs[file].package == PackageOf(proto)
    && |s.descs[file].dependencies| == |proto.dependencies|
    && (forall i | 0 <= i < |proto.dependencies| ::
          s.descs[file].dependencies[i] == FileNamed(s.log.now.files, proto.dependencies[i]))
    && s.descs[file].publicDependencies == ValidIndexes(|proto.dependencies|, proto.publicDependencies)
  }

  // ----- Opening and entering a file -----

  function Opened(p: State): State {
    p.(log := Checkpointed(p.log))
  }

  /** A new file enters the pool, or its name turns out to be taken. */
  lemma EnterStep(p: State, q: State, r: State, file: Id, key: Id, d: FileDesc)
    requires Inv(q) && Grows(p, q) && file in q.log.now.allocations && file !in q.descs && p.nextId <= file
    requires key in q.log.now.strings && d.dependencies == [] && d.name !in p.pendingFiles
    requires r == q.(log := PoolTables.WithFile(q.log, d.name, FileEntry(file, key)), descs := q.descs[file := d])
    ensures Grows(p, r)
    ensures d.name !in q.log.now.files ==> Inv(r) && IsLoaded(r, file)
  {
    hide Inv, IsLoaded;
    AddGrows(q.log, AddFile(d.name, FileEntry(file, key)));
    GrownTransitive(p.log, q.log, r.log);
    assert file !in p.descs;
    if d.name !in q.log.now.files { FileStep(q, r, file, key, d); }
  }

  /** Rewriting the descriptor of a file that is new since `p`. */
  lemma RewriteStep(p: State, q: State, r: State, file: Id)
    requires Grows(p, q) && p.nextId <= file && file in q.descs && file !in p.descs && file in r.descs
    requires r == q.(descs := q.descs[file := r.descs[file]])
    ensures Grows(p, r)
  {
  }

  lemma LinkedShrinks(pool: Pool, p: State, q: State)
    requires Linked(pool, p, q)
    ensures Unseen(pool, q) <= Unseen(pool, p)
  {
    UnseenShrinks(pool, p, q);
  }

  lemma LinkedStillLoaded(pool: Pool, p: State, q: State, file: Id)
    requires Linked(pool, p, q) && IsLoaded(p, file)
    ensures IsLoaded(q, file)
  {
    StillLoaded(p, q, file);
  }

  lemma FoundIsLoaded(s: State, env: Env, found: Option<Symbol>)
    requires Inv(s) && env.symbols == s.log.now.symbols
    requires found.Some? && exists n :: found == Visible(env, n)
    ensures IsLoaded(s, found.value.file)
  {
    var n :| found == Visible(env, n);
    assert n in s.log.now.symbols;
  }

  // ----- What a successful build enters -----

  /** Every name the file declares is a symbol of its kind in that file, and its package is a package. */
  ghost predicate Declares(s: State, proto: FileProto, file: Id) {
    && (forall d | d in FileSteps(proto) && d.Declare? ::
          && d.name in s.log.now.symbols
          && s.log.now.symbols[d.name].kind == d.kind && s.log.now.symbols[d.name].file == file)
    && (PackageOf(proto) != "" ==>
          PackageOf(proto) in s.log.now.symbols && s.log.now.symbols[PackageOf(proto)].kind == PACKAGE)
  }

  /** The public imports of a file are among its imports, and building it from scratch reports no error. */
  predicate Proper(proto: FileProto) {
    IndexesOk(|proto.dependencies|, proto.publicDependencies) && Clean({}, FileSteps(proto))
  }

  /** The file is in the pool, proper and with everything it declares, linked to the files it imports. */
  ghost predicate Built(s: State, proto: FileProto, file: Id) {
    && IsLoaded(s, file) && s.descs[file].proto == proto && s.descs[file].name == proto.name
    && s.descs[file].package == PackageOf(proto)
    && |s.descs[file].dependencies| == |proto.dependencies|
    && (forall i | 0 <= i < |proto.dependencies| ::
          proto.dependencies[i] in s.log.now.files
          && s.descs[file].dependencies[i] == Some(s.log.now.files[proto.dependencies[i]].file))
    && s.descs[file].publicDependencies == ValidIndexes(|proto.dependencies|, proto.publicDependencies)
    && Proper(proto) && Declares(s, proto, file)
  }

  lemma BuiltGrows(p: State, q: State, proto: FileProto, file: Id)
    requires Built(p, proto, file) && Grows(p, q)
    ensures Built(q, proto, file)
  {
  }

  /** The checks of the first half of a build: package, imports, declarations. */
  predicate ContentsOk(symbols: Symbols, files: set<string>, proto: FileProto) {
    var package := PackageOf(proto);
    && (package != "" ==> PackageClean(symbols, package))
    && ImportsOk(files, proto)
    && Clean(symbols.Keys + (if package == "" then {} else PackageNames(symbols.Keys, package)), FileSteps(proto))
  }

  lemma PackageFacts(p: State, q: State, name: string, file: Id, before: bool, after: bool)
    requires PackageAdded(p, q, name, file, before, after)
    ensures Grows(p, q) && q.descs == p.descs && q.log.now.files == p.log.now.files
      && q.knownBadFiles == p.knownBadFiles
    ensures q.log.now.extensions == p.log.now.extensions
    ensures q.log.now.symbols.Keys == p.log.now.symbols.Keys + PackageNames(p.log.now.symbols.Keys, name)
    ensures after <==> before || !PackageClean(p.log.now.symbols, name)
    ensures PackageClean(p.log.now.symbols, name) ==>
      name in q.log.now.symbols && q.log.now.symbols[name].kind == PACKAGE
  {
  }

  lemma StepsFacts(p: State, q: State, steps: seq<Step>, file: Id, before: bool, after: bool)
    requires StepsDone(p, q, steps, file, before, after)
    ensures Grows(p, q) && q.descs == p.descs && q.log.now.files == p.log.now.files
      && q.knownBadFiles == p.knownBadFiles
    ensures q.log.now.extensions == p.log.now.extensions
    ensures after <==> before || !Clean(p.log.now.symbols.Keys, steps)
    ensures Clean(p.log.now.symbols.Keys, steps) ==> StepsAdded(p.log.now.symbols, q.log.now.symbols, steps, file)
  {
  }

  /** The package step of a build; a file without a package has none. */
  ghost predicate PackageStep(p: State, q: State, proto: FileProto, file: Id, after: bool) {
    if PackageOf(proto) == "" then q == p && !after else PackageAdded(p, q, PackageOf(proto), file, false, after)
  }

  /** The three halves of building a file's contents, put together. */
  lemma ContentsDone(p: State, q: State, r: State, t: State, proto: FileProto, file: Id, x: bool, y: bool, z: bool)
    requires PackageStep(p, q, proto, file, x) && r.log == q.log && file in r.descs
    requires r.descs == q.descs[file := r.descs[file]]
    requires ImportsResolved(proto, r, file) && (y <==> x || !ImportsOk(q.log.now.files.Keys, proto))
    requires StepsDone(r, t, FileSteps(proto), file, y, z) && IsLoaded(t, file)
    ensures t.log.now.files == p.log.now.files && t.descs == r.descs
    ensures !z <==> ContentsOk(p.log.now.symbols, p.log.now.files.Keys, proto)
    ensures !z ==> Built(t, proto, file)
    ensures !z && OwnedBut(p, file) ==> OwnedIn(t)
  {
    var package := PackageOf(proto);
    if package != "" { PackageFacts(p, q, package, file, false, x); }
    StepsFacts(r, t, FileSteps(proto), file, y, z);
    ContentsFlag(p, q, proto, x, y, z);
    if !z {
      ContentsBuilt(p, q, r, t, proto, file, x);
      if OwnedBut(p, file) {
        OwnedAfterBuild(p, q, r, t, proto, file, false, y, z);
        OthersStillBuilt(p, t, proto, file);
      }
    }
  }

  lemma OthersStillBuilt(p: State, t: State, proto: FileProto, file: Id)
    requires FilesBuilt(p, {file}) && Built(t, proto, file) && t.log.now.files == p.log.now.files
    requires t.descs == p.descs[file := t.descs[file]]
    requires Submap(p.log.now.symbols, t.log.now.symbols)
    ensures FilesBuilt(t, {})
  {
    assert t.descs[file].proto == proto;
    hide Built, Submap;
    forall n | n in t.log.now.files && t.log.now.files[n].file in t.descs
      ensures Built(t, t.descs[t.log.now.files[n].file].proto, t.log.now.files[n].file)
    {
      var id := t.log.now.files[n].file;
      if id != file {
        assert Built(p, p.descs[id].proto, id);
        StillBuilt(p, t, p.descs[id].proto, id);
      }
    }
  }

  lemma StillBuilt(p: State, t: State, proto: FileProto, file: Id)
    requires Built(p, proto, file) && file in p.descs && file in t.descs && t.descs[file] == p.descs[file]
    requires t.log.now.files == p.log.now.files && Submap(p.log.now.symbols, t.log.now.symbols)
    ensures Built(t, proto, file)
  {
  }

  /** Entering a file leaves the others as they were. */
  lemma OwnedAfterEntering(p: State, q: State, name: string, file: Id)
    requires q.log.now.symbols == p.log.now.symbols && file in q.descs && q.descs == p.descs[file := q.descs[file]]
    requires file !in p.descs && name !in p.log.now.files && name in q.log.now.files
    requires q.log.now.files == p.log.now.files[name := q.log.now.files[name]] && q.log.now.files[name].file == file
    ensures OwnedIn(p) ==> OwnedBut(q, file)
  {
    if OwnedIn(p) {
      forall n | n in q.log.now.files && q.log.now.files[n].file in q.descs && q.log.now.files[n].file != file
        ensures Built(q, q.descs[q.log.now.files[n].file].proto, q.log.now.files[n].file)
      {
        assert Built(p, p.descs[p.log.now.files[n].file].proto, p.log.now.files[n].file);
      }
    }
  }

  lemma ContentsFlag(p: State, q: State, proto: FileProto, x: bool, y: bool, z: bool)
    requires q.log.now.files == p.log.now.files
    requires q.log.now.symbols.Keys == p.log.now.symbols.Keys
      + (if PackageOf(proto) == "" then {} else PackageNames(p.log.now.symbols.Keys, PackageOf(proto)))
    requires x <==> PackageOf(proto) != "" && !PackageClean(p.log.now.symbols, PackageOf(proto))
    requires y <==> x || !ImportsOk(q.log.now.files.Keys, proto)
    requires z <==> y || !Clean(q.log.now.symbols.Keys, FileSteps(proto))
    ensures !z <==> ContentsOk(p.log.now.symbols, p.log.now.files.Keys, proto)
  {
  }

  lemma ContentsBuilt(p: State, q: State, r: State, t: State, proto: FileProto, file: Id, x: bool)
    requires PackageStep(p, q, proto, file, x) && !x && r.log == q.log && t.descs == r.descs
    requires t.log.now.files == q.log.now.files == p.log.now.files
    requires ImportsResolved(proto, r, file) && ImportsOk(q.log.now.files.Keys, proto) && IsLoaded(t, file)
    requires Clean(r.log.now.symbols.Keys, FileSteps(proto))
    requires StepsAdded(r.log.now.symbols, t.log.now.symbols, FileSteps(proto), file)
    ensures Built(t, proto, file)
  {
    hide Clean, FileSteps, ValidIndexes, PackageStep, StepsAdded, Declares;
    CleanWithFewer({}, r.log.now.symbols.Keys, FileSteps(proto));
    PackageIsThere(p, q, proto, file);
    StepsAreDeclared(r.log.now.symbols, t, proto, file);
    forall i | 0 <= i < |proto.dependencies|
      ensures proto.dependencies[i] in t.log.now.files
           && t.descs[file].dependencies[i] == Some(t.log.now.files[proto.dependencies[i]].file)
    {
      assert r.descs[file].dependencies[i] == FileNamed(r.log.now.files, proto.dependencies[i]);
    }
  }

  lemma PackageIsThere(p: State, q: State, proto: FileProto, file: Id)
    requires PackageStep(p, q, proto, file, false)
    ensures PackageOf(proto) != "" ==>
      PackageOf(proto) in q.log.now.symbols && q.log.now.symbols[PackageOf(proto)].kind == PACKAGE
  {
    hide PackageAdded;
    if PackageOf(proto) != "" { PackageFacts(p, q, PackageOf(proto), file, false, false); }
  }

  lemma StepsAreDeclared(before: Symbols, t: State, proto: FileProto, file: Id)
    requires StepsAdded(before, t.log.now.symbols, FileSteps(proto), file)
    requires PackageOf(proto) != "" ==>
      PackageOf(proto) in before && before[PackageOf(proto)].kind == PACKAGE
    ensures Declares(t, proto, file)
  {
    hide FileSteps;
    forall d | d in FileSteps(proto) && d.Declare? ensures d.name in t.log.now.symbols {
      assert d.name in Declared(FileSteps(proto));
    }
  }

  lemma InvGrowsRefl(p: State)
    requires Inv(p)
    ensures Grows(p, p)
  {
    GrowsRefl(p);
  }

  lemma NamedDesc(p: State, name: string)
    requires Inv(p) && name in p.log.now.files
    ensures p.log.now.files[name].file in p.descs
  {
  }

  lemma DescsBelow(p: State)
    requires Inv(p)
    ensures forall id | id in p.descs :: id < p.nextId
    ensures forall id | id in p.log.now.allocations :: id < p.nextId
  {
  }

  lemma LastCheckpoint(p: State, u: State)
    requires Inv(p) && Grows(Opened(p), u)
    ensures u.log.checkpoints != [] && Fits(u.log, u.log.checkpoints[|u.log.checkpoints| - 1])
  {
    TransactionFails(p.log, u.log);
  }

  lemma GrowsKeepsNames(p: State, q: State)
    requires Grows(p, q)
    ensures p.log.now.files.Keys <= q.log.now.files.Keys && p.knownBadFiles <= q.knownBadFiles
  {
  }

  /** Once a file is entered, its name is no longer unseen. */
  lemma UnseenAfterEntering(pool: Pool, p: State, q: State, name: string)
    requires Grows(Opened(p), q) && name in q.log.now.files
    ensures name in Unseen(pool, p) ==> Unseen(pool, q) < Unseen(pool, p)
    ensures Unseen(pool, q) <= Unseen(pool, p)
  {
  }

  /** The invariant does not look at the pending and the bad files. */
  lemma InvIgnoresLists(p: State, q: State)
    requires Inv(p) && q == p.(pendingFiles := q.pendingFiles, knownBadFiles := q.knownBadFiles)
    ensures Inv(q) && (OwnedIn(q) <==> OwnedIn(p))
  {
    hide OwnedIn;
    OwnedIgnoresLists(p, q);
    forall file | IsLoaded(p, file) ensures IsLoaded(q, file) {}
    forall n | n in q.log.now.files ensures DependenciesInOrder(q, q.log.now.files[n].file) {
      assert DependenciesInOrder(p, p.log.now.files[n].file);
    }
  }

  lemma OwnedIgnoresLists(p: State, q: State)
    requires q == p.(pendingFiles := q.pendingFiles, knownBadFiles := q.knownBadFiles)
    ensures OwnedIn(q) <==> OwnedIn(p)
  {
    hide Built, Owned;
    forall proto, file ensures Built(q, proto, file)
      <==> Built(p, proto, file) { BuiltIgnoresLists(p, q, proto, file); }
  }

  lemma BuiltIgnoresLists(p: State, q: State, proto: FileProto, file: Id)
    requires q == p.(pendingFiles := q.pendingFiles, knownBadFiles := q.knownBadFiles)
    ensures Built(q, proto, file) <==> Built(p, proto, file)
  {
  }

  /** Work done while a name was pending, seen from before it was. */
  lemma GrowsUnderPending(p: State, q: State, r: State, name: string)
    requires Grows(p.(pendingFiles := p.pendingFiles + [name]), q) && r == q.(pendingFiles := p.pendingFiles)
    ensures Grows(p, r) && q.pendingFiles == p.pendingFiles + [name]
    ensures name in q.log.now.files ==> name in p.log.now.files
  {
    var p' := p.(pendingFiles := p.pendingFiles + [name]);
    assert name in p'.pendingFiles by { assert p'.pendingFiles[|p.pendingFiles|] == name; }
    forall n | n in p.pendingFiles ensures n in p'.pendingFiles {
      var i :| 0 <= i < |p.pendingFiles| && p.pendingFiles[i] == n;
      assert p'.pendingFiles[i] == n;
    }
  }

  lemma UnseenPending(pool: Pool, p: State, q: State, name: string)
    requires name in Unseen(pool, p) && Grows(p.(pendingFiles := p.pendingFiles + [name]), q)
    ensures Unseen(pool, q) < Unseen(pool, p)
  {
    assert q.pendingFiles[|p.pendingFiles|] == name;
    assert name in Elements(q.pendingFiles);
    forall n | n in p.pendingFiles ensures n in q.pendingFiles {
      var i :| 0 <= i < |p.pendingFiles| && p.pendingFiles[i] == n;
      assert q.pendingFiles[i] == n;
    }
    assert name !in Unseen(pool, q);
  }

  lemma LinkedKeeps(pool: Pool, p: State, q: State)
    requires Linked(pool, p, q)
    ensures Grows(p, q) && (OwnedIn(p) ==> OwnedIn(q)) && NewAreForeign(p, q)
  {
  }

  lemma LinkedFacts(pool: Pool, p: State, q: State, proto: FileProto, file: Id)
    requires Linked(pool, p, q)
    ensures Grows(p, q) && (OwnedIn(p) ==> OwnedIn(q)) && (Built(p, proto, file) ==> Built(q, proto, file))
    ensures NewAreForeign(p, q)
    ensures pool.fallback.None? ==> q.log.now.symbols == p.log.now.symbols && q.log.now.files == p.log.now.files
  {
    if Built(p, proto, file) { BuiltGrows(p, q, proto, file); }
  }

  // ----- A pool at rest -----

  const NEW_POOL := State(EMPTY, [], {}, map[], 0)

  lemma NewPoolIsSound()
    ensures Inv(NEW_POOL) && OwnedIn(NEW_POOL)
  {
  }

  /** No build is under way and every symbol is owned. */
  ghost predicate AtRest(s: State) {
    Inv(s) && OwnedIn(s) && s.log.checkpoints == [] && s.pendingFiles == []
  }

  lemma NewPoolIsAtRest()
    ensures AtRest(NEW_POOL)
  {
    NewPoolIsSound();
  }

  lemma GrowsKeepsRest(p: State, q: State)
    requires Grows(p, q)
    ensures q.log.checkpoints == p.log.checkpoints && q.pendingFiles == p.pendingFiles
  {
  }

  /** At rest every file has all it declares in the tables, and each of its imports is the file of that name. */
  lemma FilesAreWhole(s: State, name: string)
    requires AtRest(s) && name in s.log.now.files
    ensures var file := s.log.now.files[name].file;
      file in s.descs && s.descs[file].proto.name == name && Built(s, s.descs[file].proto, file)
  {
    assert Built(s, s.descs[s.log.now.files[name].file].proto, s.log.now.files[name].file);
  }

  /** Import order is a DAG apart from self-imports: an import is in the pool and was added strictly earlier (its serial
      number is smaller), unless it is the file itself; and it is the file itself exactly when it has its name. */
  lemma ImportsAreEarlier(s: State, name: string, i: nat)
    requires AtRest(s) && name in s.log.now.files
    requires i < |s.descs[s.log.now.files[name].file].dependencies|
    ensures var file := s.log.now.files[name].file;
      var proto, d := s.descs[file].proto, s.descs[file].dependencies[i];
      && d.Some? && IsLoaded(s, d.value) && (d.value == file || d.value < file)
      && i < |proto.dependencies| && (d.value == file <==> proto.dependencies[i] == name)
  {
    var file := s.log.now.files[name].file;
    assert DependenciesInOrder(s, file);
    assert Built(s, s.descs[file].proto, file);
  }

  /** At rest, every dotted prefix of a symbol is a symbol; of a package, a package; and a prefix
      that is no package belongs to the file of the symbol, which is in the pool. */
  lemma PrefixesAtRest(s: State, p: string, n: string)
    requires AtRest(s) && n in s.log.now.symbols && Covers(p, n)
    ensures p in s.log.now.symbols && IsLoaded(s, s.log.now.symbols[p].file)
    ensures s.log.now.symbols[n].kind == PACKAGE ==> s.log.now.symbols[p].kind == PACKAGE
    ensures s.log.now.symbols[p].kind != PACKAGE ==> s.log.now.symbols[p].file == s.log.now.symbols[n].file
  {
    PrefixesOwned(s.log.now.symbols, p, n);
  }
}
