/** When a file can be built into a pool, read off the file and the pool alone. */
module BuildableFiles {
  import opened Names
  import opened OrderedMaps
  import opened Protos
  import opened PoolTables
  import opened SymbolOwnership
  import opened Declarations
  import opened ScopeLookup
  import opened References
  import opened FieldNumbers
  import opened PublicImports
  import opened PoolInvariant
  import opened BuildConditions
  import opened DeclaredInPool
  import opened ImportedFiles
  import opened ExtensionClaims

  // ----- What a reference may use -----

  /** The file to be built, or one that its imports lead to. */
  ghost predicate Usable(p: State, proto: FileProto, name: string) {
    Known(p, proto, name) && (name == proto.name || Imported(p, proto, name))
  }

  /** A symbol may be used when its file may; a package, when a file that may be used is in it or in one inside it. */
  lemma MayUseExactly(pool: Pool, p: State, proto: FileProto, name: string, s: Symbol)
    requires ReadyFor(p, proto)
    ensures MayUse(EntryEnv(pool, p, proto), name, s) <==>
      || !pool.enforceDependencies
      || (exists n :: Usable(p, proto, n) && IdNamed(p, proto, n) == s.file)
      || (s.kind == PACKAGE && exists n :: Usable(p, proto, n) && Covers(name, PackageOf(ProtoNamed(p, proto, n))))
  {
    hide ReadyFor, Known, IdNamed, ProtoNamed, Imported, EntryDesc, EntrySymbols, BuildConditions.Usable, PackageOf,
      Covers;
    var env := EntryEnv(pool, p, proto);
    ItselfKnown(p, proto);
    UsableExactly(pool, p, proto, s.file);
    assert Usable(p, proto, proto.name);
    forall n | Usable(p, proto, n)
      ensures IdNamed(p, proto, n) == env.file || IdNamed(p, proto, n) in env.dependencies
      ensures IsInPackage(env.descs, IdNamed(p, proto, n), name)
         <==> Covers(name, PackageOf(ProtoNamed(p, proto, n)))
    {
      UsableExactly(pool, p, proto, IdNamed(p, proto, n));
      DescOf(p, proto, n);
    }
    forall d | d in env.dependencies ensures exists n :: Usable(p, proto, n) && IdNamed(p, proto, n) == d {
      UsableExactly(pool, p, proto, d);
    }
  }

  // ----- When a file can be built -----

  lemma EnvIsSound(pool: Pool, p: State, proto: FileProto)
    requires Inv(p) && OwnedIn(p)
    requires ContentsOk(p.log.now.symbols, p.log.now.files.Keys + {proto.name}, proto)
    ensures SoundEnv(EntryEnv(pool, p, proto)) && Acceptable({}, proto)
    ensures var env := EntryEnv(pool, p, proto); env.file in env.descs && env.descs[env.file].proto == proto
  {
    hide Clean, FileSteps, PackageClean, Acceptable, MemoryOk, ExtensionsOk, Owned, Declares, NewNames, KindOf,
      BuildConditions.Usable, ValidIndexes;
    ContentsAreAcceptable(p.log.now.symbols, p.log.now.files.Keys + {proto.name}, proto);
    forall n | n in p.log.now.symbols ensures SoundDesc(p.descs[p.log.now.symbols[n].file]) { SymbolIsSound(p, n); }
    DescsBelow(p);
  }

  lemma ContentsAreAcceptable(symbols: Symbols, files: set<string>, proto: FileProto)
    requires ContentsOk(symbols, files, proto)
    ensures Acceptable({}, proto)
  {
    hide Clean, FileSteps, PackageClean, Acceptable;
    var package := PackageOf(proto);
    CleanWithFewer({}, symbols.Keys + (if package == "" then {} else PackageNames(symbols.Keys, package)),
                   FileSteps(proto));
    CleanExactly({}, proto);
  }

  lemma SymbolIsSound(p: State, n: string)
    requires Inv(p) && OwnedIn(p) && n in p.log.now.symbols
    ensures IsLoaded(p, p.log.now.symbols[n].file) && SoundDesc(p.descs[p.log.now.symbols[n].file])
  {
    hide Clean, FileSteps, Acceptable, MemoryOk, ExtensionsOk, Owned, Declares, ValidIndexes;
    var file := p.log.now.symbols[n].file;
    assert Built(p, p.descs[file].proto, file);
    CleanExactly({}, p.descs[file].proto);
  }

  /**
   * A file of a new name can be built into a pool at rest if and only if its package is free, its imports are there,
   * everything in it is well-formed, its names are free and differ, each reference finds something of its sort that
   * may be used, and the fields of each message have different numbers, as have the extensions of each type.
   */
  lemma BuildableExactly(pool: Pool, p: State, proto: FileProto)
    requires Inv(p) && OwnedIn(p)
    ensures Buildable(pool, p, proto) <==>
      && !proto.rejected
      && (PackageOf(proto) != "" ==> PackageFree(p.log.now.symbols, PackageOf(proto)))
      && ImportsThere(p.log.now.files.Keys + {proto.name}, proto)
      && NamesFree(p.log.now.symbols, proto)
      && FieldsRefer(EntryEnv(pool, p, proto), proto) && MethodsRefer(EntryEnv(pool, p, proto), proto)
      && FieldsApart(proto) && ExtensionsApart(EntryEnv(pool, p, proto), proto)
  {
    hide Inv, OwnedIn, ContentsOk, FileLinks, FileKeys, Unused, PackageFree, ImportsThere, NamesFree, FieldsRefer,
      MethodsRefer, FieldsApart, ExtensionsApart, EntryEnv, Acceptable, SoundEnv;
    ContentsExactly(p.log.now.symbols, p.log.now.files.Keys + {proto.name}, proto);
    if ContentsOk(p.log.now.symbols, p.log.now.files.Keys + {proto.name}, proto) {
      EnvIsSound(pool, p, proto);
      ReferencesExactly(EntryEnv(pool, p, proto), proto);
      if FieldsRefer(EntryEnv(pool, p, proto), proto) { NumbersMean(EntryEnv(pool, p, proto), proto); }
    }
  }

  // ----- What is found under the numbers of extensions -----

  /** The key of an extension that builds is the type it extends and its number. */
  lemma KeysAreTypes(pool: Pool, p: State, proto: FileProto, at: Position)
    requires Inv(p) && OwnedIn(p) && Buildable(pool, p, proto) && IsExtension(proto, at)
    ensures var env := EntryEnv(pool, p, proto);
      && ExtendsSomething(env, proto, at)
      && KeyInFile(env, proto, at) == (Some(Extended(env, proto, at)), FieldAt(proto, at).number)
  {
    hide Inv, OwnedIn, Buildable, PackageFree, ImportsThere, MethodsRefer, FieldsApart, ExtensionsApart, EntryEnv,
      InFile, NameAt, SoundAt, FieldAt, FieldRefers, Resolve;
    BuildableExactly(pool, p, proto);
    ExtensionHasKey(EntryEnv(pool, p, proto), proto, at);
  }

  /**
   * A build adds the numbers of the extensions of the file, nested ones included, each under the type it extends, and
   * no others; a number that was free is then the extension's, and one that was taken stays with whom it was.
   */
  lemma NumbersAfterBuild(pool: Pool, p: State, q: State, proto: FileProto, key: ExtensionKey)
    requires Inv(p) && OwnedIn(p) && Buildable(pool, p, proto) && JustBuilt(pool, p, q, proto)
    ensures var env := EntryEnv(pool, p, proto);
      key in q.log.now.extensions <==>
        key in p.log.now.extensions || exists at :: IsExtension(proto, at) && KeyInFile(env, proto, at) == key
    ensures key in p.log.now.extensions ==> q.log.now.extensions[key] == p.log.now.extensions[key]
    ensures var env := EntryEnv(pool, p, proto);
      forall at | IsExtension(proto, at) && KeyInFile(env, proto, at) == key && key !in p.log.now.extensions ::
        q.log.now.extensions[key] == Ref(p.nextId, NameAt(proto, at))
  {
    hide Inv, OwnedIn, Buildable, SymbolsEntered, FileEntered, FileClaims, EnteredInTurn, InFile, NameAt, KeyInFile;
    var env, m := EntryEnv(pool, p, proto), p.log.now.extensions;
    var claims := FileClaims(env, proto);
    BuiltFileFoundExactly(pool, p, q, proto);
    FileInTurn(m, env, proto);
    InTurn(m, claims, key);
    if ClaimsKey(claims, key) {
      var i :| 0 <= i < |claims| && claims[i].0 == key;
      ClaimsExactly(env, proto, claims[i]);
    }
    forall at | IsExtension(proto, at) && KeyInFile(env, proto, at) == key
      ensures ClaimsKey(claims, key) && ClaimAt(env, proto, at) in claims
    {
      ClaimsExactly(env, proto, ClaimAt(env, proto, at));
    }
  }
}
