/**
 * What a file sees while it is linked: with dependencies enforced, nothing that is built from the fallback database in
 * the meantime.
 */
module LinkingSight {
  import opened Names
  import opened OrderedMaps
  import opened Protos
  import opened PoolTables
  import opened SymbolOwnership
  import opened ScopeLookup
  import opened PublicImports
  import opened PoolInvariant
  import opened BuildConditions

  // ----- What others build meanwhile cannot be seen -----

  function EnvOf(pool: Pool, s: State, file: Id, dependencies: set<Id>): Env {
    Env(s.log.now.symbols, s.descs, file, dependencies, pool.enforceDependencies)
  }

  /** Nothing that is built from the fallback database while this file is linked can be seen by it. */
  ghost predicate Settled(pool: Pool, s: State, file: Id, dependencies: set<Id>) {
    || pool.fallback.None?
    || (pool.enforceDependencies && OwnedIn(s) && IsLoaded(s, file) && AllLoaded(s, dependencies))
  }

  /** Whether a file can be built into this pool is decided before its build begins. */
  ghost predicate Foreseen(pool: Pool, s: State) {
    pool.fallback.None? || (pool.enforceDependencies && OwnedIn(s))
  }

  /** The same symbols can be seen, in the same files. */
  ghost predicate SameSight(e: Env, f: Env) {
    && e.file == f.file
    && (forall n :: Visible(e, n) == Visible(f, n))
    && forall n | Visible(e, n).Some? :: SameDesc(e.descs, f.descs, Visible(e, n).value.file)
  }

  lemma SightIsView(e: Env, f: Env)
    requires SameSight(e, f)
    ensures SameView(e, f)
  {
    hide Visible;
  }

  /** The package of a built file, and whatever it lies in, is known. */
  lemma PackageKnown(s: State, file: Id, n: string)
    requires OwnedIn(s) && IsLoaded(s, file) && Covers(n, s.descs[file].package) && s.descs[file].package != ""
    ensures n in s.log.now.symbols
  {
    assert Built(s, s.descs[file].proto, file);
    PrefixesOwned(s.log.now.symbols, n, s.descs[file].package);
  }

  lemma SightStays(pool: Pool, p: State, q: State, file: Id, dependencies: set<Id>)
    requires Inv(p) && Linked(pool, p, q) && Settled(pool, p, file, dependencies)
    ensures Settled(pool, q, file, dependencies)
    ensures SameSight(EnvOf(pool, p, file, dependencies), EnvOf(pool, q, file, dependencies))
  {
    hide Visible, Inv, Linked, Settled;
    var e, f := EnvOf(pool, p, file, dependencies), EnvOf(pool, q, file, dependencies);
    SettledStays(pool, p, q, file, dependencies);
    forall n
      ensures Visible(e, n) == Visible(f, n)
      ensures Visible(e, n).Some? ==> SameDesc(e.descs, f.descs, Visible(e, n).value.file)
    {
      SeenBefore(pool, p, q, file, dependencies, n);
    }
  }

  lemma SettledIs(pool: Pool, s: State, file: Id, dependencies: set<Id>)
    requires pool.enforceDependencies && OwnedIn(s) && IsLoaded(s, file) && AllLoaded(s, dependencies)
    ensures Settled(pool, s, file, dependencies)
  {
  }

  lemma SettledStays(pool: Pool, p: State, q: State, file: Id, dependencies: set<Id>)
    requires Linked(pool, p, q) && Settled(pool, p, file, dependencies)
    ensures Settled(pool, q, file, dependencies)
  {
    hide Inv, OwnedIn;
  }

  lemma SeenBefore(pool: Pool, p: State, q: State, file: Id, dependencies: set<Id>, n: string)
    requires Inv(p) && Linked(pool, p, q) && Settled(pool, p, file, dependencies)
    ensures var e, f := EnvOf(pool, p, file, dependencies), EnvOf(pool, q, file, dependencies);
      && Visible(e, n) == Visible(f, n)
      && (Visible(e, n).Some? ==> SameDesc(e.descs, f.descs, Visible(e, n).value.file))
  {
    hide Inv, OwnedIn, Grows, IsInPackage;
    if n in p.log.now.symbols {
      OldSymbolStays(p, q, n);
      if pool.fallback.Some? { SamePackages(p, q, file, dependencies, n); }
    } else if pool.fallback.Some? && n in q.log.now.symbols {
      NewSymbolUnseen(pool, p, q, file, dependencies, n);
    }
  }

  lemma OldSymbolStays(p: State, q: State, n: string)
    requires Inv(p) && Grows(p, q) && n in p.log.now.symbols
    ensures n in q.log.now.symbols && q.log.now.symbols[n] == p.log.now.symbols[n]
    ensures SameDesc(p.descs, q.descs, p.log.now.symbols[n].file)
  {
  }

  lemma SamePackages(p: State, q: State, file: Id, dependencies: set<Id>, n: string)
    requires Grows(p, q) && IsLoaded(p, file) && AllLoaded(p, dependencies)
    ensures forall d | d == file || d in dependencies :: IsInPackage(p.descs, d, n) <==> IsInPackage(q.descs, d, n)
  {
    forall d | d == file || d in dependencies ensures IsInPackage(p.descs, d, n) <==> IsInPackage(q.descs, d, n) {
      assert IsLoaded(p, d);
    }
  }

  lemma NewSymbolUnseen(pool: Pool, p: State, q: State, file: Id, dependencies: set<Id>, n: string)
    requires Linked(pool, p, q) && Settled(pool, p, file, dependencies) && pool.fallback.Some?
    requires n in q.log.now.symbols && n !in p.log.now.symbols
    ensures !MayUse(EnvOf(pool, q, file, dependencies), n, q.log.now.symbols[n])
  {
    hide Inv, OwnedIn, IsLoaded, Linked, IsInPackage, MayUse, OfAnother;
    LinkedKeeps(pool, p, q);
    var env, s := EnvOf(pool, q, file, dependencies), q.log.now.symbols[n];
    LoadedIsNotNew(p, q, file, n);
    forall d | d in dependencies ensures OfAnother(env, n, s, d) {
      assert IsLoaded(p, d);
      LoadedIsNotNew(p, q, d, n);
      IsOfAnother(env, n, s, d);
    }
    IsOfAnother(env, n, s, file);
    OfNoneOfThese(env, n, s);
  }

  /** The symbol is not of this file, nor a package that the file uses. */
  predicate OfAnother(env: Env, n: string, s: Symbol, d: Id) {
    d != s.file && (s.kind == PACKAGE ==> !IsInPackage(env.descs, d, n))
  }

  lemma IsOfAnother(env: Env, n: string, s: Symbol, d: Id)
    requires d != s.file && (s.kind == PACKAGE ==> !IsInPackage(env.descs, d, n))
    ensures OfAnother(env, n, s, d)
  {
  }

  lemma OfNoneOfThese(env: Env, n: string, s: Symbol)
    requires env.enforce && OfAnother(env, n, s, env.file)
    requires forall d | d in env.dependencies :: OfAnother(env, n, s, d)
    ensures !MayUse(env, n, s)
  {
    hide IsInPackage;
  }

  lemma LoadedIsNotNew(p: State, q: State, d: Id, n: string)
    requires OwnedIn(p) && Grows(p, q) && NewAreForeign(p, q) && IsLoaded(p, d)
    requires n in q.log.now.symbols && n !in p.log.now.symbols
    ensures d != q.log.now.symbols[n].file
    ensures q.log.now.symbols[n].kind == PACKAGE ==> !IsInPackage(q.descs, d, n)
  {
    hide OwnedIn;
    if IsInPackage(q.descs, d, n) && q.descs[d].package != "" { PackageKnown(p, d, n); }
  }

  // ----- Links do not change meanwhile -----

  lemma ResolveStays(pool: Pool, p: State, q: State, file: Id, dependencies: set<Id>, name: string, relativeTo: string,
                     mode: ResolveMode)
    requires Inv(p) && Linked(pool, p, q) && Settled(pool, p, file, dependencies)
    ensures var e, f := EnvOf(pool, p, file, dependencies), EnvOf(pool, q, file, dependencies);
      && Resolve(e, name, relativeTo, mode) == Resolve(f, name, relativeTo, mode)
      && (Resolve(e, name, relativeTo, mode).Some? ==>
            SameDesc(e.descs, f.descs, Resolve(e, name, relativeTo, mode).value.file))
  {
    hide Inv, Linked, Settled, Visible, Resolve, SameFound;
    var e, f := EnvOf(pool, p, file, dependencies), EnvOf(pool, q, file, dependencies);
    SightStays(pool, p, q, file, dependencies);
    SightIsView(e, f);
    ResolveSame(e, f, name, relativeTo, mode);
    ResolveSight(e, f, name, relativeTo, mode);
  }

  lemma ResolveSight(e: Env, f: Env, name: string, relativeTo: string, mode: ResolveMode)
    requires SameSight(e, f)
    ensures Resolve(e, name, relativeTo, mode) == Resolve(f, name, relativeTo, mode)
  {
    hide Visible;
    ResolveFromSight(e, f, name, relativeTo, mode);
  }

  lemma {:induction false} ResolveFromSight(e: Env, f: Env, name: string, scope: string, mode: ResolveMode)
    requires SameSight(e, f)
    ensures ResolveFrom(e, name, scope, mode) == ResolveFrom(f, name, scope, mode)
    decreases |scope|
  {
    hide Visible, LastDot, FirstPart;
    if LastDot(scope) >= 0 { ResolveFromSight(e, f, name, Parent(scope), mode); }
  }

  lemma FieldStays(pool: Pool, p: State, q: State, file: Id, dependencies: set<Id>, f: FieldProto, fullName: string,
                   container: Option<Ref>)
    requires Inv(p) && Linked(pool, p, q) && Settled(pool, p, file, dependencies)
    ensures var e, e' := EnvOf(pool, p, file, dependencies), EnvOf(pool, q, file, dependencies);
      && (ExtendeeLinks(e, f, fullName) <==> ExtendeeLinks(e', f, fullName))
      && (TypeLinks(e, f, fullName) <==> TypeLinks(e', f, fullName))
      && (FieldLinks(e, f, fullName) <==> FieldLinks(e', f, fullName))
      && FieldKey(e, f, fullName, container) == FieldKey(e', f, fullName, container)
  {
    var e, e' := EnvOf(pool, p, file, dependencies), EnvOf(pool, q, file, dependencies);
    SightStays(pool, p, q, file, dependencies);
    SightIsView(e, e');
    hide *;
    ExtendeeSame(e, e', f, fullName, container);
    TypeSame(e, e', f, fullName);
    FieldSame(e, e', f, fullName, container);
  }

  lemma ListsStay(pool: Pool, p: State, q: State, file: Id, dependencies: set<Id>, fields: seq<FieldProto>,
                  messages: seq<MessageProto>, scope: string, isExtension: bool)
    requires Inv(p) && Linked(pool, p, q) && Settled(pool, p, file, dependencies)
    ensures var e, e' := EnvOf(pool, p, file, dependencies), EnvOf(pool, q, file, dependencies);
      && (FieldsLink(e, fields, scope) <==> FieldsLink(e', fields, scope))
      && FieldKeys(e, fields, scope, isExtension) == FieldKeys(e', fields, scope, isExtension)
      && (MessagesLink(e, messages, scope) <==> MessagesLink(e', messages, scope))
      && MessagesKeys(e, messages, scope) == MessagesKeys(e', messages, scope)
  {
    var e, e' := EnvOf(pool, p, file, dependencies), EnvOf(pool, q, file, dependencies);
    SightStays(pool, p, q, file, dependencies);
    SightIsView(e, e');
    hide *;
    FieldsSame(e, e', fields, scope, isExtension);
    MessagesSame(e, e', map[], messages, scope);
  }

  lemma MessageStays(pool: Pool, p: State, q: State, file: Id, dependencies: set<Id>, m: MessageProto, scope: string)
    requires Inv(p) && Linked(pool, p, q) && Settled(pool, p, file, dependencies)
    ensures var e, e' := EnvOf(pool, p, file, dependencies), EnvOf(pool, q, file, dependencies);
      && (MessageLinks(e, m, scope) <==> MessageLinks(e', m, scope))
      && MessageKeys(e, m, scope) == MessageKeys(e', m, scope)
  {
    var e, e' := EnvOf(pool, p, file, dependencies), EnvOf(pool, q, file, dependencies);
    SightStays(pool, p, q, file, dependencies);
    SightIsView(e, e');
    hide *;
    MessageSame(e, e', map[], m, scope);
  }

  lemma ServiceStays(pool: Pool, p: State, q: State, file: Id, dependencies: set<Id>, s: ServiceProto, scope: string)
    requires Inv(p) && Linked(pool, p, q) && Settled(pool, p, file, dependencies)
    ensures var e, e' := EnvOf(pool, p, file, dependencies), EnvOf(pool, q, file, dependencies);
      ServiceLinks(e, s, scope) <==> ServiceLinks(e', s, scope)
  {
    var e, e' := EnvOf(pool, p, file, dependencies), EnvOf(pool, q, file, dependencies);
    SightStays(pool, p, q, file, dependencies);
    SightIsView(e, e');
    hide *;
    ServiceSame(e, e', s, scope);
  }

  // ----- A build adds no nameless package -----

  lemma {:induction false} PackagesAreNamed(symbols: Symbols, name: string)
    requires PackageClean(symbols, name)
    ensures "" !in PackageNames(symbols.Keys, name)
    decreases |name|
  {
    if name !in symbols && LastDot(name) >= 0 { PackagesAreNamed(symbols, Parent(name)); }
  }

  lemma EnteredAreForeign(p: State, q: State, proto: FileProto, files: set<string>)
    requires Inv(p) && SymbolsEntered(p.log.now.symbols, q.log.now.symbols, proto, p.nextId)
    requires ContentsOk(p.log.now.symbols, files, proto)
    ensures NewAreForeign(p, q)
  {
    hide Inv, ContentsOk, NewNames, KindOf;
    NamelessIsNoPackage(p.log.now.symbols, proto, files);
    DescsBelow(p);
  }

  lemma NamelessIsNoPackage(symbols: Symbols, proto: FileProto, files: set<string>)
    requires ContentsOk(symbols, files, proto)
    ensures "" in NewNames(symbols.Keys, proto) ==> KindOf(proto, "") != PACKAGE
  {
    hide FileSteps, Clean, PackageClean, PackageNames, ImportsOk, InScope;
    if PackageOf(proto) != "" { PackagesAreNamed(symbols, PackageOf(proto)); }
    FileScoped(proto, symbols.Keys + PackagePart(symbols.Keys, proto));
    if "" in Declared(FileSteps(proto)) {
      var i :| 0 <= i < |FileSteps(proto)| && FileSteps(proto)[i].Declare? && FileSteps(proto)[i].name == "";
      assert FileSteps(proto)[i] in FileSteps(proto);
    }
  }
}
