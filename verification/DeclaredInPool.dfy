/** What the declarations of a file mean for the pool: when its contents are accepted, and what a build puts there. */
module DeclaredInPool {
  import opened Names
  import opened OrderedMaps
  import opened Protos
  import opened PoolTables
  import opened SymbolOwnership
  import opened ScopeLookup
  import opened PoolInvariant
  import opened BuildConditions
  import opened Declarations

  // ----- Packages -----

  /** A dotted prefix of the package, the package itself included, that is longer than every one that is known. */
  ghost predicate NewPackage(names: set<string>, package: string, n: string) {
    Covers(n, package) && forall q | q in names && Covers(q, package) :: |q| < |n|
  }

  lemma {:induction false} PackageNamesExactly(names: set<string>, package: string, n: string)
    ensures n in PackageNames(names, package) <==> NewPackage(names, package, n)
    decreases |package|
  {
    hide NewPackage, Covers;
    if package in names {
      KnownIsLongest(names, package);
    } else if LastDot(package) >= 0 {
      PackageNamesExactly(names, Parent(package), n);
      UpOnePackage(names, package, n);
    } else {
      NoParent(names, package);
    }
  }

  lemma UpOnePackage(names: set<string>, package: string, n: string)
    requires package !in names && LastDot(package) >= 0
    ensures NewPackage(names, package, n) <==> n == package || NewPackage(names, Parent(package), n)
  {
    var parent := Parent(package);
    if NewPackage(names, package, n) && n != package {
      CoversParent(n, package);
      forall q | q in names && Covers(q, parent) ensures |q| < |n| { CoversTransitive(q, parent, package); }
    }
    if n == package || NewPackage(names, parent, n) {
      if n != package { CoversTransitive(n, parent, package); }
      forall q | q in names && Covers(q, package) ensures |q| < |n| {
        CoversParent(q, package);
        if n == package { assert |q| <= |parent|; }
      }
    }
  }

  /** The last component of a dotted name. */
  function LastPart(name: string): string {
    name[LastDot(name) + 1..]
  }

  /** Each new package is well-named, and the longest known prefix, if there is one, is a package. */
  ghost predicate PackageFree(symbols: Symbols, package: string) {
    && (forall n | NewPackage(symbols.Keys, package, n) :: ValidIdentifier(LastPart(n)))
    && forall q | Longest(symbols.Keys, package, q) :: symbols[q].kind == PACKAGE
  }

  ghost predicate Longest(names: set<string>, package: string, q: string) {
    q in names && Covers(q, package) && forall other | other in names && Covers(other, package) :: |other| <= |q|
  }

  lemma {:induction false} PackageCleanExactly(symbols: Symbols, package: string)
    ensures PackageClean(symbols, package) <==> PackageFree(symbols, package)
    decreases |package|
  {
    hide ValidIdentifier, PackageFree, LastDot;
    if package in symbols {
      FreeWhenKnown(symbols, package);
    } else if LastDot(package) >= 0 {
      PackageCleanExactly(symbols, Parent(package));
      FreeWhenParentIs(symbols, package);
    } else {
      FreeAtTop(symbols, package);
    }
  }

  lemma FreeWhenKnown(symbols: Symbols, package: string)
    requires package in symbols
    ensures PackageFree(symbols, package) <==> symbols[package].kind == PACKAGE
  {
    hide ValidIdentifier, NewPackage, Longest;
    KnownIsLongest(symbols.Keys, package);
  }

  lemma FreeAtTop(symbols: Symbols, package: string)
    requires package !in symbols && LastDot(package) < 0
    ensures PackageFree(symbols, package) <==> ValidIdentifier(package[LastDot(package) + 1..])
  {
    hide ValidIdentifier, NewPackage, Longest;
    NoParent(symbols.Keys, package);
    assert NewPackage(symbols.Keys, package, package);
    assert LastPart(package) == package[LastDot(package) + 1..];
  }

  lemma FreeWhenParentIs(symbols: Symbols, package: string)
    requires package !in symbols && LastDot(package) >= 0
    ensures PackageFree(symbols, package)
       <==> ValidIdentifier(package[LastDot(package) + 1..]) && PackageFree(symbols, Parent(package))
  {
    hide ValidIdentifier, NewPackage, Longest, LastDot, Parent;
    var names, parent := symbols.Keys, Parent(package);
    forall q ensures Longest(names, package, q) <==> Longest(names, parent, q) { SameLongest(names, package, q); }
    forall n ensures NewPackage(names, package, n) <==> n == package || NewPackage(names, parent, n) {
      UpOnePackage(names, package, n);
    }
    assert NewPackage(names, package, package);
    assert LastPart(package) == package[LastDot(package) + 1..];
  }

  lemma KnownIsLongest(names: set<string>, package: string)
    requires package in names
    ensures forall n :: !NewPackage(names, package, n)
    ensures forall q :: Longest(names, package, q) <==> q == package
  {
    forall q | Longest(names, package, q) ensures q == package {
      if q != package { CoversParent(q, package); }
    }
  }

  lemma NoParent(names: set<string>, package: string)
    requires package !in names && LastDot(package) < 0
    ensures forall n :: NewPackage(names, package, n) <==> n == package
    ensures forall q :: !Longest(names, package, q)
  {
    forall q | Covers(q, package) && q != package ensures false { CoversParent(q, package); }
  }

  lemma SameLongest(names: set<string>, package: string, q: string)
    requires package !in names && LastDot(package) >= 0
    ensures Longest(names, package, q) <==> Longest(names, Parent(package), q)
  {
    var parent := Parent(package);
    forall other | other in names ensures Covers(other, package) <==> Covers(other, parent) {
      if Covers(other, package) { CoversParent(other, package); }
      if Covers(other, parent) { CoversTransitive(other, parent, package); }
    }
  }

  // ----- When the contents of a file are accepted -----

  /** Each import is there and named once, and the public ones are among them. */
  predicate ImportsThere(files: set<string>, proto: FileProto) {
    && (forall i | 0 <= i < |proto.dependencies| :: proto.dependencies[i] in files)
    && (forall i, j | 0 <= i < j < |proto.dependencies| :: proto.dependencies[i] != proto.dependencies[j])
    && forall i | 0 <= i < |proto.publicDependencies| ::
         0 <= proto.publicDependencies[i] < |proto.dependencies|
  }

  /** The names that are taken when the declarations of a file are entered. */
  ghost predicate Taken(symbols: Symbols, proto: FileProto, n: string) {
    || n in symbols
    || (proto.package.Some? && proto.package.value != "" && NewPackage(symbols.Keys, proto.package.value, n))
  }

  /** Everything in the file is well-formed, and no name is one that is taken or that stands elsewhere in the file. */
  ghost predicate NamesFree(symbols: Symbols, proto: FileProto) {
    && (forall at | InFile(proto, at) :: SoundAt(proto, at) && !Taken(symbols, proto, NameAt(proto, at)))
    && forall a, b | InFile(proto, a) && InFile(proto, b) && a != b :: NameAt(proto, a) != NameAt(proto, b)
  }

  /** A file's contents are accepted if and only if its package is free, its imports are there and its names free. */
  lemma ContentsExactly(symbols: Symbols, files: set<string>, proto: FileProto)
    ensures ContentsOk(symbols, files, proto) <==>
      && (PackageOf(proto) != "" ==> PackageFree(symbols, PackageOf(proto)))
      && ImportsThere(files, proto) && NamesFree(symbols, proto)
  {
    hide Clean, FileSteps, PackageClean, PackageFree, InFile, NameAt, SoundAt, NewPackage;
    var package := PackageOf(proto);
    var names := symbols.Keys + (if package == "" then {} else PackageNames(symbols.Keys, package));
    PackageCleanExactly(symbols, package);
    CleanExactly(names, proto);
    forall n ensures n in names <==> Taken(symbols, proto, n) { PackageNamesExactly(symbols.Keys, package, n); }
  }

  /** So a file two positions of which have one full name cannot be built, nor one with a name that is in the pool. */
  lemma OneNameRefused(pool: Pool, p: State, proto: FileProto, a: Position, b: Position)
    requires InFile(proto, a) && InFile(proto, b)
    requires (a != b && NameAt(proto, a) == NameAt(proto, b)) || NameAt(proto, a) in p.log.now.symbols
    ensures !Buildable(pool, p, proto)
  {
    hide ContentsOk, FileLinks, FileKeys, PackageFree, InFile, NameAt, SoundAt;
    ContentsExactly(p.log.now.symbols, p.log.now.files.Keys + {proto.name}, proto);
  }

  // ----- What a build puts into the pool -----

  /** A file in the pool has what stands at each of its positions in the tables, as what it is and as its own. */
  lemma PositionIsThere(s: State, proto: FileProto, file: Id, at: Position)
    requires Built(s, proto, file) && InFile(proto, at)
    ensures var n := NameAt(proto, at);
      && n in s.log.now.symbols && s.log.now.symbols[n].kind == KindAt(at.place) && s.log.now.symbols[n].file == file
  {
    hide FileSteps, InFile, NameAt;
    DeclaredExactly(proto, NameAt(proto, at), KindAt(at.place));
  }

  /**
   * A build adds the names of the positions of the file and the packages that were not known, and nothing else; all of
   * them are of the file, each of the kind it is declared as.
   */
  lemma AddedExactly(pool: Pool, p: State, q: State, proto: FileProto, n: string)
    requires Buildable(pool, p, proto) && JustBuilt(pool, p, q, proto)
    ensures n in q.log.now.symbols <==>
      Taken(p.log.now.symbols, proto, n) || exists at :: InFile(proto, at) && NameAt(proto, at) == n
    ensures n in p.log.now.symbols ==> q.log.now.symbols[n] == p.log.now.symbols[n]
    ensures n in q.log.now.symbols && n !in p.log.now.symbols ==>
      && q.log.now.symbols[n].file == p.nextId && q.log.now.symbols[n].name == n
      && (forall at | InFile(proto, at) && NameAt(proto, at) == n :: q.log.now.symbols[n].kind == KindAt(at.place))
      && (Taken(p.log.now.symbols, proto, n) ==> q.log.now.symbols[n].kind == PACKAGE)
  {
    hide FileSteps, InFile, NameAt, SoundAt, ContentsOk, FileLinks, FileKeys, PackageFree, NewPackage, EntryDesc,
      ExtensionsAfter;
    var before := p.log.now.symbols;
    ContentsExactly(before, p.log.now.files.Keys + {proto.name}, proto);
    PackageNamesExactly(before.Keys, PackageOf(proto), n);
    DeclaresName(proto, n);
    forall at | InFile(proto, at) && NameAt(proto, at) == n ensures KindOf(proto, n) == KindAt(at.place) {
      OnlyKind(before, proto, at);
    }
  }

  lemma DeclaresName(proto: FileProto, n: string)
    ensures n in Declared(FileSteps(proto)) <==> exists at :: InFile(proto, at) && NameAt(proto, at) == n
    ensures n !in Declared(FileSteps(proto)) ==> KindOf(proto, n) == PACKAGE
  {
    hide FileSteps, InFile, NameAt;
    if n in Declared(FileSteps(proto)) {
      var s :| s in FileSteps(proto) && s.Declare? && s.name == n;
      DeclaredExactly(proto, n, s.kind);
    }
    if at :| InFile(proto, at) && NameAt(proto, at) == n {
      DeclaredExactly(proto, n, KindAt(at.place));
      assert Declare(n, KindAt(at.place)) in FileSteps(proto);
    }
  }

  /** With one position a name, there is no doubt of which kind it is. */
  lemma OnlyKind(symbols: Symbols, proto: FileProto, at: Position)
    requires InFile(proto, at)
    requires forall a, b | InFile(proto, a) && InFile(proto, b) && a != b :: NameAt(proto, a) != NameAt(proto, b)
    ensures KindOf(proto, NameAt(proto, at)) == KindAt(at.place)
  {
    hide FileSteps, InFile, NameAt;
    var n := NameAt(proto, at);
    DeclaredExactly(proto, n, KindAt(at.place));
    assert Declare(n, KindAt(at.place)) in FileSteps(proto);
    forall d | d in FileSteps(proto) && d.Declare? && d.name == n ensures d.kind == KindAt(at.place) {
      DeclaredExactly(proto, n, d.kind);
    }
  }
}
