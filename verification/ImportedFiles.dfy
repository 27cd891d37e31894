/** Which files a new file may use, by the names in its imports and in the public imports of those. */
module ImportedFiles {
  import opened Names
  import opened OrderedMaps
  import opened Protos
  import opened PoolTables
  import opened SymbolOwnership
  import opened ScopeLookup
  import opened PublicImports
  import opened PoolInvariant
  import opened BuildConditions

  // ----- Files by name -----

  predicate Known(p: State, proto: FileProto, name: string) {
    name == proto.name || (name in p.log.now.files && p.log.now.files[name].file in p.descs)
  }

  /** The file of that name: the new one, or one in the pool. */
  function ProtoNamed(p: State, proto: FileProto, name: string): FileProto
    requires Known(p, proto, name)
  {
    if name == proto.name then proto else p.descs[p.log.now.files[name].file].proto
  }

  function IdNamed(p: State, proto: FileProto, name: string): Id
    requires Known(p, proto, name)
  {
    if name == proto.name then p.nextId else p.log.now.files[name].file
  }

  /** A file of name `a` imports `b` publicly. */
  ghost predicate Reexports(p: State, proto: FileProto, a: string, b: string) {
    Known(p, proto, a) &&
    var d := ProtoNamed(p, proto, a);
    exists k :: 0 <= k < |d.publicDependencies| && 0 <= d.publicDependencies[k] < |d.dependencies|
                && d.dependencies[d.publicDependencies[k]] == b
  }

  ghost predicate Chain(p: State, proto: FileProto, names: seq<string>) {
    names != [] && forall i | 0 <= i < |names| - 1 :: Reexports(p, proto, names[i], names[i + 1])
  }

  /** Some import of the file leads there, through public imports alone. */
  ghost predicate Imported(p: State, proto: FileProto, name: string) {
    exists names :: Chain(p, proto, names) && names[0] in proto.dependencies && names[|names| - 1] == name
  }

  /** A pool at rest, and a file of a new name all of whose imports are there. */
  ghost predicate ReadyFor(p: State, proto: FileProto) {
    && Inv(p) && OwnedIn(p) && proto.name !in p.log.now.files
    && ImportsOk(p.log.now.files.Keys + {proto.name}, proto)
  }

  function DescsWith(p: State, proto: FileProto): Descs {
    p.descs[p.nextId := EntryDesc(p.log.now.files, proto, p.nextId)]
  }

  // ----- Descriptors and protos -----

  lemma {:induction false} AllIndexesValid(n: nat, indexes: seq<int>)
    requires IndexesOk(n, indexes)
    ensures |ValidIndexes(n, indexes)| == |indexes|
    ensures forall k | 0 <= k < |indexes| :: ValidIndexes(n, indexes)[k] == indexes[k]
    decreases |indexes|
  {
    if indexes != [] { AllIndexesValid(n, indexes[..|indexes| - 1]); }
  }

  /** What the descriptor of a file says of its imports is what the file says. */
  lemma DescOf(p: State, proto: FileProto, name: string)
    requires ReadyFor(p, proto) && Known(p, proto, name)
    ensures IdNamed(p, proto, name) in DescsWith(p, proto)
    ensures var d, q := DescsWith(p, proto)[IdNamed(p, proto, name)], ProtoNamed(p, proto, name);
      && d.proto == q && d.name == name && d.package == PackageOf(q)
      && |d.dependencies| == |q.dependencies| && IndexesOk(|q.dependencies|, q.publicDependencies)
      && d.publicDependencies == ValidIndexes(|q.dependencies|, q.publicDependencies)
      && forall i | 0 <= i < |q.dependencies| ::
           Known(p, proto, q.dependencies[i]) && d.dependencies[i] == Some(IdNamed(p, proto, q.dependencies[i]))
  {
    hide ValidIndexes, Declares, Clean, FileSteps, MemoryOk, SymbolsOk, ExtensionsOk, Owned;
    if name == proto.name {
      forall i | 0 <= i < |proto.dependencies| ensures Known(p, proto, proto.dependencies[i]) {
        if proto.dependencies[i] != proto.name { NamesKnown(p, proto.dependencies[i]); }
      }
    } else {
      DescsBelow(p);
      FileIsWhole(p, name);
      var q := p.descs[p.log.now.files[name].file].proto;
      forall i | 0 <= i < |q.dependencies| ensures Known(p, proto, q.dependencies[i]) {
        NamesKnown(p, q.dependencies[i]);
      }
    }
  }

  lemma NamesKnown(p: State, name: string)
    requires Inv(p) && name in p.log.now.files
    ensures p.log.now.files[name].file in p.descs && p.descs[p.log.now.files[name].file].name == name
  {
  }

  lemma FileIsWhole(p: State, name: string)
    requires Inv(p) && OwnedIn(p) && name in p.log.now.files
    ensures var file := p.log.now.files[name].file;
      file in p.descs && p.descs[file].name == name && Built(p, p.descs[file].proto, file)
  {
    NamesKnown(p, name);
  }

  lemma OneName(p: State, proto: FileProto, a: string, b: string)
    requires Inv(p) && Known(p, proto, a) && Known(p, proto, b) && IdNamed(p, proto, a) == IdNamed(p, proto, b)
    ensures a == b
  {
    DescsBelow(p);
    if a in p.log.now.files { NamesKnown(p, a); }
    if b in p.log.now.files { NamesKnown(p, b); }
  }

  /** The public edges out of a file lead to the files it imports publicly. */
  lemma EdgeIsReexport(p: State, proto: FileProto, a: string, b: Id)
    requires ReadyFor(p, proto) && Known(p, proto, a)
    ensures HasEdge(DescsWith(p, proto), IdNamed(p, proto, a), b)
       <==> exists n :: Reexports(p, proto, a, n) && Known(p, proto, n) && IdNamed(p, proto, n) == b
  {
    hide ReadyFor, Known, ProtoNamed, IdNamed, ValidIndexes, DescsWith;
    DescOf(p, proto, a);
    var d, q := DescsWith(p, proto)[IdNamed(p, proto, a)], ProtoNamed(p, proto, a);
    AllIndexesValid(|q.dependencies|, q.publicDependencies);
    if HasEdge(DescsWith(p, proto), IdNamed(p, proto, a), b) {
      var k :| 0 <= k < |d.publicDependencies| && PublicEdge(d, k) == Some(b);
      var n := q.dependencies[q.publicDependencies[k]];
      assert Reexports(p, proto, a, n) && Known(p, proto, n);
    }
    if n :| Reexports(p, proto, a, n) && Known(p, proto, n) && IdNamed(p, proto, n) == b {
      var k :| 0 <= k < |q.publicDependencies| && 0 <= q.publicDependencies[k] < |q.dependencies|
               && q.dependencies[q.publicDependencies[k]] == n;
      assert PublicEdge(d, k) == Some(b);
    }
  }

  lemma ReexportedIsKnown(p: State, proto: FileProto, a: string, b: string)
    requires ReadyFor(p, proto) && Reexports(p, proto, a, b)
    ensures Known(p, proto, b)
  {
    hide ReadyFor, ProtoNamed, IdNamed, ValidIndexes, DescsWith;
    DescOf(p, proto, a);
  }

  lemma {:induction false} PathIsChain(p: State, proto: FileProto, path: seq<Id>, a: string)
    returns (names: seq<string>)
    requires ReadyFor(p, proto) && Known(p, proto, a)
    requires Path(DescsWith(p, proto), path) && path[0] == IdNamed(p, proto, a)
    ensures Chain(p, proto, names) && names[0] == a && Known(p, proto, names[|names| - 1])
    ensures IdNamed(p, proto, names[|names| - 1]) == path[|path| - 1]
    decreases |path|
  {
    hide ReadyFor, Known, IdNamed, Reexports, HasEdge, DescsWith;
    names := [a];
    if |path| > 1 {
      assert HasEdge(DescsWith(p, proto), path[0], path[1]);
      EdgeIsReexport(p, proto, a, path[1]);
      var n :| Reexports(p, proto, a, n) && Known(p, proto, n) && IdNamed(p, proto, n) == path[1];
      forall i | 0 <= i < |path[1..]| - 1 ensures HasEdge(DescsWith(p, proto), path[1..][i], path[1..][i + 1]) {
        assert HasEdge(DescsWith(p, proto), path[i + 1], path[i + 2]);
      }
      var rest := PathIsChain(p, proto, path[1..], n);
      names := [a] + rest;
      forall i | 0 <= i < |names| - 1 ensures Reexports(p, proto, names[i], names[i + 1]) {
        if i > 0 { assert names[i] == rest[i - 1] && names[i + 1] == rest[i]; }
      }
    }
  }

  lemma {:induction false} ChainIsPath(p: State, proto: FileProto, names: seq<string>)
    requires ReadyFor(p, proto) && Chain(p, proto, names) && Known(p, proto, names[0])
    ensures Known(p, proto, names[|names| - 1])
    ensures Reaches(DescsWith(p, proto), IdNamed(p, proto, names[0]), IdNamed(p, proto, names[|names| - 1]))
    decreases |names|
  {
    hide ReadyFor, Known, IdNamed, Reexports, HasEdge, DescsWith, Reaches;
    if |names| == 1 {
      ReachesSelf(DescsWith(p, proto), IdNamed(p, proto, names[0]));
    } else {
      assert Reexports(p, proto, names[0], names[1]);
      ReexportedIsKnown(p, proto, names[0], names[1]);
      EdgeIsReexport(p, proto, names[0], IdNamed(p, proto, names[1]));
      forall i | 0 <= i < |names[1..]| - 1 ensures Reexports(p, proto, names[1..][i], names[1..][i + 1]) {
        assert Reexports(p, proto, names[i + 1], names[i + 2]);
      }
      ChainIsPath(p, proto, names[1..]);
      ReachesEdge(DescsWith(p, proto), IdNamed(p, proto, names[0]), IdNamed(p, proto, names[1]),
                  IdNamed(p, proto, names[|names| - 1]));
    }
  }

  /** A file may be used if and only if it is the file of an import, or one that those import publicly, to any depth. */
  lemma UsableExactly(pool: Pool, p: State, proto: FileProto, id: Id)
    requires ReadyFor(p, proto)
    ensures id in EntryEnv(pool, p, proto).dependencies
       <==> exists n :: Imported(p, proto, n) && Known(p, proto, n) && IdNamed(p, proto, n) == id
  {
    hide ReadyFor, Known, IdNamed, ProtoNamed, Reexports, HasEdge, EntryDesc, ValidIndexes, EntrySymbols;
    var descs := DescsWith(p, proto);
    DescOf(p, proto, proto.name) by { ItselfKnown(p, proto); }
    ItselfKnown(p, proto);
    var d := descs[p.nextId];
    if id in EntryEnv(pool, p, proto).dependencies {
      var i, a :| 0 <= i < |d.dependencies| && d.dependencies[i] == Some(a) && Reaches(descs, a, id);
      var path :| Path(descs, path) && path[0] == a && path[|path| - 1] == id;
      var names := PathIsChain(p, proto, path, proto.dependencies[i]);
      assert Imported(p, proto, names[|names| - 1]);
    }
    if n :| Imported(p, proto, n) && Known(p, proto, n) && IdNamed(p, proto, n) == id {
      var names :| Chain(p, proto, names) && names[0] in proto.dependencies && names[|names| - 1] == n;
      var i :| 0 <= i < |proto.dependencies| && proto.dependencies[i] == names[0];
      ChainIsPath(p, proto, names);
      DescOf(p, proto, n);
      assert ReachedFrom(descs, d.dependencies, id) by { assert d.dependencies[i].Some?; }
    }
  }

  lemma ItselfKnown(p: State, proto: FileProto)
    ensures Known(p, proto, proto.name) && IdNamed(p, proto, proto.name) == p.nextId
    ensures ProtoNamed(p, proto, proto.name) == proto
  {
  }
}
