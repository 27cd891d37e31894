/** `MergedDescriptorDatabase`: several databases searched in order, to any depth of merging. */
module MergedDatabase {
  import opened OrderedMaps
  import opened Protos
  import opened DescriptorDatabase

  datatype Database = Simple(index: Index) | Merged(sources: seq<Database>)

  /** What a database is asked for. */
  datatype Query = BySymbol(symbol: string) | ByExtension(containing: string, number: int)

  function FileByName(db: Database, name: string): Option<FileProto>
    decreases db
  {
    match db
    case Simple(index) => FindFile(index, name)
    case Merged(sources) => FirstByName(sources, name)
  }

  function FirstByName(sources: seq<Database>, name: string): Option<FileProto>
    decreases sources
  {
    if sources == [] then None
    else
      var found := FileByName(sources[0], name);
      if found.Some? then found else FirstByName(sources[1..], name)
  }

  /** A hit in source `i` is hidden when an earlier source has a file of the same name. */
  function FileFor(db: Database, q: Query): Option<FileProto>
    decreases db
  {
    match db
    case Simple(index) =>
      (match q
       case BySymbol(symbol) => FindSymbol(index.bySymbol, symbol)
       case ByExtension(containing, number) => FindExtension(index, containing, number))
    case Merged(sources) =>
      var i := FirstHit(sources, q);
      if i == |sources| then None
      else
        var found := FileFor(sources[i], q);
        if FirstByName(sources[..i], found.value.name).Some? then None else found
  }

  function FirstHit(sources: seq<Database>, q: Query): (i: nat)
    ensures i <= |sources|
    ensures forall j | 0 <= j < i :: FileFor(sources[j], q) == None
    ensures i < |sources| ==> FileFor(sources[i], q).Some?
    decreases sources
  {
    hide FileFor;
    if sources == [] || FileFor(sources[0], q).Some? then 0 else 1 + FirstHit(sources[1..], q)
  }

  ghost predicate Consistent(db: Database)
    decreases db
  {
    match db
    case Simple(index) => SelfConsistent(index)
    case Merged(sources) => forall i | 0 <= i < |sources| :: Consistent(sources[i])
  }

  /** Whatever a database returns for a symbol or an extension is the file it returns for that
      file's name, however deeply databases are merged. */
  lemma {:induction false} FoundFileIsNamedFile(db: Database, q: Query)
    requires Consistent(db) && FileFor(db, q).Some?
    ensures FileByName(db, FileFor(db, q).value.name) == FileFor(db, q)
    decreases db
  {
    match db {
      case Simple(index) => SimpleFoundIsNamed(index, q);
      case Merged(sources) =>
        var i := FirstHit(sources, q);
        var f := FileFor(sources[i], q).value;
        FoundFileIsNamedFile(sources[i], q);
        FirstByNameSplit(sources[..i], sources[i..], f.name);
        assert sources[..i] + sources[i..] == sources;
    }
  }

  lemma SimpleFoundIsNamed(index: Index, q: Query)
    requires SelfConsistent(index) && FileFor(Simple(index), q).Some?
    ensures IsFile(index, FileFor(Simple(index), q).value)
  {
    match q {
      case BySymbol(symbol) =>
        var i := FindLastLessOrEqual(index.bySymbol, symbol);
        var (k, f) := index.bySymbol[i];
        assert index.bySymbol[i] == (k, f) && HasPair(index.bySymbol, k, f);
      case ByExtension(containing, number) =>
        var i := Find(KeyLess, index.byExtension, (containing, number));
        var (k, f) := index.byExtension[i];
        assert index.byExtension[i] == (k, f) && HasPair(index.byExtension, k, f);
    }
  }

  lemma {:induction false} FirstByNameSplit(a: seq<Database>, b: seq<Database>, name: string)
    ensures FirstByName(a + b, name) == if FirstByName(a, name).Some? then FirstByName(a, name)
      else FirstByName(b, name)
  {
    if a == [] {
      assert a + b == b;
    } else {
      assert (a + b)[0] == a[0] && (a + b)[1..] == a[1..] + b;
      FirstByNameSplit(a[1..], b, name);
    }
  }

  // ----- Extension numbers -----

  /** The numbers a database gives for a type, as a set. */
  ghost function Numbers(db: Database, containing: string): set<int>
    decreases db
  {
    match db
    case Simple(index) => set n | n in AllExtensionNumbers(index, containing)
    case Merged(sources) => set i, n | 0 <= i < |sources| && n in Numbers(sources[i], containing) :: n
  }

  predicate Increasing(s: seq<int>) {
    forall i, j | 0 <= i < j < |s| :: s[i] < s[j]
  }

  /** Insertion into a `std::set`. */
  method InsertSorted(s: seq<int>, n: int) returns (r: seq<int>)
    requires Increasing(s)
    ensures Increasing(r) && forall x :: x in r <==> x in s || x == n
  {
    var i := 0;
    while i < |s| && s[i] < n
      invariant i <= |s| && forall j | 0 <= j < i :: s[j] < n
    {
      i := i + 1;
    }
    if i < |s| && s[i] == n { return s; }
    r := s[..i] + [n] + s[i..];
    forall a, b | 0 <= a < b < |r| ensures r[a] < r[b] {
      assert a < i ==> r[a] == s[a];
      assert b > i ==> r[b] == s[b - 1] && s[i] <= s[b - 1];
    }
    forall x ensures x in r <==> x in s || x == n {
      assert s == s[..i] + s[i..];
    }
  }

  /** `FindAllExtensionNumbers`: an increasing, duplicate-free list of the union over the sources. */
  method FindAllExtensionNumbers(db: Database, containing: string) returns (success: bool, output: seq<int>)
    requires Consistent(db)
    ensures Increasing(output)
    ensures forall n :: n in output <==> n in Numbers(db, containing)
    ensures success <==> output != []
    decreases db
  {
    match db {
      case Simple(index) =>
        output := AllExtensionNumbers(index, containing);
        AllExtensionNumbersExact(index, containing);
        success := output != [];
      case Merged(sources) =>
        var merged: seq<int> := [];
        success := false;
        for i := 0 to |sources|
          invariant Increasing(merged)
          invariant forall n :: n in merged <==> exists k :: 0 <= k < i && n in Numbers(sources[k], containing)
          invariant success <==> merged != []
        {
          var found, results := FindAllExtensionNumbers(sources[i], containing);
          ghost var before := merged;
          for j := 0 to |results|
            invariant Increasing(merged)
            invariant forall n :: n in merged <==> n in before || n in results[..j]
          {
            merged := InsertSorted(merged, results[j]);
            assert results[..j + 1] == results[..j] + [results[j]];
          }
          assert results[..|results|] == results;
          if found { success := true; }
          assert forall n :: n in merged <==> n in before || n in results;
          NonEmptyUnion(before, results, merged);
        }
        output := merged;
    }
  }

  lemma NonEmptyUnion(a: seq<int>, b: seq<int>, union: seq<int>)
    requires forall n :: n in union <==> n in a || n in b
    ensures union != [] <==> a != [] || b != []
  {
    if union != [] { var x := union[0]; assert x in union; }
    if a != [] { var x := a[0]; assert x in a; }
    if b != [] { var x := b[0]; assert x in b; }
  }

  // ----- The merged database -----

  lemma FileForHit(sources: seq<Database>, q: Query)
    ensures var i := FirstHit(sources, q);
      FileFor(Merged(sources), q) ==
        if i == |sources| then None
        else
          var found := FileFor(sources[i], q);
          if FirstByName(sources[..i], found.value.name).Some? then None else found
  {
    hide FirstHit, FirstByName;
  }

  lemma FirstByNameStep(sources: seq<Database>, j: nat, i: nat, name: string)
    requires j < i <= |sources|
    ensures var found := FileByName(sources[j], name);
      FirstByName(sources[j..i], name) == if found.Some? then found else FirstByName(sources[j + 1..i], name)
  {
    hide FileByName;
    assert sources[j..i][1..] == sources[j + 1..i];
  }

  lemma NoneByName(sources: seq<Database>, name: string)
    requires sources == []
    ensures FirstByName(sources, name).None?
  {
  }

  class MergedDescriptorDatabase {
    const sources: seq<Database>

    constructor (sources: seq<Database>)
      ensures this.sources == sources
    {
      this.sources := sources;
    }

    method FindFileByName(filename: string) returns (output: Option<FileProto>)
      ensures output == FileByName(Merged(sources), filename)
    {
      for i := 0 to |sources|
        invariant FirstByName(sources, filename) == FirstByName(sources[i..], filename)
      {
        output := FileByName(sources[i], filename);
        assert sources[i..][1..] == sources[i + 1..];
        if output.Some? { return; }
      }
      return None;
    }

    method FindFileContaining(q: Query) returns (output: Option<FileProto>)
      ensures output == FileFor(Merged(sources), q)
    {
      hide FileFor, FileByName, FirstByName;
      ghost var hit := FirstHit(sources, q);
      FileForHit(sources, q);
      for i := 0 to |sources|
        invariant i <= hit
      {
        output := FileFor(sources[i], q);
        if output.Some? {
          var name := output.value.name;
          for j := 0 to i
            invariant FirstByName(sources[..i], name) == FirstByName(sources[j..i], name)
          {
            var temp := FileByName(sources[j], name);
            FirstByNameStep(sources, j, i, name);
            if temp.Some? { return None; }
          }
          NoneByName(sources[i..i], name);
          return;
        }
      }
      return None;
    }
  }
}
