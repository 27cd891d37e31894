/** The index of a descriptor database: files by name, by symbol prefix and by extension number. */
module DescriptorDatabase {
  import opened Names
  import opened OrderedMaps
  import opened Protos

  type Symbols = seq<(string, FileProto)>

  type ExtensionKey = (string, int)

  type Extensions = seq<(ExtensionKey, FileProto)>

  predicate KeyLess(a: ExtensionKey, b: ExtensionKey) {
    Less(a.0, b.0) || (a.0 == b.0 && a.1 < b.1)
  }

  lemma SymbolOrder()
    ensures StrictOrder(Less)
  {
    forall a { LessIrreflexive(a); }
    forall a, b, c | Less(a, b) && Less(b, c) ensures Less(a, c) { LessTransitive(a, b, c); }
    forall a, b ensures a == b || Less(a, b) || Less(b, a) { LessTotal(a, b); }
  }

  lemma ExtensionOrder()
    ensures StrictOrder(KeyLess)
  {
    SymbolOrder();
    forall a: ExtensionKey, b: ExtensionKey, c: ExtensionKey | KeyLess(a, b) && KeyLess(b, c) ensures KeyLess(a, c) {
      if Less(a.0, b.0) && Less(b.0, c.0) { LessTransitive(a.0, b.0, c.0); }
    }
    forall a: ExtensionKey, b: ExtensionKey ensures a == b || KeyLess(a, b) || KeyLess(b, a) { LessTotal(a.0, b.0); }
  }

  // ----- Prefix lookup -----

  /** `upper_bound` and one step back, except at `begin()`: there the position keeps a key that is
      greater than `name` (or is `end()` of an empty map). */
  function FindLastLessOrEqual(s: Symbols, name: string): (i: nat)
    ensures i <= |s|
  {
    var i := UpperBound(Less, s, name);
    if i != 0 then i - 1 else i
  }

  function FindSymbol(s: Symbols, name: string): Option<FileProto> {
    var i := FindLastLessOrEqual(s, name);
    if i != |s| && Covers(s[i].0, name) then Some(s[i].1) else None
  }

  /** No key is a dotted prefix of another. */
  ghost predicate Antichain(s: Symbols) {
    forall a, b | HasKey(s, a) && HasKey(s, b) && a != b :: !Covers(a, b)
  }

  ghost predicate ValidKeys(s: Symbols) {
    forall a | HasKey(s, a) :: ValidSymbol(a)
  }

  ghost predicate Valid(s: Symbols) {
    Sorted(Less, s) && ValidKeys(s) && Antichain(s)
  }

  /** The one-step lookup returns `v` exactly when some key with value `v` is `name` or a dotted prefix of it. */
  lemma FindSymbolCorrect(s: Symbols, name: string, v: FileProto)
    requires Valid(s)
    ensures FindSymbol(s, name) == Some(v) <==> exists k :: HasPair(s, k, v) && Covers(k, name)
  {
    var at := FindLastLessOrEqual(s, name);
    if FindSymbol(s, name) == Some(v) { assert s[at] == (s[at].0, v) && HasPair(s, s[at].0, v); }
    if k :| HasPair(s, k, v) && Covers(k, name) {
      var i :| 0 <= i < |s| && s[i] == (k, v);
      MatchIsLastLessOrEqual(s, name, i);
    }
  }

  /** Step (1) of the lookup lands on the match when there is one. */
  lemma MatchIsLastLessOrEqual(s: Symbols, name: string, i: nat)
    requires Valid(s) && i < |s| && Covers(s[i].0, name)
    ensures FindLastLessOrEqual(s, name) == i
  {
    hide Less, Covers, ValidKeys, Antichain;
    if s[i].0 != name { CoversIsLess(s[i].0, name); }
    var up := UpperBound(Less, s, name);
    if up <= i { GreaterIsNotCovered(name, s[up].0, s[i].0); }
    if i + 1 < |s| { AfterMatchIsGreater(s, name, i); }
  }

  /** A key at or after one that is greater than the name is greater too. */
  lemma GreaterIsNotCovered(name: string, at: string, k: string)
    requires Less(name, at) && (at == k || Less(at, k))
    ensures k != name && !Less(k, name)
  {
    if at != k { LessTransitive(name, at, k); }
    LessIrreflexive(name);
    if Less(k, name) { LessTransitive(name, k, name); }
  }

  /** The key after a match is greater than the name: in between, it would be covered by the match. */
  lemma AfterMatchIsGreater(s: Symbols, name: string, i: nat)
    requires Valid(s) && i + 1 < |s| && Covers(s[i].0, name)
    ensures Less(name, s[i + 1].0)
  {
    var k, next := s[i].0, s[i + 1].0;
    assert HasKey(s, k) && HasKey(s, next) && Less(k, next);
    LessIrreflexive(k);
    assert !Covers(k, next);
    LessTotal(next, name);
    if k != name && (next == name || Less(next, name)) {
      BetweenIsCovered(k, next, name);
      assert false;
    }
  }

  /** The key that matches a name is unique, so the result does not depend on which match is meant. */
  lemma MatchIsUnique(s: Symbols, name: string, i: nat, j: nat)
    requires Valid(s) && i < |s| && j < |s| && Covers(s[i].0, name) && Covers(s[j].0, name)
    ensures i == j
  {
    MatchIsLastLessOrEqual(s, name, i);
    MatchIsLastLessOrEqual(s, name, j);
  }

  // ----- Adding a symbol -----

  function WithSymbol(s: Symbols, name: string, v: FileProto): (bool, Symbols) {
    if !ValidSymbol(name) then (false, s)
    else
      var i := FindLastLessOrEqual(s, name);
      if i == |s| then (true, Insert(Less, s, name, v))
      else if Covers(s[i].0, name) then (false, s)
      else if i + 1 != |s| && Covers(name, s[i + 1].0) then (false, s)
      else (true, Insert(Less, s, name, v))
  }

  /** Some key is a dotted prefix of `name`, or `name` of it. */
  ghost predicate Conflict(s: Symbols, name: string) {
    exists i :: 0 <= i < |s| && (Covers(s[i].0, name) || Covers(name, s[i].0))
  }

  /** The case `AddSymbol` gets wrong: the name sorts before every key, so `begin()` is the key that
      is stepped over, and that key alone is a sub-symbol of the name. */
  predicate SkipsBegin(s: Symbols, name: string) {
    && s != [] && Less(name, s[0].0) && Covers(name, s[0].0)
    && (|s| == 1 || !Covers(name, s[1].0))
  }

  /** What `AddSymbol` does to a valid map, for every name. */
  lemma WithSymbolExact(s: Symbols, name: string, v: FileProto)
    requires Valid(s)
    ensures var (ok, t) := WithSymbol(s, name, v);
      && (ok <==> ValidSymbol(name) && (!Conflict(s, name) || SkipsBegin(s, name)))
      && (!ok ==> t == s)
      && (ok ==> forall x, y :: HasPair(t, x, y) <==> (x, y) == (name, v) || HasPair(s, x, y))
      && (Valid(t) <==> !(ok && SkipsBegin(s, name)))
  {
    SymbolOrder();
    var (ok, t) := WithSymbol(s, name, v);
    if ValidSymbol(name) {
      AcceptedExactly(s, name, v);
      if ok {
        AcceptedIsAbsent(s, name, v);
        forall x, y { InsertMembers(Less, s, name, v, x, y); }
        InsertKeepsValid(s, name, v);
      }
    }
  }

  lemma AcceptedIsAbsent(s: Symbols, name: string, v: FileProto)
    requires Valid(s) && WithSymbol(s, name, v).0
    ensures Find(Less, s, name) == |s|
  {
    var i := Find(Less, s, name);
    if i < |s| { MatchIsLastLessOrEqual(s, name, i); }
  }

  lemma AcceptedExactly(s: Symbols, name: string, v: FileProto)
    requires Valid(s) && ValidSymbol(name)
    ensures WithSymbol(s, name, v).0 <==> !Conflict(s, name) || SkipsBegin(s, name)
  {
    assert Sorted(Less, s);
    hide Valid, Sorted, Less, Covers;
    var up := UpperBound(Less, s, name);
    var at := FindLastLessOrEqual(s, name);
    if s != [] {
      LessIrreflexive(name);
      if i :| 0 <= i < |s| && Covers(s[i].0, name) {
        MatchIsLastLessOrEqual(s, name, i);
        if s[i].0 != name { CoversIsLess(s[i].0, name); }
        if Less(name, s[0].0) { LaterIsGreater(s, name, i); }
      } else {
        if i :| 0 <= i < |s| && Covers(name, s[i].0) {
          assert s[i].0 != name;
          CoversIsLess(name, s[i].0);
          assert up <= i;
          FirstGreaterIsCovered(s, name, up, i);
          if up == 0 && 1 < |s| && 1 <= i {
            LaterIsGreater(s, name, 1);
            FirstGreaterIsCovered(s, name, 1, i);
          }
        }
        if at == up == 0 && 1 < |s| && Covers(name, s[1].0) { FirstGreaterIsCovered(s, name, 0, 1); }
      }
    }
  }

  lemma LaterIsGreater(s: Symbols, name: string, i: nat)
    requires Sorted(Less, s) && i < |s| && Less(name, s[0].0)
    ensures Less(name, s[i].0) && !Less(s[i].0, name) && s[i].0 != name
  {
    LessIrreflexive(name);
    if i > 0 { LessTransitive(name, s[0].0, s[i].0); }
    if Less(s[i].0, name) { LessTransitive(name, s[i].0, name); }
  }

  lemma FirstGreaterIsCovered(s: Symbols, name: string, k: nat, i: nat)
    requires Valid(s) && k <= i < |s| && Less(name, s[k].0) && Covers(name, s[i].0)
    ensures Covers(name, s[k].0)
  {
    assert HasKey(s, s[k].0);
    CoveredBlock(name, s[k].0, s[i].0);
  }

  lemma InsertKeepsValid(s: Symbols, name: string, v: FileProto)
    requires Valid(s) && ValidSymbol(name) && WithSymbol(s, name, v).0
    ensures Sorted(Less, Insert(Less, s, name, v)) && ValidKeys(Insert(Less, s, name, v))
    ensures Antichain(Insert(Less, s, name, v)) <==> !SkipsBegin(s, name)
  {
    SymbolOrder();
    AcceptedIsAbsent(s, name, v);
    AcceptedExactly(s, name, v);
    InsertSorted(Less, s, name, v);
    var t := Insert(Less, s, name, v);
    forall x { InsertKeys(Less, s, name, v, x); }
    if SkipsBegin(s, name) {
      LessIrreflexive(name);
      assert HasKey(s, s[0].0) && HasKey(t, name);
    }
  }

  /** `AddSymbol` over a list of calls. */
  function WithSymbols(s: Symbols, calls: seq<(string, FileProto)>): Symbols
    decreases |calls|
  {
    if calls == [] then s else WithSymbols(WithSymbol(s, calls[0].0, calls[0].1).1, calls[1..])
  }

  /** Some call in the run, made while the map was still valid, was the case `AddSymbol` gets wrong. */
  predicate EverSkipsBegin(s: Symbols, calls: seq<(string, FileProto)>)
    decreases |calls|
  {
    calls != [] &&
    ((ValidSymbol(calls[0].0) && SkipsBegin(s, calls[0].0)) ||
     EverSkipsBegin(WithSymbol(s, calls[0].0, calls[0].1).1, calls[1..]))
  }

  /** Over every run of calls the map invariant survives exactly when no call stepped over `begin()`. */
  lemma {:induction false} InvariantOverRuns(s: Symbols, calls: seq<(string, FileProto)>)
    requires Valid(s)
    ensures Valid(WithSymbols(s, calls)) <==> !EverSkipsBegin(s, calls)
    decreases |calls|
  {
    if calls != [] {
      var (ok, t) := WithSymbol(s, calls[0].0, calls[0].1);
      WithSymbolExact(s, calls[0].0, calls[0].1);
      if Valid(t) {
        InvariantOverRuns(t, calls[1..]);
      } else {
        BrokenStaysBroken(t, calls[1..]);
      }
    }
  }

  /** Keys are never removed, so two comparable keys stay. */
  lemma {:induction false} BrokenStaysBroken(s: Symbols, calls: seq<(string, FileProto)>)
    requires !Antichain(s)
    ensures !Antichain(WithSymbols(s, calls))
    decreases |calls|
  {
    if calls != [] {
      var name, v := calls[0].0, calls[0].1;
      var t := WithSymbol(s, name, v).1;
      if t != s {
        forall x { InsertKeys(Less, s, name, v, x); }
      }
      BrokenStaysBroken(t, calls[1..]);
    }
  }

  /** An input that shows the failure: "a" is accepted after "a.b", and "a.c" is then not found
      although its prefix "a" is a key. */
  lemma SkippedBeginExample(v: FileProto)
    ensures var s := [("a.b", v)];
      && WithSymbol([], "a.b", v) == (true, s) && Valid(s)
      && WithSymbol(s, "a", v) == (true, [("a", v)] + s) && !Valid([("a", v)] + s)
      && Covers("a", "a.c") && FindSymbol([("a", v)] + s, "a.c") == None
  {
    var s := [("a.b", v)];
    ExampleOrder();
    assert WithSymbol([], "a.b", v).1 == s;
    assert Valid(s) by { assert forall x | HasKey(s, x) :: x == "a.b"; }
    assert SkipsBegin(s, "a");
    WithSymbolExact(s, "a", v);
    var t := [("a", v)] + s;
    assert WithSymbol(s, "a", v).1 == t by { assert LowerBound(Less, s, "a") == 0; }
    assert UpperBound(Less, t, "a.c") == 2 by { assert t[1..] == s; }
  }

  lemma ExampleOrder()
    ensures Less("a", "a.b") && !Less("a.b", "a") && !Less("a.c", "a") && !Less("a.c", "a.b")
  {
    assert "a"[1..] == "" && "a.b"[1..] == ".b" && "a.c"[1..] == ".c" && ".b"[1..] == "b" && ".c"[1..] == "c";
    assert Less("", ".b") && !Less(".b", "") && !Less(".c", "") && !Less("c", "b");
    assert !Less(".c", ".b");
  }

  // ----- Adding a file -----

  datatype Index = Index(byName: map<string, FileProto>, bySymbol: Symbols, byExtension: Extensions)

  /** One insertion `AddFile` makes. */
  datatype Insertion = Symbol(name: string) | Extension(proto: FieldProto)

  function ExtensionInsertions(protos: seq<FieldProto>): seq<Insertion> {
    if protos == [] then [] else [Extension(protos[0])] + ExtensionInsertions(protos[1..])
  }

  function NestedInsertions(messages: seq<MessageProto>): seq<Insertion> {
    if messages == [] then []
    else NestedInsertions(messages[0].nested) + ExtensionInsertions(messages[0].extensions)
         + NestedInsertions(messages[1..])
  }

  function MessageInsertions(path: string, messages: seq<MessageProto>): seq<Insertion> {
    if messages == [] then []
    else [Symbol(path + messages[0].name)] + NestedInsertions([messages[0]]) + MessageInsertions(path, messages[1..])
  }

  function SymbolInsertions(path: string, names: seq<string>): seq<Insertion> {
    if names == [] then [] else [Symbol(path + names[0])] + SymbolInsertions(path, names[1..])
  }

  function EnumNames(enums: seq<EnumProto>): seq<string> {
    seq(|enums|, i requires 0 <= i < |enums| => enums[i].name)
  }

  function ServiceNames(services: seq<ServiceProto>): seq<string> {
    seq(|services|, i requires 0 <= i < |services| => services[i].name)
  }

  function ScopedExtensionInsertions(path: string, protos: seq<FieldProto>): seq<Insertion> {
    if protos == [] then []
    else [Symbol(path + protos[0].name), Extension(protos[0])] + ScopedExtensionInsertions(path, protos[1..])
  }

  function PathOf(file: FileProto): string {
    var path := match file.package case Some(p) => p case None => "";
    if path != "" then path + ['.'] else path
  }

  /** Everything `AddFile` inserts for a file, in order. */
  function Insertions(file: FileProto): seq<Insertion> {
    var path := PathOf(file);
    MessageInsertions(path, file.messages)
    + (SymbolInsertions(path, EnumNames(file.enums))
       + (ScopedExtensionInsertions(path, file.extensions) + SymbolInsertions(path, ServiceNames(file.services))))
  }

  function ExtendeeOf(e: FieldProto): string {
    match e.extendee case Some(x) => x case None => ""
  }

  function WithExtension(s: Extensions, e: FieldProto, v: FileProto): (bool, Extensions) {
    var extendee := ExtendeeOf(e);
    if extendee != "" && extendee[0] == '.' then
      var key := (extendee[1..], e.number);
      if Find(KeyLess, s, key) < |s| then (false, s) else (true, Insert(KeyLess, s, key, v))
    else (true, s)
  }

  function Apply(x: Index, one: Insertion, v: FileProto): (bool, Index) {
    match one
    case Symbol(name) => var (ok, t) := WithSymbol(x.bySymbol, name, v); (ok, x.(bySymbol := t))
    case Extension(e) => var (ok, t) := WithExtension(x.byExtension, e, v); (ok, x.(byExtension := t))
  }

  /** The insertions up to the first that fails; what was inserted before it stays. */
  function ApplyAll(x: Index, todo: seq<Insertion>, v: FileProto): (bool, Index)
    decreases |todo|
  {
    if todo == [] then (true, x)
    else
      var (ok, y) := Apply(x, todo[0], v);
      if ok then ApplyAll(y, todo[1..], v) else (false, y)
  }

  function WithFile(x: Index, file: FileProto): (bool, Index) {
    if file.name in x.byName then (false, x)
    else ApplyAll(x.(byName := x.byName[file.name := file]), Insertions(file), file)
  }

  lemma {:induction false} ApplyAllSplit(x: Index, a: seq<Insertion>, b: seq<Insertion>, v: FileProto)
    ensures ApplyAll(x, a + b, v) ==
      var (ok, y) := ApplyAll(x, a, v); if ok then ApplyAll(y, b, v) else (false, y)
    decreases |a|
  {
    if a == [] {
      assert a + b == b;
    } else {
      assert (a + b)[0] == a[0] && (a + b)[1..] == a[1..] + b;
      ApplyAllSplit(Apply(x, a[0], v).1, a[1..], b, v);
    }
  }

  // ----- Self-consistency -----

  /** A file found by symbol or by extension is the file found by its own name. */
  ghost predicate SelfConsistent(x: Index) {
    && Sorted(Less, x.bySymbol) && Sorted(KeyLess, x.byExtension)
    && (forall n | n in x.byName :: x.byName[n].name == n)
    && (forall k, f | HasPair(x.bySymbol, k, f) :: IsFile(x, f))
    && (forall k, f | HasPair(x.byExtension, k, f) :: IsFile(x, f))
  }

  ghost predicate IsFile(x: Index, f: FileProto) {
    f.name in x.byName && x.byName[f.name] == f
  }

  lemma ApplyConsistent(x: Index, one: Insertion, v: FileProto)
    requires SelfConsistent(x) && IsFile(x, v)
    ensures SelfConsistent(Apply(x, one, v).1) && Apply(x, one, v).1.byName == x.byName
  {
    SymbolOrder();
    ExtensionOrder();
    match one {
      case Symbol(name) =>
        InsertSorted(Less, x.bySymbol, name, v);
        if Find(Less, x.bySymbol, name) == |x.bySymbol| {
          forall k, f { InsertMembers(Less, x.bySymbol, name, v, k, f); }
        }
      case Extension(e) =>
        if ExtendeeOf(e) != "" {
          var key := (ExtendeeOf(e)[1..], e.number);
          InsertSorted(KeyLess, x.byExtension, key, v);
          if Find(KeyLess, x.byExtension, key) == |x.byExtension| {
            forall k, f { InsertMembers(KeyLess, x.byExtension, key, v, k, f); }
          }
        }
    }
  }

  lemma {:induction false} ApplyAllConsistent(x: Index, todo: seq<Insertion>, v: FileProto)
    requires SelfConsistent(x) && IsFile(x, v)
    ensures SelfConsistent(ApplyAll(x, todo, v).1) && ApplyAll(x, todo, v).1.byName == x.byName
    decreases |todo|
  {
    if todo != [] {
      ApplyConsistent(x, todo[0], v);
      ApplyAllConsistent(Apply(x, todo[0], v).1, todo[1..], v);
    }
  }

  /** `AddFile` over a list of files, whether each call succeeds or fails half-way. */
  function WithFiles(x: Index, files: seq<FileProto>): Index
    decreases |files|
  {
    if files == [] then x else WithFiles(WithFile(x, files[0]).1, files[1..])
  }

  const EMPTY := Index(map[], [], [])

  /** Every reachable index is self-consistent, failed calls included. */
  lemma {:induction false} ReachableConsistent(x: Index, files: seq<FileProto>)
    requires SelfConsistent(x)
    ensures SelfConsistent(WithFiles(x, files))
    decreases |files|
  {
    if files != [] {
      var f := files[0];
      if f.name !in x.byName {
        var y := x.(byName := x.byName[f.name := f]);
        assert forall g | IsFile(x, g) :: IsFile(y, g);
        ApplyAllConsistent(y, Insertions(f), f);
      }
      ReachableConsistent(WithFile(x, f).1, files[1..]);
    }
  }

  /** A failed `AddFile` is not undone: it leaves the index as it was exactly when the name was taken. */
  lemma FailureIsNotUndone(x: Index, f: FileProto)
    requires SelfConsistent(x) && !WithFile(x, f).0
    ensures WithFile(x, f).1 == x <==> f.name in x.byName
  {
    if f.name !in x.byName {
      var y := x.(byName := x.byName[f.name := f]);
      assert forall g | IsFile(x, g) :: IsFile(y, g);
      ApplyAllConsistent(y, Insertions(f), f);
    }
  }

  // ----- Queries -----

  /** A file that holds one message twice is refused, and is found under the name of that message all the same. */
  lemma HalfAddedExample()
    ensures var m := MessageProto("N", [], [], [], [], []);
      var f := FileProto("f", None, [], [], [m, m], [], [], [], false);
      var (ok, y) := WithFile(Index(map[], [], []), f);
      !ok && FindSymbol(y.bySymbol, "N") == Some(f) && y.byName == map["f" := f]
  {
    hide Apply, Insertions;
    var m := MessageProto("N", [], [], [], [], []);
    var f := FileProto("f", None, [], [], [m, m], [], [], [], false);
    TwiceTheMessage(m, f);
    var x0 := Index(map["f" := f], [], []);
    var x1 := x0.(bySymbol := [("N", f)]);
    OnceTheMessage(x0, x1, f);
    assert [Symbol("N"), Symbol("N")][1..] == [Symbol("N")];
    assert ApplyAll(x1, [Symbol("N")], f) == (false, x1);
    assert ApplyAll(x0, [Symbol("N"), Symbol("N")], f) == (false, x1);
    LessIrreflexive("N");
  }

  lemma TwiceTheMessage(m: MessageProto, f: FileProto)
    requires m == MessageProto("N", [], [], [], [], []) && f == FileProto("f", None, [], [], [m, m], [], [], [], false)
    ensures Insertions(f) == [Symbol("N"), Symbol("N")]
  {
    assert [m, m][1..] == [m] && [m][1..] == [];
    assert "" + "N" == "N" && NestedInsertions([m]) == [];
    assert MessageInsertions("", [m]) == [Symbol("N")];
    assert MessageInsertions("", [m, m]) == [Symbol("N")] + MessageInsertions("", [m]);
    assert EnumNames([]) == [] && ServiceNames([]) == [];
  }

  lemma OnceTheMessage(x0: Index, x1: Index, f: FileProto)
    requires x0.bySymbol == [] && x1 == x0.(bySymbol := [("N", f)])
    ensures Apply(x0, Symbol("N"), f) == (true, x1) && Apply(x1, Symbol("N"), f) == (false, x1)
  {
    assert ValidSymbol("N") && FindLastLessOrEqual([], "N") == 0;
    assert Insert(Less, [], "N", f) == [("N", f)];
    LessIrreflexive("N");
    assert UpperBound(Less, x1.bySymbol, "N") == 1;
  }

  function FindFile(x: Index, name: string): Option<FileProto> {
    if name in x.byName then Some(x.byName[name]) else None
  }

  function FindExtension(x: Index, containing: string, number: int): Option<FileProto> {
    Lookup(KeyLess, x.byExtension, (containing, number))
  }

  /** The numbers `FindAllExtensionNumbers` appends, from position `i` on. */
  function NumbersFrom(s: Extensions, containing: string, i: nat): seq<int>
    requires i <= |s|
    decreases |s| - i
  {
    if i < |s| && s[i].0.0 == containing then [s[i].0.1] + NumbersFrom(s, containing, i + 1) else []
  }

  function AllExtensionNumbers(x: Index, containing: string): seq<int> {
    NumbersFrom(x.byExtension, containing, LowerBound(KeyLess, x.byExtension, (containing, 0)))
  }

  /** The numbers are exactly the registered non-negative ones, in increasing order: the scan starts at 0. */
  lemma AllExtensionNumbersExact(x: Index, containing: string)
    requires SelfConsistent(x)
    ensures var r := AllExtensionNumbers(x, containing);
      && (forall i, j | 0 <= i < j < |r| :: r[i] < r[j])
      && (forall n :: n in r <==> n >= 0 && FindExtension(x, containing, n).Some?)
  {
    ExtensionOrder();
    var s := x.byExtension;
    var lo := LowerBound(KeyLess, s, (containing, 0));
    NumbersFromExact(s, containing, lo);
    forall n ensures n in AllExtensionNumbers(x, containing) <==> n >= 0 && FindExtension(x, containing, n).Some? {
      if n in AllExtensionNumbers(x, containing) {
        var r := AllExtensionNumbers(x, containing);
        var a :| 0 <= a < |r| && r[a] == n;
        var k := lo + a;
        assert s[k].0 == (containing, r[a]);
        LookupIsMember(KeyLess, s, s[k].0, s[k].1);
        if k > lo { assert KeyLess(s[lo].0, s[k].0); }
        LessIrreflexive(containing);
        assert !KeyLess(s[k].0, (containing, 0));
      } else if n >= 0 && FindExtension(x, containing, n).Some? {
        var k := Find(KeyLess, s, (containing, n));
        LessIrreflexive(containing);
      }
    }
  }

  lemma {:induction false} NumbersFromExact(s: Extensions, containing: string, i: nat)
    requires Sorted(KeyLess, s) && i <= |s|
    requires i == |s| || !KeyLess(s[i].0, (containing, 0))
    ensures var r := NumbersFrom(s, containing, i);
      && (forall a, b | 0 <= a < b < |r| :: r[a] < r[b])
      && i + |r| <= |s|
      && (forall k | i <= k < i + |r| :: s[k].0 == (containing, r[k - i]))
      && (forall k | i <= k < |s| && s[k].0.0 == containing :: s[k].0.1 in r)
    decreases |s| - i
  {
    var r := NumbersFrom(s, containing, i);
    if i < |s| && s[i].0.0 == containing {
      assert s[i].0 == (containing, s[i].0.1);
      if i + 1 < |s| { NextIsNotLess(s, containing, i); }
      NumbersFromExact(s, containing, i + 1);
      var tail := NumbersFrom(s, containing, i + 1);
      assert r == [s[i].0.1] + tail;
      hide KeyLess, Sorted, NumbersFrom;
      forall a | 0 <= a < |tail| ensures r[0] < tail[a] {
        var k := i + 1 + a;
        assert s[k].0 == (containing, tail[k - (i + 1)]);
        SameTypeOrder(s, containing, i, k);
      }
      forall k | i <= k < i + |r| ensures s[k].0 == (containing, r[k - i]) {
        if k > i { assert r[k - i] == tail[k - (i + 1)]; }
      }
      forall k | i <= k < |s| && s[k].0.0 == containing ensures s[k].0.1 in r {
        assert k == i || s[k].0.1 in tail;
      }
    } else {
      forall k | i <= k < |s| ensures s[k].0.0 != containing { NoMatchAfter(s, containing, i, k); }
    }
  }

  lemma SameTypeOrder(s: Extensions, containing: string, i: nat, k: nat)
    requires Sorted(KeyLess, s) && i < k < |s| && s[i].0.0 == s[k].0.0 == containing
    ensures s[i].0.1 < s[k].0.1
  {
    LessIrreflexive(containing);
    assert KeyLess(s[i].0, s[k].0);
  }

  lemma NoMatchAfter(s: Extensions, containing: string, i: nat, k: nat)
    requires Sorted(KeyLess, s) && i <= k < |s| && s[i].0.0 != containing && !KeyLess(s[i].0, (containing, 0))
    ensures s[k].0.0 != containing
  {
    assert i < k ==> KeyLess(s[i].0, s[k].0);
  }

  lemma NextIsNotLess(s: Extensions, containing: string, i: nat)
    requires Sorted(KeyLess, s) && i + 1 < |s| && s[i].0.0 == containing && s[i].0.1 >= 0
    ensures !KeyLess(s[i + 1].0, (containing, 0))
  {
    LessIrreflexive(containing);
    assert KeyLess(s[i].0, s[i + 1].0);
    if Less(s[i + 1].0.0, containing) && Less(containing, s[i + 1].0.0) {
      LessTransitive(containing, s[i + 1].0.0, containing);
    }
  }

  // ----- The index itself -----

  class DescriptorIndex {
    var byName: map<string, FileProto>
    var bySymbol: Symbols
    var byExtension: Extensions

    constructor ()
      ensures State() == EMPTY
    {
      byName, bySymbol, byExtension := map[], [], [];
    }

    ghost function State(): Index
      reads this
    {
      Index(byName, bySymbol, byExtension)
    }

    method AddSymbol(name: string, value: FileProto) returns (ok: bool)
      modifies this`bySymbol
      ensures (ok, bySymbol) == WithSymbol(old(bySymbol), name, value)
    {
      hide Insert, ValidSymbol, FindLastLessOrEqual, Covers;
      if !ValidSymbol(name) { return false; }
      var iter := FindLastLessOrEqual(bySymbol, name);
      if iter == |bySymbol| {
        bySymbol := Insert(Less, bySymbol, name, value);
        return true;
      }
      if Covers(bySymbol[iter].0, name) { return false; }
      iter := iter + 1;
      if iter != |bySymbol| && Covers(name, bySymbol[iter].0) { return false; }
      bySymbol := Insert(Less, bySymbol, name, value);
      return true;
    }

    method AddExtension(field: FieldProto, value: FileProto) returns (ok: bool)
      modifies this`byExtension
      ensures (ok, byExtension) == WithExtension(old(byExtension), field, value)
    {
      var extendee := ExtendeeOf(field);
      if extendee != "" && extendee[0] == '.' {
        var key := (extendee[1..], field.number);
        if Find(KeyLess, byExtension, key) < |byExtension| { return false; }
        byExtension := Insert(KeyLess, byExtension, key, value);
      }
      return true;
    }

    method AddExtensions(fields: seq<FieldProto>, value: FileProto) returns (ok: bool)
      modifies this
      ensures (ok, State()) == ApplyAll(old(State()), ExtensionInsertions(fields), value)
    {
      ghost var x0, all := State(), ExtensionInsertions(fields);
      for i := 0 to |fields|
        invariant ApplyAll(x0, all, value) == ApplyAll(State(), ExtensionInsertions(fields[i..]), value)
      {
        assert fields[i..][1..] == fields[i + 1..];
        ok := AddExtension(fields[i], value);
        if !ok { return; }
      }
      return true;
    }

    method AddNestedExtensions(message: MessageProto, value: FileProto) returns (ok: bool)
      modifies this
      ensures (ok, State()) == ApplyAll(old(State()), NestedInsertions([message]), value)
      decreases message
    {
      ghost var own := ExtensionInsertions(message.extensions);
      ghost var x0 := State();
      assert NestedInsertions([message]) == NestedInsertions(message.nested) + own by { assert [message][1..] == []; }
      ApplyAllSplit(x0, NestedInsertions(message.nested), own, value);
      for i := 0 to |message.nested|
        invariant ApplyAll(x0, NestedInsertions(message.nested), value)
               == ApplyAll(State(), NestedInsertions(message.nested[i..]), value)
      {
        NestedSplit(message.nested[i..]);
        assert message.nested[i..][1..] == message.nested[i + 1..];
        ApplyAllSplit(State(), NestedInsertions([message.nested[i]]), NestedInsertions(message.nested[i + 1..]), value);
        ok := AddNestedExtensions(message.nested[i], value);
        if !ok { return; }
      }
      ok := AddExtensions(message.extensions, value);
    }

    method AddMessages(path: string, messages: seq<MessageProto>, value: FileProto) returns (ok: bool)
      modifies this
      ensures (ok, State()) == ApplyAll(old(State()), MessageInsertions(path, messages), value)
    {
      ghost var x0, all := State(), MessageInsertions(path, messages);
      for i := 0 to |messages|
        invariant ApplyAll(x0, all, value) == ApplyAll(State(), MessageInsertions(path, messages[i..]), value)
      {
        ghost var rest := MessageInsertions(path, messages[i + 1..]);
        ghost var todo := MessageInsertions(path, messages[i..]);
        assert messages[i..][1..] == messages[i + 1..];
        assert todo[0] == Symbol(path + messages[i].name) && todo[1..] == NestedInsertions([messages[i]]) + rest;
        ok := AddSymbol(path + messages[i].name, value);
        if !ok { return; }
        ApplyAllSplit(State(), NestedInsertions([messages[i]]), rest, value);
        ok := AddNestedExtensions(messages[i], value);
        if !ok { return; }
      }
      return true;
    }

    method AddNames(path: string, names: seq<string>, value: FileProto) returns (ok: bool)
      modifies this
      ensures (ok, State()) == ApplyAll(old(State()), SymbolInsertions(path, names), value)
    {
      ghost var x0, all := State(), SymbolInsertions(path, names);
      for i := 0 to |names|
        invariant ApplyAll(x0, all, value) == ApplyAll(State(), SymbolInsertions(path, names[i..]), value)
      {
        assert names[i..][1..] == names[i + 1..];
        ok := AddSymbol(path + names[i], value);
        if !ok { return; }
      }
      return true;
    }

    method AddScopedExtensions(path: string, fields: seq<FieldProto>, value: FileProto) returns (ok: bool)
      modifies this
      ensures (ok, State()) == ApplyAll(old(State()), ScopedExtensionInsertions(path, fields), value)
    {
      ghost var x0, all := State(), ScopedExtensionInsertions(path, fields);
      for i := 0 to |fields|
        invariant ApplyAll(x0, all, value) == ApplyAll(State(), ScopedExtensionInsertions(path, fields[i..]), value)
      {
        ghost var todo := ScopedExtensionInsertions(path, fields[i..]);
        assert fields[i..][1..] == fields[i + 1..];
        assert todo[0] == Symbol(path + fields[i].name) && todo[1..][0] == Extension(fields[i]);
        assert todo[1..][1..] == ScopedExtensionInsertions(path, fields[i + 1..]);
        ok := AddSymbol(path + fields[i].name, value);
        if !ok { return; }
        ok := AddExtension(fields[i], value);
        if !ok { return; }
      }
      return true;
    }

    /** The name is claimed first; nothing is undone when a later insertion fails. */
    method AddFile(file: FileProto) returns (ok: bool)
      modifies this
      ensures (ok, State()) == WithFile(old(State()), file)
    {
      if file.name in byName { return false; }
      byName := byName[file.name := file];
      var path := match file.package case Some(p) => p case None => "";
      if path != "" { path := path + ['.']; }
      ghost var m, e := MessageInsertions(path, file.messages), SymbolInsertions(path, EnumNames(file.enums));
      ghost var x, s :=
        ScopedExtensionInsertions(path, file.extensions), SymbolInsertions(path, ServiceNames(file.services));
      assert Insertions(file) == m + (e + (x + s));
      ApplyAllSplit(State(), m, e + (x + s), file);
      ok := AddMessages(path, file.messages, file);
      if !ok { return; }
      ApplyAllSplit(State(), e, x + s, file);
      ok := AddNames(path, EnumNames(file.enums), file);
      if !ok { return; }
      ApplyAllSplit(State(), x, s, file);
      ok := AddScopedExtensions(path, file.extensions, file);
      if !ok { return; }
      ok := AddNames(path, ServiceNames(file.services), file);
    }

    /** Appends to `output` and says whether anything was appended. */
    method FindAllExtensionNumbers(containing: string, output: seq<int>) returns (success: bool, result: seq<int>)
      ensures result == output + AllExtensionNumbers(State(), containing)
      ensures success <==> AllExtensionNumbers(State(), containing) != []
    {
      var it := LowerBound(KeyLess, byExtension, (containing, 0));
      ghost var all := AllExtensionNumbers(State(), containing);
      success, result := false, output;
      while it != |byExtension| && byExtension[it].0.0 == containing
        invariant it <= |byExtension|
        invariant output + all == result + NumbersFrom(byExtension, containing, it)
        invariant |result| >= |output| && (success <==> |result| > |output|)
        decreases |byExtension| - it
      {
        result := result + [byExtension[it].0.1];
        success := true;
        it := it + 1;
      }
    }
  }

  lemma NestedSplit(messages: seq<MessageProto>)
    requires messages != []
    ensures NestedInsertions(messages) == NestedInsertions([messages[0]]) + NestedInsertions(messages[1..])
  {
    assert [messages[0]][1..] == [];
  }
}
