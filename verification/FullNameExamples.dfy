/** A file that names its types from the root, as a compiled file does, and files that are refused for one name. */
module FullNameExamples {
  import opened Names
  import opened OrderedMaps
  import opened Protos
  import opened PoolTables
  import opened SymbolOwnership
  import opened Declarations
  import opened ScopeLookup
  import opened References
  import opened FieldNumbers
  import opened PoolInvariant
  import opened BuildConditions
  import opened DeclaredInPool
  import opened BuildableFiles

  const OPTIMIZED := FieldProto("f", 9, EnumType, Some(".p.M.E"), None, Some("SPEED"))
  const ITSELF := FieldProto("g", 1, MessageType, Some(".p.M"), None, None)
  const OPTIONS := MessageProto("M", [OPTIMIZED, ITSELF], [], [EnumProto("E", ["SPEED"])], [], [])
  const FULL := FileProto("m", Some("p"), [], [], [OPTIONS], [], [], [], false)

  /** What stands in it, and under which name. */
  lemma PlacesOfFull(at: Position)
    requires InFile(FULL, at)
    ensures at.path == [0] && at.place in {Self, FieldOf(0), FieldOf(1), EnumOf(0), ValueOf(0, 0)}
    ensures NameAt(FULL, at) ==
      match at.place
      case Self => "p.M"
      case FieldOf(i) => if i == 0 then "p.M.f" else "p.M.g"
      case EnumOf(_) => "p.M.E"
      case _ => "p.M.SPEED"
  {
    assert at.path != [];
    assert !InMessages(OPTIONS.nested, at.path[1..], at.place);
    assert at.path == [0];
  }

  lemma StandsInFull(place: Place)
    requires place in {Self, FieldOf(0), FieldOf(1), EnumOf(0), ValueOf(0, 0)}
    ensures InFile(FULL, Position([0], place))
  {
  }

  lemma FullIsSound(at: Position)
    requires InFile(FULL, at)
    ensures SoundAt(FULL, at)
  {
    hide ValidIdentifier, ValidRanges, ValidField, InMessages, InFile;
    PlacesOfFull(at);
    SoundParts();
  }

  lemma SoundParts()
    ensures ValidIdentifier("M") && ValidIdentifier("f") && ValidIdentifier("g") && ValidIdentifier("E")
    ensures ValidIdentifier("SPEED") && ValidIdentifier("p")
    ensures ValidRanges(OPTIONS) && ValidField(OPTIMIZED, false) && ValidField(ITSELF, false)
  {
  }

  lemma PackageIsFree()
    ensures PackageFree(map[], "p") && forall n :: NewPackage({}, "p", n) <==> n == "p"
  {
    hide PackageFree, NewPackage, ValidIdentifier;
    SoundParts();
    assert LastDot("p") == -1;
    assert "p"[0..] == "p";
    PackageCleanExactly(map[], "p");
    NoParent({}, "p");
  }

  lemma FullIsFree()
    ensures NamesFree(map[], FULL)
  {
    hide PackageFree, NewPackage, InFile, NameAt, SoundAt;
    PackageIsFree();
    forall at | InFile(FULL, at) ensures SoundAt(FULL, at) { FullIsSound(at); }
    var none: Symbols := map[];
    assert none.Keys == {};
    forall at | InFile(FULL, at) ensures !Taken(none, FULL, NameAt(FULL, at)) { PlacesOfFull(at); }
    forall a, b | InFile(FULL, a) && InFile(FULL, b) && a != b ensures NameAt(FULL, a) != NameAt(FULL, b) {
      PlacesOfFull(a);
      PlacesOfFull(b);
    }
  }

  // ----- What its references find -----

  /** The symbols of its names are there when it is linked, each of the kind it stands for. */
  lemma SymbolOfFull(pool: Pool, at: Position)
    requires InFile(FULL, at)
    ensures var env, n := EntryEnv(pool, NEW_POOL, FULL), NameAt(FULL, at);
      && n in env.symbols && env.symbols[n] == Symbol(KindAt(at.place), 0, n, 0) && MayUse(env, n, env.symbols[n])
  {
    hide FileSteps, InFile, NameAt, SoundAt, KindOf, EntryDesc;
    FullIsFree();
    OnlyKind(map[], FULL, at);
    DeclaresName(FULL, NameAt(FULL, at));
  }

  lemma TypesAreFound(pool: Pool)
    ensures var env := EntryEnv(pool, NEW_POOL, FULL);
      && Resolve(env, ".p.M", "p.M.g", LOOKUP_TYPES) == Some(Symbol(MESSAGE, 0, "p.M", 0))
      && Resolve(env, ".p.M.E", "p.M.f", LOOKUP_TYPES) == Some(Symbol(ENUM, 0, "p.M.E", 0))
  {
    hide EntryEnv, ResolveFrom, MayUse, InFile, Resolve;
    var env := EntryEnv(pool, NEW_POOL, FULL);
    StandsInFull(Self);
    StandsInFull(EnumOf(0));
    PlacesOfFull(Position([0], Self));
    PlacesOfFull(Position([0], EnumOf(0)));
    SymbolOfFull(pool, Position([0], Self));
    SymbolOfFull(pool, Position([0], EnumOf(0)));
    AbsoluteName(env, "p.M", "p.M.g", LOOKUP_TYPES);
    AbsoluteName(env, "p.M.E", "p.M.f", LOOKUP_TYPES);
    assert "." + "p.M" == ".p.M" && "." + "p.M.E" == ".p.M.E";
  }

  /** The default is found beside its enum. */
  lemma DefaultIsFound(pool: Pool)
    ensures Resolve(EntryEnv(pool, NEW_POOL, FULL), "SPEED", "p.M.E", LOOKUP_ALL)
         == Some(Symbol(ENUM_VALUE, 0, "p.M.SPEED", 0))
  {
    hide EntryEnv, MayUse, InFile, LastDot, FirstDot, FirstPart, Parent;
    var env, value := EntryEnv(pool, NEW_POOL, FULL), Position([0], ValueOf(0, 0));
    StandsInFull(ValueOf(0, 0));
    PlacesOfFull(value);
    SymbolOfFull(pool, value);
    DefaultNames();
  }

  lemma DefaultNames()
    ensures LastDot("p.M.E") == 3 && Parent("p.M.E") == "p.M" && FirstPart("SPEED") == "SPEED"
    ensures "p.M" + ['.'] + "SPEED" == "p.M.SPEED"
  {
    assert LastDot("p.M.E") == 3;
    FirstOfSimple("SPEED");
  }

  lemma FieldsOfFullRefer(pool: Pool)
    ensures FieldsRefer(EntryEnv(pool, NEW_POOL, FULL), FULL)
  {
    hide EntryEnv, Resolve, InFile, NameAt, ValueStands;
    var env := EntryEnv(pool, NEW_POOL, FULL);
    TypesAreFound(pool);
    DefaultIsFound(pool);
    DescOfFull(pool);
    SpeedStands();
    forall at | InFile(FULL, at) && HoldsField(at.place)
      ensures FieldRefers(env, FieldAt(FULL, at), NameAt(FULL, at))
    {
      PlacesOfFull(at);
      FieldOfFull(at);
    }
  }

  lemma SpeedStands()
    ensures ValueStands(FULL, [0], 0, 0, "p.M.E", "p.M.SPEED")
  {
    hide InFile, NameAt;
    StandsInFull(EnumOf(0));
    StandsInFull(ValueOf(0, 0));
    PlacesOfFull(Position([0], EnumOf(0)));
    PlacesOfFull(Position([0], ValueOf(0, 0)));
  }

  lemma FieldOfFull(at: Position)
    requires InFile(FULL, at) && HoldsField(at.place)
    ensures FieldAt(FULL, at) == if at.place == FieldOf(0) then OPTIMIZED else ITSELF
  {
    PlacesOfFull(at);
  }

  lemma DescOfFull(pool: Pool)
    ensures var env := EntryEnv(pool, NEW_POOL, FULL); 0 in env.descs && env.descs[0].proto == FULL
  {
    hide EntrySymbols;
  }

  /** A file can be built whose fields name their types from the root, as ".p.M", and have an enum value for default. */
  lemma FullNamesBuild(pool: Pool)
    ensures Buildable(pool, NEW_POOL, FULL)
  {
    hide Buildable, EntryEnv, FieldsRefer, NamesFree, PackageFree, InFile, NameAt, Resolve, Inv, OwnedIn;
    NewPoolIsSound();
    FullIsFree();
    PackageIsFree();
    FieldsOfFullRefer(pool);
    forall path: seq<nat>, i: nat, j: nat
      | InFile(FULL, Position(path, FieldOf(i))) && InFile(FULL, Position(path, FieldOf(j))) && i != j
      ensures FieldAt(FULL, Position(path, FieldOf(i))).number != FieldAt(FULL, Position(path, FieldOf(j))).number
    {
      PlacesOfFull(Position(path, FieldOf(i)));
      PlacesOfFull(Position(path, FieldOf(j)));
      FieldOfFull(Position(path, FieldOf(i)));
      FieldOfFull(Position(path, FieldOf(j)));
    }
    forall at ensures !IsExtension(FULL, at) { if IsExtension(FULL, at) { PlacesOfFull(at); } }
    NoMethods(pool);
    BuildableExactly(pool, NEW_POOL, FULL);
  }

  lemma NoMethods(pool: Pool)
    ensures MethodsRefer(EntryEnv(pool, NEW_POOL, FULL), FULL)
  {
    hide EntryEnv;
  }

  // ----- One name for two -----

  const TWINS := FileProto("t", None, [], [], [], [EnumProto("E", ["A"]), EnumProto("F", ["A"])], [], [], false)

  /** Values are siblings of their enums, so that two enums side by side cannot have a value of one name. */
  lemma TwinValuesRefused(pool: Pool, p: State)
    ensures !Buildable(pool, p, TWINS)
  {
    hide Buildable;
    OneNameRefused(pool, p, TWINS, Position([], ValueOf(0, 0)), Position([], ValueOf(1, 0)));
  }
}
