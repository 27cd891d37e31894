/** What a file declares, position by position, and which files report no error while their descriptors are built. */
module Declarations {
  import opened Names
  import opened OrderedMaps
  import opened Protos
  import opened PoolTables
  import opened SymbolOwnership

  // ----- Positions in a file -----

  /** Something declared in a message, or at the top level of a file. */
  datatype Place =
    | Self
    | FieldOf(i: nat)
    | ExtensionOf(i: nat)
    | EnumOf(i: nat)
    | ValueOf(i: nat, j: nat)
    | ServiceOf(i: nat)
    | MethodOf(i: nat, j: nat)

  /** The messages that lead to the place, from the outermost to the one that holds it: none at the top level. */
  datatype Position = Position(path: seq<nat>, place: Place)

  predicate InMessage(m: MessageProto, place: Place) {
    match place
    case Self => true
    case FieldOf(i) => i < |m.fields|
    case ExtensionOf(i) => i < |m.extensions|
    case EnumOf(i) => i < |m.enums|
    case ValueOf(i, j) => i < |m.enums| && j < |m.enums[i].values|
    case ServiceOf(_) => false
    case MethodOf(_, _) => false
  }

  predicate InMessages(messages: seq<MessageProto>, path: seq<nat>, place: Place)
    decreases |path|
  {
    && path != [] && path[0] < |messages|
    && if |path| == 1 then InMessage(messages[path[0]], place)
       else InMessages(messages[path[0]].nested, path[1..], place)
  }

  predicate InFile(proto: FileProto, at: Position) {
    if at.path != [] then InMessages(proto.messages, at.path, at.place)
    else
      match at.place
      case Self => false
      case FieldOf(_) => false
      case ExtensionOf(i) => i < |proto.extensions|
      case EnumOf(i) => i < |proto.enums|
      case ValueOf(i, j) => i < |proto.enums| && j < |proto.enums[i].values|
      case ServiceOf(i) => i < |proto.services|
      case MethodOf(i, j) => i < |proto.services| && j < |proto.services[i].methods|
  }

  // ----- Names, kinds and checks -----

  /** The full name of `name` in a scope. */
  function Under(scope: string, name: string): string {
    if scope == "" then name else scope + "." + name
  }

  /** In a message of full name `full`. A value of an enum is named like a sibling of the enum. */
  function NameInMessage(m: MessageProto, full: string, place: Place): string
    requires InMessage(m, place)
  {
    match place
    case Self => full
    case FieldOf(i) => Under(full, m.fields[i].name)
    case ExtensionOf(i) => Under(full, m.extensions[i].name)
    case EnumOf(i) => Under(full, m.enums[i].name)
    case ValueOf(i, j) => Under(full, m.enums[i].values[j])
  }

  function NameInMessages(messages: seq<MessageProto>, scope: string, path: seq<nat>, place: Place): string
    requires InMessages(messages, path, place)
    decreases |path|
  {
    var m := messages[path[0]];
    var full := Under(scope, m.name);
    if |path| == 1 then NameInMessage(m, full, place) else NameInMessages(m.nested, full, path[1..], place)
  }

  function NameAt(proto: FileProto, at: Position): string
    requires InFile(proto, at)
  {
    var scope := if proto.package.Some? then proto.package.value else "";
    if at.path != [] then NameInMessages(proto.messages, scope, at.path, at.place)
    else
      match at.place
      case ExtensionOf(i) => Under(scope, proto.extensions[i].name)
      case EnumOf(i) => Under(scope, proto.enums[i].name)
      case ValueOf(i, j) => Under(scope, proto.enums[i].values[j])
      case ServiceOf(i) => Under(scope, proto.services[i].name)
      case MethodOf(i, j) => Under(scope, proto.services[i].name) + "." + proto.services[i].methods[j].name
  }

  function KindAt(place: Place): Kind {
    match place
    case Self => MESSAGE
    case FieldOf(_) => FIELD
    case ExtensionOf(_) => FIELD
    case EnumOf(_) => ENUM
    case ValueOf(_, _) => ENUM_VALUE
    case ServiceOf(_) => SERVICE
    case MethodOf(_, _) => METHOD
  }

  /** The checks of what is declared there: its own name, a field's number, a message's ranges, an enum's values. */
  predicate SoundInMessage(m: MessageProto, place: Place)
    requires InMessage(m, place)
  {
    match place
    case Self => ValidIdentifier(m.name) && ValidRanges(m)
    case FieldOf(i) => ValidIdentifier(m.fields[i].name) && ValidField(m.fields[i], false)
    case ExtensionOf(i) => ValidIdentifier(m.extensions[i].name) && ValidField(m.extensions[i], true)
    case EnumOf(i) => ValidIdentifier(m.enums[i].name) && m.enums[i].values != []
    case ValueOf(i, j) => ValidIdentifier(m.enums[i].values[j])
  }

  predicate SoundInMessages(messages: seq<MessageProto>, path: seq<nat>, place: Place)
    requires InMessages(messages, path, place)
    decreases |path|
  {
    var m := messages[path[0]];
    if |path| == 1 then SoundInMessage(m, place) else SoundInMessages(m.nested, path[1..], place)
  }

  predicate SoundAt(proto: FileProto, at: Position)
    requires InFile(proto, at)
  {
    if at.path != [] then SoundInMessages(proto.messages, at.path, at.place)
    else
      match at.place
      case ExtensionOf(i) => ValidIdentifier(proto.extensions[i].name) && ValidField(proto.extensions[i], true)
      case EnumOf(i) => ValidIdentifier(proto.enums[i].name) && proto.enums[i].values != []
      case ValueOf(i, j) => ValidIdentifier(proto.enums[i].values[j])
      case ServiceOf(i) => ValidIdentifier(proto.services[i].name)
      case MethodOf(i, j) => ValidIdentifier(proto.services[i].methods[j].name)
  }

  // ----- What the checks mean -----

  /** An identifier is a symbol name of one component; its characters are letters, digits and underscores (of ASCII). */
  lemma IdentifierExactly(name: string)
    ensures ValidIdentifier(name) <==> name != "" && ValidSymbol(name) && NoDot(name)
    ensures ValidIdentifier(name) <==> name != "" && forall i | 0 <= i < |name| ::
      65 <= name[i] as int <= 90 || 97 <= name[i] as int <= 122 || 48 <= name[i] as int <= 57 || name[i] as int == 95
  {
    if name != "" && ValidSymbol(name) && NoDot(name) {
      forall i | 0 <= i < |name| ensures SymbolChar(name[i]) && name[i] != '.' {}
    }
  }

  /** A field may have the numbers whose tags, of three bits more, are of 32 bits, apart from the reserved thousand. */
  lemma FieldNumberExactly(f: FieldProto)
    ensures ValidField(f, false) <==>
      f.extendee.None? && 8 <= 8 * f.number < 0x1_0000_0000 && !(19000 <= f.number < 20000)
    ensures ValidField(f, true) <==> f.extendee.Some? && 8 <= 8 * f.number && !(19000 <= f.number < 20000)
  {
  }

  /** The number is one that the range stands for: the end is not. */
  predicate Holds(range: (int, int), number: int) {
    range.0 <= number && number + 1 <= range.1
  }

  ghost predicate HoldsPositive(range: (int, int)) {
    (exists number :: Holds(range, number)) && forall number | Holds(range, number) :: number > 0
  }

  /** Each range holds some number and only positive ones, no two hold one number, and none holds a field's. */
  ghost predicate RangesApart(m: MessageProto) {
    && (forall k | 0 <= k < |m.ranges| :: HoldsPositive(m.ranges[k]))
    && (forall i, j, number | 0 <= i < |m.ranges| && 0 <= j < |m.ranges| && Holds(m.ranges[i], number)
                              && Holds(m.ranges[j], number) :: i == j)
    && forall f, k | f in m.fields && 0 <= k < |m.ranges| :: !Holds(m.ranges[k], f.number)
  }

  lemma RangesExactly(m: MessageProto)
    ensures ValidRanges(m) <==> RangesApart(m)
  {
    hide ValidRanges, RangesApart;
    if ValidRanges(m) { ValidAreApart(m); }
    if RangesApart(m) { ApartAreValid(m); }
  }

  lemma ValidAreApart(m: MessageProto)
    requires ValidRanges(m)
    ensures RangesApart(m)
  {
    forall k | 0 <= k < |m.ranges| ensures HoldsPositive(m.ranges[k]) {
      assert Holds(m.ranges[k], m.ranges[k].0);
    }
    forall i, j, number | 0 <= i < j < |m.ranges|
      ensures !(Holds(m.ranges[i], number) && Holds(m.ranges[j], number))
    {
      assert m.ranges[i].1 <= m.ranges[j].0 || m.ranges[j].1 <= m.ranges[i].0;
    }
    forall f, k | f in m.fields && 0 <= k < |m.ranges| ensures !Holds(m.ranges[k], f.number) {
      var i :| 0 <= i < |m.fields| && m.fields[i] == f;
      assert !InRange(m.ranges[k], m.fields[i].number);
    }
  }

  lemma ApartAreValid(m: MessageProto)
    requires RangesApart(m)
    ensures ValidRanges(m)
  {
    forall k | 0 <= k < |m.ranges| ensures 0 < m.ranges[k].0 < m.ranges[k].1 {
      assert HoldsPositive(m.ranges[k]);
      var number :| Holds(m.ranges[k], number);
      assert Holds(m.ranges[k], m.ranges[k].0);
    }
    forall i, j | 0 <= i < j < |m.ranges| ensures m.ranges[i].1 <= m.ranges[j].0 || m.ranges[j].1 <= m.ranges[i].0 {
      var shared := if m.ranges[i].0 < m.ranges[j].0 then m.ranges[j].0 else m.ranges[i].0;
      assert !Holds(m.ranges[i], shared) || !Holds(m.ranges[j], shared);
    }
    forall i, j | 0 <= i < |m.fields| && 0 <= j < |m.ranges| ensures !InRange(m.ranges[j], m.fields[i].number) {
      assert m.fields[i] in m.fields && !Holds(m.ranges[j], m.fields[i].number);
    }
  }

  // ----- The steps as a tree -----

  datatype Tree = Leaf(step: Step) | Node(children: seq<Tree>)

  function Flat(t: Tree): seq<Step>
    decreases t
  {
    match t case Leaf(step) => [step] case Node(children) => FlatAll(children)
  }

  function FlatAll(trees: seq<Tree>): seq<Step>
    decreases trees
  {
    if trees == [] then [] else Flat(trees[0]) + FlatAll(trees[1..])
  }

  predicate HasPath(t: Tree, path: seq<nat>)
    decreases |path|
  {
    match t
    case Leaf(_) => path == []
    case Node(children) => path != [] && path[0] < |children| && HasPath(children[path[0]], path[1..])
  }

  function StepAt(t: Tree, path: seq<nat>): Step
    requires HasPath(t, path)
    decreases |path|
  {
    match t case Leaf(step) => step case Node(children) => StepAt(children[path[0]], path[1..])
  }

  /** Where the leaf comes when the tree is flattened. */
  function IndexOf(t: Tree, path: seq<nat>): nat
    requires HasPath(t, path)
    decreases |path|
  {
    match t
    case Leaf(_) => 0
    case Node(children) => |FlatAll(children[..path[0]])| + IndexOf(children[path[0]], path[1..])
  }

  lemma {:induction false} FlatSplit(trees: seq<Tree>, i: nat)
    requires i < |trees|
    ensures FlatAll(trees) == FlatAll(trees[..i]) + (Flat(trees[i]) + FlatAll(trees[i + 1..]))
    decreases i
  {
    if i > 0 {
      FlatSplit(trees[1..], i - 1);
      assert trees[..i][1..] == trees[1..][..i - 1] && trees[..i][0] == trees[0];
      assert trees[1..][i..] == trees[i + 1..];
    }
  }

  lemma {:induction false} IndexIsIn(t: Tree, path: seq<nat>)
    requires HasPath(t, path)
    ensures IndexOf(t, path) < |Flat(t)| && Flat(t)[IndexOf(t, path)] == StepAt(t, path)
    decreases |path|
  {
    hide FlatAll;
    if t.Node? {
      IndexIsIn(t.children[path[0]], path[1..]);
      FlatSplit(t.children, path[0]);
    }
  }

  lemma {:induction false} IndexIsOwn(t: Tree, p: seq<nat>, q: seq<nat>)
    requires HasPath(t, p) && HasPath(t, q) && p != q
    ensures IndexOf(t, p) != IndexOf(t, q)
    decreases |p|
  {
    hide FlatAll;
    if t.Node? {
      if p[0] == q[0] {
        assert p == [p[0]] + p[1..] && q == [q[0]] + q[1..];
        IndexIsOwn(t.children[p[0]], p[1..], q[1..]);
      } else if p[0] < q[0] {
        EarlierChild(t.children, p[0], q[0], p[1..]);
      } else {
        EarlierChild(t.children, q[0], p[0], q[1..]);
      }
    }
  }

  lemma EarlierChild(trees: seq<Tree>, i: nat, j: nat, path: seq<nat>)
    requires i < j < |trees| && HasPath(trees[i], path)
    ensures |FlatAll(trees[..i])| + IndexOf(trees[i], path) < |FlatAll(trees[..j])|
  {
    hide FlatAll, IndexOf, Flat;
    FlatSplit(trees[..j], i);
    assert trees[..j][..i] == trees[..i];
    IndexIsIn(trees[i], path);
  }

  lemma {:induction false} EveryIndex(t: Tree, k: nat) returns (path: seq<nat>)
    requires k < |Flat(t)|
    ensures HasPath(t, path) && IndexOf(t, path) == k
    decreases t
  {
    match t {
      case Leaf(_) => path := [];
      case Node(children) =>
        var i := ChildOf(children, k);
        FlatSplit(children, i);
        path := EveryIndex(children[i], k - |FlatAll(children[..i])|);
        path := [i] + path;
        assert path[1..] == path[1..] && path[0] == i;
    }
  }

  lemma {:induction false} ChildOf(trees: seq<Tree>, k: nat) returns (i: nat)
    requires k < |FlatAll(trees)|
    ensures i < |trees| && |FlatAll(trees[..i])| <= k < |FlatAll(trees[..i])| + |Flat(trees[i])|
    decreases |trees|
  {
    if k < |Flat(trees[0])| {
      i := 0;
    } else {
      i := ChildOf(trees[1..], k - |Flat(trees[0])|);
      assert trees[..i + 1][1..] == trees[1..][..i] && trees[..i + 1][0] == trees[0];
      i := i + 1;
    }
  }

  // ----- The tree of a file -----

  function FieldTree(f: FieldProto, scope: string, isExtension: bool): Tree {
    Node([Leaf(Check(ValidIdentifier(f.name))), Leaf(Check(ValidField(f, isExtension))),
          Leaf(Declare(Under(scope, f.name), FIELD))])
  }

  function FieldTrees(fields: seq<FieldProto>, scope: string, isExtension: bool): seq<Tree> {
    seq(|fields|, i requires 0 <= i < |fields| => FieldTree(fields[i], scope, isExtension))
  }

  function ValueTree(value: string, scope: string): Tree {
    Node([Leaf(Check(ValidIdentifier(value))), Leaf(Declare(Under(scope, value), ENUM_VALUE))])
  }

  function ValueTrees(values: seq<string>, scope: string): seq<Tree> {
    seq(|values|, i requires 0 <= i < |values| => ValueTree(values[i], scope))
  }

  function EnumTree(e: EnumProto, scope: string): Tree {
    Node([Leaf(Check(ValidIdentifier(e.name))), Leaf(Check(e.values != [])), Node(ValueTrees(e.values, scope)),
          Leaf(Declare(Under(scope, e.name), ENUM))])
  }

  function EnumTrees(enums: seq<EnumProto>, scope: string): seq<Tree> {
    seq(|enums|, i requires 0 <= i < |enums| => EnumTree(enums[i], scope))
  }

  function MessageTree(m: MessageProto, scope: string): Tree
    decreases m, 1
  {
    var full := Under(scope, m.name);
    Node([Leaf(Check(ValidIdentifier(m.name))), Leaf(Check(ValidRanges(m))),
          Node(FieldTrees(m.fields, full, false)), Node(MessageTrees(m.nested, full)), Node(EnumTrees(m.enums, full)),
          Node(FieldTrees(m.extensions, full, true)), Leaf(Declare(full, MESSAGE))])
  }

  function MessageTrees(messages: seq<MessageProto>, scope: string): (trees: seq<Tree>)
    ensures |trees| == |messages|
    decreases messages
  {
    if messages == [] then [] else [MessageTree(messages[0], scope)] + MessageTrees(messages[1..], scope)
  }

  function MethodTree(m: MethodProto, service: string): Tree {
    Node([Leaf(Check(ValidIdentifier(m.name))), Leaf(Declare(service + "." + m.name, METHOD))])
  }

  function MethodTrees(methods: seq<MethodProto>, service: string): seq<Tree> {
    seq(|methods|, i requires 0 <= i < |methods| => MethodTree(methods[i], service))
  }

  function ServiceTree(s: ServiceProto, scope: string): Tree {
    var full := Under(scope, s.name);
    Node([Leaf(Check(ValidIdentifier(s.name))), Node(MethodTrees(s.methods, full)), Leaf(Declare(full, SERVICE))])
  }

  function ServiceTrees(services: seq<ServiceProto>, scope: string): seq<Tree> {
    seq(|services|, i requires 0 <= i < |services| => ServiceTree(services[i], scope))
  }

  function ScopeOf(proto: FileProto): string {
    if proto.package.Some? then proto.package.value else ""
  }

  function FileTree(proto: FileProto): Tree {
    var scope := ScopeOf(proto);
    Node([Node(MessageTrees(proto.messages, scope)), Node(EnumTrees(proto.enums, scope)),
          Node(ServiceTrees(proto.services, scope)), Node(FieldTrees(proto.extensions, scope, true))])
  }

  // ----- Flattened, it is what the builder does -----

  lemma UnderIsJoin(scope: string, name: string)
    ensures Under(scope, name) == Join(scope, name)
  {
  }

  /** The trees of a list, one after the other. */
  lemma FlatNode(trees: seq<Tree>)
    ensures Flat(Node(trees)) == FlatAll(trees)
  {
  }

  lemma FlatCons(t: Tree, trees: seq<Tree>)
    ensures FlatAll([t] + trees) == Flat(t) + FlatAll(trees) && FlatAll([]) == []
  {
    assert ([t] + trees)[1..] == trees;
  }

  lemma FlatLeaves(a: Step, b: Step)
    ensures FlatAll([Leaf(a), Leaf(b)]) == [a, b]
  {
    FlatCons(Leaf(b), []);
    FlatCons(Leaf(a), [Leaf(b)]);
    assert [Leaf(a)] + [Leaf(b)] == [Leaf(a), Leaf(b)] && [Leaf(b)] + [] == [Leaf(b)];
  }

  lemma FlatThree(a: Tree, b: Tree, c: Tree)
    ensures FlatAll([a, b, c]) == Flat(a) + (Flat(b) + Flat(c))
  {
    hide Flat;
    FlatCons(c, []);
    FlatCons(b, [c]);
    FlatCons(a, [b, c]);
    assert [c] + [] == [c] && [b] + [c] == [b, c] && [a] + [b, c] == [a, b, c];
    assert Flat(c) + [] == Flat(c);
  }

  lemma FlatFour(a: Tree, b: Tree, c: Tree, d: Tree)
    ensures FlatAll([a, b, c, d]) == Flat(a) + (Flat(b) + (Flat(c) + Flat(d)))
  {
    hide Flat;
    FlatThree(b, c, d);
    FlatCons(a, [b, c, d]);
    assert [a] + [b, c, d] == [a, b, c, d];
  }

  lemma {:induction false} FlatFields(fields: seq<FieldProto>, scope: string, isExtension: bool)
    ensures FlatAll(FieldTrees(fields, scope, isExtension)) == FieldSteps(fields, scope, isExtension)
    decreases |fields|
  {
    hide Flat, ValidField, ValidIdentifier, Under, Join;
    if fields != [] {
      var f, trees := fields[0], FieldTrees(fields, scope, isExtension);
      FlatFields(fields[1..], scope, isExtension);
      assert trees[1..] == FieldTrees(fields[1..], scope, isExtension);
      FlatField(f, scope, isExtension);
    }
  }

  lemma FlatField(f: FieldProto, scope: string, isExtension: bool)
    ensures Flat(FieldTree(f, scope, isExtension))
         == [Check(ValidIdentifier(f.name)), Check(ValidField(f, isExtension)), Declare(Join(scope, f.name), FIELD)]
  {
    hide ValidField, ValidIdentifier;
    UnderIsJoin(scope, f.name);
    FlatThree(Leaf(Check(ValidIdentifier(f.name))), Leaf(Check(ValidField(f, isExtension))),
              Leaf(Declare(Under(scope, f.name), FIELD)));
  }

  lemma {:induction false} FlatValues(values: seq<string>, scope: string)
    ensures FlatAll(ValueTrees(values, scope)) == ValueSteps(values, scope)
    decreases |values|
  {
    hide Flat, ValidIdentifier, Under, Join;
    if values != [] {
      FlatValues(values[1..], scope);
      assert ValueTrees(values, scope)[1..] == ValueTrees(values[1..], scope);
      UnderIsJoin(scope, values[0]);
      FlatLeaves(Check(ValidIdentifier(values[0])), Declare(Under(scope, values[0]), ENUM_VALUE));
      FlatNode([Leaf(Check(ValidIdentifier(values[0]))), Leaf(Declare(Under(scope, values[0]), ENUM_VALUE))]);
    }
  }

  lemma {:induction false} FlatEnums(enums: seq<EnumProto>, scope: string)
    ensures FlatAll(EnumTrees(enums, scope)) == EnumSteps(enums, scope)
    decreases |enums|
  {
    hide Flat, ValidIdentifier, Under, Join;
    if enums != [] {
      FlatEnums(enums[1..], scope);
      assert EnumTrees(enums, scope)[1..] == EnumTrees(enums[1..], scope);
      FlatEnum(enums[0], scope);
    }
  }

  lemma FlatEnum(e: EnumProto, scope: string)
    ensures Flat(EnumTree(e, scope)) == [Check(ValidIdentifier(e.name)), Check(e.values != [])]
      + ValueSteps(e.values, scope) + [Declare(Join(scope, e.name), ENUM)]
  {
    hide ValidIdentifier, ValueTrees;
    UnderIsJoin(scope, e.name);
    FlatValues(e.values, scope);
    FlatFour(Leaf(Check(ValidIdentifier(e.name))), Leaf(Check(e.values != [])), Node(ValueTrees(e.values, scope)),
             Leaf(Declare(Under(scope, e.name), ENUM)));
  }

  lemma {:induction false} FlatMessage(m: MessageProto, scope: string)
    ensures Flat(MessageTree(m, scope)) == MessageSteps(m, scope)
    decreases m, 1
  {
    hide ValidIdentifier, ValidRanges, FieldTrees, EnumTrees, MessageTrees, Under, Join, FlatAll;
    UnderIsJoin(scope, m.name);
    var full := Under(scope, m.name);
    FlatFields(m.fields, full, false);
    FlatMessages(m.nested, full);
    FlatEnums(m.enums, full);
    FlatFields(m.extensions, full, true);
    var a, b, z := Leaf(Check(ValidIdentifier(m.name))), Leaf(Check(ValidRanges(m))), Leaf(Declare(full, MESSAGE));
    var f, n := Node(FieldTrees(m.fields, full, false)), Node(MessageTrees(m.nested, full));
    var e, x := Node(EnumTrees(m.enums, full)), Node(FieldTrees(m.extensions, full, true));
    FlatSeven(a, b, f, n, e, x, z);
  }

  lemma FlatSeven(a: Tree, b: Tree, c: Tree, d: Tree, e: Tree, f: Tree, g: Tree)
    ensures FlatAll([a, b, c, d, e, f, g])
         == (Flat(a) + Flat(b)) + (Flat(c) + Flat(d) + Flat(e) + Flat(f)) + Flat(g)
  {
    hide Flat;
    FlatFour(d, e, f, g);
    FlatCons(c, [d, e, f, g]);
    FlatCons(b, [c, d, e, f, g]);
    FlatCons(a, [b, c, d, e, f, g]);
    assert [c] + [d, e, f, g] == [c, d, e, f, g] && [b] + [c, d, e, f, g] == [b, c, d, e, f, g];
    assert [a] + [b, c, d, e, f, g] == [a, b, c, d, e, f, g];
  }

  lemma {:induction false} FlatMessages(messages: seq<MessageProto>, scope: string)
    ensures FlatAll(MessageTrees(messages, scope)) == MessagesSteps(messages, scope)
    decreases messages
  {
    hide Flat, MessageTree, MessageSteps;
    if messages != [] {
      FlatMessage(messages[0], scope);
      FlatMessages(messages[1..], scope);
      FlatCons(MessageTree(messages[0], scope), MessageTrees(messages[1..], scope));
    }
  }

  lemma {:induction false} FlatMethods(methods: seq<MethodProto>, service: string)
    ensures FlatAll(MethodTrees(methods, service)) == MethodSteps(methods, service)
    decreases |methods|
  {
    hide Flat, ValidIdentifier;
    if methods != [] {
      var m := methods[0];
      FlatMethods(methods[1..], service);
      assert MethodTrees(methods, service)[1..] == MethodTrees(methods[1..], service);
      FlatLeaves(Check(ValidIdentifier(m.name)), Declare(service + "." + m.name, METHOD));
      FlatNode([Leaf(Check(ValidIdentifier(m.name))), Leaf(Declare(service + "." + m.name, METHOD))]);
    }
  }

  lemma {:induction false} FlatServices(services: seq<ServiceProto>, scope: string)
    ensures FlatAll(ServiceTrees(services, scope)) == ServiceSteps(services, scope)
    decreases |services|
  {
    hide Flat, ValidIdentifier, Under, Join;
    if services != [] {
      FlatServices(services[1..], scope);
      assert ServiceTrees(services, scope)[1..] == ServiceTrees(services[1..], scope);
      FlatService(services[0], scope);
    }
  }

  lemma FlatService(s: ServiceProto, scope: string)
    ensures Flat(ServiceTree(s, scope))
         == [Check(ValidIdentifier(s.name))] + MethodSteps(s.methods, Join(scope, s.name))
      + [Declare(Join(scope, s.name), SERVICE)]
  {
    hide ValidIdentifier, MethodTrees;
    UnderIsJoin(scope, s.name);
    FlatMethods(s.methods, Under(scope, s.name));
    FlatThree(Leaf(Check(ValidIdentifier(s.name))), Node(MethodTrees(s.methods, Under(scope, s.name))),
              Leaf(Declare(Under(scope, s.name), SERVICE)));
  }

  lemma FlatFile(proto: FileProto)
    ensures Flat(FileTree(proto)) == FileSteps(proto)
  {
    hide FieldTrees, EnumTrees, ServiceTrees, MessageTrees, FlatAll, MessagesSteps, EnumSteps, ServiceSteps, FieldSteps;
    var scope := ScopeOf(proto);
    FlatMessages(proto.messages, scope);
    FlatEnums(proto.enums, scope);
    FlatServices(proto.services, scope);
    FlatFields(proto.extensions, scope, true);
    FlatFour(Node(MessageTrees(proto.messages, scope)), Node(EnumTrees(proto.enums, scope)),
             Node(ServiceTrees(proto.services, scope)), Node(FieldTrees(proto.extensions, scope, true)));
    Grouped(MessagesSteps(proto.messages, scope), EnumSteps(proto.enums, scope), ServiceSteps(proto.services, scope),
            FieldSteps(proto.extensions, scope, true));
  }

  lemma Grouped(a: seq<Step>, b: seq<Step>, c: seq<Step>, d: seq<Step>)
    ensures a + (b + (c + d)) == a + b + c + d
  {
  }

  // ----- Positions are the leaves that declare -----

  /** From a message's tree to the leaf that declares the place in it. */
  function LeafInMessage(place: Place): seq<nat> {
    match place
    case Self => [6]
    case FieldOf(i) => [2, i, 2]
    case EnumOf(i) => [4, i, 3]
    case ValueOf(i, j) => [4, i, 2, j, 1]
    case ExtensionOf(i) => [5, i, 2]
    case _ => []
  }

  function LeafInMessages(path: seq<nat>, place: Place): seq<nat>
    requires path != []
    decreases |path|
  {
    [path[0]] + if |path| == 1 then LeafInMessage(place) else [3] + LeafInMessages(path[1..], place)
  }

  function LeafOf(at: Position): seq<nat> {
    if at.path != [] then [0] + LeafInMessages(at.path, at.place)
    else
      match at.place
      case EnumOf(i) => [1, i, 3]
      case ValueOf(i, j) => [1, i, 2, j, 1]
      case ServiceOf(i) => [2, i, 2]
      case MethodOf(i, j) => [2, i, 1, j, 1]
      case ExtensionOf(i) => [3, i, 2]
      case _ => []
  }

  lemma {:induction false} MessageTreeAt(messages: seq<MessageProto>, scope: string, i: nat)
    requires i < |messages|
    ensures MessageTrees(messages, scope)[i] == MessageTree(messages[i], scope)
    decreases i
  {
    hide MessageTree;
    if i > 0 { MessageTreeAt(messages[1..], scope, i - 1); }
  }

  /** The leaf of a node two or four levels down. */
  lemma TwoDown(t: Tree, a: nat, b: nat, c: nat)
    requires t.Node? && a < |t.children| && t.children[a].Node? && b < |t.children[a].children|
    requires var u := t.children[a].children[b]; u.Node? && c < |u.children| && u.children[c].Leaf?
    ensures HasPath(t, [a, b, c]) && StepAt(t, [a, b, c]) == t.children[a].children[b].children[c].step
  {
    OneDown(t.children[a].children[b], c);
    Down(t.children[a], b, [c]);
    Down(t, a, [b] + [c]);
    assert [a] + ([b] + [c]) == [a, b, c];
  }

  lemma FourDown(t: Tree, a: nat, b: nat, c: nat, d: nat, e: nat)
    requires t.Node? && a < |t.children| && t.children[a].Node? && b < |t.children[a].children|
    requires HasPath(t.children[a].children[b], [c, d, e])
    ensures HasPath(t, [a, b, c, d, e]) && StepAt(t, [a, b, c, d, e]) == StepAt(t.children[a].children[b], [c, d, e])
  {
    Down(t.children[a], b, [c, d, e]);
    Down(t, a, [b] + [c, d, e]);
    assert [a] + ([b] + [c, d, e]) == [a, b, c, d, e];
  }

  lemma LeafIsInMessage(m: MessageProto, scope: string, place: Place)
    requires InMessage(m, place)
    ensures HasPath(MessageTree(m, scope), LeafInMessage(place))
    ensures StepAt(MessageTree(m, scope), LeafInMessage(place))
         == Declare(NameInMessage(m, Under(scope, m.name), place), KindAt(place))
  {
    hide HasPath, StepAt, Under, ValidIdentifier, ValidField, ValidRanges;
    var t, full := MessageTree(m, scope), Under(scope, m.name);
    match place
    case Self => OneDown(t, 6);
    case FieldOf(i) => TwoDown(t, 2, i, 2);
    case EnumOf(i) => TwoDown(t, 4, i, 3);
    case ValueOf(i, j) =>
      TwoDown(EnumTree(m.enums[i], full), 2, j, 1);
      FourDown(t, 4, i, 2, j, 1);
    case ExtensionOf(i) => TwoDown(t, 5, i, 2);
  }

  lemma OneDown(t: Tree, a: nat)
    requires t.Node? && a < |t.children| && t.children[a].Leaf?
    ensures HasPath(t, [a]) && StepAt(t, [a]) == t.children[a].step
  {
    assert [a][1..] == [];
  }

  lemma Down(t: Tree, a: nat, path: seq<nat>)
    requires t.Node? && a < |t.children| && HasPath(t.children[a], path)
    ensures HasPath(t, [a] + path) && StepAt(t, [a] + path) == StepAt(t.children[a], path)
  {
    assert ([a] + path)[1..] == path;
  }

  lemma {:induction false} LeafIsInMessages(messages: seq<MessageProto>, scope: string, path: seq<nat>, place: Place)
    requires InMessages(messages, path, place)
    ensures var t := Node(MessageTrees(messages, scope));
      && HasPath(t, LeafInMessages(path, place))
      && StepAt(t, LeafInMessages(path, place)) == Declare(NameInMessages(messages, scope, path, place), KindAt(place))
    decreases |path|
  {
    hide HasPath, StepAt, Under, LeafInMessage, MessageTrees, FieldTrees, EnumTrees, ValidIdentifier, ValidRanges;
    var m := messages[path[0]];
    MessageTreeAt(messages, scope, path[0]);
    if |path| == 1 {
      LeafIsInMessage(m, scope, place);
    } else {
      LeafIsInMessages(m.nested, Under(scope, m.name), path[1..], place);
      Down(MessageTree(m, scope), 3, LeafInMessages(path[1..], place));
    }
    var inner := if |path| == 1 then LeafInMessage(place) else [3] + LeafInMessages(path[1..], place);
    Down(Node(MessageTrees(messages, scope)), path[0], inner);
  }

  /** Each position has a leaf, which declares what is there. */
  lemma LeafIsInFile(proto: FileProto, at: Position)
    requires InFile(proto, at)
    ensures HasPath(FileTree(proto), LeafOf(at))
    ensures StepAt(FileTree(proto), LeafOf(at)) == Declare(NameAt(proto, at), KindAt(at.place))
  {
    hide HasPath, StepAt, Under, LeafInMessages, MessageTrees, ValidIdentifier, ValidField, NameInMessages, InMessages;
    var t, scope := FileTree(proto), ScopeOf(proto);
    if at.path != [] {
      LeafIsInMessages(proto.messages, scope, at.path, at.place);
      Down(t, 0, LeafInMessages(at.path, at.place));
    } else {
      match at.place
      case EnumOf(i) => TwoDown(t, 1, i, 3);
      case ValueOf(i, j) =>
        TwoDown(EnumTree(proto.enums[i], scope), 2, j, 1);
        FourDown(t, 1, i, 2, j, 1);
      case ServiceOf(i) => TwoDown(t, 2, i, 2);
      case MethodOf(i, j) =>
        TwoDown(ServiceTree(proto.services[i], scope), 1, j, 1);
        FourDown(t, 2, i, 1, j, 1);
      case ExtensionOf(i) => TwoDown(t, 3, i, 2);
    }
  }

  /** Different positions have different leaves. */
  lemma {:induction false} LeafIsOwnInMessages(p: seq<nat>, a: Place, q: seq<nat>, b: Place)
    requires p != [] && q != [] && LeafInMessages(p, a) == LeafInMessages(q, b)
    requires LeafInMessage(a) != [] && LeafInMessage(b) != []
    ensures p == q && a == b
    decreases |p|
  {
    hide LeafInMessage;
    var x := if |p| == 1 then LeafInMessage(a) else [3] + LeafInMessages(p[1..], a);
    var y := if |q| == 1 then LeafInMessage(b) else [3] + LeafInMessages(q[1..], b);
    assert LeafInMessages(p, a)[0] == p[0] && LeafInMessages(q, b)[0] == q[0];
    assert x == LeafInMessages(p, a)[1..] == LeafInMessages(q, b)[1..] == y;
    FirstOfLeaf(a);
    FirstOfLeaf(b);
    if |p| == 1 {
      assert |q| == 1;
      LeafInMessageIsOwn(a, b);
    } else {
      assert |q| > 1;
      assert x[1..] == LeafInMessages(p[1..], a) && y[1..] == LeafInMessages(q[1..], b);
      LeafIsOwnInMessages(p[1..], a, q[1..], b);
    }
    assert p == [p[0]] + p[1..] && q == [q[0]] + q[1..];
  }

  lemma FirstOfLeaf(place: Place)
    ensures LeafInMessage(place) != [] ==> LeafInMessage(place)[0] != 3
  {
  }

  lemma LeafInMessageIsOwn(a: Place, b: Place)
    requires LeafInMessage(a) == LeafInMessage(b) != []
    ensures a == b
  {
    var x, y := LeafInMessage(a), LeafInMessage(b);
    assert x[0] == y[0] && (|x| > 1 ==> x[1] == y[1]) && (|x| > 3 ==> x[3] == y[3]);
  }

  lemma {:induction false} PlaceHasLeaf(messages: seq<MessageProto>, path: seq<nat>, place: Place)
    requires InMessages(messages, path, place)
    ensures LeafInMessage(place) != []
    decreases |path|
  {
    if |path| > 1 { PlaceHasLeaf(messages[path[0]].nested, path[1..], place); }
  }

  lemma LeafIsOwn(proto: FileProto, a: Position, b: Position)
    requires InFile(proto, a) && InFile(proto, b) && LeafOf(a) == LeafOf(b)
    ensures a == b
  {
    hide LeafInMessages, LeafInMessage, InMessages;
    var x, y := LeafOf(a), LeafOf(b);
    assert x[0] == y[0] && |x| == |y|;
    if a.path != [] {
      PlaceHasLeaf(proto.messages, a.path, a.place);
      PlaceHasLeaf(proto.messages, b.path, b.place);
      assert x[1..] == LeafInMessages(a.path, a.place) && y[1..] == LeafInMessages(b.path, b.place);
      LeafIsOwnInMessages(a.path, a.place, b.path, b.place);
    } else {
      assert x[1] == y[1] && (|x| > 3 ==> x[3] == y[3]);
    }
  }

  // ----- Every leaf belongs to a position -----

  /** What a leaf found in a tree says of the place it belongs to. */
  ghost predicate BelongsTo(step: Step, leaf: seq<nat>, path: seq<nat>, sound: bool) {
    (step.Declare? ==> leaf == path) && (step == Check(false) ==> !sound)
  }

  lemma OneLeaf(t: Tree, path: seq<nat>)
    requires HasPath(t, path) && t.Node? && (forall i | 0 <= i < |t.children| :: t.children[i].Leaf?)
    ensures |path| == 1 && path == [path[0]] && path[0] < |t.children|
      && StepAt(t, path) == t.children[path[0]].step
  {
    assert HasPath(t.children[path[0]], path[1..]);
    assert path == [path[0]] + path[1..];
  }

  lemma Below(t: Tree, path: seq<nat>)
    requires HasPath(t, path) && t.Node?
    ensures path != [] && path[0] < |t.children| && HasPath(t.children[path[0]], path[1..])
    ensures StepAt(t, path) == StepAt(t.children[path[0]], path[1..]) && path == [path[0]] + path[1..]
    ensures t.children[path[0]].Leaf? ==> path == [path[0]] && StepAt(t, path) == t.children[path[0]].step
  {
  }

  lemma FieldLeaf(f: FieldProto, scope: string, isExtension: bool, path: seq<nat>)
    requires HasPath(FieldTree(f, scope, isExtension), path)
    ensures var step := StepAt(FieldTree(f, scope, isExtension), path);
      BelongsTo(step, [2], path, ValidIdentifier(f.name) && ValidField(f, isExtension))
  {
    hide ValidIdentifier, ValidField, Under, HasPath, StepAt;
    OneLeaf(FieldTree(f, scope, isExtension), path);
  }

  lemma ValueLeaf(value: string, scope: string, path: seq<nat>)
    requires HasPath(ValueTree(value, scope), path)
    ensures BelongsTo(StepAt(ValueTree(value, scope), path), [1], path, ValidIdentifier(value))
  {
    hide ValidIdentifier, Under, HasPath, StepAt;
    OneLeaf(ValueTree(value, scope), path);
  }

  lemma MethodLeaf(m: MethodProto, service: string, path: seq<nat>)
    requires HasPath(MethodTree(m, service), path)
    ensures BelongsTo(StepAt(MethodTree(m, service), path), [1], path, ValidIdentifier(m.name))
  {
    hide ValidIdentifier, HasPath, StepAt;
    OneLeaf(MethodTree(m, service), path);
  }

  /** A leaf of an enum is its own or one of a value's. */
  lemma EnumLeaf(e: EnumProto, scope: string, path: seq<nat>)
    requires HasPath(EnumTree(e, scope), path)
    ensures var step := StepAt(EnumTree(e, scope), path);
      if path[0] == 2
      then |path| > 1 && path[1] < |e.values|
        && BelongsTo(step, [2, path[1], 1], path, ValidIdentifier(e.values[path[1]]))
      else BelongsTo(step, [3], path, ValidIdentifier(e.name) && e.values != [])
  {
    hide ValidIdentifier, Under, HasPath, StepAt;
    var t := EnumTree(e, scope);
    Below(t, path);
    if path[0] == 2 {
      var p := path[1..];
      Below(t.children[2], p);
      ValueLeaf(e.values[p[0]], scope, p[1..]);
    }
  }

  lemma ServiceLeaf(s: ServiceProto, scope: string, path: seq<nat>)
    requires HasPath(ServiceTree(s, scope), path)
    ensures var step := StepAt(ServiceTree(s, scope), path);
      if path[0] == 1
      then |path| > 1 && path[1] < |s.methods|
        && BelongsTo(step, [1, path[1], 1], path, ValidIdentifier(s.methods[path[1]].name))
      else BelongsTo(step, [2], path, ValidIdentifier(s.name))
  {
    hide ValidIdentifier, Under, HasPath, StepAt;
    var t := ServiceTree(s, scope);
    Below(t, path);
    if path[0] == 1 {
      var p := path[1..];
      Below(t.children[1], p);
      MethodLeaf(s.methods[p[0]], Under(scope, s.name), p[1..]);
    }
  }

  lemma MessageLeaf(m: MessageProto, scope: string, path: seq<nat>) returns (place: Place)
    requires HasPath(MessageTree(m, scope), path) && path[0] != 3
    ensures InMessage(m, place)
    ensures BelongsTo(StepAt(MessageTree(m, scope), path), LeafInMessage(place), path, SoundInMessage(m, place))
  {
    hide ValidIdentifier, ValidField, ValidRanges, Under, HasPath, StepAt;
    var t, full := MessageTree(m, scope), Under(scope, m.name);
    Below(t, path);
    if path[0] == 2 || path[0] == 4 || path[0] == 5 {
      var p := path[1..];
      Below(t.children[path[0]], p);
      assert path == [path[0], p[0]] + p[1..];
      if path[0] == 2 {
        FieldLeaf(m.fields[p[0]], full, false, p[1..]);
        place := FieldOf(p[0]);
      } else if path[0] == 5 {
        FieldLeaf(m.extensions[p[0]], full, true, p[1..]);
        place := ExtensionOf(p[0]);
      } else {
        EnumLeaf(m.enums[p[0]], full, p[1..]);
        place := if p[1..][0] == 2 then ValueOf(p[0], p[1..][1]) else EnumOf(p[0]);
      }
    } else {
      place := Self;
    }
  }

  lemma {:induction false} MessagesLeaf(messages: seq<MessageProto>, scope: string, leaf: seq<nat>)
    returns (path: seq<nat>, place: Place)
    requires HasPath(Node(MessageTrees(messages, scope)), leaf)
    ensures InMessages(messages, path, place)
    ensures BelongsTo(StepAt(Node(MessageTrees(messages, scope)), leaf), LeafInMessages(path, place), leaf,
                      SoundInMessages(messages, path, place))
    decreases |leaf|
  {
    hide HasPath, StepAt, Under, LeafInMessage, MessageTrees, FieldTrees, EnumTrees, ValidIdentifier, ValidRanges,
      SoundInMessage, InMessage;
    var t := Node(MessageTrees(messages, scope));
    Below(t, leaf);
    var i, rest := leaf[0], leaf[1..];
    var m := messages[i];
    MessageTreeAt(messages, scope, i);
    Below(MessageTree(m, scope), rest);
    if rest[0] == 3 {
      path, place := MessagesLeaf(m.nested, Under(scope, m.name), rest[1..]);
      path := [i] + path;
      assert path[1..] == path[1..] && path[0] == i;
    } else {
      place := MessageLeaf(m, scope, rest);
      path := [i];
    }
  }

  lemma FileLeaf(proto: FileProto, leaf: seq<nat>) returns (at: Position)
    requires HasPath(FileTree(proto), leaf)
    ensures InFile(proto, at) && BelongsTo(StepAt(FileTree(proto), leaf), LeafOf(at), leaf, SoundAt(proto, at))
  {
    hide HasPath, StepAt, Under, LeafInMessages, MessageTrees, ValidIdentifier, ValidField, InMessages, SoundInMessages;
    var t, scope := FileTree(proto), ScopeOf(proto);
    Below(t, leaf);
    var p := leaf[1..];
    if leaf[0] == 0 {
      var path, place := MessagesLeaf(proto.messages, scope, p);
      PathIsThere(proto.messages, path, place);
      at := Position(path, place);
    } else {
      Below(t.children[leaf[0]], p);
      var i, q := p[0], p[1..];
      assert leaf == [leaf[0], i] + q;
      if leaf[0] == 1 {
        EnumLeaf(proto.enums[i], scope, q);
        at := Position([], if q[0] == 2 then ValueOf(i, q[1]) else EnumOf(i));
      } else if leaf[0] == 2 {
        ServiceLeaf(proto.services[i], scope, q);
        at := Position([], if q[0] == 1 then MethodOf(i, q[1]) else ServiceOf(i));
      } else {
        FieldLeaf(proto.extensions[i], scope, true, q);
        at := Position([], ExtensionOf(i));
      }
    }
  }

  lemma PathIsThere(messages: seq<MessageProto>, path: seq<nat>, place: Place)
    requires InMessages(messages, path, place)
    ensures path != []
  {
  }

  // ----- A check that fails is among the steps -----

  ghost predicate Fails(t: Tree) {
    exists path :: HasPath(t, path) && StepAt(t, path) == Check(false)
  }

  lemma ChildFails(t: Tree, a: nat)
    requires t.Node? && a < |t.children| && Fails(t.children[a])
    ensures Fails(t)
  {
    hide HasPath, StepAt;
    var path :| HasPath(t.children[a], path) && StepAt(t.children[a], path) == Check(false);
    Down(t, a, path);
  }

  lemma LeafFails(step: Step)
    requires step == Check(false)
    ensures Fails(Leaf(step))
  {
    assert HasPath(Leaf(step), []) && StepAt(Leaf(step), []) == Check(false);
  }

  lemma GrandchildFails(t: Tree, a: nat, b: nat)
    requires t.Node? && a < |t.children| && t.children[a].Node? && b < |t.children[a].children|
    requires Fails(t.children[a].children[b])
    ensures Fails(t)
  {
    hide Fails;
    ChildFails(t.children[a], b);
    ChildFails(t, a);
  }

  lemma FieldFails(f: FieldProto, scope: string, isExtension: bool)
    requires !(ValidIdentifier(f.name) && ValidField(f, isExtension))
    ensures Fails(FieldTree(f, scope, isExtension))
  {
    hide Fails, ValidIdentifier, ValidField, Under;
    var t := FieldTree(f, scope, isExtension);
    if !ValidIdentifier(f.name) {
      LeafFails(t.children[0].step);
      ChildFails(t, 0);
    } else {
      LeafFails(t.children[1].step);
      ChildFails(t, 1);
    }
  }

  lemma EnumFails(e: EnumProto, scope: string)
    requires !(ValidIdentifier(e.name) && e.values != [])
    ensures Fails(EnumTree(e, scope))
  {
    hide Fails, ValidIdentifier, Under;
    var t := EnumTree(e, scope);
    if !ValidIdentifier(e.name) {
      LeafFails(t.children[0].step);
      ChildFails(t, 0);
    } else {
      LeafFails(t.children[1].step);
      ChildFails(t, 1);
    }
  }

  lemma ValueFails(e: EnumProto, scope: string, j: nat)
    requires j < |e.values| && !ValidIdentifier(e.values[j])
    ensures Fails(EnumTree(e, scope))
  {
    hide Fails, ValidIdentifier, Under;
    var v := ValueTree(e.values[j], scope);
    LeafFails(v.children[0].step);
    ChildFails(v, 0);
    GrandchildFails(EnumTree(e, scope), 2, j);
  }

  lemma ServiceFails(s: ServiceProto, scope: string)
    requires !ValidIdentifier(s.name)
    ensures Fails(ServiceTree(s, scope))
  {
    hide Fails, ValidIdentifier, Under;
    LeafFails(ServiceTree(s, scope).children[0].step);
    ChildFails(ServiceTree(s, scope), 0);
  }

  lemma MethodFails(s: ServiceProto, scope: string, j: nat)
    requires j < |s.methods| && !ValidIdentifier(s.methods[j].name)
    ensures Fails(ServiceTree(s, scope))
  {
    hide Fails, ValidIdentifier, Under;
    var m := MethodTree(s.methods[j], Under(scope, s.name));
    LeafFails(m.children[0].step);
    ChildFails(m, 0);
    GrandchildFails(ServiceTree(s, scope), 1, j);
  }

  lemma MessageFails(m: MessageProto, scope: string, place: Place)
    requires InMessage(m, place) && !SoundInMessage(m, place)
    ensures Fails(MessageTree(m, scope))
  {
    hide Fails, ValidIdentifier, ValidField, ValidRanges, Under;
    var t, full := MessageTree(m, scope), Under(scope, m.name);
    match place
    case Self =>
      if !ValidIdentifier(m.name) {
        LeafFails(t.children[0].step);
        ChildFails(t, 0);
      } else {
        LeafFails(t.children[1].step);
        ChildFails(t, 1);
      }
    case FieldOf(i) =>
      FieldFails(m.fields[i], full, false);
      GrandchildFails(t, 2, i);
    case ExtensionOf(i) =>
      FieldFails(m.extensions[i], full, true);
      GrandchildFails(t, 5, i);
    case EnumOf(i) =>
      EnumFails(m.enums[i], full);
      GrandchildFails(t, 4, i);
    case ValueOf(i, j) =>
      ValueFails(m.enums[i], full, j);
      GrandchildFails(t, 4, i);
  }

  lemma {:induction false} MessagesFail(messages: seq<MessageProto>, scope: string, path: seq<nat>, place: Place)
    requires InMessages(messages, path, place) && !SoundInMessages(messages, path, place)
    ensures Fails(Node(MessageTrees(messages, scope)))
    decreases |path|
  {
    hide Fails, Under, MessageTrees, FieldTrees, EnumTrees, InMessage, SoundInMessage;
    var m := messages[path[0]];
    MessageTreeAt(messages, scope, path[0]);
    if |path| == 1 {
      MessageFails(m, scope, place);
    } else {
      MessagesFail(m.nested, Under(scope, m.name), path[1..], place);
      ChildFails(MessageTree(m, scope), 3);
    }
    ChildFails(Node(MessageTrees(messages, scope)), path[0]);
  }

  lemma FileFails(proto: FileProto, at: Position)
    requires InFile(proto, at) && !SoundAt(proto, at)
    ensures Fails(FileTree(proto))
  {
    hide Fails, Under, MessageTrees, InMessages, SoundInMessages, ValidIdentifier, ValidField;
    var t, scope := FileTree(proto), ScopeOf(proto);
    if at.path != [] {
      MessagesFail(proto.messages, scope, at.path, at.place);
      ChildFails(t, 0);
    } else {
      match at.place
      case ExtensionOf(i) =>
        FieldFails(proto.extensions[i], scope, true);
        GrandchildFails(t, 3, i);
      case EnumOf(i) =>
        EnumFails(proto.enums[i], scope);
        GrandchildFails(t, 1, i);
      case ValueOf(i, j) =>
        ValueFails(proto.enums[i], scope, j);
        GrandchildFails(t, 1, i);
      case ServiceOf(i) =>
        ServiceFails(proto.services[i], scope);
        GrandchildFails(t, 2, i);
      case MethodOf(i, j) =>
        MethodFails(proto.services[i], scope, j);
        GrandchildFails(t, 2, i);
    }
  }

  // ----- What a file declares -----

  /**
   * Building declares exactly what stands at the positions of the file, each under its full name and as what it is:
   * messages at every depth, their fields and extensions, enums, the values of enums beside them, services and methods.
   */
  lemma DeclaredExactly(proto: FileProto, name: string, kind: Kind)
    ensures Declare(name, kind) in FileSteps(proto)
       <==> exists at :: InFile(proto, at) && NameAt(proto, at) == name && KindAt(at.place) == kind
  {
    hide FileSteps, FileTree, Flat, IndexOf, StepAt, HasPath, LeafOf, InFile, NameAt, SoundAt;
    var t := FileTree(proto);
    FlatFile(proto);
    if Declare(name, kind) in FileSteps(proto) {
      var k :| 0 <= k < |Flat(t)| && Flat(t)[k] == Declare(name, kind);
      var leaf := EveryIndex(t, k);
      IndexIsIn(t, leaf);
      var at := FileLeaf(proto, leaf);
      LeafIsInFile(proto, at);
    }
    if at :| InFile(proto, at) && NameAt(proto, at) == name && KindAt(at.place) == kind {
      LeafIsInFile(proto, at);
      IndexIsIn(t, LeafOf(at));
    }
  }

  /** Every check holds at every position, no two positions have one name, and none has a name that is taken. */
  ghost predicate Acceptable(names: set<string>, proto: FileProto) {
    && (forall at | InFile(proto, at) :: SoundAt(proto, at) && NameAt(proto, at) !in names)
    && forall a, b | InFile(proto, a) && InFile(proto, b) && a != b :: NameAt(proto, a) != NameAt(proto, b)
  }

  /** The declarations among some steps have one name each, none of them taken, and the checks hold. */
  ghost predicate NoneTwice(names: set<string>, steps: seq<Step>) {
    && Check(false) !in steps
    && (forall i | 0 <= i < |steps| && steps[i].Declare? :: steps[i].name !in names)
    && forall i, j | 0 <= i < j < |steps| && steps[i].Declare? && steps[j].Declare? :: steps[i].name != steps[j].name
  }

  lemma {:induction false} CleanIsNoneTwice(names: set<string>, steps: seq<Step>)
    ensures Clean(names, steps) <==> NoneTwice(names, steps)
    decreases |steps|
  {
    if steps != [] {
      var first, rest := steps[0], steps[1..];
      var names' := if first.Declare? then names + {first.name} else names;
      CleanIsNoneTwice(names', rest);
      NoneTwiceFirst(names, steps);
    }
  }

  lemma NoneTwiceFirst(names: set<string>, steps: seq<Step>)
    requires steps != []
    ensures var first, rest := steps[0], steps[1..];
      NoneTwice(names, steps) <==> if first.Declare? then first.name !in names && NoneTwice(names + {first.name}, rest)
                                   else first != Check(false) && NoneTwice(names, rest)
  {
    var first, rest := steps[0], steps[1..];
    assert steps == [first] + rest;
    assert Check(false) in steps <==> first == Check(false) || Check(false) in rest;
    var names' := if first.Declare? then names + {first.name} else names;
    if NoneTwice(names, steps) {
      forall i | 0 <= i < |rest| && rest[i].Declare? ensures rest[i].name !in names' {
        assert steps[i + 1] == rest[i];
      }
      forall i, j | 0 <= i < j < |rest| && rest[i].Declare? && rest[j].Declare? ensures rest[i].name != rest[j].name {
        assert steps[i + 1] == rest[i] && steps[j + 1] == rest[j];
      }
    }
    if first != Check(false) && (first.Declare? ==> first.name !in names) && NoneTwice(names', rest) {
      forall i | 0 <= i < |steps| && steps[i].Declare? ensures steps[i].name !in names {
        if i > 0 { assert steps[i] == rest[i - 1]; }
      }
      forall i, j | 0 <= i < j < |steps| && steps[i].Declare? && steps[j].Declare?
        ensures steps[i].name != steps[j].name
      {
        assert steps[j] == rest[j - 1];
        if i > 0 { assert steps[i] == rest[i - 1]; }
      }
    }
  }

  /**
   * Building the descriptors of a file reports no error if and only if everything in it is well-formed and every name,
   * wherever it is declared, is new.
   */
  lemma CleanExactly(names: set<string>, proto: FileProto)
    ensures Clean(names, FileSteps(proto)) <==> Acceptable(names, proto)
  {
    hide Clean, FileSteps, Flat, NoneTwice, Acceptable, FileTree;
    CleanIsNoneTwice(names, FileSteps(proto));
    FlatFile(proto);
    if Acceptable(names, proto) { AcceptableMeansNone(names, proto); }
    if NoneTwice(names, Flat(FileTree(proto))) { NoneMeansAcceptable(names, proto); }
  }

  lemma PositionOf(proto: FileProto, k: nat) returns (at: Position)
    requires k < |Flat(FileTree(proto))|
    ensures InFile(proto, at) && (Flat(FileTree(proto))[k] == Check(false) ==> !SoundAt(proto, at))
    ensures Flat(FileTree(proto))[k].Declare? ==>
      && HasPath(FileTree(proto), LeafOf(at)) && IndexOf(FileTree(proto), LeafOf(at)) == k
      && Flat(FileTree(proto))[k].name == NameAt(proto, at)
  {
    hide FileTree, Flat, IndexOf, StepAt, HasPath, LeafOf, InFile, NameAt, SoundAt;
    var leaf := EveryIndex(FileTree(proto), k);
    IndexIsIn(FileTree(proto), leaf);
    at := FileLeaf(proto, leaf);
    LeafIsInFile(proto, at);
  }

  lemma AcceptableMeansNone(names: set<string>, proto: FileProto)
    requires Acceptable(names, proto)
    ensures NoneTwice(names, Flat(FileTree(proto)))
  {
    hide FileTree, Flat, IndexOf, StepAt, HasPath, LeafOf, InFile, NameAt, SoundAt;
    var steps := Flat(FileTree(proto));
    if Check(false) in steps {
      var k :| 0 <= k < |steps| && steps[k] == Check(false);
      var at := PositionOf(proto, k);
    }
    forall i | 0 <= i < |steps| && steps[i].Declare? ensures steps[i].name !in names {
      var at := PositionOf(proto, i);
    }
    forall i, j | 0 <= i < j < |steps| && steps[i].Declare? && steps[j].Declare?
      ensures steps[i].name != steps[j].name
    {
      var a := PositionOf(proto, i);
      var b := PositionOf(proto, j);
      assert a != b;
    }
  }

  lemma NoneMeansAcceptable(names: set<string>, proto: FileProto)
    requires NoneTwice(names, Flat(FileTree(proto)))
    ensures Acceptable(names, proto)
  {
    hide FileTree, Flat, IndexOf, StepAt, HasPath, LeafOf, InFile, NameAt, SoundAt;
    var t, steps := FileTree(proto), Flat(FileTree(proto));
    forall at | InFile(proto, at) ensures SoundAt(proto, at) && NameAt(proto, at) !in names {
      LeafIsInFile(proto, at);
      IndexIsIn(t, LeafOf(at));
      if !SoundAt(proto, at) {
        FileFails(proto, at);
        var leaf :| HasPath(t, leaf) && StepAt(t, leaf) == Check(false);
        IndexIsIn(t, leaf);
      }
    }
    forall a, b | InFile(proto, a) && InFile(proto, b) && a != b ensures NameAt(proto, a) != NameAt(proto, b) {
      LeafIsInFile(proto, a);
      LeafIsInFile(proto, b);
      if LeafOf(a) == LeafOf(b) { LeafIsOwn(proto, a, b); }
      IndexIsOwn(t, LeafOf(a), LeafOf(b));
      IndexIsIn(t, LeafOf(a));
      IndexIsIn(t, LeafOf(b));
    }
  }
}
