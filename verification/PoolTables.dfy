/** `DescriptorPool::Tables`: a symbol table with nested checkpoints.

    A pointer is the serial number `Id` of the allocation it points to; a freed number is not used again. */
module PoolTables {
  import opened OrderedMaps
  import opened Protos

  type Id = nat

  datatype Kind = MESSAGE | FIELD | ENUM | ENUM_VALUE | SERVICE | METHOD | PACKAGE

  /** A symbol, the file `GetFile` gives for it, its full name, and the allocated string its key points into. */
  datatype Symbol = Symbol(kind: Kind, file: Id, name: string, key: Id)

  datatype FileEntry = FileEntry(file: Id, key: Id)

  /** A descriptor, by its file and its full name there. */
  datatype Ref = Ref(file: Id, name: string)

  /** The extended type (null when an extension names none) and the field number. */
  type ExtensionKey = (Option<Ref>, int)

  /** The three maps and the four allocation vectors. */
  datatype Snapshot = Snapshot(
    symbols: map<string, Symbol>, files: map<string, FileEntry>, extensions: map<ExtensionKey, Ref>,
    strings: seq<Id>, messages: seq<Id>, fileTables: seq<Id>, allocations: seq<Id>)

  datatype CheckPoint = CheckPoint(
    strings: nat, messages: nat, fileTables: nat, allocations: nat,
    pendingSymbols: nat, pendingFiles: nat, pendingExtensions: nat)

  /** Everything checkpoints deal with: the snapshot, the stack, and the log of keys added. */
  datatype Log = Log(
    now: Snapshot, checkpoints: seq<CheckPoint>,
    symbolsAfter: seq<string>, filesAfter: seq<string>, extensionsAfter: seq<ExtensionKey>)

  const EMPTY := Log(Snapshot(map[], map[], map[], [], [], [], []), [], [], [], [])

  // ----- What the operations do -----

  function Here(t: Log): CheckPoint {
    CheckPoint(|t.now.strings|, |t.now.messages|, |t.now.fileTables|, |t.now.allocations|,
               |t.symbolsAfter|, |t.filesAfter|, |t.extensionsAfter|)
  }

  function Checkpointed(t: Log): Log {
    t.(checkpoints := t.checkpoints + [Here(t)])
  }

  function Cleared(t: Log): Log
    requires t.checkpoints != []
  {
    var u := t.(checkpoints := t.checkpoints[..|t.checkpoints| - 1]);
    if u.checkpoints == [] then u.(symbolsAfter := [], filesAfter := [], extensionsAfter := []) else u
  }

  predicate Fits(t: Log, c: CheckPoint) {
    && c.strings <= |t.now.strings| && c.messages <= |t.now.messages|
    && c.fileTables <= |t.now.fileTables| && c.allocations <= |t.now.allocations|
    && c.pendingSymbols <= |t.symbolsAfter| && c.pendingFiles <= |t.filesAfter|
    && c.pendingExtensions <= |t.extensionsAfter|
  }

  function Elements<T>(s: seq<T>): set<T> { set x | x in s }

  /** The snapshot without what was added after `c`. */
  function Undone(t: Log, c: CheckPoint): Snapshot
    requires Fits(t, c)
  {
    Snapshot(t.now.symbols - Elements(t.symbolsAfter[c.pendingSymbols..]),
             t.now.files - Elements(t.filesAfter[c.pendingFiles..]),
             t.now.extensions - Elements(t.extensionsAfter[c.pendingExtensions..]),
             t.now.strings[..c.strings], t.now.messages[..c.messages],
             t.now.fileTables[..c.fileTables], t.now.allocations[..c.allocations])
  }

  function RolledBack(t: Log): Log
    requires t.checkpoints != [] && Fits(t, t.checkpoints[|t.checkpoints| - 1])
  {
    var c := t.checkpoints[|t.checkpoints| - 1];
    Log(Undone(t, c), t.checkpoints[..|t.checkpoints| - 1],
        t.symbolsAfter[..c.pendingSymbols], t.filesAfter[..c.pendingFiles], t.extensionsAfter[..c.pendingExtensions])
  }

  function WithSymbol(t: Log, name: string, s: Symbol): Log {
    if name in t.now.symbols then t
    else t.(now := t.now.(symbols := t.now.symbols[name := s]), symbolsAfter := t.symbolsAfter + [name])
  }

  function WithFile(t: Log, name: string, f: FileEntry): Log {
    if name in t.now.files then t
    else t.(now := t.now.(files := t.now.files[name := f]), filesAfter := t.filesAfter + [name])
  }

  function WithExtension(t: Log, key: ExtensionKey, field: Ref): Log {
    if key in t.now.extensions then t
    else t.(now := t.now.(extensions := t.now.extensions[key := field]), extensionsAfter := t.extensionsAfter + [key])
  }

  datatype Op =
    | AddCheckpoint | ClearLastCheckpoint | RollbackToLastCheckpoint
    | AddSymbol(name: string, symbol: Symbol) | AddFile(filename: string, file: FileEntry)
    | AddExtension(key: ExtensionKey, field: Ref)
    | AllocateString(id: Id) | AllocateMessage(id: Id) | AllocateFileTables(id: Id) | AllocateBytes(id: Id)

  function Do(t: Log, op: Op): Log
    requires WellFormed(t) && Allowed(t, op)
  {
    match op
    case AddCheckpoint => Checkpointed(t)
    case ClearLastCheckpoint => Cleared(t)
    case RollbackToLastCheckpoint => RolledBack(t)
    case AddSymbol(name, s) => WithSymbol(t, name, s)
    case AddFile(name, f) => WithFile(t, name, f)
    case AddExtension(key, field) => WithExtension(t, key, field)
    case AllocateString(id) => t.(now := t.now.(strings := t.now.strings + [id]))
    case AllocateMessage(id) => t.(now := t.now.(messages := t.now.messages + [id]))
    case AllocateFileTables(id) => t.(now := t.now.(fileTables := t.now.fileTables + [id]))
    case AllocateBytes(id) => t.(now := t.now.(allocations := t.now.allocations + [id]))
  }

  /** What a caller must respect: a checkpoint to close, and live arguments. */
  predicate Allowed(t: Log, op: Op) {
    match op
    case ClearLastCheckpoint => t.checkpoints != []
    case RollbackToLastCheckpoint => t.checkpoints != []
    case AddSymbol(_, s) => s.key in t.now.strings && s.file in t.now.allocations
    case AddFile(_, f) => f.key in t.now.strings && f.file in t.now.allocations
    case AddExtension(key, field) => (key.0.Some? ==> key.0.value.file in t.now.allocations)
      && field.file in t.now.allocations
    case _ => true
  }

  /** Checkpoints fit, and record sizes in stack order. */
  predicate WellFormed(t: Log) {
    && (forall i | 0 <= i < |t.checkpoints| :: Fits(t, t.checkpoints[i]))
    && (forall i, j | 0 <= i < j < |t.checkpoints| :: NotAfter(t.checkpoints[i], t.checkpoints[j]))
  }

  predicate NotAfter(c: CheckPoint, d: CheckPoint) {
    && c.strings <= d.strings && c.messages <= d.messages
    && c.fileTables <= d.fileTables && c.allocations <= d.allocations
    && c.pendingSymbols <= d.pendingSymbols && c.pendingFiles <= d.pendingFiles
    && c.pendingExtensions <= d.pendingExtensions
  }

  // ----- The log refines a stack of saved snapshots -----

  /** The obvious implementation: a checkpoint saves a copy of everything. */
  datatype Stack = Stack(now: Snapshot, saved: seq<Snapshot>)

  ghost function Abs(t: Log): Stack
    requires WellFormed(t)
  {
    Stack(t.now, seq(|t.checkpoints|, i requires 0 <= i < |t.checkpoints| => Undone(t, t.checkpoints[i])))
  }

  function Added<K, V>(m: map<K, V>, k: K, v: V): map<K, V> {
    if k in m then m else m[k := v]
  }

  function DoStack(s: Stack, op: Op): Stack
    requires op.ClearLastCheckpoint? || op.RollbackToLastCheckpoint? ==> s.saved != []
  {
    match op
    case AddCheckpoint => s.(saved := s.saved + [s.now])
    case ClearLastCheckpoint => s.(saved := s.saved[..|s.saved| - 1])
    case RollbackToLastCheckpoint => Stack(s.saved[|s.saved| - 1], s.saved[..|s.saved| - 1])
    case AddSymbol(name, x) => s.(now := s.now.(symbols := Added(s.now.symbols, name, x)))
    case AddFile(name, f) => s.(now := s.now.(files := Added(s.now.files, name, f)))
    case AddExtension(key, field) => s.(now := s.now.(extensions := Added(s.now.extensions, key, field)))
    case AllocateString(id) => s.(now := s.now.(strings := s.now.strings + [id]))
    case AllocateMessage(id) => s.(now := s.now.(messages := s.now.messages + [id]))
    case AllocateFileTables(id) => s.(now := s.now.(fileTables := s.now.fileTables + [id]))
    case AllocateBytes(id) => s.(now := s.now.(allocations := s.now.allocations + [id]))
  }

  predicate Adds(op: Op) {
    !op.AddCheckpoint? && !op.ClearLastCheckpoint? && !op.RollbackToLastCheckpoint?
  }

  /** Adding never changes what a checkpoint would restore. */
  lemma AddKeepsUndone(t: Log, op: Op, c: CheckPoint)
    requires WellFormed(t) && Allowed(t, op) && Fits(t, c) && Adds(op)
    ensures Fits(Do(t, op), c) && Undone(Do(t, op), c) == Undone(t, c)
  {
    match op {
      case AddSymbol(name, x) => AddedThenRemoved(t.now.symbols, name, x, t.symbolsAfter, c.pendingSymbols);
      case AddFile(name, f) => AddedThenRemoved(t.now.files, name, f, t.filesAfter, c.pendingFiles);
      case AddExtension(key, field) =>
        AddedThenRemoved(t.now.extensions, key, field, t.extensionsAfter, c.pendingExtensions);
      case _ =>
    }
  }

  lemma AddedThenRemoved<K, V>(m: map<K, V>, k: K, v: V, log: seq<K>, n: nat)
    requires n <= |log|
    ensures k !in m ==> m[k := v] - Elements((log + [k])[n..]) == m - Elements(log[n..])
  {
    assert (log + [k])[n..] == log[n..] + [k];
    assert Elements((log + [k])[n..]) == Elements(log[n..]) + {k};
  }

  lemma LogCut<T>(a: seq<T>, n: nat, m: nat)
    requires n <= m <= |a|
    ensures Elements(a[n..]) == Elements(a[..m][n..]) + Elements(a[m..])
  {
    assert a[n..] == a[..m][n..] + a[m..];
  }

  /** Rolling back to a later checkpoint first loses nothing an earlier one needs. */
  lemma RollbackKeepsUndone(t: Log, c: CheckPoint)
    requires WellFormed(t) && t.checkpoints != [] && NotAfter(c, t.checkpoints[|t.checkpoints| - 1])
    ensures Fits(RolledBack(t), c) && Fits(t, c) && Undone(RolledBack(t), c) == Undone(t, c)
  {
    var d := t.checkpoints[|t.checkpoints| - 1];
    var u := RolledBack(t);
    LogCut(t.symbolsAfter, c.pendingSymbols, d.pendingSymbols);
    LogCut(t.filesAfter, c.pendingFiles, d.pendingFiles);
    LogCut(t.extensionsAfter, c.pendingExtensions, d.pendingExtensions);
    assert Undone(u, c).symbols == Undone(t, c).symbols;
    assert Undone(u, c).files == Undone(t, c).files;
    assert Undone(u, c).extensions == Undone(t, c).extensions;
  }

  lemma UndoneHere(t: Log)
    ensures Fits(t, Here(t)) && Undone(t, Here(t)) == t.now
  {
  }

  lemma RollbackRefines(t: Log)
    requires WellFormed(t) && t.checkpoints != []
    ensures WellFormed(RolledBack(t)) && Abs(RolledBack(t)) == DoStack(Abs(t), RollbackToLastCheckpoint)
  {
    var u := RolledBack(t);
    forall i | 0 <= i < |u.checkpoints|
      ensures Fits(u, u.checkpoints[i]) && Undone(u, u.checkpoints[i]) == Undone(t, t.checkpoints[i])
    {
      assert NotAfter(t.checkpoints[i], t.checkpoints[|t.checkpoints| - 1]);
      RollbackKeepsUndone(t, t.checkpoints[i]);
    }
    assert Abs(u).saved == Abs(t).saved[..|u.checkpoints|];
  }

  lemma AddRefines(t: Log, op: Op)
    requires WellFormed(t) && Allowed(t, op) && Adds(op)
    ensures WellFormed(Do(t, op)) && Abs(Do(t, op)) == DoStack(Abs(t), op)
  {
    var u := Do(t, op);
    forall i | 0 <= i < |u.checkpoints|
      ensures Fits(u, u.checkpoints[i]) && Undone(u, u.checkpoints[i]) == Undone(t, t.checkpoints[i])
    {
      AddKeepsUndone(t, op, t.checkpoints[i]);
    }
    assert Abs(u).saved == Abs(t).saved;
  }

  lemma CheckpointRefines(t: Log)
    requires WellFormed(t)
    ensures WellFormed(Checkpointed(t)) && Abs(Checkpointed(t)) == DoStack(Abs(t), AddCheckpoint)
  {
    UndoneHere(t);
    assert Abs(Checkpointed(t)).saved == Abs(t).saved + [t.now];
  }

  lemma ClearRefines(t: Log)
    requires WellFormed(t) && t.checkpoints != []
    ensures WellFormed(Cleared(t)) && Abs(Cleared(t)) == DoStack(Abs(t), ClearLastCheckpoint)
  {
    assert Abs(Cleared(t)).saved == Abs(t).saved[..|t.checkpoints| - 1];
  }

  /** One operation on the log is the same operation on the stack of saved snapshots. */
  lemma DoRefines(t: Log, op: Op)
    requires WellFormed(t) && Allowed(t, op)
    ensures WellFormed(Do(t, op)) && Abs(Do(t, op)) == DoStack(Abs(t), op)
  {
    match op {
      case AddCheckpoint => CheckpointRefines(t);
      case ClearLastCheckpoint => ClearRefines(t);
      case RollbackToLastCheckpoint => RollbackRefines(t);
      case _ => AddRefines(t, op);
    }
  }

  /** A run every operation of which is allowed. */
  ghost predicate LegalRun(t: Log, ops: seq<Op>)
    requires WellFormed(t)
    decreases |ops|
  {
    ops != [] ==> Allowed(t, ops[0]) && (DoRefines(t, ops[0]); LegalRun(Do(t, ops[0]), ops[1..]))
  }

  ghost function Run(t: Log, ops: seq<Op>): (u: Log)
    requires WellFormed(t) && LegalRun(t, ops)
    ensures WellFormed(u)
    decreases |ops|
  {
    if ops == [] then t else DoRefines(t, ops[0]); Run(Do(t, ops[0]), ops[1..])
  }

  ghost function RunStack(s: Stack, ops: seq<Op>): Stack
    requires LegalStackRun(|s.saved|, ops)
    decreases |ops|
  {
    if ops == [] then s else RunStack(DoStack(s, ops[0]), ops[1..])
  }

  /** The stack depth an operation leaves. */
  function Depth(n: nat, op: Op): int {
    match op
    case AddCheckpoint => n + 1
    case ClearLastCheckpoint => n - 1
    case RollbackToLastCheckpoint => n - 1
    case _ => n
  }

  predicate LegalStackRun(n: nat, ops: seq<Op>)
    decreases |ops|
  {
    ops != [] ==> Depth(n, ops[0]) >= 0 && LegalStackRun(Depth(n, ops[0]), ops[1..])
  }

  /** Nested undo is exact over every run: the log of added keys behaves as a stack of full copies. */
  lemma {:induction false} RunRefines(t: Log, ops: seq<Op>)
    requires WellFormed(t) && LegalRun(t, ops)
    ensures LegalStackRun(|t.checkpoints|, ops) && Abs(Run(t, ops)) == RunStack(Abs(t), ops)
    decreases |ops|
  {
    if ops != [] {
      DoRefines(t, ops[0]);
      RunRefines(Do(t, ops[0]), ops[1..]);
    }
  }

  /** The run never closes a checkpoint below depth `n`, and ends at depth `n`. */
  predicate Balanced(n: nat, depth: nat, ops: seq<Op>)
    decreases |ops|
  {
    if ops == [] then depth == n
    else Depth(depth, ops[0]) >= n && Balanced(n, Depth(depth, ops[0]), ops[1..])
  }

  /** The part of the log below depth `n` and before its checkpoint is as it was. */
  predicate SameBelow(t: Log, u: Log, n: nat)
    requires WellFormed(t) && WellFormed(u) && |t.checkpoints| == n
  {
    && n < |u.checkpoints| && u.checkpoints[..n] == t.checkpoints && u.checkpoints[n] == Here(t)
    && Undone(u, Here(t)) == t.now
    && u.symbolsAfter[..|t.symbolsAfter|] == t.symbolsAfter
    && u.filesAfter[..|t.filesAfter|] == t.filesAfter
    && u.extensionsAfter[..|t.extensionsAfter|] == t.extensionsAfter
  }

  lemma DoKeepsBelow(t: Log, u: Log, op: Op, n: nat)
    requires WellFormed(t) && WellFormed(u) && |t.checkpoints| == n && SameBelow(t, u, n)
    requires Allowed(u, op) && Depth(|u.checkpoints|, op) > n
    ensures WellFormed(Do(u, op)) && SameBelow(t, Do(u, op), n)
  {
    DoRefines(u, op);
    if op.RollbackToLastCheckpoint? {
      assert NotAfter(u.checkpoints[n], u.checkpoints[|u.checkpoints| - 1]);
      RollbackKeepsUndone(u, Here(t));
    } else if !op.AddCheckpoint? && !op.ClearLastCheckpoint? {
      AddKeepsUndone(u, op, Here(t));
    }
  }

  lemma {:induction false} RunKeepsBelow(t: Log, u: Log, ops: seq<Op>, n: nat)
    requires WellFormed(t) && WellFormed(u) && |t.checkpoints| == n && SameBelow(t, u, n)
    requires LegalRun(u, ops) && Balanced(n + 1, |u.checkpoints|, ops)
    ensures SameBelow(t, Run(u, ops), n) && |Run(u, ops).checkpoints| == n + 1
    decreases |ops|
  {
    if ops != [] {
      DoKeepsBelow(t, u, ops[0], n);
      RunKeepsBelow(t, Do(u, ops[0]), ops[1..], n);
    }
  }

  lemma {:induction false} RunSplit(t: Log, a: seq<Op>, b: seq<Op>)
    requires WellFormed(t) && LegalRun(t, a + b)
    ensures LegalRun(t, a) && LegalRun(Run(t, a), b) && Run(t, a + b) == Run(Run(t, a), b)
    decreases |a|
  {
    if a == [] {
      assert a + b == b;
    } else {
      assert (a + b)[0] == a[0] && (a + b)[1..] == a[1..] + b;
      DoRefines(t, a[0]);
      RunSplit(Do(t, a[0]), a[1..], b);
    }
  }

  /** A transaction that is rolled back leaves the tables exactly as they were: every map, vector,
      checkpoint and pending key, whatever nested transactions committed or were undone inside. */
  lemma RollbackIsExact(t: Log, ops: seq<Op>)
    requires WellFormed(t) && LegalRun(t, [AddCheckpoint] + ops + [RollbackToLastCheckpoint])
    requires Balanced(|t.checkpoints| + 1, |t.checkpoints| + 1, ops)
    ensures Run(t, [AddCheckpoint] + ops + [RollbackToLastCheckpoint]) == t
  {
    hide Balanced, WellFormed, Fits, Undone, RolledBack, SameBelow;
    CheckpointRefines(t);
    RunSplit(t, [AddCheckpoint] + ops, [RollbackToLastCheckpoint]);
    RunSplit(t, [AddCheckpoint], ops);
    RunOne(t, AddCheckpoint);
    CheckpointBelow(t);
    var u := Run(Checkpointed(t), ops);
    RunKeepsBelow(t, Checkpointed(t), ops, |t.checkpoints|);
    RunOne(u, RollbackToLastCheckpoint);
    BackBelow(t, u);
  }

  lemma RunOne(t: Log, op: Op)
    requires WellFormed(t) && LegalRun(t, [op])
    ensures Allowed(t, op) && Run(t, [op]) == Do(t, op)
  {
    assert [op][1..] == [];
    assert LegalRun(Do(t, op), []) && Run(Do(t, op), []) == Do(t, op);
  }

  lemma CheckpointBelow(t: Log)
    requires WellFormed(t)
    ensures WellFormed(Checkpointed(t)) && SameBelow(t, Checkpointed(t), |t.checkpoints|)
  {
    UndoneHere(t);
    CheckpointRefines(t);
  }

  /** Rolling back the one checkpoint above those of `t` gives `t`. */
  lemma BackBelow(t: Log, u: Log)
    requires WellFormed(t) && WellFormed(u) && SameBelow(t, u, |t.checkpoints|)
    requires |u.checkpoints| == |t.checkpoints| + 1
    ensures RolledBack(u) == t
  {
    assert u.checkpoints[..|u.checkpoints| - 1] == t.checkpoints;
  }

  // ----- No dangling pointers -----

  /** Every key points into a live string and every value at a live file. */
  ghost predicate Live(s: Snapshot) {
    && (forall n | n in s.symbols :: s.symbols[n].key in s.strings && s.symbols[n].file in s.allocations)
    && (forall n | n in s.files :: s.files[n].key in s.strings && s.files[n].file in s.allocations)
    && (forall k | k in s.extensions ::
          (k.0.Some? ==> k.0.value.file in s.allocations) && s.extensions[k].file in s.allocations)
  }

  ghost predicate AllLive(s: Stack) {
    Live(s.now) && forall i | 0 <= i < |s.saved| :: Live(s.saved[i])
  }

  lemma DoStackLive(t: Log, op: Op)
    requires WellFormed(t) && Allowed(t, op) && AllLive(Abs(t))
    ensures AllLive(DoStack(Abs(t), op))
  {
  }

  /** After any run no key that survives refers to a freed string, at no level of undo. */
  lemma {:induction false} RunLive(t: Log, ops: seq<Op>)
    requires WellFormed(t) && LegalRun(t, ops) && AllLive(Abs(t))
    ensures AllLive(Abs(Run(t, ops)))
    decreases |ops|
  {
    if ops != [] {
      DoRefines(t, ops[0]);
      DoStackLive(t, ops[0]);
      RunLive(Do(t, ops[0]), ops[1..]);
    }
  }

  // ----- Growth: what work inside a transaction may do -----

  ghost predicate Submap<K, V>(m: map<K, V>, n: map<K, V>) {
    forall k | k in m :: k in n && n[k] == m[k]
  }

  ghost predicate Within(a: Snapshot, b: Snapshot) {
    && Submap(a.symbols, b.symbols) && Submap(a.files, b.files) && Submap(a.extensions, b.extensions)
    && a.strings <= b.strings && a.messages <= b.messages
    && a.fileTables <= b.fileTables && a.allocations <= b.allocations
  }

  ghost predicate SameUndo(t: Log, u: Log, c: CheckPoint) {
    Fits(t, c) && Fits(u, c) && Undone(u, c) == Undone(t, c)
  }

  /** `u` has all of `t`, the same open checkpoints, and the same undo for each of them. */
  ghost predicate Grown(t: Log, u: Log) {
    && WellFormed(t) && WellFormed(u) && u.checkpoints == t.checkpoints && Within(t.now, u.now)
    && (t.checkpoints != [] ==>
          t.symbolsAfter <= u.symbolsAfter && t.filesAfter <= u.filesAfter && t.extensionsAfter <= u.extensionsAfter)
    && (forall i | 0 <= i < |t.checkpoints| :: SameUndo(t, u, t.checkpoints[i]))
  }

  lemma GrownTransitive(t: Log, u: Log, v: Log)
    requires Grown(t, u) && Grown(u, v)
    ensures Grown(t, v)
  {
    forall i | 0 <= i < |t.checkpoints| ensures SameUndo(t, v, t.checkpoints[i]) {
      assert SameUndo(t, u, t.checkpoints[i]) && SameUndo(u, v, u.checkpoints[i]);
    }
  }

  lemma AddGrows(t: Log, op: Op)
    requires WellFormed(t) && Allowed(t, op) && Adds(op)
    ensures Grown(t, Do(t, op))
  {
    AddRefines(t, op);
    forall i | 0 <= i < |t.checkpoints| ensures SameUndo(t, Do(t, op), t.checkpoints[i]) {
      AddKeepsUndone(t, op, t.checkpoints[i]);
    }
  }

  lemma TransactionFails(t: Log, u: Log)
    requires WellFormed(t) && Grown(Checkpointed(t), u)
    ensures u.checkpoints != [] && RolledBack(u) == t
  {
    UndoneHere(t);
    var n := |t.checkpoints|;
    assert SameUndo(Checkpointed(t), u, Checkpointed(t).checkpoints[n]);
    assert u.checkpoints[..|u.checkpoints| - 1] == t.checkpoints;
  }

  lemma TransactionCommits(t: Log, u: Log)
    requires WellFormed(t) && Grown(Checkpointed(t), u)
    ensures u.checkpoints != [] && Grown(t, Cleared(u)) && Cleared(u).now == u.now
  {
    var v := Cleared(u);
    ClearRefines(u);
    assert v.checkpoints == t.checkpoints;
    forall i | 0 <= i < |t.checkpoints| ensures SameUndo(t, v, t.checkpoints[i]) {
      assert SameUndo(Checkpointed(t), u, Checkpointed(t).checkpoints[i]);
    }
  }

  // ----- The class -----

  /** A `FileDescriptor`, as far as other files look at it; a dependency that was not found is `None`. */
  datatype FileDesc = FileDesc(
    name: string, package: string, dependencies: seq<Option<Id>>, publicDependencies: seq<nat>, proto: FileProto)

  datatype State = State(
    log: Log, pendingFiles: seq<string>, knownBadFiles: set<string>, descs: map<Id, FileDesc>, nextId: Id)

  class Tables {
    var pendingFiles: seq<string>
    var knownBadFiles: set<string>

    var strings: seq<Id>
    var messages: seq<Id>
    var fileTables: seq<Id>
    var allocations: seq<Id>

    var symbolsByName: map<string, Symbol>
    var filesByName: map<string, FileEntry>
    var extensions: map<ExtensionKey, Ref>

    var checkpoints: seq<CheckPoint>
    var symbolsAfterCheckpoint: seq<string>
    var filesAfterCheckpoint: seq<string>
    var extensionsAfterCheckpoint: seq<ExtensionKey>

    /** The memory of the file descriptors in `allocations`, and the next serial number. */
    var descs: map<Id, FileDesc>
    var nextId: Id

    constructor ()
      ensures StateNow() == State(EMPTY, [], {}, map[], 0)
    {
      pendingFiles, knownBadFiles := [], {};
      strings, messages, fileTables, allocations := [], [], [], [];
      symbolsByName, filesByName, extensions := map[], map[], map[];
      checkpoints, symbolsAfterCheckpoint, filesAfterCheckpoint, extensionsAfterCheckpoint := [], [], [], [];
      descs, nextId := map[], 0;
    }

    ghost function LogNow(): Log
      reads this
    {
      Log(
        Snapshot(symbolsByName, filesByName, extensions, strings, messages, fileTables, allocations),
        checkpoints, symbolsAfterCheckpoint, filesAfterCheckpoint, extensionsAfterCheckpoint)
    }

    ghost function StateNow(): State
      reads this
    {
      State(LogNow(), pendingFiles, knownBadFiles, descs, nextId)
    }

    method AddCheckpoint()
      modifies this`checkpoints
      ensures LogNow() == Checkpointed(old(LogNow()))
    {
      checkpoints := checkpoints + [
        CheckPoint(|strings|, |messages|, |fileTables|, |allocations|,
                   |symbolsAfterCheckpoint|, |filesAfterCheckpoint|, |extensionsAfterCheckpoint|)];
    }

    method ClearLastCheckpoint()
      requires checkpoints != []
      modifies this`checkpoints, this`symbolsAfterCheckpoint, this`filesAfterCheckpoint, this`extensionsAfterCheckpoint
      ensures LogNow() == Cleared(old(LogNow()))
    {
      checkpoints := checkpoints[..|checkpoints| - 1];
      if checkpoints == [] {
        symbolsAfterCheckpoint := [];
        filesAfterCheckpoint := [];
        extensionsAfterCheckpoint := [];
      }
    }

    method EraseSymbols(from: nat)
      requires from <= |symbolsAfterCheckpoint|
      modifies this`symbolsByName
      ensures symbolsByName == old(symbolsByName) - Elements(symbolsAfterCheckpoint[from..])
    {
      ghost var all := symbolsByName;
      for i := from to |symbolsAfterCheckpoint|
        invariant symbolsByName == all - Elements(symbolsAfterCheckpoint[from..i])
      {
        ElementsSnoc(symbolsAfterCheckpoint, from, i);
        symbolsByName := symbolsByName - {symbolsAfterCheckpoint[i]};
      }
      assert symbolsAfterCheckpoint[from..|symbolsAfterCheckpoint|] == symbolsAfterCheckpoint[from..];
    }

    method EraseFiles(from: nat)
      requires from <= |filesAfterCheckpoint|
      modifies this`filesByName
      ensures filesByName == old(filesByName) - Elements(filesAfterCheckpoint[from..])
    {
      ghost var all := filesByName;
      for i := from to |filesAfterCheckpoint|
        invariant filesByName == all - Elements(filesAfterCheckpoint[from..i])
      {
        ElementsSnoc(filesAfterCheckpoint, from, i);
        filesByName := filesByName - {filesAfterCheckpoint[i]};
      }
      assert filesAfterCheckpoint[from..|filesAfterCheckpoint|] == filesAfterCheckpoint[from..];
    }

    method EraseExtensions(from: nat)
      requires from <= |extensionsAfterCheckpoint|
      modifies this`extensions
      ensures extensions == old(extensions) - Elements(extensionsAfterCheckpoint[from..])
    {
      ghost var all := extensions;
      for i := from to |extensionsAfterCheckpoint|
        invariant extensions == all - Elements(extensionsAfterCheckpoint[from..i])
      {
        ElementsSnoc(extensionsAfterCheckpoint, from, i);
        extensions := extensions - {extensionsAfterCheckpoint[i]};
      }
      assert extensionsAfterCheckpoint[from..|extensionsAfterCheckpoint|] == extensionsAfterCheckpoint[from..];
    }

    method Erase(c: CheckPoint)
      requires Fits(LogNow(), c)
      modifies this`symbolsByName, this`filesByName, this`extensions
      ensures symbolsByName == old(Undone(LogNow(), c).symbols)
      ensures filesByName == old(Undone(LogNow(), c).files)
      ensures extensions == old(Undone(LogNow(), c).extensions)
    {
      EraseSymbols(c.pendingSymbols);
      EraseFiles(c.pendingFiles);
      EraseExtensions(c.pendingExtensions);
    }

    method Truncate(c: CheckPoint)
      requires Fits(LogNow(), c)
      modifies this`symbolsAfterCheckpoint, this`filesAfterCheckpoint, this`extensionsAfterCheckpoint,
               this`strings, this`messages, this`fileTables, this`allocations
      ensures symbolsAfterCheckpoint == old(symbolsAfterCheckpoint[..c.pendingSymbols])
      ensures filesAfterCheckpoint == old(filesAfterCheckpoint[..c.pendingFiles])
      ensures extensionsAfterCheckpoint == old(extensionsAfterCheckpoint[..c.pendingExtensions])
      ensures strings == old(strings[..c.strings]) && messages == old(messages[..c.messages])
      ensures fileTables == old(fileTables[..c.fileTables]) && allocations == old(allocations[..c.allocations])
    {
      symbolsAfterCheckpoint := symbolsAfterCheckpoint[..c.pendingSymbols];
      filesAfterCheckpoint := filesAfterCheckpoint[..c.pendingFiles];
      extensionsAfterCheckpoint := extensionsAfterCheckpoint[..c.pendingExtensions];
      strings := strings[..c.strings];
      messages := messages[..c.messages];
      fileTables := fileTables[..c.fileTables];
      allocations := allocations[..c.allocations];
    }

    /** Erases the keys logged since the checkpoint, then frees what was allocated since. */
    method RollbackToLastCheckpoint()
      requires checkpoints != [] && Fits(LogNow(), checkpoints[|checkpoints| - 1])
      modifies this`symbolsByName, this`filesByName, this`extensions, this`strings, this`messages, this`fileTables,
               this`allocations, this`symbolsAfterCheckpoint, this`filesAfterCheckpoint,
               this`extensionsAfterCheckpoint, this`checkpoints, this`descs
      ensures LogNow() == RolledBack(old(LogNow()))
      ensures descs == map id | id in old(descs) && id in allocations :: old(descs)[id]
    {
      var checkpoint := checkpoints[|checkpoints| - 1];
      Erase(checkpoint);
      Truncate(checkpoint);
      checkpoints := checkpoints[..|checkpoints| - 1];
      FreeDescs();
    }

    /** The file descriptors in freed memory are gone. */
    method FreeDescs()
      modifies this`descs
      ensures descs == map id | id in old(descs) && id in allocations :: old(descs)[id]
    {
      descs := map id | id in descs && id in allocations :: descs[id];
    }

    method AddSymbol(fullName: string, symbol: Symbol) returns (ok: bool)
      modifies this`symbolsByName, this`symbolsAfterCheckpoint
      ensures LogNow() == WithSymbol(old(LogNow()), fullName, symbol)
      ensures ok <==> fullName !in old(symbolsByName)
    {
      if fullName in symbolsByName { return false; }
      symbolsByName := symbolsByName[fullName := symbol];
      symbolsAfterCheckpoint := symbolsAfterCheckpoint + [fullName];
      return true;
    }

    method AddFile(name: string, file: FileEntry) returns (ok: bool)
      modifies this`filesByName, this`filesAfterCheckpoint
      ensures LogNow() == WithFile(old(LogNow()), name, file)
      ensures ok <==> name !in old(filesByName)
    {
      if name in filesByName { return false; }
      filesByName := filesByName[name := file];
      filesAfterCheckpoint := filesAfterCheckpoint + [name];
      return true;
    }

    method AddExtension(key: ExtensionKey, field: Ref) returns (ok: bool)
      modifies this`extensions, this`extensionsAfterCheckpoint
      ensures LogNow() == WithExtension(old(LogNow()), key, field)
      ensures ok <==> key !in old(extensions)
    {
      if key in extensions { return false; }
      extensions := extensions[key := field];
      extensionsAfterCheckpoint := extensionsAfterCheckpoint + [key];
      return true;
    }

    method AllocateString() returns (id: Id)
      modifies this`strings, this`nextId
      ensures id == old(nextId) && nextId == id + 1 && strings == old(strings) + [id]
    {
      id := nextId;
      strings := strings + [id];
      nextId := id + 1;
    }

    method AllocateFileTables() returns (id: Id)
      modifies this`fileTables, this`nextId
      ensures id == old(nextId) && nextId == id + 1 && fileTables == old(fileTables) + [id]
    {
      id := nextId;
      fileTables := fileTables + [id];
      nextId := id + 1;
    }

    method AllocateBytes() returns (id: Id)
      modifies this`allocations, this`nextId
      ensures id == old(nextId) && nextId == id + 1 && allocations == old(allocations) + [id]
    {
      id := nextId;
      allocations := allocations + [id];
      nextId := id + 1;
    }
  }

  lemma ElementsSnoc<T>(s: seq<T>, from: nat, i: nat)
    requires from <= i < |s|
    ensures Elements(s[from..i + 1]) == Elements(s[from..i]) + {s[i]}
  {
    assert s[from..i + 1] == s[from..i] + [s[i]];
  }
}
