# Verified models of the descriptor pool, the wire codec and the session pool

The repository vendors Protocol Buffers 2.5 and builds a server on it. These Dafny files model the parts of both that
have state, recursion or arithmetic worth an argument, in the form the C++ has: classes whose methods change fields in
place, loops over streams, arrays and ordered maps. Each such method is proved against a specification function, and the
laws the code exists for are proved about those functions.

| module | models |
|---|---|
| `Names`, `OrderedMaps` | dotted names in string order; `std::map` as a sorted sequence |
| `DescriptorDatabase`, `IndexedNames`, `AcceptedFiles` | the prefix index of `SimpleDescriptorDatabase`; which names it answers for a file, and which files it accepts |
| `MergedDatabase`, `FallbackDatabase` | databases merged from others, and what a pool asks of any database |
| `PoolTables` | `DescriptorPool::Tables`: three maps, four allocation vectors, and a stack of checkpoints over undo logs |
| `SymbolOwnership`, `ScopeLookup`, `PublicImports` | what a build declares, how names resolve in scopes, what an import makes usable |
| `Declarations`, `DeclaredInPool`, `References`, `FieldNumbers`, `ImportedFiles`, `BuildableFiles`, `FullNameExamples` | the same read off a file alone: what stands at each of its positions, what its references have to mean, which numbers it may have, which files its imports lead to, and from these when it can be built |
| `PoolInvariant`, `BuildConditions`, `LinkingSight`, `DescriptorBuilder`, `ExtensionClaims`, `BuildExamples` | the invariant of a pool, when a file can be built into it, what its links can see, whose extensions are found, and `DescriptorBuilder` with the fallback database, mutually recursive as in the code |
| `DynamicMessage` | the layout of dynamic messages, and prototypes made over cyclic type graphs |
| `Wire`, `CodedStream` | varints, tags, scalar types; the input stream with its limits, and both output forms |
| `SkippedFields`, `UnknownFields` | the grammar of fields: what is passed over, and why fields nobody knows make no difference |
| `Extensions`, `ExtensionCodec`, `ExtensionParsing`, `Truncation` | extension sets as values: merge, size, bytes, parse, the laws that join them, and what becomes of bytes that end too early |
| `ExtensionFields`, `MessageSetFields`, `PacketBytes` | what is written, field by field: tags, wire types, numbers, lengths |
| `ExtensionSets`, `ExtensionWriters` | `ExtensionSet` in place: set, add, clear, merge, parse; sizes, stream form and array form |
| `MessageSets`, `KeptMessages`, `MessageSetWriters` | the MessageSet form |
| `PacketLoop`, `MyPacket`, `TruncatedPackets` | `Feed`, `Depth`, `Order`, `LoginResult` and `Position`: generated parsers with their jumps, against a plain loop |
| `SessionPool`, `LastReferences`, `SessionReturns` | the server's sessions as interleaved steps of any number of threads, the manager's methods, who drops a last reference, and which sessions come back |

The main results, each for all inputs, runs or interleavings:

- Undo is exact: after any interleaving of nested checkpoints, a rollback restores the tables (`PoolTables.RollbackIsExact`,
  `RunRefines`), and no surviving key refers to a freed string (`RunLive`).
- Building a file is all or nothing, leaves the checkpoint stack balanced on every exit, and terminates through both
  recursions into any finite fallback database (`DescriptorBuilder.BuildFile`). It succeeds exactly when a predicate of the
  file and the state before its transaction holds (`BuildConditions.Buildable`): without a fallback database that is the
  state on entry, and success adds exactly the symbols, the descriptor and the extensions of the file; with one, in an
  owned pool that enforces dependencies, it is the state that loading the imports leads to, because nothing that is built
  during linking can be seen by the file (`LinkingSight.SightStays`). After any requests every answer given still holds, every
  file is whole, prefixes are owned and imports point back (`Serve`, `FilesAreWhole`, `PrefixesAtRest`, `ImportsAreEarlier`).
- When a file can be built is also stated of the file and the pool alone (`BuildableFiles.BuildableExactly`): its package is
  free, its imports are there, everything at every position is well-formed, no two positions have one full name or one that
  is taken, each reference finds what it asks for among the files that its imports lead to (`MayUseExactly`, `UsableExactly`),
  and the fields of each message, like the extensions of each type, have different numbers. What it declares is what stands
  at its positions (`DeclaredExactly`), and that is what a build adds to the pool (`DeclaredInPool.AddedExactly`).
- One `upper_bound` step answers a dotted-prefix query on a valid map (`FindSymbolCorrect`), and the map stays valid over a
  run of insertions if and only if none stepped over `begin()` unchecked (`InvariantOverRuns`). Over such runs every accepted file answers for its package-qualified names and what lies under
  them, and for its extensions (`AcceptedIsFound`); which files are accepted is exact too (`AcceptedFileExactly`).
- Parsing serialize(a) followed by serialize(b) is merging b into a, for every typed extension set
  (`ConcatenationIsMerge`) and for the packets (`FeedConcatenation` and its siblings); size, stream form and array form agree.
- Skipping by a tag goes exactly over one field of the wire format (`SkipsOneField`), so that fields nobody knows, put anywhere
  among others, change nothing for extension sets and packets (`UnknownAreSkipped`, `UnknownInPackets`); whatever is written for an
  extension of any type is such fields (`SerializedIsFields`), which is what fixes the wire type of each.
- Which prefixes of a serialized message parse is stated exactly, at every depth of nesting (`SerializedCut`), and for a
  `Feed` also which of them have their required fields (`FeedCut`).
- A MessageSet round trip is exact if and only if the live numbers fit 29 bits (`SetRoundTripExact`).
- The generated parsers with `goto` and `ExpectTag` compute what the plain loop computes, for every input, failures included.
- A dynamic layout has disjoint, aligned parts, and prototype construction terminates on cyclic types and links everything reachable.
- Over every interleaving of threads, reference counts equal the issue reference plus the live contexts, and nothing the
  server asserts about its sessions fails (`EveryRunIsSafe`). A last reference is dropped only by the end of a context's
  thread (`DropsLastExactly`), never by the thread that holds the pool lock (`AcceptorDropsNone`). All this is so as long as
  contexts are made by threads that hold a reference: the sends that FeedCenter posts without one are not among the steps.
- In every state of the server, a session can come back to the free list if and only if a condition on it holds
  (`ReturnsExactly`), and the steps that lose one are exactly three (`LosingActions`).

`dafny verify dfyconfig.toml` checks all of it.

## Where the code departs from its documentation or its evident intent

The code is followed; each departure is stated by the members named.

- `FindLastLessOrEqual` returns `begin()` when every key is greater (descriptor_database.cc:216-224), and `AddSymbol` steps past it without
  looking: the invariant argued for in descriptor_database.h:184-233 has that one hole (`WithSymbolExact`, `SkippedBeginExample`).
- `AddFile` on an index keeps what it inserted before it failed (`FailureIsNotUndone`, `HalfAddedExample`); self-consistency
  holds all the same.
- Once a scope accepts the first component of a compound name, outer scopes are not tried (`CommittedLookupFails` says
  exactly when a search fails by that, `ShadowedExample` gives one).
- The answer of `AddExtension` on the tables is not used while cross-linking. The comment at descriptor.cc:3941 says that a collision was
  reported before, but that holds within one file only: of two files that claim one extension number the first keeps it, without
  an error (`EnterField`; `FileFoundByNumberExactly` says for all the extensions of a file which are found, `CollisionExample` builds two such files).
- A file that imports itself finds itself, being in the tables by then: an import is the file itself exactly when it has its
  name (`ImportsAreEarlier`, `SelfImportExample`).
- A MessageSet type id of 29 bits or more is written and not read back (`SetRoundTripExact`, `LargeNumberExample`).
- Of several messages before the type id of a MessageSet item only the first is read (`OnlyFirstKeptMessageCounts`); nothing is lost
  by that exactly when the others say nothing new (`NothingLostExactly`, `LostMessageExample`).
- A limit pushed beyond the one in force is cut back (`PushLimit`), so that a nested message or packed field whose length
  reaches past the end of the outermost message is parsed as if it ended there (`LengthBeyondEnd`). Which truncated messages are
  accepted by that is `SerializedCut`; `TruncatedFeedExample` is one. The check for required fields stops it for a `Feed` (`FeedCut`).
- An issued session does not always come back. It is lost exactly by a refused accept, a refused disconnect, or the end of the
  last context of a connected session (`LosingActions`), and for good (`LostForGood`); one run for each is `AcceptRefusedExample`,
  `DisconnectRefusedExample`, and `ReceiveRefusedExample`, where a send of the feed, which is not modelled, could still come.

## Model

| member | source | states |
|---|---|---|
| `Names.CoveredBlock` | Protobuf/google/protobuf/descriptor_database.h:184-233 | every valid name that sorts between a name and one of its sub-symbols is a sub-symbol too: in string order they follow it in one block, which is what lets one step of an ordered map answer a prefix query |
| `DescriptorDatabase.MatchIsUnique` | Protobuf/google/protobuf/descriptor_database.h:184-233 | in a valid symbol map at most one key is a given name or a dotted prefix of it |
| `DescriptorDatabase.FindSymbolCorrect` | Protobuf/google/protobuf/descriptor_database.cc:180-186 | for every name, well-formed or not, the one-step lookup answers `v` if and only if some key holding `v` is the name or a dotted prefix of it |
| `DescriptorDatabase.WithSymbolExact` | Protobuf/google/protobuf/descriptor_database.cc:86-134 | `AddSymbol` on a valid map, for every name: when it accepts, exactly which pairs the map then holds, that a refusal changes nothing, and that the invariant survives if and only if the call did not step over `begin()` unchecked |
| `DescriptorDatabase.InvariantOverRuns` | Protobuf/google/protobuf/descriptor_database.cc:86-134 | over every list of `AddSymbol` calls on a valid map, the map is valid at the end if and only if no call stepped over `begin()` |
| `DescriptorDatabase.BrokenStaysBroken` | Protobuf/google/protobuf/descriptor_database.cc:86-134 | once two keys are comparable no later call repairs it |
| `DescriptorDatabase.SkippedBeginExample` | Protobuf/google/protobuf/descriptor_database.cc:214-224 | the hole on a concrete input: "a" is accepted after "a.b", and then "a.c" is not found although "a" covers it |
| `DescriptorDatabase.ReachableConsistent` | Protobuf/google/protobuf/descriptor_database.cc:52-83 | after any list of `AddFile` calls, failed ones included, a file found by symbol or extension is the file found under its own name |
| `DescriptorDatabase.FailureIsNotUndone` | Protobuf/google/protobuf/descriptor_database.cc:52-83 | a failed `AddFile` leaves the index as it was if and only if it failed because the file name was taken |
| `DescriptorDatabase.HalfAddedExample` | Protobuf/google/protobuf/descriptor_database.cc:52-83 | such an input: a file that holds one message twice is refused, and is found under the name of that message all the same |
| `DescriptorDatabase.AllExtensionNumbersExact` | Protobuf/google/protobuf/descriptor_database.cc:197-212 | the listed numbers are strictly increasing and are exactly the non-negative numbers for which `FindExtension` answers |
| `DescriptorDatabase.DescriptorIndex.AddSymbol` | Protobuf/google/protobuf/descriptor_database.cc:86-134 | the map in place becomes what the specification function gives, and the answer is its answer |
| `DescriptorDatabase.DescriptorIndex.AddExtension` | Protobuf/google/protobuf/descriptor_database.cc:149-171 | only a fully-qualified extendee is indexed; an occupied number is refused and nothing changes |
| `DescriptorDatabase.DescriptorIndex.AddFile` | Protobuf/google/protobuf/descriptor_database.cc:52-83 | claims the name, then inserts what the specification lists in its order up to the first failure; what that is, `InsertedOnce` says of the file alone, and what is found by it `AddedExactly` |
| `IndexedNames.InsertedExactly` | Protobuf/google/protobuf/descriptor_database.cc:52-83 | what `AddFile` inserts is the name of each message, enum, extension and service at the top level of the file, after the package and a dot if there is a package, and each extension of the file, those in messages at every depth included; nothing else |
| `IndexedNames.AddedExactly` | Protobuf/google/protobuf/descriptor_database.cc:52-83 | after an `AddFile` that succeeds and leaves the symbol map valid, a symbol query answers the file exactly for those names and whatever lies under one of them, an extension query exactly for the extensions that name their type from the root, under that type without the dot and their number; every other query is answered as before |
| `IndexedNames.AcceptedIsFound` | Protobuf/google/protobuf/descriptor_database.cc:52-83 | over every run of `AddFile` in which no call of `AddSymbol` steps over `begin()`, each file that was accepted answers all of these at the end |
| `AcceptedFiles.InsertedOnce` | Protobuf/google/protobuf/descriptor_database.cc:52-83 | each name and each extension is inserted once for every time it is in the file |
| `AcceptedFiles.AcceptedFileExactly` | Protobuf/google/protobuf/descriptor_database.cc:52-171 | `AddFile` succeeds if and only if the file name is new, its qualified names are of symbol characters, none is, or is inside, another of them or a key, and no two of its fully-qualified extensions have one number of one type or one that is taken; the case where `AddSymbol` steps over `begin()` is the exception |
| `DescriptorDatabase.DescriptorIndex.FindAllExtensionNumbers` | Protobuf/google/protobuf/descriptor_database.cc:197-212 | appends the exact list of numbers to the output and answers whether there were any |
| `MergedDatabase.FoundFileIsNamedFile` | Protobuf/google/protobuf/descriptor_database.cc:472-516 | for merged databases nested to any depth, a file returned for a symbol or an extension is the file returned for its name |
| `MergedDatabase.FindAllExtensionNumbers` | Protobuf/google/protobuf/descriptor_database.cc:518-538 | the merged list is the increasing, duplicate-free union over the sources |
| `MergedDatabase.MergedDescriptorDatabase.FindFileByName` | Protobuf/google/protobuf/descriptor_database.cc:461-470 | the first source that has the name answers |
| `MergedDatabase.MergedDescriptorDatabase.FindFileContaining` | Protobuf/google/protobuf/descriptor_database.cc:472-516 | the first source that has the symbol or extension answers, unless an earlier source has a file of that file's name |
| `FallbackDatabase.MergedIsConsistent` | Protobuf/google/protobuf/descriptor_database.cc:461-538 | a database merged from self-consistent indexes to any depth is one a pool can fall back on: name queries are answered with a file of that name, and only finitely many files are ever answered |
| `FallbackDatabase.SourceTreeIsConsistent` | Protobuf/google/protobuf/descriptor.cc:1364-1373 | a database that answers by name only, with false negatives for everything else, is one too if and only if each file it has under a name carries that name |
| `PoolTables.RollbackIsExact` | Protobuf/google/protobuf/descriptor.cc:591-636 | whatever balanced run of additions, checkpoints, clears and inner rollbacks comes after a checkpoint, rolling it back restores the three maps, the four allocation vectors and the undo logs exactly |
| `PoolTables.RunRefines` | Protobuf/google/protobuf/descriptor.cc:330-365 | over every legal run the log of added keys behaves like a stack of full copies of the tables |
| `PoolTables.RunLive` | Protobuf/google/protobuf/descriptor.cc:591-636 | after any run no surviving map key refers to a freed string, now or after any number of rollbacks |
| `PoolTables.Tables.AddCheckpoint` | Protobuf/google/protobuf/descriptor.cc:575-577 | pushes the sizes of the moment and changes nothing else |
| `PoolTables.Tables.ClearLastCheckpoint` | Protobuf/google/protobuf/descriptor.cc:579-589 | pops the checkpoint; the pending keys are forgotten only when no checkpoint is left |
| `PoolTables.Tables.RollbackToLastCheckpoint` | Protobuf/google/protobuf/descriptor.cc:591-636 | in place, by the three erase loops and four truncations, the tables become what undoing by the log gives; descriptors whose memory was freed are gone |
| `PoolTables.Tables.AddSymbol` | Protobuf/google/protobuf/descriptor.cc:731-739 | a taken name is refused and changes nothing; a new one is entered and logged |
| `PoolTables.Tables.AddFile` | Protobuf/google/protobuf/descriptor.cc:747-754 | a taken file name is refused and changes nothing; a new one is entered and logged |
| `PoolTables.Tables.AddExtension` | Protobuf/google/protobuf/descriptor.cc:787-795 | a taken (extendee, number) is refused and changes nothing; a new one is entered and logged |
| `SymbolOwnership.PrefixesOwned` | Protobuf/google/protobuf/descriptor.cc:1335-1355 | under the ownership invariant every dotted prefix of a symbol is a symbol; prefixes of packages are packages; any other prefix belongs to the same file |
| `SymbolOwnership.SubSymbolsAreHere` | Protobuf/google/protobuf/descriptor.cc:1335-1375 | if a built type of the pool covers a name, then in any later pool a symbol of that name belongs to that type's file: asking the fallback database again cannot help |
| `SymbolOwnership.OwnedAfterPackage` | Protobuf/google/protobuf/descriptor.cc:2893-2918 | registering a package and its parents keeps the ownership invariant |
| `SymbolOwnership.OwnedAfterSteps` | Protobuf/google/protobuf/descriptor.cc:3251-3283 | declaring what a scope holds, members before the message that holds them, keeps the ownership invariant once all of it is declared |
| `SymbolOwnership.FileScoped` | Protobuf/google/protobuf/descriptor.cc:3190-3208 | a file built without error declares every name directly in its package or in a message or service that it declares itself |
| `Declarations.DeclaredExactly` | Protobuf/google/protobuf/descriptor.cc:3190-3208 | what the build of a file declares is exactly what stands at the positions of the file, under its full name and as what it is: messages at every depth, their fields and extensions, enums, their values beside them, services and methods |
| `Declarations.CleanExactly` | Protobuf/google/protobuf/descriptor.cc:2855-2891 | building the descriptors of a file reports no error if and only if what stands at each position is well-formed and no two positions have one full name or one that was taken |
| `Declarations.IdentifierExactly` | Protobuf/google/protobuf/descriptor.cc:2920-2937 | what is accepted as a name is what the index accepts as a symbol of one component: letters, digits and underscores, at least one |
| `Declarations.FieldNumberExactly` | Protobuf/google/protobuf/descriptor.cc:3496-3545 | a field may have exactly the positive numbers whose tags are of 32 bits, but for the reserved thousand, and extends nothing; an extension extends something |
| `Declarations.RangesExactly` | Protobuf/google/protobuf/descriptor.cc:3285-3315 | the ranges of a message are accepted if and only if each holds a number and only positive ones, no number is in two of them, and none is that of a field; the end of a range is not in it |
| `DeclaredInPool.ContentsExactly` | Protobuf/google/protobuf/descriptor.cc:3082-3208 | the first half of a build reports no error if and only if the longest known prefix of the package is a package and the new ones are identifiers, the imports are there, once each, the public ones among them, and the names are free |
| `DeclaredInPool.OneNameRefused` | Protobuf/google/protobuf/descriptor.cc:2855-2891 | a file two positions of which have one full name cannot be built, nor one with a name that is in the pool |
| `DeclaredInPool.PositionIsThere` | Protobuf/google/protobuf/descriptor.cc:3190-3208 | a file in the pool has what stands at each of its positions in the tables, as what it is and as its own; so each value of an enum is there as a value |
| `DeclaredInPool.AddedExactly` | Protobuf/google/protobuf/descriptor.cc:3190-3216 | a build adds the names of the positions of the file and the packages that were not known, each of the kind it stands for, and nothing else |
| `ScopeLookup.ResolveIsInnermost` | Protobuf/google/protobuf/descriptor.cc:2656-2723 | the answer is that of the innermost scope where the first component resolves acceptably, and the root's when no scope accepts |
| `ScopeLookup.AbsoluteName` | Protobuf/google/protobuf/descriptor.cc:2660-2663 | a name that starts with a dot is found, from every scope and in every mode, if and only if what follows the dot is in the table and may be used, and then it is that symbol, whatever inner scopes hold |
| `ScopeLookup.SimpleAccepted` | Protobuf/google/protobuf/descriptor.cc:2711-2717 | a scope is chosen for a name of one component if and only if it has a symbol of that name that may be used, a message or an enum when a type is looked for |
| `ScopeLookup.CompoundAccepted` | Protobuf/google/protobuf/descriptor.cc:2701-2710 | for a name of several components, if and only if it has one of the first component that is a message, package, enum or service |
| `ScopeLookup.InnermostExists` | Protobuf/google/protobuf/descriptor.cc:2656-2723 | if any scope accepts, one of them is innermost, so that the two cases of the specification are complete |
| `ScopeLookup.CommittedLookupFails` | Protobuf/google/protobuf/descriptor.cc:2679-2700 | for every name, scope and mode, the search fails if and only if the name cannot be seen in the innermost scope that accepts its first component, whatever outer scopes hold; that can only happen to a compound name |
| `ScopeLookup.ShadowedExample` | Protobuf/google/protobuf/descriptor.cc:2679-2700 | such an input: an inner message "Bar" without "Baz" hides an outer "Bar.Baz" |
| `ScopeLookup.ExtensionsEntered` | Protobuf/google/protobuf/descriptor.cc:3936-3945 | linking a list of extensions enters each under its number of the type it extends, unless the number was claimed before, in the pool or in the list, by whom it is then kept; it enters nothing else |
| `ScopeLookup.FoundByNumberExactly` | Protobuf/google/protobuf/descriptor.cc:3936-3945 | of a list of extensions with different numbers, linked after anything else, each is the one found under its number if and only if nobody had claimed that number before the list |
| `ExtensionClaims.FileFoundByNumberExactly` | Protobuf/google/protobuf/descriptor.cc:3936-3945 | of all the extensions of a new file, those nested in its messages included, each is the one found under its number once the file is linked if and only if no other file had claimed that number |
| `ExtensionClaims.BuiltFileFoundExactly` | Protobuf/google/protobuf/descriptor.cc:3936-3945 | so it is in the pool after a build: for every file that can be built, the number of each of its extensions finds that extension if and only if the number was free on entry |
| `ScopeLookup.InTurn` | Protobuf/google/protobuf/descriptor.cc:3936-3945 | claims made one after another leave a number to whoever had it, and else to the first who claims it, and enter nothing else |
| `ScopeLookup.FileOnlyAdds` | Protobuf/google/protobuf/descriptor.cc:3739-3760 | linking a file takes no extension number from anyone, and leaves every number its extensions claim occupied |
| `PublicImports.ClosureIsExact` | Protobuf/google/protobuf/descriptor.cc:2583-2588 | a set closed under public imports that holds the direct imports and only what they reach is exactly the set of files reachable from them along public imports |
| `ImportedFiles.UsableExactly` | Protobuf/google/protobuf/descriptor.cc:2583-2588 | of a pool at rest and a file whose imports are there: a file may be used if and only if its name is reached from an import of the file by names in public imports, through the files that the pool has under those names |
| `BuildableFiles.MayUseExactly` | Protobuf/google/protobuf/descriptor.cc:2620-2654 | a symbol may be used if and only if dependencies are not enforced, it is of this file or of one so reached, or it is a package that one of these files is in |
| `References.LinksExactly` | Protobuf/google/protobuf/descriptor.cc:3739-3783 | a file links if and only if each field and extension at each of its positions does, messages at every depth included, and each method of its services |
| `References.ReferencesExactly` | Protobuf/google/protobuf/descriptor.cc:3785-4010 | that is so if and only if each field with a type name finds a type of the sort it declares and its default among the values that stand with the enum, none without a type name asks for one, each extension finds a message with a range that holds its number, and each method finds two messages |
| `References.NumberLeftExactly` | Protobuf/google/protobuf/descriptor.cc:1306-1315 | an extension number is declared if and only if a message of that full name stands in the file, at whatever depth, with a range that holds the number |
| `References.ValueExactly` | Protobuf/google/protobuf/descriptor.cc:3880-3893 | a default is a value of an enum if and only if the file has an enum of that full name that lists a value which has the other full name beside it |
| `FieldNumbers.NumbersExactly` | Protobuf/google/protobuf/descriptor.cc:3914-3934 | no number is used twice if and only if no two positions of the file, fields and extensions at every depth, have one number of one type |
| `FieldNumbers.NumbersMean` | Protobuf/google/protobuf/descriptor.cc:3284-3934 | of a well-formed file all of whose references find something: that is so if and only if the fields of each message have different numbers, and the extensions of each type; an extension never has the number of a field, since the ranges do not |
| `BuildableFiles.BuildableExactly` | Protobuf/google/protobuf/descriptor.cc:3020-3249 | so for a pool at rest and any file: it can be built if and only if its package is free, its imports are there, everything in it is well-formed, its names are free and differ, each reference finds what it asks for among what the file may use, and the numbers differ |
| `BuildableFiles.NumbersAfterBuild` | Protobuf/google/protobuf/descriptor.cc:3936-3945 | a build adds the numbers of the extensions of the file, at every depth, each under the type it extends, and no others; a free number is then the extension's, a taken one stays with whom it was |
| `ExtensionClaims.ClaimsExactly` | Protobuf/google/protobuf/descriptor.cc:3739-3783 | the claims that linking makes are those of the extensions at the positions of the file |
| `PoolInvariant.ImportsAreEarlier` | Protobuf/google/protobuf/descriptor.cc:3117-3165 | at rest each import of a file in the pool is in the pool, and is the file itself or was built strictly earlier; it is the file itself if and only if the import names the file |
| `PoolInvariant.PrefixesAtRest` | Protobuf/google/protobuf/descriptor.cc:1335-1375 | at rest every dotted prefix of a symbol is in the pool, with its file; prefixes of packages are packages; any other prefix is of the same file |
| `PoolInvariant.FilesAreWhole` | Protobuf/google/protobuf/descriptor.cc:3020-3249 | at rest every file in the pool has every symbol it declares in the tables, of its kind and its own, and each of its imports is the file the pool has under that name |
| `PoolInvariant.FailedTransaction` | Protobuf/google/protobuf/descriptor.cc:3036-3045 | whatever was built and committed inside a failed transaction, rolling it back gives the symbols, files, extensions and allocations of its checkpoint and the pool invariant |
| `PoolInvariant.UnseenPending` | Protobuf/google/protobuf/descriptor.cc:3051-3080 | once a file is pending, whatever is built under it, the set of database names neither pending nor in the pool is strictly smaller: the measure of recursive building |
| `PoolInvariant.UnseenAfterEntering` | Protobuf/google/protobuf/descriptor.cc:1320-1333 | once a file is entered its name never returns to the measure |
| `BuildConditions.EntryEnvReached` | Protobuf/google/protobuf/descriptor.cc:3082-3249 | whatever the build has done by the time it links, what a reference can see then is what the state before the build and the file say it can: the names there were and those of the file, of the files it imports and what they import publicly |
| `BuildConditions.SymbolsAreEntered` | Protobuf/google/protobuf/descriptor.cc:3190-3216 | a build that made its declarations has added exactly the new packages and the names the file declares, each of its kind and of this file |
| `BuildConditions.FileSame` | Protobuf/google/protobuf/descriptor.cc:3739-3760 | whether a file links, which numbers it uses and what it enters does not depend on where names are kept in memory |
| `LinkingSight.SightStays` | Protobuf/google/protobuf/descriptor.cc:2620-2654 | from an owned pool that enforces dependencies, whatever is built while a file is linked cannot be seen by that file: new symbols are of files it does not import, new packages are not those of files it imports |
| `LinkingSight.NewSymbolUnseen` | Protobuf/google/protobuf/descriptor.cc:2630-2654 | why: a symbol of a new file is none that the file may use, as itself or as a package |
| `BuildExamples.SelfImportExample` | Protobuf/google/protobuf/descriptor.cc:3117-3165 | a file that imports itself can be built, and is its own import |
| `BuildExamples.CollisionExample` | Protobuf/google/protobuf/descriptor.cc:3936-3945 | two files that claim one extension number are built one after the other without an error, and the number finds the extension of the first |
| `FullNameExamples.FullNamesBuild` | Protobuf/google/protobuf/descriptor.cc:2660-2663 | a file whose fields name their types from the root, as ".p.M" and ".p.M.E", the latter with a value of the enum for default, can be built into a new pool |
| `FullNameExamples.TwinValuesRefused` | Protobuf/google/protobuf/descriptor.cc:3613-3648 | two enums side by side with a value of one name cannot be built into any pool |
| `DescriptorBuilder.DescriptorBuilder.ValidateSymbolName` | Protobuf/google/protobuf/descriptor.cc:2920-2937 | reports an error if and only if the name is not an identifier |
| `DescriptorBuilder.DescriptorBuilder.AddSymbol` | Protobuf/google/protobuf/descriptor.cc:2855-2891 | declares one symbol of the file, and reports an error if and only if the name was taken |
| `DescriptorBuilder.DescriptorBuilder.AddPackage` | Protobuf/google/protobuf/descriptor.cc:2893-2918 | registers the package and its parents up to the first that is known, and reports an error if and only if a name is no identifier or belongs to something else |
| `DescriptorBuilder.DescriptorBuilder.BuildMessage` | Protobuf/google/protobuf/descriptor.cc:3251-3315 | adds exactly the declarations of the message and everything in it, the message itself last, and reports an error if and only if one of them is malformed or taken, or the extension ranges of a message are empty, overlap or hold the number of a field |
| `DescriptorBuilder.DescriptorBuilder.BuildEnum` | Protobuf/google/protobuf/descriptor.cc:3574-3611 | the same for an enum: its values beside it, not under it, and no enum without values; that every value is declared is `DeclaredExactly` |
| `DescriptorBuilder.DescriptorBuilder.BuildEnumValue` | Protobuf/google/protobuf/descriptor.cc:3613-3648 | the value is declared in the scope that holds its type |
| `DescriptorBuilder.DescriptorBuilder.BuildService` | Protobuf/google/protobuf/descriptor.cc:3681-3705 | the same for a service and its methods |
| `DescriptorBuilder.DescriptorBuilder.BuildFieldOrExtension` | Protobuf/google/protobuf/descriptor.cc:3318-3548 | the same for a field or extension, with the check of its number |
| `DescriptorBuilder.DescriptorBuilder.RecordPublicDependencies` | Protobuf/google/protobuf/descriptor.cc:2583-2588 | terminates on every import graph, self-loops included; adds the file, only what it reaches, and all the public imports of what it added |
| `DescriptorBuilder.DescriptorBuilder.FindDependencies` | Protobuf/google/protobuf/descriptor.cc:3132-3163 | each import is looked up by name in the pool; an error if and only if one is missing or listed twice |
| `DescriptorBuilder.DescriptorBuilder.CheckPublicIndexes` | Protobuf/google/protobuf/descriptor.cc:3167-3182 | keeps exactly the indexes that name an import; an error if and only if there is another |
| `DescriptorBuilder.DescriptorBuilder.LoadDependencies` | Protobuf/google/protobuf/descriptor.cc:3128-3188 | the file's import list is what the pool has under those names, and what it may use is exactly its imports and everything they publicly import |
| `DescriptorBuilder.DescriptorBuilder.FindSymbolNotEnforcingDeps` | Protobuf/google/protobuf/descriptor.cc:2590-2618 | a symbol it returns is in the pool under that name; with no fallback database it changes nothing and finds whatever is there |
| `DescriptorBuilder.DescriptorBuilder.FindSymbol` | Protobuf/google/protobuf/descriptor.cc:2620-2654 | never returns a symbol that the file may not use; with no fallback database, or with one when dependencies are enforced and the pool is owned, returns the one symbol of that name that the file could see before the search, whatever the search builds |
| `DescriptorBuilder.DescriptorBuilder.LookupSymbolNoPlaceholder` | Protobuf/google/protobuf/descriptor.cc:2656-2723 | terminates; with no fallback database, or with one when dependencies are enforced and the pool is owned, a name that starts with a dot is found if and only if what follows is in the table and may be used, and for any other the loop over scopes computes the resolution in the state before it, whose meaning `ResolveIsInnermost` states |
| `DescriptorBuilder.DescriptorBuilder.CrossLinkField` | Protobuf/google/protobuf/descriptor.cc:3785-3948 | with no fallback database, or with one when dependencies are enforced and the pool is owned, reports an error if and only if the extendee, its declared ranges, the type or the default does not link or the number is used before in the file; without an error it has entered exactly what `ExtensionsEntered` describes; keeps the pool invariant even when it builds other files |
| `DescriptorBuilder.DescriptorBuilder.EnterField` | Protobuf/google/protobuf/descriptor.cc:3914-3944 | reports an error if and only if a field of the file has that number of that type already; an extension is entered in the pool unless the number is taken there, silently; no entry refers to a file that is gone |
| `DescriptorBuilder.DescriptorBuilder.CrossLinkExtendee` | Protobuf/google/protobuf/descriptor.cc:3791-3815 | with no fallback database, or with one when dependencies are enforced and the pool is owned, reports an error if and only if the extendee does not resolve to a message the file may use that declares the number as an extension number, and gives the type it resolves to |
| `DescriptorBuilder.DescriptorBuilder.CrossLinkType` | Protobuf/google/protobuf/descriptor.cc:3826-3934 | with no fallback database, or with one when dependencies are enforced and the pool is owned, reports an error if and only if the type does not resolve to one that fits the declaration, or there is a default that is not found, from the enum outwards, among its values; changes no table |
| `DescriptorBuilder.DescriptorBuilder.CrossLinkDefault` | Protobuf/google/protobuf/descriptor.cc:3856-3893 | with no fallback database, or with one when dependencies are enforced and the pool is owned, reports an error if and only if the type is no enum or the default does not resolve to one of its values; keeps the pool invariant even when the look-up builds other files |
| `DescriptorBuilder.DescriptorBuilder.CrossLinkMethod` | Protobuf/google/protobuf/descriptor.cc:3979-4010 | with no fallback database, or with one when dependencies are enforced and the pool is owned, reports an error if and only if a parameter type does not resolve to a message |
| `DescriptorBuilder.DescriptorBuilder.CrossLinkFile` | Protobuf/google/protobuf/descriptor.cc:3739-3760 | with no fallback database, or with one when dependencies are enforced and the pool is owned, reports an error if and only if some reference of the file does not link in the state before linking or two of its fields have one number of one type; whatever it builds on the way grows the pool and leaves the open transaction undoable |
| `DescriptorBuilder.DescriptorBuilder.LoadImports` | Protobuf/google/protobuf/descriptor.cc:3066-3080 | terminates for every database that answers finitely many files and answers a name query with a file of that name, before the transaction; afterwards each import is in the pool or known to be bad, the file itself is not there, the pool invariant holds and the pending files are as they were |
| `DescriptorBuilder.DescriptorBuilder.BuildFromCheckpoint` | Protobuf/google/protobuf/descriptor.cc:3082-3249 | all or nothing: without a result the tables are those of the checkpoint, even when cross-linking built other files in between; with one the file is in the pool with everything it declares and its imports resolved; with no fallback database, or with one when dependencies are enforced and the pool is owned, there is a result if and only if the name is new and the file is `Buildable` in the state before; with no fallback database what was added is exactly its symbols, its descriptor and its extensions |
| `DescriptorBuilder.DescriptorBuilder.BuildFile` | Protobuf/google/protobuf/descriptor.cc:3020-3249 | on every exit the checkpoint stack and the pending files are as on entry and the pool invariant and symbol ownership hold; with no fallback database, or with one when dependencies are enforced and the pool is owned, a new file that is not pending is built if and only if it is `Buildable` in the state that loading its imports leads to, which without a database is the state on entry, and failure leaves the tables of that state; a pending file is refused and nothing changes; without a database a file that is there already succeeds if and only if it is the same, and success adds exactly the symbols, the descriptor and the extensions of the file, under the next serial number |
| `DescriptorBuilder.DescriptorBuilder.Rollback` | Protobuf/google/protobuf/descriptor.cc:3036-3045 | rolling back from a build gives the tables, files and symbols at its checkpoint |
| `DescriptorBuilder.DescriptorBuilder.Commit` | Protobuf/google/protobuf/descriptor.cc:3229-3249 | committing keeps the tables as they are and leaves the enclosing checkpoints undoable |
| `DescriptorBuilder.TryFindFileInFallbackDatabase` | Protobuf/google/protobuf/descriptor.cc:1320-1333 | terminates; it succeeds if and only if the file is in the pool afterwards, and a name that fails is known to be bad |
| `DescriptorBuilder.IsSubSymbolOfBuiltType` | Protobuf/google/protobuf/descriptor.cc:1335-1355 | true if and only if a dotted prefix of the name is in the pool and is not a package |
| `DescriptorBuilder.TryFindSymbolInFallbackDatabase` | Protobuf/google/protobuf/descriptor.cc:1357-1394 | terminates and keeps the pool invariant; on success the file the database names is in the pool; nothing is done when the name lies under a built type, when the database names none, or when the pool has that file |
| `DescriptorBuilder.TryFindExtensionInFallbackDatabase` | Protobuf/google/protobuf/descriptor.cc:1396-1418 | the same for an extension number, without the question of built types |
| `DescriptorBuilder.FindFileByName` | Protobuf/google/protobuf/descriptor.cc:964-977 | answers with the file of that name if and only if the pool has one afterwards; a file it has already is found without touching the pool |
| `DescriptorBuilder.FindByName` | Protobuf/google/protobuf/descriptor.cc:667-686 | what it returns is in the pool under that name; nothing that was there is missed; a name that is known or lies under a built type changes nothing |
| `DescriptorBuilder.FindExtensionByNumber` | Protobuf/google/protobuf/descriptor.cc:1049-1067 | the same for an extension of a type |
| `DescriptorBuilder.Handle` | Protobuf/google/protobuf/descriptor.cc:2499-2526 | one request, from a pool at rest to a pool at rest that has all it had: a positive answer holds in the pool, and with no fallback database a lookup that fails changes nothing and what it looked for is not there |
| `DescriptorBuilder.Serve` | Protobuf/google/protobuf/descriptor.cc:2499-2526 | after any list of requests on a new pool, whatever fails on the way, the pool is at rest (no checkpoint, nothing pending, imports in order, symbols owned, files whole) and every positive answer given on the way still holds |
| `DynamicMessage.DivideRoundingUpLeast` | Protobuf/google/protobuf/dynamic_message.cc:144-146 | the quotient is the least whose product covers the dividend |
| `DynamicMessage.AlignToLeast` | Protobuf/google/protobuf/dynamic_message.cc:150-158 | the result is the least multiple of the alignment that is not before the offset |
| `DynamicMessage.FieldSpaceUsed` | Protobuf/google/protobuf/dynamic_message.cc:94-142 | every field takes some space, for every type and label, when the C++ sizes are positive |
| `DynamicMessage.SlotHoldsValues` | Protobuf/google/protobuf/dynamic_message.cc:94-142 | the slot of a scalar has the least number of bytes that holds every value of its type; a string or message is behind a pointer; a repeated field is a vector, of pointers for strings and messages |
| `DynamicMessage.SlotsAligned` | Protobuf/google/protobuf/dynamic_message.cc:525-533 | in every safe layout a slot of up to 8 bytes starts at a multiple of its length, a longer one at a multiple of 8 |
| `DynamicMessage.HasBitsLeast` | Protobuf/google/protobuf/dynamic_message.cc:509-514 | the has-bits are the fewest words of 32 bits with one for every field |
| `DynamicMessage.ComputeLayout` | Protobuf/google/protobuf/dynamic_message.cc:499-543 | header, has-bits, extension set, fields and unknown fields are pairwise disjoint inside the object; each field starts at a multiple of the lesser of 8 and its size, the has-bits cover every field, and the size is a multiple of 8; and nothing is wasted: each part begins at the first such place after the one before |
| `DynamicMessage.LeanIsSafe` | Protobuf/google/protobuf/dynamic_message.cc:499-543 | any layout that places its parts one after the other at multiples of their alignments is safe: no two overlap, however far apart |
| `DynamicMessage.DynamicMessageFactory.GetPrototypeNoLock` | Protobuf/google/protobuf/dynamic_message.cc:471-568 | for any finite type graph, cycles included, it terminates with a prototype, the same as before when there was one; prototypes made before stay, and every new one is linked |
| `DynamicMessage.DynamicMessageFactory.CrossLinkPrototypes` | Protobuf/google/protobuf/dynamic_message.cc:394-416 | every singular message field of the new prototype points at the prototype of its type, and nothing else that existed changes |
| `DynamicMessage.DynamicMessageFactory.GetPrototype` | Protobuf/google/protobuf/dynamic_message.cc:466-469 | from a complete factory to a complete one: every type reachable through singular message fields then has a linked prototype, and a repeated call changes nothing |
| `DynamicMessage.WalkIsKnown` | Protobuf/google/protobuf/dynamic_message.cc:545-568 | in a complete factory every type at the end of a walk along singular message fields from a known type is known |
| `Wire.VarintRoundTrip` | Protobuf/google/protobuf/io/coded_stream.cc:422-443 | any 64-bit number is read back from its varint with what follows untouched; the 32-bit reader gives its low 32 bits |
| `Wire.Varint32IsTruncated` | Protobuf/google/protobuf/io/coded_stream.cc:339-346 | on every byte string the 32-bit reader accepts what the 64-bit one does and drops the high bits |
| `Wire.VarintSizeExact` | Protobuf/google/protobuf/io/coded_stream.cc:813-853 | both size functions, written as comparisons, number the bytes of the varint, ten at the most |
| `Wire.VarintByteAt` | Protobuf/google/protobuf/io/coded_stream.cc:771-792 | byte `k` of a varint holds the `k`-th group of seven bits, lowest first; all but the last have the top bit set, and the last is not an empty group |
| `Wire.FixedByteAt` | Protobuf/google/protobuf/io/coded_stream.cc:612-640 | byte `k` of a fixed-width number is its `k`-th byte, lowest first |
| `Wire.FixedRoundTrip` | Protobuf/google/protobuf/io/coded_stream.cc:271-303 | little-endian numbers of any width are read back with what follows untouched |
| `Wire.ZigZagRoundTrip` | Protobuf/google/protobuf/wire_format_lite.h:600-616 | decoding undoes encoding for every number, and a number of either width stays in it |
| `Wire.PrimitiveRoundTrip` | Protobuf/google/protobuf/wire_format_lite_inl.h:53-166 | every value of every scalar type is read back from its bytes, negative `int32` and enum values in ten bytes included |
| `Wire.PrimitiveReadInRange` | Protobuf/google/protobuf/wire_format_lite_inl.h:53-166 | whatever the bytes are, a value that is read is a value of the type |
| `Wire.PrimitiveSizeExact` | Protobuf/google/protobuf/wire_format_lite_inl.h:715-735 | the size function of each type numbers the bytes written |
| `Wire.TagRoundTrip` | Protobuf/google/protobuf/wire_format_lite.h:528-538 | for field numbers below 2^29 a tag is read back with what follows untouched |
| `Wire.TagSizeExact` | Protobuf/google/protobuf/wire_format_lite.h:540-551 | the size of a tag does not depend on the wire type and is that of what is written |
| `SkippedFields.FieldIsSkipped` | Protobuf/google/protobuf/wire_format_lite.cc:111-154 | whatever field a tag announces (a varint, 4 or 8 bytes, a length with as many bytes, a group of such fields with the end tag of its number) and whatever follows, skipping goes over the field and leaves what follows |
| `SkippedFields.SkippedIsField` | Protobuf/google/protobuf/wire_format_lite.cc:111-173 | whatever can be skipped is such a field |
| `SkippedFields.SkipsOneField` | Protobuf/google/protobuf/wire_format_lite.cc:111-154 | so for all bytes: skipping by a tag leaves the rest if and only if the bytes are a field that the tag announces and then the rest |
| `UnknownFields.UnknownAreSkipped` | Protobuf/google/protobuf/extension_set.cc:857-886 | parsing an extension set: fields under no registered number and wire type, put after any whole fields and before any bytes, make no difference |
| `CodedStream.CodedInputStream.ReadVarint64` | Protobuf/google/protobuf/io/coded_stream.cc:422-443 | the loop over the bytes reads just what the specification of varints reads, and fails when it fails |
| `CodedStream.CodedInputStream.ReadVarint32` | Protobuf/google/protobuf/io/coded_stream.cc:339-346 | reads the low 32 bits; fails if and only if the varint is cut off or too long |
| `CodedStream.CodedInputStream.ReadLittleEndian` | Protobuf/google/protobuf/io/coded_stream.cc:271-303 | reads a little-endian number, or fails when bytes are missing |
| `CodedStream.CodedInputStream.ReadString` | Protobuf/google/protobuf/io/coded_stream.cc:245-268 | what the string holds after success and after failure, for every size |
| `CodedStream.CodedInputStream.ReadTag` | Protobuf/google/protobuf/io/coded_stream.cc:391-420 | tag, end, or broken tag; when the end is a legitimate one |
| `CodedStream.CodedInputStream.ExpectTag` | Protobuf/google/protobuf/io/coded_stream.h:861-882 | taken only when `ReadTag` would read that tag, and then it consumes the same bytes; may decline |
| `CodedStream.CodedInputStream.PushLimit` | Protobuf/google/protobuf/io/coded_stream.cc:112-135 | the bytes within the new limit are a prefix of those within the old one: a limit beyond it, or a negative one, is cut back; what parsing makes of that is `LengthBeyondEnd` and `SerializedCut` |
| `CodedStream.CodedInputStream.SkipField` | Protobuf/google/protobuf/wire_format_lite.cc:111-154 | consumes just one field of the tag's wire type, groups with their matching end tag included, within the recursion limit |
| `CodedStream.CodedInputStream.SkipMessage` | Protobuf/google/protobuf/wire_format_lite.cc:156-173 | consumes fields up to the end or an end-group tag, and says which |
| `CodedStream.CodedOutputStream.WriteVarint` | Protobuf/google/protobuf/io/coded_stream.cc:771-792 | appends the varint seven bits at a time |
| `CodedStream.CodedOutputStream.WritePrimitive` | Protobuf/google/protobuf/wire_format_lite_inl.h:420-476 | appends the bytes of a value of any scalar type |
| `CodedStream.CodedOutputStream.WriteVarintToArray` | Protobuf/google/protobuf/io/coded_stream.cc:699-769 | writes the same bytes in place, size first, and nothing beyond them |
| `CodedStream.CodedOutputStream.WritePrimitiveToArray` | Protobuf/google/protobuf/wire_format_lite_inl.h:506-568 | writes in place the bytes that the stream form appends |
| `Extensions.ObservedMerge` | Protobuf/google/protobuf/extension_set.cc:683-823 | what can be observed of a merge is the merge of what can be observed, cleared and empty extensions counting as absent, at every depth |
| `Extensions.MergeIntoEmpty` | Protobuf/google/protobuf/extension_set.cc:683-823 | merging into an empty set what can be observed of another gives just that |
| `Extensions.MergeShows` | Protobuf/google/protobuf/extension_set.cc:683-823 | what a merge shows under a number, for any two sets of a type: what either set shows when the other shows nothing there, the other's number or string, the two messages merged, or the two lists one after the other |
| `Extensions.ShownExactly` | Protobuf/google/protobuf/extension_set.cc:176-210 | what can be observed under a number: nothing of a cleared extension or an empty list, and else the values, a message by what can be observed of it |
| `Extensions.MergeStaysTyped` | Protobuf/google/protobuf/extension_set.cc:683-823 | a merge of two sets of a message type is of that type |
| `Extensions.ClearedIsBlank` | Protobuf/google/protobuf/extension_set.cc:1096-1139 | a cleared set keeps its entries and type but shows nothing |
| `ExtensionCodec.FilledIsFresh` | Protobuf/google/protobuf/extension_set.cc:1251-1392 | `ByteSize` leaves every remembered size right, at every depth, without changing the size or what can be observed |
| `ExtensionCodec.BytesMatchSize` | Protobuf/google/protobuf/extension_set.cc:1141-1392 | with the sizes right, the bytes written number what `ByteSize` says, for every type, repeated, packed or cleared |
| `ExtensionParsing.ParsedStaysTyped` | Protobuf/google/protobuf/extension_set.cc:857-1039 | whatever the bytes are, parsing into a set of a type gives a set of that type: only known enum values, numbers in range, field numbers of 29 bits |
| `ExtensionParsing.ExtensionReadBack` | Protobuf/google/protobuf/extension_set.cc:888-1039 | the bytes of one extension, of any kind, merge it into the set they are parsed into |
| `ExtensionParsing.MessageReadBack` | Protobuf/google/protobuf/extension_set.cc:876-1039 | parsing the bytes of a set into another merges what can be observed of the first into it |
| `ExtensionParsing.SerializedReadBack` | Protobuf/google/protobuf/extension_set.cc:1058-1067 | the same with any bytes following |
| `ExtensionParsing.ConcatenationIsMerge` | Protobuf/google/protobuf/extension_set.cc:683-1067 | parsing serialize(a) followed by serialize(b) gives what can be observed of a merged with b |
| `ExtensionParsing.ParseAfterSerialize` | Protobuf/google/protobuf/extension_set.cc:888-1067 | parsing what was serialized gives back what can be observed |
| `ExtensionParsing.ConcatenationIsMergeInPlace` | Protobuf/google/protobuf/extension_set.cc:676-1067 | the same when parsed into a used set that was cleared first: nothing of what is left in it can be observed |
| `ExtensionFields.NumberMeans` | Protobuf/google/protobuf/wire_format_lite_inl.h:420-476 | what the bytes of every scalar type stand for: two's complement of 64 bits as a varint, twos and ones apart for the `sint` types, four or eight bytes lowest first for the fixed ones |
| `ExtensionFields.ValueIsSkipped` | Protobuf/google/protobuf/wire_format_lite.cc:88-109 | by the wire type of its type, a value of any type is passed over as just its bytes by whoever does not know it |
| `ExtensionFields.ExtensionIsFields` | Protobuf/google/protobuf/extension_set.cc:1141-1249 | what is written for an extension of any type, singular, repeated or packed, is whole fields under its number |
| `ExtensionFields.SerializedIsFields` | Protobuf/google/protobuf/extension_set.cc:1058-1067 | what is written for any typed set is whole fields under the numbers of its extensions, in the order of the numbers |
| `ExtensionFields.UnknownSetIsSkipped` | Protobuf/google/protobuf/extension_set.cc:857-886 | read with a registry that knows none of its numbers, among any other fields, a serialized set leaves no trace |
| `ExtensionFields.MergeAroundUnknown` | Protobuf/google/protobuf/extension_set.cc:857-1067 | parsing serialize(a), fields nobody knows, and serialize(b) gives what can be observed of a merged with b |
| `Truncation.LengthBeyondEnd` | Protobuf/google/protobuf/wire_format_lite_inl.h:355-368 | a message or packed field whose length is at least what is left of the input is parsed exactly as if the length were what is left; a string or bytes field is read only when all of it is there |
| `Truncation.MessageCut` | Protobuf/google/protobuf/extension_set.cc:888-1039 | the first `k` bytes of a typed message are parsed, into whatever message, if and only if they stop between two fields, or inside a message or packed field, after its length, between two of its fields or elements, and so on inwards |
| `Truncation.SerializedCut` | Protobuf/google/protobuf/extension_set.cc:1058-1067 | the same for what serialization writes of any typed extension set |
| `ExtensionWriters.SerializeWithCachedSizes` | Protobuf/google/protobuf/extension_set.cc:1058-1067 | the loop over the ordered map from `lower_bound(start)` appends the bytes of the extensions numbered from `start` up to `end` |
| `ExtensionWriters.SerializeWithCachedSizesToArray` | Protobuf/google/protobuf/extension_set_heavy.cc:346-357 | writes the same bytes in place and returns the position past them |
| `ExtensionWriters.SerializeExtension` | Protobuf/google/protobuf/extension_set.cc:1141-1249 | the stream form of one extension of any type appends the bytes of the specification, which are whole fields of its number and wire type (`ExtensionIsFields`) |
| `ExtensionWriters.SerializeExtensionToArray` | Protobuf/google/protobuf/extension_set_heavy.cc:369-479 | the array form of one extension writes the bytes of the stream form |
| `ExtensionWriters.ByteSize` | Protobuf/google/protobuf/extension_set.cc:1069-1078 | adds up the sizes and brings every remembered size up to date |
| `ExtensionWriters.ExtensionByteSize` | Protobuf/google/protobuf/extension_set.cc:1251-1392 | the same for one extension, whose packed size it remembers |
| `ExtensionWriters.SerializeToStream` | Protobuf/google/protobuf/extension_set.cc:1058-1078 | `ByteSize` and then the stream form: exactly as many bytes as were counted |
| `ExtensionWriters.SerializeToArray` | Protobuf/google/protobuf/extension_set_heavy.cc:346-357 | `ByteSize` and then the array form into an array of that size: the same bytes as the stream form, up to its very end |
| `ExtensionSets.ExtensionSet.MaybeNewExtension` | Protobuf/google/protobuf/extension_set.cc:1083-1091 | inserts if and only if the number is new, and says which |
| `ExtensionSets.ExtensionSet.Has` | Protobuf/google/protobuf/extension_set.cc:176-181 | true if and only if there is something to be observed |
| `ExtensionSets.ExtensionSet.ExtensionSize` | Protobuf/google/protobuf/extension_set.cc:194-198 | as many elements as can be observed |
| `ExtensionSets.ExtensionSet.Set` | Protobuf/google/protobuf/extension_set.cc:250-263 | the entry holds the value and counts as present; no other entry changes |
| `ExtensionSets.ExtensionSet.Add` | Protobuf/google/protobuf/extension_set.cc:280-295 | the element is appended to the entry, made when there is none; no other entry changes |
| `ExtensionSets.ExtensionSet.MutableMessage` | Protobuf/google/protobuf/extension_set.cc:457-478 | the message there is, cleared or not, or a new one, and it counts as present from now on |
| `ExtensionSets.ExtensionSet.Clear` | Protobuf/google/protobuf/extension_set.cc:676-681 | every entry, at every depth, is cleared and none is removed |
| `ExtensionSets.ExtensionSet.MergeFrom` | Protobuf/google/protobuf/extension_set.cc:683-823 | the loops over the other set in place compute the merge whose laws are proved above |
| `ExtensionSets.ExtensionSet.MergeRepeated` | Protobuf/google/protobuf/extension_set.cc:691-751 | the other list is appended in order, each message as a fresh copy merged from it, and no remembered size is taken over |
| `ExtensionSets.ExtensionSet.ParsePacked` | Protobuf/google/protobuf/extension_set.cc:892-946 | reads elements up to the pushed limit and fails when one crosses it; unknown enum values are dropped |
| `ExtensionSets.ExtensionSet.ReadMessage` | Protobuf/google/protobuf/wire_format_lite_inl.h:355-368 | the nested message is parsed within its limit and recursion room and must end at the limit |
| `ExtensionSets.ExtensionSet.ParseDelimited` | Protobuf/google/protobuf/extension_set.cc:998-1035 | a string is stored; a message is parsed into the one there was, or into a new element |
| `ExtensionSets.ExtensionSet.ParseField` | Protobuf/google/protobuf/extension_set.cc:857-1046 | a registered field of the expected wire type is parsed, any other is skipped; succeeds if and only if the specification does, with its result and what is left of the input |
| `ExtensionSets.ExtensionSet.MergePartialFromCodedStream` | Protobuf/google/protobuf/extension_set.cc:876-1039 | the loop in place succeeds at the end of the input if and only if the bytes parse, and then holds what they parse to |
| `ExtensionSets.ExtensionSet.ParseFromArray` | Protobuf/google/protobuf/extension_set.cc:676-1039 | clears first, then the same: parsing decides what can be observed |
| `ExtensionSets.ExtensionSet.ParseMessageSetItem` | Protobuf/google/protobuf/extension_set_heavy.cc:549-627 | the loop over one item: type ids, messages before and after them, and other fields, as the specification reads them |
| `ExtensionSets.ExtensionSet.ParseMessageSet` | Protobuf/google/protobuf/extension_set_heavy.cc:520-540 | the loop over items and ordinary fields, as the specification reads them |
| `MessageSets.SetBytesMatchSize` | Protobuf/google/protobuf/extension_set_heavy.cc:629-707 | the bytes written number what `MessageSetByteSize` says |
| `MessageSets.ItemReadBack` | Protobuf/google/protobuf/extension_set_heavy.cc:549-627 | an item's bytes merge its message into the set they are parsed into |
| `MessageSetFields.ItemIsGroup` | Protobuf/google/protobuf/extension_set_heavy.cc:629-660 | what is written for a live message is one group under number 1 with a type id, its number, under 2, and its bytes under 3 |
| `MessageSetFields.ItemIsSkipped` | Protobuf/google/protobuf/wire_format_lite.cc:111-154 | so whoever reads the set as an ordinary message passes over the item |
| `MessageSetFields.LeastItemFirst` | Protobuf/google/protobuf/extension_set_heavy.cc:690-696 | the item of the least number is written first, and then what the set without it would be written as |
| `MessageSets.OnlyFirstKeptMessageCounts` | Protobuf/google/protobuf/extension_set_heavy.cc:575-593 | messages before the type id: only the first is read when the id comes, the others are lost |
| `KeptMessages.NothingLostExactly` | Protobuf/google/protobuf/extension_set_heavy.cc:575-593 | of any list of messages before the type id the first is merged; the result is what merging all of them gives if and only if everything the others come to is in it already |
| `KeptMessages.LostMessageExample` | Protobuf/google/protobuf/extension_set_heavy.cc:575-593 | an input that loses a message: an empty one, and then one that holds a number |
| `MessageSets.SetNumbersFit` | Protobuf/google/protobuf/extension_set_heavy.cc:575-577 | whatever the bytes are, parsing never makes an extension numbered 2^29 or more |
| `MessageSets.SetRoundTripExact` | Protobuf/google/protobuf/extension_set_heavy.cc:549-707 | a set comes back from its MessageSet bytes if and only if every live extension is numbered below 2^29 |
| `KeptMessages.LargeNumberExample` | Protobuf/google/protobuf/extension_set_heavy.cc:549-707 | an input that does not come back: an empty message under 2^29 |
| `MessageSetWriters.SetByteSize` | Protobuf/google/protobuf/extension_set_heavy.cc:662-707 | adds up the sizes of the items and brings the remembered sizes up to date |
| `MessageSetWriters.SerializeSet` | Protobuf/google/protobuf/extension_set_heavy.cc:629-707 | size, then stream form: exactly as many bytes as were counted |
| `MessageSetWriters.SerializeSetToArray` | Protobuf/google/protobuf/extension_set_heavy.cc:359-510 | size, then array form: the same bytes, up to the very end of the array |
| `PacketLoop.RunIsParsed` | Protobuf/MyPacket.pb.cc:1921-1983 | for every input the plain read-tag and dispatch loop ends well if and only if the bytes parse, and then makes the same message |
| `PacketLoop.PacketConcatenation` | Protobuf/MyPacket.pb.cc:1921-2055 | parsing one serialized packet after another ends well and gives what merging them gives |
| `MyPacket.MergeDepthFromCodedStream` | Protobuf/MyPacket.pb.cc:1680-1746 | for every input the parser with its jumps makes the message and the answer of the plain loop, whether or not it stops early |
| `MyPacket.MergePositionFromCodedStream` | Protobuf/MyPacket.pb.cc:341-407 | the same for Position |
| `MyPacket.Feed.MergePartialFromCodedStream` | Protobuf/MyPacket.pb.cc:1921-1983 | for every input the parser with its jumps makes the message, the answer and the end of input of the plain loop, on failure too, even where `ExpectTag` declines |
| `MyPacket.Feed.SerializeWithCachedSizes` | Protobuf/MyPacket.pb.cc:1985-2005 | appends the bytes of the message as the format defines them |
| `MyPacket.Feed.ByteSize` | Protobuf/MyPacket.pb.cc:2007-2037 | the size of those bytes, remembered in the message and in what it holds |
| `MyPacket.Feed.MergeFrom` | Protobuf/MyPacket.pb.cc:2046-2055 | the merge of the two messages |
| `MyPacket.Feed.IsInitialized` | Protobuf/MyPacket.pb.cc:2063-2073 | true if and only if every required field, nested ones included, is present |
| `MyPacket.Order.MergePartialFromCodedStream` | Protobuf/MyPacket.pb.cc:2340-2420 | for every input the parser with its jumps makes the message, the answer and the end of input of the plain loop, on failure too, even where `ExpectTag` declines |
| `MyPacket.Order.SerializeWithCachedSizes` | Protobuf/MyPacket.pb.cc:2422-2445 | appends the bytes of the message as the format defines them |
| `MyPacket.Order.ByteSize` | Protobuf/MyPacket.pb.cc:2447-2480 | the size of those bytes, remembered in the message and in what it holds |
| `MyPacket.Order.MergeFrom` | Protobuf/MyPacket.pb.cc:2489-2505 | the merge of the two messages |
| `MyPacket.Order.IsInitialized` | Protobuf/MyPacket.pb.cc:2513-2517 | true if and only if every required field, nested ones included, is present |
| `MyPacket.LoginResult.MergePartialFromCodedStream` | Protobuf/MyPacket.pb.cc:589-651 | for every input the parser with its jumps makes the message, the answer and the end of input of the plain loop, on failure too, even where `ExpectTag` declines |
| `MyPacket.LoginResult.SerializeWithCachedSizes` | Protobuf/MyPacket.pb.cc:653-672 | appends the bytes of the message as the format defines them |
| `MyPacket.LoginResult.ByteSize` | Protobuf/MyPacket.pb.cc:674-702 | the size of those bytes, remembered in the message and in what it holds |
| `MyPacket.LoginResult.MergeFrom` | Protobuf/MyPacket.pb.cc:711-725 | the merge of the two messages |
| `MyPacket.LoginResult.IsInitialized` | Protobuf/MyPacket.pb.cc:732-739 | true if and only if every required field, nested ones included, is present |
| `MyPacket.SerializeDepth` | Protobuf/MyPacket.pb.cc:1748-1765 | the bytes of a Depth |
| `MyPacket.DepthByteSize` | Protobuf/MyPacket.pb.cc:1767-1794 | their number, remembered |
| `MyPacket.MergeDepth` | Protobuf/MyPacket.pb.cc:1802-1815 | the later value of every field |
| `MyPacket.SerializePosition` | Protobuf/MyPacket.pb.cc:409-426 | the bytes of a Position |
| `MyPacket.PositionByteSize` | Protobuf/MyPacket.pb.cc:428-450 | their number, remembered |
| `MyPacket.MergePosition` | Protobuf/MyPacket.pb.cc:459-472 | the later value of every field |
| `MyPacket.FeedConcatenation` | Protobuf/MyPacket.pb.cc:1921-2055 | a Feed parsed from two serialized ones has the later product code and the depth lists one after the other |
| `MyPacket.OrderConcatenation` | Protobuf/MyPacket.pb.cc:2340-2505 | an Order parsed from two serialized ones has the later value of every field |
| `MyPacket.LoginResultConcatenation` | Protobuf/MyPacket.pb.cc:589-725 | a LoginResult parsed from two serialized ones has the later number and name and the positions merged |
| `UnknownFields.UnknownInPackets` | Protobuf/MyPacket.pb.cc:1921-1983 | the parser of a packet ends in the same way and with the same message when fields nobody knows are put after any whole fields and before any bytes |
| `UnknownFields.UnknownStringExample` | Protobuf/MyPacket.pb.cc:1921-1983 | seven bytes that are a product code and then an unknown string whose bytes look like a field: the parser keeps the code |
| `PacketBytes.DepthIs` | Protobuf/MyPacket.pb.cc:1748-1765 | the bytes of a Depth: 8 and the count, 16 and the quantity, 29 and the price, each if it is there |
| `PacketBytes.PositionIs` | Protobuf/MyPacket.pb.cc:409-426 | the bytes of a Position: 13, 21 and 29, each with the four bytes of a coordinate |
| `PacketBytes.FeedIs` | Protobuf/MyPacket.pb.cc:1985-2005 | a serialized Feed: 10 and the product code, 18 and each bid, 26 and each ask, each after the number of its bytes |
| `PacketBytes.OrderIs` | Protobuf/MyPacket.pb.cc:2422-2445 | a serialized Order: 8, 16, 29 and 34, with number, quantity, price and product code |
| `PacketBytes.LoginResultIs` | Protobuf/MyPacket.pb.cc:653-672 | a serialized LoginResult: 8 and the number, 18 and the name, 26 and the position after the number of its bytes |
| `TruncatedPackets.PacketCut` | Protobuf/MyPacket.pb.cc:1921-1983 | the loop reaches the end of the first `k` bytes of a serialized packet if and only if the packet may stop there |
| `TruncatedPackets.FeedCut` | Protobuf/MyPacket.pb.cc:1921-2073 | the first `k` bytes of a serialized Feed are parsed to their end and have the required fields if and only if they are the bytes of the same Feed with fewer depths: the required fields of a depth stop every other cut that the loop lets through |
| `TruncatedPackets.TruncatedFeedExample` | Protobuf/MyPacket.pb.cc:1921-1983 | five of the fourteen bytes of a Feed, cut after the length of its depth, are parsed as a Feed with an empty depth, which lacks required fields |
| `SessionPool.InitInv` | Homework7/EduServer_IOCP/ClientSessionManager.cpp:19-31 | the invariant holds once the free list is made |
| `SessionPool.ActionKeepsInv` | Homework7/EduServer_IOCP/ClientSessionManager.cpp:37-67 | every step of every thread is safe and keeps the invariant: each count is the issue reference plus the live contexts, and the free list is duplicate-free with the sessions that are not outstanding |
| `SessionPool.EveryRunIsSafe` | Homework7/EduServer_IOCP/ClientSessionManager.cpp:37-67 | over every interleaving of the modelled steps, which leave out the sends that FeedCenter posts without a reference, no assertion of the code fails, `back()` never sees an empty list, and every count is the issue reference plus the live contexts |
| `SessionPool.DeleteAcceptKeeps` | Homework7/EduServer_IOCP/ClientSession.cpp:56-79 | on the failed-accept path the count stays above zero, so that the session is not returned under the lock |
| `LastReferences.DropsLastExactly` | Homework7/EduServer_IOCP/OverlappedIOContext.cpp:16-21 | in every state that the invariant allows and for every step: a count falls to zero if and only if a context's thread ends, its session is not issued any more and no other context is left; the session is then due to be returned |
| `LastReferences.AcceptorDropsNone` | Homework7/EduServer_IOCP/ClientSessionManager.cpp:37-67 | no step of the thread that holds the pool lock drops a last reference, so that it never waits for the lock it has |
| `LastReferences.DroppedUnderLockExample` | Homework7/EduServer_IOCP/ClientSessionManager.cpp:37-67 | another thread can drop one while the acceptor has the lock: a run from the start in which the first session is accepted, disconnected and left while the acceptor is still in its loop |
| `SessionPool.ReturnKeeps` | Homework7/EduServer_IOCP/ClientSessionManager.cpp:37-48 | a returned session is disconnected, unreferenced and not in the free list already |
| `SessionReturns.ReturnsExactly` | Homework7/EduServer_IOCP/ClientSessionManager.cpp:37-67 | in any state the server can be in, for any session: there is a run that brings it back to the free list if and only if its accept was not refused and it is not issued, just issued, holds a context that leads to a disconnect, or is connected with a context left; and then there is one in which nothing more is refused |
| `SessionReturns.LosingActions` | Homework7/EduServer_IOCP/ClientSession.cpp:56-157 | a step loses a session if and only if it is the refusal of its accept, the refusal of its disconnect, or the end of the last context of a connected session; no step finds a lost one again |
| `SessionReturns.LostForGood` | Homework7/EduServer_IOCP/ClientSessionManager.cpp:50-67 | over every run a lost session stays lost and is never free |
| `SessionReturns.LostStaysLost` | Homework7/EduServer_IOCP/ClientSessionManager.cpp:50-67 | the same for one step of any thread |
| `SessionReturns.FailedAcceptLoses` | Homework7/EduServer_IOCP/ClientSession.cpp:66-76 | after a failed accept the session is issued with one reference, unconnected and without contexts: nobody is left to drop it |
| `SessionReturns.AcceptRefusedExample` | Homework7/EduServer_IOCP/ClientSession.cpp:66-76 | a run from the start in which the kernel refuses an accept and the session is lost |
| `SessionReturns.DisconnectRefusedExample` | Homework7/EduServer_IOCP/Session.h:12-14 | a run from the start in which `DisconnectEx` is refused and the session is lost |
| `SessionReturns.ReceiveRefusedExample` | Homework7/EduServer_IOCP/ClientSession.cpp:148-151 | a run from the start in which the first receive is refused, nobody asks for a disconnect, and the session is lost |
| `SessionPool.DisconnectCompletionKeeps` | Homework7/EduServer_IOCP/Session.h:22-27 | dropping the issue reference leaves the reference of the context at work, so that the count does not reach zero there |
| `SessionPool.ExchangeKeeps` | Homework7/EduServer_IOCP/Session.h:12-14 | winning the exchange of a disconnect request keeps the invariant, by which at most one thread has won it since the session was issued, and the session is still there |
| `SessionPool.NewContextKeeps` | Homework7/EduServer_IOCP/OverlappedIOContext.cpp:6-12 | a new context takes a reference while another is held, so that the count is positive |
| `SessionPool.FinishKeeps` | Homework7/EduServer_IOCP/OverlappedIOContext.cpp:16-21 | dropping the reference of a finished context never takes a count below zero, and when it was the last, the session is unreferenced, disconnected and due to be returned once |
| `SessionPool.ClientSessionManager.PrepareClientSessions` | Homework7/EduServer_IOCP/ClientSessionManager.cpp:19-31 | all sessions are free, once each, and nothing is issued |
| `SessionPool.ClientSessionManager.AcceptClientSessions` | Homework7/EduServer_IOCP/ClientSessionManager.cpp:50-67 | with other threads at work between any two steps the invariant holds at the end; success means that every session is outstanding |
| `SessionPool.ClientSessionManager.ReturnClientSession` | Homework7/EduServer_IOCP/ClientSessionManager.cpp:37-48 | the session, not free before, is appended to the free list, and the return count goes up by one |
| `SessionPool.ClientSessionManager.OtherThreads` | Homework7/EduServer_IOCP/ClientSession.cpp:81-157 | whatever other threads do, in any order, they leave the acceptor's place and the issue count alone, and return nothing while the lock is held |

## Left out

Descriptor pool and databases:

- Placeholders, `allow_unknown_` and the underlay pool: both settings are off, as in a pool made for a fallback database.
- Options, the defaults of scalar and repeated fields, weak imports, lower-case and camel-case names, source locations: a file that fails one of these checks is marked `rejected`, which reports an error at the end of the build.
- Error messages and the error collector; that there was an error is modelled.
- Mutexes: the pool and the prototype factory are entered by one thread at a time.
- DescriptorBuilder.DescriptorBuilder.BuildFile: a file that is in the pool already is compared as a value, where the code compares serialized copies. With a fallback database and dependencies not enforced, or from a pool that is not owned, when a build succeeds is not stated, since what linking builds may then be seen; what is stated is that it is all or nothing.
- DescriptorBuilder.DescriptorBuilder.FindSymbol: with a fallback database and dependencies not enforced, the symbol it may return is stated, and not when it declines, which depends on what the search built on the way; the methods that link a file say as much only.
- DescriptorBuilder.FindByName: with a fallback database, whether a symbol that was not there is found is not stated, since the file that the database names for it may fail to build.
- Fallback databases answer each query always alike, a name query with a file of that name, and with finitely many files in all; a database that changes while the pool is in use is not modelled.
- Addresses of strings and descriptors are serial numbers that are never used again after being freed.
- `DescriptorPoolDatabase` and the encoded database, whose index is the same template; `CopyTo`, `DebugString`.
- MergedDatabase.MergedDescriptorDatabase.FindFileContaining: one method stands for the symbol and the extension query, which differ only in the query.

Dynamic messages:

- Placement new, destructors, reflection and default instances; sizes of C++ types are positive parameters.
- Integer overflow of offsets beyond `int`.

Wire format and extension sets:

- Groups as extensions, and lazy messages; groups in skipped fields are modelled.
- Unknown fields are skipped as in the lite library, not kept.
- The input is one flat array: no refills from a stream, no total-bytes limit; the fast paths over the buffer read what the slow ones do.
- Floating-point values are their bit patterns of four or eight bytes.
- The values an enum accepts are a finite set of the registry.
- ExtensionSets.ExtensionSet.ParseField: what the set holds after a failed parse is not stated; for the packets, it is.
- ExtensionSets.ExtensionSet.MergeFrom: nested messages are values, so that aliasing between sets and the reuse of cleared elements of repeated fields are not modelled.
- Sizes beyond `int`: a message counts as serializable when each string and nested size is below 2^31, which the code takes for granted.
- `SpaceUsed`, `Swap`, `ReleaseLast`, descriptors of extensions, and the accessors that the macros make: easy members only.

Packets:

- The other packets of MyPacket.pb.cc, which have the same shape.
- MyPacket.Feed.MergePartialFromCodedStream: a presence bit and its value are one optional value, so that the value a cleared field keeps in memory is not modelled.
- The strings are bytes: the check for UTF-8 in debug builds changes nothing but a log.

Sessions:

- Sockets, completion ports, buffers, players and the feed: the steps that change counts, flags and lists are kept, and the kernel may complete or refuse whatever was posted.
- The bodies of `DisconnectRequest`, `DisconnectCompletion`, `AddRef` and `ReleaseRef` are in Homework7/EduServer_IOCP/Session.cpp (lines 20-39, 199-207, 232-246) and the worker's loop in IOThread.cpp (lines 38-145). These two files are not in UTF-8, so that the table above cites Session.h and ClientSession.cpp for the steps taken from them.
- New contexts are made only by a thread that holds a reference: its own context's, or the acceptor's. FeedCenter.cpp posts sends from a list of sessions without a reference, and is not part of this model.
- The first send of a database result or of `ServerSession`, which are not pooled.
- SessionPool.EveryRunIsSafe: the sends that FeedCenter.cpp posts to a list of sessions without holding a reference are not among the steps.
- SessionReturns.ReturnsExactly: likewise; a send of the feed that fails could ask for the disconnect of a session that is counted as lost while connected.
- SessionPool.ClientSessionManager.AcceptClientSessions: says what success means; that a refused accept loses its session is `FailedAcceptLoses`.
