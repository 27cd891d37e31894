/**
 * What a pool asks of its fallback database: an answer to each of three queries. Nothing says that a database answers a
 * symbol query whenever it has the symbol, nor that what it answers declares it.
 */
module FallbackDatabase {
  import opened OrderedMaps
  import opened Protos
  import MergedDatabase

  type Query = MergedDatabase.Query

  /** `names` are the names of the files it can answer with. */
  datatype Database = Database(byName: string -> Option<FileProto>, answer: Query -> Option<FileProto>,
                               names: set<string>)

  /** A name query is answered with a file of that name, and only finitely many files are ever answered. */
  ghost predicate Consistent(db: Database) {
    && (forall name | db.byName(name).Some? :: db.byName(name).value.name == name && name in db.names)
    && (forall q | db.answer(q).Some? :: db.answer(q).value.name in db.names)
  }

  // ----- Merged databases of indexes -----

  ghost function FileNames(db: MergedDatabase.Database): set<string>
    decreases db
  {
    match db
    case Simple(index) => index.byName.Keys
    case Merged(sources) => set i, n | 0 <= i < |sources| && n in FileNames(sources[i]) :: n
  }

  ghost function OfMerged(db: MergedDatabase.Database): Database {
    Database(name => MergedDatabase.FileByName(db, name), q => MergedDatabase.FileFor(db, q), FileNames(db))
  }

  lemma {:induction false} NamedFile(db: MergedDatabase.Database, name: string)
    requires MergedDatabase.Consistent(db) && MergedDatabase.FileByName(db, name).Some?
    ensures MergedDatabase.FileByName(db, name).value.name == name && name in FileNames(db)
    decreases db
  {
    match db {
      case Simple(index) =>
      case Merged(sources) =>
        var i := FirstNamed(sources, name);
        NamedFile(sources[i], name);
    }
  }

  lemma {:induction false} FirstNamed(sources: seq<MergedDatabase.Database>, name: string) returns (i: nat)
    requires MergedDatabase.FirstByName(sources, name).Some?
    ensures i < |sources| && MergedDatabase.FirstByName(sources, name) == MergedDatabase.FileByName(sources[i], name)
  {
    if MergedDatabase.FileByName(sources[0], name).Some? {
      i := 0;
    } else {
      i := FirstNamed(sources[1..], name);
      i := i + 1;
    }
  }

  /** Whatever indexes are merged, and however deep, the result is a database a pool can fall back on. */
  lemma MergedIsConsistent(db: MergedDatabase.Database)
    requires MergedDatabase.Consistent(db)
    ensures Consistent(OfMerged(db))
  {
    var merged := OfMerged(db);
    forall name | merged.byName(name).Some? ensures merged.byName(name).value.name == name && name in merged.names {
      NamedFile(db, name);
    }
    forall q | merged.answer(q).Some? ensures merged.answer(q).value.name in merged.names {
      MergedDatabase.FoundFileIsNamedFile(db, q);
      NamedFile(db, MergedDatabase.FileFor(db, q).value.name);
    }
  }

  // ----- Source trees -----

  /** A tree of source files answers by name only. */
  function OfFiles(files: map<string, FileProto>): Database {
    Database(name => if name in files then Some(files[name]) else None, q => None, files.Keys)
  }

  lemma SourceTreeIsConsistent(files: map<string, FileProto>)
    ensures Consistent(OfFiles(files)) <==> forall name | name in files :: files[name].name == name
  {
    var db := OfFiles(files);
    if Consistent(db) {
      forall name | name in files ensures files[name].name == name { assert db.byName(name).Some?; }
    }
  }
}
