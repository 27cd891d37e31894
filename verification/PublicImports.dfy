/** The files a file may use: its direct dependencies and what those export publicly. */
module PublicImports {
  import opened OrderedMaps
  import opened PoolTables

  type Descs = map<Id, FileDesc>

  /** `public_dependency(i)`, null entries included. */
  function PublicEdge(d: FileDesc, i: nat): Option<Id>
    requires i < |d.publicDependencies|
  {
    var k := d.publicDependencies[i];
    if k < |d.dependencies| then d.dependencies[k] else None
  }

  ghost predicate HasEdge(descs: Descs, a: Id, b: Id) {
    a in descs && exists i :: 0 <= i < |descs[a].publicDependencies| && PublicEdge(descs[a], i) == Some(b)
  }

  /** A path along public edges. */
  ghost predicate Path(descs: Descs, path: seq<Id>) {
    path != [] && forall i | 0 <= i < |path| - 1 :: HasEdge(descs, path[i], path[i + 1])
  }

  ghost predicate Reaches(descs: Descs, a: Id, b: Id) {
    exists path :: Path(descs, path) && path[0] == a && path[|path| - 1] == b
  }

  lemma ReachesSelf(descs: Descs, a: Id)
    ensures Reaches(descs, a, a)
  {
    assert Path(descs, [a]) && [a][0] == a;
  }

  lemma ReachesEdge(descs: Descs, a: Id, b: Id, c: Id)
    requires HasEdge(descs, a, b) && Reaches(descs, b, c)
    ensures Reaches(descs, a, c)
  {
    var path :| Path(descs, path) && path[0] == b && path[|path| - 1] == c;
    var longer := [a] + path;
    forall i | 0 <= i < |longer| - 1 ensures HasEdge(descs, longer[i], longer[i + 1]) {
      if i > 0 { assert longer[i] == path[i - 1] && longer[i + 1] == path[i]; }
    }
    assert Path(descs, longer) && longer[0] == a && longer[|longer| - 1] == c;
  }

  /** Every public edge out of `from` ends in `into`. */
  ghost predicate Closed(descs: Descs, from: set<Id>, into: set<Id>) {
    forall a, b | a in from && HasEdge(descs, a, b) :: b in into
  }

  lemma {:induction false} ClosedReaches(descs: Descs, s: set<Id>, path: seq<Id>)
    requires Closed(descs, s, s) && Path(descs, path) && path[0] in s
    ensures path[|path| - 1] in s
    decreases |path|
  {
    if |path| > 1 {
      assert HasEdge(descs, path[0], path[1]);
      forall i | 0 <= i < |path[1..]| - 1 ensures HasEdge(descs, path[1..][i], path[1..][i + 1]) {
        assert HasEdge(descs, path[i + 1], path[i + 2]);
      }
      ClosedReaches(descs, s, path[1..]);
    }
  }

  /** What the build loop computes: everything reachable from a direct dependency, itself included. */
  ghost predicate IsPublicClosure(descs: Descs, direct: seq<Option<Id>>, s: set<Id>) {
    forall b :: b in s <==> exists i, a :: 0 <= i < |direct| && direct[i] == Some(a) && Reaches(descs, a, b)
  }

  lemma ClosureIsExact(descs: Descs, direct: seq<Option<Id>>, s: set<Id>)
    requires Closed(descs, s, s)
    requires forall i | 0 <= i < |direct| && direct[i].Some? :: direct[i].value in s
    requires forall b | b in s :: exists i, a :: 0 <= i < |direct| && direct[i] == Some(a) && Reaches(descs, a, b)
    ensures IsPublicClosure(descs, direct, s)
  {
    forall b, i, a | 0 <= i < |direct| && direct[i] == Some(a) && Reaches(descs, a, b) ensures b in s {
      var path :| Path(descs, path) && path[0] == a && path[|path| - 1] == b;
      assert direct[i].value in s;
      ClosedReaches(descs, s, path);
    }
  }
}
