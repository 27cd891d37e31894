/** `std::map`: a sequence of pairs in strictly increasing order of their keys. Position `|s|` is `end()`. */
module OrderedMaps {

  datatype Option<+T> = None | Some(value: T)

  ghost predicate StrictOrder<K(!new)>(lt: (K, K) -> bool) {
    && (forall a :: !lt(a, a))
    && (forall a, b, c :: lt(a, b) && lt(b, c) ==> lt(a, c))
    && (forall a, b :: a == b || lt(a, b) || lt(b, a))
  }

  ghost predicate Sorted<K(!new), V>(lt: (K, K) -> bool, s: seq<(K, V)>) {
    forall i, j | 0 <= i < j < |s| :: lt(s[i].0, s[j].0)
  }

  /** `upper_bound`: the first position whose key is greater than `k`. */
  function UpperBound<K, V>(lt: (K, K) -> bool, s: seq<(K, V)>, k: K): (i: nat)
    ensures i <= |s|
    ensures forall j | 0 <= j < i :: !lt(k, s[j].0)
    ensures i < |s| ==> lt(k, s[i].0)
  {
    if s == [] || lt(k, s[0].0) then 0 else 1 + UpperBound(lt, s[1..], k)
  }

  /** `lower_bound`: the first position whose key is not less than `k`. */
  function LowerBound<K, V>(lt: (K, K) -> bool, s: seq<(K, V)>, k: K): (i: nat)
    ensures i <= |s|
    ensures forall j | 0 <= j < i :: lt(s[j].0, k)
    ensures i < |s| ==> !lt(s[i].0, k)
  {
    if s == [] || !lt(s[0].0, k) then 0 else 1 + LowerBound(lt, s[1..], k)
  }

  /** `find`: the position of `k`, or `end()`. */
  function Find<K(==), V>(lt: (K, K) -> bool, s: seq<(K, V)>, k: K): (i: nat)
    ensures i <= |s| && (i < |s| ==> s[i].0 == k)
  {
    var i := LowerBound(lt, s, k);
    if i < |s| && s[i].0 == k then i else |s|
  }

  /** `insert`: a key that is present keeps its value. */
  function Insert<K(==), V>(lt: (K, K) -> bool, s: seq<(K, V)>, k: K, v: V): seq<(K, V)> {
    if Find(lt, s, k) < |s| then s else var i := LowerBound(lt, s, k); s[..i] + [(k, v)] + s[i..]
  }

  /** The value of a key. */
  function Lookup<K(==), V>(lt: (K, K) -> bool, s: seq<(K, V)>, k: K): Option<V> {
    var i := Find(lt, s, k);
    if i < |s| then Some(s[i].1) else None
  }

  ghost predicate HasPair<K, V>(s: seq<(K, V)>, k: K, v: V) {
    exists i :: 0 <= i < |s| && s[i] == (k, v)
  }

  ghost predicate HasKey<K, V>(s: seq<(K, V)>, k: K) {
    exists i :: 0 <= i < |s| && s[i].0 == k
  }

  /** In a sorted sequence `find` sees a key exactly when some position holds it. */
  lemma LookupIsMember<K(!new), V>(lt: (K, K) -> bool, s: seq<(K, V)>, k: K, v: V)
    requires StrictOrder(lt) && Sorted(lt, s)
    ensures Lookup(lt, s, k) == Some(v) <==> HasPair(s, k, v)
  {
    if i :| 0 <= i < |s| && s[i] == (k, v) {
      var lo := LowerBound(lt, s, k);
      assert lo <= i;
    }
  }

  lemma InsertSorted<K(!new), V>(lt: (K, K) -> bool, s: seq<(K, V)>, k: K, v: V)
    requires StrictOrder(lt) && Sorted(lt, s)
    ensures Sorted(lt, Insert(lt, s, k, v))
  {
    hide StrictOrder, Sorted;
    var i := LowerBound(lt, s, k);
    if Find(lt, s, k) == |s| {
      KeysAbove(lt, s, k, i);
      InsertedSorted(lt, s, k, v, i);
    }
  }

  lemma KeysAbove<K(!new), V>(lt: (K, K) -> bool, s: seq<(K, V)>, k: K, i: nat)
    requires StrictOrder(lt) && Sorted(lt, s) && i <= |s|
    requires i < |s| ==> s[i].0 != k && !lt(s[i].0, k)
    ensures forall j | i <= j < |s| :: lt(k, s[j].0)
  {
    if i < |s| {
      assert lt(k, s[i].0);
      forall j | i < j < |s| ensures lt(k, s[j].0) {
        assert lt(s[i].0, s[j].0);
      }
    }
  }

  lemma InsertedSorted<K(!new), V>(lt: (K, K) -> bool, s: seq<(K, V)>, k: K, v: V, i: nat)
    requires Sorted(lt, s) && i <= |s|
    requires forall j | 0 <= j < i :: lt(s[j].0, k)
    requires forall j | i <= j < |s| :: lt(k, s[j].0)
    ensures Sorted(lt, s[..i] + [(k, v)] + s[i..])
  {
    var t := s[..i] + [(k, v)] + s[i..];
    forall a, b | 0 <= a < b < |t| ensures lt(t[a].0, t[b].0) {
      assert t[a] == if a < i then s[a] else if a == i then (k, v) else s[a - 1];
      assert t[b] == if b < i then s[b] else if b == i then (k, v) else s[b - 1];
    }
  }

  /** `insert` of an absent key adds that pair and nothing else. */
  lemma InsertMembers<K(!new), V>(lt: (K, K) -> bool, s: seq<(K, V)>, k: K, v: V, x: K, y: V)
    requires Find(lt, s, k) == |s|
    ensures HasPair(Insert(lt, s, k, v), x, y) <==> (x, y) == (k, v) || HasPair(s, x, y)
  {
    var t := Insert(lt, s, k, v);
    var i := LowerBound(lt, s, k);
    assert t[i] == (k, v);
    if j :| 0 <= j < |s| && s[j] == (x, y) { assert t[if j < i then j else j + 1] == (x, y); }
    if j :| 0 <= j < |t| && t[j] == (x, y) {
      if j != i { assert s[if j < i then j else j - 1] == (x, y); }
    }
  }

  lemma InsertKeys<K(!new), V>(lt: (K, K) -> bool, s: seq<(K, V)>, k: K, v: V, x: K)
    requires Find(lt, s, k) == |s|
    ensures HasKey(Insert(lt, s, k, v), x) <==> x == k || HasKey(s, x)
  {
    var t := Insert(lt, s, k, v);
    if i :| 0 <= i < |t| && t[i].0 == x {
      InsertMembers(lt, s, k, v, x, t[i].1);
      assert HasPair(t, x, t[i].1);
    }
    if i :| 0 <= i < |s| && s[i].0 == x {
      InsertMembers(lt, s, k, v, x, s[i].1);
      assert HasPair(s, x, s[i].1);
    }
    InsertMembers(lt, s, k, v, k, v);
  }
}
