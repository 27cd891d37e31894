/** Symbol names: the order of `std::string`, dotted prefixes, and the search for a dot. */
module Names {

  /** `std::string::operator<`. */
  predicate Less(a: string, b: string) {
    b != "" && (a == "" || a[0] < b[0] || (a[0] == b[0] && Less(a[1..], b[1..])))
  }

  lemma {:induction false} LessIrreflexive(a: string)
    ensures !Less(a, a)
  {
    if a != "" { LessIrreflexive(a[1..]); }
  }

  lemma {:induction false} LessTransitive(a: string, b: string, c: string)
    requires Less(a, b) && Less(b, c)
    ensures Less(a, c)
  {
    if a != "" && a[0] == b[0] && b[0] == c[0] { LessTransitive(a[1..], b[1..], c[1..]); }
  }

  lemma {:induction false} LessTotal(a: string, b: string)
    ensures a == b || Less(a, b) || Less(b, a)
  {
    if a != "" && b != "" && a[0] == b[0] {
      LessTotal(a[1..], b[1..]);
      if a[1..] == b[1..] { assert a == [a[0]] + a[1..] == [b[0]] + b[1..] == b; }
    }
  }

  /** A character `ValidateSymbolName` accepts. */
  predicate SymbolChar(c: char) {
    c == '.' || c == '_' || '0' <= c <= '9' || 'A' <= c <= 'Z' || 'a' <= c <= 'z'
  }

  predicate ValidSymbol(name: string) {
    forall i | 0 <= i < |name| :: SymbolChar(name[i])
  }

  /** `p` is `name` or one of its dotted prefixes. */
  predicate Covers(p: string, name: string) {
    p == name || (p <= name && name[|p|] == '.')
  }

  lemma CoversTransitive(a: string, b: string, c: string)
    requires Covers(a, b) && Covers(b, c)
    ensures Covers(a, c)
  {
    if a != b && b != c { assert c[|a|] == b[|a|]; }
  }

  /** Two dotted prefixes of one name are comparable. */
  lemma CoversLinear(a: string, b: string, c: string)
    requires Covers(a, c) && Covers(b, c) && |a| <= |b|
    ensures Covers(a, b)
  {
    if |a| == |b| { assert a == c[..|a|] == b; } else { assert b[|a|] == c[|a|]; }
  }

  lemma {:induction false} CoversIsLess(p: string, name: string)
    requires Covers(p, name) && p != name
    ensures Less(p, name)
  {
    if p != "" {
      assert p[1..] <= name[1..] && name[1..][|p[1..]|] == name[|p|];
      CoversIsLess(p[1..], name[1..]);
    }
  }

  /** '.' sorts before every other symbol character, so what lies between a prefix and a name it
      covers is covered by the prefix too. */
  lemma {:induction false} BetweenIsCovered(p: string, k: string, name: string)
    requires Covers(p, name) && p != name && ValidSymbol(k)
    requires Less(p, k) && (k == name || Less(k, name))
    ensures Covers(p, k)
  {
    if p == "" {
      assert SymbolChar(k[0]);
    } else {
      assert p[1..] <= name[1..] && name[1..][|p[1..]|] == name[|p|];
      BetweenIsCovered(p[1..], k[1..], name[1..]);
      assert p == [p[0]] + p[1..] && k == [k[0]] + k[1..];
    }
  }

  /** What `name` covers starts right after `name`: a key between `name` and a key it covers is
      covered by `name`. */
  lemma CoveredBlock(name: string, k: string, far: string)
    requires Covers(name, far) && ValidSymbol(k) && Less(name, k)
    requires k == far || Less(k, far)
    ensures Covers(name, k)
  {
    if name == far {
      if k == far { LessIrreflexive(k); } else { LessTransitive(k, far, k); LessIrreflexive(k); }
    } else {
      BetweenIsCovered(name, k, far);
    }
  }

  /** `find_last_of('.')`, with -1 for `npos`. */
  function LastDot(name: string): (d: int)
    ensures -1 <= d < |name|
    ensures d >= 0 ==> name[d] == '.'
    ensures forall i | d < i < |name| :: name[i] != '.'
  {
    if name == "" then -1
    else if name[|name| - 1] == '.' then |name| - 1
    else LastDot(name[..|name| - 1])
  }

  /** `find_first_of('.')`, with -1 for `npos`. */
  function FirstDot(name: string): (d: int)
    ensures -1 <= d < |name|
    ensures d >= 0 ==> name[d] == '.'
    ensures forall i | 0 <= i < (if d < 0 then |name| else d) :: name[i] != '.'
  {
    if name == "" then -1
    else if name[0] == '.' then 0
    else var r := FirstDot(name[1..]); if r < 0 then -1 else r + 1
  }

  /** The nearest dotted prefix. */
  function Parent(name: string): (p: string)
    requires LastDot(name) >= 0
    ensures Covers(p, name) && |p| < |name|
  {
    name[..LastDot(name)]
  }

  /** Every proper dotted prefix of a name covers the nearest one. */
  lemma CoversParent(p: string, name: string)
    requires Covers(p, name) && p != name
    ensures LastDot(name) >= 0 && Covers(p, Parent(name))
  {
    assert name[|p|] == '.';
    assert |p| <= LastDot(name);
    CoversLinear(p, Parent(name), name);
  }

  predicate NoDot(name: string) {
    forall i | 0 <= i < |name| :: name[i] != '.'
  }

  lemma {:induction false} LastDotOfJoined(scope: string, name: string)
    requires NoDot(name)
    ensures LastDot(scope + ['.'] + name) == |scope|
    decreases |name|
  {
    var full := scope + ['.'] + name;
    if name != "" {
      var shorter := name[..|name| - 1];
      assert full[..|full| - 1] == scope + ['.'] + shorter;
      assert full[|full| - 1] == name[|name| - 1];
      LastDotOfJoined(scope, shorter);
    }
  }

  lemma ParentOfJoined(scope: string, name: string)
    requires NoDot(name)
    ensures LastDot(scope + ['.'] + name) == |scope| && Parent(scope + ['.'] + name) == scope
  {
    hide LastDot, NoDot;
    LastDotOfJoined(scope, name);
    assert (scope + ['.'] + name)[..|scope|] == scope;
  }
}
