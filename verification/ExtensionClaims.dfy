/** Which extensions of a file are found under their numbers once the file is linked. */
module ExtensionClaims {
  import opened OrderedMaps
  import opened Protos
  import opened PoolTables
  import opened SymbolOwnership
  import opened Declarations
  import opened ScopeLookup
  import opened References
  import opened FieldNumbers
  import opened PoolInvariant
  import opened BuildConditions

  /** The extensions declared in a message and in the messages inside it, in the order they are linked. */
  ghost function MessageClaims(env: Env, m: MessageProto, scope: string): seq<Claim>
    decreases m, 0
  {
    var full := Join(scope, m.name);
    MessagesClaims(env, m.nested, full) + FieldsClaims(env, m.extensions, full)
  }

  ghost function MessagesClaims(env: Env, messages: seq<MessageProto>, scope: string): seq<Claim>
    decreases messages, 1
  {
    if messages == [] then []
    else MessagesClaims(env, messages[..|messages| - 1], scope) + MessageClaims(env, messages[|messages| - 1], scope)
  }

  /** All the extensions of a file, nested ones included. */
  ghost function FileClaims(env: Env, proto: FileProto): seq<Claim> {
    MessagesClaims(env, proto.messages, PackageOf(proto)) + FieldsClaims(env, proto.extensions, PackageOf(proto))
  }

  // ----- Linking makes the claims in turn -----

  lemma {:induction false} MessageInTurn(m: Entries, env: Env, message: MessageProto, scope: string)
    ensures MessageEntered(m, env, message, scope) == EnteredInTurn(m, MessageClaims(env, message, scope))
    decreases message, 0
  {
    hide Join, FieldsEntered, FieldsClaims, EnteredInTurn;
    var full := Join(scope, message.name);
    var inside := MessagesEntered(m, env, message.nested, full);
    MessagesInTurn(m, env, message.nested, full);
    PlainFieldsEnterNothing(inside, env, message.fields, full);
    FieldsInTurn(inside, env, message.extensions, full);
    InTurnJoins(m, MessagesClaims(env, message.nested, full), FieldsClaims(env, message.extensions, full));
  }

  lemma {:induction false} MessagesInTurn(m: Entries, env: Env, messages: seq<MessageProto>, scope: string)
    ensures MessagesEntered(m, env, messages, scope) == EnteredInTurn(m, MessagesClaims(env, messages, scope))
    decreases messages, 1
  {
    hide MessageEntered, MessageClaims;
    if messages != [] {
      var last, init := messages[|messages| - 1], messages[..|messages| - 1];
      MessagesInTurn(m, env, init, scope);
      MessageInTurn(MessagesEntered(m, env, init, scope), env, last, scope);
      InTurnJoins(m, MessagesClaims(env, init, scope), MessageClaims(env, last, scope));
    }
  }

  lemma FileInTurn(m: Entries, env: Env, proto: FileProto)
    ensures FileEntered(m, env, proto) == EnteredInTurn(m, FileClaims(env, proto))
  {
    hide PackageOf, FieldsEntered, FieldsClaims, EnteredInTurn, MessagesEntered, MessagesClaims;
    var scope := PackageOf(proto);
    MessagesInTurn(m, env, proto.messages, scope);
    FieldsInTurn(MessagesEntered(m, env, proto.messages, scope), env, proto.extensions, scope);
    InTurnJoins(m, MessagesClaims(env, proto.messages, scope), FieldsClaims(env, proto.extensions, scope));
  }

  // ----- A file that uses no number twice claims none twice -----

  /** The claims are for different numbers, all among these, and made by extensions of this file. */
  ghost predicate ClaimedOnce(env: Env, claims: seq<Claim>, keys: seq<ExtensionKey>) {
    && (forall i, j | 0 <= i < j < |claims| :: claims[i].0 != claims[j].0)
    && forall i | 0 <= i < |claims| :: claims[i].0 in keys && claims[i].1.file == env.file
  }

  lemma ClaimedOnceJoins(env: Env, a: seq<Claim>, b: seq<Claim>, keys: seq<ExtensionKey>, more: seq<ExtensionKey>)
    requires ClaimedOnce(env, a, keys) && ClaimedOnce(env, b, more)
    requires forall k | k in keys :: k !in more
    ensures ClaimedOnce(env, a + b, keys + more)
  {
  }

  lemma Separate(a: seq<ExtensionKey>, b: seq<ExtensionKey>)
    requires Unused({}, a + b)
    ensures Unused({}, a) && Unused({}, b) && forall k | k in a :: k !in b
  {
    UnusedSplit({}, a, b);
    forall k | k in a ensures k !in b { assert k in Elements(a); }
  }

  lemma FieldsClaimedOnce(env: Env, fields: seq<FieldProto>, scope: string)
    requires Unused({}, FieldKeys(env, fields, scope, true))
    ensures ClaimedOnce(env, FieldsClaims(env, fields, scope), FieldKeys(env, fields, scope, true))
  {
    hide FieldKey, Join;
    var claims, keys := FieldsClaims(env, fields, scope), FieldKeys(env, fields, scope, true);
    forall i | 0 <= i < |claims| ensures claims[i].0 == keys[i] && claims[i].1.file == env.file {}
  }

  lemma {:induction false} MessageClaimedOnce(env: Env, m: MessageProto, scope: string)
    requires Unused({}, MessageKeys(env, m, scope))
    ensures ClaimedOnce(env, MessageClaims(env, m, scope), MessageKeys(env, m, scope))
    decreases m, 0
  {
    hide Join, FieldKeys, FieldsClaims, ClaimedOnce, Unused;
    var full := Join(scope, m.name);
    var inside, plain := MessagesKeys(env, m.nested, full), FieldKeys(env, m.fields, full, false);
    var own := FieldKeys(env, m.extensions, full, true);
    assert inside + (plain + own) == (inside + plain) + own;
    Separate(inside, plain + own);
    Separate(plain, own);
    Separate(inside + plain, own);
    MessagesClaimedOnce(env, m.nested, full);
    FieldsClaimedOnce(env, m.extensions, full);
    MoreKeys(env, MessagesClaims(env, m.nested, full), inside, plain);
    ClaimedOnceJoins(env, MessagesClaims(env, m.nested, full), FieldsClaims(env, m.extensions, full),
                     inside + plain, own);
  }

  lemma MoreKeys(env: Env, claims: seq<Claim>, keys: seq<ExtensionKey>, more: seq<ExtensionKey>)
    requires ClaimedOnce(env, claims, keys)
    ensures ClaimedOnce(env, claims, keys + more)
  {
  }

  lemma {:induction false} MessagesClaimedOnce(env: Env, messages: seq<MessageProto>, scope: string)
    requires Unused({}, MessagesKeys(env, messages, scope))
    ensures ClaimedOnce(env, MessagesClaims(env, messages, scope), MessagesKeys(env, messages, scope))
    decreases messages, 1
  {
    hide MessageKeys, MessageClaims, Unused;
    if messages != [] {
      var last, init := messages[|messages| - 1], messages[..|messages| - 1];
      Separate(MessagesKeys(env, init, scope), MessageKeys(env, last, scope));
      MessagesClaimedOnce(env, init, scope);
      MessageClaimedOnce(env, last, scope);
      ClaimedOnceJoins(env, MessagesClaims(env, init, scope), MessageClaims(env, last, scope),
                       MessagesKeys(env, init, scope), MessageKeys(env, last, scope));
    }
  }

  /**
   * A file that uses no number twice is linked in a pool where every number is another file's: each of its extensions,
   * nested or not, is the one found under its number exactly when the number was free.
   */
  lemma FileFoundByNumberExactly(m: Entries, env: Env, proto: FileProto)
    requires Unused({}, FileKeys(env, proto)) && forall k | k in m :: m[k].file != env.file
    ensures var u := FileEntered(m, env, proto);
      forall c | c in FileClaims(env, proto) :: c.0 in u && (u[c.0] == c.1 <==> c.0 !in m)
  {
    hide PackageOf, FieldsClaims, MessagesClaims, FieldKeys, MessagesKeys, EnteredInTurn, FileEntered;
    var scope, claims := PackageOf(proto), FileClaims(env, proto);
    Separate(MessagesKeys(env, proto.messages, scope), FieldKeys(env, proto.extensions, scope, true));
    MessagesClaimedOnce(env, proto.messages, scope);
    FieldsClaimedOnce(env, proto.extensions, scope);
    ClaimedOnceJoins(env, MessagesClaims(env, proto.messages, scope), FieldsClaims(env, proto.extensions, scope),
                     MessagesKeys(env, proto.messages, scope), FieldKeys(env, proto.extensions, scope, true));
    FileInTurn(m, env, proto);
    forall c | c in claims
      ensures c.0 in EnteredInTurn(m, claims) && (EnteredInTurn(m, claims)[c.0] == c.1 <==> c.0 !in m)
    {
      var i :| 0 <= i < |claims| && claims[i] == c;
      assert ClaimsKey(claims, c.0);
      InTurn(m, claims, c.0);
      assert FirstClaim(claims, c.0) == i;
    }
  }

  /** After a build, each extension of the file is found under its number exactly when the pool had none there. */
  lemma BuiltFileFoundExactly(pool: Pool, p: State, q: State, proto: FileProto)
    requires Inv(p) && Buildable(pool, p, proto) && JustBuilt(pool, p, q, proto)
    ensures forall c | c in FileClaims(EntryEnv(pool, p, proto), proto) ::
      && c.0 in q.log.now.extensions
      && (q.log.now.extensions[c.0] == c.1 <==> c.0 !in p.log.now.extensions)
  {
    hide Inv, FileLinks, FileKeys, FileEntered, FileClaims, ContentsOk, SymbolsEntered;
    ExtensionsAreOlder(p);
    FileFoundByNumberExactly(p.log.now.extensions, EntryEnv(pool, p, proto), proto);
  }

  lemma ExtensionsAreOlder(s: State)
    requires Inv(s)
    ensures forall k | k in s.log.now.extensions :: s.log.now.extensions[k].file != s.nextId
  {
  }

  // ----- The claims are those of the extensions at their positions -----

  predicate Extends(messages: seq<MessageProto>, path: seq<nat>, place: Place) {
    InMessages(messages, path, place) && place.ExtensionOf?
  }

  ghost function ClaimIn(env: Env, messages: seq<MessageProto>, scope: string, path: seq<nat>, place: Place): Claim
    requires Extends(messages, path, place)
  {
    (KeyInMessages(env, messages, scope, path, place), Ref(env.file, NameInMessages(messages, scope, path, place)))
  }

  ghost predicate ClaimsIn(env: Env, messages: seq<MessageProto>, scope: string, c: Claim) {
    exists path, place :: Extends(messages, path, place) && c == ClaimIn(env, messages, scope, path, place)
  }

  ghost predicate OwnClaim(env: Env, extensions: seq<FieldProto>, scope: string, c: Claim) {
    exists i :: 0 <= i < |extensions| && c ==
      (FieldKey(env, extensions[i], Under(scope, extensions[i].name), None),
       Ref(env.file, Under(scope, extensions[i].name)))
  }

  lemma OwnClaims(env: Env, extensions: seq<FieldProto>, scope: string, c: Claim)
    ensures c in FieldsClaims(env, extensions, scope) <==> OwnClaim(env, extensions, scope, c)
  {
    hide FieldKey, Under, Join;
    forall n { UnderIsJoin(scope, n); }
    var claims := FieldsClaims(env, extensions, scope);
    forall i | 0 <= i < |extensions|
      ensures claims[i] == (FieldKey(env, extensions[i], Under(scope, extensions[i].name), None),
                            Ref(env.file, Under(scope, extensions[i].name)))
    {
    }
    if OwnClaim(env, extensions, scope, c) {
      var i :| 0 <= i < |extensions| && c ==
        (FieldKey(env, extensions[i], Under(scope, extensions[i].name), None),
         Ref(env.file, Under(scope, extensions[i].name)));
      assert claims[i] == c;
    }
  }

  lemma {:induction false} ClaimsOfMessages(env: Env, messages: seq<MessageProto>, scope: string, c: Claim)
    ensures c in MessagesClaims(env, messages, scope) <==> ClaimsIn(env, messages, scope, c)
    decreases messages
  {
    hide FieldsClaims, ClaimsIn, OwnClaim, Under, Join;
    if messages == [] {
      NoClaims(env, scope, c);
    } else {
      var n := |messages| - 1;
      var m, full := messages[n], Under(scope, messages[n].name);
      UnderIsJoin(scope, m.name);
      ClaimsOfMessages(env, messages[..n], scope, c);
      ClaimsOfMessages(env, m.nested, full, c);
      OwnClaims(env, m.extensions, full, c);
      ClaimsOfLast(env, messages, scope, c);
    }
  }

  lemma NoClaims(env: Env, scope: string, c: Claim)
    ensures !ClaimsIn(env, [], scope, c)
  {
  }

  lemma ClaimsOfLast(env: Env, messages: seq<MessageProto>, scope: string, c: Claim)
    requires messages != []
    ensures var n := |messages| - 1;
      var full := Under(scope, messages[n].name);
      ClaimsIn(env, messages, scope, c) <==>
        || ClaimsIn(env, messages[..n], scope, c) || ClaimsIn(env, messages[n].nested, full, c)
        || OwnClaim(env, messages[n].extensions, full, c)
  {
    hide Under, FieldKey;
    var n := |messages| - 1;
    var m, full := messages[n], Under(scope, messages[n].name);
    if ClaimsIn(env, messages, scope, c) {
      var path, place :| Extends(messages, path, place) && c == ClaimIn(env, messages, scope, path, place);
      if path[0] < n {
        assert Extends(messages[..n], path, place) && c == ClaimIn(env, messages[..n], scope, path, place);
      } else if |path| > 1 {
        assert Extends(m.nested, path[1..], place) && c == ClaimIn(env, m.nested, full, path[1..], place);
      } else {
        assert OwnClaim(env, m.extensions, full, c) by { assert place.i < |m.extensions|; }
      }
    }
    if ClaimsIn(env, messages[..n], scope, c) {
      var path, place :| Extends(messages[..n], path, place) && c == ClaimIn(env, messages[..n], scope, path, place);
      assert Extends(messages, path, place) && c == ClaimIn(env, messages, scope, path, place);
    }
    if ClaimsIn(env, m.nested, full, c) {
      var path, place :| Extends(m.nested, path, place) && c == ClaimIn(env, m.nested, full, path, place);
      PathIsThere(m.nested, path, place);
      assert ([n] + path)[1..] == path;
      assert Extends(messages, [n] + path, place) && c == ClaimIn(env, messages, scope, [n] + path, place);
    }
    if OwnClaim(env, m.extensions, full, c) {
      var i :| 0 <= i < |m.extensions| && c ==
        (FieldKey(env, m.extensions[i], Under(full, m.extensions[i].name), None),
         Ref(env.file, Under(full, m.extensions[i].name)));
      assert Extends(messages, [n], ExtensionOf(i)) && c == ClaimIn(env, messages, scope, [n], ExtensionOf(i));
    }
  }

  /** The extension at a position, and the number it claims. */
  ghost function ClaimAt(env: Env, proto: FileProto, at: Position): Claim
    requires IsExtension(proto, at)
  {
    (KeyInFile(env, proto, at), Ref(env.file, NameAt(proto, at)))
  }

  /** The extensions of a file are those at its positions: at the top level and in messages at every depth. */
  lemma ClaimsExactly(env: Env, proto: FileProto, c: Claim)
    ensures c in FileClaims(env, proto) <==> exists at :: IsExtension(proto, at) && c == ClaimAt(env, proto, at)
  {
    hide FieldsClaims, MessagesClaims, FieldKey, Under, InMessages, KeyInMessages, NameInMessages;
    var scope := PackageOf(proto);
    ClaimsOfMessages(env, proto.messages, scope, c);
    OwnClaims(env, proto.extensions, scope, c);
    if ClaimsIn(env, proto.messages, scope, c) {
      var path, place :| Extends(proto.messages, path, place) && c == ClaimIn(env, proto.messages, scope, path, place);
      PathIsThere(proto.messages, path, place);
      assert IsExtension(proto, Position(path, place)) && c == ClaimAt(env, proto, Position(path, place));
    }
    if OwnClaim(env, proto.extensions, scope, c) {
      var i :| 0 <= i < |proto.extensions| && c ==
        (FieldKey(env, proto.extensions[i], Under(scope, proto.extensions[i].name), None),
         Ref(env.file, Under(scope, proto.extensions[i].name)));
      assert IsExtension(proto, Position([], ExtensionOf(i))) && c == ClaimAt(env, proto, Position([], ExtensionOf(i)));
    }
    if at :| IsExtension(proto, at) && c == ClaimAt(env, proto, at) {
      if at.path != [] {
        assert Extends(proto.messages, at.path, at.place);
        assert c == ClaimIn(env, proto.messages, scope, at.path, at.place);
      } else {
        assert OwnClaim(env, proto.extensions, scope, c) by { assert at.place.i < |proto.extensions|; }
      }
    }
  }
}
