/** Which client sessions can come back to the free list, and which are lost for good. */
module SessionReturns {
  import opened SessionPool

  // ----- When a session can come back -----

  /**
   * The session is not issued, or has just been; or one of its contexts can lead to the issue reference being dropped;
   * or it is connected and has a context left, whose thread can ask for a disconnect. An accept that the kernel has
   * refused spoils it all.
   */
  predicate Returnable(s: State, id: SessionId)
    requires id in s.sessions
  {
    && !(s.acceptor.Failed? && s.acceptor.session == id)
    && (|| !s.sessions[id].issued
        || s.acceptor == Issued(id)
        || Tokens(s.contexts, id) != {}
        || (s.sessions[id].connected && Mine(s.contexts, id) != {}))
  }

  predicate Lost(s: State, id: SessionId) {
    id in s.sessions && !Returnable(s, id)
  }

  /** The kernel, or the socket, turns an operation down. */
  predicate Refuses(a: Action) {
    a.AcceptRefused? || (a.NewContext? && !a.posted) || (a.NewDisconnectContext? && !a.posted)
  }

  /** The actions can be taken one after another, none is refused, and the session is free in the end. */
  ghost predicate BringsBack(s: State, actions: seq<Action>, id: SessionId) {
    && AllSafe(s, actions) && id in After(s, actions).free
    && forall i | 0 <= i < |actions| :: !Refuses(actions[i])
  }

  /** From any state the server can be in, a session can come back exactly when it is `Returnable`. */
  lemma ReturnsExactly(s: State, id: SessionId)
    requires Inv(s) && id in s.sessions
    ensures Returnable(s, id) <==> exists actions :: AllSafe(s, actions) && id in After(s, actions).free
    ensures Returnable(s, id) <==> exists actions :: BringsBack(s, actions, id)
  {
    hide AllSafe, After;
    if Returnable(s, id) {
      var actions := Returns(s, id);
      assert BringsBack(s, actions, id);
      assert AllSafe(s, actions) && id in After(s, actions).free;
    } else {
      forall actions | AllSafe(s, actions) ensures id !in After(s, actions).free {
        SafeIsScheduled(s, actions);
        LostForGood(s, actions, id);
      }
    }
  }

  lemma {:induction false} SafeIsScheduled(s: State, actions: seq<Action>)
    requires AllSafe(s, actions)
    ensures Scheduled(s, actions)
    decreases |actions|
  {
    hide Next, Enabled, Safe;
    if actions != [] { SafeIsScheduled(Next(s, actions[0]), actions[1..]); }
  }

  // ----- One action before the others -----

  lemma Step(s: State, a: Action)
    requires Inv(s) && Enabled(s, a)
    ensures Safe(s, a) && Known(s) && Inv(Next(s, a))
  {
    ActionKeepsInv(s, a);
    InvKnows(s);
  }

  /** The same, when it is clear where the action leads. */
  lemma StepTo(s: State, a: Action, s': State)
    requires Inv(s) && Enabled(s, a)
    requires Safe(s, a) && Known(s) ==> s' == Next(s, a)
    ensures Safe(s, a) && Known(s) && s' == Next(s, a) && Inv(s')
  {
    hide *;
    Step(s, a);
  }

  lemma Before(s: State, a: Action, rest: seq<Action>, id: SessionId) returns (actions: seq<Action>)
    requires Enabled(s, a) && Safe(s, a) && Known(s) && !Refuses(a) && BringsBack(Next(s, a), rest, id)
    ensures BringsBack(s, actions, id)
  {
    hide Enabled, Safe, Known, Next, Refuses;
    actions := [a] + rest;
    assert actions[0] == a && actions[1..] == rest;
    forall i | 0 <= i < |actions| ensures !Refuses(actions[i]) {
      if i > 0 { assert actions[i] == rest[i - 1]; }
    }
  }

  ghost predicate AllBelow(used: set<ContextId>, bound: nat) {
    forall c | c in used :: c < bound
  }

  lemma {:induction false} UnusedExists(used: set<ContextId>) returns (bound: nat)
    ensures AllBelow(used, bound) && bound !in used
  {
    if used == {} {
      bound := 0;
    } else {
      var c :| c in used;
      bound := UnusedExists(used - {c});
      assert forall d | d in used && d != c :: d in used - {c};
      bound := if c < bound then bound else c + 1;
    }
  }

  // ----- From the last reference dropped -----

  /** What the acceptor does next when the kernel refuses nothing. */
  function AcceptorStep(s: State, unused: ContextId): Action {
    match s.acceptor
    case Idle => Lock
    case Head => if s.issueCount - s.returnCount < MAX_CONNECTION then Pop else Unlock
    case Popped(_) => Issue
    case Issued(_) => NewAcceptContext(unused)
    case Accepting(_, _) => AcceptPosted
    case Failed(_, _) => DeleteAccept
  }

  function AcceptorRank(a: Acceptor): nat {
    match a
    case Idle => 0
    case Head => 1
    case Accepting(_, _) => 2
    case Issued(_) => 3
    case Popped(_) => 4
    case Failed(_, _) => 1
  }

  lemma AcceptorGoesOn(s: State, unused: ContextId)
    requires Inv(s) && s.acceptor != Idle && unused !in s.contexts
    ensures var a := AcceptorStep(s, unused);
      && Enabled(s, a) && !Refuses(a) && Safe(s, a) && Known(s) && Inv(Next(s, a))
      && s.returning <= Next(s, a).returning
      && (|| |Next(s, a).free| < |s.free|
          || (|Next(s, a).free| == |s.free| && AcceptorRank(Next(s, a).acceptor) < AcceptorRank(s.acceptor)))
  {
    hide Inv;
    Step(s, AcceptorStep(s, unused));
    AcceptorMovesOn(s, AcceptorStep(s, unused));
    hide *;
  }

  lemma AcceptorMovesOn(s: State, a: Action)
    requires Enabled(s, a) && Safe(s, a) && Known(s) && !ByOthers(a) && !a.Lock? && !a.AcceptRefused?
    ensures s.returning <= Next(s, a).returning
    ensures || |Next(s, a).free| < |s.free|
            || (|Next(s, a).free| == |s.free| && AcceptorRank(Next(s, a).acceptor) < AcceptorRank(s.acceptor))
  {
  }

  /** The lock is waited for: the acceptor goes on until the free list is empty, and lets it go. */
  lemma {:induction false} ReturningReturns(s: State, id: SessionId) returns (actions: seq<Action>)
    requires Inv(s) && id in s.returning
    ensures BringsBack(s, actions, id)
    decreases |s.free|, AcceptorRank(s.acceptor)
  {
    if s.acceptor == Idle {
      var a := Return(id);
      Step(s, a);
      actions := Before(s, a, [], id);
    } else {
      var unused := UnusedExists(s.contexts.Keys);
      AcceptorGoesOn(s, unused);
      hide Inv, Enabled, Safe, Next, BringsBack;
      var a := AcceptorStep(s, unused);
      var rest := ReturningReturns(Next(s, a), id);
      actions := Before(s, a, rest, id);
    }
  }

  // ----- From the issue reference dropped -----

  ghost predicate NoneRefused(s: State, id: SessionId) {
    forall c | c in s.contexts && s.contexts[c].session == id :: !s.contexts[c].stage.Refused?
  }

  /** The contexts finish one by one. */
  lemma {:induction false} UnissuedReturns(s: State, id: SessionId) returns (actions: seq<Action>)
    requires Inv(s) && id in s.sessions && !s.sessions[id].issued && s.acceptor != Popped(id)
    ensures BringsBack(s, actions, id)
    decreases |Mine(s.contexts, id)|, 3
  {
    assert SessionOk(s.sessions[id], Mine(s.contexts, id), Tokens(s.contexts, id)) && InPlace(s, id);
    if Mine(s.contexts, id) == {} {
      if id in s.free {
        actions := [];
      } else {
        actions := ReturningReturns(s, id);
      }
    } else if NoneRefused(s, id) {
      var c :| c in Mine(s.contexts, id);
      actions := ContextGoes(s, id, c);
    } else {
      var c :| c in s.contexts && s.contexts[c].session == id && s.contexts[c].stage.Refused?;
      var a := DeleteRefused(c);
      Step(s, a);
      OneFewer(s, c, id);
      var rest := UnissuedReturns(Next(s, a), id);
      actions := Before(s, a, rest, id);
    }
  }

  lemma OneFewer(s: State, c: ContextId, id: SessionId)
    requires c in s.contexts && s.contexts[c].session == id && id in s.sessions
    ensures |Mine(Deleted(s, c).contexts, id)| < |Mine(s.contexts, id)|
  {
    MineRemoved(s.contexts, c, id);
    assert Mine(s.contexts, id) == (Mine(s.contexts, id) - {c}) + {c};
  }

  function StageRank(stage: Stage): nat {
    match stage
    case Pending => 2
    case Completed => 1
    case _ => 0
  }

  lemma {:induction false} ContextGoes(s: State, id: SessionId, c: ContextId) returns (actions: seq<Action>)
    requires Inv(s) && id in s.sessions && !s.sessions[id].issued && s.acceptor != Popped(id)
    requires NoneRefused(s, id) && c in s.contexts && s.contexts[c].session == id
    ensures BringsBack(s, actions, id)
    decreases |Mine(s.contexts, id)|, StageRank(s.contexts[c].stage)
  {
    hide Inv, Safe, BringsBack, Mine, Tokens;
    UnissuedHasNoToken(s, id, c);
    var rest;
    if s.contexts[c].stage == Running {
      NoneAsked(s, id, c);
      StepTo(s, Finish(c), Deleted(s, c));
      OneFewer(s, c, id);
      DeletedParts(s, c, id);
      rest := UnissuedReturns(Deleted(s, c), id);
      actions := Before(s, Finish(c), rest, id);
    } else {
      var a := if s.contexts[c].stage == Pending then Complete(c) else TransferCompletion(c);
      ContextGoesOn(s, id, c, a);
      rest := ContextGoes(Next(s, a), id, c);
      actions := Before(s, a, rest, id);
    }
  }

  lemma ContextGoesOn(s: State, id: SessionId, c: ContextId, a: Action)
    requires Inv(s) && id in s.sessions && !s.sessions[id].issued && s.acceptor != Popped(id)
    requires NoneRefused(s, id) && c in s.contexts && s.contexts[c].session == id
    requires Enabled(s, a) && (a == Complete(c) || a == TransferCompletion(c))
    ensures Safe(s, a) && Known(s) && Inv(Next(s, a)) && !Refuses(a)
    ensures var s' := Next(s, a);
      && id in s'.sessions && !s'.sessions[id].issued && s'.acceptor != Popped(id) && NoneRefused(s', id)
      && c in s'.contexts && s'.contexts[c].session == id && |Mine(s'.contexts, id)| == |Mine(s.contexts, id)|
      && StageRank(s'.contexts[c].stage) < StageRank(s.contexts[c].stage)
  {
    hide Inv, Safe;
    Step(s, a);
    var stage := if a.Complete? then Completed else Running;
    ContextRestaged(s, id, c, stage);
    assert Next(s, a) == WithStage(s, c, stage) by { hide Inv, Safe; }
    assert StageRank(stage) < StageRank(s.contexts[c].stage) by { hide Inv, Safe, Next; }
    hide *;
  }

  lemma ContextRestaged(s: State, id: SessionId, c: ContextId, stage: Stage)
    requires NoneRefused(s, id) && c in s.contexts && s.contexts[c].session == id && !stage.Refused?
    ensures var s' := WithStage(s, c, stage);
      && s'.sessions == s.sessions && s'.acceptor == s.acceptor && NoneRefused(s', id)
      && c in s'.contexts && s'.contexts[c] == s.contexts[c].(stage := stage)
      && |Mine(s'.contexts, id)| == |Mine(s.contexts, id)|
  {
    MineRestaged(s.contexts, c, stage, id);
  }

  lemma UnissuedHasNoToken(s: State, id: SessionId, c: ContextId)
    requires Inv(s) && id in s.sessions && !s.sessions[id].issued && c in s.contexts && s.contexts[c].session == id
    ensures !HoldsToken(s.contexts[c]) && s.contexts[c].stage != Posting
  {
    assert SessionOk(s.sessions[id], Mine(s.contexts, id), Tokens(s.contexts, id));
    assert Tokens(s.contexts, id) == {};
    assert ContextOk(s, c);
    assert c !in Tokens(s.contexts, id);
  }

  lemma NoneAsked(s: State, id: SessionId, c: ContextId)
    requires Inv(s) && NoneRefused(s, id) && c in s.contexts && s.contexts[c].session == id
    ensures forall d | d in s.contexts :: s.contexts[d].stage != Refused(c)
  {
    forall d | d in s.contexts ensures s.contexts[d].stage != Refused(c) {
      assert ContextOk(s, d);
    }
  }

  // ----- From the request for a disconnect -----

  lemma {:induction false} DisconnectReturns(s: State, id: SessionId, d: ContextId) returns (actions: seq<Action>)
    requires Inv(s) && d in s.contexts && s.contexts[d].session == id && s.contexts[d].ioType == DISCONNECT
    requires s.contexts[d].stage == Pending || s.contexts[d].stage == Completed
    ensures BringsBack(s, actions, id)
    decreases StageRank(s.contexts[d].stage)
  {
    hide Inv, Known, Safe, BringsBack;
    HasToken(s, d);
    var rest;
    if s.contexts[d].stage == Pending {
      StepTo(s, Complete(d), WithStage(s, d, Completed));
      rest := DisconnectReturns(WithStage(s, d, Completed), id, d);
      actions := Before(s, Complete(d), rest, id);
    } else {
      NotPopped(s, id);
      StepTo(s, DisconnectCompletion(d), Disconnected(s, d));
      rest := UnissuedReturns(Disconnected(s, d), id);
      actions := Before(s, DisconnectCompletion(d), rest, id);
    }
  }

  lemma NotPopped(s: State, id: SessionId)
    requires Inv(s) && id in s.sessions && s.sessions[id].refCount != 0
    ensures s.acceptor != Popped(id)
  {
    assert InPlace(s, id);
  }

  lemma RequestReturns(s: State, id: SessionId, c: ContextId) returns (actions: seq<Action>)
    requires Inv(s) && At(s, c, Requesting) && s.contexts[c].session == id
    ensures BringsBack(s, actions, id)
  {
    var d := UnusedExists(s.contexts.Keys);
    var a := NewDisconnectContext(c, d, true);
    Step(s, a);
    var rest := DisconnectReturns(Next(s, a), id, d);
    actions := Before(s, a, rest, id);
  }

  // ----- From the connection -----

  /** A context of a connected session goes on until its thread can ask for a disconnect. */
  lemma {:induction false} ConnectedReturns(s: State, id: SessionId, c: ContextId) returns (actions: seq<Action>)
    requires Inv(s) && id in s.sessions && s.sessions[id].connected && c in s.contexts && s.contexts[c].session == id
    requires !s.contexts[c].stage.Refused?
    ensures BringsBack(s, actions, id)
    decreases StageRank(s.contexts[c].stage)
  {
    hide Inv, Known, Safe, BringsBack;
    ConnectedHasNoToken(s, id, c);
    var rest;
    if s.contexts[c].stage == Running {
      StepTo(s, Exchange(c), Exchanged(s, c));
      rest := RequestReturns(Exchanged(s, c), id, c);
      actions := Before(s, Exchange(c), rest, id);
    } else {
      var a := if s.contexts[c].stage == Pending then Complete(c) else TransferCompletion(c);
      var s' := WithStage(s, c, if a.Complete? then Completed else Running);
      StepTo(s, a, s');
      rest := ConnectedReturns(s', id, c);
      actions := Before(s, a, rest, id);
    }
  }

  lemma ConnectedMeansNoToken(s: State, id: SessionId)
    requires Inv(s) && id in s.sessions && s.sessions[id].connected
    ensures s.sessions[id].issued && Tokens(s.contexts, id) == {}
  {
    assert SessionOk(s.sessions[id], Mine(s.contexts, id), Tokens(s.contexts, id));
  }

  lemma ConnectedHasNoToken(s: State, id: SessionId, c: ContextId)
    requires Inv(s) && id in s.sessions && s.sessions[id].connected && c in s.contexts && s.contexts[c].session == id
    ensures !HoldsToken(s.contexts[c]) && s.contexts[c].stage != Posting
  {
    ConnectedMeansNoToken(s, id);
    assert ContextOk(s, c);
    assert c !in Tokens(s.contexts, id);
  }

  // ----- From the accept -----

  lemma {:induction false} AcceptReturns(s: State, id: SessionId, c: ContextId) returns (actions: seq<Action>)
    requires Inv(s) && c in s.contexts && s.contexts[c].session == id && s.contexts[c].ioType == ACCEPT
    requires s.contexts[c].stage == Pending || s.contexts[c].stage == Completed
    ensures BringsBack(s, actions, id)
    decreases StageRank(s.contexts[c].stage)
  {
    hide Inv, Known, Safe, BringsBack;
    HasToken(s, c);
    var rest;
    if s.contexts[c].stage == Pending {
      StepTo(s, Complete(c), WithStage(s, c, Completed));
      rest := AcceptReturns(WithStage(s, c, Completed), id, c);
      actions := Before(s, Complete(c), rest, id);
    } else {
      StepTo(s, AcceptCompletion(c), Connected(s, c));
      rest := ConnectedReturns(Connected(s, c), id, c);
      actions := Before(s, AcceptCompletion(c), rest, id);
    }
  }

  lemma AcceptingReturns(s: State, id: SessionId) returns (actions: seq<Action>)
    requires Inv(s) && s.acceptor.Accepting? && s.acceptor.session == id
    ensures BringsBack(s, actions, id)
  {
    assert s.acceptor.context in Mine(s.contexts, id);
    assert ContextOk(s, s.acceptor.context);
    Step(s, AcceptPosted);
    var rest := AcceptReturns(Next(s, AcceptPosted), id, s.acceptor.context);
    hide Inv, BringsBack;
    actions := Before(s, AcceptPosted, rest, id);
  }

  lemma IssuedReturns(s: State, id: SessionId) returns (actions: seq<Action>)
    requires Inv(s) && s.acceptor == Issued(id)
    ensures BringsBack(s, actions, id)
  {
    hide Inv, BringsBack;
    var c := UnusedExists(s.contexts.Keys);
    Step(s, NewAcceptContext(c));
    var rest := AcceptingReturns(Next(s, NewAcceptContext(c)), id);
    actions := Before(s, NewAcceptContext(c), rest, id);
  }

  lemma PoppedReturns(s: State, id: SessionId) returns (actions: seq<Action>)
    requires Inv(s) && s.acceptor == Popped(id)
    ensures BringsBack(s, actions, id)
  {
    hide Inv, BringsBack;
    Step(s, Issue);
    var rest := IssuedReturns(Next(s, Issue), id);
    actions := Before(s, Issue, rest, id);
  }

  // ----- From any state -----

  lemma Returns(s: State, id: SessionId) returns (actions: seq<Action>)
    requires Inv(s) && id in s.sessions && Returnable(s, id)
    ensures BringsBack(s, actions, id)
  {
    if s.acceptor == Popped(id) {
      actions := PoppedReturns(s, id);
    } else if s.acceptor == Issued(id) {
      actions := IssuedReturns(s, id);
    } else if s.acceptor.Accepting? && s.acceptor.session == id {
      actions := AcceptingReturns(s, id);
    } else if !s.sessions[id].issued {
      actions := UnissuedReturns(s, id);
    } else if Tokens(s.contexts, id) != {} {
      var c :| c in Tokens(s.contexts, id);
      actions := TokenReturns(s, id, c);
    } else {
      var c :| c in Mine(s.contexts, id);
      assert ContextOk(s, c);
      if s.contexts[c].stage.Refused? {
        actions := ConnectedReturns(s, id, s.contexts[c].stage.asker);
      } else {
        actions := ConnectedReturns(s, id, c);
      }
    }
  }

  lemma TokenReturns(s: State, id: SessionId, c: ContextId) returns (actions: seq<Action>)
    requires Inv(s) && id in s.sessions && c in Tokens(s.contexts, id) && !InHands(s.acceptor, id)
    ensures BringsBack(s, actions, id)
  {
    assert ContextOk(s, c);
    if s.contexts[c].stage == Requesting {
      actions := RequestReturns(s, id, c);
    } else if s.contexts[c].ioType == ACCEPT {
      actions := AcceptReturns(s, id, c);
    } else {
      actions := DisconnectReturns(s, id, c);
    }
  }

  // ----- What is never returned -----

  /** Once lost, a session stays lost, whatever any thread does: it is never free again. */
  lemma LostStaysLost(s: State, a: Action, id: SessionId)
    requires Inv(s) && Enabled(s, a) && Lost(s, id)
    ensures Safe(s, a) && Known(s) && Lost(Next(s, a), id) && id !in s.free && id !in Next(s, a).free
  {
    Step(s, a);
    LostIsNotFree(s, id);
    LosingActions(s, a, id);
    LostIsNotFree(Next(s, a), id);
  }

  lemma {:induction false} LostForGood(s: State, actions: seq<Action>, id: SessionId)
    requires Inv(s) && Scheduled(s, actions) && Lost(s, id)
    ensures AllSafe(s, actions) && Lost(After(s, actions), id) && id !in After(s, actions).free
    decreases |actions|
  {
    hide Next, Enabled, Safe, Inv, Lost;
    LostIsNotFree(s, id);
    if actions != [] {
      Step(s, actions[0]);
      LostStaysLost(s, actions[0], id);
      LostForGood(Next(s, actions[0]), actions[1..], id);
    }
  }

  lemma LostIsNotFree(s: State, id: SessionId)
    requires Inv(s) && Lost(s, id)
    ensures id !in s.free && id !in s.returning && s.sessions[id].issued
  {
    assert SessionOk(s.sessions[id], Mine(s.contexts, id), Tokens(s.contexts, id)) && InPlace(s, id);
    if s.acceptor.Failed? && s.acceptor.session == id { HasToken(s, s.acceptor.context); }
  }

  /** The steps that lose a session: each is one refusal of the kernel or of the socket, or follows one. */
  predicate Loses(s: State, a: Action, id: SessionId) {
    match a
    case AcceptRefused => s.acceptor.Accepting? && s.acceptor.session == id
    case NewDisconnectContext(c, _, posted) => c in s.contexts && s.contexts[c].session == id && !posted
    case Finish(c) =>
      c in s.contexts && s.contexts[c].session == id && id in s.sessions && s.sessions[id].connected
      && Mine(s.contexts, id) == {c}
    case _ => false
  }

  /** A step loses a session exactly when it is one of those; nothing lost is found again. */
  lemma LosingActions(s: State, a: Action, id: SessionId)
    requires Inv(s) && Enabled(s, a) && id in s.sessions
    ensures Safe(s, a) && Known(s)
    ensures Lost(Next(s, a), id) <==> Lost(s, id) || Loses(s, a, id)
  {
    hide Inv, Enabled, Safe, Next, Known, Lost, Mine, Tokens;
    Step(s, a);
    match a
    case NewAcceptContext(c) => NewAcceptContextLoses(s, c, id);
    case AcceptPosted => AcceptPostedLoses(s, id);
    case DeleteAccept => DeleteAcceptLoses(s, id);
    case Complete(c) => CompleteLoses(s, c, id);
    case AcceptCompletion(c) => AcceptCompletionLoses(s, c, id);
    case DisconnectCompletion(c) => DisconnectCompletionLoses(s, c, id);
    case TransferCompletion(c) => TransferCompletionLoses(s, c, id);
    case NewContext(c, d, posted) => NewContextLoses(s, c, d, posted, id);
    case Exchange(c) => ExchangeLoses(s, c, id);
    case NewDisconnectContext(c, d, posted) => NewDisconnectContextLoses(s, c, d, posted, id);
    case DeleteRefused(d) => DeleteRefusedLoses(s, d, id);
    case Finish(c) => FinishLoses(s, c, id);
    case _ => AcceptorLoses(s, a, id);
  }

  /** Actions that touch no context. */
  lemma AcceptorLoses(s: State, a: Action, id: SessionId)
    requires Inv(s) && Enabled(s, a) && Safe(s, a) && Known(s) && id in s.sessions
    requires a.Lock? || a.Pop? || a.Issue? || a.AcceptRefused? || a.Unlock? || a.Return?
    ensures Lost(Next(s, a), id) <==> Lost(s, id) || Loses(s, a, id)
  {
    assert SessionOk(s.sessions[id], Mine(s.contexts, id), Tokens(s.contexts, id)) && InPlace(s, id);
    if s.acceptor.Accepting? && s.acceptor.session == id { HasToken(s, s.acceptor.context); }
  }

  lemma NewAcceptContextLoses(s: State, c: ContextId, id: SessionId)
    requires Inv(s) && Enabled(s, NewAcceptContext(c)) && Safe(s, NewAcceptContext(c)) && Known(s) && id in s.sessions
    ensures Lost(Next(s, NewAcceptContext(c)), id) <==> Lost(s, id)
  {
    hide Inv;
    MineAdded(s.contexts, c, Context(s.acceptor.session, ACCEPT, Posting), id);
    if s.acceptor.session == id { assert c in Tokens(Next(s, NewAcceptContext(c)).contexts, id); }
  }

  lemma AcceptPostedLoses(s: State, id: SessionId)
    requires Inv(s) && Enabled(s, AcceptPosted) && Safe(s, AcceptPosted) && Known(s) && id in s.sessions
    ensures Lost(Next(s, AcceptPosted), id) <==> Lost(s, id)
  {
    var c := s.acceptor.context;
    assert At(s, c, Posting) && c in Mine(s.contexts, s.acceptor.session);
    HasToken(s, c);
    hide Inv;
    MineRestaged(s.contexts, c, Pending, id);
  }

  lemma DeleteAcceptLoses(s: State, id: SessionId)
    requires Inv(s) && Enabled(s, DeleteAccept) && Safe(s, DeleteAccept) && Known(s) && id in s.sessions
    ensures Lost(Next(s, DeleteAccept), id) <==> Lost(s, id)
  {
    var c := s.acceptor.context;
    HasToken(s, c);
    assert c in Mine(s.contexts, s.acceptor.session);
    MineRemoved(s.contexts, c, id);
  }

  lemma CompleteLoses(s: State, c: ContextId, id: SessionId)
    requires Enabled(s, Complete(c)) && Safe(s, Complete(c)) && Known(s) && id in s.sessions
    ensures Lost(Next(s, Complete(c)), id) <==> Lost(s, id)
  {
    RestagedLoses(s, c, Completed, id);
  }

  lemma TransferCompletionLoses(s: State, c: ContextId, id: SessionId)
    requires Enabled(s, TransferCompletion(c)) && Safe(s, TransferCompletion(c)) && Known(s) && id in s.sessions
    ensures Lost(Next(s, TransferCompletion(c)), id) <==> Lost(s, id)
  {
    RestagedLoses(s, c, Running, id);
  }

  lemma RestagedLoses(s: State, c: ContextId, stage: Stage, id: SessionId)
    requires c in s.contexts && id in s.sessions
    requires HoldsToken(s.contexts[c]) == HoldsToken(s.contexts[c].(stage := stage))
    ensures Lost(WithStage(s, c, stage), id) <==> Lost(s, id)
  {
    MineRestaged(s.contexts, c, stage, id);
    if c in Tokens(s.contexts, id) {
      assert Tokens(s.contexts, id) + {c} == Tokens(s.contexts, id);
    } else {
      assert Tokens(s.contexts, id) - {c} == Tokens(s.contexts, id);
    }
  }

  lemma AcceptCompletionLoses(s: State, c: ContextId, id: SessionId)
    requires Inv(s) && Enabled(s, AcceptCompletion(c)) && Safe(s, AcceptCompletion(c)) && Known(s) && id in s.sessions
    ensures Lost(Next(s, AcceptCompletion(c)), id) <==> Lost(s, id)
  {
    hide Inv;
    NotInHands(s, c);
    MineRestaged(s.contexts, c, Running, id);
    if s.contexts[c].session == id {
      assert c in Tokens(s.contexts, id) && c in Mine(Connected(s, c).contexts, id);
    } else {
      assert Tokens(s.contexts, id) - {c} == Tokens(s.contexts, id);
    }
  }

  lemma DisconnectCompletionLoses(s: State, c: ContextId, id: SessionId)
    requires Inv(s) && Enabled(s, DisconnectCompletion(c)) && Safe(s, DisconnectCompletion(c)) && Known(s)
      && id in s.sessions
    ensures Lost(Next(s, DisconnectCompletion(c)), id) <==> Lost(s, id)
  {
    hide Inv;
    NotInHands(s, c);
    MineRestaged(s.contexts, c, Running, id);
    if s.contexts[c].session == id {
      assert c in Tokens(s.contexts, id);
    } else {
      assert Tokens(s.contexts, id) - {c} == Tokens(s.contexts, id);
    }
  }

  lemma NewContextLoses(s: State, c: ContextId, d: ContextId, posted: bool, id: SessionId)
    requires Enabled(s, NewContext(c, d, posted)) && Safe(s, NewContext(c, d, posted)) && Known(s)
    requires id in s.sessions
    ensures Lost(Next(s, NewContext(c, d, posted)), id) <==> Lost(s, id)
  {
    MineAdded(s.contexts, d, Context(s.contexts[c].session, TRANSFER, if posted then Pending else Refused(c)), id);
    assert s.contexts[c].session == id ==> c in Mine(s.contexts, id);
  }

  lemma ExchangeLoses(s: State, c: ContextId, id: SessionId)
    requires Inv(s) && Enabled(s, Exchange(c)) && Safe(s, Exchange(c)) && Known(s) && id in s.sessions
    ensures Lost(Next(s, Exchange(c)), id) <==> Lost(s, id)
  {
    hide Inv;
    NotInHands(s, c);
    MineRestaged(s.contexts, c, Requesting, id);
    if s.contexts[c].session == id {
      assert c in Mine(s.contexts, id);
    } else {
      assert Tokens(s.contexts, id) - {c} == Tokens(s.contexts, id);
    }
  }

  lemma NewDisconnectContextLoses(s: State, c: ContextId, d: ContextId, posted: bool, id: SessionId)
    requires Inv(s) && Enabled(s, NewDisconnectContext(c, d, posted)) && Safe(s, NewDisconnectContext(c, d, posted))
    requires Known(s) && id in s.sessions
    ensures Lost(Next(s, NewDisconnectContext(c, d, posted)), id)
       <==> Lost(s, id) || Loses(s, NewDisconnectContext(c, d, posted), id)
  {
    hide Inv;
    RequestHoldsToken(s, c);
    NotInHands(s, c);
    MineRestaged(s.contexts, c, Running, id);
    var x := Context(s.contexts[c].session, DISCONNECT, if posted then Pending else Refused(c));
    MineAdded(WithStage(s, c, Running).contexts, d, x, id);
    if s.contexts[c].session == id {
      assert posted ==> d in Tokens(Next(s, NewDisconnectContext(c, d, posted)).contexts, id);
    } else {
      assert Tokens(s.contexts, id) - {c} == Tokens(s.contexts, id);
    }
  }

  lemma DeletedParts(s: State, c: ContextId, id: SessionId)
    requires c in s.contexts && s.contexts[c].session in s.sessions && id in s.sessions
    ensures var s' := Deleted(s, c);
      && id in s'.sessions && s'.sessions[id].issued == s.sessions[id].issued
      && s'.sessions[id].connected == s.sessions[id].connected && s'.acceptor == s.acceptor
      && Mine(s'.contexts, id) == Mine(s.contexts, id) - {c} && Tokens(s'.contexts, id) == Tokens(s.contexts, id) - {c}
  {
    MineRemoved(s.contexts, c, id);
  }

  lemma AskerIsThere(s: State, d: ContextId)
    requires Inv(s) && d in s.contexts && s.contexts[d].stage.Refused?
    ensures s.contexts[d].stage.asker in Mine(s.contexts, s.contexts[d].session) - {d}
  {
    assert ContextOk(s, d);
  }

  lemma DeleteRefusedLoses(s: State, d: ContextId, id: SessionId)
    requires Inv(s) && Enabled(s, DeleteRefused(d)) && Safe(s, DeleteRefused(d)) && Known(s) && id in s.sessions
    ensures Lost(Next(s, DeleteRefused(d)), id) <==> Lost(s, id)
  {
    hide Inv;
    AskerIsThere(s, d);
    assert Next(s, DeleteRefused(d)) == Deleted(s, d);
    assert d !in Tokens(s.contexts, id) && (s.contexts[d].session != id ==> d !in Mine(s.contexts, id));
    DeletedParts(s, d, id);
    hide Next, Deleted, Mine, Tokens, Safe;
    assert Tokens(s.contexts, id) - {d} == Tokens(s.contexts, id);
    if s.contexts[d].session != id { assert Mine(s.contexts, id) - {d} == Mine(s.contexts, id); }
  }

  lemma FinishLoses(s: State, c: ContextId, id: SessionId)
    requires Inv(s) && Enabled(s, Finish(c)) && Safe(s, Finish(c)) && Known(s) && id in s.sessions
    ensures Lost(Next(s, Finish(c)), id) <==> Lost(s, id) || Loses(s, Finish(c), id)
  {
    hide Inv;
    NotInHands(s, c);
    if s.sessions[id].connected { ConnectedMeansNoToken(s, id); }
    assert Next(s, Finish(c)) == Deleted(s, c);
    assert c !in Tokens(s.contexts, id) && (s.contexts[c].session == id <==> c in Mine(s.contexts, id));
    DeletedParts(s, c, id);
    hide Next, Deleted, Mine, Tokens, Safe;
    assert Tokens(s.contexts, id) - {c} == Tokens(s.contexts, id);
    if s.contexts[c].session == id {
      assert Mine(s.contexts, id) - {c} == {} <==> Mine(s.contexts, id) == {c};
    } else {
      assert Mine(s.contexts, id) - {c} == Mine(s.contexts, id);
    }
  }

  /** A failed accept: deleting its context leaves the session issued, with nobody to return it. */
  lemma FailedAcceptLoses(s: State)
    requires Inv(s) && s.acceptor.Failed?
    ensures var id, s' := s.acceptor.session, Next(s, DeleteAccept);
      && Enabled(s, DeleteAccept) && Safe(s, DeleteAccept) && Known(s)
      && id in s'.sessions && s'.sessions[id] == Session(1, false, true) && Mine(s'.contexts, id) == {} && Lost(s', id)
  {
    var id, c := s.acceptor.session, s.acceptor.context;
    assert Mine(s.contexts, id) == {c} && At(s, c, Posting);
    Step(s, DeleteAccept);
    HasToken(s, c);
    assert SessionOk(s.sessions[id], Mine(s.contexts, id), Tokens(s.contexts, id));
    hide Inv;
    MineRemoved(s.contexts, c, id);
  }

  // ----- A run of the server for each way of losing a session -----

  /** The first session to be issued: the free list is used from its end. */
  const LAST: SessionId := MAX_CONNECTION - 1

  const ISSUED := [Lock, Pop, Issue]
  const ACCEPTING := ISSUED + [NewAcceptContext(0)]
  const ACCEPTED := ACCEPTING + [AcceptPosted] + [Complete(0)] + [AcceptCompletion(0)]
  const ACCEPT_REFUSED := ACCEPTING + [AcceptRefused] + [DeleteAccept]
  const DISCONNECT_REFUSED :=
    ACCEPTED + [Exchange(0)] + [NewDisconnectContext(0, 1, false)] + [DeleteRefused(1)] + [Finish(0)]
  const RECEIVE_REFUSED := ACCEPTED + [NewContext(0, 1, false)] + [DeleteRefused(1)] + [Finish(0)]

  /** The first session, the contexts and the acceptor. */
  ghost predicate View(s: State, x: Session, contexts: map<ContextId, Context>, acceptor: Acceptor) {
    LAST in s.sessions && s.sessions[LAST] == x && s.contexts == contexts && s.acceptor == acceptor
  }

  /** What a run makes of them. */
  ghost predicate Reaches(s: State, run: seq<Action>, x: Session, contexts: map<ContextId, Context>,
                          acceptor: Acceptor)
  {
    AllSafe(s, run) && Inv(After(s, run)) && View(After(s, run), x, contexts, acceptor)
  }

  lemma {:induction false} RunOn(s: State, run: seq<Action>, a: Action)
    requires AllSafe(s, run) && Inv(After(s, run)) && Enabled(After(s, run), a)
    ensures Safe(After(s, run), a) && Known(After(s, run))
    ensures AllSafe(s, run + [a]) && After(s, run + [a]) == Next(After(s, run), a) && Inv(After(s, run + [a]))
    decreases |run|
  {
    hide Enabled, Safe, Next, Inv;
    if run == [] {
      Step(s, a);
      assert ([] + [a])[0] == a && ([] + [a])[1..] == [];
    } else {
      RunOn(Next(s, run[0]), run[1..], a);
      assert (run + [a])[0] == run[0] && (run + [a])[1..] == run[1..] + [a];
    }
  }

  function Ours(stage: Stage): map<ContextId, Context> {
    map[0 := Context(LAST, ACCEPT, stage)]
  }

  lemma IssuedFirst(s: State)
    requires Init(s)
    ensures Reaches(s, ISSUED, Session(1, false, true), map[], Issued(LAST))
  {
    InitInv(s);
    RunOn(s, [], Lock);
    assert [] + [Lock] == [Lock];
    RunOn(s, [Lock], Pop);
    assert [Lock] + [Pop] == [Lock, Pop];
    RunOn(s, [Lock, Pop], Issue);
    assert [Lock, Pop] + [Issue] == ISSUED;
  }

  /** One more action, which makes of the first session what it does in any state that looks the same. */
  lemma ReachesOn(s: State, run: seq<Action>, a: Action, x: Session, contexts: map<ContextId, Context>,
                  acceptor: Acceptor)
    requires AllSafe(s, run) && Inv(After(s, run)) && Enabled(After(s, run), a)
    requires Safe(After(s, run), a) && Known(After(s, run)) && View(Next(After(s, run), a), x, contexts, acceptor)
    ensures Reaches(s, run + [a], x, contexts, acceptor)
  {
    hide *;
    RunOn(s, run, a);
    ReachesOf(s, run + [a], x, contexts, acceptor);
  }

  lemma ReachesOf(s: State, run: seq<Action>, x: Session, contexts: map<ContextId, Context>, acceptor: Acceptor)
    requires AllSafe(s, run) && Inv(After(s, run)) && View(After(s, run), x, contexts, acceptor)
    ensures Reaches(s, run, x, contexts, acceptor)
  {
  }

  lemma AcceptingFirst(s: State)
    requires Init(s)
    ensures Reaches(s, ACCEPTING, Session(2, false, true), Ours(Posting), Accepting(LAST, 0))
  {
    hide AllSafe, After, Inv;
    IssuedFirst(s);
    ReachesOn(s, ISSUED, NewAcceptContext(0), Session(2, false, true), Ours(Posting), Accepting(LAST, 0));
  }

  lemma PostsFirst(s: State, run: seq<Action>)
    requires Reaches(s, run, Session(2, false, true), Ours(Posting), Accepting(LAST, 0))
    ensures Reaches(s, run + [AcceptPosted], Session(2, false, true), Ours(Pending), Head)
  {
    hide AllSafe, After, Inv;
    ReachesOn(s, run, AcceptPosted, Session(2, false, true), Ours(Pending), Head);
  }

  lemma CompletesFirst(s: State, run: seq<Action>)
    requires Reaches(s, run, Session(2, false, true), Ours(Pending), Head)
    ensures Reaches(s, run + [Complete(0)], Session(2, false, true), Ours(Completed), Head)
  {
    hide AllSafe, After, Inv;
    ReachesOn(s, run, Complete(0), Session(2, false, true), Ours(Completed), Head);
  }

  lemma AcceptsFirst(s: State, run: seq<Action>)
    requires Reaches(s, run, Session(2, false, true), Ours(Completed), Head)
    ensures Reaches(s, run + [AcceptCompletion(0)], Session(2, true, true), Ours(Running), Head)
  {
    hide AllSafe, After, Inv;
    ReachesOn(s, run, AcceptCompletion(0), Session(2, true, true), Ours(Running), Head);
  }

  lemma AcceptedFirst(s: State)
    requires Init(s)
    ensures Reaches(s, ACCEPTED, Session(2, true, true), Ours(Running), Head)
  {
    hide AllSafe, After, Init, Reaches, Lost;
    AcceptingFirst(s);
    PostsFirst(s, ACCEPTING);
    CompletesFirst(s, ACCEPTING + [AcceptPosted]);
    AcceptsFirst(s, ACCEPTING + [AcceptPosted] + [Complete(0)]);
  }

  /** The kernel refuses the accept. */
  lemma AcceptRefusedExample(s: State)
    requires Init(s)
    ensures AllSafe(s, ACCEPT_REFUSED) && Lost(After(s, ACCEPT_REFUSED), LAST)
  {
    hide AllSafe, After, Init, Reaches, Lost;
    AcceptingFirst(s);
    RefusedFirst(s, ACCEPTING);
    DroppedFirst(s, ACCEPTING + [AcceptRefused]);
  }

  lemma RefusedFirst(s: State, run: seq<Action>)
    requires Reaches(s, run, Session(2, false, true), Ours(Posting), Accepting(LAST, 0))
    ensures Reaches(s, run + [AcceptRefused], Session(2, false, true), Ours(Posting), Failed(LAST, 0))
  {
    hide AllSafe, After, Inv;
    ReachesOn(s, run, AcceptRefused, Session(2, false, true), Ours(Posting), Failed(LAST, 0));
  }

  lemma DroppedFirst(s: State, run: seq<Action>)
    requires Reaches(s, run, Session(2, false, true), Ours(Posting), Failed(LAST, 0))
    ensures AllSafe(s, run + [DeleteAccept]) && Lost(After(s, run + [DeleteAccept]), LAST)
  {
    hide AllSafe, After, Inv;
    ReachesOn(s, run, DeleteAccept, Session(1, false, true), map[], Idle);
  }

  /** With its contexts gone, an issued session is lost. */
  lemma Abandoned(s: State, run: seq<Action>, x: Session)
    requires Reaches(s, run, x, Ours(Running), Head) && x.issued && x.refCount > 1
    ensures Reaches(s, run + [Finish(0)], x.(refCount := x.refCount - 1), map[], Head)
    ensures Lost(After(s, run + [Finish(0)]), LAST)
  {
    hide AllSafe, After, Inv;
    ReachesOn(s, run, Finish(0), x.(refCount := x.refCount - 1), map[], Head);
  }

  function WithRefused(ioType: IoType): map<ContextId, Context> {
    Ours(Running)[1 := Context(LAST, ioType, Refused(0))]
  }

  lemma RefusedIsDeleted(s: State, run: seq<Action>, x: Session, ioType: IoType)
    requires x.refCount == 3 && Reaches(s, run, x, WithRefused(ioType), Head)
    ensures Reaches(s, run + [DeleteRefused(1)], x.(refCount := 2), Ours(Running), Head)
  {
    hide AllSafe, After, Inv;
    assert WithRefused(ioType) - {1} == Ours(Running);
    ReachesOn(s, run, DeleteRefused(1), x.(refCount := 2), Ours(Running), Head);
  }

  lemma AsksFirst(s: State, run: seq<Action>)
    requires Reaches(s, run, Session(2, true, true), Ours(Running), Head)
    ensures Reaches(s, run + [Exchange(0)], Session(2, false, true), Ours(Requesting), Head)
  {
    hide AllSafe, After, Inv;
    ReachesOn(s, run, Exchange(0), Session(2, false, true), Ours(Requesting), Head);
  }

  lemma RefusesFirst(s: State, run: seq<Action>)
    requires Reaches(s, run, Session(2, false, true), Ours(Requesting), Head)
    ensures Reaches(s, run + [NewDisconnectContext(0, 1, false)], Session(3, false, true), WithRefused(DISCONNECT),
                    Head)
  {
    hide AllSafe, After, Inv;
    ReachesOn(s, run, NewDisconnectContext(0, 1, false), Session(3, false, true), WithRefused(DISCONNECT), Head);
  }

  /** The socket turns the disconnect down. */
  lemma DisconnectRefusedExample(s: State)
    requires Init(s)
    ensures AllSafe(s, DISCONNECT_REFUSED) && Lost(After(s, DISCONNECT_REFUSED), LAST)
  {
    hide AllSafe, After, Init, Reaches, Lost;
    AcceptedFirst(s);
    AsksFirst(s, ACCEPTED);
    RefusesFirst(s, ACCEPTED + [Exchange(0)]);
    GivesUp(s, ACCEPTED + [Exchange(0)] + [NewDisconnectContext(0, 1, false)], Session(3, false, true), DISCONNECT);
  }

  lemma ReceivesFirst(s: State, run: seq<Action>)
    requires Reaches(s, run, Session(2, true, true), Ours(Running), Head)
    ensures Reaches(s, run + [NewContext(0, 1, false)], Session(3, true, true), WithRefused(TRANSFER), Head)
  {
    hide AllSafe, After, Inv;
    ReachesOn(s, run, NewContext(0, 1, false), Session(3, true, true), WithRefused(TRANSFER), Head);
  }

  /** The first receive is turned down: the accept's thread finishes, and nobody asks for a disconnect. */
  lemma ReceiveRefusedExample(s: State)
    requires Init(s)
    ensures AllSafe(s, RECEIVE_REFUSED) && Lost(After(s, RECEIVE_REFUSED), LAST)
  {
    hide AllSafe, After, Init, Reaches, Lost;
    AcceptedFirst(s);
    ReceivesFirst(s, ACCEPTED);
    GivesUp(s, ACCEPTED + [NewContext(0, 1, false)], Session(3, true, true), TRANSFER);
  }

  lemma GivesUp(s: State, run: seq<Action>, x: Session, ioType: IoType)
    requires x.refCount == 3 && x.issued && Reaches(s, run, x, WithRefused(ioType), Head)
    ensures AllSafe(s, run + [DeleteRefused(1)] + [Finish(0)])
    ensures Lost(After(s, run + [DeleteRefused(1)] + [Finish(0)]), LAST)
  {
    hide AllSafe, After, Inv, Lost, View;
    RefusedIsDeleted(s, run, x, ioType);
    Abandoned(s, run + [DeleteRefused(1)], x.(refCount := 2));
  }
}
