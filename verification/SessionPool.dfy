/**
 * The server's pool of client sessions: a free list and two counters under a lock, and reference counts that
 * threads change at will. One action is one step that other threads can come between.
 */
module SessionPool {

  const MAX_CONNECTION := 10000

  type SessionId = nat
  type ContextId = nat

  // ----- States -----

  /** `issued` says that the reference taken when the session was issued is still held. */
  datatype Session = Session(refCount: int, connected: bool, issued: bool)

  datatype IoType = ACCEPT | DISCONNECT | TRANSFER

  /**
   * Where the I/O of a context is: being posted; with the kernel; completed, with the first step of its completion due;
   * past that step, its thread free to act; its thread having won the exchange of a disconnect request; or refused
   * by the kernel, to be deleted by the thread of the context that asked for it.
   */
  datatype Stage = Posting | Pending | Completed | Running | Requesting | Refused(asker: ContextId)

  datatype Context = Context(session: SessionId, ioType: IoType, stage: Stage)

  /** The main thread in `AcceptClientSessions`; it holds the lock unless it is idle. */
  datatype Acceptor =
    | Idle
    | Head
    | Popped(session: SessionId)
    | Issued(session: SessionId)
    | Accepting(session: SessionId, context: ContextId)
    | Failed(session: SessionId, context: ContextId)

  /** `returning` are the sessions that a thread is about to return, having dropped the last reference. */
  datatype State = State(sessions: map<SessionId, Session>, contexts: map<ContextId, Context>,
                         free: seq<SessionId>, issueCount: nat, returnCount: nat,
                         returning: set<SessionId>, acceptor: Acceptor)

  predicate IsSession(i: SessionId) {
    i < MAX_CONNECTION
  }

  function AllSessions(): set<SessionId> {
    set i: nat | i < MAX_CONNECTION && IsSession(i)
  }

  /** After `PrepareClientSessions`. */
  ghost predicate Init(s: State) {
    && s.sessions == (map i | i in AllSessions() :: Session(0, false, false))
    && s.contexts == map[] && s.issueCount == 0 && s.returnCount == 0 && s.returning == {} && s.acceptor == Idle
    && |s.free| == MAX_CONNECTION && forall i | 0 <= i < MAX_CONNECTION :: s.free[i] == i
  }

  // ----- Actions -----

  datatype Action =
    | Lock
    | Pop
    | Issue
    | NewAcceptContext(c: ContextId)
    | AcceptPosted
    | AcceptRefused
    | DeleteAccept
    | Unlock
    | Complete(c: ContextId)
    | AcceptCompletion(c: ContextId)
    | DisconnectCompletion(c: ContextId)
    | TransferCompletion(c: ContextId)
    | NewContext(c: ContextId, d: ContextId, posted: bool)
    | Exchange(c: ContextId)
    | NewDisconnectContext(c: ContextId, d: ContextId, posted: bool)
    | DeleteRefused(d: ContextId)
    | Finish(c: ContextId)
    | Return(id: SessionId)

  predicate At(s: State, c: ContextId, stage: Stage) {
    c in s.contexts && s.contexts[c].stage == stage
  }

  /** A thread makes contexts only of a session it holds a reference to: its own context's. */
  predicate Enabled(s: State, a: Action) {
    match a
    case Lock => s.acceptor == Idle
    case Pop => s.acceptor == Head && s.issueCount - s.returnCount < MAX_CONNECTION
    case Issue => s.acceptor.Popped?
    case NewAcceptContext(c) => s.acceptor.Issued? && c !in s.contexts
    case AcceptPosted => s.acceptor.Accepting?
    case AcceptRefused => s.acceptor.Accepting?
    case DeleteAccept => s.acceptor.Failed?
    case Unlock => s.acceptor == Head && s.issueCount - s.returnCount >= MAX_CONNECTION
    case Complete(c) => At(s, c, Pending)
    case AcceptCompletion(c) => At(s, c, Completed) && s.contexts[c].ioType == ACCEPT
    case DisconnectCompletion(c) => At(s, c, Completed) && s.contexts[c].ioType == DISCONNECT
    case TransferCompletion(c) => At(s, c, Completed) && s.contexts[c].ioType == TRANSFER
    case NewContext(c, d, _) => At(s, c, Running) && d !in s.contexts
    case Exchange(c) => At(s, c, Running)
    case NewDisconnectContext(c, d, _) => At(s, c, Requesting) && d !in s.contexts
    case DeleteRefused(d) => d in s.contexts && s.contexts[d].stage.Refused?
    case Finish(c) => At(s, c, Running) && forall d | d in s.contexts :: s.contexts[d].stage != Refused(c)
    case Return(id) => id in s.returning && s.acceptor == Idle
  }

  /** What the code takes for granted at the action, and asserts where it says so. */
  predicate Safe(s: State, a: Action)
    requires Enabled(s, a)
  {
    match a
    // back() of the free list
    case Pop => s.free != []
    // CRASH_ASSERT in AddRef: the count is positive afterwards
    case Issue => s.acceptor.session in s.sessions && s.sessions[s.acceptor.session].refCount >= 0
    case NewAcceptContext(_) => s.acceptor.session in s.sessions && s.sessions[s.acceptor.session].refCount >= 0
    case NewContext(c, _, _) => OwnerCount(s, c) > 0
    case NewDisconnectContext(c, _, _) => OwnerCount(s, c) > 0
    // CRASH_ASSERT in AcceptCompletion: not connected already
    case AcceptCompletion(c) => s.contexts[c].session in s.sessions && !s.sessions[s.contexts[c].session].connected
    // CRASH_ASSERT in ReleaseRef: no count below zero; the first three leave a reference
    case DeleteAccept => s.acceptor.context in s.contexts && OwnerCount(s, s.acceptor.context) > 1
    case DisconnectCompletion(c) => OwnerCount(s, c) > 1
    case DeleteRefused(d) => OwnerCount(s, d) > 1
    case Finish(c) => OwnerCount(s, c) > 0
    // CRASH_ASSERT in ReturnClientSession
    case Return(id) => id in s.sessions && !s.sessions[id].connected && s.sessions[id].refCount == 0
    case _ => true
  }

  function OwnerCount(s: State, c: ContextId): int {
    if c in s.contexts && s.contexts[c].session in s.sessions then s.sessions[s.contexts[c].session].refCount else -1
  }

  function AddRef(s: State, id: SessionId): State
    requires id in s.sessions
  {
    s.(sessions := s.sessions[id := s.sessions[id].(refCount := s.sessions[id].refCount + 1)])
  }

  function Decrement(s: State, id: SessionId): State
    requires id in s.sessions
  {
    s.(sessions := s.sessions[id := s.sessions[id].(refCount := s.sessions[id].refCount - 1)])
  }

  function WithStage(s: State, c: ContextId, stage: Stage): State
    requires c in s.contexts
  {
    s.(contexts := s.contexts[c := s.contexts[c].(stage := stage)])
  }

  /** The constructor of a context takes a reference. */
  function Created(s: State, d: ContextId, x: Context): State
    requires x.session in s.sessions
  {
    AddRef(s, x.session).(contexts := s.contexts[d := x])
  }

  /** `DeleteIoContext`; dropping the last reference leads to `OnRelease`. */
  function Deleted(s: State, c: ContextId): State
    requires c in s.contexts && s.contexts[c].session in s.sessions
  {
    var id := s.contexts[c].session;
    var s' := Decrement(s, id).(contexts := s.contexts - {c});
    if s'.sessions[id].refCount == 0 then s'.(returning := s.returning + {id}) else s'
  }

  /** `AcceptCompletion`: the exchange. */
  function Connected(s: State, c: ContextId): State
    requires c in s.contexts && s.contexts[c].session in s.sessions
  {
    var id := s.contexts[c].session;
    WithStage(s, c, Running).(sessions := s.sessions[id := s.sessions[id].(connected := true)])
  }

  /** `DisconnectCompletion`: the reference of issuing is dropped. */
  function Disconnected(s: State, c: ContextId): State
    requires c in s.contexts && s.contexts[c].session in s.sessions
  {
    var id := s.contexts[c].session;
    var x := s.sessions[id];
    WithStage(s, c, Running).(sessions := s.sessions[id := Session(x.refCount - 1, x.connected, false)])
  }

  /** `DisconnectRequest`: the exchange, when it is won. */
  function Exchanged(s: State, c: ContextId): State
    requires c in s.contexts && s.contexts[c].session in s.sessions
  {
    var id := s.contexts[c].session;
    WithStage(s, c, Requesting).(sessions := s.sessions[id := s.sessions[id].(connected := false)])
  }

  function Next(s: State, a: Action): State
    requires Enabled(s, a) && Safe(s, a)
    requires forall c | c in s.contexts :: s.contexts[c].session in s.sessions
  {
    match a
    case Lock => s.(acceptor := Head)
    case Pop =>
      s.(acceptor := Popped(s.free[|s.free| - 1]), free := s.free[..|s.free| - 1], issueCount := s.issueCount + 1)
    case Issue =>
      var id := s.acceptor.session;
      var s' := AddRef(s, id);
      s'.(sessions := s'.sessions[id := s'.sessions[id].(issued := true)], acceptor := Issued(id))
    case NewAcceptContext(c) =>
      Created(s, c, Context(s.acceptor.session, ACCEPT, Posting)).(acceptor := Accepting(s.acceptor.session, c))
    case AcceptPosted =>
      if s.acceptor.context in s.contexts
      then WithStage(s, s.acceptor.context, Pending).(acceptor := Head)
      else s.(acceptor := Head)
    case AcceptRefused => s.(acceptor := Failed(s.acceptor.session, s.acceptor.context))
    case DeleteAccept => Deleted(s, s.acceptor.context).(acceptor := Idle)
    case Unlock => s.(acceptor := Idle)
    case Complete(c) => WithStage(s, c, Completed)
    case AcceptCompletion(c) => Connected(s, c)
    case DisconnectCompletion(c) => Disconnected(s, c)
    case TransferCompletion(c) => WithStage(s, c, Running)
    case NewContext(c, d, posted) =>
      Created(s, d, Context(s.contexts[c].session, TRANSFER, if posted then Pending else Refused(c)))
    case Exchange(c) => if s.sessions[s.contexts[c].session].connected then Exchanged(s, c) else s
    case NewDisconnectContext(c, d, posted) =>
      var s' := WithStage(s, c, Running);
      Created(s', d, Context(s.contexts[c].session, DISCONNECT, if posted then Pending else Refused(c)))
    case DeleteRefused(d) => Deleted(s, d)
    case Finish(c) => Deleted(s, c)
    case Return(id) =>
      s.(sessions := s.sessions[id := Session(0, false, s.sessions[id].issued)], free := s.free + [id],
         returnCount := s.returnCount + 1, returning := s.returning - {id})
  }

  // ----- The invariant -----

  function Mine(contexts: map<ContextId, Context>, id: SessionId): set<ContextId> {
    set c | c in contexts && contexts[c].session == id
  }

  /**
   * A context that can still lead to the issue reference being dropped: an accept, a disconnect, or the request for
   * one.
   */
  predicate HoldsToken(x: Context) {
    || (x.ioType == ACCEPT && (x.stage == Posting || x.stage == Pending || x.stage == Completed))
    || (x.ioType == DISCONNECT && (x.stage == Pending || x.stage == Completed))
    || x.stage == Requesting
  }

  function Tokens(contexts: map<ContextId, Context>, id: SessionId): set<ContextId> {
    set c | c in contexts && contexts[c].session == id && HoldsToken(contexts[c])
  }

  /**
   * The count is the issue reference plus the live contexts; being connected counts as a token, and there is at most
   * one.
   */
  ghost predicate SessionOk(x: Session, mine: set<ContextId>, tokens: set<ContextId>) {
    && x.refCount == (if x.issued then 1 else 0) + |mine|
    && |tokens| + (if x.connected then 1 else 0) <= (if x.issued then 1 else 0)
  }

  ghost predicate Distinct(q: seq<SessionId>) {
    forall i, j | 0 <= i < j < |q| :: q[i] != q[j]
  }

  /** Free, being returned, just popped, or referenced: exactly one of these. */
  ghost predicate InPlace(s: State, id: SessionId)
    requires id in s.sessions
  {
    && (id in s.free ==> s.sessions[id].refCount == 0 && id !in s.returning && s.acceptor != Popped(id))
    && (id in s.returning ==> s.sessions[id].refCount == 0 && s.acceptor != Popped(id))
    && (s.acceptor == Popped(id) ==> s.sessions[id].refCount == 0)
    && (s.sessions[id].refCount == 0 ==> id in s.free || id in s.returning || s.acceptor == Popped(id))
  }

  ghost predicate ContextOk(s: State, c: ContextId)
    requires c in s.contexts
  {
    var x := s.contexts[c];
    && x.session in s.sessions
    && (x.stage == Posting <==>
          s.acceptor == Accepting(x.session, c) || s.acceptor == Failed(x.session, c))
    && (x.stage == Posting ==> x.ioType == ACCEPT)
    && (x.stage.Refused? ==>
          && x.stage.asker in s.contexts && s.contexts[x.stage.asker].session == x.session
          && (s.contexts[x.stage.asker].stage == Running || s.contexts[x.stage.asker].stage == Requesting))
  }

  ghost predicate AcceptorOk(s: State) {
    match s.acceptor
    case Idle => true
    case Head => true
    case Popped(id) => id in s.sessions
    case Issued(id) =>
      id in s.sessions && s.sessions[id].issued && !s.sessions[id].connected && Mine(s.contexts, id) == {}
    case Accepting(id, c) => At(s, c, Posting) && Mine(s.contexts, id) == {c}
    case Failed(id, c) => At(s, c, Posting) && Mine(s.contexts, id) == {c}
  }

  /** Sessions outside the free list are those issued and not returned yet. */
  ghost predicate CountsOk(s: State) {
    && s.returnCount <= s.issueCount && |s.free| + (s.issueCount - s.returnCount) == MAX_CONNECTION
    && Distinct(s.free) && forall id | id in s.free :: id in s.sessions
  }

  /** Issued, or about to get its first context: nobody but the acceptor can touch the session. */
  predicate InHands(a: Acceptor, id: SessionId) {
    (a.Issued? || a.Accepting? || a.Failed?) && a.session == id
  }

  /** The parts of the invariant that speak of one session, for every session. */
  ghost predicate SessionsOk(s: State) {
    forall id | id in s.sessions ::
      SessionOk(s.sessions[id], Mine(s.contexts, id), Tokens(s.contexts, id)) && InPlace(s, id)
  }

  ghost predicate ContextsOk(s: State) {
    forall c | c in s.contexts :: ContextOk(s, c)
  }

  ghost predicate Inv(s: State) {
    && |s.sessions.Keys| == MAX_CONNECTION
    && CountsOk(s) && AcceptorOk(s)
    && (forall id | id in s.returning :: id in s.sessions)
    && SessionsOk(s) && ContextsOk(s)
  }

  lemma InvOf(s: State)
    requires |s.sessions.Keys| == MAX_CONNECTION && CountsOk(s) && AcceptorOk(s)
    requires forall id | id in s.returning :: id in s.sessions
    requires SessionsOk(s) && ContextsOk(s)
    ensures Inv(s)
  {
  }

  lemma InitInv(s: State)
    requires Init(s)
    ensures Inv(s)
  {
    AllSessionsCount(MAX_CONNECTION);
    assert s.sessions.Keys == AllSessions();
    forall id | id in s.sessions
      ensures SessionOk(s.sessions[id], Mine(s.contexts, id), Tokens(s.contexts, id)) && InPlace(s, id)
    {
      assert Mine(s.contexts, id) == {} && Tokens(s.contexts, id) == {};
      assert s.free[id] == id;
    }
  }

  // ----- Every action is safe -----

  lemma ActionIsSafe(s: State, a: Action)
    requires Inv(s) && Enabled(s, a)
    ensures Safe(s, a)
  {
    match a
    case Pop =>
    case Issue => assert InPlace(s, s.acceptor.session);
    case NewAcceptContext(_) =>
      assert SessionOk(s.sessions[s.acceptor.session], Mine(s.contexts, s.acceptor.session),
                       Tokens(s.contexts, s.acceptor.session));
    case AcceptCompletion(c) => HasToken(s, c);
    case DeleteAccept => HasToken(s, s.acceptor.context);
    case DisconnectCompletion(c) => HasToken(s, c);
    case DeleteRefused(d) => HasTwo(s, d, s.contexts[d].stage.asker);
    case Finish(c) => HasReference(s, c);
    case NewContext(c, _, _) => HasReference(s, c);
    case NewDisconnectContext(c, _, _) => HasReference(s, c);
    case Return(id) => ReturningIsDone(s, id);
    case _ =>
  }

  lemma HasReference(s: State, c: ContextId)
    requires Inv(s) && c in s.contexts
    ensures OwnerCount(s, c) > 0
  {
    var id := s.contexts[c].session;
    assert ContextOk(s, c);
    assert c in Mine(s.contexts, id);
    assert SessionOk(s.sessions[id], Mine(s.contexts, id), Tokens(s.contexts, id));
  }

  /** A token comes with the issue reference, and with nothing connected. */
  lemma HasToken(s: State, c: ContextId)
    requires Inv(s) && c in s.contexts && HoldsToken(s.contexts[c])
    ensures var id := s.contexts[c].session;
      && id in s.sessions && s.sessions[id].issued && !s.sessions[id].connected && Tokens(s.contexts, id) == {c}
      && OwnerCount(s, c) == s.sessions[id].refCount > 1
  {
    var id := s.contexts[c].session;
    assert ContextOk(s, c);
    assert c in Mine(s.contexts, id) && c in Tokens(s.contexts, id);
    assert SessionOk(s.sessions[id], Mine(s.contexts, id), Tokens(s.contexts, id));
    TokenMeansIssued(s.sessions[id], Mine(s.contexts, id), Tokens(s.contexts, id), c);
  }

  lemma TokenMeansIssued(x: Session, mine: set<ContextId>, tokens: set<ContextId>, c: ContextId)
    requires SessionOk(x, mine, tokens) && c in tokens && c in mine
    ensures x.issued && !x.connected && tokens == {c} && x.refCount > 1
  {
    var others, more := tokens - {c}, mine - {c};
    assert |tokens| == 1 + |others| && |mine| == 1 + |more|;
    assert others == {};
  }

  lemma HasTwo(s: State, c: ContextId, d: ContextId)
    requires Inv(s) && c in s.contexts && d in s.contexts && c != d && s.contexts[c].session == s.contexts[d].session
    ensures OwnerCount(s, c) > 1
  {
    var id := s.contexts[c].session;
    assert ContextOk(s, c);
    var more := Mine(s.contexts, id) - {c};
    assert c in Mine(s.contexts, id) && d in more;
    assert |Mine(s.contexts, id)| == 1 + |more|;
    assert SessionOk(s.sessions[id], Mine(s.contexts, id), Tokens(s.contexts, id));
  }

  lemma ReturningIsDone(s: State, id: SessionId)
    requires Inv(s) && id in s.returning
    ensures id in s.sessions && !s.sessions[id].connected && s.sessions[id].refCount == 0 && !s.sessions[id].issued
  {
    assert InPlace(s, id) && SessionOk(s.sessions[id], Mine(s.contexts, id), Tokens(s.contexts, id));
  }

  // ----- Every action keeps the invariant -----

  lemma MineAdded(contexts: map<ContextId, Context>, d: ContextId, x: Context, id: SessionId)
    requires d !in contexts
    ensures Mine(contexts[d := x], id) == if x.session == id then Mine(contexts, id) + {d} else Mine(contexts, id)
    ensures Tokens(contexts[d := x], id)
         == if x.session == id && HoldsToken(x) then Tokens(contexts, id) + {d} else Tokens(contexts, id)
    ensures d !in Mine(contexts, id) && d !in Tokens(contexts, id)
  {
  }

  lemma MineRemoved(contexts: map<ContextId, Context>, c: ContextId, id: SessionId)
    ensures Mine(contexts - {c}, id) == Mine(contexts, id) - {c}
      && Tokens(contexts - {c}, id) == Tokens(contexts, id) - {c}
  {
  }

  lemma MineRestaged(contexts: map<ContextId, Context>, c: ContextId, stage: Stage, id: SessionId)
    requires c in contexts
    ensures var after := contexts[c := contexts[c].(stage := stage)];
      && Mine(after, id) == Mine(contexts, id)
      && Tokens(after, id) == if contexts[c].session == id && HoldsToken(contexts[c].(stage := stage))
                              then Tokens(contexts, id) + {c} else Tokens(contexts, id) - {c}
    ensures c in Mine(contexts, id) <==> contexts[c].session == id
    ensures c in Tokens(contexts, id) <==> contexts[c].session == id && HoldsToken(contexts[c])
  {
  }

  /** The step only touches one session and contexts of its that are not being posted. */
  ghost predicate OnlyTouches(s: State, s': State, owner: SessionId) {
    && s'.sessions.Keys == s.sessions.Keys && owner in s.sessions
    && (forall id | id in s.sessions && id != owner :: s'.sessions[id] == s.sessions[id])
    && (forall c | c in s.contexts && s.contexts[c].session != owner ::
        c in s'.contexts && s'.contexts[c] == s.contexts[c])
    && (forall c | c in s'.contexts && s'.contexts[c].session != owner ::
        c in s.contexts && s'.contexts[c] == s.contexts[c])
    && (forall c | c in s.contexts && s.contexts[c].stage == Posting ::
        c in s'.contexts && s'.contexts[c] == s.contexts[c])
    && s'.free == s.free && s'.acceptor == s.acceptor && s'.issueCount == s.issueCount
    && s'.returnCount == s.returnCount
    && (forall id | id != owner :: id in s'.returning <==> id in s.returning)
  }

  ghost predicate OwnerOk(s: State, owner: SessionId)
    requires owner in s.sessions
  {
    && SessionOk(s.sessions[owner], Mine(s.contexts, owner), Tokens(s.contexts, owner)) && InPlace(s, owner)
    && !InHands(s.acceptor, owner)
  }

  /** A step that only touches one session and its contexts leaves the others as they are. */
  lemma OthersKeep(s: State, s': State, owner: SessionId)
    requires SessionsOk(s) && OnlyTouches(s, s', owner)
    ensures forall id | id in s'.sessions && id != owner ::
      SessionOk(s'.sessions[id], Mine(s'.contexts, id), Tokens(s'.contexts, id)) && InPlace(s', id)
    ensures forall id | id != owner :: Mine(s'.contexts, id) == Mine(s.contexts, id)
  {
    forall id | id in s'.sessions && id != owner
      ensures SessionOk(s'.sessions[id], Mine(s'.contexts, id), Tokens(s'.contexts, id)) && InPlace(s', id)
    {
      assert Mine(s'.contexts, id) == Mine(s.contexts, id) && Tokens(s'.contexts, id) == Tokens(s.contexts, id);
      assert SessionOk(s.sessions[id], Mine(s.contexts, id), Tokens(s.contexts, id)) && InPlace(s, id);
    }
  }

  /** With the owner's part proved, all of it is. */
  lemma OwnerKeeps(s: State, s': State, owner: SessionId)
    requires Inv(s) && OnlyTouches(s, s', owner) && OwnerOk(s', owner) && ContextsOk(s')
    ensures Inv(s')
  {
    OthersKeep(s, s', owner);
    AcceptorKeeps(s, s', owner);
    assert CountsOk(s') && forall id | id in s'.returning :: id in s'.sessions;
    assert |s'.sessions.Keys| == MAX_CONNECTION;
    assert SessionsOk(s') by { hide Inv, ContextsOk, CountsOk, AcceptorOk; OwnerAndOthers(s', owner); }
    hide *;
    InvOf(s');
  }

  lemma OwnerAndOthers(s: State, owner: SessionId)
    requires owner in s.sessions
    requires SessionOk(s.sessions[owner], Mine(s.contexts, owner), Tokens(s.contexts, owner)) && InPlace(s, owner)
    requires forall id | id in s.sessions && id != owner ::
      SessionOk(s.sessions[id], Mine(s.contexts, id), Tokens(s.contexts, id)) && InPlace(s, id)
    ensures SessionsOk(s)
  {
  }

  lemma AcceptorKeeps(s: State, s': State, owner: SessionId)
    requires AcceptorOk(s) && OnlyTouches(s, s', owner) && OwnerOk(s', owner)
    requires forall id | id != owner :: Mine(s'.contexts, id) == Mine(s.contexts, id)
    ensures AcceptorOk(s')
  {
    hide Mine, Tokens, SessionOk, InPlace;
  }

  /** Restaging a context that is not being posted. */
  lemma RestagingTouches(s: State, c: ContextId, stage: Stage, s': State)
    requires c in s.contexts && s.contexts[c].stage != Posting && s.contexts[c].session in s.sessions
    requires var owner := s.contexts[c].session;
      && s'.contexts == WithStage(s, c, stage).contexts
      && owner in s'.sessions && s'.sessions == s.sessions[owner := s'.sessions[owner]]
      && s'.free == s.free && s'.acceptor == s.acceptor && s'.issueCount == s.issueCount
      && s'.returnCount == s.returnCount
      && s'.returning == s.returning
    ensures OnlyTouches(s, s', s.contexts[c].session)
  {
  }

  lemma DeletingTouches(s: State, c: ContextId)
    requires c in s.contexts && s.contexts[c].stage != Posting && s.contexts[c].session in s.sessions
    ensures OnlyTouches(s, Deleted(s, c), s.contexts[c].session)
  {
  }

  /** A context is added to a session that has a reference, without a token or taking one over. */
  lemma CreatedKeeps(s: State, d: ContextId, x: Context, before: State)
    requires Inv(before) && d !in before.contexts && x.session in before.sessions
    requires s == Created(before, d, x)
    requires before.sessions[x.session].refCount > 0
    requires HoldsToken(x) ==>
      Tokens(before.contexts, x.session) == {} && before.sessions[x.session].issued
        && !before.sessions[x.session].connected
    ensures SessionsOk(s)
  {
    forall id | id in s.sessions
      ensures SessionOk(s.sessions[id], Mine(s.contexts, id), Tokens(s.contexts, id)) && InPlace(s, id)
    {
      MineAdded(before.contexts, d, x, id);
      assert SessionOk(before.sessions[id], Mine(before.contexts, id), Tokens(before.contexts, id))
        && InPlace(before, id);
    }
  }

  lemma DeletedKeeps(s: State, c: ContextId)
    requires Inv(s) && c in s.contexts
    ensures SessionsOk(Deleted(s, c))
  {
    HasReference(s, c);
    assert ContextOk(s, c);
    assert SessionsOk(s);
    hide Inv, Mine, Tokens, SessionOk, InPlace;
    var s' := Deleted(s, c);
    forall id | id in s'.sessions
      ensures SessionOk(s'.sessions[id], Mine(s'.contexts, id), Tokens(s'.contexts, id)) && InPlace(s', id)
    {
      DeletedSession(s, c, id);
    }
  }

  lemma DeletedSession(s: State, c: ContextId, id: SessionId)
    requires SessionsOk(s) && c in s.contexts && OwnerCount(s, c) > 0 && id in s.sessions
    ensures var s' := Deleted(s, c);
      SessionOk(s'.sessions[id], Mine(s'.contexts, id), Tokens(s'.contexts, id)) && InPlace(s', id)
  {
    var mine, tokens := Mine(s.contexts, id), Tokens(s.contexts, id);
    MineRemoved(s.contexts, c, id);
    assert SessionOk(s.sessions[id], mine, tokens) && InPlace(s, id);
    assert (c in mine <==> s.contexts[c].session == id) && (c in tokens ==> c in mine);
    hide Mine, Tokens, SessionsOk, SessionOk, InPlace;
    OneLess(s.sessions[id], mine, tokens, c);
    DeletedInPlace(s, c, id);
  }

  lemma DeletedInPlace(s: State, c: ContextId, id: SessionId)
    requires c in s.contexts && OwnerCount(s, c) > 0 && id in s.sessions && InPlace(s, id)
    ensures InPlace(Deleted(s, c), id)
  {
  }

  /** Without a context that may be one of its own. */
  lemma OneLess(x: Session, mine: set<ContextId>, tokens: set<ContextId>, c: ContextId)
    requires SessionOk(x, mine, tokens) && (c in tokens ==> c in mine)
    ensures SessionOk(if c in mine then x.(refCount := x.refCount - 1) else x, mine - {c}, tokens - {c})
  {
    if c in mine { assert |mine| == 1 + |mine - {c}|; } else { assert mine - {c} == mine; }
    if c in tokens { assert |tokens| == 1 + |tokens - {c}|; } else { assert tokens - {c} == tokens; }
  }

  lemma LockKeeps(s: State)
    requires Inv(s) && s.acceptor == Idle
    ensures Inv(Next(s, Lock))
  {
    SameButAcceptor(s, Head);
  }

  lemma UnlockKeeps(s: State)
    requires Inv(s) && Enabled(s, Unlock)
    ensures Inv(Next(s, Unlock))
  {
    SameButAcceptor(s, Idle);
  }

  /** No context is being posted, so the acceptor can move on. */
  lemma SameButAcceptor(s: State, next: Acceptor)
    requires Inv(s) && (s.acceptor == Idle || s.acceptor == Head) && (next == Idle || next == Head)
    ensures Inv(s.(acceptor := next))
  {
    var s' := s.(acceptor := next);
    forall id | id in s'.sessions
      ensures SessionOk(s'.sessions[id], Mine(s'.contexts, id), Tokens(s'.contexts, id)) && InPlace(s', id)
    {
      assert InPlace(s, id);
    }
    forall c | c in s'.contexts ensures ContextOk(s', c) {
      assert ContextOk(s, c);
    }
  }

  lemma PopKeeps(s: State)
    requires Inv(s) && Enabled(s, Pop)
    ensures Safe(s, Pop) && Inv(Next(s, Pop))
  {
    var s', last := Next(s, Pop), s.free[|s.free| - 1];
    assert last in s.free;
    forall id | id in s'.free ensures id in s.free && id != last {
      var i :| 0 <= i < |s'.free| && s'.free[i] == id;
      assert s.free[i] == id;
    }
    forall id | id in s'.sessions
      ensures SessionOk(s'.sessions[id], Mine(s'.contexts, id), Tokens(s'.contexts, id)) && InPlace(s', id)
    {
      assert InPlace(s, id);
    }
    forall c | c in s'.contexts ensures ContextOk(s', c) {
      assert ContextOk(s, c);
    }
  }

  lemma IssueKeeps(s: State)
    requires Inv(s) && Enabled(s, Issue)
    ensures Safe(s, Issue) && Inv(Next(s, Issue))
  {
    ActionIsSafe(s, Issue);
    var s', popped := Next(s, Issue), s.acceptor.session;
    forall id | id in s'.sessions
      ensures SessionOk(s'.sessions[id], Mine(s'.contexts, id), Tokens(s'.contexts, id)) && InPlace(s', id)
    {
      assert SessionOk(s.sessions[id], Mine(s.contexts, id), Tokens(s.contexts, id)) && InPlace(s, id);
    }
    assert SessionOk(s.sessions[popped], Mine(s.contexts, popped), Tokens(s.contexts, popped)) && InPlace(s, popped);
    assert |Tokens(s.contexts, popped)| == 0;
    forall c | c in s'.contexts ensures ContextOk(s', c) {
      assert ContextOk(s, c);
    }
  }

  lemma NewAcceptContextKeeps(s: State, c: ContextId)
    requires Inv(s) && Enabled(s, NewAcceptContext(c))
    ensures Safe(s, NewAcceptContext(c)) && Inv(Next(s, NewAcceptContext(c)))
  {
    ActionIsSafe(s, NewAcceptContext(c));
    AcceptingSessions(s, c);
    AcceptingContexts(s, c);
    AcceptingRest(s, c);
    assert Next(s, NewAcceptContext(c)) == NowAccepting(s, c);
    hide *;
    InvOf(NowAccepting(s, c));
  }

  function NowAccepting(s: State, c: ContextId): State
    requires s.acceptor.Issued? && s.acceptor.session in s.sessions
  {
    Created(s, c, Context(s.acceptor.session, ACCEPT, Posting)).(acceptor := Accepting(s.acceptor.session, c))
  }

  lemma AcceptingSessions(s: State, c: ContextId)
    requires Inv(s) && Enabled(s, NewAcceptContext(c))
    ensures SessionsOk(NowAccepting(s, c))
  {
    var id, s' := s.acceptor.session, NowAccepting(s, c);
    var made := Created(s, c, Context(id, ACCEPT, Posting));
    assert SessionOk(s.sessions[id], Mine(s.contexts, id), Tokens(s.contexts, id));
    assert Tokens(s.contexts, id) <= Mine(s.contexts, id);
    CreatedKeeps(made, c, Context(id, ACCEPT, Posting), s);
    hide Inv, Mine, Tokens, SessionOk;
    forall i | i in s'.sessions
      ensures SessionOk(s'.sessions[i], Mine(s'.contexts, i), Tokens(s'.contexts, i)) && InPlace(s', i)
    {
      assert InPlace(made, i);
    }
  }

  lemma AcceptingContexts(s: State, c: ContextId)
    requires Inv(s) && Enabled(s, NewAcceptContext(c))
    ensures ContextsOk(NowAccepting(s, c))
  {
    hide SessionsOk, CountsOk, Mine, Tokens;
    var s' := NowAccepting(s, c);
    forall d | d in s'.contexts ensures ContextOk(s', d) {
      if d != c { assert ContextOk(s, d); }
    }
  }

  lemma AcceptingRest(s: State, c: ContextId)
    requires Inv(s) && Enabled(s, NewAcceptContext(c))
    ensures var s' := NowAccepting(s, c);
      && |s'.sessions.Keys| == MAX_CONNECTION && CountsOk(s') && AcceptorOk(s')
      && forall id | id in s'.returning :: id in s'.sessions
  {
    hide SessionsOk, ContextsOk, Tokens;
    var id, s' := s.acceptor.session, NowAccepting(s, c);
    MineAdded(s.contexts, c, Context(id, ACCEPT, Posting), id);
    assert s'.sessions.Keys == s.sessions.Keys;
  }

  lemma AcceptPostedKeeps(s: State)
    requires Inv(s) && Enabled(s, AcceptPosted)
    ensures Inv(Next(s, AcceptPosted))
  {
    AcceptPostedSessions(s);
    AcceptPostedContexts(s);
    hide Mine, Tokens, SessionsOk, ContextsOk;
    InvOf(Next(s, AcceptPosted));
  }

  lemma AcceptPostedSessions(s: State)
    requires Inv(s) && Enabled(s, AcceptPosted)
    ensures SessionsOk(Next(s, AcceptPosted))
  {
    var s', c := Next(s, AcceptPosted), s.acceptor.context;
    assert ContextOk(s, c);
    assert SessionsOk(s) && s'.contexts == s.contexts[c := s.contexts[c].(stage := Pending)];
    hide Inv, Mine, Tokens, SessionOk;
    forall id | id in s'.sessions
      ensures SessionOk(s'.sessions[id], Mine(s'.contexts, id), Tokens(s'.contexts, id)) && InPlace(s', id)
    {
      assert SessionOk(s.sessions[id], Mine(s.contexts, id), Tokens(s.contexts, id)) && InPlace(s, id);
      MineRestaged(s.contexts, c, Pending, id);
      SameTokens(Tokens(s.contexts, id), c);
    }
  }

  lemma SameTokens(tokens: set<ContextId>, c: ContextId)
    ensures c in tokens ==> tokens + {c} == tokens
    ensures c !in tokens ==> tokens - {c} == tokens
  {
  }

  lemma AcceptPostedContexts(s: State)
    requires Inv(s) && Enabled(s, AcceptPosted)
    ensures ContextsOk(Next(s, AcceptPosted))
  {
    hide Mine, Tokens, SessionOk, InPlace, SessionsOk, CountsOk;
    var s' := Next(s, AcceptPosted);
    forall d | d in s'.contexts ensures ContextOk(s', d) {
      assert ContextOk(s, d);
    }
  }

  lemma AcceptRefusedKeeps(s: State)
    requires Inv(s) && Enabled(s, AcceptRefused)
    ensures Inv(Next(s, AcceptRefused))
  {
    var s' := Next(s, AcceptRefused);
    forall id | id in s'.sessions
      ensures SessionOk(s'.sessions[id], Mine(s'.contexts, id), Tokens(s'.contexts, id)) && InPlace(s', id)
    {
      assert InPlace(s, id);
    }
    forall d | d in s'.contexts ensures ContextOk(s', d) {
      assert ContextOk(s, d);
    }
  }

  /** The failed accept: the session stays issued, with nobody left to return it, and the lock is let go. */
  lemma DeleteAcceptKeeps(s: State)
    requires Inv(s) && Enabled(s, DeleteAccept)
    ensures Safe(s, DeleteAccept) && Inv(Next(s, DeleteAccept))
    ensures Next(s, DeleteAccept).returning == s.returning
  {
    var s', c := DroppedAccept(s), s.acceptor.context;
    ActionIsSafe(s, DeleteAccept);
    assert ContextOk(s, c);
    assert Next(s, DeleteAccept) == s';
    DeletedKeeps(s, c);
    DeleteAcceptSessions(s);
    DeleteAcceptContexts(s);
    DeleteAcceptCounts(s);
    hide *;
    InvOf(s');
  }

  function DroppedAccept(s: State): State {
    if s.acceptor.Failed? && s.acceptor.context in s.contexts && s.contexts[s.acceptor.context].session in s.sessions
    then Deleted(s, s.acceptor.context).(acceptor := Idle)
    else s
  }

  lemma DeleteAcceptCounts(s: State)
    requires Inv(s) && s.acceptor.Failed? && OwnerCount(s, s.acceptor.context) > 1
    ensures var s' := DroppedAccept(s);
      && |s'.sessions.Keys| == MAX_CONNECTION && CountsOk(s') && AcceptorOk(s') && s'.returning == s.returning
      && forall id | id in s'.returning :: id in s'.sessions
  {
    assert DroppedAccept(s).sessions.Keys == s.sessions.Keys;
  }

  lemma DeleteAcceptSessions(s: State)
    requires Inv(s) && s.acceptor.Failed? && s.contexts[s.acceptor.context].session in s.sessions
    requires SessionsOk(Deleted(s, s.acceptor.context))
    ensures SessionsOk(DroppedAccept(s))
  {
    assert Deleted(s, s.acceptor.context).acceptor == s.acceptor;
    hide Mine, Tokens, Deleted;
    var was, s' := Deleted(s, s.acceptor.context), DroppedAccept(s);
    forall id | id in s'.sessions
      ensures SessionOk(s'.sessions[id], Mine(s'.contexts, id), Tokens(s'.contexts, id)) && InPlace(s', id)
    {
      assert InPlace(was, id);
    }
  }

  lemma DeleteAcceptContexts(s: State)
    requires Inv(s) && s.acceptor.Failed?
    ensures ContextsOk(DroppedAccept(s))
  {
    hide Mine, Tokens, SessionOk, InPlace, SessionsOk, CountsOk;
    var s' := DroppedAccept(s);
    assert ContextOk(s, s.acceptor.context);
    forall d | d in s'.contexts ensures ContextOk(s', d) {
      assert ContextOk(s, d);
    }
  }

  /** The kernel completes a context, or a worker passes a step that changes no count. */
  lemma RestagedKeeps(s: State, c: ContextId, stage: Stage)
    requires Inv(s) && c in s.contexts
    requires (s.contexts[c].stage == Pending && stage == Completed)
          || (s.contexts[c].stage == Completed && stage == Running && s.contexts[c].ioType == TRANSFER)
          || (s.contexts[c].stage == Requesting && stage == Running)
    ensures Inv(WithStage(s, c, stage))
  {
    assert ContextOk(s, c);
    var s', owner := WithStage(s, c, stage), s.contexts[c].session;
    assert Inv(s) && owner in s.sessions && s.contexts[c].stage != Posting;
    hide Inv, ContextOk;
    RestagedOwner(s, c, stage);
    WithStageContexts(s, c, stage);
    RestagingTouches(s, c, stage, s');
    hide *;
    OwnerKeeps(s, s', owner);
  }

  lemma WithStageContexts(s: State, c: ContextId, stage: Stage)
    requires ContextsOk(s) && c in s.contexts
    requires (s.contexts[c].stage == Pending && stage == Completed)
          || (s.contexts[c].stage == Completed && stage == Running)
          || (s.contexts[c].stage == Requesting && stage == Running)
    ensures ContextsOk(WithStage(s, c, stage))
  {
    var s' := WithStage(s, c, stage);
    forall d | d in s'.contexts ensures ContextOk(s', d) {
      assert ContextOk(s, d);
    }
  }

  lemma RestagedOwner(s: State, c: ContextId, stage: Stage)
    requires Inv(s) && c in s.contexts && s.contexts[c].session in s.sessions && s.contexts[c].stage != Posting
    requires stage == Completed || stage == Running
    requires HoldsToken(s.contexts[c].(stage := stage)) ==> HoldsToken(s.contexts[c])
    ensures OwnerOk(WithStage(s, c, stage), s.contexts[c].session)
  {
    var owner := s.contexts[c].session;
    NotInHands(s, c);
    MineRestaged(s.contexts, c, stage, owner);
    assert SessionOk(s.sessions[owner], Mine(s.contexts, owner), Tokens(s.contexts, owner)) && InPlace(s, owner);
    if c in Tokens(s.contexts, owner) { assert Tokens(s.contexts, owner) + {c} == Tokens(s.contexts, owner); }
    else { assert Tokens(s.contexts, owner) - {c} == Tokens(s.contexts, owner); }
  }

  lemma AcceptCompletionKeeps(s: State, c: ContextId)
    requires Inv(s) && At(s, c, Completed) && s.contexts[c].ioType == ACCEPT
    ensures s.contexts[c].session in s.sessions && !s.sessions[s.contexts[c].session].connected && Inv(Connected(s, c))
  {
    HasToken(s, c);
    assert ContextOk(s, c);
    var s', owner := Connected(s, c), s.contexts[c].session;
    ConnectedOwner(s, c);
    RestagedContexts(s, s', c);
    RestagingTouches(s, c, Running, s');
    hide *;
    OwnerKeeps(s, s', owner);
  }

  lemma ConnectedOwner(s: State, c: ContextId)
    requires Inv(s) && At(s, c, Completed) && s.contexts[c].ioType == ACCEPT && s.contexts[c].session in s.sessions
    ensures OwnerOk(Connected(s, c), s.contexts[c].session)
  {
    HasToken(s, c);
    NotInHands(s, c);
    var s', owner := Connected(s, c), s.contexts[c].session;
    assert SessionOk(s.sessions[owner], Mine(s.contexts, owner), Tokens(s.contexts, owner)) && InPlace(s, owner);
    TokenGone(s.contexts, c);
    hide Inv, Mine, Tokens, HoldsToken;
    assert s'.contexts == s.contexts[c := s.contexts[c].(stage := Running)];
  }

  /** A session with a context that is posted is out of the acceptor's hands. */
  lemma NotInHands(s: State, c: ContextId)
    requires Inv(s) && c in s.contexts && s.contexts[c].stage != Posting
    ensures !InHands(s.acceptor, s.contexts[c].session)
  {
    assert c in Mine(s.contexts, s.contexts[c].session);
  }

  lemma DisconnectCompletionKeeps(s: State, c: ContextId)
    requires Inv(s) && At(s, c, Completed) && s.contexts[c].ioType == DISCONNECT
    ensures OwnerCount(s, c) > 1 && s.contexts[c].session in s.sessions && Inv(Disconnected(s, c))
  {
    HasToken(s, c);
    assert ContextOk(s, c);
    var s', owner := Disconnected(s, c), s.contexts[c].session;
    DisconnectedOwner(s, c);
    RestagedContexts(s, s', c);
    RestagingTouches(s, c, Running, s');
    hide *;
    OwnerKeeps(s, s', owner);
  }

  lemma DisconnectedOwner(s: State, c: ContextId)
    requires Inv(s) && At(s, c, Completed) && s.contexts[c].ioType == DISCONNECT && s.contexts[c].session in s.sessions
    ensures OwnerOk(Disconnected(s, c), s.contexts[c].session)
  {
    HasToken(s, c);
    NotInHands(s, c);
    var s', owner := Disconnected(s, c), s.contexts[c].session;
    assert SessionOk(s.sessions[owner], Mine(s.contexts, owner), Tokens(s.contexts, owner)) && InPlace(s, owner);
    TokenGone(s.contexts, c);
    hide Inv, Mine, Tokens, HoldsToken;
    assert s'.contexts == s.contexts[c := s.contexts[c].(stage := Running)];
  }

  /** The token is gone once the completion is past its first step. */
  lemma TokenGone(contexts: map<ContextId, Context>, c: ContextId)
    requires c in contexts && Tokens(contexts, contexts[c].session) == {c}
    ensures var after, owner := contexts[c := contexts[c].(stage := Running)], contexts[c].session;
      Mine(after, owner) == Mine(contexts, owner) && Tokens(after, owner) == {}
  {
    hide Mine, Tokens;
    MineRestaged(contexts, c, Running, contexts[c].session);
  }

  /** Restaging a context that is not being posted, or asks for nothing it may lose, keeps every context right. */
  lemma RestagedContexts(s: State, s': State, c: ContextId)
    requires Inv(s) && c in s.contexts && s'.contexts.Keys == s.contexts.Keys
    requires s'.acceptor == s.acceptor && s'.sessions.Keys == s.sessions.Keys
    requires forall d | d in s.contexts && d != c :: s'.contexts[d] == s.contexts[d]
    requires s'.contexts[c].session == s.contexts[c].session
    requires s.contexts[c].stage == Completed || s.contexts[c].stage == Running || s.contexts[c].stage == Requesting
    requires s'.contexts[c].stage == Running || s'.contexts[c].stage == Requesting
    ensures ContextsOk(s')
  {
    forall d | d in s'.contexts ensures ContextOk(s', d) {
      assert ContextOk(s, d) && ContextOk(s, c);
    }
  }

  lemma NewContextKeeps(s: State, c: ContextId, d: ContextId, posted: bool)
    requires Inv(s) && Enabled(s, NewContext(c, d, posted))
    ensures Safe(s, NewContext(c, d, posted)) && Inv(Next(s, NewContext(c, d, posted)))
  {
    HasReference(s, c);
    assert ContextOk(s, c);
    var x := Context(s.contexts[c].session, TRANSFER, if posted then Pending else Refused(c));
    NewContextOf(s, c, d, x, Next(s, NewContext(c, d, posted)));
  }

  /** Of all the threads that ask for a disconnect, one wins the exchange, and the session is still issued. */
  lemma ExchangeKeeps(s: State, c: ContextId)
    requires Inv(s) && At(s, c, Running)
    ensures s.contexts[c].session in s.sessions
    ensures s.sessions[s.contexts[c].session].connected ==> Inv(Exchanged(s, c))
  {
    assert ContextOk(s, c);
    var s', owner := Exchanged(s, c), s.contexts[c].session;
    if s.sessions[owner].connected {
      ExchangedOwner(s, c);
      RestagedContexts(s, s', c);
      RestagingTouches(s, c, Requesting, s');
      hide *;
      OwnerKeeps(s, s', owner);
    }
  }

  lemma ExchangedOwner(s: State, c: ContextId)
    requires Inv(s) && At(s, c, Running) && s.contexts[c].session in s.sessions
      && s.sessions[s.contexts[c].session].connected
    ensures OwnerOk(Exchanged(s, c), s.contexts[c].session)
  {
    NotInHands(s, c);
    var s', owner := Exchanged(s, c), s.contexts[c].session;
    assert SessionOk(s.sessions[owner], Mine(s.contexts, owner), Tokens(s.contexts, owner)) && InPlace(s, owner);
    assert Tokens(s.contexts, owner) == {};
    MineRestaged(s.contexts, c, Requesting, owner);
    assert Tokens(s'.contexts, owner) == {c};
  }

  lemma NewDisconnectContextKeeps(s: State, c: ContextId, d: ContextId, stage: Stage)
    requires Inv(s) && At(s, c, Requesting) && d !in s.contexts && (stage == Pending || stage == Refused(c))
    ensures OwnerCount(s, c) > 0 && s.contexts[c].session in s.sessions
    ensures Inv(Created(WithStage(s, c, Running), d, Context(s.contexts[c].session, DISCONNECT, stage)))
  {
    RequestHoldsToken(s, c);
    var x, s1 := Context(s.contexts[c].session, DISCONNECT, stage), WithStage(s, c, Running);
    RestagedKeeps(s, c, Running);
    NewContextReady(s, c, d, x);
    hide *;
    NewContextOf(s1, c, d, x, Created(s1, d, x));
  }

  /** The request is the one token of its session, so that none is left when it goes on. */
  lemma RequestHoldsToken(s: State, c: ContextId)
    requires Inv(s) && At(s, c, Requesting)
    ensures OwnerCount(s, c) > 0 && s.contexts[c].session in s.sessions
    ensures var id := s.contexts[c].session;
      && s.sessions[id].issued && !s.sessions[id].connected
      && Tokens(WithStage(s, c, Running).contexts, id) == {}
  {
    HasToken(s, c);
    HasReference(s, c);
    assert ContextOk(s, c);
    NotInHands(s, c);
    MineRestaged(s.contexts, c, Running, s.contexts[c].session);
  }

  lemma NewContextReady(s: State, c: ContextId, d: ContextId, x: Context)
    requires c in s.contexts && d !in s.contexts && s.contexts[c].session == x.session && x.session in s.sessions
    ensures var s1 := WithStage(s, c, Running);
      At(s1, c, Running) && d !in s1.contexts && s1.contexts[c].session == x.session && s1.sessions == s.sessions
        && s1.acceptor == s.acceptor
  {
  }

  /** A running context's thread makes another of the same session. */
  lemma NewContextOf(s: State, c: ContextId, d: ContextId, x: Context, s': State)
    requires Inv(s) && At(s, c, Running) && d !in s.contexts && s.contexts[c].session == x.session
      && x.session in s.sessions
    requires x.stage == Pending || x.stage == Refused(c)
    requires x.ioType == TRANSFER || (x.ioType == DISCONNECT && Tokens(s.contexts, x.session) == {}
                                      && s.sessions[x.session].issued && !s.sessions[x.session].connected)
    requires s' == Created(s, d, x)
    ensures Inv(s')
  {
    HasReference(s, c);
    CreatedKeeps(s', d, x, s);
    NewContextContexts(s, c, d, x);
    NewContextRest(s, c, d, x);
    hide *;
    InvOf(s');
  }

  lemma NewContextContexts(s: State, c: ContextId, d: ContextId, x: Context)
    requires Inv(s) && At(s, c, Running) && d !in s.contexts && s.contexts[c].session == x.session
      && x.session in s.sessions
    requires x.stage == Pending || x.stage == Refused(c)
    ensures ContextsOk(Created(s, d, x))
  {
    hide Mine, Tokens, SessionOk, InPlace, SessionsOk, CountsOk;
    var s' := Created(s, d, x);
    assert ContextOk(s, c);
    forall e | e in s'.contexts ensures ContextOk(s', e) {
      if e != d { assert ContextOk(s, e); }
    }
  }

  /** Whoever accepts is not disturbed: a session just issued gets no disconnect. */
  lemma NewContextRest(s: State, c: ContextId, d: ContextId, x: Context)
    requires Inv(s) && At(s, c, Running) && d !in s.contexts && x.session in s.sessions
    requires x.stage == Pending || x.stage == Refused(c)
    requires x.ioType == TRANSFER || x.ioType == DISCONNECT
    requires s.contexts[c].session == x.session
    ensures var s' := Created(s, d, x);
      && |s'.sessions.Keys| == MAX_CONNECTION && CountsOk(s') && AcceptorOk(s')
      && forall id | id in s'.returning :: id in s'.sessions
  {
    hide SessionOk, InPlace, SessionsOk, ContextsOk, Mine;
    var s' := Created(s, d, x);
    assert s'.sessions.Keys == s.sessions.Keys;
    NotInHands(s, c);
    if !s.acceptor.Idle? && !s.acceptor.Head? { MineAdded(s.contexts, d, x, s.acceptor.session); }
  }

  lemma DeleteRefusedKeeps(s: State, d: ContextId)
    requires Inv(s) && Enabled(s, DeleteRefused(d))
    ensures Safe(s, DeleteRefused(d)) && Inv(Next(s, DeleteRefused(d)))
  {
    ActionIsSafe(s, DeleteRefused(d));
    ContextGone(s, d);
  }

  lemma FinishKeeps(s: State, c: ContextId)
    requires Inv(s) && Enabled(s, Finish(c))
    ensures Safe(s, Finish(c)) && Inv(Next(s, Finish(c)))
  {
    ActionIsSafe(s, Finish(c));
    ContextGone(s, c);
  }

  lemma ContextGone(s: State, c: ContextId)
    requires Inv(s) && c in s.contexts && s.contexts[c].stage != Posting
    requires forall d | d in s.contexts :: s.contexts[d].stage != Refused(c)
    ensures s.contexts[c].session in s.sessions && Inv(Deleted(s, c))
  {
    assert ContextOk(s, c);
    var s', owner := Deleted(s, c), s.contexts[c].session;
    HasReference(s, c);
    DeletedOwner(s, c);
    ContextsWithout(s, c);
    DeletingTouches(s, c);
    hide *;
    OwnerKeeps(s, s', owner);
  }

  lemma DeletedOwner(s: State, c: ContextId)
    requires Inv(s) && c in s.contexts && s.contexts[c].session in s.sessions && s.contexts[c].stage != Posting
    ensures OwnerOk(Deleted(s, c), s.contexts[c].session)
  {
    NotInHands(s, c);
    DeletedKeeps(s, c);
    MineRemoved(s.contexts, c, s.contexts[c].session);
  }

  lemma ContextsWithout(s: State, c: ContextId)
    requires Inv(s) && c in s.contexts && s.contexts[c].stage != Posting && s.contexts[c].session in s.sessions
    requires forall d | d in s.contexts :: s.contexts[d].stage != Refused(c)
    ensures ContextsOk(Deleted(s, c))
  {
    var s' := Deleted(s, c);
    forall d | d in s'.contexts ensures ContextOk(s', d) {
      assert ContextOk(s, d);
    }
  }

  lemma ReturnKeeps(s: State, id: SessionId)
    requires Inv(s) && Enabled(s, Return(id))
    ensures Safe(s, Return(id)) && Inv(Next(s, Return(id)))
  {
    ReturningIsDone(s, id);
    var s' := Next(s, Return(id));
    assert InPlace(s, id) && id !in s.free;
    FreeIsShort(s.free, id, s.sessions.Keys);
    assert s'.sessions.Keys == s.sessions.Keys;
    forall i | i in s'.sessions
      ensures SessionOk(s'.sessions[i], Mine(s'.contexts, i), Tokens(s'.contexts, i)) && InPlace(s', i)
    {
      assert SessionOk(s.sessions[i], Mine(s.contexts, i), Tokens(s.contexts, i)) && InPlace(s, i);
    }
    forall c | c in s'.contexts ensures ContextOk(s', c) {
      assert ContextOk(s, c);
    }
  }

  function Members(q: seq<SessionId>): set<SessionId> {
    set i | i in q
  }

  /** A free list without duplicates that lacks a session is not full. */
  lemma FreeIsShort(q: seq<SessionId>, id: SessionId, all: set<SessionId>)
    requires Distinct(q) && id !in q && id in all && forall i | i in q :: i in all
    ensures |q| < |all|
  {
    DistinctCount(q);
    var others := all - {id};
    assert all == others + {id};
    SubsetCount(Members(q), others);
  }

  lemma {:induction false} DistinctCount(q: seq<SessionId>)
    requires Distinct(q)
    ensures |Members(q)| == |q|
    decreases |q|
  {
    if q != [] {
      var last, others := q[|q| - 1], q[..|q| - 1];
      DistinctCount(others);
      assert last !in Members(others);
      assert q == others + [last];
      assert Members(q) == Members(others) + {last};
    }
  }

  lemma {:induction false} SubsetCount(a: set<SessionId>, b: set<SessionId>)
    requires a <= b
    ensures |a| <= |b|
  {
    if a != {} {
      var x :| x in a;
      SubsetCount(a - {x}, b - {x});
    }
  }

  lemma {:induction false} AllSessionsCount(n: nat)
    requires n <= MAX_CONNECTION
    ensures |SessionsBelow(n)| == n && (n == MAX_CONNECTION ==> AllSessions() == SessionsBelow(n))
  {
    if n > 0 {
      AllSessionsCount(n - 1);
      assert SessionsBelow(n) == SessionsBelow(n - 1) + {n - 1};
    }
  }

  function SessionsBelow(n: nat): set<SessionId> {
    set i: nat | i < n && IsSession(i)
  }

  /** Whatever step is taken next, it is safe and keeps the invariant. */
  lemma ActionKeepsInv(s: State, a: Action)
    requires Inv(s) && Enabled(s, a)
    ensures Safe(s, a) && Inv(Next(s, a))
  {
    hide Inv;
    match a
    case Lock => LockKeeps(s);
    case Pop => PopKeeps(s);
    case Issue => IssueKeeps(s);
    case NewAcceptContext(c) => NewAcceptContextKeeps(s, c);
    case AcceptPosted => AcceptPostedKeeps(s);
    case AcceptRefused => AcceptRefusedKeeps(s);
    case DeleteAccept => DeleteAcceptKeeps(s);
    case Unlock => UnlockKeeps(s);
    case Complete(c) => RestagedKeeps(s, c, Completed);
    case AcceptCompletion(c) => AcceptCompletionKeeps(s, c);
    case DisconnectCompletion(c) => DisconnectCompletionKeeps(s, c);
    case TransferCompletion(c) => RestagedKeeps(s, c, Running);
    case NewContext(c, d, posted) => NewContextKeeps(s, c, d, posted);
    case Exchange(c) => ExchangeKeeps(s, c);
    case NewDisconnectContext(c, d, posted) =>
      NewDisconnectContextKeeps(s, c, d, if posted then Pending else Refused(c));
    case DeleteRefused(d) => DeleteRefusedKeeps(s, d);
    case Finish(c) => FinishKeeps(s, c);
    case Return(id) => ReturnKeeps(s, id);
  }

  // ----- All runs -----

  ghost predicate Known(s: State) {
    forall c | c in s.contexts :: s.contexts[c].session in s.sessions
  }

  /** A schedule: each action is enabled in its turn, as long as the ones before were safe. */
  ghost predicate Scheduled(s: State, actions: seq<Action>)
    decreases |actions|
  {
    actions == [] ||
    (Enabled(s, actions[0]) && (Safe(s, actions[0]) && Known(s) ==> Scheduled(Next(s, actions[0]), actions[1..])))
  }

  ghost predicate AllSafe(s: State, actions: seq<Action>)
    decreases |actions|
  {
    actions == [] ||
    (Enabled(s, actions[0]) && Safe(s, actions[0]) && Known(s) && AllSafe(Next(s, actions[0]), actions[1..]))
  }

  ghost function After(s: State, actions: seq<Action>): State
    requires AllSafe(s, actions)
    decreases |actions|
  {
    if actions == [] then s else After(Next(s, actions[0]), actions[1..])
  }

  /**
   * However the threads are interleaved, nothing that the code asserts or takes for granted fails, every count is the
   * issue reference plus the live contexts, and the free list holds what is not outstanding.
   */
  lemma {:induction false} EveryRunIsSafe(s: State, actions: seq<Action>)
    requires Inv(s) && Scheduled(s, actions)
    ensures AllSafe(s, actions) && Inv(After(s, actions))
    decreases |actions|
  {
    hide Next, Enabled, Safe, Inv;
    if actions != [] {
      ActionKeepsInv(s, actions[0]);
      InvKnows(s);
      EveryRunIsSafe(Next(s, actions[0]), actions[1..]);
    }
  }

  lemma InvKnows(s: State)
    requires Inv(s)
    ensures Known(s)
  {
    forall c | c in s.contexts ensures s.contexts[c].session in s.sessions {
      assert ContextOk(s, c);
    }
  }

  // ----- The manager -----

  /** What the threads other than the acceptor do. */
  predicate ByOthers(a: Action) {
    !a.Lock? && !a.Pop? && !a.Issue? && !a.NewAcceptContext? && !a.AcceptPosted? && !a.AcceptRefused?
      && !a.DeleteAccept? && !a.Unlock?
  }

  /** `ClientSessionManager`, with the sessions and contexts that its threads share. */
  class ClientSessionManager {
    var state: State

    /** `PrepareClientSessions`: the free list, from the main thread, before anything else runs. */
    constructor PrepareClientSessions()
      ensures Init(state) && Inv(state)
    {
      var sessions: map<SessionId, Session>, free: seq<SessionId> := map[], [];
      for i := 0 to MAX_CONNECTION
        invariant sessions.Keys == SessionsBelow(i) && forall id | id in sessions ::
          sessions[id] == Session(0, false, false)
        invariant |free| == i && forall k | 0 <= k < i :: free[k] == k
      {
        sessions := sessions[i := Session(0, false, false)];
        free := free + [i];
      }
      state := State(sessions, map[], free, 0, 0, {}, Idle);
      new;
      AllSessionsCount(MAX_CONNECTION);
      InitInv(state);
    }

    method Do(a: Action)
      requires Inv(state) && Enabled(state, a)
      modifies this
      ensures Safe(old(state), a) && Known(old(state)) && state == Next(old(state), a) && Inv(state)
      ensures AcceptorMoved(old(state), a, state)
    {
      hide Inv, Enabled, Safe, Next, AcceptorMoved;
      ActionKeepsInv(state, a);
      InvKnows(state);
      AcceptorMoves(state, a);
      state := Next(state, a);
    }

    /** Other threads take their steps; the ones that are not enabled do not happen. */
    method OtherThreads(actions: seq<Action>)
      requires Inv(state)
      modifies this
      ensures Inv(state) && state.acceptor == old(state).acceptor && state.issueCount == old(state).issueCount
      ensures state.acceptor != Idle ==> state.returnCount == old(state).returnCount
    {
      hide Inv, Safe, Next, Known;
      for i := 0 to |actions|
        invariant Inv(state) && state.acceptor == old(state).acceptor && state.issueCount == old(state).issueCount
        invariant state.acceptor != Idle ==> state.returnCount == old(state).returnCount
      {
        if ByOthers(actions[i]) && Enabled(state, actions[i]) {
          Do(actions[i]);
        }
      }
    }

    /** `AcceptClientSessions`: other threads run between any two steps, and the kernel may refuse an accept. */
    method AcceptClientSessions(others: nat -> seq<Action>, accepted: nat -> bool) returns (ok: bool)
      requires Inv(state) && state.acceptor == Idle
      modifies this
      ensures Inv(state) && state.acceptor == Idle
      ensures ok ==> state.free == [] && state.issueCount - state.returnCount == MAX_CONNECTION
    {
      hide Inv, Safe, Next, Known;
      Do(Lock);
      var turn := 0;
      while state.issueCount - state.returnCount < MAX_CONNECTION
        invariant Inv(state) && state.acceptor == Head
        decreases MAX_CONNECTION - (state.issueCount - state.returnCount)
      {
        Do(Pop);
        OtherThreads(others(turn));
        Do(Issue);
        OtherThreads(others(turn + 1));
        var c := FreshContext(state.contexts);
        Do(NewAcceptContext(c));
        OtherThreads(others(turn + 2));
        if !accepted(turn) {
          Do(AcceptRefused);
          OtherThreads(others(turn + 3));
          Do(DeleteAccept);
          return false;
        }
        Do(AcceptPosted);
        OtherThreads(others(turn + 3));
        turn := turn + 4;
      }
      FreeCount(state);
      Do(Unlock);
      return true;
    }

    /** `ReturnClientSession`, by the thread that dropped the last reference, once it has the lock. */
    method ReturnClientSession(id: SessionId)
      requires Inv(state) && id in state.returning && state.acceptor == Idle
      modifies this
      ensures Inv(state) && state.free == old(state).free + [id] && state.returnCount == old(state).returnCount + 1
      ensures id !in old(state).free && id !in state.returning
    {
      ReturningIsDone(state, id);
      assert InPlace(state, id);
      hide Inv;
      Do(Return(id));
    }

    static method FreshContext(contexts: map<ContextId, Context>) returns (c: ContextId)
      ensures c !in contexts
    {
      c := 0;
      var keys := contexts.Keys;
      while keys != {}
        invariant keys <= contexts.Keys && forall k | k in contexts && k !in keys :: k < c
      {
        var k: ContextId :| k in keys;
        if k >= c { c := k + 1; }
        keys := keys - {k};
      }
    }
  }

  /** Where an action leaves the acceptor, and the counters it guards. */
  ghost predicate AcceptorMoved(s: State, a: Action, s': State) {
    match a
    case Lock => s'.acceptor == Head && s'.issueCount == s.issueCount && s'.returnCount == s.returnCount
    case Pop => s'.acceptor.Popped? && s'.issueCount == s.issueCount + 1 && s'.returnCount == s.returnCount
    case Issue => s'.acceptor.Issued? && s'.issueCount == s.issueCount && s'.returnCount == s.returnCount
    case NewAcceptContext(c) =>
      s'.acceptor.Accepting? && s'.issueCount == s.issueCount && s'.returnCount == s.returnCount
    case AcceptPosted => s'.acceptor == Head && s'.issueCount == s.issueCount && s'.returnCount == s.returnCount
    case AcceptRefused => s'.acceptor.Failed? && s'.issueCount == s.issueCount && s'.returnCount == s.returnCount
    case DeleteAccept => s'.acceptor == Idle
    case Unlock =>
      s'.acceptor == Idle && s'.free == s.free && s'.issueCount == s.issueCount && s'.returnCount == s.returnCount
    case _ =>
      && s'.acceptor == s.acceptor && s'.issueCount == s.issueCount
      && (s.acceptor != Idle ==> s'.returnCount == s.returnCount)
  }

  lemma AcceptorMoves(s: State, a: Action)
    requires Enabled(s, a) && Safe(s, a) && Known(s)
    ensures AcceptorMoved(s, a, Next(s, a))
  {
  }

  lemma FreeCount(s: State)
    requires Inv(s)
    ensures |s.free| + (s.issueCount - s.returnCount) == MAX_CONNECTION
  {
  }
}
