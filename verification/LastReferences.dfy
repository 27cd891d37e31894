/** Which step drops the last reference to a session, and what the acceptor may be doing at the time. */
module LastReferences {
  import opened SessionPool
  import opened SessionReturns

  /** The step takes the count of the session to zero: `ReleaseRef` goes on to `OnRelease`. */
  predicate DropsLast(s: State, a: Action, id: SessionId)
    requires Enabled(s, a) && Safe(s, a) && Known(s) && id in s.sessions
  {
    s.sessions[id].refCount != 0 && id in Next(s, a).sessions && Next(s, a).sessions[id].refCount == 0
  }

  /**
   * Only the end of a context's thread does it, when the session is not issued any more and the context is the only
   * one left. Whatever the acceptor is doing then, the session is about to be returned.
   */
  lemma DropsLastExactly(s: State, a: Action, id: SessionId)
    requires Inv(s) && Enabled(s, a) && id in s.sessions
    ensures Safe(s, a) && Known(s)
    ensures DropsLast(s, a, id) <==> a.Finish? && !s.sessions[id].issued && Mine(s.contexts, id) == {a.c}
    ensures DropsLast(s, a, id) ==> Next(s, a).returning == s.returning + {id} && Next(s, a).acceptor == s.acceptor
  {
    Step(s, a);
    hide *;
    if a.Finish? {
      FinishDrops(s, a.c, id);
    } else {
      OthersLeaveOne(s, a, id);
    }
  }

  lemma FinishDrops(s: State, c: ContextId, id: SessionId)
    requires Inv(s) && Enabled(s, Finish(c)) && Safe(s, Finish(c)) && Known(s) && id in s.sessions
    ensures DropsLast(s, Finish(c), id) <==> !s.sessions[id].issued && Mine(s.contexts, id) == {c}
    ensures DropsLast(s, Finish(c), id) ==>
      Next(s, Finish(c)).returning == s.returning + {id} && Next(s, Finish(c)).acceptor == s.acceptor
  {
    hide Inv, Mine, AddRef, Created, Connected, Disconnected, Exchanged, WithStage;
    OnlyReference(s, c, id);
    assert Next(s, Finish(c)) == Deleted(s, c);
  }

  /** Wherever else a reference is dropped, `Safe` has another one left. */
  lemma OthersLeaveOne(s: State, a: Action, id: SessionId)
    requires Enabled(s, a) && Safe(s, a) && Known(s) && id in s.sessions && !a.Finish?
    ensures !DropsLast(s, a, id)
  {
    hide Mine, Tokens;
    if a.DeleteAccept? || a.DeleteRefused? {
      hide AddRef, Created, Connected, Disconnected, Exchanged;
    } else if ByOthers(a) {
      hide Deleted, Decrement;
    } else {
      hide Deleted, Decrement, Connected, Disconnected, Exchanged;
    }
  }

  lemma OnlyReference(s: State, c: ContextId, id: SessionId)
    requires Inv(s) && c in s.contexts && id in s.sessions
    ensures s.contexts[c].session == id
      ==> (s.sessions[id].refCount == 1 <==> !s.sessions[id].issued && Mine(s.contexts, id) == {c})
    ensures s.contexts[c].session != id ==> c !in Mine(s.contexts, id)
  {
    assert SessionOk(s.sessions[id], Mine(s.contexts, id), Tokens(s.contexts, id));
    if s.contexts[c].session == id {
      var others := Mine(s.contexts, id) - {c};
      assert c in Mine(s.contexts, id) && |Mine(s.contexts, id)| == 1 + |others|;
      assert others == {} ==> Mine(s.contexts, id) == {c};
    }
  }

  /** The thread that holds the lock never drops a last reference, which would have it take the lock again. */
  lemma AcceptorDropsNone(s: State, a: Action, id: SessionId)
    requires Inv(s) && Enabled(s, a) && id in s.sessions && !ByOthers(a)
    ensures Safe(s, a) && Known(s) && !DropsLast(s, a, id)
  {
    DropsLastExactly(s, a, id);
  }

  // ----- A run in which another thread does, while the acceptor has the lock -----

  const DISCONNECTED :=
    ACCEPTED + [Exchange(0)] + [NewDisconnectContext(0, 1, true)] + [Complete(1)] + [DisconnectCompletion(1)]

  const LEFT_ALONE := DISCONNECTED + [Finish(0)]

  function WithDisconnect(stage: Stage): map<ContextId, Context> {
    Ours(Running)[1 := Context(LAST, DISCONNECT, stage)]
  }

  /** The acceptor is in its loop, with the lock, and the first session's count goes from one to zero. */
  lemma DroppedUnderLockExample(s: State)
    requires Init(s)
    ensures AllSafe(s, LEFT_ALONE) && After(s, LEFT_ALONE).acceptor == Head
    ensures var s' := After(s, LEFT_ALONE);
      && LAST in s'.sessions && s'.sessions[LAST].refCount == 1
      && Enabled(s', Finish(1)) && Safe(s', Finish(1)) && Known(s') && DropsLast(s', Finish(1), LAST)
  {
    hide AllSafe, After, Init, Reaches, DropsLast, Enabled, Safe, Known;
    AcceptedFirst(s);
    AsksFirst(s, ACCEPTED);
    DisconnectsFirst(s, ACCEPTED + [Exchange(0)]);
    var posted := ACCEPTED + [Exchange(0)] + [NewDisconnectContext(0, 1, true)];
    DisconnectCompletes(s, posted);
    DropsIssue(s, posted + [Complete(1)]);
    FinishesFirst(s, DISCONNECTED);
    LastOneLeft(s, LEFT_ALONE);
  }

  lemma DisconnectsFirst(s: State, run: seq<Action>)
    requires Reaches(s, run, Session(2, false, true), Ours(Requesting), Head)
    ensures Reaches(s, run + [NewDisconnectContext(0, 1, true)], Session(3, false, true), WithDisconnect(Pending), Head)
  {
    hide AllSafe, After, Inv;
    ReachesOn(s, run, NewDisconnectContext(0, 1, true), Session(3, false, true), WithDisconnect(Pending), Head);
  }

  lemma DisconnectCompletes(s: State, run: seq<Action>)
    requires Reaches(s, run, Session(3, false, true), WithDisconnect(Pending), Head)
    ensures Reaches(s, run + [Complete(1)], Session(3, false, true), WithDisconnect(Completed), Head)
  {
    hide AllSafe, After, Inv;
    ReachesOn(s, run, Complete(1), Session(3, false, true), WithDisconnect(Completed), Head);
  }

  lemma DropsIssue(s: State, run: seq<Action>)
    requires Reaches(s, run, Session(3, false, true), WithDisconnect(Completed), Head)
    ensures Reaches(s, run + [DisconnectCompletion(1)], Session(2, false, false), WithDisconnect(Running), Head)
  {
    hide AllSafe, After, Inv;
    ReachesOn(s, run, DisconnectCompletion(1), Session(2, false, false), WithDisconnect(Running), Head);
  }

  lemma FinishesFirst(s: State, run: seq<Action>)
    requires Reaches(s, run, Session(2, false, false), WithDisconnect(Running), Head)
    ensures Reaches(s, run + [Finish(0)], Session(1, false, false), map[1 := Context(LAST, DISCONNECT, Running)], Head)
  {
    hide AllSafe, After, Inv;
    assert WithDisconnect(Running) - {0} == map[1 := Context(LAST, DISCONNECT, Running)];
    ReachesOn(s, run, Finish(0), Session(1, false, false), map[1 := Context(LAST, DISCONNECT, Running)], Head);
  }

  lemma LastOneLeft(s: State, run: seq<Action>)
    requires Reaches(s, run, Session(1, false, false), map[1 := Context(LAST, DISCONNECT, Running)], Head)
    ensures AllSafe(s, run) && After(s, run).acceptor == Head
    ensures var s' := After(s, run);
      && LAST in s'.sessions && s'.sessions[LAST].refCount == 1
      && Enabled(s', Finish(1)) && Safe(s', Finish(1)) && Known(s') && DropsLast(s', Finish(1), LAST)
  {
    hide AllSafe, After, Inv;
    Step(After(s, run), Finish(1));
  }
}
