/** What the mutex promises, in every state that any run of any threads can reach. */
module MutexSafety {
  import opened Common
  import opened Mutex
  import opened MutexInv
  import opened MutexEffects
  import opened MutexPaths
  import opened MutexSteps

  // ---------------------------------------------------------------------------------------------
  // Runs

  /** `who[i]` makes the step from state `i` to the next. */
  ghost predicate Steps(states: seq<State>, who: seq<Thread>) {
    |states| == |who| + 1 && forall i :: 0 <= i < |who| ==> Next(states[i], who[i], states[i + 1])
  }

  ghost predicate Run(states: seq<State>, who: seq<Thread>) {
    Steps(states, who) && states[0] == START
  }

  ghost predicate Reachable(s: State) {
    exists states: seq<State>, who: seq<Thread> :: Run(states, who) && states[|who|] == s
  }

  lemma {:induction false} RunInv(states: seq<State>, who: seq<Thread>, n: nat)
    requires Run(states, who) && n <= |who|
    ensures Inv(states[n])
  {
    hide Inv, Next;
    if n == 0 {
      StartInv();
    } else {
      RunInv(states, who, n - 1);
      InvStep(states[n - 1], who[n - 1], states[n]);
    }
  }

  lemma ReachableInv(s: State)
    requires Reachable(s)
    ensures Inv(s)
  {
    hide Inv;
    var states: seq<State>, who: seq<Thread> :| Run(states, who) && states[|who|] == s;
    RunInv(states, who, |who|);
  }

  lemma ReachableStep(s: State, t: Thread, s': State)
    requires Reachable(s) && Next(s, t, s')
    ensures Reachable(s')
  {
    hide Next;
    var states: seq<State>, who: seq<Thread> :| Run(states, who) && states[|who|] == s;
    assert Run(states + [s'], who + [t]);
  }

  // ---------------------------------------------------------------------------------------------
  // Mutual exclusion

  /** A thread that holds the lock unique holds it alone. */
  lemma MutualExclusion(s: State, t: Thread, u: Thread)
    requires Reachable(s) && IsUnique(s.At(t))
    ensures !IsShared(s.At(u))
    ensures u != t ==> !IsUnique(s.At(u))
  {
    ReachableInv(s);
    assert RoleAt(s, t).mtx && (IsUnique(s.At(u)) ==> RoleAt(s, u).mtx);
    hide RoleOf;
    assert SeenClear(s.At(t));
  }

  /** `uniq` is `yes` exactly when one thread is between its store of `yes` and its store of `no`, and that thread owns
      uniq_mtx. */
  lemma UniqueWindow(s: State)
    requires Reachable(s)
    ensures s.uniq == Yes <==> exists t: Thread :: IsUnique(s.At(t))
    ensures forall t: Thread :: IsUnique(s.At(t)) ==> s.mtx == Some(t)
    ensures forall t: Thread, u: Thread :: IsUnique(s.At(t)) && IsUnique(s.At(u)) ==> t == u
  {
    ReachableInv(s);
    forall t: Thread ensures IsUnique(s.At(t)) ==> s.mtx == Some(t) && s.uniq == Yes {
      if IsUnique(s.At(t)) {
        assert RoleAt(s, t).mtx && Fits(RoleAt(s, t), s.uniq);
      }
    }
    if s.uniq == Yes {
      OnlyUniqueClaimsYes(s.At(s.mtx.value));
    }
  }

  lemma OnlyUniqueClaimsYes(p: PC)
    ensures RoleOf(p).uniq == Some(Yes) <==> IsUnique(p)
  {
  }

  /** A shared holder has its flag up and is on the list, so that a scan can see it. */
  lemma HoldersVisible(s: State, u: Thread)
    requires Reachable(s) && IsShared(s.At(u))
    ensures u in s.sharing && u in s.data && u in s.chain
  {
    ReachableInv(s);
    HolderListed(s, u);
  }

  /** `notify_one` is never called by two threads at once, nor `notify_all`. */
  lemma NotifyExclusive(s: State, t: Thread, u: Thread)
    requires Reachable(s)
    ensures s.At(t).Notify? && s.At(t).n == NotifyOne && s.At(u).Notify? && s.At(u).n == NotifyOne ==> t == u
    ensures s.At(t) == s.At(u) == Unlock(UnlockNotify) ==> t == u
  {
    ReachableInv(s);
    assert RoleAt(s, t).notifying && RoleAt(s, u).notifying ==> t == u;
    assert RoleAt(s, t).mtx && RoleAt(s, u).mtx ==> t == u;
  }

  // ---------------------------------------------------------------------------------------------
  // Refinement of the lock a client sees

  lemma AbstractMeans(s: State)
    requires Reachable(s)
    ensures forall t: Thread :: Abstract(s) == OwnedBy(t) <==> IsUnique(s.At(t))
    ensures forall t: Thread :: (Abstract(s).SharedBy? && t in Abstract(s).holders) <==> IsShared(s.At(t))
  {
    UniqueWindow(s);
    ReachableInv(s);
    assert s.uniq == Yes ==> SeenClear(s.At(s.mtx.value));
    hide RoleOf, MtxInv, ListLockInv, FlagInv, ChainInv, WalkInv, DataInv;
  }

  lemma SharedLegal(s: State, t: Thread, s': State)
    requires OthersStay(s, t, s') && s.uniq != Yes && s'.uniq != Yes
    ensures LegalStep(Abstract(s), Abstract(s'), t)
  {
    var h, h' := Abstract(s).holders, Abstract(s').holders;
    assert forall u :: u != t ==> (u in h <==> u in h');
    if t in h' {
      assert h' == h + {t};
    } else {
      assert h' == h - {t};
    }
  }

  /** While one thread holds the lock unique it stays so until that thread gives it up. */
  lemma UniqueLegal(s: State, t: Thread, s': State)
    requires Reachable(s) && Reachable(s') && OthersStay(s, t, s') && GrantEffect(s, t, s')
    requires s.uniq == Yes || s'.uniq == Yes
    ensures LegalStep(Abstract(s), Abstract(s'), t)
  {
    AbstractMeans(s);
    AbstractMeans(s');
    UniqueWindow(s);
    UniqueWindow(s');
    hide Reachable;
    if s.uniq == Yes && s'.uniq != Yes {
      assert s.mtx == Some(t);
      NobodyShares(s, t, s');
      assert Abstract(s').holders == {};
    } else if s.uniq != Yes {
      assert s'.mtx == Some(t);
      NobodyShared(s, t, s');
      assert Abstract(s).holders == {};
    }
  }

  lemma NobodyShares(s: State, t: Thread, s': State)
    requires Reachable(s) && OthersStay(s, t, s') && GrantEffect(s, t, s') && s.uniq == Yes && IsUnique(s.At(t))
    ensures forall u: Thread :: !IsShared(s'.At(u))
  {
    forall u: Thread ensures !IsShared(s'.At(u)) {
      MutualExclusion(s, t, u);
    }
  }

  lemma NobodyShared(s: State, t: Thread, s': State)
    requires Reachable(s') && OthersStay(s, t, s') && GrantEffect(s, t, s') && IsUnique(s'.At(t))
    ensures forall u: Thread :: !IsShared(s.At(u))
  {
    forall u: Thread ensures !IsShared(s.At(u)) {
      MutualExclusion(s', t, u);
    }
  }

  /** Every step of the mutex is a legal step of the lock, or does not show. */
  lemma Refinement(s: State, t: Thread, s': State)
    requires Reachable(s) && Next(s, t, s')
    ensures LegalStep(Abstract(s), Abstract(s'), t)
  {
    ReachableInv(s);
    ReachableStep(s, t, s');
    InvReady(s, t);
    StepEffects(s, t, s');
    StepPaths(s, t, s');
    Others(s, t, s');
    hide Reachable, Next, OthersStay, LegalStep, Inv, Abstract;
    if s.uniq == Yes || s'.uniq == Yes {
      UniqueLegal(s, t, s');
    } else {
      SharedLegal(s, t, s');
    }
  }
}
