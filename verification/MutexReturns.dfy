/** What the calls of the mutex return with, and that they do return. */
module MutexReturns {
  import opened Common
  import opened Mutex
  import opened MutexInv
  import opened MutexEffects
  import opened MutexSteps
  import opened MutexSafety
  import opened MutexProgress

  // ---------------------------------------------------------------------------------------------
  // With what a call may return, whatever other threads do

  /** Not inside a function of the mutex. */
  predicate AtClient(p: PC) {
    p.Outside? || p.HoldsUnique? || p.HoldsShared?
  }

  /** With what the call that a thread is in may return. */
  function Results(p: PC): set<PC> {
    match p
    case Outside => {Outside}
    case HoldsUnique => {HoldsUnique}
    case HoldsShared => {HoldsShared}
    case Lock(_) => {HoldsUnique}
    case TryLock(y) =>
      if y.TryNo? || y.TryRelease? then {Outside} else if y.TryYes? then {HoldsUnique} else {HoldsUnique, Outside}
    case Unlock(_) => {Outside}
    case Scan(k, _) =>
      if k == ForLock then {HoldsUnique} else if k == ForTryLock then {HoldsUnique, Outside} else {Outside}
    case Notify(n, _) => if n == FromSharedWait then {HoldsShared} else {Outside}
    case Register(b, _) => if b then {HoldsShared} else {HoldsShared, Outside}
    case Share(h) =>
      if (h.SharedSet? || h.SharedLoad?) && !h.blocking then {HoldsShared, Outside} else {HoldsShared}
    case Unshare(_) => {Outside}
    case Exit(_) => {Outside}
  }

  lemma WriterResults(s: State, t: Thread, s': State)
    requires LockStep(s, t, s') || TryLockStep(s, t, s') || UnlockStep(s, t, s')
    ensures Results(s'.At(t)) <= Results(s.At(t))
  {
    match s.At(t)
    case Lock(LockAcquire) =>
    case Lock(LockWant) =>
    case Lock(LockYes) =>
    case Lock(LockWait) =>
    case Lock(LockAsleep) =>
    case Lock(LockReacquire) =>
    case TryLock(TryAcquire) =>
    case TryLock(TryWant) =>
    case TryLock(TryNo) =>
    case TryLock(TryRelease) =>
    case TryLock(TryYes) =>
    case Unlock(UnlockNo) =>
    case Unlock(UnlockNotify) =>
    case Unlock(UnlockRelease) =>
  }

  lemma ReaderResults(s: State, t: Thread, s': State)
    requires ShareStep(s, t, s') || UnshareStep(s, t, s')
    ensures Results(s'.At(t)) <= Results(s.At(t))
  {
    match s.At(t)
    case Share(SharedSet(_)) =>
    case Share(SharedLoad(_)) =>
    case Share(SharedAcquire) =>
    case Share(SharedTest) =>
    case Share(SharedClear) =>
    case Share(SharedWait) =>
    case Share(SharedAsleep) =>
    case Share(SharedReacquire) =>
    case Share(SharedReset) =>
    case Share(SharedRelease) =>
    case Unshare(FlagClear(_)) =>
    case Unshare(LoadUniq) =>
    case Unshare(LoadUniqAgain) =>
  }

  lemma ScanResults(s: State, t: Thread, s': State)
    requires ScanStep(s, t, s') || NotifyStep(s, t, s')
    ensures Results(s'.At(t)) <= Results(s.At(t))
  {
    match s.At(t)
    case Scan(_, ScanEnter) =>
    case Scan(_, ScanHead) =>
    case Scan(_, ScanAt(_)) =>
    case Scan(_, ScanLeave(_)) =>
    case Notify(_, NotifyTest) =>
    case Notify(_, NotifyOne) =>
    case Notify(_, NotifyClear) =>
  }

  lemma ListResults(s: State, t: Thread, s': State)
    requires RegisterStep(s, t, s') || ExitStep(s, t, s')
    ensures Results(s'.At(t)) <= Results(s.At(t))
  {
    match s.At(t)
    case Register(_, RegEnter) =>
    case Register(_, RegTest) =>
    case Register(_, RegLink) =>
    case Register(_, RegHead) =>
    case Register(_, RegData) =>
    case Register(_, RegLeave) =>
    case Exit(ExitTest) =>
    case Exit(ExitEnter) =>
    case Exit(ExitWalk(_)) =>
    case Exit(ExitUnlink(_)) =>
    case Exit(ExitLeave) =>
  }

  lemma ResultsStep(s: State, t: Thread, s': State)
    requires Next(s, t, s') && !AtClient(s.At(t))
    ensures Results(s'.At(t)) <= Results(s.At(t))
  {
    hide Results, LockTo, TryLockTo, UnlockTo, ScanTo, NotifyTo, RegisterTo, ShareTo, UnshareTo, ExitTo;
    match s.At(t)
    case Lock(_) => WriterResults(s, t, s');
    case TryLock(_) => WriterResults(s, t, s');
    case Unlock(_) => WriterResults(s, t, s');
    case Share(_) => ReaderResults(s, t, s');
    case Unshare(_) => ReaderResults(s, t, s');
    case Scan(_, _) => ScanResults(s, t, s');
    case Notify(_, _) => ScanResults(s, t, s');
    case Register(_, _) => ListResults(s, t, s');
    case Exit(_) => ListResults(s, t, s');
  }

  lemma OtherStays(s: State, t: Thread, s': State, u: Thread)
    requires Reachable(s) && Next(s, t, s') && u != t
    ensures s'.At(u) == s.At(u)
  {
    hide Next, Reachable;
    ReachableInv(s);
    InvReady(s, t);
    StepEffects(s, t, s');
    Others(s, t, s');
  }

  /** A stretch of a run in which thread `t` is inside a function of the mutex, up to the last state. */
  ghost predicate Inside(states: seq<State>, who: seq<Thread>, t: Thread) {
    && Steps(states, who) && Reachable(states[0])
    && forall i :: 0 <= i < |who| ==> !AtClient(states[i].At(t))
  }

  lemma {:induction false} ResultsRun(states: seq<State>, who: seq<Thread>, t: Thread)
    requires Inside(states, who, t)
    ensures Results(states[|who|].At(t)) <= Results(states[0].At(t))
    decreases |who|
  {
    hide Next, Reachable, Results, AtClient;
    if who != [] {
      ReachableStep(states[0], who[0], states[1]);
      assert Inside(states[1..], who[1..], t);
      ResultsRun(states[1..], who[1..], t);
      assert states[1..][|who[1..]|] == states[|who|];
      if who[0] == t {
        assert !AtClient(states[0].At(t));
        ResultsStep(states[0], t, states[1]);
      } else {
        OtherStays(states[0], who[0], states[1], t);
      }
    }
  }

  /** With what a call may return, whatever other threads do meanwhile: `lock` and `lock_shared` only with the lock. */
  lemma CallsReturn(states: seq<State>, who: seq<Thread>, t: Thread)
    requires Inside(states, who, t) && AtClient(states[|who|].At(t))
    ensures
      var p, q := states[0].At(t), states[|who|].At(t);
      && (p == Lock(LockAcquire) ==> q == HoldsUnique)
      && (p == TryLock(TryAcquire) ==> q == HoldsUnique || q == Outside)
      && (p == Unlock(UnlockNo) ==> q == Outside)
      && (p == Share(SharedSet(true)) || p == Register(true, RegEnter) ==> q == HoldsShared)
      && (p == Share(SharedSet(false)) || p == Register(false, RegEnter) ==> q == HoldsShared || q == Outside)
      && (p == Unshare(FlagClear(true)) || p == Exit(ExitTest) ==> q == Outside)
  {
    hide Reachable;
    ResultsRun(states, who, t);
  }

  // ---------------------------------------------------------------------------------------------
  // The owner of uniq_mtx gives it up

  /** How many steps an owner of uniq_mtx inside the code needs at most before it releases it or returns with the lock,
      in a list of at most `m` entries: first by the phase it is in, then by its place in the list. */
  function MtxRank(s: State, t: Thread, m: nat): int {
    match s.At(t)
    case Lock(LockWant) => m + 14
    case TryLock(TryWant) => m + 14
    case Scan(_, c) => if c.ScanEnter? then m + 13 else 9 + Rank(s, t)
    case Share(SharedReset) => 8
    case Share(SharedTest) => 7
    case Share(SharedClear) => 6
    case Notify(_, NotifyTest) => 5
    case Notify(_, NotifyOne) => 4
    case Notify(_, NotifyClear) => 3
    case TryLock(TryNo) => 2
    case Unlock(UnlockNo) => 3
    case Unlock(UnlockNotify) => 2
    case _ => 1
  }

  /** An owner of uniq_mtx that is inside the code. */
  predicate OwnsInside(s: State, t: Thread) {
    s.mtx == Some(t) && s.At(t) != HoldsUnique
  }

  predicate MtxFalls(s: State, t: Thread, s': State, m: nat) {
    !OwnsInside(s', t) || 0 <= MtxRank(s', t, m) < MtxRank(s, t, m)
  }

  lemma WriterFalls(s: State, t: Thread, s': State, m: nat)
    requires (LockStep(s, t, s') || TryLockStep(s, t, s') || UnlockStep(s, t, s')) && RoleAt(s, t).mtx
    ensures MtxFalls(s, t, s', m)
  {
    match s.At(t)
    case Lock(LockWant) =>
    case Lock(LockYes) =>
    case Lock(LockWait) =>
    case TryLock(TryWant) =>
    case TryLock(TryNo) =>
    case TryLock(TryRelease) =>
    case TryLock(TryYes) =>
    case Unlock(UnlockNo) =>
    case Unlock(UnlockNotify) =>
    case Unlock(UnlockRelease) =>
  }

  lemma ReaderFalls(s: State, t: Thread, s': State, m: nat)
    requires (ShareStep(s, t, s') || NotifyStep(s, t, s')) && RoleAt(s, t).mtx
    ensures MtxFalls(s, t, s', m)
  {
    match s.At(t)
    case Share(SharedTest) =>
    case Share(SharedClear) =>
    case Share(SharedWait) =>
    case Share(SharedReset) =>
    case Share(SharedRelease) =>
    case Notify(_, NotifyTest) =>
    case Notify(_, NotifyOne) =>
    case Notify(_, NotifyClear) =>
  }

  lemma ScanFalls(s: State, t: Thread, s': State, m: nat)
    requires Reachable(s) && Next(s, t, s') && ScanStep(s, t, s') && RoleAt(s, t).mtx && |s.chain| <= m
    ensures MtxFalls(s, t, s', m)
  {
    hide Reachable, Next;
    if HoldsList(s.At(t)) {
      RankFalls(s, t, s');
      ReachableInv(s);
      RankBound(s, t);
    }
    hide Inv;
    match s.At(t).c
    case ScanEnter =>
    case ScanHead =>
    case ScanAt(_) =>
    case ScanLeave(_) =>
  }

  lemma OwnerPlaces(p: PC)
    requires RoleOf(p).mtx && p != HoldsUnique
    ensures p.Lock? || p.TryLock? || p.Unlock? || p.Scan? || p.Notify? || p.Share?
  {
  }

  /** Each own step of an owner of uniq_mtx inside the code brings it closer to the release, or to the return with the
      lock. */
  lemma MtxRankFalls(s: State, t: Thread, s': State, m: nat)
    requires Reachable(s) && Next(s, t, s') && OwnsInside(s, t) && |s.chain| <= m
    ensures MtxFalls(s, t, s', m)
  {
    ReachableInv(s);
    assert RoleAt(s, t).mtx;
    OwnerPlaces(s.At(t));
    hide Reachable, Inv, RoleOf, MtxFalls;
    hide LockTo, TryLockTo, UnlockTo, ScanTo, NotifyTo, RegisterTo, ShareTo, UnshareTo, ExitTo;
    match s.At(t)
    case Lock(_) => WriterFalls(s, t, s', m);
    case TryLock(_) => WriterFalls(s, t, s', m);
    case Unlock(_) => WriterFalls(s, t, s', m);
    case Scan(_, _) => ScanFalls(s, t, s', m);
    case Notify(_, _) => ReaderFalls(s, t, s', m);
    case Share(_) => ReaderFalls(s, t, s', m);
  }

  /** And no step of another thread takes it further from it. */
  lemma MtxRankStays(s: State, t: Thread, s': State, u: Thread, m: nat)
    requires Reachable(s) && Next(s, t, s') && u != t
    ensures s'.At(u) == s.At(u) && MtxRank(s', u, m) == MtxRank(s, u, m)
  {
    hide Reachable, Next;
    OtherStays(s, t, s', u);
    if HoldsList(s.At(u)) {
      RankStays(s, t, s', u);
      hide Rank;
    }
  }

  /** A stretch of a run in which thread `t` owns uniq_mtx, is not at the client, and the list is no longer than `m`. */
  ghost predicate Owning(states: seq<State>, who: seq<Thread>, t: Thread, m: nat) {
    && Steps(states, who) && Reachable(states[0])
    && forall i :: 0 <= i <= |who| ==> OwnsInside(states[i], t) && |states[i].chain| <= m
  }

  lemma MtxRankBound(s: State, t: Thread, m: nat)
    requires Reachable(s) && |s.chain| <= m
    ensures 0 <= MtxRank(s, t, m) <= m + 14
  {
    hide Reachable;
    ReachableInv(s);
    RankBound(s, t);
    hide Inv;
  }

  /** While a thread inside the code owns uniq_mtx it makes at most so many steps, whatever others do between them. */
  lemma {:induction false} MtxHoldEnds(states: seq<State>, who: seq<Thread>, t: Thread, m: nat)
    requires Owning(states, who, t, m)
    ensures OwnSteps(who, t) <= MtxRank(states[0], t, m) <= m + 14
    decreases |who|
  {
    hide Next, Reachable, MtxRank, OwnsInside;
    assert OwnsInside(states[0], t) && |states[0].chain| <= m;
    MtxRankBound(states[0], t, m);
    if who != [] {
      assert OwnsInside(states[1], t);
      ReachableStep(states[0], who[0], states[1]);
      assert Owning(states[1..], who[1..], t, m);
      MtxHoldEnds(states[1..], who[1..], t, m);
      if who[0] == t {
        MtxRankFalls(states[0], t, states[1], m);
      } else {
        MtxRankStays(states[0], who[0], states[1], t, m);
      }
    }
  }

  // ---------------------------------------------------------------------------------------------
  // `unlock` returns, whatever other threads do

  predicate InUnlock(p: PC) {
    p.Unlock? || (p.Notify? && p.notifier == FromUnlock)
  }

  function UnlockRank(p: PC): nat
    requires InUnlock(p)
  {
    match p
    case Unlock(UnlockNo) => 5
    case Unlock(UnlockNotify) => 4
    case Unlock(UnlockRelease) => 3
    case Notify(_, NotifyTest) => 2
    case Notify(_, NotifyOne) => 1
    case Notify(_, NotifyClear) => 0
  }

  lemma UnlockFalls(s: State, t: Thread, s': State)
    requires Next(s, t, s') && InUnlock(s.At(t))
    ensures s'.At(t) == Outside || (InUnlock(s'.At(t)) && UnlockRank(s'.At(t)) < UnlockRank(s.At(t)))
    ensures !Blocked(s, t)
  {
    hide LockTo, TryLockTo, ScanTo, RegisterTo, ShareTo, UnshareTo, ExitTo;
    match s.At(t)
    case Unlock(UnlockNo) =>
    case Unlock(UnlockNotify) =>
    case Unlock(UnlockRelease) =>
    case Notify(_, NotifyTest) =>
    case Notify(_, NotifyOne) =>
    case Notify(_, NotifyClear) =>
  }

  lemma {:induction false} UnlockRun(states: seq<State>, who: seq<Thread>, t: Thread)
    requires Steps(states, who) && Reachable(states[0]) && InUnlock(states[0].At(t))
    requires forall i :: 0 <= i <= |who| ==> states[i].At(t) != Outside
    ensures OwnSteps(who, t) <= UnlockRank(states[0].At(t)) && InUnlock(states[|who|].At(t))
    decreases |who|
  {
    hide Next, Reachable, InUnlock, UnlockRank;
    if who != [] {
      ReachableStep(states[0], who[0], states[1]);
      assert Steps(states[1..], who[1..]);
      assert states[1].At(t) != Outside;
      if who[0] == t {
        UnlockFalls(states[0], t, states[1]);
      } else {
        OtherStays(states[0], who[0], states[1], t);
      }
      UnlockRun(states[1..], who[1..], t);
      assert states[1..][|who[1..]|] == states[|who|];
    }
  }

  /** Within six steps of its own a thread that calls `unlock` has returned, and none of them waits. */
  lemma UnlockReturns(states: seq<State>, who: seq<Thread>, t: Thread)
    requires Steps(states, who) && Reachable(states[0]) && states[0].At(t) == Unlock(UnlockNo)
    requires forall i :: 0 <= i <= |who| ==> states[i].At(t) != Outside
    ensures OwnSteps(who, t) <= 5 && !Blocked(states[|who|], t)
  {
    hide Reachable;
    UnlockRun(states, who, t);
  }
}
