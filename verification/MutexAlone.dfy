/** What a call of the mutex does when no other thread moves: how far it gets, and that it gets there. */
module MutexAlone {
  import opened Common
  import opened Mutex
  import opened MutexInv
  import opened MutexEffects
  import opened MutexList
  import opened MutexSteps
  import opened MutexSafety
  import opened MutexProgress
  import opened MutexReturns

  /** Whatever steps thread `t` alone makes from here, it comes to a statement in `goal` within `n` of them. */
  ghost predicate Ends(s: State, t: Thread, goal: set<PC>, n: nat)
    decreases n
  {
    || s.At(t) in goal
    || (n > 0 && (exists s' :: Next(s, t, s')) && forall s' :: Next(s, t, s') ==> Ends(s', t, goal, n - 1))
  }

  ghost predicate Reaches(s: State, t: Thread, goal: set<PC>) {
    exists n: nat :: Ends(s, t, goal, n)
  }

  /** Thread `t` alone can come to a statement in `goal` within `n` steps. */
  ghost predicate May(s: State, t: Thread, goal: set<PC>, n: nat)
    decreases n
  {
    s.At(t) in goal || (n > 0 && exists s' :: Next(s, t, s') && May(s', t, goal, n - 1))
  }

  lemma {:induction false} EndsMore(s: State, t: Thread, goal: set<PC>, m: nat, n: nat)
    requires Ends(s, t, goal, m) && m <= n
    ensures Ends(s, t, goal, n)
    decreases m
  {
    hide Next;
    if s.At(t) !in goal {
      forall s' | Next(s, t, s') ensures Ends(s', t, goal, n - 1) {
        EndsMore(s', t, goal, m - 1, n - 1);
      }
    }
  }

  lemma {:induction false} EndsMay(s: State, t: Thread, goal: set<PC>, n: nat)
    requires Ends(s, t, goal, n)
    ensures May(s, t, goal, n)
    decreases n
  {
    hide Next;
    if s.At(t) !in goal {
      var s' :| Next(s, t, s');
      EndsMay(s', t, goal, n - 1);
    }
  }

  // ---------------------------------------------------------------------------------------------
  // Nobody else is in the way

  /** In `try_lock`, which never waits. */
  predicate InTryLock(p: PC) {
    p.TryLock? || (p.Scan? && p.scanner == ForTryLock)
  }

  /** In `unlock_shared`, or in a `try_lock_shared` that failed. */
  predicate InLeave(p: PC) {
    p.Unshare? || (p.Scan? && p.scanner == ForUnlockShared) || (p.Notify? && p.notifier == FromUnlockShared)
  }

  /** About to load `uniq`, or before. */
  predicate BeforeLoad(p: PC) {
    p.Register? || (p.Share? && (p.h.SharedSet? || p.h.SharedLoad?))
  }

  predicate Waits(p: PC) {
    if p.Register? then p.wait else p.Share? && (p.h.SharedSet? || p.h.SharedLoad?) && p.h.blocking
  }

  /** The thread may need uniq_mtx before it comes to rest. */
  predicate NeedsMtx(p: PC, u: Unique) {
    if BeforeLoad(p) then u != No && Waits(p)
    else !AtClient(p) && !InTryLock(p) && !InUnlock(p) && !InLeave(p) && !p.Exit?
  }

  /** It may need the mutex of the list, or the list for itself. */
  predicate NeedsList(p: PC, u: Unique) {
    if p.Share? then BeforeLoad(p) && !p.h.blocking && u == Want
    else if p.Unshare? || (p.Notify? && p.notifier == FromUnlockShared) then u == Want
    else (p.Scan? && p.scanner != ForTryLock) || p.Lock? || p.Register? || p.Exit?
  }

  predicate NeedsAlone(p: PC) {
    p.Register? || p.Exit?
  }

  /** The internal mutexes that the thread may need are free or its own. */
  predicate Free(s: State, t: Thread) {
    var p := s.At(t);
    && (NeedsMtx(p, s.uniq) ==> s.mtx == None || s.mtx == Some(t))
    && (NeedsList(p, s.uniq) ==> s.listX == None || s.listX == Some(t))
    && (NeedsAlone(p) ==> s.listS <= {t})
  }

  // ---------------------------------------------------------------------------------------------
  // Where a thread comes to rest

  /** The flag of some thread at `ptr` or after is up. */
  ghost predicate FlagAhead(s: State, ptr: Option<Thread>) {
    exists v :: v in s.sharing && v in s.chain && Place(s.chain, ptr) <= Place(s.chain, Some(v))
  }

  /** The scan will have seen, or has seen, all flags down. */
  ghost predicate Clear(s: State, c: ScanPC) {
    match c
    case ScanAt(ptr) => !FlagAhead(s, ptr)
    case ScanLeave(clear) => clear
    case _ => s.sharing == {}
  }

  /** Before a writer is notified by a reader that leaves. */
  const NOTIFIES := Notify(FromUnlockShared, NotifyTest)

  function AfterLeave(s: State, t: Thread): PC {
    if s.uniq == Want && s.sharing - {t} == {} then NOTIFIES else Outside
  }

  ghost function ScanOutcome(s: State, k: Scanner, c: ScanPC): set<PC> {
    match k
    case ForLock => {if s.sharing == {} || Clear(s, c) then HoldsUnique else Lock(LockAsleep)}
    case ForTryLock =>
      if !Clear(s, c) then {Outside} else if c.ScanEnter? then {HoldsUnique, Outside} else {HoldsUnique}
    case ForUnlockShared => {if s.uniq == Want && Clear(s, c) then NOTIFIES else Outside}
  }

  function ShareOutcome(s: State, t: Thread, blocking: bool): PC {
    if s.uniq == No then HoldsShared else if blocking then Share(SharedAsleep) else AfterLeave(s, t)
  }

  /** Where thread `t` comes to rest. */
  ghost function Outcome(s: State, t: Thread): set<PC> {
    match s.At(t)
    case Lock(l) => {if s.sharing == {} || l.LockYes? then HoldsUnique else Lock(LockAsleep)}
    case TryLock(y) =>
      if y.TryYes? then {HoldsUnique}
      else if y.TryNo? || y.TryRelease? || s.sharing != {} then {Outside}
      else {HoldsUnique, Outside}
    case Unlock(_) => {Outside}
    case Scan(k, c) => ScanOutcome(s, k, c)
    case Notify(n, _) =>
      {if n == FromUnlock then Outside
       else if n == FromSharedWait then ShareOutcome(s, t, true)
       else AfterLeave(s, t)}
    case Register(b, r) =>
      {ShareOutcome(s, t, b)} + if r.RegEnter? && !b then {Outside} else {}
    case Share(h) =>
      {ShareOutcome(s, t, if h.SharedSet? || h.SharedLoad? then h.blocking else true)}
    case Unshare(_) => {AfterLeave(s, t)}
    case Exit(_) => {Outside}
    case p => {p}
  }

  /** How many steps it takes at most. */
  function AloneRank(s: State, t: Thread): int {
    var n, w := |s.chain|, s.uniq == Want;
    match s.At(t)
    case Lock(LockYes) => 1
    case Lock(LockWait) => if s.sharing == {} then n + 18 else 1
    case Lock(LockAsleep) => n + 17
    case Lock(LockWant) => n + 15
    case Lock(_) => n + 16
    case TryLock(TryAcquire) => n + 16
    case TryLock(TryWant) => n + 15
    case TryLock(TryNo) => 2
    case TryLock(_) => 1
    case Unlock(UnlockNo) => 6
    case Unlock(UnlockNotify) => 5
    case Unlock(UnlockRelease) => 4
    case Scan(_, ScanEnter) => n + 11
    case Scan(k, ScanLeave(clear)) => if k == ForLock && !clear && s.sharing == {} then n + 19 else 8
    case Scan(_, _) => 8 + Rank(s, t)
    case Notify(k, NotifyTest) =>
      if k == FromUnlock then 3 else if k == FromSharedWait then 5 else if w then n + 15 else 7
    case Notify(k, NotifyOne) =>
      if k == FromUnlock then 2 else if k == FromSharedWait then 4 else if w then n + 14 else 6
    case Notify(k, NotifyClear) =>
      if k == FromUnlock then 1 else if k == FromSharedWait then 3 else if w then n + 13 else 5
    case Register(_, RegEnter) => n + 46
    case Register(_, RegTest) => n + 44
    case Register(_, RegLink) => n + 42
    case Register(_, RegHead) => n + 40
    case Register(_, RegData) => n + 36
    case Register(_, RegLeave) => n + 34
    case Share(SharedSet(_)) => n + 26
    case Share(SharedLoad(_)) => n + 25
    case Share(SharedAsleep) => 10
    case Share(SharedReacquire) => 9
    case Share(SharedReset) => 8
    case Share(SharedAcquire) => 8
    case Share(SharedTest) => 7
    case Share(SharedClear) => 6
    case Share(SharedWait) => 2
    case Share(SharedRelease) => 1
    case Unshare(FlagClear(_)) => n + 24
    case Unshare(LoadUniq) => n + 23
    case Unshare(LoadUniqAgain) => if w then n + 12 else 4
    case Exit(ExitTest) => n + 20
    case Exit(ExitEnter) => n + 10
    case Exit(_) => 1 + Rank(s, t)
    case _ => 0
  }

  ghost predicate Advances(s: State, t: Thread, s': State) {
    || s'.At(t) in Outcome(s, t)
    || (Outcome(s', t) <= Outcome(s, t) && AloneRank(s', t) < AloneRank(s, t))
  }

  /** A thread whose flag is up is on the list. */
  lemma FlagRole(p: PC)
    requires RoleOf(p).flag
    ensures RoleOf(p).reg == Some(true) && !p.Exit?
  {
  }

  lemma FlagListed(s: State, v: Thread)
    requires Inv(s) && v in s.sharing
    ensures v in s.chain
  {
    assert RoleAt(s, v).flag && Knows(RoleAt(s, v), v in s.data);
    FlagRole(s.At(v));
    hide RoleOf;
  }

  /** What the invariant says of a thread and what it depends on. */
  ghost predicate Settled(s: State, t: Thread) {
    && Fits(RoleAt(s, t), s.uniq) && (RoleAt(s, t).flag <==> t in s.sharing)
    && (s.uniq == Yes ==> IsUnique(s.At(t)) || (s.mtx != None && s.mtx != Some(t)))
    && (forall v :: v in s.sharing ==> v in s.chain) && Threaded(s.head, s.link, s.chain) && NoDup(s.chain)
    && WalkOk(s.At(t), t, s)
  }

  lemma Settles(s: State, t: Thread)
    requires Inv(s)
    ensures Settled(s, t)
  {
    forall v | v in s.sharing ensures v in s.chain {
      FlagListed(s, v);
    }
    if s.uniq == Yes && s.mtx == Some(t) {
      OnlyUniqueClaimsYes(s.At(t));
    }
    hide RoleOf, Threaded, NoDup;
  }

  lemma LockAdvances(s: State, t: Thread, s': State)
    requires LockStep(s, t, s')
    ensures Advances(s, t, s')
  {
    hide Rank;
    match s.At(t).l
    case LockAcquire =>
    case LockWant =>
    case LockYes =>
    case LockWait =>
    case LockAsleep =>
    case LockReacquire =>
  }

  lemma TryLockAdvances(s: State, t: Thread, s': State)
    requires TryLockStep(s, t, s')
    ensures Advances(s, t, s')
  {
    hide Rank;
    match s.At(t).y
    case TryAcquire =>
    case TryWant =>
    case TryNo =>
    case TryRelease =>
    case TryYes =>
  }

  lemma UnlockAdvances(s: State, t: Thread, s': State)
    requires UnlockStep(s, t, s')
    ensures Advances(s, t, s')
  {
    match s.At(t).u
    case UnlockNo =>
    case UnlockNotify =>
    case UnlockRelease =>
  }

  lemma NotifyAdvances(s: State, t: Thread, s': State)
    requires NotifyStep(s, t, s') && Settled(s, t)
    ensures Advances(s, t, s')
  {
    hide Rank, Threaded, NoDup, WalkOk;
    match s.At(t)
    case Notify(FromUnlock, _) =>
    case Notify(FromSharedWait, _) =>
    case Notify(FromUnlockShared, _) =>
  }

  lemma ShareAdvances(s: State, t: Thread, s': State)
    requires ShareStep(s, t, s') && BeforeLoad(s.At(t)) && Settled(s, t) && Free(s, t)
    ensures Advances(s, t, s')
  {
    hide Rank, Threaded, NoDup, WalkOk;
    match s.At(t).h
    case SharedSet(_) =>
    case SharedLoad(_) =>
  }

  lemma SleepAdvances(s: State, t: Thread, s': State)
    requires ShareStep(s, t, s') && !BeforeLoad(s.At(t)) && Settled(s, t)
    ensures Advances(s, t, s')
  {
    hide Rank, Threaded, NoDup, WalkOk;
    match s.At(t).h
    case SharedAcquire =>
    case SharedTest =>
    case SharedClear =>
    case SharedWait =>
    case SharedAsleep =>
    case SharedReacquire =>
    case SharedReset =>
    case SharedRelease =>
  }

  lemma UnshareAdvances(s: State, t: Thread, s': State)
    requires UnshareStep(s, t, s') && Settled(s, t)
    ensures Advances(s, t, s')
  {
    hide Rank, Threaded, NoDup, WalkOk;
    match s.At(t).v
    case FlagClear(_) =>
    case LoadUniq =>
    case LoadUniqAgain =>
  }

  lemma RegisterAdvances(s: State, t: Thread, s': State)
    requires RegisterStep(s, t, s')
    ensures Advances(s, t, s')
  {
    hide Rank;
    match s.At(t).r
    case RegEnter =>
    case RegTest =>
    case RegLink =>
    case RegHead =>
    case RegData =>
    case RegLeave =>
  }

  /** Past an entry whose flag is down the flags ahead are the same. */
  lemma FlagPast(s: State, v: Thread)
    requires Threaded(s.head, s.link, s.chain) && NoDup(s.chain) && v in s.chain
    ensures v in s.sharing ==> FlagAhead(s, Some(v))
    ensures v !in s.sharing ==> (FlagAhead(s, Some(v)) <==> FlagAhead(s, s.LinkOf(v)))
  {
    NextPlace(s, v);
    hide Threaded, NoDup, Place;
    if v !in s.sharing && FlagAhead(s, Some(v)) {
      var u :| u in s.sharing && u in s.chain && Place(s.chain, Some(v)) <= Place(s.chain, Some(u));
      PlaceOf(s.chain, u);
      PlaceOf(s.chain, v);
      assert Place(s.chain, Some(v)) != Place(s.chain, Some(u));
    }
  }

  lemma FlagEnds(s: State)
    requires forall v :: v in s.sharing ==> v in s.chain
    requires Threaded(s.head, s.link, s.chain)
    ensures !FlagAhead(s, None) && (FlagAhead(s, s.head) <==> s.sharing != {})
  {
    HeadPlace(s);
    forall v ensures v in s.chain ==> Place(s.chain, Some(v)) < |s.chain| {
      PlaceOf(s.chain, v);
    }
    hide Threaded, Place;
    if s.sharing != {} {
      var v :| v in s.sharing;
      assert v in s.chain;
    }
  }

  lemma ScanPasses(s: State, t: Thread, s': State)
    requires ScanStep(s, t, s') && Settled(s, t) && s.At(t).c.ScanAt? && Rank(s', t) < Rank(s, t)
    ensures Advances(s, t, s')
  {
    var ptr := s.At(t).c.ptr;
    FlagEnds(s);
    if ptr.Some? {
      FlagPast(s, ptr.value);
    }
    assert s'.At(t).c.ScanAt? ==> (FlagAhead(s', s'.At(t).c.ptr) <==> FlagAhead(s, ptr));
    hide Threaded, NoDup, WalkOk, FlagAhead;
  }

  lemma ScanAdvances(s: State, t: Thread, s': State)
    requires Reachable(s) && Next(s, t, s') && ScanStep(s, t, s') && Settled(s, t)
    ensures Advances(s, t, s')
  {
    hide Reachable, Next;
    if s.At(t).c.ScanAt? {
      ScanHolds(s.At(t).scanner, s.At(t).c);
      RankFalls(s, t, s');
      ScanAtHolds(s, t, s');
      ScanPasses(s, t, s');
    } else {
      FlagEnds(s);
      ScanTurns(s, t, s');
    }
  }

  lemma ScanTurns(s: State, t: Thread, s': State)
    requires ScanStep(s, t, s') && !s.At(t).c.ScanAt? && (FlagAhead(s, s.head) <==> s.sharing != {})
    ensures Advances(s, t, s')
  {
    hide Place;
    match s.At(t).c
    case ScanEnter =>
    case ScanHead => assert FlagAhead(s', s'.At(t).c.ptr) <==> FlagAhead(s, s.head);
    case ScanLeave(_) =>
  }

  lemma ScanHolds(k: Scanner, c: ScanPC)
    ensures !c.ScanEnter? ==> HoldsList(Scan(k, c))
  {
  }

  lemma ScanAtHolds(s: State, t: Thread, s': State)
    requires ScanStep(s, t, s') && s.At(t).c.ScanAt?
    ensures HoldsList(s'.At(t))
  {
  }

  lemma ExitAdvances(s: State, t: Thread, s': State)
    requires Reachable(s) && Next(s, t, s') && ExitStep(s, t, s')
    ensures Advances(s, t, s')
  {
    hide Reachable, Next;
    if HoldsList(s.At(t)) {
      RankFalls(s, t, s');
      hide Rank;
    }
    match s.At(t).e
    case ExitTest =>
    case ExitEnter =>
    case ExitWalk(_) =>
    case ExitUnlink(_) =>
    case ExitLeave =>
  }

  /** Every own step brings the thread closer to where it comes to rest. */
  lemma AloneAdvances(s: State, t: Thread, s': State)
    requires Reachable(s) && Next(s, t, s') && Free(s, t) && !AtClient(s.At(t))
    ensures Advances(s, t, s')
  {
    ReachableInv(s);
    Settles(s, t);
    hide Reachable, Inv, Settled, Free, Advances;
    hide LockTo, TryLockTo, UnlockTo, ScanTo, NotifyTo, RegisterTo, ShareTo, UnshareTo, ExitTo;
    match s.At(t)
    case Lock(_) => LockAdvances(s, t, s');
    case TryLock(_) => TryLockAdvances(s, t, s');
    case Unlock(_) => UnlockAdvances(s, t, s');
    case Scan(_, _) => ScanAdvances(s, t, s');
    case Notify(_, _) => NotifyAdvances(s, t, s');
    case Register(_, _) => RegisterAdvances(s, t, s');
    case Share(_) =>
      if BeforeLoad(s.At(t)) {
        ShareAdvances(s, t, s');
      } else {
        SleepAdvances(s, t, s');
      }
    case Unshare(_) => UnshareAdvances(s, t, s');
    case Exit(_) => ExitAdvances(s, t, s');
  }

  /** What a thread needs after a step it has needed before. */
  predicate NeedsLess(s: State, t: Thread, s': State) {
    var p, p' := s.At(t), s'.At(t);
    && (NeedsMtx(p', s'.uniq) ==> NeedsMtx(p, s.uniq)) && (NeedsList(p', s'.uniq) ==> NeedsList(p, s.uniq))
    && (NeedsAlone(p') ==> NeedsAlone(p))
  }

  lemma WriterNeeds(s: State, t: Thread, s': State)
    requires LockStep(s, t, s') || TryLockStep(s, t, s') || UnlockStep(s, t, s')
    ensures NeedsLess(s, t, s')
  {
    match s.At(t)
    case Lock(LockAcquire) =>
    case Lock(LockWant) =>
    case Lock(LockYes) =>
    case Lock(LockWait) =>
    case Lock(LockAsleep) =>
    case Lock(LockReacquire) =>
    case TryLock(TryAcquire) =>
    case TryLock(TryWant) =>
    case TryLock(TryNo) =>
    case TryLock(TryRelease) =>
    case TryLock(TryYes) =>
    case Unlock(UnlockNo) =>
    case Unlock(UnlockNotify) =>
    case Unlock(UnlockRelease) =>
  }

  lemma ShareNeeds(s: State, t: Thread, s': State)
    requires ShareStep(s, t, s')
    ensures NeedsLess(s, t, s')
  {
    match s.At(t).h
    case SharedSet(_) =>
    case SharedLoad(_) =>
    case SharedAcquire =>
    case SharedTest =>
    case SharedClear =>
    case SharedWait =>
    case SharedAsleep =>
    case SharedReacquire =>
    case SharedReset =>
    case SharedRelease =>
  }

  lemma UnshareNeeds(s: State, t: Thread, s': State)
    requires UnshareStep(s, t, s')
    ensures NeedsLess(s, t, s')
  {
    match s.At(t).v
    case FlagClear(_) =>
    case LoadUniq =>
    case LoadUniqAgain =>
  }

  lemma ScanNeeds(s: State, t: Thread, s': State)
    requires ScanStep(s, t, s') || NotifyStep(s, t, s')
    ensures NeedsLess(s, t, s')
  {
    match s.At(t)
    case Scan(_, ScanEnter) =>
    case Scan(_, ScanHead) =>
    case Scan(_, ScanAt(_)) =>
    case Scan(_, ScanLeave(_)) =>
    case Notify(_, NotifyTest) =>
    case Notify(_, NotifyOne) =>
    case Notify(_, NotifyClear) =>
  }

  lemma ListNeeds(s: State, t: Thread, s': State)
    requires RegisterStep(s, t, s') || ExitStep(s, t, s')
    ensures NeedsLess(s, t, s')
  {
    match s.At(t)
    case Register(_, RegEnter) =>
    case Register(_, RegTest) =>
    case Register(_, RegLink) =>
    case Register(_, RegHead) =>
    case Register(_, RegData) =>
    case Register(_, RegLeave) =>
    case Exit(ExitTest) =>
    case Exit(ExitEnter) =>
    case Exit(ExitWalk(_)) =>
    case Exit(ExitUnlink(_)) =>
    case Exit(ExitLeave) =>
  }

  lemma NeedsStep(s: State, t: Thread, s': State)
    requires Next(s, t, s') && !AtClient(s.At(t))
    ensures NeedsLess(s, t, s')
  {
    hide NeedsLess, LockTo, TryLockTo, UnlockTo, ScanTo, NotifyTo, RegisterTo, ShareTo, UnshareTo, ExitTo;
    match s.At(t)
    case Lock(_) => WriterNeeds(s, t, s');
    case TryLock(_) => WriterNeeds(s, t, s');
    case Unlock(_) => WriterNeeds(s, t, s');
    case Share(_) => ShareNeeds(s, t, s');
    case Unshare(_) => UnshareNeeds(s, t, s');
    case Scan(_, _) => ScanNeeds(s, t, s');
    case Notify(_, _) => ScanNeeds(s, t, s');
    case Register(_, _) => ListNeeds(s, t, s');
    case Exit(_) => ListNeeds(s, t, s');
  }

  lemma FreeStep(s: State, t: Thread, s': State)
    requires Reachable(s) && Next(s, t, s') && Free(s, t) && !AtClient(s.At(t))
    ensures Free(s', t)
  {
    hide Next, Reachable, NeedsMtx, NeedsList, NeedsAlone, RoleOf;
    NeedsStep(s, t, s');
    ReachableInv(s);
    InvReady(s, t);
    StepEffects(s, t, s');
    hide Inv;
  }

  /** Where a thread waits for an internal mutex it does not own it. */
  lemma WaitRoles(p: PC)
    ensures WaitsForUniqMtx(p) ==> !RoleOf(p).mtx && forall u: Unique :: NeedsMtx(p, u)
    ensures
      || (p.Scan? && p.c.ScanEnter? && p.scanner != ForTryLock)
      || (p.Register? && p.r.RegEnter?)
      || (p.Exit? && p.e.ExitEnter?)
      ==> RoleOf(p).list == Nothing && forall u: Unique :: NeedsList(p, u)
  {
  }

  lemma FreeRuns(s: State, t: Thread)
    requires Reachable(s) && Free(s, t)
    ensures !Blocked(s, t)
  {
    hide Reachable;
    ReachableInv(s);
    WaitRoles(s.At(t));
    assert s.mtx == Some(t) ==> RoleAt(s, t).mtx;
    assert s.listX == Some(t) ==> RoleAt(s, t).list == Writing;
    assert t in s.listS ==> RoleAt(s, t).list == Reading;
    hide Inv, RoleOf, NeedsMtx, NeedsList;
  }

  lemma AloneBound(s: State, t: Thread)
    requires Reachable(s)
    ensures if AtClient(s.At(t)) then AloneRank(s, t) == 0 else AloneRank(s, t) > 0
  {
    hide Reachable;
    ReachableInv(s);
    RankBound(s, t);
    hide Inv, Rank;
  }

  /** Left alone, with the internal mutexes it may need free, a thread comes to rest as foretold. */
  lemma {:induction false} AloneEnds(s: State, t: Thread, goal: set<PC>)
    requires Reachable(s) && t in s.pc && Free(s, t) && Outcome(s, t) <= goal
    ensures AloneRank(s, t) >= 0 && Ends(s, t, goal, AloneRank(s, t))
    decreases AloneRank(s, t)
  {
    hide Next, Reachable, Free, AloneRank, Blocked;
    AloneBound(s, t);
    AtRest(s, t);
    if s.At(t) !in goal {
      hide Outcome;
      FreeRuns(s, t);
      CanUnlessBlocked(s, t);
      forall s' | Next(s, t, s') ensures Ends(s', t, goal, AloneRank(s, t) - 1) {
        AloneAdvances(s, t, s');
        ReachableStep(s, t, s');
        AloneBound(s', t);
        if s'.At(t) in goal {
        } else {
          FreeStep(s, t, s');
          AtRest(s', t);
          assert t in s'.pc;
          AloneEnds(s', t, goal);
          EndsMore(s', t, goal, AloneRank(s', t), AloneRank(s, t) - 1);
        }
      }
    }
  }

  lemma AtRest(s: State, t: Thread)
    ensures AtClient(s.At(t)) ==> s.At(t) in Outcome(s, t)
  {
  }

  lemma Comes(s: State, t: Thread, goal: set<PC>)
    requires Reachable(s) && t in s.pc && Free(s, t) && Outcome(s, t) <= goal
    ensures Reaches(s, t, goal)
  {
    hide Reachable, Free, Outcome, AloneRank, Ends;
    AloneEnds(s, t, goal);
    assert AloneRank(s, t) >= 0;
  }

  // ---------------------------------------------------------------------------------------------
  // The calls, when nobody else moves; `s.Go(t, ...)` is the state after the call

  /** `lock` gets the lock if no flag is up, and goes to sleep if one is. */
  lemma LockAlone(s: State, t: Thread)
    requires Reachable(s) && t in s.pc && s.At(t) == Outside && s.mtx == None && s.listX == None
    ensures
      var s1 := s.Go(t, Lock(LockAcquire));
      && Next(s, t, s1)
      && Reaches(s1, t, {if s.sharing == {} then HoldsUnique else Lock(LockAsleep)})
  {
    hide Reachable, Reaches;
    var s1 := s.Go(t, Lock(LockAcquire));
    ReachableStep(s, t, s1);
    hide Next;
    Comes(s1, t, {if s.sharing == {} then HoldsUnique else Lock(LockAsleep)});
  }

  /** From anywhere inside `lock`, also from its sleep, the thread gets the lock once no flag is up. */
  lemma LockGoesOn(s: State, t: Thread)
    requires Reachable(s) && t in s.pc && (s.At(t).Lock? || (s.At(t).Scan? && s.At(t).scanner == ForLock))
    requires (s.mtx == None || s.mtx == Some(t)) && (s.listX == None || s.listX == Some(t)) && s.sharing == {}
    ensures Reaches(s, t, {HoldsUnique})
  {
    hide Reachable, Reaches;
    Comes(s, t, {HoldsUnique});
  }

  /** `try_lock` returns from every state: without the lock if a flag is up or uniq_mtx is taken, and with or without it
      otherwise. */
  lemma TryLockAlone(s: State, t: Thread)
    requires Reachable(s) && t in s.pc && s.At(t) == Outside
    ensures
      var s1 := s.Go(t, TryLock(TryAcquire));
      && Next(s, t, s1)
      && Reaches(s1, t, if s.sharing == {} && s.mtx == None then {HoldsUnique, Outside} else {Outside})
  {
    hide Reachable;
    var s1 := s.Go(t, TryLock(TryAcquire));
    ReachableStep(s, t, s1);
    if s.mtx == None || s.sharing != {} {
      hide Next;
      Comes(s1, t, if s.sharing == {} && s.mtx == None then {HoldsUnique, Outside} else {Outside});
    } else {
      TryLockTaken(s1, t);
    }
  }

  lemma TryLockTaken(s: State, t: Thread)
    requires t in s.pc && s.At(t) == TryLock(TryAcquire) && s.mtx != None
    ensures Reaches(s, t, {Outside})
  {
    assert Next(s, t, s.Go(t, Outside));
    forall s' | Next(s, t, s') ensures Ends(s', t, {Outside}, 0) {
      assert s' == s.Go(t, Outside);
    }
    assert Ends(s, t, {Outside}, 1);
  }

  /** And it may get the lock if no flag is up and the internal mutexes are free. */
  lemma TryLockMay(s: State, t: Thread)
    requires Reachable(s) && t in s.pc && s.At(t) == Outside && s.mtx == None && s.listX == None && s.sharing == {}
    ensures exists n: nat :: May(s.Go(t, TryLock(TryAcquire)), t, {HoldsUnique}, n)
  {
    hide Reachable;
    var s1 := s.Go(t, TryLock(TryAcquire));
    var s2, s3 := TryLockTo(s1, t), TryLockTo(TryLockTo(s1, t), t);
    var s4 := ScanTo(s3, t);
    ReachableStep(s, t, s1);
    ReachableStep(s1, t, s2);
    ReachableStep(s2, t, s3);
    ReachableStep(s3, t, s4);
    hide Next, TryLockTo, ScanTo, Reaches;
    Comes(s4, t, {HoldsUnique});
    MayFrom(s1, s2, s3, s4, t);
  }

  lemma MayFrom(s1: State, s2: State, s3: State, s4: State, t: Thread)
    requires Next(s1, t, s2) && Next(s2, t, s3) && Next(s3, t, s4) && Reaches(s4, t, {HoldsUnique})
    ensures exists n: nat :: May(s1, t, {HoldsUnique}, n)
  {
    MayNext(s3, s4, t, {HoldsUnique});
    hide Next;
    var n: nat :| May(s3, t, {HoldsUnique}, n);
    assert May(s2, t, {HoldsUnique}, n + 1);
    assert May(s1, t, {HoldsUnique}, n + 2);
  }

  /** `unlock` returns, whatever state the rest is in. */
  lemma UnlockAlone(s: State, t: Thread)
    requires Reachable(s) && t in s.pc && s.At(t) == HoldsUnique
    ensures var s1 := s.Go(t, Unlock(UnlockNo)); Next(s, t, s1) && Reaches(s1, t, {Outside})
  {
    hide Reachable, Reaches;
    var s1 := s.Go(t, Unlock(UnlockNo));
    ReachableStep(s, t, s1);
    hide Next;
    Comes(s1, t, {Outside});
  }

  /** How a call of `lock_shared` or `try_lock_shared` begins. */
  function ShareCall(s: State, t: Thread, blocking: bool): State {
    s.Go(t, if t in s.data then Share(SharedSet(blocking)) else Register(blocking, RegEnter))
  }

  /** `lock_shared` gets the lock if `uniq` is `no`, and goes to sleep if it is `want`. */
  lemma LockSharedAlone(s: State, t: Thread)
    requires Reachable(s) && t in s.pc && s.At(t) == Outside && s.listX == None && s.listS == {}
    requires s.uniq != No ==> s.mtx == None
    ensures
      var s1 := ShareCall(s, t, true);
      Next(s, t, s1) && Reaches(s1, t, {if s.uniq == No then HoldsShared else Share(SharedAsleep)})
  {
    hide Reachable, Reaches;
    var s1 := ShareCall(s, t, true);
    ReachableStep(s, t, s1);
    hide Next;
    Comes(s1, t, {if s.uniq == No then HoldsShared else Share(SharedAsleep)});
  }

  /** From anywhere inside `lock_shared`, also from its sleep, the thread gets the lock once `uniq` is `no`. */
  lemma LockSharedGoesOn(s: State, t: Thread)
    requires Reachable(s) && t in s.pc && Results(s.At(t)) == {HoldsShared} && s.uniq == No
    requires (s.mtx == None || s.mtx == Some(t)) && (s.listX == None || s.listX == Some(t)) && s.listS <= {t}
    ensures Reaches(s, t, {HoldsShared})
  {
    hide Reachable, Reaches;
    Comes(s, t, {HoldsShared});
  }

  /** `try_lock_shared` of a registered thread gets the lock exactly if `uniq` is `no`; otherwise it returns, or if no
      other flag is up tries to notify a writer that wants the lock. */
  lemma TryLockSharedAlone(s: State, t: Thread)
    requires Reachable(s) && t in s.pc && s.At(t) == Outside && t in s.data
    requires s.uniq == Want ==> s.listX == None
    ensures
      var s1 := ShareCall(s, t, false);
      && Next(s, t, s1)
      && Reaches(s1, t, {if s.uniq == No then HoldsShared
                         else if s.uniq == Want && s.sharing - {t} == {} then NOTIFIES
                         else Outside})
  {
    hide Reachable, Reaches;
    var s1 := ShareCall(s, t, false);
    ReachableStep(s, t, s1);
    hide Next;
    Comes(s1, t, {if s.uniq == No then HoldsShared
                  else if s.uniq == Want && s.sharing - {t} == {} then NOTIFIES
                  else Outside});
  }

  /** That of a thread that has to register first may also fail to do so. */
  lemma TryLockSharedNew(s: State, t: Thread)
    requires Reachable(s) && t in s.pc && s.At(t) == Outside && t !in s.data && s.uniq == No
    requires s.listX == None && s.listS == {}
    ensures
      var s1 := ShareCall(s, t, false);
      && Next(s, t, s1) && Reaches(s1, t, {HoldsShared, Outside})
      && exists n: nat :: May(s1, t, {HoldsShared}, n)
  {
    hide Reachable;
    var s1 := ShareCall(s, t, false);
    var s2 := RegisterTo(s1, t);
    ReachableStep(s, t, s1);
    ReachableStep(s1, t, s2);
    hide Next, RegisterTo, Reaches;
    Comes(s1, t, {HoldsShared, Outside});
    Comes(s2, t, {HoldsShared});
    MayNext(s1, s2, t, {HoldsShared});
  }

  lemma MayNext(s: State, s': State, t: Thread, goal: set<PC>)
    requires Next(s, t, s') && Reaches(s', t, goal)
    ensures exists n: nat :: May(s, t, goal, n)
  {
    hide Next;
    var n: nat :| Ends(s', t, goal, n);
    EndsMay(s', t, goal, n);
    assert May(s, t, goal, n + 1);
  }

  /** `unlock_shared` returns if `uniq` is not `want` or another flag is up; otherwise it tries to notify a writer. */
  lemma UnlockSharedAlone(s: State, t: Thread)
    requires Reachable(s) && t in s.pc && s.At(t) == HoldsShared && (s.uniq == Want ==> s.listX == None)
    ensures
      var s1 := s.Go(t, Unshare(FlagClear(true)));
      && Next(s, t, s1)
      && Reaches(s1, t, {if s.uniq == Want && s.sharing - {t} == {} then NOTIFIES else Outside})
  {
    hide Reachable, Reaches;
    var s1 := s.Go(t, Unshare(FlagClear(true)));
    ReachableStep(s, t, s1);
    hide Next;
    Comes(s1, t, {if s.uniq == Want && s.sharing - {t} == {} then NOTIFIES else Outside});
  }

  /** A notification does not end it: it notifies again until `uniq` is not `want` or a flag is up, and then returns. */
  lemma UnlockSharedRepeats(s: State, t: Thread, s': State)
    requires Reachable(s) && t in s.pc && s.At(t) == NOTIFIES && Next(s, t, s') && (s.uniq == Want ==> s.listX == None)
    ensures Reaches(s', t, {if s.uniq == Want && s.sharing - {t} == {} then NOTIFIES else Outside})
  {
    hide Reachable, Reaches;
    ReachableStep(s, t, s');
    Comes(s', t, {if s.uniq == Want && s.sharing - {t} == {} then NOTIFIES else Outside});
  }

  /** And from anywhere inside it returns once `uniq` is not `want`. */
  lemma UnlockSharedGoesOn(s: State, t: Thread)
    requires Reachable(s) && t in s.pc && InLeave(s.At(t)) && s.uniq != Want
    requires s.listX == None || s.listX == Some(t)
    ensures Reaches(s, t, {Outside})
  {
    hide Reachable, Reaches;
    Comes(s, t, {Outside});
  }

  /** A thread that ends leaves the list, if it is on it. */
  lemma ExitAlone(s: State, t: Thread)
    requires Reachable(s) && t in s.pc && s.At(t) == Outside && s.listX == None && s.listS == {}
    ensures var s1 := s.Go(t, Exit(ExitTest)); Next(s, t, s1) && Reaches(s1, t, {Outside})
  {
    hide Reachable, Reaches;
    var s1 := s.Go(t, Exit(ExitTest));
    ReachableStep(s, t, s1);
    hide Next;
    Comes(s1, t, {Outside});
  }
}
