/** The internal mutexes of the mutex cannot deadlock, and its walks along the list come to an end. */
module MutexProgress {
  import opened Common
  import opened Mutex
  import opened MutexInv
  import opened MutexEffects
  import opened MutexList
  import opened MutexPaths
  import opened MutexSteps
  import opened MutexSafety

  // ---------------------------------------------------------------------------------------------
  // Waiting for the internal mutexes

  predicate WaitsForUniqMtx(p: PC) {
    p == Lock(LockAcquire) || p == Lock(LockReacquire) || p == Share(SharedAcquire) || p == Share(SharedReacquire)
  }

  predicate BlockedOnList(s: State, t: Thread) {
    var p := s.At(t);
    || (s.listX.Some? && p.Scan? && p.c == ScanEnter && p.scanner != ForTryLock)
    || ((s.listX.Some? || s.listS != {}) && (p == Register(true, RegEnter) || p == Exit(ExitEnter)))
  }

  predicate Blocked(s: State, t: Thread) {
    (s.mtx.Some? && WaitsForUniqMtx(s.At(t))) || BlockedOnList(s, t)
  }

  lemma Can(s: State, t: Thread) returns (s': State)
    requires t in s.pc && !Blocked(s, t)
    ensures Next(s, t, s')
  {
    hide LockTo, TryLockTo, UnlockTo, ScanTo, NotifyTo, RegisterTo, ShareTo, UnshareTo, ExitTo;
    match s.At(t)
    case Outside => s' := s.Go(t, Lock(LockAcquire));
    case HoldsUnique => s' := s.Go(t, Unlock(UnlockNo));
    case HoldsShared => s' := s.Go(t, Unshare(FlagClear(true)));
    case Lock(_) => s' := LockTo(s, t);
    case TryLock(y) => s' := if y.TryAcquire? then s.Go(t, Outside) else TryLockTo(s, t);
    case Unlock(_) => s' := UnlockTo(s, t);
    case Scan(k, c) => s' := if k == ForTryLock && c.ScanEnter? then s.Go(t, TryLock(TryNo)) else ScanTo(s, t);
    case Notify(_, _) => s' := NotifyTo(s, t);
    case Register(b, r) => s' := if !b && r.RegEnter? then s.Go(t, Outside) else RegisterTo(s, t);
    case Share(_) => s' := ShareTo(s, t);
    case Unshare(_) => s' := UnshareTo(s, t);
    case Exit(_) => s' := ExitTo(s, t);
  }

  /** A thread can make a step exactly when it does not wait for an internal mutex that is taken. */
  lemma CanUnlessBlocked(s: State, t: Thread)
    requires t in s.pc
    ensures (exists s' :: Next(s, t, s')) <==> !Blocked(s, t)
  {
    if Blocked(s, t) {
      forall s' ensures !Next(s, t, s') {
      }
    } else {
      var s' := Can(s, t);
    }
  }

  // ---------------------------------------------------------------------------------------------
  // No deadlock

  /** Inside the code of the mutex and not asleep on a condition. */
  predicate AtWork(p: PC) {
    !p.Outside? && !p.HoldsUnique? && !p.HoldsShared? && p != Lock(LockAsleep) && p != Share(SharedAsleep)
  }

  lemma HoldingRoles(p: PC)
    ensures RoleOf(p).list != Nothing ==>
              AtWork(p) && !WaitsForUniqMtx(p) && !(p.Scan? && p.c == ScanEnter) && !(p.Register? && p.r == RegEnter)
              && p != Exit(ExitEnter)
    ensures RoleOf(p).mtx ==> p == HoldsUnique || (AtWork(p) && !WaitsForUniqMtx(p))
  {
  }

  /** No thread that holds the mutex of the list waits, least of all for uniq_mtx. */
  lemma ListHolderRuns(s: State, u: Thread)
    requires Reachable(s) && (s.listX == Some(u) || u in s.listS)
    ensures AtWork(s.At(u)) && !Blocked(s, u)
  {
    ReachableInv(s);
    HoldingRoles(s.At(u));
    hide RoleOf, MtxInv, FlagInv, NotifyInv, UniqInv, DataInv, ChainInv, WalkInv, DekkerInv;
    assert RoleAt(s, u).list != Nothing;
  }

  /** Thread `t` cannot step before `u` gives up an internal mutex. */
  predicate WaitsFor(s: State, t: Thread, u: Thread) {
    || (WaitsForUniqMtx(s.At(t)) && s.mtx == Some(u))
    || (BlockedOnList(s, t) && (s.listX == Some(u) || u in s.listS))
  }

  /** A blocked thread waits for some thread. */
  lemma Awaited(s: State, t: Thread) returns (u: Thread)
    requires Blocked(s, t)
    ensures WaitsFor(s, t, u)
  {
    if BlockedOnList(s, t) {
      u := if s.listX.Some? then s.listX.value else var v :| v in s.listS; v;
    } else {
      u := s.mtx.value;
    }
  }

  /** Whoever is waited for is a client that holds the lock unique, or inside the code of the mutex; and it waits itself
      at most for the mutex of the list, whose holders do not wait. */
  lemma AwaitedRuns(s: State, t: Thread, u: Thread)
    requires Reachable(s) && WaitsFor(s, t, u)
    ensures u in s.pc && u != t && ((s.At(u) == HoldsUnique && s.mtx == Some(u)) || AtWork(s.At(u)))
    ensures BlockedOnList(s, t) ==> AtWork(s.At(u)) && !Blocked(s, u)
    ensures Blocked(s, u) ==> WaitsForUniqMtx(s.At(t)) && BlockedOnList(s, u)
  {
    ReachableInv(s);
    HoldingRoles(s.At(u));
    HoldingRoles(s.At(t));
    if BlockedOnList(s, t) && (s.listX == Some(u) || u in s.listS) {
      ListHolderRuns(s, u);
      assert RoleAt(s, u).list != Nothing;
    } else {
      assert RoleAt(s, u).mtx;
    }
    hide RoleOf, AtWork, ListLockInv, FlagInv, NotifyInv, UniqInv, DataInv, ChainInv, WalkInv, DekkerInv;
  }

  /** A blocked thread waits for some thread, and if that waits too, for one that does not: so no threads wait for each
      other, and some thread waited for can step, which is inside the code of the mutex or holds the lock unique. */
  lemma NoDeadlock(s: State, t: Thread)
    requires Reachable(s) && Blocked(s, t)
    ensures exists u: Thread :: WaitsFor(s, t, u)
    ensures forall u: Thread, v: Thread :: WaitsFor(s, t, u) && Blocked(s, u) && WaitsFor(s, u, v) ==> !Blocked(s, v)
    ensures exists u: Thread ::
              && (WaitsFor(s, t, u) || exists v: Thread :: WaitsFor(s, t, v) && Blocked(s, v) && WaitsFor(s, v, u))
              && u in s.pc && !Blocked(s, u) && ((s.At(u) == HoldsUnique && s.mtx == Some(u)) || AtWork(s.At(u)))
  {
    hide Reachable, WaitsFor, Blocked, BlockedOnList, AtWork, WaitsForUniqMtx;
    forall u: Thread, v: Thread | WaitsFor(s, t, u) && Blocked(s, u) && WaitsFor(s, u, v) ensures !Blocked(s, v) {
      AwaitedRuns(s, t, u);
      AwaitedRuns(s, u, v);
    }
    var u := Awaited(s, t);
    AwaitedRuns(s, t, u);
    if Blocked(s, u) {
      var v := Awaited(s, u);
      AwaitedRuns(s, u, v);
      assert WaitsFor(s, u, v);
    }
  }

  // ---------------------------------------------------------------------------------------------
  // The list and the walks along it

  /** The list is acyclic, without duplicates, and holds the registered threads when nobody is changing it. */
  lemma ListIsRegistered(s: State)
    requires Reachable(s)
    ensures Threaded(s.head, s.link, s.chain) && NoDup(s.chain)
    ensures s.listX.None? ==> forall t: Thread :: t in s.chain <==> t in s.data
  {
    ReachableInv(s);
    if s.listX.None? {
      forall t: Thread ensures t in s.chain <==> t in s.data {
        assert RoleAt(s, t).list != Writing;
        assert t in s.chain <==> Linked(s.At(t), t in s.data);
      }
    }
  }

  /** A thread that walks along the list does not see it change. */
  lemma WalkUndisturbed(s: State, t: Thread, s': State, u: Thread)
    requires Reachable(s) && Next(s, t, s') && u != t && OnList(s.At(u))
    ensures SameList(s, s') && s'.At(u) == s.At(u)
  {
    ReachableInv(s);
    InvReady(s, t);
    StepEffects(s, t, s');
    StepPaths(s, t, s');
    Others(s, t, s');
    hide Next, Reachable, RoleOf, MtxInv, FlagInv, NotifyInv, UniqInv, DataInv, ChainInv, WalkInv, DekkerInv;
    hide GrantEffect, WalkEffect, ChainEffect, ListLockInv;
    ListStays(s, t, s', u);
  }

  /** Each step of a scan goes one place on in the list, so that a scan ends. */
  lemma ScanAdvances(s: State, t: Thread, s': State)
    requires Reachable(s) && Next(s, t, s')
    requires s.At(t).Scan? && s.At(t).c.ScanAt? && s'.At(t).Scan? && s'.At(t).c.ScanAt?
    ensures s'.chain == s.chain
    ensures Place(s'.chain, s'.At(t).c.ptr) == Place(s.chain, s.At(t).c.ptr) + 1 <= |s.chain|
  {
    ReachableInv(s);
    StepPaths(s, t, s');
    assert WalkOk(s.At(t), t, s);
    hide Next, Reachable, RoleOf, MtxInv, ListLockInv, FlagInv, NotifyInv, UniqInv, DataInv, DekkerInv;
    NextPlace(s, s.At(t).c.ptr.value);
  }

  /** A thread that leaves finds its own entry before the end of the list: it follows no null pointer, and each step
      brings it closer. */
  lemma UnlinkAdvances(s: State, t: Thread, s': State)
    requires Reachable(s) && Next(s, t, s') && s.At(t).Exit? && s.At(t).e.ExitWalk?
    ensures s.Deref(s.At(t).e.prev).Some? && t in s.chain
    ensures s'.chain == s.chain && Place(s.chain, s.Deref(s.At(t).e.prev)) <= Place(s.chain, Some(t))
    ensures s'.At(t).Exit? && s'.At(t).e.ExitWalk? ==>
              s'.At(t).e.prev == s.Deref(s.At(t).e.prev)
              && (s.At(t).e.prev.Some? ==>
                    Place(s.chain, s'.At(t).e.prev) == Place(s.chain, s.At(t).e.prev) + 1)
  {
    ReachableInv(s);
    StepPaths(s, t, s');
    Unlinked(s.At(t));
    assert WalkOk(s.At(t), t, s) && Knows(RoleAt(s, t), t in s.data) && t in s.chain;
    hide Next, Reachable, RoleOf, MtxInv, ListLockInv, FlagInv, NotifyInv, UniqInv, DataInv, DekkerInv;
    HeadPlace(s);
    PlaceOf(s.chain, t);
    if s.At(t).e.prev.Some? {
      NextPlace(s, s.At(t).e.prev.value);
    }
  }

  // ---------------------------------------------------------------------------------------------
  // Whoever holds the mutex of the list gives it up

  predicate HoldsList(p: PC) {
    RoleOf(p).list != Nothing
  }

  /** How many steps a thread that holds the mutex of the list needs at most before it is at the release. */
  function Rank(s: State, t: Thread): int {
    var p, n := s.At(t), |s.chain|;
    match p
    case Scan(_, ScanHead) => n + 2
    case Scan(_, ScanAt(ptr)) => n + 1 - Place(s.chain, ptr)
    case Register(_, RegTest) => 4
    case Register(_, RegLink) => 3
    case Register(_, RegHead) => 2
    case Register(_, RegData) => 1
    case Exit(ExitWalk(prev)) => if prev.None? then n + 2 else n + 1 - Place(s.chain, prev)
    case Exit(ExitUnlink(_)) => 1
    case _ => 0
  }

  lemma HoldsListAt(p: PC)
    requires HoldsList(p)
    ensures p.Scan? || p.Register? || p.Exit?
  {
  }

  lemma PlaceBound(chain: seq<Thread>, t: Option<Thread>)
    ensures Place(chain, t) <= |chain|
  {
    if t.Some? {
      PlaceOf(chain, t.value);
    }
  }

  lemma RankBound(s: State, t: Thread)
    requires Inv(s)
    ensures 0 <= Rank(s, t) <= |s.chain| + 4
  {
    assert WalkOk(s.At(t), t, s);
    if s.At(t).Scan? && s.At(t).c.ScanAt? {
      PlaceBound(s.chain, s.At(t).c.ptr);
    } else if s.At(t).Exit? && s.At(t).e.ExitWalk? {
      PlaceBound(s.chain, s.At(t).e.prev);
    }
  }

  lemma PassRank(s: State, t: Thread, s': State)
    requires Inv(s) && ScanStep(s, t, s') && s.At(t).c.ScanAt?
    ensures Rank(s', t) < Rank(s, t)
  {
    assert WalkOk(s.At(t), t, s) && ChainInv(s);
    hide Inv, Threaded, NoDup;
    if s.At(t).c.ptr.Some? {
      PlaceOf(s.chain, s.At(t).c.ptr.value);
      NextPlace(s, s.At(t).c.ptr.value);
    }
  }

  lemma FreeAfterScan(k: Scanner, clear: bool)
    ensures !HoldsList(AfterScan(k, clear)) && !HoldsList(Scan(k, ScanEnter))
  {
  }

  lemma ScanRank(s: State, t: Thread, s': State)
    requires Inv(s) && ScanStep(s, t, s') && HoldsList(s.At(t))
    ensures !HoldsList(s'.At(t)) || Rank(s', t) < Rank(s, t)
  {
    hide HoldsList;
    assert ChainInv(s);
    FreeAfterScan(s.At(t).scanner, true);
    if s.At(t).c.ScanAt? {
      PassRank(s, t, s');
      hide Inv, Rank, ScanStep;
    } else if s.At(t).c.ScanLeave? {
      FreeAfterScan(s.At(t).scanner, s.At(t).c.clear);
      hide Inv, Rank;
    } else {
      hide Inv, Threaded, NoDup;
      HeadPlace(s);
    }
  }

  lemma RegisterRank(s: State, t: Thread, s': State)
    requires RegisterStep(s, t, s') && HoldsList(s.At(t))
    ensures !HoldsList(s'.At(t)) || Rank(s', t) < Rank(s, t)
  {
    match s.At(t).r
    case RegTest =>
    case RegLink =>
    case RegHead =>
    case RegData =>
    case RegLeave =>
  }

  lemma ExitRank(s: State, t: Thread, s': State)
    requires Inv(s) && ExitStep(s, t, s') && HoldsList(s.At(t))
    ensures !HoldsList(s'.At(t)) || Rank(s', t) < Rank(s, t)
  {
    Unlinked(s.At(t));
    assert WalkOk(s.At(t), t, s) && Knows(RoleAt(s, t), t in s.data);
    assert s.At(t).e.ExitWalk? ==> t in s.chain;
    HeadPlace(s);
    PlaceOf(s.chain, t);
    hide Inv, Threaded;
    match s.At(t).e
    case ExitWalk(prev) =>
      if prev.Some? {
        NextPlace(s, prev.value);
      }
    case ExitUnlink(_) =>
    case ExitLeave =>
  }

  /** Each own step of a thread that holds the mutex of the list brings it closer to the release. */
  lemma RankFalls(s: State, t: Thread, s': State)
    requires Reachable(s) && Next(s, t, s') && HoldsList(s.At(t))
    ensures !HoldsList(s'.At(t)) || 0 <= Rank(s', t) < Rank(s, t)
  {
    hide Reachable, Rank, Inv, LockTo, TryLockTo, UnlockTo, ScanTo, NotifyTo, RegisterTo, ShareTo, UnshareTo, ExitTo;
    ReachableInv(s);
    ReachableStep(s, t, s');
    ReachableInv(s');
    RankBound(s', t);
    HoldsListAt(s.At(t));
    if s.At(t).Scan? {
      ScanRank(s, t, s');
    } else if s.At(t).Register? {
      RegisterRank(s, t, s');
    } else {
      ExitRank(s, t, s');
    }
  }

  /** And no step of another thread takes it further from it. */
  lemma RankStays(s: State, t: Thread, s': State, u: Thread)
    requires Reachable(s) && Next(s, t, s') && u != t && HoldsList(s.At(u))
    ensures s'.At(u) == s.At(u) && Rank(s', u) == Rank(s, u)
  {
    hide Next, Reachable, RoleOf, MtxInv, FlagInv, NotifyInv, UniqInv, DataInv, ChainInv, WalkInv, DekkerInv;
    hide WalkEffect, GrantEffect;
    ReachableInv(s);
    InvReady(s, t);
    StepEffects(s, t, s');
    StepPaths(s, t, s');
    Others(s, t, s');
    OnListHolds(s.At(t));
    assert RoleAt(s, t).list == Writing ==> s.listX == Some(t) && s.listS == {};
    assert RoleAt(s, u).list == Writing ==> s.listX == Some(u);
    assert RoleAt(s, u).list == Reading ==> u in s.listS;
    assert s'.chain == s.chain;
  }

  function OwnSteps(who: seq<Thread>, t: Thread): nat {
    if who == [] then 0 else OwnSteps(who[1..], t) + if who[0] == t then 1 else 0
  }

  /** While a thread holds the mutex of the list it makes at most as many steps as its rank, whatever others do between
      them; so its scan, or its search for its own entry, ends, and no thread waits for the mutex of the list for ever
      while its holders run. */
  lemma {:induction false} HoldEnds(states: seq<State>, who: seq<Thread>, t: Thread)
    requires Steps(states, who) && Reachable(states[0]) && forall i :: 0 <= i <= |who| ==> HoldsList(states[i].At(t))
    ensures OwnSteps(who, t) <= Rank(states[0], t) <= |states[0].chain| + 4
    decreases |who|
  {
    hide Next, Reachable, HoldsList, Rank, Inv;
    ReachableInv(states[0]);
    RankBound(states[0], t);
    if who != [] {
      ReachableStep(states[0], who[0], states[1]);
      assert Steps(states[1..], who[1..]);
      HoldEnds(states[1..], who[1..], t);
      assert HoldsList(states[0].At(t)) && HoldsList(states[1].At(t));
      if who[0] == t {
        RankFalls(states[0], t, states[1]);
      } else {
        RankStays(states[0], who[0], states[1], t);
      }
    }
  }
}
