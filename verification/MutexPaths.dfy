/** What one step of the mutex may do to the list of per-thread data and to the pointers into it. */
module MutexPaths {
  import opened Common
  import opened Mutex
  import opened MutexInv

  predicate SameList(s: State, s': State) {
    s'.head == s.head && s'.link == s.link && s'.chain == s.chain
  }

  /** Three steps change the list; the others neither change it nor who is on it. */
  predicate ChainEffect(s: State, t: Thread, s': State) {
    var p, p' := s.At(t), s'.At(t);
    if p.Register? && p.r.RegHead? then
      && s'.head == Some(t) && s'.link == s.link && s'.chain == [t] + s.chain && p'.Register? && p'.r.RegData?
    else if p.Exit? && p.e.ExitUnlink? then
      && s'.head == (if p.e.prev.None? then s.LinkOf(t) else s.head)
      && s'.link == (if p.e.prev.None? then s.link else s.link[p.e.prev.value := s.LinkOf(t)])
      && s'.chain == Without(s.chain, t) && p'.Exit? && p'.e.ExitLeave?
    else
      && s'.head == s.head && s'.chain == s.chain
      && s'.link == (if p.Register? && p.r.RegLink? then s.link[t := s.head] else s.link)
      && (Linked(p', t in s'.data) <==> Linked(p, t in s.data))
  }

  /** How a pointer into the list comes about. */
  predicate WalkEffect(s: State, t: Thread, s': State) {
    var p, p' := s.At(t), s'.At(t);
    && (p'.Register? && p'.r.RegHead? ==> p.Register? && p.r.RegLink?)
    && (p'.Scan? && p'.c.ScanAt? ==>
          p.Scan? && p.scanner == p'.scanner &&
          if p.c.ScanAt? then
            p.c.ptr.Some? && p.c.ptr.value !in s.sharing && p'.c.ptr == s.LinkOf(p.c.ptr.value)
          else p'.c.ptr == s.head)
    && (p'.Exit? && p'.e.ExitWalk? ==>
          p.Exit? &&
          if p.e.ExitWalk? then s.Deref(p.e.prev) != Some(t) && p'.e.prev == s.Deref(p.e.prev)
          else p'.e.prev == None)
    && (p'.Exit? && p'.e.ExitUnlink? ==>
          p.Exit? && p.e.ExitWalk? && p.e.prev == p'.e.prev && s.Deref(p.e.prev) == Some(t))
  }

  /** How a thread comes to hold the lock, or to have seen all flags down, and what a change of `uniq` goes with. */
  predicate GrantEffect(s: State, t: Thread, s': State) {
    var p, p' := s.At(t), s'.At(t);
    && (IsShared(p') && !IsShared(p) ==> s.uniq == No && s'.sharing == s.sharing)
    && (s'.uniq != s.uniq ==>
          s'.sharing == s.sharing && !IsShared(p) && !IsShared(p') && (IsUnique(p) ==> s'.uniq == No))
    && (SeenClear(p') && !SeenClear(p) ==> WriterScan(p) && p.c.ptr.None?)
  }

  predicate Paths(s: State, t: Thread, s': State) {
    ChainEffect(s, t, s') && WalkEffect(s, t, s') && GrantEffect(s, t, s')
  }

  predicate Entry(p: PC) {
    || p == Lock(LockAcquire) || p == TryLock(TryAcquire) || p == Exit(ExitTest) || p == Outside
    || (p.Share? && p.h.SharedSet?) || (p.Register? && p.r == RegEnter)
  }

  lemma EntryPaths(s: State, t: Thread, p: PC)
    requires s.At(t) == Outside && Entry(p)
    ensures Paths(s, t, s.Go(t, p))
  {
  }

  lemma ReleasePaths(s: State, t: Thread, s': State)
    requires CallStep(s, t, s') && s.At(t) != Outside
    ensures Paths(s, t, s')
  {
  }

  lemma CallPaths(s: State, t: Thread, s': State)
    requires CallStep(s, t, s')
    ensures Paths(s, t, s')
  {
    if s.At(t) == Outside {
      assert Entry(s'.At(t)) && s' == s.Go(t, s'.At(t));
      hide Entry, Paths, CallStep;
      EntryPaths(s, t, s'.At(t));
    } else {
      ReleasePaths(s, t, s');
    }
  }

  lemma LockPaths(s: State, t: Thread, s': State)
    requires LockStep(s, t, s')
    ensures Paths(s, t, s')
  {
    match s.At(t).l
    case LockAcquire =>
    case LockWant =>
    case LockYes =>
    case LockWait =>
    case LockAsleep =>
    case LockReacquire =>
  }

  lemma TryLockPaths(s: State, t: Thread, s': State)
    requires TryLockStep(s, t, s')
    ensures Paths(s, t, s')
  {
    match s.At(t).y
    case TryAcquire =>
    case TryWant =>
    case TryNo =>
    case TryRelease =>
    case TryYes =>
  }

  lemma UnlockPaths(s: State, t: Thread, s': State)
    requires UnlockStep(s, t, s')
    ensures Paths(s, t, s')
  {
    match s.At(t).u
    case UnlockNo =>
    case UnlockNotify =>
    case UnlockRelease =>
  }

  lemma ScanPaths(s: State, t: Thread, s': State)
    requires ScanStep(s, t, s')
    ensures Paths(s, t, s')
  {
    match s.At(t).c
    case ScanEnter =>
    case ScanHead =>
    case ScanAt(_) =>
    case ScanLeave(_) =>
  }

  lemma NotifyPaths(s: State, t: Thread, s': State)
    requires NotifyStep(s, t, s')
    ensures Paths(s, t, s')
  {
    match s.At(t).n
    case NotifyTest =>
    case NotifyOne =>
    case NotifyClear =>
  }

  lemma RegisterPaths(s: State, t: Thread, s': State)
    requires RegisterStep(s, t, s')
    ensures Paths(s, t, s')
  {
    match s.At(t).r
    case RegEnter =>
    case RegTest =>
    case RegLink =>
    case RegHead =>
    case RegData =>
    case RegLeave =>
  }

  lemma SharePaths(s: State, t: Thread, s': State)
    requires ShareStep(s, t, s')
    ensures Paths(s, t, s')
  {
    match s.At(t).h
    case SharedSet(_) =>
    case SharedLoad(_) =>
    case SharedAcquire =>
    case SharedTest =>
    case SharedClear =>
    case SharedWait =>
    case SharedAsleep =>
    case SharedReacquire =>
    case SharedReset =>
    case SharedRelease =>
  }

  lemma UnsharePaths(s: State, t: Thread, s': State)
    requires UnshareStep(s, t, s')
    ensures Paths(s, t, s')
  {
    match s.At(t).v
    case FlagClear(_) =>
    case LoadUniq =>
    case LoadUniqAgain =>
  }

  lemma ExitPaths(s: State, t: Thread, s': State)
    requires ExitStep(s, t, s')
    ensures Paths(s, t, s')
  {
    match s.At(t).e
    case ExitTest =>
    case ExitEnter =>
    case ExitWalk(_) =>
    case ExitUnlink(_) =>
    case ExitLeave =>
  }

  lemma StepPaths(s: State, t: Thread, s': State)
    requires Next(s, t, s') && DataInv(s)
    ensures Paths(s, t, s')
  {
    hide Paths, CallStep, LockStep, TryLockStep, UnlockStep, ScanStep, NotifyStep, RegisterStep, ShareStep;
    hide UnshareStep, ExitStep;
    if t !in s.pc {
      EntryPaths(s, t, Outside);
    } else if CallStep(s, t, s') {
      CallPaths(s, t, s');
    } else if LockStep(s, t, s') {
      LockPaths(s, t, s');
    } else if TryLockStep(s, t, s') {
      TryLockPaths(s, t, s');
    } else if UnlockStep(s, t, s') {
      UnlockPaths(s, t, s');
    } else if ScanStep(s, t, s') {
      ScanPaths(s, t, s');
    } else if NotifyStep(s, t, s') {
      NotifyPaths(s, t, s');
    } else if RegisterStep(s, t, s') {
      RegisterPaths(s, t, s');
    } else if ShareStep(s, t, s') {
      SharePaths(s, t, s');
    } else if UnshareStep(s, t, s') {
      UnsharePaths(s, t, s');
    } else {
      ExitPaths(s, t, s');
    }
  }
}
