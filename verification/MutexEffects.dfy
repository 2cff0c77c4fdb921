/** What one step of the mutex may do to each part of the state, seen from the thread that makes it. */
module MutexEffects {
  import opened Common
  import opened Mutex
  import opened MutexInv

  predicate PcEffect(s: State, t: Thread, s': State) {
    (s'.pc == s.pc[t := s'.At(t)]) || (t !in s'.data && s'.pc == s.pc - {t})
  }

  predicate MtxEffect(r: Role, r': Role, m: Option<Thread>, m': Option<Thread>, t: Thread) {
    || (m' == m && r'.mtx == r.mtx)
    || (m == None && m' == Some(t) && r'.mtx)
    || (m' == None && r.mtx && !r'.mtx)
  }

  predicate ListLockEffect(r: Role, r': Role, s: State, s': State, t: Thread) {
    || (s'.listX == s.listX && s'.listS == s.listS && r'.list == r.list)
    || (s.listX == s'.listX == None && s'.listS == s.listS + {t} && r'.list == Reading)
    || (s'.listX == s.listX && s'.listS == s.listS - {t} && r.list == Reading && r'.list == Nothing)
    || (s.listX == None && s'.listS == s.listS == {} && s'.listX == Some(t) && r'.list == Writing)
    || (s'.listX == None && s'.listS == s.listS && r.list == Writing && r'.list == Nothing)
  }

  predicate FlagEffect(r: Role, r': Role, f: set<Thread>, f': set<Thread>, t: Thread) {
    || (f' == f && r'.flag == r.flag)
    || (f' == f + {t} && r'.flag)
    || (f' == f - {t} && !r'.flag)
  }

  predicate NotifyEffect(r: Role, r': Role, n: bool, n': bool) {
    || (n' == n && r'.notifying == r.notifying)
    || (!n && n' && r'.notifying)
    || (r.notifying && !n' && !r'.notifying)
  }

  /** Only the owner of uniq_mtx changes `uniq`. */
  predicate UniqEffect(r: Role, r': Role, u: Unique, u': Unique) {
    && Fits(r', u')
    && (u' == u || r.mtx)
    && (u' == Yes && u != Yes ==> r'.uniq == Some(Yes))
    && (r.uniq == Some(Yes) && r'.uniq != Some(Yes) ==> u' != Yes)
  }

  /** Registration is changed by the two steps that do so. */
  predicate DataEffect(p: PC, r': Role, d: set<Thread>, d': set<Thread>, t: Thread) {
    && d' == (if p.Register? && p.r.RegData? then d + {t} else if p.Exit? && p.e.ExitLeave? then d - {t} else d)
    && Knows(r', t in d')
  }

  ghost predicate Effects(s: State, t: Thread, s': State) {
    var r, r' := RoleAt(s, t), RoleAt(s', t);
    && PcEffect(s, t, s')
    && MtxEffect(r, r', s.mtx, s'.mtx, t)
    && ListLockEffect(r, r', s, s', t)
    && FlagEffect(r, r', s.sharing, s'.sharing, t)
    && NotifyEffect(r, r', s.notifying, s'.notifying)
    && UniqEffect(r, r', s.uniq, s'.uniq)
    && DataEffect(s.At(t), r', s.data, s'.data, t)
  }

  /** The thread's own part of the invariant that the effects of its step depend on. */
  predicate Ready(s: State, t: Thread) {
    var r := RoleAt(s, t);
    && Fits(r, s.uniq) && (r.mtx && r.uniq != Some(Yes) ==> s.uniq != Yes)
    && Knows(r, t in s.data)
  }

  lemma GoEffects(s: State, t: Thread, p: PC)
    requires Ready(s, t) && s.At(t) == Outside
    requires RoleOf(p) == IDLE || (t in s.data && RoleOf(p) == IDLE.(reg := Some(true)))
    ensures Effects(s, t, s.Go(t, p))
  {
  }

  lemma CallEffectsA(s: State, t: Thread, s': State)
    requires Ready(s, t) && CallStep(s, t, s') && s.At(t) == Outside
    ensures Effects(s, t, s')
  {
    hide Effects;
    if t in s.data {
      forall b | s' == s.Go(t, Share(SharedSet(b))) ensures Effects(s, t, s') { GoEffects(s, t, Share(SharedSet(b))); }
    } else {
      forall b | s' == s.Go(t, Register(b, RegEnter)) ensures Effects(s, t, s') {
        GoEffects(s, t, Register(b, RegEnter));
      }
    }
    GoEffects(s, t, Lock(LockAcquire));
    GoEffects(s, t, TryLock(TryAcquire));
    GoEffects(s, t, Exit(ExitTest));
  }

  lemma CallEffectsB(s: State, t: Thread, s': State)
    requires Ready(s, t) && CallStep(s, t, s') && s.At(t) != Outside
    ensures Effects(s, t, s')
  {
  }

  lemma LockEffects(s: State, t: Thread, s': State)
    requires Ready(s, t) && LockStep(s, t, s')
    ensures Effects(s, t, s')
  {
    match s.At(t).l
    case LockAcquire =>
    case LockWant =>
    case LockYes =>
    case LockWait =>
    case LockAsleep =>
    case LockReacquire =>
  }

  lemma TryLockEffects(s: State, t: Thread, s': State)
    requires Ready(s, t) && TryLockStep(s, t, s')
    ensures Effects(s, t, s')
  {
    match s.At(t).y
    case TryAcquire =>
    case TryWant =>
    case TryNo =>
    case TryRelease =>
    case TryYes =>
  }

  lemma UnlockEffects(s: State, t: Thread, s': State)
    requires Ready(s, t) && UnlockStep(s, t, s')
    ensures Effects(s, t, s')
  {
    match s.At(t).u
    case UnlockNo =>
    case UnlockNotify =>
    case UnlockRelease =>
  }

  lemma ScanEffects(s: State, t: Thread, s': State)
    requires Ready(s, t) && ScanStep(s, t, s')
    ensures Effects(s, t, s')
  {
    match s.At(t).c
    case ScanEnter =>
    case ScanHead =>
    case ScanAt(_) =>
    case ScanLeave(_) =>
  }

  lemma NotifyEffects(s: State, t: Thread, s': State)
    requires Ready(s, t) && NotifyStep(s, t, s')
    ensures Effects(s, t, s')
  {
    match s.At(t).n
    case NotifyTest =>
    case NotifyOne =>
    case NotifyClear =>
  }

  lemma RegisterEnters(s: State, t: Thread, s': State)
    requires Ready(s, t) && RegisterStep(s, t, s') && s.At(t).r.RegEnter?
    ensures Effects(s, t, s')
  {
  }

  lemma RegisterEffects(s: State, t: Thread, s': State)
    requires Ready(s, t) && RegisterStep(s, t, s')
    ensures Effects(s, t, s')
  {
    match s.At(t).r
    case RegEnter => RegisterEnters(s, t, s');
    case RegTest =>
    case RegLink =>
    case RegHead =>
    case RegData =>
    case RegLeave =>
  }

  /** On the way in without blocking, or giving way to a writer. */
  predicate GivesWay(p: SharePC) {
    p.SharedSet? || p.SharedLoad? || p.SharedClear? || p.SharedWait? || p.SharedAsleep?
  }

  lemma GiveWayEffects(s: State, t: Thread, s': State)
    requires Ready(s, t) && ShareStep(s, t, s') && GivesWay(s.At(t).h)
    ensures Effects(s, t, s')
  {
    match s.At(t).h
    case SharedSet(_) =>
    case SharedLoad(_) =>
    case SharedClear =>
    case SharedWait =>
    case SharedAsleep =>
  }

  lemma ShareEffects(s: State, t: Thread, s': State)
    requires Ready(s, t) && ShareStep(s, t, s')
    ensures Effects(s, t, s')
  {
    if GivesWay(s.At(t).h) {
      GiveWayEffects(s, t, s');
    } else {
      match s.At(t).h
      case SharedAcquire =>
      case SharedTest =>
      case SharedReacquire =>
      case SharedReset =>
      case SharedRelease =>
    }
  }

  lemma UnshareEffects(s: State, t: Thread, s': State)
    requires Ready(s, t) && UnshareStep(s, t, s')
    ensures Effects(s, t, s')
  {
    match s.At(t).v
    case FlagClear(_) =>
    case LoadUniq =>
    case LoadUniqAgain =>
  }

  lemma ExitEffects(s: State, t: Thread, s': State)
    requires Ready(s, t) && ExitStep(s, t, s')
    ensures Effects(s, t, s')
  {
    match s.At(t).e
    case ExitTest =>
    case ExitEnter =>
    case ExitWalk(_) =>
    case ExitUnlink(_) =>
    case ExitLeave =>
  }

  lemma StepEffects(s: State, t: Thread, s': State)
    requires Ready(s, t) && Next(s, t, s')
    ensures Effects(s, t, s')
  {
    hide Effects, Ready, CallStep, LockStep, TryLockStep, UnlockStep, ScanStep, NotifyStep, RegisterStep, ShareStep;
    hide UnshareStep, ExitStep;
    var p := s.At(t);
    if t !in s.pc {
      GoEffects(s, t, Outside);
    } else if CallStep(s, t, s') {
      if p == Outside { CallEffectsA(s, t, s'); } else { CallEffectsB(s, t, s'); }
    } else if LockStep(s, t, s') {
      LockEffects(s, t, s');
    } else if TryLockStep(s, t, s') {
      TryLockEffects(s, t, s');
    } else if UnlockStep(s, t, s') {
      UnlockEffects(s, t, s');
    } else if ScanStep(s, t, s') {
      ScanEffects(s, t, s');
    } else if NotifyStep(s, t, s') {
      NotifyEffects(s, t, s');
    } else if RegisterStep(s, t, s') {
      RegisterEffects(s, t, s');
    } else if ShareStep(s, t, s') {
      ShareEffects(s, t, s');
    } else if UnshareStep(s, t, s') {
      UnshareEffects(s, t, s');
    } else {
      ExitEffects(s, t, s');
    }
  }
}
