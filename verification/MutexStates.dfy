/** The states and transitions of the mutex that its documentation names by three letters. */
module MutexStates {
  import opened Common
  import opened Mutex
  import opened MutexInv
  import opened MutexEffects
  import opened MutexPaths
  import opened MutexSteps
  import opened MutexSafety

  /** Locked or not; `uniq`; some sharing flag up or none. */
  datatype Letters = Letters(locked: bool, uniq: Unique, flags: bool)

  const UNs := Letters(false, No, false)
  const UNS := Letters(false, No, true)
  const UWs := Letters(false, Want, false)
  const UWS := Letters(false, Want, true)
  const LNS := Letters(true, No, true)
  const LWS := Letters(true, Want, true)
  const LYs := Letters(true, Yes, false)
  const LYS := Letters(true, Yes, true)

  predicate Holds(p: PC) {
    IsUnique(p) || IsShared(p)
  }

  ghost predicate Locked(s: State) {
    exists t: Thread :: Holds(s.At(t))
  }

  ghost function LettersOf(s: State): Letters {
    Letters(Locked(s), s.uniq, s.sharing != {})
  }

  /** Of the twelve combinations only the eight that the documentation names occur. */
  lemma EightStates(s: State)
    requires Reachable(s)
    ensures LettersOf(s) in {UNs, UNS, UWs, UWS, LNS, LWS, LYs, LYS}
  {
    UniqueWindow(s);
    if Locked(s) && s.uniq != Yes {
      var t: Thread :| Holds(s.At(t));
      HoldersVisible(s, t);
    }
  }

  /** The statements that the documentation names as the causes of transitions. */
  datatype Event =
    | SetsFlag     // a thread sets its sharing flag
    | ClearsFlag   // a thread clears its sharing flag
    | LoadsUniq    // a thread whose flag is up loads uniq
    | StoresWant   // uniq set to want
    | StoresYes    // the thread that set it to want sets it to yes
    | GivesUp      // the thread that set it to want sets it to no
    | StoresNo     // the thread that set it to yes sets it to no
    | Other

  function EventOf(p: PC): Event {
    if p.Lock? then
      if p.l.LockWant? then StoresWant else if p.l.LockYes? then StoresYes else Other
    else if p.TryLock? then
      if p.y.TryWant? then StoresWant else if p.y.TryYes? then StoresYes else if p.y.TryNo? then GivesUp else Other
    else if p.Unlock? then
      if p.u.UnlockNo? then StoresNo else Other
    else if p.Share? then
      if p.h.SharedSet? || p.h.SharedReset? then SetsFlag
      else if p.h.SharedClear? then ClearsFlag
      else if p.h.SharedLoad? || p.h.SharedTest? then LoadsUniq
      else Other
    else if p.Unshare? && p.v.FlagClear? then ClearsFlag
    else Other
  }

  /** The transitions that the documentation lists, without the one that takes two steps (UWS to LNS). */
  predicate Documented(a: Letters, e: Event, b: Letters) {
    match e
    case SetsFlag => (a, b) in {(UNs, UNS), (UWs, UWS), (LYs, LYS)}
    case ClearsFlag => (a, b) in {(UWS, UWs), (LNS, UNs), (LWS, UWs), (LYS, LYs)}
    case LoadsUniq => (a, b) == (UNS, LNS)
    case StoresWant => (a, b) in {(UNs, UWs), (UNS, UWS), (LNS, LWS)}
    case StoresYes => (a, b) == (UWs, LYs)
    case GivesUp => false
    case StoresNo => (a, b) in {(LYs, UNs), (LYS, UNS)}
    case Other => false
  }

  /** The transitions that it does not list: a failed `try_lock`, a flag that goes down without having given the lock,
      a holder that leaves while another flag is up, and a flag that goes up after the scan. */
  predicate Undocumented(a: Letters, e: Event, b: Letters) {
    match e
    case ClearsFlag => (a, b) in {(UNS, UNs), (LNS, UNS), (LWS, UWS)}
    case StoresYes => (a, b) == (UWS, LYS)
    case GivesUp => (a, b) in {(UWs, UNs), (UWS, UNS), (LWS, LNS)}
    case _ => false
  }

  /** What a step does by its statement. */
  predicate EventEffect(s: State, t: Thread, s': State) {
    var p, p', e := s.At(t), s'.At(t), EventOf(s.At(t));
    && s'.uniq == (match e case StoresWant => Want case StoresYes => Yes case GivesUp => No case StoresNo => No
                           case _ => s.uniq)
    && s'.sharing == (match e case SetsFlag => s.sharing + {t} case ClearsFlag => s.sharing - {t} case _ => s.sharing)
    && (!Holds(p) && Holds(p') ==> e.LoadsUniq? || e.StoresYes?)
    && (Holds(p) && !Holds(p') ==> e.ClearsFlag? || e.StoresNo?)
  }

  lemma WriterEvents(s: State, t: Thread, s': State)
    requires LockStep(s, t, s') || TryLockStep(s, t, s') || UnlockStep(s, t, s')
    ensures EventEffect(s, t, s')
  {
    match s.At(t)
    case Lock(LockAcquire) =>
    case Lock(LockWant) =>
    case Lock(LockYes) =>
    case Lock(LockWait) =>
    case Lock(LockAsleep) =>
    case Lock(LockReacquire) =>
    case TryLock(TryAcquire) =>
    case TryLock(TryWant) =>
    case TryLock(TryNo) =>
    case TryLock(TryRelease) =>
    case TryLock(TryYes) =>
    case Unlock(UnlockNo) =>
    case Unlock(UnlockNotify) =>
    case Unlock(UnlockRelease) =>
  }

  lemma ReaderEvents(s: State, t: Thread, s': State)
    requires ShareStep(s, t, s') || UnshareStep(s, t, s')
    ensures EventEffect(s, t, s')
  {
    match s.At(t)
    case Share(SharedSet(_)) =>
    case Share(SharedLoad(_)) =>
    case Share(SharedAcquire) =>
    case Share(SharedTest) =>
    case Share(SharedClear) =>
    case Share(SharedWait) =>
    case Share(SharedAsleep) =>
    case Share(SharedReacquire) =>
    case Share(SharedReset) =>
    case Share(SharedRelease) =>
    case Unshare(FlagClear(_)) =>
    case Unshare(LoadUniq) =>
    case Unshare(LoadUniqAgain) =>
  }

  lemma ScanEvents(s: State, t: Thread, s': State)
    requires ScanStep(s, t, s') || NotifyStep(s, t, s')
    ensures EventEffect(s, t, s')
  {
    match s.At(t)
    case Scan(_, ScanEnter) =>
    case Scan(_, ScanHead) =>
    case Scan(_, ScanAt(_)) =>
    case Scan(_, ScanLeave(_)) =>
    case Notify(_, NotifyTest) =>
    case Notify(_, NotifyOne) =>
    case Notify(_, NotifyClear) =>
  }

  lemma ListEvents(s: State, t: Thread, s': State)
    requires RegisterStep(s, t, s') || ExitStep(s, t, s')
    ensures EventEffect(s, t, s')
  {
    match s.At(t)
    case Register(_, RegEnter) =>
    case Register(_, RegTest) =>
    case Register(_, RegLink) =>
    case Register(_, RegHead) =>
    case Register(_, RegData) =>
    case Register(_, RegLeave) =>
    case Exit(ExitTest) =>
    case Exit(ExitEnter) =>
    case Exit(ExitWalk(_)) =>
    case Exit(ExitUnlink(_)) =>
    case Exit(ExitLeave) =>
  }

  lemma EntryHoldsNothing(p: PC)
    requires Entry(p)
    ensures !Holds(p)
  {
  }

  lemma CallEvents(s: State, t: Thread, s': State)
    requires CallStep(s, t, s')
    ensures EventEffect(s, t, s')
  {
    if s.At(t) == Outside {
      assert Entry(s'.At(t)) && s' == s.Go(t, s'.At(t));
      hide Entry, CallStep, Holds;
      EntryHoldsNothing(s'.At(t));
    }
  }

  lemma StepEvents(s: State, t: Thread, s': State)
    requires Next(s, t, s')
    ensures EventEffect(s, t, s')
  {
    if t !in s.pc {
      assert s.At(t) == s'.At(t) == Outside;
    } else {
      hide CallStep, LockStep, TryLockStep, UnlockStep, ScanStep, NotifyStep, RegisterStep, ShareStep, UnshareStep;
      hide ExitStep, EventEffect;
      if CallStep(s, t, s') {
        CallEvents(s, t, s');
      } else if LockStep(s, t, s') || TryLockStep(s, t, s') || UnlockStep(s, t, s') {
        WriterEvents(s, t, s');
      } else if ShareStep(s, t, s') || UnshareStep(s, t, s') {
        ReaderEvents(s, t, s');
      } else if ScanStep(s, t, s') || NotifyStep(s, t, s') {
        ScanEvents(s, t, s');
      } else {
        ListEvents(s, t, s');
      }
    }
  }

  lemma SharedSame(s: State, t: Thread, s': State)
    requires OthersStay(s, t, s') && !IsShared(s.At(t)) && !IsShared(s'.At(t))
    ensures forall u: Thread :: IsShared(s.At(u)) == IsShared(s'.At(u))
  {
  }

  /** A step that changes `uniq`. */
  lemma UniqTransition(s: State, t: Thread, s': State)
    requires Reachable(s) && Reachable(s') && OthersStay(s, t, s') && GrantEffect(s, t, s') && s'.uniq != s.uniq
    requires UniqEffect(RoleAt(s, t), RoleAt(s', t), s.uniq, s'.uniq) && Fits(RoleAt(s, t), s.uniq)
    requires RoleAt(s, t).mtx ==> s.mtx == Some(t)
    ensures
      var a, b := LettersOf(s), LettersOf(s');
      && b.flags == a.flags && (a.uniq == Yes ==> b.uniq == No) && (b.uniq == Yes ==> a.uniq == Want)
      && (if a.uniq == Yes then !b.locked else if b.uniq == Yes then !a.locked else a.locked == b.locked)
  {
    UniqueWindow(s);
    UniqueWindow(s');
    SharedSame(s, t, s');
    OnListHolds(s.At(t));
    OnlyUniqueClaimsYes(s'.At(t));
    hide RoleOf, Reachable, OthersStay;
    if s.uniq == Yes {
      forall u: Thread ensures !IsShared(s.At(u)) { MutualExclusion(s, t, u); }
    } else if s'.uniq == Yes {
      forall u: Thread ensures !IsShared(s'.At(u)) { MutualExclusion(s', t, u); }
    }
  }

  /** A step that leaves `uniq` alone locks only by a reader's load of `no`. */
  lemma LockTransition(s: State, t: Thread, s': State)
    requires Reachable(s) && Reachable(s') && OthersStay(s, t, s') && GrantEffect(s, t, s') && s'.uniq == s.uniq
    requires !Locked(s) && Locked(s')
    ensures s.uniq == No && s'.sharing == s.sharing
  {
    UniqueWindow(s);
    UniqueWindow(s');
    hide Reachable;
    var u: Thread :| Holds(s'.At(u));
    assert !IsShared(s.At(u));
  }

  lemma LockedChange(s: State, t: Thread, s': State)
    requires OthersStay(s, t, s') && Locked(s) != Locked(s')
    ensures Holds(s.At(t)) != Holds(s'.At(t)) && Holds(s.At(t)) == Locked(s)
  {
    if Locked(s) {
      var u: Thread :| Holds(s.At(u));
      assert !Holds(s'.At(u));
    } else {
      var u: Thread :| Holds(s'.At(u));
      assert !Holds(s.At(u));
    }
  }

  /** By what kind of statement the state changes. */
  lemma ChangeEvent(s: State, t: Thread, s': State)
    requires OthersStay(s, t, s') && EventEffect(s, t, s') && Fits(RoleAt(s, t), s.uniq)
    ensures
      var a, b, e := LettersOf(s), LettersOf(s'), EventOf(s.At(t));
      && (a.uniq != b.uniq ==>
            e == match b.uniq case Want => StoresWant case Yes => StoresYes
                              case No => if a.uniq == Yes then StoresNo else GivesUp)
      && (a.flags != b.flags ==> e == if b.flags then SetsFlag else ClearsFlag)
      && (a.uniq == b.uniq && a.locked != b.locked ==> e == if b.locked then LoadsUniq else ClearsFlag)
  {
    if Locked(s) != Locked(s') {
      LockedChange(s, t, s');
    }
    hide Locked, OthersStay, Holds;
  }

  /** Every step stays in the same state or makes one of these transitions, by the event given for it. */
  lemma Transitions(s: State, t: Thread, s': State)
    requires Reachable(s) && Next(s, t, s')
    ensures
      var a, b, e := LettersOf(s), LettersOf(s'), EventOf(s.At(t));
      a == b || Documented(a, e, b) || Undocumented(a, e, b)
  {
    hide Reachable, Next, OthersStay, Locked, RoleOf, GrantEffect, EventEffect, EventOf, Holds;
    ReachableInv(s);
    ReachableStep(s, t, s');
    InvReady(s, t);
    assert RoleAt(s, t).mtx ==> s.mtx == Some(t);
    StepEffects(s, t, s');
    StepPaths(s, t, s');
    StepEvents(s, t, s');
    Others(s, t, s');
    EightStates(s);
    EightStates(s');
    hide Inv;
    ChangeEvent(s, t, s');
    if s'.uniq != s.uniq {
      UniqTransition(s, t, s');
    } else if !Locked(s) && Locked(s') {
      LockTransition(s, t, s');
    }
  }
}
