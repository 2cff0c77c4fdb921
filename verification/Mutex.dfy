/** The rarely-unique shared mutex as a state machine: any number of threads, one step per access to a shared variable,
    per mutex operation, or per wait.  A thread asleep on a condition may wake at any time. */
module Mutex {
  import opened Common

  /** A thread, and the per-thread data that belongs to it. */
  type Thread = nat

  datatype Unique = No | Want | Yes

  // ---------------------------------------------------------------------------------------------
  // Where a thread is; a comment names the statement it is about to execute

  datatype LockPC =
    | LockAcquire            // lock uniq_mtx
    | LockWant               // uniq = want
    | LockYes                // uniq = yes
    | LockWait               // wait_uniq_cond.wait: unlock uniq_mtx and sleep
    | LockAsleep
    | LockReacquire          // lock uniq_mtx after waking up

  datatype TryPC =
    | TryAcquire             // try to lock uniq_mtx
    | TryWant                // uniq = want
    | TryNo                  // uniq = no
    | TryRelease             // unlock uniq_mtx
    | TryYes                 // uniq = yes

  datatype UnlockPC =
    | UnlockNo               // uniq = no
    | UnlockNotify           // wait_shared_cond.notify_all
    | UnlockRelease          // unlock uniq_mtx

  /** The scan of all sharing flags, and who asked for it. */
  datatype ScanPC =
    | ScanEnter              // lock thread_data_list_mtx shared
    | ScanHead               // ptr = thread_data_list_head
    | ScanAt(ptr: Option<Thread>)  // test ptr and load the flag there
    | ScanLeave(clear: bool) // unlock thread_data_list_mtx

  datatype Scanner = ForLock | ForTryLock | ForUnlockShared

  /** The notification of a waiting writer, and who asked for it. */
  datatype NotifyPC =
    | NotifyTest             // compare and exchange of the guard flag
    | NotifyOne              // wait_uniq_cond.notify_one
    | NotifyClear            // guard flag = false

  datatype Notifier = FromUnlock | FromSharedWait | FromUnlockShared

  /** add_to_ptd_linked_list */
  datatype RegisterPC =
    | RegEnter               // lock thread_data_list_mtx
    | RegTest                // test mutex_data
    | RegLink                // link = head
    | RegHead                // head = this
    | RegData                // mutex_data = &d
    | RegLeave               // unlock thread_data_list_mtx

  /** lock_shared, try_lock_shared, blocking_lock_shared */
  datatype SharePC =
    | SharedSet(blocking: bool)   // sharing = true
    | SharedLoad(blocking: bool)  // load uniq
    | SharedAcquire          // lock uniq_mtx
    | SharedTest             // load uniq
    | SharedClear            // sharing = false
    | SharedWait             // wait_shared_cond.wait: unlock uniq_mtx and sleep
    | SharedAsleep
    | SharedReacquire        // lock uniq_mtx after waking up
    | SharedReset            // sharing = true
    | SharedRelease          // unlock uniq_mtx

  /** unlock_shared, blocking_unlock_shared; `held` is false after a failed try_lock_shared */
  datatype UnsharePC =
    | FlagClear(held: bool)  // sharing = false
    | LoadUniq               // load uniq
    | LoadUniqAgain          // load uniq in the notification loop

  /** The destructor of the per-thread data. */
  datatype ExitPC =
    | ExitTest               // test mutex_data
    | ExitEnter              // lock thread_data_list_mtx
    | ExitWalk(prev: Option<Thread>)    // compare *ptr with this; ptr is &head or &prev->link
    | ExitUnlink(prev: Option<Thread>)  // *ptr = link
    | ExitLeave              // unlock thread_data_list_mtx

  datatype PC =
    | Outside | HoldsUnique | HoldsShared
    | Lock(l: LockPC)
    | TryLock(y: TryPC)
    | Unlock(u: UnlockPC)
    | Scan(scanner: Scanner, c: ScanPC)
    | Notify(notifier: Notifier, n: NotifyPC)
    | Register(wait: bool, r: RegisterPC)
    | Share(h: SharePC)
    | Unshare(v: UnsharePC)
    | Exit(e: ExitPC)

  // ---------------------------------------------------------------------------------------------
  // The state

  /** `chain` is not part of the program: it is the list that `head` and `link` thread, as a sequence. */
  datatype State = State(
    uniq: Unique,
    notifying: bool,
    mtx: Option<Thread>,
    listX: Option<Thread>,
    listS: set<Thread>,
    head: Option<Thread>,
    link: map<Thread, Option<Thread>>,
    data: set<Thread>,
    sharing: set<Thread>,
    pc: map<Thread, PC>,
    chain: seq<Thread>)
  {
    function Go(t: Thread, p: PC): State {
      this.(pc := pc[t := p])
    }

    /** A thread that has not started, or has ended, counts as outside. */
    function At(t: Thread): PC {
      if t in pc then pc[t] else Outside
    }

    function LinkOf(t: Thread): Option<Thread> {
      if t in link then link[t] else None
    }

    /** What a pointer to a link reads; None is the address of the head. */
    function Deref(prev: Option<Thread>): Option<Thread> {
      if prev.None? then head else LinkOf(prev.value)
    }
  }

  const START := State(No, false, None, None, {}, None, map[], {}, {}, map[], [])

  function AfterScan(k: Scanner, clear: bool): PC {
    match k
    case ForLock => if clear then Lock(LockYes) else Lock(LockWait)
    case ForTryLock => if clear then TryLock(TryYes) else TryLock(TryNo)
    case ForUnlockShared => if clear then Notify(FromUnlockShared, NotifyTest) else Outside
  }

  function AfterNotify(n: Notifier): PC {
    match n
    case FromUnlock => Outside
    case FromSharedWait => Share(SharedWait)
    case FromUnlockShared => Unshare(LoadUniqAgain)
  }

  function Without(s: seq<Thread>, t: Thread): seq<Thread> {
    if s == [] then [] else if s[0] == t then s[1..] else [s[0]] + Without(s[1..], t)
  }

  // ---------------------------------------------------------------------------------------------
  // Steps, grouped by the function they belong to

  /** A client that is not inside a function of the mutex calls one. */
  predicate CallStep(s: State, t: Thread, s': State) {
    var p := s.At(t);
    || (p == Outside && s' == s.Go(t, Lock(LockAcquire)))
    || (p == Outside && s' == s.Go(t, TryLock(TryAcquire)))
    || (p == Outside && s' == s.Go(t, Exit(ExitTest)))
    || (p == Outside && t in s.data && exists b :: s' == s.Go(t, Share(SharedSet(b))))
    || (p == Outside && t !in s.data && exists b :: s' == s.Go(t, Register(b, RegEnter)))
    || (p == HoldsUnique && s' == s.Go(t, Unlock(UnlockNo)))
    || (p == HoldsShared && s' == s.Go(t, Unshare(FlagClear(true))))
  }

  // Each function `...To` says where the next statement leads unless it waits for an internal mutex or fails to get it.

  function LockTo(s: State, t: Thread): State
    requires s.At(t).Lock?
  {
    match s.At(t).l
    case LockAcquire => s.Go(t, Lock(LockWant)).(mtx := Some(t))
    case LockWant => s.Go(t, Scan(ForLock, ScanEnter)).(uniq := Want)
    case LockYes => s.Go(t, HoldsUnique).(uniq := Yes)
    case LockWait => s.Go(t, Lock(LockAsleep)).(mtx := None)
    case LockAsleep => s.Go(t, Lock(LockReacquire))
    case LockReacquire => s.Go(t, Lock(LockWant)).(mtx := Some(t))
  }

  predicate LockStep(s: State, t: Thread, s': State) {
    && s.At(t).Lock? && (s.At(t).l.LockAcquire? || s.At(t).l.LockReacquire? ==> s.mtx == None)
    && s' == LockTo(s, t)
  }

  function TryLockTo(s: State, t: Thread): State
    requires s.At(t).TryLock?
  {
    match s.At(t).y
    case TryAcquire => s.Go(t, TryLock(TryWant)).(mtx := Some(t))
    case TryWant => s.Go(t, Scan(ForTryLock, ScanEnter)).(uniq := Want)
    case TryNo => s.Go(t, TryLock(TryRelease)).(uniq := No)
    case TryRelease => s.Go(t, Outside).(mtx := None)
    case TryYes => s.Go(t, HoldsUnique).(uniq := Yes)
  }

  /** `try_lock` of a standard mutex may fail even if the mutex is free. */
  predicate TryLockStep(s: State, t: Thread, s': State) {
    && s.At(t).TryLock?
    && if s.At(t).y.TryAcquire? then s' == s.Go(t, Outside) || (s.mtx == None && s' == TryLockTo(s, t))
       else s' == TryLockTo(s, t)
  }

  function UnlockTo(s: State, t: Thread): State
    requires s.At(t).Unlock?
  {
    match s.At(t).u
    case UnlockNo => s.Go(t, Unlock(UnlockNotify)).(uniq := No)
    case UnlockNotify => s.Go(t, Unlock(UnlockRelease))
    case UnlockRelease => s.Go(t, Notify(FromUnlock, NotifyTest)).(mtx := None)
  }

  predicate UnlockStep(s: State, t: Thread, s': State) {
    s.At(t).Unlock? && s' == UnlockTo(s, t)
  }

  function ScanTo(s: State, t: Thread): State
    requires s.At(t).Scan?
  {
    var k := s.At(t).scanner;
    match s.At(t).c
    case ScanEnter => s.Go(t, Scan(k, ScanHead)).(listS := s.listS + {t})
    case ScanHead => s.Go(t, Scan(k, ScanAt(s.head)))
    case ScanAt(ptr) =>
      s.Go(t, Scan(k, if ptr.None? then ScanLeave(true)
                      else if ptr.value in s.sharing then ScanLeave(false)
                      else ScanAt(s.LinkOf(ptr.value))))
    case ScanLeave(clear) => s.Go(t, AfterScan(k, clear)).(listS := s.listS - {t})
  }

  predicate ScanStep(s: State, t: Thread, s': State) {
    && s.At(t).Scan?
    && if s.At(t).c.ScanEnter? then
         (s.At(t).scanner == ForTryLock && s' == s.Go(t, TryLock(TryNo))) || (s.listX == None && s' == ScanTo(s, t))
       else s' == ScanTo(s, t)
  }

  function NotifyTo(s: State, t: Thread): State
    requires s.At(t).Notify?
  {
    var n := s.At(t).notifier;
    match s.At(t).n
    case NotifyTest =>
      if s.notifying then s.Go(t, AfterNotify(n)) else s.Go(t, Notify(n, NotifyOne)).(notifying := true)
    case NotifyOne => s.Go(t, Notify(n, NotifyClear))
    case NotifyClear => s.Go(t, AfterNotify(n)).(notifying := false)
  }

  predicate NotifyStep(s: State, t: Thread, s': State) {
    s.At(t).Notify? && s' == NotifyTo(s, t)
  }

  function RegisterTo(s: State, t: Thread): State
    requires s.At(t).Register?
  {
    var b := s.At(t).wait;
    match s.At(t).r
    case RegEnter => s.Go(t, Register(b, RegTest)).(listX := Some(t))
    case RegTest => s.Go(t, Register(b, if t in s.data then RegLeave else RegLink))
    case RegLink => s.Go(t, Register(b, RegHead)).(link := s.link[t := s.head])
    case RegHead => s.Go(t, Register(b, RegData)).(head := Some(t), chain := [t] + s.chain)
    case RegData => s.Go(t, Register(b, RegLeave)).(data := s.data + {t})
    case RegLeave => s.Go(t, Share(SharedSet(b))).(listX := None)
  }

  predicate RegisterStep(s: State, t: Thread, s': State) {
    && s.At(t).Register?
    && if s.At(t).r.RegEnter? then
         || (!s.At(t).wait && s' == s.Go(t, Outside))
         || (s.listX == None && s.listS == {} && s' == RegisterTo(s, t))
       else s' == RegisterTo(s, t)
  }

  function ShareTo(s: State, t: Thread): State
    requires s.At(t).Share?
  {
    match s.At(t).h
    case SharedSet(b) => s.Go(t, Share(SharedLoad(b))).(sharing := s.sharing + {t})
    case SharedLoad(b) =>
      s.Go(t, if s.uniq == No then HoldsShared else if b then Share(SharedAcquire) else Unshare(FlagClear(false)))
    case SharedAcquire => s.Go(t, Share(SharedTest)).(mtx := Some(t))
    case SharedTest => s.Go(t, Share(if s.uniq == No then SharedRelease else SharedClear))
    case SharedClear => s.Go(t, Notify(FromSharedWait, NotifyTest)).(sharing := s.sharing - {t})
    case SharedWait => s.Go(t, Share(SharedAsleep)).(mtx := None)
    case SharedAsleep => s.Go(t, Share(SharedReacquire))
    case SharedReacquire => s.Go(t, Share(SharedReset)).(mtx := Some(t))
    case SharedReset => s.Go(t, Share(SharedTest)).(sharing := s.sharing + {t})
    case SharedRelease => s.Go(t, HoldsShared).(mtx := None)
  }

  predicate ShareStep(s: State, t: Thread, s': State) {
    && s.At(t).Share? && (s.At(t).h.SharedAcquire? || s.At(t).h.SharedReacquire? ==> s.mtx == None)
    && s' == ShareTo(s, t)
  }

  function UnshareTo(s: State, t: Thread): State
    requires s.At(t).Unshare?
  {
    match s.At(t).v
    case FlagClear(_) => s.Go(t, Unshare(LoadUniq)).(sharing := s.sharing - {t})
    case LoadUniq => s.Go(t, if s.uniq != Want then Outside else Scan(ForUnlockShared, ScanEnter))
    case LoadUniqAgain => s.Go(t, if s.uniq != Want then Outside else Scan(ForUnlockShared, ScanEnter))
  }

  predicate UnshareStep(s: State, t: Thread, s': State) {
    s.At(t).Unshare? && s' == UnshareTo(s, t)
  }

  function ExitTo(s: State, t: Thread): State
    requires s.At(t).Exit?
  {
    match s.At(t).e
    case ExitTest => if t in s.data then s.Go(t, Exit(ExitEnter)) else s.(pc := s.pc - {t})
    case ExitEnter => s.Go(t, Exit(ExitWalk(None))).(listX := Some(t))
    case ExitWalk(prev) =>
      s.Go(t, Exit(if s.Deref(prev) == Some(t) then ExitUnlink(prev) else ExitWalk(s.Deref(prev))))
    case ExitUnlink(prev) =>
      (if prev.None? then s.(head := s.LinkOf(t)) else s.(link := s.link[prev.value := s.LinkOf(t)]))
      .Go(t, Exit(ExitLeave)).(chain := Without(s.chain, t))
    case ExitLeave => s.(listX := None, data := s.data - {t}, pc := s.pc - {t})
  }

  predicate ExitStep(s: State, t: Thread, s': State) {
    && s.At(t).Exit? && (s.At(t).e.ExitEnter? ==> s.listX == None && s.listS == {})
    && s' == ExitTo(s, t)
  }

  /** Thread `t` starts, or makes a step. */
  predicate Next(s: State, t: Thread, s': State) {
    if t !in s.pc then s' == s.Go(t, Outside)
    else
      || CallStep(s, t, s') || LockStep(s, t, s') || TryLockStep(s, t, s') || UnlockStep(s, t, s')
      || ScanStep(s, t, s') || NotifyStep(s, t, s') || RegisterStep(s, t, s') || ShareStep(s, t, s')
      || UnshareStep(s, t, s') || ExitStep(s, t, s')
  }

  // ---------------------------------------------------------------------------------------------
  // What holding a lock means

  /** From the store of `yes` to the store of `no`. */
  predicate IsUnique(p: PC) {
    p.HoldsUnique? || (p.Unlock? && p.u.UnlockNo?)
  }

  /** From the load of `no`, the flag being set, to the clearing of the flag. */
  predicate IsShared(p: PC) {
    p.HoldsShared? || (p.Share? && p.h.SharedRelease?) || (p.Unshare? && p.v.FlagClear? && p.v.held)
  }

  /** The lock a client of the mutex sees: free is shared by nobody. */
  datatype Holding = SharedBy(holders: set<Thread>) | OwnedBy(owner: Thread)

  function Abstract(s: State): Holding {
    if s.uniq == Yes && s.mtx.Some? then OwnedBy(s.mtx.value)
    else SharedBy(set t | t in s.pc && IsShared(s.At(t)))
  }

  predicate LegalStep(a: Holding, a': Holding, t: Thread) {
    || a' == a
    || (a == SharedBy({}) && a' == OwnedBy(t))
    || (a == OwnedBy(t) && a' == SharedBy({}))
    || (a.SharedBy? && t !in a.holders && a' == SharedBy(a.holders + {t}))
    || (a.SharedBy? && t in a.holders && a' == SharedBy(a.holders - {t}))
  }
}
