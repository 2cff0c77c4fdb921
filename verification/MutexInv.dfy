/** What holds in every reachable state of the mutex, one part of the invariant at a time. */
module MutexInv {
  import opened Common
  import opened Mutex

  // ---------------------------------------------------------------------------------------------
  // What a thread holds, by where it is

  datatype Access = Nothing | Reading | Writing

  /** Owner of uniq_mtx; access to the list; sharing flag up; inside notify_one; value `uniq` must have;
      whether the thread must, or must not, be registered. */
  datatype Role = Role(mtx: bool, list: Access, flag: bool, notifying: bool, uniq: Option<Unique>, reg: Option<bool>)

  const IDLE := Role(false, Nothing, false, false, None, None)

  predicate ForWriter(k: Scanner) {
    k != ForUnlockShared
  }

  function LockRole(p: LockPC): Role {
    match p
    case LockAcquire => IDLE
    case LockWant => Role(true, Nothing, false, false, None, None)
    case LockYes => Role(true, Nothing, false, false, Some(Want), None)
    case LockWait => Role(true, Nothing, false, false, Some(Want), None)
    case LockAsleep => IDLE
    case LockReacquire => IDLE
  }

  function TryLockRole(p: TryPC): Role {
    match p
    case TryAcquire => IDLE
    case TryWant => Role(true, Nothing, false, false, None, None)
    case TryNo => Role(true, Nothing, false, false, Some(Want), None)
    case TryRelease => Role(true, Nothing, false, false, Some(No), None)
    case TryYes => Role(true, Nothing, false, false, Some(Want), None)
  }

  function UnlockRole(p: UnlockPC): Role {
    Role(true, Nothing, false, false, Some(if p.UnlockNo? then Yes else No), None)
  }

  function ScanRole(k: Scanner, p: ScanPC): Role {
    Role(ForWriter(k), if p.ScanEnter? then Nothing else Reading, false, false,
         if ForWriter(k) then Some(Want) else None, None)
  }

  function NotifyRole(n: Notifier, p: NotifyPC): Role {
    if n == FromSharedWait then Role(true, Nothing, false, !p.NotifyTest?, Some(Want), Some(true))
    else Role(false, Nothing, false, !p.NotifyTest?, None, None)
  }

  function RegisterRole(p: RegisterPC): Role {
    match p
    case RegEnter => IDLE
    case RegTest => Role(false, Writing, false, false, None, None)
    case RegLink => Role(false, Writing, false, false, None, Some(false))
    case RegHead => Role(false, Writing, false, false, None, Some(false))
    case RegData => Role(false, Writing, false, false, None, Some(false))
    case RegLeave => Role(false, Writing, false, false, None, Some(true))
  }

  function ShareRole(p: SharePC): Role {
    match p
    case SharedSet(_) => Role(false, Nothing, false, false, None, Some(true))
    case SharedLoad(_) => Role(false, Nothing, true, false, None, Some(true))
    case SharedAcquire => Role(false, Nothing, true, false, None, Some(true))
    case SharedTest => Role(true, Nothing, true, false, None, Some(true))
    case SharedClear => Role(true, Nothing, true, false, Some(Want), Some(true))
    case SharedWait => Role(true, Nothing, false, false, Some(Want), Some(true))
    case SharedAsleep => Role(false, Nothing, false, false, None, Some(true))
    case SharedReacquire => Role(false, Nothing, false, false, None, Some(true))
    case SharedReset => Role(true, Nothing, false, false, None, Some(true))
    case SharedRelease => Role(true, Nothing, true, false, Some(No), Some(true))
  }

  function UnshareRole(p: UnsharePC): Role {
    if p.FlagClear? then Role(false, Nothing, true, false, None, Some(true)) else IDLE
  }

  function ExitRole(p: ExitPC): Role {
    match p
    case ExitTest => IDLE
    case ExitEnter => Role(false, Nothing, false, false, None, Some(true))
    case ExitWalk(_) => Role(false, Writing, false, false, None, Some(true))
    case ExitUnlink(_) => Role(false, Writing, false, false, None, Some(true))
    case ExitLeave => Role(false, Writing, false, false, None, Some(true))
  }

  function RoleOf(p: PC): Role {
    match p
    case Outside => IDLE
    case HoldsUnique => Role(true, Nothing, false, false, Some(Yes), None)
    case HoldsShared => Role(false, Nothing, true, false, None, Some(true))
    case Lock(l) => LockRole(l)
    case TryLock(y) => TryLockRole(y)
    case Unlock(u) => UnlockRole(u)
    case Scan(k, c) => ScanRole(k, c)
    case Notify(w, n) => NotifyRole(w, n)
    case Register(_, r) => RegisterRole(r)
    case Share(h) => ShareRole(h)
    case Unshare(v) => UnshareRole(v)
    case Exit(e) => ExitRole(e)
  }

  function RoleAt(s: State, t: Thread): Role {
    RoleOf(s.At(t))
  }

  // ---------------------------------------------------------------------------------------------
  // The invariant

  ghost predicate MtxInv(s: State) {
    forall t: Thread :: RoleAt(s, t).mtx <==> s.mtx == Some(t)
  }

  ghost predicate ListLockInv(s: State) {
    && (forall t: Thread :: RoleAt(s, t).list == Reading <==> t in s.listS)
    && (forall t: Thread :: RoleAt(s, t).list == Writing <==> s.listX == Some(t))
    && (s.listX.Some? ==> s.listS == {})
  }

  /** The sharing flag is a matter of where the thread is. */
  ghost predicate FlagInv(s: State) {
    forall t: Thread :: RoleAt(s, t).flag <==> t in s.sharing
  }

  /** At most one thread is inside `notify_one`, and the guard flag is up exactly meanwhile. */
  ghost predicate NotifyInv(s: State) {
    && (forall t: Thread :: RoleAt(s, t).notifying ==> s.notifying)
    && (forall t: Thread, u: Thread :: RoleAt(s, t).notifying && RoleAt(s, u).notifying ==> t == u)
    && (s.notifying ==> exists t: Thread :: RoleAt(s, t).notifying)
  }

  predicate Fits(r: Role, u: Unique) {
    r.uniq.Some? ==> u == r.uniq.value
  }

  /** `uniq` is `yes` exactly while the owner of uniq_mtx is between its two stores. */
  ghost predicate UniqInv(s: State) {
    && (forall t: Thread :: Fits(RoleAt(s, t), s.uniq))
    && (s.uniq == Yes ==> s.mtx.Some? && RoleAt(s, s.mtx.value).uniq == Some(Yes))
  }

  /** The links thread the sequence `chain`. */
  ghost predicate Threaded(head: Option<Thread>, link: map<Thread, Option<Thread>>, chain: seq<Thread>)
    decreases |chain|
  {
    if chain == [] then head == None
    else head == Some(chain[0]) && chain[0] in link && Threaded(link[chain[0]], link, chain[1..])
  }

  /** On the list are the threads that have registered and not left, and one that is about to note that it has. */
  predicate Linked(p: PC, registered: bool) {
    (p.Register? && p.r.RegData?) || (registered && !(p.Exit? && p.e.ExitLeave?))
  }

  predicate Knows(r: Role, registered: bool) {
    r.reg.Some? ==> registered == r.reg.value
  }

  ghost predicate DataInv(s: State) {
    s.data <= s.pc.Keys && forall t: Thread :: Knows(RoleAt(s, t), t in s.data)
  }

  ghost predicate ChainInv(s: State) {
    && Threaded(s.head, s.link, s.chain) && NoDup(s.chain)
    && (forall t: Thread :: t in s.chain <==> Linked(s.At(t), t in s.data))
  }

  /** Place of `t` in the list, the length of the list for None. */
  function Place(chain: seq<Thread>, t: Option<Thread>): nat {
    if t.None? || chain == [] then |chain|
    else if chain[0] == t.value then 0
    else 1 + Place(chain[1..], t)
  }

  /** A pointer that a walk along the list holds is into the list; a thread looking for its own entry has not passed
      it, and one about to unlink its entry has found it. */
  predicate WalkOk(p: PC, t: Thread, s: State) {
    && (p.Register? && p.r.RegHead? ==> t in s.link && s.link[t] == s.head)
    && (p.Scan? && p.c.ScanAt? && p.c.ptr.Some? ==> p.c.ptr.value in s.chain)
    && (p.Exit? && p.e.ExitWalk? && p.e.prev.Some? ==>
          p.e.prev.value in s.chain && Place(s.chain, p.e.prev) < Place(s.chain, Some(t)))
    && (p.Exit? && p.e.ExitUnlink? ==>
          (p.e.prev.Some? ==> p.e.prev.value in s.chain) && s.Deref(p.e.prev) == Some(t))
  }

  ghost predicate WalkInv(s: State) {
    forall t: Thread :: WalkOk(s.At(t), t, s)
  }

  /** All flags have been seen down by a writer, with `uniq` at `want` or `yes` ever since. */
  predicate SeenClear(p: PC) {
    || (p.Scan? && ForWriter(p.scanner) && p.c.ScanLeave? && p.c.clear) || (p.Lock? && p.l.LockYes?)
    || (p.TryLock? && p.y.TryYes?) || IsUnique(p)
  }

  predicate WriterScan(p: PC) {
    p.Scan? && p.c.ScanAt? && ForWriter(p.scanner)
  }

  /** While a writer scans, nobody whose flag it has passed holds the lock shared. */
  ghost predicate DekkerInv(s: State) {
    && (forall t: Thread, u: Thread :: SeenClear(s.At(t)) ==> !IsShared(s.At(u)))
    && (forall t: Thread, u: Thread :: WriterScan(s.At(t)) && IsShared(s.At(u)) ==>
          Place(s.chain, s.At(t).c.ptr) <= Place(s.chain, Some(u)))
  }

  ghost predicate Inv(s: State) {
    && MtxInv(s) && ListLockInv(s) && FlagInv(s) && NotifyInv(s) && UniqInv(s)
    && DataInv(s) && ChainInv(s) && WalkInv(s) && DekkerInv(s)
  }

  lemma StartInv()
    ensures Inv(START)
  {
  }
}
