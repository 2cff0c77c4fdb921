/** Runs that make each of the transitions between the named states, documented or not. */
module MutexRuns {
  import opened Common
  import opened Mutex
  import opened MutexSafety
  import opened MutexStates

  /** Some run makes a step from a state named `a` to a state named `b` by a statement of the kind `e`. */
  ghost predicate Occurs(a: Letters, e: Event, b: Letters) {
    exists s: State, t: Thread, s': State ::
      Reachable(s) && Next(s, t, s') && LettersOf(s) == a && EventOf(s.At(t)) == e && LettersOf(s') == b
  }

  lemma Starts(s: State, t: Thread)
    requires Reachable(s) && t !in s.pc
    ensures Reachable(s.Go(t, Outside))
  {
    ReachableStep(s, t, s.Go(t, Outside));
  }

  /** A caller of `try_lock` before its scan. */
  function Wanting(s: State, t: Thread): State {
    s.Go(t, Scan(ForTryLock, ScanEnter)).(mtx := Some(t), uniq := Want)
  }

  /** And after it has decided to give up. */
  function GivingUp(s: State, t: Thread): State {
    s.Go(t, TryLock(TryNo)).(mtx := Some(t), uniq := Want)
  }

  function GivenUp(s: State, t: Thread): State {
    s.Go(t, TryLock(TryRelease)).(mtx := Some(t), uniq := No)
  }

  /** It has uniq_mtx and is about to set `uniq`. */
  function Owning(s: State, t: Thread): State {
    s.Go(t, TryLock(TryWant)).(mtx := Some(t))
  }

  lemma Tries(s: State, t: Thread)
    requires Reachable(s) && t in s.pc && s.At(t) == Outside && s.mtx == None
    ensures Reachable(Owning(s, t)) && Next(Owning(s, t), t, Wanting(s, t)) && Reachable(Wanting(s, t))
  {
    hide Reachable;
    var s1 := s.Go(t, TryLock(TryAcquire));
    ReachableStep(s, t, s1);
    assert Owning(s, t) == s1.Go(t, TryLock(TryWant)).(mtx := Some(t));
    ReachableStep(s1, t, Owning(s, t));
    assert Wanting(s, t) == Owning(s, t).Go(t, Scan(ForTryLock, ScanEnter)).(uniq := Want);
    ReachableStep(Owning(s, t), t, Wanting(s, t));
  }

  lemma GivesUpAfter(s: State, t: Thread)
    requires Reachable(Wanting(s, t))
    ensures Reachable(GivingUp(s, t)) && Next(GivingUp(s, t), t, GivenUp(s, t)) && Reachable(GivenUp(s, t))
  {
    hide Reachable;
    assert GivingUp(s, t) == Wanting(s, t).Go(t, TryLock(TryNo));
    ReachableStep(Wanting(s, t), t, GivingUp(s, t));
    assert GivenUp(s, t) == GivingUp(s, t).Go(t, TryLock(TryRelease)).(uniq := No);
    ReachableStep(GivingUp(s, t), t, GivenUp(s, t));
  }

  /** A thread on the list, about to raise its flag for `try_lock_shared`. */
  function OnTheList(s: State, t: Thread): State {
    s.Go(t, Share(SharedSet(false))).(head := Some(t), link := s.link[t := s.head], data := s.data + {t},
                                      chain := [t] + s.chain)
  }

  /** Before it puts itself at the head. */
  function Linking(s: State, t: Thread): State {
    s.Go(t, Register(false, RegHead)).(listX := Some(t), link := s.link[t := s.head])
  }

  lemma Links(s: State, t: Thread)
    requires Reachable(s) && t in s.pc && s.At(t) == Outside && t !in s.data && s.listX == None && s.listS == {}
    ensures Reachable(Linking(s, t))
  {
    hide Reachable;
    var s1 := s.Go(t, Register(false, RegEnter));
    var s2 := s.Go(t, Register(false, RegTest)).(listX := Some(t));
    var s3 := s2.Go(t, Register(false, RegLink));
    ReachableStep(s, t, s1);
    assert s2 == s1.Go(t, Register(false, RegTest)).(listX := Some(t));
    ReachableStep(s1, t, s2);
    ReachableStep(s2, t, s3);
    assert Linking(s, t) == s3.Go(t, Register(false, RegHead)).(link := s3.link[t := s3.head]);
    ReachableStep(s3, t, Linking(s, t));
  }

  lemma GetsOnTheList(s: State, t: Thread)
    requires Reachable(s) && t in s.pc && s.At(t) == Outside && t !in s.data && s.listX == None && s.listS == {}
    ensures Reachable(OnTheList(s, t))
  {
    hide Reachable;
    Links(s, t);
    var s4 := Linking(s, t);
    var s5 := s4.Go(t, Register(false, RegData)).(head := Some(t), chain := [t] + s.chain);
    var s6 := s5.Go(t, Register(false, RegLeave)).(data := s.data + {t});
    ReachableStep(s4, t, s5);
    ReachableStep(s5, t, s6);
    assert OnTheList(s, t) == s6.Go(t, Share(SharedSet(false))).(listX := None);
    ReachableStep(s6, t, OnTheList(s, t));
  }

  /** Its flag is up. */
  function Raised(s: State, t: Thread): State {
    s.Go(t, Share(SharedLoad(false))).(sharing := s.sharing + {t})
  }

  lemma Raises(s: State, t: Thread)
    requires Reachable(s) && t in s.pc && s.At(t) == Share(SharedSet(false))
    ensures Next(s, t, Raised(s, t)) && Reachable(Raised(s, t))
  {
    ReachableStep(s, t, Raised(s, t));
  }

  // ---------------------------------------------------------------------------------------------
  // Three threads: 0 and 1 read, 2 tries to lock

  ghost predicate AreAt(s: State, p: PC, q: PC, r: PC) {
    s.pc == map[0 := p, 1 := q, 2 := r]
  }

  /** The name of a state of three threads. */
  lemma Named(s: State, p: PC, q: PC, r: PC)
    requires AreAt(s, p, q, r)
    ensures LettersOf(s) == Letters(Holds(p) || Holds(q) || Holds(r), s.uniq, s.sharing != {})
    ensures s.At(0) == p && s.At(1) == q && s.At(2) == r && 0 in s.pc && 1 in s.pc && 2 in s.pc
  {
    hide Holds;
    assert s.At(0) == p && s.At(1) == q && s.At(2) == r;
    assert forall t: Thread :: t !in {0, 1, 2} ==> s.At(t) == Outside;
    HoldsAt();
  }

  /** A step of one of the three. */
  lemma Makes(s: State, t: Thread, s': State, p: PC, q: PC, r: PC, p': PC, q': PC, r': PC)
    requires Reachable(s) && Next(s, t, s') && AreAt(s, p, q, r) && AreAt(s', p', q', r')
    ensures Reachable(s')
    ensures Occurs(Letters(Holds(p) || Holds(q) || Holds(r), s.uniq, s.sharing != {}), EventOf(s.At(t)),
                   Letters(Holds(p') || Holds(q') || Holds(r'), s'.uniq, s'.sharing != {}))
  {
    ReachableStep(s, t, s');
    Named(s, p, q, r);
    Named(s', p', q', r');
    hide Reachable, Next, Holds, EventOf, LettersOf, AreAt;
  }

  const ASKS := Share(SharedLoad(false))
  const BEGINS_SCAN := Scan(ForTryLock, ScanEnter)

  lemma HoldsAt()
    ensures !Holds(Outside) && !Holds(ASKS) && !Holds(BEGINS_SCAN) && !Holds(Share(SharedSet(false)))
    ensures !Holds(Unshare(LoadUniq)) && !Holds(Unshare(FlagClear(false))) && !Holds(Unlock(UnlockNotify))
    ensures !Holds(TryLock(TryWant)) && !Holds(TryLock(TryNo)) && !Holds(TryLock(TryRelease)) && !Holds(TryLock(TryYes))
    ensures Holds(HoldsShared) && Holds(HoldsUnique) && Holds(Unshare(FlagClear(true))) && Holds(Unlock(UnlockNo))
  {
  }

  lemma EventAt(b: bool)
    ensures EventOf(Share(SharedSet(b))) == SetsFlag && EventOf(Share(SharedLoad(b))) == LoadsUniq
    ensures EventOf(Unshare(FlagClear(b))) == ClearsFlag && EventOf(Unlock(UnlockNo)) == StoresNo
    ensures EventOf(TryLock(TryWant)) == StoresWant && EventOf(TryLock(TryYes)) == StoresYes
    ensures EventOf(TryLock(TryNo)) == GivesUp
  {
  }

  function Three(): State {
    START.Go(0, Outside).Go(1, Outside).Go(2, Outside)
  }

  lemma ThreeStart()
    ensures Reachable(Three()) && AreAt(Three(), Outside, Outside, Outside)
    ensures Three() == START.(pc := Three().pc)
  {
    var nobody: seq<Thread> := [];
    assert Run([START], nobody) && [START][|nobody|] == START;
    assert Reachable(START);
    hide Reachable;
    Starts(START, 0);
    Starts(START.Go(0, Outside), 1);
    Starts(START.Go(0, Outside).Go(1, Outside), 2);
  }

  // ---------------------------------------------------------------------------------------------
  // Single steps beside whatever the other threads do; `l` is whether one of them holds the lock

  /** Thread 1 raises the first flag. */
  lemma FirstFlag(s: State, r: PC)
    requires Reachable(s) && AreAt(s, Outside, Share(SharedSet(false)), r) && s.sharing == {}
    ensures Reachable(Raised(s, 1)) && AreAt(Raised(s, 1), Outside, ASKS, r)
    ensures Occurs(Letters(Holds(r), s.uniq, false), SetsFlag, Letters(Holds(r), s.uniq, true))
  {
    hide Reachable, Next, Occurs, Holds, EventOf;
    assert s.At(1) == Share(SharedSet(false));
    Raises(s, 1);
    assert 1 in Raised(s, 1).sharing;
    HoldsAt();
    EventAt(false);
    Makes(s, 1, Raised(s, 1), Outside, Share(SharedSet(false)), r, Outside, ASKS, r);
  }

  /** Thread 1 lowers its flag. */
  function Lowered(s: State): State {
    s.Go(1, Unshare(LoadUniq)).(sharing := s.sharing - {1})
  }

  lemma Lowers(s: State, held: bool)
    requires 1 in s.pc && s.At(1) == Unshare(FlagClear(held))
    ensures Next(s, 1, Lowered(s))
  {
  }

  lemma Clears(s: State, p: PC, r: PC, held: bool)
    requires Reachable(s) && AreAt(s, p, Unshare(FlagClear(held)), r) && 1 in s.sharing
    ensures Occurs(Letters(Holds(p) || held || Holds(r), s.uniq, true), ClearsFlag,
                   Letters(Holds(p) || Holds(r), s.uniq, s.sharing - {1} != {}))
  {
    hide Reachable, Next, Occurs, Holds, EventOf;
    Lowers(s, held);
    HoldsAt();
    EventAt(held);
    assert Holds(Unshare(FlagClear(held))) == held;
    Makes(s, 1, Lowered(s), p, Unshare(FlagClear(held)), r, p, Unshare(LoadUniq), r);
  }

  /** Thread 2 begins a `try_lock`. */
  lemma StoreWant(s: State, q: PC)
    requires Reachable(s) && AreAt(s, Outside, q, Outside) && s.mtx == None
    ensures Reachable(Wanting(s, 2)) && AreAt(Wanting(s, 2), Outside, q, BEGINS_SCAN)
    ensures Occurs(Letters(Holds(q), s.uniq, s.sharing != {}), StoresWant, Letters(Holds(q), Want, s.sharing != {}))
  {
    hide Reachable, Next, Occurs, Holds, EventOf;
    assert s.At(2) == Outside;
    Tries(s, 2);
    HoldsAt();
    EventAt(false);
    Makes(Owning(s, 2), 2, Wanting(s, 2), Outside, q, TryLock(TryWant), Outside, q, BEGINS_SCAN);
  }

  /** A failed `try_lock`. */
  lemma FailedTry(s: State, q: PC)
    requires Reachable(s) && AreAt(s, Outside, q, Outside) && s.mtx == None
    ensures Reachable(GivenUp(s, 2))
    ensures Occurs(Letters(Holds(q), Want, s.sharing != {}), GivesUp, Letters(Holds(q), No, s.sharing != {}))
  {
    hide Reachable, Next, Occurs, Holds, EventOf;
    assert s.At(2) == Outside;
    Tries(s, 2);
    GivesUpAfter(s, 2);
    HoldsAt();
    EventAt(false);
    Makes(GivingUp(s, 2), 2, GivenUp(s, 2), Outside, q, TryLock(TryNo), Outside, q, TryLock(TryRelease));
  }

  /** Thread 2 has the lock. */
  function Granted(s: State): State {
    s.Go(2, HoldsUnique).(uniq := Yes)
  }

  lemma Grants(s: State)
    requires 2 in s.pc && s.At(2) == TryLock(TryYes)
    ensures Next(s, 2, Granted(s))
  {
  }

  lemma StoreYes(s: State, q: PC)
    requires Reachable(s) && AreAt(s, Outside, q, TryLock(TryYes)) && s.uniq == Want && !Holds(q)
    ensures Reachable(Granted(s)) && AreAt(Granted(s), Outside, q, HoldsUnique)
    ensures Occurs(Letters(false, Want, s.sharing != {}), StoresYes, Letters(true, Yes, s.sharing != {}))
  {
    hide Reachable, Next, Occurs, Holds, EventOf;
    Grants(s);
    HoldsAt();
    EventAt(false);
    Makes(s, 2, Granted(s), Outside, q, TryLock(TryYes), Outside, q, HoldsUnique);
  }

  /** Thread 2 is about to give the lock up. */
  function Releasing(s: State): State {
    s.Go(2, Unlock(UnlockNo))
  }

  function Released(s: State): State {
    s.Go(2, Unlock(UnlockNotify)).(uniq := No)
  }

  lemma Releases(s: State)
    requires 2 in s.pc && s.At(2) == HoldsUnique
    ensures Next(s, 2, Releasing(s)) && Next(Releasing(s), 2, Released(s))
  {
    assert Released(s) == Releasing(s).Go(2, Unlock(UnlockNotify)).(uniq := No);
  }

  lemma StoreNo(s: State, q: PC)
    requires Reachable(s) && AreAt(s, Outside, q, HoldsUnique) && s.uniq == Yes && !Holds(q)
    ensures Occurs(Letters(true, Yes, s.sharing != {}), StoresNo, Letters(false, No, s.sharing != {}))
  {
    hide Reachable, Next, Occurs, Holds, EventOf;
    Releases(s);
    ReachableStep(s, 2, Releasing(s));
    HoldsAt();
    EventAt(false);
    Makes(Releasing(s), 2, Released(s), Outside, q, Unlock(UnlockNo), Outside, q, Unlock(UnlockNotify));
  }

  // ---------------------------------------------------------------------------------------------
  // Thread 1 and its flag

  /** Thread 1 is on the list, its flag still down. */
  function Waiting(): State {
    OnTheList(Three(), 1)
  }

  lemma WaitingReached()
    ensures Reachable(Waiting()) && AreAt(Waiting(), Outside, Share(SharedSet(false)), Outside)
    ensures Waiting() == State(No, false, None, None, {}, Some(1), map[1 := None], {1}, {}, Waiting().pc, [1])
  {
    ThreeStart();
    hide Reachable;
    GetsOnTheList(Three(), 1);
  }

  /** Its flag is up, and it has not yet loaded `uniq`. */
  function Asking(): State {
    Raised(Waiting(), 1)
  }

  lemma AskingReached()
    ensures Reachable(Asking()) && AreAt(Asking(), Outside, ASKS, Outside)
    ensures Asking() == Waiting().(sharing := {1}, pc := Asking().pc)
    ensures Occurs(UNs, SetsFlag, UNS)
  {
    WaitingReached();
    HoldsAt();
    hide Reachable, Occurs, Holds, Waiting;
    FirstFlag(Waiting(), Outside);
  }

  /** It holds the lock shared. */
  function Reading(): State {
    Asking().Go(1, HoldsShared)
  }

  lemma Loads(s: State)
    requires 1 in s.pc && s.At(1) == ASKS && s.uniq == No
    ensures Next(s, 1, s.Go(1, HoldsShared))
  {
  }

  lemma ReadingReached()
    ensures Reachable(Reading()) && AreAt(Reading(), Outside, HoldsShared, Outside)
    ensures Occurs(UNS, LoadsUniq, LNS)
  {
    hide Reachable, Next, Occurs, Holds, EventOf, Waiting, Asking;
    AskingReached();
    WaitingReached();
    HoldsAt();
    EventAt(false);
    var s := Asking();
    assert s.At(1) == ASKS && 1 in s.sharing;
    Loads(s);
    Makes(s, 1, Reading(), Outside, ASKS, Outside, Outside, HoldsShared, Outside);
  }

  /** It is about to clear its flag. */
  function Leaving(): State {
    Asking().Go(1, Unshare(FlagClear(true)))
  }

  lemma LeavingReached()
    ensures Reachable(Leaving()) && AreAt(Leaving(), Outside, Unshare(FlagClear(true)), Outside)
    ensures Leaving() == Asking().(pc := Leaving().pc) && Asking() == Waiting().(sharing := {1}, pc := Asking().pc)
    ensures Waiting() == State(No, false, None, None, {}, Some(1), map[1 := None], {1}, {}, Waiting().pc, [1])
  {
    AskingReached();
    WaitingReached();
    ReadingReached();
    hide Reachable, Occurs, Waiting, Asking;
    assert Leaving() == Reading().Go(1, Unshare(FlagClear(true))) && Reading().At(1) == HoldsShared;
    ReachableStep(Reading(), 1, Leaving());
  }

  /** What readers do while no writer wants the lock. */
  lemma ReadersOccur()
    ensures Occurs(UNs, SetsFlag, UNS) && Occurs(UNS, LoadsUniq, LNS) && Occurs(LNS, ClearsFlag, UNs)
  {
    AskingReached();
    ReadingReached();
    LeavingReached();
    HoldsAt();
    hide Reachable, Occurs, Holds, Waiting, Asking, Leaving;
    Clears(Leaving(), Outside, Outside, true);
    assert Leaving().sharing - {1} == {};
  }

  /** What a writer does that comes and gives up. */
  lemma TriesOccur()
    ensures Occurs(UNs, StoresWant, UWs) && Occurs(UNS, StoresWant, UWS) && Occurs(LNS, StoresWant, LWS)
    ensures Occurs(UWs, GivesUp, UNs) && Occurs(UWS, GivesUp, UNS) && Occurs(LWS, GivesUp, LNS)
  {
    ThreeStart();
    WaitingReached();
    AskingReached();
    LeavingReached();
    HoldsAt();
    hide Reachable, Occurs, Holds, Three, Waiting, Asking, Leaving;
    StoreWant(Three(), Outside);
    StoreWant(Asking(), ASKS);
    StoreWant(Leaving(), Unshare(FlagClear(true)));
    FailedTry(Three(), Outside);
    FailedTry(Asking(), ASKS);
    FailedTry(Leaving(), Unshare(FlagClear(true)));
  }

  /** Thread 1 has loaded another value than `no` and is about to lower its flag. */
  function Doubting(s: State): State {
    s.Go(1, Unshare(FlagClear(false)))
  }

  lemma Doubts(s: State, r: PC)
    requires Reachable(s) && AreAt(s, Outside, ASKS, r) && s.uniq != No
    ensures Reachable(Doubting(s)) && AreAt(Doubting(s), Outside, Unshare(FlagClear(false)), r)
  {
    hide Reachable;
    assert s.At(1) == ASKS && Next(s, 1, Doubting(s));
    ReachableStep(s, 1, Doubting(s));
  }

  /** A reader withdraws because a writer wants the lock, which may itself have given up by then. */
  lemma WithdrawalsOccur()
    ensures Occurs(UWS, ClearsFlag, UWs) && Occurs(UNS, ClearsFlag, UNs)
  {
    hide Reachable, Occurs, Holds, Waiting, Asking;
    WaitingReached();
    AskingReached();
    HoldsAt();
    StoreWant(Asking(), ASKS);
    var s := Doubting(Wanting(Asking(), 2));
    Doubts(Wanting(Asking(), 2), BEGINS_SCAN);
    assert s == Wanting(Doubting(Asking()), 2);
    GivesUpAfter(Doubting(Asking()), 2);
    Clears(s, Outside, BEGINS_SCAN, false);
    Clears(GivenUp(Doubting(Asking()), 2), Outside, TryLock(TryRelease), false);
    assert s.sharing - {1} == {};
  }

  /** A reader leaves while a writer wants the lock. */
  lemma LeaveForWriterOccurs()
    ensures Occurs(LWS, ClearsFlag, UWs)
  {
    LeavingReached();
    HoldsAt();
    hide Reachable, Occurs, Holds, Waiting, Asking, Leaving;
    StoreWant(Leaving(), Unshare(FlagClear(true)));
    Clears(Wanting(Leaving(), 2), Outside, BEGINS_SCAN, true);
    assert Leaving().sharing - {1} == {};
  }

  // ---------------------------------------------------------------------------------------------
  // Another flag stays up when the last holder leaves

  /** Thread 0 has its flag up, beside thread 1 which is about to clear its own. */
  function TwoFlags(): State {
    Raised(OnTheList(Leaving(), 0), 0)
  }

  lemma TwoFlagsReached()
    ensures Reachable(TwoFlags()) && AreAt(TwoFlags(), ASKS, Unshare(FlagClear(true)), Outside)
    ensures TwoFlags().uniq == No && TwoFlags().mtx == None && TwoFlags().sharing == {0, 1}
  {
    LeavingReached();
    hide Reachable, Waiting, Asking, Leaving;
    assert Leaving().At(0) == Outside;
    GetsOnTheList(Leaving(), 0);
    Raises(OnTheList(Leaving(), 0), 0);
  }

  lemma FlagsLeftUp()
    ensures Occurs(LNS, ClearsFlag, UNS) && Occurs(LWS, ClearsFlag, UWS)
  {
    TwoFlagsReached();
    HoldsAt();
    hide Reachable, Occurs, Holds, TwoFlags;
    var s := TwoFlags();
    assert 0 in s.sharing - {1};
    Clears(s, ASKS, Outside, true);
    assert s.At(2) == Outside;
    Tries(s, 2);
    Clears(Wanting(s, 2), ASKS, BEGINS_SCAN, true);
  }

  // ---------------------------------------------------------------------------------------------
  // A writer that gets the lock

  /** The writer in its scan. */
  function Scans(s: State, c: ScanPC): State {
    s.Go(2, Scan(ForTryLock, c)).(mtx := Some(2), uniq := Want, listS := {2})
  }

  /** The writer after its scan, in which it has seen every flag down. */
  function Seen(s: State): State {
    s.Go(2, TryLock(TryYes)).(mtx := Some(2), uniq := Want, listS := {})
  }

  lemma ScanBegins(s: State)
    requires s.listX == None && s.listS == {} && s.head == Some(1)
    ensures Next(Wanting(s, 2), 2, Scans(s, ScanHead))
    ensures Next(Scans(s, ScanHead), 2, Scans(s, ScanAt(Some(1))))
  {
    assert Scans(s, ScanHead) == Wanting(s, 2).Go(2, Scan(ForTryLock, ScanHead)).(listS := {} + {2});
    assert Scans(s, ScanAt(Some(1))) == Scans(s, ScanHead).Go(2, Scan(ForTryLock, ScanAt(Some(1))));
  }

  lemma ScanEnds(s: State)
    requires s.link == map[1 := None] && s.sharing == {}
    ensures Next(Scans(s, ScanAt(Some(1))), 2, Scans(s, ScanAt(None)))
    ensures Next(Scans(s, ScanAt(None)), 2, Scans(s, ScanLeave(true)))
  {
    assert Scans(s, ScanAt(None)) == Scans(s, ScanAt(Some(1))).Go(2, Scan(ForTryLock, ScanAt(None)));
    assert Scans(s, ScanLeave(true)) == Scans(s, ScanAt(None)).Go(2, Scan(ForTryLock, ScanLeave(true)));
  }

  lemma ScanSees(s: State)
    ensures Next(Scans(s, ScanLeave(true)), 2, Seen(s))
  {
    assert Seen(s) == Scans(s, ScanLeave(true)).Go(2, TryLock(TryYes)).(listS := {2} - {2});
  }

  lemma SeenReached(s: State)
    requires Reachable(Wanting(s, 2))
    requires s.listX == None && s.listS == {} && s.head == Some(1) && s.link == map[1 := None] && s.sharing == {}
    ensures Reachable(Seen(s))
  {
    ScanBegins(s);
    ScanEnds(s);
    ScanSees(s);
    hide Next, Reachable, Scans, Seen, Wanting;
    ReachableStep(Wanting(s, 2), 2, Scans(s, ScanHead));
    ReachableStep(Scans(s, ScanHead), 2, Scans(s, ScanAt(Some(1))));
    ReachableStep(Scans(s, ScanAt(Some(1))), 2, Scans(s, ScanAt(None)));
    ReachableStep(Scans(s, ScanAt(None)), 2, Scans(s, ScanLeave(true)));
    ReachableStep(Scans(s, ScanLeave(true)), 2, Seen(s));
  }

  /** The scan is over, and the flag of thread 1 is down. */
  lemma ScannedReached()
    ensures Reachable(Seen(Waiting())) && AreAt(Seen(Waiting()), Outside, Share(SharedSet(false)), TryLock(TryYes))
    ensures Seen(Waiting()).uniq == Want && Seen(Waiting()).sharing == {}
    ensures Occurs(UWs, SetsFlag, UWS)
  {
    WaitingReached();
    HoldsAt();
    hide Reachable, Occurs, Waiting, Holds;
    StoreWant(Waiting(), Share(SharedSet(false)));
    FirstFlag(Wanting(Waiting(), 2), BEGINS_SCAN);
    SeenReached(Waiting());
  }

  /** The writer gets the lock, with the flag of thread 1 down or raised after the scan. */
  lemma GrantsOccur()
    ensures Occurs(UWs, SetsFlag, UWS) && Occurs(UWs, StoresYes, LYs) && Occurs(UWS, StoresYes, LYS)
    ensures Occurs(LYs, SetsFlag, LYS)
  {
    ScannedReached();
    HoldsAt();
    hide Reachable, Occurs, Holds, Waiting, Seen;
    var s := Seen(Waiting());
    StoreYes(s, Share(SharedSet(false)));
    FirstFlag(Granted(s), HoldsUnique);
    FirstFlag(s, TryLock(TryYes));
    assert 1 in Raised(s, 1).sharing;
    StoreYes(Raised(s, 1), ASKS);
  }

  /** And gives it up, or the reader gives up meanwhile. */
  lemma ReleasesOccur()
    ensures Occurs(LYs, StoresNo, UNs) && Occurs(LYS, StoresNo, UNS) && Occurs(LYS, ClearsFlag, LYs)
  {
    ScannedReached();
    HoldsAt();
    hide Reachable, Occurs, Holds, Waiting, Seen;
    var s := Seen(Waiting());
    StoreYes(s, Share(SharedSet(false)));
    StoreNo(Granted(s), Share(SharedSet(false)));
    var a := Raised(Granted(s), 1);
    FirstFlag(Granted(s), HoldsUnique);
    assert 1 in a.sharing;
    StoreNo(a, ASKS);
    Doubts(a, HoldsUnique);
    Clears(Doubting(a), Outside, HoldsUnique, false);
    assert Doubting(a).sharing - {1} == {};
  }

  lemma AllOccur(a: Letters, e: Event, b: Letters)
    requires Documented(a, e, b) || Undocumented(a, e, b)
    ensures Occurs(a, e, b)
  {
    hide Occurs;
    ReadersOccur();
    TriesOccur();
    WithdrawalsOccur();
    LeaveForWriterOccurs();
    FlagsLeftUp();
    GrantsOccur();
    ReleasesOccur();
  }

  /** The table is exact: these transitions, by these events, and no others. */
  lemma TableExact(a: Letters, e: Event, b: Letters)
    requires a != b
    ensures Occurs(a, e, b) <==> Documented(a, e, b) || Undocumented(a, e, b)
  {
    if Occurs(a, e, b) {
      var s: State, t: Thread, s': State :|
        Reachable(s) && Next(s, t, s') && LettersOf(s) == a && EventOf(s.At(t)) == e && LettersOf(s') == b;
      hide Reachable, Next, LettersOf, EventOf, Occurs;
      Transitions(s, t, s');
    } else if Documented(a, e, b) || Undocumented(a, e, b) {
      AllOccur(a, e, b);
    }
  }

  /** The transition UWS to LNS of the documentation is no single step: the writer gives up, and then a reader loads. */
  lemma TwoSteps(e: Event)
    ensures !Occurs(UWS, e, LNS) && Occurs(UWS, GivesUp, UNS) && Occurs(UNS, LoadsUniq, LNS)
  {
    hide Occurs;
    TableExact(UWS, e, LNS);
    TableExact(UWS, GivesUp, UNS);
    TableExact(UNS, LoadsUniq, LNS);
  }

  // ---------------------------------------------------------------------------------------------
  // A writer that nobody wakes

  /** Thread 2 in the scan of its `lock`. */
  function LockScans(s: State, c: ScanPC): State {
    s.Go(2, Scan(ForLock, c)).(mtx := Some(2), uniq := Want, listS := {2})
  }

  lemma LockBegins(s: State)
    requires Reachable(s) && 2 in s.pc && s.At(2) == Outside && s.mtx == None && s.listX == None && s.listS == {}
    ensures Reachable(LockScans(s, ScanHead))
  {
    hide Reachable;
    var s1 := s.Go(2, Lock(LockAcquire));
    var s2 := s.Go(2, Lock(LockWant)).(mtx := Some(2));
    var s3 := s.Go(2, Scan(ForLock, ScanEnter)).(mtx := Some(2), uniq := Want);
    ReachableStep(s, 2, s1);
    assert s2 == s1.Go(2, Lock(LockWant)).(mtx := Some(2));
    ReachableStep(s1, 2, s2);
    assert s3 == s2.Go(2, Scan(ForLock, ScanEnter)).(uniq := Want);
    ReachableStep(s2, 2, s3);
    assert LockScans(s, ScanHead) == s3.Go(2, Scan(ForLock, ScanHead)).(listS := {} + {2});
    ReachableStep(s3, 2, LockScans(s, ScanHead));
  }

  lemma LockSeesFlag(s: State)
    requires Reachable(LockScans(s, ScanHead)) && s.head == Some(1) && 1 in s.sharing
    ensures Reachable(LockScans(s, ScanLeave(false)))
  {
    hide Reachable;
    assert LockScans(s, ScanAt(Some(1))) == LockScans(s, ScanHead).Go(2, Scan(ForLock, ScanAt(Some(1))));
    ReachableStep(LockScans(s, ScanHead), 2, LockScans(s, ScanAt(Some(1))));
    assert LockScans(s, ScanLeave(false)) == LockScans(s, ScanAt(Some(1))).Go(2, Scan(ForLock, ScanLeave(false)));
    ReachableStep(LockScans(s, ScanAt(Some(1))), 2, LockScans(s, ScanLeave(false)));
  }

  /** Thread 2 is asleep, with `uniq` at `want`. */
  function Asleep(s: State): State {
    s.Go(2, Lock(LockAsleep)).(uniq := Want)
  }

  lemma FallsAsleep(s: State)
    requires Reachable(LockScans(s, ScanLeave(false))) && s.mtx == None && s.listS == {}
    ensures Reachable(Asleep(s))
  {
    hide Reachable;
    var a := LockScans(s, ScanLeave(false));
    var b := s.Go(2, Lock(LockWait)).(mtx := Some(2), uniq := Want);
    assert b == a.Go(2, Lock(LockWait)).(listS := {2} - {2});
    ReachableStep(a, 2, b);
    assert Asleep(s) == b.Go(2, Lock(LockAsleep)).(mtx := None);
    ReachableStep(b, 2, Asleep(s));
  }

  /** Thread 0 has tried to get the lock and failed. */
  function Failed(s: State): State {
    s.Go(0, Outside).(uniq := No)
  }

  lemma Fails(s: State)
    requires Reachable(s) && 0 in s.pc && s.At(0) == Outside && s.mtx == None
    ensures Reachable(Failed(s))
  {
    hide Reachable;
    Tries(s, 0);
    GivesUpAfter(s, 0);
    assert Failed(s) == GivenUp(s, 0).Go(0, Outside).(mtx := None);
    ReachableStep(GivenUp(s, 0), 0, Failed(s));
  }

  /** Thread 1, which held the lock shared, has left. */
  function Left(s: State): State {
    s.Go(1, Outside).(sharing := s.sharing - {1})
  }

  lemma Leaves(s: State)
    requires Reachable(s) && 1 in s.pc && s.At(1) == HoldsShared && s.uniq == No
    ensures Reachable(Left(s))
  {
    hide Reachable;
    var a := s.Go(1, Unshare(FlagClear(true)));
    ReachableStep(s, 1, a);
    Lowers(a, true);
    ReachableStep(a, 1, Lowered(a));
    assert Left(s) == Lowered(a).Go(1, Outside);
    ReachableStep(Lowered(a), 1, Left(s));
  }

  /** A writer is asleep, nobody holds or wants the lock, and no other thread is in the code to notify it. */
  ghost predicate Forgotten(s: State, t: Thread) {
    && s.At(t) == Lock(LockAsleep) && s.uniq == No && s.sharing == {} && s.mtx == None
    && forall u: Thread :: u != t ==> s.At(u) == Outside
  }

  /** A writer may sleep while the lock is free: a failed `try_lock` has set `uniq` to `no`, and so the last reader
      leaves without a notification. */
  lemma LostWakeUp()
    ensures exists s: State, t: Thread :: Reachable(s) && Forgotten(s, t)
  {
    hide Reachable, Next, Occurs, Waiting, Asking;
    WaitingReached();
    AskingReached();
    ReadingReached();
    var s := Reading();
    assert 1 in s.sharing && s.At(2) == Outside;
    LockBegins(s);
    LockSeesFlag(s);
    FallsAsleep(s);
    var a := Asleep(s);
    assert a.At(0) == Outside;
    Fails(a);
    assert Failed(a).At(1) == HoldsShared;
    Leaves(Failed(a));
    assert Forgotten(Left(Failed(a)), 2);
  }
}
