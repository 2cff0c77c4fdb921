/** Every step of the mutex keeps the invariant. */
module MutexSteps {
  import opened Common
  import opened Mutex
  import opened MutexInv
  import opened MutexEffects
  import opened MutexList
  import opened MutexPaths

  ghost predicate OthersStay(s: State, t: Thread, s': State) {
    forall u: Thread :: u != t ==> s'.At(u) == s.At(u)
  }

  lemma Others(s: State, t: Thread, s': State)
    requires PcEffect(s, t, s')
    ensures OthersStay(s, t, s')
  {
  }

  lemma MtxStep(s: State, t: Thread, s': State)
    requires MtxInv(s) && OthersStay(s, t, s')
    requires MtxEffect(RoleAt(s, t), RoleAt(s', t), s.mtx, s'.mtx, t)
    ensures MtxInv(s')
  {
    hide RoleOf;
  }

  lemma ListLockStep(s: State, t: Thread, s': State)
    requires ListLockInv(s) && OthersStay(s, t, s')
    requires ListLockEffect(RoleAt(s, t), RoleAt(s', t), s, s', t)
    ensures ListLockInv(s')
  {
    hide RoleOf;
  }

  lemma FlagStep(s: State, t: Thread, s': State)
    requires FlagInv(s) && OthersStay(s, t, s')
    requires FlagEffect(RoleAt(s, t), RoleAt(s', t), s.sharing, s'.sharing, t)
    ensures FlagInv(s')
  {
    hide RoleOf;
  }

  lemma NotifyInvStep(s: State, t: Thread, s': State)
    requires NotifyInv(s) && OthersStay(s, t, s')
    requires NotifyEffect(RoleAt(s, t), RoleAt(s', t), s.notifying, s'.notifying)
    ensures NotifyInv(s')
  {
    hide RoleOf;
    assert forall u: Thread :: u != t ==> RoleAt(s', u) == RoleAt(s, u);
    if s'.notifying {
      if RoleAt(s', t).notifying {
      } else {
        var u: Thread :| RoleAt(s, u).notifying;
        assert RoleAt(s', u) == RoleAt(s, u);
      }
    }
  }

  /** Only the owner of uniq_mtx relies on the value of `uniq`. */
  lemma Claims(p: PC)
    ensures RoleOf(p).uniq.Some? ==> RoleOf(p).mtx
  {
  }

  lemma UniqStep(s: State, t: Thread, s': State)
    requires MtxInv(s) && UniqInv(s) && MtxInv(s') && OthersStay(s, t, s')
    requires UniqEffect(RoleAt(s, t), RoleAt(s', t), s.uniq, s'.uniq)
    requires MtxEffect(RoleAt(s, t), RoleAt(s', t), s.mtx, s'.mtx, t)
    ensures UniqInv(s')
  {
    forall u: Thread ensures RoleAt(s, u).uniq.Some? ==> RoleAt(s, u).mtx { Claims(s.At(u)); }
    hide RoleOf;
  }

  lemma DataStep(s: State, t: Thread, s': State)
    requires DataInv(s) && OthersStay(s, t, s') && PcEffect(s, t, s')
    requires DataEffect(s.At(t), RoleAt(s', t), s.data, s'.data, t)
    ensures DataInv(s')
  {
    hide RoleOf;
  }

  // ---------------------------------------------------------------------------------------------
  // The list

  /** Where a thread needs the list to stay as it is. */
  predicate OnList(p: PC) {
    || (p.Scan? && p.c.ScanAt?) || (p.Register? && (p.r == RegLink || p.r == RegHead))
    || (p.Exit? && (p.e.ExitWalk? || p.e.ExitUnlink?))
  }

  lemma OnListHolds(p: PC)
    ensures OnList(p) ==> RoleOf(p).list == if p.Scan? then Reading else Writing
    ensures IsShared(p) ==> RoleOf(p).flag && RoleOf(p).reg == Some(true)
    ensures (SeenClear(p) || WriterScan(p)) ==> RoleOf(p).uniq.Some? && RoleOf(p).uniq != Some(No)
  {
  }

  lemma Unlinked(p: PC)
    ensures p.Register? && (p.r == RegLink || p.r == RegHead) ==> RoleOf(p).reg == Some(false)
    ensures p.Exit? && (p.e.ExitWalk? || p.e.ExitUnlink?) ==> RoleOf(p).reg == Some(true)
  {
  }

  /** The list does not change under a thread that walks along it. */
  lemma ListStays(s: State, t: Thread, s': State, u: Thread)
    requires ListLockInv(s) && ChainEffect(s, t, s') && u != t && OnList(s.At(u))
    ensures SameList(s, s')
  {
    OnListHolds(s.At(t));
    OnListHolds(s.At(u));
    hide RoleOf;
    assert RoleAt(s, t).list == Writing ==> s.listX == Some(t) && s.listS == {};
    assert RoleAt(s, u).list == Writing ==> s.listX == Some(u);
    assert RoleAt(s, u).list == Reading ==> u in s.listS;
  }

  lemma Linking(s: State, t: Thread)
    requires ChainInv(s) && WalkInv(s) && DataInv(s)
    requires s.At(t).Register? && (s.At(t).r == RegLink || s.At(t).r == RegHead)
    ensures t !in s.chain
    ensures Threaded(s.head, s.link[t := s.head], s.chain)
    ensures s.At(t).r == RegHead ==> Threaded(Some(t), s.link, [t] + s.chain) && NoDup([t] + s.chain)
  {
    Unlinked(s.At(t));
    assert WalkOk(s.At(t), t, s) && Knows(RoleAt(s, t), t in s.data);
    hide RoleOf;
    ThreadedFrame(s.head, s.link, s.chain, t, s.head);
    NoDupCons(t, s.chain);
    assert ([t] + s.chain)[1..] == s.chain;
  }

  lemma Unlinking(s: State, t: Thread, prev: Option<Thread>)
    requires ChainInv(s) && WalkInv(s) && DataInv(s) && s.At(t) == Exit(ExitUnlink(prev))
    ensures NoDup(Without(s.chain, t)) && forall u :: u in Without(s.chain, t) <==> u in s.chain && u != t
    ensures prev.None? ==> Threaded(s.LinkOf(t), s.link, Without(s.chain, t))
    ensures prev.Some? ==> Threaded(s.head, s.link[prev.value := s.LinkOf(t)], Without(s.chain, t))
  {
    Unlinked(s.At(t));
    assert WalkOk(s.At(t), t, s) && Knows(RoleAt(s, t), t in s.data) && t in s.chain;
    hide RoleOf;
    WithoutHas(s.chain, t);
    if prev.None? {
      assert s.chain[0] == t;
    } else {
      PlaceOf(s.chain, prev.value);
      var i := Place(s.chain, prev);
      ThreadedAt(s.head, s.link, s.chain, i);
      Spliced(s.head, s.link, s.chain, i);
    }
  }

  lemma Threads(s: State, t: Thread, s': State)
    requires ChainInv(s) && WalkInv(s) && DataInv(s) && ChainEffect(s, t, s')
    ensures Threaded(s'.head, s'.link, s'.chain) && NoDup(s'.chain)
  {
    var p := s.At(t);
    if p.Register? && (p.r == RegLink || p.r == RegHead) {
      Linking(s, t);
    } else if p.Exit? && p.e.ExitUnlink? {
      Unlinking(s, t, p.e.prev);
    }
  }

  lemma ChainStep(s: State, t: Thread, s': State)
    requires ChainInv(s) && WalkInv(s) && DataInv(s) && OthersStay(s, t, s') && ChainEffect(s, t, s')
    requires DataEffect(s.At(t), RoleAt(s', t), s.data, s'.data, t)
    ensures ChainInv(s')
  {
    Threads(s, t, s');
    var p := s.At(t);
    if p.Exit? && p.e.ExitUnlink? {
      Unlinking(s, t, p.e.prev);
    }
    hide Threaded, NoDup, WalkInv, DataInv, RoleOf;
    forall u: Thread ensures u in s'.chain <==> Linked(s'.At(u), u in s'.data) {
    }
  }

  lemma OwnWalk(s: State, t: Thread, s': State)
    requires ChainInv(s) && WalkInv(s) && DataInv(s) && ChainEffect(s, t, s') && WalkEffect(s, t, s')
    ensures WalkOk(s'.At(t), t, s')
  {
    var p, p' := s.At(t), s'.At(t);
    assert WalkOk(p, t, s) && Knows(RoleAt(s, t), t in s.data);
    Unlinked(p);
    hide RoleOf, DataInv, WalkInv;
    HeadPlace(s);
    if p'.Scan? && p'.c.ScanAt? && p.c.ScanAt? {
      NextPlace(s, p.c.ptr.value);
    } else if p'.Exit? && p'.e.ExitWalk? && p.e.ExitWalk? {
      hide Threaded, Place;
      assert t in s.chain;
      PlaceOf(s.chain, t);
      if p.e.prev.Some? {
        NextPlace(s, p.e.prev.value);
      }
      if p'.e.prev.Some? {
        PlaceOf(s.chain, p'.e.prev.value);
      }
    }
  }

  lemma WalkStep(s: State, t: Thread, s': State)
    requires ChainInv(s) && WalkInv(s) && DataInv(s) && ListLockInv(s)
    requires OthersStay(s, t, s') && ChainEffect(s, t, s') && WalkEffect(s, t, s')
    ensures WalkInv(s')
  {
    OwnWalk(s, t, s');
    forall u: Thread | u != t ensures WalkOk(s'.At(u), u, s') {
      assert WalkOk(s.At(u), u, s);
      if OnList(s.At(u)) {
        ListStays(s, t, s', u);
      }
    }
  }

  // ---------------------------------------------------------------------------------------------
  // The scan for a writer against the readers

  /** A shared holder has its flag up and is on the list. */
  lemma HolderListed(s: State, u: Thread)
    requires ChainInv(s) && DataInv(s) && FlagInv(s) && IsShared(s.At(u))
    ensures u in s.sharing && u in s.data && u in s.chain && Place(s.chain, Some(u)) < |s.chain|
  {
    OnListHolds(s.At(u));
    assert Knows(RoleAt(s, u), u in s.data) && RoleAt(s, u).flag;
    PlaceOf(s.chain, u);
  }

  /** Once `uniq` is not `no`, nobody newly holds the lock shared. */
  lemma NoNewHolder(s: State, t: Thread)
    requires UniqInv(s) && (SeenClear(s.At(t)) || WriterScan(s.At(t)))
    ensures s.uniq != No
  {
    OnListHolds(s.At(t));
    assert Fits(RoleAt(s, t), s.uniq);
  }

  lemma ClearStep(s: State, t: Thread, s': State, v: Thread, u: Thread)
    requires ChainInv(s) && DataInv(s) && FlagInv(s) && UniqInv(s) && DekkerInv(s)
    requires OthersStay(s, t, s') && GrantEffect(s, t, s')
    requires SeenClear(s'.At(v))
    ensures !IsShared(s'.At(u))
  {
    if IsShared(s'.At(u)) {
      if SeenClear(s.At(v)) {
        assert !IsShared(s.At(u));
        NoNewHolder(s, v);
      } else {
        assert v == t && u != t;
        HolderListed(s, u);
      }
    }
  }

  lemma OwnScan(s: State, t: Thread, s': State, u: Thread)
    requires ChainInv(s) && DataInv(s) && FlagInv(s) && DekkerInv(s) && WalkInv(s)
    requires ChainEffect(s, t, s') && WalkEffect(s, t, s')
    requires WriterScan(s'.At(t)) && IsShared(s.At(u))
    ensures Place(s'.chain, s'.At(t).c.ptr) <= Place(s'.chain, Some(u))
  {
    HeadPlace(s);
    HolderListed(s, u);
    var p := s.At(t);
    assert WalkOk(p, t, s);
    hide ChainInv, WalkInv, FlagInv, DataInv, Place, WalkOk;
    if p.c.ScanAt? {
      assert WriterScan(p);
      Following(s, p.c.ptr.value, u);
    }
  }

  /** The entry after one that is not `u`'s is still not after `u`'s. */
  lemma Following(s: State, v: Thread, u: Thread)
    requires ChainInv(s) && v in s.chain && u in s.chain && u != v
    requires Place(s.chain, Some(v)) <= Place(s.chain, Some(u))
    ensures Place(s.chain, s.LinkOf(v)) <= Place(s.chain, Some(u))
  {
    NextPlace(s, v);
    PlaceOf(s.chain, v);
    PlaceOf(s.chain, u);
  }

  lemma PassedStep(s: State, t: Thread, s': State, v: Thread, u: Thread)
    requires ChainInv(s) && DataInv(s) && FlagInv(s) && UniqInv(s) && DekkerInv(s) && ListLockInv(s) && WalkInv(s)
    requires OthersStay(s, t, s') && GrantEffect(s, t, s') && ChainEffect(s, t, s') && WalkEffect(s, t, s')
    requires WriterScan(s'.At(v)) && IsShared(s'.At(u))
    ensures Place(s'.chain, s'.At(v).c.ptr) <= Place(s'.chain, Some(u))
  {
    if v == t {
      OwnScan(s, t, s', u);
    } else {
      if !IsShared(s.At(u)) {
        NoNewHolder(s, v);
      }
      ListStays(s, t, s', v);
    }
  }

  lemma DekkerStep(s: State, t: Thread, s': State)
    requires ChainInv(s) && DataInv(s) && FlagInv(s) && UniqInv(s) && DekkerInv(s) && ListLockInv(s) && WalkInv(s)
    requires OthersStay(s, t, s') && Paths(s, t, s')
    ensures DekkerInv(s')
  {
    forall v: Thread, u: Thread | SeenClear(s'.At(v)) ensures !IsShared(s'.At(u)) {
      ClearStep(s, t, s', v, u);
    }
    forall v: Thread, u: Thread | WriterScan(s'.At(v)) && IsShared(s'.At(u))
      ensures Place(s'.chain, s'.At(v).c.ptr) <= Place(s'.chain, Some(u))
    {
      PassedStep(s, t, s', v, u);
    }
  }

  lemma InvReady(s: State, t: Thread)
    requires MtxInv(s) && UniqInv(s) && DataInv(s)
    ensures Ready(s, t)
  {
    hide RoleOf;
    assert Fits(RoleAt(s, t), s.uniq) && Knows(RoleAt(s, t), t in s.data);
    assert RoleAt(s, t).mtx <==> s.mtx == Some(t);
  }

  /** Every step keeps the invariant. */
  lemma InvStep(s: State, t: Thread, s': State)
    requires Inv(s) && Next(s, t, s')
    ensures Inv(s')
  {
    hide Next;
    hide MtxInv, ListLockInv, FlagInv, NotifyInv, UniqInv, DataInv, ChainInv, WalkInv, DekkerInv;
    InvReady(s, t);
    StepEffects(s, t, s');
    StepPaths(s, t, s');
    hide PcEffect, MtxEffect, ListLockEffect, FlagEffect, NotifyEffect, UniqEffect, DataEffect;
    hide ChainEffect, WalkEffect, GrantEffect, RoleOf, Ready, OthersStay;
    Others(s, t, s');
    MtxStep(s, t, s');
    ListLockStep(s, t, s');
    FlagStep(s, t, s');
    NotifyInvStep(s, t, s');
    UniqStep(s, t, s');
    DataStep(s, t, s');
    ChainStep(s, t, s');
    WalkStep(s, t, s');
    DekkerStep(s, t, s');
  }
}
