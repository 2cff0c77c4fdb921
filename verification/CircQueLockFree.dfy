/** The circular queue between one pushing and one popping thread, as a state machine.  Each thread writes one of the
    two indices; of the other it may load any value from the one it last saw to the newest. */
module CircQueLockFree {
  import opened Common
  import opened CircQue

  /** `fronts` and `nextIns` are all the values each atomic index has had, in order.  `sawPops` is the place in `fronts`
      of the value the pushing thread loaded last, `sawPushes` the place in `nextIns` of the value the popping thread
      loaded last.  `next`, `pushed` and `popped` are not part of the program: the value given to the
      next element to push, and all the elements pushed and popped so far. */
  datatype State<T> = State(
    dim: nat,
    slots: seq<T>,
    fronts: seq<nat>,
    nextIns: seq<nat>,
    sawPops: nat,
    sawPushes: nat,
    next: Option<T>,
    pushed: seq<T>,
    popped: seq<T>)
  {
    /** The indices are in range, so that the operations below are defined. */
    ghost predicate Typed() {
      && IsDim(dim) && |slots| == dim && sawPops < |fronts| && sawPushes < |nextIns|
      && (forall i :: 0 <= i < |fronts| ==> fronts[i] < dim) && (forall i :: 0 <= i < |nextIns| ==> nextIns[i] < dim)
    }

    function Front(): nat
      requires fronts != []
    {
      fronts[|fronts| - 1]
    }

    function NextIn(): nat
      requires nextIns != []
    {
      nextIns[|nextIns| - 1]
    }

    /** The size each side computes. */
    function PushSize(): nat
      requires Typed()
    {
      Size(fronts[sawPops], NextIn(), dim)
    }

    function PopSize(): nat
      requires Typed()
    {
      Size(Front(), nextIns[sawPushes], dim)
    }

    /** What the popping thread reads at `index` places from the front. */
    function Peek(index: nat): T
      requires Typed()
    {
      slots[Ahead(Front(), index, dim)]
    }
  }

  ghost predicate Init<T>(s: State<T>) {
    s.Typed() && s.fronts == [0] && s.nextIns == [0] && s.pushed == [] && s.popped == [] && s.next == None
  }

  datatype Event<T> =
    | LoadFront(place: nat)    // the pushing thread loads the front index
    | Write(e: T)              // it gives the next element to push its value
    | Push                     // it stores the index of the next element to push
    | LoadNextIn(place: nat)   // the popping thread loads the index of the next element to push
    | Pop                      // it stores the front index

  ghost predicate Next<T>(s: State<T>, ev: Event<T>, s': State<T>)
    requires s.Typed()
  {
    match ev
    case LoadFront(k) => s.sawPops <= k < |s.fronts| && s' == s.(sawPops := k)
    case Write(e) => s.PushSize() != s.dim - 1 && s' == s.(slots := s.slots[s.NextIn() := e], next := Some(e))
    case Push =>
      s.next.Some? && s' == s.(nextIns := s.nextIns + [Advance(s.NextIn(), s.dim)], next := None,
                           pushed := s.pushed + [s.slots[s.NextIn()]])
    case LoadNextIn(k) => s.sawPushes <= k < |s.nextIns| && s' == s.(sawPushes := k)
    case Pop =>
      s.PopSize() != 0 && s' == s.(fronts := s.fronts + [Advance(s.Front(), s.dim)],
                                   popped := s.popped + [s.slots[s.Front()]])
  }

  // ---------------------------------------------------------------------------------------------
  // The invariant

  /** The indices are the remainders of counters that do not wrap. */
  ghost predicate Counted(values: seq<nat>, dim: nat)
    requires dim > 0
  {
    forall k: nat :: k < |values| ==> values[k] == Mod(k, dim)
  }

  /** Neither side has fallen a whole turn behind. */
  ghost predicate Near<T>(s: State<T>) {
    && |s.fronts| == |s.popped| + 1 && |s.nextIns| == |s.pushed| + 1
    && s.sawPops <= |s.popped| <= s.sawPushes <= |s.pushed| <= s.sawPops + s.dim - 1
    && (s.next.Some? ==> |s.pushed| < s.sawPops + s.dim - 1)
  }

  /** Each element pushed and not popped is in its slot, and so is the value of the next one. */
  ghost predicate Held<T>(s: State<T>)
    requires |s.slots| == s.dim > 0
  {
    && (forall k: nat :: |s.popped| <= k < |s.pushed| ==> s.slots[Mod(k, s.dim)] == s.pushed[k])
    && (s.next.Some? ==> s.slots[Mod(|s.pushed|, s.dim)] == s.next.value)
  }

  ghost predicate Inv<T>(s: State<T>) {
    && IsDim(s.dim) && |s.slots| == s.dim && Counted(s.fronts, s.dim) && Counted(s.nextIns, s.dim) && Near(s) && Held(s)
    && s.popped == s.pushed[..|s.popped|]
  }

  lemma InvTyped<T>(s: State<T>)
    requires Inv(s)
    ensures s.Typed() && s.Front() == Mod(|s.popped|, s.dim) && s.NextIn() == Mod(|s.pushed|, s.dim)
  {
    hide Mod;
  }

  /** The wrapped sizes are the true differences for the values that each side has seen: the pushing thread never thinks
      there are fewer elements than there are, nor the popping thread that there are more. */
  lemma SizesTrue<T>(s: State<T>)
    requires Inv(s)
    ensures s.Typed()
    ensures s.PushSize() == |s.pushed| - s.sawPops >= |s.pushed| - |s.popped|
    ensures s.PopSize() == s.sawPushes - |s.popped| <= |s.pushed| - |s.popped|
  {
    InvTyped(s);
    hide Mod, Size;
    SizeIsDifference(s.sawPops, |s.pushed|, s.dim);
    SizeIsDifference(|s.popped|, s.sawPushes, s.dim);
  }

  lemma InitInv<T>(s: State<T>)
    requires Init(s)
    ensures Inv(s)
  {
    ModSmall(0, s.dim);
    hide Mod;
  }

  lemma WriteStep<T>(s: State<T>, e: T, s': State<T>)
    requires Inv(s) && s.Typed() && Next(s, Write(e), s')
    ensures Inv(s')
  {
    hide Mod, Size;
    SizesTrue(s);
    InvTyped(s);
    forall k: nat | |s.popped| <= k < |s.pushed| ensures Mod(k, s.dim) != s.NextIn() {
      ModUnique(k, |s.pushed|, s.dim);
    }
  }

  lemma PushStep<T>(s: State<T>, s': State<T>)
    requires Inv(s) && s.Typed() && Next(s, Push, s')
    ensures Inv(s')
  {
    hide Mod, Size, Advance;
    InvTyped(s);
    AdvanceIndex(|s.pushed|, s.dim);
  }

  lemma PopStep<T>(s: State<T>, s': State<T>)
    requires Inv(s) && s.Typed() && Next(s, Pop, s')
    ensures Inv(s')
  {
    hide Mod, Size, Advance;
    SizesTrue(s);
    InvTyped(s);
    AdvanceIndex(|s.popped|, s.dim);
    assert s.slots[Mod(|s.popped|, s.dim)] == s.pushed[|s.popped|];
  }

  lemma InvStep<T>(s: State<T>, ev: Event<T>, s': State<T>)
    requires Inv(s) && s.Typed() && Next(s, ev, s')
    ensures Inv(s')
  {
    match ev
    case LoadFront(_) =>
    case Write(e) => WriteStep(s, e, s');
    case Push => PushStep(s, s');
    case LoadNextIn(_) =>
    case Pop => PopStep(s, s');
  }

  // ---------------------------------------------------------------------------------------------
  // Runs

  ghost predicate Run<T>(states: seq<State<T>>, events: seq<Event<T>>) {
    && |states| == |events| + 1 && Init(states[0])
    && forall i :: 0 <= i < |events| ==> states[i].Typed() && Next(states[i], events[i], states[i + 1])
  }

  ghost predicate Reachable<T(!new)>(s: State<T>) {
    exists states: seq<State<T>>, events: seq<Event<T>> :: Run(states, events) && states[|events|] == s
  }

  lemma {:induction false} RunInv<T>(states: seq<State<T>>, events: seq<Event<T>>, n: nat)
    requires Run(states, events) && n <= |events|
    ensures Inv(states[n])
  {
    if n == 0 {
      InitInv(states[0]);
    } else {
      RunInv(states, events, n - 1);
      hide Inv, Next;
      InvStep(states[n - 1], events[n - 1], states[n]);
    }
  }

  lemma ReachableInv<T(!new)>(s: State<T>)
    requires Reachable(s)
    ensures Inv(s)
  {
    var states: seq<State<T>>, events: seq<Event<T>> :| Run(states, events) && states[|events|] == s;
    RunInv(states, events, |events|);
  }

  // ---------------------------------------------------------------------------------------------
  // What the queue promises

  /** Elements come out in the order they went in, none lost and none twice, and never more than the maximum are in. */
  lemma FirstInFirstOut<T(!new)>(s: State<T>)
    requires Reachable(s)
    ensures s.popped <= s.pushed && |s.pushed| - |s.popped| <= s.dim - 1
  {
    ReachableInv(s);
  }

  /** The slot that the pushing thread may write is none that the popping thread may read. */
  lemma NoRace<T(!new)>(s: State<T>, index: nat)
    requires Reachable(s)
    ensures s.Typed()
    ensures (s.PushSize() != s.dim - 1 || s.next.Some?) && index < s.PopSize() ==>
              s.NextIn() != Mod(s.Front() + index, s.dim)
  {
    hide Mod, Size, Reachable;
    ReachableInv(s);
    SizesTrue(s);
    InvTyped(s);
    if index < s.PopSize() && (s.PushSize() != s.dim - 1 || s.next.Some?) {
      ModShift(|s.popped|, index, s.dim);
      ModUnique(|s.popped| + index, |s.pushed|, s.dim);
    }
  }

  /** Whatever a thread reads or writes it has been handed: the pop that freed the slot being written is among those
      that the pushing thread has loaded, and the push of an element being read among those that the popping thread has
      loaded. */
  lemma HandedOver<T(!new)>(s: State<T>, index: nat)
    requires Reachable(s)
    ensures s.Typed()
    ensures s.PushSize() != s.dim - 1 || s.next.Some? ==> |s.pushed| - s.dim < s.sawPops
    ensures index < s.PopSize() ==> |s.popped| + index < s.sawPushes
  {
    hide Mod, Size, Reachable;
    ReachableInv(s);
    SizesTrue(s);
  }

  /** The popping thread reads the elements that come next, so far as the index of the look-ahead does not wrap. */
  lemma PeekRight<T(!new)>(s: State<T>, index: nat)
    requires Reachable(s) && s.Typed() && index < s.PopSize()
    ensures |s.popped| + index < |s.pushed|
    ensures s.Front() + index < WRAP ==> s.Peek(index) == s.pushed[|s.popped| + index]
  {
    hide Mod, Size, Ahead, Reachable;
    ReachableInv(s);
    SizesTrue(s);
    InvTyped(s);
    LookAheadExact(|s.popped|, index, s.dim);
  }

  // ---------------------------------------------------------------------------------------------
  // When each thread can go on

  /** Popping is possible exactly when the popping thread has seen the push of the element at the front, and so the test
      for an empty queue means just that. */
  lemma PopEnabled<T(!new)>(s: State<T>)
    requires Reachable(s)
    ensures s.Typed()
    ensures (exists s' :: Next(s, Pop, s')) <==> |s.popped| < s.sawPushes
    ensures s.nextIns[s.sawPushes] == s.Front() <==> s.sawPushes == |s.popped|
  {
    hide Mod, Size, Advance, Reachable;
    ReachableInv(s);
    SizesTrue(s);
    InvTyped(s);
    if |s.popped| < s.sawPushes {
      ModUnique(|s.popped|, s.sawPushes, s.dim);
      assert Next(s, Pop, s.(fronts := s.fronts + [Advance(s.Front(), s.dim)],
                             popped := s.popped + [s.slots[s.Front()]]));
    }
  }

  /** Writing the next element to push is possible exactly when the pushing thread has seen enough pops, and pushing it
      exactly when it has been written. */
  lemma PushEnabled<T(!new)>(s: State<T>, e: T)
    requires Reachable(s)
    ensures s.Typed()
    ensures (exists s' :: Next(s, Write(e), s')) <==> |s.pushed| - s.sawPops < s.dim - 1
    ensures (exists s' :: Next(s, Push, s')) <==> s.next.Some?
  {
    hide Mod, Size, Advance, Reachable;
    ReachableInv(s);
    SizesTrue(s);
    InvTyped(s);
    if |s.pushed| - s.sawPops < s.dim - 1 {
      assert Next(s, Write(e), s.(slots := s.slots[s.NextIn() := e], next := Some(e)));
    }
    if s.next.Some? {
      assert Next(s, Push, s.(nextIns := s.nextIns + [Advance(s.NextIn(), s.dim)], next := None,
                              pushed := s.pushed + [s.slots[s.NextIn()]]));
    }
  }

  /** A load of the other side's index may give any value from the one last seen to the newest, and that is then the
      one seen. */
  lemma LoadsEnabled<T(!new)>(s: State<T>, k: nat)
    requires Reachable(s)
    ensures s.Typed()
    ensures (exists s' :: Next(s, LoadNextIn(k), s')) <==> s.sawPushes <= k <= |s.pushed|
    ensures (exists s' :: Next(s, LoadFront(k), s')) <==> s.sawPops <= k <= |s.popped|
    ensures forall s' :: Next(s, LoadNextIn(k), s') ==> s' == s.(sawPushes := k)
    ensures forall s' :: Next(s, LoadFront(k), s') ==> s' == s.(sawPops := k)
  {
    hide Mod, Reachable;
    ReachableInv(s);
    InvTyped(s);
    if s.sawPushes <= k <= |s.pushed| {
      assert Next(s, LoadNextIn(k), s.(sawPushes := k));
    }
    if s.sawPops <= k <= |s.popped| {
      assert Next(s, LoadFront(k), s.(sawPops := k));
    }
  }

  lemma ReachableStep<T(!new)>(s: State<T>, ev: Event<T>, s': State<T>)
    requires Reachable(s) && s.Typed() && Next(s, ev, s')
    ensures Reachable(s')
  {
    hide Next, Init, State.Typed;
    var states: seq<State<T>>, events: seq<Event<T>> :| Run(states, events) && states[|events|] == s;
    assert Run(states + [s'], events + [ev]);
  }

  /** With an element in the queue the popping thread can load the newest index and pop the oldest element. */
  lemma CanPop<T(!new)>(s: State<T>)
    requires Reachable(s) && |s.popped| < |s.pushed|
    ensures s.Typed()
    ensures exists s1: State<T>, s2: State<T> ::
              && Next(s, LoadNextIn(|s.pushed|), s1) && s1.Typed() && Next(s1, Pop, s2)
              && s2.popped == s.popped + [s.pushed[|s.popped|]] && s2.pushed == s.pushed
  {
    hide Next, Inv, Reachable, State.Typed;
    SeenBounds(s);
    LoadsEnabled(s, |s.pushed|);
    var s1 :| Next(s, LoadNextIn(|s.pushed|), s1);
    ReachableStep(s, LoadNextIn(|s.pushed|), s1);
    PopEnabled(s1);
    var s2 :| Next(s1, Pop, s2);
    Refinement(s1, Pop, s2);
    PopKeeps(s1, s2);
  }

  lemma PopKeeps<T>(s: State<T>, s': State<T>)
    requires s.Typed() && Next(s, Pop, s')
    ensures s'.pushed == s.pushed
  {
  }

  lemma SeenBounds<T(!new)>(s: State<T>)
    requires Reachable(s)
    ensures s.Typed() && s.sawPops <= |s.popped| <= s.sawPushes <= |s.pushed|
  {
    hide Mod, Reachable;
    ReachableInv(s);
    InvTyped(s);
  }

  /** With room in the queue the pushing thread can load the newest index, write an element and push it. */
  lemma CanPush<T(!new)>(s: State<T>, e: T)
    requires Reachable(s) && |s.pushed| - |s.popped| < s.dim - 1
    ensures s.Typed()
    ensures exists s1: State<T>, s2: State<T>, s3: State<T> ::
              && Next(s, LoadFront(|s.popped|), s1) && s1.Typed() && Next(s1, Write(e), s2) && s2.Typed()
              && Next(s2, Push, s3) && s3.pushed == s.pushed + [e] && s3.popped == s.popped
  {
    hide Next, Inv, Reachable, State.Typed;
    SeenBounds(s);
    LoadsEnabled(s, |s.popped|);
    var s1 :| Next(s, LoadFront(|s.popped|), s1);
    ReachableStep(s, LoadFront(|s.popped|), s1);
    PushEnabled(s1, e);
    var s2 :| Next(s1, Write(e), s2);
    ReachableStep(s1, Write(e), s2);
    Written(s1, e, s2);
    PushEnabled(s2, e);
    var s3 :| Next(s2, Push, s3);
    Pushed(s2, s3);
  }

  lemma Written<T>(s: State<T>, e: T, s': State<T>)
    requires s.Typed() && Next(s, Write(e), s')
    ensures s'.next == Some(e) && s'.pushed == s.pushed && s'.popped == s.popped && s'.dim == s.dim
  {
  }

  lemma Pushed<T(!new)>(s: State<T>, s': State<T>)
    requires Reachable(s) && s.Typed() && Next(s, Push, s')
    ensures s.next.Some? && s'.pushed == s.pushed + [s.next.value] && s'.popped == s.popped
  {
    hide Mod, Reachable, Advance;
    ReachableInv(s);
    InvTyped(s);
  }

  /** The bounded queue that the two threads see. */
  ghost function Abstract<T>(s: State<T>): seq<T>
    requires |s.popped| <= |s.pushed|
  {
    s.pushed[|s.popped|..]
  }

  /** Every step is a push into, a pop from, or no change of a queue of at most the maximum size. */
  lemma Refinement<T(!new)>(s: State<T>, ev: Event<T>, s': State<T>)
    requires Reachable(s) && s.Typed() && Next(s, ev, s')
    ensures |s.popped| <= |s.pushed| && |s'.popped| <= |s'.pushed| && |Abstract(s')| <= s.dim - 1
    ensures ev.Push? ==> s.next.Some? && Abstract(s') == Abstract(s) + [s.next.value]
    ensures ev.Pop? ==>
              && Abstract(s) != [] && Abstract(s') == Abstract(s)[1..]
              && s'.popped == s.popped + [Abstract(s)[0]]
    ensures !ev.Push? && !ev.Pop? ==> Abstract(s') == Abstract(s)
  {
    hide Mod, Size, Advance, Reachable;
    ReachableInv(s);
    InvStep(s, ev, s');
    SizesTrue(s);
    InvTyped(s);
    assert Near(s) && Near(s');
    hide Inv, Held;
    if ev.Pop? {
      Oldest(s);
    }
  }

  /** The element at the front of the queue is the one that the popping thread reads. */
  lemma Oldest<T>(s: State<T>)
    requires Inv(s) && |s.popped| < |s.pushed|
    ensures s.fronts != [] && s.Front() < |s.slots| && s.slots[s.Front()] == s.pushed[|s.popped|]
  {
    hide Mod;
    InvTyped(s);
  }
}
