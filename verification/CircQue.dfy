/** Circular queue: indices of 32-bit unsigned type into an array with one slot more than the queue may hold. */
module CircQue {
  import opened Common

  /** What the unsigned type wraps at. */
  const WRAP := 0x1_0000_0000

  /** `dim` is the dimension of some queue; `max_num_elems` is one less. */
  predicate IsDim(dim: nat) {
    1 <= dim < WRAP
  }

  /** Number of elements between the index of the front element and that of the next to push, in unsigned arithmetic. */
  function Size(f: nat, ni: nat, dim: nat): nat
    requires f < WRAP && ni < WRAP
  {
    if ni >= f then ni - f else ((ni + dim) % WRAP - f) % WRAP
  }

  function Advance(i: nat, dim: nat): nat {
    if (i + 1) % WRAP == dim then 0 else (i + 1) % WRAP
  }

  /** Index of the element `index` places behind the front. */
  function Ahead(f: nat, index: nat, dim: nat): nat
    requires dim > 0
  {
    (f + index) % WRAP % dim
  }

  // ---------------------------------------------------------------------------------------------
  // The index that a counter of all pushes, or of all pops, stands for is its remainder: once round for each `dim`

  /** Going on by `d`. */
  lemma {:induction false} ModAdd(k: nat, d: nat, dim: nat)
    requires d < dim
    ensures Mod(k + d, dim) == if Mod(k, dim) + d < dim then Mod(k, dim) + d else Mod(k, dim) + d - dim
    decreases k
  {
    if k >= dim {
      ModAdd(k - dim, d, dim);
    }
  }

  lemma ModRound(k: nat, dim: nat)
    requires dim > 0
    ensures Mod(k + dim, dim) == Mod(k, dim)
  {
  }

  lemma {:induction false} ModShift(k: nat, d: nat, dim: nat)
    requires dim > 0
    ensures Mod(Mod(k, dim) + d, dim) == Mod(k + d, dim)
  {
    hide Mod;
    if d < dim {
      ModAdd(k, d, dim);
      ModSmall(Mod(k, dim), dim);
      ModAdd(Mod(k, dim), d, dim);
    } else {
      ModShift(k, d - dim, dim);
      ModRound(Mod(k, dim) + (d - dim), dim);
      ModRound(k + (d - dim), dim);
    }
  }

  // ---------------------------------------------------------------------------------------------
  // The indices against the counters, which do not wrap

  /** Counters less than the dimension apart have different indices. */
  lemma ModUnique(k: nat, m: nat, dim: nat)
    requires k < m < k + dim
    ensures Mod(k, dim) != Mod(m, dim)
  {
    hide Mod;
    ModAdd(k, m - k, dim);
  }

  lemma AdvanceIndex(k: nat, dim: nat)
    requires IsDim(dim)
    ensures Advance(Mod(k, dim), dim) == Mod(k + 1, dim)
  {
    hide Mod;
    if dim > 1 {
      ModAdd(k, 1, dim);
    }
  }

  lemma SizeOf(f: nat, ni: nat, dim: nat)
    requires IsDim(dim) && f < dim && ni < dim
    ensures Size(f, ni, dim) == if ni >= f then ni - f else ni + dim - f
  {
    if ni < f {
      var w := (ni + dim) % WRAP;
      assert w == if ni + dim < WRAP then ni + dim else ni + dim - WRAP;
      assert (w - f) % WRAP == if w >= f then w - f else w - f + WRAP;
    }
  }

  /** The size is the difference of the counters, although the sum in it may wrap. */
  lemma SizeIsDifference(k: nat, m: nat, dim: nat)
    requires IsDim(dim) && k <= m < k + dim
    ensures Size(Mod(k, dim), Mod(m, dim), dim) == m - k
  {
    hide Mod, Size;
    ModAdd(k, m - k, dim);
    SizeOf(Mod(k, dim), Mod(m, dim), dim);
  }

  lemma AheadIs(f: nat, index: nat, dim: nat)
    requires dim > 0
    ensures Ahead(f, index, dim) == Mod((f + index) % WRAP, dim)
  {
    ModIs((f + index) % WRAP, dim);
  }

  /** Looking ahead finds the right slot exactly when the sum of the indices does not wrap. */
  lemma LookAheadExact(k: nat, index: nat, dim: nat)
    requires IsDim(dim) && index < dim
    ensures Ahead(Mod(k, dim), index, dim) == Mod(k + index, dim) <==> Mod(k, dim) + index < WRAP
  {
    hide Mod, Ahead;
    ModAdd(k, index, dim);
    ModShift(k, index, dim);
    AheadIs(Mod(k, dim), index, dim);
    var sum := Mod(k, dim) + index;
    if sum >= WRAP {
      ModSmall(sum - WRAP, dim);
    }
  }

  /** Every look-ahead in a queue of a given maximum size is right exactly when that size is at most 2^31. */
  lemma LookAheadSafe(dim: nat)
    requires IsDim(dim)
    ensures (forall f: nat, index: nat :: f < dim && index < dim - 1 ==> Ahead(f, index, dim) == Mod(f + index, dim))
            <==> dim - 1 <= WRAP / 2
  {
    hide Ahead, Mod;
    forall f: nat, index: nat | f < dim && index < dim - 1
      ensures Ahead(f, index, dim) == Mod(f + index, dim) <==> f + index < WRAP
    {
      ModSmall(f, dim);
      LookAheadExact(f, index, dim);
    }
    if dim - 1 > WRAP / 2 {
      var f: nat, index: nat := dim - 1, dim - 2;
      assert Ahead(f, index, dim) != Mod(f + index, dim);
    }
  }

  /** At the first size above that, in a full queue with the front at the last slot, the last look-ahead goes wrong. */
  lemma LookAheadWraps()
    ensures
      var k, index, dim := 0x8000_0001, 0x8000_0000, 0x8000_0002;
      && IsDim(dim) && k < dim && index < Size(Mod(k, dim), Mod(k + dim - 1, dim), dim)
      && Ahead(Mod(k, dim), index, dim) != Mod(k + index, dim)
  {
    var k, index, dim := 0x8000_0001, 0x8000_0000, 0x8000_0002;
    ModSmall(k, dim);
    hide Mod, Ahead, Size;
    SizeIsDifference(k, k + dim - 1, dim);
    LookAheadExact(k, index, dim);
  }

  /** What the warnings in the source are about: a push when the queue is full makes it look empty, and a pop when it is
      empty makes it look full. */
  lemma Corruption(k: nat, dim: nat)
    requires IsDim(dim)
    ensures Size(Mod(k, dim), Advance(Mod(k + dim - 1, dim), dim), dim) == 0
    ensures Size(Advance(Mod(k, dim), dim), Mod(k, dim), dim) == dim - 1
  {
    AdvanceIndex(k + dim - 1, dim);
    ModRound(k, dim);
    AdvanceIndex(k, dim);
    SizeIsDifference(k + 1, k + dim, dim);
    hide Mod, Advance;
  }

  // ---------------------------------------------------------------------------------------------
  // A run of elements around the end of the array

  /** The slot `i` places on from index `f`. */
  function Slot(f: nat, i: nat, dim: nat): (k: nat)
    requires dim > 0
    ensures k < dim
  {
    Mod(f + i, dim)
  }

  /** `n` elements from index `f` on. */
  ghost function Slice<T>(a: seq<T>, f: nat, n: nat): (s: seq<T>)
    requires f < |a|
  {
    seq(n, i requires 0 <= i => a[Slot(f, i, |a|)])
  }

  lemma SlotStart(f: nat, dim: nat)
    requires f < dim
    ensures Slot(f, 0, dim) == f
  {
    ModSmall(f, dim);
  }

  lemma SlotShift(f: nat, i: nat, dim: nat)
    requires dim > 0
    ensures Slot(Slot(f, 1, dim), i, dim) == Slot(f, i + 1, dim)
  {
    hide Mod;
    ModShift(f + 1, i, dim);
  }

  lemma CountBound(f: nat, ni: nat, dim: nat)
    requires IsDim(dim) && f < dim && ni < dim
    ensures Size(f, ni, dim) < dim && (Size(f, ni, dim) == 0 <==> f == ni)
    ensures ni == Slot(f, Size(f, ni, dim), dim)
  {
    hide Mod;
    ModSmall(ni, dim);
    ModRound(ni, dim);
  }

  /** A slot that is not in use may be written. */
  lemma SliceKept<T>(a: seq<T>, f: nat, n: nat, e: T)
    requires f < |a| && n < |a|
    ensures Slice(a[Slot(f, n, |a|) := e], f, n) == Slice(a, f, n)
  {
    hide Mod;
    forall i: nat | i < n ensures Slot(f, i, |a|) != Slot(f, n, |a|) {
      ModUnique(f + i, f + n, |a|);
    }
    hide Slot;
  }

  lemma SliceShrink<T>(a: seq<T>, f: nat, n: nat)
    requires f < |a| && n > 0
    ensures Slice(a, Slot(f, 1, |a|), n - 1) == Slice(a, f, n)[1..]
  {
    forall i: nat ensures Slot(Slot(f, 1, |a|), i, |a|) == Slot(f, i + 1, |a|) {
      SlotShift(f, i, |a|);
    }
    hide Slot;
  }

  lemma SliceGrow<T>(a: seq<T>, f: nat, n: nat)
    requires f < |a|
    ensures Slice(a, f, n + 1) == Slice(a, f, n) + [a[Slot(f, n, |a|)]]
  {
    hide Slot;
  }

  lemma AheadSlot(f: nat, index: nat, dim: nat)
    requires IsDim(dim) && f < dim && index < dim
    ensures Ahead(f, index, dim) == if f + index < WRAP then Slot(f, index, dim) else f + index - WRAP
    ensures f + index >= WRAP ==> f + index - WRAP != Slot(f, index, dim)
  {
    ModSmall(f, dim);
    LookAheadExact(f, index, dim);
    AheadIs(f, index, dim);
    if f + index >= WRAP {
      ModSmall(f + index - WRAP, dim);
    }
    hide Ahead, Mod;
  }

  lemma SlotAdvance(f: nat, i: nat, dim: nat)
    requires IsDim(dim)
    ensures Advance(Slot(f, i, dim), dim) == Slot(f, i + 1, dim)
  {
    AdvanceIndex(f + i, dim);
  }

  /** The size of a run. */
  lemma SlotSize(f: nat, n: nat, dim: nat)
    requires IsDim(dim) && f < dim && n < dim
    ensures Size(f, Slot(f, n, dim), dim) == n
  {
    hide Mod;
    ModSmall(f, dim);
    SizeIsDifference(f, f + n, dim);
  }

  /** One more in the queue. */
  lemma CountGrows(f: nat, ni: nat, dim: nat)
    requires IsDim(dim) && f < dim && ni < dim && Size(f, ni, dim) < dim - 1
    ensures Advance(ni, dim) < dim && Size(f, Advance(ni, dim), dim) == Size(f, ni, dim) + 1
  {
    CountBound(f, ni, dim);
    SlotAdvance(f, Size(f, ni, dim), dim);
    SlotSize(f, Size(f, ni, dim) + 1, dim);
  }

  /** One fewer. */
  lemma CountShrinks(f: nat, ni: nat, dim: nat)
    requires IsDim(dim) && f < dim && ni < dim && Size(f, ni, dim) > 0
    ensures Advance(f, dim) == Slot(f, 1, dim) && Size(Advance(f, dim), ni, dim) == Size(f, ni, dim) - 1
  {
    CountBound(f, ni, dim);
    SlotStart(f, dim);
    SlotAdvance(f, 0, dim);
    SlotShift(f, Size(f, ni, dim) - 1, dim);
    SlotSize(Slot(f, 1, dim), Size(f, ni, dim) - 1, dim);
  }

  // ---------------------------------------------------------------------------------------------
  // The queue for one thread

  class Queue<T(0)> {
    const maxSize: nat
    var data: array<T>
    var front: nat
    var nextIn: nat

    ghost predicate Valid()
      reads this
    {
      IsDim(maxSize + 1) && data.Length == maxSize + 1 && front < data.Length && nextIn < data.Length
    }

    function Count(): nat
      requires Valid()
      reads this
    {
      Size(front, nextIn, maxSize + 1)
    }

    /** The elements from the front on. */
    ghost function Contents(): (s: seq<T>)
      requires Valid()
      reads this, data
    {
      Slice(data[..], front, Count())
    }

    constructor (n: nat)
      requires n + 1 < WRAP
      ensures Valid() && fresh(data) && maxSize == n && Contents() == []
    {
      maxSize := n;
      data := new T[n + 1];
      front, nextIn := 0, 0;
    }

    method Purge()
      requires Valid()
      modifies this`front, this`nextIn
      ensures Valid() && Contents() == []
    {
      front, nextIn := 0, 0;
    }

    method GetSize() returns (n: nat)
      requires Valid()
      ensures n == |Contents()| <= maxSize
    {
      n := Count();
      hide Size, Slot, Advance, Ahead;
      CountBound(front, nextIn, maxSize + 1);
    }

    method IsEmpty() returns (b: bool)
      requires Valid()
      ensures b <==> Contents() == []
    {
      b := nextIn == front;
      hide Size, Slot, Advance, Ahead;
      CountBound(front, nextIn, maxSize + 1);
    }

    method IsFull() returns (b: bool)
      requires Valid()
      ensures b <==> |Contents()| == maxSize
    {
      b := Count() == maxSize;
      hide Size, Slot, Advance, Ahead;
      CountBound(front, nextIn, maxSize + 1);
    }

    method Front() returns (e: T)
      requires Valid() && Contents() != []
      ensures e == Contents()[0]
    {
      CountBound(front, nextIn, maxSize + 1);
      SlotStart(front, maxSize + 1);
      hide Size, Slot;
      e := data[front];
    }

    /** Reads another slot than the right one if the sum of the indices wraps. */
    method LookAhead(index: nat) returns (e: T)
      requires Valid() && index < |Contents()|
      ensures e == if front + index < WRAP then Contents()[index] else data[front + index - WRAP]
      ensures front + index >= WRAP ==> front + index - WRAP != Slot(front, index, maxSize + 1)
    {
      hide Size, Slot, Advance, Ahead;
      CountBound(front, nextIn, maxSize + 1);
      AheadSlot(front, index, maxSize + 1);
      e := data[Ahead(front, index, maxSize + 1)];
    }

    /** Gives the next element to push its value. */
    method Init(e: T)
      requires Valid() && |Contents()| < maxSize
      modifies data
      ensures Valid() && Contents() == old(Contents()) && data[nextIn] == e
    {
      hide Size, Slot, Advance, Ahead;
      CountBound(front, nextIn, maxSize + 1);
      SliceKept(data[..], front, Count(), e);
      data[nextIn] := e;
      assert data[..] == old(data[..])[nextIn := e];
    }

    /** Pushes the element that was given its value before. */
    method PushRaw()
      requires Valid() && |Contents()| < maxSize
      modifies this`nextIn
      ensures Valid() && Contents() == old(Contents() + [data[nextIn]])
    {
      hide Size, Slot, Advance, Ahead;
      CountBound(front, nextIn, maxSize + 1);
      CountGrows(front, nextIn, maxSize + 1);
      SliceGrow(data[..], front, Count());
      nextIn := Advance(nextIn, maxSize + 1);
    }

    method Push(e: T)
      requires Valid() && |Contents()| < maxSize
      modifies this`nextIn, data
      ensures Valid() && Contents() == old(Contents()) + [e]
    {
      Init(e);
      PushRaw();
    }

    method Pop()
      requires Valid() && Contents() != []
      modifies this`front
      ensures Valid() && Contents() == old(Contents())[1..]
    {
      hide Size, Slot, Advance, Ahead;
      CountBound(front, nextIn, maxSize + 1);
      CountShrinks(front, nextIn, maxSize + 1);
      SliceShrink(data[..], front, Count());
      front := Advance(front, maxSize + 1);
    }
  }
}
