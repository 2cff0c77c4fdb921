/** Facts about stored search trees at a moment of `insert` or `remove`: how a descent narrows the search, what the
    stored path looks like while it is being repaired. */
module AvlDescent {
  import opened Common
  import opened AvlTrees
  import opened AvlRepair
  import opened AvlStore
  import opened AvlSearch

  /** Root `p` stands for the search tree `whole`; the descent for key `k` has come along path `c` to handle `q`,
      where subtree `t` is stored. */
  ghost predicate Reached(key: Handle -> int, s: Store, p: Handle, whole: Tree, c: Path, q: Handle, t: Tree, k: int) {
    && Plug(c, t) == whole && PathShape(s, p, c, q) && Shape(s, q, t)
    && Narrowed(key, Before(c), After(c), EQUAL, k)
  }

  lemma Descend(key: Handle -> int, s: Store, p: Handle, whole: Tree, c: Path, q: Handle, t: Tree, k: int, dir: bool)
    requires Balanced(whole) && Sorted(key, InOrder(whole))
    requires Reached(key, s, p, whole, c, q, t, k) && t.Node?
    requires if dir then key(t.h) < k else k < key(t.h)
    ensures q in s && Reached(key, s, p, whole, c + [FrameOf(t, dir)], Child(s, q, dir), Branch(t, dir), k)
    ensures |c| < Height(whole)
  {
    PathStep(s, p, c, q, t, dir);
    PlugStep(c, t, dir);
    Narrow(key, c, t, EQUAL, k, dir);
    BalancedSub(c, t);
  }

  lemma EmptyPath(key: Handle -> int, s: Store, p: Handle, whole: Tree, k: int)
    requires Shape(s, p, whole)
    ensures Reached(key, s, p, whole, [], p, whole, k)
  {
  }

  lemma NotThere(key: Handle -> int, c: Path, k: int)
    requires Narrowed(key, Before(c), After(c), EQUAL, k)
    ensures forall x :: x in InOrder(Plug(c, Leaf)) ==> key(x) != k
  {
    InOrderPlug(c, Leaf);
  }

  /** `parent` is the last node of path `c` and `cmp` tells which branch was taken there. */
  predicate PathEnd(c: Path, parent: Handle, cmp: int) {
    if c == [] then parent == NIL else parent == Last(c).h && cmp != 0 && (cmp > 0) == Last(c).dir
  }

  lemma RootInTree(c: Path, t: Tree)
    requires t.Node?
    ensures t.h in InOrder(Plug(c, t))
  {
    PathInTree(c, t);
    assert t.h in InOrder(t);
  }

  /** A node with the key asked for is the best match when equality counts. */
  lemma EqualIsBest(key: Handle -> int, c: Path, t: Tree, st: SearchType, k: int)
    requires Sorted(key, InOrder(Plug(c, t))) && t.Node? && t.h != NIL
    requires key(t.h) == k && st.HasEqual()
    ensures IsBest(key, InOrder(Plug(c, t)), st, k, t.h)
  {
    RootInTree(c, t);
  }

  lemma NothingPassed(key: Handle -> int, st: SearchType, k: int, t: Tree)
    ensures Narrowed(key, Before([]), After([]), st, k) && Candidate(Before([]), After([]), st) == NIL
    ensures Plug([], t) == t
  {
  }

  lemma CandidateOfAll(key: Handle -> int, c: Path, t: Tree, st: SearchType, k: int)
    requires t == Leaf && Sorted(key, InOrder(Plug(c, t))) && NIL !in InOrder(Plug(c, t))
    requires Narrowed(key, Before(c), After(c), st, k)
    ensures IsBest(key, InOrder(Plug(c, t)), st, k, Candidate(Before(c), After(c), st))
  {
    hide Sorted, Narrowed, Candidate, IsBest, Before, After, Plug;
    InOrderPlug(c, Leaf);
    assert InOrder(Plug(c, t)) == Before(c) + After(c);
    CandidateIsBest(key, Before(c), After(c), st, k);
  }

  // ---------------------------------------------------------------------------------------------
  // Insertion

  /** What the descent of `insert` remembers of path `c`: its last unbalanced node, that node's parent and depth. */
  ghost predicate Remembered(c: Path, unbal: Handle, parentUnbal: Handle, unbalDepth: nat) {
    var u := LastUnbalanced(c);
    if u < 0 then unbal == NIL && parentUnbal == NIL && unbalDepth == 0
    else unbal == c[u].h && unbalDepth == u && parentUnbal == if u == 0 then NIL else c[u - 1].h
  }

  lemma RememberStep(c: Path, f: Frame, unbal: Handle, parentUnbal: Handle, unbalDepth: nat)
    requires Remembered(c, unbal, parentUnbal, unbalDepth)
    ensures if f.bf != 0 then Remembered(c + [f], f.h, if c == [] then NIL else Last(c).h, |c|)
            else Remembered(c + [f], unbal, parentUnbal, unbalDepth)
  {
    assert Init(c + [f]) == c;
    assert forall i :: 0 <= i < |c| ==> (c + [f])[i] == c[i];
  }

  ghost predicate OnPath(c: Path, x: Handle) {
    exists i :: 0 <= i < |c| && c[i].h == x
  }

  /** `c1` is `c` with the factor of its last unbalanced node brought up to date, or else `unbal` is that node and
      the new level puts it out of range. */
  ghost predicate Settled(c: Path, unbal: Handle, c1: Path) {
    var u := LastUnbalanced(c);
    if u < 0 then unbal == NIL && c1 == c
    else
      var nb := c[u].bf + (if c[u].dir then 1 else -1);
      if nb == -2 || nb == 2 then unbal == c[u].h && c1 == c
      else unbal == NIL && c1 == c[u := c[u].(bf := nb)]
  }

  lemma SettledPath(c: Path, unbal: Handle, c1: Path)
    requires Settled(c, unbal, c1)
    ensures |c1| == |c| && Dirs(c1) == Dirs(c)
    ensures Apart(c, Leaf) ==> Apart(c1, Leaf)
    ensures forall i :: 0 <= i < |c| ==> c1[i].h == c[i].h && c1[i].dir == c[i].dir
    ensures forall x :: OnPath(c, x) <==> OnPath(c1, x)
  {
    assert forall i :: 0 <= i < |c| ==> c1[i] == c[i].(bf := c1[i].bf);
    forall x | OnPath(c1, x) ensures OnPath(c, x) {
      var i :| 0 <= i < |c1| && c1[i].h == x;
      assert c[i].h == x;
    }
    forall x | OnPath(c, x) ensures OnPath(c1, x) {
      var i :| 0 <= i < |c| && c[i].h == x;
      assert c1[i].h == x;
    }
  }

  lemma TiltStep(s: Store, p: Handle, c: Path, h: Handle, d: nat, i: nat)
    requires d <= i < |c| && Apart(c, Leaf) && PathShape(s, p, TiltRange(c, d, i), h)
    ensures c[i].h in s && Child(s, c[i].h, c[i].dir) == At(c, i + 1, h) && OnPath(c, c[i].h)
    ensures PathShape(SetBf(s, c[i].h, if c[i].dir then 1 else -1), p, TiltRange(c, d, i + 1), h)
  {
    hide FrameShape, Apart, PathShape;
    var c' := TiltRange(c, d, i);
    PathNode(s, p, c', h, i);
    TiltedApart(c, d, i);
    PathSetBf(s, p, c', h, i, if c[i].dir then 1 else -1);
    assert c'[i := Tilt(c'[i])] == TiltRange(c, d, i + 1);
  }

  lemma TiltedApart(c: Path, d: nat, i: nat)
    requires Apart(c, Leaf)
    ensures Apart(TiltRange(c, d, i), Leaf)
  {
    hide InOrder;
  }

  lemma SortedInsert(key: Handle -> int, b: seq<Handle>, h: Handle, a: seq<Handle>)
    requires Sorted(key, b) && Sorted(key, a)
    requires forall x, y :: x in b && y in a ==> key(x) < key(y)
    requires (forall x :: x in b ==> key(x) < key(h)) && (forall x :: x in a ==> key(h) < key(x))
    ensures Sorted(key, b + [h] + a)
  {
    var s := b + [h] + a;
    forall i, j | 0 <= i < j < |s|
      ensures key(s[i]) < key(s[j])
    {
      assert i < |b| ==> s[i] == b[i] && s[i] in b;
      assert i > |b| ==> s[i] == a[i - |b| - 1];
      assert j < |b| ==> s[j] == b[j];
      assert j > |b| ==> s[j] == a[j - |b| - 1] && s[j] in a;
    }
  }

  /** The facts about a search tree with `h` hung at the end of path `c` that the repair after an insertion needs. */
  lemma Hung(key: Handle -> int, c: Path, h: Handle)
    requires Sorted(key, InOrder(Plug(c, Leaf))) && h !in InOrder(Plug(c, Leaf))
    requires Narrowed(key, Before(c), After(c), EQUAL, key(h))
    ensures Sorted(key, InOrder(Plug(c, Single(h)))) && NoDup(InOrder(Plug(c, Single(h))))
    ensures InOrder(Plug(c, Single(h))) == Before(c) + [h] + After(c)
    ensures InOrder(Plug(c, Leaf)) == Before(c) + After(c)
  {
    hide Plug, Before, After, NoDup;
    InOrderPlug(c, Leaf);
    InOrderPlug(c, Single(h));
    var b, a := Before(c), After(c);
    assert InOrder(Plug(c, Leaf)) == b + a;
    SortedParts(key, b, a);
    SortedInsert(key, b, h, a);
    SortedNoDup(key, InOrder(Plug(c, Single(h))));
  }

  lemma NarrowedDistinct(key: Handle -> int, b: seq<Handle>, a: seq<Handle>, k: int)
    requires Narrowed(key, b, a, EQUAL, k)
    ensures forall x :: x in b + a ==> key(x) != k
  {
  }

  lemma HungApart(c: Path, h: Handle)
    requires NoDup(InOrder(Plug(c, Leaf))) && h !in InOrder(Plug(c, Leaf))
    ensures Apart(c, Leaf) && !OnPath(c, h)
    ensures c != [] ==> h != Last(c).h
  {
    PathApart(c, Leaf);
    PathInTree(c, Leaf);
  }

  lemma OverfullApart(c: Path, h: Handle)
    requires LastUnbalanced(c) >= 0 && NoDup(InOrder(Plug(c, Single(h))))
    ensures var u := LastUnbalanced(c);
      NoDup(InOrder(Overfull(c, h))) && Apart(c[..u], Overfull(c, h)) && Apart(c[..u], Leaf)
    ensures forall x :: x in InOrder(Overfull(c, h)) ==> x in InOrder(Plug(c, Single(h)))
  {
    var u := LastUnbalanced(c);
    OverfullInPlace(c, h);
    PathApart(c[..u], Overfull(c, h));
    PathInTree(c[..u], Overfull(c, h));
  }

  lemma OverfullStored(s: Store, p: Handle, c: Path, h: Handle)
    requires LastUnbalanced(c) >= 0
    requires PathShape(s, p, TiltFrom(c, LastUnbalanced(c) + 1), h) && Shape(s, h, Single(h))
    ensures PathShape(s, p, c[..LastUnbalanced(c)], c[LastUnbalanced(c)].h)
    ensures Shape(s, c[LastUnbalanced(c)].h, Overfull(c, h))
  {
    hide Plug, InOrder, Shape, FrameShape;
    var u := LastUnbalanced(c);
    var c2 := TiltFrom(c, u + 1);
    OverfullInPlace(c, h);
    PathSplit(s, p, c2, h, u);
    PathSplit(s, p, c2, h, u + 1);
    PathPlug(s, At(c2, u + 1, h), c2[u + 1..], h, Single(h));
    assert FrameShape(s, c2[u], At(c2, u + 1, h));
    ShapeFill(s, c2[u], At(c2, u + 1, h), Plug(c2[u + 1..], Single(h)));
  }

  lemma PathSame(s: Store, s': Store, c: Path, t: Tree)
    requires s'.Keys == s.Keys && forall x :: x in s && !OnPath(c, x) ==> s'[x] == s[x]
    ensures OnlyWrote(s, s', InOrder(Plug(c, t)))
  {
    PathInTree(c, t);
  }

  lemma LeafStored(s: Store, h: Handle)
    requires h in s && h != NIL && s[h] == Cell(NIL, NIL, 0)
    ensures Shape(s, h, Single(h))
  {
  }

  lemma FirstNode(key: Handle -> int, s: Store, t: Tree, h: Handle)
    requires Shape(s, NIL, t) && h in s && h != NIL && s[h] == Cell(NIL, NIL, 0)
    ensures t == Leaf && InOrder(t) == [] && t == Plug([], Leaf)
    ensures Before([]) == [] && After([]) == []
    ensures Grow([], h) == Single(h) && Shape(s, h, Single(h)) && Sorted(key, InOrder(Single(h)))
  {
    hide Grow;
    GrowFirst(h);
    LeafStored(s, h);
  }

  lemma GrowFirst(h: Handle)
    ensures Grow([], h) == Single(h)
  {
    assert LastUnbalanced([]) == -1;
    assert TiltFrom([], 0) == [];
    var z: Path := [];
    assert z[0..] == [];
    assert Plug([], Single(h)) == Single(h);
  }

  lemma LinkedSame(s: Store, s': Store, c: Path, h: Handle, parent: Handle)
    requires s'.Keys == s.Keys && forall x :: x in s && x != parent ==> s'[x] == s[x]
    requires c != [] && parent == Last(c).h
    ensures OnlyWrote(s, s', InOrder(Plug(c, Single(h))))
  {
    PathInTree(c, Single(h));
  }

  lemma RotatedSame(s: Store, s': Store, c: Path, h: Handle, parent: Handle)
    requires LastUnbalanced(c) >= 0 && s'.Keys == s.Keys
    requires parent == if LastUnbalanced(c) == 0 then NIL else c[LastUnbalanced(c) - 1].h
    requires NIL !in s
    requires forall x :: x in s && x !in InOrder(Overfull(c, h)) && x != parent ==> s'[x] == s[x]
    ensures OnlyWrote(s, s', InOrder(Plug(c, Single(h))))
  {
    PathInTree(c, Single(h));
    OverfullInPlace(c, h);
    PathInTree(c[..LastUnbalanced(c)], Overfull(c, h));
  }
}
