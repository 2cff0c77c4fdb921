/** The balanced tree that `build` makes of a sequence, and what its loops keep about the subtrees under way. */
module AvlBuilding {
  import opened Common
  import opened AvlTrees
  import opened AvlStore

  /** Bitwise "and" of two unsigned numbers. */
  function And(a: nat, b: nat): nat {
    if a == 0 || b == 0 then 0 else 2 * And(a / 2, b / 2) + if a % 2 == 1 && b % 2 == 1 then 1 else 0
  }

  predicate IsPowerOf2(n: nat) {
    n == 1 || (n > 1 && n % 2 == 0 && IsPowerOf2(n / 2))
  }

  /** Number of levels a tree of `n` nodes needs: floor(log2 n) + 1. */
  function Levels(n: nat): nat {
    if n == 0 then 0 else 1 + Levels(n / 2)
  }

  lemma {:induction false} LevelsIsLog(n: nat)
    requires n > 0
    ensures Pow2(Levels(n) - 1) <= n < Pow2(Levels(n))
  {
    if n > 1 {
      LevelsIsLog(n / 2);
    }
  }

  lemma {:induction false} AndSelf(n: nat)
    ensures And(n, n) == n
  {
    if n > 0 {
      AndSelf(n / 2);
    }
  }

  /** The bit trick of `build`: n & (n - 1) is 0 exactly for the powers of two. */
  lemma {:induction false} PowerOf2Test(n: nat)
    requires n > 0
    ensures And(n, n - 1) == 0 <==> IsPowerOf2(n)
  {
    if n > 1 {
      if n % 2 == 0 {
        assert (n - 1) / 2 == n / 2 - 1;
        PowerOf2Test(n / 2);
      } else {
        assert (n - 1) / 2 == n / 2;
        AndSelf(n / 2);
      }
    }
  }

  /** One more node means one more level exactly at the powers of two. */
  lemma {:induction false} LevelsPred(n: nat)
    requires n > 0
    ensures Levels(n) - Levels(n - 1) == if IsPowerOf2(n) then 1 else 0
  {
    if n > 1 && n % 2 == 0 {
      assert (n - 1) / 2 == n / 2 - 1;
      LevelsPred(n / 2);
    }
  }

  /** The tree built of `s`: the node before the middle, or at it, becomes the root. */
  function BuildTree(s: seq<Handle>): Tree
    decreases |s|
  {
    if s == [] then Leaf
    else
      var m := (|s| - 1) / 2;
      Node(BuildTree(s[..m]), s[m], if |s| > 1 && IsPowerOf2(|s|) then 1 else 0, BuildTree(s[m + 1..]))
  }

  lemma BuildParts(s: seq<Handle>)
    requires s != []
    ensures var t := BuildTree(s); var m := (|s| - 1) / 2;
      && t.Node? && t.lt == BuildTree(s[..m]) && t.gt == BuildTree(s[m + 1..]) && t.h == s[m]
      && t.bf == if |s| > 1 && IsPowerOf2(|s|) then 1 else 0
  {
  }

  lemma BuildStep(s: seq<Handle>)
    requires s != []
    ensures var m := (|s| - 1) / 2;
      && s == s[..m] + [s[m]] + s[m + 1..] && |s[m + 1..]| == |s| / 2
      && BuildTree(s) == Node(BuildTree(s[..m]), s[m], if |s| > 1 && IsPowerOf2(|s|) then 1 else 0,
                              BuildTree(s[m + 1..]))
  {
    hide BuildTree, IsPowerOf2;
    BuildParts(s);
  }

  lemma {:induction false} BuildOrder(s: seq<Handle>)
    ensures InOrder(BuildTree(s)) == s
    decreases |s|
  {
    if s != [] {
      hide BuildTree;
      var m := (|s| - 1) / 2;
      BuildStep(s);
      BuildOrder(s[..m]);
      BuildOrder(s[m + 1..]);
    } else {
      assert BuildTree(s) == Leaf;
    }
  }

  /** One more node in the greater subtree is one more level there exactly when the whole is a power of two. */
  lemma SplitLevels(n: nat)
    requires n > 0
    ensures Levels(n) == 1 + Levels(n / 2)
    ensures Levels(n / 2) - Levels((n - 1) / 2) == if n > 1 && IsPowerOf2(n) then 1 else 0
  {
    if n % 2 == 0 {
      LevelsPred(n / 2);
      assert (n - 1) / 2 == n / 2 - 1;
    } else {
      assert (n - 1) / 2 == n / 2;
    }
  }

  lemma BalancedNode(t: Tree)
    requires t.Node? && Balanced(t.lt) && Balanced(t.gt)
    requires t.bf == Height(t.gt) - Height(t.lt) && -1 <= t.bf <= 1
    ensures Balanced(t) && Height(t) == 1 + Max(Height(t.lt), Height(t.gt))
  {
  }

  ghost predicate BuiltWell(t: Tree, n: nat) {
    Balanced(t) && Height(t) == Levels(n)
  }

  lemma BuiltWellNode(t: Tree, n: nat)
    requires n > 0 && t.Node? && BuiltWell(t.lt, (n - 1) / 2) && BuiltWell(t.gt, n / 2)
    requires t.bf == if n > 1 && IsPowerOf2(n) then 1 else 0
    ensures BuiltWell(t, n)
  {
    hide IsPowerOf2, Levels;
    SplitLevels(n);
    BalancedNode(t);
  }

  lemma {:induction false} BuildWell(s: seq<Handle>)
    ensures BuiltWell(BuildTree(s), |s|)
    decreases |s|
  {
    if s != [] {
      hide BuildTree, IsPowerOf2, BuiltWell;
      var m := (|s| - 1) / 2;
      BuildParts(s);
      BuildWell(s[..m]);
      BuildWell(s[m + 1..]);
      assert |s[m + 1..]| == |s| / 2;
      BuiltWellNode(BuildTree(s), |s|);
    } else {
      assert BuildTree(s) == Leaf;
    }
  }

  /** A tree of a given depth has at most so many nodes. */
  lemma {:induction false} MostNodes(t: Tree)
    ensures |InOrder(t)| < Pow2(Height(t))
  {
    if t.Node? {
      MostNodes(t.lt);
      MostNodes(t.gt);
      var d := Max(Height(t.lt), Height(t.gt));
      PowGrows(Height(t.lt), d);
      PowGrows(Height(t.gt), d);
      assert |InOrder(t)| == |InOrder(t.lt)| + 1 + |InOrder(t.gt)|;
    }
  }

  lemma PowGrows(a: nat, b: nat)
    requires a <= b
    ensures Pow2(a) <= Pow2(b)
  {
    if a < b {
      Pow2Grows(a, b);
    }
  }

  lemma PowLess(a: nat, b: nat)
    requires Pow2(a) < Pow2(b)
    ensures a < b
  {
    if b <= a {
      PowGrows(b, a);
    }
  }

  lemma LevelsLeast(t: Tree, n: nat)
    requires n <= |InOrder(t)|
    ensures Levels(n) <= Height(t)
  {
    assert if n > 0 then Levels(n) > 0 else Levels(n) == 0;
    hide InOrder, Height, Levels, Pow2;
    if n > 0 {
      MostNodes(t);
      LevelsIsLog(n);
      PowLess(Levels(n) - 1, Height(t));
    }
  }

  /** Every balance factor is exact, and no tree of as many nodes is less deep. */
  lemma BuildBalanced(s: seq<Handle>)
    ensures Balanced(BuildTree(s)) && Height(BuildTree(s)) == Levels(|s|)
    ensures forall t: Tree :: |InOrder(t)| >= |s| ==> Height(t) >= Height(BuildTree(s))
  {
    BuildWell(s);
    hide InOrder, Levels, BuildTree;
    forall t: Tree | |InOrder(t)| >= |s| ensures Height(t) >= Levels(|s|) {
      LevelsLeast(t, |s|);
    }
  }

  /** At every node of the tree the greater subtree has as many nodes as the less one, or one more. */
  predicate EvenlySplit(t: Tree) {
    match t
    case Leaf => true
    case Node(l, _, _, r) =>
      && |InOrder(l)| <= |InOrder(r)| <= |InOrder(l)| + 1
      && EvenlySplit(l) && EvenlySplit(r)
  }

  lemma {:induction false} BuildEvenlySplit(s: seq<Handle>)
    ensures EvenlySplit(BuildTree(s))
    decreases |s|
  {
    if s != [] {
      var m := (|s| - 1) / 2;
      BuildOrder(s[..m]);
      BuildOrder(s[m + 1..]);
      BuildEvenlySplit(s[..m]);
      BuildEvenlySplit(s[m + 1..]);
    }
  }

  // ---------------------------------------------------------------------------------------------
  // Subtrees under way

  /** A subtree of `n` nodes starting at position `off`, of which the less or the greater subtree is being built. */
  datatype Level = Level(n: nat, off: nat, greater: bool) {
    function Mid(): nat
      requires n > 0
    {
      off + (n - 1) / 2
    }

    function SubSize(): nat
      requires n > 0
    {
      if greater then n / 2 else (n - 1) / 2
    }

    function SubStart(): nat
      requires n > 0
    {
      if greater then Mid() + 1 else off
    }
  }

  /** `lv` leads from the whole of `all` nodes down to the subtree of `n` nodes starting at `off`. */
  ghost predicate Nested(lv: seq<Level>, all: nat, n: nat, off: nat)
    decreases |lv|
  {
    if lv == [] then n == all && off == 0
    else
      var l := Last(lv);
      l.n > 2 && n == l.SubSize() && off == l.SubStart() && Nested(Init(lv), all, l.n, l.off)
  }

  lemma {:induction false} NestedFits(lv: seq<Level>, all: nat, n: nat, off: nat)
    requires Nested(lv, all, n, off)
    ensures off + n <= all && |lv| + Levels(n) <= Levels(all) && (lv != [] ==> 0 < n < all)
    decreases |lv|
  {
    if lv != [] {
      var l := Last(lv);
      NestedFits(Init(lv), all, l.n, l.off);
      LevelsGrow(l.SubSize(), l.n / 2);
    }
  }

  lemma {:induction false} LevelsGrow(m: nat, n: nat)
    requires m <= n
    ensures Levels(m) <= Levels(n)
  {
    if m > 0 {
      LevelsGrow(m / 2, n / 2);
    }
  }

  /** From handle `lp` the `greater` links thread the nodes whose less subtree is finished, innermost first. */
  ghost predicate Stacked(s: Store, p: seq<Handle>, lv: seq<Level>, lp: Handle)
    decreases |lv|
  {
    if lv == [] then lp == NIL
    else
      var l := Last(lv);
      if l.greater then
        && 0 < l.n && l.off + l.n <= |p| && lp == p[l.Mid()] && lp in s
        && Shape(s, s[lp].lt, BuildTree(p[l.off..l.Mid()]))
        && Stacked(s, p, Init(lv), s[lp].gt)
      else Stacked(s, p, Init(lv), lp)
  }

  /** Only nodes at position `off` or later are written. */
  ghost predicate SameBefore(s: Store, s': Store, p: seq<Handle>, off: nat) {
    && s'.Keys == s.Keys
    && forall i :: 0 <= i < off && i < |p| && p[i] in s ==> s'[p[i]] == s[p[i]]
  }

  lemma {:induction false} StackKept(s: Store, s': Store, p: seq<Handle>, lv: seq<Level>, lp: Handle, n: nat, off: nat)
    requires Stacked(s, p, lv, lp) && Nested(lv, |p|, n, off) && SameBefore(s, s', p, off)
    ensures Stacked(s', p, lv, lp)
    decreases |lv|
  {
    if lv != [] {
      var l := Last(lv);
      if l.greater {
        var part := p[l.off..l.Mid()];
        BuildOrder(part);
        assert forall x :: x in part ==> exists i :: 0 <= i < off && i < |p| && p[i] == x;
        ShapeKept(s, s', s[lp].lt, BuildTree(part));
        StackKept(s, s', p, Init(lv), s[lp].gt, l.n, l.off);
      } else {
        StackKept(s, s', p, Init(lv), lp, l.n, l.off);
      }
    }
  }

  lemma SliceSame(s: Store, s': Store, p: seq<Handle>, off: nat, end: nat)
    requires NoDup(p) && off <= end <= |p| && OnlyWrote(s, s', p[off..end])
    ensures SameBefore(s, s', p, off) && OnlyWrote(s, s', p)
  {
    assert forall x :: x in p[off..end] ==> exists i :: off <= i < end && p[i] == x;
  }

  lemma SliceApart(p: seq<Handle>, a: nat, b: nat, i: nat)
    requires NoDup(p) && a <= b <= |p| && i < |p| && !(a <= i < b)
    ensures p[i] !in p[a..b]
  {
  }

  /** Writing the node at position `i` leaves the stack, and every finished subtree beside it, as it was. */
  lemma WriteAt(s: Store, n: Cell, p: seq<Handle>, i: nat)
    requires NoDup(p) && i < |p| && p[i] in s
    ensures SameBefore(s, s[p[i] := n], p, i) && OnlyWrote(s, s[p[i] := n], p)
  {
  }

  lemma BuiltKept(s: Store, n: Cell, p: seq<Handle>, i: nat, h: Handle, a: nat, b: nat)
    requires NoDup(p) && a <= b <= |p| && i < |p| && !(a <= i < b) && Shape(s, h, BuildTree(p[a..b]))
    ensures Shape(s[p[i] := n], h, BuildTree(p[a..b]))
  {
    SliceApart(p, a, b, i);
    BuildOrder(p[a..b]);
    ShapeUpdate(s, p[i], n, h, BuildTree(p[a..b]));
  }

  lemma EmptyBuild(s: Store)
    ensures Shape(s, NIL, BuildTree([])) && BuildTree([]) == Leaf
  {
  }

  lemma BuildOne(s: Store, h: Handle, p: seq<Handle>, off: nat)
    requires off < |p| && p[off] == h && h in s && h != NIL && s[h] == Cell(NIL, NIL, 0)
    ensures Shape(s, h, BuildTree(p[off..off + 1]))
  {
    assert p[off..off + 1] == [h];
    assert BuildTree([h]) == Node(Leaf, h, 0, Leaf);
  }

  lemma BuildTwo(s: Store, h: Handle, child: Handle, p: seq<Handle>, off: nat)
    requires off + 1 < |p| && p[off] == h && p[off + 1] == child
    requires h in s && child in s && h != NIL && child != NIL
    requires s[h] == Cell(NIL, child, 1) && s[child] == Cell(NIL, NIL, 0)
    ensures Shape(s, h, BuildTree(p[off..off + 2]))
  {
    assert p[off..off + 2] == [h, child];
    BuildStep([h, child]);
    assert BuildTree([child]) == Node(Leaf, child, 0, Leaf);
    assert Shape(s, child, BuildTree([child]));
    assert IsPowerOf2(2);
    assert [h, child][..0] == [] && [h, child][1..] == [child];
  }

  lemma StartBuild(s: Store, p: seq<Handle>)
    ensures Nested([], |p|, |p|, 0) && Stacked(s, p, [], NIL)
  {
  }

  /** The current subtree lies within the sequence, and there is a bit left for it if it has more than two nodes. */
  lemma BuildFits(lv: seq<Level>, all: nat, n: nat, off: nat)
    requires Nested(lv, all, n, off)
    ensures off + n <= all && (lv != [] ==> 0 < n < all)
    ensures lv == [] ==> n == all && off == 0
    ensures n > 2 ==> |lv| + 2 <= Levels(all)
    ensures lv != [] && !Last(lv).greater ==> off + n < all
  {
    NestedFits(lv, all, n, off);
    if lv != [] {
      NestedFits(Init(lv), all, Last(lv).n, Last(lv).off);
    }
  }

  /** Going into the less subtree of a subtree of more than two nodes. */
  lemma DescendStep(s: Store, p: seq<Handle>, lv: seq<Level>, lp: Handle, n: nat, off: nat)
    requires Nested(lv, |p|, n, off) && Stacked(s, p, lv, lp) && n > 2
    ensures Nested(lv + [Level(n, off, false)], |p|, (n - 1) / 2, off)
    ensures Stacked(s, p, lv + [Level(n, off, false)], lp)
  {
    assert Init(lv + [Level(n, off, false)]) == lv;
  }

  lemma UnwindLevels(lv: seq<Level>, all: nat, n: nat, off: nat)
    requires Nested(lv, all, n, off) && lv != [] && Last(lv).greater
    ensures
      var l := Last(lv);
      && l.n == 2 * n + 1 - (l.n - 1) % 2 && l.n > 2 && l.off + l.n == off + n <= all
      && Nested(Init(lv), all, l.n, l.off)
      && l.off <= l.Mid() == off - 1 && n == l.SubSize() && off == l.SubStart()
  {
    NestedFits(Init(lv), all, Last(lv).n, Last(lv).off);
  }

  /** The node that a finished greater subtree is attached to, with its balance factor. */
  function Finished(s: Store, lp: Handle, h: Handle, n: nat): Store
    requires lp in s
  {
    SetBf(SetGt(s, lp, h), lp, if n > 0 && And(n, n - 1) == 0 then 1 else 0)
  }

  /** The node at the top of the stack, whose less subtree is finished. */
  lemma StackTop(s: Store, p: seq<Handle>, lv: seq<Level>, lp: Handle, n: nat, off: nat)
    requires Nested(lv, |p|, n, off) && Stacked(s, p, lv, lp) && lv != [] && Last(lv).greater
    ensures
      var l := Last(lv);
      && l.Mid() < |p| && lp == p[l.Mid()] && lp in s && l.off <= l.Mid()
      && Shape(s, s[lp].lt, BuildTree(p[l.off..l.Mid()])) && Stacked(s, p, Init(lv), s[lp].gt)
  {
    UnwindLevels(lv, |p|, n, off);
    hide Shape, BuildTree;
  }

  lemma UnwindStack(s: Store, p: seq<Handle>, lv: seq<Level>, lp: Handle, h: Handle, n: nat, off: nat)
    requires Nested(lv, |p|, n, off) && Stacked(s, p, lv, lp) && lv != [] && Last(lv).greater && NoDup(p)
    ensures lp in s && lp in p
    ensures
      var s' := Finished(s, lp, h, Last(lv).n);
      Stacked(s', p, Init(lv), s[lp].gt) && OnlyWrote(s, s', p)
  {
    var l := Last(lv);
    UnwindLevels(lv, |p|, n, off);
    StackTop(s, p, lv, lp, n, off);
    hide Shape, BuildTree, NoDup, And, Nested, Stacked, OnlyWrote;
    var s' := Finished(s, lp, h, l.n);
    assert s' == s[lp := s'[lp]];
    WriteAt(s, s'[lp], p, l.Mid());
    assert SameBefore(s, s', p, l.off);
    hide SameBefore;
    StackKept(s, s', p, Init(lv), s[lp].gt, l.n, l.off);
  }

  lemma UnwindShape(s: Store, p: seq<Handle>, lv: seq<Level>, lp: Handle, h: Handle, n: nat, off: nat)
    requires Nested(lv, |p|, n, off) && Stacked(s, p, lv, lp) && lv != [] && Last(lv).greater
    requires off + n <= |p| && Shape(s, h, BuildTree(p[off..off + n])) && NoDup(p) && NIL !in s
    ensures
      var l := Last(lv);
      lp in s && l.off + l.n <= |p| && Shape(Finished(s, lp, h, l.n), lp, BuildTree(p[l.off..l.off + l.n]))
  {
    hide Shape, BuildTree, NoDup, And, Nested, Stacked, Finished, Level.SubSize, Level.SubStart, Level.Mid;
    UnwindLevels(lv, |p|, n, off);
    StackTop(s, p, lv, lp, n, off);
    AttachShape(s, p, Last(lv), lp, h, n, off);
  }

  lemma AttachShape(s: Store, p: seq<Handle>, l: Level, lp: Handle, h: Handle, n: nat, off: nat)
    requires l.n > 2 && l.greater && l.off + l.n == off + n <= |p| && n == l.SubSize() && off == l.SubStart()
    requires l.off <= l.Mid() == off - 1 && lp == p[l.Mid()] && lp in s && NoDup(p) && NIL !in s
    requires Shape(s, s[lp].lt, BuildTree(p[l.off..l.Mid()])) && Shape(s, h, BuildTree(p[off..off + n]))
    ensures Shape(Finished(s, lp, h, l.n), lp, BuildTree(p[l.off..l.off + l.n]))
  {
    hide Shape, BuildTree, NoDup, And, Level.SubSize, Level.SubStart, Level.Mid;
    var m := l.Mid();
    var s' := Finished(s, lp, h, l.n);
    assert s' == s[lp := s'[lp]];
    BuiltKept(s, s'[lp], p, m, s[lp].lt, l.off, m);
    BuiltKept(s, s'[lp], p, m, h, off, off + n);
    Rooted(p, l, s', lp, n, off);
  }

  /** A finished greater subtree is attached to its parent, which is popped off the stack. */
  lemma UnwindStep(s: Store, p: seq<Handle>, lv: seq<Level>, lp: Handle, h: Handle, n: nat, off: nat)
    requires Nested(lv, |p|, n, off) && Stacked(s, p, lv, lp) && lv != [] && Last(lv).greater
    requires off + n <= |p| && Shape(s, h, BuildTree(p[off..off + n])) && NoDup(p) && NIL !in s
    ensures lp in s && lp in p
    ensures var l := Last(lv);
      && l.n == 2 * n + 1 - (l.n - 1) % 2 && l.n > 2 && l.off + l.n == off + n
      && Nested(Init(lv), |p|, l.n, l.off)
      && (var s' := SetBf(SetGt(s, lp, h), lp, if And(l.n, l.n - 1) == 0 then 1 else 0);
          && Shape(s', lp, BuildTree(p[l.off..l.off + l.n]))
          && Stacked(s', p, Init(lv), s[lp].gt) && OnlyWrote(s, s', p))
  {
    UnwindLevels(lv, |p|, n, off);
    UnwindStack(s, p, lv, lp, h, n, off);
    UnwindShape(s, p, lv, lp, h, n, off);
    hide Shape, BuildTree, NoDup, And, Nested, Stacked, OnlyWrote;
  }

  lemma Rooted(p: seq<Handle>, l: Level, s: Store, lp: Handle, n: nat, off: nat)
    requires l.n > 2 && l.greater && l.off + l.n <= |p| && n == l.SubSize() && off == l.SubStart()
    requires lp == p[l.Mid()] && lp in s && lp != NIL && s[lp].bf == if And(l.n, l.n - 1) == 0 then 1 else 0
    requires Shape(s, s[lp].lt, BuildTree(p[l.off..l.Mid()])) && Shape(s, s[lp].gt, BuildTree(p[off..off + n]))
    ensures Shape(s, lp, BuildTree(p[l.off..l.off + l.n]))
  {
    hide BuildTree, IsPowerOf2, And;
    var whole := p[l.off..l.off + l.n];
    BuildStep(whole);
    PowerOf2Test(l.n);
    SliceOfSlice(p, l.off, l.off + l.n, 0, (l.n - 1) / 2);
    SliceOfSlice(p, l.off, l.off + l.n, (l.n - 1) / 2 + 1, l.n);
    assert whole[..(l.n - 1) / 2] == whole[0..(l.n - 1) / 2];
    assert whole[(l.n - 1) / 2 + 1..] == whole[(l.n - 1) / 2 + 1..l.n];
  }

  lemma SliceOfSlice(p: seq<Handle>, a: nat, b: nat, c: nat, d: nat)
    requires a <= b <= |p| && c <= d <= b - a
    ensures p[a..b][c..d] == p[a + c..a + d]
  {
    var s, t := p[a..b][c..d], p[a + c..a + d];
    forall i | 0 <= i < d - c ensures s[i] == t[i] {
    }
  }

  lemma NextLevels(lv: seq<Level>, all: nat, n: nat, off: nat)
    requires Nested(lv, all, n, off) && lv != [] && !Last(lv).greater && off + n < all
    ensures
      var l := Last(lv);
      var lv' := Init(lv) + [Level(l.n, l.off, true)];
      && Init(lv') == Init(lv) && l.off == off && off + n == l.Mid() == Level(l.n, l.off, true).Mid()
      && 0 < l.n && l.off + l.n <= all
      && n + (l.n - 1) % 2 > 0 && Nested(lv', all, n + (l.n - 1) % 2, off + n + 1)
      && Nested(Init(lv), all, l.n, l.off)
  {
    var l := Last(lv);
    NestedFits(Init(lv), all, l.n, l.off);
    assert Init(Init(lv) + [Level(l.n, l.off, true)]) == Init(lv);
  }

  lemma NextStack(s: Store, p: seq<Handle>, lv: seq<Level>, lp: Handle, child: Handle, n: nat, off: nat, h: Handle)
    requires Nested(lv, |p|, n, off) && Stacked(s, p, lv, lp) && lv != [] && !Last(lv).greater
    requires off + n < |p| && h == p[off + n] && h in s && NoDup(p)
    ensures
      var s' := SetGt(SetLt(s, h, child), h, lp);
      Stacked(s', p, Init(lv), lp) && OnlyWrote(s, s', p)
  {
    var l := Last(lv);
    NextLevels(lv, |p|, n, off);
    assert Stacked(s, p, Init(lv), lp);
    hide Nested, Shape, BuildTree, NoDup, Stacked, OnlyWrote;
    var s' := SetGt(SetLt(s, h, child), h, lp);
    assert s' == s[h := s'[h]];
    WriteAt(s, s'[h], p, off + n);
    assert SameBefore(s, s', p, l.off);
    hide SameBefore;
    StackKept(s, s', p, Init(lv), lp, l.n, l.off);
  }

  /** A finished less subtree is given to the next node, which goes on the stack. */
  lemma NextStep(s: Store, p: seq<Handle>, lv: seq<Level>, lp: Handle, child: Handle, n: nat, off: nat, h: Handle)
    requires Nested(lv, |p|, n, off) && Stacked(s, p, lv, lp) && lv != [] && !Last(lv).greater
    requires off + n < |p| && h == p[off + n] && h in s && NoDup(p)
    requires Shape(s, child, BuildTree(p[off..off + n]))
    ensures var l := Last(lv); var lv' := Init(lv) + [Level(l.n, l.off, true)];
      var s' := SetGt(SetLt(s, h, child), h, lp);
      && n + (l.n - 1) % 2 > 0 && Nested(lv', |p|, n + (l.n - 1) % 2, off + n + 1) && Stacked(s', p, lv', h)
      && OnlyWrote(s, s', p)
  {
    hide Nested, Shape, BuildTree, NoDup, OnlyWrote, Stacked, Level.SubSize, Level.SubStart, Level.Mid;
    var l := Last(lv);
    NextLevels(lv, |p|, n, off);
    NextStack(s, p, lv, lp, child, n, off, h);
    NextShape(s, p, lp, child, n, off, h);
    hide SetLt, SetGt, Last, Init;
    StackPush(SetGt(SetLt(s, h, child), h, lp), p, Init(lv), Level(l.n, l.off, true), h);
  }

  lemma NextShape(s: Store, p: seq<Handle>, lp: Handle, child: Handle, n: nat, off: nat, h: Handle)
    requires off + n < |p| && h == p[off + n] && h in s && NoDup(p) && Shape(s, child, BuildTree(p[off..off + n]))
    ensures
      var s' := SetGt(SetLt(s, h, child), h, lp);
      h in s' && s'[h].lt == child && s'[h].gt == lp && Shape(s', child, BuildTree(p[off..off + n]))
  {
    hide Shape, BuildTree, NoDup;
    var s' := SetGt(SetLt(s, h, child), h, lp);
    assert s' == s[h := s'[h]];
    BuiltKept(s, s'[h], p, off + n, child, off, off + n);
  }

  lemma StackPush(s: Store, p: seq<Handle>, lv: seq<Level>, l: Level, h: Handle)
    requires l.greater && 0 < l.n && l.off + l.n <= |p| && l.Mid() < |p| && h == p[l.Mid()] && h in s
    requires Shape(s, s[h].lt, BuildTree(p[l.off..l.Mid()])) && Stacked(s, p, lv, s[h].gt)
    ensures Stacked(s, p, lv + [l], h)
  {
    assert Init(lv + [l]) == lv && Last(lv + [l]) == l;
    hide Shape, BuildTree, Level.Mid;
  }
}
