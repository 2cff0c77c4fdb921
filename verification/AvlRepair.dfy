/** How `insert` and `remove` repair balance along a path, stated on trees, and how deep an AVL tree can be. */
module AvlRepair {
  import opened Common
  import opened AvlTrees

  /** Node `f.h`, its entered subtree now being `t`, is to get balance factor `bf`; out of range means rotate. */
  function Repair(f: Frame, t: Tree, bf: int): Tree {
    if bf == -2 || bf == 2 then Rebalance(Fill(f, t)) else Fill(f.(bf := bf), t)
  }

  lemma RepairOrder(f: Frame, t: Tree, bf: int)
    ensures InOrder(Repair(f, t, bf)) == InOrder(Fill(f, t))
  {
    if (bf == -2 || bf == 2) && CanRebalance(Fill(f, t)) {
      RebalanceOrder(Fill(f, t));
    }
  }

  // ---------------------------------------------------------------------------------------------
  // Insertion: only the last unbalanced node on the path, and the nodes below it, are changed.

  /** Index of the last frame of `c` whose balance factor is not 0, or -1. */
  function LastUnbalanced(c: Path): (u: int)
    ensures -1 <= u < |c|
    ensures u >= 0 ==> c[u].bf != 0
    ensures forall j :: u < j < |c| ==> c[j].bf == 0
    decreases |c|
  {
    if c == [] then -1
    else if Last(c).bf != 0 then |c| - 1
    else LastUnbalanced(Init(c))
  }

  function Tilt(f: Frame): Frame {
    f.(bf := if f.dir then 1 else -1)
  }

  /** `c` with the frames from index `i` up to index `k` leaning the way the path goes. */
  function TiltRange(c: Path, i: nat, k: nat): (r: Path)
    ensures |r| == |c|
    ensures forall j :: 0 <= j < |c| ==> r[j] == if i <= j < k then Tilt(c[j]) else c[j]
  {
    seq(|c|, j requires 0 <= j < |c| => if i <= j < k then Tilt(c[j]) else c[j])
  }

  function TiltFrom(c: Path, i: nat): (r: Path)
    ensures |r| == |c|
    ensures forall j :: 0 <= j < |c| ==> r[j] == if j < i then c[j] else Tilt(c[j])
  {
    TiltRange(c, i, |c|)
  }

  function Single(h: Handle): (t: Tree)
    ensures InOrder(t) == [h] && Balanced(t) && Height(t) == Height(Leaf) + 1
  {
    Node(Leaf, h, 0, Leaf)
  }

  /** The tree after `h` was hung at the end of path `c` and `insert` has repaired what it repairs. */
  function Grow(c: Path, h: Handle): Tree {
    var u := LastUnbalanced(c);
    var below := Plug(TiltFrom(c[u + 1..], 0), Single(h));
    if u < 0 then below
    else Plug(c[..u], Repair(c[u], below, c[u].bf + (if c[u].dir then 1 else -1)))
  }

  lemma {:induction false} PlugRoot(c: Path, t: Tree)
    requires c != []
    ensures Plug(c, t).Node? && Plug(c, t).h == c[0].h && Plug(c, t).bf == c[0].bf
    decreases |c|
  {
    if |c| > 1 {
      PlugRoot(Init(c), Fill(Last(c), t));
    }
  }

  /** Along a path of balanced nodes one more level at the end is one more level everywhere, and each node tilts. */
  lemma {:induction false} TiltUp(c: Path, t: Tree, t': Tree)
    requires forall j :: 0 <= j < |c| ==> c[j].bf == 0
    requires Balanced(Plug(c, t)) && Balanced(t') && Height(t') == Height(t) + 1
    ensures Balanced(Plug(TiltFrom(c, 0), t'))
    ensures Height(Plug(TiltFrom(c, 0), t')) == Height(Plug(c, t)) + 1
    decreases |c|
  {
    if c != [] {
      var f := Last(c);
      BalancedSub(Init(c), Fill(f, t));
      assert Init(TiltFrom(c, 0)) == TiltFrom(Init(c), 0);
      TiltUp(Init(c), Fill(f, t), Fill(Tilt(f), t'));
    }
  }

  lemma {:induction false} TiltOrder(c: Path, i: nat)
    ensures Before(TiltFrom(c, i)) == Before(c) && After(TiltFrom(c, i)) == After(c)
    decreases |c|
  {
    if c != [] {
      assert Init(TiltFrom(c, i)) == TiltFrom(Init(c), i);
      TiltOrder(Init(c), i);
    }
  }

  lemma SplitAt(c: Path, u: nat, t: Tree)
    requires u < |c|
    ensures Plug(c, t) == Plug(c[..u], Fill(c[u], Plug(c[u + 1..], t)))
    ensures Before(c) == Before(c[..u]) + (if c[u].dir then InOrder(c[u].sib) + [c[u].h] else []) + Before(c[u + 1..])
    ensures After(c) == After(c[u + 1..]) + (if c[u].dir then [] else [c[u].h] + InOrder(c[u].sib)) + After(c[..u])
  {
    assert c == (c[..u] + [c[u]]) + c[u + 1..];
    PlugConcat(c[..u] + [c[u]], c[u + 1..], t);
    PlugSnoc(c[..u], c[u], Plug(c[u + 1..], t));
  }

  lemma GrownOneStepOut(f: Frame, o: Tree, t: Tree)
    requires f.bf != 0 && Balanced(Fill(f, o)) && Balanced(t) && Height(t) == Height(o) + 1
    requires f.bf + (if f.dir then 1 else -1) != 0
    ensures OneStepOut(Fill(f, t))
  {
  }

  /** Adding a level under an unbalanced node, the subtree below leaning, leaves the height of that node as it was. */
  lemma RepairGrown(f: Frame, o: Tree, t: Tree)
    requires f.bf != 0 && Balanced(Fill(f, o)) && Balanced(t) && Height(t) == Height(o) + 1
    requires o.Node? ==> t.Node? && t.bf != 0
    ensures var r := Repair(f, t, f.bf + (if f.dir then 1 else -1));
      Balanced(r) && Height(r) == Height(Fill(f, o))
  {
    var nb := f.bf + (if f.dir then 1 else -1);
    if nb == 2 || nb == -2 {
      GrownOneStepOut(f, o, t);
      RebalanceCorrect(Fill(f, t));
    }
  }

  /** The subtree of the last unbalanced node of `c` after `h` was hung at the end and everything below tilted. */
  function Overfull(c: Path, h: Handle): Tree
    requires LastUnbalanced(c) >= 0
  {
    var u := LastUnbalanced(c);
    Fill(c[u], Plug(TiltFrom(c[u + 1..], 0), Single(h)))
  }

  /** The tilted path, when the last unbalanced node could absorb the new level. */
  lemma GrownInRange(c: Path, c1: Path, h: Handle)
    requires var u := LastUnbalanced(c);
      if u < 0 then c1 == c
      else
        var nb := c[u].bf + (if c[u].dir then 1 else -1);
        nb != 2 && nb != -2 && c1 == c[u := c[u].(bf := nb)]
    ensures Plug(TiltFrom(c1, LastUnbalanced(c) + 1), Single(h)) == Grow(c, h)
  {
    hide Plug, InOrder, Balanced, Height, Rebalance;
    var u := LastUnbalanced(c);
    var c2 := TiltFrom(c1, u + 1);
    if u < 0 {
      assert c[u + 1..] == c;
    } else {
      TiltedParts(c, c1, u);
      hide TiltFrom, TiltRange, Repair, LastUnbalanced;
      SplitAt(c2, u, Single(h));
    }
  }

  lemma TiltedParts(c: Path, c1: Path, u: nat)
    requires u < |c| == |c1| && forall j :: 0 <= j < |c| && j != u ==> c1[j] == c[j]
    ensures
      var c2 := TiltFrom(c1, u + 1);
      c2[..u] == c[..u] && c2[u] == c1[u] && c2[u + 1..] == TiltFrom(c[u + 1..], 0)
  {
  }

  lemma GrownOutOfRange(c: Path, h: Handle)
    requires LastUnbalanced(c) >= 0
    requires var f := c[LastUnbalanced(c)];
      var nb := f.bf + (if f.dir then 1 else -1); nb == 2 || nb == -2
    ensures Grow(c, h) == Plug(c[..LastUnbalanced(c)], Rebalance(Overfull(c, h)))
  {
  }

  /** The tilted path, when the last unbalanced node could not. */
  lemma OverfullInPlace(c: Path, h: Handle)
    requires LastUnbalanced(c) >= 0
    ensures var u := LastUnbalanced(c);
      && TiltFrom(c, u + 1)[..u] == c[..u]
      && TiltFrom(c, u + 1)[u + 1..] == TiltFrom(c[u + 1..], 0)
    ensures Plug(TiltFrom(c, LastUnbalanced(c) + 1), Single(h)) == Plug(c[..LastUnbalanced(c)], Overfull(c, h))
    ensures InOrder(Plug(c[..LastUnbalanced(c)], Overfull(c, h))) == InOrder(Plug(c, Single(h)))
  {
    var u := LastUnbalanced(c);
    var c2 := TiltFrom(c, u + 1);
    SplitAt(c2, u, Single(h));
    assert c2[..u] == c[..u];
    assert c2[u + 1..] == TiltFrom(c[u + 1..], 0);
    TiltOrder(c, u + 1);
    InOrderPlug(c, Single(h));
    InOrderPlug(c2, Single(h));
  }

  lemma OverfullOneStepOut(c: Path, h: Handle)
    requires Balanced(Plug(c, Leaf)) && LastUnbalanced(c) >= 0
    requires var f := c[LastUnbalanced(c)]; f.bf + (if f.dir then 1 else -1) != 0
    ensures OneStepOut(Overfull(c, h)) && CanRebalance(Overfull(c, h))
  {
    hide Plug, InOrder, Balanced, Height, Rebalance, OneStepOut, CanRebalance, LevelLostIffZero;
    var u := LastUnbalanced(c);
    var z := c[u + 1..];
    SplitAt(c, u, Leaf);
    BalancedSub(c[..u], Fill(c[u], Plug(z, Leaf)));
    TiltUp(z, Leaf, Single(h));
    GrownOneStepOut(c[u], Plug(z, Leaf), Plug(TiltFrom(z, 0), Single(h)));
    RebalanceCorrect(Overfull(c, h));
  }

  lemma GrowHeight(c: Path, h: Handle)
    requires Balanced(Plug(c, Leaf))
    ensures Balanced(Grow(c, h))
    ensures Height(Grow(c, h)) == Height(Plug(c, Leaf)) + (if LastUnbalanced(c) < 0 then 1 else 0)
  {
    if LastUnbalanced(c) < 0 {
      assert c[0..] == c;
      TiltUp(c, Leaf, Single(h));
    } else {
      GrowHeightAt(c, h);
    }
  }

  lemma GrowHeightAt(c: Path, h: Handle)
    requires Balanced(Plug(c, Leaf)) && LastUnbalanced(c) >= 0
    ensures Balanced(Grow(c, h)) && Height(Grow(c, h)) == Height(Plug(c, Leaf))
  {
    hide Plug, InOrder, Balanced, Height, Rebalance, Repair, Fill, TiltFrom;
    var u := LastUnbalanced(c);
    var f, z := c[u], c[u + 1..];
    var o, t := Plug(z, Leaf), Plug(TiltFrom(z, 0), Single(h));
    SplitAt(c, u, Leaf);
    BalancedSub(c[..u], Fill(f, o));
    BalancedFill(f, o);
    TiltUp(z, Leaf, Single(h));
    TiltedRoot(z, h);
    RepairGrown(f, o, t);
    BalancedSwap(c[..u], Fill(f, o), Repair(f, t, f.bf + (if f.dir then 1 else -1)));
  }

  lemma BalancedFill(f: Frame, t: Tree)
    requires Balanced(Fill(f, t))
    ensures Balanced(t)
  {
  }

  /** Below the last unbalanced node every node on the path leans. */
  lemma TiltedRoot(z: Path, h: Handle)
    ensures Plug(z, Leaf).Node? ==>
      Plug(TiltFrom(z, 0), Single(h)).Node? && Plug(TiltFrom(z, 0), Single(h)).bf != 0
  {
    if z == [] {
      assert Plug(z, Leaf) == Leaf;
    } else {
      PlugRoot(TiltFrom(z, 0), Single(h));
    }
  }

  lemma FillOrder(f: Frame, a: Tree, b: Tree)
    requires InOrder(a) == InOrder(b)
    ensures InOrder(Fill(f, a)) == InOrder(Fill(f, b))
  {
  }

  lemma GrowOrder(c: Path, h: Handle)
    ensures InOrder(Grow(c, h)) == InOrder(Plug(c, Single(h)))
  {
    if LastUnbalanced(c) < 0 {
      assert c[0..] == c;
      TiltedOrder(c, h);
    } else {
      GrowOrderAt(c, h);
    }
  }

  lemma TiltedOrder(z: Path, h: Handle)
    ensures InOrder(Plug(TiltFrom(z, 0), Single(h))) == InOrder(Plug(z, Single(h)))
  {
    hide Plug, Before, After, InOrder;
    TiltOrder(z, 0);
    InOrderPlug(TiltFrom(z, 0), Single(h));
    InOrderPlug(z, Single(h));
  }

  lemma GrowOrderAt(c: Path, h: Handle)
    requires LastUnbalanced(c) >= 0
    ensures InOrder(Grow(c, h)) == InOrder(Plug(c, Single(h)))
  {
    hide Plug, InOrder, Before, After, Repair, Fill, TiltFrom;
    var u := LastUnbalanced(c);
    var f, z := c[u], c[u + 1..];
    var below, nb := Plug(TiltFrom(z, 0), Single(h)), f.bf + (if f.dir then 1 else -1);
    TiltedOrder(z, h);
    RepairOrder(f, below, nb);
    FillOrder(f, below, Plug(z, Single(h)));
    InOrderPlug(c[..u], Repair(f, below, nb));
    InOrderPlug(c[..u], Fill(f, Plug(z, Single(h))));
    SplitAt(c, u, Single(h));
  }

  /** `insert`, for every path into every AVL tree: the result is AVL, `h` is in its place in the order, and when
      some node of the path was unbalanced the height is unchanged, so nothing above that node had to change. */
  lemma GrowCorrect(c: Path, h: Handle)
    requires Balanced(Plug(c, Leaf))
    ensures Balanced(Grow(c, h))
    ensures InOrder(Grow(c, h)) == Before(c) + [h] + After(c)
    ensures Height(Grow(c, h)) == Height(Plug(c, Leaf)) + (if LastUnbalanced(c) < 0 then 1 else 0)
  {
    GrowHeight(c, h);
    GrowOrder(c, h);
    InOrderPlug(c, Single(h));
  }

  // ---------------------------------------------------------------------------------------------
  // Removal: climb from the shortened subtree towards the root, repairing while the depth keeps shrinking.

  function Lower(f: Frame, t: Tree): Tree {
    Repair(f, t, f.bf - (if f.dir then 1 else -1))
  }

  /** The tree after climbing path `c` from its end, where subtree `t` now is, one level shorter if `reduced`. */
  function Climb(c: Path, t: Tree, reduced: bool): Tree
    decreases |c|
  {
    if c == [] then t
    else if !reduced then Climb(Init(c), Fill(Last(c), t), false)
    else
      var r := Lower(Last(c), t);
      Climb(Init(c), r, r.Node? && r.bf == 0)
  }

  /** One step of the climb: the node's new factor is 0 exactly when its own subtree became shorter too. */
  lemma LowerCorrect(f: Frame, o: Tree, t: Tree)
    requires Balanced(Fill(f, o)) && Balanced(t) && Height(t) == Height(o) - 1
    ensures LevelLostIffZero(Fill(f, o), Lower(f, t)) && LowerReady(f, t)
  {
    var nb := f.bf - (if f.dir then 1 else -1);
    if nb == 2 || nb == -2 {
      assert OneStepOut(Fill(f, t));
      RebalanceCorrect(Fill(f, t));
      assert Height(Fill(f, t)) == Height(Fill(f, o));
    }
  }

  /** Where subtree `t` now is there used to be `o`, in a balanced tree; `reduced` tells whether a level was lost. */
  ghost predicate Climbing(c: Path, o: Tree, t: Tree, reduced: bool) {
    Balanced(Plug(c, o)) && Balanced(t) && Height(t) == Height(o) - (if reduced then 1 else 0)
  }

  /** The subtree one level up after one step of the climb. */
  function ClimbOne(f: Frame, t: Tree, reduced: bool): Tree {
    if reduced then Lower(f, t) else Fill(f, t)
  }

  lemma ClimbStep(c: Path, o: Tree, t: Tree, reduced: bool)
    requires c != [] && Climbing(c, o, t, reduced)
    ensures var f := Last(c); var r := ClimbOne(f, t, reduced);
      && r.Node? && Climbing(Init(c), Fill(f, o), r, reduced && r.bf == 0)
      && Climb(c, t, reduced) == Climb(Init(c), r, reduced && r.bf == 0)
      && InOrder(r) == InOrder(Fill(f, t))
    ensures reduced ==> LowerReady(Last(c), t)
  {
    var f := Last(c);
    BalancedSub(Init(c), Fill(f, o));
    RepairOrder(f, t, f.bf - (if f.dir then 1 else -1));
    if reduced {
      LowerCorrect(f, o, t);
    }
  }

  /** If the node's new factor is out of range, it can be rotated. */
  predicate LowerReady(f: Frame, t: Tree) {
    var nb := f.bf - (if f.dir then 1 else -1);
    nb == 2 || nb == -2 ==> CanRebalance(Fill(f, t))
  }

  lemma {:induction false} ClimbHeight(c: Path, o: Tree, t: Tree, reduced: bool)
    requires Climbing(c, o, t, reduced)
    ensures Balanced(Climb(c, t, reduced))
    decreases |c|
  {
    if c != [] {
      var r := ClimbOne(Last(c), t, reduced);
      ClimbStep(c, o, t, reduced);
      ClimbHeight(Init(c), Fill(Last(c), o), r, reduced && r.bf == 0);
    }
  }

  lemma {:induction false} ClimbOrder(c: Path, t: Tree, reduced: bool)
    ensures InOrder(Climb(c, t, reduced)) == InOrder(Plug(c, t))
    decreases |c|
  {
    if c != [] {
      var f := Last(c);
      var r := if reduced then Lower(f, t) else Fill(f, t);
      if reduced {
        RepairOrder(f, t, f.bf - (if f.dir then 1 else -1));
      }
      ClimbOrder(Init(c), r, reduced && r.Node? && r.bf == 0);
      InOrderPlug(Init(c), r);
      InOrderPlug(Init(c), Fill(f, t));
    }
  }

  /** The climb, for every path: AVL again, in-order sequence untouched. */
  lemma ClimbCorrect(c: Path, o: Tree, t: Tree, reduced: bool)
    requires Balanced(Plug(c, o)) && Balanced(t)
    requires Height(t) == Height(o) - (if reduced then 1 else 0)
    ensures Balanced(Climb(c, t, reduced))
    ensures InOrder(Climb(c, t, reduced)) == Before(c) + InOrder(t) + After(c)
  {
    ClimbHeight(c, o, t, reduced);
    ClimbOrder(c, t, reduced);
    InOrderPlug(c, t);
  }

  /** Once the depth has stopped shrinking nothing higher up is changed any more. */
  lemma {:induction false} ClimbStops(c: Path, t: Tree)
    ensures Climb(c, t, false) == Plug(c, t)
    decreases |c|
  {
    if c != [] {
      ClimbStops(Init(c), Fill(Last(c), t));
    }
  }

  // ---------------------------------------------------------------------------------------------
  // Depth bound

  function Fib(n: nat): nat {
    if n == 0 then 0 else if n == 1 then 1 else Fib(n - 1) + Fib(n - 2)
  }

  lemma {:induction false} FibGrows(m: nat, n: nat)
    requires m <= n
    ensures Fib(m) <= Fib(n)
    decreases n
  {
    if m < n {
      FibGrows(m, n - 1);
    }
  }

  lemma FibPositive(n: nat)
    requires n > 0
    ensures Fib(n) > 0
  {
    FibGrows(1, n);
  }

  lemma FibStep(n: nat)
    ensures Fib(n + 2) == Fib(n + 1) + Fib(n)
  {
  }

  /** From the sizes of two subtrees of depths `a` and `b` to that of the whole. */
  lemma FewestStep(a: nat, b: nat, m: nat, n: nat)
    requires -1 <= b - a <= 1 && m >= Fib(a + 2) - 1 && n >= Fib(b + 2) - 1
    ensures m + 1 + n >= Fib(1 + Max(a, b) + 2) - 1
  {
    hide Fib;
    var d := 1 + Max(a, b);
    FibStep(d);
    FibGrows(d, a + 2);
    FibGrows(d, b + 2);
    FibGrows(d, d + 1);
  }

  lemma FewestLeaf()
    ensures |InOrder(Leaf)| >= Fib(Height(Leaf) + 2) - 1
  {
    assert Fib(2) == 1;
  }

  lemma SizeOfNode(t: Tree)
    requires t.Node? && Balanced(t)
    ensures Balanced(t.lt) && Balanced(t.gt) && -1 <= Height(t.gt) - Height(t.lt) <= 1
    ensures Height(t) == 1 + Max(Height(t.lt), Height(t.gt)) && |InOrder(t)| == |InOrder(t.lt)| + 1 + |InOrder(t.gt)|
  {
  }

  /** An AVL tree of depth d has at least Fib(d + 2) - 1 nodes. */
  lemma {:induction false} FewestNodes(t: Tree)
    requires Balanced(t)
    ensures |InOrder(t)| >= Fib(Height(t) + 2) - 1
  {
    hide Fib, InOrder, Height, Balanced;
    if t == Leaf {
      FewestLeaf();
    } else {
      SizeOfNode(t);
      FewestNodes(t.lt);
      FewestNodes(t.gt);
      FewestStep(Height(t.lt), Height(t.gt), |InOrder(t.lt)|, |InOrder(t.gt)|);
    }
  }

  /** The sparsest AVL tree of depth `d`, with the handles from `first` on in order. */
  function Sparsest(d: nat, first: nat): (t: Tree)
    ensures Balanced(t) && Height(t) == d
  {
    if d == 0 then Leaf
    else if d == 1 then Node(Leaf, first, 0, Leaf)
    else Node(Sparsest(d - 2, first), first + Fib(d) - 1, 1, Sparsest(d - 1, first + Fib(d)))
  }

  /** With fewer than Fib(maxDepth + 3) - 1 nodes a bit set of `maxDepth` bits can hold every path. */
  lemma DepthBound(t: Tree, maxDepth: nat)
    requires Balanced(t) && |InOrder(t)| < Fib(maxDepth + 3) - 1
    ensures Height(t) <= maxDepth
  {
    FewestNodes(t);
    if Height(t) > maxDepth {
      FibGrows(maxDepth + 3, Height(t) + 2);
    }
  }

  ghost predicate Consecutive(s: seq<Handle>, first: nat, n: int) {
    |s| == n && forall i :: 0 <= i < n ==> s[i] == first + i
  }

  lemma ConsecutiveConcat(a: seq<Handle>, b: seq<Handle>, first: nat, m: nat, n: nat)
    requires Consecutive(a, first, m) && Consecutive(b, first + m + 1, n)
    ensures Consecutive(a + [first + m] + b, first, m + 1 + n)
  {
  }

  lemma SparsestBase(d: nat, first: nat)
    requires d <= 1
    ensures Consecutive(InOrder(Sparsest(d, first)), first, Fib(d + 2) - 1)
  {
    assert Fib(2) == 1 && Fib(3) == 2;
  }

  lemma SparsestNode(d: nat, first: nat)
    requires d > 1
    ensures InOrder(Sparsest(d, first)) ==
            InOrder(Sparsest(d - 2, first)) + [first + Fib(d) - 1] + InOrder(Sparsest(d - 1, first + Fib(d)))
  {
  }

  /** What `FewestNodes` allows, `Sparsest` reaches. */
  lemma {:induction false} SparsestOrder(d: nat, first: nat)
    ensures Consecutive(InOrder(Sparsest(d, first)), first, Fib(d + 2) - 1)
    decreases d
  {
    hide Fib, InOrder, Sparsest, Consecutive;
    if d <= 1 {
      SparsestBase(d, first);
    } else {
      SparsestOrder(d - 2, first);
      SparsestOrder(d - 1, first + Fib(d));
      SparsestNode(d, first);
      FibStep(d);
      FibPositive(d);
      FibPositive(d + 1);
      ConsecutiveConcat(InOrder(Sparsest(d - 2, first)), InOrder(Sparsest(d - 1, first + Fib(d))), first, Fib(d) - 1,
                        Fib(d + 1) - 1);
    }
  }

  /** The key of a node is its handle. */
  function OwnKey(h: Handle): int {
    h
  }

  /** An AVL search tree of Fib(maxDepth + 3) - 1 nodes that is deeper than that. */
  ghost predicate Overdeep(t: Tree, maxDepth: nat) {
    && Balanced(t) && Sorted(OwnKey, InOrder(t)) && NIL !in InOrder(t)
    && |InOrder(t)| == Fib(maxDepth + 3) - 1 && Height(t) > maxDepth
  }

  lemma ConsecutiveSorted(s: seq<Handle>, first: nat, n: int)
    requires Consecutive(s, first, n)
    ensures Sorted(OwnKey, s) && NIL !in s && |s| == n
  {
  }

  /** The bound cannot be improved: with Fib(maxDepth + 3) - 1 nodes, all different and in the order of their keys, a
      tree may be too deep. */
  lemma DepthBoundTight(maxDepth: nat)
    ensures exists t :: Overdeep(t, maxDepth)
  {
    hide Fib, InOrder, Balanced, Height, Sorted, Consecutive, Sparsest;
    var t := Sparsest(maxDepth + 1, 0);
    SparsestOrder(maxDepth + 1, 0);
    ConsecutiveSorted(InOrder(t), 0, Fib(maxDepth + 3) - 1);
    assert Overdeep(t, maxDepth);
  }

  /** With at most 100 nodes nine levels suffice. */
  lemma HundredNodes(t: Tree)
    requires Balanced(t) && |InOrder(t)| <= 100
    ensures Height(t) <= 9
  {
    assert Fib(4) == 3;
    assert Fib(6) == 8;
    assert Fib(8) == 21;
    assert Fib(10) == 55;
    assert Fib(12) == 144;
    DepthBound(t, 9);
  }
}
