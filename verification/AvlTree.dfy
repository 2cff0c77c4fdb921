/** The intrusive AVL tree: a root handle over node fields that are changed in place. */
module AvlTreeModel {
  import opened Common
  import opened AvlTrees
  import opened AvlRepair
  import opened AvlStore
  import opened AvlSearch
  import opened AvlDescent
  import opened AvlRemoval
  import opened AvlSubst
  import opened AvlBuilding

  /** With one node more than `FewEnough` allows, a store can hold an AVL search tree that is too deep. */
  lemma TooDeep(maxDepth: nat)
    ensures exists s: Store, t: Tree :: NIL !in s && Shape(s, HandleOf(t), t) && Overdeep(t, maxDepth)
  {
    DepthBoundTight(maxDepth);
    var t :| Overdeep(t, maxDepth);
    hide Balanced, Sorted, Shape, InOrder, Height, Fib;
    SortedNoDup(OwnKey, InOrder(t));
    Storable(t);
  }

  class AvlTree {
    const key: Handle -> int
    const maxDepth: nat

    var nodes: Store
    var root: Handle

    /** The tree that `root` stands for. */
    ghost var tree: Tree

    ghost predicate Valid()
      reads this
    {
      && NIL !in nodes
      && Shape(nodes, root, tree)
      && Balanced(tree)
      && Sorted(key, InOrder(tree))
    }

    /** The in-order sequence of node handles. */
    ghost function Order(): seq<Handle>
      reads this
    {
      InOrder(tree)
    }

    /** The number of nodes up to which the operations below that require a bounded depth can be called. */
    lemma FewEnough()
      requires Valid() && |Order()| < Fib(maxDepth + 3) - 1
      ensures Height(tree) <= maxDepth
    {
      DepthBound(tree, maxDepth);
    }

    constructor (key: Handle -> int, maxDepth: nat, nodes: Store)
      requires NIL !in nodes
      ensures Valid() && tree == Leaf && root == NIL
      ensures this.key == key && this.maxDepth == maxDepth && this.nodes == nodes
    {
      this.key := key;
      this.maxDepth := maxDepth;
      this.nodes := nodes;
      root := NIL;
      tree := Leaf;
    }

    method Purge()
      requires NIL !in nodes
      modifies `root, `tree
      ensures Valid() && tree == Leaf && root == NIL
    {
      root := NIL;
      tree := Leaf;
    }

    /** Negative, zero or positive, of any magnitude, as a user's comparison may be. */
    function CompareKeyNode(k: int, h: Handle): int {
      k - key(h)
    }

    function CompareNodeNode(h1: Handle, h2: Handle): int {
      key(h1) - key(h2)
    }

    // -------------------------------------------------------------------------------------------
    // Searches

    method Search(k: int, st: SearchType) returns (match_h: Handle)
      requires Valid()
      ensures IsBest(key, Order(), st, k, match_h)
    {
      hide Plug, Before, After, Narrowed, Sorted, Balanced, Candidate, IsBest;
      NothingPassed(key, st, k, tree);
      ShapeStored(nodes, root, tree);
      var targetCmp := if st.HasLess() then 1 else if st.HasGreater() then -1 else 0;
      match_h := NIL;
      var h := root;
      ghost var c: Path := [];
      ghost var t := tree;
      while h != NIL
        invariant Plug(c, t) == tree && Shape(nodes, h, t)
        invariant Narrowed(key, Before(c), After(c), st, k)
        invariant match_h == Candidate(Before(c), After(c), st)
        decreases t
      {
        var cmp := CompareKeyNode(k, h);
        if cmp == 0 {
          if st.HasEqual() {
            match_h := h;
            EqualIsBest(key, c, t, st, k);
            return;
          }
          cmp := -targetCmp;
        } else if targetCmp != 0 {
          // The source tests the sign bit of cmp ^ target_cmp.
          if (cmp < 0) == (targetCmp < 0) {
            match_h := h;
          }
        }
        Narrow(key, c, t, st, k, cmp > 0);
        PlugStep(c, t, cmp > 0);
        c, t := c + [FrameOf(t, cmp > 0)], Branch(t, cmp > 0);
        h := if cmp < 0 then nodes[h].lt else nodes[h].gt;
      }
      CandidateOfAll(key, c, t, st, k);
    }

    method SearchLeast() returns (parent: Handle)
      requires Valid()
      ensures parent == if Order() == [] then NIL else Order()[0]
    {
      var h := root;
      parent := NIL;
      ghost var c: Path := [];
      ghost var t := tree;
      while h != NIL
        invariant Plug(c, t) == tree && Shape(nodes, h, t)
        invariant Before(c) == [] && parent == if After(c) == [] then NIL else After(c)[0]
        decreases t
      {
        parent := h;
        PlugStep(c, t, false);
        c, t := c + [FrameOf(t, false)], Branch(t, false);
        h := nodes[h].lt;
      }
      InOrderPlug(c, t);
    }

    method SearchGreatest() returns (parent: Handle)
      requires Valid()
      ensures parent == if Order() == [] then NIL else Last(Order())
    {
      var h := root;
      parent := NIL;
      ghost var c: Path := [];
      ghost var t := tree;
      while h != NIL
        invariant Plug(c, t) == tree && Shape(nodes, h, t)
        invariant After(c) == [] && parent == if Before(c) == [] then NIL else Last(Before(c))
        decreases t
      {
        parent := h;
        PlugStep(c, t, true);
        c, t := c + [FrameOf(t, true)], Branch(t, true);
        h := nodes[h].gt;
      }
      InOrderPlug(c, t);
    }

    // -------------------------------------------------------------------------------------------
    // Rotation

    /** Balance factors after a double rotation that raised the greater child's inner child `h`. */
    method SettleGreater(h: Handle, oldH: Handle, deepH: Handle)
      requires h in nodes && oldH in nodes && deepH in nodes && h != oldH && h != deepH && oldH != deepH
      modifies `nodes
      ensures nodes.Keys == old(nodes).Keys
      ensures forall x :: x in nodes && x != h && x != oldH && x != deepH ==> nodes[x] == old(nodes)[x]
      ensures nodes[h] == old(nodes)[h].(bf := 0)
      ensures nodes[oldH] == old(nodes)[oldH].(bf := if old(nodes)[h].bf > 0 then -1 else 0)
      ensures nodes[deepH] == old(nodes)[deepH].(bf := if old(nodes)[h].bf < 0 then 1 else 0)
    {
      var bf := nodes[h].bf;
      if bf != 0 {
        if bf > 0 {
          nodes := SetBf(nodes, oldH, -1);
          nodes := SetBf(nodes, deepH, 0);
        } else {
          nodes := SetBf(nodes, deepH, 1);
          nodes := SetBf(nodes, oldH, 0);
        }
        nodes := SetBf(nodes, h, 0);
      } else {
        nodes := SetBf(nodes, oldH, 0);
        nodes := SetBf(nodes, deepH, 0);
      }
    }

    /** Balance factors after a double rotation that raised the less child's inner child `h`. */
    method SettleLess(h: Handle, oldH: Handle, deepH: Handle)
      requires h in nodes && oldH in nodes && deepH in nodes && h != oldH && h != deepH && oldH != deepH
      modifies `nodes
      ensures nodes.Keys == old(nodes).Keys
      ensures forall x :: x in nodes && x != h && x != oldH && x != deepH ==> nodes[x] == old(nodes)[x]
      ensures nodes[h] == old(nodes)[h].(bf := 0)
      ensures nodes[oldH] == old(nodes)[oldH].(bf := if old(nodes)[h].bf < 0 then 1 else 0)
      ensures nodes[deepH] == old(nodes)[deepH].(bf := if old(nodes)[h].bf > 0 then -1 else 0)
    {
      var bf := nodes[h].bf;
      if bf != 0 {
        if bf < 0 {
          nodes := SetBf(nodes, oldH, 1);
          nodes := SetBf(nodes, deepH, 0);
        } else {
          nodes := SetBf(nodes, deepH, -1);
          nodes := SetBf(nodes, oldH, 0);
        }
        nodes := SetBf(nodes, h, 0);
      } else {
        nodes := SetBf(nodes, oldH, 0);
        nodes := SetBf(nodes, deepH, 0);
      }
    }

    // The four rotations of `Balance`: towards the less or the greater side, single or double.

    method RotateToLess(balH: Handle, deepH: Handle, ghost t: Tree) returns (h: Handle)
      requires Shape(nodes, balH, t) && NoDup(InOrder(t)) && CanRebalance(t)
      requires t.bf > 0 && t.gt.bf >= 0 && deepH == t.gt.h
      modifies `nodes
      ensures Shape(nodes, h, Rebalance(t))
      ensures nodes.Keys == old(nodes).Keys
      ensures forall x :: x in nodes && x !in InOrder(t) ==> nodes[x] == old(nodes)[x]
    {
      hide NoDup, Shape, InOrder;
      ghost var s, d := nodes, t.gt;
      NodeParts(t);
      NodeParts(d);
      OpenNode(s, balH, t);
      OpenNode(s, deepH, d);
      h := balH;
      nodes := SetGt(nodes, h, nodes[deepH].lt);
      nodes := SetLt(nodes, deepH, h);
      if nodes[deepH].bf == 0 {
        nodes := SetBf(nodes, deepH, -1);
        nodes := SetBf(nodes, h, 1);
      } else {
        nodes := SetBf(nodes, deepH, 0);
        nodes := SetBf(nodes, h, 0);
      }
      ShapeKept(s, nodes, s[h].lt, t.lt);
      ShapeKept(s, nodes, s[deepH].lt, d.lt);
      ShapeKept(s, nodes, s[deepH].gt, d.gt);
      CloseNode(nodes, h, Rebalance(t).lt);
      h := deepH;
      CloseNode(nodes, h, Rebalance(t));
    }

    method RotateToLessTwice(balH: Handle, deepH: Handle, ghost t: Tree) returns (h: Handle)
      requires Shape(nodes, balH, t) && NoDup(InOrder(t)) && CanRebalance(t)
      requires t.bf > 0 && t.gt.bf < 0 && deepH == t.gt.h
      modifies `nodes
      ensures Shape(nodes, h, Rebalance(t))
      ensures nodes.Keys == old(nodes).Keys
      ensures forall x :: x in nodes && x !in InOrder(t) ==> nodes[x] == old(nodes)[x]
    {
      hide NoDup, Shape, InOrder;
      ghost var s, d, n := nodes, t.gt, t.gt.lt;
      NodeParts(t);
      NodeParts(d);
      NodeParts(n);
      OpenNode(s, balH, t);
      OpenNode(s, deepH, d);
      OpenNode(s, s[deepH].lt, n);
      var oldH := balH;
      h := nodes[deepH].lt;
      nodes := SetGt(nodes, oldH, nodes[h].lt);
      nodes := SetLt(nodes, deepH, nodes[h].gt);
      nodes := SetLt(nodes, h, oldH);
      nodes := SetGt(nodes, h, deepH);
      SettleGreater(h, oldH, deepH);
      Assemble(s, nodes, Rebalance(t));
    }

    method RotateToGreater(balH: Handle, deepH: Handle, ghost t: Tree) returns (h: Handle)
      requires Shape(nodes, balH, t) && NoDup(InOrder(t)) && CanRebalance(t)
      requires t.bf <= 0 && t.lt.bf <= 0 && deepH == t.lt.h
      modifies `nodes
      ensures Shape(nodes, h, Rebalance(t))
      ensures nodes.Keys == old(nodes).Keys
      ensures forall x :: x in nodes && x !in InOrder(t) ==> nodes[x] == old(nodes)[x]
    {
      hide NoDup, Shape, InOrder;
      ghost var s, d := nodes, t.lt;
      NodeParts(t);
      NodeParts(d);
      OpenNode(s, balH, t);
      OpenNode(s, deepH, d);
      h := balH;
      nodes := SetLt(nodes, h, nodes[deepH].gt);
      nodes := SetGt(nodes, deepH, h);
      if nodes[deepH].bf == 0 {
        nodes := SetBf(nodes, deepH, 1);
        nodes := SetBf(nodes, h, -1);
      } else {
        nodes := SetBf(nodes, deepH, 0);
        nodes := SetBf(nodes, h, 0);
      }
      ShapeKept(s, nodes, s[h].gt, t.gt);
      ShapeKept(s, nodes, s[deepH].lt, d.lt);
      ShapeKept(s, nodes, s[deepH].gt, d.gt);
      CloseNode(nodes, h, Rebalance(t).gt);
      h := deepH;
      CloseNode(nodes, h, Rebalance(t));
    }

    method RotateToGreaterTwice(balH: Handle, deepH: Handle, ghost t: Tree) returns (h: Handle)
      requires Shape(nodes, balH, t) && NoDup(InOrder(t)) && CanRebalance(t)
      requires t.bf <= 0 && t.lt.bf > 0 && deepH == t.lt.h
      modifies `nodes
      ensures Shape(nodes, h, Rebalance(t))
      ensures nodes.Keys == old(nodes).Keys
      ensures forall x :: x in nodes && x !in InOrder(t) ==> nodes[x] == old(nodes)[x]
    {
      hide NoDup, Shape, InOrder;
      ghost var s, d, n := nodes, t.lt, t.lt.gt;
      NodeParts(t);
      NodeParts(d);
      NodeParts(n);
      OpenNode(s, balH, t);
      OpenNode(s, deepH, d);
      OpenNode(s, s[deepH].gt, n);
      var oldH := balH;
      h := nodes[deepH].gt;
      nodes := SetLt(nodes, oldH, nodes[h].gt);
      nodes := SetGt(nodes, deepH, nodes[h].lt);
      nodes := SetGt(nodes, h, oldH);
      nodes := SetLt(nodes, h, deepH);
      SettleLess(h, oldH, deepH);
      Assemble(s, nodes, Rebalance(t));
    }

    /** Rebalances the subtree stored at `balH`, one step out of AVL range; returns its new root. */
    method Balance(balH: Handle, ghost t: Tree) returns (h: Handle)
      requires Shape(nodes, balH, t) && NoDup(InOrder(t)) && CanRebalance(t)
      modifies `nodes
      ensures Shape(nodes, h, Rebalance(t))
      ensures nodes.Keys == old(nodes).Keys
      ensures forall x :: x in nodes && x !in InOrder(t) ==> nodes[x] == old(nodes)[x]
    {
      if nodes[balH].bf > 0 {
        var deepH := nodes[balH].gt;
        if nodes[deepH].bf < 0 {
          h := RotateToLessTwice(balH, deepH, t);
        } else {
          h := RotateToLess(balH, deepH, t);
        }
      } else {
        var deepH := nodes[balH].lt;
        if nodes[deepH].bf > 0 {
          h := RotateToGreaterTwice(balH, deepH, t);
        } else {
          h := RotateToGreater(balH, deepH, t);
        }
      }
    }

    // -------------------------------------------------------------------------------------------
    // Insertion

    static ghost predicate Recorded(branch: array<bool>, c: Path)
      reads branch
    {
      |c| <= branch.Length && forall i :: 0 <= i < |c| ==> branch[i] == c[i].dir
    }

    static lemma RecordedSnoc(branch: array<bool>, c: Path, f: Frame)
      requires Recorded(branch, c) && |c| < branch.Length && branch[|c|] == f.dir
      ensures Recorded(branch, c + [f])
    {
    }

    /** Records the branch taken at depth `depth`. */
    method Record(branch: array<bool>, depth: nat, dir: bool, ghost c: Path, ghost f: Frame)
      requires Recorded(branch, c) && depth == |c| < branch.Length && dir == f.dir
      modifies branch
      ensures Recorded(branch, c + [f])
    {
      branch[depth] := dir;
    }

    /** Searches for the insertion point of `h` in a tree that is not empty, or for a node with the same key. */
    method FindSpot(h: Handle, branch: array<bool>)
      returns (dup: Handle, parent: Handle, cmp: int,
               unbal: Handle, parentUnbal: Handle, unbalDepth: nat, ghost c: Path)
      requires Valid() && root != NIL
      requires branch.Length == maxDepth && Height(tree) <= maxDepth
      modifies branch
      ensures dup != NIL ==> dup in Order() && key(dup) == key(h)
      ensures dup == NIL ==>
        && Reached(key, nodes, root, tree, c, NIL, Leaf, key(h)) && Recorded(branch, c)
        && c != [] && parent == Last(c).h && cmp != 0 && (cmp > 0) == Last(c).dir
        && Remembered(c, unbal, parentUnbal, unbalDepth)
    {
      assert Recorded(branch, []);
      hide Balanced, Sorted, Height, Apart, Recorded;
      unbal, parentUnbal, unbalDepth := NIL, NIL, 0;
      var depth := 0;
      var hh := root;
      parent, cmp, dup, c := NIL, 0, NIL, [];
      ghost var t := tree;
      while true
        invariant Reached(key, nodes, root, tree, c, hh, t, key(h)) && t.Node?
        invariant depth == |c| && Recorded(branch, c)
        invariant parent == if c == [] then NIL else Last(c).h
        invariant Remembered(c, unbal, parentUnbal, unbalDepth)
        decreases t
      {
        ghost var f := FrameOf(t, key(h) > key(hh));
        RememberStep(c, f, unbal, parentUnbal, unbalDepth);
        if nodes[hh].bf != 0 {
          unbal := hh;
          parentUnbal := parent;
          unbalDepth := depth;
        }
        cmp := CompareNodeNode(h, hh);
        if cmp == 0 {
          dup := hh;
          RootInTree(c, t);
          return;
        }
        Descend(key, nodes, root, tree, c, hh, t, key(h), cmp > 0);
        parent := hh;
        hh := if cmp < 0 then nodes[hh].lt else nodes[hh].gt;
        Record(branch, depth, cmp > 0, c, f);
        depth := depth + 1;
        c, t := c + [f], Branch(t, cmp > 0);
        assert Last(c) == f;
        if hh == NIL {
          break;
        }
      }
    }

    /** Makes the link that path `c` ends with (the root handle, for the empty path) lead to `x`. */
    method Attach(parent: Handle, dir: bool, x: Handle, ghost c: Path, ghost q: Handle)
      requires PathShape(nodes, root, c, q) && Apart(c, Leaf)
      requires parent == if c == [] then NIL else Last(c).h
      requires c != [] ==> dir == Last(c).dir
      modifies `nodes, `root
      ensures PathShape(nodes, root, c, x)
      ensures nodes.Keys == old(nodes).Keys
      ensures forall y :: y in nodes && y != parent ==> nodes[y] == old(nodes)[y]
    {
      if c != [] {
        assert FrameShape(nodes, c[|c| - 1], q);
        PathSetEnd(nodes, root, c, q, x);
      }
      if parent == NIL {
        root := x;
      } else if dir {
        nodes := SetGt(nodes, parent, x);
      } else {
        nodes := SetLt(nodes, parent, x);
      }
    }

    /** From depth `depth0` of path `c` down to the new leaf `h`, every node now leans the way the path goes. */
    method TiltDown(h: Handle, hh0: Handle, depth0: nat, branch: array<bool>, ghost c: Path)
      requires PathShape(nodes, root, c, h) && Apart(c, Leaf) && !OnPath(c, h)
      requires Recorded(branch, c) && depth0 <= |c| && hh0 == At(c, depth0, h)
      modifies `nodes
      ensures PathShape(nodes, root, TiltFrom(c, depth0), h)
      ensures nodes.Keys == old(nodes).Keys
      ensures forall x :: x in nodes && !OnPath(c, x) ==> nodes[x] == old(nodes)[x]
    {
      hide PathShape, Apart;
      var hh, depth := hh0, depth0;
      assert TiltRange(c, depth0, depth0) == c;
      while h != hh
        invariant depth0 <= depth <= |c| && hh == At(c, depth, h)
        invariant PathShape(nodes, root, TiltRange(c, depth0, depth), h) && nodes.Keys == old(nodes).Keys
        invariant forall x :: x in nodes && !OnPath(c, x) ==> nodes[x] == old(nodes)[x]
        decreases |c| - depth
      {
        TiltStep(nodes, root, c, h, depth0, depth);
        if branch[depth] {
          nodes := SetBf(nodes, hh, 1);
          hh := nodes[hh].gt;
        } else {
          nodes := SetBf(nodes, hh, -1);
          hh := nodes[hh].lt;
        }
        depth := depth + 1;
      }
      assert depth == |c|;
    }

    method MakeLeaf(h: Handle)
      requires h in nodes
      modifies `nodes
      ensures nodes == old(nodes)[h := Cell(NIL, NIL, 0)]
    {
      nodes := SetLt(nodes, h, NIL);
      nodes := SetGt(nodes, h, NIL);
      nodes := SetBf(nodes, h, 0);
    }

    /** Inserts node `h`, or returns the node that already has its key.  `c` is the path to the new leaf. */
    method Insert(h: Handle) returns (r: Handle, ghost c: Path)
      requires Valid() && Height(tree) <= maxDepth
      requires h in nodes && h !in Order()
      modifies this
      ensures Valid()
      ensures r == h <==> forall x :: x in old(Order()) ==> key(x) != key(h)
      ensures r != h ==> r in Order() && key(r) == key(h) && tree == old(tree) && root == old(root)
      ensures r == h ==> old(tree) == Plug(c, Leaf) && tree == Grow(c, h)
      ensures r == h ==> old(Order()) == Before(c) + After(c) && Order() == Before(c) + [h] + After(c)
      ensures OnlyWrote(old(nodes), nodes, if r == h then Order() else [h])
    {
      hide NoDup, Sorted, Narrowed, Balanced, Plug, Before, After, Grow, Shape;
      ghost var s0 := nodes;
      MakeLeaf(h);
      ghost var s1 := nodes;
      ShapeUpdate(s0, h, s1[h], root, tree);
      if root == NIL {
        root := h;
        c := [];
        FirstNode(key, s1, tree, h);
        SameWrite(s0, h, s1[h], [h]);
        tree := Single(h);
        return h, c;
      }
      r, c := InsertBelow(h);
      if r != NIL {
        return r, c;
      }
      NarrowedDistinct(key, Before(c), After(c), key(h));
      r := h;
      assert h in Before(c) + [h];
      SameWrite(s0, h, s1[h], Order());
      SameTrans(s0, s1, nodes, Order());
    }

    /** `Insert` into a tree that is not empty; `h` has been made a leaf.  Returns a duplicate, or NIL. */
    method InsertBelow(h: Handle) returns (dup: Handle, ghost c: Path)
      requires Valid() && Height(tree) <= maxDepth && root != NIL
      requires h in nodes && h !in Order() && nodes[h] == Cell(NIL, NIL, 0)
      modifies this
      ensures Valid()
      ensures if dup != NIL then
                && dup in Order() && key(dup) == key(h)
                && tree == old(tree) && root == old(root) && nodes == old(nodes)
              else
                && old(tree) == Plug(c, Leaf) && tree == Grow(c, h)
                && Narrowed(key, Before(c), After(c), EQUAL, key(h))
                && old(Order()) == Before(c) + After(c) && Order() == Before(c) + [h] + After(c)
                && OnlyWrote(old(nodes), nodes, Order())
    {
      hide Apart, PathShape, Recorded, Remembered, Shape, NoDup, Sorted, Narrowed, Balanced, OnPath, Plug, Before;
      hide After, Grow;
      var branch := new bool[maxDepth];
      var parent, cmp, unbal, parentUnbal, unbalDepth;
      dup, parent, cmp, unbal, parentUnbal, unbalDepth, c := FindSpot(h, branch);
      if dup != NIL {
        return;
      }
      ghost var s := nodes;
      Hung(key, c, h);
      SortedNoDup(key, Order());
      HungApart(c, h);
      GrowCorrect(c, h);
      Attach(parent, cmp > 0, h, c, NIL);
      LinkedSame(s, nodes, c, h, parent);
      ghost var s1 := nodes;
      LeafStored(nodes, h);
      RepairPath(h, branch, unbal, parentUnbal, unbalDepth, c);
      SameTrans(s, s1, nodes, InOrder(Plug(c, Single(h))));
      tree := Grow(c, h);
      assert Order() == InOrder(Plug(c, Single(h)));
      assert NIL !in nodes && Sorted(key, Order());
    }

    /** The second half of `Insert`: leaf `h` hangs at the end of path `c`, the balance factors are still the old
        ones. */
    method RepairPath(h: Handle, branch: array<bool>, unbal0: Handle, parentUnbal: Handle, unbalDepth: nat,
                      ghost c: Path)
      requires PathShape(nodes, root, c, h) && Shape(nodes, h, Single(h))
      requires NoDup(InOrder(Plug(c, Single(h)))) && Apart(c, Leaf) && !OnPath(c, h)
      requires Balanced(Plug(c, Leaf)) && c != [] && NIL !in nodes
      requires Recorded(branch, c) && Remembered(c, unbal0, parentUnbal, unbalDepth)
      modifies `nodes, `root
      ensures Shape(nodes, root, Grow(c, h))
      ensures OnlyWrote(old(nodes), nodes, InOrder(Plug(c, Single(h))))
    {
      hide PathShape, Shape, Apart, Plug, NoDup, Balanced, Grow;
      ghost var o, s := InOrder(Plug(c, Single(h))), nodes;
      PathNodes(s, root, c, h);
      var unbal;
      ghost var c1;
      unbal, c1 := RepairFactors(h, branch, unbal0, unbalDepth, c);
      ghost var s1 := nodes;
      PathSame(s, s1, c, Single(h));
      if unbal == NIL {
        GrownInRange(c, c1, h);
        PathPlug(nodes, root, TiltFrom(c1, LastUnbalanced(c) + 1), h, Single(h));
      } else {
        RotateLast(h, branch, unbal, parentUnbal, unbalDepth, c);
        SameTrans(s, s1, nodes, o);
      }
    }

    /** Rotates at the last unbalanced node of `c`, everything below it having been tilted. */
    method RotateLast(h: Handle, branch: array<bool>, unbal: Handle, parentUnbal: Handle, unbalDepth: nat,
                      ghost c: Path)
      requires LastUnbalanced(c) >= 0 && Settled(c, unbal, c) && unbal != NIL
      requires PathShape(nodes, root, TiltFrom(c, LastUnbalanced(c) + 1), h) && Shape(nodes, h, Single(h))
      requires NoDup(InOrder(Plug(c, Single(h)))) && Balanced(Plug(c, Leaf)) && NIL !in nodes
      requires Recorded(branch, c) && Remembered(c, unbal, parentUnbal, unbalDepth)
      modifies `nodes, `root
      ensures Shape(nodes, root, Grow(c, h))
      ensures OnlyWrote(old(nodes), nodes, InOrder(Plug(c, Single(h))))
    {
      hide PathShape, Shape, Apart, Plug, NoDup, Balanced;
      ghost var s := nodes;
      OverfullOneStepOut(c, h);
      OverfullApart(c, h);
      OverfullStored(nodes, root, c, h);
      GrownOutOfRange(c, h);
      RotateAt(branch, unbal, parentUnbal, unbalDepth, c[..unbalDepth], Overfull(c, h));
      RotatedSame(s, nodes, c, h, parentUnbal);
    }

    /** All balance factors on the path are brought up to date, except that of a node which must be rotated. */
    method RepairFactors(h: Handle, branch: array<bool>, unbal0: Handle, unbalDepth: nat, ghost c: Path)
      returns (unbal: Handle, ghost c1: Path)
      requires PathShape(nodes, root, c, h) && Shape(nodes, h, Single(h))
      requires Apart(c, Leaf) && !OnPath(c, h)
      requires Recorded(branch, c) && exists p :: Remembered(c, unbal0, p, unbalDepth)
      modifies `nodes
      ensures PathShape(nodes, root, TiltFrom(c1, LastUnbalanced(c) + 1), h) && Shape(nodes, h, Single(h))
      ensures nodes.Keys == old(nodes).Keys
      ensures forall x :: x in nodes && !OnPath(c, x) ==> nodes[x] == old(nodes)[x]
      ensures Settled(c, unbal, c1)
    {
      hide PathShape, Shape, Apart, Plug, NoDup;
      ghost var s := nodes;
      var hh, depth;
      unbal, hh, depth, c1 := SettleUnbalanced(h, branch, unbal0, unbalDepth, c);
      SettledPath(c, unbal, c1);
      TiltDown(h, hh, depth, branch, c1);
      ShapeKept(s, nodes, h, Single(h));
    }

    /** Updates the factor of the last unbalanced node, unless that node must be rotated; returns where to go on
        from. */
    method SettleUnbalanced(h: Handle, branch: array<bool>, unbal0: Handle, unbalDepth: nat, ghost c: Path)
      returns (unbal: Handle, hh: Handle, depth: nat, ghost c1: Path)
      requires PathShape(nodes, root, c, h) && Apart(c, Leaf) && Recorded(branch, c)
      requires exists p :: Remembered(c, unbal0, p, unbalDepth)
      modifies `nodes
      ensures depth == LastUnbalanced(c) + 1 && hh == At(c, depth, h)
      ensures Settled(c, unbal, c1) && PathShape(nodes, root, c1, h) && nodes.Keys == old(nodes).Keys
      ensures forall x :: x in nodes && !OnPath(c, x) ==> nodes[x] == old(nodes)[x]
    {
      hide PathShape, Apart;
      ghost var u := LastUnbalanced(c);
      PathStart(nodes, root, c, h);
      PathNodes(nodes, root, c, h);
      unbal, depth, c1 := unbal0, unbalDepth, c;
      if unbal == NIL {
        hh := root;
      } else {
        PathNode(nodes, root, c, h, u);
        var cmp := if branch[depth] then 1 else -1;
        depth := depth + 1;
        var unbalBf := nodes[unbal].bf;
        if cmp < 0 {
          unbalBf := unbalBf - 1;
        } else {
          unbalBf := unbalBf + 1;
        }
        hh := if cmp < 0 then nodes[unbal].lt else nodes[unbal].gt;
        if unbalBf != -2 && unbalBf != 2 {
          PathSetBf(nodes, root, c, h, u, unbalBf);
          nodes := SetBf(nodes, unbal, unbalBf);
          c1 := c[u := c[u].(bf := unbalBf)];
          unbal := NIL;
        }
      }
    }

    /** Rotates subtree `x` at the end of path `c` and hooks its new root into its parent. */
    method RotateAt(branch: array<bool>, unbal: Handle, parentUnbal: Handle, unbalDepth: nat, ghost c: Path,
                    ghost x: Tree)
      requires PathShape(nodes, root, c, unbal) && Shape(nodes, unbal, x)
      requires NoDup(InOrder(x)) && CanRebalance(x) && Apart(c, x) && Apart(c, Leaf)
      requires Recorded(branch, c) && unbalDepth == |c|
      requires parentUnbal == if c == [] then NIL else Last(c).h
      modifies `nodes, `root
      ensures Shape(nodes, root, Plug(c, Rebalance(x))) && nodes.Keys == old(nodes).Keys
      ensures forall y :: y in nodes && y !in InOrder(x) && y != parentUnbal ==> nodes[y] == old(nodes)[y]
    {
      ghost var s := nodes;
      var newUnbal := Balance(unbal, x);
      PathKept(s, nodes, root, c, unbal, x);
      s := nodes;
      assert c != [] ==> FrameShape(s, c[|c| - 1], unbal);
      var dir := parentUnbal != NIL && branch[unbalDepth - 1];
      Attach(parentUnbal, dir, newUnbal, c, unbal);
      RebalanceOrder(x);
      ShapeStored(s, newUnbal, Rebalance(x));
      assert c != [] ==> c[|c| - 1].h !in InOrder(x);
      ShapeKeptBut(s, nodes, newUnbal, Rebalance(x), parentUnbal);
      PathPlug(nodes, root, c, newUnbal, Rebalance(x));
    }

    // -------------------------------------------------------------------------------------------
    // Removal

    /** Searches for the node to remove; `cmpShort` is the branch last taken. */
    method FindNode(k: int, branch: array<bool>)
      returns (h: Handle, parent: Handle, depth: nat, cmpShort: int, ghost c: Path, ghost t: Tree)
      requires Valid() && branch.Length == maxDepth && Height(tree) <= maxDepth
      modifies branch
      ensures if h == NIL then forall x :: x in Order() ==> key(x) != k
              else
                && Plug(c, t) == tree && PathShape(nodes, root, c, h) && Shape(nodes, h, t)
                && key(h) == k && Recorded(branch, c) && depth == |c|
                && PathEnd(c, parent, cmpShort)
    {
      hide Narrowed, Sorted, PathShape, Plug, Before, After;
      depth := 0;
      h := root;
      parent, cmpShort, c, t := NIL, 0, [], tree;
      EmptyPath(key, nodes, root, tree, k);
      while true
        invariant Reached(key, nodes, root, tree, c, h, t, k)
        invariant depth == |c| && Recorded(branch, c)
        invariant PathEnd(c, parent, cmpShort)
        decreases t
      {
        if h == NIL {
          NotThere(key, c, k);
          return;
        }
        var cmp := CompareKeyNode(k, h);
        if cmp == 0 {
          break;
        }
        Descend(key, nodes, root, tree, c, h, t, k, cmp > 0);
        parent := h;
        h := if cmp < 0 then nodes[h].lt else nodes[h].gt;
        Record(branch, depth, cmp > 0, c, FrameOf(t, cmp > 0));
        depth := depth + 1;
        cmpShort := cmp;
        c, t := c + [FrameOf(t, cmp > 0)], Branch(t, cmp > 0);
      }
    }

    /** Finds the node to put in the place of the node `rm` to remove, when that has children; `child` is what
        is left of it.  Path `c` leads to `rm`, then `z` on from its deeper branch to the replacement `h`. */
    method PickReplacement(rm: Handle, parent0: Handle, depth0: nat, cmpShort0: int, branch: array<bool>,
                           ghost c: Path, ghost t: Tree)
      returns (h: Handle, parent: Handle, child: Handle, cmpShort: int, ghost z: Path, ghost e: Tree)
      requires PathShape(nodes, root, c, rm) && Shape(nodes, rm, t) && t.Node? && Balanced(t)
      requires Recorded(branch, c) && depth0 == |c| && |c| + Height(t) <= branch.Length
      requires PathEnd(c, parent0, cmpShort0) && NoDup(InOrder(t))
      modifies branch
      ensures if Branch(t, Deeper(t)) == Leaf then
                h == rm && child == NIL && parent == parent0 && cmpShort == cmpShort0 && Recorded(branch, c) &&
                t == Single(rm)
              else
                var p := c + [FrameOf(t, Deeper(t))] + z;
                && h != rm && NextTo(t, z, e) && PathShape(nodes, root, p, h) && Shape(nodes, h, e)
                && Recorded(branch, p) && PathEnd(p, parent, cmpShort)
                && Shape(nodes, child, OnlyChild(e))
    {
      hide PathShape, Plug, NoDup;
      h, parent, cmpShort := rm, parent0, cmpShort0;
      var depth := depth0;
      var cmp;
      if nodes[h].bf < 0 {
        child := nodes[h].lt;
        branch[depth] := false;
        cmp := -1;
      } else {
        child := nodes[h].gt;
        branch[depth] := true;
        cmp := 1;
      }
      depth := depth + 1;
      z, e := [], Branch(t, Deeper(t));
      if child != NIL {
        cmp := -cmp;
        PathStep(nodes, root, c, rm, t, Deeper(t));
        RecordedSnoc(branch, c, FrameOf(t, Deeper(t)));
        h, parent, z, e := GoToEnd(rm, child, cmp, depth, branch, c + [FrameOf(t, Deeper(t))], t);
        BelowRoot(t, Deeper(t), z, e);
        cmpShort := if parent == rm then -cmp else cmp;
        child := if cmp > 0 then nodes[h].lt else nodes[h].gt;
        EndOfPath(c, t, z, e, parent, cmp);
      }
    }

    /** From node `child0` on always in the direction of `cmp`, as far as it goes; `p0` is the path to that node. */
    method GoToEnd(rm: Handle, child0: Handle, cmp: int, depth0: nat, branch: array<bool>, ghost p0: Path,
                   ghost t: Tree)
      returns (h: Handle, parent: Handle, ghost z: Path, ghost e: Tree)
      requires t.Node? && Branch(t, Deeper(t)).Node? && Balanced(Branch(t, Deeper(t)))
      requires cmp != 0 && (cmp > 0) == !Deeper(t)
      requires p0 != [] && Last(p0).h == rm && depth0 == |p0| && Recorded(branch, p0)
      requires |p0| + Height(Branch(t, Deeper(t))) <= branch.Length
      requires PathShape(nodes, root, p0, child0) && Shape(nodes, child0, Branch(t, Deeper(t)))
      modifies branch
      ensures NextTo(t, z, e) && PathShape(nodes, root, p0 + z, h) && Shape(nodes, h, e) && Recorded(branch, p0 + z)
      ensures parent == Last(p0 + z).h
    {
      hide PathShape, Plug, Balanced, Height;
      h := rm;
      var child, depth := child0, depth0;
      z, e := [], Branch(t, Deeper(t));
      ghost var dir := !Deeper(t);
      PlugEmpty(e);
      assert p0 + z == p0;
      while true
        invariant h == Last(p0 + z).h && depth == |p0 + z| && Recorded(branch, p0 + z)
        invariant Plug(z, e) == Branch(t, !dir) && forall i :: 0 <= i < |z| ==> z[i].dir == dir
        invariant PathShape(nodes, root, p0 + z, child) && Shape(nodes, child, e) && e.Node?
        decreases e
      {
        parent := h;
        h := child;
        BalancedSub(z, e);
        HeightNode(e);
        if cmp < 0 {
          child := nodes[h].lt;
          branch[depth] := false;
        } else {
          child := nodes[h].gt;
          branch[depth] := true;
        }
        depth := depth + 1;
        if child == NIL {
          break;
        }
        ghost var f := FrameOf(e, dir);
        PathStep(nodes, root, p0 + z, h, e, dir);
        PlugStep(z, e, dir);
        RecordedSnoc(branch, p0 + z, f);
        assert p0 + (z + [f]) == p0 + z + [f];
        z, e := z + [f], Branch(e, dir);
      }
    }

    /** Puts node `h`, from outside the tree, into the place of node `i` of path `c`. */
    method Poke(rm: Handle, parentRm: Handle, h: Handle, rmDepth: nat, branch: array<bool>, ghost c: Path,
                ghost q: Handle)
      requires PathShape(nodes, root, c, q) && Apart(c, Leaf) && Recorded(branch, c)
      requires rmDepth < |c| && rm == c[rmDepth].h && parentRm == Up(c, rmDepth) && NIL !in nodes
      requires h in nodes && forall j :: 0 <= j < |c| ==> h != c[j].h && h !in InOrder(c[j].sib)
      modifies `nodes, `root
      ensures PathShape(nodes, root, c[rmDepth := c[rmDepth].(h := h)], q)
      ensures nodes.Keys == old(nodes).Keys
      ensures forall x :: x in nodes && x != h && x != parentRm ==> nodes[x] == old(nodes)[x]
    {
      hide FrameShape, Apart;
      PathReplace(nodes, root, c, q, rmDepth, h);
      ghost var s := nodes;
      nodes := SetLt(nodes, h, nodes[rm].lt);
      nodes := SetGt(nodes, h, nodes[rm].gt);
      nodes := SetBf(nodes, h, nodes[rm].bf);
      assert nodes == s[h := s[rm]];
      if parentRm == NIL {
        PathNodes(s, root, c, q);
        root := h;
      } else {
        var depth := rmDepth - 1;
        if branch[depth] {
          nodes := SetGt(nodes, parentRm, h);
        } else {
          nodes := SetLt(nodes, parentRm, h);
        }
      }
    }

    /** Turns the links from the root to the last node of path `c` around; returns that node and the one before. */
    method ReverseLinks(path: Handle, branch: array<bool>, ghost c: Path, ghost q: Handle)
      returns (h: Handle, parent: Handle, depth: nat)
      requires PathShape(nodes, root, c, q) && Apart(c, Leaf) && Recorded(branch, c)
      requires c != [] && path == Last(c).h
      modifies `nodes
      ensures depth == |c| - 1 && h == path && parent == Up(c, depth)
      ensures HalfReversed(nodes, c, depth, q)
      ensures nodes.Keys == old(nodes).Keys
      ensures forall x :: x in nodes && !OnPath(c, x) ==> nodes[x] == old(nodes)[x]
    {
      hide FrameShape;
      h, parent, depth := root, NIL, 0;
      while h != path
        invariant depth < |c| && h == c[depth].h && parent == Up(c, depth)
        invariant HalfReversed(nodes, c, depth, q)
        invariant nodes.Keys == old(nodes).Keys
        invariant forall x :: x in nodes && !OnPath(c, x) ==> nodes[x] == old(nodes)[x]
        decreases |c| - depth
      {
        ReverseStep(nodes, c, depth, q);
        assert OnPath(c, h);
        var child;
        if branch[depth] {
          child := nodes[h].gt;
          nodes := SetGt(nodes, h, parent);
        } else {
          child := nodes[h].lt;
          nodes := SetLt(nodes, h, parent);
        }
        depth := depth + 1;
        parent := h;
        h := child;
      }
    }

    /** Node `h`, whose subtree on the side of `cmp` became shorter, gets its new balance factor, or is rotated;
        returns the root of its subtree and the factor there. */
    method LowerAt(h0: Handle, cmp: int, ghost f: Frame, ghost t: Tree) returns (h: Handle, bf: int)
      requires Shape(nodes, h0, Fill(f, t)) && NoDup(InOrder(Fill(f, t)))
      requires cmp != 0 && (cmp > 0) == f.dir && LowerReady(f, t)
      modifies `nodes
      ensures Shape(nodes, h, Lower(f, t)) && Lower(f, t).Node? && bf == Lower(f, t).bf
      ensures OnlyWrote(old(nodes), nodes, InOrder(Fill(f, t)))
    {
      h := h0;
      bf := nodes[h].bf;
      if cmp < 0 {
        bf := bf + 1;
      } else {
        bf := bf - 1;
      }
      if bf == -2 || bf == 2 {
        h := Balance(h, Fill(f, t));
        bf := nodes[h].bf;
      } else {
        NodeParts(Fill(f, t));
        ghost var s := nodes;
        nodes := SetBf(nodes, h, bf);
        ShapeUpdate(s, h, nodes[h], s[h].lt, Fill(f, t).lt);
        ShapeUpdate(s, h, nodes[h], s[h].gt, Fill(f, t).gt);
      }
    }

    /** Climbs back to the root, restoring the links and rebalancing as long as the depth keeps shrinking. */
    method ClimbBack(h0: Handle, parent0: Handle, depth0: nat, cmp0: int, branch: array<bool>,
                     ghost c0: Path, ghost o0: Tree, ghost t0: Tree)
      requires c0 != [] && depth0 == |c0| - 1 && parent0 == Up(c0, depth0)
      requires cmp0 != 0 && (cmp0 > 0) == Last(c0).dir && Recorded(branch, c0)
      requires Shape(nodes, h0, Fill(Last(c0), t0)) && Reversed(nodes, Init(c0))
      requires NoDup(InOrder(Plug(c0, t0))) && Climbing(c0, o0, t0, true)
      requires forall i :: 0 <= i < |c0| ==> c0[i].h != NIL
      modifies `nodes, `root
      ensures Shape(nodes, root, Climb(c0, t0, true))
      ensures OnlyWrote(old(nodes), nodes, InOrder(Plug(c0, t0)))
    {
      hide Apart, NoDup, Reversed, Plug, Balanced, Shape, OnlyWrote, Climbing, LowerReady;
      var h, parent, depth, cmp := h0, parent0, depth0, cmp0;
      var reducedDepth := true;
      ghost var c, o, t := c0, o0, t0;
      ghost var all := InOrder(Plug(c0, t0));
      SameRefl(nodes, all);
      while true
        invariant 0 <= depth < |c0| && c == c0[..depth + 1] && parent == Up(c0, depth)
        invariant cmp != 0 && (cmp > 0) == Last(c).dir
        invariant Shape(nodes, h, Fill(Last(c), t)) && Reversed(nodes, Init(c))
        invariant NoDup(InOrder(Plug(c, t))) && InOrder(Plug(c, t)) == all
        invariant Climbing(c, o, t, reducedDepth) && Climb(c, t, reducedDepth) == Climb(c0, t0, true)
        invariant OnlyWrote(old(nodes), nodes, all)
        decreases depth
      {
        ShorterPath(c0, depth + 1);
        ghost var f, c' := Last(c), Init(c);
        ghost var r := ClimbOne(f, t, reducedDepth);
        ClimbStep(c, o, t, reducedDepth);
        ClimbApart(c, t, r);
        WithinWhole(c, f, t);
        ghost var s := nodes;
        SameRefl(s, all);
        if reducedDepth {
          var bf;
          h, bf := LowerAt(h, cmp, f, t);
          reducedDepth := bf == 0;
          ReversedKept(s, nodes, c', r);
          SameWiden(s, nodes, InOrder(r), all);
        }
        SameTrans(old(nodes), s, nodes, all);
        if parent == NIL {
          break;
        }
        s := nodes;
        RestoreStep(s, c', h, r);
        WithinWhole(c', Last(c'), r);
        var child := h;
        h := parent;
        depth := depth - 1;
        cmp := if branch[depth] then 1 else -1;
        if cmp < 0 {
          parent := nodes[h].lt;
          nodes := SetLt(nodes, h, child);
        } else {
          parent := nodes[h].gt;
          nodes := SetGt(nodes, h, child);
        }
        SameWrite(s, h, nodes[h], all);
        SameTrans(old(nodes), s, nodes, all);
        c, o, t := c', Fill(f, o), r;
      }
      root := h;
    }

    /** Removes the node with key `k` and returns it, or returns NIL if there is none.  `pos` is its place in the
        order. */
    method Remove(k: int) returns (rm: Handle, ghost pos: nat)
      requires Valid() && Height(tree) <= maxDepth
      modifies this
      ensures Valid()
      ensures rm == NIL <==> forall x :: x in old(Order()) ==> key(x) != k
      ensures rm == NIL ==> nodes == old(nodes) && root == old(root) && tree == old(tree)
      ensures rm != NIL ==> key(rm) == k && Without(old(Order()), Order(), rm, pos)
      ensures OnlyWrote(old(nodes), nodes, old(Order()))
    {
      hide NoDup, Narrowed, Balanced, Plug, Before, After, Shape, PathShape, NextTo, Climbing, Apart, Without;
      pos := 0;
      ghost var whole, s := tree, nodes;
      SameRefl(s, InOrder(whole));
      var branch := new bool[maxDepth];
      var parentRm, rmDepth, cmpShort, path, child;
      ghost var c, t, o, x;
      rm, parentRm, rmDepth, cmpShort, c, t := FindNode(k, branch);
      if rm == NIL {
        return;
      }
      FoundNode(key, s, rm, whole, c, t);
      path, child, cmpShort, c, o, x, pos := SpliceOut(rm, parentRm, rmDepth, cmpShort, branch, c, t);
      ghost var s1 := nodes;
      Rebuild(path, cmpShort, branch, c, o, x, child);
      tree := Climb(c, x, true);
      CutOutDone(key, whole, rm, pos, c, o, x);
      SameWiden(s1, nodes, InOrder(Plug(c, x)), InOrder(whole));
      SameTrans(s, s1, nodes, InOrder(whole));
    }

    /** Takes node `rm`, found at the end of path `c`, out of the tree, and puts its replacement in its place. */
    method SpliceOut(rm: Handle, parentRm: Handle, rmDepth: nat, cmpShort0: int, branch: array<bool>,
                     ghost c: Path, ghost t: Tree)
      returns (path: Handle, child: Handle, cmpShort: int, ghost c': Path, ghost o: Tree, ghost x: Tree, ghost pos: nat)
      requires PathShape(nodes, root, c, rm) && Shape(nodes, rm, t) && t.Node? && NIL !in nodes
      requires Balanced(Plug(c, t)) && NoDup(InOrder(Plug(c, t))) && Height(Plug(c, t)) <= branch.Length
      requires Recorded(branch, c) && rmDepth == |c| && PathEnd(c, parentRm, cmpShort0)
      modifies branch, `nodes, `root
      ensures CutOut(Plug(c, t), rm, pos, c', o, x)
      ensures PathShape(nodes, root, c', child) && Shape(nodes, child, x)
      ensures Recorded(branch, c') && PathEnd(c', path, cmpShort)
      ensures OnlyWrote(old(nodes), nodes, InOrder(Plug(c, t)))
    {
      hide NoDup, Narrowed, Balanced, Plug, Before, After, Shape, PathShape, CutOut, Climbing, Apart, Replaced;
      SubtreeFits(c, t);
      RootOf(nodes, rm, t);
      ghost var s, all := nodes, InOrder(Plug(c, t));
      var h, parent;
      ghost var z;
      h, parent, child, cmpShort, z, o := PickReplacement(rm, parentRm, rmDepth, cmpShort0, branch, c, t);
      ghost var p := c;
      if h == rm {
        CutOutLeaf(c, rm);
        c', o, x, pos := c, t, Leaf, |Before(c)|;
      } else {
        p := c + [FrameOf(t, Deeper(t))] + z;
        CutOutInner(c, t, z, o);
        ReplacementPath(c, t, z, o);
        RootOf(nodes, h, o);
        ReplacedIs(c, t, z, h);
        BelowRoot(t, Deeper(t), z, o);
        StartOfClimb(c, t, z, h, parent, cmpShort);
        c', x, pos := Replaced(c, t, z, h), OnlyChild(o), |Before(c) + InOrder(t.lt)|;
      }
      Bystanders(nodes, root, p, h, o);
      Attach(parent, cmpShort > 0, child, p, h);
      OneWritten(s, nodes, child, x, parent, all);
      path := if parent == rm then h else parent;
      if h != rm {
        ReplacementOutside(p, o);
        ghost var s1 := nodes;
        Poke(rm, parentRm, h, rmDepth, branch, p, child);
        TwoWritten(s1, nodes, child, x, h, parentRm, all);
        SameTrans(s, s1, nodes, all);
      }
    }

    /** Climbs from node `path`, the last one of path `c`, back to the root, unless the path is empty. */
    method Rebuild(path: Handle, cmpShort: int, branch: array<bool>, ghost c: Path, ghost o: Tree, ghost x: Tree,
                   ghost child: Handle)
      requires PathShape(nodes, root, c, child) && Shape(nodes, child, x)
      requires Recorded(branch, c) && PathEnd(c, path, cmpShort)
      requires Climbing(c, o, x, true) && NoDup(InOrder(Plug(c, x))) && Apart(c, x) && Apart(c, Leaf)
      modifies `nodes, `root
      ensures Shape(nodes, root, Climb(c, x, true))
      ensures OnlyWrote(old(nodes), nodes, InOrder(Plug(c, x)))
    {
      hide NoDup, Plug, Shape, Apart, HalfReversed, Reversed, Climbing, FrameShape, OnPath;
      ghost var s, all := nodes, InOrder(Plug(c, x));
      SameRefl(s, all);
      PathNodes(s, root, c, child);
      if path != NIL {
        var h, parent, depth := ReverseLinks(path, branch, c, child);
        PathSame(s, nodes, c, x);
        OffPath(s, nodes, c, child, x);
        Turn(nodes, c, child, x);
        ghost var s1 := nodes;
        ClimbBack(h, parent, depth, cmpShort, branch, c, o, x);
        SameTrans(s, s1, nodes, all);
      }
    }

    // -------------------------------------------------------------------------------------------
    // Substitution

    /** Searches for the node with the key of `newNode`; `lastCmp` is the branch last taken. */
    method FindSame(newNode: Handle) returns (h: Handle, parent: Handle, lastCmp: int, ghost c: Path, ghost t: Tree)
      requires Valid()
      ensures if h == NIL then forall x :: x in Order() ==> key(x) != key(newNode)
              else
                && Plug(c, t) == tree && PathShape(nodes, root, c, h) && Shape(nodes, h, t)
                && key(h) == key(newNode) && PathEnd(c, parent, lastCmp)
    {
      hide Narrowed, Sorted, Balanced, PathShape, Plug, Before, After;
      h := root;
      parent, lastCmp, c, t := NIL, 0, [], tree;
      EmptyPath(key, nodes, root, tree, key(newNode));
      while true
        invariant Reached(key, nodes, root, tree, c, h, t, key(newNode))
        invariant PathEnd(c, parent, lastCmp)
        decreases t
      {
        if h == NIL {
          NotThere(key, c, key(newNode));
          return;
        }
        var cmp := CompareNodeNode(newNode, h);
        if cmp == 0 {
          break;
        }
        Descend(key, nodes, root, tree, c, h, t, key(newNode), cmp > 0);
        lastCmp := cmp;
        parent := h;
        h := if cmp < 0 then nodes[h].lt else nodes[h].gt;
        c, t := c + [FrameOf(t, cmp > 0)], Branch(t, cmp > 0);
      }
    }

    /** Puts `newNode` into the place of the node with the same key and returns that node, or NIL if there is none. */
    method Subst(newNode: Handle) returns (h: Handle, ghost pos: nat)
      requires Valid() && newNode in nodes
      modifies this
      ensures Valid()
      ensures h == NIL <==> forall x :: x in old(Order()) ==> key(x) != key(newNode)
      ensures h == NIL ==> nodes == old(nodes) && root == old(root) && tree == old(tree)
      ensures h != NIL ==>
        && pos < |old(Order())| && old(Order())[pos] == h && key(h) == key(newNode)
        && Order() == old(Order())[pos := newNode]
      ensures OnlyWrote(old(nodes), nodes, old(Order()) + [newNode])
    {
      hide Narrowed, Sorted, Balanced, PathShape, Shape, Plug, Before, After, NoDup, Rebalance, InOrder;
      pos := 0;
      var parent, lastCmp;
      ghost var c, t;
      h, parent, lastCmp, c, t := FindSame(newNode);
      if h == NIL {
        return;
      }
      FoundNode(key, nodes, h, tree, c, t);
      RootOf(nodes, h, t);
      ghost var s, t', all := nodes, t.(h := newNode), Order() + [newNode];
      RootInTree(c, t);
      if newNode in Order() {
        SameKeySameNode(key, Order(), newNode, h);
      }
      SubstOrder(key, c, t, newNode);
      pos := |Before(c) + InOrder(t.lt)|;
      SubstStored(s, root, c, h, t, newNode);
      nodes := SetLt(nodes, newNode, nodes[h].lt);
      nodes := SetGt(nodes, newNode, nodes[h].gt);
      nodes := SetBf(nodes, newNode, nodes[h].bf);
      assert nodes == s[newNode := s[h]];
      SameWrite(s, newNode, s[h], all);
      ghost var s1 := nodes;
      Attach(parent, lastCmp > 0, newNode, c, h);
      OneWritten(s1, nodes, newNode, t', parent, all);
      SameTrans(s, s1, nodes, all);
      PathPlug(nodes, root, c, newNode, t');
      tree := Plug(c, t');
    }

    // -------------------------------------------------------------------------------------------
    // Building from a sequence

    /** The bit sets as `lv`, the subtrees under way from the whole inwards, has it: the branch taken in each of them,
        and whether its greater subtree has one node more than its less one. */
    static ghost predicate Noted(lv: seq<Level>, branch: array<bool>, rem: array<bool>)
      reads branch, rem
    {
      && |lv| <= branch.Length && |lv| <= rem.Length && branch != rem
      && forall i :: 0 <= i < |lv| ==> branch[i] == lv[i].greater && rem[i] == ((lv[i].n - 1) % 2 != 0)
    }

    /** Goes down the less branches to a subtree of one or two nodes. */
    method DescendLess(p: seq<Handle>, depth0: nat, numSub0: nat, branch: array<bool>, rem: array<bool>,
                       ghost lv0: seq<Level>, ghost off: nat, ghost lessParent: Handle)
      returns (depth: nat, numSub: nat, ghost lv: seq<Level>)
      requires Nested(lv0, |p|, numSub0, off) && Stacked(nodes, p, lv0, lessParent) && Noted(lv0, branch, rem)
      requires depth0 == |lv0| && numSub0 > 0 && Levels(|p|) <= branch.Length + 1 && rem.Length == branch.Length
      modifies branch, rem
      ensures Nested(lv, |p|, numSub, off) && Stacked(nodes, p, lv, lessParent) && Noted(lv, branch, rem)
      ensures depth == |lv| && 1 <= numSub <= 2
    {
      hide Nested, Stacked, Levels;
      depth, numSub, lv := depth0, numSub0, lv0;
      while numSub > 2
        invariant Nested(lv, |p|, numSub, off) && Stacked(nodes, p, lv, lessParent) && Noted(lv, branch, rem)
        invariant depth == |lv| && numSub > 0
        decreases numSub
      {
        DescendStep(nodes, p, lv, lessParent, numSub, off);
        BuildFits(lv, |p|, numSub, off);
        lv := lv + [Level(numSub, off, false)];
        numSub := numSub - 1;
        rem[depth] := numSub % 2 != 0;
        branch[depth] := false;
        depth := depth + 1;
        numSub := numSub / 2;
      }
    }

    /** Builds the subtree of one or two nodes that comes next; with two it slants to the greater side. */
    method BuildSmall(p: seq<Handle>, ip0: nat, numSub: nat) returns (h: Handle, ip: nat)
      requires 1 <= numSub <= 2 && ip0 + numSub <= |p| && NoDup(p) && NIL !in nodes && forall x :: x in p ==> x in nodes
      modifies `nodes
      ensures ip == ip0 + numSub && Shape(nodes, h, BuildTree(p[ip0..ip]))
      ensures OnlyWrote(old(nodes), nodes, p[ip0..ip])
    {
      hide Shape, BuildTree;
      ip := ip0;
      if numSub == 2 {
        h := p[ip];
        ip := ip + 1;
        var child := p[ip];
        ip := ip + 1;
        nodes := SetLt(nodes, child, NIL);
        nodes := SetGt(nodes, child, NIL);
        nodes := SetBf(nodes, child, 0);
        nodes := SetGt(nodes, h, child);
        nodes := SetLt(nodes, h, NIL);
        nodes := SetBf(nodes, h, 1);
        BuildTwo(nodes, h, child, p, ip0);
        assert p[ip0..ip] == [h, child];
      } else {
        h := p[ip];
        ip := ip + 1;
        nodes := SetLt(nodes, h, NIL);
        nodes := SetGt(nodes, h, NIL);
        nodes := SetBf(nodes, h, 0);
        BuildOne(nodes, h, p, ip0);
        assert p[ip0..ip] == [h];
      }
    }

    /** Attaches finished greater subtrees to their parents, up to a finished less subtree or the whole tree. */
    method Unwind(p: seq<Handle>, h0: Handle, lessParent0: Handle, depth0: nat, numSub0: nat,
                  branch: array<bool>, rem: array<bool>, ghost lv0: seq<Level>, ghost off0: nat)
      returns (h: Handle, lessParent: Handle, depth: nat, numSub: nat, ghost lv: seq<Level>, ghost off: nat)
      requires NoDup(p) && NIL !in nodes && off0 + numSub0 <= |p|
      requires Nested(lv0, |p|, numSub0, off0) && Stacked(nodes, p, lv0, lessParent0)
      requires Shape(nodes, h0, BuildTree(p[off0..off0 + numSub0])) && depth0 == |lv0| && Noted(lv0, branch, rem)
      modifies `nodes
      ensures off + numSub == off0 + numSub0 <= |p|
      ensures Nested(lv, |p|, numSub, off) && Stacked(nodes, p, lv, lessParent)
      ensures Shape(nodes, h, BuildTree(p[off..off + numSub])) && Noted(lv, branch, rem)
      ensures lv != [] ==> depth == |lv| - 1 && !Last(lv).greater
      ensures OnlyWrote(old(nodes), nodes, p)
    {
      hide Nested, Stacked, Shape, BuildTree, NoDup;
      h, lessParent, depth, numSub, lv, off := h0, lessParent0, depth0, numSub0, lv0, off0;
      SameRefl(nodes, p);
      while depth > 0
        invariant off + numSub == off0 + numSub0 <= |p| && depth == |lv|
        invariant Nested(lv, |p|, numSub, off) && Stacked(nodes, p, lv, lessParent)
        invariant Shape(nodes, h, BuildTree(p[off..off + numSub])) && Noted(lv, branch, rem)
        invariant OnlyWrote(old(nodes), nodes, p)
        decreases depth
      {
        depth := depth - 1;
        if !branch[depth] {
          break;
        }
        ghost var s, l := nodes, Last(lv);
        UnwindStep(s, p, lv, lessParent, h, numSub, off);
        var child := h;
        h := lessParent;
        lessParent := nodes[h].gt;
        nodes := SetGt(nodes, h, child);
        numSub := numSub * 2;
        numSub := numSub + 1 - (if rem[depth] then 1 else 0);
        if And(numSub, numSub - 1) != 0 {
          nodes := SetBf(nodes, h, 0);
        } else {
          nodes := SetBf(nodes, h, 1);
        }
        SameTrans(old(nodes), s, nodes, p);
        lv, off := Init(lv), l.off;
      }
    }

    /** The finished subtree `child` is the less subtree of the next node, which is put on the stack. */
    method NextParent(p: seq<Handle>, child: Handle, lessParent0: Handle, ip0: nat, depth0: nat, numSub0: nat,
                      branch: array<bool>, rem: array<bool>, ghost lv0: seq<Level>, ghost off: nat)
      returns (lessParent: Handle, ip: nat, depth: nat, numSub: nat, ghost lv: seq<Level>)
      requires NoDup(p) && forall x :: x in p ==> x in nodes
      requires Nested(lv0, |p|, numSub0, off) && Stacked(nodes, p, lv0, lessParent0) && Noted(lv0, branch, rem)
      requires lv0 != [] && depth0 == |lv0| - 1 && !Last(lv0).greater
      requires ip0 == off + numSub0 < |p| && Shape(nodes, child, BuildTree(p[off..ip0]))
      modifies `nodes, branch
      ensures ip == ip0 + 1 && depth == |lv| && numSub > 0
      ensures Nested(lv, |p|, numSub, ip) && Stacked(nodes, p, lv, lessParent) && Noted(lv, branch, rem)
      ensures OnlyWrote(old(nodes), nodes, p)
    {
      hide Nested, Stacked, Shape, BuildTree, NoDup;
      lessParent, ip, depth, numSub, lv := lessParent0, ip0, depth0, numSub0, lv0;
      var h := p[ip];
      NextStep(nodes, p, lv, lessParent, child, numSub, off, h);
      ip := ip + 1;
      nodes := SetLt(nodes, h, child);
      nodes := SetGt(nodes, h, lessParent);
      lessParent := h;
      branch[depth] := true;
      lv := Init(lv) + [Level(Last(lv).n, Last(lv).off, true)];
      numSub := numSub + (if rem[depth] then 1 else 0);
      depth := depth + 1;
    }

    /** Makes the tree of the nodes `p`, which come in the order of their keys; whatever the tree was before is
        dropped. */
    method Build(p: seq<Handle>)
      requires NIL !in nodes && Levels(|p|) <= maxDepth + 1
      requires Sorted(key, p) && forall x :: x in p ==> x in nodes
      modifies this
      ensures Valid() && tree == BuildTree(p) && Order() == p
      ensures OnlyWrote(old(nodes), nodes, p)
    {
      hide Sorted, NoDup, Shape, BuildTree, Nested, Stacked, Levels, Balanced;
      SortedNoDup(key, p);
      BuildOrder(p);
      BuildBalanced(p);
      SameRefl(nodes, p);
      if |p| == 0 {
        EmptyBuild(nodes);
        assert p == [];
        root := NIL;
        tree := BuildTree(p);
        return;
      }
      var branch, rem := new bool[maxDepth], new bool[maxDepth];
      var depth: nat, numSub: nat, lessParent, ip: nat := 0, |p|, NIL, 0;
      var h: Handle;
      ghost var lv: seq<Level> := [];
      StartBuild(nodes, p);
      while true
        invariant Nested(lv, |p|, numSub, ip) && Stacked(nodes, p, lv, lessParent) && Noted(lv, branch, rem)
        invariant depth == |lv| && numSub > 0 && OnlyWrote(old(nodes), nodes, p)
        decreases |p| - ip
      {
        ghost var s := nodes;
        depth, numSub, lv := DescendLess(p, depth, numSub, branch, rem, lv, ip, lessParent);
        ghost var off := ip;
        BuildFits(lv, |p|, numSub, ip);
        h, ip := BuildSmall(p, ip, numSub);
        SliceSame(s, nodes, p, off, ip);
        StackKept(s, nodes, p, lv, lessParent, numSub, off);
        SameTrans(old(nodes), s, nodes, p);
        s := nodes;
        h, lessParent, depth, numSub, lv, off := Unwind(p, h, lessParent, depth, numSub, branch, rem, lv, off);
        SameTrans(old(nodes), s, nodes, p);
        BuildFits(lv, |p|, numSub, off);
        if numSub == |p| {
          assert p[off..off + numSub] == p;
          break;
        }
        s := nodes;
        lessParent, ip, depth, numSub, lv := NextParent(p, h, lessParent, ip, depth, numSub, branch, rem, lv, off);
        SameTrans(old(nodes), s, nodes, p);
      }
      root := h;
      tree := BuildTree(p);
    }
  }
}
