/** The iterator: a path of handles and a bit set of branches, moved in place. */
module AvlIter {
  import opened Common
  import opened AvlTrees
  import opened AvlRepair
  import opened AvlStore
  import opened AvlSearch
  import opened AvlDescent
  import opened AvlWalk
  import opened AvlTreeModel

  /** `unsigned` wraps at 2 to the 32nd; the greatest value marks an iterator that is past either end. */
  const UNSIGNED_RANGE := 0x1_0000_0000
  const INVALID := UNSIGNED_RANGE - 1

  function Increment(d: nat): nat {
    (d + 1) % UNSIGNED_RANGE
  }

  class Iter {
    var tree: AvlTree?
    const branch: array<bool>
    const pathH: array<Handle>
    var depth: nat

    /** The position: path `c` in the tree `whole` leads to subtree `t`, whose root is the current node. */
    ghost var whole: Tree
    ghost var c: Path
    ghost var t: Tree

    constructor (maxDepth: nat)
      requires 0 < maxDepth <= INVALID
      ensures depth == INVALID && branch.Length == maxDepth && pathH.Length == maxDepth - 1
      ensures fresh(branch) && fresh(pathH)
    {
      tree := null;
      branch := new bool[maxDepth];
      pathH := new Handle[maxDepth - 1];
      depth := INVALID;
    }

    ghost predicate Sized()
      reads this
    {
      0 < branch.Length <= INVALID && pathH.Length == branch.Length - 1
    }

    /** The arrays hold path `c`, and the node at its end. */
    ghost predicate Held(c: Path, t: Tree)
      requires t.Node?
      reads branch, pathH
    {
      && |c| <= pathH.Length && |c| <= branch.Length
      && forall i :: 0 <= i < |c| ==> branch[i] == c[i].dir && pathH[i] == At(c, i + 1, t.h)
    }

    /** The iterator stands at a node of `whole`. */
    ghost predicate OnNode()
      reads this, branch, pathH
    {
      && Sized() && t.Node? && depth == |c| && Held(c, t)
      && Plug(c, t) == whole && Height(whole) <= branch.Length
    }

    ghost predicate Valid()
      reads this, branch, pathH
    {
      Sized() && (depth != INVALID ==> OnNode())
    }

    /** The root that the walked tree object names is that of `whole`. */
    ghost predicate Rooted()
      reads this, tree
    {
      t.Node? && tree != null && tree.root == At(c, 0, t.h)
    }

    /** Place of the current node in the order. */
    ghost function Place(): nat
      requires t.Node?
      reads this
    {
      Pos(c, t)
    }

    lemma HeldAt(i: nat)
      requires t.Node? && Held(c, t) && i < |c|
      ensures i < branch.Length && branch[i] == c[i].dir
    {
    }

    lemma PlaceInOrder()
      requires Valid() && depth != INVALID
      ensures t.Node? && Place() < |InOrder(whole)| && InOrder(whole)[Place()] == t.h
    {
      PosInOrder(c, t);
    }

    method Current() returns (h: Handle)
      requires Valid() && (depth != INVALID ==> Rooted())
      ensures depth == INVALID ==> h == NIL
      ensures depth != INVALID ==>
        h == t.h && Place() < |InOrder(whole)| && InOrder(whole)[Place()] == h
    {
      if depth == INVALID {
        return NIL;
      }
      PosInOrder(c, t);
      h := if depth == 0 then tree.root else pathH[depth - 1];
    }

    /** Extends the path by one step to handle `h`. */
    method Push(h: Handle, dir: bool)
      requires OnNode() && Branch(t, dir).Node? && h == Branch(t, dir).h
      modifies `c, `t, `depth, branch, pathH
      ensures OnNode() && c == old(c) + [FrameOf(old(t), dir)] && t == Branch(old(t), dir)
      ensures depth == old(depth) + 1
    {
      hide Plug, Height;
      ghost var f := FrameOf(t, dir);
      StepDown(c, t, dir);
      HeightSub(c + [f], Branch(t, dir));
      HeightNode(Branch(t, dir));
      branch[depth] := dir;
      pathH[depth] := h;
      depth := depth + 1;
      assert forall i :: 0 <= i < |c| ==> (c + [f])[i] == c[i];
      c, t := c + [f], Branch(t, dir);
    }

    /** The position, after `depth` was reduced, is node `u` of the path. */
    ghost method StandAt(u: Tree)
      requires Sized() && Height(whole) <= branch.Length
      requires t.Node? && Held(c, t) && depth <= |c| && u.Node? && u.h == At(c, depth, t.h)
      requires Plug(c[..depth], u) == whole
      modifies `c, `t
      ensures OnNode() && c == old(c)[..depth] && t == u && At(c, 0, t.h) == old(At(c, 0, t.h))
    {
      hide Plug, Height;
      c, t := c[..depth], u;
    }

    /** To the node that `AvlTree.Search` would find; to no node if it would find none. */
    method StartIter(tr: AvlTree, k: int, st: SearchType)
      requires Sized() && tr.Valid() && Height(tr.tree) <= branch.Length
      modifies this, branch, pathH
      ensures Valid() && tree == tr && whole == tr.tree
      ensures IsBest(tr.key, tr.Order(), st, k, if depth == INVALID then NIL else t.h)
      ensures depth != INVALID ==> Rooted() && Passable(true, tr.nodes, c, t) && Passable(false, tr.nodes, c, t)
    {
      hide Narrowed, Plug, Before, After, Sorted, Balanced, Candidate, Shape, IsBest, Height;
      tree, whole := tr, tr.tree;
      var h := tr.root;
      depth := INVALID;
      NothingPassed(tr.key, st, k, tr.tree);
      ShapeStored(tr.nodes, h, tr.tree);
      if h == NIL {
        EmptyShape(tr.nodes, tr.tree);
        CandidateOfAll(tr.key, [], tr.tree, st, k);
        return;
      }
      RootShape(tr.nodes, h, tr.tree);
      Seek(tr, k, st, h);
      if depth != INVALID {
        Decompose(tr.nodes, tr.root, c, t);
        PassableBoth(tr.nodes, tr.root, c, t);
      }
    }

    /** Compares with node `h` at depth `d`, which is noted if it is the best match so far; returns zero if the search
        is over. */
    method Note(tr: AvlTree, k: int, st: SearchType, targetCmp: int, h: Handle, d: nat) returns (cmp: int)
      requires targetCmp == if st.HasLess() then 1 else if st.HasGreater() then -1 else 0
      modifies `depth
      ensures cmp == 0 <==> tr.key(h) == k && st.HasEqual()
      ensures cmp > 0 ==> tr.key(h) < k || (tr.key(h) == k && st == GREATER)
      ensures cmp < 0 ==> k < tr.key(h) || (tr.key(h) == k && st == LESS)
      ensures depth == if (cmp > 0 && st.HasLess()) || (cmp < 0 && st.HasGreater()) then d else old(depth)
    {
      cmp := tr.CompareKeyNode(k, h);
      if cmp == 0 {
        if st.HasEqual() {
          return;
        }
        cmp := -targetCmp;
      } else if targetCmp != 0 {
        // The source tests the sign bit of cmp ^ target_cmp.
        if (cmp < 0) == (targetCmp < 0) {
          depth := d;
        }
      }
    }

    /** The descent of `StartIter` in a tree that is not empty. */
    method Seek(tr: AvlTree, k: int, st: SearchType, h0: Handle)
      requires Sized() && tr.Valid() && Height(tr.tree) <= branch.Length && depth == INVALID
      requires tree == tr && whole == tr.tree && tr.tree.Node? && h0 == tr.root == tr.tree.h
      modifies `depth, `c, `t, branch, pathH
      ensures Valid()
      ensures IsBest(tr.key, tr.Order(), st, k, if depth == INVALID then NIL else t.h)
      ensures depth != INVALID ==> Rooted()
    {
      hide Narrowed, Plug, Before, After, Sorted, Balanced, Candidate, IsBest, Height, Shape;
      assert Held([], tr.tree);
      hide Iter.Held;
      var h := h0;
      var d: nat := 0;
      NothingPassed(tr.key, st, k, tr.tree);
      var targetCmp := if st.HasLess() then 1 else if st.HasGreater() then -1 else 0;
      ghost var p: Path, u := [], tr.tree;
      while true
        invariant u.Node? && Plug(p, u) == whole && Shape(tr.nodes, h, u) && Held(p, u) && At(p, 0, u.h) == tr.root
        invariant Narrowed(tr.key, Before(p), After(p), st, k)
        invariant (depth == INVALID || depth < |p|) && d == |p|
        invariant Candidate(Before(p), After(p), st) == if depth == INVALID then NIL else p[depth].h
        decreases u
      {
        ChildShape(tr.nodes, h, u, false);
        var cmp := Note(tr, k, st, targetCmp, h, d);
        if cmp == 0 {
          depth := d;
          c, t := p, u;
          EqualIsBest(tr.key, p, u, st, k);
          return;
        }
        ghost var f := FrameOf(u, cmp > 0);
        SeekDown(tr.key, tr.nodes, whole, p, u, h, st, k, cmp > 0);
        h := if cmp < 0 then tr.nodes[h].lt else tr.nodes[h].gt;
        if h == NIL {
          Settle(tr, k, st, p, u, f);
          return;
        }
        Extend(h, d, cmp > 0, p, u);
        d := d + 1;
        p, u := p + [f], Branch(u, cmp > 0);
      }
    }

    /** The descent has run off the tree after node `u`: the position is the candidate at the depth noted. */
    ghost method Settle(tr: AvlTree, k: int, st: SearchType, p: Path, u: Tree, f: Frame)
      requires Sized() && tr.Valid() && Height(tr.tree) <= branch.Length && tree == tr && whole == tr.tree
      requires u.Node? && Held(p, u) && f.h == u.h && At(p, 0, u.h) == tr.root && Plug(p + [f], Leaf) == whole
      requires Narrowed(tr.key, Before(p + [f]), After(p + [f]), st, k)
      requires depth == INVALID || depth <= |p|
      requires Candidate(Before(p + [f]), After(p + [f]), st) == if depth == INVALID then NIL else (p + [f])[depth].h
      modifies `c, `t
      ensures Valid()
      ensures IsBest(tr.key, tr.Order(), st, k, if depth == INVALID then NIL else t.h)
      ensures depth != INVALID ==> Rooted()
    {
      hide Narrowed, Plug, Before, After, Sorted, Balanced, Candidate, IsBest, Height, Shape;
      ShapeStored(tr.nodes, tr.root, tr.tree);
      CandidateOfAll(tr.key, p + [f], Leaf, st, k);
      if depth != INVALID {
        Ancestor(p + [f], depth, Leaf);
        HeldAncestor(p, u, f, depth);
        c, t := (p + [f])[..depth], Plug((p + [f])[depth..], Leaf);
      }
    }

    /** Records a step of the search at depth `d` without moving the position. */
    method Extend(h: Handle, d: nat, dir: bool, ghost p: Path, ghost u: Tree)
      requires u.Node? && Held(p, u) && d == |p| && d < pathH.Length && d < branch.Length
      requires Branch(u, dir).Node? && h == Branch(u, dir).h
      modifies branch, pathH
      ensures Held(p + [FrameOf(u, dir)], Branch(u, dir))
    {
      branch[d] := dir;
      pathH[d] := h;
      ghost var f := FrameOf(u, dir);
      assert forall i :: 0 <= i < |p| ==> (p + [f])[i] == p[i];
    }

    /** The arrays that hold path `p` to `u` hold the path to any node on it, or to `u` itself. */
    lemma HeldAncestor(p: Path, u: Tree, f: Frame, d: nat)
      requires u.Node? && Held(p, u) && d <= |p| && f.h == u.h
      ensures var v := Plug((p + [f])[d..], Leaf); v.Node? && v.h == At(p, d, u.h) && Held((p + [f])[..d], v)
      ensures var v := Plug((p + [f])[d..], Leaf); At((p + [f])[..d], 0, v.h) == At(p, 0, u.h)
    {
      PlugRoot((p + [f])[d..], Leaf);
      assert (p + [f])[d..][0] == (p + [f])[d];
      var v := Plug((p + [f])[d..], Leaf);
      assert v.h == At(p, d, u.h);
      assert forall i :: 0 <= i < d ==> (p + [f])[..d][i] == p[i];
    }

    /** The descent along one side has run off the tree: the position is its last node. */
    ghost method StandAtLast(tr: AvlTree, p: Path, u: Tree, dir: bool)
      requires Sized() && tr.Valid() && Height(tr.tree) <= branch.Length && tree == tr && whole == tr.tree
      requires Plug(p, u) == whole && u == Leaf && |p| <= branch.Length
      requires forall i :: 0 <= i < |p| ==> p[i].dir == dir == branch[i]
      requires depth == if p == [] then INVALID else |p| - 1
      requires forall i :: 0 <= i < |p| - 1 ==> pathH[i] == p[i + 1].h
      requires tr.root == At(p, 0, NIL)
      modifies `c, `t
      ensures Valid() && (p == [] <==> tr.Order() == [])
      ensures p != [] ==> Place() == (if dir then End(p, u) - 1 else Start(p)) && Rooted()
      ensures p != [] ==> Passable(true, tr.nodes, c, t) && Passable(false, tr.nodes, c, t)
    {
      hide Plug, Height, Pos, Start, End, Sorted, Balanced, Fill, Shape, Passable;
      EndOfDescent(p, u, dir);
      if p != [] {
        c, t := Init(p), Fill(Last(p), u);
        Decompose(tr.nodes, tr.root, c, t);
        PassableBoth(tr.nodes, tr.root, c, t);
      }
    }

    /** To the first node in order. */
    method StartIterLeast(tr: AvlTree)
      requires Sized() && tr.Valid() && Height(tr.tree) <= branch.Length
      modifies this, branch, pathH
      ensures Valid() && tree == tr && whole == tr.tree
      ensures depth == INVALID <==> tr.Order() == []
      ensures depth != INVALID ==> Place() == 0 && Rooted()
      ensures depth != INVALID ==> Passable(true, tr.nodes, c, t) && Passable(false, tr.nodes, c, t)
    {
      hide Plug, Height, Pos, Start, End, Sorted, Balanced;
      tree, whole := tr, tr.tree;
      var h := tr.root;
      depth := INVALID;
      forall i | 0 <= i < branch.Length {
        branch[i] := false;
      }
      ghost var p: Path, u := [], tr.tree;
      EndOfWhole(u);
      while h != NIL
        invariant Sized() && tree == tr && whole == tr.tree
        invariant Plug(p, u) == whole && Shape(tr.nodes, h, u) && Start(p) == 0
        invariant depth == if p == [] then INVALID else |p| - 1
        invariant forall i :: 0 <= i < branch.Length ==> branch[i] == false
        invariant (forall i :: 0 <= i < |p| ==> p[i].dir == false) && |p| <= branch.Length
        invariant forall i :: 0 <= i < |p| - 1 ==> pathH[i] == p[i + 1].h
        invariant tr.root == At(p, 0, h)
        decreases u
      {
        HeightSub(p, u);
        HeightNode(u);
        StepDown(p, u, false);
        if depth != INVALID {
          pathH[depth] := h;
        }
        depth := Increment(depth);
        h := tr.nodes[h].lt;
        ghost var f := FrameOf(u, false);
        assert forall i :: 0 <= i < |p| ==> (p + [f])[i] == p[i];
        p, u := p + [f], Branch(u, false);
      }
      StandAtLast(tr, p, u, false);
    }

    /** To the last node in order. */
    method StartIterGreatest(tr: AvlTree)
      requires Sized() && tr.Valid() && Height(tr.tree) <= branch.Length
      modifies this, branch, pathH
      ensures Valid() && tree == tr && whole == tr.tree
      ensures depth == INVALID <==> tr.Order() == []
      ensures depth != INVALID ==> Place() + 1 == |InOrder(whole)| && Rooted()
      ensures depth != INVALID ==> Passable(true, tr.nodes, c, t) && Passable(false, tr.nodes, c, t)
    {
      hide Plug, Height, Pos, Start, End, Sorted, Balanced;
      tree, whole := tr, tr.tree;
      var h := tr.root;
      depth := INVALID;
      forall i | 0 <= i < branch.Length {
        branch[i] := true;
      }
      ghost var p: Path, u := [], tr.tree;
      EndOfWhole(u);
      while h != NIL
        invariant Sized() && tree == tr && whole == tr.tree
        invariant Plug(p, u) == whole && Shape(tr.nodes, h, u) && End(p, u) == |InOrder(whole)|
        invariant depth == if p == [] then INVALID else |p| - 1
        invariant forall i :: 0 <= i < branch.Length ==> branch[i] == true
        invariant (forall i :: 0 <= i < |p| ==> p[i].dir == true) && |p| <= branch.Length
        invariant forall i :: 0 <= i < |p| - 1 ==> pathH[i] == p[i + 1].h
        invariant tr.root == At(p, 0, h)
        decreases u
      {
        HeightSub(p, u);
        HeightNode(u);
        StepDown(p, u, true);
        if depth != INVALID {
          pathH[depth] := h;
        }
        depth := Increment(depth);
        h := tr.nodes[h].gt;
        ghost var f := FrameOf(u, true);
        assert forall i :: 0 <= i < |p| ==> (p + [f])[i] == p[i];
        p, u := p + [f], Branch(u, true);
      }
      StandAtLast(tr, p, u, true);
    }

    /** To the next node in order, or past the end. */
    method Next()
      requires Valid() && (depth != INVALID ==> Rooted() && Passable(true, tree.nodes, c, t))
      modifies `c, `t, `depth, branch, pathH
      ensures Valid()
      ensures old(depth) == INVALID ==> depth == INVALID
      ensures old(depth) != INVALID ==>
        if old(Place()) + 1 == |InOrder(whole)| then depth == INVALID
        else depth != INVALID && Place() == old(Place()) + 1 && Rooted() && Passable(true, tree.nodes, c, t)
    {
      hide Plug, Pos, End, Start, Height, Before, After;
      if depth != INVALID {
        var n := Current();
        var h := tree.nodes[n].gt;
        if h == NIL {
          GoUp();
        } else {
          GoDown(h);
        }
      }
    }

    /** To the previous node in order, or past the beginning. */
    method Prev()
      requires Valid() && (depth != INVALID ==> Rooted() && Passable(false, tree.nodes, c, t))
      modifies `c, `t, `depth, branch, pathH
      ensures Valid()
      ensures old(depth) == INVALID ==> depth == INVALID
      ensures old(depth) != INVALID ==>
        if old(Place()) == 0 then depth == INVALID
        else depth != INVALID && Place() + 1 == old(Place()) && Rooted() && Passable(false, tree.nodes, c, t)
    {
      hide Plug, Pos, End, Start, Height, Before, After;
      if depth != INVALID {
        var n := Current();
        var h := tree.nodes[n].lt;
        if h == NIL {
          GoUpBack();
        } else {
          GoDownBack(h);
        }
      }
    }

    /** The current node has nothing behind it: up to the nearest node on the path that is still to come. */
    method GoUp()
      requires OnNode() && Rooted() && Passable(true, tree.nodes, c, t) && t.gt == Leaf
      modifies `depth, `c, `t
      ensures Valid()
      ensures if old(Place()) + 1 == |InOrder(whole)| then depth == INVALID
              else depth != INVALID && Place() == old(Place()) + 1 && Rooted() && Passable(true, tree.nodes, c, t)
    {
      hide Plug, Height, Pos, End, Start, Fill, Passable, InOrder, Before, After, Shape;
      hide Iter.Held;
      ghost var u, pos := t, Place();
      AtRoot(c, t);
      assert c[..depth] == c;
      while true
        invariant 0 <= depth <= |c| && u.Node? && u.h == At(c, depth, t.h)
        invariant Plug(c[..depth], u) == whole && End(c[..depth], u) == pos + 1
        decreases depth
        modifies `depth
      {
        if depth == 0 {
          EndOfWhole(u);
          depth := INVALID;
          return;
        }
        depth := depth - 1;
        HeldAt(depth);
        StepUpAt(c, depth, u);
        FillRoot(c[depth], u);
        u := Fill(c[depth], u);
        if !branch[depth] {
          break;
        }
      }
      PosInOrder(c[..depth], u);
      PassUp(true, tree.nodes, c, t, depth, u);
      StandAt(u);
    }

    /** The current node has nothing before it: up to the nearest node on the path that comes before it. */
    method GoUpBack()
      requires OnNode() && Rooted() && Passable(false, tree.nodes, c, t) && t.lt == Leaf
      modifies `depth, `c, `t
      ensures Valid()
      ensures if old(Place()) == 0 then depth == INVALID
              else depth != INVALID && Place() + 1 == old(Place()) && Rooted() && Passable(false, tree.nodes, c, t)
    {
      hide Plug, Height, Pos, End, Start, Fill, Passable, InOrder, Before, After, Shape;
      hide Iter.Held;
      ghost var u, pos := t, Place();
      AtRoot(c, t);
      assert c[..depth] == c;
      while true
        invariant 0 <= depth <= |c| && u.Node? && u.h == At(c, depth, t.h)
        invariant Plug(c[..depth], u) == whole && Start(c[..depth]) == pos
        decreases depth
        modifies `depth
      {
        if depth == 0 {
          EndOfWhole(u);
          depth := INVALID;
          return;
        }
        depth := depth - 1;
        HeldAt(depth);
        StepUpAt(c, depth, u);
        FillRoot(c[depth], u);
        u := Fill(c[depth], u);
        if branch[depth] {
          break;
        }
      }
      PosInOrder(c[..depth], u);
      PassUp(false, tree.nodes, c, t, depth, u);
      StandAt(u);
    }

    /** Into the subtree behind the current node, and there to its first node. */
    method GoDown(h0: Handle)
      requires OnNode() && Rooted() && Passable(true, tree.nodes, c, t)
      requires h0 == tree.nodes[t.h].gt && h0 != NIL
      modifies `c, `t, `depth, branch, pathH
      ensures Valid()
      ensures depth != INVALID && Place() == old(Place()) + 1 && Place() < |InOrder(whole)|
      ensures Rooted() && Passable(true, tree.nodes, c, t)
    {
      hide Plug, Height, Pos, End, Start, Passable;
      var h := h0;
      BehindNode(true, tree.nodes, c, t);
      PassIn(true, tree.nodes, c, t);
      StepDown(c, t, true);
      ghost var pos := Place();
      Push(h, true);
      while true
        invariant OnNode() && Rooted()
        invariant Start(c) == pos + 1 && h == t.h
        invariant Shape(tree.nodes, t.h, t) && Passable(true, tree.nodes, c, t)
        decreases t
      {
        h := tree.nodes[h].lt;
        if h == NIL {
          break;
        }
        PassBack(true, tree.nodes, c, t);
        StepDown(c, t, false);
        Push(h, false);
      }
      AtRoot(c, t);
      PosInOrder(c, t);
    }

    /** Into the subtree before the current node, and there to its last node. */
    method GoDownBack(h0: Handle)
      requires OnNode() && Rooted() && Passable(false, tree.nodes, c, t)
      requires h0 == tree.nodes[t.h].lt && h0 != NIL
      modifies `c, `t, `depth, branch, pathH
      ensures Valid()
      ensures depth != INVALID && Place() + 1 == old(Place()) && Place() < |InOrder(whole)|
      ensures Rooted() && Passable(false, tree.nodes, c, t)
    {
      hide Plug, Height, Pos, End, Start, Passable;
      var h := h0;
      BehindNode(false, tree.nodes, c, t);
      PassIn(false, tree.nodes, c, t);
      StepDown(c, t, false);
      ghost var pos := Place();
      Push(h, false);
      while true
        invariant OnNode() && Rooted()
        invariant End(c, t) == pos && h == t.h
        invariant Shape(tree.nodes, t.h, t) && Passable(false, tree.nodes, c, t)
        decreases t
      {
        h := tree.nodes[h].gt;
        if h == NIL {
          break;
        }
        PassBack(false, tree.nodes, c, t);
        StepDown(c, t, true);
        Push(h, true);
      }
      AtRoot(c, t);
      PosInOrder(c, t);
    }
  }

  ghost function Elements(s: seq<Handle>): set<Handle> {
    set x | x in s
  }

  lemma OneMore(s: seq<Handle>, n: Handle)
    ensures Elements(s + [n]) == Elements(s) + {n}
  {
  }

  /** Steps past node `n`, then releases its storage. */
  method StepAndRelease(tr: AvlTree, it: Iter, n: Handle, ghost order: seq<Handle>)
    requires it.depth != INVALID && it.Valid() && it.tree == tr && it.Rooted() && n == it.t.h
    requires Passable(true, tr.nodes, it.c, it.t) && InOrder(it.whole) == order && NoDup(order)
    modifies tr`nodes, it`c, it`t, it`depth, it.branch, it.pathH
    ensures it.Valid() && tr.nodes == old(tr.nodes) - {n}
    ensures if old(it.Place()) + 1 == |order| then it.depth == INVALID
            else
              && it.depth != INVALID && it.Place() == old(it.Place()) + 1 && it.Rooted()
              && Passable(true, tr.nodes, it.c, it.t)
  {
    hide Passable, Plug, Height, NoDup;
    PosInOrder(it.c, it.t);
    it.Next();
    ghost var s := tr.nodes;
    tr.nodes := tr.nodes - {n};
    if it.depth != INVALID {
      PosInOrder(it.c, it.t);
      NotAhead(true, it.c, it.t, n, order);
      PassableFrame(true, s, tr.nodes, it.c, it.t);
    }
  }

  /** Steps back past node `n`, then releases its storage. */
  method StepBackAndRelease(tr: AvlTree, it: Iter, n: Handle, ghost order: seq<Handle>)
    requires it.depth != INVALID && it.Valid() && it.tree == tr && it.Rooted() && n == it.t.h
    requires Passable(false, tr.nodes, it.c, it.t) && InOrder(it.whole) == order && NoDup(order)
    modifies tr`nodes, it`c, it`t, it`depth, it.branch, it.pathH
    ensures it.Valid() && tr.nodes == old(tr.nodes) - {n}
    ensures if old(it.Place()) == 0 then it.depth == INVALID
            else
              && it.depth != INVALID && it.Place() + 1 == old(it.Place()) && it.Rooted()
              && Passable(false, tr.nodes, it.c, it.t)
  {
    hide Passable, Plug, Height, NoDup;
    PosInOrder(it.c, it.t);
    it.Prev();
    ghost var s := tr.nodes;
    tr.nodes := tr.nodes - {n};
    if it.depth != INVALID {
      PosInOrder(it.c, it.t);
      NotAhead(false, it.c, it.t, n, order);
      PassableFrame(false, s, tr.nodes, it.c, it.t);
    }
  }

  lemma PrefixGrows(order: seq<Handle>, visited: seq<Handle>)
    requires |visited| < |order| && visited == order[..|visited|]
    ensures visited + [order[|visited|]] == order[..|visited| + 1]
  {
  }

  /** A full walk from the first node to the last. */
  method Walk(tr: AvlTree, it: Iter) returns (visited: seq<Handle>)
    requires tr.Valid() && it.Sized() && Height(tr.tree) <= it.branch.Length
    modifies it, it.branch, it.pathH
    ensures visited == tr.Order()
  {
    hide Passable, Plug, Height, Sorted, Balanced, Shape, NoDup, Pos, Iter.Held, Iter.OnNode;
    ghost var order := tr.Order();
    ShapeStored(tr.nodes, tr.root, tr.tree);
    it.StartIterLeast(tr);
    var n := it.Current();
    visited := [];
    while n != NIL
      invariant it.Valid() && it.tree == tr && InOrder(it.whole) == order && |visited| <= |order|
      invariant if n == NIL then it.depth == INVALID && |visited| == |order|
                else
                  && it.depth != INVALID && it.Rooted() && Passable(true, tr.nodes, it.c, it.t)
                  && n == it.t.h && it.Place() == |visited| && |visited| < |order|
      invariant visited == order[..|visited|]
      decreases |order| - |visited|
    {
      it.PlaceInOrder();
      PrefixGrows(order, visited);
      it.Next();
      visited := visited + [n];
      n := it.Current();
    }
  }

  /** Destroys the tree while walking through it: as soon as the iterator has stepped past a node the storage of that
      node is released.  The walk still comes to every node, in order. */
  method DeathMarch(tr: AvlTree, it: Iter) returns (visited: seq<Handle>)
    requires tr.Valid() && it.Sized() && Height(tr.tree) <= it.branch.Length
    modifies tr, it, it.branch, it.pathH
    ensures var order := old(tr.Order()); visited == order
    ensures tr.Valid() && tr.tree == Leaf && tr.root == NIL
    ensures tr.nodes == old(tr.nodes) - (set x | x in old(tr.Order()))
  {
    hide Passable, Plug, Height, Sorted, Balanced, Shape, NoDup, Pos, Iter.Held, Iter.OnNode;
    ghost var order, s := tr.Order(), tr.nodes;
    SortedNoDup(tr.key, order);
    ShapeStored(s, tr.root, tr.tree);
    it.StartIterLeast(tr);
    var n := it.Current();
    assert Elements([]) == {};
    hide Elements;
    visited := [];
    while n != NIL
      invariant it.Valid() && it.tree == tr && InOrder(it.whole) == order && |visited| <= |order|
      invariant if n == NIL then it.depth == INVALID && |visited| == |order|
                else
                  && it.depth != INVALID && it.Rooted() && Passable(true, tr.nodes, it.c, it.t)
                  && n == it.t.h && it.Place() == |visited| && |visited| < |order|
      invariant visited == order[..|visited|]
      invariant tr.nodes == s - Elements(visited)
      decreases |order| - |visited|
    {
      it.PlaceInOrder();
      PrefixGrows(order, visited);
      StepAndRelease(tr, it, n, order);
      OneMore(visited, n);
      visited := visited + [n];
      n := it.Current();
    }
    assert visited == order;
    tr.Purge();
  }

  /** `a` is the beginning of `b` read from its end. */
  ghost predicate Backwards(a: seq<Handle>, b: seq<Handle>) {
    |a| <= |b| && forall i :: 0 <= i < |a| ==> a[i] == b[|b| - 1 - i]
  }

  lemma BackwardsGrows(a: seq<Handle>, b: seq<Handle>)
    requires |a| < |b| && Backwards(a, b)
    ensures Backwards(a + [b[|b| - 1 - |a|]], b)
  {
  }

  lemma SameElements(a: seq<Handle>, b: seq<Handle>)
    requires |a| == |b| && Backwards(a, b)
    ensures Elements(a) == Elements(b)
  {
    forall i | 0 <= i < |b|
      ensures b[i] in a
    {
      assert a[|b| - 1 - i] == b[i];
    }
  }

  /** The same from the last node to the first. */
  method DeathMarchBack(tr: AvlTree, it: Iter) returns (visited: seq<Handle>)
    requires tr.Valid() && it.Sized() && Height(tr.tree) <= it.branch.Length
    modifies tr, it, it.branch, it.pathH
    ensures var order := old(tr.Order()); |visited| == |order| && Backwards(visited, order)
    ensures tr.Valid() && tr.tree == Leaf && tr.root == NIL
    ensures tr.nodes == old(tr.nodes) - (set x | x in old(tr.Order()))
  {
    hide Passable, Plug, Height, Sorted, Balanced, Shape, NoDup, Pos, Iter.Held, Iter.OnNode;
    ghost var order, s := tr.Order(), tr.nodes;
    SortedNoDup(tr.key, order);
    ShapeStored(s, tr.root, tr.tree);
    it.StartIterGreatest(tr);
    var n := it.Current();
    assert Elements([]) == {} && Backwards([], order);
    hide Elements, Backwards;
    visited := [];
    while n != NIL
      invariant it.Valid() && it.tree == tr && InOrder(it.whole) == order && |visited| <= |order|
      invariant if n == NIL then it.depth == INVALID && |visited| == |order|
                else
                  && it.depth != INVALID && it.Rooted() && Passable(false, tr.nodes, it.c, it.t)
                  && n == it.t.h && it.Place() + 1 + |visited| == |order| && |visited| < |order|
      invariant Backwards(visited, order)
      invariant tr.nodes == s - Elements(visited)
      decreases |order| - |visited|
    {
      it.PlaceInOrder();
      BackwardsGrows(visited, order);
      StepBackAndRelease(tr, it, n, order);
      OneMore(visited, n);
      visited := visited + [n];
      n := it.Current();
    }
    SameElements(visited, order);
    tr.Purge();
  }
}
