/** Positions in a tree and moves between them, and what an iterator needs of the store to go on. */
module AvlWalk {
  import opened Common
  import opened AvlTrees
  import opened AvlRepair
  import opened AvlStore
  import opened AvlSearch

  /** Number of handles in order before the spot of path `c`; before the root of `t` there; up to the end of `t`. */
  function Start(c: Path): nat {
    |Before(c)|
  }

  function Pos(c: Path, t: Tree): nat
    requires t.Node?
  {
    |Before(c)| + |InOrder(t.lt)|
  }

  function End(c: Path, t: Tree): nat {
    |Before(c)| + |InOrder(t)|
  }

  lemma PosInOrder(c: Path, t: Tree)
    requires t.Node?
    ensures Pos(c, t) < |InOrder(Plug(c, t))| && InOrder(Plug(c, t))[Pos(c, t)] == t.h
  {
    OrderAround(c, t);
  }

  lemma EndOfWhole(t: Tree)
    ensures Start([]) == 0 && End([], t) == |InOrder(t)| && Plug([], t) == t
  {
  }

  lemma StepDown(c: Path, t: Tree, dir: bool)
    requires t.Node?
    ensures var c', t' := c + [FrameOf(t, dir)], Branch(t, dir);
      && Plug(c', t') == Plug(c, t)
      && (if dir then Start(c') == Pos(c, t) + 1 && End(c', t') == End(c, t)
          else Start(c') == Start(c) && End(c', t') == Pos(c, t))
  {
    PlugStep(c, t, dir);
  }

  lemma StepUp(c: Path, t: Tree)
    requires c != []
    ensures var f := Last(c); var u := Fill(f, t);
      && Plug(Init(c), u) == Plug(c, t)
      && (if f.dir then End(Init(c), u) == End(c, t) && Pos(Init(c), u) + 1 == Start(c)
          else Pos(Init(c), u) == End(c, t) && Start(Init(c)) == Start(c))
  {
  }

  /** Standing at the root of `u`, with nothing of it behind: the beginning or the end of `u` is next to that root. */
  lemma AtRoot(c: Path, u: Tree)
    requires u.Node?
    ensures u.lt == Leaf ==> Pos(c, u) == Start(c)
    ensures u.gt == Leaf ==> Pos(c, u) + 1 == End(c, u)
  {
    assert u.gt == Leaf ==> InOrder(u) == InOrder(u.lt) + [u.h];
  }

  /** One step up from depth `d` on path `c`. */
  lemma StepUpAt(c: Path, d: nat, u: Tree)
    requires d < |c|
    ensures var f := c[d]; var u' := Fill(f, u);
      && Plug(c[..d], u') == Plug(c[..d + 1], u)
      && (if f.dir then End(c[..d], u') == End(c[..d + 1], u) && Pos(c[..d], u') + 1 == Start(c[..d + 1])
          else Pos(c[..d], u') == End(c[..d + 1], u) && Start(c[..d]) == Start(c[..d + 1]))
  {
    ShorterPath(c, d + 1);
    StepUp(c[..d + 1], u);
  }

  lemma {:induction false} HeightSub(c: Path, t: Tree)
    ensures |c| + Height(t) <= Height(Plug(c, t))
    decreases |c|
  {
    if c != [] {
      HeightSub(Init(c), Fill(Last(c), t));
    }
  }

  // ---------------------------------------------------------------------------------------------

  /** What a walk in direction `fwd` still has to read: the link onwards of the current node and the subtree behind
      it, and the same of every node on the path that is still to come. */
  ghost predicate Passable(fwd: bool, s: Store, c: Path, t: Tree) {
    && t.Node? && t.h in s && Shape(s, Child(s, t.h, fwd), Branch(t, fwd))
    && forall i :: 0 <= i < |c| && c[i].dir != fwd ==> Onward(fwd, s, c[i])
  }

  ghost predicate Onward(fwd: bool, s: Store, f: Frame) {
    f.h in s && Shape(s, Child(s, f.h, fwd), f.sib)
  }

  /** In a tree that is stored as a whole both directions are passable. */
  lemma PassableBoth(s: Store, p: Handle, c: Path, t: Tree)
    requires t.Node? && PathShape(s, p, c, t.h) && Shape(s, t.h, t)
    ensures Passable(true, s, c, t) && Passable(false, s, c, t)
  {
    forall i | 0 <= i < |c|
      ensures Onward(!c[i].dir, s, c[i])
    {
      assert FrameShape(s, c[i], At(c, i + 1, t.h));
    }
  }

  /** Every position in a stored tree has its path stored. */
  lemma {:induction false} Decompose(s: Store, p: Handle, c: Path, t: Tree)
    requires Shape(s, p, Plug(c, t)) && t.Node?
    ensures PathShape(s, p, c, t.h) && Shape(s, t.h, t)
    decreases |c|
  {
    if c != [] {
      var f := Last(c);
      Decompose(s, p, Init(c), Fill(f, t));
      PathStep(s, p, Init(c), f.h, Fill(f, t), f.dir);
      assert Init(c) + [f] == c;
    }
  }

  /** The handles a walk has still to come to, the current one first or last. */
  function Ahead(fwd: bool, c: Path, t: Tree): seq<Handle>
    requires t.Node?
  {
    var o := InOrder(Plug(c, t));
    PosInOrder(c, t);
    if fwd then o[Pos(c, t)..] else o[..Pos(c, t) + 1]
  }

  lemma AheadIs(fwd: bool, c: Path, t: Tree)
    requires t.Node?
    ensures Ahead(fwd, c, t) == if fwd then [t.h] + InOrder(t.gt) + After(c) else Before(c) + InOrder(t.lt) + [t.h]
  {
    hide InOrder, Plug, Before, After;
    PosInOrder(c, t);
    OrderAround(c, t);
    SplitAround(Before(c) + InOrder(t.lt), t.h, InOrder(t.gt), After(c));
  }

  lemma SplitAround(a: seq<Handle>, h: Handle, b: seq<Handle>, c: seq<Handle>)
    ensures (a + [h] + (b + c))[|a|..] == [h] + b + c && (a + [h] + (b + c))[..|a| + 1] == a + [h]
  {
  }

  lemma {:induction false} FrameAhead(fwd: bool, c: Path, i: nat)
    requires i < |c| && c[i].dir != fwd
    ensures var s := if fwd then After(c) else Before(c);
      c[i].h in s && forall x :: x in InOrder(c[i].sib) ==> x in s
    decreases |c|
  {
    if i < |c| - 1 {
      assert Init(c)[i] == c[i];
      FrameAhead(fwd, Init(c), i);
    }
  }

  /** A walk reads only nodes that it has still to come to: whatever happens to the others, it stays passable. */
  lemma PassableFrame(fwd: bool, s: Store, s': Store, c: Path, t: Tree)
    requires Passable(fwd, s, c, t)
    requires forall x :: x in Ahead(fwd, c, t) && x in s ==> x in s' && s'[x] == s[x]
    ensures Passable(fwd, s', c, t)
  {
    AheadIs(fwd, c, t);
    var ahead := Ahead(fwd, c, t);
    assert t.h in ahead && forall x :: x in InOrder(Branch(t, fwd)) ==> x in ahead;
    Reshape(s, s', Child(s, t.h, fwd), Branch(t, fwd));
    forall i | 0 <= i < |c| && c[i].dir != fwd
      ensures Onward(fwd, s', c[i])
    {
      FrameAhead(fwd, c, i);
      assert Onward(fwd, s, c[i]);
      assert c[i].h in ahead && forall x :: x in InOrder(c[i].sib) ==> x in ahead;
      Reshape(s, s', Child(s, c[i].h, fwd), c[i].sib);
    }
  }

  lemma Reshape(s: Store, s': Store, p: Handle, t: Tree)
    requires Shape(s, p, t) && forall x :: x in InOrder(t) && x in s ==> x in s' && s'[x] == s[x]
    ensures Shape(s', p, t)
  {
    ShapeStored(s, p, t);
    ShapeFrame(s, s', p, t);
  }

  /** Going on from a node into the subtree behind it. */
  lemma PassIn(fwd: bool, s: Store, c: Path, t: Tree)
    requires Passable(fwd, s, c, t) && Branch(t, fwd).Node?
    ensures var c', t' := c + [FrameOf(t, fwd)], Branch(t, fwd);
      t'.h == Child(s, t.h, fwd) && Shape(s, t'.h, t') && Passable(fwd, s, c', t')
  {
    var c', t' := c + [FrameOf(t, fwd)], Branch(t, fwd);
    forall i | 0 <= i < |c'| && c'[i].dir != fwd
      ensures Onward(fwd, s, c'[i])
    {
      assert c'[i] == c[i];
    }
  }

  /** Going back from a node towards the beginning of its subtree. */
  lemma PassBack(fwd: bool, s: Store, c: Path, t: Tree)
    requires Passable(fwd, s, c, t) && Shape(s, t.h, t) && Branch(t, !fwd).Node?
    ensures var c', t' := c + [FrameOf(t, !fwd)], Branch(t, !fwd);
      t'.h == Child(s, t.h, !fwd) && Shape(s, t'.h, t') && Passable(fwd, s, c', t')
  {
    var c', t' := c + [FrameOf(t, !fwd)], Branch(t, !fwd);
    forall i | 0 <= i < |c'| && c'[i].dir != fwd
      ensures Onward(fwd, s, c'[i])
    {
      if i < |c| {
        assert c'[i] == c[i];
      } else {
        assert c'[i] == FrameOf(t, !fwd);
      }
    }
  }

  /** Going up to a node of the path that is still to come. */
  lemma PassUp(fwd: bool, s: Store, c: Path, t: Tree, d: nat, u: Tree)
    requires Passable(fwd, s, c, t)
    requires d < |c| && c[d].dir != fwd && u.Node? && u.h == c[d].h && Branch(u, fwd) == c[d].sib
    ensures Passable(fwd, s, c[..d], u)
  {
    assert Onward(fwd, s, c[d]);
  }

  lemma FillRoot(f: Frame, u: Tree)
    ensures Fill(f, u).Node? && Fill(f, u).h == f.h && Branch(Fill(f, u), !f.dir) == f.sib
  {
  }

  lemma BehindNode(fwd: bool, s: Store, c: Path, t: Tree)
    requires Passable(fwd, s, c, t)
    ensures t.h in s && (Child(s, t.h, fwd) == NIL <==> Branch(t, fwd) == Leaf)
  {
  }

  /** The node at depth `d` of a path, seen as a position. */
  lemma Ancestor(c: Path, d: nat, t: Tree)
    requires d < |c|
    ensures Plug(c[..d], Plug(c[d..], t)) == Plug(c, t)
    ensures Plug(c[d..], t).Node? && Plug(c[d..], t).h == c[d].h
  {
    assert c == c[..d] + c[d..];
    PlugConcat(c[..d], c[d..], t);
    PlugRoot(c[d..], t);
  }

  lemma EmptyShape(s: Store, t: Tree)
    requires Shape(s, NIL, t)
    ensures t == Leaf
  {
  }

  lemma RootShape(s: Store, p: Handle, t: Tree)
    requires Shape(s, p, t) && p != NIL
    ensures t.Node? && t.h == p
  {
  }

  lemma ChildShape(s: Store, p: Handle, t: Tree, dir: bool)
    requires Shape(s, p, t) && t.Node?
    ensures p == t.h && p in s && Shape(s, Child(s, p, dir), Branch(t, dir))
    ensures if Child(s, p, dir) == NIL then Branch(t, dir) == Leaf
            else Branch(t, dir).Node? && Branch(t, dir).h == Child(s, p, dir)
  {
  }

  /** One step of the descent of a search. */
  lemma SeekDown(key: Handle -> int, s: Store, whole: Tree, p: Path, u: Tree, h: Handle, st: SearchType, k: int,
                 dir: bool)
    requires u.Node? && Plug(p, u) == whole && Shape(s, h, u)
    requires Sorted(key, InOrder(whole)) && Narrowed(key, Before(p), After(p), st, k)
    requires if dir then key(h) < k || (key(h) == k && st == GREATER)
             else k < key(h) || (key(h) == k && st == LESS)
    ensures
      var p', u', h' := p + [FrameOf(u, dir)], Branch(u, dir), Child(s, h, dir);
      && Plug(p', u') == whole && Shape(s, h', u') && Narrowed(key, Before(p'), After(p'), st, k)
      && Candidate(Before(p'), After(p'), st) ==
           (if (if dir then st.HasLess() else st.HasGreater()) then h else Candidate(Before(p), After(p), st))
      && if h' == NIL then u' == Leaf else u'.Node? && u'.h == h' && |p'| < Height(whole)
  {
    ChildShape(s, h, u, dir);
    Narrow(key, p, u, st, k, dir);
    PlugStep(p, u, dir);
    HeightSub(p + [FrameOf(u, dir)], Branch(u, dir));
    if Branch(u, dir).Node? {
      HeightNode(Branch(u, dir));
    }
    hide Shape, Plug, Sorted, Narrowed, Candidate, Before, After, Height;
  }

  /** The descent along one side has run off the tree: its last node is the first, or last, one in order. */
  lemma EndOfDescent(p: Path, u: Tree, dir: bool)
    requires u == Leaf && forall i :: 0 <= i < |p| ==> p[i].dir == dir
    ensures p == [] ==> Plug(p, u) == Leaf && InOrder(Plug(p, u)) == []
    ensures p != [] ==>
      && Fill(Last(p), u).Node? && Fill(Last(p), u).h == Last(p).h
      && Plug(Init(p), Fill(Last(p), u)) == Plug(p, u) && InOrder(Plug(p, u)) != []
      && (if dir then Pos(Init(p), Fill(Last(p), u)) + 1 == End(p, u) else Pos(Init(p), Fill(Last(p), u)) == Start(p))
  {
    if p != [] {
      StepUp(p, u);
      PosInOrder(Init(p), Fill(Last(p), u));
    }
  }

  /** The node just passed is not among those still to come. */
  lemma NotAhead(fwd: bool, c: Path, t: Tree, n: Handle, order: seq<Handle>)
    requires t.Node? && order == InOrder(Plug(c, t)) && NoDup(order)
    requires if fwd then Pos(c, t) > 0 && Pos(c, t) <= |order| && n == order[Pos(c, t) - 1]
             else Pos(c, t) + 1 < |order| && n == order[Pos(c, t) + 1]
    ensures n !in Ahead(fwd, c, t)
  {
    PosInOrder(c, t);
    var a := Ahead(fwd, c, t);
    forall i | 0 <= i < |a|
      ensures a[i] != n
    {
      assert a[i] == if fwd then order[Pos(c, t) + i] else order[i];
    }
  }
}
