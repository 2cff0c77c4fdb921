/** Facts about stored trees at the moments of `remove`: the spot where the tree gets shorter, the replacement poked
    into the place of the removed node, and the links reversed on the way down. */
module AvlRemoval {
  import opened Common
  import opened AvlTrees
  import opened AvlRepair
  import opened AvlStore
  import opened AvlDescent

  /** The handle before depth `i` on path `c`. */
  function Up(c: Path, i: nat): Handle
    requires i <= |c|
  {
    if i == 0 then NIL else c[i - 1].h
  }

  /** The branch in which the replacement for the root of `t` is looked for: the deeper one, or else the greater. */
  predicate Deeper(t: Tree)
    requires t.Node?
  {
    t.bf >= 0
  }

  /** The subtree left over when the root of `e`, which has at most one child, is taken away. */
  function OnlyChild(e: Tree): Tree
    requires e.Node?
  {
    if e.lt == Leaf then e.gt else e.lt
  }

  /** From the root of `t` one step into the deeper branch, then along `z` always the other way, to `e`, which goes
      no further that way: the root of `e` is next to the root of `t` in order. */
  ghost predicate NextTo(t: Tree, z: Path, e: Tree) {
    && t.Node? && e.Node?
    && Plug(z, e) == Branch(t, Deeper(t))
    && (forall i :: 0 <= i < |z| ==> z[i].dir == !Deeper(t))
    && Branch(e, !Deeper(t)) == Leaf
  }

  lemma PlugEmpty(t: Tree)
    ensures Plug([], t) == t
  {
  }

  /** The root of `t` is not met again further down. */
  lemma BelowRoot(t: Tree, dir: bool, z: Path, e: Tree)
    requires t.Node? && NoDup(InOrder(t)) && Plug(z, e) == Branch(t, dir)
    ensures (forall i :: 0 <= i < |z| ==> z[i].h != t.h) && (e.Node? ==> e.h != t.h)
  {
    NodeParts(t);
    PathInTree(z, e);
    if e.Node? {
      RootInTree(z, e);
    }
  }

  /** `parent` is the last node of the path to the replacement; the branch taken there is the deeper one only at the
      node to remove itself. */
  lemma EndOfPath(c: Path, t: Tree, z: Path, e: Tree, parent: Handle, cmp: int)
    requires NextTo(t, z, e) && cmp != 0 && (cmp > 0) == !Deeper(t)
    requires forall i :: 0 <= i < |z| ==> z[i].h != t.h
    requires parent == Last(c + [FrameOf(t, Deeper(t))] + z).h
    ensures PathEnd(c + [FrameOf(t, Deeper(t))] + z, parent, if parent == t.h then -cmp else cmp)
  {
    var p := c + [FrameOf(t, Deeper(t))] + z;
    if z == [] {
      assert p == c + [FrameOf(t, Deeper(t))];
    } else {
      assert Last(p) == Last(z);
    }
  }

  /** The path to the replacement, with the replacement itself in the place of the removed node. */
  function Replaced(c: Path, t: Tree, z: Path, h: Handle): Path
    requires t.Node?
  {
    c + [FrameOf(t, Deeper(t)).(h := h)] + z
  }

  lemma {:induction false} OneWay(z: Path, dir: bool)
    requires forall i :: 0 <= i < |z| ==> z[i].dir == dir
    ensures if dir then After(z) == [] else Before(z) == []
    decreases |z|
  {
    if z != [] {
      assert forall i :: 0 <= i < |z| - 1 ==> Init(z)[i] == z[i];
      OneWay(Init(z), dir);
    }
  }

  lemma ReplacedAround(c: Path, t: Tree, z: Path, h: Handle)
    requires t.Node?
    ensures var dir := Deeper(t); var r := Replaced(c, t, z, h);
      && Before(r) == Before(c) + (if dir then InOrder(t.lt) + [h] else []) + Before(z)
      && After(r) == After(z) + ((if dir then [] else [h] + InOrder(t.gt)) + After(c))
  {
    var f := FrameOf(t, Deeper(t)).(h := h);
    PlugSnoc(c, f, Leaf);
    PlugConcat(c + [f], z, Leaf);
  }

  lemma MoveAfter(b: seq<Handle>, l: seq<Handle>, h: seq<Handle>, x: seq<Handle>, z: seq<Handle>, a: seq<Handle>)
    ensures b + (l + h) + x + (z + a) == b + l + (h + x + z + a)
  {
  }

  lemma MoveBefore(b: seq<Handle>, z: seq<Handle>, x: seq<Handle>, h: seq<Handle>, g: seq<Handle>, a: seq<Handle>)
    ensures b + z + x + (h + g + a) == b + (z + x + h) + (g + a)
  {
  }

  lemma NextToOrder(t: Tree, z: Path, e: Tree)
    requires NextTo(t, z, e)
    ensures if Deeper(t) then InOrder(t.gt) == [e.h] + InOrder(OnlyChild(e)) + After(z) && Before(z) == []
            else InOrder(t.lt) == Before(z) + InOrder(OnlyChild(e)) + [e.h] && After(z) == []
  {
    OneWay(z, !Deeper(t));
    InOrderPlug(z, e);
    var x := InOrder(OnlyChild(e));
    if Deeper(t) {
      assert InOrder(e) == [e.h] + x;
    } else {
      assert InOrder(e) == x + [e.h];
    }
  }

  /** With the replacement poked in, the order is the old one without the root of `t`. */
  lemma ReplacedOrder(c: Path, t: Tree, z: Path, e: Tree)
    requires NextTo(t, z, e)
    ensures InOrder(Plug(Replaced(c, t, z, e.h), OnlyChild(e)))
         == Before(c) + InOrder(t.lt) + (InOrder(t.gt) + After(c))
  {
    hide Plug, Before, After, Replaced, OnlyChild, InOrder;
    var x := InOrder(OnlyChild(e));
    InOrderPlug(Replaced(c, t, z, e.h), OnlyChild(e));
    ReplacedAround(c, t, z, e.h);
    NextToOrder(t, z, e);
    MoveAfter(Before(c), InOrder(t.lt), [e.h], x, After(z), After(c));
    MoveBefore(Before(c), Before(z), x, [e.h], InOrder(t.gt), After(c));
  }

  /** The balance of the tree does not depend on which node stands where. */
  lemma ReplacedBalanced(c: Path, t: Tree, z: Path, e: Tree)
    requires NextTo(t, z, e) && Balanced(Plug(c, t))
    ensures Balanced(Plug(Replaced(c, t, z, e.h), e))
    ensures Balanced(OnlyChild(e)) && Height(OnlyChild(e)) == Height(e) - 1
  {
    var f := FrameOf(t, Deeper(t)).(h := e.h);
    BalancedSub(c, t);
    BalancedSub(z, e);
    BalancedSwap(c, t, Fill(f, Branch(t, Deeper(t))));
    PlugConcat(c + [f], z, e);
    PlugSnoc(c, f, Plug(z, e));
  }

  /** `s` is `o` without its element at `pos`, which is `rm`. */
  ghost predicate Without(o: seq<Handle>, s: seq<Handle>, rm: Handle, pos: nat) {
    pos < |o| && o[pos] == rm && s == o[..pos] + o[pos + 1..]
  }

  lemma WithoutParts(a: seq<Handle>, rm: Handle, b: seq<Handle>)
    ensures Without(a + [rm] + b, a + b, rm, |a|)
  {
  }

  lemma {:induction false} WithoutNoDup(o: seq<Handle>, s: seq<Handle>, rm: Handle, pos: nat)
    requires Without(o, s, rm, pos) && NoDup(o)
    ensures NoDup(s) && forall x :: x in s ==> x in o
  {
    assert forall i :: 0 <= i < |s| ==> s[i] == if i < pos then o[i] else o[i + 1];
  }

  lemma WithoutSorted(key: Handle -> int, o: seq<Handle>, s: seq<Handle>, rm: Handle, pos: nat)
    requires Without(o, s, rm, pos) && Sorted(key, o)
    ensures Sorted(key, s)
  {
    assert forall i :: 0 <= i < |s| ==> s[i] == if i < pos then o[i] else o[i + 1];
  }

  /** After `rm` was cut out of `whole` subtree `x` hangs at the end of path `c`, where `o`, one level higher, was;
      the order is the old one without `rm`. */
  ghost predicate CutOut(whole: Tree, rm: Handle, pos: nat, c: Path, o: Tree, x: Tree) {
    && Climbing(c, o, x, true)
    && Without(InOrder(whole), InOrder(Plug(c, x)), rm, pos)
    && NoDup(InOrder(Plug(c, x))) && Apart(c, x) && Apart(c, Leaf)
  }

  lemma LeafBalanced(rm: Handle)
    ensures Balanced(Leaf) && Height(Leaf) == Height(Single(rm)) - 1
  {
  }

  lemma CutOutLeaf(c: Path, rm: Handle)
    requires Balanced(Plug(c, Single(rm))) && NoDup(InOrder(Plug(c, Single(rm))))
    ensures CutOut(Plug(c, Single(rm)), rm, |Before(c)|, c, Single(rm), Leaf)
  {
    hide Balanced, NoDup, Plug, Before, After;
    InOrderPlug(c, Single(rm));
    InOrderPlug(c, Leaf);
    assert InOrder(Plug(c, Leaf)) == Before(c) + After(c);
    assert Climbing(c, Single(rm), Leaf, true) by { LeafBalanced(rm); }
    WithoutParts(Before(c), rm, After(c));
    WithoutNoDup(InOrder(Plug(c, Single(rm))), InOrder(Plug(c, Leaf)), rm, |Before(c)|);
    PathApart(c, Leaf);
  }

  lemma CutOutInner(c: Path, t: Tree, z: Path, e: Tree)
    requires NextTo(t, z, e) && Balanced(Plug(c, t)) && NoDup(InOrder(Plug(c, t)))
    ensures CutOut(Plug(c, t), t.h, |Before(c) + InOrder(t.lt)|, Replaced(c, t, z, e.h), e, OnlyChild(e))
  {
    hide Balanced, NoDup, Plug, Before, After, Replaced;
    ReplacedOrder(c, t, z, e);
    ReplacedBalanced(c, t, z, e);
    OrderAround(c, t);
    var a, b := Before(c) + InOrder(t.lt), InOrder(t.gt) + After(c);
    WithoutParts(a, t.h, b);
    var r := Plug(Replaced(c, t, z, e.h), OnlyChild(e));
    WithoutNoDup(InOrder(Plug(c, t)), InOrder(r), t.h, |a|);
    PathApart(Replaced(c, t, z, e.h), OnlyChild(e));
    ApartLeaf(Replaced(c, t, z, e.h), OnlyChild(e));
  }

  /** The path to the replacement before it is poked in. */
  lemma ReplacementPath(c: Path, t: Tree, z: Path, e: Tree)
    requires NextTo(t, z, e) && NoDup(InOrder(Plug(c, t)))
    ensures var p := c + [FrameOf(t, Deeper(t))] + z;
      Plug(p, e) == Plug(c, t) && Apart(p, e) && Apart(p, Leaf) && NoDup(InOrder(e))
  {
    hide NoDup;
    var f := FrameOf(t, Deeper(t));
    var p := c + [f] + z;
    PlugConcat(c + [f], z, e);
    PlugSnoc(c, f, Plug(z, e));
    PathApart(p, e);
    ApartLeaf(p, e);
  }

  lemma ReplacementOutside(p: Path, e: Tree)
    requires e.Node? && Apart(p, e)
    ensures forall j :: 0 <= j < |p| ==> e.h != p[j].h && e.h !in InOrder(p[j].sib)
  {
    assert e.h in InOrder(e);
  }

  lemma ReplacedIs(c: Path, t: Tree, z: Path, h: Handle)
    requires t.Node?
    ensures var p := c + [FrameOf(t, Deeper(t))] + z;
      && Replaced(c, t, z, h) == p[|c| := p[|c|].(h := h)] && p[|c|].h == t.h
      && Up(p, |c|) == if c == [] then NIL else Last(c).h
  {
  }

  /** Where the climb starts: the last node of the path, or the replacement if it has just taken that place. */
  lemma StartOfClimb(c: Path, t: Tree, z: Path, h: Handle, parent: Handle, cmp: int)
    requires t.Node? && PathEnd(c + [FrameOf(t, Deeper(t))] + z, parent, cmp)
    requires forall i :: 0 <= i < |z| ==> z[i].h != t.h
    ensures PathEnd(Replaced(c, t, z, h), if parent == t.h then h else parent, cmp)
  {
  }

  /** At the bottom of the reversed path the climb can begin. */
  lemma Turn(s: Store, c: Path, q: Handle, x: Tree)
    requires c != [] && HalfReversed(s, c, |c| - 1, q) && Shape(s, q, x)
    ensures Shape(s, Last(c).h, Fill(Last(c), x)) && Reversed(s, Init(c))
    ensures forall i :: 0 <= i < |c| ==> c[i].h != NIL
  {
    var n := |c| - 1;
    assert FrameShape(s, c[n], At(c, n + 1, q));
    forall i | 0 <= i < n
      ensures FrameShape(s, Init(c)[i], Up(Init(c), i))
    {
      assert FrameShape(s, c[i], Up(c, i));
    }
    assert forall i :: 0 <= i < |c| ==> FrameShape(s, c[i], if i < n then Up(c, i) else At(c, i + 1, q));
  }

  // ---------------------------------------------------------------------------------------------
  // Poking in the replacement

  /** Copying the fields of path node `i` to a node `h` from outside, and leading the path there. */
  lemma PathReplace(s: Store, p: Handle, c: Path, q: Handle, i: nat, h: Handle)
    requires PathShape(s, p, c, q) && i < |c| && Apart(c, Leaf)
    requires h in s && h != NIL && forall j :: 0 <= j < |c| ==> h != c[j].h && h !in InOrder(c[j].sib)
    ensures c[i].h in s
    ensures var s1 := s[h := s[c[i].h]]; var c' := c[i := c[i].(h := h)];
      if i == 0 then PathShape(s1, h, c', q)
      else c[i - 1].h in s1 && PathShape(SetChild(s1, c[i - 1].h, c[i - 1].dir, h), p, c', q)
  {
    hide FrameShape;
    PathNode(s, p, c, q, i);
    var s1 := s[h := s[c[i].h]];
    var c' := c[i := c[i].(h := h)];
    PathUpdate(s, h, s[c[i].h], p, c, q);
    assert FrameShape(s1, c[i], At(c, i + 1, q));
    if i == 0 {
      FrameCopy(s1, c[i], At(c, i + 1, q), h);
    } else {
      PathNode(s1, p, c, q, i - 1);
      PathRewrite(s1, p, c, q, i - 1, c[i - 1].bf, h);
      var s2 := SetChild(s1, c[i - 1].h, c[i - 1].dir, h);
      assert SetBf(s2, c[i - 1].h, c[i - 1].bf) == s2;
      CopyKept(s1, c, i, i - 1, h, q);
    }
    var s2 := if i == 0 then s1 else SetChild(s1, c[i - 1].h, c[i - 1].dir, h);
    forall j | 0 <= j < |c|
      ensures FrameShape(s2, c'[j], At(c', j + 1, q))
    {
      assert i > 0 && j == i - 1 ==> c'[j] == c[j].(bf := c[j].bf);
      assert j != i && j != i - 1 ==> FrameShape(s2, c[j], At(c, j + 1, q));
    }
  }

  lemma FrameCopy(s: Store, f: Frame, next: Handle, h: Handle)
    requires FrameShape(s, f, next) && h in s && h != NIL && s[h] == s[f.h]
    ensures FrameShape(s, f.(h := h), next)
  {
  }

  /** The frame of node `h`, a copy of path node `i`, survives the redirection of the link of path node `k`. */
  lemma CopyKept(s: Store, c: Path, i: nat, k: nat, h: Handle, q: Handle)
    requires i < |c| && k < |c| && Apart(c, Leaf) && h != c[k].h && h != NIL
    requires c[k].h in s && h in s && c[i].h in s && s[h] == s[c[i].h]
    requires FrameShape(s, c[i], At(c, i + 1, q))
    ensures FrameShape(SetChild(s, c[k].h, c[k].dir, h), c[i].(h := h), At(c, i + 1, q))
  {
    var s' := SetChild(s, c[k].h, c[k].dir, h);
    assert c[k].h !in InOrder(c[i].sib);
    assert s' == s[c[k].h := s'[c[k].h]];
    ShapeUpdate(s, c[k].h, s'[c[k].h], Child(s, c[i].h, !c[i].dir), c[i].sib);
  }

  // ---------------------------------------------------------------------------------------------
  // Reversed links

  /** Above depth `d` the links along path `c` lead back up to the root, from there on down to handle `q`. */
  ghost predicate HalfReversed(s: Store, c: Path, d: nat, q: Handle) {
    && d <= |c|
    && forall i :: 0 <= i < |c| ==> FrameShape(s, c[i], if i < d then Up(c, i) else At(c, i + 1, q))
  }

  lemma ReverseStep(s: Store, c: Path, d: nat, q: Handle)
    requires HalfReversed(s, c, d, q) && d < |c| && Apart(c, Leaf)
    ensures c[d].h in s && c[d].h != NIL && Child(s, c[d].h, c[d].dir) == At(c, d + 1, q)
    ensures HalfReversed(SetChild(s, c[d].h, c[d].dir, Up(c, d)), c, d + 1, q)
  {
    var h := c[d].h;
    assert FrameShape(s, c[d], At(c, d + 1, q));
    var s' := SetChild(s, h, c[d].dir, Up(c, d));
    assert s' == s[h := s'[h]];
    forall i | 0 <= i < |c|
      ensures FrameShape(s', c[i], if i < d + 1 then Up(c, i) else At(c, i + 1, q))
    {
      if i == d {
        assert h !in InOrder(c[i].sib);
        ShapeUpdate(s, h, s'[h], Child(s, h, !c[d].dir), c[d].sib);
      } else {
        assert h !in InOrder(c[i].sib);
        FrameUpdate(s, h, s'[h], c[i], if i < d then Up(c, i) else At(c, i + 1, q));
      }
    }
  }

  /** The links along path `c` lead back up to the root. */
  ghost predicate Reversed(s: Store, c: Path) {
    forall i :: 0 <= i < |c| ==> FrameShape(s, c[i], Up(c, i))
  }

  lemma ReversedKept(s: Store, s': Store, c: Path, t: Tree)
    requires Reversed(s, c) && Apart(c, t) && OnlyWrote(s, s', InOrder(t))
    ensures Reversed(s', c)
  {
    forall i | 0 <= i < |c|
      ensures FrameShape(s', c[i], Up(c, i))
    {
      ShapeKept(s, s', Child(s, c[i].h, !c[i].dir), c[i].sib);
    }
  }

  /** Restoring the last reversed link, so that it leads to subtree `t` again. */
  lemma RestoreStep(s: Store, c: Path, q: Handle, t: Tree)
    requires c != [] && Reversed(s, c) && Apart(c, t) && Apart(c, Leaf) && Shape(s, q, t)
    ensures Last(c).h in s && Last(c).h != NIL && Child(s, Last(c).h, Last(c).dir) == Up(c, |c| - 1)
    ensures var s' := SetChild(s, Last(c).h, Last(c).dir, q);
      Shape(s', Last(c).h, Fill(Last(c), t)) && Reversed(s', Init(c))
  {
    var n := |c| - 1;
    var f := c[n];
    assert FrameShape(s, f, Up(c, n));
    var s' := SetChild(s, f.h, f.dir, q);
    assert s' == s[f.h := s'[f.h]];
    assert f.h !in InOrder(c[n].sib);
    ShapeUpdate(s, f.h, s'[f.h], Child(s, f.h, !f.dir), f.sib);
    ShapeUpdate(s, f.h, s'[f.h], q, t);
    forall i | 0 <= i < n
      ensures FrameShape(s', Init(c)[i], Up(Init(c), i))
    {
      assert f.h !in InOrder(c[i].sib);
      FrameUpdate(s, f.h, s'[f.h], c[i], Up(c, i));
    }
  }

  /** What is stored at the end of a path is part of the order of the whole. */
  lemma WithinWhole(c: Path, f: Frame, t: Tree)
    requires c != [] && f == Last(c)
    ensures forall x :: x in InOrder(Fill(f, t)) ==> x in InOrder(Plug(c, t))
    ensures Last(c).h in InOrder(Plug(c, t))
  {
    PathInTree(c, t);
    PathInTree(Init(c), Fill(f, t));
  }

  /** One level up in the climb: the order of the whole, and the separation that follows from it, are kept. */
  lemma ClimbApart(c: Path, t: Tree, r: Tree)
    requires c != [] && InOrder(r) == InOrder(Fill(Last(c), t)) && NoDup(InOrder(Plug(c, t)))
    ensures NoDup(InOrder(Plug(Init(c), r))) && InOrder(Plug(Init(c), r)) == InOrder(Plug(c, t))
    ensures Apart(Init(c), r) && Apart(Init(c), Leaf) && NoDup(InOrder(r))
  {
    InOrderPlug(Init(c), r);
    InOrderPlug(Init(c), Fill(Last(c), t));
    PathApart(Init(c), r);
  }

  /** A subtree beside which a path was rewritten is still stored. */
  lemma OffPath(s: Store, s': Store, c: Path, q: Handle, t: Tree)
    requires Shape(s, q, t) && Apart(c, t) && s'.Keys == s.Keys
    requires forall x :: x in s && !OnPath(c, x) ==> s'[x] == s[x]
    ensures Shape(s', q, t)
  {
    ShapeKept(s, s', q, t);
  }

  lemma SubtreeFits(c: Path, t: Tree)
    requires Balanced(Plug(c, t)) && NoDup(InOrder(Plug(c, t)))
    ensures Balanced(t) && NoDup(InOrder(t)) && |c| + Height(t) <= Height(Plug(c, t))
    ensures Apart(c, t) && Apart(c, Leaf)
  {
    BalancedSub(c, t);
    PathApart(c, t);
    ApartLeaf(c, t);
  }

  lemma RootOf(s: Store, p: Handle, t: Tree)
    requires Shape(s, p, t) && t.Node?
    ensures t.h == p && p != NIL && p in s
  {
  }

  lemma FoundNode(key: Handle -> int, s: Store, p: Handle, whole: Tree, c: Path, t: Tree)
    requires Shape(s, p, t) && p != NIL && Plug(c, t) == whole && Sorted(key, InOrder(whole))
    ensures t.Node? && p in InOrder(whole) && NoDup(InOrder(whole))
  {
    RootInTree(c, t);
    SortedNoDup(key, InOrder(whole));
  }

  lemma CutOutDone(key: Handle -> int, whole: Tree, rm: Handle, pos: nat, c: Path, o: Tree, x: Tree)
    requires CutOut(whole, rm, pos, c, o, x) && Sorted(key, InOrder(whole))
    ensures Balanced(Climb(c, x, true)) && Sorted(key, InOrder(Climb(c, x, true)))
    ensures Without(InOrder(whole), InOrder(Climb(c, x, true)), rm, pos)
    ensures forall y :: y in InOrder(Plug(c, x)) ==> y in InOrder(whole)
  {
    hide Balanced, NoDup, Plug, Climb, Apart;
    ClimbHeight(c, o, x, true);
    ClimbOrder(c, x, true);
    WithoutSorted(key, InOrder(whole), InOrder(Plug(c, x)), rm, pos);
    SortedNoDup(key, InOrder(whole));
    WithoutNoDup(InOrder(whole), InOrder(Plug(c, x)), rm, pos);
  }

  /** The nodes on the path, and the one at its end, are not part of what is left below. */
  lemma Bystanders(s: Store, p: Handle, c: Path, q: Handle, o: Tree)
    requires PathShape(s, p, c, q) && Shape(s, q, o) && o.Node? && Apart(c, o) && NoDup(InOrder(o))
    ensures forall i :: 0 <= i < |c| ==> c[i].h !in InOrder(OnlyChild(o)) && c[i].h in InOrder(Plug(c, o))
    ensures o.h !in InOrder(OnlyChild(o)) && o.h in InOrder(Plug(c, o))
    ensures NIL !in InOrder(OnlyChild(o))
  {
    NodeParts(o);
    PathInTree(c, o);
    ShapeStored(s, q, o);
  }

  lemma OneWritten(s: Store, s': Store, q: Handle, t: Tree, h: Handle, o: seq<Handle>)
    requires Shape(s, q, t) && h !in InOrder(t) && (h in s ==> h in o) && s'.Keys == s.Keys
    requires forall x :: x in s && x != h ==> s'[x] == s[x]
    ensures Shape(s', q, t) && OnlyWrote(s, s', o)
  {
    ShapeKept(s, s', q, t);
  }

  lemma TwoWritten(s: Store, s': Store, q: Handle, t: Tree, h: Handle, h': Handle, o: seq<Handle>)
    requires Shape(s, q, t) && h !in InOrder(t) && h' !in InOrder(t) && s'.Keys == s.Keys
    requires (h in s ==> h in o) && (h' in s ==> h' in o)
    requires forall x :: x in s && x != h && x != h' ==> s'[x] == s[x]
    ensures Shape(s', q, t) && OnlyWrote(s, s', o)
  {
    ShapeKept(s, s', q, t);
  }
}
