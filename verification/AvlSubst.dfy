/** Facts about putting one node into the place of another with the same key. */
module AvlSubst {
  import opened Common
  import opened AvlTrees
  import opened AvlStore

  /** Replacing the root of a subtree by a node with the same key: an AVL search tree again, one entry changed. */
  lemma SubstOrder(key: Handle -> int, c: Path, t: Tree, h: Handle)
    requires t.Node? && Balanced(Plug(c, t)) && Sorted(key, InOrder(Plug(c, t))) && key(h) == key(t.h)
    ensures var o := InOrder(Plug(c, t)); var t' := t.(h := h); var pos := |Before(c) + InOrder(t.lt)|;
      && pos < |o| && o[pos] == t.h && InOrder(Plug(c, t')) == o[pos := h]
      && Sorted(key, InOrder(Plug(c, t'))) && Balanced(Plug(c, t'))
  {
    hide Plug, Before, After, Sorted;
    var t', a, b := t.(h := h), Before(c) + InOrder(t.lt), InOrder(t.gt) + After(c);
    RootSwap(c, t, h);
    BalancedSub(c, t);
    BalancedSwap(c, t, t');
    SortedSwap(key, InOrder(Plug(c, t)), |a|, h);
  }

  lemma RootSwap(c: Path, t: Tree, h: Handle)
    requires t.Node?
    ensures var o := InOrder(Plug(c, t)); var pos := |Before(c) + InOrder(t.lt)|;
      pos < |o| && o[pos] == t.h && InOrder(Plug(c, t.(h := h))) == o[pos := h]
  {
    hide Plug, Before, After, InOrder;
    OrderAround(c, t);
    OrderAround(c, t.(h := h));
  }

  lemma SortedSwap(key: Handle -> int, o: seq<Handle>, pos: nat, h: Handle)
    requires Sorted(key, o) && pos < |o| && key(h) == key(o[pos])
    ensures Sorted(key, o[pos := h])
  {
  }

  /** Only a node of that key can be in the tree already, and then it is the node itself. */
  lemma SameKeySameNode(key: Handle -> int, o: seq<Handle>, x: Handle, y: Handle)
    requires Sorted(key, o) && x in o && y in o && key(x) == key(y)
    ensures x == y
  {
  }

  /** The new node, given a copy of the fields of node `h`, is the root of the same subtree. */
  lemma SubstStored(s: Store, p: Handle, c: Path, h: Handle, t: Tree, h': Handle)
    requires PathShape(s, p, c, h) && Shape(s, h, t) && t.Node? && NoDup(InOrder(Plug(c, t)))
    requires h' in s && h' != NIL && (h' == h || h' !in InOrder(Plug(c, t)))
    ensures h in s
    ensures var s1 := s[h' := s[h]]; PathShape(s1, p, c, h) && Shape(s1, h', t.(h := h'))
    ensures c != [] ==> Last(c).h !in InOrder(t.(h := h')) && Last(c).h in InOrder(Plug(c, t))
    ensures NIL !in InOrder(t.(h := h')) && Apart(c, Leaf)
  {
    hide NoDup, Plug;
    PathApart(c, t);
    ApartLeaf(c, t);
    PathInTree(c, t);
    ShapeStored(s, h, t);
    NodeParts(t);
    var t' := t.(h := h');
    assert forall x :: x in InOrder(t') <==> x in InOrder(t.lt) || x == h' || x in InOrder(t.gt);
    var s1 := s[h' := s[h]];
    if h' == h {
      assert s1 == s;
    } else {
      SubstOutside(s, p, c, h, t, h');
    }
  }

  lemma SubstOutside(s: Store, p: Handle, c: Path, h: Handle, t: Tree, h': Handle)
    requires PathShape(s, p, c, h) && Shape(s, h, t) && t.Node?
    requires h' in s && h' != NIL && h' !in InOrder(Plug(c, t))
    ensures h in s && PathShape(s[h' := s[h]], p, c, h) && Shape(s[h' := s[h]], h', t.(h := h'))
  {
    PathInTree(c, t);
    SibsInTree(c, t);
    PathUpdate(s, h', s[h], p, c, h);
    ShapeUpdate(s, h', s[h], s[h].lt, t.lt);
    ShapeUpdate(s, h', s[h], s[h].gt, t.gt);
  }

  lemma {:induction false} SibsInTree(c: Path, t: Tree)
    ensures forall i, x :: 0 <= i < |c| && x in InOrder(c[i].sib) ==> x in InOrder(Plug(c, t))
    decreases |c|
  {
    if c != [] {
      var u := Fill(Last(c), t);
      SibsInTree(Init(c), u);
      PathInTree(Init(c), u);
      assert InOrder(u) == InOrder(u.lt) + [u.h] + InOrder(u.gt);
      assert forall i :: 0 <= i < |c| - 1 ==> c[i] == Init(c)[i];
    }
  }
}
