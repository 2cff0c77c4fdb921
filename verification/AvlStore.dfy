/** The fields the abstractor keeps in each node, addressed by handle, and what it means for them to hold a tree. */
module AvlStore {
  import opened Common
  import opened AvlTrees

  datatype Cell = Cell(lt: Handle, gt: Handle, bf: int)

  /** Handle to node fields.  A handle outside the domain stands for storage that is not there. */
  type Store = map<Handle, Cell>

  function SetLt(s: Store, h: Handle, x: Handle): Store
    requires h in s
  {
    s[h := s[h].(lt := x)]
  }

  function SetGt(s: Store, h: Handle, x: Handle): Store
    requires h in s
  {
    s[h := s[h].(gt := x)]
  }

  function SetBf(s: Store, h: Handle, b: int): Store
    requires h in s
  {
    s[h := s[h].(bf := b)]
  }

  function Child(s: Store, h: Handle, dir: bool): Handle
    requires h in s
  {
    if dir then s[h].gt else s[h].lt
  }

  function SetChild(s: Store, h: Handle, dir: bool, x: Handle): Store
    requires h in s
  {
    if dir then SetGt(s, h, x) else SetLt(s, h, x)
  }

  /** The subtree rooted at handle `p` is stored exactly as `t`: handles, links and balance factors. */
  ghost predicate Shape(s: Store, p: Handle, t: Tree)
    decreases t
  {
    match t
    case Leaf => p == NIL
    case Node(l, h, b, r) =>
      p == h && h != NIL && h in s && s[h].bf == b && Shape(s, s[h].lt, l) && Shape(s, s[h].gt, r)
  }

  lemma {:induction false} ShapeFrame(s: Store, s': Store, p: Handle, t: Tree)
    requires Shape(s, p, t)
    requires forall x :: x in InOrder(t) ==> x in s && x in s' && s'[x] == s[x]
    ensures Shape(s', p, t)
    decreases t
  {
    match t
    case Leaf =>
    case Node(l, h, _, r) =>
      var o := InOrder(t);
      assert forall x :: x in InOrder(l) || x == h || x in InOrder(r) ==> x in o;
      ShapeFrame(s, s', s[p].lt, l);
      ShapeFrame(s, s', s[p].gt, r);
  }

  lemma {:induction false} ShapeStored(s: Store, p: Handle, t: Tree)
    requires Shape(s, p, t)
    ensures forall x :: x in InOrder(t) ==> x in s && x != NIL
    decreases t
  {
    if t.Node? {
      ShapeStored(s, s[p].lt, t.lt);
      ShapeStored(s, s[p].gt, t.gt);
    }
  }

  /** Writing one node leaves every tree it does not belong to as it was. */
  lemma ShapeUpdate(s: Store, h: Handle, n: Cell, p: Handle, t: Tree)
    requires Shape(s, p, t) && h !in InOrder(t)
    ensures Shape(s[h := n], p, t)
  {
    ShapeStored(s, p, t);
    ShapeFrame(s, s[h := n], p, t);
  }

  /** A tree none of whose nodes was written is still stored. */
  lemma ShapeKept(s: Store, s': Store, p: Handle, t: Tree)
    requires Shape(s, p, t) && s'.Keys == s.Keys
    requires forall x :: x in s && x in InOrder(t) ==> s'[x] == s[x]
    ensures Shape(s', p, t)
  {
    ShapeStored(s, p, t);
    ShapeFrame(s, s', p, t);
  }

  function HandleOf(t: Tree): Handle {
    if t == Leaf then NIL else t.h
  }

  /** The fields that hold a tree. */
  function StoreOf(t: Tree): Store {
    match t
    case Leaf => map[]
    case Node(l, h, b, r) => (StoreOf(l) + StoreOf(r))[h := Cell(HandleOf(l), HandleOf(r), b)]
  }

  /** A tree whose nodes have different handles can be stored. */
  lemma {:induction false} Storable(t: Tree)
    requires NoDup(InOrder(t)) && NIL !in InOrder(t)
    ensures Shape(StoreOf(t), HandleOf(t), t) && forall x :: x in StoreOf(t) <==> x in InOrder(t)
  {
    if t.Node? {
      NodeParts(t);
      Storable(t.lt);
      Storable(t.gt);
      ShapeFrame(StoreOf(t.lt), StoreOf(t), HandleOf(t.lt), t.lt);
      ShapeFrame(StoreOf(t.gt), StoreOf(t), HandleOf(t.gt), t.gt);
    }
  }

  /** A tree is still stored when at most one node was written and that one is not part of it. */
  lemma ShapeKeptBut(s: Store, s': Store, p: Handle, t: Tree, h: Handle)
    requires Shape(s, p, t) && h !in InOrder(t) && s'.Keys == s.Keys
    requires forall x :: x in s && x != h ==> s'[x] == s[x]
    ensures Shape(s', p, t)
  {
    ShapeKept(s, s', p, t);
  }

  /** Three nodes were rewritten to hold four subtrees, stored as before, in the shape of `r`. */
  lemma Assemble(s: Store, s': Store, r: Tree)
    requires r.Node? && r.lt.Node? && r.gt.Node? && s'.Keys == s.Keys
    requires forall x :: x in {r.lt.h, r.h, r.gt.h} ==>
      (&& x in s && x != NIL
       && x !in InOrder(r.lt.lt) && x !in InOrder(r.lt.gt) && x !in InOrder(r.gt.lt) && x !in InOrder(r.gt.gt))
    requires forall x :: x in s && x !in {r.lt.h, r.h, r.gt.h} ==> s'[x] == s[x]
    requires s'[r.h] == Cell(r.lt.h, r.gt.h, r.bf)
    requires s'[r.lt.h].bf == r.lt.bf && s'[r.gt.h].bf == r.gt.bf
    requires Shape(s, s'[r.lt.h].lt, r.lt.lt) && Shape(s, s'[r.lt.h].gt, r.lt.gt)
    requires Shape(s, s'[r.gt.h].lt, r.gt.lt) && Shape(s, s'[r.gt.h].gt, r.gt.gt)
    ensures Shape(s', r.h, r)
  {
    var x, z := r.lt.h, r.gt.h;
    ShapeKept(s, s', s'[x].lt, r.lt.lt);
    ShapeKept(s, s', s'[x].gt, r.lt.gt);
    ShapeKept(s, s', s'[z].lt, r.gt.lt);
    ShapeKept(s, s', s'[z].gt, r.gt.gt);
    assert Shape(s', x, r.lt) && Shape(s', z, r.gt);
  }

  lemma OpenNode(s: Store, p: Handle, t: Tree)
    requires Shape(s, p, t) && t.Node?
    ensures p == t.h && p in s && p != NIL && s[p].bf == t.bf
    ensures Shape(s, s[p].lt, t.lt) && Shape(s, s[p].gt, t.gt)
    ensures (t.lt.Node? ==> s[p].lt == t.lt.h) && (t.gt.Node? ==> s[p].gt == t.gt.h)
  {
  }

  lemma CloseNode(s: Store, p: Handle, t: Tree)
    requires t.Node? && p == t.h && p in s && p != NIL && s[p].bf == t.bf
    requires Shape(s, s[p].lt, t.lt) && Shape(s, s[p].gt, t.gt)
    ensures Shape(s, p, t)
  {
  }

  /** What a root handle stands for is determined by the store. */
  lemma {:induction false} ShapeUnique(s: Store, p: Handle, t: Tree, u: Tree)
    requires Shape(s, p, t) && Shape(s, p, u)
    ensures t == u
    decreases t
  {
    if t.Node? && u.Node? {
      ShapeUnique(s, s[p].lt, t.lt, u.lt);
      ShapeUnique(s, s[p].gt, t.gt, u.gt);
    }
  }

  /** Between `s` and `s'` only nodes listed in `o` may have been written. */
  ghost predicate OnlyWrote(s: Store, s': Store, o: seq<Handle>) {
    s'.Keys == s.Keys && SameOutside(s, s', o)
  }

  lemma SameWrite(s: Store, h: Handle, n: Cell, o: seq<Handle>)
    requires h in s && h in o
    ensures OnlyWrote(s, s[h := n], o)
  {
  }

  lemma SameRefl(s: Store, o: seq<Handle>)
    ensures OnlyWrote(s, s, o)
  {
  }

  lemma SameWiden(s: Store, s': Store, o: seq<Handle>, o': seq<Handle>)
    requires OnlyWrote(s, s', o) && forall x :: x in o ==> x in o'
    ensures OnlyWrote(s, s', o')
  {
  }

  lemma SameTrans(s: Store, s1: Store, s2: Store, o: seq<Handle>)
    requires OnlyWrote(s, s1, o) && OnlyWrote(s1, s2, o)
    ensures OnlyWrote(s, s2, o)
  {
  }

  // ---------------------------------------------------------------------------------------------
  // Stored paths

  /** The handle at depth `i` on path `c`, which ends at handle `q`. */
  function At(c: Path, i: nat, q: Handle): Handle
    requires i <= |c|
  {
    if i < |c| then c[i].h else q
  }

  ghost predicate FrameShape(s: Store, f: Frame, next: Handle) {
    && f.h != NIL && f.h in s && s[f.h].bf == f.bf
    && Child(s, f.h, f.dir) == next
    && Shape(s, Child(s, f.h, !f.dir), f.sib)
  }

  /** Path `c` is stored, starting at handle `p` and leading to handle `q`. */
  ghost predicate PathShape(s: Store, p: Handle, c: Path, q: Handle) {
    && p == At(c, 0, q)
    && forall i :: 0 <= i < |c| ==> FrameShape(s, c[i], At(c, i + 1, q))
  }

  lemma PathNode(s: Store, p: Handle, c: Path, q: Handle, i: nat)
    requires PathShape(s, p, c, q) && i < |c|
    ensures c[i].h in s && c[i].h != NIL && s[c[i].h].bf == c[i].bf
    ensures Child(s, c[i].h, c[i].dir) == At(c, i + 1, q)
  {
    assert FrameShape(s, c[i], At(c, i + 1, q));
  }

  lemma ShapeFill(s: Store, f: Frame, next: Handle, t: Tree)
    requires FrameShape(s, f, next) && Shape(s, next, t)
    ensures Shape(s, f.h, Fill(f, t))
  {
  }

  lemma PathStart(s: Store, p: Handle, c: Path, q: Handle)
    requires PathShape(s, p, c, q)
    ensures p == At(c, 0, q)
  {
  }

  lemma PathNodes(s: Store, p: Handle, c: Path, q: Handle)
    requires PathShape(s, p, c, q)
    ensures forall i :: 0 <= i < |c| ==> c[i].h != NIL
  {
    forall i | 0 <= i < |c|
      ensures c[i].h != NIL
    {
      PathNode(s, p, c, q, i);
    }
  }

  /** Walking one step further down. */
  lemma PathStep(s: Store, p: Handle, c: Path, q: Handle, t: Tree, dir: bool)
    requires PathShape(s, p, c, q) && Shape(s, q, t) && t.Node?
    ensures PathShape(s, p, c + [FrameOf(t, dir)], Child(s, q, dir))
    ensures Shape(s, Child(s, q, dir), Branch(t, dir))
  {
    var f := FrameOf(t, dir);
    var c' := c + [f];
    var q' := Child(s, q, dir);
    forall i | 0 <= i < |c'|
      ensures FrameShape(s, c'[i], At(c', i + 1, q'))
    {
      if i < |c| {
        assert c'[i] == c[i] && At(c', i + 1, q') == At(c, i + 1, q);
      }
    }
  }

  /** Whatever happens inside the subtree at its end, the path to it is still stored. */
  lemma PathKept(s: Store, s': Store, p: Handle, c: Path, q: Handle, t: Tree)
    requires PathShape(s, p, c, q) && Apart(c, t) && s'.Keys == s.Keys
    requires forall x :: x in s && x !in InOrder(t) ==> s'[x] == s[x]
    ensures PathShape(s', p, c, q)
  {
    forall i | 0 <= i < |c|
      ensures FrameShape(s', c[i], At(c, i + 1, q))
    {
      ShapeKept(s, s', Child(s, c[i].h, !c[i].dir), c[i].sib);
    }
  }

  /** A stored path with a stored tree at its end is the whole tree, stored. */
  lemma {:induction false} PathPlug(s: Store, p: Handle, c: Path, q: Handle, t: Tree)
    requires PathShape(s, p, c, q) && Shape(s, q, t)
    ensures Shape(s, p, Plug(c, t))
    decreases |c|
  {
    if c != [] {
      var f := Last(c);
      assert FrameShape(s, c[|c| - 1], q);
      assert Shape(s, f.h, Fill(f, t));
      forall i | 0 <= i < |c| - 1
        ensures FrameShape(s, Init(c)[i], At(Init(c), i + 1, f.h))
      {
        assert FrameShape(s, c[i], At(c, i + 1, q));
      }
      PathPlug(s, p, Init(c), f.h, Fill(f, t));
    }
  }

  lemma PathSplit(s: Store, p: Handle, c: Path, q: Handle, u: nat)
    requires PathShape(s, p, c, q) && u <= |c|
    ensures PathShape(s, p, c[..u], At(c, u, q))
    ensures PathShape(s, At(c, u, q), c[u..], q)
  {
    var m := At(c, u, q);
    forall i | 0 <= i < u
      ensures FrameShape(s, c[..u][i], At(c[..u], i + 1, m))
    {
      assert c[..u][i] == c[i] && At(c[..u], i + 1, m) == At(c, i + 1, q);
    }
    forall i | 0 <= i < |c| - u
      ensures FrameShape(s, c[u..][i], At(c[u..], i + 1, q))
    {
      assert c[u..][i] == c[u + i] && At(c[u..], i + 1, q) == At(c, u + i + 1, q);
    }
  }

  lemma FrameUpdate(s: Store, h: Handle, n: Cell, f: Frame, next: Handle)
    requires FrameShape(s, f, next) && h != f.h && h !in InOrder(f.sib)
    ensures FrameShape(s[h := n], f, next)
  {
    ShapeUpdate(s, h, n, Child(s, f.h, !f.dir), f.sib);
  }

  /** Writing one node leaves every path it does not lie on or beside as it was. */
  lemma PathUpdate(s: Store, h: Handle, n: Cell, p: Handle, c: Path, q: Handle)
    requires PathShape(s, p, c, q)
    requires forall i :: 0 <= i < |c| ==> h != c[i].h && h !in InOrder(c[i].sib)
    ensures PathShape(s[h := n], p, c, q)
  {
    forall i | 0 <= i < |c|
      ensures FrameShape(s[h := n], c[i], At(c, i + 1, q))
    {
      FrameUpdate(s, h, n, c[i], At(c, i + 1, q));
    }
  }

  /** Rewriting one node of the path: its balance factor and the handle the path continues with. */
  lemma PathRewrite(s: Store, p: Handle, c: Path, q: Handle, i: nat, b: int, next: Handle)
    requires PathShape(s, p, c, q) && i < |c| && Apart(c, Leaf)
    ensures c[i].h in s
    ensures var s' := SetBf(SetChild(s, c[i].h, c[i].dir, next), c[i].h, b);
      && FrameShape(s', c[i].(bf := b), next)
      && forall j :: 0 <= j < |c| && j != i ==> FrameShape(s', c[j], At(c, j + 1, q))
  {
    var h := c[i].h;
    assert FrameShape(s, c[i], At(c, i + 1, q));
    var s' := SetBf(SetChild(s, h, c[i].dir, next), h, b);
    assert s' == s[h := s'[h]];
    ShapeUpdate(s, h, s'[h], Child(s, h, !c[i].dir), c[i].sib);
    forall j | 0 <= j < |c| && j != i
      ensures FrameShape(s', c[j], At(c, j + 1, q))
    {
      FrameUpdate(s, h, s'[h], c[j], At(c, j + 1, q));
    }
  }

  /** Storing a new balance factor in one node of the path. */
  lemma PathSetBf(s: Store, p: Handle, c: Path, q: Handle, i: nat, b: int)
    requires PathShape(s, p, c, q) && i < |c| && Apart(c, Leaf)
    ensures c[i].h in s
    ensures PathShape(SetBf(s, c[i].h, b), p, c[i := c[i].(bf := b)], q)
  {
    assert FrameShape(s, c[i], At(c, i + 1, q));
    PathRewrite(s, p, c, q, i, b, At(c, i + 1, q));
    var s' := SetBf(s, c[i].h, b);
    assert SetBf(SetChild(s, c[i].h, c[i].dir, At(c, i + 1, q)), c[i].h, b) == s';
    hide FrameShape, SetBf, SetChild, Apart;
    var c' := c[i := c[i].(bf := b)];
    forall j | 0 <= j < |c|
      ensures FrameShape(s', c'[j], At(c', j + 1, q))
    {
      assert At(c', j + 1, q) == At(c, j + 1, q);
      assert j != i ==> c'[j] == c[j];
    }
  }

  /** Redirecting the last link of the path. */
  lemma PathSetEnd(s: Store, p: Handle, c: Path, q: Handle, q': Handle)
    requires PathShape(s, p, c, q) && c != [] && Apart(c, Leaf)
    ensures Last(c).h in s
    ensures PathShape(SetChild(s, Last(c).h, Last(c).dir, q'), p, c, q')
  {
    var f := Last(c);
    assert FrameShape(s, c[|c| - 1], q);
    PathRewrite(s, p, c, q, |c| - 1, f.bf, q');
    var s' := SetBf(SetChild(s, f.h, f.dir, q'), f.h, f.bf);
    assert s' == SetChild(s, f.h, f.dir, q');
  }
}
