/** The mathematical side of the AVL tree: trees of node handles, paths into them, the rotation that
    `balance` performs, and what one step of repair does to a path.  Nothing here touches storage. */
module AvlTrees {
  import opened Common

  /** The shape of a (sub)tree: each node is its handle, the balance factor stored in it, and its two subtrees. */
  datatype Tree = Leaf | Node(lt: Tree, h: Handle, bf: int, gt: Tree)

  function Max(a: nat, b: nat): nat {
    if a < b then b else a
  }

  /** Depth counted in nodes: 0 for the empty tree. */
  function Height(t: Tree): nat {
    match t
    case Leaf => 0
    case Node(l, _, _, r) => 1 + Max(Height(l), Height(r))
  }

  function InOrder(t: Tree): seq<Handle> {
    match t
    case Leaf => []
    case Node(l, h, _, r) => InOrder(l) + [h] + InOrder(r)
  }

  /** Every stored balance factor is exact (depth of the greater minus depth of the less subtree) and in AVL range. */
  predicate Balanced(t: Tree) {
    match t
    case Leaf => true
    case Node(l, _, b, r) => Balanced(l) && Balanced(r) && b == Height(r) - Height(l) && -1 <= b <= 1
  }

  lemma HeightNode(t: Tree)
    requires t.Node?
    ensures Height(t) > 0
  {
  }

  /** The search tree order: keys strictly increase along the in-order sequence. */
  ghost predicate Sorted(key: Handle -> int, s: seq<Handle>) {
    forall i, j :: 0 <= i < j < |s| ==> key(s[i]) < key(s[j])
  }

  // ---------------------------------------------------------------------------------------------
  // Paths: the nodes passed on the way down, root first, each with the subtree not entered.

  /** One step down: at node `h` the greater (`dir`) or the less branch was taken; `sib` is the other subtree. */
  datatype Frame = Frame(dir: bool, h: Handle, bf: int, sib: Tree)

  type Path = seq<Frame>

  function Fill(f: Frame, t: Tree): Tree {
    if f.dir then Node(f.sib, f.h, f.bf, t) else Node(t, f.h, f.bf, f.sib)
  }

  function Init<T>(s: seq<T>): seq<T>
    requires s != []
  {
    s[..|s| - 1]
  }

  function Last<T>(s: seq<T>): T
    requires s != []
  {
    s[|s| - 1]
  }

  /** The whole tree, given the path to a spot and the subtree at that spot. */
  function Plug(c: Path, t: Tree): Tree
    decreases |c|
  {
    if c == [] then t else Plug(Init(c), Fill(Last(c), t))
  }

  /** The handles in order before, and after, the spot a path leads to. */
  function Before(c: Path): seq<Handle>
    decreases |c|
  {
    if c == [] then []
    else Before(Init(c)) + (if Last(c).dir then InOrder(Last(c).sib) + [Last(c).h] else [])
  }

  function After(c: Path): seq<Handle>
    decreases |c|
  {
    if c == [] then []
    else (if Last(c).dir then [] else [Last(c).h] + InOrder(Last(c).sib)) + After(Init(c))
  }

  function Dirs(c: Path): seq<bool> {
    seq(|c|, i requires 0 <= i < |c| => c[i].dir)
  }

  lemma ShorterPath(c: Path, d: nat)
    requires 0 < d <= |c|
    ensures Init(c[..d]) == c[..d - 1] && Last(c[..d]) == c[d - 1]
  {
  }

  lemma PlugSnoc(c: Path, f: Frame, t: Tree)
    ensures Plug(c + [f], t) == Plug(c, Fill(f, t))
    ensures Before(c + [f]) == Before(c) + (if f.dir then InOrder(f.sib) + [f.h] else [])
    ensures After(c + [f]) == (if f.dir then [] else [f.h] + InOrder(f.sib)) + After(c)
    ensures Dirs(c + [f]) == Dirs(c) + [f.dir]
  {
    assert Init(c + [f]) == c;
  }

  /** The frame left behind when branch `dir` is taken at the root of `t`. */
  function FrameOf(t: Tree, dir: bool): Frame
    requires t.Node?
  {
    Frame(dir, t.h, t.bf, if dir then t.lt else t.gt)
  }

  function Branch(t: Tree, dir: bool): Tree
    requires t.Node?
  {
    if dir then t.gt else t.lt
  }

  lemma PlugStep(c: Path, t: Tree, dir: bool)
    requires t.Node?
    ensures Plug(c + [FrameOf(t, dir)], Branch(t, dir)) == Plug(c, t)
    ensures Before(c + [FrameOf(t, dir)]) == Before(c) + (if dir then InOrder(t.lt) + [t.h] else [])
    ensures After(c + [FrameOf(t, dir)]) == (if dir then [] else [t.h] + InOrder(t.gt)) + After(c)
  {
    PlugSnoc(c, FrameOf(t, dir), Branch(t, dir));
  }

  lemma Associate<T>(a: seq<T>, b: seq<T>, c: seq<T>)
    ensures a + (b + c) == (a + b) + c
  {
  }

  lemma {:induction false} PlugConcat(a: Path, b: Path, t: Tree)
    ensures Plug(a + b, t) == Plug(a, Plug(b, t))
    ensures Before(a + b) == Before(a) + Before(b)
    ensures After(a + b) == After(b) + After(a)
    decreases |b|
  {
    if b == [] {
      assert a + b == a;
    } else {
      hide InOrder, Fill;
      var f := Last(b);
      assert a + b == (a + Init(b)) + [f];
      PlugSnoc(a + Init(b), f, t);
      PlugConcat(a, Init(b), Fill(f, t));
      Associate(Before(a), Before(Init(b)), if f.dir then InOrder(f.sib) + [f.h] else []);
      Associate(if f.dir then [] else [f.h] + InOrder(f.sib), After(Init(b)), After(a));
    }
  }

  lemma {:induction false} InOrderPlug(c: Path, t: Tree)
    ensures InOrder(Plug(c, t)) == Before(c) + InOrder(t) + After(c)
    decreases |c|
  {
    if c != [] {
      InOrderPlug(Init(c), Fill(Last(c), t));
    }
  }

  lemma OrderAround(c: Path, t: Tree)
    requires t.Node?
    ensures InOrder(Plug(c, t)) == Before(c) + InOrder(t.lt) + [t.h] + (InOrder(t.gt) + After(c))
  {
    InOrderPlug(c, t);
  }

  /** A subtree of a balanced tree is balanced, and no higher than the tree. */
  lemma {:induction false} BalancedSub(c: Path, t: Tree)
    requires Balanced(Plug(c, t))
    ensures Balanced(t)
    ensures Height(t) + |c| <= Height(Plug(c, t))
    decreases |c|
  {
    if c != [] {
      BalancedSub(Init(c), Fill(Last(c), t));
    }
  }

  /** A balanced subtree may be replaced by another one of the same height without touching anything above it. */
  lemma {:induction false} BalancedSwap(c: Path, t: Tree, t': Tree)
    requires Balanced(Plug(c, t)) && Balanced(t') && Height(t') == Height(t)
    ensures Balanced(Plug(c, t')) && Height(Plug(c, t')) == Height(Plug(c, t))
    decreases |c|
  {
    if c != [] {
      BalancedSub(Init(c), Fill(Last(c), t));
      BalancedSwap(Init(c), Fill(Last(c), t), Fill(Last(c), t'));
    }
  }

  // ---------------------------------------------------------------------------------------------
  // Distinctness

  /** The nodes of the path, of the subtrees beside it and of the subtree at its end are kept apart. */
  ghost predicate Apart(c: Path, t: Tree) {
    && (forall i :: 0 <= i < |c| ==> c[i].h !in InOrder(t))
    && (forall i, x :: 0 <= i < |c| && x in InOrder(c[i].sib) ==> x !in InOrder(t))
    && (forall i, j :: 0 <= i < j < |c| ==> c[i].h != c[j].h)
    && (forall i, j {:trigger c[i].h in InOrder(c[j].sib)} ::
          0 <= i < |c| && 0 <= j < |c| ==> c[i].h !in InOrder(c[j].sib))
  }

  lemma ApartLeaf(c: Path, t: Tree)
    requires Apart(c, t)
    ensures Apart(c, Leaf)
  {
  }

  lemma NoDupNode(l: Tree, h: Handle, b: int, r: Tree)
    requires NoDup(InOrder(Node(l, h, b, r)))
    ensures NoDup(InOrder(l)) && NoDup(InOrder(r))
    ensures h !in InOrder(l) && h !in InOrder(r)
    ensures forall x :: x in InOrder(l) ==> x !in InOrder(r)
  {
    NoDupParts(InOrder(l) + [h], InOrder(r));
    NoDupParts(InOrder(l), [h]);
    assert h in InOrder(l) + [h];
    assert h in [h];
  }

  lemma NodeParts(t: Tree)
    requires t.Node? && NoDup(InOrder(t))
    ensures NoDup(InOrder(t.lt)) && NoDup(InOrder(t.gt))
    ensures t.h !in InOrder(t.lt) && t.h !in InOrder(t.gt)
    ensures forall x :: x in InOrder(t.lt) ==> x !in InOrder(t.gt)
    ensures forall x :: x in InOrder(t) <==> x in InOrder(t.lt) || x == t.h || x in InOrder(t.gt)
  {
    NoDupNode(t.lt, t.h, t.bf, t.gt);
  }

  lemma {:induction false} PathApart(c: Path, t: Tree)
    requires NoDup(InOrder(Plug(c, t)))
    ensures NoDup(InOrder(t)) && Apart(c, t)
    decreases |c|
  {
    if c != [] {
      var f := Last(c);
      var u := Fill(f, t);
      PathApart(Init(c), u);
      NoDupNode(u.lt, u.h, u.bf, u.gt);
      assert forall x :: x in InOrder(u) <==> x in InOrder(t) || x == f.h || x in InOrder(f.sib);
      forall i, j | 0 <= i < |c| && 0 <= j < |c|
        ensures c[i].h !in InOrder(c[j].sib)
      {
        assert i < |c| - 1 ==> c[i] == Init(c)[i];
        assert j < |c| - 1 ==> c[j] == Init(c)[j];
        assert f.h in InOrder(u);
      }
      forall i, x | 0 <= i < |c| && x in InOrder(c[i].sib)
        ensures x !in InOrder(t)
      {
        assert i < |c| - 1 ==> c[i] == Init(c)[i];
      }
      forall i | 0 <= i < |c|
        ensures c[i].h !in InOrder(t) && (i < |c| - 1 ==> c[i].h != f.h)
      {
        assert i < |c| - 1 ==> c[i] == Init(c)[i];
      }
    }
  }

  /** What lies on the path, beside it or at its end is in the tree. */
  lemma {:induction false} PathInTree(c: Path, t: Tree)
    ensures forall i :: 0 <= i < |c| ==> c[i].h in InOrder(Plug(c, t))
    ensures forall x :: x in InOrder(t) ==> x in InOrder(Plug(c, t))
    decreases |c|
  {
    if c != [] {
      var u := Fill(Last(c), t);
      PathInTree(Init(c), u);
      assert InOrder(u) == InOrder(u.lt) + [u.h] + InOrder(u.gt);
      assert u.h in InOrder(u);
      assert forall i :: 0 <= i < |c| - 1 ==> c[i] == Init(c)[i];
    }
  }

  lemma SortedNoDup(key: Handle -> int, s: seq<Handle>)
    requires Sorted(key, s)
    ensures NoDup(s)
  {
  }

  // ---------------------------------------------------------------------------------------------
  // Rotation

  /** The subtrees that the rotation at `t` takes apart are there. */
  predicate CanRebalance(t: Tree) {
    && t.Node?
    && (if t.bf > 0 then t.gt.Node? && (t.gt.bf < 0 ==> t.gt.lt.Node?)
        else t.lt.Node? && (t.lt.bf > 0 ==> t.lt.gt.Node?))
  }

  /** The single or double rotation chosen by the stored balance factors (nothing, where there is nothing to rotate). */
  function Rebalance(t: Tree): Tree {
    if !CanRebalance(t) then
      t
    else if t.bf > 0 then
      var d := t.gt;
      if d.bf < 0 then
        var n := d.lt;
        Node(Node(t.lt, t.h, if n.bf > 0 then -1 else 0, n.lt), n.h, 0,
             Node(n.gt, d.h, if n.bf < 0 then 1 else 0, d.gt))
      else if d.bf == 0 then
        Node(Node(t.lt, t.h, 1, d.lt), d.h, -1, d.gt)
      else
        Node(Node(t.lt, t.h, 0, d.lt), d.h, 0, d.gt)
    else
      var d := t.lt;
      if d.bf > 0 then
        var n := d.gt;
        Node(Node(d.lt, d.h, if n.bf > 0 then -1 else 0, n.lt), n.h, 0,
             Node(n.gt, t.h, if n.bf < 0 then 1 else 0, t.gt))
      else if d.bf == 0 then
        Node(d.lt, d.h, 1, Node(d.gt, t.h, -1, t.gt))
      else
        Node(d.lt, d.h, 0, Node(d.gt, t.h, 0, t.gt))
  }

  /** A node one step out of AVL range: its stored factor is still the old one, its subtrees now differ by two. */
  predicate OneStepOut(t: Tree) {
    && t.Node? && (t.bf == 1 || t.bf == -1)
    && Balanced(t.lt) && Balanced(t.gt)
    && Height(t.gt) - Height(t.lt) == 2 * t.bf
  }

  lemma Reassociate<T>(a: seq<T>, x: seq<T>, b: seq<T>, y: seq<T>, c: seq<T>)
    ensures (a + x + b) + y + c == a + x + (b + y + c)
  {
  }

  lemma ReassociateTwice<T>(a: seq<T>, x: seq<T>, b: seq<T>, y: seq<T>, c: seq<T>, z: seq<T>, d: seq<T>)
    ensures (a + x + (b + y + c)) + z + d == (a + x + b) + y + (c + z + d)
    ensures a + x + ((b + y + c) + z + d) == (a + x + b) + y + (c + z + d)
  {
    Reassociate(a, x, b, y, c);
    Reassociate(a + x + b, y, c, z, d);
    Reassociate(b, y, c, z, d);
    Reassociate(a, x, b, y, c + z + d);
  }

  lemma RebalanceOrder(t: Tree)
    requires CanRebalance(t)
    ensures InOrder(Rebalance(t)) == InOrder(t)
  {
    if t.bf > 0 {
      var d := t.gt;
      if d.bf < 0 {
        var n := d.lt;
        ReassociateTwice(InOrder(t.lt), [t.h], InOrder(n.lt), [n.h], InOrder(n.gt), [d.h], InOrder(d.gt));
        assert InOrder(d) == (InOrder(n.lt) + [n.h] + InOrder(n.gt)) + [d.h] + InOrder(d.gt);
      } else {
        Reassociate(InOrder(t.lt), [t.h], InOrder(d.lt), [d.h], InOrder(d.gt));
      }
    } else {
      var d := t.lt;
      if d.bf > 0 {
        var n := d.gt;
        ReassociateTwice(InOrder(d.lt), [d.h], InOrder(n.lt), [n.h], InOrder(n.gt), [t.h], InOrder(t.gt));
        assert InOrder(d) == InOrder(d.lt) + [d.h] + (InOrder(n.lt) + [n.h] + InOrder(n.gt));
      } else {
        Reassociate(InOrder(d.lt), [d.h], InOrder(d.gt), [t.h], InOrder(t.gt));
      }
    }
  }

  /** `r` is balanced and has one level less than `t` exactly when its own factor is 0. */
  predicate LevelLostIffZero(t: Tree, r: Tree) {
    && r.Node? && Balanced(r)
    && Height(r) == Height(t) - (if r.bf == 0 then 1 else 0)
  }

  lemma RebalanceGreater(t: Tree)
    requires OneStepOut(t) && t.bf > 0
    ensures CanRebalance(t) && LevelLostIffZero(t, Rebalance(t))
    ensures Rebalance(t).bf == 0 <==> t.gt.bf != 0
  {
    var d := t.gt;
    assert Balanced(d.lt) && Balanced(d.gt);
    if d.bf < 0 {
      assert d.lt.Node?;
      assert Balanced(Rebalance(t).lt) && Balanced(Rebalance(t).gt);
    } else {
      assert Balanced(Rebalance(t).lt);
    }
  }

  lemma RebalanceLess(t: Tree)
    requires OneStepOut(t) && t.bf < 0
    ensures CanRebalance(t) && LevelLostIffZero(t, Rebalance(t))
    ensures Rebalance(t).bf == 0 <==> t.lt.bf != 0
  {
    var d := t.lt;
    assert Balanced(d.lt) && Balanced(d.gt);
    if d.bf > 0 {
      assert d.gt.Node?;
      assert Balanced(Rebalance(t).lt) && Balanced(Rebalance(t).gt);
    } else {
      assert Balanced(Rebalance(t).gt);
    }
  }

  /** What `balance` achieves: order kept, AVL again, and the new root has factor 0 exactly when a level was lost
      (which is so unless the deeper child itself had factor 0). */
  lemma RebalanceCorrect(t: Tree)
    requires OneStepOut(t)
    ensures CanRebalance(t) && LevelLostIffZero(t, Rebalance(t))
    ensures InOrder(Rebalance(t)) == InOrder(t)
    ensures Rebalance(t).bf == 0 <==> (if t.bf > 0 then t.gt.bf else t.lt.bf) != 0
  {
    if t.bf > 0 {
      RebalanceGreater(t);
    } else {
      RebalanceLess(t);
    }
    RebalanceOrder(t);
  }
}
