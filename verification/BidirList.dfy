/** Doubly-linked intrusive list, whose two directions are alike. */
module BidirList {
  import opened Common
  import opened Lists

  /** The two links of all elements. */
  class Links {
    var forwards: map<Handle, Handle>
    var backwards: map<Handle, Handle>

    constructor ()
      ensures forwards == backwards == map[]
    {
      forwards, backwards := map[], map[];
    }

    function Of(isForward: bool): map<Handle, Handle>
      reads this
    {
      if isForward then forwards else backwards
    }

    method Set(h: Handle, l: Handle, isForward: bool)
      modifies this
      ensures Of(isForward) == old(Of(isForward))[h := l] && Of(!isForward) == old(Of(!isForward))
    {
      if isForward {
        forwards := forwards[h := l];
      } else {
        backwards := backwards[h := l];
      }
    }
  }

  /** The elements in one direction, and the same in the other. */
  ghost predicate Mirrored(s: seq<Handle>, t: seq<Handle>) {
    |t| == |s| && forall i: nat :: i < |s| ==> t[i] == s[|s| - 1 - i]
  }

  lemma DirectedMirrored(s: seq<Handle>, d: bool)
    ensures Mirrored(Directed(s, d), Directed(s, !d))
  {
  }

  lemma DirectedTwice(s: seq<Handle>, d: bool)
    ensures Directed(Directed(s, d), d) == s
  {
  }

  lemma MirroredDirected(s: seq<Handle>, t: seq<Handle>, d: bool)
    requires Mirrored(s, t)
    ensures Directed(Directed(s, d), !d) == t
  {
  }

  lemma MirroredInsert(s: seq<Handle>, t: seq<Handle>, i: nat, y: Handle)
    requires Mirrored(s, t) && i <= |s|
    ensures Mirrored(InsertedAt(s, i, y), InsertedAt(t, |s| - i, y))
  {
  }

  lemma MirroredRemove(s: seq<Handle>, t: seq<Handle>, i: nat)
    requires Mirrored(s, t) && i < |s|
    ensures Mirrored(WithoutAt(s, i), WithoutAt(t, |s| - 1 - i))
  {
  }

  /** One direction of a list. */
  ghost predicate Threads(next: map<Handle, Handle>, head: Handle, s: seq<Handle>) {
    Chain(next, s) && head == FirstOf(s)
  }

  lemma InsertThreads(next: map<Handle, Handle>, head: Handle, s: seq<Handle>, i: nat, y: Handle)
    requires Threads(next, head, s) && i <= |s| && y !in s && y != NIL
    ensures Threads(LinksIn(next, s, i, y), if i == 0 then y else head, InsertedAt(s, i, y))
    ensures SameOutside(next, LinksIn(next, s, i, y), InsertedAt(s, i, y))
  {
    ChainInsert(next, s, i, y);
    InsertEnds(s, i, y);
  }

  lemma RemoveThreads(next: map<Handle, Handle>, head: Handle, s: seq<Handle>, i: nat)
    requires Threads(next, head, s) && i < |s|
    ensures Threads(LinksOut(next, s, i), if i == 0 then At(s, 1) else head, WithoutAt(s, i))
    ensures SameOutside(next, LinksOut(next, s, i), s)
  {
    ChainRemove(next, s, i);
    RemoveEnds(s, i);
  }

  /** What a link leads to. */
  lemma ThreadAt(next: map<Handle, Handle>, head: Handle, s: seq<Handle>, i: nat)
    requires Threads(next, head, s) && i < |s|
    ensures s[i] != NIL && s[i] in next && next[s[i]] == At(s, i + 1)
    ensures At(s, i + 1) == NIL <==> i + 1 == |s|
    ensures head == s[i] <==> i == 0
  {
    assert LinkedAt(next, s, i) && LinkedAt(next, s, 0);
    if i + 1 < |s| {
      assert LinkedAt(next, s, i + 1);
    }
  }

  lemma OutsideSame(a: map<Handle, Handle>, b: map<Handle, Handle>, s: seq<Handle>, t: seq<Handle>)
    requires SameOutside(a, b, s) && forall h :: h in s ==> h in t
    ensures SameOutside(a, b, t)
  {
  }

  lemma MirroredHas(s: seq<Handle>, t: seq<Handle>)
    requires Mirrored(s, t)
    ensures forall h :: h in s <==> h in t
  {
    forall h | h in s ensures h in t {
      var i :| 0 <= i < |s| && s[i] == h;
      assert t[|s| - 1 - i] == h;
    }
  }

  /** A list with contents `c`, by its links and ends in direction `d` and against it. */
  ghost predicate Both(f: map<Handle, Handle>, r: map<Handle, Handle>, hf: Handle, hr: Handle, c: seq<Handle>,
                       d: bool)
  {
    Threads(f, hf, Directed(c, d)) && Threads(r, hr, Directed(c, !d))
  }

  lemma BothFrom(f: map<Handle, Handle>, r: map<Handle, Handle>, hf: Handle, hr: Handle, s: seq<Handle>, t: seq<Handle>,
                 d: bool)
    requires Mirrored(s, t) && Threads(f, hf, s) && Threads(r, hr, t)
    ensures Both(f, r, hf, hr, Directed(s, d), d) && Directed(Directed(s, d), d) == s
  {
    DirectedTwice(s, d);
    MirroredDirected(s, t, d);
  }

  lemma BothInsertAt(f: map<Handle, Handle>, r: map<Handle, Handle>, hf: Handle, hr: Handle, c: seq<Handle>, d: bool,
                     i: nat, y: Handle)
    requires Both(f, r, hf, hr, c, d) && i <= |c| && y !in c && y != NIL
    ensures
      var s := InsertedAt(Directed(c, d), i, y);
      var c' := Directed(s, d);
      var f', r' := LinksIn(f, Directed(c, d), i, y), LinksIn(r, Directed(c, !d), |c| - i, y);
      && Directed(c', d) == s
      && Both(f', r', if i == 0 then y else hf, if i == |c| then y else hr, c', d)
      && SameOutside(f, f', c') && SameOutside(r, r', c')
  {
    hide Threads, Mirrored, SameOutside, Directed, InsertedAt, LinksIn;
    var s, t := Directed(c, d), Directed(c, !d);
    DirectedMirrored(c, d);
    MirroredInsert(s, t, i, y);
    InsertThreads(f, hf, s, i, y);
    InsertThreads(r, hr, t, |s| - i, y);
    var s', t' := InsertedAt(s, i, y), InsertedAt(t, |s| - i, y);
    var f', r' := LinksIn(f, s, i, y), LinksIn(r, t, |s| - i, y);
    BothFrom(f', r', if i == 0 then y else hf, if i == |s| then y else hr, s', t', d);
    MirroredHas(s', t');
    OutsideSame(f, f', s', Directed(s', d));
    OutsideSame(r, r', t', Directed(s', d));
  }

  /** The four or three links that an insertion sets. */
  lemma BothInsert(f: map<Handle, Handle>, r: map<Handle, Handle>, hf: Handle, hr: Handle, c: seq<Handle>, d: bool,
                   x: Handle, y: Handle)
    requires Both(f, r, hf, hr, c, d) && x in c && y !in c && y != NIL
    ensures
      var s := InsertedAfter(Directed(c, d), x, y);
      var c' := Directed(s, d);
      && Directed(c', d) == s && x in f
      && var l := f[x];
      var f' := f[y := l][x := y];
      var r' := if l == NIL then r[y := x] else r[y := x][l := y];
      && Both(f', r', hf, if l == NIL then y else hr, c', d) && SameOutside(f, f', c') && SameOutside(r, r', c')
  {
    hide Threads, Mirrored, SameOutside, Directed, InsertedAt, LinksIn;
    var s, t := Directed(c, d), Directed(c, !d);
    var i := Place(s, x) + 1;
    BothInsertAt(f, r, hf, hr, c, d, i, y);
    ThreadAt(f, hf, s, i - 1);
    DirectedMirrored(c, d);
    InsertLinks(f, r, s, t, i, y);
    hide Both;
  }

  lemma InsertLinks(f: map<Handle, Handle>, r: map<Handle, Handle>, s: seq<Handle>, t: seq<Handle>, i: nat, y: Handle)
    requires Mirrored(s, t) && 0 < i <= |s|
    ensures LinksIn(f, s, i, y) == f[y := At(s, i)][s[i - 1] := y]
    ensures LinksIn(r, t, |s| - i, y) == if i == |s| then r[y := s[i - 1]] else r[y := s[i - 1]][s[i] := y]
  {
    assert At(t, |s| - i) == s[i - 1];
  }

  lemma BothRemoveAt(f: map<Handle, Handle>, r: map<Handle, Handle>, hf: Handle, hr: Handle, c: seq<Handle>, d: bool,
                     i: nat)
    requires Both(f, r, hf, hr, c, d) && i < |c|
    ensures
      var s, t := Directed(c, d), Directed(c, !d);
      var c' := Directed(WithoutAt(s, i), d);
      var f', r' := LinksOut(f, s, i), LinksOut(r, t, |c| - 1 - i);
      && Directed(c', d) == WithoutAt(s, i)
      && Both(f', r', if i == 0 then At(s, 1) else hf, if i == |c| - 1 then At(t, 1) else hr, c', d)
      && SameOutside(f, f', c) && SameOutside(r, r', c)
  {
    var s, t := Directed(c, d), Directed(c, !d);
    var j := |c| - 1 - i;
    DirectedMirrored(c, d);
    MirroredRemove(s, t, i);
    RemoveThreads(f, hf, s, i);
    RemoveThreads(r, hr, t, j);
    hide Threads, Mirrored, SameOutside, Directed, WithoutAt, LinksOut;
    BothFrom(LinksOut(f, s, i), LinksOut(r, t, j), if i == 0 then At(s, 1) else hf, if j == 0 then At(t, 1) else hr,
             WithoutAt(s, i), WithoutAt(t, j), d);
    OutsideSame(f, LinksOut(f, s, i), s, c);
    OutsideSame(r, LinksOut(r, t, j), t, c);
  }

  lemma BothPush(f: map<Handle, Handle>, r: map<Handle, Handle>, hf: Handle, hr: Handle, c: seq<Handle>, d: bool,
                 x: Handle)
    requires Both(f, r, hf, hr, c, d) && x !in c && x != NIL
    ensures
      var s := [x] + Directed(c, d);
      var c' := Directed(s, d);
      var f' := f[x := hf];
      var r' := if hf == NIL then r[x := NIL] else r[x := NIL][hf := x];
      && Directed(c', d) == s && Both(f', r', x, if hf == NIL then x else hr, c', d)
      && SameOutside(f, f', c') && SameOutside(r, r', c')
  {
    var s, t := Directed(c, d), Directed(c, !d);
    BothInsertAt(f, r, hf, hr, c, d, 0, x);
    assert InsertedAt(s, 0, x) == [x] + s;
    DirectedMirrored(c, d);
    if c != [] {
      ThreadAt(f, hf, s, 0);
    }
    hide Both, Threads, SameOutside, Directed, InsertedAt;
  }

  lemma BothPop(f: map<Handle, Handle>, r: map<Handle, Handle>, hf: Handle, hr: Handle, c: seq<Handle>, d: bool)
    requires Both(f, r, hf, hr, c, d) && c != []
    ensures
      var s := Directed(c, d);
      var c' := Directed(WithoutAt(s, 0), d);
      && s[0] == hf && hf in f
      && var h := f[hf];
      var r' := if h == NIL then r else r[h := NIL];
      && Directed(c', d) == WithoutAt(s, 0) && Both(f, r', h, if h == NIL then NIL else hr, c', d)
      && SameOutside(r, r', c)
  {
    var s, t := Directed(c, d), Directed(c, !d);
    DirectedMirrored(c, d);
    ThreadAt(f, hf, s, 0);
    PopLinks(f, r, s, t);
    hide Threads, SameOutside, Directed, WithoutAt, LinksOut, Mirrored;
    BothRemoveAt(f, r, hf, hr, c, d, 0);
    hide Both;
  }

  lemma PopLinks(f: map<Handle, Handle>, r: map<Handle, Handle>, s: seq<Handle>, t: seq<Handle>)
    requires Mirrored(s, t) && s != []
    ensures LinksOut(f, s, 0) == f
    ensures LinksOut(r, t, |s| - 1) == if |s| == 1 then r else r[s[1] := NIL]
    ensures |s| == 1 ==> At(t, 1) == NIL
  {
  }

  lemma BothRemove(f: map<Handle, Handle>, r: map<Handle, Handle>, hf: Handle, hr: Handle, c: seq<Handle>, x: Handle)
    requires Both(f, r, hf, hr, c, true) && x in c
    ensures
      var c' := Without(c, x);
      && x in f && x in r
      && var (n, p) := (f[x], r[x]);
      var f' := if p == NIL then f else f[p := n];
      var r' := if n == NIL then r else r[n := p];
      && Both(f', r', if hf == x then n else hf, if hr == x then p else hr, c', true)
      && SameOutside(f, f', c) && SameOutside(r, r', c)
  {
    var t := Directed(c, false);
    var i := Place(c, x);
    BothRemoveAt(f, r, hf, hr, c, true, i);
    DirectedMirrored(c, true);
    ThreadAt(f, hf, c, i);
    ThreadAt(r, hr, t, |c| - 1 - i);
    assert t[|c| - 1 - i] == x && At(t, |c| - i) == if i == 0 then NIL else c[i - 1];
    assert i < |c| - 1 ==> t[|c| - 2 - i] == c[i + 1];
    hide Both, Threads, SameOutside, Mirrored, WithoutAt;
  }

  class List {
    const links: Links
    var head: map<bool, Handle>
    ghost var contents: seq<Handle>

    /** The elements in the given direction. */
    ghost function Seen(isForward: bool): seq<Handle>
      reads this
    {
      Directed(contents, isForward)
    }

    /** Each direction is a chain of its own links, from its own head. */
    ghost predicate Valid()
      reads this, links
    {
      forall d: bool :: d in head && Threads(links.Of(d), head[d], Seen(d))
    }

    constructor (links: Links)
      ensures Valid() && contents == [] && this.links == links
    {
      this.links := links;
      head := map[true := NIL, false := NIL];
      contents := [];
    }

    method Link(h: Handle, isForward: bool) returns (r: Handle)
      requires Valid() && h in contents
      ensures r == Follower(contents, h, isForward)
    {
      var s := Seen(isForward);
      assert LinkedAt(links.Of(isForward), s, Place(s, h));
      r := links.Of(isForward)[h];
    }

    method Start(isForward: bool) returns (r: Handle)
      requires Valid()
      ensures r == FirstOf(Seen(isForward))
    {
      r := head[isForward];
    }

    method Empty() returns (b: bool)
      requires Valid()
      ensures b <==> contents == []
    {
      b := head[true] == NIL;
      FirstNotNil(links.Of(true), Seen(true));
    }

    method Purge()
      requires Valid()
      modifies this
      ensures Valid() && contents == []
    {
      head := head[true := NIL];
      head := head[false := NIL];
      contents := [];
    }

    lemma IsValid(d: bool)
      requires true in head && false in head
      requires Both(links.Of(d), links.Of(!d), head[d], head[!d], contents, d)
      ensures Valid()
    {
      hide Threads, Directed;
      forall b: bool ensures b in head && Threads(links.Of(b), head[b], Seen(b)) {
        assert b == d || b == !d;
      }
    }

    /** Puts `y` right after `x` in the given direction. */
    method Insert(x: Handle, y: Handle, isForward: bool)
      requires Valid() && x in contents && y != NIL && y !in contents
      modifies this, links
      ensures Valid() && Seen(isForward) == InsertedAfter(old(Seen(isForward)), x, y)
      ensures forall d: bool :: SameOutside(old(links.Of(d)), links.Of(d), contents)
    {
      hide Threads, Directed, SameOutside;
      BothInsert(links.Of(isForward), links.Of(!isForward), head[isForward], head[!isForward], contents, isForward, x,
                 y);
      hide Both;
      ghost var s := InsertedAfter(Seen(isForward), x, y);
      var ilf := links.Of(isForward)[x];
      links.Set(y, ilf, isForward);
      links.Set(y, x, !isForward);
      if ilf == NIL {
        head := head[!isForward := y];
      } else {
        links.Set(ilf, y, !isForward);
      }
      links.Set(x, y, isForward);
      contents := Directed(s, isForward);
      IsValid(isForward);
    }

    /** Makes `x` the new first element in the given direction. */
    method Push(x: Handle, isForward: bool)
      requires Valid() && x != NIL && x !in contents
      modifies this, links
      ensures Valid() && Seen(isForward) == [x] + old(Seen(isForward))
      ensures forall d: bool :: SameOutside(old(links.Of(d)), links.Of(d), contents)
    {
      hide Threads, Directed, SameOutside;
      BothPush(links.Of(isForward), links.Of(!isForward), head[isForward], head[!isForward], contents, isForward, x);
      hide Both;
      ghost var s := [x] + Seen(isForward);
      links.Set(x, NIL, !isForward);
      links.Set(x, head[isForward], isForward);
      if head[isForward] != NIL {
        links.Set(head[isForward], x, !isForward);
      } else {
        head := head[!isForward := x];
      }
      head := head[isForward := x];
      contents := Directed(s, isForward);
      IsValid(isForward);
    }

    /** Removes and returns the first element in the given direction. */
    method Pop(isForward: bool) returns (p: Handle)
      requires Valid() && contents != []
      modifies this, links
      ensures Valid() && old(Seen(isForward)) == [p] + Seen(isForward)
      ensures forall d: bool :: SameOutside(old(links.Of(d)), links.Of(d), old(contents))
    {
      hide Threads, Directed;
      BothPop(links.Of(isForward), links.Of(!isForward), head[isForward], head[!isForward], contents, isForward);
      hide Both, SameOutside;
      ghost var s := WithoutAt(Seen(isForward), 0);
      p := head[isForward];
      head := head[isForward := links.Of(isForward)[p]];
      if head[isForward] == NIL {
        head := head[!isForward := NIL];
      } else {
        links.Set(head[isForward], NIL, !isForward);
      }
      contents := Directed(s, isForward);
      IsValid(isForward);
    }

    method Remove(x: Handle)
      requires Valid() && x in contents
      modifies this, links
      ensures Valid() && contents == Without(old(contents), x)
      ensures forall d: bool :: SameOutside(old(links.Of(d)), links.Of(d), old(contents))
    {
      hide Threads, Directed, SameOutside;
      BothRemove(links.Of(true), links.Of(false), head[true], head[false], contents, x);
      hide Both;
      var f, r := links.Of(true)[x], links.Of(false)[x];
      if head[true] == x {
        head := head[true := f];
      }
      if head[false] == x {
        head := head[false := r];
      }
      if f != NIL {
        links.Set(f, r, false);
      }
      if r != NIL {
        links.Set(r, f, true);
      }
      contents := Without(contents, x);
      IsValid(true);
    }

    /** The two links between neighbours are inverse. */
    lemma LinksInverse(a: Handle, b: Handle, d: bool)
      requires Valid() && a in contents && b != NIL
      ensures a in links.Of(d) && (links.Of(d)[a] == b ==> b in links.Of(!d) && links.Of(!d)[b] == a)
    {
      var s, t := Seen(d), Seen(!d);
      var i := Place(s, a);
      DirectedMirrored(contents, d);
      ThreadAt(links.Of(d), head[d], s, i);
      if i + 1 < |s| {
        ThreadAt(links.Of(!d), head[!d], t, |s| - 2 - i);
      }
    }
  }
}
