/** Singly-linked intrusive list: the links are in the elements, which the list does not own. */
module Lists {
  import opened Common

  // ---------------------------------------------------------------------------------------------
  // Sequences in either direction

  /** The elements in the given direction. */
  ghost function Directed(s: seq<Handle>, isForward: bool): (r: seq<Handle>)
    ensures |r| == |s| && forall h :: h in r <==> h in s
  {
    if isForward then s
    else
      var r := seq(|s|, i requires 0 <= i < |s| => s[|s| - 1 - i]);
      assert forall i :: 0 <= i < |s| ==> s[i] == r[|s| - 1 - i];
      r
  }

  /** The place of an element. */
  ghost function Place(s: seq<Handle>, x: Handle): (i: nat)
    requires x in s
    ensures i < |s| && s[i] == x
  {
    var i :| 0 <= i < |s| && s[i] == x;
    i
  }

  /** The element at place `i`, or NIL past the end. */
  ghost function At(s: seq<Handle>, i: nat): Handle {
    if i < |s| then s[i] else NIL
  }

  ghost function FirstOf(s: seq<Handle>): Handle {
    At(s, 0)
  }

  ghost function LastOf(s: seq<Handle>): Handle {
    if s == [] then NIL else s[|s| - 1]
  }

  ghost function InsertedAt(s: seq<Handle>, i: nat, y: Handle): seq<Handle>
    requires i <= |s|
  {
    s[..i] + [y] + s[i..]
  }

  ghost function WithoutAt(s: seq<Handle>, i: nat): seq<Handle>
    requires i < |s|
  {
    s[..i] + s[i + 1..]
  }

  /** `y` right after `x`. */
  ghost function InsertedAfter(s: seq<Handle>, x: Handle, y: Handle): seq<Handle>
    requires x in s
  {
    InsertedAt(s, Place(s, x) + 1, y)
  }

  ghost function Without(s: seq<Handle>, x: Handle): seq<Handle>
    requires x in s
  {
    WithoutAt(s, Place(s, x))
  }

  /** The element after `x` in the given direction, or NIL. */
  ghost function Follower(s: seq<Handle>, x: Handle, isForward: bool): Handle
    requires x in s
  {
    var r := Directed(s, isForward);
    At(r, Place(r, x) + 1)
  }

  lemma Forwards(s: seq<Handle>)
    ensures Directed(s, true) == s
  {
  }

  lemma ReverseAt(s: seq<Handle>, i: nat)
    requires i < |s|
    ensures Directed(s, false)[i] == s[|s| - 1 - i]
  {
  }

  lemma ReversePlace(s: seq<Handle>, x: Handle)
    requires NoDup(s) && x in s
    ensures Place(Directed(s, false), x) == |s| - 1 - Place(s, x)
    ensures Follower(s, x, false) == if Place(s, x) == 0 then NIL else s[Place(s, x) - 1]
  {
    hide Directed, Place;
    var i, j := Place(s, x), Place(Directed(s, false), x);
    ReverseAt(s, j);
    assert s[|s| - 1 - j] == s[i];
    if i > 0 {
      ReverseAt(s, j + 1);
    }
  }

  lemma PlaceUnique(s: seq<Handle>, i: nat)
    requires NoDup(s) && i < |s|
    ensures Place(s, s[i]) == i
  {
  }

  // ---------------------------------------------------------------------------------------------
  // Chains of links

  /** The links of all elements. */
  class Links {
    var next: map<Handle, Handle>

    constructor ()
      ensures next == map[]
    {
      next := map[];
    }
  }

  ghost predicate LinkedAt(next: map<Handle, Handle>, s: seq<Handle>, i: nat)
    requires i < |s|
  {
    s[i] != NIL && s[i] in next && next[s[i]] == At(s, i + 1)
  }

  /** The links thread the elements `s` and no element twice. */
  ghost predicate Chain(next: map<Handle, Handle>, s: seq<Handle>) {
    NoDup(s) && forall i: nat :: i < |s| ==> LinkedAt(next, s, i)
  }

  lemma ChainFrame(a: map<Handle, Handle>, b: map<Handle, Handle>, s: seq<Handle>, t: seq<Handle>)
    requires Chain(a, s) && SameOutside(a, b, t) && forall h :: h in s ==> h !in t
    ensures Chain(b, s)
  {
    forall i: nat | i < |s| ensures LinkedAt(b, s, i) {
      assert LinkedAt(a, s, i) && s[i] in s;
    }
  }

  lemma {:induction false} ChainUnique(next: map<Handle, Handle>, s: seq<Handle>, t: seq<Handle>)
    requires Chain(next, s) && Chain(next, t) && FirstOf(s) == FirstOf(t)
    ensures s == t
    decreases |s|
  {
    FirstNotNil(next, s);
    FirstNotNil(next, t);
    if s != [] {
      ChainTail(next, s);
      ChainTail(next, t);
      ChainUnique(next, s[1..], t[1..]);
    }
  }

  lemma FirstNotNil(next: map<Handle, Handle>, s: seq<Handle>)
    requires Chain(next, s)
    ensures FirstOf(s) == NIL <==> s == []
    ensures s != [] ==> s[0] in next && next[s[0]] == FirstOf(s[1..])
  {
    if s != [] {
      assert LinkedAt(next, s, 0);
    }
  }

  lemma ChainTail(next: map<Handle, Handle>, s: seq<Handle>)
    requires Chain(next, s) && s != []
    ensures Chain(next, s[1..])
  {
    forall i: nat | i < |s| - 1 ensures LinkedAt(next, s[1..], i) {
      assert LinkedAt(next, s, i + 1);
    }
  }

  /** No element of a list is linked to itself, so that a detached element can be told. */
  lemma NoSelfLink(next: map<Handle, Handle>, s: seq<Handle>, h: Handle)
    requires Chain(next, s) && h in s
    ensures h in next && next[h] != h
  {
    var i := Place(s, h);
    assert LinkedAt(next, s, i);
    if i + 1 < |s| {
      assert s[i] != s[i + 1];
    }
  }

  /** The links after `y` has been put at place `i`. */
  ghost function LinksIn(next: map<Handle, Handle>, s: seq<Handle>, i: nat, y: Handle): map<Handle, Handle>
    requires i <= |s|
  {
    var a := next[y := At(s, i)];
    if i == 0 then a else a[s[i - 1] := y]
  }

  lemma ChainInsert(next: map<Handle, Handle>, s: seq<Handle>, i: nat, y: Handle)
    requires Chain(next, s) && i <= |s| && y !in s && y != NIL
    ensures Chain(LinksIn(next, s, i, y), InsertedAt(s, i, y))
    ensures SameOutside(next, LinksIn(next, s, i, y), InsertedAt(s, i, y))
  {
    var r, b := InsertedAt(s, i, y), LinksIn(next, s, i, y);
    forall j: nat | j < |r| ensures LinkedAt(b, r, j) {
      if j < i {
        assert LinkedAt(next, s, j);
      } else if j > i {
        assert LinkedAt(next, s, j - 1);
      }
    }
    assert r[i] == y && (i > 0 ==> r[i - 1] == s[i - 1]);
  }

  /** The links after the element at place `i` has been taken out. */
  ghost function LinksOut(next: map<Handle, Handle>, s: seq<Handle>, i: nat): map<Handle, Handle>
    requires i < |s|
  {
    if i == 0 then next else next[s[i - 1] := At(s, i + 1)]
  }

  lemma ChainRemove(next: map<Handle, Handle>, s: seq<Handle>, i: nat)
    requires Chain(next, s) && i < |s|
    ensures Chain(LinksOut(next, s, i), WithoutAt(s, i))
    ensures SameOutside(next, LinksOut(next, s, i), s)
  {
    var r, b := WithoutAt(s, i), LinksOut(next, s, i);
    forall j: nat | j < |r| ensures LinkedAt(b, r, j) {
      if j < i {
        assert LinkedAt(next, s, j);
      } else {
        assert LinkedAt(next, s, j + 1);
      }
    }
  }

  lemma InsertEnds(s: seq<Handle>, i: nat, y: Handle)
    requires i <= |s|
    ensures FirstOf(InsertedAt(s, i, y)) == if i == 0 then y else FirstOf(s)
    ensures LastOf(InsertedAt(s, i, y)) == if i == |s| then y else LastOf(s)
  {
  }

  lemma RemoveEnds(s: seq<Handle>, i: nat)
    requires i < |s|
    ensures FirstOf(WithoutAt(s, i)) == if i == 0 then At(s, 1) else FirstOf(s)
    ensures LastOf(WithoutAt(s, i)) == if i < |s| - 1 then LastOf(s) else if i == 0 then NIL else s[i - 1]
  {
  }

  /** Where a push puts the element. */
  ghost function PushPlace(s: seq<Handle>, isForward: bool): nat {
    if isForward then 0 else |s|
  }

  lemma InsertFirst(s: seq<Handle>, y: Handle)
    ensures InsertedAt(s, 0, y) == [y] + s
  {
  }

  lemma PushDirected(s: seq<Handle>, y: Handle, isForward: bool)
    ensures Directed(InsertedAt(s, PushPlace(s, isForward), y), isForward) == [y] + Directed(s, isForward)
  {
    InsertFirst(Directed(s, isForward), y);
    if !isForward {
      hide Directed, InsertedAt;
      ReverseInsert(s, |s|, y);
    }
  }

  lemma ReverseInsert(s: seq<Handle>, i: nat, y: Handle)
    requires i <= |s|
    ensures Directed(InsertedAt(s, i, y), false) == InsertedAt(Directed(s, false), |s| - i, y)
  {
    var a, b := InsertedAt(s, i, y), InsertedAt(Directed(s, false), |s| - i, y);
    forall j: nat | j <= |s| ensures Directed(a, false)[j] == b[j] {
      ReverseAt(a, j);
      if j < |s| - i {
        ReverseAt(s, j);
      } else if j > |s| - i {
        ReverseAt(s, j - 1);
      }
    }
  }

  /** Where an insertion after `x` puts the element. */
  ghost function InsertPlace(s: seq<Handle>, x: Handle, isForward: bool): (i: nat)
    requires x in s
    ensures i <= |s|
  {
    if isForward then Place(s, x) + 1 else Place(s, x)
  }

  lemma InsertReversed(s: seq<Handle>, x: Handle, y: Handle)
    requires NoDup(s) && x in s
    ensures Directed(InsertedAt(s, Place(s, x), y), false) == InsertedAfter(Directed(s, false), x, y)
  {
    hide Directed, InsertedAt, NoDup;
    ReverseInsert(s, Place(s, x), y);
    ReversePlace(s, x);
  }

  lemma InsertDirected(s: seq<Handle>, x: Handle, y: Handle, isForward: bool)
    requires NoDup(s) && x in s
    ensures Directed(InsertedAt(s, InsertPlace(s, x, isForward), y), isForward)
         == InsertedAfter(Directed(s, isForward), x, y)
  {
    hide InsertedAt, NoDup;
    if !isForward {
      InsertReversed(s, x, y);
    }
  }

  /** Where a pop takes the element. */
  ghost function PopPlace(s: seq<Handle>, isForward: bool): (i: nat)
    requires s != []
    ensures i < |s|
  {
    if isForward then 0 else |s| - 1
  }

  lemma PopDirected(s: seq<Handle>, isForward: bool)
    requires s != []
    ensures Directed(WithoutAt(s, PopPlace(s, isForward)), isForward) == Directed(s, isForward)[1..]
    ensures Directed(s, isForward)[0] == s[PopPlace(s, isForward)]
  {
  }

  // ---------------------------------------------------------------------------------------------
  // The list

  class List {
    const links: Links
    const storeTail: bool
    var head: Handle
    var tail: Handle
    ghost var contents: seq<Handle>

    ghost predicate EndsRight()
      reads this
    {
      head == FirstOf(contents) && (storeTail ==> tail == LastOf(contents))
    }

    ghost predicate Valid()
      reads this, links
    {
      Chain(links.next, contents) && EndsRight()
    }

    constructor (links: Links, storeTail: bool)
      ensures Valid() && contents == [] && this.links == links && this.storeTail == storeTail
    {
      this.links, this.storeTail := links, storeTail;
      head, tail := NIL, NIL;
      contents := [];
    }

    /** The element after `h` in the given direction. */
    method Link(h: Handle, isForward: bool) returns (r: Handle)
      requires Valid() && h in contents
      ensures r == Follower(contents, h, isForward)
    {
      ghost var i := Place(contents, h);
      if isForward {
        assert LinkedAt(links.next, contents, i);
        return links.next[h];
      }
      ReversePlace(contents, h);
      r := NIL;
      var h2 := head;
      ghost var k := 0;
      while h2 != h
        invariant k <= i && h2 == contents[k] && r == if k == 0 then NIL else contents[k - 1]
        decreases i - k
      {
        assert LinkedAt(links.next, contents, k);
        r, h2 := h2, links.next[h2];
        k := k + 1;
      }
    }

    /** The first element in the given direction. */
    method Start(isForward: bool) returns (r: Handle)
      requires Valid()
      ensures r == FirstOf(Directed(contents, isForward))
    {
      if isForward {
        return head;
      }
      if storeTail {
        return tail;
      }
      r := NIL;
      var h := head;
      ghost var k := 0;
      while h != NIL
        invariant k <= |contents| && h == At(contents, k) && r == if k == 0 then NIL else contents[k - 1]
        decreases |contents| - k
      {
        assert k < |contents| && LinkedAt(links.next, contents, k);
        r, h := h, links.next[h];
        k := k + 1;
      }
      assert k < |contents| ==> LinkedAt(links.next, contents, k);
    }

    method Empty() returns (b: bool)
      requires Valid()
      ensures b <==> contents == []
    {
      b := head == NIL;
      FirstNotNil(links.next, contents);
    }

    method Purge()
      requires Valid()
      modifies this
      ensures Valid() && contents == []
    {
      head := NIL;
      if storeTail {
        tail := NIL;
      }
      contents := [];
    }

    /** Links an element to itself; no list that it is not in changes. */
    method MakeDetached(x: Handle)
      modifies links
      ensures links.next == old(links.next)[x := x]
      ensures forall s :: old(Chain(links.next, s)) && x !in s ==> Chain(links.next, s)
      ensures old(Valid()) && x !in contents ==> Valid()
    {
      forall s | Chain(links.next, s) && x !in s ensures Chain(links.next[x := x], s) {
        DetachedFrame(links.next, s, x, x);
      }
      links.next := links.next[x := x];
    }

    /** True only of an element that is in no list, of whatever lists these links thread. */
    method IsDetached(x: Handle) returns (b: bool)
      requires x in links.next
      ensures b <==> links.next[x] == x
      ensures b ==> forall s :: Chain(links.next, s) ==> x !in s
      ensures b && Valid() ==> x !in contents
    {
      b := links.next[x] == x;
      if b {
        forall s | Chain(links.next, s) ensures x !in s {
          if x in s {
            NoSelfLink(links.next, s, x);
          }
        }
      }
    }

    /** Makes `x` the new first element in the given direction. */
    method Push(x: Handle, isForward: bool)
      requires Valid() && x != NIL && x !in contents
      modifies this, links
      ensures Valid() && Directed(contents, isForward) == [x] + Directed(old(contents), isForward)
      ensures SameOutside(old(links.next), links.next, contents)
    {
      hide Chain, Directed, SameOutside, InsertedAt;
      FirstNotNil(links.next, contents);
      ghost var i := PushPlace(contents, isForward);
      ChainInsert(links.next, contents, i, x);
      InsertEnds(contents, i, x);
      PushDirected(contents, x, isForward);
      DetachedFrame(links.next, contents, x, NIL);
      if head == NIL {
        links.next := links.next[x := NIL];
        head := x;
        if storeTail {
          tail := x;
        }
      } else if isForward {
        links.next := links.next[x := head];
        head := x;
      } else if storeTail {
        links.next := links.next[x := NIL];
        links.next := links.next[tail := x];
        tail := x;
      } else {
        links.next := links.next[x := NIL];
        StartReverse(contents);
        var last := Start(false);
        links.next := links.next[last := x];
      }
      contents := InsertedAt(contents, i, x);
    }

    /** Puts `y` right after `x` in the given direction. */
    method Insert(x: Handle, y: Handle, isForward: bool)
      requires Valid() && x in contents && y != NIL && y !in contents
      modifies this, links
      ensures Valid() && Directed(contents, isForward) == InsertedAfter(Directed(old(contents), isForward), x, y)
      ensures SameOutside(old(links.next), links.next, contents)
    {
      assert NoDup(contents);
      hide Chain, Directed, SameOutside, InsertedAt, InsertedAfter, Follower;
      ghost var i := InsertPlace(contents, x, isForward);
      ChainInsert(links.next, contents, i, y);
      InsertEnds(contents, i, y);
      InsertDirected(contents, x, y, isForward);
      ReversePlace(contents, x);
      FollowerPlace(links.next, contents, x);
      var ilf := Link(x, isForward);
      var inList := x;
      if !isForward {
        if ilf == NIL {
          StartInsert(contents, x, y);
          Forwards(contents);
          Push(y, true);
          Forwards(contents);
          return;
        }
        inList, ilf := ilf, x;
      }
      links.next := links.next[y := ilf];
      links.next := links.next[inList := y];
      if ilf == NIL && storeTail {
        tail := y;
      }
      contents := InsertedAt(contents, i, y);
    }

    /** Takes out the element after `x`. */
    method RemoveForward(x: Handle)
      requires Valid() && x in contents && Place(contents, x) + 1 < |contents|
      modifies this, links
      ensures Valid() && contents == WithoutAt(old(contents), Place(old(contents), x) + 1)
      ensures SameOutside(old(links.next), links.next, old(contents))
    {
      ghost var i := Place(contents, x) + 1;
      ChainRemove(links.next, contents, i);
      RemoveEnds(contents, i);
      assert LinkedAt(links.next, contents, i - 1) && LinkedAt(links.next, contents, i);
      assert i + 1 < |contents| ==> LinkedAt(links.next, contents, i + 1);
      hide Chain, SameOutside, WithoutAt;
      var f := links.next[x];
      var ff := links.next[f];
      links.next := links.next[x := ff];
      if storeTail && ff == NIL {
        tail := x;
      }
      contents := WithoutAt(contents, i);
    }

    method Remove(x: Handle)
      requires Valid() && x in contents
      modifies this, links
      ensures Valid() && contents == Without(old(contents), x)
      ensures SameOutside(old(links.next), links.next, old(contents))
    {
      ghost var i := Place(contents, x);
      ChainRemove(links.next, contents, i);
      RemoveEnds(contents, i);
      FollowerPlace(links.next, contents, x);
      ReversePlace(contents, x);
      var f := Link(x, true);
      var r := Link(x, false);
      hide Chain, SameOutside, WithoutAt, Follower;
      if r == NIL {
        head := f;
      } else {
        links.next := links.next[r := f];
      }
      if storeTail && f == NIL {
        tail := r;
      }
      contents := Without(contents, x);
    }

    /** The loop of a pop at the tail: the last element and the one before it. */
    method GoToLast() returns (h: Handle, p: Handle)
      requires Valid() && |contents| > 1
      ensures h == contents[|contents| - 2] && p == contents[|contents| - 1]
    {
      hide NoDup, LastOf;
      FirstNotNil(links.next, contents);
      assert LinkedAt(links.next, contents, 0) && LinkedAt(links.next, contents, 1);
      h := head;
      p := links.next[h];
      var f := links.next[p];
      ghost var k := 0;
      while f != NIL
        invariant k + 1 < |contents| && h == contents[k] && p == contents[k + 1] && f == At(contents, k + 2)
        decreases |contents| - k
      {
        assert LinkedAt(links.next, contents, k + 2);
        h, p, f := p, f, links.next[f];
        k := k + 1;
      }
      assert k + 2 < |contents| ==> LinkedAt(links.next, contents, k + 2);
    }

    /** Removes and returns the first element in the given direction. */
    method Pop(isForward: bool) returns (p: Handle)
      requires Valid() && contents != []
      modifies this, links
      ensures Valid() && Directed(old(contents), isForward) == [p] + Directed(contents, isForward)
      ensures SameOutside(old(links.next), links.next, old(contents))
    {
      hide Directed, SameOutside, WithoutAt, NoDup, Chain, LinksOut, FirstOf, LastOf, PopPlace;
      ghost var i := PopPlace(contents, isForward);
      ChainRemove(links.next, contents, i);
      PopDirected(contents, isForward);
      PopEnds(links.next, contents, isForward);
      p := head;
      var f := links.next[p];
      if isForward || f == NIL {
        head := f;
        if storeTail && f == NIL {
          tail := NIL;
        }
      } else {
        var h: Handle;
        h, p := GoToLast();
        links.next := links.next[h := NIL];
        if storeTail {
          tail := h;
        }
      }
      contents := WithoutAt(contents, i);
    }
  }

  /** What a pop does to the links and the ends: of the two ways the first is taken also for the last element. */
  lemma PopEnds(next: map<Handle, Handle>, s: seq<Handle>, isForward: bool)
    requires Chain(next, s) && s != []
    ensures
      var i, r := PopPlace(s, isForward), WithoutAt(s, PopPlace(s, isForward));
      && FirstOf(s) == s[0] && s[0] in next && next[s[0]] == At(s, 1) && (At(s, 1) == NIL <==> |s| == 1)
      && if isForward || |s| == 1 then
           && s[i] == s[0] && LinksOut(next, s, i) == next && FirstOf(r) == At(s, 1)
           && LastOf(r) == if |s| == 1 then NIL else LastOf(s)
         else
           && s[i] == s[|s| - 1] && LinksOut(next, s, i) == next[s[|s| - 2] := NIL] && FirstOf(r) == s[0]
           && LastOf(r) == s[|s| - 2]
  {
    assert LinkedAt(next, s, 0);
    assert |s| > 1 ==> LinkedAt(next, s, 1);
    RemoveEnds(s, PopPlace(s, isForward));
  }

  lemma DetachedFrame(next: map<Handle, Handle>, s: seq<Handle>, x: Handle, l: Handle)
    requires Chain(next, s) && x !in s
    ensures Chain(next[x := l], s)
  {
    ChainFrame(next, next[x := l], s, [x]);
  }

  lemma StartReverse(s: seq<Handle>)
    ensures FirstOf(Directed(s, false)) == LastOf(s)
  {
  }

  lemma FollowerPlace(next: map<Handle, Handle>, s: seq<Handle>, x: Handle)
    requires Chain(next, s) && x in s
    ensures Follower(s, x, true) == At(s, Place(s, x) + 1)
    ensures Follower(s, x, true) == NIL <==> Place(s, x) + 1 == |s|
    ensures Place(s, x) > 0 ==> s[Place(s, x) - 1] != NIL
    ensures s[Place(s, x)] == x && x != NIL
  {
    var i := Place(s, x);
    assert LinkedAt(next, s, i);
    if i + 1 < |s| {
      assert LinkedAt(next, s, i + 1);
    }
    if i > 0 {
      assert LinkedAt(next, s, i - 1);
    }
  }

  /** Going on from place `p`. */
  lemma StepOn(next: map<Handle, Handle>, s: seq<Handle>, p: nat)
    requires Chain(next, s)
    ensures At(s, p) == NIL <==> p >= |s|
    ensures p < |s| ==> s[p] in s && Place(s, s[p]) == p && Follower(s, s[p], true) == At(s, p + 1)
  {
    if p < |s| {
      assert LinkedAt(next, s, p);
      PlaceUnique(s, p);
    }
  }

  lemma StartInsert(s: seq<Handle>, x: Handle, y: Handle)
    requires NoDup(s) && x in s && Place(s, x) == 0
    ensures Directed([y] + s, false) == InsertedAfter(Directed(s, false), x, y)
  {
    InsertDirected(s, x, y, false);
    assert InsertedAt(s, 0, y) == [y] + s;
  }
}
