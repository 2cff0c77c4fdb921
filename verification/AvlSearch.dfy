/** What the searches promise, stated on the in-order sequence of a search tree. */
module AvlSearch {
  import opened Common
  import opened AvlTrees

  datatype SearchType = EQUAL | LESS | GREATER | LESS_EQUAL | GREATER_EQUAL {
    predicate HasEqual() { EQUAL? || LESS_EQUAL? || GREATER_EQUAL? }
    predicate HasLess() { LESS? || LESS_EQUAL? }
    predicate HasGreater() { GREATER? || GREATER_EQUAL? }
  }

  predicate Meets(st: SearchType, x: int, k: int) {
    match st
    case EQUAL => x == k
    case LESS => x < k
    case GREATER => x > k
    case LESS_EQUAL => x <= k
    case GREATER_EQUAL => x >= k
  }

  /** `r` is the node wanted: it meets the condition and is the extreme one that does; NIL when no node does. */
  ghost predicate IsBest(key: Handle -> int, order: seq<Handle>, st: SearchType, k: int, r: Handle) {
    if r == NIL then
      forall x :: x in order ==> !Meets(st, key(x), k)
    else
      && r in order && Meets(st, key(r), k)
      && (forall x :: x in order && Meets(st, key(x), k) ==>
            && (st.HasLess() ==> key(x) <= key(r))
            && (st.HasGreater() ==> key(r) <= key(x)))
  }

  /** `b` and `a` are the handles before and after the spot the search has come to.  Keys in `b` are below `k`,
      keys in `a` above.  A node with key `k` itself can have been passed only by the strict searches, and only on
      the side that does not count. */
  ghost predicate Narrowed(key: Handle -> int, b: seq<Handle>, a: seq<Handle>, st: SearchType, k: int) {
    && (forall x :: x in b ==> key(x) < k || (key(x) == k && st == GREATER))
    && (forall x :: x in a ==> k < key(x) || (key(x) == k && st == LESS))
  }

  /** The best node among those already passed. */
  function Candidate(b: seq<Handle>, a: seq<Handle>, st: SearchType): Handle {
    if st.HasLess() then (if b == [] then NIL else Last(b))
    else if st.HasGreater() then (if a == [] then NIL else a[0])
    else NIL
  }

  lemma SortedParts(key: Handle -> int, a: seq<Handle>, b: seq<Handle>)
    requires Sorted(key, a + b)
    ensures Sorted(key, a) && Sorted(key, b)
    ensures forall x, y :: x in a && y in b ==> key(x) < key(y)
  {
    var s := a + b;
    assert forall i :: 0 <= i < |a| ==> s[i] == a[i];
    assert forall i :: 0 <= i < |b| ==> s[|a| + i] == b[i];
    forall x, y | x in a && y in b
      ensures key(x) < key(y)
    {
      var i :| 0 <= i < |a| && a[i] == x;
      var j :| 0 <= j < |b| && b[j] == y;
      assert s[i] == x && s[|a| + j] == y;
    }
  }

  lemma SortedEnds(key: Handle -> int, s: seq<Handle>)
    requires Sorted(key, s) && s != []
    ensures forall x :: x in s ==> key(s[0]) <= key(x) <= key(Last(s))
  {
  }

  lemma SortedAround(key: Handle -> int, a: seq<Handle>, h: Handle, b: seq<Handle>)
    requires Sorted(key, a + [h] + b)
    ensures Sorted(key, a) && Sorted(key, b)
    ensures forall x :: x in a ==> key(x) < key(h)
    ensures forall x :: x in b ==> key(h) < key(x)
  {
    SortedParts(key, a + [h], b);
    SortedParts(key, a, [h]);
    assert h in [h] && h in a + [h];
  }

  /** In a search tree the subtree at the end of any path is a search tree too. */
  lemma SortedSub(key: Handle -> int, c: Path, t: Tree)
    requires Sorted(key, InOrder(Plug(c, t)))
    ensures Sorted(key, InOrder(t))
  {
    InOrderPlug(c, t);
    SortedParts(key, Before(c) + InOrder(t), After(c));
    SortedParts(key, Before(c), InOrder(t));
  }

  /** One step of the search keeps the search range right. */
  lemma Narrow(key: Handle -> int, c: Path, t: Tree, st: SearchType, k: int, dir: bool)
    requires t.Node? && Sorted(key, InOrder(Plug(c, t))) && Narrowed(key, Before(c), After(c), st, k)
    requires if dir then key(t.h) < k || (key(t.h) == k && st == GREATER)
             else k < key(t.h) || (key(t.h) == k && st == LESS)
    ensures var c' := c + [FrameOf(t, dir)];
      && Narrowed(key, Before(c'), After(c'), st, k)
      && Candidate(Before(c'), After(c'), st) ==
         if (if dir then st.HasLess() else st.HasGreater()) then t.h else Candidate(Before(c), After(c), st)
  {
    SortedSub(key, c, t);
    SortedAround(key, InOrder(t.lt), t.h, InOrder(t.gt));
    PlugStep(c, t, dir);
  }

  lemma LessIsBest(key: Handle -> int, b: seq<Handle>, a: seq<Handle>, st: SearchType, k: int)
    requires Sorted(key, b) && Narrowed(key, b, a, st, k) && NIL !in b + a && st.HasLess()
    ensures IsBest(key, b + a, st, k, Candidate(b, a, st))
  {
    assert forall x :: x in b + a <==> x in b || x in a;
    if b != [] {
      SortedEnds(key, b);
      assert Last(b) in b;
    }
    hide Sorted;
  }

  lemma GreaterIsBest(key: Handle -> int, b: seq<Handle>, a: seq<Handle>, st: SearchType, k: int)
    requires Sorted(key, a) && Narrowed(key, b, a, st, k) && NIL !in b + a && st.HasGreater()
    ensures IsBest(key, b + a, st, k, Candidate(b, a, st))
  {
    assert forall x :: x in b + a <==> x in b || x in a;
    if a != [] {
      SortedEnds(key, a);
      assert a[0] in a;
    }
    hide Sorted;
  }

  /** When the search has run off the tree, the best node passed is the best node of the tree. */
  lemma CandidateIsBest(key: Handle -> int, b: seq<Handle>, a: seq<Handle>, st: SearchType, k: int)
    requires Sorted(key, b + a) && Narrowed(key, b, a, st, k) && NIL !in b + a
    ensures IsBest(key, b + a, st, k, Candidate(b, a, st))
  {
    hide Sorted;
    SortedParts(key, b, a);
    if st.HasLess() {
      LessIsBest(key, b, a, st, k);
    } else if st.HasGreater() {
      GreaterIsBest(key, b, a, st, k);
    } else {
      assert forall x :: x in b + a <==> x in b || x in a;
    }
  }

  /** The search result is determined: whatever finds a best node finds the same one. */
  lemma BestIsUnique(key: Handle -> int, order: seq<Handle>, st: SearchType, k: int, r: Handle, r': Handle)
    requires Sorted(key, order) && NIL !in order
    requires IsBest(key, order, st, k, r) && IsBest(key, order, st, k, r')
    ensures r == r'
  {
    if r != NIL && r' != NIL {
      assert key(r) == key(r');
      var i :| 0 <= i < |order| && order[i] == r;
      var j :| 0 <= j < |order| && order[j] == r';
    }
  }
}
