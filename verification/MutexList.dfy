/** The linked list of per-thread data as a sequence. */
module MutexList {
  import opened Common
  import opened Mutex
  import opened MutexInv

  lemma {:induction false} PlaceOf(chain: seq<Thread>, t: Thread)
    ensures t in chain ==> Place(chain, Some(t)) < |chain| && chain[Place(chain, Some(t))] == t
    ensures t !in chain ==> Place(chain, Some(t)) == |chain|
  {
    if chain != [] && chain[0] != t {
      assert chain == [chain[0]] + chain[1..];
      PlaceOf(chain[1..], t);
    }
  }

  lemma PlaceUnique(chain: seq<Thread>, i: nat)
    requires NoDup(chain) && i < |chain|
    ensures Place(chain, Some(chain[i])) == i
  {
    PlaceOf(chain, chain[i]);
  }

  lemma {:induction false} ThreadedFrame(head: Option<Thread>, link: map<Thread, Option<Thread>>, chain: seq<Thread>,
                                         t: Thread, x: Option<Thread>)
    requires Threaded(head, link, chain) && t !in chain
    ensures Threaded(head, link[t := x], chain)
    decreases |chain|
  {
    if chain != [] {
      assert chain == [chain[0]] + chain[1..];
      ThreadedFrame(link[chain[0]], link, chain[1..], t, x);
    }
  }

  /** The link of the entry at place `i` is the entry at the next place, or null at the end. */
  lemma {:induction false} ThreadedAt(head: Option<Thread>, link: map<Thread, Option<Thread>>, chain: seq<Thread>,
                                      i: nat)
    requires Threaded(head, link, chain) && i < |chain|
    ensures chain[i] in link && link[chain[i]] == if i + 1 < |chain| then Some(chain[i + 1]) else None
    decreases |chain|
  {
    if i > 0 {
      ThreadedAt(link[chain[0]], link, chain[1..], i - 1);
    }
  }

  /** Following a link from the list goes to the next place of the list. */
  lemma NextPlace(s: State, v: Thread)
    requires Threaded(s.head, s.link, s.chain) && NoDup(s.chain) && v in s.chain
    ensures Place(s.chain, s.LinkOf(v)) == Place(s.chain, Some(v)) + 1 <= |s.chain|
    ensures s.LinkOf(v).Some? ==> s.LinkOf(v).value in s.chain
  {
    PlaceOf(s.chain, v);
    var i := Place(s.chain, Some(v));
    ThreadedAt(s.head, s.link, s.chain, i);
    if i + 1 < |s.chain| {
      PlaceUnique(s.chain, i + 1);
    }
  }

  lemma HeadPlace(s: State)
    requires Threaded(s.head, s.link, s.chain)
    ensures Place(s.chain, s.head) == 0
    ensures s.head.Some? ==> s.head.value in s.chain
  {
  }

  lemma NoDupCons(t: Thread, c: seq<Thread>)
    requires NoDup(c) && t !in c
    ensures NoDup([t] + c)
  {
  }

  lemma {:induction false} WithoutHas(c: seq<Thread>, t: Thread)
    requires NoDup(c)
    ensures forall x :: x in Without(c, t) <==> x in c && x != t
    ensures NoDup(Without(c, t))
  {
    if c != [] {
      assert c == [c[0]] + c[1..];
      if c[0] != t {
        WithoutHas(c[1..], t);
        assert c[0] !in c[1..];
        NoDupCons(c[0], Without(c[1..], t));
      }
    }
  }

  /** Making the link to `t` skip it takes `t` out of the list. */
  lemma {:induction false} Spliced(head: Option<Thread>, link: map<Thread, Option<Thread>>, chain: seq<Thread>, i: nat)
    requires Threaded(head, link, chain) && NoDup(chain) && i + 1 < |chain|
    ensures chain[i] in link && chain[i + 1] in link
    ensures Threaded(head, link[chain[i] := link[chain[i + 1]]], Without(chain, chain[i + 1]))
    decreases |chain|
  {
    var rest := chain[1..];
    var t := chain[i + 1];
    ThreadedAt(head, link, chain, i);
    ThreadedAt(head, link, chain, i + 1);
    assert chain[0] != t;
    assert Without(chain, t)[1..] == Without(rest, t);
    if i == 0 {
      assert Without(rest, t) == rest[1..];
      assert chain[0] !in rest[1..];
      ThreadedFrame(link[t], link, rest[1..], chain[0], link[t]);
    } else {
      assert rest[i - 1] == chain[i] && rest[i] == t;
      Spliced(link[chain[0]], link, rest, i - 1);
    }
  }
}
