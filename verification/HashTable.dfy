/** Hash table whose buckets are singly-linked intrusive lists. */
module HashTable {
  import opened Common
  import opened Lists

  // ---------------------------------------------------------------------------------------------
  // Buckets as sequences

  /** Every element is in the bucket of its hash value. */
  ghost predicate Filed(rows: seq<seq<Handle>>, hashElem: Handle -> nat) {
    forall i: nat, h: Handle :: i < |rows| && h in rows[i] ==> hashElem(h) == i
  }

  /** `h` is in its bucket. */
  ghost predicate InRow(rows: seq<seq<Handle>>, hashElem: Handle -> nat, h: Handle) {
    hashElem(h) < |rows| && h in rows[hashElem(h)]
  }

  /** The elements in the buckets are those of the table. */
  ghost predicate Holds<Key(!new)>(rows: seq<seq<Handle>>, table: map<Key, Handle>, hashElem: Handle -> nat,
                                   keyOf: Handle -> Key) {
    && (forall h: Handle :: InRow(rows, hashElem, h) <==> keyOf(h) in table && table[keyOf(h)] == h)
    && forall k :: k in table ==> keyOf(table[k]) == k
  }

  lemma InsertRow<Key(!new)>(rows: seq<seq<Handle>>, table: map<Key, Handle>, hashElem: Handle -> nat,
                             keyOf: Handle -> Key, h: Handle)
    requires Filed(rows, hashElem) && Holds(rows, table, hashElem, keyOf)
    requires hashElem(h) < |rows| && keyOf(h) !in table
    ensures
      var rows' := rows[hashElem(h) := [h] + rows[hashElem(h)]];
      Filed(rows', hashElem) && Holds(rows', table[keyOf(h) := h], hashElem, keyOf)
    ensures h !in rows[hashElem(h)]
  {
    var rows' := rows[hashElem(h) := [h] + rows[hashElem(h)]];
    assert !InRow(rows, hashElem, h);
    forall g: Handle ensures InRow(rows', hashElem, g) <==> InRow(rows, hashElem, g) || g == h {
    }
  }

  lemma RemoveRow<Key(!new)>(rows: seq<seq<Handle>>, table: map<Key, Handle>, hashElem: Handle -> nat,
                             keyOf: Handle -> Key, h: Handle)
    requires Filed(rows, hashElem) && Holds(rows, table, hashElem, keyOf)
    requires forall i :: 0 <= i < |rows| ==> NoDup(rows[i])
    requires InRow(rows, hashElem, h)
    ensures
      var rows' := rows[hashElem(h) := Without(rows[hashElem(h)], h)];
      Filed(rows', hashElem) && Holds(rows', table - {keyOf(h)}, hashElem, keyOf)
  {
    var rows' := rows[hashElem(h) := Without(rows[hashElem(h)], h)];
    WithoutHas(rows[hashElem(h)], h);
    forall g: Handle ensures InRow(rows', hashElem, g) <==> InRow(rows, hashElem, g) && g != h {
    }
  }

  /** The element with a key is to be found in the bucket of its hash value. */
  lemma KeyRow<Key(!new)>(rows: seq<seq<Handle>>, table: map<Key, Handle>, hashElem: Handle -> nat,
                          keyOf: Handle -> Key, hashKey: Key -> nat, k: Key)
    requires Holds(rows, table, hashElem, keyOf) && hashKey(k) < |rows|
    requires forall h: Handle :: hashElem(h) == hashKey(keyOf(h))
    ensures forall h: Handle :: h in rows[hashKey(k)] && keyOf(h) == k ==> k in table && table[k] == h
    ensures k in table ==> table[k] in rows[hashKey(k)] && keyOf(table[k]) == k
  {
    forall h: Handle | h in rows[hashKey(k)] && keyOf(h) == k ensures k in table && table[k] == h {
      assert InRow(rows, hashElem, h);
    }
    if k in table {
      assert InRow(rows, hashElem, table[k]);
    }
  }

  lemma WithoutHas(s: seq<Handle>, x: Handle)
    requires NoDup(s) && x in s
    ensures forall h :: h in Without(s, x) <==> h in s && h != x
    ensures NoDup(Without(s, x)) && |Without(s, x)| == |s| - 1
  {
    var i, r := Place(s, x), Without(s, x);
    forall h | h in s && h != x ensures h in r {
      var j := Place(s, h);
      assert h == r[if j < i then j else j - 1];
    }
  }

  /** `all` lists the elements of the table `before`. */
  ghost predicate Enumerates<Key(!new)>(all: seq<Handle>, before: map<Key, Handle>, keyOf: Handle -> Key) {
    && (forall h :: h in all <==> keyOf(h) in before && before[keyOf(h)] == h)
    && (forall k :: k in before ==> before[k] in all && keyOf(before[k]) == k) && NIL !in all
  }

  lemma SpotBefore(next: map<Handle, Handle>, s: seq<Handle>, h: Handle)
    requires Chain(next, s) && h in s
    ensures
      var p := Place(s, h);
      && Without(s, h) == WithoutAt(s, p)
      && (p == 0 ==> WithoutAt(s, p) == s[1..])
      && (p > 0 ==> s[p - 1] != NIL && s[p - 1] in s && Place(s, s[p - 1]) + 1 == p)
  {
    var p := Place(s, h);
    if p > 0 {
      assert LinkedAt(next, s, p - 1);
      PlaceUnique(s, p - 1);
    }
  }

  /** Takes out of a bucket the element `h`, which is first if `last` is NIL and else the one after `last`. */
  method RemoveAfter(b: List, last: Handle, h: Handle)
    requires b.Valid() && h in b.contents
    requires last == if Place(b.contents, h) == 0 then NIL else b.contents[Place(b.contents, h) - 1]
    modifies b, b.links
    ensures b.Valid() && b.contents == Without(old(b.contents), h)
    ensures SameOutside(old(b.links.next), b.links.next, old(b.contents))
  {
    SpotBefore(b.links.next, b.contents, h);
    hide Chain, SameOutside, Without, WithoutAt;
    if last == NIL {
      var first := b.Pop(true);
    } else {
      b.RemoveForward(last);
    }
  }

  // ---------------------------------------------------------------------------------------------
  // The table

  class Table<Key(==,!new)> {
    const links: Links
    const buckets: seq<List>
    const hashKey: Key -> nat
    const hashElem: Handle -> nat
    const isKey: (Key, Handle) -> bool
    ghost const keyOf: Handle -> Key
    ghost const repr: set<List>
    ghost var table: map<Key, Handle>

    /** What the abstractor promises. */
    ghost predicate Consistent() {
      && (forall k :: hashKey(k) < |buckets|)
      && (forall h: Handle :: hashElem(h) == hashKey(keyOf(h)))
      && (forall k, h: Handle :: isKey(k, h) <==> keyOf(h) == k)
    }

    ghost predicate BucketsValid()
      reads links, repr
    {
      && repr == (set b | b in buckets)
      && (forall i, j :: 0 <= i < j < |buckets| ==> buckets[i] != buckets[j])
      && forall i :: 0 <= i < |buckets| ==> buckets[i].links == links && buckets[i].Valid()
    }

    /** The contents of the buckets. */
    ghost function Rows(): (r: seq<seq<Handle>>)
      reads set b | b in buckets
      ensures |r| == |buckets|
    {
      seq(|buckets|, i requires 0 <= i < |buckets| reads set b | b in buckets => buckets[i].contents)
    }

    ghost predicate Valid()
      reads this, links, repr
    {
      Consistent() && BucketsValid() && Filed(Rows(), hashElem) && Holds(Rows(), table, hashElem, keyOf)
    }

    /** Buckets must be empty, and the functions consistent with each other. */
    constructor (links: Links, buckets: seq<List>, hashKey: Key -> nat, hashElem: Handle -> nat,
                 isKey: (Key, Handle) -> bool, ghost keyOf: Handle -> Key)
      requires forall i, j :: 0 <= i < j < |buckets| ==> buckets[i] != buckets[j]
      requires forall b <- buckets :: b.links == links && b.Valid() && b.contents == []
      requires forall k :: hashKey(k) < |buckets|
      requires forall h: Handle :: hashElem(h) == hashKey(keyOf(h))
      requires forall k, h: Handle :: isKey(k, h) <==> keyOf(h) == k
      ensures Valid() && table == map[] && this.links == links && this.buckets == buckets
      ensures this.hashKey == hashKey && this.hashElem == hashElem && this.isKey == isKey && this.keyOf == keyOf
    {
      this.links, this.buckets := links, buckets;
      this.hashKey, this.hashElem, this.isKey, this.keyOf := hashKey, hashElem, isKey, keyOf;
      table := map[];
      repr := set b | b in buckets;
      new;
      assert Rows() == seq(|buckets|, i => []);
    }

    /** Looking through the bucket for `k`: at place `p` or after is its element, if there is one. */
    ghost predicate Looked(b: List, k: Key, p: nat)
      reads b
    {
      p <= |b.contents| && forall q :: 0 <= q < p ==> keyOf(b.contents[q]) != k
    }

    lemma LookEnds(k: Key, p: nat)
      requires Valid() && hashKey(k) < |buckets|
      requires var b := buckets[hashKey(k)]; Looked(b, k, p) && (p < |b.contents| ==> keyOf(b.contents[p]) == k)
      ensures
        var b := buckets[hashKey(k)];
        At(b.contents, p) == (if k in table then table[k] else NIL) && (k in table <==> p < |b.contents|)
    {
      var b := buckets[hashKey(k)];
      KeyRow(Rows(), table, hashElem, keyOf, hashKey, k);
      assert Rows()[hashKey(k)] == b.contents;
      if k in table {
        var q := Place(b.contents, table[k]);
      }
      if p < |b.contents| {
        assert b.contents[p] in b.contents;
      }
    }

    /** Returns the element whose key is `k`, or NIL. */
    method Search(k: Key) returns (h: Handle)
      requires Valid()
      ensures h == if k in table then table[k] else NIL
    {
      var b := buckets[hashKey(k)];
      h := b.Start(true);
      ghost var p := 0;
      while h != NIL && !isKey(k, h)
        invariant Looked(b, k, p) && h == At(b.contents, p)
        decreases |b.contents| - p
      {
        StepOn(links.next, b.contents, p);
        h := b.Link(h, true);
        p := p + 1;
      }
      StepOn(links.next, b.contents, p);
      LookEnds(k, p);
    }

    /** Bucket `j` is right but for the links. */
    ghost predicate Kept(j: nat, rows: seq<seq<Handle>>, before: map<Handle, Handle>)
      requires j < |buckets| == |rows|
      reads buckets[j]
    {
      buckets[j].links == links && buckets[j].EndsRight() && buckets[j].contents == rows[j] && Chain(before, rows[j])
    }

    lemma AllKept()
      requires BucketsValid()
      ensures forall j: nat :: j < |buckets| ==> Kept(j, Rows(), links.next)
    {
    }

    /** After a change of bucket `i` alone, and of no links but of elements `s` that belong there. */
    lemma BucketChanged(i: nat, rows: seq<seq<Handle>>, before: map<Handle, Handle>, s: seq<Handle>)
      requires i < |buckets| == |rows| && repr == (set b | b in buckets)
      requires forall i, j :: 0 <= i < j < |buckets| ==> buckets[i] != buckets[j]
      requires buckets[i].links == links && buckets[i].Valid()
      requires forall j: nat :: j < |buckets| && j != i ==> Kept(j, rows, before)
      requires SameOutside(before, links.next, s) && Filed(rows, hashElem) && forall h :: h in s ==> hashElem(h) == i
      ensures BucketsValid() && Rows() == rows[i := buckets[i].contents]
    {
      forall j: nat | j < |buckets| && j != i
        ensures buckets[j].links == links && buckets[j].Valid() && buckets[j].contents == rows[j]
      {
        assert Kept(j, rows, before);
        ChainFrame(before, links.next, rows[j], s);
      }
    }

    /** Puts in an element whose key no element in the table has. */
    method Insert(h: Handle)
      requires Valid() && h != NIL && keyOf(h) !in table
      modifies this, links, repr
      ensures Valid() && table == old(table)[keyOf(h) := h]
      ensures Rows() == old(Rows())[hashElem(h) := [h] + old(Rows())[hashElem(h)]]
    {
      ghost var rows := Rows();
      var i := hashElem(h);
      var b := buckets[i];
      InsertRow(rows, table, hashElem, keyOf, h);
      AllKept();
      hide Filed, Holds, SameOutside, Chain;
      b.Push(h, true);
      table := table[keyOf(h) := h];
      assert forall j: nat :: j < |buckets| && j != i ==> Kept(j, rows, old(links.next));
      RowElems(rows, hashElem, i);
      BucketChanged(i, rows, old(links.next), b.contents);
    }

    /** Takes out an element. */
    method Remove(h: Handle)
      requires Valid() && keyOf(h) in table && table[keyOf(h)] == h
      modifies this, links, repr
      ensures Valid() && table == old(table) - {keyOf(h)}
      ensures InRow(old(Rows()), hashElem, h)
      ensures Rows() == old(Rows())[hashElem(h) := Without(old(Rows())[hashElem(h)], h)]
    {
      ghost var rows := Rows();
      assert InRow(rows, hashElem, h);
      var i := hashElem(h);
      var b := buckets[i];
      RowsNoDup();
      RemoveRow(rows, table, hashElem, keyOf, h);
      AllKept();
      RowElems(rows, hashElem, i);
      assert rows[i] == b.contents;
      hide Filed, Holds, SameOutside, Chain, Without;
      b.Remove(h);
      table := table - {keyOf(h)};
      assert forall j: nat :: j < |buckets| && j != i ==> Kept(j, rows, old(links.next));
      BucketChanged(i, rows, old(links.next), rows[i]);
    }

    lemma RowFacts(v: nat)
      requires BucketsValid() && v < |buckets|
      ensures Rows()[v] == buckets[v].contents && buckets[v].Valid() && buckets[v].links == links
      ensures NoDup(Rows()[v]) && (FirstOf(Rows()[v]) == NIL <==> Rows()[v] == [])
    {
      FirstNotNil(links.next, buckets[v].contents);
    }

    lemma RowHas(v: nat, h: Handle)
      requires Valid() && v < |buckets| && h in Rows()[v]
      ensures h != NIL && keyOf(h) in table && table[keyOf(h)] == h
    {
      var s := buckets[v].contents;
      assert LinkedAt(links.next, s, Place(s, h)) && InRow(Rows(), hashElem, h);
    }

    lemma Elements()
      requires Valid()
      ensures Apart(Rows()) && NoDup(Flat(Rows())) && Enumerates(Flat(Rows()), table, keyOf)
    {
      RowsNoDup();
      FlatIsTable(Rows(), table, hashElem, keyOf);
      forall k ensures k in table ==> table[k] != NIL && table[k] in Flat(Rows()) && keyOf(table[k]) == k {
        NotNil(k);
      }
    }

    lemma RowsNoDup()
      requires BucketsValid()
      ensures forall i :: 0 <= i < |buckets| ==> NoDup(Rows()[i])
    {
    }

    /** The loop of RemoveKey: the element to remove, or NIL, and the one before it in its bucket. */
    method FindSpot(k: Key) returns (h: Handle, last: Handle)
      requires Valid()
      ensures h == if k in table then table[k] else NIL
      ensures h != NIL ==> hashElem(h) == hashKey(k) && InRow(Rows(), hashElem, h)
      ensures
        var s := buckets[hashKey(k)].contents;
        h != NIL ==> h in s && last == if Place(s, h) == 0 then NIL else s[Place(s, h) - 1]
    {
      hide Filed, Holds, Chain, NoDup, InRow;
      var b := buckets[hashKey(k)];
      h := b.Start(true);
      last := NIL;
      ghost var p := 0;
      while h != NIL && !isKey(k, h)
        invariant Looked(b, k, p) && h == At(b.contents, p)
        invariant last == if p == 0 then NIL else b.contents[p - 1]
        decreases |b.contents| - p
      {
        StepOn(links.next, b.contents, p);
        last := h;
        h := b.Link(h, true);
        p := p + 1;
      }
      StepOn(links.next, b.contents, p);
      LookEnds(k, p);
      if p < |b.contents| {
        SpotRow(b, p);
      }
    }

    lemma SpotRow(b: List, p: nat)
      requires Valid() && b in buckets && p < |b.contents|
      ensures
        var h := b.contents[p];
        && b.contents == Rows()[hashElem(h)] && InRow(Rows(), hashElem, h)
        && hashElem(h) == hashKey(keyOf(h)) && Place(b.contents, h) == p
    {
      var i :| 0 <= i < |buckets| && buckets[i] == b;
      assert Rows()[i] == b.contents && b.contents[p] in Rows()[i];
      PlaceUnique(b.contents, p);
    }

    /** Takes out the element whose key is `k` and returns it, or NIL. */
    method RemoveKey(k: Key) returns (h: Handle)
      requires Valid()
      modifies this, links, repr
      ensures Valid() && h == (if k in old(table) then old(table)[k] else NIL)
      ensures table == old(table) - {k}
      ensures h != NIL ==> InRow(old(Rows()), hashElem, h)
      ensures Rows() == if h == NIL then old(Rows())
                        else old(Rows())[hashElem(h) := Without(old(Rows())[hashElem(h)], h)]
    {
      ghost var rows := Rows();
      ghost var i := hashKey(k);
      var b := buckets[hashKey(k)];
      var last: Handle;
      h, last := FindSpot(k);
      NotNil(k);
      if h != NIL {
        RowsNoDup();
        RemoveRow(rows, table, hashElem, keyOf, h);
        AllKept();
        RowElems(rows, hashElem, i);
        assert rows[i] == b.contents;
        hide Filed, Holds, SameOutside, Chain, InRow, Without;
        RemoveAfter(b, last, h);
        table := table - {k};
        assert forall j: nat :: j < |buckets| && j != i ==> Kept(j, rows, old(links.next));
        BucketChanged(i, rows, old(links.next), rows[i]);
      }
    }

    lemma NotNil(k: Key)
      requires Valid()
      ensures k in table ==> table[k] != NIL
    {
      if k in table {
        var h := table[k];
        assert InRow(Rows(), hashElem, h);
        var s := buckets[hashElem(h)].contents;
        assert LinkedAt(links.next, s, Place(s, h));
      }
    }

    /** Makes the table empty. */
    method Purge()
      requires Valid()
      modifies this`table, repr
      ensures Valid() && table == map[]
    {
      hide Filed, Holds, Chain;
      var i := 0;
      while i < |buckets|
        invariant i <= |buckets| && BucketsValid()
        invariant forall j :: 0 <= j < i ==> buckets[j].contents == []
      {
        buckets[i].Purge();
        i := i + 1;
      }
      table := map[];
      assert forall j :: 0 <= j < |buckets| ==> Rows()[j] == [];
      EmptyRows(Rows(), hashElem, keyOf);
    }
  }

  lemma EmptyRows<Key(!new)>(rows: seq<seq<Handle>>, hashElem: Handle -> nat, keyOf: Handle -> Key)
    requires forall j :: 0 <= j < |rows| ==> rows[j] == []
    ensures Filed(rows, hashElem) && Holds(rows, map[], hashElem, keyOf)
  {
  }

  lemma RowElems(rows: seq<seq<Handle>>, hashElem: Handle -> nat, i: nat)
    requires Filed(rows, hashElem) && i < |rows|
    ensures forall h :: h in rows[i] ==> hashElem(h) == i
  {
  }

  // ---------------------------------------------------------------------------------------------
  // Iteration

  /** All elements, bucket by bucket. */
  ghost function Flat(rows: seq<seq<Handle>>): seq<Handle> {
    if rows == [] then [] else rows[0] + Flat(rows[1..])
  }

  /** The elements of the buckets from `v` on; none past the end. */
  ghost function FlatFrom(rows: seq<seq<Handle>>, v: nat): seq<Handle> {
    if v < |rows| then Flat(rows[v..]) else []
  }

  /** The elements from `h` in bucket `v` on. */
  ghost function From(rows: seq<seq<Handle>>, v: nat, h: Handle): seq<Handle>
    requires v < |rows| && h in rows[v]
  {
    rows[v][Place(rows[v], h)..] + FlatFrom(rows, v + 1)
  }

  lemma FlatStep(rows: seq<seq<Handle>>, v: nat)
    requires v < |rows|
    ensures FlatFrom(rows, v) == rows[v] + FlatFrom(rows, v + 1)
  {
    assert rows[v..][0] == rows[v] && rows[v..][1..] == rows[v + 1..];
  }

  lemma FromStart(rows: seq<seq<Handle>>)
    ensures FlatFrom(rows, 0) == Flat(rows)
  {
    assert rows[0..] == rows;
  }

  lemma FlatEnd(rows: seq<seq<Handle>>, v: nat)
    ensures v >= |rows| ==> FlatFrom(rows, v) == []
  {
  }

  lemma FromFirst(rows: seq<seq<Handle>>, v: nat)
    requires v < |rows| && NoDup(rows[v])
    ensures rows[v] == [] ==> FlatFrom(rows, v) == FlatFrom(rows, v + 1)
    ensures rows[v] != [] ==> From(rows, v, rows[v][0]) == FlatFrom(rows, v)
  {
    FlatStep(rows, v);
    if rows[v] != [] {
      PlaceUnique(rows[v], 0);
    }
  }

  lemma FromNext(rows: seq<seq<Handle>>, v: nat, h: Handle)
    requires v < |rows| && h in rows[v] && NoDup(rows[v])
    ensures From(rows, v, h) != [] && From(rows, v, h)[0] == h
    ensures
      var p := Place(rows[v], h);
      From(rows, v, h)[1..] == if p + 1 < |rows[v]| then From(rows, v, rows[v][p + 1]) else FlatFrom(rows, v + 1)
  {
    var p := Place(rows[v], h);
    if p + 1 < |rows[v]| {
      PlaceUnique(rows[v], p + 1);
    }
  }

  /** No element is twice in the buckets. */
  ghost predicate Apart(rows: seq<seq<Handle>>) {
    && (forall i :: 0 <= i < |rows| ==> NoDup(rows[i]))
    && forall i, j, h :: 0 <= i < j < |rows| && h in rows[i] ==> h !in rows[j]
  }

  lemma {:induction false} FlatHas(rows: seq<seq<Handle>>, v: nat, h: Handle)
    ensures h in FlatFrom(rows, v) <==> exists i: nat :: v <= i < |rows| && h in rows[i]
    decreases |rows| - v
  {
    if v < |rows| {
      hide FlatFrom;
      FlatStep(rows, v);
      FlatHas(rows, v + 1, h);
    }
  }

  lemma NoDupConcat(s: seq<Handle>, t: seq<Handle>)
    requires NoDup(s) && NoDup(t) && forall h :: h in s ==> h !in t
    ensures NoDup(s + t)
  {
    forall i, j | 0 <= i < j < |s + t| ensures (s + t)[i] != (s + t)[j] {
      if i < |s| <= j {
        assert s[i] in s;
      }
    }
  }

  lemma {:induction false} FlatNoDup(rows: seq<seq<Handle>>, v: nat)
    requires Apart(rows)
    ensures NoDup(FlatFrom(rows, v))
    decreases |rows| - v
  {
    if v < |rows| {
      FlatStep(rows, v);
      FlatNoDup(rows, v + 1);
      forall h | h in rows[v] ensures h !in FlatFrom(rows, v + 1) {
        FlatHas(rows, v + 1, h);
      }
      NoDupConcat(rows[v], FlatFrom(rows, v + 1));
    }
  }

  /** What is still to come. */
  lemma FromHas(rows: seq<seq<Handle>>, v: nat, h: Handle, g: Handle)
    requires Apart(rows) && v < |rows| && h in rows[v]
    ensures g in From(rows, v, h) <==>
              || (g in rows[v] && Place(rows[v], h) <= Place(rows[v], g))
              || exists i: nat :: v + 1 <= i < |rows| && g in rows[i]
  {
    FlatHas(rows, v + 1, g);
    var s, p := rows[v], Place(rows[v], h);
    if g in s && p <= Place(s, g) {
      assert s[p..][Place(s, g) - p] == g;
    }
    if g in s[p..] {
      var j :| 0 <= j < |s| - p && s[p..][j] == g;
      PlaceUnique(s, p + j);
    }
  }

  lemma FromNoDup(rows: seq<seq<Handle>>, v: nat, h: Handle)
    requires Apart(rows) && v < |rows| && h in rows[v]
    ensures NoDup(From(rows, v, h))
  {
    FlatNoDup(rows, v + 1);
    var t := rows[v][Place(rows[v], h)..];
    forall g | g in t ensures g !in FlatFrom(rows, v + 1) {
      assert g in rows[v];
      FlatHas(rows, v + 1, g);
    }
    NoDupConcat(t, FlatFrom(rows, v + 1));
  }

  lemma WithoutPlace(s: seq<Handle>, x: Handle, g: Handle)
    requires NoDup(s) && x in s && g in s && g != x
    ensures g in Without(s, x)
    ensures Place(Without(s, x), g) == if Place(s, x) < Place(s, g) then Place(s, g) - 1 else Place(s, g)
  {
    WithoutHas(s, x);
    var r, j := Without(s, x), Place(s, g);
    PlaceUnique(r, if Place(s, x) < j then j - 1 else j);
  }

  lemma {:induction false} FlatShrinks(rows: seq<seq<Handle>>, i: nat, s: seq<Handle>, v: nat)
    requires i < |rows| && |s| <= |rows[i]|
    ensures |FlatFrom(rows[i := s], v)| <= |FlatFrom(rows, v)|
    decreases |rows| - v
  {
    if v < |rows| {
      FlatStep(rows, v);
      FlatStep(rows[i := s], v);
      FlatShrinks(rows, i, s, v + 1);
    }
  }

  /** Removing another element takes just that one out of what is still to come. */
  lemma FromWithout(rows: seq<seq<Handle>>, i: nat, x: Handle, v: nat, h: Handle)
    requires Apart(rows) && i < |rows| && x in rows[i] && v < |rows| && h in rows[v] && x != h
    ensures
      var rows' := rows[i := Without(rows[i], x)];
      && Apart(rows') && h in rows'[v] && NoDup(From(rows', v, h)) && |From(rows', v, h)| <= |From(rows, v, h)|
      && forall g :: g in From(rows', v, h) <==> g in From(rows, v, h) && g != x
  {
    hide FlatFrom, NoDup, Without;
    var rows' := rows[i := Without(rows[i], x)];
    WithoutHas(rows[i], x);
    assert Apart(rows');
    assert h in rows'[v];
    FromNoDup(rows', v, h);
    FlatShrinks(rows, i, Without(rows[i], x), v + 1);
    if i == v {
      WithoutPlace(rows[v], x, h);
    }
    forall g ensures g in From(rows', v, h) <==> g in From(rows, v, h) && g != x {
      FromHas(rows, v, h, g);
      FromHas(rows', v, h, g);
      assert forall j :: 0 <= j < |rows| ==> (g in rows'[j] <==> g in rows[j] && g != x);
      if i == v {
        WithoutPlace(rows[v], x, h);
        if g in rows[v] && g != x {
          WithoutPlace(rows[v], x, g);
        }
      }
    }
  }

  /** The elements of a valid table, each once. */
  lemma FlatIsTable<Key(!new)>(rows: seq<seq<Handle>>, table: map<Key, Handle>, hashElem: Handle -> nat,
                               keyOf: Handle -> Key)
    requires Filed(rows, hashElem) && Holds(rows, table, hashElem, keyOf)
    requires forall i :: 0 <= i < |rows| ==> NoDup(rows[i])
    ensures Apart(rows) && NoDup(Flat(rows))
    ensures forall h :: h in Flat(rows) <==> keyOf(h) in table && table[keyOf(h)] == h
  {
    FiledApart(rows, hashElem);
    FlatNoDup(rows, 0);
    assert rows[0..] == rows;
    assert FlatFrom(rows, 0) == Flat(rows);
    forall h ensures h in Flat(rows) <==> InRow(rows, hashElem, h) {
      FlatHas(rows, 0, h);
      hide Holds;
      assert forall i: nat :: i < |rows| && h in rows[i] ==> hashElem(h) == i;
    }
    hide Filed, NoDup, Apart, FlatFrom;
  }

  lemma FiledApart(rows: seq<seq<Handle>>, hashElem: Handle -> nat)
    requires Filed(rows, hashElem) && forall i :: 0 <= i < |rows| ==> NoDup(rows[i])
    ensures Apart(rows)
  {
    hide NoDup;
    forall i: nat, j: nat, h | i < j < |rows| && h in rows[i] ensures h !in rows[j] {
      assert hashElem(h) == i;
    }
  }

  /** The next value of an unsigned index. */
  function Succ(v: nat, wrap: nat): nat {
    if v + 1 == wrap then 0 else v + 1
  }

  /** The iterator; `wrap` is what its unsigned index type wraps at. */
  class Iter<Key(==,!new)> {
    const ht: Table<Key>
    const wrap: nat
    var hv: nat
    var curr: Handle

    ghost predicate Valid()
      reads this, ht, ht.links, ht.repr
    {
      && ht.Valid() && |ht.buckets| < wrap && hv < wrap
      && if curr == NIL then |ht.buckets| <= hv else hv < |ht.buckets| && curr in ht.Rows()[hv]
    }

    /** The current element and those to come. */
    ghost function Ahead(): seq<Handle>
      requires Valid()
      reads this, ht, ht.links, ht.repr
    {
      if curr == NIL then [] else From(ht.Rows(), hv, curr)
    }

    /** At the first element. */
    constructor (ht: Table<Key>, wrap: nat)
      requires ht.Valid() && |ht.buckets| < wrap
      ensures this.ht == ht && this.wrap == wrap && Valid() && Ahead() == Flat(ht.Rows())
    {
      this.ht, this.wrap := ht, wrap;
      hv := wrap - 1;
      curr := NIL;
      new;
      FindNext();
      assert ht.Rows()[0..] == ht.Rows();
    }

    /** The loop of the advance: if need be on to the first element of the buckets after the current one. */
    method FindNext()
      requires ht.Valid() && |ht.buckets| < wrap && hv < wrap
      requires curr != NIL ==> hv < |ht.buckets| && curr in ht.Rows()[hv]
      modifies this
      ensures Valid()
      ensures Ahead() == if old(curr) != NIL then From(ht.Rows(), old(hv), old(curr))
                         else FlatFrom(ht.Rows(), Succ(old(hv), wrap))
    {
      hide Filed, Holds, Chain, NoDup, FlatFrom, From, Flat;
      ghost var rows := ht.Rows();
      ghost var goal := if curr != NIL then From(rows, hv, curr) else FlatFrom(rows, Succ(hv, wrap));
      while curr == NIL
        invariant hv < wrap && ht.Rows() == rows
        invariant if curr == NIL then FlatFrom(rows, Succ(hv, wrap)) == goal
                  else hv < |rows| && curr in rows[hv] && From(rows, hv, curr) == goal
        decreases if curr == NIL then wrap - Succ(hv, wrap) else 0
      {
        hv := Succ(hv, wrap);
        if hv >= |ht.buckets| {
          break;
        }
        ht.RowFacts(hv);
        FromFirst(rows, hv);
        curr := ht.buckets[hv].Start(true);
      }
      FlatEnd(rows, hv);
    }

    lemma NextFacts()
      requires Valid() && curr != NIL
      ensures
        var rows, b := ht.Rows(), ht.buckets[hv];
        && b.Valid() && b.contents == rows[hv]
        && var h := Follower(rows[hv], curr, true);
        && (h != NIL ==> h in rows[hv])
        && Ahead() != [] && Ahead()[0] == curr
        && Ahead()[1..] == if h != NIL then From(rows, hv, h) else FlatFrom(rows, hv + 1)
    {
      hide Filed, Holds, NoDup, FlatFrom, From, Flat, Chain;
      var s := ht.Rows()[hv];
      ht.RowFacts(hv);
      FromNext(ht.Rows(), hv, curr);
      StepOn(ht.links.next, s, Place(s, curr));
      StepOn(ht.links.next, s, Place(s, curr) + 1);
    }

    lemma AtEnd()
      requires Valid() && curr == NIL
      ensures Ahead() == [] && ht.Valid()
    {
    }

    lemma Facts()
      requires Valid() && curr != NIL
      ensures Apart(ht.Rows()) && NoDup(Ahead()) && NIL !in Ahead()
      ensures ht.keyOf(curr) in ht.table && ht.table[ht.keyOf(curr)] == curr
    {
      ht.Elements();
      var rows := ht.Rows();
      FromNoDup(rows, hv, curr);
      assert rows[hv] == ht.buckets[hv].contents;
      forall g | g in Ahead() ensures g != NIL {
        FromHas(rows, hv, curr, g);
        var i: nat :| i < |rows| && g in rows[i];
        ht.RowHas(i, g);
      }
      ht.RowHas(hv, curr);
    }

    /** To the next element.  Past the end the index counts on, and only when it wraps does the iteration begin
        again. */
    method Next()
      requires Valid()
      modifies this
      ensures Valid()
      ensures old(curr) != NIL ==> old(Ahead()) != [] && old(Ahead())[0] == old(curr) && Ahead() == old(Ahead())[1..]
      ensures old(curr) == NIL ==> Ahead() == if old(hv) + 1 == wrap then Flat(ht.Rows()) else []
    {
      hide Filed, Holds, NoDup, FlatFrom, From, Flat, Chain;
      if curr != NIL {
        NextFacts();
        curr := ht.buckets[hv].Link(curr, true);
      } else {
        FlatEnd(ht.Rows(), hv + 1);
        FromStart(ht.Rows());
      }
      FindNext();
    }
  }

  // ---------------------------------------------------------------------------------------------
  // Whole iterations

  lemma OneFurther(out: seq<Handle>, ahead: seq<Handle>)
    requires ahead != []
    ensures out + ahead == (out + [ahead[0]]) + ahead[1..]
  {
  }

  /** A full iteration: every element once. */
  method Visit<Key(!new)>(ht: Table<Key>, wrap: nat) returns (out: seq<Handle>)
    requires ht.Valid() && |ht.buckets| < wrap
    ensures NoDup(out)
    ensures forall h :: h in out <==> ht.keyOf(h) in ht.table && ht.table[ht.keyOf(h)] == h
  {
    hide Table.Valid, Iter.Valid, Iter.Ahead, NoDup, Flat;
    ghost var all := Flat(ht.Rows());
    ht.Elements();
    var it := new Iter(ht, wrap);
    out := [];
    while it.curr != NIL
      invariant it.Valid() && it.ht == ht && fresh(it) && out + it.Ahead() == all
      decreases |it.Ahead()|
    {
      ghost var ahead := it.Ahead();
      var h := it.curr;
      it.Next();
      OneFurther(out, ahead);
      out := out + [h];
    }
    it.AtEnd();
    assert out == all;
  }

  ghost predicate Shrunk<Key(!new)>(table: map<Key, Handle>, before: map<Key, Handle>) {
    table.Keys <= before.Keys
  }

  lemma ShrunkSame<Key(!new)>(table: map<Key, Handle>)
    ensures Shrunk(table, table)
  {
  }

  lemma ShrunkMore<Key(!new)>(c: map<Key, Handle>, b: map<Key, Handle>, a: map<Key, Handle>)
    requires Shrunk(c, b) && Shrunk(b, a)
    ensures Shrunk(c, a)
  {
  }

  /** Of the first `n` keys none is left but `own`. */
  ghost predicate Cleared<Key(!new)>(keys: seq<Key>, n: nat, table: map<Key, Handle>, own: Key) {
    n <= |keys| && forall i :: 0 <= i < n && keys[i] in table ==> keys[i] == own
  }

  lemma ClearedNone<Key(!new)>(keys: seq<Key>, table: map<Key, Handle>, own: Key)
    ensures Cleared(keys, 0, table, own)
  {
  }

  lemma ClearedMore<Key(!new)>(keys: seq<Key>, n: nat, before: map<Key, Handle>, table: map<Key, Handle>, own: Key)
    requires Cleared(keys, n, before, own) && n < |keys| && Shrunk(table, before)
    requires keys[n] in table ==> keys[n] == own
    ensures Cleared(keys, n + 1, table, own)
  {
  }

  /** Removes the element whose key is `k`, if there is one and the iterator is not at it. */
  method RemoveOther<Key(==,!new)>(it: Iter<Key>, k: Key) returns (h: Handle)
    requires it.Valid() && it.curr != NIL
    modifies it.ht, it.ht.links, it.ht.repr
    ensures it.Valid() && it.curr == old(it.curr) && it.hv == old(it.hv)
    ensures NoDup(it.Ahead()) && forall g :: g in it.Ahead() <==> g in old(it.Ahead()) && g != h
    ensures h != it.curr && |it.Ahead()| <= old(|it.Ahead()|)
    ensures h == if k in old(it.ht.table) && k != it.ht.keyOf(it.curr) then old(it.ht.table)[k] else NIL
    ensures it.ht.table == if h == NIL then old(it.ht.table) else old(it.ht.table) - {k}
    ensures h != NIL ==> k in old(it.ht.table) && old(it.ht.table)[k] == h
    ensures Shrunk(it.ht.table, old(it.ht.table)) && (k in it.ht.table ==> k == it.ht.keyOf(it.curr))
  {
    it.Facts();
    ghost var rows := it.ht.Rows();
    h := NIL;
    if !it.ht.isKey(k, it.curr) {
      it.ht.NotNil(k);
      h := it.ht.RemoveKey(k);
      if h != NIL {
        FromWithout(rows, it.ht.hashElem(h), h, it.hv, it.curr);
      }
    }
  }

  /** `out` has been visited, `ahead` is to come, and the rest of `all` is gone. */
  ghost predicate Visited(all: seq<Handle>, out: seq<Handle>, ahead: seq<Handle>, gone: set<Handle>) {
    && NoDup(out + ahead) && (forall h :: h in all <==> h in out || h in ahead || h in gone)
    && forall h :: h in ahead ==> h !in gone
  }

  /** What is left of the table `before`. */
  ghost predicate Left<Key(!new)>(table: map<Key, Handle>, before: map<Key, Handle>, gone: set<Handle>) {
    table.Keys <= before.Keys
    && forall k :: k in before ==> (k in table <==> before[k] !in gone) && (k in table ==> table[k] == before[k])
  }

  lemma VisitedRemove(all: seq<Handle>, out: seq<Handle>, ahead: seq<Handle>, gone: set<Handle>, ahead': seq<Handle>,
                      h: Handle)
    requires Visited(all, out, ahead, gone) && NoDup(ahead') && forall g :: g in ahead' <==> g in ahead && g != h
    requires h in all
    ensures Visited(all, out, ahead', gone + {h})
  {
    forall g | g in out ensures g !in ahead' {
      if g in ahead {
        OnceConcat(out, ahead, g);
      }
    }
    NoDupParts(out, ahead);
    NoDupConcat(out, ahead');
  }

  lemma VisitedSame(all: seq<Handle>, out: seq<Handle>, ahead: seq<Handle>, gone: set<Handle>, ahead': seq<Handle>)
    requires Visited(all, out, ahead, gone) && NoDup(ahead') && forall g :: g in ahead' <==> g in ahead && g != NIL
    requires NIL !in all
    ensures Visited(all, out, ahead', gone)
  {
    forall g | g in out ensures g !in ahead' {
      if g in ahead {
        OnceConcat(out, ahead, g);
      }
    }
    NoDupParts(out, ahead);
    NoDupConcat(out, ahead');
  }

  lemma OnceConcat(s: seq<Handle>, t: seq<Handle>, g: Handle)
    requires NoDup(s + t) && g in s
    ensures g !in t
  {
    var i := Place(s, g);
    forall j: nat | j < |t| ensures t[j] != g {
      assert (s + t)[i] != (s + t)[|s| + j];
    }
  }

  lemma LeftNone<Key(!new)>(table: map<Key, Handle>)
    ensures Left(table, table, {})
  {
  }

  lemma LeftRemove<Key(!new)>(table: map<Key, Handle>, before: map<Key, Handle>, gone: set<Handle>, k: Key,
                              all: seq<Handle>, keyOf: Handle -> Key)
    requires Left(table, before, gone) && Enumerates(all, before, keyOf) && k in table
    ensures table[k] in all && keyOf(table[k]) == k && Left(table - {k}, before, gone + {table[k]})
  {
    forall j | j in before && before[j] == table[k] ensures j == k {
      assert before[j] in all && before[k] in all;
    }
  }

  /** The elements of `gone'` that are not of `gone` have some of the given keys. */
  ghost predicate Named<Key(!new)>(gone': set<Handle>, gone: set<Handle>, keys: seq<Key>, keyOf: Handle -> Key) {
    forall g :: g in gone' ==> g in gone || keyOf(g) in keys
  }

  /** Removes the elements with the given keys, but for the one the iterator is at. */
  method RemoveOthers<Key(==,!new)>(it: Iter<Key>, keys: seq<Key>, ghost all: seq<Handle>, ghost out: seq<Handle>,
                                    ghost before: map<Key, Handle>, gone: set<Handle>)
    returns (gone': set<Handle>)
    requires it.Valid() && it.curr != NIL && Enumerates(all, before, it.ht.keyOf)
    requires Visited(all, out, it.Ahead(), gone) && Left(it.ht.table, before, gone)
    modifies it.ht, it.ht.links, it.ht.repr
    ensures it.Valid() && it.curr == old(it.curr) && it.hv == old(it.hv) && |it.Ahead()| <= old(|it.Ahead()|)
    ensures Visited(all, out, it.Ahead(), gone') && Left(it.ht.table, before, gone')
    ensures Shrunk(it.ht.table, old(it.ht.table)) && Cleared(keys, |keys|, it.ht.table, it.ht.keyOf(it.curr))
    ensures Named(gone', gone, keys, it.ht.keyOf)
  {
    assert NIL !in all;
    ClearedNone(keys, it.ht.table, it.ht.keyOf(it.curr));
    ShrunkSame(it.ht.table);
    hide Iter.Valid, Iter.Ahead, NoDup, Enumerates, Visited, Left, Cleared, Shrunk;
    gone' := gone;
    var j := 0;
    while j < |keys|
      invariant it.Valid() && it.curr == old(it.curr) && it.hv == old(it.hv) && |it.Ahead()| <= old(|it.Ahead()|)
      invariant Visited(all, out, it.Ahead(), gone') && Left(it.ht.table, before, gone')
      invariant j <= |keys| && Shrunk(it.ht.table, old(it.ht.table))
      invariant Cleared(keys, j, it.ht.table, it.ht.keyOf(it.curr)) && Named(gone', gone, keys, it.ht.keyOf)
    {
      ghost var ahead, table := it.Ahead(), it.ht.table;
      var h := RemoveOther(it, keys[j]);
      ClearedMore(keys, j, table, it.ht.table, it.ht.keyOf(it.curr));
      ShrunkMore(it.ht.table, table, old(it.ht.table));
      if h != NIL {
        LeftRemove(table, before, gone', keys[j], all, it.ht.keyOf);
        VisitedRemove(all, out, ahead, gone', it.Ahead(), h);
        gone' := gone' + {h};
      } else {
        VisitedSame(all, out, ahead, gone', it.Ahead());
      }
      j := j + 1;
    }
  }

  /** The plan has been carried out for the elements visited: of its keys at most the element's own is left, and only
      elements with such keys are gone. */
  ghost predicate Done<Key(!new)>(out: seq<Handle>, plan: Handle -> seq<Key>, table: map<Key, Handle>,
                                  gone: set<Handle>, keyOf: Handle -> Key)
  {
    && (forall h, k :: h in out && k in plan(h) && k in table ==> k == keyOf(h))
    && (forall g :: g in gone ==> exists h :: h in out && keyOf(g) in plan(h))
  }

  lemma DoneNone<Key(!new)>(plan: Handle -> seq<Key>, table: map<Key, Handle>, keyOf: Handle -> Key)
    ensures Done([], plan, table, {}, keyOf)
  {
  }

  lemma DoneMore<Key(!new)>(out: seq<Handle>, plan: Handle -> seq<Key>, before: map<Key, Handle>,
                            table: map<Key, Handle>, was: set<Handle>, gone: set<Handle>, keyOf: Handle -> Key,
                            h: Handle)
    requires Done(out, plan, before, was, keyOf) && Shrunk(table, before)
    requires Cleared(plan(h), |plan(h)|, table, keyOf(h)) && Named(gone, was, plan(h), keyOf)
    ensures Done(out + [h], plan, table, gone, keyOf)
  {
    assert h in out + [h];
  }

  /** A full iteration during which elements other than the current one are removed; `plan` says by which keys.  Every
      element that is not removed is visited, and none twice. */
  method VisitRemoving<Key(==,!new)>(ht: Table<Key>, wrap: nat, plan: Handle -> seq<Key>)
    returns (out: seq<Handle>, gone: set<Handle>)
    requires ht.Valid() && |ht.buckets| < wrap
    modifies ht, ht.links, ht.repr
    ensures ht.Valid() && NoDup(out)
    ensures forall h :: h in out || h in gone <==> ht.keyOf(h) in old(ht.table) && old(ht.table)[ht.keyOf(h)] == h
    ensures Left(ht.table, old(ht.table), gone) && Done(out, plan, ht.table, gone, ht.keyOf)
  {
    hide Table.Valid, Iter.Valid, Iter.Ahead, NoDup, Flat;
    hide Visited, Left, Enumerates, Cleared, Shrunk, Named, Done;
    DoneNone(plan, ht.table, ht.keyOf);
    LeftNone(ht.table);
    ghost var all := Flat(ht.Rows());
    ht.Elements();
    var it := new Iter(ht, wrap);
    out, gone := [], {};
    VisitedNone(all);
    while it.curr != NIL
      invariant it.Valid() && it.ht == ht && fresh(it)
      invariant Visited(all, out, it.Ahead(), gone) && Left(ht.table, old(ht.table), gone)
      invariant Done(out, plan, ht.table, gone, ht.keyOf)
      decreases |it.Ahead()|
    {
      var h := it.curr;
      ghost var table, was := ht.table, gone;
      gone := RemoveOthers(it, plan(h), all, out, old(ht.table), gone);
      DoneMore(out, plan, table, ht.table, was, gone, ht.keyOf, h);
      ghost var ahead := it.Ahead();
      it.Next();
      VisitedNext(all, out, ahead, gone);
      out := out + [h];
    }
    it.AtEnd();
    VisitedAll(all, out, gone, old(ht.table), ht.keyOf);
  }

  lemma VisitedNone(all: seq<Handle>)
    requires NoDup(all)
    ensures Visited(all, [], all, {})
  {
    assert [] + all == all;
  }

  lemma VisitedNext(all: seq<Handle>, out: seq<Handle>, ahead: seq<Handle>, gone: set<Handle>)
    requires Visited(all, out, ahead, gone) && ahead != []
    ensures Visited(all, out + [ahead[0]], ahead[1..], gone)
  {
    assert out + ahead == (out + [ahead[0]]) + ahead[1..];
    assert ahead == [ahead[0]] + ahead[1..];
  }

  lemma VisitedAll<Key(!new)>(all: seq<Handle>, out: seq<Handle>, gone: set<Handle>, before: map<Key, Handle>,
                              keyOf: Handle -> Key)
    requires Visited(all, out, [], gone) && Enumerates(all, before, keyOf)
    ensures NoDup(out) && forall h :: h in out || h in gone <==> keyOf(h) in before && before[keyOf(h)] == h
  {
    assert out + [] == out;
  }
}
