/** What several modules need: handles of elements, sequences without duplicates, powers of two and remainders. */
module Common {

  datatype Option<+T> = None | Some(value: T)

  // ---------------------------------------------------------------------------------------------
  // Handles and the storage of elements

  /** Stands for an element or a node. */
  type Handle = int

  /** The null handle, never the handle of an element. */
  const NIL: Handle := -1

  ghost predicate NoDup<T>(s: seq<T>) {
    forall i, j :: 0 <= i < j < |s| ==> s[i] != s[j]
  }

  lemma NoDupParts<T>(a: seq<T>, b: seq<T>)
    requires NoDup(a + b)
    ensures NoDup(a) && NoDup(b)
    ensures forall x :: x in a ==> x !in b
  {
    assert forall i :: 0 <= i < |a| ==> (a + b)[i] == a[i];
    assert forall i :: 0 <= i < |b| ==> (a + b)[|a| + i] == b[i];
  }

  /** Of what is stored for elements, only that of the elements in `s` may differ. */
  ghost predicate SameOutside<T>(a: map<Handle, T>, b: map<Handle, T>, s: seq<Handle>) {
    forall h: Handle :: h !in s ==> (h in a <==> h in b) && (h in a ==> b[h] == a[h])
  }

  // ---------------------------------------------------------------------------------------------
  // Powers of two

  function Pow2(n: nat): (p: nat)
    ensures p >= 1
  {
    if n == 0 then 1 else 2 * Pow2(n - 1)
  }

  lemma Twofold(a: nat, b: nat)
    ensures 2 * (a * b) == 2 * a * b
  {
  }

  lemma {:induction false} Pow2Add(a: nat, b: nat)
    ensures Pow2(a + b) == Pow2(a) * Pow2(b)
  {
    if a > 0 {
      Pow2Add(a - 1, b);
      Twofold(Pow2(a - 1), Pow2(b));
    }
  }

  lemma {:induction false} Pow2Grows(a: nat, b: nat)
    requires a < b
    ensures Pow2(a) < Pow2(b)
  {
    if a + 1 < b {
      Pow2Grows(a, b - 1);
    }
  }

  // ---------------------------------------------------------------------------------------------
  // Remainders

  /** The remainder, by repeated subtraction; see `ModIs`. */
  function Mod(x: nat, m: nat): (r: nat)
    requires m > 0
    ensures r < m
    decreases x
  {
    if x < m then x else Mod(x - m, m)
  }

  lemma Multiple(d: int, m: int)
    requires m > 0 && d != 0
    ensures d * m >= m || d * m <= -m
  {
    if d > 0 {
      assert d * m >= m;
    } else {
      assert d * m <= -m;
    }
  }

  function Quotient(x: nat, m: nat): nat
    requires m > 0
  {
    x / m
  }

  /** Quotient and remainder are unique. */
  lemma DivUnique(x: nat, m: nat, q: nat, r: nat)
    requires x == q * m + r && r < m
    ensures q == x / m && r == x % m
  {
    var p, s := x / m, x % m;
    assert x == p * m + s;
    assert (p - q) * m == r - s by { assert (p - q) * m == p * m - q * m; }
    if p != q {
      Multiple(p - q, m);
    }
  }

  lemma {:induction false} ModQuotient(x: nat, m: nat) returns (q: nat)
    requires m > 0
    ensures x == q * m + Mod(x, m)
    decreases x
  {
    if x < m {
      q := 0;
    } else {
      q := ModQuotient(x - m, m);
      assert (q + 1) * m == q * m + m;
      q := q + 1;
    }
  }

  lemma ModIs(x: nat, m: nat)
    requires m > 0
    ensures Mod(x, m) == x % m && x == x / m * m + Mod(x, m)
  {
    var q := ModQuotient(x, m);
    hide Mod;
    DivUnique(x, m, q, Mod(x, m));
  }

  lemma ModSmall(x: nat, m: nat)
    requires x < m
    ensures Mod(x, m) == x
  {
  }
}
