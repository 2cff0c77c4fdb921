/** Modulus hash of long keys, in arithmetic of a given width. */
module ModulusHash {
  import opened Common

  /** `productBits` is the width of the type for products. */
  datatype Traits = Traits(segmentBits: nat, modulus: nat, productBits: nat)

  function Times(a: nat, b: nat): nat {
    a * b
  }

  /** A value as the type for products holds it. */
  function Held(t: Traits, x: nat): nat {
    Mod(x, Pow2(t.productBits))
  }

  /** The factor from one coefficient to the next. */
  function Factor(t: Traits): nat
    requires t.modulus > 0
  {
    Mod(Held(t, Pow2(t.segmentBits)), t.modulus)
  }

  function Coeff(t: Traits, i: nat): nat
    requires t.modulus > 0
  {
    if i == 0 then 1 else Mod(Held(t, Times(Factor(t), Coeff(t, i - 1))), t.modulus)
  }

  /** A segment times its coefficient. */
  function Product(t: Traits, k: seq<nat>, i: nat): nat
    requires t.modulus > 0 && i < |k|
  {
    Held(t, Times(k[i], Coeff(t, i)))
  }

  /** `r` is the number of segments after the first one hashed. */
  function Val(t: Traits, k: seq<nat>, r: nat): nat
    requires t.modulus > 0 && r < |k|
    decreases r
  {
    var i := |k| - 1 - r;
    if r == 0 then Mod(Product(t, k, i), t.modulus)
    else Mod(Held(t, Product(t, k, i) + Val(t, k, r - 1)), t.modulus)
  }

  /** One less, as an unsigned number of 32 bits. */
  function Less(count: nat): nat {
    if count == 0 then 0xFFFF_FFFF else count - 1
  }

  /** Only the `count` lowest-numbered segments. */
  function ValPart(t: Traits, k: seq<nat>, r: nat, count: nat): nat
    requires t.modulus > 0 && r < |k|
    decreases r
  {
    var i := |k| - 1 - r;
    if r == 0 || count == 1 then Mod(Product(t, k, i), t.modulus)
    else Mod(Held(t, Product(t, k, i) + ValPart(t, k, r - 1, Less(count))), t.modulus)
  }

  function FastVal(t: Traits, k: seq<nat>, r: nat): nat
    requires t.modulus > 0 && r < |k|
    decreases r
  {
    var i := |k| - 1 - r;
    if r == 0 then Product(t, k, i) else Held(t, Product(t, k, i) + FastVal(t, k, r - 1))
  }

  function FastPart(t: Traits, k: seq<nat>, r: nat, count: nat): nat
    requires t.modulus > 0 && r < |k|
    decreases r
  {
    var i := |k| - 1 - r;
    if r == 0 || count == 1 then Product(t, k, i)
    else Held(t, Product(t, k, i) + FastPart(t, k, r - 1, Less(count)))
  }

  // ---------------------------------------------------------------------------------------------
  // The functions for callers

  function Hash(t: Traits, k: seq<nat>): nat
    requires t.modulus > 0 && k != []
  {
    Val(t, k, |k| - 1)
  }

  function HashPart(t: Traits, k: seq<nat>, count: nat): nat
    requires t.modulus > 0 && k != []
  {
    ValPart(t, k, |k| - 1, count)
  }

  function HashFast(t: Traits, k: seq<nat>): nat
    requires t.modulus > 0 && k != []
  {
    Mod(FastVal(t, k, |k| - 1), t.modulus)
  }

  function HashFastPart(t: Traits, k: seq<nat>, count: nat): nat
    requires t.modulus > 0 && k != []
  {
    Mod(FastPart(t, k, |k| - 1, count), t.modulus)
  }

  // ---------------------------------------------------------------------------------------------
  // The number that a key stands for

  /** The weight of segment `i`. */
  function Weight(t: Traits, i: nat): nat {
    Pow2(t.segmentBits * i)
  }

  lemma WeightStep(t: Traits, i: nat)
    ensures Weight(t, 0) == 1
    ensures i > 0 ==> Weight(t, i) == Times(Pow2(t.segmentBits), Weight(t, i - 1))
  {
    assert t.segmentBits * 0 == 0;
    if i > 0 {
      assert t.segmentBits * i == t.segmentBits + t.segmentBits * (i - 1);
      Pow2Add(t.segmentBits, t.segmentBits * (i - 1));
    }
  }

  /** Segments `i` to `n` of the key, each at its place. */
  function Number(t: Traits, k: seq<nat>, i: nat, n: nat): nat
    requires n <= |k|
    decreases n - i
  {
    if i >= n then 0 else Times(k[i], Weight(t, i)) + Number(t, k, i + 1, n)
  }

  /** What the callers must see to: segments of the stated width, and products one bit wider than modulus and segment
      together. */
  ghost predicate Fits(t: Traits, modulusBits: nat, k: seq<nat>) {
    && 0 < t.modulus < Pow2(modulusBits) && modulusBits + t.segmentBits + 1 <= t.productBits
    && forall i :: 0 <= i < |k| ==> k[i] < Pow2(t.segmentBits)
  }

  // ---------------------------------------------------------------------------------------------
  // Remainders

  lemma {:induction false} ModAddLeft(a: nat, b: nat, m: nat)
    requires m > 0
    ensures Mod(Mod(a, m) + b, m) == Mod(a + b, m)
    decreases a
  {
    if a >= m {
      ModAddLeft(a - m, b, m);
    }
  }

  lemma ModSum(a: nat, b: nat, m: nat)
    requires m > 0
    ensures Mod(Mod(a, m) + Mod(b, m), m) == Mod(a + b, m)
  {
    hide Mod;
    ModAddLeft(a, Mod(b, m), m);
    ModAddLeft(b, a, m);
  }

  lemma SumCongruent(p: nat, q: nat, x: nat, y: nat, m: nat)
    requires m > 0 && Mod(p, m) == Mod(q, m) && Mod(x, m) == Mod(y, m)
    ensures Mod(p + x, m) == Mod(q + y, m)
  {
    hide Mod;
    ModSum(p, x, m);
    ModSum(q, y, m);
  }

  lemma ModTwice(a: nat, m: nat)
    requires m > 0
    ensures Mod(Mod(a, m), m) == Mod(a, m)
  {
    ModSmall(Mod(a, m), m);
  }

  lemma TimesStep(a: nat, b: nat)
    requires a > 0
    ensures Times(a, b) == Times(a - 1, b) + b
  {
  }

  lemma {:induction false} ModProduct(a: nat, b: nat, c: nat, m: nat)
    requires m > 0 && Mod(b, m) == Mod(c, m)
    ensures Mod(Times(a, b), m) == Mod(Times(a, c), m)
  {
    if a > 0 {
      hide Mod, Times;
      ModProduct(a - 1, b, c, m);
      TimesStep(a, b);
      TimesStep(a, c);
      SumCongruent(Times(a - 1, b), Times(a - 1, c), b, c, m);
    }
  }

  lemma ModLess(x: nat, m: nat)
    requires m > 0
    ensures Mod(x, m) <= x
  {
    if x < m {
      ModSmall(x, m);
    }
  }

  // ---------------------------------------------------------------------------------------------
  // Nothing overflows

  lemma HeldSmall(t: Traits, modulusBits: nat, x: nat)
    requires 0 < t.modulus < Pow2(modulusBits) && modulusBits + t.segmentBits + 1 <= t.productBits
    requires x <= Pow2(t.segmentBits) * t.modulus
    ensures Held(t, x) == x < Pow2(t.productBits - 1)
  {
    hide Pow2, Mod;
    var s, b := Pow2(t.segmentBits), Pow2(modulusBits);
    Scaled(s, t.modulus, b);
    Pow2Add(t.segmentBits, modulusBits);
    if t.segmentBits + modulusBits < t.productBits - 1 {
      Pow2Grows(t.segmentBits + modulusBits, t.productBits - 1);
    }
    Pow2Grows(t.productBits - 1, t.productBits);
    ModSmall(x, Pow2(t.productBits));
  }

  lemma Scaled(s: nat, a: nat, b: nat)
    requires s >= 1 && a < b
    ensures s * a < s * b
  {
    var d := b - a;
    Larger(s, 1, s, d);
    assert s * b == s * a + s * d;
  }

  lemma FactorIs(t: Traits, modulusBits: nat)
    requires 0 < t.modulus < Pow2(modulusBits) && modulusBits + t.segmentBits + 1 <= t.productBits
    ensures Factor(t) == Mod(Pow2(t.segmentBits), t.modulus) <= Pow2(t.segmentBits)
  {
    hide Pow2, Mod, Held;
    var s := Pow2(t.segmentBits);
    Larger(s, 1, s, t.modulus);
    HeldSmall(t, modulusBits, s);
    ModLess(s, t.modulus);
  }

  /** The coefficients are right, and the products they are made of fit. */
  lemma {:induction false} CoeffRight(t: Traits, modulusBits: nat, i: nat)
    requires 0 < t.modulus < Pow2(modulusBits) && modulusBits + t.segmentBits + 1 <= t.productBits
    ensures Coeff(t, i) <= t.modulus
    ensures Mod(Coeff(t, i), t.modulus) == Mod(Weight(t, i), t.modulus)
    ensures i > 0 ==> Times(Factor(t), Coeff(t, i - 1)) < Pow2(t.productBits - 1)
  {
    hide Factor, Pow2, Mod, Times, Held, Weight;
    if i > 0 {
      CoeffRight(t, modulusBits, i - 1);
      FactorIs(t, modulusBits);
      var f, c, s := Factor(t), Coeff(t, i - 1), Pow2(t.segmentBits);
      LargerTimes(f, c, s, t.modulus);
      HeldSmall(t, modulusBits, Times(f, c));
      PowerCongruent(s, c, Weight(t, i - 1), t.modulus);
    }
    WeightStep(t, i);
  }

  lemma PowerCongruent(s: nat, c: nat, e: nat, m: nat)
    requires m > 0 && Mod(c, m) == Mod(e, m)
    ensures Mod(Mod(Times(Mod(s, m), c), m), m) == Mod(Times(s, e), m)
  {
    hide Mod, Times;
    var f := Mod(s, m);
    ModTwice(s, m);
    ModTwice(Times(f, c), m);
    ModProduct(f, c, e, m);
    ModProduct(e, f, s, m);
    Commute(f, e);
    Commute(s, e);
  }

  lemma Commute(a: nat, b: nat)
    ensures Times(a, b) == Times(b, a)
  {
  }

  lemma LargerTimes(a: nat, b: nat, c: nat, d: nat)
    requires a <= c && b <= d
    ensures Times(a, b) <= c * d
  {
    Larger(a, b, c, d);
  }

  lemma Larger(a: nat, b: nat, c: nat, d: nat)
    requires a <= c && b <= d
    ensures a * b <= c * d
  {
    assert a * b <= c * b <= c * d;
  }

  /** A segment times its coefficient leaves room for a value below the modulus. */
  lemma ProductRight(t: Traits, modulusBits: nat, k: seq<nat>, i: nat)
    requires Fits(t, modulusBits, k) && i < |k|
    ensures Product(t, k, i) == Times(k[i], Coeff(t, i)) <= Pow2(t.segmentBits) * t.modulus - t.modulus
    ensures Mod(Product(t, k, i), t.modulus) == Mod(Times(k[i], Weight(t, i)), t.modulus)
  {
    hide Pow2, Mod, Held, Coeff, Times, Weight;
    CoeffRight(t, modulusBits, i);
    var s, m := Pow2(t.segmentBits), t.modulus;
    LargerTimes(k[i], Coeff(t, i), s - 1, m);
    assert (s - 1) * m == s * m - m;
    HeldSmall(t, modulusBits, Times(k[i], Coeff(t, i)));
    ModProduct(k[i], Coeff(t, i), Weight(t, i), m);
  }

  // ---------------------------------------------------------------------------------------------
  // The hash is the remainder of the number

  /** One step of the recursion: the remainder so far, and the sum fits. */
  lemma StepRight(t: Traits, modulusBits: nat, k: seq<nat>, i: nat, n: nat, v: nat)
    requires Fits(t, modulusBits, k) && i < n <= |k| && v == Mod(Number(t, k, i + 1, n), t.modulus)
    ensures Product(t, k, i) + v < Pow2(t.productBits - 1)
    ensures Mod(Held(t, Product(t, k, i) + v), t.modulus) == Mod(Number(t, k, i, n), t.modulus)
  {
    hide Product, Pow2, Mod, Held, Times, Weight;
    var m := t.modulus;
    ProductRight(t, modulusBits, k, i);
    HeldSmall(t, modulusBits, Product(t, k, i) + v);
    ModTwice(Number(t, k, i + 1, n), m);
    SumCongruent(Product(t, k, i), Times(k[i], Weight(t, i)), v, Number(t, k, i + 1, n), m);
  }

  lemma LastRight(t: Traits, modulusBits: nat, k: seq<nat>, i: nat)
    requires Fits(t, modulusBits, k) && i < |k|
    ensures Mod(Product(t, k, i), t.modulus) == Mod(Number(t, k, i, i + 1), t.modulus)
  {
    hide Product, Pow2, Mod, Held, Times, Weight;
    ProductRight(t, modulusBits, k, i);
    assert Number(t, k, i, i + 1) == Times(k[i], Weight(t, i)) + Number(t, k, i + 1, i + 1);
  }

  /** The number of segments hashed for a count: all for a count of zero, and never more than all. */
  function Counted(count: nat, n: nat): nat {
    if 1 <= count <= n then count else n
  }

  lemma {:induction false} ValPartRight(t: Traits, modulusBits: nat, k: seq<nat>, r: nat, count: nat)
    requires Fits(t, modulusBits, k) && r < |k| < 0x1_0000_0000
    ensures
      var i := |k| - 1 - r;
      ValPart(t, k, r, count) == Mod(Number(t, k, i, i + Counted(count, r + 1)), t.modulus)
    decreases r
  {
    hide Mod, Held, Product, Number, Pow2;
    var i := |k| - 1 - r;
    LastRight(t, modulusBits, k, i);
    if r > 0 && count != 1 {
      ValPartRight(t, modulusBits, k, r - 1, Less(count));
      StepRight(t, modulusBits, k, i, i + Counted(count, r + 1), ValPart(t, k, r - 1, Less(count)));
    }
  }

  /** A partial hash is the remainder of the number that the lowest-numbered segments make. */
  lemma PartialHash(t: Traits, modulusBits: nat, k: seq<nat>, count: nat)
    requires Fits(t, modulusBits, k) && 0 < |k| < 0x1_0000_0000
    ensures HashPart(t, k, count) == Number(t, k, 0, Counted(count, |k|)) % t.modulus
  {
    ModIs(Number(t, k, 0, Counted(count, |k|)), t.modulus);
    hide Mod, Number;
    ValPartRight(t, modulusBits, k, |k| - 1, count);
  }

  // The same said of the shorter key, with no number of segments to trust.

  /** Below a count, the segments beyond it do not matter. */
  lemma {:induction false} ValPrefix(t: Traits, k: seq<nat>, i: nat, count: nat)
    requires t.modulus > 0 && count > 0 && i + count <= |k| < 0x1_0000_0000
    ensures ValPart(t, k, |k| - 1 - i, count) == Val(t, k[..i + count], count - 1)
    ensures FastPart(t, k, |k| - 1 - i, count) == FastVal(t, k[..i + count], count - 1)
    decreases count
  {
    hide Mod, Held, Coeff, Pow2, Times;
    assert Product(t, k, i) == Product(t, k[..i + count], i);
    if count > 1 {
      ValPrefix(t, k, i + 1, count - 1);
      assert k[..i + 1 + (count - 1)] == k[..i + count];
    }
    hide Product;
  }

  /** A count of zero, or of more than there are, is never used up. */
  lemma {:induction false} ValWhole(t: Traits, k: seq<nat>, r: nat, count: nat)
    requires t.modulus > 0 && r < |k| < 0x1_0000_0000 && (count == 0 || count > r + 1)
    ensures ValPart(t, k, r, count) == Val(t, k, r) && FastPart(t, k, r, count) == FastVal(t, k, r)
    decreases r
  {
    hide Mod, Held, Product;
    if r > 0 {
      ValWhole(t, k, r - 1, Less(count));
    }
  }

  /** A partial hash is the hash of the key that the lowest-numbered segments make. */
  lemma PartialIsPrefix(t: Traits, k: seq<nat>, count: nat)
    requires t.modulus > 0 && 1 <= count <= |k| < 0x1_0000_0000
    ensures HashPart(t, k, count) == Hash(t, k[..count])
    ensures HashFastPart(t, k, count) == HashFast(t, k[..count])
  {
    ValPrefix(t, k, 0, count);
  }

  lemma PartialIsWhole(t: Traits, k: seq<nat>, count: nat)
    requires t.modulus > 0 && 0 < |k| < 0x1_0000_0000 && (count == 0 || count > |k|)
    ensures HashPart(t, k, count) == Hash(t, k) && HashFastPart(t, k, count) == HashFast(t, k)
  {
    ValWhole(t, k, |k| - 1, count);
  }

  lemma {:induction false} ValRight(t: Traits, modulusBits: nat, k: seq<nat>, r: nat)
    requires Fits(t, modulusBits, k) && r < |k|
    ensures Val(t, k, r) == Mod(Number(t, k, |k| - 1 - r, |k|), t.modulus)
    ensures r > 0 ==> Product(t, k, |k| - 1 - r) + Val(t, k, r - 1) < Pow2(t.productBits - 1)
    decreases r
  {
    hide Mod, Held, Product, Number, Pow2;
    var i := |k| - 1 - r;
    if r == 0 {
      LastRight(t, modulusBits, k, i);
    } else {
      ValRight(t, modulusBits, k, r - 1);
      StepRight(t, modulusBits, k, i, |k|, Val(t, k, r - 1));
    }
  }

  /** The hash is the remainder of the number that the key stands for. */
  lemma FullHash(t: Traits, modulusBits: nat, k: seq<nat>)
    requires Fits(t, modulusBits, k) && k != []
    ensures Hash(t, k) == Number(t, k, 0, |k|) % t.modulus
  {
    ModIs(Number(t, k, 0, |k|), t.modulus);
    hide Mod, Number;
    ValRight(t, modulusBits, k, |k| - 1);
  }

  /** No intermediate value overflows: one bit of the width is never needed. */
  lemma NoOverflow(t: Traits, modulusBits: nat, k: seq<nat>, r: nat)
    requires Fits(t, modulusBits, k) && r < |k|
    ensures
      var i := |k| - 1 - r;
      && Pow2(t.segmentBits) < Pow2(t.productBits - 1)
      && (i > 0 ==> Times(Factor(t), Coeff(t, i - 1)) < Pow2(t.productBits - 1))
      && Times(k[i], Coeff(t, i)) < Pow2(t.productBits - 1)
      && (r > 0 ==> Times(k[i], Coeff(t, i)) + Val(t, k, r - 1) < Pow2(t.productBits - 1))
  {
    hide Pow2, Times, Coeff, Val, Mod;
    var i := |k| - 1 - r;
    Larger(Pow2(t.segmentBits), 1, Pow2(t.segmentBits), t.modulus);
    HeldSmall(t, modulusBits, Pow2(t.segmentBits));
    CoeffRight(t, modulusBits, i);
    ProductRight(t, modulusBits, k, i);
    HeldSmall(t, modulusBits, Times(k[i], Coeff(t, i)));
    ValRight(t, modulusBits, k, r);
  }

  /** The header of the source gives the hash by a recursion in the other order. */
  function Documented(t: Traits, k: seq<nat>, n: nat): nat
    requires t.modulus > 0 && n < |k|
  {
    if n == 0 then k[0] % t.modulus
    else (Times(k[n], Weight(t, n) % t.modulus) + Documented(t, k, n - 1)) % t.modulus
  }

  lemma {:induction false} NumberLast(t: Traits, k: seq<nat>, i: nat, n: nat)
    requires i <= n < |k|
    ensures Number(t, k, i, n + 1) == Number(t, k, i, n) + Times(k[n], Weight(t, n))
    decreases n - i
  {
    hide Times, Weight;
    if i < n {
      NumberLast(t, k, i + 1, n);
    } else {
      assert Number(t, k, n, n + 1) == Times(k[n], Weight(t, n)) + Number(t, k, n + 1, n + 1);
    }
  }

  lemma {:induction false} DocumentedIs(t: Traits, k: seq<nat>, n: nat)
    requires t.modulus > 0 && n < |k|
    ensures Documented(t, k, n) == Mod(Number(t, k, 0, n + 1), t.modulus)
  {
    var m, e := t.modulus, Weight(t, n);
    hide Weight, Mod, Pow2;
    NumberLast(t, k, 0, n);
    if n == 0 {
      WeightStep(t, 0);
      ModIs(k[0], m);
    } else {
      ModIs(e, m);
      ModIs(Times(k[n], Mod(e, m)) + Documented(t, k, n - 1), m);
      hide Times;
      DocumentedIs(t, k, n - 1);
      ModTwice(e, m);
      ModTwice(Number(t, k, 0, n), m);
      ModProduct(k[n], Mod(e, m), e, m);
      SumCongruent(Times(k[n], Mod(e, m)), Times(k[n], e), Mod(Number(t, k, 0, n), m), Number(t, k, 0, n), m);
    }
  }

  /** The code computes what its header documents. */
  lemma MatchesHeader(t: Traits, modulusBits: nat, k: seq<nat>)
    requires Fits(t, modulusBits, k) && k != []
    ensures Hash(t, k) == Documented(t, k, |k| - 1)
  {
    ModIs(Number(t, k, 0, |k|), t.modulus);
    hide Mod, Number;
    FullHash(t, modulusBits, k);
    DocumentedIs(t, k, |k| - 1);
  }

  // ---------------------------------------------------------------------------------------------
  // The fast forms, whose sums may wrap

  /** The sum as it would be without a limit. */
  function Total(t: Traits, k: seq<nat>, i: nat, n: nat): nat
    requires t.modulus > 0 && n <= |k|
    decreases n - i
  {
    if i >= n then 0 else Times(k[i], Coeff(t, i)) + Total(t, k, i + 1, n)
  }

  lemma TotalStep(t: Traits, k: seq<nat>, i: nat, n: nat)
    requires t.modulus > 0 && i < n <= |k|
    ensures Held(t, Product(t, k, i) + Held(t, Total(t, k, i + 1, n))) == Held(t, Total(t, k, i, n))
    ensures Product(t, k, i) == Held(t, Total(t, k, i, i + 1))
  {
    hide Mod, Pow2, Coeff, Times;
    assert Total(t, k, i, i + 1) == Times(k[i], Coeff(t, i)) + Total(t, k, i + 1, i + 1);
    ModSum(Times(k[i], Coeff(t, i)), Total(t, k, i + 1, n), Pow2(t.productBits));
  }

  lemma {:induction false} FastPartIs(t: Traits, k: seq<nat>, r: nat, count: nat)
    requires t.modulus > 0 && r < |k| < 0x1_0000_0000
    ensures
      var i := |k| - 1 - r;
      FastPart(t, k, r, count) == Held(t, Total(t, k, i, i + Counted(count, r + 1)))
    decreases r
  {
    hide Held, Product, Total;
    var i := |k| - 1 - r;
    TotalStep(t, k, i, i + Counted(count, r + 1));
    if r > 0 && count != 1 {
      FastPartIs(t, k, r - 1, Less(count));
    }
  }

  lemma {:induction false} FastValIs(t: Traits, k: seq<nat>, r: nat)
    requires t.modulus > 0 && r < |k|
    ensures FastVal(t, k, r) == Held(t, Total(t, k, |k| - 1 - r, |k|))
    decreases r
  {
    hide Held, Product, Total;
    TotalStep(t, k, |k| - 1 - r, |k|);
    if r > 0 {
      FastValIs(t, k, r - 1);
    }
  }

  lemma {:induction false} TotalIs(t: Traits, modulusBits: nat, k: seq<nat>, i: nat, n: nat)
    requires 0 < t.modulus < Pow2(modulusBits) && modulusBits + t.segmentBits + 1 <= t.productBits && n <= |k|
    ensures Mod(Total(t, k, i, n), t.modulus) == Mod(Number(t, k, i, n), t.modulus)
    decreases n - i
  {
    hide Mod, Pow2, Coeff, Times, Weight;
    if i < n {
      TotalIs(t, modulusBits, k, i + 1, n);
      CoeffRight(t, modulusBits, i);
      ModProduct(k[i], Coeff(t, i), Weight(t, i), t.modulus);
      SumCongruent(Times(k[i], Coeff(t, i)), Times(k[i], Weight(t, i)), Total(t, k, i + 1, n), Number(t, k, i + 1, n),
                   t.modulus);
    }
  }

  /** How often a sum has wrapped. */
  function Wraps(t: Traits, x: nat): nat {
    Quotient(x, Pow2(t.productBits))
  }

  // A modulus is an odd number times a power of two.

  function OddPart(m: nat): (o: nat)
    requires m > 0
    ensures o % 2 == 1
  {
    if m % 2 == 1 then m else OddPart(m / 2)
  }

  function Twos(m: nat): nat
    requires m > 0
  {
    if m % 2 == 1 then 0 else 1 + Twos(m / 2)
  }

  lemma {:induction false} Factored(m: nat)
    requires m > 0
    ensures m == Pow2(Twos(m)) * OddPart(m)
  {
    if m % 2 == 0 {
      Factored(m / 2);
      Twofold(Pow2(Twos(m / 2)), OddPart(m / 2));
    }
  }

  lemma {:induction false} ModTwofold(x: nat, m: nat)
    requires m > 0
    ensures Mod(2 * x, 2 * m) == 2 * Mod(x, m)
    decreases x
  {
    if x >= m {
      ModTwofold(x - m, m);
    }
  }

  /** Two has no part in an odd divisor. */
  lemma OddDivides(x: nat, m: nat)
    requires m % 2 == 1
    ensures Mod(2 * x, m) == 0 <==> Mod(x, m) == 0
  {
    ModSum(x, x, m);
    var r := Mod(x, m);
    if r + r >= m {
      assert Mod(r + r, m) == Mod(r + r - m, m);
      ModSmall(r + r - m, m);
    } else {
      ModSmall(r + r, m);
    }
  }

  lemma PowerStep(n: nat, q: nat)
    ensures Times(Pow2(0), q) == q
    ensures n > 0 ==> Times(Pow2(n), q) == 2 * Times(Pow2(n - 1), q)
  {
    if n > 0 {
      Twofold(Pow2(n - 1), q);
    }
  }

  lemma {:induction false} OddDividesPower(q: nat, n: nat, m: nat)
    requires m % 2 == 1
    ensures Mod(Times(Pow2(n), q), m) == 0 <==> Mod(q, m) == 0
  {
    hide Mod, Times, Pow2;
    PowerStep(n, q);
    if n > 0 {
      OddDividesPower(q, n - 1, m);
      OddDivides(Times(Pow2(n - 1), q), m);
    }
  }

  /** A modulus divides a multiple of a large power of two exactly if its odd part divides the factor. */
  lemma {:induction false} DividesPower(q: nat, n: nat, m: nat)
    requires 0 < m <= Pow2(n)
    ensures Mod(Times(Pow2(n), q), m) == 0 <==> Mod(q, OddPart(m)) == 0
    decreases n
  {
    hide Mod, Times;
    if m % 2 == 1 {
      OddDividesPower(q, n, m);
    } else {
      PowerStep(n, q);
      DividesPower(q, n - 1, m / 2);
      ModTwofold(Times(Pow2(n - 1), q), m / 2);
      hide Pow2, OddPart;
    }
  }

  lemma ModEqual(a: nat, b: nat, m: nat)
    requires m > 0
    ensures Mod(a + b, m) == Mod(a, m) <==> Mod(b, m) == 0
  {
    ModSum(a, b, m);
    var x, y := Mod(a, m), Mod(b, m);
    if x + y < m {
      ModSmall(x + y, m);
    } else {
      assert Mod(x + y, m) == Mod(x + y - m, m);
      ModSmall(x + y - m, m);
    }
  }

  lemma LossMatters(t: Traits, x: nat)
    requires 0 < t.modulus <= Pow2(t.productBits)
    ensures Mod(Held(t, x), t.modulus) == Mod(x, t.modulus) <==> Wraps(t, x) % OddPart(t.modulus) == 0
  {
    var p, m := Pow2(t.productBits), t.modulus;
    ModIs(x, p);
    assert x == Times(p, Wraps(t, x)) + Held(t, x);
    ModEqual(Held(t, x), Times(p, Wraps(t, x)), m);
    DividesPower(Wraps(t, x), t.productBits, m);
    ModIs(Wraps(t, x), OddPart(m));
    hide Mod, Times, Wraps, OddPart, Pow2;
  }

  lemma ModulusSmall(t: Traits, modulusBits: nat)
    requires t.modulus < Pow2(modulusBits) && modulusBits + t.segmentBits + 1 <= t.productBits
    ensures t.modulus <= Pow2(t.productBits)
  {
    Pow2Grows(modulusBits, t.productBits);
  }

  /** The fast form gives the hash exactly when the odd part of the modulus divides the number of times that its sum
      wraps. */
  lemma FastHash(t: Traits, modulusBits: nat, k: seq<nat>)
    requires Fits(t, modulusBits, k) && k != []
    ensures HashFast(t, k) == Hash(t, k) <==> Wraps(t, Total(t, k, 0, |k|)) % OddPart(t.modulus) == 0
  {
    hide Mod, Held, Total, Number, Pow2, Wraps, OddPart;
    ValRight(t, modulusBits, k, |k| - 1);
    FastValIs(t, k, |k| - 1);
    TotalIs(t, modulusBits, k, 0, |k|);
    ModulusSmall(t, modulusBits);
    LossMatters(t, Total(t, k, 0, |k|));
  }

  lemma FastPartialHash(t: Traits, modulusBits: nat, k: seq<nat>, count: nat)
    requires Fits(t, modulusBits, k) && 0 < |k| < 0x1_0000_0000
    ensures HashFastPart(t, k, count) == HashPart(t, k, count) <==>
              Wraps(t, Total(t, k, 0, Counted(count, |k|))) % OddPart(t.modulus) == 0
  {
    hide Mod, Held, Total, Number, Pow2, Wraps, OddPart;
    ValPartRight(t, modulusBits, k, |k| - 1, count);
    FastPartIs(t, k, |k| - 1, count);
    TotalIs(t, modulusBits, k, 0, Counted(count, |k|));
    ModulusSmall(t, modulusBits);
    LossMatters(t, Total(t, k, 0, Counted(count, |k|)));
  }

  // ---------------------------------------------------------------------------------------------
  // The condition of the source: the sums fit

  lemma NoWrap(t: Traits, x: nat)
    ensures Wraps(t, x) == 0 <==> x < Pow2(t.productBits)
    ensures x < Pow2(t.productBits) ==> Held(t, x) == x
  {
    var p := Pow2(t.productBits);
    if x < p {
      ModSmall(x, p);
      DivUnique(x, p, 0, x);
    } else {
      ModIs(x, p);
      hide Mod;
    }
  }

  lemma {:induction false} TotalGrows(t: Traits, k: seq<nat>, i: nat, n: nat)
    requires t.modulus > 0 && i <= n <= |k|
    ensures Total(t, k, i, n) <= Total(t, k, 0, n)
  {
    hide Coeff, Times;
    if i > 0 {
      TotalGrows(t, k, i - 1, n);
    }
  }

  /** For any modulus the fast form gives the hash if the whole sum fits; then no intermediate sum wraps either. */
  lemma FastHashFits(t: Traits, modulusBits: nat, k: seq<nat>)
    requires Fits(t, modulusBits, k) && k != [] && Total(t, k, 0, |k|) < Pow2(t.productBits)
    ensures HashFast(t, k) == Hash(t, k)
    ensures forall r: nat :: r < |k| ==> FastVal(t, k, r) == Total(t, k, |k| - 1 - r, |k|)
  {
    hide Mod, Held, Total, Pow2, Coeff, FastVal, Wraps, OddPart;
    FastHash(t, modulusBits, k);
    NoWrap(t, Total(t, k, 0, |k|));
    ZeroModulo(OddPart(t.modulus));
    forall r: nat | r < |k| ensures FastVal(t, k, r) == Total(t, k, |k| - 1 - r, |k|) {
      FastValIs(t, k, r);
      TotalGrows(t, k, |k| - 1 - r, |k|);
      NoWrap(t, Total(t, k, |k| - 1 - r, |k|));
    }
  }

  lemma ZeroModulo(m: nat)
    requires m > 0
    ensures 0 % m == 0
  {
  }

  lemma FastPartialHashFits(t: Traits, modulusBits: nat, k: seq<nat>, count: nat)
    requires Fits(t, modulusBits, k) && 0 < |k| < 0x1_0000_0000
    requires Total(t, k, 0, Counted(count, |k|)) < Pow2(t.productBits)
    ensures HashFastPart(t, k, count) == HashPart(t, k, count)
  {
    hide Mod, Held, Total, Pow2, Wraps, OddPart;
    FastPartialHash(t, modulusBits, k, count);
    NoWrap(t, Total(t, k, 0, Counted(count, |k|)));
    ZeroModulo(OddPart(t.modulus));
  }

  lemma {:induction false} TotalBound(t: Traits, modulusBits: nat, k: seq<nat>, i: nat, n: nat)
    requires Fits(t, modulusBits, k) && i <= n <= |k|
    ensures Total(t, k, i, n) <= Times(n - i, Pow2(t.segmentBits) * t.modulus)
    decreases n - i
  {
    hide Pow2, Coeff, Mod, Times;
    var b := Pow2(t.segmentBits) * t.modulus;
    if i < n {
      TotalBound(t, modulusBits, k, i + 1, n);
      ProductRight(t, modulusBits, k, i);
      TimesStep(n - i, b);
    }
  }

  lemma Bounded(w: nat, p: nat, n: nat, s: nat, e: nat, o: nat)
    requires w * p <= n * (s * (e * o)) && n * (s * e) < p && o > 0
    ensures w < o
  {
    assert n * (s * (e * o)) == n * (s * e) * o;
    if w >= o {
      Larger(o, p, w, p);
      Scaled(o, n * (s * e), p);
    }
  }

  /** In few segments the sum cannot wrap so often that the odd part of the modulus divides the number of times. */
  lemma WrapsFew(t: Traits, modulusBits: nat, k: seq<nat>, n: nat)
    requires Fits(t, modulusBits, k) && n <= |k| && n * Pow2(t.segmentBits + Twos(t.modulus)) < Pow2(t.productBits)
    ensures Wraps(t, Total(t, k, 0, n)) < OddPart(t.modulus)
  {
    var x, p := Total(t, k, 0, n), Pow2(t.productBits);
    TotalBound(t, modulusBits, k, 0, n);
    Factored(t.modulus);
    Pow2Add(t.segmentBits, Twos(t.modulus));
    ModIs(x, p);
    hide Mod, Total, Pow2, OddPart, Twos;
    Bounded(Wraps(t, x), p, n, Pow2(t.segmentBits), Pow2(Twos(t.modulus)), OddPart(t.modulus));
  }

  lemma WrapsNone(t: Traits, modulusBits: nat, k: seq<nat>, n: nat)
    requires Fits(t, modulusBits, k) && n <= |k| && n * Pow2(t.segmentBits + Twos(t.modulus)) < Pow2(t.productBits)
    ensures Wraps(t, Total(t, k, 0, n)) % OddPart(t.modulus) == 0 <==> Total(t, k, 0, n) < Pow2(t.productBits)
  {
    WrapsFew(t, modulusBits, k, n);
    NoWrap(t, Total(t, k, 0, n));
    hide Total, Pow2, Twos, OddPart, Wraps;
    DivUnique(Wraps(t, Total(t, k, 0, n)), OddPart(t.modulus), 0, Wraps(t, Total(t, k, 0, n)));
  }

  /** The fast form gives the hash exactly when its sum fits, so far as there is room for as many segments as are
      hashed, each scaled by the power of two in the modulus, which is 1 for an odd one. */
  lemma FastHashExact(t: Traits, modulusBits: nat, k: seq<nat>)
    requires Fits(t, modulusBits, k) && k != []
    requires |k| * Pow2(t.segmentBits + Twos(t.modulus)) < Pow2(t.productBits)
    ensures HashFast(t, k) == Hash(t, k) <==> Total(t, k, 0, |k|) < Pow2(t.productBits)
  {
    hide Total, Pow2, Twos, OddPart, Wraps, HashFast, Hash;
    FastHash(t, modulusBits, k);
    WrapsNone(t, modulusBits, k, |k|);
  }

  lemma FastPartialHashExact(t: Traits, modulusBits: nat, k: seq<nat>, count: nat)
    requires Fits(t, modulusBits, k) && 0 < |k| < 0x1_0000_0000
    requires Counted(count, |k|) * Pow2(t.segmentBits + Twos(t.modulus)) < Pow2(t.productBits)
    ensures HashFastPart(t, k, count) == HashPart(t, k, count) <==>
              Total(t, k, 0, Counted(count, |k|)) < Pow2(t.productBits)
  {
    hide Total, Pow2, Twos, OddPart, Wraps, HashFastPart, HashPart;
    FastPartialHash(t, modulusBits, k, count);
    WrapsNone(t, modulusBits, k, Counted(count, |k|));
  }

  /** The sum of any key fits if the width has room for as many products as there are segments. */
  lemma RoomForAll(t: Traits, modulusBits: nat, k: seq<nat>, n: nat)
    requires Fits(t, modulusBits, k) && n <= |k|
    requires n * (Pow2(t.segmentBits) * t.modulus) < Pow2(t.productBits)
    ensures Total(t, k, 0, n) < Pow2(t.productBits)
  {
    hide Total, Pow2;
    TotalBound(t, modulusBits, k, 0, n);
  }

  // ---------------------------------------------------------------------------------------------
  // Products of 8 bits, segments of 5 bits, modulus 3: the least width that the source allows

  const SMALL := Traits(5, 3, 8)

  lemma SmallPowers()
    ensures Pow2(2) == 4 && Pow2(5) == 32 && Pow2(8) == 256
  {
    assert Pow2(5) == 2 * (2 * (2 * Pow2(2)));
    assert Pow2(8) == 2 * (2 * (2 * Pow2(5)));
  }

  lemma {:induction false} SmallCoeff(i: nat)
    ensures Coeff(SMALL, i) == 1 + i % 2
  {
    if i > 0 {
      SmallPowers();
      SmallCoeff(i - 1);
      hide Pow2;
    }
  }

  lemma {:induction false} SmallTotal(k: seq<nat>, i: nat)
    requires i <= |k| && forall j :: 0 <= j < |k| ==> k[j] == 31
    ensures Total(SMALL, k, i, |k|) == 31 * ((|k| + |k| / 2) - (i + i / 2))
    decreases |k| - i
  {
    hide Coeff;
    if i < |k| {
      SmallCoeff(i);
      SmallTotal(k, i + 1);
    }
  }

  lemma SmallHash(k: seq<nat>, sum: nat, wraps: nat)
    requires k != [] && forall j :: 0 <= j < |k| ==> k[j] == 31
    requires sum == 31 * (|k| + |k| / 2) && 256 * wraps <= sum < 256 * (wraps + 1)
    ensures Fits(SMALL, 2, k) && Total(SMALL, k, 0, |k|) == sum && Pow2(SMALL.productBits) == 256
    ensures HashFast(SMALL, k) == Hash(SMALL, k) <==> wraps % 3 == 0
  {
    SmallPowers();
    SmallTotal(k, 0);
    hide Pow2, Mod, Total, HashFast, Hash;
    FastHash(SMALL, 2, k);
    DivUnique(sum, 256, wraps, sum - 256 * wraps);
    assert OddPart(3) == 3;
  }

  /** The width that the exact form needs is not enough for the fast form: the sum of six segments wraps once. */
  lemma FastHashFails()
    ensures var k := seq(6, i => 31); Fits(SMALL, 2, k) && HashFast(SMALL, k) != Hash(SMALL, k)
  {
    SmallHash(seq(6, i => 31), 279, 1);
  }

  /** Without room for the segments the sum need not fit: that of seventeen wraps three times, and the modulus is 3. */
  lemma FastHashByChance()
    ensures
      var k := seq(17, i => 31);
      && Fits(SMALL, 2, k) && HashFast(SMALL, k) == Hash(SMALL, k)
      && Total(SMALL, k, 0, |k|) >= Pow2(SMALL.productBits)
  {
    SmallHash(seq(17, i => 31), 775, 3);
  }
}
