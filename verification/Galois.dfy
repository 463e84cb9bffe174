/**
 The field with 1024 elements over which the bech32 generator polynomial was designed: ten bits,
 multiplied as polynomials modulo a primitive one (BIP-173, "Checksum design").

 Its laws are proved from three facts about the bit operations: addition and doubling are linear,
 every element is doubled halves plus its low bit, and every element but zero has an inverse.
 */
module Galois {
  type elem = bv10

  function Plus(x: elem, y: elem): elem {
    x ^ y
  }

  /** Times the generator; the bit moved out comes back in three places. */
  function Double(x: elem): elem {
    (x << 1) ^ ((0 - (x >> 9)) & 0x225)
  }

  function Half(x: elem): elem {
    x >> 1
  }

  predicate Odd(x: elem) {
    x & 1 == 1
  }

  function Pick(b: bool, x: elem): elem {
    if b then x else 0
  }

  /** The product of `x`'s low `n` bits, as a polynomial, with `y`. */
  function Partial(x: elem, y: elem, n: nat): elem {
    if n == 0 then 0 else Plus(Double(Partial(Half(x), y, n - 1)), Pick(Odd(x), y))
  }

  function Mul(x: elem, y: elem): elem {
    Partial(x, y, 10)
  }

  // ---- The bits ----

  lemma PlusLaws(x: elem, y: elem, z: elem)
    ensures Plus(x, y) == Plus(y, x) && Plus(Plus(x, y), z) == Plus(x, Plus(y, z))
    ensures Plus(x, 0) == x && Plus(0, x) == x && (Plus(x, y) == 0 <==> x == y)
  {
    assert (x ^ y) ^ z == x ^ (y ^ z);
  }

  lemma PlusSwap(x: elem, y: elem, p: elem, q: elem)
    ensures Plus(Plus(x, y), Plus(p, q)) == Plus(Plus(x, p), Plus(y, q))
  {
    assert (x ^ y) ^ (p ^ q) == (x ^ p) ^ (y ^ q);
  }

  lemma DoubleLinearRaw(x: elem, y: elem)
    ensures Double(x ^ y) == Double(x) ^ Double(y)
  {
  }

  lemma DoubleLinear(x: elem, y: elem)
    ensures Double(Plus(x, y)) == Plus(Double(x), Double(y))
  {
    hide Double;
    DoubleLinearRaw(x, y);
  }

  lemma HalfLinear(x: elem, y: elem)
    ensures Half(Plus(x, y)) == Plus(Half(x), Half(y))
  {
    assert (x ^ y) >> 1 == (x >> 1) ^ (y >> 1);
  }

  lemma OddLinear(x: elem, y: elem)
    ensures Odd(Plus(x, y)) == (Odd(x) != Odd(y))
  {
  }

  lemma PickLinear(b: bool, c: bool, x: elem, y: elem)
    ensures Pick(b, Plus(x, y)) == Plus(Pick(b, x), Pick(b, y))
    ensures Pick(b != c, x) == Plus(Pick(b, x), Pick(c, x))
    ensures Double(Pick(b, x)) == Pick(b, Double(x))
  {
    hide Plus, Double;
    PlusLaws(x, x, y);
    PlusLaws(0, 0, y);
    Zero();
  }

  /** `x` needs no more than `n` bits. */
  predicate Fits(x: elem, n: nat) {
    match n
    case 0 => x == 0
    case 1 => x < 2
    case 2 => x < 4
    case 3 => x < 8
    case 4 => x < 16
    case 5 => x < 32
    case 6 => x < 64
    case 7 => x < 128
    case 8 => x < 256
    case 9 => x < 512
    case _ => true
  }

  /** Every element is its half doubled, plus its low bit. */
  lemma Halve(x: elem, n: nat)
    requires 0 < n <= 10 && Fits(x, n)
    ensures Fits(Half(x), n - 1) && x == Plus(Double(Half(x)), Pick(Odd(x), 1))
  {
  }

  lemma Zero()
    ensures Double(0) == 0 && Half(0) == 0 && !Odd(0) && Half(1) == 0 && Odd(1)
  {
  }

  /** What holds of zero and one, and of sums and doubles of what it holds of, holds of everything. */
  lemma {:induction false} Generated(p: elem -> bool, x: elem, n: nat)
    requires n <= 10 && Fits(x, n) && p(0) && p(1)
    requires forall y :: p(y) ==> p(Double(y))
    requires forall y, z :: p(y) && p(z) ==> p(Plus(y, z))
    ensures p(x)
    decreases n
  {
    hide Double, Half, Odd, Plus, Fits;
    NoBits(x);
    if n > 0 {
      Halve(x, n);
      Generated(p, Half(x), n - 1);
    }
  }

  lemma NoBits(x: elem)
    ensures Fits(x, 0) <==> x == 0
  {
  }

  lemma Everything(x: elem)
    ensures Fits(x, 10)
  {
  }

  // ---- The ring laws ----

  lemma {:induction false} PartialPlusRight(x: elem, y: elem, z: elem, n: nat)
    ensures Partial(x, Plus(y, z), n) == Plus(Partial(x, y, n), Partial(x, z, n))
    decreases n
  {
    hide Double, Half, Odd, Plus, Pick;
    if n == 0 {
      PlusLaws(0, 0, 0);
    } else {
      var p, q := Partial(Half(x), y, n - 1), Partial(Half(x), z, n - 1);
      PartialPlusRight(Half(x), y, z, n - 1);
      DoubleLinear(p, q);
      PickLinear(Odd(x), false, y, z);
      PlusSwap(Double(p), Double(q), Pick(Odd(x), y), Pick(Odd(x), z));
    }
  }

  lemma {:induction false} PartialPlusLeft(x: elem, y: elem, z: elem, n: nat)
    ensures Partial(Plus(x, y), z, n) == Plus(Partial(x, z, n), Partial(y, z, n))
    decreases n
  {
    hide Double, Half, Odd, Plus, Pick;
    if n == 0 {
      PlusLaws(0, 0, 0);
    } else {
      var p, q := Partial(Half(x), z, n - 1), Partial(Half(y), z, n - 1);
      HalfLinear(x, y);
      OddLinear(x, y);
      PartialPlusLeft(Half(x), Half(y), z, n - 1);
      DoubleLinear(p, q);
      PickLinear(Odd(x), Odd(y), z, z);
      PlusSwap(Double(p), Double(q), Pick(Odd(x), z), Pick(Odd(y), z));
    }
  }

  lemma {:induction false} PartialDouble(x: elem, y: elem, n: nat)
    ensures Partial(x, Double(y), n) == Double(Partial(x, y, n))
    decreases n
  {
    hide Double, Half, Odd, Plus, Pick;
    Zero();
    if n > 0 {
      var p := Partial(Half(x), y, n - 1);
      PartialDouble(Half(x), y, n - 1);
      DoubleLinear(Double(p), Pick(Odd(x), y));
      PickLinear(Odd(x), false, y, y);
    }
  }

  lemma {:induction false} PartialOne(x: elem, n: nat)
    requires n <= 10 && Fits(x, n)
    ensures Partial(x, 1, n) == x
    decreases n
  {
    hide Double, Half, Odd, Plus, Pick, Fits;
    NoBits(x);
    if n > 0 {
      Halve(x, n);
      PartialOne(Half(x), n - 1);
    }
  }

  lemma {:induction false} PartialZero(y: elem, n: nat)
    ensures Partial(0, y, n) == 0
    decreases n
  {
    hide Double, Half, Odd, Plus;
    Zero();
    PlusLaws(0, 0, 0);
    if n > 0 {
      PartialZero(y, n - 1);
    }
  }

  lemma Distributes(x: elem, y: elem, z: elem)
    ensures Mul(x, Plus(y, z)) == Plus(Mul(x, y), Mul(x, z))
    ensures Mul(Plus(x, y), z) == Plus(Mul(x, z), Mul(y, z))
  {
    hide Plus, Partial;
    PartialPlusRight(x, y, z, 10);
    PartialPlusLeft(x, y, z, 10);
  }

  lemma DoubleRight(x: elem, y: elem)
    ensures Mul(x, Double(y)) == Double(Mul(x, y))
  {
    hide Double, Partial;
    PartialDouble(x, y, 10);
  }

  lemma One(x: elem)
    ensures Mul(x, 1) == x && Mul(1, x) == x && Mul(0, x) == 0 && Mul(x, 0) == 0
  {
    hide Partial, Double, Fits, Plus;
    Everything(x);
    PartialOne(x, 10);
    PartialZero(x, 10);
    Distributes(x, 0, 0);
    PlusLaws(0, 0, 0);
    PlusLaws(Mul(x, 0), Mul(x, 0), 0);
    assert Mul(1, x) == x by {
      hide Mul;
      OneLeft(x);
    }
  }

  lemma OneLeft(x: elem)
    ensures Mul(1, x) == x
  {
    hide Double, Half, Odd, Plus, Partial;
    Zero();
    PartialZero(x, 9);
    PlusLaws(x, 0, 0);
    assert Partial(1, x, 10) == Plus(Double(Partial(0, x, 9)), Pick(true, x)) by {
      OneStep(x);
    }
  }

  lemma OneStep(x: elem)
    ensures Partial(1, x, 10) == Plus(Double(Partial(0, x, 9)), Pick(true, x))
  {
    hide Double, Half, Odd, Plus, Pick;
    Zero();
  }

  lemma DoubleLeft(x: elem, y: elem)
    ensures Mul(Double(x), y) == Double(Mul(x, y))
  {
    hide Mul, Double, Plus, Fits;
    var p := q => Mul(Double(x), q) == Double(Mul(x, q));
    One(x);
    One(Double(x));
    Zero();
    forall q | p(q) ensures p(Double(q)) {
      DoubleRight(x, q);
      DoubleRight(Double(x), q);
    }
    forall q, r | p(q) && p(r) ensures p(Plus(q, r)) {
      Distributes(x, q, r);
      Distributes(Double(x), q, r);
      DoubleLinear(Mul(x, q), Mul(x, r));
    }
    Everything(y);
    Generated(p, y, 10);
  }

  lemma Commutes(x: elem, y: elem)
    ensures Mul(x, y) == Mul(y, x)
  {
    hide Mul, Double, Plus, Fits;
    var p := q => Mul(x, q) == Mul(q, x);
    One(x);
    forall q | p(q) ensures p(Double(q)) {
      DoubleRight(x, q);
      DoubleLeft(q, x);
    }
    forall q, r | p(q) && p(r) ensures p(Plus(q, r)) {
      Distributes(x, q, r);
      Distributes(q, r, x);
    }
    Everything(y);
    Generated(p, y, 10);
  }

  lemma Associates(x: elem, y: elem, z: elem)
    ensures Mul(Mul(x, y), z) == Mul(x, Mul(y, z))
  {
    hide Mul, Double, Plus, Fits;
    var p := q => Mul(Mul(x, y), q) == Mul(x, Mul(y, q));
    One(Mul(x, y));
    One(x);
    One(y);
    forall q | p(q) ensures p(Double(q)) {
      DoubleRight(Mul(x, y), q);
      DoubleRight(y, q);
      DoubleRight(x, Mul(y, q));
    }
    forall q, r | p(q) && p(r) ensures p(Plus(q, r)) {
      Distributes(Mul(x, y), q, r);
      Distributes(y, q, r);
      Distributes(x, Mul(y, q), Mul(y, r));
    }
    Everything(z);
    Generated(p, z, 10);
  }

  lemma MulSwap(x: elem, y: elem, z: elem)
    ensures Mul(x, Mul(y, z)) == Mul(y, Mul(x, z))
  {
    hide Mul;
    Associates(x, y, z);
    Commutes(x, y);
    Associates(y, x, z);
  }

  // ---- Squares ----

  const GENERATOR: elem := 2

  lemma GeneratorDoubles(x: elem)
    ensures Mul(GENERATOR, x) == Double(x)
  {
    hide Mul;
    DoubleLeft(1, x);
    One(x);
  }

  function SquaredLow(x: elem): elem {
    (x & 1) ^ ((0 - ((x >> 1) & 1)) & 0x4) ^ ((0 - ((x >> 2) & 1)) & 0x10)
    ^ ((0 - ((x >> 3) & 1)) & 0x40) ^ ((0 - ((x >> 4) & 1)) & 0x100)
  }

  function SquaredHigh(x: elem): elem {
    ((0 - ((x >> 5) & 1)) & 0x225) ^ ((0 - ((x >> 6) & 1)) & 0x2fb) ^ ((0 - ((x >> 7) & 1)) & 0x183)
    ^ ((0 - ((x >> 8) & 1)) & 0x29) ^ ((0 - (x >> 9)) & 0xa4)
  }

  /** The square, which is additive: each bit contributes its own. */
  function Squared(x: elem): elem {
    Plus(SquaredLow(x), SquaredHigh(x))
  }

  lemma SquaredLowLinear(x: elem, y: elem)
    ensures SquaredLow(x ^ y) == SquaredLow(x) ^ SquaredLow(y)
  {
  }

  lemma SquaredHighLinear(x: elem, y: elem)
    ensures SquaredHigh(x ^ y) == SquaredHigh(x) ^ SquaredHigh(y)
  {
  }

  lemma SquaredParts(x: elem, y: elem)
    ensures SquaredLow(Plus(x, y)) == Plus(SquaredLow(x), SquaredLow(y))
    ensures SquaredHigh(Plus(x, y)) == Plus(SquaredHigh(x), SquaredHigh(y))
  {
    hide SquaredLow, SquaredHigh;
    SquaredLowLinear(x, y);
    SquaredHighLinear(x, y);
  }

  lemma SquaredLinear(x: elem, y: elem)
    ensures Squared(Plus(x, y)) == Plus(Squared(x), Squared(y))
  {
    hide SquaredLow, SquaredHigh, Plus;
    SquaredParts(x, y);
    PlusSwap(SquaredLow(x), SquaredLow(y), SquaredHigh(x), SquaredHigh(y));
  }

  lemma SquaredDouble(x: elem)
    ensures Squared(Double(x)) == Double(Double(Squared(x)))
    ensures Squared(0) == 0 && Squared(1) == 1
  {
  }

  lemma SquareIs(x: elem)
    ensures Mul(x, x) == Squared(x)
  {
    hide Mul, Double, Plus, Fits, Squared;
    var p := q => Mul(q, q) == Squared(q);
    One(0);
    One(1);
    SquaredDouble(0);
    forall q | p(q) ensures p(Double(q)) {
      DoubleLeft(q, Double(q));
      DoubleRight(q, q);
      SquaredDouble(q);
    }
    forall q, r | p(q) && p(r) ensures p(Plus(q, r)) {
      SquareOfSum(q, r);
      SquaredLinear(q, r);
    }
    Everything(x);
    Generated(p, x, 10);
  }

  lemma SquareOfSum(x: elem, y: elem)
    ensures Mul(Plus(x, y), Plus(x, y)) == Plus(Mul(x, x), Mul(y, y))
  {
    hide Mul, Plus;
    Distributes(x, y, Plus(x, y));
    Distributes(x, x, y);
    Distributes(y, x, y);
    Commutes(x, y);
    var a, b, m := Mul(x, x), Mul(y, y), Mul(x, y);
    PlusLaws(m, b, 0);
    PlusLaws(m, m, 0);
    PlusSwap(a, m, b, m);
    PlusLaws(Plus(a, b), 0, 0);
  }

  /** Only zero and one are their own squares, which is what makes the modulus irreducible. */
  lemma OwnSquare(x: elem)
    requires Squared(x) == x
    ensures x == 0 || x == 1
  {
  }

  /** Five squarings, an automorphism that is its own inverse. */
  function Conjugate(x: elem): elem {
    Squared(Squared(Squared(Squared(Squared(x)))))
  }

  lemma SquaredProduct(x: elem, y: elem)
    ensures Squared(Mul(x, y)) == Mul(Squared(x), Squared(y))
  {
    hide Mul, Squared;
    SquareIs(Mul(x, y));
    SquareIs(x);
    SquareIs(y);
    Associates(x, y, Mul(x, y));
    MulSwap(y, x, y);
    Associates(x, x, Mul(y, y));
  }

  lemma ConjugateProduct(x: elem, y: elem)
    ensures Conjugate(Mul(x, y)) == Mul(Conjugate(x), Conjugate(y))
  {
    hide Mul, Squared;
    var u, v := x, y;
    SquaredProduct(u, v);
    u, v := Squared(u), Squared(v);
    SquaredProduct(u, v);
    u, v := Squared(u), Squared(v);
    SquaredProduct(u, v);
    u, v := Squared(u), Squared(v);
    SquaredProduct(u, v);
    u, v := Squared(u), Squared(v);
    SquaredProduct(u, v);
  }

  lemma ConjugateSum(x: elem, y: elem)
    ensures Conjugate(Plus(x, y)) == Plus(Conjugate(x), Conjugate(y))
  {
    hide Plus, Squared;
    var u, v := x, y;
    SquaredLinear(u, v);
    u, v := Squared(u), Squared(v);
    SquaredLinear(u, v);
    u, v := Squared(u), Squared(v);
    SquaredLinear(u, v);
    u, v := Squared(u), Squared(v);
    SquaredLinear(u, v);
    u, v := Squared(u), Squared(v);
    SquaredLinear(u, v);
  }

  lemma ConjugateSmall()
    ensures Conjugate(0) == 0 && Conjugate(1) == 1 && Conjugate(Conjugate(2)) == 2
  {
  }

  lemma ConjugateTwice(x: elem)
    ensures Conjugate(Conjugate(x)) == x
  {
    hide Mul, Double, Plus, Fits, Conjugate;
    var p := q => Conjugate(Conjugate(q)) == q;
    ConjugateSmall();
    forall q | p(q) ensures p(Double(q)) {
      GeneratorDoubles(q);
      ConjugateProduct(2, q);
      ConjugateProduct(Conjugate(2), Conjugate(q));
    }
    forall q, r | p(q) && p(r) ensures p(Plus(q, r)) {
      ConjugateSum(q, r);
      ConjugateSum(Conjugate(q), Conjugate(r));
    }
    Everything(x);
    Generated(p, x, 10);
  }

  // ---- Powers and inverses ----

  function Pow(x: elem, n: nat): elem {
    if n == 0 then 1 else Mul(x, Pow(x, n - 1))
  }

  lemma {:induction false} PowAdd(x: elem, m: nat, n: nat)
    ensures Pow(x, m + n) == Mul(Pow(x, m), Pow(x, n))
  {
    hide Mul;
    if m == 0 {
      One(Pow(x, n));
    } else {
      PowAdd(x, m - 1, n);
      Associates(x, Pow(x, m - 1), Pow(x, n));
    }
  }

  lemma {:induction false} PowOfProduct(x: elem, y: elem, n: nat)
    ensures Pow(Mul(x, y), n) == Mul(Pow(x, n), Pow(y, n))
  {
    hide Mul;
    One(1);
    if n > 0 {
      PowOfProduct(x, y, n - 1);
      var a, b := Pow(x, n - 1), Pow(y, n - 1);
      Associates(x, y, Mul(a, b));
      MulSwap(y, a, b);
      Associates(x, a, Mul(y, b));
    }
  }

  lemma PowTwice(x: elem, n: nat)
    ensures Pow(x, 2 * n) == Squared(Pow(x, n))
  {
    hide Mul, Pow, Squared;
    PowAdd(x, n, n);
    SquareIs(Pow(x, n));
  }

  lemma PowFirst(x: elem)
    ensures Pow(x, 1) == x && Pow(x, 0) == 1
  {
    hide Mul;
    One(x);
    assert Pow(x, 0) == 1;
  }

  lemma Pow32(x: elem, n: nat)
    ensures Pow(x, 32 * n) == Conjugate(Pow(x, n))
  {
    hide Pow, Squared;
    PowTwice(x, n);
    PowTwice(x, 2 * n);
    PowTwice(x, 4 * n);
    PowTwice(x, 8 * n);
    PowTwice(x, 16 * n);
  }

  /** Every element is its own 1024th power, */
  lemma Pow1024(x: elem)
    ensures Pow(x, 1024) == x
  {
    hide Pow, Conjugate;
    PowFirst(x);
    Pow32(x, 1);
    Pow32(x, 32);
    ConjugateTwice(x);
  }

  /** so its 1023rd is its own square, and for all but zero that is one. */
  lemma Pow1023(x: elem)
    requires x != 0
    ensures Pow(x, 1023) == 1
  {
    hide Mul, Pow, Squared;
    var e := Pow(x, 1023);
    PowTwice(x, 1023);
    PowAdd(x, 1024, 1022);
    Pow1024(x);
    PowAdd(x, 1, 1022);
    PowFirst(x);
    OwnSquare(e);
    PowAdd(x, 1, 1023);
    One(x);
  }

  lemma NoZeroDivisors(x: elem, y: elem)
    requires Mul(x, y) == 0
    ensures x == 0 || y == 0
  {
    hide Mul, Pow;
    if x != 0 {
      Pow1023(x);
      PowAdd(x, 1022, 1);
      PowFirst(x);
      Associates(Pow(x, 1022), x, y);
      One(y);
      One(Pow(x, 1022));
    }
  }

  lemma {:induction false} PowNonzero(x: elem, n: nat)
    requires x != 0
    ensures Pow(x, n) != 0
  {
    hide Mul;
    if n > 0 {
      PowNonzero(x, n - 1);
      if Pow(x, n) == 0 {
        NoZeroDivisors(x, Pow(x, n - 1));
      }
    }
  }

  // ---- The generator has order 1023 ----

  lemma {:induction false} PowMultiple(x: elem, g: nat, q: nat)
    requires Pow(x, g) == 1
    ensures Pow(x, g * q) == 1
    decreases q
  {
    hide Mul;
    if q > 0 {
      PowMultiple(x, g, q - 1);
      assert g * q == g * (q - 1) + g;
      PowAdd(x, g * (q - 1), g);
      One(1);
    }
  }

  lemma PowRemainder(x: elem, m: nat, g: nat)
    requires g > 0 && Pow(x, g) == 1
    ensures Pow(x, m) == Pow(x, m % g)
  {
    hide Mul, Pow;
    var q: nat := m / g;
    PowMultiple(x, g, q);
    PowAdd(x, g * q, m % g);
    One(Pow(x, m % g));
  }

  lemma SmallFactor(d: nat, e: nat)
    requires d * e == 1023 && d <= 31
    ensures d in {1, 3, 11, 31}
  {
    assert d == 0 || d == 1 || d == 2 || d == 3 || d == 4 || d == 5 || d == 6 || d == 7 || d == 8 || d == 9 || d == 10
           || d == 11 || d == 12 || d == 13 || d == 14 || d == 15 || d == 16 || d == 17 || d == 18 || d == 19 || d == 20
           || d == 21 || d == 22 || d == 23 || d == 24 || d == 25 || d == 26 || d == 27 || d == 28 || d == 29 || d == 30
           || d == 31;
  }

  lemma NotBothLarge(d: nat, e: nat)
    ensures d >= 32 && e >= 32 ==> d * e >= 1024
  {
    if d >= 32 && e >= 32 {
      var a: nat, b: nat := d - 32, e - 32;
      assert d * e == 1024 + 32 * a + 32 * b + a * b;
    }
  }

  /** A proper divisor of 1023 divides 33, 93 or 341. */
  lemma ProperDivisor(d: nat, e: nat)
    requires d * e == 1023 && d < 1023
    ensures 33 % d == 0 || 93 % d == 0 || 341 % d == 0
  {
    NotBothLarge(d, e);
    if d <= 31 {
      SmallFactor(d, e);
    } else {
      assert e * d == 1023;
      SmallFactor(e, d);
    }
  }

  lemma MaximalPowers()
    ensures Pow(GENERATOR, 33) != 1 && Pow(GENERATOR, 93) != 1 && Pow(GENERATOR, 341) != 1
  {
    hide Mul, Pow, Conjugate, Double;
    PowFirst(2);
    SmallPowers();
    Pow32(2, 1);
    Pow32(2, 3);
    Pow32(2, 11);
    PowAdd(2, 1, 32);
    PowAdd(2, 93, 3);
    PowAdd(2, 341, 11);
    GeneratorDoubles(Conjugate(2));
    One(Pow(2, 3));
    One(Pow(2, 11));
    Conjugates();
  }

  lemma Conjugates()
    ensures Double(Conjugate(2)) != 1 && Conjugate(8) != 8 && Conjugate(0x26f) != 0x26f
  {
  }

  lemma SmallPowers()
    ensures Pow(GENERATOR, 3) == 8 && Pow(GENERATOR, 11) == 0x26f
  {
    hide Mul, Pow, Squared;
    PowFirst(2);
    PowTwice(2, 1);
    PowAdd(2, 1, 2);
    PowTwice(2, 5);
    PowTwice(2, 2);
    PowAdd(2, 1, 4);
    PowAdd(2, 1, 10);
    GeneratorDoubles(4);
    GeneratorDoubles(16);
    GeneratorDoubles(0x225);
    SquareValues();
  }

  lemma SquareValues()
    ensures Squared(2) == 4 && Squared(4) == 16 && Squared(32) == 0x225
    ensures Double(4) == 8 && Double(16) == 32 && Double(0x225) == 0x26f
  {
  }

  lemma {:induction false} BelowOrder(g: nat)
    requires 0 < g < 1023
    ensures Pow(GENERATOR, g) != 1
  {
    hide Pow;
    if Pow(GENERATOR, g) == 1 {
      var r := 1023 % g;
      Pow1023(GENERATOR);
      PowRemainder(GENERATOR, 1023, g);
      if r > 0 {
        BelowOrder(r);
      } else {
        PowFirst(GENERATOR);
        ProperDivisor(g, 1023 / g);
        MaximalPowers();
        PowRemainder(GENERATOR, 33, g);
        PowRemainder(GENERATOR, 93, g);
        PowRemainder(GENERATOR, 341, g);
      }
    }
  }

  /** A power of the generator is one exactly when its exponent is a multiple of 1023. */
  lemma Order(n: nat)
    ensures Pow(GENERATOR, n) == 1 <==> n % 1023 == 0
  {
    hide Pow;
    Pow1023(GENERATOR);
    PowRemainder(GENERATOR, n, 1023);
    PowFirst(GENERATOR);
    if n % 1023 != 0 {
      BelowOrder(n % 1023);
    }
  }

  // ---- Equations between errors ----

  lemma Eliminate(p: elem, q: elem, r: elem, s: elem, w: elem)
    requires Plus(Plus(p, q), w) == 0 && Plus(Plus(r, s), w) == 0
    ensures Plus(p, r) == Plus(q, s)
  {
    PlusSwap(p, q, r, s);
    assert p ^ q == w && r ^ s == w;
    assert (p ^ r) ^ (q ^ s) == (p ^ q) ^ (r ^ s);
    PlusLaws(Plus(p, r), Plus(q, s), 0);
  }

  lemma OnePlus(x: elem, u: elem)
    ensures Plus(u, Mul(x, u)) == Mul(Plus(1, x), u)
    ensures Plus(u, Mul(x, u)) == 0 <==> x == 1 || u == 0
  {
    hide Plus, Mul;
    Distributes(1, x, u);
    One(u);
    One(x);
    PlusLaws(1, x, 0);
    if Mul(Plus(1, x), u) == 0 {
      NoZeroDivisors(Plus(1, x), u);
    }
    One(Plus(1, x));
  }

  /** Two errors that cancel at two consecutive points are none, unless their distance turns by one. */
  lemma TwoEquations(u: elem, w: elem, x: elem)
    requires Plus(u, w) == 0 && Plus(Mul(x, u), w) == 0
    ensures u == w && (x == 1 || u == 0)
  {
    hide Plus, Mul;
    PlusLaws(u, w, 0);
    PlusLaws(Mul(x, u), w, 0);
    OnePlus(x, u);
    PlusLaws(u, u, 0);
  }

  /** Three errors that cancel at three consecutive points are none. */
  lemma ThreeEquations(u: elem, v: elem, w: elem, x: elem, y: elem)
    requires Plus(Plus(u, v), w) == 0 && Plus(Plus(Mul(x, u), Mul(y, v)), w) == 0
    requires Plus(Plus(Mul(x, Mul(x, u)), Mul(y, Mul(y, v))), w) == 0
    requires x != 1 && y != 1 && x != y
    ensures u == 0 && v == 0 && w == 0
  {
    hide Plus, Mul;
    var s, t := Plus(u, Mul(x, u)), Plus(v, Mul(y, v));
    Eliminate(u, v, Mul(x, u), Mul(y, v), w);
    Eliminate(Mul(x, u), Mul(y, v), Mul(x, Mul(x, u)), Mul(y, Mul(y, v)), w);
    Distributes(x, u, Mul(x, u));
    Distributes(y, v, Mul(y, v));
    Distributes(x, y, s);
    PlusLaws(Mul(x, s), Mul(y, s), 0);
    PlusLaws(x, y, 0);
    NoZeroDivisors(Plus(x, y), s);
    OnePlus(x, u);
    OnePlus(y, v);
    PlusLaws(0, w, 0);
  }

  /** Different powers below the order are different. */
  lemma PowersDiffer(m: nat, n: nat)
    requires m < n < 1023
    ensures Pow(GENERATOR, m) != Pow(GENERATOR, n)
  {
    hide Plus, Mul, Pow;
    var u, x := Pow(GENERATOR, m), Pow(GENERATOR, n - m);
    PowAdd(GENERATOR, n - m, m);
    OnePlus(x, u);
    PlusLaws(u, Mul(x, u), 0);
    Order(n - m);
    PowNonzero(GENERATOR, m);
  }
}
