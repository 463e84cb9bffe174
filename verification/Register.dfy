/**
 One step of the bech32 checksum register and its algebra over GF(2).

 Exclusive or and the other bit operations are named functions, so that a proof about whole
 strings can hide them and reason by equality alone.
 */
module Register {
  function Xor(x: bv32, y: bv32): bv32 {
    x ^ y
  }

  /** The part of the register that stays, moved up by one symbol. */
  function Feed(pre: bv32): bv32 {
    (pre & 0x1FFFFFF) << 5
  }

  /** The generator constant that bit `25 + i` of the register switches on, by a mask of all ones or none. */
  function Tap(pre: bv32, i: nat): bv32
    requires i < 5
  {
    var b := pre >> 25;
    match i
    case 0 => (0 - ((b >> 0) & 1)) & 0x3b6a57b2
    case 1 => (0 - ((b >> 1) & 1)) & 0x26508e6d
    case 2 => (0 - ((b >> 2) & 1)) & 0x1ea119fa
    case 3 => (0 - ((b >> 3) & 1)) & 0x3d4233dd
    case _ => (0 - ((b >> 4) & 1)) & 0x2a1462b3
  }

  function Step(pre: bv32): bv32 {
    Xor(Xor(Xor(Xor(Xor(Feed(pre), Tap(pre, 0)), Tap(pre, 1)), Tap(pre, 2)), Tap(pre, 3)), Tap(pre, 4))
  }

  /** A register value between steps: thirty bits. */
  predicate Reduced(chk: bv32) {
    chk < 0x40000000
  }

  lemma XorAssociative(x: bv32, y: bv32, z: bv32)
    ensures Xor(Xor(x, y), z) == Xor(x, Xor(y, z))
  {
    assert (x ^ y) ^ z == x ^ (y ^ z);
  }

  lemma XorCommutes(x: bv32, y: bv32)
    ensures Xor(x, y) == Xor(y, x)
  {
  }

  lemma XorSwap(x: bv32, y: bv32, p: bv32, q: bv32)
    ensures Xor(Xor(x, y), Xor(p, q)) == Xor(Xor(x, p), Xor(y, q))
  {
    hide Xor;
    XorAssociative(x, y, Xor(p, q));
    XorAssociative(y, p, q);
    XorCommutes(y, p);
    XorAssociative(p, y, q);
    XorAssociative(x, p, Xor(y, q));
  }

  lemma FeedLinearRaw(x: bv32, y: bv32)
    ensures Feed(x ^ y) == Feed(x) ^ Feed(y)
  {
    assert ((x ^ y) & 0x1FFFFFF) << 5 == ((x & 0x1FFFFFF) << 5) ^ ((y & 0x1FFFFFF) << 5);
  }

  lemma FeedLinear(x: bv32, y: bv32)
    ensures Feed(Xor(x, y)) == Xor(Feed(x), Feed(y))
  {
    hide Feed;
    FeedLinearRaw(x, y);
  }

  lemma MaskLinear(x: bv32, y: bv32, k: bv32)
    ensures (0 - ((x ^ y) & 1)) & k == ((0 - (x & 1)) & k) ^ ((0 - (y & 1)) & k)
  {
  }

  lemma TapLinearRaw(x: bv32, y: bv32, i: nat)
    requires i < 5
    ensures Tap(x ^ y, i) == Tap(x, i) ^ Tap(y, i)
  {
    match i
    case 0 =>
      assert (x ^ y) >> 25 >> 0 == (x >> 25 >> 0) ^ (y >> 25 >> 0);
      MaskLinear(x >> 25 >> 0, y >> 25 >> 0, 0x3b6a57b2);
    case 1 =>
      assert (x ^ y) >> 25 >> 1 == (x >> 25 >> 1) ^ (y >> 25 >> 1);
      MaskLinear(x >> 25 >> 1, y >> 25 >> 1, 0x26508e6d);
    case 2 =>
      assert (x ^ y) >> 25 >> 2 == (x >> 25 >> 2) ^ (y >> 25 >> 2);
      MaskLinear(x >> 25 >> 2, y >> 25 >> 2, 0x1ea119fa);
    case 3 =>
      assert (x ^ y) >> 25 >> 3 == (x >> 25 >> 3) ^ (y >> 25 >> 3);
      MaskLinear(x >> 25 >> 3, y >> 25 >> 3, 0x3d4233dd);
    case _ =>
      assert (x ^ y) >> 25 >> 4 == (x >> 25 >> 4) ^ (y >> 25 >> 4);
      MaskLinear(x >> 25 >> 4, y >> 25 >> 4, 0x2a1462b3);
  }

  lemma TapLinear(x: bv32, y: bv32, i: nat)
    requires i < 5
    ensures Tap(Xor(x, y), i) == Xor(Tap(x, i), Tap(y, i))
  {
    hide Tap;
    TapLinearRaw(x, y, i);
  }

  lemma StepLinear(x: bv32, y: bv32)
    ensures Step(Xor(x, y)) == Xor(Step(x), Step(y))
  {
    hide Feed, Tap, Xor;
    FeedLinear(x, y);
    var a, b := Feed(x), Feed(y);
    TapLinear(x, y, 0);
    XorSwap(a, b, Tap(x, 0), Tap(y, 0));
    a, b := Xor(a, Tap(x, 0)), Xor(b, Tap(y, 0));
    TapLinear(x, y, 1);
    XorSwap(a, b, Tap(x, 1), Tap(y, 1));
    a, b := Xor(a, Tap(x, 1)), Xor(b, Tap(y, 1));
    TapLinear(x, y, 2);
    XorSwap(a, b, Tap(x, 2), Tap(y, 2));
    a, b := Xor(a, Tap(x, 2)), Xor(b, Tap(y, 2));
    TapLinear(x, y, 3);
    XorSwap(a, b, Tap(x, 3), Tap(y, 3));
    a, b := Xor(a, Tap(x, 3)), Xor(b, Tap(y, 3));
    TapLinear(x, y, 4);
    XorSwap(a, b, Tap(x, 4), Tap(y, 4));
  }

  lemma StepReduced(x: bv32)
    ensures Reduced(Step(x))
  {
  }

  lemma StepKernel(x: bv32)
    requires Reduced(x) && Step(x) == 0
    ensures x == 0
  {
  }

  lemma XorCancel(x: bv32, y: bv32, z: bv32)
    requires Xor(x, z) == Xor(y, z)
    ensures x == y
  {
    assert (x ^ z) ^ z == x;
    assert (y ^ z) ^ z == y;
  }

  lemma XorSelf(x: bv32, y: bv32)
    ensures Xor(x, y) == 0 <==> x == y
  {
  }

  lemma XorZero(x: bv32)
    ensures Xor(x, 0) == x
  {
  }

  lemma XorReduced(x: bv32, y: bv32)
    requires Reduced(x) && Reduced(y)
    ensures Reduced(Xor(x, y))
  {
  }

  lemma StepInjective(x: bv32, y: bv32)
    requires Reduced(x) && Reduced(y) && Step(x) == Step(y)
    ensures x == y
  {
    hide Step, Xor, Reduced;
    StepLinear(x, y);
    XorSelf(Step(x), Step(y));
    XorReduced(x, y);
    StepKernel(Xor(x, y));
    XorSelf(x, y);
  }

  /** `p` is a number that `n` symbols can make. */
  predicate Fits(p: bv32, n: nat) {
    match n
    case 0 => p == 0
    case 1 => p < 0x20
    case 2 => p < 0x400
    case 3 => p < 0x8000
    case 4 => p < 0x100000
    case 5 => p < 0x2000000
    case _ => p < 0x40000000
  }

  lemma FitsZero(p: bv32)
    ensures Fits(p, 0) <==> p == 0
  {
  }

  lemma NoTap(p: bv32, i: nat)
    requires p >> 25 == 0 && i < 5
    ensures Tap(p, i) == 0
  {
  }

  lemma FitsBelowTaps(p: bv32, n: nat)
    requires n < 6 && Fits(p, n)
    ensures p >> 25 == 0 && Feed(p) == p << 5
  {
  }

  /** With room left a step only shifts. */
  lemma SmallStep(p: bv32, n: nat)
    requires n < 6 && Fits(p, n)
    ensures Step(p) == p << 5
  {
    hide Feed, Tap, Xor, Fits;
    FitsBelowTaps(p, n);
    NoTap(p, 0);
    NoTap(p, 1);
    NoTap(p, 2);
    NoTap(p, 3);
    NoTap(p, 4);
    XorZero(Feed(p));
  }
}
