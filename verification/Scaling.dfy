/**
 Each symbol of the bech32 checksum register is an element of GF(32), and one checksum step is
 linear over that field: it commutes with multiplying all six symbols by the field's generator.
 Together with additivity this is what makes the checksum a BCH code over symbols, not just bits;
 it ties each of the five constants of the step to the one before it.
 */
module Scaling {
  import opened Register

  /** The high bit of each symbol, moved to its low bit. */
  function Carries(x: bv32): bv32 {
    (x >> 4) & 0x02108421
  }

  /** The other four bits of each symbol, one place up. */
  function Doubled(x: bv32): bv32 {
    (x & 0x1ef7bdef) << 1
  }

  function Cubes(x: bv32): bv32 {
    Carries(x) << 3
  }

  /** Every symbol times the generator, whose fifth power is its cube plus one (BIP-173, "Checksum design"). */
  function Scale(x: bv32): bv32 {
    Xor(Doubled(x), Xor(Carries(x), Cubes(x)))
  }

  ghost predicate StepCommutes(x: bv32) {
    Step(Scale(x)) == Scale(Step(x))
  }

  // ---- Scaling is additive, and moves along with the symbols ----

  lemma DoubledLinearRaw(x: bv32, y: bv32)
    ensures Doubled(x ^ y) == Doubled(x) ^ Doubled(y)
  {
  }

  lemma DoubledLinear(x: bv32, y: bv32)
    ensures Doubled(Xor(x, y)) == Xor(Doubled(x), Doubled(y))
  {
    hide Doubled, Carries;
    DoubledLinearRaw(x, y);
  }

  lemma CarriesLinearRaw(x: bv32, y: bv32)
    ensures Carries(x ^ y) == Carries(x) ^ Carries(y)
  {
  }

  lemma CarriesLinear(x: bv32, y: bv32)
    ensures Carries(Xor(x, y)) == Xor(Carries(x), Carries(y))
  {
    hide Carries;
    CarriesLinearRaw(x, y);
  }

  lemma CubesLinearRaw(x: bv32, y: bv32)
    ensures Cubes(x ^ y) == Cubes(x) ^ Cubes(y)
  {
  }

  lemma CubesLinear(x: bv32, y: bv32)
    ensures Cubes(Xor(x, y)) == Xor(Cubes(x), Cubes(y))
  {
    hide Cubes, Carries;
    CubesLinearRaw(x, y);
  }

  lemma ScaleLinear(x: bv32, y: bv32)
    ensures Scale(Xor(x, y)) == Xor(Scale(x), Scale(y))
  {
    hide Doubled, Carries, Cubes, Xor;
    DoubledLinear(x, y);
    CarriesLinear(x, y);
    CubesLinear(x, y);
    XorSwap(Carries(x), Carries(y), Cubes(x), Cubes(y));
    XorSwap(Doubled(x), Doubled(y), Xor(Carries(x), Cubes(x)), Xor(Carries(y), Cubes(y)));
  }

  function LowFive(x: bv32): bv32 {
    x & 0x1ff_ffff
  }

  lemma LowFiveIs(x: bv32)
    ensures LowFive(x) == x & 0x1ff_ffff
  {
  }

  lemma MaskDoubledRaw(x: bv32)
    ensures Doubled(x) & 0x1ff_ffff == Doubled(x & 0x1ff_ffff)
  {
  }

  lemma MaskDoubled(x: bv32)
    ensures LowFive(Doubled(x)) == Doubled(LowFive(x))
  {
    hide Doubled, LowFive;
    LowFiveIs(x);
    LowFiveIs(Doubled(x));
    MaskDoubledRaw(x);
  }

  function Up(x: bv32): bv32 {
    x << 5
  }

  lemma UpIs(x: bv32)
    ensures Up(x) == x << 5
  {
  }

  lemma UpDoubledRaw(x: bv32)
    requires x < 0x200_0000
    ensures Doubled(x) << 5 == Doubled(x << 5)
  {
  }

  lemma FiveBound(x: bv32)
    requires Fits(x, 5)
    ensures x < 0x200_0000
  {
  }

  lemma UpDoubled(x: bv32)
    requires Fits(x, 5)
    ensures Up(Doubled(x)) == Doubled(Up(x))
  {
    hide Doubled, Up, Fits;
    FiveBound(x);
    UpIs(x);
    UpIs(Doubled(x));
    UpDoubledRaw(x);
  }

  lemma FeedIs(x: bv32)
    ensures Feed(x) == Up(LowFive(x))
  {
  }

  lemma FeedDoubled(x: bv32)
    ensures Feed(Doubled(x)) == Doubled(Feed(x))
  {
    hide Feed, Doubled, LowFive, Up, Fits;
    LowFiveFits(x);
    FeedIs(x);
    FeedIs(Doubled(x));
    MaskDoubled(x);
    UpDoubled(LowFive(x));
  }

  lemma FeedCarries(x: bv32)
    requires Reduced(x)
    ensures Feed(Carries(x)) == Carries(Feed(x))
  {
  }

  lemma FeedCubes(x: bv32)
    requires Reduced(x)
    ensures Feed(Cubes(x)) == Cubes(Feed(x))
  {
  }

  lemma FeedScales(x: bv32)
    requires Reduced(x)
    ensures Feed(Scale(x)) == Scale(Feed(x))
  {
    hide Doubled, Carries, Cubes, Feed, Xor, Reduced;
    FeedDoubled(x);
    FeedCarries(x);
    FeedCubes(x);
    FeedLinear(Carries(x), Cubes(x));
    FeedLinear(Doubled(x), Xor(Carries(x), Cubes(x)));
  }

  // ---- The low five symbols, and the five bits of the top one ----

  lemma ScaleFits(x: bv32)
    requires Fits(x, 5)
    ensures Fits(Scale(x), 5) && Reduced(x)
  {
  }

  lemma LowStep(x: bv32)
    requires Fits(x, 5)
    ensures Step(x) == Feed(x)
  {
    hide Step, Feed, Fits;
    SmallStep(x, 5);
    FitsBelowTaps(x, 5);
  }

  lemma LowCommutes(x: bv32)
    requires Fits(x, 5)
    ensures StepCommutes(x)
  {
    hide Step, Feed, Scale, Fits, Reduced;
    ScaleFits(x);
    LowStep(x);
    LowStep(Scale(x));
    FeedScales(x);
  }

  /** Bit `i` of the top symbol, where it stands. */
  function TopBit(x: bv32, i: nat): bv32
    requires i < 5
  {
    match i
    case 0 => x & 0x200_0000
    case 1 => x & 0x400_0000
    case 2 => x & 0x800_0000
    case 3 => x & 0x1000_0000
    case _ => x & 0x2000_0000
  }

  lemma TopBitsCommute()
    ensures StepCommutes(0) && StepCommutes(0x200_0000) && StepCommutes(0x400_0000)
    ensures StepCommutes(0x800_0000) && StepCommutes(0x1000_0000) && StepCommutes(0x2000_0000)
  {
  }

  lemma SumCommutes(x: bv32, y: bv32)
    requires StepCommutes(x) && StepCommutes(y)
    ensures StepCommutes(Xor(x, y))
  {
    hide Step, Scale, Xor;
    StepLinear(x, y);
    StepLinear(Scale(x), Scale(y));
    ScaleLinear(x, y);
    ScaleLinear(Step(x), Step(y));
  }

  lemma TopBitIs(x: bv32, i: nat)
    requires i < 5
    ensures TopBit(x, i) in {0, 0x200_0000, 0x400_0000, 0x800_0000, 0x1000_0000, 0x2000_0000}
  {
  }

  lemma TopBitCommutes(x: bv32, i: nat)
    requires i < 5
    ensures StepCommutes(TopBit(x, i))
  {
    hide TopBit, StepCommutes;
    TopBitIs(x, i);
    TopBitsCommute();
  }

  lemma LowFiveFits(x: bv32)
    ensures Fits(LowFive(x), 5)
  {
  }

  lemma CutRaw(x: bv32)
    requires Reduced(x)
    ensures LowFive(x) ^ TopBit(x, 0) ^ TopBit(x, 1) ^ TopBit(x, 2) ^ TopBit(x, 3) ^ TopBit(x, 4) == x
  {
  }

  lemma Cut(x: bv32)
    requires Reduced(x)
    ensures Xor(Xor(Xor(Xor(Xor(LowFive(x), TopBit(x, 0)), TopBit(x, 1)), TopBit(x, 2)), TopBit(x, 3)), TopBit(x, 4))
            == x
  {
    hide LowFive, TopBit, Reduced;
    CutRaw(x);
  }

  lemma AddTopBit(y: bv32, x: bv32, i: nat)
    requires i < 5 && StepCommutes(y)
    ensures StepCommutes(Xor(y, TopBit(x, i)))
  {
    hide StepCommutes, Xor, TopBit;
    TopBitCommutes(x, i);
    SumCommutes(y, TopBit(x, i));
  }

  /** One step is linear over GF(32). */
  lemma StepScales(x: bv32)
    requires Reduced(x)
    ensures Step(Scale(x)) == Scale(Step(x))
  {
    hide Step, Scale, Xor, Fits, Reduced, LowFive, TopBit;
    Cut(x);
    var y := LowFive(x);
    LowFiveFits(x);
    LowCommutes(y);
    AddTopBit(y, x, 0);
    y := Xor(y, TopBit(x, 0));
    AddTopBit(y, x, 1);
    y := Xor(y, TopBit(x, 1));
    AddTopBit(y, x, 2);
    y := Xor(y, TopBit(x, 2));
    AddTopBit(y, x, 3);
    y := Xor(y, TopBit(x, 3));
    AddTopBit(y, x, 4);
  }
}
