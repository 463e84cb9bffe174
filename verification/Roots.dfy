/**
 The checksum register as a polynomial of degree five over GF(32), evaluated in GF(1024).

 Three consecutive powers of the generator are roots of the checksum's modulus, so one checksum
 step multiplies the register's value at each of them by the point itself.
 */
module Roots {
  import opened Register
  import opened Scaling
  import G = Galois
  import P = Polynomial

  type elem = G.elem

  // ---- A register as a polynomial ----

  predicate Bit(x: bv32, i: nat)
    requires i < 5
  {
    match i
    case 0 => x & 1 != 0
    case 1 => x & 2 != 0
    case 2 => x & 4 != 0
    case 3 => x & 8 != 0
    case _ => x & 16 != 0
  }

  /** The low symbol as an element: the powers of an element of order 31, by bit. */
  function Embed(x: bv32): elem {
    G.Plus(G.Pick(Bit(x, 0), 1), G.Plus(G.Pick(Bit(x, 1), 0x14d), G.Plus(G.Pick(Bit(x, 2), 0x283),
      G.Plus(G.Pick(Bit(x, 3), 0x267), G.Pick(Bit(x, 4), 0x122)))))
  }

  /** `x` without its low symbol. */
  function Drop(x: bv32): bv32 {
    x >> 5
  }

  /** The value at `b` of the polynomial whose coefficients are the low `n` symbols. */
  function Value(b: elem, x: bv32, n: nat): elem {
    if n == 0 then 0 else G.Plus(Embed(x), G.Mul(b, Value(b, Drop(x), n - 1)))
  }

  function At(b: elem, x: bv32): elem {
    Value(b, x, 6)
  }

  lemma BitLinear(x: bv32, y: bv32, i: nat)
    requires i < 5
    ensures Bit(Xor(x, y), i) == (Bit(x, i) != Bit(y, i))
  {
  }

  lemma PickBit(x: bv32, y: bv32, i: nat, c: elem)
    requires i < 5
    ensures G.Pick(Bit(Xor(x, y), i), c) == G.Plus(G.Pick(Bit(x, i), c), G.Pick(Bit(y, i), c))
  {
    hide Bit, Xor, G.Plus, G.Pick;
    BitLinear(x, y, i);
    G.PickLinear(Bit(x, i), Bit(y, i), c, c);
  }

  lemma EmbedLinear(x: bv32, y: bv32)
    ensures Embed(Xor(x, y)) == G.Plus(Embed(x), Embed(y))
  {
    hide Bit, Xor, G.Plus, G.Pick;
    PickBit(x, y, 0, 1);
    PickBit(x, y, 1, 0x14d);
    PickBit(x, y, 2, 0x283);
    PickBit(x, y, 3, 0x267);
    PickBit(x, y, 4, 0x122);
    var p, q := G.Pick(Bit(x, 4), 0x122), G.Pick(Bit(y, 4), 0x122);
    G.PlusSwap(G.Pick(Bit(x, 3), 0x267), G.Pick(Bit(y, 3), 0x267), p, q);
    p, q := G.Plus(G.Pick(Bit(x, 3), 0x267), p), G.Plus(G.Pick(Bit(y, 3), 0x267), q);
    G.PlusSwap(G.Pick(Bit(x, 2), 0x283), G.Pick(Bit(y, 2), 0x283), p, q);
    p, q := G.Plus(G.Pick(Bit(x, 2), 0x283), p), G.Plus(G.Pick(Bit(y, 2), 0x283), q);
    G.PlusSwap(G.Pick(Bit(x, 1), 0x14d), G.Pick(Bit(y, 1), 0x14d), p, q);
    p, q := G.Plus(G.Pick(Bit(x, 1), 0x14d), p), G.Plus(G.Pick(Bit(y, 1), 0x14d), q);
    G.PlusSwap(G.Pick(Bit(x, 0), 1), G.Pick(Bit(y, 0), 1), p, q);
  }

  lemma DropLinear(x: bv32, y: bv32)
    ensures Drop(Xor(x, y)) == Xor(Drop(x), Drop(y))
  {
    assert (x ^ y) >> 5 == (x >> 5) ^ (y >> 5);
  }

  lemma {:induction false} ValueLinear(b: elem, x: bv32, y: bv32, n: nat)
    ensures Value(b, Xor(x, y), n) == G.Plus(Value(b, x, n), Value(b, y, n))
    decreases n
  {
    hide Embed, Drop, Xor, G.Plus, G.Mul;
    if n == 0 {
      G.PlusLaws(0, 0, 0);
    } else {
      var p, q := Value(b, Drop(x), n - 1), Value(b, Drop(y), n - 1);
      DropLinear(x, y);
      ValueLinear(b, Drop(x), Drop(y), n - 1);
      EmbedLinear(x, y);
      G.Distributes(b, p, q);
      G.PlusSwap(Embed(x), Embed(y), G.Mul(b, p), G.Mul(b, q));
    }
  }

  lemma EmbedZero()
    ensures Embed(0) == 0 && Drop(0) == 0
  {
  }

  /** Different symbols are different elements. */
  lemma EmbedNonzero(x: bv32)
    requires Fits(x, 1) && Embed(x) == 0
    ensures x == 0
  {
  }

  lemma DropFits(x: bv32, n: nat)
    requires 0 < n <= 6 && Fits(x, n)
    ensures Fits(Drop(x), n - 1)
  {
  }

  /** Symbols that are zero change nothing. */
  lemma {:induction false} ValueOfShort(b: elem, x: bv32, n: nat)
    requires n <= 6 && Fits(x, n)
    ensures Value(b, x, n + 1) == Value(b, x, n)
    decreases n
  {
    hide Embed, Drop, Fits, G.Plus, G.Mul;
    if n == 0 {
      FitsZero(x);
      EmbedZero();
      G.One(b);
      G.PlusLaws(0, 0, 0);
      assert Value(b, x, 1) == G.Plus(Embed(x), G.Mul(b, Value(b, Drop(x), 0)));
    } else {
      DropFits(x, n);
      ValueOfShort(b, Drop(x), n - 1);
    }
  }

  lemma {:induction false} ValueZero(b: elem, n: nat)
    ensures Value(b, 0, n) == 0
  {
    hide Embed, Drop, G.Mul, G.Plus;
    if n > 0 {
      EmbedZero();
      ValueZero(b, n - 1);
      G.One(b);
      G.PlusLaws(0, 0, 0);
    }
  }

  lemma FitsMore(x: bv32)
    requires Fits(x, 1)
    ensures Fits(x, 2) && Fits(x, 3) && Fits(x, 4) && Fits(x, 5)
  {
  }

  lemma ValueOfSymbol(b: elem, e: bv32)
    requires Fits(e, 1)
    ensures At(b, e) == Embed(e)
  {
    hide Fits, Embed, Drop, G.Mul, G.Plus, Value;
    FitsMore(e);
    ValueOfShort(b, e, 5);
    ValueOfShort(b, e, 4);
    ValueOfShort(b, e, 3);
    ValueOfShort(b, e, 2);
    ValueOfShort(b, e, 1);
    ValueOfOne(b, e);
  }

  lemma ValueOfOne(b: elem, e: bv32)
    ensures Value(b, e, 1) == Embed(e)
  {
    hide Embed, Drop, G.Mul, G.Plus;
    G.One(b);
    G.PlusLaws(Embed(e), 0, 0);
    assert Value(b, Drop(e), 0) == 0;
  }

  // ---- One step, at three roots of the modulus ----

  /** The 997th, 998th and 999th powers of the generator. */
  function Root(k: nat): elem
    requires k < 3
  {
    match k
    case 0 => 13
    case 1 => 26
    case _ => 52
  }

  function Times13(x: elem): elem {
    G.Plus(x, G.Double(G.Double(G.Plus(x, G.Double(x)))))
  }

  /** Multiplication by a root, written out. */
  function TimesRoot(k: nat, x: elem): elem
    requires k < 3
  {
    match k
    case 0 => Times13(x)
    case 1 => G.Double(Times13(x))
    case _ => G.Double(G.Double(Times13(x)))
  }

  lemma RootConstants()
    ensures G.Double(13) == 26 && G.Double(26) == 52 && G.Double(1) == 2
    ensures G.Plus(1, G.Double(G.Double(3))) == 13 && G.Plus(1, 2) == 3
  {
  }

  lemma TimesRootIs(k: nat, x: elem)
    requires k < 3
    ensures G.Mul(Root(k), x) == TimesRoot(k, x)
  {
    hide G.Plus, G.Double, G.Mul;
    RootConstants();
    G.One(x);
    G.DoubleLeft(1, x);
    G.Distributes(1, 2, x);
    G.DoubleLeft(3, x);
    G.DoubleLeft(G.Double(3), x);
    G.Distributes(1, G.Double(G.Double(3)), x);
    G.DoubleLeft(13, x);
    G.DoubleLeft(26, x);
  }

  /** The value at a root, written out. */
  function AtRoot(k: nat, x: bv32, n: nat): elem
    requires k < 3
  {
    if n == 0 then 0 else G.Plus(Embed(x), TimesRoot(k, AtRoot(k, Drop(x), n - 1)))
  }

  lemma {:induction false} AtRootIs(k: nat, x: bv32, n: nat)
    requires k < 3
    ensures AtRoot(k, x, n) == Value(Root(k), x, n)
    decreases n
  {
    hide Embed, Drop, G.Plus, G.Mul, TimesRoot, Root;
    if n > 0 {
      AtRootIs(k, Drop(x), n - 1);
      TimesRootIs(k, Value(Root(k), Drop(x), n - 1));
    }
  }

  ghost predicate StepMultiplies(k: nat, x: bv32)
    requires k < 3
  {
    At(Root(k), Step(x)) == G.Mul(Root(k), At(Root(k), x))
  }

  lemma TopSteps()
    ensures Step(0x200_0000) == 0x3b6a57b2
  {
  }

  lemma ModulusAt0()
    ensures AtRoot(0, 0x3b6a57b2, 6) == 0x5f
  {
    assert AtRoot(0, 0x1d, 1) == 0x1c7;
    assert AtRoot(0, 0x3b6, 2) == 0x60;
    assert AtRoot(0, 0x76d4, 3) == 0x141;
    assert AtRoot(0, 0xeda95, 4) == 0x1a7;
    assert AtRoot(0, 0x1db52bd, 5) == 0x1ab;
  }

  lemma ModulusAt1()
    ensures AtRoot(1, 0x3b6a57b2, 6) == 0x31e
  {
    assert AtRoot(1, 0x1d, 1) == 0x1c7;
    assert AtRoot(1, 0x3b6, 2) == 0x1d1;
    assert AtRoot(1, 0x76d4, 3) == 0x160;
    assert AtRoot(1, 0xeda95, 4) == 0x2d1;
    assert AtRoot(1, 0x1db52bd, 5) == 0x29f;
  }

  lemma ModulusAt2()
    ensures AtRoot(2, 0x3b6a57b2, 6) == 0x320
  {
    assert AtRoot(2, 0x1d, 1) == 0x1c7;
    assert AtRoot(2, 0x3b6, 2) == 0x2b3;
    assert AtRoot(2, 0x76d4, 3) == 0x2b3;
    assert AtRoot(2, 0xeda95, 4) == 0x2b2;
    assert AtRoot(2, 0x1db52bd, 5) == 0xe1;
  }

  lemma TopAt0()
    ensures AtRoot(0, 0x2000000, 6) == 0x139
  {
    assert AtRoot(0, 0x1, 1) == 0x1;
    assert AtRoot(0, 0x20, 2) == 0xd;
    assert AtRoot(0, 0x400, 3) == 0x51;
    assert AtRoot(0, 0x8000, 4) == 0x39d;
    assert AtRoot(0, 0x100000, 5) == 0x3fa;
  }

  lemma TopAt1()
    ensures AtRoot(1, 0x2000000, 6) == 0x2d6
  {
    assert AtRoot(1, 0x1, 1) == 0x1;
    assert AtRoot(1, 0x20, 2) == 0x1a;
    assert AtRoot(1, 0x400, 3) == 0x144;
    assert AtRoot(1, 0x8000, 4) == 0x259;
    assert AtRoot(1, 0x100000, 5) == 0x2c2;
  }

  lemma TopAt2()
    ensures AtRoot(2, 0x2000000, 6) == 0x3d7
  {
    assert AtRoot(2, 0x1, 1) == 0x1;
    assert AtRoot(2, 0x20, 2) == 0x34;
    assert AtRoot(2, 0x400, 3) == 0x335;
    assert AtRoot(2, 0x8000, 4) == 0x33;
    assert AtRoot(2, 0x100000, 5) == 0x3b9;
  }

  lemma RootEquation(k: nat)
    requires k < 3
    ensures AtRoot(k, 0x3b6a57b2, 6) == TimesRoot(k, AtRoot(k, 0x200_0000, 6))
  {
    hide AtRoot;
    match k
    case 0 =>
      ModulusAt0();
      TopAt0();
    case 1 =>
      ModulusAt1();
      TopAt1();
    case _ =>
      ModulusAt2();
      TopAt2();
  }

  /** The three points are roots of the modulus. */
  lemma TopMultiplies(k: nat)
    requires k < 3
    ensures StepMultiplies(k, 0x200_0000)
  {
    hide Step, AtRoot, TimesRoot, G.Mul, Value, Root;
    TopSteps();
    RootEquation(k);
    AtRootIs(k, 0x200_0000, 6);
    AtRootIs(k, 0x3b6a57b2, 6);
    TimesRootIs(k, AtRoot(k, 0x200_0000, 6));
  }

  // ---- Scaling a register scales its value ----

  /** Multiplication by the embedded generator of GF(32), written out. */
  function TimesTheta(x: elem): elem {
    var y := G.Plus(x, G.Double(G.Double(x)));
    var z := G.Plus(x, G.Double(G.Double(G.Double(y))));
    var w := G.Plus(x, G.Double(z));
    G.Plus(x, G.Double(G.Double(w)))
  }

  lemma ThetaConstants()
    ensures G.Double(1) == 2 && G.Double(2) == 4 && G.Plus(1, 4) == 5
    ensures G.Double(5) == 10 && G.Double(10) == 20 && G.Double(20) == 40 && G.Plus(1, 40) == 41
    ensures G.Double(41) == 82 && G.Plus(1, 82) == 83
    ensures G.Double(83) == 166 && G.Double(166) == 332 && G.Plus(1, 332) == 0x14d
  {
  }

  lemma TimesThetaIs(x: elem)
    ensures G.Mul(0x14d, x) == TimesTheta(x)
  {
    hide G.Plus, G.Double, G.Mul;
    ThetaConstants();
    G.One(x);
    G.DoubleLeft(1, x);
    G.DoubleLeft(2, x);
    G.Distributes(1, 4, x);
    G.DoubleLeft(5, x);
    G.DoubleLeft(10, x);
    G.DoubleLeft(20, x);
    G.Distributes(1, 40, x);
    G.DoubleLeft(41, x);
    G.Distributes(1, 82, x);
    G.DoubleLeft(83, x);
    G.DoubleLeft(166, x);
    G.Distributes(1, 332, x);
  }

  lemma ThetaPowers()
    ensures TimesTheta(1) == 0x14d && TimesTheta(0x14d) == 0x283 && TimesTheta(0x283) == 0x267
    ensures TimesTheta(0x267) == 0x122 && TimesTheta(0x122) == 0x266 && TimesTheta(0) == 0
  {
  }

  lemma ThetaLinear(x: elem, y: elem)
    ensures TimesTheta(G.Plus(x, y)) == G.Plus(TimesTheta(x), TimesTheta(y))
  {
    hide G.Plus, G.Mul, TimesTheta;
    TimesThetaIs(x);
    TimesThetaIs(y);
    TimesThetaIs(G.Plus(x, y));
    G.Distributes(0x14d, x, y);
  }

  lemma ThetaPick(b: bool, x: elem)
    ensures TimesTheta(G.Pick(b, x)) == G.Pick(b, TimesTheta(x))
  {
    hide TimesTheta;
    ThetaPowers();
  }

  lemma ScaleBits(x: bv32)
    ensures Bit(Scale(x), 0) == Bit(x, 4) && Bit(Scale(x), 1) == Bit(x, 0) && Bit(Scale(x), 2) == Bit(x, 1)
    ensures Bit(Scale(x), 3) == (Bit(x, 2) != Bit(x, 4)) && Bit(Scale(x), 4) == Bit(x, 3)
  {
  }

  lemma EmbedScale(x: bv32)
    ensures Embed(Scale(x)) == G.Mul(0x14d, Embed(x))
  {
    hide Bit, Scale, G.Plus, G.Pick, G.Mul, TimesTheta;
    var a, b, c, d, e := Bit(x, 0), Bit(x, 1), Bit(x, 2), Bit(x, 3), Bit(x, 4);
    var p, q, r, s, t := G.Pick(a, 1), G.Pick(b, 0x14d), G.Pick(c, 0x283), G.Pick(d, 0x267), G.Pick(e, 0x122);
    TimesThetaIs(Embed(x));
    ThetaLinear(p, G.Plus(q, G.Plus(r, G.Plus(s, t))));
    ThetaLinear(q, G.Plus(r, G.Plus(s, t)));
    ThetaLinear(r, G.Plus(s, t));
    ThetaLinear(s, t);
    ThetaPick(a, 1);
    ThetaPick(b, 0x14d);
    ThetaPick(c, 0x283);
    ThetaPick(d, 0x267);
    ThetaPick(e, 0x122);
    ThetaPowers();
    ScaleBits(x);
    Rearranged(a, b, c, d, e);
  }

  lemma Rearranged(a: bool, b: bool, c: bool, d: bool, e: bool)
    ensures G.Plus(G.Pick(e, 1), G.Plus(G.Pick(a, 0x14d), G.Plus(G.Pick(b, 0x283),
              G.Plus(G.Pick(c != e, 0x267), G.Pick(d, 0x122)))))
            == G.Plus(G.Pick(a, 0x14d), G.Plus(G.Pick(b, 0x283), G.Plus(G.Pick(c, 0x267),
              G.Plus(G.Pick(d, 0x122), G.Pick(e, 0x266)))))
  {
  }

  lemma DropScaleRaw(x: bv32)
    requires Reduced(x)
    ensures Doubled(x) >> 5 == Doubled(x >> 5)
    ensures Carries(x) >> 5 == Carries(x >> 5)
    ensures Cubes(x) >> 5 == Cubes(x >> 5)
  {
  }

  lemma DropIs(x: bv32)
    ensures Drop(x) == x >> 5
  {
  }

  lemma DropParts(x: bv32)
    requires Reduced(x)
    ensures Drop(Doubled(x)) == Doubled(Drop(x))
    ensures Drop(Carries(x)) == Carries(Drop(x))
    ensures Drop(Cubes(x)) == Cubes(Drop(x))
  {
    hide Doubled, Carries, Cubes, Drop, Reduced;
    DropScaleRaw(x);
    DropIs(x);
    DropIs(Doubled(x));
    DropIs(Carries(x));
    DropIs(Cubes(x));
  }

  lemma DropScale(x: bv32)
    requires Reduced(x)
    ensures Drop(Scale(x)) == Scale(Drop(x))
  {
    hide Doubled, Carries, Cubes, Drop, Xor, Reduced;
    DropParts(x);
    DropLinear(Carries(x), Cubes(x));
    DropLinear(Doubled(x), Xor(Carries(x), Cubes(x)));
  }

  lemma DropReduced(x: bv32)
    requires Reduced(x)
    ensures Reduced(Drop(x))
  {
  }

  lemma {:induction false} ValueScale(b: elem, x: bv32, n: nat)
    requires Reduced(x)
    ensures Value(b, Scale(x), n) == G.Mul(0x14d, Value(b, x, n))
    decreases n
  {
    hide Scale, Drop, Reduced, Embed, G.Mul, G.Plus;
    if n == 0 {
      G.One(0x14d);
    } else {
      var v := Value(b, Drop(x), n - 1);
      DropReduced(x);
      DropScale(x);
      ValueScale(b, Drop(x), n - 1);
      EmbedScale(x);
      G.MulSwap(b, 0x14d, v);
      G.Distributes(0x14d, Embed(x), G.Mul(b, v));
    }
  }

  // ---- One step, everywhere ----

  lemma ScaleMultiplies(k: nat, x: bv32)
    requires k < 3 && Reduced(x) && StepMultiplies(k, x)
    ensures StepMultiplies(k, Scale(x))
  {
    hide Step, Scale, Reduced, Value, Root, G.Mul;
    var b := Root(k);
    StepScales(x);
    StepReduced(x);
    ValueScale(b, Step(x), 6);
    ValueScale(b, x, 6);
    G.MulSwap(b, 0x14d, At(b, x));
  }

  lemma SumMultiplies(k: nat, x: bv32, y: bv32)
    requires k < 3 && StepMultiplies(k, x) && StepMultiplies(k, y)
    ensures StepMultiplies(k, Xor(x, y))
  {
    hide Step, Xor, Value, Root, G.Mul, G.Plus;
    var b := Root(k);
    StepLinear(x, y);
    ValueLinear(b, Step(x), Step(y), 6);
    ValueLinear(b, x, y, 6);
    G.Distributes(b, At(b, x), At(b, y));
  }

  lemma UpDrop(x: bv32)
    requires Fits(x, 5)
    ensures Drop(Up(x)) == x && Embed(Up(x)) == 0
  {
  }

  /** With room left a step moves every coefficient up by one. */
  lemma LowMultiplies(k: nat, x: bv32)
    requires k < 3 && Fits(x, 5)
    ensures StepMultiplies(k, x)
  {
    hide Step, Up, Fits, Drop, Embed, Root, G.Mul, G.Plus;
    var b := Root(k);
    LowIsUp(x);
    UpDrop(x);
    ValueOfShort(b, x, 5);
    G.PlusLaws(G.Mul(b, Value(b, x, 5)), 0, 0);
    assert At(b, Up(x)) == G.Plus(Embed(Up(x)), G.Mul(b, Value(b, Drop(Up(x)), 5)));
  }

  lemma LowIsUp(x: bv32)
    requires Fits(x, 5)
    ensures Step(x) == Up(x)
  {
    hide Step, Fits;
    SmallStep(x, 5);
  }

  lemma TopBitsScale()
    ensures Scale(0x200_0000) == 0x400_0000 && Scale(0x400_0000) == 0x800_0000
    ensures Scale(0x800_0000) == 0x1000_0000 && Scale(0x1000_0000) == 0x2000_0000
    ensures Reduced(0x200_0000) && Reduced(0x400_0000) && Reduced(0x800_0000) && Reduced(0x1000_0000)
    ensures Fits(0, 5)
  {
  }

  lemma TopBitMultiplies(k: nat, x: bv32, i: nat)
    requires k < 3 && i < 5
    ensures StepMultiplies(k, TopBit(x, i))
  {
    hide StepMultiplies, TopBit, Scale, Reduced, Fits;
    TopBitIs(x, i);
    TopBitsScale();
    LowMultiplies(k, 0);
    TopMultiplies(k);
    ScaleMultiplies(k, 0x200_0000);
    ScaleMultiplies(k, 0x400_0000);
    ScaleMultiplies(k, 0x800_0000);
    ScaleMultiplies(k, 0x1000_0000);
  }

  /** At each of the three points a step multiplies the register's value by the point. */
  lemma StepAtRoot(k: nat, x: bv32)
    requires k < 3 && Reduced(x)
    ensures At(Root(k), Step(x)) == G.Mul(Root(k), At(Root(k), x))
  {
    hide Step, At, Root, G.Mul, Xor, Fits, Reduced, LowFive, TopBit;
    Cut(x);
    var y := LowFive(x);
    LowFiveFits(x);
    LowMultiplies(k, y);
    TopBitMultiplies(k, x, 0);
    SumMultiplies(k, y, TopBit(x, 0));
    y := Xor(y, TopBit(x, 0));
    TopBitMultiplies(k, x, 1);
    SumMultiplies(k, y, TopBit(x, 1));
    y := Xor(y, TopBit(x, 1));
    TopBitMultiplies(k, x, 2);
    SumMultiplies(k, y, TopBit(x, 2));
    y := Xor(y, TopBit(x, 2));
    TopBitMultiplies(k, x, 3);
    SumMultiplies(k, y, TopBit(x, 3));
    y := Xor(y, TopBit(x, 3));
    TopBitMultiplies(k, x, 4);
    SumMultiplies(k, y, TopBit(x, 4));
  }

  // ---- A register that vanishes at all three points ----

  function Coefficients(x: bv32, n: nat): (p: seq<elem>)
    ensures |p| == n
  {
    if n == 0 then [] else [Embed(x)] + Coefficients(Drop(x), n - 1)
  }

  lemma {:induction false} CoefficientsValue(b: elem, x: bv32, n: nat)
    ensures P.Eval(Coefficients(x, n), b) == Value(b, x, n)
    decreases n
  {
    hide Embed, Drop, G.Plus, G.Mul;
    if n > 0 {
      CoefficientsValue(b, Drop(x), n - 1);
      assert Coefficients(x, n)[1..] == Coefficients(Drop(x), n - 1);
    }
  }

  lemma OneSymbolLeft(x: bv32)
    requires Drop(x) == 0
    ensures Fits(x, 1)
  {
  }

  lemma {:induction false} CoefficientsZero(x: bv32, n: nat)
    requires n <= 6 && Fits(x, n) && P.AllZero(Coefficients(x, n))
    ensures x == 0
    decreases n
  {
    hide Embed, Drop, Fits;
    if n == 0 {
      FitsZero(x);
    } else {
      var p := Coefficients(x, n);
      assert p[0] == Embed(x) && p[1..] == Coefficients(Drop(x), n - 1);
      DropFits(x, n);
      CoefficientsZero(Drop(x), n - 1);
      OneSymbolLeft(x);
      EmbedNonzero(x);
    }
  }

  lemma SymbolsFixed()
    ensures G.Conjugate(1) == 1 && G.Conjugate(0x14d) == 0x14d && G.Conjugate(0x283) == 0x283
    ensures G.Conjugate(0x267) == 0x267 && G.Conjugate(0x122) == 0x122 && G.Conjugate(0) == 0
  {
  }

  lemma ConjugatePick(b: bool, c: elem)
    requires G.Conjugate(c) == c && G.Conjugate(0) == 0
    ensures G.Conjugate(G.Pick(b, c)) == G.Pick(b, c)
  {
    hide G.Conjugate;
  }

  /** Conjugation leaves the symbols alone. */
  lemma EmbedFixed(x: bv32)
    ensures G.Conjugate(Embed(x)) == Embed(x)
  {
    hide Bit, G.Plus, G.Pick, G.Conjugate;
    SymbolsFixed();
    var p, q, r := G.Pick(Bit(x, 0), 1), G.Pick(Bit(x, 1), 0x14d), G.Pick(Bit(x, 2), 0x283);
    var s, t := G.Pick(Bit(x, 3), 0x267), G.Pick(Bit(x, 4), 0x122);
    ConjugatePick(Bit(x, 0), 1);
    ConjugatePick(Bit(x, 1), 0x14d);
    ConjugatePick(Bit(x, 2), 0x283);
    ConjugatePick(Bit(x, 3), 0x267);
    ConjugatePick(Bit(x, 4), 0x122);
    G.ConjugateSum(s, t);
    G.ConjugateSum(r, G.Plus(s, t));
    G.ConjugateSum(q, G.Plus(r, G.Plus(s, t)));
    G.ConjugateSum(p, G.Plus(q, G.Plus(r, G.Plus(s, t))));
  }

  lemma {:induction false} ValueAtConjugate(b: elem, x: bv32, n: nat)
    ensures Value(G.Conjugate(b), x, n) == G.Conjugate(Value(b, x, n))
    decreases n
  {
    hide Embed, Drop, G.Plus, G.Mul, G.Conjugate;
    SymbolsFixed();
    if n > 0 {
      var v := Value(b, Drop(x), n - 1);
      ValueAtConjugate(b, Drop(x), n - 1);
      EmbedFixed(x);
      G.ConjugateProduct(b, v);
      G.ConjugateSum(Embed(x), G.Mul(b, v));
    }
  }

  lemma TwoRootsEach(k: nat, x: bv32)
    requires k < 3 && At(Root(k), x) == 0
    ensures P.Eval(Coefficients(x, 6), Root(k)) == 0 && P.Eval(Coefficients(x, 6), G.Conjugate(Root(k))) == 0
  {
    hide Value, Root, G.Conjugate, P.Eval, Coefficients;
    SymbolsFixed();
    CoefficientsValue(Root(k), x, 6);
    CoefficientsValue(G.Conjugate(Root(k)), x, 6);
    ValueAtConjugate(Root(k), x, 6);
  }

  lemma SixRoots()
    ensures G.Conjugate(13) == 0x86 && G.Conjugate(26) == 0x213 && G.Conjugate(52) == 0x371
  {
  }

  /** A register that is zero at the three points is zero: with their conjugates they are six roots. */
  lemma Vanishes(x: bv32)
    requires Reduced(x) && At(Root(0), x) == 0 && At(Root(1), x) == 0 && At(Root(2), x) == 0
    ensures x == 0
  {
    hide Value, Fits, Reduced, Coefficients, G.Conjugate, P.Eval;
    var p := Coefficients(x, 6);
    var rs: seq<elem> := [13, 26, 52, 0x86, 0x213, 0x371];
    SixRoots();
    SixFits(x);
    TwoRootsEach(0, x);
    TwoRootsEach(1, x);
    TwoRootsEach(2, x);
    P.TooManyRoots(p, rs);
    CoefficientsZero(x, 6);
  }

  lemma SixFits(x: bv32)
    requires Reduced(x)
    ensures Fits(x, 6)
  {
  }
}
