/**
 The BCH checksum of bech32: the register over a whole string of symbols, and six symbols packed
 into its thirty bits.
 */
module Polymod {
  import opened Bytes
  import opened Register

  /** One turn of every checksum loop: `chk = step(chk) ^ v`. */
  function Absorb(chk: bv32, v: byte): bv32 {
    Xor(Step(chk), v as bv32)
  }

  /** The register after absorbing `vs` from left to right. */
  function Fold(chk: bv32, vs: seq<byte>): bv32 {
    if vs == [] then chk else Absorb(Fold(chk, vs[..|vs| - 1]), vs[|vs| - 1])
  }

  /** A symbol carries five bits. */
  predicate Symbols(vs: seq<byte>) {
    forall i :: 0 <= i < |vs| ==> vs[i] < 32
  }

  lemma ByteReduced(v: byte)
    ensures Reduced(v as bv32)
  {
  }

  lemma AbsorbReduced(chk: bv32, v: byte)
    ensures Reduced(Absorb(chk, v))
  {
    hide Step, Xor, Reduced;
    StepReduced(chk);
    ByteReduced(v);
    XorReduced(Step(chk), v as bv32);
  }

  lemma AbsorbInjective(x: bv32, y: bv32, v: byte)
    requires Reduced(x) && Reduced(y) && Absorb(x, v) == Absorb(y, v)
    ensures x == y
  {
    hide Step, Xor, Reduced;
    XorCancel(Step(x), Step(y), v as bv32);
    StepInjective(x, y);
  }

  // ---- Whole strings ----

  lemma FoldSnoc(chk: bv32, vs: seq<byte>, v: byte)
    ensures Fold(chk, vs + [v]) == Absorb(Fold(chk, vs), v)
  {
    hide Absorb;
    assert (vs + [v])[..|vs|] == vs;
  }

  lemma {:induction false} FoldAppend(chk: bv32, xs: seq<byte>, ys: seq<byte>)
    ensures Fold(chk, xs + ys) == Fold(Fold(chk, xs), ys)
  {
    hide Absorb;
    if ys == [] {
      assert xs + ys == xs;
    } else {
      FoldAppend(chk, xs, ys[..|ys| - 1]);
      assert (xs + ys)[..|xs + ys| - 1] == xs + ys[..|ys| - 1];
    }
  }

  lemma FoldReduced(chk: bv32, vs: seq<byte>)
    requires Reduced(chk)
    ensures Reduced(Fold(chk, vs))
  {
    hide Absorb, Reduced;
    if vs != [] {
      AbsorbReduced(Fold(chk, vs[..|vs| - 1]), vs[|vs| - 1]);
    }
  }

  /** Two registers that end equal after the same symbols were equal to begin with. */
  lemma {:induction false} FoldInjective(x: bv32, y: bv32, vs: seq<byte>)
    requires Reduced(x) && Reduced(y) && Fold(x, vs) == Fold(y, vs)
    ensures x == y
  {
    hide Absorb, Reduced;
    if vs != [] {
      var v, ws := vs[|vs| - 1], vs[..|vs| - 1];
      FoldReduced(x, ws);
      FoldReduced(y, ws);
      AbsorbInjective(Fold(x, ws), Fold(y, ws), v);
      FoldInjective(x, y, ws);
    }
  }

  // ---- Six symbols in thirty bits ----

  /** A number with room for one more symbol, and the symbol put there. */
  function Push(p: bv32, v: byte): bv32 {
    (p << 5) | (v as bv32)
  }

  /** Symbols side by side in one number, the first at the top. */
  function Pack(w: seq<byte>): bv32 {
    if w == [] then 0 else Push(Pack(w[..|w| - 1]), w[|w| - 1])
  }

  /** The last symbol of a number, and the number without it. */
  function Top(chk: bv32): byte {
    (chk & 0x1f) as byte
  }

  function Pop(chk: bv32): bv32 {
    chk >> 5
  }

  /** The low `n` symbols of a number. */
  function Unpack(chk: bv32, n: nat): (w: seq<byte>)
    ensures |w| == n
  {
    if n == 0 then [] else Unpack(Pop(chk), n - 1) + [Top(chk)]
  }

  /** Symbol `i` of six: the five bits from bit `5 * (5 - i)` up. */
  function SymbolAt(chk: bv32, i: nat): byte
    requires i < 6
  {
    match i
    case 0 => ((chk >> 25) & 0x1f) as byte
    case 1 => ((chk >> 20) & 0x1f) as byte
    case 2 => ((chk >> 15) & 0x1f) as byte
    case 3 => ((chk >> 10) & 0x1f) as byte
    case 4 => ((chk >> 5) & 0x1f) as byte
    case _ => (chk & 0x1f) as byte
  }

  lemma SymbolAtIs(chk: bv32)
    ensures SymbolAt(chk, 5) == Top(chk)
    ensures SymbolAt(chk, 4) == Top(Pop(chk))
    ensures SymbolAt(chk, 3) == Top(Pop(Pop(chk)))
    ensures SymbolAt(chk, 2) == Top(Pop(Pop(Pop(chk))))
    ensures SymbolAt(chk, 1) == Top(Pop(Pop(Pop(Pop(chk)))))
    ensures SymbolAt(chk, 0) == Top(Pop(Pop(Pop(Pop(Pop(chk))))))
  {
    assert chk >> 5 >> 5 == chk >> 10;
    assert chk >> 5 >> 5 >> 5 == chk >> 15;
    assert chk >> 5 >> 5 >> 5 >> 5 == chk >> 20;
    assert chk >> 5 >> 5 >> 5 >> 5 >> 5 == chk >> 25;
  }

  lemma SymbolByShift(chk: bv32, i: nat)
    requires i < 6
    ensures SymbolAt(chk, i) == Unpack(chk, 6)[i]
  {
    hide Top, Pop, SymbolAt;
    SymbolAtIs(chk);
    var c1 := Pop(chk);
    var c2 := Pop(c1);
    var c3 := Pop(c2);
    var c4 := Pop(c3);
    var c5 := Pop(c4);
    assert Unpack(chk, 6) == Unpack(c1, 5) + [Top(chk)];
    assert Unpack(c1, 5) == Unpack(c2, 4) + [Top(c1)];
    assert Unpack(c2, 4) == Unpack(c3, 3) + [Top(c2)];
    assert Unpack(c3, 3) == Unpack(c4, 2) + [Top(c3)];
    assert Unpack(c4, 2) == Unpack(c5, 1) + [Top(c4)];
    assert Unpack(c5, 1) == Unpack(Pop(c5), 0) + [Top(c5)];
  }

  lemma PushFits(p: bv32, v: byte, n: nat)
    requires n < 6 && Fits(p, n) && v < 32
    ensures Fits(Push(p, v), n + 1)
  {
  }

  lemma PushInjective(p: bv32, v: byte, q: bv32, u: byte, n: nat)
    requires n < 6 && Fits(p, n) && Fits(q, n) && v < 32 && u < 32
    requires Push(p, v) == Push(q, u)
    ensures p == q && v == u
  {
  }

  lemma PushLowSymbol(x: bv32, n: nat)
    requires n < 6 && Fits(x, n + 1)
    ensures Push(Pop(x), Top(x)) == x && Fits(Pop(x), n)
  {
  }

  lemma UnpackSymbols(chk: bv32, n: nat)
    ensures Symbols(Unpack(chk, n))
  {
  }

  lemma {:induction false} PackFits(w: seq<byte>)
    requires |w| <= 6 && Symbols(w)
    ensures Fits(Pack(w), |w|)
  {
    hide Push, Fits;
    if w == [] {
      FitsZero(0);
    } else {
      var n := |w| - 1;
      PackFits(w[..n]);
      PushFits(Pack(w[..n]), w[n], n);
    }
  }

  lemma {:induction false} PackUnpack(chk: bv32, n: nat)
    requires n <= 6 && Fits(chk, n)
    ensures Pack(Unpack(chk, n)) == chk
    decreases n
  {
    hide Push, Fits, Top, Pop;
    if n == 0 {
      FitsZero(chk);
    } else {
      PushLowSymbol(chk, n - 1);
      PackUnpack(Pop(chk), n - 1);
      var w := Unpack(chk, n);
      assert w[..n - 1] == Unpack(Pop(chk), n - 1);
    }
  }

  lemma {:induction false} PackInjective(w: seq<byte>, u: seq<byte>)
    requires |w| == |u| <= 6 && Symbols(w) && Symbols(u) && Pack(w) == Pack(u)
    ensures w == u
  {
    hide Push, Fits;
    if w != [] {
      var n := |w| - 1;
      PackFits(w[..n]);
      PackFits(u[..n]);
      PushInjective(Pack(w[..n]), w[n], Pack(u[..n]), u[n], n);
      PackInjective(w[..n], u[..n]);
      assert w == w[..n] + [w[n]] && u == u[..n] + [u[n]];
    }
  }

  lemma PushIsXor(p: bv32, v: byte, n: nat)
    requires n < 6 && Fits(p, n) && v < 32
    ensures Xor(Step(p), v as bv32) == Push(p, v)
  {
    hide Step;
    SmallStep(p, n);
  }

  /** So the next symbol lands in free bits, beside whatever else the register holds. */
  lemma AbsorbPush(z: bv32, p: bv32, v: byte, n: nat)
    requires n < 6 && Fits(p, n) && v < 32
    ensures Absorb(Xor(z, p), v) == Xor(Absorb(z, 0), Push(p, v))
  {
    hide Step, Push, Fits, Xor;
    StepLinear(z, p);
    PushIsXor(p, v, n);
    XorAssociative(Step(z), Step(p), v as bv32);
    XorZero(Step(z));
  }

  /** Up to six symbols add exactly their packed value to what as many zeros would leave. */
  lemma {:induction false} FoldPack(chk: bv32, w: seq<byte>)
    requires |w| <= 6 && Symbols(w)
    ensures Fold(chk, w) == Xor(Fold(chk, Zeros(|w|)), Pack(w))
  {
    hide Absorb, Push, Fits, Xor;
    if w == [] {
      XorZero(chk);
    } else {
      var n := |w| - 1;
      FoldPack(chk, w[..n]);
      PackFits(w[..n]);
      AbsorbPush(Fold(chk, Zeros(n)), Pack(w[..n]), w[n], n);
      FoldSnoc(chk, Zeros(n), 0);
      assert Zeros(n) + [0] == Zeros(n + 1);
    }
  }
}
