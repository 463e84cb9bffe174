/**
 How many wrong symbols the bech32 checksum is sure to notice.

 The difference between the registers of two strings, seen at three consecutive powers of the field's
 generator, makes three equations between the wrong symbols. Up to three wrong symbols among at most
 1023 solve them only by being no errors at all; two wrong symbols go unnoticed exactly when they are
 equal errors a multiple of 1023 places apart.
 */
module Distance {
  import opened Bytes
  import opened Register
  import opened Polymod
  import opened Roots
  import G = Galois

  // ---- Two strings, symbol by symbol ----

  /** How far apart the registers are after `n` symbols of each. */
  function Apart(x: bv32, a: seq<byte>, b: seq<byte>, n: nat): bv32
    requires n <= |a| == |b|
  {
    Xor(Fold(x, a[..n]), Fold(x, b[..n]))
  }

  function Error(v: byte, w: byte): bv32 {
    Xor(v as bv32, w as bv32)
  }

  lemma ErrorFacts(v: byte, w: byte)
    requires v < 32 && w < 32
    ensures Fits(Error(v, w), 1) && (Error(v, w) == 0 <==> v == w)
  {
  }

  lemma ApartStep(x: bv32, a: seq<byte>, b: seq<byte>, n: nat)
    requires n < |a| == |b|
    ensures Apart(x, a, b, n + 1) == Xor(Step(Apart(x, a, b, n)), Error(a[n], b[n]))
  {
    hide Fold, Step, Xor;
    var p, q := Fold(x, a[..n]), Fold(x, b[..n]);
    FoldSnoc(x, a[..n], a[n]);
    FoldSnoc(x, b[..n], b[n]);
    assert a[..n + 1] == a[..n] + [a[n]] && b[..n + 1] == b[..n] + [b[n]];
    XorSwap(Step(p), a[n] as bv32, Step(q), b[n] as bv32);
    StepLinear(p, q);
  }

  lemma ApartReduced(x: bv32, a: seq<byte>, b: seq<byte>, n: nat)
    requires n <= |a| == |b| && Reduced(x)
    ensures Reduced(Apart(x, a, b, n))
  {
    hide Fold, Xor, Reduced;
    FoldReduced(x, a[..n]);
    FoldReduced(x, b[..n]);
    XorReduced(Fold(x, a[..n]), Fold(x, b[..n]));
  }

  /** The distance between two registers, seen at one of the three points. */
  function Seen(k: nat, x: bv32, a: seq<byte>, b: seq<byte>, n: nat): elem
    requires k < 3 && n <= |a| == |b|
  {
    At(Root(k), Apart(x, a, b, n))
  }

  lemma SeenStep(k: nat, x: bv32, a: seq<byte>, b: seq<byte>, n: nat)
    requires k < 3 && n < |a| == |b| && Reduced(x) && Symbols(a) && Symbols(b)
    ensures Seen(k, x, a, b, n + 1) == G.Plus(G.Mul(Root(k), Seen(k, x, a, b, n)), Embed(Error(a[n], b[n])))
  {
    hide Apart, Error, Step, Xor, Embed, Reduced, Fits, Value, Root, G.Mul, G.Plus;
    var d, e := Apart(x, a, b, n), Error(a[n], b[n]);
    ApartStep(x, a, b, n);
    ApartReduced(x, a, b, n);
    StepAtRoot(k, d);
    ErrorFacts(a[n], b[n]);
    ValueOfSymbol(Root(k), e);
    ValueLinear(Root(k), Step(d), e, 6);
  }

  /** Where the strings agree, only powers of the point accumulate. */
  lemma {:induction false} Coast(k: nat, x: bv32, a: seq<byte>, b: seq<byte>, m: nat, n: nat)
    requires k < 3 && m <= n <= |a| == |b| && Reduced(x) && Symbols(a) && Symbols(b)
    requires forall i :: m <= i < n ==> a[i] == b[i]
    ensures Seen(k, x, a, b, n) == G.Mul(G.Pow(Root(k), n - m), Seen(k, x, a, b, m))
    decreases n
  {
    hide Seen, Embed, Error, Reduced, Root, G.Mul, G.Plus;
    var r, s := Root(k), Seen(k, x, a, b, m);
    if m == n {
      G.One(s);
      assert G.Pow(r, 0) == 1;
    } else {
      Coast(k, x, a, b, m, n - 1);
      SeenStep(k, x, a, b, n - 1);
      ErrorFacts(a[n - 1], b[n - 1]);
      EmbedZero();
      G.Associates(r, G.Pow(r, n - 1 - m), s);
      G.PlusLaws(G.Mul(r, Seen(k, x, a, b, n - 1)), 0, 0);
    }
  }

  lemma SeenAtStart(k: nat, x: bv32, a: seq<byte>, b: seq<byte>, n: nat)
    requires k < 3 && n <= |a| == |b| && a[..n] == b[..n]
    ensures Seen(k, x, a, b, n) == 0
  {
    hide Fold, Root, Value, Xor;
    XorSelf(Fold(x, a[..n]), Fold(x, b[..n]));
    ValueZero(Root(k), 6);
  }

  predicate SameBetween(a: seq<byte>, b: seq<byte>, m: nat, n: nat)
    requires n <= |a| == |b|
  {
    forall i :: m <= i < n ==> a[i] == b[i]
  }

  lemma Prefix(a: seq<byte>, b: seq<byte>, n: nat)
    requires n <= |a| == |b| && SameBetween(a, b, 0, n)
    ensures a[..n] == b[..n]
  {
  }

  /** What one wrong symbol at `i` has become `n - i - 1` symbols later, and a next one at `n - 1`. */
  lemma NextError(k: nat, x: bv32, a: seq<byte>, b: seq<byte>, m: nat, n: nat)
    requires k < 3 && m <= n < |a| == |b| && Reduced(x) && Symbols(a) && Symbols(b) && SameBetween(a, b, m, n)
    ensures Seen(k, x, a, b, n + 1)
            == G.Plus(G.Mul(G.Pow(Root(k), n + 1 - m), Seen(k, x, a, b, m)), Embed(Error(a[n], b[n])))
  {
    hide Seen, Embed, Error, Reduced, Root, G.Mul, G.Plus;
    var r, s := Root(k), Seen(k, x, a, b, m);
    Coast(k, x, a, b, m, n);
    SeenStep(k, x, a, b, n);
    G.Associates(r, G.Pow(r, n - m), s);
  }

  lemma FirstError(k: nat, x: bv32, a: seq<byte>, b: seq<byte>, i: nat)
    requires k < 3 && i < |a| == |b| && Reduced(x) && Symbols(a) && Symbols(b) && SameBetween(a, b, 0, i)
    ensures Seen(k, x, a, b, i + 1) == Embed(Error(a[i], b[i]))
  {
    hide Seen, Embed, Error, Reduced, Root, G.Mul, G.Plus;
    Prefix(a, b, i);
    SeenAtStart(k, x, a, b, i);
    SeenStep(k, x, a, b, i);
    G.One(Root(k));
    G.PlusLaws(Embed(Error(a[i], b[i])), 0, 0);
  }

  /** Two wrong symbols, seen at one of the points right behind the second. */
  lemma TwoSeen(k: nat, x: bv32, a: seq<byte>, b: seq<byte>, i: nat, j: nat)
    requires k < 3 && i < j < |a| == |b| && Reduced(x) && Symbols(a) && Symbols(b)
    requires SameBetween(a, b, 0, i) && SameBetween(a, b, i + 1, j)
    ensures Seen(k, x, a, b, j + 1)
            == G.Plus(G.Mul(G.Pow(Root(k), j - i), Embed(Error(a[i], b[i]))), Embed(Error(a[j], b[j])))
  {
    hide Seen, Embed, Error, Reduced, Root, G.Mul, G.Plus, G.Pow;
    FirstError(k, x, a, b, i);
    NextError(k, x, a, b, i + 1, j);
  }

  lemma Carried(r: elem, m: nat, n: nat, u: elem, v: elem)
    ensures G.Mul(G.Pow(r, m), G.Plus(G.Mul(G.Pow(r, n), u), v))
            == G.Plus(G.Mul(G.Pow(r, m + n), u), G.Mul(G.Pow(r, m), v))
  {
    hide G.Mul, G.Plus, G.Pow;
    G.Distributes(G.Pow(r, m), G.Mul(G.Pow(r, n), u), v);
    G.Associates(G.Pow(r, m), G.Pow(r, n), u);
    G.PowAdd(r, m, n);
  }

  /** Three wrong symbols, seen right behind the third. */
  lemma ThreeSeen(k: nat, x: bv32, a: seq<byte>, b: seq<byte>, i: nat, j: nat, l: nat)
    requires k < 3 && i < j < l < |a| == |b| && Reduced(x) && Symbols(a) && Symbols(b)
    requires SameBetween(a, b, 0, i) && SameBetween(a, b, i + 1, j) && SameBetween(a, b, j + 1, l)
    ensures Seen(k, x, a, b, l + 1)
            == G.Plus(G.Plus(G.Mul(G.Pow(Root(k), l - i), Embed(Error(a[i], b[i]))),
                             G.Mul(G.Pow(Root(k), l - j), Embed(Error(a[j], b[j])))),
                      Embed(Error(a[l], b[l])))
  {
    hide Seen, Embed, Error, Reduced, Root, SameBetween, G.Mul, G.Plus, G.Pow;
    var u, v := Embed(Error(a[i], b[i])), Embed(Error(a[j], b[j]));
    TwoSeen(k, x, a, b, i, j);
    NextError(k, x, a, b, j + 1, l);
    Carried(Root(k), l - j, j - i, u, v);
  }

  // ---- Up to three errors ----

  /** An error seen at the next point has turned once more by the power that its distance gives. */
  lemma Turned(g: nat, e: elem)
    ensures var x, u := G.Pow(G.GENERATOR, g), G.Mul(G.Pow(Root(0), g), e);
            && G.Mul(G.Pow(Root(1), g), e) == G.Mul(x, u)
            && G.Mul(G.Pow(Root(2), g), e) == G.Mul(x, G.Mul(x, u))
  {
    hide G.Mul, G.Pow;
    var x, r0, r1 := G.Pow(G.GENERATOR, g), G.Pow(Root(0), g), G.Pow(Root(1), g);
    RootsTurn();
    G.PowOfProduct(G.GENERATOR, Root(0), g);
    G.PowOfProduct(G.GENERATOR, Root(1), g);
    G.Associates(x, r0, e);
    G.Associates(x, r1, e);
  }

  lemma RootsTurn()
    ensures Root(1) == G.Mul(G.GENERATOR, Root(0)) && Root(2) == G.Mul(G.GENERATOR, Root(1))
  {
    hide G.Mul, G.Double;
    G.GeneratorDoubles(13);
    G.GeneratorDoubles(26);
    RootConstants();
  }

  lemma NoTurn(g: nat, e: elem)
    ensures G.Mul(G.Pow(Root(0), g), e) == 0 ==> e == 0
  {
    hide G.Mul, G.Pow;
    if G.Mul(G.Pow(Root(0), g), e) == 0 {
      G.PowNonzero(Root(0), g);
      G.NoZeroDivisors(G.Pow(Root(0), g), e);
    }
  }

  /** With equal ends and equal tails the registers were equal right behind the last error. */
  lemma CutTail(x: bv32, a: seq<byte>, b: seq<byte>, n: nat)
    requires n <= |a| == |b| && Reduced(x) && SameBetween(a, b, n, |a|) && Fold(x, a) == Fold(x, b)
    ensures Apart(x, a, b, n) == 0
  {
    hide Fold, Xor, Reduced;
    assert a == a[..n] + a[n..] && b == b[..n] + b[n..] && a[n..] == b[n..];
    FoldAppend(x, a[..n], a[n..]);
    FoldAppend(x, b[..n], b[n..]);
    FoldReduced(x, a[..n]);
    FoldReduced(x, b[..n]);
    FoldInjective(Fold(x, a[..n]), Fold(x, b[..n]), a[n..]);
    XorSelf(Fold(x, a[..n]), Fold(x, b[..n]));
  }

  lemma NothingSeen(k: nat, x: bv32, a: seq<byte>, b: seq<byte>, n: nat)
    requires k < 3 && n <= |a| == |b| && Reduced(x) && SameBetween(a, b, n, |a|) && Fold(x, a) == Fold(x, b)
    ensures Seen(k, x, a, b, n) == 0
  {
    hide Apart, Fold, Root, Reduced, SameBetween, Value;
    CutTail(x, a, b, n);
    ValueZero(Root(k), 6);
  }

  lemma NoError(v: byte, w: byte)
    requires v < 32 && w < 32 && Embed(Error(v, w)) == 0
    ensures v == w
  {
    hide Error, Embed, Fits;
    ErrorFacts(v, w);
    EmbedNonzero(Error(v, w));
  }

  lemma OneError(x: bv32, a: seq<byte>, b: seq<byte>, i: nat)
    requires i < |a| == |b| && Reduced(x) && Symbols(a) && Symbols(b) && Fold(x, a) == Fold(x, b)
    requires SameBetween(a, b, 0, i) && SameBetween(a, b, i + 1, |a|)
    ensures a[i] == b[i]
  {
    hide Seen, Embed, Error, Fold, Reduced, SameBetween;
    FirstError(0, x, a, b, i);
    NothingSeen(0, x, a, b, i + 1);
    NoError(a[i], b[i]);
  }

  lemma TwoErrors(x: bv32, a: seq<byte>, b: seq<byte>, i: nat, j: nat)
    requires i < j < |a| == |b| && Reduced(x) && Symbols(a) && Symbols(b) && Fold(x, a) == Fold(x, b)
    requires SameBetween(a, b, 0, i) && SameBetween(a, b, i + 1, j) && SameBetween(a, b, j + 1, |a|)
    ensures Error(a[i], b[i]) == Error(a[j], b[j])
    ensures (j - i) % 1023 == 0 || (a[i] == b[i] && a[j] == b[j])
  {
    hide Seen, Embed, Error, Fold, Reduced, Root, SameBetween, G.Mul, G.Plus, G.Pow;
    var g, e, w := j - i, Embed(Error(a[i], b[i])), Embed(Error(a[j], b[j]));
    var u := G.Mul(G.Pow(Root(0), g), e);
    TwoSeen(0, x, a, b, i, j);
    TwoSeen(1, x, a, b, i, j);
    NothingSeen(0, x, a, b, j + 1);
    NothingSeen(1, x, a, b, j + 1);
    Turned(g, e);
    G.TwoEquations(u, w, G.Pow(G.GENERATOR, g));
    G.Order(g);
    if g % 1023 == 0 {
      FullTurns(0, g);
      G.One(e);
      SameError(a[i], b[i], a[j], b[j]);
    } else {
      NoTurn(g, e);
      NoError(a[i], b[i]);
      NoError(a[j], b[j]);
      BothNone(a[i], a[j]);
    }
  }

  lemma FullTurns(k: nat, g: nat)
    requires k < 3 && g % 1023 == 0
    ensures G.Pow(Root(k), g) == 1
  {
    hide G.Mul, G.Pow;
    G.Pow1023(Root(k));
    G.PowRemainder(Root(k), g, 1023);
    G.PowFirst(Root(k));
  }

  lemma SameError(v: byte, w: byte, v': byte, w': byte)
    requires v < 32 && w < 32 && v' < 32 && w' < 32 && Embed(Error(v, w)) == Embed(Error(v', w'))
    ensures Error(v, w) == Error(v', w')
  {
    hide Error, Embed, Fits, Xor, G.Plus;
    var d, e := Error(v, w), Error(v', w');
    ErrorFacts(v, w);
    ErrorFacts(v', w');
    EmbedLinear(d, e);
    G.PlusLaws(Embed(d), Embed(e), 0);
    SymbolSum(d, e);
    EmbedNonzero(Xor(d, e));
    XorSelf(d, e);
  }

  lemma SymbolSum(d: bv32, e: bv32)
    requires Fits(d, 1) && Fits(e, 1)
    ensures Fits(Xor(d, e), 1)
  {
  }

  lemma BothNone(v: byte, w: byte)
    ensures Error(v, v) == Error(w, w)
  {
  }

  lemma ThreeErrors(x: bv32, a: seq<byte>, b: seq<byte>, i: nat, j: nat, l: nat)
    requires i < j < l < |a| == |b| && Reduced(x) && Symbols(a) && Symbols(b) && Fold(x, a) == Fold(x, b)
    requires SameBetween(a, b, 0, i) && SameBetween(a, b, i + 1, j) && SameBetween(a, b, j + 1, l)
    requires SameBetween(a, b, l + 1, |a|) && l - i < 1023
    ensures a[i] == b[i] && a[j] == b[j] && a[l] == b[l]
  {
    hide Seen, Embed, Error, Fold, Reduced, Root, SameBetween, G.Mul, G.Plus, G.Pow;
    var d, e, w := Embed(Error(a[i], b[i])), Embed(Error(a[j], b[j])), Embed(Error(a[l], b[l]));
    var u, v := G.Mul(G.Pow(Root(0), l - i), d), G.Mul(G.Pow(Root(0), l - j), e);
    ThreeEquationsHold(x, a, b, i, j, l);
    G.Order(l - i);
    G.Order(l - j);
    G.PowersDiffer(l - j, l - i);
    G.ThreeEquations(u, v, w, G.Pow(G.GENERATOR, l - i), G.Pow(G.GENERATOR, l - j));
    NoTurn(l - i, d);
    NoTurn(l - j, e);
    NoError(a[i], b[i]);
    NoError(a[j], b[j]);
    NoError(a[l], b[l]);
  }

  lemma ThreeEquationsHold(x: bv32, a: seq<byte>, b: seq<byte>, i: nat, j: nat, l: nat)
    requires i < j < l < |a| == |b| && Reduced(x) && Symbols(a) && Symbols(b) && Fold(x, a) == Fold(x, b)
    requires SameBetween(a, b, 0, i) && SameBetween(a, b, i + 1, j) && SameBetween(a, b, j + 1, l)
    requires SameBetween(a, b, l + 1, |a|)
    ensures var u := G.Mul(G.Pow(Root(0), l - i), Embed(Error(a[i], b[i])));
            var v := G.Mul(G.Pow(Root(0), l - j), Embed(Error(a[j], b[j])));
            var w := Embed(Error(a[l], b[l]));
            var y, z := G.Pow(G.GENERATOR, l - i), G.Pow(G.GENERATOR, l - j);
            && G.Plus(G.Plus(u, v), w) == 0 && G.Plus(G.Plus(G.Mul(y, u), G.Mul(z, v)), w) == 0
            && G.Plus(G.Plus(G.Mul(y, G.Mul(y, u)), G.Mul(z, G.Mul(z, v))), w) == 0
  {
    hide Seen, Embed, Error, Fold, Reduced, Root, SameBetween, G.Mul, G.Plus, G.Pow;
    ThreeSeen(0, x, a, b, i, j, l);
    ThreeSeen(1, x, a, b, i, j, l);
    ThreeSeen(2, x, a, b, i, j, l);
    NothingSeen(0, x, a, b, l + 1);
    NothingSeen(1, x, a, b, l + 1);
    NothingSeen(2, x, a, b, l + 1);
    Turned(l - i, Embed(Error(a[i], b[i])));
    Turned(l - j, Embed(Error(a[j], b[j])));
  }

  // ---- Two errors, exactly ----

  lemma CancelledSeen(k: nat, x: bv32, a: seq<byte>, b: seq<byte>, i: nat, j: nat)
    requires k < 3 && i < j < |a| == |b| && Reduced(x) && Symbols(a) && Symbols(b)
    requires SameBetween(a, b, 0, i) && SameBetween(a, b, i + 1, j)
    requires (j - i) % 1023 == 0 && Error(a[i], b[i]) == Error(a[j], b[j])
    ensures Seen(k, x, a, b, j + 1) == 0
  {
    hide Seen, Embed, Error, Reduced, Root, SameBetween, G.Mul, G.Plus, G.Pow;
    var e := Embed(Error(a[i], b[i]));
    TwoSeen(k, x, a, b, i, j);
    FullTurns(k, j - i);
    G.One(e);
    G.PlusLaws(e, e, 0);
  }

  lemma SameTail(x: bv32, a: seq<byte>, b: seq<byte>, n: nat)
    requires n <= |a| == |b| && SameBetween(a, b, n, |a|) && Apart(x, a, b, n) == 0
    ensures Fold(x, a) == Fold(x, b)
  {
    hide Fold, Xor;
    XorSelf(Fold(x, a[..n]), Fold(x, b[..n]));
    assert a == a[..n] + a[n..] && b == b[..n] + b[n..] && a[n..] == b[n..];
    FoldAppend(x, a[..n], a[n..]);
    FoldAppend(x, b[..n], b[n..]);
  }

  /** Two wrong symbols go unnoticed exactly when they are the same error a multiple of 1023 places apart. */
  lemma TwoErrorsExactly(x: bv32, a: seq<byte>, b: seq<byte>, i: nat, j: nat)
    requires i < j < |a| == |b| && Reduced(x) && Symbols(a) && Symbols(b)
    requires SameBetween(a, b, 0, i) && SameBetween(a, b, i + 1, j) && SameBetween(a, b, j + 1, |a|)
    ensures Fold(x, a) == Fold(x, b)
            <==> (a[i] == b[i] && a[j] == b[j])
                 || ((j - i) % 1023 == 0 && Error(a[i], b[i]) == Error(a[j], b[j]))
  {
    hide Error, Apart, Fold, Reduced, Root, Value, SameBetween;
    if Fold(x, a) == Fold(x, b) {
      TwoErrors(x, a, b, i, j);
    } else if (j - i) % 1023 == 0 && Error(a[i], b[i]) == Error(a[j], b[j]) {
      CancelledSeen(0, x, a, b, i, j);
      CancelledSeen(1, x, a, b, i, j);
      CancelledSeen(2, x, a, b, i, j);
      ApartReduced(x, a, b, j + 1);
      Vanishes(Apart(x, a, b, j + 1));
      SameTail(x, a, b, j + 1);
    } else if a[i] == b[i] && a[j] == b[j] {
      AllSame(a, b, i, j);
    }
  }

  lemma AllSame(a: seq<byte>, b: seq<byte>, i: nat, j: nat)
    requires i < j < |a| == |b| && a[i] == b[i] && a[j] == b[j]
    requires SameBetween(a, b, 0, i) && SameBetween(a, b, i + 1, j) && SameBetween(a, b, j + 1, |a|)
    ensures a == b
  {
  }

  // ---- The minimum distance ----

  /** In how many places two strings differ. */
  function Differences(a: seq<byte>, b: seq<byte>): nat
    requires |a| == |b|
  {
    if a == [] then 0
    else
      var n := |a| - 1;
      Differences(a[..n], b[..n]) + if a[n] == b[n] then 0 else 1
  }

  lemma {:induction false} NoDifference(a: seq<byte>, b: seq<byte>)
    requires |a| == |b| && Differences(a, b) == 0
    ensures SameBetween(a, b, 0, |a|)
  {
    if a != [] {
      NoDifference(a[..|a| - 1], b[..|a| - 1]);
      assert forall i :: 0 <= i < |a| - 1 ==> a[i] == a[..|a| - 1][i] && b[i] == b[..|a| - 1][i];
    }
  }

  /** The last place where they differ, among the first `n`. */
  lemma {:induction false} LastDifference(a: seq<byte>, b: seq<byte>, n: nat) returns (j: nat)
    requires n <= |a| == |b| && Differences(a[..n], b[..n]) > 0
    ensures j < n && a[j] != b[j] && SameBetween(a, b, j + 1, n)
    ensures Differences(a[..j], b[..j]) == Differences(a[..n], b[..n]) - 1
    decreases n
  {
    assert a[..n][..n - 1] == a[..n - 1] && b[..n][..n - 1] == b[..n - 1];
    if a[n - 1] != b[n - 1] {
      j := n - 1;
    } else {
      j := LastDifference(a, b, n - 1);
    }
  }

  lemma NoneBefore(a: seq<byte>, b: seq<byte>, n: nat)
    requires n <= |a| == |b| && Differences(a[..n], b[..n]) == 0
    ensures SameBetween(a, b, 0, n)
  {
    NoDifference(a[..n], b[..n]);
    assert forall i :: 0 <= i < n ==> a[i] == a[..n][i] && b[i] == b[..n][i];
  }

  /** Of strings with at most 1023 symbols, two that end in the same register differ in at least four. */
  lemma FourApart(x: bv32, a: seq<byte>, b: seq<byte>)
    requires |a| == |b| <= 1023 && Reduced(x) && Symbols(a) && Symbols(b) && Fold(x, a) == Fold(x, b)
    ensures a == b || Differences(a, b) >= 4
  {
    hide Fold, Reduced, Differences, SameBetween, Error;
    assert a[..|a|] == a && b[..|b|] == b;
    if Differences(a, b) == 0 {
      NoDifference(a, b);
      Prefix(a, b, |a|);
    } else if Differences(a, b) < 4 {
      var l := LastDifference(a, b, |a|);
      if Differences(a[..l], b[..l]) == 0 {
        NoneBefore(a, b, l);
        OneError(x, a, b, l);
      } else {
        var j := LastDifference(a, b, l);
        if Differences(a[..j], b[..j]) == 0 {
          NoneBefore(a, b, j);
          TwoErrors(x, a, b, j, l);
        } else {
          var i := LastDifference(a, b, j);
          NoneBefore(a, b, i);
          ThreeErrors(x, a, b, i, j, l);
        }
      }
    }
  }
}
