/**
 What the checksum's distance means for bech32 strings: substitutions in a string that is still
 accepted, and when they can happen at all.
 */
module Detection {
  import opened Bytes
  import opened Register
  import opened Polymod
  import opened Bech32
  import opened Distance
  import opened Segwit
  import Charset

  // ---- Counting differences ----

  lemma {:induction false} DifferencesAppend(a: seq<byte>, b: seq<byte>, c: seq<byte>, d: seq<byte>)
    requires |a| == |b| && |c| == |d|
    ensures Differences(a + c, b + d) == Differences(a, b) + Differences(c, d)
  {
    if c == [] {
      assert a + c == a && b + d == b;
    } else {
      var n := |c| - 1;
      DifferencesAppend(a, b, c[..n], d[..n]);
      assert (a + c)[..|a| + n] == a + c[..n] && (b + d)[..|a| + n] == b + d[..n];
    }
  }

  lemma {:induction false} NoDifferences(a: seq<byte>)
    ensures Differences(a, a) == 0
  {
    if a != [] {
      NoDifferences(a[..|a| - 1]);
    }
  }

  /** Characters that agree, case aside, stand for symbols that agree. */
  lemma {:induction false} SymbolDifferences(s: seq<byte>, t: seq<byte>)
    requires |s| == |t|
    ensures Differences(FromChars(s), FromChars(t)) <= Differences(LowerAll(s), LowerAll(t))
  {
    hide Charset.ToLower, Charset.SymbolOf;
    if s != [] {
      var n := |s| - 1;
      SymbolDifferences(s[..n], t[..n]);
      Charset.SymbolOfRoundTrip(s[n]);
      Charset.SymbolOfRoundTrip(t[n]);
      assert FromChars(s)[..n] == FromChars(s[..n]) && FromChars(t)[..n] == FromChars(t[..n]);
      assert LowerAll(s)[..n] == LowerAll(s[..n]) && LowerAll(t)[..n] == LowerAll(t[..n]);
    }
  }

  /** With equal lengths and human-readable parts all differences are behind the separator. */
  lemma TailDifferences(s: seq<byte>, t: seq<byte>, sep: nat)
    requires sep < |s| == |t| && LowerAll(s[..sep]) == LowerAll(t[..sep]) && s[sep] == t[sep]
    ensures Differences(LowerAll(s[sep + 1..]), LowerAll(t[sep + 1..])) <= Differences(LowerAll(s), LowerAll(t))
  {
    hide LowerAll, Differences, Charset.ToLower;
    var h := LowerAll(s[..sep]) + [Charset.ToLower(s[sep])];
    assert s == s[..sep] + [s[sep]] + s[sep + 1..] && t == t[..sep] + [t[sep]] + t[sep + 1..];
    LowerSplit(s[..sep], s[sep], s[sep + 1..]);
    LowerSplit(t[..sep], t[sep], t[sep + 1..]);
    DifferencesAppend(h, h, LowerAll(s[sep + 1..]), LowerAll(t[sep + 1..]));
  }

  // ---- Up to three substitutions ----

  lemma ResidueFromHead(hrp: seq<byte>, symbols: seq<byte>)
    ensures Residue(hrp, symbols) == Fold(Residue(hrp, []), symbols) && Reduced(Residue(hrp, []))
  {
    hide Residue, Fold, Reduced;
    ResidueSplit(hrp, [], symbols);
    ResidueReduced(hrp, []);
    assert [] + symbols == symbols;
  }

  /** Strings of equal residue and at most 1023 symbols differ nowhere or in at least four places. */
  lemma ResiduesFourApart(hrp: seq<byte>, a: seq<byte>, b: seq<byte>)
    requires |a| == |b| <= 1023 && Symbols(a) && Symbols(b) && Residue(hrp, a) == Residue(hrp, b)
    ensures a == b || Differences(a, b) >= 4
  {
    hide Residue, Fold, Reduced, Differences;
    ResidueFromHead(hrp, a);
    ResidueFromHead(hrp, b);
    FourApart(Residue(hrp, []), a, b);
  }

  // ---- Substitutions in the human-readable part ----

  /** The two symbols that a character of the human-readable part becomes determine it. */
  lemma BothHalves(c: byte, d: byte)
    requires HighBits(c) == HighBits(d) && LowBits(c) == LowBits(d)
    ensures c == d
  {
  }

  lemma HalvesAreSymbols(c: byte)
    ensures HighBits(c) < 32 && LowBits(c) < 32
  {
  }

  lemma ExpandedSymbols(h: seq<byte>)
    ensures Symbols(High(h)) && Symbols(Low(h)) && Symbols([0])
  {
    hide HighBits, LowBits;
    forall i | 0 <= i < |h| ensures High(h)[i] < 32 && Low(h)[i] < 32 {
      HalvesAreSymbols(h[i]);
    }
  }

  lemma {:induction false} HalfDifferences(h: seq<byte>, g: seq<byte>)
    requires |h| == |g|
    ensures Differences(High(h), High(g)) <= Differences(h, g)
    ensures Differences(Low(h), Low(g)) <= Differences(h, g)
  {
    hide HighBits, LowBits;
    if h != [] {
      var n := |h| - 1;
      HalfDifferences(h[..n], g[..n]);
      assert High(h)[..n] == High(h[..n]) && High(g)[..n] == High(g[..n]);
      assert Low(h)[..n] == Low(h[..n]) && Low(g)[..n] == Low(g[..n]);
    }
  }

  lemma SameHalves(h: seq<byte>, g: seq<byte>)
    requires |h| == |g| && High(h) == High(g) && Low(h) == Low(g)
    ensures h == g
  {
    hide HighBits, LowBits;
    forall i | 0 <= i < |h| ensures h[i] == g[i] {
      assert High(h)[i] == High(g)[i] && Low(h)[i] == Low(g)[i];
      BothHalves(h[i], g[i]);
    }
  }

  /**
   The whole of the string is covered: where residues are equal, the parts and the symbols are, or they
   differ in so many places that, a wrong character in the human-readable part counted twice, it makes
   at least four. So one wrong character there is always noticed, also together with a wrong symbol.
   */
  lemma PartsFourApart(h: seq<byte>, g: seq<byte>, a: seq<byte>, b: seq<byte>)
    requires |h| == |g| && |a| == |b| && 2 * |h| + 1 + |a| <= 1023 && Symbols(a) && Symbols(b)
    requires Residue(h, a) == Residue(g, b)
    ensures (h == g && a == b) || 2 * Differences(h, g) + Differences(a, b) >= 4
  {
    hide Fold, Reduced, Symbols, Differences, High, Low;
    var x, y := High(h) + [0] + Low(h), High(g) + [0] + Low(g);
    ExpandedSymbols(h);
    ExpandedSymbols(g);
    SymbolsSplit(High(h), [0]);
    SymbolsSplit(High(h) + [0], Low(h));
    SymbolsSplit(x, a);
    SymbolsSplit(High(g), [0]);
    SymbolsSplit(High(g) + [0], Low(g));
    SymbolsSplit(y, b);
    OneReduced();
    FourApart(1, x + a, y + b);
    DifferencesAppend(x, y, a, b);
    DifferencesAppend(High(h) + [0], High(g) + [0], Low(h), Low(g));
    DifferencesAppend(High(h), High(g), [0], [0]);
    NoDifferences([0]);
    HalfDifferences(h, g);
    if x + a == y + b {
      var n := |h|;
      assert High(h) == (x + a)[..n] && High(g) == (y + b)[..n];
      assert Low(h) == (x + a)[n + 1..2 * n + 1] && Low(g) == (y + b)[n + 1..2 * n + 1];
      assert a == (x + a)[2 * n + 1..] && b == (y + b)[2 * n + 1..];
      SameHalves(h, g);
    }
  }

  /** In particular: two parts that differ in one character never share a checksum. */
  lemma OneCharacterDetected(h: seq<byte>, g: seq<byte>, data: seq<byte>, enc: Encoding)
    requires |h| == |g| && Differences(h, g) == 1 && 2 * |h| + 7 + |data| <= 1023 && Symbols(data)
    ensures Checksum(h, data, enc) != Checksum(g, data, enc)
  {
    hide Residue, Checksum, Differences, FinalConstant, Symbols;
    var w := Checksum(h, data, enc);
    ChecksumSymbols(h, data, enc);
    ChecksumUnique(h, data, w, enc);
    ChecksumUnique(g, data, w, enc);
    SymbolsSplit(data, w);
    NoDifferences(h);
    NoDifferences(data + w);
    if w == Checksum(g, data, enc) {
      PartsFourApart(h, g, data + w, data + w);
    }
  }

  /**
   Two accepted strings with one encoding and their separators at one place are the same, case aside, or
   differ in so many characters that, those before the separator counted twice, it makes at least four.
   */
  lemma AnywhereDetected(s: seq<byte>, t: seq<byte>, maxLen: nat)
    requires |s| == |t| && Decoded(s, maxLen).Some? && Decoded(t, maxLen).Some?
    requires Decoded(s, maxLen).value.enc == Decoded(t, maxLen).value.enc
    requires |Decoded(s, maxLen).value.hrp| == |Decoded(t, maxLen).value.hrp|
    requires |s| + |Decoded(s, maxLen).value.hrp| <= 1023
    ensures var n := |Decoded(s, maxLen).value.hrp|;
            LowerAll(s) == LowerAll(t)
            || 2 * Differences(LowerAll(s[..n]), LowerAll(t[..n]))
               + Differences(LowerAll(s[n + 1..]), LowerAll(t[n + 1..])) >= 4
  {
    hide Residue, FinalConstant, InAlphabet, AllPrintable, MixedCase, LastIndexOf, Symbols, Encoded, Decoded;
    hide Differences;
    DecodedShape(s, maxLen);
    DecodedShape(t, maxLen);
    var p, q := Decoded(s, maxLen).value, Decoded(t, maxLen).value;
    var n := |p.hrp|;
    var a, b := FromChars(s[n + 1..]), FromChars(t[n + 1..]);
    PrintSymbols(s[n + 1..]);
    PrintSymbols(t[n + 1..]);
    SymbolDifferences(s[n + 1..], t[n + 1..]);
    PartsFourApart(p.hrp, q.hrp, a, b);
    if p.hrp == q.hrp && a == b {
      assert p == q;
      DecodeIffEncode(s, maxLen, p);
      DecodeIffEncode(t, maxLen, p);
    }
  }

  /**
   Two accepted strings with the same encoding, length and human-readable part, and with at most 1023
   characters behind the separator, are the same string, case aside, or differ in at least four
   characters, wherever these are.
   */
  lemma ThreeDetected(s: seq<byte>, t: seq<byte>, maxLen: nat)
    requires |s| == |t| && Decoded(s, maxLen).Some? && Decoded(t, maxLen).Some?
    requires Decoded(s, maxLen).value.enc == Decoded(t, maxLen).value.enc
    requires Decoded(s, maxLen).value.hrp == Decoded(t, maxLen).value.hrp
    requires |s| - 1 - |Decoded(s, maxLen).value.hrp| <= 1023
    ensures LowerAll(s) == LowerAll(t) || Differences(LowerAll(s), LowerAll(t)) >= 4
  {
    hide Residue, FinalConstant, InAlphabet, AllPrintable, MixedCase, LastIndexOf, Symbols, Encoded, Decoded;
    hide Differences;
    DecodedShape(s, maxLen);
    DecodedShape(t, maxLen);
    var p, q := Decoded(s, maxLen).value, Decoded(t, maxLen).value;
    var sep := |p.hrp|;
    var a, b := FromChars(s[sep + 1..]), FromChars(t[sep + 1..]);
    PrintSymbols(s[sep + 1..]);
    PrintSymbols(t[sep + 1..]);
    TailDifferences(s, t, sep);
    SymbolDifferences(s[sep + 1..], t[sep + 1..]);
    ResiduesFourApart(p.hrp, a, b);
    if a == b {
      assert p == q;
      DecodeIffEncode(s, maxLen, p);
      DecodeIffEncode(t, maxLen, p);
    }
  }

  /** An address has at most ninety characters, so for addresses the bound never matters. */
  lemma AddressesFourApart(hrp: seq<byte>, s: seq<byte>, t: seq<byte>)
    requires |s| == |t| && WitnessOf(hrp, s).Some? && WitnessOf(hrp, t).Some?
    requires EncodingFor(WitnessOf(hrp, s).value.version) == EncodingFor(WitnessOf(hrp, t).value.version)
    ensures LowerAll(s) == LowerAll(t) || Differences(LowerAll(s), LowerAll(t)) >= 4
  {
    hide Decoded, LowerAll, Differences, SameUpTo84;
    AddressParts(hrp, s);
    AddressParts(hrp, t);
    ThreeDetected(s, t, MAX_ADDRESS);
  }

  lemma AddressParts(hrp: seq<byte>, s: seq<byte>)
    requires WitnessOf(hrp, s).Some?
    ensures Decoded(s, MAX_ADDRESS).Some? && |s| <= 90
    ensures var p := Decoded(s, MAX_ADDRESS).value;
            p.hrp == hrp && p.enc == EncodingFor(WitnessOf(hrp, s).value.version)
  {
    hide Decoded, LowerAll, SameUpTo84, R.WithoutPad, R.WithPad;
    DecodedHrpShort(s);
    SameIsEqual(hrp, Decoded(s, MAX_ADDRESS).value.hrp);
    DecodedLength(s);
  }

  lemma DecodedLength(s: seq<byte>)
    requires Decoded(s, MAX_ADDRESS).Some?
    ensures |s| <= 90
  {
    hide Residue, FinalConstant, InAlphabet, AllPrintable, MixedCase, LastIndexOf;
  }

  // ---- Two substitutions, exactly ----

  /**
   Two wrong data symbols leave the checksum as it was exactly when they are the same error a
   multiple of 1023 places apart. So with 1024 data symbols there are two that go unnoticed.
   */
  lemma TwoMissedExactly(hrp: seq<byte>, a: seq<byte>, b: seq<byte>, enc: Encoding, i: nat, j: nat)
    requires i < j < |a| == |b| && Symbols(a) && Symbols(b)
    requires SameBetween(a, b, 0, i) && SameBetween(a, b, i + 1, j) && SameBetween(a, b, j + 1, |a|)
    ensures Checksum(hrp, a, enc) == Checksum(hrp, b, enc)
            <==> a == b || ((j - i) % 1023 == 0 && Error(a[i], b[i]) == Error(a[j], b[j]))
  {
    hide Residue, Fold, Reduced, Error, Checksum, Symbols, SameBetween, FinalConstant;
    var x, w := Residue(hrp, []), Checksum(hrp, a, enc);
    ChecksumSymbols(hrp, a, enc);
    ChecksumUnique(hrp, a, w, enc);
    ChecksumUnique(hrp, b, w, enc);
    ResidueFromHead(hrp, a + w);
    ResidueFromHead(hrp, b + w);
    SameEnd(x, a, b, w);
    TwoErrorsExactly(x, a, b, i, j);
    if a[i] == b[i] && a[j] == b[j] {
      AllSame(a, b, i, j);
    }
  }

  lemma SameEnd(x: bv32, a: seq<byte>, b: seq<byte>, w: seq<byte>)
    requires Reduced(x)
    ensures Fold(x, a + w) == Fold(x, b + w) <==> Fold(x, a) == Fold(x, b)
  {
    hide Fold, Reduced;
    FoldAppend(x, a, w);
    FoldAppend(x, b, w);
    FoldReduced(x, a);
    FoldReduced(x, b);
    if Fold(x, a + w) == Fold(x, b + w) {
      FoldInjective(Fold(x, a), Fold(x, b), w);
    }
  }

  /** Such a pair: 1024 zero symbols, and the same with a one at either end. */
  lemma TwoMissed(hrp: seq<byte>, enc: Encoding)
    ensures Checksum(hrp, Zeros(1024), enc) == Checksum(hrp, [1] + Zeros(1022) + [1], enc)
    ensures Differences(Zeros(1024), [1] + Zeros(1022) + [1]) == 2
  {
    hide Checksum, Error, Differences;
    var a, b := Zeros(1024), [1] + Zeros(1022) + [1];
    TwoMissedExactly(hrp, a, b, enc, 0, 1023);
    assert a == [0] + Zeros(1022) + [0];
    DifferencesAppend([0] + Zeros(1022), [1] + Zeros(1022), [0], [1]);
    DifferencesAppend([0], [1], Zeros(1022), Zeros(1022));
    NoDifferences(Zeros(1022));
    OneDifference();
  }

  lemma OneDifference()
    ensures Differences([0], [1]) == 1
  {
    assert Differences([], []) == 0;
    var a: seq<byte>, b: seq<byte> := [0], [1];
    assert a[..0] == [] && b[..0] == [];
  }
}
