/**
 Bech32 and Bech32m strings: the printer and the parser of `bech32.c`.

 A C string is the sequence of bytes before its NUL. `Encoded` and `Decoded` specify the two
 methods; the lemmas say what the two have to do with each other.
 */
module Bech32 {
  import opened Bytes
  import opened Polymod
  import opened Register
  import opened Charset

  datatype Encoding = Bech32 | Bech32m

  /** What a string carries: human-readable part, five-bit symbols, and which checksum. */
  datatype Parts = Parts(hrp: seq<byte>, data: seq<byte>, enc: Encoding)

  function FinalConstant(enc: Encoding): bv32 {
    match enc
    case Bech32 => 1
    case Bech32m => 0x2bc830a3
  }

  lemma FinalConstants()
    ensures Reduced(FinalConstant(Bech32)) && Reduced(FinalConstant(Bech32m))
    ensures FinalConstant(Bech32) != FinalConstant(Bech32m)
  {
  }

  // ---- Element by element ----

  function HighBits(c: byte): byte {
    c >> 5
  }

  function LowBits(c: byte): byte {
    c & 0x1f
  }

  function High(s: seq<byte>): (r: seq<byte>)
    ensures |r| == |s|
  {
    seq(|s|, i requires 0 <= i < |s| => HighBits(s[i]))
  }

  function Low(s: seq<byte>): (r: seq<byte>)
    ensures |r| == |s|
  {
    seq(|s|, i requires 0 <= i < |s| => LowBits(s[i]))
  }

  function LowerAll(s: seq<byte>): (r: seq<byte>)
    ensures |r| == |s|
    ensures forall i :: 0 <= i < |s| ==> r[i] == ToLower(s[i])
  {
    seq(|s|, i requires 0 <= i < |s| => ToLower(s[i]))
  }

  function ToChars(vs: seq<byte>): (r: seq<byte>)
    ensures |r| == |vs|
    ensures forall i :: 0 <= i < |vs| ==> r[i] == CharOf(vs[i])
  {
    seq(|vs|, i requires 0 <= i < |vs| => CharOf(vs[i]))
  }

  function FromChars(s: seq<byte>): (r: seq<byte>)
    ensures |r| == |s|
    ensures forall i :: 0 <= i < |s| ==> r[i] == SymbolOf(s[i])
  {
    seq(|s|, i requires 0 <= i < |s| => SymbolOf(s[i]))
  }

  predicate AllPrintable(s: seq<byte>) {
    forall i :: 0 <= i < |s| ==> Printable(s[i])
  }

  predicate NoUpper(s: seq<byte>) {
    forall i :: 0 <= i < |s| ==> !IsUpper(s[i])
  }

  predicate NoLower(s: seq<byte>) {
    forall i :: 0 <= i < |s| ==> !IsLower(s[i])
  }

  predicate MixedCase(s: seq<byte>) {
    !NoUpper(s) && !NoLower(s)
  }

  predicate InAlphabet(s: seq<byte>) {
    forall i :: 0 <= i < |s| ==> SymbolOf(s[i]) != NO_SYMBOL
  }

  function LastIndexOf(s: seq<byte>, c: byte): (r: int)
    ensures -1 <= r < |s|
    ensures r >= 0 ==> s[r] == c
    ensures forall i :: r < i < |s| ==> s[i] != c
  {
    if s == [] then -1
    else if s[|s| - 1] == c then |s| - 1
    else LastIndexOf(s[..|s| - 1], c)
  }

  // ---- What the two functions compute ----

  /** The register over the expanded human-readable part and the symbols after it. */
  function Residue(hrp: seq<byte>, symbols: seq<byte>): bv32 {
    Fold(1, High(hrp) + [0] + Low(hrp) + symbols)
  }

  function Checksum(hrp: seq<byte>, data: seq<byte>, enc: Encoding): seq<byte> {
    Unpack(Xor(Residue(hrp, data + Zeros(6)), FinalConstant(enc)), 6)
  }

  function Encoded(hrp: seq<byte>, data: seq<byte>, maxLen: nat, enc: Encoding): Option<seq<byte>> {
    if AllPrintable(hrp) && NoUpper(hrp) && |hrp| + 7 + |data| <= maxLen && Symbols(data)
    then Some(hrp + [SEPARATOR] + ToChars(data + Checksum(hrp, data, enc)))
    else None
  }

  function Decoded(input: seq<byte>, maxLen: nat): Option<Parts> {
    var sep := LastIndexOf(input, SEPARATOR);
    if |input| < 8 || |input| > maxLen || sep < 1 || |input| - 1 - sep < 6 then None
    else if !AllPrintable(input[..sep]) || !InAlphabet(input[sep + 1..]) || MixedCase(input) then None
    else
      var hrp, symbols := LowerAll(input[..sep]), FromChars(input[sep + 1..]);
      var data := symbols[..|symbols| - 6];
      if Residue(hrp, symbols) == FinalConstant(Bech32) then Some(Parts(hrp, data, Bech32))
      else if Residue(hrp, symbols) == FinalConstant(Bech32m) then Some(Parts(hrp, data, Bech32m))
      else None
  }

  // ---- The checksum ----

  lemma ResidueSplit(hrp: seq<byte>, xs: seq<byte>, ys: seq<byte>)
    ensures Residue(hrp, xs + ys) == Fold(Residue(hrp, xs), ys)
  {
    hide Fold, High, Low;
    var h := High(hrp) + [0] + Low(hrp);
    assert h + (xs + ys) == (h + xs) + ys;
    FoldAppend(1, h + xs, ys);
  }

  lemma OneReduced()
    ensures Reduced(1)
  {
  }

  lemma ResidueReduced(hrp: seq<byte>, symbols: seq<byte>)
    ensures Reduced(Residue(hrp, symbols))
  {
    hide Fold, High, Low, Reduced;
    OneReduced();
    FoldReduced(1, High(hrp) + [0] + Low(hrp) + symbols);
  }

  lemma SixFit(p: bv32)
    ensures Fits(p, 6) <==> Reduced(p)
  {
  }

  lemma XorSolve(x: bv32, y: bv32, z: bv32)
    ensures Xor(x, y) == z <==> y == Xor(x, z)
  {
    hide Xor;
    XorAssociative(x, x, y);
    XorAssociative(x, x, z);
    XorSelf(x, x);
    XorCommutes(0, y);
    XorCommutes(0, z);
    XorZero(y);
    XorZero(z);
  }

  lemma ChecksumSymbols(hrp: seq<byte>, data: seq<byte>, enc: Encoding)
    ensures |Checksum(hrp, data, enc)| == 6 && Symbols(Checksum(hrp, data, enc))
  {
    hide Residue, Xor, Unpack, FinalConstant;
    UnpackSymbols(Xor(Residue(hrp, data + Zeros(6)), FinalConstant(enc)), 6);
  }

  /** Exactly one choice of the last six symbols satisfies the checksum. */
  lemma ChecksumUnique(hrp: seq<byte>, data: seq<byte>, w: seq<byte>, enc: Encoding)
    requires |w| == 6 && Symbols(w)
    ensures Residue(hrp, data + w) == FinalConstant(enc) <==> w == Checksum(hrp, data, enc)
  {
    hide Residue, Fold, Xor, Pack, Unpack, Fits, FinalConstant, Reduced;
    var x, k := Residue(hrp, data), FinalConstant(enc);
    ResidueSplit(hrp, data, w);
    ResidueSplit(hrp, data, Zeros(6));
    FoldPack(x, w);
    var zero := Residue(hrp, data + Zeros(6));
    XorSolve(zero, Pack(w), k);
    ResidueReduced(hrp, data + Zeros(6));
    FinalConstants();
    XorReduced(zero, k);
    SixFit(Xor(zero, k));
    PackUnpack(Xor(zero, k), 6);
    ChecksumSymbols(hrp, data, enc);
    if Pack(w) == Xor(zero, k) {
      PackInjective(w, Checksum(hrp, data, enc));
    }
  }

  // ---- Parsing and printing ----

  lemma SeparatorUnique(s: seq<byte>, k: nat)
    requires k < |s| && s[k] == SEPARATOR && (forall i :: k < i < |s| ==> s[i] != SEPARATOR)
    ensures LastIndexOf(s, SEPARATOR) == k
  {
  }

  /** The symbols of a word, printed, are its characters in lower case. */
  lemma PrintSymbols(tail: seq<byte>)
    requires InAlphabet(tail)
    ensures Symbols(FromChars(tail)) && ToChars(FromChars(tail)) == LowerAll(tail)
  {
    hide CharOf, SymbolOf, ToLower;
    forall i | 0 <= i < |tail|
      ensures FromChars(tail)[i] < 32 && CharOf(FromChars(tail)[i]) == ToLower(tail[i])
    {
      SymbolOfRoundTrip(tail[i]);
    }
  }

  /** Characters whose lower-case form prints symbols stand for those symbols. */
  lemma ReadSymbols(tail: seq<byte>, vs: seq<byte>)
    requires Symbols(vs) && LowerAll(tail) == ToChars(vs)
    ensures InAlphabet(tail) && FromChars(tail) == vs
    ensures forall i :: 0 <= i < |tail| ==> tail[i] != SEPARATOR
  {
    hide CharOf, SymbolOf, ToLower, SEPARATOR;
    forall i | 0 <= i < |tail|
      ensures SymbolOf(tail[i]) == vs[i] && vs[i] != NO_SYMBOL && tail[i] != SEPARATOR
    {
      assert ToLower(tail[i]) == LowerAll(tail)[i] == ToChars(vs)[i] == CharOf(vs[i]);
      SymbolOfRoundTrip(tail[i]);
      CharOfRoundTrip(vs[i]);
      CharOfLower(vs[i]);
      CaseFacts(tail[i]);
    }
  }

  lemma LowerHrp(s: seq<byte>)
    ensures AllPrintable(LowerAll(s)) <==> AllPrintable(s)
    ensures NoUpper(LowerAll(s)) && Low(LowerAll(s)) == Low(s) && LowerAll(LowerAll(s)) == LowerAll(s)
    ensures NoUpper(s) ==> LowerAll(s) == s
  {
    hide ToLower, Printable, IsUpper;
    forall i | 0 <= i < |s|
      ensures Printable(LowerAll(s)[i]) <==> Printable(s[i])
      ensures !IsUpper(LowerAll(s)[i]) && Low(LowerAll(s))[i] == Low(s)[i]
      ensures ToLower(LowerAll(s)[i]) == LowerAll(s)[i]
      ensures !IsUpper(s[i]) ==> LowerAll(s)[i] == s[i]
    {
      CaseFacts(s[i]);
    }
    if AllPrintable(LowerAll(s)) {
      forall i | 0 <= i < |s| ensures Printable(s[i]) {
        assert Printable(LowerAll(s)[i]);
      }
    }
  }

  /** What a successful parse found: where the separator is, and that the symbols fit the checksum. */
  lemma DecodedShape(s: seq<byte>, maxLen: nat)
    requires Decoded(s, maxLen).Some?
    ensures var p, sep := Decoded(s, maxLen).value, LastIndexOf(s, SEPARATOR);
            && 8 <= |s| <= maxLen && 1 <= sep && 6 <= |s| - 1 - sep
            && AllPrintable(s[..sep]) && InAlphabet(s[sep + 1..]) && !MixedCase(s)
            && p.hrp == LowerAll(s[..sep])
            && p.data == FromChars(s[sep + 1..])[..|s| - 7 - sep]
            && Residue(p.hrp, FromChars(s[sep + 1..])) == FinalConstant(p.enc)
  {
    hide Residue, FinalConstant, AllPrintable, InAlphabet, MixedCase, LastIndexOf, LowerAll, FromChars, SEPARATOR;
  }

  lemma SymbolsSplit(xs: seq<byte>, ys: seq<byte>)
    ensures Symbols(xs + ys) <==> Symbols(xs) && Symbols(ys)
  {
    if Symbols(xs + ys) {
      assert forall i :: 0 <= i < |xs| ==> xs[i] == (xs + ys)[i];
      assert forall i :: 0 <= i < |ys| ==> ys[i] == (xs + ys)[|xs| + i];
    }
  }

  lemma LowerSplit(head: seq<byte>, c: byte, tail: seq<byte>)
    ensures LowerAll(head + [c] + tail) == LowerAll(head) + [ToLower(c)] + LowerAll(tail)
  {
    hide ToLower;
  }

  /** A parsed string, printed again, is its own lower-case form. */
  lemma DecodeThenEncode(s: seq<byte>, maxLen: nat)
    requires Decoded(s, maxLen).Some?
    ensures var p := Decoded(s, maxLen).value;
            && p.hrp != [] && !MixedCase(s)
            && Encoded(p.hrp, p.data, maxLen, p.enc) == Some(LowerAll(s))
  {
    hide Residue, FinalConstant, MixedCase, Checksum, SymbolOf, CharOf, ToLower, Decoded, SEPARATOR;
    hide Symbols, AllPrintable, NoUpper, InAlphabet, Low, LastIndexOf, LowerAll, FromChars, ToChars;
    DecodedShape(s, maxLen);
    var p, sep := Decoded(s, maxLen).value, LastIndexOf(s, SEPARATOR);
    var head, tail := s[..sep], s[sep + 1..];
    var symbols := FromChars(tail);
    var w := symbols[|p.data|..];
    PrintSymbols(tail);
    assert symbols == p.data + w;
    SymbolsSplit(p.data, w);
    ChecksumUnique(p.hrp, p.data, w, p.enc);
    LowerHrp(head);
    CaseFacts(SEPARATOR);
    assert s == head + [s[sep]] + tail;
    LowerSplit(head, s[sep], tail);
  }

  /** A string in a single case whose lower-case form was printed parses to what was printed. */
  lemma EncodeThenDecode(s: seq<byte>, maxLen: nat, p: Parts)
    requires p.hrp != [] && !MixedCase(s)
    requires Encoded(p.hrp, p.data, maxLen, p.enc) == Some(LowerAll(s))
    ensures Decoded(s, maxLen) == Some(p)
  {
    hide Residue, FinalConstant, MixedCase, Checksum, SymbolOf, CharOf, ToLower, SEPARATOR;
    var sep := |p.hrp|;
    var w := Checksum(p.hrp, p.data, p.enc);
    var symbols := p.data + w;
    ChecksumSymbols(p.hrp, p.data, p.enc);
    ChecksumUnique(p.hrp, p.data, w, p.enc);
    var printed := p.hrp + [SEPARATOR] + ToChars(symbols);
    assert LowerAll(s) == printed;
    var head, tail := s[..sep], s[sep + 1..];
    assert LowerAll(head) == LowerAll(s)[..sep] == p.hrp;
    assert LowerAll(tail) == LowerAll(s)[sep + 1..] == ToChars(symbols);
    assert ToLower(s[sep]) == LowerAll(s)[sep] == SEPARATOR;
    CaseFacts(s[sep]);
    ReadSymbols(tail, symbols);
    forall i | sep < i < |s| ensures s[i] != SEPARATOR {
      assert s[i] == tail[i - sep - 1];
    }
    SeparatorUnique(s, sep);
    LowerHrp(head);
    FinalConstants();
    assert symbols[..|symbols| - 6] == p.data;
    match p.enc
    case Bech32 =>
    case Bech32m => OtherConstant(Residue(p.hrp, symbols));
  }

  lemma OtherConstant(r: bv32)
    requires r == FinalConstant(Bech32m)
    ensures r != FinalConstant(Bech32)
  {
  }

  /**
   The parser accepts exactly what the printer makes, in either case, and takes it apart into
   what the printer was given. Only the empty human-readable part prints but does not parse.
   */
  lemma DecodeIffEncode(s: seq<byte>, maxLen: nat, p: Parts)
    ensures Decoded(s, maxLen) == Some(p)
            <==> p.hrp != [] && !MixedCase(s) && Encoded(p.hrp, p.data, maxLen, p.enc) == Some(LowerAll(s))
  {
    hide Encoded, Decoded, LowerAll, MixedCase;
    if Decoded(s, maxLen) == Some(p) {
      DecodeThenEncode(s, maxLen);
    }
    if p.hrp != [] && !MixedCase(s) && Encoded(p.hrp, p.data, maxLen, p.enc) == Some(LowerAll(s)) {
      EncodeThenDecode(s, maxLen, p);
    }
  }

  lemma PrintedIsLower(hrp: seq<byte>, data: seq<byte>, maxLen: nat, enc: Encoding)
    requires Encoded(hrp, data, maxLen, enc).Some?
    ensures var out := Encoded(hrp, data, maxLen, enc).value;
            |out| == |hrp| + 7 + |data| && NoUpper(out) && LowerAll(out) == out
  {
    hide Checksum, CharOf, ToLower, IsUpper, SEPARATOR;
    var out := Encoded(hrp, data, maxLen, enc).value;
    var symbols := data + Checksum(hrp, data, enc);
    ChecksumSymbols(hrp, data, enc);
    SymbolsSplit(data, Checksum(hrp, data, enc));
    forall i | 0 <= i < |out| ensures !IsUpper(out[i]) {
      if i < |hrp| {
        assert out[i] == hrp[i];
      } else if i == |hrp| {
        SeparatorIsNoLetter();
      } else {
        assert out[i] == CharOf(symbols[i - |hrp| - 1]);
        CharOfLower(symbols[i - |hrp| - 1]);
      }
    }
    LowerHrp(out);
  }

  lemma SeparatorIsNoLetter()
    ensures !IsUpper(SEPARATOR) && !IsLower(SEPARATOR)
  {
  }

  /** Printing then parsing gives everything back exactly when the human-readable part is not empty. */
  lemma RoundTrip(hrp: seq<byte>, data: seq<byte>, maxLen: nat, enc: Encoding)
    requires Encoded(hrp, data, maxLen, enc).Some?
    ensures var out := Encoded(hrp, data, maxLen, enc).value;
            Decoded(out, maxLen) == Some(Parts(hrp, data, enc)) <==> hrp != []
  {
    hide Encoded, Decoded, LowerAll, NoUpper;
    PrintedIsLower(hrp, data, maxLen, enc);
    DecodeIffEncode(Encoded(hrp, data, maxLen, enc).value, maxLen, Parts(hrp, data, enc));
  }

  /** Whatever prints with an empty human-readable part does not parse at all. */
  lemma EmptyHrpFails(data: seq<byte>, maxLen: nat, enc: Encoding)
    requires Symbols(data) && 7 + |data| <= maxLen
    ensures Encoded([], data, maxLen, enc).Some?
    ensures Decoded(Encoded([], data, maxLen, enc).value, maxLen) == None
  {
    hide Checksum, ToChars, LowerAll, FromChars, SEPARATOR, CharOf, Symbols, LastIndexOf, Residue, FinalConstant;
    var symbols := data + Checksum([], data, enc);
    var out := Encoded([], data, maxLen, enc).value;
    ChecksumSymbols([], data, enc);
    SymbolsSplit(data, Checksum([], data, enc));
    assert out[0] == SEPARATOR && out[1..] == ToChars(symbols);
    NoSeparator(symbols);
    forall i | 0 < i < |out| ensures out[i] != SEPARATOR {
      assert out[i] == ToChars(symbols)[i - 1];
    }
    SeparatorUnique(out, 0);
  }

  lemma NoSeparator(vs: seq<byte>)
    requires Symbols(vs)
    ensures forall i :: 0 <= i < |vs| ==> ToChars(vs)[i] != SEPARATOR
  {
    hide CharOf, SEPARATOR;
    forall i | 0 <= i < |vs| ensures ToChars(vs)[i] != SEPARATOR {
      CharOfLower(vs[i]);
    }
  }

  /** Case carries nothing: two strings, neither mixed, that differ only in case parse alike. */
  lemma CaseInsensitive(s: seq<byte>, t: seq<byte>, maxLen: nat)
    requires LowerAll(s) == LowerAll(t) && !MixedCase(s) && !MixedCase(t)
    ensures Decoded(s, maxLen) == Decoded(t, maxLen)
  {
    hide Encoded, Decoded, LowerAll, MixedCase;
    if Decoded(s, maxLen).Some? {
      DecodeIffEncode(s, maxLen, Decoded(s, maxLen).value);
      DecodeIffEncode(t, maxLen, Decoded(s, maxLen).value);
    } else if Decoded(t, maxLen).Some? {
      DecodeIffEncode(t, maxLen, Decoded(t, maxLen).value);
      DecodeIffEncode(s, maxLen, Decoded(t, maxLen).value);
    }
  }

  // ---- Errors in the data ----

  /** `a` and `b` agree everywhere but in the `n` positions from `lo` up. */
  predicate AgreeOutside(a: seq<byte>, b: seq<byte>, lo: int, n: nat) {
    |a| == |b| && forall i :: 0 <= i < |a| && !(lo <= i < lo + n) ==> a[i] == b[i]
  }

  /** Two symbol strings with the same residue cannot differ inside one window of six alone. */
  lemma WindowDetected(hrp: seq<byte>, a: seq<byte>, b: seq<byte>, lo: nat)
    requires Symbols(a) && Symbols(b) && lo + 6 <= |a| && AgreeOutside(a, b, lo, 6)
    requires Residue(hrp, a) == Residue(hrp, b)
    ensures a == b
  {
    hide Residue, Fold, Pack, Xor, Reduced;
    var head, tail := a[..lo], a[lo + 6..];
    var u, v := a[lo..lo + 6], b[lo..lo + 6];
    assert a == head + u + tail;
    assert b == head + v + tail by {
      assert b[..lo] == head;
      assert b[lo + 6..] == tail;
    }
    var x := Residue(hrp, head);
    ResidueSplit(hrp, head + u, tail);
    ResidueSplit(hrp, head + v, tail);
    ResidueSplit(hrp, head, u);
    ResidueSplit(hrp, head, v);
    ResidueReduced(hrp, head + u);
    ResidueReduced(hrp, head + v);
    FoldInjective(Fold(x, u), Fold(x, v), tail);
    FoldPack(x, u);
    FoldPack(x, v);
    XorSolve(Fold(x, Zeros(6)), Pack(u), Fold(x, u));
    XorSolve(Fold(x, Zeros(6)), Pack(v), Fold(x, u));
    PackInjective(u, v);
  }

  /**
   Burst detection, at any length: two accepted strings with the same encoding, length and
   human-readable part that differ, case aside, only inside a window of six characters are the
   same string.
   */
  lemma BurstDetected(s: seq<byte>, t: seq<byte>, maxLen: nat, lo: int)
    requires Decoded(s, maxLen).Some? && Decoded(t, maxLen).Some?
    requires Decoded(s, maxLen).value.enc == Decoded(t, maxLen).value.enc
    requires Decoded(s, maxLen).value.hrp == Decoded(t, maxLen).value.hrp
    requires AgreeOutside(LowerAll(s), LowerAll(t), lo, 6)
    ensures Decoded(s, maxLen) == Decoded(t, maxLen) && LowerAll(s) == LowerAll(t)
  {
    hide Residue, FinalConstant, InAlphabet, AllPrintable, MixedCase, LastIndexOf, Symbols, Encoded, Decoded;
    DecodedShape(s, maxLen);
    DecodedShape(t, maxLen);
    var p, q := Decoded(s, maxLen).value, Decoded(t, maxLen).value;
    var sep := |p.hrp|;
    var a, b := FromChars(s[sep + 1..]), FromChars(t[sep + 1..]);
    PrintSymbols(s[sep + 1..]);
    PrintSymbols(t[sep + 1..]);
    SymbolsAgree(s, t, sep, lo);
    var at := lo - sep - 1;
    var lo' := if at < 0 then 0 else if at + 6 > |a| then |a| - 6 else at;
    assert AgreeOutside(a, b, lo', 6);
    WindowDetected(p.hrp, a, b, lo');
    assert p == q;
    DecodeIffEncode(s, maxLen, p);
    DecodeIffEncode(t, maxLen, p);
  }

  lemma SymbolsAgree(s: seq<byte>, t: seq<byte>, sep: nat, lo: int)
    requires sep < |s| && AgreeOutside(LowerAll(s), LowerAll(t), lo, 6)
    ensures AgreeOutside(FromChars(s[sep + 1..]), FromChars(t[sep + 1..]), lo - sep - 1, 6)
  {
    hide ToLower, SymbolOf;
    var a, b := FromChars(s[sep + 1..]), FromChars(t[sep + 1..]);
    forall i | 0 <= i < |a| && !(lo - sep - 1 <= i < lo - sep - 1 + 6)
      ensures a[i] == b[i]
    {
      var j := sep + 1 + i;
      assert LowerAll(s)[j] == LowerAll(t)[j];
      SymbolOfRoundTrip(s[j]);
      SymbolOfRoundTrip(t[j]);
    }
  }

  // ---- The two functions, loop by loop ----

  /** First pass over the human-readable part: check it and absorb its high bits. */
  method ScanHrp(hrp: seq<byte>) returns (ok: bool, chk: bv32)
    ensures ok <==> AllPrintable(hrp) && NoUpper(hrp)
    ensures ok ==> chk == Fold(1, High(hrp))
  {
    hide Absorb, HighBits, Printable, IsUpper, AllPrintable, NoUpper, High, Fold;
    chk := 1;
    var i := 0;
    NoFlags();
    FoldEmpty(1);
    while i < |hrp|
      invariant 0 <= i <= |hrp|
      invariant AllPrintable(hrp[..i]) && NoUpper(hrp[..i])
      invariant chk == Fold(1, High(hrp[..i]))
    {
      var ch := hrp[i];
      assert hrp[..i + 1] == hrp[..i] + [ch];
      FlagsSnoc(hrp[..i], ch);
      FlagsPrefix(hrp, i);
      HighSnoc(hrp[..i], ch);
      if !Printable(ch) || IsUpper(ch) {
        return false, chk;
      }
      chk := Absorb(chk, HighBits(ch));
      FoldSnoc(1, High(hrp[..i]), HighBits(ch));
      i := i + 1;
    }
    assert hrp[..i] == hrp;
    ok := true;
  }

  /** Second pass: copy it out and absorb its low bits. */
  method CopyHrp(output: array<byte>, hrp: seq<byte>, chk0: bv32, ghost before: seq<byte>) returns (chk: bv32)
    requires output.Length >= |hrp| && chk0 == Fold(1, before)
    modifies output
    ensures chk == Fold(1, before + Low(hrp))
    ensures output[..|hrp|] == hrp
  {
    hide Absorb, LowBits;
    chk := chk0;
    var i := 0;
    assert before + Low(hrp[..i]) == before;
    while i < |hrp|
      invariant 0 <= i <= |hrp|
      invariant chk == Fold(1, before + Low(hrp[..i]))
      invariant output[..i] == hrp[..i]
    {
      chk := Absorb(chk, LowBits(hrp[i]));
      assert before + Low(hrp[..i + 1]) == before + Low(hrp[..i]) + [LowBits(hrp[i])];
      FoldSnoc(1, before + Low(hrp[..i]), LowBits(hrp[i]));
      output[i] := hrp[i];
      i := i + 1;
    }
    assert hrp[..i] == hrp;
  }

  lemma SymbolByHighBits(v: byte)
    ensures v >> 5 == 0 <==> v < 32
  {
  }

  /** The data symbols: check, absorb, print after what `output` holds already. */
  method CopyData(output: array<byte>, at: nat, data: seq<byte>, chk0: bv32, ghost before: seq<byte>)
    returns (ok: bool, chk: bv32)
    requires output.Length >= at + |data| && chk0 == Fold(1, before)
    modifies output
    ensures ok <==> Symbols(data)
    ensures ok ==> chk == Fold(1, before + data)
    ensures ok ==> output[..at + |data|] == old(output[..at]) + ToChars(data)
  {
    hide Absorb, CharOf, Fold;
    chk := chk0;
    var i := 0;
    assert before + data[..i] == before;
    while i < |data|
      invariant 0 <= i <= |data|
      invariant Symbols(data[..i])
      invariant chk == Fold(1, before + data[..i])
      invariant output[..at + i] == old(output[..at]) + ToChars(data[..i])
    {
      SymbolByHighBits(data[i]);
      if data[i] >> 5 != 0 {
        return false, chk;
      }
      chk := Absorb(chk, data[i]);
      assert before + data[..i + 1] == before + data[..i] + [data[i]];
      FoldSnoc(1, before + data[..i], data[i]);
      output[at + i] := CharOf(data[i]);
      i := i + 1;
    }
    assert data[..i] == data;
    ok := true;
  }

  /** Six zero symbols, then the constant. */
  method CloseChecksum(chk0: bv32, enc: Encoding, ghost before: seq<byte>) returns (chk: bv32)
    requires chk0 == Fold(1, before)
    ensures chk == Xor(Fold(1, before + Zeros(6)), FinalConstant(enc))
  {
    hide Absorb, Xor, FinalConstant;
    chk := chk0;
    var i := 0;
    assert before + Zeros(i) == before;
    while i < 6
      invariant 0 <= i <= 6
      invariant chk == Fold(1, before + Zeros(i))
    {
      chk := Absorb(chk, 0);
      FoldSnoc(1, before + Zeros(i), 0);
      assert before + Zeros(i + 1) == before + Zeros(i) + [0];
      i := i + 1;
    }
    chk := Xor(chk, FinalConstant(enc));
  }

  /** The six checksum characters. */
  method PrintChecksum(output: array<byte>, at: nat, chk: bv32)
    requires output.Length >= at + 6
    modifies output
    ensures output[..at + 6] == old(output[..at]) + ToChars(Unpack(chk, 6))
  {
    hide CharOf, SymbolAt, Unpack;
    ghost var sum := Unpack(chk, 6);
    var i := 0;
    while i < 6
      invariant 0 <= i <= 6
      invariant output[..at + i] == old(output[..at]) + ToChars(sum[..i])
    {
      SymbolByShift(chk, i);
      output[at + i] := CharOf(SymbolAt(chk, i));
      i := i + 1;
    }
    assert sum[..6] == sum;
  }

  lemma ChecksumIs(hrp: seq<byte>, data: seq<byte>, enc: Encoding)
    ensures var before := High(hrp) + [0] + Low(hrp);
            Checksum(hrp, data, enc) == Unpack(Xor(Fold(1, before + data + Zeros(6)), FinalConstant(enc)), 6)
  {
    hide Xor, FinalConstant, Unpack, High, Low, Fold;
    var before := High(hrp) + [0] + Low(hrp);
    assert before + data + Zeros(6) == before + (data + Zeros(6));
  }

  lemma PrintedSplit(hrp: seq<byte>, data: seq<byte>, maxLen: nat, enc: Encoding)
    requires AllPrintable(hrp) && NoUpper(hrp) && |hrp| + 7 + |data| <= maxLen && Symbols(data)
    ensures Encoded(hrp, data, maxLen, enc)
            == Some(hrp + [SEPARATOR] + ToChars(data) + ToChars(Checksum(hrp, data, enc)))
  {
    hide Checksum, CharOf, SEPARATOR, AllPrintable, NoUpper, Symbols;
    var sum := Checksum(hrp, data, enc);
    assert ToChars(data + sum) == ToChars(data) + ToChars(sum);
    assert hrp + [SEPARATOR] + (ToChars(data) + ToChars(sum)) == hrp + [SEPARATOR] + ToChars(data) + ToChars(sum);
  }

  /** The human-readable part and the separator. */
  method PrintHead(output: array<byte>, hrp: seq<byte>, chk0: bv32) returns (chk: bv32)
    requires output.Length > |hrp| && chk0 == Fold(1, High(hrp))
    modifies output
    ensures chk == Fold(1, High(hrp) + [0] + Low(hrp))
    ensures output[..|hrp| + 1] == hrp + [SEPARATOR]
  {
    hide Absorb, SEPARATOR, High, Low, Fold;
    FoldSnoc(1, High(hrp), 0);
    chk := CopyHrp(output, hrp, Absorb(chk0, 0), High(hrp) + [0]);
    output[|hrp|] := SEPARATOR;
  }

  /** `bech32_encode`. On success `output` holds the string and its NUL. */
  method Encode(output: array<byte>, hrp: seq<byte>, data: seq<byte>, maxLen: nat, enc: Encoding) returns (ok: bool)
    requires output.Length >= |hrp| + |data| + 8
    modifies output
    ensures ok <==> Encoded(hrp, data, maxLen, enc).Some?
    ensures ok ==> var s := Encoded(hrp, data, maxLen, enc).value;
                   |s| < output.Length && output[..|s|] == s && output[|s|] == 0
  {
    hide Xor, FinalConstant, SEPARATOR, AllPrintable, NoUpper, High, Low, Fold, Symbols, Checksum, ToChars, Unpack;
    var chk;
    ok, chk := ScanHrp(hrp);
    if !ok || |hrp| + 7 + |data| > maxLen {
      return false;
    }
    chk := PrintHead(output, hrp, chk);
    ok, chk := CopyData(output, |hrp| + 1, data, chk, High(hrp) + [0] + Low(hrp));
    if !ok {
      return;
    }
    chk := CloseChecksum(chk, enc, High(hrp) + [0] + Low(hrp) + data);
    PrintChecksum(output, |hrp| + 1 + |data|, chk);
    ChecksumIs(hrp, data, enc);
    PrintedSplit(hrp, data, maxLen, enc);
    output[|hrp| + |data| + 7] := 0;
  }

  /** Count the characters after the last separator. */
  method CountData(input: seq<byte>) returns (dataLen: nat)
    ensures dataLen == |input| - 1 - LastIndexOf(input, SEPARATOR)
  {
    hide SEPARATOR;
    dataLen := 0;
    while dataLen < |input| && input[|input| - 1 - dataLen] != SEPARATOR
      invariant 0 <= dataLen <= |input|
      invariant forall i :: |input| - dataLen <= i < |input| ==> input[i] != SEPARATOR
    {
      dataLen := dataLen + 1;
    }
  }

  lemma FlagsSnoc(s: seq<byte>, c: byte)
    ensures NoUpper(s + [c]) <==> NoUpper(s) && !IsUpper(c)
    ensures NoLower(s + [c]) <==> NoLower(s) && !IsLower(c)
    ensures AllPrintable(s + [c]) <==> AllPrintable(s) && Printable(c)
    ensures InAlphabet(s + [c]) <==> InAlphabet(s) && SymbolOf(c) != NO_SYMBOL
  {
    hide IsUpper, IsLower, Printable, SymbolOf, NO_SYMBOL;
    var t := s + [c];
    assert t[..|s|] == s && t[|s|] == c;
    assert forall i :: 0 <= i < |s| ==> t[i] == s[i];
  }

  lemma FlagsPrefix(s: seq<byte>, i: nat)
    requires i < |s|
    ensures AllPrintable(s) ==> AllPrintable(s[..i + 1])
    ensures InAlphabet(s) ==> InAlphabet(s[..i + 1])
    ensures NoUpper(s) ==> NoUpper(s[..i + 1])
  {
    hide Printable, SymbolOf, NO_SYMBOL, IsUpper;
  }

  lemma HighSnoc(s: seq<byte>, c: byte)
    ensures High(s + [c]) == High(s) + [HighBits(c)]
  {
    hide HighBits;
  }

  lemma FoldEmpty(chk: bv32)
    ensures Fold(chk, []) == chk
  {
  }

  lemma LowerSnoc(s: seq<byte>, c: byte)
    ensures LowerAll(s + [c]) == LowerAll(s) + [ToLower(c)]
    ensures High(LowerAll(s + [c])) == High(LowerAll(s)) + [HighBits(ToLower(c))]
    ensures Low(LowerAll(s) + [c]) == Low(LowerAll(s)) + [LowBits(c)]
    ensures FromChars(s + [c]) == FromChars(s) + [SymbolOf(c)]
  {
    hide ToLower, HighBits, LowBits, SymbolOf;
  }

  /** First pass over the human-readable part: check, fold to lower case, copy, absorb high bits. */
  method ScanHead(hrp: array<byte>, head: seq<byte>) returns (ok: bool, chk: bv32, lower: bool, upper: bool)
    requires hrp.Length >= |head|
    modifies hrp
    ensures ok <==> AllPrintable(head)
    ensures ok ==> chk == Fold(1, High(LowerAll(head))) && hrp[..|head|] == LowerAll(head)
    ensures ok ==> lower == !NoLower(head) && upper == !NoUpper(head)
  {
    hide Absorb, Fold, HighBits, Printable, IsUpper, IsLower, ToLower, AllPrintable, NoLower, NoUpper, High, LowerAll;
    chk, lower, upper := 1, false, false;
    var i := 0;
    NoFlags();
    FoldEmpty(1);
    assert hrp[..i] == LowerAll(head[..i]);
    while i < |head|
      invariant 0 <= i <= |head|
      invariant AllPrintable(head[..i])
      invariant lower == !NoLower(head[..i]) && upper == !NoUpper(head[..i])
      invariant chk == Fold(1, High(LowerAll(head[..i])))
      invariant hrp[..i] == LowerAll(head[..i])
    {
      var ch := head[i];
      assert head[..i + 1] == head[..i] + [ch];
      FlagsSnoc(head[..i], ch);
      FlagsPrefix(head, i);
      LowerSnoc(head[..i], ch);
      if !Printable(ch) {
        return false, chk, lower, upper;
      }
      LowerOrUpper(ch);
      if IsLower(ch) {
        lower := true;
      } else if IsUpper(ch) {
        upper := true;
        ch := ToLower(ch);
      }
      hrp[i] := ch;
      chk := Absorb(chk, HighBits(ch));
      FoldSnoc(1, High(LowerAll(head[..i])), HighBits(ch));
      i := i + 1;
    }
    assert head[..i] == head;
    ok := true;
  }

  lemma NoFlags()
    ensures AllPrintable([]) && NoLower([]) && NoUpper([]) && InAlphabet([])
    ensures LowerAll([]) == [] && High([]) == [] && Low([]) == [] && FromChars([]) == []
  {
  }

  lemma LowerOrUpper(c: byte)
    ensures !(IsLower(c) && IsUpper(c))
    ensures !IsUpper(c) ==> ToLower(c) == c
  {
  }

  /** Second pass: absorb the low bits, which do not depend on case. */
  method AbsorbHead(head: seq<byte>, chk0: bv32, ghost before: seq<byte>) returns (chk: bv32)
    requires chk0 == Fold(1, before)
    ensures chk == Fold(1, before + Low(head))
  {
    hide Absorb, LowBits;
    chk := chk0;
    var i := 0;
    assert before + Low(head[..i]) == before;
    while i < |head|
      invariant 0 <= i <= |head|
      invariant chk == Fold(1, before + Low(head[..i]))
    {
      chk := Absorb(chk, LowBits(head[i]));
      assert before + Low(head[..i + 1]) == before + Low(head[..i]) + [LowBits(head[i])];
      FoldSnoc(1, before + Low(head[..i]), LowBits(head[i]));
      i := i + 1;
    }
    assert head[..i] == head;
  }

  /** The characters after the separator: look up, absorb, and keep all but the last six. */
  method ScanTail(data: array<byte>, tail: seq<byte>, chk0: bv32, lower0: bool, upper0: bool, ghost before: seq<byte>)
    returns (ok: bool, chk: bv32, lower: bool, upper: bool)
    requires 6 <= |tail| && data.Length >= |tail| - 6 && chk0 == Fold(1, before)
    modifies data
    ensures ok <==> InAlphabet(tail)
    ensures ok ==> chk == Fold(1, before + FromChars(tail))
    ensures ok ==> data[..|tail| - 6] == FromChars(tail)[..|tail| - 6]
    ensures ok ==> lower == (lower0 || !NoLower(tail)) && upper == (upper0 || !NoUpper(tail))
  {
    hide Absorb, Fold, SymbolOf, NO_SYMBOL, IsUpper, IsLower, InAlphabet, NoLower, NoUpper, LowerAll, Low, High;
    chk, lower, upper := chk0, lower0, upper0;
    var i := 0;
    NoFlags();
    assert before + FromChars(tail[..i]) == before;
    while i < |tail|
      invariant 0 <= i <= |tail|
      invariant InAlphabet(tail[..i])
      invariant lower == (lower0 || !NoLower(tail[..i])) && upper == (upper0 || !NoUpper(tail[..i]))
      invariant chk == Fold(1, before + FromChars(tail[..i]))
      invariant i <= |tail| - 6 ==> data[..i] == FromChars(tail[..i])
      invariant i > |tail| - 6 ==> data[..|tail| - 6] == FromChars(tail)[..|tail| - 6]
    {
      var c := tail[i];
      var v := SymbolOf(c);
      assert tail[..i + 1] == tail[..i] + [c];
      FlagsSnoc(tail[..i], c);
      FlagsPrefix(tail, i);
      LowerSnoc(tail[..i], c);
      if IsLower(c) {
        lower := true;
      }
      if IsUpper(c) {
        upper := true;
      }
      if v == NO_SYMBOL {
        return false, chk, lower, upper;
      }
      chk := Absorb(chk, v);
      assert before + FromChars(tail[..i + 1]) == before + FromChars(tail[..i]) + [v];
      FoldSnoc(1, before + FromChars(tail[..i]), v);
      if i + 6 < |tail| {
        data[i] := v;
      }
      i := i + 1;
      assert FromChars(tail)[..i] == FromChars(tail[..i]);
    }
    assert tail[..i] == tail;
    ok := true;
  }

  lemma MixedByParts(s: seq<byte>, sep: nat)
    requires sep < |s| && s[sep] == SEPARATOR
    ensures MixedCase(s)
            <==> (!NoLower(s[..sep]) || !NoLower(s[sep + 1..])) && (!NoUpper(s[..sep]) || !NoUpper(s[sep + 1..]))
  {
    hide IsLower, IsUpper, SEPARATOR;
    SeparatorIsNoLetter();
    var head, tail := s[..sep], s[sep + 1..];
    assert forall i :: 0 <= i < |head| ==> head[i] == s[i];
    assert forall i :: 0 <= i < |tail| ==> tail[i] == s[sep + 1 + i];
    if NoLower(head) && NoLower(tail) {
      assert forall i :: sep < i < |s| ==> s[i] == tail[i - sep - 1];
    }
    if NoUpper(head) && NoUpper(tail) {
      assert forall i :: sep < i < |s| ==> s[i] == tail[i - sep - 1];
    }
  }

  /** `bech32_decode`. On success `hrp` holds the human-readable part and its NUL, `data` the symbols. */
  method Decode(hrp: array<byte>, data: array<byte>, input: seq<byte>, maxLen: nat)
    returns (enc: Option<Encoding>, dataLen: nat)
    requires |input| <= maxLen ==> hrp.Length >= |input| - 6 && data.Length >= |input| - 8
    requires hrp != data
    modifies hrp, data
    ensures Decoded(input, maxLen).None? ==> enc == None
    ensures Decoded(input, maxLen).Some? ==>
              var p := Decoded(input, maxLen).value;
              && enc == Some(p.enc)
              && dataLen == |p.data| <= data.Length && data[..dataLen] == p.data
              && |p.hrp| < hrp.Length && hrp[..|p.hrp|] == p.hrp && hrp[|p.hrp|] == 0
  {
    hide Absorb, Fold, SEPARATOR, AllPrintable, InAlphabet, NoLower, NoUpper, MixedCase, High, Low, FinalConstant;
    hide LastIndexOf;
    dataLen := 0;
    if |input| < 8 || |input| > maxLen {
      return None, dataLen;
    }
    dataLen := CountData(input);
    if 1 + dataLen >= |input| || dataLen < 6 {
      return None, dataLen;
    }
    var hrpLen := |input| - (1 + dataLen);
    dataLen := dataLen - 6;
    var head, tail := input[..hrpLen], input[hrpLen + 1..];
    var ok, chk, lower, upper := ScanHead(hrp, head);
    if !ok {
      return None, dataLen;
    }
    hrp[hrpLen] := 0;
    LowerHrp(head);
    ghost var name := LowerAll(head);
    FoldSnoc(1, High(name), 0);
    chk := AbsorbHead(head, Absorb(chk, 0), High(name) + [0]);
    ok, chk, lower, upper := ScanTail(data, tail, chk, lower, upper, High(name) + [0] + Low(name));
    if !ok {
      return None, dataLen;
    }
    MixedByParts(input, hrpLen);
    if lower && upper {
      return None, dataLen;
    }
    if chk == FinalConstant(Bech32) {
      return Some(Bech32), dataLen;
    } else if chk == FinalConstant(Bech32m) {
      return Some(Bech32m), dataLen;
    } else {
      return None, dataLen;
    }
  }
}
