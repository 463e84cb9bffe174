/**
 Published bech32 strings, by value: "Test vectors" of BIP-173 and BIP-350.

 What is proved about printing, parsing and errors holds for any expansion of the human-readable part,
 any constants and any alphabet that both sides share; these strings say which ones they share.
 */
module Bech32Values {
  import opened Bytes
  import opened Register
  import opened Polymod
  import opened Charset
  import opened Bech32
  import Regroup
  import Segwit

  const ALPHABET: string := "qpzry9x8gf2tvdw0s3jn54khce6mua7l"

  lemma EarlierLetter(v: byte, i: nat)
    requires v < 32 && v as int == i
    ensures i < 16 ==> CharOf(v) as int == ALPHABET[i] as int
  {
  }

  lemma LaterLetter(v: byte, i: nat)
    requires v < 32 && v as int == i
    ensures 16 <= i < 32 ==> CharOf(v) as int == ALPHABET[i] as int
  {
  }

  lemma SymbolNumber(v: byte)
    ensures v < 32 <==> v as int < 32
  {
  }

  /** The alphabet as BIP-173 writes it. */
  lemma AlphabetAt(v: byte)
    requires v < 32
    ensures (v as int) < 32 && CharOf(v) as int == ALPHABET[v as int] as int
  {
    hide CharOf, ALPHABET;
    SymbolNumber(v);
    AlphabetSize();
    EarlierLetter(v, v as int);
    LaterLetter(v, v as int);
  }

  lemma AlphabetSize()
    ensures |ALPHABET| == 32
  {
  }

  /** Which characters a human-readable part may have, and which of them have case. */
  lemma CharacterClasses(c: byte)
    ensures Printable(c) <==> 33 <= c as int <= 126
    ensures IsUpper(c) <==> 'A' as int <= c as int <= 'Z' as int
    ensures IsLower(c) <==> 'a' as int <= c as int <= 'z' as int
  {
  }

  /** The registers between symbols, from the first to the last. */
  lemma {:induction false} Trace(c: seq<bv32>, vs: seq<byte>)
    requires |c| == |vs| + 1 && forall i :: 0 <= i < |vs| ==> Absorb(c[i], vs[i]) == c[i + 1]
    ensures Fold(c[0], vs) == c[|vs|]
  {
    hide Absorb;
    if vs != [] {
      var n := |vs| - 1;
      Trace(c[..n + 1], vs[..n]);
    }
  }

  lemma SixSymbols(p: bv32)
    ensures Unpack(p, 6)
            == [SymbolAt(p, 0), SymbolAt(p, 1), SymbolAt(p, 2), SymbolAt(p, 3), SymbolAt(p, 4), SymbolAt(p, 5)]
  {
    hide SymbolAt, Unpack;
    SymbolByShift(p, 0);
    SymbolByShift(p, 1);
    SymbolByShift(p, 2);
    SymbolByShift(p, 3);
    SymbolByShift(p, 4);
    SymbolByShift(p, 5);
  }

  lemma CharsAppend(xs: seq<byte>, ys: seq<byte>)
    ensures ToChars(xs + ys) == ToChars(xs) + ToChars(ys)
  {
    hide CharOf;
  }

  /** What is printed, given the six symbols of the checksum and the characters. */
  lemma Prints(hrp: seq<byte>, data: seq<byte>, enc: Encoding, sum: seq<byte>)
    requires AllPrintable(hrp) && NoUpper(hrp) && |hrp| + 7 + |data| <= 90 && Symbols(data)
    requires Checksum(hrp, data, enc) == sum
    ensures Encoded(hrp, data, 90, enc) == Some(hrp + [SEPARATOR] + (ToChars(data) + ToChars(sum)))
  {
    hide Checksum, CharOf, SEPARATOR, AllPrintable, NoUpper, Symbols;
    CharsAppend(data, sum);
  }

  lemma SixZeros()
    ensures Zeros(6) == [0, 0, 0, 0, 0, 0] && [] + Zeros(6) == [0, 0, 0, 0, 0, 0]
  {
  }

  // ---- One letter, no data ----

  const LETTER: seq<byte> := [0x61]

  lemma LetterTrace()
    ensures Fold(0x1, [3, 0, 1, 0, 0, 0, 0, 0, 0]) == 0x15ccfe9e
  {
    hide Fold;
    Trace([0x1, 0x23, 0x460, 0x8c01, 0x118020, 0x2300400, 0x3d6ad7b2, 0x2fd30b9, 0x24cc4092, 0x15ccfe9e],
          [3, 0, 1, 0, 0, 0, 0, 0, 0]);
  }

  lemma LetterResidue()
    ensures Residue(LETTER, [] + Zeros(6)) == 0x15ccfe9e
  {
    hide Fold;
    LetterTrace();
    SixZeros();
    assert High(LETTER) + [0] + Low(LETTER) + [0, 0, 0, 0, 0, 0] == [3, 0, 1, 0, 0, 0, 0, 0, 0];
  }

  lemma LetterPlain()
    ensures AllPrintable(LETTER) && NoUpper(LETTER) && Symbols([]) && ToChars([]) == []
  {
  }

  lemma LetterChecksum()
    ensures Checksum(LETTER, [], Bech32) == [10, 28, 25, 31, 20, 31]
    ensures ToChars([10, 28, 25, 31, 20, 31]) == [0x32, 0x75, 0x65, 0x6c, 0x35, 0x6c]
  {
    hide Fold, Residue, Unpack;
    LetterResidue();
    SixSymbols(0x15ccfe9f);
    assert Xor(0x15ccfe9e, FinalConstant(Bech32)) == 0x15ccfe9f;
  }

  /** `a12uel5l`, from BIP-173. */
  lemma LetterPrinted()
    ensures Encoded(LETTER, [], 90, Bech32) == Some([0x61, 0x31, 0x32, 0x75, 0x65, 0x6c, 0x35, 0x6c])
  {
    hide Checksum, ToChars, Symbols, AllPrintable, NoUpper, Encoded;
    LetterChecksum();
    LetterPlain();
    Prints(LETTER, [], Bech32, [10, 28, 25, 31, 20, 31]);
    assert LETTER + [SEPARATOR] + ([] + ToChars([10, 28, 25, 31, 20, 31]))
        == [0x61, 0x31, 0x32, 0x75, 0x65, 0x6c, 0x35, 0x6c];
  }

  lemma LetterChecksumM()
    ensures Checksum(LETTER, [], Bech32m) == [31, 0, 9, 19, 17, 29]
    ensures ToChars([31, 0, 9, 19, 17, 29]) == [0x6c, 0x71, 0x66, 0x6e, 0x33, 0x61]
  {
    hide Fold, Residue, Unpack;
    LetterResidue();
    SixSymbols(0x3e04ce3d);
    assert Xor(0x15ccfe9e, FinalConstant(Bech32m)) == 0x3e04ce3d;
  }

  /** `a1lqfn3a`, from BIP-350. */
  lemma LetterPrintedM()
    ensures Encoded(LETTER, [], 90, Bech32m) == Some([0x61, 0x31, 0x6c, 0x71, 0x66, 0x6e, 0x33, 0x61])
  {
    hide Checksum, ToChars, Symbols, AllPrintable, NoUpper, Encoded;
    LetterChecksumM();
    LetterPlain();
    Prints(LETTER, [], Bech32m, [31, 0, 9, 19, 17, 29]);
    assert LETTER + [SEPARATOR] + ([] + ToChars([31, 0, 9, 19, 17, 29]))
        == [0x61, 0x31, 0x6c, 0x71, 0x66, 0x6e, 0x33, 0x61];
  }

  // ---- Every symbol once ----

  const WHOLE: seq<byte> := [0x61, 0x62, 0x63, 0x64, 0x65, 0x66]
  const DATA_0: seq<byte> := [0, 1, 2, 3, 4, 5, 6, 7]
  const DATA_1: seq<byte> := [8, 9, 10, 11, 12, 13, 14, 15]
  const DATA_2: seq<byte> := [16, 17, 18, 19, 20, 21, 22, 23]
  const DATA_3: seq<byte> := [24, 25, 26, 27, 28, 29, 30, 31]
  const DATA: seq<byte> := DATA_0 + DATA_1 + DATA_2 + DATA_3
  const TEXT_0: seq<byte> := [0x71, 0x70, 0x7a, 0x72, 0x79, 0x39, 0x78, 0x38]
  const TEXT_1: seq<byte> := [0x67, 0x66, 0x32, 0x74, 0x76, 0x64, 0x77, 0x30]
  const TEXT_2: seq<byte> := [0x73, 0x33, 0x6a, 0x6e, 0x35, 0x34, 0x6b, 0x68]
  const TEXT_3: seq<byte> := [0x63, 0x65, 0x36, 0x6d, 0x75, 0x61, 0x37, 0x6c]
  const TEXT: seq<byte> := TEXT_0 + TEXT_1 + TEXT_2 + TEXT_3

  lemma WholeTrace()
    ensures Fold(0x1, [3, 3, 3, 3, 3, 3, 0, 1, 2, 3, 4, 5, 6]) == 0x3be80e6a
  {
    hide Fold;
    Trace([0x1, 0x23, 0x463, 0x8c63, 0x118c63, 0x2318c63, 0x3d5bdbd1, 0x4dcbcd9, 0x3dc7154c, 0x17456f7b,
           0x8d50561, 0x401b5de, 0x266635a8, 0x3be80e6a], [3, 3, 3, 3, 3, 3, 0, 1, 2, 3, 4, 5, 6]);
  }

  lemma WholeTrace0()
    ensures Fold(0x3be80e6a, DATA_0) == 0x11e88668
  {
    hide Fold;
    Trace([0x3be80e6a, 0xf9cd266, 0x30018ce4, 0x1767cdec, 0xc815781, 0x28db67b3, 0x2fd98d2c, 0x12be0710,
           0x11e88668], DATA_0);
  }

  lemma WholeTrace1()
    ensures Fold(0x11e88668, DATA_1) == 0x31223f8a
  {
    hide Fold;
    Trace([0x11e88668, 0x52fed5, 0xa5fdaa9, 0x2e301b62, 0x2f8ccedd, 0x1816793a, 0x212c0d6a, 0xf95cffd,
           0x31223f8a], DATA_1);
  }

  lemma WholeTrace2()
    ensures Fold(0x31223f8a, DATA_2) == 0x297c48e0
  {
    hide Fold;
    Trace([0x31223f8a, 0x3311a03e, 0xe08010d, 0x29be197, 0x28166541, 0x3679d37d, 0x556e704, 0xc8c6efb,
           0x297c48e0], DATA_2);
  }

  lemma WholeTrace3()
    ensures Fold(0x297c48e0, DATA_3) == 0x1a0d3656
  {
    hide Fold;
    Trace([0x297c48e0, 0x1b3c6751, 0x3f0597ac, 0x347f64d1, 0x3eea4538, 0x9853657, 0x2e07d307, 0x2975c268,
           0x1a0d3656], DATA_3);
  }

  lemma WholeTraceEnd()
    ensures Fold(0x1a0d3656, [0, 0, 0, 0, 0, 0]) == 0x360000cf
  {
    hide Fold;
    Trace([0x1a0d3656, 0x192fb755, 0x615c087, 0x1f82c93f, 0xe80d418, 0x13814325, 0x360000cf], [0, 0, 0, 0, 0, 0]);
  }

  lemma DataTrace()
    ensures Fold(0x3be80e6a, DATA + [0, 0, 0, 0, 0, 0]) == 0x360000cf
  {
    hide Fold, DATA_0, DATA_1, DATA_2, DATA_3;
    WholeTrace0();
    WholeTrace1();
    WholeTrace2();
    WholeTrace3();
    WholeTraceEnd();
    var z: seq<byte> := [0, 0, 0, 0, 0, 0];
    assert DATA + z == DATA_0 + (DATA_1 + (DATA_2 + (DATA_3 + z)));
    FoldAppend(0x3be80e6a, DATA_0, DATA_1 + (DATA_2 + (DATA_3 + z)));
    FoldAppend(0x11e88668, DATA_1, DATA_2 + (DATA_3 + z));
    FoldAppend(0x31223f8a, DATA_2, DATA_3 + z);
    FoldAppend(0x297c48e0, DATA_3, z);
  }

  lemma WholeExpanded()
    ensures High(WHOLE) + [0] + Low(WHOLE) == [3, 3, 3, 3, 3, 3, 0, 1, 2, 3, 4, 5, 6]
  {
  }

  lemma WholeResidue()
    ensures Residue(WHOLE, DATA + Zeros(6)) == 0x360000cf
  {
    hide Fold, High, Low, WHOLE, DATA;
    WholeTrace();
    DataTrace();
    WholeExpanded();
    SixZeros();
    FoldAppend(1, [3, 3, 3, 3, 3, 3, 0, 1, 2, 3, 4, 5, 6], DATA + [0, 0, 0, 0, 0, 0]);
  }

  lemma WholeChecksum()
    ensures Checksum(WHOLE, DATA, Bech32) == [27, 0, 0, 0, 6, 14]
    ensures ToChars([27, 0, 0, 0, 6, 14]) == [0x6d, 0x71, 0x71, 0x71, 0x78, 0x77]
  {
    hide Fold, Residue, Unpack;
    WholeResidue();
    SixSymbols(0x360000ce);
    assert Xor(0x360000cf, FinalConstant(Bech32)) == 0x360000ce;
  }

  lemma Piece0()
    ensures ToChars(DATA_0) == TEXT_0 && Symbols(DATA_0) && |DATA_0| == 8
  {
  }

  lemma Piece1()
    ensures ToChars(DATA_1) == TEXT_1 && Symbols(DATA_1) && |DATA_1| == 8
  {
  }

  lemma Piece2()
    ensures ToChars(DATA_2) == TEXT_2 && Symbols(DATA_2) && |DATA_2| == 8
  {
  }

  lemma Piece3()
    ensures ToChars(DATA_3) == TEXT_3 && Symbols(DATA_3) && |DATA_3| == 8
  {
  }

  lemma Pieces()
    ensures ToChars(DATA) == TEXT && Symbols(DATA) && |DATA| == 32
  {
    hide ToChars, Symbols, DATA_0, DATA_1, DATA_2, DATA_3, TEXT_0, TEXT_1, TEXT_2, TEXT_3;
    Piece0();
    Piece1();
    Piece2();
    Piece3();
    CharsAppend(DATA_0, DATA_1);
    CharsAppend(DATA_0 + DATA_1, DATA_2);
    CharsAppend(DATA_0 + DATA_1 + DATA_2, DATA_3);
    SymbolsSplit(DATA_0, DATA_1);
    SymbolsSplit(DATA_0 + DATA_1, DATA_2);
    SymbolsSplit(DATA_0 + DATA_1 + DATA_2, DATA_3);
  }

  lemma WholePlain()
    ensures AllPrintable(WHOLE) && NoUpper(WHOLE) && |WHOLE| == 6
  {
  }

  /** `abcdef1qpzry9x8gf2tvdw0s3jn54khce6mua7lmqqqxw`, from BIP-173. */
  lemma WholePrinted()
    ensures Encoded(WHOLE, DATA, 90, Bech32)
            == Some(WHOLE + [SEPARATOR] + TEXT + [0x6d, 0x71, 0x71, 0x71, 0x78, 0x77])
  {
    hide Checksum, ToChars, Symbols, AllPrintable, NoUpper, Encoded, WHOLE, DATA, TEXT;
    WholeChecksum();
    WholePlain();
    Pieces();
    Prints(WHOLE, DATA, Bech32, [27, 0, 0, 0, 6, 14]);
    assert WHOLE + [SEPARATOR] + (TEXT + [0x6d, 0x71, 0x71, 0x71, 0x78, 0x77])
        == WHOLE + [SEPARATOR] + TEXT + [0x6d, 0x71, 0x71, 0x71, 0x78, 0x77];
  }

  // ---- The parser ----

  /** A printed string, and any single-case form of it, parses to what was printed. */
  lemma Parses(s: seq<byte>, out: seq<byte>, hrp: seq<byte>, data: seq<byte>, enc: Encoding)
    requires Encoded(hrp, data, 90, enc) == Some(out) && LowerAll(s) == out && !MixedCase(s) && hrp != []
    ensures Decoded(s, 90) == Some(Parts(hrp, data, enc))
  {
    hide Encoded, Decoded, LowerAll, MixedCase;
    DecodeIffEncode(s, 90, Parts(hrp, data, enc));
  }

  /** `A12UEL5L` and `A1LQFN3A`, each with its own checksum constant. */
  lemma UpperParsed()
    ensures Decoded([0x41, 0x31, 0x32, 0x55, 0x45, 0x4c, 0x35, 0x4c], 90) == Some(Parts([0x61], [], Bech32))
    ensures Decoded([0x41, 0x31, 0x4c, 0x51, 0x46, 0x4e, 0x33, 0x41], 90) == Some(Parts([0x61], [], Bech32m))
  {
    hide Encoded, Decoded;
    LetterPrinted();
    LetterPrintedM();
    var s: seq<byte>, t: seq<byte> := [0x41, 0x31, 0x32, 0x55, 0x45, 0x4c, 0x35, 0x4c],
      [0x41, 0x31, 0x4c, 0x51, 0x46, 0x4e, 0x33, 0x41];
    Parses(s, [0x61, 0x31, 0x32, 0x75, 0x65, 0x6c, 0x35, 0x6c], LETTER, [], Bech32);
    Parses(t, [0x61, 0x31, 0x6c, 0x71, 0x66, 0x6e, 0x33, 0x61], LETTER, [], Bech32m);
  }

  // ---- An address ----

  const MAINNET: seq<byte> := [0x62, 0x63]

  lemma AddressTrace()
    ensures Fold(0x1, [3, 3, 0, 2, 3, 16, 14, 20, 15, 0, 0, 0, 0, 0, 0, 0]) == 0x3b191a31
  {
    hide Fold;
    Trace([0x1, 0x23, 0x463, 0x8c60, 0x118c02, 0x2318043, 0x3d5a5fc2, 0x4ec3eb7, 0x3bd75899, 0x8760c09,
           0x106098da, 0x3151289d, 0x3d7342ce, 0x1cf9f39, 0x39f3e720, 0x378bac94, 0x3b191a31],
          [3, 3, 0, 2, 3, 16, 14, 20, 15, 0, 0, 0, 0, 0, 0, 0]);
  }

  lemma AddressResidue()
    ensures Residue(MAINNET, [16, 14, 20, 15, 0] + Zeros(6)) == 0x3b191a31
  {
    hide Fold;
    AddressTrace();
    SixZeros();
    assert High(MAINNET) + [0] + Low(MAINNET) + ([16, 14, 20, 15, 0] + [0, 0, 0, 0, 0, 0])
        == [3, 3, 0, 2, 3, 16, 14, 20, 15, 0, 0, 0, 0, 0, 0, 0];
  }

  lemma AddressChecksum()
    ensures Checksum(MAINNET, [16, 14, 20, 15, 0], Bech32m) == [8, 13, 2, 10, 20, 18]
    ensures ToChars([8, 13, 2, 10, 20, 18]) == [0x67, 0x64, 0x7a, 0x32, 0x35, 0x6a]
  {
    hide Fold, Residue, Unpack;
    AddressResidue();
    SixSymbols(0x10d12a92);
    assert Xor(0x3b191a31, FinalConstant(Bech32m)) == 0x10d12a92;
  }

  lemma AddressPlain()
    ensures AllPrintable(MAINNET) && NoUpper(MAINNET) && Symbols([16, 14, 20, 15, 0])
    ensures ToChars([16, 14, 20, 15, 0]) == [0x73, 0x77, 0x35, 0x30, 0x71]
  {
  }

  lemma AddressPrinted()
    ensures Encoded(MAINNET, [16, 14, 20, 15, 0], 90, Bech32m)
            == Some([0x62, 0x63, 0x31, 0x73, 0x77, 0x35, 0x30, 0x71, 0x67, 0x64, 0x7a, 0x32, 0x35, 0x6a])
  {
    hide Checksum, ToChars, Symbols, AllPrintable, NoUpper, Encoded;
    AddressChecksum();
    AddressPlain();
    Prints(MAINNET, [16, 14, 20, 15, 0], Bech32m, [8, 13, 2, 10, 20, 18]);
    assert MAINNET + [SEPARATOR] + ([0x73, 0x77, 0x35, 0x30, 0x71] + ToChars([8, 13, 2, 10, 20, 18]))
        == [0x62, 0x63, 0x31, 0x73, 0x77, 0x35, 0x30, 0x71, 0x67, 0x64, 0x7a, 0x32, 0x35, 0x6a];
  }
  lemma ProgramBits()
    ensures Regroup.BitsOf(0x75, 8) == [false, true, true, true, false, true, false, true]
    ensures Regroup.BitsOf(0x1e, 8) == [false, false, false, true, true, true, true, false]
  {
  }

  const PROGRAM_BITS: seq<bool> := [
    false, true, true, true, false, true, false, true,
    false, false, false, true, true, true, true, false]

  lemma ProgramStream()
    ensures Regroup.Stream([0x75, 0x1e], 8) == PROGRAM_BITS
  {
    hide Regroup.BitsOf;
    ProgramBits();
    assert [0x75, 0x1e][..1] == [0x75] && [0x75][..0] == [];
    assert Regroup.Stream([], 8) == [];
  }

  lemma FrontGroups()
    ensures Regroup.BitsOf(14, 5) == [false, true, true, true, false]
    ensures Regroup.BitsOf(20, 5) == [true, false, true, false, false]
  {
  }

  lemma BackGroups()
    ensures Regroup.BitsOf(15, 5) == [false, true, true, true, true]
    ensures Regroup.BitsOf(0, 5) == [false, false, false, false, false]
  {
  }

  lemma ChopFive(b: seq<bool>, v: nat, x: byte)
    requires |b| >= 5 && b[..5] == Regroup.BitsOf(v, 5) && x as int == v < 32
    ensures Regroup.Chop(b, 5) == [x] + Regroup.Chop(b[5..], 5)
  {
    hide Octet, Regroup.ValueOf, Regroup.BitsOf;
    assert Regroup.Pow2(5) == 32;
    Regroup.BitsValue(v, 5);
    OctetOfByte(x);
  }

  lemma ProgramPadding()
    ensures Regroup.Padding(PROGRAM_BITS, 5) == [false, false, false, false]
  {
    hide PROGRAM_BITS;
    var b := PROGRAM_BITS;
    assert |b| == 16 && b[15] == false by { LastBit(); }
    assert b[5..][5..][5..] == [b[15]];
    assert Regroup.Leftover(b, 5) == Regroup.Leftover(b[5..], 5) == Regroup.Leftover(b[5..][5..], 5)
        == Regroup.Leftover([b[15]], 5) == [b[15]];
  }

  lemma LastBit()
    ensures |PROGRAM_BITS| == 16 && PROGRAM_BITS[15] == false
  {
  }

  /** Two bytes in groups of five bits: 01110 10100 01111 0, and four zeros behind. */
  lemma ProgramRegrouped()
    ensures Regroup.WithPad([0x75, 0x1e], 8, 5) == [14, 20, 15, 0]
  {
    hide Octet, Regroup.Stream, Regroup.Chop, Regroup.Padding, Regroup.BitsOf;
    ProgramStream();
    ProgramPadding();
    var b := PROGRAM_BITS + [false, false, false, false];
    FrontGroups();
    BackGroups();
    ChopFive(b, 14, 14);
    ChopFive(b[5..], 20, 20);
    ChopFive(b[10..], 15, 15);
    ChopFive(b[15..], 0, 0);
    assert b[5..][5..] == b[10..] && b[10..][5..] == b[15..];
    ChopNothing();
    assert b[15..][5..] == [];
  }

  lemma ChopNothing()
    ensures Regroup.Chop([], 5) == []
  {
  }

  lemma AddressSymbolsAre()
    ensures Segwit.AddressSymbols(Segwit.Witness(16, [0x75, 0x1e])) == [16, 14, 20, 15, 0]
  {
    hide Octet, Regroup.WithPad;
    ProgramRegrouped();
    OctetOfByte(16);
    assert [16] + [14, 20, 15, 0] == [16, 14, 20, 15, 0];
  }

  /** `bc1sw50qgdz25j`, from BIP-350: version 16 and a two-byte program, printed and read. */
  lemma AddressBothWays()
    ensures var a: seq<byte> := [0x62, 0x63, 0x31, 0x73, 0x77, 0x35, 0x30, 0x71, 0x67, 0x64, 0x7a, 0x32, 0x35, 0x6a];
            && Segwit.AddressOf(MAINNET, Segwit.Witness(16, [0x75, 0x1e])) == Some(a)
            && Segwit.WitnessOf(MAINNET, a) == Some(Segwit.Witness(16, [0x75, 0x1e]))
  {
    hide Encoded, Segwit.WitnessOf, Segwit.AddressSymbols;
    AddressSymbolsAre();
    AddressPrinted();
    Segwit.RoundTrip(MAINNET, Segwit.Witness(16, [0x75, 0x1e]));
  }
}
