/** Segwit addresses: a witness version and program inside a bech32 or bech32m string. */
module Segwit {
  import opened Bytes
  import opened Bech32
  import R = Regroup
  import P = Polymod
  import Charset

  datatype Witness = Witness(version: int, program: seq<byte>)

  const MAX_ADDRESS: nat := 90

  predicate LegalProgram(version: int, n: nat) {
    2 <= n <= 40 && (version == 0 ==> n == 20 || n == 32)
  }

  function EncodingFor(version: int): Encoding {
    if version > 0 then Bech32m else Bech32
  }

  /** The symbols of an address: the version as one byte, then the program in groups of five bits. */
  function AddressSymbols(w: Witness): seq<byte> {
    [Octet(w.version % 256)] + R.WithPad(w.program, 8, 5)
  }

  function AddressOf(hrp: seq<byte>, w: Witness): Option<seq<byte>> {
    if w.version > 16 || !LegalProgram(w.version, |w.program|) then None
    else Encoded(hrp, AddressSymbols(w), MAX_ADDRESS, EncodingFor(w.version))
  }

  /** What `strncmp(a, b, 84) == 0` says of two C strings. */
  predicate SameUpTo84(a: seq<byte>, b: seq<byte>) {
    a[..if |a| < 84 then |a| else 84] == b[..if |b| < 84 then |b| else 84]
  }

  function WitnessOf(hrp: seq<byte>, addr: seq<byte>): Option<Witness> {
    match Decoded(addr, MAX_ADDRESS)
    case None => None
    case Some(p) =>
      if |p.data| == 0 || |p.data| > 65 || !SameUpTo84(hrp, p.hrp) then None
      else
        var version := p.data[0] as int;
        if version > 16 || p.enc != EncodingFor(version) then None
        else
          match R.WithoutPad(p.data[1..], 5, 8)
          case None => None
          case Some(program) =>
            if LegalProgram(version, |program|) then Some(Witness(version, program)) else None
  }

  // ---- Symbols ----

  lemma Widths(b: byte)
    ensures (b as int) < R.Pow2(8)
    ensures b < 32 <==> (b as int) < R.Pow2(5)
  {
    assert R.Pow2(8) == 256 && R.Pow2(5) == 32;
    ByteBelow32(b);
  }

  lemma ByteBelow32(b: byte)
    ensures b < 32 <==> (b as int) < 32
    ensures (b as int) < 256
  {
  }

  lemma BytesNarrow(xs: seq<byte>)
    ensures R.Narrow(xs, 8)
    ensures P.Symbols(xs) <==> R.Narrow(xs, 5)
  {
    hide R.Pow2;
    forall i | 0 <= i < |xs|
      ensures (xs[i] as int) < R.Pow2(8) && (xs[i] < 32 <==> (xs[i] as int) < R.Pow2(5))
    {
      Widths(xs[i]);
    }
  }

  lemma VersionByte(v: int)
    ensures Octet(v % 256) as int == v % 256
  {
    var m := v % 256;
    R.OctetNarrow(m);
  }

  /** No address has more than 65 symbols: 40 bytes make 64, and the version is one. */
  lemma SymbolCount(w: Witness)
    requires |w.program| <= 40
    ensures |AddressSymbols(w)| <= 65
  {
    hide R.Stream, R.WithPad, R.Padding;
    var ys := R.WithPad(w.program, 8, 5);
    R.PadStream(w.program, 8, 5);
    R.PaddingShape(R.Stream(w.program, 8), 5);
    R.StreamLength(w.program, 8);
    R.StreamLength(ys, 5);
  }

  lemma DecodedHrpShort(s: seq<byte>)
    requires Decoded(s, MAX_ADDRESS).Some?
    ensures |Decoded(s, MAX_ADDRESS).value.hrp| <= 83
  {
    hide Decoded;
    DecodedShape(s, MAX_ADDRESS);
  }

  lemma PrintableIsNotNul(c: byte)
    requires Charset.Printable(c)
    ensures c != 0
  {
  }

  lemma DecodedHrpNulFree(s: seq<byte>)
    requires Decoded(s, MAX_ADDRESS).Some?
    ensures var hrp := Decoded(s, MAX_ADDRESS).value.hrp;
            forall i :: 0 <= i < |hrp| ==> hrp[i] != 0
  {
    hide Decoded, Charset.Printable, Charset.ToLower;
    DecodedShape(s, MAX_ADDRESS);
    var hrp := Decoded(s, MAX_ADDRESS).value.hrp;
    LowerHrp(s[..LastIndexOf(s, Charset.SEPARATOR)]);
    forall i | 0 <= i < |hrp| ensures hrp[i] != 0 {
      PrintableIsNotNul(hrp[i]);
    }
  }

  /** The bounded comparison is equality, because a parsed human-readable part is short. */
  lemma SameIsEqual(a: seq<byte>, b: seq<byte>)
    requires |b| <= 83
    ensures SameUpTo84(a, b) <==> a == b
  {
  }

  // ---- Addresses ----

  lemma WitnessThenAddress(hrp: seq<byte>, addr: seq<byte>)
    requires WitnessOf(hrp, addr).Some?
    ensures var w := WitnessOf(hrp, addr).value;
            && hrp != [] && 0 <= w.version && !MixedCase(addr)
            && AddressOf(hrp, w) == Some(LowerAll(addr))
  {
    hide Decoded, Encoded, LowerAll, MixedCase, R.Stream, R.WithoutPad, R.WithPad, R.Narrow, P.Symbols;
    var w, p := WitnessOf(hrp, addr).value, Decoded(addr, MAX_ADDRESS).value;
    DecodedHrpShort(addr);
    SameIsEqual(hrp, p.hrp);
    DecodeThenEncode(addr, MAX_ADDRESS);
    EncodedSymbols(p.hrp, p.data, p.enc);
    var ys := p.data[1..];
    assert p.data == [p.data[0]] + ys;
    SymbolsSplit([p.data[0]], ys);
    BytesNarrow(ys);
    R.UnpadIffPadded(ys, w.program, 8, 5);
    OctetOfByte(p.data[0]);
    ByteBelow32(p.data[0]);
  }

  lemma EncodedSymbols(hrp: seq<byte>, data: seq<byte>, enc: Encoding)
    requires Encoded(hrp, data, MAX_ADDRESS, enc).Some?
    ensures P.Symbols(data)
  {
  }

  lemma AddressThenWitness(hrp: seq<byte>, addr: seq<byte>, w: Witness)
    requires hrp != [] && 0 <= w.version && !MixedCase(addr)
    requires AddressOf(hrp, w) == Some(LowerAll(addr))
    ensures WitnessOf(hrp, addr) == Some(w)
  {
    hide Decoded, Encoded, LowerAll, MixedCase, R.Stream, R.WithoutPad, R.WithPad, R.Narrow, Octet;
    var p := Parts(hrp, AddressSymbols(w), EncodingFor(w.version));
    EncodeThenDecode(addr, MAX_ADDRESS, p);
    DecodedHrpShort(addr);
    SameIsEqual(hrp, hrp);
    SymbolCount(w);
    VersionByte(w.version);
    BytesNarrow(w.program);
    assert AddressSymbols(w)[1..] == R.WithPad(w.program, 8, 5);
    R.PadThenUnpad(w.program, 8, 5);
  }

  /**
   Reading an address succeeds exactly on what writing one makes, in either case, and gives back
   the version and program it was written for.
   */
  lemma WitnessIffAddress(hrp: seq<byte>, addr: seq<byte>, w: Witness)
    ensures WitnessOf(hrp, addr) == Some(w)
            <==> hrp != [] && 0 <= w.version && !MixedCase(addr) && AddressOf(hrp, w) == Some(LowerAll(addr))
  {
    hide WitnessOf, AddressOf, LowerAll, MixedCase;
    if WitnessOf(hrp, addr) == Some(w) {
      WitnessThenAddress(hrp, addr);
    }
    if hrp != [] && 0 <= w.version && !MixedCase(addr) && AddressOf(hrp, w) == Some(LowerAll(addr)) {
      AddressThenWitness(hrp, addr, w);
    }
  }

  /**
   An address that was written reads back as written exactly when it has a human-readable part and
   the version was not negative: a negative version passes every check and is cut down to a byte.
   */
  lemma RoundTrip(hrp: seq<byte>, w: Witness)
    requires AddressOf(hrp, w).Some?
    ensures WitnessOf(hrp, AddressOf(hrp, w).value) == Some(w) <==> hrp != [] && 0 <= w.version
  {
    hide WitnessOf, LowerAll, NoUpper, Encoded;
    PrintedIsLower(hrp, AddressSymbols(w), MAX_ADDRESS, EncodingFor(w.version));
    WitnessIffAddress(hrp, AddressOf(hrp, w).value, w);
  }

  lemma VersionSymbol(w: Witness)
    ensures P.Symbols(AddressSymbols(w)) <==> w.version % 256 < 32
  {
    hide R.WithPad, R.Stream, R.Narrow, P.Symbols, Octet;
    var ys := R.WithPad(w.program, 8, 5);
    R.PadStream(w.program, 8, 5);
    BytesNarrow(ys);
    VersionByte(w.version);
    ByteBelow32(Octet(w.version % 256));
    SymbolsSplit([Octet(w.version % 256)], ys);
    OneSymbol(Octet(w.version % 256));
  }

  lemma OneSymbol(b: byte)
    ensures P.Symbols([b]) <==> b < 32
  {
    if P.Symbols([b]) {
      assert [b][0] < 32;
    }
  }

  /** One symbol for the version, and for the program as many as its bits fill, the last one padded. */
  lemma AddressLength(w: Witness)
    ensures |AddressSymbols(w)| == 1 + (8 * |w.program| + 4) / 5
  {
    hide R.Stream, R.WithPad, R.Padding;
    var ys := R.WithPad(w.program, 8, 5);
    R.PadStream(w.program, 8, 5);
    R.PaddingShape(R.Stream(w.program, 8), 5);
    R.StreamLength(w.program, 8);
    R.StreamLength(ys, 5);
  }

  /** Which witnesses are written: of the negative versions those whose low byte is a symbol. */
  lemma Writable(hrp: seq<byte>, w: Witness)
    ensures AddressOf(hrp, w).Some?
            <==> && w.version <= 16 && w.version % 256 < 32
                 && 2 <= |w.program| <= 40 && (w.version == 0 ==> |w.program| in {20, 32})
                 && AllPrintable(hrp) && NoUpper(hrp) && |hrp| + 8 + (8 * |w.program| + 4) / 5 <= 90
  {
    hide AddressSymbols, P.Symbols, AllPrintable, NoUpper, Checksum, ToChars;
    VersionSymbol(w);
    AddressLength(w);
  }

  /** An accepted address carries the bech32 constant when its version is 0, else that of bech32m (BIP-350). */
  lemma VersionChecksum(hrp: seq<byte>, addr: seq<byte>)
    requires WitnessOf(hrp, addr).Some?
    ensures var w := WitnessOf(hrp, addr).value;
            && Decoded(addr, 90).Some? && 0 <= w.version <= 16
            && Decoded(addr, 90).value.enc == (if w.version == 0 then Bech32 else Bech32m)
  {
    hide Decoded, SameUpTo84, R.WithoutPad;
    WitnessThenAddress(hrp, addr);
  }

  /** A negative multiple of 256 is written like version zero, and read back as that. */
  lemma NegativeReadsAsZero(hrp: seq<byte>, w: Witness)
    requires hrp != [] && w.version < 0 && w.version % 256 == 0 && LegalProgram(0, |w.program|)
    requires AddressOf(hrp, w).Some?
    ensures WitnessOf(hrp, AddressOf(hrp, w).value) == Some(Witness(0, w.program))
  {
    hide WitnessOf, Encoded, LowerAll, NoUpper;
    assert AddressOf(hrp, Witness(0, w.program)) == AddressOf(hrp, w);
    RoundTrip(hrp, Witness(0, w.program));
  }

  /** So the round trip does fail: version -256 with a twenty-byte program is written, and read as zero. */
  lemma NegativeVersionFails()
    ensures var hrp, w := [0x62, 0x63], Witness(-256, Zeros(20));
            && AddressOf(hrp, w).Some?
            && WitnessOf(hrp, AddressOf(hrp, w).value) == Some(Witness(0, Zeros(20))) != Some(w)
  {
    hide WitnessOf, AddressOf, AddressSymbols;
    var hrp: seq<byte>, w := [0x62, 0x63], Witness(-256, Zeros(20));
    SymbolCount(w);
    LowerLetters();
    Writable(hrp, w);
    NegativeReadsAsZero(hrp, w);
  }

  lemma LowerLetters()
    ensures AllPrintable([0x62, 0x63]) && NoUpper([0x62, 0x63])
  {
  }

  // ---- The two functions ----

  /** `segwit_addr_encode`, with its 65-symbol buffer. */
  method Encode(output: array<byte>, hrp: seq<byte>, witver: int, witprog: seq<byte>) returns (ok: bool)
    requires output.Length >= 73 + |hrp|
    modifies output
    ensures var r := AddressOf(hrp, Witness(witver, witprog));
            && (ok <==> r.Some?)
            && (ok ==> |r.value| < output.Length && output[..|r.value|] == r.value && output[|r.value|] == 0)
  {
    hide Bech32.Encoded, R.Stream, R.WithPad, R.Narrow, Octet;
    var data := new byte[65];
    var enc := Bech32;
    if witver > 16 {
      return false;
    }
    if witver == 0 && |witprog| != 20 && |witprog| != 32 {
      return false;
    }
    if |witprog| < 2 || |witprog| > 40 {
      return false;
    }
    if witver > 0 {
      enc := Bech32m;
    }
    data[0] := Octet(witver % 256);
    BytesNarrow(witprog);
    var padded, datalen := R.ConvertBits(data, 1, 5, witprog, 8, true);
    datalen := datalen + 1;
    ghost var w := Witness(witver, witprog);
    assert data[..datalen] == data[..1] + data[1..datalen] == AddressSymbols(w);
    SymbolCount(w);
    ok := Bech32.Encode(output, hrp, data[..datalen], 90, enc);
  }

  /** `segwit_addr_decode`, with its two 84-byte buffers and the caller's 40 bytes. */
  method Decode(witdata: array<byte>, hrp: seq<byte>, addr: seq<byte>) returns (ok: bool, witver: int, n: nat)
    requires witdata.Length >= 40
    modifies witdata
    ensures var r := WitnessOf(hrp, addr);
            && (ok <==> r.Some?)
            && (ok ==> witver == r.value.version && n == |r.value.program| <= 40 && witdata[..n] == r.value.program)
  {
    hide Bech32.Decoded, Bech32.Encoded, R.Stream, R.WithoutPad, R.Narrow, P.Symbols, LowerAll, MixedCase;
    witver, n := 0, 0;
    var data := new byte[84];
    var hrpActual := new byte[84];
    var enc, dataLen := Bech32.Decode(hrpActual, data, addr, 90);
    if enc.None? {
      return false, witver, n;
    }
    ghost var p := Decoded(addr, MAX_ADDRESS).value;
    DecodedHrpShort(addr);
    DecodeThenEncode(addr, MAX_ADDRESS);
    EncodedSymbols(p.hrp, p.data, p.enc);
    if dataLen == 0 || dataLen > 65 {
      return false, witver, n;
    }
    SameIsEqual(hrp, p.hrp);
    DecodedHrpNulFree(addr);
    var same := SameString(hrp, hrpActual, p.hrp);
    if !same {
      return false, witver, n;
    }
    var v := data[0];
    assert v == p.data[0];
    if v as int > 16 {
      return false, witver, n;
    }
    if v as int == 0 && enc.value != Bech32 {
      return false, witver, n;
    }
    if v as int > 0 && enc.value != Bech32m {
      return false, witver, n;
    }
    assert data[1..dataLen] == p.data[1..];
    assert p.data == [v] + p.data[1..];
    SymbolsSplit([v], p.data[1..]);
    BytesNarrow(p.data[1..]);
    ok, n := R.ConvertBits(witdata, 0, 8, data[1..dataLen], 5, false);
    if !ok {
      return;
    }
    assert witdata[0..0 + n] == witdata[..n];
    if n < 2 || n > 40 {
      return false, witver, n;
    }
    if v as int == 0 && n != 20 && n != 32 {
      return false, witver, n;
    }
    witver := v as int;
  }

  /** `strncmp(hrp, buf, 84) == 0` for a buffer that holds the string `b` and its NUL. */
  method SameString(a: seq<byte>, buf: array<byte>, ghost b: seq<byte>) returns (same: bool)
    requires |b| < buf.Length && |b| < 84 && buf[..|b|] == b && buf[|b|] == 0
    requires forall i :: 0 <= i < |b| ==> b[i] != 0
    ensures same <==> a == b
  {
    var i := 0;
    while i < |a| && buf[i] != 0 && a[i] == buf[i]
      invariant 0 <= i <= |a| && i <= |b| && a[..i] == b[..i]
    {
      assert buf[i] == b[i];
      i := i + 1;
    }
    assert i < |b| ==> buf[i] == b[i];
    same := i == |a| && buf[i] == 0;
    if same {
      assert i == |b|;
    }
  }
}
