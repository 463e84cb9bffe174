/** SHA-512: the SHA-2 shape over 64-bit words. */
module Sha512 {
  import opened Bytes
  import opened Sha2
  import opened HashStream

  type word = bv64

  /** The round constants, in round order, eight at a time. */
  const K0: seq<word> := [
    0x428a2f98d728ae22, 0x7137449123ef65cd, 0xb5c0fbcfec4d3b2f, 0xe9b5dba58189dbbc,
    0x3956c25bf348b538, 0x59f111f1b605d019, 0x923f82a4af194f9b, 0xab1c5ed5da6d8118]
  const K1: seq<word> := [
    0xd807aa98a3030242, 0x12835b0145706fbe, 0x243185be4ee4b28c, 0x550c7dc3d5ffb4e2,
    0x72be5d74f27b896f, 0x80deb1fe3b1696b1, 0x9bdc06a725c71235, 0xc19bf174cf692694]
  const K2: seq<word> := [
    0xe49b69c19ef14ad2, 0xefbe4786384f25e3, 0x0fc19dc68b8cd5b5, 0x240ca1cc77ac9c65,
    0x2de92c6f592b0275, 0x4a7484aa6ea6e483, 0x5cb0a9dcbd41fbd4, 0x76f988da831153b5]
  const K3: seq<word> := [
    0x983e5152ee66dfab, 0xa831c66d2db43210, 0xb00327c898fb213f, 0xbf597fc7beef0ee4,
    0xc6e00bf33da88fc2, 0xd5a79147930aa725, 0x06ca6351e003826f, 0x142929670a0e6e70]
  const K4: seq<word> := [
    0x27b70a8546d22ffc, 0x2e1b21385c26c926, 0x4d2c6dfc5ac42aed, 0x53380d139d95b3df,
    0x650a73548baf63de, 0x766a0abb3c77b2a8, 0x81c2c92e47edaee6, 0x92722c851482353b]
  const K5: seq<word> := [
    0xa2bfe8a14cf10364, 0xa81a664bbc423001, 0xc24b8b70d0f89791, 0xc76c51a30654be30,
    0xd192e819d6ef5218, 0xd69906245565a910, 0xf40e35855771202a, 0x106aa07032bbd1b8]
  const K6: seq<word> := [
    0x19a4c116b8d2d0c8, 0x1e376c085141ab53, 0x2748774cdf8eeb99, 0x34b0bcb5e19b48a8,
    0x391c0cb3c5c95a63, 0x4ed8aa4ae3418acb, 0x5b9cca4f7763e373, 0x682e6ff3d6b2b8a3]
  const K7: seq<word> := [
    0x748f82ee5defb2fc, 0x78a5636f43172f60, 0x84c87814a1f0ab72, 0x8cc702081a6439ec,
    0x90befffa23631e28, 0xa4506cebde82bde9, 0xbef9a3f7b2c67915, 0xc67178f2e372532b]
  const K8: seq<word> := [
    0xca273eceea26619c, 0xd186b8c721c0c207, 0xeada7dd6cde0eb1e, 0xf57d4f7fee6ed178,
    0x06f067aa72176fba, 0x0a637dc5a2c898a6, 0x113f9804bef90dae, 0x1b710b35131c471b]
  const K9: seq<word> := [
    0x28db77f523047d84, 0x32caab7b40c72493, 0x3c9ebe0a15c9bebc, 0x431d67c49c100d4c,
    0x4cc5d4becb3e42b6, 0x597f299cfc657e2a, 0x5fcb6fab3ad6faec, 0x6c44198c4a475817]

  const K: seq<word> := K0 + K1 + K2 + K3 + K4 + K5 + K6 + K7 + K8 + K9

  const INIT: seq<word> := [
    0x6a09e667f3bcc908, 0xbb67ae8584caa73b, 0x3c6ef372fe94f82b, 0xa54ff53a5f1d36f1,
    0x510e527fade682d1, 0x9b05688c2b3e6c1f, 0x1f83d9abfb41bd6b, 0x5be0cd19137e2179]

  // ---- As the code writes them ----

  function Add(x: word, y: word): word {
    x + y
  }

  function Ch(x: word, y: word, z: word): word {
    z ^ (x & (y ^ z))
  }

  function Maj(x: word, y: word, z: word): word {
    (x & y) | (z & (x | y))
  }

  function BigSigma0(x: word): word {
    ((x >> 28) | (x << 36)) ^ ((x >> 34) | (x << 30)) ^ ((x >> 39) | (x << 25))
  }

  function BigSigma1(x: word): word {
    ((x >> 14) | (x << 50)) ^ ((x >> 18) | (x << 46)) ^ ((x >> 41) | (x << 23))
  }

  function SmallSigma0(x: word): word {
    ((x >> 1) | (x << 63)) ^ ((x >> 8) | (x << 56)) ^ (x >> 7)
  }

  function SmallSigma1(x: word): word {
    ((x >> 19) | (x << 45)) ^ ((x >> 61) | (x << 3)) ^ (x >> 6)
  }

  /** Word `i` of a block, most significant byte first. */
  function Word(block: seq<byte>, i: nat): word {
    if 8 * i + 8 <= |block| then
      ((block[8 * i + 0] as bv64) << 56)
      | ((block[8 * i + 1] as bv64) << 48)
      | ((block[8 * i + 2] as bv64) << 40)
      | ((block[8 * i + 3] as bv64) << 32)
      | ((block[8 * i + 4] as bv64) << 24)
      | ((block[8 * i + 5] as bv64) << 16)
      | ((block[8 * i + 6] as bv64) << 8)
      | (block[8 * i + 7] as bv64)
    else 0
  }

  function Store(w: word): (b: seq<byte>)
    ensures |b| == 8
  {
    [((w >> 56) & 0xff) as byte, ((w >> 48) & 0xff) as byte, ((w >> 40) & 0xff) as byte, ((w >> 32) & 0xff) as byte,
     ((w >> 24) & 0xff) as byte, ((w >> 16) & 0xff) as byte, ((w >> 8) & 0xff) as byte, (w & 0xff) as byte]
  }

  // ---- Bytes and words ----

  lemma JoinedBytes(b0: byte, b1: byte, b2: byte, b3: byte, b4: byte, b5: byte, b6: byte, b7: byte)
    ensures var w: word := (b0 as bv64 << 56) | (b1 as bv64 << 48) | (b2 as bv64 << 40)
                           | (b3 as bv64 << 32) | (b4 as bv64 << 24) | (b5 as bv64 << 16)
                           | (b6 as bv64 << 8) | (b7 as bv64);
            && ((w >> 56) & 0xff) as byte == b0
            && ((w >> 48) & 0xff) as byte == b1
            && ((w >> 40) & 0xff) as byte == b2
            && ((w >> 32) & 0xff) as byte == b3
            && ((w >> 24) & 0xff) as byte == b4
            && ((w >> 16) & 0xff) as byte == b5
            && ((w >> 8) & 0xff) as byte == b6
            && (w & 0xff) as byte == b7
  {
  }

  /** A word is stored as the bytes it was read from, in their order. */
  lemma WordThenStore(block: seq<byte>, i: nat)
    requires 8 * i + 8 <= |block|
    ensures Store(Word(block, i)) == block[8 * i..8 * i + 8]
  {
    JoinedBytes(block[8 * i + 0], block[8 * i + 1], block[8 * i + 2], block[8 * i + 3],
                block[8 * i + 4], block[8 * i + 5], block[8 * i + 6], block[8 * i + 7]);
  }

  /** The byte at `8 * i` is the most significant one of word `i`, and so on down to the last. */
  lemma WordBytes(block: seq<byte>, i: nat)
    requires 8 * i + 8 <= |block|
    ensures Word(block, i) >> 56 == block[8 * i + 0] as bv64
    ensures (Word(block, i) >> 48) & 0xff == block[8 * i + 1] as bv64
    ensures (Word(block, i) >> 40) & 0xff == block[8 * i + 2] as bv64
    ensures (Word(block, i) >> 32) & 0xff == block[8 * i + 3] as bv64
    ensures (Word(block, i) >> 24) & 0xff == block[8 * i + 4] as bv64
    ensures (Word(block, i) >> 16) & 0xff == block[8 * i + 5] as bv64
    ensures (Word(block, i) >> 8) & 0xff == block[8 * i + 6] as bv64
    ensures Word(block, i) & 0xff == block[8 * i + 7] as bv64
  {
  }

  const CODE: Variant<word> := Variant(
    128, 16, 8, 8, 80, K, INIT, Add, Ch, Maj, BigSigma0, BigSigma1, SmallSigma0, SmallSigma1, Word, Store)

  // ---- As the standard writes them: FIPS 180-4, section 4.1.3 ----

  function FipsCh(x: word, y: word, z: word): word {
    (x & y) ^ (!x & z)
  }

  function FipsMaj(x: word, y: word, z: word): word {
    (x & y) ^ (x & z) ^ (y & z)
  }

  function FipsBigSigma0(x: word): word {
    x.RotateRight(28) ^ x.RotateRight(34) ^ x.RotateRight(39)
  }

  function FipsBigSigma1(x: word): word {
    x.RotateRight(14) ^ x.RotateRight(18) ^ x.RotateRight(41)
  }

  function FipsSmallSigma0(x: word): word {
    x.RotateRight(1) ^ x.RotateRight(8) ^ (x >> 7)
  }

  function FipsSmallSigma1(x: word): word {
    x.RotateRight(19) ^ x.RotateRight(61) ^ (x >> 6)
  }

  const FIPS: Variant<word> := Variant(
    128, 16, 16, 8, 80, K, INIT, Add, FipsCh, FipsMaj,
    FipsBigSigma0, FipsBigSigma1, FipsSmallSigma0, FipsSmallSigma1, Word, Store)

  lemma ChBits(x: word, y: word, z: word)
    ensures z ^ (x & (y ^ z)) == (x & y) ^ (!x & z)
  {
  }

  lemma ChIsFips(x: word, y: word, z: word)
    ensures Ch(x, y, z) == FipsCh(x, y, z)
  {
    ChBits(x, y, z);
  }

  lemma MajBits(x: word, y: word, z: word)
    ensures (x & y) | (z & (x | y)) == (x & y) ^ (x & z) ^ (y & z)
  {
  }

  lemma MajIsFips(x: word, y: word, z: word)
    ensures Maj(x, y, z) == FipsMaj(x, y, z)
  {
    MajBits(x, y, z);
  }

  lemma SigmasAreFips(x: word)
    ensures BigSigma0(x) == FipsBigSigma0(x) && BigSigma1(x) == FipsBigSigma1(x)
    ensures SmallSigma0(x) == FipsSmallSigma0(x) && SmallSigma1(x) == FipsSmallSigma1(x)
  {
  }

  lemma AddCommutes(x: word, y: word)
    ensures Add(x, y) == Add(y, x)
  {
  }

  lemma PieceSizes()
    ensures |K0| == 8 && |K1| == 8 && |K2| == 8 && |K3| == 8 && |K4| == 8
    ensures |K5| == 8 && |K6| == 8 && |K7| == 8 && |K8| == 8 && |K9| == 8
  {
  }

  lemma TableSizes()
    ensures |K| == 80 && |INIT| == 8
  {
    hide K0, K1, K2, K3, K4, K5, K6, K7, K8, K9;
    PieceSizes();
  }

  lemma Valid()
    ensures CODE.Valid() && FIPS.Valid()
  {
    hide Add, Store;
    hide K, INIT;
    TableSizes();
    forall x: word, y: word ensures Add(x, y) == Add(y, x) {
      AddCommutes(x, y);
    }
  }

  lemma SameFunctions()
    ensures SameOps(CODE, FIPS)
  {
    hide Ch, FipsCh, Maj, FipsMaj, BigSigma0, FipsBigSigma0, BigSigma1, FipsBigSigma1;
    hide SmallSigma0, FipsSmallSigma0, SmallSigma1, FipsSmallSigma1, Add, Word, Store, K, INIT;
    forall x: word, y: word, z: word
      ensures Ch(x, y, z) == FipsCh(x, y, z) && Maj(x, y, z) == FipsMaj(x, y, z)
    {
      ChIsFips(x, y, z);
      MajIsFips(x, y, z);
    }
    forall x: word
      ensures BigSigma0(x) == FipsBigSigma0(x) && BigSigma1(x) == FipsBigSigma1(x)
      ensures SmallSigma0(x) == FipsSmallSigma0(x) && SmallSigma1(x) == FipsSmallSigma1(x)
    {
      SigmasAreFips(x);
    }
  }

  /** The code's block function, schedule ring and rotating registers and all, is the standard's. */
  method TransformBlock(s: array<word>, chunk: seq<byte>)
    requires s.Length == 8
    modifies s
    ensures s[..] == Compress(FIPS, old(s[..]), chunk)
  {
    hide Compress, Variant.Valid, SameOps, CODE, FIPS;
    Constants();
    SameFunctions();
    SameCompress(CODE, FIPS, s[..], chunk);
    Transform(CODE, s, chunk);
  }

  lemma Constants()
    ensures CODE.Valid() && FIPS.Valid() && |CODE.k| == CODE.rounds && |CODE.init| == 8
    ensures |FIPS.k| == FIPS.rounds && |FIPS.init| == 8
    ensures CODE.countBytes == 8 && FIPS.countBytes == 16 && CODE.lengthBytes == 16 == FIPS.lengthBytes
    ensures CODE.blockBytes == 128 == FIPS.blockBytes
  {
    Valid();
  }

  /** The standard's digest. */
  function Hash(m: seq<byte>): seq<byte> {
    Constants();
    Digest(FIPS, m)
  }

  /** `sha512`: one message, one context. The bit count is the standard's below 2^61 bytes. */
  method OneShot(p: seq<byte>) returns (res: seq<byte>)
    ensures CODE.Valid() && res == Digest(CODE, p)
    ensures 8 * |p| < TWO_TO_64 ==> res == Hash(p)
  {
    hide Digest, Variant.Valid, SameOps, CODE, FIPS;
    Constants();
    SameFunctions();
    if 8 * |p| < TWO_TO_64 {
      SameDigest(CODE, FIPS, p);
    }
    res := HashOnce(CODE, p);
  }

  /**
   Within the standard's own limit of 2^128 bits, the code pads a message as the standard does exactly
   when it is shorter than 2^61 bytes.
   */
  lemma PaddingIsFips(m: seq<byte>)
    requires 8 * |m| < Pow256(16)
    ensures CODE.Valid() && FIPS.Valid()
    ensures Padded(CODE, m) == Padded(FIPS, m) <==> 8 * |m| < TWO_TO_64
  {
    hide Variant.Valid, CODE, FIPS, BigEndian, Pow256, PadZeros;
    Constants();
    CountsAgree(8 * |m|);
    var z := Zeros(PadZeros(FIPS, |m|));
    assert PadZeros(CODE, |m|) == PadZeros(FIPS, |m|) by {
      SameZeros(|m|);
    }
    var head := m + [0x80] + z;
    assert Padded(CODE, m)[|head|..] == Zeros(8) + BigEndian(8 * |m|, 8);
    assert Padded(FIPS, m)[|head|..] == BigEndian(8 * |m|, 16);
    assert Padded(CODE, m) == head + (Zeros(8) + BigEndian(8 * |m|, 8));
    assert Padded(FIPS, m) == head + BigEndian(8 * |m|, 16);
  }

  lemma SameZeros(n: nat)
    ensures CODE.Valid() && FIPS.Valid() && PadZeros(CODE, n) == PadZeros(FIPS, n)
  {
    hide Variant.Valid, CODE, FIPS;
    Constants();
  }

  /** For one, 2^61 zero bytes are padded otherwise than the standard says. */
  lemma LongMessageFails()
    ensures CODE.Valid() && FIPS.Valid()
    ensures Padded(CODE, Zeros(0x2000_0000_0000_0000)) != Padded(FIPS, Zeros(0x2000_0000_0000_0000))
  {
    hide Variant.Valid, CODE, FIPS, Padded;
    LongLength();
    PaddingIsFips(Zeros(0x2000_0000_0000_0000));
  }
}
