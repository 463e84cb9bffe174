/** SHA-256: the SHA-2 shape over 32-bit words. */
module Sha256 {
  import opened Bytes
  import opened Sha2
  import opened HashStream

  type word = bv32

  /** The round constants, in round order, eight at a time. */
  const K0: seq<word> := [
    0x428a2f98, 0x71374491, 0xb5c0fbcf, 0xe9b5dba5, 0x3956c25b, 0x59f111f1, 0x923f82a4, 0xab1c5ed5]
  const K1: seq<word> := [
    0xd807aa98, 0x12835b01, 0x243185be, 0x550c7dc3, 0x72be5d74, 0x80deb1fe, 0x9bdc06a7, 0xc19bf174]
  const K2: seq<word> := [
    0xe49b69c1, 0xefbe4786, 0x0fc19dc6, 0x240ca1cc, 0x2de92c6f, 0x4a7484aa, 0x5cb0a9dc, 0x76f988da]
  const K3: seq<word> := [
    0x983e5152, 0xa831c66d, 0xb00327c8, 0xbf597fc7, 0xc6e00bf3, 0xd5a79147, 0x06ca6351, 0x14292967]
  const K4: seq<word> := [
    0x27b70a85, 0x2e1b2138, 0x4d2c6dfc, 0x53380d13, 0x650a7354, 0x766a0abb, 0x81c2c92e, 0x92722c85]
  const K5: seq<word> := [
    0xa2bfe8a1, 0xa81a664b, 0xc24b8b70, 0xc76c51a3, 0xd192e819, 0xd6990624, 0xf40e3585, 0x106aa070]
  const K6: seq<word> := [
    0x19a4c116, 0x1e376c08, 0x2748774c, 0x34b0bcb5, 0x391c0cb3, 0x4ed8aa4a, 0x5b9cca4f, 0x682e6ff3]
  const K7: seq<word> := [
    0x748f82ee, 0x78a5636f, 0x84c87814, 0x8cc70208, 0x90befffa, 0xa4506ceb, 0xbef9a3f7, 0xc67178f2]

  const K: seq<word> := K0 + K1 + K2 + K3 + K4 + K5 + K6 + K7

  const INIT: seq<word> := [
    0x6a09e667, 0xbb67ae85, 0x3c6ef372, 0xa54ff53a,
    0x510e527f, 0x9b05688c, 0x1f83d9ab, 0x5be0cd19]

  // ---- As the code writes them ----

  function Add(x: word, y: word): word {
    x + y
  }

  function Ch(x: word, y: word, z: word): word {
    z ^ (x & (y ^ z))
  }

  function Maj(x: word, y: word, z: word): word {
    (x & y) | (z & (x | y))
  }

  function BigSigma0(x: word): word {
    ((x >> 2) | (x << 30)) ^ ((x >> 13) | (x << 19)) ^ ((x >> 22) | (x << 10))
  }

  function BigSigma1(x: word): word {
    ((x >> 6) | (x << 26)) ^ ((x >> 11) | (x << 21)) ^ ((x >> 25) | (x << 7))
  }

  function SmallSigma0(x: word): word {
    ((x >> 7) | (x << 25)) ^ ((x >> 18) | (x << 14)) ^ (x >> 3)
  }

  function SmallSigma1(x: word): word {
    ((x >> 17) | (x << 15)) ^ ((x >> 19) | (x << 13)) ^ (x >> 10)
  }

  /** Word `i` of a block, most significant byte first. */
  function Word(block: seq<byte>, i: nat): word {
    if 4 * i + 4 <= |block| then
      ((block[4 * i + 0] as bv32) << 24)
      | ((block[4 * i + 1] as bv32) << 16)
      | ((block[4 * i + 2] as bv32) << 8)
      | (block[4 * i + 3] as bv32)
    else 0
  }

  function Store(w: word): (b: seq<byte>)
    ensures |b| == 4
  {
    [((w >> 24) & 0xff) as byte, ((w >> 16) & 0xff) as byte, ((w >> 8) & 0xff) as byte, (w & 0xff) as byte]
  }

  // ---- Bytes and words ----

  lemma JoinedBytes(b0: byte, b1: byte, b2: byte, b3: byte)
    ensures var w: word := (b0 as bv32 << 24) | (b1 as bv32 << 16) | (b2 as bv32 << 8) | (b3 as bv32);
            && ((w >> 24) & 0xff) as byte == b0
            && ((w >> 16) & 0xff) as byte == b1
            && ((w >> 8) & 0xff) as byte == b2
            && (w & 0xff) as byte == b3
  {
  }

  /** A word is stored as the bytes it was read from, in their order. */
  lemma WordThenStore(block: seq<byte>, i: nat)
    requires 4 * i + 4 <= |block|
    ensures Store(Word(block, i)) == block[4 * i..4 * i + 4]
  {
    JoinedBytes(block[4 * i + 0], block[4 * i + 1], block[4 * i + 2], block[4 * i + 3]);
  }

  /** The byte at `4 * i` is the most significant one of word `i`, and so on down to the last. */
  lemma WordBytes(block: seq<byte>, i: nat)
    requires 4 * i + 4 <= |block|
    ensures Word(block, i) >> 24 == block[4 * i + 0] as bv32
    ensures (Word(block, i) >> 16) & 0xff == block[4 * i + 1] as bv32
    ensures (Word(block, i) >> 8) & 0xff == block[4 * i + 2] as bv32
    ensures Word(block, i) & 0xff == block[4 * i + 3] as bv32
  {
  }

  const CODE: Variant<word> := Variant(
    64, 8, 8, 4, 64, K, INIT, Add, Ch, Maj, BigSigma0, BigSigma1, SmallSigma0, SmallSigma1, Word, Store)

  // ---- As the standard writes them: FIPS 180-4, section 4.1.2 ----

  function FipsCh(x: word, y: word, z: word): word {
    (x & y) ^ (!x & z)
  }

  function FipsMaj(x: word, y: word, z: word): word {
    (x & y) ^ (x & z) ^ (y & z)
  }

  function FipsBigSigma0(x: word): word {
    x.RotateRight(2) ^ x.RotateRight(13) ^ x.RotateRight(22)
  }

  function FipsBigSigma1(x: word): word {
    x.RotateRight(6) ^ x.RotateRight(11) ^ x.RotateRight(25)
  }

  function FipsSmallSigma0(x: word): word {
    x.RotateRight(7) ^ x.RotateRight(18) ^ (x >> 3)
  }

  function FipsSmallSigma1(x: word): word {
    x.RotateRight(17) ^ x.RotateRight(19) ^ (x >> 10)
  }

  const FIPS: Variant<word> := Variant(
    64, 8, 8, 4, 64, K, INIT, Add, FipsCh, FipsMaj,
    FipsBigSigma0, FipsBigSigma1, FipsSmallSigma0, FipsSmallSigma1, Word, Store)

  lemma ChBits(x: word, y: word, z: word)
    ensures z ^ (x & (y ^ z)) == (x & y) ^ (!x & z)
  {
  }

  lemma ChIsFips(x: word, y: word, z: word)
    ensures Ch(x, y, z) == FipsCh(x, y, z)
  {
    ChBits(x, y, z);
  }

  lemma MajBits(x: word, y: word, z: word)
    ensures (x & y) | (z & (x | y)) == (x & y) ^ (x & z) ^ (y & z)
  {
  }

  lemma MajIsFips(x: word, y: word, z: word)
    ensures Maj(x, y, z) == FipsMaj(x, y, z)
  {
    MajBits(x, y, z);
  }

  lemma SigmasAreFips(x: word)
    ensures BigSigma0(x) == FipsBigSigma0(x) && BigSigma1(x) == FipsBigSigma1(x)
    ensures SmallSigma0(x) == FipsSmallSigma0(x) && SmallSigma1(x) == FipsSmallSigma1(x)
  {
  }

  lemma AddCommutes(x: word, y: word)
    ensures Add(x, y) == Add(y, x)
  {
  }

  lemma PieceSizes()
    ensures |K0| == 8 && |K1| == 8 && |K2| == 8 && |K3| == 8 && |K4| == 8
    ensures |K5| == 8 && |K6| == 8 && |K7| == 8
  {
  }

  lemma TableSizes()
    ensures |K| == 64 && |INIT| == 8
  {
    hide K0, K1, K2, K3, K4, K5, K6, K7;
    PieceSizes();
  }

  lemma Valid()
    ensures CODE.Valid() && FIPS.Valid()
  {
    hide Add, Store;
    hide K, INIT;
    TableSizes();
    forall x: word, y: word ensures Add(x, y) == Add(y, x) {
      AddCommutes(x, y);
    }
  }

  lemma SameFunctions()
    ensures SameOps(CODE, FIPS)
  {
    hide Ch, FipsCh, Maj, FipsMaj, BigSigma0, FipsBigSigma0, BigSigma1, FipsBigSigma1;
    hide SmallSigma0, FipsSmallSigma0, SmallSigma1, FipsSmallSigma1, Add, Word, Store, K, INIT;
    forall x: word, y: word, z: word
      ensures Ch(x, y, z) == FipsCh(x, y, z) && Maj(x, y, z) == FipsMaj(x, y, z)
    {
      ChIsFips(x, y, z);
      MajIsFips(x, y, z);
    }
    forall x: word
      ensures BigSigma0(x) == FipsBigSigma0(x) && BigSigma1(x) == FipsBigSigma1(x)
      ensures SmallSigma0(x) == FipsSmallSigma0(x) && SmallSigma1(x) == FipsSmallSigma1(x)
    {
      SigmasAreFips(x);
    }
  }

  /** The code's block function, schedule ring and rotating registers and all, is the standard's. */
  method TransformBlock(s: array<word>, chunk: seq<byte>)
    requires s.Length == 8
    modifies s
    ensures s[..] == Compress(FIPS, old(s[..]), chunk)
  {
    hide Compress, Variant.Valid, SameOps, CODE, FIPS;
    Constants();
    SameFunctions();
    SameCompress(CODE, FIPS, s[..], chunk);
    Transform(CODE, s, chunk);
  }

  lemma Constants()
    ensures CODE.Valid() && FIPS.Valid() && |CODE.k| == CODE.rounds && |CODE.init| == 8
    ensures |FIPS.k| == FIPS.rounds && |FIPS.init| == 8
    ensures CODE.countBytes == 8 == FIPS.countBytes
  {
    Valid();
  }

  /** The standard's digest. */
  function Hash(m: seq<byte>): seq<byte> {
    Constants();
    Digest(FIPS, m)
  }

  /** `sha256`: one message, one context. */
  method OneShot(p: seq<byte>) returns (res: seq<byte>)
    ensures res == Hash(p)
  {
    hide Digest, Variant.Valid, SameOps, CODE, FIPS;
    Constants();
    SameFunctions();
    SameDigest(CODE, FIPS, p);
    res := HashOnce(CODE, p);
  }
}
