/**
 HMAC over a SHA-2 hash: `hmac.c`.

 `Mac` is RFC 2104, section 2. The code keeps one block: the key, then the key xor ipad, which
 is hashed, and then, by a second xor in place, the key xor opad.
 */
module Hmac {
  import opened Bytes
  import opened Sha2
  import opened HashStream
  import Sha256
  import Sha512

  const IPAD: byte := 0x36
  const OPAD: byte := 0x5c

  // ---- RFC 2104 ----

  function XorByte(b: byte, pad: byte): byte {
    b ^ pad
  }

  function XorAll(k: seq<byte>, pad: byte): (r: seq<byte>)
    ensures |r| == |k|
  {
    seq(|k|, i requires 0 <= i < |k| => XorByte(k[i], pad))
  }

  /** The key brought to one block: hashed when longer, then zeros to the end. */
  function BlockKey<W(!new)>(v: Variant<W>, key: seq<byte>): seq<byte>
    requires v.countBytes <= v.lengthBytes && v.lengthBytes + 1 < v.blockBytes
    requires |v.init| == 8 && |v.k| == v.rounds
  {
    var k := if |key| > v.blockBytes then Digest(v, key) else key;
    k + Zeros(if |k| <= v.blockBytes then v.blockBytes - |k| else 0)
  }

  function Mac<W(!new)>(v: Variant<W>, key: seq<byte>, text: seq<byte>): seq<byte>
    requires v.countBytes <= v.lengthBytes && v.lengthBytes + 1 < v.blockBytes
    requires |v.init| == 8 && |v.k| == v.rounds
  {
    var k := BlockKey(v, key);
    Digest(v, XorAll(k, OPAD) + Digest(v, XorAll(k, IPAD) + text))
  }

  lemma DigestLength<W(!new)>(v: Variant<W>, m: seq<byte>)
    requires v.Valid()
    ensures |Digest(v, m)| == 8 * v.wordBytes <= v.blockBytes
  {
    hide HashBlocks, Padded, StoreAll;
    StoreLength(v, HashBlocks(v, Padded(v, m)));
  }

  lemma BlockKeyLength<W(!new)>(v: Variant<W>, key: seq<byte>)
    requires v.Valid()
    ensures |BlockKey(v, key)| == v.blockBytes
  {
    hide Digest;
    DigestLength(v, key);
  }

  // ---- The code ----

  lemma XorTwice(b: byte)
    ensures XorByte(XorByte(b, IPAD), IPAD ^ OPAD) == XorByte(b, OPAD)
  {
    assert (b ^ 0x36) ^ (0x36 ^ 0x5c) == b ^ 0x5c;
  }

  lemma XorAllTwice(k: seq<byte>)
    ensures XorAll(XorAll(k, IPAD), IPAD ^ OPAD) == XorAll(k, OPAD)
  {
    hide XorByte, IPAD, OPAD;
    forall i | 0 <= i < |k| ensures XorAll(XorAll(k, IPAD), IPAD ^ OPAD)[i] == XorAll(k, OPAD)[i] {
      XorTwice(k[i]);
    }
  }

  /** `xor_block_256` and `xor_block_512`, byte by byte. */
  method XorBlock(block: array<byte>, pad: byte)
    modifies block
    ensures block[..] == XorAll(old(block[..]), pad)
  {
    hide XorByte;
    var i := 0;
    while i < block.Length
      invariant 0 <= i <= block.Length
      invariant forall j :: 0 <= j < i ==> block[j] == XorByte(old(block[j]), pad)
      invariant forall j :: i <= j < block.Length ==> block[j] == old(block[j])
    {
      block[i] := XorByte(block[i], pad);
      i := i + 1;
    }
  }

  /** `struct hmac_sha256_ctx` and `struct hmac_sha512_ctx`. */
  class HmacContext<W(!new)> {
    const sha: Context<W>
    const k_opad: array<byte>
    ghost var key: seq<byte>
    ghost var text: seq<byte>

    ghost predicate Shape()
      reads this, sha
    {
      sha.Shape() && k_opad.Length == sha.v.blockBytes && k_opad != sha.buf && sha.s as object != k_opad
    }

    ghost predicate Valid()
      reads this, sha, sha.s, sha.buf, k_opad
    {
      && Shape() && sha.Valid()
      && k_opad[..] == XorAll(BlockKey(sha.v, key), OPAD)
      && sha.msg == XorAll(BlockKey(sha.v, key), IPAD) + text
    }

    /** Memory for a context, nothing more. */
    constructor (v: Variant<W>)
      requires v.Valid() && v.countBytes == 8
      ensures Shape() && sha.v == v && fresh(sha) && fresh(sha.s) && fresh(sha.buf) && fresh(k_opad)
    {
      sha := new Context(v);
      k_opad := new byte[v.blockBytes];
    }

    /** The key, or its digest when it is longer than a block, and zeros after it. */
    method LoadKey(k: seq<byte>)
      requires Shape()
      modifies k_opad
      ensures k_opad[..] == BlockKey(sha.v, k)
    {
      hide Digest, Absorbed;
      var v := sha.v;
      var k' := k;
      if |k| > v.blockBytes {
        k' := HashOnce(v, k);
        DigestLength(v, k);
      }
      var n := v.blockBytes - |k'|;
      CopyInto(k_opad, 0, k');
      assert k_opad[..|k'|] == k_opad[0..|k'|] == k';
      CopyInto(k_opad, |k'|, Zeros(n));
      assert k_opad[|k'|..] == k_opad[|k'|..|k'| + n] == Zeros(n);
      assert k_opad[..] == k_opad[..|k'|] + k_opad[|k'|..];
    }

    /** `init`: the key block, xor ipad into the hash, then in place to xor opad. */
    method Init(k: seq<byte>)
      requires Shape()
      modifies this, k_opad, sha`bytes, sha`msg, sha.s, sha.buf
      ensures Valid() && key == k && text == []
    {
      hide Digest, Absorbed, XorAll, IPAD, OPAD, BlockKey;
      ghost var v := sha.v;
      LoadKey(k);
      ghost var block := BlockKey(v, k);
      BlockKeyLength(v, k);
      XorBlock(k_opad, IPAD);
      sha.Init();
      sha.Update(k_opad[..]);
      assert [] + XorAll(block, IPAD) == XorAll(block, IPAD) + [];
      XorAllTwice(block);
      XorBlock(k_opad, IPAD ^ OPAD);
      key, text := k, [];
    }

    /** `update` */
    method Update(p: seq<byte>)
      requires Valid() && sha.bytes != INVALID
      modifies this`text, sha`bytes, sha`msg, sha.s, sha.buf
      ensures Valid() && key == old(key) && text == old(text) + p
    {
      hide Digest, Absorbed, XorAll, BlockKey;
      sha.Update(p);
      text := text + p;
      assert XorAll(BlockKey(sha.v, key), IPAD) + text == old(sha.msg) + p;
    }

    /** `done`: the inner digest, hashed again after the key xor opad. */
    method Done() returns (mac: seq<byte>)
      requires Valid() && sha.v.blockBytes < INVALID
      modifies sha`bytes, sha`msg, sha.s, sha.buf
      ensures mac == Mac(sha.v, old(key), old(text)) && Shape()
    {
      hide Digest, Absorbed, XorAll, BlockKey;
      ghost var outer := k_opad[..];
      BlockKeyLength(sha.v, key);
      var inner := sha.Done();
      DigestLength(sha.v, old(sha.msg));
      sha.Init();
      sha.Update(k_opad[..]);
      sha.Update(inner);
      assert [] + outer + inner == outer + inner;
      mac := sha.Done();
    }
  }

  /** The one-shot form. */
  method MacOnce<W(!new)>(v: Variant<W>, k: seq<byte>, d: seq<byte>) returns (mac: seq<byte>)
    requires v.Valid() && v.countBytes == 8 && v.blockBytes < INVALID
    ensures mac == Mac(v, k, d)
  {
    hide Mac, Digest, Absorbed, XorAll, BlockKey;
    var ctx := new HmacContext(v);
    ctx.Init(k);
    BlockKeyLength(v, k);
    ctx.Update(d);
    assert [] + d == d;
    mac := ctx.Done();
  }

  /** All lengths that a MAC hashes are counted alike. */
  predicate SameCounts<W(!new)>(v: Variant<W>, u: Variant<W>, key: nat, text: nat) {
    && SameCount(v, u, key) && SameCount(v, u, v.blockBytes + text) && SameCount(v, u, 2 * v.blockBytes)
  }

  lemma ShorterCount<W(!new)>(v: Variant<W>, u: Variant<W>, n: nat, m: nat)
    requires SameCount(v, u, m) && n <= m
    ensures SameCount(v, u, n)
  {
  }

  lemma SameMac<W(!new)>(v: Variant<W>, u: Variant<W>, key: seq<byte>, text: seq<byte>)
    requires v.Valid() && u.Valid() && SameOps(v, u) && SameCounts(v, u, |key|, |text|)
    ensures Mac(v, key, text) == Mac(u, key, text)
  {
    hide Digest, XorAll, SameOps, BlockKey, SameCount;
    SameBlockKey(v, u, key);
    BlockKeyLength(v, key);
    var k := BlockKey(v, key);
    var inner := Digest(v, XorAll(k, IPAD) + text);
    SameDigest(v, u, XorAll(k, IPAD) + text);
    DigestLength(v, XorAll(k, IPAD) + text);
    ShorterCount(v, u, |XorAll(k, OPAD) + inner|, 2 * v.blockBytes);
    SameDigest(v, u, XorAll(k, OPAD) + inner);
  }

  lemma SameBlockKey<W(!new)>(v: Variant<W>, u: Variant<W>, key: seq<byte>)
    requires v.Valid() && u.Valid() && SameOps(v, u) && SameCount(v, u, |key|)
    ensures BlockKey(v, key) == BlockKey(u, key)
  {
    hide Digest;
    SameDigest(v, u, key);
  }

  // ---- With the two hashes ----

  function MacSha256(key: seq<byte>, text: seq<byte>): seq<byte> {
    Sha256.Constants();
    Mac(Sha256.FIPS, key, text)
  }

  function MacSha512(key: seq<byte>, text: seq<byte>): seq<byte> {
    Sha512.Constants();
    Mac(Sha512.FIPS, key, text)
  }

  lemma BlocksAreShort()
    ensures Sha256.CODE.blockBytes == 64 && Sha256.FIPS.blockBytes == 64
    ensures Sha256.CODE.wordBytes == 4 && Sha256.FIPS.wordBytes == 4
    ensures Sha512.CODE.blockBytes == 128 && Sha512.CODE.wordBytes == 8
    ensures Sha512.FIPS.blockBytes == 128 && Sha512.FIPS.wordBytes == 8
  {
  }

  /** Byte `j` of a key brought to one block. */
  function KeyByte(k: seq<byte>, j: nat): byte {
    if j < |k| then k[j] else 0
  }

  lemma BlockKeyBytes<W(!new)>(v: Variant<W>, key: seq<byte>, j: nat)
    requires v.Valid() && j < v.blockBytes
    ensures |BlockKey(v, key)| == v.blockBytes
    ensures BlockKey(v, key)[j] == KeyByte(if |key| > v.blockBytes then Digest(v, key) else key, j)
  {
    hide Digest;
    BlockKeyLength(v, key);
  }

  lemma PadBytesAre(k: seq<byte>, pad: byte, p: seq<byte>)
    requires |p| == |k| && forall j :: 0 <= j < |k| ==> p[j] == XorByte(k[j], pad)
    ensures XorAll(k, pad) == p
  {
    hide XorByte;
  }

  lemma PadValues(b: byte)
    ensures XorByte(b, IPAD) == b ^ 0x36 && XorByte(b, OPAD) == b ^ 0x5c
  {
  }

  /**
   RFC 2104 over SHA-256 in bytes: `i` and `o` are the key, hashed when longer than 64 bytes and then
   followed by zeros, with 0x36 and with 0x5c.
   */
  lemma Sha256Mac(key: seq<byte>, text: seq<byte>, i: seq<byte>, o: seq<byte>)
    requires |i| == 64 && |o| == 64
    requires var k := if |key| > 64 then Sha256.Hash(key) else key;
             forall j :: 0 <= j < 64 ==> i[j] == KeyByte(k, j) ^ 0x36 && o[j] == KeyByte(k, j) ^ 0x5c
    ensures MacSha256(key, text) == Sha256.Hash(o + Sha256.Hash(i + text))
  {
    hide Digest, XorAll, XorByte, IPAD, OPAD, BlockKey, KeyByte, Variant.Valid, Sha256.FIPS;
    Sha256.Constants();
    BlocksAreShort();
    var v := Sha256.FIPS;
    BlockKeyLength(v, key);
    forall j | 0 <= j < 64
      ensures i[j] == XorByte(BlockKey(v, key)[j], IPAD) && o[j] == XorByte(BlockKey(v, key)[j], OPAD)
    {
      BlockKeyBytes(v, key, j);
      PadValues(BlockKey(v, key)[j]);
    }
    PadBytesAre(BlockKey(v, key), IPAD, i);
    PadBytesAre(BlockKey(v, key), OPAD, o);
  }

  /**
   RFC 2104 over SHA-512 in bytes: `i` and `o` are the key, hashed when longer than 128 bytes and then
   followed by zeros, with 0x36 and with 0x5c.
   */
  lemma Sha512Mac(key: seq<byte>, text: seq<byte>, i: seq<byte>, o: seq<byte>)
    requires |i| == 128 && |o| == 128
    requires var k := if |key| > 128 then Sha512.Hash(key) else key;
             forall j :: 0 <= j < 128 ==> i[j] == KeyByte(k, j) ^ 0x36 && o[j] == KeyByte(k, j) ^ 0x5c
    ensures MacSha512(key, text) == Sha512.Hash(o + Sha512.Hash(i + text))
  {
    hide Digest, XorAll, XorByte, IPAD, OPAD, BlockKey, KeyByte, Variant.Valid, Sha512.FIPS;
    Sha512.Constants();
    BlocksAreShort();
    var v := Sha512.FIPS;
    BlockKeyLength(v, key);
    forall j | 0 <= j < 128
      ensures i[j] == XorByte(BlockKey(v, key)[j], IPAD) && o[j] == XorByte(BlockKey(v, key)[j], OPAD)
    {
      BlockKeyBytes(v, key, j);
      PadValues(BlockKey(v, key)[j]);
    }
    PadBytesAre(BlockKey(v, key), IPAD, i);
    PadBytesAre(BlockKey(v, key), OPAD, o);
  }

  /** `hmac_sha256` */
  method HmacSha256(k: seq<byte>, d: seq<byte>) returns (mac: seq<byte>)
    ensures mac == MacSha256(k, d)
  {
    hide Mac, Variant.Valid, SameOps, Sha256.CODE, Sha256.FIPS;
    Sha256.Constants();
    Sha256.SameFunctions();
    BlocksAreShort();
    SameMac(Sha256.CODE, Sha256.FIPS, k, d);
    mac := MacOnce(Sha256.CODE, k, d);
  }

  /** `hmac_sha512`. As for the hash, the bit counts are the standard's below 2^61 bytes. */
  method HmacSha512(k: seq<byte>, d: seq<byte>) returns (mac: seq<byte>)
    ensures Sha512.CODE.Valid() && mac == Mac(Sha512.CODE, k, d)
    ensures 8 * |k| < TWO_TO_64 && 8 * (128 + |d|) < TWO_TO_64 ==> mac == MacSha512(k, d)
  {
    hide Mac, Variant.Valid, SameOps, Sha512.CODE, Sha512.FIPS;
    Sha512.Constants();
    Sha512.SameFunctions();
    if 8 * |k| < TWO_TO_64 && 8 * (128 + |d|) < TWO_TO_64 {
      SameMac(Sha512.CODE, Sha512.FIPS, k, d);
    }
    mac := MacOnce(Sha512.CODE, k, d);
  }

  lemma MacSha256Length(key: seq<byte>, text: seq<byte>)
    ensures |MacSha256(key, text)| == 32
  {
    hide Digest, BlockKey, Variant.Valid, Sha256.FIPS;
    Sha256.Constants();
    BlocksAreShort();
    var k := BlockKey(Sha256.FIPS, key);
    DigestLength(Sha256.FIPS, XorAll(k, OPAD) + Digest(Sha256.FIPS, XorAll(k, IPAD) + text));
  }
}
