/** HKDF over HMAC-SHA-256: `hkdf.c` against RFC 5869. */
module Hkdf {
  import opened Bytes
  import opened HashStream
  import opened Hmac
  import opened Sha2
  import Sha256

  const HASH_LEN: nat := 32

  // ---- RFC 5869 ----

  /** T(n) of section 2.3. */
  function T(prk: seq<byte>, info: seq<byte>, n: nat): seq<byte> {
    if n == 0 then [] else MacSha256(prk, T(prk, info, n - 1) + info + [Octet(n)])
  }

  /** T(1) | T(2) | ... | T(n). */
  function Joined(prk: seq<byte>, info: seq<byte>, n: nat): seq<byte> {
    if n == 0 then [] else Joined(prk, info, n - 1) + T(prk, info, n)
  }

  /** The first `len` octets of the blocks they need. */
  function Expand(prk: seq<byte>, info: seq<byte>, len: nat): (okm: seq<byte>)
    ensures |okm| == len
  {
    JoinedLength(prk, info, (len + 31) / 32);
    Joined(prk, info, (len + 31) / 32)[..len]
  }

  /** Section 2.2, then section 2.3. */
  function Derive(salt: seq<byte>, ikm: seq<byte>, info: seq<byte>, len: nat): (okm: seq<byte>)
    ensures |okm| == len
  {
    Expand(MacSha256(salt, ikm), info, len)
  }

  lemma {:induction false} JoinedLength(prk: seq<byte>, info: seq<byte>, n: nat)
    ensures |Joined(prk, info, n)| == 32 * n
  {
    hide MacSha256;
    if n > 0 {
      JoinedLength(prk, info, n - 1);
      MacSha256Length(prk, T(prk, info, n - 1) + info + [Octet(n)]);
    }
  }

  // ---- The code ----

  lemma TLength(prk: seq<byte>, info: seq<byte>, n: nat)
    ensures |T(prk, info, n)| == if n == 0 then 0 else 32
  {
    hide MacSha256;
    if n > 0 {
      MacSha256Length(prk, T(prk, info, n - 1) + info + [Octet(n)]);
    }
  }

  /** One turn of init, update with the previous block, the info and the counter, and done. */
  method NextBlock(ctx: HmacContext<Sha256.word>, prk: seq<byte>, previous: seq<byte>, info: seq<byte>, c: byte)
    returns (t: seq<byte>)
    requires ctx.Shape() && ctx.sha.v == Sha256.CODE
    requires |prk| == 32 && |previous| <= 32 && 96 + |info| < INVALID
    modifies ctx, ctx.k_opad, ctx.sha`bytes, ctx.sha`msg, ctx.sha.s, ctx.sha.buf
    ensures ctx.Shape() && t == MacSha256(prk, previous + info + [c])
  {
    hide Mac, Digest, Absorbed, XorAll, BlockKey, SameOps, Sha256.CODE, Sha256.FIPS;
    Sha256.Constants();
    Sha256.SameFunctions();
    BlocksAreShort();
    SameMac(Sha256.CODE, Sha256.FIPS, prk, previous + info + [c]);
    BlockKeyLength(Sha256.CODE, prk);
    ctx.Init(prk);
    ctx.Update(previous);
    ctx.Update(info);
    ctx.Update([c]);
    assert [] + previous + info + [c] == previous + info + [c];
    t := ctx.Done();
  }

  /** Append `t` to the first `at` bytes, inside the `size` bytes the caller asked for. */
  method Append(okm: array<byte>, at: nat, t: seq<byte>, size: nat)
    requires at + |t| <= size <= okm.Length
    modifies okm
    ensures okm[..at + |t|] == old(okm[..at]) + t && okm[size..] == old(okm[size..])
  {
    CopyInto(okm, at, t);
    assert okm[..at + |t|] == okm[..at] + okm[at..at + |t|];
    assert okm[size..] == okm[at + |t|..][size - at - |t|..];
    assert old(okm[size..]) == old(okm[at + |t|..][size - at - |t|..]);
  }

  /** `hkdf_sha256`. The one-byte counter cannot wrap: the length stops it at 255. */
  method HkdfSha256(okm: array<byte>, size: nat, salt: seq<byte>, ikm: seq<byte>, info: seq<byte>)
    requires size <= okm.Length && size < 255 * HASH_LEN
    requires 96 + |info| < INVALID
    modifies okm
    ensures okm[..size] == Derive(salt, ikm, info, size)
    ensures okm[size..] == old(okm[size..])
  {
    hide MacSha256, T, Joined, Expand, Octet, HmacContext.Shape, Sha256.CODE;
    var prk := HmacSha256(salt, ikm);
    MacSha256Length(salt, ikm);
    Sha256.Constants();
    var ctx := new HmacContext(Sha256.CODE);
    var c: nat := 1;
    var t := NextBlock(ctx, prk, [], info, Octet(c));
    FirstBlock(prk, info);
    var at: nat, left: nat := 0, size;
    while left > HASH_LEN
      invariant at == 32 * (c - 1) && at + left == size && 1 <= c <= 255
      invariant fresh(ctx) && fresh(ctx.k_opad) && fresh(ctx.sha) && fresh(ctx.sha.s) && fresh(ctx.sha.buf)
      invariant ctx.Shape() && ctx.sha.v == Sha256.CODE
      invariant t == T(prk, info, c) && |t| == 32
      invariant okm[..at] == Joined(prk, info, c - 1) && okm[size..] == old(okm[size..])
      invariant left > 0 || size == 0
      decreases left
    {
      Append(okm, at, t, size);
      JoinedStep(prk, info, c);
      at := at + HASH_LEN;
      left := left - HASH_LEN;
      c := (c + 1) % 256;
      t := NextBlock(ctx, prk, t, info, Octet(c));
      TStep(prk, info, c);
    }
    Append(okm, at, t[..left], size);
    LastBlock(prk, info, c, left, size);
  }

  lemma FirstBlock(prk: seq<byte>, info: seq<byte>)
    ensures T(prk, info, 1) == MacSha256(prk, [] + info + [Octet(1)]) && |T(prk, info, 1)| == 32
    ensures Joined(prk, info, 0) == []
  {
    hide MacSha256;
    TLength(prk, info, 1);
    assert T(prk, info, 0) == [];
  }

  lemma TStep(prk: seq<byte>, info: seq<byte>, n: nat)
    requires n > 0
    ensures T(prk, info, n) == MacSha256(prk, T(prk, info, n - 1) + info + [Octet(n)])
    ensures |T(prk, info, n)| == 32
  {
    hide MacSha256;
    TLength(prk, info, n);
  }

  lemma JoinedStep(prk: seq<byte>, info: seq<byte>, n: nat)
    requires n > 0
    ensures Joined(prk, info, n) == Joined(prk, info, n - 1) + T(prk, info, n)
  {
    hide MacSha256;
  }

  /** The output ends inside the last block computed. */
  lemma LastBlock(prk: seq<byte>, info: seq<byte>, c: nat, left: nat, size: nat)
    requires c > 0 && left <= 32 && 32 * (c - 1) + left == size && (left > 0 || size == 0)
    requires |T(prk, info, c)| == 32
    ensures Expand(prk, info, size) == Joined(prk, info, c - 1) + T(prk, info, c)[..left]
  {
    hide MacSha256, T, Joined;
    JoinedLength(prk, info, c - 1);
    if size > 0 {
      assert (size + 31) / 32 == c;
      JoinedStep(prk, info, c);
    }
  }

  /** No salt is the same as a salt of HashLen zeros, as section 2.2 asks. */
  lemma NoSaltIsZeros(ikm: seq<byte>, info: seq<byte>, len: nat)
    ensures Derive([], ikm, info, len) == Derive(Zeros(HASH_LEN), ikm, info, len)
  {
    hide Expand, Digest, Sha256.FIPS, Sha2.Variant.Valid;
    Sha256.Constants();
    BlocksAreShort();
    var b := Sha256.FIPS.blockBytes;
    assert [] + Zeros(b) == Zeros(HASH_LEN) + Zeros(b - HASH_LEN);
  }

  // ---- The same, through HMAC alone ----

  /** Block `i` of a longer output, counting from 1: the first one, or the one after a whole block. */
  lemma DeriveBlocks(salt: seq<byte>, ikm: seq<byte>, info: seq<byte>, len: nat, i: nat)
    requires 1 <= i && 32 * i <= len
    ensures var okm, prk := Derive(salt, ikm, info, len), MacSha256(salt, ikm);
            okm[32 * i - 32..32 * i]
            == MacSha256(prk, (if i == 1 then [] else okm[32 * i - 64..32 * i - 32]) + info + [Octet(i)])
  {
    hide MacSha256, T, Joined, Octet;
    var prk, n := MacSha256(salt, ikm), (len + 31) / 32;
    JoinedLength(prk, info, n);
    BlockAt(prk, info, n, i);
    TStep(prk, info, i);
    if i == 1 {
      FirstBlock(prk, info);
      assert [] + info + [Octet(1)] == info + [Octet(1)];
    } else {
      BlockAt(prk, info, n, i - 1);
      var j := Joined(prk, info, n);
      assert j[..len][32 * i - 64..32 * i - 32] == j[32 * i - 64..32 * i - 32];
    }
    assert Joined(prk, info, n)[..len][32 * i - 32..32 * i] == Joined(prk, info, n)[32 * i - 32..32 * i];
  }

  lemma {:induction false} BlockAt(prk: seq<byte>, info: seq<byte>, n: nat, i: nat)
    requires 1 <= i <= n
    ensures |Joined(prk, info, n)| == 32 * n && Joined(prk, info, n)[32 * i - 32..32 * i] == T(prk, info, i)
  {
    hide MacSha256, T, Joined;
    JoinedLength(prk, info, n);
    JoinedLength(prk, info, n - 1);
    JoinedStep(prk, info, n);
    if i < n {
      BlockAt(prk, info, n - 1, i);
    }
  }

  /** The last, partial block is the front of the block that would come there. */
  lemma DerivePrefix(salt: seq<byte>, ikm: seq<byte>, info: seq<byte>, len: nat, more: nat)
    requires len <= more
    ensures Derive(salt, ikm, info, len) == Derive(salt, ikm, info, more)[..len]
  {
    hide MacSha256, T, Joined;
    var prk := MacSha256(salt, ikm);
    var m, n := (len + 31) / 32, (more + 31) / 32;
    JoinedPrefix(prk, info, m, n);
    JoinedLength(prk, info, m);
    JoinedLength(prk, info, n);
  }

  lemma {:induction false} JoinedPrefix(prk: seq<byte>, info: seq<byte>, m: nat, n: nat)
    requires m <= n
    ensures Joined(prk, info, m) <= Joined(prk, info, n)
  {
    hide MacSha256, T, Joined;
    if m < n {
      JoinedPrefix(prk, info, m, n - 1);
      JoinedStep(prk, info, n);
    }
  }

  lemma OctetOne()
    ensures Octet(1) == 1 && Octet(2) == 2
  {
    OctetOfByte(1);
    OctetOfByte(2);
  }

  /** Thirty-two octets: one MAC under the MAC of the key material. */
  lemma DeriveOnce(salt: seq<byte>, ikm: seq<byte>, info: seq<byte>)
    ensures Derive(salt, ikm, info, 32) == MacSha256(MacSha256(salt, ikm), info + [1])
  {
    hide MacSha256, Derive, Octet;
    var okm := Derive(salt, ikm, info, 32);
    DeriveBlocks(salt, ikm, info, 32, 1);
    WholeSlice(okm, info);
  }

  lemma WholeSlice(okm: seq<byte>, info: seq<byte>)
    requires |okm| == 32
    ensures okm[32 * 1 - 32..32 * 1] == okm && [] + info + [Octet(1)] == info + [1]
  {
    hide Octet;
    OctetOne();
    assert [] + info == info;
  }

  /** Sixty-four octets without info: that MAC, and one over it. */
  lemma DeriveTwice(salt: seq<byte>, ikm: seq<byte>)
    ensures var okm, prk := Derive(salt, ikm, [], 64), MacSha256(salt, ikm);
            okm[..32] == MacSha256(prk, [1]) && okm[32..] == MacSha256(prk, okm[..32] + [2])
  {
    hide MacSha256, Derive, Octet;
    var okm := Derive(salt, ikm, [], 64);
    DeriveBlocks(salt, ikm, [], 64, 1);
    DeriveBlocks(salt, ikm, [], 64, 2);
    OctetOne();
    assert [] + [] + [Octet(1)] == [1];
    assert okm[0..32] == okm[..32] && okm[32..64] == okm[32..];
    assert okm[..32] + [] + [Octet(2)] == okm[..32] + [2];
  }
}
