/**
 Streaming a message through a SHA-2 block function: the contexts of `sha256.c` and `sha512.c`.

 `Digest` is FIPS 180-4: pad the whole message (sections 5.1.1 and 5.1.2), then compress block
 after block. `Context` never sees the whole message: it keeps one partial block in a buffer.
 */
module HashStream {
  import opened Arithmetic
  import opened Bytes
  import opened Sha2

  // ---- FIPS 180-4 ----

  /** The state after the blocks of `m`, a whole number of them. */
  function HashBlocks<W(!new)>(v: Variant<W>, m: seq<byte>): (s: seq<W>)
    requires v.blockBytes > 0 && |v.init| == 8 && |v.k| == v.rounds
    ensures |s| == 8
    decreases |m|
  {
    if |m| < v.blockBytes then v.init
    else
      var n := |m| - v.blockBytes;
      Compress(v, HashBlocks(v, m[..n]), m[n..])
  }

  /** Zero bytes between the 0x80 byte and the length of a message of `n` bytes. */
  function PadZeros<W(!new)>(v: Variant<W>, n: nat): nat
    requires v.lengthBytes + 1 < v.blockBytes
  {
    var t := n % v.blockBytes;
    if t + 1 + v.lengthBytes <= v.blockBytes then v.blockBytes - 1 - v.lengthBytes - t
    else 2 * v.blockBytes - 1 - v.lengthBytes - t
  }

  function Padded<W(!new)>(v: Variant<W>, m: seq<byte>): seq<byte>
    requires v.countBytes <= v.lengthBytes && v.lengthBytes + 1 < v.blockBytes
  {
    m + [0x80] + Zeros(PadZeros(v, |m|)) + BitCount(v, |m|)
  }

  /** How many bits `n` bytes have, in the last bytes of the length field. */
  function BitCount<W(!new)>(v: Variant<W>, n: nat): (b: seq<byte>)
    requires v.countBytes <= v.lengthBytes
    ensures |b| == v.lengthBytes
  {
    Zeros(v.lengthBytes - v.countBytes) + BigEndian(8 * n, v.countBytes)
  }

  function StoreAll<W(!new)>(v: Variant<W>, ws: seq<W>): seq<byte> {
    if ws == [] then [] else StoreAll(v, ws[..|ws| - 1]) + v.store(ws[|ws| - 1])
  }

  function Digest<W(!new)>(v: Variant<W>, m: seq<byte>): seq<byte>
    requires v.countBytes <= v.lengthBytes && v.lengthBytes + 1 < v.blockBytes
    requires |v.init| == 8 && |v.k| == v.rounds
  {
    StoreAll(v, HashBlocks(v, Padded(v, m)))
  }

  /** The padding reaches the next block boundary that leaves room for the length, and no further. */
  lemma PadZerosLeast<W(!new)>(v: Variant<W>, n: nat, z: nat)
    requires v.Valid()
    ensures (n + 1 + PadZeros(v, n) + v.lengthBytes) % v.blockBytes == 0
    ensures z < PadZeros(v, n) ==> (n + 1 + z + v.lengthBytes) % v.blockBytes != 0
  {
    var b, t, l := v.blockBytes, n % v.blockBytes, v.lengthBytes;
    if t + 1 + l <= b {
      ModAdd(n, b - t, b);
      if z < PadZeros(v, n) {
        ModAdd(n, 1 + z + l, b);
      }
    } else {
      ModAdd(n, b - t, b);
      ModAdd(n + (b - t), b, b);
      if z < PadZeros(v, n) {
        ModAdd(n + (b - t), 1 + z + l - (b - t), b);
      }
    }
  }

  // ---- The length field ----

  /** The eight-byte length after as many zero bytes as the field is longer, as `done` builds it. */
  function LengthField<W(!new)>(v: Variant<W>, bytes: nat): seq<byte>
    requires v.lengthBytes >= 8
  {
    Zeros(v.lengthBytes - 8) + BigEndian((8 * bytes) % TWO_TO_64, 8)
  }

  lemma OctetZero()
    ensures Octet(0) == 0
  {
    OctetOfByte(0);
  }

  lemma {:induction false} BigEndianZero(len: nat)
    ensures BigEndian(0, len) == Zeros(len)
  {
    hide Octet;
    if len > 0 {
      BigEndianZero(len - 1);
      OctetZero();
    }
  }

  lemma {:induction false} BigEndianShort(n: nat, extra: nat, len: nat)
    requires n < Pow256(len)
    ensures BigEndian(n, extra + len) == Zeros(extra) + BigEndian(n, len)
  {
    hide Octet;
    if len == 0 {
      BigEndianZero(extra);
      assert BigEndian(n, len) == [];
    } else {
      BigEndianShort(n / 256, extra, len - 1);
    }
  }

  lemma Pow256Of8()
    ensures Pow256(8) == TWO_TO_64
  {
    assert Pow256(4) == 0x1_0000_0000;
  }

  /** The truncated count and the standard's sixteen bytes agree exactly as long as 64 bits suffice. */
  lemma CountsAgree(n: nat)
    requires n < Pow256(16)
    ensures Zeros(8) + BigEndian(n, 8) == BigEndian(n, 16) <==> n < TWO_TO_64
  {
    hide BigEndian, Pow256;
    Pow256Of8();
    if n < TWO_TO_64 {
      BigEndianShort(n, 8, 8);
    } else if Zeros(8) + BigEndian(n, 8) == BigEndian(n, 16) {
      var low := n % TWO_TO_64;
      BigEndianMod(n, 8);
      BigEndianShort(low, 8, 8);
      TwoHalves();
      BigEndianInjective(n, low, 16);
    }
  }

  lemma TwoHalves()
    ensures Pow256(16) >= TWO_TO_64
  {
    Pow256Of8();
    assert Pow256(12) >= Pow256(8);
  }

  /** A message this long: its bit count no longer fits 64 bits. */
  lemma LongLength()
    ensures TWO_TO_64 <= 8 * 0x2000_0000_0000_0000 < Pow256(16)
  {
    Pow256Of8();
    assert Pow256(9) == 256 * Pow256(8);
    assert Pow256(12) >= Pow256(9);
  }

  lemma {:induction false} BigEndianInjective(x: nat, y: nat, len: nat)
    requires x < Pow256(len) && y < Pow256(len) && BigEndian(x, len) == BigEndian(y, len)
    ensures x == y
  {
    hide Octet;
    if len > 0 {
      var b := BigEndian(x, len);
      OctetValue(x);
      OctetValue(y);
      assert b[..len - 1] == BigEndian(x / 256, len - 1) == BigEndian(y / 256, len - 1);
      assert b[len - 1] == Octet(x) == Octet(y);
      BigEndianInjective(x / 256, y / 256, len - 1);
    }
  }

  /** A number's last `len` bytes are those of its remainder. */
  lemma {:induction false} BigEndianMod(n: nat, len: nat)
    ensures BigEndian(n % Pow256(len), len) == BigEndian(n, len)
  {
    hide Octet;
    if len > 0 {
      var m := n % Pow256(len);
      BigEndianMod(n / 256, len - 1);
      DigitMod(n, Pow256(len - 1));
      assert Octet(m) == Octet(n) by {
        SameOctet(m, n);
      }
    }
  }

  lemma SameOctet(m: nat, n: nat)
    requires m % 256 == n % 256
    ensures Octet(m) == Octet(n)
  {
  }

  /** The last digit and the others of a remainder. */
  lemma DigitMod(n: nat, p: nat)
    requires p > 0
    ensures (n % (256 * p)) / 256 == (n / 256) % p && (n % (256 * p)) % 256 == n % 256
  {
    var hi, low := n / 256, n % 256;
    var q, r := hi / p, hi % p;
    Euclid(n, 256);
    Euclid(hi, p);
    assert 256 * (q * p) == q * (256 * p);
    ModUnique(n, q, 256 * r + low, 256 * p);
    ModUnique(256 * r + low, r, low, 256);
    Euclid(256 * r + low, 256);
  }

  /** Below 2^61 bytes the 64-bit shift loses nothing and the field is the standard's. */
  lemma LengthFieldIsFips<W(!new)>(v: Variant<W>, bytes: nat)
    requires v.lengthBytes >= 8 && 8 * bytes < TWO_TO_64
    ensures LengthField(v, bytes) == BigEndian(8 * bytes, v.lengthBytes)
  {
    hide BigEndian;
    Pow256Of8();
    BigEndianShort(8 * bytes, v.lengthBytes - 8, 8);
  }

  /** The 64-bit shift keeps what the length field counts. */
  lemma LengthFieldIsCount<W(!new)>(v: Variant<W>, bytes: nat)
    requires v.countBytes == 8 <= v.lengthBytes
    ensures LengthField(v, bytes) == BitCount(v, bytes)
  {
    hide BigEndian;
    Pow256Of8();
    BigEndianMod(8 * bytes, 8);
  }

  /** The bytes `done` adds first: 0x80, then zeros up to the length field. */
  function PadBytes<W(!new)>(v: Variant<W>, bytes: nat): nat
    requires v.lengthBytes + 1 < v.blockBytes
  {
    1 + (2 * v.blockBytes - v.lengthBytes - bytes % v.blockBytes - 1) % v.blockBytes
  }

  lemma PadBytesAreFips<W(!new)>(v: Variant<W>, n: nat)
    requires v.Valid()
    ensures PadBytes(v, n) == 1 + PadZeros(v, n) <= v.blockBytes
  {
    var b, l, t := v.blockBytes, v.lengthBytes, n % v.blockBytes;
    var x: nat := 2 * b - l - t - 1;
    if x >= b {
      ModUnique(x, 1, x - b, b);
    } else {
      ModUnique(x, 0, x, b);
    }
  }

  // ---- The context ----

  lemma HashOneMore<W(!new)>(v: Variant<W>, m: seq<byte>, block: seq<byte>)
    requires v.Valid() && |block| == v.blockBytes
    ensures HashBlocks(v, m + block) == Compress(v, HashBlocks(v, m), block)
  {
    assert (m + block)[..|m|] == m && (m + block)[|m|..] == block;
  }

  /** `s` is the state after the full blocks of `m`, and `tail` the bytes after them. */
  ghost predicate Absorbed<W(!new)>(v: Variant<W>, m: seq<byte>, s: seq<W>, tail: seq<byte>)
    requires v.Valid()
  {
    var t := |m| % v.blockBytes;
    |m| >= t && s == HashBlocks(v, m[..|m| - t]) && tail == m[|m| - t..]
  }

  lemma AbsorbNothing<W(!new)>(v: Variant<W>)
    requires v.Valid()
    ensures Absorbed(v, [], v.init, [])
  {
    ModUnique(0, 0, 0, v.blockBytes);
  }

  /** Bytes that do not fill the block only lengthen the tail. */
  lemma AbsorbShort<W(!new)>(v: Variant<W>, m: seq<byte>, s: seq<W>, tail: seq<byte>, more: seq<byte>)
    requires v.Valid() && Absorbed(v, m, s, tail) && |tail| + |more| < v.blockBytes
    ensures Absorbed(v, m + more, s, tail + more)
  {
    hide HashBlocks;
    ModAdd(|m|, |more|, v.blockBytes);
    var n := |m| - |tail|;
    assert (m + more)[..n] == m[..n];
    assert (m + more)[n..] == m[n..] + more;
  }

  /** Bytes that fill it exactly are compressed with the tail. */
  lemma AbsorbBlock<W(!new)>(v: Variant<W>, m: seq<byte>, s: seq<W>, tail: seq<byte>, more: seq<byte>)
    requires v.Valid() && Absorbed(v, m, s, tail) && |tail| + |more| == v.blockBytes
    ensures |s| == 8 && Absorbed(v, m + more, Compress(v, s, tail + more), [])
  {
    hide HashBlocks, Compress;
    ModAdd(|m|, |more|, v.blockBytes);
    var n := |m| - |tail|;
    HashOneMore(v, m[..n], tail + more);
    assert m[..n] + (tail + more) == m + more;
    assert (m + more)[..|m + more|] == m + more;
    assert (m + more)[|m + more|..] == [];
  }

  /** What `bytes` holds once a context is finished, the largest `size_t`. */
  const INVALID: nat := 0xffff_ffff_ffff_ffff

  /** `struct sha256_ctx` and `struct sha512_ctx`; `msg` is all that was added so far. */
  class Context<W(!new)> {
    const v: Variant<W>
    const s: array<W>
    const buf: array<byte>
    var bytes: nat
    ghost var msg: seq<byte>

    ghost predicate Shape()
      reads this
    {
      v.Valid() && v.countBytes == 8 && s.Length == 8 && buf.Length == v.blockBytes && s as object != buf
    }

    ghost predicate Valid()
      reads this, s, buf
    {
      && Shape() && bytes == |msg|
      && Absorbed(v, msg, s[..], buf[..bytes % v.blockBytes])
    }

    constructor (v: Variant<W>)
      requires v.Valid() && v.countBytes == 8
      ensures Valid() && msg == [] && this.v == v && fresh(s) && fresh(buf)
    {
      this.v := v;
      s := new W[8](i requires 0 <= i < 8 => v.init[i]);
      buf := new byte[v.blockBytes];
      bytes, msg := 0, [];
      new;
      ModUnique(0, 0, 0, v.blockBytes);
      assert s[..] == v.init;
      assert buf[..0] == [];
      AbsorbNothing(v);
    }

    /** `sha256_init` on a context that was used before. */
    method Init()
      requires Shape()
      modifies this`bytes, this`msg, s, buf
      ensures Valid() && msg == []
    {
      forall i | 0 <= i < 8 {
        s[i] := v.init[i];
      }
      forall i | 0 <= i < buf.Length {
        buf[i] := 0;
      }
      bytes, msg := 0, [];
      ModUnique(0, 0, 0, v.blockBytes);
      assert s[..] == v.init;
      assert buf[..0] == [];
      AbsorbNothing(v);
    }

    /** Take `p[at..at + n]` as the rest of the block in the buffer and compress it. */
    method FillBlock(p: seq<byte>, at: nat, bufsize: nat)
      requires Valid() && bufsize == bytes % v.blockBytes && at + (v.blockBytes - bufsize) <= |p|
      modifies this`bytes, this`msg, s, buf
      ensures Valid() && bytes % v.blockBytes == 0
      ensures msg == old(msg) + p[at..at + (v.blockBytes - bufsize)]
    {
      hide Absorbed, Compress;
      ghost var m, tail := msg, buf[..bufsize];
      var more := p[at..at + (v.blockBytes - bufsize)];
      TailLength(v, m, s[..], tail);
      CopyInto(buf, bufsize, more);
      assert buf[..] == tail + more;
      AbsorbBlock(v, m, s[..], tail, more);
      Transform(v, s, buf[..]);
      bytes := bytes + (v.blockBytes - bufsize);
      msg := msg + more;
      ModAdd(|m|, |more|, v.blockBytes);
      assert buf[..0] == [];
    }

    /** Compress a whole block straight from the input. */
    method WholeBlock(p: seq<byte>, at: nat)
      requires Valid() && bytes % v.blockBytes == 0 && at + v.blockBytes <= |p|
      modifies this`bytes, this`msg, s
      ensures Valid() && bytes % v.blockBytes == 0
      ensures msg == old(msg) + p[at..at + v.blockBytes]
    {
      hide Absorbed, Compress;
      ghost var m := msg;
      var more := p[at..at + v.blockBytes];
      assert buf[..0] == [];
      TailLength(v, m, s[..], []);
      AbsorbBlock(v, m, s[..], [], more);
      assert [] + more == more;
      Transform(v, s, more);
      bytes := bytes + v.blockBytes;
      msg := msg + more;
      ModAdd(|m|, |more|, v.blockBytes);
    }

    /** Keep what does not fill a block. */
    method KeepTail(more: seq<byte>, bufsize: nat)
      requires Valid() && bufsize == bytes % v.blockBytes && bufsize + |more| < v.blockBytes
      modifies this`bytes, this`msg, buf
      ensures Valid() && msg == old(msg) + more
    {
      hide Absorbed;
      ghost var tail := buf[..bufsize];
      TailLength(v, msg, s[..], tail);
      AbsorbShort(v, msg, s[..], tail, more);
      ModAdd(|msg|, |more|, v.blockBytes);
      CopyInto(buf, bufsize, more);
      bytes := bytes + |more|;
      msg := msg + more;
      assert buf[..bufsize + |more|] == tail + more;
    }

    /** `add`: finish the block in the buffer, then whole blocks, then keep what is left. */
    method Add(p: seq<byte>)
      requires Valid()
      modifies this`bytes, this`msg, s, buf
      ensures Valid() && msg == old(msg) + p
    {
      hide Absorbed;
      var at := 0;
      var bufsize := bytes % v.blockBytes;
      if bufsize + |p| >= v.blockBytes {
        at := v.blockBytes - bufsize;
        FillBlock(p, 0, bufsize);
        bufsize := 0;
      }
      assert p[0..at] == p[..at];
      while |p| - at >= v.blockBytes
        invariant 0 <= at <= |p| && Valid() && msg == old(msg) + p[..at]
        invariant bufsize == bytes % v.blockBytes
        invariant bufsize == 0 || bufsize + (|p| - at) < v.blockBytes
      {
        // Straight from the input, or through the buffer when the input is not aligned.
        if * {
          WholeBlock(p, at);
        } else {
          FillBlock(p, at, 0);
        }
        assert p[..at + v.blockBytes] == p[..at] + p[at..at + v.blockBytes];
        at := at + v.blockBytes;
      }
      assert p == p[..at] + p[at..];
      if at < |p| {
        KeepTail(p[at..], bufsize);
      }
    }

    /** `update`: a finished context must be initialised again first. */
    method Update(p: seq<byte>)
      requires Valid() && bytes != INVALID
      modifies this`bytes, this`msg, s, buf
      ensures Valid() && msg == old(msg) + p
    {
      Add(p);
    }

    /** Add the padding and the length: the message becomes the padded one, all of it in blocks. */
    method Finish()
      requires Valid()
      modifies this`bytes, this`msg, s, buf
      ensures Shape() && s[..] == HashBlocks(v, Padded(v, old(msg)))
    {
      hide Absorbed, HashBlocks, BigEndian, PadZeros, PadBytes, LengthField, BitCount, Padded;
      ghost var m := msg;
      var sizedesc := LengthField(v, bytes);
      var n := PadBytes(v, bytes);
      PadBytesAreFips(v, bytes);
      LengthFieldIsCount(v, bytes);
      Add([0x80] + Zeros(n - 1));
      Add(sizedesc);
      PaddedParts(v, m);
      PadZerosLeast(v, |m|, 0);
      WholeMessage(v, msg, s[..], buf[..bytes % v.blockBytes]);
    }

    /** `done`: pad, add the length, and read the digest out of the state. */
    method Done() returns (res: seq<byte>)
      requires Valid()
      modifies this`bytes, this`msg, s, buf
      ensures res == Digest(v, old(msg)) && Shape() && bytes == INVALID
    {
      hide HashBlocks, Padded, StoreAll, Absorbed;
      ghost var m := msg;
      Finish();
      ghost var words := HashBlocks(v, Padded(v, m));
      res := [];
      var i := 0;
      StoreNone(v);
      while i < 8
        invariant 0 <= i <= 8 && s[..] == words && res == StoreAll(v, s[..i])
      {
        StoreSnoc(v, s[..i], s[i]);
        assert s[..i + 1] == s[..i] + [s[i]];
        res := res + v.store(s[i]);
        i := i + 1;
      }
      assert s[..8] == s[..];
      bytes := INVALID;
    }
  }

  /** One message through a fresh context. */
  method HashOnce<W(!new)>(v: Variant<W>, p: seq<byte>) returns (res: seq<byte>)
    requires v.Valid() && v.countBytes == 8
    ensures res == Digest(v, p)
  {
    hide Digest, Absorbed;
    var ctx := new Context(v);
    ctx.Update(p);
    assert [] + p == p;
    res := ctx.Done();
  }

  /** However the message is cut into updates, only its bytes matter. */
  method HashParts<W(!new)>(v: Variant<W>, parts: seq<seq<byte>>) returns (res: seq<byte>)
    requires v.Valid() && v.countBytes == 8 && |Flatten(parts)| < INVALID
    ensures res == Digest(v, Flatten(parts))
  {
    hide Digest, Absorbed;
    var ctx := new Context(v);
    var i := 0;
    while i < |parts|
      invariant 0 <= i <= |parts| && ctx.v == v && ctx.Valid() && ctx.msg == Flatten(parts[..i])
      invariant fresh(ctx) && fresh(ctx.s) && fresh(ctx.buf)
    {
      FlattenPrefix(parts, i);
      FlattenSnoc(parts[..i], parts[i]);
      assert parts[..i + 1] == parts[..i] + [parts[i]];
      ctx.Update(parts[i]);
      i := i + 1;
    }
    assert parts[..i] == parts;
    res := ctx.Done();
  }

  lemma StoreNone<W(!new)>(v: Variant<W>)
    ensures StoreAll(v, []) == []
  {
  }

  lemma StoreSnoc<W(!new)>(v: Variant<W>, ws: seq<W>, w: W)
    ensures StoreAll(v, ws + [w]) == StoreAll(v, ws) + v.store(w)
  {
    assert (ws + [w])[..|ws|] == ws;
  }

  lemma StoreEight<W(!new)>(v: Variant<W>, s: seq<W>)
    requires |s| == 8
    ensures StoreAll(v, s) == v.store(s[0]) + v.store(s[1]) + v.store(s[2]) + v.store(s[3])
                              + (v.store(s[4]) + v.store(s[5]) + v.store(s[6]) + v.store(s[7]))
  {
    hide StoreAll;
    StoreNone(v);
    StoreSnoc(v, [], s[0]);
    StoreSnoc(v, s[..1], s[1]);
    StoreSnoc(v, s[..2], s[2]);
    StoreSnoc(v, s[..3], s[3]);
    StoreSnoc(v, s[..4], s[4]);
    StoreSnoc(v, s[..5], s[5]);
    StoreSnoc(v, s[..6], s[6]);
    StoreSnoc(v, s[..7], s[7]);
    assert [] + [s[0]] == s[..1] && s[..1] + [s[1]] == s[..2] && s[..2] + [s[2]] == s[..3] && s[..3] + [s[3]] == s[..4];
    assert s[..4] + [s[4]] == s[..5] && s[..5] + [s[5]] == s[..6] && s[..6] + [s[6]] == s[..7] && s[..7] + [s[7]] == s;
    assert [] + v.store(s[0]) == v.store(s[0]);
  }

  lemma PaddedParts<W(!new)>(v: Variant<W>, m: seq<byte>)
    requires v.Valid()
    ensures Padded(v, m) == m + ([0x80] + Zeros(PadZeros(v, |m|))) + BitCount(v, |m|)
    ensures |Padded(v, m)| == |m| + 1 + PadZeros(v, |m|) + v.lengthBytes
  {
    hide BitCount, PadZeros;
  }

  /** With nothing left in the buffer the state is that of all the blocks. */
  lemma WholeMessage<W(!new)>(v: Variant<W>, m: seq<byte>, s: seq<W>, tail: seq<byte>)
    requires v.Valid() && Absorbed(v, m, s, tail) && |m| % v.blockBytes == 0
    ensures s == HashBlocks(v, m)
  {
    hide HashBlocks;
    assert m[..|m| - 0] == m;
  }

  lemma TailLength<W(!new)>(v: Variant<W>, m: seq<byte>, s: seq<W>, tail: seq<byte>)
    requires v.Valid() && Absorbed(v, m, s, tail)
    ensures |tail| == |m| % v.blockBytes < v.blockBytes && |s| == 8
  {
    Euclid(|m|, v.blockBytes);
  }

  // ---- Two ways to write the same functions ----

  lemma {:induction false} SameBlocks<W(!new)>(v: Variant<W>, u: Variant<W>, m: seq<byte>)
    requires v.Valid() && u.Valid() && SameOps(v, u)
    ensures HashBlocks(v, m) == HashBlocks(u, m)
    decreases |m|
  {
    hide Compress;
    if |m| >= v.blockBytes {
      var n := |m| - v.blockBytes;
      SameBlocks(v, u, m[..n]);
      SameCompress(v, u, HashBlocks(v, m[..n]), m[n..]);
    }
  }

  lemma {:induction false} SameStore<W(!new)>(v: Variant<W>, u: Variant<W>, ws: seq<W>)
    requires SameOps(v, u)
    ensures StoreAll(v, ws) == StoreAll(u, ws)
  {
    if ws != [] {
      SameStore(v, u, ws[..|ws| - 1]);
    }
  }

  /** The length fields of `n` bytes are the same. */
  predicate SameCount<W(!new)>(v: Variant<W>, u: Variant<W>, n: nat) {
    v.countBytes == u.countBytes || 8 * n < TWO_TO_64
  }

  lemma CountShort<W(!new)>(v: Variant<W>, n: nat)
    requires v.Valid() && 8 * n < TWO_TO_64
    ensures BitCount(v, n) == Zeros(v.lengthBytes - 8) + BigEndian(8 * n, 8)
  {
    hide BigEndian, Pow256;
    Pow256Of8();
    BigEndianShort(8 * n, v.countBytes - 8, 8);
    assert Zeros(v.lengthBytes - v.countBytes) + Zeros(v.countBytes - 8) == Zeros(v.lengthBytes - 8);
  }

  lemma SamePadding<W(!new)>(v: Variant<W>, u: Variant<W>, m: seq<byte>)
    requires v.Valid() && u.Valid() && SameOps(v, u) && SameCount(v, u, |m|)
    ensures Padded(v, m) == Padded(u, m)
  {
    hide BigEndian;
    if 8 * |m| < TWO_TO_64 {
      CountShort(v, |m|);
      CountShort(u, |m|);
    }
  }

  lemma SameDigest<W(!new)>(v: Variant<W>, u: Variant<W>, m: seq<byte>)
    requires v.Valid() && u.Valid() && SameOps(v, u) && SameCount(v, u, |m|)
    ensures Digest(v, m) == Digest(u, m)
  {
    hide HashBlocks, StoreAll, Padded;
    SamePadding(v, u, m);
    SameBlocks(v, u, Padded(v, m));
    SameStore(v, u, HashBlocks(v, Padded(v, m)));
  }

  lemma {:induction false} StoreLength<W(!new)>(v: Variant<W>, ws: seq<W>)
    requires v.Valid()
    ensures |StoreAll(v, ws)| == |ws| * v.wordBytes
  {
    if ws != [] {
      StoreLength(v, ws[..|ws| - 1]);
      assert |ws| * v.wordBytes == (|ws| - 1) * v.wordBytes + v.wordBytes;
    }
  }
}
