/**
 Regrouping bits: `bech32_convert_bits`, from symbols of one width to symbols of another.

 The specification reads the input as one stream of bits, first bit first, and cuts the stream
 into groups. The method keeps only a 32-bit accumulator that overflows as it goes.
 */
module Regroup {
  import opened Arithmetic
  import opened Bytes

  function Pow2(n: nat): (p: nat)
    ensures p >= 1
  {
    if n == 0 then 1 else 2 * Pow2(n - 1)
  }

  /** The low `k` bits of `v`, highest first. */
  function BitsOf(v: nat, k: nat): (b: seq<bool>)
    ensures |b| == k
  {
    if k == 0 then [] else BitsOf(v / 2, k - 1) + [v % 2 == 1]
  }

  function ValueOf(b: seq<bool>): nat {
    if b == [] then 0 else 2 * ValueOf(b[..|b| - 1]) + (if b[|b| - 1] then 1 else 0)
  }

  /** `v` without its low `m` bits. */
  function ShiftRight(v: nat, m: nat): nat {
    if m == 0 then v else ShiftRight(v / 2, m - 1)
  }

  /** Symbols of width `k`. */
  predicate Narrow(xs: seq<byte>, k: nat) {
    forall i :: 0 <= i < |xs| ==> xs[i] as int < Pow2(k)
  }

  /** The bits of `xs`, `k` from each. */
  function Stream(xs: seq<byte>, k: nat): seq<bool> {
    if xs == [] then [] else Stream(xs[..|xs| - 1], k) + BitsOf(xs[|xs| - 1] as int, k)
  }

  /** The full groups of `k` bits in `b`, as symbols; what is left over at the end is dropped. */
  function Chop(b: seq<bool>, k: nat): seq<byte>
    requires k > 0
  {
    if |b| < k then [] else [Octet(ValueOf(b[..k]))] + Chop(b[k..], k)
  }

  function Falses(n: nat): (b: seq<bool>)
    ensures |b| == n && forall i :: 0 <= i < n ==> !b[i]
  {
    seq(n, _ => false)
  }

  /** The bits after the last full group. */
  function Leftover(b: seq<bool>, k: nat): (r: seq<bool>)
    requires k > 0
    ensures |r| < k
  {
    if |b| < k then b else Leftover(b[k..], k)
  }

  /** The zero bits that complete the last group. */
  function Padding(b: seq<bool>, k: nat): seq<bool>
    requires k > 0
  {
    var r := Leftover(b, k);
    if r == [] then [] else Falses(k - |r|)
  }

  function WithPad(xs: seq<byte>, inbits: nat, outbits: nat): seq<byte>
    requires outbits > 0
  {
    var s := Stream(xs, inbits);
    Chop(s + Padding(s, outbits), outbits)
  }

  /** Without padding the bits left over must be fewer than a whole input symbol, and zero. */
  function WithoutPad(xs: seq<byte>, inbits: nat, outbits: nat): Option<seq<byte>>
    requires outbits > 0
  {
    var s := Stream(xs, inbits);
    var r := Leftover(s, outbits);
    if |r| < inbits && r == Falses(|r|) then Some(Chop(s, outbits)) else None
  }

  // ---- Bits of a number ----

  lemma Pow2Add(m: nat, n: nat)
    ensures Pow2(m + n) == Pow2(m) * Pow2(n)
  {
    if n > 0 {
      Pow2Add(m, n - 1);
      assert Pow2(m) * (2 * Pow2(n - 1)) == 2 * (Pow2(m) * Pow2(n - 1));
    }
  }

  lemma {:induction false} BitsAppend(v: nat, b: nat, n: nat, m: nat)
    requires b < Pow2(m)
    ensures BitsOf(v * Pow2(m) + b, n + m) == BitsOf(v, n) + BitsOf(b, m)
  {
    if m > 0 {
      var h := v * Pow2(m - 1);
      assert v * Pow2(m) == 2 * h;
      assert (2 * h + b) / 2 == h + b / 2 && (2 * h + b) % 2 == b % 2;
      BitsAppend(v, b / 2, n, m - 1);
    } else {
      assert BitsOf(b, m) == [];
    }
  }

  lemma {:induction false} BitsLow(v: nat, b: nat, k: nat, m: nat)
    requires k <= m
    ensures BitsOf(v * Pow2(m) + b, k) == BitsOf(b, k)
  {
    if k > 0 {
      var h := v * Pow2(m - 1);
      assert v * Pow2(m) == 2 * h;
      assert (2 * h + b) / 2 == h + b / 2 && (2 * h + b) % 2 == b % 2;
      BitsLow(v, b / 2, k - 1, m - 1);
    }
  }

  /** Dropping high bits, as a 32-bit register does, keeps the low ones. */
  lemma BitsMod(v: nat, k: nat, m: nat)
    requires k <= m
    ensures BitsOf(v % Pow2(m), k) == BitsOf(v, k)
  {
    hide BitsOf, Pow2;
    var p := Pow2(m);
    Euclid(v, p);
    var q, r: nat := v / p, v % p;
    BitsLow(q, r, k, m);
  }

  lemma {:induction false} BitsSplit(v: nat, n: nat, m: nat)
    ensures BitsOf(v, n + m) == BitsOf(ShiftRight(v, m), n) + BitsOf(v, m)
  {
    if m > 0 {
      BitsSplit(v / 2, n, m - 1);
    } else {
      assert BitsOf(v, m) == [];
    }
  }

  lemma {:induction false} BitsValue(v: nat, k: nat)
    requires v < Pow2(k)
    ensures ValueOf(BitsOf(v, k)) == v
  {
    if k > 0 {
      BitsValue(v / 2, k - 1);
      assert BitsOf(v, k)[..k - 1] == BitsOf(v / 2, k - 1);
    }
  }

  lemma {:induction false} ValueBits(b: seq<bool>)
    ensures ValueOf(b) < Pow2(|b|) && BitsOf(ValueOf(b), |b|) == b
  {
    if b != [] {
      var n := |b| - 1;
      ValueBits(b[..n]);
      assert ValueOf(b) / 2 == ValueOf(b[..n]);
      assert b == b[..n] + [b[n]];
    }
  }

  lemma ZeroBits(k: nat)
    ensures BitsOf(0, k) == Falses(k)
  {
  }

  lemma BitsZero(v: nat, k: nat)
    ensures BitsOf(v, k) == Falses(k) <==> v % Pow2(k) == 0
  {
    BitsMod(v, k, k);
    BitsValue(v % Pow2(k), k);
    ZeroBits(k);
    BitsValue(0, k);
  }

  // ---- Symbols and the stream ----

  lemma OctetNarrow(n: nat)
    requires n < 256
    ensures Octet(n) as int == n
  {
    OctetValue(n);
  }

  lemma WidthBound(k: nat)
    requires k <= 8
    ensures Pow2(k) <= 256
  {
    Pow2Add(k, 8 - k);
    assert Pow2(8) == 256;
    assert Pow2(k) * Pow2(8 - k) >= Pow2(k);
  }

  lemma StreamSnoc(xs: seq<byte>, x: byte, k: nat)
    ensures Stream(xs + [x], k) == Stream(xs, k) + BitsOf(x as int, k)
  {
    hide BitsOf;
    assert (xs + [x])[..|xs|] == xs;
  }

  lemma StreamOne(x: byte, k: nat)
    ensures Stream([x], k) == BitsOf(x as int, k)
  {
    StreamSnoc([], x, k);
    assert [] + [x] == [x];
  }

  lemma {:induction false} StreamLength(xs: seq<byte>, k: nat)
    ensures |Stream(xs, k)| == |xs| * k
  {
    if xs != [] {
      StreamLength(xs[..|xs| - 1], k);
      assert |xs| * k == (|xs| - 1) * k + k;
    }
  }

  lemma {:induction false} StreamAppend(xs: seq<byte>, ys: seq<byte>, k: nat)
    ensures Stream(xs + ys, k) == Stream(xs, k) + Stream(ys, k)
  {
    if ys == [] {
      hide BitsOf;
      assert xs + ys == xs;
    } else {
      hide BitsOf, Stream;
      var n := |ys| - 1;
      StreamAppend(xs, ys[..n], k);
      assert xs + ys == (xs + ys[..n]) + [ys[n]] && ys == ys[..n] + [ys[n]];
      StreamSnoc(xs + ys[..n], ys[n], k);
      StreamSnoc(ys[..n], ys[n], k);
    }
  }

  lemma StreamCons(x: byte, xs: seq<byte>, k: nat)
    ensures Stream([x] + xs, k) == BitsOf(x as int, k) + Stream(xs, k)
  {
    hide BitsOf, Stream;
    StreamAppend([x], xs, k);
    StreamOne(x, k);
  }

  lemma GroupSymbol(x: byte, k: nat)
    requires x as int < Pow2(k)
    ensures Octet(ValueOf(BitsOf(x as int, k))) == x
  {
    BitsValue(x as int, k);
    OctetOfByte(x);
  }

  lemma SymbolGroup(b: seq<bool>)
    requires |b| <= 8
    ensures var x := Octet(ValueOf(b)) as int; x < Pow2(|b|) && BitsOf(x, |b|) == b
  {
    ValueBits(b);
    WidthBound(|b|);
    OctetNarrow(ValueOf(b));
  }

  lemma {:induction false} ChopStream(xs: seq<byte>, tail: seq<bool>, k: nat)
    requires 0 < k && |tail| < k && Narrow(xs, k)
    ensures Chop(Stream(xs, k) + tail, k) == xs && Leftover(Stream(xs, k) + tail, k) == tail
  {
    hide BitsOf, ValueOf, Octet, Pow2, Stream;
    if xs != [] {
      var x, ys := xs[0], xs[1..];
      assert xs == [x] + ys;
      StreamCons(x, ys, k);
      var s := Stream(xs, k) + tail;
      assert s[..k] == BitsOf(x as int, k);
      assert s[k..] == Stream(ys, k) + tail;
      GroupSymbol(x, k);
      ChopStream(ys, tail, k);
    } else {
      StreamEmpty(k);
      assert Stream(xs, k) + tail == tail;
    }
  }

  lemma StreamEmpty(k: nat)
    ensures Stream([], k) == []
  {
  }

  /** Cutting a stream loses only the incomplete group at its end. */
  lemma {:induction false} StreamChop(b: seq<bool>, k: nat)
    requires 0 < k <= 8
    ensures Narrow(Chop(b, k), k)
    ensures b == Stream(Chop(b, k), k) + Leftover(b, k)
    decreases |b|
  {
    hide BitsOf, ValueOf, Octet, Pow2, Stream;
    if |b| >= k {
      var head, rest := b[..k], Chop(b[k..], k);
      StreamChop(b[k..], k);
      SymbolGroup(head);
      var x := Octet(ValueOf(head));
      StreamCons(x, rest, k);
      assert b == head + b[k..];
      assert Chop(b, k) == [x] + rest;
    } else {
      StreamEmpty(k);
      assert b == [] + b;
    }
  }

  // ---- Round trips ----

  lemma PaddingShape(b: seq<bool>, k: nat)
    requires k > 0
    ensures |Padding(b, k)| < k && Padding(b, k) == Falses(|Padding(b, k)|)
  {
  }

  /** The padded symbols carry the stream and the padding, nothing else. */
  lemma PadStream(xs: seq<byte>, inbits: nat, outbits: nat)
    requires 0 < outbits <= 8
    ensures var s := Stream(xs, inbits);
            && Narrow(WithPad(xs, inbits, outbits), outbits)
            && Stream(WithPad(xs, inbits, outbits), outbits) == s + Padding(s, outbits)
  {
    hide Stream, BitsOf, ValueOf, Octet, Pow2, Chop, Leftover;
    var s := Stream(xs, inbits);
    var whole, r := Chop(s, outbits), Leftover(s, outbits);
    StreamChop(s, outbits);
    if r == [] {
      assert s + [] == s;
      assert Stream(whole, outbits) + [] == Stream(whole, outbits);
    } else {
      var last := r + Padding(s, outbits);
      SymbolGroup(last);
      var x := Octet(ValueOf(last));
      StreamAppend(whole, [x], outbits);
      StreamOne(x, outbits);
      assert s + Padding(s, outbits) == Stream(whole + [x], outbits) + [];
      ChopStream(whole + [x], [], outbits);
      assert Stream(whole + [x], outbits) + [] == Stream(whole + [x], outbits);
    }
  }

  /** Narrowing with padding, then widening without, gives back every string of the wider symbols. */
  lemma PadThenUnpad(xs: seq<byte>, wide: nat, narrow: nat)
    requires 0 < narrow <= wide <= 8 && Narrow(xs, wide)
    ensures WithoutPad(WithPad(xs, wide, narrow), narrow, wide) == Some(xs)
  {
    hide Stream, Chop, Leftover, Padding, WithPad;
    var s := Stream(xs, wide);
    PadStream(xs, wide, narrow);
    PaddingShape(s, narrow);
    ChopStream(xs, Padding(s, narrow), wide);
  }

  lemma SameCount(p: nat, q: nat, n: nat, y: nat, z: nat, k: nat)
    requires p * k == n + y && q * k == n + z && y < k && z < k
    ensures p == q && y == z
  {
    MulMonotone(p, q, k);
    MulMonotone(q, p, k);
  }

  /** Two ways to complete the same stream to whole symbols with fewer zeros than one symbol agree. */
  lemma PaddingUnique(xs: seq<byte>, ys: seq<byte>, s: seq<bool>, y: nat, z: nat, k: nat)
    requires 0 < k && Narrow(xs, k) && Narrow(ys, k) && y < k && z < k
    requires Stream(xs, k) == s + Falses(y) && Stream(ys, k) == s + Falses(z)
    ensures xs == ys
  {
    hide Stream, Chop, Leftover;
    StreamLength(xs, k);
    StreamLength(ys, k);
    SameCount(|xs|, |ys|, |s|, y, z, k);
    ChopStream(xs, [], k);
    ChopStream(ys, [], k);
  }

  /** Widening without padding accepts exactly the images of narrowing with padding. */
  lemma UnpadIffPadded(ys: seq<byte>, xs: seq<byte>, wide: nat, narrow: nat)
    requires 0 < narrow <= wide <= 8 && Narrow(ys, narrow)
    ensures WithoutPad(ys, narrow, wide) == Some(xs) <==> Narrow(xs, wide) && ys == WithPad(xs, wide, narrow)
  {
    hide Stream, Chop, Leftover, Padding, WithPad;
    if WithoutPad(ys, narrow, wide) == Some(xs) {
      var s := Stream(ys, narrow);
      var r := Leftover(s, wide);
      StreamChop(s, wide);
      PadStream(xs, wide, narrow);
      PaddingShape(Stream(xs, wide), narrow);
      PaddingUnique(ys, WithPad(xs, wide, narrow), Stream(xs, wide), |r|, |Padding(Stream(xs, wide), narrow)|, narrow);
    }
    if Narrow(xs, wide) && ys == WithPad(xs, wide, narrow) {
      PadThenUnpad(xs, wide, narrow);
    }
  }

  // ---- The loop and its 32-bit accumulator ----

  const TWO_TO_32: nat := 0x1_0000_0000

  lemma Pow2Of32()
    ensures Pow2(32) == TWO_TO_32
  {
    assert Pow2(8) == 256;
    Pow2Add(8, 8);
    Pow2Add(16, 16);
  }

  /** Shifting a symbol in, with overflow, appends its bits to the pending ones. */
  lemma ShiftIn(val: nat, b: nat, bits: nat, inbits: nat)
    requires b < Pow2(inbits) && bits + inbits <= 32
    ensures BitsOf((val * Pow2(inbits) + b) % TWO_TO_32, bits + inbits) == BitsOf(val, bits) + BitsOf(b, inbits)
  {
    hide BitsOf, Pow2;
    Pow2Of32();
    BitsMod(val * Pow2(inbits) + b, bits + inbits, 32);
    BitsAppend(val, b, bits, inbits);
  }

  lemma MaskedNarrow(v: nat, k: nat)
    requires k <= 8
    ensures var x := Octet(v % Pow2(k)) as int; x == v % Pow2(k) < Pow2(k) && BitsOf(x, k) == BitsOf(v, k)
  {
    WidthBound(k);
    OctetNarrow(v % Pow2(k));
    BitsMod(v, k, k);
  }

  /** The pending bits moved to the top of one symbol, zeros below. */
  lemma ShiftUp(val: nat, bits: nat, outbits: nat)
    requires bits <= outbits <= 8
    ensures var v := (val * Pow2(outbits - bits)) % TWO_TO_32;
            && BitsOf(v, outbits) == BitsOf(val, bits) + Falses(outbits - bits)
            && (v % Pow2(outbits) == 0 <==> BitsOf(val, bits) == Falses(bits))
  {
    hide BitsOf, Pow2;
    var z := outbits - bits;
    var v := (val * Pow2(z)) % TWO_TO_32;
    Pow2Of32();
    BitsMod(val * Pow2(z), outbits, 32);
    BitsAppend(val, 0, bits, z);
    ZeroBits(z);
    BitsZero(v, outbits);
    assert Falses(outbits) == Falses(bits) + Falses(z);
    assert (BitsOf(val, bits) + Falses(z))[..bits] == BitsOf(val, bits);
    assert Falses(outbits)[..bits] == Falses(bits);
  }

  lemma RoomForOne(n: nat, room: nat, k: nat, total: nat)
    requires room * k >= total && n * k < total
    ensures n < room
  {
    MulMonotone(room, n, k);
  }

  lemma Room(room: nat, written: seq<byte>, outbits: nat, s: seq<bool>, xs: seq<byte>, i: nat, inbits: nat, bits: nat)
    requires i <= |xs| && 0 < bits && room * outbits >= |xs| * inbits
    requires |Stream(written, outbits)| + bits == |s| && s == Stream(xs[..i], inbits)
    ensures |written| < room
  {
    StreamLength(written, outbits);
    StreamLength(xs[..i], inbits);
    MulMonotone(i, |xs|, inbits);
    RoomForOne(|written|, room, outbits, |xs| * inbits);
  }

  /** `out[at..at + n]` holds narrow symbols whose stream, with the pending bits after it, is `s`. */
  ghost predicate Written(out: array<byte>, at: nat, n: nat, k: nat, pending: seq<bool>, s: seq<bool>)
    reads out
  {
    && at + n <= out.Length
    && Narrow(out[at..at + n], k)
    && Stream(out[at..at + n], k) + pending == s
  }

  /** Put one symbol after the `n` there are. */
  method Put(out: array<byte>, at: nat, n: nat, x: byte, k: nat)
    requires at + n < out.Length && Narrow(out[at..at + n], k) && x as int < Pow2(k)
    modifies out
    ensures out[..at] == old(out[..at])
    ensures out[at..at + n + 1] == old(out[at..at + n]) + [x]
    ensures Narrow(out[at..at + n + 1], k)
    ensures Stream(out[at..at + n + 1], k) == old(Stream(out[at..at + n], k)) + BitsOf(x as int, k)
  {
    hide Stream, BitsOf, Pow2;
    StreamSnoc(out[at..at + n], x, k);
    out[at + n] := x;
  }

  /** The inner loop: move full groups from the pending bits to the output. */
  method Drain(out: array<byte>, at: nat, n0: nat, outbits: nat, val: nat, bits0: nat,
               ghost s: seq<bool>, ghost xs: seq<byte>, ghost i: nat, ghost inbits: nat)
    returns (n: nat, bits: nat)
    requires 0 < outbits <= 8 && i <= |xs| && s == Stream(xs[..i], inbits)
    requires at <= out.Length && (out.Length - at) * outbits >= |xs| * inbits
    requires Written(out, at, n0, outbits, BitsOf(val, bits0), s)
    modifies out
    ensures out[..at] == old(out[..at]) && bits < outbits
    ensures Written(out, at, n, outbits, BitsOf(val, bits), s)
  {
    hide BitsOf, Pow2, Stream, Octet, ShiftRight;
    n, bits := n0, bits0;
    while bits >= outbits
      invariant out[..at] == old(out[..at])
      invariant Written(out, at, n, outbits, BitsOf(val, bits), s)
    {
      ghost var written := out[at..at + n];
      Room(out.Length - at, written, outbits, s, xs, i, inbits, bits);
      bits := bits - outbits;
      BitsSplit(val, outbits, bits);
      MaskedNarrow(ShiftRight(val, bits), outbits);
      var x := Octet(ShiftRight(val, bits) % Pow2(outbits));
      Put(out, at, n, x, outbits);
      n := n + 1;
    }
  }

  lemma NothingYet(xs: seq<byte>, v: nat, j: nat, k: nat)
    ensures Stream([], j) + BitsOf(v, 0) == Stream(xs[..0], k)
  {
    assert xs[..0] == [];
    StreamEmpty(j);
    StreamEmpty(k);
  }

  /**
   `bech32_convert_bits`, writing from `out[at]` up. Room for the bits of the input is room enough,
   with the last group padded or not.
   */
  method ConvertBits(out: array<byte>, at: nat, outbits: nat, xs: seq<byte>, inbits: nat, pad: bool)
    returns (ok: bool, outlen: nat)
    requires 0 < inbits <= 8 && 0 < outbits <= 8 && Narrow(xs, inbits)
    requires at <= out.Length
    requires (out.Length - at) * outbits >= |xs| * inbits
    modifies out
    ensures at + outlen <= out.Length && out[..at] == old(out[..at])
    ensures pad ==> ok && out[at..at + outlen] == WithPad(xs, inbits, outbits)
    ensures !pad ==> (ok <==> WithoutPad(xs, inbits, outbits).Some?)
    ensures !pad && ok ==> out[at..at + outlen] == WithoutPad(xs, inbits, outbits).value
  {
    hide BitsOf, Pow2, Stream, Chop, Leftover, Octet, Padding, WithPad;
    var val: nat, bits: nat := 0, 0;
    outlen := 0;
    var i := 0;
    assert out[at..at + outlen] == [];
    NothingYet(xs, val, outbits, inbits);
    while i < |xs|
      invariant 0 <= i <= |xs| && out[..at] == old(out[..at])
      invariant bits < outbits
      invariant Written(out, at, outlen, outbits, BitsOf(val, bits), Stream(xs[..i], inbits))
    {
      assert xs[..i + 1] == xs[..i] + [xs[i]];
      StreamSnoc(xs[..i], xs[i], inbits);
      ShiftIn(val, xs[i] as int, bits, inbits);
      val := (val * Pow2(inbits) + xs[i] as int) % TWO_TO_32;
      bits := bits + inbits;
      i := i + 1;
      outlen, bits := Drain(out, at, outlen, outbits, val, bits, Stream(xs[..i], inbits), xs, i, inbits);
    }
    assert xs[..i] == xs;
    ghost var written := out[at..at + outlen];
    ChopStream(written, BitsOf(val, bits), outbits);
    ShiftUp(val, bits, outbits);
    var top := (val * Pow2(outbits - bits)) % TWO_TO_32;
    if pad {
      ok := true;
      if bits != 0 {
        MaskedNarrow(top, outbits);
        Room(out.Length - at, written, outbits, Stream(xs[..i], inbits), xs, i, inbits, bits);
        Put(out, at, outlen, Octet(top % Pow2(outbits)), outbits);
        outlen := outlen + 1;
      }
      Padded(xs, inbits, outbits, out[at..at + outlen], BitsOf(val, bits));
    } else if top % Pow2(outbits) != 0 || bits >= inbits {
      ok := false;
    } else {
      ok := true;
    }
  }

  /** Symbols that carry the stream, completed with zeros below the pending bits, are the padded result. */
  lemma Padded(xs: seq<byte>, inbits: nat, outbits: nat, ys: seq<byte>, pending: seq<bool>)
    requires 0 < outbits <= 8 && Narrow(ys, outbits) && |pending| < outbits
    requires Leftover(Stream(xs, inbits), outbits) == pending
    requires Stream(ys, outbits)
             == Stream(xs, inbits) + (if pending == [] then [] else Falses(outbits - |pending|))
    ensures ys == WithPad(xs, inbits, outbits)
  {
    hide Stream, Chop, Leftover;
    ChopStream(ys, [], outbits);
    assert Stream(ys, outbits) + [] == Stream(ys, outbits);
  }
}
