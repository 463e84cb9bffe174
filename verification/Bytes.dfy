/** Bytes, and the few facts about them that the other modules share. */
module Bytes {
  type byte = bv8

  const TWO_TO_64: nat := 0x1_0000_0000_0000_0000

  datatype Option<+T> = None | Some(value: T)

  /** The low eight bits of an unsigned number, as a C cast to `u8` keeps them. */
  function Octet(n: nat): byte {
    (n % 256) as bv8
  }

  lemma NextByte(b: byte)
    requires b as int < 255
    ensures (b + 1) as int == b as int + 1
  {
    NotLast(b);
    NextBelowLast(b);
  }

  lemma NotLast(b: byte)
    requires b as int < 255
    ensures b < 255
  {
  }

  lemma NextBelowLast(b: byte)
    requires b < 255
    ensures (b + 1) as int == b as int + 1
  {
  }

  /** Every number below 256 is some byte's value. */
  lemma {:induction false} ByteExists(m: nat) returns (b: byte)
    requires m < 256
    ensures b as int == m
  {
    if m == 0 {
      b := 0;
    } else {
      var c := ByteExists(m - 1);
      NextByte(c);
      b := c + 1;
    }
  }

  lemma ByteBack(b: byte, m: int)
    requires b as int == m
    ensures 0 <= m < 256 && m as bv8 == b
  {
  }

  lemma ByteValue(m: int)
    requires 0 <= m < 256
    ensures (m as bv8) as int == m
  {
    var b := ByteExists(m);
    ByteBack(b, m);
  }

  lemma Remainder(n: nat)
    ensures 0 <= n % 256 < 256
  {
  }

  lemma OctetValue(n: nat)
    ensures Octet(n) as int == n % 256
  {
    var m := n % 256;
    Remainder(n);
    ByteValue(m);
  }

  lemma OctetOfByte(b: byte)
    ensures Octet(b as int) == b
  {
    assert (b as int) % 256 == b as int;
  }

  function Zeros(n: nat): (z: seq<byte>)
    ensures |z| == n
    ensures forall i :: 0 <= i < n ==> z[i] == 0
  {
    seq(n, _ => 0)
  }

  /** Pieces joined in order. */
  function Flatten(parts: seq<seq<byte>>): seq<byte> {
    if parts == [] then [] else Flatten(parts[..|parts| - 1]) + parts[|parts| - 1]
  }

  lemma FlattenSnoc(parts: seq<seq<byte>>, p: seq<byte>)
    ensures Flatten(parts + [p]) == Flatten(parts) + p
  {
    assert (parts + [p])[..|parts|] == parts;
  }

  lemma {:induction false} FlattenAppend(xs: seq<seq<byte>>, ys: seq<seq<byte>>)
    ensures Flatten(xs + ys) == Flatten(xs) + Flatten(ys)
  {
    if ys == [] {
      assert xs + ys == xs;
    } else {
      var n := |ys| - 1;
      FlattenAppend(xs, ys[..n]);
      FlattenSnoc(xs + ys[..n], ys[n]);
      assert xs + ys == xs + ys[..n] + [ys[n]];
    }
  }

  lemma FlattenPrefix(parts: seq<seq<byte>>, i: nat)
    requires i < |parts|
    ensures Flatten(parts[..i + 1]) == Flatten(parts[..i]) + parts[i]
    ensures |Flatten(parts[..i + 1])| <= |Flatten(parts)|
  {
    FlattenSnoc(parts[..i], parts[i]);
    assert parts[..i + 1] == parts[..i] + [parts[i]];
    FlattenAppend(parts[..i + 1], parts[i + 1..]);
    assert parts == parts[..i + 1] + parts[i + 1..];
  }

  function BigEndian(n: nat, len: nat): (b: seq<byte>)
    ensures |b| == len
  {
    if len == 0 then [] else BigEndian(n / 256, len - 1) + [Octet(n)]
  }

  function Pow256(n: nat): (p: nat)
    ensures p >= 1
  {
    if n == 0 then 1 else 256 * Pow256(n - 1)
  }

  /** `memcpy(dst + at, src, |src|)`. */
  method CopyInto(dst: array<byte>, at: nat, src: seq<byte>)
    requires at + |src| <= dst.Length
    modifies dst
    ensures dst[..at] == old(dst[..at]) && dst[at..at + |src|] == src
    ensures dst[at + |src|..] == old(dst[at + |src|..])
  {
    forall i | 0 <= i < |src| {
      dst[at + i] := src[i];
    }
  }
}
