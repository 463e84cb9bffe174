/**
 BigSize numbers (`bigsize.c`): one to nine bytes, the shortest form that fits.

 `Encoded` is BOLT #1, "Fundamental Types". `Decoded` takes the branches of `bigsize_get`; the
 lemmas say it finds a number exactly when an encoding stands at the front, and then that number.
 */
module BigSize {
  import opened Arithmetic
  import opened Bytes

  /** How many bytes follow the marker, if there is a marker. */
  function Width(v: nat): nat {
    if v < 0xfd then 0 else if v <= 0xffff then 2 else if v <= 0xffff_ffff then 4 else 8
  }

  function Marker(width: nat): byte {
    if width == 2 then 0xfd else if width == 4 then 0xfe else 0xff
  }

  function Encoded(v: nat): (b: seq<byte>)
    requires v < TWO_TO_64
    ensures |b| == Width(v) + 1
  {
    if Width(v) == 0 then [Octet(v)] else [Marker(Width(v))] + BigEndian(v, Width(v))
  }

  /** The number that big-endian bytes spell. */
  function Value(b: seq<byte>): nat {
    if b == [] then 0 else 256 * Value(b[..|b| - 1]) + b[|b| - 1] as int
  }

  /** The number at the front of `p` and how many bytes it took. */
  function Decoded(p: seq<byte>): (r: Option<(nat, nat)>)
    ensures r.Some? ==> 1 <= r.value.1 <= |p|
  {
    if p == [] then None
    else if p[0] == 0xfd then Wide(p, 2, 0xfd)
    else if p[0] == 0xfe then Wide(p, 4, 0x1_0000)
    else if p[0] == 0xff then Wide(p, 8, 0x1_0000_0000)
    else Some((p[0] as int, 1))
  }

  /** A number in `width` bytes behind its marker, refused when a shorter form could hold it. */
  function Wide(p: seq<byte>, width: nat, least: nat): Option<(nat, nat)> {
    if |p| < width + 1 || Value(p[1..width + 1]) < least then None
    else Some((Value(p[1..width + 1]), width + 1))
  }

  // ---- Big-endian numbers ----

  lemma OctetOf(m: nat, b: byte)
    ensures (256 * m + b as int) / 256 == m && Octet(256 * m + b as int) == b
  {
    var n: nat := 256 * m + b as int;
    OctetOfByte(b);
    assert n % 256 == b as int;
  }

  lemma BigEndianSnoc(m: nat, x: byte, len: nat)
    ensures BigEndian(256 * m + x as int, len + 1) == BigEndian(m, len) + [x]
  {
    hide Octet;
    OctetOf(m, x);
  }

  lemma {:induction false} ValueThenBytes(b: seq<byte>)
    ensures BigEndian(Value(b), |b|) == b && Value(b) < Pow256(|b|)
  {
    hide BigEndian;
    if b == [] {
      assert BigEndian(0, 0) == b;
    } else {
      var front, last := b[..|b| - 1], b[|b| - 1];
      ValueThenBytes(front);
      BigEndianSnoc(Value(front), last, |front|);
      assert b == front + [last];
    }
  }

  lemma {:induction false} BytesThenValue(v: nat, len: nat)
    requires v < Pow256(len)
    ensures Value(BigEndian(v, len)) == v
  {
    hide Octet;
    if len > 0 {
      var b := BigEndian(v, len);
      BytesThenValue(v / 256, len - 1);
      OctetValue(v);
      assert b[..|b| - 1] == BigEndian(v / 256, len - 1) && b[|b| - 1] == Octet(v);
    }
  }

  lemma Powers()
    ensures Pow256(2) == 0x1_0000 && Pow256(4) == 0x1_0000_0000 && Pow256(8) == TWO_TO_64
  {
    assert Pow256(2) == 0x1_0000;
    assert Pow256(4) == 0x1_0000_0000;
    assert Pow256(6) == 0x1_0000_0000_0000;
  }

  lemma OneByte(v: nat)
    requires v < 0xfd
    ensures Octet(v) as int == v && Octet(v) !in {0xfd, 0xfe, 0xff}
  {
    hide Octet;
    OctetValue(v);
    var b := Octet(v);
    assert (0xfd as byte) as int == 0xfd && (0xfe as byte) as int == 0xfe && (0xff as byte) as int == 0xff;
  }

  lemma NotMarker(b: byte)
    requires b !in {0xfd, 0xfe, 0xff}
    ensures b as int < 0xfd
  {
    assert b < 0xfd;
  }

  // ---- The two functions undo each other ----

  /** `bigsize_get` reads back what `bigsize_put` wrote, whatever follows it. */
  lemma PutThenGet(v: nat, rest: seq<byte>)
    requires v < TWO_TO_64
    ensures Decoded(Encoded(v) + rest) == Some((v, Width(v) + 1))
  {
    hide Octet, Value, BigEndian, Pow256;
    var w, p := Width(v), Encoded(v) + rest;
    Powers();
    if w == 0 {
      OneByte(v);
      assert p[0] == Octet(v);
    } else {
      BytesThenValue(v, w);
      assert p[0] == Marker(w) && p[1..w + 1] == BigEndian(v, w);
    }
  }

  /** `bigsize_get` accepts only what `bigsize_put` writes: the shortest form. */
  lemma GetThenPut(p: seq<byte>)
    requires Decoded(p).Some?
    ensures var (v, n) := Decoded(p).value;
            v < TWO_TO_64 && n == Width(v) + 1 <= |p| && p[..n] == Encoded(v)
  {
    hide Octet, Value, BigEndian, Pow256;
    Powers();
    if p[0] in {0xfd, 0xfe, 0xff} {
      var w := if p[0] == 0xfd then 2 else if p[0] == 0xfe then 4 else 8;
      var b := p[1..w + 1];
      ValueThenBytes(b);
      assert Width(Value(b)) == w;
      assert p[..w + 1] == [p[0]] + b;
    } else {
      NotMarker(p[0]);
      OctetOfByte(p[0]);
      assert p[..1] == [p[0]];
    }
  }

  /** A number is found exactly when its encoding stands at the front. */
  lemma GetIffPut(p: seq<byte>, v: nat)
    requires v < TWO_TO_64
    ensures Encoded(v) <= p <==> Decoded(p) == Some((v, Width(v) + 1))
  {
    hide Encoded, Decoded;
    if Encoded(v) <= p {
      PutThenGet(v, p[Width(v) + 1..]);
      assert p == Encoded(v) + p[Width(v) + 1..];
    }
    if Decoded(p) == Some((v, Width(v) + 1)) {
      GetThenPut(p);
      assert p[..Width(v) + 1] == Encoded(v);
    }
  }

  // ---- The code ----

  /** `bigsize_len` */
  method Len(v: nat) returns (len: nat)
    requires v < TWO_TO_64
    ensures len == |Encoded(v)|
  {
    if v < 0xfd {
      len := 1;
    } else if v <= 0xffff {
      len := 3;
    } else if v <= 0xffff_ffff {
      len := 5;
    } else {
      len := 9;
    }
  }

  lemma TwoBytes(v: nat)
    ensures BigEndian(v, 2) == [Octet(v / 0x100), Octet(v)]
  {
    hide Octet;
    assert BigEndian(v, 2) == BigEndian(v / 256, 1) + [Octet(v)];
    assert BigEndian(v / 256, 1) == BigEndian(v / 256 / 256, 0) + [Octet(v / 256)];
  }

  lemma FourBytes(v: nat)
    ensures BigEndian(v, 4) == [Octet(v / 0x100_0000), Octet(v / 0x1_0000), Octet(v / 0x100), Octet(v)]
  {
    hide Octet;
    var u := v / 256;
    assert BigEndian(v, 4) == BigEndian(u, 3) + [Octet(v)];
    assert BigEndian(u, 3) == BigEndian(u / 256, 2) + [Octet(u)];
    TwoBytes(u / 256);
    assert u / 256 == v / 0x1_0000 && u / 256 / 256 == v / 0x100_0000;
  }

  lemma EightBytes(v: nat)
    ensures BigEndian(v, 8) ==
            [Octet(v / 0x100_0000_0000_0000), Octet(v / 0x1_0000_0000_0000), Octet(v / 0x100_0000_0000),
             Octet(v / 0x1_0000_0000), Octet(v / 0x100_0000), Octet(v / 0x1_0000), Octet(v / 0x100), Octet(v)]
  {
    hide Octet, BigEndian;
    var u := v / 0x1_0000_0000;
    HighHalf(v);
    FourBytes(v);
    FourBytes(u);
    assert u / 0x100 == v / 0x100_0000_0000;
    assert u / 0x1_0000 == v / 0x1_0000_0000_0000;
    assert u / 0x100_0000 == v / 0x100_0000_0000_0000;
  }

  lemma HighHalf(v: nat)
    ensures BigEndian(v, 8) == BigEndian(v / 0x1_0000_0000, 4) + BigEndian(v, 4)
  {
    hide Octet;
    var a := v / 256;
    var b := a / 256;
    var c := b / 256;
    var d := c / 256;
    assert d == v / 0x1_0000_0000;
    assert BigEndian(v, 8) == BigEndian(a, 7) + [Octet(v)];
    assert BigEndian(a, 7) == BigEndian(b, 6) + [Octet(a)];
    assert BigEndian(b, 6) == BigEndian(c, 5) + [Octet(b)];
    assert BigEndian(c, 5) == BigEndian(d, 4) + [Octet(c)];
    FourBytes(v);
    assert b == v / 0x1_0000 && c == v / 0x100_0000;
  }

  /** The four forms byte by byte: their ranges, their markers, and the high byte of the number first. */
  lemma EncodedBytes(v: nat)
    requires v < TWO_TO_64
    ensures v < 0xfd ==> Encoded(v) == [Octet(v)]
    ensures 0xfd <= v < 0x1_0000 ==> Encoded(v) == [0xfd, Octet(v / 0x100), Octet(v)]
    ensures 0x1_0000 <= v < 0x1_0000_0000 ==>
              Encoded(v) == [0xfe, Octet(v / 0x100_0000), Octet(v / 0x1_0000), Octet(v / 0x100), Octet(v)]
    ensures 0x1_0000_0000 <= v ==>
              Encoded(v) == [0xff]
                            + [Octet(v / 0x100_0000_0000_0000), Octet(v / 0x1_0000_0000_0000),
                               Octet(v / 0x100_0000_0000), Octet(v / 0x1_0000_0000), Octet(v / 0x100_0000),
                               Octet(v / 0x1_0000), Octet(v / 0x100), Octet(v)]
  {
    hide Octet, BigEndian;
    TwoBytes(v);
    FourBytes(v);
    EightBytes(v);
  }

  /** `bigsize_put`'s last case. */
  method PutNine(buf: array<byte>, v: nat)
    requires buf.Length >= 9 && v < TWO_TO_64
    modifies buf
    ensures buf[..9] == [0xff] + BigEndian(v, 8) && buf[9..] == old(buf[9..])
  {
    hide Octet, BigEndian;
    EightBytes(v);
    buf[0] := 0xff;
    buf[1] := Octet(v / 0x100_0000_0000_0000);
    buf[2] := Octet(v / 0x1_0000_0000_0000);
    buf[3] := Octet(v / 0x100_0000_0000);
    buf[4] := Octet(v / 0x1_0000_0000);
    buf[5] := Octet(v / 0x100_0000);
    buf[6] := Octet(v / 0x1_0000);
    buf[7] := Octet(v / 0x100);
    buf[8] := Octet(v);
  }

  /** `bigsize_put`: the encoding at the front of the buffer, the rest of it untouched. */
  method Put(buf: array<byte>, v: nat) returns (n: nat)
    requires buf.Length >= 9 && v < TWO_TO_64
    modifies buf
    ensures n == |Encoded(v)| && buf[..n] == Encoded(v)
    ensures buf[n..] == old(buf[n..])
  {
    hide Octet, BigEndian;
    if v < 0xfd {
      buf[0] := Octet(v);
      n := 1;
    } else if v <= 0xffff {
      TwoBytes(v);
      buf[0] := 0xfd;
      buf[1] := Octet(v / 0x100);
      buf[2] := Octet(v);
      n := 3;
    } else if v <= 0xffff_ffff {
      FourBytes(v);
      buf[0] := 0xfe;
      buf[1] := Octet(v / 0x100_0000);
      buf[2] := Octet(v / 0x1_0000);
      buf[3] := Octet(v / 0x100);
      buf[4] := Octet(v);
      n := 5;
    } else {
      PutNine(buf, v);
      n := 9;
    }
  }

  lemma ValueSnoc(b: seq<byte>, x: byte)
    ensures Value(b + [x]) == 256 * Value(b) + x as int
  {
    assert (b + [x])[..|b|] == b;
  }

  lemma ValueOf2(b: seq<byte>)
    requires |b| == 2
    ensures Value(b) == 0x100 * (b[0] as int) + b[1] as int
  {
    hide Value;
    ValueSnoc([], b[0]);
    ValueSnoc([b[0]], b[1]);
    assert [] + [b[0]] == [b[0]] && b == [b[0]] + [b[1]];
    assert Value([]) == 0 by { Empty(); }
  }

  lemma Empty()
    ensures Value([]) == 0
  {
  }

  lemma ValueOf4(b: seq<byte>)
    requires |b| == 4
    ensures Value(b) == 0x100_0000 * (b[0] as int) + 0x1_0000 * (b[1] as int) + 0x100 * (b[2] as int) + b[3] as int
  {
    hide Value;
    ValueOf2(b[..2]);
    ValueSnoc(b[..2], b[2]);
    ValueSnoc(b[..3], b[3]);
    assert b[..3] == b[..2] + [b[2]] && b == b[..3] + [b[3]];
  }

  lemma ValueHalves(b: seq<byte>)
    requires |b| == 8
    ensures Value(b) == 0x1_0000_0000 * Value(b[..4]) + Value(b[4..])
  {
    hide Value;
    ValueSnoc(b[..4], b[4]);
    ValueSnoc(b[..5], b[5]);
    ValueSnoc(b[..6], b[6]);
    ValueSnoc(b[..7], b[7]);
    assert b[..5] == b[..4] + [b[4]] && b[..6] == b[..5] + [b[5]];
    assert b[..7] == b[..6] + [b[6]] && b == b[..7] + [b[7]];
    ValueOf4(b[4..]);
  }

  /** The eight shifted bytes that `bigsize_get` adds up. */
  method NineByteValue(p: seq<byte>) returns (val: nat)
    requires |p| >= 9
    ensures val == Value(p[1..9])
  {
    hide Value;
    ghost var b := p[1..9];
    ValueHalves(b);
    assert b[..4] == p[1..5] && b[4..] == p[5..9];
    ValueOf4(p[1..5]);
    ValueOf4(p[5..9]);
    val := 0x100_0000_0000_0000 * (p[1] as int) + 0x1_0000_0000_0000 * (p[2] as int)
           + 0x100_0000_0000 * (p[3] as int) + 0x1_0000_0000 * (p[4] as int)
           + 0x100_0000 * (p[5] as int) + 0x1_0000 * (p[6] as int) + 0x100 * (p[7] as int) + p[8] as int;
  }

  /**
   `bigsize_get`: zero when no encoding stands at the front of `p`, else the length and the value
   of the one that does.
   */
  method Get(p: seq<byte>) returns (n: nat, val: nat)
    ensures n == 0 <==> Decoded(p).None?
    ensures n > 0 ==> Decoded(p) == Some((val, n))
  {
    hide Value;
    n, val := 0, 0;
    if |p| < 1 {
      return;
    }
    match p[0]
    case 0xfd =>
      if |p| < 3 {
        return;
      }
      ValueOf2(p[1..3]);
      val := 0x100 * (p[1] as int) + p[2] as int;
      if val < 0xfd {
        return;
      }
      n := 3;
    case 0xfe =>
      if |p| < 5 {
        return;
      }
      ValueOf4(p[1..5]);
      val := 0x100_0000 * (p[1] as int) + 0x1_0000 * (p[2] as int) + 0x100 * (p[3] as int) + p[4] as int;
      if val / 0x1_0000 == 0 {
        return;
      }
      n := 5;
    case 0xff =>
      if |p| < 9 {
        return;
      }
      val := NineByteValue(p);
      if val / 0x1_0000_0000 == 0 {
        return;
      }
      n := 9;
    case _ =>
      val := p[0] as int;
      n := 1;
  }
}
