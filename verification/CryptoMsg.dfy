/**
 The encrypted transport of `crypto.c`: nonces, key rotation, and one message at a time.

 The cipher is a parameter: two functions and what they promise. Everything else is the code's.
 */
module CryptoMsg {
  import opened Arithmetic
  import opened Bytes
  import opened HashStream
  import opened Hmac
  import Hkdf

  const TAG: nat := 16
  const HEADER: nat := 18
  const ROTATE_AT: nat := 1000

  /** An AEAD: key, nonce, associated data, then plaintext or ciphertext. */
  datatype Aead = Aead(
    seal: (seq<byte>, seq<byte>, seq<byte>, seq<byte>) -> seq<byte>,
    open: (seq<byte>, seq<byte>, seq<byte>, seq<byte>) -> Option<seq<byte>>)
  {
    /** Ciphertexts are sixteen bytes longer, and opening undoes sealing. */
    ghost predicate Sound() {
      && (forall k, n, ad, p :: |seal(k, n, ad, p)| == |p| + TAG)
      && (forall k, n, ad, p :: open(k, n, ad, seal(k, n, ad, p)) == Some(p))
      && (forall k, n, ad, c :: open(k, n, ad, c).Some? ==> |c| == |open(k, n, ad, c).value| + TAG)
    }
  }

  /** The promises can be kept: even a cipher that only appends sixteen zeros keeps them. */
  lemma SoundIsPossible() returns (a: Aead)
    ensures a.Sound()
  {
    a := Aead((k, n, ad, p) => p + Zeros(TAG), (k, n, ad, c) => if |c| < TAG then None else Some(c[..|c| - TAG]));
    forall k, n, ad, p ensures a.open(k, n, ad, a.seal(k, n, ad, p)) == Some(p) {
      assert (p + Zeros(TAG))[..|p|] == p;
    }
  }

  function LittleEndian(n: nat, len: nat): (b: seq<byte>)
    ensures |b| == len
  {
    if len == 0 then [] else [Octet(n)] + LittleEndian(n / 256, len - 1)
  }

  /** `le64_nonce`: four zero bytes, then the counter. */
  function Nonce(n: nat): (b: seq<byte>)
    ensures |b| == 12
  {
    Zeros(4) + LittleEndian(n, 8)
  }

  /** `cpu_to_be16`, keeping the low sixteen bits of the length. */
  function Length16(n: nat): (b: seq<byte>)
    ensures |b| == 2
  {
    [Octet(n / 256), Octet(n)]
  }

  function FromLength16(b: seq<byte>): nat
    requires |b| == 2
  {
    256 * (b[0] as int) + b[1] as int
  }

  /** `hkdf_two_keys`: sixty-four bytes of HKDF with empty info, in two halves. */
  function TwoKeys(salt: seq<byte>, ikm: seq<byte>): (seq<byte>, seq<byte>) {
    var okm := Hkdf.Derive(salt, ikm, [], 64);
    (okm[..32], okm[32..])
  }

  lemma FourLittle(n: nat, len: nat)
    ensures LittleEndian(n, len + 4)
            == [Octet(n), Octet(n / 0x100), Octet(n / 0x1_0000), Octet(n / 0x100_0000)]
               + LittleEndian(n / 0x1_0000_0000, len)
  {
    hide Octet, LittleEndian;
    LittleParts(n, len + 4);
    LittleParts(n / 0x100, len + 3);
    LittleParts(n / 0x1_0000, len + 2);
    LittleParts(n / 0x100_0000, len + 1);
    Quotients(n);
  }

  lemma Quotients(n: nat)
    ensures n / 0x100 / 256 == n / 0x1_0000 && n / 0x1_0000 / 256 == n / 0x100_0000
    ensures n / 0x100_0000 / 256 == n / 0x1_0000_0000
  {
  }

  lemma UpperQuotients(n: nat)
    ensures var u := n / 0x1_0000_0000;
            && u / 0x100 == n / 0x100_0000_0000 && u / 0x1_0000 == n / 0x1_0000_0000_0000
            && u / 0x100_0000 == n / 0x100_0000_0000_0000
  {
  }

  lemma LittleParts(n: nat, len: nat)
    requires len > 0
    ensures LittleEndian(n, len) == [Octet(n)] + LittleEndian(n / 256, len - 1)
  {
  }

  /** The twelve bytes of a nonce: four zeros, and the counter with its low byte first (BOLT #8). */
  lemma NonceBytes(n: nat)
    ensures Nonce(n)
            == [0, 0, 0, 0] + [Octet(n), Octet(n / 0x100), Octet(n / 0x1_0000), Octet(n / 0x100_0000)]
               + [Octet(n / 0x1_0000_0000), Octet(n / 0x100_0000_0000),
                  Octet(n / 0x1_0000_0000_0000), Octet(n / 0x100_0000_0000_0000)]
  {
    hide Octet, LittleEndian;
    FourLittle(n, 4);
    FourLittle(n / 0x1_0000_0000, 0);
    UpperQuotients(n);
    assert Zeros(4) == [0, 0, 0, 0] && |LittleEndian(n / 0x1_0000_0000 / 0x1_0000_0000, 0)| == 0;
  }

  /** The two nonces of the handshake. */
  lemma FirstNonces()
    ensures Nonce(0) == [0, 0, 0, 0, 0, 0, 0, 0, 0, 0, 0, 0]
    ensures Nonce(1) == [0, 0, 0, 0, 1, 0, 0, 0, 0, 0, 0, 0]
  {
    hide Octet, Nonce;
    NonceBytes(0);
    NonceBytes(1);
    OctetOfByte(0);
    OctetOfByte(1);
  }

  /** One direction: the next nonce, the key, and the chaining key that will replace it. */
  datatype Chain = Chain(n: nat, k: seq<byte>, ck: seq<byte>)

  /** The nonce counter is a u64. */
  function Used(c: Chain): Chain {
    c.(n := (c.n + 1) % TWO_TO_64)
  }

  function Rotated(c: Chain): Chain {
    if c.n != ROTATE_AT then c
    else
      var (ck, k) := TwoKeys(c.ck, c.k);
      Chain(0, k, ck)
  }

  /** The state after one message: two uses of the key, then perhaps a new one. */
  function AfterMessage(c: Chain): Chain {
    Rotated(Used(Used(c)))
  }

  /** A message uses its key twice, under these two nonces. */
  function NonceFor(c: Chain, body: bool): seq<byte> {
    Nonce(if body then Used(c).n else c.n)
  }

  function SealedHeader(a: Aead, c: Chain, len: nat): seq<byte> {
    a.seal(c.k, NonceFor(c, false), [], Length16(len))
  }

  function SealedBody(a: Aead, c: Chain, msg: seq<byte>): seq<byte> {
    a.seal(c.k, NonceFor(c, true), [], msg)
  }

  /** What one message looks like on the wire. */
  function Frame(a: Aead, c: Chain, msg: seq<byte>): seq<byte> {
    SealedHeader(a, c, |msg|) + SealedBody(a, c, msg)
  }

  function OpenedHeader(a: Aead, c: Chain, hdr: seq<byte>): Option<seq<byte>> {
    a.open(c.k, Nonce(c.n), [], hdr)
  }

  /** Two bytes, the high one first, keep a length exactly when it is below 2^16. */
  lemma Length16RoundTrip(n: nat)
    ensures 256 * (Length16(n)[0] as int) + Length16(n)[1] as int == n % 0x1_0000
    ensures FromLength16(Length16(n)) == n % 0x1_0000
    ensures FromLength16(Length16(n)) == n <==> n < 0x1_0000
  {
    hide Octet;
    TwoDigits(n);
    OctetValue(n / 256);
    OctetValue(n);
  }

  lemma TwoDigits(n: nat)
    ensures n % 0x1_0000 == 256 * ((n / 256) % 256) + n % 256
    ensures n % 0x1_0000 == n <==> n < 0x1_0000
  {
    var hi, low := n / 256, n % 256;
    var q, mid := hi / 256, hi % 256;
    Euclid(n, 256);
    Euclid(hi, 256);
    ModUnique(n, q, 256 * mid + low, 0x1_0000);
  }

  lemma TwoKeysLength(salt: seq<byte>, ikm: seq<byte>)
    ensures |TwoKeys(salt, ikm).0| == 32 && |TwoKeys(salt, ikm).1| == 32
  {
    hide Hkdf.Derive;
  }

  /** The two keys through HMAC alone. */
  lemma TwoKeysAre(salt: seq<byte>, ikm: seq<byte>)
    ensures var (x, y) := TwoKeys(salt, ikm);
            var prk := MacSha256(salt, ikm);
            x == MacSha256(prk, [1]) && y == MacSha256(prk, x + [2])
  {
    hide MacSha256, Hkdf.Derive;
    Hkdf.DeriveTwice(salt, ikm);
  }

  /** `hkdf_two_keys`, through the HKDF loop. */
  method HkdfTwoKeys(in1: seq<byte>, in2: seq<byte>) returns (out1: seq<byte>, out2: seq<byte>)
    requires |in1| == 32 && |in2| <= 32
    ensures (out1, out2) == TwoKeys(in1, in2)
  {
    hide Hkdf.Derive;
    var okm := new byte[64];
    Hkdf.HkdfSha256(okm, 64, in1, in2, []);
    out1, out2 := okm[..32], okm[32..64];
    assert okm[..64][..32] == out1 && okm[..64][32..] == out2;
  }

  /** `struct crypto_state`. */
  class CryptoState {
    const aead: Aead
    var rn: nat
    var sn: nat
    var sk: seq<byte>
    var rk: seq<byte>
    var s_ck: seq<byte>
    var r_ck: seq<byte>

    ghost predicate Valid()
      reads this
    {
      aead.Sound() && |sk| == 32 && |rk| == 32 && |s_ck| == 32 && |r_ck| == 32
    }

    function Sending(): Chain
      reads this
    {
      Chain(sn, sk, s_ck)
    }

    function Receiving(): Chain
      reads this
    {
      Chain(rn, rk, r_ck)
    }

    constructor (aead: Aead, sk: seq<byte>, rk: seq<byte>, ck: seq<byte>)
      requires aead.Sound() && |sk| == 32 && |rk| == 32 && |ck| == 32
      ensures Valid() && this.aead == aead && Sending() == Chain(0, sk, ck) && Receiving() == Chain(0, rk, ck)
    {
      this.aead, this.sk, this.rk, s_ck, r_ck := aead, sk, rk, ck, ck;
      rn, sn := 0, 0;
    }

    /** The keys and chaining key a handshake leaves, with both counters at zero. */
    method Install(sk: seq<byte>, rk: seq<byte>, ck: seq<byte>)
      requires aead.Sound() && |sk| == 32 && |rk| == 32 && |ck| == 32
      modifies this
      ensures Valid() && Sending() == Chain(0, sk, ck) && Receiving() == Chain(0, rk, ck)
    {
      this.sk, this.rk, rn, sn, r_ck, s_ck := sk, rk, 0, 0, ck, ck;
    }

    /**
     `cryptomsg_encrypt_msg`, writing `outlen` bytes from `out[0]`. Its guard asks for the room of the
     message, not of the frame: what is written stays inside `outcap` exactly when that has room for
     all of the frame or not even for the message.
     */
    method EncryptMsg(msg: seq<byte>, out: array<byte>, outcap: nat) returns (ok: bool, outlen: nat)
      requires Valid()
      requires |msg| <= outcap ==> |msg| + HEADER + TAG <= out.Length
      modifies this`sn, this`sk, this`s_ck, out
      ensures Valid()
      ensures ok <==> |msg| <= outcap
      ensures ok ==>
                && outlen == |msg| + HEADER + TAG && out[..outlen] == Frame(aead, old(Sending()), msg)
                && out[outlen..] == old(out[outlen..]) && Sending() == AfterMessage(old(Sending()))
      ensures !ok ==> outlen == 0 && Sending() == old(Sending()) && out[..] == old(out[..])
      ensures outlen <= outcap <==> outcap < |msg| || |msg| + HEADER + TAG <= outcap
    {
      hide TwoKeys, Nonce, Length16;
      ghost var c := Sending();
      outlen := 2 + TAG + |msg| + TAG;
      if outcap < |msg| {
        return false, 0;
      }
      var header := aead.seal(sk, Nonce(sn), [], Length16(|msg|));
      CopyInto(out, 0, header);
      sn := (sn + 1) % TWO_TO_64;
      var body := aead.seal(sk, Nonce(sn), [], msg);
      assert out[..HEADER] == out[0..HEADER] == header;
      CopyInto(out, HEADER, body);
      sn := (sn + 1) % TWO_TO_64;
      assert out[..outlen] == out[..HEADER] + out[HEADER..outlen];
      MaybeRotateSending();
      ok := true;
    }

    /** `maybe_rotate_key(&cs->sn, &cs->sk, &cs->s_ck)` */
    method MaybeRotateSending()
      requires Valid()
      modifies this`sn, this`sk, this`s_ck
      ensures Valid() && Sending() == Rotated(old(Sending()))
    {
      hide TwoKeys;
      if sn != ROTATE_AT {
        return;
      }
      TwoKeysLength(s_ck, sk);
      var newCk, newK := HkdfTwoKeys(s_ck, sk);
      s_ck, sk, sn := newCk, newK, 0;
    }

    /** `maybe_rotate_key(&cs->rn, &cs->rk, &cs->r_ck)` */
    method MaybeRotateReceiving()
      requires Valid()
      modifies this`rn, this`rk, this`r_ck
      ensures Valid() && Receiving() == Rotated(old(Receiving()))
    {
      hide TwoKeys;
      if rn != ROTATE_AT {
        return;
      }
      TwoKeysLength(r_ck, rk);
      var newCk, newK := HkdfTwoKeys(r_ck, rk);
      r_ck, rk, rn := newCk, newK, 0;
    }

    /** `cryptomsg_decrypt_header`: the nonce is used up whether the tag verifies or not. */
    method DecryptHeader(hdr: seq<byte>) returns (ok: bool, len: nat)
      requires Valid() && |hdr| == HEADER
      modifies this`rn
      ensures Valid() && Receiving() == Used(old(Receiving()))
      ensures ok <==> OpenedHeader(aead, old(Receiving()), hdr).Some?
      ensures ok ==>
                var l := OpenedHeader(aead, old(Receiving()), hdr).value;
                |l| == 2 && len == FromLength16(l) < 0x1_0000
    {
      hide Nonce;
      var npub := Nonce(rn);
      rn := (rn + 1) % TWO_TO_64;
      var r := aead.open(rk, npub, [], hdr);
      if r.None? {
        return false, 0;
      }
      ok, len := true, FromLength16(r.value);
      ByteRange(r.value[0]);
      ByteRange(r.value[1]);
    }

    /** `cryptomsg_decrypt_body`, writing from `out[at]`; only success can rotate the key. */
    method DecryptBody(input: seq<byte>, out: array<byte>, at: nat, outcap: nat) returns (ok: bool)
      requires Valid() && at + outcap <= out.Length
      modifies this`rn, this`rk, this`r_ck, out
      ensures Valid()
      ensures var c := old(Receiving());
              var r := aead.open(c.k, Nonce(c.n), [], input);
              var tried := |input| >= TAG && outcap >= |input| - TAG;
              && (ok <==> tried && r.Some?)
              && (ok ==> |r.value| + TAG == |input| && out[at..at + |r.value|] == r.value)
              && Receiving() == (if !tried then c else if ok then Rotated(Used(c)) else Used(c))
      ensures out[..at] == old(out[..at])
    {
      hide Nonce, TwoKeys;
      if |input| < TAG || outcap < |input| - TAG {
        return false;
      }
      var npub := Nonce(rn);
      rn := (rn + 1) % TWO_TO_64;
      var r := aead.open(rk, npub, [], input);
      if r.None? {
        return false;
      }
      CopyInto(out, at, r.value);
      MaybeRotateReceiving();
      ok := true;
    }
  }

  lemma ByteRange(b: byte)
    ensures 0 <= b as int < 256
  {
  }
}
