/**
 The BOLT #8 key agreement: the initiator of `handshake.c`, and a responder to agree with.

 Curve arithmetic, key serialisation and the cipher are parameters with stated promises; hashing
 and key derivation are the ones modelled here.
 */
module Handshake {
  import opened Bytes
  import opened HashStream
  import opened CryptoMsg
  import opened Hmac
  import Sha2
  import Sha256
  import T = Transport

  const PUBKEY_LEN: nat := 33

  /** Points `P` and private scalars `S`. */
  datatype Curve<!P(!new), !S(!new)> = Curve(
    pub: S -> P,
    ecdh: (P, S) -> Option<seq<byte>>,
    serialize: P -> seq<byte>,
    parse: seq<byte> -> Option<P>,
    usable: S -> bool)
  {
    /** Parsing undoes serialising, and with usable keys either side computes the same secret. */
    ghost predicate Sound() {
      && (forall p :: |serialize(p)| == PUBKEY_LEN && parse(serialize(p)) == Some(p))
      && (forall p, s :: ecdh(p, s).Some? ==> |ecdh(p, s).value| == 32)
      && (forall s, t :: usable(s) && usable(t) ==> ecdh(pub(s), t).Some? && ecdh(pub(s), t) == ecdh(pub(t), s))
    }
  }

  /** These promises can be kept too: here by two hundred and fifty-six keys and a constant secret. */
  lemma SoundIsPossible() returns (c: Curve<byte, byte>)
    ensures c.Sound() && forall s :: c.usable(s)
  {
    c := Curve(
      s => s, (p, s) => Some(Zeros(32)), p => [p] + Zeros(32), b => if |b| == 0 then None else Some(b[0]), s => true);
  }

  // ---- BOLT #8 ----

  /** What both sides keep: the handshake digest, the chaining key and the temporary key. */
  datatype Noise = Noise(h: seq<byte>, ck: seq<byte>, k: seq<byte>)

  function Ascii(s: string): seq<byte> {
    seq(|s|, i requires 0 <= i < |s| => Octet(s[i] as int))
  }

  function MixHash(n: Noise, data: seq<byte>): Noise {
    n.(h := Sha256.Hash(n.h + data))
  }

  function MixKey(n: Noise, secret: seq<byte>): Noise {
    var (ck, k) := TwoKeys(n.ck, secret);
    n.(ck := ck, k := k)
  }

  /** The state before Act One, in which the responder's static key is already mixed. */
  function Start<P(!new), S(!new)>(c: Curve<P, S>, responder: P): Noise {
    var h := Sha256.Hash(Ascii("Noise_XK_secp256k1_ChaChaPoly_SHA256"));
    MixHash(MixHash(Noise(h, h, []), Ascii("lightning")), c.serialize(responder))
  }

  /** Acts One and Two, sending: a fresh key in the open, and an empty text sealed under the new secret. */
  function SendEphemeral<P(!new), S(!new)>(c: Curve<P, S>, a: Aead, n: Noise, e: S, theirs: P)
    : Option<(Noise, seq<byte>)>
  {
    var n1 := MixHash(n, c.serialize(c.pub(e)));
    match c.ecdh(theirs, e)
    case None => None
    case Some(secret) =>
      var n2 := MixKey(n1, secret);
      var tag := a.seal(n2.k, Nonce(0), n2.h, []);
      Some((MixHash(n2, tag), [0] + c.serialize(c.pub(e)) + tag))
  }

  /** Acts One and Two, receiving: version, key and tag. */
  function ReceiveEphemeral<P(!new), S(!new)>(c: Curve<P, S>, a: Aead, n: Noise, mine: S, act: seq<byte>)
    : Option<(Noise, P)>
    requires |act| == 50
  {
    if act[0] != 0 then None
    else
      match c.parse(act[1..34])
      case None => None
      case Some(re) =>
        var n1 := MixHash(n, c.serialize(re));
        match c.ecdh(re, mine)
        case None => None
        case Some(secret) =>
          var n2 := MixKey(n1, secret);
          if a.open(n2.k, Nonce(0), n2.h, act[34..]).None? then None
          else Some((MixHash(n2, act[34..]), re))
  }

  /** Act Three, sending: the static key sealed under the old temporary key, an empty text under the last. */
  function SendStatic<P(!new), S(!new)>(c: Curve<P, S>, a: Aead, n: Noise, s: S, theirs: P)
    : Option<(Noise, seq<byte>)>
  {
    var sealed := a.seal(n.k, Nonce(1), n.h, c.serialize(c.pub(s)));
    var n1 := MixHash(n, sealed);
    match c.ecdh(theirs, s)
    case None => None
    case Some(secret) =>
      var n2 := MixKey(n1, secret);
      Some((n2, [0] + sealed + a.seal(n2.k, Nonce(0), n2.h, [])))
  }

  /** Act Three, receiving. */
  function ReceiveStatic<P(!new), S(!new)>(c: Curve<P, S>, a: Aead, n: Noise, mine: S, act: seq<byte>)
    : Option<(Noise, P)>
    requires |act| == 66
  {
    if act[0] != 0 then None
    else
      match a.open(n.k, Nonce(1), n.h, act[1..50])
      case None => None
      case Some(bytes) =>
        match c.parse(bytes)
        case None => None
        case Some(rs) =>
          var n1 := MixHash(n, act[1..50]);
          match c.ecdh(rs, mine)
          case None => None
          case Some(secret) =>
            var n2 := MixKey(n1, secret);
            if a.open(n2.k, Nonce(0), n2.h, act[50..]).None? then None else Some((n2, rs))
  }

  /** Where the initiator's state stays when an act comes to nothing: `SendEphemeral` has mixed in the key, */
  function EphemeralStuck<P(!new), S(!new)>(c: Curve<P, S>, n: Noise, e: S): Noise {
    MixHash(n, c.serialize(c.pub(e)))
  }

  /** `ReceiveEphemeral` has gone as far as the first check that fails, */
  function ActRefused<P(!new), S(!new)>(c: Curve<P, S>, n: Noise, mine: S, act: seq<byte>): Noise
    requires |act| == 50
  {
    if act[0] != 0 then n
    else
      match c.parse(act[1..34])
      case None => n
      case Some(re) =>
        var n1 := MixHash(n, c.serialize(re));
        match c.ecdh(re, mine)
        case None => n1
        case Some(secret) => MixKey(n1, secret)
  }

  /** and `SendStatic` has mixed in the sealed key. */
  function StaticStuck<P(!new), S(!new)>(c: Curve<P, S>, a: Aead, n: Noise, s: S): Noise {
    MixHash(n, a.seal(n.k, Nonce(1), n.h, c.serialize(c.pub(s))))
  }

  datatype Side = Initiator | Responder

  /** The two directions a side ends with: what it sends with, and what it receives with. */
  function Split(n: Noise, side: Side): (Chain, Chain) {
    var (first, second) := TwoKeys(n.ck, []);
    match side
    case Initiator => (Chain(0, first, n.ck), Chain(0, second, n.ck))
    case Responder => (Chain(0, second, n.ck), Chain(0, first, n.ck))
  }

  // ---- Agreement ----

  lemma EphemeralAgrees<P(!new), S(!new)>(c: Curve<P, S>, a: Aead, n: Noise, mine: S, theirs: S)
    requires c.Sound() && a.Sound() && c.usable(mine) && c.usable(theirs)
    ensures var sent := SendEphemeral(c, a, n, mine, c.pub(theirs));
            && sent.Some? && |sent.value.1| == 50
            && ReceiveEphemeral(c, a, n, theirs, sent.value.1) == Some((sent.value.0, c.pub(mine)))
  {
    hide MixHash, MixKey, Nonce;
    var key := c.serialize(c.pub(mine));
    var secret := c.ecdh(c.pub(theirs), mine).value;
    var n2 := MixKey(MixHash(n, key), secret);
    var tag := a.seal(n2.k, Nonce(0), n2.h, []);
    var act := [0] + key + tag;
    assert act[1..34] == key && act[34..] == tag;
  }

  lemma StaticAgrees<P(!new), S(!new)>(c: Curve<P, S>, a: Aead, n: Noise, mine: S, theirs: S)
    requires c.Sound() && a.Sound() && c.usable(mine) && c.usable(theirs)
    ensures var sent := SendStatic(c, a, n, mine, c.pub(theirs));
            && sent.Some? && |sent.value.1| == 66
            && ReceiveStatic(c, a, n, theirs, sent.value.1) == Some((sent.value.0, c.pub(mine)))
  {
    hide MixHash, MixKey, Nonce;
    var sealed := a.seal(n.k, Nonce(1), n.h, c.serialize(c.pub(mine)));
    var n2 := MixKey(MixHash(n, sealed), c.ecdh(c.pub(theirs), mine).value);
    var t := a.seal(n2.k, Nonce(0), n2.h, []);
    var act := [0] + sealed + t;
    assert act[1..50] == sealed && act[50..] == t;
  }

  /**
   Key agreement: for all usable static keys `is`, `rs` and ephemeral keys `ie`, `re`, each act is
   accepted, the responder learns the initiator's static key, and each side's sending chain is the
   other's receiving chain, with zero nonces and one chaining key.
   */
  lemma Agreement<P(!new), S(!new)>(c: Curve<P, S>, a: Aead, is': S, ie: S, rs: S, re: S)
    requires c.Sound() && a.Sound() && c.usable(is') && c.usable(ie) && c.usable(rs) && c.usable(re)
    ensures var n0 := Start(c, c.pub(rs));
            var one := SendEphemeral(c, a, n0, ie, c.pub(rs));
            && one.Some? && |one.value.1| == 50
            && ReceiveEphemeral(c, a, n0, rs, one.value.1) == Some((one.value.0, c.pub(ie)))
            && var two := SendEphemeral(c, a, one.value.0, re, c.pub(ie));
            && two.Some? && |two.value.1| == 50
            && ReceiveEphemeral(c, a, one.value.0, ie, two.value.1) == Some((two.value.0, c.pub(re)))
            && var three := SendStatic(c, a, two.value.0, is', c.pub(re));
            && three.Some? && |three.value.1| == 66
            && ReceiveStatic(c, a, two.value.0, re, three.value.1) == Some((three.value.0, c.pub(is')))
            && var n := three.value.0;
            && Split(n, Initiator).0 == Split(n, Responder).1
            && Split(n, Initiator).1 == Split(n, Responder).0
  {
    hide Start, SendEphemeral, ReceiveEphemeral, SendStatic, ReceiveStatic, TwoKeys;
    var n0 := Start(c, c.pub(rs));
    EphemeralAgrees(c, a, n0, ie, rs);
    var n1 := SendEphemeral(c, a, n0, ie, c.pub(rs)).value.0;
    EphemeralAgrees(c, a, n1, re, ie);
    var n2 := SendEphemeral(c, a, n1, re, c.pub(ie)).value.0;
    StaticAgrees(c, a, n2, is', re);
  }

  /** The transport that starts from a finished handshake. */
  function Connected(n: Noise): T.System {
    T.Mirrored(Split(n, Initiator).0, Split(n, Initiator).1)
  }

  /** And so every later run over it is safe, in both directions, whatever its readers have room for. */
  lemma ConnectedDelivers(a: Aead, limit: nat, n: Noise, acts: seq<T.Action>)
    requires a.Sound() && forall i :: 0 <= i < |acts| ==> T.Sendable(acts[i])
    ensures var s := T.Run(a, limit, Connected(n), acts);
            && T.Safe(a, limit, Split(n, Initiator).0, s.ab) && T.Safe(a, limit, Split(n, Initiator).1, s.ba)
    ensures Connected(n).ab.receiver == Split(n, Responder).1 && Connected(n).ba.sender == Split(n, Responder).0
  {
    hide TwoKeys, T.Run, T.Safe;
    T.Delivered(a, limit, Split(n, Initiator).0, Split(n, Initiator).1, acts);
  }

  // ---- BOLT #8, in hashes, MACs and bytes ----

  const NAME0: seq<byte> := [0x4e, 0x6f, 0x69, 0x73, 0x65, 0x5f, 0x58, 0x4b, 0x5f, 0x73, 0x65, 0x63]
  const NAME1: seq<byte> := [0x70, 0x32, 0x35, 0x36, 0x6b, 0x31, 0x5f, 0x43, 0x68, 0x61, 0x43, 0x68]
  const NAME2: seq<byte> := [0x61, 0x50, 0x6f, 0x6c, 0x79, 0x5f, 0x53, 0x48, 0x41, 0x32, 0x35, 0x36]

  /** The name of the protocol and the prologue, in ASCII. */
  const PROTOCOL: seq<byte> := NAME0 + NAME1 + NAME2
  const PROLOGUE: seq<byte> := [0x6c, 0x69, 0x67, 0x68, 0x74, 0x6e, 0x69, 0x6e, 0x67]

  lemma AsciiAppend(s: string, t: string)
    ensures Ascii(s + t) == Ascii(s) + Ascii(t)
  {
    hide Octet;
  }

  lemma LettersAre(s: string, b: seq<byte>)
    requires |s| == |b| && forall i :: 0 <= i < |s| ==> s[i] as int == b[i] as int
    ensures Ascii(s) == b
  {
    hide Octet;
    forall i | 0 <= i < |s| ensures Octet(s[i] as int) == b[i] {
      OctetOfByte(b[i]);
    }
  }

  lemma Letters0()
    ensures Ascii("Noise_XK_sec") == NAME0
  {
    hide Ascii;
    LettersAre("Noise_XK_sec", NAME0);
  }

  lemma Letters1()
    ensures Ascii("p256k1_ChaCh") == NAME1
  {
    hide Ascii;
    LettersAre("p256k1_ChaCh", NAME1);
  }

  lemma Letters2()
    ensures Ascii("aPoly_SHA256") == NAME2
  {
    hide Ascii;
    LettersAre("aPoly_SHA256", NAME2);
  }

  lemma NamesInBytes()
    ensures Ascii("Noise_XK_secp256k1_ChaChaPoly_SHA256") == PROTOCOL
    ensures Ascii("lightning") == PROLOGUE
  {
    hide Ascii, NAME0, NAME1, NAME2;
    Letters0();
    Letters1();
    Letters2();
    AsciiAppend("Noise_XK_sec", "p256k1_ChaCh");
    AsciiAppend("Noise_XK_sec" + "p256k1_ChaCh", "aPoly_SHA256");
    assert "Noise_XK_sec" + "p256k1_ChaCh" + "aPoly_SHA256" == "Noise_XK_secp256k1_ChaChaPoly_SHA256";
    LettersAre("lightning", PROLOGUE);
  }

  /** Before Act One: the protocol's name, the prologue and the responder's key, each hashed in after the other. */
  lemma StartIs<P(!new), S(!new)>(c: Curve<P, S>, responder: P)
    ensures var name := Sha256.Hash(PROTOCOL);
            Start(c, responder) == Noise(Sha256.Hash(Sha256.Hash(name + PROLOGUE) + c.serialize(responder)), name, [])
  {
    hide Sha256.Hash, Ascii, PROTOCOL, PROLOGUE;
    NamesInBytes();
  }

  /** An ephemeral act: what is hashed, under which keys, and the fifty bytes on the wire. */
  lemma EphemeralActIs<P(!new), S(!new)>(c: Curve<P, S>, a: Aead, n: Noise, e: S, theirs: P)
    ensures SendEphemeral(c, a, n, e, theirs).None? <==> c.ecdh(theirs, e).None?
    ensures c.ecdh(theirs, e).Some? ==>
              var key, prk := c.serialize(c.pub(e)), MacSha256(n.ck, c.ecdh(theirs, e).value);
              var ck := MacSha256(prk, [1]);
              var k := MacSha256(prk, ck + [2]);
              var h := Sha256.Hash(n.h + key);
              var tag := a.seal(k, [0, 0, 0, 0, 0, 0, 0, 0, 0, 0, 0, 0], h, []);
              SendEphemeral(c, a, n, e, theirs) == Some((Noise(Sha256.Hash(h + tag), ck, k), [0] + key + tag))
  {
    hide Sha256.Hash, MacSha256, TwoKeys, Nonce;
    if c.ecdh(theirs, e).Some? {
      TwoKeysAre(n.ck, c.ecdh(theirs, e).value);
      FirstNonces();
    }
  }

  /** The static act: the key sealed with nonce one, then the last secret, and the sixty-six bytes on the wire. */
  lemma StaticActIs<P(!new), S(!new)>(c: Curve<P, S>, a: Aead, n: Noise, s: S, theirs: P)
    ensures SendStatic(c, a, n, s, theirs).None? <==> c.ecdh(theirs, s).None?
    ensures c.ecdh(theirs, s).Some? ==>
              var sealed := a.seal(n.k, [0, 0, 0, 0, 1, 0, 0, 0, 0, 0, 0, 0], n.h, c.serialize(c.pub(s)));
              var prk := MacSha256(n.ck, c.ecdh(theirs, s).value);
              var ck := MacSha256(prk, [1]);
              var k := MacSha256(prk, ck + [2]);
              var h := Sha256.Hash(n.h + sealed);
              var tag := a.seal(k, [0, 0, 0, 0, 0, 0, 0, 0, 0, 0, 0, 0], h, []);
              SendStatic(c, a, n, s, theirs) == Some((Noise(h, ck, k), [0] + sealed + tag))
  {
    hide Sha256.Hash, MacSha256, TwoKeys, Nonce;
    FirstNonces();
    if c.ecdh(theirs, s).Some? {
      TwoKeysAre(n.ck, c.ecdh(theirs, s).value);
    }
  }

  /** Which ephemeral acts are accepted: version zero, a key that parses, a shared secret, and a tag that opens. */
  lemma EphemeralAcceptedIff<P(!new), S(!new)>(
    c: Curve<P, S>, a: Aead, n: Noise, mine: S, act: seq<byte>, n': Noise, re: P)
    requires |act| == 50
    ensures ReceiveEphemeral(c, a, n, mine, act) == Some((n', re))
            <==> && act[0] == 0 && c.parse(act[1..34]) == Some(re) && c.ecdh(re, mine).Some?
                 && var prk := MacSha256(n.ck, c.ecdh(re, mine).value);
                 var ck := MacSha256(prk, [1]);
                 var k := MacSha256(prk, ck + [2]);
                 var h := Sha256.Hash(n.h + c.serialize(re));
                 && a.open(k, [0, 0, 0, 0, 0, 0, 0, 0, 0, 0, 0, 0], h, act[34..]).Some?
                 && n' == Noise(Sha256.Hash(h + act[34..]), ck, k)
  {
    hide Sha256.Hash, MacSha256, TwoKeys, Nonce;
    FirstNonces();
    if c.ecdh(re, mine).Some? {
      TwoKeysAre(n.ck, c.ecdh(re, mine).value);
    }
  }

  /** And which static acts: version zero, a sealed key that opens and parses, a shared secret, and a tag that opens. */
  lemma StaticAcceptedIff<P(!new), S(!new)>(
    c: Curve<P, S>, a: Aead, n: Noise, mine: S, act: seq<byte>, n': Noise, rs: P)
    requires |act| == 66
    ensures ReceiveStatic(c, a, n, mine, act) == Some((n', rs))
            <==> && act[0] == 0
                 && a.open(n.k, [0, 0, 0, 0, 1, 0, 0, 0, 0, 0, 0, 0], n.h, act[1..50]).Some?
                 && c.parse(a.open(n.k, [0, 0, 0, 0, 1, 0, 0, 0, 0, 0, 0, 0], n.h, act[1..50]).value) == Some(rs)
                 && c.ecdh(rs, mine).Some?
                 && var prk := MacSha256(n.ck, c.ecdh(rs, mine).value);
                 var ck := MacSha256(prk, [1]);
                 var k := MacSha256(prk, ck + [2]);
                 var h := Sha256.Hash(n.h + act[1..50]);
                 && a.open(k, [0, 0, 0, 0, 0, 0, 0, 0, 0, 0, 0, 0], h, act[50..]).Some?
                 && n' == Noise(h, ck, k)
  {
    hide Sha256.Hash, MacSha256, TwoKeys, Nonce;
    FirstNonces();
    if c.ecdh(rs, mine).Some? {
      TwoKeysAre(n.ck, c.ecdh(rs, mine).value);
    }
  }

  /** What is left behind by acts that come to nothing: only what was mixed in before the step that failed. */
  lemma StuckStatesAre<P(!new), S(!new)>(c: Curve<P, S>, a: Aead, n: Noise, key: S, act: seq<byte>)
    requires |act| == 50
    ensures EphemeralStuck(c, n, key) == Noise(Sha256.Hash(n.h + c.serialize(c.pub(key))), n.ck, n.k)
    ensures StaticStuck(c, a, n, key)
            == Noise(Sha256.Hash(n.h + a.seal(n.k, [0, 0, 0, 0, 1, 0, 0, 0, 0, 0, 0, 0], n.h, c.serialize(c.pub(key)))),
                     n.ck, n.k)
    ensures act[0] != 0 || c.parse(act[1..34]).None? ==> ActRefused(c, n, key, act) == n
    ensures act[0] == 0 && c.parse(act[1..34]).Some? ==>
              var re := c.parse(act[1..34]).value;
              var h, s := Sha256.Hash(n.h + c.serialize(re)), c.ecdh(re, key);
              if s.None? then ActRefused(c, n, key, act) == Noise(h, n.ck, n.k)
              else
                var prk := MacSha256(n.ck, s.value);
                var ck := MacSha256(prk, [1]);
                ActRefused(c, n, key, act) == Noise(h, ck, MacSha256(prk, ck + [2]))
  {
    hide Sha256.Hash, MacSha256, TwoKeys, Nonce;
    FirstNonces();
    if act[0] == 0 && c.parse(act[1..34]).Some? && c.ecdh(c.parse(act[1..34]).value, key).Some? {
      TwoKeysAre(n.ck, c.ecdh(c.parse(act[1..34]).value, key).value);
    }
  }

  /** The initiator sends with the first of the last two keys, the responder with the second. */
  lemma SplitIs(n: Noise)
    ensures var prk := MacSha256(n.ck, []);
            var first := MacSha256(prk, [1]);
            var second := MacSha256(prk, first + [2]);
            && Split(n, Initiator) == (Chain(0, first, n.ck), Chain(0, second, n.ck))
            && Split(n, Responder) == (Chain(0, second, n.ck), Chain(0, first, n.ck))
  {
    hide MacSha256, TwoKeys;
    TwoKeysAre(n.ck, []);
  }

  // ---- The code ----

  lemma HashLength(m: seq<byte>)
    ensures |Sha256.Hash(m)| == 32
  {
    hide Digest, Sha256.FIPS;
    Sha256.Constants();
    Hmac.DigestLength(Sha256.FIPS, m);
    Hmac.BlocksAreShort();
  }

  /** `sha_mix_in`: the digest and the data as two updates of one context. */
  method ShaMixIn(h: seq<byte>, data: seq<byte>) returns (h': seq<byte>)
    requires |h| == 32 && 32 + |data| < INVALID
    ensures h' == Sha256.Hash(h + data) && |h'| == 32
  {
    hide Digest, Sha256.CODE, Sha256.FIPS, Sha2.SameOps;
    Sha256.Constants();
    Sha256.SameFunctions();
    SameDigest(Sha256.CODE, Sha256.FIPS, h + data);
    HashLength(h + data);
    TwoParts(h, data);
    h' := HashParts(Sha256.CODE, [h, data]);
  }

  lemma TwoParts(x: seq<byte>, y: seq<byte>)
    ensures Flatten([x, y]) == x + y
  {
    FlattenSnoc([x], y);
    FlattenSnoc([], x);
    assert [x] + [y] == [x, y] && [] + [x] == [x];
    assert [] + x == x;
  }

  /** `generate_key`, given what the random source yields: the first usable scalar. */
  method GenerateKey<P(!new), S(!new)>(c: Curve<P, S>, draws: seq<S>) returns (key: Option<S>)
    ensures key.None? <==> forall i :: 0 <= i < |draws| ==> !c.usable(draws[i])
    ensures key.Some? ==>
              exists n :: 0 <= n < |draws| && key.value == draws[n] && c.usable(draws[n])
                          && forall i :: 0 <= i < n ==> !c.usable(draws[i])
  {
    for n := 0 to |draws|
      invariant forall i :: 0 <= i < n ==> !c.usable(draws[i])
    {
      if c.usable(draws[n]) {
        return Some(draws[n]);
      }
    }
    return None;
  }

  /** The part of `struct lnsocket` that a handshake reads and writes. */
  class Socket<P(!new), S(!new)> {
    const curve: Curve<P, S>
    const aead: Aead
    const cs: CryptoState
    /** Our static key; the private part determines the public one. */
    var key: S
    var theirId: P
    var h: seq<byte>
    var ck: seq<byte>
    var tempK: seq<byte>
    var ss: seq<byte>
    var e: S
    var re: P

    ghost predicate Valid()
      reads this
    {
      curve.Sound() && aead.Sound() && cs.aead == aead && |h| == 32 && |ck| == 32
    }

    function State(): Noise
      reads this
    {
      Noise(h, ck, tempK)
    }

    constructor (curve: Curve<P, S>, aead: Aead, cs: CryptoState, key: S, theirId: P)
      requires curve.Sound() && aead.Sound() && cs.aead == aead
      ensures Valid() && this.curve == curve && this.aead == aead && this.cs == cs
      ensures this.key == key && this.theirId == theirId
    {
      this.curve, this.aead, this.cs, this.key, this.theirId := curve, aead, cs, key, theirId;
      h, ck, tempK, ss, e, re := Zeros(32), Zeros(32), [], [], key, theirId;
    }

    /** `new_handshake` */
    method NewHandshake(responderId: P)
      requires curve.Sound() && aead.Sound() && cs.aead == aead
      modifies this`h, this`ck, this`tempK
      ensures Valid() && State() == Start(curve, responderId)
    {
      hide Sha256.Hash, Ascii;
      AsciiLength("Noise_XK_secp256k1_ChaChaPoly_SHA256");
      HashLength(Ascii("Noise_XK_secp256k1_ChaChaPoly_SHA256"));
      h := Sha256.OneShot(Ascii("Noise_XK_secp256k1_ChaChaPoly_SHA256"));
      ck, tempK := h, [];
      AsciiLength("lightning");
      h := ShaMixIn(h, Ascii("lightning"));
      h := ShaMixIn(h, curve.serialize(responderId));
    }

    /** The secret `ss` into the chaining key and the temporary key. */
    method MixSecret()
      requires Valid() && |ss| <= 32
      modifies this`ck, this`tempK
      ensures Valid() && State() == MixKey(old(State()), ss)
    {
      hide TwoKeys;
      TwoKeysLength(ck, ss);
      ck, tempK := HkdfTwoKeys(ck, ss);
    }

    /** `act_one_initiator_prep`, with the ephemeral key it would generate. */
    method ActOnePrep(generated: S) returns (act1: Option<seq<byte>>)
      requires Valid()
      modifies this`e, this`h, this`ck, this`tempK, this`ss
      ensures Valid() && e == generated
      ensures var r := SendEphemeral(curve, aead, old(State()), generated, theirId);
              && (act1.Some? <==> r.Some?)
              && (act1.Some? ==> act1.value == r.value.1 && State() == r.value.0)
              && (act1.None? ==> State() == EphemeralStuck(curve, old(State()), generated))
    {
      hide Sha256.Hash, TwoKeys, Nonce;
      e := generated;
      h := ShaMixIn(h, curve.serialize(curve.pub(e)));
      var secret := curve.ecdh(theirId, e);
      if secret.None? {
        return None;
      }
      ss := secret.value;
      MixSecret();
      var tag := aead.seal(tempK, Nonce(0), h, []);
      h := ShaMixIn(h, tag);
      act1 := Some([0] + curve.serialize(curve.pub(e)) + tag);
    }

    /** `lnsocket_act_two`: check the responder's act and answer with Act Three. */
    method ActTwo(act2: seq<byte>) returns (act3: Option<seq<byte>>)
      requires Valid() && |act2| == 50
      modifies this`h, this`ck, this`tempK, this`ss, this`re, cs
      ensures Valid()
      ensures var r := ReceiveEphemeral(curve, aead, old(State()), e, act2);
              && (r.None? ==> act3.None? && State() == ActRefused(curve, old(State()), e, act2))
              && (r.Some? ==>
                    var t := SendStatic(curve, aead, r.value.0, key, r.value.1);
                    && (act3.Some? <==> t.Some?)
                    && (act3.None? ==> State() == StaticStuck(curve, aead, r.value.0, key))
                    && (act3.Some? ==>
                          && act3.value == t.value.1 && State() == t.value.0
                          && (cs.Sending(), cs.Receiving()) == Split(t.value.0, Initiator)))
      ensures act3.None? ==> cs.Sending() == old(cs.Sending()) && cs.Receiving() == old(cs.Receiving())
    {
      hide Sha256.Hash, TwoKeys, Nonce, SendStatic, StaticStuck, Split;
      if act2[0] != 0 {
        return None;
      }
      var parsed := curve.parse(act2[1..34]);
      if parsed.None? {
        return None;
      }
      re := parsed.value;
      h := ShaMixIn(h, curve.serialize(re));
      var secret := curve.ecdh(re, e);
      if secret.None? {
        return None;
      }
      ss := secret.value;
      MixSecret();
      if aead.open(tempK, Nonce(0), h, act2[34..]).None? {
        return None;
      }
      h := ShaMixIn(h, act2[34..]);
      act3 := BuildActThree();
    }

    /** `build_act_three` */
    method BuildActThree() returns (act3: Option<seq<byte>>)
      requires Valid()
      modifies this`h, this`ck, this`tempK, this`ss, cs
      ensures Valid()
      ensures var t := SendStatic(curve, aead, old(State()), key, re);
              && (act3.Some? <==> t.Some?)
              && (act3.Some? ==>
                    && act3.value == t.value.1 && State() == t.value.0
                    && (cs.Sending(), cs.Receiving()) == Split(t.value.0, Initiator))
              && (act3.None? ==> State() == StaticStuck(curve, aead, old(State()), key))
      ensures act3.None? ==> cs.Sending() == old(cs.Sending()) && cs.Receiving() == old(cs.Receiving())
    {
      hide Sha256.Hash, TwoKeys, Nonce, Split;
      var sealed := aead.seal(tempK, Nonce(1), h, curve.serialize(curve.pub(key)));
      h := ShaMixIn(h, sealed);
      var secret := curve.ecdh(re, key);
      if secret.None? {
        return None;
      }
      ss := secret.value;
      MixSecret();
      var tag := aead.seal(tempK, Nonce(0), h, []);
      HandshakeSuccess(Initiator);
      act3 := Some([0] + sealed + tag);
    }

    /** `handshake_success`: which half of the final keys is for sending depends on the side. */
    method HandshakeSuccess(side: Side)
      requires Valid()
      modifies cs
      ensures Valid() && (cs.Sending(), cs.Receiving()) == Split(State(), side)
    {
      hide TwoKeys;
      TwoKeysLength(ck, []);
      var first, second := HkdfTwoKeys(ck, []);
      if side == Responder {
        cs.Install(second, first, ck);
      } else {
        cs.Install(first, second, ck);
      }
    }
  }

  lemma AsciiLength(s: string)
    ensures |Ascii(s)| == |s|
  {
  }
}
