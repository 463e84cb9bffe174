/**
 Two peers that exchange encrypted messages over two byte streams, in any interleaving.

 Each direction runs from one peer's sending chain to the other's receiving chain. Frames lie
 on the wire as bytes; the reader finds their ends from the lengths it decrypts.
 */
module Transport {
  import opened Bytes
  import opened HashStream
  import opened CryptoMsg
  import opened Hmac

  // ---- One direction ----

  /** The chain after `m` messages. */
  function Advance(c: Chain, m: nat): Chain {
    if m == 0 then c else AfterMessage(Advance(c, m - 1))
  }

  /** The bytes of `msgs`, sent one after another from chain `c`. */
  function Wire(a: Aead, c: Chain, msgs: seq<seq<byte>>): seq<byte>
    decreases |msgs|
  {
    if msgs == [] then [] else Frame(a, c, msgs[0]) + Wire(a, AfterMessage(c), msgs[1..])
  }

  predicate Short(msgs: seq<seq<byte>>) {
    forall i :: 0 <= i < |msgs| ==> |msgs[i]| < 0x1_0000
  }

  /**
   Take one message off the front of the stream, as the receiving functions do it: eighteen bytes,
   their tag and length, then as many bytes as that says, and their tag.
   */
  function TakeMessage(a: Aead, c: Chain, wire: seq<byte>): Option<(seq<byte>, Chain, seq<byte>)> {
    if |wire| < HEADER then None
    else
      match OpenedHeader(a, c, wire[..HEADER])
      case None => None
      case Some(l) =>
        if |l| != 2 || |wire| < HEADER + FromLength16(l) + TAG then None
        else
          var n := HEADER + FromLength16(l) + TAG;
          match a.open(c.k, Nonce(Used(c).n), [], wire[HEADER..n])
          case None => None
          case Some(msg) => Some((msg, AfterMessage(c), wire[n..]))
  }

  /** A frame followed by anything gives back its message and leaves the rest. */
  lemma TakeFrame(a: Aead, c: Chain, msg: seq<byte>, rest: seq<byte>)
    requires a.Sound() && |msg| < 0x1_0000
    ensures TakeMessage(a, c, Frame(a, c, msg) + rest) == Some((msg, AfterMessage(c), rest))
  {
    hide Nonce, AfterMessage, Used, Length16, FromLength16;
    Length16RoundTrip(|msg|);
    var header, body := SealedHeader(a, c, |msg|), SealedBody(a, c, msg);
    var wire := Frame(a, c, msg) + rest;
    assert wire[..HEADER] == header;
    assert wire[HEADER..HEADER + |body|] == body;
    assert wire[HEADER + |body|..] == rest;
  }

  lemma {:induction false} WireSnoc(a: Aead, c: Chain, msgs: seq<seq<byte>>, msg: seq<byte>)
    ensures Wire(a, c, msgs + [msg]) == Wire(a, c, msgs) + Frame(a, Advance(c, |msgs|), msg)
    decreases |msgs|
  {
    hide Frame, AfterMessage;
    if msgs == [] {
      assert [] + [msg] == [msg];
      assert Wire(a, AfterMessage(c), []) == [];
    } else {
      var d := AfterMessage(c);
      assert (msgs + [msg])[1..] == msgs[1..] + [msg];
      WireSnoc(a, d, msgs[1..], msg);
      AdvanceFront(c, |msgs|);
    }
  }

  lemma {:induction false} AdvanceFront(c: Chain, m: nat)
    requires m > 0
    ensures Advance(c, m) == Advance(AfterMessage(c), m - 1)
  {
    hide AfterMessage;
    if m > 1 {
      AdvanceFront(c, m - 1);
    }
  }

  datatype Direction = Direction(
    sender: Chain,
    receiver: Chain,
    wire: seq<byte>,
    sent: seq<seq<byte>>,
    got: seq<seq<byte>>)

  function Send(a: Aead, d: Direction, msg: seq<byte>): Direction {
    d.(sender := AfterMessage(d.sender), wire := d.wire + Frame(a, d.sender, msg), sent := d.sent + [msg])
  }

  /** What a reader takes that has room for messages of at most `limit` bytes. */
  function TakeUpTo(a: Aead, limit: nat, c: Chain, wire: seq<byte>): Option<(seq<byte>, Chain, seq<byte>)> {
    match TakeMessage(a, c, wire)
    case None => None
    case Some((msg, c', rest)) => if |msg| <= limit then Some((msg, c', rest)) else None
  }

  /** Receive, or stay when there is nothing that can be taken. */
  function Receive(a: Aead, limit: nat, d: Direction): Direction {
    match TakeUpTo(a, limit, d.receiver, d.wire)
    case None => d
    case Some((msg, receiver, rest)) => d.(receiver := receiver, wire := rest, got := d.got + [msg])
  }

  /** How many messages come before the first that is too long. */
  function FirstLong(limit: nat, msgs: seq<seq<byte>>): (n: nat)
    ensures n <= |msgs| && forall i :: 0 <= i < n ==> |msgs[i]| <= limit
    ensures n < |msgs| ==> |msgs[n]| > limit
  {
    if msgs == [] || |msgs[0]| > limit then 0 else 1 + FirstLong(limit, msgs[1..])
  }

  /**
   Since both ends started from `start`: what was sent is what was delivered and then what is on
   the wire; each chain has advanced by its end's count of messages; and the receiver's chain,
   taken over the messages on the wire, is the sender's.
   */
  ghost predicate InStep(a: Aead, start: Chain, d: Direction) {
    && |d.got| <= |d.sent| && Short(d.sent)
    && d.got == d.sent[..|d.got|]
    && d.wire == Wire(a, d.receiver, d.sent[|d.got|..])
    && d.receiver == Advance(start, |d.got|)
    && d.sender == Advance(start, |d.sent|)
    && d.sender == Advance(d.receiver, |d.sent| - |d.got|)
  }

  lemma SendInStep(a: Aead, start: Chain, d: Direction, msg: seq<byte>)
    requires InStep(a, start, d) && |msg| < 0x1_0000
    ensures InStep(a, start, Send(a, d, msg))
  {
    hide Frame, AfterMessage, Wire;
    var pending := d.sent[|d.got|..];
    WireSnoc(a, d.receiver, pending, msg);
    assert (d.sent + [msg])[|d.got|..] == pending + [msg];
  }

  lemma ReceiveInStep(a: Aead, limit: nat, start: Chain, d: Direction)
    requires a.Sound() && InStep(a, start, d)
    ensures InStep(a, start, Receive(a, limit, d))
    ensures |d.got| < |d.sent| && |d.sent[|d.got|]| <= limit
            ==> Receive(a, limit, d).got == d.got + [d.sent[|d.got|]]
    ensures |d.got| == |d.sent| || |d.sent[|d.got|]| > limit ==> Receive(a, limit, d) == d
    ensures Receive(a, limit, d).sent == d.sent
  {
    hide Frame, AfterMessage, TakeMessage;
    var pending := d.sent[|d.got|..];
    if pending == [] {
      TakeNothing(a, d.receiver);
    } else {
      TakeFrame(a, d.receiver, pending[0], Wire(a, AfterMessage(d.receiver), pending[1..]));
      AdvanceFront(d.receiver, |pending|);
      assert pending[1..] == d.sent[|d.got| + 1..];
    }
  }

  lemma TakeNothing(a: Aead, c: Chain)
    ensures TakeMessage(a, c, []) == None
  {
  }

  // ---- Two peers ----

  datatype System = System(ab: Direction, ba: Direction)

  datatype Action =
    | SendAB(msg: seq<byte>)
    | SendBA(msg: seq<byte>)
    | ReceiveAB
    | ReceiveBA

  predicate Sendable(act: Action) {
    match act
    case SendAB(msg) => |msg| < 0x1_0000
    case SendBA(msg) => |msg| < 0x1_0000
    case _ => true
  }

  function Step(a: Aead, limit: nat, s: System, act: Action): System {
    match act
    case SendAB(msg) => s.(ab := Send(a, s.ab, msg))
    case SendBA(msg) => s.(ba := Send(a, s.ba, msg))
    case ReceiveAB => s.(ab := Receive(a, limit, s.ab))
    case ReceiveBA => s.(ba := Receive(a, limit, s.ba))
  }

  function Run(a: Aead, limit: nat, s: System, acts: seq<Action>): System {
    if acts == [] then s else Step(a, limit, Run(a, limit, s, acts[..|acts| - 1]), acts[|acts| - 1])
  }

  function Fresh(c: Chain): Direction {
    Direction(c, c, [], [], [])
  }

  /** Each peer's receiving chain is the other's sending chain, and nothing has been said. */
  function Mirrored(ab: Chain, ba: Chain): System {
    System(Fresh(ab), Fresh(ba))
  }

  /** In step, and nothing was delivered from the first message on that is too long for its reader. */
  ghost predicate Delivering(a: Aead, limit: nat, start: Chain, d: Direction) {
    InStep(a, start, d) && |d.got| <= FirstLong(limit, d.sent)
  }

  lemma {:induction false} FirstLongGrows(limit: nat, msgs: seq<seq<byte>>, msg: seq<byte>)
    ensures FirstLong(limit, msgs) <= FirstLong(limit, msgs + [msg])
    ensures FirstLong(limit, msgs) < |msgs| ==> FirstLong(limit, msgs + [msg]) == FirstLong(limit, msgs)
  {
    if msgs != [] {
      FirstLongGrows(limit, msgs[1..], msg);
      assert (msgs + [msg])[1..] == msgs[1..] + [msg];
    }
  }

  lemma SendDelivering(a: Aead, limit: nat, start: Chain, d: Direction, msg: seq<byte>)
    requires Delivering(a, limit, start, d) && |msg| < 0x1_0000
    ensures Delivering(a, limit, start, Send(a, d, msg))
  {
    hide InStep, FirstLong;
    SendInStep(a, start, d, msg);
    FirstLongGrows(limit, d.sent, msg);
  }

  lemma ReceiveDelivering(a: Aead, limit: nat, start: Chain, d: Direction)
    requires a.Sound() && Delivering(a, limit, start, d)
    ensures Delivering(a, limit, start, Receive(a, limit, d))
    ensures Receive(a, limit, d).sent == d.sent
    ensures if |d.got| < FirstLong(limit, d.sent) then Receive(a, limit, d).got == d.got + [d.sent[|d.got|]]
            else Receive(a, limit, d) == d
  {
    hide Receive, FirstLong;
    ReceiveInStep(a, limit, start, d);
  }

  /** After every run, both directions are in step. */
  lemma {:induction false} RunInStep(a: Aead, limit: nat, ab: Chain, ba: Chain, acts: seq<Action>)
    requires a.Sound() && forall i :: 0 <= i < |acts| ==> Sendable(acts[i])
    ensures var s := Run(a, limit, Mirrored(ab, ba), acts);
            Delivering(a, limit, ab, s.ab) && Delivering(a, limit, ba, s.ba)
  {
    hide Delivering, Send, Receive;
    if acts == [] {
      FreshInStep(a, limit, ab);
      FreshInStep(a, limit, ba);
    } else {
      var n := |acts| - 1;
      RunInStep(a, limit, ab, ba, acts[..n]);
      var s := Run(a, limit, Mirrored(ab, ba), acts[..n]);
      assert Sendable(acts[n]);
      match acts[n]
      case SendAB(msg) => SendDelivering(a, limit, ab, s.ab, msg);
      case SendBA(msg) => SendDelivering(a, limit, ba, s.ba, msg);
      case ReceiveAB => ReceiveDelivering(a, limit, ab, s.ab);
      case ReceiveBA => ReceiveDelivering(a, limit, ba, s.ba);
    }
  }

  lemma FreshInStep(a: Aead, limit: nat, c: Chain)
    ensures Delivering(a, limit, c, Fresh(c))
  {
  }

  /** `n` receives, one after another. */
  function ReceiveMany(a: Aead, limit: nat, d: Direction, n: nat): Direction
    decreases n
  {
    if n == 0 then d else ReceiveMany(a, limit, Receive(a, limit, d), n - 1)
  }

  /** Receiving goes on up to the first message that is too long, and no further. */
  lemma {:induction false} Drained(a: Aead, limit: nat, start: Chain, d: Direction, n: nat)
    requires a.Sound() && Delivering(a, limit, start, d)
    ensures var f := FirstLong(limit, d.sent);
            ReceiveMany(a, limit, d, n).got == d.sent[..if |d.got| + n < f then |d.got| + n else f]
    decreases n
  {
    hide Receive, FirstLong, Delivering, Aead.Sound;
    DeliveredPrefix(a, limit, start, d);
    if n > 0 {
      ReceiveDelivering(a, limit, start, d);
      Drained(a, limit, start, Receive(a, limit, d), n - 1);
    }
  }

  lemma DeliveredPrefix(a: Aead, limit: nat, start: Chain, d: Direction)
    requires Delivering(a, limit, start, d)
    ensures |d.got| <= FirstLong(limit, d.sent) <= |d.sent| && d.got == d.sent[..|d.got|]
  {
    hide Wire, Advance, FirstLong;
  }

  /**
   What every run comes to, in one direction: what was delivered is a prefix of what was sent, and each
   chain counts its end's messages; with everything delivered the wire is empty and the chains are
   equal; the next receive delivers the next message unless it is too long for the reader, and then
   the direction stands still; so everything sent can be received exactly when nothing is too long.
   */
  ghost predicate Safe(a: Aead, limit: nat, start: Chain, d: Direction) {
    && d.got <= d.sent
    && d.sender == Advance(start, |d.sent|) && d.receiver == Advance(start, |d.got|)
    && (d.got == d.sent ==> d.wire == [] && d.receiver == d.sender)
    && (d.got != d.sent ==>
          if |d.sent[|d.got|]| <= limit then Receive(a, limit, d).got == d.got + [d.sent[|d.got|]]
          else Receive(a, limit, d) == d)
    && (ReceiveMany(a, limit, d, |d.sent|).got == d.sent <==> forall i :: 0 <= i < |d.sent| ==> |d.sent[i]| <= limit)
  }

  lemma DeliveringIsSafe(a: Aead, limit: nat, start: Chain, d: Direction)
    requires a.Sound() && Delivering(a, limit, start, d)
    ensures Safe(a, limit, start, d)
  {
    hide Receive, TakeMessage, ReceiveMany, Wire, Advance, FirstLong;
    ReceiveInStep(a, limit, start, d);
    Drained(a, limit, start, d, |d.sent|);
    NothingOnWire(a, d.receiver);
    assert d.sent[..|d.sent|] == d.sent && d.sent[|d.sent|..] == [];
  }

  lemma NothingOnWire(a: Aead, c: Chain)
    ensures Wire(a, c, []) == [] && Advance(c, 0) == c
  {
  }

  /** Safety over whole runs, under every interleaving and in both directions. */
  lemma Delivered(a: Aead, limit: nat, ab: Chain, ba: Chain, acts: seq<Action>)
    requires a.Sound() && forall i :: 0 <= i < |acts| ==> Sendable(acts[i])
    ensures var s := Run(a, limit, Mirrored(ab, ba), acts); Safe(a, limit, ab, s.ab) && Safe(a, limit, ba, s.ba)
  {
    hide Delivering, Safe, Run;
    RunInStep(a, limit, ab, ba, acts);
    var s := Run(a, limit, Mirrored(ab, ba), acts);
    DeliveringIsSafe(a, limit, ab, s.ab);
    DeliveringIsSafe(a, limit, ba, s.ba);
  }

  // ---- Nonces and rotation ----

  /** A key and chaining key after `r` rotations. */
  function Epoch(k: seq<byte>, ck: seq<byte>, r: nat): Chain {
    if r == 0 then Chain(0, k, ck)
    else
      var e := Epoch(k, ck, r - 1);
      var (ck', k') := TwoKeys(e.ck, e.k);
      Chain(0, k', ck')
  }

  lemma MessageStep(c: Chain, j: nat)
    requires c.n == 2 * j && j < 500
    ensures j < 499 ==> AfterMessage(c) == c.(n := 2 * (j + 1))
    ensures j == 499 ==> AfterMessage(c) == Chain(0, TwoKeys(c.ck, c.k).1, TwoKeys(c.ck, c.k).0)
  {
    hide TwoKeys;
  }

  lemma CountBy500(m: nat)
    requires m > 0
    ensures m % 500 == 0 ==> m / 500 == (m - 1) / 500 + 1 && (m - 1) % 500 == 499
    ensures m % 500 != 0 ==> m / 500 == (m - 1) / 500 && m % 500 == (m - 1) % 500 + 1
  {
  }

  /** The chain after `m` messages: five hundred to a key, two nonces to a message. */
  lemma {:induction false} NonceSchedule(k: seq<byte>, ck: seq<byte>, m: nat)
    ensures Advance(Chain(0, k, ck), m) == Epoch(k, ck, m / 500).(n := 2 * (m % 500))
  {
    hide TwoKeys, AfterMessage;
    if m > 0 {
      NonceSchedule(k, ck, m - 1);
      MessageStep(Advance(Chain(0, k, ck), m - 1), (m - 1) % 500);
      CountBy500(m);
    }
  }

  /** One of the two uses that message `m` makes of a key: in which epoch, and under which nonce. */
  function UseOf(k: seq<byte>, ck: seq<byte>, m: nat, body: bool): (nat, seq<byte>) {
    (m / 500, NonceFor(Advance(Chain(0, k, ck), m), body))
  }

  /**
   Message `m` is sealed with the key of epoch `m / 500` under the nonces of its two uses: the length
   under 2 (m mod 500), with its high byte first, and the message under the next nonce.
   */
  lemma FrameUses(a: Aead, k: seq<byte>, ck: seq<byte>, m: nat, msg: seq<byte>)
    ensures Frame(a, Advance(Chain(0, k, ck), m), msg)
            == a.seal(Epoch(k, ck, m / 500).k, UseOf(k, ck, m, false).1, [], [Octet(|msg| / 256), Octet(|msg|)])
               + a.seal(Epoch(k, ck, m / 500).k, UseOf(k, ck, m, true).1, [], msg)
    ensures UseOf(k, ck, m, false) == (m / 500, Nonce(2 * (m % 500)))
    ensures UseOf(k, ck, m, true) == (m / 500, Nonce(2 * (m % 500) + 1))
  {
    hide Advance, Epoch, NonceFor, Nonce, Octet;
    NonceSchedule(k, ck, m);
    NonceForIs(Advance(Chain(0, k, ck), m), false);
    NonceForIs(Advance(Chain(0, k, ck), m), true);
  }

  /** A rotation in terms of HMAC: the chaining key and the key together give the next two (BOLT #8). */
  lemma EpochStep(k: seq<byte>, ck: seq<byte>, r: nat)
    ensures var e, next := Epoch(k, ck, r), Epoch(k, ck, r + 1);
            var prk := MacSha256(e.ck, e.k);
            next.n == 0 && next.ck == MacSha256(prk, [1]) && next.k == MacSha256(prk, next.ck + [2])
  {
    hide TwoKeys, MacSha256;
    TwoKeysAre(Epoch(k, ck, r).ck, Epoch(k, ck, r).k);
  }

  lemma {:induction false} LittleEndianInjective(x: nat, y: nat, len: nat)
    requires x < Pow256(len) && y < Pow256(len) && LittleEndian(x, len) == LittleEndian(y, len)
    ensures x == y
  {
    hide Octet;
    if len > 0 {
      OctetValue(x);
      OctetValue(y);
      assert LittleEndian(x, len)[0] == Octet(x) && LittleEndian(y, len)[0] == Octet(y);
      assert LittleEndian(x, len)[1..] == LittleEndian(x / 256, len - 1);
      assert LittleEndian(y, len)[1..] == LittleEndian(y / 256, len - 1);
      LittleEndianInjective(x / 256, y / 256, len - 1);
    }
  }

  lemma NonceInjective(x: nat, y: nat)
    requires x < ROTATE_AT && y < ROTATE_AT && Nonce(x) == Nonce(y)
    ensures x == y
  {
    hide Octet, LittleEndian;
    assert Pow256(8) >= ROTATE_AT by {
      assert Pow256(2) == 0x1_0000;
    }
    assert Nonce(x)[4..] == LittleEndian(x, 8) && Nonce(y)[4..] == LittleEndian(y, 8);
    LittleEndianInjective(x, y, 8);
  }

  lemma NonceForIs(c: Chain, body: bool)
    requires c.n < 1000
    ensures NonceFor(c, body) == Nonce(c.n + if body then 1 else 0)
  {
    hide Nonce;
  }

  /** Between two rotations no twelve-byte nonce is used twice, over the whole run. */
  lemma NonceNeverReused(k: seq<byte>, ck: seq<byte>, m: nat, body: bool, m': nat, body': bool)
    requires UseOf(k, ck, m, body) == UseOf(k, ck, m', body')
    ensures m == m' && body == body'
  {
    hide Nonce, Epoch, Advance, NonceFor;
    NonceSchedule(k, ck, m);
    NonceSchedule(k, ck, m');
    NonceForIs(Advance(Chain(0, k, ck), m), body);
    NonceForIs(Advance(Chain(0, k, ck), m'), body');
    NonceInjective(2 * (m % 500) + if body then 1 else 0, 2 * (m' % 500) + if body' then 1 else 0);
    assert m == 500 * (m / 500) + m % 500 && m' == 500 * (m' / 500) + m' % 500;
  }
}
