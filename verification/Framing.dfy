/**
 Messages through the socket's buffer: `lnsocket_encrypt` and `lnsocket_read` in `lnsocket.c`.

 The buffer holds 131072 bytes. Reading cuts two slices from it, one for the ciphertext and one
 for the plaintext, so the longest message that can be read is shorter than the longest that can
 be sent.
 */
module Framing {
  import opened Bytes
  import opened HashStream
  import opened CryptoMsg
  import T = Transport

  const MSGBUF_MEM: nat := 65536 * 2

  /** The longest message whose two slices, one of them sixteen bytes longer, fit the buffer. */
  const LONGEST_READ: nat := 65528

  /** What one read of the socket makes of the bytes to come. */
  function ReadOutcome(a: Aead, c: Chain, wire: seq<byte>): Option<(seq<byte>, Chain, seq<byte>)> {
    T.TakeUpTo(a, LONGEST_READ, c, wire)
  }

  /** A message that was encrypted reads back exactly when it is at most 65528 bytes long. */
  lemma FramedRoundTrip(a: Aead, c: Chain, msg: seq<byte>, rest: seq<byte>)
    requires a.Sound() && |msg| < 0x1_0000
    ensures ReadOutcome(a, c, Frame(a, c, msg) + rest)
            == if |msg| <= LONGEST_READ then Some((msg, AfterMessage(c), rest)) else None
  {
    hide T.TakeMessage, Frame, AfterMessage;
    T.TakeFrame(a, c, msg, rest);
  }

  predicate Readable(msgs: seq<seq<byte>>) {
    forall i :: 0 <= i < |msgs| ==> |msgs[i]| <= LONGEST_READ
  }

  /** What `n` reads one after another make of the bytes to come, if none of them fails. */
  function ReadRun(a: Aead, c: Chain, wire: seq<byte>, n: nat): Option<(seq<seq<byte>>, Chain, seq<byte>)>
    decreases n
  {
    if n == 0 then Some(([], c, wire))
    else
      match ReadOutcome(a, c, wire)
      case None => None
      case Some((msg, c', rest)) =>
        match ReadRun(a, c', rest, n - 1)
        case None => None
        case Some((msgs, c'', rest')) => Some(([msg] + msgs, c'', rest'))
  }

  /**
   A whole session: all messages sent from one chain, through however many key rotations, read back
   in order, and leave the reader's chain where the sender's is, exactly when each can be read.
   */
  lemma {:induction false} SessionRoundTrip(a: Aead, c: Chain, msgs: seq<seq<byte>>, rest: seq<byte>)
    requires a.Sound() && T.Short(msgs)
    ensures ReadRun(a, c, T.Wire(a, c, msgs) + rest, |msgs|)
            == if Readable(msgs) then Some((msgs, T.Advance(c, |msgs|), rest)) else None
    decreases |msgs|
  {
    hide Frame, AfterMessage, ReadOutcome, Aead.Sound;
    if msgs == [] {
      assert T.Wire(a, c, msgs) + rest == rest;
    } else {
      var d, later := AfterMessage(c), msgs[1..];
      var after := T.Wire(a, d, later) + rest;
      assert T.Wire(a, c, msgs) + rest == Frame(a, c, msgs[0]) + after;
      FramedRoundTrip(a, c, msgs[0], after);
      SessionRoundTrip(a, d, later, rest);
      T.AdvanceFront(c, |msgs|);
      assert msgs == [msgs[0]] + later;
      ReadableFront(msgs);
    }
  }

  /**
   Two peers that read like this, under every interleaving: whatever is sent in a direction can be
   received exactly when all of it is readable, and otherwise the direction stands still at the first
   message that is not.
   */
  lemma RunReadable(a: Aead, ab: Chain, ba: Chain, acts: seq<T.Action>)
    requires a.Sound() && forall i :: 0 <= i < |acts| ==> T.Sendable(acts[i])
    ensures var s := T.Run(a, LONGEST_READ, T.Mirrored(ab, ba), acts);
            && T.Safe(a, LONGEST_READ, ab, s.ab) && T.Safe(a, LONGEST_READ, ba, s.ba)
            && (T.ReceiveMany(a, LONGEST_READ, s.ab, |s.ab.sent|).got == s.ab.sent <==> Readable(s.ab.sent))
            && (T.ReceiveMany(a, LONGEST_READ, s.ba, |s.ba.sent|).got == s.ba.sent <==> Readable(s.ba.sent))
  {
    hide T.Run, T.ReceiveMany, T.Receive;
    T.Delivered(a, LONGEST_READ, ab, ba, acts);
  }

  lemma ReadableFront(msgs: seq<seq<byte>>)
    requires msgs != []
    ensures Readable(msgs) <==> |msgs[0]| <= LONGEST_READ && Readable(msgs[1..])
  {
    if Readable(msgs[1..]) {
      assert forall i :: 1 <= i < |msgs| ==> msgs[i] == msgs[1..][i - 1];
    }
  }

  // ---- Reading from a socket ----

  /**
   A blocking socket: the bytes still to come, the signals still to arrive, and whether it breaks or is
   closed after that.
   */
  class Stream {
    const breaks: bool
    var incoming: seq<byte>
    var interrupts: nat

    constructor (bytes: seq<byte>, interrupts: nat, breaks: bool)
      ensures incoming == bytes && this.interrupts == interrupts && this.breaks == breaks
    {
      incoming, this.interrupts, this.breaks := bytes, interrupts, breaks;
    }

    /**
     `read`: -1 when a signal interrupts it, or for good once the socket broke; 0 at the end; else any
     non-zero part of what was asked.
     */
    method Read(data: array<byte>, at: nat, size: nat) returns (done: int, interrupted: bool)
      requires 0 < size && at + size <= data.Length
      modifies `incoming, `interrupts, data
      ensures -1 <= done <= size && (interrupted ==> done < 0)
      ensures data[..at] == old(data[..at])
      ensures done <= 0 ==> incoming == old(incoming) && data[..] == old(data[..])
      ensures interrupted ==> interrupts < old(interrupts)
      ensures done <= 0 && !interrupted ==> incoming == [] && (done < 0 <==> breaks)
      ensures !interrupted ==> interrupts == old(interrupts)
      ensures done > 0 ==>
                && done <= |old(incoming)| && incoming == old(incoming)[done..]
                && data[at..at + done] == old(incoming)[..done]
    {
      if * {
        if interrupts > 0 {
          interrupts := interrupts - 1;
          return -1, true;
        }
      }
      interrupted := false;
      if incoming == [] {
        done := if breaks then -1 else 0;
        return;
      }
      var most := if size < |incoming| then size else |incoming|;
      done :| 1 <= done <= most;
      CopyInto(data, at, incoming[..done]);
      incoming := incoming[done..];
    }
  }

  /** `read_all`: succeeds exactly when the stream still holds enough, else takes all it held. */
  method ReadAll(s: Stream, data: array<byte>, at: nat, size: nat) returns (ok: bool)
    requires at + size <= data.Length
    modifies s`incoming, s`interrupts, data
    ensures ok <==> size <= |old(s.incoming)|
    ensures data[..at] == old(data[..at])
    ensures ok ==> data[at..at + size] == old(s.incoming)[..size]
    ensures s.incoming == if ok then old(s.incoming)[size..] else []
  {
    var done := 0;
    ghost var all, head := s.incoming, data[..at];
    while done < size
      invariant 0 <= done <= size && done <= |all|
      invariant s.incoming == all[done..]
      invariant data[..at + done] == head + all[..done]
      decreases size - done, s.interrupts
    {
      ghost var before := data[..at + done];
      var n, interrupted := s.Read(data, at + done, size - done);
      assert data[..at + done] == before;
      if n < 0 && interrupted {
        continue;
      }
      if n <= 0 {
        Halves(data[..at + done], head, all[..done]);
        assert data[..at] == data[..at + done][..at];
        return false;
      }
      assert data[..at + done + n] == data[..at + done] + data[at + done..at + done + n];
      Rejoin(head, all, done, n);
      done := done + n;
    }
    Halves(data[..at + size], head, all[..size]);
    assert data[..at] == data[..at + size][..at] && data[at..at + size] == data[..at + size][at..];
    ok := true;
  }

  lemma Halves(x: seq<byte>, y: seq<byte>, z: seq<byte>)
    requires x == y + z
    ensures x[..|y|] == y && x[|y|..] == z
  {
  }

  lemma Rejoin(head: seq<byte>, all: seq<byte>, m: nat, n: nat)
    requires m + n <= |all|
    ensures head + all[..m] + all[m..][..n] == head + all[..m + n] && all[m..][n..] == all[m + n..]
  {
    assert all[..m + n] == all[..m] + all[m..][..n];
  }

  // ---- The socket ----

  /** The buffer and its cursor, and the crypto state. */
  class LnSocket {
    const cs: CryptoState
    const msgbuf: array<byte>
    var p: nat

    ghost predicate Valid()
      reads this, cs
    {
      cs.Valid() && msgbuf.Length == MSGBUF_MEM && p <= MSGBUF_MEM
    }

    constructor (cs: CryptoState)
      requires cs.Valid()
      ensures Valid() && this.cs == cs && fresh(msgbuf)
    {
      this.cs := cs;
      msgbuf := new byte[MSGBUF_MEM];
      p := 0;
    }

    /** `cursor_slice`: the next `size` bytes of the buffer, zeroed, or nothing. */
    method Slice(size: nat) returns (ok: bool, start: nat)
      requires Valid()
      modifies this`p, msgbuf
      ensures Valid() && start == old(p)
      ensures ok <==> old(p) + size <= MSGBUF_MEM
      ensures p == if ok then old(p) + size else old(p)
      ensures ok ==> msgbuf[start..p] == Zeros(size)
      ensures msgbuf[..start] == old(msgbuf[..start])
    {
      start := p;
      if p + size > MSGBUF_MEM {
        return false, start;
      }
      p := p + size;
      CopyInto(msgbuf, start, Zeros(size));
      ok := true;
    }

    /** `lnsocket_encrypt`: the frame at the start of the buffer, which always has room for it. */
    method Encrypt(msg: seq<byte>, connected: bool) returns (ok: bool, outlen: nat)
      requires Valid() && |msg| < 0x1_0000
      modifies this`p, msgbuf, cs
      ensures Valid() && (ok <==> connected)
      ensures ok ==>
                && outlen == |msg| + HEADER + TAG <= MSGBUF_MEM
                && msgbuf[..outlen] == Frame(cs.aead, old(cs.Sending()), msg)
                && cs.Sending() == AfterMessage(old(cs.Sending()))
                && cs.Receiving() == old(cs.Receiving())
    {
      hide Frame, AfterMessage, Aead.Sound;
      p := 0;
      if !connected {
        return false, 0;
      }
      ok, outlen := cs.EncryptMsg(msg, msgbuf, MSGBUF_MEM);
    }

    /** The first part of `lnsocket_read`: eighteen bytes and their length. */
    method ReadHeader(s: Stream) returns (ok: bool, size: nat)
      requires Valid()
      modifies cs`rn, s`incoming, s`interrupts
      ensures Valid()
      ensures ok <==> |old(s.incoming)| >= HEADER
                      && OpenedHeader(cs.aead, old(cs.Receiving()), old(s.incoming)[..HEADER]).Some?
      ensures ok ==>
                var l := OpenedHeader(cs.aead, old(cs.Receiving()), old(s.incoming)[..HEADER]).value;
                |l| == 2 && size == FromLength16(l) < 0x1_0000 && s.incoming == old(s.incoming)[HEADER..]
      ensures cs.Receiving() == if |old(s.incoming)| >= HEADER then Used(old(cs.Receiving())) else old(cs.Receiving())
    {
      hide Nonce, FromLength16, Used, OpenedHeader;
      size := 0;
      var hdr := new byte[HEADER];
      ok := ReadAll(s, hdr, 0, HEADER);
      if !ok {
        return;
      }
      assert hdr[..] == hdr[0..HEADER];
      ok, size := cs.DecryptHeader(hdr[..]);
    }

    /** The rest of it: two slices, the ciphertext read into the first and opened into the second. */
    method ReadBody(s: Stream, size: nat) returns (ok: bool, start: nat)
      requires Valid() && p == 0 && size < 0x1_0000
      modifies this`p, msgbuf, cs`rn, cs`rk, cs`r_ck, s`incoming, s`interrupts
      ensures Valid()
      ensures var c, wire := old(cs.Receiving()), old(s.incoming);
              var all := size <= LONGEST_READ && |wire| >= size + TAG;
              && (ok <==> all && cs.aead.open(c.k, Nonce(c.n), [], wire[..size + TAG]).Some?)
              && (ok ==>
                    var msg := cs.aead.open(c.k, Nonce(c.n), [], wire[..size + TAG]).value;
                    && |msg| == size && size + TAG <= start && start + size <= MSGBUF_MEM
                    && msgbuf[start..start + size] == msg
                    && s.incoming == wire[size + TAG..])
              && cs.Receiving() == if ok then Rotated(Used(c)) else if all then Used(c) else c
    {
      hide Nonce, Rotated, Used;
      var enc, dec;
      ok, enc := Slice(size + TAG);
      start := enc;
      if !ok {
        return;
      }
      ok, dec := Slice(size);
      start := dec;
      if !ok {
        return;
      }
      ok := ReadAll(s, msgbuf, enc, size + TAG);
      if !ok {
        return;
      }
      var sealed := msgbuf[enc..enc + (size + TAG)];
      ok := cs.DecryptBody(sealed, msgbuf, dec, size);
    }

    /**
     `lnsocket_read`: the message is in `msgbuf[start..start + len]`, behind the ciphertext's slice.
     After a failure the receiving chain has used up the nonces of what it tried to open.
     */
    method Read(s: Stream) returns (ok: bool, start: nat, len: nat)
      requires Valid()
      modifies this`p, msgbuf, cs`rn, cs`rk, cs`r_ck, s`incoming, s`interrupts
      ensures Valid() && cs.Sending() == old(cs.Sending())
      ensures ok <==> ReadOutcome(cs.aead, old(cs.Receiving()), old(s.incoming)).Some?
      ensures ok ==>
                var (msg, c', rest) := ReadOutcome(cs.aead, old(cs.Receiving()), old(s.incoming)).value;
                && len == |msg| && len + TAG <= start && start + len <= MSGBUF_MEM
                && msgbuf[start..start + len] == msg
                && cs.Receiving() == c' && s.incoming == rest
      ensures !ok ==> cs.Receiving() == AfterFailure(cs.aead, old(cs.Receiving()), old(s.incoming))
    {
      hide Nonce, FromLength16, Rotated, Used, OpenedHeader, Aead.Sound, T.TakeMessage, AfterFailure;
      start, len := 0, 0;
      ghost var c, wire := cs.Receiving(), s.incoming;
      p := 0;
      ok, len := ReadHeader(s);
      if !ok {
        NoHeader(cs.aead, c, wire);
        return;
      }
      HeaderOpened(cs.aead, c, wire, len);
      ghost var n := HEADER + len + TAG;
      if |wire| >= n {
        assert wire[HEADER..][..len + TAG] == wire[HEADER..n];
        assert wire[HEADER..][len + TAG..] == wire[n..];
      }
      ok, start := ReadBody(s, len);
    }
  }

  /** Where a failed read leaves the receiving chain: a nonce is used up before its tag is checked. */
  function AfterFailure(a: Aead, c: Chain, wire: seq<byte>): Chain {
    if |wire| < HEADER then c
    else
      match OpenedHeader(a, c, wire[..HEADER])
      case None => Used(c)
      case Some(l) =>
        if |l| != 2 || FromLength16(l) > LONGEST_READ || |wire| < HEADER + FromLength16(l) + TAG then Used(c)
        else Used(Used(c))
  }

  lemma NoHeader(a: Aead, c: Chain, wire: seq<byte>)
    requires |wire| < HEADER || OpenedHeader(a, c, wire[..HEADER]).None?
    ensures T.TakeMessage(a, c, wire).None?
    ensures AfterFailure(a, c, wire) == if |wire| < HEADER then c else Used(c)
  {
    hide OpenedHeader, Used;
  }

  /** What `TakeMessage` makes of a stream whose header opened with length `size`. */
  lemma HeaderOpened(a: Aead, c: Chain, wire: seq<byte>, size: nat)
    requires a.Sound() && |wire| >= HEADER && OpenedHeader(a, c, wire[..HEADER]).Some?
    requires |OpenedHeader(a, c, wire[..HEADER]).value| == 2
    requires size == FromLength16(OpenedHeader(a, c, wire[..HEADER]).value)
    ensures var n := HEADER + size + TAG;
            T.TakeMessage(a, c, wire) ==
            if |wire| < n then None
            else match a.open(c.k, Nonce(Used(c).n), [], wire[HEADER..n])
                 case None => None
                 case Some(msg) => Some((msg, Rotated(Used(Used(c))), wire[n..]))
    ensures T.TakeMessage(a, c, wire).Some? ==> |T.TakeMessage(a, c, wire).value.0| == size
    ensures AfterFailure(a, c, wire)
            == if size > LONGEST_READ || |wire| < HEADER + size + TAG then Used(c) else Used(Used(c))
  {
    hide Nonce, FromLength16, Rotated;
  }
}
