/**
 The block function of the SHA-2 family.

 SHA-256 and SHA-512 share one shape and differ in word size, constants and rotations, so the
 shape is stated once over a record of the operations. `Compress` is FIPS 180-4, sections 6.2.2
 and 6.4.2, with the whole message schedule and registers that shift. `Transform` is the code:
 registers that stay put while their roles rotate, and sixteen schedule words overwritten in turn.
 */
module Sha2 {
  import opened Bytes

  datatype Regs<W> = Regs(a: W, b: W, c: W, d: W, e: W, f: W, g: W, h: W)

  /** A hash function; its length field is `lengthBytes` long and counts with the last `countBytes` of them. */
  datatype Variant<!W(!new)> = Variant(
    blockBytes: nat,
    lengthBytes: nat,
    countBytes: nat,
    wordBytes: nat,
    rounds: nat,
    k: seq<W>,
    init: seq<W>,
    add: (W, W) -> W,
    ch: (W, W, W) -> W,
    maj: (W, W, W) -> W,
    bigSigma0: W -> W,
    bigSigma1: W -> W,
    smallSigma0: W -> W,
    smallSigma1: W -> W,
    word: (seq<byte>, nat) -> W,
    store: W -> seq<byte>)
  {
    /** What the shape needs of the operations. */
    ghost predicate Valid() {
      && 8 <= countBytes <= lengthBytes && lengthBytes + 1 < blockBytes
      && rounds >= 18 && rounds % 8 == 0 && |k| == rounds && |init| == 8
      && (forall x, y :: add(x, y) == add(y, x))
      && (forall w :: |store(w)| == wordBytes) && 8 * wordBytes <= blockBytes
    }
  }

  // ---- FIPS 180-4 ----

  /** The message schedule: sixteen words of the block, then each from four before it. */
  function Schedule<W(!new)>(v: Variant<W>, block: seq<byte>, n: nat): (ws: seq<W>)
    ensures |ws| == n
  {
    if n == 0 then []
    else
      var ws := Schedule(v, block, n - 1);
      var t := n - 1;
      ws + [if t < 16 then v.word(block, t)
            else v.add(v.add(v.add(v.smallSigma1(ws[t - 2]), ws[t - 7]), v.smallSigma0(ws[t - 15])), ws[t - 16])]
  }

  function FipsRound<W(!new)>(v: Variant<W>, r: Regs<W>, k: W, w: W): Regs<W> {
    var t1 := v.add(v.add(v.add(v.add(r.h, v.bigSigma1(r.e)), v.ch(r.e, r.f, r.g)), k), w);
    var t2 := v.add(v.bigSigma0(r.a), v.maj(r.a, r.b, r.c));
    Regs(v.add(t1, t2), r.a, r.b, r.c, v.add(r.d, t1), r.e, r.f, r.g)
  }

  function FipsRounds<W(!new)>(v: Variant<W>, r: Regs<W>, ws: seq<W>, n: nat): Regs<W>
    requires n <= |ws| && n <= |v.k|
  {
    if n == 0 then r else FipsRound(v, FipsRounds(v, r, ws, n - 1), v.k[n - 1], ws[n - 1])
  }

  function ToRegs<W>(s: seq<W>): Regs<W>
    requires |s| == 8
  {
    Regs(s[0], s[1], s[2], s[3], s[4], s[5], s[6], s[7])
  }

  function Compress<W(!new)>(v: Variant<W>, s: seq<W>, block: seq<byte>): (r: seq<W>)
    requires |s| == 8 && |v.k| == v.rounds
    ensures |r| == 8
  {
    AddRegs(v, s, FipsRounds(v, ToRegs(s), Schedule(v, block, v.rounds), v.rounds))
  }

  function AddRegs<W(!new)>(v: Variant<W>, s: seq<W>, r: Regs<W>): (t: seq<W>)
    requires |s| == 8
    ensures |t| == 8
  {
    [v.add(s[0], r.a), v.add(s[1], r.b), v.add(s[2], r.c), v.add(s[3], r.d),
     v.add(s[4], r.e), v.add(s[5], r.f), v.add(s[6], r.g), v.add(s[7], r.h)]
  }

  // ---- The code ----

  /** Where round `i` finds the register that plays role `role`, 0 for a up to 7 for h. */
  function Slot(role: nat, i: nat): (s: nat)
    ensures s < 8
  {
    (role + 7 * i) % 8
  }

  /** One round over registers in place: only those in the roles of d and h change. */
  function Round<W(!new)>(v: Variant<W>, r: seq<W>, i: nat, k: W, w: W): (r': seq<W>)
    requires |r| == 8
    ensures |r'| == 8
  {
    var a, b, c, d := r[Slot(0, i)], r[Slot(1, i)], r[Slot(2, i)], r[Slot(3, i)];
    var e, f, g, h := r[Slot(4, i)], r[Slot(5, i)], r[Slot(6, i)], r[Slot(7, i)];
    var t1 := v.add(v.add(v.add(v.add(h, v.bigSigma1(e)), v.ch(e, f, g)), k), w);
    var t2 := v.add(v.bigSigma0(a), v.maj(a, b, c));
    r[Slot(3, i) := v.add(d, t1)][Slot(7, i) := v.add(t1, t2)]
  }

  /** Round `i`'s schedule word, from the sixteen words in the ring. */
  function NextWord<W(!new)>(v: Variant<W>, w: seq<W>, i: nat): W
    requires |w| == 16
  {
    v.add(w[i % 16],
          v.add(v.add(v.smallSigma1(w[(i + 14) % 16]), w[(i + 9) % 16]), v.smallSigma0(w[(i + 1) % 16])))
  }

  /** The registers in place, read by role. */
  function InRoles<W>(r: seq<W>, i: nat): Regs<W>
    requires |r| == 8
  {
    Regs(r[Slot(0, i)], r[Slot(1, i)], r[Slot(2, i)], r[Slot(3, i)],
         r[Slot(4, i)], r[Slot(5, i)], r[Slot(6, i)], r[Slot(7, i)])
  }

  lemma SlotShift(role: nat, i: nat)
    ensures Slot(role + 1, i + 1) == Slot(role, i)
    ensures Slot(0, i + 1) == Slot(7, i)
  {
  }

  lemma SlotsDistinct(p: nat, q: nat, i: nat)
    requires p < 8 && q < 8
    ensures Slot(p, i) == Slot(q, i) <==> p == q
  {
  }

  /** Rotating roles is shifting registers. */
  lemma RoundIsFips<W(!new)>(v: Variant<W>, r: seq<W>, i: nat, k: W, w: W)
    requires |r| == 8
    ensures InRoles(Round(v, r, i, k, w), i + 1) == FipsRound(v, InRoles(r, i), k, w)
  {
    hide Slot;
    forall p | 0 <= p < 8
      ensures Slot(p + 1, i + 1) == Slot(p, i)
      ensures Slot(p, i) == Slot(3, i) <==> p == 3
      ensures Slot(p, i) == Slot(7, i) <==> p == 7
    {
      SlotShift(p, i);
      SlotsDistinct(p, 3, i);
      SlotsDistinct(p, 7, i);
    }
    SlotShift(0, i);
    assert Slot(0 + 1, i + 1) == Slot(0, i) && Slot(1 + 1, i + 1) == Slot(1, i) && Slot(2 + 1, i + 1) == Slot(2, i);
    assert Slot(3 + 1, i + 1) == Slot(3, i) && Slot(4 + 1, i + 1) == Slot(4, i) && Slot(5 + 1, i + 1) == Slot(5, i);
    assert Slot(6 + 1, i + 1) == Slot(6, i);
  }

  lemma {:induction false} SchedulePrefix<W(!new)>(v: Variant<W>, block: seq<byte>, m: nat, n: nat)
    requires m <= n
    ensures Schedule(v, block, n)[..m] == Schedule(v, block, m)
  {
    if m < n {
      SchedulePrefix(v, block, m, n - 1);
      assert Schedule(v, block, n)[..m] == Schedule(v, block, n - 1)[..m];
    }
  }

  /** The schedule's own equations, read off the whole array. */
  lemma ScheduleAt<W(!new)>(v: Variant<W>, block: seq<byte>, n: nat, t: nat)
    requires t < n
    ensures var ws := Schedule(v, block, n);
            ws[t] == if t < 16 then v.word(block, t)
                     else
                       v.add(v.add(v.add(v.smallSigma1(ws[t - 2]), ws[t - 7]), v.smallSigma0(ws[t - 15])), ws[t - 16])
  {
    var ws, now, before := Schedule(v, block, n), Schedule(v, block, t + 1), Schedule(v, block, t);
    SchedulePrefix(v, block, t + 1, n);
    SchedulePrefix(v, block, t, n);
    assert ws[t] == ws[..t + 1][t] == now[t];
    if t >= 16 {
      assert before == ws[..t];
      assert before[t - 2] == ws[t - 2] && before[t - 7] == ws[t - 7];
      assert before[t - 15] == ws[t - 15] && before[t - 16] == ws[t - 16];
    }
  }

  /** The ring holds the schedule words `from <= t < to`, each in slot `t % 16`. */
  ghost predicate RingHolds<W>(w: seq<W>, ws: seq<W>, from: int, to: int) {
    |w| == 16 && forall t :: 0 <= t < |ws| && from <= t < to ==> w[t % 16] == ws[t]
  }

  lemma NextWordIsScheduled<W(!new)>(v: Variant<W>, block: seq<byte>, w: seq<W>, i: nat)
    requires v.Valid() && 16 <= i < v.rounds
    requires RingHolds(w, Schedule(v, block, v.rounds), i - 16, if i < v.rounds - 1 then i else i - 1)
    ensures NextWord(v, w, i) == Schedule(v, block, v.rounds)[i]
  {
    var ws := Schedule(v, block, v.rounds);
    ScheduleAt(v, block, v.rounds, i);
    var t2, t7, t15, t16 := i - 2, i - 7, i - 15, i - 16;
    assert (i + 14) % 16 == t2 % 16 && (i + 9) % 16 == t7 % 16 && (i + 1) % 16 == t15 % 16 && i % 16 == t16 % 16;
    assert w[t2 % 16] == ws[t2] && w[t7 % 16] == ws[t7] && w[t15 % 16] == ws[t15] && w[t16 % 16] == ws[t16];
  }

  lemma RingWrite<W>(w: seq<W>, ws: seq<W>, i: nat, x: W)
    requires 16 <= i < |ws| && RingHolds(w, ws, i - 16, i) && x == ws[i]
    ensures RingHolds(w[i % 16 := x], ws, i - 15, i + 1)
  {
    forall t | 0 <= t < |ws| && i - 15 <= t < i + 1
      ensures w[i % 16 := x][t % 16] == ws[t]
    {
      assert t % 16 == i % 16 ==> t == i;
    }
  }

  /** The first sixteen rounds load the block as they go. */
  method LoadRounds<W(!new)>(v: Variant<W>, r0: seq<W>, chunk: seq<byte>, ghost start: Regs<W>)
    returns (r: seq<W>, w: seq<W>)
    requires v.Valid() && |r0| == 8 && InRoles(r0, 0) == start
    ensures |r| == 8 && w == Schedule(v, chunk, v.rounds)[..16]
    ensures InRoles(r, 16) == FipsRounds(v, start, Schedule(v, chunk, v.rounds), 16)
  {
    hide Round, FipsRound, Slot, Schedule, InRoles;
    r, w := r0, [];
    ghost var ws := Schedule(v, chunk, v.rounds);
    var i := 0;
    while i < 16
      invariant 0 <= i <= 16 && |r| == 8
      invariant w == ws[..i]
      invariant InRoles(r, i) == FipsRounds(v, start, ws, i)
    {
      ScheduleAt(v, chunk, v.rounds, i);
      w := w + [v.word(chunk, i)];
      RoundIsFips(v, r, i, v.k[i], w[i]);
      r := Round(v, r, i, v.k[i], w[i]);
      i := i + 1;
    }
  }

  lemma RingAtStart<W>(w: seq<W>, ws: seq<W>)
    requires 16 <= |ws| && w == ws[..16]
    ensures RingHolds(w, ws, 0, 16)
  {
  }

  lemma RingShrink<W>(w: seq<W>, ws: seq<W>, from: int, to: int)
    requires RingHolds(w, ws, from, to)
    ensures RingHolds(w, ws, from + 1, to)
  {
  }

  /**
   The other rounds overwrite one ring slot each. The last two use their schedule word without
   storing it; nothing reads those two slots again.
   */
  method RingRounds<W(!new)>(v: Variant<W>, r0: seq<W>, w0: seq<W>, chunk: seq<byte>, ghost start: Regs<W>)
    returns (r: seq<W>)
    requires v.Valid() && |r0| == 8 && w0 == Schedule(v, chunk, v.rounds)[..16]
    requires InRoles(r0, 16) == FipsRounds(v, start, Schedule(v, chunk, v.rounds), 16)
    ensures |r| == 8
    ensures InRoles(r, v.rounds) == FipsRounds(v, start, Schedule(v, chunk, v.rounds), v.rounds)
  {
    hide Round, FipsRound, Slot, NextWord, Schedule, InRoles, RingHolds;
    var w;
    r, w := r0, w0;
    ghost var ws := Schedule(v, chunk, v.rounds);
    RingAtStart(w, ws);
    var i := 16;
    while i < v.rounds
      invariant 16 <= i <= v.rounds && |r| == 8 && |w| == 16
      invariant RingHolds(w, ws, i - 16, if i < v.rounds - 1 then i else v.rounds - 2)
      invariant InRoles(r, i) == FipsRounds(v, start, ws, i)
    {
      if i < v.rounds {
        NextWordIsScheduled(v, chunk, w, i);
      }
      var x := NextWord(v, w, i);
      if i < v.rounds - 2 {
        RingWrite(w, ws, i, x);
        w := w[i % 16 := x];
      } else {
        RingShrink(w, ws, i - 16, v.rounds - 2);
      }
      RoundIsFips(v, r, i, v.k[i], x);
      r := Round(v, r, i, v.k[i], x);
      i := i + 1;
    }
  }

  method AddInto<W(!new)>(v: Variant<W>, s: array<W>, r: seq<W>)
    requires s.Length == 8 && |r| == 8
    modifies s
    ensures s[..] == AddRegs(v, old(s[..]), ToRegs(r))
  {
    s[0] := v.add(s[0], r[0]);
    s[1] := v.add(s[1], r[1]);
    s[2] := v.add(s[2], r[2]);
    s[3] := v.add(s[3], r[3]);
    s[4] := v.add(s[4], r[4]);
    s[5] := v.add(s[5], r[5]);
    s[6] := v.add(s[6], r[6]);
    s[7] := v.add(s[7], r[7]);
  }

  /** `Transform`. */
  method Transform<W(!new)>(v: Variant<W>, s: array<W>, chunk: seq<byte>)
    requires v.Valid() && s.Length == 8
    modifies s
    ensures s[..] == Compress(v, old(s[..]), chunk)
  {
    hide FipsRounds, Schedule, InRoles, AddRegs, ToRegs;
    ghost var start := ToRegs(s[..]);
    SlotsAtStart(s[..]);
    var r, w := LoadRounds(v, s[..], chunk, start);
    r := RingRounds(v, r, w, chunk, start);
    SlotsAtEnd(r, v.rounds);
    AddInto(v, s, r);
  }

  lemma SlotsAtStart<W>(r: seq<W>)
    requires |r| == 8
    ensures InRoles(r, 0) == ToRegs(r)
  {
  }

  lemma SlotOfRound(role: nat, n: nat)
    requires role < 8 && n % 8 == 0
    ensures Slot(role, n) == role
  {
    var q := n / 8;
    assert n == 8 * q;
    assert role + 7 * n == 8 * (7 * q) + role;
  }

  lemma SlotsAtEnd<W>(r: seq<W>, n: nat)
    requires |r| == 8 && n % 8 == 0
    ensures InRoles(r, n) == ToRegs(r)
  {
    hide Slot;
    SlotOfRound(0, n);
    SlotOfRound(1, n);
    SlotOfRound(2, n);
    SlotOfRound(3, n);
    SlotOfRound(4, n);
    SlotOfRound(5, n);
    SlotOfRound(6, n);
    SlotOfRound(7, n);
  }

  // ---- Two ways to write the same functions ----

  /** Equal parameters but for the length count, and operations that agree on every argument. */
  ghost predicate SameOps<W(!new)>(v: Variant<W>, u: Variant<W>) {
    && v.blockBytes == u.blockBytes && v.lengthBytes == u.lengthBytes && v.wordBytes == u.wordBytes
    && v.rounds == u.rounds && v.k == u.k && v.init == u.init && v.word == u.word && v.store == u.store
    && (forall x, y :: v.add(x, y) == u.add(x, y))
    && (forall x, y, z :: v.ch(x, y, z) == u.ch(x, y, z))
    && (forall x, y, z :: v.maj(x, y, z) == u.maj(x, y, z))
    && (forall x :: v.bigSigma0(x) == u.bigSigma0(x))
    && (forall x :: v.bigSigma1(x) == u.bigSigma1(x))
    && (forall x :: v.smallSigma0(x) == u.smallSigma0(x))
    && (forall x :: v.smallSigma1(x) == u.smallSigma1(x))
  }

  lemma {:induction false} SameSchedule<W(!new)>(v: Variant<W>, u: Variant<W>, block: seq<byte>, n: nat)
    requires SameOps(v, u)
    ensures Schedule(v, block, n) == Schedule(u, block, n)
  {
    if n > 0 {
      SameSchedule(v, u, block, n - 1);
    }
  }

  lemma SameRound<W(!new)>(v: Variant<W>, u: Variant<W>, r: Regs<W>, k: W, w: W)
    requires SameOps(v, u)
    ensures FipsRound(v, r, k, w) == FipsRound(u, r, k, w)
  {
  }

  lemma {:induction false} SameRounds<W(!new)>(v: Variant<W>, u: Variant<W>, r: Regs<W>, ws: seq<W>, n: nat)
    requires SameOps(v, u) && n <= |ws| && n <= |v.k|
    ensures FipsRounds(v, r, ws, n) == FipsRounds(u, r, ws, n)
  {
    hide FipsRound;
    if n > 0 {
      SameRounds(v, u, r, ws, n - 1);
      SameRound(v, u, FipsRounds(v, r, ws, n - 1), v.k[n - 1], ws[n - 1]);
    }
  }

  lemma SameCompress<W(!new)>(v: Variant<W>, u: Variant<W>, s: seq<W>, block: seq<byte>)
    requires SameOps(v, u) && |s| == 8 && |v.k| == v.rounds
    ensures Compress(v, s, block) == Compress(u, s, block)
  {
    hide FipsRounds, Schedule;
    SameSchedule(v, u, block, v.rounds);
    SameRounds(v, u, ToRegs(s), Schedule(v, block, v.rounds), v.rounds);
  }
}
