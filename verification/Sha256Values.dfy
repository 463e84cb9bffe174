/**
 The digest of "abc" by value: FIPS 180-2, appendix B.1. It depends on every round constant, initial
 value, rotation and shift, on the order of the bytes in a word, and on the padding.
 */
module Sha256Values {
  import opened Bytes
  import opened Sha2
  import opened HashStream
  import opened Sha256

  const ABC: seq<byte> := [0x61, 0x62, 0x63]

  /** The padded message: one block. */
  const BLOCK: seq<byte> := [0x61, 0x62, 0x63, 0x80] + Zeros(59) + [24]

  lemma BlockShape()
    ensures |BLOCK| == 64 && forall i :: 4 <= i < 63 ==> BLOCK[i] == 0
    ensures BLOCK[0] == 0x61 && BLOCK[1] == 0x62 && BLOCK[2] == 0x63 && BLOCK[3] == 0x80 && BLOCK[63] == 24
  {
  }

  lemma CountOf24()
    ensures BigEndian(24, 8) == Zeros(7) + [24]
  {
    hide Zeros, Octet;
    OctetOfByte(24);
    OctetZero();
    BigEndianZero(7);
    assert BigEndian(24, 8) == BigEndian(0, 7) + [Octet(24)];
  }

  lemma PaddedAbc()
    ensures CODE.Valid() && Padded(CODE, ABC) == BLOCK
  {
    hide BigEndian, K, INIT, Variant.Valid;
    Constants();
    CountOf24();
  }

  lemma CodeTables()
    ensures CODE.k == K && |K| == 64 && CODE.init == INIT && |INIT| == 8
  {
    hide K, INIT;
    TableSizes();
  }

  // ---- The schedule ----

  predicate Follow(w2: word, w7: word, w15: word, w16: word, w: word) {
    w == Add(Add(Add(SmallSigma1(w2), w7), SmallSigma0(w15)), w16)
  }

  /** Eight schedule words after sixteen. */
  predicate Follows(
    x0: word, x1: word, x2: word, x3: word, x4: word, x5: word, x6: word, x7: word,
    y0: word, y1: word, y2: word, y3: word, y4: word, y5: word, y6: word, y7: word,
    z0: word, z1: word, z2: word, z3: word, z4: word, z5: word, z6: word, z7: word)
  {
    && Follow(y6, y1, x1, x0, z0)
    && Follow(y7, y2, x2, x1, z1)
    && Follow(z0, y3, x3, x2, z2)
    && Follow(z1, y4, x4, x3, z3)
    && Follow(z2, y5, x5, x4, z4)
    && Follow(z3, y6, x6, x5, z5)
    && Follow(z4, y7, x7, x6, z6)
    && Follow(z5, z0, y0, x7, z7)
  }

  lemma WordFollows(
    block: seq<byte>, ws: seq<word>, t: nat, w2: word, w7: word, w15: word, w16: word, w: word)
    requires ws == Schedule(CODE, block, 64) && 16 <= t < 64 && Follow(w2, w7, w15, w16, w)
    requires ws[t - 2] == w2 && ws[t - 7] == w7 && ws[t - 15] == w15 && ws[t - 16] == w16
    ensures ws[t] == w
  {
    hide Schedule, Add, SmallSigma0, SmallSigma1, K, INIT;
    ScheduleAt(CODE, block, 64, t);
  }

  lemma Elements(
    s: seq<word>, n: nat,
    x0: word, x1: word, x2: word, x3: word, x4: word, x5: word, x6: word, x7: word)
    requires n + 8 <= |s| && s[n..n + 8] == [x0, x1, x2, x3, x4, x5, x6, x7]
    ensures s[n] == x0 && s[n + 1] == x1 && s[n + 2] == x2 && s[n + 3] == x3
    ensures s[n + 4] == x4 && s[n + 5] == x5 && s[n + 6] == x6 && s[n + 7] == x7
  {
    var e := s[n..n + 8];
    assert e[0] == s[n] && e[1] == s[n + 1] && e[2] == s[n + 2] && e[3] == s[n + 3];
    assert e[4] == s[n + 4] && e[5] == s[n + 5] && e[6] == s[n + 6] && e[7] == s[n + 7];
  }

  lemma FromElements(
    s: seq<word>, n: nat,
    x0: word, x1: word, x2: word, x3: word, x4: word, x5: word, x6: word, x7: word)
    requires n + 8 <= |s|
    requires s[n] == x0 && s[n + 1] == x1 && s[n + 2] == x2 && s[n + 3] == x3
    requires s[n + 4] == x4 && s[n + 5] == x5 && s[n + 6] == x6 && s[n + 7] == x7
    ensures s[n..n + 8] == [x0, x1, x2, x3, x4, x5, x6, x7]
  {
  }

  lemma EightMore(
    block: seq<byte>, ws: seq<word>, t: nat,
    x0: word, x1: word, x2: word, x3: word, x4: word, x5: word, x6: word, x7: word,
    y0: word, y1: word, y2: word, y3: word, y4: word, y5: word, y6: word, y7: word,
    z0: word, z1: word, z2: word, z3: word, z4: word, z5: word, z6: word, z7: word)
    requires ws == Schedule(CODE, block, 64) && t + 24 <= 64
    requires ws[t..t + 8] == [x0, x1, x2, x3, x4, x5, x6, x7]
    requires ws[t + 8..t + 16] == [y0, y1, y2, y3, y4, y5, y6, y7]
    requires Follows(x0, x1, x2, x3, x4, x5, x6, x7, y0, y1, y2, y3, y4, y5, y6, y7,
                     z0, z1, z2, z3, z4, z5, z6, z7)
    ensures ws[t + 16..t + 24] == [z0, z1, z2, z3, z4, z5, z6, z7]
  {
    hide Schedule, Follow, CODE;
    Elements(ws, t, x0, x1, x2, x3, x4, x5, x6, x7);
    Elements(ws, t + 8, y0, y1, y2, y3, y4, y5, y6, y7);
    WordFollows(block, ws, t + 16, y6, y1, x1, x0, z0);
    WordFollows(block, ws, t + 17, y7, y2, x2, x1, z1);
    WordFollows(block, ws, t + 18, z0, y3, x3, x2, z2);
    WordFollows(block, ws, t + 19, z1, y4, x4, x3, z3);
    WordFollows(block, ws, t + 20, z2, y5, x5, x4, z4);
    WordFollows(block, ws, t + 21, z3, y6, x6, x5, z5);
    WordFollows(block, ws, t + 22, z4, y7, x7, x6, z6);
    WordFollows(block, ws, t + 23, z5, z0, y0, x7, z7);
    FromElements(ws, t + 16, z0, z1, z2, z3, z4, z5, z6, z7);
  }

  lemma ZeroWord()
    ensures forall i :: 1 <= i < 15 ==> Word(BLOCK, i) == 0
  {
    hide BLOCK;
    BlockShape();
  }

  lemma FirstWords()
    ensures Word(BLOCK, 0) == 0x61626380 && Word(BLOCK, 15) == 24
  {
    hide BLOCK;
    BlockShape();
  }

  const W0: seq<word> := [
    0x61626380, 0x00000000, 0x00000000, 0x00000000, 0x00000000, 0x00000000, 0x00000000, 0x00000000]
  const W1: seq<word> := [
    0x00000000, 0x00000000, 0x00000000, 0x00000000, 0x00000000, 0x00000000, 0x00000000, 0x00000018]
  const W2: seq<word> := [
    0x61626380, 0x000f0000, 0x7da86405, 0x600003c6, 0x3e9d7b78, 0x0183fc00, 0x12dcbfdb, 0xe2e2c38e]
  const W3: seq<word> := [
    0xc8215c1a, 0xb73679a2, 0xe5bc3909, 0x32663c5b, 0x9d209d67, 0xec8726cb, 0x702138a4, 0xd3b7973b]
  const W4: seq<word> := [
    0x93f5997f, 0x3b68ba73, 0xaff4ffc1, 0xf10a5c62, 0x0a8b3996, 0x72af830a, 0x9409e33e, 0x24641522]
  const W5: seq<word> := [
    0x9f47bf94, 0xf0a64f5a, 0x3e246a79, 0x27333ba3, 0x0c4763f2, 0x840abf27, 0x7a290d5d, 0x065c43da]
  const W6: seq<word> := [
    0xfb3e89cb, 0xcc7617db, 0xb9e66c34, 0xa9993667, 0x84badedd, 0xc21462bc, 0x1487472c, 0xb20f7a99]
  const W7: seq<word> := [
    0xef57b9cd, 0xebe6b238, 0x9fe3095e, 0x78bc8d4b, 0xa43fcf15, 0x668b2ff8, 0xeeaba2cc, 0x12b1edeb]

  lemma Loaded(ws: seq<word>)
    requires ws == Schedule(CODE, BLOCK, 64)
    ensures ws[..8] == W0 && ws[8..16] == W1
  {
    hide Word, BLOCK, Schedule, K, INIT;
    forall t | 0 <= t < 16 ensures ws[t] == Word(BLOCK, t) {
      ScheduleAt(CODE, BLOCK, 64, t);
    }
    ZeroWord();
    FirstWords();
  }

  lemma Follow2()
    ensures Follow(0x00000000, 0x00000000, 0x00000000, 0x61626380, 0x61626380)
    ensures Follow(0x00000018, 0x00000000, 0x00000000, 0x00000000, 0x000f0000)
    ensures Follow(0x61626380, 0x00000000, 0x00000000, 0x00000000, 0x7da86405)
    ensures Follow(0x000f0000, 0x00000000, 0x00000000, 0x00000000, 0x600003c6)
    ensures Follow(0x7da86405, 0x00000000, 0x00000000, 0x00000000, 0x3e9d7b78)
    ensures Follow(0x600003c6, 0x00000000, 0x00000000, 0x00000000, 0x0183fc00)
    ensures Follow(0x3e9d7b78, 0x00000018, 0x00000000, 0x00000000, 0x12dcbfdb)
    ensures Follow(0x0183fc00, 0x61626380, 0x00000000, 0x00000000, 0xe2e2c38e)
  {
  }

  lemma Words2(ws: seq<word>)
    requires ws == Schedule(CODE, BLOCK, 64) && ws[0..8] == W0 && ws[8..16] == W1
    ensures ws[16..24] == W2
  {
    hide Schedule, BLOCK, CODE, Follow;
    Follow2();
    EightMore(
      BLOCK, ws, 0,
      0x61626380, 0x00000000, 0x00000000, 0x00000000, 0x00000000, 0x00000000, 0x00000000, 0x00000000,
      0x00000000, 0x00000000, 0x00000000, 0x00000000, 0x00000000, 0x00000000, 0x00000000, 0x00000018,
      0x61626380, 0x000f0000, 0x7da86405, 0x600003c6, 0x3e9d7b78, 0x0183fc00, 0x12dcbfdb, 0xe2e2c38e);
  }

  lemma Words3(ws: seq<word>)
    requires ws == Schedule(CODE, BLOCK, 64) && ws[8..16] == W1 && ws[16..24] == W2
    ensures ws[24..32] == W3
  {
    hide Schedule, BLOCK, CODE;
    EightMore(
      BLOCK, ws, 8,
      0x00000000, 0x00000000, 0x00000000, 0x00000000, 0x00000000, 0x00000000, 0x00000000, 0x00000018,
      0x61626380, 0x000f0000, 0x7da86405, 0x600003c6, 0x3e9d7b78, 0x0183fc00, 0x12dcbfdb, 0xe2e2c38e,
      0xc8215c1a, 0xb73679a2, 0xe5bc3909, 0x32663c5b, 0x9d209d67, 0xec8726cb, 0x702138a4, 0xd3b7973b);
  }

  lemma Words4(ws: seq<word>)
    requires ws == Schedule(CODE, BLOCK, 64) && ws[16..24] == W2 && ws[24..32] == W3
    ensures ws[32..40] == W4
  {
    hide Schedule, BLOCK, CODE;
    EightMore(
      BLOCK, ws, 16,
      0x61626380, 0x000f0000, 0x7da86405, 0x600003c6, 0x3e9d7b78, 0x0183fc00, 0x12dcbfdb, 0xe2e2c38e,
      0xc8215c1a, 0xb73679a2, 0xe5bc3909, 0x32663c5b, 0x9d209d67, 0xec8726cb, 0x702138a4, 0xd3b7973b,
      0x93f5997f, 0x3b68ba73, 0xaff4ffc1, 0xf10a5c62, 0x0a8b3996, 0x72af830a, 0x9409e33e, 0x24641522);
  }

  lemma Words5(ws: seq<word>)
    requires ws == Schedule(CODE, BLOCK, 64) && ws[24..32] == W3 && ws[32..40] == W4
    ensures ws[40..48] == W5
  {
    hide Schedule, BLOCK, CODE;
    EightMore(
      BLOCK, ws, 24,
      0xc8215c1a, 0xb73679a2, 0xe5bc3909, 0x32663c5b, 0x9d209d67, 0xec8726cb, 0x702138a4, 0xd3b7973b,
      0x93f5997f, 0x3b68ba73, 0xaff4ffc1, 0xf10a5c62, 0x0a8b3996, 0x72af830a, 0x9409e33e, 0x24641522,
      0x9f47bf94, 0xf0a64f5a, 0x3e246a79, 0x27333ba3, 0x0c4763f2, 0x840abf27, 0x7a290d5d, 0x065c43da);
  }

  lemma Words6(ws: seq<word>)
    requires ws == Schedule(CODE, BLOCK, 64) && ws[32..40] == W4 && ws[40..48] == W5
    ensures ws[48..56] == W6
  {
    hide Schedule, BLOCK, CODE;
    EightMore(
      BLOCK, ws, 32,
      0x93f5997f, 0x3b68ba73, 0xaff4ffc1, 0xf10a5c62, 0x0a8b3996, 0x72af830a, 0x9409e33e, 0x24641522,
      0x9f47bf94, 0xf0a64f5a, 0x3e246a79, 0x27333ba3, 0x0c4763f2, 0x840abf27, 0x7a290d5d, 0x065c43da,
      0xfb3e89cb, 0xcc7617db, 0xb9e66c34, 0xa9993667, 0x84badedd, 0xc21462bc, 0x1487472c, 0xb20f7a99);
  }

  lemma Words7(ws: seq<word>)
    requires ws == Schedule(CODE, BLOCK, 64) && ws[40..48] == W5 && ws[48..56] == W6
    ensures ws[56..64] == W7
  {
    hide Schedule, BLOCK, CODE;
    EightMore(
      BLOCK, ws, 40,
      0x9f47bf94, 0xf0a64f5a, 0x3e246a79, 0x27333ba3, 0x0c4763f2, 0x840abf27, 0x7a290d5d, 0x065c43da,
      0xfb3e89cb, 0xcc7617db, 0xb9e66c34, 0xa9993667, 0x84badedd, 0xc21462bc, 0x1487472c, 0xb20f7a99,
      0xef57b9cd, 0xebe6b238, 0x9fe3095e, 0x78bc8d4b, 0xa43fcf15, 0x668b2ff8, 0xeeaba2cc, 0x12b1edeb);
  }

  lemma Scheduled(ws: seq<word>)
    requires ws == Schedule(CODE, BLOCK, 64)
    ensures ws[0..8] == W0 && ws[8..16] == W1 && ws[16..24] == W2 && ws[24..32] == W3
    ensures ws[32..40] == W4 && ws[40..48] == W5 && ws[48..56] == W6 && ws[56..64] == W7
  {
    hide Schedule, BLOCK, CODE, W0, W1, W2, W3, W4, W5, W6, W7;
    Loaded(ws);
    Words2(ws);
    Words3(ws);
    Words4(ws);
    Words5(ws);
    Words6(ws);
    Words7(ws);
  }

  // ---- The rounds ----

  /** A round: registers, constant, schedule word, and what a and e hold after it. */
  predicate Turn(
    a: word, b: word, c: word, d: word, e: word, f: word, g: word, h: word, k: word, w: word, a': word, e': word)
  {
    var t1 := Add(Add(Add(Add(h, BigSigma1(e)), Ch(e, f, g)), k), w);
    e' == Add(d, t1) && a' == Add(t1, Add(BigSigma0(a), Maj(a, b, c)))
  }

  lemma TurnIsRound(
    a: word, b: word, c: word, d: word, e: word, f: word, g: word, h: word, k: word, w: word, a': word, e': word)
    requires Turn(a, b, c, d, e, f, g, h, k, w, a', e')
    ensures FipsRound(CODE, Regs(a, b, c, d, e, f, g, h), k, w) == Regs(a', a, b, c, e', e, f, g)
  {
    hide Add, BigSigma0, BigSigma1, Ch, Maj, SmallSigma0, SmallSigma1, Word, Store, K, INIT;
  }

  /** Eight rounds: what a and e hold before and after each, constants and schedule words. */
  predicate Turns(
    p0: word, p1: word, p2: word, p3: word, p4: word, p5: word, p6: word, p7: word,
    p8: word, p9: word, p10: word, p11: word,
    q0: word, q1: word, q2: word, q3: word, q4: word, q5: word, q6: word, q7: word,
    q8: word, q9: word, q10: word, q11: word,
    k0: word, k1: word, k2: word, k3: word, k4: word, k5: word, k6: word, k7: word,
    w0: word, w1: word, w2: word, w3: word, w4: word, w5: word, w6: word, w7: word)
  {
    && Turn(p3, p2, p1, p0, q3, q2, q1, q0, k0, w0, p4, q4)
    && Turn(p4, p3, p2, p1, q4, q3, q2, q1, k1, w1, p5, q5)
    && Turn(p5, p4, p3, p2, q5, q4, q3, q2, k2, w2, p6, q6)
    && Turn(p6, p5, p4, p3, q6, q5, q4, q3, k3, w3, p7, q7)
    && Turn(p7, p6, p5, p4, q7, q6, q5, q4, k4, w4, p8, q8)
    && Turn(p8, p7, p6, p5, q8, q7, q6, q5, k5, w5, p9, q9)
    && Turn(p9, p8, p7, p6, q9, q8, q7, q6, k6, w6, p10, q10)
    && Turn(p10, p9, p8, p7, q10, q9, q8, q7, k7, w7, p11, q11)
  }

  lemma OneRound(ws: seq<word>, n: nat, r: Regs<word>, k: word, w: word)
    requires n < |ws| && |K| == 64 && |INIT| == 8 && n < 64 && K[n] == k && ws[n] == w
    requires CODE.k == K && FipsRounds(CODE, ToRegs(INIT), ws, n) == r
    ensures FipsRounds(CODE, ToRegs(INIT), ws, n + 1) == FipsRound(CODE, r, k, w)
  {
    hide FipsRound, ToRegs, K, INIT, CODE;
  }

  lemma EightTurns(
    ws: seq<word>, n: nat,
    p0: word, p1: word, p2: word, p3: word, p4: word, p5: word, p6: word, p7: word,
    p8: word, p9: word, p10: word, p11: word,
    q0: word, q1: word, q2: word, q3: word, q4: word, q5: word, q6: word, q7: word,
    q8: word, q9: word, q10: word, q11: word,
    k0: word, k1: word, k2: word, k3: word, k4: word, k5: word, k6: word, k7: word,
    w0: word, w1: word, w2: word, w3: word, w4: word, w5: word, w6: word, w7: word)
    requires n + 8 <= |ws| && n + 8 <= 64 && |K| == 64 && |INIT| == 8 && CODE.k == K
    requires K[n..n + 8] == [k0, k1, k2, k3, k4, k5, k6, k7]
    requires ws[n..n + 8] == [w0, w1, w2, w3, w4, w5, w6, w7]
    requires FipsRounds(CODE, ToRegs(INIT), ws, n) == Regs(p3, p2, p1, p0, q3, q2, q1, q0)
    requires Turns(p0, p1, p2, p3, p4, p5, p6, p7, p8, p9, p10, p11,
                   q0, q1, q2, q3, q4, q5, q6, q7, q8, q9, q10, q11,
                   k0, k1, k2, k3, k4, k5, k6, k7, w0, w1, w2, w3, w4, w5, w6, w7)
    ensures FipsRounds(CODE, ToRegs(INIT), ws, n + 8) == Regs(p11, p10, p9, p8, q11, q10, q9, q8)
  {
    hide FipsRounds, FipsRound, Turn, ToRegs, K, INIT, CODE;
    Elements(K, n, k0, k1, k2, k3, k4, k5, k6, k7);
    Elements(ws, n, w0, w1, w2, w3, w4, w5, w6, w7);
    TurnIsRound(p3, p2, p1, p0, q3, q2, q1, q0, k0, w0, p4, q4);
    OneRound(ws, n + 0, Regs(p3, p2, p1, p0, q3, q2, q1, q0), k0, w0);
    TurnIsRound(p4, p3, p2, p1, q4, q3, q2, q1, k1, w1, p5, q5);
    OneRound(ws, n + 1, Regs(p4, p3, p2, p1, q4, q3, q2, q1), k1, w1);
    TurnIsRound(p5, p4, p3, p2, q5, q4, q3, q2, k2, w2, p6, q6);
    OneRound(ws, n + 2, Regs(p5, p4, p3, p2, q5, q4, q3, q2), k2, w2);
    TurnIsRound(p6, p5, p4, p3, q6, q5, q4, q3, k3, w3, p7, q7);
    OneRound(ws, n + 3, Regs(p6, p5, p4, p3, q6, q5, q4, q3), k3, w3);
    TurnIsRound(p7, p6, p5, p4, q7, q6, q5, q4, k4, w4, p8, q8);
    OneRound(ws, n + 4, Regs(p7, p6, p5, p4, q7, q6, q5, q4), k4, w4);
    TurnIsRound(p8, p7, p6, p5, q8, q7, q6, q5, k5, w5, p9, q9);
    OneRound(ws, n + 5, Regs(p8, p7, p6, p5, q8, q7, q6, q5), k5, w5);
    TurnIsRound(p9, p8, p7, p6, q9, q8, q7, q6, k6, w6, p10, q10);
    OneRound(ws, n + 6, Regs(p9, p8, p7, p6, q9, q8, q7, q6), k6, w6);
    TurnIsRound(p10, p9, p8, p7, q10, q9, q8, q7, k7, w7, p11, q11);
    OneRound(ws, n + 7, Regs(p10, p9, p8, p7, q10, q9, q8, q7), k7, w7);
  }

  lemma Pieces()
    ensures K[0..8] == K0 && K[8..16] == K1 && K[16..24] == K2 && K[24..32] == K3
    ensures K[32..40] == K4 && K[40..48] == K5 && K[48..56] == K6 && K[56..64] == K7
  {
    hide K0, K1, K2, K3, K4, K5, K6, K7;
    PieceSizes();
  }

  lemma Turn0()
    ensures Turn(
              0x6a09e667, 0xbb67ae85, 0x3c6ef372, 0xa54ff53a, 0x510e527f, 0x9b05688c, 0x1f83d9ab, 0x5be0cd19,
              0x428a2f98, 0x61626380, 0x5d6aebcd, 0xfa2a4622)
    ensures Turn(
              0x5d6aebcd, 0x6a09e667, 0xbb67ae85, 0x3c6ef372, 0xfa2a4622, 0x510e527f, 0x9b05688c, 0x1f83d9ab,
              0x71374491, 0x00000000, 0x5a6ad9ad, 0x78ce7989)
    ensures Turn(
              0x5a6ad9ad, 0x5d6aebcd, 0x6a09e667, 0xbb67ae85, 0x78ce7989, 0xfa2a4622, 0x510e527f, 0x9b05688c,
              0xb5c0fbcf, 0x00000000, 0xc8c347a7, 0xf92939eb)
    ensures Turn(
              0xc8c347a7, 0x5a6ad9ad, 0x5d6aebcd, 0x6a09e667, 0xf92939eb, 0x78ce7989, 0xfa2a4622, 0x510e527f,
              0xe9b5dba5, 0x00000000, 0xd550f666, 0x24e00850)
    ensures Turn(
              0xd550f666, 0xc8c347a7, 0x5a6ad9ad, 0x5d6aebcd, 0x24e00850, 0xf92939eb, 0x78ce7989, 0xfa2a4622,
              0x3956c25b, 0x00000000, 0x04409a6a, 0x43ada245)
    ensures Turn(
              0x04409a6a, 0xd550f666, 0xc8c347a7, 0x5a6ad9ad, 0x43ada245, 0x24e00850, 0xf92939eb, 0x78ce7989,
              0x59f111f1, 0x00000000, 0x2b4209f5, 0x714260ad)
    ensures Turn(
              0x2b4209f5, 0x04409a6a, 0xd550f666, 0xc8c347a7, 0x714260ad, 0x43ada245, 0x24e00850, 0xf92939eb,
              0x923f82a4, 0x00000000, 0xe5030380, 0x9b27a401)
    ensures Turn(
              0xe5030380, 0x2b4209f5, 0x04409a6a, 0xd550f666, 0x9b27a401, 0x714260ad, 0x43ada245, 0x24e00850,
              0xab1c5ed5, 0x00000000, 0x85a07b5f, 0x0c657a79)
  {
  }

  lemma Rounds0(ws: seq<word>)
    requires |ws| == 64 && |K| == 64 && |INIT| == 8 && CODE.k == K
    requires ws[0..8] == W0 && K[0..8] == K0
    requires FipsRounds(CODE, ToRegs(INIT), ws, 0)
             == Regs(0x6a09e667, 0xbb67ae85, 0x3c6ef372, 0xa54ff53a, 0x510e527f, 0x9b05688c, 0x1f83d9ab, 0x5be0cd19)
    ensures FipsRounds(CODE, ToRegs(INIT), ws, 8)
            == Regs(0x85a07b5f, 0xe5030380, 0x2b4209f5, 0x04409a6a, 0x0c657a79, 0x9b27a401, 0x714260ad, 0x43ada245)
  {
    hide FipsRounds, ToRegs, K, INIT, CODE, Turn;
    Turn0();
    EightTurns(
      ws, 0,
      0xa54ff53a, 0x3c6ef372, 0xbb67ae85, 0x6a09e667, 0x5d6aebcd, 0x5a6ad9ad, 0xc8c347a7, 0xd550f666,
      0x04409a6a, 0x2b4209f5, 0xe5030380, 0x85a07b5f,
      0x5be0cd19, 0x1f83d9ab, 0x9b05688c, 0x510e527f, 0xfa2a4622, 0x78ce7989, 0xf92939eb, 0x24e00850,
      0x43ada245, 0x714260ad, 0x9b27a401, 0x0c657a79,
      0x428a2f98, 0x71374491, 0xb5c0fbcf, 0xe9b5dba5, 0x3956c25b, 0x59f111f1, 0x923f82a4, 0xab1c5ed5,
      0x61626380, 0x00000000, 0x00000000, 0x00000000, 0x00000000, 0x00000000, 0x00000000, 0x00000000);
  }

  lemma Rounds1(ws: seq<word>)
    requires |ws| == 64 && |K| == 64 && |INIT| == 8 && CODE.k == K
    requires ws[8..16] == W1 && K[8..16] == K1
    requires FipsRounds(CODE, ToRegs(INIT), ws, 8)
             == Regs(0x85a07b5f, 0xe5030380, 0x2b4209f5, 0x04409a6a, 0x0c657a79, 0x9b27a401, 0x714260ad, 0x43ada245)
    ensures FipsRounds(CODE, ToRegs(INIT), ws, 16)
            == Regs(0xb0fa238e, 0xc0645fde, 0xd932eb16, 0x87912990, 0x07590dcd, 0x0b92f20c, 0x745a48de, 0x1e578218)
  {
    hide FipsRounds, ToRegs, K, INIT, CODE;
    EightTurns(
      ws, 8,
      0x04409a6a, 0x2b4209f5, 0xe5030380, 0x85a07b5f, 0x8e04ecb9, 0x8c87346b, 0x4798a3f4, 0xf71fc5a9,
      0x87912990, 0xd932eb16, 0xc0645fde, 0xb0fa238e,
      0x43ada245, 0x714260ad, 0x9b27a401, 0x0c657a79, 0x32ca2d8c, 0x1cc92596, 0x436b23e8, 0x816fd6e9,
      0x1e578218, 0x745a48de, 0x0b92f20c, 0x07590dcd,
      0xd807aa98, 0x12835b01, 0x243185be, 0x550c7dc3, 0x72be5d74, 0x80deb1fe, 0x9bdc06a7, 0xc19bf174,
      0x00000000, 0x00000000, 0x00000000, 0x00000000, 0x00000000, 0x00000000, 0x00000000, 0x00000018);
  }

  lemma Rounds2(ws: seq<word>)
    requires |ws| == 64 && |K| == 64 && |INIT| == 8 && CODE.k == K
    requires ws[16..24] == W2 && K[16..24] == K2
    requires FipsRounds(CODE, ToRegs(INIT), ws, 16)
             == Regs(0xb0fa238e, 0xc0645fde, 0xd932eb16, 0x87912990, 0x07590dcd, 0x0b92f20c, 0x745a48de, 0x1e578218)
    ensures FipsRounds(CODE, ToRegs(INIT), ws, 24)
            == Regs(0xc5d53d8d, 0xa7a3623f, 0xc2606d6d, 0x9dc68b63, 0xaa47c347, 0x49f5114a, 0xe1257970, 0x8ada8930)
  {
    hide FipsRounds, ToRegs, K, INIT, CODE;
    EightTurns(
      ws, 16,
      0x87912990, 0xd932eb16, 0xc0645fde, 0xb0fa238e, 0x21da9a9b, 0xc2fbd9d1, 0xfe777bbf, 0xe1f20c33,
      0x9dc68b63, 0xc2606d6d, 0xa7a3623f, 0xc5d53d8d,
      0x1e578218, 0x745a48de, 0x0b92f20c, 0x07590dcd, 0x8034229c, 0x846ee454, 0xcc899961, 0xb0638179,
      0x8ada8930, 0xe1257970, 0x49f5114a, 0xaa47c347,
      0xe49b69c1, 0xefbe4786, 0x0fc19dc6, 0x240ca1cc, 0x2de92c6f, 0x4a7484aa, 0x5cb0a9dc, 0x76f988da,
      0x61626380, 0x000f0000, 0x7da86405, 0x600003c6, 0x3e9d7b78, 0x0183fc00, 0x12dcbfdb, 0xe2e2c38e);
  }

  lemma Rounds3(ws: seq<word>)
    requires |ws| == 64 && |K| == 64 && |INIT| == 8 && CODE.k == K
    requires ws[24..32] == W3 && K[24..32] == K3
    requires FipsRounds(CODE, ToRegs(INIT), ws, 24)
             == Regs(0xc5d53d8d, 0xa7a3623f, 0xc2606d6d, 0x9dc68b63, 0xaa47c347, 0x49f5114a, 0xe1257970, 0x8ada8930)
    ensures FipsRounds(CODE, ToRegs(INIT), ws, 32)
            == Regs(0x73b33bf5, 0xea992a22, 0xa0060b30, 0x363482c9, 0xba591112, 0x0109ab3a, 0xade79437, 0x6112a3b7)
  {
    hide FipsRounds, ToRegs, K, INIT, CODE;
    EightTurns(
      ws, 24,
      0x9dc68b63, 0xc2606d6d, 0xa7a3623f, 0xc5d53d8d, 0x1c2c2838, 0xcde8037d, 0xb62ec4bc, 0x77d37528,
      0x363482c9, 0xa0060b30, 0xea992a22, 0x73b33bf5,
      0x8ada8930, 0xe1257970, 0x49f5114a, 0xaa47c347, 0x2823ef91, 0x14383d8e, 0xc74c6516, 0xedffbff8,
      0x6112a3b7, 0xade79437, 0x0109ab3a, 0xba591112,
      0x983e5152, 0xa831c66d, 0xb00327c8, 0xbf597fc7, 0xc6e00bf3, 0xd5a79147, 0x06ca6351, 0x14292967,
      0xc8215c1a, 0xb73679a2, 0xe5bc3909, 0x32663c5b, 0x9d209d67, 0xec8726cb, 0x702138a4, 0xd3b7973b);
  }

  lemma Rounds4(ws: seq<word>)
    requires |ws| == 64 && |K| == 64 && |INIT| == 8 && CODE.k == K
    requires ws[32..40] == W4 && K[32..40] == K4
    requires FipsRounds(CODE, ToRegs(INIT), ws, 32)
             == Regs(0x73b33bf5, 0xea992a22, 0xa0060b30, 0x363482c9, 0xba591112, 0x0109ab3a, 0xade79437, 0x6112a3b7)
    ensures FipsRounds(CODE, ToRegs(INIT), ws, 40)
            == Regs(0x79ea687a, 0x6dc57a8a, 0x34df1604, 0x41a65cb1, 0x1efbc0a0, 0xf0781bc8, 0xa507a53d, 0x0772a26b)
  {
    hide FipsRounds, ToRegs, K, INIT, CODE;
    EightTurns(
      ws, 32,
      0x363482c9, 0xa0060b30, 0xea992a22, 0x73b33bf5, 0x98e12507, 0xfe604df5, 0xa9a7738c, 0x65a0cfe4,
      0x41a65cb1, 0x34df1604, 0x6dc57a8a, 0x79ea687a,
      0x6112a3b7, 0xade79437, 0x0109ab3a, 0xba591112, 0x9cd9f5f6, 0x59249dd3, 0x085f3833, 0xf4b002d6,
      0x0772a26b, 0xa507a53d, 0xf0781bc8, 0x1efbc0a0,
      0x27b70a85, 0x2e1b2138, 0x4d2c6dfc, 0x53380d13, 0x650a7354, 0x766a0abb, 0x81c2c92e, 0x92722c85,
      0x93f5997f, 0x3b68ba73, 0xaff4ffc1, 0xf10a5c62, 0x0a8b3996, 0x72af830a, 0x9409e33e, 0x24641522);
  }

  lemma Rounds5(ws: seq<word>)
    requires |ws| == 64 && |K| == 64 && |INIT| == 8 && CODE.k == K
    requires ws[40..48] == W5 && K[40..48] == K5
    requires FipsRounds(CODE, ToRegs(INIT), ws, 40)
             == Regs(0x79ea687a, 0x6dc57a8a, 0x34df1604, 0x41a65cb1, 0x1efbc0a0, 0xf0781bc8, 0xa507a53d, 0x0772a26b)
    ensures FipsRounds(CODE, ToRegs(INIT), ws, 48)
            == Regs(0x4172328d, 0xa14c14b0, 0x72ab4b91, 0x26628815, 0xfecf0bc6, 0xd57b94a9, 0xb7755da1, 0xa80f11f0)
  {
    hide FipsRounds, ToRegs, K, INIT, CODE;
    EightTurns(
      ws, 40,
      0x41a65cb1, 0x34df1604, 0x6dc57a8a, 0x79ea687a, 0xd6670766, 0xdf46652f, 0x17aa0dfe, 0x9d4baf93,
      0x26628815, 0x72ab4b91, 0xa14c14b0, 0x4172328d,
      0x0772a26b, 0xa507a53d, 0xf0781bc8, 0x1efbc0a0, 0x26352d63, 0x838b2711, 0xdecd4715, 0xfda24c2e,
      0xa80f11f0, 0xb7755da1, 0xd57b94a9, 0xfecf0bc6,
      0xa2bfe8a1, 0xa81a664b, 0xc24b8b70, 0xc76c51a3, 0xd192e819, 0xd6990624, 0xf40e3585, 0x106aa070,
      0x9f47bf94, 0xf0a64f5a, 0x3e246a79, 0x27333ba3, 0x0c4763f2, 0x840abf27, 0x7a290d5d, 0x065c43da);
  }

  lemma Rounds6(ws: seq<word>)
    requires |ws| == 64 && |K| == 64 && |INIT| == 8 && CODE.k == K
    requires ws[48..56] == W6 && K[48..56] == K6
    requires FipsRounds(CODE, ToRegs(INIT), ws, 48)
             == Regs(0x4172328d, 0xa14c14b0, 0x72ab4b91, 0x26628815, 0xfecf0bc6, 0xd57b94a9, 0xb7755da1, 0xa80f11f0)
    ensures FipsRounds(CODE, ToRegs(INIT), ws, 56)
            == Regs(0x38cc9913, 0x3ec45cdb, 0xf5702fdb, 0x101fd28f, 0x54cb266b, 0xe50e1b4f, 0x9f4787c3, 0x529e7d00)
  {
    hide FipsRounds, ToRegs, K, INIT, CODE;
    EightTurns(
      ws, 48,
      0x26628815, 0x72ab4b91, 0xa14c14b0, 0x4172328d, 0x05757ceb, 0xf11bfaa8, 0x7a0508a1, 0x886e7a22,
      0x101fd28f, 0xf5702fdb, 0x3ec45cdb, 0x38cc9913,
      0xa80f11f0, 0xb7755da1, 0xd57b94a9, 0xfecf0bc6, 0xbd714038, 0x6e5c390c, 0x52f1ccf7, 0x49231c1e,
      0x529e7d00, 0x9f4787c3, 0xe50e1b4f, 0x54cb266b,
      0x19a4c116, 0x1e376c08, 0x2748774c, 0x34b0bcb5, 0x391c0cb3, 0x4ed8aa4a, 0x5b9cca4f, 0x682e6ff3,
      0xfb3e89cb, 0xcc7617db, 0xb9e66c34, 0xa9993667, 0x84badedd, 0xc21462bc, 0x1487472c, 0xb20f7a99);
  }

  lemma Rounds7(ws: seq<word>)
    requires |ws| == 64 && |K| == 64 && |INIT| == 8 && CODE.k == K
    requires ws[56..64] == W7 && K[56..64] == K7
    requires FipsRounds(CODE, ToRegs(INIT), ws, 56)
             == Regs(0x38cc9913, 0x3ec45cdb, 0xf5702fdb, 0x101fd28f, 0x54cb266b, 0xe50e1b4f, 0x9f4787c3, 0x529e7d00)
    ensures FipsRounds(CODE, ToRegs(INIT), ws, 64)
            == Regs(0x506e3058, 0xd39a2165, 0x04d24d6c, 0xb85e2ce9, 0x5ef50f24, 0xfb121210, 0x948d25b6, 0x961f4894)
  {
    hide FipsRounds, ToRegs, K, INIT, CODE;
    EightTurns(
      ws, 56,
      0x101fd28f, 0xf5702fdb, 0x3ec45cdb, 0x38cc9913, 0xfcd1887b, 0xc062d46f, 0xffb70472, 0xb6ae8fff,
      0xb85e2ce9, 0x04d24d6c, 0xd39a2165, 0x506e3058,
      0x529e7d00, 0x9f4787c3, 0xe50e1b4f, 0x54cb266b, 0x9b5e906c, 0x7e44008e, 0x6d83bfc6, 0xb21bad3d,
      0x961f4894, 0x948d25b6, 0xfb121210, 0x5ef50f24,
      0x748f82ee, 0x78a5636f, 0x84c87814, 0x8cc70208, 0x90befffa, 0xa4506ceb, 0xbef9a3f7, 0xc67178f2,
      0xef57b9cd, 0xebe6b238, 0x9fe3095e, 0x78bc8d4b, 0xa43fcf15, 0x668b2ff8, 0xeeaba2cc, 0x12b1edeb);
  }

  lemma Started(ws: seq<word>)
    requires |ws| == 64 && |CODE.k| == 64
    ensures |INIT| == 8
    ensures FipsRounds(CODE, ToRegs(INIT), ws, 0)
            == Regs(0x6a09e667, 0xbb67ae85, 0x3c6ef372, 0xa54ff53a, 0x510e527f, 0x9b05688c, 0x1f83d9ab, 0x5be0cd19)
  {
    hide K;
  }

  lemma Rounds(ws: seq<word>)
    requires ws == Schedule(CODE, BLOCK, 64)
    ensures |CODE.k| == 64 && |INIT| == 8
    ensures FipsRounds(CODE, ToRegs(INIT), ws, 64)
            == Regs(0x506e3058, 0xd39a2165, 0x04d24d6c, 0xb85e2ce9, 0x5ef50f24, 0xfb121210, 0x948d25b6, 0x961f4894)
  {
    hide Schedule, FipsRounds, BLOCK, K, INIT, CODE, ToRegs;
    hide K0, K1, K2, K3, K4, K5, K6, K7;
    hide W0, W1, W2, W3, W4, W5, W6, W7;
    CodeTables();
    Pieces();
    Scheduled(ws);
    Started(ws);
    Rounds0(ws);
    Rounds1(ws);
    Rounds2(ws);
    Rounds3(ws);
    Rounds4(ws);
    Rounds5(ws);
    Rounds6(ws);
    Rounds7(ws);
  }

  // ---- The digest ----

  const STATE: seq<word> := [
    0xba7816bf, 0x8f01cfea, 0x414140de, 0x5dae2223, 0xb00361a3, 0x96177a9c, 0xb410ff61, 0xf20015ad]

  lemma FinalState()
    ensures |CODE.k| == CODE.rounds && |INIT| == 8 && Compress(CODE, INIT, BLOCK) == STATE
  {
    hide Schedule, FipsRounds, BLOCK, K, ToRegs;
    CodeTables();
    Rounds(Schedule(CODE, BLOCK, 64));
  }

  const FRONT: seq<byte> := [
    0xba, 0x78, 0x16, 0xbf, 0x8f, 0x01, 0xcf, 0xea, 0x41, 0x41, 0x40, 0xde, 0x5d, 0xae, 0x22, 0x23]
  const BACK: seq<byte> := [
    0xb0, 0x03, 0x61, 0xa3, 0x96, 0x17, 0x7a, 0x9c, 0xb4, 0x10, 0xff, 0x61, 0xf2, 0x00, 0x15, 0xad]

  lemma StoreWord0()
    ensures Store(0xba7816bf) == [0xba, 0x78, 0x16, 0xbf]
  {
  }

  lemma StoreWord1()
    ensures Store(0x8f01cfea) == [0x8f, 0x01, 0xcf, 0xea]
  {
  }

  lemma StoreWord2()
    ensures Store(0x414140de) == [0x41, 0x41, 0x40, 0xde]
  {
  }

  lemma StoreWord3()
    ensures Store(0x5dae2223) == [0x5d, 0xae, 0x22, 0x23]
  {
  }

  lemma StoreWord4()
    ensures Store(0xb00361a3) == [0xb0, 0x03, 0x61, 0xa3]
  {
  }

  lemma StoreWord5()
    ensures Store(0x96177a9c) == [0x96, 0x17, 0x7a, 0x9c]
  {
  }

  lemma StoreWord6()
    ensures Store(0xb410ff61) == [0xb4, 0x10, 0xff, 0x61]
  {
  }

  lemma StoreWord7()
    ensures Store(0xf20015ad) == [0xf2, 0x00, 0x15, 0xad]
  {
  }

  lemma StoredFront()
    ensures Store(0xba7816bf) + Store(0x8f01cfea)
            + Store(0x414140de) + Store(0x5dae2223) == FRONT
  {
    hide Store;
    StoreWord0();
    StoreWord1();
    StoreWord2();
    StoreWord3();
  }

  lemma StoredBack()
    ensures Store(0xb00361a3) + Store(0x96177a9c)
            + Store(0xb410ff61) + Store(0xf20015ad) == BACK
  {
    hide Store;
    StoreWord4();
    StoreWord5();
    StoreWord6();
    StoreWord7();
  }

  lemma Stored()
    ensures StoreAll(CODE, STATE) == FRONT + BACK
  {
    hide Store, StoreAll, FRONT, BACK, K, INIT;
    StoreEight(CODE, STATE);
    StoredFront();
    StoredBack();
  }

  lemma AbcBlocks()
    ensures CODE.Valid() && HashBlocks(CODE, BLOCK) == STATE
  {
    hide Compress, BLOCK, STATE, Variant.Valid, K, INIT;
    Constants();
    BlockShape();
    FinalState();
    assert BLOCK[..0] == [] && BLOCK[0..] == BLOCK;
  }

  /** The published digest of "abc". */
  lemma AbcHashed()
    ensures Hash(ABC) == FRONT + BACK
  {
    hide HashBlocks, Padded, StoreAll, FRONT, BACK, Variant.Valid, SameOps, CODE, FIPS, BLOCK, STATE;
    Constants();
    SameFunctions();
    SameDigest(CODE, FIPS, ABC);
    PaddedAbc();
    AbcBlocks();
    Stored();
  }
}
