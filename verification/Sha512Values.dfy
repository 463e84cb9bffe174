/**
 The digest of "abc" by value: FIPS 180-2, appendix C.1. It depends on every round constant, initial
 value, rotation and shift, on the order of the bytes in a word, and on the padding.
 */
module Sha512Values {
  import opened Bytes
  import opened Sha2
  import opened HashStream
  import opened Sha512

  const ABC: seq<byte> := [0x61, 0x62, 0x63]

  /** The padded message: one block. */
  const BLOCK: seq<byte> := [0x61, 0x62, 0x63, 0x80] + Zeros(123) + [24]

  lemma BlockShape()
    ensures |BLOCK| == 128 && forall i :: 4 <= i < 127 ==> BLOCK[i] == 0
    ensures BLOCK[0] == 0x61 && BLOCK[1] == 0x62 && BLOCK[2] == 0x63 && BLOCK[3] == 0x80 && BLOCK[127] == 24
  {
  }

  lemma CountOf24()
    ensures BigEndian(24, 8) == Zeros(7) + [24]
  {
    hide Zeros, Octet;
    OctetOfByte(24);
    OctetZero();
    BigEndianZero(7);
    assert BigEndian(24, 8) == BigEndian(0, 7) + [Octet(24)];
  }

  lemma PaddedAbc()
    ensures CODE.Valid() && Padded(CODE, ABC) == BLOCK
  {
    hide BigEndian, K, INIT, Variant.Valid;
    Constants();
    CountOf24();
  }

  lemma CodeTables()
    ensures CODE.k == K && |K| == 80 && CODE.init == INIT && |INIT| == 8
  {
    hide K, INIT;
    TableSizes();
  }

  // ---- The schedule ----

  predicate Follow(w2: word, w7: word, w15: word, w16: word, w: word) {
    w == Add(Add(Add(SmallSigma1(w2), w7), SmallSigma0(w15)), w16)
  }

  /** Eight schedule words after sixteen. */
  predicate Follows(
    x0: word, x1: word, x2: word, x3: word, x4: word, x5: word, x6: word, x7: word,
    y0: word, y1: word, y2: word, y3: word, y4: word, y5: word, y6: word, y7: word,
    z0: word, z1: word, z2: word, z3: word, z4: word, z5: word, z6: word, z7: word)
  {
    && Follow(y6, y1, x1, x0, z0)
    && Follow(y7, y2, x2, x1, z1)
    && Follow(z0, y3, x3, x2, z2)
    && Follow(z1, y4, x4, x3, z3)
    && Follow(z2, y5, x5, x4, z4)
    && Follow(z3, y6, x6, x5, z5)
    && Follow(z4, y7, x7, x6, z6)
    && Follow(z5, z0, y0, x7, z7)
  }

  lemma WordFollows(
    block: seq<byte>, ws: seq<word>, t: nat, w2: word, w7: word, w15: word, w16: word, w: word)
    requires ws == Schedule(CODE, block, 80) && 16 <= t < 80 && Follow(w2, w7, w15, w16, w)
    requires ws[t - 2] == w2 && ws[t - 7] == w7 && ws[t - 15] == w15 && ws[t - 16] == w16
    ensures ws[t] == w
  {
    hide Schedule, Add, SmallSigma0, SmallSigma1, K, INIT;
    ScheduleAt(CODE, block, 80, t);
  }

  lemma Elements(
    s: seq<word>, n: nat,
    x0: word, x1: word, x2: word, x3: word, x4: word, x5: word, x6: word, x7: word)
    requires n + 8 <= |s| && s[n..n + 8] == [x0, x1, x2, x3, x4, x5, x6, x7]
    ensures s[n] == x0 && s[n + 1] == x1 && s[n + 2] == x2 && s[n + 3] == x3
    ensures s[n + 4] == x4 && s[n + 5] == x5 && s[n + 6] == x6 && s[n + 7] == x7
  {
    var e := s[n..n + 8];
    assert e[0] == s[n] && e[1] == s[n + 1] && e[2] == s[n + 2] && e[3] == s[n + 3];
    assert e[4] == s[n + 4] && e[5] == s[n + 5] && e[6] == s[n + 6] && e[7] == s[n + 7];
  }

  lemma FromElements(
    s: seq<word>, n: nat,
    x0: word, x1: word, x2: word, x3: word, x4: word, x5: word, x6: word, x7: word)
    requires n + 8 <= |s|
    requires s[n] == x0 && s[n + 1] == x1 && s[n + 2] == x2 && s[n + 3] == x3
    requires s[n + 4] == x4 && s[n + 5] == x5 && s[n + 6] == x6 && s[n + 7] == x7
    ensures s[n..n + 8] == [x0, x1, x2, x3, x4, x5, x6, x7]
  {
  }

  lemma EightMore(
    block: seq<byte>, ws: seq<word>, t: nat,
    x0: word, x1: word, x2: word, x3: word, x4: word, x5: word, x6: word, x7: word,
    y0: word, y1: word, y2: word, y3: word, y4: word, y5: word, y6: word, y7: word,
    z0: word, z1: word, z2: word, z3: word, z4: word, z5: word, z6: word, z7: word)
    requires ws == Schedule(CODE, block, 80) && t + 24 <= 80
    requires ws[t..t + 8] == [x0, x1, x2, x3, x4, x5, x6, x7]
    requires ws[t + 8..t + 16] == [y0, y1, y2, y3, y4, y5, y6, y7]
    requires Follows(x0, x1, x2, x3, x4, x5, x6, x7, y0, y1, y2, y3, y4, y5, y6, y7,
                     z0, z1, z2, z3, z4, z5, z6, z7)
    ensures ws[t + 16..t + 24] == [z0, z1, z2, z3, z4, z5, z6, z7]
  {
    hide Schedule, Follow, CODE;
    Elements(ws, t, x0, x1, x2, x3, x4, x5, x6, x7);
    Elements(ws, t + 8, y0, y1, y2, y3, y4, y5, y6, y7);
    WordFollows(block, ws, t + 16, y6, y1, x1, x0, z0);
    WordFollows(block, ws, t + 17, y7, y2, x2, x1, z1);
    WordFollows(block, ws, t + 18, z0, y3, x3, x2, z2);
    WordFollows(block, ws, t + 19, z1, y4, x4, x3, z3);
    WordFollows(block, ws, t + 20, z2, y5, x5, x4, z4);
    WordFollows(block, ws, t + 21, z3, y6, x6, x5, z5);
    WordFollows(block, ws, t + 22, z4, y7, x7, x6, z6);
    WordFollows(block, ws, t + 23, z5, z0, y0, x7, z7);
    FromElements(ws, t + 16, z0, z1, z2, z3, z4, z5, z6, z7);
  }

  lemma ZeroWord()
    ensures forall i :: 1 <= i < 15 ==> Word(BLOCK, i) == 0
  {
    hide BLOCK;
    BlockShape();
  }

  lemma FirstWords()
    ensures Word(BLOCK, 0) == 0x6162638000000000 && Word(BLOCK, 15) == 24
  {
    hide BLOCK;
    BlockShape();
  }

  const W0: seq<word> := [
    0x6162638000000000, 0x0000000000000000, 0x0000000000000000, 0x0000000000000000,
    0x0000000000000000, 0x0000000000000000, 0x0000000000000000, 0x0000000000000000]
  const W1: seq<word> := [
    0x0000000000000000, 0x0000000000000000, 0x0000000000000000, 0x0000000000000000,
    0x0000000000000000, 0x0000000000000000, 0x0000000000000000, 0x0000000000000018]
  const W2: seq<word> := [
    0x6162638000000000, 0x00030000000000c0, 0x0a9699a24c700003, 0x00000c0060000603,
    0x549ef62639858996, 0x00c0003300003c00, 0x1497007a8a0e9dbc, 0x62e56500cc0780f0]
  const W3: seq<word> := [
    0x7760dd475a538797, 0xf1554b711c1c0003, 0xca2993a4345d9ff2, 0x5e0e66b5c783dd32,
    0xe25a625d00494b62, 0x9f44486fb1e4fbd2, 0xb31b8c2b06085f2f, 0x0e987660934142f6]
  const W4: seq<word> := [
    0xa4af2cfd09fbb924, 0xad289e2e0bd53186, 0x3c74563aa2f9673e, 0x6ccdcd14cc14b53f,
    0xc3f925b337f22bde, 0x5bcc77a75ad95b54, 0x3ec2257adca09a52, 0x28246960001fc5eb]
  const W5: seq<word> := [
    0x04e33a75ce2be88a, 0x7d5314b3c359e0e7, 0xaef7a285ff251266, 0x0b8472581deea04f,
    0xb174e26eddc7b033, 0x5d63bae58ddd88de, 0x4c044007b744ccbb, 0xe6a9aa4d74dc7d43]
  const W6: seq<word> := [
    0xebeaf1237248019c, 0x361e80b2d00f3193, 0x2e9839125df3b175, 0x3319629293ad5363,
    0x9cbc5d89ac1b89d5, 0x275e23ffeeca50b7, 0x3b80d680bf69ef58, 0x0d0696933945a125]
  const W7: seq<word> := [
    0x7533eabcb786ff00, 0xb89826cee6fbf0e5, 0x249b4fbcad623e9f, 0x4aea9df2b02d6f1e,
    0x2cc57475a55e8d8f, 0xb2574ae938d8be89, 0xc1b35a57b16d6aea, 0xcc4918b5949206bb]
  const W8: seq<word> := [
    0x5099c3add79f90ec, 0x5ea81d78e7660bf1, 0xebee6267405ac2a9, 0xb01f21926108a4ab,
    0x786433dd2fe65556, 0xc54a6eaa24a0552c, 0xb3c8f1530bdbaa9e, 0xbb8abfe56f469338]
  const W9: seq<word> := [
    0xf63d4265cc1c5a78, 0xbe8355ea73129afb, 0x49e2db8ebdcfbeb5, 0x82269d4a883a3d99,
    0xfdf53df3011f362b, 0x464af5671d71c12e, 0xe449b68198ec611c, 0x92aeeed1a7bcf7d2]

  lemma Loaded(ws: seq<word>)
    requires ws == Schedule(CODE, BLOCK, 80)
    ensures ws[..8] == W0 && ws[8..16] == W1
  {
    hide Word, BLOCK, Schedule, K, INIT;
    forall t | 0 <= t < 16 ensures ws[t] == Word(BLOCK, t) {
      ScheduleAt(CODE, BLOCK, 80, t);
    }
    ZeroWord();
    FirstWords();
  }

  lemma Follow2()
    ensures Follow(0x0000000000000000, 0x0000000000000000, 0x0000000000000000, 0x6162638000000000, 0x6162638000000000)
    ensures Follow(0x0000000000000018, 0x0000000000000000, 0x0000000000000000, 0x0000000000000000, 0x00030000000000c0)
    ensures Follow(0x6162638000000000, 0x0000000000000000, 0x0000000000000000, 0x0000000000000000, 0x0a9699a24c700003)
    ensures Follow(0x00030000000000c0, 0x0000000000000000, 0x0000000000000000, 0x0000000000000000, 0x00000c0060000603)
    ensures Follow(0x0a9699a24c700003, 0x0000000000000000, 0x0000000000000000, 0x0000000000000000, 0x549ef62639858996)
    ensures Follow(0x00000c0060000603, 0x0000000000000000, 0x0000000000000000, 0x0000000000000000, 0x00c0003300003c00)
    ensures Follow(0x549ef62639858996, 0x0000000000000018, 0x0000000000000000, 0x0000000000000000, 0x1497007a8a0e9dbc)
    ensures Follow(0x00c0003300003c00, 0x6162638000000000, 0x0000000000000000, 0x0000000000000000, 0x62e56500cc0780f0)
  {
  }

  lemma Words2(ws: seq<word>)
    requires ws == Schedule(CODE, BLOCK, 80) && ws[0..8] == W0 && ws[8..16] == W1
    ensures ws[16..24] == W2
  {
    hide Schedule, BLOCK, CODE, Follow;
    Follow2();
    EightMore(
      BLOCK, ws, 0,
      0x6162638000000000, 0x0000000000000000, 0x0000000000000000, 0x0000000000000000,
      0x0000000000000000, 0x0000000000000000, 0x0000000000000000, 0x0000000000000000,
      0x0000000000000000, 0x0000000000000000, 0x0000000000000000, 0x0000000000000000,
      0x0000000000000000, 0x0000000000000000, 0x0000000000000000, 0x0000000000000018,
      0x6162638000000000, 0x00030000000000c0, 0x0a9699a24c700003, 0x00000c0060000603,
      0x549ef62639858996, 0x00c0003300003c00, 0x1497007a8a0e9dbc, 0x62e56500cc0780f0);
  }

  lemma Words3(ws: seq<word>)
    requires ws == Schedule(CODE, BLOCK, 80) && ws[8..16] == W1 && ws[16..24] == W2
    ensures ws[24..32] == W3
  {
    hide Schedule, BLOCK, CODE;
    EightMore(
      BLOCK, ws, 8,
      0x0000000000000000, 0x0000000000000000, 0x0000000000000000, 0x0000000000000000,
      0x0000000000000000, 0x0000000000000000, 0x0000000000000000, 0x0000000000000018,
      0x6162638000000000, 0x00030000000000c0, 0x0a9699a24c700003, 0x00000c0060000603,
      0x549ef62639858996, 0x00c0003300003c00, 0x1497007a8a0e9dbc, 0x62e56500cc0780f0,
      0x7760dd475a538797, 0xf1554b711c1c0003, 0xca2993a4345d9ff2, 0x5e0e66b5c783dd32,
      0xe25a625d00494b62, 0x9f44486fb1e4fbd2, 0xb31b8c2b06085f2f, 0x0e987660934142f6);
  }

  lemma Words4(ws: seq<word>)
    requires ws == Schedule(CODE, BLOCK, 80) && ws[16..24] == W2 && ws[24..32] == W3
    ensures ws[32..40] == W4
  {
    hide Schedule, BLOCK, CODE;
    EightMore(
      BLOCK, ws, 16,
      0x6162638000000000, 0x00030000000000c0, 0x0a9699a24c700003, 0x00000c0060000603,
      0x549ef62639858996, 0x00c0003300003c00, 0x1497007a8a0e9dbc, 0x62e56500cc0780f0,
      0x7760dd475a538797, 0xf1554b711c1c0003, 0xca2993a4345d9ff2, 0x5e0e66b5c783dd32,
      0xe25a625d00494b62, 0x9f44486fb1e4fbd2, 0xb31b8c2b06085f2f, 0x0e987660934142f6,
      0xa4af2cfd09fbb924, 0xad289e2e0bd53186, 0x3c74563aa2f9673e, 0x6ccdcd14cc14b53f,
      0xc3f925b337f22bde, 0x5bcc77a75ad95b54, 0x3ec2257adca09a52, 0x28246960001fc5eb);
  }

  lemma Words5(ws: seq<word>)
    requires ws == Schedule(CODE, BLOCK, 80) && ws[24..32] == W3 && ws[32..40] == W4
    ensures ws[40..48] == W5
  {
    hide Schedule, BLOCK, CODE;
    EightMore(
      BLOCK, ws, 24,
      0x7760dd475a538797, 0xf1554b711c1c0003, 0xca2993a4345d9ff2, 0x5e0e66b5c783dd32,
      0xe25a625d00494b62, 0x9f44486fb1e4fbd2, 0xb31b8c2b06085f2f, 0x0e987660934142f6,
      0xa4af2cfd09fbb924, 0xad289e2e0bd53186, 0x3c74563aa2f9673e, 0x6ccdcd14cc14b53f,
      0xc3f925b337f22bde, 0x5bcc77a75ad95b54, 0x3ec2257adca09a52, 0x28246960001fc5eb,
      0x04e33a75ce2be88a, 0x7d5314b3c359e0e7, 0xaef7a285ff251266, 0x0b8472581deea04f,
      0xb174e26eddc7b033, 0x5d63bae58ddd88de, 0x4c044007b744ccbb, 0xe6a9aa4d74dc7d43);
  }

  lemma Words6(ws: seq<word>)
    requires ws == Schedule(CODE, BLOCK, 80) && ws[32..40] == W4 && ws[40..48] == W5
    ensures ws[48..56] == W6
  {
    hide Schedule, BLOCK, CODE;
    EightMore(
      BLOCK, ws, 32,
      0xa4af2cfd09fbb924, 0xad289e2e0bd53186, 0x3c74563aa2f9673e, 0x6ccdcd14cc14b53f,
      0xc3f925b337f22bde, 0x5bcc77a75ad95b54, 0x3ec2257adca09a52, 0x28246960001fc5eb,
      0x04e33a75ce2be88a, 0x7d5314b3c359e0e7, 0xaef7a285ff251266, 0x0b8472581deea04f,
      0xb174e26eddc7b033, 0x5d63bae58ddd88de, 0x4c044007b744ccbb, 0xe6a9aa4d74dc7d43,
      0xebeaf1237248019c, 0x361e80b2d00f3193, 0x2e9839125df3b175, 0x3319629293ad5363,
      0x9cbc5d89ac1b89d5, 0x275e23ffeeca50b7, 0x3b80d680bf69ef58, 0x0d0696933945a125);
  }

  lemma Words7(ws: seq<word>)
    requires ws == Schedule(CODE, BLOCK, 80) && ws[40..48] == W5 && ws[48..56] == W6
    ensures ws[56..64] == W7
  {
    hide Schedule, BLOCK, CODE;
    EightMore(
      BLOCK, ws, 40,
      0x04e33a75ce2be88a, 0x7d5314b3c359e0e7, 0xaef7a285ff251266, 0x0b8472581deea04f,
      0xb174e26eddc7b033, 0x5d63bae58ddd88de, 0x4c044007b744ccbb, 0xe6a9aa4d74dc7d43,
      0xebeaf1237248019c, 0x361e80b2d00f3193, 0x2e9839125df3b175, 0x3319629293ad5363,
      0x9cbc5d89ac1b89d5, 0x275e23ffeeca50b7, 0x3b80d680bf69ef58, 0x0d0696933945a125,
      0x7533eabcb786ff00, 0xb89826cee6fbf0e5, 0x249b4fbcad623e9f, 0x4aea9df2b02d6f1e,
      0x2cc57475a55e8d8f, 0xb2574ae938d8be89, 0xc1b35a57b16d6aea, 0xcc4918b5949206bb);
  }

  lemma Words8(ws: seq<word>)
    requires ws == Schedule(CODE, BLOCK, 80) && ws[48..56] == W6 && ws[56..64] == W7
    ensures ws[64..72] == W8
  {
    hide Schedule, BLOCK, CODE;
    EightMore(
      BLOCK, ws, 48,
      0xebeaf1237248019c, 0x361e80b2d00f3193, 0x2e9839125df3b175, 0x3319629293ad5363,
      0x9cbc5d89ac1b89d5, 0x275e23ffeeca50b7, 0x3b80d680bf69ef58, 0x0d0696933945a125,
      0x7533eabcb786ff00, 0xb89826cee6fbf0e5, 0x249b4fbcad623e9f, 0x4aea9df2b02d6f1e,
      0x2cc57475a55e8d8f, 0xb2574ae938d8be89, 0xc1b35a57b16d6aea, 0xcc4918b5949206bb,
      0x5099c3add79f90ec, 0x5ea81d78e7660bf1, 0xebee6267405ac2a9, 0xb01f21926108a4ab,
      0x786433dd2fe65556, 0xc54a6eaa24a0552c, 0xb3c8f1530bdbaa9e, 0xbb8abfe56f469338);
  }

  lemma Words9(ws: seq<word>)
    requires ws == Schedule(CODE, BLOCK, 80) && ws[56..64] == W7 && ws[64..72] == W8
    ensures ws[72..80] == W9
  {
    hide Schedule, BLOCK, CODE;
    EightMore(
      BLOCK, ws, 56,
      0x7533eabcb786ff00, 0xb89826cee6fbf0e5, 0x249b4fbcad623e9f, 0x4aea9df2b02d6f1e,
      0x2cc57475a55e8d8f, 0xb2574ae938d8be89, 0xc1b35a57b16d6aea, 0xcc4918b5949206bb,
      0x5099c3add79f90ec, 0x5ea81d78e7660bf1, 0xebee6267405ac2a9, 0xb01f21926108a4ab,
      0x786433dd2fe65556, 0xc54a6eaa24a0552c, 0xb3c8f1530bdbaa9e, 0xbb8abfe56f469338,
      0xf63d4265cc1c5a78, 0xbe8355ea73129afb, 0x49e2db8ebdcfbeb5, 0x82269d4a883a3d99,
      0xfdf53df3011f362b, 0x464af5671d71c12e, 0xe449b68198ec611c, 0x92aeeed1a7bcf7d2);
  }

  lemma Scheduled(ws: seq<word>)
    requires ws == Schedule(CODE, BLOCK, 80)
    ensures ws[0..8] == W0 && ws[8..16] == W1 && ws[16..24] == W2 && ws[24..32] == W3
    ensures ws[32..40] == W4 && ws[40..48] == W5 && ws[48..56] == W6 && ws[56..64] == W7
    ensures ws[64..72] == W8 && ws[72..80] == W9
  {
    hide Schedule, BLOCK, CODE, W0, W1, W2, W3, W4, W5, W6, W7, W8, W9;
    Loaded(ws);
    Words2(ws);
    Words3(ws);
    Words4(ws);
    Words5(ws);
    Words6(ws);
    Words7(ws);
    Words8(ws);
    Words9(ws);
  }

  // ---- The rounds ----

  /** A round: registers, constant, schedule word, and what a and e hold after it. */
  predicate Turn(
    a: word, b: word, c: word, d: word, e: word, f: word, g: word, h: word, k: word, w: word, a': word, e': word)
  {
    var t1 := Add(Add(Add(Add(h, BigSigma1(e)), Ch(e, f, g)), k), w);
    e' == Add(d, t1) && a' == Add(t1, Add(BigSigma0(a), Maj(a, b, c)))
  }

  lemma TurnIsRound(
    a: word, b: word, c: word, d: word, e: word, f: word, g: word, h: word, k: word, w: word, a': word, e': word)
    requires Turn(a, b, c, d, e, f, g, h, k, w, a', e')
    ensures FipsRound(CODE, Regs(a, b, c, d, e, f, g, h), k, w) == Regs(a', a, b, c, e', e, f, g)
  {
    hide Add, BigSigma0, BigSigma1, Ch, Maj, SmallSigma0, SmallSigma1, Word, Store, K, INIT;
  }

  /** Eight rounds: what a and e hold before and after each, constants and schedule words. */
  predicate Turns(
    p0: word, p1: word, p2: word, p3: word, p4: word, p5: word, p6: word, p7: word,
    p8: word, p9: word, p10: word, p11: word,
    q0: word, q1: word, q2: word, q3: word, q4: word, q5: word, q6: word, q7: word,
    q8: word, q9: word, q10: word, q11: word,
    k0: word, k1: word, k2: word, k3: word, k4: word, k5: word, k6: word, k7: word,
    w0: word, w1: word, w2: word, w3: word, w4: word, w5: word, w6: word, w7: word)
  {
    && Turn(p3, p2, p1, p0, q3, q2, q1, q0, k0, w0, p4, q4)
    && Turn(p4, p3, p2, p1, q4, q3, q2, q1, k1, w1, p5, q5)
    && Turn(p5, p4, p3, p2, q5, q4, q3, q2, k2, w2, p6, q6)
    && Turn(p6, p5, p4, p3, q6, q5, q4, q3, k3, w3, p7, q7)
    && Turn(p7, p6, p5, p4, q7, q6, q5, q4, k4, w4, p8, q8)
    && Turn(p8, p7, p6, p5, q8, q7, q6, q5, k5, w5, p9, q9)
    && Turn(p9, p8, p7, p6, q9, q8, q7, q6, k6, w6, p10, q10)
    && Turn(p10, p9, p8, p7, q10, q9, q8, q7, k7, w7, p11, q11)
  }

  lemma OneRound(ws: seq<word>, n: nat, r: Regs<word>, k: word, w: word)
    requires n < |ws| && |K| == 80 && |INIT| == 8 && n < 80 && K[n] == k && ws[n] == w
    requires CODE.k == K && FipsRounds(CODE, ToRegs(INIT), ws, n) == r
    ensures FipsRounds(CODE, ToRegs(INIT), ws, n + 1) == FipsRound(CODE, r, k, w)
  {
    hide FipsRound, ToRegs, K, INIT, CODE;
  }

  lemma EightTurns(
    ws: seq<word>, n: nat,
    p0: word, p1: word, p2: word, p3: word, p4: word, p5: word, p6: word, p7: word,
    p8: word, p9: word, p10: word, p11: word,
    q0: word, q1: word, q2: word, q3: word, q4: word, q5: word, q6: word, q7: word,
    q8: word, q9: word, q10: word, q11: word,
    k0: word, k1: word, k2: word, k3: word, k4: word, k5: word, k6: word, k7: word,
    w0: word, w1: word, w2: word, w3: word, w4: word, w5: word, w6: word, w7: word)
    requires n + 8 <= |ws| && n + 8 <= 80 && |K| == 80 && |INIT| == 8 && CODE.k == K
    requires K[n..n + 8] == [k0, k1, k2, k3, k4, k5, k6, k7]
    requires ws[n..n + 8] == [w0, w1, w2, w3, w4, w5, w6, w7]
    requires FipsRounds(CODE, ToRegs(INIT), ws, n) == Regs(p3, p2, p1, p0, q3, q2, q1, q0)
    requires Turns(p0, p1, p2, p3, p4, p5, p6, p7, p8, p9, p10, p11,
                   q0, q1, q2, q3, q4, q5, q6, q7, q8, q9, q10, q11,
                   k0, k1, k2, k3, k4, k5, k6, k7, w0, w1, w2, w3, w4, w5, w6, w7)
    ensures FipsRounds(CODE, ToRegs(INIT), ws, n + 8) == Regs(p11, p10, p9, p8, q11, q10, q9, q8)
  {
    hide FipsRounds, FipsRound, Turn, ToRegs, K, INIT, CODE;
    Elements(K, n, k0, k1, k2, k3, k4, k5, k6, k7);
    Elements(ws, n, w0, w1, w2, w3, w4, w5, w6, w7);
    TurnIsRound(p3, p2, p1, p0, q3, q2, q1, q0, k0, w0, p4, q4);
    OneRound(ws, n + 0, Regs(p3, p2, p1, p0, q3, q2, q1, q0), k0, w0);
    TurnIsRound(p4, p3, p2, p1, q4, q3, q2, q1, k1, w1, p5, q5);
    OneRound(ws, n + 1, Regs(p4, p3, p2, p1, q4, q3, q2, q1), k1, w1);
    TurnIsRound(p5, p4, p3, p2, q5, q4, q3, q2, k2, w2, p6, q6);
    OneRound(ws, n + 2, Regs(p5, p4, p3, p2, q5, q4, q3, q2), k2, w2);
    TurnIsRound(p6, p5, p4, p3, q6, q5, q4, q3, k3, w3, p7, q7);
    OneRound(ws, n + 3, Regs(p6, p5, p4, p3, q6, q5, q4, q3), k3, w3);
    TurnIsRound(p7, p6, p5, p4, q7, q6, q5, q4, k4, w4, p8, q8);
    OneRound(ws, n + 4, Regs(p7, p6, p5, p4, q7, q6, q5, q4), k4, w4);
    TurnIsRound(p8, p7, p6, p5, q8, q7, q6, q5, k5, w5, p9, q9);
    OneRound(ws, n + 5, Regs(p8, p7, p6, p5, q8, q7, q6, q5), k5, w5);
    TurnIsRound(p9, p8, p7, p6, q9, q8, q7, q6, k6, w6, p10, q10);
    OneRound(ws, n + 6, Regs(p9, p8, p7, p6, q9, q8, q7, q6), k6, w6);
    TurnIsRound(p10, p9, p8, p7, q10, q9, q8, q7, k7, w7, p11, q11);
    OneRound(ws, n + 7, Regs(p10, p9, p8, p7, q10, q9, q8, q7), k7, w7);
  }

  lemma Pieces()
    ensures K[0..8] == K0 && K[8..16] == K1 && K[16..24] == K2 && K[24..32] == K3
    ensures K[32..40] == K4 && K[40..48] == K5 && K[48..56] == K6 && K[56..64] == K7
    ensures K[64..72] == K8 && K[72..80] == K9
  {
    hide K0, K1, K2, K3, K4, K5, K6, K7, K8, K9;
    PieceSizes();
  }

  lemma Turn0()
    ensures Turn(
              0x6a09e667f3bcc908, 0xbb67ae8584caa73b, 0x3c6ef372fe94f82b, 0xa54ff53a5f1d36f1,
              0x510e527fade682d1, 0x9b05688c2b3e6c1f, 0x1f83d9abfb41bd6b, 0x5be0cd19137e2179,
              0x428a2f98d728ae22, 0x6162638000000000, 0xf6afceb8bcfcddf5, 0x58cb02347ab51f91)
    ensures Turn(
              0xf6afceb8bcfcddf5, 0x6a09e667f3bcc908, 0xbb67ae8584caa73b, 0x3c6ef372fe94f82b,
              0x58cb02347ab51f91, 0x510e527fade682d1, 0x9b05688c2b3e6c1f, 0x1f83d9abfb41bd6b,
              0x7137449123ef65cd, 0x0000000000000000, 0x1320f8c9fb872cc0, 0xc3d4ebfd48650ffa)
    ensures Turn(
              0x1320f8c9fb872cc0, 0xf6afceb8bcfcddf5, 0x6a09e667f3bcc908, 0xbb67ae8584caa73b,
              0xc3d4ebfd48650ffa, 0x58cb02347ab51f91, 0x510e527fade682d1, 0x9b05688c2b3e6c1f,
              0xb5c0fbcfec4d3b2f, 0x0000000000000000, 0xebcffc07203d91f3, 0xdfa9b239f2697812)
    ensures Turn(
              0xebcffc07203d91f3, 0x1320f8c9fb872cc0, 0xf6afceb8bcfcddf5, 0x6a09e667f3bcc908,
              0xdfa9b239f2697812, 0xc3d4ebfd48650ffa, 0x58cb02347ab51f91, 0x510e527fade682d1,
              0xe9b5dba58189dbbc, 0x0000000000000000, 0x5a83cb3e80050e82, 0x0b47b4bb1928990e)
    ensures Turn(
              0x5a83cb3e80050e82, 0xebcffc07203d91f3, 0x1320f8c9fb872cc0, 0xf6afceb8bcfcddf5,
              0x0b47b4bb1928990e, 0xdfa9b239f2697812, 0xc3d4ebfd48650ffa, 0x58cb02347ab51f91,
              0x3956c25bf348b538, 0x0000000000000000, 0xb680953951604860, 0x745aca4a342ed2e2)
    ensures Turn(
              0xb680953951604860, 0x5a83cb3e80050e82, 0xebcffc07203d91f3, 0x1320f8c9fb872cc0,
              0x745aca4a342ed2e2, 0x0b47b4bb1928990e, 0xdfa9b239f2697812, 0xc3d4ebfd48650ffa,
              0x59f111f1b605d019, 0x0000000000000000, 0xaf573b02403e89cd, 0x96f60209b6dc35ba)
    ensures Turn(
              0xaf573b02403e89cd, 0xb680953951604860, 0x5a83cb3e80050e82, 0xebcffc07203d91f3,
              0x96f60209b6dc35ba, 0x745aca4a342ed2e2, 0x0b47b4bb1928990e, 0xdfa9b239f2697812,
              0x923f82a4af194f9b, 0x0000000000000000, 0xc4875b0c7abc076b, 0x5a6c781f54dcc00c)
    ensures Turn(
              0xc4875b0c7abc076b, 0xaf573b02403e89cd, 0xb680953951604860, 0x5a83cb3e80050e82,
              0x5a6c781f54dcc00c, 0x96f60209b6dc35ba, 0x745aca4a342ed2e2, 0x0b47b4bb1928990e,
              0xab1c5ed5da6d8118, 0x0000000000000000, 0x8093d195e0054fa3, 0x86f67263a0f0ec0a)
  {
  }

  lemma Rounds0(ws: seq<word>)
    requires |ws| == 80 && |K| == 80 && |INIT| == 8 && CODE.k == K
    requires ws[0..8] == W0 && K[0..8] == K0
    requires FipsRounds(CODE, ToRegs(INIT), ws, 0)
             == Regs(0x6a09e667f3bcc908, 0xbb67ae8584caa73b, 0x3c6ef372fe94f82b, 0xa54ff53a5f1d36f1,
                     0x510e527fade682d1, 0x9b05688c2b3e6c1f, 0x1f83d9abfb41bd6b, 0x5be0cd19137e2179)
    ensures FipsRounds(CODE, ToRegs(INIT), ws, 8)
            == Regs(0x8093d195e0054fa3, 0xc4875b0c7abc076b, 0xaf573b02403e89cd, 0xb680953951604860,
                    0x86f67263a0f0ec0a, 0x5a6c781f54dcc00c, 0x96f60209b6dc35ba, 0x745aca4a342ed2e2)
  {
    hide FipsRounds, ToRegs, K, INIT, CODE, Turn;
    Turn0();
    EightTurns(
      ws, 0,
      0xa54ff53a5f1d36f1, 0x3c6ef372fe94f82b, 0xbb67ae8584caa73b, 0x6a09e667f3bcc908,
      0xf6afceb8bcfcddf5, 0x1320f8c9fb872cc0, 0xebcffc07203d91f3, 0x5a83cb3e80050e82,
      0xb680953951604860, 0xaf573b02403e89cd, 0xc4875b0c7abc076b, 0x8093d195e0054fa3,
      0x5be0cd19137e2179, 0x1f83d9abfb41bd6b, 0x9b05688c2b3e6c1f, 0x510e527fade682d1,
      0x58cb02347ab51f91, 0xc3d4ebfd48650ffa, 0xdfa9b239f2697812, 0x0b47b4bb1928990e,
      0x745aca4a342ed2e2, 0x96f60209b6dc35ba, 0x5a6c781f54dcc00c, 0x86f67263a0f0ec0a,
      0x428a2f98d728ae22, 0x7137449123ef65cd, 0xb5c0fbcfec4d3b2f, 0xe9b5dba58189dbbc,
      0x3956c25bf348b538, 0x59f111f1b605d019, 0x923f82a4af194f9b, 0xab1c5ed5da6d8118,
      0x6162638000000000, 0x0000000000000000, 0x0000000000000000, 0x0000000000000000,
      0x0000000000000000, 0x0000000000000000, 0x0000000000000000, 0x0000000000000000);
  }

  lemma Rounds1(ws: seq<word>)
    requires |ws| == 80 && |K| == 80 && |INIT| == 8 && CODE.k == K
    requires ws[8..16] == W1 && K[8..16] == K1
    requires FipsRounds(CODE, ToRegs(INIT), ws, 8)
             == Regs(0x8093d195e0054fa3, 0xc4875b0c7abc076b, 0xaf573b02403e89cd, 0xb680953951604860,
                     0x86f67263a0f0ec0a, 0x5a6c781f54dcc00c, 0x96f60209b6dc35ba, 0x745aca4a342ed2e2)
    ensures FipsRounds(CODE, ToRegs(INIT), ws, 16)
            == Regs(0x0ae07c86b1181c75, 0xfa967eed85a08028, 0x44249631255d2ca0, 0x5e41214388186c14,
                    0xa77b7c035dd4c161, 0x874bfe5f6aae9f2f, 0x860acf9effba6f61, 0xcdf3bff2883fc9d9)
  {
    hide FipsRounds, ToRegs, K, INIT, CODE;
    EightTurns(
      ws, 8,
      0xb680953951604860, 0xaf573b02403e89cd, 0xc4875b0c7abc076b, 0x8093d195e0054fa3,
      0xf1eca5544cb89225, 0x81782d4a5db48f03, 0x69854c4aa0f25b59, 0xdb0a9963f80c2eaa,
      0x5e41214388186c14, 0x44249631255d2ca0, 0xfa967eed85a08028, 0x0ae07c86b1181c75,
      0x745aca4a342ed2e2, 0x96f60209b6dc35ba, 0x5a6c781f54dcc00c, 0x86f67263a0f0ec0a,
      0xd0403c398fc40002, 0x00091f460be46c52, 0xd375471bde1ba3f4, 0x475975b91a7a462c,
      0xcdf3bff2883fc9d9, 0x860acf9effba6f61, 0x874bfe5f6aae9f2f, 0xa77b7c035dd4c161,
      0xd807aa98a3030242, 0x12835b0145706fbe, 0x243185be4ee4b28c, 0x550c7dc3d5ffb4e2,
      0x72be5d74f27b896f, 0x80deb1fe3b1696b1, 0x9bdc06a725c71235, 0xc19bf174cf692694,
      0x0000000000000000, 0x0000000000000000, 0x0000000000000000, 0x0000000000000000,
      0x0000000000000000, 0x0000000000000000, 0x0000000000000000, 0x0000000000000018);
  }

  lemma Rounds2(ws: seq<word>)
    requires |ws| == 80 && |K| == 80 && |INIT| == 8 && CODE.k == K
    requires ws[16..24] == W2 && K[16..24] == K2
    requires FipsRounds(CODE, ToRegs(INIT), ws, 16)
             == Regs(0x0ae07c86b1181c75, 0xfa967eed85a08028, 0x44249631255d2ca0, 0x5e41214388186c14,
                     0xa77b7c035dd4c161, 0x874bfe5f6aae9f2f, 0x860acf9effba6f61, 0xcdf3bff2883fc9d9)
    ensures FipsRounds(CODE, ToRegs(INIT), ws, 24)
            == Regs(0x4f6877b58fe55484, 0x3e2644567b709a78, 0xda34d6673d452dcf, 0x8dc5ae65569d3855,
                    0xc66005f87db55233, 0x0ac2b11da8f571c6, 0x8e30ff09ad488753, 0x4bb9e66d1145bfdc)
  {
    hide FipsRounds, ToRegs, K, INIT, CODE;
    EightTurns(
      ws, 16,
      0x5e41214388186c14, 0x44249631255d2ca0, 0xfa967eed85a08028, 0x0ae07c86b1181c75,
      0xcaf81a425d800537, 0x4725be249ad19e6b, 0x3c4b4104168e3edb, 0x9a3fb4d38ab6cf06,
      0x8dc5ae65569d3855, 0xda34d6673d452dcf, 0x3e2644567b709a78, 0x4f6877b58fe55484,
      0xcdf3bff2883fc9d9, 0x860acf9effba6f61, 0x874bfe5f6aae9f2f, 0xa77b7c035dd4c161,
      0x2deecc6b39d64d78, 0xf47e8353f8047455, 0x29695fd88d81dbd0, 0xf14998dd5f70767e,
      0x4bb9e66d1145bfdc, 0x8e30ff09ad488753, 0x0ac2b11da8f571c6, 0xc66005f87db55233,
      0xe49b69c19ef14ad2, 0xefbe4786384f25e3, 0x0fc19dc68b8cd5b5, 0x240ca1cc77ac9c65,
      0x2de92c6f592b0275, 0x4a7484aa6ea6e483, 0x5cb0a9dcbd41fbd4, 0x76f988da831153b5,
      0x6162638000000000, 0x00030000000000c0, 0x0a9699a24c700003, 0x00000c0060000603,
      0x549ef62639858996, 0x00c0003300003c00, 0x1497007a8a0e9dbc, 0x62e56500cc0780f0);
  }

  lemma Rounds3(ws: seq<word>)
    requires |ws| == 80 && |K| == 80 && |INIT| == 8 && CODE.k == K
    requires ws[24..32] == W3 && K[24..32] == K3
    requires FipsRounds(CODE, ToRegs(INIT), ws, 24)
             == Regs(0x4f6877b58fe55484, 0x3e2644567b709a78, 0xda34d6673d452dcf, 0x8dc5ae65569d3855,
                     0xc66005f87db55233, 0x0ac2b11da8f571c6, 0x8e30ff09ad488753, 0x4bb9e66d1145bfdc)
    ensures FipsRounds(CODE, ToRegs(INIT), ws, 32)
            == Regs(0xff4d3f1f0d46a736, 0x4c4fbbb75f1873a6, 0x74bf40f869094c63, 0xe62349090f47d30a,
                    0x3cd388e119e8162e, 0x73e025d91b9efea3, 0xf0aec2fe1437f085, 0x0fcdf99710f21584)
  {
    hide FipsRounds, ToRegs, K, INIT, CODE;
    EightTurns(
      ws, 24,
      0x8dc5ae65569d3855, 0xda34d6673d452dcf, 0x3e2644567b709a78, 0x4f6877b58fe55484,
      0x9aff71163fa3a940, 0x0bc5f791f8e6816b, 0x884c3bc27bc4f941, 0xeab4a9e5771b8d09,
      0xe62349090f47d30a, 0x74bf40f869094c63, 0x4c4fbbb75f1873a6, 0xff4d3f1f0d46a736,
      0x4bb9e66d1145bfdc, 0x8e30ff09ad488753, 0x0ac2b11da8f571c6, 0xc66005f87db55233,
      0xd3ecf13769180e6f, 0x6ddf1fd7edcce336, 0xe6e48c9a8e948365, 0x09068a4e255a0dac,
      0x0fcdf99710f21584, 0xf0aec2fe1437f085, 0x73e025d91b9efea3, 0x3cd388e119e8162e,
      0x983e5152ee66dfab, 0xa831c66d2db43210, 0xb00327c898fb213f, 0xbf597fc7beef0ee4,
      0xc6e00bf33da88fc2, 0xd5a79147930aa725, 0x06ca6351e003826f, 0x142929670a0e6e70,
      0x7760dd475a538797, 0xf1554b711c1c0003, 0xca2993a4345d9ff2, 0x5e0e66b5c783dd32,
      0xe25a625d00494b62, 0x9f44486fb1e4fbd2, 0xb31b8c2b06085f2f, 0x0e987660934142f6);
  }

  lemma Rounds4(ws: seq<word>)
    requires |ws| == 80 && |K| == 80 && |INIT| == 8 && CODE.k == K
    requires ws[32..40] == W4 && K[32..40] == K4
    requires FipsRounds(CODE, ToRegs(INIT), ws, 32)
             == Regs(0xff4d3f1f0d46a736, 0x4c4fbbb75f1873a6, 0x74bf40f869094c63, 0xe62349090f47d30a,
                     0x3cd388e119e8162e, 0x73e025d91b9efea3, 0xf0aec2fe1437f085, 0x0fcdf99710f21584)
    ensures FipsRounds(CODE, ToRegs(INIT), ws, 40)
            == Regs(0x8e01e125b855d225, 0xb3bb8542b3376de5, 0x002bb8e4cd989567, 0x88df85b0bbe77514,
                    0x0c710a47ba6a567b, 0xb49596c20feba7de, 0x66adcfa249ac7bbd, 0x8fbfd0162bbf4675)
  {
    hide FipsRounds, ToRegs, K, INIT, CODE;
    EightTurns(
      ws, 32,
      0xe62349090f47d30a, 0x74bf40f869094c63, 0x4c4fbbb75f1873a6, 0xff4d3f1f0d46a736,
      0xa0509015ca08c8d4, 0x60d4e6995ed91fe6, 0x2c59ec7743632621, 0x1a081afc59fdbc2c,
      0x88df85b0bbe77514, 0x002bb8e4cd989567, 0xb3bb8542b3376de5, 0x8e01e125b855d225,
      0x0fcdf99710f21584, 0xf0aec2fe1437f085, 0x73e025d91b9efea3, 0x3cd388e119e8162e,
      0xe1034573654a106f, 0xefabbd8bf47c041a, 0x0fbae670fa780fd3, 0xf098082f502b44cd,
      0x8fbfd0162bbf4675, 0x66adcfa249ac7bbd, 0xb49596c20feba7de, 0x0c710a47ba6a567b,
      0x27b70a8546d22ffc, 0x2e1b21385c26c926, 0x4d2c6dfc5ac42aed, 0x53380d139d95b3df,
      0x650a73548baf63de, 0x766a0abb3c77b2a8, 0x81c2c92e47edaee6, 0x92722c851482353b,
      0xa4af2cfd09fbb924, 0xad289e2e0bd53186, 0x3c74563aa2f9673e, 0x6ccdcd14cc14b53f,
      0xc3f925b337f22bde, 0x5bcc77a75ad95b54, 0x3ec2257adca09a52, 0x28246960001fc5eb);
  }

  lemma Rounds5(ws: seq<word>)
    requires |ws| == 80 && |K| == 80 && |INIT| == 8 && CODE.k == K
    requires ws[40..48] == W5 && K[40..48] == K5
    requires FipsRounds(CODE, ToRegs(INIT), ws, 40)
             == Regs(0x8e01e125b855d225, 0xb3bb8542b3376de5, 0x002bb8e4cd989567, 0x88df85b0bbe77514,
                     0x0c710a47ba6a567b, 0xb49596c20feba7de, 0x66adcfa249ac7bbd, 0x8fbfd0162bbf4675)
    ensures FipsRounds(CODE, ToRegs(INIT), ws, 48)
            == Regs(0x6b69fc1bb482feac, 0xf61e672694de2d67, 0x021fbadbabab5ac6, 0xc47c9d5c7ea8a234,
                    0x35264334c03ac8ad, 0xc6bc35740d8daa9a, 0xe95c2a57572d64d9, 0x858d832ae0e8911c)
  {
    hide FipsRounds, ToRegs, K, INIT, CODE;
    EightTurns(
      ws, 40,
      0x88df85b0bbe77514, 0x002bb8e4cd989567, 0xb3bb8542b3376de5, 0x8e01e125b855d225,
      0xb01521dd6a6be12c, 0xe96f89dd48cbd851, 0xbc05ba8de5d3c480, 0x35d7e7f41defcbd5,
      0xc47c9d5c7ea8a234, 0x021fbadbabab5ac6, 0xf61e672694de2d67, 0x6b69fc1bb482feac,
      0x8fbfd0162bbf4675, 0x66adcfa249ac7bbd, 0xb49596c20feba7de, 0x0c710a47ba6a567b,
      0x169008b3a4bb170b, 0xf0996439e7b50cb1, 0x639cb938e14dc190, 0xcc5100997f5710f2,
      0x858d832ae0e8911c, 0xe95c2a57572d64d9, 0xc6bc35740d8daa9a, 0x35264334c03ac8ad,
      0xa2bfe8a14cf10364, 0xa81a664bbc423001, 0xc24b8b70d0f89791, 0xc76c51a30654be30,
      0xd192e819d6ef5218, 0xd69906245565a910, 0xf40e35855771202a, 0x106aa07032bbd1b8,
      0x04e33a75ce2be88a, 0x7d5314b3c359e0e7, 0xaef7a285ff251266, 0x0b8472581deea04f,
      0xb174e26eddc7b033, 0x5d63bae58ddd88de, 0x4c044007b744ccbb, 0xe6a9aa4d74dc7d43);
  }

  lemma Rounds6(ws: seq<word>)
    requires |ws| == 80 && |K| == 80 && |INIT| == 8 && CODE.k == K
    requires ws[48..56] == W6 && K[48..56] == K6
    requires FipsRounds(CODE, ToRegs(INIT), ws, 48)
             == Regs(0x6b69fc1bb482feac, 0xf61e672694de2d67, 0x021fbadbabab5ac6, 0xc47c9d5c7ea8a234,
                     0x35264334c03ac8ad, 0xc6bc35740d8daa9a, 0xe95c2a57572d64d9, 0x858d832ae0e8911c)
    ensures FipsRounds(CODE, ToRegs(INIT), ws, 56)
            == Regs(0x63b460e42748817e, 0xf650857b5babda4d, 0xd63f68037ddf06aa, 0x03df11b32d42e203,
                    0xc6b4dd2a9931c509, 0x9ccfb31a86df0f86, 0xa6781efe1aa1ce02, 0x504f94e40591cffa)
  {
    hide FipsRounds, ToRegs, K, INIT, CODE;
    EightTurns(
      ws, 48,
      0xc47c9d5c7ea8a234, 0x021fbadbabab5ac6, 0xf61e672694de2d67, 0x6b69fc1bb482feac,
      0x571f323d96b3a047, 0xca9bd862c5050918, 0x813a43dd2c502043, 0xd43f83727325dd77,
      0x03df11b32d42e203, 0xd63f68037ddf06aa, 0xf650857b5babda4d, 0x63b460e42748817e,
      0x858d832ae0e8911c, 0xe95c2a57572d64d9, 0xc6bc35740d8daa9a, 0x35264334c03ac8ad,
      0x271580ed6c3e5650, 0xdfe091dab182e645, 0x07a0d8ef821c5e1a, 0x483f80a82eaee23e,
      0x504f94e40591cffa, 0xa6781efe1aa1ce02, 0x9ccfb31a86df0f86, 0xc6b4dd2a9931c509,
      0x19a4c116b8d2d0c8, 0x1e376c085141ab53, 0x2748774cdf8eeb99, 0x34b0bcb5e19b48a8,
      0x391c0cb3c5c95a63, 0x4ed8aa4ae3418acb, 0x5b9cca4f7763e373, 0x682e6ff3d6b2b8a3,
      0xebeaf1237248019c, 0x361e80b2d00f3193, 0x2e9839125df3b175, 0x3319629293ad5363,
      0x9cbc5d89ac1b89d5, 0x275e23ffeeca50b7, 0x3b80d680bf69ef58, 0x0d0696933945a125);
  }

  lemma Rounds7(ws: seq<word>)
    requires |ws| == 80 && |K| == 80 && |INIT| == 8 && CODE.k == K
    requires ws[56..64] == W7 && K[56..64] == K7
    requires FipsRounds(CODE, ToRegs(INIT), ws, 56)
             == Regs(0x63b460e42748817e, 0xf650857b5babda4d, 0xd63f68037ddf06aa, 0x03df11b32d42e203,
                     0xc6b4dd2a9931c509, 0x9ccfb31a86df0f86, 0xa6781efe1aa1ce02, 0x504f94e40591cffa)
    ensures FipsRounds(CODE, ToRegs(INIT), ws, 64)
            == Regs(0xab44e86276478d85, 0xa81dedbb9f19e643, 0xcfcd928c5424e2b6, 0x3857dfd2fc37d3ba,
                    0xcd881ee59ca6bc53, 0x84058865d60a05fa, 0x09aee5bda1644de5, 0xa6af4e9c9f807e51)
  {
    hide FipsRounds, ToRegs, K, INIT, CODE;
    EightTurns(
      ws, 56,
      0x03df11b32d42e203, 0xd63f68037ddf06aa, 0xf650857b5babda4d, 0x63b460e42748817e,
      0x7a52912943d52b05, 0x4b81c3aec976ea4b, 0x581ecb3355dcd9b8, 0x2c074484ef1eac8c,
      0x3857dfd2fc37d3ba, 0xcfcd928c5424e2b6, 0xa81dedbb9f19e643, 0xab44e86276478d85,
      0x504f94e40591cffa, 0xa6781efe1aa1ce02, 0x9ccfb31a86df0f86, 0xc6b4dd2a9931c509,
      0xd2e89bbd91e00be0, 0x70505988124351ac, 0x6a3c9b0f71c8bf36, 0x4797cde4ed370692,
      0xa6af4e9c9f807e51, 0x09aee5bda1644de5, 0x84058865d60a05fa, 0xcd881ee59ca6bc53,
      0x748f82ee5defb2fc, 0x78a5636f43172f60, 0x84c87814a1f0ab72, 0x8cc702081a6439ec,
      0x90befffa23631e28, 0xa4506cebde82bde9, 0xbef9a3f7b2c67915, 0xc67178f2e372532b,
      0x7533eabcb786ff00, 0xb89826cee6fbf0e5, 0x249b4fbcad623e9f, 0x4aea9df2b02d6f1e,
      0x2cc57475a55e8d8f, 0xb2574ae938d8be89, 0xc1b35a57b16d6aea, 0xcc4918b5949206bb);
  }

  lemma Rounds8(ws: seq<word>)
    requires |ws| == 80 && |K| == 80 && |INIT| == 8 && CODE.k == K
    requires ws[64..72] == W8 && K[64..72] == K8
    requires FipsRounds(CODE, ToRegs(INIT), ws, 64)
             == Regs(0xab44e86276478d85, 0xa81dedbb9f19e643, 0xcfcd928c5424e2b6, 0x3857dfd2fc37d3ba,
                     0xcd881ee59ca6bc53, 0x84058865d60a05fa, 0x09aee5bda1644de5, 0xa6af4e9c9f807e51)
    ensures FipsRounds(CODE, ToRegs(INIT), ws, 72)
            == Regs(0xf15e9664b2803575, 0x7652c579cb60f19c, 0xfb6aaae5d0b6a447, 0x181839d609c79748,
                    0x947c3dfafee570ef, 0xaff62c9665ff80fa, 0xe3711cb6564d112d, 0x0ada78ba2d446140)
  {
    hide FipsRounds, ToRegs, K, INIT, CODE;
    EightTurns(
      ws, 64,
      0x3857dfd2fc37d3ba, 0xcfcd928c5424e2b6, 0xa81dedbb9f19e643, 0xab44e86276478d85,
      0x5a806d7e9821a501, 0xeeb9c21bb0102598, 0x46c4210ab2cc155d, 0x54ba35cf56a0340e,
      0x181839d609c79748, 0xfb6aaae5d0b6a447, 0x7652c579cb60f19c, 0xf15e9664b2803575,
      0xa6af4e9c9f807e51, 0x09aee5bda1644de5, 0x84058865d60a05fa, 0xcd881ee59ca6bc53,
      0xaa84b086688a5c45, 0x3b5fed0d6a1f96e1, 0x29fab5a7bff53366, 0x1c66f46d95690bcf,
      0x0ada78ba2d446140, 0xe3711cb6564d112d, 0xaff62c9665ff80fa, 0x947c3dfafee570ef,
      0xca273eceea26619c, 0xd186b8c721c0c207, 0xeada7dd6cde0eb1e, 0xf57d4f7fee6ed178,
      0x06f067aa72176fba, 0x0a637dc5a2c898a6, 0x113f9804bef90dae, 0x1b710b35131c471b,
      0x5099c3add79f90ec, 0x5ea81d78e7660bf1, 0xebee6267405ac2a9, 0xb01f21926108a4ab,
      0x786433dd2fe65556, 0xc54a6eaa24a0552c, 0xb3c8f1530bdbaa9e, 0xbb8abfe56f469338);
  }

  lemma Rounds9(ws: seq<word>)
    requires |ws| == 80 && |K| == 80 && |INIT| == 8 && CODE.k == K
    requires ws[72..80] == W9 && K[72..80] == K9
    requires FipsRounds(CODE, ToRegs(INIT), ws, 72)
             == Regs(0xf15e9664b2803575, 0x7652c579cb60f19c, 0xfb6aaae5d0b6a447, 0x181839d609c79748,
                     0x947c3dfafee570ef, 0xaff62c9665ff80fa, 0xe3711cb6564d112d, 0x0ada78ba2d446140)
    ensures FipsRounds(CODE, ToRegs(INIT), ws, 80)
            == Regs(0x73a54f399fa4b1b2, 0x10d9c4c4295599f6, 0xd67806db8b148677, 0x654ef9abec389ca9,
                    0xd08446aa79693ed7, 0x9bb4d39778c07f9e, 0x25c96a7768fb2aa3, 0xceb9fc3691ce8326)
  {
    hide FipsRounds, ToRegs, K, INIT, CODE;
    EightTurns(
      ws, 72,
      0x181839d609c79748, 0xfb6aaae5d0b6a447, 0x7652c579cb60f19c, 0xf15e9664b2803575,
      0x358406d165aee9ab, 0x20878dcd29cdfaf5, 0x33d48dabb5521de2, 0xc8960e6be864b916,
      0x654ef9abec389ca9, 0xd67806db8b148677, 0x10d9c4c4295599f6, 0x73a54f399fa4b1b2,
      0x0ada78ba2d446140, 0xe3711cb6564d112d, 0xaff62c9665ff80fa, 0x947c3dfafee570ef,
      0x8c7b5fd91a794ca0, 0x054d3536539948d0, 0x2ba18245b50de4cf, 0x995019a6ff3ba3de,
      0xceb9fc3691ce8326, 0x25c96a7768fb2aa3, 0x9bb4d39778c07f9e, 0xd08446aa79693ed7,
      0x28db77f523047d84, 0x32caab7b40c72493, 0x3c9ebe0a15c9bebc, 0x431d67c49c100d4c,
      0x4cc5d4becb3e42b6, 0x597f299cfc657e2a, 0x5fcb6fab3ad6faec, 0x6c44198c4a475817,
      0xf63d4265cc1c5a78, 0xbe8355ea73129afb, 0x49e2db8ebdcfbeb5, 0x82269d4a883a3d99,
      0xfdf53df3011f362b, 0x464af5671d71c12e, 0xe449b68198ec611c, 0x92aeeed1a7bcf7d2);
  }

  lemma Started(ws: seq<word>)
    requires |ws| == 80 && |CODE.k| == 80
    ensures |INIT| == 8
    ensures FipsRounds(CODE, ToRegs(INIT), ws, 0)
            == Regs(0x6a09e667f3bcc908, 0xbb67ae8584caa73b, 0x3c6ef372fe94f82b, 0xa54ff53a5f1d36f1,
                    0x510e527fade682d1, 0x9b05688c2b3e6c1f, 0x1f83d9abfb41bd6b, 0x5be0cd19137e2179)
  {
    hide K;
  }

  lemma Rounds(ws: seq<word>)
    requires ws == Schedule(CODE, BLOCK, 80)
    ensures |CODE.k| == 80 && |INIT| == 8
    ensures FipsRounds(CODE, ToRegs(INIT), ws, 80)
            == Regs(0x73a54f399fa4b1b2, 0x10d9c4c4295599f6, 0xd67806db8b148677, 0x654ef9abec389ca9,
                    0xd08446aa79693ed7, 0x9bb4d39778c07f9e, 0x25c96a7768fb2aa3, 0xceb9fc3691ce8326)
  {
    hide Schedule, FipsRounds, BLOCK, K, INIT, CODE, ToRegs;
    hide K0, K1, K2, K3, K4, K5, K6, K7, K8, K9;
    hide W0, W1, W2, W3, W4, W5, W6, W7, W8, W9;
    CodeTables();
    Pieces();
    Scheduled(ws);
    Started(ws);
    Rounds0(ws);
    Rounds1(ws);
    Rounds2(ws);
    Rounds3(ws);
    Rounds4(ws);
    Rounds5(ws);
    Rounds6(ws);
    Rounds7(ws);
    Rounds8(ws);
    Rounds9(ws);
  }

  // ---- The digest ----

  const STATE: seq<word> := [
    0xddaf35a193617aba, 0xcc417349ae204131, 0x12e6fa4e89a97ea2, 0x0a9eeee64b55d39a,
    0x2192992a274fc1a8, 0x36ba3c23a3feebbd, 0x454d4423643ce80e, 0x2a9ac94fa54ca49f]

  lemma FinalState()
    ensures |CODE.k| == CODE.rounds && |INIT| == 8 && Compress(CODE, INIT, BLOCK) == STATE
  {
    hide Schedule, FipsRounds, BLOCK, K, ToRegs;
    CodeTables();
    Rounds(Schedule(CODE, BLOCK, 80));
  }

  const FRONT: seq<byte> := [
    0xdd, 0xaf, 0x35, 0xa1, 0x93, 0x61, 0x7a, 0xba, 0xcc, 0x41, 0x73, 0x49, 0xae, 0x20, 0x41, 0x31,
    0x12, 0xe6, 0xfa, 0x4e, 0x89, 0xa9, 0x7e, 0xa2, 0x0a, 0x9e, 0xee, 0xe6, 0x4b, 0x55, 0xd3, 0x9a]
  const BACK: seq<byte> := [
    0x21, 0x92, 0x99, 0x2a, 0x27, 0x4f, 0xc1, 0xa8, 0x36, 0xba, 0x3c, 0x23, 0xa3, 0xfe, 0xeb, 0xbd,
    0x45, 0x4d, 0x44, 0x23, 0x64, 0x3c, 0xe8, 0x0e, 0x2a, 0x9a, 0xc9, 0x4f, 0xa5, 0x4c, 0xa4, 0x9f]

  lemma StoreWord0()
    ensures Store(0xddaf35a193617aba) == [0xdd, 0xaf, 0x35, 0xa1, 0x93, 0x61, 0x7a, 0xba]
  {
  }

  lemma StoreWord1()
    ensures Store(0xcc417349ae204131) == [0xcc, 0x41, 0x73, 0x49, 0xae, 0x20, 0x41, 0x31]
  {
  }

  lemma StoreWord2()
    ensures Store(0x12e6fa4e89a97ea2) == [0x12, 0xe6, 0xfa, 0x4e, 0x89, 0xa9, 0x7e, 0xa2]
  {
  }

  lemma StoreWord3()
    ensures Store(0x0a9eeee64b55d39a) == [0x0a, 0x9e, 0xee, 0xe6, 0x4b, 0x55, 0xd3, 0x9a]
  {
  }

  lemma StoreWord4()
    ensures Store(0x2192992a274fc1a8) == [0x21, 0x92, 0x99, 0x2a, 0x27, 0x4f, 0xc1, 0xa8]
  {
  }

  lemma StoreWord5()
    ensures Store(0x36ba3c23a3feebbd) == [0x36, 0xba, 0x3c, 0x23, 0xa3, 0xfe, 0xeb, 0xbd]
  {
  }

  lemma StoreWord6()
    ensures Store(0x454d4423643ce80e) == [0x45, 0x4d, 0x44, 0x23, 0x64, 0x3c, 0xe8, 0x0e]
  {
  }

  lemma StoreWord7()
    ensures Store(0x2a9ac94fa54ca49f) == [0x2a, 0x9a, 0xc9, 0x4f, 0xa5, 0x4c, 0xa4, 0x9f]
  {
  }

  lemma StoredFront()
    ensures Store(0xddaf35a193617aba) + Store(0xcc417349ae204131)
            + Store(0x12e6fa4e89a97ea2) + Store(0x0a9eeee64b55d39a) == FRONT
  {
    hide Store;
    StoreWord0();
    StoreWord1();
    StoreWord2();
    StoreWord3();
  }

  lemma StoredBack()
    ensures Store(0x2192992a274fc1a8) + Store(0x36ba3c23a3feebbd)
            + Store(0x454d4423643ce80e) + Store(0x2a9ac94fa54ca49f) == BACK
  {
    hide Store;
    StoreWord4();
    StoreWord5();
    StoreWord6();
    StoreWord7();
  }

  lemma Stored()
    ensures StoreAll(CODE, STATE) == FRONT + BACK
  {
    hide Store, StoreAll, FRONT, BACK, K, INIT;
    StoreEight(CODE, STATE);
    StoredFront();
    StoredBack();
  }

  lemma AbcBlocks()
    ensures CODE.Valid() && HashBlocks(CODE, BLOCK) == STATE
  {
    hide Compress, BLOCK, STATE, Variant.Valid, K, INIT;
    Constants();
    BlockShape();
    FinalState();
    assert BLOCK[..0] == [] && BLOCK[0..] == BLOCK;
  }

  /** The published digest of "abc". */
  lemma AbcHashed()
    ensures Hash(ABC) == FRONT + BACK
  {
    hide HashBlocks, Padded, StoreAll, FRONT, BACK, Variant.Valid, SameOps, CODE, FIPS, BLOCK, STATE;
    Constants();
    SameFunctions();
    SameDigest(CODE, FIPS, ABC);
    PaddedAbc();
    AbcBlocks();
    Stored();
  }
}
