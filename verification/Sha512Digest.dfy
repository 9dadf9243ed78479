/** The digest of one message through SHA-512, with every word of its schedule and every state on the way. */
module Sha512Digest {
  import opened ShaStream
  import opened Sha512
  import opened Words64

  /** The message "abc" with its padding. */
  function Block(): (b: seq<byte>)
    ensures |b| == BLOCK_SIZE
  {
    [0x61, 0x62, 0x63, 0x80] + Zeros(123) + [0x18]
  }

  lemma Word(b: seq<byte>, t: nat, w2: word, w7: word, w15: word, w16: word, w: word)
    requires |b| == BLOCK_SIZE && 16 <= t < ROUNDS
    requires Schedule(b, t - 2) == w2 && Schedule(b, t - 7) == w7
    requires Schedule(b, t - 15) == w15 && Schedule(b, t - 16) == w16
    requires Add(Add(Add(Sigma1(w2), w7), Sigma0(w15)), w16) == w
    ensures Schedule(b, t) == w
  {
  }

  lemma Go(b: seq<byte>, t: nat, r: Regs, k: word, w: word, a: word, e: word)
    requires |b| == BLOCK_SIZE && t < ROUNDS && Rounds(Initial(), b, t) == r && K()[t] == k && Schedule(b, t) == w
    requires Round(r, k, w) == Regs(a, r.a, r.b, r.c, e, r.e, r.f, r.g)
    ensures Rounds(Initial(), b, t + 1) == Regs(a, r.a, r.b, r.c, e, r.e, r.f, r.g)
  {
    hide Round, K, Schedule, Block, Initial;
  }

  /** The words between the first and the last of the sixteen are zero. */
  lemma ZeroWord(b: seq<byte>, t: nat)
    requires b == Block() && 1 <= t < 15
    ensures Schedule(b, t) == 0
  {
    assert forall i :: 8 * t <= i < 8 * t + 8 ==> b[i] == 0;
  }

  lemma EndWords(b: seq<byte>)
    requires b == Block()
    ensures Schedule(b, 0) == 0x6162638000000000 && Schedule(b, 15) == 0x0000000000000018
  {
  }

  lemma WordsFrom0(b: seq<byte>)
    requires b == Block()
    ensures Schedule(b, 0) == 0x6162638000000000 && Schedule(b, 1) == 0x0000000000000000
    ensures Schedule(b, 2) == 0x0000000000000000 && Schedule(b, 3) == 0x0000000000000000
    ensures Schedule(b, 4) == 0x0000000000000000 && Schedule(b, 5) == 0x0000000000000000
    ensures Schedule(b, 6) == 0x0000000000000000 && Schedule(b, 7) == 0x0000000000000000
  {
    hide Schedule, Block;
    EndWords(b);
    forall t | 1 <= t < 15 ensures Schedule(b, t) == 0 { ZeroWord(b, t); }
  }

  lemma WordsFrom8(b: seq<byte>)
    requires b == Block()
    ensures Schedule(b, 8) == 0x0000000000000000 && Schedule(b, 9) == 0x0000000000000000
    ensures Schedule(b, 10) == 0x0000000000000000 && Schedule(b, 11) == 0x0000000000000000
    ensures Schedule(b, 12) == 0x0000000000000000 && Schedule(b, 13) == 0x0000000000000000
    ensures Schedule(b, 14) == 0x0000000000000000 && Schedule(b, 15) == 0x0000000000000018
  {
    hide Schedule, Block;
    EndWords(b);
    forall t | 1 <= t < 15 ensures Schedule(b, t) == 0 { ZeroWord(b, t); }
  }

  lemma WordsFrom16(b: seq<byte>)
    requires b == Block()
    ensures Schedule(b, 16) == 0x6162638000000000 && Schedule(b, 17) == 0x00030000000000c0
    ensures Schedule(b, 18) == 0x0a9699a24c700003 && Schedule(b, 19) == 0x00000c0060000603
    ensures Schedule(b, 20) == 0x549ef62639858996 && Schedule(b, 21) == 0x00c0003300003c00
    ensures Schedule(b, 22) == 0x1497007a8a0e9dbc && Schedule(b, 23) == 0x62e56500cc0780f0
  {
    hide Schedule, Block;
    WordsFrom0(b);
    WordsFrom8(b);
    Word(b, 16, 0x0000000000000000, 0x0000000000000000, 0x0000000000000000, 0x6162638000000000, 0x6162638000000000);
    Word(b, 17, 0x0000000000000018, 0x0000000000000000, 0x0000000000000000, 0x0000000000000000, 0x00030000000000c0);
    Word(b, 18, 0x6162638000000000, 0x0000000000000000, 0x0000000000000000, 0x0000000000000000, 0x0a9699a24c700003);
    Word(b, 19, 0x00030000000000c0, 0x0000000000000000, 0x0000000000000000, 0x0000000000000000, 0x00000c0060000603);
    Word(b, 20, 0x0a9699a24c700003, 0x0000000000000000, 0x0000000000000000, 0x0000000000000000, 0x549ef62639858996);
    Word(b, 21, 0x00000c0060000603, 0x0000000000000000, 0x0000000000000000, 0x0000000000000000, 0x00c0003300003c00);
    Word(b, 22, 0x549ef62639858996, 0x0000000000000018, 0x0000000000000000, 0x0000000000000000, 0x1497007a8a0e9dbc);
    Word(b, 23, 0x00c0003300003c00, 0x6162638000000000, 0x0000000000000000, 0x0000000000000000, 0x62e56500cc0780f0);
  }

  lemma WordsFrom24(b: seq<byte>)
    requires b == Block()
    ensures Schedule(b, 24) == 0x7760dd475a538797 && Schedule(b, 25) == 0xf1554b711c1c0003
    ensures Schedule(b, 26) == 0xca2993a4345d9ff2 && Schedule(b, 27) == 0x5e0e66b5c783dd32
    ensures Schedule(b, 28) == 0xe25a625d00494b62 && Schedule(b, 29) == 0x9f44486fb1e4fbd2
    ensures Schedule(b, 30) == 0xb31b8c2b06085f2f && Schedule(b, 31) == 0x0e987660934142f6
  {
    hide Schedule, Block;
    WordsFrom8(b);
    WordsFrom16(b);
    Word(b, 24, 0x1497007a8a0e9dbc, 0x00030000000000c0, 0x0000000000000000, 0x0000000000000000, 0x7760dd475a538797);
    Word(b, 25, 0x62e56500cc0780f0, 0x0a9699a24c700003, 0x0000000000000000, 0x0000000000000000, 0xf1554b711c1c0003);
    Word(b, 26, 0x7760dd475a538797, 0x00000c0060000603, 0x0000000000000000, 0x0000000000000000, 0xca2993a4345d9ff2);
    Word(b, 27, 0xf1554b711c1c0003, 0x549ef62639858996, 0x0000000000000000, 0x0000000000000000, 0x5e0e66b5c783dd32);
    Word(b, 28, 0xca2993a4345d9ff2, 0x00c0003300003c00, 0x0000000000000000, 0x0000000000000000, 0xe25a625d00494b62);
    Word(b, 29, 0x5e0e66b5c783dd32, 0x1497007a8a0e9dbc, 0x0000000000000000, 0x0000000000000000, 0x9f44486fb1e4fbd2);
    Word(b, 30, 0xe25a625d00494b62, 0x62e56500cc0780f0, 0x0000000000000018, 0x0000000000000000, 0xb31b8c2b06085f2f);
    Word(b, 31, 0x9f44486fb1e4fbd2, 0x7760dd475a538797, 0x6162638000000000, 0x0000000000000018, 0x0e987660934142f6);
  }

  lemma WordsFrom32(b: seq<byte>)
    requires b == Block()
    ensures Schedule(b, 32) == 0xa4af2cfd09fbb924 && Schedule(b, 33) == 0xad289e2e0bd53186
    ensures Schedule(b, 34) == 0x3c74563aa2f9673e && Schedule(b, 35) == 0x6ccdcd14cc14b53f
    ensures Schedule(b, 36) == 0xc3f925b337f22bde && Schedule(b, 37) == 0x5bcc77a75ad95b54
    ensures Schedule(b, 38) == 0x3ec2257adca09a52 && Schedule(b, 39) == 0x28246960001fc5eb
  {
    hide Schedule, Block;
    WordsFrom16(b);
    WordsFrom24(b);
    Word(b, 32, 0xb31b8c2b06085f2f, 0xf1554b711c1c0003, 0x00030000000000c0, 0x6162638000000000, 0xa4af2cfd09fbb924);
    Word(b, 33, 0x0e987660934142f6, 0xca2993a4345d9ff2, 0x0a9699a24c700003, 0x00030000000000c0, 0xad289e2e0bd53186);
    Word(b, 34, 0xa4af2cfd09fbb924, 0x5e0e66b5c783dd32, 0x00000c0060000603, 0x0a9699a24c700003, 0x3c74563aa2f9673e);
    Word(b, 35, 0xad289e2e0bd53186, 0xe25a625d00494b62, 0x549ef62639858996, 0x00000c0060000603, 0x6ccdcd14cc14b53f);
    Word(b, 36, 0x3c74563aa2f9673e, 0x9f44486fb1e4fbd2, 0x00c0003300003c00, 0x549ef62639858996, 0xc3f925b337f22bde);
    Word(b, 37, 0x6ccdcd14cc14b53f, 0xb31b8c2b06085f2f, 0x1497007a8a0e9dbc, 0x00c0003300003c00, 0x5bcc77a75ad95b54);
    Word(b, 38, 0xc3f925b337f22bde, 0x0e987660934142f6, 0x62e56500cc0780f0, 0x1497007a8a0e9dbc, 0x3ec2257adca09a52);
    Word(b, 39, 0x5bcc77a75ad95b54, 0xa4af2cfd09fbb924, 0x7760dd475a538797, 0x62e56500cc0780f0, 0x28246960001fc5eb);
  }

  lemma WordsFrom40(b: seq<byte>)
    requires b == Block()
    ensures Schedule(b, 40) == 0x04e33a75ce2be88a && Schedule(b, 41) == 0x7d5314b3c359e0e7
    ensures Schedule(b, 42) == 0xaef7a285ff251266 && Schedule(b, 43) == 0x0b8472581deea04f
    ensures Schedule(b, 44) == 0xb174e26eddc7b033 && Schedule(b, 45) == 0x5d63bae58ddd88de
    ensures Schedule(b, 46) == 0x4c044007b744ccbb && Schedule(b, 47) == 0xe6a9aa4d74dc7d43
  {
    hide Schedule, Block;
    WordsFrom24(b);
    WordsFrom32(b);
    Word(b, 40, 0x3ec2257adca09a52, 0xad289e2e0bd53186, 0xf1554b711c1c0003, 0x7760dd475a538797, 0x04e33a75ce2be88a);
    Word(b, 41, 0x28246960001fc5eb, 0x3c74563aa2f9673e, 0xca2993a4345d9ff2, 0xf1554b711c1c0003, 0x7d5314b3c359e0e7);
    Word(b, 42, 0x04e33a75ce2be88a, 0x6ccdcd14cc14b53f, 0x5e0e66b5c783dd32, 0xca2993a4345d9ff2, 0xaef7a285ff251266);
    Word(b, 43, 0x7d5314b3c359e0e7, 0xc3f925b337f22bde, 0xe25a625d00494b62, 0x5e0e66b5c783dd32, 0x0b8472581deea04f);
    Word(b, 44, 0xaef7a285ff251266, 0x5bcc77a75ad95b54, 0x9f44486fb1e4fbd2, 0xe25a625d00494b62, 0xb174e26eddc7b033);
    Word(b, 45, 0x0b8472581deea04f, 0x3ec2257adca09a52, 0xb31b8c2b06085f2f, 0x9f44486fb1e4fbd2, 0x5d63bae58ddd88de);
    Word(b, 46, 0xb174e26eddc7b033, 0x28246960001fc5eb, 0x0e987660934142f6, 0xb31b8c2b06085f2f, 0x4c044007b744ccbb);
    Word(b, 47, 0x5d63bae58ddd88de, 0x04e33a75ce2be88a, 0xa4af2cfd09fbb924, 0x0e987660934142f6, 0xe6a9aa4d74dc7d43);
  }

  lemma WordsFrom48(b: seq<byte>)
    requires b == Block()
    ensures Schedule(b, 48) == 0xebeaf1237248019c && Schedule(b, 49) == 0x361e80b2d00f3193
    ensures Schedule(b, 50) == 0x2e9839125df3b175 && Schedule(b, 51) == 0x3319629293ad5363
    ensures Schedule(b, 52) == 0x9cbc5d89ac1b89d5 && Schedule(b, 53) == 0x275e23ffeeca50b7
    ensures Schedule(b, 54) == 0x3b80d680bf69ef58 && Schedule(b, 55) == 0x0d0696933945a125
  {
    hide Schedule, Block;
    WordsFrom32(b);
    WordsFrom40(b);
    Word(b, 48, 0x4c044007b744ccbb, 0x7d5314b3c359e0e7, 0xad289e2e0bd53186, 0xa4af2cfd09fbb924, 0xebeaf1237248019c);
    Word(b, 49, 0xe6a9aa4d74dc7d43, 0xaef7a285ff251266, 0x3c74563aa2f9673e, 0xad289e2e0bd53186, 0x361e80b2d00f3193);
    Word(b, 50, 0xebeaf1237248019c, 0x0b8472581deea04f, 0x6ccdcd14cc14b53f, 0x3c74563aa2f9673e, 0x2e9839125df3b175);
    Word(b, 51, 0x361e80b2d00f3193, 0xb174e26eddc7b033, 0xc3f925b337f22bde, 0x6ccdcd14cc14b53f, 0x3319629293ad5363);
    Word(b, 52, 0x2e9839125df3b175, 0x5d63bae58ddd88de, 0x5bcc77a75ad95b54, 0xc3f925b337f22bde, 0x9cbc5d89ac1b89d5);
    Word(b, 53, 0x3319629293ad5363, 0x4c044007b744ccbb, 0x3ec2257adca09a52, 0x5bcc77a75ad95b54, 0x275e23ffeeca50b7);
    Word(b, 54, 0x9cbc5d89ac1b89d5, 0xe6a9aa4d74dc7d43, 0x28246960001fc5eb, 0x3ec2257adca09a52, 0x3b80d680bf69ef58);
    Word(b, 55, 0x275e23ffeeca50b7, 0xebeaf1237248019c, 0x04e33a75ce2be88a, 0x28246960001fc5eb, 0x0d0696933945a125);
  }

  lemma WordsFrom56(b: seq<byte>)
    requires b == Block()
    ensures Schedule(b, 56) == 0x7533eabcb786ff00 && Schedule(b, 57) == 0xb89826cee6fbf0e5
    ensures Schedule(b, 58) == 0x249b4fbcad623e9f && Schedule(b, 59) == 0x4aea9df2b02d6f1e
    ensures Schedule(b, 60) == 0x2cc57475a55e8d8f && Schedule(b, 61) == 0xb2574ae938d8be89
    ensures Schedule(b, 62) == 0xc1b35a57b16d6aea && Schedule(b, 63) == 0xcc4918b5949206bb
  {
    hide Schedule, Block;
    WordsFrom40(b);
    WordsFrom48(b);
    Word(b, 56, 0x3b80d680bf69ef58, 0x361e80b2d00f3193, 0x7d5314b3c359e0e7, 0x04e33a75ce2be88a, 0x7533eabcb786ff00);
    Word(b, 57, 0x0d0696933945a125, 0x2e9839125df3b175, 0xaef7a285ff251266, 0x7d5314b3c359e0e7, 0xb89826cee6fbf0e5);
    Word(b, 58, 0x7533eabcb786ff00, 0x3319629293ad5363, 0x0b8472581deea04f, 0xaef7a285ff251266, 0x249b4fbcad623e9f);
    Word(b, 59, 0xb89826cee6fbf0e5, 0x9cbc5d89ac1b89d5, 0xb174e26eddc7b033, 0x0b8472581deea04f, 0x4aea9df2b02d6f1e);
    Word(b, 60, 0x249b4fbcad623e9f, 0x275e23ffeeca50b7, 0x5d63bae58ddd88de, 0xb174e26eddc7b033, 0x2cc57475a55e8d8f);
    Word(b, 61, 0x4aea9df2b02d6f1e, 0x3b80d680bf69ef58, 0x4c044007b744ccbb, 0x5d63bae58ddd88de, 0xb2574ae938d8be89);
    Word(b, 62, 0x2cc57475a55e8d8f, 0x0d0696933945a125, 0xe6a9aa4d74dc7d43, 0x4c044007b744ccbb, 0xc1b35a57b16d6aea);
    Word(b, 63, 0xb2574ae938d8be89, 0x7533eabcb786ff00, 0xebeaf1237248019c, 0xe6a9aa4d74dc7d43, 0xcc4918b5949206bb);
  }

  lemma WordsFrom64(b: seq<byte>)
    requires b == Block()
    ensures Schedule(b, 64) == 0x5099c3add79f90ec && Schedule(b, 65) == 0x5ea81d78e7660bf1
    ensures Schedule(b, 66) == 0xebee6267405ac2a9 && Schedule(b, 67) == 0xb01f21926108a4ab
    ensures Schedule(b, 68) == 0x786433dd2fe65556 && Schedule(b, 69) == 0xc54a6eaa24a0552c
    ensures Schedule(b, 70) == 0xb3c8f1530bdbaa9e && Schedule(b, 71) == 0xbb8abfe56f469338
  {
    hide Schedule, Block;
    WordsFrom48(b);
    WordsFrom56(b);
    Word(b, 64, 0xc1b35a57b16d6aea, 0xb89826cee6fbf0e5, 0x361e80b2d00f3193, 0xebeaf1237248019c, 0x5099c3add79f90ec);
    Word(b, 65, 0xcc4918b5949206bb, 0x249b4fbcad623e9f, 0x2e9839125df3b175, 0x361e80b2d00f3193, 0x5ea81d78e7660bf1);
    Word(b, 66, 0x5099c3add79f90ec, 0x4aea9df2b02d6f1e, 0x3319629293ad5363, 0x2e9839125df3b175, 0xebee6267405ac2a9);
    Word(b, 67, 0x5ea81d78e7660bf1, 0x2cc57475a55e8d8f, 0x9cbc5d89ac1b89d5, 0x3319629293ad5363, 0xb01f21926108a4ab);
    Word(b, 68, 0xebee6267405ac2a9, 0xb2574ae938d8be89, 0x275e23ffeeca50b7, 0x9cbc5d89ac1b89d5, 0x786433dd2fe65556);
    Word(b, 69, 0xb01f21926108a4ab, 0xc1b35a57b16d6aea, 0x3b80d680bf69ef58, 0x275e23ffeeca50b7, 0xc54a6eaa24a0552c);
    Word(b, 70, 0x786433dd2fe65556, 0xcc4918b5949206bb, 0x0d0696933945a125, 0x3b80d680bf69ef58, 0xb3c8f1530bdbaa9e);
    Word(b, 71, 0xc54a6eaa24a0552c, 0x5099c3add79f90ec, 0x7533eabcb786ff00, 0x0d0696933945a125, 0xbb8abfe56f469338);
  }

  lemma WordsFrom72(b: seq<byte>)
    requires b == Block()
    ensures Schedule(b, 72) == 0xf63d4265cc1c5a78 && Schedule(b, 73) == 0xbe8355ea73129afb
    ensures Schedule(b, 74) == 0x49e2db8ebdcfbeb5 && Schedule(b, 75) == 0x82269d4a883a3d99
    ensures Schedule(b, 76) == 0xfdf53df3011f362b && Schedule(b, 77) == 0x464af5671d71c12e
    ensures Schedule(b, 78) == 0xe449b68198ec611c && Schedule(b, 79) == 0x92aeeed1a7bcf7d2
  {
    hide Schedule, Block;
    WordsFrom56(b);
    WordsFrom64(b);
    Word(b, 72, 0xb3c8f1530bdbaa9e, 0x5ea81d78e7660bf1, 0xb89826cee6fbf0e5, 0x7533eabcb786ff00, 0xf63d4265cc1c5a78);
    Word(b, 73, 0xbb8abfe56f469338, 0xebee6267405ac2a9, 0x249b4fbcad623e9f, 0xb89826cee6fbf0e5, 0xbe8355ea73129afb);
    Word(b, 74, 0xf63d4265cc1c5a78, 0xb01f21926108a4ab, 0x4aea9df2b02d6f1e, 0x249b4fbcad623e9f, 0x49e2db8ebdcfbeb5);
    Word(b, 75, 0xbe8355ea73129afb, 0x786433dd2fe65556, 0x2cc57475a55e8d8f, 0x4aea9df2b02d6f1e, 0x82269d4a883a3d99);
    Word(b, 76, 0x49e2db8ebdcfbeb5, 0xc54a6eaa24a0552c, 0xb2574ae938d8be89, 0x2cc57475a55e8d8f, 0xfdf53df3011f362b);
    Word(b, 77, 0x82269d4a883a3d99, 0xb3c8f1530bdbaa9e, 0xc1b35a57b16d6aea, 0xb2574ae938d8be89, 0x464af5671d71c12e);
    Word(b, 78, 0xfdf53df3011f362b, 0xbb8abfe56f469338, 0xcc4918b5949206bb, 0xc1b35a57b16d6aea, 0xe449b68198ec611c);
    Word(b, 79, 0x464af5671d71c12e, 0xf63d4265cc1c5a78, 0x5099c3add79f90ec, 0xcc4918b5949206bb, 0x92aeeed1a7bcf7d2);
  }

  lemma Start(b: seq<byte>)
    requires |b| == BLOCK_SIZE
    ensures Rounds(Initial(), b, 0) == Regs(0x6a09e667f3bcc908, 0xbb67ae8584caa73b, 0x3c6ef372fe94f82b, 0xa54ff53a5f1d36f1,
      0x510e527fade682d1, 0x9b05688c2b3e6c1f, 0x1f83d9abfb41bd6b, 0x5be0cd19137e2179)
  {
  }

  lemma RoundsTo8(b: seq<byte>)
    requires b == Block()
    ensures Rounds(Initial(), b, 8) == Regs(0x8093d195e0054fa3, 0xc4875b0c7abc076b, 0xaf573b02403e89cd, 0xb680953951604860,
      0x86f67263a0f0ec0a, 0x5a6c781f54dcc00c, 0x96f60209b6dc35ba, 0x745aca4a342ed2e2)
  {
    hide Rounds, Schedule, Block;
    WordsFrom0(b);
    Start(b);
    Go(b, 0, Regs(0x6a09e667f3bcc908, 0xbb67ae8584caa73b, 0x3c6ef372fe94f82b, 0xa54ff53a5f1d36f1,
      0x510e527fade682d1, 0x9b05688c2b3e6c1f, 0x1f83d9abfb41bd6b, 0x5be0cd19137e2179),
      0x428a2f98d728ae22, 0x6162638000000000, 0xf6afceb8bcfcddf5, 0x58cb02347ab51f91);
    Go(b, 1, Regs(0xf6afceb8bcfcddf5, 0x6a09e667f3bcc908, 0xbb67ae8584caa73b, 0x3c6ef372fe94f82b,
      0x58cb02347ab51f91, 0x510e527fade682d1, 0x9b05688c2b3e6c1f, 0x1f83d9abfb41bd6b),
      0x7137449123ef65cd, 0x0000000000000000, 0x1320f8c9fb872cc0, 0xc3d4ebfd48650ffa);
    Go(b, 2, Regs(0x1320f8c9fb872cc0, 0xf6afceb8bcfcddf5, 0x6a09e667f3bcc908, 0xbb67ae8584caa73b,
      0xc3d4ebfd48650ffa, 0x58cb02347ab51f91, 0x510e527fade682d1, 0x9b05688c2b3e6c1f),
      0xb5c0fbcfec4d3b2f, 0x0000000000000000, 0xebcffc07203d91f3, 0xdfa9b239f2697812);
    Go(b, 3, Regs(0xebcffc07203d91f3, 0x1320f8c9fb872cc0, 0xf6afceb8bcfcddf5, 0x6a09e667f3bcc908,
      0xdfa9b239f2697812, 0xc3d4ebfd48650ffa, 0x58cb02347ab51f91, 0x510e527fade682d1),
      0xe9b5dba58189dbbc, 0x0000000000000000, 0x5a83cb3e80050e82, 0x0b47b4bb1928990e);
    Go(b, 4, Regs(0x5a83cb3e80050e82, 0xebcffc07203d91f3, 0x1320f8c9fb872cc0, 0xf6afceb8bcfcddf5,
      0x0b47b4bb1928990e, 0xdfa9b239f2697812, 0xc3d4ebfd48650ffa, 0x58cb02347ab51f91),
      0x3956c25bf348b538, 0x0000000000000000, 0xb680953951604860, 0x745aca4a342ed2e2);
    Go(b, 5, Regs(0xb680953951604860, 0x5a83cb3e80050e82, 0xebcffc07203d91f3, 0x1320f8c9fb872cc0,
      0x745aca4a342ed2e2, 0x0b47b4bb1928990e, 0xdfa9b239f2697812, 0xc3d4ebfd48650ffa),
      0x59f111f1b605d019, 0x0000000000000000, 0xaf573b02403e89cd, 0x96f60209b6dc35ba);
    Go(b, 6, Regs(0xaf573b02403e89cd, 0xb680953951604860, 0x5a83cb3e80050e82, 0xebcffc07203d91f3,
      0x96f60209b6dc35ba, 0x745aca4a342ed2e2, 0x0b47b4bb1928990e, 0xdfa9b239f2697812),
      0x923f82a4af194f9b, 0x0000000000000000, 0xc4875b0c7abc076b, 0x5a6c781f54dcc00c);
    Go(b, 7, Regs(0xc4875b0c7abc076b, 0xaf573b02403e89cd, 0xb680953951604860, 0x5a83cb3e80050e82,
      0x5a6c781f54dcc00c, 0x96f60209b6dc35ba, 0x745aca4a342ed2e2, 0x0b47b4bb1928990e),
      0xab1c5ed5da6d8118, 0x0000000000000000, 0x8093d195e0054fa3, 0x86f67263a0f0ec0a);
  }

  lemma RoundsTo16(b: seq<byte>)
    requires b == Block()
    ensures Rounds(Initial(), b, 16) == Regs(0x0ae07c86b1181c75, 0xfa967eed85a08028, 0x44249631255d2ca0, 0x5e41214388186c14,
      0xa77b7c035dd4c161, 0x874bfe5f6aae9f2f, 0x860acf9effba6f61, 0xcdf3bff2883fc9d9)
  {
    hide Rounds, Schedule, Block;
    WordsFrom8(b);
    RoundsTo8(b);
    Go(b, 8, Regs(0x8093d195e0054fa3, 0xc4875b0c7abc076b, 0xaf573b02403e89cd, 0xb680953951604860,
      0x86f67263a0f0ec0a, 0x5a6c781f54dcc00c, 0x96f60209b6dc35ba, 0x745aca4a342ed2e2),
      0xd807aa98a3030242, 0x0000000000000000, 0xf1eca5544cb89225, 0xd0403c398fc40002);
    Go(b, 9, Regs(0xf1eca5544cb89225, 0x8093d195e0054fa3, 0xc4875b0c7abc076b, 0xaf573b02403e89cd,
      0xd0403c398fc40002, 0x86f67263a0f0ec0a, 0x5a6c781f54dcc00c, 0x96f60209b6dc35ba),
      0x12835b0145706fbe, 0x0000000000000000, 0x81782d4a5db48f03, 0x00091f460be46c52);
    Go(b, 10, Regs(0x81782d4a5db48f03, 0xf1eca5544cb89225, 0x8093d195e0054fa3, 0xc4875b0c7abc076b,
      0x00091f460be46c52, 0xd0403c398fc40002, 0x86f67263a0f0ec0a, 0x5a6c781f54dcc00c),
      0x243185be4ee4b28c, 0x0000000000000000, 0x69854c4aa0f25b59, 0xd375471bde1ba3f4);
    Go(b, 11, Regs(0x69854c4aa0f25b59, 0x81782d4a5db48f03, 0xf1eca5544cb89225, 0x8093d195e0054fa3,
      0xd375471bde1ba3f4, 0x00091f460be46c52, 0xd0403c398fc40002, 0x86f67263a0f0ec0a),
      0x550c7dc3d5ffb4e2, 0x0000000000000000, 0xdb0a9963f80c2eaa, 0x475975b91a7a462c);
    Go(b, 12, Regs(0xdb0a9963f80c2eaa, 0x69854c4aa0f25b59, 0x81782d4a5db48f03, 0xf1eca5544cb89225,
      0x475975b91a7a462c, 0xd375471bde1ba3f4, 0x00091f460be46c52, 0xd0403c398fc40002),
      0x72be5d74f27b896f, 0x0000000000000000, 0x5e41214388186c14, 0xcdf3bff2883fc9d9);
    Go(b, 13, Regs(0x5e41214388186c14, 0xdb0a9963f80c2eaa, 0x69854c4aa0f25b59, 0x81782d4a5db48f03,
      0xcdf3bff2883fc9d9, 0x475975b91a7a462c, 0xd375471bde1ba3f4, 0x00091f460be46c52),
      0x80deb1fe3b1696b1, 0x0000000000000000, 0x44249631255d2ca0, 0x860acf9effba6f61);
    Go(b, 14, Regs(0x44249631255d2ca0, 0x5e41214388186c14, 0xdb0a9963f80c2eaa, 0x69854c4aa0f25b59,
      0x860acf9effba6f61, 0xcdf3bff2883fc9d9, 0x475975b91a7a462c, 0xd375471bde1ba3f4),
      0x9bdc06a725c71235, 0x0000000000000000, 0xfa967eed85a08028, 0x874bfe5f6aae9f2f);
    Go(b, 15, Regs(0xfa967eed85a08028, 0x44249631255d2ca0, 0x5e41214388186c14, 0xdb0a9963f80c2eaa,
      0x874bfe5f6aae9f2f, 0x860acf9effba6f61, 0xcdf3bff2883fc9d9, 0x475975b91a7a462c),
      0xc19bf174cf692694, 0x0000000000000018, 0x0ae07c86b1181c75, 0xa77b7c035dd4c161);
  }

  lemma RoundsTo24(b: seq<byte>)
    requires b == Block()
    ensures Rounds(Initial(), b, 24) == Regs(0x4f6877b58fe55484, 0x3e2644567b709a78, 0xda34d6673d452dcf, 0x8dc5ae65569d3855,
      0xc66005f87db55233, 0x0ac2b11da8f571c6, 0x8e30ff09ad488753, 0x4bb9e66d1145bfdc)
  {
    hide Rounds, Schedule, Block;
    WordsFrom16(b);
    RoundsTo16(b);
    Go(b, 16, Regs(0x0ae07c86b1181c75, 0xfa967eed85a08028, 0x44249631255d2ca0, 0x5e41214388186c14,
      0xa77b7c035dd4c161, 0x874bfe5f6aae9f2f, 0x860acf9effba6f61, 0xcdf3bff2883fc9d9),
      0xe49b69c19ef14ad2, 0x6162638000000000, 0xcaf81a425d800537, 0x2deecc6b39d64d78);
    Go(b, 17, Regs(0xcaf81a425d800537, 0x0ae07c86b1181c75, 0xfa967eed85a08028, 0x44249631255d2ca0,
      0x2deecc6b39d64d78, 0xa77b7c035dd4c161, 0x874bfe5f6aae9f2f, 0x860acf9effba6f61),
      0xefbe4786384f25e3, 0x00030000000000c0, 0x4725be249ad19e6b, 0xf47e8353f8047455);
    Go(b, 18, Regs(0x4725be249ad19e6b, 0xcaf81a425d800537, 0x0ae07c86b1181c75, 0xfa967eed85a08028,
      0xf47e8353f8047455, 0x2deecc6b39d64d78, 0xa77b7c035dd4c161, 0x874bfe5f6aae9f2f),
      0x0fc19dc68b8cd5b5, 0x0a9699a24c700003, 0x3c4b4104168e3edb, 0x29695fd88d81dbd0);
    Go(b, 19, Regs(0x3c4b4104168e3edb, 0x4725be249ad19e6b, 0xcaf81a425d800537, 0x0ae07c86b1181c75,
      0x29695fd88d81dbd0, 0xf47e8353f8047455, 0x2deecc6b39d64d78, 0xa77b7c035dd4c161),
      0x240ca1cc77ac9c65, 0x00000c0060000603, 0x9a3fb4d38ab6cf06, 0xf14998dd5f70767e);
    Go(b, 20, Regs(0x9a3fb4d38ab6cf06, 0x3c4b4104168e3edb, 0x4725be249ad19e6b, 0xcaf81a425d800537,
      0xf14998dd5f70767e, 0x29695fd88d81dbd0, 0xf47e8353f8047455, 0x2deecc6b39d64d78),
      0x2de92c6f592b0275, 0x549ef62639858996, 0x8dc5ae65569d3855, 0x4bb9e66d1145bfdc);
    Go(b, 21, Regs(0x8dc5ae65569d3855, 0x9a3fb4d38ab6cf06, 0x3c4b4104168e3edb, 0x4725be249ad19e6b,
      0x4bb9e66d1145bfdc, 0xf14998dd5f70767e, 0x29695fd88d81dbd0, 0xf47e8353f8047455),
      0x4a7484aa6ea6e483, 0x00c0003300003c00, 0xda34d6673d452dcf, 0x8e30ff09ad488753);
    Go(b, 22, Regs(0xda34d6673d452dcf, 0x8dc5ae65569d3855, 0x9a3fb4d38ab6cf06, 0x3c4b4104168e3edb,
      0x8e30ff09ad488753, 0x4bb9e66d1145bfdc, 0xf14998dd5f70767e, 0x29695fd88d81dbd0),
      0x5cb0a9dcbd41fbd4, 0x1497007a8a0e9dbc, 0x3e2644567b709a78, 0x0ac2b11da8f571c6);
    Go(b, 23, Regs(0x3e2644567b709a78, 0xda34d6673d452dcf, 0x8dc5ae65569d3855, 0x9a3fb4d38ab6cf06,
      0x0ac2b11da8f571c6, 0x8e30ff09ad488753, 0x4bb9e66d1145bfdc, 0xf14998dd5f70767e),
      0x76f988da831153b5, 0x62e56500cc0780f0, 0x4f6877b58fe55484, 0xc66005f87db55233);
  }

  lemma RoundsTo32(b: seq<byte>)
    requires b == Block()
    ensures Rounds(Initial(), b, 32) == Regs(0xff4d3f1f0d46a736, 0x4c4fbbb75f1873a6, 0x74bf40f869094c63, 0xe62349090f47d30a,
      0x3cd388e119e8162e, 0x73e025d91b9efea3, 0xf0aec2fe1437f085, 0x0fcdf99710f21584)
  {
    hide Rounds, Schedule, Block;
    WordsFrom24(b);
    RoundsTo24(b);
    Go(b, 24, Regs(0x4f6877b58fe55484, 0x3e2644567b709a78, 0xda34d6673d452dcf, 0x8dc5ae65569d3855,
      0xc66005f87db55233, 0x0ac2b11da8f571c6, 0x8e30ff09ad488753, 0x4bb9e66d1145bfdc),
      0x983e5152ee66dfab, 0x7760dd475a538797, 0x9aff71163fa3a940, 0xd3ecf13769180e6f);
    Go(b, 25, Regs(0x9aff71163fa3a940, 0x4f6877b58fe55484, 0x3e2644567b709a78, 0xda34d6673d452dcf,
      0xd3ecf13769180e6f, 0xc66005f87db55233, 0x0ac2b11da8f571c6, 0x8e30ff09ad488753),
      0xa831c66d2db43210, 0xf1554b711c1c0003, 0x0bc5f791f8e6816b, 0x6ddf1fd7edcce336);
    Go(b, 26, Regs(0x0bc5f791f8e6816b, 0x9aff71163fa3a940, 0x4f6877b58fe55484, 0x3e2644567b709a78,
      0x6ddf1fd7edcce336, 0xd3ecf13769180e6f, 0xc66005f87db55233, 0x0ac2b11da8f571c6),
      0xb00327c898fb213f, 0xca2993a4345d9ff2, 0x884c3bc27bc4f941, 0xe6e48c9a8e948365);
    Go(b, 27, Regs(0x884c3bc27bc4f941, 0x0bc5f791f8e6816b, 0x9aff71163fa3a940, 0x4f6877b58fe55484,
      0xe6e48c9a8e948365, 0x6ddf1fd7edcce336, 0xd3ecf13769180e6f, 0xc66005f87db55233),
      0xbf597fc7beef0ee4, 0x5e0e66b5c783dd32, 0xeab4a9e5771b8d09, 0x09068a4e255a0dac);
    Go(b, 28, Regs(0xeab4a9e5771b8d09, 0x884c3bc27bc4f941, 0x0bc5f791f8e6816b, 0x9aff71163fa3a940,
      0x09068a4e255a0dac, 0xe6e48c9a8e948365, 0x6ddf1fd7edcce336, 0xd3ecf13769180e6f),
      0xc6e00bf33da88fc2, 0xe25a625d00494b62, 0xe62349090f47d30a, 0x0fcdf99710f21584);
    Go(b, 29, Regs(0xe62349090f47d30a, 0xeab4a9e5771b8d09, 0x884c3bc27bc4f941, 0x0bc5f791f8e6816b,
      0x0fcdf99710f21584, 0x09068a4e255a0dac, 0xe6e48c9a8e948365, 0x6ddf1fd7edcce336),
      0xd5a79147930aa725, 0x9f44486fb1e4fbd2, 0x74bf40f869094c63, 0xf0aec2fe1437f085);
    Go(b, 30, Regs(0x74bf40f869094c63, 0xe62349090f47d30a, 0xeab4a9e5771b8d09, 0x884c3bc27bc4f941,
      0xf0aec2fe1437f085, 0x0fcdf99710f21584, 0x09068a4e255a0dac, 0xe6e48c9a8e948365),
      0x06ca6351e003826f, 0xb31b8c2b06085f2f, 0x4c4fbbb75f1873a6, 0x73e025d91b9efea3);
    Go(b, 31, Regs(0x4c4fbbb75f1873a6, 0x74bf40f869094c63, 0xe62349090f47d30a, 0xeab4a9e5771b8d09,
      0x73e025d91b9efea3, 0xf0aec2fe1437f085, 0x0fcdf99710f21584, 0x09068a4e255a0dac),
      0x142929670a0e6e70, 0x0e987660934142f6, 0xff4d3f1f0d46a736, 0x3cd388e119e8162e);
  }

  lemma RoundsTo40(b: seq<byte>)
    requires b == Block()
    ensures Rounds(Initial(), b, 40) == Regs(0x8e01e125b855d225, 0xb3bb8542b3376de5, 0x002bb8e4cd989567, 0x88df85b0bbe77514,
      0x0c710a47ba6a567b, 0xb49596c20feba7de, 0x66adcfa249ac7bbd, 0x8fbfd0162bbf4675)
  {
    hide Rounds, Schedule, Block;
    WordsFrom32(b);
    RoundsTo32(b);
    Go(b, 32, Regs(0xff4d3f1f0d46a736, 0x4c4fbbb75f1873a6, 0x74bf40f869094c63, 0xe62349090f47d30a,
      0x3cd388e119e8162e, 0x73e025d91b9efea3, 0xf0aec2fe1437f085, 0x0fcdf99710f21584),
      0x27b70a8546d22ffc, 0xa4af2cfd09fbb924, 0xa0509015ca08c8d4, 0xe1034573654a106f);
    Go(b, 33, Regs(0xa0509015ca08c8d4, 0xff4d3f1f0d46a736, 0x4c4fbbb75f1873a6, 0x74bf40f869094c63,
      0xe1034573654a106f, 0x3cd388e119e8162e, 0x73e025d91b9efea3, 0xf0aec2fe1437f085),
      0x2e1b21385c26c926, 0xad289e2e0bd53186, 0x60d4e6995ed91fe6, 0xefabbd8bf47c041a);
    Go(b, 34, Regs(0x60d4e6995ed91fe6, 0xa0509015ca08c8d4, 0xff4d3f1f0d46a736, 0x4c4fbbb75f1873a6,
      0xefabbd8bf47c041a, 0xe1034573654a106f, 0x3cd388e119e8162e, 0x73e025d91b9efea3),
      0x4d2c6dfc5ac42aed, 0x3c74563aa2f9673e, 0x2c59ec7743632621, 0x0fbae670fa780fd3);
    Go(b, 35, Regs(0x2c59ec7743632621, 0x60d4e6995ed91fe6, 0xa0509015ca08c8d4, 0xff4d3f1f0d46a736,
      0x0fbae670fa780fd3, 0xefabbd8bf47c041a, 0xe1034573654a106f, 0x3cd388e119e8162e),
      0x53380d139d95b3df, 0x6ccdcd14cc14b53f, 0x1a081afc59fdbc2c, 0xf098082f502b44cd);
    Go(b, 36, Regs(0x1a081afc59fdbc2c, 0x2c59ec7743632621, 0x60d4e6995ed91fe6, 0xa0509015ca08c8d4,
      0xf098082f502b44cd, 0x0fbae670fa780fd3, 0xefabbd8bf47c041a, 0xe1034573654a106f),
      0x650a73548baf63de, 0xc3f925b337f22bde, 0x88df85b0bbe77514, 0x8fbfd0162bbf4675);
    Go(b, 37, Regs(0x88df85b0bbe77514, 0x1a081afc59fdbc2c, 0x2c59ec7743632621, 0x60d4e6995ed91fe6,
      0x8fbfd0162bbf4675, 0xf098082f502b44cd, 0x0fbae670fa780fd3, 0xefabbd8bf47c041a),
      0x766a0abb3c77b2a8, 0x5bcc77a75ad95b54, 0x002bb8e4cd989567, 0x66adcfa249ac7bbd);
    Go(b, 38, Regs(0x002bb8e4cd989567, 0x88df85b0bbe77514, 0x1a081afc59fdbc2c, 0x2c59ec7743632621,
      0x66adcfa249ac7bbd, 0x8fbfd0162bbf4675, 0xf098082f502b44cd, 0x0fbae670fa780fd3),
      0x81c2c92e47edaee6, 0x3ec2257adca09a52, 0xb3bb8542b3376de5, 0xb49596c20feba7de);
    Go(b, 39, Regs(0xb3bb8542b3376de5, 0x002bb8e4cd989567, 0x88df85b0bbe77514, 0x1a081afc59fdbc2c,
      0xb49596c20feba7de, 0x66adcfa249ac7bbd, 0x8fbfd0162bbf4675, 0xf098082f502b44cd),
      0x92722c851482353b, 0x28246960001fc5eb, 0x8e01e125b855d225, 0x0c710a47ba6a567b);
  }

  lemma RoundsTo48(b: seq<byte>)
    requires b == Block()
    ensures Rounds(Initial(), b, 48) == Regs(0x6b69fc1bb482feac, 0xf61e672694de2d67, 0x021fbadbabab5ac6, 0xc47c9d5c7ea8a234,
      0x35264334c03ac8ad, 0xc6bc35740d8daa9a, 0xe95c2a57572d64d9, 0x858d832ae0e8911c)
  {
    hide Rounds, Schedule, Block;
    WordsFrom40(b);
    RoundsTo40(b);
    Go(b, 40, Regs(0x8e01e125b855d225, 0xb3bb8542b3376de5, 0x002bb8e4cd989567, 0x88df85b0bbe77514,
      0x0c710a47ba6a567b, 0xb49596c20feba7de, 0x66adcfa249ac7bbd, 0x8fbfd0162bbf4675),
      0xa2bfe8a14cf10364, 0x04e33a75ce2be88a, 0xb01521dd6a6be12c, 0x169008b3a4bb170b);
    Go(b, 41, Regs(0xb01521dd6a6be12c, 0x8e01e125b855d225, 0xb3bb8542b3376de5, 0x002bb8e4cd989567,
      0x169008b3a4bb170b, 0x0c710a47ba6a567b, 0xb49596c20feba7de, 0x66adcfa249ac7bbd),
      0xa81a664bbc423001, 0x7d5314b3c359e0e7, 0xe96f89dd48cbd851, 0xf0996439e7b50cb1);
    Go(b, 42, Regs(0xe96f89dd48cbd851, 0xb01521dd6a6be12c, 0x8e01e125b855d225, 0xb3bb8542b3376de5,
      0xf0996439e7b50cb1, 0x169008b3a4bb170b, 0x0c710a47ba6a567b, 0xb49596c20feba7de),
      0xc24b8b70d0f89791, 0xaef7a285ff251266, 0xbc05ba8de5d3c480, 0x639cb938e14dc190);
    Go(b, 43, Regs(0xbc05ba8de5d3c480, 0xe96f89dd48cbd851, 0xb01521dd6a6be12c, 0x8e01e125b855d225,
      0x639cb938e14dc190, 0xf0996439e7b50cb1, 0x169008b3a4bb170b, 0x0c710a47ba6a567b),
      0xc76c51a30654be30, 0x0b8472581deea04f, 0x35d7e7f41defcbd5, 0xcc5100997f5710f2);
    Go(b, 44, Regs(0x35d7e7f41defcbd5, 0xbc05ba8de5d3c480, 0xe96f89dd48cbd851, 0xb01521dd6a6be12c,
      0xcc5100997f5710f2, 0x639cb938e14dc190, 0xf0996439e7b50cb1, 0x169008b3a4bb170b),
      0xd192e819d6ef5218, 0xb174e26eddc7b033, 0xc47c9d5c7ea8a234, 0x858d832ae0e8911c);
    Go(b, 45, Regs(0xc47c9d5c7ea8a234, 0x35d7e7f41defcbd5, 0xbc05ba8de5d3c480, 0xe96f89dd48cbd851,
      0x858d832ae0e8911c, 0xcc5100997f5710f2, 0x639cb938e14dc190, 0xf0996439e7b50cb1),
      0xd69906245565a910, 0x5d63bae58ddd88de, 0x021fbadbabab5ac6, 0xe95c2a57572d64d9);
    Go(b, 46, Regs(0x021fbadbabab5ac6, 0xc47c9d5c7ea8a234, 0x35d7e7f41defcbd5, 0xbc05ba8de5d3c480,
      0xe95c2a57572d64d9, 0x858d832ae0e8911c, 0xcc5100997f5710f2, 0x639cb938e14dc190),
      0xf40e35855771202a, 0x4c044007b744ccbb, 0xf61e672694de2d67, 0xc6bc35740d8daa9a);
    Go(b, 47, Regs(0xf61e672694de2d67, 0x021fbadbabab5ac6, 0xc47c9d5c7ea8a234, 0x35d7e7f41defcbd5,
      0xc6bc35740d8daa9a, 0xe95c2a57572d64d9, 0x858d832ae0e8911c, 0xcc5100997f5710f2),
      0x106aa07032bbd1b8, 0xe6a9aa4d74dc7d43, 0x6b69fc1bb482feac, 0x35264334c03ac8ad);
  }

  lemma RoundsTo56(b: seq<byte>)
    requires b == Block()
    ensures Rounds(Initial(), b, 56) == Regs(0x63b460e42748817e, 0xf650857b5babda4d, 0xd63f68037ddf06aa, 0x03df11b32d42e203,
      0xc6b4dd2a9931c509, 0x9ccfb31a86df0f86, 0xa6781efe1aa1ce02, 0x504f94e40591cffa)
  {
    hide Rounds, Schedule, Block;
    WordsFrom48(b);
    RoundsTo48(b);
    Go(b, 48, Regs(0x6b69fc1bb482feac, 0xf61e672694de2d67, 0x021fbadbabab5ac6, 0xc47c9d5c7ea8a234,
      0x35264334c03ac8ad, 0xc6bc35740d8daa9a, 0xe95c2a57572d64d9, 0x858d832ae0e8911c),
      0x19a4c116b8d2d0c8, 0xebeaf1237248019c, 0x571f323d96b3a047, 0x271580ed6c3e5650);
    Go(b, 49, Regs(0x571f323d96b3a047, 0x6b69fc1bb482feac, 0xf61e672694de2d67, 0x021fbadbabab5ac6,
      0x271580ed6c3e5650, 0x35264334c03ac8ad, 0xc6bc35740d8daa9a, 0xe95c2a57572d64d9),
      0x1e376c085141ab53, 0x361e80b2d00f3193, 0xca9bd862c5050918, 0xdfe091dab182e645);
    Go(b, 50, Regs(0xca9bd862c5050918, 0x571f323d96b3a047, 0x6b69fc1bb482feac, 0xf61e672694de2d67,
      0xdfe091dab182e645, 0x271580ed6c3e5650, 0x35264334c03ac8ad, 0xc6bc35740d8daa9a),
      0x2748774cdf8eeb99, 0x2e9839125df3b175, 0x813a43dd2c502043, 0x07a0d8ef821c5e1a);
    Go(b, 51, Regs(0x813a43dd2c502043, 0xca9bd862c5050918, 0x571f323d96b3a047, 0x6b69fc1bb482feac,
      0x07a0d8ef821c5e1a, 0xdfe091dab182e645, 0x271580ed6c3e5650, 0x35264334c03ac8ad),
      0x34b0bcb5e19b48a8, 0x3319629293ad5363, 0xd43f83727325dd77, 0x483f80a82eaee23e);
    Go(b, 52, Regs(0xd43f83727325dd77, 0x813a43dd2c502043, 0xca9bd862c5050918, 0x571f323d96b3a047,
      0x483f80a82eaee23e, 0x07a0d8ef821c5e1a, 0xdfe091dab182e645, 0x271580ed6c3e5650),
      0x391c0cb3c5c95a63, 0x9cbc5d89ac1b89d5, 0x03df11b32d42e203, 0x504f94e40591cffa);
    Go(b, 53, Regs(0x03df11b32d42e203, 0xd43f83727325dd77, 0x813a43dd2c502043, 0xca9bd862c5050918,
      0x504f94e40591cffa, 0x483f80a82eaee23e, 0x07a0d8ef821c5e1a, 0xdfe091dab182e645),
      0x4ed8aa4ae3418acb, 0x275e23ffeeca50b7, 0xd63f68037ddf06aa, 0xa6781efe1aa1ce02);
    Go(b, 54, Regs(0xd63f68037ddf06aa, 0x03df11b32d42e203, 0xd43f83727325dd77, 0x813a43dd2c502043,
      0xa6781efe1aa1ce02, 0x504f94e40591cffa, 0x483f80a82eaee23e, 0x07a0d8ef821c5e1a),
      0x5b9cca4f7763e373, 0x3b80d680bf69ef58, 0xf650857b5babda4d, 0x9ccfb31a86df0f86);
    Go(b, 55, Regs(0xf650857b5babda4d, 0xd63f68037ddf06aa, 0x03df11b32d42e203, 0xd43f83727325dd77,
      0x9ccfb31a86df0f86, 0xa6781efe1aa1ce02, 0x504f94e40591cffa, 0x483f80a82eaee23e),
      0x682e6ff3d6b2b8a3, 0x0d0696933945a125, 0x63b460e42748817e, 0xc6b4dd2a9931c509);
  }

  lemma RoundsTo64(b: seq<byte>)
    requires b == Block()
    ensures Rounds(Initial(), b, 64) == Regs(0xab44e86276478d85, 0xa81dedbb9f19e643, 0xcfcd928c5424e2b6, 0x3857dfd2fc37d3ba,
      0xcd881ee59ca6bc53, 0x84058865d60a05fa, 0x09aee5bda1644de5, 0xa6af4e9c9f807e51)
  {
    hide Rounds, Schedule, Block;
    WordsFrom56(b);
    RoundsTo56(b);
    Go(b, 56, Regs(0x63b460e42748817e, 0xf650857b5babda4d, 0xd63f68037ddf06aa, 0x03df11b32d42e203,
      0xc6b4dd2a9931c509, 0x9ccfb31a86df0f86, 0xa6781efe1aa1ce02, 0x504f94e40591cffa),
      0x748f82ee5defb2fc, 0x7533eabcb786ff00, 0x7a52912943d52b05, 0xd2e89bbd91e00be0);
    Go(b, 57, Regs(0x7a52912943d52b05, 0x63b460e42748817e, 0xf650857b5babda4d, 0xd63f68037ddf06aa,
      0xd2e89bbd91e00be0, 0xc6b4dd2a9931c509, 0x9ccfb31a86df0f86, 0xa6781efe1aa1ce02),
      0x78a5636f43172f60, 0xb89826cee6fbf0e5, 0x4b81c3aec976ea4b, 0x70505988124351ac);
    Go(b, 58, Regs(0x4b81c3aec976ea4b, 0x7a52912943d52b05, 0x63b460e42748817e, 0xf650857b5babda4d,
      0x70505988124351ac, 0xd2e89bbd91e00be0, 0xc6b4dd2a9931c509, 0x9ccfb31a86df0f86),
      0x84c87814a1f0ab72, 0x249b4fbcad623e9f, 0x581ecb3355dcd9b8, 0x6a3c9b0f71c8bf36);
    Go(b, 59, Regs(0x581ecb3355dcd9b8, 0x4b81c3aec976ea4b, 0x7a52912943d52b05, 0x63b460e42748817e,
      0x6a3c9b0f71c8bf36, 0x70505988124351ac, 0xd2e89bbd91e00be0, 0xc6b4dd2a9931c509),
      0x8cc702081a6439ec, 0x4aea9df2b02d6f1e, 0x2c074484ef1eac8c, 0x4797cde4ed370692);
    Go(b, 60, Regs(0x2c074484ef1eac8c, 0x581ecb3355dcd9b8, 0x4b81c3aec976ea4b, 0x7a52912943d52b05,
      0x4797cde4ed370692, 0x6a3c9b0f71c8bf36, 0x70505988124351ac, 0xd2e89bbd91e00be0),
      0x90befffa23631e28, 0x2cc57475a55e8d8f, 0x3857dfd2fc37d3ba, 0xa6af4e9c9f807e51);
    Go(b, 61, Regs(0x3857dfd2fc37d3ba, 0x2c074484ef1eac8c, 0x581ecb3355dcd9b8, 0x4b81c3aec976ea4b,
      0xa6af4e9c9f807e51, 0x4797cde4ed370692, 0x6a3c9b0f71c8bf36, 0x70505988124351ac),
      0xa4506cebde82bde9, 0xb2574ae938d8be89, 0xcfcd928c5424e2b6, 0x09aee5bda1644de5);
    Go(b, 62, Regs(0xcfcd928c5424e2b6, 0x3857dfd2fc37d3ba, 0x2c074484ef1eac8c, 0x581ecb3355dcd9b8,
      0x09aee5bda1644de5, 0xa6af4e9c9f807e51, 0x4797cde4ed370692, 0x6a3c9b0f71c8bf36),
      0xbef9a3f7b2c67915, 0xc1b35a57b16d6aea, 0xa81dedbb9f19e643, 0x84058865d60a05fa);
    Go(b, 63, Regs(0xa81dedbb9f19e643, 0xcfcd928c5424e2b6, 0x3857dfd2fc37d3ba, 0x2c074484ef1eac8c,
      0x84058865d60a05fa, 0x09aee5bda1644de5, 0xa6af4e9c9f807e51, 0x4797cde4ed370692),
      0xc67178f2e372532b, 0xcc4918b5949206bb, 0xab44e86276478d85, 0xcd881ee59ca6bc53);
  }

  lemma RoundsTo72(b: seq<byte>)
    requires b == Block()
    ensures Rounds(Initial(), b, 72) == Regs(0xf15e9664b2803575, 0x7652c579cb60f19c, 0xfb6aaae5d0b6a447, 0x181839d609c79748,
      0x947c3dfafee570ef, 0xaff62c9665ff80fa, 0xe3711cb6564d112d, 0x0ada78ba2d446140)
  {
    hide Rounds, Schedule, Block;
    WordsFrom64(b);
    RoundsTo64(b);
    Go(b, 64, Regs(0xab44e86276478d85, 0xa81dedbb9f19e643, 0xcfcd928c5424e2b6, 0x3857dfd2fc37d3ba,
      0xcd881ee59ca6bc53, 0x84058865d60a05fa, 0x09aee5bda1644de5, 0xa6af4e9c9f807e51),
      0xca273eceea26619c, 0x5099c3add79f90ec, 0x5a806d7e9821a501, 0xaa84b086688a5c45);
    Go(b, 65, Regs(0x5a806d7e9821a501, 0xab44e86276478d85, 0xa81dedbb9f19e643, 0xcfcd928c5424e2b6,
      0xaa84b086688a5c45, 0xcd881ee59ca6bc53, 0x84058865d60a05fa, 0x09aee5bda1644de5),
      0xd186b8c721c0c207, 0x5ea81d78e7660bf1, 0xeeb9c21bb0102598, 0x3b5fed0d6a1f96e1);
    Go(b, 66, Regs(0xeeb9c21bb0102598, 0x5a806d7e9821a501, 0xab44e86276478d85, 0xa81dedbb9f19e643,
      0x3b5fed0d6a1f96e1, 0xaa84b086688a5c45, 0xcd881ee59ca6bc53, 0x84058865d60a05fa),
      0xeada7dd6cde0eb1e, 0xebee6267405ac2a9, 0x46c4210ab2cc155d, 0x29fab5a7bff53366);
    Go(b, 67, Regs(0x46c4210ab2cc155d, 0xeeb9c21bb0102598, 0x5a806d7e9821a501, 0xab44e86276478d85,
      0x29fab5a7bff53366, 0x3b5fed0d6a1f96e1, 0xaa84b086688a5c45, 0xcd881ee59ca6bc53),
      0xf57d4f7fee6ed178, 0xb01f21926108a4ab, 0x54ba35cf56a0340e, 0x1c66f46d95690bcf);
    Go(b, 68, Regs(0x54ba35cf56a0340e, 0x46c4210ab2cc155d, 0xeeb9c21bb0102598, 0x5a806d7e9821a501,
      0x1c66f46d95690bcf, 0x29fab5a7bff53366, 0x3b5fed0d6a1f96e1, 0xaa84b086688a5c45),
      0x06f067aa72176fba, 0x786433dd2fe65556, 0x181839d609c79748, 0x0ada78ba2d446140);
    Go(b, 69, Regs(0x181839d609c79748, 0x54ba35cf56a0340e, 0x46c4210ab2cc155d, 0xeeb9c21bb0102598,
      0x0ada78ba2d446140, 0x1c66f46d95690bcf, 0x29fab5a7bff53366, 0x3b5fed0d6a1f96e1),
      0x0a637dc5a2c898a6, 0xc54a6eaa24a0552c, 0xfb6aaae5d0b6a447, 0xe3711cb6564d112d);
    Go(b, 70, Regs(0xfb6aaae5d0b6a447, 0x181839d609c79748, 0x54ba35cf56a0340e, 0x46c4210ab2cc155d,
      0xe3711cb6564d112d, 0x0ada78ba2d446140, 0x1c66f46d95690bcf, 0x29fab5a7bff53366),
      0x113f9804bef90dae, 0xb3c8f1530bdbaa9e, 0x7652c579cb60f19c, 0xaff62c9665ff80fa);
    Go(b, 71, Regs(0x7652c579cb60f19c, 0xfb6aaae5d0b6a447, 0x181839d609c79748, 0x54ba35cf56a0340e,
      0xaff62c9665ff80fa, 0xe3711cb6564d112d, 0x0ada78ba2d446140, 0x1c66f46d95690bcf),
      0x1b710b35131c471b, 0xbb8abfe56f469338, 0xf15e9664b2803575, 0x947c3dfafee570ef);
  }

  lemma RoundsTo80(b: seq<byte>)
    requires b == Block()
    ensures Rounds(Initial(), b, 80) == Regs(0x73a54f399fa4b1b2, 0x10d9c4c4295599f6, 0xd67806db8b148677, 0x654ef9abec389ca9,
      0xd08446aa79693ed7, 0x9bb4d39778c07f9e, 0x25c96a7768fb2aa3, 0xceb9fc3691ce8326)
  {
    hide Rounds, Schedule, Block;
    WordsFrom72(b);
    RoundsTo72(b);
    Go(b, 72, Regs(0xf15e9664b2803575, 0x7652c579cb60f19c, 0xfb6aaae5d0b6a447, 0x181839d609c79748,
      0x947c3dfafee570ef, 0xaff62c9665ff80fa, 0xe3711cb6564d112d, 0x0ada78ba2d446140),
      0x28db77f523047d84, 0xf63d4265cc1c5a78, 0x358406d165aee9ab, 0x8c7b5fd91a794ca0);
    Go(b, 73, Regs(0x358406d165aee9ab, 0xf15e9664b2803575, 0x7652c579cb60f19c, 0xfb6aaae5d0b6a447,
      0x8c7b5fd91a794ca0, 0x947c3dfafee570ef, 0xaff62c9665ff80fa, 0xe3711cb6564d112d),
      0x32caab7b40c72493, 0xbe8355ea73129afb, 0x20878dcd29cdfaf5, 0x054d3536539948d0);
    Go(b, 74, Regs(0x20878dcd29cdfaf5, 0x358406d165aee9ab, 0xf15e9664b2803575, 0x7652c579cb60f19c,
      0x054d3536539948d0, 0x8c7b5fd91a794ca0, 0x947c3dfafee570ef, 0xaff62c9665ff80fa),
      0x3c9ebe0a15c9bebc, 0x49e2db8ebdcfbeb5, 0x33d48dabb5521de2, 0x2ba18245b50de4cf);
    Go(b, 75, Regs(0x33d48dabb5521de2, 0x20878dcd29cdfaf5, 0x358406d165aee9ab, 0xf15e9664b2803575,
      0x2ba18245b50de4cf, 0x054d3536539948d0, 0x8c7b5fd91a794ca0, 0x947c3dfafee570ef),
      0x431d67c49c100d4c, 0x82269d4a883a3d99, 0xc8960e6be864b916, 0x995019a6ff3ba3de);
    Go(b, 76, Regs(0xc8960e6be864b916, 0x33d48dabb5521de2, 0x20878dcd29cdfaf5, 0x358406d165aee9ab,
      0x995019a6ff3ba3de, 0x2ba18245b50de4cf, 0x054d3536539948d0, 0x8c7b5fd91a794ca0),
      0x4cc5d4becb3e42b6, 0xfdf53df3011f362b, 0x654ef9abec389ca9, 0xceb9fc3691ce8326);
    Go(b, 77, Regs(0x654ef9abec389ca9, 0xc8960e6be864b916, 0x33d48dabb5521de2, 0x20878dcd29cdfaf5,
      0xceb9fc3691ce8326, 0x995019a6ff3ba3de, 0x2ba18245b50de4cf, 0x054d3536539948d0),
      0x597f299cfc657e2a, 0x464af5671d71c12e, 0xd67806db8b148677, 0x25c96a7768fb2aa3);
    Go(b, 78, Regs(0xd67806db8b148677, 0x654ef9abec389ca9, 0xc8960e6be864b916, 0x33d48dabb5521de2,
      0x25c96a7768fb2aa3, 0xceb9fc3691ce8326, 0x995019a6ff3ba3de, 0x2ba18245b50de4cf),
      0x5fcb6fab3ad6faec, 0xe449b68198ec611c, 0x10d9c4c4295599f6, 0x9bb4d39778c07f9e);
    Go(b, 79, Regs(0x10d9c4c4295599f6, 0xd67806db8b148677, 0x654ef9abec389ca9, 0xc8960e6be864b916,
      0x9bb4d39778c07f9e, 0x25c96a7768fb2aa3, 0xceb9fc3691ce8326, 0x995019a6ff3ba3de),
      0x6c44198c4a475817, 0x92aeeed1a7bcf7d2, 0x73a54f399fa4b1b2, 0xd08446aa79693ed7);
  }

  lemma Compressed(b: seq<byte>)
    requires b == Block()
    ensures Compress(Initial(), b) == Regs(0xddaf35a193617aba, 0xcc417349ae204131, 0x12e6fa4e89a97ea2, 0x0a9eeee64b55d39a,
      0x2192992a274fc1a8, 0x36ba3c23a3feebbd, 0x454d4423643ce80e, 0x2a9ac94fa54ca49f)
  {
    hide Rounds, Block;
    RoundsTo80(b);
  }

  lemma Stored(r: Regs)
    requires r == Regs(0xddaf35a193617aba, 0xcc417349ae204131, 0x12e6fa4e89a97ea2, 0x0a9eeee64b55d39a,
      0x2192992a274fc1a8, 0x36ba3c23a3feebbd, 0x454d4423643ce80e, 0x2a9ac94fa54ca49f)
    ensures Output(r) == [0xdd, 0xaf, 0x35, 0xa1, 0x93, 0x61, 0x7a, 0xba, 0xcc, 0x41, 0x73, 0x49, 0xae, 0x20, 0x41, 0x31] +
      [0x12, 0xe6, 0xfa, 0x4e, 0x89, 0xa9, 0x7e, 0xa2, 0x0a, 0x9e, 0xee, 0xe6, 0x4b, 0x55, 0xd3, 0x9a] +
      [0x21, 0x92, 0x99, 0x2a, 0x27, 0x4f, 0xc1, 0xa8, 0x36, 0xba, 0x3c, 0x23, 0xa3, 0xfe, 0xeb, 0xbd] +
      [0x45, 0x4d, 0x44, 0x23, 0x64, 0x3c, 0xe8, 0x0e, 0x2a, 0x9a, 0xc9, 0x4f, 0xa5, 0x4c, 0xa4, 0x9f]
  {
  }

  lemma LengthIs()
    ensures BigEndian(24, 16) == Zeros(15) + [24]
  {
    BigEndianZero(0, 15);
  }

  lemma Joined(m: seq<byte>, i: nat, j: nat)
    ensures m + Zeros(i) + (Zeros(j) + [24]) == m + Zeros(i + j) + [24]
  {
    assert Zeros(i) + Zeros(j) == Zeros(i + j);
  }

  lemma PaddedIs()
    ensures 0 < Sha().lengthAt < Sha().block && Padded(Sha(), [0x61, 0x62, 0x63]) == Block()
  {
    hide BigEndian, Zeros;
    LengthIs();
    Joined([0x61, 0x62, 0x63, 0x80], 108, 15);
    assert [0x61, 0x62, 0x63] + [0x80] == [0x61, 0x62, 0x63, 0x80];
  }

  lemma OneBlock(h: Hash<Regs>, b: seq<byte>)
    requires |b| == h.block > 0
    ensures Fold(h, h.init, b) == h.compress(h.init, b)
  {
    assert b[..0] == [] && b[0..] == b;
  }

  /** The digest of "abc", the example of the standard. */
  lemma DigestOfAbc()
    ensures Digest(Sha(), [0x61, 0x62, 0x63]) == [0xdd, 0xaf, 0x35, 0xa1, 0x93, 0x61, 0x7a, 0xba, 0xcc, 0x41, 0x73, 0x49, 0xae, 0x20, 0x41, 0x31] +
      [0x12, 0xe6, 0xfa, 0x4e, 0x89, 0xa9, 0x7e, 0xa2, 0x0a, 0x9e, 0xee, 0xe6, 0x4b, 0x55, 0xd3, 0x9a] +
      [0x21, 0x92, 0x99, 0x2a, 0x27, 0x4f, 0xc1, 0xa8, 0x36, 0xba, 0x3c, 0x23, 0xa3, 0xfe, 0xeb, 0xbd] +
      [0x45, 0x4d, 0x44, 0x23, 0x64, 0x3c, 0xe8, 0x0e, 0x2a, 0x9a, 0xc9, 0x4f, 0xa5, 0x4c, 0xa4, 0x9f]
  {
    hide Compress, Output, Padded, Fold;
    PaddedIs();
    OneBlock(Sha(), Block());
    Compressed(Block());
    Stored(Compress(Initial(), Block()));
  }
}
