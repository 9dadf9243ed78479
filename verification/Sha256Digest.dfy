/** The digest of one message through SHA-256, with every word of its schedule and every state on the way. */
module Sha256Digest {
  import opened ShaStream
  import opened Sha256
  import opened Words32

  /** The message "abc" with its padding. */
  function Block(): (b: seq<byte>)
    ensures |b| == BLOCK_SIZE
  {
    [0x61, 0x62, 0x63, 0x80] + Zeros(59) + [0x18]
  }

  lemma Word(b: seq<byte>, t: nat, w2: word, w7: word, w15: word, w16: word, w: word)
    requires |b| == BLOCK_SIZE && 16 <= t < ROUNDS
    requires Schedule(b, t - 2) == w2 && Schedule(b, t - 7) == w7
    requires Schedule(b, t - 15) == w15 && Schedule(b, t - 16) == w16
    requires Add(Add(Add(Sigma1(w2), w7), Sigma0(w15)), w16) == w
    ensures Schedule(b, t) == w
  {
  }

  lemma Go(b: seq<byte>, t: nat, r: Regs, k: word, w: word, a: word, e: word)
    requires |b| == BLOCK_SIZE && t < ROUNDS && Rounds(Initial(), b, t) == r && K()[t] == k && Schedule(b, t) == w
    requires Round(r, k, w) == Regs(a, r.a, r.b, r.c, e, r.e, r.f, r.g)
    ensures Rounds(Initial(), b, t + 1) == Regs(a, r.a, r.b, r.c, e, r.e, r.f, r.g)
  {
    hide Round, K, Schedule, Block, Initial;
  }

  /** The words between the first and the last of the sixteen are zero. */
  lemma ZeroWord(b: seq<byte>, t: nat)
    requires b == Block() && 1 <= t < 15
    ensures Schedule(b, t) == 0
  {
    assert forall i :: 4 * t <= i < 4 * t + 4 ==> b[i] == 0;
  }

  lemma EndWords(b: seq<byte>)
    requires b == Block()
    ensures Schedule(b, 0) == 0x61626380 && Schedule(b, 15) == 0x00000018
  {
  }

  lemma WordsFrom0(b: seq<byte>)
    requires b == Block()
    ensures Schedule(b, 0) == 0x61626380 && Schedule(b, 1) == 0x00000000
    ensures Schedule(b, 2) == 0x00000000 && Schedule(b, 3) == 0x00000000
    ensures Schedule(b, 4) == 0x00000000 && Schedule(b, 5) == 0x00000000
    ensures Schedule(b, 6) == 0x00000000 && Schedule(b, 7) == 0x00000000
  {
    hide Schedule, Block;
    EndWords(b);
    forall t | 1 <= t < 15 ensures Schedule(b, t) == 0 { ZeroWord(b, t); }
  }

  lemma WordsFrom8(b: seq<byte>)
    requires b == Block()
    ensures Schedule(b, 8) == 0x00000000 && Schedule(b, 9) == 0x00000000
    ensures Schedule(b, 10) == 0x00000000 && Schedule(b, 11) == 0x00000000
    ensures Schedule(b, 12) == 0x00000000 && Schedule(b, 13) == 0x00000000
    ensures Schedule(b, 14) == 0x00000000 && Schedule(b, 15) == 0x00000018
  {
    hide Schedule, Block;
    EndWords(b);
    forall t | 1 <= t < 15 ensures Schedule(b, t) == 0 { ZeroWord(b, t); }
  }

  lemma WordsFrom16(b: seq<byte>)
    requires b == Block()
    ensures Schedule(b, 16) == 0x61626380 && Schedule(b, 17) == 0x000f0000
    ensures Schedule(b, 18) == 0x7da86405 && Schedule(b, 19) == 0x600003c6
    ensures Schedule(b, 20) == 0x3e9d7b78 && Schedule(b, 21) == 0x0183fc00
    ensures Schedule(b, 22) == 0x12dcbfdb && Schedule(b, 23) == 0xe2e2c38e
  {
    hide Schedule, Block;
    WordsFrom0(b);
    WordsFrom8(b);
    Word(b, 16, 0x00000000, 0x00000000, 0x00000000, 0x61626380, 0x61626380);
    Word(b, 17, 0x00000018, 0x00000000, 0x00000000, 0x00000000, 0x000f0000);
    Word(b, 18, 0x61626380, 0x00000000, 0x00000000, 0x00000000, 0x7da86405);
    Word(b, 19, 0x000f0000, 0x00000000, 0x00000000, 0x00000000, 0x600003c6);
    Word(b, 20, 0x7da86405, 0x00000000, 0x00000000, 0x00000000, 0x3e9d7b78);
    Word(b, 21, 0x600003c6, 0x00000000, 0x00000000, 0x00000000, 0x0183fc00);
    Word(b, 22, 0x3e9d7b78, 0x00000018, 0x00000000, 0x00000000, 0x12dcbfdb);
    Word(b, 23, 0x0183fc00, 0x61626380, 0x00000000, 0x00000000, 0xe2e2c38e);
  }

  lemma WordsFrom24(b: seq<byte>)
    requires b == Block()
    ensures Schedule(b, 24) == 0xc8215c1a && Schedule(b, 25) == 0xb73679a2
    ensures Schedule(b, 26) == 0xe5bc3909 && Schedule(b, 27) == 0x32663c5b
    ensures Schedule(b, 28) == 0x9d209d67 && Schedule(b, 29) == 0xec8726cb
    ensures Schedule(b, 30) == 0x702138a4 && Schedule(b, 31) == 0xd3b7973b
  {
    hide Schedule, Block;
    WordsFrom8(b);
    WordsFrom16(b);
    Word(b, 24, 0x12dcbfdb, 0x000f0000, 0x00000000, 0x00000000, 0xc8215c1a);
    Word(b, 25, 0xe2e2c38e, 0x7da86405, 0x00000000, 0x00000000, 0xb73679a2);
    Word(b, 26, 0xc8215c1a, 0x600003c6, 0x00000000, 0x00000000, 0xe5bc3909);
    Word(b, 27, 0xb73679a2, 0x3e9d7b78, 0x00000000, 0x00000000, 0x32663c5b);
    Word(b, 28, 0xe5bc3909, 0x0183fc00, 0x00000000, 0x00000000, 0x9d209d67);
    Word(b, 29, 0x32663c5b, 0x12dcbfdb, 0x00000000, 0x00000000, 0xec8726cb);
    Word(b, 30, 0x9d209d67, 0xe2e2c38e, 0x00000018, 0x00000000, 0x702138a4);
    Word(b, 31, 0xec8726cb, 0xc8215c1a, 0x61626380, 0x00000018, 0xd3b7973b);
  }

  lemma WordsFrom32(b: seq<byte>)
    requires b == Block()
    ensures Schedule(b, 32) == 0x93f5997f && Schedule(b, 33) == 0x3b68ba73
    ensures Schedule(b, 34) == 0xaff4ffc1 && Schedule(b, 35) == 0xf10a5c62
    ensures Schedule(b, 36) == 0x0a8b3996 && Schedule(b, 37) == 0x72af830a
    ensures Schedule(b, 38) == 0x9409e33e && Schedule(b, 39) == 0x24641522
  {
    hide Schedule, Block;
    WordsFrom16(b);
    WordsFrom24(b);
    Word(b, 32, 0x702138a4, 0xb73679a2, 0x000f0000, 0x61626380, 0x93f5997f);
    Word(b, 33, 0xd3b7973b, 0xe5bc3909, 0x7da86405, 0x000f0000, 0x3b68ba73);
    Word(b, 34, 0x93f5997f, 0x32663c5b, 0x600003c6, 0x7da86405, 0xaff4ffc1);
    Word(b, 35, 0x3b68ba73, 0x9d209d67, 0x3e9d7b78, 0x600003c6, 0xf10a5c62);
    Word(b, 36, 0xaff4ffc1, 0xec8726cb, 0x0183fc00, 0x3e9d7b78, 0x0a8b3996);
    Word(b, 37, 0xf10a5c62, 0x702138a4, 0x12dcbfdb, 0x0183fc00, 0x72af830a);
    Word(b, 38, 0x0a8b3996, 0xd3b7973b, 0xe2e2c38e, 0x12dcbfdb, 0x9409e33e);
    Word(b, 39, 0x72af830a, 0x93f5997f, 0xc8215c1a, 0xe2e2c38e, 0x24641522);
  }

  lemma WordsFrom40(b: seq<byte>)
    requires b == Block()
    ensures Schedule(b, 40) == 0x9f47bf94 && Schedule(b, 41) == 0xf0a64f5a
    ensures Schedule(b, 42) == 0x3e246a79 && Schedule(b, 43) == 0x27333ba3
    ensures Schedule(b, 44) == 0x0c4763f2 && Schedule(b, 45) == 0x840abf27
    ensures Schedule(b, 46) == 0x7a290d5d && Schedule(b, 47) == 0x065c43da
  {
    hide Schedule, Block;
    WordsFrom24(b);
    WordsFrom32(b);
    Word(b, 40, 0x9409e33e, 0x3b68ba73, 0xb73679a2, 0xc8215c1a, 0x9f47bf94);
    Word(b, 41, 0x24641522, 0xaff4ffc1, 0xe5bc3909, 0xb73679a2, 0xf0a64f5a);
    Word(b, 42, 0x9f47bf94, 0xf10a5c62, 0x32663c5b, 0xe5bc3909, 0x3e246a79);
    Word(b, 43, 0xf0a64f5a, 0x0a8b3996, 0x9d209d67, 0x32663c5b, 0x27333ba3);
    Word(b, 44, 0x3e246a79, 0x72af830a, 0xec8726cb, 0x9d209d67, 0x0c4763f2);
    Word(b, 45, 0x27333ba3, 0x9409e33e, 0x702138a4, 0xec8726cb, 0x840abf27);
    Word(b, 46, 0x0c4763f2, 0x24641522, 0xd3b7973b, 0x702138a4, 0x7a290d5d);
    Word(b, 47, 0x840abf27, 0x9f47bf94, 0x93f5997f, 0xd3b7973b, 0x065c43da);
  }

  lemma WordsFrom48(b: seq<byte>)
    requires b == Block()
    ensures Schedule(b, 48) == 0xfb3e89cb && Schedule(b, 49) == 0xcc7617db
    ensures Schedule(b, 50) == 0xb9e66c34 && Schedule(b, 51) == 0xa9993667
    ensures Schedule(b, 52) == 0x84badedd && Schedule(b, 53) == 0xc21462bc
    ensures Schedule(b, 54) == 0x1487472c && Schedule(b, 55) == 0xb20f7a99
  {
    hide Schedule, Block;
    WordsFrom32(b);
    WordsFrom40(b);
    Word(b, 48, 0x7a290d5d, 0xf0a64f5a, 0x3b68ba73, 0x93f5997f, 0xfb3e89cb);
    Word(b, 49, 0x065c43da, 0x3e246a79, 0xaff4ffc1, 0x3b68ba73, 0xcc7617db);
    Word(b, 50, 0xfb3e89cb, 0x27333ba3, 0xf10a5c62, 0xaff4ffc1, 0xb9e66c34);
    Word(b, 51, 0xcc7617db, 0x0c4763f2, 0x0a8b3996, 0xf10a5c62, 0xa9993667);
    Word(b, 52, 0xb9e66c34, 0x840abf27, 0x72af830a, 0x0a8b3996, 0x84badedd);
    Word(b, 53, 0xa9993667, 0x7a290d5d, 0x9409e33e, 0x72af830a, 0xc21462bc);
    Word(b, 54, 0x84badedd, 0x065c43da, 0x24641522, 0x9409e33e, 0x1487472c);
    Word(b, 55, 0xc21462bc, 0xfb3e89cb, 0x9f47bf94, 0x24641522, 0xb20f7a99);
  }

  lemma WordsFrom56(b: seq<byte>)
    requires b == Block()
    ensures Schedule(b, 56) == 0xef57b9cd && Schedule(b, 57) == 0xebe6b238
    ensures Schedule(b, 58) == 0x9fe3095e && Schedule(b, 59) == 0x78bc8d4b
    ensures Schedule(b, 60) == 0xa43fcf15 && Schedule(b, 61) == 0x668b2ff8
    ensures Schedule(b, 62) == 0xeeaba2cc && Schedule(b, 63) == 0x12b1edeb
  {
    hide Schedule, Block;
    WordsFrom40(b);
    WordsFrom48(b);
    Word(b, 56, 0x1487472c, 0xcc7617db, 0xf0a64f5a, 0x9f47bf94, 0xef57b9cd);
    Word(b, 57, 0xb20f7a99, 0xb9e66c34, 0x3e246a79, 0xf0a64f5a, 0xebe6b238);
    Word(b, 58, 0xef57b9cd, 0xa9993667, 0x27333ba3, 0x3e246a79, 0x9fe3095e);
    Word(b, 59, 0xebe6b238, 0x84badedd, 0x0c4763f2, 0x27333ba3, 0x78bc8d4b);
    Word(b, 60, 0x9fe3095e, 0xc21462bc, 0x840abf27, 0x0c4763f2, 0xa43fcf15);
    Word(b, 61, 0x78bc8d4b, 0x1487472c, 0x7a290d5d, 0x840abf27, 0x668b2ff8);
    Word(b, 62, 0xa43fcf15, 0xb20f7a99, 0x065c43da, 0x7a290d5d, 0xeeaba2cc);
    Word(b, 63, 0x668b2ff8, 0xef57b9cd, 0xfb3e89cb, 0x065c43da, 0x12b1edeb);
  }

  lemma Start(b: seq<byte>)
    requires |b| == BLOCK_SIZE
    ensures Rounds(Initial(), b, 0) == Regs(0x6a09e667, 0xbb67ae85, 0x3c6ef372, 0xa54ff53a,
      0x510e527f, 0x9b05688c, 0x1f83d9ab, 0x5be0cd19)
  {
  }

  lemma RoundsTo8(b: seq<byte>)
    requires b == Block()
    ensures Rounds(Initial(), b, 8) == Regs(0x85a07b5f, 0xe5030380, 0x2b4209f5, 0x04409a6a,
      0x0c657a79, 0x9b27a401, 0x714260ad, 0x43ada245)
  {
    hide Rounds, Schedule, Block;
    WordsFrom0(b);
    Start(b);
    Go(b, 0, Regs(0x6a09e667, 0xbb67ae85, 0x3c6ef372, 0xa54ff53a, 0x510e527f, 0x9b05688c, 0x1f83d9ab, 0x5be0cd19),
      0x428a2f98, 0x61626380, 0x5d6aebcd, 0xfa2a4622);
    Go(b, 1, Regs(0x5d6aebcd, 0x6a09e667, 0xbb67ae85, 0x3c6ef372, 0xfa2a4622, 0x510e527f, 0x9b05688c, 0x1f83d9ab),
      0x71374491, 0x00000000, 0x5a6ad9ad, 0x78ce7989);
    Go(b, 2, Regs(0x5a6ad9ad, 0x5d6aebcd, 0x6a09e667, 0xbb67ae85, 0x78ce7989, 0xfa2a4622, 0x510e527f, 0x9b05688c),
      0xb5c0fbcf, 0x00000000, 0xc8c347a7, 0xf92939eb);
    Go(b, 3, Regs(0xc8c347a7, 0x5a6ad9ad, 0x5d6aebcd, 0x6a09e667, 0xf92939eb, 0x78ce7989, 0xfa2a4622, 0x510e527f),
      0xe9b5dba5, 0x00000000, 0xd550f666, 0x24e00850);
    Go(b, 4, Regs(0xd550f666, 0xc8c347a7, 0x5a6ad9ad, 0x5d6aebcd, 0x24e00850, 0xf92939eb, 0x78ce7989, 0xfa2a4622),
      0x3956c25b, 0x00000000, 0x04409a6a, 0x43ada245);
    Go(b, 5, Regs(0x04409a6a, 0xd550f666, 0xc8c347a7, 0x5a6ad9ad, 0x43ada245, 0x24e00850, 0xf92939eb, 0x78ce7989),
      0x59f111f1, 0x00000000, 0x2b4209f5, 0x714260ad);
    Go(b, 6, Regs(0x2b4209f5, 0x04409a6a, 0xd550f666, 0xc8c347a7, 0x714260ad, 0x43ada245, 0x24e00850, 0xf92939eb),
      0x923f82a4, 0x00000000, 0xe5030380, 0x9b27a401);
    Go(b, 7, Regs(0xe5030380, 0x2b4209f5, 0x04409a6a, 0xd550f666, 0x9b27a401, 0x714260ad, 0x43ada245, 0x24e00850),
      0xab1c5ed5, 0x00000000, 0x85a07b5f, 0x0c657a79);
  }

  lemma RoundsTo16(b: seq<byte>)
    requires b == Block()
    ensures Rounds(Initial(), b, 16) == Regs(0xb0fa238e, 0xc0645fde, 0xd932eb16, 0x87912990,
      0x07590dcd, 0x0b92f20c, 0x745a48de, 0x1e578218)
  {
    hide Rounds, Schedule, Block;
    WordsFrom8(b);
    RoundsTo8(b);
    Go(b, 8, Regs(0x85a07b5f, 0xe5030380, 0x2b4209f5, 0x04409a6a, 0x0c657a79, 0x9b27a401, 0x714260ad, 0x43ada245),
      0xd807aa98, 0x00000000, 0x8e04ecb9, 0x32ca2d8c);
    Go(b, 9, Regs(0x8e04ecb9, 0x85a07b5f, 0xe5030380, 0x2b4209f5, 0x32ca2d8c, 0x0c657a79, 0x9b27a401, 0x714260ad),
      0x12835b01, 0x00000000, 0x8c87346b, 0x1cc92596);
    Go(b, 10, Regs(0x8c87346b, 0x8e04ecb9, 0x85a07b5f, 0xe5030380, 0x1cc92596, 0x32ca2d8c, 0x0c657a79, 0x9b27a401),
      0x243185be, 0x00000000, 0x4798a3f4, 0x436b23e8);
    Go(b, 11, Regs(0x4798a3f4, 0x8c87346b, 0x8e04ecb9, 0x85a07b5f, 0x436b23e8, 0x1cc92596, 0x32ca2d8c, 0x0c657a79),
      0x550c7dc3, 0x00000000, 0xf71fc5a9, 0x816fd6e9);
    Go(b, 12, Regs(0xf71fc5a9, 0x4798a3f4, 0x8c87346b, 0x8e04ecb9, 0x816fd6e9, 0x436b23e8, 0x1cc92596, 0x32ca2d8c),
      0x72be5d74, 0x00000000, 0x87912990, 0x1e578218);
    Go(b, 13, Regs(0x87912990, 0xf71fc5a9, 0x4798a3f4, 0x8c87346b, 0x1e578218, 0x816fd6e9, 0x436b23e8, 0x1cc92596),
      0x80deb1fe, 0x00000000, 0xd932eb16, 0x745a48de);
    Go(b, 14, Regs(0xd932eb16, 0x87912990, 0xf71fc5a9, 0x4798a3f4, 0x745a48de, 0x1e578218, 0x816fd6e9, 0x436b23e8),
      0x9bdc06a7, 0x00000000, 0xc0645fde, 0x0b92f20c);
    Go(b, 15, Regs(0xc0645fde, 0xd932eb16, 0x87912990, 0xf71fc5a9, 0x0b92f20c, 0x745a48de, 0x1e578218, 0x816fd6e9),
      0xc19bf174, 0x00000018, 0xb0fa238e, 0x07590dcd);
  }

  lemma RoundsTo24(b: seq<byte>)
    requires b == Block()
    ensures Rounds(Initial(), b, 24) == Regs(0xc5d53d8d, 0xa7a3623f, 0xc2606d6d, 0x9dc68b63,
      0xaa47c347, 0x49f5114a, 0xe1257970, 0x8ada8930)
  {
    hide Rounds, Schedule, Block;
    WordsFrom16(b);
    RoundsTo16(b);
    Go(b, 16, Regs(0xb0fa238e, 0xc0645fde, 0xd932eb16, 0x87912990, 0x07590dcd, 0x0b92f20c, 0x745a48de, 0x1e578218),
      0xe49b69c1, 0x61626380, 0x21da9a9b, 0x8034229c);
    Go(b, 17, Regs(0x21da9a9b, 0xb0fa238e, 0xc0645fde, 0xd932eb16, 0x8034229c, 0x07590dcd, 0x0b92f20c, 0x745a48de),
      0xefbe4786, 0x000f0000, 0xc2fbd9d1, 0x846ee454);
    Go(b, 18, Regs(0xc2fbd9d1, 0x21da9a9b, 0xb0fa238e, 0xc0645fde, 0x846ee454, 0x8034229c, 0x07590dcd, 0x0b92f20c),
      0x0fc19dc6, 0x7da86405, 0xfe777bbf, 0xcc899961);
    Go(b, 19, Regs(0xfe777bbf, 0xc2fbd9d1, 0x21da9a9b, 0xb0fa238e, 0xcc899961, 0x846ee454, 0x8034229c, 0x07590dcd),
      0x240ca1cc, 0x600003c6, 0xe1f20c33, 0xb0638179);
    Go(b, 20, Regs(0xe1f20c33, 0xfe777bbf, 0xc2fbd9d1, 0x21da9a9b, 0xb0638179, 0xcc899961, 0x846ee454, 0x8034229c),
      0x2de92c6f, 0x3e9d7b78, 0x9dc68b63, 0x8ada8930);
    Go(b, 21, Regs(0x9dc68b63, 0xe1f20c33, 0xfe777bbf, 0xc2fbd9d1, 0x8ada8930, 0xb0638179, 0xcc899961, 0x846ee454),
      0x4a7484aa, 0x0183fc00, 0xc2606d6d, 0xe1257970);
    Go(b, 22, Regs(0xc2606d6d, 0x9dc68b63, 0xe1f20c33, 0xfe777bbf, 0xe1257970, 0x8ada8930, 0xb0638179, 0xcc899961),
      0x5cb0a9dc, 0x12dcbfdb, 0xa7a3623f, 0x49f5114a);
    Go(b, 23, Regs(0xa7a3623f, 0xc2606d6d, 0x9dc68b63, 0xe1f20c33, 0x49f5114a, 0xe1257970, 0x8ada8930, 0xb0638179),
      0x76f988da, 0xe2e2c38e, 0xc5d53d8d, 0xaa47c347);
  }

  lemma RoundsTo32(b: seq<byte>)
    requires b == Block()
    ensures Rounds(Initial(), b, 32) == Regs(0x73b33bf5, 0xea992a22, 0xa0060b30, 0x363482c9,
      0xba591112, 0x0109ab3a, 0xade79437, 0x6112a3b7)
  {
    hide Rounds, Schedule, Block;
    WordsFrom24(b);
    RoundsTo24(b);
    Go(b, 24, Regs(0xc5d53d8d, 0xa7a3623f, 0xc2606d6d, 0x9dc68b63, 0xaa47c347, 0x49f5114a, 0xe1257970, 0x8ada8930),
      0x983e5152, 0xc8215c1a, 0x1c2c2838, 0x2823ef91);
    Go(b, 25, Regs(0x1c2c2838, 0xc5d53d8d, 0xa7a3623f, 0xc2606d6d, 0x2823ef91, 0xaa47c347, 0x49f5114a, 0xe1257970),
      0xa831c66d, 0xb73679a2, 0xcde8037d, 0x14383d8e);
    Go(b, 26, Regs(0xcde8037d, 0x1c2c2838, 0xc5d53d8d, 0xa7a3623f, 0x14383d8e, 0x2823ef91, 0xaa47c347, 0x49f5114a),
      0xb00327c8, 0xe5bc3909, 0xb62ec4bc, 0xc74c6516);
    Go(b, 27, Regs(0xb62ec4bc, 0xcde8037d, 0x1c2c2838, 0xc5d53d8d, 0xc74c6516, 0x14383d8e, 0x2823ef91, 0xaa47c347),
      0xbf597fc7, 0x32663c5b, 0x77d37528, 0xedffbff8);
    Go(b, 28, Regs(0x77d37528, 0xb62ec4bc, 0xcde8037d, 0x1c2c2838, 0xedffbff8, 0xc74c6516, 0x14383d8e, 0x2823ef91),
      0xc6e00bf3, 0x9d209d67, 0x363482c9, 0x6112a3b7);
    Go(b, 29, Regs(0x363482c9, 0x77d37528, 0xb62ec4bc, 0xcde8037d, 0x6112a3b7, 0xedffbff8, 0xc74c6516, 0x14383d8e),
      0xd5a79147, 0xec8726cb, 0xa0060b30, 0xade79437);
    Go(b, 30, Regs(0xa0060b30, 0x363482c9, 0x77d37528, 0xb62ec4bc, 0xade79437, 0x6112a3b7, 0xedffbff8, 0xc74c6516),
      0x06ca6351, 0x702138a4, 0xea992a22, 0x0109ab3a);
    Go(b, 31, Regs(0xea992a22, 0xa0060b30, 0x363482c9, 0x77d37528, 0x0109ab3a, 0xade79437, 0x6112a3b7, 0xedffbff8),
      0x14292967, 0xd3b7973b, 0x73b33bf5, 0xba591112);
  }

  lemma RoundsTo40(b: seq<byte>)
    requires b == Block()
    ensures Rounds(Initial(), b, 40) == Regs(0x79ea687a, 0x6dc57a8a, 0x34df1604, 0x41a65cb1,
      0x1efbc0a0, 0xf0781bc8, 0xa507a53d, 0x0772a26b)
  {
    hide Rounds, Schedule, Block;
    WordsFrom32(b);
    RoundsTo32(b);
    Go(b, 32, Regs(0x73b33bf5, 0xea992a22, 0xa0060b30, 0x363482c9, 0xba591112, 0x0109ab3a, 0xade79437, 0x6112a3b7),
      0x27b70a85, 0x93f5997f, 0x98e12507, 0x9cd9f5f6);
    Go(b, 33, Regs(0x98e12507, 0x73b33bf5, 0xea992a22, 0xa0060b30, 0x9cd9f5f6, 0xba591112, 0x0109ab3a, 0xade79437),
      0x2e1b2138, 0x3b68ba73, 0xfe604df5, 0x59249dd3);
    Go(b, 34, Regs(0xfe604df5, 0x98e12507, 0x73b33bf5, 0xea992a22, 0x59249dd3, 0x9cd9f5f6, 0xba591112, 0x0109ab3a),
      0x4d2c6dfc, 0xaff4ffc1, 0xa9a7738c, 0x085f3833);
    Go(b, 35, Regs(0xa9a7738c, 0xfe604df5, 0x98e12507, 0x73b33bf5, 0x085f3833, 0x59249dd3, 0x9cd9f5f6, 0xba591112),
      0x53380d13, 0xf10a5c62, 0x65a0cfe4, 0xf4b002d6);
    Go(b, 36, Regs(0x65a0cfe4, 0xa9a7738c, 0xfe604df5, 0x98e12507, 0xf4b002d6, 0x085f3833, 0x59249dd3, 0x9cd9f5f6),
      0x650a7354, 0x0a8b3996, 0x41a65cb1, 0x0772a26b);
    Go(b, 37, Regs(0x41a65cb1, 0x65a0cfe4, 0xa9a7738c, 0xfe604df5, 0x0772a26b, 0xf4b002d6, 0x085f3833, 0x59249dd3),
      0x766a0abb, 0x72af830a, 0x34df1604, 0xa507a53d);
    Go(b, 38, Regs(0x34df1604, 0x41a65cb1, 0x65a0cfe4, 0xa9a7738c, 0xa507a53d, 0x0772a26b, 0xf4b002d6, 0x085f3833),
      0x81c2c92e, 0x9409e33e, 0x6dc57a8a, 0xf0781bc8);
    Go(b, 39, Regs(0x6dc57a8a, 0x34df1604, 0x41a65cb1, 0x65a0cfe4, 0xf0781bc8, 0xa507a53d, 0x0772a26b, 0xf4b002d6),
      0x92722c85, 0x24641522, 0x79ea687a, 0x1efbc0a0);
  }

  lemma RoundsTo48(b: seq<byte>)
    requires b == Block()
    ensures Rounds(Initial(), b, 48) == Regs(0x4172328d, 0xa14c14b0, 0x72ab4b91, 0x26628815,
      0xfecf0bc6, 0xd57b94a9, 0xb7755da1, 0xa80f11f0)
  {
    hide Rounds, Schedule, Block;
    WordsFrom40(b);
    RoundsTo40(b);
    Go(b, 40, Regs(0x79ea687a, 0x6dc57a8a, 0x34df1604, 0x41a65cb1, 0x1efbc0a0, 0xf0781bc8, 0xa507a53d, 0x0772a26b),
      0xa2bfe8a1, 0x9f47bf94, 0xd6670766, 0x26352d63);
    Go(b, 41, Regs(0xd6670766, 0x79ea687a, 0x6dc57a8a, 0x34df1604, 0x26352d63, 0x1efbc0a0, 0xf0781bc8, 0xa507a53d),
      0xa81a664b, 0xf0a64f5a, 0xdf46652f, 0x838b2711);
    Go(b, 42, Regs(0xdf46652f, 0xd6670766, 0x79ea687a, 0x6dc57a8a, 0x838b2711, 0x26352d63, 0x1efbc0a0, 0xf0781bc8),
      0xc24b8b70, 0x3e246a79, 0x17aa0dfe, 0xdecd4715);
    Go(b, 43, Regs(0x17aa0dfe, 0xdf46652f, 0xd6670766, 0x79ea687a, 0xdecd4715, 0x838b2711, 0x26352d63, 0x1efbc0a0),
      0xc76c51a3, 0x27333ba3, 0x9d4baf93, 0xfda24c2e);
    Go(b, 44, Regs(0x9d4baf93, 0x17aa0dfe, 0xdf46652f, 0xd6670766, 0xfda24c2e, 0xdecd4715, 0x838b2711, 0x26352d63),
      0xd192e819, 0x0c4763f2, 0x26628815, 0xa80f11f0);
    Go(b, 45, Regs(0x26628815, 0x9d4baf93, 0x17aa0dfe, 0xdf46652f, 0xa80f11f0, 0xfda24c2e, 0xdecd4715, 0x838b2711),
      0xd6990624, 0x840abf27, 0x72ab4b91, 0xb7755da1);
    Go(b, 46, Regs(0x72ab4b91, 0x26628815, 0x9d4baf93, 0x17aa0dfe, 0xb7755da1, 0xa80f11f0, 0xfda24c2e, 0xdecd4715),
      0xf40e3585, 0x7a290d5d, 0xa14c14b0, 0xd57b94a9);
    Go(b, 47, Regs(0xa14c14b0, 0x72ab4b91, 0x26628815, 0x9d4baf93, 0xd57b94a9, 0xb7755da1, 0xa80f11f0, 0xfda24c2e),
      0x106aa070, 0x065c43da, 0x4172328d, 0xfecf0bc6);
  }

  lemma RoundsTo56(b: seq<byte>)
    requires b == Block()
    ensures Rounds(Initial(), b, 56) == Regs(0x38cc9913, 0x3ec45cdb, 0xf5702fdb, 0x101fd28f,
      0x54cb266b, 0xe50e1b4f, 0x9f4787c3, 0x529e7d00)
  {
    hide Rounds, Schedule, Block;
    WordsFrom48(b);
    RoundsTo48(b);
    Go(b, 48, Regs(0x4172328d, 0xa14c14b0, 0x72ab4b91, 0x26628815, 0xfecf0bc6, 0xd57b94a9, 0xb7755da1, 0xa80f11f0),
      0x19a4c116, 0xfb3e89cb, 0x05757ceb, 0xbd714038);
    Go(b, 49, Regs(0x05757ceb, 0x4172328d, 0xa14c14b0, 0x72ab4b91, 0xbd714038, 0xfecf0bc6, 0xd57b94a9, 0xb7755da1),
      0x1e376c08, 0xcc7617db, 0xf11bfaa8, 0x6e5c390c);
    Go(b, 50, Regs(0xf11bfaa8, 0x05757ceb, 0x4172328d, 0xa14c14b0, 0x6e5c390c, 0xbd714038, 0xfecf0bc6, 0xd57b94a9),
      0x2748774c, 0xb9e66c34, 0x7a0508a1, 0x52f1ccf7);
    Go(b, 51, Regs(0x7a0508a1, 0xf11bfaa8, 0x05757ceb, 0x4172328d, 0x52f1ccf7, 0x6e5c390c, 0xbd714038, 0xfecf0bc6),
      0x34b0bcb5, 0xa9993667, 0x886e7a22, 0x49231c1e);
    Go(b, 52, Regs(0x886e7a22, 0x7a0508a1, 0xf11bfaa8, 0x05757ceb, 0x49231c1e, 0x52f1ccf7, 0x6e5c390c, 0xbd714038),
      0x391c0cb3, 0x84badedd, 0x101fd28f, 0x529e7d00);
    Go(b, 53, Regs(0x101fd28f, 0x886e7a22, 0x7a0508a1, 0xf11bfaa8, 0x529e7d00, 0x49231c1e, 0x52f1ccf7, 0x6e5c390c),
      0x4ed8aa4a, 0xc21462bc, 0xf5702fdb, 0x9f4787c3);
    Go(b, 54, Regs(0xf5702fdb, 0x101fd28f, 0x886e7a22, 0x7a0508a1, 0x9f4787c3, 0x529e7d00, 0x49231c1e, 0x52f1ccf7),
      0x5b9cca4f, 0x1487472c, 0x3ec45cdb, 0xe50e1b4f);
    Go(b, 55, Regs(0x3ec45cdb, 0xf5702fdb, 0x101fd28f, 0x886e7a22, 0xe50e1b4f, 0x9f4787c3, 0x529e7d00, 0x49231c1e),
      0x682e6ff3, 0xb20f7a99, 0x38cc9913, 0x54cb266b);
  }

  lemma RoundsTo64(b: seq<byte>)
    requires b == Block()
    ensures Rounds(Initial(), b, 64) == Regs(0x506e3058, 0xd39a2165, 0x04d24d6c, 0xb85e2ce9,
      0x5ef50f24, 0xfb121210, 0x948d25b6, 0x961f4894)
  {
    hide Rounds, Schedule, Block;
    WordsFrom56(b);
    RoundsTo56(b);
    Go(b, 56, Regs(0x38cc9913, 0x3ec45cdb, 0xf5702fdb, 0x101fd28f, 0x54cb266b, 0xe50e1b4f, 0x9f4787c3, 0x529e7d00),
      0x748f82ee, 0xef57b9cd, 0xfcd1887b, 0x9b5e906c);
    Go(b, 57, Regs(0xfcd1887b, 0x38cc9913, 0x3ec45cdb, 0xf5702fdb, 0x9b5e906c, 0x54cb266b, 0xe50e1b4f, 0x9f4787c3),
      0x78a5636f, 0xebe6b238, 0xc062d46f, 0x7e44008e);
    Go(b, 58, Regs(0xc062d46f, 0xfcd1887b, 0x38cc9913, 0x3ec45cdb, 0x7e44008e, 0x9b5e906c, 0x54cb266b, 0xe50e1b4f),
      0x84c87814, 0x9fe3095e, 0xffb70472, 0x6d83bfc6);
    Go(b, 59, Regs(0xffb70472, 0xc062d46f, 0xfcd1887b, 0x38cc9913, 0x6d83bfc6, 0x7e44008e, 0x9b5e906c, 0x54cb266b),
      0x8cc70208, 0x78bc8d4b, 0xb6ae8fff, 0xb21bad3d);
    Go(b, 60, Regs(0xb6ae8fff, 0xffb70472, 0xc062d46f, 0xfcd1887b, 0xb21bad3d, 0x6d83bfc6, 0x7e44008e, 0x9b5e906c),
      0x90befffa, 0xa43fcf15, 0xb85e2ce9, 0x961f4894);
    Go(b, 61, Regs(0xb85e2ce9, 0xb6ae8fff, 0xffb70472, 0xc062d46f, 0x961f4894, 0xb21bad3d, 0x6d83bfc6, 0x7e44008e),
      0xa4506ceb, 0x668b2ff8, 0x04d24d6c, 0x948d25b6);
    Go(b, 62, Regs(0x04d24d6c, 0xb85e2ce9, 0xb6ae8fff, 0xffb70472, 0x948d25b6, 0x961f4894, 0xb21bad3d, 0x6d83bfc6),
      0xbef9a3f7, 0xeeaba2cc, 0xd39a2165, 0xfb121210);
    Go(b, 63, Regs(0xd39a2165, 0x04d24d6c, 0xb85e2ce9, 0xb6ae8fff, 0xfb121210, 0x948d25b6, 0x961f4894, 0xb21bad3d),
      0xc67178f2, 0x12b1edeb, 0x506e3058, 0x5ef50f24);
  }

  lemma Compressed(b: seq<byte>)
    requires b == Block()
    ensures Compress(Initial(), b) == Regs(0xba7816bf, 0x8f01cfea, 0x414140de, 0x5dae2223,
      0xb00361a3, 0x96177a9c, 0xb410ff61, 0xf20015ad)
  {
    hide Rounds, Block;
    RoundsTo64(b);
  }

  lemma Stored(r: Regs)
    requires r == Regs(0xba7816bf, 0x8f01cfea, 0x414140de, 0x5dae2223,
      0xb00361a3, 0x96177a9c, 0xb410ff61, 0xf20015ad)
    ensures Output(r) == [0xba, 0x78, 0x16, 0xbf, 0x8f, 0x01, 0xcf, 0xea, 0x41, 0x41, 0x40, 0xde, 0x5d, 0xae, 0x22, 0x23] +
      [0xb0, 0x03, 0x61, 0xa3, 0x96, 0x17, 0x7a, 0x9c, 0xb4, 0x10, 0xff, 0x61, 0xf2, 0x00, 0x15, 0xad]
  {
  }

  lemma LengthIs()
    ensures BigEndian(24, 8) == Zeros(7) + [24]
  {
    BigEndianZero(0, 7);
  }

  lemma Joined(m: seq<byte>, i: nat, j: nat)
    ensures m + Zeros(i) + (Zeros(j) + [24]) == m + Zeros(i + j) + [24]
  {
    assert Zeros(i) + Zeros(j) == Zeros(i + j);
  }

  lemma PaddedIs()
    ensures 0 < Sha().lengthAt < Sha().block && Padded(Sha(), [0x61, 0x62, 0x63]) == Block()
  {
    hide BigEndian, Zeros;
    LengthIs();
    Joined([0x61, 0x62, 0x63, 0x80], 52, 7);
    assert [0x61, 0x62, 0x63] + [0x80] == [0x61, 0x62, 0x63, 0x80];
  }

  lemma OneBlock(h: Hash<Regs>, b: seq<byte>)
    requires |b| == h.block > 0
    ensures Fold(h, h.init, b) == h.compress(h.init, b)
  {
    assert b[..0] == [] && b[0..] == b;
  }

  /** The digest of "abc", the example of the standard. */
  lemma DigestOfAbc()
    ensures Digest(Sha(), [0x61, 0x62, 0x63]) == [0xba, 0x78, 0x16, 0xbf, 0x8f, 0x01, 0xcf, 0xea, 0x41, 0x41, 0x40, 0xde, 0x5d, 0xae, 0x22, 0x23] +
      [0xb0, 0x03, 0x61, 0xa3, 0x96, 0x17, 0x7a, 0x9c, 0xb4, 0x10, 0xff, 0x61, 0xf2, 0x00, 0x15, 0xad]
  {
    hide Compress, Output, Padded, Fold;
    PaddedIs();
    OneBlock(Sha(), Block());
    Compressed(Block());
    Stored(Compress(Initial(), Block()));
  }
}
