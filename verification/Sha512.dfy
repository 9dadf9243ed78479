/** Operations on the 64-bit words of the hash: those of FIPS 180-4, and how the source computes them. */
module Words64 {
  type word = bv64

  function Add(x: word, y: word): word { x + y }

  function Ch(x: word, y: word, z: word): word { (x & y) ^ (!x & z) }

  function Maj(x: word, y: word, z: word): word { (x & y) ^ (x & z) ^ (y & z) }

  function CodeCh(x: word, y: word, z: word): word { z ^ (x & (y ^ z)) }

  function CodeMaj(x: word, y: word, z: word): word { ((x | y) & z) | (x & y) }

  lemma ChIs(x: word, y: word, z: word)
    ensures CodeCh(x, y, z) == Ch(x, y, z)
  {
    ChBits(x, y, z);
  }

  lemma ChBits(x: word, y: word, z: word)
    ensures z ^ (x & (y ^ z)) == (x & y) ^ (!x & z)
  {
  }

  lemma MajIs(x: word, y: word, z: word)
    ensures CodeMaj(x, y, z) == Maj(x, y, z)
  {
    MajBits(x, y, z);
  }

  lemma MajBits(x: word, y: word, z: word)
    ensures ((x | y) & z) | (x & y) == (x & y) ^ (x & z) ^ (y & z)
  {
  }
}

/** The compression function of SHA-512 as the standard writes it, and as the source computes it. */
module Sha512 {
  import opened ShaStream
  import opened Words64

  const ROUNDS: nat := 80
  const BLOCK_SIZE: nat := 128

  /* ---- sections 4.1.3 and 6.4.2 of FIPS 180-4 ---- */

  function Sum0(x: word): word { x.RotateRight(28) ^ x.RotateRight(34) ^ x.RotateRight(39) }

  function Sum1(x: word): word { x.RotateRight(14) ^ x.RotateRight(18) ^ x.RotateRight(41) }

  function Sigma0(x: word): word { x.RotateRight(1) ^ x.RotateRight(8) ^ (x >> 7) }

  function Sigma1(x: word): word { x.RotateRight(19) ^ x.RotateRight(61) ^ (x >> 6) }

  function K(): (k: seq<word>)
    ensures |k| == ROUNDS
  {
    [0x428a2f98d728ae22, 0x7137449123ef65cd, 0xb5c0fbcfec4d3b2f, 0xe9b5dba58189dbbc,
       0x3956c25bf348b538, 0x59f111f1b605d019, 0x923f82a4af194f9b, 0xab1c5ed5da6d8118] +
      [0xd807aa98a3030242, 0x12835b0145706fbe, 0x243185be4ee4b28c, 0x550c7dc3d5ffb4e2,
       0x72be5d74f27b896f, 0x80deb1fe3b1696b1, 0x9bdc06a725c71235, 0xc19bf174cf692694] +
      [0xe49b69c19ef14ad2, 0xefbe4786384f25e3, 0x0fc19dc68b8cd5b5, 0x240ca1cc77ac9c65,
       0x2de92c6f592b0275, 0x4a7484aa6ea6e483, 0x5cb0a9dcbd41fbd4, 0x76f988da831153b5] +
      [0x983e5152ee66dfab, 0xa831c66d2db43210, 0xb00327c898fb213f, 0xbf597fc7beef0ee4,
       0xc6e00bf33da88fc2, 0xd5a79147930aa725, 0x06ca6351e003826f, 0x142929670a0e6e70] +
      [0x27b70a8546d22ffc, 0x2e1b21385c26c926, 0x4d2c6dfc5ac42aed, 0x53380d139d95b3df,
       0x650a73548baf63de, 0x766a0abb3c77b2a8, 0x81c2c92e47edaee6, 0x92722c851482353b] +
      [0xa2bfe8a14cf10364, 0xa81a664bbc423001, 0xc24b8b70d0f89791, 0xc76c51a30654be30,
       0xd192e819d6ef5218, 0xd69906245565a910, 0xf40e35855771202a, 0x106aa07032bbd1b8] +
      [0x19a4c116b8d2d0c8, 0x1e376c085141ab53, 0x2748774cdf8eeb99, 0x34b0bcb5e19b48a8,
       0x391c0cb3c5c95a63, 0x4ed8aa4ae3418acb, 0x5b9cca4f7763e373, 0x682e6ff3d6b2b8a3] +
      [0x748f82ee5defb2fc, 0x78a5636f43172f60, 0x84c87814a1f0ab72, 0x8cc702081a6439ec,
       0x90befffa23631e28, 0xa4506cebde82bde9, 0xbef9a3f7b2c67915, 0xc67178f2e372532b] +
      [0xca273eceea26619c, 0xd186b8c721c0c207, 0xeada7dd6cde0eb1e, 0xf57d4f7fee6ed178,
       0x06f067aa72176fba, 0x0a637dc5a2c898a6, 0x113f9804bef90dae, 0x1b710b35131c471b] +
      [0x28db77f523047d84, 0x32caab7b40c72493, 0x3c9ebe0a15c9bebc, 0x431d67c49c100d4c,
       0x4cc5d4becb3e42b6, 0x597f299cfc657e2a, 0x5fcb6fab3ad6faec, 0x6c44198c4a475817]
  }

  datatype Regs = Regs(a: word, b: word, c: word, d: word, e: word, f: word, g: word, h: word)

  function Initial(): Regs
  {
    Regs(0x6a09e667f3bcc908, 0xbb67ae8584caa73b, 0x3c6ef372fe94f82b, 0xa54ff53a5f1d36f1,
         0x510e527fade682d1, 0x9b05688c2b3e6c1f, 0x1f83d9abfb41bd6b, 0x5be0cd19137e2179)
  }

  /** A word of the block, most significant byte first. */
  function WordAt(b: seq<byte>, at: nat): word
    requires at + 8 <= |b|
  {
    (b[at] as bv64 << 56) | (b[at + 1] as bv64 << 48) | (b[at + 2] as bv64 << 40) | (b[at + 3] as bv64 << 32) | (b[at + 4] as bv64 << 24) | (b[at + 5] as bv64 << 16) | (b[at + 6] as bv64 << 8) | (b[at + 7] as bv64)
  }

  function Schedule(b: seq<byte>, t: nat): word
    requires |b| == BLOCK_SIZE && t < ROUNDS
  {
    if t < 16 then WordAt(b, 8 * t)
    else Add(Add(Add(Sigma1(Schedule(b, t - 2)), Schedule(b, t - 7)), Sigma0(Schedule(b, t - 15))), Schedule(b, t - 16))
  }

  function Round(r: Regs, k: word, w: word): Regs
  {
    var t1 := Add(Add(Add(Add(r.h, Sum1(r.e)), Ch(r.e, r.f, r.g)), k), w);
    var t2 := Add(Sum0(r.a), Maj(r.a, r.b, r.c));
    Regs(Add(t1, t2), r.a, r.b, r.c, Add(r.d, t1), r.e, r.f, r.g)
  }

  function Rounds(r: Regs, b: seq<byte>, n: nat): Regs
    requires |b| == BLOCK_SIZE && n <= ROUNDS
  {
    if n == 0 then r else Round(Rounds(r, b, n - 1), K()[n - 1], Schedule(b, n - 1))
  }

  function Plus(r: Regs, s: Regs): Regs
  {
    Regs(Add(r.a, s.a), Add(r.b, s.b), Add(r.c, s.c), Add(r.d, s.d), Add(r.e, s.e), Add(r.f, s.f), Add(r.g, s.g), Add(r.h, s.h))
  }

  function Compress(r: Regs, b: seq<byte>): Regs
  {
    if |b| == BLOCK_SIZE then Plus(r, Rounds(r, b, ROUNDS)) else r
  }

  function StoreWord(x: word): (r: seq<byte>)
    ensures |r| == 8
  {
    [((x >> 56) & 0xFF) as bv8, ((x >> 48) & 0xFF) as bv8, ((x >> 40) & 0xFF) as bv8, ((x >> 32) & 0xFF) as bv8, ((x >> 24) & 0xFF) as bv8, ((x >> 16) & 0xFF) as bv8, ((x >> 8) & 0xFF) as bv8, (x & 0xFF) as bv8]
  }

  /** The bytes of a word are those it was read from. */
  lemma WordStored(b: seq<byte>, at: nat)
    requires at + 8 <= |b|
    ensures StoreWord(WordAt(b, at)) == b[at..at + 8]
  {
  }

  function Output(r: Regs): (out: seq<byte>)
    ensures |out| == 64
  {
    StoreWord(r.a) + StoreWord(r.b) + StoreWord(r.c) + StoreWord(r.d) + StoreWord(r.e) + StoreWord(r.f) + StoreWord(r.g) + StoreWord(r.h)
  }

  /** What the streaming context needs to know. */
  function Sha(): Hash<Regs>
  {
    Hash(BLOCK_SIZE, 112, 120, Initial(), Compress, Output)
  }

  lemma ShaSensible()
    ensures Sensible(Sha())
  {
  }

  /** The shortest messages whose padding is not that of the standard: their bit count does not fit the counter. */
  lemma LongMessage(m: seq<byte>)
    requires |m| == 0x2000_0000_0000_0000
    ensures Appended(Sha(), m) != Padded(Sha(), m)
  {
    ShaSensible();
    Power16();
    AppendedIsPadded(Sha(), m);
  }

  lemma Power16()
    ensures Power(16) == TWO_64 * TWO_64
  {
    PowerAdd(8, 8);
    Power8();
  }

  /* ---- the source ---- */

  function CodeSum0(x: word): word { ((x >> 28) | (x << 36)) ^ ((x >> 34) | (x << 30)) ^ ((x >> 39) | (x << 25)) }

  function CodeSum1(x: word): word { ((x >> 14) | (x << 50)) ^ ((x >> 18) | (x << 46)) ^ ((x >> 41) | (x << 23)) }

  function CodeSigma0(x: word): word { ((x >> 1) | (x << 63)) ^ ((x >> 8) | (x << 56)) ^ (x >> 7) }

  function CodeSigma1(x: word): word { ((x >> 19) | (x << 45)) ^ ((x >> 61) | (x << 3)) ^ (x >> 6) }

  /** A rotation is two shifts. */
  lemma RotationsAre(x: word)
    ensures CodeSum0(x) == Sum0(x) && CodeSum1(x) == Sum1(x) && CodeSigma0(x) == Sigma0(x) && CodeSigma1(x) == Sigma1(x)
  {
  }

  ghost function RegsOf(s: seq<word>): Regs
    requires |s| == 8
  {
    Regs(s[0], s[1], s[2], s[3], s[4], s[5], s[6], s[7])
  }

  /** The message schedule, filled from the front. */
  method FillSchedule(buf: seq<byte>) returns (W: array<word>)
    requires |buf| == BLOCK_SIZE
    ensures fresh(W) && W.Length == ROUNDS && forall t :: 0 <= t < ROUNDS ==> W[t] == Schedule(buf, t)
  {
    hide Add, WordAt, Sigma0, Sigma1, CodeSigma0, CodeSigma1, Sum0, Sum1, CodeSum0, CodeSum1;
    W := new word[ROUNDS];
    for i := 0 to 16
      invariant forall t :: 0 <= t < i ==> W[t] == Schedule(buf, t)
    {
      W[i] := WordAt(buf, 8 * i);
    }
    for i := 16 to ROUNDS
      invariant forall t :: 0 <= t < i ==> W[t] == Schedule(buf, t)
    {
      RotationsAre(W[i - 2]);
      RotationsAre(W[i - 15]);
      W[i] := Add(Add(Add(CodeSigma1(W[i - 2]), W[i - 7]), CodeSigma0(W[i - 15])), W[i - 16]);
    }
  }

  /** The places of the registers in the array; the two that change have places of their own. */
  predicate Places(a: nat, b: nat, c: nat, d: nat, e: nat, f: nat, g: nat, h: nat)
  {
    && a < 8 && b < 8 && c < 8 && d < 8 && e < 8 && f < 8 && g < 8 && h < 8
    && d != a && d != b && d != c && d != e && d != f && d != g && d != h
    && h != a && h != b && h != c && h != e && h != f && h != g
  }

  ghost function At(s: seq<word>, a: nat, b: nat, c: nat, d: nat, e: nat, f: nat, g: nat, h: nat): Regs
    requires |s| == 8 && a < 8 && b < 8 && c < 8 && d < 8 && e < 8 && f < 8 && g < 8 && h < 8
  {
    Regs(s[a], s[b], s[c], s[d], s[e], s[f], s[g], s[h])
  }

  /** One round with renamed registers: nothing moves, the names do. */
  method Rnd(S: array<word>, a: nat, b: nat, c: nat, d: nat, e: nat, f: nat, g: nat, h: nat, k: word, w: word)
    requires S.Length == 8 && Places(a, b, c, d, e, f, g, h)
    modifies S
    ensures At(S[..], h, a, b, c, d, e, f, g) == Round(At(old(S[..]), a, b, c, d, e, f, g, h), k, w)
  {
    hide Add, Sum0, Sum1, CodeSum0, CodeSum1, Sigma0, Sigma1, CodeSigma0, CodeSigma1, Ch, Maj, CodeCh, CodeMaj;
    ChIs(S[e], S[f], S[g]);
    MajIs(S[a], S[b], S[c]);
    RotationsAre(S[a]);
    RotationsAre(S[e]);
    var t0 := Add(Add(Add(Add(S[h], CodeSum1(S[e])), CodeCh(S[e], S[f], S[g])), k), w);
    var t1 := Add(CodeSum0(S[a]), CodeMaj(S[a], S[b], S[c]));
    S[d] := Add(S[d], t0);
    S[h] := Add(t0, t1);
  }

  /** The message schedule has been filled in. */
  ghost predicate Scheduled(W: array<word>, buf: seq<byte>)
    requires |buf| == BLOCK_SIZE
    reads W
  {
    W.Length == ROUNDS && forall t :: 0 <= t < ROUNDS ==> W[t] == Schedule(buf, t)
  }

  /** The names of the registers in the eight rounds. */
  lemma RoundPlaces()
    ensures Places(0, 1, 2, 3, 4, 5, 6, 7)
    ensures Places(7, 0, 1, 2, 3, 4, 5, 6)
    ensures Places(6, 7, 0, 1, 2, 3, 4, 5)
    ensures Places(5, 6, 7, 0, 1, 2, 3, 4)
    ensures Places(4, 5, 6, 7, 0, 1, 2, 3)
    ensures Places(3, 4, 5, 6, 7, 0, 1, 2)
    ensures Places(2, 3, 4, 5, 6, 7, 0, 1)
    ensures Places(1, 2, 3, 4, 5, 6, 7, 0)
  {}

  /** Round `i` of a block. */
  method RoundAt(S: array<word>, a: nat, b: nat, c: nat, d: nat, e: nat, f: nat, g: nat, h: nat, buf: seq<byte>, W: array<word>, i: nat,
      ghost r: Regs)
    requires S.Length == 8 && Places(a, b, c, d, e, f, g, h) && |buf| == BLOCK_SIZE && i < ROUNDS && W.Length == ROUNDS && W != S
    requires Scheduled(W, buf) && At(S[..], a, b, c, d, e, f, g, h) == Rounds(r, buf, i)
    modifies S
    ensures At(S[..], h, a, b, c, d, e, f, g) == Rounds(r, buf, i + 1)
  {
    hide K, Schedule, Round, Add, At;
    Rnd(S, a, b, c, d, e, f, g, h, K()[i], W[i]);
  }

  /** Eight rounds bring every register back to its place. */
  method EightRounds(S: array<word>, buf: seq<byte>, W: array<word>, i: nat, ghost r: Regs)
    requires S.Length == 8 && |buf| == BLOCK_SIZE && i + 8 <= ROUNDS && W.Length == ROUNDS && W != S
    requires Scheduled(W, buf) && RegsOf(S[..]) == Rounds(r, buf, i)
    modifies S
    ensures RegsOf(S[..]) == Rounds(r, buf, i + 8)
  {
    hide Scheduled, Schedule, Rounds, At, RegsOf, Places;
    RoundPlaces();
    InPlace(S[..]);
    RoundAt(S, 0, 1, 2, 3, 4, 5, 6, 7, buf, W, i, r);
    RoundAt(S, 7, 0, 1, 2, 3, 4, 5, 6, buf, W, i + 1, r);
    RoundAt(S, 6, 7, 0, 1, 2, 3, 4, 5, buf, W, i + 2, r);
    RoundAt(S, 5, 6, 7, 0, 1, 2, 3, 4, buf, W, i + 3, r);
    RoundAt(S, 4, 5, 6, 7, 0, 1, 2, 3, buf, W, i + 4, r);
    RoundAt(S, 3, 4, 5, 6, 7, 0, 1, 2, buf, W, i + 5, r);
    RoundAt(S, 2, 3, 4, 5, 6, 7, 0, 1, buf, W, i + 6, r);
    RoundAt(S, 1, 2, 3, 4, 5, 6, 7, 0, buf, W, i + 7, r);
    InPlace(S[..]);
  }

  lemma InPlace(s: seq<word>)
    requires |s| == 8
    ensures At(s, 0, 1, 2, 3, 4, 5, 6, 7) == RegsOf(s)
  {}

  /** The loop over the rounds, eight at a time. */
  method Mix(S: array<word>, buf: seq<byte>)
    requires S.Length == 8 && |buf| == BLOCK_SIZE
    modifies S
    ensures RegsOf(S[..]) == Rounds(RegsOf(old(S[..])), buf, ROUNDS)
  {
    hide K, Schedule, Round, Add;
    ghost var r := RegsOf(S[..]);
    var W := FillSchedule(buf);
    var i := 0;
    while i < ROUNDS
      invariant i <= ROUNDS && i % 8 == 0 && RegsOf(S[..]) == Rounds(r, buf, i)
      invariant W != S && forall t :: 0 <= t < ROUNDS ==> W[t] == Schedule(buf, t)
    {
      EightRounds(S, buf, W, i, r);
      i := i + 8;
    }
  }

  /** The feedback. */
  method Feedback(state: array<word>, S: array<word>)
    requires state.Length == 8 && S.Length == 8 && state != S
    modifies state
    ensures RegsOf(state[..]) == Plus(RegsOf(old(state[..])), RegsOf(S[..]))
  {
    hide Add;
    for i := 0 to 8
      invariant forall j :: 0 <= j < 8 ==> state[j] == if j < i then Add(old(state[j]), S[j]) else old(state[j])
    {
      state[i] := Add(state[i], S[i]);
    }
  }

  /** `sha_compress` */
  method ShaCompress(state: array<word>, buf: seq<byte>)
    requires state.Length == 8 && |buf| == BLOCK_SIZE
    modifies state
    ensures RegsOf(state[..]) == Compress(RegsOf(old(state[..])), buf)
  {
    hide Rounds, Add, Plus;
    var S := new word[8](i requires 0 <= i < 8 reads state => state[i]);
    assert S[..] == state[..];
    Mix(S, buf);
    Feedback(state, S);
  }

  /** `perform`: the pieces are hashed one after another. */
  method Perform(chunks: seq<seq<byte>>) returns (out: seq<byte>)
    requires Countable(Concat(chunks)) && forall i :: 0 <= i < |chunks| ==> |chunks[i]| < TWO_32
    ensures out == Digest(Sha(), Concat(chunks))
  {
    hide Digest, Sha;
    ShaSensible();
    out := HashChunks(Sha(), chunks);
  }

  /** `hmac` */
  method Hmac(data: seq<byte>, key: seq<byte>) returns (out: seq<byte>)
    requires |data| < TWO_32 && |key| < TWO_32
    ensures Sensible(Sha()) && out == HmacOf(Sha(), key, data)
  {
    hide HmacOf, Sha;
    ShaSensible();
    out := ShaStream.Hmac(Sha(), data, key);
  }
}
