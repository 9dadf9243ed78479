/** Operations on the 32-bit words of the hash: those of FIPS 180-4, and how the source computes them. */
module Words32 {
  type word = bv32

  function Add(x: word, y: word): word { x + y }

  function Ch(x: word, y: word, z: word): word { (x & y) ^ (!x & z) }

  function Maj(x: word, y: word, z: word): word { (x & y) ^ (x & z) ^ (y & z) }

  function CodeCh(x: word, y: word, z: word): word { z ^ (x & (y ^ z)) }

  function CodeMaj(x: word, y: word, z: word): word { ((x | y) & z) | (x & y) }

  lemma ChIs(x: word, y: word, z: word)
    ensures CodeCh(x, y, z) == Ch(x, y, z)
  {
    ChBits(x, y, z);
  }

  lemma ChBits(x: word, y: word, z: word)
    ensures z ^ (x & (y ^ z)) == (x & y) ^ (!x & z)
  {
  }

  lemma MajIs(x: word, y: word, z: word)
    ensures CodeMaj(x, y, z) == Maj(x, y, z)
  {
    MajBits(x, y, z);
  }

  lemma MajBits(x: word, y: word, z: word)
    ensures ((x | y) & z) | (x & y) == (x & y) ^ (x & z) ^ (y & z)
  {
  }
}

/** The compression function of SHA-256 as the standard writes it, and as the source computes it. */
module Sha256 {
  import opened ShaStream
  import opened Words32

  const ROUNDS: nat := 64
  const BLOCK_SIZE: nat := 64

  /* ---- sections 4.1.2 and 6.2.2 of FIPS 180-4 ---- */

  function Sum0(x: word): word { x.RotateRight(2) ^ x.RotateRight(13) ^ x.RotateRight(22) }

  function Sum1(x: word): word { x.RotateRight(6) ^ x.RotateRight(11) ^ x.RotateRight(25) }

  function Sigma0(x: word): word { x.RotateRight(7) ^ x.RotateRight(18) ^ (x >> 3) }

  function Sigma1(x: word): word { x.RotateRight(17) ^ x.RotateRight(19) ^ (x >> 10) }

  function K(): (k: seq<word>)
    ensures |k| == ROUNDS
  {
    [0x428a2f98, 0x71374491, 0xb5c0fbcf, 0xe9b5dba5, 0x3956c25b, 0x59f111f1, 0x923f82a4, 0xab1c5ed5] +
      [0xd807aa98, 0x12835b01, 0x243185be, 0x550c7dc3, 0x72be5d74, 0x80deb1fe, 0x9bdc06a7, 0xc19bf174] +
      [0xe49b69c1, 0xefbe4786, 0x0fc19dc6, 0x240ca1cc, 0x2de92c6f, 0x4a7484aa, 0x5cb0a9dc, 0x76f988da] +
      [0x983e5152, 0xa831c66d, 0xb00327c8, 0xbf597fc7, 0xc6e00bf3, 0xd5a79147, 0x06ca6351, 0x14292967] +
      [0x27b70a85, 0x2e1b2138, 0x4d2c6dfc, 0x53380d13, 0x650a7354, 0x766a0abb, 0x81c2c92e, 0x92722c85] +
      [0xa2bfe8a1, 0xa81a664b, 0xc24b8b70, 0xc76c51a3, 0xd192e819, 0xd6990624, 0xf40e3585, 0x106aa070] +
      [0x19a4c116, 0x1e376c08, 0x2748774c, 0x34b0bcb5, 0x391c0cb3, 0x4ed8aa4a, 0x5b9cca4f, 0x682e6ff3] +
      [0x748f82ee, 0x78a5636f, 0x84c87814, 0x8cc70208, 0x90befffa, 0xa4506ceb, 0xbef9a3f7, 0xc67178f2]
  }

  datatype Regs = Regs(a: word, b: word, c: word, d: word, e: word, f: word, g: word, h: word)

  function Initial(): Regs
  {
    Regs(0x6a09e667, 0xbb67ae85, 0x3c6ef372, 0xa54ff53a,
         0x510e527f, 0x9b05688c, 0x1f83d9ab, 0x5be0cd19)
  }

  /** A word of the block, most significant byte first. */
  function WordAt(b: seq<byte>, at: nat): word
    requires at + 4 <= |b|
  {
    (b[at] as bv32 << 24) | (b[at + 1] as bv32 << 16) | (b[at + 2] as bv32 << 8) | (b[at + 3] as bv32)
  }

  function Schedule(b: seq<byte>, t: nat): word
    requires |b| == BLOCK_SIZE && t < ROUNDS
  {
    if t < 16 then WordAt(b, 4 * t)
    else Add(Add(Add(Sigma1(Schedule(b, t - 2)), Schedule(b, t - 7)), Sigma0(Schedule(b, t - 15))), Schedule(b, t - 16))
  }

  function Round(r: Regs, k: word, w: word): Regs
  {
    var t1 := Add(Add(Add(Add(r.h, Sum1(r.e)), Ch(r.e, r.f, r.g)), k), w);
    var t2 := Add(Sum0(r.a), Maj(r.a, r.b, r.c));
    Regs(Add(t1, t2), r.a, r.b, r.c, Add(r.d, t1), r.e, r.f, r.g)
  }

  function Rounds(r: Regs, b: seq<byte>, n: nat): Regs
    requires |b| == BLOCK_SIZE && n <= ROUNDS
  {
    if n == 0 then r else Round(Rounds(r, b, n - 1), K()[n - 1], Schedule(b, n - 1))
  }

  function Plus(r: Regs, s: Regs): Regs
  {
    Regs(Add(r.a, s.a), Add(r.b, s.b), Add(r.c, s.c), Add(r.d, s.d), Add(r.e, s.e), Add(r.f, s.f), Add(r.g, s.g), Add(r.h, s.h))
  }

  function Compress(r: Regs, b: seq<byte>): Regs
  {
    if |b| == BLOCK_SIZE then Plus(r, Rounds(r, b, ROUNDS)) else r
  }

  function StoreWord(x: word): (r: seq<byte>)
    ensures |r| == 4
  {
    [((x >> 24) & 0xFF) as bv8, ((x >> 16) & 0xFF) as bv8, ((x >> 8) & 0xFF) as bv8, (x & 0xFF) as bv8]
  }

  /** The bytes of a word are those it was read from. */
  lemma WordStored(b: seq<byte>, at: nat)
    requires at + 4 <= |b|
    ensures StoreWord(WordAt(b, at)) == b[at..at + 4]
  {
  }

  function Output(r: Regs): (out: seq<byte>)
    ensures |out| == 32
  {
    StoreWord(r.a) + StoreWord(r.b) + StoreWord(r.c) + StoreWord(r.d) + StoreWord(r.e) + StoreWord(r.f) + StoreWord(r.g) + StoreWord(r.h)
  }

  /** What the streaming context needs to know. */
  function Sha(): Hash<Regs>
  {
    Hash(BLOCK_SIZE, 56, 56, Initial(), Compress, Output)
  }

  lemma ShaSensible()
    ensures Sensible(Sha())
  {
  }

  /* ---- the source ---- */

  function CodeSum0(x: word): word { ((x >> 2) | (x << 30)) ^ ((x >> 13) | (x << 19)) ^ ((x >> 22) | (x << 10)) }

  function CodeSum1(x: word): word { ((x >> 6) | (x << 26)) ^ ((x >> 11) | (x << 21)) ^ ((x >> 25) | (x << 7)) }

  function CodeSigma0(x: word): word { ((x >> 7) | (x << 25)) ^ ((x >> 18) | (x << 14)) ^ (x >> 3) }

  function CodeSigma1(x: word): word { ((x >> 17) | (x << 15)) ^ ((x >> 19) | (x << 13)) ^ (x >> 10) }

  /** A rotation is two shifts. */
  lemma RotationsAre(x: word)
    ensures CodeSum0(x) == Sum0(x) && CodeSum1(x) == Sum1(x) && CodeSigma0(x) == Sigma0(x) && CodeSigma1(x) == Sigma1(x)
  {
  }

  ghost function RegsOf(s: seq<word>): Regs
    requires |s| == 8
  {
    Regs(s[0], s[1], s[2], s[3], s[4], s[5], s[6], s[7])
  }

  /** The message schedule, filled from the front. */
  method FillSchedule(buf: seq<byte>) returns (W: array<word>)
    requires |buf| == BLOCK_SIZE
    ensures fresh(W) && W.Length == ROUNDS && forall t :: 0 <= t < ROUNDS ==> W[t] == Schedule(buf, t)
  {
    hide Add, WordAt, Sigma0, Sigma1, CodeSigma0, CodeSigma1, Sum0, Sum1, CodeSum0, CodeSum1;
    W := new word[ROUNDS];
    for i := 0 to 16
      invariant forall t :: 0 <= t < i ==> W[t] == Schedule(buf, t)
    {
      W[i] := WordAt(buf, 4 * i);
    }
    for i := 16 to ROUNDS
      invariant forall t :: 0 <= t < i ==> W[t] == Schedule(buf, t)
    {
      RotationsAre(W[i - 2]);
      RotationsAre(W[i - 15]);
      W[i] := Add(Add(Add(CodeSigma1(W[i - 2]), W[i - 7]), CodeSigma0(W[i - 15])), W[i - 16]);
    }
  }

  /** One round on the registers, which are then rotated by one place. */
  method Step(S: array<word>, k: word, w: word)
    requires S.Length == 8
    modifies S
    ensures RegsOf(S[..]) == Round(RegsOf(old(S[..])), k, w)
  {
    hide Add, Sum0, Sum1, CodeSum0, CodeSum1, Sigma0, Sigma1, CodeSigma0, CodeSigma1, Ch, Maj, CodeCh, CodeMaj;
    ChIs(S[4], S[5], S[6]);
    MajIs(S[0], S[1], S[2]);
    RotationsAre(S[0]);
    RotationsAre(S[4]);
    var t0 := Add(Add(Add(Add(S[7], CodeSum1(S[4])), CodeCh(S[4], S[5], S[6])), k), w);
    var t1 := Add(CodeSum0(S[0]), CodeMaj(S[0], S[1], S[2]));
    S[3] := Add(S[3], t0);
    S[7] := Add(t0, t1);
    var t := S[7];
    S[7] := S[6];
    S[6] := S[5];
    S[5] := S[4];
    S[4] := S[3];
    S[3] := S[2];
    S[2] := S[1];
    S[1] := S[0];
    S[0] := t;
  }

  /** The loop over the rounds. */
  method Mix(S: array<word>, buf: seq<byte>)
    requires S.Length == 8 && |buf| == BLOCK_SIZE
    modifies S
    ensures RegsOf(S[..]) == Rounds(RegsOf(old(S[..])), buf, ROUNDS)
  {
    hide K, Schedule, Round, Add;
    var W := FillSchedule(buf);
    for i := 0 to ROUNDS
      invariant RegsOf(S[..]) == Rounds(RegsOf(old(S[..])), buf, i)
      invariant W != S && forall t :: 0 <= t < ROUNDS ==> W[t] == Schedule(buf, t)
    {
      Step(S, K()[i], W[i]);
    }
  }

  /** The feedback. */
  method Feedback(state: array<word>, S: array<word>)
    requires state.Length == 8 && S.Length == 8 && state != S
    modifies state
    ensures RegsOf(state[..]) == Plus(RegsOf(old(state[..])), RegsOf(S[..]))
  {
    hide Add;
    for i := 0 to 8
      invariant forall j :: 0 <= j < 8 ==> state[j] == if j < i then Add(old(state[j]), S[j]) else old(state[j])
    {
      state[i] := Add(state[i], S[i]);
    }
  }

  /** `sha_compress` */
  method ShaCompress(state: array<word>, buf: seq<byte>)
    requires state.Length == 8 && |buf| == BLOCK_SIZE
    modifies state
    ensures RegsOf(state[..]) == Compress(RegsOf(old(state[..])), buf)
  {
    hide Rounds, Add, Plus;
    var S := new word[8](i requires 0 <= i < 8 reads state => state[i]);
    assert S[..] == state[..];
    Mix(S, buf);
    Feedback(state, S);
  }

  /** `perform`: the pieces are hashed one after another. */
  method Perform(chunks: seq<seq<byte>>) returns (out: seq<byte>)
    requires Countable(Concat(chunks)) && forall i :: 0 <= i < |chunks| ==> |chunks[i]| < TWO_32
    ensures out == Digest(Sha(), Concat(chunks))
  {
    hide Digest, Sha;
    ShaSensible();
    out := HashChunks(Sha(), chunks);
  }

  /** `hmac` */
  method Hmac(data: seq<byte>, key: seq<byte>) returns (out: seq<byte>)
    requires |data| < TWO_32 && |key| < TWO_32
    ensures Sensible(Sha()) && out == HmacOf(Sha(), key, data)
  {
    hide HmacOf, Sha;
    ShaSensible();
    out := ShaStream.Hmac(Sha(), data, key);
  }
}
