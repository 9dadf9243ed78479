/** The streaming side of the hashes: buffering, padding and HMAC, for any compression function. */
module ShaStream {
  import opened Arithmetic

  type byte = bv8

  const TWO_32: nat := 0x1_0000_0000
  const TWO_64: nat := 0x1_0000_0000_0000_0000

  /** One hash: its block size, where the length goes, and what it does with a block. */
  datatype Hash<!S> = Hash(block: nat, lengthAt: nat, zeroTo: nat, init: S, compress: (S, seq<byte>) -> S, output: S -> seq<byte>)

  /** SHA-256 keeps 8 bytes for the length, SHA-512 keeps 16 and uses the last 8. */
  ghost predicate Sensible<S(!new)>(h: Hash<S>)
  {
    0 < h.lengthAt <= h.zeroTo && h.zeroTo + 8 == h.block && h.block < TWO_32 && forall s: S :: |h.output(s)| <= h.block
  }

  /** The compression function over whole blocks. */
  function Fold<S>(h: Hash<S>, s: S, m: seq<byte>): S
    requires h.block > 0
  {
    if |m| < h.block then s else h.compress(Fold(h, s, m[..|m| - h.block]), m[|m| - h.block..])
  }

  function Zeros(n: nat): (z: seq<byte>)
    ensures |z| == n
  {
    seq(n, _ => 0)
  }

  /** `n` as `k` bytes, most significant first. */
  function BigEndian(n: nat, k: nat): (r: seq<byte>)
    ensures |r| == k
  {
    if k == 0 then [] else BigEndian(n / 256, k - 1) + [(n % 256) as byte]
  }

  /** The zeros of the padding rule, from the bytes that the last block already holds. */
  function Gap<S>(h: Hash<S>, n: nat): (k: nat)
    requires 0 < h.lengthAt < h.block
  {
    var r := n % h.block;
    if r + 1 <= h.lengthAt then h.lengthAt - r - 1 else h.block - r - 1 + h.lengthAt
  }

  /** How full the last block is behind a message of `n` bytes, the first byte of the padding and `k` zeros. */
  function Rest(n: nat, b: nat, k: nat): nat
    requires b > 0
  {
    (n + 1 + k) % b
  }

  lemma RestIs(n: nat, b: nat, k: nat)
    requires 0 <= k < b
    ensures var r := n % b; Rest(n, b, k) == if r + 1 + k < b then r + 1 + k else r + 1 + k - b
  {
    var q, r := n / b, n % b;
    assert n == q * b + r && (q + 1) * b == q * b + b;
    if r + 1 + k < b { ModOf(q, b, r + 1 + k); } else { ModOf(q + 1, b, r + 1 + k - b); }
  }

  /** `Gap` is the smallest number that leaves exactly the bytes of the length free. */
  lemma GapIsLeast<S>(h: Hash<S>, n: nat)
    requires 0 < h.lengthAt < h.block
    ensures Gap(h, n) < h.block && Rest(n, h.block, Gap(h, n)) == h.lengthAt
    ensures forall k: nat {:trigger Rest(n, h.block, k)} :: k < Gap(h, n) ==> Rest(n, h.block, k) != h.lengthAt
  {
    hide Rest;
    RestIs(n, h.block, Gap(h, n));
    forall k: nat {:trigger Rest(n, h.block, k)} | k < Gap(h, n) ensures Rest(n, h.block, k) != h.lengthAt {
      RestIs(n, h.block, k);
    }
  }

  /** Sections 5.1.1 and 5.1.2 of FIPS 180-4. */
  function Padded<S>(h: Hash<S>, m: seq<byte>): (r: seq<byte>)
    requires 0 < h.lengthAt < h.block
  {
    m + [0x80] + Zeros(Gap(h, |m|)) + BigEndian(8 * |m|, h.block - h.lengthAt)
  }

  /** The hash of a whole message. */
  function Digest<S>(h: Hash<S>, m: seq<byte>): seq<byte>
    requires 0 < h.lengthAt < h.block
  {
    h.output(Fold(h, h.init, Padded(h, m)))
  }

  /** What the source appends: its length field has always 8 bytes, and the counter behind it 64 bits. */
  function Appended<S>(h: Hash<S>, m: seq<byte>): seq<byte>
    requires 0 < h.lengthAt < h.block && h.lengthAt <= h.zeroTo
  {
    m + [0x80] + Zeros(Gap(h, |m|) + (h.zeroTo - h.lengthAt)) + BigEndian(Bits(|m|), 8)
  }

  lemma FoldBlock<S>(h: Hash<S>, s: S, m: seq<byte>, b: seq<byte>)
    requires h.block > 0 && |b| == h.block
    ensures Fold(h, s, m + b) == h.compress(Fold(h, s, m), b)
  {
    assert (m + b)[..|m + b| - h.block] == m && (m + b)[|m + b| - h.block..] == b;
  }

  ghost predicate Whole(n: int, b: nat)
    requires b > 0
  {
    n >= 0 && n % b == 0
  }

  lemma WholeStep(n: int, b: nat)
    requires b > 0 && Whole(n, b)
    ensures Whole(n + b, b)
  {
    ModOf(n / b + 1, b, 0);
    assert n == (n / b) * b && (n / b + 1) * b == (n / b) * b + b;
  }

  lemma WholeRest(n: int, b: nat, r: nat)
    requires b > 0 && Whole(n, b) && r < b
    ensures (n + r) % b == r
  {
    assert n == (n / b) * b;
    ModOf(n / b, b, r);
  }

  /** The 64-bit counter of the source after `n` bytes. */
  function Bits(n: nat): nat { 8 * n % TWO_64 }

  lemma BitsStep(n: nat, b: nat)
    ensures (Bits(n) + b * 8) % TWO_64 == Bits(n + b) && b * 8 == 8 * b
  {
  }

  lemma ZerosJoin(a: nat, b: nat)
    ensures Zeros(a) + Zeros(b) == Zeros(a + b)
  {
  }

  /* ---- the length field ---- */

  function Power(k: nat): (p: nat)
    ensures p > 0
  {
    if k == 0 then 1 else 256 * Power(k - 1)
  }

  /** `n` without its last `k` bytes. */
  function High(n: nat, k: nat): nat { if k == 0 then n else High(n / 256, k - 1) }

  lemma {:induction false} BigEndianSplit(n: nat, j: nat, k: nat)
    ensures BigEndian(n, j + k) == BigEndian(High(n, k), j) + BigEndian(n, k)
  {
    if k > 0 {
      BigEndianSplit(n / 256, j, k - 1);
      assert j + k - 1 == j + (k - 1);
    }
  }

  /** Bytes beyond the field do not show in it. */
  lemma {:induction false} BigEndianLow(n: nat, x: nat, k: nat)
    ensures BigEndian(n + x * Power(k), k) == BigEndian(n, k)
  {
    if k > 0 {
      var y := x * Power(k - 1);
      assert x * Power(k) == 256 * y;
      assert (n + 256 * y) / 256 == n / 256 + y && (n + 256 * y) % 256 == n % 256;
      BigEndianLow(n / 256, x, k - 1);
    }
  }

  lemma {:induction false} BigEndianZero(n: nat, j: nat)
    requires n < Power(j)
    ensures BigEndian(n, j) == Zeros(j) <==> n == 0
  {
    if j > 0 {
      BigEndianZero(n / 256, j - 1);
      var w := BigEndian(n / 256, j - 1);
      assert BigEndian(n, j) == w + [(n % 256) as byte];
      assert Zeros(j) == Zeros(j - 1) + [0];
      if BigEndian(n, j) == Zeros(j) {
        assert w == BigEndian(n, j)[..j - 1] == Zeros(j)[..j - 1] == Zeros(j - 1);
        assert (n % 256) as byte == BigEndian(n, j)[j - 1] == 0;
      }
    }
  }

  lemma Power8()
    ensures Power(8) == TWO_64
  {
    assert Power(2) == 0x1_0000;
    assert Power(4) == 0x1_0000_0000;
    assert Power(6) == 0x1_0000_0000_0000;
  }

  lemma {:induction false} HighIs(n: nat, k: nat)
    ensures High(n, k) == n / Power(k)
  {
    if k > 0 {
      var p := Power(k - 1);
      HighIs(n / 256, k - 1);
      DivDiv(n, p);
    }
  }

  lemma DivDiv(n: nat, p: nat)
    requires p > 0
    ensures n / 256 / p == n / (256 * p)
  {
    var d := 256 * p;
    var q, r := n / d, n % d;
    assert n == q * d + r;
    var x := q * p;
    assert q * d == 256 * x;
    assert n / 256 == x + r / 256 && r / 256 < p;
    ModOf(q, p, r / 256);
  }

  /** Byte `i` of `k` is the digit of 256 to the power `k - 1 - i`. */
  lemma {:induction false} BigEndianAt(n: nat, k: nat, i: nat)
    requires i < k
    ensures BigEndian(n, k)[i] == (n / Power(k - 1 - i) % 256) as byte
  {
    if i < k - 1 {
      BigEndianAt(n / 256, k - 1, i);
      NextDigit(n, k - 2 - i);
    }
  }

  lemma NextDigit(n: nat, j: nat)
    ensures n / 256 / Power(j) == n / Power(j + 1)
  {
    DivDiv(n, Power(j));
  }

  /** The source's padding is the padding of the standard exactly for messages of less than 2^64 bits. */
  lemma AppendedIsPadded<S(!new)>(h: Hash<S>, m: seq<byte>)
    requires Sensible(h) && 8 * |m| < Power(h.block - h.lengthAt)
    ensures Appended(h, m) == Padded(h, m) <==> 8 * |m| < TWO_64
  {
    var n, j := 8 * |m|, h.zeroTo - h.lengthAt;
    LengthField(n, j);
    ZerosJoin(Gap(h, |m|), j);
    var front := m + [0x80] + Zeros(Gap(h, |m|));
    assert Appended(h, m) == front + (Zeros(j) + BigEndian(Bits(|m|), 8));
    assert Padded(h, m) == front + BigEndian(n, j + 8);
    var x, y := Zeros(j) + BigEndian(Bits(|m|), 8), BigEndian(n, j + 8);
    assert (front + x)[|front|..] == x && (front + y)[|front|..] == y;
  }

  lemma LengthField(n: nat, j: nat)
    requires n < Power(j + 8)
    ensures Zeros(j) + BigEndian(n % TWO_64, 8) == BigEndian(n, j + 8) <==> n < TWO_64
  {
    hide BigEndian, High, Power, Zeros;
    BigEndianSplit(n, j, 8);
    Power8();
    HighIs(n, 8);
    BigEndianLow(n % TWO_64, n / TWO_64, 8);
    assert n % TWO_64 + (n / TWO_64) * TWO_64 == n;
    PowerSplit(j, n);
    BigEndianZero(n / TWO_64, j);
    var a, b, c := Zeros(j), BigEndian(n / TWO_64, j), BigEndian(n, 8);
    assert (a + c)[..j] == a && (b + c)[..j] == b;
  }

  lemma PowerSplit(j: nat, n: nat)
    requires n < Power(j + 8)
    ensures n / TWO_64 < Power(j)
  {
    PowerAdd(j, 8);
    Power8();
    var q := n / TWO_64;
    assert q * TWO_64 <= n < Power(j) * TWO_64;
  }

  lemma {:induction false} PowerAdd(j: nat, k: nat)
    ensures Power(j + k) == Power(j) * Power(k)
  {
    if k > 0 {
      PowerAdd(j, k - 1);
      assert j + k - 1 == j + (k - 1) && Power(j + k) == 256 * Power(j + k - 1);
      assert 256 * (Power(j) * Power(k - 1)) == Power(j) * (256 * Power(k - 1));
    }
  }

  lemma TailGrows(msg: seq<byte>, part: seq<byte>, start: nat)
    requires start <= |msg|
    ensures (msg + part)[start..] == msg[start..] + part && (msg + part)[..start] == msg[..start]
  {
  }

  lemma Nothing<S(!new)>(h: Hash<S>)
    requires Sensible(h)
    ensures 0 < h.block && Whole(0, h.block) && Fold(h, h.init, []) == h.init && Bits(0) == 0
  {}

  /** The streaming context. */
  class Hasher<S(!new)> {
    const h: Hash<S>
    const buf: array<byte>
    var length: nat
    var state: S
    var curlen: nat
    ghost var msg: seq<byte>

    constructor (h: Hash<S>)
      requires Sensible(h)
      ensures Valid() && msg == [] && this.h == h && fresh(buf) && buf.Length == h.block
    {
      hide *;
      this.h := h;
      buf := new byte[h.block];
      curlen, length, state, msg := 0, 0, h.init, [];
      new;
      Begun();
    }

    lemma Begun()
      requires Sensible(h) && buf.Length == h.block && curlen == 0 && length == 0 && state == h.init && msg == []
      ensures Valid()
    {
      hide Fold, Whole, Bits, Sensible;
      Nothing(h);
      assert msg[..|msg| - curlen] == [] && buf[..curlen] == msg[|msg| - curlen..];
    }

    /** The state is the fold over the full blocks of the message so far, and the buffer is the rest. */
    ghost predicate Valid()
      reads this, buf
    {
      curlen < h.block && Filling()
    }

    /** The same while the buffer may be full. */
    ghost predicate Filling()
      reads this, buf
    {
      Held() && length == Bits(|msg| - curlen)
    }

    /** The same while the counter may be ahead. */
    ghost predicate Held()
      reads this`msg, this`curlen, this`state, buf
    {
      && Sensible(h) && buf.Length == h.block && curlen <= h.block && curlen <= |msg|
      && Whole(|msg| - curlen, h.block)
      && state == Fold(h, h.init, msg[..|msg| - curlen])
      && buf[..curlen] == msg[|msg| - curlen..]
    }

    /** `sha_init` */
    method Init()
      requires Sensible(h) && buf.Length == h.block
      modifies this
      ensures Valid() && msg == []
    {
      hide *;
      curlen, length, state, msg := 0, 0, h.init, [];
      Begun();
    }

    /** A whole block straight from the input. */
    method Absorb(block: seq<byte>)
      requires Valid() && curlen == 0 && |block| == h.block
      modifies this`state, this`length, this`msg
      ensures Valid() && curlen == 0 && msg == old(msg) + block
    {
      hide Fold, Whole, Bits;
      FoldBlock(h, h.init, msg, block);
      WholeStep(|msg|, h.block);
      BitsStep(|msg|, h.block);
      state := h.compress(state, block);
      length := (length + h.block * 8) % TWO_64;
      assert msg[..|msg|] == msg;
      msg := msg + block;
      assert msg[..|msg|] == msg;
    }

    /** `memcpy` into the buffer. */
    method CopyIn(part: seq<byte>)
      requires Valid() && |part| <= h.block - curlen
      modifies this`msg, this`curlen, buf
      ensures Filling() && msg == old(msg) + part && curlen == old(curlen) + |part|
    {
      hide Fold, Whole, Bits, Sensible;
      ghost var start := |msg| - curlen;
      ghost var held := buf[..curlen];
      forall k | 0 <= k < |part| { buf[curlen + k] := part[k]; }
      assert buf[..curlen + |part|] == held + part;
      TailGrows(msg, part, start);
      curlen := curlen + |part|;
      msg := msg + part;
    }

    /** The full buffer is compressed. */
    method Compress()
      requires Held() && curlen == h.block && h.block > 0
      modifies this`state, this`curlen
      ensures Held() && curlen == 0
    {
      hide Fold, Whole;
      ghost var start := |msg| - curlen;
      FoldBlock(h, h.init, msg[..start], buf[..]);
      WholeStep(start, h.block);
      assert buf[..] == buf[..curlen] && msg[..start] + msg[start..] == msg && msg[..|msg|] == msg;
      state := h.compress(state, buf[..]);
      curlen := 0;
    }

    method Flush()
      requires Filling() && curlen == h.block && h.block > 0
      modifies this`state, this`length, this`curlen
      ensures Valid() && curlen == 0
    {
      hide Bits, Fold, Whole;
      BitsStep(|msg| - curlen, h.block);
      Compress();
      length := (length + 8 * h.block) % TWO_64;
    }

    /** The part of `sha_process` that goes through the buffer. */
    method Buffer(part: seq<byte>)
      requires Valid() && 0 < |part| <= h.block - curlen
      modifies this`state, this`length, this`msg, this`curlen, buf
      ensures Valid() && msg == old(msg) + part
    {
      hide Fold, Whole, Bits;
      CopyIn(part);
      if curlen == h.block {
        Flush();
      }
    }

    /** `update`: the length is cut to 32 bits on the way to `sha_process`. */
    method Update(data: seq<byte>)
      requires Valid()
      modifies this, buf
      ensures Valid() && msg == old(msg) + data[..|data| % TWO_32]
    {
      if |data| > 0 {
        var inlen := |data| % TWO_32;
        Process(data[..inlen]);
      }
    }

    /** `sha_process` */
    method Process(data: seq<byte>)
      requires Valid()
      modifies this`state, this`length, this`msg, this`curlen, buf
      ensures Valid() && msg == old(msg) + data
    {
      hide Valid, Fold, Whole;
      var i, inlen: nat := 0, |data|;
      assert old(msg) + data[..0] == msg;
      while inlen > 0
        invariant 0 <= i && i + inlen == |data| && Valid() && msg == old(msg) + data[..i]
      {
        Sizes();
        if curlen == 0 && inlen >= h.block {
          Absorb(data[i..i + h.block]);
          assert data[..i] + data[i..i + h.block] == data[..i + h.block];
          i, inlen := i + h.block, inlen - h.block;
        } else {
          var n := if inlen < h.block - curlen then inlen else h.block - curlen;
          Buffer(data[i..i + n]);
          assert data[..i] + data[i..i + n] == data[..i + n];
          i, inlen := i + n, inlen - n;
        }
      }
      assert data[..i] == data;
    }

    /* ---- the end of the message ---- */

    /** One byte of the padding. */
    method Put(b: byte)
      requires Held() && curlen < h.block
      modifies this`msg, this`curlen, buf
      ensures Held() && msg == old(msg) + [b] && curlen == old(curlen) + 1
    {
      hide Fold, Whole, Sensible;
      ghost var start := |msg| - curlen;
      ghost var held := buf[..curlen];
      buf[curlen] := b;
      assert buf[..curlen + 1] == held + [b];
      TailGrows(msg, [b], start);
      curlen := curlen + 1;
      msg := msg + [b];
    }

    /** The loops of `sha_done` that write zeros. */
    method PutZeros(limit: nat)
      requires Held() && curlen <= limit <= h.block
      modifies this`msg, this`curlen, buf
      ensures Held() && msg == old(msg) + Zeros(limit - old(curlen)) && curlen == limit
    {
      hide Held;
      ghost var from := curlen;
      assert msg + Zeros(0) == msg;
      while curlen < limit
        invariant Held() && from <= curlen <= limit && msg == old(msg) + Zeros(curlen - from)
      {
        assert Zeros(curlen - from) + [0] == Zeros(curlen + 1 - from);
        Put(0);
      }
    }

    /** `store64` of the counter, most significant byte first. */
    method PutLength()
      requires Held() && curlen + 8 == h.block
      modifies this`msg, this`curlen, buf
      ensures Held() && msg == old(msg) + BigEndian(length, 8) && curlen == h.block
    {
      hide Held, BigEndian;
      ghost var from := curlen;
      var bytes := BigEndian(length, 8);
      assert msg + bytes[..0] == msg;
      for i := 0 to 8
        invariant Held() && curlen == from + i && msg == old(msg) + bytes[..i]
      {
        assert bytes[..i] + [bytes[i]] == bytes[..i + 1];
        Put(bytes[i]);
      }
      assert bytes[..8] == bytes;
    }

    /** `sha_done`: the context holds padding afterwards and needs `Init` before it is used again. */
    method Final() returns (out: seq<byte>)
      requires Valid()
      modifies this, buf
      ensures out == h.output(Fold(h, h.init, Appended(h, old(msg))))
    {
      hide Held, Fold, Bits, BigEndian, Zeros;
      ghost var m, r := msg, curlen;
      Rests();
      BitsStep(|msg| - curlen, curlen);
      length := (length + curlen * 8) % TWO_64;
      Put(0x80);
      ghost var zeros := 0;
      if curlen > h.lengthAt {
        zeros := h.block - curlen;
        PutZeros(h.block);
        Compress();
      } else {
        assert Zeros(0) == [] && msg + [] == msg;
      }
      ghost var from := curlen;
      PutZeros(h.zeroTo);
      ZerosJoin(zeros, h.zeroTo - from);
      PutLength();
      assert msg == m + [0x80] + Zeros(Gap(h, |m|) + (h.zeroTo - h.lengthAt)) + BigEndian(Bits(|m|), 8);
      Compress();
      Folded();
      out := h.output(state);
    }

    lemma Rests()
      requires Valid()
      ensures Held() && |msg| % h.block == curlen < h.block && curlen <= |msg| && length == Bits(|msg| - curlen)
      ensures 0 < h.lengthAt <= h.zeroTo && h.zeroTo + 8 == h.block
    {
      WholeRest(|msg| - curlen, h.block, curlen);
    }

    lemma Folded()
      requires Held() && curlen == 0
      ensures state == Fold(h, h.init, msg)
    {
      assert msg[..|msg|] == msg;
    }

    lemma Sizes()
      requires Valid()
      ensures curlen < h.block
    {
    }
  }

  function Concat(chunks: seq<seq<byte>>): seq<byte>
  {
    if chunks == [] then [] else Concat(chunks[..|chunks| - 1]) + chunks[|chunks| - 1]
  }

  /** The pieces one after the other, in their order. */
  lemma {:induction false} ConcatMeans(a: seq<seq<byte>>, b: seq<seq<byte>>, x: seq<byte>)
    ensures Concat([]) == [] && Concat([x]) == x && Concat(a + b) == Concat(a) + Concat(b)
    decreases |b|
  {
    assert [x][..0] == [] && Concat([x]) == [] + x == x;
    if b == [] {
      assert a + b == a && Concat(a) + [] == Concat(a);
    } else {
      var n := |b| - 1;
      ConcatMeans(a, b[..n], x);
      assert (a + b)[..|a| + n] == a + b[..n];
      assert Concat(a) + (Concat(b[..n]) + b[n]) == Concat(a) + Concat(b[..n]) + b[n];
    }
  }

  /** Messages whose bit count fits the source's counter. */
  ghost predicate Countable(m: seq<byte>) { 8 * |m| < TWO_64 }

  lemma AppendedIsDigest<S(!new)>(h: Hash<S>, m: seq<byte>)
    requires Sensible(h) && Countable(m)
    ensures h.output(Fold(h, h.init, Appended(h, m))) == Digest(h, m)
  {
    hide Appended, Padded, Fold;
    PowerGrows(h.block - h.lengthAt);
    AppendedIsPadded(h, m);
  }

  lemma PowerGrows(k: nat)
    requires k >= 8
    ensures Power(k) >= TWO_64
  {
    PowerAdd(k - 8, 8);
    Power8();
    assert Power(k - 8) * TWO_64 >= 1 * TWO_64;
  }

  /** What `update` takes of each piece. */
  function Taken(chunks: seq<seq<byte>>): (r: seq<seq<byte>>)
    ensures |r| == |chunks|
  {
    seq(|chunks|, i requires 0 <= i < |chunks| => chunks[i][..|chunks[i]| % TWO_32])
  }

  /** Nothing is lost exactly if no piece has 2^32 bytes or more. */
  lemma {:induction false} TakenWhole(chunks: seq<seq<byte>>)
    ensures |Concat(Taken(chunks))| <= |Concat(chunks)|
    ensures Concat(Taken(chunks)) == Concat(chunks) <==> forall i :: 0 <= i < |chunks| ==> |chunks[i]| < TWO_32
  {
    if chunks != [] {
      var n := |chunks| - 1;
      TakenWhole(chunks[..n]);
      assert Taken(chunks)[..n] == Taken(chunks[..n]);
      var x, y := chunks[n], Taken(chunks)[n];
      assert |y| <= |x| && (|y| == |x| <==> |x| < TWO_32) && (|x| < TWO_32 ==> y == x);
      if forall i :: 0 <= i < |chunks| ==> |chunks[i]| < TWO_32 {
        assert forall i :: 0 <= i < n ==> chunks[..n][i] == chunks[i];
      }
      if Concat(Taken(chunks)) == Concat(chunks) {
        hide Taken;
        assert |Concat(Taken(chunks[..n]))| + |y| == |Concat(chunks[..n])| + |x|;
        assert (Concat(chunks[..n]) + x)[..|Concat(chunks[..n])|] == Concat(chunks[..n]);
        assert (Concat(Taken(chunks[..n])) + y)[..|Concat(chunks[..n])|] == Concat(Taken(chunks[..n]));
        forall i | 0 <= i < |chunks| ensures |chunks[i]| < TWO_32 { assert i < n ==> chunks[..n][i] == chunks[i]; }
      }
    }
  }

  /** The digest of any pieces is that of what `update` takes of them. */
  method HashPieces<S(!new)>(h: Hash<S>, chunks: seq<seq<byte>>) returns (out: seq<byte>)
    requires Sensible(h) && Countable(Concat(Taken(chunks)))
    ensures out == Digest(h, Concat(Taken(chunks)))
  {
    hide Digest, Appended, Hasher.Valid, Fold;
    var ctx := new Hasher(h);
    ghost var taken := Taken(chunks);
    assert taken[..|taken|] == taken;
    for i := 0 to |chunks|
      invariant ctx.Valid() && ctx.h == h && fresh(ctx) && fresh(ctx.buf) && ctx.msg == Concat(taken[..i])
    {
      assert taken[..i + 1][..i] == taken[..i];
      ctx.Update(chunks[i]);
    }
    AppendedIsDigest(h, ctx.msg);
    out := ctx.Final();
  }

  /** Any split of a message into updates gives the digest of the whole message. */
  method HashChunks<S(!new)>(h: Hash<S>, chunks: seq<seq<byte>>) returns (out: seq<byte>)
    requires Sensible(h) && Countable(Concat(chunks)) && forall i :: 0 <= i < |chunks| ==> |chunks[i]| < TWO_32
    ensures out == Digest(h, Concat(chunks))
  {
    hide Digest;
    TakenWhole(chunks);
    out := HashPieces(h, chunks);
  }

  /** A piece of exactly 2^32 bytes is lost as a whole: the digest is that of no data. */
  method LostPiece<S(!new)>(h: Hash<S>, data: seq<byte>) returns (out: seq<byte>)
    requires Sensible(h) && |data| == TWO_32
    ensures out == Digest(h, [])
  {
    hide Digest;
    assert Taken([data]) == [[]];
    assert Concat([[]]) == [];
    out := HashPieces(h, [data]);
  }

  const HMAC_I_PAD: byte := 0x36
  const HMAC_O_PAD: byte := 0x5C

  function XorAll(k: seq<byte>, pad: byte): (r: seq<byte>)
    ensures |r| == |k|
  {
    seq(|k|, i requires 0 <= i < |k| => k[i] ^ pad)
  }

  /** The key as a whole block: hashed first if it is longer, then filled up with zeros. */
  function BlockKey<S(!new)>(h: Hash<S>, key: seq<byte>): (r: seq<byte>)
    requires 0 < h.lengthAt < h.block && forall s: S :: |h.output(s)| <= h.block
    ensures |r| == h.block
  {
    var k := if |key| > h.block then Digest(h, key) else key;
    k + Zeros(h.block - |k|)
  }

  /** Section 2 of RFC 2104. */
  function HmacOf<S(!new)>(h: Hash<S>, key: seq<byte>, text: seq<byte>): seq<byte>
    requires 0 < h.lengthAt < h.block && forall s: S :: |h.output(s)| <= h.block
  {
    var k := BlockKey(h, key);
    Digest(h, XorAll(k, HMAC_O_PAD) + Digest(h, XorAll(k, HMAC_I_PAD) + text))
  }

  /** The key filled up with zeros to a whole block, every byte of it changed by `pad`. */
  function Masked(key: seq<byte>, n: nat, pad: byte): (r: seq<byte>)
    ensures |r| == n
  {
    seq(n, i requires 0 <= i < n => (if i < |key| then key[i] else 0) ^ pad)
  }

  /** H(K xor opad, H(K xor ipad, text)) with the bytes 0x36 and 0x5C, for a key of one block or less; a longer one is hashed first. */
  lemma HmacIs<S(!new)>(h: Hash<S>, key: seq<byte>, text: seq<byte>)
    requires Sensible(h)
    ensures |key| <= h.block ==>
              HmacOf(h, key, text) == Digest(h, Masked(key, h.block, 0x5C) + Digest(h, Masked(key, h.block, 0x36) + text))
    ensures |key| > h.block ==> HmacOf(h, key, text) == HmacOf(h, Digest(h, key), text)
  {
    hide Padded, Fold;
    if |key| <= h.block {
      assert XorAll(BlockKey(h, key), HMAC_O_PAD) == Masked(key, h.block, 0x5C);
      assert XorAll(BlockKey(h, key), HMAC_I_PAD) == Masked(key, h.block, 0x36);
    }
  }

  lemma PadsCancel(k: seq<byte>)
    ensures XorAll(XorAll(k, HMAC_I_PAD), HMAC_I_PAD ^ HMAC_O_PAD) == XorAll(k, HMAC_O_PAD)
  {
  }

  /** One of the loops that change the pad in place. */
  method XorInPlace(a: array<byte>, pad: byte)
    modifies a
    ensures a[..] == XorAll(old(a[..]), pad)
  {
    for i := 0 to a.Length
      invariant forall j :: 0 <= j < a.Length ==> a[j] == if j < i then old(a[j]) ^ pad else old(a[j])
    {
      a[i] := a[i] ^ pad;
    }
  }

  /** The digest of two pieces, from a context that is started anew. */
  method Hash2<S(!new)>(ctx: Hasher<S>, a: seq<byte>, b: seq<byte>) returns (out: seq<byte>)
    requires Sensible(ctx.h) && ctx.buf.Length == ctx.h.block && |a| < TWO_32 && |b| < TWO_32
    modifies ctx, ctx.buf
    ensures out == Digest(ctx.h, a + b)
  {
    hide Digest, Appended, Hasher.Valid, Fold;
    ctx.Init();
    assert a[..|a| % TWO_32] == a && b[..|b| % TWO_32] == b;
    ctx.Update(a);
    ctx.Update(b);
    assert ctx.msg == a + b;
    AppendedIsDigest(ctx.h, ctx.msg);
    out := ctx.Final();
  }

  /** `hmac` */
  method Hmac<S(!new)>(h: Hash<S>, data: seq<byte>, key: seq<byte>) returns (ret: seq<byte>)
    requires Sensible(h) && |data| < TWO_32 && |key| < TWO_32
    ensures ret == HmacOf(h, key, data)
  {
    hide Padded, Fold, Hasher.Valid;
    var keyData := new byte[h.block](_ => 0);
    var ctx := new Hasher(h);
    if |key| > h.block {
      var k := Hash2(ctx, key, []);
      assert key + [] == key;
      forall i | 0 <= i < |k| { keyData[i] := k[i]; }
    } else {
      forall i | 0 <= i < |key| { keyData[i] := key[i]; }
    }
    assert keyData[..] == BlockKey(h, key);
    XorInPlace(keyData, HMAC_I_PAD);
    ret := Hash2(ctx, keyData[..], data);
    PadsCancel(BlockKey(h, key));
    XorInPlace(keyData, HMAC_I_PAD ^ HMAC_O_PAD);
    ret := Hash2(ctx, keyData[..], ret);
  }
}
