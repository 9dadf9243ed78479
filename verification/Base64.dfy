/** `SPBase64.cc`: the alphabets of sections 4 and 5 of RFC 4648, over bytes. */
module Base64 {
  type Byte = bv8

  type Bytes = seq<Byte>

  /** `base64EncodeLookup`, with `-` and `_` in the URL alphabet. */
  function Char(url: bool, v: Byte): Byte {
    if v < 26 then v + 65
    else if v < 52 then v + 71
    else if v < 62 then v - 4
    else if v == 62 then (if url then 45 else 43)
    else (if url then 95 else 47)
  }

  const MASKED: Byte := 65

  /** `base64DecodeLookup`, which serves both alphabets. */
  function Value(c: Byte): Byte {
    if 65 <= c <= 90 then c - 65
    else if 97 <= c <= 122 then c - 71
    else if 48 <= c <= 57 then c + 4
    else if c == 43 || c == 45 then 62
    else if c == 47 || c == 95 then 63
    else MASKED
  }

  /** The four six-bit groups of three bytes. */
  function First(x: Byte): Byte { (x & 0xFC) >> 2 }

  function Second(x: Byte, y: Byte): Byte { ((x & 0x03) << 4) | ((y & 0xF0) >> 4) }

  function Third(y: Byte, z: Byte): Byte { ((y & 0x0F) << 2) | ((z & 0xC0) >> 6) }

  function Fourth(z: Byte): Byte { z & 0x3F }

  /** The six-bit groups of the bytes; the last one is filled up with zero bits. */
  function Pack(b: Bytes): Bytes {
    if |b| >= 3 then [First(b[0]), Second(b[0], b[1]), Third(b[1], b[2]), Fourth(b[2])] + Pack(b[3..])
    else if |b| == 2 then [First(b[0]), Second(b[0], b[1]), Third(b[1], 0)]
    else if |b| == 1 then [First(b[0]), Second(b[0], 0)]
    else []
  }

  function Chars(url: bool, v: Bytes): Bytes { seq(|v|, i requires 0 <= i < |v| => Char(url, v[i])) }

  function Padding(n: nat): Bytes { if n % 3 == 1 then [61, 61] else if n % 3 == 2 then [61] else [] }

  function Encode(url: bool, b: Bytes): Bytes { Chars(url, Pack(b)) + if url then [] else Padding(|b|) }

  /** The values of the characters that belong to an alphabet; everything else is skipped. */
  function Values(s: Bytes): Bytes {
    if s == [] then [] else (if Value(s[0]) == MASKED then [] else [Value(s[0])]) + Values(s[1..])
  }

  /** The three bytes of four six-bit groups. */
  function High(p: Byte, q: Byte): Byte { (p << 2) | (q >> 4) }

  function Middle(q: Byte, r: Byte): Byte { (q << 4) | (r >> 2) }

  function Low(r: Byte, s: Byte): Byte { (r << 6) | s }

  /** The bytes of the six-bit groups; bits that fill no byte are dropped. */
  function Unpack(v: Bytes): Bytes {
    if |v| >= 4 then [High(v[0], v[1]), Middle(v[1], v[2]), Low(v[2], v[3])] + Unpack(v[4..])
    else if |v| == 3 then [High(v[0], v[1]), Middle(v[1], v[2])]
    else if |v| == 2 then [High(v[0], v[1])]
    else []
  }

  function Decode(s: Bytes): Bytes { Unpack(Values(s)) }

  /** `encodeSize` and `decodeSize` */
  function EncodeSize(n: nat): nat { (n / 3 + if n % 3 != 0 then 1 else 0) * 4 }

  function DecodeSize(n: nat): nat { (n + 4 - 1) / 4 * 3 }

  lemma CharsJoin(url: bool, u: Bytes, v: Bytes)
    ensures Chars(url, u + v) == Chars(url, u) + Chars(url, v)
  {}

  lemma CharsOf4(url: bool, p: Byte, q: Byte, r: Byte, s: Byte)
    ensures Chars(url, [p, q, r, s]) == [Char(url, p)] + [Char(url, q)] + [Char(url, r)] + [Char(url, s)]
  {
    hide Char;
  }

  /** The first three bytes. */
  lemma EncodeGroup(url: bool, b: Bytes)
    requires |b| >= 3
    ensures Encode(url, b) ==
      [Char(url, First(b[0]))] + [Char(url, Second(b[0], b[1]))] + [Char(url, Third(b[1], b[2]))] + [Char(url, Fourth(b[2]))] +
      Encode(url, b[3..])
  {
    hide Char, First, Second, Third, Fourth, Chars;
    CharsJoin(url, [First(b[0]), Second(b[0], b[1]), Third(b[1], b[2]), Fourth(b[2])], Pack(b[3..]));
    CharsOf4(url, First(b[0]), Second(b[0], b[1]), Third(b[1], b[2]), Fourth(b[2]));
  }

  /** The one or two bytes behind the last full group. */
  lemma Tail(url: bool, b: Bytes)
    requires |b| < 3
    ensures Encode(url, b) ==
      if |b| == 2 then
        [Char(url, First(b[0]))] + [Char(url, Second(b[0], b[1]))] + [Char(url, (b[1] & 0x0F) << 2)] + (if url then [] else [61])
      else if |b| == 1 then
        [Char(url, First(b[0]))] + [Char(url, (b[0] & 0x03) << 4)] + (if url then [] else [61] + [61])
      else []
  {
    if |b| > 0 {
      ZeroFill(b[0], b[|b| - 1]);
    }
    hide Char, First, Second, Third, Fourth;
  }

  lemma ZeroFill(x: Byte, y: Byte)
    ensures Second(x, 0) == (x & 0x03) << 4 && Third(y, 0) == (y & 0x0F) << 2
  {
    assert ((x & 0x03) << 4) | ((0 & 0xF0) >> 4) == (x & 0x03) << 4;
    assert ((y & 0x0F) << 2) | ((0 & 0xC0) >> 6) == (y & 0x0F) << 2;
  }

  lemma Join4(out: Bytes, a: Byte, b: Byte, c: Byte, d: Byte, rest: Bytes)
    ensures out + ([a] + [b] + [c] + [d] + rest) == out + [a] + [b] + [c] + [d] + rest
  {}

  /** `make_encode` of both namespaces; the URL form has no padding. */
  method MakeEncode(url: bool, data: Bytes) returns (out: Bytes)
    ensures out == Encode(url, data)
  {
    hide Char, First, Second, Third, Fourth, Pack, Chars, Padding, Encode;
    out := [];
    var i := 0;
    assert data[0..] == data;
    while i + 3 - 1 < |data|
      invariant i <= |data| && i % 3 == 0
      invariant out + Encode(url, data[i..]) == Encode(url, data)
    {
      EncodeGroup(url, data[i..]);
      assert data[i..][3..] == data[i + 3..];
      Join4(out, Char(url, First(data[i])), Char(url, Second(data[i], data[i + 1])),
        Char(url, Third(data[i + 1], data[i + 2])), Char(url, Fourth(data[i + 2])), Encode(url, data[i + 3..]));
      out := out + [Char(url, First(data[i]))];
      out := out + [Char(url, Second(data[i], data[i + 1]))];
      out := out + [Char(url, Third(data[i + 1], data[i + 2]))];
      out := out + [Char(url, Fourth(data[i + 2]))];
      i := i + 3;
    }
    var last := EncodeTail(url, data[i..]);
    out := out + last;
  }

  method EncodeTail(url: bool, data: Bytes) returns (out: Bytes)
    requires |data| < 3
    ensures out == Encode(url, data)
  {
    hide Char, First, Second, Third, Fourth, Pack, Chars, Padding, Encode;
    Tail(url, data);
    out := [];
    if 1 < |data| {
      out := out + [Char(url, First(data[0]))];
      out := out + [Char(url, Second(data[0], data[1]))];
      out := out + [Char(url, (data[1] & 0x0F) << 2)];
      if !url {
        out := out + [61];
      }
    } else if 0 < |data| {
      out := out + [Char(url, First(data[0]))];
      out := out + [Char(url, (data[0] & 0x03) << 4)];
      if !url {
        out := out + [61];
        out := out + [61];
      }
    }
  }

  lemma ValuesStep(s: Bytes, i: nat)
    requires i < |s|
    ensures Values(s[i..]) == (if Value(s[i]) == MASKED then [] else [Value(s[i])]) + Values(s[i + 1..])
  {
    assert s[i..][1..] == s[i + 1..];
  }

  /** Reads characters up to four values or the end of the text. */
  method Accumulate(data: Bytes, start: nat, accumulated: array<Byte>) returns (i: nat, accumulateIndex: nat)
    requires start < |data| && accumulated.Length == 4
    modifies accumulated
    ensures start < i <= |data| && accumulateIndex <= 4 && (accumulateIndex < 4 ==> i == |data|)
    ensures Values(data[start..]) == accumulated[..accumulateIndex] + Values(data[i..])
  {
    hide Value, Values;
    i, accumulateIndex := start, 0;
    while i < |data|
      invariant start <= i <= |data| && accumulateIndex < 4
      invariant Values(data[start..]) == accumulated[..accumulateIndex] + Values(data[i..])
    {
      var decode := Value(data[i]);
      ValuesStep(data, i);
      i := i + 1;
      if decode != MASKED {
        accumulated[accumulateIndex] := decode;
        accumulateIndex := accumulateIndex + 1;
        if accumulateIndex == 4 {
          break;
        }
      }
    }
  }

  lemma UnpackJoin(v: Bytes, w: Bytes)
    requires |v| == 4 || w == []
    ensures Unpack(v + w) == Unpack(v) + Unpack(w)
  {
    hide High, Middle, Low;
    if |v| == 4 {
      assert (v + w)[4..] == w;
      assert v[4..] == [];
    } else {
      assert v + w == v;
    }
  }

  /** The bytes of what has been accumulated. */
  method EmitBytes(accumulated: array<Byte>, accumulateIndex: nat) returns (out: Bytes)
    requires accumulated.Length == 4 && accumulateIndex <= 4
    ensures out == Unpack(accumulated[..accumulateIndex])
  {
    hide High, Middle, Low;
    out := [];
    if accumulateIndex >= 2 {
      out := out + [High(accumulated[0], accumulated[1])];
    }
    if accumulateIndex >= 3 {
      out := out + [Middle(accumulated[1], accumulated[2])];
    }
    if accumulateIndex >= 4 {
      out := out + [Low(accumulated[2], accumulated[3])];
    }
  }

  /** `make_decode` */
  method MakeDecode(data: Bytes) returns (out: Bytes)
    ensures out == Decode(data)
  {
    hide Values, Unpack;
    out := [];
    var i := 0;
    assert data[0..] == data;
    while i < |data|
      invariant i <= |data| && out + Unpack(Values(data[i..])) == Unpack(Values(data))
    {
      var accumulated := new Byte[4];
      var accumulateIndex;
      i, accumulateIndex := Accumulate(data, i, accumulated);
      NoValues(data[i..]);
      UnpackJoin(accumulated[..accumulateIndex], Values(data[i..]));
      var bytes := EmitBytes(accumulated, accumulateIndex);
      out := out + bytes;
    }
    NoValues(data[i..]);
  }

  lemma NoValues(s: Bytes)
    ensures s == [] ==> Values(s) == [] && Unpack(Values(s)) == []
  {}
}
