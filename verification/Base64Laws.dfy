/** What the base64 coders promise together. */
module Base64Laws {
  import opened Base64

  /** In the alphabet of section 5 (URL) or of section 4 of RFC 4648. */
  predicate InAlphabet(url: bool, c: Byte) {
    Value(c) != MASKED && (if url then c != 43 && c != 47 else c != 45 && c != 95)
  }

  lemma ValueOfChar(url: bool, v: Byte)
    requires v < 64
    ensures Value(Char(url, v)) == v && InAlphabet(url, Char(url, v))
  {}

  lemma CharOfValue(url: bool, c: Byte)
    requires InAlphabet(url, c)
    ensures Char(url, Value(c)) == c && Value(c) < 64
  {}

  /** The alphabet of section 4, or of section 5, in four pieces. */
  function Alphabet(url: bool): string {
    "ABCDEFGHIJKLMNOPQRSTUVWXYZ" + "abcdefghijklmnopqrstuvwxyz" + "0123456789" + if url then "-_" else "+/"
  }

  lemma AlphabetIs(url: bool, v: Byte)
    requires v < 64
    ensures |Alphabet(url)| == 64 && (Char(url, v) as int) as char == Alphabet(url)[v as int]
  {
  }

  /** The table of the decoder serves both alphabets, and marks every other character. */
  lemma MaskedIs(c: Byte)
    ensures Value(c) == MASKED <==> forall v: Byte :: v < 64 ==> Char(true, v) != c && Char(false, v) != c
  {
    if Value(c) != MASKED {
      assert Char(true, Value(c)) == c || Char(false, Value(c)) == c;
    }
  }

  predicate Sextets(v: Bytes) { forall i :: 0 <= i < |v| ==> v[i] < 64 }

  lemma ByteBack(x: Byte, y: Byte, z: Byte)
    ensures High(First(x), Second(x, y)) == x
    ensures Middle(Second(x, y), Third(y, z)) == y
    ensures Low(Third(y, z), Fourth(z)) == z
    ensures First(x) < 64 && Second(x, y) < 64 && Third(y, z) < 64 && Fourth(z) < 64
  {
    assert (((x & 0xFC) >> 2) << 2) | ((((x & 0x03) << 4) | ((y & 0xF0) >> 4)) >> 4) == x;
    assert ((((x & 0x03) << 4) | ((y & 0xF0) >> 4)) << 4) | ((((y & 0x0F) << 2) | ((z & 0xC0) >> 6)) >> 2) == y;
    assert ((((y & 0x0F) << 2) | ((z & 0xC0) >> 6)) << 6) | (z & 0x3F) == z;
  }

  lemma SextetBack(p: Byte, q: Byte, r: Byte, s: Byte)
    requires p < 64 && q < 64 && r < 64 && s < 64
    ensures First(High(p, q)) == p && Second(High(p, q), Middle(q, r)) == q
    ensures Third(Middle(q, r), Low(r, s)) == r && Fourth(Low(r, s)) == s
    ensures Second(High(p, q), 0) == q <==> q & 0x0F == 0
    ensures Third(Middle(q, r), 0) == r <==> r & 0x03 == 0
  {}

  lemma {:induction false} UnpackPack(b: Bytes)
    ensures Unpack(Pack(b)) == b && Sextets(Pack(b))
  {
    hide First, Second, Third, Fourth, High, Middle, Low;
    if |b| >= 3 {
      ByteBack(b[0], b[1], b[2]);
      UnpackPack(b[3..]);
      assert Pack(b)[4..] == Pack(b[3..]);
      assert b == [b[0], b[1], b[2]] + b[3..];
    } else if |b| == 2 {
      ByteBack(b[0], b[1], 0);
    } else if |b| == 1 {
      ByteBack(b[0], 0, 0);
    }
  }

  lemma {:induction false} ValuesJoin(s: Bytes, t: Bytes)
    ensures Values(s + t) == Values(s) + Values(t)
  {
    hide Value;
    if s == [] {
      assert s + t == t;
    } else {
      assert (s + t)[1..] == s[1..] + t;
      ValuesJoin(s[1..], t);
    }
  }

  lemma {:induction false} ValuesOfChars(url: bool, v: Bytes)
    requires Sextets(v)
    ensures Values(Chars(url, v)) == v
  {
    hide Value, Char;
    if v != [] {
      ValueOfChar(url, v[0]);
      assert Chars(url, v)[1..] == Chars(url, v[1..]);
      ValuesOfChars(url, v[1..]);
    }
  }

  lemma {:induction false} ValuesOfJunk(junk: Bytes)
    requires forall i :: 0 <= i < |junk| ==> Value(junk[i]) == MASKED
    ensures Values(junk) == []
  {
    if junk != [] {
      ValuesOfJunk(junk[1..]);
    }
  }

  /** All bytes come back, in both alphabets. */
  lemma DecodeEncode(url: bool, b: Bytes)
    ensures Decode(Encode(url, b)) == b
  {
    hide Values, Pack, Unpack;
    UnpackPack(b);
    ValuesOfChars(url, Pack(b));
    var padding := if url then [] else Padding(|b|);
    ValuesOfJunk(padding);
    ValuesJoin(Chars(url, Pack(b)), padding);
    assert Pack(b) + [] == Pack(b);
  }

  /** Only the characters of the alphabets count, wherever the others stand. */
  lemma JunkIsSkipped(s: Bytes, junk: Bytes, t: Bytes)
    requires forall i :: 0 <= i < |junk| ==> Value(junk[i]) == MASKED
    ensures Decode(s + junk + t) == Decode(s + t)
  {
    hide Values, Unpack, Value;
    ValuesOfJunk(junk);
    ValuesJoin(s + junk, t);
    ValuesJoin(s, junk);
    ValuesJoin(s, t);
    assert Values(s) + [] == Values(s);
  }

  lemma {:induction false} PackLength(b: Bytes)
    ensures |Pack(b)| == |b| / 3 * 4 + (if |b| % 3 == 0 then 0 else |b| % 3 + 1)
  {
    if |b| >= 3 {
      PackLength(b[3..]);
    }
  }

  lemma {:induction false} UnpackLength(v: Bytes)
    ensures |Unpack(v)| == |v| / 4 * 3 + (if |v| % 4 == 0 then 0 else |v| % 4 - 1)
  {
    if |v| >= 4 {
      UnpackLength(v[4..]);
    }
  }

  /** `encodeSize` is the length of the padded form; the URL form is shorter by the padding. */
  lemma EncodedLength(b: Bytes)
    ensures |Encode(false, b)| == EncodeSize(|b|) && |Encode(true, b)| == EncodeSize(|b|) - |Padding(|b|)|
  {
    PackLength(b);
  }

  lemma {:induction false} ValuesLength(s: Bytes)
    ensures |Values(s)| <= |s|
  {
    if s != [] {
      ValuesLength(s[1..]);
    }
  }

  /** `decodeSize` is never exceeded. */
  lemma DecodedLength(s: Bytes)
    ensures |Decode(s)| <= DecodeSize(|s|)
  {
    ValuesLength(s);
    UnpackLength(Values(s));
  }

  /** The six-bit groups that some bytes have: no single one is left over, and the bits that fill no byte are zero. */
  predicate Whole(v: Bytes) {
    && |v| % 4 != 1
    && (|v| % 4 == 2 ==> v[|v| - 1] & 0x0F == 0)
    && (|v| % 4 == 3 ==> v[|v| - 1] & 0x03 == 0)
  }

  lemma WholeTail(v: Bytes)
    requires |v| >= 4
    ensures Whole(v) == Whole(v[4..])
  {}

  lemma PackGroup(v: Bytes)
    requires |v| >= 4
    ensures Unpack(v) == [High(v[0], v[1]), Middle(v[1], v[2]), Low(v[2], v[3])] + Unpack(v[4..])
    ensures Pack(Unpack(v)) ==
      [First(High(v[0], v[1])), Second(High(v[0], v[1]), Middle(v[1], v[2])),
       Third(Middle(v[1], v[2]), Low(v[2], v[3])), Fourth(Low(v[2], v[3]))] + Pack(Unpack(v[4..]))
  {
    hide First, Second, Third, Fourth, High, Middle, Low;
    assert Unpack(v)[3..] == Unpack(v[4..]);
  }

  lemma {:induction false} PackUnpack(v: Bytes)
    requires Sextets(v)
    ensures Pack(Unpack(v)) == v <==> Whole(v)
  {
    hide First, Second, Third, Fourth, High, Middle, Low, Whole;
    if |v| >= 4 {
      SextetBack(v[0], v[1], v[2], v[3]);
      PackUnpack(v[4..]);
      PackGroup(v);
      WholeTail(v);
      hide Pack, Unpack;
      assert v == [v[0], v[1], v[2], v[3]] + v[4..];
      assert Pack(Unpack(v))[4..] == Pack(Unpack(v[4..]));
    } else {
      FewUnpacked(v);
    }
  }

  lemma FewUnpacked(v: Bytes)
    requires |v| < 4 && Sextets(v)
    ensures Pack(Unpack(v)) == v <==> Whole(v)
  {
    hide First, Second, Third, Fourth, High, Middle, Low;
    if |v| == 3 {
      SextetBack(v[0], v[1], v[2], 0);
    } else if |v| == 2 {
      SextetBack(v[0], v[1], 0, 0);
    }
  }

  lemma {:induction false} CharsOfValues(url: bool, s: Bytes)
    ensures Chars(url, Values(s)) == s <==> forall i :: 0 <= i < |s| ==> InAlphabet(url, s[i])
    ensures Sextets(Values(s))
    ensures (forall i :: 0 <= i < |s| ==> InAlphabet(url, s[i])) ==> |Values(s)| == |s|
  {
    if s != [] {
      CharsOfValues(url, s[1..]);
      ValuesLength(s[1..]);
      if InAlphabet(url, s[0]) {
        CharOfValue(url, s[0]);
        assert Chars(url, Values(s)) == [s[0]] + Chars(url, Values(s[1..]));
        assert s == [s[0]] + s[1..];
      }
    }
  }

  /** A text is the URL form of the bytes it decodes to exactly when it has only its alphabet and whole groups. */
  lemma EncodeDecode(s: Bytes)
    ensures Encode(true, Decode(s)) == s <==> (forall i :: 0 <= i < |s| ==> InAlphabet(true, s[i])) && Whole(Values(s))
  {
    hide Char, Value, Whole, Pack, Unpack, Values;
    CharsOfValues(true, s);
    PackUnpack(Values(s));
    var v := Pack(Decode(s));
    UnpackPack(Decode(s));
    if Encode(true, Decode(s)) == s {
      assert Chars(true, v) == s;
      ValuesOfChars(true, v);
    }
  }

  /** The text without the padding characters at its end. */
  function Body(s: Bytes): (r: Bytes)
    ensures |r| <= |s|
  {
    if s != [] && s[|s| - 1] == 61 then Body(s[..|s| - 1]) else s
  }

  function Equals(n: nat): Bytes { seq(n, _ => 61) }

  lemma {:induction false} BodyOf(s: Bytes)
    ensures s == Body(s) + Equals(|s| - |Body(s)|) && (Body(s) == [] || Body(s)[|Body(s)| - 1] != 61)
  {
    if s != [] && s[|s| - 1] == 61 {
      BodyOf(s[..|s| - 1]);
      assert s == s[..|s| - 1] + [61];
    }
  }

  lemma {:induction false} BodyIs(t: Bytes, n: nat)
    requires t == [] || t[|t| - 1] != 61
    ensures Body(t + Equals(n)) == t
    decreases n
  {
    var s := t + Equals(n);
    if n == 0 {
      assert s == t;
    } else {
      assert s[..|s| - 1] == t + Equals(n - 1);
      BodyIs(t, n - 1);
    }
  }

  lemma CharsAreIn(url: bool, v: Bytes)
    requires Sextets(v)
    ensures forall i :: 0 <= i < |v| ==> InAlphabet(url, Chars(url, v)[i])
  {
    hide Char, InAlphabet;
    forall i | 0 <= i < |v| ensures InAlphabet(url, Chars(url, v)[i]) {
      ValueOfChar(url, v[i]);
    }
  }

  /** The padding fills the last group, if the body leaves no single character over. */
  lemma PaddingFills(v: Bytes, s: Bytes)
    requires |v| <= |s| <= |v| + 2 && |s| % 4 == 0
    ensures Padding(|Unpack(v)|) == Equals(|s| - |v|)
  {
    UnpackLength(v);
    hide Unpack;
    ThirdsOf(|v|, |Unpack(v)|);
  }

  lemma ThirdsOf(n: nat, k: nat)
    requires k == n / 4 * 3 + if n % 4 == 0 then 0 else n % 4 - 1
    ensures n % 4 != 1 ==> k % 3 == if n % 4 == 0 then 0 else n % 4 - 1
  {}

  lemma PaddingIs(n: nat)
    ensures Padding(n) == Equals(|Padding(n)|) && |Padding(n)| <= 2
  {}

  /**
   * A text is the padded form of the bytes it decodes to exactly when it has whole groups of four with at most two
   * padding characters, all at the end, otherwise only its alphabet, and zero filling bits.
   */
  lemma EncodeDecodePadded(s: Bytes)
    ensures Encode(false, Decode(s)) == s <==>
      |s| % 4 == 0 && |s| - |Body(s)| <= 2 && (forall i :: 0 <= i < |Body(s)| ==> InAlphabet(false, Body(s)[i])) && Whole(Values(s))
  {
    hide Char, Value, Whole, Pack, Unpack, Values, Padding, Body, Equals;
    var t, v := Body(s), Values(s);
    BodyValues(s);
    CharsOfValues(false, t);
    PackUnpack(v);
    if |s| % 4 == 0 && |s| - |t| <= 2 && (forall i :: 0 <= i < |t| ==> InAlphabet(false, t[i])) && Whole(v) {
      PaddingFills(v, s);
      BodyOf(s);
    }
    if Encode(false, Decode(s)) == s {
      WrittenBody(Decode(s));
      UnpackPack(Decode(s));
      EncodedLength(Decode(s));
      PaddingIs(|Decode(s)|);
      CharsAreIn(false, Pack(Decode(s)));
      ValuesOfChars(false, Pack(Decode(s)));
    }
  }

  lemma BodyValues(s: Bytes)
    ensures Values(s) == Values(Body(s))
  {
    hide Values, Body;
    BodyOf(s);
    var junk := Equals(|s| - |Body(s)|);
    ValuesOfJunk(junk);
    ValuesJoin(Body(s), junk);
  }

  lemma WrittenBody(b: Bytes)
    ensures Body(Encode(false, b)) == Chars(false, Pack(b))
  {
    hide Pack, Padding, Body, Equals, Char, Value;
    var t := Chars(false, Pack(b));
    UnpackPack(b);
    CharsAreIn(false, Pack(b));
    PaddingIs(|b|);
    assert Value(61) == MASKED by { NoPadding(); }
    BodyIs(t, |Padding(|b|)|);
  }

  lemma NoPadding()
    ensures Value(61) == MASKED
  {}

  /** The bits of a byte and of a six-bit group, the highest first. */
  function Bits8(x: Byte): seq<bool> {
    [x & 0x80 != 0, x & 0x40 != 0, x & 0x20 != 0, x & 0x10 != 0, x & 8 != 0, x & 4 != 0, x & 2 != 0, x & 1 != 0]
  }

  function Bits6(v: Byte): seq<bool> { [v & 0x20 != 0, v & 0x10 != 0, v & 8 != 0, v & 4 != 0, v & 2 != 0, v & 1 != 0] }

  function AllBits(b: Bytes, bits: Byte -> seq<bool>): seq<bool> { if b == [] then [] else bits(b[0]) + AllBits(b[1..], bits) }

  function Zeros(n: nat): seq<bool> { seq(n, _ => false) }

  lemma FirstBits(x: Byte)
    ensures Bits6(First(x)) == Bits8(x)[..6]
  {}

  lemma SecondBits(x: Byte, y: Byte)
    ensures Bits6(Second(x, y)) == Bits8(x)[6..] + Bits8(y)[..4]
  {
    SecondMask(x, y);
    Bits8Ends(x);
    Bits8Ends(y);
    hide Second, Bits8;
  }

  lemma Bits8Ends(x: Byte)
    ensures Bits8(x)[6..] == [x & 2 != 0, x & 1 != 0]
    ensures Bits8(x)[..4] == [x & 0x80 != 0, x & 0x40 != 0, x & 0x20 != 0, x & 0x10 != 0]
  {}

  lemma SecondMask(x: Byte, y: Byte)
    ensures Second(x, y) & 0x20 == (x & 2) << 4 && Second(x, y) & 0x10 == (x & 1) << 4
    ensures Second(x, y) & 8 == (y & 0x80) >> 4 && Second(x, y) & 4 == (y & 0x40) >> 4
    ensures Second(x, y) & 2 == (y & 0x20) >> 4 && Second(x, y) & 1 == (y & 0x10) >> 4
  {}

  lemma ThirdBits(y: Byte, z: Byte)
    ensures Bits6(Third(y, z)) == Bits8(y)[4..] + Bits8(z)[..2]
  {}

  lemma FourthBits(z: Byte)
    ensures Bits6(Fourth(z)) == Bits8(z)[2..]
  {}

  lemma Regroup(x: seq<bool>, y: seq<bool>, z: seq<bool>)
    requires |x| == |y| == |z| == 8
    ensures x[..6] + ((x[6..] + y[..4]) + ((y[4..] + z[..2]) + z[2..])) == x + (y + z)
    ensures x[..6] + (x[6..] + Zeros(8)[..4]) == x + Zeros(4)
    ensures x[..6] + ((x[6..] + y[..4]) + (y[4..] + Zeros(8)[..2])) == x + (y + Zeros(2))
  {}

  lemma GroupBits(x: Byte, y: Byte, z: Byte)
    ensures Bits6(First(x)) + (Bits6(Second(x, y)) + (Bits6(Third(y, z)) + Bits6(Fourth(z)))) == Bits8(x) + (Bits8(y) + Bits8(z))
    ensures Bits6(First(x)) + Bits6(Second(x, 0)) == Bits8(x) + Zeros(4)
    ensures Bits6(First(x)) + (Bits6(Second(x, y)) + Bits6(Third(y, 0))) == Bits8(x) + (Bits8(y) + Zeros(2))
  {
    FirstBits(x);
    SecondBits(x, y);
    ThirdBits(y, z);
    FourthBits(z);
    SecondBits(x, 0);
    ThirdBits(y, 0);
    assert Bits8(0) == Zeros(8) && |Bits8(x)| == |Bits8(y)| == |Bits8(z)| == 8;
    hide First, Second, Third, Fourth, Bits6, Bits8;
    Regroup(Bits8(x), Bits8(y), Bits8(z));
  }

  lemma AllBitsOf(b: Bytes, bits: Byte -> seq<bool>)
    ensures |b| >= 1 ==> AllBits(b, bits) == bits(b[0]) + AllBits(b[1..], bits)
    ensures |b| >= 2 ==> AllBits(b, bits) == bits(b[0]) + (bits(b[1]) + AllBits(b[2..], bits))
    ensures |b| >= 3 ==> AllBits(b, bits) == bits(b[0]) + (bits(b[1]) + (bits(b[2]) + AllBits(b[3..], bits)))
    ensures |b| >= 4 ==> AllBits(b, bits) == bits(b[0]) + (bits(b[1]) + (bits(b[2]) + (bits(b[3]) + AllBits(b[4..], bits))))
  {
    assert |b| >= 2 ==> b[1..][1..] == b[2..];
    assert |b| >= 3 ==> b[2..][1..] == b[3..];
    assert |b| >= 4 ==> b[3..][1..] == b[4..];
  }

  lemma NoBits(bits: Byte -> seq<bool>)
    ensures forall b: Bytes, s: seq<bool> :: b == [] ==> s + AllBits(b, bits) == s
  {}

  function Fill(n: nat): seq<bool> { Zeros(if n % 3 == 1 then 4 else if n % 3 == 2 then 2 else 0) }

  lemma Regrouped(x: seq<bool>, y: seq<bool>, z: seq<bool>, r: seq<bool>)
    ensures x + (y + (z + r)) == (x + (y + z)) + r
  {}

  lemma Regrouped4(a: seq<bool>, b: seq<bool>, c: seq<bool>, d: seq<bool>, r: seq<bool>)
    ensures a + (b + (c + (d + r))) == (a + (b + (c + d))) + r
  {}

  lemma FewBits(b: Bytes)
    requires |b| < 3
    ensures AllBits(Pack(b), Bits6) == AllBits(b, Bits8) + Fill(|b|)
  {
    AllBitsOf(b, Bits8);
    AllBitsOf(Pack(b), Bits6);
    NoBits(Bits6);
    NoBits(Bits8);
    if |b| > 0 {
      GroupBits(b[0], b[|b| - 1], 0);
    }
    hide First, Second, Third, Fourth, Bits6, Bits8, AllBits, Zeros;
    if |b| == 2 {
      Regrouped(Bits8(b[0]), Bits8(b[1]), [], Zeros(2));
    }
  }

  /** Section 4 of RFC 4648: the groups are the bits of the bytes in order, filled up with zero bits to a whole group. */
  lemma {:induction false} PackIsBits(b: Bytes)
    ensures AllBits(Pack(b), Bits6) == AllBits(b, Bits8) + Fill(|b|)
  {
    if |b| < 3 {
      FewBits(b);
    } else {
      PackIsBits(b[3..]);
      GroupIsBits(b);
      assert Fill(|b|) == Fill(|b[3..]|);
      var head := Bits8(b[0]) + (Bits8(b[1]) + Bits8(b[2]));
      hide *;
      assert head + (AllBits(b[3..], Bits8) + Fill(|b|)) == (head + AllBits(b[3..], Bits8)) + Fill(|b|);
    }
  }

  lemma GroupIsBits(b: Bytes)
    requires |b| >= 3
    ensures AllBits(Pack(b), Bits6) == (Bits8(b[0]) + (Bits8(b[1]) + Bits8(b[2]))) + AllBits(Pack(b[3..]), Bits6)
    ensures AllBits(b, Bits8) == (Bits8(b[0]) + (Bits8(b[1]) + Bits8(b[2]))) + AllBits(b[3..], Bits8)
  {
    AllBitsOf(b, Bits8);
    AllBitsOf(Pack(b), Bits6);
    assert Pack(b)[4..] == Pack(b[3..]);
    GroupBits(b[0], b[1], b[2]);
    hide First, Second, Third, Fourth, Bits6, Bits8, AllBits, Zeros;
    Regrouped4(Bits6(First(b[0])), Bits6(Second(b[0], b[1])), Bits6(Third(b[1], b[2])), Bits6(Fourth(b[2])),
      AllBits(Pack(b[3..]), Bits6));
    Regrouped(Bits8(b[0]), Bits8(b[1]), Bits8(b[2]), AllBits(b[3..], Bits8));
  }

  /* ---- section 10 of RFC 4648 ---- */

  function Ascii(s: string): Bytes
    requires forall i :: 0 <= i < |s| ==> s[i] < 128 as char
  {
    seq(|s|, i requires 0 <= i < |s| => (s[i] as int) as Byte)
  }

  lemma EncodesOne()
    ensures Encode(false, [0x66]) == Ascii("Zg==") && Encode(true, [0x66]) == Ascii("Zg")
  {
    hide Encode;
    Tail(false, [0x66]);
    Tail(true, [0x66]);
    assert First(0x66) == 25 && (0x66 & 0x03) << 4 == 32 as Byte;
    CharsAre();
    assert Ascii("Zg==") == [90] + [103] + ([61] + [61]) && Ascii("Zg") == [90] + [103] + [];
  }

  lemma EncodesTwo()
    ensures Encode(false, [0x66, 0x6F]) == Ascii("Zm8=") && Encode(true, [0x66, 0x6F]) == Ascii("Zm8")
  {
    hide Encode;
    Tail(false, [0x66, 0x6F]);
    Tail(true, [0x66, 0x6F]);
    assert First(0x66) == 25 && Second(0x66, 0x6F) == 38 && (0x6F & 0x0F) << 2 == 60 as Byte;
    CharsAre();
    assert Ascii("Zm8=") == [90] + [109] + [56] + [61] && Ascii("Zm8") == [90] + [109] + [56] + [];
  }

  lemma CharsAre()
    ensures forall url :: Char(url, 25) == 90 && Char(url, 32) == 103 && Char(url, 38) == 109 && Char(url, 60) == 56
  {}

  lemma EncodesThree()
    ensures Encode(false, [0x66, 0x6F, 0x6F]) == Ascii("Zm9v")
  {
  }
}
