/** What the converters between UTF-8 and UTF-16 promise together. */
module UnicodeLaws {
  import opened Unicode

  predicate NoZero(w: seq<Unit>) { forall i :: 0 <= i < |w| ==> w[i] != 0 }

  lemma OneByte(c: Unit)
    requires c < 0x80
    ensures var b := c as bv8; Cut(Lead(b)) == c && (c != 0 ==> Length(b) == 1 == Valid(b)) && (b == 0 <==> c == 0)
  {}

  lemma TwoBytes(c: Unit)
    requires 0x80 <= c < 0x800
    ensures var b := EncodeUnit(c);
      |b| == 2 && 0xC2 <= b[0] && Length(b[0]) == 2 == Valid(b[0]) && Continues(b[1]) && Cut(Shifted(Lead(b[0]), b[1])) == c
  {}

  lemma ThreeParts(c: Unit)
    requires 0x800 <= c
    ensures Lead((0xE0 | (c >> 12)) as bv8) == (c >> 12) as bv32
    ensures Shifted((c >> 12) as bv32, (0x80 | ((c >> 6) & 0x3F)) as bv8) == (c >> 6) as bv32
    ensures Shifted((c >> 6) as bv32, (0x80 | (c & 0x3F)) as bv8) == c as bv32
    ensures Cut(c as bv32) == c
  {}

  lemma ThreeBytes(c: Unit)
    requires 0x800 <= c
    ensures var b := EncodeUnit(c);
      |b| == 3 && Length(b[0]) == 3 == Valid(b[0]) && Continues(b[1]) && Continues(b[2]) &&
      (b[0] > 0xE0 || b[1] >= 0xA0) && Cut(Shifted(Shifted(Lead(b[0]), b[1]), b[2])) == c
  {
    ThreeParts(c);
    hide Lead, Shifted, Cut;
  }

  /** Section 3 of RFC 3629: the free bits of the bytes of a symbol, in order. */
  function OneFree(a: Byte): Unit { (a & 0x7F) as bv16 }

  function TwoFree(a: Byte, b: Byte): Unit { ((a & 0x1F) as bv16 << 6) | ((b & 0x3F) as bv16) }

  function ThreeFree(a: Byte, b: Byte, c: Byte): Unit {
    ((a & 0x0F) as bv16 << 12) | ((b & 0x3F) as bv16 << 6) | ((c & 0x3F) as bv16)
  }

  /** The bytes of a unit have the marks of that section, and the bits of the unit between them. */
  lemma EncodedBits(c: Unit)
    ensures var b := EncodeUnit(c);
      if c < 0x80 then |b| == 1 && b[0] < 0x80 && OneFree(b[0]) == c
      else if c < 0x800 then |b| == 2 && b[0] & 0xE0 == 0xC0 && b[1] & 0xC0 == 0x80 && TwoFree(b[0], b[1]) == c
      else
        |b| == 3 && b[0] & 0xF0 == 0xE0 && b[1] & 0xC0 == 0x80 && b[2] & 0xC0 == 0x80 && ThreeFree(b[0], b[1], b[2]) == c
  {
    hide OneFree, TwoFree, ThreeFree;
    if c < 0x80 { EncodedOne(c); } else if c < 0x800 { EncodedTwo(c); } else { EncodedThree(c); }
  }

  lemma EncodedOne(c: Unit)
    requires c < 0x80
    ensures var a := c as bv8; a < 0x80 && OneFree(a) == c
  {
  }

  lemma EncodedTwo(c: Unit)
    requires 0x80 <= c < 0x800
    ensures var a, b := (0xC0 | (c >> 6)) as bv8, (0x80 | (c & 0x3F)) as bv8; a & 0xE0 == 0xC0 && b & 0xC0 == 0x80 && TwoFree(a, b) == c
  {
  }

  lemma EncodedThree(c: Unit)
    requires 0x800 <= c
    ensures var x, y, z := (0xE0 | (c >> 12)) as bv8, (0x80 | ((c >> 6) & 0x3F)) as bv8, (0x80 | (c & 0x3F)) as bv8;
      x & 0xF0 == 0xE0 && y & 0xC0 == 0x80 && z & 0xC0 == 0x80 && ThreeFree(x, y, z) == c
  {
  }

  /** The length is told by the marks of the first byte: that many ones and a zero, or no mark; other bytes count as one. */
  lemma LengthBits(b: Byte)
    ensures Length(b) == 0 <==> b == 0
    ensures Length(b) == 2 <==> b & 0xE0 == 0xC0
    ensures Length(b) == 3 <==> b & 0xF0 == 0xE0
    ensures Length(b) == 4 <==> b & 0xF8 == 0xF0
    ensures Length(b) == 5 <==> b & 0xFC == 0xF8
    ensures Length(b) == 6 <==> b & 0xFE == 0xFC
    ensures Length(b) <= 6 && (Valid(b) == if b & 0xC0 == 0x80 || b >= 0xFE then 0 else Length(b))
  {
  }

  /** Validity goes symbol by symbol to the end or a zero byte: a byte that may come first, and as many behind it as it announces. */
  lemma ShapeBits(t: Text, i: nat)
    ensures i >= |t.bytes| || t.bytes[i] == 0 ==> WellShaped(t, i)
    ensures i < |t.bytes| && t.bytes[i] != 0 ==> var n := Valid(t.bytes[i]);
      WellShaped(t, i) <==> n > 0 && (forall k :: i < k < i + n ==> t.At(k) & 0xC0 == 0x80) && WellShaped(t, i + n)
  {
    hide Valid, Text.At;
    if i < |t.bytes| && t.bytes[i] != 0 {
      var n := Valid(t.bytes[i]);
      assert n > 0 ==> (AllContinue(t, i, n - 1) <==> forall k :: i < k < i + n ==> Continues(t.At(k)));
      assert (forall k :: i < k < i + n ==> Continues(t.At(k))) <==> forall k :: i < k < i + n ==> t.At(k) & 0xC0 == 0x80;
    }
  }

  /** The symbol of any text, by its bits: all bytes of it have to go on, and a longer one is a space. */
  lemma SymbolBits(t: Text, i: nat)
    ensures var a, b, c, n := t.At(i), t.At(i + 1), t.At(i + 2), Length(t.At(i));
      Symbol(t, i) ==
        if n > 3 then 0x20
        else if n == 3 then (if b & 0xC0 == 0x80 && c & 0xC0 == 0x80 then ThreeFree(a, b, c) else 0)
        else if n == 2 then (if b & 0xC0 == 0x80 then TwoFree(a, b) else 0)
        else OneFree(a)
  {
    hide Gather, Symbol, Text.At, Length, Cut, Shifted, Lead, OneFree, TwoFree, ThreeFree;
    SymbolIs(t, i);
    var a, b, c, n := t.At(i), t.At(i + 1), t.At(i + 2), Length(t.At(i));
    if n < 2 { LeadBits(a); } else if n == 2 { TwoBits(a, b); } else if n == 3 { ThreeBits(a, b, c); }
  }

  lemma LeadBits(a: Byte)
    requires Length(a) < 2
    ensures Cut(Lead(a)) == OneFree(a)
  {
  }

  lemma TwoBits(a: Byte, b: Byte)
    requires Length(a) == 2
    ensures Cut(Shifted(Lead(a), b)) == TwoFree(a, b)
  {
  }

  lemma ThreeBits(a: Byte, b: Byte, c: Byte)
    requires Length(a) == 3
    ensures Cut(Shifted(Shifted(Lead(a), b), c)) == ThreeFree(a, b, c)
  {
  }

  lemma OneBack(b: Byte)
    requires Length(b) == 1
    ensures EncodeUnit(Cut(Lead(b))) == [b] <==> b < 0x80
    ensures b >= 0x80 ==> EncodeUnit(Cut(Lead(b)))[0] < 0x80
  {}

  lemma TwoBack(b: Byte, k: Byte)
    requires Length(b) == 2 && Continues(k)
    ensures var c := Cut(Shifted(Lead(b), k)); if b >= 0xC2 then EncodeUnit(c) == [b, k] else EncodeUnit(c)[0] < 0x80
  {}

  lemma ThreeBack(b: Byte, k: Byte, l: Byte)
    requires Length(b) == 3 && Continues(k) && Continues(l)
    ensures var c := Cut(Shifted(Shifted(Lead(b), k), l));
      if b > 0xE0 || k >= 0xA0 then EncodeUnit(c) == [b, k, l] else EncodeUnit(c)[0] < 0xE0
  {}

  /** The symbol at `i` by the number of its bytes. */
  lemma SymbolIs(t: Text, i: nat)
    ensures var b, n := t.At(i), Length(t.At(i));
      Symbol(t, i) ==
        if n > 3 then 0x20
        else if n < 2 then Cut(Lead(b))
        else if !Continues(t.At(i + 1)) then 0
        else if n == 2 then Cut(Shifted(Lead(b), t.At(i + 1)))
        else if !Continues(t.At(i + 2)) then 0
        else Cut(Shifted(Shifted(Lead(b), t.At(i + 1)), t.At(i + 2)))
  {
    hide Continues, Shifted, Lead, Cut, Length, Text.At;
    assert Cut(0) == 0 by { CutZero(); }
    var b, n := t.At(i), Length(t.At(i));
    if n == 3 && Continues(t.At(i + 1)) {
      assert Gather(t, i, 1, 3, Lead(b)) == Gather(t, i, 2, 3, Shifted(Lead(b), t.At(i + 1)));
    }
  }

  lemma CutZero()
    ensures Cut(0) == 0
  {}

  /** The bytes of one unit, where they stand in a text. */
  lemma UnitAt(t: Text, i: nat, c: Unit)
    requires i + |EncodeUnit(c)| <= |t.bytes| && t.bytes[i..i + |EncodeUnit(c)|] == EncodeUnit(c)
    ensures Symbol(t, i) == c && (c != 0 ==> Length(t.bytes[i]) == |EncodeUnit(c)|) && (t.bytes[i] == 0 <==> c == 0)
    ensures c != 0 ==> Valid(t.bytes[i]) == |EncodeUnit(c)| && AllContinue(t, i, |EncodeUnit(c)| - 1) && CanonicalAt(t.bytes, i)
  {
    hide Continues, Shifted, Lead, Cut, Gather, Symbol;
    SymbolIs(t, i);
    var b := EncodeUnit(c);
    assert t.bytes[i..i + |b|][0] == t.bytes[i];
    if c < 0x80 {
      OneByte(c);
    } else if c < 0x800 {
      assert t.bytes[i..i + 2][1] == t.bytes[i + 1];
      TwoBytes(c);
    } else {
      assert t.bytes[i..i + 3][1] == t.bytes[i + 1] && t.bytes[i..i + 3][2] == t.bytes[i + 2];
      ThreeBytes(c);
    }
  }

  /** A symbol of one to three bytes in its shortest form; these are the units of UTF-16. */
  predicate CanonicalAt(s: seq<Byte>, i: nat)
    requires i < |s|
  {
    var n := Length(s[i]);
    && 1 <= n <= 3 && i + n <= |s|
    && (n == 1 ==> s[i] < 0x80)
    && (n == 2 ==> s[i] >= 0xC2 && Continues(s[i + 1]))
    && (n == 3 ==> Continues(s[i + 1]) && Continues(s[i + 2]) && (s[i] > 0xE0 || s[i + 1] >= 0xA0))
  }

  predicate Canonical(s: seq<Byte>, i: nat)
    decreases |s| - i
  {
    i >= |s| || (CanonicalAt(s, i) && Canonical(s, i + Length(s[i])))
  }

  /** Reading what `toUtf8` has written, from any place on; it can be read to the end if and only if no unit is zero. */
  lemma {:induction false} DecodeFrom(t: Text, i: nat, w: seq<Unit>)
    requires i <= |t.bytes| && t.bytes[i..] == ToUtf8(w)
    ensures Ends(t, i) <==> NoZero(w)
    ensures NoZero(w) ==> Units(t, i) == w && Canonical(t.bytes, i)
    ensures WellShaped(t, i)
    decreases |w|
  {
    hide EncodeUnit, Symbol, AllContinue, CanonicalAt, Valid, Length;
    if w != [] {
      var b := EncodeUnit(w[0]);
      var next := i + |b|;
      assert t.bytes[i..][..|b|] == b && t.bytes[i..next] == t.bytes[i..][..|b|];
      assert t.bytes[next..] == t.bytes[i..][|b|..] == ToUtf8(w[1..]);
      assert |b| >= 1 by { EncodeLengthIs(w[0]); }
      UnitAt(t, i, w[0]);
      if w[0] != 0 {
        assert NoZero(w) <==> NoZero(w[1..]);
        DecodeFrom(t, next, w[1..]);
      }
    }
  }

  lemma EncodeLengthIs(c: Unit)
    ensures |EncodeUnit(c)| == EncodeLength(c) >= 1
  {}

  /** Whatever memory holds behind the text: a string without zero units comes back, and is valid; one with a zero never does. */
  lemma RoundTrip(w: seq<Unit>, beyond: nat -> Byte)
    ensures var t := Text(ToUtf8(w), beyond);
      WellShaped(t, 0) && (Ends(t, 0) <==> NoZero(w)) && (Ends(t, 0) ==> Units(t, 0) == w && Symbols(t, 0) == |w|)
  {
    var t := Text(ToUtf8(w), beyond);
    assert t.bytes[0..] == ToUtf8(w);
    DecodeFrom(t, 0, w);
    if Ends(t, 0) {
      LengthIsPredicted(t, 0);
    }
  }

  /** `getUtf16Length` predicts the length that `toUtf16` gives, for every text that can be read to the end. */
  lemma {:induction false} LengthIsPredicted(t: Text, i: nat)
    requires Ends(t, i)
    ensures Symbols(t, i) == |Units(t, i)|
    decreases |t.bytes| - i
  {
    hide Length, Symbol;
    if i < |t.bytes| {
      assert Length(t.bytes[i]) > 0 by { LengthIsPositive(t.bytes[i]); }
      LengthIsPredicted(t, i + Length(t.bytes[i]));
    }
  }

  lemma LengthIsPositive(b: Byte)
    ensures Length(b) > 0 <==> b != 0
  {}

  /** The first byte written for the symbol at `i` is the byte that is there exactly when the symbol is canonical. */
  lemma SymbolBack(t: Text, i: nat)
    requires i < |t.bytes| && t.bytes[i] != 0
    ensures var b := EncodeUnit(Symbol(t, i));
      if CanonicalAt(t.bytes, i) then b == t.bytes[i..i + Length(t.bytes[i])]
      else i + |b| > |t.bytes| || b != t.bytes[i..i + |b|]
  {
    SymbolIs(t, i);
    var b, n := t.bytes[i], Length(t.bytes[i]);
    if n == 1 {
      OneBack(b);
    } else if n == 2 && Continues(t.At(i + 1)) {
      TwoBack(b, t.At(i + 1));
    } else if n == 3 && Continues(t.At(i + 1)) && Continues(t.At(i + 2)) {
      ThreeBack(b, t.At(i + 1), t.At(i + 2));
    }
    hide Symbol, Continues, Shifted, Lead, Cut;
  }

  /** A text comes back from UTF-16 exactly when all its symbols are canonical. */
  lemma {:induction false} BackAgain(t: Text, i: nat)
    requires Ends(t, i) && i <= |t.bytes|
    ensures ToUtf8(Units(t, i)) == t.bytes[i..] <==> Canonical(t.bytes, i)
    decreases |t.bytes| - i
  {
    hide EncodeUnit, Symbol, Length, CanonicalAt;
    if i < |t.bytes| {
      var b, next := EncodeUnit(Symbol(t, i)), i + Length(t.bytes[i]);
      SymbolBack(t, i);
      LengthIsPositive(t.bytes[i]);
      var rest := ToUtf8(Units(t, next));
      assert Units(t, i)[1..] == Units(t, next);
      assert ToUtf8(Units(t, i)) == b + rest;
      if CanonicalAt(t.bytes, i) {
        CanonicalFits(t.bytes, i);
        BackAgain(t, next);
      }
      Leads(t.bytes, i, b, rest);
    }
  }

  /** Bytes that start with `b` continue behind it. */
  lemma Leads(s: seq<Byte>, i: nat, b: seq<Byte>, rest: seq<Byte>)
    requires i <= |s|
    ensures b + rest == s[i..] <==> i + |b| <= |s| && b == s[i..i + |b|] && rest == s[i + |b|..]
  {
    if i + |b| <= |s| {
      assert s[i..] == s[i..i + |b|] + s[i + |b|..];
      if b != s[i..i + |b|] {
        var k :| 0 <= k < |b| && b[k] != s[i..i + |b|][k];
        assert (b + rest)[k] != s[i..][k];
      } else if rest != s[i + |b|..] && |rest| == |s| - i - |b| {
        var k :| 0 <= k < |rest| && rest[k] != s[i + |b|..][k];
        assert (b + rest)[|b| + k] != s[i..][|b| + k];
      }
    }
  }

  lemma CanonicalFits(s: seq<Byte>, i: nat)
    requires i < |s| && CanonicalAt(s, i)
    ensures i + Length(s[i]) <= |s|
  {}

  /** A symbol of four bytes is valid, and is a space in UTF-16. */
  lemma ValidButLost(beyond: nat -> Byte)
    ensures var t := Text([0xF0, 0x9F, 0x98, 0x80], beyond);
      WellShaped(t, 0) && Ends(t, 0) && Units(t, 0) == [0x20] && !Canonical(t.bytes, 0)
  {
    var t := Text([0xF0, 0x9F, 0x98, 0x80], beyond);
    assert AllContinue(t, 0, 3) by {
      assert Continues(t.At(1)) && Continues(t.At(2)) && Continues(t.At(3));
    }
    assert WellShaped(t, 4) && Ends(t, 4) && Units(t, 4) == [];
    assert Valid(t.bytes[0]) == 4 == Length(t.bytes[0]);
  }

  /** Two bytes on which the loop of `toUtf16` never ends. */
  lemma ZeroNeverEnds(beyond: nat -> Byte)
    ensures var t := Text([0x61, 0], beyond); !Ends(t, 0) && Symbols(t, 0) == 1
  {
    var t := Text([0x61, 0], beyond);
    assert !Ends(t, 1) && Symbols(t, 1) == 0;
  }

  /** The first example of section 7 of RFC 3629. */
  lemma EncodesExample()
    ensures ToUtf8([0x0041, 0x2262, 0x0391, 0x002E]) == [0x41, 0xE2, 0x89, 0xA2, 0xCE, 0x91, 0x2E]
  {
    assert ToUtf8([0x002E]) == [0x2E];
    assert ToUtf8([0x0391, 0x002E]) == [0xCE, 0x91] + ToUtf8([0x002E]);
    assert ToUtf8([0x2262, 0x0391, 0x002E]) == [0xE2, 0x89, 0xA2] + ToUtf8([0x0391, 0x002E]);
  }
}
