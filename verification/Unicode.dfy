/** UTF-8 and UTF-16: `SPUnicode.h`, `SPUnicode.cc` and the converters of `SPString.h`. */
module Unicode {
  type Byte = bv8

  type Unit = bv16

  /** A string view: its bytes, and whatever memory holds behind them. */
  datatype Text = Text(bytes: seq<Byte>, beyond: nat -> Byte) {
    function At(i: nat): Byte { if i < |bytes| then bytes[i] else beyond(i - |bytes|) }
  }

  /** `utf8_length_data` */
  function Length(b: Byte): nat {
    if b == 0 then 0
    else if b < 0xC0 || b >= 0xFE then 1
    else if b < 0xE0 then 2
    else if b < 0xF0 then 3
    else if b < 0xF8 then 4
    else if b < 0xFC then 5
    else 6
  }

  /** `utf8_length_mask` */
  function Mask(b: Byte): Byte {
    if b == 0 then 0
    else if b < 0xC0 || b >= 0xFE then 0x7F
    else if b < 0xE0 then 0x1F
    else if b < 0xF0 then 0x0F
    else if b < 0xF8 then 0x07
    else if b < 0xFC then 0x03
    else 0x01
  }

  /** `utf8_valid_data` */
  function Valid(b: Byte): nat {
    if b == 0 || 0x80 <= b < 0xC0 || b >= 0xFE then 0 else Length(b)
  }

  predicate Continues(b: Byte) { b & 0xC0 == 0x80 }

  /** `ret <<= 6; ret |= (b & 0x3f);` */
  function Shifted(ret: bv32, b: Byte): bv32 { (ret << 6) | ((b & 0x3F) as bv32) }

  function Lead(b: Byte): bv32 { (b & Mask(b)) as bv32 }

  /** The cast to `char16_t`. */
  function Cut(ret: bv32): Unit { (ret & 0xFFFF) as bv16 }

  /** The value so far with the continuation bytes from the `c`th on; a byte that does not continue makes it zero. */
  function Gather(t: Text, i: nat, c: nat, len: nat, ret: bv32): bv32
    decreases len - c
  {
    if c >= len then ret
    else if !Continues(t.At(i + c)) then 0
    else Gather(t, i, c + 1, len, Shifted(ret, t.At(i + c)))
  }

  /** The symbol that starts at `i`; one that needs more than sixteen bits is a space. */
  function Symbol(t: Text, i: nat): Unit {
    var b := t.At(i);
    if Length(b) > 3 then 0x20 else Cut(Gather(t, i, 1, Length(b), Lead(b)))
  }

  /** `utf8Decode`: the symbol and its length. */
  method Utf8Decode(t: Text, i: nat) returns (symbol: Unit, offset: nat)
    ensures symbol == Symbol(t, i) && offset == Length(t.At(i))
  {
    hide Continues, Shifted, Length, Lead, Cut, Text.At;
    var b := t.At(i);
    offset := Length(b);
    var ret := Lead(b);
    var c := 1;
    while c < offset
      invariant Gather(t, i, c, offset, ret) == Gather(t, i, 1, offset, Lead(b))
      decreases offset - c
    {
      if !Continues(t.At(i + c)) {
        ret := 0;
        break;
      }
      ret := Shifted(ret, t.At(i + c));
      c := c + 1;
    }
    symbol := if offset > 3 then 0x20 else Cut(ret);
  }

  function EncodeUnit(c: Unit): seq<Byte> {
    if c < 0x80 then [c as bv8]
    else if c < 0x800 then [(0xC0 | (c >> 6)) as bv8, (0x80 | (c & 0x3F)) as bv8]
    else [(0xE0 | (c >> 12)) as bv8, (0x80 | ((c >> 6) & 0x3F)) as bv8, (0x80 | (c & 0x3F)) as bv8]
  }

  function ToUtf8(w: seq<Unit>): seq<Byte> { if w == [] then [] else EncodeUnit(w[0]) + ToUtf8(w[1..]) }

  /** Reading symbol by symbol reaches the end; it does not when a zero byte stands where a symbol should start. */
  predicate Ends(t: Text, i: nat)
    decreases |t.bytes| - i
  {
    i >= |t.bytes| || (t.bytes[i] != 0 && Ends(t, i + Length(t.bytes[i])))
  }

  function Units(t: Text, i: nat): seq<Unit>
    requires Ends(t, i)
    decreases |t.bytes| - i
  {
    if i >= |t.bytes| then [] else [Symbol(t, i)] + Units(t, i + Length(t.bytes[i]))
  }

  /** `utf8Encode(str, c)` */
  method Utf8Encode(str: seq<Byte>, c: Unit) returns (r: seq<Byte>)
    ensures r == str + EncodeUnit(c)
  {
    if c < 0x80 {
      r := str + [c as bv8];
    } else if c < 0x800 {
      r := str + [(0xC0 | (c >> 6)) as bv8];
      r := r + [(0x80 | (c & 0x3F)) as bv8];
    } else {
      r := str + [(0xE0 | (c >> 12)) as bv8];
      r := r + [(0x80 | ((c >> 6) & 0x3F)) as bv8];
      r := r + [(0x80 | (c & 0x3F)) as bv8];
    }
  }

  /** `toUtf8` */
  method MakeUtf8(str: seq<Unit>) returns (ret: seq<Byte>)
    ensures ret == ToUtf8(str)
  {
    hide EncodeUnit;
    ret := [];
    var ptr := 0;
    assert str[0..] == str;
    while ptr < |str|
      invariant ptr <= |str| && ret + ToUtf8(str[ptr..]) == ToUtf8(str)
    {
      assert str[ptr..][1..] == str[ptr + 1..];
      ret := Utf8Encode(ret, str[ptr]);
      ptr := ptr + 1;
    }
  }

  /** How many symbols are read before the end or a zero byte. */
  function Symbols(t: Text, i: nat): nat
    decreases |t.bytes| - i
  {
    if i >= |t.bytes| || t.bytes[i] == 0 then 0 else 1 + Symbols(t, i + Length(t.bytes[i]))
  }

  /** One symbol of a text. */
  lemma OneSymbol(t: Text, i: nat)
    ensures i >= |t.bytes| ==> Ends(t, i) && Units(t, i) == [] && Symbols(t, i) == 0
    ensures i < |t.bytes| && t.bytes[i] == 0 ==> !Ends(t, i) && Length(t.At(i)) == 0 && Symbols(t, i) == 0
    ensures i < |t.bytes| && t.bytes[i] != 0 ==> Length(t.At(i)) > 0
    ensures i < |t.bytes| && t.bytes[i] != 0 ==> var n := i + Length(t.At(i));
      && Ends(t, i) == Ends(t, n) && Symbols(t, i) == 1 + Symbols(t, n)
      && (Ends(t, i) ==> Units(t, i) == [Symbol(t, i)] + Units(t, n))
  {
    hide Symbol;
  }

  lemma SymbolsLeft(t: Text, i: nat)
    ensures Ends(t, i) && i < |t.bytes| ==> Symbols(t, i) > 0
  {}

  /** `toUtf16`: for a text that it can read to the end. */
  method MakeUtf16(str: Text) returns (ret: seq<Unit>)
    requires Ends(str, 0)
    ensures ret == Units(str, 0)
  {
    hide *;
    ret := [];
    var ptr: nat := 0;
    while ptr < |str.bytes|
      invariant Ends(str, ptr) && ret + Units(str, ptr) == Units(str, 0)
      decreases |str.bytes| - ptr
    {
      OneSymbol(str, ptr);
      var symbol, len := Utf8Decode(str, ptr);
      ret := ret + [symbol];
      ptr := ptr + len;
    }
    OneSymbol(str, ptr);
  }

  /**
   * At most `rounds` rounds of the loop of `toUtf16`, on any text. The loop ends after some number of rounds exactly if the
   * text can be read to the end; it takes one for each symbol then.
   */
  method Utf16Rounds(str: Text, rounds: nat) returns (ret: seq<Unit>, done: bool)
    ensures done <==> Ends(str, 0) && Symbols(str, 0) <= rounds
    ensures if done then ret == Units(str, 0) else |ret| == rounds
  {
    hide *;
    ret := [];
    var ptr: nat := 0;
    while ptr < |str.bytes| && |ret| < rounds
      invariant Ends(str, ptr) == Ends(str, 0) && |ret| <= rounds
      invariant Ends(str, 0) ==> |ret| + Symbols(str, ptr) == Symbols(str, 0) && ret + Units(str, ptr) == Units(str, 0)
      decreases rounds - |ret|
    {
      OneSymbol(str, ptr);
      var symbol, len := Utf8Decode(str, ptr);
      ret := ret + [symbol];
      ptr := ptr + len;
    }
    OneSymbol(str, ptr);
    SymbolsLeft(str, ptr);
    done := ptr >= |str.bytes|;
  }

  /** `getUtf16Length` */
  method GetUtf16Length(input: Text) returns (counter: nat)
    ensures counter == Symbols(input, 0)
  {
    counter := 0;
    var ptr := 0;
    while ptr < |input.bytes| && input.bytes[ptr] != 0
      invariant counter + Symbols(input, ptr) == Symbols(input, 0)
      decreases |input.bytes| - ptr
    {
      ptr := ptr + Length(input.bytes[ptr]);
      counter := counter + 1;
    }
  }

  /** `utf8EncodeLength` */
  function EncodeLength(c: Unit): nat { if c < 0x80 then 1 else if c < 0x800 then 2 else 3 }

  /** `getUtf8Length`: the predicted length is that of the encoding. */
  method GetUtf8Length(str: seq<Unit>) returns (ret: nat)
    ensures ret == |ToUtf8(str)|
  {
    ret := 0;
    var ptr := 0;
    assert str[0..] == str;
    while ptr < |str|
      invariant ptr <= |str| && ret + |ToUtf8(str[ptr..])| == |ToUtf8(str)|
    {
      assert str[ptr..][1..] == str[ptr + 1..];
      ret := ret + EncodeLength(str[ptr]);
      ptr := ptr + 1;
    }
  }

  /** The `n` bytes behind position `i` all continue a symbol. */
  predicate AllContinue(t: Text, i: nat, n: nat) { forall k :: i < k <= i + n ==> Continues(t.At(k)) }

  /** Up to the end or a zero byte, the text is lead bytes, each with the continuation bytes that it announces. */
  predicate WellShaped(t: Text, i: nat)
    decreases |t.bytes| - i
  {
    i >= |t.bytes| || t.bytes[i] == 0 ||
    (Valid(t.bytes[i]) > 0 && AllContinue(t, i, Valid(t.bytes[i]) - 1) && WellShaped(t, i + Valid(t.bytes[i])))
  }

  /** `isValidUtf8` */
  method IsValidUtf8(r: Text) returns (ok: bool)
    ensures ok == WellShaped(r, 0)
  {
    var ptr := 0;
    while ptr < |r.bytes| && r.bytes[ptr] != 0
      invariant WellShaped(r, ptr) == WellShaped(r, 0)
      decreases |r.bytes| - ptr
    {
      var l := Valid(r.bytes[ptr]);
      if l == 0 {
        return false;
      } else if l == 1 {
        ptr := ptr + 1;
      } else {
        ghost var start, all := ptr, l;
        while l > 1
          invariant 1 <= l <= all && ptr == start + all - l && AllContinue(r, start, all - l)
        {
          l := l - 1;
          ptr := ptr + 1;
          if r.At(ptr) & 0xC0 != 0x80 {
            assert !Continues(r.At(ptr));
            return false;
          }
        }
        ptr := ptr + 1;
      }
    }
    return true;
  }
}
