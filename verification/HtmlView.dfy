/** The string view of the parser (`BytesReader`, `StringView`), and the token readers over it. */
module HtmlView {
  type View = string

  predicate Is(s: View, c: char) { s != [] && s[0] == c }

  predicate Prefix(s: View, p: string) { |p| <= |s| && s[..|p|] == p }

  /** `operator +=`: a step beyond the end stops there. */
  function Skip(s: View, n: nat): View { if n > |s| then [] else s[n..] }

  predicate Digit(c: char) { '0' <= c <= '9' }

  predicate Letter(c: char) { 'A' <= c <= 'Z' || 'a' <= c <= 'z' }

  /** `HtmlIdentifier8` */
  predicate Ident(c: char) { Digit(c) || Letter(c) || c == '_' || c == '-' || c == '!' || c == '/' || c == ':' }

  predicate White(c: char) { c == ' ' || '\t' <= c <= '\r' }

  predicate IdentEnd(c: char) { !Ident(c) }

  predicate WhiteEnd(c: char) { !White(c) }

  predicate Opens(c: char) { c == '<' }

  predicate Closes(c: char) { c == '>' }

  predicate NameStart(c: char) { Ident(c) || c == '>' || c == '?' }

  predicate NameEnd(c: char) { !Ident(c) && c != '?' }

  predicate IdentOrClose(c: char) { Ident(c) || c == '>' }

  predicate DoubleStop(c: char) { c == '\\' || c == '"' }

  predicate SingleStop(c: char) { c == '\\' || c == '\'' }

  lemma Uppers(i: nat, c: char)
    requires i < 26
    ensures var s := "ABCDEFGHIJKLMNOPQRSTUVWXYZ"; 'A' <= s[i] <= 'Z' && ('A' <= c <= 'Z' && c as int == i + 65 ==> s[i] == c)
  {}

  lemma Lowers(i: nat, c: char)
    requires i < 26
    ensures var s := "abcdefghijklmnopqrstuvwxyz"; 'a' <= s[i] <= 'z' && ('a' <= c <= 'z' && c as int == i + 97 ==> s[i] == c)
  {}

  lemma Digits(i: nat, c: char)
    requires i < 10
    ensures var s := "0123456789"; '0' <= s[i] <= '9' && ('0' <= c <= '9' && c as int == i + 48 ==> s[i] == c)
  {}

  /** The characters of names, and the blanks, one by one. */
  lemma Classes(c: char)
    ensures Ident(c) <==>
      c in "ABCDEFGHIJKLMNOPQRSTUVWXYZ" || c in "abcdefghijklmnopqrstuvwxyz" || c in "0123456789" || c in ['_', '-', '!', '/', ':']
    ensures White(c) <==> c in [' ', 9 as char, 10 as char, 11 as char, 12 as char, 13 as char]
  {
    forall i: nat | i < 26 ensures 'A' <= "ABCDEFGHIJKLMNOPQRSTUVWXYZ"[i] <= 'Z' { Uppers(i, c); }
    forall i: nat | i < 26 ensures 'a' <= "abcdefghijklmnopqrstuvwxyz"[i] <= 'z' { Lowers(i, c); }
    forall i: nat | i < 10 ensures '0' <= "0123456789"[i] <= '9' { Digits(i, c); }
    if 'A' <= c <= 'Z' { Uppers(c as int - 65, c); }
    if 'a' <= c <= 'z' { Lowers(c as int - 97, c); }
    if '0' <= c <= '9' { Digits(c as int - 48, c); }
  }

  /** How many characters come before the first one that `stop` accepts. */
  function Until(s: View, stop: char -> bool): (n: nat)
    ensures n <= |s| && (n < |s| ==> stop(s[n])) && forall i :: 0 <= i < n ==> !stop(s[i])
  {
    if s == [] || stop(s[0]) then 0 else 1 + Until(s[1..], stop)
  }

  function Before(s: View, stop: char -> bool): View { s[..Until(s, stop)] }

  function After(s: View, stop: char -> bool): View { s[Until(s, stop)..] }

  lemma {:induction false} UntilAt(a: View, b: View, stop: char -> bool)
    requires (forall i :: 0 <= i < |a| ==> !stop(a[i])) && (b == [] || stop(b[0]))
    ensures Until(a + b, stop) == |a| && Before(a + b, stop) == a && After(a + b, stop) == b
  {
    if a == [] {
      assert a + b == b;
    } else {
      assert (a + b)[1..] == a[1..] + b;
      UntilAt(a[1..], b, stop);
    }
    assert (a + b)[..|a|] == a && (a + b)[|a|..] == b;
  }

  /** `skipUntil`; `skipChars` is the same with the opposite class. */
  method SkipUntil(s: View, stop: char -> bool) returns (r: View)
    ensures r == After(s, stop)
  {
    var offset := 0;
    while offset < |s| && !stop(s[offset])
      invariant offset <= |s| && forall i :: 0 <= i < offset ==> !stop(s[i])
    {
      offset := offset + 1;
    }
    r := s[offset..];
    UntilAt(s[..offset], r, stop);
    assert s[..offset] + r == s;
  }

  /** `readUntil`; `readChars` is the same with the opposite class. */
  method ReadUntil(s: View, stop: char -> bool) returns (text: View, r: View)
    ensures text == Before(s, stop) && r == After(s, stop)
  {
    r := SkipUntil(s, stop);
    text := s[..|s| - |r|];
  }

  /** Where `p` first occurs, or the end. */
  function Find(s: View, p: string): (n: nat)
    ensures n <= |s| && (n < |s| ==> Prefix(s[n..], p)) && forall i :: 0 <= i < n ==> !Prefix(s[i..], p)
  {
    if s == [] || Prefix(s, p) then 0 else FindLater(s, p); 1 + Find(s[1..], p)
  }

  lemma FindLater(s: View, p: string)
    requires s != []
    ensures forall i :: 0 < i <= |s| ==> s[i..] == s[1..][i - 1..]
  {}

  /** `skipUntilString`, which leaves the string itself in place. */
  method SkipUntilString(s: View, p: string) returns (r: View)
    ensures r == s[Find(s, p)..]
  {
    r := s;
    while r != [] && !Prefix(r, p)
      invariant |r| <= |s| && r == s[|s| - |r|..] && Find(s, p) == |s| - |r| + Find(r, p)
    {
      assert s[|s| - |r[1..]|..] == r[1..];
      r := r[1..];
    }
  }

  /** What `skipUntilString` leaves when the string is skipped too. */
  function Past(s: View, p: string): View { Skip(s[Find(s, p)..], if Find(s, p) < |s| then |p| else 0) }

  method SkipPastString(s: View, p: string) returns (r: View)
    ensures r == Past(s, p)
  {
    r := SkipUntilString(s, p);
    if r != [] {
      r := Skip(r, |p|);
    }
  }

  /** A tag name and what follows it; a slash that closes the tag is found again behind the name. */
  function TagName(s: View): (p: (View, View))
    ensures |p.0| <= |s| && |p.1| <= |s| && (p.0 != [] ==> |p.1| < |s|)
  {
    var t := After(s, NameStart);
    if Prefix(t, "!--") then (t[..3], Skip(t, 3)) else
    var name, r := Before(t, NameEnd), After(t, NameEnd);
    if |name| > 1 && name[|name| - 1] == '/' then (name[..|name| - 1], Skip(s, |s| - |r| - 1)) else (name, After(r, IdentOrClose))
  }

  /** `Tag_readName` */
  method ReadTagName(s: View) returns (name: View, rest: View)
    ensures (name, rest) == TagName(s)
  {
    var t := SkipUntil(s, NameStart);
    if Prefix(t, "!--") {
      return t[..3], Skip(t, 3);
    }
    name, rest := ReadUntil(t, NameEnd);
    if |name| > 1 && name[|name| - 1] == '/' {
      name, rest := name[..|name| - 1], Skip(s, |s| - |rest| - 1);
    } else {
      rest := SkipUntil(rest, IdentOrClose);
    }
  }

  /** An attribute name and what follows it; the name is empty when the text is used up. */
  function AttrName(s: View): (p: (View, View))
    ensures if p.0 == [] then p.1 == [] else |p.1| < |s|
  {
    var t := After(s, Ident);
    (Before(t, IdentEnd), After(t, IdentEnd))
  }

  /** `Tag_readAttrName` */
  method ReadAttrName(s: View) returns (name: View, rest: View)
    ensures (name, rest) == AttrName(s)
  {
    var t := SkipUntil(s, Ident);
    name, rest := ReadUntil(t, IdentEnd);
  }

  /** From behind the opening quote to the closing one, over escaped characters. */
  function Quoted(s: View, q: char): (r: View)
    requires q == '"' || q == '\''
    ensures |r| <= |s| && (r == [] || r[0] == q)
    decreases |s|
  {
    if s == [] || s[0] == q then s else
    var t := After(s, if q == '"' then DoubleStop else SingleStop);
    Quoted(if Is(t, '\\') then Skip(t, 2) else t, q)
  }

  /** An attribute value and what follows it. */
  function AttrValue(s: View): (p: (View, View))
    ensures |p.1| <= |s|
  {
    if !Is(s, '=') then ([], After(s, Ident)) else
    var t := s[1..];
    if Is(t, '"') || Is(t, '\'') then
      var text := t[1..];
      var r := Quoted(text, t[0]);
      (text[..|text| - |r|], After(if Is(r, t[0]) then r[1..] else r, IdentOrClose))
    else (Before(t, IdentEnd), After(t, IdentEnd))
  }

  lemma QuotedStep(s: View, q: char)
    requires q == '"' || q == '\''
    ensures var t := After(s, if q == '"' then DoubleStop else SingleStop);
      Quoted(s, q) == if s == [] || s[0] == q then s else Quoted(if Is(t, '\\') then Skip(t, 2) else t, q)
  {}

  /** The loop of `Tag_readAttrValue`. */
  method ReadQuoted(text: View, quoted: char) returns (r: View)
    requires quoted == '"' || quoted == '\''
    ensures r == Quoted(text, quoted)
  {
    hide Quoted, Until;
    r := text;
    while r != [] && !Is(r, quoted)
      invariant |r| <= |text| && Quoted(r, quoted) == Quoted(text, quoted)
      decreases |r|
    {
      QuotedStep(r, quoted);
      r := SkipUntil(r, if quoted == '"' then DoubleStop else SingleStop);
      if Is(r, '\\') {
        r := Skip(r, 2);
      }
    }
    QuotedStep(r, quoted);
  }

  /** `Tag_readAttrValue` */
  method ReadAttrValue(s: View) returns (value: View, rest: View)
    ensures (value, rest) == AttrValue(s)
  {
    if !Is(s, '=') {
      rest := SkipUntil(s, Ident);
      return [], rest;
    }
    var t := s[1..];
    if Is(t, '"') || Is(t, '\'') {
      var quoted := t[0];
      var text := t[1..];
      var r := ReadQuoted(text, quoted);
      value := text[..|text| - |r|];
      if Is(r, quoted) {
        r := r[1..];
      }
      rest := SkipUntil(r, IdentOrClose);
    } else {
      value, rest := ReadUntil(t, IdentEnd);
    }
  }
}
