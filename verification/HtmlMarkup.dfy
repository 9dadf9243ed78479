/** Comments, instructions, declarations, CDATA sections, stray closing tags and raw content: where each of them ends. */
module HtmlMarkup {
  import opened HtmlView
  import opened HtmlParser
  import opened HtmlAttrs

  /** What is written between `<` and `>` and told to nobody. */
  datatype Kind = Comment | Instruction | Declared | Nameless

  function Head(k: Kind): string {
    match k
    case Comment => "!--"
    case Instruction => "?"
    case Declared => "!"
    case Nameless => ""
  }

  function Tail(k: Kind): string {
    match k
    case Comment => "-->"
    case Instruction => "?>"
    case _ => ">"
  }

  /** `p` stands nowhere in `s`. */
  predicate Free(s: View, p: string) { forall i :: 0 <= i < |s| ==> !Prefix(s[i..], p) }

  /** The first character that ends the name of an instruction. */
  predicate NameEndsAt(s: View, k: nat) { k < |s| && NameEnd(s[k]) && forall i :: 0 <= i < k ==> !NameEnd(s[i]) }

  /** Behind its name an instruction has a name or a `>`, or its name ends with a slash. */
  ghost predicate Instructs(s: View) {
    exists k: nat :: NameEndsAt(s, k) && ((k > 0 && s[k - 1] == '/') || exists j :: k <= j < |s| && IdentOrClose(s[j]))
  }

  ghost predicate GoodMarkup(k: Kind, text: View) {
    match k
    case Comment => Free(text, "-->")
    case Instruction => Free(text, "?>") && Instructs(text)
    case Declared => Free(text, ">") && !Prefix(text, "--") && Free(text, "CDATA[")
    case Nameless => forall i :: 0 <= i < |text| ==> !NameStart(text[i])
  }

  predicate EndMark(p: string) { p != [] && p[|p| - 1] == '>' && forall i :: 0 <= i < |p| - 1 ==> p[i] != '>' }

  lemma NotPrefix(s: View, p: string, i: nat)
    requires i < |p| && (i < |s| ==> s[i] != p[i])
    ensures !Prefix(s, p)
  {
    assert |p| <= |s| ==> s[..|p|][i] == s[i];
  }

  lemma FindAt(text: View, p: string, rest: View)
    requires Free(text, p) && EndMark(p)
    ensures var s := text + (p + rest); Find(s, p) == |text| && s[..|text|] == text && s[|text|..] == p + rest && Past(s, p) == rest
  {
    var s := text + (p + rest);
    forall i | 0 <= i < |text| ensures !Prefix(s[i..], p) {
      if i + |p| <= |text| {
        assert s[i..][..|p|] == text[i..][..|p|];
        assert !Prefix(text[i..], p);
      } else {
        assert s[i..][|p| - 1] == p[i + |p| - 1 - |text|];
        NotPrefix(s[i..], p, |p| - 1);
      }
    }
    assert s[|text|..] == p + rest && (p + rest)[..|p|] == p && (p + rest)[|p|..] == rest;
  }

  lemma FreeBehind(s: View, p: string, n: nat)
    requires Free(s, p) && n <= |s|
    ensures Free(s[n..], p)
  {
    forall i | 0 <= i < |s| - n ensures !Prefix(s[n..][i..], p) { assert s[n..][i..] == s[n + i..]; }
  }

  lemma NoClose(s: View)
    requires Free(s, ">")
    ensures forall i :: 0 <= i < |s| ==> s[i] != '>'
  {
    forall i | 0 <= i < |s| ensures s[i] != '>' {
      assert !Prefix(s[i..], ">");
      assert s[i..][..1] == [s[i]];
    }
  }

  lemma ClosedAt(text: View, rest: View)
    requires Free(text, ">")
    ensures Closed(text + (">" + rest)) == rest
  {
    NoClose(text);
    UntilAt(text, ">" + rest, Closes);
    assert Skip(">" + rest, 1) == rest;
  }

  /* ---- what is told to nobody ---- */

  lemma CommentIs(r: Reader, s: State, text: View, rest: View)
    requires Free(text, "-->") && s.current == "!--" + (text + ("-->" + rest))
    ensures OpenTag(r, s) == s.(current := rest)
  {
    hide Find, Past;
    var body := text + ("-->" + rest);
    FindAt(text, "-->", rest);
    UntilAt([], s.current, NameStart);
    assert [] + s.current == s.current && s.current[..3] == "!--" && Skip(s.current, 3) == body;
  }

  /** A name behind `?` or `!`, and what the reader of names makes of what follows it. */
  lemma Opener(c: char, name: View, more: View)
    requires (c == '?' || c == '!') && (forall i :: 0 <= i < |name| ==> !NameEnd(name[i])) && more != [] && NameEnd(more[0])
    requires !Prefix([c] + (name + more), "!--")
    ensures var (n, rest) := TagName([c] + (name + more));
      && Is(n, c) && !Prefix(n, "!--")
      && rest == if name != [] && name[|name| - 1] == '/' then "/" + more else After(more, IdentOrClose)
  {
    hide Until, After, Before, Prefix, Skip;
    var s, n := [c] + (name + more), [c] + name;
    assert s == n + more;
    SelfStart(s);
    UntilAt(n, more, NameEnd);
    if name != [] && name[|name| - 1] == '/' {
      SkipBack(n, more);
      ShorterStarts(s, n[..|n| - 1]);
    } else {
      ShorterStarts(s, n);
    }
  }

  lemma SelfStart(s: View)
    requires s != [] && NameStart(s[0])
    ensures After(s, NameStart) == s
  {
    UntilAt([], s, NameStart);
    assert [] + s == s;
  }

  lemma SkipBack(n: View, more: View)
    requires n != [] && n[|n| - 1] == '/'
    ensures Skip(n + more, |n + more| - |more| - 1) == "/" + more
  {
  }

  lemma ShorterStarts(s: View, n: View)
    requires n <= s && n != [] && !Prefix(s, "!--")
    ensures Is(n, s[0]) && !Prefix(n, "!--")
  {
    assert |n| >= 3 ==> s[..3] == n[..3];
  }

  lemma InstructionOpens(r: Reader, s: State)
    requires Is(TagName(s.current).0, '?')
    ensures OpenTag(r, s) == s.(current := Past(TagName(s.current).1, "?>"))
  {
    hide TagName, Past;
    NotPrefix(TagName(s.current).0, "!--", 0);
  }

  lemma DeclarationOpens(r: Reader, s: State)
    requires Is(TagName(s.current).0, '!') && !Prefix(TagName(s.current).0, "!--")
    ensures OpenTag(r, s) == Declaration(r, s.(current := TagName(s.current).1))
  {
    hide TagName, Past, Declaration;
  }

  /**
   * An instruction ends at its own mark, unless the mark is taken for a part of its name or of the gap behind it: then it
   * ends at the next one, or at the end of the text.
   */
  lemma InstructionIs(r: Reader, s: State, text: View, rest: View)
    requires Free(text, "?>") && s.current == "?" + (text + ("?>" + rest))
    ensures OpenTag(r, s) == s.(current := if Instructs(text) then rest else Past(rest, "?>"))
  {
    hide OpenTag, Past, TagName, Free;
    var to := InstructionTo(text, rest);
    InstructionOpens(r, s);
  }

  /** Where the name of an instruction ends for the reader of names. */
  lemma InstructionTo(text: View, rest: View) returns (to: View)
    requires Free(text, "?>")
    ensures var s := "?" + (text + ("?>" + rest)); Is(TagName(s).0, '?') && TagName(s).1 == to
    ensures Past(to, "?>") == if Instructs(text) then rest else Past(rest, "?>")
  {
    hide Past, TagName, Until, After, Free;
    var s := "?" + (text + ("?>" + rest));
    NotPrefix(s, "!--", 0);
    var k := Until(text, NameEnd);
    var name, more := text[..k], text[k..] + ("?>" + rest);
    if k == |text| {
      NotInstructs(text);
      PastMissed(rest);
      to := ">" + rest;
      assert s == "?" + ((text + "?") + to);
      Opener('?', text + "?", to);
      NoGapBefore(to);
    } else {
      assert s == "?" + (name + more);
      assert more[0] == text[k];
      Opener('?', name, more);
      if k > 0 && text[k - 1] == '/' {
        to := "/" + more;
        FromSlash(text, k, rest);
        Instructed(text, k, k);
      } else {
        to := After(more, IdentOrClose);
        if j :| k <= j < |text| && IdentOrClose(text[j]) {
          Instructed(text, k, j);
          LongInstruction(text, k, rest);
        } else {
          NotInstructs(text);
          assert more == (text[k..] + "?") + (">" + rest);
          UntilAt(text[k..] + "?", ">" + rest, IdentOrClose);
          PastMissed(rest);
        }
      }
    }
  }

  lemma NoGapBefore(s: View)
    requires Is(s, '>')
    ensures After(s, IdentOrClose) == s
  {
    UntilAt([], s, IdentOrClose);
    assert [] + s == s;
  }

  lemma Instructed(text: View, k: nat, j: nat)
    requires k == Until(text, NameEnd) < |text|
    requires (k > 0 && text[k - 1] == '/') || (k <= j < |text| && IdentOrClose(text[j]))
    ensures Instructs(text)
  {
    hide Until;
    assert NameEndsAt(text, k);
  }

  lemma NotInstructs(text: View)
    requires var k := Until(text, NameEnd);
      k == |text| || (!(k > 0 && text[k - 1] == '/') && forall j :: k <= j < |text| ==> !IdentOrClose(text[j]))
    ensures !Instructs(text)
  {
    hide Until, NameEnd, IdentOrClose;
    var n := Until(text, NameEnd);
    assert forall i :: 0 <= i < n ==> !NameEnd(text[i]);
    assert forall k: nat :: NameEndsAt(text, k) ==> k == n;
  }

  lemma FromSlash(text: View, k: nat, rest: View)
    requires Free(text, "?>") && 0 < k <= |text| && text[k - 1] == '/'
    ensures Past("/" + (text[k..] + ("?>" + rest)), "?>") == rest
  {
    hide Past, Free;
    assert "/" + (text[k..] + ("?>" + rest)) == text[k - 1..] + ("?>" + rest);
    FreeBehind(text, "?>", k - 1);
    FindAt(text[k - 1..], "?>", rest);
  }

  /** The gap behind a name ends in the text, or at the mark. */
  lemma GapEnds(text: View, k: nat, mark: View) returns (n: nat)
    requires k <= |text|
    requires (mark != [] && IdentOrClose(mark[0])) || exists j :: k <= j < |text| && IdentOrClose(text[j])
    ensures k <= n <= |text| && After(text[k..] + mark, IdentOrClose) == text[n..] + mark
  {
    hide Until, After, IdentOrClose;
    var a := text[k..];
    var m := Until(a, IdentOrClose);
    if j :| k <= j < |text| && IdentOrClose(text[j]) {
      assert a[j - k] == text[j];
      assert m <= j - k;
    }
    n := k + m;
    SplitGap(text, k, n, mark);
    UntilAt(a[..m], text[n..] + mark, IdentOrClose);
  }

  lemma SplitGap(text: View, k: nat, n: nat, mark: View)
    requires k <= n <= |text|
    ensures text[k..] + mark == text[k..][..n - k] + (text[n..] + mark)
    ensures n < |text| ==> text[k..][n - k] == (text[n..] + mark)[0]
  {
  }

  lemma LongInstruction(text: View, k: nat, rest: View)
    requires Free(text, "?>") && k <= |text| && exists j :: k <= j < |text| && IdentOrClose(text[j])
    ensures Past(After(text[k..] + ("?>" + rest), IdentOrClose), "?>") == rest
  {
    hide Past, Free, Until, After, IdentOrClose;
    var n := GapEnds(text, k, "?>" + rest);
    FreeBehind(text, "?>", n);
    FindAt(text[n..], "?>", rest);
  }

  lemma PastMissed(rest: View)
    ensures Past(">" + rest, "?>") == Past(rest, "?>")
  {
    var s := ">" + rest;
    NotPrefix(s, "?>", 0);
    assert s[1..] == rest && Find(s, "?>") == 1 + Find(rest, "?>");
    assert s[Find(s, "?>")..] == rest[Find(rest, "?>")..];
  }

  lemma DeclaredIs(r: Reader, s: State, text: View, rest: View)
    requires Free(text, ">") && !Prefix(text, "--") && Free(text, "CDATA[") && s.current == "!" + (text + (">" + rest))
    ensures OpenTag(r, s) == s.(current := rest)
  {
    hide TagName, Free, Closed, OpenTag;
    var n := DeclaredTo(text, rest);
    DeclarationOpens(r, s);
    FreeBehind(text, ">", n);
    ClosedAt(text[n..], rest);
    NoSection(text, n, rest);
  }

  lemma DeclaredTo(text: View, rest: View) returns (n: nat)
    requires !Prefix(text, "--")
    ensures n <= |text|
    ensures var s := "!" + (text + (">" + rest)); Is(TagName(s).0, '!') && !Prefix(TagName(s).0, "!--") && TagName(s).1 == text[n..] + (">" + rest)
  {
    hide TagName, Until, After, Prefix;
    NoComment(text, ">" + rest);
    var k := Until(text, NameEnd);
    var name, more := text[..k], text[k..] + (">" + rest);
    assert "!" + (text + (">" + rest)) == "!" + (name + more);
    Opener('!', name, more);
    if name != [] && name[|name| - 1] == '/' {
      n := k - 1;
      BackOne(text, k, ">" + rest);
    } else {
      n := GapEnds(text, k, ">" + rest);
    }
  }

  lemma BackOne(text: View, k: nat, mark: View)
    requires 0 < k <= |text| && text[k - 1] == '/'
    ensures "/" + (text[k..] + mark) == text[k - 1..] + mark
  {
  }

  lemma NoComment(text: View, rest: View)
    requires !Prefix(text, "--") && Is(rest, '>')
    ensures !Prefix("!" + (text + rest), "!--")
  {
    var s := "!" + (text + rest);
    if |text| >= 2 {
      var i: nat := if text[0] != '-' then 0 else 1;
      assert text[..2] == [text[0], text[1]];
      assert text[i] == s[i + 1];
      NotPrefix(s, "!--", i + 1);
    } else {
      assert s[|text| + 1] == '>';
      NotPrefix(s, "!--", |text| + 1);
    }
  }

  lemma NoSection(text: View, n: nat, rest: View)
    requires Free(text, ">") && Free(text, "CDATA[") && n <= |text|
    ensures !Prefix(text[n..] + (">" + rest), "CDATA[")
  {
    var left := text[n..] + (">" + rest);
    if |text| - n >= 6 {
      assert left[..6] == text[n..][..6];
      assert !Prefix(text[n..], "CDATA[");
    } else {
      NotPrefix(left, "CDATA[", |text| - n);
    }
  }

  lemma NamelessIs(r: Reader, s: State, text: View, rest: View)
    requires (forall i :: 0 <= i < |text| ==> !NameStart(text[i])) && s.current == text + (">" + rest)
    ensures OpenTag(r, s) == s.(current := rest)
  {
    hide TagName, Closed;
    NoName(text, rest);
    assert Free([], ">") && [] + (">" + rest) == ">" + rest;
    ClosedAt([], rest);
  }

  lemma NoName(text: View, rest: View)
    requires forall i :: 0 <= i < |text| ==> !NameStart(text[i])
    ensures TagName(text + (">" + rest)) == ([], ">" + rest)
  {
    hide Until, After;
    var close := ">" + rest;
    UntilAt(text, close, NameStart);
    NotPrefix(close, "!--", 0);
    assert [] + close == close;
    UntilAt([], close, NameEnd);
    NoGapBefore(close);
  }

  /** All four are read to their own end, and nothing is told. */
  lemma MarkupIs(r: Reader, s: State, k: Kind, text: View, rest: View)
    requires GoodMarkup(k, text) && s.current == Head(k) + (text + (Tail(k) + rest))
    ensures OpenTag(r, s) == s.(current := rest)
  {
    hide OpenTag, Free, Instructs;
    match k
    case Comment => CommentIs(r, s, text, rest);
    case Instruction => InstructionIs(r, s, text, rest);
    case Declared => DeclaredIs(r, s, text, rest);
    case Nameless =>
      assert s.current == text + (">" + rest);
      NamelessIs(r, s, text, rest);
  }

  /* ---- CDATA sections ---- */

  /** A section that is not empty is content; an empty one takes what follows with it, up to the next `>`. */
  lemma SectionIs(r: Reader, s: State, text: View, rest: View)
    requires Free(text, "]]>") && s.current == "![CDATA[" + (text + ("]]>" + rest))
    ensures OpenTag(r, s) == if text == [] then s.(current := Closed(rest)) else Deliver(r, s.(current := rest), text)
  {
    hide Find, Closed, Deliver, TagName, Free, OpenTag, After, Prefix, Skip;
    SectionOpens(text, rest);
    DeclarationOpens(r, s);
    SectionEnds(text, rest);
  }

  lemma SectionEnds(text: View, rest: View)
    requires Free(text, "]]>")
    ensures var s := "CDATA[" + (text + ("]]>" + rest));
      var n := Find(s, "]]>");
      Prefix(s, "CDATA[") && Skip(s[..n], 6) == text && Skip(s[n..], 3) == rest
  {
    hide Find, Free;
    var s := "CDATA[" + (text + ("]]>" + rest));
    InSection(text);
    FindAt("CDATA[" + text, "]]>", rest);
    assert s == ("CDATA[" + text) + ("]]>" + rest);
    assert s[..6] == "CDATA[";
    assert Skip("CDATA[" + text, 6) == text && Skip("]]>" + rest, 3) == rest;
  }

  lemma SectionOpens(text: View, rest: View)
    ensures var s := "![CDATA[" + (text + ("]]>" + rest));
      Is(TagName(s).0, '!') && !Prefix(TagName(s).0, "!--") && TagName(s).1 == "CDATA[" + (text + ("]]>" + rest))
  {
    hide TagName, Until, After;
    var s := "![CDATA[" + (text + ("]]>" + rest));
    var body := "CDATA[" + (text + ("]]>" + rest));
    assert s == "!" + ("" + ("[" + body));
    assert s[1] == '[';
    NotPrefix(s, "!--", 1);
    Opener('!', "", "[" + body);
    UntilAt("[", body, IdentOrClose);
  }

  lemma InSection(text: View)
    requires Free(text, "]]>")
    ensures Free("CDATA[" + text, "]]>")
  {
    var s := "CDATA[" + text;
    forall i | 0 <= i < |s| ensures !Prefix(s[i..], "]]>") {
      if i >= 6 {
        assert s[i..] == text[i - 6..];
      } else {
        NotPrefix(s[i..], "]]>", 0);
      }
    }
  }

  /* ---- closing tags ---- */

  /** `trace`, and then the pops of `tags` from the innermost to the outermost. */
  function PopAll(trace: seq<Event>, tags: seq<Tag>): seq<Event>
    decreases |tags|
  {
    if tags == [] then trace else PopAll(trace + [Pop(tags[|tags| - 1])], tags[..|tags| - 1])
  }

  lemma {:induction false} PopsAll(r: Reader, s: State, depth: nat)
    requires Quiet(r) && !s.canceled && depth <= |s.stack|
    ensures PopTo(r, s, depth) == s.(trace := PopAll(s.trace, s.stack[depth..]), stack := s.stack[..depth])
    decreases |s.stack|
  {
    if |s.stack| > depth {
      var n := |s.stack| - 1;
      var t := s.(trace := s.trace + [Pop(s.stack[n])], stack := s.stack[..n]);
      PopsAll(r, t, depth);
      assert s.stack[depth..][..n - depth] == t.stack[depth..] && s.stack[depth..][n - depth] == s.stack[n];
      assert t.stack[..depth] == s.stack[..depth];
    } else {
      assert s.stack[..depth] == s.stack && s.stack[depth..] == [];
    }
  }

  predicate Unnamed(tags: seq<Tag>, name: View) { forall i :: 0 <= i < |tags| ==> tags[i].name != name }

  /** A closing tag takes the innermost tag of its name away, and all tags inside it. */
  lemma ClosesAll(r: Reader, rootOnly: bool, s: State, below: seq<Tag>, tag: Tag, above: seq<Tag>, rest: View)
    requires Quiet(r) && !s.canceled && s.stack == below + ([tag] + above) && Unnamed(above, tag.name)
    requires tag.name != [] && Free(tag.name, ">") && s.current == tag.name + (">" + rest)
    ensures CloseTag(r, rootOnly, s) ==
      (State(rest, false, below, PopAll(s.trace, [tag] + above), s.next), rootOnly && below == [])
  {
    hide PopAll, Free;
    NoClose(tag.name);
    UntilAt(tag.name, ">" + rest, Closes);
    var n := |below|;
    assert s.stack[n] == tag && s.stack[..n] == below && s.stack[n..] == [tag] + above;
    assert forall i :: n < i < |s.stack| ==> s.stack[i] == above[i - n - 1];
    assert Depth(s.stack, tag.name) == n;
    var s1 := s.(current := ">" + rest);
    PopsAll(r, s1, n);
    assert Skip(">" + rest, 1) == rest;
  }

  /** A closing tag that no open tag has the name of is passed over. */
  lemma StrayIs(r: Reader, rootOnly: bool, s: State, text: View, rest: View)
    requires Free(text, ">") && Unnamed(s.stack, text) && s.current == text + (">" + rest)
    ensures CloseTag(r, rootOnly, s) == (s.(current := rest), false)
  {
    NoClose(text);
    UntilAt(text, ">" + rest, Closes);
    var d := Depth(s.stack, text);
    assert d == |s.stack|;
    assert Skip(">" + rest, 1) == rest;
  }

  /* ---- content that is not parsed ---- */

  predicate Blank(s: View) { forall i :: 0 <= i < |s| ==> White(s[i]) }

  function ClosingTag(name: View, blanks: View): View { "</" + (name + (blanks + ">")) }

  /** No closing tag of that name stands anywhere in the text. */
  ghost predicate Unclosable(text: View, name: View) {
    forall i, blanks :: 0 <= i < |text| && Blank(blanks) ==> !Prefix(text[i..], ClosingTag(name, blanks))
  }

  lemma RawCloseIs(s: View, name: View) returns (blanks: View)
    requires RawClose(s, name).Some? && Is(s, '<')
    ensures Blank(blanks) && Prefix(s, ClosingTag(name, blanks))
  {
    hide Until, Prefix, ClosingTag, RawClose;
    Steps(s, name);
    Assembled(s, name);
    blanks := Before(s[2..][|name|..], WhiteEnd);
  }

  lemma Steps(s: View, name: View)
    requires RawClose(s, name).Some? && Is(s, '<')
    ensures |s| >= 2 + |name| && s[1] == '/' && s[2..][..|name|] == name && Is(After(s[2..][|name|..], WhiteEnd), '>')
  {
    hide Until, After;
    assert Skip(s, 1) == s[1..] && Skip(s[1..], 1) == s[2..];
    assert Skip(s[2..], |name|) == s[2..][|name|..];
  }

  lemma Assembled(s: View, name: View)
    requires |s| >= 2 + |name| && s[0] == '<' && s[1] == '/' && s[2..][..|name|] == name
    requires Is(After(s[2..][|name|..], WhiteEnd), '>')
    ensures Prefix(s, ClosingTag(name, Before(s[2..][|name|..], WhiteEnd)))
  {
    hide Until;
    var tmp := s[2..][|name|..];
    var n := Until(tmp, WhiteEnd);
    assert s == "</" + (name + tmp) && tmp == tmp[..n] + (">" + tmp[n + 1..]);
    assert s == ClosingTag(name, tmp[..n]) + tmp[n + 1..];
  }

  lemma ClosesRaw(name: View, blanks: View, rest: View)
    requires Blank(blanks)
    ensures RawClose(ClosingTag(name, blanks) + rest, name) == Some(rest)
  {
    hide Until;
    var s := ClosingTag(name, blanks) + rest;
    var close := ">" + rest;
    assert s == "</" + (name + (blanks + close));
    assert Skip(s, 1) == "/" + (name + (blanks + close));
    assert Skip(Skip(s, 1), 1) == name + (blanks + close);
    assert (name + (blanks + close))[..|name|] == name;
    assert Skip(name + (blanks + close), |name|) == blanks + close;
    UntilAt(blanks, close, WhiteEnd);
    assert close[1..] == rest;
  }

  /** A closing tag does not begin in the text and end behind it. */
  lemma NotAcross(text: View, name: View, blanks: View, rest: View)
    requires AllIdent(name) && text != [] && Is(rest, '<') && Blank(blanks) && Prefix(text + rest, ClosingTag(name, blanks))
    ensures Prefix(text, ClosingTag(name, blanks))
  {
    var c := ClosingTag(name, blanks);
    OneLess(name, blanks);
    if |text| < |c| {
      NotPrefix(text + rest, c, |text|);
    }
    assert text[..|c|] == (text + rest)[..|c|];
  }

  lemma OneLess(name: View, blanks: View)
    requires AllIdent(name) && Blank(blanks)
    ensures var c := ClosingTag(name, blanks); forall i :: 0 < i < |c| ==> c[i] != '<'
  {
    var c := ClosingTag(name, blanks);
    forall i | 0 < i < |c| ensures c[i] != '<' {
      if i < 2 {
        assert c[i] == '/';
      } else if i < 2 + |name| {
        assert c[i] == name[i - 2];
      } else if i < 2 + |name| + |blanks| {
        assert c[i] == blanks[i - 2 - |name|];
      } else {
        assert c[i] == '>';
      }
    }
  }

  /** Raw content ends at its closing tag. */
  lemma {:induction false} RawEndIs(text: View, name: View, blanks: View, rest: View)
    requires AllIdent(name) && Unclosable(text, name) && Blank(blanks)
    ensures var close := ClosingTag(name, blanks) + rest; RawEnd(text + close, name) == Some((close, rest))
    decreases |text|
  {
    hide RawEnd, RawClose, Unclosable, ClosingTag, Until, After, AllIdent, Blank;
    var close := ClosingTag(name, blanks) + rest;
    Opening(name, blanks, rest);
    var n := Until(text, Opens);
    RawEndStep(text + close, name);
    if n == |text| {
      UntilAt(text, close, Opens);
      ClosesRaw(name, blanks, rest);
    } else {
      BeforeOpening(text, n, close);
      StaysOpen(text, name, n, close);
      UnclosableBehind(text, name, n + 1);
      RawEndIs(text[n + 1..], name, blanks, rest);
    }
  }

  lemma BeforeOpening(text: View, n: nat, close: View)
    requires n == Until(text, Opens) < |text|
    ensures After(text + close, Opens) == text[n..] + close && (text[n..] + close)[1..] == text[n + 1..] + close
  {
    hide Until, After;
    assert text + close == text[..n] + (text[n..] + close);
    UntilAt(text[..n], text[n..] + close, Opens);
  }

  lemma Opening(name: View, blanks: View, rest: View)
    ensures Is(ClosingTag(name, blanks) + rest, '<')
  {}

  lemma StaysOpen(text: View, name: View, n: nat, close: View)
    requires AllIdent(name) && Unclosable(text, name) && n < |text| && text[n] == '<' && Is(close, '<')
    ensures RawClose(text[n..] + close, name) == None
  {
    hide RawClose, ClosingTag;
    if RawClose(text[n..] + close, name).Some? {
      var b := RawCloseIs(text[n..] + close, name);
      NotAcross(text[n..], name, b, close);
    }
  }

  lemma UnclosableBehind(text: View, name: View, n: nat)
    requires Unclosable(text, name) && n <= |text|
    ensures Unclosable(text[n..], name)
  {
    hide ClosingTag;
    forall i, blanks | 0 <= i < |text| - n && Blank(blanks) ensures !Prefix(text[n..][i..], ClosingTag(name, blanks)) {
      assert text[n..][i..] == text[n + i..];
    }
  }
}
