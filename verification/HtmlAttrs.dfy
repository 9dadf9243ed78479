/** Attributes in all their written forms: which of them are read inside their tag. */
module HtmlAttrs {
  import opened HtmlView
  import opened HtmlParser

  /** Without a value, with a value that is not quoted, or with a value between quotes. */
  datatype Form = Bare | Plain(value: View) | Quotes(quote: char, value: View)

  /** An attribute as it is written, and what stands between it and what follows. */
  datatype Attr = Attr(name: View, form: Form, gap: View)

  type Attrs = seq<Attr>

  predicate AllIdent(s: View) { forall i :: 0 <= i < |s| ==> Ident(s[i]) }

  /** Blanks, and whatever else is no part of a name and no end of a tag. */
  predicate Gap(s: View) { forall i :: 0 <= i < |s| ==> !Ident(s[i]) && s[i] != '>' }

  predicate IsQuote(c: char) { c == '"' || c == '\'' }

  /** No quote that is not escaped, and no escape without a character. */
  predicate GoodValue(v: View, q: char) {
    if v == [] then true
    else if v[0] == q then false
    else if v[0] == '\\' then |v| >= 2 && GoodValue(v[2..], q)
    else GoodValue(v[1..], q)
  }

  predicate GoodForm(f: Form, gap: View) {
    match f
    case Bare => !Is(gap, '=')
    case Plain(v) => AllIdent(v) && (v == [] ==> gap == [] || !IsQuote(gap[0]))
    case Quotes(q, v) => IsQuote(q) && GoodValue(v, q)
  }

  predicate GoodAttr(a: Attr) { a.name != [] && AllIdent(a.name) && a.name[0] != '/' && Gap(a.gap) && GoodForm(a.form, a.gap) }

  /** Attributes that can be told apart from each other and from a slash behind them. */
  predicate GoodAttrs(attrs: Attrs, slash: bool) {
    && (forall i :: 0 <= i < |attrs| ==> GoodAttr(attrs[i]))
    && (forall i :: 0 <= i < |attrs| && (i < |attrs| - 1 || slash) ==> attrs[i].form.Quotes? || attrs[i].gap != [])
  }

  function FormText(f: Form): View {
    match f
    case Bare => ""
    case Plain(v) => "=" + v
    case Quotes(q, v) => "=" + ([q] + (v + [q]))
  }

  function ValueOf(f: Form): View { if f.Bare? then "" else f.value }

  function WriteAttr(a: Attr, rest: View): View { a.name + (FormText(a.form) + (a.gap + rest)) }

  function WriteAttrs(attrs: Attrs, rest: View): View {
    if attrs == [] then rest else WriteAttr(attrs[0], WriteAttrs(attrs[1..], rest))
  }

  /** The end of a tag, and what follows it. */
  function EndText(slash: bool, rest: View): View { (if slash then "/" else "") + (">" + rest) }

  /**
   * The last attribute is quoted, or has a value right in front of the end, or has no value and a slash behind it:
   * the tags that are read to their own end.
   */
  predicate Ends(attrs: Attrs, slash: bool) {
    attrs == [] ||
    match attrs[|attrs| - 1].form
    case Quotes(_, _) => true
    case Plain(_) => attrs[|attrs| - 1].gap == []
    case Bare => slash
  }

  /** `trace`, and then the callbacks for the attributes of tag `id`. */
  function TellAttrs(trace: seq<Event>, attrs: Attrs, id: nat): seq<Event>
    decreases |attrs|
  {
    if attrs == [] then trace else TellAttrs(trace + [Attribute(id, attrs[0].name, ValueOf(attrs[0].form))], attrs[1..], id)
  }

  /** A reader that neither cancels nor changes a tag. */
  ghost predicate Quiet(r: Reader) {
    (forall i: nat :: !r.cancels(i)) && forall i: nat :: r.closable(i) == None
  }

  /* ---- the readers, on any text ---- */

  /** `c` is the first end of a tag in `s`, at `i`. */
  predicate FirstClose(s: View, i: nat) { i < |s| && s[i] == '>' && forall j :: 0 <= j < i ==> s[j] != '>' }

  /** There is a character of a name before `i`. */
  predicate IdentBefore(s: View, i: nat)
    requires i <= |s|
  {
    exists j :: 0 <= j < i && Ident(s[j])
  }

  /** The reader of names stops at or before the end of the tag exactly if there is a name before it. */
  lemma NameStays(s: View, i: nat)
    requires FirstClose(s, i)
    ensures |AttrName(s).1| >= |s| - i <==> IdentBefore(s, i)
  {
    var n := Until(s, Ident);
    assert n < |s| ==> Ident(s[n]);
    if IdentBefore(s, i) {
      var t := s[n..];
      assert n < i && t[i - n] == '>' && IdentEnd('>');
      assert Until(t, IdentEnd) <= i - n;
    }
  }

  /** The reader of values, where there is none, stops at or before the end of the tag exactly if a name follows there. */
  lemma NoValueStays(s: View, i: nat)
    requires FirstClose(s, i) && !Is(s, '=')
    ensures |AttrValue(s).1| >= |s| - i <==> IdentBefore(s, i)
  {
    var n := Until(s, Ident);
    assert n < |s| ==> Ident(s[n]);
  }

  /** A quoted value ends at the quote that was written for its end exactly if all quotes in it are escaped. */
  lemma {:induction false} QuotedIs(v: View, rest: View, q: char)
    requires IsQuote(q) && Is(rest, q)
    ensures Quoted(v + rest, q) == rest <==> GoodValue(v, q)
    decreases |v|
  {
    var s := v + rest;
    if v == [] {
      assert s == rest;
    } else if v[0] == q {
      assert |s| > |rest|;
    } else if v[0] == '\\' {
      QuotedStep(s, q);
      if |v| == 1 {
        assert Skip(s, 2) == rest[1..];
      } else {
        assert Skip(s, 2) == v[2..] + rest;
        QuotedIs(v[2..], rest, q);
      }
    } else {
      assert s[1..] == v[1..] + rest;
      QuotedIs(v[1..], rest, q);
      QuotedOver(s, q);
    }
  }

  /** An ordinary character makes no difference to where the value ends. */
  lemma QuotedOver(s: View, q: char)
    requires IsQuote(q) && s != [] && s[0] != q && s[0] != '\\'
    ensures Quoted(s, q) == Quoted(s[1..], q)
  {
    hide Quoted;
    var stop := if q == '"' then DoubleStop else SingleStop;
    QuotedStep(s, q);
    QuotedStep(s[1..], q);
    assert After(s, stop) == After(s[1..], stop);
    hide Until;
    if s[1..] == [] || s[1] == q {
      assert After(s[1..], stop) == s[1..];
    }
  }

  /* ---- the readers, on what was written ---- */

  lemma UntilNow(s: View, stop: char -> bool)
    requires s != [] && stop(s[0])
    ensures Until(s, stop) == 0 && Before(s, stop) == [] && After(s, stop) == s
  {}

  /** A gap is skipped on the way to a name. */
  lemma NameBehindGap(gap: View, s: View)
    requires Gap(gap)
    ensures After(gap + s, Ident) == After(s, Ident) && AttrName(gap + s) == AttrName(s)
  {
    SkipsOver(gap, s, Ident);
  }

  lemma {:induction false} SkipsOver(a: View, s: View, stop: char -> bool)
    requires forall i :: 0 <= i < |a| ==> !stop(a[i])
    ensures After(a + s, stop) == After(s, stop)
  {
    if a == [] {
      assert a + s == s;
    } else {
      assert (a + s)[1..] == a[1..] + s;
      SkipsOver(a[1..], s, stop);
    }
  }

  lemma QuotesAre(q: char, v: View, gap: View, rest: View)
    requires IsQuote(q) && GoodValue(v, q) && Gap(gap)
    ensures AttrValue("=" + ([q] + (v + ([q] + (gap + rest))))) == (v, After(rest, IdentOrClose))
  {
    hide Quoted, GoodValue, Until;
    var end := [q] + (gap + rest);
    var s := "=" + ([q] + (v + end));
    assert s[1..] == [q] + (v + end) && s[1..][1..] == v + end;
    QuotedIs(v, end, q);
    assert (v + end)[..|v|] == v && end[1..] == gap + rest;
    SkipsOver(gap, rest, IdentOrClose);
  }

  /** Where an attribute that is not quoted ends. */
  predicate Apart(a: Attr, rest: View) { a.form.Quotes? || a.gap != [] || Is(rest, '>') }

  lemma NameIs(a: Attr, rest: View)
    requires GoodAttr(a) && Apart(a, rest)
    ensures AttrName(WriteAttr(a, rest)) == (a.name, FormText(a.form) + (a.gap + rest))
  {
    hide Until, GoodValue;
    var more := FormText(a.form) + (a.gap + rest);
    assert WriteAttr(a, rest) == a.name + more;
    UntilNow(a.name + more, Ident);
    assert more != [] && IdentEnd(more[0]);
    UntilAt(a.name, more, IdentEnd);
  }

  /** The text that is left when an attribute has been read. */
  function Left(a: Attr, rest: View): View {
    match a.form
    case Bare => After(rest, Ident)
    case Plain(_) => a.gap + rest
    case Quotes(_, _) => After(rest, IdentOrClose)
  }

  lemma ValueIs(a: Attr, rest: View)
    requires GoodAttr(a) && Apart(a, rest)
    ensures AttrValue(FormText(a.form) + (a.gap + rest)) == (ValueOf(a.form), Left(a, rest))
  {
    hide Until, GoodValue, Quoted;
    var more := a.gap + rest;
    match a.form
    case Bare =>
      assert FormText(a.form) + more == more;
      assert !Is(more, '=');
      NameBehindGap(a.gap, rest);
    case Plain(v) =>
      assert (("=" + v) + more)[1..] == v + more;
      assert more != [] && IdentEnd(more[0]);
      UntilAt(v, more, IdentEnd);
      assert !IsQuote((v + more)[0]);
    case Quotes(q, v) =>
      assert ("=" + ([q] + (v + [q]))) + more == "=" + ([q] + (v + ([q] + more)));
      QuotesAre(q, v, a.gap, rest);
  }

  /** One turn of the loop over the attributes. */
  lemma OneAttribute(r: Reader, s: State, tag: Tag, pre: View, a: Attr, rest: View)
    requires Quiet(r) && GoodAttr(a) && Apart(a, rest) && Gap(pre) && s.current == pre + WriteAttr(a, rest) && !s.canceled
    ensures Attributes(r, s, tag) ==
      Attributes(r, s.(current := Left(a, rest), trace := s.trace + [Attribute(tag.id, a.name, ValueOf(a.form))]), tag)
  {
    hide AttrName, AttrValue, FormText, Left;
    NameBehindGap(pre, WriteAttr(a, rest));
    NameIs(a, rest);
    ValueIs(a, rest);
    assert s.current[0] == if pre == [] then a.name[0] else pre[0];
    assert Ident(a.name[0]);
  }

  /** Reading attributes only adds callbacks. */
  lemma {:induction false} AttributesTell(r: Reader, s: State, tag: Tag)
    requires Quiet(r) && !s.canceled
    ensures var (t, after) := Attributes(r, s, tag);
      after == tag && s.trace <= t.trace && t == s.(current := t.current, trace := t.trace)
    decreases |s.current|
  {
    hide AttrName, AttrValue;
    if s.current != [] && s.current[0] != '>' && s.current[0] != '/' {
      var (name, rest) := AttrName(s.current);
      if name != [] {
        var (value, after) := AttrValue(rest);
        AttributesTell(r, Emit(r, s.(current := after), Attribute(tag.id, name, value)), tag);
      }
    }
  }

  predicate HasIdent(s: View) { exists j :: 0 <= j < |s| && Ident(s[j]) }

  /**
   * The attributes were read beyond the end of their tag, of which `rest` follows the `>`: after the callbacks of what
   * was written comes one for an attribute that was not, or the tag is taken for one that closes itself.
   */
  predicate Strayed(t: State, told: seq<Event>, slash: bool, rest: View) {
    && |t.current| <= |rest|
    && (slash || HasIdent(rest) ==>
      (told < t.trace && t.trace[|told|].Attribute?) || (!slash && t.trace == told && Is(t.current, '/')))
  }

  predicate Stops(pre: View, attrs: Attrs, slash: bool) { if attrs == [] then pre == [] else Ends(attrs, slash) }

  /** From a gap in front of the end, the reader of names runs over the end. */
  lemma GapStrays(r: Reader, s: State, tag: Tag, pre: View, slash: bool, rest: View)
    requires Quiet(r) && !s.canceled && pre != [] && Gap(pre) && s.current == pre + EndText(slash, rest)
    ensures Strayed(Attributes(r, s, tag).0, s.trace, slash, rest)
  {
    hide Until, AttrName, AttrValue, Gap;
    assert Gap(pre) && s.current[0] == pre[0] && !Ident(pre[0]) && pre[0] != '>' by { FirstOf(pre); }
    NameBehindGap(pre, EndText(slash, rest));
    EndName(slash, rest);
    var (name, left) := AttrName(s.current);
    if name != [] {
      var (value, after) := AttrValue(left);
      AttributesTell(r, Emit(r, s.(current := after), Attribute(tag.id, name, value)), tag);
    }
  }

  lemma FirstOf(gap: View)
    requires Gap(gap) && gap != []
    ensures !Ident(gap[0]) && gap[0] != '>' && gap[0] != '/'
  {}

  /** A slash is read as a name, and then the end of the tag as what stands in front of the next one. */
  lemma EndName(slash: bool, rest: View)
    ensures var (name, left) := AttrName(EndText(slash, rest));
      |AttrValue(left).1| <= |rest| && |left| <= |rest| + 1 && (name == [] ==> left == []) && (slash || HasIdent(rest) ==> name != [])
  {
    hide Until;
    if slash {
      assert EndText(slash, rest) == "/" + (">" + rest);
      UntilNow(EndText(slash, rest), Ident);
      UntilAt("/", ">" + rest, IdentEnd);
      ValueBehindClose(rest);
    } else {
      assert EndText(slash, rest) == ">" + rest;
      NameBehindClose(rest);
    }
  }

  lemma NameBehindClose(rest: View)
    ensures var (name, left) := AttrName(">" + rest); |left| <= |rest| && (HasIdent(rest) ==> name != [])
  {
    assert After(">" + rest, Ident) == After(rest, Ident) by { SkipsOver(">", rest, Ident); }
  }

  lemma ValueBehindClose(rest: View)
    ensures AttrValue(">" + rest) == ("", After(rest, Ident))
  {
    SkipsOver(">", rest, Ident);
  }

  /**
   * A tag that was written with these attributes is read to its own end, and told as it was written, exactly if the last
   * attribute lets it.
   */
  lemma {:induction false} AttributesAre(r: Reader, s: State, tag: Tag, pre: View, attrs: Attrs, slash: bool, rest: View)
    requires Quiet(r) && GoodAttrs(attrs, slash) && Gap(pre) && !s.canceled
    requires s.current == pre + WriteAttrs(attrs, EndText(slash, rest))
    ensures var told := TellAttrs(s.trace, attrs, tag.id);
      if Stops(pre, attrs, slash) then
        Attributes(r, s, tag) == (s.(current := EndText(slash, rest), trace := told), tag)
      else
        Strayed(Attributes(r, s, tag).0, told, slash, rest)
    decreases |attrs|
  {
    hide Until, AttrName, AttrValue, GoodAttr, GoodAttrs, Strayed, Ends, Attributes, WriteAttr, FormText, EndText, Gap, Left, GapLeft;
    var end := EndText(slash, rest);
    if attrs == [] {
      if pre == [] {
        assert s.current == end;
        NoAttributes(r, s, tag, slash, rest);
      } else {
        GapStrays(r, s, tag, pre, slash, rest);
      }
    } else {
      var a, more := attrs[0], WriteAttrs(attrs[1..], end);
      ShiftGood(attrs, slash, rest);
      ShiftLeft(attrs, slash, rest);
      ShiftStops(attrs, slash);
      OneAttribute(r, s, tag, pre, a, more);
      var s1 := s.(current := Left(a, more), trace := s.trace + [Attribute(tag.id, a.name, ValueOf(a.form))]);
      if RunsOver(attrs, slash) {
        BareStrays(r, s1, tag, rest);
      } else {
        AttributesAre(r, s1, tag, GapLeft(a), attrs[1..], slash, rest);
      }
    }
  }

  /** The last attribute has no value, and no slash behind it. */
  predicate RunsOver(attrs: Attrs, slash: bool) { |attrs| == 1 && attrs[0].form.Bare? && !slash }

  function GapLeft(a: Attr): View { if a.form.Plain? then a.gap else [] }

  lemma ShiftGood(attrs: Attrs, slash: bool, rest: View)
    requires GoodAttrs(attrs, slash) && attrs != []
    ensures GoodAttr(attrs[0]) && Gap(GapLeft(attrs[0])) && GoodAttrs(attrs[1..], slash)
    ensures Apart(attrs[0], WriteAttrs(attrs[1..], EndText(slash, rest)))
  {
    hide GoodAttr;
    assert GoodAttr(attrs[0]);
    AttrGap(attrs[0]);
  }

  lemma ShiftStops(attrs: Attrs, slash: bool)
    requires attrs != []
    ensures Stops([], attrs, slash) == (!RunsOver(attrs, slash) && Stops(GapLeft(attrs[0]), attrs[1..], slash))
  {
    assert |attrs| > 1 ==> attrs[1..][|attrs| - 2] == attrs[|attrs| - 1];
  }

  lemma ShiftLeft(attrs: Attrs, slash: bool, rest: View)
    requires GoodAttrs(attrs, slash) && attrs != []
    ensures Left(attrs[0], WriteAttrs(attrs[1..], EndText(slash, rest))) ==
      if RunsOver(attrs, slash) then After(rest, Ident) else GapLeft(attrs[0]) + WriteAttrs(attrs[1..], EndText(slash, rest))
  {
    hide Until, After, WriteAttrs, GoodAttrs, GoodAttr, EndText, Gap, Ident, IdentOrClose;
    var a, more := attrs[0], WriteAttrs(attrs[1..], EndText(slash, rest));
    NothingBefore(more);
    ShiftGood(attrs, slash, rest);
    StartsWell(attrs[1..], slash, rest);
    match a.form
    case Plain(_) =>
    case Quotes(_, _) =>
    case Bare =>
      if RunsOver(attrs, slash) {
        BehindClose(rest);
      }
  }

  lemma NothingBefore(s: View)
    ensures [] + s == s
  {}

  lemma BehindClose(rest: View)
    ensures After(">" + rest, Ident) == After(rest, Ident)
  {
    SkipsOver(">", rest, Ident);
  }

  lemma NoAttributes(r: Reader, s: State, tag: Tag, slash: bool, rest: View)
    requires s.current == EndText(slash, rest)
    ensures Attributes(r, s, tag) == (s, tag)
  {}

  lemma AttrGap(a: Attr)
    requires GoodAttr(a)
    ensures Gap(a.gap)
  {}

  lemma BareStrays(r: Reader, s: State, tag: Tag, rest: View)
    requires Quiet(r) && !s.canceled && s.current == After(rest, Ident)
    ensures Strayed(Attributes(r, s, tag).0, s.trace, false, rest)
  {
    hide Until;
    if s.current != [] && s.current[0] != '/' {
      assert Ident(s.current[0]);
      UntilNow(s.current, Ident);
      var (name, left) := AttrName(s.current);
      assert name != [];
      var (value, after) := AttrValue(left);
      AttributesTell(r, Emit(r, s.(current := after), Attribute(tag.id, name, value)), tag);
    }
  }

  /** What follows an attribute begins the next one or ends the tag. */
  lemma StartsWell(attrs: Attrs, slash: bool, rest: View)
    requires GoodAttrs(attrs, slash)
    ensures var s := WriteAttrs(attrs, EndText(slash, rest));
      s != [] && IdentOrClose(s[0]) && (attrs != [] || slash ==> Ident(s[0])) && (attrs == [] && !slash ==> s == ">" + rest)
    ensures var s := WriteAttrs(attrs, EndText(slash, rest));
      After(s, IdentOrClose) == s && (Ident(s[0]) ==> After(s, Ident) == s) && (attrs != [] ==> s[0] != '/' && s[0] != '>')
  {
    var s := WriteAttrs(attrs, EndText(slash, rest));
    if attrs != [] {
      assert Ident(attrs[0].name[0]) && s[0] == attrs[0].name[0];
    }
    UntilNow(s, IdentOrClose);
    if Ident(s[0]) {
      UntilNow(s, Ident);
    }
  }
}
