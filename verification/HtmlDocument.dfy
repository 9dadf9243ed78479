/** Written documents: when the parser tells the reader exactly the document that was written. */
module HtmlDocument {
  import opened HtmlView
  import opened HtmlParser
  import opened HtmlAttrs
  import opened HtmlMarkup
  import opened HtmlTrace

  /**
   * A list of sibling nodes; `gap` stands between the name of a tag and what follows it. A stray node is a closing tag
   * that matches no open tag, an unparsed one has text for content, and an unclosed one has no closing tag of its own and
   * takes in all that is left of the list.
   */
  datatype Forest =
    | Nil
    | Text(text: View, next: Forest)
    | Markup(kind: Kind, text: View, next: Forest)
    | Section(text: View, next: Forest)
    | Stray(text: View, next: Forest)
    | Void(name: View, gap: View, attrs: Attrs, next: Forest)
    | Unparsed(name: View, gap: View, attrs: Attrs, text: View, blanks: View, next: Forest)
    | Node(name: View, gap: View, attrs: Attrs, inside: Forest, next: Forest)
    | Unclosed(name: View, gap: View, attrs: Attrs, inside: Forest)

  predicate GoodName(s: View) { s != [] && AllIdent(s) && s[0] != '/' && s[0] != '!' && s[|s| - 1] != '/' }

  predicate GoodTag(name: View, gap: View, attrs: Attrs, slash: bool) {
    GoodName(name) && Gap(gap) && !Is(gap, '?') && (attrs != [] ==> gap != []) && GoodAttrs(attrs, slash)
  }

  /** One of the tags that are still open at the end has that name. */
  predicate Leaves(f: Forest, name: View) {
    match f
    case Nil => false
    case Unclosed(n, _, _, inside) => n == name || Leaves(inside, name)
    case _ => Leaves(f.next, name)
  }

  /** A text in which names, attributes, texts and marks can be told apart, inside tags whose names are among `open`. */
  ghost predicate WellFormed(f: Forest, open: set<View>) {
    match f
    case Nil => true
    case Text(text, next) => text != [] && (forall i :: 0 <= i < |text| ==> text[i] != '<') && !next.Text? && WellFormed(next, open)
    case Markup(k, text, next) => GoodMarkup(k, text) && WellFormed(next, open)
    case Section(text, next) => text != [] && Free(text, "]]>") && WellFormed(next, open)
    case Stray(text, next) => Free(text, ">") && text !in open && WellFormed(next, open)
    case Void(name, gap, attrs, next) => GoodTag(name, gap, attrs, true) && WellFormed(next, open)
    case Unparsed(name, gap, attrs, text, blanks, next) =>
      GoodTag(name, gap, attrs, false) && Unclosable(text, name) && Blank(blanks) && WellFormed(next, open)
    case Node(name, gap, attrs, inside, next) =>
      GoodTag(name, gap, attrs, false) && !Leaves(inside, name) && WellFormed(inside, open + {name}) && WellFormed(next, open)
    case Unclosed(name, gap, attrs, inside) =>
      GoodTag(name, gap, attrs, false) && Ends(attrs, false) && WellFormed(inside, open + {name})
  }

  /** Every tag is one that is read to its own end. */
  predicate AllEnd(f: Forest) {
    match f
    case Nil => true
    case Void(_, _, attrs, next) => Ends(attrs, true) && AllEnd(next)
    case Unparsed(_, _, attrs, _, _, next) => Ends(attrs, false) && AllEnd(next)
    case Node(_, _, attrs, inside, next) => Ends(attrs, false) && AllEnd(inside) && AllEnd(next)
    case Unclosed(_, _, attrs, inside) => Ends(attrs, false) && AllEnd(inside)
    case _ => AllEnd(f.next)
  }

  /** The reader has the content of a tag parsed exactly if it is written as nodes; the tags are numbered from `id`. */
  ghost predicate Fits(r: Reader, f: Forest, id: nat)
    decreases f
  {
    match f
    case Nil => true
    case Void(_, _, _, next) => Fits(r, next, id + 1)
    case Unparsed(_, _, _, _, _, next) => !r.parses(id) && Fits(r, next, id + 1)
    case Node(_, _, _, inside, next) => r.parses(id) && Fits(r, inside, id + 1) && Fits(r, next, id + 1 + Tags(inside))
    case Unclosed(_, _, _, inside) => r.parses(id) && Fits(r, inside, id + 1)
    case _ => Fits(r, f.next, id)
  }

  function WriteTag(name: View, gap: View, attrs: Attrs, slash: bool, rest: View): View {
    "<" + (name + (gap + WriteAttrs(attrs, EndText(slash, rest))))
  }

  /** The nodes as text, and then `rest`. */
  function Write(f: Forest, rest: View): View {
    match f
    case Nil => rest
    case Text(text, next) => text + Write(next, rest)
    case Markup(k, text, next) => "<" + (Head(k) + (text + (Tail(k) + Write(next, rest))))
    case Section(text, next) => "<![CDATA[" + (text + ("]]>" + Write(next, rest)))
    case Stray(text, next) => "</" + (text + (">" + Write(next, rest)))
    case Void(name, gap, attrs, next) => WriteTag(name, gap, attrs, true, Write(next, rest))
    case Unparsed(name, gap, attrs, text, blanks, next) =>
      WriteTag(name, gap, attrs, false, text + (ClosingTag(name, blanks) + Write(next, rest)))
    case Node(name, gap, attrs, inside, next) =>
      WriteTag(name, gap, attrs, false, Write(inside, "</" + (name + (">" + Write(next, rest)))))
    case Unclosed(name, gap, attrs, inside) => WriteTag(name, gap, attrs, false, Write(inside, rest))
  }

  function Tags(f: Forest): nat {
    match f
    case Nil => 0
    case Void(_, _, _, next) => 1 + Tags(next)
    case Unparsed(_, _, _, _, _, next) => 1 + Tags(next)
    case Node(_, _, _, inside, next) => 1 + Tags(inside) + Tags(next)
    case Unclosed(_, _, _, inside) => 1 + Tags(inside)
    case _ => Tags(f.next)
  }

  predicate HasText(f: Forest) {
    match f
    case Nil => false
    case Text(_, _) => true
    case Section(_, _) => true
    case Unclosed(_, _, _, _) => false
    case _ => HasText(f.next)
  }

  /** The callbacks for an opening tag, up to its end. */
  function TellTag(trace: seq<Event>, name: View, attrs: Attrs, id: nat): seq<Event> {
    TellAttrs(trace + [Begin(Tag(id, name, true, false))], attrs, id)
  }

  /** The tags that are still open at the end, from the outermost to the innermost. */
  function StillOpen(f: Forest, id: nat): seq<Tag>
    decreases f
  {
    match f
    case Nil => []
    case Void(_, _, _, next) => StillOpen(next, id + 1)
    case Unparsed(_, _, _, _, _, next) => StillOpen(next, id + 1)
    case Node(_, _, _, inside, next) => StillOpen(next, id + 1 + Tags(inside))
    case Unclosed(name, _, _, inside) => [Tag(id, name, true, HasText(inside))] + StillOpen(inside, id + 1)
    case _ => StillOpen(f.next, id)
  }

  /** The callbacks for a tag whose content is not parsed. */
  function TellUnparsed(trace: seq<Event>, name: View, attrs: Attrs, text: View, id: nat): seq<Event> {
    var t := Tag(id, name, true, false);
    var pushed := TellTag(trace, name, attrs, id) + [End(id, false)] + [Push(t)];
    (if text == [] then pushed else pushed + [Content(Some(id), text)]) + [Pop(t)]
  }

  /** `trace`, and then the callbacks for the nodes, whose tags are numbered from `id` and which lie in `owner`. */
  function Tell(trace: seq<Event>, f: Forest, owner: Option<nat>, id: nat): seq<Event>
    decreases f
  {
    match f
    case Nil => trace
    case Text(text, next) => Tell(trace + [Content(owner, text)], next, owner, id)
    case Markup(_, _, next) => Tell(trace, next, owner, id)
    case Section(text, next) => Tell(trace + [Content(owner, text)], next, owner, id)
    case Stray(_, next) => Tell(trace, next, owner, id)
    case Void(name, _, attrs, next) =>
      var t := Tag(id, name, true, false);
      Tell(TellTag(trace, name, attrs, id) + [End(id, true)] + [Inline(t.(closable := false))], next, owner, id + 1)
    case Unparsed(name, _, attrs, text, _, next) => Tell(TellUnparsed(trace, name, attrs, text, id), next, owner, id + 1)
    case Node(name, _, attrs, inside, next) =>
      var t := Tag(id, name, true, false);
      var inner := Tell(TellTag(trace, name, attrs, id) + [End(id, false)] + [Push(t)], inside, Some(id), id + 1);
      Tell(PopAll(inner, [t.(content := HasText(inside))] + StillOpen(inside, id + 1)), next, owner, id + 1 + Tags(inside))
    case Unclosed(name, _, attrs, inside) =>
      Tell(TellTag(trace, name, attrs, id) + [End(id, false)] + [Push(Tag(id, name, true, false))], inside, Some(id), id + 1)
  }

  /** The callbacks for a whole document, at whose end the tags that are still open are popped. */
  function Told(f: Forest): seq<Event> { PopAll(Tell([], f, None, 0), StillOpen(f, 0)) }

  function Owner(stack: seq<Tag>): Option<nat> { if stack == [] then None else Some(stack[|stack| - 1].id) }

  function Marked(stack: seq<Tag>, text: bool): seq<Tag> { if stack != [] && text then Mark(stack) else stack }

  predicate Named(stack: seq<Tag>, open: set<View>) { forall i :: 0 <= i < |stack| ==> stack[i].name in open }

  predicate Break(rest: View) { rest == [] || rest[0] == '<' }

  /** The state once the nodes have been read. */
  function Done(s: State, f: Forest, rest: View): State {
    var stack := Marked(s.stack, HasText(f)) + StillOpen(f, s.next);
    State(rest, s.canceled, stack, Tell(s.trace, f, Owner(s.stack), s.next), s.next + Tags(f))
  }

  lemma NameStarts(name: View, rest: View)
    requires GoodName(name)
    ensures After(name + rest, NameStart) == name + rest && !Prefix(name + rest, "!--")
  {
    hide Until, Before, After;
    var s := name + rest;
    UntilAt([], s, NameStart);
    NothingBefore(s);
    assert s[0] == name[0];
    assert |s| >= 3 ==> s[..3][0] == name[0];
  }

  lemma NameEnds(name: View, rest: View)
    requires AllIdent(name) && rest != [] && NameEnd(rest[0])
    ensures Before(name + rest, NameEnd) == name && After(name + rest, NameEnd) == rest
  {
    UntilAt(name, rest, NameEnd);
  }

  lemma PlainName(name: View, gap: View, body: View)
    requires GoodName(name) && Gap(gap) && !Is(gap, '?') && body != [] && IdentOrClose(body[0]) && (gap != [] || body[0] == '>')
    ensures TagName(name + (gap + body)) == (name, body)
  {
    hide Until, Before, After;
    NameStarts(name, gap + body);
    NameEnds(name, gap + body);
    UntilAt(gap, body, IdentOrClose);
  }

  lemma SlashedName(name: View, rest: View)
    requires GoodName(name)
    ensures TagName(name + ("/" + (">" + rest))) == (name, "/" + (">" + rest))
  {
    hide Until, Before, After;
    var end := "/" + (">" + rest);
    var s := name + end;
    NameStarts(name, end);
    assert s == (name + "/") + (">" + rest);
    NameEnds(name + "/", ">" + rest);
    assert Skip(s, |s| - |end|) == end;
    assert (name + "/")[..|name|] == name;
  }

  lemma TagNameIs(name: View, gap: View, attrs: Attrs, slash: bool, rest: View)
    requires GoodTag(name, gap, attrs, slash)
    ensures var body := WriteAttrs(attrs, EndText(slash, rest)); TagName(name + (gap + body)) == (name, body)
  {
    hide TagName, GoodName, GoodAttrs, Until, After;
    var body := WriteAttrs(attrs, EndText(slash, rest));
    StartsWell(attrs, slash, rest);
    if gap == [] && slash {
      SlashedName(name, rest);
      NothingBefore(body);
    } else {
      PlainName(name, gap, body);
    }
  }

  /** An opening tag, from behind `<`: the attributes are read, and then it ends. */
  lemma ElementIs(r: Reader, s: State, name: View, gap: View, attrs: Attrs, slash: bool, rest: View)
    requires Quiet(r) && GoodTag(name, gap, attrs, slash) && !s.canceled
    requires s.current == name + (gap + WriteAttrs(attrs, EndText(slash, rest)))
    ensures var tag, told := Tag(s.next, name, true, false), TellTag(s.trace, name, attrs, s.next);
      if Ends(attrs, slash) then
        OpenTag(r, s) == Finish(r, State(EndText(slash, rest), false, s.stack, told, s.next + 1), tag)
      else
        exists t: State :: OpenTag(r, s) == Finish(r, t, tag) && Strayed(t, told, slash, rest)
  {
    hide Finish, TagName, Attributes, WriteAttrs, GoodAttrs, Ends, Strayed, EndText, Gap;
    TagNameIs(name, gap, attrs, slash, rest);
    var body := WriteAttrs(attrs, EndText(slash, rest));
    var tag := Tag(s.next, name, true, false);
    var s1 := State(body, false, s.stack, s.trace + [Begin(tag)], s.next + 1);
    NothingBefore(body);
    NoGap();
    AttributesAre(r, s1, tag, [], attrs, slash, rest);
    StopsIs(attrs, slash);
    AttributesTell(r, s1, tag);
    OpenIs(r, s, name, body);
    assert OpenTag(r, s) == Finish(r, Attributes(r, s1, tag).0, tag);
  }

  lemma NoGap()
    ensures Gap([])
  {}

  lemma StopsIs(attrs: Attrs, slash: bool)
    ensures Stops([], attrs, slash) == Ends(attrs, slash)
  {}

  lemma OpenIs(r: Reader, s: State, name: View, body: View)
    requires Quiet(r) && GoodName(name) && TagName(s.current) == (name, body) && !s.canceled
    ensures var tag := Tag(s.next, name, true, false);
      var s1 := State(body, false, s.stack, s.trace + [Begin(tag)], s.next + 1);
      OpenTag(r, s) == Finish(r, Attributes(r, s1, tag).0, Attributes(r, s1, tag).1)
  {
    hide TagName, Finish, Attributes;
  }

  lemma FinishIs(r: Reader, s: State, tag: Tag, slash: bool, rest: View)
    requires Quiet(r) && !s.canceled && tag.closable && s.current == EndText(slash, rest)
    ensures var pushed := s.(current := rest, trace := s.trace + [End(tag.id, false)] + [Push(tag)], stack := s.stack + [tag]);
      Finish(r, s, tag) ==
        if slash then
          s.(current := rest, trace := s.trace + [End(tag.id, true)] + [Inline(tag.(closable := false))])
        else if r.parses(tag.id) then pushed
        else HtmlParser.Raw(r, pushed, tag)
  {
    hide HtmlParser.Raw;
    UntilAt(if slash then "/" else "", ">" + rest, Closes);
    assert Skip(">" + rest, 1) == rest;
  }

  lemma OpenStep(r: Reader, rootOnly: bool, s: State)
    requires Is(s.current, '<') && !Is(s.current[1..], '/')
    ensures Run(r, rootOnly, s) == Run(r, rootOnly, OpenTag(r, s.(current := s.current[1..])))
  {
    hide OpenTag, CloseTag;
    NoText(r, s);
  }

  lemma ShutStep(r: Reader, rootOnly: bool, s: State, body: View)
    requires s.current == "</" + body
    ensures var (t, stop) := CloseTag(r, rootOnly, s.(current := body)); Run(r, rootOnly, s) == if stop then t else Run(r, rootOnly, t)
  {
    hide OpenTag, CloseTag;
    NoText(r, s);
    assert s.current[1..][1..] == body;
  }

  /** A closing tag that matches an open tag; the tags inside that one are popped with it. */
  lemma CloseStep(r: Reader, rootOnly: bool, s: State, below: seq<Tag>, tag: Tag, above: seq<Tag>, rest: View)
    requires Quiet(r) && GoodName(tag.name) && s.stack == below + ([tag] + above) && Unnamed(above, tag.name) && !s.canceled
    requires s.current == "</" + (tag.name + (">" + rest))
    ensures var t := State(rest, false, below, PopAll(s.trace, [tag] + above), s.next);
      Run(r, rootOnly, s) == if rootOnly && below == [] then t else Run(r, rootOnly, t)
  {
    hide CloseTag, Run, PopAll, Unnamed;
    var body := tag.name + (">" + rest);
    ShutStep(r, rootOnly, s, body);
    NoCloseIn(tag.name);
    ClosesAll(r, rootOnly, s.(current := body), below, tag, above, rest);
  }

  lemma NoCloseIn(name: View)
    requires GoodName(name)
    ensures Free(name, ">")
  {
    forall i | 0 <= i < |name| ensures !Prefix(name[i..], ">") {
      assert Ident(name[i]);
      NotPrefix(name[i..], ">", 0);
    }
  }

  lemma StrayStep(r: Reader, rootOnly: bool, s: State, text: View, rest: View)
    requires Free(text, ">") && Unnamed(s.stack, text) && s.current == "</" + (text + (">" + rest))
    ensures Run(r, rootOnly, s) == Run(r, rootOnly, s.(current := rest))
  {
    hide CloseTag, Run, Free, Unnamed;
    var body := text + (">" + rest);
    ShutStep(r, rootOnly, s, body);
    StrayIs(r, rootOnly, s.(current := body), text, rest);
  }

  lemma MarkupStep(r: Reader, rootOnly: bool, s: State, k: Kind, text: View, rest: View)
    requires GoodMarkup(k, text) && s.current == "<" + (Head(k) + (text + (Tail(k) + rest)))
    ensures Run(r, rootOnly, s) == Run(r, rootOnly, s.(current := rest))
  {
    hide OpenTag, Run, GoodMarkup;
    assert s.current[1..] == Head(k) + (text + (Tail(k) + rest));
    NoSlash(k, text, rest);
    OpenStep(r, rootOnly, s);
    MarkupIs(r, s.(current := s.current[1..]), k, text, rest);
  }

  lemma NoSlash(k: Kind, text: View, rest: View)
    requires GoodMarkup(k, text)
    ensures !Is(Head(k) + (text + (Tail(k) + rest)), '/')
  {
    if k == Nameless && text != [] { assert !NameStart(text[0]); }
  }

  lemma SectionStep(r: Reader, rootOnly: bool, s: State, text: View, rest: View)
    requires Quiet(r) && !s.canceled && text != [] && Free(text, "]]>") && s.current == "<![CDATA[" + (text + ("]]>" + rest))
    ensures var t := State(rest, false, Marked(s.stack, true), s.trace + [Content(Owner(s.stack), text)], s.next);
      Run(r, rootOnly, s) == Run(r, rootOnly, t)
  {
    hide OpenTag, Run, Free;
    assert s.current[1..] == "![CDATA[" + (text + ("]]>" + rest));
    OpenStep(r, rootOnly, s);
    SectionIs(r, s.(current := s.current[1..]), text, rest);
  }

  lemma NoText(r: Reader, s: State)
    requires Is(s.current, '<')
    ensures ReadText(r, s) == s
  {
    UntilAt([], s.current, Opens);
    assert [] + s.current == s.current;
  }

  lemma TextStep(r: Reader, rootOnly: bool, s: State, text: View, rest: View)
    requires Quiet(r) && Break(rest) && s.current == text + rest && text != [] && (forall i :: 0 <= i < |text| ==> text[i] != '<')
    requires !s.canceled
    ensures var t := State(rest, false, Marked(s.stack, true), s.trace + [Content(Owner(s.stack), text)], s.next);
      Run(r, rootOnly, s) == Run(r, rootOnly, t)
  {
    hide OpenTag, CloseTag;
    UntilAt(text, rest, Opens);
    var t := ReadText(r, s);
    assert t == State(rest, false, Marked(s.stack, true), s.trace + [Content(Owner(s.stack), text)], s.next);
    if rest != [] {
      NoText(r, t);
    }
  }

  lemma TagStep(r: Reader, rootOnly: bool, s: State, name: View, gap: View, attrs: Attrs, slash: bool, rest: View)
    requires Quiet(r) && GoodTag(name, gap, attrs, slash) && s.current == WriteTag(name, gap, attrs, slash, rest)
    ensures |s.current| > 0 && s.current[1..] == name + (gap + WriteAttrs(attrs, EndText(slash, rest)))
    ensures Run(r, rootOnly, s) == Run(r, rootOnly, OpenTag(r, s.(current := s.current[1..])))
  {
    hide OpenTag, WriteAttrs, CloseTag, EndText, GoodAttrs, Gap;
    assert s.current[1..] == name + (gap + WriteAttrs(attrs, EndText(slash, rest)));
    assert s.current[1..][0] == name[0];
    OpenStep(r, rootOnly, s);
  }

  lemma WriteBreaks(f: Forest, rest: View)
    requires !f.Text? && Break(rest)
    ensures Break(Write(f, rest))
  {}

  lemma VoidStep(r: Reader, rootOnly: bool, s: State, name: View, gap: View, attrs: Attrs, rest: View)
    requires Quiet(r) && GoodTag(name, gap, attrs, true) && Ends(attrs, true) && !s.canceled
    requires s.current == WriteTag(name, gap, attrs, true, rest)
    ensures var t := Tag(s.next, name, true, false);
      var trace := TellTag(s.trace, name, attrs, s.next) + [End(s.next, true)] + [Inline(t.(closable := false))];
      Run(r, rootOnly, s) == Run(r, rootOnly, State(rest, false, s.stack, trace, s.next + 1))
  {
    hide Run, OpenTag, Finish, TellTag, GoodTag, EndText, WriteAttrs;
    TagStep(r, rootOnly, s, name, gap, attrs, true, rest);
    ElementIs(r, s.(current := s.current[1..]), name, gap, attrs, true, rest);
    var told := TellTag(s.trace, name, attrs, s.next);
    FinishIs(r, State(EndText(true, rest), false, s.stack, told, s.next + 1), Tag(s.next, name, true, false), true, rest);
  }

  lemma NodeStep(r: Reader, rootOnly: bool, s: State, name: View, gap: View, attrs: Attrs, rest: View)
    requires Quiet(r) && GoodTag(name, gap, attrs, false) && Ends(attrs, false) && !s.canceled
    requires s.current == WriteTag(name, gap, attrs, false, rest)
    ensures var t := Tag(s.next, name, true, false);
      var trace := TellTag(s.trace, name, attrs, s.next) + [End(s.next, false)] + [Push(t)];
      var pushed := State(rest, false, s.stack + [t], trace, s.next + 1);
      Run(r, rootOnly, s) == Run(r, rootOnly, if r.parses(s.next) then pushed else HtmlParser.Raw(r, pushed, t))
  {
    hide Run, OpenTag, Finish, TellTag, GoodTag, EndText, WriteAttrs, HtmlParser.Raw;
    TagStep(r, rootOnly, s, name, gap, attrs, false, rest);
    ElementIs(r, s.(current := s.current[1..]), name, gap, attrs, false, rest);
    var told := TellTag(s.trace, name, attrs, s.next);
    FinishIs(r, State(EndText(false, rest), false, s.stack, told, s.next + 1), Tag(s.next, name, true, false), false, rest);
  }

  /** A tag whose content is not parsed, up to its closing tag. */
  lemma UnparsedStep(r: Reader, rootOnly: bool, s: State, name: View, gap: View, attrs: Attrs, text: View, blanks: View, rest: View)
    requires Quiet(r) && GoodTag(name, gap, attrs, false) && Ends(attrs, false) && !s.canceled && !r.parses(s.next)
    requires Unclosable(text, name) && Blank(blanks)
    requires s.current == WriteTag(name, gap, attrs, false, text + (ClosingTag(name, blanks) + rest))
    ensures var t := State(rest, false, s.stack, TellUnparsed(s.trace, name, attrs, text, s.next), s.next + 1);
      Run(r, rootOnly, s) == Run(r, rootOnly, t)
  {
    hide Run, TellTag, GoodTag, WriteTag, Unclosable, ClosingTag, Blank, RawEnd, HtmlParser.Raw, GoodName;
    var close := ClosingTag(name, blanks) + rest;
    NodeStep(r, rootOnly, s, name, gap, attrs, text + close);
    NameOf(name, gap, attrs, false);
    var t := Tag(s.next, name, true, false);
    var trace := TellTag(s.trace, name, attrs, s.next) + [End(s.next, false)] + [Push(t)];
    RawStep(r, State(text + close, false, s.stack + [t], trace, s.next + 1), s.stack, t, text, blanks, rest);
  }

  lemma RawStep(r: Reader, s: State, below: seq<Tag>, tag: Tag, text: View, blanks: View, rest: View)
    requires Quiet(r) && s.stack == below + [tag] && !s.canceled && GoodName(tag.name) && Unclosable(text, tag.name) && Blank(blanks)
    requires s.current == text + (ClosingTag(tag.name, blanks) + rest)
    ensures HtmlParser.Raw(r, s, tag) ==
      s.(current := rest, stack := below,
         trace := (if text == [] then s.trace else s.trace + [Content(Some(tag.id), text)]) + [Pop(tag)])
  {
    hide HtmlParser.Raw, RawEnd, Unclosable, ClosingTag, Blank;
    var close := ClosingTag(tag.name, blanks) + rest;
    RawEndIs(text, tag.name, blanks, rest);
    RawIs(r, s, tag, Some((close, rest)));
    assert s.current[..|s.current| - |close|] == text && s.stack[..|s.stack| - 1] == below;
  }

  /** The state behind `<name ...>inside</name>`, of which the nodes inside have been told. */
  function Behind(s: State, name: View, attrs: Attrs, inside: Forest, rest: View): State {
    var t := Tag(s.next, name, true, false);
    var told := TellTag(s.trace, name, attrs, s.next) + [End(s.next, false)] + [Push(t)];
    var inner := Tell(told, inside, Some(s.next), s.next + 1);
    var trace := PopAll(inner, [t.(content := HasText(inside))] + StillOpen(inside, s.next + 1));
    State(rest, false, s.stack, trace, s.next + 1 + Tags(inside))
  }

  /** The state inside an opening tag that has just been pushed. */
  function Within(s: State, name: View, attrs: Attrs, rest: View): State {
    var t := Tag(s.next, name, true, false);
    var told := TellTag(s.trace, name, attrs, s.next) + [End(s.next, false)] + [Push(t)];
    State(rest, false, s.stack + [t], told, s.next + 1)
  }

  lemma WithinIs(r: Reader, rootOnly: bool, s: State, name: View, gap: View, attrs: Attrs, open: set<View>, rest: View)
    requires Quiet(r) && GoodTag(name, gap, attrs, false) && Ends(attrs, false) && !s.canceled && r.parses(s.next) && Named(s.stack, open)
    requires s.current == WriteTag(name, gap, attrs, false, rest)
    ensures var t := Within(s, name, attrs, rest);
      Run(r, rootOnly, s) == Run(r, rootOnly, t) && Named(t.stack, open + {name}) && Owner(t.stack) == Some(s.next)
  {
    hide Run, TellTag, GoodTag, WriteTag, HtmlParser.Raw;
    NodeStep(r, rootOnly, s, name, gap, attrs, rest);
  }

  /** From the opening tag over the nodes inside to behind the closing tag. */
  lemma {:induction false} NodeRuns(r: Reader, rootOnly: bool, s: State, name: View, gap: View, attrs: Attrs, inside: Forest, open: set<View>, rest: View)
    requires Quiet(r) && GoodTag(name, gap, attrs, false) && Ends(attrs, false) && AllEnd(inside) && !s.canceled
    requires !Leaves(inside, name) && WellFormed(inside, open + {name}) && Named(s.stack, open)
    requires r.parses(s.next) && Fits(r, inside, s.next + 1)
    requires s.current == WriteTag(name, gap, attrs, false, Write(inside, "</" + (name + (">" + rest))))
    ensures var t := Behind(s, name, attrs, inside, rest);
      Run(r, rootOnly, s) == if rootOnly && s.stack == [] then t else Run(r, rootOnly, t)
    decreases inside, 1
  {
    hide Run, WriteTag, TellTag, GoodTag, Ends, AllEnd, Tell, Write, HasText, WellFormed, Fits, Leaves, Named, PopAll, StillOpen;
    var close := "</" + (name + (">" + rest));
    WithinIs(r, rootOnly, s, name, gap, attrs, open, Write(inside, close));
    var s1 := Within(s, name, attrs, Write(inside, close));
    ForestRuns(r, rootOnly, s1, inside, open + {name}, close);
    var s2 := Done(s1, inside, close);
    NameOf(name, gap, attrs, false);
    var t := Tag(s.next, name, true, false);
    var above := StillOpen(inside, s.next + 1);
    LeftUnnamed(inside, s.next + 1, name);
    MarkedTop(s.stack, t, HasText(inside), above);
    CloseStep(r, rootOnly, s2, s.stack, t.(content := HasText(inside)), above, rest);
  }

  /** The mark of the innermost open tag. */
  lemma MarkedTop(stack: seq<Tag>, t: Tag, text: bool, above: seq<Tag>)
    ensures Marked(stack + [t], text) + above == stack + ([t.(content := t.content || text)] + above)
  {}

  lemma NameOf(name: View, gap: View, attrs: Attrs, slash: bool)
    requires GoodTag(name, gap, attrs, slash)
    ensures GoodName(name) && AllIdent(name)
  {}

  lemma {:induction false} LeftUnnamed(f: Forest, id: nat, name: View)
    requires !Leaves(f, name)
    ensures Unnamed(StillOpen(f, id), name)
    decreases f
  {
    match f
    case Nil =>
    case Void(_, _, _, next) => LeftUnnamed(next, id + 1, name);
    case Unparsed(_, _, _, _, _, next) => LeftUnnamed(next, id + 1, name);
    case Node(_, _, _, inside, next) => LeftUnnamed(next, id + 1 + Tags(inside), name);
    case Unclosed(_, _, _, inside) => LeftUnnamed(inside, id + 1, name);
    case _ => LeftUnnamed(f.next, id, name);
  }

  lemma StrayUnnamed(stack: seq<Tag>, open: set<View>, text: View)
    requires Named(stack, open) && text !in open
    ensures Unnamed(stack, text)
  {}

  /** The nodes can be read from here, and `rest` follows them. */
  ghost predicate Ready(r: Reader, rootOnly: bool, s: State, f: Forest, open: set<View>, rest: View) {
    && WellFormed(f, open) && Fits(r, f, s.next) && Named(s.stack, open)
    && Break(rest) && s.current == Write(f, rest) && !s.canceled && (rootOnly ==> s.stack != [])
  }

  /** A node without nodes inside, which is read to its own end. */
  predicate Leaf(f: Forest) {
    match f
    case Nil => false
    case Node(_, _, _, _, _) => false
    case Unclosed(_, _, _, _) => false
    case Void(_, _, attrs, _) => Ends(attrs, true)
    case Unparsed(_, _, attrs, _, _, _) => Ends(attrs, false)
    case _ => true
  }

  /** The state behind a leaf. */
  function Passed(s: State, f: Forest, rest: View): State
    requires Leaf(f)
  {
    match f
    case Void(name, _, attrs, next) =>
      var t := Tag(s.next, name, true, false);
      var told := TellTag(s.trace, name, attrs, s.next) + [End(s.next, true)] + [Inline(t.(closable := false))];
      State(Write(next, rest), false, s.stack, told, s.next + 1)
    case Unparsed(name, _, attrs, text, _, next) =>
      State(Write(next, rest), false, s.stack, TellUnparsed(s.trace, name, attrs, text, s.next), s.next + 1)
    case Markup(_, _, next) => s.(current := Write(next, rest))
    case Stray(_, next) => s.(current := Write(next, rest))
    case Text(text, next) => State(Write(next, rest), false, Marked(s.stack, true), s.trace + [Content(Owner(s.stack), text)], s.next)
    case Section(text, next) => State(Write(next, rest), false, Marked(s.stack, true), s.trace + [Content(Owner(s.stack), text)], s.next)
  }

  /** The run goes on behind a leaf. */
  lemma LeafRuns(r: Reader, rootOnly: bool, s: State, f: Forest, open: set<View>, rest: View)
    requires Quiet(r) && Leaf(f) && Ready(r, rootOnly, s, f, open, rest)
    ensures Run(r, rootOnly, s) == Run(r, rootOnly, Passed(s, f, rest))
  {
    hide Run, WriteTag, TellTag, GoodTag, Ends, Quiet, GoodMarkup, Free, Unclosable, Blank, ClosingTag, TellUnparsed, Leaves, Head, Tail;
    match f
    case Text(text, next) =>
      WriteBreaks(next, rest);
      TextStep(r, rootOnly, s, text, Write(next, rest));
    case Markup(k, text, next) =>
      MarkupStep(r, rootOnly, s, k, text, Write(next, rest));
    case Section(text, next) =>
      SectionStep(r, rootOnly, s, text, Write(next, rest));
    case Stray(text, next) =>
      StrayUnnamed(s.stack, open, text);
      StrayStep(r, rootOnly, s, text, Write(next, rest));
    case Void(name, gap, attrs, next) =>
      VoidStep(r, rootOnly, s, name, gap, attrs, Write(next, rest));
    case Unparsed(name, gap, attrs, text, blanks, next) =>
      UnparsedStep(r, rootOnly, s, name, gap, attrs, text, blanks, Write(next, rest));
  }

  /** What is left to read, to tell and to do is that of the nodes behind the leaf. */
  lemma LeafPassed(r: Reader, rootOnly: bool, s: State, f: Forest, open: set<View>, rest: View)
    requires Leaf(f) && Ready(r, rootOnly, s, f, open, rest)
    ensures var t := Passed(s, f, rest);
      && Ready(r, rootOnly, t, f.next, open, rest) && (AllEnd(f) <==> AllEnd(f.next))
      && Tell(s.trace, f, Owner(s.stack), s.next) == Tell(t.trace, f.next, Owner(t.stack), t.next)
      && Done(s, f, rest) == Done(t, f.next, rest)
  {
    hide WriteTag, TellTag, GoodTag, Ends, GoodMarkup, Free, Unclosable, Blank, ClosingTag, TellUnparsed, PopAll, Leaves, Head, Tail,
      Done, Break, Marked;
    LeafDone(s, f, rest);
    LeafStack(s.stack, open);
  }

  lemma LeafDone(s: State, f: Forest, rest: View)
    requires Leaf(f) && !s.canceled
    ensures Done(s, f, rest) == Done(Passed(s, f, rest), f.next, rest)
  {
    hide WriteTag, TellTag, Ends, ClosingTag, TellUnparsed, PopAll, Head, Tail, Write;
  }

  lemma LeafStack(stack: seq<Tag>, open: set<View>)
    requires Named(stack, open)
    ensures var t := Marked(stack, true); Named(t, open) && Owner(t) == Owner(stack) && (t == [] <==> stack == [])
  {}

  /** The nodes are told, one after the other, and the run goes on behind them. */
  lemma {:induction false} ForestRuns(r: Reader, rootOnly: bool, s: State, f: Forest, open: set<View>, rest: View)
    requires Quiet(r) && AllEnd(f) && Ready(r, rootOnly, s, f, open, rest)
    ensures Run(r, rootOnly, s) == Run(r, rootOnly, Done(s, f, rest))
    decreases f, 0
  {
    hide Run, WriteTag, TellTag, GoodTag, Ends, Quiet, GoodMarkup, Free, Unclosable, Blank, ClosingTag, TellUnparsed, PopAll, Head, Tail, Passed;
    match f
    case Nil =>
      assert s.stack + [] == s.stack;
    case Node(name, gap, attrs, inside, next) =>
      NodeRuns(r, rootOnly, s, name, gap, attrs, inside, open, Write(next, rest));
      ForestRuns(r, rootOnly, Behind(s, name, attrs, inside, Write(next, rest)), next, open, rest);
    case Unclosed(name, gap, attrs, inside) =>
      WithinIs(r, rootOnly, s, name, gap, attrs, open, Write(inside, rest));
      ForestRuns(r, rootOnly, Within(s, name, attrs, Write(inside, rest)), inside, open + {name}, rest);
      MarkedTop(s.stack, Tag(s.next, name, true, false), HasText(inside), StillOpen(inside, s.next + 1));
    case _ =>
      LeafRuns(r, rootOnly, s, f, open, rest);
      LeafPassed(r, rootOnly, s, f, open, rest);
      ForestRuns(r, rootOnly, Passed(s, f, rest), f.next, open, rest);
  }

  /* ---- tags that are not read to their own end ---- */

  /** Two traces that part at some callback. */
  predicate Differ(a: seq<Event>, b: seq<Event>) { exists k :: 0 <= k < |a| && k < |b| && a[k] != b[k] }

  lemma StillDiffer(a: seq<Event>, b: seq<Event>, c: seq<Event>, d: seq<Event>)
    requires Differ(a, b) && a <= c && b <= d
    ensures Differ(c, d) && c != d
  {
    var k :| 0 <= k < |a| && k < |b| && a[k] != b[k];
    assert c[k] == a[k] && d[k] == b[k];
  }

  lemma {:induction false} TellAttrsGrows(trace: seq<Event>, attrs: Attrs, id: nat)
    ensures trace <= TellAttrs(trace, attrs, id)
    decreases |attrs|
  {
    if attrs != [] {
      TellAttrsGrows(trace + [Attribute(id, attrs[0].name, ValueOf(attrs[0].form))], attrs[1..], id);
    }
  }

  lemma {:induction false} PopAllGrows(trace: seq<Event>, tags: seq<Tag>)
    ensures trace <= PopAll(trace, tags)
    decreases |tags|
  {
    if tags != [] {
      PopAllGrows(trace + [Pop(tags[|tags| - 1])], tags[..|tags| - 1]);
    }
  }

  lemma {:induction false} TellGrows(trace: seq<Event>, f: Forest, owner: Option<nat>, id: nat)
    ensures trace <= Tell(trace, f, owner, id)
    decreases f
  {
    hide TellAttrs, PopAll, StillOpen, HasText;
    match f
    case Nil =>
    case Text(text, next) => TellGrows(trace + [Content(owner, text)], next, owner, id);
    case Markup(_, _, next) => TellGrows(trace, next, owner, id);
    case Section(text, next) => TellGrows(trace + [Content(owner, text)], next, owner, id);
    case Stray(_, next) => TellGrows(trace, next, owner, id);
    case Void(name, _, attrs, next) =>
      TellAttrsGrows(trace + [Begin(Tag(id, name, true, false))], attrs, id);
      var t := Tag(id, name, true, false);
      TellGrows(TellTag(trace, name, attrs, id) + [End(id, true)] + [Inline(t.(closable := false))], next, owner, id + 1);
    case Unparsed(name, _, attrs, text, _, next) =>
      TellAttrsGrows(trace + [Begin(Tag(id, name, true, false))], attrs, id);
      TellGrows(TellUnparsed(trace, name, attrs, text, id), next, owner, id + 1);
    case Node(name, _, attrs, inside, next) =>
      TellAttrsGrows(trace + [Begin(Tag(id, name, true, false))], attrs, id);
      var t := Tag(id, name, true, false);
      var told := TellTag(trace, name, attrs, id) + [End(id, false)] + [Push(t)];
      TellGrows(told, inside, Some(id), id + 1);
      var inner := Tell(told, inside, Some(id), id + 1);
      var left := [t.(content := HasText(inside))] + StillOpen(inside, id + 1);
      PopAllGrows(inner, left);
      TellGrows(PopAll(inner, left), next, owner, id + 1 + Tags(inside));
    case Unclosed(name, _, attrs, inside) =>
      TellAttrsGrows(trace + [Begin(Tag(id, name, true, false))], attrs, id);
      TellGrows(TellTag(trace, name, attrs, id) + [End(id, false)] + [Push(Tag(id, name, true, false))], inside, Some(id), id + 1);
  }

  /** A tag that is not read to its own end is not told as it was written. */
  lemma TagStrays(r: Reader, rootOnly: bool, s: State, name: View, gap: View, attrs: Attrs, slash: bool, rest: View)
    requires Quiet(r) && GoodTag(name, gap, attrs, slash) && !Ends(attrs, slash) && (slash || HasIdent(rest)) && !s.canceled
    requires s.current == WriteTag(name, gap, attrs, slash, rest)
    ensures Differ(TellTag(s.trace, name, attrs, s.next) + [End(s.next, slash)], Run(r, rootOnly, s).trace)
  {
    hide Run, OpenTag, Finish, TellTag, GoodTag, EndText, WriteAttrs, Ends, HasIdent, Is, Differ, Grows;
    TagStep(r, rootOnly, s, name, gap, attrs, slash, rest);
    var s1 := s.(current := s.current[1..]);
    ElementIs(r, s1, name, gap, attrs, slash, rest);
    var tag, told := Tag(s.next, name, true, false), TellTag(s.trace, name, attrs, s.next);
    var t: State :| OpenTag(r, s1) == Finish(r, t, tag) && Strayed(t, told, slash, rest);
    FinishGrows(r, t, tag);
    RunGrows(r, rootOnly, OpenTag(r, s1));
    Parted(t, tag, told, slash, rest, OpenTag(r, s1), Run(r, rootOnly, s));
  }

  lemma Parted(t: State, tag: Tag, told: seq<Event>, slash: bool, rest: View, u: State, end: State)
    requires Strayed(t, told, slash, rest) && (slash || HasIdent(rest)) && tag.closable && Grows(u, end)
    requires t.trace + [End(tag.id, !(tag.closable && !Is(t.current, '/')))] <= u.trace
    ensures Differ(told + [End(tag.id, slash)], end.trace)
  {
    var a := told + [End(tag.id, slash)];
    assert u.trace <= end.trace;
    assert a[|told|] != end.trace[|told|];
  }

  lemma ClosingName(f: Forest, name: View, rest: View)
    requires GoodName(name)
    ensures HasIdent(Write(f, "</" + (name + rest)))
  {
    NameInside(f, "</" + (name + rest));
    assert ("</" + (name + rest))[1] == '/';
  }

  lemma {:induction false} NameInside(f: Forest, rest: View)
    requires HasIdent(rest)
    ensures HasIdent(Write(f, rest))
    decreases f
  {
    hide WriteAttrs, HasIdent, WriteTag, Head, Tail, ClosingTag;
    match f
    case Nil =>
    case Text(text, next) =>
      NameInside(next, rest);
      IdentBehind(text, Write(next, rest));
    case Markup(k, text, next) =>
      NameInside(next, rest);
      IdentBehind(Tail(k), Write(next, rest));
      IdentBehind(text, Tail(k) + Write(next, rest));
      IdentBehind(Head(k), text + (Tail(k) + Write(next, rest)));
      IdentBehind("<", Head(k) + (text + (Tail(k) + Write(next, rest))));
    case Section(text, next) =>
      NameInside(next, rest);
      IdentBehind("]]>", Write(next, rest));
      IdentBehind(text, "]]>" + Write(next, rest));
      IdentBehind("<![CDATA[", text + ("]]>" + Write(next, rest)));
    case Stray(text, next) =>
      NameInside(next, rest);
      IdentBehind(">", Write(next, rest));
      IdentBehind(text, ">" + Write(next, rest));
      IdentBehind("</", text + (">" + Write(next, rest)));
    case Void(name, gap, attrs, next) =>
      NameInside(next, rest);
      TagBefore(name, gap, attrs, true, Write(next, rest));
    case Unparsed(name, gap, attrs, text, blanks, next) =>
      NameInside(next, rest);
      var close := ClosingTag(name, blanks);
      IdentBehind(close, Write(next, rest));
      IdentBehind(text, close + Write(next, rest));
      TagBefore(name, gap, attrs, false, text + (close + Write(next, rest)));
    case Node(name, gap, attrs, inside, next) =>
      NameInside(next, rest);
      var close := "</" + (name + (">" + Write(next, rest)));
      IdentBehind(">", Write(next, rest));
      IdentBehind(name, ">" + Write(next, rest));
      IdentBehind("</", name + (">" + Write(next, rest)));
      NameInside(inside, close);
      TagBefore(name, gap, attrs, false, Write(inside, close));
    case Unclosed(name, gap, attrs, inside) =>
      NameInside(inside, rest);
      TagBefore(name, gap, attrs, false, Write(inside, rest));
  }

  lemma IdentBehind(a: View, b: View)
    requires HasIdent(b)
    ensures HasIdent(a + b)
  {
    var j :| 0 <= j < |b| && Ident(b[j]);
    assert (a + b)[|a| + j] == b[j];
  }

  lemma TagBefore(name: View, gap: View, attrs: Attrs, slash: bool, rest: View)
    requires HasIdent(rest)
    ensures HasIdent(WriteTag(name, gap, attrs, slash, rest))
  {
    hide HasIdent, WriteAttrs, EndText;
    AttrsBefore(attrs, slash, rest);
    var body := WriteAttrs(attrs, EndText(slash, rest));
    IdentBehind(gap, body);
    IdentBehind(name, gap + body);
    IdentBehind("<", name + (gap + body));
  }

  lemma {:induction false} AttrsBefore(attrs: Attrs, slash: bool, rest: View)
    requires HasIdent(rest)
    ensures HasIdent(WriteAttrs(attrs, EndText(slash, rest)))
    decreases |attrs|
  {
    hide HasIdent;
    if attrs == [] {
      IdentBehind(">", rest);
      IdentBehind(if slash then "/" else "", ">" + rest);
    } else {
      AttrsBefore(attrs[1..], slash, rest);
      var a, more := attrs[0], WriteAttrs(attrs[1..], EndText(slash, rest));
      IdentBehind(a.gap, more);
      IdentBehind(FormText(a.form), a.gap + more);
      IdentBehind(a.name, FormText(a.form) + (a.gap + more));
    }
  }

  /** A node one of whose tags is not read to its own end. */
  lemma {:induction false} NodeStrays(r: Reader, rootOnly: bool, s: State, name: View, gap: View, attrs: Attrs, inside: Forest, open: set<View>, rest: View)
    requires Quiet(r) && GoodTag(name, gap, attrs, false) && !(Ends(attrs, false) && AllEnd(inside)) && !s.canceled
    requires WellFormed(inside, open + {name}) && Named(s.stack, open) && r.parses(s.next) && Fits(r, inside, s.next + 1)
    requires s.current == WriteTag(name, gap, attrs, false, Write(inside, "</" + (name + (">" + rest))))
    ensures Differ(Behind(s, name, attrs, inside, rest).trace, Run(r, rootOnly, s).trace)
    decreases inside, 1
  {
    hide Run, WriteTag, TellTag, GoodTag, Ends, AllEnd, Tell, Write, HasText, WellFormed, Differ, Fits, Named, PopAll, StillOpen;
    var close := "</" + (name + (">" + rest));
    var s1 := Within(s, name, attrs, Write(inside, close));
    var inner := Tell(s1.trace, inside, Some(s.next), s.next + 1);
    var t := Behind(s, name, attrs, inside, rest);
    TellGrows(s1.trace, inside, Some(s.next), s.next + 1);
    PopAllGrows(inner, [Tag(s.next, name, true, HasText(inside))] + StillOpen(inside, s.next + 1));
    var ran := Run(r, rootOnly, s).trace;
    if Ends(attrs, false) {
      WithinIs(r, rootOnly, s, name, gap, attrs, open, Write(inside, close));
      ForestStrays(r, rootOnly, s1, inside, open + {name}, close);
      StillDiffer(inner, ran, t.trace, ran);
    } else {
      NameOf(name, gap, attrs, false);
      ClosingName(inside, name, ">" + rest);
      TagStrays(r, rootOnly, s, name, gap, attrs, false, Write(inside, close));
      StillDiffer(TellTag(s.trace, name, attrs, s.next) + [End(s.next, false)], ran, t.trace, ran);
    }
  }

  lemma UnparsedStrays(r: Reader, rootOnly: bool, s: State, name: View, gap: View, attrs: Attrs, text: View, blanks: View, rest: View)
    requires Quiet(r) && GoodTag(name, gap, attrs, false) && !Ends(attrs, false) && !s.canceled
    requires s.current == WriteTag(name, gap, attrs, false, text + (ClosingTag(name, blanks) + rest))
    ensures Differ(TellUnparsed(s.trace, name, attrs, text, s.next), Run(r, rootOnly, s).trace)
  {
    hide Run, WriteTag, TellTag, GoodTag, Ends, Differ, HasIdent;
    var close := ClosingTag(name, blanks) + rest;
    SlashInside(name, blanks, rest);
    IdentBehind(text, close);
    TagStrays(r, rootOnly, s, name, gap, attrs, false, text + close);
    var ended := TellTag(s.trace, name, attrs, s.next) + [End(s.next, false)];
    var ran := Run(r, rootOnly, s).trace;
    StillDiffer(ended, ran, TellUnparsed(s.trace, name, attrs, text, s.next), ran);
  }

  lemma SlashInside(name: View, blanks: View, rest: View)
    ensures HasIdent(ClosingTag(name, blanks) + rest)
  {
    assert (ClosingTag(name, blanks) + rest)[1] == '/';
  }

  /** Nodes one of whose tags is not read to its own end are not told as they were written. */
  lemma {:induction false} ForestStrays(r: Reader, rootOnly: bool, s: State, f: Forest, open: set<View>, rest: View)
    requires Quiet(r) && !AllEnd(f) && Ready(r, rootOnly, s, f, open, rest)
    ensures Differ(Tell(s.trace, f, Owner(s.stack), s.next), Run(r, rootOnly, s).trace)
    decreases f, 0
  {
    hide Run, WriteTag, TellTag, GoodTag, Ends, Quiet, Differ, GoodMarkup, Free, Unclosable, Blank, ClosingTag, TellUnparsed, PopAll, Head, Tail, Passed;
    var ran := Run(r, rootOnly, s).trace;
    if Leaf(f) {
      LeafRuns(r, rootOnly, s, f, open, rest);
      LeafPassed(r, rootOnly, s, f, open, rest);
      ForestStrays(r, rootOnly, Passed(s, f, rest), f.next, open, rest);
    } else if f.Node? && Ends(f.attrs, false) && AllEnd(f.inside) {
      NodeRuns(r, rootOnly, s, f.name, f.gap, f.attrs, f.inside, open, Write(f.next, rest));
      ForestStrays(r, rootOnly, Behind(s, f.name, f.attrs, f.inside, Write(f.next, rest)), f.next, open, rest);
    } else if f.Unclosed? {
      WithinIs(r, rootOnly, s, f.name, f.gap, f.attrs, open, Write(f.inside, rest));
      ForestStrays(r, rootOnly, Within(s, f.name, f.attrs, Write(f.inside, rest)), f.inside, open + {f.name}, rest);
    } else {
      FirstStrays(r, rootOnly, s, f, open, rest);
    }
  }

  /** The first of the nodes is not told as it was written. */
  lemma {:induction false} FirstStrays(r: Reader, rootOnly: bool, s: State, f: Forest, open: set<View>, rest: View)
    requires Quiet(r) && Ready(r, rootOnly, s, f, open, rest) && (f.Void? || f.Unparsed? || f.Node?)
    requires !Ends(f.attrs, f.Void?) || (f.Node? && !AllEnd(f.inside))
    ensures Differ(Tell(s.trace, f, Owner(s.stack), s.next), Run(r, rootOnly, s).trace)
    decreases f, -1
  {
    hide Run, WriteTag, TellTag, GoodTag, Ends, Quiet, Differ, GoodMarkup, Free, Unclosable, Blank, ClosingTag, TellUnparsed, PopAll, Head, Tail;
    var ran := Run(r, rootOnly, s).trace;
    match f
    case Void(name, gap, attrs, next) =>
      var t := Tag(s.next, name, true, false);
      var ended := TellTag(s.trace, name, attrs, s.next) + [End(s.next, true)];
      TagStrays(r, rootOnly, s, name, gap, attrs, true, Write(next, rest));
      TellGrows(ended + [Inline(t.(closable := false))], next, Owner(s.stack), s.next + 1);
      StillDiffer(ended, ran, Tell(s.trace, f, Owner(s.stack), s.next), ran);
    case Unparsed(name, gap, attrs, text, blanks, next) =>
      var told := TellUnparsed(s.trace, name, attrs, text, s.next);
      UnparsedStrays(r, rootOnly, s, name, gap, attrs, text, blanks, Write(next, rest));
      TellGrows(told, next, Owner(s.stack), s.next + 1);
      StillDiffer(told, ran, Tell(s.trace, f, Owner(s.stack), s.next), ran);
    case Node(name, gap, attrs, inside, next) =>
      var t := Behind(s, name, attrs, inside, Write(next, rest));
      NodeStrays(r, rootOnly, s, name, gap, attrs, inside, open, Write(next, rest));
      TellGrows(t.trace, next, Owner(s.stack), t.next);
      StillDiffer(t.trace, ran, Tell(s.trace, f, Owner(s.stack), s.next), ran);
  }

  /** A written document is told exactly if every tag of it is one that is read to its own end. */
  lemma DocumentIsTold(r: Reader, f: Forest)
    requires Quiet(r) && WellFormed(f, {}) && Fits(r, f, 0)
    ensures var s := Outcome(r, false, Write(f, ""));
      (s.trace == Told(f) <==> AllEnd(f)) && (AllEnd(f) ==> !s.canceled && s.next == Tags(f))
  {
    hide Run, Tell, WellFormed, AllEnd, Write, Differ, Quiet, Fits, StillOpen, PopAll;
    var s := Start(Write(f, ""));
    var ran := Run(r, false, s);
    if AllEnd(f) {
      ForestRuns(r, false, s, f, {}, "");
      assert [] + StillOpen(f, 0) == StillOpen(f, 0);
      AtEnd(r, Done(s, f, ""));
    } else {
      ForestStrays(r, false, s, f, {}, "");
      PopToGrows(r, ran, 0);
      var told := Tell([], f, None, 0);
      PopAllGrows(told, StillOpen(f, 0));
      StillDiffer(told, ran.trace, Told(f), Outcome(r, false, Write(f, "")).trace);
    }
  }

  lemma AtEnd(r: Reader, s: State)
    requires Quiet(r) && s.current == [] && !s.canceled
    ensures PopTo(r, Run(r, false, s), 0) == s.(trace := PopAll(s.trace, s.stack), stack := [])
  {
    hide PopAll;
    PopsAll(r, s, 0);
    assert s.stack[0..] == s.stack && s.stack[..0] == [];
  }

  /** With the root alone wanted, the same holds of the root, and whatever follows it is not read. */
  lemma RootIsTold(r: Reader, name: View, gap: View, attrs: Attrs, inside: Forest, rest: View)
    requires Quiet(r) && WellFormed(Node(name, gap, attrs, inside, Nil), {}) && Fits(r, Node(name, gap, attrs, inside, Nil), 0)
    ensures var root := Node(name, gap, attrs, inside, Nil);
      var s := Outcome(r, true, Write(root, rest));
      (s.trace == Told(root) <==> AllEnd(root)) && (AllEnd(root) ==> !s.canceled && s.current == rest)
  {
    hide Run, WriteTag, TellTag, GoodTag, Ends, Differ, PopAll, Quiet, Leaves;
    var s := Start(Write(Node(name, gap, attrs, inside, Nil), rest));
    var t := Behind(s, name, attrs, inside, rest);
    assert Write(Nil, rest) == rest;
    RootTold(name, gap, attrs, inside, rest);
    if Ends(attrs, false) && AllEnd(inside) {
      NodeRuns(r, true, s, name, gap, attrs, inside, {}, rest);
    } else {
      NodeStrays(r, true, s, name, gap, attrs, inside, {}, rest);
      var ran := Run(r, true, s);
      PopToGrows(r, ran, 0);
      StillDiffer(t.trace, ran.trace, t.trace, PopTo(r, ran, 0).trace);
    }
  }

  lemma RootTold(name: View, gap: View, attrs: Attrs, inside: Forest, rest: View)
    ensures var root := Node(name, gap, attrs, inside, Nil);
      Told(root) == Behind(Start(Write(root, rest)), name, attrs, inside, rest).trace
  {
    hide TellTag, PopAll;
    var root := Node(name, gap, attrs, inside, Nil);
    var t := Behind(Start(Write(root, rest)), name, attrs, inside, rest);
    assert Tell([], root, None, 0) == Tell(t.trace, Nil, None, t.next) == t.trace;
    assert StillOpen(root, 0) == StillOpen(Nil, 1 + Tags(inside)) == [];
    NothingLeft(t.trace);
  }

  lemma NothingLeft(trace: seq<Event>)
    ensures PopAll(trace, []) == trace
  {}

  /* ---- two tags that run on ---- */

  /** `<a` with one attribute that lets the reader run over the end to a name, which is told as an attribute too. */
  lemma RunOn(r: Reader, a: Attr, c: View)
    requires Quiet(r) && GoodAttrs([a], false) && !Ends([a], false) && |c| == 1 && Letter(c[0])
    ensures var tag := Tag(0, "a", true, false);
      Outcome(r, false, WriteTag("a", " ", [a], false, c + "</a>")).trace ==
      [Begin(tag), Attribute(0, a.name, ValueOf(a.form)), Attribute(0, c, ""), End(0, true), Inline(tag.(closable := false))]
  {
    hide Run, Finish, Attributes, WriteTag, WriteAttrs, GoodAttrs, PopTo, Quiet, EndText;
    var rest := c + "</a>";
    var tag := Tag(0, "a", true, false);
    var s := Start(WriteTag("a", " ", [a], false, rest));
    ShortTag(a);
    TagOpens(r, s, "a", " ", [a], false, rest);
    var s1 := State(WriteAttrs([a], EndText(false, rest)), false, [], [] + [Begin(tag)], 1);
    AttributesRunOn(r, s1, tag, a, c);
    var t := Attributes(r, s1, tag).0;
    SlashEnds(r, t, tag);
    AtEnd(r, Finish(r, t, tag));
    NothingLeft(Finish(r, t, tag).trace);
  }

  lemma ShortTag(a: Attr)
    requires GoodAttrs([a], false)
    ensures GoodTag("a", " ", [a], false)
  {
    hide GoodAttrs;
  }

  lemma TagOpens(r: Reader, s: State, name: View, gap: View, attrs: Attrs, slash: bool, rest: View)
    requires Quiet(r) && GoodTag(name, gap, attrs, slash) && s.current == WriteTag(name, gap, attrs, slash, rest) && !s.canceled
    ensures var tag := Tag(s.next, name, true, false);
      var s1 := State(WriteAttrs(attrs, EndText(slash, rest)), false, s.stack, s.trace + [Begin(tag)], s.next + 1);
      Run(r, false, s) == Run(r, false, Finish(r, Attributes(r, s1, tag).0, Attributes(r, s1, tag).1))
  {
    hide Run, OpenTag, Finish, Attributes, WriteTag, WriteAttrs, GoodTag, EndText, Quiet, TagName, GoodName;
    TagStep(r, false, s, name, gap, attrs, slash, rest);
    TagNameIs(name, gap, attrs, slash, rest);
    NameOf(name, gap, attrs, slash);
    OpenIs(r, s.(current := s.current[1..]), name, WriteAttrs(attrs, EndText(slash, rest)));
  }

  lemma OneTag(a: Attr, rest: View)
    ensures WriteTag("a", " ", [a], false, rest) == "<a " + (a.name + (FormText(a.form) + (a.gap + (">" + rest))))
  {
    assert WriteAttrs([a], ">" + rest) == WriteAttr(a, ">" + rest);
    NothingBefore(">" + rest);
    assert "<" + ("a" + (" " + WriteAttr(a, ">" + rest))) == "<a " + WriteAttr(a, ">" + rest);
  }

  lemma SlashEnds(r: Reader, s: State, tag: Tag)
    requires Quiet(r) && s.current == "/a>" && !s.canceled
    ensures Finish(r, s, tag) == s.(current := "", trace := s.trace + [End(tag.id, true)] + [Inline(tag.(closable := false))])
  {
    UntilAt("/a", ">", Closes);
    assert "/a" + ">" == "/a>";
  }

  lemma AttributesRunOn(r: Reader, s: State, tag: Tag, a: Attr, c: View)
    requires Quiet(r) && GoodAttrs([a], false) && !Ends([a], false) && |c| == 1 && Letter(c[0]) && !s.canceled
    requires s.current == WriteAttrs([a], EndText(false, c + "</a>"))
    ensures Attributes(r, s, tag) ==
      (s.(current := "/a>", trace := s.trace + [Attribute(tag.id, a.name, ValueOf(a.form))] + [Attribute(tag.id, c, "")]), tag)
  {
    hide Attributes, AttrName, AttrValue, Left, After;
    var rest := c + "</a>";
    assert EndText(false, rest) == ">" + rest && GoodAttr([a][0]);
    NothingBefore(">" + rest);
    NothingBefore(WriteAttr(a, ">" + rest));
    OneAttribute(r, s, tag, [], a, ">" + rest);
    var s1 := s.(current := Left(a, ">" + rest), trace := s.trace + [Attribute(tag.id, a.name, ValueOf(a.form))]);
    LeftBehindClose(r, s1, tag, a, rest);
    var b := Attr(c, Bare, "<");
    assert WriteAttr(b, "/a>") == rest;
    NothingBefore(rest);
    var s2 := s1.(current := rest);
    OneAttribute(r, s2, tag, [], b, "/a>");
    LeftSlash(c);
    SlashStops(r, s2.(current := "/a>", trace := s2.trace + [Attribute(tag.id, c, "")]), tag);
  }

  lemma LeftSlash(c: View)
    ensures Left(Attr(c, Bare, "<"), "/a>") == "/a>"
  {
    UntilNow("/a>", Ident);
  }

  lemma SlashStops(r: Reader, s: State, tag: Tag)
    requires s.current == "/a>"
    ensures Attributes(r, s, tag) == (s, tag)
  {}

  /** Behind the end of the tag, the loop goes on as from the name that follows. */
  lemma LeftBehindClose(r: Reader, s: State, tag: Tag, a: Attr, rest: View)
    requires GoodAttr(a) && !Ends([a], false) && rest != [] && Letter(rest[0]) && s.current == Left(a, ">" + rest)
    ensures Attributes(r, s, tag) == Attributes(r, s.(current := rest), tag)
  {
    hide AttrName, AttrValue, Until;
    assert [a][0] == a;
    UntilNow(rest, Ident);
    BehindClose(rest);
    if a.form.Plain? {
      AttrGap(a);
      NameBehindGap(a.gap, ">" + rest);
      NameOverClose(rest);
      assert s.current[0] == a.gap[0];
      FirstOf(a.gap);
    }
  }

  lemma NameOverClose(rest: View)
    ensures AttrName(">" + rest) == AttrName(rest)
  {
    BehindClose(rest);
  }

  /** An attribute without a value at the end of its tag: the text is told as an attribute, and the tag closes itself. */
  lemma BareAttributeRunsOn(r: Reader)
    requires Quiet(r)
    ensures var tag := Tag(0, "a", true, false);
      Outcome(r, false, "<a b>c</a>").trace ==
      [Begin(tag), Attribute(0, "b", ""), Attribute(0, "c", ""), End(0, true), Inline(tag.(closable := false))]
  {
    hide Outcome;
    OneTag(Attr("b", Bare, ""), "c</a>");
    assert "c" + "</a>" == "c</a>";
    assert WriteTag("a", " ", [Attr("b", Bare, "")], false, "c" + "</a>") == "<a b>c</a>";
    RunOn(r, Attr("b", Bare, ""), "c");
  }

  /** A value that is not quoted, with a blank between it and the end of its tag: the same. */
  lemma PlainValueRunsOn(r: Reader)
    requires Quiet(r)
    ensures var tag := Tag(0, "a", true, false);
      Outcome(r, false, "<a b=c >d</a>").trace ==
      [Begin(tag), Attribute(0, "b", "c"), Attribute(0, "d", ""), End(0, true), Inline(tag.(closable := false))]
  {
    hide Outcome;
    OneTag(Attr("b", Plain("c"), " "), "d</a>");
    assert "d" + "</a>" == "d</a>";
    assert WriteTag("a", " ", [Attr("b", Plain("c"), " ")], false, "d" + "</a>") == "<a b=c >d</a>";
    RunOn(r, Attr("b", Plain("c"), " "), "d");
  }

  /* ---- two that take what follows with them ---- */

  /** An empty section takes what follows with it, up to the next `>`. */
  lemma EmptySectionTakes(r: Reader)
    ensures Outcome(r, false, "<![CDATA[]]>b<c/>").trace == []
  {
    hide OpenTag, Find, Closed;
    var text := "<![CDATA[]]>b<c/>";
    var s := Start(text);
    OpenStep(r, false, s);
    assert text[1..] == "![CDATA[" + ("" + ("]]>" + "b<c/>"));
    SectionIs(r, s.(current := text[1..]), "", "b<c/>");
    NoCloseBefore();
  }

  lemma NoCloseBefore()
    ensures Closed("b<c/>") == ""
  {
    assert "b<c/>" == "b<c/" + ">";
    UntilAt("b<c/", ">", Closes);
  }

  /** An instruction that is nothing but a name takes what follows with it, up to the next `?>`. */
  lemma BareInstructionTakes(r: Reader)
    ensures Outcome(r, false, "<?a?>b").trace == []
  {
    hide OpenTag;
    var s := Start("<?a?>b");
    OpenStep(r, false, s);
    assert "<?a?>b"[1..] == "?" + ("a" + ("?>" + "b"));
    NotPrefix("a"[0..], "?>", 0);
    assert !Instructs("a");
    InstructionIs(r, s.(current := "<?a?>b"[1..]), "a", "b");
    NotPrefix("b", "?>", 0);
    assert Find("b", "?>") == 1;
    assert Past("b", "?>") == "";
  }
}
