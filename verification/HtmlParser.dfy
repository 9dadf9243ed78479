/** The tag-stack parser of `SPHtmlParser.h`: one run as a function of the text and the reader. */
module HtmlParser {
  import opened HtmlView

  datatype Option<T> = None | Some(value: T)

  /** A tag; `id` tells apart tags of the same name. */
  datatype Tag = Tag(id: nat, name: View, closable: bool, content: bool)

  /** The callbacks, in the order in which they are made. */
  datatype Event =
    | Begin(tag: Tag)
    | Attribute(id: nat, name: View, value: View)
    | End(id: nat, inlined: bool)
    | Push(tag: Tag)
    | Inline(tag: Tag)
    | Pop(tag: Tag)
    | Content(owner: Option<nat>, text: View)

  /**
   * The caller's object: which callback calls `cancel`, which one calls `setClosable` on its tag and with what, and
   * for which tags `shouldParseTag` holds.
   */
  datatype Reader = Reader(cancels: nat -> bool, closable: nat -> Option<bool>, parses: nat -> bool)

  /** The fields of the parser, the callbacks made so far and the number of tags made so far. */
  datatype State = State(current: View, canceled: bool, stack: seq<Tag>, trace: seq<Event>, next: nat)

  /** One callback, which may cancel. */
  function Emit(r: Reader, s: State, e: Event): (t: State)
    ensures |t.current| <= |s.current|
  {
    var stop := r.cancels(|s.trace|);
    s.(trace := s.trace + [e], canceled := s.canceled || stop, current := if stop then [] else s.current)
  }

  /** The tag after the latest callback. */
  function Adjusted(r: Reader, s: State, tag: Tag): (t: Tag)
    ensures t == tag.(closable := t.closable)
  {
    if s.trace == [] then tag else
    match r.closable(|s.trace| - 1)
    case None => tag
    case Some(v) => tag.(closable := v)
  }

  function Mark(stack: seq<Tag>): seq<Tag>
    requires stack != []
  {
    stack[..|stack| - 1] + [stack[|stack| - 1].(content := true)]
  }

  /** `onTagContent`, to the innermost open tag or to a tag without a name. */
  function Deliver(r: Reader, s: State, text: View): (t: State)
    ensures |t.current| <= |s.current|
  {
    if s.stack == [] then Emit(r, s, Content(None, text)) else
    Emit(r, s.(stack := Mark(s.stack)), Content(Some(s.stack[|s.stack| - 1].id), text))
  }

  /** Everything up to the next `<`. */
  function ReadText(r: Reader, s: State): (t: State)
    ensures |t.current| <= |s.current|
  {
    var text, s1 := Before(s.current, Opens), s.(current := After(s.current, Opens));
    if text == [] then s1 else Deliver(r, s1, text)
  }

  /** `skipUntil` to the `>` and over it. */
  function Closed(s: View): (t: View)
    ensures |t| <= |s|
  {
    Skip(After(s, Closes), 1)
  }

  /** The number of open tags below the innermost one called `name`, or all of them. */
  function Depth(stack: seq<Tag>, name: View): (n: nat)
    ensures n <= |stack|
    ensures n < |stack| ==> stack[n].name == name
    ensures forall i :: 0 <= i < |stack| && i > n ==> stack[i].name != name
    ensures n == |stack| ==> forall i :: 0 <= i < |stack| ==> stack[i].name != name
  {
    if stack == [] then 0
    else if stack[|stack| - 1].name == name then |stack| - 1
    else
      var n := Depth(stack[..|stack| - 1], name);
      if n == |stack| - 1 then |stack| else n
  }

  /** Pops until `depth` tags are left. */
  function PopTo(r: Reader, s: State, depth: nat): (t: State)
    ensures |t.current| <= |s.current|
    decreases |s.stack|
  {
    if |s.stack| <= depth then s else
    var t := Emit(r, s, Pop(s.stack[|s.stack| - 1]));
    PopTo(r, t.(stack := t.stack[..|t.stack| - 1]), depth)
  }

  /** From behind `</`; the second result is true when the parse stops here. */
  function CloseTag(r: Reader, rootOnly: bool, s: State): (p: (State, bool))
    ensures |p.0.current| <= |s.current|
  {
    var name, s1 := Before(s.current, Closes), s.(current := After(s.current, Closes));
    if name != [] && s1.current != [] && s1.stack != [] then
      var s2 := PopTo(r, s1, Depth(s1.stack, name));
      (s2.(current := Skip(s2.current, 1)), rootOnly && s2.stack == [])
    else
      (s1.(current := Skip(s1.current, 1)), s1.current == [])
  }

  /** `<!...>`, with a CDATA section as content. */
  function Declaration(r: Reader, s: State): (t: State)
    ensures |t.current| <= |s.current|
  {
    if Prefix(s.current, "CDATA[") then
      var n := Find(s.current, "]]>");
      var cdata, s1 := Skip(s.current[..n], 6), s.(current := Skip(s.current[n..], 3));
      if cdata == [] then s1.(current := Closed(s1.current)) else Deliver(r, s1, cdata)
    else s.(current := Closed(s.current))
  }

  /** The attributes of a tag, up to the end of the tag or to a slash. */
  function Attributes(r: Reader, s: State, tag: Tag): (p: (State, Tag))
    ensures |p.0.current| <= |s.current| && p.1 == tag.(closable := p.1.closable)
    decreases |s.current|
  {
    hide AttrName, AttrValue, Adjusted, Emit;
    if s.current == [] || s.current[0] == '>' || s.current[0] == '/' then (s, tag) else
    var (name, rest) := AttrName(s.current);
    if name == [] then (s.(current := rest), tag) else
    var (value, after) := AttrValue(rest);
    var t := Emit(r, s.(current := after), Attribute(tag.id, name, value));
    Attributes(r, t, Adjusted(r, t, tag))
  }

  /** What follows when `c` starts with a closing tag `</name  >`. */
  function RawClose(c: View, name: View): (p: Option<View>)
    ensures p.Some? ==> |p.value| < |c|
  {
    var slash := Skip(c, 1);
    var tmp := Skip(Skip(slash, 1), |name|);
    if Is(slash, '/') && Prefix(Skip(slash, 1), name) && Is(After(tmp, WhiteEnd), '>') then Some(After(tmp, WhiteEnd)[1..]) else None
  }

  /** Where a tag whose content is not parsed is closed: at the closing tag, and behind it. */
  function RawEnd(s: View, name: View): (p: Option<(View, View)>)
    ensures p.Some? ==> |p.value.0| <= |s| && |p.value.1| < |p.value.0| && s == s[..|s| - |p.value.0|] + p.value.0
    decreases |s|
  {
    hide RawClose, Is;
    var c := After(s, Opens);
    if c == [] then None else
    match RawClose(c, name)
    case Some(rest) => Some((c, rest))
    case None =>
      match RawEnd(c[1..], name)
      case None => None
      case Some(p) => RawWithin(s, c, p.0); Some(p)
  }

  lemma RawWithin(s: View, c: View, a: View)
    requires |a| < |c| <= |s| && c == s[|s| - |c|..] && c[1..] == c[1..][..|c| - 1 - |a|] + a
    ensures s == s[..|s| - |a|] + a
  {
    assert s == s[..|s| - |c|] + ([c[0]] + c[1..]);
    assert s[|s| - |a|..] == a;
  }

  lemma RawEndStep(s: View, name: View)
    ensures var c := After(s, Opens);
      RawEnd(s, name) ==
        if c == [] then None
        else if RawClose(c, name).Some? then Some((c, RawClose(c, name).value))
        else RawEnd(c[1..], name)
    ensures var c := After(s, Opens); |c| <= |s| && (c != [] ==> c[0] == '<')
  {
    hide RawClose;
  }

  lemma NoRawEnd(name: View)
    ensures RawEnd([], name) == None
  {}

  /** The state behind raw content whose closing tag has been looked for. */
  lemma RawIs(r: Reader, s: State, tag: Tag, end: Option<(View, View)>)
    requires s.stack != [] && RawEnd(s.current, tag.name) == end
    ensures Raw(r, s, tag) == match end
      case None => s.(current := [])
      case Some((close, rest)) => EndRaw(r, s.(current := close), tag, s.current[..|s.current| - |close|], rest)
  {
    hide RawEnd, EndRaw;
  }

  /** What the reader is told when a tag that is not parsed ends, and the text that is left: even a cancel is lost. */
  function EndRaw(r: Reader, s: State, tag: Tag, text: View, rest: View): (t: State)
    requires s.stack != []
    ensures t.current == rest
  {
    var t := Emit(r, if text == [] then s else Emit(r, s, Content(Some(tag.id), text)), Pop(tag));
    t.(stack := s.stack[..|s.stack| - 1], current := rest)
  }

  /** The content of a tag that is not parsed, from behind its opening tag; the tag is on the stack. */
  function Raw(r: Reader, s: State, tag: Tag): (t: State)
    requires s.stack != []
    ensures |t.current| <= |s.current|
  {
    match RawEnd(s.current, tag.name)
    case None => s.(current := [])
    case Some((close, rest)) =>
      EndRaw(r, s.(current := close), tag, s.current[..|s.current| - |close|], rest)
  }

  /** After the attributes: `onEndTag`, then the tag is pushed or passed on as an inline tag. */
  function Finish(r: Reader, s: State, tag: Tag): (t: State)
    ensures |t.current| <= |s.current|
  {
    var t1 := tag.(closable := tag.closable && !Is(s.current, '/'));
    var s1 := Emit(r, s.(current := Closed(s.current)), End(tag.id, !t1.closable));
    var t2 := Adjusted(r, s1, t1);
    if !t2.closable then Emit(r, s1, Inline(t2)) else
    var s2 := Emit(r, s1, Push(t2));
    var s3 := s2.(stack := s2.stack + [t2]);
    if r.parses(t2.id) then s3 else Raw(r, s3, t2)
  }

  /** An opening tag, from behind its name. */
  function Element(r: Reader, s: State, name: View): (t: State)
    ensures |t.current| <= |s.current|
  {
    var tag := Tag(s.next, name, true, false);
    var s1 := Emit(r, s.(next := s.next + 1), Begin(tag));
    var (s2, t2) := Attributes(r, s1, Adjusted(r, s1, tag));
    Finish(r, s2, t2)
  }

  /** From behind `<`. */
  function OpenTag(r: Reader, s: State): (t: State)
    ensures |t.current| <= |s.current|
  {
    var (name, rest) := TagName(s.current);
    var s1 := s.(current := rest);
    if name == [] then s1.(current := Closed(rest))
    else if Prefix(name, "!--") then s1.(current := Past(rest, "-->"))
    else if name[0] == '?' then s1.(current := Past(rest, "?>"))
    else if name[0] == '!' then Declaration(r, s1)
    else Element(r, s1, name)
  }

  /** The main loop. */
  function Run(r: Reader, rootOnly: bool, s: State): State
    decreases |s.current|
  {
    if s.current == [] then s else
    var s1 := ReadText(r, s);
    if !Is(s1.current, '<') then s1 else
    var s2 := s1.(current := s1.current[1..]);
    if Is(s2.current, '/') then
      var (s3, stop) := CloseTag(r, rootOnly, s2.(current := s2.current[1..]));
      if stop then s3 else Run(r, rootOnly, s3)
    else Run(r, rootOnly, OpenTag(r, s2))
  }

  function Start(text: View): State { State(text, false, [], [], 0) }

  /** The whole of `parse`: the main loop, and what is still open is popped. */
  function Outcome(r: Reader, rootOnly: bool, text: View): State { PopTo(r, Run(r, rootOnly, Start(text)), 0) }

  class Parser {
    const reader: Reader
    var current: View
    var canceled: bool
    var tagStack: seq<Tag>
    var trace: seq<Event>
    var next: nat

    constructor (r: Reader)
      ensures reader == r && Now() == Start([])
    {
      reader := r;
      current, canceled, tagStack, trace, next := [], false, [], [], 0;
    }

    ghost function Now(): State
      reads this
    {
      State(current, canceled, tagStack, trace, next)
    }

    /** A callback into the reader. */
    method Call(e: Event)
      modifies this
      ensures Now() == Emit(reader, old(Now()), e)
    {
      var index := |trace|;
      trace := trace + [e];
      if reader.cancels(index) {
        Cancel();
      }
    }

    /** `cancel` */
    method Cancel()
      modifies this
      ensures Now() == old(Now()).(current := [], canceled := true)
    {
      current := [];
      canceled := true;
    }

    method SetClosable(tag: Tag) returns (t: Tag)
      ensures t == Adjusted(reader, Now(), tag)
    {
      t := tag;
      if trace != [] {
        match reader.closable(|trace| - 1)
        case None =>
        case Some(v) => t := tag.(closable := v);
      }
    }

    method OnTagContent(text: View)
      modifies this
      ensures Now() == Deliver(reader, old(Now()), text)
    {
      if tagStack != [] {
        var top := tagStack[|tagStack| - 1];
        tagStack := tagStack[..|tagStack| - 1] + [top.(content := true)];
        Call(Content(Some(top.id), text));
      } else {
        Call(Content(None, text));
      }
    }

    method SkipTagEnd()
      modifies this
      ensures Now() == old(Now()).(current := Closed(old(current)))
    {
      current := SkipUntil(current, Closes);
      current := Skip(current, 1);
    }

    method PopTags(depth: nat)
      modifies this
      ensures Now() == PopTo(reader, old(Now()), depth)
    {
      while |tagStack| > depth
        invariant PopTo(reader, Now(), depth) == PopTo(reader, old(Now()), depth)
        decreases |tagStack|
      {
        Call(Pop(tagStack[|tagStack| - 1]));
        tagStack := tagStack[..|tagStack| - 1];
      }
    }

    /** Closes the innermost tag of that name and all the tags inside it. */
    method CloseMatching(name: View)
      requires tagStack != []
      modifies this
      ensures Now() == PopTo(reader, old(Now()), Depth(old(tagStack), name))
    {
      var i := |tagStack| - 1;
      while i > 0 && tagStack[i].name != name
        invariant 0 <= i < |tagStack|
        invariant forall k :: i < k < |tagStack| ==> tagStack[k].name != name
      {
        i := i - 1;
      }
      if tagStack[i].name == name {
        PopTags(i);
      }
    }

    method ParseCloseTag(rootOnly: bool) returns (stop: bool)
      modifies this
      ensures (Now(), stop) == CloseTag(reader, rootOnly, old(Now()))
    {
      var name;
      name, current := ReadUntil(current, Closes);
      if name != [] && Is(current, '>') && tagStack != [] {
        CloseMatching(name);
        if rootOnly && tagStack == [] {
          current := Skip(current, 1);
          return true;
        }
      } else if current == [] {
        return true;
      }
      current := Skip(current, 1);
      return false;
    }

    method ParseDeclaration()
      modifies this
      ensures Now() == Declaration(reader, old(Now()))
    {
      var cdata := [];
      if Prefix(current, "CDATA[") {
        var rest := SkipUntilString(current, "]]>");
        cdata := current[..|current| - |rest|];
        cdata := Skip(cdata, 6);
        current := Skip(rest, 3);
      }
      if cdata != [] {
        OnTagContent(cdata);
      } else {
        SkipTagEnd();
      }
    }

    method ParseAttributes(tag: Tag) returns (t: Tag)
      modifies this
      ensures (Now(), t) == Attributes(reader, old(Now()), tag)
    {
      t := tag;
      while current != [] && !Is(current, '>') && !Is(current, '/')
        invariant Attributes(reader, Now(), t) == Attributes(reader, old(Now()), tag)
        decreases |current|
      {
        var name, value;
        name, current := ReadAttrName(current);
        if name != [] {
          value, current := ReadAttrValue(current);
          Call(Attribute(t.id, name, value));
          t := SetClosable(t);
        }
      }
    }

    method CloseRaw(tag: Tag, text: View, rest: View)
      requires tagStack != []
      modifies this
      ensures Now() == EndRaw(reader, old(Now()), tag, text, rest)
    {
      if text != [] {
        Call(Content(Some(tag.id), text));
      }
      Call(Pop(tag));
      tagStack := tagStack[..|tagStack| - 1];
      current := rest;
    }

    method FindRawClose(c: View, name: View) returns (p: Option<View>)
      ensures p == RawClose(c, name)
    {
      var tmp := Skip(c, 1);
      if Is(tmp, '/') {
        tmp := tmp[1..];
        if Prefix(tmp, name) {
          tmp := Skip(tmp, |name|);
          tmp := SkipUntil(tmp, WhiteEnd);
          if Is(tmp, '>') {
            return Some(tmp[1..]);
          }
        }
      }
      return None;
    }

    /** Where raw content ends: at the first closing tag of that name. */
    method FindRawEnd(start: View, name: View) returns (p: Option<(View, View)>)
      ensures p == RawEnd(start, name)
    {
      hide *;
      NoRawEnd(name);
      var c := start;
      while c != []
        invariant RawEnd(c, name) == RawEnd(start, name)
        decreases |c|
      {
        RawEndStep(c, name);
        c := SkipUntil(c, Opens);
        if c != [] {
          var close := FindRawClose(c, name);
          if close.Some? {
            return Some((c, close.value));
          }
          c := c[1..];
        }
      }
      p := None;
    }

    method ParseRaw(tag: Tag)
      requires tagStack != []
      modifies this
      ensures Now() == Raw(reader, old(Now()), tag)
    {
      hide EndRaw, RawEnd, Raw;
      var end := FindRawEnd(current, tag.name);
      RawIs(reader, Now(), tag, end);
      match end
      case None =>
        current := [];
      case Some((close, rest)) =>
        var content := current[..|current| - |close|];
        current := close;
        CloseRaw(tag, content, rest);
    }

    method ParseElement(name: View)
      modifies this
      ensures Now() == Element(reader, old(Now()), name)
    {
      hide Emit, Adjusted, Attributes, Finish;
      var tag := Tag(next, name, true, false);
      next := next + 1;
      Call(Begin(tag));
      tag := SetClosable(tag);
      tag := ParseAttributes(tag);
      FinishTag(tag);
    }

    method FinishTag(begun: Tag)
      modifies this
      ensures Now() == Finish(reader, old(Now()), begun)
    {
      hide Emit, Adjusted, Raw, Closed;
      var tag := begun;
      if Is(current, '/') {
        tag := tag.(closable := false);
      }
      SkipTagEnd();
      Call(End(tag.id, !tag.closable));
      tag := SetClosable(tag);
      if tag.closable {
        Call(Push(tag));
        tagStack := tagStack + [tag];
        if !reader.parses(tag.id) {
          ParseRaw(tag);
        }
      } else {
        Call(Inline(tag));
      }
    }

    method ParseOpenTag()
      modifies this
      ensures Now() == OpenTag(reader, old(Now()))
    {
      var name;
      name, current := ReadTagName(current);
      if name == [] {
        SkipTagEnd();
      } else if Prefix(name, "!--") {
        current := SkipPastString(current, "-->");
      } else if Is(name, '?') {
        current := SkipPastString(current, "?>");
      } else if Is(name, '!') {
        ParseDeclaration();
      } else {
        ParseElement(name);
      }
    }

    /** `parse` of a new parser. */
    method Parse(text: View, rootOnly: bool) returns (ok: bool)
      requires Now() == Start([])
      modifies this
      ensures Now() == Outcome(reader, rootOnly, text) && ok == !canceled
    {
      hide OpenTag, CloseTag, Deliver, PopTo;
      current := text;
      while current != []
        invariant Run(reader, rootOnly, Now()) == Run(reader, rootOnly, Start(text))
        decreases |current|
      {
        var prefix;
        prefix, current := ReadUntil(current, Opens);
        if prefix != [] {
          OnTagContent(prefix);
        }
        if !Is(current, '<') {
          break;
        }
        current := current[1..];
        if Is(current, '/') {
          current := current[1..];
          var stop := ParseCloseTag(rootOnly);
          if stop {
            break;
          }
        } else {
          ParseOpenTag();
        }
      }
      PopTags(0);
      ok := !canceled;
    }
  }
}
