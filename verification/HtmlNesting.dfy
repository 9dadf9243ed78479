/** What every run of the parser keeps: nesting, and how far a cancel reaches. */
module HtmlNesting {
  import opened HtmlView
  import opened HtmlParser

  datatype Phase = Idle | Reading(id: nat) | Ended(id: nat)

  /** The reader's own book: the open tags, the tag being read, and how many tags it has seen. */
  datatype Book = Book(open: seq<Tag>, phase: Phase, next: nat) | Broken

  predicate OnTop(b: Book, id: nat) { b.Book? && b.open != [] && b.open[|b.open| - 1].id == id }

  /**
   * One callback, as a reader checks it: content goes to the innermost open tag, a pop is of the innermost open tag
   * and reports whether that tag had content, and a tag is pushed or inlined only when it has been read to its end.
   * Content of a tag that is not parsed is passed on without being noted in the tag.
   */
  function Next(r: Reader, b: Book, e: Event): Book {
    if b.Broken? then Broken else
    match e
    case Begin(t) =>
      if b.phase == Idle && t.id == b.next && !t.content then b.(phase := Reading(t.id), next := b.next + 1) else Broken
    case Attribute(id, _, _) => if b.phase == Reading(id) then b else Broken
    case End(id, _) => if b.phase == Reading(id) then b.(phase := Ended(id)) else Broken
    case Push(t) => if b.phase == Ended(t.id) && t.closable then b.(phase := Idle, open := b.open + [t]) else Broken
    case Inline(t) => if b.phase == Ended(t.id) && !t.closable then b.(phase := Idle) else Broken
    case Pop(t) =>
      if b.phase == Idle && b.open != [] && b.open[|b.open| - 1] == t then b.(open := b.open[..|b.open| - 1]) else Broken
    case Content(None, text) => if b.phase == Idle && b.open == [] && text != [] then b else Broken
    case Content(Some(id), text) =>
      if b.phase == Idle && OnTop(b, id) && text != [] then (if r.parses(id) then b.(open := Mark(b.open)) else b) else Broken
  }

  function Replay(r: Reader, trace: seq<Event>): Book {
    if trace == [] then Book([], Idle, 0) else Next(r, Replay(r, trace[..|trace| - 1]), trace[|trace| - 1])
  }

  /** About a tag whose content is not parsed. */
  predicate Unparsed(r: Reader, e: Event) {
    match e
    case Content(Some(id), _) => !r.parses(id)
    case Pop(t) => !r.parses(t.id)
    case _ => false
  }

  /** `cancel` was called in one of the callbacks, except in those about a tag whose content is not parsed. */
  predicate Halted(r: Reader, trace: seq<Event>) {
    exists i :: 0 <= i < |trace| && r.cancels(i) && !Unparsed(r, trace[i])
  }

  predicate Canceled(r: Reader, trace: seq<Event>) { exists i :: 0 <= i < |trace| && r.cancels(i) }

  /** A callback that passes on a piece of the text. */
  predicate Reads(e: Event) { e.Begin? || e.Attribute? || e.Content? }

  /** Nothing more is read from the text once the reader has cancelled. */
  predicate Obeyed(r: Reader, trace: seq<Event>) {
    forall j :: 0 <= j < |trace| && Reads(trace[j]) ==> !Halted(r, trace[..j])
  }

  predicate AllParsed(r: Reader, stack: seq<Tag>) { forall i :: 0 <= i < |stack| ==> r.parses(stack[i].id) }

  /** A tag whose content is not parsed stays open only when there is no text left. */
  predicate Parsed(r: Reader, s: State) { s.current != [] ==> AllParsed(r, s.stack) }

  predicate Kept(r: Reader, s: State, phase: Phase) {
    && Replay(r, s.trace) == Book(s.stack, phase, s.next)
    && s.canceled == Canceled(r, s.trace)
    && (Halted(r, s.trace) ==> s.current == [])
    && Obeyed(r, s.trace)
  }

  lemma OneMore(r: Reader, trace: seq<Event>, e: Event)
    ensures Replay(r, trace + [e]) == Next(r, Replay(r, trace), e)
    ensures Canceled(r, trace + [e]) == (Canceled(r, trace) || r.cancels(|trace|))
    ensures Halted(r, trace + [e]) == (Halted(r, trace) || (r.cancels(|trace|) && !Unparsed(r, e)))
    ensures Obeyed(r, trace) && (Reads(e) ==> !Halted(r, trace)) ==> Obeyed(r, trace + [e])
  {
    var more := trace + [e];
    assert more[..|more| - 1] == trace;
    if Halted(r, trace) {
      var i :| 0 <= i < |trace| && r.cancels(i) && !Unparsed(r, trace[i]);
      assert more[i] == trace[i];
    }
    if Canceled(r, trace) {
      var i :| 0 <= i < |trace| && r.cancels(i);
      assert 0 <= i < |more|;
    }
    if r.cancels(|trace|) {
      assert 0 <= |trace| < |more| && more[|trace|] == e;
    }
    if Obeyed(r, trace) && (Reads(e) ==> !Halted(r, trace)) {
      forall j | 0 <= j < |more| && Reads(more[j])
        ensures !Halted(r, more[..j])
      {
        assert more[..j] == trace[..j];
        if j == |trace| {
          assert trace[..j] == trace;
        }
      }
    }
  }

  lemma EmitKept(r: Reader, s: State, e: Event, phase: Phase, t: State, after: Phase)
    requires Kept(r, s, phase) && (Reads(e) ==> !Halted(r, s.trace))
    requires t == Emit(r, s, e).(stack := t.stack, next := t.next)
    requires Next(r, Book(s.stack, phase, s.next), e) == Book(t.stack, after, t.next)
    ensures Kept(r, t, after)
    ensures Halted(r, t.trace) ==> Halted(r, s.trace) || !Unparsed(r, e)
  {
    hide Replay, Next, Halted, Canceled, Obeyed;
    OneMore(r, s.trace, e);
  }

  lemma DeliverKept(r: Reader, s: State, text: View)
    requires Kept(r, s, Idle) && !Halted(r, s.trace) && AllParsed(r, s.stack) && text != []
    ensures Kept(r, Deliver(r, s, text), Idle) && AllParsed(r, Deliver(r, s, text).stack)
  {
    hide Replay, Halted, Canceled, Obeyed, Kept;
    if s.stack == [] {
      EmitKept(r, s, Content(None, text), Idle, Deliver(r, s, text), Idle);
    } else {
      EmitKept(r, s, Content(Some(s.stack[|s.stack| - 1].id), text), Idle, Deliver(r, s, text), Idle);
    }
  }

  lemma ReadTextKept(r: Reader, s: State)
    requires Kept(r, s, Idle) && Parsed(r, s) && s.current != []
    ensures Kept(r, ReadText(r, s), Idle) && Parsed(r, ReadText(r, s))
  {
    hide Replay, Next, Halted, Canceled, Obeyed, Deliver;
    var text, s1 := Before(s.current, Opens), s.(current := After(s.current, Opens));
    if text != [] {
      DeliverKept(r, s1, text);
    }
  }

  lemma {:induction false} PopToKept(r: Reader, s: State, depth: nat)
    requires Kept(r, s, Idle)
    ensures Kept(r, PopTo(r, s, depth), Idle)
    ensures PopTo(r, s, depth).stack == if |s.stack| <= depth then s.stack else s.stack[..depth]
    decreases |s.stack|
  {
    hide Replay, Halted, Canceled, Obeyed, Kept;
    if |s.stack| > depth {
      var e := Pop(s.stack[|s.stack| - 1]);
      var t := Emit(r, s, e).(stack := s.stack[..|s.stack| - 1]);
      EmitKept(r, s, e, Idle, t, Idle);
      PopToKept(r, t, depth);
    }
  }

  lemma CloseTagKept(r: Reader, rootOnly: bool, s: State)
    requires Kept(r, s, Idle) && Parsed(r, s)
    ensures Kept(r, CloseTag(r, rootOnly, s).0, Idle) && Parsed(r, CloseTag(r, rootOnly, s).0)
  {
    hide Replay, Next, Halted, Canceled, Obeyed, PopTo, Depth;
    var name, s1 := Before(s.current, Closes), s.(current := After(s.current, Closes));
    if name != [] && s1.current != [] && s1.stack != [] {
      PopToKept(r, s1, Depth(s1.stack, name));
    }
  }

  lemma DeclarationKept(r: Reader, s: State)
    requires Kept(r, s, Idle) && !Halted(r, s.trace) && AllParsed(r, s.stack)
    ensures Kept(r, Declaration(r, s), Idle) && AllParsed(r, Declaration(r, s).stack)
  {
    hide Replay, Next, Halted, Canceled, Obeyed, Deliver;
    if Prefix(s.current, "CDATA[") {
      var n := Find(s.current, "]]>");
      var cdata, s1 := Skip(s.current[..n], 6), s.(current := Skip(s.current[n..], 3));
      if cdata != [] {
        DeliverKept(r, s1, cdata);
      }
    }
  }

  lemma {:induction false} AttributesKept(r: Reader, s: State, tag: Tag)
    requires Kept(r, s, Reading(tag.id))
    ensures Kept(r, Attributes(r, s, tag).0, Reading(tag.id)) && Attributes(r, s, tag).0.stack == s.stack
    decreases |s.current|
  {
    hide Replay, Halted, Canceled, Obeyed, Adjusted, AttrName, AttrValue;
    if s.current != [] && s.current[0] != '>' && s.current[0] != '/' {
      var (name, rest) := AttrName(s.current);
      if name != [] {
        var (value, after) := AttrValue(rest);
        var e := Attribute(tag.id, name, value);
        var t := Emit(r, s.(current := after), e);
        EmitKept(r, s.(current := after), e, Reading(tag.id), t, Reading(tag.id));
        AttributesKept(r, t, Adjusted(r, t, tag));
      }
    }
  }

  lemma EndRawKept(r: Reader, s: State, tag: Tag, text: View, rest: View)
    requires Kept(r, s, Idle) && !Halted(r, s.trace)
    requires s.stack != [] && s.stack[|s.stack| - 1] == tag && !r.parses(tag.id)
    ensures Kept(r, EndRaw(r, s, tag, text, rest), Idle)
  {
    hide Replay, Halted, Canceled, Obeyed;
    var s1 := if text == [] then s else Emit(r, s, Content(Some(tag.id), text));
    if text != [] {
      EmitKept(r, s, Content(Some(tag.id), text), Idle, s1, Idle);
    }
    var t := Emit(r, s1, Pop(tag));
    EmitKept(r, s1, Pop(tag), Idle, t.(stack := s.stack[..|s.stack| - 1]), Idle);
  }

  lemma RawKept(r: Reader, s: State, tag: Tag)
    requires Kept(r, s, Idle)
    requires s.stack != [] && s.stack[|s.stack| - 1] == tag && !r.parses(tag.id) && AllParsed(r, s.stack[..|s.stack| - 1])
    ensures Kept(r, Raw(r, s, tag), Idle) && Parsed(r, Raw(r, s, tag))
  {
    hide Replay, Next, Halted, Canceled, Obeyed, RawEnd;
    match RawEnd(s.current, tag.name)
    case None =>
    case Some((close, rest)) =>
      EndRawKept(r, s.(current := close), tag, s.current[..|s.current| - |close|], rest);
  }

  lemma FinishKept(r: Reader, s: State, tag: Tag)
    requires Kept(r, s, Reading(tag.id)) && AllParsed(r, s.stack)
    ensures Kept(r, Finish(r, s, tag), Idle) && Parsed(r, Finish(r, s, tag))
  {
    hide Replay, Halted, Canceled, Obeyed, Adjusted, Raw, Closed;
    var t1 := tag.(closable := tag.closable && !Is(s.current, '/'));
    var s0 := s.(current := Closed(s.current));
    var s1 := Emit(r, s0, End(tag.id, !t1.closable));
    assert s.current == [] ==> s0.current == [];
    EmitKept(r, s0, End(tag.id, !t1.closable), Reading(tag.id), s1, Ended(tag.id));
    var t2 := Adjusted(r, s1, t1);
    if !t2.closable {
      EmitKept(r, s1, Inline(t2), Ended(tag.id), Emit(r, s1, Inline(t2)), Idle);
    } else {
      var s3 := Emit(r, s1, Push(t2)).(stack := s1.stack + [t2]);
      EmitKept(r, s1, Push(t2), Ended(tag.id), s3, Idle);
      if !r.parses(t2.id) {
        assert s3.stack[..|s3.stack| - 1] == s.stack;
        RawKept(r, s3, t2);
      }
    }
  }

  lemma ElementKept(r: Reader, s: State, name: View)
    requires Kept(r, s, Idle) && !Halted(r, s.trace) && AllParsed(r, s.stack)
    ensures Kept(r, Element(r, s, name), Idle) && Parsed(r, Element(r, s, name))
  {
    hide Replay, Halted, Canceled, Obeyed, Adjusted, Finish, Attributes;
    var tag := Tag(s.next, name, true, false);
    var s1 := Emit(r, s.(next := s.next + 1), Begin(tag));
    EmitKept(r, s, Begin(tag), Idle, s1, Reading(tag.id));
    var (s2, t2) := Attributes(r, s1, Adjusted(r, s1, tag));
    AttributesKept(r, s1, Adjusted(r, s1, tag));
    FinishKept(r, s2, t2);
  }

  lemma OpenTagKept(r: Reader, s: State)
    requires Kept(r, s, Idle) && !Halted(r, s.trace) && AllParsed(r, s.stack)
    ensures Kept(r, OpenTag(r, s), Idle) && Parsed(r, OpenTag(r, s))
  {
    hide Replay, Next, Halted, Canceled, Obeyed, Element, Declaration, TagName;
    var (name, rest) := TagName(s.current);
    var s1 := s.(current := rest);
    if name != [] && !Prefix(name, "!--") && name[0] != '?' {
      if name[0] == '!' {
        DeclarationKept(r, s1);
      } else {
        ElementKept(r, s1, name);
      }
    }
  }

  lemma {:induction false} RunKept(r: Reader, rootOnly: bool, s: State)
    requires Kept(r, s, Idle) && Parsed(r, s)
    ensures Kept(r, Run(r, rootOnly, s), Idle)
    decreases |s.current|
  {
    hide Replay, Next, Halted, Canceled, Obeyed, ReadText, CloseTag, OpenTag;
    if s.current != [] {
      var s1 := ReadText(r, s);
      ReadTextKept(r, s);
      if Is(s1.current, '<') {
        var s2 := s1.(current := s1.current[1..]);
        if Is(s2.current, '/') {
          var s3 := s2.(current := s2.current[1..]);
          CloseTagKept(r, rootOnly, s3);
          var (s4, stop) := CloseTag(r, rootOnly, s3);
          if !stop {
            RunKept(r, rootOnly, s4);
          }
        } else {
          OpenTagKept(r, s2);
          RunKept(r, rootOnly, OpenTag(r, s2));
        }
      }
    }
  }

  /**
   * Whatever the text and the reader: every tag pushed is popped, the latest one first; content, attributes and ends
   * come where they belong; a cancel is reported, and obeyed unless it came from an unparsed tag.
   */
  lemma EveryRunNests(r: Reader, rootOnly: bool, text: View)
    ensures var s := Outcome(r, rootOnly, text);
      && s.stack == [] && Replay(r, s.trace) == Book([], Idle, s.next)
      && s.canceled == Canceled(r, s.trace)
      && Obeyed(r, s.trace)
  {
    RunKept(r, rootOnly, Start(text));
    PopToKept(r, Run(r, rootOnly, Start(text)), 0);
  }

  lemma UntilFirst(s: View, stop: char -> bool)
    requires s != [] && stop(s[0])
    ensures After(s, stop) == s && Before(s, stop) == []
  {}

  lemma ShortName(name: View, rest: View)
    requires |name| == 1 && Letter(name[0]) && rest != [] && (rest[0] == '>' || (|rest| > 1 && rest[0] == '/' && rest[1] == '>'))
    ensures TagName(name + rest) == (name, rest)
  {
    var s := name + rest;
    UntilFirst(s, NameStart);
    assert !Prefix(s, "!--") by { assert |s| >= 3 ==> s[..3][0] == name[0]; }
    if rest[0] == '>' {
      UntilAt(name, rest, NameEnd);
      UntilFirst(rest, IdentOrClose);
    } else {
      assert s == (name + "/") + rest[1..];
      UntilAt(name + "/", rest[1..], NameEnd);
      assert (name + "/")[..1] == name;
    }
  }

  lemma RawEndAtOnce(name: View, rest: View)
    ensures var close := "</" + (name + (">" + rest)); RawEnd(close, name) == Some((close, rest))
  {
    hide Until;
    var close := "</" + (name + (">" + rest));
    UntilFirst(close, Opens);
    assert Skip(Skip(close, 1), 1) == name + (">" + rest) && Skip(name + (">" + rest), |name|) == ">" + rest;
    UntilFirst(">" + rest, WhiteEnd);
    assert (">" + rest)[1..] == rest;
    assert RawClose(close, name) == Some(rest);
  }

  lemma RawAtOnce(r: Reader, s: State, t: Tag, rest: View)
    requires s.stack != [] && r.cancels(|s.trace|) && s.current == "</" + (t.name + (">" + rest))
    ensures Raw(r, s, t) == State(rest, true, s.stack[..|s.stack| - 1], s.trace + [Pop(t)], s.next)
  {
    hide RawEnd;
    RawEndAtOnce(t.name, rest);
    assert s.current[..0] == [];
  }

  /** From the end of the tag `t`, which is not parsed and is closed at once, with a cancel in its last callback. */
  lemma FinishRaw(r: Reader, s: State, t: Tag, rest: View)
    requires !r.parses(t.id) && (forall i :: r.closable(i) == None) && t.closable && !s.canceled
    requires forall i :: r.cancels(i) <==> i == |s.trace| + 2
    requires s.current == ">" + ("</" + (t.name + (">" + rest)))
    ensures Finish(r, s, t) == State(rest, true, s.stack, s.trace + [End(t.id, false)] + [Push(t)] + [Pop(t)], s.next)
  {
    hide Until, RawEnd, Raw;
    var close := "</" + (t.name + (">" + rest));
    UntilFirst(s.current, Closes);
    assert Closed(s.current) == close;
    assert (s.stack + [t])[..|s.stack|] == s.stack;
    RawAtOnce(r, State(close, false, s.stack + [t], s.trace + [End(t.id, false)] + [Push(t)], s.next), t, rest);
  }

  lemma PlainTag(r: Reader, s: State, name: View, rest: View)
    requires TagName(s.current) == (name, rest) && |name| == 1 && Letter(name[0]) && (Is(rest, '>') || Is(rest, '/'))
    requires !r.cancels(|s.trace|) && r.closable(|s.trace|) == None
    ensures var t := Tag(s.next, name, true, false);
      OpenTag(r, s) == Finish(r, State(rest, s.canceled, s.stack, s.trace + [Begin(t)], s.next + 1), t)
  {
    hide TagName, Finish;
  }

  lemma FirstTag(r: Reader)
    requires forall i :: r.closable(i) == None && (r.cancels(i) <==> i == 3) && (r.parses(i) <==> i != 0)
    ensures var a := Tag(0, "a", true, false);
      Run(r, false, Start("<a></a><b/>")) == Run(r, false, State("<b/>", true, [], [] + [Begin(a)] + [End(0, false)] + [Push(a)] + [Pop(a)], 1))
  {
    hide TagName, Until, Finish;
    var s := Start("<a></a><b/>");
    var a := Tag(0, "a", true, false);
    UntilFirst(s.current, Opens);
    var end := ">" + ("</" + ("a" + (">" + "<b/>")));
    assert s.current[1..] == "a" + end;
    ShortName("a", end);
    var s1 := State(end, false, [], [] + [Begin(a)], 1);
    FinishRaw(r, s1, a, "<b/>");
    assert OpenTag(r, s.(current := "a" + end)) == Finish(r, s1, a) by { PlainTag(r, s.(current := "a" + end), "a", end); }
  }

  lemma SecondTag(r: Reader, s: State)
    requires (forall i :: r.closable(i) == None && (r.cancels(i) <==> i == 3)) && |s.trace| == 4 && s.stack == [] && s.current == "<b/>"
    ensures var b := Tag(s.next, "b", true, false);
      Run(r, false, s) == State("", s.canceled, [], s.trace + [Begin(b)] + [End(b.id, true)] + [Inline(b.(closable := false))], s.next + 1)
  {
    hide TagName, Until;
    var b := Tag(s.next, "b", true, false);
    UntilFirst(s.current, Opens);
    assert s.current[1..] == "b" + "/>";
    ShortName("b", "/>");
    UntilAt("/", ">", Closes);
    assert "/" + ">" == "/>";
    var s2 := s.(current := "b" + "/>");
    var s3 := State("/>", s.canceled, [], s.trace + [Begin(b)], s.next + 1);
    PlainTag(r, s2, "b", "/>");
  }

  lemma EmptyPops(r: Reader)
    ensures forall s: State :: s.stack == [] ==> PopTo(r, s, 0) == s
  {}

  /** A reader that cancels when the unparsed tag `a` is closed, and still gets the tag behind it. */
  lemma CancelInUnparsedTag()
    ensures var r := Reader(i => i == 3, _ => None, i => i != 0);
      var s := Outcome(r, false, "<a></a><b/>");
      s.canceled && |s.trace| > 4 && s.trace[3] == Pop(Tag(0, "a", true, false)) && s.trace[4] == Begin(Tag(1, "b", true, false))
  {
    hide Run, PopTo;
    var r := Reader(i => i == 3, _ => None, i => i != 0);
    var a, b := Tag(0, "a", true, false), Tag(1, "b", true, false);
    FirstTag(r);
    EmptyPops(r);
    SecondTag(r, State("<b/>", true, [], [] + [Begin(a)] + [End(0, false)] + [Push(a)] + [Pop(a)], 1));
  }
}
