/** Which cancels are lost: exactly those in a callback about a tag whose content is not parsed. */
module HtmlCancel {
  import opened HtmlView
  import opened HtmlParser
  import opened HtmlNesting
  import opened HtmlTrace

  /** The same but for the note that a callback has cancelled. */
  predicate Same(s: State, t: State) { t == s.(canceled := t.canceled) }

  /** Two readers that cancel alike, except perhaps in callbacks of `trace` about unparsed tags. */
  ghost predicate Alike(r: Reader, q: Reader, trace: seq<Event>) {
    && q == r.(cancels := q.cancels)
    && forall i :: 0 <= i < |trace| ==> Unparsed(r, trace[i]) || q.cancels(i) == r.cancels(i)
  }

  lemma AlikeBefore(r: Reader, q: Reader, s: State, t: State)
    requires Alike(r, q, t.trace) && Grows(s, t)
    ensures Alike(r, q, s.trace)
  {}

  /** The next callback, which is not about an unparsed tag. */
  lemma EmitSame(r: Reader, q: Reader, s: State, t: State, e: Event)
    requires Same(s, t) && Alike(r, q, Emit(r, s, e).trace) && !Unparsed(r, e)
    ensures Same(Emit(r, s, e), Emit(q, t, e))
  {
    assert Emit(r, s, e).trace[|s.trace|] == e;
  }

  lemma AdjustedSame(r: Reader, q: Reader, s: State, t: State, tag: Tag)
    requires Same(s, t) && q == r.(cancels := q.cancels)
    ensures Adjusted(q, t, tag) == Adjusted(r, s, tag)
  {}

  lemma DeliverSame(r: Reader, q: Reader, s: State, t: State, text: View)
    requires Same(s, t) && AllParsed(r, s.stack) && Alike(r, q, Deliver(r, s, text).trace)
    ensures Same(Deliver(r, s, text), Deliver(q, t, text))
  {
    hide Emit, Alike;
    if s.stack == [] {
      EmitSame(r, q, s, t, Content(None, text));
    } else {
      var u, v := s.(stack := Mark(s.stack)), t.(stack := Mark(t.stack));
      EmitSame(r, q, u, v, Content(Some(s.stack[|s.stack| - 1].id), text));
    }
  }

  lemma ReadTextSame(r: Reader, q: Reader, s: State, t: State)
    requires Same(s, t) && AllParsed(r, s.stack) && Alike(r, q, ReadText(r, s).trace)
    ensures Same(ReadText(r, s), ReadText(q, t))
  {
    hide Deliver, Alike;
    var text := Before(s.current, Opens);
    if text != [] {
      DeliverSame(r, q, s.(current := After(s.current, Opens)), t.(current := After(s.current, Opens)), text);
    }
  }

  /** Pops of parsed tags; of the others only the text that is left may differ. */
  lemma {:induction false} PopToSame(r: Reader, q: Reader, s: State, t: State, depth: nat)
    requires t == s.(canceled := t.canceled, current := t.current) && Alike(r, q, PopTo(r, s, depth).trace)
    ensures var (u, v) := (PopTo(r, s, depth), PopTo(q, t, depth));
      v == u.(canceled := v.canceled, current := v.current) && (AllParsed(r, s.stack) && Same(s, t) ==> Same(u, v))
    decreases |s.stack|
  {
    hide Emit, Alike, Grows, Unparsed;
    if |s.stack| > depth {
      var e := Pop(s.stack[|s.stack| - 1]);
      var u := Emit(r, s, e).(stack := s.stack[..|s.stack| - 1]);
      var v := Emit(q, t, e).(stack := s.stack[..|s.stack| - 1]);
      EmitKeepsStack(r, s, e);
      EmitKeepsStack(q, t, e);
      PopToGrows(r, u, depth);
      AlikeBefore(r, q, u, PopTo(r, s, depth));
      PopSame(r, q, s, t);
      PopToSame(r, q, u, v, depth);
    }
  }

  lemma PopSame(r: Reader, q: Reader, s: State, t: State)
    requires s.stack != [] && t == s.(canceled := t.canceled, current := t.current)
    requires Alike(r, q, Emit(r, s, Pop(s.stack[|s.stack| - 1])).trace)
    ensures var e := Pop(s.stack[|s.stack| - 1]);
      var (u, v) := (Emit(r, s, e), Emit(q, t, e));
      v == u.(canceled := v.canceled, current := v.current) && (!Unparsed(r, e) && Same(s, t) ==> Same(u, v)) &&
      (AllParsed(r, s.stack) ==> !Unparsed(r, e))
  {
    var e := Pop(s.stack[|s.stack| - 1]);
    assert Emit(r, s, e).trace[|s.trace|] == e;
  }

  lemma CloseTagSame(r: Reader, q: Reader, rootOnly: bool, s: State, t: State)
    requires Same(s, t) && Parsed(r, s) && Alike(r, q, CloseTag(r, rootOnly, s).0.trace)
    ensures Same(CloseTag(r, rootOnly, s).0, CloseTag(q, rootOnly, t).0)
    ensures CloseTag(r, rootOnly, s).1 == CloseTag(q, rootOnly, t).1
  {
    hide PopTo, Depth, Alike, AllParsed;
    var name, rest := Before(s.current, Closes), After(s.current, Closes);
    if name != [] && rest != [] && s.stack != [] {
      PopToSame(r, q, s.(current := rest), t.(current := rest), Depth(s.stack, name));
    }
  }

  lemma DeclarationSame(r: Reader, q: Reader, s: State, t: State)
    requires Same(s, t) && AllParsed(r, s.stack) && Alike(r, q, Declaration(r, s).trace)
    ensures Same(Declaration(r, s), Declaration(q, t))
  {
    hide Deliver, Alike, AllParsed;
    if Prefix(s.current, "CDATA[") {
      var n := Find(s.current, "]]>");
      var cdata, rest := Skip(s.current[..n], 6), Skip(s.current[n..], 3);
      if cdata != [] {
        DeliverSame(r, q, s.(current := rest), t.(current := rest), cdata);
      }
    }
  }

  lemma {:induction false} AttributesSame(r: Reader, q: Reader, s: State, t: State, tag: Tag)
    requires Same(s, t) && Alike(r, q, Attributes(r, s, tag).0.trace)
    ensures Same(Attributes(r, s, tag).0, Attributes(q, t, tag).0) && Attributes(r, s, tag).1 == Attributes(q, t, tag).1
    decreases |s.current|
  {
    hide AttrName, AttrValue, Adjusted, Emit, Alike;
    if s.current != [] && s.current[0] != '>' && s.current[0] != '/' {
      var (name, rest) := AttrName(s.current);
      if name != [] {
        var (value, after) := AttrValue(rest);
        var e := Attribute(tag.id, name, value);
        var u, v := Emit(r, s.(current := after), e), Emit(q, t.(current := after), e);
        AttributesGrow(r, u, Adjusted(r, u, tag));
        AlikeBefore(r, q, u, Attributes(r, s, tag).0);
        EmitSame(r, q, s.(current := after), t.(current := after), e);
        assert q == r.(cancels := q.cancels) by { SameBut(r, q, u.trace); }
        AdjustedSame(r, q, u, v, tag);
        AttributesSame(r, q, u, v, Adjusted(r, u, tag));
      }
    }
  }

  lemma SameBut(r: Reader, q: Reader, trace: seq<Event>)
    requires Alike(r, q, trace)
    ensures q == r.(cancels := q.cancels)
  {}

  /** Raw content: whatever its callbacks do, the text that is left is the same. */
  lemma RawSame(r: Reader, q: Reader, s: State, t: State, tag: Tag)
    requires Same(s, t) && s.stack != []
    ensures Same(Raw(r, s, tag), Raw(q, t, tag))
  {
    hide RawEnd;
  }

  lemma FinishSame(r: Reader, q: Reader, s: State, t: State, tag: Tag)
    requires Same(s, t) && Alike(r, q, Finish(r, s, tag).trace)
    ensures Same(Finish(r, s, tag), Finish(q, t, tag))
  {
    hide Raw, Closed, Adjusted, Emit, Alike, Is;
    var t1 := tag.(closable := tag.closable && !Is(s.current, '/'));
    var end := End(tag.id, !t1.closable);
    var u, v := Emit(r, s.(current := Closed(s.current)), end), Emit(q, t.(current := Closed(s.current)), end);
    SameBut(r, q, Finish(r, s, tag).trace);
    FinishPrefixes(r, s, tag);
    AlikeBefore(r, q, u, Finish(r, s, tag));
    EmitSame(r, q, s.(current := Closed(s.current)), t.(current := Closed(s.current)), end);
    AdjustedSame(r, q, u, v, t1);
    var t2 := Adjusted(r, u, t1);
    if !t2.closable {
      EmitSame(r, q, u, v, Inline(t2));
    } else {
      var u2, v2 := Emit(r, u, Push(t2)), Emit(q, v, Push(t2));
      AlikeBefore(r, q, u2, Finish(r, s, tag));
      EmitSame(r, q, u, v, Push(t2));
      if !r.parses(t2.id) {
        RawSame(r, q, u2.(stack := u2.stack + [t2]), v2.(stack := v2.stack + [t2]), t2);
      }
    }
  }

  lemma FinishPrefixes(r: Reader, s: State, tag: Tag)
    ensures var t1 := tag.(closable := tag.closable && !Is(s.current, '/'));
      var u := Emit(r, s.(current := Closed(s.current)), End(tag.id, !t1.closable));
      var t2 := Adjusted(r, u, t1);
      Grows(u, Finish(r, s, tag)) && (t2.closable ==> Grows(Emit(r, u, Push(t2)), Finish(r, s, tag)))
  {
    hide Raw, Closed, Adjusted, Is;
    var t1 := tag.(closable := tag.closable && !Is(s.current, '/'));
    var u := Emit(r, s.(current := Closed(s.current)), End(tag.id, !t1.closable));
    var t2 := Adjusted(r, u, t1);
    if t2.closable && !r.parses(t2.id) {
      var u2 := Emit(r, u, Push(t2));
      RawGrows(r, u2.(stack := u2.stack + [t2]), t2);
    }
  }

  lemma ElementSame(r: Reader, q: Reader, s: State, t: State, name: View)
    requires Same(s, t) && Alike(r, q, Element(r, s, name).trace)
    ensures Same(Element(r, s, name), Element(q, t, name))
  {
    hide Adjusted, Finish, Attributes, Emit, Alike;
    var tag := Tag(s.next, name, true, false);
    var s1, t1 := s.(next := s.next + 1), t.(next := s.next + 1);
    var u, v := Emit(r, s1, Begin(tag)), Emit(q, t1, Begin(tag));
    var all := Element(r, s, name);
    var (u2, tag2) := Attributes(r, u, Adjusted(r, u, tag));
    AttributesGrow(r, u, Adjusted(r, u, tag));
    EndGrows(r, u2, tag2);
    Later(u, u2, all);
    AlikeBefore(r, q, u, all);
    AlikeBefore(r, q, u2, all);
    SameBut(r, q, all.trace);
    EmitSame(r, q, s1, t1, Begin(tag));
    AdjustedSame(r, q, u, v, tag);
    AttributesSame(r, q, u, v, Adjusted(r, u, tag));
    FinishSame(r, q, u2, Attributes(q, v, Adjusted(q, v, tag)).0, tag2);
  }

  lemma EndGrows(r: Reader, s: State, tag: Tag)
    ensures Grows(s, Finish(r, s, tag))
  {
    hide Finish;
    FinishGrows(r, s, tag);
  }

  lemma OpenTagSame(r: Reader, q: Reader, s: State, t: State)
    requires Same(s, t) && AllParsed(r, s.stack) && Alike(r, q, OpenTag(r, s).trace)
    ensures Same(OpenTag(r, s), OpenTag(q, t))
  {
    hide Element, Declaration, TagName, Alike, AllParsed;
    var (name, rest) := TagName(s.current);
    if name != [] && !Prefix(name, "!--") && name[0] != '?' {
      if name[0] == '!' {
        DeclarationSame(r, q, s.(current := rest), t.(current := rest));
      } else {
        ElementSame(r, q, s.(current := rest), t.(current := rest), name);
      }
    }
  }

  lemma {:induction false} RunSame(r: Reader, q: Reader, rootOnly: bool, s: State, t: State)
    requires Same(s, t) && Kept(r, s, Idle) && Parsed(r, s) && Alike(r, q, Run(r, rootOnly, s).trace)
    ensures Same(Run(r, rootOnly, s), Run(q, rootOnly, t))
    decreases |s.current|
  {
    hide Replay, Next, Halted, Canceled, Obeyed, ReadText, CloseTag, OpenTag, Alike, Grows;
    if s.current != [] {
      var all := Run(r, rootOnly, s);
      var s1, t1 := ReadText(r, s), ReadText(q, t);
      ReadTextKept(r, s);
      TextBefore(r, rootOnly, s);
      AlikeBefore(r, q, s1, all);
      ReadTextSame(r, q, s, t);
      if Is(s1.current, '<') {
        var s2, t2 := s1.(current := s1.current[1..]), t1.(current := s1.current[1..]);
        if Is(s2.current, '/') {
          var s3, t3 := s2.(current := s2.current[1..]), t2.(current := s2.current[1..]);
          CloseTagKept(r, rootOnly, s3);
          var (s4, stop) := CloseTag(r, rootOnly, s3);
          if !stop {
            RunGrows(r, rootOnly, s4);
            AlikeBefore(r, q, s4, all);
          }
          CloseTagSame(r, q, rootOnly, s3, t3);
          if !stop {
            RunSame(r, q, rootOnly, s4, CloseTag(q, rootOnly, t3).0);
          }
        } else {
          OpenTagKept(r, s2);
          RunGrows(r, rootOnly, OpenTag(r, s2));
          AlikeBefore(r, q, OpenTag(r, s2), all);
          OpenTagSame(r, q, s2, t2);
          RunSame(r, q, rootOnly, OpenTag(r, s2), OpenTag(q, t2));
        }
      }
    }
  }

  lemma TextBefore(r: Reader, rootOnly: bool, s: State)
    requires s.current != []
    ensures Grows(ReadText(r, s), Run(r, rootOnly, s))
  {
    hide ReadText, CloseTag, OpenTag;
    var s1 := ReadText(r, s);
    if Is(s1.current, '<') {
      var s2 := s1.(current := s1.current[1..]);
      if Is(s2.current, '/') {
        var s3 := s2.(current := s2.current[1..]);
        CloseTagGrows(r, rootOnly, s3);
        var (s4, stop) := CloseTag(r, rootOnly, s3);
        RunGrows(r, rootOnly, s4);
      } else {
        OpenTagGrows(r, s2);
        RunGrows(r, rootOnly, OpenTag(r, s2));
      }
    }
  }

  /** A run does not depend on what callbacks about unparsed tags cancel: callbacks, tags and stack are the same. */
  lemma CancelsAreLost(r: Reader, q: Reader, rootOnly: bool, text: View)
    requires Alike(r, q, Outcome(r, rootOnly, text).trace)
    ensures var (s, t) := (Outcome(r, rootOnly, text), Outcome(q, rootOnly, text));
      s.trace == t.trace && s.stack == t.stack && s.next == t.next
  {
    hide Run, PopTo, Alike, Grows, Kept;
    var s := Run(r, rootOnly, Start(text));
    PopToGrows(r, s, 0);
    AlikeBefore(r, q, s, Outcome(r, rootOnly, text));
    StartKept(r, text);
    RunSame(r, q, rootOnly, Start(text), Start(text));
    PopToSame(r, q, s, Run(q, rootOnly, Start(text)), 0);
  }

  lemma StartKept(r: Reader, text: View)
    ensures Kept(r, Start(text), Idle) && Parsed(r, Start(text))
  {}

  /** The reader whose cancels in callbacks about unparsed tags are left out. */
  function Attentive(r: Reader, trace: seq<Event>): Reader {
    r.(cancels := (j: nat) => r.cancels(j) && !(j < |trace| && Unparsed(r, trace[j])))
  }

  /** All of them can be left out together. */
  lemma CancelsCanBeLeftOut(r: Reader, rootOnly: bool, text: View)
    ensures var s := Outcome(r, rootOnly, text);
      var t := Outcome(Attentive(r, s.trace), rootOnly, text);
      s.trace == t.trace && s.stack == t.stack && s.next == t.next
  {
    hide Outcome;
    CancelsAreLost(r, Attentive(r, Outcome(r, rootOnly, text).trace), rootOnly, text);
  }

  /** The reader that does not cancel in callback `i`. */
  function Without(r: Reader, i: nat): Reader { r.(cancels := (j: nat) => j != i && r.cancels(j)) }

  /**
   * A cancel changes nothing exactly if it comes from a callback about a tag whose content is not parsed, its content or
   * its end; provided that there is more to read without it.
   */
  lemma CancelIsLostIff(r: Reader, rootOnly: bool, text: View, i: nat)
    requires i < |Outcome(r, rootOnly, text).trace| && r.cancels(i)
    requires exists j :: i < j < |Outcome(Without(r, i), rootOnly, text).trace| && Reads(Outcome(Without(r, i), rootOnly, text).trace[j])
    ensures var (s, t) := (Outcome(r, rootOnly, text), Outcome(Without(r, i), rootOnly, text));
      (s.trace == t.trace && s.stack == t.stack && s.next == t.next) <==> Unparsed(r, s.trace[i])
  {
    hide Run, PopTo, Replay, Outcome;
    var s, t := Outcome(r, rootOnly, text), Outcome(Without(r, i), rootOnly, text);
    if Unparsed(r, s.trace[i]) {
      CancelsAreLost(r, Without(r, i), rootOnly, text);
    } else {
      EveryRunNests(r, rootOnly, text);
      NoMoreIsRead(r, s.trace, i);
      var j :| i < j < |t.trace| && Reads(t.trace[j]);
      assert j < |s.trace| ==> !Reads(s.trace[j]);
    }
  }

  lemma NoMoreIsRead(r: Reader, trace: seq<Event>, i: nat)
    requires Obeyed(r, trace) && i < |trace| && r.cancels(i) && !Unparsed(r, trace[i])
    ensures forall j :: i < j < |trace| ==> !Reads(trace[j])
  {
    forall j | i < j < |trace|
      ensures !Reads(trace[j])
    {
      assert trace[..j][i] == trace[i];
      assert Halted(r, trace[..j]);
    }
  }
}
