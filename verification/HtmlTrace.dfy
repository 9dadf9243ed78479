/** Callbacks are never taken back: every step of a run only adds to the trace. */
module HtmlTrace {
  import opened HtmlView
  import opened HtmlParser

  predicate Grows(s: State, t: State) { s.trace <= t.trace }

  lemma Later(a: State, b: State, c: State)
    requires Grows(a, b) && Grows(b, c)
    ensures Grows(a, c)
  {}

  lemma EmitGrows(r: Reader, s: State, e: Event)
    ensures Grows(s, Emit(r, s, e))
  {}

  lemma DeliverGrows(r: Reader, s: State, text: View)
    ensures Grows(s, Deliver(r, s, text))
  {}

  lemma ReadTextGrows(r: Reader, s: State)
    ensures Grows(s, ReadText(r, s))
  {
    hide Deliver;
    DeliverGrows(r, s.(current := After(s.current, Opens)), Before(s.current, Opens));
  }

  lemma {:induction false} PopToGrows(r: Reader, s: State, depth: nat)
    ensures Grows(s, PopTo(r, s, depth))
    decreases |s.stack|
  {
    hide Emit, Grows;
    if |s.stack| > depth {
      var e := Pop(s.stack[|s.stack| - 1]);
      var t := Emit(r, s, e);
      EmitKeepsStack(r, s, e);
      var u := t.(stack := t.stack[..|t.stack| - 1]);
      Popped(r, s, e);
      PopToGrows(r, u, depth);
      Later(s, u, PopTo(r, u, depth));
    } else {
      Itself(s);
    }
  }

  lemma Itself(s: State)
    ensures Grows(s, s)
  {}

  lemma EmitKeepsStack(r: Reader, s: State, e: Event)
    ensures Emit(r, s, e).stack == s.stack
  {}

  lemma Popped(r: Reader, s: State, e: Event)
    requires s.stack != []
    ensures Grows(s, Emit(r, s, e).(stack := s.stack[..|s.stack| - 1]))
  {}

  lemma CloseTagGrows(r: Reader, rootOnly: bool, s: State)
    ensures Grows(s, CloseTag(r, rootOnly, s).0)
  {
    hide PopTo, Depth;
    var s1 := s.(current := After(s.current, Closes));
    PopToGrows(r, s1, Depth(s1.stack, Before(s.current, Closes)));
  }

  lemma DeclarationGrows(r: Reader, s: State)
    ensures Grows(s, Declaration(r, s))
  {
    hide Deliver;
    if Prefix(s.current, "CDATA[") {
      var n := Find(s.current, "]]>");
      DeliverGrows(r, s.(current := Skip(s.current[n..], 3)), Skip(s.current[..n], 6));
    }
  }

  lemma {:induction false} AttributesGrow(r: Reader, s: State, tag: Tag)
    ensures Grows(s, Attributes(r, s, tag).0)
    decreases |s.current|
  {
    hide AttrName, AttrValue, Adjusted;
    if s.current != [] && s.current[0] != '>' && s.current[0] != '/' {
      var (name, rest) := AttrName(s.current);
      if name != [] {
        var (value, after) := AttrValue(rest);
        var t := Emit(r, s.(current := after), Attribute(tag.id, name, value));
        AttributesGrow(r, t, Adjusted(r, t, tag));
      }
    }
  }

  lemma RawGrows(r: Reader, s: State, tag: Tag)
    requires s.stack != []
    ensures Grows(s, Raw(r, s, tag))
  {
    hide RawEnd;
  }

  lemma FinishGrows(r: Reader, s: State, tag: Tag)
    ensures var end := End(tag.id, !(tag.closable && !Is(s.current, '/')));
      s.trace + [end] <= Finish(r, s, tag).trace
  {
    hide Raw, Closed, Adjusted;
    var t1 := tag.(closable := tag.closable && !Is(s.current, '/'));
    var s1 := Emit(r, s.(current := Closed(s.current)), End(tag.id, !t1.closable));
    var t2 := Adjusted(r, s1, t1);
    if t2.closable && !r.parses(t2.id) {
      var s2 := Emit(r, s1, Push(t2));
      RawGrows(r, s2.(stack := s2.stack + [t2]), t2);
    }
  }

  lemma ElementGrows(r: Reader, s: State, name: View)
    ensures Grows(s, Element(r, s, name))
  {
    hide Adjusted, Finish, Attributes;
    var tag := Tag(s.next, name, true, false);
    var s1 := Emit(r, s.(next := s.next + 1), Begin(tag));
    var (s2, t2) := Attributes(r, s1, Adjusted(r, s1, tag));
    AttributesGrow(r, s1, Adjusted(r, s1, tag));
    FinishGrows(r, s2, t2);
  }

  lemma OpenTagGrows(r: Reader, s: State)
    ensures Grows(s, OpenTag(r, s))
  {
    hide Element, Declaration, TagName;
    var (name, rest) := TagName(s.current);
    DeclarationGrows(r, s.(current := rest));
    ElementGrows(r, s.(current := rest), name);
  }

  lemma {:induction false} RunGrows(r: Reader, rootOnly: bool, s: State)
    ensures Grows(s, Run(r, rootOnly, s))
    decreases |s.current|
  {
    hide ReadText, CloseTag, OpenTag;
    if s.current != [] {
      var s1 := ReadText(r, s);
      ReadTextGrows(r, s);
      if Is(s1.current, '<') {
        var s2 := s1.(current := s1.current[1..]);
        if Is(s2.current, '/') {
          var s3 := s2.(current := s2.current[1..]);
          CloseTagGrows(r, rootOnly, s3);
          var (s4, stop) := CloseTag(r, rootOnly, s3);
          if !stop {
            RunGrows(r, rootOnly, s4);
          }
        } else {
          OpenTagGrows(r, s2);
          RunGrows(r, rootOnly, OpenTag(r, s2));
        }
      }
    }
  }
}
