/** One small document with every kind of markup in it, and all callbacks for it written out. */
module HtmlSamples {
  import opened HtmlView
  import opened HtmlParser
  import opened HtmlAttrs
  import opened HtmlMarkup
  import opened HtmlDocument

  /** The content of the third tag is not to be parsed. */
  ghost predicate Reads(r: Reader) { Quiet(r) && r.parses(0) && !r.parses(2) && r.parses(3) }

  /** The document as it is written. */
  function Source(): string {
    "<!D>" + ("<a b=\"c\">" + ("d<!-- > -->" + ("<e/><s>1<2</s >" + ("<g>h<![CDATA[<]]>" + "</a></x><?p q?>i"))))
  }

  /** The callbacks in front of what is inside the root, for what is inside it, and behind that. */
  function Callbacks(): seq<Event> {
    [Begin(Tag(0, "a", true, false)), Attribute(0, "b", "c"), End(0, false), Push(Tag(0, "a", true, false))] +
      InnerCallbacks() +
      [Pop(Tag(3, "g", true, true)), Pop(Tag(0, "a", true, true)), Content(None, "i")]
  }

  function InnerCallbacks(): seq<Event> {
    [Content(Some(0), "d"), Begin(Tag(1, "e", true, false)), End(1, true), Inline(Tag(1, "e", false, false)),
      Begin(Tag(2, "s", true, false)), End(2, false), Push(Tag(2, "s", true, false)), Content(Some(2), "1<2"),
      Pop(Tag(2, "s", true, false)), Begin(Tag(3, "g", true, false)), End(3, false), Push(Tag(3, "g", true, false)),
      Content(Some(3), "h"), Content(Some(3), "<")]
  }

  function Inmost(): Forest { Unclosed("g", "", [], Text("h", Section("<", Nil))) }

  function Inner(): Forest { Void("e", "", [], Unparsed("s", "", [], "1<2", " ", Inmost())) }

  function Inside(): Forest { Text("d", Markup(Comment, " > ", Inner())) }

  function Behind(): Forest { Stray("x", Markup(Instruction, "p q", Text("i", Nil))) }

  function BAttr(): Attrs { [Attr("b", Quotes('"', "c"), "")] }

  function Sample(): Forest { Markup(Declared, "D", Node("a", " ", BAttr(), Inside(), Behind())) }

  lemma PlainTag(rest: View)
    ensures forall n: View {:trigger WriteTag(n, "", [], false, rest)} :: WriteTag(n, "", [], false, rest) == "<" + n + ">" + rest
    ensures forall n: View {:trigger WriteTag(n, "", [], true, rest)} :: WriteTag(n, "", [], true, rest) == "<" + n + "/>" + rest
  {
    assert "" + (">" + rest) == ">" + rest && "/" + (">" + rest) == "/>" + rest;
    assert WriteAttrs([], EndText(false, rest)) == ">" + rest && WriteAttrs([], EndText(true, rest)) == "/>" + rest;
    forall n: View ensures WriteTag(n, "", [], false, rest) == "<" + n + ">" + rest { assert "" + (">" + rest) == ">" + rest; }
    forall n: View ensures WriteTag(n, "", [], true, rest) == "<" + n + "/>" + rest { assert "" + ("/>" + rest) == "/>" + rest; }
  }

  lemma InmostText(rest: View)
    ensures Write(Inmost(), rest) == "<g>h<![CDATA[<]]>" + rest
  {
    hide WriteTag;
    PlainTag("h" + ("<![CDATA[" + ("<" + ("]]>" + rest))));
    assert Write(Section("<", Nil), rest) == "<![CDATA[" + ("<" + ("]]>" + rest));
  }

  lemma InnerText(rest: View)
    ensures Write(Inner(), rest) == "<e/><s>1<2</s >" + Write(Inmost(), rest)
  {
    hide WriteTag;
    var inmost := Write(Inmost(), rest);
    PlainTag("1<2" + (ClosingTag("s", " ") + inmost));
    assert ClosingTag("s", " ") == "</s >";
    assert Write(Unparsed("s", "", [], "1<2", " ", Inmost()), rest) == "<s>1<2</s >" + inmost;
    PlainTag("<s>1<2</s >" + inmost);
  }

  lemma InsideText(rest: View)
    ensures Write(Inside(), rest) == "d<!-- > -->" + Write(Inner(), rest)
  {
    hide WriteTag;
    var inner := Write(Inner(), rest);
    assert Write(Markup(Comment, " > ", Inner()), rest) == "<!-- > -->" + inner;
  }

  lemma BehindText()
    ensures Write(Behind(), "") == "</x><?p q?>i"
  {
    assert Write(Text("i", Nil), "") == "i";
    assert Write(Markup(Instruction, "p q", Text("i", Nil)), "") == "<?p q?>i";
  }

  lemma SampleText()
    ensures Write(Sample(), "") == Source()
  {
    hide WriteTag, Write;
    BehindText();
    var close := "</" + ("a" + (">" + Write(Behind(), "")));
    assert close == "</a></x><?p q?>i";
    InsideText(close);
    InnerText(close);
    InmostText(close);
    BTag(Write(Inside(), close));
    SampleParts(close);
  }

  lemma SampleParts(close: View)
    requires close == "</" + ("a" + (">" + Write(Behind(), "")))
    ensures Write(Sample(), "") == "<!D>" + WriteTag("a", " ", BAttr(), false, Write(Inside(), close))
  {
    hide WriteTag;
    assert Write(Sample(), "") == "<" + ("!" + ("D" + (">" + Write(Node("a", " ", BAttr(), Inside(), Behind()), ""))));
  }

  lemma BTag(rest: View)
    ensures WriteTag("a", " ", BAttr(), false, rest) == "<a b=\"c\">" + rest
  {
    assert BAttr()[1..] == [];
    assert WriteAttrs(BAttr(), ">" + rest) == "b" + (("=" + (['"'] + ("c" + ['"']))) + ("" + (">" + rest)));
    assert "" + (">" + rest) == ">" + rest;
  }

  lemma GoodTags()
    ensures forall slash :: GoodTag("e", "", [], slash) && GoodTag("s", "", [], slash) && GoodTag("g", "", [], slash)
    ensures GoodTag("a", " ", BAttr(), false) && Ends(BAttr(), false)
  {
    assert GoodValue("c"[1..], '"');
    assert GoodAttr(BAttr()[0]);
  }

  lemma FreeOf(s: View, p: string)
    requires p != [] && forall i :: 0 <= i < |s| ==> s[i] != p[0]
    ensures Free(s, p)
  {
    forall i | 0 <= i < |s| ensures !Prefix(s[i..], p) { NotPrefix(s[i..], p, 0); }
  }

  lemma GoodMarks()
    ensures GoodMarkup(Declared, "D") && GoodMarkup(Comment, " > ") && GoodMarkup(Instruction, "p q")
    ensures Free("<", "]]>") && Free("x", ">") && Unclosable("1<2", "s") && Blank(" ")
  {
    hide Free;
    FreeOf("D", ">");
    FreeOf("D", "CDATA[");
    NotPrefix("D", "--", 0);
    FreeOf(" > ", "-->");
    FreeOf("p q", "?>");
    FreeOf("<", "]]>");
    FreeOf("x", ">");
    assert NameEndsAt("p q", 1) && IdentOrClose("p q"[2]);
    assert Instructs("p q");
    forall i, blanks | 0 <= i < 3 && Blank(blanks) ensures !Prefix("1<2"[i..], ClosingTag("s", blanks)) {
      NotPrefix("1<2"[i..], ClosingTag("s", blanks), if i == 1 then 1 else 0);
    }
  }

  lemma SampleIsWell(r: Reader)
    requires Reads(r)
    ensures WellFormed(Sample(), {}) && Fits(r, Sample(), 0) && AllEnd(Sample())
  {
    hide GoodTag, GoodMarkup, Free, Unclosable, Ends, Blank;
    InsideIsWell();
    NoAttrs();
    assert Tags(Inmost()) == 1 && Tags(Inner()) == 3 && Tags(Inside()) == 3;
    assert Fits(r, Inmost(), 3) && Fits(r, Inner(), 1) && Fits(r, Inside(), 1) && Fits(r, Behind(), 4);
    assert AllEnd(Inmost()) && AllEnd(Inner()) && AllEnd(Inside()) && AllEnd(Behind());
  }

  lemma InsideIsWell()
    ensures WellFormed(Sample(), {}) && Ends(BAttr(), false)
  {
    hide GoodTag, GoodMarkup, Free, Unclosable, Ends, Blank;
    GoodTags();
    GoodMarks();
    NoAttrs();
    assert WellFormed(Text("h", Section("<", Nil)), {"a", "g"});
    assert {"a"} + {"g"} == {"a", "g"} && {} + {"a"} == {"a"};
    assert WellFormed(Inmost(), {"a"}) && WellFormed(Inner(), {"a"}) && WellFormed(Inside(), {"a"}) && WellFormed(Behind(), {});
    assert !Leaves(Inmost(), "a") && !Leaves(Inner(), "a") && !Leaves(Inside(), "a");
  }

  lemma NoAttrs()
    ensures Ends([], true) && Ends([], false)
  {}

  lemma InsideTold(trace: seq<Event>)
    ensures Tell(trace, Inside(), Some(0), 1) == trace + InnerCallbacks()
  {
    var t1 := trace + [Content(Some(0), "d")];
    var t2 := t1 + [Begin(Tag(1, "e", true, false))] + [End(1, true)] + [Inline(Tag(1, "e", false, false))];
    var t3 := TellUnparsed(t2, "s", [], "1<2", 2);
    var t4 := t3 + [Begin(Tag(3, "g", true, false))] + [End(3, false)] + [Push(Tag(3, "g", true, false))];
    assert Tell(t4, Text("h", Section("<", Nil)), Some(3), 4) == t4 + [Content(Some(3), "h")] + [Content(Some(3), "<")];
    assert Tell(t3, Inmost(), Some(0), 3) == Tell(t4, Text("h", Section("<", Nil)), Some(3), 4);
    assert Tell(t1, Inner(), Some(0), 1) == Tell(t3, Inmost(), Some(0), 3);
    assert Tell(t1, Markup(Comment, " > ", Inner()), Some(0), 1) == Tell(t1, Inner(), Some(0), 1);
  }

  lemma SampleTold()
    ensures Told(Sample()) == Callbacks()
  {
    hide TellTag, InnerCallbacks;
    var told := TellTag([], "a", BAttr(), 0) + [End(0, false)] + [Push(Tag(0, "a", true, false))];
    RootOpens();
    InsideTold(told);
    var inner := Tell(told, Inside(), Some(0), 1);
    SampleOpen();
    var left := [Tag(0, "a", true, true)] + StillOpen(Inside(), 1);
    PopsTwo(inner, Tag(0, "a", true, true), Tag(3, "g", true, true));
    var t := PopAll(inner, left);
    BehindTold(t);
    NodeTold(inner);
  }

  lemma RootOpens()
    ensures TellTag([], "a", BAttr(), 0) == [Begin(Tag(0, "a", true, false)), Attribute(0, "b", "c")]
  {
    assert BAttr()[1..] == [];
  }

  lemma SampleOpen()
    ensures StillOpen(Inside(), 1) == [Tag(3, "g", true, true)] && HasText(Inside()) && Tags(Inside()) == 3
    ensures StillOpen(Behind(), 4) == []
  {
    assert HasText(Text("h", Section("<", Nil))) && StillOpen(Text("h", Section("<", Nil)), 4) == [];
    assert StillOpen(Inmost(), 3) == [Tag(3, "g", true, true)] && Tags(Inmost()) == 1;
    assert StillOpen(Inner(), 1) == StillOpen(Inmost(), 3) && Tags(Inner()) == 3;
    assert StillOpen(Text("i", Nil), 4) == [];
  }

  lemma PopsTwo(trace: seq<Event>, outer: Tag, inner: Tag)
    ensures PopAll(trace, [outer] + [inner]) == trace + [Pop(inner)] + [Pop(outer)]
  {
    assert ([outer] + [inner])[..1] == [outer] && [outer][..0] == [];
    assert PopAll(trace + [Pop(inner)], [outer]) == trace + [Pop(inner)] + [Pop(outer)];
  }

  lemma BehindTold(trace: seq<Event>)
    ensures Tell(trace, Behind(), None, 4) == trace + [Content(None, "i")]
  {
    assert Tell(trace, Text("i", Nil), None, 4) == trace + [Content(None, "i")];
    assert Tell(trace, Markup(Instruction, "p q", Text("i", Nil)), None, 4) == Tell(trace, Text("i", Nil), None, 4);
  }

  lemma NodeTold(inner: seq<Event>)
    requires inner == Tell(TellTag([], "a", BAttr(), 0) + [End(0, false)] + [Push(Tag(0, "a", true, false))], Inside(), Some(0), 1)
    requires HasText(Inside()) && Tags(Inside()) == 3 && StillOpen(Behind(), 4) == []
    ensures Told(Sample()) == Tell(PopAll(inner, [Tag(0, "a", true, true)] + StillOpen(Inside(), 1)), Behind(), None, 4)
  {
    hide TellTag, Inside, Behind;
    var node := Node("a", " ", BAttr(), Inside(), Behind());
    assert Tell([], Sample(), None, 0) == Tell([], node, None, 0);
    assert StillOpen(Sample(), 0) == StillOpen(node, 0) == StillOpen(Behind(), 4);
    NothingLeft(Tell([], Sample(), None, 0));
  }

  /** The whole run. */
  lemma SampleIsTold(r: Reader)
    requires Reads(r)
    ensures var s := Outcome(r, false, Source()); !s.canceled && s.trace == Callbacks()
  {
    hide Outcome, Told, WellFormed, Fits, AllEnd, Write, Sample, Quiet, Source, Callbacks;
    SampleIsWell(r);
    SampleText();
    SampleTold();
    DocumentIsTold(r, Sample());
  }
}
