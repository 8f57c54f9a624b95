/** Printing a tree of elements and texts and reading it back. */
module XmlRoundTrip {
  import opened Basics
  import opened Xml
  import opened XmlWriting

  // ----- The calls that print a forest -----

  function CallsOf(nodes: seq<Node>): seq<Call> {
    if nodes == [] then [] else NodeCalls(nodes[0]) + CallsOf(nodes[1..])
  }

  function NodeCalls(node: Node): seq<Call> {
    match node
    case Text(content) => [WriteText(content)]
    case Elem(name, attrs, kids) => [StartElement(name)] + AttrCalls(attrs) + CallsOf(kids) + [EndElement]
  }

  function AttrCalls(attrs: seq<Attr>): seq<Call> {
    if attrs == [] then [] else AttrCalls(attrs[..|attrs| - 1]) + [AttrCall(attrs[|attrs| - 1])]
  }

  function AttrCall(a: Attr): Call {
    WriteAttribute(a.name, a.value)
  }

  /** An attribute that the writer does not drop. */
  predicate Kept(a: Attr) {
    a.name != "" && a.value != ""
  }

  /** What the writer demands of its callers: names are names. */
  predicate WellNamed(nodes: seq<Node>) {
    nodes == [] ||
    match nodes[0]
    case Text(_) => WellNamed(nodes[1..])
    case Elem(name, attrs, kids) =>
      GoodName(name) && NamedAttrs(attrs) && WellNamed(kids) && WellNamed(nodes[1..])
  }

  predicate NamedAttrs(attrs: seq<Attr>) {
    forall a <- attrs :: Kept(a) ==> GoodName(a.name)
  }

  // ----- What reading can give back -----

  /** A forest as XML has it, after a text `pending` directly before it: texts
      that meet are one, white space around them and attributes without a name or
      a value are gone, and white space inside is what XML makes of it. */
  function Canonical(pending: string, nodes: seq<Node>): seq<Node>
    decreases nodes
  {
    if nodes == [] then TextNode(pending)
    else match nodes[0]
      case Text(content) => Canonical(pending + content, nodes[1..])
      case Elem(name, attrs, kids) =>
        TextNode(pending) + [Elem(name, CanonicalAttrs(attrs), Canonical("", kids))] + Canonical("", nodes[1..])
  }

  function CanonicalAttrs(attrs: seq<Attr>): seq<Attr> {
    if attrs == [] then []
    else
      var last := attrs[|attrs| - 1];
      CanonicalAttrs(attrs[..|attrs| - 1])
      + (if Kept(last) then [Attr(last.name, Spaced(LineEnds(last.value)))] else [])
  }

  /** No attribute name twice in one element. */
  predicate UniqueNames(attrs: seq<Attr>) {
    forall i, j :: 0 <= i < j < |attrs| && Kept(attrs[i]) && Kept(attrs[j]) ==> attrs[i].name != attrs[j].name
  }

  predicate FineAttrs(attrs: seq<Attr>) {
    UniqueNames(attrs) && forall a <- attrs :: Kept(a) ==> Legal(a.value)
  }

  /** What XML allows of it: unique attribute names, legal characters, and no
      "]]>" in texts that meet. */
  predicate Printable(pending: string, nodes: seq<Node>)
    decreases nodes
  {
    nodes == [] ||
    match nodes[0]
    case Text(content) =>
      (content == "" || (Legal(content) && !HasSectionEnd(pending + content)))
      && Printable(pending + content, nodes[1..])
    case Elem(_, attrs, kids) => FineAttrs(attrs) && Printable("", kids) && Printable("", nodes[1..])
  }

  // ----- The calls describe the canonical forest -----

  /** `m` is a state from which `calls` are well nested and lead to `after`;
      `fine` says whether they conform to what XML allows. */
  ghost predicate Leads(m: Meaning, calls: seq<Call>, after: Meaning, fine: bool) {
    m.doc.Valid() && WellNested(m, calls) && ApplyAll(m, calls) == after && Conforming(m, calls) == fine
  }

  lemma {:induction false} LeadsConcat(m: Meaning, a: seq<Call>, between: Meaning, b: seq<Call>, after: Meaning,
                                       fine: bool, fine': bool)
    requires Leads(m, a, between, fine) && Leads(between, b, after, fine')
    ensures Leads(m, a + b, after, fine && fine')
    decreases a
  {
    if a == [] {
      assert a + b == b;
    } else {
      hide Allowed, Conforms, Apply;
      LeadsConcat(Apply(m, a[0]), a[1..], between, b, after, Conforming(Apply(m, a[0]), a[1..]), fine');
      assert (a + b)[1..] == a[1..] + b;
    }
  }

  lemma LeadsOne(m: Meaning, c: Call)
    requires m.doc.Valid() && Allowed(m, c)
    ensures Leads(m, [c], Apply(m, c), Conforms(m, c))
  {
    assert [c][1..] == [];
  }

  /** `doc` with more nodes in the innermost open element. */
  function Grown(doc: Doc, nodes: seq<Node>): (d: Doc)
    requires doc.Valid()
    ensures d.Valid() && |d.stack| == |doc.stack|
  {
    doc.SetTop(doc.Top().(kids := doc.Top().kids + nodes)).(pending := "")
  }

  lemma GrownTwice(doc: Doc, a: seq<Node>, b: seq<Node>)
    requires doc.Valid()
    ensures Grown(Grown(doc, a), b) == Grown(doc, a + b)
  {
    assert doc.Top().kids + a + b == doc.Top().kids + (a + b);
  }

  lemma KeptNames(attrs: seq<Attr>, name: string)
    ensures (exists a <- CanonicalAttrs(attrs) :: a.name == name) <==> (exists a <- attrs :: Kept(a) && a.name == name)
  {
    if attrs != [] {
      var init, last := attrs[..|attrs| - 1], attrs[|attrs| - 1];
      assert attrs == init + [last];
      KeptNames(init, name);
    }
  }

  lemma FineOne(init: seq<Attr>, last: Attr)
    ensures FineAttrs(init + [last]) <==>
              && FineAttrs(init)
              && (Kept(last) ==> Legal(last.value) && !(exists a <- init :: Kept(a) && a.name == last.name))
  {
    hide Legal;
    var attrs := init + [last];
    assert forall i :: 0 <= i < |init| ==> attrs[i] == init[i];
    assert attrs[|init|] == last;
    assert (exists a <- init :: Kept(a) && a.name == last.name)
           <==> exists i :: 0 <= i < |init| && Kept(init[i]) && init[i].name == last.name;
  }

  lemma NoAttrs()
    ensures FineAttrs([])
  {}

  lemma {:induction false} AttrsLead(stack: seq<Frame>, name: string, attrs: seq<Attr>)
    requires NamedAttrs(attrs)
    ensures Leads(Meaning(Doc(stack + [Frame(name, [], [])], ""), true), AttrCalls(attrs),
                  Meaning(Doc(stack + [Frame(name, CanonicalAttrs(attrs), [])], ""), true), FineAttrs(attrs))
  {
    hide Legal, GoodName, FineAttrs, Spaced, LineEnds;
    if attrs == [] {
      NoAttrs();
    } else {
      var init, last := attrs[..|attrs| - 1], attrs[|attrs| - 1];
      assert attrs == init + [last];
      FineOne(init, last);
      KeptNames(init, last.name);
      AttrsLead(stack, name, init);
      var m := Meaning(Doc(stack + [Frame(name, CanonicalAttrs(init), [])], ""), true);
      LeadsOne(m, AttrCall(last));
      assert CanonicalAttrs(init) + [] == CanonicalAttrs(init);
      assert m.doc.stack[..|stack|] == stack && m.doc.Top().attrs == CanonicalAttrs(init);
      assert Apply(m, AttrCall(last)) == Meaning(Doc(stack + [Frame(name, CanonicalAttrs(attrs), [])], ""), true);
      assert FineAttrs(attrs) == (FineAttrs(init) && Conforms(m, AttrCall(last)));
      LeadsConcat(Meaning(Doc(stack + [Frame(name, [], [])], ""), true), AttrCalls(init), m,
                  [AttrCall(last)], Apply(m, AttrCall(last)), FineAttrs(init), Conforms(m, AttrCall(last)));
    }
  }

  /** Closing an element adds it to the one around it. */
  lemma CloseGrows(outer: Doc, name: string, attrs: seq<Attr>, kids: seq<Node>, inner: Doc)
    requires outer.Valid() && inner.Valid()
    requires inner.Flush() == Grown(Doc(outer.Flush().stack + [Frame(name, attrs, [])], ""), kids)
    ensures |inner.stack| > 1
    ensures inner.Close() == Grown(outer, TextNode(outer.pending) + [Elem(name, attrs, kids)])
  {
    hide TextNode;
    var stack := outer.Flush().stack;
    assert (stack + [Frame(name, attrs, [])])[..|stack|] == stack;
    assert inner.Flush().Top() == Frame(name, attrs, [] + kids) && [] + kids == kids;
    GrownTwice(outer, TextNode(outer.pending), [Elem(name, attrs, kids)]);
  }

  lemma {:induction false} ElementLeads(m: Meaning, name: string, attrs: seq<Attr>, kids: seq<Node>)
    requires m.doc.Valid() && GoodName(name) && NamedAttrs(attrs) && WellNamed(kids)
    ensures var e := Elem(name, CanonicalAttrs(attrs), Canonical("", kids));
            Leads(m, NodeCalls(Elem(name, attrs, kids)),
                  Meaning(Grown(m.doc, TextNode(m.doc.pending) + [e]), false), FineAttrs(attrs) && Printable("", kids))
    decreases kids, 2
  {
    hide TextNode, Grown, Doc.Close, GoodName, NamedAttrs, WellNamed, FineAttrs, CanonicalAttrs;
    var stack := m.doc.Flush().stack;
    var begun := Meaning(Doc(stack + [Frame(name, [], [])], ""), true);
    var attributed := Meaning(Doc(stack + [Frame(name, CanonicalAttrs(attrs), [])], ""), true);
    LeadsOne(m, StartElement(name));
    AttrsLead(stack, name, attrs);
    LeadsConcat(m, [StartElement(name)], begun, AttrCalls(attrs), attributed, true, FineAttrs(attrs));
    var inner := NodesLead(attributed, kids);
    LeadsConcat(m, [StartElement(name)] + AttrCalls(attrs), attributed, CallsOf(kids), inner,
                FineAttrs(attrs), Printable("", kids));
    CloseGrows(m.doc, name, CanonicalAttrs(attrs), Canonical("", kids), inner.doc);
    LeadsOne(inner, EndElement);
    LeadsConcat(m, [StartElement(name)] + AttrCalls(attrs) + CallsOf(kids), inner,
                [EndElement], Apply(inner, EndElement), FineAttrs(attrs) && Printable("", kids), true);
  }

  /** From any state the calls of a forest add its canonical form to the innermost
      open element, counting the text that is already pending there. */
  lemma {:induction false} NodesLead(m: Meaning, nodes: seq<Node>) returns (after: Meaning)
    requires m.doc.Valid() && WellNamed(nodes)
    ensures Leads(m, CallsOf(nodes), after, Printable(m.doc.pending, nodes))
    ensures after.doc.Flush() == Grown(m.doc, Canonical(m.doc.pending, nodes))
    decreases nodes, 1
  {
    hide Doc.Open, Doc.Close, TextNode, Legal, HasSectionEnd, FineAttrs, NamedAttrs, GoodName, CanonicalAttrs;
    if nodes == [] {
      after := m;
    } else {
      var first: Meaning;
      var fine: bool;
      match nodes[0] {
        case Text(content) =>
          first := Apply(m, WriteText(content));
          LeadsOne(m, WriteText(content));
          fine := Conforms(m, WriteText(content));
        case Elem(name, attrs, kids) =>
          var e := Elem(name, CanonicalAttrs(attrs), Canonical("", kids));
          first := Meaning(Grown(m.doc, TextNode(m.doc.pending) + [e]), false);
          ElementLeads(m, name, attrs, kids);
          fine := FineAttrs(attrs) && Printable("", kids);
          GrownTwice(m.doc, TextNode(m.doc.pending) + [e], Canonical("", nodes[1..]));
      }
      after := NodesLead(first, nodes[1..]);
      LeadsConcat(m, NodeCalls(nodes[0]), first, CallsOf(nodes[1..]), after,
                  fine, Printable(first.doc.pending, nodes[1..]));
    }
  }

  /** The calls that print a forest describe its canonical form. */
  lemma ForestDescribed(nodes: seq<Node>)
    requires WellNamed(nodes)
    ensures WellNested(Meaning(EMPTY, false), CallsOf(nodes))
    ensures Described(CallsOf(nodes)) == Canonical("", nodes)
    ensures Conforming(Meaning(EMPTY, false), CallsOf(nodes)) <==> Printable("", nodes)
  {
    var after := NodesLead(Meaning(EMPTY, false), nodes);
    assert [] + Canonical("", nodes) == Canonical("", nodes);
  }

  // ----- Which forests are their own canonical form -----

  /** No attribute that is dropped, and only spaces for white space in values. */
  predicate NormalAttrs(attrs: seq<Attr>) {
    forall a <- attrs :: Kept(a) && Spaced(LineEnds(a.value)) == a.value
  }

  predicate NormalText(content: string) {
    content != "" && Trim(content) == content && LineEnds(content) == content
  }

  /** Texts are not empty, not next to each other, not surrounded by white space
      and without carriage returns; attributes are normal. */
  predicate Normal(nodes: seq<Node>, afterText: bool) {
    nodes == [] ||
    match nodes[0]
    case Text(content) => !afterText && NormalText(content) && Normal(nodes[1..], true)
    case Elem(_, attrs, kids) => NormalAttrs(attrs) && Normal(kids, false) && Normal(nodes[1..], false)
  }

  /** What changes in a text or a value that is not trimmed: in a text every
      carriage return, in a value also every tab and newline. */
  lemma {:induction false} UnchangedWhiteSpace(s: string)
    ensures LineEnds(s) == s <==> '\r' !in s
    ensures Spaced(LineEnds(s)) == s <==> '\r' !in s && '\n' !in s && '\t' !in s
  {
    LineEndsShort(s);
    if s != "" {
      UnchangedWhiteSpace(s[1..]);
      assert s == [s[0]] + s[1..];
    }
    SpacedUnchanged(s);
  }

  lemma {:induction false} LineEndsShort(s: string)
    ensures |LineEnds(s)| <= |s| && '\r' !in LineEnds(s)
  {
    if s != "" {
      LineEndsShort(s[1..]);
    }
  }

  lemma SpacedUnchanged(s: string)
    ensures Spaced(s) == s <==> '\r' !in s && '\n' !in s && '\t' !in s
    ensures forall c <- Spaced(s) :: c != '\r' && c != '\n' && c != '\t'
  {
    if '\r' !in s && '\n' !in s && '\t' !in s {
      assert forall i :: 0 <= i < |s| ==> s[i] in s;
    }
  }

  lemma TextFixed(content: string)
    ensures TextNode(content) == [Text(content)] <==> NormalText(content)
    ensures TextNode("") == []
  {
    if TextNode(content) == [Text(content)] {
      TrimLineEnds(Trim(content));
      TrimTwice(content);
    }
  }

  lemma {:induction false} CanonicalAttrsShort(attrs: seq<Attr>)
    ensures |CanonicalAttrs(attrs)| <= |attrs|
  {
    if attrs != [] {
      CanonicalAttrsShort(attrs[..|attrs| - 1]);
    }
  }

  lemma {:induction false} AttrsFixed(attrs: seq<Attr>)
    ensures CanonicalAttrs(attrs) == attrs <==> NormalAttrs(attrs)
  {
    hide Spaced, LineEnds;
    if attrs != [] {
      var init, last := attrs[..|attrs| - 1], attrs[|attrs| - 1];
      assert attrs == init + [last];
      CanonicalAttrsShort(init);
      AttrsFixed(init);
      if CanonicalAttrs(attrs) == attrs {
        assert CanonicalAttrs(init) == CanonicalAttrs(attrs)[..|init|];
        assert last == CanonicalAttrs(attrs)[|init|];
      }
    }
  }

  lemma {:induction false} CanonicalShort(pending: string, nodes: seq<Node>)
    ensures |Canonical(pending, nodes)| <= |nodes| + (if pending == "" then 0 else 1)
    decreases nodes
  {
    hide CanonicalAttrs;
    if nodes != [] {
      match nodes[0]
      case Text(content) => CanonicalShort(pending + content, nodes[1..]);
      case Elem(name, attrs, kids) => CanonicalShort("", nodes[1..]);
    }
  }

  /** An element and what follows it. */
  lemma {:induction false} ElementFixed(nodes: seq<Node>)
    requires nodes != [] && nodes[0].Elem?
    ensures Canonical("", nodes) == nodes <==> Normal(nodes, false)
    ensures Normal(nodes, true) == Normal(nodes, false)
    decreases nodes, 0
  {
    hide TextNode, CanonicalAttrs, NormalAttrs;
    var e := nodes[0];
    TextFixed("");
    AttrsFixed(e.attrs);
    CanonicalFixed(e.kids);
    CanonicalFixed(nodes[1..]);
    var e' := Elem(e.name, CanonicalAttrs(e.attrs), Canonical("", e.kids));
    assert Canonical("", nodes) == [e'] + Canonical("", nodes[1..]);
    assert nodes == [e] + nodes[1..];
  }

  /** Exactly the normal forests come back as they were. */
  lemma {:induction false} CanonicalFixed(nodes: seq<Node>)
    ensures Canonical("", nodes) == nodes <==> Normal(nodes, false)
    decreases nodes, 1
  {
    hide TextNode, CanonicalAttrs, NormalAttrs, NormalText;
    TextFixed("");
    if nodes != [] {
      if nodes[0].Elem? {
        ElementFixed(nodes);
      } else {
        TextFirstFixed(nodes);
      }
    }
  }

  lemma {:induction false} TextFirstFixed(nodes: seq<Node>)
    requires nodes != [] && nodes[0].Text?
    ensures Canonical("", nodes) == nodes <==> Normal(nodes, false)
    decreases nodes, 0
  {
    hide TextNode, CanonicalAttrs, NormalAttrs, NormalText;
    var content, rest := nodes[0].content, nodes[1..];
    assert "" + content == content && nodes == [nodes[0]] + rest;
    TextFixed(content);
    if rest == [] {
      assert Canonical("", nodes) == TextNode(content);
    } else if rest[0].Text? {
      CanonicalShort(content + rest[0].content, rest[1..]);
      assert Canonical("", nodes) == Canonical(content + rest[0].content, rest[1..]);
    } else {
      ElementFixed(rest);
      TextBeforeElement(content, rest);
    }
  }

  lemma TextBeforeElement(content: string, rest: seq<Node>)
    requires rest != [] && rest[0].Elem?
    ensures Canonical(content, rest) == TextNode(content) + Canonical("", rest)
    ensures TextNode(content) + Canonical("", rest) == [Text(content)] + rest
            <==> TextNode(content) == [Text(content)] && Canonical("", rest) == rest
  {
    hide CanonicalAttrs;
    TextFixed("");
    hide TextNode;
    var tail := Canonical("", rest);
    assert tail[0].Elem?;
    if TextNode(content) + tail == [Text(content)] + rest {
      assert (TextNode(content) + tail)[0] == Text(content);
      assert |TextNode(content)| == 1 by {
        TextNodeShort(content);
      }
      assert (TextNode(content) + tail)[1..] == tail && ([Text(content)] + rest)[1..] == rest;
    }
  }

  lemma TextNodeShort(content: string)
    ensures |TextNode(content)| <= 1
  {}

  // ----- The round trip -----

  /** Printing any forest whose names are names: the text is malformed exactly if
      XML forbids something in it, reads back as the canonical form otherwise, and
      gives back the very forest exactly if it is normal and printable. */
  method PrintForest(nodes: seq<Node>) returns (os: string)
    requires WellNamed(nodes)
    ensures Read(os) == if Printable("", nodes) then Some(Canonical("", nodes)) else None
    ensures Read(os) == Some(nodes) <==> Normal(nodes, false) && Printable("", nodes)
  {
    hide Canonical, Normal, Printable, Read;
    ForestDescribed(nodes);
    CanonicalFixed(nodes);
    var calls := CallsOf(nodes);
    os := Print(calls, seq(|calls|, _ => true));
  }

  /** Both ways to be malformed: a repeated attribute, and "]]>" in a text. */
  lemma NormalYetMalformed()
    ensures var repeated := [Elem("a", [Attr("k", "1"), Attr("k", "2")], [])];
            Normal(repeated, false) && !Printable("", repeated)
    ensures var sectionEnd := [Elem("a", [], [Text("]]>")])];
            Normal(sectionEnd, false) && !Printable("", sectionEnd)
  {
    hide NormalText, NormalAttrs, FineAttrs, HasSectionEnd;
    OneNameTwice();
    SectionEndText();
  }

  lemma OneNameTwice()
    ensures var attrs := [Attr("k", "1"), Attr("k", "2")]; NormalAttrs(attrs) && !FineAttrs(attrs)
  {
    var attrs := [Attr("k", "1"), Attr("k", "2")];
    assert attrs[0].name == attrs[1].name && Kept(attrs[0]) && Kept(attrs[1]);
  }

  lemma SectionEndText()
    ensures NormalText("]]>") && HasSectionEnd("" + "]]>") && NormalAttrs([])
  {
    assert "" + "]]>" == "]]>" && SectionEndAt("]]>", 0);
  }

  /** A newline in an attribute value is printed as it is and read as a space. */
  lemma NewlineInAttribute()
    ensures var nodes := [Elem("a", [Attr("k", "x\ny")], [])];
            && WellNamed(nodes) && Printable("", nodes)
            && Canonical("", nodes) == [Elem("a", [Attr("k", "x y")], [])] != nodes
  {
    var attrs := [Attr("k", "x\ny")];
    assert attrs[..0] == [];
    assert Spaced(LineEnds("x\ny")) == "x y";
    assert CanonicalAttrs(attrs) == [Attr("k", "x y")];
  }
}
