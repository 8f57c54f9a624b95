/** XML documents as trees, the escaping of text, and a streaming reader for the
    part of XML 1.0 that the writer produces (tags, attributes, character data;
    sections 2.1 to 2.4, 2.11, 3.1, 3.3.3 and 4.6 of the recommendation). What it
    accepts is well-formed content; what those sections forbid is malformed. */
module Xml {
  import opened Basics

  datatype Attr = Attr(name: string, value: string)

  datatype Node = Elem(name: string, attrs: seq<Attr>, kids: seq<Node>) | Text(content: string)

  // ----- Building a document -----

  function TextNode(text: string): seq<Node> {
    if Trim(text) == "" then [] else [Text(LineEnds(Trim(text)))]
  }

  datatype Frame = Frame(name: string, attrs: seq<Attr>, kids: seq<Node>)

  /** The open elements, outermost first below a frame for the document itself,
      and the text met since the last tag. */
  datatype Doc = Doc(stack: seq<Frame>, pending: string) {

    predicate Valid() {
      stack != []
    }

    function Top(): Frame
      requires Valid()
    {
      stack[|stack| - 1]
    }

    function SetTop(f: Frame): (d: Doc)
      requires Valid()
      ensures d.Valid() && |d.stack| == |stack|
    {
      Doc(stack[..|stack| - 1] + [f], pending)
    }

    /** Text counts up to surrounding white space, and not at all if there is nothing
        else; every line end in it counts as one newline. */
    function Flush(): (d: Doc)
      requires Valid()
      ensures d.Valid() && |d.stack| == |stack|
    {
      SetTop(Top().(kids := Top().kids + TextNode(pending))).(pending := "")
    }

    function Open(name: string): (d: Doc)
      requires Valid()
      ensures d.Valid() && |d.stack| == |stack| + 1 && d.pending == ""
    {
      Doc(Flush().stack + [Frame(name, [], [])], "")
    }

    /** The innermost element already has an attribute of this name. */
    predicate HasAttr(name: string)
      requires Valid()
    {
      exists a <- Top().attrs :: a.name == name
    }

    /** White space in an attribute value counts as spaces. */
    function AddAttr(a: Attr): (d: Doc)
      requires Valid()
      ensures d.Valid() && |d.stack| == |stack|
    {
      SetTop(Top().(attrs := Top().attrs + [Attr(a.name, Spaced(LineEnds(a.value)))]))
    }

    function AddText(text: string): (d: Doc)
      requires Valid()
      ensures d.Valid()
    {
      Doc(stack, pending + text)
    }

    function Close(): (d: Doc)
      requires |stack| > 1
      ensures d.Valid() && |d.stack| == |stack| - 1 && d.pending == ""
    {
      var f := Flush().Top();
      var outer := Doc(Flush().stack[..|stack| - 1], "");
      outer.SetTop(outer.Top().(kids := outer.Top().kids + [Elem(f.name, f.attrs, f.kids)]))
    }

    function Finish(): seq<Node>
      requires Valid()
    {
      Flush().Top().kids
    }
  }

  const EMPTY := Doc([Frame("", [], [])], "")

  // ----- White space -----

  predicate Space(c: char) {
    c == ' ' || c == '\n' || c == '\t' || c == '\r'
  }

  predicate AllSpace(s: string) {
    forall c <- s :: Space(c)
  }

  /** A carriage return is read as a newline, with the newline after it if there
      is one (section 2.11). */
  function LineEnds(s: string): string {
    if s == "" then ""
    else if s[0] != '\r' then [s[0]] + LineEnds(s[1..])
    else if |s| > 1 && s[1] == '\n' then LineEnds(s[1..])
    else "\n" + LineEnds(s[1..])
  }

  /** What reading an attribute value does to white space in it (section 3.3.3). */
  function Spaced(s: string): string {
    seq(|s|, i requires 0 <= i < |s| => if Space(s[i]) then ' ' else s[i])
  }

  function TrimLeft(s: string): string {
    if s != "" && Space(s[0]) then TrimLeft(s[1..]) else s
  }

  function TrimRight(s: string): string {
    if s != "" && Space(s[|s| - 1]) then TrimRight(s[..|s| - 1]) else s
  }

  function Trim(s: string): string {
    TrimRight(TrimLeft(s))
  }

  lemma {:induction false} TrimLeftLead(lead: string, s: string)
    requires AllSpace(lead)
    ensures TrimLeft(lead + s) == TrimLeft(s)
  {
    if lead == "" {
      assert lead + s == s;
    } else {
      assert (lead + s)[1..] == lead[1..] + s;
      TrimLeftLead(lead[1..], s);
    }
  }

  lemma {:induction false} TrimRightTrail(s: string, trail: string)
    requires AllSpace(trail)
    ensures TrimRight(s + trail) == TrimRight(s)
  {
    if trail == "" {
      assert s + trail == s;
    } else {
      assert (s + trail)[..|s + trail| - 1] == s + trail[..|trail| - 1];
      TrimRightTrail(s, trail[..|trail| - 1]);
    }
  }

  lemma {:induction false} TrimLeftTrail(s: string, trail: string)
    requires AllSpace(trail)
    ensures TrimLeft(s + trail) == TrimLeft(s) + trail || (TrimLeft(s) == "" && AllSpace(TrimLeft(s + trail)))
  {
    if s == "" {
      assert s + trail == trail;
      TrimLeftSuffix(trail);
    } else if Space(s[0]) {
      assert (s + trail)[1..] == s[1..] + trail;
      TrimLeftTrail(s[1..], trail);
    }
  }

  lemma {:induction false} TrimLeftSuffix(s: string)
    requires AllSpace(s)
    ensures TrimLeft(s) == ""
  {
    if s != "" {
      TrimLeftSuffix(s[1..]);
    }
  }

  lemma {:induction false} TrimRightAll(s: string)
    requires AllSpace(s)
    ensures TrimRight(s) == ""
  {
    if s != "" {
      TrimRightAll(s[..|s| - 1]);
    }
  }

  /** White space around a text does not show. */
  lemma TrimAround(lead: string, s: string, trail: string)
    requires AllSpace(lead) && AllSpace(trail)
    ensures Trim(lead + s + trail) == Trim(s)
  {
    assert lead + s + trail == lead + (s + trail);
    TrimLeftLead(lead, s + trail);
    TrimLeftTrail(s, trail);
    if TrimLeft(s + trail) == TrimLeft(s) + trail {
      TrimRightTrail(TrimLeft(s), trail);
    } else {
      TrimRightAll(TrimLeft(s + trail));
    }
  }

  lemma {:induction false} LineEndsSnoc(s: string, c: char)
    ensures LineEnds(s + [c]) == if c == '\n' && s != "" && s[|s| - 1] == '\r' then LineEnds(s)
                                 else LineEnds(s) + [if c == '\r' then '\n' else c]
  {
    if s == "" {
      assert s + [c] == [c] && [c][1..] == "";
    } else {
      assert (s + [c])[1..] == s[1..] + [c];
      LineEndsSnoc(s[1..], c);
    }
  }

  lemma {:induction false} TrimLeftLineEnds(s: string)
    ensures TrimLeft(LineEnds(s)) == LineEnds(TrimLeft(s))
  {
    if s != "" {
      TrimLeftLineEnds(s[1..]);
      assert ([s[0]] + LineEnds(s[1..]))[1..] == LineEnds(s[1..]);
      assert ("\n" + LineEnds(s[1..]))[1..] == LineEnds(s[1..]);
    }
  }

  lemma {:induction false} TrimRightLineEnds(s: string)
    ensures TrimRight(LineEnds(s)) == LineEnds(TrimRight(s))
  {
    if s != "" {
      var init, last := s[..|s| - 1], s[|s| - 1];
      assert s == init + [last];
      LineEndsSnoc(init, last);
      TrimRightLineEnds(init);
      if Space(last) {
        TrimRightTrail(LineEnds(init), [if last == '\r' then '\n' else last]);
      } else {
        assert (LineEnds(init) + [last])[|LineEnds(init)|] == last;
      }
    }
  }

  /** It makes no difference whether line ends are read before or after trimming. */
  lemma TrimLineEnds(s: string)
    ensures Trim(LineEnds(s)) == LineEnds(Trim(s))
  {
    TrimLeftLineEnds(s);
    TrimRightLineEnds(TrimLeft(s));
  }

  lemma {:induction false} TrimLeftTwice(s: string)
    ensures TrimLeft(TrimLeft(s)) == TrimLeft(s)
    ensures TrimLeft(s) == "" || !Space(TrimLeft(s)[0])
  {
    if s != "" {
      TrimLeftTwice(s[1..]);
    }
  }

  lemma {:induction false} TrimRightTwice(s: string)
    ensures TrimRight(TrimRight(s)) == TrimRight(s)
    ensures TrimRight(s) != "" ==> TrimRight(s)[0] == s[0]
  {
    if s != "" {
      TrimRightTwice(s[..|s| - 1]);
    }
  }

  lemma TrimTwice(s: string)
    ensures Trim(Trim(s)) == Trim(s)
  {
    TrimLeftTwice(s);
    TrimRightTwice(TrimLeft(s));
  }

  // ----- Escaping -----

  function EncodeChar(c: char): string {
    if c == '<' then "&lt;" else if c == '&' then "&amp;" else if c == '"' then "&quot;" else [c]
  }

  function Encode(s: string): string {
    if s == "" then "" else EncodeChar(s[0]) + Encode(s[1..])
  }

  /** The predefined entities; any other reference is an error. */
  function Entity(s: string): Option<(char, nat)> {
    if "&lt;" <= s then Some(('<', 4))
    else if "&gt;" <= s then Some(('>', 4))
    else if "&amp;" <= s then Some(('&', 5))
    else if "&apos;" <= s then Some(('\'', 6))
    else if "&quot;" <= s then Some(('"', 6))
    else None
  }

  function Decode(s: string): Option<string> {
    if s == "" then Some("")
    else if s[0] == '&' then
      match Entity(s)
      case None => None
      case Some((c, n)) => Prepend([c], Decode(s[n..]))
    else Prepend([s[0]], Decode(s[1..]))
  }

  function Prepend(s: string, rest: Option<string>): Option<string> {
    if rest.Some? then Some(s + rest.value) else None
  }

  lemma PrependNothing(rest: Option<string>)
    ensures Prepend("", rest) == rest
  {
    if rest.Some? {
      assert "" + rest.value == rest.value;
    }
  }

  lemma PrependPrepend(s: string, t: string, rest: Option<string>)
    ensures Prepend(s, Prepend(t, rest)) == Prepend(s + t, rest)
  {
    if rest.Some? {
      assert s + (t + rest.value) == s + t + rest.value;
    }
  }

  lemma DecodeOne(c: char, rest: string)
    ensures Decode(EncodeChar(c) + rest) == Prepend([c], Decode(rest))
  {
    var s := EncodeChar(c) + rest;
    assert s[|EncodeChar(c)|..] == rest;
    if c == '<' {
      assert s[..4] == "&lt;";
    } else if c == '&' {
      assert s[..5] == "&amp;" && s[1] == 'a' && s[2] == 'm';
    } else if c == '"' {
      assert s[..6] == "&quot;" && s[1] == 'q';
    }
    assert Entity(s) == if c == '<' then Some((c, 4)) else if c == '&' then Some((c, 5))
                        else if c == '"' then Some((c, 6)) else Entity(s);
  }

  lemma {:induction false} DecodeEncoded(s: string, rest: string)
    ensures Decode(Encode(s) + rest) == Prepend(s, Decode(rest))
  {
    hide Decode, Prepend, EncodeChar;
    if s == "" {
      assert Encode(s) + rest == rest;
      PrependNothing(Decode(rest));
    } else {
      assert Encode(s) + rest == EncodeChar(s[0]) + (Encode(s[1..]) + rest);
      DecodeOne(s[0], Encode(s[1..]) + rest);
      DecodeEncoded(s[1..], rest);
      PrependPrepend([s[0]], s[1..], Decode(rest));
      assert [s[0]] + s[1..] == s;
    }
  }

  lemma {:induction false} DecodeSpace(lead: string, rest: string)
    requires AllSpace(lead)
    ensures Decode(lead + rest) == Prepend(lead, Decode(rest))
  {
    if lead == "" {
      assert lead + rest == rest;
      PrependNothing(Decode(rest));
    } else {
      assert (lead + rest)[1..] == lead[1..] + rest;
      assert lead[0] in lead && (lead + rest)[0] == lead[0];
      DecodeSpace(lead[1..], rest);
      PrependPrepend([lead[0]], lead[1..], Decode(rest));
      assert [lead[0]] + lead[1..] == lead;
    }
  }

  /** Escaping is undone exactly by decoding. */
  lemma EscapeRoundTrip(s: string)
    ensures Decode(Encode(s)) == Some(s)
  {
    DecodeEncoded(s, "");
    assert Encode(s) + "" == Encode(s);
    assert s + "" == s;
  }

  /** Escaped text can neither open a tag nor end an attribute value. */
  lemma {:induction false} EncodeIsInert(s: string)
    ensures '<' !in Encode(s) && '"' !in Encode(s)
  {
    if s != "" {
      EncodeIsInert(s[1..]);
    }
  }

  lemma {:induction false} EncodeConcat(s: string, t: string)
    ensures Encode(s + t) == Encode(s) + Encode(t)
  {
    if s == "" {
      assert s + t == t;
    } else {
      assert (s + t)[1..] == s[1..] + t;
      EncodeConcat(s[1..], t);
    }
  }

  // ----- What the escaping leaves alone -----

  /** The characters a document may contain at all (section 2.2). */
  predicate XmlChar(c: char) {
    c == '\t' || c == '\n' || c == '\r' || (' ' <= c && c != '\U{FFFE}' && c != '\U{FFFF}')
  }

  predicate Legal(s: string) {
    forall c <- s :: XmlChar(c)
  }

  /** The two classes of characters by their numbers. */
  lemma CharacterNumbers(c: char)
    ensures Space(c) <==> c as int == 9 || c as int == 10 || c as int == 13 || c as int == 32
    ensures XmlChar(c) <==>
              || c as int == 9 || c as int == 10 || c as int == 13 || 0x20 <= c as int <= 0xD7FF
              || 0xE000 <= c as int <= 0xFFFD || 0x1_0000 <= c as int <= 0x10_FFFF
  {}

  lemma {:induction false} LegalEncoded(s: string)
    ensures Legal(Encode(s)) <==> Legal(s)
  {
    if s != "" {
      LegalEncoded(s[1..]);
      assert s == [s[0]] + s[1..];
      hide Encode;
      EncodeHead(s);
      assert Legal(EncodeChar(s[0])) <==> XmlChar(s[0]) by {
        assert s[0] == '<' || s[0] == '&' || s[0] == '"' || s[0] in EncodeChar(s[0]);
      }
      hide EncodeChar, XmlChar;
    }
  }

  predicate SectionEndAt(s: string, i: nat) {
    i + 2 < |s| && s[i] == ']' && s[i + 1] == ']' && s[i + 2] == '>'
  }

  /** "]]>" may not occur in character data (section 2.4). */
  predicate HasSectionEnd(s: string) {
    exists i: nat :: i < |s| && SectionEndAt(s, i)
  }

  lemma SectionEndFirst(s: string)
    requires s != ""
    ensures HasSectionEnd(s) <==> SectionEndAt(s, 0) || HasSectionEnd(s[1..])
  {
    if i: nat :| i < |s| && SectionEndAt(s, i) {
      assert i > 0 ==> SectionEndAt(s[1..], i - 1);
    }
    if i: nat :| i < |s[1..]| && SectionEndAt(s[1..], i) {
      assert SectionEndAt(s, i + 1);
    }
  }

  lemma SectionEndGrows(s: string, more: string)
    requires HasSectionEnd(s)
    ensures HasSectionEnd(s + more)
  {
    var i: nat :| i < |s| && SectionEndAt(s, i);
    assert SectionEndAt(s + more, i);
  }

  lemma {:induction false} SectionEndAfter(lead: string, s: string)
    requires ']' !in lead
    ensures HasSectionEnd(lead + s) <==> HasSectionEnd(s)
  {
    hide HasSectionEnd;
    if lead == "" {
      assert lead + s == s;
    } else {
      assert lead[0] in lead;
      SectionEndFirst(lead + s);
      assert (lead + s)[1..] == lead[1..] + s;
      SectionEndAfter(lead[1..], s);
    }
  }

  lemma SectionEndBefore(s: string, trail: string)
    requires AllSpace(trail)
    ensures HasSectionEnd(s + trail) <==> HasSectionEnd(s)
  {
    var t := s + trail;
    forall i: nat | i < |t| && SectionEndAt(t, i)
      ensures HasSectionEnd(s)
    {
      assert t[i + 2] !in trail;
      assert i + 2 < |s| && SectionEndAt(s, i);
    }
    if HasSectionEnd(s) {
      SectionEndGrows(s, trail);
    }
  }

  lemma EncodeHead(s: string)
    requires s != ""
    ensures Encode(s) == EncodeChar(s[0]) + Encode(s[1..])
    ensures EncodeChar(s[0]) == [s[0]]
            || (EncodeChar(s[0]) != "" && EncodeChar(s[0])[0] == '&' && ']' !in EncodeChar(s[0]))
    ensures s[0] == ']' || s[0] == '>' ==> EncodeChar(s[0]) == [s[0]]
  {}

  /** A text and its escaped form agree on a beginning made of these two characters. */
  lemma {:induction false} EncodeKeepsPrefix(s: string, w: string)
    requires forall c <- w :: c == ']' || c == '>'
    ensures w <= Encode(s) <==> w <= s
    decreases |w|
  {
    if w != "" && s != "" {
      hide Encode, EncodeChar;
      assert w[0] in w && forall c <- w[1..] :: c in w;
      EncodeKeepsPrefix(s[1..], w[1..]);
      EncodeHead(s);
      PrefixHead(w, s);
      PrefixHead(w, Encode(s));
      if EncodeChar(s[0]) == [s[0]] {
        assert Encode(s)[1..] == Encode(s[1..]);
      }
    }
  }

  lemma PrefixHead(w: string, s: string)
    requires w != "" && s != ""
    ensures w <= s <==> w[0] == s[0] && w[1..] <= s[1..]
  {
    assert w == [w[0]] + w[1..] && s == [s[0]] + s[1..];
  }

  lemma SectionEndPrefix(s: string)
    ensures SectionEndAt(s, 0) <==> "]]>" <= s
  {}

  /** Escaped text is legal character data exactly when the text itself contains
      no "]]>": the writer does not escape it. */
  lemma {:induction false} SectionEndSurvives(s: string)
    ensures HasSectionEnd(Encode(s)) <==> HasSectionEnd(s)
  {
    if s != "" {
      hide Encode, EncodeChar, HasSectionEnd, SectionEndAt;
      SectionEndSurvives(s[1..]);
      EncodeHead(s);
      SectionEndFirst(s);
      EncodeKeepsPrefix(s, "]]>");
      SectionEndPrefix(s);
      SectionEndPrefix(Encode(s));
      if EncodeChar(s[0]) == [s[0]] {
        SectionEndFirst(Encode(s));
        assert Encode(s)[1..] == Encode(s[1..]);
      } else {
        SectionEndAfter(EncodeChar(s[0]), Encode(s[1..]));
        assert !("]]>" <= Encode(s)) by {
          assert Encode(s)[0] == '&';
        }
      }
    }
  }

  // ----- Reading -----

  datatype Mode =
    | Content(raw: string)
    | TagStart
    | StartName(name: string)
    | BeforeAttr
    | AttrName(name: string)
    | AttrEq(name: string)
    | AttrValue(name: string, raw: string)
    | AfterValue
    | Slash
    | EndName(name: string)

  datatype Reader = Reader(mode: Mode, doc: Doc) | Malformed {
    predicate Valid() {
      Reader? ==> doc.Valid() && (mode.Content? ==> !HasSectionEnd(mode.raw))
    }
  }

  /** The characters a name may begin with (section 2.3). */
  predicate NameStartChar(c: char) {
    || 'a' <= c <= 'z' || 'A' <= c <= 'Z' || c == '_' || c == ':'
    || '\U{C0}' <= c <= '\U{D6}' || '\U{D8}' <= c <= '\U{F6}' || '\U{F8}' <= c <= '\U{2FF}'
    || '\U{370}' <= c <= '\U{37D}' || '\U{37F}' <= c <= '\U{1FFF}' || '\U{200C}' <= c <= '\U{200D}'
    || '\U{2070}' <= c <= '\U{218F}' || '\U{2C00}' <= c <= '\U{2FEF}' || '\U{3001}' <= c <= '\U{D7FF}'
    || '\U{F900}' <= c <= '\U{FDCF}' || '\U{FDF0}' <= c <= '\U{FFFD}' || '\U{10000}' <= c <= '\U{EFFFF}'
  }

  predicate NameChar(c: char) {
    || NameStartChar(c) || '0' <= c <= '9' || c == '-' || c == '.'
    || c == '\U{B7}' || '\U{300}' <= c <= '\U{36F}' || '\U{203F}' <= c <= '\U{2040}'
  }

  predicate GoodName(s: string) {
    s != "" && NameStartChar(s[0]) && forall c <- s :: NameChar(c)
  }

  lemma NoNameChars()
    ensures forall c <- " />=\"" :: !NameChar(c) && !NameStartChar(c)
  {}

  function StepContent(raw: string, doc: Doc, c: char): Reader {
    if c == '<' then
      match Decode(raw)
      case Some(text) => Reader(TagStart, doc.(pending := text))
      case None => Malformed
    else if XmlChar(c) && !HasSectionEnd(raw + [c]) then Reader(Content(raw + [c]), doc)
    else Malformed
  }

  function StepStartName(name: string, doc: Doc, c: char): Reader
    requires doc.Valid()
  {
    if NameChar(c) then Reader(StartName(name + [c]), doc)
    else if c == ' ' then Reader(BeforeAttr, doc.Open(name))
    else if c == '>' then Reader(Content(""), doc.Open(name))
    else if c == '/' then Reader(Slash, doc.Open(name))
    else Malformed
  }

  /** No attribute name may appear twice in one start tag (section 3.1). */
  function StepAttrValue(name: string, raw: string, doc: Doc, c: char): Reader
    requires doc.Valid()
  {
    if c == '"' then
      match Decode(raw)
      case Some(value) => if doc.HasAttr(name) then Malformed else Reader(AfterValue, doc.AddAttr(Attr(name, value)))
      case None => Malformed
    else if XmlChar(c) && c != '<' then Reader(AttrValue(name, raw + [c]), doc)
    else Malformed
  }

  /** An end tag must name the innermost open element. */
  function StepEndName(name: string, doc: Doc, c: char): Reader
    requires doc.Valid()
  {
    if NameChar(c) then Reader(EndName(name + [c]), doc)
    else if c == '>' && |doc.stack| > 1 && doc.Top().name == name then Reader(Content(""), doc.Close())
    else Malformed
  }

  function Step(r: Reader, c: char): (r': Reader)
    requires r.Valid()
    ensures r'.Valid()
  {
    if r.Malformed? then Malformed
    else match r.mode
      case Content(raw) => StepContent(raw, r.doc, c)
      case TagStart =>
        if c == '/' then Reader(EndName(""), r.doc)
        else if NameStartChar(c) then Reader(StartName([c]), r.doc)
        else Malformed
      case StartName(name) => StepStartName(name, r.doc, c)
      case BeforeAttr =>
        if c == ' ' then r else if NameStartChar(c) then Reader(AttrName([c]), r.doc) else Malformed
      case AttrName(name) =>
        if NameChar(c) then Reader(AttrName(name + [c]), r.doc)
        else if c == '=' then Reader(AttrEq(name), r.doc)
        else Malformed
      case AttrEq(name) => if c == '"' then Reader(AttrValue(name, ""), r.doc) else Malformed
      case AttrValue(name, raw) => StepAttrValue(name, raw, r.doc, c)
      case AfterValue =>
        if c == ' ' then Reader(BeforeAttr, r.doc)
        else if c == '>' then Reader(Content(""), r.doc)
        else if c == '/' then Reader(Slash, r.doc)
        else Malformed
      case Slash =>
        if c == '>' && |r.doc.stack| > 1 then Reader(Content(""), r.doc.Close()) else Malformed
      case EndName(name) => StepEndName(name, r.doc, c)
  }

  function Feed(r: Reader, s: string): (r': Reader)
    requires r.Valid()
    ensures r'.Valid()
    decreases s
  {
    if s == "" then r else Feed(Step(r, s[0]), s[1..])
  }

  /** The document a text stands for, if it is well formed and everything is closed. */
  function Read(text: string): Option<seq<Node>> {
    match Feed(Reader(Content(""), EMPTY), text)
    case Malformed => None
    case Reader(mode, doc) =>
      if mode.Content? && |doc.stack| == 1 && Decode(mode.raw).Some?
      then Some(doc.(pending := Decode(mode.raw).value).Finish())
      else None
  }

  /** One element and no text beside it. */
  predicate OneElement(nodes: seq<Node>) {
    |nodes| == 1 && nodes[0].Elem?
  }

  /** The root element of a text that is a whole document (section 2.1): well-formed
      content with one element at top level and nothing but white space around it. */
  function ReadDocument(text: string): Option<Node> {
    var nodes := Read(text);
    if nodes.Some? && OneElement(nodes.value) then Some(nodes.value[0]) else None
  }

  lemma {:induction false} FeedConcat(r: Reader, s: string, t: string)
    requires r.Valid()
    ensures Feed(r, s + t) == Feed(Feed(r, s), t)
    decreases s
  {
    if s == "" {
      assert s + t == t;
    } else {
      assert (s + t)[1..] == s[1..] + t;
      FeedConcat(Step(r, s[0]), s[1..], t);
    }
  }

  lemma FeedChar(r: Reader, c: char)
    requires r.Valid()
    ensures Feed(r, [c]) == Step(r, c)
  {
    assert [c][1..] == "";
  }

  lemma {:induction false} FeedMalformed(s: string)
    ensures Feed(Malformed, s) == Malformed
    decreases s
  {
    if s != "" {
      FeedMalformed(s[1..]);
    }
  }

  lemma {:induction false} FeedContent(raw: string, doc: Doc, s: string)
    requires doc.Valid() && '<' !in s && !HasSectionEnd(raw)
    ensures Feed(Reader(Content(raw), doc), s)
            == if Legal(s) && !HasSectionEnd(raw + s) then Reader(Content(raw + s), doc) else Malformed
    decreases s
  {
    hide HasSectionEnd, XmlChar;
    if s == "" {
      assert raw + s == raw;
    } else {
      var raw' := raw + [s[0]];
      assert raw' + s[1..] == raw + s;
      assert s == [s[0]] + s[1..];
      FeedMalformed(s[1..]);
      if HasSectionEnd(raw') {
        SectionEndGrows(raw', s[1..]);
      } else {
        FeedContent(raw', doc, s[1..]);
      }
    }
  }

  lemma {:induction false} FeedValue(name: string, raw: string, doc: Doc, s: string)
    requires doc.Valid() && '<' !in s && '"' !in s
    ensures Feed(Reader(AttrValue(name, raw), doc), s)
            == if Legal(s) then Reader(AttrValue(name, raw + s), doc) else Malformed
    decreases s
  {
    hide XmlChar;
    if s == "" {
      assert raw + s == raw;
    } else {
      assert s == [s[0]] + s[1..];
      FeedMalformed(s[1..]);
      FeedValue(name, raw + [s[0]], doc, s[1..]);
      assert raw + [s[0]] + s[1..] == raw + s;
    }
  }

  lemma {:induction false} FeedNames(name: string, doc: Doc, s: string)
    requires doc.Valid() && forall c <- s :: NameChar(c)
    ensures Feed(Reader(StartName(name), doc), s) == Reader(StartName(name + s), doc)
    ensures Feed(Reader(AttrName(name), doc), s) == Reader(AttrName(name + s), doc)
    ensures Feed(Reader(EndName(name), doc), s) == Reader(EndName(name + s), doc)
    decreases s
  {
    if s == "" {
      assert name + s == name;
    } else {
      FeedNames(name + [s[0]], doc, s[1..]);
      assert name + [s[0]] + s[1..] == name + s;
    }
  }
}
