/** `XmlWriter`: whatever well-nested calls are made, reading the output back
    gives the document the calls describe. */
module XmlWriting {
  import opened Basics
  import opened Xml

  ghost function Scan(out: string): (r: Reader)
    ensures r.Valid()
  {
    Feed(Reader(Content(""), EMPTY), out)
  }

  lemma ScanMore(out: string, s: string)
    ensures Scan(out + s) == Feed(Scan(out), s)
  {
    FeedConcat(Reader(Content(""), EMPTY), out, s);
  }

  /** Nothing that is written later makes malformed output well formed. */
  lemma StaysMalformed(out: string, out': string)
    requires Scan(out) == Malformed && out <= out'
    ensures Scan(out') == Malformed
  {
    assert out' == out + out'[|out|..];
    ScanMore(out, out'[|out|..]);
    FeedMalformed(out'[|out|..]);
  }

  lemma FeedTwo(r: Reader, c: char, d: char)
    requires r.Valid()
    ensures Feed(r, [c, d]) == Step(Step(r, c), d)
  {
    FeedConcat(r, [c], [d]);
    FeedChar(r, c);
    FeedChar(Step(r, c), d);
    assert [c] + [d] == [c, d];
  }

  /** `raw` is escaped `text` after some white space. */
  ghost predicate Holds(raw: string, text: string) {
    var e := Encode(text);
    |e| <= |raw| && raw[|raw| - |e|..] == e && AllSpace(raw[..|raw| - |e|])
  }

  /** Where reading stands after `out`, when the calls so far describe `doc`. */
  ghost predicate Reads(out: string, tagIsOpen: bool, doc: Doc) {
    var r := Scan(out);
    && r.Reader? && doc.Valid()
    && if tagIsOpen then
         && doc.pending == ""
         && InStartTag(r, doc)
       else r.mode.Content? && r.doc.stack == doc.stack && Holds(r.mode.raw, doc.pending)
  }

  // ----- What each piece of output does to the reader -----

  lemma FlushTrims(stack: seq<Frame>, a: string, b: string, name: string)
    requires stack != [] && Trim(a) == Trim(b)
    ensures Doc(stack, a).Flush() == Doc(stack, b).Flush()
    ensures Doc(stack, a).Open(name) == Doc(stack, b).Open(name)
    ensures |stack| > 1 ==> Doc(stack, a).Close() == Doc(stack, b).Close()
  {}

  lemma FeedSpace(raw: string, doc: Doc, ws: string)
    requires doc.Valid() && !HasSectionEnd(raw) && AllSpace(ws)
    ensures !HasSectionEnd(raw + ws)
    ensures Feed(Reader(Content(raw), doc), ws) == Reader(Content(raw + ws), doc)
  {
    hide HasSectionEnd;
    assert '<' !in ws && Legal(ws);
    SectionEndBefore(raw, ws);
    FeedContent(raw, doc, ws);
  }

  /** A '<' after pending text and white space. */
  lemma AtTag(out: string, ws: string, doc: Doc, name: string)
    requires Reads(out, false, doc) && AllSpace(ws)
    ensures var r := Scan(out + ws + "<");
            && r.Reader? && r.mode == TagStart && r.doc.stack == doc.stack
            && r.doc.Open(name) == doc.Open(name)
            && (|doc.stack| > 1 ==> r.doc.Close() == doc.Close())
  {
    hide Scan, Feed;
    var r := Scan(out);
    var raw, e := r.mode.raw, Encode(doc.pending);
    var lead := raw[..|raw| - |e|];
    assert raw == lead + e;
    ScanMore(out, ws);
    FeedSpace(raw, r.doc, ws);
    ScanMore(out + ws, "<");
    FeedChar(Scan(out + ws), '<');
    assert raw + ws == lead + (e + ws);
    DecodeSpace(lead, e + ws);
    DecodeEncoded(doc.pending, ws);
    DecodeSpace(ws, "");
    assert ws + "" == ws;
    assert lead + (doc.pending + ws) == lead + doc.pending + ws;
    TrimAround(lead, doc.pending, ws);
    FlushTrims(doc.stack, lead + doc.pending + ws, doc.pending, name);
  }

  lemma HoldsNothing(raw: string)
    requires AllSpace(raw)
    ensures Holds(raw, "")
  {
    assert raw[|raw|..] == "" && raw[..|raw|] == raw;
  }

  /** The reader inside a start tag whose name and attributes so far make `doc`. */
  ghost predicate InStartTag(r: Reader, doc: Doc) {
    && r.Reader? && r.Valid() && doc.Valid()
    && if r.mode.StartName? then doc == r.doc.Open(r.mode.name) else r.mode == AfterValue && r.doc == doc
  }

  lemma StepInStartTag(r: Reader, doc: Doc)
    requires InStartTag(r, doc)
    ensures Step(r, '>') == Reader(Content(""), doc)
    ensures Step(r, '/') == Reader(Slash, doc)
    ensures Step(r, ' ') == Reader(BeforeAttr, doc)
  {
    hide Doc.Open;
  }

  lemma StepNewline(doc: Doc)
    requires doc.Valid()
    ensures Step(Reader(Content(""), doc), '\n') == Reader(Content("\n"), doc)
  {
    assert "" + ['\n'] == "\n";
  }

  lemma StepSlash(doc: Doc)
    requires |doc.stack| > 1
    ensures Step(Reader(Slash, doc), '>') == Reader(Content(""), doc.Close())
  {
    hide Doc.Close;
  }

  lemma ReadsCloseTag(out: string, doc: Doc)
    requires Reads(out, true, doc)
    ensures Reads(out + ">\n", false, doc)
  {
    hide Feed, Scan, Holds, Step, Doc.Open;
    ScanMore(out, ">\n");
    StepInStartTag(Scan(out), doc);
    FeedTwo(Scan(out), '>', '\n');
    StepNewline(doc);
    assert ['>', '\n'] == ">\n";
    HoldsNothing("\n");
  }

  lemma ReadsSpace(out: string, doc: Doc, ws: string)
    requires Reads(out, false, doc) && doc.pending == "" && AllSpace(ws)
    ensures Reads(out + ws, false, doc)
  {
    var r := Scan(out);
    ScanMore(out, ws);
    FeedSpace(r.mode.raw, r.doc, ws);
    assert r.mode.raw[..|r.mode.raw|] == r.mode.raw;
    HoldsNothing(r.mode.raw + ws);
  }

  lemma HoldsMore(raw: string, text: string, more: string)
    requires Holds(raw, text)
    ensures Holds(raw + Encode(more), text + more)
  {
    hide Encode;
    EncodeConcat(text, more);
    var n := |raw| - |Encode(text)|;
    assert (raw + Encode(more))[n..] == raw[n..] + Encode(more);
    assert (raw + Encode(more))[..n] == raw[..n];
  }

  lemma HeldSectionEnd(raw: string, text: string)
    requires Holds(raw, text)
    ensures HasSectionEnd(raw) <==> HasSectionEnd(text)
  {
    hide HasSectionEnd, Encode;
    var lead := raw[..|raw| - |Encode(text)|];
    assert raw == lead + Encode(text);
    SectionEndAfter(lead, Encode(text));
    SectionEndSurvives(text);
  }

  /** Text can be added unless it contains an illegal character or completes a "]]>". */
  lemma ReadsText(out: string, doc: Doc, text: string)
    requires Reads(out, false, doc)
    ensures if Legal(text) && !HasSectionEnd(doc.pending + text)
            then Reads(out + Encode(text), false, doc.AddText(text))
            else Scan(out + Encode(text)) == Malformed
  {
    hide Feed, Scan, Holds, Encode, HasSectionEnd, Legal;
    var r := Scan(out);
    EncodeIsInert(text);
    LegalEncoded(text);
    ScanMore(out, Encode(text));
    HoldsMore(r.mode.raw, doc.pending, text);
    HeldSectionEnd(r.mode.raw + Encode(text), doc.pending + text);
    FeedContent(r.mode.raw, r.doc, Encode(text));
  }

  lemma ReadsOpen(out: string, doc: Doc, ws: string, name: string)
    requires Reads(out, false, doc) && AllSpace(ws) && GoodName(name)
    ensures Reads(out + ws + "<" + name, true, doc.Open(name))
  {
    hide Feed, Scan, Holds, Doc.Open, HasSectionEnd, NameStartChar, NameChar;
    AtTag(out, ws, doc, name);
    var r := Scan(out + ws + "<");
    ScanMore(out + ws + "<", name);
    assert [name[0]] + name[1..] == name;
    NoNameChars();
    FeedConcat(r, [name[0]], name[1..]);
    FeedChar(r, name[0]);
    FeedNames([name[0]], r.doc, name[1..]);
  }

  lemma FeedAttrName(doc: Doc, name: string)
    requires doc.Valid() && GoodName(name)
    ensures Feed(Reader(BeforeAttr, doc), name + "=\"") == Reader(AttrValue(name, ""), doc)
  {
    hide Feed;
    var r := Reader(BeforeAttr, doc);
    NoNameChars();
    FeedConcat(r, name, "=\"");
    FeedConcat(r, [name[0]], name[1..]);
    FeedChar(r, name[0]);
    FeedNames([name[0]], doc, name[1..]);
    assert [name[0]] + name[1..] == name;
    FeedTwo(Reader(AttrName(name), doc), '=', '"');
    assert ['=', '"'] == "=\"";
  }

  lemma FeedAttrValue(doc: Doc, name: string, value: string)
    requires doc.Valid()
    ensures Feed(Reader(AttrValue(name, ""), doc), Encode(value) + "\"")
            == if Legal(value) && !doc.HasAttr(name)
               then Reader(AfterValue, doc.AddAttr(Attr(name, value))) else Malformed
  {
    hide Feed, Encode, Decode, Legal;
    var r := Reader(AttrValue(name, ""), doc);
    EncodeIsInert(value);
    LegalEncoded(value);
    FeedConcat(r, Encode(value), "\"");
    FeedValue(name, "", doc, Encode(value));
    assert "" + Encode(value) == Encode(value);
    FeedChar(Feed(r, Encode(value)), '"');
    EscapeRoundTrip(value);
  }

  /** An attribute can be added unless its name is taken or its value illegal. */
  lemma ReadsAttr(out: string, doc: Doc, name: string, value: string)
    requires Reads(out, true, doc) && GoodName(name)
    ensures var out' := out + " " + name + "=\"" + Encode(value) + "\"";
            if Legal(value) && !doc.HasAttr(name) then Reads(out', true, doc.AddAttr(Attr(name, value)))
            else Scan(out') == Malformed
  {
    hide Feed, Scan, Encode, Step, Legal, Doc.HasAttr, GoodName;
    StepInStartTag(Scan(out), doc);
    var lead, rest := " " + (name + "=\""), Encode(value) + "\"";
    ScanMore(out, lead + rest);
    FeedConcat(Scan(out), lead, rest);
    FeedConcat(Scan(out), " ", name + "=\"");
    FeedChar(Scan(out), ' ');
    FeedAttrName(doc, name);
    FeedAttrValue(doc, name, value);
    assert out + " " + name + "=\"" + Encode(value) + "\"" == out + (lead + rest);
  }

  lemma ReadsEmptyElement(out: string, doc: Doc)
    requires Reads(out, true, doc) && |doc.stack| > 1
    ensures Reads(out + "/>\n", false, doc.Close())
  {
    hide Feed, Scan, Holds, Step, Doc.Open, Doc.Close;
    ScanMore(out, "/>\n");
    var r := Scan(out);
    StepInStartTag(r, doc);
    assert "/>\n" == "/>" + "\n";
    FeedConcat(r, "/>", "\n");
    FeedTwo(r, '/', '>');
    StepSlash(doc);
    FeedChar(Reader(Content(""), doc.Close()), '\n');
    StepNewline(doc.Close());
    HoldsNothing("\n");
  }

  lemma FeedEndTag(doc: Doc, name: string)
    requires |doc.stack| > 1 && doc.Top().name == name && GoodName(name)
    ensures Feed(Reader(TagStart, doc), "/" + name + ">\n") == Reader(Content("\n"), doc.Close())
  {
    hide Feed, Doc.Close;
    var r := Reader(TagStart, doc);
    FeedConcat(r, "/" + name, ">\n");
    FeedConcat(r, "/", name);
    FeedChar(r, '/');
    FeedNames("", doc, name);
    assert "" + name == name;
    NoNameChars();
    FeedTwo(Reader(EndName(name), doc), '>', '\n');
    assert ['>', '\n'] == ">\n" && "" + ['\n'] == "\n" && ['/'] == "/";
  }

  lemma ReadsEndTag(out: string, doc: Doc, ws: string)
    requires Reads(out, false, doc) && |doc.stack| > 1 && AllSpace(ws) && GoodName(doc.Top().name)
    ensures Reads(out + ws + "<" + ("/" + doc.Top().name + ">\n"), false, doc.Close())
  {
    hide Feed, Scan, Encode;
    var name := doc.Top().name;
    AtTag(out, ws, doc, name);
    var r := Scan(out + ws + "<");
    ScanMore(out + ws + "<", "/" + name + ">\n");
    FeedEndTag(r.doc, name);
    HoldsNothing("\n");
  }

  lemma ReadsAll(out: string, doc: Doc)
    requires Reads(out, false, doc) && |doc.stack| == 1
    ensures Read(out) == Some(doc.Finish())
  {
    var r := Scan(out);
    var raw, e := r.mode.raw, Encode(doc.pending);
    var lead := raw[..|raw| - |e|];
    assert raw == lead + (e + "");
    DecodeSpace(lead, e + "");
    DecodeEncoded(doc.pending, "");
    assert doc.pending + "" == doc.pending;
    assert lead + doc.pending == lead + doc.pending + "";
    TrimAround(lead, doc.pending, "");
    FlushTrims(doc.stack, lead + doc.pending, doc.pending, "");
  }

  // ----- The calls -----

  datatype Call =
    | StartElement(name: string)
    | WriteAttribute(name: string, value: string)
    | WriteText(text: string)
    | EndElement

  /** What the calls made so far describe, and whether the start tag is still open. */
  datatype Meaning = Meaning(doc: Doc, tagIsOpen: bool)

  /** Well-nested use: attributes directly after their start tag, no end without a start. */
  predicate Allowed(m: Meaning, c: Call) {
    match c
    case StartElement(name) => GoodName(name)
    case WriteAttribute(name, value) => name == "" || value == "" || (m.tagIsOpen && GoodName(name))
    case WriteText(_) => true
    case EndElement => |m.doc.stack| > 1
  }

  function Apply(m: Meaning, c: Call): (m': Meaning)
    requires m.doc.Valid() && Allowed(m, c)
    ensures m'.doc.Valid()
  {
    match c
    case StartElement(name) => Meaning(m.doc.Open(name), true)
    case WriteAttribute(name, value) =>
      if name == "" || value == "" then m else Meaning(m.doc.AddAttr(Attr(name, value)), m.tagIsOpen)
    case WriteText(text) => Meaning(m.doc.AddText(text), m.tagIsOpen && text == "")
    case EndElement => Meaning(m.doc.Close(), false)
  }

  predicate WellNested(m: Meaning, calls: seq<Call>)
    requires m.doc.Valid()
    decreases calls
  {
    calls == [] || (Allowed(m, calls[0]) && WellNested(Apply(m, calls[0]), calls[1..]))
  }

  /** What XML forbids and the writer does not check: a repeated attribute name
      (section 3.1), a character no document may contain (section 2.2), and "]]>"
      in the text since the last tag (section 2.4), in however many pieces. */
  predicate Conforms(m: Meaning, c: Call)
    requires m.doc.Valid()
  {
    match c
    case WriteAttribute(name, value) => name == "" || value == "" || (!m.doc.HasAttr(name) && Legal(value))
    case WriteText(text) => text == "" || (Legal(text) && !HasSectionEnd(m.doc.pending + text))
    case _ => true
  }

  predicate Conforming(m: Meaning, calls: seq<Call>)
    requires m.doc.Valid() && WellNested(m, calls)
    decreases calls
  {
    calls == [] || (Conforms(m, calls[0]) && Conforming(Apply(m, calls[0]), calls[1..]))
  }

  function ApplyAll(m: Meaning, calls: seq<Call>): (m': Meaning)
    requires m.doc.Valid() && WellNested(m, calls)
    ensures m'.doc.Valid()
    decreases calls
  {
    if calls == [] then m else ApplyAll(Apply(m, calls[0]), calls[1..])
  }

  /** What the destructor adds: an end for every element still open. */
  function CloseAll(doc: Doc): (d: Doc)
    requires doc.Valid()
    ensures d.Valid() && |d.stack| == 1
    decreases |doc.stack|
  {
    if |doc.stack| == 1 then doc else CloseAll(doc.Close())
  }

  /** The forest of elements and texts that a sequence of calls describes. */
  function Described(calls: seq<Call>): seq<Node>
    requires WellNested(Meaning(EMPTY, false), calls)
  {
    CloseAll(ApplyAll(Meaning(EMPTY, false), calls).doc).Finish()
  }

  // ----- The writer -----

  class XmlWriter {
    var m_tagIsOpen: bool
    var m_needsNewline: bool
    var m_tags: seq<string>
    var m_indent: string
    var os: string
    ghost var doc: Doc
    ghost var sound: bool

    /** The indent is always two spaces for every open element, the tags are the
        names of the open elements, and the output so far reads as `doc` while the
        calls conform to what XML allows, and as malformed ever after. */
    ghost predicate Valid()
      reads this
    {
      && doc.Valid() && Names(doc, m_tags)
      && m_indent == Repeat(2 * |m_tags|, ' ')
      && (m_tagIsOpen ==> !m_needsNewline && m_tags != [])
      && Tells(sound, os, m_tagIsOpen, doc)
    }

    ghost function Meant(): Meaning
      reads this
    {
      Meaning(doc, m_tagIsOpen)
    }

    constructor ()
      ensures Valid() && os == "" && Meant() == Meaning(EMPTY, false) && sound
    {
      m_tagIsOpen, m_needsNewline, m_tags, m_indent, os := false, false, [], "", "";
      doc, sound := EMPTY, true;
      new;
      hide Tells, Names;
      NothingWritten();
    }

    method EnsureTagClosed()
      modifies this`os, this`m_tagIsOpen
      ensures !m_tagIsOpen && os == old(os) + (if old(m_tagIsOpen) then ">\n" else "")
    {
      assert os + "" == os;
      if m_tagIsOpen {
        os := os + ">\n";
        m_tagIsOpen := false;
      }
    }

    method NewlineIfNecessary()
      modifies this`os, this`m_needsNewline
      ensures !m_needsNewline && os == old(os) + (if old(m_needsNewline) then "\n" else "")
    {
      assert os + "" == os;
      if m_needsNewline {
        os := os + "\n";
        m_needsNewline := false;
      }
    }

    /** The loop copies everything up to the next special character and replaces that. */
    method WriteEncodedText(text: string)
      modifies this`os
      ensures os == old(os) + Encode(text)
    {
      hide Encode, EncodeChar;
      var mtext := text;
      var pos: nat := FirstSpecial(mtext);
      while pos < |mtext|
        invariant pos <= |mtext| && Plain(mtext[..pos]) && (pos < |mtext| ==> Special(mtext[pos]))
        invariant os + Encode(mtext) == old(os) + Encode(text)
        decreases |mtext|
      {
        EncodeSplit(mtext, pos);
        ghost var before, rest := os, EncodeChar(mtext[pos]) + Encode(mtext[pos + 1..]);
        assert before + Encode(mtext) == before + mtext[..pos] + rest;
        os := os + mtext[..pos];
        EncodedSpecial();
        match mtext[pos] {
          case '<' => os := os + "&lt;";
          case '&' => os := os + "&amp;";
          case _ => os := os + "&quot;";
        }
        mtext := mtext[pos + 1..];
        pos := FirstSpecial(mtext);
      }
      assert mtext[..pos] == mtext;
      EncodePlain(mtext);
      os := os + mtext;
    }

    method StartElement(name: string)
      requires Valid() && GoodName(name)
      modifies this
      ensures Valid() && Meant() == Apply(old(Meant()), Call.StartElement(name)) && sound == old(sound)
      ensures m_tags == old(m_tags) + [name] && m_tagIsOpen && !m_needsNewline
      ensures os == old(os) + (if old(m_tagIsOpen) then ">\n" else "") + (if old(m_needsNewline) then "\n" else "")
                    + Repeat(2 * old(|m_tags|), ' ') + "<" + name
    {
      hide Tells, Names, GoodName, Repeat, AllSpace, Doc.Open, Doc.Close, Doc.AddAttr, Doc.AddText;
      Indents(2 * |m_tags|);
      TagBegins(sound, os, m_tagIsOpen, doc, m_needsNewline, m_indent, name);
      NamesOpen(doc, m_tags, name);
      EnsureTagClosed();
      NewlineIfNecessary();
      os := os + m_indent + "<" + name;
      m_tags := m_tags + [name];
      m_indent := m_indent + "  ";
      m_tagIsOpen := true;
      doc := doc.Open(name);
    }

    method EndElement()
      requires Valid() && m_tags != []
      modifies this
      ensures Valid() && Meant() == Apply(old(Meant()), Call.EndElement) && sound == old(sound)
      ensures m_tags == old(m_tags)[..old(|m_tags|) - 1] && !m_tagIsOpen && !m_needsNewline
      ensures os == if old(m_tagIsOpen) then old(os) + "/>\n"
                    else old(os) + (if old(m_needsNewline) then "\n" else "")
                         + Repeat(2 * |m_tags|, ' ') + "</" + old(m_tags[|m_tags| - 1]) + ">\n"
    {
      hide Tells, Names, GoodName, Repeat, AllSpace, Doc.Open, Doc.Close, Doc.AddAttr, Doc.AddText;
      Indents(2 * |m_tags| - 2);
      NamesInnermost(doc, m_tags);
      NamesClose(doc, m_tags);
      TagEnds(sound, os, m_tagIsOpen, doc, m_needsNewline, m_indent[..|m_indent| - 2]);
      assert os + "" == os;
      NewlineIfNecessary();
      m_indent := m_indent[..|m_indent| - 2];
      if m_tagIsOpen {
        os := os + "/>\n";
        m_tagIsOpen := false;
      } else {
        os := os + m_indent + "</" + m_tags[|m_tags| - 1] + ">\n";
      }
      m_tags := m_tags[..|m_tags| - 1];
      doc := doc.Close();
    }

    method WriteAttribute(name: string, attribute: string)
      requires Valid()
      requires Allowed(Meant(), Call.WriteAttribute(name, attribute))
      modifies this
      ensures Valid() && Meant() == Apply(old(Meant()), Call.WriteAttribute(name, attribute))
      ensures sound == (old(sound) && Conforms(old(Meant()), Call.WriteAttribute(name, attribute)))
      ensures m_tags == old(m_tags) && m_needsNewline == old(m_needsNewline)
      ensures os == if name == "" || attribute == "" then old(os)
                    else old(os) + " " + name + "=\"" + Encode(attribute) + "\""
    {
      hide Tells, Names, GoodName, Legal, Encode, Doc.Open, Doc.Close, Doc.AddAttr, Doc.AddText, Doc.HasAttr;
      if name != "" && attribute != "" {
        AttrAdds(sound, os, doc, name, attribute);
        NamesAdd(doc, m_tags, Attr(name, attribute), "");
        os := os + " " + name + "=\"";
        WriteEncodedText(attribute);
        os := os + "\"";
        sound := sound && Conforms(Meant(), Call.WriteAttribute(name, attribute));
        doc := doc.AddAttr(Attr(name, attribute));
      }
    }

    method WriteText(text: string, indent: bool)
      requires Valid()
      modifies this
      ensures Valid() && Meant() == Apply(old(Meant()), Call.WriteText(text))
      ensures sound == (old(sound) && Conforms(old(Meant()), Call.WriteText(text)))
      ensures m_tags == old(m_tags) && m_needsNewline == (old(m_needsNewline) || text != "")
      ensures os == if text == "" then old(os)
                    else old(os) + (if old(m_tagIsOpen) then ">\n" else "")
                         + (if old(m_tagIsOpen) && indent then Repeat(2 * |m_tags|, ' ') else "") + Encode(text)
    {
      hide Tells, Names, Legal, HasSectionEnd, Encode, Repeat, Doc.Open, Doc.Close, Doc.AddAttr;
      Indents(2 * |m_tags|);
      if text != "" {
        TextAdds(sound, os, m_tagIsOpen, doc, if indent then m_indent else "", text);
        var tagWasOpen := m_tagIsOpen;
        EnsureTagClosed();
        assert os + "" == os;
        if tagWasOpen && indent {
          os := os + m_indent;
        }
        WriteEncodedText(text);
        m_needsNewline := true;
        sound := sound && Conforms(Meant(), Call.WriteText(text));
      }
      assert doc.pending + "" == doc.pending;
      NamesAdd(doc, m_tags, Attr("", ""), text);
      doc := doc.AddText(text);
    }

    /** The destructor ends every element that is still open. */
    method Destroy()
      requires Valid()
      modifies this
      ensures Read(os) == if old(sound) then Some(CloseAll(old(doc)).Finish()) else None
    {
      hide Tells, Read, Doc.Close;
      NamesInnermost(doc, m_tags);
      while m_tags != []
        invariant Valid() && CloseAll(doc) == CloseAll(old(doc)) && sound == old(sound)
        decreases |m_tags|
      {
        EndElement();
      }
      NamesInnermost(doc, m_tags);
      TellsAll(sound, os, doc);
    }
  }

  lemma EncodedSpecial()
    ensures EncodeChar('<') == "&lt;" && EncodeChar('&') == "&amp;" && EncodeChar('"') == "&quot;"
  {}

  /** What the output tells: `doc` while the calls were sound, and nothing after that. */
  ghost predicate Tells(sound: bool, out: string, tagIsOpen: bool, doc: Doc) {
    if sound then Reads(out, tagIsOpen, doc) else Scan(out) == Malformed
  }

  lemma TagBegins(sound: bool, out: string, tagIsOpen: bool, doc: Doc, newline: bool, indent: string, name: string)
    requires Tells(sound, out, tagIsOpen, doc) && doc.Valid() && GoodName(name) && AllSpace(indent)
    ensures Tells(sound, out + (if tagIsOpen then ">\n" else "") + (if newline then "\n" else "") + indent + "<" + name,
                  true, doc.Open(name))
  {
    hide Reads, Scan, GoodName, Doc.Open;
    var closed, ws := out + (if tagIsOpen then ">\n" else ""), (if newline then "\n" else "") + indent;
    var out' := out + (if tagIsOpen then ">\n" else "") + (if newline then "\n" else "") + indent + "<" + name;
    assert out' == closed + ws + "<" + name;
    if sound {
      assert out + "" == out;
      if tagIsOpen {
        ReadsCloseTag(out, doc);
      }
      ReadsOpen(closed, doc, ws, name);
    } else {
      StaysMalformed(out, out');
    }
  }

  lemma TagEnds(sound: bool, out: string, tagIsOpen: bool, doc: Doc, newline: bool, indent: string)
    requires Tells(sound, out, tagIsOpen, doc)
    requires |doc.stack| > 1 && GoodName(doc.Top().name) && AllSpace(indent)
    ensures Tells(sound, if tagIsOpen then out + "/>\n"
                         else out + (if newline then "\n" else "") + indent + "</" + doc.Top().name + ">\n",
                  false, doc.Close())
  {
    hide Reads, Scan, Doc.Close;
    var ws := (if newline then "\n" else "") + indent;
    var out' := if tagIsOpen then out + "/>\n"
                else out + (if newline then "\n" else "") + indent + "</" + doc.Top().name + ">\n";
    if !sound {
      StaysMalformed(out, out');
    } else if tagIsOpen {
      ReadsEmptyElement(out, doc);
    } else {
      ReadsEndTag(out, doc, ws);
      assert out' == out + ws + "<" + ("/" + doc.Top().name + ">\n");
    }
  }

  lemma AttrAdds(sound: bool, out: string, doc: Doc, name: string, value: string)
    requires Tells(sound, out, true, doc) && doc.Valid() && GoodName(name)
    ensures Tells(sound && !doc.HasAttr(name) && Legal(value),
                  out + " " + name + "=\"" + Encode(value) + "\"", true, doc.AddAttr(Attr(name, value)))
  {
    hide Reads, Scan, GoodName, Encode, Legal, Doc.AddAttr, Doc.HasAttr;
    if sound {
      ReadsAttr(out, doc, name, value);
    } else {
      StaysMalformed(out, out + " " + name + "=\"" + Encode(value) + "\"");
    }
  }

  /** A text closes the start tag it follows, and indents only then. */
  lemma TextAdds(sound: bool, out: string, tagIsOpen: bool, doc: Doc, indent: string, text: string)
    requires Tells(sound, out, tagIsOpen, doc) && doc.Valid() && AllSpace(indent)
    ensures Tells(sound && Legal(text) && !HasSectionEnd(doc.pending + text),
                  out + (if tagIsOpen then ">\n" else "") + (if tagIsOpen then indent else "") + Encode(text),
                  false, doc.AddText(text))
  {
    hide Scan, Encode, Legal, HasSectionEnd, Holds, InStartTag;
    var begun := out + (if tagIsOpen then ">\n" else "") + (if tagIsOpen then indent else "");
    if sound {
      assert out + "" + "" == out;
      if tagIsOpen {
        ReadsCloseTag(out, doc);
        ReadsSpace(out + ">\n", doc, indent);
      }
      ReadsText(begun, doc, text);
    } else {
      StaysMalformed(out, begun + Encode(text));
    }
  }

  lemma TellsAll(sound: bool, out: string, doc: Doc)
    requires Tells(sound, out, false, doc) && |doc.stack| == 1
    ensures Read(out) == if sound then Some(doc.Finish()) else None
  {
    if sound {
      ReadsAll(out, doc);
    }
  }

  lemma Indents(n: nat)
    ensures AllSpace(Repeat(n, ' '))
    ensures Repeat(n, ' ') + "  " == Repeat(n + 2, ' ') && Repeat(n + 2, ' ')[..n] == Repeat(n, ' ')
  {}

  lemma NothingWritten()
    ensures EMPTY.Valid() && Tells(true, "", false, EMPTY) && Names(EMPTY, []) && Repeat(0, ' ') == ""
  {
    HoldsNothing("");
  }

  // ----- The names of the open elements -----

  ghost predicate Names(doc: Doc, tags: seq<string>) {
    && |doc.stack| == |tags| + 1
    && forall i {:trigger tags[i]} :: 0 <= i < |tags| ==> doc.stack[i + 1].name == tags[i] && GoodName(tags[i])
  }

  lemma NamesInnermost(doc: Doc, tags: seq<string>)
    requires Names(doc, tags)
    ensures |doc.stack| == |tags| + 1
    ensures tags != [] ==> doc.Top().name == tags[|tags| - 1] && GoodName(doc.Top().name)
  {}

  lemma NamesOpen(doc: Doc, tags: seq<string>, name: string)
    requires Names(doc, tags) && GoodName(name)
    ensures Names(doc.Open(name), tags + [name])
  {
    hide GoodName;
  }

  lemma NamesClose(doc: Doc, tags: seq<string>)
    requires Names(doc, tags) && tags != []
    ensures Names(doc.Close(), tags[..|tags| - 1])
  {
    hide GoodName;
  }

  lemma NamesAdd(doc: Doc, tags: seq<string>, a: Attr, text: string)
    requires Names(doc, tags)
    ensures Names(doc.AddAttr(a), tags) && Names(doc.AddText(text), tags)
  {
    hide GoodName;
  }

  // ----- Finding the characters to escape -----

  predicate Special(c: char) {
    c == '<' || c == '&' || c == '"'
  }

  predicate Plain(s: string) {
    forall c <- s :: !Special(c)
  }

  /** find_first_of; the length stands for npos. */
  method FirstSpecial(s: string) returns (pos: nat)
    ensures pos <= |s| && Plain(s[..pos]) && (pos < |s| ==> Special(s[pos]))
  {
    pos := 0;
    while pos < |s| && !Special(s[pos])
      invariant pos <= |s| && Plain(s[..pos])
    {
      pos := pos + 1;
    }
  }

  lemma {:induction false} EncodePlain(s: string)
    requires Plain(s)
    ensures Encode(s) == s
  {
    if s != "" {
      assert s[0] in s;
      EncodePlain(s[1..]);
    }
  }

  lemma EncodeSplit(s: string, pos: nat)
    requires pos < |s| && Plain(s[..pos])
    ensures Encode(s) == s[..pos] + (EncodeChar(s[pos]) + Encode(s[pos + 1..]))
  {
    hide Encode, EncodeChar;
    EncodeConcat(s[..pos], s[pos..]);
    assert s[..pos] + s[pos..] == s;
    EncodePlain(s[..pos]);
    hide Plain;
    EncodeHead(s[pos..]);
    assert s[pos..][1..] == s[pos + 1..];
  }

  // ----- The round trip -----

  /** Any well-nested calls, closed by the destructor, print a text that reads
      back as exactly what the calls describe if they conform to what XML allows,
      and is malformed otherwise. `indents` are the last arguments of the
      writeText calls and make no difference. */
  method Print(calls: seq<Call>, indents: seq<bool>) returns (os: string)
    requires WellNested(Meaning(EMPTY, false), calls) && |indents| == |calls|
    ensures Read(os) == if Conforming(Meaning(EMPTY, false), calls) then Some(Described(calls)) else None
    ensures ReadDocument(os).Some? <==>
              Conforming(Meaning(EMPTY, false), calls) && OneElement(Described(calls))
  {
    hide Tells, Read, Apply, Repeat, CloseAll, Names, Legal, HasSectionEnd, Doc.HasAttr,
         Doc.Open, Doc.Close, Doc.AddAttr, Doc.AddText, Doc.Flush, Doc.Finish;
    var writer := new XmlWriter();
    ghost var start := Meaning(EMPTY, false);
    for n := 0 to |calls|
      invariant fresh(writer) && writer.Valid()
      invariant WellNested(writer.Meant(), calls[n..])
      invariant ApplyAll(writer.Meant(), calls[n..]) == ApplyAll(start, calls)
      invariant writer.sound && Conforming(writer.Meant(), calls[n..]) <==> Conforming(start, calls)
    {
      assert calls[n..][1..] == calls[n + 1..];
      match calls[n] {
        case StartElement(name) => writer.StartElement(name);
        case WriteAttribute(name, value) => writer.WriteAttribute(name, value);
        case WriteText(text) => writer.WriteText(text, indents[n]);
        case EndElement =>
          NamesInnermost(writer.doc, writer.m_tags);
          writer.EndElement();
      }
    }
    writer.Destroy();
    os := writer.os;
  }

  // ----- Calls that print malformed text -----

  /** Neither text contains "]]>", but together they do. */
  lemma SectionEndInPieces()
    ensures var calls := [StartElement("a"), WriteText("]]"), WriteText(">")];
            && WellNested(Meaning(EMPTY, false), calls)
            && !Conforming(Meaning(EMPTY, false), calls)
            && !HasSectionEnd("]]") && !HasSectionEnd(">")
  {
    var calls := [StartElement("a"), WriteText("]]"), WriteText(">")];
    assert calls[1..] == [WriteText("]]"), WriteText(">")] && calls[1..][1..] == [WriteText(">")];
    assert EMPTY.Open("a").pending + "]]" == "]]" && "]]" + ">" == "]]>" && SectionEndAt("]]>", 0);
  }

  lemma RepeatedAttribute()
    ensures var calls := [StartElement("a"), WriteAttribute("k", "1"), WriteAttribute("k", "2")];
            WellNested(Meaning(EMPTY, false), calls) && !Conforming(Meaning(EMPTY, false), calls)
  {
    var calls := [StartElement("a"), WriteAttribute("k", "1"), WriteAttribute("k", "2")];
    var k, k' := WriteAttribute("k", "1"), WriteAttribute("k", "2");
    assert calls[1..] == [k, k'] && calls[1..][1..] == [k'];
    var doc := EMPTY.Open("a").AddAttr(Attr("k", "1"));
    assert doc.Top().attrs[0].name == "k" && doc.HasAttr("k");
  }
}
