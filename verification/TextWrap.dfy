/** `Tbc::Text`: wrapping a text without tabs into lines of a given width. */
module TextWrap {
  import opened Basics

  /** What separates a line from the next in the original text, or the hyphen
      that was put in because nothing did. */
  datatype Break = Nothing | Hyphen | SpaceDropped | NewlineDropped

  datatype Piece = Piece(text: string, brk: Break) {
    /** The part of the original text that this piece accounts for. */
    function Original(): string {
      match brk
      case SpaceDropped => text + " "
      case NewlineDropped => text + "\n"
      case _ => text
    }

    function Line(indent: nat): string {
      if brk == Hyphen then Repeat(indent, ' ') + text + "-" else Repeat(indent, ' ') + text
    }
  }

  datatype Attributes = Attributes(initialIndent: Option<nat>, indent: nat, width: nat) {
    function IndentOf(line: nat): nat {
      if line == 0 && initialIndent.Some? then initialIndent.value else indent
    }

    function Usable(line: nat): nat {
      if IndentOf(line) <= width then width - IndentOf(line) else 0
    }

    /** At least `columns` columns are left beside either indent. */
    predicate Leaves(columns: nat) {
      IndentOf(0) + columns <= width && indent + columns <= width
    }
  }

  const WRAPPABLE := " [({.,/|\\-"
  const MAX_LINES := 1000
  const NOTICE := "... message truncated due to excessive size"

  function Rebuild(pieces: seq<Piece>): string {
    if pieces == [] then "" else Rebuild(pieces[..|pieces| - 1]) + pieces[|pieces| - 1].Original()
  }

  // ----- Where a line must end -----

  /** The first newline is at `p`. */
  predicate NewlineAt(rest: string, p: nat) {
    p < |rest| && rest[p] == '\n' && '\n' !in rest[..p]
  }

  /** The last place to wrap a line of at most `width` columns, not at its start. */
  predicate WrapAt(rest: string, width: nat, k: nat) {
    && 0 < k <= width < |rest| && rest[k] in WRAPPABLE
    && forall j :: k < j <= width ==> rest[j] !in WRAPPABLE
  }

  /** The next line of `rest`, given `width` usable columns: up to a newline that
      is near enough, else all of it if it fits, else to the last place to wrap,
      else with a hyphen. A newline that ends the whole text after a line of two
      or more characters is kept for a line of its own. */
  predicate Fits(rest: string, width: nat, piece: Piece) {
    var p := |piece.text|;
    && piece.text <= rest
    && if p <= width && NewlineAt(rest, p) then
         piece.brk == if p > 1 && |rest| == p + 1 then Nothing else NewlineDropped
       else
         && (forall q :: 0 <= q <= width && q < |rest| ==> rest[q] != '\n')
         && if |rest| <= width then p == |rest| && piece.brk == Nothing
            else if WrapAt(rest, width, p) then piece.brk == if rest[p] == ' ' then SpaceDropped else Nothing
            else (forall j :: 0 < j <= width ==> rest[j] !in WRAPPABLE) && p == width - 1 && piece.brk == Hyphen
  }

  /** Each piece is the next line of what the pieces before it leave. */
  ghost predicate Wraps(attr: Attributes, text: string, pieces: seq<Piece>) {
    && Rebuild(pieces) <= text
    && (pieces == [] ||
        var init, last := pieces[..|pieces| - 1], pieces[|pieces| - 1];
        && Wraps(attr, text, init) && |Rebuild(init)| < |text|
        && Fits(text[|Rebuild(init)|..], attr.Usable(|init|), last))
  }

  lemma RebuildOne(pieces: seq<Piece>, piece: Piece)
    ensures Rebuild(pieces + [piece]) == Rebuild(pieces) + piece.Original()
  {
    assert (pieces + [piece])[..|pieces|] == pieces;
  }

  /** A piece is no wider than its line, hyphen included, and is taken from the text. */
  lemma FitsWidth(rest: string, width: nat, piece: Piece)
    requires width > 0 && Fits(rest, width, piece)
    ensures |piece.Line(0)| <= width
    ensures piece.Original() <= rest
    ensures width > 1 && rest != "" ==> piece.Original() != ""
  {
    var p := |piece.text|;
    if piece.brk == SpaceDropped || piece.brk == NewlineDropped {
      assert rest[..p + 1] == piece.text + [rest[p]];
      assert piece.Original() == rest[..p + 1];
    }
  }

  /** At every point there is only one way to go on. */
  lemma FitsUnique(rest: string, width: nat, a: Piece, b: Piece)
    requires width > 0 && rest != "" && Fits(rest, width, a) && Fits(rest, width, b)
    ensures a == b
  {
    var p, q := |a.text|, |b.text|;
    assert a.text == rest[..p] && b.text == rest[..q];
    if NewlineAt(rest, p) && NewlineAt(rest, q) {
      NewlineUnique(rest, p, q);
    }
  }

  lemma NewlineUnique(rest: string, p: nat, q: nat)
    requires NewlineAt(rest, p) && NewlineAt(rest, q)
    ensures p == q
  {}

  lemma WrapsOne(attr: Attributes, text: string, pieces: seq<Piece>, rest: string, piece: Piece, rest': string)
    requires Wraps(attr, text, pieces) && text == Rebuild(pieces) + rest && rest != ""
    requires Fits(rest, attr.Usable(|pieces|), piece) && rest == piece.Original() + rest'
    ensures Wraps(attr, text, pieces + [piece])
    ensures text == Rebuild(pieces + [piece]) + rest'
  {
    hide Fits, Wraps, Rebuild, Piece.Original, Attributes.Usable;
    RebuildOne(pieces, piece);
    assert text[|Rebuild(pieces)|..] == rest;
    assert text == Rebuild(pieces) + piece.Original() + rest';
    WrapsSnoc(attr, text, pieces, piece);
  }

  lemma WrapsSnoc(attr: Attributes, text: string, pieces: seq<Piece>, piece: Piece)
    requires Wraps(attr, text, pieces) && |Rebuild(pieces)| < |text|
    requires Fits(text[|Rebuild(pieces)|..], attr.Usable(|pieces|), piece)
    requires Rebuild(pieces + [piece]) <= text
    ensures Wraps(attr, text, pieces + [piece])
  {
    hide Fits, Rebuild;
    assert (pieces + [piece])[..|pieces|] == pieces;
  }

  // ----- The four ways a line ends

  lemma TakesAll(rest: string, width: nat)
    requires |rest| <= width && '\n' !in rest
    ensures Fits(rest, width, Piece(rest, Nothing))
  {}

  lemma TakesToNewline(rest: string, width: nat, p: nat)
    requires p <= width && NewlineAt(rest, p)
    ensures var kept := p > 1 && |rest| == p + 1;
            var piece := Piece(rest[..p], if kept then Nothing else NewlineDropped);
            && Fits(rest, width, piece)
            && rest == piece.Original() + (if kept then rest[p..] else rest[p..][1..])
  {
    assert rest == rest[..p] + rest[p..] && rest[p..] == "\n" + rest[p..][1..];
  }

  predicate NoNewline(rest: string, width: nat) {
    forall q :: 0 <= q <= width && q < |rest| ==> rest[q] != '\n'
  }

  lemma TakesToWrap(rest: string, width: nat, k: nat)
    requires NoNewline(rest, width) && WrapAt(rest, width, k)
    ensures Fits(rest, width, Piece(rest[..k], if rest[k] == ' ' then SpaceDropped else Nothing))
  {}

  lemma WrapLeaves(rest: string, k: nat)
    requires k < |rest|
    ensures var spaced := rest[k] == ' ';
            var piece := Piece(rest[..k], if spaced then SpaceDropped else Nothing);
            rest == piece.Original() + (if spaced then rest[k..][1..] else rest[k..])
  {
    assert rest == rest[..k] + rest[k..] && rest[k..] == [rest[k]] + rest[k..][1..];
  }

  lemma TakesHyphen(rest: string, width: nat)
    requires 0 < width < |rest| && NoNewline(rest, width)
    requires forall j :: 0 < j <= width ==> rest[j] !in WRAPPABLE
    ensures Fits(rest, width, Piece(rest[..width - 1], Hyphen))
    ensures rest == rest[..width - 1] + rest[width - 1..]
  {}

  // ----- The wrapping loop -----

  method FindFirstOf(s: string, c: char) returns (pos: Option<nat>)
    ensures pos.None? ==> c !in s
    ensures pos.Some? ==> pos.value < |s| && s[pos.value] == c && c !in s[..pos.value]
  {
    for i := 0 to |s|
      invariant c !in s[..i]
    {
      if s[i] == c {
        return Some(i);
      }
    }
    pos := None;
  }

  /** find_last_of, looking at positions up to `from`. */
  method FindLastOf(s: string, chars: string, from: nat) returns (pos: Option<nat>)
    requires from < |s|
    ensures pos.None? ==> forall j :: 0 <= j <= from ==> s[j] !in chars
    ensures pos.Some? ==> pos.value <= from && s[pos.value] in chars
                          && forall j :: pos.value < j <= from ==> s[j] !in chars
  {
    var i := from + 1;
    while i > 0
      invariant 0 <= i <= from + 1
      invariant forall j :: i <= j <= from ==> s[j] !in chars
    {
      i := i - 1;
      if s[i] in chars {
        return Some(i);
      }
    }
    pos := None;
  }

  /** What the wrapped text is: the lines of the pieces, each behind its indent. */
  ghost predicate Laid(attr: Attributes, lines: seq<string>, pieces: seq<Piece>) {
    && |lines| == |pieces|
    && forall i {:trigger lines[i]} :: 0 <= i < |lines| ==>
         lines[i] == pieces[i].Line(attr.IndentOf(i)) && |lines[i]| <= attr.width
  }

  /** The lines lay out pieces that rebuild the text exactly; only when more
      than 1000 lines would be needed are they cut off there, with a notice. */
  ghost predicate Wrapped(attr: Attributes, text: string, lines: seq<string>, pieces: seq<Piece>) {
    && Wraps(attr, text, pieces)
    && if |lines| <= MAX_LINES then Rebuild(pieces) == text && Laid(attr, lines, pieces)
       else |lines| == MAX_LINES + 1 && lines[MAX_LINES] == NOTICE
            && Rebuild(pieces) < text && Laid(attr, lines[..MAX_LINES], pieces)
  }

  class Text {
    var lines: seq<string>

    constructor ()
      ensures lines == []
    {
      lines := [];
    }

    /** Moves the first `pos` characters of the remainder to a line of their own. */
    method SpliceLine(indent: nat, remainder: string, pos: nat) returns (remainder': string)
      requires pos <= |remainder|
      modifies this
      ensures lines == old(lines) + [Repeat(indent, ' ') + remainder[..pos]]
      ensures remainder' == remainder[pos..]
    {
      lines := lines + [Repeat(indent, ' ') + remainder[..pos]];
      remainder' := remainder[pos..];
    }

    method AddHyphen()
      requires lines != []
      modifies this
      ensures lines == old(lines[..|lines| - 1]) + [old(lines[|lines| - 1]) + "-"]
    {
      lines := lines[|lines| - 1 := lines[|lines| - 1] + "-"];
    }

    /** One round of the loop: takes the next line off the remainder. */
    method NextLine(attr: Attributes, indent: nat, rest: string) returns (remainder: string, ghost piece: Piece)
      requires rest != "" && indent < attr.width
      modifies this
      ensures Fits(rest, attr.width - indent, piece)
      ensures lines == old(lines) + [piece.Line(indent)]
      ensures rest == piece.Original() + remainder
    {
      hide Repeat, Fits;
      remainder := rest;
      var width := if |remainder| <= attr.width - indent then |remainder| else attr.width - indent;
      var pos := FindFirstOf(remainder, '\n');
      if pos.Some? && pos.value <= width {
        width := pos.value;
      }
      if width == |remainder| {
        TakesAll(rest, attr.width - indent);
        piece := Piece(rest, Nothing);
        assert rest[..width] == rest;
        remainder := SpliceLine(indent, remainder, width);
      } else if remainder[width] == '\n' {
        TakesToNewline(rest, attr.width - indent, width);
        piece := Piece(rest[..width], if width > 1 && |rest| == width + 1 then Nothing else NewlineDropped);
        remainder := SpliceLine(indent, remainder, width);
        if width <= 1 || |remainder| != 1 {
          remainder := remainder[1..];
        }
      } else {
        remainder, piece := BreakLine(indent, rest, width);
      }
    }

    /** A line that is too long: to the last place to wrap, or with a hyphen. */
    method BreakLine(indent: nat, rest: string, width: nat) returns (remainder: string, ghost piece: Piece)
      requires 0 < width < |rest| && NoNewline(rest, width)
      modifies this
      ensures Fits(rest, width, piece)
      ensures lines == old(lines) + [piece.Line(indent)]
      ensures rest == piece.Original() + remainder
    {
      hide Repeat, Fits, NoNewline;
      var pos := FindLastOf(rest, WRAPPABLE, width);
      if pos.Some? && pos.value > 0 {
        TakesToWrap(rest, width, pos.value);
        WrapLeaves(rest, pos.value);
        piece := Piece(rest[..pos.value], if rest[pos.value] == ' ' then SpaceDropped else Nothing);
        remainder := SpliceLine(indent, rest, pos.value);
        if remainder[0] == ' ' {
          remainder := remainder[1..];
        }
      } else {
        TakesHyphen(rest, width);
        piece := Piece(rest[..width - 1], Hyphen);
        remainder := SpliceLine(indent, rest, width - 1);
        AddHyphen();
      }
    }

    /** The constructor's loop, for a text without tabs. */
    method Wrap(str: string, attr: Attributes) returns (ghost pieces: seq<Piece>)
      requires lines == []
      requires attr.Leaves(1) && '\t' !in str
      modifies this
      ensures Wrapped(attr, str, lines, pieces)
    {
      hide Fits, Wraps, Rebuild, Laid;
      var indent := attr.IndentOf(0);
      var remainder := str;
      pieces := [];
      NothingWrapped(attr, str);
      while remainder != ""
        invariant |lines| == |pieces| <= MAX_LINES && indent == attr.IndentOf(|lines|)
        invariant Wraps(attr, str, pieces) && Laid(attr, lines, pieces)
        invariant str == Rebuild(pieces) + remainder
        decreases MAX_LINES + 1 - |lines|
      {
        if |lines| >= MAX_LINES {
          assert lines == (lines + [NOTICE])[..MAX_LINES];
          lines := lines + [NOTICE];
          return;
        }
        ghost var piece;
        ghost var rest := remainder;
        ghost var before := lines;
        remainder, piece := NextLine(attr, indent, remainder);
        FitsWidth(rest, attr.width - indent, piece);
        WrapsOne(attr, str, pieces, rest, piece, remainder);
        LaidOne(attr, before, pieces, piece);
        pieces := pieces + [piece];
        indent := attr.indent;
      }
      assert Rebuild(pieces) + "" == Rebuild(pieces);
    }
  }

  lemma NothingWrapped(attr: Attributes, text: string)
    ensures Wraps(attr, text, []) && Laid(attr, [], []) && Rebuild([]) == "" && "" + text == text
  {}

  lemma LaidOne(attr: Attributes, lines: seq<string>, pieces: seq<Piece>, piece: Piece)
    requires Laid(attr, lines, pieces)
    requires attr.IndentOf(|lines|) + |piece.Line(0)| <= attr.width
    ensures Laid(attr, lines + [piece.Line(attr.IndentOf(|lines|))], pieces + [piece])
  {}

  // ----- Consequences -----

  /** Where a line may end: at a space or one of nine other characters. */
  lemma WrapPlaces(c: char)
    ensures c in WRAPPABLE <==>
              || c == ' ' || c == '[' || c == '(' || c == '{' || c == '.'
              || c == ',' || c == '/' || c == '|' || c == '\\' || c == '-'
  {}

  /** A line that is broken ends as late as it can: no later place to wrap is in
      reach, and a hyphen means that there is none at all. A newline in reach ends
      the line instead, and is kept for the next one only if it ends the text after
      two characters or more. */
  lemma LineIsLongest(rest: string, width: nat, piece: Piece, p: nat)
    requires 0 < width && Fits(rest, width, piece)
    ensures p <= width && p < |rest| && rest[p] == '\n' && '\n' !in rest[..p] ==>
              && piece.text == rest[..p]
              && (piece.brk == Nothing <==> p > 1 && |rest| == p + 1)
    ensures |rest| <= width && '\n' !in rest ==> piece.text == rest
    ensures |rest| > width && '\n' !in rest[..width + 1] ==>
              && (forall j :: |piece.text| < j <= width ==> rest[j] !in WRAPPABLE)
              && (piece.brk == Hyphen <==> forall j :: 0 < j <= width ==> rest[j] !in WRAPPABLE)
              && (piece.brk == Hyphen ==> |piece.text| == width - 1)
  {
    if p <= width && p < |rest| && rest[p] == '\n' && '\n' !in rest[..p] {
      assert NewlineAt(rest, p);
      if |piece.text| <= width && NewlineAt(rest, |piece.text|) {
        NewlineUnique(rest, p, |piece.text|);
      }
    }
    assert |rest| > width ==> forall q :: 0 <= q <= width ==> rest[q] == rest[..width + 1][q];
  }

  /** What a line looks like: its indent, the text of its piece, and a hyphen if
      the text goes on without a break. */
  lemma LineShows(attr: Attributes, lines: seq<string>, pieces: seq<Piece>, i: nat)
    requires Laid(attr, lines, pieces) && i < |lines|
    ensures var n := if i == 0 && attr.initialIndent.Some? then attr.initialIndent.value else attr.indent;
            var spaces := lines[i][..|lines[i]| - |pieces[i].text| - (if pieces[i].brk == Hyphen then 1 else 0)];
            && |lines[i]| == n + |pieces[i].text| + (if pieces[i].brk == Hyphen then 1 else 0) <= attr.width
            && |spaces| == n && (forall c <- spaces :: c == ' ')
            && lines[i][n..n + |pieces[i].text|] == pieces[i].text
            && (pieces[i].brk == Hyphen ==> lines[i][|lines[i]| - 1] == '-')
  {}

  lemma WrapsParts(attr: Attributes, text: string, pieces: seq<Piece>)
    requires Wraps(attr, text, pieces) && pieces != []
    ensures var init, last := pieces[..|pieces| - 1], pieces[|pieces| - 1];
            && Wraps(attr, text, init) && |Rebuild(init)| < |text|
            && Fits(text[|Rebuild(init)|..], attr.Usable(|init|), last)
  {}

  /** There is one way to wrap a text: of two wrappings one continues the other. */
  lemma {:induction false} WrapsUnique(attr: Attributes, text: string, a: seq<Piece>, b: seq<Piece>)
    requires attr.Leaves(1) && Wraps(attr, text, a) && Wraps(attr, text, b)
    requires |a| <= |b|
    ensures a == b[..|a|]
    decreases |a| + |b|
  {
    hide Fits, Wraps, Rebuild;
    if |a| < |b| {
      WrapsParts(attr, text, b);
      WrapsUnique(attr, text, a, b[..|b| - 1]);
    } else if a != [] {
      var n := |a| - 1;
      WrapsParts(attr, text, a);
      WrapsParts(attr, text, b);
      WrapsUnique(attr, text, a[..n], b[..n]);
      assert b[..n][..n] == b[..n];
      FitsUnique(text[|Rebuild(a[..n])|..], attr.Usable(n), a[n], b[n]);
      assert a == a[..n] + [a[n]] && b == b[..n] + [b[n]];
    }
  }

  /** With two usable columns every line takes at least one character, so a text
      of at most 1000 characters is never cut off. */
  lemma {:induction false} EveryLineProgresses(attr: Attributes, text: string, pieces: seq<Piece>)
    requires attr.Leaves(2) && Wraps(attr, text, pieces)
    ensures |pieces| <= |Rebuild(pieces)|
    decreases |pieces|
  {
    hide Fits, Wraps, Rebuild;
    if pieces != [] {
      var n := |pieces| - 1;
      WrapsParts(attr, text, pieces);
      assert pieces == pieces[..n] + [pieces[n]];
      RebuildOne(pieces[..n], pieces[n]);
      EveryLineProgresses(attr, text, pieces[..n]);
      FitsWidth(text[|Rebuild(pieces[..n])|..], attr.Usable(n), pieces[n]);
    }
  }

  lemma ShortTextIsComplete(attr: Attributes, text: string, lines: seq<string>, pieces: seq<Piece>)
    requires attr.Leaves(2) && |text| <= 1000
    requires Wrapped(attr, text, lines, pieces)
    ensures Rebuild(pieces) == text && Laid(attr, lines, pieces)
  {
    EveryLineProgresses(attr, text, pieces);
  }

  // ----- A single usable column -----

  /** With a single usable column a hyphenated line takes nothing from the text. */
  lemma OneColumnStalls(rest: string, piece: Piece)
    requires |rest| > 1 && rest[0] != '\n' && Ordinary(rest[1])
    ensures Fits(rest, 1, piece) <==> piece == Piece("", Hyphen)
  {
    if piece.brk == Hyphen && piece.text == "" {
      assert piece.text <= rest;
    }
  }

  predicate Ordinary(c: char) {
    c != '\n' && c !in WRAPPABLE
  }

  /** In one column a newline is dropped, and so is a space after a character that is not. */
  predicate Dropped(text: string, j: nat)
    requires j < |text|
  {
    text[j] == '\n' || (text[j] == ' ' && j > 0 && !Dropped(text, j - 1))
  }

  predicate StartsLine(text: string, j: nat)
    requires j < |text|
  {
    j == 0 || Dropped(text, j - 1) || !Dropped(text, j)
  }

  /** How many lines begin in the first `n` characters. */
  function LinesIn(text: string, n: nat): nat
    requires n <= |text|
  {
    if n == 0 then 0 else LinesIn(text, n - 1) + (if StartsLine(text, n - 1) then 1 else 0)
  }

  /** Up to `n`, every ordinary character but the first follows a dropped one. */
  predicate Flows(text: string, n: nat)
    requires n <= |text|
  {
    forall j {:trigger text[j]} :: 0 < j < n && Ordinary(text[j]) ==> Dropped(text, j - 1)
  }

  /** With the character at `r`, if there is one. */
  function Through(text: string, r: nat): (n: nat)
    requires r <= |text|
    ensures n <= |text|
  {
    if r < |text| then r + 1 else r
  }

  /** Where wrapping cannot go on: a kept character with an ordinary one behind it. */
  ghost predicate StuckAt(text: string, r: nat) {
    r + 1 < |text| && !Dropped(text, r) && Ordinary(text[r + 1])
  }

  ghost predicate InOneColumn(attr: Attributes) {
    attr.Leaves(1) && attr.Usable(0) == 1 && attr.Usable(1) == 1
  }

  /** One line in one column: the next one starts after it, unless it is stuck. */
  lemma OneColumnLine(text: string, r: nat, piece: Piece)
    requires r < |text| && StartsLine(text, r) && Fits(text[r..], 1, piece)
    ensures var r' := r + |piece.Original()|;
            if StuckAt(text, r) then r' == r
            else
              && r < r' <= |text| && LinesIn(text, r') == LinesIn(text, r) + 1
              && (r' < |text| ==> StartsLine(text, r'))
              && (Flows(text, Through(text, r)) ==> Flows(text, Through(text, r')))
  {
    var rest := text[r..];
    assert rest[0] == text[r] && (|rest| > 1 ==> rest[1] == text[r + 1]);
    assert Dropped(text, r) <==> text[r] == '\n';
    FitsOneColumn(rest, piece);
  }

  /** The four kinds of line in one column. */
  lemma FitsOneColumn(rest: string, piece: Piece)
    requires rest != "" && Fits(rest, 1, piece)
    ensures |piece.Original()|
            == if rest[0] == '\n' || |rest| == 1 then 1
               else if rest[1] == '\n' || rest[1] == ' ' then 2
               else if rest[1] in WRAPPABLE then 1 else 0
  {
    var p := |piece.text|;
    assert rest[0] == '\n' ==> NewlineAt(rest, 0);
    assert |rest| > 1 && rest[0] != '\n' && rest[1] == '\n' ==> NewlineAt(rest, 1);
    assert |rest| > 1 && rest[1] in WRAPPABLE ==> WrapAt(rest, 1, 1);
  }

  /** After `n` lines that took `r` characters: as long as wrapping flows these are
      the lines that begin in the text taken; once it is stuck it stays there. */
  ghost predicate Progressed(text: string, r: nat, n: nat) {
    && r <= |text| && (r < |text| ==> StartsLine(text, r))
    && (StuckAt(text, r) || (n == LinesIn(text, r) && Flows(text, Through(text, r))))
  }

  lemma OneColumnStep(text: string, r: nat, n: nat, usable: nat, piece: Piece)
    requires Progressed(text, r, n) && r < |text| && usable == 1 && Fits(text[r..], usable, piece)
    ensures Progressed(text, r + |piece.Original()|, n + 1)
  {
    hide Fits, StartsLine, Dropped, LinesIn, Flows, StuckAt;
    OneColumnLine(text, r, piece);
  }

  lemma {:induction false} OneColumnProgress(attr: Attributes, text: string, pieces: seq<Piece>)
    requires InOneColumn(attr) && Wraps(attr, text, pieces)
    ensures Progressed(text, |Rebuild(pieces)|, |pieces|)
    decreases |pieces|
  {
    hide Fits, Wraps, Rebuild, Progressed;
    if pieces == [] {
      OneColumnBegins(attr, text);
    } else {
      var n := |pieces| - 1;
      var init, last := pieces[..n], pieces[n];
      WrapsParts(attr, text, pieces);
      OneColumnProgress(attr, text, init);
      assert pieces == init + [last];
      RebuildOne(init, last);
      OneColumnStep(text, |Rebuild(init)|, n, attr.Usable(n), last);
    }
  }

  lemma OneColumnBegins(attr: Attributes, text: string)
    ensures |Rebuild([])| == 0 && Progressed(text, 0, 0)
  {}

  lemma {:induction false} LinesGrow(text: string, m: nat, n: nat)
    requires m <= n <= |text|
    ensures LinesIn(text, m) <= LinesIn(text, n)
  {
    if m < n {
      LinesGrow(text, m, n - 1);
    }
  }

  /** Exactly which texts are complete in one column: those in which every
      ordinary character but the first follows a dropped one, if no more than
      1000 lines begin in them. */
  lemma OneColumnComplete(attr: Attributes, text: string, lines: seq<string>, pieces: seq<Piece>)
    requires InOneColumn(attr) && Wrapped(attr, text, lines, pieces)
    ensures Rebuild(pieces) == text && Laid(attr, lines, pieces)
            <==> Flows(text, |text|) && LinesIn(text, |text|) <= 1000
  {
    hide Wraps, Rebuild, Dropped, Fits;
    OneColumnProgress(attr, text, pieces);
    var r := |Rebuild(pieces)|;
    if r < |text| {
      LinesGrow(text, r + 1, |text|);
    }
  }

  // ----- Any two widths -----

  function FirstNewline(s: string): (p: nat)
    ensures p <= |s| && '\n' !in s[..p] && (p < |s| ==> s[p] == '\n')
  {
    if s == "" || s[0] == '\n' then 0
    else
      assert s == [s[0]] + s[1..];
      FirstNewline(s[1..]) + 1
  }

  /** The last place up to `n` to wrap, or 0 if there is none after the start. */
  function LastWrap(s: string, n: nat): (k: nat)
    requires n < |s|
    ensures k <= n && (k > 0 ==> s[k] in WRAPPABLE)
    ensures forall j :: k < j <= n ==> s[j] !in WRAPPABLE
  {
    if n == 0 || s[n] in WRAPPABLE then n else LastWrap(s, n - 1)
  }

  /** The next line of a text at a given number of columns. */
  function LineOf(rest: string, width: nat): (piece: Piece)
    requires width > 0
    ensures Fits(rest, width, piece)
  {
    var p := FirstNewline(rest);
    if p < |rest| && p <= width then
      TakesToNewline(rest, width, p);
      Piece(rest[..p], if p > 1 && |rest| == p + 1 then Nothing else NewlineDropped)
    else if |rest| <= width then
      assert rest[..p] == rest;
      Piece(rest, Nothing)
    else
      assert forall q :: 0 <= q <= width ==> rest[q] == rest[..p][q];
      var k := LastWrap(rest, width);
      if k > 0 then
        TakesToWrap(rest, width, k);
        Piece(rest[..k], if rest[k] == ' ' then SpaceDropped else Nothing)
      else
        TakesHyphen(rest, width);
        Piece(rest[..width - 1], Hyphen)
  }

  /** What the next line leaves. */
  function After(rest: string, width: nat): (r: string)
    requires width > 0
    ensures width > 1 && rest != "" ==> |r| < |rest|
  {
    FitsWidth(rest, width, LineOf(rest, width));
    rest[|LineOf(rest, width).Original()|..]
  }

  /** How many lines a text takes at two columns or more. */
  function LinesAt(rest: string, width: nat): (n: nat)
    requires width > 1
    ensures n <= |rest|
    decreases |rest|
  {
    if rest == "" then 0 else LinesAt(After(rest, width), width) + 1
  }

  /** The layout of all lines but the first. */
  function Later(attr: Attributes): Attributes {
    Attributes(None, attr.indent, attr.width)
  }

  lemma {:induction false} RebuildHead(pieces: seq<Piece>)
    requires pieces != []
    ensures Rebuild(pieces) == pieces[0].Original() + Rebuild(pieces[1..])
  {
    hide Rebuild, Piece.Original;
    var n := |pieces| - 1;
    var init, last := pieces[..n], pieces[n];
    assert pieces == init + [last];
    RebuildOne(init, last);
    RebuildNone();
    if n == 0 {
      assert init == [] && pieces[1..] == [];
    } else {
      RebuildHead(init);
      assert pieces[1..] == init[1..] + [last];
      RebuildOne(init[1..], last);
    }
  }

  lemma RebuildNone()
    ensures Rebuild([]) == ""
  {}

  /** The lines after the first wrap what the first leaves. */
  lemma {:induction false} WrapsTail(attr: Attributes, text: string, pieces: seq<Piece>)
    requires attr.Leaves(1) && Wraps(attr, text, pieces) && pieces != []
    ensures text != "" && pieces[0] == LineOf(text, attr.Usable(0))
    ensures Rebuild(pieces) == pieces[0].Original() + Rebuild(pieces[1..])
    ensures text == pieces[0].Original() + After(text, attr.Usable(0))
    ensures Wraps(Later(attr), After(text, attr.Usable(0)), pieces[1..])
    decreases |pieces|
  {
    hide Fits, Wraps, Rebuild, LineOf, Piece.Original;
    RebuildHead(pieces);
    WrapsParts(attr, text, pieces);
    var n := |pieces| - 1;
    if n == 0 {
      WrapsFirst(attr, text, pieces);
      assert pieces[1..] == [];
    } else {
      var init, last := pieces[..n], pieces[n];
      WrapsTail(attr, text, init);
      var first, rest, middle := pieces[0].Original(), After(text, attr.Usable(0)), init[1..];
      assert pieces[1..] == middle + [last];
      WrapsPrefix(attr, text, pieces);
      assert Rebuild(pieces[1..]) <= rest;
      assert text[|Rebuild(init)|..] == rest[|Rebuild(middle)|..];
      WrapsSnoc(Later(attr), rest, middle, last);
    }
  }

  lemma WrapsPrefix(attr: Attributes, text: string, pieces: seq<Piece>)
    requires Wraps(attr, text, pieces)
    ensures Rebuild(pieces) <= text
  {}

  lemma WrapsFirst(attr: Attributes, text: string, pieces: seq<Piece>)
    requires attr.Leaves(1) && Wraps(attr, text, pieces) && |pieces| == 1
    ensures text != "" && pieces[0] == LineOf(text, attr.Usable(0))
    ensures text == pieces[0].Original() + After(text, attr.Usable(0))
    ensures Wraps(Later(attr), After(text, attr.Usable(0)), [])
  {
    hide Fits, LineOf;
    assert pieces[..0] == [] && text[0..] == text;
    FitsUnique(text, attr.Usable(0), pieces[0], LineOf(text, attr.Usable(0)));
    FitsWidth(text, attr.Usable(0), pieces[0]);
  }

  /** At two columns or more the lines made and the lines to come are always as many. */
  lemma {:induction false} LinesToCome(attr: Attributes, text: string, pieces: seq<Piece>)
    requires attr.Leaves(2) && attr.initialIndent.None? && Wraps(attr, text, pieces)
    ensures Rebuild(pieces) <= text
    ensures LinesAt(text, attr.Usable(1)) == |pieces| + LinesAt(text[|Rebuild(pieces)|..], attr.Usable(1))
    decreases |pieces|
  {
    hide Fits, Wraps, Rebuild, LineOf, Piece.Original;
    WrapsPrefix(attr, text, pieces);
    if pieces == [] {
      NothingWrapped(attr, text);
    } else {
      var n, width := |pieces| - 1, attr.Usable(1);
      var init, last := pieces[..n], pieces[n];
      WrapsParts(attr, text, pieces);
      LinesToCome(attr, text, init);
      assert pieces == init + [last];
      RebuildOne(init, last);
      var rest := text[|Rebuild(init)|..];
      FitsUnique(rest, width, last, LineOf(rest, width));
      assert After(rest, width) == text[|Rebuild(pieces)|..];
    }
  }

  /** A caller's test, for any text and any two widths: the first line is taken at
      its own width, and what it leaves must flow if one column is left for the
      rest, and must not take more than 999 lines. */
  predicate Completes(attr: Attributes, text: string)
    requires attr.Leaves(1)
  {
    text == "" ||
    var rest := After(text, attr.Usable(0));
    if attr.Usable(1) == 1 then Flows(rest, |rest|) && LinesIn(rest, |rest|) < 1000
    else LinesAt(rest, attr.Usable(1)) < 1000
  }

  lemma TailComplete(attr: Attributes, text: string, pieces: seq<Piece>)
    requires attr.Leaves(1) && attr.initialIndent.None? && Wraps(attr, text, pieces) && |pieces| < MAX_LINES
    requires Rebuild(pieces) != text ==> |pieces| == MAX_LINES - 1
    ensures Rebuild(pieces) == text <==>
              if attr.Usable(1) == 1 then Flows(text, |text|) && LinesIn(text, |text|) < MAX_LINES
              else LinesAt(text, attr.Usable(1)) < MAX_LINES
  {
    hide Wraps, Rebuild, Dropped, Fits, LineOf, LinesAt;
    WrapsPrefix(attr, text, pieces);
    var r := |Rebuild(pieces)|;
    if attr.Usable(1) == 1 {
      OneColumnProgress(attr, text, pieces);
      if r < |text| {
        LinesGrow(text, r + 1, |text|);
      }
    } else {
      LinesToCome(attr, text, pieces);
      SomeLines(text[r..], attr.Usable(1));
    }
  }

  lemma SomeLines(rest: string, width: nat)
    requires width > 1
    ensures LinesAt(rest, width) == 0 <==> rest == ""
  {}

  /** Exactly which texts are complete, whatever the two widths. */
  lemma CompleteExactly(attr: Attributes, text: string, lines: seq<string>, pieces: seq<Piece>)
    requires attr.Leaves(1) && Wrapped(attr, text, lines, pieces)
    ensures Rebuild(pieces) == text && Laid(attr, lines, pieces) <==> Completes(attr, text)
  {
    hide Wraps, Rebuild, Fits, LineOf, LinesAt, Flows, LinesIn;
    NothingWrapped(attr, text);
    if pieces != [] {
      WrapsTail(attr, text, pieces);
      TailComplete(Later(attr), After(text, attr.Usable(0)), pieces[1..]);
    }
  }

  /** So with two columns after the first line fewer than 1000 characters are
      never cut off, even if the first line leaves a single column. */
  lemma TwoColumnsLater(attr: Attributes, text: string)
    requires attr.Leaves(1) && attr.Usable(1) > 1 && |text| < 1000
    ensures Completes(attr, text)
  {}

  lemma CutOff(attr: Attributes, text: string, lines: seq<string>, pieces: seq<Piece>)
    requires Wrapped(attr, text, lines, pieces) && !(Rebuild(pieces) == text && Laid(attr, lines, pieces))
    ensures |lines| == 1001
  {
    hide Wraps, Rebuild, Laid;
  }

  lemma EightLetters(attr: Attributes, text: string)
    requires attr == Attributes(Some(0), 4, 5) && |text| == 8 && forall c <- text :: c == 'a'
    ensures !Completes(attr, text)
  {
    hide Fits, LineOf, LinesIn;
    assert forall j :: 0 <= j < |text| ==> text[j] in text;
    TakesHyphen(text, 5);
    FitsUnique(text, 5, LineOf(text, 5), Piece(text[..4], Hyphen));
    var rest := After(text, 5);
    assert rest == text[4..] && Ordinary(rest[1]) && !Dropped(rest, 0);
  }

  /** A wide first line does not help: eight letters, five columns and then one. */
  lemma WideFirstLine(lines: seq<string>, pieces: seq<Piece>)
    requires Wrapped(Attributes(Some(0), 4, 5), "aaaaaaaa", lines, pieces)
    ensures |lines| == 1001
  {
    hide Wrapped, Completes, Laid, Rebuild;
    var attr := Attributes(Some(0), 4, 5);
    EightLetters(attr, "aaaaaaaa");
    CompleteExactly(attr, "aaaaaaaa", lines, pieces);
    CutOff(attr, "aaaaaaaa", lines, pieces);
  }

  /** Two letters in one column: cut off after 1000 empty hyphenated lines. */
  lemma TwoLettersCutOff(attr: Attributes, lines: seq<string>, pieces: seq<Piece>)
    requires InOneColumn(attr) && Wrapped(attr, "ab", lines, pieces)
    ensures |lines| == 1001 && lines[1000] == "... message truncated due to excessive size"
    ensures Rebuild(pieces) == ""
  {
    TwoLettersStuck(attr, pieces);
  }

  lemma {:induction false} TwoLettersStuck(attr: Attributes, pieces: seq<Piece>)
    requires InOneColumn(attr) && Wraps(attr, "ab", pieces)
    ensures Rebuild(pieces) == ""
  {
    if pieces != [] {
      var n := |pieces| - 1;
      WrapsParts(attr, "ab", pieces);
      TwoLettersStuck(attr, pieces[..n]);
      assert "ab"[0..] == "ab" && Ordinary("ab"[1]);
      OneColumnStalls("ab", pieces[n]);
    }
  }
}
