/** `TestSpecParser`: one pass over a test specification. */
module TestSpec {
  import opened Basics


  // ----- Patterns -----

  datatype Pattern =
    | NamePattern(name: string, wildcardAtStart: bool, wildcardAtEnd: bool)
    | TagPattern(tag: string)
    | ExcludedPattern(pattern: Pattern)

  type Filter = seq<Pattern>

  function LowerChar(c: char): char {
    if 'A' <= c <= 'Z' then (c as int + 32) as char else c
  }

  function ToLower(s: string): string {
    seq(|s|, i requires 0 <= i < |s| => LowerChar(s[i]))
  }

  /** A name keeps a leading and a trailing star as wildcards. */
  function MakeName(token: string): Pattern {
    WithWildcards(ToLower(token))
  }

  function WithWildcards(lower: string): Pattern {
    var atStart := "*" <= lower;
    var rest := if atStart then lower[1..] else lower;
    var atEnd := rest != "" && rest[|rest| - 1] == '*';
    NamePattern(if atEnd then rest[..|rest| - 1] else rest, atStart, atEnd)
  }

  function MakeTag(token: string): Pattern {
    TagPattern(ToLower(token))
  }

  // ----- The parser as a step over its fields -----

  datatype Mode = Outside | Name | QuotedName | Tag

  datatype State = State(mode: Mode, exclusion: bool, start: nat, pos: nat,
                         currentFilter: Filter, filters: seq<Filter>)

  const EXCLUDE := "exclude:"

  function SubString(arg: string, s: State): string {
    if s.start <= s.pos <= |arg| then arg[s.start..s.pos] else ""
  }

  function WithPattern(arg: string, s: State, name: bool): State {
    var all := SubString(arg, s);
    var excluded := EXCLUDE <= all;
    var token := if excluded then all[|EXCLUDE|..] else all;
    var base := if name then MakeName(token) else MakeTag(token);
    var pattern := if s.exclusion || excluded then ExcludedPattern(base) else base;
    s.(currentFilter := if token != "" then s.currentFilter + [pattern] else s.currentFilter,
       exclusion := false, mode := Outside)
  }

  function WithFilter(s: State): State {
    if s.currentFilter == [] then s
    else s.(filters := s.filters + [s.currentFilter], currentFilter := [])
  }

  /** Starting a quoted name or a tag steps over the opening character, so that
      after the loop's own increment the first character of the token is never visited. */
  function Begin(s: State, mode: Mode): State {
    s.(mode := mode, start := s.pos + 1, pos := s.pos + 1)
  }

  function VisitName(arg: string, s: State): State
    requires s.pos < |arg|
  {
    if arg[s.pos] == ',' then WithFilter(WithPattern(arg, s, true))
    else if arg[s.pos] == '[' then
      var s' := if SubString(arg, s) == EXCLUDE then s.(exclusion := true) else WithPattern(arg, s, true);
      Begin(s', Tag)
    else s
  }

  function Visit(arg: string, s: State): (s': State)
    requires s.pos < |arg|
    ensures s'.pos >= s.pos
  {
    var c := arg[s.pos];
    match s.mode
    case Outside =>
      if c == ' ' then s
      else if c == '~' then s.(exclusion := true)
      else if c == '[' then Begin(s, Tag)
      else if c == '"' then Begin(s, QuotedName)
      else VisitName(arg, s.(mode := Name, start := s.pos))
    case Name => VisitName(arg, s)
    case QuotedName => if c == '"' then WithPattern(arg, s, true) else s
    case Tag => if c == ']' then WithPattern(arg, s, false) else s
  }

  function Next(arg: string, s: State): (s': State)
    requires s.pos < |arg|
    ensures s'.pos > s.pos
  {
    var s' := Visit(arg, s);
    s'.(pos := s'.pos + 1)
  }

  function Loop(arg: string, s: State): State
    decreases |arg| - s.pos
  {
    if s.pos >= |arg| then s else Loop(arg, Next(arg, s))
  }

  /** parse(arg) on a parser that already holds `current` and `filters`. */
  function Parsed(arg: string, current: Filter, filters: seq<Filter>): State {
    var s := Loop(arg, State(Outside, false, 0, 0, current, filters));
    if s.mode == Name then WithPattern(arg, s, true) else s
  }

  class TestSpecParser {
    var m_mode: Mode
    var m_exclusion: bool
    var m_start: nat
    var m_pos: nat
    var m_arg: string
    var m_currentFilter: Filter
    var m_filters: seq<Filter>

    constructor ()
      ensures m_currentFilter == [] && m_filters == []
    {
      m_mode, m_exclusion, m_start, m_pos, m_arg := Outside, false, 0, 0, "";
      m_currentFilter, m_filters := [], [];
    }

    ghost function Fields(): State
      reads this
    {
      State(m_mode, m_exclusion, m_start, m_pos, m_currentFilter, m_filters)
    }

    method AddPattern(name: bool)
      requires m_start <= m_pos <= |m_arg|
      modifies this`m_currentFilter, this`m_exclusion, this`m_mode
      ensures Fields() == WithPattern(m_arg, old(Fields()), name)
    {
      var token := m_arg[m_start..m_pos];
      if EXCLUDE <= token {
        m_exclusion := true;
        token := token[|EXCLUDE|..];
      }
      if token != "" {
        var pattern := if name then MakeName(token) else MakeTag(token);
        if m_exclusion {
          pattern := ExcludedPattern(pattern);
        }
        m_currentFilter := m_currentFilter + [pattern];
      }
      m_exclusion := false;
      m_mode := Outside;
    }

    method AddFilter()
      modifies this`m_currentFilter, this`m_filters
      ensures Fields() == WithFilter(old(Fields()))
    {
      if m_currentFilter != [] {
        m_filters := m_filters + [m_currentFilter];
        m_currentFilter := [];
      }
    }

    method StartNewMode(mode: Mode, start: nat)
      modifies this`m_mode, this`m_start
      ensures m_mode == mode && m_start == start
    {
      m_mode := mode;
      m_start := start;
    }

    method VisitChar(c: char)
      requires m_pos < |m_arg| && m_arg[m_pos] == c
      requires m_mode != Outside ==> m_start <= m_pos
      modifies this`m_mode, this`m_exclusion, this`m_start, this`m_pos, this`m_currentFilter, this`m_filters
      ensures Fields() == Visit(m_arg, old(Fields()))
      ensures m_mode != Outside ==> m_start <= m_pos
      ensures m_pos >= old(m_pos) && (m_mode == Name ==> m_pos == old(m_pos))
    {
      if m_mode == Outside {
        match c {
          case ' ' => return;
          case '~' => m_exclusion := true; return;
          case '[' => m_pos := m_pos + 1; StartNewMode(Tag, m_pos); return;
          case '"' => m_pos := m_pos + 1; StartNewMode(QuotedName, m_pos); return;
          case _ => StartNewMode(Name, m_pos);
        }
      }
      if m_mode == Name {
        if c == ',' {
          AddPattern(true);
          AddFilter();
        } else if c == '[' {
          if m_arg[m_start..m_pos] == EXCLUDE {
            m_exclusion := true;
          } else {
            AddPattern(true);
          }
          m_pos := m_pos + 1;
          StartNewMode(Tag, m_pos);
        }
      } else if m_mode == QuotedName && c == '"' {
        AddPattern(true);
      } else if m_mode == Tag && c == ']' {
        AddPattern(false);
      }
    }

    /** With no tag aliases registered the argument is parsed as it is. */
    method Parse(arg: string)
      modifies this
      ensures var s := Parsed(arg, old(m_currentFilter), old(m_filters));
              m_currentFilter == s.currentFilter && m_filters == s.filters
    {
      hide Visit, WithPattern;
      m_mode, m_exclusion, m_start, m_arg, m_pos := Outside, false, 0, arg, 0;
      ghost var begin := Fields();
      while m_pos < |m_arg|
        invariant m_arg == arg && Loop(arg, begin) == Loop(arg, Fields())
        invariant m_mode == Name ==> m_pos <= |arg|
        invariant m_mode != Outside ==> m_start <= m_pos
        decreases |arg| - m_pos
      {
        VisitChar(m_arg[m_pos]);
        m_pos := m_pos + 1;
      }
      if m_mode == Name {
        AddPattern(true);
      }
    }

    method TestSpec() returns (filters: seq<Filter>)
      modifies this`m_currentFilter, this`m_filters
      ensures filters == m_filters == WithFilter(old(Fields())).filters
    {
      AddFilter();
      filters := m_filters;
    }
  }

  // ----- Rendering -----

  /** A quoted name, a bracketed tag or a bare name, or a tag behind the word that
      excludes it, after some spaces and possibly negated. */
  datatype Item =
    | Quoted(lead: nat, negated: bool, token: string)
    | Tagged(lead: nat, negated: bool, token: string)
    | Bare(lead: nat, negated: bool, token: string)
    | WordTagged(lead: nat, negated: bool, token: string)

  function Lead(item: Item): string {
    Repeat(item.lead, ' ') + (if item.negated then "~" else "")
  }

  function Core(item: Item): string {
    match item
    case Quoted(_, _, token) => "\"" + token + "\""
    case Tagged(_, _, token) => "[" + token + "]"
    case Bare(_, _, token) => token
    case WordTagged(_, _, token) => "exclude:" + ("[" + token + "]")
  }

  function RenderItem(item: Item): string {
    Lead(item) + Core(item)
  }

  function RenderFilter(items: seq<Item>): string {
    if items == [] then "" else RenderItem(items[0]) + RenderFilter(items[1..])
  }

  function RenderSpec(filters: seq<seq<Item>>): string {
    if filters == [] then ""
    else if |filters| == 1 then RenderFilter(filters[0])
    else RenderFilter(filters[0]) + "," + RenderSpec(filters[1..])
  }

  /** A token must not contain its own terminator after the first character,
      which the parser never visits; a bare name is visited from the start. */
  predicate GoodItem(item: Item) {
    && item.token != ""
    && item.token != EXCLUDE
    && match item
       case Quoted(_, _, token) => '"' !in token[1..]
       case Tagged(_, _, token) => ']' !in token[1..]
       case WordTagged(_, _, token) => ']' !in token[1..]
       case Bare(_, _, token) => BareToken(token)
  }

  /** A bare name ends only at the end of its filter or at an opening bracket. */
  predicate GoodFilter(items: seq<Item>) {
    items == [] ||
    (GoodItem(items[0]) && GoodFilter(items[1..])
     && (items[0].Bare? && |items| > 1 ==> items[1].Tagged? && !items[1].negated && items[1].lead == 0))
  }

  /** The pattern of a token; the word in front excludes, as a tilde does. */
  function PatternOf(item: Item): Pattern {
    Made(item.token, !item.Tagged? && !item.WordTagged?, item.negated || item.WordTagged?)
  }

  function Made(token: string, name: bool, excluded: bool): Pattern {
    var word := EXCLUDE <= token;
    var rest := if word then token[|EXCLUDE|..] else token;
    var base := if name then MakeName(rest) else MakeTag(rest);
    if excluded || word then ExcludedPattern(base) else base
  }

  function FilterOf(items: seq<Item>): Filter {
    seq(|items|, i requires 0 <= i < |items| => PatternOf(items[i]))
  }

  function SpecOf(filters: seq<seq<Item>>): seq<Filter> {
    seq(|filters|, i requires 0 <= i < |filters| => FilterOf(filters[i]))
  }

  // ----- Scanning what was rendered -----

  /** `s` has `text` before it. */
  predicate At(arg: string, p: nat, text: string) {
    p + |text| <= |arg| && arg[p..p + |text|] == text
  }

  lemma AtParts(arg: string, p: nat, a: string, b: string)
    requires At(arg, p, a + b)
    ensures At(arg, p, a) && At(arg, p + |a|, b)
  {
    var n := |a| + |b|;
    assert arg[p..p + n] == a + b;
    assert arg[p..p + |a|] == arg[p..p + n][..|a|];
    assert arg[p + |a|..p + n] == arg[p..p + n][|a|..];
  }

  lemma AtSlice(arg: string, p: nat, text: string)
    requires At(arg, p, text)
    ensures p + |text| <= |arg| && arg[p..p + |text|] == text
  {}

  lemma AtChar(arg: string, p: nat, c: char)
    requires At(arg, p, [c])
    ensures p < |arg| && arg[p] == c
  {
    assert arg[p] == arg[p..p + 1][0];
  }

  /** Characters that end nothing are passed over. */
  lemma {:induction false} Passes(arg: string, s: State, q: nat)
    requires s.pos <= q <= |arg|
    requires s.mode != Outside
    requires s.mode == Name ==> forall i :: s.pos <= i < q ==> arg[i] != ',' && arg[i] != '['
    requires s.mode == QuotedName ==> forall i :: s.pos <= i < q ==> arg[i] != '"'
    requires s.mode == Tag ==> forall i :: s.pos <= i < q ==> arg[i] != ']'
    ensures Loop(arg, s) == Loop(arg, s.(pos := q))
    decreases q - s.pos
  {
    if s.pos < q {
      assert Next(arg, s) == s.(pos := s.pos + 1);
      Passes(arg, s.(pos := s.pos + 1), q);
    }
  }

  lemma SpaceStep(arg: string, s: State)
    requires s.mode == Outside && s.pos < |arg| && arg[s.pos] == ' '
    ensures Next(arg, s) == s.(pos := s.pos + 1)
  {}

  lemma TildeStep(arg: string, s: State)
    requires s.mode == Outside && s.pos < |arg| && arg[s.pos] == '~'
    ensures Next(arg, s) == s.(exclusion := true, pos := s.pos + 1)
  {}

  lemma {:induction false} SpacesRead(arg: string, s: State, n: nat)
    requires s.mode == Outside && At(arg, s.pos, Repeat(n, ' '))
    ensures Loop(arg, s) == Loop(arg, s.(pos := s.pos + n))
    decreases n
  {
    hide Loop, Visit, At;
    if n > 0 {
      assert Repeat(n, ' ') == [' '] + Repeat(n - 1, ' ');
      AtParts(arg, s.pos, [' '], Repeat(n - 1, ' '));
      AtChar(arg, s.pos, ' ');
      SpaceStep(arg, s);
      LoopStep(arg, s);
      SpacesRead(arg, s.(pos := s.pos + 1), n - 1);
    }
  }

  lemma LeadRead(arg: string, s: State, item: Item)
    requires s.mode == Outside && !s.exclusion && At(arg, s.pos, Lead(item))
    ensures Loop(arg, s) == Loop(arg, s.(exclusion := item.negated, pos := s.pos + |Lead(item)|))
  {
    hide Loop, Visit, At;
    var tilde := if item.negated then "~" else "";
    AtParts(arg, s.pos, Repeat(item.lead, ' '), tilde);
    SpacesRead(arg, s, item.lead);
    if item.negated {
      AtChar(arg, s.pos + item.lead, '~');
      TildeStep(arg, s.(pos := s.pos + item.lead));
      LoopStep(arg, s.(pos := s.pos + item.lead));
    }
  }

  lemma LoopStep(arg: string, s: State)
    requires s.pos < |arg|
    ensures Loop(arg, s) == Loop(arg, Next(arg, s))
  {}

  lemma OpenStep(arg: string, s: State, quoted: bool)
    requires s.mode == Outside && s.pos < |arg| && arg[s.pos] == (if quoted then '"' else '[')
    ensures Next(arg, s) == s.(mode := if quoted then QuotedName else Tag, start := s.pos + 1, pos := s.pos + 2)
  {}

  /** What a complete token adds to the filter being read. */
  function Taken(s: State, token: string, name: bool): State {
    s.(mode := Outside, exclusion := false,
       currentFilter := s.currentFilter + [Made(token, name, s.exclusion)])
  }

  lemma TakeToken(arg: string, s: State, token: string, name: bool)
    requires token != "" && token != EXCLUDE
    requires s.start <= s.pos <= |arg| && arg[s.start..s.pos] == token
    ensures WithPattern(arg, s, name) == Taken(s, token, name)
  {
    hide MakeName, MakeTag;
  }

  lemma CloseStep(arg: string, s: State, token: string)
    requires token != "" && token != EXCLUDE
    requires s.start <= s.pos < |arg| && arg[s.start..s.pos] == token
    requires (s.mode == QuotedName && arg[s.pos] == '"') || (s.mode == Tag && arg[s.pos] == ']')
    ensures Next(arg, s) == Taken(s, token, s.mode == QuotedName).(pos := s.pos + 1)
  {
    hide Taken, WithPattern;
    TakeToken(arg, s, token, s.mode == QuotedName);
    TakenPos(s, token, s.mode == QuotedName);
  }

  lemma TakenPos(s: State, token: string, name: bool)
    ensures Taken(s, token, name).pos == s.pos
  {}

  /** A quoted name or a tag, from its opening character to its closing one. */
  lemma EnclosedRead(arg: string, s: State, token: string, quoted: bool)
    requires token != "" && token != EXCLUDE
    requires s.mode == Outside
    requires if quoted then '"' !in token[1..] && At(arg, s.pos, "\"" + token + "\"")
             else ']' !in token[1..] && At(arg, s.pos, "[" + token + "]")
    ensures Loop(arg, s) == Loop(arg, Taken(s, token, quoted).(start := s.pos + 1, pos := s.pos + |token| + 2))
  {
    hide MakeName, MakeTag, Loop, Visit, WithPattern, At;
    EnclosedChars(arg, s.pos, token, if quoted then '"' else '[', if quoted then '"' else ']');
    var q := s.pos + 1 + |token|;
    var inside := s.(mode := if quoted then QuotedName else Tag, start := s.pos + 1, pos := s.pos + 2);
    LoopStep(arg, s);
    OpenStep(arg, s, quoted);
    Passes(arg, inside, q);
    LoopStep(arg, inside.(pos := q));
    CloseStep(arg, inside.(pos := q), token);
  }

  lemma EnclosedChars(arg: string, p: nat, token: string, open: char, close: char)
    requires token != "" && close !in token[1..] && At(arg, p, [open] + token + [close])
    ensures var q := p + 1 + |token|;
            && q < |arg| && arg[p] == open && arg[p + 1..q] == token && arg[q] == close
            && forall i :: p + 2 <= i < q ==> arg[i] != close
  {
    var q := p + 1 + |token|;
    assert [open] + token + [close] == [open] + (token + [close]);
    AtParts(arg, p, [open], token + [close]);
    AtParts(arg, p + 1, token, [close]);
    AtChar(arg, p, open);
    AtChar(arg, q, close);
    forall i | p + 2 <= i < q
      ensures arg[i] != close
    {
      assert arg[i] == arg[p + 1..q][1..][i - p - 2];
    }
  }

  lemma TakenItem(s: State, item: Item)
    requires s.exclusion == (item.negated || item.WordTagged?)
    ensures var taken := Taken(s, item.token, !item.Tagged? && !item.WordTagged?);
            && taken.mode == Outside && !taken.exclusion && taken.pos == s.pos && taken.start == s.start
            && taken.currentFilter == s.currentFilter + [PatternOf(item)] && taken.filters == s.filters
  {
    hide MakeName, MakeTag;
  }

  lemma ItemRead(arg: string, s: State, item: Item) returns (s': State)
    requires GoodItem(item) && !item.Bare?
    requires s.mode == Outside && !s.exclusion && At(arg, s.pos, RenderItem(item))
    ensures Loop(arg, s) == Loop(arg, s')
    ensures s'.mode == Outside && !s'.exclusion && s'.pos == s.pos + |RenderItem(item)|
    ensures s'.currentFilter == s.currentFilter + [PatternOf(item)] && s'.filters == s.filters
  {
    hide Loop, At, PatternOf, Lead, Core, GoodItem;
    AtParts(arg, s.pos, Lead(item), Core(item));
    LeadRead(arg, s, item);
    s' := CoreRead(arg, s.(exclusion := item.negated, pos := s.pos + |Lead(item)|), item);
  }

  lemma CoreRead(arg: string, s: State, item: Item) returns (s': State)
    requires GoodItem(item) && !item.Bare?
    requires s.mode == Outside && s.exclusion == item.negated && At(arg, s.pos, Core(item))
    ensures Loop(arg, s) == Loop(arg, s')
    ensures s'.mode == Outside && !s'.exclusion && s'.pos == s.pos + |Core(item)|
    ensures s'.currentFilter == s.currentFilter + [PatternOf(item)] && s'.filters == s.filters
  {
    hide Loop, At, Taken, PatternOf;
    var s1 := s;
    if item.WordTagged? {
      WordRead(arg, s, item.token);
      s1 := s.(exclusion := true, pos := s.pos + 8);
    } else {
      EnclosedRead(arg, s, item.token, item.Quoted?);
    }
    TakenItem(s1, item);
    s' := Taken(s1, item.token, item.Quoted?).(start := s1.pos + 1, pos := s1.pos + |item.token| + 2);
  }

  /** The word directly before a bracket is no name: it excludes the tag. */
  lemma WordRead(arg: string, s: State, token: string)
    requires token != "" && token != EXCLUDE && ']' !in token[1..]
    requires s.mode == Outside && At(arg, s.pos, "exclude:" + ("[" + token + "]"))
    ensures var s1 := s.(exclusion := true, pos := s.pos + 8);
            Loop(arg, s) == Loop(arg, Taken(s1, token, false).(start := s1.pos + 1, pos := s1.pos + |token| + 2))
  {
    hide MakeName, MakeTag, Loop, At, Taken;
    AtParts(arg, s.pos, "exclude:", "[" + token + "]");
    var named := BareScan(arg, s, "exclude:");
    var s1 := s.(exclusion := true, pos := s.pos + 8);
    EnclosedRead(arg, s1, token, false);
    assert "[" + token + "]" == "[" + (token + "]");
    AtParts(arg, s1.pos, "[", token + "]");
    AtChar(arg, s1.pos, '[');
    WordThenBracket(arg, named, s1);
  }

  lemma WordThenBracket(arg: string, named: State, s: State)
    requires named.mode == Name && named.start <= named.pos < |arg| && arg[named.pos] == '['
    requires arg[named.start..named.pos] == "exclude:"
    requires s.mode == Outside
    requires s == named.(mode := Outside, exclusion := true, start := s.start)
    ensures Loop(arg, named) == Loop(arg, s)
  {
    hide MakeName, MakeTag;
    assert Next(arg, named) == Next(arg, s);
  }

  lemma BareStart(arg: string, s: State)
    requires s.mode == Outside && s.pos < |arg| && arg[s.pos] !in " ~[\","
    ensures Next(arg, s) == s.(mode := Name, start := s.pos, pos := s.pos + 1)
  {}

  predicate BareToken(token: string) {
    token != "" && token[0] !in " ~[\"," && ',' !in token && '[' !in token
  }

  lemma BareChars(arg: string, p: nat, token: string)
    requires BareToken(token) && At(arg, p, token)
    ensures p < |arg| && arg[p] !in " ~[\","
    ensures forall i :: p <= i < p + |token| ==> arg[i] != ',' && arg[i] != '['
  {
    var q := p + |token|;
    forall i | p <= i < q
      ensures arg[i] == token[i - p] && arg[i] in token
    {
      assert arg[i] == arg[p..q][i - p];
    }
  }

  /** A bare name up to its end: the parser is still in the name. */
  lemma BareRead(arg: string, s: State, item: Item) returns (s': State)
    requires GoodItem(item) && item.Bare?
    requires s.mode == Outside && !s.exclusion && At(arg, s.pos, RenderItem(item))
    ensures Loop(arg, s) == Loop(arg, s')
    ensures InBareName(arg, s', item)
    ensures s'.pos == s.pos + |RenderItem(item)| && s'.currentFilter == s.currentFilter && s'.filters == s.filters
  {
    hide MakeName, MakeTag, Loop, At, Lead, BareToken;
    AtParts(arg, s.pos, Lead(item), item.token);
    LeadRead(arg, s, item);
    s' := BareScan(arg, s.(exclusion := item.negated, pos := s.pos + |Lead(item)|), item.token);
  }

  lemma BareScan(arg: string, s: State, token: string) returns (s': State)
    requires BareToken(token) && s.mode == Outside && At(arg, s.pos, token)
    ensures s' == s.(mode := Name, start := s.pos, pos := s.pos + |token|)
    ensures Loop(arg, s) == Loop(arg, s')
    ensures s'.pos <= |arg| && arg[s.pos..s'.pos] == token
  {
    hide Loop, Visit;
    AtSlice(arg, s.pos, token);
    BareChars(arg, s.pos, token);
    hide At;
    LoopStep(arg, s);
    BareStart(arg, s);
    s' := s.(mode := Name, start := s.pos, pos := s.pos + |token|);
    Passes(arg, s.(mode := Name, start := s.pos, pos := s.pos + 1), s'.pos);
  }

  predicate InBareName(arg: string, s: State, item: Item) {
    && item.Bare? && GoodItem(item)
    && s.mode == Name && s.exclusion == item.negated
    && s.start <= s.pos <= |arg| && arg[s.start..s.pos] == item.token
  }

  /** What is left to do for the items read so far: nothing, or to take a bare name. */
  predicate ReadTo(arg: string, s: State, items: seq<Item>) {
    if items != [] && items[|items| - 1].Bare? then InBareName(arg, s, items[|items| - 1])
    else s.mode == Outside && !s.exclusion
  }

  /** The filter so far, counting a bare name that is not taken yet. */
  function Held(s: State, items: seq<Item>): Filter {
    if items != [] && items[|items| - 1].Bare? then s.currentFilter + [PatternOf(items[|items| - 1])]
    else s.currentFilter
  }

  lemma AtTag(arg: string, p: nat, tag: Item)
    requires tag.Tagged? && !tag.negated && tag.lead == 0 && At(arg, p, RenderItem(tag))
    ensures p < |arg| && arg[p] == '['
  {
    hide At;
    assert Lead(tag) + ("[" + tag.token + "]") == "[" + (tag.token + "]");
    AtParts(arg, p, "[", tag.token + "]");
    AtChar(arg, p, '[');
  }

  /** A tag right after a bare name: the bracket ends the name and begins the tag. */
  lemma BareThenTag(arg: string, s: State, bare: Item, tag: Item) returns (s': State)
    requires InBareName(arg, s, bare) && GoodItem(tag) && tag.Tagged? && !tag.negated && tag.lead == 0
    requires At(arg, s.pos, RenderItem(tag))
    ensures Loop(arg, s) == Loop(arg, s')
    ensures s'.mode == Outside && !s'.exclusion && s'.pos == s.pos + |RenderItem(tag)|
    ensures s'.currentFilter == s.currentFilter + [PatternOf(bare), PatternOf(tag)] && s'.filters == s.filters
  {
    hide MakeName, MakeTag, Loop, At, WithPattern, Taken, PatternOf;
    AtTag(arg, s.pos, tag);
    hide RenderItem;
    TakeToken(arg, s, bare.token, true);
    var taken := Taken(s, bare.token, true);
    SameAfterTaking(arg, s, taken);
    TakenItem(s, bare);
    s' := ItemRead(arg, taken, tag);
    assert s.currentFilter + [PatternOf(bare)] + [PatternOf(tag)]
           == s.currentFilter + [PatternOf(bare), PatternOf(tag)];
  }

  /** Taking the bare name first changes nothing about how the bracket is read. */
  lemma SameAfterTaking(arg: string, s: State, taken: State)
    requires s.mode == Name && s.start <= s.pos < |arg| && arg[s.pos] == '['
    requires SubString(arg, s) != EXCLUDE
    requires taken == WithPattern(arg, s, true)
    ensures Loop(arg, s) == Loop(arg, taken)
  {
    hide MakeName, MakeTag;
    assert Next(arg, s) == Next(arg, taken);
  }

  lemma FilterCons(items: seq<Item>)
    requires items != []
    ensures FilterOf(items) == [PatternOf(items[0])] + FilterOf(items[1..])
  {
    hide PatternOf;
  }

  lemma TailHeld(arg: string, s: State, items: seq<Item>, k: nat)
    requires 0 < k <= |items|
    requires k == |items| ==> !items[k - 1].Bare?
    ensures ReadTo(arg, s, items) == ReadTo(arg, s, items[k..]) && Held(s, items) == Held(s, items[k..])
  {
    hide InBareName, PatternOf;
  }

  lemma HeldNothing(arg: string, s: State)
    ensures ReadTo(arg, s, []) <==> s.mode == Outside && !s.exclusion
    ensures Held(s, []) == s.currentFilter
    ensures FilterOf([]) == []
  {}

  lemma HeldBare(arg: string, s: State, item: Item)
    requires item.Bare?
    ensures ReadTo(arg, s, [item]) <==> InBareName(arg, s, item)
    ensures Held(s, [item]) == s.currentFilter + [PatternOf(item)]
    ensures FilterOf([item]) == [PatternOf(item)]
  {}

  /** A rendered filter adds the patterns of its items in order. */
  lemma {:induction false} FilterRead(arg: string, s: State, items: seq<Item>) returns (s': State)
    requires GoodFilter(items)
    requires s.mode == Outside && !s.exclusion && At(arg, s.pos, RenderFilter(items))
    ensures Loop(arg, s) == Loop(arg, s')
    ensures ReadTo(arg, s', items) && s'.pos == s.pos + |RenderFilter(items)|
    ensures Held(s', items) == s.currentFilter + FilterOf(items) && s'.filters == s.filters
    decreases |items|
  {
    hide MakeName, MakeTag, Loop, PatternOf, RenderItem, GoodItem, At, ReadTo, Held, InBareName, FilterOf;
    if items == [] {
      HeldNothing(arg, s);
      s' := s;
    } else {
      AtParts(arg, s.pos, RenderItem(items[0]), RenderFilter(items[1..]));
      FilterCons(items);
      if !items[0].Bare? {
        var s1 := ItemRead(arg, s, items[0]);
        s' := FilterRead(arg, s1, items[1..]);
        TailHeld(arg, s', items, 1);
      } else if |items| == 1 {
        s' := BareRead(arg, s, items[0]);
        HeldBare(arg, s', items[0]);
        assert items == [items[0]];
      } else {
        var s1 := BareRead(arg, s, items[0]);
        assert items[1..][1..] == items[2..] && items[1..][0] == items[1];
        AtParts(arg, s1.pos, RenderItem(items[1]), RenderFilter(items[2..]));
        FilterCons(items[1..]);
        var s2 := BareThenTag(arg, s1, items[0], items[1]);
        s' := FilterRead(arg, s2, items[2..]);
        TailHeld(arg, s', items, 2);
      }
    }
  }

  /** A comma ends the filter, whether or not a bare name is still open. */
  lemma CommaRead(arg: string, s: State, items: seq<Item>) returns (s': State)
    requires ReadTo(arg, s, items) && s.pos < |arg| && arg[s.pos] == ','
    requires Held(s, items) != []
    ensures Loop(arg, s) == Loop(arg, s')
    ensures s'.mode == Outside && !s'.exclusion && s'.pos == s.pos + 1
    ensures s'.currentFilter == [] && s'.filters == s.filters + [Held(s, items)]
  {
    hide MakeName, MakeTag, Loop;
    LoopStep(arg, s);
    s' := Next(arg, s);
    if s.mode == Name {
      TakeToken(arg, s, items[|items| - 1].token, true);
    } else {
      assert SubString(arg, s.(mode := Name, start := s.pos)) == "";
    }
  }

  lemma {:induction false} SpecRead(arg: string, s: State, filters: seq<seq<Item>>) returns (s': State)
    requires filters != [] && forall f <- filters :: f != [] && GoodFilter(f)
    requires s.mode == Outside && !s.exclusion && s.currentFilter == [] && At(arg, s.pos, RenderSpec(filters))
    ensures Loop(arg, s) == Loop(arg, s')
    ensures var last := filters[|filters| - 1];
            && ReadTo(arg, s', last) && s'.pos == s.pos + |RenderSpec(filters)|
            && s'.filters + [Held(s', last)] == s.filters + SpecOf(filters)
            && Held(s', last) != []
    decreases |filters|
  {
    hide Loop, ReadTo, Held, RenderFilter, PatternOf, GoodFilter, At, FilterOf, SpecOf;
    SpecCons(filters);
    assert [] + FilterOf(filters[0]) == FilterOf(filters[0]);
    if |filters| == 1 {
      s' := FilterRead(arg, s, filters[0]);
    } else {
      var f, rest := RenderFilter(filters[0]), RenderSpec(filters[1..]);
      assert RenderSpec(filters) == f + ("," + rest);
      AtParts(arg, s.pos, f, "," + rest);
      AtParts(arg, s.pos + |f|, ",", rest);
      AtChar(arg, s.pos + |f|, ',');
      var s1 := FilterRead(arg, s, filters[0]);
      var s2 := CommaRead(arg, s1, filters[0]);
      assert forall g <- filters[1..] :: g in filters;
      s' := SpecRead(arg, s2, filters[1..]);
      assert s.filters + [FilterOf(filters[0])] + SpecOf(filters[1..])
             == s.filters + ([FilterOf(filters[0])] + SpecOf(filters[1..]));
    }
  }

  lemma SpecCons(filters: seq<seq<Item>>)
    requires filters != []
    ensures SpecOf(filters) == [FilterOf(filters[0])] + SpecOf(filters[1..])
    ensures |filters| == 1 ==> SpecOf(filters) == [FilterOf(filters[0])]
    ensures filters[0] != [] ==> FilterOf(filters[0]) != []
  {}

  /** What parsing a whole specification yields. */
  function ParseSpec(arg: string): seq<Filter> {
    WithFilter(Parsed(arg, [], [])).filters
  }

  method ParseTestSpec(arg: string) returns (filters: seq<Filter>)
    ensures filters == ParseSpec(arg)
  {
    var parser := new TestSpecParser();
    parser.Parse(arg);
    filters := parser.TestSpec();
  }

  /** The end of the argument ends the filter, whether or not a bare name is open. */
  lemma EndRead(arg: string, s: State, items: seq<Item>)
    requires ReadTo(arg, s, items) && Held(s, items) != []
    ensures WithFilter(if s.mode == Name then WithPattern(arg, s, true) else s).filters
            == s.filters + [Held(s, items)]
  {
    hide MakeName, MakeTag;
    if s.mode == Name {
      TakeToken(arg, s, items[|items| - 1].token, true);
    }
  }

  /** Parsing a rendered list of filters gives back exactly that list. */
  lemma RenderRoundTrip(filters: seq<seq<Item>>)
    requires forall f <- filters :: f != [] && GoodFilter(f)
    ensures ParseSpec(RenderSpec(filters)) == SpecOf(filters)
  {
    var arg := RenderSpec(filters);
    if filters != [] {
      hide WithPattern, WithFilter, ReadTo, Held, GoodFilter, SpecOf, RenderSpec;
      assert arg[0..|arg|] == arg;
      var begin := State(Outside, false, 0, 0, [], []);
      var s := SpecRead(arg, begin, filters);
      assert Loop(arg, begin) == s;
      EndRead(arg, s, filters[|filters| - 1]);
      assert [] + SpecOf(filters) == SpecOf(filters);
    }
  }

  // ----- What a parsed specification selects -----

  datatype TestCase = TestCase(name: string, tags: set<string>)

  predicate StartsWith(s: string, p: string) {
    |p| <= |s| && s[..|p|] == p
  }

  predicate EndsWith(s: string, p: string) {
    |p| <= |s| && s[|s| - |p|..] == p
  }

  ghost predicate Contains(s: string, p: string) {
    exists i: nat :: At(s, i, p)
  }

  ghost predicate Matches(p: Pattern, test: TestCase) {
    match p
    case NamePattern(name, false, false) => name == ToLower(test.name)
    case NamePattern(name, true, false) => EndsWith(ToLower(test.name), name)
    case NamePattern(name, false, true) => StartsWith(ToLower(test.name), name)
    case NamePattern(name, true, true) => Contains(ToLower(test.name), name)
    case TagPattern(tag) => tag in (set t <- test.tags :: ToLower(t))
    case ExcludedPattern(pattern) => !Matches(pattern, test)
  }

  /** All patterns of some filter match. */
  ghost predicate Selected(filters: seq<Filter>, test: TestCase) {
    exists f <- filters :: forall p <- f :: Matches(p, test)
  }

  predicate SameLetter(a: char, b: char) {
    || a == b
    || ('A' <= a <= 'Z' && b as int == a as int + 32)
    || ('A' <= b <= 'Z' && a as int == b as int + 32)
  }

  /** Equal but for the case of the letters A to Z. */
  predicate SameText(a: string, b: string) {
    |a| == |b| && forall i :: 0 <= i < |a| ==> SameLetter(a[i], b[i])
  }

  predicate SameAt(s: string, i: nat, text: string) {
    i + |text| <= |s| && SameText(s[i..i + |text|], text)
  }

  /** But for its case the name is the text, with anything more in front of it or
      behind it only where that is allowed. */
  ghost predicate Described(name: string, text: string, front: bool, back: bool) {
    exists i: nat :: SameAt(name, i, text) && (front || i == 0) && (back || i + |text| == |name|)
  }

  predicate Starless(text: string) {
    text == "" || (text[0] != '*' && text[|text| - 1] != '*')
  }

  function Starred(text: string, front: bool, back: bool): string {
    (if front then "*" else "") + text + (if back then "*" else "")
  }

  lemma LowerSame(a: string, b: string)
    ensures ToLower(a) == ToLower(b) <==> SameText(a, b)
  {
    if |a| == |b| {
      forall i | 0 <= i < |a|
        ensures ToLower(a)[i] == ToLower(b)[i] <==> SameLetter(a[i], b[i])
      {
        LetterSame(a[i], b[i]);
      }
    }
  }

  lemma LetterSame(a: char, b: char)
    ensures LowerChar(a) == LowerChar(b) <==> SameLetter(a, b)
    ensures LowerChar(a) == '*' <==> a == '*'
  {}

  lemma LowerAt(name: string, i: nat, text: string)
    ensures At(ToLower(name), i, ToLower(text)) <==> SameAt(name, i, text)
  {
    if i + |text| <= |name| {
      assert ToLower(name)[i..i + |text|] == ToLower(name[i..i + |text|]);
      LowerSame(name[i..i + |text|], text);
    }
  }

  lemma StarredMade(text: string, front: bool, back: bool)
    requires Starless(text) && (text != "" || front == back)
    ensures MakeName(Starred(text, front, back)) == NamePattern(ToLower(text), front, back)
  {
    LowerStarred(text, front, back);
    LowerEnds(text);
    hide ToLower, WithWildcards;
    StarsRead(ToLower(text), front, back);
  }

  lemma StarsRead(text: string, front: bool, back: bool)
    requires Starless(text) && (text != "" || front == back)
    ensures WithWildcards(Starred(text, front, back)) == NamePattern(text, front, back)
  {
    var s := Starred(text, front, back);
    var rest := text + (if back then "*" else "");
    if front {
      assert s[0] == '*' && s[1..] == rest;
    } else {
      assert s == rest;
    }
    assert back ==> rest[..|rest| - 1] == text;
    assert !back ==> rest == text;
  }

  lemma LowerStarred(text: string, front: bool, back: bool)
    ensures ToLower(Starred(text, front, back)) == Starred(ToLower(text), front, back)
  {}

  lemma LowerEnds(text: string)
    requires Starless(text)
    ensures |ToLower(text)| == |text| && Starless(ToLower(text))
  {
    if text != "" {
      LetterSame(text[0], text[0]);
      LetterSame(text[|text| - 1], text[|text| - 1]);
    }
  }

  lemma NameMatches(text: string, front: bool, back: bool, test: TestCase)
    ensures Matches(NamePattern(ToLower(text), front, back), test) <==> Described(test.name, text, front, back)
  {
    hide ToLower, SameAt;
    var name, low := ToLower(test.name), ToLower(text);
    LowerSizes(test.name);
    LowerSizes(text);
    forall i: nat
      ensures At(name, i, low) <==> SameAt(test.name, i, text)
      ensures SameAt(test.name, i, text) ==> i + |text| <= |test.name|
    {
      LowerAt(test.name, i, text);
      AtInside(name, i, low);
    }
    if |low| <= |name| {
      var n := |name| - |low|;
      assert name[n..n + |low|] == name[n..] && name[0..0 + |low|] == name[..|low|];
      assert |name| == |low| ==> name[..|low|] == name;
      assert EndsWith(name, low) <==> At(name, n, low);
      assert StartsWith(name, low) <==> At(name, 0, low);
    }
  }

  lemma LowerSizes(s: string)
    ensures |ToLower(s)| == |s|
  {}

  lemma AtInside(s: string, i: nat, text: string)
    ensures At(s, i, text) ==> i + |text| <= |s|
  {}

  lemma ExcludedMatches(p: Pattern, test: TestCase)
    ensures Matches(ExcludedPattern(p), test) <==> !Matches(p, test)
  {}

  /** A specification of a single item selects what its pattern matches. */
  lemma OneItem(item: Item, test: TestCase)
    requires GoodItem(item)
    ensures Selected(ParseSpec(RenderItem(item)), test) <==> Matches(PatternOf(item), test)
  {
    hide MakeName, MakeTag, Matches, ParseSpec, GoodItem, RenderItem, PatternOf, GoodFilter, RenderSpec, SpecOf;
    OneRendered(item);
    RenderRoundTrip([[item]]);
    var parsed := ParseSpec(RenderItem(item));
    assert parsed == [[PatternOf(item)]];
    assert parsed[0] in parsed && parsed[0][0] in parsed[0];
  }

  lemma OneRendered(item: Item)
    requires GoodItem(item)
    ensures RenderSpec([[item]]) == RenderItem(item) && GoodFilter([item])
    ensures SpecOf([[item]]) == [[PatternOf(item)]]
  {
    hide GoodItem, RenderItem, PatternOf;
    var items := [item];
    assert items[1..] == [];
    NoItems();
    assert RenderFilter(items) == RenderItem(item) + "";
    assert RenderItem(item) + "" == RenderItem(item);
    assert FilterOf(items) == [PatternOf(item)];
  }

  lemma NoItems()
    ensures RenderFilter([]) == "" && GoodFilter([])
  {}

  lemma ItemSelects(item: Item, arg: string, base: Pattern, excluded: bool, test: TestCase)
    requires GoodItem(item) && RenderItem(item) == arg
    requires PatternOf(item) == if excluded then ExcludedPattern(base) else base
    ensures Selected(ParseSpec(arg), test) <==> excluded != Matches(base, test)
  {
    hide MakeName, MakeTag, Matches, ParseSpec, GoodItem, RenderItem, PatternOf, Selected;
    OneItem(item, test);
    ExcludedMatches(base, test);
  }

  /** A quoted name with a star at either end or none selects exactly the tests
      whose name, but for its case, ends with, begins with, contains or is the
      text; a tilde or the word in front selects exactly the others. */
  lemma QuotedSelects(text: string, front: bool, back: bool, test: TestCase)
    requires Starless(text) && (text != "" || (front && back))
    requires var token := Starred(text, front, back); '"' !in token && !("exclude:" <= token)
    ensures var token, described := Starred(text, front, back), Described(test.name, text, front, back);
            && (Selected(ParseSpec("\"" + token + "\""), test) <==> described)
            && (Selected(ParseSpec("~" + ("\"" + token + "\"")), test) <==> !described)
            && (Selected(ParseSpec("\"" + ("exclude:" + token) + "\""), test) <==> !described)
  {
    hide Matches, MakeName, Described, ParseSpec, Selected, ToLower, Starred;
    var token := Starred(text, front, back);
    var p := NamePattern(ToLower(text), front, back);
    StarredLength(text, front, back);
    StarredMade(text, front, back);
    NameMatches(text, front, back, test);
    QuotedForms(token, p, test);
  }

  lemma StarredLength(text: string, front: bool, back: bool)
    ensures text != "" || front ==> Starred(text, front, back) != ""
  {}

  lemma QuotedForms(token: string, p: Pattern, test: TestCase)
    requires token != "" && '"' !in token && !("exclude:" <= token) && MakeName(token) == p
    ensures Selected(ParseSpec("\"" + token + "\""), test) <==> Matches(p, test)
    ensures Selected(ParseSpec("~" + ("\"" + token + "\"")), test) <==> !Matches(p, test)
    ensures Selected(ParseSpec("\"" + ("exclude:" + token) + "\""), test) <==> !Matches(p, test)
  {
    hide MakeName, Matches, ParseSpec, Selected;
    var quoted := "\"" + token + "\"";
    assert ("exclude:" + token)[8..] == token && "exclude:" <= "exclude:" + token;
    assert "" + "" + quoted == quoted && "" + "~" + quoted == "~" + quoted;
    ItemSelects(Quoted(0, false, token), quoted, p, false, test);
    ItemSelects(Quoted(0, true, token), "~" + quoted, p, true, test);
    var worded := "\"" + ("exclude:" + token) + "\"";
    assert "" + "" + worded == worded;
    ItemSelects(Quoted(0, false, "exclude:" + token), worded, p, true, test);
  }

  /** A tag in brackets selects exactly the tests that have it, but for its case. */
  lemma TagSelects(tag: string, test: TestCase)
    requires tag != "" && ']' !in tag && !("exclude:" <= tag)
    ensures var has := exists t <- test.tags :: SameText(t, tag);
            && (Selected(ParseSpec("[" + tag + "]"), test) <==> has)
            && (Selected(ParseSpec("~" + ("[" + tag + "]")), test) <==> !has)
            && (Selected(ParseSpec("[" + ("exclude:" + tag) + "]"), test) <==> !has)
            && (Selected(ParseSpec("exclude:" + ("[" + tag + "]")), test) <==> !has)
  {
    hide Matches, ParseSpec, Selected, ToLower, SameText;
    TagMatches(tag, test);
    TagForms(tag, TagPattern(ToLower(tag)), test);
  }

  lemma TagForms(tag: string, p: Pattern, test: TestCase)
    requires tag != "" && ']' !in tag && !("exclude:" <= tag) && MakeTag(tag) == p
    ensures Selected(ParseSpec("[" + tag + "]"), test) <==> Matches(p, test)
    ensures Selected(ParseSpec("~" + ("[" + tag + "]")), test) <==> !Matches(p, test)
    ensures Selected(ParseSpec("[" + ("exclude:" + tag) + "]"), test) <==> !Matches(p, test)
    ensures Selected(ParseSpec("exclude:" + ("[" + tag + "]")), test) <==> !Matches(p, test)
  {
    hide MakeTag, Matches, ParseSpec, Selected;
    var bracketed := "[" + tag + "]";
    assert ("exclude:" + tag)[8..] == tag && "exclude:" <= "exclude:" + tag;
    assert "" + "" + bracketed == bracketed && "" + "~" + bracketed == "~" + bracketed;
    ItemSelects(Tagged(0, false, tag), bracketed, p, false, test);
    ItemSelects(Tagged(0, true, tag), "~" + bracketed, p, true, test);
    var worded := "[" + ("exclude:" + tag) + "]";
    assert "" + "" + worded == worded;
    ItemSelects(Tagged(0, false, "exclude:" + tag), worded, p, true, test);
    assert "" + "" + ("exclude:" + bracketed) == "exclude:" + bracketed;
    ItemSelects(WordTagged(0, false, tag), "exclude:" + bracketed, p, true, test);
  }

  lemma TagMatches(tag: string, test: TestCase)
    ensures Matches(TagPattern(ToLower(tag)), test) <==> exists t <- test.tags :: SameText(t, tag)
  {
    hide ToLower, SameText;
    forall t | t in test.tags
      ensures ToLower(t) == ToLower(tag) <==> SameText(t, tag)
    {
      LowerSame(t, tag);
    }
  }

  lemma {:induction false} GoodItems(items: seq<Item>)
    requires GoodFilter(items)
    ensures forall i <- items :: GoodItem(i)
  {
    if items != [] {
      GoodItems(items[1..]);
      assert items == [items[0]] + items[1..];
    }
  }

  /** A test is selected exactly if some filter has only items that select it. */
  lemma RenderedSelects(filters: seq<seq<Item>>, test: TestCase)
    requires forall f <- filters :: f != [] && GoodFilter(f)
    ensures Selected(ParseSpec(RenderSpec(filters)), test) <==>
              exists f <- filters :: forall i <- f :: Selected(ParseSpec(RenderItem(i)), test)
  {
    hide Matches, ParseSpec, GoodFilter, GoodItem, RenderItem, PatternOf, RenderSpec;
    RenderRoundTrip(filters);
    forall f <- filters
      ensures (forall i <- f :: Selected(ParseSpec(RenderItem(i)), test))
              <==> (forall p <- FilterOf(f) :: Matches(p, test))
    {
      FilterSelects(f, test);
    }
    SpecHas(filters);
  }

  lemma FilterSelects(items: seq<Item>, test: TestCase)
    requires GoodFilter(items)
    ensures (forall i <- items :: Selected(ParseSpec(RenderItem(i)), test))
            <==> (forall p <- FilterOf(items) :: Matches(p, test))
  {
    hide Matches, ParseSpec, GoodFilter, GoodItem, RenderItem, PatternOf, Selected;
    GoodItems(items);
    forall i <- items
      ensures Selected(ParseSpec(RenderItem(i)), test) <==> Matches(PatternOf(i), test)
      ensures PatternOf(i) in FilterOf(items)
    {
      OneItem(i, test);
      var k :| 0 <= k < |items| && items[k] == i;
      assert FilterOf(items)[k] == PatternOf(i);
    }
    forall p <- FilterOf(items)
      ensures exists i <- items :: p == PatternOf(i)
    {
      var k :| 0 <= k < |items| && FilterOf(items)[k] == p;
      assert items[k] in items;
    }
  }

  lemma SpecHas(filters: seq<seq<Item>>)
    ensures forall f <- filters :: FilterOf(f) in SpecOf(filters)
    ensures forall g <- SpecOf(filters) :: exists f <- filters :: g == FilterOf(f)
  {
    hide FilterOf;
    forall f <- filters
      ensures FilterOf(f) in SpecOf(filters)
    {
      var k :| 0 <= k < |filters| && filters[k] == f;
      assert SpecOf(filters)[k] == FilterOf(f);
    }
    forall g <- SpecOf(filters)
      ensures exists f <- filters :: g == FilterOf(f)
    {
      var k :| 0 <= k < |filters| && SpecOf(filters)[k] == g;
      assert filters[k] in filters;
    }
  }
}
