/** `Util::parseCommand`: splitting a command into an argument vector, and the
    display string that `Process::run` makes of it in the child. */
module CommandLine {
  import opened Basics

  function Join(args: seq<string>): string {
    if args == [] then "" else if |args| == 1 then args[0] else args[0] + " " + Join(args[1..])
  }

  /** Inside quotes after `s`, having started outside. */
  predicate InQuote(s: string) {
    s != "" && (if s[|s| - 1] == '"' then !InQuote(s[..|s| - 1]) else InQuote(s[..|s| - 1]))
  }

  /** `s` contains a space outside quotes. */
  predicate HasBreak(s: string) {
    s != "" && (HasBreak(s[..|s| - 1]) || (s[|s| - 1] == ' ' && !InQuote(s[..|s| - 1])))
  }

  /** The part of an argument the scanner looks at. After a separator it steps
      over one character unseen, so only the first argument is seen whole. */
  function Seen(first: bool, arg: string): string {
    if first || arg == "" then arg else arg[1..]
  }

  /** An argument that the next space ends. */
  predicate Closed(first: bool, arg: string) {
    && !HasBreak(Seen(first, arg)) && !InQuote(Seen(first, arg))
    && (first || arg != "")
  }

  /** The argument lists the scanner can produce from a non-empty command. */
  predicate GoodList(first: bool, args: seq<string>) {
    && args != []
    && (forall i {:trigger args[i]} :: 0 <= i < |args| - 1 ==> Closed(first && i == 0, args[i]))
    && !HasBreak(Seen(first && |args| == 1, args[|args| - 1]))
  }

  predicate Producible(args: seq<string>) {
    args == [] || (GoodList(true, args) && args != [""])
  }

  lemma {:induction false} JoinSnoc(args: seq<string>, last: string)
    ensures Join(args + [last]) == if args == [] then last else Join(args) + " " + last
  {
    if |args| > 1 {
      JoinSnoc(args[1..], last);
      assert (args + [last])[1..] == args[1..] + [last];
    }
  }

  lemma {:induction false} BreakInPrefix(s: string, k: nat)
    requires k < |s| && s[k] == ' ' && !InQuote(s[..k])
    ensures HasBreak(s)
  {
    if k < |s| - 1 {
      assert s[..|s| - 1][..k] == s[..k];
      BreakInPrefix(s[..|s| - 1], k);
    }
  }

  lemma JoinHead(args: seq<string>)
    requires args != []
    ensures Join(args) == args[0] + (if |args| == 1 then "" else " " + Join(args[1..]))
  {}

  lemma GoodFirst(first: bool, args: seq<string>)
    requires GoodList(first, args)
    ensures args != []
    ensures |args| > 1 ==> Closed(first, args[0]) && GoodList(false, args[1..])
    ensures !HasBreak(Seen(first, args[0]))
  {}

  /** A separator right after `prefix` is seen in any argument that goes past it. */
  lemma LongerSeesBreak(first: bool, prefix: string, arg: string)
    requires Closed(first, prefix)
    requires |prefix| < |arg| && arg[..|prefix|] == prefix && arg[|prefix|] == ' '
    ensures HasBreak(Seen(first, arg))
  {
    var seen := Seen(first, arg);
    var k := |Seen(first, prefix)|;
    assert seen[..k] == Seen(first, prefix);
    BreakInPrefix(seen, k);
  }

  /** A good list cannot start with a longer argument than another good list
      with the same text: the shorter one ends at a break that the longer sees. */
  lemma FirstNotLonger(first: bool, a: seq<string>, b: seq<string>)
    requires GoodList(first, a) && GoodList(first, b) && Join(a) == Join(b)
    ensures |b[0]| <= |a[0]|
  {
    hide Join, GoodList, Closed, HasBreak;
    GoodFirst(first, a);
    GoodFirst(first, b);
    JoinHead(a);
    JoinHead(b);
    if |a[0]| < |b[0]| {
      var k := |a[0]|;
      assert b[0] == Join(a)[..|b[0]|];
      assert b[0][..k] == Join(a)[..k] == a[0];
      assert b[0][k] == Join(a)[k] == ' ';
      LongerSeesBreak(first, a[0], b[0]);
    }
  }

  lemma {:induction false} GoodListUnique(first: bool, a: seq<string>, b: seq<string>)
    requires GoodList(first, a) && GoodList(first, b) && Join(a) == Join(b)
    ensures a == b
    decreases |a|
  {
    hide Join, GoodList, Closed, HasBreak;
    GoodFirst(first, a);
    GoodFirst(first, b);
    FirstNotLonger(first, a, b);
    FirstNotLonger(first, b, a);
    JoinHead(a);
    JoinHead(b);
    var k := |a[0]|;
    assert a[0] == Join(a)[..k] == b[0];
    if |a| > 1 && |b| > 1 {
      assert Join(a[1..]) == Join(a)[k + 1..] == Join(b[1..]);
      GoodListUnique(false, a[1..], b[1..]);
      assert a == [a[0]] + a[1..] && b == [b[0]] + b[1..];
    } else {
      assert a == [a[0]] && b == [b[0]];
    }
  }

  lemma JoinEmpty(args: seq<string>)
    requires Producible(args)
    ensures Join(args) == "" <==> args == []
  {
    if args != [] {
      assert |args| > 1 ==> |Join(args)| > 0;
    }
  }

  /** Joining is injective on the lists the scanner can produce. */
  lemma SplitUnique(a: seq<string>, b: seq<string>)
    requires Producible(a) && Producible(b) && Join(a) == Join(b)
    ensures a == b
  {
    JoinEmpty(a);
    JoinEmpty(b);
    if a != [] {
      GoodListUnique(true, a, b);
    }
  }

  /** Where the inspected part of the current argument begins. */
  function From(args: seq<string>, position: nat): nat {
    if args == [] then 0 else position + 1
  }

  /** Everything before `position` is split off, and what was inspected from there
      on holds no separator. Nothing is left to inspect after a final separator. */
  ghost predicate Scanning(command: string, args: seq<string>, position: nat, tmppos: nat, inQuote: bool) {
    && position <= |command|
    && (if args == [] then position == 0 else Join(args) + " " == command[..position])
    && (forall i {:trigger args[i]} :: 0 <= i < |args| ==> Closed(i == 0, args[i]))
    && if args != [] && position == |command| then tmppos == 1
       else
         && From(args, position) <= position + tmppos <= |command|
         && !HasBreak(command[From(args, position)..position + tmppos])
         && inQuote == InQuote(command[From(args, position)..position + tmppos])
  }

  lemma ScanStart(command: string)
    ensures Scanning(command, [], 0, 0, false)
    ensures command == "" ==> Join([]) == command && Producible([])
  {}

  lemma ScanOne(command: string, from: nat, p: nat)
    requires from <= p < |command|
    ensures var seen, seen' := command[from..p], command[from..p + 1];
            && InQuote(seen') == (if command[p] == '"' then !InQuote(seen) else InQuote(seen))
            && HasBreak(seen') == (HasBreak(seen) || (command[p] == ' ' && !InQuote(seen)))
  {
    assert command[from..p + 1][..p - from] == command[from..p];
  }

  /** A character that ends no argument: the quotes it leaves open. */
  lemma ScanOn(command: string, args: seq<string>, position: nat, tmppos: nat, inQuote: bool)
    requires Scanning(command, args, position, tmppos, inQuote) && position + tmppos < |command|
    requires command[position + tmppos] == ' ' ==> inQuote
    ensures Scanning(command, args, position, tmppos + 1, (command[position + tmppos] == '"') != inQuote)
  {
    hide InQuote, HasBreak, Join, Closed;
    ScanOne(command, From(args, position), position + tmppos);
  }

  /** A space outside quotes: the argument before it is complete. */
  lemma ScanSpace(command: string, args: seq<string>, position: nat, tmppos: nat)
    requires Scanning(command, args, position, tmppos, false) && position + tmppos < |command|
    requires command[position + tmppos] == ' '
    ensures Scanning(command, args + [command[position..position + tmppos]], position + tmppos + 1, 1, false)
  {
    hide InQuote, HasBreak, Join;
    var arg := command[position..position + tmppos];
    var position' := position + tmppos + 1;
    assert Seen(args == [], arg) == command[From(args, position)..position + tmppos];
    assert Closed(args == [], arg);
    hide Closed;
    JoinSnoc(args, arg);
    assert command[..position'] == command[..position] + arg + " ";
    ScanFresh(command, args + [arg], position');
  }

  /** Nothing is inspected yet of the argument that begins at `position`. */
  lemma ScanFresh(command: string, args: seq<string>, position: nat)
    requires position <= |command| && args != [] && Join(args) + " " == command[..position]
    requires forall i {:trigger args[i]} :: 0 <= i < |args| ==> Closed(i == 0, args[i])
    ensures Scanning(command, args, position, 1, false)
  {
    hide Join, Closed;
    assert position < |command| ==> command[position + 1..position + 1] == "";
  }

  /** At the end of the command: the rest is the last argument. */
  lemma ScanEnd(command: string, args: seq<string>, position: nat, tmppos: nat, inQuote: bool)
    requires Scanning(command, args, position, tmppos, inQuote)
    requires position + tmppos >= |command| && command != ""
    ensures Join(args + [command[position..]]) == command
    ensures Producible(args + [command[position..]])
  {
    var rest := command[position..];
    assert Join(args + [rest]) == command by {
      JoinSnoc(args, rest);
      assert command == command[..position] + rest;
    }
    assert !HasBreak(Seen(args == [], rest)) by {
      assert rest != "" ==> Seen(args == [], rest) == command[From(args, position)..position + tmppos];
    }
    hide Closed, Join, HasBreak;
    assert (args + [rest])[|args|] == rest;
  }

  /** Joined by single spaces the arguments give the command back, and no other
      producible list does: Split(Join(a)) is a exactly when a is producible. */
  method Split(command: string) returns (args: seq<string>)
    ensures Join(args) == command
    ensures Producible(args)
    ensures forall a :: Producible(a) && Join(a) == command ==> args == a
  {
    hide Join, Producible, Scanning;
    ScanStart(command);
    var position, tmppos := 0, 0;
    var inQuote := false;
    args := [];
    while position < |command|
      invariant Scanning(command, args, position, tmppos, inQuote)
      invariant if command == "" then args == [] && position == 0 else position + tmppos < |command|
      decreases |command| - position, |command| - tmppos
    {
      match command[position + tmppos] {
        case '"' =>
          ScanOn(command, args, position, tmppos, inQuote);
          inQuote := !inQuote;
        case ' ' =>
          if inQuote {
            ScanOn(command, args, position, tmppos, inQuote);
          } else {
            ScanSpace(command, args, position, tmppos);
            args := args + [command[position..position + tmppos]];
            position := position + tmppos + 1;
            tmppos := 0;
          }
        case _ =>
          ScanOn(command, args, position, tmppos, inQuote);
      }
      tmppos := tmppos + 1;
      if position + tmppos >= |command| {
        ScanEnd(command, args, position, tmppos, inQuote);
        args := args + [command[position..]];
        break;
      }
    }
    forall a | Producible(a) && Join(a) == command
      ensures args == a
    {
      SplitUnique(args, a);
    }
  }

  // ----- The NULL-terminated vector -----

  /** What strcpy copies: everything before the first NUL. */
  function UpToNul(s: string): (r: string)
    ensures '\0' !in s ==> r == s
    ensures '\0' !in r && r <= s && (r == s || s[|r|] == '\0')
  {
    if s == "" || s[0] == '\0' then "" else [s[0]] + UpToNul(s[1..])
  }

  /** The arguments in order, as C strings, followed by one NULL. */
  function Argv(args: seq<string>): (r: seq<Option<string>>) {
    seq(|args| + 1, i requires 0 <= i <= |args| => if i < |args| then Some(UpToNul(args[i])) else None)
  }

  /** One C string for every argument, the first included, each cut at its first
      NUL if it has one, and one NULL behind them. */
  predicate CStrings(vector: seq<Option<string>>, args: seq<string>) {
    && |vector| == |args| + 1
    && vector[|args|] == None
    && forall k {:trigger vector[k]} :: 0 <= k < |args| ==>
         && vector[k].Some? && vector[k].value <= args[k] && '\0' !in vector[k].value
         && (vector[k].value == args[k] || args[k][|vector[k].value|] == '\0')
  }

  /** The entries before the NULL. */
  function Texts(vector: seq<Option<string>>): (r: seq<string>)
    requires vector != []
  {
    seq(|vector| - 1, k requires 0 <= k < |vector| - 1 => if vector[k].Some? then vector[k].value else "")
  }

  lemma ArgvIsCStrings(args: seq<string>)
    ensures CStrings(Argv(args), args)
  {}

  lemma {:induction false} JoinKeepsCharacters(args: seq<string>, k: nat, c: char)
    requires k < |args| && c in args[k]
    ensures c in Join(args)
  {
    JoinHead(args);
    if k > 0 {
      JoinKeepsCharacters(args[1..], k - 1, c);
    }
  }

  lemma NoNulInside(args: seq<string>)
    requires '\0' !in Join(args)
    ensures forall a <- args :: '\0' !in a
  {
    forall a <- args
      ensures '\0' !in a
    {
      var k :| 0 <= k < |args| && args[k] == a;
      if '\0' in a {
        JoinKeepsCharacters(args, k, '\0');
      }
    }
  }

  /** Without a NUL in the command its arguments are the entries themselves. */
  lemma TextsAreArguments(vector: seq<Option<string>>, args: seq<string>)
    requires CStrings(vector, args) && '\0' !in Join(args)
    ensures Texts(vector) == args
  {
    hide Join;
    NoNulInside(args);
    forall k | 0 <= k < |args|
      ensures Texts(vector)[k] == args[k]
    {
      assert args[k] in args;
      assert vector[k].Some?;
    }
  }

  method ParseCommand(command: string) returns (newCommand: array<Option<string>>)
    ensures fresh(newCommand) && newCommand.Length > 0
    ensures exists args ::
              && Join(args) == command && Producible(args)
              && CStrings(newCommand[..], args) && newCommand[..] == Argv(args)
    ensures '\0' !in command ==> Join(Texts(newCommand[..])) == command
  {
    hide Join, Producible, UpToNul, CStrings, Texts;
    var args := Split(command);
    newCommand := new Option<string>[|args| + 1](_ => None);
    var i := 0;
    for n := 0 to |args|
      invariant i == n
      invariant forall k :: 0 <= k < n ==> newCommand[k] == Some(UpToNul(args[k]))
    {
      newCommand[i] := Some(UpToNul(args[n]));
      i := i + 1;
    }
    newCommand[i] := None;
    assert newCommand[..] == Argv(args);
    ArgvIsCStrings(args);
    if '\0' !in command {
      TextsAreArguments(newCommand[..], args);
    }
  }

  // ----- The display string -----

  function Display(args: seq<string>): string {
    if args == [] then "" else Display(args[..|args| - 1]) + args[|args| - 1] + " "
  }

  /** strcat on a buffer whose string ends at `end`; returns the new end. */
  method Strcat(buffer: array<char>, ghost end: nat, s: string) returns (end': nat)
    requires end + |s| < buffer.Length
    requires buffer[end] == '\0' && '\0' !in buffer[..end] && '\0' !in s
    modifies buffer
    ensures end' == end + |s|
    ensures buffer[..end'] == old(buffer[..end]) + s && buffer[end'] == '\0'
  {
    var p := 0;
    while buffer[p] != '\0'
      invariant p <= end
      decreases end - p
    {
      p := p + 1;
    }
    assert p == end;
    for k := 0 to |s|
      invariant buffer[..end + k] == old(buffer[..end]) + s[..k]
    {
      buffer[p + k] := s[k];
      assert buffer[..end + k + 1] == buffer[..end + k] + [s[k]];
      assert s[..k + 1] == s[..k] + [s[k]];
    }
    end' := p + |s|;
    buffer[end'] := '\0';
    assert s[..|s|] == s;
  }

  /** The arguments after the first, as C strings. */
  function Shown(args: seq<string>): (r: seq<string>) {
    if args == [] then [] else seq(|args| - 1, i requires 0 <= i < |args| - 1 => UpToNul(args[i + 1]))
  }

  /** Behind the first argument the display string is the rest of the command, with
      a space at its end. */
  lemma {:induction false} DisplayTail(words: seq<string>)
    requires words != []
    ensures Join(words) + " " == Display(words)
  {
    var n := |words| - 1;
    var init := words[..n];
    assert words == init + [words[n]];
    JoinSnoc(init, words[n]);
    if n > 0 {
      DisplayTail(init);
    } else {
      assert "" + words[0] == words[0];
    }
  }

  lemma DisplayIsCommand(args: seq<string>)
    requires args != [] && '\0' !in Join(args)
    ensures args[0] + " " + Display(Shown(args)) == Join(args) + " "
  {
    NoNulInside(args);
    assert Shown(args) == args[1..] by {
      assert forall k :: 0 < k < |args| ==> args[k] in args;
    }
    hide Join, Display, Shown;
    JoinHead(args);
    if |args| > 1 {
      DisplayTail(args[1..]);
      assert args[0] + " " + (Join(args[1..]) + " ") == args[0] + (" " + Join(args[1..])) + " ";
    } else {
      DisplayNothing();
      assert args[0] + "" == args[0];
    }
  }

  lemma DisplayNothing()
    ensures Display([]) == ""
  {}

  /** What a NULL-terminated vector holds from index 1 on. */
  predicate Holds(command: seq<Option<string>>, words: seq<string>) {
    && |command| == |words| + 2
    && command[|words| + 1] == None
    && (forall k {:trigger command[k]} :: 1 <= k <= |words| ==>
          command[k] == Some(words[k - 1]) && '\0' !in words[k - 1])
  }

  lemma ArgvHolds(args: seq<string>)
    requires args != []
    ensures Holds(Argv(args), Shown(args))
  {}

  method MeasureArguments(command: array<Option<string>>, ghost words: seq<string>) returns (size: nat)
    requires Holds(command[..], words)
    ensures size == |Display(words)|
  {
    size := 0;
    var i := 1;
    while command[i] != None
      invariant 1 <= i <= |words| + 1
      invariant size == |Display(words[..i - 1])|
      decreases |words| - i
    {
      assert command[..][i] == Some(words[i - 1]);
      assert words[..i][..i - 1] == words[..i - 1];
      size := size + |command[i].value| + 1;
      i := i + 1;
    }
    assert command[..][i] == None;
    assert words[..i - 1] == words;
  }

  method FillArguments(command: array<Option<string>>, text: array<char>, ghost words: seq<string>)
    requires Holds(command[..], words)
    requires text.Length == |Display(words)| + 1 && text[0] == '\0'
    modifies text
    ensures text[..] == Display(words) + ['\0']
  {
    var end, i2 := 0, 1;
    while command[i2] != None
      invariant 1 <= i2 <= |words| + 1
      invariant end == |Display(words[..i2 - 1])| && end < text.Length
      invariant text[..end] == Display(words[..i2 - 1]) && text[end] == '\0'
      invariant '\0' !in text[..end]
      decreases |words| - i2
    {
      assert command[..][i2] == Some(words[i2 - 1]);
      assert words[..i2][..i2 - 1] == words[..i2 - 1];
      DisplayGrows(words, i2);
      end := Strcat(text, end, command[i2].value);
      end := Strcat(text, end, " ");
      i2 := i2 + 1;
    }
    assert command[..][i2] == None;
    assert words[..i2 - 1] == words;
    assert text[..] == text[..end] + [text[end]];
  }

  /** The two loops of `run`: measure the arguments after the first, then append
      each with a space. The buffer is filled exactly: every write is within it,
      and its text and the final NUL take all of it. Both loops begin at index 1,
      which lies outside the vector of an empty command; `None` stands for the
      read past its end. */
  method DisplayArguments(command: array<Option<string>>, ghost args: seq<string>)
    returns (text: Option<array<char>>)
    requires command[..] == Argv(args)
    ensures text.None? <==> args == []
    ensures Producible(args) ==> (text.None? <==> Join(args) == "")
    ensures text.Some? ==> fresh(text.value) && text.value[..] == Display(Shown(args)) + ['\0']
  {
    if Producible(args) {
      JoinEmpty(args);
    }
    hide Producible;
    assert |command[..]| == |args| + 1;
    if 1 >= command.Length {
      return None;
    }
    ArgvHolds(args);
    var size := MeasureArguments(command, Shown(args));
    var args_string := new char[size + 1](_ => ' ');
    args_string[0] := '\0';
    FillArguments(command, args_string, Shown(args));
    text := Some(args_string);
  }

  lemma {:induction false} DisplayGrows(words: seq<string>, k: nat)
    requires k <= |words|
    ensures |Display(words[..k])| <= |Display(words)|
  {
    if k < |words| {
      assert words[..|words| - 1][..k] == words[..k];
      DisplayGrows(words[..|words| - 1], k);
    } else {
      assert words[..k] == words;
    }
  }

  // ----- Quotes -----

  /** An argument as a scanner that looks at every character would split it off:
      its quotes are balanced and its spaces are inside them. */
  predicate WellQuoted(arg: string) {
    arg != "" && !HasBreak(arg) && !InQuote(arg)
  }

  /** What leaving out the first character does. After an opening quote inside
      and outside change places. */
  lemma {:induction false} DropFirst(arg: string)
    requires arg != ""
    ensures InQuote(arg) <==> (arg[0] == '"') != InQuote(arg[1..])
    ensures if arg[0] == '"' then ' ' in arg <==> HasBreak(arg) || HasBreak(arg[1..])
            else HasBreak(arg) <==> arg[0] == ' ' || HasBreak(arg[1..])
  {
    var init := arg[..|arg| - 1];
    if init == "" {
      assert arg == [arg[0]];
    } else {
      DropFirst(init);
      assert arg[1..][..|arg[1..]| - 1] == init[1..];
      assert arg == init + [arg[|arg| - 1]];
    }
  }

  predicate StartsWithQuote(arg: string) {
    arg != "" && arg[0] == '"'
  }

  lemma SeenOfWellQuoted(first: bool, arg: string)
    requires WellQuoted(arg)
    ensures Closed(first, arg) <==> first || !StartsWithQuote(arg)
    ensures HasBreak(Seen(first, arg)) <==> !first && StartsWithQuote(arg) && ' ' in arg
  {
    DropFirst(arg);
  }

  /** Exactly which well-quoted lists survive being joined and split: after the
      first argument an opening quote may come first in the last argument only,
      and does not protect a space there either. */
  lemma QuotesKept(args: seq<string>)
    requires forall a <- args :: WellQuoted(a)
    ensures Producible(args) <==>
              forall i {:trigger args[i]} :: 0 < i < |args| && StartsWithQuote(args[i]) ==>
                i == |args| - 1 && ' ' !in args[i]
  {
    hide Closed, HasBreak, InQuote, Seen, StartsWithQuote;
    forall i {:trigger args[i]} | 0 <= i < |args|
      ensures args[i] != ""
      ensures Closed(i == 0, args[i]) <==> i == 0 || !StartsWithQuote(args[i])
      ensures HasBreak(Seen(i == 0, args[i])) <==> i > 0 && StartsWithQuote(args[i]) && ' ' in args[i]
    {
      SeenOfWellQuoted(i == 0, args[i]);
    }
  }

  predicate Plain(arg: string) {
    arg != "" && '"' !in arg && ' ' !in arg
  }

  /** `"..."` around a text without quotes. */
  predicate FullyQuoted(arg: string) {
    && |arg| >= 2 && arg[0] == '"' && arg[|arg| - 1] == '"'
    && '"' !in arg[1..|arg| - 1]
  }

  lemma {:induction false} NoQuotes(s: string)
    requires '"' !in s
    ensures !InQuote(s) && (HasBreak(s) <==> ' ' in s)
  {
    if s != "" {
      NoQuotes(s[..|s| - 1]);
      assert s == s[..|s| - 1] + [s[|s| - 1]];
    }
  }

  /** The part of `"..."` that the scanner sees of it as a later argument. */
  lemma AfterOpeningQuote(arg: string)
    requires FullyQuoted(arg)
    ensures InQuote(arg[1..]) && (HasBreak(arg[1..]) <==> ' ' in arg)
    ensures WellQuoted(arg)
  {
    var inner, rest := arg[1..|arg| - 1], arg[1..];
    assert rest[..|rest| - 1] == inner && arg == ['"'] + inner + ['"'];
    NoQuotes(inner);
    var open := arg[..|arg| - 1];
    assert open[1..] == inner;
    DropFirst(open);
    DropFirst(arg);
    if HasBreak(open) {
      QuotedHasNoBreak(open);
    }
  }

  /** Nothing after a single opening quote is outside quotes. */
  lemma {:induction false} QuotedHasNoBreak(s: string)
    requires s != "" && s[0] == '"' && '"' !in s[1..]
    ensures InQuote(s) && !HasBreak(s)
  {
    var init := s[..|s| - 1];
    if init == "" {
      assert !InQuote(init) && !HasBreak(init);
    } else {
      assert init[1..] <= s[1..];
      assert s[1..][|s| - 2] == s[|s| - 1];
      QuotedHasNoBreak(init);
    }
  }

  lemma PlainIsWellQuoted(arg: string)
    requires Plain(arg)
    ensures WellQuoted(arg)
  {
    NoQuotes(arg);
  }

  /** The two usual kinds of argument: a list of plain and fully quoted ones
      survives exactly if every quoted one after the first argument is the last
      argument and holds no space. */
  lemma PlainOrQuotedKept(args: seq<string>)
    requires forall a <- args :: Plain(a) || FullyQuoted(a)
    ensures Producible(args) <==>
              forall i {:trigger args[i]} :: 0 < i < |args| && FullyQuoted(args[i]) ==>
                i == |args| - 1 && ' ' !in args[i]
  {
    hide Producible, HasBreak, InQuote;
    forall a <- args
      ensures WellQuoted(a) && (FullyQuoted(a) <==> StartsWithQuote(a))
    {
      if FullyQuoted(a) {
        AfterOpeningQuote(a);
      } else {
        PlainIsWellQuoted(a);
      }
    }
    hide WellQuoted, FullyQuoted, Plain;
    QuotesKept(args);
  }

  /** Whatever stands around it, `"..."` is never one later argument if it holds
      a space or another argument follows. */
  lemma LaterQuotedArgumentIsSplit(args: seq<string>, i: nat)
    requires 0 < i < |args| && FullyQuoted(args[i])
    requires ' ' in args[i] || i < |args| - 1
    ensures !Producible(args)
  {
    AfterOpeningQuote(args[i]);
  }

  /** What is seen of `"p" "q"` without its first quote: the space is inside quotes. */
  lemma PairUnbroken(p: string, q: string)
    requires Plain(p) && Plain(q)
    ensures !HasBreak(p + "\" \"" + q + "\"")
  {
    hide HasBreak, InQuote;
    NoQuotes(p);
    OneMore(p, '"');
    OneMore(p + "\"", ' ');
    OneMore(p + "\" ", '"');
    assert p + "\"" + " " == p + "\" " && p + "\" " + "\"" == p + "\" \"";
    NoBreakBefore(p + "\" \"", q);
    OneMore(p + "\" \"" + q, '"');
  }

  /** `cmd "p" "q"` makes one argument of the two quoted ones, quotes, space and
      all: the quote that closes the first is the first one seen. */
  lemma QuotedPairMerges(cmd: string, p: string, q: string)
    requires Plain(cmd) && Plain(p) && Plain(q)
    ensures var merged, apart := [cmd, "\"" + p + "\" \"" + q + "\""], [cmd, "\"" + p + "\"", "\"" + q + "\""];
            Join(merged) == Join(apart) && Producible(merged) && !Producible(apart)
  {
    var first, second := "\"" + p + "\"", "\"" + q + "\"";
    assert first[1..|first| - 1] == p;
    LaterQuotedArgumentIsSplit([cmd, first, second], 1);
    PlainIsWellQuoted(cmd);
    var merged := "\"" + p + "\" \"" + q + "\"";
    assert merged == first + " " + second;
    var seen := Seen(false, merged);
    assert seen == p + "\" \"" + q + "\"";
    PairUnbroken(p, q);
    JoinThree(cmd, first, second);
    assert Closed(true, cmd) && GoodList(true, [cmd, merged]);
  }

  /** The last two of three arguments, joined as one. */
  lemma JoinThree(a: string, b: string, c: string)
    ensures Join([a, b, c]) == Join([a, b + " " + c])
  {
    var whole, pair, merged := [a, b, c], [b, c], [a, b + " " + c];
    assert whole[1..] == pair && pair[1..] == [c] && merged[1..] == [b + " " + c];
    hide Join;
    JoinHead(whole);
    JoinHead(pair);
    JoinHead([c]);
    JoinHead(merged);
    JoinHead([b + " " + c]);
    assert b + " " + c == b + (" " + c);
  }

  lemma OneMore(s: string, c: char)
    ensures InQuote(s + [c]) == (if c == '"' then !InQuote(s) else InQuote(s))
    ensures HasBreak(s + [c]) == (HasBreak(s) || (c == ' ' && !InQuote(s)))
  {
    assert (s + [c])[..|s|] == s;
  }

  /** A plain text adds no break and no quote. */
  lemma {:induction false} NoBreakBefore(s: string, q: string)
    requires '"' !in q && ' ' !in q
    ensures HasBreak(s + q) <==> HasBreak(s)
  {
    if q == "" {
      assert s + q == s;
    } else {
      assert (s + q)[..|s + q| - 1] == s + q[..|q| - 1];
      assert (s + q)[|s + q| - 1] == q[|q| - 1];
      NoBreakBefore(s, q[..|q| - 1]);
    }
  }

  /** A later argument keeps its space if the quote is not its first character. */
  lemma InnerQuoteKept()
    ensures Producible(["cmd", "x\"a b\"", "y"])
  {
    var arg := "x\"a b\"";
    assert FullyQuoted(arg[1..]);
    AfterOpeningQuote(arg[1..]);
    DropFirst(arg);
    PlainIsWellQuoted("cmd");
    PlainIsWellQuoted("y");
    QuotesKept(["cmd", arg, "y"]);
  }
}
