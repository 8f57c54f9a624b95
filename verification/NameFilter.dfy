/** File-name filters: `Util::strMatch` and the admission test that the
    configuration applies to every filter before the watcher uses it. */
module NameFilter {

  /** One more than the largest size_t; `size_t(-1)` is NPOS. */
  const SIZE_RANGE := 0x1_0000_0000_0000_0000
  const NPOS := SIZE_RANGE - 1

  /** std::string::substr; a start position past the end would throw. */
  function Substr(s: string, pos: nat, count: nat): (r: string)
    requires pos <= |s|
    ensures |r| <= count
  {
    if count < |s| - pos then s[pos..pos + count] else s[pos..]
  }

  /** size_t addition of 1, which wraps. */
  function Plus1(n: nat): (r: nat)
    requires n < SIZE_RANGE
    ensures r == if n == NPOS then 0 else n + 1
  {
    (n + 1) % SIZE_RANGE
  }

  function Stars(s: string): nat {
    if s == "" then 0 else (if s[0] == '*' then 1 else 0) + Stars(s[1..])
  }

  lemma {:induction false} StarsConcat(s: string, t: string)
    ensures Stars(s + t) == Stars(s) + Stars(t)
  {
    if s == "" {
      assert s + t == t;
    } else {
      assert (s + t)[1..] == s[1..] + t;
      StarsConcat(s[1..], t);
    }
  }

  predicate StartsWith(s: string, p: string) {
    |p| <= |s| && s[..|p|] == p
  }

  predicate EndsWith(s: string, p: string) {
    |p| <= |s| && s[|s| - |p|..] == p
  }

  /** What a filter accepts, with the part before and the part after its last star. */
  predicate Accepts(filter: string, name: string) {
    && filter != "" && name != "" && |filter| <= |name|
    && if '*' in filter then exists a | 0 <= a < |filter| :: IsLastStar(filter, a) && Around(filter, a, name)
       else StartsWith(name, filter) && EndsWith(name, filter)
  }

  predicate Around(filter: string, a: nat, name: string)
    requires a < |filter|
  {
    StartsWith(name, filter[..a]) && EndsWith(name, filter[a + 1..])
  }

  predicate IsLastStar(filter: string, a: int) {
    0 <= a < |filter| && filter[a] == '*' && '*' !in filter[a + 1..]
  }

  lemma LastStarUnique(s: string, a: int, b: int)
    requires IsLastStar(s, a) && IsLastStar(s, b)
    ensures a == b
  {}

  lemma AcceptsAt(filter: string, a: int, name: string)
    requires IsLastStar(filter, a)
    ensures Accepts(filter, name) <==> |filter| <= |name| && Around(filter, a, name)
  {
    if Accepts(filter, name) {
      var b :| IsLastStar(filter, b) && Around(filter, b, name);
      LastStarUnique(filter, a, b);
    }
  }

  /** The last star; the wrapped maximum stands for none. */
  method FindAsterisk(expression: string) returns (asterisk: nat)
    requires |expression| < NPOS
    ensures if asterisk == NPOS then '*' !in expression else IsLastStar(expression, asterisk)
    ensures asterisk <= NPOS
  {
    asterisk := NPOS;
    for i := 0 to |expression|
      invariant if asterisk == NPOS then '*' !in expression[..i]
                else asterisk < i && expression[asterisk] == '*' && '*' !in expression[asterisk + 1..i]
    {
      if expression[i] == '*' {
        asterisk := i;
      }
    }
  }

  lemma AcceptsWhole(filter: string, name: string)
    requires filter != "" && |filter| <= |name| && '*' !in filter
    ensures Accepts(filter, name) <==> StartsWith(name, filter) && EndsWith(name, filter)
  {}

  lemma AcceptsNothing(filter: string, name: string)
    requires filter == "" || name == "" || |filter| > |name|
    ensures !Accepts(filter, name)
  {}

  method StrMatch(expression: string, str: string) returns (r: bool)
    requires |expression| < NPOS && |str| < NPOS
    ensures r == Accepts(expression, str)
  {
    if |expression| == 0 || |str| == 0 || |expression| > |str| {
      AcceptsNothing(expression, str);
    }
    if |expression| == 0 || |str| == 0 {
      return false;
    }
    var lenstr, lensuffix := |str|, |expression|;
    if lensuffix > lenstr {
      return false;
    }
    hide Accepts;
    var asterisk := FindAsterisk(expression);
    var tmpstring := expression;
    if asterisk >= 0 {
      tmpstring := Substr(expression, Plus1(asterisk), NPOS);
    }
    var endsWith := Substr(str, |str| - |tmpstring|, NPOS) == tmpstring;
    var startsWith := true;
    if asterisk >= 0 {
      tmpstring := Substr(expression, 0, asterisk);
      startsWith := Substr(str, 0, |tmpstring|) == tmpstring;
    }
    r := startsWith && endsWith;
    if asterisk == NPOS {
      AcceptsWhole(expression, str);
    } else {
      AcceptsAt(expression, asterisk, str);
    }
  }

  // ----- Agreement with globs -----

  /** A recursive glob matcher in which a star stands for `least` or more characters. */
  predicate Glob(least: nat, filter: string, name: string) {
    if filter == "" then name == ""
    else if filter[0] == '*' then
      exists k :: least <= k <= |name| && Glob(least, filter[1..], name[k..])
    else name != "" && filter[0] == name[0] && Glob(least, filter[1..], name[1..])
  }

  lemma {:induction false} GlobLiteral(least: nat, filter: string, name: string)
    requires '*' !in filter
    ensures Glob(least, filter, name) <==> filter == name
  {
    if filter != "" && name != "" {
      GlobLiteral(least, filter[1..], name[1..]);
      assert filter == [filter[0]] + filter[1..] && name == [name[0]] + name[1..];
    }
  }

  /** One star at `a`: a prefix, a suffix, and at least `least` characters between. */
  lemma {:induction false} GlobOneStar(least: nat, filter: string, a: nat, name: string)
    requires a < |filter| && filter[a] == '*' && '*' !in filter[..a] && '*' !in filter[a + 1..]
    ensures Glob(least, filter, name) <==>
            |name| >= |filter| - 1 + least && Around(filter, a, name)
  {
    if a == 0 {
      GlobLeadingStar(least, filter, name);
    } else if name != "" {
      GlobOneStar(least, filter[1..], a - 1, name[1..]);
      AroundTail(filter, a, name);
    }
  }

  lemma GlobLeadingStar(least: nat, filter: string, name: string)
    requires filter != "" && filter[0] == '*' && '*' !in filter[1..]
    ensures Glob(least, filter, name) <==>
            |name| >= |filter| - 1 + least && Around(filter, 0, name)
  {
    var suffix := filter[1..];
    forall k | 0 <= k <= |name|
      ensures Glob(least, suffix, name[k..]) <==> suffix == name[k..]
    {
      GlobLiteral(least, suffix, name[k..]);
    }
    if |name| >= |suffix| + least && EndsWith(name, suffix) {
      var k := |name| - |suffix|;
      assert least <= k <= |name| && Glob(least, suffix, name[k..]);
    }
  }

  /** A first character in front of the star. */
  lemma AroundTail(filter: string, a: nat, name: string)
    requires 0 < a < |filter| && name != ""
    ensures |name| >= |filter| - 1 ==>
              (Around(filter, a, name) <==> filter[0] == name[0] && Around(filter[1..], a - 1, name[1..]))
  {
    var tail := filter[a + 1..];
    assert filter[1..][a - 1 + 1..] == tail;
    assert filter[..a] == [filter[0]] + filter[1..][..a - 1] && name == [name[0]] + name[1..];
    assert |name| > |tail| ==> EndsWith(name, tail) == EndsWith(name[1..], tail);
  }

  lemma {:induction false} StarsZero(s: string)
    ensures Stars(s) == 0 <==> '*' !in s
  {
    if s != "" {
      StarsZero(s[1..]);
      assert s == [s[0]] + s[1..];
    }
  }

  /** A filter with one star has it in exactly one place. */
  lemma TheStar(filter: string, a: nat)
    requires Stars(filter) == 1
    requires IsLastStar(filter, a)
    ensures '*' !in filter[..a]
  {
    assert filter == filter[..a] + ([filter[a]] + filter[a + 1..]);
    StarsConcat(filter[..a], [filter[a]] + filter[a + 1..]);
    StarsZero(filter[..a]);
  }

  lemma {:induction false} LastStarExists(s: string)
    requires '*' in s
    ensures exists a :: IsLastStar(s, a)
  {
    if s[|s| - 1] == '*' {
      assert IsLastStar(s, |s| - 1);
    } else {
      var init := s[..|s| - 1];
      assert s == init + [s[|s| - 1]];
      LastStarExists(init);
      var a :| IsLastStar(init, a);
      assert s[a + 1..] == init[a + 1..] + [s[|s| - 1]];
      assert IsLastStar(s, a);
    }
  }

  /** On every filter with exactly one star, strMatch is the glob in which the
      star stands for at least one character. */
  lemma OneStarIsGlob(filter: string, name: string)
    requires Stars(filter) == 1
    ensures Accepts(filter, name) <==> Glob(1, filter, name)
  {
    StarsZero(filter);
    LastStarExists(filter);
    var a :| IsLastStar(filter, a);
    TheStar(filter, a);
    GlobOneStar(1, filter, a, name);
    AcceptsAt(filter, a, name);
  }

  /** Against the usual glob, whose star may be empty: with one star the two
      differ on exactly one name, the filter with its star removed. */
  lemma OneStarAgainstShell(filter: string, a: nat, name: string)
    requires Stars(filter) == 1 && IsLastStar(filter, a)
    ensures Accepts(filter, name) != Glob(0, filter, name) <==> name == filter[..a] + filter[a + 1..]
  {
    OneStarIsGlob(filter, name);
    TheStar(filter, a);
    GlobOneStar(1, filter, a, name);
    GlobOneStar(0, filter, a, name);
    if |name| == |filter| - 1 && Around(filter, a, name) {
      assert name == name[..a] + name[a..];
    }
  }

  /** Without a star the usual glob is equality; strMatch agrees with it exactly
      when the filter is not empty and no longer name begins and ends with it. */
  lemma NoStarAgainstShell(filter: string, name: string)
    requires Stars(filter) == 0
    ensures Accepts(filter, name) != Glob(0, filter, name) <==>
            if filter == "" then name == ""
            else |name| > |filter| && StartsWith(name, filter) && EndsWith(name, filter)
  {
    StarsZero(filter);
    GlobLiteral(0, filter, name);
    assert |name| == |filter| ==> name[..|filter|] == name;
  }

  lemma LongerNameAccepted()
    ensures Accepts("aa", "aaa") && !Glob(0, "aa", "aaa")
  {
    NoStarAgainstShell("aa", "aaa");
  }

  // ----- Admission of configured filters -----

  predicate Admitted(filter: string) {
    Stars(filter) <= 1
  }

  /** No two places hold a star. */
  ghost predicate OneStarAtMost(s: string) {
    forall i, j :: 0 <= i < j < |s| ==> s[i] != '*' || s[j] != '*'
  }

  lemma {:induction false} AdmittedExactly(s: string)
    ensures Admitted(s) <==> OneStarAtMost(s)
  {
    if s != "" {
      var rest := s[1..];
      AdmittedExactly(rest);
      StarsZero(rest);
      assert forall i :: 0 <= i < |rest| ==> rest[i] == s[i + 1];
      if s[0] == '*' && '*' in rest {
        var j :| 0 <= j < |rest| && rest[j] == '*';
        assert s[0] == '*' && s[j + 1] == '*';
      } else if s[0] == '*' {
        assert forall j :: 0 < j < |s| ==> s[j] == rest[j - 1] && rest[j - 1] in rest;
      } else {
        assert forall i, j :: 0 < i < j < |s| ==> s[i] == rest[i - 1] && s[j] == rest[j - 1];
      }
    }
  }

  /** Admitted filters are those the match is right for. */
  lemma AcceptsAsGlob(filter: string, name: string)
    ensures Admitted(filter) ==>
              (Accepts(filter, name) <==>
                 if '*' in filter then Glob(1, filter, name)
                 else filter != "" && |filter| <= |name| && name[..|filter|] == filter
                      && name[|name| - |filter|..] == filter)
  {
    hide Glob;
    StarsZero(filter);
    if Admitted(filter) && '*' in filter {
      OneStarIsGlob(filter, name);
    }
  }

  /** The filter list of the `watch` section. A filter with two stars raises an
      error; the filters before it have been stored by then. */
  method AdmitFilters(stored: seq<string>, values: seq<string>) returns (filters: seq<string>, ok: bool)
    ensures ok <==> forall v <- values :: Admitted(v)
    ensures ok ==> filters == stored + values
    ensures !ok ==> exists k :: 0 <= k < |values| && !Admitted(values[k])
                                && (forall v <- values[..k] :: Admitted(v)) && filters == stored + values[..k]
  {
    filters := stored;
    for n := 0 to |values|
      invariant filters == stored + values[..n]
      invariant forall v <- values[..n] :: Admitted(v)
    {
      var asteriskCount, val := 0, values[n];
      for i := 0 to |val|
        invariant asteriskCount == Stars(val[..i])
      {
        assert val[..i + 1] == val[..i] + [val[i]];
        StarsConcat(val[..i], [val[i]]);
        if val[i] == '*' {
          asteriskCount := asteriskCount + 1;
        }
      }
      assert val[..|val|] == val;
      if asteriskCount > 1 {
        assert values[n] in values;
        assert !Admitted(values[n]);
        return filters, false;
      }
      filters := filters + [val];
    }
    assert values[..|values|] == values;
    ok := true;
  }
}
