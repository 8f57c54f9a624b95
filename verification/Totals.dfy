/** Result accounting of a test run, and the proportional bar that ends a report. */
module Totals {
  import opened Sections

  // ----- Counts -----

  /** The counters are size_t: `Minus` demands of every caller that nothing wraps. */
  datatype Counts = Counts(passed: nat, failed: nat, failedButOk: nat) {

    function Minus(other: Counts): Counts
      requires other.passed <= passed && other.failed <= failed && other.failedButOk <= failedButOk
    {
      Counts(passed - other.passed, failed - other.failed, failedButOk - other.failedButOk)
    }

    function Plus(other: Counts): Counts {
      Counts(passed + other.passed, failed + other.failed, failedButOk + other.failedButOk)
    }

    function Total(): nat {
      passed + failed + failedButOk
    }
  }

  const ZERO := Counts(0, 0, 0)

  datatype TotalCounts = TotalCounts(assertions: Counts, testCases: Counts) {

    function Plus(other: TotalCounts): TotalCounts {
      TotalCounts(assertions.Plus(other.assertions), testCases.Plus(other.testCases))
    }
  }

  // ----- A run of a test body -----

  datatype ResultType = Ok | Info | Warning | Failure

  /** What a test body does in one run: assertions with their results, and the
      sections it comes to, each with what its body does if it is entered. */
  datatype Item = Assertion(result: ResultType, suppressed: bool) | Section(name: string, items: seq<Item>)

  datatype Test = Test(runs: seq<seq<Item>>, okToFail: bool)

  /** What was executed in a stretch of a body: the assertions in order, and how
      many sections or runs were found to count nothing. */
  datatype Trace = Trace(done: seq<Item>, missing: nat) {

    function Then(next: Trace): Trace {
      Trace(done + next.done, missing + next.missing)
    }

    function Missing(n: nat): Trace {
      Trace(done, missing + n)
    }

    function Passed(): nat {
      multiset(done)[Assertion(Ok, true)] + multiset(done)[Assertion(Ok, false)]
    }

    /** No failure is forgiven before its run ends. */
    function Failed(): nat {
      multiset(done)[Assertion(Failure, false)] + missing
    }

    function AsCounts(): Counts {
      Counts(Passed(), Failed(), 0)
    }

    /** `c` with these results counted on top. */
    function On(c: Counts): Counts {
      Counts(c.passed + Passed(), c.failed + Failed(), c.failedButOk)
    }
  }

  const NOTHING := Trace([], 0)

  /** A section without any counted assertion and without known sections of its
      own counts one failure, if such warnings are enabled. */
  function WithMissing(warn: bool, inside: Trace, hasChildren: bool): Trace {
    inside.Missing(if warn && inside.AsCounts().Total() == 0 && !hasChildren then 1 else 0)
  }

  /** What one step executes and where it leaves the tracker. Nothing inside a
      section is executed unless the tracker lets it be entered. */
  function ItemTrace(warn: bool, t: Tracking, item: Item): (r: (Tracking, Trace))
    ensures r.0.current == t.current
    decreases item
  {
    match item
    case Assertion(_, _) => (t, Trace([item], 0))
    case Section(name, inner) =>
      var (begun, entered) := t.Entered(name);
      if !entered then (begun, NOTHING)
      else
        var (ended, inside) := ItemsTrace(warn, begun, inner);
        (ended.Left(), WithMissing(warn, inside, ended.HasChildren()))
  }

  function ItemsTrace(warn: bool, t: Tracking, items: seq<Item>): (r: (Tracking, Trace))
    ensures r.0.current == t.current
    decreases items
  {
    if items == [] then (t, NOTHING)
    else
      var (t', first) := ItemTrace(warn, t, items[0]);
      var (t'', rest) := ItemsTrace(warn, t', items[1..]);
      (t'', first.Then(rest))
  }

  function RunTrace(warn: bool, t: Tracking, items: seq<Item>): (Tracking, Trace) {
    var (ended, inside) := ItemsTrace(warn, t.Started(), items);
    var left := ended.(states := Settled(ended.states, []));
    (left, WithMissing(warn, inside, left.HasChildren()))
  }

  /** The runs of one test, which share a tracker. */
  function RunTraces(warn: bool, runs: seq<seq<Item>>): (r: (Tracking, seq<Trace>))
    ensures |r.1| == |runs|
  {
    if runs == [] then (UNTRACKED, [])
    else
      var (t, traces) := RunTraces(warn, runs[..|runs| - 1]);
      var (t', last) := RunTrace(warn, t, runs[|runs| - 1]);
      (t', traces + [last])
  }

  function Joined(traces: seq<Trace>): Trace {
    if traces == [] then NOTHING else Joined(traces[..|traces| - 1]).Then(traces[|traces| - 1])
  }

  /** Everything one test executes. */
  function TestTrace(warn: bool, test: Test): Trace {
    Joined(RunTraces(warn, test.runs).1)
  }

  function SuiteTrace(warn: bool, tests: seq<Test>): Trace {
    if tests == [] then NOTHING
    else SuiteTrace(warn, tests[..|tests| - 1]).Then(TestTrace(warn, tests[|tests| - 1]))
  }

  /** Failures of a test that may fail are moved, not lost. */
  function Forgiven(okToFail: bool, t: Trace): Counts {
    if okToFail then Counts(t.Passed(), 0, t.Failed()) else t.AsCounts()
  }

  function SumForgiven(okToFail: bool, traces: seq<Trace>): Counts {
    if traces == [] then ZERO
    else SumForgiven(okToFail, traces[..|traces| - 1]).Plus(Forgiven(okToFail, traces[|traces| - 1]))
  }

  function TestCounted(warn: bool, test: Test): Counts {
    SumForgiven(test.okToFail, RunTraces(warn, test.runs).1)
  }

  /** One test case: failed, failed as allowed, or passed. */
  function Verdict(c: Counts): (v: Counts)
    ensures v.Total() == 1
  {
    if c.failed > 0 then Counts(0, 1, 0) else if c.failedButOk > 0 then Counts(0, 0, 1) else Counts(1, 0, 0)
  }

  function Deltas(warn: bool, tests: seq<Test>): seq<TotalCounts> {
    seq(|tests|, i requires 0 <= i < |tests| =>
      TotalCounts(TestCounted(warn, tests[i]), Verdict(TestCounted(warn, tests[i]))))
  }

  function Sum(deltas: seq<TotalCounts>): TotalCounts {
    if deltas == [] then TotalCounts(ZERO, ZERO) else Sum(deltas[..|deltas| - 1]).Plus(deltas[|deltas| - 1])
  }

  lemma OnTop(t: Trace, c: Counts)
    ensures var d := t.On(c);
            d.passed >= c.passed && d.failed >= c.failed && d.failedButOk >= c.failedButOk && d.Minus(c) == t.AsCounts()
  {}

  lemma CountMissing(t: Trace, n: nat, c: Counts)
    ensures t.Missing(n).AsCounts() == Counts(t.AsCounts().passed, t.AsCounts().failed + n, 0)
    ensures t.AsCounts().failedButOk == 0
    ensures t.Missing(n).On(c) == Counts(t.On(c).passed, t.On(c).failed + n, t.On(c).failedButOk)
  {}

  lemma OnTwice(a: Trace, b: Trace, c: Counts)
    ensures b.On(a.On(c)) == a.Then(b).On(c)
  {}

  lemma OnNothing(c: Counts)
    ensures NOTHING.On(c) == c
  {}

  lemma EnteredInside(t: Tracking, name: string)
    ensures t.Entered(name).1 ==> t.Entered(name).0.current != []
  {}

  /** One more run: what it counts comes on top. */
  lemma RunsOne(warn: bool, runs: seq<seq<Item>>, n: nat, okToFail: bool, c: Counts)
    requires n < |runs|
    ensures var (t, traces) := RunTraces(warn, runs[..n]);
            var (t', last) := RunTrace(warn, t, runs[n]);
            && RunTraces(warn, runs[..n + 1]) == (t', traces + [last])
            && c.Plus(SumForgiven(okToFail, traces + [last]))
               == c.Plus(SumForgiven(okToFail, traces)).Plus(Forgiven(okToFail, last))
  {
    hide RunTrace, Forgiven;
    assert runs[..n + 1][..n] == runs[..n];
    var (t, traces) := RunTraces(warn, runs[..n]);
    var last := RunTrace(warn, t, runs[n]).1;
    assert (traces + [last])[..n] == traces;
  }

  lemma NoRuns(warn: bool, runs: seq<seq<Item>>, okToFail: bool, c: Counts)
    ensures RunTraces(warn, runs[..0]) == (UNTRACKED, []) && c.Plus(SumForgiven(okToFail, [])) == c
  {}

  lemma PlusMinus(c: Counts, d: Counts)
    ensures var e := c.Plus(d);
            && c.passed <= e.passed && c.failed <= e.failed && c.failedButOk <= e.failedButOk
            && e.Minus(c) == d
  {}

  lemma NoCases(c: Counts)
    ensures c.Plus(ZERO) == c
  {}

  class RunContext {
    var assertions: Counts
    var testCases: Counts
    const warnAboutMissingAssertions: bool

    constructor (warn: bool)
      ensures assertions == ZERO && testCases == ZERO && warnAboutMissingAssertions == warn
    {
      assertions, testCases, warnAboutMissingAssertions := ZERO, ZERO, warn;
    }

    /** A pass counts as passed, a failure that is not suppressed as failed. */
    method AssertionEnded(result: ResultType, suppressed: bool)
      modifies this`assertions
      ensures assertions.passed == old(assertions).passed + (if result == Ok then 1 else 0)
      ensures assertions.failed == old(assertions).failed + (if result == Failure && !suppressed then 1 else 0)
      ensures assertions.failedButOk == old(assertions).failedButOk
    {
      var isOk := result != Failure || suppressed;
      if result == Ok {
        assertions := assertions.(passed := assertions.passed + 1);
      } else if !isOk {
        assertions := assertions.(failed := assertions.failed + 1);
      }
    }

    method TestForMissingAssertions(inside: Counts, tracker: TestCaseTracker) returns (inside': Counts, missing: bool)
      modifies this`assertions
      ensures missing <==> inside.Total() == 0 && warnAboutMissingAssertions && !tracker.CurrentSectionHasChildren()
      ensures assertions == if missing then old(assertions).(failed := old(assertions).failed + 1) else old(assertions)
      ensures inside' == if missing then inside.(failed := inside.failed + 1) else inside
    {
      inside' := inside;
      if inside.Total() != 0 || !warnAboutMissingAssertions || tracker.CurrentSectionHasChildren() {
        return inside, false;
      }
      assertions := assertions.(failed := assertions.failed + 1);
      inside' := inside.(failed := inside.failed + 1);
      missing := true;
    }

    /** The body between two points. */
    method Execute(items: seq<Item>, tracker: TestCaseTracker)
      modifies this`assertions, tracker
      ensures var (t, trace) := ItemsTrace(warnAboutMissingAssertions, old(tracker.Fields()), items);
              tracker.Fields() == t && assertions == trace.On(old(assertions))
      decreases items, 0
    {
      hide WithMissing, Trace.On, Trace.Then, Tracking.Entered;
      if items == [] {
        OnNothing(assertions);
        return;
      }
      ghost var (t, first) := ItemTrace(warnAboutMissingAssertions, tracker.Fields(), items[0]);
      ghost var rest := ItemsTrace(warnAboutMissingAssertions, t, items[1..]).1;
      OnTwice(first, rest, assertions);
      match items[0] {
        case Assertion(result, suppressed) =>
          OneAssertion(result, suppressed, assertions);
          AssertionEnded(result, suppressed);
        case Section(name, inner) =>
          ExecuteSection(name, inner, tracker);
      }
      Execute(items[1..], tracker);
    }

    /** A section that the tracker may refuse to enter. */
    method ExecuteSection(name: string, items: seq<Item>, tracker: TestCaseTracker)
      modifies this`assertions, tracker
      ensures var (t, trace) := ItemTrace(warnAboutMissingAssertions, old(tracker.Fields()), Section(name, items));
              tracker.Fields() == t && assertions == trace.On(old(assertions))
      decreases items, 2
    {
      hide WithMissing, Trace.On, Tracking.Entered, Tracking.HasChildren, ItemsTrace;
      var entered := tracker.EnterSection(name);
      OnNothing(assertions);
      EnteredInside(old(tracker.Fields()), name);
      if entered {
        var prevAssertions := assertions;
        Execute(items, tracker);
        ghost var begun := old(tracker.Fields()).Entered(name).0;
        var inside := SectionEnded(prevAssertions, tracker, ItemsTrace(warnAboutMissingAssertions, begun, items).1);
        tracker.LeaveSection();
      }
    }

    /** What a section, or the whole body, counted. The subtraction is from counts
        at least as large as those at its start. */
    method SectionEnded(prevAssertions: Counts, tracker: TestCaseTracker, ghost t: Trace) returns (inside: Counts)
      requires assertions == t.On(prevAssertions)
      modifies this`assertions
      ensures var t' := WithMissing(warnAboutMissingAssertions, t, tracker.CurrentSectionHasChildren());
              inside == t'.AsCounts() && assertions == t'.On(prevAssertions)
    {
      hide Counts.Minus, Counts.Total, Trace.On, Trace.AsCounts, Trace.Missing;
      OnTop(t, prevAssertions);
      CountMissing(t, 0, prevAssertions);
      CountMissing(t, 1, prevAssertions);
      inside := assertions.Minus(prevAssertions);
      var missing;
      inside, missing := TestForMissingAssertions(inside, tracker);
    }

    method RunCurrentTest(items: seq<Item>, okToFail: bool, tracker: TestCaseTracker)
      requires [] in tracker.states
      modifies this`assertions, tracker
      ensures var (t, trace) := RunTrace(warnAboutMissingAssertions, old(tracker.Fields()), items);
              tracker.Fields() == t && assertions == old(assertions).Plus(Forgiven(okToFail, trace))
      ensures [] in tracker.states
    {
      hide ItemsTrace, WithMissing, Tracking.HasChildren;
      var prevAssertions := assertions;
      tracker.EnterTestCase();
      Execute(items, tracker);
      tracker.LeaveTestCase();
      var inside := SectionEnded(prevAssertions, tracker,
                                 ItemsTrace(warnAboutMissingAssertions, old(tracker.Fields()).Started(), items).1);
      if okToFail {
        inside := inside.(failedButOk := inside.failed, failed := inside.failedButOk);
        assertions := assertions.(failed := assertions.failed - inside.failedButOk,
                                  failedButOk := assertions.failedButOk + inside.failedButOk);
      }
    }

    /** The returned delta is what the test added, with exactly one test case. */
    method RunTest(test: Test) returns (delta: TotalCounts)
      modifies this`assertions, this`testCases
      ensures delta.assertions == TestCounted(warnAboutMissingAssertions, test)
      ensures delta.testCases == Verdict(delta.assertions)
      ensures Judged(TestTrace(warnAboutMissingAssertions, test), test.okToFail, delta)
      ensures TotalCounts(assertions, testCases) == old(TotalCounts(assertions, testCases)).Plus(delta)
    {
      hide RunTrace, RunTraces, SumForgiven, Judged, TestTrace, Counts.Plus, Counts.Minus, Forgiven;
      var prevAssertions, prevTestCases := assertions, testCases;
      var tracker := new TestCaseTracker();
      NoRuns(warnAboutMissingAssertions, test.runs, test.okToFail, prevAssertions);
      for n := 0 to |test.runs|
        invariant fresh(tracker) && [] in tracker.states
        invariant var (t, traces) := RunTraces(warnAboutMissingAssertions, test.runs[..n]);
                  tracker.Fields() == t && assertions == prevAssertions.Plus(SumForgiven(test.okToFail, traces))
        invariant testCases == prevTestCases
      {
        RunsOne(warnAboutMissingAssertions, test.runs, n, test.okToFail, prevAssertions);
        RunCurrentTest(test.runs[n], test.okToFail, tracker);
      }
      assert test.runs[..|test.runs|] == test.runs;
      PlusMinus(prevAssertions, TestCounted(warnAboutMissingAssertions, test));
      PlusMinus(prevTestCases, ZERO);
      NoCases(prevTestCases);
      delta := TotalCounts(assertions.Minus(prevAssertions), testCases.Minus(prevTestCases));
      if delta.assertions.failed > 0 {
        delta := delta.(testCases := delta.testCases.(failed := delta.testCases.failed + 1));
      } else if delta.assertions.failedButOk > 0 {
        delta := delta.(testCases := delta.testCases.(failedButOk := delta.testCases.failedButOk + 1));
      } else {
        delta := delta.(testCases := delta.testCases.(passed := delta.testCases.passed + 1));
      }
      testCases := testCases.Plus(delta.testCases);
      EveryTestJudged(warnAboutMissingAssertions, test);
    }
  }

  lemma OneAssertion(result: ResultType, suppressed: bool, c: Counts)
    ensures var d := Trace([Assertion(result, suppressed)], 0).On(c);
            && d.passed == c.passed + (if result == Ok then 1 else 0)
            && d.failed == c.failed + (if result == Failure && !suppressed then 1 else 0)
            && d.failedButOk == c.failedButOk
  {
    assert multiset([Assertion(result, suppressed)]) == multiset{Assertion(result, suppressed)};
  }

  // ----- A whole run of tests -----

  /** The returned deltas add up to the totals, and one test case is counted for
      every test: as failed exactly if the test may not fail and executed a failure
      that is not suppressed, or missed an assertion. Every executed pass and every
      such failure is counted exactly once. */
  method RunTests(warn: bool, tests: seq<Test>) returns (deltas: seq<TotalCounts>, totals: TotalCounts)
    ensures |deltas| == |tests| && totals == Sum(deltas)
    ensures totals.testCases.Total() == |tests|
    ensures var all := SuiteTrace(warn, tests);
            && totals.assertions.passed
               == multiset(all.done)[Assertion(Ok, true)] + multiset(all.done)[Assertion(Ok, false)]
            && totals.assertions.failed + totals.assertions.failedButOk
               == multiset(all.done)[Assertion(Failure, false)] + all.missing
    ensures forall i {:trigger deltas[i]} :: 0 <= i < |tests| ==>
              Judged(TestTrace(warn, tests[i]), tests[i].okToFail, deltas[i])
  {
    hide TestCounted, Verdict, SuiteTrace, Judged, TestTrace, Sum, Deltas, Trace.Passed, Trace.Failed;
    var context := new RunContext(warn);
    deltas := [];
    NoTests(warn);
    for n := 0 to |tests|
      invariant fresh(context)
      invariant |deltas| == n && deltas == Deltas(warn, tests[..n])
      invariant TotalCounts(context.assertions, context.testCases) == Sum(deltas)
    {
      var delta := context.RunTest(tests[n]);
      assert tests[..n + 1][..n] == tests[..n];
      SumOne(warn, tests[..n + 1]);
      deltas := deltas + [delta];
    }
    assert tests[..|tests|] == tests;
    totals := TotalCounts(context.assertions, context.testCases);
    CasesCounted(warn, tests);
    ResultsCounted(warn, tests);
    PassedAndFailed(SuiteTrace(warn, tests));
    EveryDeltaJudged(warn, tests);
  }

  /** What a test that executed `t` is counted as. */
  predicate Judged(t: Trace, okToFail: bool, delta: TotalCounts) {
    var passed := multiset(t.done)[Assertion(Ok, true)] + multiset(t.done)[Assertion(Ok, false)];
    var failed := multiset(t.done)[Assertion(Failure, false)] + t.missing;
    && delta.assertions == Counts(passed, if okToFail then 0 else failed, if okToFail then failed else 0)
    && delta.testCases == (if Assertion(Failure, false) !in t.done && t.missing == 0 then Counts(1, 0, 0)
                           else if okToFail then Counts(0, 0, 1) else Counts(0, 1, 0))
  }

  /** Moving failures keeps the number of results. */
  lemma {:induction false} ForgivingKeepsTotal(okToFail: bool, traces: seq<Trace>)
    ensures SumForgiven(okToFail, traces) == Forgiven(okToFail, Joined(traces))
    ensures SumForgiven(okToFail, traces).Total() == Joined(traces).Passed() + Joined(traces).Failed()
  {
    if traces != [] {
      ForgivingKeepsTotal(okToFail, traces[..|traces| - 1]);
    }
  }

  lemma EveryTestJudged(warn: bool, test: Test)
    ensures Judged(TestTrace(warn, test), test.okToFail,
                   TotalCounts(TestCounted(warn, test), Verdict(TestCounted(warn, test))))
  {
    hide RunTraces, Joined, SumForgiven;
    ForgivingKeepsTotal(test.okToFail, RunTraces(warn, test.runs).1);
    var t := TestTrace(warn, test);
    assert multiset(t.done)[Assertion(Failure, false)] == 0 <==> Assertion(Failure, false) !in t.done;
  }

  lemma ThenCounts(a: Trace, b: Trace)
    ensures a.Then(b).Passed() == a.Passed() + b.Passed() && a.Then(b).Failed() == a.Failed() + b.Failed()
    ensures NOTHING.Passed() == 0 && NOTHING.Failed() == 0
  {}

  lemma PassedAndFailed(t: Trace)
    ensures t.Passed() == multiset(t.done)[Assertion(Ok, true)] + multiset(t.done)[Assertion(Ok, false)]
    ensures t.Failed() == multiset(t.done)[Assertion(Failure, false)] + t.missing
  {}

  lemma EveryDeltaJudged(warn: bool, tests: seq<Test>)
    ensures forall i {:trigger Deltas(warn, tests)[i]} :: 0 <= i < |tests| ==>
              Judged(TestTrace(warn, tests[i]), tests[i].okToFail, Deltas(warn, tests)[i])
  {
    hide TestCounted, Verdict, Judged, TestTrace;
    forall i {:trigger Deltas(warn, tests)[i]} | 0 <= i < |tests|
      ensures Judged(TestTrace(warn, tests[i]), tests[i].okToFail, Deltas(warn, tests)[i])
    {
      EveryTestJudged(warn, tests[i]);
    }
  }

  lemma {:induction false} CasesCounted(warn: bool, tests: seq<Test>)
    ensures Sum(Deltas(warn, tests)).testCases.Total() == |tests|
  {
    hide TestCounted, Verdict, Sum, Deltas;
    NoTests(warn);
    if tests != [] {
      CasesCounted(warn, tests[..|tests| - 1]);
      SumOne(warn, tests);
    }
  }

  lemma {:induction false} ResultsCounted(warn: bool, tests: seq<Test>)
    ensures var totals, all := Sum(Deltas(warn, tests)).assertions, SuiteTrace(warn, tests);
            totals.passed == all.Passed() && totals.failed + totals.failedButOk == all.Failed()
  {
    hide TestTrace, TestCounted, Verdict, Sum, Deltas, Trace.Passed, Trace.Failed, Trace.Then;
    ThenCounts(NOTHING, NOTHING);
    NoTests(warn);
    if tests != [] {
      var init, last := tests[..|tests| - 1], tests[|tests| - 1];
      ResultsCounted(warn, init);
      SumOne(warn, tests);
      TestKeepsResults(warn, last);
      ThenCounts(SuiteTrace(warn, init), TestTrace(warn, last));
    }
  }

  lemma TestKeepsResults(warn: bool, test: Test)
    ensures var c, t := TestCounted(warn, test), TestTrace(warn, test);
            c.passed == t.Passed() && c.failed + c.failedButOk == t.Failed()
  {
    hide RunTraces, Joined, SumForgiven;
    ForgivingKeepsTotal(test.okToFail, RunTraces(warn, test.runs).1);
  }

  lemma NoTests(warn: bool)
    ensures Deltas(warn, []) == [] && Sum([]) == TotalCounts(ZERO, ZERO)
  {}

  lemma SumOne(warn: bool, tests: seq<Test>)
    requires tests != []
    ensures var counted := TestCounted(warn, tests[|tests| - 1]);
            var before, last := Deltas(warn, tests[..|tests| - 1]), TotalCounts(counted, Verdict(counted));
            Deltas(warn, tests) == before + [last] && Sum(before + [last]) == Sum(before).Plus(last)
  {
    hide TestCounted, Verdict;
    var before := Deltas(warn, tests[..|tests| - 1]);
    assert Deltas(warn, tests)[..|tests| - 1] == before;
    assert (before + [Deltas(warn, tests)[|tests| - 1]])[..|before|] == before;
  }

  /** A test is counted as failed exactly when it may not fail and some run of it
      executed an unsuppressed failure or missed an assertion. */
  lemma {:induction false} FailedVerdict(okToFail: bool, traces: seq<Trace>)
    ensures var c := SumForgiven(okToFail, traces);
            var failing := exists t <- traces :: Assertion(Failure, false) in t.done || t.missing > 0;
            && (Verdict(c).failed == 1 <==> !okToFail && failing)
            && (Verdict(c).failedButOk == 1 <==> okToFail && failing)
  {
    if traces != [] {
      var init, last := traces[..|traces| - 1], traces[|traces| - 1];
      FailedVerdict(okToFail, init);
      assert traces == init + [last];
      assert multiset(last.done)[Assertion(Failure, false)] == 0 <==> Assertion(Failure, false) !in last.done;
    }
  }

  // ----- What is executed -----

  predicate Flat(items: seq<Item>) {
    forall i <- items :: i.Assertion?
  }

  /** An assertion that is counted at all. */
  predicate Counted(item: Item) {
    item == Assertion(Ok, true) || item == Assertion(Ok, false) || item == Assertion(Failure, false)
  }

  predicate Silent(items: seq<Item>) {
    forall i <- items :: !Counted(i)
  }

  /** Steps in a row are executed in a row. */
  lemma {:induction false} TraceConcat(warn: bool, t: Tracking, a: seq<Item>, b: seq<Item>)
    ensures var (t', first) := ItemsTrace(warn, t, a);
            var (t'', second) := ItemsTrace(warn, t', b);
            ItemsTrace(warn, t, a + b) == (t'', Trace(first.done + second.done, first.missing + second.missing))
    decreases a
  {
    if a == [] {
      assert a + b == b;
      var second := ItemsTrace(warn, t, b).1;
      assert [] + second.done == second.done;
    } else {
      assert (a + b)[1..] == a[1..] + b;
      var (t', head) := ItemTrace(warn, t, a[0]);
      TraceConcat(warn, t', a[1..], b);
      var (t1, first) := ItemsTrace(warn, t', a[1..]);
      var second := ItemsTrace(warn, t1, b).1;
      assert head.done + (first.done + second.done) == head.done + first.done + second.done;
    }
  }

  /** All assertions outside sections are executed, in order. */
  lemma {:induction false} FlatTrace(warn: bool, t: Tracking, items: seq<Item>)
    requires Flat(items)
    ensures ItemsTrace(warn, t, items) == (t, Trace(items, 0))
  {
    if items != [] {
      FlatTrace(warn, t, items[1..]);
      assert items == [items[0]] + items[1..];
    }
  }

  lemma SilentCountsNothing(items: seq<Item>, missing: nat)
    ensures Trace(items, missing).AsCounts().Total() == 0 <==> Silent(items) && missing == 0
  {
    var ok, ok', failure := Assertion(Ok, true), Assertion(Ok, false), Assertion(Failure, false);
    assert multiset(items)[ok] == 0 <==> ok !in items;
    assert multiset(items)[ok'] == 0 <==> ok' !in items;
    assert multiset(items)[failure] == 0 <==> failure !in items;
    assert Silent(items) <==> ok !in items && ok' !in items && failure !in items;
  }

  /** A section without further sections inside: its assertions are executed if the
      tracker has not completed it, nor any section in this run; if none of them
      counts, and nothing was ever known inside, one failure is missing. */
  lemma SectionTrace(warn: bool, t: Tracking, name: string, inner: seq<Item>)
    requires Flat(inner)
    ensures var q := t.current + [name];
            var trace := ItemTrace(warn, t, Section(name, inner)).1;
            if t.spent || (q in t.states && t.states[q] == Completed) then trace == Trace([], 0)
            else
              && trace.done == inner
              && trace.missing == (if warn && Silent(inner) && (forall k <- t.states :: !IsChild(k, q)) then 1 else 0)
  {
    hide ItemsTrace, Silent, IsChild, Trace.AsCounts, Tracking.Entered;
    var begun := t.Entered(name).0;
    EnteredKeys(t, name);
    FlatTrace(warn, begun, inner);
    SilentCountsNothing(inner, 0);
  }

  /** What entering a section does to the tracker. */
  lemma EnteredKeys(t: Tracking, name: string)
    ensures var q, (begun, entered) := t.current + [name], t.Entered(name);
            && (entered <==> !t.spent && !(q in t.states && t.states[q] == Completed))
            && (entered ==> (begun.HasChildren() <==> exists k <- t.states :: IsChild(k, q)))
  {
    var q, begun := t.current + [name], t.Entered(name).0;
    if t.Entered(name).1 {
      assert begun.states.Keys == t.states.Keys + {q};
      assert begun.current == q && !IsChild(q, q);
    }
  }

  /** A run without sections of a test that never had any. */
  lemma FlatRun(warn: bool, t: Tracking, items: seq<Item>)
    requires Flat(items) && forall k <- t.states :: !IsChild(k, [])
    ensures var (t', trace) := RunTrace(warn, t, items);
            && trace == Trace(items, if warn && Silent(items) then 1 else 0)
            && forall k <- t'.states :: !IsChild(k, [])
  {
    hide ItemsTrace, Silent, IsChild, Trace.AsCounts, Settled, Tracking.Started;
    FlatTrace(warn, t.Started(), items);
    SilentCountsNothing(items, 0);
    RootStaysAlone(t);
  }

  lemma RootStaysAlone(t: Tracking)
    requires forall k <- t.states :: !IsChild(k, [])
    ensures t.Started().current == []
    ensures forall k <- Settled(t.Started().states, []) :: !IsChild(k, [])
  {
    assert Settled(t.Started().states, []).Keys <= t.states.Keys + {[]};
  }

  function Concat(runs: seq<seq<Item>>): seq<Item> {
    if runs == [] then [] else Concat(runs[..|runs| - 1]) + runs[|runs| - 1]
  }

  /** A test without sections: everything in its runs is executed, and a run that
      counts nothing is one failure if that is warned about. */
  lemma {:induction false} FlatTest(warn: bool, runs: seq<seq<Item>>)
    requires forall r <- runs :: Flat(r)
    ensures forall k <- RunTraces(warn, runs).0.states :: !IsChild(k, [])
    ensures var t := Joined(RunTraces(warn, runs).1);
            && t.done == Concat(runs)
            && t.missing == if warn then |set k {:trigger runs[k]} | 0 <= k < |runs| && Silent(runs[k])| else 0
  {
    hide RunTrace, Silent, Flat;
    if runs == [] {
      assert forall k <- UNTRACKED.states :: !IsChild(k, []);
    } else {
      var n := |runs| - 1;
      var init, last := runs[..n], runs[n];
      assert forall r <- init :: r in runs;
      FlatTest(warn, init);
      FlatRun(warn, RunTraces(warn, init).0, last);
      SilentOne(init, last);
      assert runs == init + [last];
      assert RunTraces(warn, runs).1[..n] == RunTraces(warn, init).1;
    }
  }

  lemma SilentOne(init: seq<seq<Item>>, last: seq<Item>)
    ensures var runs := init + [last];
            |set k {:trigger runs[k]} | 0 <= k < |runs| && Silent(runs[k])|
            == |set k {:trigger init[k]} | 0 <= k < |init| && Silent(init[k])| + (if Silent(last) then 1 else 0)
  {
    hide Silent;
    var runs := init + [last];
    var before := set k {:trigger init[k]} | 0 <= k < |init| && Silent(init[k]);
    var after := set k {:trigger runs[k]} | 0 <= k < |runs| && Silent(runs[k]);
    assert forall k :: 0 <= k < |init| ==> runs[k] == init[k];
    assert after == before + (if Silent(last) then {|init|} else {});
    assert |init| !in before;
  }

  // ----- The totals bar -----

  const CONSOLE_WIDTH := 80

  function MakeRatio(number: nat, total: nat): nat {
    var ratio := if total > 0 then CONSOLE_WIDTH * number / total else 0;
    if ratio == 0 && number > 0 then 1 else ratio
  }

  datatype Which = First | Second | Third

  function FindMax(i: nat, j: nat, k: nat): (w: Which)
    ensures var m := match w case First => i case Second => j case Third => k;
            m >= i && m >= j && m >= k
    ensures w == First ==> i > j && i > k
    ensures w == Second ==> j > k
  {
    if i > j && i > k then First else if j > k then Second else Third
  }

  lemma RatioBounds(number: nat, total: nat) returns (floor: nat)
    requires total > 0
    ensures floor * total <= 80 * number < (floor + 1) * total
    ensures MakeRatio(number, total) == (if floor == 0 && number > 0 then 1 else floor)
    ensures floor > 0 ==> number > 0
  {
    floor := CONSOLE_WIDTH * number / total;
    FloorBounds(CONSOLE_WIDTH * number, total);
  }

  lemma FloorBounds(n: nat, d: nat)
    requires d > 0
    ensures n / d * d <= n < (n / d + 1) * d
    ensures n == 0 ==> n / d == 0
  {
    assert n == n / d * d + n % d;
    assert (n / d + 1) * d == n / d * d + d;
  }

  /** The three ratios together miss the console width by at most two columns. */
  lemma RatioSum(a: nat, b: nat, c: nat)
    requires a + b + c > 0
    ensures MakeRatio(a, a + b + c) > 0 <==> a > 0
    ensures MakeRatio(b, a + b + c) > 0 <==> b > 0
    ensures MakeRatio(c, a + b + c) > 0 <==> c > 0
    ensures 78 <= MakeRatio(a, a + b + c) + MakeRatio(b, a + b + c) + MakeRatio(c, a + b + c) <= 82
  {
    hide MakeRatio;
    var total := a + b + c;
    var x := RatioBounds(a, total);
    var y := RatioBounds(b, total);
    var z := RatioBounds(c, total);
    FloorSum(x, y, z, total, CONSOLE_WIDTH * a, CONSOLE_WIDTH * b, CONSOLE_WIDTH * c);
  }

  lemma FloorSum(x: nat, y: nat, z: nat, total: nat, a: nat, b: nat, c: nat)
    requires total > 0 && a + b + c == 80 * total
    requires x * total <= a < (x + 1) * total
    requires y * total <= b < (y + 1) * total
    requires z * total <= c < (z + 1) * total
    ensures 78 <= x + y + z <= 80
  {
    assert (x + y + z) * total == x * total + y * total + z * total;
    assert (x + y + z + 3) * total == (x + 1) * total + (y + 1) * total + (z + 1) * total;
    Cancel(x + y + z, 80, total);
    Cancel(81, x + y + z + 3, total);
  }

  lemma Cancel(x: nat, y: nat, d: nat)
    requires d > 0
    ensures x * d <= y * d ==> x <= y
    ensures (x - 1) * d < y * d ==> x <= y
  {
    if x > y {
      assert (x - 1) * d >= y * d;
    }
  }

  /** Widths that do not sum to 79 are changed one column at a time, always at a
      maximum and among equals at the last. */
  function Fitted(failed: nat, failedButOk: nat, passed: nat): (nat, nat, nat)
    decreases if failed + failedButOk + passed < 79 then 79 - (failed + failedButOk + passed)
              else failed + failedButOk + passed - 79
  {
    var sum, w := failed + failedButOk + passed, FindMax(failed, failedButOk, passed);
    if sum == 79 then (failed, failedButOk, passed)
    else
      var d := if sum < 79 then 1 else -1;
      match w
      case First => Fitted(failed + d, failedButOk, passed)
      case Second => Fitted(failed, failedButOk + d, passed)
      case Third => Fitted(failed, failedButOk, passed + d)
  }

  lemma FittedStep(failed: nat, failedButOk: nat, passed: nat)
    ensures var d := if failed + failedButOk + passed < 79 then 1 else -1;
            Fitted(failed, failedButOk, passed)
            == if failed + failedButOk + passed == 79 then (failed, failedButOk, passed)
               else match FindMax(failed, failedButOk, passed)
                 case First => Fitted(failed + d, failedButOk, passed)
                 case Second => Fitted(failed, failedButOk + d, passed)
                 case Third => Fitted(failed, failedButOk, passed + d)
  {}

  /** The bar always has 79 columns, a part has columns exactly when it has test
      cases, and no part is more than 3 columns off its ratio. */
  method TotalsDivider(testCases: Counts) returns (failed: nat, failedButOk: nat, passed: nat)
    requires testCases.Total() > 0
    ensures failed + failedButOk + passed == 79
    ensures failed > 0 <==> testCases.failed > 0
    ensures failedButOk > 0 <==> testCases.failedButOk > 0
    ensures passed > 0 <==> testCases.passed > 0
    ensures var t := testCases.Total();
            (failed, failedButOk, passed)
            == Fitted(MakeRatio(testCases.failed, t), MakeRatio(testCases.failedButOk, t),
                      MakeRatio(testCases.passed, t))
    ensures var t := testCases.Total();
            && MakeRatio(testCases.failed, t) - 3 <= failed <= MakeRatio(testCases.failed, t) + 1
            && MakeRatio(testCases.failedButOk, t) - 3 <= failedButOk <= MakeRatio(testCases.failedButOk, t) + 1
            && MakeRatio(testCases.passed, t) - 3 <= passed <= MakeRatio(testCases.passed, t) + 1
  {
    hide MakeRatio, Fitted;
    var total := testCases.Total();
    failed := MakeRatio(testCases.failed, total);
    failedButOk := MakeRatio(testCases.failedButOk, total);
    passed := MakeRatio(testCases.passed, total);
    ghost var f, b, p := failed, failedButOk, passed;
    RatioSum(testCases.failed, testCases.failedButOk, testCases.passed);
    ghost var sum := f + b + p;
    while failed + failedButOk + passed < CONSOLE_WIDTH - 1
      invariant sum <= failed + failedButOk + passed
      invariant Fitted(failed, failedButOk, passed) == Fitted(f, b, p)
      invariant sum >= CONSOLE_WIDTH - 1 ==> failed == f && failedButOk == b && passed == p
      invariant sum < CONSOLE_WIDTH - 1 ==> failed + failedButOk + passed <= CONSOLE_WIDTH - 1
      invariant (failed > 0 <==> f > 0) && (failedButOk > 0 <==> b > 0) && (passed > 0 <==> p > 0)
      invariant failed >= f && failedButOk >= b && passed >= p
      decreases CONSOLE_WIDTH - (failed + failedButOk + passed)
    {
      FittedStep(failed, failedButOk, passed);
      match FindMax(failed, failedButOk, passed) {
        case First => failed := failed + 1;
        case Second => failedButOk := failedButOk + 1;
        case Third => passed := passed + 1;
      }
    }
    ghost var f', b', p' := failed, failedButOk, passed;
    ghost var sum' := f' + b' + p';
    while failed + failedButOk + passed > CONSOLE_WIDTH - 1
      invariant CONSOLE_WIDTH - 1 <= failed + failedButOk + passed <= sum'
      invariant Fitted(failed, failedButOk, passed) == Fitted(f, b, p)
      invariant (failed > 0 <==> f > 0) && (failedButOk > 0 <==> b > 0) && (passed > 0 <==> p > 0)
      invariant failed <= f' && failedButOk <= b' && passed <= p'
      decreases failed + failedButOk + passed
    {
      FittedStep(failed, failedButOk, passed);
      match FindMax(failed, failedButOk, passed) {
        case First => failed := failed - 1;
        case Second => failedButOk := failedButOk - 1;
        case Third => passed := passed - 1;
      }
    }
    FittedStep(failed, failedButOk, passed);
  }
}
