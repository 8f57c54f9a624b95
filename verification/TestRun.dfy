/** `RunContext::runTest`: the inner loop re-runs the body until the tracker is
    complete, the outer loop does so once per tuple of generator indices. */
module TestRun {
  import opened Basics
  import opened Sections

  // ----- The generator odometer -----

  function Product(sizes: seq<nat>): nat {
    if sizes == [] then 1 else sizes[0] * Product(sizes[1..])
  }

  /** The number a tuple stands for; the first generator is the fastest digit. */
  function Value(sizes: seq<nat>, tuple: seq<nat>): nat
    requires |sizes| == |tuple|
  {
    if sizes == [] then 0 else tuple[0] + sizes[0] * Value(sizes[1..], tuple[1..])
  }

  predicate InRange(sizes: seq<nat>, tuple: seq<nat>) {
    |sizes| == |tuple| && forall i :: 0 <= i < |sizes| ==> tuple[i] < sizes[i]
  }

  function Zeros(n: nat): seq<nat> {
    Repeat(n, 0)
  }

  lemma {:induction false} ValueBound(sizes: seq<nat>, tuple: seq<nat>)
    requires InRange(sizes, tuple)
    ensures Value(sizes, tuple) < Product(sizes)
  {
    if sizes != [] {
      ValueBound(sizes[1..], tuple[1..]);
      MulBound(sizes[0], Value(sizes[1..], tuple[1..]), Product(sizes[1..]), tuple[0]);
    }
  }

  lemma MulBound(size: nat, value: nat, product: nat, digit: nat)
    requires value < product && digit < size
    ensures digit + size * value < size * product
  {
    assert size * (value + 1) <= size * product;
  }

  /** Different tuples stand for different numbers. */
  lemma {:induction false} ValueInjective(sizes: seq<nat>, s: seq<nat>, t: seq<nat>)
    requires InRange(sizes, s) && InRange(sizes, t)
    requires Value(sizes, s) == Value(sizes, t)
    ensures s == t
  {
    if sizes != [] {
      var a, b := Value(sizes[1..], s[1..]), Value(sizes[1..], t[1..]);
      DigitUnique(sizes[0], s[0], a, t[0], b);
      ValueInjective(sizes[1..], s[1..], t[1..]);
      assert s == [s[0]] + s[1..] && t == [t[0]] + t[1..];
    }
  }

  lemma DivMod(v: nat, n: nat)
    requires n > 0
    ensures v % n < n && v % n + n * (v / n) == v && v / n >= 0
  {}

  /** The first generator is the fastest: it shows the remainder, and the others
      the quotient. */
  lemma FastestFirst(sizes: seq<nat>, tuple: seq<nat>)
    requires InRange(sizes, tuple) && sizes != []
    ensures tuple[0] == Value(sizes, tuple) % sizes[0]
    ensures Value(sizes[1..], tuple[1..]) == Value(sizes, tuple) / sizes[0]
  {
    var n, v := sizes[0], Value(sizes, tuple);
    ValueHead(sizes, tuple);
    hide Value;
    DivMod(v, n);
    DigitUnique(n, tuple[0], Value(sizes[1..], tuple[1..]), v % n, v / n);
  }

  lemma MulOrder(size: nat, a: nat, b: nat)
    ensures a < b ==> size * a + size <= size * b
  {
    if a < b {
      assert size * (a + 1) <= size * b;
    }
  }

  lemma DigitUnique(size: nat, d: nat, a: nat, e: nat, b: nat)
    requires d < size && e < size && d + size * a == e + size * b
    ensures d == e && a == b
  {
    MulOrder(size, a, b);
    MulOrder(size, b, a);
  }

  /** One step of the odometer, and whether it stopped before wrapping round. */
  function Advanced(sizes: seq<nat>, tuple: seq<nat>): (r: (seq<nat>, bool))
    requires |sizes| == |tuple|
    ensures |r.0| == |sizes|
  {
    if sizes == [] then ([], false)
    else if tuple[0] + 1 != sizes[0] then ([tuple[0] + 1] + tuple[1..], true)
    else
      var (rest, moved) := Advanced(sizes[1..], tuple[1..]);
      ([0] + rest, moved)
  }

  /** The step adds one, and fails exactly when it wraps to all zeros. */
  lemma {:induction false} AdvancedIsPlusOne(sizes: seq<nat>, tuple: seq<nat>)
    requires InRange(sizes, tuple)
    ensures var (next, moved) := Advanced(sizes, tuple);
            && InRange(sizes, next)
            && (moved <==> Value(sizes, tuple) + 1 < Product(sizes))
            && (moved ==> Value(sizes, next) == Value(sizes, tuple) + 1)
            && (!moved ==> next == Zeros(|sizes|) && Value(sizes, tuple) + 1 == Product(sizes))
  {
    if sizes != [] {
      hide Value, Product, Advanced;
      var next := Advanced(sizes, tuple).0;
      AdvancedHead(sizes, tuple);
      ValueHead(sizes, tuple);
      ValueHead(sizes, next);
      ValueBound(sizes[1..], tuple[1..]);
      if tuple[0] + 1 == sizes[0] {
        AdvancedIsPlusOne(sizes[1..], tuple[1..]);
      }
      Carry(sizes[0], tuple[0], Value(sizes[1..], tuple[1..]), Product(sizes[1..]));
    }
  }

  lemma Carry(size: nat, digit: nat, value: nat, product: nat)
    requires digit < size && value < product
    ensures digit + 1 != size ==> digit + 1 + size * value < size * product
    ensures digit + 1 == size ==> digit + size * value + 1 == size * (value + 1)
    ensures value + 1 < product <==> size * (value + 1) < size * product
    ensures value + 1 == product ==> size * (value + 1) == size * product
  {
    MulOrder(size, value, product);
    MulOrder(size, value + 1, product);
    assert size * (value + 1) == size * value + size;
  }

  lemma ValueHead(sizes: seq<nat>, tuple: seq<nat>)
    requires |sizes| == |tuple| && sizes != []
    ensures Value(sizes, tuple) == tuple[0] + sizes[0] * Value(sizes[1..], tuple[1..])
    ensures Product(sizes) == sizes[0] * Product(sizes[1..])
  {}

  lemma AdvancedHead(sizes: seq<nat>, tuple: seq<nat>)
    requires |sizes| == |tuple| && sizes != []
    ensures var (next, moved) := Advanced(sizes, tuple);
            var (rest, restMoved) := Advanced(sizes[1..], tuple[1..]);
            if tuple[0] + 1 != sizes[0] then
              |next| == |sizes| && next[0] == tuple[0] + 1 && next[1..] == tuple[1..] && moved
            else next == [0] + rest && next[1..] == rest && moved == restMoved
  {}

  /** One digit of the step, seen from the digits not yet visited. */
  lemma AdvancedDigit(sizes: seq<nat>, tuple: seq<nat>, i: nat)
    requires |sizes| == |tuple| && i < |sizes|
    ensures var (rest, moved) := Advanced(sizes[i + 1..], tuple[i + 1..]);
            Advanced(sizes[i..], tuple[i..])
            == if tuple[i] + 1 != sizes[i] then ([tuple[i] + 1] + tuple[i + 1..], true) else ([0] + rest, moved)
  {
    assert sizes[i..][1..] == sizes[i + 1..] && tuple[i..][1..] == tuple[i + 1..];
  }

  class GeneratorInfo {
    const m_size: nat
    var m_currentIndex: nat

    constructor (size: nat)
      ensures m_size == size && m_currentIndex == 0
    {
      m_size := size;
      m_currentIndex := 0;
    }

    method MoveNext() returns (moved: bool)
      modifies this
      ensures moved <==> old(m_currentIndex) + 1 != m_size
      ensures m_currentIndex == if moved then old(m_currentIndex) + 1 else 0
    {
      m_currentIndex := m_currentIndex + 1;
      if m_currentIndex == m_size {
        m_currentIndex := 0;
        return false;
      }
      moved := true;
    }
  }

  class GeneratorsForTest {
    var m_generatorsInOrder: seq<GeneratorInfo>

    constructor ()
      ensures m_generatorsInOrder == []
    {
      m_generatorsInOrder := [];
    }

    /** Every generator has at least one value, and no two share an object. */
    ghost predicate Valid()
      reads this, m_generatorsInOrder
    {
      && (forall g <- m_generatorsInOrder :: g.m_currentIndex < g.m_size)
      && (forall i, j :: 0 <= i < j < |m_generatorsInOrder| ==> m_generatorsInOrder[i] != m_generatorsInOrder[j])
    }

    function Sizes(): (s: seq<nat>)
      reads this
      ensures |s| == |m_generatorsInOrder|
      ensures forall i {:trigger m_generatorsInOrder[i]} :: 0 <= i < |s| ==> s[i] == m_generatorsInOrder[i].m_size
    {
      seq(|m_generatorsInOrder|, i requires 0 <= i < |m_generatorsInOrder| reads this => m_generatorsInOrder[i].m_size)
    }

    function Indices(): (s: seq<nat>)
      reads this, m_generatorsInOrder
      ensures |s| == |m_generatorsInOrder|
      ensures forall i {:trigger m_generatorsInOrder[i]} :: 0 <= i < |s| ==>
                s[i] == m_generatorsInOrder[i].m_currentIndex
    {
      seq(|m_generatorsInOrder|, i requires 0 <= i < |m_generatorsInOrder| reads this, m_generatorsInOrder =>
        m_generatorsInOrder[i].m_currentIndex)
    }

    lemma Ranged()
      requires Valid()
      ensures InRange(Sizes(), Indices())
    {}

    lemma IndicesFrom(i: nat, tail: seq<nat>)
      requires i + |tail| == |m_generatorsInOrder|
      requires forall k {:trigger m_generatorsInOrder[k]} :: 0 <= k < |m_generatorsInOrder| ==>
                 m_generatorsInOrder[k].m_currentIndex == if k < i then 0 else tail[k - i]
      ensures Indices() == Zeros(i) + tail
    {}

    method MoveNext() returns (moved: bool)
      requires Valid()
      modifies m_generatorsInOrder
      ensures Valid()
      ensures (Indices(), moved) == Advanced(old(Sizes()), old(Indices()))
    {
      hide Advanced, Indices, Sizes;
      ghost var sizes, before := Sizes(), Indices();
      assert sizes[0..] == sizes && before[0..] == before;
      assert Zeros(0) + Advanced(sizes, before).0 == Advanced(sizes, before).0;
      for i := 0 to |m_generatorsInOrder|
        invariant Valid()
        invariant forall k {:trigger m_generatorsInOrder[k]} :: 0 <= k < |before| ==>
                    m_generatorsInOrder[k].m_currentIndex == if k < i then 0 else before[k]
        invariant Advanced(sizes, before).0 == Zeros(i) + Advanced(sizes[i..], before[i..]).0
        invariant Advanced(sizes, before).1 == Advanced(sizes[i..], before[i..]).1
      {
        var g := m_generatorsInOrder[i];
        AdvancedDigit(sizes, before, i);
        moved := g.MoveNext();
        if moved {
          IndicesFrom(i, [before[i] + 1] + before[i + 1..]);
          return;
        }
        assert Zeros(i) + ([0] + Advanced(sizes[i + 1..], before[i + 1..]).0)
               == Zeros(i + 1) + Advanced(sizes[i + 1..], before[i + 1..]).0;
      }
      AdvancedEnd(sizes, before);
      IndicesFrom(|before|, []);
      moved := false;
    }
  }

  lemma AdvancedEnd(sizes: seq<nat>, tuple: seq<nat>)
    requires |sizes| == |tuple|
    ensures Advanced(sizes[|sizes|..], tuple[|tuple|..]) == ([], false)
  {}

  // ----- The two loops of runTest -----

  function RunsForSections(body: seq<Tree>): (n: nat)
    ensures n > 0
  {
    if LeafCount(body) == 0 then 1 else LeafCount(body)
  }

  /** What the tracker holds after `runs` runs of the body. */
  ghost predicate Tracked(tracker: TestCaseTracker, body: seq<Tree>, runs: nat)
    reads tracker
  {
    tracker.states == map[[] := RootState(body, runs)] + Before(runs > 0, body, [], Min(runs, LeafCount(body)))
  }

  function RootState(body: seq<Tree>, runs: nat): RunState {
    if runs == 0 then NotStarted else if runs < LeafCount(body) then ExecutingChildren else Completed
  }

  lemma RootClear(x: RunState, names: set<string>)
    ensures Clear(map[[] := x], [], names)
    ensures ChildrenDone(map[[] := x], [])
  {}

  /** Leaving the test case after one more run. */
  lemma LeaveRoot(body: seq<Tree>, x: RunState, runs: nat)
    requires Distinct(body) && runs > 0
    ensures var done := Min(runs, LeafCount(body));
            var inside := map[[] := x] + Known(body, [], done);
            Settled(inside, []) == map[[] := RootState(body, runs)] + Known(body, [], done)
  {
    hide ChildrenDone, Clear, Known;
    var done := Min(runs, LeafCount(body));
    RootClear(x, Names(body));
    ClearDisjoint(map[[] := x], body, [], done);
    ChildrenDoneUnion(map[[] := x], Known(body, [], done), []);
    ChildrenComplete(body, [], done);
    NotInKnown(body, [], done);
  }

  /** One run of the test case inside its tracker guard. */
  method RunCurrentTest(tracker: TestCaseTracker, body: seq<Tree>, ghost runs: nat) returns (ran: seq<Path>)
    requires Distinct(body) && Tracked(tracker, body, runs)
    modifies tracker
    ensures Tracked(tracker, body, runs + 1)
    ensures ran == OneLeaf(false, LeafPaths(body, []), runs)
    ensures [] in tracker.states && (tracker.IsCompleted() <==> runs + 1 >= LeafCount(body))
  {
    hide Known, LeafPaths, ChildrenDone, Clear, Distinct, Names;
    ghost var done := Min(runs, LeafCount(body));
    NotInKnown(body, [], done);
    NotInKnown(body, [], Min(runs + 1, LeafCount(body)));
    ghost var x := if runs == 0 then Executing else RootState(body, runs);
    tracker.EnterTestCase();
    RootClear(x, Names(body));
    ran := RunSections(tracker, body, map[[] := x], runs > 0, done);
    LeaveRoot(body, x, runs + 1);
    tracker.LeaveTestCase();
  }

  /** The inner loop, from a tracker that has seen `start` runs. */
  method RunUntilComplete(tracker: TestCaseTracker, body: seq<Tree>, ghost start: nat)
    returns (leaves: seq<Path>, runs: nat)
    requires Distinct(body) && Tracked(tracker, body, start)
    modifies tracker
    ensures Tracked(tracker, body, start + runs)
    ensures runs == if start < LeafCount(body) then LeafCount(body) - start else 1
    ensures leaves == LeafPaths(body, [])[Min(start, LeafCount(body))..]
    ensures start == 0 ==> runs == RunsForSections(body) && leaves == LeafPaths(body, [])
    ensures start >= RunsForSections(body) ==> runs == 1 && leaves == []
  {
    hide LeafPaths, Known, Distinct, Tracked;
    leaves, runs := [], 0;
    var again := true;
    while again
      invariant Tracked(tracker, body, start + runs)
      invariant again <==> runs == 0 || start + runs < LeafCount(body)
      invariant runs > 1 ==> start + runs <= LeafCount(body)
      invariant leaves == LeafPaths(body, [])[Min(start, LeafCount(body))..Min(start + runs, LeafCount(body))]
      decreases LeafCount(body) + 1 - runs
    {
      var one := RunCurrentTest(tracker, body, start + runs);
      leaves := leaves + one;
      runs := runs + 1;
      again := !tracker.IsCompleted();
    }
  }

  /** Tuple number `v` stands for `v`: every combination of indices, once each. */
  predicate Counted(sizes: seq<nat>, tuples: seq<seq<nat>>) {
    forall v {:trigger tuples[v]} :: 0 <= v < |tuples| ==>
      InRange(sizes, tuples[v]) && Value(sizes, tuples[v]) == v
  }

  predicate OnlyFirst(ran: seq<seq<Path>>, leaves: seq<Path>) {
    forall v {:trigger ran[v]} :: 0 <= v < |ran| ==> ran[v] == if v == 0 then leaves else []
  }

  lemma NothingCounted(sizes: seq<nat>, leaves: seq<Path>)
    ensures Counted(sizes, []) && OnlyFirst([], leaves)
  {}

  lemma CountedOne(sizes: seq<nat>, tuples: seq<seq<nat>>, tuple: seq<nat>)
    requires Counted(sizes, tuples) && InRange(sizes, tuple) && Value(sizes, tuple) == |tuples|
    ensures Counted(sizes, tuples + [tuple])
  {}

  lemma OnlyFirstOne(ran: seq<seq<Path>>, more: seq<Path>, leaves: seq<Path>)
    requires OnlyFirst(ran, leaves) && more == (if ran == [] then leaves else [])
    ensures OnlyFirst(ran + [more], leaves)
  {}

  /** Every tuple in range is among the shown ones, at its own number and nowhere else. */
  lemma EveryTupleOnce(sizes: seq<nat>, tuples: seq<seq<nat>>, tuple: seq<nat>)
    requires Counted(sizes, tuples) && |tuples| == Product(sizes)
    requires InRange(sizes, tuple)
    ensures var v := Value(sizes, tuple); v < |tuples| && tuples[v] == tuple
    ensures forall w :: 0 <= w < |tuples| && tuples[w] == tuple ==> w == Value(sizes, tuple)
  {
    ValueBound(sizes, tuple);
    ValueInjective(sizes, tuple, tuples[Value(sizes, tuple)]);
  }

  /** The whole test. `ran[v]` lists the leaf sections executed while the
      generators showed tuple `v`: all of them in preorder under the first tuple,
      none under any later one. `tuples` are the values shown, and `runs` counts
      the runs of the body. */
  method RunTest(body: seq<Tree>, generators: GeneratorsForTest)
    returns (runs: nat, tuples: seq<seq<nat>>, ran: seq<seq<Path>>)
    requires Distinct(body)
    requires generators.Valid() && generators.Indices() == Zeros(|generators.m_generatorsInOrder|)
    modifies generators.m_generatorsInOrder
    ensures var sizes := generators.Sizes();
            && runs == RunsForSections(body) + Product(sizes) - 1
            && |tuples| == |ran| == Product(sizes) > 0
            && Counted(sizes, tuples)
            && OnlyFirst(ran, LeafPaths(body, []))
    ensures ran != [] && LeavesInOrder(body, [], ran[0]) && forall v :: 0 < v < |ran| ==> ran[v] == []
    ensures runs == (if ran[0] == [] then 1 else |ran[0]|) + |tuples| - 1
    ensures generators.Valid() && generators.Indices() == Zeros(|generators.m_generatorsInOrder|)
  {
    hide LeafPaths, LeavesInOrder, Known, Distinct, GeneratorsForTest.Indices, GeneratorsForTest.Sizes,
         Product, Value, Tracked, Counted, OnlyFirst, InRange, Zeros,
         GeneratorsForTest.Valid, LeafCount, RunsForSections, Min, Advanced;
    var tracker := new TestCaseTracker();
    runs, tuples, ran := 0, [], [];
    NothingCounted(generators.Sizes(), LeafPaths(body, []));
    ghost var sizes := generators.Sizes();
    FirstTuple(sizes);
    generators.Ranged();
    ValueBound(sizes, generators.Indices());
    Untouched(tracker, body);
    var more := true;
    while more
      invariant fresh(tracker) && generators.Valid() && generators.Sizes() == sizes
      invariant |tuples| == |ran|
      invariant more ==> |tuples| == Value(sizes, generators.Indices()) < Product(sizes)
      invariant !more ==> |tuples| == Product(sizes) > 0
                          && generators.Indices() == Zeros(|generators.m_generatorsInOrder|)
      invariant runs == if |tuples| == 0 then 0 else RunsForSections(body) + |tuples| - 1
      invariant Tracked(tracker, body, runs)
      invariant Counted(sizes, tuples) && OnlyFirst(ran, LeafPaths(body, []))
      decreases if more then Product(sizes) - |tuples| + 1 else 0
    {
      var leaves, again := RunUntilComplete(tracker, body, runs);
      runs := runs + again;
      generators.Ranged();
      AdvancedIsPlusOne(sizes, generators.Indices());
      CountedOne(sizes, tuples, generators.Indices());
      OnlyFirstOne(ran, leaves, LeafPaths(body, []));
      tuples := tuples + [generators.Indices()];
      ran := ran + [leaves];
      more := generators.MoveNext();
    }
    OnlyFirstMeans(ran, body);
  }

  /** Every leaf runs exactly once, in preorder, under the first tuple. */
  lemma OnlyFirstMeans(ran: seq<seq<Path>>, body: seq<Tree>)
    requires Distinct(body) && ran != [] && OnlyFirst(ran, LeafPaths(body, []))
    ensures LeavesInOrder(body, [], ran[0]) && forall v :: 0 < v < |ran| ==> ran[v] == []
    ensures RunsForSections(body) == if ran[0] == [] then 1 else |ran[0]|
  {
    hide LeavesInOrder;
    LeafPathsInOrder(body, []);
  }

  lemma FirstTuple(sizes: seq<nat>)
    ensures Value(sizes, Zeros(|sizes|)) == 0
  {
    if sizes != [] {
      assert Zeros(|sizes|)[1..] == Zeros(|sizes[1..]|);
      FirstTuple(sizes[1..]);
    }
  }

  lemma Untouched(tracker: TestCaseTracker, body: seq<Tree>)
    requires tracker.states == map[[] := NotStarted]
    ensures Tracked(tracker, body, 0)
  {}
}
