/** Section tracking: a test body is re-run until every leaf section has run.
    The tracker keeps a run state for each section it has met, keyed by the path
    from the test case, and a current section. */
module Sections {

  type Path = seq<string>

  datatype RunState = NotStarted | Executing | ExecutingChildren | Completed

  /** A section of the test body, with the sections its own body contains. */
  datatype Tree = Node(name: string, kids: seq<Tree>)

  function Names(ts: seq<Tree>): set<string> {
    set t <- ts :: t.name
  }

  /** No two sections of one body share a name. */
  predicate Distinct(ts: seq<Tree>) {
    ts == [] || (ts[0].name !in Names(ts[1..]) && Distinct(ts[0].kids) && Distinct(ts[1..]))
  }

  function Leaves(t: Tree): (n: nat)
    ensures n > 0
  {
    if t.kids == [] then 1 else LeafCount(t.kids)
  }

  function LeafCount(ts: seq<Tree>): (n: nat)
    ensures ts != [] ==> n > 0
  {
    if ts == [] then 0 else Leaves(ts[0]) + LeafCount(ts[1..])
  }

  /** The paths of the leaf sections in preorder. */
  function LeafPaths(ts: seq<Tree>, p: Path): (paths: seq<Path>)
    ensures |paths| == LeafCount(ts)
  {
    if ts == [] then [] else NodeLeafPaths(ts[0], p) + LeafPaths(ts[1..], p)
  }

  function NodeLeafPaths(t: Tree, p: Path): (paths: seq<Path>)
    ensures |paths| == Leaves(t)
    decreases t, 0
  {
    if t.kids == [] then [p + [t.name]] else LeafPaths(t.kids, p + [t.name])
  }

  // ----- What the list of leaves is -----

  /** Walking down along the names of `path` leads to a section without sections. */
  ghost predicate IsLeaf(ts: seq<Tree>, path: Path)
    decreases |path|, 1
  {
    exists t <- ts :: IsLeafOf(t, path)
  }

  /** The walk begins with section `t`. */
  ghost predicate IsLeafOf(t: Tree, path: Path)
    decreases |path|, 0
  {
    && path != [] && t.name == path[0]
    && if t.kids == [] then |path| == 1 else IsLeaf(t.kids, path[1..])
  }

  /** Where the walks first part, `a` goes to an earlier section of the body than `b`. */
  ghost predicate Precedes(ts: seq<Tree>, a: Path, b: Path)
    decreases |a|, 1
  {
    && a != [] && b != []
    && exists i, j :: PartsAt(ts, a, b, i, j)
  }

  ghost predicate PartsAt(ts: seq<Tree>, a: Path, b: Path, i: int, j: int)
    requires a != [] && b != []
    decreases |a|, 0
  {
    && 0 <= i <= j < |ts| && ts[i].name == a[0] && ts[j].name == b[0]
    && (i == j ==> Precedes(ts[i].kids, a[1..], b[1..]))
  }

  /** `paths` are all leaves of the body at `p`, each exactly once, in preorder. */
  ghost predicate LeavesInOrder(ts: seq<Tree>, p: Path, paths: seq<Path>) {
    && (forall r: Path :: IsLeaf(ts, r) ==> p + r in paths)
    && (forall q <- paths :: |q| > |p| && q[..|p|] == p && IsLeaf(ts, q[|p|..]))
    && (forall i, j :: 0 <= i < j < |paths| ==> paths[i] != paths[j])
    && (forall i, j {:trigger paths[i], paths[j]} :: 0 <= i < j < |paths| && |paths[i]| >= |p| && |paths[j]| >= |p| ==>
          Precedes(ts, paths[i][|p|..], paths[j][|p|..]))
  }

  lemma {:induction false} LeafListed(ts: seq<Tree>, p: Path, r: Path)
    requires IsLeaf(ts, r)
    ensures p + r in LeafPaths(ts, p)
    decreases ts, 1
  {
    var t := ts[0];
    if IsLeafOf(t, r) {
      var q := p + [t.name];
      assert r == [t.name] + r[1..];
      assert q + r[1..] == p + r;
      if t.kids != [] {
        LeafListed(t.kids, q, r[1..]);
      }
      assert t.kids == [] ==> p + r == q;
      assert p + r in NodeLeafPaths(t, p);
    } else {
      assert ts == [t] + ts[1..];
      LeafListed(ts[1..], p, r);
    }
  }

  /** Everything listed is a leaf, found below the section that lists it. */
  lemma {:induction false} ListedIsLeaf(ts: seq<Tree>, p: Path, i: nat)
    requires i < LeafCount(ts)
    ensures var q := LeafPaths(ts, p)[i];
            && |q| > |p| && q[..|p|] == p && IsLeaf(ts, q[|p|..])
            && exists k :: 0 <= k < |ts| && ts[k].name == q[|p|]
    decreases ts, 1
  {
    var n, q := Leaves(ts[0]), LeafPaths(ts, p)[i];
    if i < n {
      assert q == NodeLeafPaths(ts[0], p)[i];
      ListedBelow(ts[0], p, i);
      assert ts[0].name == q[|p|];
    } else {
      assert q == LeafPaths(ts[1..], p)[i - n];
      ListedIsLeaf(ts[1..], p, i - n);
      var k :| 0 <= k < |ts[1..]| && ts[1..][k].name == q[|p|];
      assert ts[k + 1].name == q[|p|];
      var t :| t in ts[1..] && IsLeafOf(t, q[|p|..]);
      assert t in ts;
    }
  }

  lemma {:induction false} ListedBelow(t: Tree, p: Path, i: nat)
    requires i < Leaves(t)
    ensures var q := NodeLeafPaths(t, p)[i];
            |q| > |p| && q[..|p|] == p && q[|p|] == t.name && IsLeafOf(t, q[|p|..])
    decreases t, 0
  {
    var q := NodeLeafPaths(t, p)[i];
    if t.kids != [] {
      ListedIsLeaf(t.kids, p + [t.name], i);
      assert q[..|p|] == q[..|p| + 1][..|p|] && q[|p|] == q[..|p| + 1][|p|];
      assert q[|p|..][1..] == q[|p| + 1..];
    }
  }

  lemma NamedAfter(ts: seq<Tree>, k: nat)
    requires 0 < k < |ts| && Distinct(ts)
    ensures ts[k].name != ts[0].name
  {
    assert ts[k] == ts[1..][k - 1];
  }

  lemma PrecedesAt(ts: seq<Tree>, a: Path, b: Path, i: int, j: int)
    requires a != [] && b != [] && PartsAt(ts, a, b, i, j)
    ensures Precedes(ts, a, b)
  {}

  lemma PrecedesLater(ts: seq<Tree>, a: Path, b: Path)
    requires ts != [] && Precedes(ts[1..], a, b)
    ensures Precedes(ts, a, b)
  {
    var k, l :| PartsAt(ts[1..], a, b, k, l);
    assert PartsAt(ts, a, b, k + 1, l + 1);
  }

  lemma {:induction false} LeavesOrdered(ts: seq<Tree>, p: Path, i: nat, j: nat)
    requires Distinct(ts) && i < j < LeafCount(ts)
    ensures var paths := LeafPaths(ts, p);
            && paths[i] != paths[j] && |paths[i]| > |p| && |paths[j]| > |p|
            && Precedes(ts, paths[i][|p|..], paths[j][|p|..])
    decreases ts, 1
  {
    hide IsLeaf, IsLeafOf, Names, Precedes, NodeLeafPaths;
    var n, rest := Leaves(ts[0]), ts[1..];
    var a, b := LeafPaths(ts, p)[i], LeafPaths(ts, p)[j];
    if j < n {
      assert a == NodeLeafPaths(ts[0], p)[i] && b == NodeLeafPaths(ts[0], p)[j];
      LeavesBelowOrdered(ts[0], p, i, j);
      PrecedesAt(ts, a[|p|..], b[|p|..], 0, 0);
    } else if i < n {
      assert a == NodeLeafPaths(ts[0], p)[i] && b == LeafPaths(rest, p)[j - n];
      ListedBelow(ts[0], p, i);
      ListedIsLeaf(rest, p, j - n);
      var k :| 0 <= k < |rest| && rest[k].name == b[|p|];
      NamedAfter(ts, k + 1);
      PrecedesAt(ts, a[|p|..], b[|p|..], 0, k + 1);
    } else {
      assert a == LeafPaths(rest, p)[i - n] && b == LeafPaths(rest, p)[j - n];
      LeavesOrdered(rest, p, i - n, j - n);
      PrecedesLater(ts, a[|p|..], b[|p|..]);
    }
  }

  lemma {:induction false} LeavesBelowOrdered(t: Tree, p: Path, i: nat, j: nat)
    requires Distinct(t.kids) && i < j < Leaves(t)
    ensures var a, b := NodeLeafPaths(t, p)[i], NodeLeafPaths(t, p)[j];
            && a != b && |a| > |p| && |b| > |p| && a[|p|] == b[|p|] == t.name
            && Precedes(t.kids, a[|p|..][1..], b[|p|..][1..])
    decreases t, 0
  {
    ListedBelow(t, p, i);
    ListedBelow(t, p, j);
    var q := p + [t.name];
    var a, b := LeafPaths(t.kids, q)[i], LeafPaths(t.kids, q)[j];
    LeavesOrdered(t.kids, q, i, j);
    assert a[|p|..][1..] == a[|q|..] && b[|p|..][1..] == b[|q|..];
  }

  /** The list of leaves is what its name says. */
  lemma LeafPathsInOrder(ts: seq<Tree>, p: Path)
    requires Distinct(ts)
    ensures LeavesInOrder(ts, p, LeafPaths(ts, p))
  {
    hide IsLeaf, Precedes, Distinct, LeafPaths;
    var paths := LeafPaths(ts, p);
    forall r: Path | IsLeaf(ts, r)
      ensures p + r in paths
    {
      LeafListed(ts, p, r);
    }
    forall q <- paths
      ensures |q| > |p| && q[..|p|] == p && IsLeaf(ts, q[|p|..])
    {
      var i :| 0 <= i < |paths| && paths[i] == q;
      ListedIsLeaf(ts, p, i);
    }
    forall i, j {:trigger paths[i], paths[j]} | 0 <= i < j < |paths|
      ensures paths[i] != paths[j] && |paths[i]| > |p| && |paths[j]| > |p|
      ensures Precedes(ts, paths[i][|p|..], paths[j][|p|..])
    {
      LeavesOrdered(ts, p, i, j);
    }
  }

  // ----- What the tracker knows after some number of leaves -----

  type Table = map<Path, RunState>

  function Min(a: nat, b: nat): (m: nat)
    ensures m <= a && m <= b && (m == a || m == b)
  {
    if a < b then a else b
  }

  function Progress(done: nat, total: nat): RunState {
    if done == 0 then NotStarted else if done < total then ExecutingChildren else Completed
  }

  /** The entries for section `t` of the body at `p`, once `done` of its leaves have run. */
  function NodeKnown(t: Tree, p: Path, done: nat): Table
    decreases t, 0
  {
    var q := p + [t.name];
    map[q := Progress(done, Leaves(t))] + (if done == 0 then map[] else Known(t.kids, q, done))
  }

  /** The entries below `p` when its body `ts` has run before and its first
      `done` leaves are complete. */
  function Known(ts: seq<Tree>, p: Path, done: nat): Table {
    if ts == [] then map[]
    else
      var d := Min(done, Leaves(ts[0]));
      NodeKnown(ts[0], p, d) + Known(ts[1..], p, done - d)
  }

  function Before(known: bool, ts: seq<Tree>, p: Path, done: nat): Table {
    if known then Known(ts, p, done) else map[]
  }

  predicate Below(k: Path, p: Path, names: set<string>) {
    |k| > |p| && k[..|p|] == p && k[|p|] in names
  }

  /** `base` says nothing about the sections named in `names` below `p`. */
  predicate Clear(base: Table, p: Path, names: set<string>) {
    forall k <- base :: !Below(k, p, names)
  }

  lemma {:induction false} NodeKnownBelow(t: Tree, p: Path, done: nat)
    ensures forall k <- NodeKnown(t, p, done) :: Below(k, p, {t.name})
    ensures p + [t.name] in NodeKnown(t, p, done)
    ensures NodeKnown(t, p, done)[p + [t.name]] == Progress(done, Leaves(t))
    decreases t, 0
  {
    var q := p + [t.name];
    KnownBelow(t.kids, q, done);
    assert q !in Known(t.kids, q, done);
  }

  lemma {:induction false} KnownBelow(ts: seq<Tree>, p: Path, done: nat)
    ensures forall k <- Known(ts, p, done) :: Below(k, p, Names(ts))
  {
    if ts != [] {
      var d := Min(done, Leaves(ts[0]));
      NodeKnownBelow(ts[0], p, d);
      KnownBelow(ts[1..], p, done - d);
      assert Names(ts) == {ts[0].name} + Names(ts[1..]) by {
        assert ts == [ts[0]] + ts[1..];
      }
    }
  }

  predicate IsChild(k: Path, p: Path) {
    |k| == |p| + 1 && k[..|p|] == p
  }

  /** No child of `p` known to `m` is still to be completed. */
  predicate ChildrenDone(m: Table, p: Path) {
    forall k <- m :: IsChild(k, p) ==> m[k] == Completed
  }

  lemma ChildrenDoneUnion(a: Table, b: Table, p: Path)
    requires a.Keys !! b.Keys
    ensures ChildrenDone(a + b, p) <==> ChildrenDone(a, p) && ChildrenDone(b, p)
  {
    if ChildrenDone(a + b, p) {
      forall k <- a | IsChild(k, p)
        ensures a[k] == Completed
      {
        assert k in a + b && (a + b)[k] == a[k];
      }
      forall k <- b | IsChild(k, p)
        ensures b[k] == Completed
      {
        assert k in a + b;
      }
    }
  }

  lemma NodeDone(t: Tree, p: Path, done: nat)
    requires done <= Leaves(t)
    ensures ChildrenDone(NodeKnown(t, p, done), p) <==> done == Leaves(t)
  {
    hide NodeKnown;
    var q := p + [t.name];
    NodeKnownBelow(t, p, done);
    assert IsChild(q, p);
    forall k <- NodeKnown(t, p, done) | IsChild(k, p)
      ensures k == q
    {
      assert k == k[..|p|] + [k[|p|]];
    }
  }

  lemma SiblingsDisjoint(t: Tree, rest: seq<Tree>, p: Path, d: nat, e: nat)
    requires t.name !in Names(rest)
    ensures NodeKnown(t, p, d).Keys !! Known(rest, p, e).Keys
  {
    NodeKnownBelow(t, p, d);
    KnownBelow(rest, p, e);
  }

  /** Every child of `p` is complete exactly when every leaf below it is. */
  lemma {:induction false} ChildrenComplete(ts: seq<Tree>, p: Path, done: nat)
    requires Distinct(ts) && done <= LeafCount(ts)
    ensures ChildrenDone(Known(ts, p, done), p) <==> done == LeafCount(ts)
  {
    hide ChildrenDone, NodeKnown, Leaves;
    if ts != [] {
      var d := Min(done, Leaves(ts[0]));
      ChildrenComplete(ts[1..], p, done - d);
      NodeDone(ts[0], p, d);
      SiblingsDisjoint(ts[0], ts[1..], p, d, done - d);
      ChildrenDoneUnion(NodeKnown(ts[0], p, d), Known(ts[1..], p, done - d), p);
    } else {
      NothingDone(p);
    }
  }

  lemma NothingDone(p: Path)
    ensures ChildrenDone(map[], p)
  {}

  // ----- The tracker -----

  /** Leaving a section settles its state by those of the sections known in it. */
  function Settled(m: Table, p: Path): Table {
    m[p := if ChildrenDone(m, p) then Completed else ExecutingChildren]
  }

  /** The tracker's fields, and its steps as functions of them. */
  datatype Tracking = Tracking(states: Table, current: Path, spent: bool) {

    predicate HasChildren() {
      exists k <- states :: IsChild(k, current)
    }

    function StateOf(q: Path): RunState {
      if q in states then states[q] else NotStarted
    }

    function Entered(name: string): (Tracking, bool) {
      var q := current + [name];
      var before := StateOf(q);
      if spent || before == Completed then (this.(states := states[q := before]), false)
      else (this.(states := states[q := if before == NotStarted then Executing else before], current := q), true)
    }

    function Left(): Tracking
      requires current != []
    {
      Tracking(Settled(states, current), current[..|current| - 1], true)
    }

    function Started(): Tracking {
      Tracking(if StateOf([]) == NotStarted then states[[] := Executing] else states, [], false)
    }
  }

  const UNTRACKED := Tracking(map[[] := NotStarted], [], false)

  class TestCaseTracker {
    var states: Table
    var current: Path
    var completedASectionThisRun: bool

    function Fields(): Tracking
      reads this
    {
      Tracking(states, current, completedASectionThisRun)
    }

    constructor ()
      ensures Fields() == UNTRACKED
    {
      states, current, completedASectionThisRun := map[[] := NotStarted], [], false;
    }

    method AcquireChild(name: string) returns (child: Path)
      modifies this`states
      ensures child == current + [name]
      ensures states == if child in old(states) then old(states) else old(states)[child := NotStarted]
    {
      child := current + [name];
      if child !in states {
        states := states[child := NotStarted];
      }
    }

    /** A section is entered unless it is complete or this run already completed
        one; either way it is known from now on. */
    method EnterSection(name: string) returns (entered: bool)
      modifies this`states, this`current
      ensures (Fields(), entered) == old(Fields()).Entered(name)
    {
      var child := AcquireChild(name);
      assert states == old(states)[child := old(Fields()).StateOf(child)];
      if completedASectionThisRun || states[child] == Completed {
        return false;
      }
      current := child;
      Enter(current);
      assert states == old(states)[child := states[child]];
      entered := true;
    }

    method Enter(section: Path)
      requires section in states
      modifies this`states
      ensures states == if old(states[section]) == NotStarted then old(states)[section := Executing] else old(states)
    {
      if states[section] == NotStarted {
        states := states[section := Executing];
      }
    }

    /** A section is complete when every section known inside it is. */
    method Leave(section: Path)
      modifies this`states
      ensures states == Settled(old(states), section)
    {
      if exists k <- states :: IsChild(k, section) && states[k] != Completed {
        states := states[section := ExecutingChildren];
        return;
      }
      states := states[section := Completed];
    }

    method LeaveSection()
      requires current != []
      modifies this
      ensures Fields() == old(Fields()).Left()
    {
      Leave(current);
      current := current[..|current| - 1];
      completedASectionThisRun := true;
    }

    method EnterTestCase()
      requires [] in states
      modifies this
      ensures Fields() == old(Fields()).Started()
    {
      current := [];
      completedASectionThisRun := false;
      Enter([]);
    }

    method LeaveTestCase()
      modifies this`states
      ensures states == Settled(old(states), [])
    {
      Leave([]);
    }

    predicate CurrentSectionHasChildren()
      reads this
    {
      Fields().HasChildren()
    }

    predicate IsCompleted()
      requires [] in states
      reads this
    {
      states[[]] == Completed
    }
  }

  // ----- One run of the body -----

  function NodeBefore(known: bool, t: Tree, p: Path, done: nat): Table {
    if known then NodeKnown(t, p, done) else map[]
  }

  lemma Rotate(base: Table, n: Table, k: Table)
    requires n.Keys !! k.Keys
    ensures base + (n + k) == base + k + n
    ensures base + n + k == base + (n + k)
  {}

  lemma Reopen(base: Table, q: Path, s: RunState, x: RunState, k: Table)
    requires q !in k
    ensures (base + (map[q := s] + k))[q := x] == base[q := x] + k
    ensures (base[q := s] + k)[q := x] == base + (map[q := x] + k)
  {}

  lemma ClearUnion(a: Table, b: Table, p: Path, names: set<string>)
    requires Clear(a, p, names) && Clear(b, p, names)
    ensures Clear(a + b, p, names)
  {}

  lemma KnownClear(ts: seq<Tree>, p: Path, done: nat, names: set<string>)
    requires names !! Names(ts)
    ensures Clear(Known(ts, p, done), p, names)
  {
    KnownBelow(ts, p, done);
  }

  lemma NodeKnownClear(t: Tree, p: Path, done: nat, names: set<string>)
    requires t.name !in names
    ensures Clear(NodeKnown(t, p, done), p, names)
  {
    NodeKnownBelow(t, p, done);
  }

  lemma NotInKnown(ts: seq<Tree>, q: Path, done: nat)
    ensures q !in Known(ts, q, done)
  {
    KnownBelow(ts, q, done);
  }

  lemma BelowNested(k: Path, p: Path, name: string, names: set<string>)
    requires Below(k, p + [name], names) || IsChild(k, p + [name])
    ensures Below(k, p, {name})
  {
    var q := p + [name];
    assert k[..|q|][..|p|] == k[..|p|];
  }

  lemma ClearInside(base: Table, p: Path, name: string, x: RunState, names: set<string>)
    requires Clear(base, p, {name})
    ensures Clear(base[p + [name] := x], p + [name], names)
    ensures ChildrenDone(base[p + [name] := x], p + [name])
  {
    var q := p + [name];
    forall k <- base[q := x]
      ensures !Below(k, q, names) && !IsChild(k, q)
    {
      if Below(k, q, names) || IsChild(k, q) {
        BelowNested(k, p, name, names);
      }
    }
  }

  lemma OpenSection(base: Table, t: Tree, p: Path, known: bool, done: nat)
    requires Clear(base, p, {t.name})
    requires done < Leaves(t) && (!known ==> done == 0)
    ensures var q := p + [t.name];
            var before := base + NodeBefore(known, t, p, done);
            var x := if done == 0 then Executing else ExecutingChildren;
            && before[q := x] == base[q := x] + Before(done > 0, t.kids, q, done)
            && Clear(base[q := x], q, Names(t.kids))
  {
    hide Known, Clear;
    var q := p + [t.name];
    var x := if done == 0 then Executing else ExecutingChildren;
    ClearInside(base, p, t.name, x, Names(t.kids));
    NotInKnown(t.kids, q, done);
    Reopen(base, q, Progress(done, Leaves(t)), x, if done == 0 then map[] else Known(t.kids, q, done));
  }

  /** Leaving a section whose first `done` leaves are complete settles its state. */
  lemma CloseSection(base: Table, x: RunState, t: Tree, p: Path, done: nat)
    requires Clear(base, p, {t.name}) && Distinct(t.kids)
    requires 0 < done <= Leaves(t)
    ensures var q := p + [t.name];
            var inside := base[q := x] + Known(t.kids, q, done);
            Settled(inside, q) == base + NodeKnown(t, p, done)
  {
    hide Known, Clear, ChildrenDone, Distinct;
    var q := p + [t.name];
    var known := Known(t.kids, q, done);
    ClearInside(base, p, t.name, x, Names(t.kids));
    ClearDisjoint(base[q := x], t.kids, q, done);
    ChildrenDoneUnion(base[q := x], known, q);
    if t.kids == [] {
      NothingKnown(q, done);
    } else {
      ChildrenComplete(t.kids, q, done);
    }
    NotInKnown(t.kids, q, done);
    Reopen(base, q, x, Progress(done, Leaves(t)), known);
  }

  /** When a section is about to be left, the tracker knows sections inside it
      exactly if its body has any: only a leaf section can miss an assertion. */
  lemma OnlyLeavesHaveNone(base: Table, x: RunState, t: Tree, p: Path, done: nat, spent: bool)
    requires Clear(base, p, {t.name})
    ensures var q := p + [t.name];
            Tracking(base[q := x] + Known(t.kids, q, done), q, spent).HasChildren() <==> t.kids != []
  {
    hide NodeKnown, Clear;
    var q := p + [t.name];
    var inside := base[q := x] + Known(t.kids, q, done);
    if t.kids == [] {
      NoChildren(base, x, p, t.name);
      assert inside == base[q := x];
    } else {
      var first := q + [t.kids[0].name];
      NodeKnownBelow(t.kids[0], q, Min(done, Leaves(t.kids[0])));
      assert first in Known(t.kids, q, done);
      assert IsChild(first, q);
    }
  }

  lemma NoChildren(base: Table, x: RunState, p: Path, name: string)
    requires Clear(base, p, {name})
    ensures forall k <- base[p + [name] := x] :: !IsChild(k, p + [name])
  {
    var q := p + [name];
    forall k <- base[q := x]
      ensures !IsChild(k, q)
    {
      if IsChild(k, q) {
        BelowNested(k, p, name, {});
      }
    }
  }

  lemma NothingKnown(p: Path, done: nat)
    ensures Known([], p, done) == map[] && ChildrenDone(map[], p)
  {}

  lemma ClearDisjoint(base: Table, ts: seq<Tree>, p: Path, done: nat)
    requires Clear(base, p, Names(ts))
    ensures base.Keys !! Known(ts, p, done).Keys
  {
    KnownBelow(ts, p, done);
  }

  /** A run completes the first incomplete leaf, unless it has `spent` that already. */
  function Next(spent: bool, done: nat, total: nat): nat {
    if !spent && done < total then done + 1 else done
  }

  function OneLeaf(spent: bool, leaves: seq<Path>, done: nat): seq<Path> {
    if !spent && done < |leaves| then [leaves[done]] else []
  }

  /** What the tracker finds when it meets section `t`. */
  lemma AtSection(base: Table, t: Tree, p: Path, known: bool, done: nat)
    requires Clear(base, p, {t.name})
    requires !known ==> done == 0
    ensures var q := p + [t.name];
            var before := base + NodeBefore(known, t, p, done);
            && (if known then q in before && before[q] == Progress(done, Leaves(t)) else q !in before)
            && before[q := Progress(done, Leaves(t))] == base + NodeKnown(t, p, done)
  {
    var q := p + [t.name];
    NodeKnownBelow(t, p, done);
    assert Below(q, p, {t.name});
  }

  /** One SECTION of the body: entered or skipped, and if entered its own body
      run and left. `ran` lists the leaf sections whose body was executed. */
  method RunSection(tracker: TestCaseTracker, t: Tree,
                    ghost base: Table, ghost known: bool, ghost done: nat) returns (ran: seq<Path>)
    requires Distinct(t.kids) && done <= Leaves(t) && (!known ==> done == 0)
    requires Clear(base, tracker.current, {t.name})
    requires tracker.states == base + NodeBefore(known, t, tracker.current, done)
    modifies tracker
    ensures tracker.current == old(tracker.current)
    ensures var p, spent := tracker.current, old(tracker.completedASectionThisRun);
            && tracker.states == base + NodeKnown(t, p, Next(spent, done, Leaves(t)))
            && ran == OneLeaf(spent, NodeLeafPaths(t, p), done)
            && tracker.completedASectionThisRun == (spent || done < Leaves(t))
    decreases t, 0
  {
    hide Known, NodeKnown, Clear, Names, LeafPaths, ChildrenDone, Settled, Tracking.HasChildren;
    ghost var p := tracker.current;
    ghost var q := p + [t.name];
    if done < Leaves(t) {
      OpenSection(base, t, p, known, done);
    }
    AtSection(base, t, p, known, done);
    ran := [];
    var entered := tracker.EnterSection(t.name);
    if entered {
      ghost var x := if done == 0 then Executing else ExecutingChildren;
      ran := RunSections(tracker, t.kids, base[q := x], done > 0, done);
      if t.kids == [] {
        ran := [tracker.current];
        NothingKnown(q, done);
        NothingKnown(q, done + 1);
      }
      CloseSection(base, x, t, p, done + 1);
      OnlyLeavesHaveNone(base, x, t, p, done + 1, tracker.completedASectionThisRun);
      assert tracker.CurrentSectionHasChildren() <==> t.kids != [];
      tracker.LeaveSection();
    }
  }

  method RunSections(tracker: TestCaseTracker, ts: seq<Tree>,
                     ghost base: Table, ghost known: bool, ghost done: nat) returns (ran: seq<Path>)
    requires Distinct(ts) && done <= LeafCount(ts) && (!known ==> done == 0)
    requires Clear(base, tracker.current, Names(ts))
    requires tracker.states == base + Before(known, ts, tracker.current, done)
    modifies tracker
    ensures tracker.current == old(tracker.current)
    ensures var p, spent := tracker.current, old(tracker.completedASectionThisRun);
            && tracker.states == base + Known(ts, p, Next(spent, done, LeafCount(ts)))
            && ran == OneLeaf(spent, LeafPaths(ts, p), done)
            && tracker.completedASectionThisRun == (spent || done < LeafCount(ts))
    decreases ts
  {
    ran := [];
    if ts == [] {
      return;
    }
    hide Known, NodeKnown, Clear, Names, LeafPaths, NodeLeafPaths, Distinct, LeafCount, Leaves, OneLeaf, Next;
    ghost var p := tracker.current;
    ghost var d := Min(done, Leaves(ts[0]));
    ghost var spent := tracker.completedASectionThisRun;
    Advance(spent, ts, p, done);
    ghost var rest := Before(known, ts[1..], p, done - d);
    SplitFirst(base, ts, p, known, done);
    ghost var d' := Next(spent, d, Leaves(ts[0]));
    var first := RunSection(tracker, ts[0], base + rest, known, d);
    JoinFirst(base, ts, p, known, done, d');
    Associate(base, NodeKnown(ts[0], p, d'),
              Known(ts[1..], p, Next(spent || d < Leaves(ts[0]), done - d, LeafCount(ts[1..]))));
    var later := RunSections(tracker, ts[1..], base + NodeKnown(ts[0], p, d'), known, done - d);
    ran := first + later;
  }

  lemma Associate(a: Table, b: Table, c: Table)
    ensures a + b + c == a + (b + c)
  {}

  /** How one more leaf falls on the first section or on the ones after it. */
  lemma Advance(spent: bool, ts: seq<Tree>, p: Path, done: nat)
    requires ts != [] && done <= LeafCount(ts) && Distinct(ts)
    ensures Distinct(ts[0].kids) && Distinct(ts[1..])
    ensures var n, d, rest := Leaves(ts[0]), Min(done, Leaves(ts[0])), ts[1..];
            var spent' := spent || d < n;
            && done - d <= LeafCount(rest)
            && (spent || done < LeafCount(ts) <==> spent' || done - d < LeafCount(rest))
            && Known(ts, p, Next(spent, done, LeafCount(ts)))
               == NodeKnown(ts[0], p, Next(spent, d, n)) + Known(rest, p, Next(spent', done - d, LeafCount(rest)))
            && OneLeaf(spent, LeafPaths(ts, p), done)
               == OneLeaf(spent, NodeLeafPaths(ts[0], p), d) + OneLeaf(spent', LeafPaths(rest, p), done - d)
  {
    hide NodeKnown, NodeLeafPaths, Leaves, Names;
    var n, d := Leaves(ts[0]), Min(done, Leaves(ts[0]));
    assert LeafPaths(ts, p) == NodeLeafPaths(ts[0], p) + LeafPaths(ts[1..], p);
    assert d == done || d == n;
  }

  lemma SplitFirst(base: Table, ts: seq<Tree>, p: Path, known: bool, done: nat)
    requires ts != [] && Distinct(ts) && Clear(base, p, Names(ts))
    ensures var d := Min(done, Leaves(ts[0]));
            var rest := Before(known, ts[1..], p, done - d);
            && base + Before(known, ts, p, done) == base + rest + NodeBefore(known, ts[0], p, d)
            && Clear(base + rest, p, {ts[0].name})
  {
    hide NodeKnown, Clear, Names, Leaves;
    var d := Min(done, Leaves(ts[0]));
    var rest := Known(ts[1..], p, done - d);
    SiblingsDisjoint(ts[0], ts[1..], p, d, done - d);
    Rotate(base, NodeKnown(ts[0], p, d), rest);
    ClearFirst(base, ts, p);
    KnownClear(ts[1..], p, done - d, {ts[0].name});
    ClearUnion(base, rest, p, {ts[0].name});
    assert base + map[] == base;
  }

  lemma ClearFirst(base: Table, ts: seq<Tree>, p: Path)
    requires ts != [] && Clear(base, p, Names(ts))
    ensures Clear(base, p, {ts[0].name}) && Clear(base, p, Names(ts[1..]))
  {
    assert ts[0].name in Names(ts);
    assert Names(ts[1..]) <= Names(ts);
  }

  lemma JoinFirst(base: Table, ts: seq<Tree>, p: Path, known: bool, done: nat, d': nat)
    requires ts != [] && Distinct(ts) && Clear(base, p, Names(ts))
    ensures var d := Min(done, Leaves(ts[0]));
            var rest := Before(known, ts[1..], p, done - d);
            && base + rest + NodeKnown(ts[0], p, d') == base + NodeKnown(ts[0], p, d') + rest
            && Clear(base + NodeKnown(ts[0], p, d'), p, Names(ts[1..]))
  {
    hide NodeKnown, Clear, Names, Leaves;
    var d := Min(done, Leaves(ts[0]));
    var first := NodeKnown(ts[0], p, d');
    SiblingsDisjoint(ts[0], ts[1..], p, d', done - d);
    Rotate(base, first, Known(ts[1..], p, done - d));
    assert base + map[] + first == base + first + map[];
    ClearFirst(base, ts, p);
    NodeKnownClear(ts[0], p, d', Names(ts[1..]));
    ClearUnion(base, first, p, Names(ts[1..]));
  }
}
