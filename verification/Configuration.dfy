/** `Config::parseConfig` on decoded sections: which processes it registers. */
module Configuration {
  import opened Basics
  import opened NameFilter
  import opened Processes
  import opened Supervision

  // ----- Sections -----

  /** A key of a command section with its value; anything else is ignored. */
  datatype Entry = Command(text: string) | Enabled(on: bool) | Ignored

  datatype Section =
    | WatchSection(filters: seq<string>)
    | CompileSection(entries: seq<Entry>)
    | TestSection(entries: seq<Entry>)
    | ProgramSection(entries: seq<Entry>)
    | UnknownSection

  /** A command configuration, kept and updated by every section of its kind. */
  datatype CommandConfig = CommandConfig(enabled: bool, command: Option<string>) {
    predicate Usable() {
      command.Some? && enabled
    }
  }

  const UNSET := CommandConfig(true, None)

  function Updated(c: CommandConfig, entries: seq<Entry>): CommandConfig {
    if entries == [] then c
    else
      var before := Updated(c, entries[..|entries| - 1]);
      match entries[|entries| - 1]
      case Command(text) => before.(command := Some(text))
      case Enabled(on) => before.(enabled := on)
      case Ignored => before
  }

  datatype Settings = Settings(filters: seq<string>, compile: CommandConfig, test: CommandConfig,
                               program: CommandConfig, built: bool, tests: nat, programmed: bool)

  const BLANK := Settings([], UNSET, UNSET, UNSET, false, 0, false)

  function Section1(s: Settings, section: Section): Option<Settings> {
    match section
    case WatchSection(filters) =>
      if forall f <- filters :: Admitted(f) then Some(s.(filters := s.filters + filters)) else None
    case CompileSection(entries) =>
      var c := Updated(s.compile, entries);
      if s.built then None else Some(s.(compile := c, built := c.Usable()))
    case TestSection(entries) =>
      var c := Updated(s.test, entries);
      Some(s.(test := c, tests := if c.Usable() then s.tests + 1 else s.tests))
    case ProgramSection(entries) =>
      var c := Updated(s.program, entries);
      if s.programmed then None else Some(s.(program := c, programmed := c.Usable()))
    case UnknownSection => None
  }

  function Configured(sections: seq<Section>): Option<Settings> {
    if sections == [] then Some(BLANK)
    else match Configured(sections[..|sections| - 1])
      case None => None
      case Some(s) => Section1(s, sections[|sections| - 1])
  }

  // ----- What a configuration registers -----

  /** The configuration of the compile step or the program after all its sections. */
  function CompileAfter(sections: seq<Section>): CommandConfig {
    if sections == [] then UNSET
    else
      var before := CompileAfter(sections[..|sections| - 1]);
      var last := sections[|sections| - 1];
      if last.CompileSection? then Updated(before, last.entries) else before
  }

  function ProgramAfter(sections: seq<Section>): CommandConfig {
    if sections == [] then UNSET
    else
      var before := ProgramAfter(sections[..|sections| - 1]);
      var last := sections[|sections| - 1];
      if last.ProgramSection? then Updated(before, last.entries) else before
  }

  function TestAfter(sections: seq<Section>): CommandConfig {
    if sections == [] then UNSET
    else
      var before := TestAfter(sections[..|sections| - 1]);
      var last := sections[|sections| - 1];
      if last.TestSection? then Updated(before, last.entries) else before
  }

  /** The entries of all compile, program or test sections, one after the other. */
  function CompileEntries(sections: seq<Section>): seq<Entry> {
    if sections == [] then []
    else
      var last := sections[|sections| - 1];
      CompileEntries(sections[..|sections| - 1]) + (if last.CompileSection? then last.entries else [])
  }

  function ProgramEntries(sections: seq<Section>): seq<Entry> {
    if sections == [] then []
    else
      var last := sections[|sections| - 1];
      ProgramEntries(sections[..|sections| - 1]) + (if last.ProgramSection? then last.entries else [])
  }

  function TestEntries(sections: seq<Section>): seq<Entry> {
    if sections == [] then []
    else
      var last := sections[|sections| - 1];
      TestEntries(sections[..|sections| - 1]) + (if last.TestSection? then last.entries else [])
  }

  ghost predicate Commanded(entries: seq<Entry>) {
    exists k :: 0 <= k < |entries| && entries[k].Command?
  }

  /** Every switch to off is followed by another switch. */
  ghost predicate SwitchedOn(entries: seq<Entry>) {
    forall k :: 0 <= k < |entries| && entries[k] == Enabled(false) ==>
      exists j :: k < j < |entries| && entries[j].Enabled?
  }

  lemma {:induction false} UpdatedConcat(c: CommandConfig, a: seq<Entry>, b: seq<Entry>)
    ensures Updated(c, a + b) == Updated(Updated(c, a), b)
    decreases |b|
  {
    if b == [] {
      assert a + b == a;
    } else {
      assert (a + b)[..|a + b| - 1] == a + b[..|b| - 1];
      UpdatedConcat(c, a, b[..|b| - 1]);
    }
  }

  /** The last command decides. */
  lemma {:induction false} LastCommand(c: CommandConfig, entries: seq<Entry>, k: nat)
    requires k < |entries| && entries[k].Command?
    requires forall j :: k < j < |entries| ==> !entries[j].Command?
    ensures Updated(c, entries).command == Some(entries[k].text)
  {
    var n := |entries| - 1;
    if k < n {
      assert !entries[n].Command?;
      LastCommand(c, entries[..n], k);
    }
  }

  /** A command configuration is usable exactly if some command was given and the
      last switch, if there is one, is not off. */
  lemma {:induction false} UsableExactly(entries: seq<Entry>)
    ensures Updated(CommandConfig(true, None), entries).command.Some? <==> Commanded(entries)
    ensures Updated(CommandConfig(true, None), entries).enabled <==> SwitchedOn(entries)
    ensures Updated(CommandConfig(true, None), entries).Usable() <==> Commanded(entries) && SwitchedOn(entries)
  {
    if entries != [] {
      var init, last := entries[..|entries| - 1], entries[|entries| - 1];
      UsableExactly(init);
      assert entries == init + [last];
      OneMoreEntry(init, last);
    }
  }

  lemma OneMoreEntry(init: seq<Entry>, last: Entry)
    ensures Commanded(init + [last]) <==> Commanded(init) || last.Command?
    ensures SwitchedOn(init + [last]) <==> if last.Enabled? then last.on else SwitchedOn(init)
  {
    var all, n := init + [last], |init|;
    assert all[n] == last && forall k :: 0 <= k < n ==> all[k] == init[k];
    if last.Command? {
      assert all[n].Command?;
    }
    if k :| 0 <= k < n && init[k].Command? {
      assert all[k].Command?;
    }
    if last.Enabled? {
      assert all[n].Enabled?;
    } else {
      forall k | 0 <= k < n && init[k] == Enabled(false)
        ensures (exists j :: k < j < n && init[j].Enabled?) <==> exists j :: k < j < |all| && all[j].Enabled?
      {
        if j :| k < j < n && init[j].Enabled? {
          assert all[j].Enabled?;
        }
      }
    }
  }

  lemma {:induction false} AllEntries(sections: seq<Section>)
    ensures CompileAfter(sections) == Updated(CommandConfig(true, None), CompileEntries(sections))
    ensures ProgramAfter(sections) == Updated(CommandConfig(true, None), ProgramEntries(sections))
    ensures TestAfter(sections) == Updated(CommandConfig(true, None), TestEntries(sections))
  {
    if sections != [] {
      hide Updated;
      var init, last := sections[..|sections| - 1], sections[|sections| - 1];
      AllEntries(init);
      var base := CommandConfig(true, None);
      UpdatedConcat(base, CompileEntries(init), if last.CompileSection? then last.entries else []);
      UpdatedConcat(base, ProgramEntries(init), if last.ProgramSection? then last.entries else []);
      UpdatedConcat(base, TestEntries(init), if last.TestSection? then last.entries else []);
      NoEntries(CompileAfter(init));
      NoEntries(ProgramAfter(init));
      NoEntries(TestAfter(init));
    } else {
      NoEntries(UNSET);
    }
  }

  lemma NoEntries(c: CommandConfig)
    ensures Updated(c, []) == c
  {}

  /** Section `k` is a test section, and with it the tests are usable. */
  ghost predicate Active(sections: seq<Section>, k: nat)
    requires k < |sections|
  {
    && sections[k].TestSection?
    && Commanded(TestEntries(sections[..k + 1])) && SwitchedOn(TestEntries(sections[..k + 1]))
  }

  ghost function ActiveTests(sections: seq<Section>): set<int> {
    set k | 0 <= k < |sections| && Active(sections, k)
  }

  /** What is registered, by the entries alone: a build step and a program if some
      command was given for them and the last switch is not off, and one test for
      every test section up to which that holds of the tests. */
  lemma RegisteredExactly(sections: seq<Section>)
    requires Configured(sections).Some?
    ensures var s := Configured(sections).value;
            && (s.built <==> Commanded(CompileEntries(sections)) && SwitchedOn(CompileEntries(sections)))
            && (s.programmed <==> Commanded(ProgramEntries(sections)) && SwitchedOn(ProgramEntries(sections)))
            && s.tests == |ActiveTests(sections)|
  {
    hide Configured, Updated, Commanded, SwitchedOn, CommandConfig.Usable;
    RegisteredOnce(sections);
    AllEntries(sections);
    UsableExactly(CompileEntries(sections));
    UsableExactly(ProgramEntries(sections));
    TestsCounted(sections);
  }

  lemma NoSections()
    ensures Configured([]).Some? && Configured([]).value.tests == 0 && Configured([]).value.test == TestAfter([])
    ensures Configured([]).value.filters == [] && ActiveTests([]) == {}
  {}

  lemma SectionStep(sections: seq<Section>)
    requires sections != [] && Configured(sections).Some?
    ensures var init, last := sections[..|sections| - 1], sections[|sections| - 1];
            && Configured(init).Some?
            && (Configured(init).value.test == TestAfter(init) ==>
                  && Configured(sections).value.test == TestAfter(sections)
                  && Configured(sections).value.tests
                     == Configured(init).value.tests
                        + (if last.TestSection? && TestAfter(sections).Usable() then 1 else 0))
            && Configured(sections).value.filters
               == Configured(init).value.filters + (if last.WatchSection? then last.filters else [])
  {
    hide Updated, Admitted;
  }

  lemma {:induction false} TestsCounted(sections: seq<Section>)
    requires Configured(sections).Some?
    ensures Configured(sections).value.test == TestAfter(sections)
    ensures Configured(sections).value.tests == |ActiveTests(sections)|
  {
    hide Updated, Commanded, SwitchedOn, TestEntries, Configured, TestAfter, Active, ActiveTests, CommandConfig.Usable;
    NoSections();
    if sections != [] {
      var init := sections[..|sections| - 1];
      SectionStep(sections);
      TestsCounted(init);
      AllEntries(sections);
      UsableExactly(TestEntries(sections));
      ActiveLast(sections);
      OneMoreSection(sections);
    }
  }

  lemma ActiveEarlier(sections: seq<Section>, n: nat, k: nat)
    requires k < n <= |sections|
    ensures Active(sections[..n], k) <==> Active(sections, k)
  {
    assert sections[..n][..k + 1] == sections[..k + 1];
  }

  lemma ActiveLast(sections: seq<Section>)
    requires sections != []
    ensures Active(sections, |sections| - 1) <==>
              && sections[|sections| - 1].TestSection?
              && Commanded(TestEntries(sections)) && SwitchedOn(TestEntries(sections))
  {
    assert sections[..|sections|] == sections;
  }

  lemma OneMoreSection(sections: seq<Section>)
    requires sections != []
    ensures |ActiveTests(sections)|
            == |ActiveTests(sections[..|sections| - 1])| + (if Active(sections, |sections| - 1) then 1 else 0)
  {
    hide Active;
    var n := |sections| - 1;
    forall k | 0 <= k < n
      ensures Active(sections[..n], k) <==> Active(sections, k)
    {
      ActiveEarlier(sections, n, k);
    }
    assert ActiveTests(sections) == ActiveTests(sections[..n]) + (if Active(sections, n) then {n} else {});
    assert n !in ActiveTests(sections[..n]);
  }

  /** What each section must be for a configuration to be accepted. */
  ghost predicate Fine(sections: seq<Section>, k: nat)
    requires k < |sections|
  {
    match sections[k]
    case WatchSection(filters) => forall f <- filters :: OneStarAtMost(f)
    case CompileSection(_) => !(Commanded(CompileEntries(sections[..k])) && SwitchedOn(CompileEntries(sections[..k])))
    case ProgramSection(_) => !(Commanded(ProgramEntries(sections[..k])) && SwitchedOn(ProgramEntries(sections[..k])))
    case TestSection(_) => true
    case UnknownSection => false
  }

  lemma FineEarlier(sections: seq<Section>, n: nat, k: nat)
    requires k < n <= |sections|
    ensures Fine(sections[..n], k) <==> Fine(sections, k)
  {
    assert sections[..n][..k] == sections[..k];
  }

  lemma FineLast(sections: seq<Section>)
    requires sections != [] && Configured(sections[..|sections| - 1]).Some?
    ensures Fine(sections, |sections| - 1) <==> Configured(sections).Some?
  {
    hide Updated, Commanded, SwitchedOn, CompileEntries, ProgramEntries, OneStarAtMost, Admitted;
    var n := |sections| - 1;
    RegisteredExactly(sections[..n]);
    if sections[n].WatchSection? {
      forall f <- sections[n].filters
        ensures Admitted(f) <==> OneStarAtMost(f)
      {
        AdmittedExactly(f);
      }
    }
  }

  /** Exactly which configurations are accepted: those without an unknown section,
      without a filter of two stars, and without a compile or program section
      behind those that registered a build step or a program. */
  lemma {:induction false} ConfiguresExactly(sections: seq<Section>)
    ensures Configured(sections).Some? <==> forall k :: 0 <= k < |sections| ==> Fine(sections, k)
  {
    hide Fine;
    if sections == [] {
      NoSections();
    } else {
      var n := |sections| - 1;
      ConfiguresExactly(sections[..n]);
      forall k | 0 <= k < n
        ensures Fine(sections[..n], k) <==> Fine(sections, k)
      {
        FineEarlier(sections, n, k);
      }
      if Configured(sections[..n]).Some? {
        FineLast(sections);
      }
    }
  }

  /** Exactly the filters of the watch sections are stored, and each is matched as
      a glob: with a star it stands for one character or more, without a star the
      name must begin and end with it. */
  lemma StoredFiltersAreGlobs(sections: seq<Section>, f: string, name: string)
    requires Configured(sections).Some?
    ensures f in Configured(sections).value.filters <==>
              exists s <- sections :: s.WatchSection? && f in s.filters
    ensures f in Configured(sections).value.filters ==>
              (Accepts(f, name) <==>
                 if '*' in f then Glob(1, f, name)
                 else f != "" && |f| <= |name| && name[..|f|] == f && name[|name| - |f|..] == f)
  {
    hide Configured, Accepts, Glob;
    FiltersStored(sections, f);
    RegisteredOnce(sections);
    AcceptsAsGlob(f, name);
  }

  lemma {:induction false} FiltersStored(sections: seq<Section>, f: string)
    requires Configured(sections).Some?
    ensures f in Configured(sections).value.filters <==>
              exists s <- sections :: s.WatchSection? && f in s.filters
  {
    hide Configured;
    NoSections();
    if sections != [] {
      var init, last := sections[..|sections| - 1], sections[|sections| - 1];
      assert sections == init + [last];
      SectionStep(sections);
      FiltersStored(init, f);
    }
  }

  /** A second build step or program is an error, never a silent replacement: on
      success each is registered exactly when its sections, taken together, end
      up enabled with a command. Every stored filter has at most one star. */
  lemma {:induction false} RegisteredOnce(sections: seq<Section>)
    requires Configured(sections).Some?
    ensures var s := Configured(sections).value;
            && s.built == CompileAfter(sections).Usable() && s.compile == CompileAfter(sections)
            && s.programmed == ProgramAfter(sections).Usable() && s.program == ProgramAfter(sections)
            && forall f <- s.filters :: Admitted(f)
  {
    if sections != [] {
      RegisteredOnce(sections[..|sections| - 1]);
    }
  }

  /** Once a program is registered, any further program section is an error. */
  lemma {:induction false} SecondProgramFails(sections: seq<Section>, more: seq<Section>)
    requires Configured(sections).Some? && Configured(sections).value.programmed
    requires exists p <- more :: p.ProgramSection?
    ensures Configured(sections + more).None?
    decreases |more|
  {
    var init, last := more[..|more| - 1], more[|more| - 1];
    assert (sections + more)[..|sections + more| - 1] == sections + init;
    if exists p <- init :: p.ProgramSection? {
      SecondProgramFails(sections, init);
    } else {
      StaysProgrammed(sections, init);
      assert more == init + [last];
    }
  }

  lemma {:induction false} StaysProgrammed(sections: seq<Section>, more: seq<Section>)
    requires Configured(sections).Some? && Configured(sections).value.programmed
    ensures Configured(sections + more).Some? ==> Configured(sections + more).value.programmed
    decreases |more|
  {
    if more == [] {
      assert sections + more == sections;
    } else {
      assert (sections + more)[..|sections + more| - 1] == sections + more[..|more| - 1];
      StaysProgrammed(sections, more[..|more| - 1]);
    }
  }

  // ----- Reading the configuration -----

  class Config {
    const procman: ProcessManager
    var filters: seq<string>
    var compile: CommandConfig
    var test: CommandConfig
    var program: CommandConfig

    constructor (procman: ProcessManager)
      ensures this.procman == procman && filters == []
      ensures compile == test == program == UNSET
    {
      this.procman := procman;
      filters := [];
      compile, test, program := UNSET, UNSET, UNSET;
    }

    /** Every registered process is a new object in its role. */
    ghost predicate Matches(s: Settings)
      reads this, procman
    {
      && filters == s.filters && compile == s.compile && test == s.test && program == s.program
      && (procman.mBuildStep != null <==> s.built)
      && (procman.mProgram != null <==> s.programmed)
      && |procman.mProcesses| == s.tests
      && (procman.mBuildStep != null ==> procman.mBuildStep.os == procman.os && procman.mBuildStep.who == Build)
      && (procman.mProgram != null ==> procman.mProgram.os == procman.os && procman.mProgram.who == Program)
      && (forall i {:trigger procman.mProcesses[i]} :: 0 <= i < |procman.mProcesses| ==>
            procman.mProcesses[i].os == procman.os && procman.mProcesses[i].who == Test(i))
    }

    /** No registered process was ever run. */
    ghost predicate Unstarted()
      reads this, procman, procman.Objects()
    {
      && (procman.mBuildStep != null ==> procman.mBuildStep.mProc == 0)
      && (procman.mProgram != null ==> procman.mProgram.mProc == 0)
      && (forall p <- procman.mProcesses :: p.mProc == 0)
    }

    method ParseCommand(c: CommandConfig, entries: seq<Entry>) returns (c': CommandConfig)
      ensures c' == Updated(c, entries)
    {
      c' := c;
      for n := 0 to |entries|
        invariant c' == Updated(c, entries[..n])
      {
        assert entries[..n + 1][..n] == entries[..n];
        match entries[n] {
          case Command(text) => c' := c'.(command := Some(text));
          case Enabled(on) => c' := c'.(enabled := on);
          case Ignored =>
        }
      }
      assert entries[..|entries|] == entries;
    }

    method ParseCompile(entries: seq<Entry>, ghost s: Settings) returns (ok: bool)
      requires Matches(s) && Unstarted()
      modifies this, procman
      ensures fresh(procman.Objects() - old(procman.Objects()))
      ensures ok <==> Section1(s, CompileSection(entries)).Some?
      ensures ok ==> Matches(Section1(s, CompileSection(entries)).value) && Unstarted()
    {
      hide Updated, CommandConfig.Usable;
      compile := ParseCommand(compile, entries);
      if procman.mBuildStep != null {
        return false;
      }
      ok := true;
      if compile.Usable() {
        var proc := new Process(procman.os, Build);
        ok := procman.SetBuilder(proc);
      }
    }

    method ParseTest(entries: seq<Entry>, ghost s: Settings) returns (ok: bool)
      requires Matches(s) && Unstarted()
      modifies this, procman
      ensures fresh(procman.Objects() - old(procman.Objects()))
      ensures ok <==> Section1(s, TestSection(entries)).Some?
      ensures ok ==> Matches(Section1(s, TestSection(entries)).value) && Unstarted()
    {
      hide Updated, CommandConfig.Usable;
      test := ParseCommand(test, entries);
      if test.Usable() {
        var proc := new Process(procman.os, Test(|procman.mProcesses|));
        procman.AddProcess(proc);
      }
      ok := true;
    }

    method ParseProgram(entries: seq<Entry>, ghost s: Settings) returns (ok: bool)
      requires Matches(s) && Unstarted()
      modifies this, procman
      ensures fresh(procman.Objects() - old(procman.Objects()))
      ensures ok <==> Section1(s, ProgramSection(entries)).Some?
      ensures ok ==> Matches(Section1(s, ProgramSection(entries)).value) && Unstarted()
    {
      hide Updated, CommandConfig.Usable;
      program := ParseCommand(program, entries);
      if procman.mProgram != null {
        return false;
      }
      ok := true;
      if program.Usable() {
        var proc := new Process(procman.os, Program);
        ok := procman.SetProgram(proc);
      }
    }

    /** One section; false stands for the exception. */
    method ParseSection(section: Section, ghost s: Settings) returns (ok: bool)
      requires Matches(s) && Unstarted()
      modifies this, procman
      ensures fresh(procman.Objects() - old(procman.Objects()))
      ensures ok <==> Section1(s, section).Some?
      ensures ok ==> Matches(Section1(s, section).value) && Unstarted()
    {
      hide Updated, Admitted, CommandConfig.Usable;
      match section {
        case WatchSection(values) => filters, ok := AdmitFilters(filters, values);
        case CompileSection(entries) => ok := ParseCompile(entries, s);
        case TestSection(entries) => ok := ParseTest(entries, s);
        case ProgramSection(entries) => ok := ParseProgram(entries, s);
        case UnknownSection => ok := false;
      }
    }

    method ParseConfig(sections: seq<Section>) returns (ok: bool)
      requires Matches(BLANK) && Unstarted()
      modifies this, procman
      ensures fresh(procman.Objects() - old(procman.Objects()))
      ensures ok <==> Configured(sections).Some?
      ensures ok ==> Matches(Configured(sections).value) && Unstarted()
    {
      hide Matches, Unstarted, Section1;
      ghost var s := BLANK;
      for n := 0 to |sections|
        invariant Matches(s) && Unstarted() && Configured(sections[..n]) == Some(s)
        invariant fresh(procman.Objects() - old(procman.Objects()))
      {
        assert sections[..n + 1][..n] == sections[..n];
        ok := ParseSection(sections[n], s);
        if !ok {
          StaysFailed(sections, n + 1);
          return;
        }
        s := Section1(s, sections[n]).value;
      }
      assert sections[..|sections|] == sections;
      ok := true;
    }
  }

  lemma {:induction false} StaysFailed(sections: seq<Section>, n: nat)
    requires n <= |sections| && Configured(sections[..n]).None?
    ensures Configured(sections).None?
    decreases |sections|
  {
    if n < |sections| {
      assert sections[..|sections| - 1][..n] == sections[..n];
      StaysFailed(sections[..|sections| - 1], n);
    } else {
      assert sections[..n] == sections;
    }
  }
}
