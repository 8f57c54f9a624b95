/** What holds of every run of the supervisor, read off the abstract machine. */
module RunLaws {
  import opened Basics
  import opened Supervision

  // ----- What a run may do to the program -----

  predicate IsLaunch(e: Event) {
    (e.Started? || e.ForkFailed?) && e.who == Program
  }

  /** A build that exits 0 and then every test once, in registration order. */
  function GreenTests(env: Env, n: nat): seq<Event> {
    WaitedEvents(Build, env.fates(n)) + TestEvents(env.fates, n + 1, env.tests)
  }

  /** The unreaped children when no child but `running` is left. */
  function Only(running: Option<Fate>): map<int, Role> {
    if ProgramPid(running).Some? then map[ProgramPid(running).value := Program] else map[]
  }

  /** `log[..i]` ends with a green cycle: fork `n` is a build that exited 0, each
      test follows, and the program that was unreaped before them, `running`, is
      then stopped and reaped. */
  ghost predicate Cycle(env: Env, log: seq<Event>, i: int, n: nat, running: Option<Fate>) {
    var cycle := GreenTests(env, n) + HaltEvents(running);
    && Succeeds(env.fates(n))
    && |cycle| <= i <= |log|
    && log[i - |cycle|..i] == cycle
    && Alive(log[..i - |cycle|]) == Only(running)
  }

  ghost predicate FollowsGreenCycle(env: Env, log: seq<Event>, i: int) {
    exists n: nat, running :: Cycle(env, log, i, n, running)
  }

  /** The events up to `i` end with a green cycle whose last two stop and reap `pid`. */
  ghost predicate Stopped(env: Env, log: seq<Event>, i: int, pid: int) {
    exists n: nat, running :: Cycle(env, log, i, n, running) && ProgramPid(running) == Some(pid)
  }

  ghost predicate FollowsGreenTests(env: Env, log: seq<Event>, i: int) {
    exists n: nat ::
      && Succeeds(env.fates(n))
      && |GreenTests(env, n)| <= i <= |log|
      && log[i - |GreenTests(env, n)|..i] == GreenTests(env, n)
  }

  /** The program is started only after a green cycle, signalled only as part of
      one, and reaped only as part of one or by the poll at its start. */
  ghost predicate Justified(env: Env, log: seq<Event>, i: nat)
    requires i < |log|
  {
    && (IsLaunch(log[i]) ==> FollowsGreenCycle(env, log, i))
    && (log[i].Terminated? ==> Stopped(env, log, i + 2, log[i].pid))
    && (log[i].Collected? && log[i].pid in Alive(log[..i]) && Alive(log[..i])[log[i].pid] == Program ==>
          (i > 0 && log[i - 1] == Started(Program, log[i].pid)) || Stopped(env, log, i + 1, log[i].pid))
  }

  lemma CycleInLongerLog(env: Env, log: seq<Event>, more: seq<Event>, i: int, n: nat, running: Option<Fate>)
    requires Cycle(env, log, i, n, running)
    ensures Cycle(env, log + more, i, n, running)
  {
    var start := i - |GreenTests(env, n) + HaltEvents(running)|;
    assert (log + more)[start..i] == log[start..i];
    assert (log + more)[..start] == log[..start];
  }

  lemma JustifiedInLongerLog(env: Env, log: seq<Event>, more: seq<Event>, i: nat)
    requires i < |log| && Justified(env, log, i)
    ensures Justified(env, log + more, i)
  {
    hide Cycle;
    assert (log + more)[..i] == log[..i];
    forall j: int, n: nat, running | Cycle(env, log, j, n, running)
      ensures Cycle(env, log + more, j, n, running)
    {
      CycleInLongerLog(env, log, more, j, n, running);
    }
  }

  /** Builds and tests: neither starts nor signals the program, and collects only
      what it has just started. */
  predicate Workers(events: seq<Event>) {
    forall j {:trigger events[j]} :: 0 <= j < |events| ==>
      && !IsLaunch(events[j]) && !events[j].Terminated?
      && (events[j].Collected? ==>
            j > 0 && events[j - 1].Started? && events[j - 1].pid == events[j].pid && events[j - 1].who != Program)
  }

  lemma WaitedWorkers(who: Role, f: Fate)
    requires who != Program
    ensures Workers(WaitedEvents(who, f))
  {}

  lemma {:induction false} TestWorkers(fates: nat -> Fate, from: nat, count: nat)
    ensures Workers(TestEvents(fates, from, count))
  {
    if count > 0 {
      TestWorkers(fates, from, count - 1);
      WaitedWorkers(Test(count - 1), fates(from + count - 1));
    }
  }

  lemma WorkersJustified(env: Env, before: seq<Event>, events: seq<Event>, i: nat)
    requires Workers(events) && |before| <= i < |before + events|
    ensures Justified(env, before + events, i)
  {
    var log, e := before + events, events[i - |before|];
    assert log[i] == e;
    if e.Collected? {
      var start := events[i - |before| - 1];
      assert log[i - 1] == start;
      assert log[..i] == log[..i - 1] + [start];
      AliveOne(log[..i - 1], start);
    }
  }

  lemma CycleHolds(env: Env, before: seq<Event>, n: nat, running: Option<Fate>, rest: seq<Event>)
    requires Succeeds(env.fates(n)) && Alive(before) == Only(running)
    ensures var cycle := GreenTests(env, n) + HaltEvents(running);
            Cycle(env, before + cycle + rest, |before + cycle|, n, running)
  {
    hide GreenTests, HaltEvents, Alive;
    var cycle := GreenTests(env, n) + HaltEvents(running);
    var log := before + cycle + rest;
    assert log[|before|..|before + cycle|] == cycle && log[..|before|] == before;
  }

  /** Halt and launch, right after a green build and its tests. */
  lemma CycleJustified(env: Env, before: seq<Event>, n: nat, running: Option<Fate>, last: Fate, i: nat)
    requires Succeeds(env.fates(n)) && Alive(before) == Only(running)
    requires var cycle := GreenTests(env, n) + HaltEvents(running);
             |before + GreenTests(env, n)| <= i < |before + cycle + LaunchEvents(Program, last)|
    ensures var cycle := GreenTests(env, n) + HaltEvents(running);
            Justified(env, before + cycle + LaunchEvents(Program, last), i)
  {
    hide GreenTests, Cycle, Alive, Only;
    var halt, launch := HaltEvents(running), LaunchEvents(Program, last);
    var cycle := GreenTests(env, n) + halt;
    var log, end := before + cycle + launch, |before + cycle|;
    CycleHolds(env, before, n, running, launch);
    if i < end {
      assert log[i] == halt[i - |before + GreenTests(env, n)|];
      assert ProgramPid(running) == Some(log[i].pid);
    } else {
      assert log[i] == launch[i - end];
      assert i > end ==> log[i - 1] == launch[0];
    }
  }

  /** The events of one trigger. */
  function Added(env: Env, s: Sup): seq<Event> {
    var b, b' := env.fates(s.forks), env.fates(s.forks + 1);
    if env.clock(s.ticks) < s.timer + 5 then []
    else if !Succeeds(b) then WaitedEvents(Build, b)
    else if !Succeeds(b') then WaitedEvents(Build, b) + WaitedEvents(Build, b')
    else WaitedEvents(Build, b) + GreenTests(env, s.forks + 1) + HaltEvents(s.running)
         + LaunchEvents(Program, env.fates(s.forks + 2 + env.tests))
  }

  lemma TriggerAdds(env: Env, s: Sup)
    ensures Trigger(env, s).log == s.log + Added(env, s)
  {
    hide TestEvents, WaitedEvents, HaltEvents, LaunchEvents;
    var w, w' := WaitedEvents(Build, env.fates(s.forks)), WaitedEvents(Build, env.fates(s.forks + 1));
    var tests := TestEvents(env.fates, s.forks + 2, env.tests);
    var halt, launch := HaltEvents(s.running), LaunchEvents(Program, env.fates(s.forks + 2 + env.tests));
    assert s.log + w + w' + tests + (halt + launch) == s.log + (w + (w' + tests) + halt + launch);
  }

  /** After the watcher's own build only the program is unreaped. */
  lemma AliveAfterBuild(env: Env, s: Sup)
    requires PidsNotReused(env.fates) && Stands(env, s, Idle)
    ensures Alive(s.log + WaitedEvents(Build, env.fates(s.forks))) == Only(s.running)
  {
    hide Watch, WaitedEvents;
    var built := s.(forks := s.forks + 1, log := s.log + WaitedEvents(Build, env.fates(s.forks)));
    BuildAccepted(env, s, built, Idle);
    MonitorTracksAlive(env.tests, built.log);
  }

  lemma WorkersConcat(a: seq<Event>, b: seq<Event>)
    requires Workers(a) && Workers(b)
    ensures Workers(a + b)
  {}

  lemma TriggerJustified(env: Env, s: Sup, i: nat)
    requires PidsNotReused(env.fates) && Stands(env, s, Idle)
    requires |s.log| <= i < |s.log + Added(env, s)|
    ensures Justified(env, s.log + Added(env, s), i)
  {
    hide Justified, Stands, Alive, Only, WaitedEvents, TestEvents, HaltEvents, LaunchEvents, Workers;
    var n := s.forks;
    var w, w' := WaitedEvents(Build, env.fates(n)), WaitedEvents(Build, env.fates(n + 1));
    WaitedWorkers(Build, env.fates(n));
    WaitedWorkers(Build, env.fates(n + 1));
    if !Succeeds(env.fates(n)) {
      WorkersJustified(env, s.log, w, i);
    } else if !Succeeds(env.fates(n + 1)) {
      WorkersConcat(w, w');
      WorkersJustified(env, s.log, w + w', i);
    } else {
      RestartJustified(env, s, i);
    }
  }

  /** The events of a trigger that runs a whole cycle. */
  lemma RestartJustified(env: Env, s: Sup, i: nat)
    requires PidsNotReused(env.fates) && Stands(env, s, Idle)
    requires Succeeds(env.fates(s.forks + 1))
    requires var w, tests := WaitedEvents(Build, env.fates(s.forks)), GreenTests(env, s.forks + 1);
             var last := env.fates(s.forks + 2 + env.tests);
             |s.log| <= i < |s.log + (w + tests + HaltEvents(s.running) + LaunchEvents(Program, last))|
    ensures var w, tests := WaitedEvents(Build, env.fates(s.forks)), GreenTests(env, s.forks + 1);
            var last := env.fates(s.forks + 2 + env.tests);
            Justified(env, s.log + (w + tests + HaltEvents(s.running) + LaunchEvents(Program, last)), i)
  {
    hide Justified, Stands, Alive, Only, WaitedEvents, GreenTests, HaltEvents, LaunchEvents, Workers;
    var w, tests := WaitedEvents(Build, env.fates(s.forks)), GreenTests(env, s.forks + 1);
    var last := env.fates(s.forks + 2 + env.tests);
    var halt, launch := HaltEvents(s.running), LaunchEvents(Program, last);
    if i < |s.log + (w + tests)| {
      WaitedWorkers(Build, env.fates(s.forks));
      GreenWorkers(env, s.forks + 1);
      WorkersConcat(w, tests);
      WorkersJustified(env, s.log, w + tests, i);
      JustifiedInLongerLog(env, s.log + (w + tests), halt + launch, i);
      assert s.log + (w + tests) + (halt + launch) == s.log + (w + tests + halt + launch);
    } else {
      AliveAfterBuild(env, s);
      CycleJustified(env, s.log + w, s.forks + 1, s.running, last, i);
      assert s.log + w + (tests + halt) + launch == s.log + (w + tests + halt + launch);
    }
  }

  lemma GreenWorkers(env: Env, n: nat)
    ensures Workers(GreenTests(env, n))
  {
    WaitedWorkers(Build, env.fates(n));
    TestWorkers(env.fates, n + 1, env.tests);
    WorkersConcat(WaitedEvents(Build, env.fates(n)), TestEvents(env.fates, n + 1, env.tests));
  }

  /** Over every run a build that fails leaves the program alone: whatever
      happens to an instance of it belongs to a green cycle. */
  lemma {:induction false} EveryEventJustified(env: Env, n: nat, i: nat)
    requires PidsNotReused(env.fates)
    requires i < |Run(env, Start(env), n).log|
    ensures Justified(env, Run(env, Start(env), n).log, i)
  {
    hide Trigger, Justified, Stands, Added;
    var before := Run(env, Start(env), n - 1);
    TriggerAdds(env, before);
    if i < |before.log| {
      EveryEventJustified(env, n - 1, i);
      JustifiedInLongerLog(env, before.log, Added(env, before), i);
    } else {
      EveryRunAccepted(env, n - 1);
      TriggerJustified(env, before, i);
    }
  }

  /** Every event that starts the program, or fails to, comes directly after a
      green cycle, in which the instance that was unreaped has been stopped. */
  lemma LaunchesFollowGreenCycles(env: Env, n: nat, i: nat)
    requires PidsNotReused(env.fates)
    requires var log := Run(env, Start(env), n).log; i < |log| && IsLaunch(log[i])
    ensures FollowsGreenCycle(env, Run(env, Start(env), n).log, i)
  {
    hide Run;
    EveryEventJustified(env, n, i);
  }

  /** Every signal comes directly after a build that exited 0 and every test once,
      and is followed directly by the reaping of the signalled instance. */
  lemma HaltsFollowGreenTests(env: Env, n: nat, i: nat)
    requires PidsNotReused(env.fates)
    requires var log := Run(env, Start(env), n).log; i < |log| && log[i].Terminated?
    ensures var log := Run(env, Start(env), n).log;
            && FollowsGreenTests(env, log, i)
            && i + 1 < |log| && log[i + 1].Collected? && log[i + 1].pid == log[i].pid
  {
    hide Run, GreenTests, Cycle, Alive;
    var log := Run(env, Start(env), n).log;
    EveryEventJustified(env, n, i);
    var k: nat, running :| Cycle(env, log, i + 2, k, running) && ProgramPid(running) == Some(log[i].pid);
    CycleEnd(env, log, i + 2, k, running);
  }

  lemma SplitSuffix<T>(s: seq<T>, i: nat, a: seq<T>, b: seq<T>)
    requires |a + b| <= i <= |s| && s[i - |a + b|..i] == a + b
    ensures s[i - |b|..i] == b && s[i - |b| - |a|..i - |b|] == a
  {
    var start := i - |a + b|;
    assert s[start..i][|a|..] == s[i - |b|..i] && s[start..i][..|a|] == s[start..i - |b|];
  }

  /** The last two events of a cycle that stops a program, and what is before them. */
  lemma CycleEnd(env: Env, log: seq<Event>, i: int, n: nat, running: Option<Fate>)
    requires Cycle(env, log, i, n, running) && ProgramPid(running).Some?
    ensures 2 <= i <= |log|
    ensures log[i - 2] == Terminated(running.value.pid)
    ensures log[i - 1] == Collected(running.value.pid, running.value.status)
    ensures FollowsGreenTests(env, log, i - 2)
  {
    hide GreenTests, Alive;
    var tests, halt := GreenTests(env, n), HaltEvents(running);
    assert halt == [Terminated(running.value.pid), Collected(running.value.pid, running.value.status)];
    SplitSuffix(log, i, tests, halt);
    assert log[i - 2..i][0] == halt[0] && log[i - 2..i][1] == halt[1];
  }

  /** An instance of the program that survives its first poll is reaped only
      right after the signal that ends a green cycle. */
  lemma SurvivorsLeaveOnlyStopped(env: Env, n: nat, i: nat)
    requires PidsNotReused(env.fates)
    requires var log := Run(env, Start(env), n).log;
             && i < |log| && log[i].Collected?
             && log[i].pid in Alive(log[..i]) && Alive(log[..i])[log[i].pid] == Program
             && (i == 0 || log[i - 1] != Started(Program, log[i].pid))
    ensures var log := Run(env, Start(env), n).log;
            && i > 0 && log[i - 1] == Terminated(log[i].pid)
            && Stopped(env, log, i + 1, log[i].pid)
  {
    hide Run, GreenTests, Cycle, Alive;
    var log := Run(env, Start(env), n).log;
    EveryEventJustified(env, n, i);
    var k: nat, running :| Cycle(env, log, i + 1, k, running) && ProgramPid(running) == Some(log[i].pid);
    CycleEnd(env, log, i + 1, k, running);
  }

  /** A trigger that is debounced or whose first or second build fails changes
      nothing about the children that are alive, and forks only builds. */
  lemma FailedBuildKeepsProgram(env: Env, n: nat)
    requires PidsNotReused(env.fates)
    requires var s := Run(env, Start(env), n);
             env.clock(s.ticks) < s.timer + 5
             || !Succeeds(env.fates(s.forks)) || !Succeeds(env.fates(s.forks + 1))
    ensures var s, s' := Run(env, Start(env), n), Run(env, Start(env), n + 1);
            && s'.running == s.running
            && Alive(s'.log) == Alive(s.log)
            && s.log <= s'.log
            && forall e <- s'.log[|s.log|..] :: !IsLaunch(e) && !e.Terminated?
  {
    hide Run;
    var s := Run(env, Start(env), n);
    RunStep(env, n);
    OnlyTheProgramIsAlive(env, n);
    OnlyTheProgramIsAlive(env, n + 1);
    hide Alive;
    BuildsOnly(env, s);
  }

  lemma BuildsOnly(env: Env, s: Sup)
    requires env.clock(s.ticks) < s.timer + 5
             || !Succeeds(env.fates(s.forks)) || !Succeeds(env.fates(s.forks + 1))
    ensures var s' := Trigger(env, s);
            && s'.running == s.running && s.log <= s'.log
            && forall e <- s'.log[|s.log|..] :: !IsLaunch(e) && !e.Terminated?
  {
    hide WaitedEvents, TestEvents, HaltEvents, LaunchEvents, Workers, IsLaunch;
    TriggerAdds(env, s);
    var w, w' := WaitedEvents(Build, env.fates(s.forks)), WaitedEvents(Build, env.fates(s.forks + 1));
    WaitedWorkers(Build, env.fates(s.forks));
    WaitedWorkers(Build, env.fates(s.forks + 1));
    WorkersConcat(w, w');
    NoWork();
    assert Added(env, s) == [] || Added(env, s) == w || Added(env, s) == w + w';
    WorkersSpare(s.log, Added(env, s));
  }

  lemma NoWork()
    ensures Workers([])
  {}

  lemma WorkersSpare(log: seq<Event>, events: seq<Event>)
    requires Workers(events)
    ensures forall e <- (log + events)[|log|..] :: !IsLaunch(e) && !e.Terminated?
  {
    assert (log + events)[|log|..] == events;
  }

  /** At the moment of a launch nothing at all is unreaped: not the build, not a
      test, and not the previous instance of the program. */
  lemma NothingAliveAtLaunch(env: Env, n: nat, i: nat)
    requires PidsNotReused(env.fates)
    requires var log := Run(env, Start(env), n).log; i < |log| && IsLaunch(log[i])
    ensures Alive(Run(env, Start(env), n).log[..i]) == map[]
  {
    hide Run;
    var log := Run(env, Start(env), n).log;
    EveryRunAccepted(env, n);
    AcceptedPrefix(env.tests, log, i + 1);
    assert log[..i + 1][..i] == log[..i];
    AcceptedPrefix(env.tests, log, i);
    MonitorTracksAlive(env.tests, log[..i]);
  }

  // ----- The documented relaunch rule -----

  predicate AllTestsPass(env: Env, from: nat) {
    forall k: nat :: from <= k < from + env.tests ==> Succeeds(env.fates(k))
  }

  /** doc/README relaunches only "if there were unit tests and they all passed". */
  predicate TestsAllow(env: Env, from: nat) {
    env.tests > 0 && AllTestsPass(env, from)
  }

  ghost predicate Launches(before: Sup, after: Sup) {
    exists i :: |before.log| <= i < |after.log| && IsLaunch(after.log[i])
  }

  /** A restart launches exactly when its build succeeded, so it keeps the
      documented rule exactly when the build fails, or there are tests and all of
      them pass. */
  lemma RelaunchRule(env: Env, s: Sup)
    ensures Launches(s, Restart(env, s)) <==> Succeeds(env.fates(s.forks))
    ensures (Launches(s, Restart(env, s)) <==>
               Succeeds(env.fates(s.forks)) && TestsAllow(env, s.forks + 1))
            <==> (Succeeds(env.fates(s.forks)) ==> TestsAllow(env, s.forks + 1))
  {
    hide TestsAllow;
    var after := Restart(env, s);
    if Succeeds(env.fates(s.forks)) {
      var cycle := GreenTests(env, s.forks) + HaltEvents(s.running);
      assert after.log == s.log + cycle + LaunchEvents(Program, env.fates(s.forks + 1 + env.tests));
      assert IsLaunch(after.log[|s.log + cycle|]);
    }
  }

  /** One green build and one failing test: the program is launched all the same. */
  lemma FailingTestStillLaunches()
    ensures exists env: Env ::
              && Assumptions(env) && env.tests == 1
              && !AllTestsPass(env, 1)
              && Launches(Start(env), Restart(env, Start(env)))
  {
    var fates: nat -> Fate := i => Child(i + 2, if i == 1 then 1 else 0, false);
    var env := Env(fates, _ => 0, 1);
    assert !Succeeds(env.fates(1));
    RelaunchRule(env, Start(env));
  }

  /** One green build and no test at all: the program is launched as well. */
  lemma NoTestsStillLaunches()
    ensures exists env: Env ::
              && Assumptions(env) && env.tests == 0
              && Launches(Start(env), Restart(env, Start(env)))
  {
    var env := Env(i => Child(i + 2, 0, false), _ => 0, 0);
    RelaunchRule(env, Start(env));
  }

  // ----- Debounce -----

  /** The values that attempts stored in the timer, in order. */
  function Restarts(attempts: seq<Attempted>): seq<int> {
    if attempts == [] then []
    else
      var last := attempts[|attempts| - 1];
      Restarts(attempts[..|attempts| - 1]) + (if last.stamp.Some? then [last.stamp.value] else [])
  }

  ghost predicate Spaced(times: seq<int>) {
    forall i :: 0 < i < |times| ==> times[i - 1] + 5 <= times[i]
  }

  /** The history of the timer field: every stored value, spaced by 5 seconds. */
  ghost predicate TimerHistory(env: Env, s: Sup) {
    var restarts := Restarts(s.attempts);
    && s.ticks > 0
    && Spaced(restarts)
    && (forall i :: 0 <= i < |restarts| ==> env.clock(0) <= restarts[i] <= env.clock(s.ticks - 1))
    && s.timer == (if restarts == [] then env.clock(0) - 15 else restarts[|restarts| - 1])
  }

  lemma RestartsOne(attempts: seq<Attempted>, a: Attempted)
    ensures Restarts(attempts + [a])
            == Restarts(attempts) + (if a.stamp.Some? then [a.stamp.value] else [])
  {
    assert (attempts + [a])[..|attempts|] == attempts;
  }

  /** What a trigger does to the clock, the timer and the attempts. */
  lemma TriggerTimes(env: Env, s: Sup)
    ensures var s', now, stamp := Trigger(env, s), env.clock(s.ticks), env.clock(s.ticks + 1);
            if now < s.timer + 5 then
              s'.ticks == s.ticks + 1 && s'.timer == s.timer && s'.attempts == s.attempts
            else if !Succeeds(env.fates(s.forks)) then
              s'.ticks == s.ticks + 1 && s'.timer == s.timer && s'.attempts == s.attempts + [Attempted(now, None)]
            else
              s'.ticks == s.ticks + 2 && s'.timer == stamp && s'.attempts == s.attempts + [Attempted(now, Some(stamp))]
  {}

  lemma TriggerKeepsTimer(env: Env, s: Sup)
    requires NonDecreasing(env.clock)
    requires TimerHistory(env, s)
    ensures TimerHistory(env, Trigger(env, s))
  {
    hide Restarts, Trigger;
    TriggerTimes(env, s);
    var now := env.clock(s.ticks);
    assert env.clock(s.ticks - 1) <= now <= env.clock(s.ticks + 1);
    assert env.clock(0) <= now;
    RestartsOne(s.attempts, Attempted(now, None));
    RestartsOne(s.attempts, Attempted(now, Some(env.clock(s.ticks + 1))));
  }

  lemma {:induction false} RestartsSpaced(env: Env, n: nat)
    requires NonDecreasing(env.clock)
    ensures TimerHistory(env, Run(env, Start(env), n))
  {
    hide TimerHistory, Trigger;
    if n > 0 {
      RestartsSpaced(env, n - 1);
      TriggerKeepsTimer(env, Run(env, Start(env), n - 1));
    } else {
      NoHistory(env);
    }
  }

  lemma NoHistory(env: Env)
    ensures TimerHistory(env, Start(env)) && Debounced(env, Start(env))
  {}

  lemma {:induction false} SpacedSpan(times: seq<int>)
    requires Spaced(times) && times != []
    ensures 5 * (|times| - 1) <= times[|times| - 1] - times[0]
  {
    if |times| > 1 {
      SpacedSpan(times[..|times| - 1]);
    }
  }

  /** However many files change and however many builds fail, K restarts take at
      least 5 * (K - 1) seconds of the time since the watcher was created. */
  lemma RestartRate(env: Env, n: nat)
    requires NonDecreasing(env.clock)
    requires Restarts(Run(env, Start(env), n).attempts) != []
    ensures var s := Run(env, Start(env), n);
            s.ticks > 0 && 5 * (|Restarts(s.attempts)| - 1) <= env.clock(s.ticks - 1) - env.clock(0)
  {
    hide Run, Restarts;
    RestartsSpaced(env, n);
    var times := Restarts(Run(env, Start(env), n).attempts);
    SpacedSpan(times);
    assert env.clock(0) <= times[0] && times[|times| - 1] <= env.clock(Run(env, Start(env), n).ticks - 1);
  }

  /** An attempt whose build succeeded is 5 seconds before every later one. */
  ghost predicate SuccessesQuiet(attempts: seq<Attempted>) {
    forall i, j :: 0 <= i < j < |attempts| && attempts[i].stamp.Some? ==>
      attempts[i].at + 5 <= attempts[i].stamp.value + 5 <= attempts[j].at
  }

  /** The last attempt failed, or there was none. */
  predicate Impatient(attempts: seq<Attempted>) {
    attempts == [] || attempts[|attempts| - 1].stamp.None?
  }

  ghost predicate Debounced(env: Env, s: Sup) {
    && s.ticks > 0
    && SuccessesQuiet(s.attempts)
    && (forall a <- s.attempts :: a.stamp.Some? ==> a.at <= a.stamp.value <= s.timer)
    && (if Impatient(s.attempts) then s.timer + 5 <= env.clock(s.ticks - 1)
        else s.timer == s.attempts[|s.attempts| - 1].stamp.value)
  }

  lemma TriggerKeepsQuiet(env: Env, s: Sup)
    requires NonDecreasing(env.clock)
    requires Debounced(env, s)
    ensures Debounced(env, Trigger(env, s))
  {
    hide Trigger;
    TriggerTimes(env, s);
    assert env.clock(s.ticks - 1) <= env.clock(s.ticks) <= env.clock(s.ticks + 1);
  }

  lemma {:induction false} RunDebounced(env: Env, n: nat)
    requires NonDecreasing(env.clock)
    ensures Debounced(env, Run(env, Start(env), n))
  {
    hide Debounced, Trigger;
    if n > 0 {
      RunDebounced(env, n - 1);
      TriggerKeepsQuiet(env, Run(env, Start(env), n - 1));
    } else {
      NoHistory(env);
    }
  }

  /** In every run a build by the watcher that succeeds is at least 5 seconds
      before the next one. */
  lemma AttemptsSpaced(env: Env, n: nat)
    requires NonDecreasing(env.clock)
    ensures SuccessesQuiet(Run(env, Start(env), n).attempts)
  {
    hide Run, SuccessesQuiet;
    RunDebounced(env, n);
  }

  /** Exactly when the next trigger builds: at once after an attempt that failed,
      and otherwise when the timer is 5 seconds old. It then forks, and otherwise
      nothing but the reading of the clock happens. */
  lemma NextTriggerBuilds(env: Env, n: nat)
    requires NonDecreasing(env.clock)
    ensures var s, s' := Run(env, Start(env), n), Run(env, Start(env), n + 1);
            var builds := Impatient(s.attempts)
                          || s.attempts[|s.attempts| - 1].stamp.value + 5 <= env.clock(s.ticks);
            && (builds <==> s'.forks > s.forks)
            && (builds <==> |s'.attempts| == |s.attempts| + 1)
            && (builds ==> s'.attempts[..|s.attempts|] == s.attempts
                           && s'.attempts[|s.attempts|].at == env.clock(s.ticks)
                           && (s'.attempts[|s.attempts|].stamp.Some? <==> Succeeds(env.fates(s.forks))))
            && (!builds ==> s' == s.(ticks := s.ticks + 1))
  {
    var s := Run(env, Start(env), n);
    RunDebounced(env, n);
    hide Run, Debounced;
    assert Debounced(env, s);
    RunStep(env, n);
    DueWhenImpatient(env, s);
  }

  lemma RunStep(env: Env, n: nat)
    ensures Run(env, Start(env), n + 1) == Trigger(env, Run(env, Start(env), n))
  {}

  lemma DueWhenImpatient(env: Env, s: Sup)
    requires NonDecreasing(env.clock) && Debounced(env, s)
    ensures if Impatient(s.attempts) then s.timer + 5 <= env.clock(s.ticks)
            else s.timer == s.attempts[|s.attempts| - 1].stamp.value
  {
    assert env.clock(s.ticks - 1) <= env.clock(s.ticks);
  }

  /** So two builds of the watcher can fall into the same second. */
  lemma TwoBuildsInOneSecond()
    ensures exists env: Env ::
              && Assumptions(env)
              && var attempts := Run(env, Start(env), 2).attempts;
                 |attempts| == 2 && attempts[0].at == attempts[1].at
  {
    var env := Env(i => Child(i + 2, 1, false), _ => 0, 0);
    NextTriggerBuilds(env, 0);
    NextTriggerBuilds(env, 1);
  }

  // ----- Shutdown -----

  /** Between triggers the one child that can be unreaped is the running program. */
  lemma OnlyTheProgramIsAlive(env: Env, n: nat)
    requires PidsNotReused(env.fates)
    ensures var s := Run(env, Start(env), n);
            Alive(s.log) == (if s.running.Some? && s.running.value.Child?
                             then map[s.running.value.pid := Program] else map[])
            && (s.running.Some? ==> s.running.value.Child?)
  {
    hide Run;
    EveryRunAccepted(env, n);
    MonitorTracksAlive(env.tests, Run(env, Start(env), n).log);
  }

  /** After the destructor's killAll no child of any role is left unreaped. */
  lemma ShutdownLeavesNothing(env: Env, n: nat)
    requires PidsNotReused(env.fates)
    ensures Alive(Shutdown(Run(env, Start(env), n)).log) == map[]
  {
    hide Run;
    OnlyTheProgramIsAlive(env, n);
    var s := Run(env, Start(env), n);
    if s.running.Some? {
      var f := s.running.value;
      var log := s.log + [Terminated(f.pid)];
      AliveOne(s.log, Terminated(f.pid));
      AliveOne(log, Collected(f.pid, f.status));
      assert Shutdown(s).log == log + [Collected(f.pid, f.status)];
    } else {
      assert Shutdown(s).log == s.log;
    }
  }

  /** In the log of a whole run, shutdown included, every signal goes to an
      instance of the program that is unreaped at that moment. */
  lemma EverySignalHitsTheProgram(env: Env, n: nat, i: nat)
    requires PidsNotReused(env.fates)
    requires var log := Shutdown(Run(env, Start(env), n)).log; i < |log| && log[i].Terminated?
    ensures var log := Shutdown(Run(env, Start(env), n)).log;
            log[i].pid > 1 && log[i].pid in Alive(log[..i]) && Alive(log[..i])[log[i].pid] == Program
  {
    hide Run;
    var s := Run(env, Start(env), n);
    var log := Shutdown(s).log;
    EveryRunAccepted(env, n);
    if i < |s.log| {
      SignalsHitOwnProgram(env.tests, s.log, i);
      assert log[..i] == s.log[..i];
    } else {
      OnlyTheProgramIsAlive(env, n);
      AliveWasStarted(env.tests, s.log, log[i].pid);
      assert log[..i] == s.log;
    }
  }
}
