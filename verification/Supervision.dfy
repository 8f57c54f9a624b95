/** The supervisor as an abstract machine.

    A state records which children were forked, what was logged about them and
    which program instance is still unreaped. `Trigger` is one accepted or
    rejected file notification, `Restart` one build/test/relaunch cycle.

    Everything the operating system decides is an input: `Fate` says how one
    fork turns out, and `clock` is the sequence of readings of time(0).
 */
module Supervision {
  import opened Basics

  datatype Role = Build | Test(index: nat) | Program

  /** The life of one child: whether it has already exited when `run` polls it
      with WNOHANG, and the wait status it ends with. */
  datatype Fate = NoFork | Child(pid: int, status: int, early: bool)

  /** `Terminated` is a SIGTERM, `Collected` a successful waitpid. */
  datatype Event =
    | ForkFailed(who: Role)
    | Started(who: Role, pid: int)
    | Terminated(pid: int)
    | Collected(pid: int, status: int)

  datatype Env = Env(fates: nat -> Fate, clock: nat -> int, tests: nat)

  ghost predicate PidsNotReused(fates: nat -> Fate) {
    && (forall i: nat :: fates(i).Child? ==> fates(i).pid > 1)
    && (forall i: nat, j: nat ::
          i < j && fates(i).Child? && fates(j).Child? ==> fates(i).pid != fates(j).pid)
  }

  ghost predicate NonDecreasing(clock: nat -> int) {
    forall i: nat, j: nat :: i <= j ==> clock(i) <= clock(j)
  }

  ghost predicate Assumptions(env: Env) {
    PidsNotReused(env.fates) && NonDecreasing(env.clock)
  }

  predicate Succeeds(f: Fate) {
    f.Child? && f.status == 0
  }

  /** The pids handed out by the first `n` forks. */
  ghost function Issued(fates: nat -> Fate, n: nat): set<int> {
    set i | 0 <= i < n && fates(i).Child? :: fates(i).pid
  }

  // ----- What each operation leaves in the log -----

  /** A child that is started and collected before anything else happens. */
  function WaitedEvents(who: Role, f: Fate): seq<Event> {
    match f
    case NoFork => [ForkFailed(who)]
    case Child(pid, status, _) => [Started(who, pid), Collected(pid, status)]
  }

  /** A child that is polled once and otherwise left alone. */
  function LaunchEvents(who: Role, f: Fate): seq<Event> {
    match f
    case NoFork => [ForkFailed(who)]
    case Child(pid, status, early) =>
      if early then [Started(who, pid), Collected(pid, status)] else [Started(who, pid)]
  }

  function HaltEvents(running: Option<Fate>): seq<Event> {
    if running.Some? && running.value.Child?
    then [Terminated(running.value.pid), Collected(running.value.pid, running.value.status)]
    else []
  }

  /** The first `count` tests, one fork each, in registration order. */
  function TestEvents(fates: nat -> Fate, from: nat, count: nat): seq<Event> {
    if count == 0 then []
    else TestEvents(fates, from, count - 1) + WaitedEvents(Test(count - 1), fates(from + count - 1))
  }

  function Survivor(f: Fate): Option<Fate> {
    if f.Child? && !f.early then Some(f) else None
  }

  // ----- The machine -----

  /** A build the watcher made because a file changed: the clock reading that let
      it through and, if the build succeeded, the value then stored in the timer. */
  datatype Attempted = Attempted(at: int, stamp: Option<int>)

  /** `running` is the unreaped instance of the program, `attempts` every build
      the watcher ever made. */
  datatype Sup = Sup(forks: nat, ticks: nat, timer: int, running: Option<Fate>,
                     log: seq<Event>, attempts: seq<Attempted>)

  /** The watcher starts 15 seconds in the past, so the first event counts. */
  function Start(env: Env): Sup {
    Sup(0, 1, env.clock(0) - 15, None, [], [])
  }

  /** After a successful build: every test, then the old program goes, then the new one comes. */
  function Relaunch(env: Env, s: Sup): Sup {
    var p := env.fates(s.forks + env.tests);
    s.(forks := s.forks + env.tests + 1,
       log := s.log + TestEvents(env.fates, s.forks, env.tests)
              + (HaltEvents(s.running) + LaunchEvents(Program, p)),
       running := Survivor(p))
  }

  function Restart(env: Env, s: Sup): Sup {
    var b := env.fates(s.forks);
    var built := s.(forks := s.forks + 1, log := s.log + WaitedEvents(Build, b));
    if Succeeds(b) then Relaunch(env, built) else built
  }

  /** One build by the watcher, and a whole restart if it succeeds. */
  function Attempt(env: Env, s: Sup, at: int): Sup {
    var b := env.fates(s.forks);
    var built := s.(forks := s.forks + 1, log := s.log + WaitedEvents(Build, b));
    if !Succeeds(b) then built.(attempts := s.attempts + [Attempted(at, None)])
    else
      var now := env.clock(built.ticks);
      Restart(env, built.(ticks := built.ticks + 1, timer := now,
                          attempts := s.attempts + [Attempted(at, Some(now))]))
  }

  /** One file that matches one filter. */
  function Trigger(env: Env, s: Sup): Sup {
    var read, now := s.(ticks := s.ticks + 1), env.clock(s.ticks);
    if now < s.timer + 5 then read else Attempt(env, read, now)
  }

  function Run(env: Env, s: Sup, triggers: nat): Sup {
    if triggers == 0 then s else Trigger(env, Run(env, s, triggers - 1))
  }

  function Shutdown(s: Sup): Sup {
    s.(log := s.log + HaltEvents(s.running), running := None)
  }

  lemma {:induction false} RunSplits(env: Env, s: Sup, m: nat, n: nat)
    ensures Run(env, Run(env, s, m), n) == Run(env, s, m + n)
  {
    if n > 0 {
      RunSplits(env, s, m, n - 1);
    }
  }

  // ----- An independent monitor of the log -----

  /** Where in a cycle the log stands. `Tested(k)`: the build of this cycle
      exited 0 and tests 0..k-1 have each been run once since then. */
  datatype Phase = Idle | Building(pid: int) | Tested(done: nat) | Testing(k: nat, pid: int)

  datatype Monitor = Accepting(phase: Phase, program: Option<int>, used: set<int>) | Rejected

  /** A test that ends, or never starts, is done whatever its outcome. */
  function Observe(tests: nat, m: Monitor, e: Event): Monitor {
    if m.Rejected? then Rejected
    else match e
      case ForkFailed(who) => ObserveNoFork(tests, m, who)
      case Started(who, pid) => ObserveStart(tests, m, who, pid)
      case Terminated(pid) =>
        if m.program == Some(pid) && m.phase == Tested(tests) then m else Rejected
      case Collected(pid, status) => ObserveEnd(m, pid, status)
  }

  function ObserveNoFork(tests: nat, m: Monitor, who: Role): Monitor
    requires m.Accepting?
  {
    match who
    case Build => if m.phase in {Idle, Tested(0)} then m.(phase := Idle) else Rejected
    case Test(k) => if k < tests && m.phase == Tested(k) then m.(phase := Tested(k + 1)) else Rejected
    case Program => if m.phase == Tested(tests) && m.program.None? then m.(phase := Idle) else Rejected
  }

  function ObserveStart(tests: nat, m: Monitor, who: Role, pid: int): Monitor
    requires m.Accepting?
  {
    if pid <= 1 || pid in m.used then Rejected
    else
      var m' := m.(used := m.used + {pid});
      match who
      case Build => if m.phase in {Idle, Tested(0)} then m'.(phase := Building(pid)) else Rejected
      case Test(k) => if k < tests && m.phase == Tested(k) then m'.(phase := Testing(k, pid)) else Rejected
      case Program =>
        if m.phase == Tested(tests) && m.program.None?
        then m'.(phase := Idle, program := Some(pid)) else Rejected
  }

  function ObserveEnd(m: Monitor, pid: int, status: int): Monitor
    requires m.Accepting?
  {
    if m.phase == Building(pid) then m.(phase := if status == 0 then Tested(0) else Idle)
    else if m.phase.Testing? && m.phase.pid == pid then m.(phase := Tested(m.phase.k + 1))
    else if m.program == Some(pid) then m.(program := None)
    else Rejected
  }

  function Watch(tests: nat, m: Monitor, log: seq<Event>): Monitor {
    if log == [] then m
    else Observe(tests, Watch(tests, m, log[..|log| - 1]), log[|log| - 1])
  }

  const INITIAL := Accepting(Idle, None, {})

  predicate Accepted(tests: nat, log: seq<Event>) {
    Watch(tests, INITIAL, log).Accepting?
  }

  lemma {:induction false} WatchConcat(tests: nat, m: Monitor, a: seq<Event>, b: seq<Event>)
    ensures Watch(tests, m, a + b) == Watch(tests, Watch(tests, m, a), b)
  {
    if b == [] {
      assert a + b == a;
    } else {
      assert (a + b)[..|a + b| - 1] == a + b[..|b| - 1];
      WatchConcat(tests, m, a, b[..|b| - 1]);
    }
  }

  lemma WatchNothing(tests: nat, m: Monitor)
    ensures Watch(tests, m, []) == m
  {}

  lemma WatchSmall(tests: nat, m: Monitor, e: Event, f: Event)
    ensures Watch(tests, m, [e]) == Observe(tests, m, e)
    ensures Watch(tests, m, [e, f]) == Observe(tests, Observe(tests, m, e), f)
  {
    assert [e][..0] == [];
    assert [e, f][..1] == [e];
  }

  lemma {:induction false} AcceptedPrefix(tests: nat, log: seq<Event>, i: nat)
    requires Accepted(tests, log)
    requires i <= |log|
    ensures Accepted(tests, log[..i])
    decreases |log| - i
  {
    if i < |log| {
      AcceptedPrefix(tests, log, i + 1);
      assert log[..i + 1][..i] == log[..i];
    } else {
      assert log[..i] == log;
    }
  }

  // ----- What an accepted log means -----

  /** Started and not yet collected, with the role each child was started in. */
  function Alive(log: seq<Event>): map<int, Role> {
    if log == [] then map[] else AliveAfter(Alive(log[..|log| - 1]), log[|log| - 1])
  }

  function AliveAfter(before: map<int, Role>, e: Event): map<int, Role> {
    match e
    case Started(who, pid) => before[pid := who]
    case Collected(pid, _) => before - {pid}
    case _ => before
  }

  lemma AliveOne(log: seq<Event>, e: Event)
    ensures Alive(log + [e]) == AliveAfter(Alive(log), e)
  {
    assert (log + [e])[..|log|] == log;
  }

  function Tracked(m: Monitor): map<int, Role>
    requires m.Accepting?
  {
    var worker := match m.phase
      case Building(pid) => map[pid := Build]
      case Testing(k, pid) => map[pid := Test(k)]
      case _ => map[];
    if m.program.Some? then worker[m.program.value := Program] else worker
  }

  ghost predicate DistinctPids(m: Monitor)
    requires m.Accepting?
  {
    && Tracked(m).Keys <= m.used
    && (m.program.Some? ==> m.phase != Building(m.program.value))
    && (m.program.Some? && m.phase.Testing? ==> m.phase.pid != m.program.value)
  }

  lemma {:induction false} MonitorTracksAlive(tests: nat, log: seq<Event>)
    requires Accepted(tests, log)
    ensures DistinctPids(Watch(tests, INITIAL, log))
    ensures Alive(log) == Tracked(Watch(tests, INITIAL, log))
  {
    if log != [] {
      MonitorTracksAlive(tests, log[..|log| - 1]);
    }
  }

  /** No role ever has two children at once; in particular there is never more
      than one instance of the program, running or zombie. */
  lemma OneChildPerRole(tests: nat, log: seq<Event>, i: nat, p: int, q: int)
    requires Accepted(tests, log)
    requires i <= |log|
    requires p in Alive(log[..i]) && q in Alive(log[..i])
    ensures Alive(log[..i])[p] == Alive(log[..i])[q] ==> p == q
    ensures |Alive(log[..i])| <= 2
  {
    hide Watch, Alive;
    AcceptedPrefix(tests, log, i);
    MonitorTracksAlive(tests, log[..i]);
    FewTracked(Watch(tests, INITIAL, log[..i]), p, q);
  }

  lemma FewTracked(m: Monitor, p: int, q: int)
    requires m.Accepting? && p in Tracked(m) && q in Tracked(m)
    ensures Tracked(m)[p] == Tracked(m)[q] ==> p == q
    ensures |Tracked(m)| <= 2
  {
    var worker := Tracked(m.(program := None));
    assert |worker.Keys| <= 1 by {
      assert worker.Keys == if m.phase.Building? || m.phase.Testing? then {m.phase.pid} else {};
    }
    if m.program.Some? {
      assert Tracked(m) == worker[m.program.value := Program];
      assert Tracked(m).Keys == worker.Keys + {m.program.value};
    }
  }

  /** Every signal goes to a program instance that was forked earlier and is
      still unreaped, never to a pid of 1 or below. */
  lemma SignalsHitOwnProgram(tests: nat, log: seq<Event>, i: nat)
    requires Accepted(tests, log)
    requires i < |log| && log[i].Terminated?
    ensures log[i].pid in Alive(log[..i]) && Alive(log[..i])[log[i].pid] == Program
    ensures log[i].pid > 1
    ensures exists j :: 0 <= j < i && log[j] == Started(Program, log[i].pid)
  {
    AcceptedPrefix(tests, log, i + 1);
    assert log[..i + 1][..i] == log[..i];
    AcceptedPrefix(tests, log, i);
    MonitorTracksAlive(tests, log[..i]);
    AliveWasStarted(tests, log[..i], log[i].pid);
  }

  lemma {:induction false} AliveWasStarted(tests: nat, log: seq<Event>, pid: int)
    requires Accepted(tests, log)
    requires pid in Alive(log)
    ensures pid > 1
    ensures exists j :: 0 <= j < |log| && log[j] == Started(Alive(log)[pid], pid)
  {
    var init, last := log[..|log| - 1], log[|log| - 1];
    if last.Started? && last.pid == pid {
      assert log[|log| - 1] == Started(Alive(log)[pid], pid);
    } else {
      AliveWasStarted(tests, init, pid);
      var j :| 0 <= j < |init| && init[j] == Started(Alive(init)[pid], pid);
      assert log[j] == Started(Alive(log)[pid], pid);
    }
  }

  // ----- Every run is accepted -----

  function ProgramPid(running: Option<Fate>): Option<int> {
    if running.Some? && running.value.Child? then Some(running.value.pid) else None
  }

  ghost predicate RunningIssued(env: Env, s: Sup) {
    s.running.Some? ==>
      s.running.value.Child? && s.running.value.pid in Issued(env.fates, s.forks)
  }

  /** The monitor stands at `phase`, and knows the same program and the same
      pids as the machine. */
  ghost predicate Stands(env: Env, s: Sup, phase: Phase) {
    && RunningIssued(env, s)
    && Watch(env.tests, INITIAL, s.log)
       == Accepting(phase, ProgramPid(s.running), Issued(env.fates, s.forks))
  }

  lemma IssuedGrows(fates: nat -> Fate, n: nat)
    requires PidsNotReused(fates)
    ensures fates(n).NoFork? ==> Issued(fates, n + 1) == Issued(fates, n)
    ensures fates(n).Child? ==> Issued(fates, n + 1) == Issued(fates, n) + {fates(n).pid}
    ensures fates(n).Child? ==> fates(n).pid > 1 && fates(n).pid !in Issued(fates, n)
  {
    if fates(n).Child? {
      assert fates(n).pid in Issued(fates, n + 1);
    }
    forall p | p in Issued(fates, n)
      ensures p in Issued(fates, n + 1)
    {
      var i :| 0 <= i < n && fates(i).Child? && fates(i).pid == p;
      assert 0 <= i < n + 1;
    }
    assert Issued(fates, n + 1) <= Issued(fates, n) + (if fates(n).Child? then {fates(n).pid} else {});
  }

  /** One child run to its end moves the monitor over exactly one step. */
  lemma WatchWaited(env: Env, m: Monitor, who: Role, n: nat)
    requires PidsNotReused(env.fates)
    requires m.Accepting? && m.used == Issued(env.fates, n)
    requires m.program.Some? ==> m.program.value in m.used
    requires match who
             case Build => m.phase in {Idle, Tested(0)}
             case Test(k) => m.phase == Tested(k) && k < env.tests
             case Program => false
    ensures Watch(env.tests, m, WaitedEvents(who, env.fates(n)))
            == Accepting(if who.Test? then Tested(who.index + 1)
                         else if Succeeds(env.fates(n)) then Tested(0) else Idle,
                         m.program, Issued(env.fates, n + 1))
    ensures m.used <= Issued(env.fates, n + 1)
  {
    IssuedGrows(env.fates, n);
    match env.fates(n)
    case NoFork => WatchSmall(env.tests, m, ForkFailed(who), ForkFailed(who));
    case Child(pid, status, _) => WatchSmall(env.tests, m, Started(who, pid), Collected(pid, status));
  }

  lemma {:induction false} WatchTests(env: Env, m: Monitor, n: nat, count: nat)
    requires PidsNotReused(env.fates)
    requires count <= env.tests
    requires m.Accepting? && m.phase == Tested(0) && m.used == Issued(env.fates, n)
    requires m.program.Some? ==> m.program.value in m.used
    ensures Watch(env.tests, m, TestEvents(env.fates, n, count))
            == Accepting(Tested(count), m.program, Issued(env.fates, n + count))
    ensures m.used <= Issued(env.fates, n + count)
  {
    hide Watch, Issued, WaitedEvents, PidsNotReused;
    if count == 0 {
      WatchNothing(env.tests, m);
    } else {
      WatchTests(env, m, n, count - 1);
      var before := TestEvents(env.fates, n, count - 1);
      var last := WaitedEvents(Test(count - 1), env.fates(n + count - 1));
      WatchConcat(env.tests, m, before, last);
      WatchWaited(env, Watch(env.tests, m, before), Test(count - 1), n + count - 1);
    }
  }

  lemma WatchHalt(tests: nat, m: Monitor, running: Option<Fate>)
    requires m.Accepting? && m.phase == Tested(tests) && m.program == ProgramPid(running)
    ensures Watch(tests, m, HaltEvents(running)) == m.(program := None)
  {
    if ProgramPid(running).Some? {
      var f := running.value;
      WatchSmall(tests, m, Terminated(f.pid), Collected(f.pid, f.status));
    }
  }

  lemma WatchLaunch(env: Env, m: Monitor, n: nat)
    requires PidsNotReused(env.fates)
    requires m == Accepting(Tested(env.tests), None, Issued(env.fates, n))
    ensures Watch(env.tests, m, LaunchEvents(Program, env.fates(n)))
            == Accepting(Idle, ProgramPid(Survivor(env.fates(n))), Issued(env.fates, n + 1))
  {
    IssuedGrows(env.fates, n);
    match env.fates(n)
    case NoFork => WatchSmall(env.tests, m, ForkFailed(Program), ForkFailed(Program));
    case Child(pid, status, _) => WatchSmall(env.tests, m, Started(Program, pid), Collected(pid, status));
  }

  lemma BuildAccepted(env: Env, s: Sup, s': Sup, phase: Phase)
    requires PidsNotReused(env.fates)
    requires Stands(env, s, phase) && phase in {Idle, Tested(0)}
    requires s'.forks == s.forks + 1 && s'.running == s.running
    requires s'.log == s.log + WaitedEvents(Build, env.fates(s.forks))
    ensures Stands(env, s', if Succeeds(env.fates(s.forks)) then Tested(0) else Idle)
  {
    var m := Watch(env.tests, INITIAL, s.log);
    WatchConcat(env.tests, INITIAL, s.log, WaitedEvents(Build, env.fates(s.forks)));
    WatchWaited(env, m, Build, s.forks);
  }

  /** Tests, halt and launch, from a freshly built state to the end of the cycle. */
  lemma CycleTail(env: Env, m: Monitor, running: Option<Fate>, n: nat)
    requires PidsNotReused(env.fates)
    requires m == Accepting(Tested(0), ProgramPid(running), Issued(env.fates, n))
    requires m.program.Some? ==> m.program.value in m.used
    ensures var last := env.fates(n + env.tests);
            Watch(env.tests, Watch(env.tests, Watch(env.tests, m,
              TestEvents(env.fates, n, env.tests)), HaltEvents(running)), LaunchEvents(Program, last))
            == Accepting(Idle, ProgramPid(Survivor(last)), Issued(env.fates, n + env.tests + 1))
  {
    hide Watch;
    WatchTests(env, m, n, env.tests);
    var tested := Watch(env.tests, m, TestEvents(env.fates, n, env.tests));
    WatchHalt(env.tests, tested, running);
    WatchLaunch(env, tested.(program := None), n + env.tests);
  }

  lemma WatchConcat4(tests: nat, a: seq<Event>, b: seq<Event>, c: seq<Event>, d: seq<Event>)
    ensures Watch(tests, INITIAL, a + b + (c + d))
            == Watch(tests, Watch(tests, Watch(tests, Watch(tests, INITIAL, a), b), c), d)
  {
    WatchConcat(tests, INITIAL, a, b);
    WatchConcat(tests, INITIAL, a + b, c + d);
    WatchConcat(tests, Watch(tests, INITIAL, a + b), c, d);
  }

  lemma RestartAccepted(env: Env, s: Sup, phase: Phase)
    requires PidsNotReused(env.fates)
    requires Stands(env, s, phase) && phase in {Idle, Tested(0)}
    ensures Stands(env, Restart(env, s), Idle)
  {
    var b := env.fates(s.forks);
    var built := s.(forks := s.forks + 1, log := s.log + WaitedEvents(Build, b));
    BuildAccepted(env, s, built, phase);
    if Succeeds(b) {
      LaunchAccepted(env, built);
    }
  }

  lemma LaunchAccepted(env: Env, s: Sup)
    requires PidsNotReused(env.fates)
    requires Stands(env, s, Tested(0))
    ensures Stands(env, Relaunch(env, s), Idle)
  {
    hide Watch, TestEvents;
    var n := s.forks + env.tests;
    CycleTail(env, Watch(env.tests, INITIAL, s.log), s.running, s.forks);
    WatchConcat4(env.tests, s.log, TestEvents(env.fates, s.forks, env.tests),
                 HaltEvents(s.running), LaunchEvents(Program, env.fates(n)));
    IssuedGrows(env.fates, n);
  }

  lemma TriggerAccepted(env: Env, s: Sup)
    requires PidsNotReused(env.fates)
    requires Stands(env, s, Idle)
    ensures Stands(env, Trigger(env, s), Idle)
  {
    hide Watch, TestEvents;
    if env.clock(s.ticks) >= s.timer + 5 {
      var b := env.fates(s.forks);
      var built := s.(forks := s.forks + 1, ticks := s.ticks + 1, log := s.log + WaitedEvents(Build, b));
      BuildAccepted(env, s, built, Idle);
      if Succeeds(b) {
        var now := env.clock(built.ticks);
        var timed := built.(ticks := built.ticks + 1, timer := now,
                            attempts := s.attempts + [Attempted(env.clock(s.ticks), Some(now))]);
        RestartAccepted(env, timed, Tested(0));
      }
    }
  }

  /** The protocol holds over every run: whatever the forks, exits and clock
      readings, the monitor accepts the whole log, and between triggers the one
      unreaped child is the one the supervisor believes to be running. */
  lemma {:induction false} EveryRunAccepted(env: Env, n: nat)
    requires PidsNotReused(env.fates)
    ensures Stands(env, Run(env, Start(env), n), Idle)
    ensures Accepted(env.tests, Run(env, Start(env), n).log)
  {
    if n > 0 {
      EveryRunAccepted(env, n - 1);
      TriggerAccepted(env, Run(env, Start(env), n - 1));
    }
  }
}
