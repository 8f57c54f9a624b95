/** `Process` and `ProcessManager` over a table of unreaped children. */
module Processes {
  import opened Basics
  import opened Supervision

  datatype Signal = Probe | SigTerm

  /** The operating system as this program sees it. `children` holds every child
      that was forked and not yet reaped, running or zombie, with its fate. */
  class OS {
    const env: Env
    var forks: nat
    var ticks: nat
    var log: seq<Event>
    var children: map<int, Fate>

    ghost predicate Valid()
      reads this
    {
      && Assumptions(env)
      && children.Keys <= Issued(env.fates, forks)
      && children.Keys == Alive(log).Keys
      && forall p <- children :: p > 1 && children[p].Child? && children[p].pid == p
    }

    constructor (env: Env)
      requires Assumptions(env)
      ensures Valid() && this.env == env
      ensures forks == 0 && ticks == 0 && log == [] && children == map[]
    {
      this.env := env;
      forks, ticks, log, children := 0, 0, [], map[];
    }

    /** time(0) */
    method Time() returns (now: int)
      requires Valid()
      modifies this`ticks
      ensures Valid()
      ensures now == env.clock(old(ticks)) && ticks == old(ticks) + 1
    {
      now := env.clock(ticks);
      ticks := ticks + 1;
    }

    /** fork(), as the parent sees it. */
    method Fork(who: Role) returns (pid: int)
      requires Valid()
      modifies this`forks, this`log, this`children
      ensures Valid() && forks == old(forks) + 1
      ensures var f := env.fates(old(forks));
              if f.Child? then
                && pid == f.pid && pid > 1 && pid !in old(children)
                && pid !in Issued(env.fates, old(forks))
                && pid in Issued(env.fates, forks)
                && children == old(children)[pid := f]
                && log == old(log) + [Started(who, pid)]
              else pid == -1 && children == old(children) && log == old(log) + [ForkFailed(who)]
      ensures Issued(env.fates, old(forks)) <= Issued(env.fates, forks)
    {
      hide Issued, Alive, PidsNotReused, NonDecreasing;
      IssuedGrows(env.fates, forks);
      var f := env.fates(forks);
      if f.Child? {
        pid := f.pid;
        AliveOne(log, Started(who, pid));
        children := children[pid := f];
        log := log + [Started(who, pid)];
      } else {
        pid := -1;
        AliveOne(log, ForkFailed(who));
        log := log + [ForkFailed(who)];
      }
      forks := forks + 1;
    }

    /** waitpid() on one pid. A pid that is not an unreaped child gives ECHILD
        and leaves the status at the caller's 0. */
    method WaitPid(pid: int, noHang: bool) returns (r: int, status: int)
      requires Valid()
      requires pid > 1
      modifies this`log, this`children
      ensures Valid()
      ensures if pid !in old(children) then
                r == -1 && status == 0 && children == old(children) && log == old(log)
              else if noHang && !old(children)[pid].early then
                r == 0 && status == 0 && children == old(children) && log == old(log)
              else
                && r == pid && status == old(children)[pid].status
                && children == old(children) - {pid}
                && log == old(log) + [Collected(pid, status)]
    {
      if pid !in children {
        return -1, 0;
      }
      if noHang && !children[pid].early {
        return 0, 0;
      }
      r, status := pid, children[pid].status;
      AliveOne(log, Collected(pid, status));
      children := children - {pid};
      log := log + [Collected(pid, status)];
    }

    /** kill(): 0 on an unreaped child, -1 (ESRCH) otherwise. Only SIGTERM is an event. */
    method Kill(pid: int, signal: Signal) returns (r: int)
      requires Valid()
      requires pid > 1
      modifies this`log
      ensures Valid()
      ensures r == if pid in children then 0 else -1
      ensures log == if pid in children && signal == SigTerm then old(log) + [Terminated(pid)] else old(log)
    {
      if pid !in children {
        return -1;
      }
      if signal == SigTerm {
        AliveOne(log, Terminated(pid));
        log := log + [Terminated(pid)];
      }
      r := 0;
    }
  }

  class Process {
    const os: OS
    const who: Role
    var mProc: int

    constructor (os: OS, who: Role)
      ensures this.os == os && this.who == who && mProc == 0
    {
      this.os := os;
      this.who := who;
      mProc := 0;
    }

    /** `mProc` is 0, -1 or a pid that an earlier fork returned. */
    ghost predicate Valid()
      reads this, os
    {
      mProc <= 0 || mProc in Issued(os.env.fates, os.forks)
    }

    /** No condition on the previous child: overwriting the pid of an unreaped
        one is possible here and excluded by the manager. */
    method Run() returns (ok: bool)
      requires os.Valid()
      modifies this, os
      ensures os.Valid() && Valid()
      ensures os.ticks == old(os.ticks) && os.forks == old(os.forks) + 1
      ensures Issued(os.env.fates, old(os.forks)) <= Issued(os.env.fates, os.forks)
      ensures var f := os.env.fates(old(os.forks));
              && ok == (f.Child? && !(f.early && f.status != 0))
              && mProc == (if f.Child? then f.pid else -1)
              && (f.Child? ==> mProc > 1 && mProc !in old(os.children) && mProc !in Issued(os.env.fates, old(os.forks)))
              && os.log == old(os.log) + LaunchEvents(who, f)
              && os.children == (if Survivor(f).Some? then old(os.children)[f.pid := f] else old(os.children))
    {
      hide Issued, Alive, Assumptions;
      mProc := os.Fork(who);
      if mProc == -1 {
        return false;
      }
      var pid, status := os.WaitPid(mProc, true);
      if pid > 0 && status != 0 {
        return false;
      }
      ok := true;
    }

    /** True exactly when the fork succeeded and the child ended with status 0,
        whether it ends before or after the poll; the child is always reaped. */
    method RunAndWait() returns (ok: bool)
      requires os.Valid()
      modifies this, os
      ensures os.Valid() && Valid()
      ensures os.ticks == old(os.ticks) && os.forks == old(os.forks) + 1
      ensures Issued(os.env.fates, old(os.forks)) <= Issued(os.env.fates, os.forks)
      ensures var f := os.env.fates(old(os.forks));
              && ok == Succeeds(f)
              && mProc == (if f.Child? then f.pid else -1)
              && mProc !in os.children
              && (f.Child? ==> mProc !in Issued(os.env.fates, old(os.forks)))
              && os.log == old(os.log) + WaitedEvents(who, f)
              && os.children == old(os.children)
    {
      hide Issued, Alive, Assumptions;
      var started := Run();
      if !started {
        return false;
      }
      var pid, status := os.WaitPid(mProc, false);
      if pid > 0 && status != 0 {
        return false;
      }
      ok := true;
    }

    /** Stops and reaps an unreaped child; on any other `mProc` nothing happens,
        so a second call sends no signal. */
    method Kill() returns (ok: bool)
      requires os.Valid()
      modifies os
      ensures os.Valid() && ok
      ensures os.ticks == old(os.ticks) && os.forks == old(os.forks)
      ensures if mProc in old(os.children) then
                && mProc > 1
                && os.children == old(os.children) - {mProc}
                && os.log == old(os.log) + HaltEvents(Some(old(os.children)[mProc]))
              else os.children == old(os.children) && os.log == old(os.log)
      ensures mProc !in os.children
    {
      hide Issued, Alive, Assumptions;
      if mProc <= 1 {
        return true;
      }
      var probe := os.Kill(mProc, Probe);
      if probe == 0 {
        var sent := os.Kill(mProc, SigTerm);
        if sent != 0 {
          return false;
        }
      }
      var pid, status := os.WaitPid(mProc, false);
      ok := true;
    }
  }

  class ProcessManager {
    const os: OS
    var mBuildStep: Process?
    var mProcesses: seq<Process>
    var mProgram: Process?

    constructor (os: OS)
      ensures this.os == os && mBuildStep == null && mProcesses == [] && mProgram == null
    {
      this.os := os;
      mBuildStep, mProcesses, mProgram := null, [], null;
    }

    // ----- Registration -----

    /** False stands for the exception: a build step is registered only once. */
    method SetBuilder(proc: Process) returns (ok: bool)
      modifies this`mBuildStep
      ensures ok <==> old(mBuildStep) == null
      ensures mBuildStep == if ok then proc else old(mBuildStep)
    {
      if mBuildStep != null {
        return false;
      }
      mBuildStep := proc;
      ok := true;
    }

    method AddProcess(proc: Process)
      modifies this`mProcesses
      ensures mProcesses == old(mProcesses) + [proc]
    {
      mProcesses := mProcesses + [proc];
    }

    method SetProgram(proc: Process) returns (ok: bool)
      modifies this`mProgram
      ensures ok <==> old(mProgram) == null
      ensures mProgram == if ok then proc else old(mProgram)
    {
      if mProgram != null {
        return false;
      }
      mProgram := proc;
      ok := true;
    }

    // ----- The invariant between operations -----

    /** Everything is registered, in its own object. */
    ghost predicate Registered()
      reads this
    {
      && mBuildStep != null && mBuildStep.os == os && mBuildStep.who == Build
      && mProgram != null && mProgram.os == os && mProgram.who == Program
      && |mProcesses| == os.env.tests
      && (forall i :: 0 <= i < |mProcesses| ==>
            && mProcesses[i].os == os && mProcesses[i].who == Test(i)
            && mProcesses[i] != mBuildStep && mProcesses[i] != mProgram)
      && mBuildStep != mProgram
    }

    ghost function Tests(): set<object>
      reads this
    {
      set p <- mProcesses
    }

    ghost function Objects(): set<object>
      reads this
    {
      {os} + Tests()
      + (if mBuildStep != null then {mBuildStep} else {})
      + (if mProgram != null then {mProgram} else {})
    }

    /** At most one child is unreaped, and it is the one whose pid the program's
        Process object holds. */
    ghost predicate Valid()
      reads this, Objects()
    {
      && Registered()
      && os.Valid()
      && mBuildStep.Valid() && mProgram.Valid()
      && (forall p <- mProcesses :: p.Valid())
      && os.children.Keys <= {mProgram.mProc}
      && mBuildStep.mProc !in os.children
      && (forall p <- mProcesses :: p.mProc !in os.children)
    }

    ghost function Running(): Option<Fate>
      requires Registered()
      reads this, mProgram, os
    {
      if mProgram.mProc in os.children then Some(os.children[mProgram.mProc]) else None
    }

    /** The part of the machine's state that the manager and its processes hold. */
    ghost function State(timer: int, attempts: seq<Attempted>): Sup
      requires Registered()
      reads this, mProgram, os
    {
      Sup(os.forks, os.ticks, timer, Running(), os.log, attempts)
    }

    // ----- Operations -----

    method RunBuild() returns (ok: bool)
      requires Valid()
      modifies mBuildStep, os
      ensures Valid() && Running() == old(Running())
      ensures os.forks == old(os.forks) + 1 && os.ticks == old(os.ticks)
      ensures ok == Succeeds(os.env.fates(old(os.forks)))
      ensures os.log == old(os.log) + WaitedEvents(Build, os.env.fates(old(os.forks)))
    {
      hide Issued, Alive, Assumptions;
      ok := mBuildStep.RunAndWait();
    }

    /** Runs every test once, in order; the result does not depend on theirs. */
    method RunProcesses() returns (ok: bool)
      requires Valid()
      modifies Tests(), os
      ensures Valid() && Running() == old(Running())
      ensures os.forks == old(os.forks) + os.env.tests && os.ticks == old(os.ticks)
      ensures ok
      ensures os.log == old(os.log) + TestEvents(os.env.fates, old(os.forks), os.env.tests)
    {
      hide Issued, Alive, Assumptions;
      for i := 0 to |mProcesses|
        invariant Valid() && Running() == old(Running())
        invariant os.forks == old(os.forks) + i && os.ticks == old(os.ticks)
        invariant os.log == old(os.log) + TestEvents(os.env.fates, old(os.forks), i)
      {
        var proc := mProcesses[i];
        var passed := proc.RunAndWait();
      }
      ok := true;
    }

    /** No test is unreaped between operations, so this kills nothing. */
    method HaltConstructionProcs()
      requires Valid()
      modifies os
      ensures Valid() && Running() == old(Running())
      ensures os.forks == old(os.forks) && os.ticks == old(os.ticks) && os.log == old(os.log)
    {
      hide Issued, Alive, Assumptions;
      for i := 0 to |mProcesses|
        invariant Valid() && Running() == old(Running())
        invariant os.forks == old(os.forks) && os.ticks == old(os.ticks) && os.log == old(os.log)
      {
        var proc := mProcesses[i];
        var killed := proc.Kill();
      }
    }

    method HaltProgram()
      requires Valid()
      modifies os
      ensures Valid() && Running() == None && os.children == map[]
      ensures os.forks == old(os.forks) && os.ticks == old(os.ticks)
      ensures os.log == old(os.log) + HaltEvents(old(Running()))
    {
      var killed := mProgram.Kill();
    }

    /** Called with no child left, so no pid of an unreaped child is overwritten. */
    method StartProgram()
      requires Valid()
      requires os.children == map[]
      modifies mProgram, os
      ensures Valid()
      ensures Running() == Survivor(os.env.fates(old(os.forks)))
      ensures os.forks == old(os.forks) + 1 && os.ticks == old(os.ticks)
      ensures os.log == old(os.log) + LaunchEvents(Program, os.env.fates(old(os.forks)))
    {
      var started := mProgram.Run();
    }

    method RestartAll(ghost timer: int, ghost attempts: seq<Attempted>)
      requires Valid()
      modifies Objects()
      ensures Valid()
      ensures State(timer, attempts) == Restart(os.env, old(State(timer, attempts)))
    {
      hide Valid, TestEvents, WaitedEvents, LaunchEvents, HaltEvents, Running;
      HaltConstructionProcs();
      var built := RunBuild();
      if built {
        var tested := RunProcesses();
        HaltProgram();
        StartProgram();
      }
    }

    /** Leaves no child unreaped; only the program is ever signalled. */
    method KillAll()
      requires Valid()
      modifies os
      ensures Valid() && os.children == map[] && Running() == None
      ensures os.forks == old(os.forks) && os.ticks == old(os.ticks)
      ensures os.log == old(os.log) + HaltEvents(old(Running()))
    {
      hide Issued, Alive, Assumptions;
      var killed := mBuildStep.Kill();
      HaltConstructionProcs();
      killed := mProgram.Kill();
    }

    /** The destructors of the manager and its processes. After `KillAll` they
        find nothing to signal or to reap. */
    method Destroy()
      requires Valid()
      modifies os
      ensures Valid() && os.children == map[]
      ensures os.log == old(os.log) + HaltEvents(old(Running()))
    {
      hide Issued, Alive, Assumptions;
      HaltConstructionProcs();
      var killed := mBuildStep.Kill();
      killed := mProgram.Kill();
    }
  }
}
