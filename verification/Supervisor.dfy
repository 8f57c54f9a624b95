/** The whole program: from the configuration through any number of `listen`
    calls to the destructors. */
module Supervisor {
  import opened Basics
  import opened Configuration
  import opened Inotify
  import opened NameFilter
  import opened Processes
  import opened RunLaws
  import opened Supervision
  import opened Watching

  /** One round of the main loop: what select() and read() return, and the events
      that the bytes read stand for. */
  datatype Round = Round(selval: int, result: ReadResult, events: seq<FileEvent>) {
    predicate Delivered() {
      && (forall e <- events :: e.WellFormed())
      && (result.Batch? ==> result.data == EncodeAll(events) && |result.data| <= EVENT_BUF_LEN)
    }
  }

  function RoundHits(filters: seq<string>, r: Round): seq<string> {
    if r.selval == 1 && r.result.Batch? then AllHits(filters, r.events) else []
  }

  function TotalHits(filters: seq<string>, rounds: seq<Round>): seq<string> {
    if rounds == [] then []
    else TotalHits(filters, rounds[..|rounds| - 1]) + RoundHits(filters, rounds[|rounds| - 1])
  }

  /** A configuration that registers a build step, a program and the given tests. */
  predicate Complete(sections: seq<Section>, tests: nat) {
    && Configured(sections).Some?
    && var s := Configured(sections).value;
       s.built && s.programmed && s.tests == tests && forall f <- s.filters :: |f| < NPOS
  }

  /** A freshly configured manager, whose processes were never run. */
  method Configure(env: Env, sections: seq<Section>) returns (procman: ProcessManager, filters: seq<string>)
    requires Assumptions(env) && Complete(sections, env.tests)
    ensures fresh(procman) && fresh(procman.Objects())
    ensures procman.Valid() && procman.os.env == env && filters == Configured(sections).value.filters
    ensures procman.State(0, []) == Sup(0, 0, 0, None, [], [])
  {
    hide Configured, Issued, Assumptions, Alive, Updated;
    var os := new OS(env);
    procman := new ProcessManager(os);
    var config := new Config(procman);
    var ok := config.ParseConfig(sections);
    filters := config.filters;
  }

  method SetUp(env: Env, sections: seq<Section>) returns (watcher: Watcher)
    requires Assumptions(env) && Complete(sections, env.tests)
    ensures fresh(watcher) && fresh(watcher.procman) && fresh(watcher.procman.Objects())
    ensures watcher.Valid() && watcher.procman.os.env == env
    ensures watcher.filters == Configured(sections).value.filters
    ensures watcher.State() == Start(env)
  {
    hide Configured, ProcessManager.Valid;
    var procman, filters := Configure(env, sections);
    watcher := new Watcher(procman, filters);
  }

  method ListenOnce(watcher: Watcher, r: Round) returns (modified: seq<string>)
    requires watcher.Valid() && r.Delivered()
    modifies watcher`mTimer, watcher`attempts, watcher.procman.Objects()
    ensures watcher.Valid() && watcher.procman.Objects() == old(watcher.procman.Objects())
    ensures modified == RoundHits(watcher.filters, r)
    ensures watcher.State() == Run(watcher.procman.os.env, old(watcher.State()), |modified|)
  {
    modified := watcher.Listen(r.selval, r.result, r.events);
  }

  /** The main loop. */
  method Serve(watcher: Watcher, rounds: seq<Round>) returns (modified: seq<string>)
    requires watcher.Valid()
    requires forall r <- rounds :: r.Delivered()
    modifies watcher`mTimer, watcher`attempts, watcher.procman.Objects()
    ensures watcher.Valid() && modified == TotalHits(watcher.filters, rounds)
    ensures watcher.State() == Run(watcher.procman.os.env, old(watcher.State()), |modified|)
  {
    hide Run, ProcessManager.Valid, ProcessManager.Objects, Watcher.State, ProcessManager.State, Round.Delivered,
         RoundHits;
    RunNone(watcher.procman.os.env, watcher.State());
    modified := [];
    for n := 0 to |rounds|
      invariant watcher.Valid() && watcher.procman.Objects() == old(watcher.procman.Objects())
      invariant modified == TotalHits(watcher.filters, rounds[..n])
      invariant watcher.State() == Run(watcher.procman.os.env, old(watcher.State()), |modified|)
    {
      assert rounds[..n + 1][..n] == rounds[..n] && rounds[n] in rounds;
      var names := ListenOnce(watcher, rounds[n]);
      RunSplits(watcher.procman.os.env, old(watcher.State()), |modified|, |names|);
      modified := modified + names;
    }
    assert rounds[..|rounds|] == rounds;
  }

  /** The destructors of the watcher and of the manager. */
  method Finish(watcher: Watcher)
    requires watcher.Valid()
    modifies watcher.procman.os
    ensures var os := watcher.procman.os;
            os.log == Shutdown(old(watcher.State())).log && os.children == map[]
  {
    watcher.Destroy();
    watcher.procman.Destroy();
  }

  /** The log of the whole run is that of the abstract machine on one trigger for
      every file and filter that match, in order, followed by its shutdown; when
      the program ends no child is left unreaped. */
  method Supervise(env: Env, sections: seq<Section>, rounds: seq<Round>)
    returns (log: seq<Event>, modified: seq<string>)
    requires Assumptions(env) && Complete(sections, env.tests)
    requires forall r <- rounds :: r.Delivered()
    ensures modified == TotalHits(Configured(sections).value.filters, rounds)
    ensures log == Shutdown(Run(env, Start(env), |modified|)).log
    ensures Alive(log) == map[]
  {
    hide Run, ProcessManager.Valid, Watcher.State, ProcessManager.State, Configured;
    var watcher := SetUp(env, sections);
    modified := Serve(watcher, rounds);
    Finish(watcher);
    log := watcher.procman.os.log;
    ShutdownLeavesNothing(env, |modified|);
  }
}
