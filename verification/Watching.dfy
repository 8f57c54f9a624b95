/** `Watcher`: one `listen` call decodes a batch of events, and every file that
    matches a filter is one trigger of the supervisor. */
module Watching {
  import opened Basics
  import opened Inotify
  import opened NameFilter
  import opened Processes
  import opened Supervision

  /** What read() delivers once select() has reported input. */
  datatype ReadResult = ReadError | Batch(data: seq<char>)

  /** The modified files one event reports: its name, once for every filter it matches. */
  function Hits(filters: seq<string>, e: FileEvent): seq<string> {
    if filters == [] || !e.Relevant() then []
    else
      Hits(filters[..|filters| - 1], e)
      + (if Accepts(filters[|filters| - 1], e.name) then [e.name] else [])
  }

  function AllHits(filters: seq<string>, events: seq<FileEvent>): seq<string> {
    if events == [] then []
    else AllHits(filters, events[..|events| - 1]) + Hits(filters, events[|events| - 1])
  }

  /** Which events hit, by the bits of the mask: bit 1 (modified) must be set and
      bit 30 (directory) clear. Such an event yields its name once for every index
      whose filter accepts it, any other nothing. */
  lemma HitsExactly(filters: seq<string>, e: FileEvent, high: nat, modified: nat, low: nat, directory: nat, rest: nat)
    requires e.mask == 4 * high + 2 * modified + low && modified < 2 && low < 2
    requires e.mask == 0x4000_0000 * directory + rest && rest < 0x4000_0000
    ensures forall n <- Hits(filters, e) :: n == e.name
    ensures |Hits(filters, e)|
            == if modified == 1 && directory % 2 == 0
               then |set i {:trigger filters[i]} | 0 <= i < |filters| && Accepts(filters[i], e.name)| else 0
  {
    hide Accepts, Hits, FileEvent.Relevant;
    RelevantBits(e, high, modified, low, directory, rest);
    if e.Relevant() {
      HitCount(filters, e);
    } else {
      HitsOfIrrelevant(filters, e);
      if modified == 1 && directory % 2 == 0 {
        NothingAccepted(filters, e);
        var accepted := set i {:trigger filters[i]} | 0 <= i < |filters| && Accepts(filters[i], e.name);
        assert accepted == {};
      }
    }
  }

  lemma {:induction false} HitCount(filters: seq<string>, e: FileEvent)
    requires e.Relevant()
    ensures forall n <- Hits(filters, e) :: n == e.name
    ensures |Hits(filters, e)| == |set i {:trigger filters[i]} | 0 <= i < |filters| && Accepts(filters[i], e.name)|
  {
    hide Accepts, FileEvent.Relevant;
    var accepted := set i {:trigger filters[i]} | 0 <= i < |filters| && Accepts(filters[i], e.name);
    if filters == [] {
      assert accepted == {};
    } else {
      var n := |filters| - 1;
      var init := filters[..n];
      HitCount(init, e);
      var before := set i {:trigger init[i]} | 0 <= i < |init| && Accepts(init[i], e.name);
      assert forall i :: 0 <= i < n ==> init[i] == filters[i];
      assert accepted == before + (if Accepts(filters[n], e.name) then {n} else {});
      assert n !in before;
    }
  }

  lemma RelevantBits(e: FileEvent, high: nat, modified: nat, low: nat, directory: nat, rest: nat)
    requires e.mask == 4 * high + 2 * modified + low && modified < 2 && low < 2
    requires e.mask == 0x4000_0000 * directory + rest && rest < 0x4000_0000
    ensures e.Relevant() <==> e.Len() != 0 && modified == 1 && directory % 2 == 0
  {}

  lemma NothingAccepted(filters: seq<string>, e: FileEvent)
    ensures e.name == "" ==> forall f <- filters :: !Accepts(f, e.name)
  {}

  /** Events are reported one after the other. */
  lemma {:induction false} HitsInOrder(filters: seq<string>, a: seq<FileEvent>, b: seq<FileEvent>)
    ensures AllHits(filters, a + b) == AllHits(filters, a) + AllHits(filters, b)
    decreases |b|
  {
    hide Hits;
    if b == [] {
      assert a + b == a;
    } else {
      var init := b[..|b| - 1];
      assert (a + b)[..|a + b| - 1] == a + init;
      HitsInOrder(filters, a, init);
    }
  }

  lemma OneEvent(filters: seq<string>, e: FileEvent)
    ensures AllHits(filters, [e]) == Hits(filters, e)
  {
    assert [e][..0] == [];
  }

  class Watcher {
    const procman: ProcessManager
    const filters: seq<string>
    const mBuilder: Process
    var mTimer: int
    ghost var attempts: seq<Attempted>

    ghost predicate Valid()
      reads this, procman, procman.Objects()
    {
      && procman.Valid()
      && mBuilder == procman.mBuildStep
      && (forall f <- filters :: |f| < NPOS)
    }

    /** The state of the whole supervisor, as the abstract machine sees it. */
    ghost function State(): Sup
      requires Valid()
      reads this, procman, procman.Objects()
    {
      procman.State(mTimer, attempts)
    }

    /** The first matching event is not debounced: the timer starts 15 seconds ago. */
    constructor (procman: ProcessManager, filters: seq<string>)
      requires procman.Valid()
      requires forall f <- filters :: |f| < NPOS
      modifies procman.os
      ensures Valid() && this.procman == procman && this.filters == filters
      ensures var os := procman.os;
              State() == Sup(old(os.forks), old(os.ticks) + 1, os.env.clock(old(os.ticks)) - 15,
                             old(procman.Running()), old(os.log), [])
    {
      this.procman := procman;
      this.filters := filters;
      mBuilder := procman.mBuildStep;
      attempts := [];
      var now := procman.os.Time();
      mTimer := now - 15;
    }

    method Rebuild() returns (status: bool)
      requires Valid()
      modifies procman.Objects()
      ensures Valid() && procman.Objects() == old(procman.Objects()) && mTimer == old(mTimer)
      ensures var f := procman.os.env.fates(old(State()).forks);
              && status == Succeeds(f)
              && State() == old(State()).(forks := old(State()).forks + 1,
                                          log := old(State()).log + WaitedEvents(Build, f))
    {
      hide Issued, Alive, Assumptions, WaitedEvents;
      status := mBuilder.RunAndWait();
    }

    method RestartProgram()
      requires Valid()
      modifies procman.Objects()
      ensures Valid() && procman.Objects() == old(procman.Objects())
      ensures mTimer == old(mTimer) && attempts == old(attempts)
      ensures State() == Restart(procman.os.env, old(State()))
    {
      procman.RestartAll(mTimer, attempts);
    }

    method Now() returns (now: int)
      requires Valid()
      modifies procman.Objects()
      ensures Valid() && procman.Objects() == old(procman.Objects()) && mTimer == old(mTimer)
      ensures now == procman.os.env.clock(old(State()).ticks)
      ensures State() == old(State()).(ticks := old(State()).ticks + 1)
    {
      now := procman.os.Time();
    }

    /** The debounce timer is set when a build has succeeded. */
    method StampTimer(ghost at: int)
      requires Valid()
      modifies this`mTimer, this`attempts, procman.Objects()
      ensures Valid() && procman.Objects() == old(procman.Objects())
      ensures var now := procman.os.env.clock(old(State()).ticks);
              State() == old(State()).(ticks := old(State()).ticks + 1, timer := now,
                                       attempts := old(State()).attempts + [Attempted(at, Some(now))])
    {
      mTimer := procman.os.Time();
      attempts := attempts + [Attempted(at, Some(mTimer))];
    }

    ghost method RecordFailure(at: int)
      requires Valid()
      modifies this`attempts
      ensures Valid() && procman.Objects() == old(procman.Objects())
      ensures State() == old(State()).(attempts := old(State()).attempts + [Attempted(at, None)])
    {
      attempts := attempts + [Attempted(at, None)];
    }

    /** Past the quiet period: build, and if that succeeds stamp the timer and restart. */
    method Attempt(ghost at: int)
      requires Valid()
      modifies this`mTimer, this`attempts, procman.Objects()
      ensures Valid() && procman.Objects() == old(procman.Objects())
      ensures State() == Supervision.Attempt(procman.os.env, old(State()), at)
    {
      hide ProcessManager.Valid, ProcessManager.State, ProcessManager.Objects, State, Restart, WaitedEvents;
      var rebuilt := Rebuild();
      if rebuilt {
        StampTimer(at);
        RestartProgram();
      } else {
        RecordFailure(at);
      }
    }

    ghost function Timer(): (timer: int)
      requires Valid()
      reads this, procman, procman.Objects()
      ensures timer == State().timer
    {
      mTimer
    }

    /** One file that matched one filter. */
    method HandleMatch()
      requires Valid()
      modifies this`mTimer, this`attempts, procman.Objects()
      ensures Valid() && procman.Objects() == old(procman.Objects())
      ensures State() == Trigger(procman.os.env, old(State()))
    {
      hide Valid, State, Supervision.Attempt;
      assert mTimer == Timer();
      var due := mTimer + 5;
      var now := Now();
      if due <= now {
        Attempt(now);
      }
    }

    /** One file event: tried against every filter in turn. */
    method HandleEvent(name: string, ghost e: FileEvent) returns (modified: seq<string>)
      requires Valid()
      requires e.Relevant() && e.name == name && |name| < NPOS
      modifies this`mTimer, this`attempts, procman.Objects()
      ensures Valid() && procman.Objects() == old(procman.Objects())
      ensures modified == Hits(filters, e)
      ensures State() == Run(procman.os.env, old(State()), |modified|)
    {
      hide Trigger, Run, Hits, Accepts, FileEvent.Relevant, ProcessManager.Valid, ProcessManager.State, State;
      HitsNone(filters, e);
      RunNone(procman.os.env, State());
      modified := [];
      for j := 0 to |filters|
        invariant Valid() && procman.Objects() == old(procman.Objects())
        invariant modified == Hits(filters[..j], e)
        invariant State() == Run(procman.os.env, old(State()), |modified|)
      {
        var str := filters[j];
        HitsOne(filters, j, e);
        var matches := StrMatch(str, name);
        if matches {
          RunOne(procman.os.env, old(State()), |modified|);
          modified := modified + [name];
          HandleMatch();
        }
      }
      assert filters[..|filters|] == filters;
    }

    /** The event at the cursor. */
    method VisitEvent(buffer: seq<char>, i: nat, ghost e: FileEvent) returns (modified: seq<string>, len: nat)
      requires Valid()
      requires i + EVENT_SIZE + e.Len() <= |buffer| && |e.name| < NPOS
      requires WordAt(buffer, i + 4) == e.mask && WordAt(buffer, i + 12) == e.Len()
      requires e.Len() > 0 ==> CString(buffer, i + EVENT_SIZE) == e.name
      modifies this`mTimer, this`attempts, procman.Objects()
      ensures Valid() && procman.Objects() == old(procman.Objects())
      ensures modified == Hits(filters, e) && len == e.Len()
      ensures State() == Run(procman.os.env, old(State()), |modified|)
    {
      hide Run, Hits, ProcessManager.Valid, ProcessManager.State, State, WordAt, CString;
      var mask := WordAt(buffer, i + 4);
      len := WordAt(buffer, i + 12);
      if len != 0 && HasBit(mask, IN_MODIFY) && !HasBit(mask, IN_ISDIR) {
        modified := HandleEvent(CString(buffer, i + EVENT_SIZE), e);
      } else {
        modified := [];
        HitsOfIrrelevant(filters, e);
        RunNone(procman.os.env, State());
      }
    }

    /** One call of listen. `selval` is the result of select(), `result` that of
        read(); the kernel delivers whole events only. */
    method Listen(selval: int, result: ReadResult, ghost events: seq<FileEvent>) returns (modified: seq<string>)
      requires Valid()
      requires forall e <- events :: e.WellFormed()
      requires result.Batch? ==> result.data == EncodeAll(events) && |result.data| <= EVENT_BUF_LEN
      modifies this`mTimer, this`attempts, procman.Objects()
      ensures Valid() && procman.Objects() == old(procman.Objects())
      ensures modified == if selval == 1 && result.Batch? then AllHits(filters, events) else []
      ensures State() == Run(procman.os.env, old(State()), |modified|)
    {
      hide Run, FileEvent.Encode, FileEvent.WellFormed, Hits, WordAt, CString,
           ProcessManager.Valid, ProcessManager.State, ProcessManager.Objects, State;
      modified := [];
      RunNone(procman.os.env, State());
      if selval != 1 || result.ReadError? {
        return;
      }
      var mBuffer, length := result.data, |result.data|;
      var i := 0;
      ghost var k := 0;
      while i < length
        invariant Valid() && procman.Objects() == old(procman.Objects())
        invariant 0 <= i <= length && k <= |events|
        invariant mBuffer[i..] == EncodeAll(events[k..])
        invariant modified == AllHits(filters, events[..k])
        invariant State() == Run(procman.os.env, old(State()), |modified|)
        decreases length - i
      {
        ghost var e := NextEvent(mBuffer, i, events, k);
        var names, len := VisitEvent(mBuffer, i, e);
        RunSplits(procman.os.env, old(State()), |modified|, |names|);
        modified := modified + names;
        i := i + EVENT_SIZE + len;
        k := k + 1;
      }
      EncodesNothing(events[k..]);
      assert events[..k] == events;
    }

    /** The destructor. */
    method Destroy()
      requires Valid()
      modifies procman.os
      ensures Valid()
      ensures State() == Shutdown(old(State())) && procman.os.children == map[]
    {
      procman.KillAll();
    }
  }

  lemma HitsOne(filters: seq<string>, j: nat, e: FileEvent)
    requires j < |filters| && e.Relevant()
    ensures Hits(filters[..j + 1], e)
            == Hits(filters[..j], e) + (if Accepts(filters[j], e.name) then [e.name] else [])
  {
    assert filters[..j + 1][..j] == filters[..j];
  }

  lemma HitsNone(filters: seq<string>, e: FileEvent)
    ensures Hits(filters[..0], e) == []
  {}

  lemma RunNone(env: Env, s: Sup)
    ensures Run(env, s, 0) == s
  {}

  lemma RunOne(env: Env, s: Sup, n: nat)
    ensures Run(env, s, n + 1) == Trigger(env, Run(env, s, n))
  {}

  lemma HitsOfIrrelevant(filters: seq<string>, e: FileEvent)
    requires !e.Relevant()
    ensures Hits(filters, e) == []
  {}

  /** The event at the cursor, when what is left of the buffer encodes the events from `k` on. */
  lemma NextEvent(buffer: seq<char>, i: nat, events: seq<FileEvent>, k: nat) returns (e: FileEvent)
    requires forall e <- events :: e.WellFormed()
    requires i < |buffer| && k <= |events|
    requires buffer[i..] == EncodeAll(events[k..])
    ensures k < |events| && e == events[k] && e.WellFormed()
    ensures i + EVENT_SIZE + e.Len() <= |buffer|
    ensures WordAt(buffer, i + 4) == e.mask && WordAt(buffer, i + 12) == e.Len()
    ensures e.Len() > 0 ==> CString(buffer, i + EVENT_SIZE) == e.name
    ensures buffer[i + EVENT_SIZE + e.Len()..] == EncodeAll(events[k + 1..])
    ensures events[..k + 1][..k] == events[..k]
    ensures |e.name| < NPOS
  {
    hide FileEvent.Encode, WordAt, CString;
    e := events[k];
    var rest := EncodeAll(events[k + 1..]);
    assert events[k..][1..] == events[k + 1..];
    ReadsBack(buffer[..i], e, rest);
    assert buffer[i..] == e.Encode() + rest;
    assert buffer == buffer[..i] + buffer[i..];
    assert buffer == buffer[..i] + e.Encode() + rest;
  }
}
