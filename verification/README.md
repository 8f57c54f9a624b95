# A verified model of Renzoku

Renzoku watches a directory and, when a matching file changes, builds the
project, runs its tests and restarts the program. This project models its
supervisor (`src/`) and the Catch 1.1 test engine that its test suite is built
on (`tests/catch.hpp`), and proves properties of both with Dafny 4.11:

    dafny verify dfyconfig.toml

## How the model is laid out

| file | what it models |
|---|---|
| `Basics.dfy` | what several of the others need |
| `Supervision.dfy` | the supervisor as an abstract machine over forks, clock readings and a log of child events, and an independent monitor that accepts exactly the intended protocol |
| `RunLaws.dfy` | what holds of every run: when the program is started, signalled and reaped, the documented relaunch rule, the pause between builds, shutdown |
| `Processes.dfy` | `Process` and `ProcessManager` as classes over an operating system with a table of unreaped children |
| `Inotify.dfy`, `NameFilter.dfy`, `Watching.dfy` | event bytes, file-name filters and `Watcher::listen` |
| `CommandLine.dfy` | `Util::parseCommand` and the display string of `Process::run` |
| `Configuration.dfy`, `Supervisor.dfy` | registration of processes, and the program from configuration to destructors |
| `Sections.dfy`, `TestRun.dfy` | section tracking, generators and the two loops of `runTest` |
| `Totals.dfy` | result accounting on top of the section tracker, and the totals bar |
| `Xml.dfy`, `XmlWriting.dfy`, `XmlRoundTrip.dfy` | `XmlWriter`, and a streaming XML reader as its inverse |
| `TextWrap.dfy`, `TestSpec.dfy` | text wrapping and the test-specification parser |

Code that changes state is modelled by classes and loops. Each method is proved
against a specification function or predicate, and the laws are lemmas about
those. A class of the source that is a value inside another one (the tracked
sections, nested by value in maps) is one map from paths to run states.

### What the environment may do

`Env` holds everything the operating system decides. Its `fates` say for each
fork whether it succeeds, with which pid, whether the child has exited by the
time `run` polls it with WNOHANG, and with which wait status it ends; `clock` is
the sequence of readings of `time(0)`. All laws are for every `Env`. `Assumptions`
states what is taken for granted: pids above 1 and never reused, and a clock that
does not go back. Built into the system calls of `Processes.OS` are three more:
waitpid is not interrupted, SIGTERM to an unreaped child succeeds, and a child
that is waited for ends eventually. An unreaped child may be running or a
zombie; the supervisor can tell the two apart only by the WNOHANG poll, which is
what `early` decides. Method preconditions add that a build step and a program
are both registered, because the code dereferences both without a test.

### Where the code does not do what one would expect

Each point is a property that fails; the members named give the exact condition
and inputs.

- `doc/README` lines 14-16 relaunch only if there were unit tests and they all
  passed. `runProcesses` returns true in any case, and so it does without any
  test. `RunLaws.RelaunchRule` proves exactly when a restart keeps the rule;
  `RunLaws.FailingTestStillLaunches` and `RunLaws.NoTestsStillLaunches` give the
  two ways to break it.
- A filter without a star is not compared for equality: it matches any name that
  begins and ends with it (`NameFilter.NoStarAgainstShell`,
  `NameFilter.LongerNameAccepted`). A star stands for at
  least one character (`NameFilter.OneStarAgainstShell`).
- The first character of every argument after the first is never looked at. An
  argument that begins with a quote therefore survives there only if it is the
  last one and holds no space (`CommandLine.QuotesKept`, and in particular
  `CommandLine.PlainOrQuotedKept`). In `cmd "a" "b"` the quote that closes the
  first argument is taken for an opening one and both come out as a single
  argument (`CommandLine.QuotedPairMerges`); a quote further inside an argument
  works (`CommandLine.InnerQuoteKept`).
- The 5-second pause follows a successful build only. After one that failed the
  next trigger builds at once (`RunLaws.NextTriggerBuilds`), so two builds can
  fall into one second (`RunLaws.TwoBuildsInOneSecond`).
- The XML writer checks nothing: "]]>" in a text, even in pieces, an attribute
  name that is used twice and characters that no document may contain are
  written as they are. `XmlWriting.Print` proves that the output, read as
  content, is malformed exactly then, and that it is a whole document exactly if
  otherwise the calls describe one element and no text beside it;
  `XmlWriting.SectionEndInPieces` and `XmlWriting.RepeatedAttribute` give inputs.
- Nor does it escape white space: a newline, tab or carriage return in an
  attribute value is read back as a space (`XmlRoundTrip.NewlineInAttribute`;
  the reporter writes such values, `tests/catch.hpp` lines 7483 and 8441), and a
  carriage return in a text as a newline. `XmlRoundTrip.PrintForest` proves that
  exactly the normal and printable forests come back as they were, and what
  comes back of any other.
- A wrapped text can be cut off although few characters are left:
  `TextWrap.CompleteExactly` proves when it is complete, for any two widths of at
  least one column. If one column is left after the first line, what the first
  line leaves must be such that every ordinary character but the first follows a
  dropped one; a wide first line does not help (`TextWrap.TwoLettersCutOff`,
  `TextWrap.WideFirstLine`). With two columns there fewer than 1000 characters
  are always complete (`TextWrap.TwoColumnsLater`).
- The display string of an empty command is read past the end of its vector
  (`CommandLine.DisplayArguments`).

## Model

| member | source | states |
|---|---|---|
| Processes.OS.Fork | src/process.cpp:79-88 | the parent's view of fork: -1, or a pid above 1 that was never handed out before and is now an unreaped child |
| Processes.OS.WaitPid | src/process.cpp:118-121 | waitpid on one pid: ECHILD for anything that is not an unreaped child, 0 from a WNOHANG poll of a live child, otherwise exactly that child is reaped with its status |
| Processes.OS.Kill | src/process.cpp:151-155 | signals reach unreaped children only; a probe leaves no trace |
| Processes.Process.Run | src/process.cpp:77-131 | one fork, one poll: the result is false exactly if the fork failed or the poll saw a non-zero status; the new child is the only change to the child table, and mProc is its pid |
| Processes.Process.RunAndWait | src/process.cpp:132-146 | true exactly if the fork succeeded and the wait status is 0, whether the child exits before or after the poll; nothing is left unreaped |
| Processes.Process.Kill | src/process.cpp:147-163 | an unreaped child is signalled and reaped, in any other state nothing is signalled, so a second call does nothing; nothing at or below pid 1 is ever touched |
| Processes.ProcessManager.SetBuilder | src/procman.cpp:104-108 | a build step is registered once; a second registration fails and changes nothing |
| Processes.ProcessManager.SetProgram | src/procman.cpp:114-118 | a program is registered once; a second registration fails and changes nothing |
| Processes.ProcessManager.AddProcess | src/procman.cpp:110-112 | tests are kept in registration order |
| Processes.ProcessManager.RunBuild | src/procman.cpp:45-56 | keeps the invariant that the program's child is the only unreaped one; reports whether the build exited 0 |
| Processes.ProcessManager.RunProcesses | src/procman.cpp:58-71 | every test is run once, in order, and reaped; the result is true whatever they return; the running program is untouched |
| Processes.ProcessManager.HaltConstructionProcs | src/procman.cpp:73-78 | between operations no test is unreaped, so nothing is signalled |
| Processes.ProcessManager.HaltProgram | src/procman.cpp:90-92 | afterwards no child at all is unreaped |
| Processes.ProcessManager.StartProgram | src/procman.cpp:86-88 | called with no unreaped child, so the pid it overwrites belongs to none; the new child is the running program |
| Processes.ProcessManager.RestartAll | src/procman.cpp:94-102 | the methods together refine one `Restart` of the abstract machine and keep the invariant |
| Processes.ProcessManager.KillAll | src/procman.cpp:80-84 | from every state between operations it leaves no unreaped child and signals only the program |
| Processes.ProcessManager.Destroy | src/procman.cpp:30-35 | the destructors stop at most the running program; after `KillAll` they send no signal |
| Supervision.EveryRunAccepted | src/procman.cpp:94-102 | after any number of triggers, whatever the forks, exits and clock do, the monitor accepts the log: builds, tests and launches come in the intended order only, each pid is new, a child is never replaced unreaped |
| Supervision.RestartAccepted | src/procman.cpp:94-102 | a restart moves an accepted log to an accepted log, both from rest and right after the watcher's own build |
| Supervision.LaunchAccepted | src/procman.cpp:97-101 | tests, halt and launch after a good build keep the log accepted and end the cycle |
| Supervision.MonitorTracksAlive | src/process.cpp:77-163 | in an accepted log the children started and not yet collected are exactly those the monitor tracks |
| Supervision.OneChildPerRole | src/process.cpp:77-163 | at every point of an accepted log no role has two unreaped children, so at most one instance of the program is alive, and at most two children in all |
| Supervision.SignalsHitOwnProgram | src/process.cpp:147-155 | every SIGTERM in an accepted log goes to a started, still unreaped instance of the program with a pid above 1 |
| Supervision.RunSplits | src/watcher.cpp:103-130 | a run of m triggers followed by one of n is a run of m + n |
| RunLaws.LaunchesFollowGreenCycles | src/procman.cpp:94-102 | in every run each start of the program comes directly after a build that exited 0, every test once in registration order, and the stop of exactly that instance that was unreaped before them |
| RunLaws.HaltsFollowGreenTests | src/procman.cpp:94-102 | in every run each SIGTERM comes directly after a build that exited 0 and every test once, and is followed at once by the reaping of that child |
| RunLaws.SurvivorsLeaveOnlyStopped | src/procman.cpp:94-102 | in every run an instance of the program that was alive when polled is reaped only right after the SIGTERM of a cycle whose build exited 0, so no failing build touches it |
| RunLaws.NothingAliveAtLaunch | src/procman.cpp:90-101 | when the program is started no child of any role is unreaped |
| RunLaws.FailedBuildKeepsProgram | src/watcher.cpp:119-125 | at any point of a run a trigger that is debounced or whose first or second build fails leaves the same children alive, and neither starts nor signals the program |
| RunLaws.RelaunchRule | src/procman.cpp:58-102 | a restart launches exactly if its build succeeded, so it keeps the documented rule exactly if the build fails, or there are tests and all of them pass |
| RunLaws.FailingTestStillLaunches | src/procman.cpp:58-71 | a concrete run with a failing test in which the program is relaunched |
| RunLaws.NoTestsStillLaunches | src/procman.cpp:58-71 | a concrete run without any test in which the program is relaunched |
| RunLaws.RestartsSpaced | src/watcher.cpp:117-123 | in every run the values stored in the timer are at least 5 seconds apart and the timer holds the last one |
| RunLaws.RestartRate | src/watcher.cpp:117-123 | K restarts take at least 5 * (K - 1) seconds of the time since the watcher was created |
| RunLaws.AttemptsSpaced | src/watcher.cpp:119-123 | in every run a build by the watcher that succeeds is at least 5 seconds before every later one, counted from its start and from the stamp it leaves |
| RunLaws.NextTriggerBuilds | src/watcher.cpp:117-125 | at any point of a run the next trigger builds exactly if the last build failed, or there was none, or 5 seconds have passed since the stamp; otherwise it only reads the clock |
| RunLaws.TwoBuildsInOneSecond | src/watcher.cpp:117-125 | a concrete run with two builds by the watcher at the same clock reading |
| RunLaws.OnlyTheProgramIsAlive | src/process.cpp:77-163 | between triggers the running program is the only child that can be unreaped |
| RunLaws.ShutdownLeavesNothing | src/watcher.cpp:39-44 | after any run the destructor leaves no child of any role |
| RunLaws.EverySignalHitsTheProgram | src/process.cpp:147-155 | in the whole log, shutdown included, every signal goes to an unreaped instance of the program |
| Inotify.ReadsBack | src/watcher.cpp:104-112 | the mask at offset 4, the length at 12 and the name at 16 read back from wherever the event lies in the buffer |
| Inotify.MaskBytes | src/watcher.cpp:104-112 | the mask lies in four bytes, the least significant first |
| NameFilter.StrMatch | src/util.cpp:122-167 | with wrapping size_t arithmetic and no substr position out of range, the result is the part before the last star as prefix and the part after it as suffix, or the whole filter as both if it has no star |
| NameFilter.OneStarIsGlob | src/util.cpp:122-167 | on every filter with one star the match is a recursive glob whose star takes at least one character |
| NameFilter.OneStarAgainstShell | src/util.cpp:122-167 | it differs from a glob whose star may be empty on exactly one name, the filter without its star |
| NameFilter.NoStarAgainstShell | src/util.cpp:148-161 | without a star it differs from equality exactly on longer names that begin and end with the filter, and on the empty name for the empty filter |
| NameFilter.LongerNameAccepted | src/util.cpp:148-161 | a longer name that a filter without a star accepts |
| NameFilter.AdmittedExactly | src/config.cpp:226-233 | a filter is admitted exactly if no two places of it hold a star |
| NameFilter.AdmitFilters | src/config.cpp:217-235 | exactly the lists of filters with at most one star each are admitted; on an error the filters before the first bad one were stored |
| Watching.Watcher.constructor | src/watcher.cpp:25-37 | the timer starts 15 seconds in the past and nothing is forked |
| Watching.Watcher.Rebuild | src/watcher.cpp:139-147 | one build by the same process object that a restart uses |
| Watching.Watcher.HandleMatch | src/watcher.cpp:117-125 | refines one `Trigger` of the abstract machine |
| Watching.Watcher.Listen | src/watcher.cpp:86-137 | on a buffer of whole encoded events it visits each once, in order, reports each matching name once for every filter it matches, and refines one trigger for each of these; on a time-out or an error nothing happens |
| Watching.HitsExactly | src/watcher.cpp:106-113 | an event hits exactly if bit 1 of its mask is set and bit 30 is not; it then yields its name once for every filter that accepts it |
| Watching.HitsInOrder | src/watcher.cpp:103-130 | what a batch yields is what its events yield one after the other |
| Watching.OneEvent | src/watcher.cpp:103-130 | a batch of one event yields what that event yields |
| Watching.Watcher.Destroy | src/watcher.cpp:39-44 | refines the machine's shutdown and leaves no child |
| Configuration.Config.ParseConfig | src/config.cpp:99-147 | succeeds exactly as the fold over the sections does, registering new processes in their roles; nothing is started |
| Configuration.RegisteredOnce | src/config.cpp:117-139 | on success the build step and the program are registered exactly if their sections, taken together, end up enabled with a command; every stored filter has at most one star |
| Configuration.SecondProgramFails | src/config.cpp:117-122 | once a program is registered every configuration with a further program section fails |
| Configuration.ConfiguresExactly | src/config.cpp:99-147 | a configuration is accepted exactly if it has no unknown section, no filter with two stars, and no compile or program section behind those that already registered one |
| Configuration.RegisteredExactly | src/config.cpp:117-139 | by the entries alone: a build step and a program are registered exactly if some command was given for them and their last switch is not off, and one test for every test section up to which that holds of the tests |
| Configuration.UsableExactly | src/config.cpp:149-201 | a command section is usable exactly if a command was given and no switch to off is the last switch |
| Configuration.LastCommand | src/config.cpp:158-172 | the last command given is the one that counts |
| Configuration.StoredFiltersAreGlobs | src/config.cpp:217-235 | exactly the filters of the watch sections are stored, and every one of them is matched as the glob lemmas say |
| Supervisor.Supervise | src/main.cpp:47-62 | for every configuration and any rounds of the main loop, the log is that of the abstract machine on one trigger for each match in order, then its shutdown; no child is left |
| CommandLine.Split | src/util.cpp:79-110 | the arguments joined by single spaces are the command, they form a producible list, and any producible list with that text is this one; the scan terminates and stays in range |
| CommandLine.SplitUnique | src/util.cpp:87-110 | joining is injective on the producible lists |
| CommandLine.ParseCommand | src/util.cpp:111-120 | one C string for every argument, the first included, cut only at a NUL in it, and one NULL behind them; without a NUL in the command the entries joined by single spaces are the command |
| CommandLine.DisplayArguments | src/process.cpp:90-102 | the buffer is filled to exactly its computed size with the arguments after the first, each followed by a space, and one NUL; exactly for the empty command the loops begin outside the vector |
| CommandLine.DisplayIsCommand | src/process.cpp:90-102 | the first argument, a space and the display string are the command with a space at its end |
| CommandLine.QuotesKept | src/util.cpp:87-110 | a list whose arguments have balanced quotes and all spaces inside them comes back from its text exactly if every argument after the first that begins with a quote is the last and holds no space |
| CommandLine.PlainOrQuotedKept | src/util.cpp:87-110 | the same for lists of plain and fully quoted arguments |
| CommandLine.LaterQuotedArgumentIsSplit | src/util.cpp:89-103 | whatever stands around it, a fully quoted text after the first argument is not one argument if it holds a space or another argument follows |
| CommandLine.QuotedPairMerges | src/util.cpp:89-103 | a command followed by two quoted words is split into two arguments, the second of which is both words with their quotes and the space |
| CommandLine.InnerQuoteKept | src/util.cpp:89-103 | a later argument keeps the space inside its quotes if it does not begin with the quote |
| Sections.TestCaseTracker.EnterSection | tests/catch.hpp:5031-5039 | a section is entered unless it is complete or this run already completed one; it is known afterwards in either case |
| Sections.TestCaseTracker.LeaveSection | tests/catch.hpp:5040-5045 | the section is complete exactly if every known section in it is, and the run is spent |
| Sections.ChildrenComplete | tests/catch.hpp:4998-5007 | every known child of a section is complete exactly if every leaf below it has run |
| Sections.OnlyLeavesHaveNone | tests/catch.hpp:5047-5049 | when a section is left the tracker knows sections inside it exactly if its body has any |
| Sections.LeafPathsInOrder | tests/catch.hpp:5031-5045 | the list of leaves that runs are measured by has every path that leads along names to a section without sections exactly once, nothing else, and in preorder |
| Sections.RunSection | tests/catch.hpp:5289-5331 | entering, running and leaving one section takes the tracker from "the first k leaves below it are complete" to one leaf more, unless the run is spent or all are complete |
| Sections.RunSections | tests/catch.hpp:5031-5045 | one pass over a body runs exactly its first incomplete leaf and leaves the table of any other part unchanged |
| TestRun.RunCurrentTest | tests/catch.hpp:5390-5432 | run number k executes leaf number k in preorder; afterwards the test case is complete exactly if no leaf is left |
| TestRun.RunUntilComplete | tests/catch.hpp:5246-5249 | the inner loop runs the remaining leaves in preorder, once each, and makes one run if there is none |
| TestRun.GeneratorsForTest.MoveNext | tests/catch.hpp:6485-6493 | the loop over the generators is one step of the odometer |
| TestRun.AdvancedIsPlusOne | tests/catch.hpp:6449-6493 | the step adds one to the mixed-radix number and reports failure exactly when it wraps to all zeros |
| TestRun.EveryTupleOnce | tests/catch.hpp:6485-6493 | every tuple of indices is shown exactly once |
| TestRun.FastestFirst | tests/catch.hpp:6485-6493 | the first generator is the fastest digit of the odometer |
| TestRun.RunTest | tests/catch.hpp:5243-5251 | the nested loops make max(1, leaves) + product - 1 runs and show every tuple in order; under the first tuple every leaf is executed exactly once, in preorder, and none under a later one |
| Totals.RunContext.AssertionEnded | tests/catch.hpp:5273-5279 | a pass adds one to passed, an unsuppressed failure one to failed, anything else nothing |
| Totals.RunContext.ExecuteSection | tests/catch.hpp:5284-5331 | a section that the tracker refuses counts nothing; one that is entered counts what is inside it, plus one failure if that is nothing and the tracker knows no section inside it |
| Totals.RunContext.SectionEnded | tests/catch.hpp:5308-5331 | the counts of a section are those made since its start, by a subtraction that does not wrap, plus the missing assertion |
| Totals.RunContext.RunCurrentTest | tests/catch.hpp:5390-5432 | the failures of a test that may fail are moved to failedButOk without wrapping and without changing the total |
| Totals.RunContext.RunTest | tests/catch.hpp:5232-5265 | the returned delta counts every pass and every unsuppressed failure that the runs executed, and every missing assertion; its one test case is failed exactly if there is a failure that is not forgiven; it is what the totals grew by |
| Totals.RunTests | tests/catch.hpp:1744-1797 | over any tests the deltas add up to the totals, one test case is counted for each with its verdict, passed is the number of passes executed, and failed with failedButOk the number of unsuppressed failures executed and assertions missing |
| Totals.FlatTest | tests/catch.hpp:5308-5331 | a test without sections executes all its assertions in order, and misses one for every run that counts nothing if that is warned about |
| Totals.SectionTrace | tests/catch.hpp:5284-5331 | a section without sections executes all its assertions if neither it nor, in this run, any other section was completed, and none otherwise; it misses one if none counts and nothing was ever known inside |
| Totals.TraceConcat | tests/catch.hpp:5273-5331 | steps in a row are executed in a row |
| Totals.ForgivingKeepsTotal | tests/catch.hpp:5424-5428 | moving failures run by run is moving those of the whole test, and keeps the number of results |
| Totals.FailedVerdict | tests/catch.hpp:1782-1791 | a test counts as failed exactly if it may not fail and some run executed an unsuppressed failure or missed an assertion, as failedButOk exactly if it may and one did |
| Totals.FindMax | tests/catch.hpp:8870-8877 | always a maximum, and the last one among equals |
| Totals.RatioBounds | tests/catch.hpp:8866-8869 | a ratio is the floor of 80 times the share, but 1 for a positive count below that |
| Totals.RatioSum | tests/catch.hpp:8866-8869 | the three ratios sum to between 78 and 82 and are positive exactly where the count is |
| Totals.TotalsDivider | tests/catch.hpp:8879-8890 | the loops end with widths that sum to 79, are positive exactly where the count is, are at most three columns off their ratio, and come from the ratios by changing a maximum column by column |
| Xml.EscapeRoundTrip | tests/catch.hpp:8042-8064 | decoding undoes escaping exactly |
| Xml.EncodeIsInert | tests/catch.hpp:8042-8064 | escaped text contains neither a less-than sign nor a double quote |
| Xml.SectionEndSurvives | tests/catch.hpp:8042-8064 | escaped text contains "]]>" exactly if the text does |
| Xml.CharacterNumbers | tests/catch.hpp:8028-8064 | white space and legal characters by their numbers, as in sections 2.2 and 2.3 of XML 1.0 |
| XmlWriting.XmlWriter.WriteEncodedText | tests/catch.hpp:8042-8064 | the search loop writes the text escaped character by character |
| XmlWriting.XmlWriter.StartElement | tests/catch.hpp:7940-7948 | the output still reads as the document described, now with a new open element, or stays malformed; the tag is printed after two spaces for every open element |
| XmlWriting.XmlWriter.EndElement | tests/catch.hpp:7956-7968 | the innermost element is closed, as an empty tag or by an end tag of the same name behind two spaces for every element around it |
| XmlWriting.XmlWriter.WriteAttribute | tests/catch.hpp:7970-7977 | the attribute is added to the open tag, or dropped if its name or value is empty; the output becomes malformed exactly if the name is taken or the value has an illegal character |
| XmlWriting.XmlWriter.WriteText | tests/catch.hpp:7991-8001 | the text is added to the innermost element, whatever the indent flag; the output becomes malformed exactly if it completes a "]]>" or has an illegal character |
| XmlWriting.XmlWriter.Destroy | tests/catch.hpp:7914-7917 | every open element is ended and the whole output reads as the described forest, unless it was malformed |
| XmlWriting.Print | tests/catch.hpp:7914-8001 | any well-nested calls, ended by the destructor, print content that reads back as what they describe if they conform to sections 2.2, 2.4 and 3.1 of XML 1.0, and malformed text otherwise; it is a document (section 2.1) exactly if they also describe one element and no text beside it |
| XmlWriting.SectionEndInPieces | tests/catch.hpp:7991-8001 | well-nested calls that do not conform although none of their texts contains "]]>" |
| XmlWriting.RepeatedAttribute | tests/catch.hpp:7970-7977 | well-nested calls that do not conform because one attribute name is used twice |
| XmlRoundTrip.ForestDescribed | tests/catch.hpp:7940-8001 | the calls that print any forest with proper names describe its canonical form, and conform exactly if XML allows it |
| XmlRoundTrip.CanonicalFixed | tests/catch.hpp:7970-8001 | a forest is its own canonical form exactly if its texts are not empty, not adjacent, trimmed and without carriage returns, and its attributes have names and values without tabs or line ends |
| XmlRoundTrip.UnchangedWhiteSpace | tests/catch.hpp:7970-8001 | a text comes back with its white space inside exactly if it has no carriage return, an attribute value exactly if it also has no tab and no newline |
| XmlRoundTrip.PrintForest | tests/catch.hpp:7914-8001 | reading any printed forest with proper names fails exactly if it has a repeated attribute, an illegal character or a "]]>" in texts that meet, and otherwise gives its canonical form; it gives back the very forest exactly if that is normal and printable |
| XmlRoundTrip.NormalYetMalformed | tests/catch.hpp:7914-8001 | a forest with a repeated attribute and one with "]]>" in a text, both printed and neither readable |
| XmlRoundTrip.NewlineInAttribute | tests/catch.hpp:7970-7977 | a printable forest that comes back with a space for the newline in an attribute value |
| TextWrap.Text.SpliceLine | tests/catch.hpp:3415-3418 | a line of indent and the first characters, and the rest of the remainder |
| TextWrap.Text.NextLine | tests/catch.hpp:3374-3408 | one round takes the one line that fits: to a near newline, else everything, else a broken line; line and break account for the text taken |
| TextWrap.Text.BreakLine | tests/catch.hpp:3391-3407 | a line that is too long ends at the last place to wrap, else with a hyphen |
| TextWrap.WrapPlaces | tests/catch.hpp:3360-3362 | a line can end at a space and at nine other characters |
| TextWrap.LineIsLongest | tests/catch.hpp:3374-3407 | a broken line ends at the last place in reach, a hyphen means there is none, and a newline in reach ends the line |
| TextWrap.LineShows | tests/catch.hpp:3415-3418 | a line is its indent in spaces, the initial one on the first line only, its text, and a hyphen where the text goes on |
| TextWrap.Text.Wrap | tests/catch.hpp:3359-3413 | the lines are the pieces of the text behind their indents and no wider than the width; the pieces and their breaks rebuild the text exactly, or a proper prefix of it in 1000 lines before the notice |
| TextWrap.WrapsUnique | tests/catch.hpp:3368-3412 | there is only one way to wrap a text |
| TextWrap.EveryLineProgresses | tests/catch.hpp:3397-3406 | with two usable columns every line takes at least one character |
| TextWrap.ShortTextIsComplete | tests/catch.hpp:3369-3372 | with two usable columns a text of at most 1000 characters is never cut off |
| TextWrap.OneColumnComplete | tests/catch.hpp:3368-3412 | with one usable column a text is complete exactly if every ordinary character but the first follows a dropped one and at most 1000 lines begin in it |
| TextWrap.TwoLettersCutOff | tests/catch.hpp:3368-3412 | a text of two letters is cut off after 1000 lines that hold none of it |
| TextWrap.CompleteExactly | tests/catch.hpp:3368-3412 | for any two widths of at least one column a text is complete exactly if what its first line leaves takes at most 999 lines and, at one column, flows |
| TextWrap.TwoColumnsLater | tests/catch.hpp:3368-3412 | with two columns after the first line fewer than 1000 characters are never cut off, even if the first line leaves one |
| TextWrap.WideFirstLine | tests/catch.hpp:3368-3412 | a text of eight letters is cut off although its first line leaves five columns |
| TestSpec.TestSpecParser.VisitChar | tests/catch.hpp:2993-3024 | the fields after one character, with the position moved past the character after an opening quote or bracket |
| TestSpec.TestSpecParser.Parse | tests/catch.hpp:2977-2987 | the loop over the argument, and a bare name that the end of the argument closes |
| TestSpec.ParseTestSpec | tests/catch.hpp:3049-3051 | a fresh parser yields the filters of the argument, the last one included |
| TestSpec.ItemRead | tests/catch.hpp:2993-3041 | a rendered quoted name or tag adds exactly its pattern, although its first character is never visited |
| TestSpec.BareThenTag | tests/catch.hpp:3008-3013 | an opening bracket ends a bare name and begins a tag that is not excluded by the name's tilde |
| TestSpec.RenderRoundTrip | tests/catch.hpp:2977-3047 | parsing a rendered list of filters of quoted, bracketed and bare items, each after spaces, optionally negated by a tilde or by the word `exclude:` in or before it, gives back exactly that list |
| TestSpec.QuotedSelects | tests/catch.hpp:2863-2926 | a quoted text, with a star at either end, both or none, selects exactly the tests whose name ends with, begins with, contains or is the text but for its case; a tilde or the word in front selects the others |
| TestSpec.TagSelects | tests/catch.hpp:2908-2926 | a bracketed tag selects exactly the tests that have it but for its case; a tilde, the word in it and the word before it select the others |
| TestSpec.RenderedSelects | tests/catch.hpp:2927-2949 | a specification selects exactly the tests that every item of some filter selects |

## Left out

- Real system calls and their errors beyond the outcomes in `Env`; the child side of fork after the display string is built.
- Cleaning up command memory, logging, colours, signal handlers and the reporters.
- Recursive directory watching and directory listing: their results depend on the working directory and on stale stat data.
- YAML parsing: sections and entries are given with their keys already decoded and lower-cased; the include and exclude lists are not used by the code that is modelled.
- A configuration without a build step or program: the code would dereference a null pointer at the first match.
- Local time: the comparison of `mktime` on the broken-down timer plus five seconds is `timer + 5`.
- size_t wrap-around of result counters: they are unbounded, and `Minus` is proved never to be called where it would wrap; 80 times a count is taken not to overflow.
- TextWrap.Text.Wrap: texts without tabs and widths that leave at least one column, because tab handling and the wrapped subtraction below one column are not modelled.
- TestRun.RunTest: no abort, no exception through a section, and a fixed list of generators with at least one value each; a generator of size 0 would never wrap.
- Sections.RunSections: sibling sections have distinct names, as the tracker identifies them by name only.
- XmlWriting.Print: element and attribute names must be names in the sense of section 2.3 of XML 1.0, which the writer does not check; texts are sequences of characters, not bytes in an encoding; comments, blank lines and non-string attributes are not modelled.
- TestSpec.RenderRoundTrip: no tag aliases, and of lower-casing the letters A to Z only.
- Totals.RunContext.RunTest: counts the runs it is given, whatever each of them does; how many the loops make is `TestRun.RunTest`. Exceptions, fatal signals and unfinished sections are not modelled.
- Tokenizer stub, dead prototypes, Catch's matchers, macros and command line, build scripts and packaging.
