# Verified models of PerfKitBenchmarker's algorithms and protocols

A Dafny model of the parts of PerfKitBenchmarker that are algorithms or protocols of their own, with proofs of what
they promise. `dafny verify dfyconfig.toml` checks the whole project.

| file | what it models |
|---|---|
| `SignalledQueue.dfy` | the lock-signalled queue, at the level of single append, release, acquire, look and pop steps |
| `TaskPool.dfy` | the background task pool: dispatcher, workers and response queue under every interleaving |
| `WaitForCondition.dfy` | the polling wait with exponential back-off, over exact reals |
| `IntegerLists.dfy`, `IntegerListText.dfy` | compressed integer lists: indexing, iteration, parser and printer |
| `BenchmarkSets.dfy`, `FlagMatrix.dfy` | the expansion of benchmark sets and of flag zip and flag matrix |
| `Requirements.dfy` | the check of requirement files that include each other |
| `ZoneRetry.dfy` | the choice of another zone after a failed run |
| `Lifecycle.dfy`, `LifecycleOrder.dfy`, `RunPhase.dfy` | one run of a benchmark through its stages, with a failure possible at every step |
| `TeardownConditions.dfy` | the conditions under which the teardown is skipped |
| `ResultSummary.dfy` | the printed summary that hoists shared metadata out of the samples |
| `CpuDisabling.dfy` | the balanced choice of CPUs to disable |
| `Sorting.dfy`, `Collections.dfy`, `Arithmetic.dfy`, `Wrappers.dfy` | a stable sort, counting in sets and sequences, division by a variable, Option and Result |

Concurrent code is a state machine whose steps are the atomic actions of the threads, and the theorems quantify over
all its runs. Random choices are nondeterministic. Clocks, outside failures and the results of tasks are parameters.
Loops and objects that change state are methods and classes, each tied to a specification function or relation, and
the theorems are about those.

Places where the code does not do what its name, comments or documentation suggest. Each has an input that shows it
and, where the failure depends on the input, the exact condition:

- Indexing an integer list is wrong when an index lands on an empty range: `3:5:-1,7` has the single element 7, but 3
  at position 0 (`IndexingWrongAfterEmptyRange`). `IndexingAgreesIff` says exactly which lists are safe.
- Printing and parsing a list turns a backward range around: `BackwardRangeComesBackTurned`, and `SameIntegersIff` for
  the exact condition.
- After the first sweep a quota retry need not change the region: `LaterSweepCanStay`.
  `QuotaRetryChangesRegionIff` gives the states in which it must, whatever is chosen.
- A quota retry can choose a zone that does not support the machine types: `QuotaRetryCanLeaveSupported`. It never does
  exactly when every zone of a supported region is supported: `QuotaRunsStaySupportedIff`.
- A failed attempt of the run phase uses up an iteration, so with one iteration a single failure ends the phase quietly
  although a retry is allowed (`SingleFailureIsNotRetried`). Phases that do not raise have had a successful attempt,
  whatever the attempts and the clock do, exactly when there are fewer retries than the least number of attempts: the
  iterations, or one if there is a run time (`QuietPhasesSucceedIff`).
- When the thread for a machine cannot be started, the interrupt watcher is lost and the threads it had started before
  go on: `WatcherThreadIsLeft`. `ThreadSurvivesIff` gives the exact condition on what fails, and `RunBenchmark` the
  number of threads left.
- The summary loses local metadata when the first sample of a test is the end-to-end one: `EndToEndFirstLoses`, with
  `NothingIsLost` and `EndToEndFirst` for the exact conditions.
- An unhashable value does not keep a key from counting as constant: `UnhashableHidesAnother`. The samples agree on a
  constant key exactly when none of its values is unhashable: `ConstantAgreesIff`.
- CPUs are popped from an empty list when a node has fewer than its share: `UnevenNodesRunOut`, and `AvailableIff` for
  the exact condition.
- The file name after `-r` is used as it stands, so `-r base.txt` names a file that begins with a space:
  `SpaceAfterOption`, and `NameIsStrippedIff` for the exact condition.
- Cyclic includes never end (`SelfInclude`), unless a missing file or an unmet requirement comes before the line that
  closes the cycle: `TerminatesIff`.
- Without any allowed thread the pool waits for ever: `NoWorkersHang`, and `EveryCompleteRunIsCorrect` for all others.

## Model

| member | source | states |
|---|---|---|
| `SignalledQueue.StepKeepsInv` | perfkitbenchmarker/background_tasks.py:172-205 | Every single append, release, acquire, look and pop keeps: items taken followed by items waiting are the items appended; nothing crashes; a waiting item implies a free lock, a pending release or an awake reader. |
| `SignalledQueue.EveryScheduleKeepsInv` | perfkitbenchmarker/background_tasks.py:172-205 | The same over every legal schedule of any number of writers and one reader. |
| `SignalledQueue.FirstInFirstOut` | perfkitbenchmarker/background_tasks.py:194-205 | From an empty queue, items returned, in hand and waiting are together exactly the items appended, in order. |
| `SignalledQueue.ReaderNotStuck` | perfkitbenchmarker/background_tasks.py:185-201 | With an item waiting, a reader inside Get can move, or a writer has yet to release the lock and then it can. |
| `SignalledQueue.ItemTakenWithinThreeReaderSteps` | perfkitbenchmarker/background_tasks.py:194-201 | Spurious wakeups cannot starve the reader: with an item waiting, three steps of its own suffice whatever the writers do. |
| `SignalledQueue.WaitEnds` | perfkitbenchmarker/background_tasks.py:185-205 | With an item waiting and the reader blocked, the lock can be acquired once the writers that have appended also release, whatever else the writers do and in whatever order. |
| `SignalledQueue.NonPollingSingleReaderQueue.Put` | perfkitbenchmarker/background_tasks.py:203-205 | Put is the append and the release of the step machine, with any steps of other threads, the reader among them, between the two. |
| `SignalledQueue.NonPollingSingleReaderQueue.Get` | perfkitbenchmarker/background_tasks.py:194-201 | Get is a run of the reader of the step machine, with any steps of the writers before each of its steps, the second look at the deque included; it returns the item that the machine returns, and keeps the queue invariant. |
| `TaskPool.StepKeepsInv` | perfkitbenchmarker/background_tasks.py:310-400 | Whatever step a thread takes, the pool invariant holds: no assertion or lookup fails, each worker plays the role that the dispatcher's lists give it, counters and records agree. |
| `TaskPool.StepLowersRank` | perfkitbenchmarker/background_tasks.py:310-400 | Every step of every thread lowers a natural-number rank. |
| `TaskPool.SomeStepIsEnabled` | perfkitbenchmarker/background_tasks.py:310-400 | No deadlock: until the dispatcher has finished, some thread can take a step. |
| `TaskPool.EveryRunKeepsInv` | perfkitbenchmarker/background_tasks.py:500-582 | In every state of every run the invariant holds, and rank plus steps taken never exceed the initial rank. |
| `TaskPool.EveryRunIsFinite` | perfkitbenchmarker/background_tasks.py:500-582 | No schedule goes on for ever. |
| `TaskPool.WorkersAlwaysPartitioned` | perfkitbenchmarker/background_tasks.py:352-400 | In every reachable state of the loop a worker is either available and idle, or its task is queued, running or waiting to be reported; the active count counts the latter and never exceeds the limit or the number of calls; a task is only started when a worker is available; no start-up response is left. |
| `TaskPool.EveryCompleteRunIsCorrect` | perfkitbenchmarker/background_tasks.py:528-582 | Every maximal schedule ends with all workers stopped, every call executed exactly once even if others fail, result i from call i whatever the order of completion, and an exception exactly when some call raised; it has as many messages as executions that raised, and the message of a call that completed after k others that raised is number k, with that call and its traceback. |
| `TaskPool.NoWorkersHang` | perfkitbenchmarker/background_tasks.py:529-550 | With calls to make but no thread allowed, a run gets stuck before it is finished. |
| `WaitForCondition.WaitForCondition` | perfkitbenchmarker/background_tasks.py:118-148 | True comes at the first check that succeeds; False only after failed checks, at least one, with exactly the number of sleeps that the timeout determines; in every case the time of the return is given, although the delay is capped by a stale remaining time. |
| `WaitForCondition.OvershootBelowMaxDelay` | perfkitbenchmarker/background_tasks.py:137-148 | A wait that times out returns no earlier than the deadline and less than 50 ms after it. |
| `WaitForCondition.OvershootIsTight` | perfkitbenchmarker/background_tasks.py:137-148 | For every eps some timeout is overshot by 50 ms less eps. |
| `WaitForCondition.FourMilliseconds` | perfkitbenchmarker/background_tasks.py:142-148 | The stale cap: a timeout of 4 ms is over after 6 ms, in sleeps of 1, 2 and 3 ms. |
| `WaitForCondition.SleepCountBound` | perfkitbenchmarker/background_tasks.py:137-148 | The number of sleeps is bounded by the timeout at 20 a second, and is 0 exactly for a timeout that is not positive. |
| `WaitForCondition.SleptClosedForm` | perfkitbenchmarker/background_tasks.py:79-81 | The delays are 1, 2, 4, 8, 16, 32 ms and then 50 ms, with their sums. |
| `IntegerLists.Make` | perfkitbenchmarker/flag_util.py:57-67 | Construction fails exactly when a range has step 0; otherwise the stored length is that of the expanded list. |
| `IntegerLists.GetItem` | perfkitbenchmarker/flag_util.py:72-97 | The index loop ends, fails exactly outside 0 to length - 1, and answers ItemAt. |
| `IntegerLists.RangeAgrees` | perfkitbenchmarker/flag_util.py:122-126 | A range has as many elements as the ceiling division says, for steps of either sign, and element i is start + i * step. |
| `IntegerLists.ElementsIff` | perfkitbenchmarker/flag_util.py:122-126 | A range holds exactly the integers between its bounds, both included, that are a multiple of the step away from the first, for steps of either sign. |
| `IntegerLists.ElementAt` | perfkitbenchmarker/flag_util.py:122-126 | They come from the low bound on, step by step; a pair has step 1. |
| `IntegerLists.IndexingAgreesIff` | perfkitbenchmarker/flag_util.py:72-126 | Indexing agrees with iteration at all positions exactly when no empty range stands first or directly after a non-empty group, unless its first bound is that of the next non-empty group. |
| `IntegerLists.IndexingAgreesWithoutEmptyRanges` | perfkitbenchmarker/flag_util.py:72-126 | Without empty ranges indexing agrees with iteration at every position. |
| `IntegerLists.IndexingWrongAfterEmptyRange` | perfkitbenchmarker/flag_util.py:72-97 | The list 3:5:-1,7 has the single element 7 and gives 3 at position 0. |
| `IntegerListText.Parse` | perfkitbenchmarker/flag_util.py:185-238 | The loop computes the parse of the text, in either mode, with its three errors, and the list it returns has the right length. |
| `IntegerListText.MatchesIff` | perfkitbenchmarker/flag_util.py:31-32 | A group is accepted exactly if it is one to three unsigned numerals joined by dashes, or one to three signed ones joined by colons, with a newline at most after it. |
| `IntegerListText.SerializedForms` | perfkitbenchmarker/flag_util.py:246-256 | The printed form of each kind of group: colons if a number in it is negative, dashes otherwise. |
| `IntegerListText.DigitsAreCanonical` | perfkitbenchmarker/flag_util.py:248-256 | Printed numerals have no leading zeros. |
| `IntegerListText.GroupRoundTrip` | perfkitbenchmarker/flag_util.py:185-252 | Parsing one printed group gives it back in normal form, negative numbers and the choice of separator included. |
| `IntegerListText.ParseOfSerialize` | perfkitbenchmarker/flag_util.py:185-256 | Parsing what was printed, for any groups at all: an error for an empty list or a step 0, else the normal forms of the groups. |
| `IntegerListText.SameGroupsIff` | perfkitbenchmarker/flag_util.py:185-256 | Parsing undoes printing exactly for the non-empty lists of groups that the parser can produce. |
| `IntegerListText.SameIntegersIff` | perfkitbenchmarker/flag_util.py:185-256 | The same integers come back exactly when no range is backward; this includes two-element ranges with low <= high. |
| `IntegerListText.BackwardRangeComesBackTurned` | perfkitbenchmarker/flag_util.py:228-236 | The range from 5 to 3 with step 1 is empty and comes back as 5, 4, 3. |
| `IntegerListText.ParsePrintParse` | perfkitbenchmarker/flag_util.py:185-256 | Whatever text was parsed, printing the list and parsing it again gives the same groups. |
| `IntegerListText.StrictMode` | perfkitbenchmarker/flag_util.py:129-238 | EXCEPTION mode accepts exactly the texts whose bounds increase, and each expands to a strictly increasing sequence. |
| `IntegerListText.SplitOfJoin` | perfkitbenchmarker/flag_util.py:211 | Splitting at a separator undoes joining with it. |
| `IntegerListText.NaturalOfDigits` | perfkitbenchmarker/flag_util.py:221-231 | Reading the decimal digits of a number gives the number. |
| `BenchmarkSets.ExpandBenchmarks` | perfkitbenchmarker/benchmark_sets.py:446-458 | The worklist loop ends for every table, cyclic ones included, and returns what the depth-first traversal finds, in its order; which order that is say the next rows. |
| `BenchmarkSets.LaterMembersFirst` | perfkitbenchmarker/benchmark_sets.py:446-458 | A set that was not seen stands for its members, last-listed first: what is found under a member comes after all that is found under those listed after it, and nothing is found again. |
| `BenchmarkSets.BenchmarksOfSet` | perfkitbenchmarker/benchmark_sets.py:446-458 | Of a set of n new benchmarks, number i found is number n - 1 - i listed. |
| `BenchmarkSets.ReverseAt` | perfkitbenchmarker/benchmark_sets.py:456 | Extending the queue on its left turns the order around. |
| `BenchmarkSets.DepthFirstAppend` | perfkitbenchmarker/benchmark_sets.py:446-458 | Traversing two lists of names is traversing the first and then the second with what the first has seen. |
| `BenchmarkSets.FoundExactlyReachable` | perfkitbenchmarker/benchmark_sets.py:446-458 | Found are, without duplicates, exactly the non-set names reachable from the requested ones. |
| `FlagMatrix.ExpandConfigs` | perfkitbenchmarker/benchmark_sets.py:506-537 | The expansion fails exactly when zip axes differ in length; else its entries are the kept combinations in order, each in as many copies as asked for; copies share one new configuration and distinct combinations never share one. |
| `FlagMatrix.OriginAt` | perfkitbenchmarker/benchmark_sets.py:535-537 | Entry e is a copy of the kept combination number e / copies. |
| `FlagMatrix.GetConfigForAxis` | perfkitbenchmarker/benchmark_sets.py:379-386 | A new configuration whose flags are the global ones, overlaid by the local ones and then by each setting in turn. |
| `FlagMatrix.OverlayValue` | perfkitbenchmarker/benchmark_sets.py:384-385 | What overlaying means for each flag: it has the value of the last setting that sets it, or that of the base if none does, and there are no others. |
| `FlagMatrix.ProductAt` | perfkitbenchmarker/benchmark_sets.py:527-531 | The k-th combination takes from every axis the value that the mixed-radix digits of k say, last axis fastest. |
| `FlagMatrix.DigitsRoundTrip` | perfkitbenchmarker/benchmark_sets.py:527-531 | The digits stand for k, so distinct numbers have distinct digits. |
| `FlagMatrix.NumberRoundTrip` | perfkitbenchmarker/benchmark_sets.py:527-531 | Every choice of digits is the digits of some k. |
| `FlagMatrix.FlagsWithoutZip` | perfkitbenchmarker/benchmark_sets.py:379-386 | Without a zip, in combination k each flag of the matrix has the value that its digit of k says, and any other flag its local value, or else its global one. |
| `FlagMatrix.FlagsWithZip` | perfkitbenchmarker/benchmark_sets.py:508-531 | With a zip, each flag of the matrix has the value that its digit says, another flag of the zip the value of the row that the first digit says, and any other its local value, or else its global one. |
| `FlagMatrix.CombinationCount` | perfkitbenchmarker/benchmark_sets.py:508-537 | Without a filter there are zip length times the product of the axis lengths, and the matrix axes are in the order of their flag names. |
| `FlagMatrix.KeptStep` | perfkitbenchmarker/benchmark_sets.py:529-533 | A filter keeps exactly the satisfying subsequence: one more combination adds its flags exactly when the filter accepts them. |
| `Requirements.CheckRequirements` | perfkitbenchmarker/requirements.py:26-46 | Whenever the loop ends at all, it checks exactly the sequence that recursive replacement of the include lines gives, up to the first missing file or unmet requirement. |
| `Requirements.OneMoreLine` | perfkitbenchmarker/requirements.py:37-46 | What each line adds to the sequence: an include line all that the included file checks, a blank one nothing, any other the requirement it names. |
| `Requirements.NothingAfterTheEnd` | perfkitbenchmarker/requirements.py:37-46 | After a missing file or an unmet requirement nothing more is checked. |
| `Requirements.RelativeTarget` | perfkitbenchmarker/requirements.py:41 | A relative name is resolved against the directory of the file that names it. |
| `Requirements.AbsoluteTarget` | perfkitbenchmarker/requirements.py:41 | An absolute name stands for itself. |
| `Requirements.StripParts` | perfkitbenchmarker/requirements.py:38 | Stripping takes spaces off both ends of a line, and nothing else. |
| `Requirements.LoopIsExpansion` | perfkitbenchmarker/requirements.py:32-46 | The explicit-stack loop and the recursive replacement end for the same files, with the same answer. |
| `Requirements.TerminatesIff` | perfkitbenchmarker/requirements.py:32-46 | The loop ends exactly when the check never comes, by includes, to a file for a second time; an include counts only if all lines before it in its file are fine. |
| `Requirements.TerminatesIffAcyclic` | perfkitbenchmarker/requirements.py:32-46 | Acyclic includes suffice for termination, and are needed when all requirements are met and all included files exist. |
| `Requirements.CycleNeverEnds` | perfkitbenchmarker/requirements.py:35-46 | A cycle that the check comes to keeps the loop going for ever. |
| `Requirements.SelfInclude` | perfkitbenchmarker/requirements.py:32-46 | A file that names one requirement and then includes itself: the check ends exactly when the requirement is not met. |
| `Requirements.NameIsStrippedIff` | perfkitbenchmarker/requirements.py:38-41 | The file included is the one with the stripped name exactly when no space follows "-r". |
| `Requirements.SpaceAfterOption` | perfkitbenchmarker/requirements.py:38-41 | The line "-r base.txt" does not include base.txt. |
| `ZoneRetry.ZoneRetryManager.constructor` | perfkitbenchmarker/pkb.py:1381-1396 | The original zone is the flag's zone or the chosen supported one, and nothing has been tried. |
| `ZoneRetry.ZoneRetryManager.ChooseAndSetNewZone` | perfkitbenchmarker/pkb.py:1445-1463 | The current zone is remembered; the next one is any untried possible zone, or the original with cleared memory when there is none. |
| `ZoneRetry.ZoneRetryManager.AssignZoneToSameRegion` | perfkitbenchmarker/pkb.py:1438-1443 | The step is one of the capacity-retry relation. |
| `ZoneRetry.ZoneRetryManager.AssignZoneToNewRegion` | perfkitbenchmarker/pkb.py:1418-1436 | The step is one of the quota-retry relation. |
| `ZoneRetry.ZoneRetryManager.HandleSmartRetries` | perfkitbenchmarker/pkb.py:1398-1416 | Which of the two steps is taken, if any, by flags and failure. |
| `ZoneRetry.CapacityRetriesGoRoundThePool` | perfkitbenchmarker/pkb.py:1438-1463 | Over capacity retries, for every random choice, the zones form blocks, each a permutation of the supported zones of the original region and the original zone, beginning with the latter. |
| `ZoneRetry.BlockVisits` | perfkitbenchmarker/pkb.py:1438-1463 | A whole block visits the original zone, and of all others just the supported zones of the original region. |
| `ZoneRetry.NoZoneTwiceBetweenClears` | perfkitbenchmarker/pkb.py:1418-1463 | Over any mix of retries the current zone is untried, and no zone is chosen twice between two clears. |
| `ZoneRetry.FirstQuotaSweep` | perfkitbenchmarker/pkb.py:1418-1436 | With R usable supported regions, quota retries visit no region twice within the first R - 1 retries, these visit all of them, and the R-th returns to the original region. |
| `ZoneRetry.SweepVisits` | perfkitbenchmarker/pkb.py:1418-1436 | A whole sweep visits just the regions of the supported zones. |
| `ZoneRetry.QuotaRetryChangesRegionIff` | perfkitbenchmarker/pkb.py:1418-1463 | Whatever is chosen, a quota retry changes the region: exactly when the run is away from the original region, or there are regions left to try and each has an untried zone. |
| `ZoneRetry.LaterSweepCanStay` | perfkitbenchmarker/pkb.py:1455-1459 | A run of quota retries over two regions whose third retry stays in its region. |
| `ZoneRetry.QuotaRunsStaySupportedIff` | perfkitbenchmarker/pkb.py:1418-1463 | All zones of all quota runs are supported exactly when every zone of a supported region is. |
| `ZoneRetry.QuotaRetryCanLeaveSupported` | perfkitbenchmarker/pkb.py:1418-1436 | A quota retry that moves to an unsupported zone. |
| `Lifecycle.RunBenchmark` | perfkitbenchmarker/pkb.py:998-1158 | For failures of any steps: how the run ends, which steps it takes in which order, what is deleted and how many watcher threads are left are exactly those of CourseOf, a function of what fails; the status is unchanged when the run was skipped, SUCCEEDED when it completed and FAILED otherwise; and the promises of the rows below hold. |
| `Lifecycle.EveryCourseKeepsPromises` | perfkitbenchmarker/pkb.py:998-1158 | What is true of every course, whatever fails: the statements of CompletesIff, DeleteIsCalled, CompletedIsDeleted and ThreadSurvivesIff together. |
| `LifecycleOrder.EveryRunIsInOrder` | perfkitbenchmarker/pkb.py:1021-1081 | Whatever fails, the stages are run in the order provision, prepare, run, cleanup, each at most once and only if asked for; none before all those asked for that precede it were completed, the check for interruptions included; each but the first directly after the start of a thread for every interruptible machine; and all before the teardown is decided. |
| `LifecycleOrder.CompletedRunDoesAll` | perfkitbenchmarker/pkb.py:1021-1157 | A completed run has done every stage asked for, and then, step by step: decided and torn down or kept the resources, added the samples, deleted, published and finished. |
| `LifecycleOrder.HandlerSteps` | perfkitbenchmarker/pkb.py:1129-1143 | Directly after a failed body the failed run is published and the cleanup done, if the flags say so, and without TEARDOWN among the stages the resources are deleted, if the flag says that, as long as no step of the handler fails. |
| `Lifecycle.CompletesIff` | perfkitbenchmarker/pkb.py:998-1158 | A run completes exactly when it is not skipped and no step fails that is not tolerated: no skip check, no step of body or finally clause, no deletion in the first call of Delete; it then takes exactly the planned steps. |
| `Lifecycle.DeleteIsCalled` | perfkitbenchmarker/pkb.py:1060-1152 | Once the try statement is entered, a teardown that is asked for and not decided against calls Delete after the body, whatever failed in body or handler. |
| `Lifecycle.CompletedIsDeleted` | perfkitbenchmarker/pkb.py:1045-1066 | A completed run that was to tear down has completed a call of Delete. |
| `Lifecycle.ThreadSurvivesIff` | perfkitbenchmarker/pkb.py:660-673 | A watcher thread is left exactly when the run is entered and the first step to fail before the teardown is the start of a thread directly after that of another. |
| `Lifecycle.WatcherThreadIsLeft` | perfkitbenchmarker/pkb.py:660-673 | Two interruptible machines, PREPARE only, the fourth step failing: one thread is left. |
| `Lifecycle.FollowStopsAtFirst` | perfkitbenchmarker/pkb.py:1021-1157 | Of a plan the steps up to the first that fails are taken, that one included, and all if none does; a call of Delete fails only if it is the first to be made. |
| `Lifecycle.TryStatement` | perfkitbenchmarker/pkb.py:1021-1157 | Body, handler and finally clause: each follows its plan up to the first step that fails, the handler only after a failure. |
| `Lifecycle.Body` | perfkitbenchmarker/pkb.py:1022-1081 | The stages follow their plan up to the first step that fails; the decision to keep the resources counts once it was made. |
| `Lifecycle.Handler` | perfkitbenchmarker/pkb.py:1129-1143 | The handler publishes, cleans up and tears down as the flags say, up to the first of these that fails. |
| `Lifecycle.Finally` | perfkitbenchmarker/pkb.py:1146-1157 | The watcher is joined first, then Delete is called, then the rest, up to the first step that fails. |
| `Lifecycle.InterruptChecker.Start` | perfkitbenchmarker/pkb.py:660-673 | One thread for each interruptible machine, up to the first start that fails; that loses the watcher and leaves exactly the threads started before. |
| `Lifecycle.InterruptChecker.EndCheckInterruptThreadAndRaiseError` | perfkitbenchmarker/pkb.py:691-709 | All its threads have ended, whether or not an interruption is reported, which is the case exactly when the check fails. |
| `Lifecycle.BenchmarkSpec.Delete` | perfkitbenchmarker/benchmark_spec.py:908-1002 | Resources are deleted in order up to the first whose deletion fails and is not tolerated; the call fails exactly when there is one; the deleted flag is set exactly when the call completes, and later calls do nothing. |
| `RunPhase.DoRunPhase` | perfkitbenchmarker/pkb.py:736-829 | The phase makes at least one attempt and stops at the first after which it gives up or is finished; it raises exactly when it gives up; the samples are those of the successful attempts, tagged with the attempt number; without a run time a phase that does not raise makes max(1, iterations) attempts; a phase without a successful attempt raises exactly when it made more attempts than retries. |
| `RunPhase.YieldAt` | perfkitbenchmarker/pkb.py:777-806 | The samples of attempt k come directly after those of the attempts before it, in their order, with its number if a time or a number of iterations is set; failed attempts add none. |
| `RunPhase.QuietPhasesSucceedIff` | perfkitbenchmarker/pkb.py:745-829 | For all attempts and clocks: phases that end without raising have had a successful attempt exactly when there are fewer retries than one, with a run time, or than max(1, iterations), without. |
| `RunPhase.RaisesIfNothingSucceeded` | perfkitbenchmarker/pkb.py:765-776 | If all attempts so far failed, the last makes the phase give up exactly when there are more attempts than retries. |
| `RunPhase.IterationsCountFailures` | perfkitbenchmarker/pkb.py:752-756 | Without a run time the phase is finished after max(1, iterations) attempts, whether they fail or not. |
| `RunPhase.SingleFailureIsNotRetried` | perfkitbenchmarker/pkb.py:765-776 | With one iteration and a retry allowed, a failure ends the phase without an exception and without samples. |
| `RunPhase.FailuresInARowAreFailures` | perfkitbenchmarker/pkb.py:768-776 | The consecutive failures counted are the last attempts, and the attempt before them succeeded. |
| `TeardownConditions.ParseSkipTeardownConditions` | perfkitbenchmarker/pkb.py:179-244 | Fails exactly on a malformed entry; else each metric mentioned has the least > and the greatest < threshold given for it. |
| `TeardownConditions.MergedIsUnique` | perfkitbenchmarker/pkb.py:208-240 | The merged bounds depend only on the set of conditions. |
| `TeardownConditions.MatchesIff` | perfkitbenchmarker/pkb.py:274-320 | A sample matches when a > and a < condition hold, if some > threshold lies below some < threshold, and when either holds otherwise. |
| `TeardownConditions.ShouldTeardown` | perfkitbenchmarker/pkb.py:323-361 | Teardown happens exactly without conditions, above the zonal limit, or when no sample meets the conditions. |
| `TeardownConditions.DecisionIff` | perfkitbenchmarker/pkb.py:208-361 | Parsing, matching and deciding together: the decision in terms of the conditions as they were given. |
| `TeardownConditions.DecisionIgnoresOrder` | perfkitbenchmarker/pkb.py:208-361 | Entries in another order or repeated lead to the same decision. |
| `ResultSummary.FindConstantMetadataKeys` | perfkitbenchmarker/publisher.py:456-482 | The capped sets find exactly the keys that uncapped sets would: present in all samples, with one hashable value seen, and that not None. |
| `ResultSummary.ConstantIff` | perfkitbenchmarker/publisher.py:456-482 | For hashable metadata these are the keys that every sample has with the same value, not None. |
| `ResultSummary.PublishSamples` | perfkitbenchmarker/publisher.py:490-555 | One section for each test in increasing order, one line for each of its samples in their order, each key in one of three places. |
| `ResultSummary.KeysPrintedOnce` | perfkitbenchmarker/publisher.py:508-519 | For hashable metadata: printed for all tests are the keys that all samples share with one value, not None, and printed for a test the others that its samples share, the end-to-end one aside. |
| `ResultSummary.KeysOfLines` | perfkitbenchmarker/publisher.py:522-552 | A key of a sample is in its line exactly when it is printed neither for its test nor for all. |
| `Sorting.StringLeIff` | perfkitbenchmarker/publisher.py:506-507 | The order of the tests: at the first difference the smaller character decides, and a string comes before its extensions. |
| `ResultSummary.GivenBackIff` | perfkitbenchmarker/publisher.py:506-555 | For any metadata, exactly when global, benchmark-level and line metadata merge back to a sample. |
| `ResultSummary.NothingIsLost` | perfkitbenchmarker/publisher.py:506-555 | For hashable metadata a sample is given back exactly when it agrees with the first sample of its test on the local keys; so always, when neither is the end-to-end one. |
| `ResultSummary.EndToEndFirst` | perfkitbenchmarker/publisher.py:514-530 | When the test begins with an end-to-end sample without metadata, the other samples are given back exactly when there are no local keys. |
| `ResultSummary.EndToEndFirstLoses` | perfkitbenchmarker/publisher.py:522-545 | A test with the end-to-end sample first and one other: the other one's metadata is not given back. |
| `ResultSummary.ConstantAgreesIff` | perfkitbenchmarker/publisher.py:466-482 | All samples agree on a constant key exactly when none of its values is unhashable. |
| `ResultSummary.UnhashableHidesAnother` | perfkitbenchmarker/publisher.py:468-471 | A key with an unhashable and a hashable value counts as constant. |
| `CpuDisabling.DisableCpus` | perfkitbenchmarker/linux_virtual_machine.py:744-796 | Out-of-range numbers are rejected; else the CPUs are CpuAt(0), CpuAt(1), ... and every node has lost its share from the end of its list; all are disabled if no node runs out, else the loop fails at the first missing one. |
| `CpuDisabling.AvailableIff` | perfkitbenchmarker/linux_virtual_machine.py:785-791 | The first n CPUs exist exactly when no node has fewer CPUs than its share of n. |
| `CpuDisabling.UnevenNodesRunOut` | perfkitbenchmarker/linux_virtual_machine.py:785-791 | With nodes of three CPUs and one, the third CPU to disable is missing. |
| `CpuDisabling.SharesAreBalanced` | perfkitbenchmarker/linux_virtual_machine.py:785-791 | After any number of CPUs the shares of the nodes differ by at most one, higher-numbered nodes ahead. |
| `CpuDisabling.DisabledAreLast` | perfkitbenchmarker/linux_virtual_machine.py:777-791 | Of each node exactly the last CPUs of its sorted list are among the first n, as many as its share. |
| `CpuDisabling.ShareStep` | perfkitbenchmarker/linux_virtual_machine.py:785-791 | CPU number k adds one to the share of the node whose turn it is and to no other. |
| `CpuDisabling.OrderDescends` | perfkitbenchmarker/linux_virtual_machine.py:784-786 | The nodes are visited from the highest number down, each once, and every CPU's node is among them. |
| `CpuDisabling.NodeListContents` | perfkitbenchmarker/linux_virtual_machine.py:771-780 | A node's list holds exactly its CPUs, once, by core id and number. |
| `CpuDisabling.NoCpuTwice` | perfkitbenchmarker/linux_virtual_machine.py:785-791 | No CPU is disabled twice, and each belongs to the node whose turn it is. |
| `CpuDisabling.EqualNodesSuffice` | perfkitbenchmarker/linux_virtual_machine.py:785-793 | With nodes of equal size and n below the number of CPUs no node runs out, and the lowest node keeps its first CPU. |

## Left out

- KeyboardInterrupt, its delivery to worker threads, signal handlers and process pools: behaviour of the interpreter; tasks end by returning or by raising an Exception.
- Time in the task pool: the delay after a task, and the polling of the response queue and of thread ends, whose Get and join are steps that are enabled when the item is there or the thread has stopped.
- `SingleReaderQueue` with a timeout: its deque is the response list of the pool, and its wait is `WaitForCondition`.
- SignalledQueue.NonPollingSingleReaderQueue.Get: demands that the writers' steps between its own never leave it blocked, as it would then not return; when that is so is the subject of `WaitEnds`. The writers' steps are a parameter.
- WaitForCondition.WaitForCondition: the clock is exact and the callback takes no time; without a timeout the condition is required to hold at some check, or the wait never ends.
- Integer lists: Unicode digits, the limit on the length of numerals, arguments that are lists or integers already, the warning mode, and types other than int in the groups.
- Flag zip and matrix: the evaluation of filter expressions, which are any predicate on flags; looking up configurations, and the errors for names that are not found; the keys of a configuration other than flags.
- `OverrideFlags`, unit, YAML and key-value parsers: separate and simple.
- Requirements.CheckRequirements: demands that the loop ends, in the exact form of `TerminatesIff`. Files are told apart by their path as written, so that a file that includes itself as `../d/x` gets a new name each time. Version matching is any predicate on lines.
- ZoneRetry.ZoneRetryManager.constructor: no zone is named "any", and with the zone "any" some zone is supported; the number of retries set in that case, and the check of the flags, are not modelled.
- ZoneRetry.FirstQuotaSweep: about supported regions that each have a zone, the original region among them.
- Run life cycle: the classification of failures, the loop over retries around a run, timers, log labels, and the samples about stages. Steps such as a stage's work are opaque and may fail. Threads that a deletion runs in parallel are one step.
- RunPhase.DoRunPhase: the additional samples and the periodic publishing after an attempt do not fail; some attempt is required to be the last, by failures, iterations or the deadline, or the phase never ends.
- TeardownConditions.ParseSkipTeardownConditions: the text of a condition is not modelled; an entry that does not have the form metric, sign, number is None. Thresholds are real numbers.
- ResultSummary.PublishSamples: the layout of the text, upper-casing of names and rounding of values; values that are hashable only in part, such as a tuple of lists; the equality of 1, 1.0 and True.
- Labels, the sample collector and the other publishers: moves and joins of lists.
- CpuDisabling.DisableCpus: demands at least one CPU, as the loop over the nodes never ends without; entries without a physical id, and running the command on the machine, are not modelled.
- Cloud, disk, database, container and network resources: wrappers of external tools.
