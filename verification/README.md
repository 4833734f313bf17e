# Models of the ns-3 build and analysis helpers

A Dafny model of the algorithms inside the ns-3 helper scripts, with proofs of what they promise. Every
method is proved against a specification stated apart from it, and the lemmas say what those specifications
guarantee and how they relate to each other. `dafny verify dfyconfig.toml` checks everything.

| files | what they model |
|---|---|
| `Options`, `Sequences`, `Digraph`, `Dictionary` | missing values; regrouped concatenations; walks, cycles and topological orders; walking a dictionary in arbitrary order |
| `DependencySort`, `CycleSearch`, `DependencyTheorems` | `topsort`, `topsort_levels`, `topsort_levels_core`, `find_cycles`, `is_rotated` |
| `WorkerPool`, `WorkerPoolTheorems`, `WorkerPoolOutcomes`, `WorkerPoolHistory` | the worker threads of `test.py` and the main thread that feeds and collects, as a transition system with an interrupt at any moment; what is reported, and what is run |
| `ShellSyntax`, `ShellGrammar`, `ShellAssignments`, `ShellRoundTrip`, `ShellEval`, `ShellLaunches`, `Shell`, `ShellTheorems`, `ShellPosix`, `ShellPosixTheorem` | the shell pipeline language of `waf-tools/shellcmd.py`: token machine, the grammar it accepts, canonical printer, meaning, and the `Pipeline` object that parses and runs |
| `ConfigPaths`, `ConfigEdges`, `StaticInformation` | `StaticInformation::DoGather` with its two stacks (`utils/print-introspected-doxygen.cc`) |
| `PatchText`, `PatchLines`, `PatchRoundTrip`, `PatchMeaning`, `PatchFile`, `Patches` | the patch writer and reader of `utils/check-style.py`, on values and on objects |
| `TimelineWindows` | the binary-search window queries of `utils/grid.py` |
| `Permutations`, `BinaryStrings`, `GrayCode` | `permutations`, `binary_range`, `int2bin`, `bin2int`, `gray_encode` |

How the source's forms appear here:

- Python lists and dictionaries that are updated in place are `seq` and `map` variables reassigned by the
  methods; objects with fields are classes. A loop of the source that is long to prove is split into one
  method per nesting level. `ghost` parameters carry what a proof needs to remember and nothing else.
- Dictionary iteration order is arbitrary: `Dictionary.KeysInSomeOrder` promises only that each key comes once,
  so everything proved holds for every order.
- A generator is a method that returns the whole list it would yield.
- An exception is a constructor of the result (`CycleError`, `IndexError`, `ValueError`, `AssertionError`,
  `Raised`) or `None`.
- What a command exits with (`test.py`, `shellcmd.py`) is an arbitrary parameter; opening files and starting
  processes succeed and are recorded in order.

Results that differ from what the source's own words suggest:

- The comments at `bindings/python/topsort.py:109` and `:227` say that every element left over has a child.
  `LeftoverWithoutChild` gives an input where one has none, and `LeftoversHaveChildrenIff` proves exactly when
  the comment holds: when everything on or behind a cycle is a parent in some pair. What always holds is that
  each has a *parent* that is left over too (`LeftoverWaitsForLeftover`).
- `run` in `waf-tools/shellcmd.py` differs from the rule of the POSIX Shell Command Language for a node list in
  six ways, and `PosixAgreesIff` proves that, within what its line under "Left out" says is compared, there is
  no seventh: status and processes, with all they are
  started with, are the same for every behaviour of the processes if and only if none of the six occurs. Each
  can be read off the nodes:
  - it returns at the first short-circuit (section 2.9.3: equal precedence, left to right), which shows when a
    `||` occurs together with a `&&` behind a command. A `cd` counts as a command that can be skipped, so
    `cd d && a || b` agrees (`CdInFrontAgrees`) and `a || cd d && b` does not (`CdInMixedListDiffers`);
  - it lets a command piped into a `cd` feed the command behind the `cd` (section 2.12);
  - it raises at a `cd` without a directory or at the end;
  - it opens the files of a redirection in its own directory and not where `cd` has led, which shows for every
    name behind a `cd` that does not begin with `/` (`FileBehindCdDiffers`: `cd d && a > f`);
  - it drops the input redirection of a command behind `|`, where sections 2.7 and 2.9.2 let it decide
    (`InputBehindPipeDiffers`: `a | b < f`);
  - it takes the output file `NUL:` for the null device (`NulDiffers`).
- A redirection sign at the very end, with no file behind it, is accepted and has no effect; it is the
  `dangling` part of the grammar in `ShellGrammar`.
- A `cd` without a directory, or at the end of a pipeline, is accepted by `parse` and makes `run` raise;
  `NeverRaisesIffCdsComplete` proves that nothing else does.
- When an assertion of `parse` fails, what was committed stays in the object, and `run` on it can start
  processes and return no status. The last group is then neither waited for nor are its files closed, and the
  same holds when `run` raises (`Shell.Pipeline.Run`).
- With no worker threads and at least one job the pool of `test.py` never returns (`NoWorkersNeverReturns`).
- A written patchset is read back unchanged if and only if no removed line begins with `-- ` and no added line
  with `++ ` (`ParseOfWrite`).
- `get_ranges` and `get_ranges_bounds` select the overlapping ranges if and only if both ends of the window lie
  on ranges; or its start lies on a range and its end after all of them; or its end lies on a range and its
  start before all of them; or neither lies on a range and no range lies between them. With the start later
  than the end: if and only if both lie on ranges or neither does (`WindowExactIff`).
- In particular a window that begins before all ranges and ends after all of them overlaps every one and
  selects none (`OverWideSelectsNothing`).
- At a point that two ranges share, a range that only touches the window there may be missed, and nothing
  else (`CoveredMissesOnlyTouching`).
- `get_events` and `get_events_bounds` may select one event later than the window; `GetEvents` and
  `GetEventsBounds` say exactly when. Of several events at the same time, some at the ends of the window may be
  missed.
- `int2bin` keeps its promise, an error or exactly n digits, if and only if n is positive
  (`PromiseIffPositiveWidth`): with n = 0 it never refuses a number and never gives an empty string. And
  `binary_range(0)` is empty.

## Model

| member | source | states |
|---|---|---|
| DependencySort.Tabulate | bindings/python/topsort.py:77-90 | every element of a pair has an entry counting, with multiplicity, the pairs in which it is the child; exactly the parents have a list of children, in pair order |
| DependencySort.ChildIsWaiting | bindings/python/topsort.py:100-102 | a child being knocked down has not been deleted: it still has an entry, and its count exceeds what this parent has already taken off, so no deleted key is ever decremented |
| DependencySort.ReleaseChildren | bindings/python/topsort.py:100-103 | after one parent's children are knocked down the counts are those over the remaining parents, and the answer is a parents-first listing of exactly the elements that no longer wait |
| DependencySort.TakeOutAll | bindings/python/topsort.py:95-106 | the loop over the growing answer ends, with everything in the answer taken out of both tables |
| DependencySort.LeftoverIsFromCycle | bindings/python/topsort.py:108-111 | when the answer is exhausted, the elements outside it are exactly those on a cycle or reachable from one; there are none exactly when the graph is acyclic |
| DependencySort.TopSort | bindings/python/topsort.py:61-112 | returns a listing of every element once, each parent before its child, if and only if the pairs are acyclic; otherwise the error holds exactly the elements on or behind cycles, counts that count only left-over parents, their children, and a correct order of all the other elements |
| DependencySort.RoundTakesDepth | bindings/python/topsort.py:203-217 | the elements without a parent after k rounds are exactly those whose longest chain of ancestors has k edges |
| DependencySort.TakeOutLevel | bindings/python/topsort.py:217-224 | taking a whole level out leaves the counts and children over the remaining parents |
| DependencySort.TopSortLevelsCore | bindings/python/topsort.py:174-232 | for the counts and children of a list of pairs, with any further items of count 0 and any further empty entries: level k holds exactly the items of depth k, cyclic input included, isolated items in level 0; stops without error if and only if acyclic, every item then listed once, parents first; the error holds what cycles hold back |
| DependencyTheorems.TablesComeFromPairs | bindings/python/topsort.py:198-201 | the two arguments are such tables whenever everything with children or listed as a child has a count and each count is the number of places where the item is listed |
| DependencySort.TopSortLevels | bindings/python/topsort.py:114-172 | the same from a list of pairs; on acyclic input the levels run together are a topological order of all elements |
| CycleSearch.IsRotated | bindings/python/rad_util.py:735-775 | an index error if and only if both sequences are empty, and otherwise true exactly when some rotation of the first is the second, repeated items included |
| CycleSearch.RecordCycle | bindings/python/topsort.py:369-378 | a cycle is appended unless a rotation of it is recorded; recorded cycles stay simple and no two are rotations of each other |
| CycleSearch.VisitChildren | bindings/python/topsort.py:362-385 | after a path's children: each child on the path has its cycle recorded, each other child has its one-step continuation pushed, in child order, and is marked visited |
| CycleSearch.PopLowersWeight | bindings/python/topsort.py:352-383 | the measure behind termination: replacing the path on top of the stack by its continuations lowers the number of paths still to be popped by exactly one |
| CycleSearch.ExploreRoot | bindings/python/topsort.py:351-385 | the stack loop ends, with every simple path from the root explored |
| CycleSearch.SimplePathsExplored | bindings/python/topsort.py:351-385 | when the stack is empty every simple path from an explored root has been popped |
| CycleSearch.EveryCycleCovered | bindings/python/topsort.py:346-349 | skipping roots already visited loses no cycle: each simple cycle is recorded up to rotation |
| CycleSearch.FindCycles | bindings/python/topsort.py:343-385 | lists only simple cycles, no two of them rotations of each other, and every simple cycle of the graph up to rotation, for any dictionary (missing keys, repeated children, self-loops) |
| DependencyTheorems.LevelsPermuteSort | bindings/python/topsort.py:92-112 | on acyclic input the concatenated levels are a permutation of the sorted list |
| DependencyTheorems.SameLeftover | bindings/python/topsort.py:226-229 | on cyclic input both sorts report the same counts and, from a list of pairs, the same children, and have listed the same elements |
| DependencyTheorems.LeftoverWaitsForLeftover | bindings/python/topsort.py:108-111 | every left-over element has a positive count and a parent that is left over and lists it as a child |
| DependencyTheorems.LeftoverWithoutChild | bindings/python/topsort.py:109-110 | for (1,2), (2,1), (2,3) the element 3 is left over and has no child |
| DependencyTheorems.LeftoversHaveChildrenIff | bindings/python/topsort.py:109-110 | every left-over element has a child if and only if everything on or behind a cycle is a parent in some pair |
| DependencyTheorems.ErrorKeepsEveryCycle | bindings/python/topsort.py:104-111 | the children carried by the error have exactly the simple cycles of the whole input |
| DependencyTheorems.SortFailsIffCyclesFound | bindings/python/topsort.py:343-385 | `find_cycles` on the children of the pairs finds a cycle exactly when `topsort` raises |
| DependencyTheorems.SortOrExplain | bindings/python/topsort.py:104-111 | using `find_cycles` on the error's children, as its module says it is for: something is found exactly when sorting fails, and every cycle of the input is found up to rotation |
| WorkerPool.StepKeepsInv | test.py:929-997 | every step of any thread, or an interrupt, keeps every dispatched job and sentinel in exactly one place, sentinels behind all jobs, and no sentinel on the output side |
| WorkerPool.EveryRunKeepsInv | test.py:929-997 | the same at every moment of every run, whatever the interleaving and whenever the interrupt comes |
| WorkerPoolTheorems.NoDeadlock | test.py:1648-1649 | until `run_tests` returns some thread can move, provided there is a worker or no job |
| WorkerPoolTheorems.NoWorkersNeverReturns | test.py:1648-1649 | the provision is exact: with jobs and no worker no run ever returns |
| WorkerPoolTheorems.RunIsBounded | test.py:1626-1649 | no run of N jobs on P workers has more than 7N + 6P + 6 steps |
| WorkerPoolTheorems.EveryRunCanFinish | test.py:1786-1787 | every run can be carried on to one in which the collect loop and all joins are done |
| WorkerPoolTheorems.EachJobDeliveredOnce | test.py:1648-1651 | on return each job has been collected exactly once and nothing else has; each worker has exited on a sentinel, each sentinel used once; both queues are empty |
| WorkerPoolTheorems.TalliesAndStatus | test.py:1641-1677 | passed, failed, valgrind, crashed, skipped and interrupted add up to the number of tests; the status is 0 exactly when every collected job was skipped or exited 0, uninterrupted |
| WorkerPoolOutcomes.InterruptSparesBegun | test.py:943-946 | over any run with an interrupt at any moment: what comes back marked as broken is exactly what no worker had begun to run, or to report as skipped, at that moment |
| WorkerPoolOutcomes.SkippedNeverRuns | test.py:952-956 | in no run is the command of a job to be skipped ever running; `WorkerPoolHistory` says which commands are |
| WorkerPoolHistory.ReportedIffStarted | test.py:929-997 | over every run that returns: a job collected unmarked and not to be skipped has had its command started exactly once, at some moment a worker was running it, and a marked or skipped one has never been started |
| WorkerPoolHistory.StartsAtMostOnce | test.py:962-985 | in no run is a command started twice, and never that of a job to be skipped |
| WorkerPoolHistory.UninterruptedStartsAll | test.py:962-985 | a run that returns uninterrupted has started every job that is not to be skipped, once |
| WorkerPoolHistory.InterruptStopsStarts | test.py:943-946 | after an interrupt no further command is started |
| WorkerPoolHistory.InputIsFifo | test.py:1336-1337 | at every moment the input queue holds what is left of the jobs in order and then the sentinels, so they are taken up in that order |
| WorkerPoolHistory.OutputIsFifo | test.py:1336-1337 | what is collected or waiting to be is collected first, in that order, in every continuation |
| WorkerPoolOutcomes.InterruptedReport | test.py:1641-1677 | with an interrupt, the five tallies and the names under each heading are those of the jobs begun before it, sorted by their exit codes |
| WorkerPoolOutcomes.UninterruptedReport | test.py:1641-1677 | without one, they are those of all the jobs: passed with code 0, failed with 1, valgrind errors with 2, crashed with any other, skipped; each of those commands was started once (`UninterruptedStartsAll`) |
| WorkerPoolOutcomes.OrderDoesNotMatter | test.py:1641-1677 | without an interrupt the tallies, the names under each heading and the status are the same for every interleaving and every number of workers |
| WorkerPoolOutcomes.UninterruptedStatus | test.py:1865-1868 | without an interrupt the status is 0 exactly when every job is skipped or exits 0 |
| ShellGrammar.ParseIffSentence | waf-tools/shellcmd.py:121-201 | the token machine gives a node list if and only if the tokens are a sentence of the grammar (assignments, name, arguments and redirections with no stream redirected twice, operators between; a sign without a file only at the very end) and the nodes are its meaning |
| ShellGrammar.RaisesIffNoSentence | waf-tools/shellcmd.py:121-201 | some assertion of the parser fails if and only if the tokens are no sentence |
| ShellAssignments.EnvMatchMeans | waf-tools/shellcmd.py:24-24 | for every token, name and value: the pattern gives that name and value if and only if the token is the name (letters, digits, underscores), `=`, the value (no white space, not empty), and at most a newline |
| ShellAssignments.SetVarIsAssignment | waf-tools/shellcmd.py:141-141 | assignment as in a dictionary: the name has the new value, every other name keeps its own, and the names keep their order with a new one last |
| ShellAssignments.LastAssignmentWins | waf-tools/shellcmd.py:139-152 | after any list of assignments each name stands once, and a name has a value if and only if its last assignment among the tokens gives it that value |
| ShellRoundTrip.ParsedIsWellFormed | waf-tools/shellcmd.py:121-201 | whatever the token machine accepts is a well-formed pipeline |
| ShellRoundTrip.WellFormedAlternates | waf-tools/shellcmd.py:138-199 | a well-formed pipeline has odd length, nodes at even and operators at odd places; a command writes to a pipe exactly when the next element is one; a `cd` that is not last is followed by `&&` |
| ShellRoundTrip.EnvMatchPrinted | waf-tools/shellcmd.py:24-24 | the assignment pattern splits a printed `name=value` back into its two parts |
| ShellRoundTrip.ParseOfPrint | waf-tools/shellcmd.py:121-201 | parsing the canonical printing of any well-formed pipeline gives that pipeline |
| ShellRoundTrip.ParsePrintParse | waf-tools/shellcmd.py:121-201 | parse after print after parse is parse, for every accepted token list |
| ShellRoundTrip.ParseImageIsWellFormed | waf-tools/shellcmd.py:121-201 | a node list is the result of some parse if and only if it is well formed |
| Shell.Pipeline.constructor | waf-tools/shellcmd.py:97-99 | a new pipeline is empty, with no command in hand |
| Shell.Pipeline.CommitCommand | waf-tools/shellcmd.py:101-104 | appends the command in hand, and fails exactly when there is none |
| Shell.Pipeline.FeedBegin | waf-tools/shellcmd.py:138-153 | a token at the beginning of a command does to the fields what the machine's step says, failing where an assertion would; an assignment sets its name as in a dictionary (`SetVarIsAssignment`) |
| Shell.Pipeline.FeedCommand | waf-tools/shellcmd.py:154-179 | the same for a token inside a command |
| Shell.Pipeline.ParseCommand | waf-tools/shellcmd.py:121-201 | the object's parse is the machine's and raises exactly where an assertion fails; it leaves a well-formed pipeline in the object, or, when it raises, exactly what was committed before the failing token |
| Shell.Pipeline.ExecPipedCommands | waf-tools/shellcmd.py:203-212 | the status of a piped group is that of its last process, whichever process failed |
| Shell.Pipeline.Prepare | waf-tools/shellcmd.py:242-289 | a command's process gets the stream, environment and directory the plan says, and exactly its redirections are opened, except input when it reads a pipe and output to the null device |
| Shell.Pipeline.FinishGroup | waf-tools/shellcmd.py:296-304 | ends a group with everything started so far waited for and everything opened so far closed, once each and in order |
| Shell.Pipeline.Run | waf-tools/shellcmd.py:214-346 | for everything a parse, accepted or not, can leave in the object and every behaviour of the processes, the outcome and the processes started are those of the right-nested evaluator in which each `cd d &&` is erased into the directory of all later commands; the files opened are exactly the redirections of those processes; with a status, every process has been waited for and every file closed; when it raises or ends without one, all but the last group and its files |
| ShellLaunches.JoinPathMeans | waf-tools/shellcmd.py:228-228 | joining leads, component by component, to the directory named from the root, or else below the base; it is absolute exactly when one of the two is, and at most one slash is added between them |
| ShellLaunches.LaunchesFollowNodes | waf-tools/shellcmd.py:214-346 | on every behaviour of the processes the k-th process started is the k-th command of the node list, with its words, assignments, redirections and sinks; it reads the process before it exactly when a pipe leads into it, and runs in the directory whose components the `cd`s before it name, none when there is no `cd` |
| ShellLaunches.FilesOfLaunch | waf-tools/shellcmd.py:245-281 | one file opened for reading when input is redirected, one for writing for each redirected output, in that order |
| ShellTheorems.NeverRaisesIffCdsComplete | waf-tools/shellcmd.py:225-230 | running what a parse has left raises for no behaviour of the processes if and only if each `cd` names a directory and has something behind it |
| ShellTheorems.AlwaysExitsIffCdsComplete | waf-tools/shellcmd.py:225-230 | an accepted pipeline gives a status whatever its processes exit with if and only if each `cd` names a directory and is not last |
| ShellPosixTheorem.LaunchIsSame | waf-tools/shellcmd.py:242-289 | one process is started as POSIX would start it if and only if its command does not redirect its own input behind a pipe sign, names files from the root only once the directory has changed, and never names `NUL:` for output |
| ShellPosixTheorem.PosixAgreesIff | waf-tools/shellcmd.py:214-346 | for every accepted pipeline: same status and same processes as the POSIX rule, which skips pipelines left to right, reaches or skips each `cd`, and opens files where the shell is by then, on every behaviour of the processes, if and only if every `cd` is complete, none stands behind a pipe sign, either no `\|\|` occurs or no `&&` occurs behind a command, and every command is as in the row above where it stands |
| ShellPosixTheorem.CdInMixedListDiffers | waf-tools/shellcmd.py:306-346 | `a \|\| cd d && b` is started differently |
| ShellPosixTheorem.CdInFrontAgrees | waf-tools/shellcmd.py:224-230 | `cd d && a \|\| b` agrees |
| ShellPosixTheorem.FileBehindCdDiffers | waf-tools/shellcmd.py:252-261 | `cd d && a > f` opens another file |
| ShellPosixTheorem.InputBehindPipeDiffers | waf-tools/shellcmd.py:242-250 | `a \| b < f` loses its redirection |
| ShellPosixTheorem.NulDiffers | waf-tools/shellcmd.py:46-50 | `a > NUL:` makes no file |
| ConfigPaths.SimpleWalkMeetsTypesOnce | utils/print-introspected-doxygen.cc:1189-1192 | the walks counted are those that follow existing edges, meet no type twice, and none already on the stack |
| ConfigEdges.EdgeIff | utils/print-introspected-doxygen.cc:1194-1268 | a name leads from a type to another if and only if the type has a pointer of that name to it and it is no bare object; or the name is that of a container of it and `/[i]`; or it is a registered child, or the two are aggregated, and the name is `$` and its own |
| ConfigEdges.EdgesAreLinks | utils/print-introspected-doxygen.cc:1194-1268 | the edges are as many as there are attributes, registered types and aggregations that lead somewhere, in that order, and the one for each stands behind those for all that come before it |
| ConfigPaths.WalksFromAreSimple | utils/print-introspected-doxygen.cc:1186-1269 | the walks taken depth first are exactly the simple walks from a type |
| ConfigPaths.WalksFromDistinct | utils/print-introspected-doxygen.cc:1186-1269 | none of them is taken twice |
| ConfigPaths.GatheredIsEntries | utils/print-introspected-doxygen.cc:1193-1269 | what is recorded is, walk by walk, the type the walk ends at and the path its edge names spell |
| ConfigEdges.WalksAscend | utils/print-introspected-doxygen.cc:1193-1269 | a walk is recorded before those that go on from it, and before those that take a later edge where they part |
| ConfigEdges.EntrySpellsWalk | utils/print-introspected-doxygen.cc:1193-1269 | the entry of a walk is the last type it meets, under the names along it from its start to its end |
| ConfigEdges.RenderAppend | utils/print-introspected-doxygen.cc:1091-1102 | a path of two parts is spelled as the first and then the second, a single name as itself behind a slash |
| StaticInformationGatherer.StaticInformation.GetCurrentPath | utils/print-introspected-doxygen.cc:1091-1102 | the items of the current path, each after a slash |
| StaticInformationGatherer.StaticInformation.HasAlreadyBeenProcessed | utils/print-introspected-doxygen.cc:1113-1125 | membership in the stack of types being processed |
| StaticInformationGatherer.StaticInformation.Follow | utils/print-introspected-doxygen.cc:1214-1218 | one edge pushes and pops both stacks and appends exactly what lies beyond that edge |
| StaticInformationGatherer.StaticInformation.GatherAggregates | utils/print-introspected-doxygen.cc:1247-1268 | each aggregation is followed from either end to the other; a type aggregated with itself leads to itself |
| StaticInformationGatherer.StaticInformation.DoGather | utils/print-introspected-doxygen.cc:1185-1269 | terminates, because fewer types are left off the stack at each level; leaves both stacks as found; appends exactly what the depth-first listing says |
| StaticInformationGatherer.StaticInformation.Gather | utils/print-introspected-doxygen.cc:1176-1182 | from empty stacks, appends exactly one (type, path) entry for each walk that meets no type twice; the walks listed are all of those and no others, each once; with `EdgeIff` and `EntrySpellsWalk`, the walks and entries are read off the registry |
| PatchRoundTrip.HeaderReadBack | utils/check-style.py:286-293 | the written header is read back with both positions and with the numbers of old and new lines |
| PatchRoundTrip.HeaderWritten | utils/check-style.py:292-293 | the written header is both positions and both counts in decimal, without leading zeros, between the signs, and nothing else |
| PatchRoundTrip.AllWritten | utils/check-style.py:348-357 | two lines are written for each patch, one for each chunk and one for each of its lines |
| PatchRoundTrip.LineClassified | utils/check-style.py:204-217 | a written line is read as that line, unless it is a removed line beginning with `-- ` or an added line beginning with `++ `, which read as file headers |
| PatchRoundTrip.ParseOfWrite | utils/check-style.py:348-403 | for newline-free text, reading what is written gives the same patchset if and only if there is no such line |
| PatchFile.LinesOfText | utils/check-style.py:359-365 | writing newline-terminated lines to a file and iterating over the file gives the same lines |
| PatchFile.FileRoundTrip | utils/check-style.py:348-403 | the if-and-only-if above, through the text of a file |
| Patches.VersionsShareContext | utils/check-style.py:254-273 | the old and the new version of a chunk have exactly its context lines in common, and together account for every line |
| Patches.ChosenAt | utils/check-style.py:254-273 | each line of a version stands where the lines of that version before it end: nothing is reordered or dropped |
| Patches.PatchChunk.Src | utils/check-style.py:254-263 | all old lines in order, as many as the header counts |
| Patches.PatchChunk.Dst | utils/check-style.py:264-273 | all new lines in order, as many as the header counts |
| Patches.PatchChunk.Write | utils/check-style.py:286-295 | appends exactly the chunk's text |
| Patches.Patch.AddChunk | utils/check-style.py:313-319 | the patch then shows one chunk more, and no chunk object has two places |
| Patches.Patch.Write | utils/check-style.py:348-357 | appends exactly the text of the patch the objects show |
| Patches.FeedLine | utils/check-style.py:366-402 | one line changes the objects as it changes the patchset they show; body lines go to the current chunk even when a new patch has begun; raises exactly where the reader cannot go on |
| Patches.ParsePatchset | utils/check-style.py:359-403 | builds distinct patch objects that show exactly the patchset the lines are read as, or raises exactly when they cannot be read |
| PatchLines.ClassifyIff | utils/check-style.py:360-402 | what each line is read as, from its characters: a sign or file sign and any newline-free text, with at most a newline behind it; or two pairs of digit strings between the signs of a chunk header, with anything behind; a line is unreadable if and only if it is none of these |
| PatchLines.HeaderIff | utils/check-style.py:362-362 | a chunk header gives four numbers if and only if its four digit strings spell them |
| PatchLines.NumberOfAppend | utils/check-style.py:239-240 | reading a digit string is reading its front shifted by as many tens as its end has digits, and its end; a single digit is worth its distance from `0` |
| PatchMeaning.ParseIffReadable | utils/check-style.py:359-403 | a text is read if and only if each line is of some kind, no other header comes before the first patch and no line before the first chunk; then each file header begins a patch with the last new file named for it and the chunks begun for it, each with all the lines up to the next chunk |
| PatchMeaning.UnreadableLineFails | utils/check-style.py:402-402 | one line of no kind, anywhere, makes the reader raise |
| TimelineWindows.WindowExactIff | utils/grid.py:153-169 | on ranges in order, for any window neither end of which is shared by two ranges, the bounds select exactly the overlapping ranges if and only if the ends are in place: both on ranges; or one on a range and the other beyond all of them; or neither, with no range between; backwards, both on ranges or neither |
| TimelineWindows.CoveredMissesOnlyTouching | utils/grid.py:168-169 | with both ends on ranges, whatever is selected overlaps the window, and whatever is missed only touches one of its ends |
| TimelineWindows.OverWideSelectsNothing | utils/grid.py:163-164 | a window wider than all the ranges overlaps each of them and selects none |
| TimelineWindows.TimelineDataRange.Search | utils/grid.py:105-122 | an index returned covers the key; on ranges in order -1 means that no range does; ends on any list |
| TimelineWindows.TimelineDataRange.GetRanges | utils/grid.py:136-152 | the list selected is that of a linear scan for overlap under the same condition and no other |
| TimelineWindows.TimelineDataRange.GetRangesBounds | utils/grid.py:153-169 | the same as bounds of indices, always within the list; with both ends on ranges, shared points included, only ranges that touch the window at one of its ends can be missed |
| TimelineWindows.TimelineEvent.Search | utils/grid.py:201-218 | on increasing times separates the events earlier than the key from the rest; on times that do not decrease, those not later from those not earlier; ends on any list |
| TimelineWindows.TimelineEvent.GetEvents | utils/grid.py:226-235 | on increasing times the events of the window and no others, exactly when the window ends on an event, or after all of them, or backwards over one |
| TimelineWindows.TimelineEvent.GetEventsBounds | utils/grid.py:236-245 | on increasing times, for any start and end: every event of the window, none earlier, at most one later, and none later under that same condition; on times that do not decrease, nothing strictly inside the window is missed |
| Permutations.PermutationsAreRearrangements | bindings/python/rad_util.py:309-326 | the lists returned are exactly those with the same items, each as often |
| Permutations.PermutationsCount | bindings/python/rad_util.py:309-326 | n! lists |
| Permutations.PermutationsDistinct | bindings/python/rad_util.py:309-326 | when the items are distinct no list is returned twice |
| Permutations.AllPermutations | bindings/python/rad_util.py:293-326 | the recursive loops produce that listing |
| BinaryStrings.Increment | bindings/python/rad_util.py:649-659 | the ripple of carries adds one, and carries out of the top digit exactly from all ones, back to zero |
| BinaryStrings.BinaryRange | bindings/python/rad_util.py:632-660 | terminates with 2^n strings for n >= 1, none for n = 0; the k-th is the n bits of k and is what `int2bin(k, n)` gives |
| BinaryStrings.BitsReadBack | bindings/python/rad_util.py:104-126 | the n bits of a number below 2^n read back as that number |
| BinaryStrings.BitsAt | bindings/python/rad_util.py:74-105 | digit j of the n bits of k is bit n - 1 - j of k |
| BinaryStrings.Int2BinIsBits | bindings/python/rad_util.py:74-105 | for n >= 1, through hexadecimal digits, cutting and padding: an error if and only if the number is at least 2^n, and otherwise its n bits, from which `bin2int` gives the number back |
| BinaryStrings.WidthZeroNeverFails | bindings/python/rad_util.py:98-105 | for n = 0 there is no error and at least four digits |
| BinaryStrings.PromiseIffPositiveWidth | bindings/python/rad_util.py:74-105 | for every number: an error when it does not fit and exactly its n bits otherwise, if and only if n >= 1 |
| GrayCode.GrayInjective | bindings/python/rad_util.py:612-615 | no two numbers have the same code |
| GrayCode.GrayKeepsWidth | bindings/python/rad_util.py:612-615 | a number has n bits if and only if its code has |
| GrayCode.GrayPermutes | bindings/python/rad_util.py:612-615 | every number below 2^n is the code of exactly one number below 2^n |
| GrayCode.GrayNeighbours | bindings/python/rad_util.py:612-615 | the codes of i and i + 1 differ in exactly one bit |
| GrayCode.GrayAt | bindings/python/rad_util.py:612-615 | bit j of the code is set if and only if bits j and j + 1 of the number differ |

## Left out

- The byte stream of `examples/tcp/tcp-large-transfer.cc`, and `gcf`, `lcm` and `reduce_fraction` of `bindings/python/rad_util.py`, are not modelled.
- All floating-point and random code of `bindings/python/rad_util.py`; sorting and drawing in `utils/grid.py`; every other example program and all calls into the ns-3 library.
- DependencySort.TopSortLevelsCore: tables in which a count differs from the number of listings, or in which something with children or listed as a child has no count, are not covered (the source may then raise `KeyError` or go on with negative counts).
- DependencySort.TopSortLevels: a generator's consumer acting between two levels is not modelled.
- CycleSearch.FindCycles: a consumer that changes a yielded list before the next one is asked for is not modelled.
- WorkerPool.StepKeepsInv: each queue operation is one step; verbose printing, XML, text and HTML output, the building of the job list, and what happens inside `run_job_synchronously` are not modelled. The code a job exits with is fixed per job and arbitrary.
- Shell.Pipeline.Run: `verbose=True` (which reads `retval` before it is assigned), failing `open` or `Popen`, and the content of files are not modelled. The command in hand after a failing assertion is not described either; `run` does not look at it.
- ShellPosixTheorem.PosixAgreesIff: compares what is done with a node list, not how tokens become one. So `a 2>&1 > f`, which has the nodes of `a > f 2>&1` (POSIX section 2.7 tells them apart), names of variables that begin with a digit, quoting, expansions and reserved words are not compared. Commands are external programs that can be started, and their exit codes are taken as given (a shell reports a signal as a status above 128, `subprocess` as a negative number); files can be opened; a `cd` that is reached succeeds; `cd -`, other operands that begin with `-`, and CDPATH are not compared. Directories and files are compared as they are written, so `cd .` counts as a change. Of a pipeline that ends in a `cd` only the `cd` gives a status.
- Shell.Pipeline.ParseCommand: starts from a token list; `shlex.split` is not modelled, and `\S` is taken as not ASCII white space. `Command.name`, which repeats `argv[0]`, and `get_abbreviated_command` are not modelled. Nodes are values.
- ShellEval.JoinPath: `os.path.join` on POSIX systems only.
- StaticInformationGatherer.StaticInformation.Gather: `Uniquefy` takes its argument by value and changes nothing, so it has no counterpart; `Get`, `GetNoTypeIds` and `RecordAggregationInfo` are not modelled. Types are numbers and the registry is an arbitrary finite one.
- PatchRoundTrip.ParseOfWrite: text containing a newline is not covered, and positions are not negative.
- PatchFile.FileRoundTrip: lines end at a newline only; a carriage return in a text, which Python's universal newlines would also take for a line end, is not covered.
- Patches.ParsePatchset: the exceptions the reader can raise are not told apart. Lines are values, so a line object without a kind, `append_to_line` and `remove_trailing_whitespace_changes` are not modelled; `Patch.apply` is empty in the source.
- TimelineWindows.WindowExactIff: does not say which of two ranges is found at a point that both share, because that depends on their positions in the list (`CoveredMissesOnlyTouching` bounds what can be missed). Times are integers.
- BinaryStrings.Int2BinIsBits: negative numbers are not covered; nor are they in GrayCode.
