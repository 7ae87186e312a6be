# Verified models of ns-3's self-contained algorithms and protocols

Most of this repository wires simulation libraries together.  Seven of its
files hold algorithms or protocols of their own, and this project models those
in Dafny, branch by branch, and proves what they are for:

- **Dependency sorting** (`bindings/python/topsort.py`): Kahn's algorithm with
  its two dictionaries changed in place, the level generator, and the
  stack-based search for all simple cycles.  `Graphs` defines walks, cycles and
  ancestor chains once for all of them; `Topsort`, `Levels`, `FindCycles`,
  `Rotations` and `CycleDebugging` hold the algorithms.
- **The parallel test runner** (`test.py`): main thread, P workers, two queues,
  P sentinels and an interrupt flag, as a transition system (`Runner`).  Its
  invariants (`RunnerSafety`), termination and absence of deadlock
  (`RunnerProgress`), shutdown (`RunnerShutdown`) and the collect loop
  (`RunnerTally`) hold for every interleaving; `RunnerResults` ties the results
  and the exit status to what has happened in the run.
- **The mini-shell** (`waf-tools/shellcmd.py`): `ShellSyntax` and `ShellParser`
  give the six-state parser and its inverse, `ShellOrders` command lines with
  words and redirections in any order, `ShellScript` the meaning of a
  pipeline, `ShellPipeline` the class itself; `ShellMeaning` and
  `ShellResources` say which commands run, in which order and directory, with
  which files and pipes, and what is returned; `ShellPosix` says how far that is
  what a POSIX shell does.
- **Attribute paths** (`utils/print-introspected-doxygen.cc`): the recursive
  search with two explicit stacks (`StaticInfo`) over the graph of
  `Introspection`; `RegistryPaths` reads the result off the type database.
- **Unified diffs** (`utils/check-style.py`): `PatchText` is the text format,
  `PatchRoundTrip` its round trip, `PatchRewrite` the whitespace rewriter on
  values, `PatchObjects` and `PatchSets` the mutable, partly shared objects,
  `PatchFilter` their use in `indent`.
- **Smaller algorithms**: `Permutations` and `BinaryCodes`
  (`bindings/python/rad_util.py`), and `Stream`, the resumable writer of
  `examples/tcp/tcp-large-transfer.cc`.

`Basics` holds what several of them share.

Code that changes state step by step is a method or a class and is tied to a
specification function by its `ensures`; the theorems are about that function.

## What came out differently from the documentation

- The comment at `bindings/python/topsort.py:109` says that every leftover
  element has a child.  The leftover elements are those that have a leftover
  *parent*; they are exactly the elements reachable from a cycle
  (`Topsort.Finished`), and can be childless (`Topsort.ChildlessLeftover`).
- `run` combines `&&` and `||` right-associatively, and treats the parts joined
  by a `cd` and its `&&` as one pipe group. It starts the commands that sections
  2.9.2 and 2.9.3 of the POSIX.1-2017 Shell Command Language ask for, and returns
  the same status, for all exit codes of the commands if and only if the
  pipeline ends with a command, every `cd` names a directory, and only one of
  `&&` and `||` occurs once the `&&`s after the `cd`s before the first operator
  that follows a command are dropped (`ShellPosix.SameCommandsIff`). `a || cd d
  && b` is a pipeline on which they differ (`ShellPosix.CdInTheMiddle`).
  Directories and pipes are the same as well if and only if, in addition, every
  pipe sign is followed by a command without an input file
  (`ShellPosix.PosixIff`).
- A parsed pipeline that ends in `cd`, or has a `cd` without a directory, can
  make `run` raise an exception; no other can (`ShellMeaning.RunSafeIff`).
- A redirection sign at the very end is accepted and ignored, as in `ls >`,
  exactly when a command can go on there (`ShellParser.DanglingSign`).
- A run that raises leaves a process running or a file open if and only if the
  first failing `cd` stands after a pipe sign (`ShellResources.RaisedIsCleanIff`,
  `ShellResources.AlwaysCleanIff`), as in `a | cd` (`ShellResources.PipeIntoCd`).
- With no worker at all and at least one job the runner waits for ever
  (`RunnerProgress.DeadlockFreeIff`).
- The whitespace rewriter can change the source side of a chunk: the i-th
  source line is compared with the i-th destination line, which may be a
  context line.  `PatchRewrite.RewriteFrame` gives the exact condition,
  `PatchRewrite.ContextLineIsExtended` an example.
- A written patch list reads back exactly when no removed line starts with
  `-- ` and no added line with `++ `. The rewriter can create such a line
  (`PatchFilter.BlankMakesHeader`); `PatchFilter.FilteredReadsBack` says for
  which diffs, in terms of their original lines.
- `current_chunk` is not reset when a patch begins: a line goes to the newest
  patch exactly when a chunk header follows the `--- ` line that began it
  (`PatchRoundTrip.WhereLineLands`), and else to an earlier patch
  (`PatchRoundTrip.StrayLine`).
- The write loop of the sending application never ends if the socket keeps
  reporting space but accepts nothing (`Stream.EmptySendsNeverEnd`); that is the
  only way (`Stream.EndsIff`).
- `is_rotated` raises an IndexError on two empty lists, `binary_range(0)` is
  empty, and `int2bin` with width 0 never fails and keeps all digits
  (`BinaryCodes.WidthZero`).

## Model

| member | source | states |
|---|---|---|
| Topsort.PendingSplit | bindings/python/topsort.py:97-101 | finishing a parent lowers each element's pending count by the number of pairs it has with that parent |
| Topsort.PendingZero | bindings/python/topsort.py:92-93 | a pending count is zero exactly when every parent of the element is finished |
| Topsort.BuildTables | bindings/python/topsort.py:77-90 | for any pair list, duplicates and self-pairs included, each element gets its number of pairs as a child, each parent its full child list with repetitions |
| Topsort.ZeroKeys | bindings/python/topsort.py:92-93 | the work list starts with exactly the parentless elements, each once, in any dictionary order |
| Topsort.KnockDown | bindings/python/topsort.py:100-103 | after the decrements for one parent, counts equal pairs from unfinished parents again, and the work list has gained exactly the elements without a pending parent, each at the time of its last pair with that parent |
| Topsort.ChildIsOpen | bindings/python/topsort.py:100-101 | a child being decremented has never been processed, so the counter looked up still exists |
| Topsort.TakeNext | bindings/python/topsort.py:97-98 | the element taken from the growing work list is still a key, occurs once, and has no pending parent |
| Topsort.Process | bindings/python/topsort.py:97-106 | one turn of the outer loop keeps the whole loop invariant, order of the work list included, for the next position and only extends the answer |
| Topsort.Sort | bindings/python/topsort.py:77-112 | it returns if and only if the relation is acyclic; the answer lists each element not reachable from a cycle once, parents before children, parentless elements first and the others in the order in which they lose their last pending pair; a CycleError carries exactly the elements reachable from a cycle, with their remaining counts and children |
| Topsort.ChildPositions | bindings/python/topsort.py:90 | a child list has the children of all pairs with that parent, in the order of the pairs |
| Topsort.OrderOfTwo | bindings/python/topsort.py:92-103 | of two elements of an answer with parents, the one whose last finished parent comes earlier, or of the same parent the one whose last pair comes earlier, stands first; parentless elements stand before all others |
| Topsort.DeterminedByRoots | bindings/python/topsort.py:92-103 | two answers over the same elements that start with the same parentless elements are equal |
| Topsort.ChildrenInOrder | bindings/python/topsort.py:92-112 | the pairs (1,3), (1,2) have the one answer [1, 3, 2] |
| Topsort.LeftoverHasParents | bindings/python/topsort.py:108-111 | when no zero count is left, every leftover element has a leftover parent |
| Topsort.Finished | bindings/python/topsort.py:108-112 | num_parents is empty at the end exactly on acyclic relations, and otherwise its keys are the elements reachable from a cycle |
| Topsort.ChildlessLeftover | bindings/python/topsort.py:108-111 | for the pairs (1,1), (1,2) the element 2 is left over and has no child |
| Graphs.LeftoverIsCyclic | bindings/python/topsort.py:108-111 | any parents-first work list that leaves only elements with leftover parents leaves exactly the cyclic part |
| Graphs.AcyclicIff | bindings/python/topsort.py:108-112 | a relation is acyclic exactly when no element is reachable from a cycle |
| Levels.NextLevel | bindings/python/topsort.py:203-212 | after k levels, the elements with no pending parent are exactly those whose longest chain of ancestors has k edges |
| Levels.RemoveLevel | bindings/python/topsort.py:217-224 | deleting a level one element at a time fails exactly when some element has a child whose count is missing or already deleted; otherwise it removes exactly the level, and leaves the tables of the relation with the whole level finished |
| Levels.NoMoreLevels | bindings/python/topsort.py:207-208 | at the first empty level what is left is exactly the cyclic part, and no later level has an element |
| Levels.RemoveOne | bindings/python/topsort.py:219-224 | one deletion fails exactly when a child has no count; otherwise each count drops by the number of entries in the child list; it never fails on tables of a relation |
| Levels.Turn | bindings/python/topsort.py:203-224 | one turn yields the zero-count keys, each once; on tables of a relation these are the next level, and the next turn starts right |
| Levels.Core | bindings/python/topsort.py:203-232 | on any two tables the yielded levels are non-empty and share no key; a KeyError comes if and only if the yielded elements cannot be deleted in order, and then because of the last level; otherwise the end has exactly the other keys, with counts that are not zero. On tables of a relation the k-th list is the set with longest ancestor chain k, all levels appear, and the end is normal if and only if nothing is reachable from a cycle, otherwise an error with exactly the cyclic part |
| Levels.Levels | bindings/python/topsort.py:157-172 | the same for any pair list; CycleError if and only if the relation has a cycle |
| Levels.LevelsPartition | bindings/python/topsort.py:182-229 | each element is in exactly one level, or reachable from a cycle and in none |
| Rotations.Symmetric | bindings/python/rad_util.py:770-775 | rotation can be undone by rotation |
| Rotations.Transitive | bindings/python/rad_util.py:770-775 | a rotation of a rotation is a rotation, so one comparison per reported cycle is enough |
| Rotations.IsRotated | bindings/python/rad_util.py:761-775 | decides rotation exactly for all lists, repeated items included; IndexError exactly on two empty lists |
| FindCycles.ClosesCycle | bindings/python/topsort.py:367-369 | a child already on the path closes a cycle of distinct nodes |
| FindCycles.Report | bindings/python/topsort.py:370-378 | the yields stay simple cycles of which no two are rotations, and the new cycle is covered by one of them |
| FindCycles.AroundTheCycle | bindings/python/topsort.py:351-385 | a simple path that reaches a cycle extends to a simple path that closes a rotation of it |
| FindCycles.ExhaustedReports | bindings/python/topsort.py:346-349 | an exhausted start node has reported every simple cycle reachable from it |
| FindCycles.AllReported | bindings/python/topsort.py:346-349 | skipping start nodes in visited_nodes loses no cycle |
| FindCycles.Expand | bindings/python/topsort.py:362-385 | after the children of a path, every simple path is closed or extends a path on the stack, and the work bound has dropped |
| FindCycles.PopAndExpand | bindings/python/topsort.py:352-385 | one turn of the stack loop keeps the invariant, including for nodes that are no key, and strictly lowers the work bound |
| FindCycles.Search | bindings/python/topsort.py:351-385 | the search from one start terminates with the start exhausted; reported cycles and visited nodes only grow |
| FindCycles.FindCycles | bindings/python/topsort.py:343-385 | on every finite graph: terminates, yields only simple cycles, no two of them rotations, and every simple cycle, self-loops included, up to rotation |
| FindCycles.YieldedNodes | bindings/python/topsort.py:343-385 | the nodes in yielded lists are exactly those on some closed walk |
| FindCycles.SilentIffAcyclic | bindings/python/topsort.py:343-385 | nothing is yielded if and only if the graph is acyclic |
| CycleDebugging.TableEdges | bindings/python/topsort.py:99-106 | the children table of a CycleError is the relation restricted to unfinished parents |
| CycleDebugging.ErrorKeepsCycles | bindings/python/topsort.py:104-111 | the children table of a CycleError has exactly the simple cycles of the original pairs |
| CycleDebugging.SortOrExplain | bindings/python/topsort.py:20-25 | find_cycles on the error's table finds a cycle exactly when topsort failed, and finds every cycle of the pairs once |
| RunnerSafety.ConservedNext | test.py:978-1046 | every step keeps each dispatched job in exactly one of input queue, a worker's hands, output queue, collected |
| RunnerSafety.JobsOkNext | test.py:978-1046 | every step keeps: a returned job is marked is_break only under an interrupt and unrun, otherwise run exactly when not skipped |
| RunnerSafety.QueueOrderNext | test.py:1696-1699 | every step keeps tests before sentinels in the queue, and no test queued once a sentinel has been taken |
| RunnerSafety.InvNext | test.py:978-1046 | the conjunction of all invariants is kept by every step of main, workers and signal handler |
| RunnerSafety.InvReachable | test.py:1389-1426 | the invariants hold in every state of every interleaving, for every number of workers |
| RunnerProgress.MeasureDrops | test.py:978-1046 | every step, whichever thread takes it, lowers a measure |
| RunnerProgress.Terminates | test.py:1696-1719 | every run has at most 7 steps per job, 8 per worker and one for the signal |
| RunnerProgress.StuckIsFinished | test.py:1696-1719 | with a worker, or no job, a state with no step left is final: all collected, all joined |
| RunnerProgress.FinishedIsComplete | test.py:1718-1719 | in a final state both queues are empty, all workers have exited, and every job has been collected exactly once |
| RunnerProgress.RunToTheEnd | test.py:1863-1864 | every run can be continued until nothing but a signal can happen |
| RunnerProgress.DeadlockFreeIff | test.py:1399-1426 | no reachable state is stuck before the end if and only if there is a worker or no job |
| RunnerShutdown.SentinelsStopWorkers | test.py:980-986 | no sentinel reaches the output queue, no worker exits while a job is queued, an is_break mark seen by a worker is always a sentinel's, and sentinels equal those queued plus those that stopped a worker |
| RunnerShutdown.NeverRunNext | test.py:992-995 | after the interrupt an untested job stays unrun through every step |
| RunnerShutdown.InterruptStopsTests | test.py:587-590 | in every continuation after the interrupt, a job that no worker had tested against thread_exit is never run and comes back only marked is_break |
| RunnerTally.Collect | test.py:1711-1752 | each counter is the number of results with its status, and each name list names exactly these results in order of arrival |
| RunnerTally.EveryResultCounts | test.py:1718-1752 | the six statuses partition the results |
| RunnerTally.FinalAccounting | test.py:1948-1951 | in every final state the counters and interrupted jobs add up to the number of jobs, and the status is 0 if and only if every job came back uninterrupted and either skipped or really run with return code 0 |
| RunnerResults.ResultsNext | test.py:978-1046 | every step adds exactly the result of its own event: dropped or passed over at the exit test, run to the return code given at the end of a run |
| RunnerResults.ResultsAreEvents | test.py:1718-1752 | each collected result tells the one thing that has happened to its test in the run, return code included |
| RunnerResults.RunAccounting | test.py:1711-1752 | the counters of a finished run are the numbers of tests run to return code 0, 1 and 2 and of tests passed over; the crashed are all others but the dropped ones |
| RunnerResults.RunStatus | test.py:1948-1951 | the status is 0 if and only if every test has been passed over or run to return code 0 in the run |
| RunnerResults.QueuesAreFifo | test.py:1389-1390 | workers take the tests in their order and then the sentinels; main collects results in the order in which they were put back |
| ShellParser.EnvMatchPrinted | waf-tools/shellcmd.py:139-141 | an assignment with a word name and a non-empty value without blanks is recognised and split at its first equals sign |
| ShellParser.EnvMatchParts | waf-tools/shellcmd.py:24 | whatever the pattern matches is such a name and such a value |
| ShellParser.WordChars | waf-tools/shellcmd.py:24 | names are made of letters, digits and underscores |
| ShellParser.BlankInside | waf-tools/shellcmd.py:24 | a value with a blank inside is no assignment |
| ShellParser.ParsePrint | waf-tools/shellcmd.py:121-201 | parsing undoes printing for every well-formed pipeline |
| ShellParser.TokenPartial | waf-tools/shellcmd.py:136-199 | every token in every state keeps the finished part well formed and the current operand able to follow it |
| ShellParser.ParsedWellFormed | waf-tools/shellcmd.py:121-201 | every accepted token list becomes a well-formed pipeline |
| ShellParser.RangeExact | waf-tools/shellcmd.py:121-201 | the well-formed pipelines are exactly those that some token list parses to |
| ShellParser.ParsedShape | waf-tools/shellcmd.py:162-187 | operands and operators alternate, starting and ending with an operand; output is PIPE exactly before a Pipe; a Chdir is last or followed by And |
| ShellParser.DanglingSign | waf-tools/shellcmd.py:154-163 | a redirection sign at the very end of accepted tokens changes nothing if and only if they end inside a command |
| ShellOrders.FeedItems | waf-tools/shellcmd.py:154-199 | words and redirections of a command are read in any order: the words become the arguments in their order, each stream is the one named, and a stream named twice is refused |
| ShellOrders.ParseAnyOrder | waf-tools/shellcmd.py:121-201 | every way of writing a well-formed pipeline, whatever the order of words and redirections in each command, is parsed to it |
| ShellOrders.TwiceIsRefused | waf-tools/shellcmd.py:159-199 | a command that names a stream twice is an AssertionError, whatever comes before and after |
| ShellOrders.SourceExample | waf-tools/shellcmd.py:350-353 | what the module's own example is parsed to |
| ShellPipeline.Pipeline.CommitCommand | waf-tools/shellcmd.py:101-104 | appends the current command and clears it; fails exactly when there is none |
| ShellPipeline.Pipeline.Accept | waf-tools/shellcmd.py:136-199 | one token moves the object and the parser's variables exactly as the parser function does, or fails an assert exactly when that does |
| ShellPipeline.Pipeline.Parse | waf-tools/shellcmd.py:121-201 | the object ends with the pipeline that the parser function gives; AssertionError exactly when it gives none |
| ShellPipeline.Pipeline.ExecPipedCommands | waf-tools/shellcmd.py:203-212 | waits for every process of the group in order; the result is the last process's status |
| ShellPipeline.Pipeline.CloseFiles | waf-tools/shellcmd.py:301-304 | closes each file of the group in order, but never the null device |
| ShellPipeline.Pipeline.StartCommand | waf-tools/shellcmd.py:242-291 | opens what the redirections name and starts the process with exactly the specified argv, environment, directory and streams |
| ShellPipeline.Pipeline.Run | waf-tools/shellcmd.py:214-346 | the loop over nodes does exactly what the meaning of the pipeline as groups joined by && and \|\| says: same launches, opens, waits, closes, result and exceptions |
| ShellMeaning.StartStarts | waf-tools/shellcmd.py:242-291 | a command starts one process with its words, environment, directory and redirections |
| ShellMeaning.GroupStarts | waf-tools/shellcmd.py:222-310 | a group starts exactly its commands, in order, each in the directory its cd's lead to, and its status is the last one's |
| ShellMeaning.ExecIsRightAssoc | waf-tools/shellcmd.py:222-346 | from any state between groups, the run of the rest is its right-associative short-circuit evaluation |
| ShellMeaning.RunMeansRightAssoc | waf-tools/shellcmd.py:214-346 | for every runnable pipeline and all exit codes, run starts exactly the commands and returns exactly the status of right-associative short-circuit evaluation |
| ShellMeaning.RunnableSafe | waf-tools/shellcmd.py:225-231 | the groups of a parsed pipeline are free of failing cd's exactly when it ends with a command and every cd names a directory |
| ShellMeaning.Reach | waf-tools/shellcmd.py:225-231 | for every other pipeline there are exit codes with which run raises an exception |
| ShellMeaning.RunSafeIff | waf-tools/shellcmd.py:214-346 | run returns for all exit codes if and only if the pipeline ends with a command and every cd names a directory |
| ShellPosix.LeftAssociative | waf-tools/shellcmd.py:312-346 | the POSIX evaluation used for comparison is left-associative: the status of all that stands to the left of an operator decides about what follows, which goes on with the next command in the directory where the left part has ended |
| ShellPosix.ExecIsRan | waf-tools/shellcmd.py:222-346 | for every parsed pipeline the launches of a run, with directories and pipe ends, are those of a node-by-node reading, up to the failing cd when it raises, and to the end with the same status when it returns |
| ShellPosix.Agree | waf-tools/shellcmd.py:222-346 | with one kind of operator after the first command, run and POSIX start the same commands to the same status for all exit codes; with plain pipes also in the same places |
| ShellPosix.MixedDiffer | waf-tools/shellcmd.py:312-346 | for every other runnable pipeline there are exit codes with which run starts fewer commands than POSIX asks for |
| ShellPosix.ReadsDiffer | waf-tools/shellcmd.py:242-250 | a cd or an input file after a pipe sign makes some command read from elsewhere than in POSIX |
| ShellPosix.SameCommandsIff | waf-tools/shellcmd.py:214-346 | run starts the commands POSIX asks for and returns its status, for all exit codes, if and only if the pipeline is runnable and has one kind of operator from the first one after a command on |
| ShellPosix.PosixIff | waf-tools/shellcmd.py:214-346 | directories, files and pipe ends agree as well if and only if every pipe sign is followed by a command without an input file |
| ShellPosix.CdInTheMiddle | waf-tools/shellcmd.py:225-231 | on `a \|\| cd d && b` with a succeeding, run starts one command and POSIX two |
| ShellResources.StartKeeps | waf-tools/shellcmd.py:242-291 | starting a command opens files and processes once and queues every opened file for closing |
| ShellResources.FinishKeeps | waf-tools/shellcmd.py:296-305 | the end of a group waits for exactly its processes and closes exactly its files |
| ShellResources.RunIsClean | waf-tools/shellcmd.py:293-346 | whenever run returns, each opened file has been closed exactly once after it was opened, the null device never, and each process waited for exactly once after its start |
| ShellResources.RaisedIsCleanIff | waf-tools/shellcmd.py:225-231 | a run that raises has closed every file and waited for every process if and only if the first failing cd of the pipeline does not stand after a pipe sign |
| ShellResources.AlwaysCleanIff | waf-tools/shellcmd.py:214-346 | all runs of a parsed pipeline leave nothing behind, for all exit codes, if and only if that is so |
| ShellResources.PipeIntoCd | waf-tools/shellcmd.py:225-228 | `a \| cd` raises and leaves a running |
| ShellResources.CdErrors | waf-tools/shellcmd.py:225-228 | a final cd is an IndexError, one without a directory a TypeError |
| ShellResources.RunInOrder | waf-tools/shellcmd.py:242-346 | in every run a file is opened before the process that uses it is started, and closed after that process has been waited for |
| ShellResources.JoinPathIs | waf-tools/shellcmd.py:228 | an absolute directory stands for itself, any other is put below the one before |
| ShellResources.StartedThere | waf-tools/shellcmd.py:225-229 | after `cd dir && b` the command b is started in dir if that is absolute, else in ./dir |
| ShellResources.RunConnectsPipes | waf-tools/shellcmd.py:242-255 | a process reads from a pipe exactly when the one started just before it writes to one, and then from that one; none is left dangling |
| Introspection.PathsExact | utils/print-introspected-doxygen.cc:420-503 | the depth-first listing contains a path if and only if it is simple and avoids the types under way |
| Introspection.PathsOnce | utils/print-introspected-doxygen.cc:420-503 | it contains no path twice, even with parallel edges |
| Introspection.PathsInOrder | utils/print-introspected-doxygen.cc:420-503 | the listing is in dictionary order of the edge positions, a path before its extensions |
| RegistryPaths.EdgesInOrder | utils/print-introspected-doxygen.cc:429-502 | the edges of a type are exactly its pointer attributes not to a plain Object, its container attributes, its registered children and the other ends of its aggregation pairs, in this order and in the order of the type database, none left out |
| RegistryPaths.PathIsChain | utils/print-introspected-doxygen.cc:429-502 | every path is a chain of such steps |
| RegistryPaths.ChainIsPath | utils/print-introspected-doxygen.cc:429-502 | every chain of such steps is a path |
| RegistryPaths.EntriesAreReached | utils/print-introspected-doxygen.cc:341-346 | the entries of the simple paths are the ends of chains through distinct types, with their labels |
| RegistryPaths.RenderTwo | utils/print-introspected-doxygen.cc:328-338 | every label stands after a slash |
| StaticInfo.StaticInformation.HasAlreadyBeenProcessed | utils/print-introspected-doxygen.cc:349-361 | answers membership in the stack |
| StaticInfo.StaticInformation.GetCurrentPath | utils/print-introspected-doxygen.cc:328-338 | a slash before every label of the stack |
| StaticInfo.StaticInformation.RecordOutput | utils/print-introspected-doxygen.cc:341-346 | appends the type with the current path, nothing else changes |
| StaticInfo.StaticInformation.Follow | utils/print-introspected-doxygen.cc:449-453 | push, search, pop: the stacks are restored and one more edge of the type has been searched |
| StaticInfo.StaticInformation.SearchAttributes | utils/print-introspected-doxygen.cc:429-468 | the attribute loop searches exactly the attribute edges of the type, in order |
| StaticInfo.StaticInformation.SearchChildren | utils/print-introspected-doxygen.cc:469-481 | the loop searches exactly the registered children |
| StaticInfo.StaticInformation.SearchAggregates | utils/print-introspected-doxygen.cc:482-502 | the loop searches exactly the other ends of the type's aggregation pairs |
| StaticInfo.StaticInformation.DoGather | utils/print-introspected-doxygen.cc:420-503 | terminates, restores both stacks, keeps them duplicate-free and equally high, and appends the entries of the simple paths that avoid the stack |
| StaticInfo.FoundEntries | utils/print-introspected-doxygen.cc:420-503 | what the recursion appends is one entry per listed path, in the same order |
| StaticInfo.GraphExists | utils/print-introspected-doxygen.cc:429-502 | every type database and root lead to a finite graph closed under all three kinds of edges |
| StaticInfo.OneEntryPerSimplePath | utils/print-introspected-doxygen.cc:420-503 | the search from a root appends exactly one (type, path) entry per labelled simple path |
| StaticInfo.StaticInformation.Gather | utils/print-introspected-doxygen.cc:411-417 | for every type database and root an entry is recorded if and only if a chain of distinct types leads to it by pointer attributes not to a plain Object, container attributes, registered children and aggregation pairs, with these labels; the entries correspond one to one to the simple paths, depth first; nothing is removed, since the container is sorted out by value |
| PatchRoundTrip.HeaderCounts | utils/check-style.py:301-308 | the four numbers of a written header are the two positions and the numbers of removed and kept, and of added and kept lines |
| PatchRoundTrip.AnyHeader | utils/check-style.py:377 | a header is read whatever the numbers and whatever follows the closing sign |
| PatchRoundTrip.WrittenPatch | utils/check-style.py:363-372 | one patch with all kinds of lines, written out character by character |
| PatchRoundTrip.BreakIsOptional | utils/check-style.py:375-380 | a line means the same with and without a line break at its end |
| PatchRoundTrip.FirstLineErrors | utils/check-style.py:382-417 | which error a header without a patch, a line without a chunk and an unknown line raise |
| PatchRoundTrip.ClassifyLine | utils/check-style.py:219-232 | a written line is taken for itself, except exactly when it looks like a file header |
| PatchRoundTrip.FeedPatches | utils/check-style.py:374-418 | the parser loop rebuilds any patch list from its headers, positions and lines |
| PatchRoundTrip.FeedTotal | utils/check-style.py:374-418 | whatever was accepted, the number of lines in all chunks is the number of body lines read |
| PatchRoundTrip.RoundTripIff | utils/check-style.py:363-418 | for all lists without line breaks, parsing what was written rebuilds the same patches, chunks, positions, kinds and texts if and only if no removed line starts with "-- " and no added one with "++ " |
| PatchRoundTrip.ClassifyOk | utils/check-style.py:375-380 | no line, however it ends, is taken for a chunk line that looks like a file header, and no text contains a line break |
| PatchRoundTrip.RangeExact | utils/check-style.py:374-418 | the patch lists that some text is read as are exactly those that read back after being written |
| PatchRoundTrip.CurrentChunk | utils/check-style.py:383-417 | the current chunk is the last one of its patch, and that patch is the newest one if and only if a chunk header has followed the line that began it |
| PatchRoundTrip.WhereLineLands | utils/check-style.py:396-417 | a line is added to the newest patch if and only if a chunk header follows its first line, else to the last chunk of an earlier patch |
| PatchRoundTrip.StrayLine | utils/check-style.py:385-389 | a line that directly follows the second "--- " line ends up in the first patch |
| PatchRewrite.TrailsIs | utils/check-style.py:421-432 | a source line leads to an extension exactly when it is the destination line and one space or tab |
| PatchRewrite.RewriteLinesFrame | utils/check-style.py:424-433 | number and kind of lines stay, each line is kept or extended by one blank, removed lines are kept, and the source side is kept if and only if no pair hits a context line |
| PatchRewrite.ContextLineIsExtended | utils/check-style.py:424-433 | a chunk whose source side changes |
| PatchRewrite.RewriteFrame | utils/check-style.py:420-436 | the same for whole patch lists through the early return: everything is kept up to one blank per line, and all source sides are kept if and only if every chunk up to the first one with too few destination lines is safe |
| PatchObjects.PatchChunkLine.Write | utils/check-style.py:219-232 | writes the sign, the text and a line break; an exception exactly for a line never set |
| PatchObjects.PatchChunk.AddLine | utils/check-style.py:262-268 | the chunk stands for its old lines and the new one, whose object is not shared with another place |
| PatchObjects.PatchChunk.SrcLines | utils/check-style.py:269-278 | returns the line objects themselves, in order, so that a context line is in both lists |
| PatchObjects.PatchChunk.DstLines | utils/check-style.py:279-288 | the same for the destination side |
| PatchObjects.PatchChunk.Write | utils/check-style.py:301-310 | writes the header of the chunk it stands for, with its counts, and then its lines |
| PatchObjects.PatchChunk.Compare | utils/check-style.py:430-433 | changes at most the one destination object, even when it is the source object too |
| PatchObjects.PatchChunk.Rewrite | utils/check-style.py:424-435 | the loop over aliased objects leaves the chunk standing for the rewritten lines; stops early exactly when destination lines run out |
| PatchObjects.Patch.Disjoint | utils/check-style.py:328-334 | chunks in different places share no line object |
| PatchObjects.Patch.Rewrite | utils/check-style.py:424-435 | chunks after the first short one are untouched |
| PatchObjects.Patch.Write | utils/check-style.py:363-372 | writes exactly the text of the patch the object stands for |
| PatchSets.Apart | utils/check-style.py:374-418 | different patches share no chunk and no line object |
| PatchSets.ParseLine | utils/check-style.py:385-417 | one turn of the loop, with its six patterns, moves the objects as the parser function moves the values, or raises the same error |
| PatchSets.Parse | utils/check-style.py:374-418 | builds new objects that stand for exactly what the lines say; otherwise the error of the first unreadable line |
| PatchSets.RewriteAll | utils/check-style.py:423-436 | the loops over shared objects leave the patch list standing for the rewritten one, early return included |
| PatchSets.RemoveTrailingWhitespaceChanges | utils/check-style.py:420-436 | parses, then rewrites; fails exactly when parsing does |
| PatchFilter.FilterDiff | utils/check-style.py:473-478 | the file gains exactly the text of the rewritten first patch, or nothing for an empty diff or an error; and when that text reads back |
| PatchFilter.OneTurn | utils/check-style.py:427-433 | whether a comparison extends its line, and whether that makes it "++ ", told from the original lines |
| PatchFilter.AfterTurns | utils/check-style.py:427-433 | what has become of each line after any number of comparisons, through any chain of shared context lines |
| PatchFilter.FilteredReadsBack | utils/check-style.py:473-478 | for every diff that can be read, what the filter writes reads back if and only if, up to the first chunk with too few destination lines, no added line "++" of the first patch is compared with a line that is "++ ", be it originally or made so by an earlier comparison |
| PatchFilter.ContextPassesOn | utils/check-style.py:427-433 | an added line can become a header through a context line extended first |
| PatchFilter.ContextSaves | utils/check-style.py:427-433 | and a context line "++ " that grows longer first does not make one |
| PatchFilter.BlankMakesHeader | utils/check-style.py:432-433 | it can become one |
| Permutations.Permute | bindings/python/rad_util.py:310-326 | the two loops over the recursive result insert the first item everywhere, in order |
| Permutations.CountIsFactorial | bindings/python/rad_util.py:310-326 | n! lists for n items, one empty list for none |
| Permutations.Sound | bindings/python/rad_util.py:315-322 | each list returned has the input's items, with multiplicity |
| Permutations.Complete | bindings/python/rad_util.py:315-322 | every rearrangement occurs |
| Permutations.ExactlyRearrangements | bindings/python/rad_util.py:310-326 | a list is returned if and only if it has the input's multiset |
| Permutations.NoRepetition | bindings/python/rad_util.py:310-326 | distinct items give pairwise distinct lists |
| Permutations.OrderOfPerms | bindings/python/rad_util.py:315-322 | each rearrangement of the rest gives n lists in a row, the first item moving through it from front to back |
| BinaryCodes.Carry | bindings/python/rad_util.py:651-659 | clearing the leading ones and setting the next zero adds one, or wraps round |
| BinaryCodes.Increment | bindings/python/rad_util.py:649-659 | the toggle loop adds one to the counter; the last toggle is 1 exactly when it has wrapped round to zero |
| BinaryCodes.BinaryRange | bindings/python/rad_util.py:639-660 | for a positive width it terminates with 2^bits strings, the k-th being k in binary; for width 0 with none |
| BinaryCodes.BinaryReadsBack | bindings/python/rad_util.py:130 | the k-th string reads back as k |
| BinaryCodes.BinaryOfValue | bindings/python/rad_util.py:130 | every binary string is the binary number of its value, which fits its width |
| BinaryCodes.Bin2IntConcat | bindings/python/rad_util.py:130 | digits in front count 2^n times as much as the last n |
| BinaryCodes.DigitValues | bindings/python/rad_util.py:130 | the digits are 0 and 1 |
| BinaryCodes.NibblesValue | bindings/python/rad_util.py:90-95 | the mapped hexadecimal digits read back as the number |
| BinaryCodes.Int2BinExact | bindings/python/rad_util.py:90-105 | for a positive width n it fails if and only if i >= 2^n, and otherwise gives the i-th string of binary_range |
| BinaryCodes.WidthZero | bindings/python/rad_util.py:90-105 | for width 0 it never fails and the result reads back as i, in as many whole groups of four bits as i needs |
| BinaryCodes.DecodeEncode | bindings/python/rad_util.py:612-615 | gray_encode has a left inverse |
| BinaryCodes.EncodeDecode | bindings/python/rad_util.py:612-615 | and the same function is its right inverse |
| BinaryCodes.GrayWidth | bindings/python/rad_util.py:612-615 | a code fits a width exactly when the number does, so gray_encode permutes 0..2^bits-1 |
| BinaryCodes.GrayNeighbours | bindings/python/rad_util.py:612-615 | codes of consecutive numbers differ in exactly one bit |
| BinaryCodes.GrayWrapsAround | bindings/python/rad_util.py:612-615 | so do those of the last and the first number of a width |
| Stream.Sender.constructor | examples/tcp/tcp-large-transfer.cc:81-86 | byte k of the buffer is the k-th letter of a to z over and over |
| Stream.LettersAre | examples/tcp/tcp-large-transfer.cc:82-85 | the letters are those from a to z |
| Stream.OffsetLetter | examples/tcp/tcp-large-transfer.cc:50-53 | continuing in the middle of the buffer continues with the right letter, because 26 divides 1040 |
| Stream.Sender.WriteOnce | examples/tcp/tcp-large-transfer.cc:202-213 | never reads past the buffer; what is accepted continues the stream; the total stays within totalTxBytes |
| Stream.Sender.Turn | examples/tcp/tcp-large-transfer.cc:200-214 | one turn, whatever the answers, keeps the stream intact, and the loop stops exactly on a complete stream, no space, or a failed send |
| Stream.Sender.WriteUntilBufferFull | examples/tcp/tcp-large-transfer.cc:198-219 | for all endless answers with which the loop ends: it ends at the first stopping turn with exactly the bytes accepted until then; an incomplete stream is left only when the socket has refused; Close is called once if the stream is complete and otherwise not |
| Stream.EndsIff | examples/tcp/tcp-large-transfer.cc:200-214 | the loop runs for ever if and only if from some turn on the socket always has space, no send fails, and nothing is accepted |
| Stream.EndsInTime | examples/tcp/tcp-large-transfer.cc:200-214 | if the space is still there when asked again and no send is empty, the loop ends within one turn per missing byte |
| Stream.EmptySendsNeverEnd | examples/tcp/tcp-large-transfer.cc:200-214 | on a socket that always has space for one byte and takes none, the loop never ends |
| Stream.Sender.Run | examples/tcp/tcp-large-transfer.cc:185-196 | over any number of callbacks that end, the accepted bytes are the beginning of the stream, byte k being 'a' + k mod 26, and the socket is closed if and only if all are accepted |

## Left out

- Simulation examples, `scratch/drr.cc`, `utils/grid.py`, binding generators and waf build glue: they call libraries that are not part of this model, or would only add easy members.
- `bindings/python/ns3modulescan.py`: its module order is a corollary of `topsort`.
- Floating-point, time, random and formatting helpers and `gcf`/`lcm` of `bindings/python/rad_util.py`.
- Generators (`topsort_levels_core`, `find_cycles`) are modelled as lists of everything they yield, and mutation of the arguments between two yields is not captured. The dictionaries are map values that the methods reassign; their iteration order is arbitrary.
- The runner is a transition system on values: job objects are not shared heap objects, and `ran` is a history field of the model. `run_job_synchronously` returns an arbitrary return code and is assumed to return at all; the many dispatch loops of `run_tests` for examples and Python examples are one list of jobs; output, XML, valgrind detection and the choice of the number of workers are not modelled.
- `shlex.split`, real processes, and failures of `open` and `Popen` in `waf-tools/shellcmd.py`: exit codes are an arbitrary function of the start number, and opening always succeeds.
- The verbose branches of `run` and `get_abbreviated_command`, which only print. Some verbose branches read `retval` before it is set.
- `Command` and `Chdir` objects are values inside the pipeline; `os.environ` is not merged; blanks in assignments are the ASCII ones; `os.path.join` is the POSIX one.
- `TypeId` is known by its name and `IsChildOf` is an arbitrary relation. Printing, markup, and the lookups that fill the aggregation list are not modelled.
- Line texts of diffs contain any character but a line break; translation of other line ends is not modelled. `uncrustify`, `difflib`, the external patch program and temporary files are left out, and so is the debug mode of `indent`, which uses up the diff before it is filtered.
- Header forms without explicit counts are rejected by the parser and by the model alike.
- BinaryCodes.Int2BinExact: says nothing of negative numbers, for which `hex` puts a minus sign in front, or of negative widths.
- BinaryCodes.BinaryRange: says nothing of negative widths.
- Stream.Sender.WriteUntilBufferFull: is called only with answers for which its loop ends, and so is each call of Stream.Sender.Run; what an endless loop keeps is said turn by turn in Stream.Sender.Turn. That the stream completes depends on the network.
- Stream.Sender.Run: see the line above.
- ShellPosix.PosixIff: compares parsed pipelines; quoting, the order of redirections within a command, and a `cd` that fails are not compared, and `cd` without a directory is taken to stay where it is.
