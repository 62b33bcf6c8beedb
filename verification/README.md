# Verification of the self-contained algorithms of the ns-3 tree

Most of the repository wires up simulator objects. This project models the parts
that stand on their own and proves what they promise.

| component | source | files |
|---|---|---|
| topological sort, by answer list and by level | `bindings/python/topsort.py` | `Graph.dfy`, `TopSort.dfy`, `TopSortLevels.dfy` |
| enumeration of all simple cycles, and the rotation test it uses | `bindings/python/topsort.py`, `bindings/python/rad_util.py` | `Rotations.dfy`, `FindCycles.dfy` |
| the worker pool of the test runner, its tally and exit status | `test.py` | `JobPool.dfy`, `PoolRuns.dfy`, `JobTally.dfy`, `PoolInterrupts.dfy` |
| the small shell: token parser and executor | `waf-tools/shellcmd.py` | `ShellParse.dfy`, `ShellGrammar.dfy`, `ShellRun.dfy`, `ShellLaunches.dfy`, `PosixLists.dfy` |
| the attribute path enumerator | `utils/print-introspected-doxygen.cc` | `Introspect.dfy` |
| reading and writing unified diffs | `utils/check-style.py` | `PatchText.dfy`, `PatchLines.dfy`, `PatchReading.dfy`, `PatchRoundTrip.dfy`, `PatchObjects.dfy` |
| the inverse-CDF sampler and its closed-form mean | `examples/large-scale-sim/cdf.c` | `Integral.dfy`, `Cdf.dfy` |
| permutations, binary strings, Gray code | `bindings/python/rad_util.py` | `Permutations.dfy`, `BinaryStrings.dfy` |

`Common.dfy` holds what several of them share. `dafny verify dfyconfig.toml` checks
everything.

How the model is built:

- Where the source updates things step by step, the model has a method with the
  same loops or a class with the same fields, proved against a specification
  function or against the promised property itself. Loop bodies that carry a
  large proof are methods of their own.
- `Graph` defines paths, cycles and "below a cycle" (reachable from an item on
  some cycle) without reference to any algorithm. The two sorts are stated in
  those terms: the items left over by a cycle error are exactly the items below a
  cycle. The proof walks backwards through leftover parents until an item
  repeats.
- A dictionary's iteration order is arbitrary in the model, so nothing depends on
  it. A generator is the list of what it yields plus how it ends.
- `topsort_levels_core` is given two dictionaries; its documentation says what
  they mean (numbers of predecessors, lists of successors). A ghost pair list
  states that meaning. The order in a child list is free, and an item without
  children may have an empty list or no entry.
- `find_cycles` terminates because a weight summed over the stack drops by one
  for each path popped: the weight of a path counts the paths that can still be
  grown from it. Completeness holds because every key is reachable from some
  explored root, and a simple path from a root to a cycle continues once around
  the cycle.
- The pool is a state machine whose steps are single queue, flag and thread
  operations of the main thread and of any number of workers. The class `Pool`
  has one method per step, each proved equal to that step. `Inv` is kept by every
  step: each job put so far is in exactly one place, break jobs form a suffix of
  the input queue, and no worker returns without its break job. `PoolInterrupts`
  says of an interrupted run, by the state in which the flag goes up, which jobs come
  back marked and what the exit status is.
- `ShellGrammar` is a grammar of command lines with the meaning of each item, field by
  field, and without the parser's states. parse accepts exactly the spellings of its
  lines, and what it returns means the line.
- `ShellRun` describes a run by events (files opened in order, process started,
  process waited for, file closed) and compares the executor's loop with a
  reference semantics on pipe segments. Handles number the opened files.
  `ShellLaunches` says what that semantics amounts to on the node list: what each
  process is connected to, in which order the events come, and where a run ends.
- `PatchLines` speaks of written and read lines as text, and `PatchReading` of what a
  whole text is read as, looking forward from each line.
- The mean of the sampler is its integral over [0, 1]: the number that lies
  between the lower and the upper sum of every finite partition. `Integral` proves
  that a rising function has at most one.
- `Introspect` counts walks by the positions of the links taken, so parallel links
  with equal labels stay apart. A chain of labels and types is recorded as often as
  the product of the numbers of attributes, children and aggregations that lead along
  each of its links.

Where the source and its documentation disagree, the model follows the source:

- `bindings/python/topsort.py:109` and `:227` say that every leftover item has a
  child. What holds is that it has a leftover parent (`TopSort.LeftoverHasParent`).
  Every one has a child exactly when whatever a cycle reaches reaches a cycle in
  turn (`TopSort.LeftoversHaveChildrenIff`).
- `avg_cdf` is the mean of the sampler exactly when the last cdf is 1 or the last
  value is 0 (`Cdf.AreaIsMeanIff`). Beyond the last entry the sampler still
  returns the last value, which the closed form does not add.
- `run` stops for good at the first `&&` or `||` that short-circuits, takes a `cd`
  out of the list before it looks at operators, and ignores a `<` on a command that
  a pipe feeds. Pipelines and AND-OR lists as in sections 2.9.2 and 2.9.3 of the
  POSIX.1-2017 Shell Command Language do not. `PosixLists` evaluates the node list
  by those rules, with `cd` as a command of its own, and proves exactly when `run`
  does the same (`PosixLists.PosixIff`, and `PosixLists.AlwaysIff` when the statuses
  are not known): every `cd` that is reached names a directory, is followed by
  something and stands alone in its pipeline; no command that is reached has both a
  pipe and a file to read; and after the operator at which `run` stops the other
  operator does not occur, except an `&&` with nothing but `cd`s after it.
- A command fed by a pipe loses its `<` file when it is displayed, so printing and
  parsing gives back a grammatical pipeline exactly when no such command has one
  (`ShellParse.RoundTripIff`).
- A removed line that begins with `-- ` or an added line that begins with `++ ` is
  read back as a file name. The patch round trip holds exactly when there is none
  (`PatchRoundTrip.RoundTripIff`), and always for what was itself read
  (`PatchRoundTrip.ReadWriteRead`).
- The pool can hang exactly when it has jobs and no workers
  (`PoolRuns.DeadlocksIffNoWorkers`).
- `permutations` repeats a list exactly when the input repeats an item
  (`Permutations.NoRepeatsIff`).
- `int2bin` with n = 0 cuts nothing off, and a negative i fails with a KeyError and
  not with the documented ValueError (`BinaryStrings.Int2BinIff`).

## Model

| member | source | states |
|---|---|---|
| TopSort.BuildTables | bindings/python/topsort.py:77-90 | the two dictionaries hold every mentioned item with the number of pairs into it, and each parent's children in pair order; repeated pairs and self-pairs count |
| TopSort.ItemsMentioned | bindings/python/topsort.py:77-90 | the items are those that occur on either side of some pair |
| TopSort.TablesByPairs | bindings/python/topsort.py:77-90 | the child list of a parent has one entry per pair, at the place given by the pairs before it; the count of an item is the number of pairs into it |
| TopSort.WithoutParents | bindings/python/topsort.py:93 | lists the items with count 0, each once |
| TopSort.KnockDown | bindings/python/topsort.py:100-103 | every count ends as the number of pairs from live parents, and the answer keeps listing, after position i, exactly the live items with count 0, each once |
| TopSort.RetireStep | bindings/python/topsort.py:97-103 | an item without live parent can be retired, and no later decrement meets a deleted key |
| TopSort.TakeNext | bindings/python/topsort.py:97-98 | the next item of the growing answer is live and comes after all its parents |
| TopSort.LiveIsCyclicPart | bindings/python/topsort.py:108-111 | when every live item has a live parent, the live items are those below a cycle, and there are none exactly when there is no cycle |
| TopSort.Topsort | bindings/python/topsort.py:77-112 | succeeds exactly when the relation has no cycle; the answer lists each item not below a cycle once, after all its parents; a cycle error leaves exactly the items below a cycle, each with the number of pairs from leftover parents and its child list |
| TopSort.LeftoverHasParent | bindings/python/topsort.py:108-111 | every leftover item has a leftover parent and a count of at least 1 |
| TopSort.LeftoversHaveChildrenIff | bindings/python/topsort.py:108-111 | every leftover item has a child, as the comment says, exactly when every item that a cycle reaches reaches a cycle itself |
| TopSort.LeftoverWithoutChild | bindings/python/topsort.py:109-110 | an input that leaves an item without any child, against the comment |
| Graph.StuckIsBelowCycle | bindings/python/topsort.py:108-111 | an item of a finite set in which everyone has a predecessor in the set is below a cycle |
| Graph.RemainderIsBelowCycle | bindings/python/topsort.py:97-111 | when some items are listed parents first and the rest all have a parent in the rest, the rest is the part below a cycle and the list is the part that is not |
| TopSortLevels.FreeItemDepth | bindings/python/topsort.py:203-212 | an item that becomes free in round k has a longest incoming path of k edges |
| TopSortLevels.Decrement | bindings/python/topsort.py:221-223 | no lookup meets a deleted key and each count drops by the number of pairs from the retired parent |
| TopSortLevels.RetireOne | bindings/python/topsort.py:219-224 | retiring one item keeps the counts exact for the remaining items and deletes only its own child list |
| TopSortLevels.RetireLevel | bindings/python/topsort.py:217-224 | a whole level is retired, the items before it stay a valid topological order |
| TopSortLevels.NextRound | bindings/python/topsort.py:203-224 | one round of the generator keeps that every level k holds items of depth k |
| TopSortLevels.TopsortLevelsCore | bindings/python/topsort.py:203-232 | level k holds exactly the items whose longest incoming path has k edges; no level is empty; flattening gives each item not below a cycle once, parents first; the generator ends normally exactly without a cycle and otherwise reports exactly the items below one, with their remaining counts and untouched child lists |
| TopSortLevels.TopsortLevels | bindings/python/topsort.py:157-172 | the same for a pair list |
| TopSortLevels.BuiltIsConsistent | bindings/python/topsort.py:157-172 | the dictionaries built from pairs meet what the core's documentation asks of its arguments |
| TopSortLevels.FewestLevels | bindings/python/topsort.py:203-212 | no assignment of items to levels that puts parents earlier has fewer levels |
| Rotations.IsRotated | bindings/python/rad_util.py:762-775 | answers yes exactly when one list is a rotation of the other, and fails exactly on two empty lists |
| Rotations.RotatedSym | bindings/python/rad_util.py:735-775 | being a rotation is symmetric |
| Rotations.RotatedTrans | bindings/python/rad_util.py:735-775 | being a rotation is transitive |
| FindCycles.IsDup | bindings/python/topsort.py:371-375 | true exactly when a rotation of the cycle was yielded before |
| FindCycles.CloseCycle | bindings/python/topsort.py:367-378 | a closed path yields a simple cycle unless a rotation of it was yielded; nothing yielded is a rotation of another |
| FindCycles.VisitChildren | bindings/python/topsort.py:362-385 | every child closes a reported cycle or extends the path on the stack; the stack's weight grows by exactly the weight below the popped path |
| FindCycles.ProgressStep | bindings/python/topsort.py:352-385 | after a pop every simple path from the root is still covered by the cycles found or awaited on the stack |
| FindCycles.Explore | bindings/python/topsort.py:351-385 | the search from a root ends, and every cycle closed by a simple path from the root has been reported |
| FindCycles.AllKeysReached | bindings/python/topsort.py:346-349 | skipping visited roots leaves every key reachable from an explored root |
| FindCycles.TrailAround | bindings/python/topsort.py:351-385 | a simple path that meets a cycle can be continued once around it to close a rotation of it |
| FindCycles.NoneMissing | bindings/python/topsort.py:343-385 | when all roots are explored and reach every key, no simple cycle is missing |
| FindCycles.FindCycles | bindings/python/topsort.py:343-385 | ends on every finite graph; yields only simple cycles, no two of them rotations of each other, and a rotation of every simple cycle |
| FindCycles.ReportedOnce | bindings/python/topsort.py:371-378 | each simple cycle is a rotation of at most one yielded list |
| FindCycles.YieldsIffHasCycle | bindings/python/topsort.py:343-385 | something is yielded exactly when the graph has a cycle at all, by the definition used for the sorts |
| JobPool.StepKeepsInv | test.py:955-1023 | every enabled step of any thread keeps the pool's invariant |
| JobPool.ReachableInv | test.py:955-1023 | the invariant holds in every state of every interleaving |
| JobPool.PillsLastKept | test.py:956-963 | break jobs stay a suffix of the FIFO input queue |
| JobPool.HandleIs | test.py:956-1000 | what a worker makes of a job, field by field: a break job ends it; with the flag up a test is marked as a break and keeps its return code, to be skipped or not; with the flag down it is unmarked and has the outcome of its process unless it is to be skipped |
| JobPool.ConservedKept | test.py:1448-1450 | every job put is in exactly one place: input queue, a worker, output queue, or collected |
| PoolRuns.DoneIsClean | test.py:1818-1819 | when main has joined, both queues are empty, every worker has returned holding its own break job, and every test was collected exactly once |
| PoolRuns.NoDeadlock | test.py:1679-1680 | with a worker or without jobs, some step other than the interrupt is enabled until main has joined |
| PoolRuns.DeadlocksIffNoWorkers | test.py:1389-1392 | some run hangs exactly when there are jobs and no workers |
| PoolRuns.StepsUsedUp | test.py:955-1023 | each step lowers a measure of the work left |
| PoolRuns.RunsAreFinite | test.py:955-1023 | no run has more than 7 steps per worker, 5 per job and the interrupt |
| PoolRuns.EveryScheduleEnds | test.py:955-1023 | every maximal run ends cleanly, each test collected once, unmarked with the result of its own return code or, only if interrupted, marked as a break with the return code it was put with |
| JobPool.Pool.constructor | test.py:573 | starts in the initial state, the flag down |
| JobPool.Pool.StartThread | test.py:1389-1392 | adds one idle worker |
| JobPool.Pool.PutJob | test.py:1448-1450 | appends the next test to the input queue |
| JobPool.Pool.PutBreak | test.py:1657-1660 | appends a break job to the input queue |
| JobPool.Pool.Receive | test.py:1679-1680 | takes the oldest result, which belongs to a test |
| JobPool.Pool.JoinThread | test.py:1818-1819 | joins a worker that has returned |
| JobPool.Pool.WorkerGet | test.py:957 | takes the oldest job of the input queue |
| JobPool.Pool.WorkerHandle | test.py:962-1000 | returns on a break job, marks the job and does not run it when the flag is up, passes a skipped job on, sets the return code otherwise; nothing else changes |
| JobPool.Pool.WorkerPut | test.py:1023 | appends the job to the output queue |
| JobPool.Pool.Sigint | test.py:575-578 | raises the flag and changes nothing else |
| JobTally.CollectResults | test.py:1672-1708 | the counters and name lists are those of the jobs' verdicts, in order of arrival |
| JobTally.CountersAre | test.py:1679-1708 | the counters by the fields of the jobs: marked jobs count nowhere, skipped ones as skipped, the others by the return codes 0, 1, 2 and all others |
| JobTally.NamesAre | test.py:1692-1708 | each list has the names of the jobs counted, in order of arrival, for skipped ones followed by the reason in parentheses |
| JobTally.VerdictsAddUp | test.py:1679-1708 | passed, failed, valgrind, crashed, skipped and interrupted add up to the jobs received |
| JobTally.StatusOfRun | test.py:1903-1906 | at the end of every run the six numbers add up to the total, and the status is 0 exactly when every job was skipped or returned 0, none interrupted |
| JobTally.SameJobs | test.py:955-1023 | two uninterrupted collections of the same jobs agree as multisets |
| JobTally.SameTally | test.py:1679-1708 | counters and name lists depend only on the multiset of jobs |
| JobTally.SortUnique | test.py:1839-1850 | sorting a list of names has one result |
| JobTally.CollectsAll | test.py:1679-1680 | without an interrupt every schedule collects a rearrangement of what running the jobs in order gives |
| JobTally.TallyOfSpecs | test.py:1672-1708 | without an interrupt each counter and each list of names is that of the jobs' own return codes, for any number of workers and any schedule |
| JobTally.StatusOfSpecs | test.py:1903-1906 | the status of an uninterrupted run is 0 exactly when every job is to be skipped or returns 0 |
| JobTally.ScheduleDoesNotMatter | test.py:1672-1708 | two uninterrupted runs on the same jobs, with any numbers of workers, any orders of dispatch and any schedules, report the same counters, the same sorted names and the same exit status |
| PoolInterrupts.CollectedAfterInterrupt | test.py:965-972 | of an interrupted run: a collected test is marked, with verdict Interrupted and not run, exactly when no worker had dealt with it when the flag went up; the others have their results |
| PoolInterrupts.StatusAfterInterrupt | test.py:1903-1906 | the status of an interrupted run is 0 exactly when every test had been dealt with before, and is to be skipped or returned 0 |
| PoolInterrupts.FindInterrupt | test.py:575-578 | every run that ends with the flag up splits at the one interrupt |
| Integral.AreaIsIntegral | examples/large-scale-sim/cdf.c:80-106 | an area that fits every subinterval lies between the lower and upper sums of every partition |
| Integral.IntegralUnique | examples/large-scale-sim/cdf.c:80-106 | only one number does |
| Cdf.SegmentFits | examples/large-scale-sim/cdf.c:108-114 | on one segment the interpolated line rises and the trapezoid under it lies between the two rectangles |
| Cdf.SampleBetween | examples/large-scale-sim/cdf.c:108-139 | a draw that an entry is the first to reach is interpolated on the line from the entry before, or from the origin; halfway between the values if both have the same cdf |
| Cdf.SampleAtEnds | examples/large-scale-sim/cdf.c:108-144 | a draw beyond all entries gives the last value, and a draw of 0 half of the first value when the first cdf is 0 |
| Cdf.AreaBetween | examples/large-scale-sim/cdf.c:123-144 | over any two draws, across segments and repeated cdf values, the sampler rises and its area fits |
| Cdf.MeanOfSampler | examples/large-scale-sim/cdf.c:123-144 | the sampler is monotone and the closed form with the tail beyond the last entry is its mean |
| Cdf.MeanIsUnique | examples/large-scale-sim/cdf.c:81-106 | no other number is the mean |
| Cdf.AreaIsMeanIff | examples/large-scale-sim/cdf.c:81-106 | what avg_cdf adds up is the mean exactly when the last cdf is 1 or the last value is 0 |
| Cdf.AreaIsNotMean | examples/large-scale-sim/cdf.c:81-106 | for one entry with value 10 and cdf 0.5 avg_cdf gives 2.5, and the mean is 7.5 |
| Cdf.DrawsFromUnitInterval | examples/large-scale-sim/cdf.c:58-61 | for cdf values within [0, 1] the draw is from [0, 1] |
| Cdf.LimitsAre | examples/large-scale-sim/cdf.c:58-61 | the two limits bound their start value and all cdf values, and each is one of these |
| Cdf.CdfTable.constructor | examples/large-scale-sim/cdf.c:4-17 | an empty table with room for 32 entries and limits 0 and 1 |
| Cdf.CdfTable.Resize | examples/large-scale-sim/cdf.c:44-54 | doubles the room and keeps the entries |
| Cdf.CdfTable.Store | examples/large-scale-sim/cdf.c:43-63 | appends one entry and widens the limits to include its cdf |
| Cdf.CdfTable.Load | examples/large-scale-sim/cdf.c:41-64 | appends all lines in order and ends with the least and greatest cdf |
| Cdf.CdfTable.Avg | examples/large-scale-sim/cdf.c:81-106 | the loop adds the trapezoid areas, and its result is the mean of this table's sampler exactly when the last cdf is 1 or the last value is 0 |
| Cdf.CdfTable.GenRandom | examples/large-scale-sim/cdf.c:123-144 | the scan returns the sampler's value at x |
| Introspect.VisitsSound | utils/print-introspected-doxygen.cc:1186-1269 | every record stems from a walk that never repeats a type |
| Introspect.VisitsComplete | utils/print-introspected-doxygen.cc:1186-1269 | every walk that never repeats a type is recorded |
| Introspect.VisitsDistinct | utils/print-introspected-doxygen.cc:1186-1269 | no walk is recorded twice |
| Introspect.OneVisitPerWalk | utils/print-introspected-doxygen.cc:1176-1269 | records and simple walks from the root correspond one to one, with the walk's end and labels |
| Introspect.LinkIff | utils/print-introspected-doxygen.cc:1194-1268 | a labelled step from a type is followed exactly if it is a pointer attribute to something else than Object, a container attribute under its name and /[i], a registered child under $ and its name, or the other side of an aggregation, labelled likewise |
| Introspect.LinksCounted | utils/print-introspected-doxygen.cc:1194-1268 | it is followed as often as there are such attributes, children and aggregations |
| Introspect.ChainsCounted | utils/print-introspected-doxygen.cc:1186-1269 | the search goes along a chain of links once for each choice of parallel links if the types on it are new each time, and never otherwise |
| Introspect.WalkedOften | utils/print-introspected-doxygen.cc:1176-1269 | from the root this number is the product of the numbers of attributes, children and aggregations that lead along each link |
| Introspect.PathStringIs | utils/print-introspected-doxygen.cc:1091-1102 | a path is the labels in order, each after a slash |
| Introspect.StaticInformation.GetCurrentPath | utils/print-introspected-doxygen.cc:1091-1102 | joins the current labels, each after a slash |
| Introspect.StaticInformation.HasAlreadyBeenProcessed | utils/print-introspected-doxygen.cc:1113-1125 | finds a type exactly when it is on the stack |
| Introspect.StaticInformation.RecordOutput | utils/print-introspected-doxygen.cc:1105-1110 | appends the type with the current path |
| Introspect.StaticInformation.FollowLink | utils/print-introspected-doxygen.cc:1214-1218 | records what lies behind one link and restores both stacks |
| Introspect.StaticInformation.GatherAttributes | utils/print-introspected-doxygen.cc:1194-1233 | follows pointer and container attributes in order, except pointers to Object |
| Introspect.StaticInformation.GatherChildren | utils/print-introspected-doxygen.cc:1234-1246 | follows the registered subclasses in order |
| Introspect.StaticInformation.GatherAggregates | utils/print-introspected-doxygen.cc:1247-1268 | follows the aggregated types in order, from either side of a pair |
| Introspect.StaticInformation.DoGather | utils/print-introspected-doxygen.cc:1186-1269 | terminates on cyclic type graphs, restores both stacks, and appends one record per visit |
| Introspect.StaticInformation.Gather | utils/print-introspected-doxygen.cc:1176-1269 | appends exactly one (type, path) record for each walk from the root that never repeats a type; for each chain of labelled links, read off attributes, children and aggregations, as many records as there are ways to walk it, each with its last type and its labels |
| ShellParse.EnvMatchOf | waf-tools/shellcmd.py:24 | a name, `=` and a value is read as an assignment with these parts |
| ShellParse.RoundTrip | waf-tools/shellcmd.py:121-201 | parsing what is displayed for a pipeline the grammar allows gives the pipeline |
| ShellParse.ParsedIsGrammatical | waf-tools/shellcmd.py:121-201 | whatever parse accepts obeys the grammar: alternation of items and operators, PIPE exactly before a pipe, no assignment before cd |
| ShellParse.RoundTripIff | waf-tools/shellcmd.py:235-274 | displaying and parsing gives the same pipeline exactly when it is grammatical and no command fed by a pipe names an input file |
| ShellParse.PipedStdinIsLost | waf-tools/shellcmd.py:242-248 | a grammatical pipeline that comes back without its second input file |
| ShellParse.ReparseStrips | waf-tools/shellcmd.py:242-248 | for every accepted token list, displaying and parsing again loses just the input files that the pipes override |
| ShellParse.Pipeline.CommitCommand | waf-tools/shellcmd.py:101-104 | moves the current command to the end of the pipeline |
| ShellParse.Pipeline.ReadToken | waf-tools/shellcmd.py:137-199 | one round of the loop, branch by branch, failing exactly where an assertion fails |
| ShellParse.Pipeline.Parse | waf-tools/shellcmd.py:121-201 | the object's pipeline is the parse of the tokens and is grammatical; it fails exactly where the state machine does |
| ShellGrammar.EnvMatchIff | waf-tools/shellcmd.py:24 | a token is an assignment exactly if it is word characters, `=`, a value without white space, and perhaps a newline; these are its parts |
| ShellGrammar.EnvHoldsLast | waf-tools/shellcmd.py:137-141 | the variables after some assignments are those assigned to, each with the value of the last assignment to it |
| ShellGrammar.LinesParse | waf-tools/shellcmd.py:121-201 | every line of the grammar is accepted, and the nodes mean it: arguments in order, each redirection in its field, PIPE exactly before a pipe, each variable with the value last assigned to it |
| ShellGrammar.ParsedLine | waf-tools/shellcmd.py:121-201 | every accepted token list is the spelling of a line of the grammar |
| ShellGrammar.ParsedIff | waf-tools/shellcmd.py:121-201 | parse accepts exactly these: no file redirected twice or both redirected and piped, no assignment before cd, one directory for a cd and only && after it, nothing ending in an operator |
| ShellRun.ExecPipedCommands | waf-tools/shellcmd.py:203-212 | waits for all processes in order and returns the last status |
| ShellRun.StartCommand | waf-tools/shellcmd.py:242-291 | opens input, output and error files in this order, connects the pipe, starts the process, and remembers what to close |
| ShellRun.CloseFiles | waf-tools/shellcmd.py:301-304 | closes every remembered file once, in order, except the null device |
| ShellRun.FinishSegment | waf-tools/shellcmd.py:313-319 | the events and the status of the pipe segment just ended |
| ShellRun.Run | waf-tools/shellcmd.py:214-346 | result and events are those of the reference semantics, for all statuses, including the failure on a cd without successor |
| ShellRun.ParsedCanRun | waf-tools/shellcmd.py:121-201 | whatever parse returns can be run |
| ShellRun.ClosedExactlyOnce | waf-tools/shellcmd.py:293-337 | in every run each handle is opened at most once and closed at most as often as opened; on normal return as often |
| ShellRun.FilesOpenedAndClosedOnce | waf-tools/shellcmd.py:214-346 | the same of the result and events of run on the whole node list, for every handle and all statuses: on normal return each opened file was opened once and closed once, and nothing else was closed |
| ShellRun.LaunchedAndWaited | waf-tools/shellcmd.py:293-346 | on normal return the commands of the segments that are run are launched in order, and waited for in order, each once |
| ShellRun.RunsFirstSegments | waf-tools/shellcmd.py:293-346 | those are the first k pipe segments, whole, and the result is the status of the last of them |
| ShellRun.SegmentsAreCommands | waf-tools/shellcmd.py:222-232 | when no cd is left dangling, the segments together are the commands of the node list, in order |
| ShellRun.SegmentsArePrefix | waf-tools/shellcmd.py:222-232 | with or without a dangling cd, the commands of the first k segments are a prefix of the commands of the node list, for every k |
| ShellRun.RunsAPrefix | waf-tools/shellcmd.py:214-346 | whenever run returns, the processes started are all commands of the node list up to the end of some pipe segment, a prefix of its commands in order, waited for in the same order, and the status returned is that of the last of them |
| ShellLaunches.RunConnects | waf-tools/shellcmd.py:242-291 | every process of every run gets what its node says: input from the command that a pipe joins to it, else from the file named, opened for reading by the same launch, else inherited; output to the pipe, to the file named, opened for writing by the same launch or the null device, or inherited; errors likewise or to the output with 2>&1; the directories of the cds before it; and nothing else is opened |
| ShellLaunches.PipesAsWritten | waf-tools/shellcmd.py:250-259 | for parsed nodes a process writes to a pipe exactly when the next operator is one |
| ShellLaunches.RunIsOrderly | waf-tools/shellcmd.py:293-337 | a process that reads no pipe starts when all before it have been waited for and all files are closed; waiting begins when a whole pipe segment has been started; files are closed when all have been waited for |
| ShellLaunches.WhereRunEnds | waf-tools/shellcmd.py:214-346 | for all statuses: a run ends at the first segment that is the last or whose status decides (nonzero before an And, 0 before an Or), or at the first cd without directory or successor; it has started all commands up to there, and returns that status, or fails |
| PosixLists.PosixIff | waf-tools/shellcmd.py:214-346 | for given statuses run returns what POSIX prescribes, and starts and waits for the same processes in the same directories with the same standard input, exactly under the condition above |
| PosixLists.AlwaysIff | waf-tools/shellcmd.py:214-346 | it does so for all statuses exactly when a condition on the node list alone holds |
| PosixLists.CdAfterOr | waf-tools/shellcmd.py:312-323 | run and POSIX differ on the nodes x, Or, cd d, And, y with status 0: run stops after x, POSIX runs y |
| PosixLists.CdInPipeline | waf-tools/shellcmd.py:225-231 | run and POSIX differ on the nodes a, Pipe, cd d, And, b for all statuses: run pipes a into b |
| PatchText.HeaderOf | utils/check-style.py:286-295 | a written chunk header is read back with both positions |
| PatchText.ClassifyBody | utils/check-style.py:204-217 | a written body line is read as itself unless it looks like a file name line, and then as a file name |
| PatchLines.ClassifyIff | utils/check-style.py:359-402 | what each line is read as, by its text: the patterns one by one, with a final newline ignored, any text after a header, and a body line only if it is not a file name |
| PatchLines.HeaderIff | utils/check-style.py:362 | a line is a header exactly if it has the four numbers in place; the positions are the first and the third |
| PatchLines.ChunkCountsRight | utils/check-style.py:286-295 | in what is written for a chunk the second number of the header is the number of lines after it that begin with `-` or a space, the fourth the number that begin with `+` or a space, and the others are the positions |
| PatchLines.HeaderSaysOnce | utils/check-style.py:292-293 | no line is a header for two different lists of numbers |
| PatchLines.WrittenCountsRight | utils/check-style.py:286-355 | the same for every chunk of every patch in the whole text |
| PatchLines.LineWritten | utils/check-style.py:204-217 | each line of a chunk is its sign, its text and a newline |
| PatchReading.ParsedIs | utils/check-style.py:359-403 | exactly which texts are read, and as what: one patch per source name, with the last destination name and the headers up to the next source name; to each header belong the body lines up to the next header, even past file names |
| PatchRoundTrip.RoundTripIff | utils/check-style.py:359-403 | for newline-free text and nonnegative positions, parse_patchset of what is written gives the same patches exactly when no removed line begins with `-- ` and no added line with `++ ` |
| PatchRoundTrip.RemovedCommentIsLost | utils/check-style.py:359-403 | a patch that removes the line `-- x` is not read back |
| PatchRoundTrip.ReadCounts | utils/check-style.py:359-403 | reading creates exactly one chunk line per body line of the text |
| PatchRoundTrip.BodiesOfAll | utils/check-style.py:286-295 | the text has as many body lines as the patches exactly when none looks like a file name line |
| PatchRoundTrip.ReadWriteRead | utils/check-style.py:348-403 | whatever was read can be written and read again without change |
| PatchRoundTrip.FileRoundTripIff | utils/check-style.py:348-403 | the same through one file, split into lines again |
| PatchObjects.PatchChunkLine.Write | utils/check-style.py:204-217 | writes the sign of the line's kind and its text |
| PatchObjects.PatchChunk.CountLines | utils/check-style.py:254-285 | counts the source and destination lines of the chunk |
| PatchObjects.PatchChunk.Write | utils/check-style.py:286-295 | writes the header with recomputed counts, which are right for the lines that follow, then the lines |
| PatchObjects.Patch.Write | utils/check-style.py:348-355 | writes both names and all chunks |
| PatchObjects.ReadLine | utils/check-style.py:366-402 | one line changes only the current patch or chunk object, as the reading function says |
| PatchObjects.ParsePatchset | utils/check-style.py:359-403 | the patch objects show what the reading function gives, and it fails exactly where that does |
| PatchObjects.WriteAndParse | utils/check-style.py:348-403 | writing patch objects and parsing the text gives new objects that show the same patches exactly when no line looks like a file name line |
| Permutations.Permutations | bindings/python/rad_util.py:310-326 | the loops build the list that the lemmas below describe |
| Permutations.PermsCount | bindings/python/rad_util.py:293-326 | n items give n! lists |
| Permutations.PermsSound | bindings/python/rad_util.py:293-326 | each list is a rearrangement of the input |
| Permutations.PermsComplete | bindings/python/rad_util.py:293-326 | each rearrangement is among the lists |
| Permutations.DistinctPerms | bindings/python/rad_util.py:293-326 | distinct items give distinct lists |
| Permutations.NoRepeatsIff | bindings/python/rad_util.py:293-326 | no list is repeated exactly when no item is |
| Permutations.TwoEqualItems | bindings/python/rad_util.py:293-326 | two equal items give the same list twice |
| BinaryStrings.MapDigitsValue | bindings/python/rad_util.py:91-96 | the digit table spells every number in binary |
| BinaryStrings.Truncate | bindings/python/rad_util.py:98-102 | cutting to n digits drops a 1 exactly when the value needs more than n bits |
| BinaryStrings.Int2BinIff | bindings/python/rad_util.py:91-130 | int2bin succeeds exactly for nonnegative values that fit or with n = 0, gives n binary digits, and bin2int undoes it |
| BinaryStrings.Int2BinUncut | bindings/python/rad_util.py:91-104 | with n = 0 the result has digits in groups of four, and no group more than the value needs |
| BinaryStrings.Increment | bindings/python/rad_util.py:649-659 | the ripple carry adds 1 in place and the last toggle is the carry out |
| BinaryStrings.BinaryRange | bindings/python/rad_util.py:639-660 | ends with exactly 2^bits strings, the k-th equal to int2bin of k; none for 0 bits |
| BinaryStrings.GrayInRange | bindings/python/rad_util.py:612-615 | codes of n-bit numbers have n bits |
| BinaryStrings.GrayInjective | bindings/python/rad_util.py:612-615 | no two numbers share a code |
| BinaryStrings.GraySurjective | bindings/python/rad_util.py:612-615 | every n-bit number is the code of an n-bit number |
| BinaryStrings.GrayNeighbours | bindings/python/rad_util.py:612-615 | the codes of i and i + 1 differ in exactly one bit |

## Left out

- FindCycles.FindCycles: yields are collected in one list; a consumer that mutates a yielded list, which the source also keeps, is not modelled.
- TopSortLevels.TopsortLevels: the generator's suspension between levels is not modelled, and its end by raising StopIteration is a value.
- JobPool.Pool.PutJob: stands for all five places of `test.py` that put a test; which tests are put, and with what settings, is the configuration.
- JobPool.Pool.WorkerHandle: running a job is a fixed return code of the job; a worker neither raises nor hangs. Elapsed time and output are left out.
- Job objects travel through the queues as values, so aliasing of one job object between threads is not modelled.
- The atomicity of queue operations is taken from Python's queue class, which is not part of this model.
- XML, HTML and text reports, option parsing, the choice of tests and environment paths of `test.py`.
- Cdf.CdfTable.Load: the file is a list of scanned pairs; lines that do not scan, failing `malloc` and `fopen` are left out.
- Cdf.CdfTable.GenRandom: the draw x is a parameter and doubles are exact reals; a null or empty table is left out, as the source reads before its own start there.
- Introspect.StaticInformation.Gather: the type system is a table of attributes, names, registered types and aggregations that stays fixed during the walk; `Uniquefy` sorts a copy and so leaves the output as it is. All printing is left out.
- The closed set of types that Introspect.StaticInformation.DoGather takes as a ghost argument says that finitely many types can be reached.
- ShellParse.Pipeline.Parse: starts from a token list; splitting a string by shlex and the debug output are left out. White space in a value means the characters that `\S` excludes in Python 3.
- ShellRun.Run: verbose off; processes are an oracle giving a status per command; the working directory is the list of directories joined. Failures of `open` and `Popen`, the environment dictionary and the parent's copies of pipe ends are left out.
- PosixLists.PosixIff: standard output and error are not compared, since the node list does not keep the order of `>` and `2>&1`; a `cd` that is executed succeeds, and processes are waited for in order.
- `get_abbreviated_command` and `_main` of `waf-tools/shellcmd.py`: display and start-up.
- PatchObjects.ParsePatchset: the patterns are prefix tests with decimal numbers; a header without counts, which other tools write for one line, fails as in the source.
- PatchRoundTrip.FileRoundTripIff: lines end at a newline only; a text with a carriage return in it would not survive a file opened with universal newlines.
- `append_to_line`, `Patch.apply`, trailing white space removal, indentation and the external formatter of `utils/check-style.py`.
- BinaryStrings.Int2BinIff: a negative n is not modelled; bin2int is on strings of 0 and 1.
- The remaining helpers of `bindings/python/rad_util.py`, `utils/grid.py`, the simulation scripts and the build glue are not modelled.
