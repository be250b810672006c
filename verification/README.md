# runsolver, verified

A Dafny model of the core of `runsolver`, the program that runs a solver under limits on time, memory and output,
with proofs of what its four hardest parts guarantee.

* `StopProtocol.dfy`: the stop protocol of the patched version 3.3.4. Module `StopProtocol` is a transition system of four
  threads (main, timer, signal handler, stop) that share five flags behind mutexes, a compare-and-set and two condition
  variables; a step is one critical section, one blocking call or the code between two of them. Each wait on a condition
  variable is two states, the test under the lock and the sleep, so lost and spurious wakeups are expressible. A run is any
  sequence of steps from the state after the initialisers, and every theorem is about all runs. Of a fifth thread, the time
  stamper, the model has whether it still runs, because main joins it. `SharedFlags` has the functions around the mutexes as
  methods of a class.
* `StopCauses.dfy`: what makes a run stop the solver, in both directions, and the order in which each thread does what it does.
* `Sampler.dfy`: `readProcessData` of the same version, as a class whose counters are tied to the sequence of all samples.
  Proved: current plus lost CPU time is the sum of all increments. The same is false of the user part alone, and the exact
  condition under which it falls is proved.
* `ProcessHistory.dfy`: the thinning history, as a class over two arrays. `Thinning` has the binary-counter structure behind
  its loop in closed form; `ProcessHistory` proves that the arrays follow it.
* `Forest.dfy`, `ProcessData.dfy`, `ProcessUpdate.dfy`, `ProcessSnapshot.dfy`, `FullRead.dfy`, `Readings.dfy`, `ProcessTree.dfy`: the process
  tree of version 3.4.0. `ProcessTree.ProcessTree` is the class with its map, roots and recursive methods; each method is proved
  against a walk over the graph of child lists, and the other modules prove what these walks visit, in which order, and what
  a full read, a copy and an update make of them. `Readings` measures the totals by what /proc gives. Ranks that fall from parent to child are the recursion measure.
* `FileDescriptor.dfy`, `Ring.dfy`, `CircularBufferFilter.dfy`, `OutputLimit.dfy`: the output filter of version 3.4.0, the
  write loop below it and the option that sets it up. `Ring` has the circular buffer, `LimitedOutput` what the file should look
  like, `OutputFilter` the class, `OutputLimit` the conversion from megabytes.
* `Arithmetic.dfy`: three facts on division. `Wrappers.dfy`: the type of values that may be missing.

Where the code falls short of what one would expect of it, the exact condition is proved, with an input that shows it:

* The option `--output-limit A,M` is checked for A < M before it is multiplied to bytes on `int`. Where that wraps, as the usual
  compilers make it do, the filter gets sound sizes exactly if the wrapped numbers have the same sign and are still in order
  (`OutputLimit.SoundIffOrderSurvives`), and the sizes asked for exactly below 2 gigabytes (`OutputLimit.ExactIffSmall`).
  A limit of 4096 megabytes or a multiple of it is no limit at all (`OutputLimit.UnlimitedIffMultiple`).
  1,4097 gives an empty ring (`OutputLimit.EmptyRingHere`), and with an empty ring the copy loop never ends
  (`OutputFilter.CopyEndsIffRingNotEmpty`).
* The 32-bit write position is right for rings of at most 2^32 bytes (`Ring.PositionIsModulo`). A larger ring is right whenever
  at most 2^32 bytes come to it, and for bytes that come one at a time only then (`Ring.RightIffFaithful`); a chunk that
  straddles slot 2^32 is stored past it, so that the output can still be right. The option never asks for a larger ring that
  memory could hold (`OutputLimit.RingIsSmallOrHuge`), so this concerns other users of the class only.
* The user time with its lost part can fall (`Accounting.UserTimeCanFall`).
* The stop thread's SIGKILL is skipped if the running flag is already down (`StopProtocol.RunningFlagDecides`), and
  `StopProtocol.KillIsSkippedHere` is a run that leaves a living child with SIGTERM only and the main thread waiting for it.
  A child that has not been waited for keeps its entry in /proc, so this needs a failure to read that entry, for example for
  lack of file descriptors.
* With time stamping, which an output limit turns on (runsolver-3.3.4-patched/src/runsolver.cc:2163-2170), the main thread waits
  for the time stamper thread before its final SIGKILL, and that thread runs until every process has closed the output of the
  solver (runsolver-3.3.4-patched/src/TimeStamper.hh:146-200). A descendant that ignores SIGTERM and keeps the output open stops
  the main thread for as long as it lives (`StopProtocol.OutputKeepsMainWaiting`, `StopProtocol.MainWaitsForOutput`); the exact
  condition is in `StopProtocol.RestAfterShutdown`.

`dafny verify dfyconfig.toml` checks everything.

## Model

| member | source | states |
|---|---|---|
| StopProtocol.StartIsInv | runsolver/runsolver-3.3.4-patched/src/runsolver.cc:1304-1314 | the state after the initialisers of `run()`, with or without time stamping and with the signal thread already listening, satisfies the invariant of the protocol |
| StopProtocol.CallKeepsOneWinner | runsolver/runsolver-3.3.4-patched/src/runsolver.cc:1866-1893 | whichever thread is inside `stopSolver`, each of its steps keeps: at most one winner of the compare-and-set, and a won compare-and-set means that the stop thread is released or the winner is about to release it |
| StopProtocol.CallKeepsRest | runsolver/runsolver-3.3.4-patched/src/runsolver.cc:1866-1893 | a step inside `stopSolver` keeps the order of the threads, the meaning of the running flag and the form of the signal log, whoever calls it and whatever the other threads do |
| StopProtocol.MainKeepsOrder | runsolver/runsolver-3.3.4-patched/src/runsolver.cc:1399-1672 | every step of the main thread keeps the order of creation, announcement and joining; no one sleeps on a condition that holds |
| StopProtocol.TimerKeepsRest | runsolver/runsolver-3.3.4-patched/src/runsolver.cc:649-726 | every step of the timer thread keeps the invariant, whether or not it finds the root gone or a limit exceeded |
| StopProtocol.HandlerKeepsRest | runsolver/runsolver-3.3.4-patched/src/runsolver.cc:595-641 | every step of the signal handler thread keeps the invariant |
| StopProtocol.StopKeepsRest | runsolver/runsolver-3.3.4-patched/src/runsolver.cc:1898-1962 | every step of the stop thread keeps the invariant, from the two waits to the last SIGKILL |
| StopProtocol.StepKeepsInv | runsolver/runsolver-3.3.4-patched/src/runsolver.cc:1866-1962 | the invariant is inductive: every step of every thread, the exit of the child, every interrupt and every spurious wakeup keeps it |
| StopProtocol.RunKeepsInv | runsolver/runsolver-3.3.4-patched/src/runsolver.cc:1304-1672 | the invariant holds in every state of every run of any length |
| StopProtocol.MutualExclusion | runsolver/runsolver-3.3.4-patched/src/runsolver.cc:1898-1914 | in every interleaving only the owner of the turn is at a place where it may touch the process tree or its history, so at most one thread is; the turns go main, timer thread, stop thread, main, never back |
| StopProtocol.StopSolverWorksOnce | runsolver/runsolver-3.3.4-patched/src/runsolver.cc:1866-1893 | in every state of every run: at most one thread has won, the flag is up exactly when one has, release implies the shutdown flag, an unreleased winner is on its way to the release, and no thread sleeps on a true condition (no lost wakeup) |
| StopProtocol.TermComesFirst | runsolver/runsolver-3.3.4-patched/src/runsolver.cc:1909-1961 | in every state of every run the SIGTERM sweep is the first signal sent and is sent once; all others are SIGKILL |
| StopProtocol.CompletedRun | runsolver/runsolver-3.3.4-patched/src/runsolver.cc:1611-1672 | a run that reached the end of the main thread sent exactly one SIGTERM sweep before every SIGKILL and ended with the group kill of the main thread; only two logs are possible |
| StopProtocol.RunningFlagDecides | runsolver/runsolver-3.3.4-patched/src/runsolver.cc:1939-1962 | the stop thread sends SIGKILL if and only if the running flag was up at its second look, and the flag was down if and only if the main thread had passed `wait4` and cleared it or the timer thread had found the root process gone |
| StopProtocol.KillIsSkippedHere | runsolver/runsolver-3.3.4-patched/src/runsolver.cc:1939-1962 | a run from the start in which the timer thread cannot read the root process, a signal then stops the solver, and the stop thread exits after SIGTERM alone: a child still alive is never sent SIGKILL, and no thread can step until it exits |
| StopProtocol.WinnerCanStep | runsolver/runsolver-3.3.4-patched/src/runsolver.cc:1866-1893 | while the compare-and-set is won and the stop thread not released, some thread can step |
| StopProtocol.NoDeadlock | runsolver/runsolver-3.3.4-patched/src/runsolver.cc:1611-1664 | in every state with the child gone and the main thread not done, some thread can step, unless the main thread waits in the join of a time stamper thread that still runs |
| StopProtocol.RestAfterShutdown | runsolver/runsolver-3.3.4-patched/src/runsolver.cc:1611-1664 | with the shutdown flag set, nothing can move in three cases only, told apart exactly: the main thread is done if and only if the child is gone and its output closed; it waits for the child if and only if that is alive; it waits for the time stamper thread if and only if the child is gone and its output open. In all three the timer thread and the stop thread have finished and SIGTERM was sent, the final SIGKILL only in the first; a child waited for was sent SIGKILL if and only if the timer thread has not found the root gone |
| StopProtocol.MainWaitsForOutput | runsolver/runsolver-3.3.4-patched/src/runsolver.cc:1650-1664 | in every run, as long as the output of the solver is open, the main thread does not get past the join of the time stamper thread and its SIGKILL to the group is not sent |
| StopProtocol.OutputKeepsMainWaiting | runsolver/runsolver-3.3.4-patched/src/runsolver.cc:1611-1664 | a run with time stamping in which the child exits, the stop thread sends SIGTERM only, and no thread can step until some other process closes the output: the final SIGKILL is not reached |
| StopProtocol.StepsWork | runsolver/runsolver-3.3.4-patched/src/runsolver.cc:1611-1664 | once the shutdown flag is set, each step lowers a measure, and an interrupt raises it by at most one |
| StopProtocol.ShutdownEnds | runsolver/runsolver-3.3.4-patched/src/runsolver.cc:1611-1664 | once the shutdown flag is set, a run with k interrupts has at most 140 + 2k further events: no livelock |
| StopProtocol.CanFinish | runsolver/runsolver-3.3.4-patched/src/runsolver.cc:1611-1672 | from every state with the child gone, its output closed and the shutdown flag set there is a run without interrupts to the end of the main thread |
| StopProtocol.StuckRunIsComplete | runsolver/runsolver-3.3.4-patched/src/runsolver.cc:1611-1672 | a run that nothing but interrupts can prolong, neither a thread nor the child nor the closing of the output, has reached the end of the main thread with one of the two possible logs |
| StopProtocol.UninterruptedCall | runsolver/runsolver-3.3.4-patched/src/runsolver.cc:1866-1893 | the interleaved steps of `stopSolver`, run without interruption, have the effect of the sequential method below |
| StopCauses.ExceededLimitStops | runsolver/runsolver-3.3.4-patched/src/runsolver.cc:806-818 | a limit that the timer thread finds exceeded stops the solver: in every later state in which that thread is not inside `stopSolver` the compare-and-set has been won, and the run does not come to rest before SIGTERM is sent |
| StopCauses.NothingStopsWithoutCause | runsolver/runsolver-3.3.4-patched/src/runsolver.cc:1866-1893 | in a run without an exceeded limit, a termination signal or the exit of the child no shutdown is asked for, `stopSolver` is not called and no signal is sent |
| StopCauses.StoppedIffCaused | runsolver/runsolver-3.3.4-patched/src/runsolver.cc:1866-1962 | in every run, a set shutdown flag has one of these causes, and a run that has come to rest has sent SIGTERM if and only if one of them occurred |
| StopCauses.StaysCaused | runsolver/runsolver-3.3.4-patched/src/runsolver.cc:1866-1893 | no step undoes a cause: a call of `stopSolver` begun by the timer thread ends only with the compare-and-set won, by it or before it |
| StopOrder.MainSkipsNothing | runsolver/runsolver-3.3.4-patched/src/runsolver.cc:1611-1672 | before the main thread is at a place it has been, and made its step, at every earlier one: flag, `wait4`, shutdown, the three joins, the final SIGKILL, the dump of the history |
| StopOrder.SampleTestsAllLimits | runsolver/runsolver-3.3.4-patched/src/runsolver.cc:806-818 | a sample that finds the root process is followed by the tests of the limits of CPU time, wall clock time and memory, in this order, before the timer thread goes on |
| StopOrder.SleepComesBeforeSample | runsolver/runsolver-3.3.4-patched/src/runsolver.cc:661-674 | before each sample the timer thread has slept, and since then only looked at the shutdown flag |
| StopOrder.SampleComesBetweenSleeps | runsolver/runsolver-3.3.4-patched/src/runsolver.cc:653-706 | the timer thread never sleeps twice without a sample in between |
| StopOrder.TimerLooksFirst | runsolver/runsolver-3.3.4-patched/src/runsolver.cc:653-676 | right before it goes to sleep the timer thread has seen the running flag up, and right before it samples the shutdown flag down |
| StopOrder.TimerEndsForAReason | runsolver/runsolver-3.3.4-patched/src/runsolver.cc:653-726 | the timer thread goes on until shutdown is asked for or it has found the root process gone |
| StopOrder.LastSampleComesBeforeTerm | runsolver/runsolver-3.3.4-patched/src/runsolver.cc:1898-1912 | before it sends SIGTERM the stop thread has taken a last sample and displayed it |
| StopOrder.PauseComesBeforeKill | runsolver/runsolver-3.3.4-patched/src/runsolver.cc:1939-1962 | the stop thread is about to send SIGKILL only after a pause slept to its end, begun after it had sent SIGTERM and nothing else |
| SharedFlags.FlagStore.constructor | runsolver/runsolver-3.3.4-patched/src/runsolver.cc:1308-1312 | all flags start down |
| SharedFlags.FlagStore.SetSolverIsRunning | runsolver/runsolver-3.3.4-patched/src/runsolver.cc:121-126 | sets this flag and no other |
| SharedFlags.FlagStore.SetTimerThreadShouldShutdown | runsolver/runsolver-3.3.4-patched/src/runsolver.cc:145-150 | sets this flag and no other |
| SharedFlags.FlagStore.CompareAndSetStopSolverInvoked | runsolver/runsolver-3.3.4-patched/src/runsolver.cc:178-192 | succeeds if and only if the flag had the expected value, and changes nothing otherwise |
| SharedFlags.FlagStore.SetStopSolverShouldExecute | runsolver/runsolver-3.3.4-patched/src/runsolver.cc:212-218 | raises this flag and no other |
| SharedFlags.FlagStore.SetTimerThreadStopped | runsolver/runsolver-3.3.4-patched/src/runsolver.cc:262-268 | raises this flag and no other |
| SharedFlags.FlagStore.StopSolver | runsolver/runsolver-3.3.4-patched/src/runsolver.cc:1866-1893 | the first call raises three flags, every later one leaves all flags alone |
| SharedFlags.StoppingOnceIsEnough | runsolver/runsolver-3.3.4-patched/src/runsolver.cc:161-166 | any number of calls of `stopSolver` from 1 on has the effect of one |
| Sampler.RunSolver.constructor | runsolver/runsolver-3.3.4-patched/src/runsolver.cc:970-1024 | all counters are 0, and the history has 10 cells and holds the first, still empty tree and nothing else |
| Sampler.RunSolver.Count | runsolver/runsolver-3.3.4-patched/src/runsolver.cc:764-800 | the counters after a sample are those of the sequence of all completed samples: current, lost and peak figures; the last figures are those that were current |
| Sampler.RunSolver.TestLimits | runsolver/runsolver-3.3.4-patched/src/runsolver.cc:806-818 | `stopSolver` takes effect if and only if, for a limit that is set, the sum of all increments of the CPU time over the samples, the elapsed time or the memory of the last sample has reached it |
| Sampler.RunSolver.ReadProcessData | runsolver/runsolver-3.3.4-patched/src/runsolver.cc:738-823 | a sample of a root that has ended, or before the child is known, changes neither counters nor history and restores the tree; any other is counted, its tree, stamped with the elapsed time, becomes the newest of the history, and `stopSolver` takes effect if and only if a limit is reached on the samples with this one |
| Sampler.RunSolver.CurrentTreeIsKept | runsolver/runsolver-3.3.4-patched/src/runsolver.cc:746-802 | the current tree sits in exactly one slot of the history and has never been deleted |
| Accounting.CpuTimeIsGrowth | runsolver/runsolver-3.3.4-patched/src/runsolver.cc:769-779 | over any sequence of samples, current + lost CPU time is the sum of all increments, and lost CPU time is lost user + lost system time |
| Accounting.LimitStaysExceeded | runsolver/runsolver-3.3.4-patched/src/runsolver.cc:776-809 | the time compared with the CPU limit never decreases, so an exceeded limit stays exceeded |
| Accounting.LimitStaysReached | runsolver/runsolver-3.3.4-patched/src/runsolver.cc:806-818 | the CPU limit, once reached, is reached at every later sample, and so is the limit of wall clock time; only the limit of memory can cease to be |
| Accounting.UserTimeCanFall | runsolver/runsolver-3.3.4-patched/src/runsolver.cc:776-779 | current + lost USER time does decrease, at exactly those samples where the user time falls while the total does not |
| Accounting.UserTimeFallsHere | runsolver/runsolver-3.3.4-patched/src/runsolver.cc:776-779 | two samples at which it decreases |
| Accounting.PeakIsLargest | runsolver/runsolver-3.3.4-patched/src/runsolver.cc:772-774 | `maxVSize` bounds every sample and is reached by one of them (or is its start value 0) |
| Accounting.OneMoreSample | runsolver/runsolver-3.3.4-patched/src/runsolver.cc:764-779 | how one sample changes all cumulated figures |
| ProcessHistory.ProcessHistory.constructor | runsolver/runsolver-3.4.0/src/ProcessHistory.hh:41-48 | an empty history |
| ProcessHistory.ProcessHistory.Push | runsolver/runsolver-3.4.0/src/ProcessHistory.hh:58-99 | after the push every cell shows exactly what the push count says it should, live and dropped elements together are the elements pushed, the loop turns are those predicted, and the new element is live |
| ProcessHistory.ProcessHistory.FirstSampleIsLive | runsolver/runsolver-3.4.0/src/ProcessHistory.hh:64-88 | for distinct samples, the first one is in the history exactly during the first 2^(nbcell+1) - 2 pushes |
| ProcessHistory.ProcessHistory.OldestLiveSample | runsolver/runsolver-3.4.0/src/ProcessHistory.hh:64-88 | for distinct samples, the oldest one in the history is exactly 2^nbcell - 2 + (n+1) mod 2^nbcell pushes older than the newest, hence between 2^nbcell - 2 and 2^(nbcell+1) - 3 |
| ProcessHistory.ProcessHistory.TurnsAreFew | runsolver/runsolver-3.4.0/src/ProcessHistory.hh:64-85 | all pushes so far took fewer than two loop turns each |
| ProcessHistory.ProcessHistory.Destroy | runsolver/runsolver-3.4.0/src/ProcessHistory.hh:50-56 | the destructor, which stops at the first empty cell, frees exactly the live elements |
| ProcessHistory.ProcessHistory.DumpHistory | runsolver/runsolver-3.4.0/src/ProcessHistory.hh:101-119 | prints the elements with the push numbers of `DumpNumbers`, in that order |
| ProcessHistory.DumpIsChronological | runsolver/runsolver-3.4.0/src/ProcessHistory.hh:101-119 | these numbers strictly increase, and say exactly which elements are printed |
| ProcessHistory.LiveOrDroppedOnce | runsolver/runsolver-3.4.0/src/ProcessHistory.hh:58-88 | an element pushed once is in exactly one occupied slot or was dropped exactly once; the newest is not dropped |
| ProcessHistory.LiveIffShown | runsolver/runsolver-3.4.0/src/ProcessHistory.hh:58-88 | of distinct elements exactly those are live whose push number the closed form gives to a slot |
| ProcessHistory.NewestIsLive | runsolver/runsolver-3.4.0/src/ProcessHistory.hh:66-79 | the newest element sits in the last occupied slot of the first cell |
| ProcessHistory.EmptyCellEndsHistory | runsolver/runsolver-3.4.0/src/ProcessHistory.hh:50-56 | behind the first empty cell nothing is live |
| ProcessHistory.PushStops | runsolver/runsolver-3.4.0/src/ProcessHistory.hh:66-70 | a cell with room ends the push and leaves all cells right |
| ProcessHistory.PushMovesOn | runsolver/runsolver-3.4.0/src/ProcessHistory.hh:71-83 | a full cell passes its older element on and drops the newer one, and the cells up to it are right |
| Thinning.ArrivalsClosedForm | runsolver/runsolver-3.4.0/src/ProcessHistory.hh:58-88 | after n pushes cell k has received max(0, floor((n+1)/2^k) - 1) elements |
| Thinning.NumberClosedForm | runsolver/runsolver-3.4.0/src/ProcessHistory.hh:64-88 | arrival j of cell k is push number j * 2^k |
| Thinning.ArrivalPromotes | runsolver/runsolver-3.4.0/src/ProcessHistory.hh:66-83 | an arrival makes exactly a full cell pass an element on, and sets the item count to the closed form |
| Thinning.EmptyStaysEmpty | runsolver/runsolver-3.4.0/src/ProcessHistory.hh:53-53 | occupied cells form a prefix |
| Thinning.FurtherCellsAreOlder | runsolver/runsolver-3.4.0/src/ProcessHistory.hh:103-118 | everything in a further cell was pushed strictly before everything in a nearer one |
| Thinning.SlotsAreOrdered | runsolver/runsolver-3.4.0/src/ProcessHistory.hh:68-78 | the first slot of a cell is never younger than the second |
| Thinning.TurnsGrow | runsolver/runsolver-3.4.0/src/ProcessHistory.hh:64-85 | a push whose last arrival is in cell j-1 takes j loop turns |
| Thinning.TurnsAreLinear | runsolver/runsolver-3.4.0/src/ProcessHistory.hh:64-85 | n >= 1 pushes take fewer than 2n loop turns, however many cells there are |
| Thinning.FirstSampleSurvives | runsolver/runsolver-3.4.0/src/ProcessHistory.hh:64-88 | the first sample is retained exactly during the first 2^(K+1) - 2 pushes |
| Thinning.OldestRetained | runsolver/runsolver-3.4.0/src/ProcessHistory.hh:64-88 | the oldest retained element is the next one to leave the last cell |
| Thinning.HistoryReach | runsolver/runsolver-3.4.0/src/ProcessHistory.hh:64-88 | from push 2^K - 1 on, the oldest retained sample is 2^K - 2 + (n+1) mod 2^K pushes older than the newest, hence between 2^K - 2 and 2^(K+1) - 3 |
| Forest.WalkIsReachability | runsolver/runsolver-3.4.0/src/ProcessTree.hh:525-546 | a recursive walk visits exactly what a path of child links leads to |
| Forest.SubtreeComesFirst | runsolver/runsolver-3.4.0/src/ProcessTree.hh:525-546 | each visited process comes directly after the whole walk over its own descendants |
| Forest.WalkHasNoDuplicates | runsolver/runsolver-3.4.0/src/ProcessTree.hh:525-546 | in a tree a walk visits nothing twice |
| Forest.SiblingsAreDisjoint | runsolver/runsolver-3.4.0/src/ProcessTree.hh:396-427 | subtrees of siblings have nothing in common |
| Forest.DescendantsComeFirst | runsolver/runsolver-3.4.0/src/ProcessTree.hh:525-546 | wherever two visited processes stand, the descendant stands first |
| Forest.PruneCutsOffSubtrees | runsolver/runsolver-3.4.0/src/ProcessTree.hh:433-451 | walking the survivors visits what was visited before, minus the dead and all their descendants |
| ProcessData.TotalsCountEachProcessOnce | runsolver/runsolver-3.4.0/src/ProcessTree.hh:460-505 | every recursive total is the plain sum over the set that `listProcesses` produces, tasks removed, each process once |
| ProcessData.VictimsAreListed | runsolver/runsolver-3.4.0/src/ProcessTree.hh:525-546 | what is summed and signalled is what is listed, without the tasks |
| ProcessData.SweepIsBottomUp | runsolver/runsolver-3.4.0/src/ProcessTree.hh:525-546 | a bottom-up sweep signals each valid process reachable from the roots that is no task exactly once, no task, and each process after all its signalled descendants |
| ProcessData.ProcessesMembers | runsolver/runsolver-3.4.0/src/ProcessTree.hh:470-472 | the children that a sum descends into are those known and no tasks |
| ProcessTree.ProcessTree.constructor | runsolver/runsolver-3.4.0/src/ProcessTree.hh:61-63 | an empty, valid tree |
| ProcessTree.ProcessTree.SetRunsolverPID | runsolver/runsolver-3.4.0/src/ProcessTree.hh:93-96 | a tree without roots stays valid whoever its runsolver is |
| ProcessTree.ProcessTree.Lookup | runsolver/runsolver-3.4.0/src/ProcessTree.hh:435-435 | `operator[]` may leave a null entry behind, which means the same as no entry |
| ProcessTree.ProcessTree.CurrentVSizeRec | runsolver/runsolver-3.4.0/src/ProcessTree.hh:475-489 | the total over the walk below a process; null entries change nothing |
| ProcessTree.ProcessTree.CurrentVSize | runsolver/runsolver-3.4.0/src/ProcessTree.hh:258-265 | the plain sum over the solver processes, each counted once |
| ProcessTree.ProcessTree.CurrentMemoryRec | runsolver/runsolver-3.4.0/src/ProcessTree.hh:491-505 | the total over the walk below a process; null entries change nothing |
| ProcessTree.ProcessTree.CurrentMemory | runsolver/runsolver-3.4.0/src/ProcessTree.hh:267-273 | the plain sum over the solver processes, each counted once |
| ProcessTree.ProcessTree.CurrentCPUTimeRec | runsolver/runsolver-3.4.0/src/ProcessTree.hh:460-473 | adds the user and system times of the walk below a process to its two arguments |
| ProcessTree.ProcessTree.CurrentCPUTime | runsolver/runsolver-3.4.0/src/ProcessTree.hh:250-256 | both plain sums over the solver processes, each counted once |
| ProcessTree.ProcessTree.SendSignalBottomUpRec | runsolver/runsolver-3.4.0/src/ProcessTree.hh:525-546 | appends one kill for each process of the walk, in the order of the walk |
| ProcessTree.ProcessTree.SendSignalBottomUp | runsolver/runsolver-3.4.0/src/ProcessTree.hh:334-338 | the log grows by one kill with the given signal for each solver process in bottom-up order |
| ProcessTree.ProcessTree.ListProcessesRec | runsolver/runsolver-3.4.0/src/ProcessTree.hh:620-631 | adds the walk below a process, tasks included, to the set |
| ProcessTree.ProcessTree.ListProcesses | runsolver/runsolver-3.4.0/src/ProcessTree.hh:278-282 | adds the walks below all roots to the set |
| ProcessTree.ProcessTree.UpdateProcessesDataRec | runsolver/runsolver-3.4.0/src/ProcessTree.hh:433-451 | reads again exactly what is reachable through living processes, erases the dead among it, gives each living record what /proc gives for its pid and tid and leaves its pid, tid and children, changes nothing else, and reports whether the start is alive |
| ProcessTree.ProcessTree.UpdateProcessesData | runsolver/runsolver-3.4.0/src/ProcessTree.hh:180-189 | rereads everything if and only if some root is gone; otherwise updates what is reachable through living processes |
| ProcessTree.ProcessTree.CloneRec | runsolver/runsolver-3.4.0/src/ProcessTree.hh:653-668 | adds invalid copies of exactly the records that the other tree lists below a process |
| ProcessTree.ProcessTree.Clone | runsolver/runsolver-3.4.0/src/ProcessTree.hh:645-651 | the same for all roots |
| ProcessTree.ProcessTree.Copy | runsolver/runsolver-3.4.0/src/ProcessTree.hh:65-77 | the copy consists of the records that the other tree lists, all invalid |
| ProcessTree.ProcessTree.IdentifyChildren | runsolver/runsolver-3.4.0/src/ProcessTree.hh:396-427 | every child list is extended by the sorted inverse of ppid on the valid records; null and invalid entries and those without a parent are passed over |
| ProcessTree.ProcessTree.ReadProcessTasks | runsolver/runsolver-3.4.0/src/ProcessTree.hh:562-618 | adds the readable tasks of a valid process as records and as children, and nothing else; any other pid changes nothing |
| ProcessTree.ProcessTree.ReadTasksRec | runsolver/runsolver-3.4.0/src/ProcessTree.hh:548-560 | reads the tasks of exactly the processes of the walk, each once, although the lists grow under the loop |
| ProcessTree.ProcessTree.ReadListing | runsolver/runsolver-3.4.0/src/ProcessTree.hh:142-163 | one record for each process that can be read; the roots are the children of runsolver in directory order |
| ProcessTree.ProcessTree.ReadAllTasks | runsolver/runsolver-3.4.0/src/ProcessTree.hh:171-172 | reads the tasks of exactly the descendants of runsolver |
| ProcessTree.ProcessTree.ReadProcesses | runsolver/runsolver-3.4.0/src/ProcessTree.hh:127-173 | the tree after a full read is determined by the snapshot and is a forest below runsolver |
| ProcessTree.ProcessTree.SweepIsDescendants | runsolver/runsolver-3.4.0/src/ProcessTree.hh:127-173 | after a full read, the processes that are summed and signalled are exactly the strict descendants of runsolver in the snapshot |
| ProcessTree.CopyAndUpdate | runsolver/runsolver-3.4.0/src/Watcher.hh:676-689 | copying a tree and updating the copy either rereads everything, exactly when a root is gone, or lists what was listed before minus the dead and all their descendants; in this case each total of the copy is the sum of what /proc gives now for the processes left; the result is valid again |
| ProcessTree.TakeSample | runsolver/runsolver-3.4.0/src/Watcher.hh:676-705 | the figures of a sample: after a full read, asked for or forced by a lost root, the sums of utime+cutime, stime+cstime, vsize/1024 and rss+swap that /proc gives for the strict descendants of runsolver; otherwise the same sums for the processes known before that are neither dead nor below a dead one |
| ProcessTree.ProcessTree.FullReadSumsDescendants | runsolver/runsolver-3.4.0/src/ProcessTree.hh:127-173 | after a full read the summed processes are the strict descendants of runsolver in the snapshot, and each total is the sum of what the snapshot gives for them |
| ProcessTree.SumUp | runsolver/runsolver-3.4.0/src/ProcessTree.hh:250-273 | the four figures are the totals of the same set of processes |
| ProcessTree.FirstSample | runsolver/runsolver-3.4.0/src/Watcher.hh:676-691 | the first full sample gives a valid tree, and reports the end if and only if no process of the snapshot is a child of runsolver |
| ProcessUpdate.UpdateStep | runsolver/runsolver-3.4.0/src/ProcessTree.hh:447-448 | updating one child after others amounts to one update of everything visited |
| ProcessUpdate.UpdatedCopyIsCutOff | runsolver/runsolver-3.4.0/src/ProcessTree.hh:433-451 | the updated copy lists exactly the old set minus the dead processes and their descendants, and is a forest |
| ProcessUpdate.ListedAfterUpdateIsFresh | runsolver/runsolver-3.4.0/src/ProcessTree.hh:440-450 | each record the updated copy lists is valid, carries what /proc gives for its pid and tid, and has the pid, tid and children it had |
| ProcessUpdate.UpdatedCopyCarriesReadings | runsolver/runsolver-3.4.0/src/ProcessTree.hh:433-451 | each total of the updated copy is the sum of what /proc gives for the processes it sums up |
| Readings.TotalsAreReadings | runsolver/runsolver-3.4.0/src/ProcessData.hh:377-413 | the totals of records that carry what /proc gives are the sums of utime+cutime, stime+cstime, vsize/1024 and rss+swap of these readings |
| ProcessSnapshot.BaseHolds | runsolver/runsolver-3.4.0/src/ProcessTree.hh:142-163 | there is a record for exactly the listed processes that can be read, under its own pid, valid, without tid or children, with the figures read |
| ProcessSnapshot.RootsInOrder | runsolver/runsolver-3.4.0/src/ProcessTree.hh:157-159 | the roots stand in directory order |
| ProcessSnapshot.LinkOne | runsolver/runsolver-3.4.0/src/ProcessTree.hh:399-416 | one turn of the loop, for the least entry not yet seen, keeps every list extended by the sorted inverse of ppid, whether the entry is valid, invalid or null |
| ProcessSnapshot.RootsMembers | runsolver/runsolver-3.4.0/src/ProcessTree.hh:157-159 | the roots are exactly the processes found whose parent is runsolver |
| ProcessSnapshot.WithOneMore | runsolver/runsolver-3.4.0/src/ProcessTree.hh:591-615 | attaching the tasks of one more process gives the records with the tasks of one more process |
| FullRead.ChildListsInvertPpid | runsolver/runsolver-3.4.0/src/ProcessTree.hh:396-427 | after a full read the child list of a process, tasks left out, is exactly the inverse of ppid on the snapshot |
| FullRead.RecordsAreRead | runsolver/runsolver-3.4.0/src/ProcessTree.hh:142-173 | every record of a full read carries what the snapshot gives: a process for its pid, a task for the pid of its owner and its own tid |
| FullRead.LinksAfterTasks | runsolver/runsolver-3.4.0/src/ProcessTree.hh:606-612 | no list has duplicates, and each process or task is in the list of its parent or owner only |
| FullRead.FullReadIsTree | runsolver/runsolver-3.4.0/src/ProcessTree.hh:127-173 | after a full read the records form a forest below runsolver, with tasks as leaves |
| FullRead.VictimsIgnoreTasks | runsolver/runsolver-3.4.0/src/ProcessTree.hh:470-505 | reading tasks does not change which processes are summed and signalled, nor their order |
| FullRead.VictimsAreDescendants | runsolver/runsolver-3.4.0/src/ProcessTree.hh:142-172 | the processes summed and signalled after a full read are exactly the strict descendants of runsolver in the snapshot |
| FullRead.RootsHaveDisjointSubtrees | runsolver/runsolver-3.4.0/src/ProcessTree.hh:157-172 | subtrees of different roots have nothing in common |
| FileDescriptor.RunKeepsOrder | runsolver/runsolver-3.4.0/src/CircularBufferFilter.hh:39-60 | under every schedule of partial writes, interrupts and errors the bytes written are a prefix of the buffer, and all of it when the loop completes |
| FileDescriptor.CallTakesWhatIsAccepted | runsolver/runsolver-3.4.0/src/CircularBufferFilter.hh:44-59 | each call sends on as many bytes as the kernel accepts or all that are left, and none if it is interrupted or fails |
| FileDescriptor.RunFailsOnlyOnHardError | runsolver/runsolver-3.4.0/src/CircularBufferFilter.hh:46-54 | the loop is abandoned if and only if a call it made met a hard error |
| FileDescriptor.RunSettles | runsolver/runsolver-3.4.0/src/CircularBufferFilter.hh:44-59 | with progress and at most b interrupts the loop is over after b + 1 calls more than there are bytes |
| FileDescriptor.CleanRunSendsAll | runsolver/runsolver-3.4.0/src/CircularBufferFilter.hh:39-60 | without a hard error everything is written |
| FileDescriptor.SoundWithNext | runsolver/runsolver-3.4.0/src/CircularBufferFilter.hh:39-60 | a request of which only the first bytes are written keeps what the file has in order, with nothing repeated |
| FileDescriptor.TraceIsSound | runsolver/runsolver-3.4.0/src/CircularBufferFilter.hh:39-60 | what a sequence of requests writes is what was asked for through the first request that met a hard error, and from there on what was asked for with some bytes left out; without a hard error it is what was asked for |
| FileDescriptor.Retry | runsolver/runsolver-3.4.0/src/CircularBufferFilter.hh:39-60 | the do-while loop makes at least one call, even for an empty buffer, stops with the first call after which it need not go on, and writes what its schedule says |
| FileDescriptor.Descriptor.SystemWrite | runsolver/runsolver-3.4.0/src/CircularBufferFilter.hh:39-60 | appends to the file what its schedule lets through, and adds one settled request to the trace |
| Ring.PositionIsModulo | runsolver/runsolver-3.4.0/src/CircularBufferFilter.hh:165-177 | the 32-bit position equals the byte count modulo the ring size for every sequence of copies if and only if the ring has at most 2^32 bytes |
| Ring.PositionWraps | runsolver/runsolver-3.4.0/src/CircularBufferFilter.hh:174-176 | however the bytes are cut into copies, the position is their number modulo the ring size, or modulo 2^32 for larger rings |
| Ring.CopyExtends | runsolver/runsolver-3.4.0/src/CircularBufferFilter.hh:167-176 | one memcpy keeps, for rings of any size: w is the number of bytes past the activation point modulo its wrap, and as far as the ring is faithful it holds the last of them |
| Ring.Unroll | runsolver/runsolver-3.4.0/src/CircularBufferFilter.hh:194-210 | as far as the ring is faithful, what flush reads from it is exactly the last bufferSize bytes, or all bytes before the first wrap |
| Ring.RightIffFaithful | runsolver/runsolver-3.4.0/src/CircularBufferFilter.hh:187-212 | what flush reads of n bytes that came one at a time is right for every content if and only if the ring has at most 2^32 bytes or n is at most 2^32 |
| Ring.FlushGoesWrong | runsolver/runsolver-3.4.0/src/CircularBufferFilter.hh:187-212 | for every larger ring and every larger n, a stream that comes out wrong |
| OutputLimit.BytesWrap | runsolver/runsolver-3.4.0/src/runsolver.cc:1250-1258 | `x*1024*1024` on a wrapping int is x, wrapped to between -2048 and 2047, in megabytes |
| OutputLimit.SoundIffOrderSurvives | runsolver/runsolver-3.4.0/src/runsolver.cc:1250-1258 | the parser gives the filter A < M and a ring of at most 2^32 bytes if and only if the two numbers, after the wrap, have the same sign and are still in order |
| OutputLimit.ExactIffSmall | runsolver/runsolver-3.4.0/src/runsolver.cc:1250-1258 | the filter gets the sizes asked for if and only if 0 <= A < M < 2048 megabytes, and every stream then comes out right |
| OutputLimit.UnlimitedIffMultiple | runsolver/runsolver-3.4.0/src/runsolver.cc:1250-1258 | the option is refused exactly if A >= M, and otherwise means no limit at all exactly if M is a multiple of 4096 |
| OutputLimit.OtherSizesHere | runsolver/runsolver-3.4.0/src/runsolver.cc:1250-1258 | 0,6000 gives sound sizes, but a limit of 1904 megabytes |
| OutputLimit.RingIsSmallOrHuge | runsolver/runsolver-3.4.0/src/runsolver.cc:1250-1258 | no option makes the filter ask for a ring between 2^32 and 2^64 - 2^32 bytes |
| OutputLimit.EmptyRingIff | runsolver/runsolver-3.4.0/src/runsolver.cc:1250-1258 | an option that passes the parser gives equal sizes if and only if its numbers differ by a multiple of 4096; the ring is then empty and the copy loop never ends |
| OutputLimit.EmptyRingHere | runsolver/runsolver-3.4.0/src/runsolver.cc:1250-1258 | 1,4097 is such an option |
| OutputFilter.CopyEndsIffRingNotEmpty | runsolver/runsolver-3.4.0/src/CircularBufferFilter.hh:165-177 | the copy loop ends for every length and from every position if and only if the ring is not empty, whatever its size |
| OutputFilter.CircularBufferFilter.constructor | runsolver/runsolver-3.4.0/src/CircularBufferFilter.hh:123-132 | a valid, empty filter for any two sizes; no buffer yet |
| OutputFilter.RingSizeIs | runsolver/runsolver-3.4.0/src/CircularBufferFilter.hh:130-130 | the ring has maxSize - activateSize bytes when that is positive |
| OutputFilter.CircularBufferFilter.Copy | runsolver/runsolver-3.4.0/src/CircularBufferFilter.hh:165-177 | copies a chunk of any length in bounds, however often it wraps |
| OutputFilter.CircularBufferFilter.Write | runsolver/runsolver-3.4.0/src/CircularBufferFilter.hh:139-179 | after every write the file has been asked for the first bytes and the ring is in the state that the bytes past the activation point call for |
| OutputFilter.CircularBufferFilter.FlushWith | runsolver/runsolver-3.4.0/src/CircularBufferFilter.hh:187-212 | for every ring and stream: first part, message if bytes are lost, and the ring as it stands, unrolled |
| OutputFilter.CircularBufferFilter.Flush | runsolver/runsolver-3.4.0/src/CircularBufferFilter.hh:187-212 | if the ring has at most 2^32 bytes, or at most 2^32 bytes came to it, the file has been asked for the whole stream when it is short enough, and else for its first activateSize and last maxSize - activateSize bytes around a message that gives, in this order, the length of the stream, both sizes and the number of bytes in neither part |
| OutputFilter.Filter | runsolver/runsolver-3.4.0/src/CircularBufferFilter.hh:98-213 | for every sequence of chunks the requests made to the file add up to a function of their concatenation, the whole stream up to maxSize bytes, else first bytes, a message with the four right numbers, last bytes; the file is that if none of the calls made met a hard error, otherwise it is that through the first request that met one, and from there on with some bytes left out |
| LimitedOutput.NoticeAccountsForEveryByte | runsolver/runsolver-3.4.0/src/CircularBufferFilter.hh:198-207 | the lost count read out of the text of the notice is the number of bytes in neither part, and the notice fits its 512-byte buffer |
| LimitedOutput.LimitedKeepsPromise | runsolver/runsolver-3.4.0/src/CircularBufferFilter.hh:187-212 | the limited form of a stream has the right parts and, read back digit by digit from whatever message is between them, the right four numbers in the right order |
| LimitedOutput.NoticeGivesNumbers | runsolver/runsolver-3.4.0/src/CircularBufferFilter.hh:198-207 | the numbers in the text of the notice are its four arguments in order, and no others |
| LimitedOutput.NoticeReadsBack | runsolver/runsolver-3.4.0/src/CircularBufferFilter.hh:198-207 | the digits before the last words of the notice are the lost count, whatever the four numbers are |
| LimitedOutput.DecimalRoundTrip | runsolver/runsolver-3.4.0/src/CircularBufferFilter.hh:198-207 | a number printed in the notice reads back as itself |

## Left out

- Reading and parsing of /proc, fork, exec, pipes, terminals, resource limits, affinity, IPC queues, sockets and printing:
  a read of /proc is an arbitrary function or snapshot, `kill` and printing are appends to logs.
- Signals before the initialisers of `run()` have finished, and failures of `pthread_create`: runs start after them.
- Sleeps: a pause is a step that interrupts may repeat; its length, and the 20 ms pauses inside a bottom-up sweep, are not modelled.
- What the time stamper thread writes (`TimeStamper.hh`). Of the thread itself the model has whether it still runs: it may end at
  any time, after the last process has closed the output or after ten failing calls of select.
- Rounding: times are reals in `Sampler`, clock ticks in `ProcessData`.
- The process tree of version 3.3.4: `Sampler` takes what a sample reads as its input and tells only whether the root has ended.
- Records of processes are values in a map, not objects behind pointers: updating one in place is modelled as replacing its entry.
  That a pointer kept over `readProcessTasks` sees the new children is modelled as a second lookup.
- The order of a C++ map is modelled where it matters, in `IdentifyChildren`, as repeated choice of the least key.
- Cycles in ppid and shared task numbers: `ProcessSnapshot.Orderly` says what the operating system guarantees of a snapshot.
- `sendSignalNow` and the printing walks: the same recursion over the same lists as the walks modelled.
- StopProtocol.MutualExclusion: a place where a thread may touch the tree counts as touching it; what is done there is the
  business of `Sampler` and `ProcessTree`.
- ProcessHistory.ProcessHistory.Push: elements are values with an identity, not trees; deletion is an entry in a ghost multiset.
- OutputFilter.CircularBufferFilter.Write: chunks below 2^31 and streams below 2^64 bytes, the ranges of the C++ types. With
  activateSize >= maxSize, streams that reach activateSize: the ring is then empty, or larger than memory.
- OutputFilter.CircularBufferFilter.constructor: the file is taken as freshly truncated.
- OutputFilter.Filter: what the file holds if the ring has more than 2^32 bytes and more than 2^32 come to it; `FlushWith` and
  `Ring.RightIffFaithful` say what can be said.
- FileDescriptor.Retry: terminates for schedules with progress and finitely many interrupts only, like the C++ code.
- Signed overflow in the option parser is undefined in C++; `OutputLimit` has it wrap.
- ProcessTree.ProcessTree.IdentifyChildren: a valid process whose parent is a null entry, which the C++ code dereferences.
- Tracing of system calls (`SyscallsTracer.hh` of version 3.3.4): for i386 only, and not compiled in.
- `aeatk.c`, which reports the CPU time of each sample over UDP to the configurator that started runsolver: a socket write
  without effect on the limits.
- `Cores.hh`, which reads the topology of the processors for the affinity option, and `vlineSplitter.cc`, which takes
  time-stamped output apart again: parsing of text, no shared state.
- The tables of signal and system call names: constants.
- The Python wrapper, which builds the command line of runsolver and matches its output with regular expressions.
