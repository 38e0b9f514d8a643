# Verification of ezx's coordination and file logic

ezx is a process supervisor for containers: it runs a chain of processes that depend on one another,
reaps children, rotates logs, lets scripts edit configuration files and fires scheduled jobs. This
project models the parts of it that are hard to get right by inspection and proves what they promise.

- **The chain.** `Chain.dfy` models the script's tree or flat form and its normalisation,
  `Settings.dfy` a node's log settings, `ChainValidation.dfy` the validator with its depth-first
  search, and `ChainRun.dfy` what a validated chain gives the coordinator. `Graph.dfy` holds the
  compiled graph.
- **The coordinator.** `Coordinator.dfy` is a transition system with one goroutine per node, in which
  every step is one critical section or one local event of a node's lifecycle. Processes may start,
  fail, exit with any code or be drained at any time. `CoordinatorInvariant.dfy` and
  `CoordinatorSteps.dfy` hold the inductive invariant, `CoordinatorTheorems.dfy` safety,
  `CoordinatorLiveness.dfy` and `CoordinatorDeadlock.dfy` when a run can stop short,
  `CoordinatorCounter.dfy` what the counter of a waiting node is, `CoordinatorGate.dfy` which nodes the
  gate holds back, and `CoordinatorExit.dfy` what an exit edge guarantees.
  `CoordinatorRouter.dfy` is the router as it runs, over linked entries that are updated in place;
  each of its methods is proved to have the effect that the transition system gives it, and closing
  a closed channel is ruled out by a precondition of `Close`.
- **The script gate.** `VmGate.dfy` models parking, unparking and callbacks, each step being one
  critical section, and the gate itself with its sleep and wake-up loop.
- **Logs.** `ArchiveName.dfy` prints and parses archive names, `Rotate.dfy` shifts, truncates,
  compresses and prunes on a map of files, `LogWriter.dfy` is the rotating writer and `RotatePass.dfy`
  one pass over the files an app owns.
- **The reaper.** `Reaper.dfy` is a transition system of kernel, wait loop and subscribers, and a
  class with the two maps.
- **The editor.** `EditorText.dfy`, `EditorScope.dfy`, `EditorProperty.dfy` and `EditorFragment.dfy` model
  lines, scoped edits, directives and fenced fragments; `FileEditor.dfy` is the handle that reads, edits and writes the file.
- **Cron.** `Calendar.dfy` is the calendar, `Cron.dfy` the matcher and the search.

Check everything with `dafny verify dfyconfig.toml`.

## Where the code and its descriptions differ

- `Run` is said to block until every node has exited, been skipped or been drained
  (orchestrator/service.go:241-245). A valid chain can wait for ever: a oneshot that is skipped or
  drained leaves without an error and without signalling, and its dependents are not told
  (`LegalChainDeadlocks`). `NotProneNeverDeadlocks` says which chains never do, and `DeadlockFreedom`
  that these are exactly the ones, provided the triples it names can be brought about.
- A script frame is said never to resume while a callback is executing
  (internal/repository/js/runtime.go:125-127). The second check and the count are separate critical
  sections, so a callback can slip in between (`ExclusionFails`). `ExclusionExactly` says when;
  `MergedExcludes` shows that one section for both would keep the promise.
- A node with two edges to one dependency in different wait modes can be released early, since each
  edge counts for both signals (`TwoModesReleaseEarly`). The validator accepts such nodes.
  `GateSafeExactly` and `GateSafeDistinct` say that these are the nodes which the gate fails to hold
  back.
- An exit edge is said to be a success gate (orchestrator/service.go:368-370). A oneshot that is
  cancelled or drained leaves without an error and satisfies it too. `SuccessExactly` says when a node
  can rely on the success of the oneshot it waits for.
- The end of the cron search is said to be unreachable for valid expressions
  (internal/repository/cron.go:176). `FiresExactly` says which expressions and times reach it, for all
  valid ones. With any weekday allowed it takes a date that does not exist, as 31 February
  (`AnyWeekdayFires`, `NeverFires`), or 29 February around a century that skips it (`LeapDayGap`).
  With a weekday an existing date can reach it too: Mondays that are New Year's Day, asked for on
  2 January 2019 (`NewYearMonday`). Jobs that restrict weekdays and months alone reach
  it only if they accept no month (`AnyDayFires`), and weekly ones fire within a week (`FiresWeekly`).
- Adding a directive is said to be idempotent (internal/script/editor_scope.go:193-196). A value of
  several lines is added again each time (`AddAccumulates`), and so is one that closes its scope;
  `AddToTwice` is the exact condition.
- A fragment is said to be replaced in place (internal/script/editor_scope.go:431-436); it is removed
  and inserted again at its anchor (`FragmentMoves`). `FragmentStaysExactly` says when that is the same.
- A shared reopen signal is said to be sent once for a whole pass
  (internal/repository/logrotate/engine.go:271-273). It is sent once for each name it is configured
  under; `SignalsOnceExactly` says when that is once.

## Model

| member | source | states |
|---|---|---|
| Chain.CanonicalEdges | domain/process_chain.go:259-286 | succeeds exactly when one dependency form is used and all wait modes are known, with the edges of that form; otherwise the error is for both forms or for the first unknown mode |
| Chain.WaitNames | domain/process_chain.go:264-296 | an omitted mode and started mean started; ready and exit mean themselves; nothing else means anything |
| Chain.FormsAgree | domain/process_chain.go:277-285 | plain dependencies are short for edges in mode ready or started, as needParentReady says |
| Chain.Walker.Walk | domain/process_chain.go:206-234 | reports the first node in preorder that mixes children and dependencies, if there is one; otherwise appends the tree's flat form |
| Chain.FirstMixedAt | domain/process_chain.go:208-213 | that error names the first node in preorder that mixes forms, and the plain dependencies before the edges |
| Chain.Normalized | domain/process_chain.go:200-253 | succeeds exactly when no node mixes forms and all edges are canonical, with the normal form; otherwise the error is that of the first mixed node or of a node with bad edges |
| Chain.NormalizeIdempotent | domain/process_chain.go:189-199 | a normal form normalises to itself |
| Chain.ParentEdge | domain/process_chain.go:191-195 | a child of a named parent keeps its edges and gains the parent as the last, in mode ready exactly when it sets needParentReady |
| Chain.FlattenIsPreorder | domain/process_chain.go:206-240 | the flat form lists all positions of the tree, once each and in preorder, each node with all its settings but its children; a root keeps its dependencies, and any other node gains its parent at the end of the list it uses |
| Chain.PrecedesOrders | domain/process_chain.go:206-240 | preorder is a total order in which what is above comes before what is below |
| Chain.ParentIsAbove | domain/process_chain.go:206-234 | the parent of a position is the node one step up |
| Chain.TreeNormalForm | domain/process_chain.go:189-253 | a tree's normal form has all its nodes in preorder with their own settings, and as edges what they name and then their parents |
| Chain.FlatNormalForm | domain/process_chain.go:200-253 | a flat chain's normal form has the same nodes with their edges |
| Settings.CheckSettings | domain/chain_validate.go:180-242 | no error exactly for a log with a path and a rotation that has one form of files, patterns, known modes, a signal for every file and a tail shorter than the oversized limit, on a supervised node; otherwise the reported defect is there |
| Settings.ModesExactly | domain/chain_validate.go:204-214 | omitted modes are signal and skip; the modes are signal and copytruncate, skip and fail |
| Settings.LogNeedsPath | domain/chain_validate.go:46-50 | a log needs a path exactly if a stream goes to file |
| ChainValidation.CheckNames | domain/chain_validate.go:29-55 | no error exactly for unique non-empty names, unmixed forms and good settings; the index then maps each name to its position |
| ChainValidation.CheckEdges | domain/chain_validate.go:84-101 | no error exactly when each edge names another node that is not exec |
| ChainValidation.CheckExecs | domain/chain_validate.go:103-126 | no error exactly when an exec node depends on oneshots only and there is at most one |
| ChainValidation.CycleFinder.Dfs | domain/chain_validate.go:137-164 | finishes the node and everything below it keeping the search invariant, or reports a real closed walk; terminates on the unseen nodes |
| ChainValidation.FindCycle | domain/chain_validate.go:128-172 | nil only if a topological rank exists; an error only with a closed walk in which each name depends on the one before |
| ChainValidation.ValidateChain | domain/chain_validate.go:23-173 | nil exactly for a well-formed chain that has a topological rank; otherwise the reported defect is in the chain |
| ChainValidation.ErrorRefutes | domain/chain_validate.go:9-22 | a chain with any defect the validator can report is not both well-formed and acyclic |
| ChainValidation.ClosedWalkNoRank | domain/chain_validate.go:151-158 | a reported cycle refutes every topological rank |
| ChainValidation.ParentComesFirst | domain/process_chain.go:206-240 | in the flat form of a tree without dependencies of its own, a node depends on its parent alone, which is before it |
| ChainValidation.TreesAreAcyclic | domain/process_chain.go:206-240 | such a tree with valid names never fails the cycle check |
| ChainRun.ValidatedGraph | orchestrator/service.go:259-280 | the graph of a valid chain has the nodes' kinds, resolves, nothing in it depends on an exec node, and no oneshot is exec or scheduled |
| ChainRun.LinkTarget | orchestrator/service.go:259-280 | each link leads to the node that the edge names, in the edge's mode |
| ChainRun.DependsOnFormAgrees | domain/process_chain.go:277-285 | nodes in the dependsOn form wait for each dependency in one mode, never for exit |
| ChainRun.ValidChainsFinish | orchestrator/service.go:241-313 | a valid chain whose prone triples can be brought about never stops short of the end if and only if it has none |
| ChainRun.DependsOnChainsFinish | orchestrator/service.go:241-313 | every valid chain in the dependsOn form never stops short if and only if it has no prone triple |
| ChainRun.GateHoldsExactly | domain/chain_validate.go:84-101 | in a valid chain a node that can be started, and does not both repeat an edge and mix modes, is held back in every run if and only if it waits for each dependency in one mode |
| CoordinatorSteps.InvariantKept | orchestrator/service.go:317-496 | every step of every goroutine keeps the invariant on counters, channels, states, provenance of skips, error reports and the active count |
| CoordinatorSteps.ReachableInvariant | orchestrator/service.go:246-313 | the invariant holds in every reachable state of every chain whose edges resolve |
| CoordinatorTheorems.GateSafety | orchestrator/service.go:272-304 | for a node with one wait mode per dependency, in any chain: while it is pending its counter is the number of edges not signalled, and it starts running only when each edge's own wait mode has been signalled |
| CoordinatorCounter.CounterAlong | orchestrator/service.go:430-434 | in every run a waiting node's counter is its number of edges, less one for each edge and each signal of its dependency that was given and that the node waits for, repeated edges included |
| CoordinatorCounter.RanWith | orchestrator/service.go:425-487 | in no run does a node run before one of some signals is given, if the others do not use its counter up |
| CoordinatorGate.PaysExactly | orchestrator/service.go:430-434 | every missing signal leaves something on the counter if and only if the node waits for each dependency in one mode, whatever it repeats |
| CoordinatorGate.GateSafeExactly | orchestrator/service.go:425-487 | a node that can be started never runs before all its edges are signalled, in every run, if and only if it waits for each dependency in one mode; for a node with more, some dependency that it does not pay for in full must be able to come last |
| CoordinatorGate.GateSafeDistinct | orchestrator/service.go:425-487 | with no edge repeated that is so without further condition |
| CoordinatorTheorems.DecrementExact | orchestrator/service.go:430-434 | a signal takes off exactly the edges it satisfies if and only if the node waits for that dependency in one mode |
| CoordinatorTheorems.TwoModesReleaseEarly | orchestrator/service.go:468-487 | with two modes for one dependency a reachable state has the node running before the dependency is ready |
| CoordinatorTheorems.TransitiveSuccess | orchestrator/service.go:806-838 | when a node runs, every ancestor it reaches without an exit edge has started, and every such oneshot's last attempt exited 0 and is no longer counted active |
| CoordinatorExit.SuccessExactly | orchestrator/service.go:368-373 | a node whose other dependencies can be started without the success of a oneshot, by way of its exit at most, runs only after that success if and only if they and the exit do not release it |
| CoordinatorExit.NeedsSuccessExactly | orchestrator/service.go:368-373 | for a node with one mode per dependency that is so if and only if it does not wait for the oneshot's exit |
| CoordinatorExit.SingleEdgeExactly | orchestrator/service.go:368-373 | in particular for a node with a single edge, in a chain with exit edges to oneshots |
| CoordinatorExit.DrainSatisfiesExit | orchestrator/service.go:371-373 | without any shutdown, a node that the exit of a oneshot and its other dependencies release can run after that oneshot was drained by a service that the node does not depend on |
| CoordinatorTheorems.ExecGuardHolds | orchestrator/service.go:605-608 | if the exec node reaches every other node, a oneshot, by edges that wait for success, or by such edges and a last one of any mode, the active count is zero when the guard is evaluated, so it cannot trip |
| CoordinatorTheorems.ExecGuardExactly | orchestrator/service.go:605-608 | an exec node goes on exactly if no supervised process, running oneshot or scheduled job is there, and fails for active siblings exactly if one is |
| CoordinatorTheorems.SatisfiedNeverBails | orchestrator/service.go:320-331 | on a shutdown exactly the nodes not yet released give up; one with all edges signalled runs |
| CoordinatorTheorems.AttemptSucceeds | orchestrator/service.go:812-856 | an attempt of a oneshot succeeds exactly with exit code 0, and can be repeated after any other |
| CoordinatorTheorems.LifecycleStarts | orchestrator/service.go:561-664 | an entered node starts with an attempt, a scheduler's signal or a supervised process, by its kind; scheduled jobs come and go |
| CoordinatorTheorems.LifecycleEnds | orchestrator/service.go:762-862 | when a lifecycle can end with an error, and when without: a oneshot that has not succeeded only when cancelled or drained |
| CoordinatorTheorems.LifeForward | orchestrator/service.go:333-343 | over any run states only move forward, a skipped node never runs, and the first recorded error stays |
| CoordinatorTheorems.SkippedOnlyUnsatisfied | orchestrator/service.go:390-404 | a node is skipped only while pending, unreleased and with an unsatisfied edge, and after a dependency has left |
| CoordinatorTheorems.RunResult | orchestrator/service.go:306-312 | once all goroutines have returned, Run's result is nil exactly when no non-optional node reported an error, and otherwise the first one recorded |
| CoordinatorLiveness.RunsEnd | orchestrator/service.go:246-313 | the length of every run is bounded by twelve steps a node, two more, and twice the number of retries of oneshots and starts of scheduled jobs |
| CoordinatorLiveness.RepetitionCanStop | orchestrator/service.go:246-313 | a state in which nothing but such repetition is possible admits none, so a run that stops short is not one that repeats |
| CoordinatorLiveness.UnmarkedAlong | orchestrator/service.go:371-400 | a node that waits for nothing but the exit of one required node is never skipped or drained |
| CoordinatorLiveness.StuckBecauseSilent | orchestrator/service.go:383-389 | in an acyclic chain any state that can go no further has a stuck node whose oneshot dependency left by nodeExited(nil) without signalling, having been skipped or drained |
| CoordinatorLiveness.NotProneNeverDeadlocks | orchestrator/service.go:246-313 | an acyclic chain with no deadlock-prone triple never stops short of the end, whatever its edges, modes and processes |
| CoordinatorLiveness.OneshotDepsSuffice | orchestrator/service.go:246-313 | in particular one whose oneshots depend only on non-optional oneshots |
| CoordinatorDeadlock.ProneDeadlocks | orchestrator/service.go:358-412 | in a valid chain every prone triple that can be brought about is realised by a run that ends with a node waiting |
| CoordinatorDeadlock.DeadlockFreedom | orchestrator/service.go:246-412 | a valid chain whose prone triples can be brought about never stops short of the end if and only if it has none |
| CoordinatorDeadlock.ExitEdgesRealisable | orchestrator/service.go:246-412 | agreeing wait modes and exit edges to oneshots only are enough for that |
| CoordinatorDeadlock.LegalChainDeadlocks | orchestrator/service.go:383-389 | a service, a oneshot after it and a node after the oneshot can deadlock |
| CoordinatorRouter.DependentsCount | orchestrator/service.go:272-280 | a node is in the dependents list of another once for each of its edges to it |
| CoordinatorRouter.Router.constructor | orchestrator/service.go:259-280 | the entries are those of the initial state, linked to their dependents edge by edge |
| CoordinatorRouter.Router.SignalStarted | orchestrator/service.go:425-437 | the entries change as the transition system says; the channel is closed once |
| CoordinatorRouter.Router.SignalReady | orchestrator/service.go:441-453 | likewise for ready |
| CoordinatorRouter.Router.Unblock | orchestrator/service.go:458-487 | one decrement per dependents entry adds up to all edges of the dependents waiting in that mode |
| CoordinatorRouter.Router.NodeExited | orchestrator/service.go:358-412 | the entries change as the transition system says, for every error and kind of node; the chain fails exactly for the first exit of a non-optional node with an error |
| CoordinatorRouter.Router.FailChain | orchestrator/service.go:416-421 | the first error is kept and cancels the chain |
| CoordinatorRouter.Router.ReleaseFrontier | orchestrator/service.go:297-304 | releases exactly the nodes with nothing pending |
| CoordinatorRouter.Router.Begin | orchestrator/service.go:333-346 | a released node runs if pending, cascades if skipped, and returns otherwise |
| VmGate.CallbacksSerialised | internal/repository/js/runtime.go:154-199 | at most one callback holds the entry lock, and inFlight counts it exactly while it is inside |
| VmGate.UnparkReturnsIdle | internal/repository/js/runtime.go:128-140 | the outermost Unpark returns only at an instant with nobody inside |
| VmGate.SleepersAreWoken | internal/repository/js/runtime.go:134-138 | Unpark sleeps only while a callback is inside, whose return wakes it with nobody left |
| VmGate.UnparkUndoesPark | internal/repository/js/runtime.go:115-140 | an Unpark undoes one Park |
| VmGate.WindowOpenExactly | internal/repository/js/runtime.go:115-140 | after any run that parks before it unparks, the window is open and lets callbacks in exactly while more was parked than unparked |
| VmGate.EntryNeverBlocks | internal/repository/js/runtime.go:154-186 | a callback at the entry either gets the lock or is refused, which changes nothing else |
| VmGate.NoNewCallback | internal/repository/js/runtime.go:161-166 | while the script is unparked no callback passes the second check |
| VmGate.ExclusionExactly | internal/repository/js/runtime.go:163-191 | during a script frame a callback can be inside if and only if it was between the second check and the count when the frame began |
| VmGate.ExclusionFails | internal/repository/js/runtime.go:163-191 | a reachable state has a callback inside beside a live script frame |
| VmGate.MergedExcludes | internal/repository/js/runtime.go:125-127 | with check and count in one section no reachable state has |
| VmGate.Gate.Wait | internal/repository/js/runtime.go:134-138 | whatever critical sections the callbacks take while the script sleeps, it is awake afterwards if and only if one of them is a callback's return from the engine, which broadcasts |
| VmGate.Gate.Unpark | internal/repository/js/runtime.go:128-140 | the loop returns only with nobody inside the engine, whatever callbacks do meanwhile, and stays asleep only while somebody is; every state in between is one of the protocol |
| ArchiveName.ParseBackup | internal/repository/rotate.go:27-55 | the loop computes the index and extension of a numbered backup, and refuses everything else, including indexes beyond the machine integer |
| ArchiveName.PrintedInDecimal | internal/repository/rotate.go:81-85 | indexes are decimal, most significant digit first, without leading zeros |
| ArchiveName.ParseOfArchive | internal/repository/rotate.go:81-85 | parsing recovers index and extension from every printed name |
| ArchiveName.ArchiveOfParse | internal/repository/rotate.go:27-55 | any accepted name is a printed one up to leading zeros |
| ArchiveName.ArchiveInjective | internal/repository/rotate.go:81-85 | all logs, indexes and extensions have different archive names |
| Rotate.Disk.HighestBackup | internal/repository/rotate.go:60-74 | the largest index of the directory's numbered backups, or 0 if there is none, whatever the gaps |
| Rotate.ShiftSlot | internal/repository/rotate.go:78-92 | the slot moved into is free, and the shifted range grows by one |
| Rotate.Disk.ShiftBackups | internal/repository/rotate.go:78-92 | each archive, in either form, is exactly one index up; all other files are as they were |
| Rotate.Disk.ShiftAndRename | internal/repository/rotate.go:99-108 | the old active file is at index 1, index 1 is free for compression, every archive is one up and nothing else changed; without an active file only the shift happens |
| Rotate.Disk.CopyTruncate | internal/repository/rotate.go:115-127 | likewise with a copy of the content or its tail, the active file being empty |
| Rotate.Disk.KeepTail | internal/repository/rotate.go:133-167 | the file keeps its last bytes, or all if it is small or nothing is asked |
| Rotate.TailExactly | internal/repository/rotate.go:133-167 | the tail is a suffix of the data, of the length asked for or of all of it |
| Rotate.Disk.CompressArchive | internal/repository/rotate.go:171-211 | the archive's content is under name.gz and name is gone |
| Rotate.Disk.PruneBackups | internal/repository/rotate.go:216-237 | the loop removes exactly the parsed names beyond the limit |
| Rotate.PruneKeeps | internal/repository/rotate.go:216-237 | of the archives exactly the indexes up to the limit stay, and every other file |
| LogWriter.RotatingFileWriter.constructor | internal/repository/system/logging.go:38-65 | defaults are applied, the active file exists and the cached size is its length |
| LogWriter.RotatingFileWriter.Write | internal/repository/system/logging.go:70-84 | fails with nothing changed when closed; otherwise appends, rotating first exactly when the limit would be passed, and the cached size stays the active length |
| LogWriter.RotatingFileWriter.RotateFiles | internal/repository/system/logging.go:103-130 | shift, archive, compress, prune, reopen empty |
| LogWriter.WriteConserves | internal/repository/system/logging.go:70-130 | one write loses at most the oldest archives, and nothing when backups are unlimited |
| LogWriter.RotationRaisesByOne | internal/repository/system/logging.go:103-130 | a rotation adds one to the highest index at most and leaves no archive beyond the limit |
| LogWriter.RunConserves | internal/repository/system/logging.go:70-130 | after any number of writes the archives, oldest first, and the active file are a suffix of everything accepted, and all of it when backups are unlimited |
| LogWriter.RunBoundsActive | internal/repository/system/logging.go:67-69 | after each write the active file is within maxBytes or holds that write alone |
| LogWriter.NoRotationBefore | internal/repository/system/logging.go:70-84 | as long as everything fits, all writes are in the active file and nothing else changes |
| LogWriter.RotationKeepsNewest | internal/repository/system/logging.go:103-130 | a rotation leaves the whole active file at index 1, gzipped as asked, and an empty active file |
| RotatePass.RotateThreshold | internal/repository/logrotate/engine.go:172-178 | a size crosses the threshold exactly when it reaches the limit or is oversized |
| RotatePass.Precedence | internal/repository/logrotate/engine.go:140-167 | a file's own limit, backups and signal go before the group's, and these before the defaults |
| RotatePass.CrossesExactly | internal/repository/logrotate/engine.go:207-220 | a match is rotated exactly if it is there and at least as large as its limit or the oversized trigger |
| RotatePass.NamesOf | internal/repository/signalname.go:23-42 | each signal has its name, with or without SIG, and its number |
| RotatePass.ValidTriggerShortens | domain/chain_validate.go:228-240 | an oversized trigger is valid if and only if it always keeps something, and less than there was |
| RotatePass.ValidGroupSignals | domain/chain_validate.go:218-229 | a group in signal mode is valid only if each of its files has an effective signal, and then exactly |
| RotatePass.CrossingsAre | internal/repository/logrotate/engine.go:207-220 | the crossed files are exactly the matches past their thresholds |
| RotatePass.Engine.RotateAll | internal/repository/logrotate/engine.go:223-243 | every crossed log is rotated within its own family of names, and all other files are as they were |
| RotatePass.Engine.SignalOnce | internal/repository/logrotate/engine.go:274-296 | sends the known names among the distinct configured ones, in order, touching no file |
| RotatePass.Engine.Pass | internal/repository/logrotate/engine.go:196-269 | with no target nothing changes; otherwise the events and files are those of the three phases |
| RotatePass.PassOrder | internal/repository/logrotate/engine.go:191-195 | all rotations come first, then the sends, then the clean-up; a name is sent at most once, exactly the known names configured for rotated files are, and each send finds the files as phase one left them |
| RotatePass.PassEventsAre | internal/repository/logrotate/engine.go:223-268 | each log that was there is archived, trimmed if oversized, gzipped as asked for its size and pruned; nothing else is |
| RotatePass.SignalsOnceExactly | internal/repository/logrotate/engine.go:271-296 | no signal goes out twice in a pass if and only if no two configured names stand for the same one |
| RotatePass.RotatedLogKept | internal/repository/logrotate/engine.go:223-268 | before any send the log's full content is in path.1; at the end the newest archive is a suffix of it, all of it or the bytes to keep of an oversized log, gzipped as asked, and older archives are one up, exactly up to the limit |
| RotatePass.GoneLogShifted | internal/repository/logrotate/engine.go:223-243 | a log that vanished before its turn is not archived or cleaned up; its archives move up by one |
| RotatePass.BelowThresholdUntouched | internal/repository/logrotate/engine.go:212-214 | a match below its threshold and its archives are untouched by the whole pass |
| Reaper.StepInv | internal/repository/system/reaper.go:61-137 | every step of kernel, loop and subscribers keeps each exit in exactly one place |
| Reaper.AtMostOnce | internal/repository/system/reaper.go:58-60 | a subscriber gets only its own child's code, once, and then a closed channel |
| Reaper.CodeIsTheChilds | internal/repository/system/reaper.go:152-162 | that code is what the child exited with, or 128 and its signal |
| Reaper.NeverPanics | internal/repository/system/reaper.go:130-132 | no send meets a full or closed channel, and no channel is closed twice |
| Reaper.WaitsAndPendingDisjoint | internal/repository/system/reaper.go:120-129 | no child is both waited for and cached |
| Reaper.NoZombieForgotten | internal/repository/system/reaper.go:89-100 | an unreaped exited child implies a SIGCHLD on its way or buffered, or a drain in progress |
| Reaper.InternalStepsEnd | internal/repository/system/reaper.go:89-137 | the reaper's own steps run out |
| Reaper.NothingLost | internal/repository/system/reaper.go:61-137 | once they have, no zombie is left and every subscriber of an exited child has its code, whichever came first |
| Reaper.LateSubscriberServed | internal/repository/system/reaper.go:61-74 | a subscriber that comes after the exit gets the code at once |
| Reaper.ReuseExactly | internal/repository/system/reaper.go:103-137 | a child that takes over a reaped PID keeps the invariant if and only if the old exit is neither cached nor in the hands of the loop |
| Reaper.ReuseMisdelivers | internal/repository/system/reaper.go:64-70 | otherwise steps lead to the old exit at the subscriber of the new, running child |
| Reaper.Registry.Register | internal/repository/system/reaper.go:61-74 | a cached exit is handed over and forgotten; otherwise the new channel waits, open and empty, in place of any earlier one |
| Reaper.Registry.ReapAvailable | internal/repository/system/reaper.go:103-137 | every zombie's own code is at its subscriber, whose channel is closed, or in the cache |
| EditorText.LinesOfText | internal/script/editor_scope.go:76-98 | reading back what was written gives the same lines, for every list of lines except the one blank line |
| EditorText.LinesOfAnyText | internal/script/editor_scope.go:76-98 | whatever was written, the lines read back are the pieces of its elements, or none for one blank line |
| EditorText.TextOfLines | internal/script/editor_scope.go:76-98 | writing back what was read restores the file exactly when it is empty or ends in a newline and is not just that |
| EditorScope.BoundsWith | internal/script/editor_scope.go:123-141 | with a new body a scope keeps its start and ends at the body's first closing line |
| EditorScope.TrimExactly | internal/script/editor_scope.go:100-118 | trimming removes blanks only, and all at both ends |
| EditorScope.LineTwice | internal/script/editor_scope.go:163-183 | setting a line twice is setting it once if and only if it matches its own pattern and does not close its scope |
| EditorScope.AddTwice | internal/script/editor_scope.go:197-213 | adding a line twice is adding it once if and only if it does not close its scope |
| EditorScope.AddToTwice | internal/script/editor_scope.go:193-213 | for every file, scope and text, adding it twice leaves the file as adding it once does if and only if the first changes nothing or a line of it like itself is still in scope; for one line that is when it does not close its scope |
| EditorScope.AddAccumulates | internal/script/editor_scope.go:193-213 | a text whose trimmed form holds a newline is added once more each time, to every file that has the scope |
| EditorScope.SetTwice | internal/script/editor_scope.go:163-183 | for every file, scope and pattern, setting a line twice leaves the file as setting it once does if and only if its scope is missing, or it is one line, matches its pattern and does not close its scope |
| EditorScope.AddFramed | internal/script/editor_scope.go:207-212 | nothing changes if the line is in scope; otherwise it is put at the scope's end and all else keeps its order |
| EditorScope.RawTwice | internal/script/editor_scope.go:289-303 | writing a body twice is writing it once if and only if none of its lines closes the scope |
| EditorScope.RawFramed | internal/script/editor_scope.go:289-303 | a body is replaced by exactly the text, and the lines around it stay |
| EditorScope.LineFramed | internal/script/editor_scope.go:176-182 | one line in scope is replaced or one is added at the scope's end, and all else keeps its order |
| EditorScope.RenderedMatches | internal/script/editor_scope.go:388-405 | a rendered directive matches the pattern it is found by, for separators whose blanks \s matches |
| EditorScope.PropertyTwice | internal/script/editor_scope.go:189-191 | likewise for every property; a directive matches its own pattern if the separator's blanks are ones that \s matches |
| EditorScope.PropertyIsFirst | internal/script/editor_scope.go:185-191 | afterwards the first line of that key in scope is the rendered one |
| EditorProperty.FoundByWord | internal/script/editor_scope.go:185-191 | with a separator of blanks a line is a key's exactly if its first word is the key: User does not find UserDir |
| EditorProperty.FoundBySign | internal/script/editor_scope.go:388-405 | with a separator that has a sign, exactly if the key is all there is, but for blanks, before the sign, or in a line without it |
| EditorProperty.PropertyFramed | internal/script/editor_scope.go:185-191 | setting a property leaves every line of another key, and every line out of scope, as it was |
| EditorProperty.PropertySet | internal/script/editor_scope.go:185-191 | afterwards the first directive of the key in the file's scope reads key, separator and value |
| EditorFragment.FencesDiffer | internal/script/editor_scope.go:446-447 | no line is both fences, whatever the comment prefix and the name |
| EditorFragment.FencesOfNames | internal/script/editor_scope.go:446-447 | fragments have the same fences exactly if their names are the same up to trailing blanks |
| EditorFragment.AnchoredBehind | internal/script/editor_scope.go:489-499 | a fragment goes right behind the first line in scope that its anchor matches, or to the scope's end |
| EditorFragment.UnfencedExactly | internal/script/editor_scope.go:458-468 | removal takes the lines from the first begin fence to the first end fence, if in this order, and no other |
| EditorFragment.FragmentUndone | internal/script/editor_scope.go:445-504 | whatever block there was before, removing a fragment gives the lines without any; inserting another body is as if the first had not been there |
| EditorFragment.FragmentTwice | internal/script/editor_scope.go:445-504 | inserting a fragment into a file twice is inserting it once, whether or not the file had the block before |
| EditorFragment.FragmentGone | internal/script/editor_scope.go:445-504 | inserting and removing leaves the file's lines without the block, if and only if these are not the one blank line |
| EditorFragment.FragmentStaysExactly | internal/script/editor_scope.go:458-504 | inserting again replaces the block in place if and only if it is where the anchor puts it |
| EditorFragment.FragmentMoves | internal/script/editor_scope.go:458-468 | a block with a line behind it moves to the end of the file |
| FileEditor.Editor.FindBounds | internal/script/editor_scope.go:123-141 | the loops find the scope's bounds, or the missing marker |
| FileEditor.Editor.Line | internal/script/editor_scope.go:163-183 | the file becomes the edited one; on an error it is untouched |
| FileEditor.Editor.Add | internal/script/editor_scope.go:197-213 | likewise, the file not being written at all if the line is there |
| FileEditor.Editor.Raw | internal/script/editor_scope.go:289-303 | likewise for a whole body |
| FileEditor.TextOfItsLines | internal/script/editor_scope.go:407-415 | a text is its lines, joined, and some newlines |
| FileEditor.Editor.Fragment | internal/script/editor_scope.go:445-504 | likewise for a fragment, with the errors in the source's order |
| Calendar.DateOfDayNumber | internal/repository/cron.go:155-161 | days and dates of the Gregorian calendar correspond one to one |
| Calendar.DayNumberIs | internal/repository/cron.go:155-161 | the number of a date's day in closed form, leap years and months included |
| Calendar.WeekdayIs | internal/repository/cron.go:155-161 | 1 January 1970 was a Thursday, and weekdays follow one another |
| Cron.MatchField | internal/repository/cron.go:77-84 | a field matches exactly when one of its atoms does |
| Cron.AtomValues | internal/repository/cron.go:89-121 | an atom accepts every step-th value from zero, or from the start of its range to its end |
| Cron.Match | internal/repository/cron.go:155-161 | a time matches exactly when minute, hour, day, month and weekday all do |
| Cron.SingleMatches | internal/repository/cron.go:155-161 | the expression of one minute, hour, day, month and weekday matches exactly the times that have them |
| Cron.SingleValid | internal/repository/cron.go:27-53 | the values that the parser lets through are exactly those that times have |
| Cron.Next | internal/repository/cron.go:166-177 | the least matching whole minute strictly after t and before t plus 5 times 365 days, and t exactly when there is none |
| Cron.FieldFromZero | internal/repository/cron.go:89-121 | a valid minute or hour field always accepts some value |
| Cron.DateComesSoon | internal/repository/cron.go:163-169 | any real day and month comes within the window of any day, 29 February if one of the next four years is a leap year |
| Cron.FiresExactly | internal/repository/cron.go:166-177 | for every valid expression and every time: it fires within the window if and only if it accepts a day of the window, and, if that is the first or the last, a time of day that is inside |
| Cron.AnyWeekdayFires | internal/repository/cron.go:166-177 | with any weekday, an expression fires if and only if it accepts a day and month that exist; for one that accepts 29 February, one of the next four years is a leap year |
| Cron.AnyDayFires | internal/repository/cron.go:163-177 | with any day of the month, and whatever weekdays, an expression fires if and only if it accepts a month |
| Cron.FiresWeekly | internal/repository/cron.go:163-177 | with any day and month it fires within a week |
| Cron.NeverFires | internal/repository/cron.go:176-176 | 31 February is valid and never fires |
| Cron.LeapDayGap | internal/repository/cron.go:167-170 | from the leap day before a century that skips one to the leap day after it, a job for every 29 February fires exactly until the last minute of the one and again once the other is in the window |
| Cron.NewYearMonday | internal/repository/cron.go:176-176 | Mondays that are New Year's Day, asked for at midnight on 2 January 2019, are valid, exist and do not come within the window |

## Left out

- CoordinatorDeadlock.DeadlockFreedom: is for chains whose prone triples can be brought about: w is not released without the success of o, nor o without an optional x, and nothing that x or o needs waits for the exit of a service. `CoordinatorLiveness.NotProneNeverDeadlocks` needs none of that. Beyond it a run may not exist, because a service that is waited for until it exits drains or skips its other dependents by that very exit.
- CoordinatorExit.SuccessExactly: assumes that the other dependencies can be started without the success of the oneshot; one that needs it would guarantee it for the node as well.
- CoordinatorGate.GateSafeExactly: leaves out nodes that mix wait modes and repeat the very same edge so often that each dependency they do not pay for in full is needed by one they do.
- RotatePass.Engine.Pass: matched paths are given, distinct, and none an archive of another; globbing, exclusion, symbolic links and what the app writes during the pass are not modelled.
- Rotate.Disk.HighestBackup: archives are assumed to have indexes below the largest machine integer, where the source's counter would overflow.
- Reaper.StepInv: a PID is reused only once its last exit is with its subscriber (`ReuseExactly` is about the other cases), each child is registered once, the loop is not stopped and its context not cancelled; the dispatcher's channel, which is only drained, is left out.
- Cron.Match: the text of an expression is not split and its numbers not read; fields are lists of atoms that satisfy what the parser checks. Time zones other than UTC are left out.
- Clocks, back-off, retry limits, restarts, drain time-outs, readiness probes and callbacks appear as free choices of a node's lifecycle.
- The implicit exec of a lone node (execDefault), and the active count shared with other chains run by the same service.
- Input and output errors other than a missing file or a closed writer; permissions, temporary files and the bytes of gzip, which is a tag on the content.
- The gate's Parked channel, parking from inside a callback, and the scripting engine itself.
- The editor's wrap, section, repeat, reset, remove and define verbs; regular expressions given by scripts are predicates on lines, and a fragment's body is given as lines.
- Real processes, credentials, signal forwarding, HTTP, probes, provisioning, the command line and YAML.
