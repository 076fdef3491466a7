# Verified models of Sculptor's coordination logic

This project models the parts of Sculptor that hold invariants over whole runs and proves what they promise. Each
module follows one component; classes follow the objects whose fields the program updates in place, transition systems
follow the protocols whose point is interleaving, and pure modules hold the specifications the imperative members are
proved against.

| module | component |
|---|---|
| `Strands`, `ConcurrencyGroups` | concurrency groups one call at a time: checking, cleanup, starting, waiting, exit |
| `GroupRuns`, `GroupSafety`, `GroupInvariant`, `GroupTheorems` | a tree of groups under arbitrary interleaving, and what every run keeps |
| `GroupCauses` | what registering, refusing and cleaning up do, and that nothing is raised without a cause |
| `GroupCourse`, `GroupFailures`, `GroupRefusals` | below a failed ancestor: what is refused and with which failure, how long a failure lasts |
| `GroupScripts`, `GroupSlip`, `GroupEscape` | complete runs in which what the documentation promises does not happen |
| `Events` | shutdown events and the shutdown of a subtree |
| `InstallProtocol`, `InstallSafety` | managed installs: ranked locks, single flight, the shared progress notifier |
| `VersionSlots`, `ToolDirectories` | version directories: resolution, retention, crash-safe activation |
| `AuthSessions` | the sign-in session that is claimed at most once |
| `Edits`, `Evolvers` | the mutable edit tree over frozen values, against functional update at a path |
| `WorkflowMerge` | the progress tree merged from delta payloads |
| `LatestTable`, `WriterSnapshots` | the table of latest versions kept by an upsert trigger, against the snapshot log; concurrent writers |
| `LineSplitter`, `OutputGathering` | streaming line splitting and draining of a process's output |
| `Versions`, `ReleaseTrain`, `Publication` | version orders, release tags, staging and publication of artifacts |
| `Summary`, `MediaSpans` | a length-bounded summary; removal and splitting at media tags |

## How the code is read

- Regions under a lock are single steps, and so is each unlocked read of another object; anything may happen in
  between. The transition systems have arbitrarily many threads.
- Processes, the network, file contents, clocks, user input and git are parameters or nondeterministic choices. A
  running process is an object that ends once and for all; a clock advances only while something waits.
- Directory changes (creating, removing a tree, renaming) are atomic, and a ghost journal keeps the directory as it was
  after each, so that a crash is a return to any journalled state. `rmtree` succeeds and `uuid4` does not repeat.
- A deferred database transaction computes its upserts from the snapshot it took when it began, as the comment in
  `sql_implementation.py:113-118` has it; an immediate one holds the writer's slot from then on. `LatestTable` is about
  upserts that read the committed row, `WriterSnapshots` proves for which transactions that is so.
- Lists and dictionaries the code changes in place are sequences and maps that methods reassign.

## Where the code differs from what it says

- A start attempt below a failed ancestor is promised to raise. The walk up the parents reads each ancestor twice
  without its lock (`concurrency_group.py:398-407`); an ancestor that finishes its exit between the two reads is
  overlooked. `GroupSlip.StartCanSlipPastFailedAncestor` is a complete run, `GroupTheorems.VisitOverlooksExactlyWhen`
  and `GroupCourse.CourseIsLostExactlyWhen` are the exact conditions, `GroupRefusals.StartBelowFailureRaisesIt` is the
  guarantee in all other runs.
- A group that has noticed a failure is promised to stay failed for its descendants. If an ancestor is overlooked in the
  same way by the walk of the group's own exit, the group is left without an exception and its failure is gone:
  `GroupSlip.NoticedFailureCanBeLost`. `GroupFailures.FailureIsLostExactlyWhen` is the exact condition and
  `GroupFailures.FailureIsMonotone` the guarantee otherwise; that the group or an ancestor counts as failed never goes
  away (`GroupTheorems.DoomIsMonotone`).
- Leaving a group is said always to raise a group of exceptions. A checked process that fails while it is waited for
  raises its own error and ends the wait for the rest (`concurrency_group.py:255-262`): `GroupEscape` has a complete run
  that leaves a thread running unreported. A fatal exception of a thread is raised at its join even when the thread is
  unchecked. `ConcurrencyGroup.WaitForAll` says which strand escapes, `Exit` when a lone exception is raised.
- Activation removes the old tree of a version before renaming the new one into place
  (`dependency_management_service.py:1533-1537`). A failed rename therefore loses a version that was installed:
  `ToolDirectories.UnsuccessfulKeepsSlotsExactlyWhen`.
- Navigating through a missing dictionary key leaves a placeholder in the refrozen value:
  `Edits.ReadsAreInvisibleExactlyWhen`.
- A monotonic column is promised to keep a committed deletion against stale rows. A deferred transaction whose snapshot
  has fallen behind can take it back: `WriterSnapshots.DeferredWriterCanLower` is a complete run,
  `WriterSnapshots.SnapshotProtectsExactlyWhen` the exact condition, `WriterSnapshots.ImmediateCannotLower` the
  guarantee of immediate transactions.
- SQLite's two-argument MAX is null when either argument is, so a null would take a monotonic column away for good:
  `LatestTable.StaleRowCannotLower`. That takes a caller that declares a nullable one: the two in use, `is_deleted` and
  `is_deleting`, are not nullable, and a required column is never null (`LatestTable.RequiredIsNeverNull`).
- The trigger that runs after an insert rewrites the snapshot's creation time only;
  the latest table keeps the time the first client gave.
- A carriage return and a line feed that arrive in different reads make two lines:
  `OutputGathering.LinesAreThoseOfTheWholeExactlyWhen`.
- Converted versions order a development release after an alpha or beta of the same release ("a" < "b" < "dev" < "rc"
  in ASCII), where PEP 440 has it first: `Versions.ConversionKeepsOrderExactlyWhen`. Development stamps widen from the
  millionth pipeline on: `Versions.StampsOrderExactlyWhen`.
- `cut_release` looks for a branch `release/<rc>` but creates `release/sculptor-v<final>`, so that check finds nothing;
  what prevents a second cut is the tag check and git's refusal to create an existing branch:
  `ReleaseTrain.CutLooksForNoCreatedBranch`.
- `extract_media_tags_from_text` removes tags in the order images, then videos, which is right exactly when they are
  found in that order: `MediaSpans.ExtractionIsExactExactlyWhen`. A video match inside an image match, as in
  `<img <video src="/a.mp4">`, takes text that follows with it: `MediaSpans.NestedVideoExactlyWhen`.
  `split_text_and_media` sorts first.
- A summary with nothing to drop whose fixed part is too long carries a footer that discloses nothing:
  `Summary.EmptyDocumentMayCarryFooter`.

## Model

| member | source | states |
|---|---|---|
| `Strands.CleanupKeepsFirstFailures` | sculptor/sculptor/foundation/concurrency_group.py:561-594 | cleanup keeps, in order, every running strand and the first min(8, n) ended failures the group answers for, and nothing else |
| `Strands.CleanupRemembersFailure` | sculptor/sculptor/foundation/concurrency_group.py:561-594 | cleanup drops only ended strands and never forgets the last failure of a list |
| `Strands.CheckRaisesExactlyOnFailure` | sculptor/sculptor/foundation/concurrency_group.py:318-355 | a check raises if and only if a checked strand failed or an ancestor did |
| `Strands.CheckRaisesBareExactlyWhen` | sculptor/sculptor/foundation/concurrency_group.py:322-340 | what a check raises cannot be grouped if and only if a checked thread or the closest failed ancestor failed fatally |
| `ConcurrencyGroups.ConcurrencyGroup.Enter` | sculptor/sculptor/foundation/concurrency_group.py:153-160 | a group is entered once |
| `ConcurrencyGroups.ConcurrencyGroup.ClosestAncestorFailure` | sculptor/sculptor/foundation/concurrency_group.py:393-408 | the loop up the parents finds the closest failed ancestor, and one if and only if there is one |
| `ConcurrencyGroups.ConcurrencyGroup.RaiseIfFailed` | sculptor/sculptor/foundation/concurrency_group.py:318-355 | the exceptions collected: a fatal one alone, otherwise those of threads, processes and the closest failed ancestor in order |
| `ConcurrencyGroups.ConcurrencyGroup.RaiseIfFailedOrShuttingDown` | sculptor/sculptor/foundation/concurrency_group.py:357-388 | a grouped failure, and only that, is remembered for descendants to see |
| `ConcurrencyGroups.ConcurrencyGroup.Cleanup` | sculptor/sculptor/foundation/concurrency_group.py:561-594 | both lists become what cleanup is specified to keep |
| `ConcurrencyGroups.ConcurrencyGroup.StartThread` | sculptor/sculptor/foundation/concurrency_group.py:417-424 | a thread is started and tracked if and only if nothing failed, no shutdown is under way and the group is active; cleanup follows either way |
| `ConcurrencyGroups.ConcurrencyGroup.WaitForAll` | sculptor/sculptor/foundation/concurrency_group.py:251-310 | all waits together use at most the timeout; what is left running is reported; what breaks out is a checked process that was running and failed since, or a thread that failed fatally; with nothing running it is the first such thread |
| `Strands.EveryFailureCollected` | sculptor/sculptor/foundation/concurrency_group.py:318-355 | a raised group of exceptions holds every failure of a checked strand and that of the closest failed ancestor |
| `Strands.NothingElseCollected` | sculptor/sculptor/foundation/concurrency_group.py:318-355 | and nothing but these: a lone exception is that of a fatal thread or of the ancestor |
| `ConcurrencyGroups.ConcurrencyGroup.Exit` | sculptor/sculptor/foundation/concurrency_group.py:162-249 | an exit that raises nothing leaves nothing running, failed or open; a raised group reports everything there is, the body's exceptions included, and nothing else; a lone exception is that of a named strand, the ancestor or the body, raised if something is fatal, and only then or if a process failed while waited for; with nothing else wrong a fatal exception of the body is raised as it is |
| `GroupTheorems.InvHolds` | sculptor/sculptor/foundation/concurrency_group.py:151-249 | the invariant of all groups and calls holds in every world of every run |
| `GroupTheorems.DoomIsMonotone` | sculptor/sculptor/foundation/concurrency_group.py:318-408 | once a group or an ancestor of it counts as failed, one of them does in every later world |
| `GroupFailures.FailureIsMonotone` | sculptor/sculptor/foundation/concurrency_group.py:318-408 | a group that counts as failed for its descendants does in every later world if a strand of its own failed or nothing slips past the walk of its exit |
| `GroupFailures.FailureIsLostExactlyWhen` | sculptor/sculptor/foundation/concurrency_group.py:162-171 | a group stops counting as failed in a step if and only if the step ends its exit and the exit has gathered nothing |
| `GroupFailures.FailureIsGoneExactlyWhen` | sculptor/sculptor/foundation/concurrency_group.py:162-171 | over a run the failure is gone if and only if the group was left without an exception |
| `GroupFailures.NoticedFailureFailsTheExit` | sculptor/sculptor/foundation/concurrency_group.py:357-388 | what a group has noticed while active, an ancestor's failure included, makes its exit fail unless something slips past the exit's walk |
| `GroupSlip.NoticedFailureCanBeLost` | sculptor/sculptor/foundation/concurrency_group.py:393-408 | a complete run in which a group has noticed the failure of its parent and is left without an exception all the same |
| `GroupTheorems.OwnFailureFailsTheExit` | sculptor/sculptor/foundation/concurrency_group.py:162-171 | a failing strand that a check could have noticed makes the exit fail, however many cleanups come between |
| `GroupTheorems.NothingStartsAfterExiting` | sculptor/sculptor/foundation/concurrency_group.py:312-316 | nothing is ever registered with a group after it has been set exiting |
| `GroupTheorems.CleanExitLeavesNothingRunning` | sculptor/sculptor/foundation/concurrency_group.py:181-249 | a group left without an exception has no running or failed strand among all it ever registered |
| `GroupTheorems.CleanExitSawChildrenClosed` | sculptor/sculptor/foundation/concurrency_group.py:223-230 | every child ever made was exited or not yet entered when a clean exit looked at it |
| `GroupTheorems.ChildrenAreTracked` | sculptor/sculptor/foundation/concurrency_group.py:602-629 | in every run a group tracks every child ever made below it that has not exited, however many it has made since |
| `GroupTheorems.ExitReportsEverything` | sculptor/sculptor/foundation/concurrency_group.py:181-249 | a group of exceptions raised by an exit names every failed strand still tracked, every strand still running, the exceptions of the body and every child that was open |
| `GroupCauses.RegisteringDoes` | sculptor/sculptor/foundation/concurrency_group.py:412-629 | the last step of a start: one running strand or one child more in the call's group, nothing else changed, and nothing at all when the group is not active or the launch breaks |
| `GroupCauses.StartReturnsExactlyWhenRegistered` | sculptor/sculptor/foundation/concurrency_group.py:412-629 | no other step registers anything, and a start returns if and only if it has registered |
| `GroupCauses.DecidingDoes` | sculptor/sculptor/foundation/concurrency_group.py:357-388 | what a refused start notes and raises; the shutdown is raised and not noted |
| `GroupCauses.CleaningDoes` | sculptor/sculptor/foundation/concurrency_group.py:561-594 | cleanup in the middle of a run keeps what runs and the first eight ended failures of each list and touches nothing else |
| `GroupCauses.BareIsRaisedFor` | sculptor/sculptor/foundation/concurrency_group.py:251-355 | what a lone exception is raised for, and that it is spelled as the strand, ancestor or body had it |
| `GroupCauses.StartAfterFailureIsRefused` | sculptor/sculptor/foundation/concurrency_group.py:318-388 | in every run a start that begins while a failing strand is tracked registers nothing and raises |
| `GroupCauses.QuietCallReturns` | sculptor/sculptor/foundation/concurrency_group.py:181-388 | in every run a call that meets no cause to raise returns: nothing is raised for nothing |
| `GroupCourse.CourseIsLostExactlyWhen` | sculptor/sculptor/foundation/concurrency_group.py:393-408 | a call below a failed ancestor stops being bound to raise in a step if and only if the ancestor it is reading finishes its exit between the two reads and nothing above has failed |
| `GroupCourse.StartBelowFailureIsRefused` | sculptor/sculptor/foundation/concurrency_group.py:357-408 | otherwise a start attempt begun below a failed ancestor never registers anything and raises |
| `GroupCourse.ExitBelowFailureReportsIt` | sculptor/sculptor/foundation/concurrency_group.py:181-208 | and an exit begun below a failed ancestor raises, reporting an ancestor's failure or one that cannot be grouped, and leaves the group failed for its descendants |
| `GroupRefusals.RefusalNamesClosestFailure` | sculptor/sculptor/foundation/concurrency_group.py:340-408 | however an attempt ends, an ancestor's failure it raises is the one read off the closest ancestor that failed a test, and if it raises none both reads of every ancestor found nothing |
| `GroupRefusals.StartBelowFailureRaisesIt` | sculptor/sculptor/foundation/concurrency_group.py:340-408 | below a failed ancestor an attempt raises that closest failure, wrapped in a group or, when fatal, by itself |
| `GroupTheorems.VisitOverlooksExactlyWhen` | sculptor/sculptor/foundation/concurrency_group.py:398-407 | the two unlocked reads of an ancestor overlook its failure if and only if its exit finished in between |
| `GroupTheorems.PhaseOnlyAdvances` | sculptor/sculptor/foundation/concurrency_group.py:96-107 | phases never go back |
| `GroupSlip.StartCanSlipPastFailedAncestor` | sculptor/sculptor/foundation/concurrency_group.py:393-408 | a complete run in which a start attempt registers a thread below an ancestor that has failed throughout |
| `GroupEscape.ExitCanAbandonStrands` | sculptor/sculptor/foundation/concurrency_group.py:251-310 | a complete run in which leaving a group raises a process error by itself and leaves a thread running that is not reported |
| `GroupSafety.StepMoves` | sculptor/sculptor/foundation/concurrency_group.py:115-643 | what one step of any thread can do to any group |
| `GroupInvariant.StepKeepsInv` | sculptor/sculptor/foundation/concurrency_group.py:115-643 | every step keeps the invariant |
| `Events.Event.CheckSet` | sculptor/sculptor/foundation/event_utils.py:37-42 | the recursive disjunction is computed |
| `Events.Event.SetBySomeSource` | sculptor/sculptor/foundation/event_utils.py:37-42 | an event is set if and only if its own flag or that of something it listens to, directly or not, is |
| `Events.Event.Set` | sculptor/sculptor/foundation/event_utils.py:44-45 | setting an event changes exactly the events that listen to it |
| `Events.SourcesAreClosed` | sculptor/sculptor/foundation/event_utils.py:62-72 | listening is transitive |
| `Events.GroupNode.MakeChild` | sculptor/sculptor/foundation/concurrency_group.py:602-629 | a child can be added to any group of a tree, however deep, and leaves a tree |
| `Events.GroupNode.Shutdown` | sculptor/sculptor/foundation/concurrency_group.py:639-642 | children first, then the group; flags are only ever set |
| `Events.ShutdownReachesEverything` | sculptor/sculptor/foundation/concurrency_group.py:639-642 | shutting down any group of a tree, of whatever depth, sets exactly the events hanging below it |
| `Events.WrapAndSet` | sculptor/sculptor/foundation/concurrency_group.py:410-415 | the wrapped event of a process can be set without touching its group |
| `InstallSafety.StepKeepsExclusive` | sculptor/sculptor/services/dependency_management_service.py:542-546 | no lock is ever held by two threads |
| `InstallSafety.SomebodyCanRun` | sculptor/sculptor/services/dependency_management_service.py:542-546 | whenever a thread waits for a lock, some thread can take a step |
| `InstallSafety.RanksClimb` | sculptor/sculptor/services/dependency_management_service.py:542-546 | along any chain of waiting threads the ranks of the locks waited for increase |
| `InstallSafety.NoWaitCycle` | sculptor/sculptor/services/dependency_management_service.py:542-546 | no cycle of threads waiting for one another in the install protocol |
| `InstallSafety.InvHolds` | sculptor/sculptor/services/dependency_management_service.py:1324-1422 | single flight, exclusive locks, flags that are up only for an owner, and the notifier invariant hold in every run |
| `InstallSafety.InstallsAreSingleFlight` | sculptor/sculptor/services/dependency_management_service.py:1352-1376 | per artifact at most one caller or download thread owns the installing flag |
| `InstallSafety.FlagIsUpExactlyWhenOwned` | sculptor/sculptor/services/dependency_management_service.py:1352-1405 | in every run, while the group starts threads, an artifact counts as being installed if and only if a caller or a download thread has yet to clear its flag |
| `InstallSafety.CanBeInstalledAgain` | sculptor/sculptor/services/dependency_management_service.py:1402-1405 | so once nobody is at work on an artifact any more its flag is down, and it can be installed again |
| `InstallSafety.CallReturnsExactlyWhen` | sculptor/sculptor/services/dependency_management_service.py:1324-1376 | a call gives up if and only if the service was stopping, the artifact was being installed, nothing could be resolved or the group starts no threads; otherwise it marks its artifact and starts one download |
| `InstallSafety.CallsComeToAnEnd` | sculptor/sculptor/services/dependency_management_service.py:1324-1376 | every step of a call brings it closer to its end |
| `InstallSafety.DownloadClearsItsFlagLast` | sculptor/sculptor/services/dependency_management_service.py:1388-1404 | a download ends, however it went, only after clearing its own flag and no other |
| `InstallSafety.NotifierLeavesExactlyWhen` | sculptor/sculptor/services/dependency_management_service.py:1277-1307 | the notifier leaves its loop if and only if the service stops, its group exits or nothing is being installed, and gives its handle up only in the last case |
| `InstallSafety.CallsAfterStopAreRefused` | sculptor/sculptor/services/dependency_management_service.py:1334-1336 | in every run calls that arrive after the stop do nothing |
| `InstallSafety.StoppedServiceRefuses` | sculptor/sculptor/services/dependency_management_service.py:1334-1336 | nor does one that had not got going by then |
| `InstallSafety.ClosedGroupStartsNothing` | sculptor/sculptor/services/dependency_management_service.py:1261-1275 | in every run no notifier and no download is started once the group has begun to exit |
| `InstallSafety.OneDownloadAtATime` | sculptor/sculptor/services/dependency_management_service.py:1388-1394 | at most one thread is downloading, verifying, staging or probing an artifact at a time, the voice bundle included |
| `InstallSafety.NoInstallLosesItsNotifier` | sculptor/sculptor/services/dependency_management_service.py:1261-1307 | an install past the ensure step has an undecided notifier running until it clears its flag, while the service runs |
| `InstallSafety.AtMostOneNotifier` | sculptor/sculptor/services/dependency_management_service.py:1261-1275 | there is never a second undecided notifier |
| `VersionSlots.NewestFirstSorts` | sculptor/sculptor/services/dependency_management_service.py:812 | the sort puts newer versions first and loses none |
| `VersionSlots.PlaceIsOutranking` | sculptor/sculptor/services/dependency_management_service.py:1570 | the place of a version after sorting is the number of versions before it, ties in listing order |
| `VersionSlots.CleanedUpSurvives` | sculptor/sculptor/services/dependency_management_service.py:1550-1582 | cleanup leaves the listed versions but those outside the newest `keep`, save the active one, in order |
| `VersionSlots.SurvivesExactlyWhen` | sculptor/sculptor/services/dependency_management_service.py:1550-1582 | a version survives if and only if fewer than `keep` come before it or it is the active one |
| `VersionSlots.CleanupKeepsResolution` | sculptor/sculptor/services/dependency_management_service.py:784-813 | in managed mode cleanup never changes which version resolves |
| `VersionSlots.ResolvedMeans` | sculptor/sculptor/services/dependency_management_service.py:784-813 | what resolves, by the directory: the recommended version if and only if its binary is there, else one with a binary that no other ranks above, none if there is no binary |
| `VersionSlots.RelistingKeepsResolutionExactlyWhen` | sculptor/sculptor/services/dependency_management_service.py:784-813 | for any listing order afterwards: if and only if the recommended binary is there or nothing ties with what resolved |
| `VersionSlots.InstalledVersionResolves` | sculptor/sculptor/services/dependency_management_service.py:1533-1542 | an installed recommended version resolves, also after the cleanup that follows |
| `VersionSlots.OlderInstallDoesNotResolve` | sculptor/sculptor/services/dependency_management_service.py:798-813 | a version that is not the recommended one does not come into use below a newer one |
| `ToolDirectories.ToolDirectory.FindManagedBinary` | sculptor/sculptor/services/dependency_management_service.py:784-813 | the recommended version if its binary is there, else the newest with one |
| `ToolDirectories.ToolDirectory.RemoveTemps` | sculptor/sculptor/services/dependency_management_service.py:1556-1559 | temporary directories go and no version slot is touched at any moment |
| `ToolDirectories.ToolDirectory.CleanupOldVersions` | sculptor/sculptor/services/dependency_management_service.py:1550-1582 | exactly the newest `keep` versions and the one in use are left, nothing new and no temporary directory; the same version resolves as before, and a configured version stays; what is left in the end was there at every moment |
| `ToolDirectories.ToolDirectory.DownloadVerifyStage` | sculptor/sculptor/services/dependency_management_service.py:1463-1548 | what every answer of the network, the tool and the file system leads to: the outcome and the directory; after success the version is there with the staged content and the right checksum; every state in between, hence every crash, holds only versions whose checksum and probe were right, and all versions the install keeps |
| `ToolDirectories.ToolDirectory.Restart` | sculptor/sculptor/services/dependency_management_service.py:1584-1602 | start-up after a crash in any state the directory has been in: no temporary directory is left, only trusted versions are, the same version resolves and a configured one stays |
| `ToolDirectories.ToolDirectory.MoveIntoSlot` | sculptor/sculptor/services/dependency_management_service.py:1533-1537 | removal of the old tree and rename: in between the slot is empty |
| `ToolDirectories.SuccessResolves` | sculptor/sculptor/services/dependency_management_service.py:1533-1542 | after a successful install of the recommended version resolution returns it |
| `ToolDirectories.UnsuccessfulKeepsSlotsExactlyWhen` | sculptor/sculptor/services/dependency_management_service.py:1497-1548 | an unsuccessful install leaves the slots as they were unless a verified, staged and probed tree could not be renamed and the version was installed before |
| `AuthSessions.InvHolds` | sculptor/sculptor/services/dependency_management_service.py:907-1001 | the invariant of stored, claimed and dropped sessions holds in every run |
| `AuthSessions.OneCodePerProcess` | sculptor/sculptor/services/dependency_management_service.py:967-979 | no login process is ever sent a second code |
| `AuthSessions.OneClaimPerProcess` | sculptor/sculptor/services/dependency_management_service.py:967-973 | no process is claimed by two submits |
| `AuthSessions.WaitingSubmitHasSentItsCode` | sculptor/sculptor/services/dependency_management_service.py:967-985 | in every run a submit that waits for its process has claimed it and sent it exactly one code |
| `AuthSessions.SignInSendsTheCode` | sculptor/sculptor/services/dependency_management_service.py:907-1001 | from any state of the service a sign-in that goes well sends its new login the one code and ends it, having ended only the session stored before |
| `AuthSessions.StartDoes` | sculptor/sculptor/services/dependency_management_service.py:907-937 | what a start does in each of its steps and what it leaves alone |
| `AuthSessions.SubmitDoes` | sculptor/sculptor/services/dependency_management_service.py:967-986 | what a submit does in each of its steps and what it leaves alone |
| `AuthSessions.StopDoes` | sculptor/sculptor/services/dependency_management_service.py:602-613 | stopping ends the stored session, or nothing if it cannot have the lock |
| `AuthSessions.HandleIsChangedBy` | sculptor/sculptor/services/dependency_management_service.py:907-1001 | in every run a stored handle is changed only by a later start, the submit that claims it, a stop or the drop of the start that spawned it |
| `AuthSessions.ProcessIsEndedBy` | sculptor/sculptor/services/dependency_management_service.py:907-1001 | a login process ends by itself, while stored by a later start or a stop, by its own start's drop or by the submit that claimed it |
| `AuthSessions.LateStartSparesNewerSession` | sculptor/sculptor/services/dependency_management_service.py:988-1001 | in every run no step of an earlier start clears a newer handle or touches its process |
| `AuthSessions.NoProcessIsOrphaned` | sculptor/sculptor/services/dependency_management_service.py:907-940 | every live process is stored, claimed, or about to be terminated |
| `AuthSessions.StoppingLeavesNothing` | sculptor/sculptor/services/dependency_management_service.py:602-613 | once the handle is cleared and every call has returned no login runs |
| `Edits.PrefixDiscardsDeeper` | sculptor/sculptor/foundation/nested_evolver.py:108-120 | assigning at a path discards all edits at or below it; with the same path, the last write wins |
| `Edits.EditTuple` | sculptor/sculptor/foundation/nested_evolver.py:143-156 | at a position counted from either end exactly that item is edited, any other position is an index error |
| `Edits.EditRecord` | sculptor/sculptor/foundation/nested_evolver.py:122-141 | exactly the named field is edited, any other name is an attribute error |
| `Edits.EditDict` | sculptor/sculptor/foundation/nested_evolver.py:143-156 | exactly the entry of the key is edited, from a placeholder if it is missing |
| `Edits.UnsupportedIsRefused` | sculptor/sculptor/foundation/nested_evolver.py:122-156 | every access that a value does not support is refused with its own error and changes nothing |
| `Edits.SessionIsStepwise` | sculptor/sculptor/foundation/nested_evolver.py:39-57 | a session makes its edits one after the other |
| `Edits.PartedEditsCommute` | sculptor/sculptor/foundation/nested_evolver.py:101-180 | edits along paths that part commute, in result and in answers |
| `Edits.WriteThenRead` | sculptor/sculptor/foundation/nested_evolver.py:101-180 | a value written is read back, and a walk is refused before the write if and only if after it |
| `Edits.ReadsAreInvisibleExactlyWhen` | sculptor/sculptor/foundation/nested_evolver.py:143-156 | navigating leaves the result alone if and only if it passes no missing dictionary key |
| `Edits.PresentReadsCanBeDropped` | sculptor/sculptor/foundation/nested_evolver.py:122-156 | such reads can be left out of a session |
| `Evolvers.Evolver.constructor` | sculptor/sculptor/foundation/nested_evolver.py:104-106 | an evolver that nothing was assigned through refreezes to the value it wraps |
| `Evolvers.Evolver.Assign` | sculptor/sculptor/foundation/nested_evolver.py:108-120 | after an assignment refreezing gives the assigned value |
| `Evolvers.Evolver.GetAttribute` | sculptor/sculptor/foundation/nested_evolver.py:122-141 | where attribute access leads, which errors it raises, and that it changes nothing |
| `Evolvers.Evolver.GetItem` | sculptor/sculptor/foundation/nested_evolver.py:143-156 | where subscripting leads, negative positions and the placeholder for a missing key included |
| `Evolvers.Evolver.Apply` | sculptor/sculptor/foundation/nested_evolver.py:101-180 | navigating and assigning in the edit tree is functional update at the path |
| `Evolvers.Evolver.Chill` | sculptor/sculptor/foundation/nested_evolver.py:158-180 | refreezing computes the specified value |
| `Evolvers.Session` | sculptor/sculptor/foundation/nested_evolver.py:39-57 | any sequence of navigations and assignments refreezes to the fold of functional updates |
| `Evolvers.EditCutOff` | sculptor/sculptor/foundation/nested_evolver.py:108-120 | a child evolver held across an assignment to its parent records changes of its own and no longer reaches the parent |
| `WorkflowMerge.WindowIsLastOfHistory` | sculptor/sculptor/state/workflow_state.py:183-192 | the window is the last three of the whole history once runs of one call are collapsed |
| `WorkflowMerge.PushingWindowIsPushingCalls` | sculptor/sculptor/state/workflow_state.py:183-192 | pushing an accumulated window is pushing the calls it came from |
| `WorkflowMerge.AccumulatedIsTree` | sculptor/sculptor/state/workflow_state.py:164-197 | keys stay unique and windows well-formed |
| `WorkflowMerge.MergingIsAssociative` | sculptor/sculptor/state/workflow_state.py:164-197 | merging is associative, entry order and windows included |
| `WorkflowMerge.PremergingIsInvisible` | sculptor/sculptor/state/workflow_state.py:121-155 | a payload may be merged on its own first, whatever it holds |
| `WorkflowMerge.RowsKeepTheirPlaces` | sculptor/sculptor/state/workflow_state.py:171-175 | existing rows keep their positions, new ones follow |
| `WorkflowMerge.PayloadWins` | sculptor/sculptor/state/workflow_state.py:169-175 | what a payload says last about a row is shown, and other rows are left alone |
| `WorkflowMerge.MergingOneEntry` | sculptor/sculptor/state/workflow_state.py:164-197 | field by field: the row of the same kind and number is replaced where it stands or a new one appended, its window taking the entry's own calls or else its latest one |
| `WorkflowMerge.MergingIsStepwise` | sculptor/sculptor/state/workflow_state.py:164-197 | a payload is merged entry by entry |
| `WorkflowMerge.AcceptedAre` | sculptor/sculptor/state/workflow_state.py:138-147 | exactly the well-formed entries are accepted, in order |
| `WorkflowMerge.AllAcceptedAre` | sculptor/sculptor/agents/default/claude_code_sdk/output_processor.py:1130-1141 | payloads count in the order of arrival, absent ones for nothing |
| `WorkflowMerge.WindowShowsLatestCalls` | sculptor/sculptor/state/workflow_state.py:183-195 | an agent's window ends with its latest non-empty call |
| `WorkflowMerge.Merge` | sculptor/sculptor/state/workflow_state.py:164-197 | the dictionary loops compute the merge |
| `WorkflowMerge.Parse` | sculptor/sculptor/state/workflow_state.py:121-155 | absent payloads give nothing, unknown and malformed entries are skipped |
| `WorkflowMerge.Accumulate` | sculptor/sculptor/agents/default/claude_code_sdk/output_processor.py:1130-1141 | merging payload by payload shows what absorbing every accepted entry one by one would |
| `LatestTable.Tables.constructor` | sculptor/sculptor/database/automanaged.py:212-229 | the list of upsert assignments built from the columns |
| `LatestTable.Tables.BeforeInsert` | sculptor/sculptor/database/automanaged.py:234-245 | the trigger keeps the latest table the fold of the log |
| `LatestTable.Tables.Insert` | sculptor/sculptor/database/automanaged.py:232-266 | one insert takes effect as a whole or not at all; the snapshot table holds exactly the logged rows, whose creation time alone is stamped afterwards |
| `LatestTable.UpsertKeepsLatest` | sculptor/sculptor/database/automanaged.py:218-229 | one upsert takes the latest version of the rows to that of one row more |
| `LatestTable.MonotonicColumnsForgetOrder` | sculptor/sculptor/database/automanaged.py:222-226 | monotonic columns depend on the set of rows only |
| `LatestTable.StaleRowCannotLower` | sculptor/sculptor/database/automanaged.py:222-226 | an upsert over the committed row cannot lower a monotonic column, and clears it if and only if it brings a null |
| `LatestTable.RequiredIsNeverNull` | sculptor/sculptor/database/automanaged.py:148-158 | a required column is never null in the latest table |
| `WriterSnapshots.SerialisedWritersKeepTheFold` | sculptor/sculptor/database/automanaged.py:218-229 | in every run in which no transaction commits over an outdated snapshot the latest table is the fold of the committed rows |
| `WriterSnapshots.EndingDoes` | sculptor/sculptor/services/data_model_service/sql_implementation.py:794-822 | a commit logs its rows, a rollback leaves table and log alone, and either frees the writer's slot if it was its own |
| `WriterSnapshots.ImmediateIsSerialised` | sculptor/sculptor/services/data_model_service/sql_implementation.py:794-822 | an immediate transaction's snapshot is the committed table when it commits, whatever deferred ones do |
| `WriterSnapshots.ImmediateCannotLower` | sculptor/sculptor/services/data_model_service/sql_implementation.py:108-119 | in every run the commit of an immediate transaction lowers no monotonic column |
| `WriterSnapshots.SnapshotProtectsExactlyWhen` | sculptor/sculptor/services/data_model_service/sql_implementation.py:113-118 | a snapshot protects a monotonic column against every stale row if and only if its value has not fallen behind the committed one |
| `WriterSnapshots.DeferredWriterCanLower` | sculptor/sculptor/services/data_model_service/sql_implementation.py:113-118 | a complete run in which a deferred transaction takes a committed deletion back |
| `LatestTable.FirstAndLastRowSettle` | sculptor/sculptor/database/automanaged.py:218-229 | creation time is the first row's, ordinary columns are the last row's |
| `LineSplitter.WholeCutIsSplit` | sculptor/sculptor/foundation/subprocess_utils.py:312-317 | lines and rest without a torn break are what splitting the whole text gives |
| `OutputGathering.FeedingCuts` | sculptor/sculptor/foundation/subprocess_utils.py:304-317 | a chunk keeps the cut, and keeps it whole if and only if it tears no CR LF apart |
| `OutputGathering.PartialOutput.Write` | sculptor/sculptor/foundation/subprocess_utils.py:304-317 | the loop over one chunk's lines |
| `OutputGathering.LinesAreThoseOfTheWholeExactlyWhen` | sculptor/sculptor/foundation/subprocess_utils.py:295-320 | nothing is lost, and the lines are those of the whole output if and only if no chunk boundary splits a CR LF |
| `OutputGathering.ChunkingIsInvisible` | sculptor/sculptor/foundation/subprocess_utils.py:295-320 | untorn chunkings of the same bytes emit the same lines |
| `OutputGathering.Gatherer.GatherOutput` | sculptor/sculptor/foundation/subprocess_utils.py:355-372 | after the process has exited and without shutdown both pipes end up empty |
| `OutputGathering.RunToEnd` | sculptor/sculptor/foundation/subprocess_utils.py:715-760 | without interruption the result is everything the process wrote, and the lines passed on join to it |
| `Versions.NextVersion` | sculptor/sculptor/version.py:66-106 | the bump branch by branch |
| `Versions.NextIsLarger` | sculptor/sculptor/version.py:76-91 | a major, minor or patch bump is a final release that is larger by one in just that place |
| `Versions.NextCandidateIs` | sculptor/sculptor/version.py:92-106 | bumping the pre-release keeps the release and counts on, stripping it leaves the final release, a post-release is refused |
| `Versions.NextIsNewerExactlyWhen` | sculptor/sculptor/version.py:66-106 | a bump makes a version newer except giving a final release a candidate or stripping nothing |
| `Versions.NextIsFirst` | sculptor/sculptor/version.py:66-106 | no final release lies between a version and its major, minor or patch bump |
| `Versions.NextCandidateIsFirst` | sculptor/sculptor/version.py:92-98 | no candidate of the same release lies between a version and the next candidate |
| `Versions.CandidatesClimbToFinal` | sculptor/sculptor/version.py:66-106 | candidates climb, and strip to the same final release above them |
| `Versions.ReleasesAgree` | sculptor/sculptor/version.py:109-125 | comparing stripped releases is comparing three padded segments |
| `Versions.ReleaseDecides` | sculptor/sculptor/version.py:109-125 | in PEP 440's order the epoch decides first, then the first segment that differs |
| `Versions.Ladder` | sculptor/sculptor/version.py:109-125 | the order of everything around one release: dev, a, b, rc, final, local, post, each number with its own dev and post releases |
| `Versions.EqualExactlyWhen` | sculptor/sculptor/version.py:109-125 | two versions are equal in that order if and only if they differ at most in trailing zeros |
| `Versions.FirstIdentifierDecides` | sculptor/sculptor/version.py:109-125 | item 11 of SemVer 2.0.0 for identifiers: the first difference decides, and a proper prefix comes first |
| `Versions.IdentifierOrder` | sculptor/sculptor/version.py:109-125 | numbers by size and before words, words by their first difference |
| `Versions.SemverOrder` | sculptor/sculptor/version.py:109-125 | the three numbers decide first, and a version without a tag comes after those with one |
| `Versions.ConvertsExactlyWhen` | sculptor/sculptor/version.py:109-125 | what converts, what is refused as what, and the segments and the tag that are kept |
| `Versions.ConversionKeepsOrderExactlyWhen` | sculptor/sculptor/version.py:109-125 | the conversion keeps PEP 440's order in SemVer 2.0.0 item 11 but for a dev release against an alpha or beta of the same release |
| `Versions.ConversionEmbedsReleases` | sculptor/sculptor/version.py:109-125 | on final, rc and dev versions it is an order embedding |
| `Versions.ConversionForgetsExactly` | sculptor/sculptor/version.py:109-125 | which versions become one |
| `Versions.StampsOrderExactlyWhen` | sculptor/builder/cli.py:918-923 | stamps order by date and pipeline number but for a wider number on an earlier date |
| `Versions.StampIs` | sculptor/builder/cli.py:918-923 | the stamp is the date and at least six digits of pipeline number |
| `Versions.BuildsOrderByDateAndPipeline` | sculptor/builder/cli.py:918-923 | dev builds order by date and pipeline number, in both orders, below a million pipelines |
| `ReleaseTrain.Repository.CommitNewVersion` | sculptor/builder/cli.py:645-684 | git refuses a branch that exists and a commit that changes nothing |
| `ReleaseTrain.Repository.CutRelease` | sculptor/builder/cli.py:166-260 | when a line is begun, and its first tag |
| `ReleaseTrain.CutLooksForNoCreatedBranch` | sculptor/builder/cli.py:217-226 | the branch looked for before a cut is none that a cut creates |
| `ReleaseTrain.Repository.FixupRelease` | sculptor/builder/cli.py:265-304 | the next candidate, refused exactly after the final release |
| `ReleaseTrain.Repository.HotfixRelease` | sculptor/builder/cli.py:307-358 | when a patch line is begun; nothing is tagged |
| `ReleaseTrain.Repository.PromoteRelease` | sculptor/builder/cli.py:361-410 | a candidate becomes the final release, once |
| `ReleaseTrain.TagsOfALine` | sculptor/builder/cli.py:760-766 | in every history a line's tags are rc1 to rcN and then at most one final, strictly climbing in both orders |
| `Publication.SplittingCuts` | sculptor/builder/cli.py:541-544 | splitting a joined path once at the commit cuts after the first segment that ends in it |
| `Publication.SnapshotBuildArtifacts` | sculptor/builder/cli.py:511-553 | everything a snapshot writes, and when it is refused |
| `Publication.DevLookupFindsStagedExactlyWhen` | sculptor/builder/cli.py:536-546 | a dev lookup finds what staging wrote if and only if the commit's name is not the ending of an earlier segment |
| `Publication.LookupsFindSnapshots` | sculptor/builder/artifacts.py:173-190 | every source publishing looks up was written by the snapshot of the same build |
| `Publication.InputIsFirstOutput` | sculptor/builder/artifacts.py:164-169 | the import-time check on the file table holds of the table |
| `Publication.Review` | sculptor/builder/cli.py:462-489 | which targets block, which are dropped wholesale |
| `Publication.PublishBuildArtifacts` | sculptor/builder/cli.py:435-507 | nothing is copied unless this build has staged everything for Linux x64 and macOS, and a dev build has its pipeline; otherwise exactly the complete targets are |
| `Publication.TargetsAreWhole` | sculptor/builder/cli.py:475-507 | a copy is made if and only if all sources of its target are there |
| `Publication.PublishedTargetsAre` | sculptor/builder/cli.py:475-507 | the same by the objects in the bucket: a target is copied whole if all its files are there and not at all otherwise |
| `Publication.CopiesStayInPlace` | sculptor/builder/artifacts.py:96-190 | nothing strays: a dev build goes to its version's directory, a pre-release to the candidates only, each copy is a file of the target under one of its names |
| `Publication.EveryOutputIsCopied` | sculptor/builder/artifacts.py:96-190 | nothing is missing: every file under every name, a final release to candidates and stable both |
| `Publication.InstallerIsVersioned` | sculptor/builder/artifacts.py:127-170 | every target offers its installer under a fixed name and under the version, and the updater's manifest |
| `Summary.KeptIsLongestPrefix` | scripts/junit_test_summary.py:407-422 | what is kept is the longest prefix that fits |
| `Summary.Fill` | scripts/junit_test_summary.py:407-422 | the keeping loops |
| `Summary.AssembleWithTruncation` | scripts/junit_test_summary.py:364-438 | the assembled text on both paths |
| `Summary.PredictedSizeIsExact` | scripts/junit_test_summary.py:389-395 | the fast path's predicted size is exact |
| `Summary.FooterFitsHeadroom` | scripts/junit_test_summary.py:404-437 | the footer fits its headroom when its numbers take at most eighty characters |
| `Summary.SummaryFits` | scripts/junit_test_summary.py:364-438 | the summary stays under the limit when the fixed part and the headroom do |
| `Summary.PostedSummaryFits` | scripts/junit_test_summary.py:434-438 | and so it does with the words the script uses |
| `Summary.FailuresComeFirst` | scripts/junit_test_summary.py:376-379 | failures are kept before rows, and neither is given up early |
| `Summary.NoMoreFailuresFit` | scripts/junit_test_summary.py:404-422 | with one more failure the text would leave less than 240 characters for the footer |
| `Summary.NoMoreRowsFit` | scripts/junit_test_summary.py:404-422 | and so with one more row |
| `Summary.SummaryIs` | scripts/junit_test_summary.py:364-438 | the whole text: everything if it fits, otherwise what is kept followed by the numbers of what is missing |
| `Summary.HeaderShows` | scripts/junit_test_summary.py:379-402 | where the header lines stand in the text |
| `Summary.FailuresShow` | scripts/junit_test_summary.py:379-402 | where the failures stand, in order |
| `Summary.TableShows` | scripts/junit_test_summary.py:379-402 | where the table's header stands |
| `Summary.RowsShow` | scripts/junit_test_summary.py:379-402 | where the rows stand, in order |
| `Summary.DisclosureReads` | scripts/junit_test_summary.py:424-438 | what the footer says, each part only if something is missing |
| `Summary.DecimalReadsBack` | scripts/junit_test_summary.py:424-438 | its numbers read back as the numbers that were written |
| `Summary.FooterExactlyWhenDropped` | scripts/junit_test_summary.py:391-438 | with anything to drop, the footer appears if and only if something was dropped |
| `Summary.EmptyDocumentMayCarryFooter` | scripts/junit_test_summary.py:391-438 | with nothing to drop, the footer appears if and only if the fixed part is too long |
| `MediaSpans.BackToFrontIsRight` | sculptor/sculptor/state/claude_state.py:66-69 | removing spans that follow each other back to front leaves what lies between |
| `MediaSpans.RemovalIsPositional` | sculptor/sculptor/state/claude_state.py:66-69 | removal depends on positions only |
| `MediaSpans.ExtractionIsExactExactlyWhen` | sculptor/sculptor/state/claude_state.py:55-69 | for images and videos that do not overlap, exactly the covered positions are removed if and only if every image precedes every video |
| `MediaSpans.NestedVideoExactlyWhen` | sculptor/sculptor/state/claude_state.py:55-69 | a video match inside an image match makes the removal take what follows too, so that it is right if and only if nothing follows |
| `MediaSpans.CleanedTextExactlyWhen` | sculptor/sculptor/state/claude_state.py:55-71 | the same for the local tags of a text |
| `MediaSpans.ExtractMediaTags` | sculptor/sculptor/state/claude_state.py:46-71 | the reverse removal loop and the paths |
| `MediaSpans.PiecesTileExactlyWhen` | sculptor/sculptor/state/claude_state.py:98-113 | the pieces join to the text if and only if no tags overlap |
| `MediaSpans.SplittingTiles` | sculptor/sculptor/state/claude_state.py:74-113 | tags that do not overlap are taken in source order and nothing is lost, whatever order they were found in |
| `MediaSpans.BlocksAlternate` | sculptor/sculptor/state/claude_state.py:98-113 | the blocks one by one: the stretch up to a tag unless it is blank, then the tag's file |
| `MediaSpans.SplittingShows` | sculptor/sculptor/state/claude_state.py:74-113 | the file blocks hold exactly the paths of the local tags and the text blocks exactly the stretches around them that are not blank, both in source order |
| `MediaSpans.SplitTextAndMedia` | sculptor/sculptor/state/claude_state.py:74-113 | the blocks in order, blank text left out |

## Left out

- Exception messages, tracebacks, `_deduplicate_exceptions` and the main exception of a group: the model keeps which
  failures are reported and in which order, not their text.
- Errors of the file system other than a failed write of the download or a failed final rename.
- The counter behind `_cleanup_tick`: with an interval of one it cleans up after every start, as the class does; the
  transition system lets cleanup strike at any moment.
- Several reads inside one test of an ancestor, and the moment between recording an exit failure and setting the phase:
  each is one step, because the fields concerned change together for any reader that tests the phase first.
- A process that cannot be set up, whose error the waits collect like a timeout, and the setup errors of threads.
- `CompoundEvent`, waiting on events and the wait lock: polling adds nothing to what `is_set` means.
- NoWaitCycle: the acquisitions of locks by `_get_voice_models_installer`, `stop`, status reads and the sign-in calls,
  whose lock is held while a group's lock is taken, are not among the steps.
- Session: every access starts at the root; for evolvers held across an assignment to a parent see `EditCutOff`.
- ExtractionIsExactExactlyWhen: images and videos that overlap are left to `NestedVideoExactlyWhen`, which treats one
  pair, a video inside an image.
- CleanedTextExactlyWhen: the same.
- The install protocol is modelled on values rather than on an object, because its point is the interleaving of threads;
  updates in place of the progress and error dictionaries, which the flags determine, are not captured.
- Progress and error values, status pushes, and starting a download after the service began to stop: the code promises
  nothing there. After a failed thread spawn the installing flag stays set, so no liveness is stated for it.
- The file loop of the voice models bundle: its lock protocol is covered, its files are not.
- Concurrent installs of different tools in one directory: each tool has its own directory and one install at a time.
- Attributes of records that are not fields, fields named like the evolver's own methods, validation when a model is
  rebuilt, and tuple subclasses.
- An `object_type` sent over the wire, which the code uses as part of an entry's key.
- Statements of a transaction before its first write, and the error with which SQLite may refuse a deferred writer.
- Column types, migrations and the dropping and recreating of triggers; other constraints are one yes-or-no parameter.
- Decoding of lines, the shutdown escalation of a process, and `maybe_truncate_middle`, which is one slicing expression.
- Local parts of versions are compared as single numbers; parsing of version strings is an input.
- Release commands with checks bypassed or in dry-run mode, commands interrupted halfway, and edits of a branch's
  version by hand; retrieving artifacts and generating update manifests.
- The order of two copies to one destination in a publication: the file table has no two such outputs.
- Reading junit files, sorting and rendering rows (`AttemptsRecord`, `_parse_junit`): counters with one branch each.
- Regular expressions: media matches are inputs, taken to be non-empty, in order and within the text, and not to
  overlap where a lemma says so.
- `gh` sign-in: the same handle discipline as Claude's, without a code.
- `PiLoginService` and the exception matching of `thread_utils`: one atomic removal from a registry decides the only
  broadcast, and one recursive test decides a match, so both would only add easy members.
