# ArkClaw: verified models of the packaging and presentation cores

This project models, in Dafny, the parts of ArkClaw whose correctness spans many steps, and proves what
they promise. `dafny verify dfyconfig.toml` checks everything.

- **Autostart timeline** (`Timeline*.dfy`). Separate commands write a one-cell control register; a polling
  observer reads it, drives a coordinator with lifecycle, phase, revision and deadlines, and feeds a
  change-compressing log. The coordinator and the tracker are classes that update fields in place, the
  observer is a loop over them, and the protocol is a step relation over arbitrary interleavings.
  `TimelineMeaning`, `TimelineDeadlines` and `TimelineCommands` say what the steps, the deadlines and the
  commands mean without naming the functions that compute them.
- **Transactional archive** (`FileTree`, `Disks`, `ArchiveLayout`, `ArchiveSteps`, `TransactionalArchive`,
  `ManifestText`, `CombinedManifest`). The file system is a map from paths to nodes; a disk object performs
  each operation or fails, at its own choice. The transaction is imperative code on that disk.
- **Capsule placement** (`ConversationAnchor`), **streaming scan** (`ChunkedSearch`, `WideText`, `TextCoding`,
  `ArtifactScan`), **native bridge** (`Spine*.dfy`), **network samples** (`Network*.dfy`), **canonical
  environment** (`StartupEnvironment`) and **retained process handle** (`ProcessExitObserver`). `AsciiCase`
  folds the letters of names.

## Assumptions

Timeline

- Commands are serial: one reads, checks and writes the register with no other command in between. Two
  racing commands could overwrite each other at the same revision. The observer's two file reads are
  separate steps, so a command may fall between them; a crash of the observer is a step too.
- The ready file, the owner's interface checkpoint and the registry query at T1 are arbitrary answers, so the
  results hold whatever they say. Time is a real number supplied to each pass.
- Observations are those the three factories can build (`FactoriesBuildReadings` shows that they qualify).

Archive

- A failing rename has no effect, and a rename onto an existing path fails. Nothing else touches the
  directories. Path components are plain names.
- Results about where the sources are hold for well-separated paths: sources and destinations pairwise
  non-nested, no destination meeting the manifest file, the archive not kept inside a source, and a staging
  name that differs from the archive name. The code checks only that paths are distinct
  (packaging/transactional_archive.py:354-371), so the model states separation as a hypothesis of the claims and not
  as a precondition of the call. Without it the model still runs every branch.
- The disk counts a fault for every operation that fails and for every snapshot that does not show the
  directory as it is, and records the paths of the latter; a faulty snapshot may be anything.
- The volume and reparse-point checks answer arbitrarily. The disk counts them, the ones that say no, and the
  paths resolved and directories listed; it lists the errors raised, and counts as a blunder an operation that
  failed and could not have succeeded. These records are ghost state: the transaction does not see them.

Elsewhere

- Letters fold as ASCII. A dictionary is the sequence of its items in insertion order, or a map where its
  order is not observable; canonical entries are sorted by a unique folded name, so the map determines them.
- The literals that are searched for as UTF-16 text are ASCII, as all those of the scanner are.
- Address classification, pattern matching and digests are arbitrary functions; a pattern match is only
  assumed to lie inside the window it was found in.
- What the animation runtime computes is arbitrary and then checked; it reports completions only while it is
  being updated. Ordinals do not overflow. The groups of an integer occupy different bits, so the bridge's
  bitwise or is a sum, reduced modulo 2^32.
- The process interface answers anything and does not raise. A ghost log holds its calls with their answers.

## Where code and documentation differ

The docstring of `place_conversation_capsule` promises the largest reduced size. The bound of the search
(src/arkclaw/presentation/conversation_anchor.py:200-207) rounds down before the scaled size is rounded down, and can
exclude a percentage that fits at a larger size. `LargestSizeIffNoLargerFitsAboveBound` gives the exact
condition for the promise, `BoundExcludesALargerSize` an instance where it fails. What the code always
guarantees is the largest percentage up to the bound.

The manifest digest is meant to identify a manifest. Its payload does so for the names that
`ClearIffNeverConfused` characterises, which include every name without a newline; `PayloadNeedsClearNames` is an
instance of two manifests with one payload.

## Model

| member | source | states |
|---|---|---|
| `TimelineProtocol.AbortIsFinal` | packaging/autostart_run_timeline_probe.py:2017-2050 | an abort written before the observer has accepted T9 makes exit status 0 impossible in every continuation, even when later commands overwrite it before it is read |
| `TimelineProtocol.ReturnsZeroOnlyForACompleteTimeline` | packaging/autostart_run_timeline_probe.py:1690-1794 | exit status 0 in any interleaving implies: T1 to T9 accepted in order, every phase observed, the owner running in every observation of T1 to T6 and in every one before T7 after it was first seen running, T9 accepted on verified exit evidence, and a log that is absent up to a point and owned after it, with T3 to T9 each ending owned |
| `TimelineProtocol.AcceptedPhasesAreAPrefix` | packaging/autostart_run_timeline_probe.py:1698-1735 | in any interleaving the accepted messages are T1, T2, ... without a gap at revisions 1, 2, ..., followed by at most one abort; the register is never behind the observer, so the "went backwards" branch is dead |
| `TimelineProtocol.TwoAheadFails` | packaging/autostart_run_timeline_probe.py:1708-1730 | a register two or more revisions ahead makes the observer return 2 with the revision code, in the same phase and with nothing accepted |
| `TimelineProtocol.NextKeepsInv` | packaging/autostart_run_timeline_probe.py:1690-1794 | every command write, half pass and crash keeps the invariant of observer, register, owner file, acceptance history and log |
| `TimelineProtocol.RunKeepsInv` | packaging/autostart_run_timeline_probe.py:1690-1794 | the invariant holds after any sequence of steps from a state that has it |
| `TimelineProtocol.WriteKeepsInv` | packaging/autostart_run_timeline_probe.py:1961-2013 | a phase, abort or owner command, accepted or refused, keeps the invariant: the register stays at or ahead of the observer and its revision counts its phase and its aborts |
| `TimelineProtocol.AcceptKeepsOrder` | packaging/autostart_run_timeline_probe.py:1708-1725 | accepting the register's message extends the gap-free history by exactly that message |
| `TimelineProtocol.LookKeepsInv` | packaging/autostart_run_timeline_probe.py:1737-1793 | probing the owner and the value logs one entry of the current phase, keeps phases in order, and returns 0 only at T9 with a verified log |
| `TimelineProtocol.OwnerCheckKeepsInv` | packaging/autostart_run_timeline_probe.py:585-617 | before T7 a check that does not fail leaves the owner running exactly when one is registered, and the check touches only the owner fields |
| `TimelineProtocol.NextKeepsAbortPending` | packaging/autostart_run_timeline_probe.py:481-495 | once the register has counted an abort and T9 is not accepted, no step accepts T9 or returns 0 |
| `TimelineProtocol.UninterruptedPass` | packaging/autostart_run_timeline_probe.py:1690-1794 | the two half passes with no command in between are one pass of the polling loop |
| `TimelineCommands.ZeroNeedsReadyOpening` | packaging/autostart_run_timeline_probe.py:1969-1979 | no run of the protocol returns 0 unless T1 was commanded when the interface was ready and the value absent |
| `TimelineCommands.RegisterMovesOn` | packaging/autostart_run_timeline_probe.py:1961-2086 | over any run the register keeps its nonce and moves on by at least as many revisions as phases, and a named owner stays named |
| `TimelineCommands.PhaseCommandMeaning` | packaging/autostart_run_timeline_probe.py:1961-2013 | a phase command writes if and only if it carries the nonce, the next revision and phase, the current phase as expected and stop only for T9, with a ready interface and an absent value for T1 and clean terminal conditions for T9; and what it then writes |
| `TimelineCompletion.InOrderRunReturnsZeroIff` | packaging/autostart_run_timeline_probe.py:1690-1794 | any run that registers the owner and commands the phases in order, with any number of passes per phase at any times within the deadlines and any tolerated process and registry answers, returns at T9, with 0 if and only if what it logged is absent and then owned and T3 to T9 each end owned |
| `TimelineCompletion.TimelineInOrderReturnsZero` | packaging/autostart_run_timeline_probe.py:1777-1793 | such a run exists and returns 0 for every nonce, owner and exit evidence, direct or from the supervisor |
| `TimelineCompletion.RunReaches` | packaging/autostart_run_timeline_probe.py:1690-1735 | after the first n passes of phase p of such a run the observer is between passes in that phase at that revision with its deadlines set, and has logged exactly the passes made |
| `TimelineDeadlines.TimeoutsOfRun` | packaging/autostart_run_timeline_probe.py:619-647 | in every run, a pass that begins 10800 s after the start, 3600 s after getting ready in T0, 5400 s after T1 or 1800 s after the last accepted message returns 2 with the code of the first of these deadlines, whatever it would find; a pass that begins before all of them never returns with such a code |
| `TimelineDeadlines.ClocksOfRun` | packaging/autostart_run_timeline_probe.py:1690-1735 | in every run the lease began with the last pass that accepted a message and the active time with the pass that entered T1 |
| `TimelineDeadlines.StartMeaning` | packaging/autostart_run_timeline_probe.py:1653-1689 | the loop starts exactly if the first reading is absent; an existing value and a failed read end it with their codes |
| `TimelineDeadlines.OwnerFileMeaning` | packaging/autostart_run_timeline_probe.py:1698-1701 | an owner file that cannot be read, or names another session or owner than the registered one, ends the run with its code; else the owner it names is registered |
| `TimelineDeadlines.RegisterMeaning` | packaging/autostart_run_timeline_probe.py:1702-1735 | a register that cannot be read, has gone back, or holds a message that is not accepted ends the run with its code, in the same phase and without an entry |
| `TimelineDeadlines.LookMeaning` | packaging/autostart_run_timeline_probe.py:1737-1793 | a look logs one entry of its phase unless the owner is unacceptable; foreign and unreadable values and an abort return 2 with their codes, and T9 returns by the verdict on the whole log |
| `TimelineDeadlines.PassLooks` | packaging/autostart_run_timeline_probe.py:1702-1745 | a pass that finds nothing new, or a message that it accepts, looks exactly once, in the state after the acceptance |
| `TimelineCoordinator.ReachableCoordinator` | packaging/autostart_run_timeline_probe.py:420-655 | after any sequence of calls, raising or not, the revision is the phase index, or one more exactly when an abort was accepted; a phase past T0 has an owner and both deadlines; asking for a timeout never raises |
| `TimelineCoordinator.ApplyKeepsCoherent` | packaging/autostart_run_timeline_probe.py:420-655 | each single call keeps that invariant, and at most one abort is ever accepted |
| `TimelineCoordinator.RejectedControlChangesNothing` | packaging/autostart_run_timeline_probe.py:457-564 | a rejected message changes nothing but the recorded owner state, and that only with the two codes about the owner |
| `TimelineCoordinator.AcceptedControlIsNext` | packaging/autostart_run_timeline_probe.py:471-575 | an accepted message is exactly the next one in revision and phase; T9 is accepted only with stop and verified evidence |
| `TimelineMeaning.AcceptedIff` | packaging/autostart_run_timeline_probe.py:457-566 | a message is accepted if and only if the timeline is open, nonce, next revision and current phase fit, and it is a plain abort of the phase or the next phase, with a running owner for T1 and, for T9, stop and a seen exit with every terminal condition clean |
| `TimelineMeaning.AcceptedEffect` | packaging/autostart_run_timeline_probe.py:481-575 | an accepted message restarts the lease and sets the revision; an abort only ends the timeline with its code, a phase is entered in the right lifecycle state, T1 starts the active time, T9 records how the exit was seen |
| `TimelineMeaning.RefusalMeaning` | packaging/autostart_run_timeline_probe.py:457-564 | the code of a refused message is that of the first condition that fails |
| `TimelineMeaning.RefusalEffect` | packaging/autostart_run_timeline_probe.py:457-564 | a refused message changes nothing but, for T1 and a registered owner, the owner state that the process status shows |
| `TimelineMeaning.OwnerStays` | packaging/autostart_run_timeline_probe.py:387-655 | over any sequence of calls the nonce, start, limits and a registered owner never change |
| `TimelineMeaning.NonceMeaning` | packaging/autostart_run_timeline_probe.py:994-1000 | a nonce is valid exactly if it is 32 lower-case hexadecimal digits |
| `TimelineCoordinatorObject.CreateCoordinator` | packaging/autostart_run_timeline_probe.py:387-418 | a coordinator comes back exactly for a valid nonce, in T0 at revision 0 and initialising; otherwise the nonce code is raised |
| `TimelineCoordinatorObject.ProbeCoordinator.MarkReady` | packaging/autostart_run_timeline_probe.py:420-427 | updates the fields to the specified next state, or raises the specified code; keeps the reachable-state invariant |
| `TimelineCoordinatorObject.ProbeCoordinator.RegisterOwner` | packaging/autostart_run_timeline_probe.py:429-448 | the same for registering the owner: repeats are accepted, anything after arming or a second owner is refused |
| `TimelineCoordinatorObject.ProbeCoordinator.AcceptControl` | packaging/autostart_run_timeline_probe.py:450-575 | the same for every branch of accepting a control message, and records whether an abort was accepted |
| `TimelineCoordinatorObject.ProbeCoordinator.BeginObserving` | packaging/autostart_run_timeline_probe.py:577-583 | the same for leaving the armed state |
| `TimelineCoordinatorObject.ProbeCoordinator.ObserveOwnerStatus` | packaging/autostart_run_timeline_probe.py:585-617 | the same for every process status, with the failure code returned |
| `TimelineCoordinatorObject.ProbeCoordinator.TimeoutCode` | packaging/autostart_run_timeline_probe.py:619-647 | returns the specified deadline code, whose meaning over runs `TimelineDeadlines.TimeoutsOfRun` gives; in a reachable state neither raise is taken |
| `TimelineCoordinatorObject.ProbeCoordinator.Fail` | packaging/autostart_run_timeline_probe.py:649-651 | ends in the failed state with the code |
| `TimelineCoordinatorObject.ProbeCoordinator.Complete` | packaging/autostart_run_timeline_probe.py:653-655 | ends in the completed state with the verified code |
| `TimelineLog.VerifiedIffAbsentThenOwned` | packaging/autostart_run_timeline_probe.py:789-936 | without override or timeout the verdict is "verified" if and only if the raw log is absent and then owned, with each of T3 to T9 observed and ending owned |
| `TimelineLog.SummaryMeaning` | packaging/autostart_run_timeline_probe.py:724-787 | the fields kept observation by observation are the log without consecutive repeats, the first record of each event in it, and the last state of each phase |
| `TimelineLog.CompressKeepsEvents` | packaging/autostart_run_timeline_probe.py:743-783 | dropping repeats loses no owned value and no absence after an owned value |
| `TimelineLog.CompressKeepsEntries` | packaging/autostart_run_timeline_probe.py:743-766 | a compressed log has the same distinct entries and the same last entry as the raw one |
| `TimelineLog.CompressIsIdempotent` | packaging/autostart_run_timeline_probe.py:743-746 | no kept record repeats the one before it, so compressing again changes nothing |
| `TimelineLog.PhaseStatesIsLast` | packaging/autostart_run_timeline_probe.py:767 | a phase is stored exactly when it was observed, and as owned exactly when its last observation was owned |
| `TimelineLog.FirstIsLeast` | packaging/autostart_run_timeline_probe.py:768-783 | an event's stored sequence number is that of the first record at which it happens |
| `TimelineLog.FactoriesBuildReadings` | packaging/autostart_run_timeline_probe.py:247-308 | each of the three factories gives consistent flags, and a stored value counts as owned exactly when it is the expected text of string type |
| `TimelineTrackerObject.TimelineTracker.Observe` | packaging/autostart_run_timeline_probe.py:724-787 | appends the observation to the raw log, returns the new record or nothing for a repeat, and keeps all fields the summary of the raw log |
| `TimelineTrackerObject.TimelineTracker.Summarize` | packaging/autostart_run_timeline_probe.py:789-847 | the safe code is the override, else the timeout code, else the verdict on the raw log; the counts, sequence numbers, phase states and disappearance interval are those of the raw log |
| `TimelineLog.DisappearanceMeaning` | packaging/autostart_run_timeline_probe.py:909-922 | an interval is reported exactly when the raw log has the value absent after it was owned; it is "after exit" exactly when the process was not running there, and else starts at the phase of the last owned record, which always exists; the phase reported is that of the first such record |
| `TimelineLog.VerdictMeaning` | packaging/autostart_run_timeline_probe.py:797-907 | the verdict is the first that applies: a query error, a foreign value, never owned, removed (after the exit, in T7, in T3 to T6 while running, or else incomplete), verified if T3 to T9 each ended owned, incomplete; each in terms of the raw log or its first removal |
| `TimelineObserver.RunObserver` | packaging/autostart_run_timeline_probe.py:1623-1794 | the polling loop over any passes gives the exit status, code, phase and raw log that folding the pass function gives, about which the theorems on runs, deadlines and looks are stated |
| `TimelineObserver.PollOnce` | packaging/autostart_run_timeline_probe.py:1691-1794 | one iteration on the coordinator and tracker objects is one pass of the function, with every early return |
| `TimelineObserver.ReadControl` | packaging/autostart_run_timeline_probe.py:1702-1735 | reading the register and accepting a message has the outcome of the second half pass, whatever is observed afterwards |
| `TimelineObserver.LookOnce` | packaging/autostart_run_timeline_probe.py:1737-1793 | the owner probe, the registry query and the return decisions are those of the function |
| `TimelineObserver.ObserverReturnsInTime` | packaging/autostart_run_timeline_probe.py:1690-1697 | if the clock advances at least the poll interval per pass, the loop has returned within 54001 passes whatever the register, probe and registry do |
| `TimelineObserver.ReturnedStaysReturned` | packaging/autostart_run_timeline_probe.py:1690-1794 | once a pass has returned, further input changes nothing |
| `TransactionalArchive.Archive` | packaging/transactional_archive.py:319-532 | whatever operations fail and however snapshots lie: before staging exists nothing is lost and no source changes; afterwards each source tree is, unchanged, at exactly one of its home, staging or archive path; completion means that all are in the archive beside the manifest and that none is at home; a source left away from home means no completed rollback and a preserved part; without a fault or a refused check the call completes if and only if the preflight conditions hold and the staging name is free, and otherwise the diagnostic names the first condition that fails, with its stage and source class; a refused check gives the category of that check; a completed call made every check and attempted nothing that could not succeed; one fault anywhere leaves every source at home, and the rollback then reports them restored if and only if the fault was not a misreading of the path of a source; a completed archive of misread sources took three faults; category and code are those of the last error raised; stage and source class say how far the block got; "restored" without a move means that every home is a directory; "part preserved" means, once staging exists, that the archive is not there or the rollback is not complete, and before that, without a fault, that the destination exists; every entry keeps its parent |
| `TransactionalArchive.Forward` | packaging/transactional_archive.py:343-448 | the try block keeps every moved source at one place and every other at home; past the creation of the staging directory it fails only on a fault, exactly one if the preflight snapshots are truthful, which they are if and only if no path of a source was misread; the end of the block means a verified archive with the manifest; its stage and source class say where it ended |
| `TransactionalArchive.VerifyMoved` | packaging/transactional_archive.py:425-443 | verifying the moved sources stops at the first fault and misreads no path of a source; without a fault it passes exactly on sources that equal their snapshots |
| `TransactionalArchive.VerifyAndPublish` | packaging/transactional_archive.py:425-448 | verification and the publishing rename take all sources from staging to the archive together or not at all, and succeed unless there is a fault or an untruthful snapshot |
| `TransactionalArchive.RollBack` | packaging/transactional_archive.py:469-485 | all sources are back at home unless an error stopped it, and then only a prefix of the moved ones is still away; without faults all are back, and it reports them restored if and only if the preflight snapshots are truthful |
| `TransactionalArchive.MoveBack` | packaging/transactional_archive.py:473-478 | moving back in reverse order leaves a prefix away and stops at the first fault, exactly one |
| `TransactionalArchive.AllRestored` | packaging/transactional_archive.py:479-484 | reports restored only if every source is a directory at home, and does report it if all match and no snapshot is faulty |
| `TransactionalArchive.Recover` | packaging/transactional_archive.py:457-523 | the diagnostic after moves: a source away means a failed rollback and a preserved part; category, code and source class are those of the first error or of the failed rollback; "part preserved" says exactly what is on the disk; a rollback without faults brings all back, keeps the original stage, and is reported completed if and only if the preflight snapshots are truthful |
| `TransactionalArchive.ReportUnmoved` | packaging/transactional_archive.py:493-523 | the diagnostic without moves: the category of the error, restored if and only if every home is a directory, and preserved if and only if a stale part, the staging directory or the archive is there |
| `TransactionalArchive.MoveHomeKeepsBased` | packaging/transactional_archive.py:476-478 | moving one source home changes the place of that source only |
| `TransactionalArchive.PublishedIsBased` | packaging/transactional_archive.py:433-436 | the publishing rename takes every source to the archive unchanged and leaves nothing in staging |
| `TransactionalArchive.AllMoved` | packaging/transactional_archive.py:425-448 | once all sources are moved, each matches its original below the base and none is at home |
| `TransactionalArchive.ManifestPublished` | packaging/transactional_archive.py:412-416 | the publishing rename takes the manifest into the archive unchanged |
| `TransactionalArchive.CategoryMeaning` | packaging/transactional_archive.py:274-293 | each category if and only if its condition: sharing violations by Windows code, else the kind of the error, else the stage; and which numeric code is reported |
| `ArchiveSteps.RunPreflight` | packaging/transactional_archive.py:343-394 | changes no tree; without a fault or a refused check it succeeds if and only if the call is admitted, and otherwise gives the category of the first condition that fails and the class of the source it is about; success gives one snapshot per source, which are the sources if and only if no path of a source was misread |
| `ArchiveSteps.AdmittedMeaning` | packaging/transactional_archive.py:343-381 | a call is admitted exactly with a plain archive name and at least one source, all of the five classes, with relative paths that differ, at existing directories, where there is neither an archive of that name nor a directory entry named like a staging directory |
| `ArchiveSteps.MakePart` | packaging/transactional_archive.py:395-416 | loses nothing, and leaves either every source untouched or the staging directory with every source at home; success means that the manifest is in it, with the parent directory of every destination; without a fault or a refused check it fails if and only if the staging name is taken |
| `ArchiveSteps.MoveSources` | packaging/transactional_archive.py:417-424 | the sources listed as moved are exactly those in staging, the others are at home and the manifest stays; it fails on one fault, naming the source it was at, and never because a directory is missing |
| `ArchiveSteps.Verify` | packaging/transactional_archive.py:425-432 | without a fault it passes if and only if every source below the base equals its snapshot; if they all do, it stops at the first fault |
| `ArchiveSteps.MoveKeepsReady` | packaging/transactional_archive.py:418-424 | a successful rename of the next source moves it and no other |
| `ArchiveLayout.MoveOne` | packaging/transactional_archive.py:420-423 | moving one source between two of its places keeps every other source where and as it is |
| `ArchiveLayout.PublishAll` | packaging/transactional_archive.py:435 | renaming the staging directory moves all sources at once |
| `FileTree.MoveClosed` | packaging/transactional_archive.py:420-423 | a rename to a free place whose parent exists leaves every entry its parent |
| `FileTree.MoveCarries` | packaging/transactional_archive.py:420-423 | a rename carries everything below the source along unchanged |
| `FileTree.MoveElsewhere` | packaging/transactional_archive.py:420-423 | a rename changes no tree apart from both its ends |
| `ManifestText.PayloadDeterminesManifest` | packaging/transactional_archive.py:191-198 | the payload depends on the items alone, not on their order, for any names; and for clear names it determines them: equal payloads if and only if equal items |
| `ManifestText.ClearIffNeverConfused` | packaging/transactional_archive.py:194-197 | a name is clear if and only if no manifest shares the payload of a file of that name alone; clear means that wherever the name splits at a newline into a line and another name, those are in descending order |
| `ManifestText.SimpleNamesAreClear` | packaging/transactional_archive.py:194-197 | a name without a newline, or without a tab, is clear |
| `ManifestText.SortDependsOnItems` | packaging/transactional_archive.py:196 | two manifests sort alike if and only if they hold the same items |
| `ManifestText.SortMeaning` | packaging/transactional_archive.py:191-198 | the sorted items are the items, by name, then size, then digest |
| `ManifestText.BeforeMeaning` | packaging/transactional_archive.py:191-198 | one name is before another exactly if it is a proper prefix or has the smaller character at the first difference |
| `ManifestText.PayloadReadsBack` | packaging/transactional_archive.py:191-198 | the payload of names without a newline parses back to the items in order |
| `ManifestText.PayloadNeedsClearNames` | packaging/transactional_archive.py:194-197 | a name that holds a whole line and a newline lets two different manifests share a payload |
| `CombinedManifest.CombinedManifestIsTheSum` | packaging/transactional_archive.py:176-188 | for non-nested sources no key collides, and file count and total size are the sums over the sources |
| `CombinedManifest.KeysCollideIffNested` | packaging/transactional_archive.py:181-184 | for paths without empty components: two sources can have files of the same key if and only if one is or contains the other |
| `CombinedManifest.SourceOrderDoesNotMatter` | packaging/transactional_archive.py:176-188 | the combined manifest does not depend on the order of the sources, whatever they hold |
| `CombinedManifest.CountIsTheSumIffKeysDistinct` | packaging/transactional_archive.py:176-188 | for any sources the manifest has at most as many files as they hold, and exactly as many if and only if no two files share a key |
| `CombinedManifest.SharedKeyKeepsLargest` | packaging/transactional_archive.py:176-188 | for any sources every key is there once, and of files that share a key the manifest has the one that is largest in size and then in digest |
| `CombinedManifest.NestedSourcesLoseAFile` | packaging/transactional_archive.py:176-188 | an instance with nested sources where a file is lost from the count |
| `ConversationAnchor.PlaceConversationCapsule` | src/arkclaw/presentation/conversation_anchor.py:49-113 | for a positive anchor: unavailable exactly when a size is not positive or none of the twelve rectangles of a one-percent capsule lies in the work area without meeting the anchor; else the first such rectangle at the preferred size if there is one, and otherwise at the largest percentage up to the bound that has one |
| `ConversationAnchor.SearchReduced` | src/arkclaw/presentation/conversation_anchor.py:78-105 | the binary search finds the largest feasible percentage up to the bound, with its first candidate, and nothing exactly when one percent does not fit |
| `ConversationAnchor.FirstValidCandidate` | src/arkclaw/presentation/conversation_anchor.py:127-136 | the first valid candidate in order, or none exactly when there is none; `ValidIffLegal` says that valid means legal |
| `ConversationAnchor.CandidatesInOrder` | src/arkclaw/presentation/conversation_anchor.py:139-175 | twelve candidates touching the anchor from outside: above, below, the roomier side, the other side, each aligned at the far edge, the centre up to rounding, and the near edge |
| `ConversationAnchor.SmallerIsFeasible` | src/arkclaw/presentation/conversation_anchor.py:127-197 | feasibility is monotone: a smaller capsule fits wherever a larger one does |
| `ConversationAnchor.SmallerLiesInside` | src/arkclaw/presentation/conversation_anchor.py:139-175 | the candidate of a smaller capsule lies inside the same candidate of a larger one |
| `ConversationAnchor.FeasibleBelow` | src/arkclaw/presentation/conversation_anchor.py:84-100 | what fits at one percentage fits at every smaller one |
| `ConversationAnchor.FirstIsLegal` | src/arkclaw/presentation/conversation_anchor.py:178-197 | a chosen candidate lies in the work area and meets the anchor in no point |
| `ConversationAnchor.ValidIffLegal` | src/arkclaw/presentation/conversation_anchor.py:178-197 | for positive sizes a candidate passes the test if and only if its rectangle lies in the work area and shares no point with the anchor |
| `ConversationAnchor.MaxScalePercentMeaning` | src/arkclaw/presentation/conversation_anchor.py:200-207 | the bound is the largest percentage up to 100 that keeps both scaled lengths, before their rounding, within the work area, and at least 1 |
| `ConversationAnchor.LargestSizeIffNoLargerFitsAboveBound` | src/arkclaw/presentation/conversation_anchor.py:62-63 | the documented promise, the largest size that fits, holds if and only if every percentage above the bound that fits rounds to the size at the bound |
| `ConversationAnchor.LargestOverallIffNextPercentDoesNotFit` | src/arkclaw/presentation/conversation_anchor.py:78-100 | in percentages: the result is the largest up to 100 if and only if the bound is 100 or the percentage just above it does not fit |
| `ConversationAnchor.BoundExcludesALargerSize` | src/arkclaw/presentation/conversation_anchor.py:200-207 | width 150 in an area of width 100 is held to 66 percent, a width of 99, although 67 percent, a width of 100, fits |
| `ArtifactScan.ScanFile` | packaging/standalone_artifact_audit.py:514-605 | for any split into chunks, lists of literals of 1 to 513 bytes are reported if and only if one occurs case-insensitively in the whole file, the credential identifier likewise; the UTF-16 flags are set if and only if the decoding of a window has a literal, and for even reads always when an ASCII literal of up to 257 characters stands at an even offset and only when the decoded file has a literal; the secret findings are exactly the matches of the secret pattern in the windows, and the prose findings those of the prose pattern: each is named by the offset and digest of its bytes in the whole file, with the length and attribution of such a match |
| `WideText.WideReliableIffShortAndEven` | packaging/standalone_artifact_audit.py:517-604 | for reads of any even size and any ASCII literal: every occurrence as UTF-16 at offsets of one parity is found if and only if the parity is even and the literal has at most 257 characters |
| `WideText.WideTextIsFound` | packaging/standalone_artifact_audit.py:588-602 | with even chunks an ASCII literal of up to 257 characters that stands in the file as UTF-16 at an even offset is found in the decoding of some window |
| `WideText.LongTextIsMissed` | packaging/standalone_artifact_audit.py:588-604 | every longer literal is missed at an even offset when its last character has a chunk of its own |
| `WideText.DecodedFindIsReal` | packaging/standalone_artifact_audit.py:588-602 | with even chunks whatever is found in a decoded window is in the decoded file |
| `WideText.DecodingReaches` | packaging/standalone_artifact_audit.py:588-591 | decoding with errors ignored comes to every even distance, or just past it when the second half of a pair stands there |
| `TextCoding.DecodedKeepsText` | packaging/standalone_artifact_audit.py:588-591 | every text without surrogates, written as little-endian UTF-16, decodes to itself, and its UTF-8 bytes read back as it |
| `TextCoding.PointsAreScalars` | packaging/standalone_artifact_audit.py:588-591 | whatever the bytes, no lone surrogate is decoded |
| `WideText.OddOffsetIsMissed` | packaging/standalone_artifact_audit.py:588-602 | every ASCII literal is missed at an odd offset of some file, by reads of any even size |
| `ChunkedSearch.ReliableIffShort` | packaging/standalone_artifact_audit.py:517-604 | a literal is found exactly when the file contains it, for every split and equally for reads of any one size, if and only if its length is 1 to 513 |
| `ChunkedSearch.LongLiteralIsMissed` | packaging/standalone_artifact_audit.py:528-604 | every longer literal is missed by reads of any one size in a file that puts its last byte into a chunk of its own |
| `ChunkedSearch.FoundWhereItOccurs` | packaging/standalone_artifact_audit.py:531-539 | an occurrence of a short literal lies inside some window |
| `ChunkedSearch.OccursWhereFound` | packaging/standalone_artifact_audit.py:531-539 | a literal found in a window occurs in the file |
| `ChunkedSearch.WindowIsSlice` | packaging/standalone_artifact_audit.py:531-532 | each window is the slice of the file at its base offset |
| `ChunkedSearch.OccursFoldedMeaning` | packaging/standalone_artifact_audit.py:531-541 | the search finds a literal exactly where it stands letter by letter, in either case of each ASCII letter |
| `ArtifactScan.CarryTail` | packaging/standalone_artifact_audit.py:603-604 | the carried tail and position are the end and length of the file read so far |
| `ArtifactScan.AddFindings` | packaging/standalone_artifact_audit.py:542-587 | every match of a window is recorded under its key at its offset in the file |
| `SpineBinary.ReadVarint` | native/spine38_bridge/src/arkclaw_spine38_bridge.cpp:122-138 | succeeds exactly when an integer of at most five bytes starts at the cursor, gives its groups' number modulo 2^32, and never passes the end |
| `SpineBinary.VarintReadsBack` | native/spine38_bridge/src/arkclaw_spine38_bridge.cpp:122-138 | every 32-bit value reads back from its encoding anywhere in the data, using exactly its bytes |
| `SpineBinary.ReadBinaryStringView` | native/spine38_bridge/src/arkclaw_spine38_bridge.cpp:140-162 | reads the string at the cursor or fails, with the cursor within the data for any input |
| `SpineBinary.StringReadsBack` | native/spine38_bridge/src/arkclaw_spine38_bridge.cpp:140-162 | a string written as length plus one and bytes reads back as the same span, the null string as null |
| `SpineBinary.SkeletonDeclaresSpine38` | native/spine38_bridge/src/arkclaw_spine38_bridge.cpp:164-184 | the test of the second header string, on any bytes |
| `SpineBinary.HeaderIsRead` | native/spine38_bridge/src/arkclaw_spine38_bridge.cpp:164-184 | a skeleton of at most 2^31 - 1 bytes that starts with two written strings is accepted if and only if the second starts with "3.8."; a longer one never |
| `SpineDrawList.CommandsWellFormed` | native/spine38_bridge/src/arkclaw_spine38_bridge.cpp:714-894 | whatever the runtime computes, a built list has strictly increasing draw order, every command a non-empty multiple of three indices below its own vertex count and finite vertices, and exactly the emitting slots have a command |
| `SpineDrawList.UnclippedMeaning` | native/spine38_bridge/src/arkclaw_spine38_bridge.cpp:714-890 | geometry without a clip is drawn if and only if every check on page, sizes, indices, blend mode and finite values holds, and the command then has its vertices, indices, colour and order |
| `SpineDrawList.ClippedMeaning` | native/spine38_bridge/src/arkclaw_spine38_bridge.cpp:714-890 | clipped geometry is skipped exactly when nothing is left, drawn exactly when the clipped output is well-formed, and the command has the vertices and indices of that output |
| `SpineHandle.Handle.Update` | native/spine38_bridge/src/arkclaw_spine38_bridge.cpp:700-899 | keeps the handle valid; a failure on valid arguments leaves the list empty; success leaves the commands of the slots; the events buffered are, one to one and in order, those of the callbacks that complete the current track-0 entry with a name and a positive finite duration, loops with the next ordinals, which continue without gaps although the buffer is emptied |
| `SpineHandle.Handle.SetAnimation` | native/spine38_bridge/src/arkclaw_spine38_bridge.cpp:603-649 | success empties list and buffer and restarts numbering on track 0; failure changes neither |
| `SpineHandle.Handle.MixAnimation` | native/spine38_bridge/src/arkclaw_spine38_bridge.cpp:651-698 | a rejected call changes neither list, buffer nor numbering; an accepted one updates at time zero, leaves the list empty on failure, buffers the completions as an update does, and restarts the numbering on track 0 only |
| `SpineHandle.Handle.ClearTrack` | native/spine38_bridge/src/arkclaw_spine38_bridge.cpp:901-919 | success empties list and buffer and restarts numbering on track 0; failure changes neither |
| `SpineHandle.Handle.CaptureAnimationEvent` | native/spine38_bridge/src/arkclaw_spine38_bridge.cpp:290-319 | exactly the completions of the current track-0 entry are buffered, loops with the next ordinal |
| `SpineHandle.CaptureKeepsStep` | native/spine38_bridge/src/arkclaw_spine38_bridge.cpp:309-318 | a callback keeps boundaries since the last reset numbered 1, 2, 3, ... and the buffered ones the latest of them |
| `SpineHandle.BuildList` | native/spine38_bridge/src/arkclaw_spine38_bridge.cpp:714-894 | the loop over the draw order builds the specified commands or fails |
| `SpineHandle.BuildGeometry` | native/spine38_bridge/src/arkclaw_spine38_bridge.cpp:794-890 | every check and copy of one region or mesh gives the specified result |
| `NetworkObserver.PackagedRuntimeNetworkObserver.AddPoll` | packaging/packaged_runtime_network_observer.py:166-194 | keeps the sample total equal to the sum of the counts and each count within its first-to-last span; a poll rejected at an endpoint of another process has counted the distinct endpoints before it and nothing else |
| `NetworkObserver.PackagedRuntimeNetworkObserver.Finish` | packaging/packaged_runtime_network_observer.py:196-293 | reports that total and the counts of the endpoints recorded; external, loopback and unattributed counts are not negative and sum to the unique endpoints; each code has its exact condition, and verified means the packaged channel, seen to the end and cleaned up |
| `NetworkObserver.SampleIsSound` | packaging/packaged_runtime_network_observer.py:181-194 | one more sample of a new or known endpoint keeps totals, spans and distinct keys |
| `NetworkObserver.SampleIsPolled` | packaging/packaged_runtime_network_observer.py:181-194 | one more sample leaves all other entries and their order alone |
| `NetworkSummary.Summarize` | packaging/packaged_runtime_network_observer.py:203-293 | bound, listening, established, external and loopback counts are those of the endpoints that meet the spelled-out condition, they partition the endpoints, and each safe code has its exact condition |
| `NetworkSummary.ChannelIff` | packaging/packaged_runtime_network_observer.py:230-260 | the list tests hold if and only if the endpoints are two different ends of one loopback connection and one bound socket on its ports |
| `NetworkSummary.ReversePairIsProper` | packaging/packaged_runtime_network_observer.py:146-152 | two recorded endpoints that are each other's reverse are different ends |
| `NetworkSummary.StatesPartition` | packaging/packaged_runtime_network_observer.py:207-212 | bound, listening and established endpoints partition the recorded ones |
| `NetworkSummary.SplitEstablished` | packaging/packaged_runtime_network_observer.py:214-225 | local connections and external ones partition the established endpoints |
| `NetworkSummary.KeyMeaning` | packaging/packaged_runtime_network_observer.py:61-69 | two endpoints share a key exactly if they agree in process and ports and, but for case, in state and addresses |
| `NetworkSummary.CountsMeaning` | packaging/packaged_runtime_network_observer.py:207-228 | the filtered lists are the endpoints of that state, in any case, and the external ones those that leave the machine |
| `NetworkSummary.ChannelMeaning` | packaging/packaged_runtime_network_observer.py:230-260 | what the packaged channel is: two reverse loopback ends and a socket bound on a port of theirs at a loopback or unspecified address |
| `StartupEnvironment.BuildCanonicalEnvironment` | packaging/startup_secondary_environment.py:228-293 | the loop gives the environment or the error of the specification |
| `StartupEnvironment.CanonicalIsProper` | packaging/startup_secondary_environment.py:264-282 | every name is stored once under its folded form and none is one that must be filtered; every entry is a redirect, the path with a parent path's value, or a kept entry of the parent; all redirects are in force, every kept name has its value, and a path is there exactly when the parent has one |
| `StartupEnvironment.DuplicatesAreTheRest` | packaging/startup_secondary_environment.py:254-265 | the kept entries and paths of the parent are as many as its distinct folded names and the duplicates together |
| `StartupEnvironment.CanonicalIsIdempotent` | packaging/startup_secondary_environment.py:228-293 | canonicalising a clone of the result, in any order, gives the same entries and no duplicates |
| `StartupEnvironment.OrderDoesNotMatter` | packaging/startup_secondary_environment.py:244-270 | success, and with an unambiguous path the value of every folded name, do not depend on the order of the parent |
| `StartupEnvironment.OrderMattersOtherwise` | packaging/startup_secondary_environment.py:264-270 | with an ambiguous path every parent has a reordering that gives the path another value |
| `StartupEnvironment.ScanMeaning` | packaging/startup_secondary_environment.py:244-262 | the scan succeeds if and only if no name is empty and no kept duplicates conflict, and then holds exactly the kept values |
| `StartupEnvironment.FilteredIsNotHarmless` | packaging/startup_secondary_environment.py:322-329 | a name that must be filtered contains a letter that none of the builder's own names contains |
| `StartupEnvironment.MustFilterMeaning` | packaging/startup_secondary_environment.py:322-329 | exactly the names to be filtered, prefix by prefix, suffix by suffix and marker by marker |
| `StartupEnvironment.RedirectsInForce` | packaging/startup_secondary_environment.py:272-282 | each of the seven redirected names has the directory of the runtime that belongs to it |
| `StartupEnvironment.PathMeaning` | packaging/startup_secondary_environment.py:264-270 | the path is the value of the first entry named "Path", or else of the first path entry |
| `StartupEnvironment.ScanErrorMeaning` | packaging/startup_secondary_environment.py:244-262 | the error is that of the first entry that is empty or conflicts with the kept value of its name |
| `AsciiCase.FoldMeaning` | packaging/startup_secondary_environment.py:244-265 | two names fold alike exactly if they differ only in the case of ASCII letters |
| `ProcessExitObserver.RetainProcessExitHandle` | packaging/windows_process_exit_observer.py:277-369 | an observer comes back exactly with the report "running", holding the one handle opened; otherwise no handle stays open; the report is the one that the answers of the interface call for, answer by answer |
| `ProcessExitObserver.RetainedProcessExitObserver.WaitForExit` | packaging/windows_process_exit_observer.py:196-262 | with a non-negative timeout the handle stays open exactly when the report is "running", else it has been closed once; the report, with its exit code, is the one that the answers of the interface call for; no use of a closed handle |
| `ProcessExitObserver.RetainedProcessExitObserver.Close` | packaging/windows_process_exit_observer.py:189-194 | closes the held handle once and no other |
| `ProcessExitObserver.UseAll` | packaging/windows_process_exit_observer.py:172-369 | any sequence of acquisitions, waits and closes over any number of live observers of one interface never uses or closes a handle that is not open, and closing them all leaves exactly the handles open before |
| `ProcessExitObserver.LetGo` | packaging/windows_process_exit_observer.py:189-262 | waiting on or closing one of several live observers leaves the others' handles open and apart |
| `ProcessExitObserver.AcquireOne` | packaging/windows_process_exit_observer.py:277-369 | an acquisition adds one observer with a handle of its own exactly when the process is running |

## Left out

- Evidence files, JSON documents, schema validation, atomic writes, checkpoints and the command-line parser of the timeline probe: input and output around the modelled steps.
- TimelineTrackerObject.TimelineTracker.Summarize: leaves out the fields copied from the coordination checkpoint, because no decision depends on them.
- The value of the owner state after completion: the second probe of the T9 pass can change it.
- Directory walking, reparse-point and same-volume checks, the digest and JSON text of the archive manifest, and the file counts in the archive outcome: `CombinedManifest` covers the counts, the checks answer arbitrarily.
- TransactionalArchive.Archive: says where sources are only for well-separated paths, because the code does not check separation and its promise is about separate sources.
- Renames that move and then raise, and other processes in the archive directories: outside the failure model.
- ArtifactScan.ScanFile: says nothing about which secrets the patterns match in the whole file, because a match longer than the overlap or a word boundary at a window start can differ from a whole-file match; it also leaves out the sorting of the reports.
- Null handles and null pointers of the native interface, loading of atlases and skeletons beyond the version test, bounds and metadata queries.
- The dictionary forms of reports (`to_safe_dict`, `diagnostic_payload`), which only rename fields, and the validation of process identities and endpoint ports.
- The environment manifest with its digest and name counts, launch-context comparison and `ProbeLifecycle`: small finite checks.
- Win32 bindings, Job Object runners, registry access, the supervisor phase table, Qt scripts, configuration, provider profiles and the older fixed-path archive script.
