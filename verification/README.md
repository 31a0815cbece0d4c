# Workbench verification

A Dafny model of the hard core of the Workbench mobile home robot repository, and
proofs about it. Each part follows the form of the code it models: objects and loops
where the code updates state, functions where it computes, and a state machine over
atomic sections where it runs concurrently.

| file | models |
|---|---|
| Text.dfy | numerals, ordering, sorting and substring search used by the others |
| Wbcan.dfy, WbcanAbi.dfy, WbcanDevice.dfy, WbcanRuns.dfy, WbcanAccounting.dfy | the virtual CAN driver: its fault plane, text interface, driver methods, all interleavings with the restart worker, and its books |
| ArtifactSet.dfy, GenerationLocks.dfy | atomic publication of a set of generated files, and the sorted locks around it |
| ReadmeBlock.dfy, ReadinessOutputs.dfy | the spliced README blocks, volatile fields, and repeated runs of the generator |
| PathPatterns.dfy, PathOverlap.dfy, WriteBoundary.dfy | Task Packet path patterns, when their overlap test is exact, boundary validation and diff authorisation |
| TaskEvents.dfy, TaskIngest.dfy | runtime TaskEvents: identity, strict decoding, binding, and capture ingestion |
| Metrics.dfy, MetricsRebuild.dfy, MetricsCollector.dfy | the seventeen evaluation aggregates and their evidence index |
| EventLog.dfy, ScriptedRun.dfy | the event-log validator and the scripted producer |
| WorkbenchReplay.dfy | the dashboard's replay of claims against observations |
| MutationGate.dfy | the mutation gate's probes and verdict |
| LockText.dfy, DependencyLock.dfy, LockReparse.dfy, ReleaseLock.dfy | the hashed dependency lock, its parser, its renderer, both in turn on any text, and the release reader |
| Wilson.dfy | the Wilson score interval over exact reals |

Properties that turned out false of the code, with the exact condition under which
they hold:

- Splicing a README block is not idempotent when the begin marker stands without an
  end marker (`ReadmeBlock.IdempotentIff`), so a second run of the generator then rewrites
  that README (`ReadinessOutputs.WriteTwice`); and the checker refuses the generator's own
  output in that case and when an end marker precedes the block (`ReadmeBlock.PassesIff`).
- The overlap test between path patterns flags patterns with no common path
  (`PathOverlap.ContinuationIsFlagged`, `PathOverlap.BothWildIsFlagged`): its last
  line can never say no, and it never compares two segments with wildcards. When it is
  right is `PathOverlap.OverlapExactIff`, for all patterns.
- The event id alone does not separate an empty goal from a goal equal to its task_id
  (`TaskEvents.EventIdIff`); binding refuses empty goals, which restores injectivity.
- A claim on the dashboard can be decided by a location observed before the action
  (`WorkbenchReplay.CarriedWitness`), although a claim's window is meant to admit only
  what was observed after it: the carried location is taken for a new one. When that
  happens, for every log, is `WorkbenchReplay.CarriedIff`.
- Parsing a rendered lock returns the very same pins only when their hashes were sorted
  (`DependencyLock.SamePinsIff`), and the release reader refuses a lock the repository's
  own renderer wrote when a pin has several hashes (`ReleaseLock.ReleaseAcceptsIff`); one
  pin that fails both is `ReleaseLock.UnsortedPinFails`.
- A rollback that reports no failure need not have restored everything: a restoring write
  that stores other bytes is not read back (`ArtifactSet.SpoiledUnnoticed`). Everything is
  back exactly when no write did that (`ArtifactSet.Publish`).

Inputs the model takes as parameters: the answers of the disk, the database, the test
runner and the clock; the skb allocator and the CAN core's drop decision; path
resolution, character folding, UTF-8 decoding, line splitting, JSON parsing and white
space; the library's reading and writing of ISO times; the byte size of an event log; the
serialisation of documents; and the square root of the Wilson radicand.

## Model

| member | source | states |
|---|---|---|
| `WbcanRuns.StepKeepsInv` | kernel/wbcan/wbcan.c:334-531 | every section of the driver, interleaved in any way with the core's restart worker, keeps: only active, warning, bus-off and stopped states; a stopped queue in bus-off and stopped; counters of the fault plane in range; no request for a state the controller already has |
| `WbcanRuns.ReachableIsSafe` | kernel/wbcan/wbcan.c:191-207 | that invariant holds in every state any run can reach, so the CAN core never warns about a pointless state change |
| `WbcanRuns.QuiescentUntilOpen` | kernel/wbcan/wbcan.c:349-374 | from a stopped device, any run without an open keeps it stopped with a stopped queue |
| `WbcanRuns.StoppedUntilOpened` | kernel/wbcan/wbcan.c:349-374 | once stop has published STOPPED, no restart already on its way, no transmit and no debugfs write changes the state or wakes the queue until the next open |
| `WbcanRuns.StopReturnsStopped` | kernel/wbcan/wbcan.c:349-374 | whatever interleaved with it, stop returns with the state stopped, the queue stopped and no restart work left |
| `WbcanRuns.RestartCommitsInsideStop` | kernel/wbcan/wbcan.c:349-374 | from every run that leaves bus-off recovery queued, the worker can commit ACTIVE and wake the queue between the sections of a stop |
| `WbcanRuns.RecoveryQueued` | kernel/wbcan/wbcan.c:376-531 | and such runs exist: open, arm bus-off, send one frame with automatic restart on; so the race is real |
| `WbcanAccounting.BooksBalance` | kernel/wbcan/wbcan.c:376-531 | in every run, accepted frames = sent packets + transmit errors, received frames = received packets, and injections = refusals + failures + drops + tampered echoes |
| `WbcanAccounting.NoTransmitInTerminalState` | kernel/wbcan/wbcan.c:376-415 | no run reaches the transmit branch for a bus-off or stopped controller: the stopped queue makes it a guard only |
| `WbcanAccounting.WindowClosedForm` | kernel/wbcan/wbcan.c:221-250 | any number of injection decisions leaves the plane in a closed form of the number of eligible frames |
| `WbcanAccounting.HitsAreTheWindow` | kernel/wbcan/wbcan.c:221-250 | exactly the eligible frames number after+1 to after+count are hit, with the armed fault |
| `WbcanAccounting.PlaneFollowsOffers` | kernel/wbcan/wbcan.c:221-250 | over any interleaving that neither re-arms nor restarts, the plane depends only on the frames offered to it |
| `WbcanAccounting.ArmedWindow` | kernel/wbcan/wbcan.c:221-250 | after arming, with E eligible frames offered in any interleaving: seen = min(E, after+count), and the remaining count, skip and injected total follow in closed form |
| `WbcanAccounting.OutcomesAreTheWindow` | kernel/wbcan/wbcan.c:221-531 | over any interleaving since arming, the outcome of the next transmit is hit by the armed fault exactly when its frame is eligible and number after+1 to after+count of those offered |
| `WbcanAccounting.TxFullRefuses` | kernel/wbcan/wbcan.c:376-531 | under tx-full every retry of an eligible frame is refused while shots last and counts as nothing sent |
| `WbcanAccounting.TxFullThenAccepted` | kernel/wbcan/wbcan.c:376-531 | a frame retried under tx-full with c shots is refused exactly c times, then accepted and counted once |
| `WbcanAccounting.FlipIsOneBit` | kernel/wbcan/wbcan.c:376-531 | the flip changes the armed bit of the armed byte and nothing else, and flipping again restores the data |
| `WbcanAccounting.EchoOfTransmit` | kernel/wbcan/wbcan.c:376-531 | the echo a transmit delivers under a bit flip differs from the frame in exactly that bit; every other delivered echo is the frame |
| `WbcanAccounting.EchoesInRuns` | kernel/wbcan/wbcan.c:376-531 | so in every run: each delivered outcome carries the frame, or its one-bit flip with the armed bit below 8 |
| `WbcanDriver.WbcanDevice.constructor` | kernel/wbcan/wbcan.c:876-919 | a new device is the fresh one: stopped, queue stopped, nothing armed |
| `WbcanDriver.WbcanDevice.ShouldInject` | kernel/wbcan/wbcan.c:221-250 | the field updates of the decision are those of the decision function |
| `WbcanDriver.WbcanDevice.ChangeState` | kernel/wbcan/wbcan.c:258-330 | the state becomes the worse of the two, and the core warns exactly when it already was |
| `WbcanDriver.WbcanDevice.EmitError` | kernel/wbcan/wbcan.c:258-330 | which state, queue, counter and error frame each injected bus error leaves |
| `WbcanDriver.WbcanDevice.StartXmit` | kernel/wbcan/wbcan.c:376-531 | the whole transmit path, statement by statement, computes the transmit step the runs above are made of |
| `WbcanDriver.WbcanDevice.CommitRestart` | kernel/wbcan/wbcan.c:536-577 | a restart commits exactly in bus-off and then clears the plane, activates and wakes the queue |
| `WbcanDriver.WbcanDevice.Open` | kernel/wbcan/wbcan.c:334-347 | open, once the core has opened, is its two sections in order and otherwise changes nothing |
| `WbcanDriver.WbcanDevice.Stop` | kernel/wbcan/wbcan.c:349-374 | stop run alone is its five sections in order and ends stopped |
| `WbcanDriver.WbcanDevice.InjectWrite` | kernel/wbcan/wbcan.c:691-776 | a write is accepted exactly when its line is copied and split, is 1 to 95 bytes long, and its words mean a setting; it then arms exactly that setting, and otherwise changes nothing |
| `WbcanAbi.ParsedIdsAreKeys` | kernel/wbcan/wbcan.c:655-689 | every match id the parser produces is a fixed point of the key frames are compared by |
| `WbcanAbi.PrintedIdParsesBack` | kernel/wbcan/wbcan.c:813-818 | what the status file prints parses back to the same match |
| `WbcanAbi.ParsedSettingsAreSound` | kernel/wbcan/wbcan.c:691-776 | every accepted command yields a setting within the limits of the ABI |
| `WbcanAbi.ArmCommandParsesBack` | kernel/wbcan/wbcan.c:691-776 | every such setting has a command that arms exactly it, so the reachable settings are exactly the sound ones |
| `WbcanAbi.ParsedLinesAreSound` | kernel/wbcan/wbcan.c:691-776 | every accepted line, whatever its spacing and length, yields a setting within the limits of the ABI |
| `WbcanAbi.ArmLineParsesBack` | kernel/wbcan/wbcan.c:691-776 | every such setting has a line that fits the 96-byte buffer and arms exactly it |
| `ArtifactSet.Publish` | tools/scripts/readiness_report.py:313-378 | all or nothing under any failing or garbling disk operation: success puts exactly the staged bytes in every target, writes no equal target and leaves other files alone; failure reports exactly the targets whose restoring operation failed, and puts every other file back, absent ones absent, but those whose restoring write silently stored other bytes; with nothing reported, everything is back exactly when no write did that; if the disk works from the start of the rollback everything is restored, and if it works throughout only a missing marker can fail |
| `ArtifactSet.Restore` | tools/scripts/readiness_report.py:296-310 | rolling the journal back in reverse reports exactly the paths whose restoring operation failed; of the others exactly those differ whose restoring write stored other bytes than it was given |
| `ArtifactSet.SpoiledUnnoticed` | tools/scripts/readiness_report.py:296-310 | such a write goes unnoticed: a rollback over one target reports nothing and the target does not hold what it held |
| `ArtifactSet.Stage` | tools/scripts/readiness_report.py:244-289 | a staged set has been re-read from disk byte for byte with every marker present |
| `ArtifactSet.RenameAll` | tools/scripts/readiness_report.py:340-378 | the rename loop keeps a journal that covers every path it has changed |
| `GenerationLocks.StepKeepsInv` | tools/scripts/readiness_report.py:217-241 | each acquire, refusal, entry and exit keeps: at most one holder per key, locks held as a prefix of the sorted keys |
| `GenerationLocks.ReachableIsExclusive` | tools/scripts/readiness_report.py:217-241 | no two processes hold one key in any reachable state, for any number of generators |
| `GenerationLocks.PublishIsExclusive` | tools/scripts/readiness_report.py:200-241 | two generators inside the publish body share neither a set name nor a target, whatever spellings they used |
| `GenerationLocks.DeadlockFree` | tools/scripts/readiness_report.py:217-241 | in every reachable state with a live process someone can take a lock, enter or leave |
| `GenerationLocks.MovesFinish` | tools/scripts/readiness_report.py:217-241 | every such move brings the end closer |
| `GenerationLocks.EveryoneCanFinish` | tools/scripts/readiness_report.py:217-241 | from every reachable state there is a schedule after which every process is gone |
| `ReadmeBlock.SpliceTwice` | tools/scripts/readiness_report.py:795-812 | splicing a generated block twice equals splicing it once unless the begin marker stands without an end marker |
| `ReadmeBlock.SpliceTwiceLosesText` | tools/scripts/readiness_report.py:795-812 | with a begin marker and no end marker a second splice drops text |
| `ReadmeBlock.IdempotentIff` | tools/scripts/readiness_report.py:795-812 | splicing is idempotent exactly when the text is not so orphaned |
| `ReadmeBlock.SplicedHasMarkers` | tools/scripts/readiness_report.py:795-812 | a spliced text holds both markers, whatever it held before |
| `ReadmeBlock.SpliceReplaces` | tools/scripts/readiness_report.py:795-812 | with an end marker behind the first begin marker, exactly the text from one to the other is replaced; an end marker further up stays |
| `ReadmeBlock.SpliceDropsRest` | tools/scripts/readiness_report.py:795-812 | with end markers only before the begin marker, the splice keeps what stands before the begin marker and drops all the rest |
| `ReadmeBlock.PassesIff` | tools/scripts/check_readiness_report.py:160-168 | the checker accepts the generator's own output exactly when the text was not orphaned and no end marker precedes the block |
| `ReadmeBlock.OtherBlockKept` | tools/scripts/phase_gates.py:873-889 | a splice leaves the block between another generator's markers exactly as it was, wherever outside the replaced block it lies |
| `ReadinessOutputs.StabilizeIsSameBuild` | tools/scripts/readiness_report.py:825-844 | stabilising changes volatile members only |
| `ReadinessOutputs.ReproducesIff` | tools/scripts/readiness_report.py:825-844 | a rebuild reproduces the committed document exactly when the two differ in volatile members only |
| `ReadinessOutputs.RenderedMarked` | tools/scripts/readiness_report.py:847-896 | every rendered output holds the markers it is staged with, so rendering never makes the set unpublishable |
| `ReadinessOutputs.Open` | tools/scripts/readiness_report.py:815-928 | the reads before rendering and the lock, operation by operation, stop the run or give the committed document as read |
| `ReadinessOutputs.SecondRunIsCurrent` | tools/scripts/readiness_report.py:847-896 | with a first run's outputs in place, a second run of the same build renders every target to what it already holds exactly when no README had a begin marker without an end marker |
| `ReadinessOutputs.RebuildIsCurrent` | tools/scripts/readiness_report.py:847-896 | once a first run has landed, any rebuild of the same build finds every target current, under exactly that condition |
| `ReadinessOutputs.WriteOutputs` | tools/scripts/readiness_report.py:899-928 | the outputs are published as one set: refused, with nothing written, exactly when a README is absent or cannot be read, the lock cannot be taken or targets coincide; a report that cannot be read only costs the committed stamps; otherwise all or nothing with every guarantee of the publication, other files untouched |
| `ReadinessOutputs.WriteOnce` | tools/scripts/readiness_report.py:899-928 | over a working disk a run lands every output; it reports every target unchanged exactly over a current checkout, and then writes nothing |
| `ReadinessOutputs.WriteTwice` | tools/scripts/readiness_report.py:899-928 | two runs in a row that differ in volatile members only: both are published and the first lands every output; the second reports every target unchanged exactly when no README had a begin marker without an end marker, and then performs no write and leaves every file as it was |
| `PathPatterns.MatchesIffAligned` | tools/scripts/check_task_packet.py:217-235 | the backtracking matcher accepts a path exactly when its segments can be cut into stretches for the pattern's parts, any number for a recursive wildcard |
| `PathPatterns.PatternsOverlap` | tools/scripts/check_task_packet.py:123-138 | the overlap scan says no exactly when some position before any recursive wildcard tells the patterns apart; its final tail test never decides |
| `PathPatterns.SeparatedMatchNothing` | tools/scripts/check_task_packet.py:123-138 | patterns told apart have no path in common, not even two spellings that differ in case |
| `PathOverlap.CommonIsFlagged` | tools/scripts/check_task_packet.py:123-138 | for all patterns, whatever shares a path up to case is flagged |
| `PathOverlap.MeetIff` | tools/scripts/check_task_packet.py:217-235 | two segment patterns share a name up to case exactly when a recursive comparison of the two says so |
| `PathOverlap.CommonIff` | tools/scripts/check_task_packet.py:217-235 | for all patterns, recursive wildcards anywhere: they share a path up to case exactly when a recursive comparison of the two says so |
| `PathOverlap.OverlapExactIff` | tools/scripts/check_task_packet.py:123-138 | for all patterns, the overlap test agrees with the matcher exactly when some position separates them or that comparison succeeds |
| `PathOverlap.MeetUnlessClash` | tools/scripts/check_task_packet.py:123-138 | where not both segments are wild, its segment test is exact |
| `PathOverlap.OverlapExactFlat` | tools/scripts/check_task_packet.py:123-138 | for patterns with at most a final recursive wildcard: exact exactly when it finds a clash, or the lengths allow a common path and the positions wild on both sides meet |
| `PathOverlap.OverlapExactUnlessBothWild` | tools/scripts/check_task_packet.py:123-138 | without a position wild on both sides: exact exactly when it finds a clash or the lengths allow a common path |
| `PathOverlap.ContinuationIsFlagged` | tools/scripts/check_task_packet.py:123-138 | one failing family: a pattern and its continuation are flagged though no path matches both |
| `PathOverlap.BothWildIsFlagged` | tools/scripts/check_task_packet.py:123-138 | another: two wild segments with different first letters are flagged though no path matches both |
| `WriteBoundary.AnyOverlap` | tools/scripts/check_task_packet.py:141-164 | the pairwise scan finds an overlap exactly when some pair is not told apart |
| `WriteBoundary.ValidateBoundaries` | tools/scripts/check_task_packet.py:141-164 | a packet passes exactly when its lists are unique under folding and pairwise told apart |
| `WriteBoundary.BoundariesAreDisjoint` | tools/scripts/check_task_packet.py:141-164 | then no path, under any casing, is matched by an allowed and by a forbidden or read-only pattern |
| `WriteBoundary.ValidateWriteBoundary` | tools/scripts/check_task_packet.py:310-330 | a diff is accepted exactly when one packet authorises every changed path; a rejection lists what the closest packet leaves out, or every changed path when there are no packets |
| `WriteBoundary.AcceptedDiffStaysInside` | tools/scripts/check_task_packet.py:310-330 | an accepted diff has one packet that allows every changed path, forbids none of them and changes no link |
| `WriteBoundary.ParseNameStatus` | tools/scripts/check_task_packet.py:250-264 | the index-driven scan computes the path set of the record grammar, or refuses: a status that is not ASCII, a path that does not decode, and a truncated record among the refusals |
| `WriteBoundary.NameStatusRoundTrip` | tools/scripts/check_task_packet.py:250-264 | every list of status records, rename and copy records included, whose paths decode parses back to exactly its paths |
| `WriteBoundary.ValidateDiff` | tools/scripts/check_task_packet.py:250-341 | from git's output to a verdict: accepted exactly when the output can be read and names nothing or one packet authorises every path it names; not judged exactly when a record or path is refused or a change has no packet |
| `WriteBoundary.RecordsAcceptedIff` | tools/scripts/check_task_packet.py:250-341 | end to end: what git writes for any records is accepted exactly when there are none or one packet authorises every path on both sides of every record |
| `TaskEvents.PartsPrefixFree` | integrations/ros2_runtime/task_events.py:243-246 | the length-prefixed join is a prefix-free code at each number of parts |
| `TaskEvents.EventIdIff` | integrations/ros2_runtime/task_events.py:143-160 | two identities share an event id exactly when they agree in every field, counting the goal as the action id it stands for |
| `TaskEvents.EventIdInjective` | integrations/ros2_runtime/task_events.py:88-160 | for bound records, which name a goal, the event id is injective in all eight fields |
| `TaskEvents.DecodesIffStrict` | integrations/ros2_runtime/task_events.py:227-240 | decoding succeeds exactly when no object at any depth repeats a name and no non-finite constant occurs |
| `TaskEvents.MembersDecode` | integrations/ros2_runtime/task_events.py:214-220 | an object decodes exactly when its names are distinct and every value is strict |
| `TaskEvents.MembersKept` | integrations/ros2_runtime/task_events.py:214-220 | an accepted object keeps every member with its decoded value and adds none |
| `TaskEvents.BindIff` | integrations/ros2_runtime/task_events.py:88-140 | a record binds to exactly the bound record it carries, and only when the runtime can have published it |
| `TaskEvents.BoundCompletionIsReported` | integrations/ros2_runtime/task_events.py:88-140 | a record binds as completed, or its device as confirmed, exactly when the runtime reported success |
| `TaskIngest.EventStore.AppendAllocated` | services/world_model/workbench_world_model/event_store.py:203-277 | a replay returns the stored row, other content under a used id is refused, a full run is refused, and a new event takes the run's next number; refusals change nothing |
| `TaskIngest.NextIsCount` | services/world_model/workbench_world_model/event_store.py:203-277 | the allocated number, one more than the largest, is one more than the count: runs are numbered 1, 2, 3, … without gaps |
| `TaskIngest.AppendedGrows` | services/world_model/workbench_world_model/event_store.py:203-277 | appending any events keeps ids unique and numbering gapless and only extends the log |
| `TaskIngest.ReplayAddsNothing` | integrations/ros2_runtime/task_events.py:163-203 | ingesting the same events again, whatever came in between, adds nothing |
| `TaskIngest.ReplayAccepted` | integrations/ros2_runtime/task_events.py:163-203 | events already stored are always let in and change nothing |
| `TaskIngest.DecodedIff` | integrations/ros2_runtime/task_events.py:163-203 | the lines are accepted exactly when every non-blank one parses to strict JSON |
| `TaskIngest.IngestTaskEvent` | integrations/ros2_runtime/task_events.py:143-160 | one record: refused records and refused appends leave the store as it was |
| `TaskIngest.IngestCapture` | integrations/ros2_runtime/task_events.py:163-203 | a capture is refused by size, encoding, line count, decoding or binding exactly then, and leaves the store unchanged; a store refusal keeps exactly the records before it; results give each record's line, ids and run in order; an ingested capture was admitted by the store's rules, and a capture they admit, a replay among them, is ingested whole |
| `TaskIngest.IngestTwice` | integrations/ros2_runtime/task_events.py:163-203 | end to end: ingesting an accepted capture a second time adds nothing to the log and, when the database answers, returns exactly the same results |
| `Metrics.PercentileIsNearestRank` | tools/scripts/collect_metrics.py:262-267 | the percentile is the value of nearest rank: at least the ceiling of q·n values are no larger and fewer are smaller |
| `Metrics.SortMiddle` | tools/scripts/collect_metrics.py:262-267 | where a value stands does not matter to the sorted sample |
| `MetricsRebuild.EventTotals` | tools/scripts/collect_metrics.py:506-607 | over the flattened events, the four event ratios are the sums of the runs' numerators and denominators |
| `MetricsRebuild.GoalTotals` | tools/scripts/collect_metrics.py:764-930 | goal-condition coverage over the final verifications is the sum of the runs' contributions |
| `MetricsRebuild.DirectIsRebuilt` | tools/scripts/collect_metrics.py:678-703 | for every metric, run set and audit the aggregate computed directly equals its rebuild from the contributions, empty values included |
| `MetricsRebuild.DirectIsIndexed` | tools/scripts/collect_metrics.py:610-703 | and equals the rebuild from the index sorted by run id |
| `MetricsRebuild.OrderIndependent` | tools/scripts/collect_metrics.py:764-930 | the order in which run files are read changes no aggregate |
| `MetricsCollector.RunContributions` | tools/scripts/collect_metrics.py:506-607 | every run has, for each of the seventeen metrics, the contribution or the named exclusion, and never both |
| `MetricsCollector.BuildIndex` | tools/scripts/collect_metrics.py:610-660 | the index holds one record per run in id order, names per metric exactly the runs that moved its top line, and groups every other run under its named exclusion |
| `MetricsCollector.IndexGivesContributions` | tools/scripts/collect_metrics.py:678-703 | reading only the records gives back the contributions |
| `MetricsCollector.Collect` | tools/scripts/collect_metrics.py:733-930 | collection publishes exactly when there are runs, at most 256, a supplied audit covers them, every run replays and every measured run has usable clocks; the self-check never refuses what was computed |
| `MetricsCollector.ReportIsCanonical` | tools/scripts/collect_metrics.py:733-761 | index order and aggregates do not depend on file order |
| `EventLog.Validate` | tools/scripts/run_evaluation.py:740-860 | the validator accepts exactly the logs within the byte limit that meet every requirement, a zoned timestamp on every event included |
| `ScriptedRun.TimesRead` | tools/scripts/run_evaluation.py:181-199 | every time the producer stamps, written with Z for UTC, reads back as zoned |
| `ScriptedRun.Producer.Observe` | tools/scripts/run_evaluation.py:510-580 | one observation, with a failed first attempt where the fault calls for it, keeps the log well formed |
| `ScriptedRun.Producer.Operate` | tools/scripts/run_evaluation.py:582-694 | one grasp and place, with its retries, adds exactly its placement, or stops after a moving target |
| `ScriptedRun.Producer.Conclude` | tools/scripts/run_evaluation.py:696-737 | the final verification and terminal record agree, and the whole log is then acceptable exactly when its inputs are |
| `ScriptedRun.ScriptedEvents` | tools/scripts/run_evaluation.py:343-737 | for every task, fault, scene and operation list: the log is accepted exactly when its metadata, profile, evidence and length allow; its actions are serial; its completed placements are those of every operation in order, or none after a moving target; a confirmed log has a completed placement for every operation; every action id is requested once and gets exactly one later result; and its length is known |
| `ScriptedRun.EveryActionAnswered` | tools/scripts/run_evaluation.py:343-737 | every action id of a log is requested exactly once and has exactly one result, which comes later |
| `ScriptedRun.AllAnswered` | tools/scripts/run_evaluation.py:343-737 | so it is for every action of a finished log |
| `ScriptedRun.ConfirmedMeansPlaced` | tools/scripts/run_evaluation.py:582-737 | a log with these placements that ends confirmed delivers every operation |
| `ScriptedRun.FinalVerdictOk` | tools/scripts/run_evaluation.py:696-737 | the final verdict of each fault passes the validator exactly when the profile is sound and there is evidence |
| `WorkbenchReplay.ActionsMoveNothing` | apps/dashboard/app.js:574-661 | erasing every action event leaves the replayed entities and sightings unchanged |
| `WorkbenchReplay.WindowsDisjoint` | apps/dashboard/app.js:615-640 | no observation is judged for two claims of one entity |
| `WorkbenchReplay.SettledVerdictStays` | apps/dashboard/app.js:615-661 | a verdict without a spatial claim, decided by a location, or with a closed window is the verdict at every later cursor |
| `WorkbenchReplay.UnsettledVerdictChanges` | apps/dashboard/app.js:615-661 | every other verdict can still change |
| `WorkbenchReplay.SettledIff` | apps/dashboard/app.js:615-661 | which verdicts those are: all but an awaited one and an unverified one with an open window |
| `WorkbenchReplay.DeciderLocates` | apps/dashboard/app.js:582-661 | the sighting a claim is judged by is the one of the first event in its window at which the entity has a known location |
| `WorkbenchReplay.CarriedIff` | apps/dashboard/app.js:582-661 | for every increasing log and claim: the deciding location was carried from before the action exactly when the location was known at the action, the window holds a sighting and its first sighting names none; the verdict is then the old location's |
| `WorkbenchReplay.CarriedWitness` | apps/dashboard/app.js:582-661 | such a log exists: one sighting without a location contradicts a claim by the location seen before the action |
| `WorkbenchReplay.NamedOtherwise` | apps/dashboard/app.js:615-661 | in every other case a decided verdict is that of a location named inside the window |
| `WorkbenchReplay.BuildWorkbenchState` | apps/dashboard/app.js:574-661 | the two passes compute the replay and judge every claim against it |
| `MutationGate.MutatesIff` | tools/scripts/quality_gates.py:494-505 | a mutation takes effect exactly when the literal occurs once and is really replaced, and changes that occurrence only |
| `MutationGate.Sandbox.ApplyMutation` | tools/scripts/quality_gates.py:494-505 | a mutation succeeds exactly when the literal occurs at one place and differs from its replacement; the file then has the replacement spliced in at that place, every other file is as before, and a refused mutation writes nothing |
| `MutationGate.Sandbox.ProbeEntry` | tools/scripts/quality_gates.py:647-728 | whatever happens in a probe the files end as they began, and a probe is recorded exactly when the entry is eligible, in time, its control passes and its mutation applies |
| `MutationGate.ProbeAll` | tools/scripts/quality_gates.py:647-728 | the files end unmutated; an entry is reported in doubt exactly when its probe was not recordable or the clock was late after it; the records and survivors are exactly those of the others |
| `MutationGate.RunMutationGate` | tools/scripts/quality_gates.py:733-783 | INCOMPLETE exactly when a registry, boundary, clock, control or mutation left something in doubt; otherwise PASS exactly when every mutation is caught and FAIL exactly when one survives; PASS means every registered mutation had a passing control and a failing mutated run |
| `LockText.NormalisedIff` | tools/scripts/lock_python_dependencies.py:148-149 | a name is normalised exactly when canonical, and normalising twice changes nothing |
| `LockText.PinReadsBack` | tools/scripts/lock_python_dependencies.py:59-64 | a rendered pin line reads back as the pin it was rendered from |
| `LockText.MetaReadsBack` | tools/scripts/lock_python_dependencies.py:59-64 | a rendered header line reads back as its key and value |
| `DependencyLock.ParseLock` | tools/scripts/lock_python_dependencies.py:152-203 | the line-by-line parser computes the lock its lines mean, findings included |
| `DependencyLock.RenderLock` | tools/scripts/lock_python_dependencies.py:292-314 | the renderer writes the preamble and one line per hash in sorted name order |
| `DependencyLock.RoundTrip` | tools/scripts/lock_python_dependencies.py:152-314 | parsing a rendered lock gives back every pin, hashes sorted and unique, and the header, in whatever order the pins were held; the only finding there can be is that nothing is pinned |
| `DependencyLock.SamePinsIff` | tools/scripts/lock_python_dependencies.py:152-203 | parsing a rendered lock gives back the very same pins exactly when each pin's hashes were sorted |
| `LockReparse.ParsedIsClean` | tools/scripts/lock_python_dependencies.py:148-203 | whatever the text, the pins parsed from it have names in normal form, valid versions and digests, and hashes sorted and unique |
| `LockReparse.ReparseGivesSamePins` | tools/scripts/lock_python_dependencies.py:152-314 | for every text: rendering the parsed pins and parsing again gives the very same pins, with no finding unless there were none |
| `ReleaseLock.LockRevision` | tools/scripts/release_manifest.py:111-156 | the release reader computes its packages, each line's hashes sorted and unique, or refuses |
| `ReleaseLock.ReleaseAcceptsIff` | tools/scripts/release_manifest.py:111-156 | the release reader accepts a rendered lock exactly when there are pins and every one has one hash, and then reads every package |
| `ReleaseLock.UnsortedPinFails` | tools/scripts/release_manifest.py:111-156 | one name with two unsorted digests: parsing the rendered lock gives another pin, and the release reader refuses it |
| `Wilson.IntervalIsScoreTest` | tools/scripts/compare_evaluations.py:15-23 | the interval is exactly the set of proportions the score test does not reject |
| `Wilson.ClampsAreNoOps` | tools/scripts/compare_evaluations.py:15-23 | it contains the observed proportion and lies inside [0, 1], so both clamps are no-ops; it touches an edge exactly when the edge was observed |
| `Wilson.Reflected` | tools/scripts/compare_evaluations.py:15-23 | counting failures instead of successes reflects the interval |

## Left out

- Counters of the CAN driver are unbounded: 64-bit wrap-around of the statistics is not modelled.
- The CAN core, netdev registration, debugfs file handling and module loading appear only as the steps and answers the driver sees.
- Path normalisation, a parameter that may refuse a path, and the link walk. It refuses brackets, in patterns and in changed paths, so no bracket wildcard reaches the matcher, which is modelled for `*`, `?` and `**`.
- Unicode folds that change a string's length: folding maps characters one to one.
- The diff of a working tree (index and untracked files) and the choice of packets: the diff is between commits and the packets are given.
- Staging directories, their clean-up and what a killed process leaves on disk; targets are plain files.
- Freedom from lost updates between generators: the READMEs are read and spliced before the lock is taken, and only the publish step is exclusive.
- ReadinessOutputs.WriteOutputs: the generation lock is one answer, because GenerationLocks models how it is taken; text that is not UTF-8 in the report or a README is not modelled.
- Rendering of the readiness documents themselves, which are parameters of the outputs model.
- JSON lexing of captures, and the text form of their timestamps: the instant is kept as seconds and microseconds.
- Tampered rows inside the database and concurrent writers to it: the store's own transaction is one step.
- TaskIngest.IngestCapture: a record is bound once, although the source binds it again before its append, because binding is a pure function.
- Release eligibility, provenance, manifest hashes, run-log loading and the digest of the metrics index.
- Float rounding in ratios, percentile ranks and the Wilson interval: the model uses exact reals.
- Event payload details that no check reads, the parcel routing planner (its operation list is an input), and the digits of event times, which the ISO library writes and reads.
- Quarantine files, sandbox creation, import isolation and what a test run itself may write into the sandbox: a run is an exit code.
- DependencyLock.RoundTrip: the fixed comment lines are any comments whose first word is not followed by a colon, because their wording does not matter; line splitting is on newlines and white space is ASCII.
- Dependency resolution, downloads and range checks of the lock.
- Everything that only renders, polls, launches processes or talks to a network, and the robot stack outside these files.
