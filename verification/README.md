# HAMIE: verified core

A Dafny model of the parts of HAMIE whose correctness spans more than one
function, with proofs about whole runs and all interleavings.

- **The approved repair.** Triage proposes a plan that an advisory model cannot steer;
  in a world that has not moved, execution derives the same one. At execution the
  plan is re-derived from configuration and live state, compared with the approved
  one, authorized, checkpointed, backed up, applied file by file, validated, rescanned
  and judged; any failure may roll it back. `Execute` is proved against a specification of every outcome, over a host
  whose every call may fail and whose writes promise nothing. Its log of durable
  records, backups and writes obeys a write-ahead discipline, and the recovery
  decision taken after a restart is proved safe for every point at which that log
  can be cut.
- **The scan coordinator.** One runner, one merged batch, futures answered once,
  and a cancel that races all of it, as a step system over every interleaving; the
  coordinator object's critical sections are proved to be exactly its steps, and what
  each step does is stated over runs: who is queued, who is answered, with what.
- **Reconciliation and the store.** How findings move between scans, what a commit
  against a generation number guarantees to clients that interleave freely, how long
  a command token is remembered, and what whole runs of commands add up to: every
  sighting counted, and every review that changed accounted for by a record.
- **The analyzer supervisor.** Batching, concurrency and the outcome cache refine
  analyzing the whole capture at once; the cache is exactly least-recently-used.

## Assumptions

- A read that returns returns the file's true content, and nothing else edits the
  planned files during a run. Nothing is assumed of writes: a write may return
  having stored something else, or raise having stored part of its text. The
  outcome theorem says exactly what that leaves behind (`Torn`), and
  `RestoredIsOriginalIff` when it is nothing.
- An exception that escapes a run (an unguarded gateway call, a file that is not
  UTF-8) ends its log early. That is a crash at that point, which the theorems
  about every prefix of the log cover.
- SHA-256 digests and finding ids are injective; the digest of a plan is kept as
  the tuple it is taken over.
- Saving a record may fail, or persist and still report failure, because the
  projection is notified after the commit inside the same call.
- Projection notifications do not raise, and a scan that is cancelled does not
  swallow the cancellation.
- A cache key decides the analyzer's outcome, raising included; an analyzer run by
  partition judges one entity at a time, so its findings are about the entity it is
  looking at.
- The successor of an entity is found as the runtime wires it: the base of a numeric
  duplicate ending, if that exists.
- What the rest of the house answers during a repair (configuration checks,
  reloads, runtime health, incidents, scan results) is a record of arbitrary
  values. Clocks, stamps and which calls fail are arbitrary.

## What was found

- **A torn write survives its rollback.** A forward write that raises after
  truncating its file is not counted as written, so the rollback skips it. With
  nothing further going wrong the rollback reports ROLLED_BACK over the damaged
  file (`RollbackKeepsTheTear`, `TruncatedFileIsNotRestored`); the files are the
  original ones exactly under `RestoredIsOriginalIff`.
- **A repair that regressed turns into a success at the next restart.** REGRESSED,
  and INCONCLUSIVE for want of a fresh scan, never write a closing record; the last
  one says the configuration check passed, so recovery answers VALIDATED_SUCCESS
  and retires it (`UnprovenRepairReadsAsSuccess`).
- **Rollback records are keyed by the approved plan, all others by the re-derived
  one.** A plan that passes the drift check has the re-derived identity exactly when
  it names each path once (`IdentityAgreesIffPathsDistinct`,
  `RecordsShareOneKeyIff`); that can be seen from the submitted plan. With a repeated
  path (`DuplicatePathsEscapeDrift`) a restart could re-apply a rejected repair
  (`SplitKeysForgetRollback`).
- **Replacing text is not renaming.** Repairing `light.a_2` also rewrites the first
  part of `light.a_20`, another device (`NumberedSuffixIsNotRenamed`); a repaired
  file is the renamed file exactly when every occurrence stands alone
  (`PlannedFileIsRenamedIff`). Where one does not, the identifier can join up again
  out of its base and what follows, as in `light.a_2_2`; a repair leaves a trace in
  a planned file exactly then (`NothingRemainsIff`).
- **Revoking an absent acknowledgement is documented as a no-op and raises**
  (`CommitsUnlessNothingToRevoke`, `OnlyEmptyRevocationStandsStill`).
- **Removing the document restarts its generations.** Over runs with any number of
  removals no update is lost exactly when no client that loaded before a removal
  commits after the generations have been climbed again to where it was, in another
  state (`NothingLostIff`); one such run is `RemovalForgetsGenerations`.
- **A hint is documented to choose only among candidates**, but it supplies the
  stale entity itself when no incident subject is absent
  (`HintIntroducesTargetIff`); execution never uses it.

## Model

| member | source | states |
|---|---|---|
| `TokenReplacement.LengthLaw` | hamie/application/remediation_tools.py:710-730 | the text after a replacement is longer by occurrences times the difference of the identifiers |
| `TokenReplacement.CountZeroIffAbsent` | hamie/application/remediation_tools.py:722-724 | no occurrence is counted exactly when the identifier is nowhere in the text |
| `TokenReplacement.ChangesIffOccurs` | hamie/application/remediation_tools.py:798-813 | the rewritten text differs exactly when something was counted, so hash comparisons and counts agree |
| `TokenReplacement.ReplacementIsRenamingIffDelimited` | hamie/application/remediation_tools.py:801-803 | the textual replacement renames identifiers exactly when every occurrence stands alone |
| `TokenReplacement.NothingLeft` | hamie/application/remediation_tools.py:801-803 | with delimited occurrences and a new identifier free of the old one, one pass leaves none |
| `TokenReplacement.LeftIffRejoins` | hamie/application/remediation_tools.py:801-803 | for an identifier and its base, on any text, one pass leaves an occurrence exactly when one joins up again |
| `TokenReplacement.RejoiningIsUndelimited` | hamie/application/remediation_tools.py:801-803 | which takes an occurrence that does not stand alone |
| `TokenReplacement.NumberedSuffixIsNotRenamed` | hamie/application/remediation_tools.py:801-803 | the failing case: a numbered duplicate that is a prefix of another identifier |
| `RepairPlan.ReadBackSorts` | hamie/application/remediation_lifecycle.py:312-349 | reading a serialized plan back sorts its locations, changes nothing else and keeps its identity |
| `RepairPlan.BuiltPlanRoundTrips` | hamie/application/remediation_lifecycle.py:396-468 | any plan that was built survives serialization unchanged |
| `RepairPlan.FieldsAreRead` | hamie/application/remediation_lifecycle.py:438-468 | which entry of a submitted plan is read as what, a missing one as empty |
| `RepairPlan.BuiltPlanHolds` | hamie/application/remediation_lifecycle.py:396-436 | a plan holds exactly what was measured in path order and expects that many occurrences |
| `RepairPlan.IdentityIff` | hamie/application/remediation_lifecycle.py:312-326 | what plans with distinct paths must agree on to have one identity |
| `RepairPlan.IdentityIgnoresLocationOrder` | hamie/application/remediation_lifecycle.py:312-326 | identity does not depend on the order of locations with distinct paths |
| `RepairPlan.ComparePlans` | hamie/application/remediation_lifecycle.py:471-537 | reports every difference between two plans and nothing else |
| `RepairPlan.DriftAgreesWithIdentity` | hamie/application/remediation_lifecycle.py:471-537 | for distinct paths the drift check passes exactly when identities agree and root cause, priority and evidence status have not moved |
| `RepairPlan.MaterialChurnNeverBlocks` | hamie/application/remediation_lifecycle.py:471-537 | new findings and evidence about the same incident are reported and block nothing |
| `RepairPlan.IdentityAgreesIffPathsDistinct` | hamie/application/remediation_lifecycle.py:471-537 | a plan that passes the drift check against a measured one has its identity exactly when it names each path once |
| `RepairPlan.DuplicatePathsEscapeDrift` | hamie/application/remediation_lifecycle.py:513-531 | the smallest plan that passes the check with another identity |
| `Authorization.WordingIsIgnored` | hamie/application/remediation_tools.py:238-297 | no free text and no claimed backing moves the decision on a reference replacement |
| `Authorization.AuthorizeIff` | hamie/application/remediation_tools.py:191-297 | for any operation, exactly when the gate blocks and when it opens by itself |
| `Authorization.ReplacementRunsIff` | hamie/application/remediation_tools.py:191-297 | a replacement runs exactly when someone approved it, it gains no power to switch anything off and touches no critical protected chain |
| `Authorization.ReplacementBlockedIff` | hamie/application/remediation_tools.py:191-297 | an unapproved replacement is refused exactly when it gains power to switch something off or touches a critical protected chain |
| `Authorization.ReplacementRated` | hamie/application/remediation_tools.py:191-297 | the risk of a replacement is read off what it gains, its verdict off the chains it touches |
| `TargetRediscovery.Rediscover` | hamie/application/incident_remediation.py:244-330 | the loop over subjects computes the specified rediscovery |
| `TargetRediscovery.AfterColonIs` | hamie/application/incident_remediation.py:258-260 | an affected subject names what follows its last colon |
| `TargetRediscovery.EntityIdIff` | hamie/application/incident_remediation.py:56 | what counts as an entity identifier |
| `TargetRediscovery.StaleIff` | hamie/application/incident_remediation.py:258-285 | which entity is taken to be stale, with a hint or without; without one nothing is found |
| `TargetRediscovery.Search` | hamie/application/runtime.py:145-160 | exactly the active, readable files that contain the needle are found, with their counts |
| `TargetRediscovery.SearchFileByFile` | hamie/application/runtime.py:145-160 | files are searched one by one in their order |
| `TargetRediscovery.NeutralTargetIsForced` | hamie/application/incident_remediation.py:151-159 | a usable target without a hint is the sole absent subject and its sole candidate |
| `TargetRediscovery.NeutralUsableIff` | hamie/application/incident_remediation.py:244-330 | exactly when a target is usable without a hint, and which |
| `TargetRediscovery.HintOnlyChooses` | hamie/application/incident_remediation.py:286-330 | a replacement is always a candidate, the hinted one if it is among them and else the only one; the first 25 files are taken and it is said if there were more |
| `TargetRediscovery.SuccessorIff` | hamie/application/runtime.py:178-192 | an entity has a candidate exactly when it ends in `_2` to `_9` behind an existing base |
| `TargetRediscovery.SuccessorIsBase` | hamie/application/runtime.py:178-192 | the candidate for an entity is its base, an identifier still, and does not contain it |
| `TargetRediscovery.HintIntroducesTargetIff` | hamie/application/incident_remediation.py:258-275 | when a hint brings in a stale entity of its own, and that execution then has no target |
| `TargetRediscovery.TriageStopsWhen` | hamie/application/incident_remediation.py:469-620 | exactly when triage ends in no action, an external action or too little evidence |
| `TargetRediscovery.TriageWithoutPlan` | hamie/application/incident_remediation.py:469-620 | such endings, blocks and weak evidence carry no plan; which rediscovery is reported |
| `TargetRediscovery.TriageProposes` | hamie/application/incident_remediation.py:605-670 | with a settled target, exactly when triage blocks, carries a plan, and calls it a candidate |
| `TargetRediscovery.ModelCannotSteer` | hamie/application/incident_remediation.py:469-670 | with a usable neutral target two investigations differ at most by one blocking the repair |
| `DurableBaseline.SaveKeepsInFlight` | hamie/application/runtime.py:427-459 | saving replaces one key, keeps the record while in flight, and costs no other repair in flight its record |
| `DurableBaseline.SaveDropsOldest` | hamie/application/runtime.py:427-459 | saving lets go only repairs that are over, the oldest first, and none while the store is not full |
| `DurableBaseline.FilesDecide` | hamie/domain/durable_baseline.py:613-720 | which family of answers recovery gives is decided by the files alone |
| `DurableBaseline.PostStateMeans` | hamie/domain/durable_baseline.py:685-720 | the answer over files in their post-state, by what the record declares |
| `DurableBaseline.PreStateMeans` | hamie/domain/durable_baseline.py:720-797 | the answer over untouched files, each with its exact condition |
| `DurableBaseline.TerminalIff` | hamie/domain/durable_baseline.py:571-578 | exactly when a restart is done with a record |
| `DurableBaseline.MayApplyIff` | hamie/domain/durable_baseline.py:581-797 | exactly when a restart may write again |
| `DurableBaseline.ValidatedOnConfigurationAlone` | hamie/domain/durable_baseline.py:685-707 | files at their post-state are a validated success exactly on the record of the configuration check |
| `DurableBaseline.CompleteWriteRecognisedIff` | hamie/domain/durable_baseline.py:613-685 | the classifier recognises a complete write exactly when every recorded file changed |
| `RepairLog.LastRecordCovers` | hamie/application/remediation_lifecycle.py:1015-1120 | the last durable record says whether a write or a rollback was ever declared, and names every file |
| `RepairLog.RecordsAreTrue` | hamie/application/remediation_lifecycle.py:1596-1705 | every record was true when it was saved: it says what its stage says, names the files and backups, and follows the records that must be durable before it |
| `RepairLog.ForwardNeedsBegan` | hamie/application/remediation_lifecycle.py:1660-1688 | no file is touched before a durable declaration, none restored before a durable rollback |
| `RepairLog.ChangedFilesAreRecoverable` | hamie/application/remediation_lifecycle.py:1596-1705 | at every crash point a changed file is covered by a record with all hashes and by a backup of its original |
| `RepairLog.OnlyTargetsChange` | hamie/application/remediation_tools.py:798-847 | no file outside the plan is ever changed |
| `RepairLog.BackupsFrozen` | hamie/application/remediation_lifecycle.py:1596-1650 | from the declaration on every file has a backup of its original |
| `RepairLog.StoreHoldsLastRecord` | hamie/application/runtime.py:427-459 | the record recovery reads is the last one saved |
| `RepairLog.RecoveryNeverReapplies` | hamie/application/remediation_lifecycle.py:1124-1241 | if recovery permits a write after any crash then no planned file ever held anything but its original |
| `RepairLog.SplitKeysForgetRollback` | hamie/application/remediation_lifecycle.py:1340-1347 | under two keys a restored file would be repaired again |
| `RepairLog.TornIsWhatRaisedLeft` | hamie/application/remediation_tools.py:453-455 | what raised writes left behind, file by file |
| `RepairLog.RestoredIsOriginalIff` | hamie/application/remediation_tools.py:815-847 | a restored set of files is the original exactly when no raised write changed its file |
| `RepairLog.TruncatedFileIsNotRestored` | hamie/application/remediation_tools.py:802-804 | the failing log: one file written, one truncated by a raised write, a rollback that restores the first alone |
| `RepairLog.PreOrPostAtEveryCrash` | hamie/application/remediation_lifecycle.py:1596-1705 | when writes land as asked or not at all and restores land the backup, every planned file is at its pre or post content at every crash point |
| `RepairLog.FaithfulCrashNeverDiverges` | hamie/domain/durable_baseline.py:613-673 | then recovery can always classify the files |
| `RemediationTools.Host.Begin` | hamie/application/remediation_lifecycle.py:1608-1610 | a run starts with no backups under its stamp |
| `RemediationTools.Host.Write` | hamie/application/remediation_tools.py:453-455 | a write lands as something, returns or raises, and is on the log |
| `RemediationTools.Host.Restore` | hamie/application/remediation_tools.py:492-499 | likewise a restore, only of a file that was touched and under a declared rollback |
| `RemediationTools.Host.SaveBaseline` | hamie/application/runtime.py:427-459 | a save that is confirmed persisted; one that is not may have |
| `RemediationTools.PlanLocations` | hamie/application/remediation_tools.py:710-730 | one change per distinct path in order, measured from the file or marked unreadable, and exactly the gained off-targets |
| `RemediationTools.BackupLocations` | hamie/application/remediation_tools.py:732-758 | succeeds exactly when every backup was read back equal to its file |
| `RemediationTools.ApplyLocations` | hamie/application/remediation_tools.py:760-813 | when it refuses, when it reports success, and what each file holds in every case |
| `RemediationTools.RestoreLocations` | hamie/application/remediation_tools.py:815-847 | succeeds exactly when every written file was read back restored; then the files are the originals plus what raised writes left; without a fault it succeeds over verified backups |
| `RemediationTools.OriginalEverywhere` | hamie/application/remediation_tools.py:815-847 | planned files back at their originals, torn ones aside, are the whole difference |
| `RemediationTools.EditedEverywhere` | hamie/application/remediation_tools.py:798-813 | planned files at their post content are the whole repaired configuration |
| `RemediationLifecycle.Checkpoint` | hamie/application/remediation_lifecycle.py:1015-1120 | a required record is durable or the run stops; others never stop it |
| `RemediationLifecycle.Derive` | hamie/application/remediation_lifecycle.py:820-878 | the plan is a function of the files and the live state; no model input |
| `RemediationLifecycle.DerivedPlanIsDerived` | hamie/application/remediation_lifecycle.py:838-878 | its target is the forced one and its hashes and counts are those of the files |
| `RemediationLifecycle.Confirm` | hamie/application/remediation_lifecycle.py:1449-1522 | passes exactly when the approved plan is its identity, is about this incident and shows no blocking drift |
| `RemediationLifecycle.Permit` | hamie/application/remediation_lifecycle.py:1524-1594 | authorization and the state beforehand, both directions |
| `RemediationLifecycle.SecureBackups` | hamie/application/remediation_lifecycle.py:1596-1678 | before a byte changes the attempt is durable, naming every file, with every backup verified |
| `RemediationLifecycle.Rollback` | hamie/application/remediation_lifecycle.py:1314-1414 | what each of its outcomes says about the files, exactly when it reports ROLLED_BACK if nothing goes wrong from its entry on, and that the last record then says how it ended |
| `RemediationLifecycle.EliminatedIff` | hamie/application/remediation_lifecycle.py:2252-2345 | ELIMINATED exactly when incidents could be read, no row of this one that is its last is in one of the five active lifecycles, and no readable active file mentions the old entity |
| `RemediationLifecycle.OtherVerdictsIff` | hamie/application/remediation_lifecycle.py:2252-2330 | each other verdict with its exact condition over the rows and files |
| `RemediationLifecycle.NewlyViolatedIff` | hamie/application/remediation_lifecycle.py:1836-1844 | an invariant is newly violated exactly when it is violated now and was not before |
| `RemediationLifecycle.FreshIff` | hamie/application/remediation_lifecycle.py:2224-2250 | a scan counts as fresh exactly when both identifiers are known and differ and it was committed |
| `RemediationLifecycle.NewCriticalIff` | hamie/application/remediation_lifecycle.py:1562-1578 | a regression is a P0 or P1 incident in an active lifecycle whose id was not active before |
| `RemediationLifecycle.NothingNewMeansNothingAtAll` | hamie/application/remediation_lifecycle.py:1836-1844 | after the gate on the state before, no newly violated invariant means no violated invariant |
| `RemediationLifecycle.Assess` | hamie/application/remediation_lifecycle.py:1733-2040 | keeps the change exactly when the house is sound and no regression is to be rolled back; asks for its scan after the last write |
| `RemediationLifecycle.ValidateAndProve` | hamie/application/remediation_lifecycle.py:1733-2056 | every verdict on a change that landed, each with its exact condition |
| `RemediationLifecycle.Carry` | hamie/application/remediation_lifecycle.py:1596-1729 | the phases that touch the machine: outcome decides the files; with no fault the outcome is decided by the house |
| `RemediationLifecycle.Execute` | hamie/application/remediation_lifecycle.py:1418-1729 | nothing runs uncleared; every outcome decides the files; RESOLVED is earned; without a fault every outcome is decided by the house, ROLLED_BACK included, only what is not cleared is blocked, and every ending but an unproven one closes its record and says how it ended; a run past the drift check is about its plan's files even when blocked |
| `RemediationLifecycle.ReconcileLater` | hamie/application/remediation_lifecycle.py:2060-2220 | the resumable proof and its exact verdicts |
| `RemediationLifecycle.LaterProofLacksSoundness` | hamie/application/remediation_lifecycle.py:2060-2220 | it lacks exactly the soundness of the house that the full run asks for |
| `RepairGuarantees.RecordsShareOneKeyIff` | hamie/application/remediation_lifecycle.py:1340-1347 | all records of a run are under one key exactly when the approved plan names each path once |
| `RepairGuarantees.NoRunIsAppliedTwice` | hamie/application/remediation_lifecycle.py:1124-1241 | no crash point of any run, blocked ones included, lets recovery apply a repair a second time |
| `RepairGuarantees.ExecuteForRecovery` | hamie/application/remediation_lifecycle.py:1418-1729 | the run itself promises what recovery will make of it, at every crash point and at its end |
| `RepairGuarantees.ProposalSurvivesIff` | hamie/application/remediation_lifecycle.py:820-878 | in a world that has not moved, what triage proposed is what execution derives, identity and drift check alike, exactly when the whole repair gains no power to switch anything off |
| `RepairGuarantees.DerivedPlanIsRated` | hamie/application/remediation_lifecycle.py:820-878 | the risk and protection a derived plan carries, from what it gains and touches |
| `RepairGuarantees.TargetIsBase` | hamie/application/runtime.py:178-192 | a plan's target is its stale entity without a numeric ending |
| `RepairGuarantees.PlannedFileChanges` | hamie/application/incident_remediation.py:283-290 | the repair changes every planned file |
| `RepairGuarantees.CompleteWriteIsRecognised` | hamie/domain/durable_baseline.py:613-707 | recovery recognises every complete write of a derived plan |
| `RepairGuarantees.TruncatedRepairIsNotResolved` | hamie/application/incident_remediation.py:286-290 | a reference in more files than a plan can hold is never reported resolved |
| `RepairGuarantees.NothingRemainsIff` | hamie/application/remediation_lifecycle.py:2283-2330 | exactly when a completed repair leaves no trace of the old entity, for any files |
| `RepairGuarantees.PlannedFileIsRenamedIff` | hamie/application/remediation_tools.py:798-813 | exactly when a repaired file is the renamed file |
| `RepairGuarantees.UnprovenRepairReadsAsSuccess` | hamie/application/remediation_lifecycle.py:1930-2026 | what a restart makes of a repair that was kept unproven or regressed |
| `RepairGuarantees.VerdictScanSawTheRepair` | hamie/application/remediation_lifecycle.py:1906-1912 | in any joint history the scan a kept repair asked for began over, and ran over, the files as the repair left them |
| `RepairGuarantees.RollbackKeepsTheTear` | hamie/application/remediation_tools.py:825-829 | after a torn write a rollback in which nothing further goes wrong reports ROLLED_BACK over the torn file |
| `ScanCoordinator.StepKeepsInv` | hamie/application/scan_coordinator.py:235-341 | every step of every interleaving, cancelling a cancel included, keeps the coordinator's invariant |
| `ScanCoordinator.TasksMayDo` | hamie/application/scan_coordinator.py:288-341 | what the runner can do next at each point of suspension, and that a due cancellation comes first |
| `ScanCoordinator.InvKnown` | hamie/application/scan_coordinator.py:235-341 | the invariant supplies all that the coordinator's sections rely on |
| `ScanCoordinator.SingleFlight` | hamie/application/scan_coordinator.py:288-341 | at most one scan executes |
| `ScanCoordinator.EveryResultIsFresh` | hamie/application/scan_coordinator.py:235-256 | a result comes from a scan that began after the request and names its trigger |
| `ScanCoordinator.ScanFollowsRepair` | hamie/application/scan_coordinator.py:235-256 | a scan requested after a point of the run began after it |
| `ScanCoordinator.RequestIsQueued` | hamie/application/scan_coordinator.py:235-256 | in every run an accepted request waits from then on under its trigger, in a new batch if nothing ran and in the merged one if something did; during a cancel it leaves no trace |
| `ScanCoordinator.CancellingIff` | hamie/application/scan_coordinator.py:242-284 | requests are refused exactly from the beginning of a cancel until the next return of one |
| `ScanCoordinator.NobodyIsStranded` | hamie/application/scan_coordinator.py:240-286 | a registered waiter without an answer is in exactly one queue and someone will answer it |
| `ScanCoordinator.AnsweredOnce` | hamie/application/scan_coordinator.py:295-323 | an answer is final |
| `ScanCoordinator.CancelLeavesNobodyWaiting` | hamie/application/scan_coordinator.py:258-286 | when a cancel returns everyone who was accepted has an answer |
| `ScanCoordinator.CancelAnswersEveryone` | hamie/application/scan_coordinator.py:258-286 | the beginning and the return of a cancel turn away whoever waits, and nobody else |
| `ScanCoordinator.NothingRunsThroughCancel` | hamie/application/scan_coordinator.py:258-286 | while a cancel is under way no scan begins, succeeds or fails and no batch is taken |
| `ScanCoordinator.CancelReachesRunner` | hamie/application/scan_coordinator.py:258-276 | a cancel reaches the runner it will wait for, and so does each further cancellation of it |
| `ScanCoordinator.CancelArrives` | hamie/application/scan_coordinator.py:297-318 | a runner not started never runs, a running scan is reported cancelled first, and neither answers anybody |
| `ScanCoordinator.BatchesAreNamed` | hamie/application/scan_coordinator.py:247-253 | in every run triggers are collected for exactly those who wait, and a batch runs under exactly the triggers of those it runs for |
| `ScanCoordinator.FailureSparesThePending` | hamie/application/scan_coordinator.py:297-318 | a failed scan fails those it ran for and nobody else |
| `ScanCoordinator.FailureIsReported` | hamie/application/scan_coordinator.py:298-312 | a failure is reported before anybody learns of it |
| `ScanCoordinator.SuccessAnswersTheBatch` | hamie/application/scan_coordinator.py:320-323 | a result goes to exactly those it ran for, is of the latest scan of its runner, and names their triggers and no other |
| `ScanCoordinator.NextBatchIsWhole` | hamie/application/scan_coordinator.py:325-335 | the merged batch is served whole, and a runner without one retires |
| `ScanCoordinator.FinishSparesNewerRunner` | hamie/application/scan_coordinator.py:337-341 | a finishing runner clears itself away and never a newer one |
| `ScanCoordinator.EveryoneCanBeServed` | hamie/application/scan_coordinator.py:288-341 | left alone the runner answers everyone in a few steps |
| `ScanCoordinator.CancelCanEnd` | hamie/application/scan_coordinator.py:258-286 | a begun cancel can always be brought to its end, however often it is itself cancelled, and then nobody waits |
| `ScanCoordinator.EveryoneCanBeAnswered` | hamie/application/scan_coordinator.py:235-341 | from every reachable state some continuation answers everyone |
| `ScanCoordinator.Coordinator.RequestScan` | hamie/application/scan_coordinator.py:235-254 | the section registering a request is the model's step; accepted means registered, waiting and in a batch |
| `ScanCoordinator.Coordinator.BeginCancel` | hamie/application/scan_coordinator.py:258-273 | likewise the first half of a cancel |
| `ScanCoordinator.Coordinator.EndCancel` | hamie/application/scan_coordinator.py:278-286 | likewise its second half |
| `ScanCoordinator.Coordinator.DeliverOutcome` | hamie/application/scan_coordinator.py:313-323 | likewise delivering a result or a failure |
| `ScanCoordinator.Coordinator.BeginScan` | hamie/application/scan_coordinator.py:294-297 | likewise the start of an execution |
| `ScanCoordinator.Coordinator.DeliverCancelled` | hamie/application/scan_coordinator.py:298-318 | likewise the cancelled branch of the run loop |
| `ScanCoordinator.Coordinator.TakePending` | hamie/application/scan_coordinator.py:325-335 | likewise taking the merged batch |
| `ScanCoordinator.Coordinator.LeaveRunLoop` | hamie/application/scan_coordinator.py:337-341 | likewise the runner's last section |
| `Reconciliation.ReconcileFindings` | hamie/application/reconciliation.py:106-190 | the two loops compute the specified pass and its counts |
| `Reconciliation.PassPointwise` | hamie/application/reconciliation.py:121-182 | with one candidate per id a pass decides each finding by itself |
| `Reconciliation.ClosedIff` | hamie/application/reconciliation.py:167-182 | a finding is resolved exactly when its own analyzer covered or excluded its subject and did not report it; none is deleted |
| `Reconciliation.CountsAreConserved` | hamie/application/reconciliation.py:119-190 | created, retained and unchanged add up to the candidates; the findings grow by the created |
| `Reconciliation.CountsMean` | hamie/application/reconciliation.py:119-190 | which candidates are counted created, retained and unchanged, and which findings resolved |
| `Reconciliation.SecondPassIsQuiet` | hamie/application/reconciliation.py:106-190 | the same result again creates, retains and resolves none |
| `Reconciliation.ReconcileAll` | hamie/application/scan_coordinator.py:427-439 | the chain over all analyzers computes the specified fold and totals |
| `Reconciliation.FoldPointwise` | hamie/application/scan_coordinator.py:420-439 | after a scan each finding is what its own analyzer made of it |
| `Reconciliation.ScanOrderIsFree` | hamie/application/scan_coordinator.py:420-439 | the order of analyzers changes neither findings nor totals |
| `Reconciliation.OthersStay` | hamie/application/scan_coordinator.py:420-426 | findings of analyzers that took no part are untouched |
| `Reconciliation.RecordPolicyReopens` | hamie/application/reconciliation.py:64-103 | appends one record per policy reset, in id order, keeping the last 500 |
| `Reconciliation.ReopenExpiredSnoozes` | hamie/application/reconciliation.py:24-61 | reopens exactly the expired, reconfirmed snoozes and appends their records |
| `Reconciliation.ResetsHaveReasons` | hamie/application/reconciliation.py:150-161 | a scan resets a review only for recurrence or a material change |
| `Reconciliation.EachResetRecordedOnce` | hamie/application/scan_coordinator.py:440-455 | over the two record-keeping passes of a scan, the records added are one for one the reviews taken back, each written out in full |
| `Repository.AppliedIff` | hamie/application/application_service.py:187-257 | exactly when a review is applied, action by action |
| `Repository.AppliedChanges` | hamie/application/application_service.py:213-257 | what applying a review leaves behind, action by action: the new state of the finding, the record of the transition, the remembered command, and nothing else |
| `Repository.RefusedFor` | hamie/application/application_service.py:198-214 | which refusal a caller meets, and when it is answered from memory |
| `Repository.ReplayIsHarmless` | hamie/application/application_service.py:202-206 | a remembered command is answered without a change |
| `Repository.CommitsUnlessNothingToRevoke` | hamie/application/ai_control_service.py:122-139 | every command commits on the state it was computed from, except a revocation with nothing to revoke |
| `Repository.WindowIsLast` | hamie/application/application_service.py:235-238 | the remembered commands are the last 128 accepted |
| `Repository.TokensStayUnique` | hamie/application/persistence.py:136-138 | tokens stay unique over any run |
| `Repository.RememberedForExactly127` | hamie/application/application_service.py:235-238 | a command is remembered for exactly the next 127 accepted ones |
| `Repository.AppliedOnceInWindow` | hamie/application/application_service.py:201-206 | two applications of one token are at least 129 accepted commands apart |
| `OptimisticStore.NoLostUpdate` | hamie/application/persistence.py:246-258 | over all interleavings without a removal each commit applies its command to the state it replaces, and a generation determines its state |
| `OptimisticStore.EqualGenerationsForce` | hamie/application/persistence.py:246-258 | since the last removal equal generations mean equal states |
| `OptimisticStore.TakesIff` | hamie/infrastructure/storage.py:592-601 | in any run an attempt takes effect exactly when generations agree, and is then computed from what it replaces if it loaded since the last removal |
| `OptimisticStore.NothingLostIff` | hamie/infrastructure/storage.py:592-618 | over all runs with removals, exactly when no update is lost |
| `OptimisticStore.NothingLostIsSerial` | hamie/infrastructure/storage.py:592-618 | then each commit since the last removal applies its command to the state before it |
| `OptimisticStore.SerialIsReplay` | hamie/infrastructure/storage.py:592-601 | the document is what the committed commands make of it in sequence |
| `OptimisticStore.RacingTokensApplyOnce` | hamie/application/application_service.py:198-257 | the token guarantee holds for racing callers |
| `OptimisticStore.RemovalForgetsGenerations` | hamie/infrastructure/storage.py:691-747 | one run in which a removal loses an update |
| `OptimisticStore.OnlyEmptyRevocationStandsStill` | hamie/application/ai_control_service.py:130-137 | the only command whose state does not advance |
| `OptimisticStore.Store.Attempt` | hamie/application/runtime.py:438-457 | one load and commit with others in between |
| `OptimisticStore.Store.CommitWithRetry` | hamie/application/ai_control_service.py:50-66 | applied exactly once or not at all; gives up only after losing every attempt |
| `CommandHistory.ScanReports` | hamie/application/reconciliation.py:119-165 | what one committed scan makes of a finding it reports, field by field |
| `CommandHistory.ScanPassesOver` | hamie/application/reconciliation.py:167-182 | and of one it does not: nothing, or closed by its own analyzer |
| `CommandHistory.RecordTellsSightings` | hamie/application/reconciliation.py:106-190 | over any run of commands a finding is on record exactly if it was reported, with its first and last sighting, one occurrence per report and one revision per change |
| `CommandHistory.ScanRecordsResets` | hamie/application/scan_coordinator.py:440-455 | a committed scan keeps the last 500 of the records before it and one for each review it took back, and for no other |
| `CommandHistory.EveryReviewIsAccountedFor` | hamie/application/application_service.py:187-257 | over any run no review changes without a record: the kept records are the end of a trail that leads each finding without a gap from the review it had to the one it has |
| `CommandHistory.RacingReviewsAreAccountedFor` | hamie/application/persistence.py:246-258 | and so for a document that clients race for |
| `CommandHistory.RaisesIff` | hamie/application/operations_service.py:333-358 | which commands raise, and exactly when |
| `CommandHistory.IncidentRecorded` | hamie/application/operations_service.py:359-390 | an incident command joins the last 500 audits and the last 128 remembered commands |
| `CommandHistory.BaselineSaved` | hamie/application/runtime.py:427-459 | a saved record of a repair in flight is there afterwards and costs no other its own |
| `CommandHistory.DeliveriesRecorded` | hamie/application/operations_service.py:2570-2600 | delivery outcomes join the last 500 audits |
| `CommandHistory.CommandsKeepApart` | hamie/application/cleanup_coordinator.py:275-345 | what each command leaves alone |
| `CommandHistory.AcknowledgementIsLastWord` | hamie/application/ai_control_service.py:95-139 | after any run the acknowledgement is what the last command about it said |
| `CommandHistory.DecisionStands` | hamie/application/cleanup_coordinator.py:252-360 | a decision about a piece of work stands until the next one about it or the next clean-up pass |
| `LruCache.TrimmedTouch` | hamie/analysis/supervisor.py:258-265 | forgetting what did not fit costs nothing |
| `LruCache.KeptIffFewLater` | hamie/analysis/supervisor.py:258-265 | a key is held exactly when fewer than the capacity of other keys were touched since |
| `LruCache.Cache.MoveToEnd` | hamie/analysis/supervisor.py:234-237 | a hit keeps the cache exactly least-recently-used |
| `LruCache.Cache.Put` | hamie/analysis/supervisor.py:260-265 | so does a store with its evictions, which change no other entry |
| `AnalyzerSupervisor.Partitions` | hamie/analysis/supervisor.py:185-205 | batches of at most the size, all but the last full, that join back to the capture |
| `AnalyzerSupervisor.RunPartitions` | hamie/analysis/supervisor.py:207-266 | the outcomes are the analyzer's for exactly these batches whatever is cached, hits first; it raises exactly when a batch does and then stores nothing |
| `AnalyzerSupervisor.SchedulingIsInvisible` | hamie/analysis/supervisor.py:268-337 | any batches in any order reduce to the reduction of the whole capture, and raise exactly when it does |
| `AnalyzerSupervisor.RefusedPartwise` | hamie/analysis/contracts.py:66-133 | the constructors of partitions and outcomes raise for some batch exactly when they raise for the whole capture |
| `AnalyzerSupervisor.CheckedIff` | hamie/analysis/contracts.py:66-133 | a batch raises exactly over a repeated entity or a finding about an id no covered entity has |
| `AnalyzerSupervisor.ReferenceAssesses` | hamie/analysis/supervisor.py:268-337 | the reference in terms of the analyzer alone: when it raises, its findings, classes and state |
| `AnalyzerSupervisor.CoverageClassifiesEveryone` | hamie/domain/evaluations.py:116-147 | what a result may say of a capture classifies every entity once, is complete only without gaps and holds one finding per id, so building the assessment never raises |
| `AnalyzerSupervisor.OneAssessment` | hamie/analysis/supervisor.py:268-337 | and there is only one such result |
| `AnalyzerSupervisor.Supervisor.Evaluate` | hamie/analysis/supervisor.py:98-168 | for every batch size and cache, equals the uncached whole-capture reference: for a usable capture it raises or says exactly what the analyzer found and classified, complete exactly when every entity is covered or excluded; for another one it is unknown and empty |
| `AnalyzerSupervisor.WholeCollectionSupervisor.Evaluate` | hamie/analysis/whole_collection_supervisor.py:149-285 | equals the direct analysis, class by class, complete exactly without gaps, with the same cache discipline |

## Left out

- Path policy, symlinks, encodings, and backups or stamps of earlier runs; a call
  the policy refuses is a call that raises.
- Fixture halts, failure injection, audit records, reasons and timestamps.
- Error signatures, availability counts and scope states are single booleans of
  the environment; how off-targets are extracted from a text is a parameter.
- Reopening an incident through its lifecycle after a disagreeing verdict.
- Concurrency limits and timeouts of the supervisor: the results of concurrent
  analyses are gathered in batch order, so they are computed in that order here.
- The analyzer-authority and recommendation-kind checks of `_reduce`.
- LruCache.Cache.Put: with a capacity that changes between calls the content is
  not characterised; capacity zero stores nothing.
- Review reasons and the length limits on findings, rules and recommendations of
  the stored document.
- Suppression reviews, grouping, incident building and recommendation staleness
  inside a scan's commit.
- CommandHistory.EveryReviewIsAccountedFor: reviews by suppression rules and in bulk
  are not among the commands; how a clean-up pass merges work items is a parameter.
- RepairGuarantees.ProposalSurvivesIff: every active configuration file is taken to be
  listed once.
- DurableBaseline.SaveKeepsInFlight: a record saved as complete may be pruned at
  once when 25 or more repairs are in flight, as in the source.
- TokenReplacement.ReplacementIsRenamingIffDelimited: identifiers are ASCII
  letters, digits, underscore and dot.
- Repository.AppliedIff: normalized tokens are checked for blanks, tabs, line feeds
  and carriage returns at their ends, not for every Unicode space.
- The single-file repair, AI providers, connectors, configuration and Home
  Assistant glue.
