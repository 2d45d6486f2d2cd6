# Myco substrate: verified model

Myco keeps an append-only causal log (the DAG). Almost everything else is derived from that log
or must agree with it. This project models the log once and proves how the components behave
over it, for every log, every run and every interleaving.

| files | what they model |
|---|---|
| `Dag.dfy`, `Prelude.dfy` | the log, hashing as a free Merkle term, insertion, ancestry |
| `PruneRules.dfy`, `PruneDetectors.dfy`, `PruneDuplicates.dfy`, `PruneScan.dfy` | the six internal-mortality rules: what each means, the passes that compute it, one scan |
| `PruneTheorems.dfy`, `Mortality.dfy`, `Rescan.dfy`, `Chains.dfy`, `Retirements.dfy`, `PruneLaws.dfy` | what a scan guarantees, on any log: rule D, C55, scans after scans, parts retired twice; on chains; and the local rules in plain words |
| `Derived.dfy`, `Snapshot.dfy`, `Cultivation.dfy`, `FoldLaws.dfy` | event-sourced state, snapshot boot, the cultivation state and the successor chain; the fold told field by field |
| `Server.dfy`, `Ingest.dfy`, `Migration.dfy`, `RunLoop.dfy` | the live server state and its handlers; `RunLoop.Step` is one complete step, `RunLoop.Execute` the code for it |
| `Invariants.dfy`, `Steps.dfy`, `Runs.dfy`, `RunTheorems.dfy`, `RunChains.dfy`, `Terminals.dfy`, `PruneCadence.dfy`, `Integrity.dfy`, `Serving.dfy` | what every step keeps, and the properties of whole runs and of the process that serves them |
| `PruneRuns.dfy`, `MigrationRuns.dfy`, `StepEffects.dfy` | over runs, from the inputs and the log alone: when scans happen, whom they retire and what tombstones say; when migrations start, commit and roll back; what each step remembers, counts and records |
| `Observatory.dfy`, `StageRuns.dfy` | the saturation stage machine and the budget alarms; the same told by the samples and the budgets |
| `Consensus.dfy`, `ConsensusRounds.dfy`, `CertificateRuns.dfy`, `VoteRuns.dfy` | votes, quorum certificates, the C49 gate, runs of votes |
| `Reproduction.dfy`, `SpawnRuns.dfy` | spawn gates and guards, lineages; when a birth happens and what a refusal leaves |
| `Plates.dfy` | plate supersession and the listing |
| `WallClock.dfy` | the compare-exchange clock |

Objects the source updates in place (`ServerState`, `DerivedState`) are classes; every method is
proved to move the object's `View()` by a specification function, and the properties are proved
about those functions. A run is a sequence of commands with arbitrary inputs. What each main operation
decides is also stated without the function that specifies it, by the nodes of the log and the inputs:
`PruneRuns.StepScans`, `MigrationRuns.CommitsIff`, `VoteRuns.CompletingVoteMints`, `StageRuns.StageIs`,
`SpawnRuns.BirthIff`, `Plates.ListedInOrder`, `StepEffects.StepRemembers` and the results beside them.

Results a reader may not expect:

- Every insertion names the tip as a parent, so the log of every run is a chain. In no reachable state
  does C55 find anything, at any counter, whether or not a scan ever ran (`RunChains.C55NeverFires`);
  and in the scans of a run the seed rule and rule D find nothing, rules A, B, C and E exactly what
  `RunChains.ReachableScanRetiresExactly` says. The results about the seed rule, rule D and C55 after a
  scan hold of every well-formed log; the logs on which those rules do find something are logs no run
  of the handlers writes.
- The comment at substrate/src/prune.rs:369-376 says every production rule skips parts that already
  have a tombstone. The set is collected before the first rule runs, so one scan can retire a part
  twice: `Retirements.RetiredTwiceIff` says exactly when, `Retirements.ForsakenAxisDiesTwice` gives a
  log. In a run it never happens, in one scan or over all of them (`RunChains.EachPartDiesOnce`).
- Rescanning at the same cycle emits nothing unless the first scan emitted something and the tip
  before it was itself overdue (`Rescan.RescanEmitsNothingIff`, with a log where it happens).
- "At most one terminal event between two migration starts" holds exactly when no accepted migration
  in between fails to build: a failed build writes its own rollback (`Terminals.AtMostOneTerminalIff`,
  `Terminals.TerminalsAfterStart`, with a run in `RunTheorems.TwoTerminalsBetweenStarts`).
- C66 never has a migration to roll back: every one is decided inside its window.
- A reboot in the middle of a migration replaces the candidate's wall-clock start, and nothing else.
- A snapshot saved under the all-zero identifier does not restore that identity.
- A freshly minted quorum certificate is valid exactly when the payload of the vote that completed the
  quorum hashes to the claim; that payload is not covered by any signature. So a claim can get a second
  certificate, exactly when every earlier one carries a payload that does not hash to it and a recheck
  meets the quorum again (`CertificateRuns.MintsExactly`, with a run in `CertificateRuns.TwoCertificates`).
- The clock's values are strictly increasing exactly while they stay below the i64 maximum.

## Model

| member | source | states |
|---|---|---|
| Dag.TipParentedInsertAppends | kernel/schema/src/dag.rs:170-218 | a node parented by the tip is always new: insertion never fails nor takes the silent duplicate branch, and keeps hashes distinct and parents earlier |
| Dag.InsertKeepsWellFormed | kernel/schema/src/dag.rs:170-218 | any insertion fails exactly for a missing parent, leaves the log alone for a hash it has, else adds the one node, and always keeps hashes distinct and parents earlier |
| Dag.ClosedHoldsAncestors | substrate/src/prune.rs:859-905 | a set of hashes closed under parents holds every ancestor of its members |
| PruneRules.DetectIsExact | substrate/src/prune.rs:220-941 | a rule lists a node's hash exactly when its verdict hits the node |
| PruneRules.ListedOnce | substrate/src/prune.rs:220-941 | in a well-formed log no rule lists a part twice |
| PruneDetectors.CollectAlreadyTombstoned | substrate/src/prune.rs:377-404 | the set is exactly the parts some readable tombstone names |
| PruneDetectors.DetectOrphanPastGrace | substrate/src/prune.rs:220-289 | the pass yields exactly the old, unprotected, childless nodes other than the tip, in insertion order |
| PruneDetectors.DetectStaleAxisPastWindow | substrate/src/prune.rs:452-509 | the last-touch index yields exactly the eligible registrations of axes untouched since the window, in order |
| PruneDetectors.DetectSupersededByFailedEvolution | substrate/src/prune.rs:535-592 | the latest-failure index yields exactly the eligible successes outdone by their newest failure past grace |
| PruneDetectors.DetectForgedUnderstandingSuperseded | substrate/src/prune.rs:615-693 | the newest-superseder index yields exactly the eligible plates outdone by it past grace |
| PruneDetectors.WalkBackwards | substrate/src/prune.rs:859-905 | the worklist terminates with the least set that holds the roots and is closed under parents |
| PruneDetectors.WalkFindsLiveNodes | substrate/src/prune.rs:859-905 | that set holds a node of the log exactly when a live root reaches it |
| PruneDetectors.DetectUnreachableFromLiveRoots | substrate/src/prune.rs:848-941 | rule D yields exactly the old, referenced, unreachable, eligible nodes, each once, in order |
| PruneDuplicates.DetectDuplicateContentSubsumed | substrate/src/prune.rs:735-824 | whatever order the hash map is drained in, the output is the first occurrences with a later copy, in log order |
| PruneTheorems.NextCopyIsSecondOccurrence | substrate/src/prune.rs:735-824 | the replacement the duplicate rule names is the second occurrence |
| PruneScan.EmitInternalMortalityEvent | substrate/src/prune.rs:1116-1156 | appends one tombstone parented by the tip and by its victim, and fails exactly when the victim is not in the log |
| PruneScan.RunPruneScan | substrate/src/prune.rs:1053-1108 | six rules in order under one context fixed beforehand, each seeing the tombstones of those before; reports exactly the nodes appended |
| PruneScan.StageAppends | substrate/src/prune.rs:1053-1156 | a scan only appends tombstones, each with exactly its victim and the previous node as parents |
| PruneTheorems.UnreachableRetiresExactly | substrate/src/prune.rs:848-941 | in a full scan rule D retires exactly the old eligible parts, referenced before the scan, whose descendants are all old, not the tip and not retired earlier in the scan |
| PruneTheorems.UnreachableOnlyAboveProtectedLeaves | substrate/src/prune.rs:220-289 | every childless descendant of a part rule D retires is P10-protected |
| PruneTheorems.SeedRetiresChildless | substrate/src/prune.rs:220-289 | every old unprotected childless node but the tip is tombstoned by the scan |
| Mortality.CheckSilentInternalMortality | substrate/src/integrity.rs:646-740 | C55 passes exactly when no past-grace, childless, unprotected, non-tip node lacks a tombstone, and lists exactly those that do |
| Mortality.NoSilentDeathAfterScan | substrate/src/integrity.rs:646-740 | after a scan at a cycle, and any young tip-parented appends, C55 finds nothing at any counter up to that cycle, even if the old tip was old and childless |
| Mortality.ScanSparesTheDead | substrate/src/prune.rs:369-429 | no scan retires a part that had a tombstone before it |
| Mortality.RetiredIsHit | substrate/src/prune.rs:1053-1108 | whatever a scan retires was in the log before it and is a hit of one of its rules |
| Chains.ChainScanRetiresExactly | substrate/src/prune.rs:1053-1108 | where every node hangs on the one before it, a scan retires exactly the eligible parts rule A, B, C or E has something against |
| Retirements.StageDeaths | substrate/src/prune.rs:1053-1108 | a scan gives a part one tombstone for every rule that hits it at its turn |
| Retirements.RetiredTwiceIff | substrate/src/prune.rs:369-429 | a scan gives a part two tombstones exactly when it is old, eligible, and either childless and overdue under rule A, B, C or E, or cut off from every live root and overdue under rule E; never three |
| Retirements.ForsakenAxisDiesTwice | substrate/src/prune.rs:369-376 | a log where one scan does |
| RunChains.ReachableIsChain | substrate/src/server/mod.rs:1736-1762 | in every reachable log each node but the last is a parent of the next |
| RunChains.C55NeverFires | substrate/src/integrity.rs:646-740 | C55 finds nothing in any reachable state, at any counter |
| RunChains.ReachableScanRetiresExactly | substrate/src/prune.rs:1053-1108 | a scan of a reachable log at any cycle: nothing for the seed rule and rule D, and what is retired is exactly what rule A, B, C or E has against an eligible part |
| RunChains.EachPartDiesOnce | substrate/src/prune.rs:369-376 | over every run no part gets a second tombstone |
| Rescan.RescanEmitsNothingIff | substrate/src/prune.rs:1053-1156 | a second scan at the same cycle emits nothing exactly when the first emitted nothing or the tip before it was not overdue under rules A, B or E |
| Rescan.OrderedLogRescanEmitsNothing | substrate/src/prune.rs:452-509 | with cycles in insertion order only a stale registered axis at the tip can make a rescan emit |
| Rescan.StaleTipIsRescanned | substrate/src/prune.rs:452-509 | a log with two stale axes where the rescan does emit |
| PruneLaws.DueIs | substrate/src/prune.rs:452-824 | in a well-formed log rules A, B, E and C have something against exactly: a registered axis nothing touched for 2000 cycles; a success its operation failed after, every failure more than 1000 cycles old; a plate a later one replaces, every replacement more than 1000 cycles old; the first of several nodes alike, 1000 cycles old |
| PruneLaws.IdentityNeverDies | substrate/src/prune.rs:220-289 | no scan of any log, at any cycle, retires a node of the P10 invariant set, named kind by kind |
| PruneLaws.YoungNeverDies | substrate/src/prune.rs:220-941 | nor a node younger than 1000 cycles, by whichever rule |
| PruneLaws.ForgottenDies | substrate/src/prune.rs:220-289 | any other node below the tip that nothing refers to is retired by a scan 1000 cycles on |
| PruneRuns.StepRetiresExactly | substrate/src/ingest.rs:1311-1312 | over every run a part below the tip is dead after a step exactly when it was, or the step completes a cycle that is a multiple of 100 and the part is due then; only sporocarps may also die of a copy the same cycle brought |
| PruneRuns.StepScans | substrate/src/ingest.rs:1311-1312 | the same as an exact condition for every part, the old tip and what the cycle brought included: a due cycle scans a prefix of the log it leaves, what it found and some inert nodes, and exactly the due parts below that prefix's tip join the dead |
| PruneRuns.OnlyOwedScansRetire | substrate/src/prune.rs:1116-1156 | every step that does not complete such a cycle writes no tombstone |
| PruneRuns.ScanTellsWhy | substrate/src/prune.rs:1053-1156 | every tombstone a scan appends cites category and identifier of the rule that hit its victim and names what replaced it: the next copy for a duplicate, the newest failure, the newest superseder, and nothing for the seed rule, A and D |
| PruneRuns.EveryTombstoneTellsWhy | substrate/src/prune.rs:1053-1156 | so does every tombstone of every reachable log, of the log its rule saw |
| Derived.DerivedState.ApplyEventWithDag | substrate/src/derived_state.rs:833-1078 | one event in place equals the specification's step, errors included; only a bad genesis leaves a partial update |
| Derived.DeriveFromDag | substrate/src/derived_state.rs:814-820 | the loop computes the fold and stops at the first error |
| Derived.DerivedState.RederiveCultivationFromDag | substrate/src/derived_state.rs:785-801 | only the cultivation fields are rebuilt, from cultivation events alone, up to the first malformed one, whose error is returned |
| FoldLaws.ReplaysIff | substrate/src/derived_state.rs:833-1078 | a log, readable or not, replays exactly when every event has the fields its type needs and no genesis follows another |
| FoldLaws.IdentityIsGenesis | substrate/src/derived_state.rs:996-1027 | identifier, time and depth are those of the genesis event, wherever it is |
| FoldLaws.CounterIsLast | substrate/src/derived_state.rs:1028-1042 | the counter is the new cycle of the last cycle_advanced event |
| FoldLaws.CandidateIsLastStart | substrate/src/derived_state.rs:877-928 | the candidate is what the last migration start describes, field by field, and none after a terminal event |
| FoldLaws.ChainIsRecorded | substrate/src/derived_state.rs:930-946 | the chain has one entry for every chain event, at its turn, with its fields |
| FoldLaws.ConfigIsLast | substrate/src/derived_state.rs:948-994 | the succession configuration is the last one declared, field by field |
| FoldLaws.MarkIsGreatest | substrate/src/derived_state.rs:1044-1104 | the absorbed mark is the greatest creation cycle of all that any absorption event lists, or the cycle of an event that lists nothing of the log |
| Snapshot.SnapshotRoundTrip | substrate/src/derived_state.rs:529-780 | encoding then decoding gives every field back but the two cultivation fields |
| Snapshot.ReplayEventsAfterTip | substrate/src/persistence_runtime.rs:90-108 | replays exactly the nodes after the tip, resolving absorbed hashes against the whole log |
| Snapshot.SnapshotBootIsFullReplay | substrate/src/server/mod.rs:749-822 | for every split of a well-formed log, booting from a snapshot of the prefix gives what booting without one gives, except the observatory history |
| Snapshot.ReplayIgnoresLaterNodes | substrate/src/derived_state.rs:1044-1104 | replaying a prefix against the longer log changes nothing |
| Snapshot.FullBootIsFold | substrate/src/derived_state.rs:785-820 | a boot without a snapshot is the fold, cultivation fields included |
| FoldLaws.UnusableIsIgnored | substrate/src/server/mod.rs:749-822 | a snapshot that does not read back, or whose tip is not in the log, changes nothing about the boot |
| Cultivation.CurrentCultivationState | substrate/src/cultivation.rs:110-140 | the walk returns Archived once any seal landed, else what the latest family event says |
| Cultivation.OutsidersKeepCultivation | substrate/src/cultivation.rs:145-150 | events outside the family change nothing, so a memo refreshed on family events only stays exact |
| Cultivation.ArchivedAbsorbs | substrate/src/cultivation.rs:110-140 | once archived, every longer log is archived |
| Cultivation.CultivationIs | substrate/src/cultivation.rs:110-140 | Archived exactly with a seal; else Recovered, or Orphaned, exactly when such an event is followed by neither of the other two kinds; else Normal |
| Cultivation.CheckEntryIsExact | substrate/src/cultivation.rs:234-268 | the checks against the last entry accept exactly the entries that keep all starts increasing, all intervals disjoint and only the last open |
| Server.ServerState.EmitSubstrateEvent | substrate/src/server/mod.rs:1736-1762 | appends one tip-parented node at the current cycle and refreshes the cultivation memo for family types |
| Ingest.HandleIngestRawMaterial | substrate/src/ingest.rs:316-420 | accepted exactly when not refused, named and in bounds; then one raw-material node at the current cycle, else nothing changes and the error says whether intake was refused |
| Ingest.HandleDepositForgedUnderstanding | substrate/src/ingest.rs:492-730 | accepted exactly when named, in bounds, every source raw material, every superseded hash a plate, and value and confidence in range, with the error that names the first failing check; parents are the tip and the sources |
| Ingest.PendingIsExact | substrate/src/ingest.rs:949-973 | the pending list holds exactly the raw material created after the absorbed mark |
| Ingest.HandleAdvance | substrate/src/ingest.rs:922-1186 | a failed cycle leaves only notes; a committed one adds sporocarps, one absorption event listing all that was pending, the moved mark and the due scan |
| Migration.RunMigrationStep | substrate/src/ingest.rs:1483-1635 | commits at the end of the window, rolls back on divergence or desync, else samples progress every tenth cycle; a terminal decision clears the candidate |
| Migration.ForceMigrationRollback | substrate/src/ingest.rs:1644-1676 | closes the open migration with a rollback and its sibling; nothing without one |
| Migration.HandleSubmitMutation | substrate/src/attestation.rs:265-291 | a second migration in flight is refused, and then nothing but notes is written |
| Migration.MigrateMutation | substrate/src/attestation.rs:683-761 | a built candidate is stored and started; a failed build rolls back with no candidate |
| Migration.CheckMigrationWindow | substrate/src/server/autonomous.rs:295-364 | rolls back a candidate past window and grace unless cooling down |
| MigrationRuns.CommitsIff | kernel/schema/src/migration.rs:302-323 | over every run a step writes the commit of an operation exactly when it completes a cycle whose report is active and not diverged, that migration is open and the counter is past its window |
| MigrationRuns.RollsBackIff | substrate/src/ingest.rs:1483-1635 | a step writes a rollback exactly when it completes a cycle whose report is inactive or diverged with that migration open, or is an accepted abort, or an accepted request that cannot be built |
| MigrationRuns.StartsIff | substrate/src/attestation.rs:683-718 | a step writes a start exactly when it is an accepted migration request that builds, with none open |
| MigrationRuns.ValidatesIff | substrate/src/ingest.rs:1513-1530 | a validation is recorded exactly at the cycle that ends a migration and at every tenth cycle of it before |
| MigrationRuns.TerminalsHaveSiblings | substrate/src/ingest.rs:1555-1635 | in every reachable log a commit is followed at once by its evolution's success, a rollback by its failure |
| MigrationRuns.TerminalSays | substrate/src/ingest.rs:1555-1635 | the terminal event a cycle writes names operation and cycle, and a rollback's evolution event carries the worker's reason |
| MigrationRuns.C66RollsBackIff | substrate/src/server/autonomous.rs:295-364 | on any state, reachable or not, C66 rolls back exactly a candidate more than ten cycles past its window when not cooling down |
| RunLoop.FlushPendingSelfDriven | substrate/src/server/autonomous.rs:85-108 | a pending span becomes one spanning node and moves the counter; an archived substrate drops it |
| RunLoop.ExecuteSelfDriven | substrate/src/server/autonomous.rs:203-262 | an inert tick off the cap and the prune boundary is only counted; any other seals the span, then runs a real cycle |
| RunLoop.RunCycle | substrate/src/server/dispatch.rs:86-141 | after a committed cycle: counter, cycle_advanced, migration step, the sample with what it makes the stage machine write, and a snapshot every ten cycles; after a failed one, none of it |
| RunLoop.SaveSnapshotForState | substrate/src/persistence_runtime.rs:120-172 | the snapshot carries the live fields and the tip; the zero identifier is saved as absent |
| RunLoop.HandleUpdateSuccessorChain | substrate/src/cultivation.rs:218-300 | a rejected entry changes nothing and names the first failing check; an accepted one is emitted and appended |
| StepEffects.StepRemembers | substrate/src/server/dispatch.rs:86-141 | over every run a completed cycle alone adds its observation to the trend window, which keeps the last 90; snapshot.cb is saved exactly by the cycles that are multiples of ten, and decoding it gives back the state the step leaves |
| StepEffects.TrendIsLast90 | substrate/src/observatory.rs:652-655 | over a run of one process the window is the last 90 of what it held and what its cycles observed |
| StepEffects.TickCounts | substrate/src/server/autonomous.rs:203-262 | a self-driven tick does nothing once archived, only counts when quiet with no migration, room in the batch and no scan due, and else moves the counter past all cycles counted and its own if that completes |
| StepEffects.IngestRecords | substrate/src/ingest.rs:316-420 | over every run accepted material becomes one node with its bytes at the counter; anything else leaves no trace |
| StepEffects.DepositRecords | substrate/src/ingest.rs:492-730 | a deposit whose sources are raw material in the log and whose superseded hashes are plates in it, in range, becomes one plate with its text, value, confidence and superseded hashes; any other leaves no trace |
| StepEffects.ChainGrowsIff | substrate/src/cultivation.rs:218-300 | over every run the chain grows by an entry, recorded as it is, exactly when the longer chain is well spaced |
| StepEffects.SubmissionOpens | substrate/src/attestation.rs:683-761 | the candidate after a submission: the one it describes, for 100 cycles from the counter, or none, or the open one, by the request's flags |
| StepEffects.CycleReports | substrate/src/ingest.rs:1068-1127 | a completed cycle records every sporocarp reported to it, and for a mortality signal the proposal it makes |
| StepEffects.CycleAbsorbs | substrate/src/ingest.rs:1132-1186 | over every run a completed cycle absorbs all raw material past the mark in one event that lists it, and has it as parents, exactly |
| RunLoop.BootServer | substrate/src/server/mod.rs:749-1008 | a new process holds the boot state, the cultivation of the log, no pending span, and a stage machine that has seen no cycle |
| RunLoop.Execute | substrate/src/server/mod.rs:1509-1520 | the code of one step moves the live state by `Step`, sealing idle spans before any request, with the intake refusal and the stage machine's events decided by the cycles since boot |
| Serving.Serve | substrate/src/server/mod.rs:1509-1520 | serving commands one by one is a run, and keeps stage, counters and alarm memory those of the cycles completed since boot |
| Serving.ServedIsReachable | substrate/src/server/mod.rs:1509-1520 | a process that started reachable stays reachable, so every result on reachable states is one on processes |
| Serving.IntakeAfterServing | substrate/src/ingest.rs:316-350 | in every run new material is refused exactly when three cycles were completed since boot and each of the last three was over some axis's own budget |
| Invariants.AbsorptionStep | substrate/src/ingest.rs:1138-1184 | the plain assignment of the live mark equals the derived running maximum, and each pending hash is listed once |
| Invariants.OpenIsCandidate | substrate/src/derived_state.rs:843-923 | the operation the log leaves open is the live candidate's |
| Steps.StepKeeps | substrate/src/server/mod.rs:1509-1520 | every step, whatever its inputs, keeps: live state is the fold, spans sum to the counter, absorption accounts balance, migrations bracketed, cultivation memo exact, successor chain disjoint, snapshot.cb restorable |
| RunTheorems.LiveIsFold | substrate/src/integrity.rs:874-945 | in every reachable state the live identity, depth, counter, absorbed mark, chain and candidate are the fold over the log, the spans telescope to the counter and the memo is exact |
| RunTheorems.RebootIsTransparent | substrate/src/server/mod.rs:966-1006 | a reboot, with or without the snapshot, changes nothing the log accounts for; the candidate's wall-clock start alone is replaced |
| RunTheorems.AbsorbedExactlyOnce | substrate/src/ingest.rs:949-1186 | over any interleaving, ingested material is listed by no absorption event until a cycle completes, then by exactly one, once |
| RunTheorems.StepMark | substrate/src/ingest.rs:1181-1184 | a completed cycle marks all raw material there was; every other step leaves the mark |
| RunTheorems.StartsAreSeparated | substrate/src/attestation.rs:265-291 | between two starts exactly one event closes the first, under the same name; other terminals there are failed builds' rollbacks with nothing open |
| RunTheorems.RunsAreBracketed | substrate/src/ingest.rs:1483-1676 | in every run the last start is unclosed exactly while the live candidate exists, and names its operation |
| RunTheorems.TwoTerminalsBetweenStarts | substrate/src/attestation.rs:719-761 | a run with two terminal events between two starts |
| Terminals.AtMostOneTerminalIff | substrate/src/attestation.rs:719-761 | between two consecutive starts there is one terminal event and one more per failed build, so one at most exactly when no build failed |
| Terminals.StepAdds | substrate/src/attestation.rs:683-761 | a step records a failed build exactly when it is an accepted migration request whose candidate cannot be built |
| Terminals.TerminalsAfterStart | substrate/src/ingest.rs:1483-1676 | over any run from a start until another one: one terminal event once the migration is closed, and one per such request |
| RunTheorems.NoMigrationOutlivesItsWindow | kernel/schema/src/migration.rs:174-203 | in every reachable state an open migration is inside its window, so C66 never fires |
| RunTheorems.SnapshotKeepsIdentityIff | substrate/src/persistence_runtime.rs:126-135 | a snapshot restores the identity it was saved from exactly when that is not all zeros |
| Integrity.CheckSubstrateStateOrphans | substrate/src/integrity.rs:874-945 | C32 passes exactly when the log replays and every recorded field matches the live one |
| Integrity.CheckGenesisEventUniqueness | substrate/src/integrity.rs:512-548 | C57 counts the genesis events and passes exactly with one at most |
| Integrity.CheckManifestCycleVsDagAdvanceCount | substrate/src/integrity.rs:564-630 | C59 passes exactly when the counter is within one of the saturating sum of spans, unreadable ones counting one |
| Integrity.ChecksPass | substrate/src/integrity.rs:512-945 | in every reachable state C32, C57 and C59 pass, C59 without its tolerance |
| PruneCadence.PruneCyclesAreRun | substrate/src/server/autonomous.rs:217-240 | no step passes a multiple of 100 without completing that very cycle: batching never skips a scan |
| PruneCadence.ArchivedIsFinal | substrate/src/server/dispatch.rs:86-96 | a sealed substrate stays archived and its counter never moves again, in any run |
| Observatory.AdvanceCounters | substrate/src/observatory.rs:782-833 | after one sample the saturating counters and the stage are again the functions of the longer sample history |
| Observatory.ApplyP11cAndEmit | substrate/src/observatory.rs:782-1007 | one sample keeps counters, stage and alarm memory equal to functions of the history and writes exactly the transition, mortality proposal, alarm and compression proposal events that history calls for; C53 never fires |
| Observatory.SaturatedIsLeftToNormal | substrate/src/observatory.rs:514-531 | Saturated is left only to Normal, exactly unless the counter falls below the floor |
| Observatory.OneProposalPerRun | substrate/src/observatory.rs:835-849 | two mortality proposals are separated by a sample within budget |
| Observatory.SaturatedRunProposed | substrate/src/observatory.rs:835-849 | a run whose saturated count reached the threshold proposed at exactly the sample that reached it |
| Observatory.AlarmsAreSpaced | substrate/src/observatory.rs:851-913 | two alarms for one axis are at least ten cycles apart |
| Observatory.ExceedingIsAlarmed | substrate/src/observatory.rs:851-913 | an axis over budget has an alarm within the last ten cycles |
| Observatory.NeverSilent | substrate/src/observatory.rs:936-972 | with the emitter working the fifty-cycle log query never finds an exceeding axis silent |
| Observatory.CheckC53 | substrate/src/observatory.rs:936-972 | C53 is emitted exactly when the axis exceeds, the log has no alarm in the window and the detector is not rate-limited |
| Observatory.IntakeRefusedIff | substrate/src/ingest.rs:316-350 | intake is refused exactly when at least the last three samples were over budget |
| StageRuns.StageIs | substrate/src/observatory.rs:782-833 | Normal exactly when the last sample is within every budget; Saturated exactly when as many of the last as the threshold asks for cost more than some budget past the floor; in between the floor decides |
| StageRuns.LeavesNormalIff | substrate/src/observatory.rs:782-791 | one more sample leaves the stage Normal exactly when no axis costs more than its own budget |
| StageRuns.ProposalIff | substrate/src/observatory.rs:835-849 | mortality is proposed exactly at the sample that makes the run of late ones long enough |
| StageRuns.TransitionIff | substrate/src/observatory.rs:792-833 | the saturated event is written exactly when that run reaches its length, the restored event exactly by the first sample within budget after one over it |
| StageRuns.CompressionIff | substrate/src/observatory.rs:975-1007 | each compression rule is proposed exactly on entering the stretch past the floor and short of saturation |
| StageRuns.AlarmIff | substrate/src/observatory.rs:851-913 | an alarm for an axis is written exactly by a sample over that axis's own budget at least ten cycles after every earlier alarm for it |
| StageRuns.IntakeRefusedAfterThree | substrate/src/ingest.rs:316-350 | intake is refused exactly when there were three samples and each of the last three was over some axis's own budget |
| Consensus.QuorumsIntersect | substrate/src/events/consensus.rs:155-164 | two quorums of the same participants share more voters than can be faulty |
| Consensus.DerivePinnedSignerPubkeys | substrate/src/consensus.rs:68-90 | the last pin of every peer, and none for a revoked one |
| Consensus.TallyVotes | substrate/src/consensus.rs:173-211 | the count of distinct voters with a verified vote of the round, and of all its votes |
| Consensus.CollectCertVotes | substrate/src/consensus.rs:217-262 | the first verified vote of every verified voter, in order |
| Consensus.TallyMatchesCertificate | substrate/src/consensus.rs:173-262 | tally and certificate body agree: as many embedded votes as distinct verified voters |
| Consensus.VerifyQuorumCert | substrate/src/events/consensus.rs:577-629 | valid exactly when the payload hashes to the claim and distinct vouchers meet the threshold for the claimed N |
| Consensus.FindValidQuorumCert | substrate/src/consensus.rs:281-322 | finds the first certificate meeting both its own and the local threshold, exactly when there is one |
| Consensus.CheckC49PopulationActionAllowed | substrate/src/consensus.rs:643-663 | allowed exactly below the floor or with such a certificate |
| Consensus.GateNeedsQuorum | substrate/src/consensus.rs:263-322 | under an active floor the certificate has at least the local quorum of vouchers, each self or a pinned, unrevoked peer with a verified signature |
| Consensus.NextRoundId | substrate/src/consensus.rs:121-138 | one more than the highest round voted on for the claim, zero if none |
| ConsensusRounds.RecheckQuorumAndMaybeEmitCert | substrate/src/consensus.rs:673-734 | nothing for a certified claim; else a witness and either a pending marker or a certificate of all verified voters |
| ConsensusRounds.FreshCertIsValidIff | substrate/src/consensus.rs:713-734 | a minted certificate is found valid afterwards exactly when its payload hashes to the claim |
| ConsensusRounds.MismatchedPayloadMintsAgain | substrate/src/consensus.rs:673-734 | otherwise the next recheck mints a second one |
| ConsensusRounds.HandleFederationSubmitPeerVote | substrate/src/consensus.rs:455-561 | a vote is accepted exactly when its voter is pinned and the signature verifies; recorded once per claim, round and voter |
| CertificateRuns.MintsExactly | substrate/src/consensus.rs:673-734 | over every run of proposals and votes a step gives a claim one more certificate exactly when it rechecks the claim, every certificate the claim has carries a payload that does not hash to it, and the round meets the quorum |
| CertificateRuns.OnlyLastCarries | substrate/src/consensus.rs:281-322 | of the certificates a claim gets in a run only the last can carry a payload that hashes to it |
| CertificateRuns.TwoCertificates | substrate/src/consensus.rs:455-561 | a proposal, a peer's vote with a wrong payload, and the same vote again give a claim two certificates |
| VoteRuns.AcceptsIff | substrate/src/consensus.rs:455-561 | a vote is accepted exactly when its voter is not revoked, pinned, and signed claim, voter, round and tip with the key last pinned |
| VoteRuns.CountedIff | substrate/src/consensus.rs:173-211 | a voter is counted for a claim and round exactly when it has a vote there with a signature by its key over claim, voter, round and tip |
| VoteRuns.QuorumIsAllButFaulty | substrate/src/events/consensus.rs:155-164 | a quorum is all participants but the largest f with 3f below their number |
| VoteRuns.OneVoteEach | substrate/src/consensus.rs:143-164 | over every run of proposals and votes no voter gets a second vote on a claim in one round |
| VoteRuns.EveryVoteIsGood | substrate/src/consensus.rs:455-561 | over every such run every vote recorded is one that counts |
| VoteRuns.AcceptedCounts | substrate/src/consensus.rs:455-561 | at any point of any such run a vote that is accepted is in the log and counted for its claim and round afterwards |
| VoteRuns.CompletingVoteMints | substrate/src/consensus.rs:673-734 | an accepted vote on a claim without a valid certificate brings one more exactly when those counted for its round and its voter are all participants but at most the faulty |
| VoteRuns.ProposalVotes | substrate/src/consensus.rs:377-412 | a proposal records this substrate's own vote in the round after all of the claim's earlier ones |
| VoteRuns.MintedSays | substrate/src/consensus.rs:713-734 | a minted certificate carries the claim, round, payload and number of participants, and one vote for every voter counted, taken with signature and tip from a vote of the log that counts |
| VoteRuns.UnmintedSays | substrate/src/consensus.rs:673-712 | a recheck that mints nothing writes nothing for a certified claim, and a witness and a pending marker for any other |
| ConsensusRounds.AtMostOneCertificate | substrate/src/consensus.rs:673-734 | with membership, pins and revocations fixed and votes that carry their payload, no sequence of proposals and votes gives a claim two certificates |
| Reproduction.VerifySpawnCoAttestation | substrate/src/reproduction.rs:177-368 | refuses exactly unattested, rewound and too-early spawns, in that order |
| Reproduction.HandleSproutChild | substrate/src/reproduction.rs:403-835 | gates in order; a refusal writes its alarm only, a success one spore, one attestation and a child one generation deeper |
| SpawnRuns.BirthIff | substrate/src/reproduction.rs:451-547 | a birth happens exactly when the request is attested, later than every stamp in the log by at least the interval, within the depth cap or overriding it, with fewer spores in the log than the quota, for a free directory; then a spore and the stamp end the log, else neither is written |
| SpawnRuns.RefusalTells | substrate/src/reproduction.rs:403-547 | what each refusal leaves: C68, C48 or C47 alone, after an exercised override its event and then C48 or nothing |
| Reproduction.RunsAreDisciplined | substrate/src/reproduction.rs:299-547 | along any run stamps increase strictly, k spawns span at least k-1 intervals, spores never exceed the quota and match the births |
| Reproduction.ChildrenAreNewborn | substrate/src/reproduction.rs:451-515 | without an override every child is one deeper than its parent, within the cap, with no spawns |
| Reproduction.LineageIsBounded | substrate/src/reproduction.rs:451-547 | without overrides a whole lineage has at most the sum of quota^i members over the generations left |
| Plates.HandleListPlates | substrate/src/dag_query.rs:192-262 | the listing is the stable descending sort of the live plates, beside the number of all plates |
| Plates.SortIsPermutation | substrate/src/dag_query.rs:241 | that sort is a descending permutation, absent values as zero |
| Plates.SortIsStable | substrate/src/dag_query.rs:241 | plates of one value keep their insertion order |
| Plates.ListedInOrder | substrate/src/dag_query.rs:216-241 | of two live plates the one whose body declares the larger value stands first, of two that declare the same, or none, the older |
| Plates.ListingShows | substrate/src/dag_query.rs:202-259 | every entry shows the hash, the name and the declared value of one live plate |
| Plates.ListedOnce | substrate/src/dag_query.rs:192-262 | no hash is listed twice |
| Plates.ListedIffLive | substrate/src/dag_query.rs:192-262 | a node is listed exactly when it is a plate no plate supersedes |
| Plates.PlateLeadsToLive | substrate/src/ingest.rs:609-654 | every plate leads to a live one along superseded-by edges |
| Plates.ReachablePlatesAreCovered | substrate/src/ingest.rs:609-654 | in every reachable log with a plate the listing shows one its supersession leads to |
| Plates.RuleERetiredIsNeverListed | substrate/src/prune.rs:615-693 | what rule E retires no later listing shows |
| WallClock.LaterIsLargerIff | substrate/src/wall_clock.rs:87-133 | under every interleaving, stale load and spurious failure, of two calls the later to return gets a larger value exactly when the earlier is below the i64 maximum |
| WallClock.StartedAfterReturnIsLarger | substrate/src/wall_clock.rs:87-133 | a call begun after another returned is later in that order, whatever the system clock did |
| WallClock.SampleOrSuccessor | substrate/src/wall_clock.rs:116-133 | under every interleaving a call returns its own sample exactly when that is ahead of what the call before returned, and else one more than that, up to the i64 maximum |
| WallClock.MaximumIsReachable | substrate/src/wall_clock.rs:120-124 | one sample at the maximum drives the clock there |
| WallClock.DetectedIff | substrate/src/wall_clock.rs:94-97 | a skew is detected exactly by a load of a value more than a millisecond ahead of the call's sample, as the distance; no other access adds or drops one |
| WallClock.DetectionsAreConserved | substrate/src/wall_clock.rs:94-97 | no skew detection is lost or counted twice, however takes interleave |
| WallClock.QuiescentMaximum | substrate/src/wall_clock.rs:98-162 | with no update in progress every jump ever detected is at most the recorded one or one that a take handed out, whatever takes, stale loads and failures came between |
| WallClock.RecordedIsDetected | substrate/src/wall_clock.rs:98-162 | what is recorded and what takes hand out is zero or a jump that was detected |

## Left out

- Hash collisions: a digest is a free term over parents and content, so the collision branch of insertion does not exist.
- Byte-level canonical encoding, signatures, the DPAPI envelope: event bodies are a datatype, keys and verification are parameters.
- Node types are families with the text after the prefix; names the source derives from identifiers (`successor_chain_updated`, `spore_emission`, `genesis_attested`) carry a fixed text.
- Wrap-around of the cycle counter at 2^64: counters are unbounded, except the saturation counters and the C59 sum, which saturate as in the source.
- File I/O, locks, backup, process watching, handshake and Python bridge: a cycle's outcome, dual-validation report and sporocarps are inputs; a crash in the middle of a handler is not a step.
- Failure of a single insertion inside a handler: proved impossible for tip-parented nodes whose other parents are in the log.
- Events written without being read back (immune, perturbation, observatory, lifecycle) enter as arbitrary notes at the points where the handlers write them; their evidence text is not modelled.
- RunLoop.BootServer: does not model the legacy boot of a log without a genesis event from its state file; the model boots such a log without an identity.
- Snapshot format 1, and the 17-field observatory record (an opaque value).
- The axis and federation halves of the inert-batch gate are inputs of a command; the cooldown of C66, the cost of a cycle and the rate limit of C53 are too.
- The fault-injection switch that silences alarms, and the floating-point signals.
- Registration of further prune rules: the registry is the six seeded ones.
- RunLoop.Execute: does not model loss of unsaved log nodes in a crash; a reboot sees the whole log.
- Observatory.ApplyP11cAndEmit: takes the budgets as fixed for a process, because nothing in the source changes them.
- VoteRuns.EveryVoteIsGood: asks that this substrate verifies what it signs and is not pinned under its own identifier with another key, because a vote is accepted by the pin and counted by its own key.
- ConsensusRounds.AtMostOneCertificate: asks that submitted votes carry the payload they vote on, because without it the statement is false.
- Consensus.CheckC49PopulationActionAllowed: the gate has no caller in the source today; it is modelled as written.
- Reproduction.HandleSproutChild: envelope decoding and schema validation are one flag each; the minted child identifier is an input.
- WallClock.LaterIsLargerIff: the atomics are modelled on values, one step per access, not as shared objects; a take is its two swaps, by any thread.
- Plates.SortIsPermutation: the library's stable sort is a specification function, not an in-place algorithm.
- `emit_invariant_witnesses`, `count_*_since`, `is_hoarding`, the C40, C71 and C75 windows: straight-line counts that would only add easy members.
