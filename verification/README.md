# Leases, configuration, guest control and caches

A model of four parts of the qol repository, with proofs about them.

- **Resource leases** (`libs/dev-env`). Launcher processes share one ledger file behind a lock.
  `Resources` is the admission arithmetic, `LeaseLedger` the ledger and its prune, `LeaseCommits`
  the atomic changes, `LeaseStores` the store and the lease handle as classes. `LeaseProtocol`
  interleaves the single steps of many processes with a changing world of report files and
  running processes, `LeaseSafety` states what holds over every run, `LeasePruning` what a prune
  has looked at before it decides, `LeaseReachability` what a process can bring about, and
  `LeaseRetention` exactly which leases outlast an unproven report.
  `RunReports` decides whether a report proves cleanup, `CleanupRepair` upgrades old reports,
  `ChildCoverage` checks children against their parent's lease.
- **Configuration** (`libs/config`). `ConfigKeys` ties the textual collision check to paths,
  `DefaultsTree` and `ConfigDefaults` insert the defaults, `Merging` merges and rewrites whole
  floats, `FieldValues` prints, decodes and widens values, `SelectNormalization` rewrites select
  options, `ConfigResolution` and `LoaderAgreement` compare what a plugin loads with what the
  settings editor shows, and `LoaderDifferences` gives an example of each difference.
- **Guest control** (`libs/dev-guest`). `Frames` and `FrameReading` are the two readers,
  `RequestIds` one connection and `ResponseStreams` its bytes, `ProcessTable` the server's
  processes, `Smbios` the search of a system-management table (DMTF DSP0134, sections 6.1.2, 6.1.3
  and 7.12).
- **Caches**. `ScanLedgers` (`libs/dev-build`) is the directory-size ledger, `ImageRegistry`
  (`libs/gpui`) the reference counts of cached images.

`Common`, `Strings`, `Folds`, `JsonValues` and `Paths` hold what these share.

Where the source changes state in place, the model has a class or a loop whose contract equates
its effect with a specification function; the lemmas are about that function. What the operating
system answers (reports, owners, polls, chunks, directory listings) is a parameter.

## What the proofs found

- An override that cannot be decoded is an error pushed after the error list has been looked at,
  so no caller sees it and the default is shown (`libs/config/src/normalized.rs:151-165`,
  `libs/config/src/normalized.rs:370-393`).
- The loader and the settings editor differ on one file in exactly these cases: a default that is
  not printable, an ancestor overridden by a non-object, an override that cannot be decoded, an
  `object_map` override that leaves out part of the default, an option that is not spelled as
  declared, and a negative zero shown as text (`LoaderAgreement.FileReadsAlike`,
  `LoaderAgreement.NegativeZeroReadsAlike`; `LoaderDifferences` has a contract and a file for each).
  Numbers are compared as doubles compare, so the two zeros are otherwise the same. A default is
  not printable if it has an item member that is neither a scalar nor a string array, or a number
  that is not finite. Item members are not checked for that. A number field is: its default, if
  declared as a number, must lie within the bounds of the field, so it is never NaN, and infinite
  only where the contract declares an infinite bound (`libs/config/src/validation.rs:783-819`). A
  default declared as text is widened without that check, but widens only to finite numbers.
- A request that is given up after it was sent makes every later request on that connection fail:
  each reads the answer before its own, or the rest of it, and rejects it
  (`ResponseStreams.NothingOnTheWireSucceedsAfterGivingUp`).
- An `Exec` whose process cannot be polled, killed or reaped leaves it in the table, although its
  caller never learns the id (`ProcessTable.ExecEffect`).
- A published report does not always keep its lease. A prune reads a report before it checks the
  owner (`libs/dev-env/src/resources.rs:262-280`), so a lease whose report is published between the
  two, and whose owner then ends, is dropped although the report is there and proves nothing
  (`LeaseRetention.RunningLaneIsLost`). The lease is safe if and only if no process has already
  found reason to remove it (`LeaseRetention.RetainedIffNothingPending`); none has while the lock is
  free.
- The directory walk forgets nothing when its path ends in a separator
  (`ScanLedgers.TrailingSeparatorForgetsNothing`).
- Replacing a whole cache drops an image that only this cache held even when the new content
  holds it again (`ImageRegistry.Images.ReplaceMap`).
- Newly admitted leases with an empty profile, owner identity or clock are refused by the
  ledger's own validation, after admission (`LeaseCommits.AdmittedLeaseValidates`).

## Model

| member | source | states |
|---|---|---|
| LeaseProtocol.StepKeepsInv | libs/dev-env/src/resources.rs:296-386 | whatever the interleaving of lock, load, report read, owner check, save, unlock and outside changes, the file is the replay of a serial history in which every commit was allowed on the ledger it met |
| LeaseProtocol.StepIsAtomicCommit | libs/dev-env/src/resources.rs:301-385 | a step leaves file and history alone, or is the lock holder applying one commit to the current file: no update is lost |
| LeaseSafety.RunsRefineSerialHistories | libs/dev-env/src/resources.rs:221-244 | in every run from no ledger, the stored ledger is the replay of a serial history and is valid: distinct ids and paths, 1 to 32 lanes each, sums that fit 64 bits |
| LeaseSafety.OnlyTheHolderCommits | libs/dev-env/src/resources.rs:301-343 | the ledger changes only in the hands of the lock holder; a lock timeout changes nothing |
| LeaseSafety.RunsStayWithinBudgets | libs/dev-env/src/resources.rs:944-1165 | on one known capacity and without force, no run reserves more than 32 lanes or the exact percentages of memory, CPUs and disk |
| LeaseSafety.RacingReservesShareTheBudget | libs/dev-env/src/resources.rs:944-998 | two unforced admissions with no removal of the first between them fit together in the budget the second was held to |
| LeaseSafety.EveryLeaseWasAdmitted | libs/dev-env/src/resources.rs:974-998 | every lease in the ledger is the record of an admission in its history that was allowed at its moment |
| LeaseSafety.RemovalHasEvidence | libs/dev-env/src/resources.rs:257-293 | without an explicit clear a lease leaves only because, during the remover's own critical section, its report proved complete cleanup, or was missing and its owner gone afterwards, or was missing for a rollback by the matching handle |
| LeaseRetention.RetainedIffNothingPending | libs/dev-env/src/resources.rs:257-293 | a lease whose report is published and does not prove cleanup keeps its place for as long as that lasts, whatever the processes do short of a clear, if and only if no process has already found reason to remove it |
| LeaseRetention.UnprovenLeaseIsRetained | libs/dev-env/src/resources.rs:1315-1366 | along every such run the lease stays and no removal becomes pending |
| LeaseRetention.FreeLockMeansNothingPending | libs/dev-env/src/resources.rs:296-343 | while the lock is free no removal is pending, so nothing published and unproven can be lost |
| LeaseRetention.PendingLeaseCanBeLost | libs/dev-env/src/resources.rs:257-293 | from any state in which a removal is pending, some run without a clear loses the lease under a published, unproven report |
| LeaseRetention.PublishedLeaseIsLost | libs/dev-env/src/resources.rs:257-293 | for every request an empty ledger admits, every world in which its owner runs, and every unproven report, a run from the very start records the lease and publishes the report while the owner runs, and then, once the owner has ended, loses the lease |
| LeaseRetention.RunningLaneIsLost | libs/dev-env/src/resources.rs:257-293 | one such run for a lane whose launcher runs and whose report says that it is running |
| LeasePruning.RunsObserveInOrder | libs/dev-env/src/resources.rs:257-293 | in every run each prune goes through the leases in ledger order: the owner of an earlier lease is looked at before the report of a later one |
| LeasePruning.PruneJudgesEveryLease | libs/dev-env/src/resources.rs:257-293 | whether a prune saves or not, it has looked at the report and then at the owner of every lease inside its critical section, and keeps a lease if and only if what it saw is neither a durable report that proves cleanup nor a missing report with the owner gone |
| LeasePruning.AdmissionCountsJudgedLeases | libs/dev-env/src/resources.rs:944-998 | in every run, each lease that counts against an admission was looked at by the prune of the same critical section and found neither finished nor abandoned; the lock was held from that prune to the admission |
| LeaseSafety.ProvenReportIsTerminal | libs/dev-env/src/report.rs:663-687 | a report that frees a lease names that lease, is of a known kind in a terminal status, and carries the full proof of its kind |
| LeaseReachability.PruneGoesThrough | libs/dev-env/src/resources.rs:632-643 | from any state with the lock free, a run of report reads and owner checks in ledger order removes exactly the leases that the current reports and owners let expire |
| LeaseReachability.ReservationGoesThrough | libs/dev-env/src/resources.rs:944-998 | from any state with the lock free, a run prunes by the current world and records exactly the request, whenever the pruned ledger admits it |
| LeaseReachability.HandleRemovalGoesThrough | libs/dev-env/src/resources.rs:397-449 | from any state with the lock free, a run removes exactly the lease of a matching handle, for a release whose report proves cleanup and for a rollback whose report is missing |
| LeaseReachability.DecidedMeansPruned | libs/dev-env/src/resources.rs:957-962 | no process gets past the prune without having observed every lease and left exactly what has not expired |
| LeaseReachability.OwnerAliveIff | libs/dev-env/src/resources.rs:275-281 | an owner is alive when its pid runs, with its identity if one is recorded |
| LeaseReachability.ClearOneLikeTheStore | libs/dev-env/src/resources.rs:571-630 | a clear of one lease in the protocol is possible if and only if the lease is there, and does what the store does |
| LeaseReachability.ClearAllLikeTheStore | libs/dev-env/src/resources.rs:571-630 | so for a clear of all, whenever there is a ledger file |
| LeaseCommits.CommitSavesValidLedger | libs/dev-env/src/resources.rs:370-385 | every enabled commit leaves a ledger that loads: a removal never fails the validation of the save, an admission only by its own record |
| LeaseCommits.CommitRemovesExactly | libs/dev-env/src/resources.rs:397-480 | a commit removes exactly the leases it is entitled to: a stale handle never removes the lease of another owner |
| LeaseCommits.CommitAddsOnlyAdmitted | libs/dev-env/src/resources.rs:974-998 | no commit invents or alters a lease; only an admission adds one, the requested one |
| LeaseCommits.OnlyAdmissionAdds | libs/dev-env/src/resources.rs:257-293 | every commit other than an admission leaves totals no larger |
| LeaseCommits.CommitStaysWithinBudgets | libs/dev-env/src/resources.rs:1000-1031 | with a fixed capacity and no forced request no commit leaves the budgets |
| LeaseCommits.AdmittedLeaseValidates | libs/dev-env/src/resources.rs:1200-1232 | an admitted request passes the validation of the whole ledger it is saved in if and only if its profile, owner identity and clock are not empty |
| LeaseCommits.AdmissibleIff | libs/dev-env/src/resources.rs:944-998 | beside valid leases a request is recorded if and only if nothing in it is empty or malformed, its id and path are unused, and it is admitted, all in figures |
| LeaseCommits.NewLeaseRecords | libs/dev-env/src/resources.rs:979-990 | the record holds the id, owner, path, clock and force of the request and its exact amounts |
| LeaseCommits.HoldsIff | libs/dev-env/src/resources.rs:1234-1250 | a handle holds the lease that agrees with it in id, owner and path |
| LeaseCommits.OwnRollbackIsEnabled | libs/dev-env/src/resources.rs:397-422 | the handle of a reservation can roll it back while no report is published |
| LeaseCommits.RollbackUndoesReservation | libs/dev-env/src/resources.rs:397-422 | a reservation rolled back by its own handle leaves the leases there were |
| LeaseLedger.Validate | libs/dev-env/src/resources.rs:221-244 | accepts exactly the ledgers of the current version whose records are valid, pairwise distinct in id and report path, and sum within 64 bits |
| LeaseLedger.LoadsIff | libs/dev-env/src/resources.rs:1187-1232 | a ledger loads if and only if it is missing, or of version 1 with every record in order, no shared id or path, and totals in range, all in figures |
| LeaseLedger.ReportStateIff | libs/dev-env/src/resources.rs:1315-1366 | when a report counts as missing, pending, complete or unverifiable, from its texts and proof |
| LeaseLedger.ExpiredIff | libs/dev-env/src/resources.rs:274-286 | a lease expires if and only if its report proves cleanup durably, or is missing with the owner gone |
| LeaseLedger.PruneFindings | libs/dev-env/src/resources.rs:257-293 | a prune changes the ledger if and only if some lease has expired, and reports exactly the unverifiable ones |
| LeaseLedger.StringLessIff | libs/dev-env/src/resources.rs:370-374 | ids are ordered as strings, a proper prefix first |
| LeaseLedger.Reserved | libs/dev-env/src/resources.rs:246-255 | the checked running sums fail exactly when some exact total does not fit |
| LeaseLedger.Prune | libs/dev-env/src/resources.rs:257-293 | keeps, drops and quarantines exactly the leases the report and the owner say, in order |
| LeaseLedger.PrunedMembers | libs/dev-env/src/resources.rs:257-293 | a lease survives a prune if and only if it was there and has not expired |
| LeaseLedger.FilterKeepsValid | libs/dev-env/src/resources.rs:257-293 | removing leases keeps a ledger valid and its totals no larger |
| LeaseLedger.SortKeeps | libs/dev-env/src/resources.rs:370-385 | sorting for a save keeps members, totals and validity |
| LeaseLedger.SortOrders | libs/dev-env/src/resources.rs:370-374 | the saved ledger is in the order of its ids |
| LeaseLedger.IdNamesOneLease | libs/dev-env/src/resources.rs:221-244 | in a valid ledger an id names one lease |
| LeaseStores.LeaseStore.Load | libs/dev-env/src/resources.rs:345-368 | a missing file is an empty ledger; anything else loads exactly when it validates |
| LeaseStores.LeaseStore.Save | libs/dev-env/src/resources.rs:370-385 | writes the sorted ledger if it is valid, else changes nothing |
| LeaseStores.LeaseStore.ReserveIn | libs/dev-env/src/resources.rs:944-998 | succeeds exactly when the admission commit is enabled after the prune, and then applies it; a refusal keeps only the prune |
| LeaseStores.ForcedReservationSucceeds | libs/dev-env/src/resources.rs:944-998 | a forced request with nothing empty and an unused id and path is reserved whatever the budgets |
| LeaseStores.LeaseStore.ReconcileIn | libs/dev-env/src/resources.rs:632-643 | prunes and returns the exact totals of what is left |
| LeaseStores.LeaseStore.RemoveHeld | libs/dev-env/src/resources.rs:397-449 | removes the handle's lease exactly when the report is in the wanted state and the stored owner and path match |
| LeaseStores.LeaseStore.ClearLeases | libs/dev-env/src/resources.rs:571-630 | removes the selected lease or all of them, after a backup of the old content |
| LeaseStores.ClearOneEffect | libs/dev-env/src/resources.rs:571-630 | clearing one lease leaves exactly the others of a ledger that loads |
| LeaseStores.ClearAllEffect | libs/dev-env/src/resources.rs:571-630 | clearing all leaves an empty ledger whatever the file held |
| LeaseStores.ResourceLease.Release | libs/dev-env/src/resources.rs:424-449 | releases the handle exactly when the ledger loads, the report proves cleanup and no stored lease of that id belongs to another; the lease, if stored, is then removed, and on a failure the handle is retained and the ledger unchanged |
| LeaseStores.ResourceLease.RollbackUnpublished | libs/dev-env/src/resources.rs:397-422 | the same for a rollback, whose report must be missing |
| LeaseStores.ResourceLease.Drop | libs/dev-env/src/resources.rs:474-480 | dropping an undecided handle leaves its lease reserved |
| Resources.BudgetNeverExceedsPercentage | libs/dev-env/src/resources.rs:1086-1098 | the saturating budget never exceeds the exact percentage and is its floor when nothing saturates |
| Resources.AdmittedTotals | libs/dev-env/src/resources.rs:1000-1077 | an admission's totals fit 64 bits, and without force stay within lane limit and exact percentages |
| Resources.AdmissionIff | libs/dev-env/src/resources.rs:1000-1165 | a request is admitted if and only if its lanes are in range, the exact totals fit 64 bits, and, unless it is forced, its capacity is known or it is the only lane and the exact totals keep to the lane limit and the exact percentages; the admission records the request, what was reserved, the budgets and the force |
| Resources.UnforcedAdmissionIffFits | libs/dev-env/src/resources.rs:1000-1165 | the same for a request that is not forced |
| Resources.ForcedAdmissionIff | libs/dev-env/src/resources.rs:1100-1165 | a forced request is refused only for its lane count or because a total overflows |
| Resources.RefusalIsTrue | libs/dev-env/src/resources.rs:1000-1185 | the reason given for a refusal is the case |
| ChildCoverage.VerifyChildEntry | libs/dev-env/src/resources.rs:878-919 | accepts exactly when every entry names a child, one entry names this one and no other shares its id or path |
| ChildCoverage.OneOfEachIffListedOnce | libs/dev-env/src/resources.rs:878-919 | the three counters are all one if and only if the child is listed once |
| ChildCoverage.ChildListedIff | libs/dev-env/src/resources.rs:878-919 | a child is covered if and only if its session lists entries with absolute report paths, one of them this child and no other with its id or path, read off the document |
| ChildCoverage.ChildIdsCorrespondToPaths | libs/dev-env/src/resources.rs:878-919 | children accepted against one parent report have equal ids if and only if they have equal paths |
| ChildCoverage.AdmittedLeaseDividesEvenly | libs/dev-env/src/resources.rs:921-942 | a recorded lease divides into equal slots, each the admitted profile and image size |
| ChildCoverage.EveryLeaseDividesEvenly | libs/dev-env/src/resources.rs:921-942 | every lease in the ledger of a serial history divides into the memory, CPU and disk slots of the request it was admitted for |
| ChildCoverage.ReachableLeasesDivideEvenly | libs/dev-env/src/resources.rs:921-942 | no run from the empty start reaches a lease that does not divide |
| ChildCoverage.ChildrenFitTheLease | libs/dev-env/src/resources.rs:921-942 | as many accepted children as the lease has lanes never use more than the lease |
| ChildCoverage.SlotIff | libs/dev-env/src/resources.rs:937-942 | a total has a slot if and only if it is a multiple of it by the lanes |
| ChildCoverage.FitsSlotIff | libs/dev-env/src/resources.rs:921-935 | a child fits if and only if it needs no more than one slot of each resource |
| RunReports.ValidatedLaneRunIds | libs/dev-env/src/report.rs:645-661 | the ids of the lanes, if every lane has a valid one and no two agree |
| RunReports.BatchCompleteIffProof | libs/dev-env/src/report.rs:689-729 | a batch is complete if and only if its teardown lanes are a permutation of its owned lanes, as many as launched, all distinct and valid, each stopped without error and either never started or cleaned up in one of six terminal statuses |
| RunReports.TeardownVerifiedIff | libs/dev-env/src/report.rs:778-795 | the conditions on one torn-down lane, read off its fields |
| RunReports.EachOwnedLaneTornDownOnce | libs/dev-env/src/report.rs:689-729 | every owned lane of a complete batch has exactly one teardown entry, and it is verified |
| RunReports.FanoutCompleteIffProof | libs/dev-env/src/report.rs:731-776 | a fan-out is complete if and only if it has as many distinct lanes as repetitions asked for, each with complete cleanup |
| RunReports.ChildCompleteIffProof | libs/dev-env/src/report.rs:797-825 | a single-lane report is complete if and only if it is terminal and its teardown proves the exits and, for an import, the removed staging |
| RunReports.CompleteIsTerminal | libs/dev-env/src/report.rs:128-138 | only a known kind in a terminal status is ever complete, and then with the proof of its kind |
| RunReports.CleanupStates | libs/dev-env/src/report.rs:663-687 | when a report is complete, pending or incomplete, from the texts of its kind and status and the proof of its kind |
| RunReports.ReportIff | libs/dev-env/src/report.rs:511-545 | a document is a report if and only if it names run, kind and status; its cleanup is complete if and only if the status is one of six texts and the document proves it |
| RunReports.KindsReadBack | libs/dev-env/src/report.rs:21-51 | kind texts parse and print back; exactly the other texts are unknown |
| RunReports.StatusesReadBack | libs/dev-env/src/report.rs:73-114 | status texts parse and print back |
| RunReports.StatusClasses | libs/dev-env/src/report.rs:116-138 | which texts are active, terminal, incomplete and unknown |
| RunReports.ConcernIff | libs/dev-env/src/report.rs:268-283 | when a report needs attention, is history or is of no concern |
| CleanupRepair.AcceptedIsUnprovenChild | libs/dev-env/src/report.rs:358-477 | whatever the legacy classifier accepts is a terminal single-lane report that lacks typed proof |
| CleanupRepair.AcceptedIff | libs/dev-env/src/report.rs:358-477 | per format, a report is accepted if and only if it is the report of a finished lane in the directory named after it, every removed artifact is a generated one of that directory and gone, and its teardown has that shape |
| CleanupRepair.UpgradeWrites | libs/dev-env/src/report.rs:333-345 | what the upgrade writes into the teardown and its own record |
| CleanupRepair.AcceptedUpgradeIsComplete | libs/dev-env/src/report.rs:297-356 | the upgrade of any accepted report parses to complete cleanup |
| CleanupRepair.UpgradeProvesCleanup | libs/dev-env/src/report.rs:797-825 | an unproven terminal report needs attention before its upgrade and is complete after it |
| CleanupRepair.UpgradeHappensOnce | libs/dev-env/src/report.rs:358-430 | no path, disk or moment makes an upgraded report acceptable again |
| CleanupRepair.UpgradeKeepsTheRest | libs/dev-env/src/report.rs:297-356 | every path outside three teardown members and the upgrade record is unchanged |
| CleanupRepair.RunDirectory.RepairLegacyCleanup | libs/dev-env/src/report.rs:297-356 | repairs exactly when the report is accepted before and under the lock; the rejection after the upgrade is unreachable |
| CleanupRepair.ReplacementEffect | libs/dev-env/src/report.rs:297-356 | a newly written backup is the original report, an existing one is kept, other files stay |
| CleanupRepair.RepairEffect | libs/dev-env/src/report.rs:297-356 | after a repair the stored report proves cleanup and is never repaired again |
| ConfigKeys.DotContinuationIsStrictSegmentPrefix | libs/config/src/validation.rs:247-253 | the string test is exactly strict prefix on dot-separated segments |
| ConfigKeys.KeysClashIffPathsComparable | libs/config/src/validation.rs:212-253 | two keys are reported if and only if one path leads to the other |
| ConfigKeys.ValidateKeyCollisions | libs/config/src/validation.rs:212-245 | the nested loop reports nothing if and only if all stored paths are pairwise apart |
| ConfigKeys.ErrorReportedIff | libs/config/src/validation.rs:229-243 | exactly which pairs are reported, as duplicate or as collision, and for which field |
| ConfigSpecs.StoredIff | libs/config/src/contract/v1.rs:226-229 | which fields store a value |
| ConfigSpecs.PathIsKeyCutAtDots | libs/config/src/defaults.rs:156-159 | the path of a field is its key, or else its id, cut at every dot |
| DefaultsTree.InsertThenLookup | libs/config/src/defaults.rs:161-186 | a successful insertion is read back at its path |
| DefaultsTree.InsertOkIff | libs/config/src/defaults.rs:161-186 | an insertion succeeds if and only if the path is not empty, nothing on the way is a non-object, and nothing is there yet |
| DefaultsTree.InsertKeepsOthers | libs/config/src/defaults.rs:161-186 | an insertion changes nothing at any apart path |
| DefaultsTree.InsertionsCommute | libs/config/src/defaults.rs:161-186 | on apart paths one insertion neither enables nor disables the other, and they can be swapped |
| DefaultsTree.ApartEntriesAllFound | libs/config/src/defaults.rs:156-186 | entries on pairwise apart paths all go in and are all found |
| DefaultsTree.OrderDoesNotMatter | libs/config/src/defaults.rs:156-186 | every order of insertion gives the same tree |
| DefaultsTree.ComparablePathsFail | libs/config/src/defaults.rs:161-186 | of two comparable paths the longer first never lets the shorter in |
| ConfigDefaults.CollectDefaults | libs/config/src/defaults.rs:20-45 | succeeds exactly when every insertion does, with the tree of all defaults |
| ConfigDefaults.AcceptedDefaultsReadBack | libs/config/src/defaults.rs:20-45 | for every spec past the collision check collecting never fails and lookup gives each default |
| ConfigDefaults.AcceptedDefaultsAnyOrder | libs/config/src/defaults.rs:20-45 | the same tree for every order of the fields |
| ConfigDefaults.ComparableFieldsFailLongerFirst | libs/config/src/defaults.rs:20-45 | the check is not too strict: fields on comparable paths fail in some order |
| Merging.MergeJsonDefaults | libs/config/src/defaults.rs:137-154 | the loop that removes, merges and inserts computes the recursive merge |
| Merging.MergeLookup | libs/config/src/defaults.rs:137-154 | the merged value at any path, from the two inputs alone |
| Merging.BlockedIffAncestorIsNotObject | libs/config/src/defaults.rs:137-154 | a path is cut off exactly by a non-object override on a strict prefix |
| Merging.MergeAbsorbsDefaults | libs/config/src/defaults.rs:137-154 | merging over the defaults again changes nothing |
| Merging.MergeAbsorbsOverrides | libs/config/src/defaults.rs:137-154 | applying the overrides again changes nothing |
| Merging.MergeWithItself | libs/config/src/defaults.rs:137-154 | a document merged with itself is itself |
| Merging.CanonicalizeRewrites | libs/config/src/lib.rs:273-301 | in every place of a document, array items included, a whole float in range becomes the integer of its value and everything else stays |
| Merging.NoWholeFloatIsLeft | libs/config/src/lib.rs:273-301 | no whole float in range is left anywhere |
| Merging.CanonicalizeIsIdempotent | libs/config/src/lib.rs:273-301 | rewriting whole floats twice is rewriting them once |
| Merging.CanonicalizeCommutesWithMerge | libs/config/src/lib.rs:273-301 | merge then rewrite equals rewrite then merge |
| Merging.ValidateJsonContains | libs/config/src/defaults.rs:234-283 | reports nothing if and only if the expected document is contained, and reports only paths below its own |
| Merging.ContainsIff | libs/config/src/defaults.rs:234-290 | a document contains another if and only if in every place of the other it has an object, an array of the same length, a number within a millionth, or the same leaf |
| Merging.ContainsAtEveryPath | libs/config/src/defaults.rs:234-283 | containment reaches every path |
| Merging.MergeContainsOverrides | libs/config/src/defaults.rs:234-290 | a merged document contains its overrides whatever the defaults |
| JsonValues.SaturatedTokenReadsBack | libs/config/src/lib.rs:288-301 | an integer token written for a whole double reads back as the same double, at the saturating edge too |
| JsonValues.RoundsToNearest | libs/config/src/lib.rs:288-301 | an integer becomes the nearest double: 53 binary digits, ties to even |
| FieldValues.StringArrayFromJson | libs/config/src/normalized.rs:429-435 | decodes exactly the arrays of strings |
| FieldValues.ObjectItemFromJson | libs/config/src/normalized.rs:447-468 | decodes exactly the objects whose members all decode |
| FieldValues.ObjectArrayFromJson | libs/config/src/normalized.rs:437-445 | decodes exactly when every element does |
| FieldValues.DecodeIff | libs/config/src/normalized.rs:410-478 | exactly which documents decode to a value |
| FieldValues.WidenIff | libs/config/src/normalized.rs:304-335 | exactly which conversions widening makes |
| FieldValues.MatchesKindIff | libs/config/src/validation.rs:843-867 | exactly which values are of a kind |
| FieldValues.WidenIsIdempotent | libs/config/src/normalized.rs:304-335 | widening twice is widening once |
| FieldValues.WidenReachesKindOrKeeps | libs/config/src/normalized.rs:304-335 | widening gives a value of the kind or leaves it alone |
| FieldValues.WidenToTextAndBack | libs/config/src/normalized.rs:304-335 | flags and parseable numbers survive widening to text and back |
| FieldValues.PrintDecodeWiden | libs/config/src/defaults.rs:188-232 | print, decode and widen is the identity on a value of the declared kind if and only if its numbers are finite and its items hold scalars or string arrays |
| SelectNormalization.CanonicalOption | libs/config/src/normalized.rs:283-293 | a canonical option is declared and has the same canonical key |
| SelectNormalization.CanonicalOptionIff | libs/config/src/normalized.rs:283-293 | a declared option stands for itself, any other text for the only option with its key |
| SelectNormalization.KeyOfWord | libs/config/src/normalized.rs:295-302 | the key of a text without whitespace, character by character |
| SelectNormalization.KeyAroundSpace | libs/config/src/normalized.rs:295-302 | whitespace between texts becomes one dash, at either end nothing |
| ConfigSpecs.StaticSelectIff | libs/config/src/normalized.rs:252-262 | which fields are normalised |
| SelectNormalization.CanonicalKeyIsCanonical | libs/config/src/normalized.rs:295-302 | a canonical key has no whitespace, underscore or capital and is its own key |
| SelectNormalization.NormalizeConfig | libs/config/src/normalized.rs:252-273 | the loop computes the normal form |
| SelectNormalization.NormalizeElsewhere | libs/config/src/normalized.rs:252-273 | nothing changes outside the static select keys |
| SelectNormalization.NormalizeAtSelect | libs/config/src/normalized.rs:252-273 | a string at a static select key becomes its declared option, anything else stays |
| SelectNormalization.NormalizeIsIdempotent | libs/config/src/normalized.rs:252-273 | normalising twice is normalising once |
| ConfigResolution.ResolveConfig | libs/config/src/normalized.rs:136-250 | resolves every field of a valid spec, and fails only for an invalid spec or a non-object |
| ConfigResolution.ResolutionIs | libs/config/src/normalized.rs:136-250 | when resolution fails and why, and what each field resolves to |
| ConfigResolution.ResolvingNormalizedConfig | libs/config/src/normalized.rs:136-141 | resolving a normalised configuration equals resolving the original |
| ConfigResolution.CanonicalDecodesAlike | libs/config/src/lib.rs:273-301 | rewriting whole floats does not change what a decoder reads |
| ConfigResolution.PrintedIsCanonical | libs/config/src/defaults.rs:208-215 | what is printed holds no whole float, and a number that is not finite is printed as null |
| ConfigResolution.ResolvedDefaultIs | libs/config/src/normalized.rs:153-157 | the default of a field, declared or not |
| ConfigResolution.ResolvedValueIs | libs/config/src/normalized.rs:158-165 | a field shows its override where one is stored and decodes, and its default otherwise |
| ConfigResolution.DefaultAcceptedIff | libs/config/src/validation.rs:255-273 | which defaults are accepted |
| ConfigResolution.LoaderReadsDefault | libs/config/src/lib.rs:315-335 | without an override the loader reads the printed default |
| ConfigResolution.LoaderReadsOverride | libs/config/src/lib.rs:315-335 | with one it reads the default merged with the override |
| ConfigResolution.OverrideReadings | libs/config/src/normalized.rs:370-393 | the two readings of an override agree if and only if it decodes and covers an object_map default |
| ConfigResolution.LoaderAgreesWithEditor | libs/config/src/normalized.rs:151-165 | on a normalised file loader and editor agree if and only if no ancestor is blocked and the override decodes and covers, or the default is printable |
| LoaderAgreement.NormalizedLookup | libs/config/src/normalized.rs:252-281 | the normal form at any field of a spec past the collision check, from that field's own value |
| LoaderAgreement.LoaderReadsRawSpelling | libs/config/src/lib.rs:315-335 | where the editor corrects an option the loader hands over the text as written |
| LoaderAgreement.FileReadsAlike | libs/config/src/normalized.rs:136-165 | on one file, normalised or not and without negative zeros, loader and editor agree if and only if the above holds and the option is spelled as declared |
| LoaderAgreement.NegativeZeroReadsAlike | libs/config/src/lib.rs:288-301 | where the override is the token -0.0, which only the editor still sees as such, they agree if and only if the field is not shown as text |
| LoaderDifferences.CapitalOption | libs/config/src/normalized.rs:283-302 | a contract and file where the loader hands over an option in capitals and the editor the declared one |
| LoaderDifferences.NegativeZeroText | libs/config/src/normalized.rs:304-335 | a contract and file where the loader reads 0 and the editor shows -0 |
| LoaderDifferences.BlockedAncestor | libs/config/src/defaults.rs:137-154 | a contract and file where a number at an ancestor hides the field from the loader |
| LoaderDifferences.UndecodableOverride | libs/config/src/normalized.rs:370-393 | a contract and file where a null override is unreadable for the loader and the default for the editor |
| LoaderDifferences.PartialObjectMap | libs/config/src/defaults.rs:137-154 | a contract and file where the loader keeps the default entry of an object_map that the editor shows empty |
| LoaderDifferences.NestedItemDefault | libs/config/src/defaults.rs:217-223 | a contract whose default item holds a map, which the loader cannot read back |
| LoaderDifferences.InfiniteDefault | libs/config/src/defaults.rs:208-215 | a number default that is not finite, which the loader reads as null |
| Frames.ByteStream.WriteFrame | libs/dev-guest/src/lib.rs:301-318 | appends encoding and newline exactly when the encoding is within the limit |
| Frames.ByteStream.ReadFrame | libs/dev-guest/src/lib.rs:320-334 | one bounded read: its result and what it leaves in the stream |
| Frames.FrameReceivedIffWithinLimit | libs/dev-guest/src/lib.rs:320-334 | a newline-free body is received if and only if it is within the limit: the bound is tight |
| Frames.ReceivedIs | libs/dev-guest/src/lib.rs:320-334 | one read of any bytes: closed, a frame that decodes or is invalid, or too long |
| Frames.WrittenMessagesReadBack | libs/dev-guest/src/lib.rs:301-334 | any sequence of messages within the limit reads back in order, nothing left over |
| FrameReading.FrameReader.ReadFrameCancellable | libs/dev-guest/src/lib.rs:475-512 | the polling reader over chunks, timeouts, closes and other socket errors, with cancellation and deadline |
| FrameReading.ReadTowardsFrame | libs/dev-guest/src/lib.rs:475-512 | every read completes the frame or uses up a timeout, and loses no byte |
| FrameReading.SplitFramesReadAlike | libs/dev-guest/src/lib.rs:475-512 | for every split of a frame with timeouts between, the message and the bytes after it are those of the plain reader |
| RequestIds.GuestControlClient.RequestCancellable | libs/dev-guest/src/lib.rs:445-472 | one exchange, given up between frames or in the middle of one: its new connection state and verdict |
| RequestIds.ExchangeKeepsInv | libs/dev-guest/src/server.rs:68-99 | the server echoes ids in order and the client's ids strictly increase |
| RequestIds.ResultAnswersItsRequest | libs/dev-guest/src/lib.rs:445-472 | a result is the server's answer to that very request |
| RequestIds.AnsweredIffNoBacklog | libs/dev-guest/src/lib.rs:445-472 | a request is answered if and only if nothing is outstanding, it is sent and served, and the client waits for the end of the answer |
| RequestIds.FreshRounds | libs/dev-guest/src/lib.rs:445-472 | with nothing outstanding, a sent request gives the success or failure of its answer, or is given up |
| RequestIds.UnsentRounds | libs/dev-guest/src/lib.rs:445-472 | ids start at one and run out at 2^64 - 1; an unwritable frame uses up its id |
| RequestIds.LateReplyIsRejected | libs/dev-guest/src/lib.rs:445-472 | the late reply to an earlier request is rejected by its id, or, if part of it was thrown away, as no message |
| RequestIds.BacklogStays | libs/dev-guest/src/lib.rs:445-472 | a backlog is never worked off |
| RequestIds.EveryResultIsOwn | libs/dev-guest/src/lib.rs:445-472 | over every run a result belongs to its own request |
| RequestIds.NothingSucceedsAfterGivingUp | libs/dev-guest/src/lib.rs:445-472 | over every run nothing succeeds on a connection after a request given up once sent, wherever in a frame |
| FrameReading.LoopReadsOrCuts | libs/dev-guest/src/lib.rs:475-512 | on any unbroken delivery the reader decodes the bytes before the first newline, or gives up having thrown away some of them |
| FrameReading.StopsWhenAsked | libs/dev-guest/src/lib.rs:480-490 | a cancellation, and then the deadline, stop the loop before it reads |
| FrameReading.BrokenSocket | libs/dev-guest/src/lib.rs:496-507 | a failing socket is an error, a closed one is closed once nothing more is read |
| FrameReading.OverlongFrameIsRejected | libs/dev-guest/src/lib.rs:508-510 | more than 2^20 bytes without a newline are rejected at the next pause |
| ResponseStreams.ReaderReceives | libs/dev-guest/src/lib.rs:475-512 | on any delivery of what the server has written, the reader does what one receive of the request protocol does |
| ResponseStreams.AttemptIsRound | libs/dev-guest/src/lib.rs:445-472 | one request over the wire, bytes, timeouts and polls included, is one round of the request protocol |
| ResponseStreams.EveryWireResultIsOwn | libs/dev-guest/src/lib.rs:445-512 | over every run on the wire a result is the server's answer to the request of that attempt |
| ResponseStreams.NothingOnTheWireSucceedsAfterGivingUp | libs/dev-guest/src/lib.rs:445-512 | over every run on the wire nothing succeeds after a request given up once sent |
| Smbios.SmbiosRunId | libs/dev-guest/src/lib.rs:182-212 | on any bytes the walk stays in bounds, terminates and finds what the recursive search finds |
| Smbios.StringSetEnds | libs/dev-guest/src/lib.rs:182-212 | a printed string set ends at its own double NUL and nowhere earlier |
| Smbios.StringSetSplits | libs/dev-guest/src/lib.rs:182-212 | splitting a printed string set finds what the strings themselves contain |
| Smbios.PrintedTableSearched | libs/dev-guest/src/lib.rs:182-212 | on every printed table the result is the first prefixed OEM string before or at type 127 |
| Smbios.FindPrefixedIff | libs/dev-guest/src/lib.rs:195-203 | the run id follows the prefix in the first UTF-8 string that has it |
| Smbios.MalformedEndsSearch | libs/dev-guest/src/lib.rs:186-194 | a truncated header, a bad length or a missing double NUL ends the search |
| ProcessTable.ProcessManager.Handle | libs/dev-guest/src/server.rs:132-164 | an action's reply and new table |
| ProcessTable.ActionEffect | libs/dev-guest/src/server.rs:131-287 | at most the next id is added, at most one process leaves, and a finished report is of a process that just left |
| ProcessTable.TerminateEffect | libs/dev-guest/src/server.rs:250-263 | a known process leaves on Terminate if and only if the first look does not fail and a running one is killed and reaped; it is reported if its output is readable |
| ProcessTable.WaitEffect | libs/dev-guest/src/server.rs:208-248 | a known process leaves on Wait if and only if its exit is seen in time; the reply is Running if and only if the deadline is seen first |
| ProcessTable.SpawnEffect | libs/dev-guest/src/server.rs:166-206 | a valid command takes the next id whether or not it starts |
| ProcessTable.ExecReply | libs/dev-guest/src/server.rs:132-164 | how an Exec ends, and what it replies |
| ProcessTable.ExecEffect | libs/dev-guest/src/server.rs:132-164 | too long a timeout changes nothing, a successful Exec leaves the table as it was, a failed one leaves its process exactly when it could not be polled, killed or reaped |
| ProcessTable.IdsAreNeverReused | libs/dev-guest/src/server.rs:166-206 | over every run ids strictly increase |
| ProcessTable.TableHoldsUnfinished | libs/dev-guest/src/server.rs:131-287 | over every run the table holds exactly the processes spawned and not finished |
| ProcessTable.GoneStaysGone | libs/dev-guest/src/server.rs:265-286 | a process that has left never comes back |
| ProcessTable.FinishedReportedOnce | libs/dev-guest/src/server.rs:265-286 | a process is reported finished at most once |
| ScanLedgers.ScanLedger.Resolve | libs/dev-build/src/scan_ledger.rs:69-102 | one path: its size, whether it was scanned, the records after |
| ScanLedgers.ResolveIs | libs/dev-build/src/scan_ledger.rs:69-102 | when a path is gone, reused or scanned, and what its record is then |
| ScanLedgers.RescannedIffSomeChildIs | libs/dev-build/src/scan_ledger.rs:104-135 | a walk counts as a scan if and only if some listed subdirectory had to be scanned |
| ScanLedgers.ScanLedger.ResolveDirByChildren | libs/dev-build/src/scan_ledger.rs:104-147 | the walk over children and the forgetting of vanished ones |
| ScanLedgers.ResolvedTotalIsPlainSum | libs/dev-build/src/scan_ledger.rs:104-135 | with trustworthy records and a fixed tree the total is the plain sum of deep sizes and file lengths |
| ScanLedgers.OnlyListedRecordsChange | libs/dev-build/src/scan_ledger.rs:69-102 | records change only at listed children, and every new size is one the deep scan returned |
| ScanLedgers.VanishedChildrenAreForgotten | libs/dev-build/src/scan_ledger.rs:135-147 | below the directory a record survives if and only if its child is still listed |
| ScanLedgers.OutsideIsUntouched | libs/dev-build/src/scan_ledger.rs:135-147 | records elsewhere are untouched |
| ScanLedgers.TrailingSeparatorForgetsNothing | libs/dev-build/src/scan_ledger.rs:135-147 | with a directory path that ends in a separator, records of vanished children stay |
| ImageRegistry.InsertAgrees | libs/gpui/src/image_registry.rs:36-48 | filling a slot keeps every count equal to the number of slots |
| ImageRegistry.RemoveAgrees | libs/gpui/src/image_registry.rs:59-85 | emptying a slot keeps the counts, and drops the image if and only if no slot of any cache holds it |
| ImageRegistry.ReplaceAgrees | libs/gpui/src/image_registry.rs:88-102 | overwriting a slot, with the same image too, keeps the counts and drops only what no slot holds |
| ImageRegistry.Images.ReplaceInto | libs/gpui/src/image_registry.rs:88-102 | counts agree afterwards; the old image is dropped exactly when no slot holds it |
| ImageRegistry.Images.RetainOrRelease | libs/gpui/src/image_registry.rs:104-119 | counts agree; exactly the images no longer held are dropped, once each |
| ImageRegistry.Images.ReplaceMap | libs/gpui/src/image_registry.rs:121-137 | counts agree; exactly the images held by no other cache are dropped, once each, even those held again |
| ImageRegistry.Images.ExtendWith | libs/gpui/src/image_registry.rs:139-151 | counts agree; each image is dropped at most once, all lost ones are, and none that an untouched slot holds |

## Left out

- ImageRegistry.Images.ExtendWith: does not fix which image is dropped when a slot overwritten later takes it up again; that depends on the iteration order of the source's hash map.
- RequestIds.GuestControlClient.RequestCancellable: a request whose write fails in the middle, a broken socket, and what a connection leaves for the next one are not modelled.
- FrameReading.FrameReader.ReadFrameCancellable: has no size bound, as in the source, which looks at the length only after a read without a newline.
- ConfigResolution.ResolveConfig: models the part of spec validation that bears on stored values; sections, devices, labels, sliders, options, the bounds and steps of numbers, and the layout of the result are not part of this model.
- Numbers: a double is a real with explicit rounding of integers, or one value for NaN and the infinities; the two zeros are one value, except for the token of an override in `LoaderAgreement.NegativeZeroReadsAlike`; parsing and showing a number as text are parameters.
- The JSON and TOML codecs and UTF-8 validity: parameters with the properties the code relies on: an encoding decodes to what was encoded, holds no newline, and, for the results about requests given up, no proper tail of it decodes.
- File errors other than a missing file, partial writes and fsync: a write replaces the file atomically; a process that fails anywhere unlocks without saving.
- The prune looks at the owner even of a lease whose report cannot be verified; the source skips that look, which decides nothing.
- Lock polling and its duration: a waiting process may time out at any moment.
- The order of ledger backups and their names, and the tie-break of the ledger sort by report path, which no valid ledger needs.
- Identity, environment and payload checks of parent coverage: comparisons of single fields; `inspect` only reads.
- `u64` overflow of summed sizes and of reference counts.
- Signature computation, reading of truncated process output, and the hello handshake.
- Poisoned locks, error texts, diagnostics wording and logging.
