# A verified model of Cyclotomy

Cyclotomy ties the conversation tree of a coding session to checkpoints of its workspace. Every stable
coordinate of a session can hold a checkpoint slot; slots inherit along the tree; a restore turns the
workspace into a checkpoint's tree; and a collector compacts and sweeps the object store behind it all.
This project models the parts of that system whose comments promise laws over every run, tree or byte
stream, and proves those laws in Dafny 4.11.

| Part | Files | What is proved |
|---|---|---|
| Collection | `Gc*.dfy` | Selection, its narrowing passes, tier merging, planning and sweeping keep every live record represented after any prefix of the removals, for every outcome of the heuristics; nothing goes within its grace period, an unstopped run removes everything older and exactly what was selected, and the report is exact. |
| Restore | `WorkspacePaths`, `RestorePlan`, `MutationGate`, `StreamWindow`, `Apply*` | The plan turns the current leaves into the target's; an apply under any faults never touches excluded content, mutates only through one cutover, succeeds when no call fails, and repeats as a no-op. |
| Slots and metadata | `Checkpoint{Slots,Lineage}`, `Metadata*` | What every transaction answers and changes; protection and barrier reconciliation change no meaning; pins hold over runs of any number of connections; the history fence is exact. |
| Session tree | `SessionGraph`, `GraphValidation`, `StableProjection`, `SessionAncestry`, `ForkProjection` | Validation and projection accept the same logs; projected ancestries are the filtered raw ones; forks preserve resolution. |
| Asynchronous protocols | `Engine*`, `AdmissionModel`, `AdmissionLaws`, `CheckpointAdmission`, `LockOrder`, `OrderedLocks`, `LockDeadlock` | Engine life cycle, what a resume answers, and capture authority over every interleaving, as laws of the classes' own contracts; ordered locking, whose wait cycles all need a store rebound to one at or below a held one. |
| Algorithms | `Utf8Order`, `ScopeSources`, `RecordFramer`, `OracleProtocol`, `GitIgnoreOracle`, `ScanModel`, `ScanLaws`, `WorkspaceScan`, `FailureSettlement` | UTF-8 order on UTF-16, canonical sources, chunk-insensitive framing, an ignore protocol that answers on nothing but complete responses, batched scanning that accounts for every candidate, flattening of cyclic failure graphs. |

`Wrappers` and `Sequences` hold shared vocabulary.

How the model is built:

- Code that updates fields or loops over collections is a class or a method with loops, proved against a
  specification function or predicate; the laws are lemmas about those specifications and over whole runs.
- Whatever the environment decides (a failing system call, a short write, a revoked authority, a heuristic's
  choice, the cut of a byte stream, the interleaving at an `await`) is a parameter or a nondeterministic
  choice, so a statement holds for all of its outcomes. In an apply, the ghost flag `faulted` records that
  some call failed or a git-internal path was refused; no other code sets it.
- Content ids stand for content: equal ids mean equal bytes. Digests are functions passed in.

Two properties fail on some inputs, and the model says exactly on which.

- `compareUtf8` does not tell a lone surrogate from U+FFFD, so two strings compare equal exactly when they have
  the same scalars (`Utf8Order.EqualExactly`), and it tells a string apart from every other exactly when that
  string is well formed and lacks U+FFFD (`Utf8Order.ToldApartExactly`). The neighbour check on sorted scope
  sources is right for every list over some paths exactly when the order tells those paths apart
  (`ScopeSources.NeighbourCheckExact`); at `[D800], [FFFD], [D800]` it would let a duplicate pass
  (`ScopeSources.IllFormedDuplicatePasses`). The scope checks that paths are well formed before it sorts.
- An empty chunk that arrives after the last byte of a complete response counts as unsolicited output. The query
  has its answers under every chunking of a complete response, but the connection survives exactly when the last
  chunk is not empty, wherever else empty chunks occur (`OracleProtocol.CompleteResponseAnswers`,
  `OracleProtocol.EmptyChunkAfterCompletionFails`).

## Model

| member | source | states |
|---|---|---|
| GcOwners.AssignOwners | src/infrastructure/object-gc.ts:2146-2167 | every packed live record gets the owner that the selected location or the first pack determines, and dead records get none |
| GcOwners.OwnerExists | src/infrastructure/object-gc.ts:2146-2167 | a packed live record always has an owning pack, and the selected pack of a content record is its owner |
| GcOwners.OwnerIsSelectedOrFirst | src/infrastructure/object-gc.ts:2146-2167 | an assigned owner is the pack marking read the record at, or else, if there is none, the first pack that holds it |
| GcSelection.Selector.AddKeys | src/infrastructure/object-gc.ts:1915-1930 | a key group is admitted whole or not at all, exactly when its new keys fit the rewrite budget |
| GcSelection.Selector.RewritePack | src/infrastructure/object-gc.ts:1935-1947 | a refused rewrite changes nothing; an admitted one notes the rewritten pack's id, its required keys and the replacement keys |
| GcSelection.WorthRewritingMeans | src/infrastructure/object-gc.ts:1999-2027 | a pack is worth rewriting exactly if it is past the grace period, has live and dead records, and at least half its records or bytes are dead or a live one is a delta |
| GcSelection.Selector.SelectDeadPacks | src/infrastructure/object-gc.ts:1999-2039 | exactly the expired packs without a live record are dead; only packs worth it are rewritten, and each of them is unless its keys exceed the budget |
| GcSelection.Selector.SelectDuplicates | src/infrastructure/object-gc.ts:2168-2198 | packs whose live records all belong to other packs become redundant; only packs of mixed ownership are rewritten, and each of them is unless its owned keys exceed the budget |
| GcSelection.SelectCompaction | src/infrastructure/object-gc.ts:1898-2213 | for any outcome of the delta heuristics the selection is sound and within budget: every rewritten pack's owned live records are required and replaced; exactly the old packs without a live record are dead and only disowned packs redundant; every loose object, every pack worth rewriting and every pack of mixed ownership is taken whole unless it does not fit |
| GcPasses.SelectWithinBudget | src/infrastructure/object-gc.ts:997-1022 | the admitted list fits the decoded budget, repeats no key, and leaves out only unusable records and those that no longer fit |
| GcPasses.BoundDecodedBytes | src/infrastructure/object-gc.ts:2337-2460 | records are cut to a list that fills the decoded budget, exactly the rewrites that lost a required record are dropped, and the selection stays sound |
| GcPasses.OmitKeepsClassified | src/infrastructure/object-gc.ts:595-607 | withdrawing content keys unbacks a rewrite only if it required one of them |
| GcPasses.WithoutWorkIsSound | src/infrastructure/object-gc.ts:609-620 | dropping all replacement work leaves a sound selection |
| GcPasses.RewritePays | src/infrastructure/object-gc.ts:2260-2307 | a delta rewrite is kept exactly if its pack is known, it added records, and it saved at least a quarter of the pack |
| GcPasses.PruneUnproductive | src/infrastructure/object-gc.ts:2215-2335 | cancels exactly the delta rewrites that did not pay, withdraws only the keys they alone added, and keeps what the remaining rewrites require |
| GcTiers.TierBounds | src/infrastructure/object-gc.ts:979-990 | the size tier is the floor of the binary logarithm |
| GcTiers.PhysicalSizeTier | src/infrastructure/object-gc.ts:979-990 | the loop computes that tier for every size |
| GcTiers.MergeableMeans | src/infrastructure/object-gc.ts:1754-1785 | a pack is mergeable exactly if it is under a quarter of the target size, past the grace period, wholly live, and neither selected nor holding a selected record |
| GcTiers.GroupFor | src/infrastructure/object-gc.ts:1741-1818 | a group is the first fan-in packs of the lowest tier that has enough mergeable ones, and none means that no tier has |
| GcTiers.ExtendWithGroup | src/infrastructure/object-gc.ts:1820-1896 | a group is admitted exactly when its keys and bytes fit, requires all its records, and the selection stays sound within budget |
| GcConvergence.ConvergentRewriteShrinks | src/infrastructure/object-gc.ts:882-919 | a full group's merge is accepted exactly when it leaves fewer packs and no more bytes standing in its class, counting removed and planned packs, and the other class as it was |
| GcConvergence.MeasurePlan | src/infrastructure/object-gc.ts:921-940 | the loop counts each class's planned packs and bytes |
| GcRun.AdmitGroup | src/infrastructure/object-gc.ts:3162-3193 | a group is merged exactly when its records fit both budgets and merging it shrinks its class |
| GcRun.MergeTiers | src/infrastructure/object-gc.ts:3162-3193 | the lowest full tier of each class is admitted exactly when it fits and shrinks its class; the selection stays sound and within budget, no class ends with more packs or bytes, and a real change leaves one with fewer packs |
| GcSweep.OwnerSurvives | src/infrastructure/object-gc.ts:2569-2680 | the owner of a record nobody republishes is in no removal class |
| GcSweep.SweepKeepsEveryLiveKey | src/infrastructure/object-gc.ts:2569-2680 | coverage by construction: after a sound selection and publication, the planned removals leave every live record a representation that may stand for it |
| GcSweep.CoverageIsMonotone | src/infrastructure/object-gc.ts:1674-1679 | removing less keeps at least as much covered, which carries the plan's safety to every prefix of it |
| GcSweep.FindUncovered | src/infrastructure/object-gc.ts:1584-1679 | the fence reports a live record exactly when some live record is left uncovered |
| GcPlan.CoveredIsRepresented | src/infrastructure/object-gc.ts:1584-1679 | covered means stored: a finished loose file of the right kind and name, or a pack entry for the record that is not a chunked form of a content read otherwise |
| GcPlan.PlanSpares | src/infrastructure/object-gc.ts:2613-2680 | after any prefix of the plan, everything unreferenced or incoming that is no older than the grace period is still there, and so is every pack of that age that is not rewritten, every live object not wholly replaced, and every pack with live records that is neither rewritten nor redundant |
| GcPlan.PlanClears | src/infrastructure/object-gc.ts:2613-2680 | after the whole plan, everything unreferenced or incoming that is older than the grace period is gone, with every old pack without a live record, every replaced object, and every rewritten or old redundant pack that publishing did not name again |
| GcExecute.StoreState.RemoveObject | src/infrastructure/object-gc.ts:2765-2897 | one removal removes one planned object and lowers the stored bytes by its size |
| GcExecute.StoreState.RemovePack | src/infrastructure/object-gc.ts:2765-2897 | one removal removes one planned pack and lowers the stored bytes by its size |
| GcExecute.StoreState.RemoveIncoming | src/infrastructure/object-gc.ts:2837-2852 | one removal removes one planned incoming file and lowers the stored bytes by its size |
| GcExecute.TotalOfRest | src/infrastructure/object-gc.ts:2765-2897 | what a removal prefix leaves weighs as much as what the whole list leaves plus the list's unvisited rest |
| GcExecute.TallyIsExact | src/infrastructure/object-gc.ts:2785-2848 | every removal counter is the number of removed files or pack entries it stands for |
| GcExecute.ReportedKeptIsExact | src/infrastructure/object-gc.ts:2765-2897 | the kept count of a finished or stopped sweep is the number of records still stored |
| GcExecute.KeptIsExact | src/infrastructure/object-gc.ts:2876-2893 | the kept count is the number of finished loose files and pack entries still stored |
| GcExecute.ExecuteSweep | src/infrastructure/object-gc.ts:2765-2897 | wherever the sweep stops or fails, exactly a prefix of the planned objects, then packs, then incoming files is gone and every live record stays covered; the report gives the freed bytes, every per-kind removal counter and the kept count exactly, and an unstopped sweep removed everything planned |
| GcRun.PlanSweep | src/infrastructure/object-gc.ts:2569-2680 | the planned objects, packs and incoming files are exactly the removable ones; planning fails exactly when a removable pack changed |
| GcRun.PlanRewrites | src/infrastructure/object-gc.ts:2937-3372 | every narrowing and merging pass is applied in order and ends sound and within the key budget; without replacement work if its packs do not fit the store |
| GcRun.OnlyPlannedPacksGo | src/infrastructure/object-gc.ts:2569-2680 | newly published packs are never removable, so every removable pack was planned |
| GcRun.CollectGarbage | src/infrastructure/object-gc.ts:2937-3372 | for every choice of the heuristics and every stopping point, a collection leaves every live record represented and neither the coverage fence nor the change check fires; the selection and every pass after it are as above; nothing unreferenced or incoming goes within the grace period, and an unstopped sweep leaves none of it older than that; what is gone is a prefix of exactly the planned removals, all of them unless stopped or failed, and the report is exact in bytes, counters, kept records and written packs |
| GcRun.HasWork | src/infrastructure/object-gc.ts:3009-3021 | a collection goes on exactly when something is selected or expired, or some size tier has enough mergeable packs |
| GcRun.NoWorkNoRemovals | src/infrastructure/object-gc.ts:3009-3044 | when nothing is selected or expired, removing nothing is exactly the plan, so returning early skips no removal |
| GcRun.Sweep | src/infrastructure/object-gc.ts:2741-2762 | after the last root check a sweep ends at the drift with nothing removed, with an exact report, or at the removal that failed, and never without coverage |
| GcRun.AdditionsKeepCovered | src/infrastructure/object-gc.ts:3300-3333 | whatever packs were added to an authentic store, every live record is still covered |
| GcRun.PublishPacks | src/infrastructure/object-gc.ts:3301-3329 | packs are written one after the other, none twice, ids stay distinct, and the count of written packs is exact; a stop leaves only additions |
| WorkspacePaths.AddAncestors | src/infrastructure/workspace-path-relations.ts:2-12 | the loop adds exactly the texts before each slash |
| WorkspacePaths.BelowMeansAncestor | src/infrastructure/workspace-path-relations.ts:14-17 | a path is at or below a root exactly when it is the root or the root is one of its ancestors |
| WorkspacePaths.SetHasAtOrAbove | src/infrastructure/workspace-path-relations.ts:19-31 | the upward search finds a member exactly when some member is at or above the path |
| RestorePlan.NearestAtOrAbove | src/infrastructure/restore-plan.ts:53-73 | the search returns the deepest target at or above the path, and none exactly when there is none; it ends because canonical paths do not begin with a slash |
| RestorePlan.DiffCurrent | src/infrastructure/restore-plan.ts:129-146 | deletions are the current paths the target lacks, only for matching scopes; modifications are the shared paths of different content |
| RestorePlan.DiffTarget | src/infrastructure/restore-plan.ts:183-191 | creations are the target paths missing now; the required blobs are exactly those of differing regular targets |
| RestorePlan.FindBlockers | src/infrastructure/restore-plan.ts:104-161 | an excluded path is blocked exactly when it is prefix-comparable with a target path, once, naming the deepest target at or above it or else itself |
| RestorePlan.DiffOccupancies | src/infrastructure/restore-plan.ts:163-181 | exactly the excluded paths whose presence or kind changed are listed, once each |
| RestorePlan.PlanWorkspaceRestore | src/infrastructure/restore-plan.ts:87-210 | every part of the plan, and the problem list in order: scan problems, scope mismatch, blockers |
| RestorePlan.PlanTurnsCurrentIntoTarget | src/infrastructure/restore-plan.ts:83-210 | for matching scopes, dropping the deleted paths and writing the created and modified ones gives exactly the target |
| RestorePlan.NoChangesMeansEqual | src/infrastructure/restore-plan.ts:212-220 | a plan has no changes exactly when leaves, and for comparisons the excluded markers, agree |
| RestorePlan.NoBlockersMeansDisjoint | src/infrastructure/restore-plan.ts:148-161 | there are no blockers exactly when no excluded path is comparable with a target path |
| RestorePlan.CompletePlan | src/infrastructure/restore-plan.ts:87-210 | a plan has no problems exactly when the scan is whole, the scopes match and nothing blocks |
| MutationGate.MutationLease.Consume | src/application/mutation-lease.ts:57-78 | the cutover callback runs at most once over the lease's life, even if it consumes the lease again while running, and a failed cutover is final |
| MutationGate.Gate.AuthorizeMutation | src/infrastructure/apply.ts:128-144 | an entry succeeds exactly if the authority still holds and the gate is open or cuts over now, on a fresh lease whose callback authorizes; a failure rejects the gate for good, with its cause |
| MutationGate.Gate.ContinueMutation | src/infrastructure/apply.ts:146-161 | later writes of one stream succeed and fail exactly as entries do and share the gate's states |
| MutationGate.UnbrokenIsDisciplined | src/infrastructure/apply.ts:106-114 | a trace the gate allows has one cutover, every mutation after it, and nothing after a refusal |
| StreamWindow.BlobStream.WriteAll | src/infrastructure/apply.ts:320-340 | for any positive short writes the whole content lands contiguously at the position and the loop ends; a write that takes nothing is an error |
| StreamWindow.BlobStream.Sink | src/infrastructure/apply.ts:369-389 | one chunk of any size is consumed through the window, leaving file plus buffer equal to everything received |
| StreamWindow.StreamBlobIntoHandle | src/infrastructure/apply.ts:347-395 | a successful stream leaves exactly the concatenated chunks, written in order within the window size, with the right length and id; a mismatch is reported only when one of them is wrong |
| ApplyDisk.Disk.StreamInto | src/infrastructure/apply.ts:347-395 | into an emptied file, the windowed stream under gated writes changes nothing else, and success means that the file holds the wanted content |
| ApplyModel.SiblingIsClear | src/infrastructure/apply.ts:202-205 | a new sibling of a target path lies outside every excluded path |
| ApplyModel.ScanListsManagedLeaves | src/infrastructure/apply.ts:1253-1277 | a truthful, complete scan lists exactly the managed leaves |
| ApplyRun.Apply.UnlinkEntry | src/infrastructure/apply.ts:1492-1532 | removes one stale entry or reports a problem that a fault explains, and files it under updated or deleted |
| ApplyRun.Apply.PruneDirectory | src/infrastructure/apply.ts:1548-1577 | removes at most this directory, and only if it is empty; without a fault a non-empty one stays and nothing is reported |
| ApplyRun.Apply.ClearSubtree | src/infrastructure/apply.ts:1627-1668 | only directories go; without problems nothing is left at or below the leaf, and any new problem holds the leaf back and blocks it |
| ApplyRun.Apply.EnsureDirectory | src/infrastructure/apply.ts:1676-1795 | the path ends as an observed directory or blocked; a problem or a blocked ancestor blocks it and everything below it |
| ApplyRun.Apply.PublishAtomically | src/infrastructure/apply.ts:193-258 | success replaces exactly the destination; a failure leaves every existing path as it was, and whatever it adds lies outside the excluded paths |
| ApplyRun.Apply.RewriteInPlace | src/infrastructure/apply.ts:406-498 | success gives the file the wanted content; a failure can only have touched that file |
| ApplyRun.Apply.WriteLeaf | src/infrastructure/apply.ts:1838-1976 | one target leaf is written and reported as created or updated, or a problem that a fault explains is reported; every other path stays as it was, and so does the leaf unless it was rewritten in place |
| ApplyWorkspace.UnlinkStale | src/infrastructure/apply.ts:1486-1532 | without problems, exactly the stale entries are gone |
| ApplyWorkspace.ClearReplacements | src/infrastructure/apply.ts:1579-1668 | without problems, only directories disappeared and no path to be created is occupied |
| ApplyWorkspace.EnsureDirectories | src/infrastructure/apply.ts:1670-1795 | without problems, exactly the target's missing directories were added, parents first |
| ApplyWorkspace.WriteTarget | src/infrastructure/apply.ts:1797-1976 | without problems, the managed leaves equal the target and the reports name the created and modified paths |
| ApplyWorkspace.WrittenMeansTarget | src/infrastructure/apply.ts:1797-1976 | surviving current leaves plus the written ones are exactly the target |
| ApplyWorkspace.RunPhases | src/infrastructure/apply.ts:1486-2010 | the phases in order keep every safety fact under any faults, and end at the target when no problem was reported |
| ApplyTree.CarryOut | src/infrastructure/apply.ts:1396-2017 | a rejected gate turns the report into an error, and only a fault rejects it; work that has nothing to do mutates nothing |
| ApplyTree.WholeScanHasDirectories | src/infrastructure/apply.ts:1271-1277 | a whole scan always holds the directory identities apply asks for |
| ApplyTree.ApplyTreeToWorkspace | src/infrastructure/apply.ts:1138-2018 | whichever calls fail: excluded content is untouched, the gate is disciplined, a refusal before the phases mutated nothing, and an empty problem list means the managed leaves are the target's and the reports exact; with no failing call exactly the applicable plans are carried out, without problems |
| ApplyTree.RescanSeesTarget | src/infrastructure/apply.ts:1143-1146 | a whole scan after a success lists exactly the target |
| ApplyTree.ApplyAgain | src/infrastructure/apply.ts:1143-1146 | applying the same target again to such a scan neither mutates nor cuts over |
| CheckpointSlots.BlockLaws | src/domain/checkpoint-slot.ts:63-119 | a blocked slot refuses capture, re-blocking is idempotent, release needs its own tree and undoes blocking a checkpoint, adoption needs an empty blocked slot |
| CheckpointLineage.ReduceLineage | src/domain/checkpoint-lineage.ts:26-57 | the forward walk yields the deepest checkpoint, unless the target itself is blocked and empty, and refuses an empty lineage |
| CheckpointLineage.ResolvesToDeepest | src/domain/checkpoint-lineage.ts:26-57 | a target resolves to the deepest checkpoint of its path, and to none exactly if there is none or the target is blocked without one |
| CheckpointLineage.ProtectPreservesMeaning | src/infrastructure/metadata.ts:1600-1646 | protecting a location changes no coordinate's resolved tree anywhere in the session tree |
| CheckpointLineage.ProtectionsCommute | src/infrastructure/metadata.ts:1600-1646 | protections at different coordinates commute |
| CheckpointLineage.ProtectionOrderIrrelevant | src/infrastructure/metadata.ts:863-927 | only the set of protected locations matters |
| CheckpointLineage.ReconcileIsProtection | src/infrastructure/metadata.ts:863-927 | reconciling a barrier equals protecting each ancestor in any order and changes no resolved tree |
| CheckpointLineage.ReconcilePointwise | src/infrastructure/metadata.ts:863-927 | settling a barrier blocks every coordinate of the path against what it resolved to before and changes no other row |
| CheckpointLineage.ReconcileLoop | src/infrastructure/metadata.ts:863-927 | the loop with one running effective tree computes that reconciliation |
| MetadataStore.Connection.RequireSessionHistoryReady | src/infrastructure/metadata.ts:2108-2130 | refuses exactly when the adopted epoch is not current, a reset is pending, or nothing was adopted |
| MetadataLaws.CaptureMeans | src/infrastructure/metadata.ts:1544-1587 | what a capture transaction answers and changes in every case, said without its code |
| MetadataStore.Connection.CommitCapture | src/infrastructure/metadata.ts:1544-1587 | captured exactly when the connection is current, the session registered without a barrier, and the open slot is the expected one; the target then holds and resolves to the captured tree and nothing else changes; a barrier is settled instead, pinning every ancestor; a blocked or changed slot and an abort change nothing |
| MetadataStore.Connection.ProtectLocation | src/infrastructure/metadata.ts:1600-1646 | blocks exactly the target, as it was if blocked and else on the checkpoint it inherits, returns that slot, and reports staleness exactly under a barrier or another resolution, without refusing to protect |
| MetadataStore.Connection.AdmitResolvedLocation | src/infrastructure/metadata.ts:1653-1697 | admits exactly while no barrier stands and the resolution is the expected one; a pinned target is then open with its tree, and otherwise nothing changes |
| MetadataStore.Connection.AdoptBlockedMissing | src/infrastructure/metadata.ts:1699-1721 | gives its tree exactly to a blocked empty slot outside a barrier, and changes nothing else |
| MetadataStore.Connection.RaiseSessionBarrier | src/infrastructure/metadata.ts:1723-1766 | raises the barrier of a registered session for a current connection, and changes nothing else |
| MetadataStore.Connection.ReconcileSessionBarrier | src/infrastructure/metadata.ts:1768-1814 | settles a barrier exactly if there is one for a registered session, pinning every coordinate of the ancestry; otherwise nothing changes |
| MetadataStore.Connection.FinalizeSessionProjection | src/infrastructure/metadata.ts:1830-2051 | registers, verifies or forks in one transaction, exactly for a free or own identity within the retained graph; every coordinate's slot, the barrier and the history afterwards are told case by case, and only a commit adopts the stored epoch |
| MetadataLaws.RegistrationMeans | src/infrastructure/metadata.ts:1830-2051 | when a registration commits, and what every coordinate of a recovered, re-protected, forked or new session holds afterwards |
| MetadataStore.FillLoop | src/infrastructure/metadata.ts:1116-1142 | retained coordinates without a row become blocked, except one open leaf |
| MetadataStore.SeedLoop | src/infrastructure/metadata.ts:1994-2038 | exported coordinates keep their slots and the others start blocked |
| MetadataRuns.PinHolds | src/infrastructure/metadata.ts:1544-1721 | over any run of any connections, a blocked coordinate keeps its slot and resolution until it is released or adopted there |
| MetadataRuns.EmptyPinNeedsAdoption | src/infrastructure/metadata.ts:1699-1721 | a blocked empty coordinate changes only by adoption |
| MetadataRuns.TreeHeldUntilCapture | src/infrastructure/metadata.ts:1544-1721 | blocking and releasing keep a coordinate's tree; only the next capture there changes it |
| MetadataRuns.ProtectingStepKeepsMeaning | src/infrastructure/metadata.ts:863-927 | protecting and reconciling transactions keep every coordinate's effective tree, whatever their outcome |
| MetadataRuns.StepKeepsValid | src/infrastructure/metadata.ts:825-1253 | every transaction keeps rows canonical and session files unique |
| MetadataRuns.AttachmentHistory | src/infrastructure/metadata.ts:2092-2130 | a connection's adopted epoch and the store's differ by the forgets since its last committed registration |
| MetadataRuns.FenceExact | src/infrastructure/metadata.ts:2092-2130 | a session write passes the fence exactly when the connection registered the session and no forget happened since |
| MetadataRuns.WritesNeedCurrentRegistration | src/infrastructure/metadata.ts:1144-1160 | every committed session write follows a current registration with no reset pending |
| SessionGraph.WellFormedMeans | src/pi/extension-boundary.ts:304-356 | past the other checks a log is well formed exactly when no parent follows its child |
| SessionGraph.OrderedHasNoCycle | src/pi/extension-boundary.ts:304-356 | a parent cycle always contains a forward parent |
| GraphValidation.VisitedAgainIsCycle | src/pi/extension-boundary.ts:341-343 | meeting a grey entry on the walk closes a real cycle |
| GraphValidation.FindCycle | src/pi/extension-boundary.ts:327-346 | the three-colour walk reports a cycle exactly when the parent graph has one |
| GraphValidation.ValidateEntryGraph | src/pi/extension-boundary.ts:304-356 | each error is reported exactly in its case, in the source's order, and none exactly for well-formed logs |
| StableProjection.ProjectStableGraph | src/pi/extension-boundary.ts:174-214 | accepts exactly the logs the validator accepts, and gives every entry its nearest stable ancestor |
| StableProjection.StableIdsSkipLabels | src/pi/extension-boundary.ts:174-214 | a stable path holds exactly the entries of the raw path that are not labels |
| StableProjection.StableAncestryIds | src/pi/extension-boundary.ts:215-228 | the walk ends and returns the raw ancestry with transparent entries filtered out |
| SessionAncestry.CoordinatesAreTree | src/pi/extension-boundary.ts:174-230 | the ancestries of a coordinate list are prefix closed and free of repetition |
| SessionAncestry.CoordinatesSkipLabels | src/pi/extension-boundary.ts:174-214 | the projection has a coordinate for exactly the entries that are not labels |
| SessionAncestry.ProjectionIsTree | src/pi/extension-boundary.ts:174-230 | the projection of an accepted log is such a tree of filtered raw ancestries |
| ForkProjection.ProvenStableCoordinateIds | src/pi/extension-boundary.ts:266-295 | the loop accepts exactly the unchanged coordinates with proven parents in source order, and refuses malformed lists |
| ForkProjection.ProvenAgree | src/pi/extension-boundary.ts:266-295 | a proven coordinate has the same ancestry on both sides, all of it proven |
| ForkProjection.ClosedSubsequenceProven | src/pi/extension-boundary.ts:266-295 | an ancestry-closed subsequence of the source is proven in full |
| ForkProjection.ForkPreservesResolution | src/infrastructure/metadata.ts:2005-2038 | proven coordinates resolve in the fork exactly as in the source, the other retained ones to missing |
| ForkProjection.ForkTransactionPreservesResolution | src/infrastructure/metadata.ts:1210-1253 | the same through the export and registration transactions |
| EngineLedger.EachEngineLivesOnce | src/pi/engine-controller.ts:256-326 | every engine is created, retired, drained and closed in order and at most once each, with every lease released before it drains |
| EngineLedger.OneEngineAtATime | src/pi/engine-controller.ts:170-254 | creation starts only while no engine exists and the controller is open; a publication is the latest attempt's |
| EngineModel.StepKeepsSound | src/pi/engine-controller.ts:81-326 | every uninterrupted piece of the controller keeps the queueing of attempts, the single engine in charge, the barriers and the lease counts |
| EngineModel.NobodyElse | src/pi/engine-controller.ts:170-177 | an attempt still current after its predecessor and the retirement settled finds no engine in charge |
| EngineModel.LifecycleHolds | src/pi/engine-controller.ts:81-326 | over every interleaving of resumes, stops, shutdowns, acquisitions and releases the life cycle laws hold, and a superseded or post-shutdown attempt never becomes current |
| EngineModel.CurrentIsLatest | src/pi/engine-controller.ts:251-253 | a current engine belongs to the latest attempt and nothing else is being created or torn down |
| EngineController.Controller.Acquire | src/pi/engine-controller.ts:81-88 | a lease is granted exactly on a current engine, under a fresh name; the controller is then open, the engine is the latest attempt's, and no other engine exists or has leases |
| EngineController.Controller.Lifecycle | src/pi/engine-controller.ts:81-326 | the log of every controller keeps the life-cycle laws: each engine lives once, creation starts with no engine alive, and only the latest attempt of an open controller is published |
| EngineController.Controller.ReleaseLease | src/pi/engine-controller.ts:89-97 | a lease counts once however often it is released |
| EngineController.Controller.ResumeEngine | src/pi/engine-controller.ts:101-138 | answers with the running engine, else a refusal if closed, else the attempt under way, else a new attempt behind the last one |
| EngineController.Controller.StopEngine | src/pi/engine-controller.ts:140-157 | supersedes attempts, retires a candidate at once, and moves the current engine to a teardown that waits for its leases if it has any |
| EngineController.Controller.StopIfCurrent | src/pi/engine-controller.ts:159-163 | stops exactly when the current engine is of the given generation |
| EngineController.Controller.AfterPredecessor | src/pi/engine-controller.ts:175-176 | once the predecessor settled, the attempt waits for the retirement then in place; no engine appears or goes |
| EngineController.Controller.ShutdownEngine | src/pi/engine-controller.ts:165-168 | closes the controller for good and stops; a closed controller never has a current engine |
| EngineController.Controller.AfterRetirement | src/pi/engine-controller.ts:176-181 | creation starts exactly for the latest attempt of an open controller, and then no engine is current, being made, disposed of or torn down, and no lease is out |
| EngineController.Controller.AfterCreation | src/pi/engine-controller.ts:179-197 | a failed creation leaves no engine; a made one is the only engine and becomes the candidate exactly for the latest attempt of an open controller |
| EngineController.Controller.AfterInitialization | src/pi/engine-controller.ts:196-254 | only a ready, current attempt publishes its engine, never one a stop retired; every other outcome disposes of it and remembers what initialization answered and whether retiring failed; no other engine exists |
| EngineController.Controller.AfterCandidateDrained | src/pi/engine-controller.ts:309-313 | a candidate, still the only engine and without leases, is closed after draining, well or badly |
| EngineController.Controller.AfterCandidateClosed | src/pi/engine-controller.ts:205-243 | after disposal no engine exists; the attempt is inactive exactly if it is current, initialization answered inactive and every disposal step worked; failed exactly if it is current and initialization raised, or answered inactive and a step failed; else superseded |
| EngineController.Controller.AfterAttempt | src/pi/engine-controller.ts:125-134 | the attempt settles with the outcome it returned, and clears itself only if no later one replaced it |
| EngineController.Controller.AdvanceTeardown | src/pi/engine-controller.ts:268-297 | the teardown that moves on is the latest retirement's and the only one, with no lease out; when it is done no engine exists |
| EngineLaws.CurrentIsAlone | src/pi/engine-controller.ts:251-253 | in every reachable state a current engine is the latest attempt's and the only engine, and holds all leases |
| EngineLaws.BusyIsAlone | src/pi/engine-controller.ts:179-254 | in every reachable state an attempt that creates, initializes or disposes does so with no other engine and no lease out, and a retired candidate is not the latest attempt's |
| EngineLaws.TeardownIsAlone | src/pi/engine-controller.ts:268-297 | in every reachable state a teardown under way is the latest and the only one, and drains only with no lease out |
| EngineLaws.CreatesAlone | src/pi/engine-controller.ts:170-181 | in every reachable state an attempt that may create finds no engine anywhere |
| EngineLaws.DisposalAnswers | src/pi/engine-controller.ts:196-254 | over every interleaving, an attempt whose candidate was initialized, drained and closed is superseded unless it is still the latest of an open controller; else inactive exactly if initialization said so and every disposal step worked, and failed otherwise |
| AdmissionModel.NothingRevives | src/pi/checkpoint-admission.ts:151-649 | over every run a proposal implies live authority, and a lease, arrival attempt or permit that stopped being current never is again |
| AdmissionModel.ArrivalEndsLeases | src/pi/checkpoint-admission.ts:248-262 | no lease is current during an arrival or ever after it |
| AdmissionModel.ConsumedArrivalStaysConsumed | src/pi/checkpoint-admission.ts:264-270 | closing, admitting, settling, carrying or cutting over consumes an arrival for good |
| AdmissionModel.OnlyPermitPublishes | src/pi/checkpoint-admission.ts:202-217 | a proposal appears only at the end of the preparation that still holds its permit, from live authority |
| AdmissionModel.StalePermitPublishesNothing | src/pi/checkpoint-admission.ts:197-217 | a preparation cut short by a reset or an arrival publishes nothing whatever follows |
| AdmissionModel.GrantedLeaseIsCurrent | src/pi/checkpoint-admission.ts:400-485 | a granted capture is for the very snapshot and node asked about, is not write protected, and its lease is current |
| AdmissionLaws.DecisionMeans | src/pi/checkpoint-admission.ts:400-464 | what a capture decision answers and changes, from the old state, the snapshot and the node alone |
| CheckpointAdmission.Admission.BeginPreparation | src/pi/checkpoint-admission.ts:166-175 | a permit is drawn under a fresh identity only when none is out, and an older proposal is retired instead |
| CheckpointAdmission.Admission.FinishTreePreparation | src/pi/checkpoint-admission.ts:202-217 | a proposal appears exactly when it is accepted, from live authority and by the current permit; the permit is over for good either way |
| CheckpointAdmission.Admission.ClaimOrdinaryMutation | src/pi/checkpoint-admission.ts:233-246 | claims exactly if no transition owns authority, no proposal is pending and the snapshot stands at the node, replacing authority by a fresh one; past the conflict check every earlier lease is over for good |
| CheckpointAdmission.Admission.BeginTreeArrival | src/pi/checkpoint-admission.ts:248-262 | suspends live authority, with its proposal's plan and source, inside a fresh one-shot attempt; every lease, permit and arrival handed out before is over, now and after any further steps |
| CheckpointAdmission.Admission.SettleArrival | src/pi/checkpoint-admission.ts:527-565 | turns exactly a current attempt at a node its snapshot stands at into fresh live authority, or drops it; the attempt is over for good either way |
| CheckpointAdmission.Admission.CarryArrival | src/pi/checkpoint-admission.ts:349-372 | carries authority exactly to the same anchor of an append-only extension; the attempt is over for good either way |
| CheckpointAdmission.Admission.DecideCapture | src/pi/checkpoint-admission.ts:400-464 | captures exactly if live authority continues to this snapshot and stands at the node's entry or an ancestor of it, and writing is not protected; answers write protection, no coordinate at the root, or not admitted in exactly the other cases; authority moves only to this place, a grant is new and current, and a refusal drops all authority |
| CheckpointAdmission.Admission.LeaseIsCurrent | src/pi/checkpoint-admission.ts:466-486 | a lease authorizes exactly while its authority is live, at this place, and the snapshot continues what it observed |
| CheckpointAdmission.Admission.CutoverMutation | src/pi/checkpoint-admission.ts:488-505 | a live cutover crosses exactly at the same snapshot of the same session, closes all authority and ends every lease for good |
| CheckpointAdmission.Admission.Reset | src/pi/checkpoint-admission.ts:157-160 | drops all authority; every lease, permit and arrival handed out before is over for good |
| AdmissionModel.StaleIsOver | src/pi/checkpoint-admission.ts:151-649 | in a sound state every lease, arrival or permit handed out and not current is over, whatever steps follow |
| LockOrder.OrderedTargets | src/infrastructure/workspace-lock.ts:902-928 | the targets are strictly increasing in device and inode, one per physical store named |
| LockOrder.Deduplicate | src/infrastructure/workspace-lock.ts:905-924 | the first target of each physical store is kept |
| LockOrder.CompareMeansBefore | src/infrastructure/directory-binding.ts:84-93 | on different stores the comparison is the strict order of device, then inode |
| OrderedLocks.Authority.Revoke | src/infrastructure/workspace-lock.ts:310-319 | the first loss sticks and no authority returns to active |
| OrderedLocks.Authority.Close | src/infrastructure/workspace-lock.ts:321-332 | closing is final and keeps an earlier loss |
| OrderedLocks.ReleaseOrdered | src/infrastructure/workspace-lock.ts:930-964 | every authority is closed, first to last, before anything is released; then every lock is released in reverse whatever fails, and the locks kept by a failing release are exactly the ones reported |
| OrderedLocks.RunWithOrderedLocks | src/infrastructure/workspace-lock.ts:967-1036 | the whole log: locks taken in order, the action only with all of them, every authority closed, then every lock released once in reverse, clean and failed releases told apart and the failed ones reported |
| OrderedLocks.GivenBackInReverse | src/infrastructure/workspace-lock.ts:930-964 | in one run's log the i-th lock taken is the i-th closed and the i-th from the end released, and every close precedes every release |
| OrderedLocks.UnreleasedExactly | src/infrastructure/workspace-lock.ts:943-964 | the reported failures are exactly the locks whose release failed |
| LockDeadlock.CycleNeedsDescent | src/infrastructure/workspace-lock.ts:967-1011 | in any state, every cycle of the wait-for graph contains a process waiting for a store that is not above everything it holds |
| LockDeadlock.CycleNeedsRebound | src/infrastructure/workspace-lock.ts:967-1011 | in every reachable state such a process waits for a store other than the one it ordered, at or below one it holds; a rebound to a store above all it holds closes no cycle |
| LockDeadlock.ReboundCycle | src/infrastructure/workspace-lock.ts:985-1000 | a rebound to a store below a held one can close a cycle: two processes reach one |
| LockDeadlock.NoWaitCycle | src/infrastructure/workspace-lock.ts:967-1011 | while no process waits for a store that is not above everything it holds, the wait-for graph of any number of processes has no cycle |
| LockDeadlock.NoDeadlock | src/infrastructure/workspace-lock.ts:967-1036 | while some process is unfinished and none waits for a store that is not above everything it holds, some process can go on without giving up |
| LockDeadlock.TargetsAscend | src/infrastructure/workspace-lock.ts:902-928 | an ordered target list is an ascending list of lock identities |
| Utf8Order.EncodingKeepsOrder | src/infrastructure/utf8-order.ts:2-20 | UTF-8 bytes compare like the scalar sequences they encode (section 1 of RFC 3629) |
| Utf8Order.EncodingDecodes | src/infrastructure/utf8-order.ts:2-20 | the byte encoding of a scalar decodes to it and is the shortest (section 3 of RFC 3629) |
| Utf8Order.CompareUtf8 | src/infrastructure/utf8-order.ts:2-20 | the sign is that of byte-lexicographic comparison of the UTF-8 encodings, with lone surrogates as U+FFFD |
| Utf8Order.EqualOnlyWhenSame | src/infrastructure/utf8-order.ts:2-20 | well-formed strings compare equal only when they are the same |
| Utf8Order.EqualExactly | src/infrastructure/utf8-order.ts:2-20 | two strings compare equal exactly when they have the same scalars, lone surrogates read as U+FFFD |
| Utf8Order.ToldApartExactly | src/infrastructure/utf8-order.ts:2-20 | the order tells a string apart from every other exactly when it is well formed and lacks U+FFFD |
| Utf8Order.LoneSurrogatesCollide | src/infrastructure/utf8-order.ts:2-20 | a lone surrogate and U+FFFD compare equal though different |
| Utf8Order.Utf16RoundTrip | src/infrastructure/utf8-order.ts:2-20 | well-formed UTF-16 text is recovered from its scalars (section 2.2 of RFC 2781) |
| ScopeSources.CanonicalizeSources | src/infrastructure/workspace-scope.ts:388-393 | sorting and comparing neighbours accepts exactly the lists of pairwise distinct paths and returns them sorted |
| ScopeSources.CanonicalOrderUnique | src/infrastructure/workspace-scope.ts:388-393 | the accepted order does not depend on the order the sources came in |
| ScopeSources.NeighbourCheckExact | src/infrastructure/workspace-scope.ts:388-393 | comparing neighbours is right for every sorted list over some paths exactly when the order tells those paths apart |
| ScopeSources.IllFormedDuplicatePasses | src/infrastructure/workspace-scope.ts:388-393 | on the sorted list [D800], [FFFD], [D800] the neighbour check misses the duplicate |
| RecordFramer.ChunkingIrrelevant | src/infrastructure/git-ignore-oracle.ts:960-1002 | the framer yields the same records and fragment under every chunking |
| RecordFramer.NoFragmentAtBoundaries | src/infrastructure/git-ignore-oracle.ts:996-1002 | there is no fragment exactly when the stream is a sequence of whole records |
| RecordFramer.FeedInverts | src/infrastructure/git-ignore-oracle.ts:960-1002 | encoding the emitted records and the open fragment gives the stream back |
| RecordFramer.NulRecordFramer.Push | src/infrastructure/git-ignore-oracle.ts:960-995 | pushing a chunk emits exactly what feeding its bytes one by one would |
| OracleProtocol.IsPositiveDecimalLine | src/infrastructure/git-ignore-oracle.ts:1004-1012 | accepts exactly the positive decimal line numbers |
| OracleProtocol.CompleteResponseAnswers | src/infrastructure/git-ignore-oracle.ts:1292-1350 | under every chunking a response with exactly the expected records resolves its query with the same answers, and leaves no query pending and an empty framer; the connection fails afterwards exactly when the last chunk is empty |
| OracleProtocol.ResolvesExactly | src/infrastructure/git-ignore-oracle.ts:1292-1350 | a query resolves exactly when the chunks begin with a complete response, one proper record for each path in order, and its answers are that response's verdicts; nothing malformed, misdirected, missing or trailing resolves it |
| OracleProtocol.EmptyChunkAfterCompletionFails | src/infrastructure/git-ignore-oracle.ts:1292-1350 | one path's answer resolves the query whole, after an empty chunk and before one; only the last of these fails the connection |
| OracleProtocol.ResolvedInFull | src/infrastructure/git-ignore-oracle.ts:1292-1350 | whatever arrives, a query that is no longer pending was resolved with one answer for each expected path, also when the connection fails later |
| GitIgnoreOracle.OracleConnection.OnStdout | src/infrastructure/git-ignore-oracle.ts:1292-1350 | one chunk advances, resolves or fails the pending query as the protocol state demands |
| GitIgnoreOracle.OracleConnection.StartQuery | src/infrastructure/git-ignore-oracle.ts:1204-1226 | a query starts exactly when nothing is pending and the framer is empty |
| GitIgnoreOracle.NextQueryStartsClean | src/infrastructure/git-ignore-oracle.ts:1207-1211 | after a complete response the next query starts with an empty framer |
| GitIgnoreOracle.WriteInput | src/infrastructure/git-ignore-oracle.ts:1244-1266 | the written chunks concatenate to the encoded paths, bounded, never splitting a path |
| GitIgnoreOracle.Delegate | src/infrastructure/git-ignore-oracle.ts:1170-1179 | exactly the representable paths are delegated, in order, with their positions |
| GitIgnoreOracle.PlaceAnswers | src/infrastructure/git-ignore-oracle.ts:1161-1195 | each answer lands at its own query's index and the other paths are unmanaged |
| GitIgnoreOracle.OracleConnection.Ask | src/infrastructure/git-ignore-oracle.ts:1204-1242 | an idle connection answers exactly when the chunks begin with a complete response, with its verdicts; after a whole response it is idle again exactly when the last chunk is not empty |
| GitIgnoreOracle.OracleConnection.ManagedPaths | src/infrastructure/git-ignore-oracle.ts:1161-1195 | from delegation to placement: there are results exactly when the chunks begin with a complete response for the delegated paths; path i then gets the verdict of its own record, and paths that cannot be represented are unmanaged |
| ScanModel.FirstClaimantWins | src/infrastructure/workspace-scan.ts:886-1081 | a claimed portable key stays with its first successful claimant |
| ScanLaws.ScanAccounts | src/infrastructure/workspace-scan.ts:886-1081 | every candidate reached is accounted for once, in order, as excluded, entered, recorded or a problem; the owners are exactly the entered and recorded claimants, no key is claimed twice, and a collision is reported exactly with the earlier claimant; a scan fails exactly at a raised read or an entry over the limit |
| WorkspaceScan.DeferRead | src/infrastructure/workspace-scan.ts:886-1081 | leaving a readable file pending amounts to handling it now |
| WorkspaceScan.Walk | src/infrastructure/workspace-scan.ts:886-1081 | the batched loop agrees with one-at-a-time handling up to the order of problems, and from no owners accounts for every candidate reached or ends at a raised read or an entry over the limit |
| WorkspaceScan.ScanStep | src/infrastructure/workspace-scan.ts:886-1081 | after every candidate the pending reads stand for what sequential handling did, and fewer than eight of them are left |
| FailureSettlement.AggregateFailures | src/infrastructure/failure-settlement.ts:46-56 | on any graph, even a cyclic one, flattening ends and equals the recursive specification |
| FailureSettlement.PrimaryFailure | src/infrastructure/failure-settlement.ts:2-15 | the walk along first members ends on any graph, even a cyclic one, and stops where the specification does |
| FailureSettlement.AppendAllStartsWithFirst | src/infrastructure/failure-settlement.ts:25-56 | the first flattened failure of a non-empty list is the primary failure of its first element |
| FailureSettlement.FlatteningLosesNothing | src/infrastructure/failure-settlement.ts:25-56 | every plain failure reachable through any nesting or cycle is reported |
| FailureSettlement.FlatteningInventsNothing | src/infrastructure/failure-settlement.ts:25-56 | every reported failure is reachable from the list |
| FailureSettlement.FlatteningExact | src/infrastructure/failure-settlement.ts:25-56 | the plain failures reported are exactly the reachable ones |

## Left out

- Large-legacy materialization: collection is proved for runs in which no large legacy blob has to be materialized first.
- Delta, saved-byte, capacity and decoded-size heuristics: their outcomes are parameters, and the collection laws hold for all of them.
- GcRun.CollectGarbage: assumes that published replacement packs hold the requested records, that packs are self-contained, and that the re-authenticated mark equals the planning mark when the roots did not drift; the content of the pack index is not modelled, only that writing it may fail.
- GcTiers.GroupFor: packs of a tier are taken in inventory order, not sorted by pack id.
- GcTiers.ExtendWithGroup: whether the added records fit the decoded-byte budget is a parameter, and the refusal of duplicate records with inconsistent decoded lengths is not modelled.
- GcPasses.SelectWithinBudget: records are admitted in any order, not sorted by key.
- GcPasses.BoundDecodedBytes: decoded lengths are a parameter, and which records over the budget are dropped is free.
- GcRun.PlanRewrites: whether the replacement packs fit the additive capacity is a parameter, as are the packs planned for a set of records.
- GcRun.PlanSweep: the root check before planning is the caller's, `GcRun.CollectGarbage`.
- MetadataStore.Connection.FinalizeSessionProjection: the source's write authority in a fork is not modelled.
- RestorePlan.PlanWorkspaceRestore: result arrays are not sorted, and content is compared as the source does, without recreation modes and symlink kinds.
- ApplyTree.ApplyTreeToWorkspace: case and Unicode path aliases, directory recasing and the Windows branches are not modelled; inode and timestamp checks appear only as checks that may fail, since nobody else writes to the modelled filesystem; the order of equally deep paths is free.
- ApplyRun.Apply.PrepareTemporary: a random temporary name that is already taken counts as a fault.
- `preflightReplacementNamespace` (src/infrastructure/apply.ts:900-1043): it only reads, and appears as a refusal that may happen before any mutation.
- StreamWindow.StreamBlobIntoHandle: the digest is a function passed in; chunk hashing is not modelled step by step.
- MetadataRuns.FenceExact: forgetting a session is an environment step that clears its rows, advances its epoch and marks a reset pending; the code that forgets is not part of this model.
- SQLite, native locks, timers, subprocesses, diagnostics and standard error: replaced by abstract state and nondeterministic failures.
- ScopeSources.CanonicalizeSources: the library sort is an insertion sort with the same contract; byte totals and the path checks of `canonicalWorkspaceRelativePath` are left out.
- LockOrder.SortTargets: stands for the library sort with the source's comparison.
- WorkspaceScan.Walk: directory stability checks, progress reports and aborts are left out, and reads have deterministic outcomes.
- AdmissionModel.Next: comparisons between session snapshots are functions of the two snapshots, and one that raises counts as false where the source catches it; `arrivalCanCommitPlannedTarget` (src/pi/checkpoint-admission.ts:296-323), which only reads, is not modelled.
- EngineModel.Next: failure causes are not modelled, only whether something failed.
- OrderedLocks.AcquireOrdered: acquiring one lock is an outcome: failure, or a store that may not be the one ordered.
- LockDeadlock.NoDeadlock: time limits appear only as a process giving up.
- Git ignore rules, pack and tree codecs, user interface, configuration and event adapters: easy case tables or code with no law of its own.
