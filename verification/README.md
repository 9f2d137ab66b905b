# Helios Horizon: verified models

Helios Horizon runs game servers on a small host: it backs them up, restores them, keeps remote
copies, wakes a sleeping server on behalf of a proxy, previews cron schedules in the browser and
watches performance. This project models the parts of it in which a short algorithm has to keep a
promise over every run, every crash point or every input, and proves those promises.

Verify everything with `dafny verify dfyconfig.toml` (Dafny 4.11).

| file | part of the system |
|---|---|
| Restore | crash-safe restore of several data roots with a durable journal |
| Protection | upload, verify and prune of one archive at a time |
| RemoteRetention, RetentionPlanner, RetentionApply, RetentionRuns | the fail-closed retention planner, its executor, and interrupted runs of both |
| Capability, CapabilityStore, RateLimit, WakeProtocol, Idempotency | the capability store, its limits, the wake protocol with its retrying client, and what a request id means over a run |
| Calendar, CronSearch, CronParser, CronPreview | the cron parser and the next-fire search of the schedule preview, and what an expression means |
| ScheduleFence | the revision fence between schedule reads and saves |
| SlidingWindow, Alerts | performance alerts from bounded sample windows |
| VaultPlan, VaultPlanner | candidate enumeration for the content-addressed laptop vault |
| RollingPeak | the busiest 30 seconds of a boot journal and the rate limit derived from it |
| GcFeed | the incremental GC log reader |
| Ranking, Wrappers | "the newest k" of a finite set, sorting, and optional values, shared by the others |

How the world is modelled:

- Renames, journal rewrites, uploads and deletes are atomic; a recursive removal is not, and may be
  cut off half way. `verify` succeeds exactly when contents are equal. Crashes, exceptions and
  failing remote calls are decided by a `script` that the contracts quantify over.
- `Calm()` says that the rest of the script disturbs nothing; it is used only to state that an
  undisturbed run succeeds.
- Protocols are state machines: a run is an arbitrary sequence of events, and the main lemmas
  quantify over all of them.
- Times are integers (reals for alert samples); digests, ids and canonical texts are values that are
  equal exactly when the original's are.

## What the proofs found

Four promises do not hold for every input. The code is modelled as it is, and the exact condition is
proved in each case.

- **`rollback` of a restore** removes the published tree of a root that did not exist before with
  errors ignored, and then deletes the journal. Such a root can stay half removed with nothing left
  to recover it. `Restore.RestoreService.Rollback` gives back every original state if and only if no
  removal error strikes a root that did not exist; `Restore.RollbackLeavesHalfARoot` shows one.
- **A ready retention plan can be refused for ever.** The planner accepts a surplus remote
  generation whose catalog flag is already cleared, but the executor's row check demands that it is
  still set. `RetentionApply.Executor.Apply`: a run returns only if, and undisturbed exactly if, every
  pruned generation is still flagged and no archive exceeds the inventory's 8 GiB bound.
  `RetentionRuns.ReadyButNotApplicable` builds the refused plans, and `RetentionRuns.RefusedForEver`
  follows one of them through any number of runs.
- **Protecting an old archive can delete it and still report success.** `Protection.B2Protection.Protect`:
  after a call that returns, the archive's own object is remote if and only if, before the call, fewer
  than two verified listed rows ranked before it. `Protection.OldArchiveIsLost` shows such an archive.
- **Chunking can matter to the GC reader.** Carriage returns are stripped before a complete line is
  measured but not before an unfinished one is. `GcFeed.ChunkableExactly`: a stream can be cut into
  chunks in any way without a failure if and only if every line, carriage returns included, and the
  unfinished line are within the limit; `GcFeed.ReturnsMakeChunkingMatter` gives the failing family.

## Model

| member | source | states |
|---|---|---|
| `Restore.ResolvesToOneGeneration` | src/game_control/backups.py:1466-1497 | a disk that satisfies the durable invariant resolves every root to one generation: the original one, or the new one exactly when the journal reached `committed` |
| `Restore.OriginalSurvives` | src/game_control/backups.py:1304-1341 | before the commit every root that existed has its complete tree at its destination or at the rollback path its journal names |
| `Restore.InterruptedIsRecoverable` | src/game_control/backups.py:1304-1328 | every state between two operations of the displacement and publication loops satisfies the durable invariant |
| `Restore.RestoreService.WriteJournal` | src/game_control/backups.py:2019-2028 | the journal is replaced atomically or not at all, even when the call raises or dies; success means replaced |
| `Restore.RestoreService.Prepare` | src/game_control/backups.py:1285-1289 | staging directories and first journal: destinations untouched and recoverable wherever it stops |
| `Restore.RestoreService.Extract` | src/game_control/backups.py:1290-1298 | extraction completes every staging tree or leaves a recoverable disk with destinations untouched |
| `Restore.RestoreService.DisplaceRoot` | src/game_control/backups.py:1305-1320 | one turn of displacement: wherever it is cut off, what the exception handler knows matches the disk |
| `Restore.RestoreService.DisplaceAll` | src/game_control/backups.py:1305-1320 | the displacement loop: success displaces every root; wherever it is cut off the handler sees exactly what was displaced |
| `Restore.RestoreService.PublishRoot` | src/game_control/backups.py:1322-1328 | one turn of publication: wherever it is cut off, the recorded list is exactly what was published |
| `Restore.RestoreService.PublishAll` | src/game_control/backups.py:1322-1328 | the publication loop: success publishes every root; wherever it is cut off the recorded list is exactly what was published |
| `Restore.RestoreService.Publish` | src/game_control/backups.py:1304-1328 | both loops: success publishes every root; any failure leaves an interrupted state the handler and recovery understand |
| `Restore.RestoreService.RemovePublished` | src/game_control/backups.py:1330-1334 | the handler's first loop stays recoverable wherever it stops and removes exactly what was published |
| `Restore.RestoreService.MoveBack` | src/game_control/backups.py:1335-1340 | the handler's second loop stays recoverable wherever it stops and gives back every displaced original |
| `Restore.RestoreService.Undo` | src/game_control/backups.py:1329-1341 | the exception handler keeps the durable invariant wherever it stops, and gives back every original state when it finishes |
| `Restore.RestoreService.CleanStagings` | src/game_control/backups.py:1357-1364 | cleanup with errors ignored never raises and touches staging paths only; undisturbed it leaves no staging directory |
| `Restore.RestoreService.Activate` | src/game_control/backups.py:1290-1356 | extraction, displacement and publication under the handler, then the `activated` write: if one exception is all that happens before that write, every root is back; at that write, every root is published |
| `Restore.RestoreService.RestoreRoots` | src/game_control/backups.py:1285-1364 | `restore` keeps the durable invariant at every crash point; returning means all roots published under `activated`; if one exception is all that happens, the call raises exactly if it strikes up to the `activated` write: before it every root is back in place (and no staging directory is left once they are journalled), at it every root is published, and later it goes unnoticed |
| `Restore.RestoreService.Finalize` | src/game_control/backups.py:1370-1393 | commit, then delete originals: recoverable at every crash point, and complete success leaves only the new generation |
| `Restore.RestoreService.Rollback` | src/game_control/backups.py:1395-1410 | gives back every original state if and only if no ignored removal error struck a root that did not exist |
| `Restore.RollbackLeavesHalfARoot` | src/game_control/backups.py:1395-1410 | from a fresh disk without the root, an undisturbed restore and rollback ignoring one removal error leave the root half removed and no journal |
| `Restore.RestoreService.RecoverRoot` | src/game_control/backups.py:1466-1497 | recovery of one undecided root reaches its original state and leaves no staging or rollback path |
| `Restore.RestoreService.ReconcileRoot` | src/game_control/backups.py:1429-1497 | per phase, one root reaches its target with staging and rollback gone, or stays recoverable |
| `Restore.RestoreService.Reconcile` | src/game_control/backups.py:1412-1507 | a completed run leaves what the found disk resolves to, no journal, no staging, no rollback; a run cut off anywhere leaves a disk that resolves to the same; a malformed journal is refused and nothing is touched |
| `Restore.RestoreService.Lifetime` | src/game_control/backups.py:1285-1507 | restore, commit or rollback, then any number of recoveries, all crashing anywhere: unless a rollback returned the disk is recoverable wherever it stops; before the commit every original survives; a settled disk has no journal and no rollback directory, no staging directory once a journal was durable, and every root new exactly when `committed` was durable and otherwise original, except a root whose removal error a rollback ignored |
| `Protection.AfterNewest` | src/game_control/backups.py:470-473 | sorting newest first and cutting after two leaves exactly the rows that are not the newest two |
| `Protection.DoomedIsSuperseded` | src/game_control/backups.py:470-473 | a row after the newest two has two other verified listed rows at least as new |
| `Protection.EveryDeletionIsSafe` | src/game_control/backups.py:429-475 | in a safe history every deletion follows its own call's upload, verification and listing, in this order and with no other upload since; at the listing the removed row and two others at least as new all had `remote_verified`, a `verified` comparison and an object in that prefix |
| `Protection.VerifiedMeansChecked` | src/game_control/backups.py:429-456 | in a safe history a row that calls its archive verified was saved after an upload and a successful verification of that archive, with no other upload in between |
| `Protection.DoomedAreOutranked` | src/game_control/backups.py:458-475 | what the prune of the admitted state deletes are exactly the verified listed generations of the state before the call, and the archive, that two others rank before |
| `Protection.SurvivesExactly` | src/game_control/backups.py:458-475 | stated on the rows and objects before the call: a verified listed generation, or the archive itself, keeps its object exactly when fewer than two rank before it |
| `Protection.AtMostTwoRemain` | src/game_control/backups.py:470-475 | after a call that returns at most two rows of the prefix are verified and still have their objects |
| `Protection.TiesDecideTheRest` | src/game_control/backups.py:470-473 | whatever the database order, an archive survives when fewer than two others are at least as new and is deleted when two are newer |
| `Protection.OldArchiveIsLost` | src/game_control/backups.py:447-456 | from a concrete state with two newer generations, for every database order, an undisturbed call returns and its row says that everything succeeded while the object is gone |
| `Protection.B2Protection.RemoveRow` | src/game_control/backups.py:474-475 | success deletes the object and marks its row; failure leaves everything, or only the object is gone; the history records exactly what happened |
| `Protection.B2Protection.RemoveAll` | src/game_control/backups.py:473-475 | wherever it stops, only objects of listed rows are gone, only listed rows are marked and nothing else changed; on success exactly all of them; the history still explains every row and object |
| `Protection.B2Protection.List` | src/game_control/backups.py:459-469 | the listing changes nothing and succeeds only if the current archive is verified and listed |
| `Protection.B2Protection.Prune` | src/game_control/backups.py:458-475 | wherever it stops, only verified listed rows after the newest two lose their object or are marked; success removes and marks exactly those, and requires the current archive to be a verified listed row |
| `Protection.B2Protection.Send` | src/game_control/backups.py:429-437 | success appends save and upload to the history and leaves the object with the archive's content; failure changes no object and leaves the own row as it was, pending or `upload_failed` |
| `Protection.B2Protection.Check` | src/game_control/backups.py:438-447 | success appends save, verify, save and reaches the admitted state; failure changes no object and leaves the own row as it was, sent or `remote_check_failed` |
| `Protection.B2Protection.Admit` | src/game_control/backups.py:429-447 | success appends exactly save, upload, save, verify, save to the history, leaves the object with the archive's content and permits the prune to list; failure touches nothing but the own row and object |
| `Protection.B2Protection.Protect` | src/game_control/backups.py:409-456 | wherever it stops, only objects of generations that two verified listed ones rank before are gone, and of the other rows only theirs are marked; an unavailable or unverified archive leaves the objects alone; success determines every row and object, keeps each generation exactly if fewer than two ranked before it in the state before the call, the archive included, and leaves at most two |
| `Protection.B2Protection.ProtectAll` | src/game_control/backups.py:409-475 | over every sequence of calls, failing ones included, the history explains every row and object, every deletion in it is safe, and no row calls an archive verified that was not |
| `RemoteRetention.RetainedCount` | src/game_control/backup_reconcile.py:620-622 | the retention set of a profile has min(2, n) generations |
| `RemoteRetention.RetentionIsExact` | src/game_control/backup_reconcile.py:742-750 | remote plus uploads minus deletions is the retention set, so the planner's last check refuses nothing new |
| `RemoteRetention.ReadyMeansAccepted` | src/game_control/backup_reconcile.py:1097-1212 | a plan built from a world is ready exactly when the world itself satisfies the acceptance rules |
| `RemoteRetention.ResumeReachesTheSameTarget` | src/game_control/backup_reconcile.py:890-951 | after any part of the uploads and deletions, re-planning from fresh evidence is ready and aims at the same remote set and rows |
| `RemoteRetention.TargetIsExact` | src/game_control/backup_reconcile.py:939-951 | the target: remote objects are the newest min(2, n), exactly those are flagged and have live rows, every other row is marked deleted |
| `RemoteRetention.NewestTwoAreTarget` | src/game_control/backup_reconcile.py:611-740 | in terms of the tables: a run that returns leaves a generation remote and flagged exactly when fewer than two backups of its profile have a later id, with the local archive as its object |
| `RemoteRetention.OrphansAreFewAndOld` | src/game_control/backup_reconcile.py:611-632 | a ready world has at most one uncatalogued object per profile, older than every kept generation |
| `RemoteRetention.TargetRowKept` | src/game_control/backup_reconcile.py:1054-1094 | a kept generation has a row that is not marked deleted |
| `RemoteRetention.TargetRowOther` | src/game_control/backup_reconcile.py:1009-1051 | a row of a generation that is not kept is marked deleted |
| `RemoteRetention.PlanningIsAFixpoint` | src/game_control/backup_reconcile.py:611-785 | planning again after a completed run is ready and has no imports, flag corrections, replacements, prunes or row corrections |
| `RetentionPlanner.Index` | src/game_control/backup_reconcile.py:1215-1230 | refuses exactly unknown and duplicate rows and indexes the first row of every generation |
| `RetentionPlanner.CheckCatalog` | src/game_control/backup_reconcile.py:260-267 | the loop collects exactly the refusals of the single rows, and none exactly when every catalog row is sound |
| `RetentionPlanner.CheckRemote` | src/game_control/backup_reconcile.py:269-303 | the loop collects each refusal exactly when some listed object causes it, none exactly when all are matched or proven orphans, and then the orphans are exactly those |
| `RetentionPlanner.CheckActive` | src/game_control/backup_reconcile.py:305-329 | the loop collects exactly the refusals of the single live rows, and none exactly when every row is proven |
| `RetentionPlanner.CheckDeleted` | src/game_control/backup_reconcile.py:606-609 | each refusal exactly when some deleted row has no catalog generation or is not proven |
| `RetentionPlanner.PlanRemote` | src/game_control/backup_reconcile.py:652-675 | a kept generation with a remote object is refused exactly when unproven, and otherwise enters exactly the lists it belongs to |
| `RetentionPlanner.PlanKept` | src/game_control/backup_reconcile.py:647-694 | the same for every kept generation, replacements included |
| `RetentionPlanner.PlanOther` | src/game_control/backup_reconcile.py:696-740 | the same for every other catalog generation |
| `RetentionPlanner.KeptAreSortedPrefix` | src/game_control/backup_reconcile.py:620-622 | the first two of the descending sort are exactly the newest two |
| `RetentionPlanner.OrphansFitWhen` | src/game_control/backup_reconcile.py:616-632 | the orphan checks pass exactly when there is at most one orphan and it is older than everything kept |
| `RetentionPlanner.PlanGenerations` | src/game_control/backup_reconcile.py:647-740 | after a profile's loops the lists are complete and the refusals say whether all its generations were accepted |
| `RetentionPlanner.PlanProfile` | src/game_control/backup_reconcile.py:611-740 | the same with the orphan rules of the profile |
| `RetentionPlanner.PlanProfiles` | src/game_control/backup_reconcile.py:611-740 | the same for all fixed profiles |
| `RetentionPlanner.ListOrphans` | src/game_control/backup_reconcile.py:279-287 | the orphans, each once, with the listed size |
| `RetentionPlanner.PlanEvidence` | src/game_control/backup_reconcile.py:579-785 | ready exactly when the evidence is acceptable, and then the lists are exactly those of the evidence |
| `RetentionPlanner.Reconcile` | src/game_control/backup_reconcile.py:229-360 | ready exactly when the three lists are well formed and their evidence is acceptable |
| `RetentionApply.InsertRows` | src/game_control/backup_reconcile.py:1054-1094 | a proven row stays, a missing one is created, anything else stops the transaction |
| `RetentionApply.MarkDeleted` | src/game_control/backup_reconcile.py:1009-1051 | exactly the listed rows are marked deleted, and it fails exactly when one does not match |
| `RetentionApply.SetFlags` | src/game_control/backup_reconcile.py:964-995 | exactly the listed flags change, and it fails exactly when one does not match |
| `RetentionApply.InsertAll` | src/game_control/backup_reconcile.py:962-1008 | for a ready plan both insertions succeed and every kept generation has its row |
| `RetentionApply.TransitionRows` | src/game_control/backup_reconcile.py:996-1051 | for a ready plan the row updates succeed and produce the target rows |
| `RetentionApply.TransitionBackups` | src/game_control/backup_reconcile.py:964-995 | for a ready plan the flag corrections succeed and produce the target flags |
| `RetentionApply.RowChecks` | src/game_control/backup_reconcile.py:829-889 | a ready plan passes the row checks exactly when every generation it prunes is still flagged |
| `RetentionApply.Executor.Inventory` | src/game_control/backup_reconcile.py:1428-1441 | the sizes of all remote objects, refused exactly when one is out of bounds |
| `RetentionApply.Executor.UploadOne` | src/game_control/backup_reconcile.py:900-915 | success means the remote object equals the local archive; nothing else changes |
| `RetentionApply.Executor.Upload` | src/game_control/backup_reconcile.py:899-915 | wherever it stops, some of the missing generations were copied; on success all |
| `RetentionApply.Executor.Delete` | src/game_control/backup_reconcile.py:922-928 | wherever it stops, some of the planned objects are gone; on success all |
| `RetentionApply.Executor.Send` | src/game_control/backup_reconcile.py:890-920 | nothing is deleted, and success means all kept generations are remote and the inventory matches |
| `RetentionApply.Executor.Drop` | src/game_control/backup_reconcile.py:922-937 | deletions and final inventory: some planned objects are gone, on success exactly the planned ones |
| `RetentionApply.Executor.Exchange` | src/game_control/backup_reconcile.py:890-937 | an object disappears only when everything kept is already remote and every size is in bounds; success leaves exactly what is kept |
| `RetentionApply.Executor.Commit` | src/game_control/backup_reconcile.py:939-951 | the transaction reaches the target or changes nothing, and may be cut off before or after it |
| `RetentionApply.Executor.Apply` | src/game_control/backup_reconcile.py:818-951 | under every disturbance: returning means the target was reached and the plan was applicable; otherwise the target was reached (cut off after the commit) or the database is untouched and the remote part way; an inapplicable plan never changes the database and deletes nothing; undisturbed it returns if and only if applicable |
| `RetentionRuns.BuildPlan` | src/game_control/backup_reconcile.py:1097-1212 | capturing the three lists and reconciling them is ready exactly when the world is acceptable, and then gives the plan of its evidence |
| `RetentionRuns.IndexOfListing` | src/game_control/backup_reconcile.py:1215-1230 | indexing a listing of known generations gives the table back and refuses nothing |
| `RetentionRuns.CapturedIsEvidence` | src/game_control/backup_reconcile.py:1097-1212 | the captured lists, indexed, are the evidence of the world |
| `RetentionRuns.StillApplicable` | src/game_control/backup_reconcile.py:829-951 | a plan that could be applied still can after any interruption |
| `RetentionRuns.StillNotApplicable` | src/game_control/backup_reconcile.py:829-951 | a plan that cannot be applied still cannot after the uploads that such a run may make |
| `RetentionRuns.TargetIsStable` | src/game_control/backup_reconcile.py:890-951 | after a commit no part of a further exchange changes the world |
| `RetentionRuns.RunStaysOnTheWay` | src/game_control/backup_reconcile.py:579-951 | after a run cut off anywhere, before or after its commit, the next plan is ready and aims at the same target |
| `RetentionRuns.RunUntilDone` | src/game_control/backup_reconcile.py:579-951 | after any number of runs, each planned afresh and cut off anywhere, before or after its commit, the world is ready and on the way to the same target; a run that returns reached what one undisturbed run would have; an inapplicable plan never returns and never changes the database |
| `RetentionRuns.ReadyButNotApplicable` | src/game_control/backup_reconcile.py:879-889 | clearing the flag of any generation that a ready plan prunes keeps the plan ready and makes it inapplicable |
| `RetentionRuns.OrderlyIsReady` | src/game_control/backup_reconcile.py:579-785 | a concrete world of three generations in good order is ready |
| `RetentionRuns.RefusedForEver` | src/game_control/backup_reconcile.py:879-889 | from that world with one flag cleared the plan is ready, yet no number of runs, however disturbed, returns or changes the database |
| `Capability.RetentionIsExact` | src/game_control/capability.py:315-375 | a pass that is not skipped keeps exactly the successful status rows of the last ten minutes, of those the newest 128 per token, of those the newest 4096 |
| `Capability.RetentionKeepsOthers` | src/game_control/capability.py:315-375 | skipped or not, no pending, failed, wake or tps row is removed or changed |
| `Capability.RetentionByRow` | src/game_control/capability.py:315-375 | row by row, with the fields written out: a pass, skipped within a minute of the last, removes a row exactly when it is a completed successful status row that is older than ten minutes, or not among its token's newest 128, or not among the newest 4096 of those |
| `Capability.RetentionIsBounded` | src/game_control/capability.py:354-375 | what is kept is at most 4096 rows and at most 128 per token |
| `CapabilityStore.TokenStore.ConsumeBudget` | src/game_control/capability.py:524-553 | the conditional update of the token, and no other token changes |
| `CapabilityStore.TokenStore.BeginRequest` | src/game_control/capability.py:555-599 | the whole new state of both tables and the answer are those of `Begin`, whose meaning over every run the `Idempotency` lemmas state |
| `CapabilityStore.TokenStore.PruneStatusRetention` | src/game_control/capability.py:315-375 | the three deletions in order, skipped within the maintenance interval |
| `CapabilityStore.TokenStore.CompleteRequest` | src/game_control/capability.py:601-620 | only a pending row is completed, an oversized body is stored as a failure, then retention runs |
| `CapabilityStore.WakeAndWait` | src/game_control/lazymc.py:149-170 | the first decisive attempt before the deadline decides; it returns normally exactly on a ready body, and then the store of the run that delivered it holds a completed ready response for its id; it times out only at the deadline |
| `RateLimit.GrantKeepsRate` | src/game_control/capability.py:540-553 | an accepted request keeps windows a window length apart and within budget |
| `RateLimit.WakeKeepsApart` | src/game_control/capability.py:524-539 | an accepted wake is at least the cooldown after every earlier one |
| `RateLimit.TwoWindows` | src/game_control/capability.py:540-553 | any interval of one window length meets at most two rate windows |
| `RateLimit.AtMostTwiceTheBudget` | src/game_control/capability.py:524-553 | any interval of one window length holds at most twice the budget |
| `WakeProtocol.BeginKeeps` | src/game_control/capability.py:555-599 | `begin` never drops a pending row, a wake row or a ready answer, and accepts only ids without a wake row |
| `WakeProtocol.CompleteKeeps` | src/game_control/capability.py:601-620 | `complete` with its retention pass keeps every other pending row, every wake row and every ready answer |
| `WakeProtocol.StepKeepsTables` | src/game_control/capability.py:694-859 | every event keeps: one task per pending row, no repeated start, ready replies only for stored ready answers |
| `WakeProtocol.StepKeepsLimits` | src/game_control/capability.py:524-553 | every event keeps the rate and cooldown history of every token |
| `WakeProtocol.RunKeepsInv` | src/game_control/capability.py:555-859 | both hold after every sequence of events |
| `WakeProtocol.AtMostOneStart` | src/game_control/capability.py:694-859 | over every interleaving of retries, losses, concurrent requests and server stops, at most one Start per token and wake request id |
| `WakeProtocol.ReturnsOnlyWhenReady` | src/game_control/lazymc.py:149-170 | over every run the client returns only if the store holds a completed ready response for its id |
| `WakeProtocol.WakingReplyIsBacked` | src/game_control/capability.py:842-859 | over every run a reply that wakes a client is backed by a completed ready response in the store |
| `WakeProtocol.LimitsHold` | src/game_control/capability.py:524-599 | over every run each window holds at most the budget, any window-long interval at most twice the budget, and accepted wakes are a cooldown apart |
| `Idempotency.RunTells` | src/game_control/capability.py:555-620 | over every run each row of the table holds the request, time and bounded answer of the last admission of its id |
| `Idempotency.SameIdSameAnswer` | src/game_control/capability.py:555-590 | over every run, while an id has a row: a different request is refused as a conflict, the same request waits for the answer of its admission and then gets exactly that answer until it expires, and nothing but the replies changes |
| `Idempotency.FreshIdIsAdmittedExactly` | src/game_control/capability.py:524-599 | over every run a request without a row in the way is admitted exactly when its limit allows it: earlier wakes a cooldown ago, or the rate window over or not full; otherwise it gets 429 with the reason |
| `Idempotency.InactiveTokenIsRefused` | src/game_control/capability.py:480-507 | a request under an unknown, revoked or expired token gets 401 and changes nothing but the replies |
| `Idempotency.InactiveForEver` | src/game_control/capability.py:469-507 | over every run the terms of a token never change, it is revoked exactly if a revocation came, and a revoked or expired token never becomes active again |
| `Calendar.NextDay` | web/app.js:3807-3807 | advancing the UTC date by one day and counting days agree for every day, past and future |
| `Calendar.RoundTrip` | web/app.js:3802-3802 | `Date.UTC` of the UTC getters of a day gives that day back |
| `Calendar.YearLength` | web/app.js:3802-3802 | the closed form of `Date.UTC` gives every year its 365 or 366 days |
| `Calendar.MonthsBegin` | web/app.js:3802-3802 | how many days of a year come before each month, as a table |
| `Calendar.WeekdaysAdvance` | web/app.js:3799-3799 | weekdays advance by one and repeat every seven days, from known days |
| `CronSearch.ScanFindsEarliest` | web/app.js:3789-3810 | the minute-by-minute reference finds the earliest matching minute, or nothing exactly when there is none |
| `CronSearch.RoundedStart` | web/app.js:3792-3793 | the first whole minute at or after an instant |
| `CronSearch.SearchDay` | web/app.js:3800-3805 | the two inner loops find the earliest allowed time of a day within the bounds, if any |
| `CronSearch.NextFire` | web/app.js:3789-3810 | the day-skipping search returns the earliest matching minute within the horizon, equals the minute-by-minute scan, and terminates |
| `CronParser.SplitJoin` | web/app.js:3771-3771 | splitting a joined list gives the list back |
| `CronParser.JoinSplit` | web/app.js:3771-3771 | joining a split text gives the text back |
| `CronParser.MatchIsExact` | web/app.js:3772-3773 | the regular expression matches exactly the renderings of well-formed parts, each in one way |
| `CronParser.AddValues` | web/app.js:3782-3782 | the value loop adds exactly the arithmetic progression |
| `CronParser.ParseField` | web/app.js:3770-3783 | a field parses to the union of its parts' values, and to nothing exactly when a part is malformed or out of range |
| `CronParser.ParseExpression` | web/app.js:3762-3787 | five fields, each with its limits, or nothing; what is accepted is in range for the search |
| `CronParser.FieldRoundTrip` | web/app.js:3770-3783 | parsing the rendering of any parts gives exactly their values |
| `CronParser.FieldIsRendered` | web/app.js:3770-3783 | every field that parses is the rendering of well-formed parts with those values |
| `CronParser.SpacingDoesNotMatter` | web/app.js:3763-3766 | however the words are spaced, they are what the text splits into |
| `CronParser.EveryTextIsSpaced` | web/app.js:3763-3766 | conversely every text is its words with some spacing |
| `CronParser.ValueOfDecimal` | web/app.js:3774-3780 | the decimal digits of a number mean that number |
| `CronParser.ValueOfZeros` | web/app.js:3774-3780 | leading zeros do not count |
| `CronPreview.FieldAgrees` | web/app.js:3770-3783 | a field parses exactly when every part is acceptable by the written-out rules, and then has exactly the values that some part allows |
| `CronPreview.SpelledMeans` | web/app.js:3762-3787 | any spacing of the renderings of five fields parses to the values of minute, hour, day, month and weekday in this order |
| `CronPreview.MeaningIsSpelled` | web/app.js:3762-3787 | conversely a text that parses is some spacing of the renderings of five fields |
| `CronPreview.NextFireOf` | web/app.js:3762-3810 | for any text that spells five acceptable fields, the first minute within the horizon whose minute, hour, day of month, month and weekday the five fields allow, or nothing if there is none; nothing for any other text |
| `ScheduleFence.SchedulePage.BeginLoad` | web/app.js:3981-3983 | a read starts only without a pending save and captures request number and revision |
| `ScheduleFence.SchedulePage.FinishLoad` | web/app.js:3984-3994 | a response is shown exactly when its ticket is current and no save is pending |
| `ScheduleFence.SchedulePage.BeginSave` | web/app.js:4010-4015 | a save starts exactly when confirmed and none is pending, and bumps the revision |
| `ScheduleFence.SchedulePage.FinishSave` | web/app.js:4018-4028 | a confirmed book is shown, and the pending mark is cleared in any case |
| `ScheduleFence.StepKeepsInv` | web/app.js:3980-4029 | every step keeps the fence invariant and never shows an older book |
| `ScheduleFence.RunKeepsInv` | web/app.js:3980-4029 | the fence invariant holds after every interleaving of reads, saves, failures and writes by others |
| `ScheduleFence.OneSaveAtATime` | web/app.js:4010-4028 | over every run at most one save is in flight |
| `ScheduleFence.OnlyTheNewestReadOverwrites` | web/app.js:3981-3990 | over every run a read that overwrites the book is the newest issued, began after the latest save began, and meets no save in flight |
| `ScheduleFence.ShownNeverGoesBack` | web/app.js:3980-4029 | over every run the displayed book never goes back to an older version of the server's book |
| `ScheduleFence.ShownExactly` | web/app.js:3980-4029 | over every run the displayed book after a step is what a successful save was answered with, what the newest successful read brought if no save began since, and otherwise unchanged |
| `ScheduleFence.BeginsExactly` | web/app.js:3981-4015 | over every run a confirmed save, and a read, begins exactly when no save is in flight |
| `SlidingWindow.Trim` | src/game_control/alert_policy.py:171-173 | popping from the left keeps exactly the samples from the first one that is not too old, and always the newest |
| `SlidingWindow.WindowStep` | src/game_control/alert_policy.py:167-173 | the window of a longer history is found by trimming the window of the shorter one |
| `SlidingWindow.Push` | src/game_control/alert_policy.py:166-173 | the 256-bounded pruned deque equals the window of the whole history after every sample |
| `SlidingWindow.WindowExactly` | src/game_control/alert_policy.py:166-173 | the window of an ordered history is exactly those of its last 256 samples that are no older than the span and five seconds |
| `Alerts.DequeDecides` | src/game_control/alert_policy.py:174-178 | the test on the deque gives the same verdict as the whole history: four samples, thirty seconds, all at or above the threshold |
| `Alerts.PeakIsMaximum` | src/game_control/alert_policy.py:190-192 | the incident peak is the highest reading of the incident |
| `Alerts.UpdateIncident` | src/game_control/alert_policy.py:189-201 | the flag and peak after a reading are those of the incident that begins with growth and ends with recovery |
| `Alerts.IncidentLasts` | src/game_control/alert_policy.py:189-196 | an incident lasts exactly until a reading is 256 MiB or more below any earlier reading of it |
| `Alerts.ObserveMspt` | src/game_control/alert_policy.py:164-178 | after each tick sample with nondecreasing times the flag equals the verdict on the full history |
| `Alerts.ObserveRss` | src/game_control/alert_policy.py:180-201 | the memory deque, flag and peak agree with the history and the present incident |
| `Alerts.Forget` | src/game_control/alert_policy.py:157-162 | a profile that is not running forgets samples and incident and keeps its other flags |
| `Alerts.UpdateFlags` | src/game_control/alert_policy.py:203-211 | wake and benchmark flags follow their readings and nothing else |
| `Alerts.SelectCandidates` | src/game_control/alert_policy.py:213-224 | in any order of the flags, each group with a breached eligible signal gets its highest-priority one |
| `Alerts.Evaluator.NextGeneration` | src/game_control/alert_policy.py:133-136 | above the last generation and not below the clock, even if the clock goes back |
| `Alerts.Evaluator.Emit` | src/game_control/alert_policy.py:229-234 | one emission with a new generation for every candidate group that was not active |
| `Alerts.Evaluator.EmitNew` | src/game_control/alert_policy.py:226-235 | emissions are exactly the rising edges of the groups |
| `Alerts.GroupsByFlag` | src/game_control/alert_policy.py:74-85 | which groups are breached, flag by flag and state by state |
| `Alerts.EmissionsByFlag` | src/game_control/alert_policy.py:74-85 | which signals are emitted, flag by flag: memory growth hides tick time, neither unless running, no wake alert for a stopped profile, never disk pressure |
| `Alerts.Evaluator.Observe` | src/game_control/alert_policy.py:138-235 | in every run a group emits exactly when it is breached now and was not at the profile's previous observation, with the signal that the rule table gives; generations of all profiles increase; other profiles stay |
| `VaultPlan.PlanPartitions` | ops/laptop-backup/retention_plan.py:192-226 | excluded ids and candidate alias ids partition the catalog |
| `VaultPlan.CandidateExactly` | ops/laptop-backup/retention_plan.py:192-226 | a digest is a candidate exactly when no alias is kept-newest, protected, ledger-blocked or wrong for the scope |
| `VaultPlan.ReasonsAgree` | ops/laptop-backup/retention_plan.py:188-203 | the reason of a row in terms of the inventory: fewer than `keep` rows of its profile are later, it is protected, its ledger state blocks, or its digest is wrong for the scope, in this order |
| `VaultPlan.ExcludedExactly` | ops/laptop-backup/retention_plan.py:192-213 | a row with a reason of its own is excluded for it; a row without one exactly when an alias has one, and for the reason of an alias |
| `VaultPlan.SharedObjectIsAccepted` | ops/laptop-backup/retention_plan.py:105-186 | a concrete inventory in which the oldest and the newest row share one object is accepted |
| `VaultPlan.OldRowInheritsNewest` | ops/laptop-backup/retention_plan.py:205-213 | in its plan the oldest row, which has no reason of its own, is excluded as one of the newest because an alias is |
| `VaultPlan.OfferedExactly` | ops/laptop-backup/retention_plan.py:214-226 | a digest is offered exactly when it is in the catalog and no row with it has a reason of its own |
| `VaultPlan.FreedExactly` | ops/laptop-backup/retention_plan.py:227-227 | the freed bytes are those of the offered digests, each once |
| `VaultPlan.ReorderedIsAccepted` | ops/laptop-backup/retention_plan.py:105-186 | acceptance does not depend on the order of any list |
| `VaultPlan.OrderDoesNotMatter` | ops/laptop-backup/retention_plan.py:105-227 | candidates, freed bytes and excluded ids do not depend on the order of any list |
| `VaultPlanner.ReadCatalog` | ops/laptop-backup/retention_plan.py:105-139 | refuses exactly malformed rows, duplicate ids and digests with two sizes, and otherwise indexes the catalog by id, digest and profile |
| `VaultPlanner.ReadProtections` | ops/laptop-backup/retention_plan.py:141-148 | refuses exactly duplicate and unknown protections |
| `VaultPlanner.ReadLedger` | ops/laptop-backup/retention_plan.py:150-170 | refuses exactly unknown states, unknown backups and conflicting rows, and otherwise collects the blocked ids |
| `VaultPlanner.ReadManifests` | ops/laptop-backup/retention_plan.py:172-186 | refuses exactly conflicting sizes, within the manifests or with the catalog, and otherwise collects the referenced digests |
| `VaultPlanner.KeepNewest` | ops/laptop-backup/retention_plan.py:188-190 | exactly the newest `keep` entries of every profile, by time and then id |
| `VaultPlanner.ExplainAll` | ops/laptop-backup/retention_plan.py:192-203 | every entry gets the first reason that applies, or none |
| `VaultPlanner.Exclude` | ops/laptop-backup/retention_plan.py:205-213 | aliases of a retained digest are all excluded, each with its own reason or one that an alias has |
| `VaultPlanner.Candidates` | ops/laptop-backup/retention_plan.py:214-226 | exactly the digests without a reason, each once, in ascending order, with size and sorted aliases |
| `VaultPlanner.BuildPlan` | ops/laptop-backup/retention_plan.py:82-227 | refuses exactly what is not acceptable; the plan has exactly the eligible digests and counts each digest's bytes once |
| `RollingPeak.PeakStep` | ops/bin/horizon_journal.py:149-153 | the larger of the old peak and the deque's size is the peak of the longer log |
| `RollingPeak.PopOld` | ops/bin/horizon_journal.py:151-152 | the deque is left with exactly the timestamps of the window that ends at the newest |
| `RollingPeak.PeakOfSorted` | ops/bin/horizon_journal.py:147-154 | on sorted timestamps the loop finds the largest number in any closed 30-second window |
| `RollingPeak.PeakRolling30s` | ops/bin/horizon_journal.py:145-154 | the same for any multiset of timestamps in any order |
| `RollingPeak.InWindowPermutes` | ops/bin/horizon_journal.py:146-146 | the number of timestamps in a window does not depend on their order |
| `RollingPeak.Capture` | ops/bin/horizon_journal.py:184-196 | the record tells the truth about a nonempty journal, and an empty one is refused |
| `RollingPeak.Finalize` | ops/bin/horizon_journal.py:205-212 | refused exactly without two distinct complete boots; otherwise the least integer that is at least 1 and at least 1.5 times every complete boot's peak |
| `RollingPeak.BurstCoversEveryWindow` | ops/bin/horizon_journal.py:205-212 | the burst is at least 1.5 times the lines in any 30 seconds of any complete boot |
| `GcFeed.Cut` | src/game_control/gc_telemetry.py:57-75 | a stream can be cut anywhere: the rest continues the unfinished line |
| `GcFeed.Strip` | src/game_control/gc_telemetry.py:67-67 | only trailing carriage returns are removed, and all of them |
| `GcFeed.Parser.ReadLines` | src/game_control/gc_telemetry.py:59-74 | the loop reads exactly the complete lines in order, and fails exactly when a stripped line is too long |
| `GcFeed.Parser.Feed` | src/game_control/gc_telemetry.py:51-75 | events and unfinished line of the whole buffer; rotation starts afresh; what each of the two failures leaves behind |
| `GcFeed.ChunksRead` | src/game_control/gc_telemetry.py:51-75 | any chunked feed succeeds exactly when no stripped line and no unfinished line at a chunk's end is too long, and then it has read the stream |
| `GcFeed.ChunkingDoesNotMatter` | src/game_control/gc_telemetry.py:51-75 | a stream that fits yields the same events and unfinished line in every chunking |
| `GcFeed.WrittenIsRead` | src/game_control/gc_telemetry.py:51-75 | written lines within the limit, ended by carriage returns and a newline and chunked in any way, yield what the parser makes of each line without its carriage returns, in order |
| `GcFeed.ChunkableExactly` | src/game_control/gc_telemetry.py:57-75 | every chunking of a stream succeeds if and only if all its lines, carriage returns included, and its unfinished line fit |
| `GcFeed.ReturnsMakeChunkingMatter` | src/game_control/gc_telemetry.py:61-69 | a line that only carriage returns make too long is read whole and lost when cut before its newline |

## Left out

- Restore: starts without a leftover journal and nothing else writes to the roots; `health_check` is absent, as the production facade wires it, so the health-driven commit is not modelled.
- Restore: archive validation, extraction, ownership and free-space checks appear only as operations that may fail; of the journal checks only the lists of roots are modelled, and symbolic links are not.
- Restore.RestoreService.Lifetime: promises that staging directories are gone only if a journal ever named them, because a failure between creating them and writing the first journal leaves directories that no journal names.
- Protection: one destination and one backup class; the in-memory mirror of the rows is not modelled; in which order the database returns rows of one generation is an input of each call. A backup id belongs to one profile, as the primary key of `backups` makes it.
- Retention: replacement mode only, which production uses; the other tail of `reconcile` and `apply_plan` are not modelled.
- Retention: the order of the lists inside a plan; the text of refusals, except those of the first checks on the evidence; timestamps of rows.
- Retention: nobody else changes the database or the remote prefix between planning and applying; the staged download of orphan manifests appears only through what it proves.
- Capability: scopes, audiences, token hashing and the audit table, whose accepted rows the pruning filter does not select; one clock reading serves a whole call.
- WakeProtocol: an error that a dispatch answers is 503 if retryable and otherwise 400, although some exceptions carry a status of their own; what the controller answers is arbitrary; only that it is of the kind the request asked for is used.
- CapabilityStore.WakeAndWait: sleeping between attempts is part of the clock readings.
- Cron: JavaScript's remapping of years 0 to 99 in `Date.UTC` and the end of the `Date` range; everything that renders the preview.
- ScheduleFence: books are represented by versions; messages and rendering are not modelled.
- Alerts.Evaluator.Observe: does not model the final sort of the returned tuple by signal name, nor the rejection of malformed arguments; samples are reals, so floating-point rounding is not modelled.
- Vault: the text checks on ids, digests and dates (a date is parsed or not), the capacity report and the section digests.
- Vault: which alias an inherited exclusion reason comes from depends on set iteration order and is left open.
- RollingPeak: reading the journal and writing files; the boot-complete test of one entry is a flag.
- GcFeed: the `offset` field, which depends on the chunking, and the regular expressions of one line, which are a parameter.
- Not modelled at all, because they would add only easier members: the API, the command line, authentication, idle stop, benchmarks, database telemetry, installation, and all rendering.
