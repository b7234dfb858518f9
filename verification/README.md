# Knowledge-sync control plane in Dafny

This project models the durable control plane of knowledge-sync, the part that
decides what is synchronized, deleted, pruned and published, and proves what
its protocols keep over whole histories.

## What is modelled

- **Reconciliation control plane** (`Rows`, `RetryPolicy`, `SyncSteps`,
  `SyncStore`, `SyncRuns`, `SyncEvents`, `SyncGates`, `SyncLaws`). One profile's rows as a
  value, every transaction as a function and as a method that updates the rows
  in place, and histories in which watcher, command line, worker and crash
  recovery interleave freely.
- **Managed ledger, policy refresh and prune** (`Ledger`, `LedgerRefresh`,
  `ReconcileWorker`, `PruneSteps`, `PruneRuns`, `PruneHistory`, `PruneSafety`,
  `PruneResume`, `PruneLaws`, `PruneStore`, `PruneDirs`). The ledger and its refresh; a state machine of
  policy commits, attempts cut at any point, previews, authorization, batched
  deletion and crashes; the worker pass shown to be a history of that machine;
  and the cleanup of emptied directories.
- **Fast lane** (`FastBatch`, `FastWorker`): a batch that may stop after any
  write while events keep arriving.
- **Legacy exclude rules** (`Text`, `Gitignore`, `LegacyPolicy`,
  `LegacyPatterns`, `LegacyScan`, `LegacyExact`, `LegacyMeaning`): the translation to gitignore
  patterns, read by the PATTERN FORMAT section of gitignore(5), the two scans it
  must keep equal, and exactly which rules it does. The Unicode lower-casing is
  a parameter.
- **Live hub** (`LiveHub`, `LiveHubRuns`, `LiveHubFresh`, `LiveHubStore`): the
  subscribe handoff at the granularity of single channel operations, with
  snapshots assembled outside the lock that numbers them.
- **Derived lane** (`DerivedLane`, `DerivedRuns`, `DerivedSafety`,
  `DerivedLocal`, `DerivedLaws`, `DerivedStore`): desired against published generation, retry
  gates keyed by desire, pins and local clean-up.
- **Link graph** (`LinkGraph`, `LinkResolve`): link resolution, counts and the
  orphan report.
- `Lists` and `Sorting` hold what the others share.

`dafny verify dfyconfig.toml` checks the whole project.

## Where the code and its documentation differ

The model follows the code; each point names the lemma that states it.

- Events during an attempt can be swallowed when intent was ahead of the source
  counter at the claim (`SyncEvents.FenceExact`).
- A scheduled request strands a pending manual override until a policy commit
  rebinds it (`SyncGates.ScheduledIntentStrandsOverride`).
- Orphan recovery reopens a terminal gate (`SyncGates.WhoReopens`); the
  thirty-minute retry cap is never reached (`RetryPolicy.BackoffRange`).
- Destructive events are never queued, so the classifier's evidence from
  earlier policies is never available (`SyncEvents.DestructiveNeverQueued`).
- A file suppressed under an earlier policy and revived later stays suppressed
  (`LedgerRefresh.RevivedFileStaysSuppressed`), and the ledger is rebuilt from a
  later scan than the one that decided the deletes (`LedgerRefresh.RescanDecides`).
- Authorization checks no state (`PruneSafety.ReauthorizationIsExactIff`), and an
  insufficient limit leaves the request as it was rather than returning it to
  approval-required. A prune interrupted before a policy change blocks the
  queue (`PruneSafety.InterruptedPruneBlocksQueue`) until its policy is back, and
  then completes even if a policy in between let a settled path be uploaded
  again (`PruneResume.SettledStaysGoneIff`).
- A limit of zero recorded by a claim reads as no limit of its own
  (`ReconcileWorker.ClaimedLimitIsEnforced`).
- A compile after a clean that waited for a pinned publish is wiped
  (`DerivedSafety.CompileAfterPinnedCleanIsWiped`); two compiles that die before
  they are recorded remove an unpinned desired generation
  (`DerivedLocal.DesiredSurvivesIff`); and a replaced desire's terminal failure
  is what a waiter for the new one reads (`DerivedSafety.FailureIsOwnIff`).
- Sequence numbers order deliveries, not the age of what they carry
  (`LiveHubFresh.EndsOnNewestIff`).
- The neighbour sets are filled on swapped sides, so the orphan report lists the
  notes without outgoing links, while the compiler plan defines it by missing
  backlinks (`LinkGraph.LinkedNoteIsReported`).
- The migration changes what some rules hide (`LegacyExact.PreservedExactly`):
  a path prefix with a trailing slash and a file name with a slash start to take
  effect, `tar.gz` as an extension does too, an empty extension stops, and
  because the comparison was over Unicode lower case an extension with a `k`
  loses files spelled with the Kelvin sign.

## Model

| member | source | states |
|---|---|---|
| `SyncRuns.InitialRunIsOwed` | internal/state/profiles.go:171-204 | over every history of a new profile: until an attempt has succeeded it is owed its initial run, not initialized and never ready |
| `SyncRuns.AttemptRecord` | internal/state/syncstate.go:250-441 | over every history: at most one attempt is running and it is the recorded one, it targets something owed beyond the last success and within the desired generation, `ready` means no debt, and generations never decrease |
| `SyncRuns.InvKept` | internal/state/syncstate.go:114-548 | every writer's step (watcher, CLI, worker, recovery) keeps the whole-row invariant: generations, labels, the single attempt, limited-failure count, queue versions |
| `SyncRuns.GrowsAlways` | internal/state/syncstate.go:397-441 | the three generations, the set of attempts, their targets and their final fates are monotone over any stretch of history |
| `SyncRuns.Freshness` | internal/state/intent.go:31-134 | whenever the success mark has reached a submitted generation, an attempt was claimed after that submission and succeeded with a target at or above it |
| `SyncRuns.OldAttemptCannotSatisfy` | internal/state/intent.go:55-67 | the success of an attempt that existed when the generation was submitted leaves the mark below it and the debt standing |
| `SyncEvents.NoEventLost` | internal/state/events.go:73-162 | every recorded event stays owed by the desired generation, or queued at its version or later, or was consumed by a fast batch that read it, or the profile was being deleted |
| `SyncEvents.CapturedAfter` | internal/state/events.go:241-258 | a batch that names an event's version or a later one read the queue after the event was recorded |
| `SyncEvents.PromotionRace` | internal/cli/fastupsert.go:90-96 | if the source counter is read before the promotion in another transaction, an event in between stays accounted for if and only if the intent already covered it |
| `SyncEvents.FenceHolds` | internal/state/syncstate.go:397-432 | with desired at most source at the claim, every event recorded during the attempt is still queued or covered by remaining debt with the profile syncing |
| `SyncEvents.FenceExact` | internal/state/syncstate.go:397-432 | that hypothesis is exact: every continuation of the claim respects the fence if and only if desired <= source at the claim |
| `SyncEvents.SwallowedEdit` | internal/state/syncstate.go:404-428 | the shortest history that defeats the fence when intent runs ahead: one ordinary edit after the claim is neither queued nor owed after success |
| `SyncEvents.WhoEstablishesTheFence` | internal/state/policy.go:279-357 | a changed policy commit makes desired equal source; a manual submission on a quiet profile makes it larger |
| `SyncEvents.DestructiveNeverQueued` | internal/state/events.go:73-162 | no destructive row is ever queued, because such events collapse into full intent |
| `SyncGates.ConsumedOnce` | internal/state/syncstate.go:316-371 | between two claims that consume a manual override there is a new manual submission, also across policy commits |
| `SyncGates.ConsumingClaim` | internal/state/syncstate.go:316-371 | a consuming claim takes the values of the latest submission; the attempt carries an override if and only if it allowed deletions |
| `SyncGates.RetryUsesProfileBudget` | internal/state/syncstate.go:316-371 | after a consumed submission, a claim without a new one consumes nothing and runs on the profile budget |
| `SyncGates.StrandedOverride` | internal/state/syncstate.go:316-330 | an override passed by any other intent is never consumed until a submission or policy commit rebinds it |
| `SyncGates.HonouredExactly` | internal/state/syncstate.go:316-330 | a bound override is honoured later if and only if nothing raised the desired generation meanwhile |
| `SyncGates.ScheduledIntentStrandsOverride` | internal/state/intent.go:99-134 | a scheduled request after a manual one drops its override, a policy commit before or after binds it again |
| `SyncGates.WhoReopens` | internal/state/syncstate.go:211-226 | a terminal gate stays closed under a step if and only if the step is not a manual submission, a reopen or orphan recovery |
| `SyncGates.TerminalGateHolds` | internal/state/syncstate.go:302-309 | after a terminal failure no sequence of other steps makes a claim succeed or moves the success mark |
| `SyncGates.FourthIsTerminal` | internal/state/syncstate.go:446-515 | a limited failure closes the gate if and only if three were stored already |
| `SyncGates.AtMostThreeLimited` | internal/state/syncstate.go:471-486 | between resets at most three failures are stored as limited and the next one is terminal |
| `SyncGates.SuccessSettles` | internal/state/syncstate.go:397-441 | success strictly advances the mark to the claimed generation; debt, label and request flag afterwards say exactly whether intent arrived meanwhile |
| `SyncGates.DebtCanBeSettled` | internal/state/syncstate.go:250-312 | no state of any history is a dead end: with an active profile, waiting, one claim and one success leave no debt, after orphaning a running attempt or reopening a terminal gate and nothing else |
| `SyncLaws.ClaimSucceedsIff` | internal/state/syncstate.go:250-386 | a claim brings the attempt into being if and only if it is unknown, the profile is active, owes work and runs nothing, a failed one is past its retry time and not terminal, and the debounce window is over or skipped by a bound submission; it then runs at the desired generation, and a refused claim changes nothing |
| `SyncLaws.RefusalIsTrue` | internal/state/syncstate.go:275-330 | every reason a refused claim reports holds of the rows |
| `SyncLaws.RetryWaits` | internal/state/syncstate.go:446-515 | over every history: after a retryable failure with n counted ones before it since the last success, no claim succeeds within 2^min(n,10) seconds unless something reopened the gate |
| `SyncLaws.LimitedWaits` | internal/state/retry.go:36-45 | the first, second and third unclassified failure since the last reset keep claims waiting one, five and fifteen minutes, a fourth for good |
| `SyncLaws.RetryOpensAgain` | internal/state/retry.go:17-34 | the wait is over once 1.2 times that delay has passed, and at once after an interruption |
| `SyncLaws.FailureKeepsDebt` | internal/state/syncstate.go:446-515 | a failure marks its attempt failed, leaves the debt owed and touches neither the success mark nor the queue |
| `SyncLaws.OrphansAreFailed` | internal/state/syncstate.go:520-548 | recovery fails exactly the running attempts and leaves no retry time to wait for |
| `SyncLaws.OpensAtOnce` | internal/state/intent.go:31-93 | a manual submission, or a reopened gate with debt, can be claimed at any time by an active profile that runs nothing |
| `SyncLaws.HoldsAreCleared` | internal/state/syncstate.go:211-226 | a submission and a reopening clear gate, failure count and window, a claim clears the window and a success the gate; a reopened profile is labelled by its debt alone |
| `SyncLaws.WindowWaits` | internal/state/syncstate.go:165-206 | over every history: after a promotion, a destructive or full event or a scheduled window, no claim succeeds within ten seconds unless a bound manual submission skips the wait |
| `SyncLaws.IntentIsRaised` | internal/state/syncstate.go:114-206 | each writer of intent raises it to the least generation it must reach and never masks an error; submissions and requests leave work owed |
| `SyncLaws.PolicyCommit` | internal/state/policy.go:233-377 | when a commit is refused or does nothing; otherwise its policy is in force with the refresh pending, under a generation above everything before, which is owed, and nothing else changes |
| `SyncLaws.PolicyIsReconciled` | internal/state/policy.go:233-377 | over every history: when the success mark has reached the generation of a changed policy, an attempt was claimed after its commit and succeeded |
| `SyncLaws.QueuedRowTells` | internal/state/events.go:73-162 | over every history: a queued row has the kind, version, time and policy of the latest event of its path, and the time of the earliest since it was last unqueued |
| `SyncLaws.SuccessUnqueues` | internal/state/syncstate.go:397-441 | a success marks its attempt succeeded and leaves queued exactly the rows newer than its target |
| `SyncLaws.QueueIsCleared` | internal/state/events.go:241-258 | a fast batch takes exactly the rows it names at that version or an older one, a discard takes all, and neither touches anything else |
| `SyncStore.Store.ClaimRun` | internal/state/syncstate.go:250-386 | the claim transaction changes the rows as its step says and reports the same outcome; it succeeds exactly for an unknown attempt of an active, idle profile that owes work and whose retry time and debounce window are over |
| `SyncStore.Store.CommitRunSuccess` | internal/state/syncstate.go:397-441 | the success transaction, with all right-hand sides read from the old row |
| `SyncStore.Store.CommitRunFailure` | internal/state/syncstate.go:446-515 | the failure transaction: stored class, counters and retry time |
| `SyncStore.Store.OrphanCurrentRun` | internal/state/syncstate.go:520-548 | crash recovery fails every running attempt and recomputes the label from debt |
| `SyncStore.Store.PromoteToFullReconcile` | internal/state/syncstate.go:180-206 | promotion raises intent, opens the debounce window and drops the queue |
| `SyncStore.Store.RequestReconcile` | internal/state/syncstate.go:114-145 | a request raises intent past source and success without masking an error |
| `SyncStore.Store.EnsureReconcileGeneration` | internal/state/syncstate.go:149-162 | intent is raised to at least the given generation |
| `SyncStore.Store.ScheduleDestructiveReconcile` | internal/state/syncstate.go:165-176 | the debounce window is opened or extended, its deadline only set once |
| `SyncStore.Store.ReopenSyncGate` | internal/state/syncstate.go:211-226 | the gate fields are cleared and the label recomputed |
| `SyncStore.Store.SubmitManualReconcile` | internal/state/intent.go:31-93 | a manual submission allocates a fresh generation, opens the gate and binds its metadata |
| `SyncStore.Store.SubmitScheduledReconcile` | internal/state/intent.go:99-134 | a scheduled submission allocates a fresh generation and keeps gate and metadata |
| `SyncStore.Store.RecordEvent` | internal/state/events.go:73-162 | an event bumps the source counter and is queued with its merged version or becomes full debt |
| `SyncStore.Store.ClearPendingEvents` | internal/state/events.go:241-258 | the loop removes exactly the rows whose version the batch names, newer ones stay |
| `SyncStore.Store.HasDestructivePending` | internal/state/events.go:205-213 | true if and only if a queued row has a destructive kind |
| `SyncStore.Store.CommitIgnoreSnapshot` | internal/state/policy.go:233-377 | the policy commit, its refusals and its no-op, on the generation, policy and intent rows |
| `RetryPolicy.BackoffRange` | internal/state/retry.go:17-34 | the delay lies in [2^k s, 1.2 * 2^k s) for k = min(n-1, 10), and the thirty-minute cap is never reached |
| `RetryPolicy.BackoffGrows` | internal/state/retry.go:17-34 | one more failure doubles the base delay up to the eleventh and leaves it there |
| `Ledger.LedgerStore.ManifestUpsert` | internal/state/manifest.go:53-67 | the fast lane's write keeps the managed state of an existing row |
| `Ledger.LedgerStore.ManifestApply` | internal/state/manifest.go:134-175 | the loop and the stale delete together make the ledger the applied one; suppressed rows survive |
| `Ledger.LedgerStore.ApplyManagedRefresh` | internal/state/policy.go:484-520 | suppression and reactivation in place give the refreshed ledger |
| `Ledger.LedgerStore.ClassifyDisappearances` | internal/state/policy.go:413-469 | the two loops return exactly the active paths missing from the scan that are not excluded or have a destructive event recorded under another policy |
| `LedgerRefresh.AppliedRows` | internal/state/manifest.go:134-175 | row by row: after the apply a path is active if and only if scanned and not suppressed, suppressed rows stay, and a row goes if and only if it was active and not scanned |
| `LedgerRefresh.RefreshedRows` | internal/state/policy.go:484-520 | row by row: what a refresh leaves active and suppressed |
| `LedgerRefresh.UpsertedRow` | internal/state/manifest.go:53-67 | the fast write records size and time, keeps the state of a known row, makes an unknown one active and touches no other |
| `LedgerRefresh.AppliedRowsRecord` | internal/state/manifest.go:134-175 | after an apply every scanned path records the size and time of its last entry |
| `LedgerRefresh.RefreshedRowsRecord` | internal/state/manifest.go:116-131 | a refresh changes no size or time; suppression records policy and generation, reactivation clears them |
| `LedgerRefresh.RefreshThenApply` | internal/state/policy.go:413-520 | refresh then apply on one scan: active set equals the scan, other owned rows are suppressed unless proven deleted, and a row disappears if and only if it was deleted remotely |
| `LedgerRefresh.RefreshSettlesActive` | internal/state/policy.go:413-469 | after a refresh nothing active is ignored, and deletes are exactly the unignored disappearances |
| `LedgerRefresh.ApplyWithoutRefresh` | internal/cli/worker.go:519-535 | without refresh debt the active set equals the scan if and only if no scanned path is suppressed, and rows go exactly with their deletes if and only if every missing active row was proven |
| `LedgerRefresh.SettledNeedsNoRefresh` | internal/cli/worker.go:519-535 | a settled ledger needs no refresh for any scan the policy allows, and stays settled |
| `LedgerRefresh.WhatSettles` | internal/state/policy.go:484-520 | a refresh settles the ledger if and only if no older suppression names a path that the new policy allows but the scan missed |
| `LedgerRefresh.RevivedFileStaysSuppressed` | internal/state/manifest.go:134-175 | the failing family: a file that reappears after such a refresh stays suppressed although eligible, and its later deletion is never proven |
| `LedgerRefresh.RescanDecides` | internal/cli/worker.go:552-563 | since the ledger is rebuilt from a later scan, rows go exactly with their deletes if and only if every owned scanned path is seen again and no deleted one came back |
| `PruneRuns.InvKept` | internal/state/prune.go:89-441 | every prune, policy, reconciliation and fast-lane step keeps exact counters, limits, one executing request, and the ledger's agreement with a ready policy |
| `PruneSafety.PruneAccounting` | internal/cli/pruneworker.go:66-139 | over every history of failed batches, crashes and re-claims the counters are the numbers of settled targets; at completion they add up to the candidates, within the authorized limit |
| `PruneSafety.MarkedWhenAbsent` | internal/cli/pruneworker.go:86-117 | a settled target was open and absent from the remote when the step that marked it ran |
| `PruneSafety.CompletedPruneIsClean` | internal/state/prune.go:345-380 | when no policy was committed since the preview, a completed prune leaves no frozen path on the remote and none suppressed or active in the ledger; SettledStaysGoneIff has the exact condition when some were |
| `PruneSafety.SuppressedRowIsProtected` | internal/state/prune_batch.go:29-54 | a suppressed row stops being one only by a refresh that sees the file under a policy that allows it, or through a target marked while absent |
| `PruneSafety.RemoteLoss` | internal/sync/reconcile.go:58-76 | a remote file goes only by a reconciliation within its limit deleting an active, unscanned, unignored row, or by an authorized prune deleting an open frozen target that the policy ignores and no active row claims |
| `PruneSafety.ReconcileWithinLimit` | internal/sync/reconcile.go:58-76 | a reconciliation deletes at most its effective limit, and when more is proven it changes neither remote nor ledger |
| `PruneSafety.PrunedWithinLimit` | internal/cli/pruneworker.go:105-120 | over all its claims together a request removes only frozen paths and at most its authorized limit of them |
| `PruneLaws.AttemptIsBounded` | internal/sync/reconcile.go:44-82 | an attempt beyond its limit does nothing; however another is cut, it loses only missed rows and gains only uploads, and the ledger changes only once the remote is done |
| `PruneLaws.FinishedAttempt` | internal/sync/reconcile.go:58-76 | an uncut attempt within its limit leaves on the remote exactly what was there and what it uploaded, without the missed rows, makes the policy ready, and its rows follow the two scans |
| `PruneLaws.ScannedStaysOnRemote` | internal/sync/reconcile.go:64-76 | over every history: after an attempt whose uploads covered what the remote lacked, every scanned path is on the remote and stays there until a later reconciliation or prune takes it away |
| `PruneLaws.RowLoss` | internal/state/manifest.go:134-175 | a row leaves the ledger only as an active row the later scan of an uncut attempt misses, or as the suppressed row of a prune target; a protected row never |
| `PruneLaws.PreviewFreezes` | internal/state/prune.go:89-162 | a ledger preview freezes exactly the rows suppressed under the committed policy, a discovery exactly the unknown candidates, under the budget in force; older previews give way and nothing else changes |
| `PruneLaws.PreviewAfterRefresh` | internal/state/prune.go:89-162 | right after the refresh of a new policy a preview freezes exactly the active rows it neither saw nor deleted and the rows this policy had suppressed before |
| `PruneLaws.OnePreviewAwaits` | internal/state/prune.go:89-162 | over every history: at most one request awaits approval, and what awaits or is queued was previewed under the committed policy |
| `PruneLaws.ReplacedNeverExecutes` | internal/state/policy.go:279-357 | a request whose policy was not in force at some time before it was claimed never executes, even when its policy comes back |
| `PruneLaws.ClaimDecides` | internal/state/prune.go:243-294 | a claim takes a queued request up exactly when its policy is committed and ready, with missing targets open again, and otherwise marks it stale; nothing else changes |
| `PruneLaws.AuthorizationIff` | internal/state/prune.go:216-241 | an authorization succeeds if and only if the frozen paths are no more than the positive allowance, or than the budget of the preview when none is given, and fixes that number; a refusal changes nothing |
| `PruneLaws.ApprovalWasGiven` | internal/state/prune.go:216-241 | over every history: a request that is queued, executes or completed was authorized, with a positive allowance of at least its count or with its count within its budget |
| `PruneLaws.PrunedWithinApproval` | internal/cli/pruneworker.go:105-120 | what all claims of a request remove together is at most the allowance somebody gave it, or the delete budget in force when it was previewed |
| `PruneSafety.InterruptedPruneBlocksQueue` | internal/cli/pruneworker.go:28-52 | an executing request whose policy was replaced stays the one executing request and no other is claimed, completed or deletes anything until its policy returns |
| `PruneSafety.ReauthorizationIsExactIff` | internal/state/prune.go:216-284 | re-authorizing and claiming an unfinished request keeps its counters exact if and only if no target had been counted missing |
| `PruneSafety.ReauthorizedTotal` | internal/state/prune.go:276-290 | otherwise completion reports exactly the formerly missing targets twice |
| `PruneResume.MarkedIsGone` | internal/cli/pruneworker.go:86-117 | a target just marked, as deleted or as missing, is gone from the remote and not active, with a suppressed row left only when it was deleted |
| `PruneResume.IgnoredStaysGone` | internal/cli/pruneworker.go:28-139 | over every history from the settling of a target to the completion of its request: while every policy in force ignores it, it stays gone, and at the completion no active or suppressed row of it is left |
| `PruneResume.ResumedPruneCanComplete` | internal/cli/pruneworker.go:28-52 | an executing request whose policy is in force, also an interrupted one whose policy has just come back, can be brought to completion from any history; it deletes what was still open and does not look at what it had settled |
| `PruneResume.PruneCanComplete` | internal/cli/pruneworker.go:25-149 | from every history whose policy is ready and in which no prune executes, a preview can be approved, claimed and completed; then exactly the suppressed rows are gone from the remote, and none of them is suppressed any more |
| `PruneResume.UploadedAgain` | internal/cli/pruneworker.go:47-52 | from every owned request with a settled target: if one of the policies in between allows the path, some continuation completes with it back on the remote, and with its row suppressed again where the prune had found it missing |
| `PruneResume.SettledStaysGoneIff` | internal/cli/pruneworker.go:28-139 | for any policies that replace each other until the first is back: every continuation completes with the settled target gone from remote and managed rows if and only if each of those policies ignores it |
| `PruneHistory.RequestImmutable` | internal/state/prune.go:28-47 | policy, frozen set and count never change; an executing request keeps its limit and only completes; completion is final |
| `PruneStore.PruneStore.CreatePrunePreview` | internal/state/prune.go:89-162 | freezes the rows suppressed by the ready committed policy, supersedes older previews, refuses otherwise |
| `PruneStore.PruneStore.CreatePrunePreviewFromUnmanagedPaths` | internal/state/prune_discovery.go:18-89 | freezes the discovered candidates that are still unmanaged, refuses a changed or unready policy |
| `PruneStore.PruneStore.AuthorizePrune` | internal/state/prune.go:216-241 | succeeds if and only if the frozen count is at most the allowance, or the budget of the preview when the allowance is not positive, and stores that value; a refusal leaves everything as it was |
| `PruneStore.PruneStore.ClaimPrune` | internal/state/prune.go:243-292 | claims a queued request or marks it stale, and reopens missing targets |
| `PruneStore.PruneStore.ClaimRetryingPrune` | internal/state/prune.go:406-424 | re-acquires a running or retrying request, if there is one |
| `PruneStore.PruneStore.MarkPruneTargetsResultBatch` | internal/state/prune_batch.go:10-73 | marks and counts exactly the open listed targets once, and releases the suppressed rows of missing ones |
| `PruneStore.PruneStore.CommitPruneComplete` | internal/state/prune.go:345-380 | releases the suppressed rows of deleted targets, completes the request and drops its target rows |
| `PruneStore.PruneStore.ClassifyPruneRemotePaths` | internal/cli/pruneworker.go:151-192 | splits the listed paths exactly into existing and missing |
| `PruneStore.PruneStore.DeleteInBatches` | internal/cli/pruneworker.go:99-120 | the batch loop: a legal history that ends with no open target, or stops at the first failed batch with it unmarked |
| `PruneStore.PruneStore.RunAuthorizedPrune` | internal/cli/pruneworker.go:25-149 | one pass, however its remote calls end, is a legal history of the protocol; it is `Idle` exactly when nothing executes or waits, a mismatch exactly when it takes up an executing request whose policy is not in force, stale exactly for such a queued one, and when no call fails it is `Done` exactly when the policy is in force |
| `ReconcileWorker.Worker.DeleteRemotePaths` | internal/sync/service.go:139-153 | deletes in order and stops at the first failure: exactly a prefix is gone |
| `ReconcileWorker.Worker.ReconcileProtected` | internal/sync/reconcile.go:44-82 | budget and stability are checked before any remote effect, uploads precede deletes |
| `ReconcileWorker.Worker.ExecuteReconcileAttempt` | internal/cli/worker.go:411-547 | the attempt in its real order equals the reconciliation step cut at some point; beyond the limit it does nothing, with every call succeeding it finishes, and on success the remote is what was there plus the uploads without the missed rows and the ledger follows the two scans |
| `PruneDirs.PruneTargetAncestorDirs` | internal/cli/pruneworker.go:218-245 | lists each proper ancestor of a target once, descendants before ancestors, never the root; fails if and only if a target is malformed |
| `PruneDirs.CleanupPruneEmptyDirs` | internal/cli/pruneworker.go:247-264 | without a hard error the pass removes exactly the emptied directories; after one, only some of those |
| `PruneDirs.SurvivesIffSomethingRemains` | internal/cli/pruneworker.go:247-264 | a tried directory survives if and only if a file or surviving directory remains beneath it |
| `PruneDirs.AncestorSurvivesIff` | internal/cli/pruneworker.go:218-264 | an ancestor survives if and only if a non-target file or a directory that is no target ancestor lies beneath it |
| `PruneDirs.RepeatedPassAgrees` | internal/cli/pruneworker.go:126-130 | repeating an interrupted pass ends where the uninterrupted one would |
| `LegacyPolicy.LegacyExcluded` | internal/filter/filter.go:120-157 | the loop over the rules decides as the rules do, whose meaning LegacyMeaning states on the typed value |
| `LegacyPolicy.EscapeGlob` | internal/policy/legacy.go:90-100 | the loop produces the escaped text |
| `LegacyPolicy.CaseFoldExt` | internal/policy/legacy.go:104-122 | the loop produces the folded extension |
| `LegacyPatterns.EscapeIsLiteral` | internal/policy/legacy.go:90-100 | an escaped value matches exactly itself |
| `LegacyPatterns.InertMatches` | internal/policy/legacy.go:104-122 | a folded extension with nothing special in it matches exactly the texts equal to it up to ASCII case |
| `LegacyPatterns.SilentSize` | internal/policy/legacy.go:104-122 | a folded extension read without stars, question marks, stray backslashes or bare letters has at most as many pattern atoms as characters, and fewer unless nothing in it is special |
| `LegacyPatterns.BracketInFold` | internal/policy/legacy.go:104-122 | a bracket opened by the extension itself is closed by a later closing bracket or by the end of the case pair of a later letter, and by nothing else |
| `LegacyPolicy.ConvertLegacyRules` | internal/policy/legacy.go:17-34 | the loop renders one line per rule, in order; what each line matches is stated on the typed value in LegacyMeaning |
| `LegacyScan.RuleAgrees` | internal/policy/legacy.go:47-87 | on a child of a directory no rule covers, a preserved rule and its translation give the same verdict, up to directories whose content the rule covers entirely |
| `LegacyScan.NothingInside` | internal/sync/scan.go:51-104 | the legacy scan admits nothing below a directory a rule covers |
| `LegacyScan.ScanEquivalence` | internal/policy/legacy.go:17-122 | for every list of preserved rules, every tree and every Unicode lower-casing that is ASCII on ASCII, the legacy scan and the scan with the converted patterns admit the same files in the same order |
| `LegacyExact.PreservedExactly` | internal/policy/legacy.go:17-122 | for each single rule the two scans agree on every tree if and only if the rule is preserved, a condition on the text of its value: no trailing slash on a path prefix, no path as a file name, and an extension that is not empty, holds nothing special, and has letters with only their two ASCII cases, or holds a dot or slash and can match no path |
| `LegacyMeaning.BlanksDoNotMatter` | internal/policy/legacy.go:47-87 | blanks around the value of any rule change neither its line nor the paths it hid |
| `LegacyMeaning.LeadingDotDoesNotMatter` | internal/policy/legacy.go:77-84 | one leading dot of an extension changes neither |
| `LegacyMeaning.InnerDotHidesNothing` | internal/filter/filter.go:149-153 | an extension with another dot, or with a slash, hid nothing before |
| `LegacyMeaning.PlainExtensionMeans` | internal/filter/filter.go:149-153 | an alphanumeric extension hid the names whose text after the last dot equals it once both are lower-cased, and its line hides those equal to it up to ASCII case |
| `LegacyMeaning.PlainExtensionsAgree` | internal/policy/legacy.go:82-84 | these are the same names when each letter has only its two ASCII cases |
| `LegacyMeaning.LeadingSlashDoesNotMatter` | internal/policy/legacy.go:49-64 | one leading slash of a path changes neither line nor hidden paths |
| `LegacyMeaning.SecondSlashHidesNothing` | internal/filter/filter.go:127-131 | a path prefix with two leading slashes hid nothing before |
| `LegacyMeaning.PathPrefixMeans` | internal/filter/filter.go:127-131 | a path prefix hid the path and everything below it; its line matches exactly that path |
| `LegacyMeaning.DirPathMeans` | internal/filter/filter.go:132-137 | a directory written as a path hid everything below it; its line matches exactly that directory |
| `LegacyMeaning.DirNameMeans` | internal/filter/filter.go:138-144 | a directory name hid everything below a directory of that name at any depth; its line matches the directories of that name |
| `LegacyMeaning.FileNameMeans` | internal/filter/filter.go:145-148 | a file name hides what has that name at any depth, before and after |
| `LegacyMeaning.EmptyMeans` | internal/policy/legacy.go:47-87 | a blank value becomes no line, and hid nothing but, as an extension, the names that end in no extension |
| `LegacyExact.Differs` | internal/policy/legacy.go:47-87 | every rule that is not preserved has a tree on which the two scans differ |
| `LegacyScan.NodeAgrees` | internal/source/eligibility.go:146-226 | both engines agree on every file, and on every directory up to those a rule covers entirely |
| `LegacyExact.SignedExtensionDiffers` | internal/filter/filter.go:149-153 | an extension with a dot or slash never hid anything before; if its pattern can match some path, a tree with that path is scanned differently after |
| `LegacyExact.SpecialExtensionDiffers` | internal/policy/legacy.go:104-122 | an extension with a special character, or with a letter that a non-ASCII character is lowered to, hides one file before and not after, or after and not before |
| `LiveHub.InvKept` | internal/live/hub.go:51-138 | every interleaving step of publisher, subscriptions and readers keeps the order and latest-value invariant |
| `LiveHubRuns.SequenceIncreases` | internal/live/server.go:238-302 | a subscription's frames, initial and restamped ones included, have strictly increasing sequence numbers and are never revised |
| `LiveHubRuns.NumbersAreConsecutive` | internal/live/server.go:304-312 | over every history the sequence number is the count of frames numbered so far: publishes, initial frames and handed-over ones |
| `LiveHubRuns.NewestIsNeverLost` | internal/live/hub.go:115-138 | once no publish is in progress, the newest snapshot since registration is held, in the slot or the last received |
| `LiveHubRuns.SendsNeverBlock` | internal/live/hub.go:62-74 | the handoff sends into an empty slot and the second try of a publish always delivers |
| `LiveHubRuns.PublishIsWaitFree` | internal/live/hub.go:115-138 | a publish can always take its next operation and no reader sets it back |
| `LiveHubFresh.EndsOnNewestIff` | internal/live/server.go:169-190 | in every interleaving, when a subscription has taken all it was sent, it ends on the newest snapshot it was given if and only if the snapshot published last was neither overtaken by an earlier publish between assembly and lock nor assembled before the initial read |
| `LiveHubFresh.AssembliesAreOrdered` | internal/live/server.go:169-190 | of two assemblies in a history the later one carries the larger clock value, so the condition speaks of the order of assembly steps |
| `LiveHubFresh.OvertakenPublish` | internal/live/server.go:169-190 | from every state in which two snapshots of a profile are assembled and unpublished, a ready subscription can end on the older one |
| `LiveHubFresh.HeldFrameCanBeOlder` | internal/live/server.go:245-281 | from every state in which a snapshot of a profile is assembled and unpublished, a new subscription can end on it although its own initial snapshot is newer |
| `LiveHubStore.Hub.BeginSubscribe` | internal/live/hub.go:51-57 | registers a fresh paused subscriber at the end of its profile's list |
| `LiveHubStore.Hub.FinishSubscribe` | internal/live/hub.go:62-74 | hands the held frame over, restamped when asked, and makes the subscriber ready |
| `LiveHubStore.Hub.RemoveSubscriber` | internal/live/hub.go:93-110 | removes exactly that subscriber and an emptied list |
| `LiveHubStore.Hub.Publish` | internal/live/hub.go:115-138 | every subscriber of the profile holds the frame afterwards, whether or not readers took the stale one |
| `LiveHubStore.Server.FinishSubscribe` | internal/live/server.go:278-283 | a held frame, and only a held frame, costs one fresh sequence number |
| `DerivedRuns.TargetKeyIsInjective` | internal/state/compiler.go:228-234 | two desires share a target key only if they are the same desire |
| `DerivedRuns.SeparatorNeeded` | internal/state/compiler.go:228-234 | with a NUL inside a generation any two revisions can share a key: every generation and binding has a different desire with the same key |
| `DerivedRuns.InvKept` | internal/state/compiler.go:146-449 | every compile, clean, claim, finish, crash and recovery step keeps the lane invariant |
| `DerivedSafety.CurrentMeansPublished` | internal/state/compiler.go:337-374 | `current` means the recorded remote mode, generation and binding are the present desire |
| `DerivedSafety.RevisionNamesDesire` | internal/state/compiler.go:146-193 | a desire and its revision change only together, by recorded compiles and cleans, and revisions grow |
| `DerivedSafety.NewDesireIsNotGated` | internal/state/compiler.go:288-299 | a desire just written is never gated, whatever failed before |
| `DerivedSafety.GateBlocksOnlyItsDesire` | internal/state/compiler.go:288-299 | a gated desire had an attempt of exactly its mode, generation, revision and binding fail |
| `DerivedSafety.SuccessSettlesDesire` | internal/state/compiler.go:238-327 | after one success for the present desire, claims under its binding find nothing to do until a new desire |
| `DerivedSafety.PinnedGenerationStays` | internal/cli/worker.go:281-298 | from the claim that verified it until the attempt succeeds, fails or is recovered, also while its worker is dead, a generation is neither removed nor unpinned by any compile, collection, clean or finalization |
| `DerivedLocal.DesiredStaysLocalIff` | internal/cli/compiler.go:83-95 | over every history since it was recorded, the desired generation is local if and only if no finalization ran and no collection of a later compile that died unrecorded dropped it |
| `DerivedLocal.OneInterruptionIsSafe` | internal/compiler/generation.go:193-227 | with directories that get newer from compile to compile, it survives everything short of a finalization as long as at most one compile was interrupted |
| `DerivedLocal.DesiredSurvivesIff` | internal/compiler/generation.go:193-227 | when collections remove all they may, it is lost exactly by a finalization, or by a compile that dies after its collection while an earlier one had died since and no publish pins the desired generation |
| `DerivedLocal.TwoInterruptionsLose` | internal/cli/compiler.go:83-95 | from every state in which the desired generation is not pinned, two interrupted compiles, the second after its collection, remove it while it is still desired |
| `DerivedSafety.CompileAfterPinnedCleanIsWiped` | internal/cli/compiler.go:203-236 | the history: clean while pinned, compile, end of the publish, finalization wipes the new compile |
| `DerivedSafety.WipedDesireFailsForGood` | internal/cli/worker.go:281-298 | every claim of a wiped desire fails terminally and stays gated |
| `DerivedSafety.FailureIsOwnIff` | internal/state/compiler.go:377-420 | over every history from a claim to the terminal failure of its attempt: the lane is marked failed, and the failure gates the present desire under a binding if and only if that is the binding of the attempt and no compile or clean recorded a desire since the claim |
| `DerivedLaws.ClaimTakesDesire` | internal/state/compiler.go:238-327 | a claim takes the present desire under its binding and pins the generation to publish |
| `DerivedLaws.DesireWritten` | internal/state/compiler.go:146-193 | a recorded compile desires its generation and a clean its absence, pending, and neither touches what is published or pinned |
| `DerivedLaws.LaneSteps` | internal/cli/compiler.go:203-236 | a compile that moved the pointer leaves its own generation under it; a clean leaves no pointer and none but the pinned directory when it went through; a worker that dies leaves the row as it was, a pin included |
| `DerivedLaws.CleaningPendingIff` | internal/cli/compiler.go:203-236 | over every history: a finalization is due if and only if a clean left work behind and neither a finalization nor a complete clean followed |
| `DerivedLaws.SuccessReachesCurrent` | internal/state/compiler.go:337-374 | a success records what was published or purged and makes the lane current if and only if that is what is desired then, so always when nothing was recorded since the claim |
| `DerivedLaws.RetryWaits` | internal/state/compiler.go:288-299 | after a failed attempt the next claim of the same desire under the same binding comes no earlier than its delay: doubling seconds, or one, five and fifteen minutes |
| `DerivedLaws.ClaimableIff` | internal/state/compiler.go:238-327 | a desire is claimable if and only if one exists, nothing is pinned, the remote does not already hold it under the binding, and no failure of exactly it is terminal or ahead of its retry time |
| `DerivedLaws.RecoveredIsClaimable` | internal/state/compiler.go:429-449 | a publish whose worker died can be claimed again at any time after recovery, unless its desire was replaced |
| `DerivedStore.Store.BestEffortGC` | internal/compiler/generation.go:193-227 | keeps the current, the protected and the newest other generation; without a failure at most one other is left |
| `DerivedStore.LaneStore.ClaimDerivedRun` | internal/state/compiler.go:238-327 | claims if and only if the profile is runnable, a desire exists, nothing is active, it is not already current and not gated |
| `DerivedStore.LaneStore.FinishDerivedRunSuccess` | internal/state/compiler.go:337-374 | the success update of the lane row |
| `DerivedStore.LaneStore.FinishDerivedRunFailure` | internal/state/compiler.go:377-420 | the failure update, written only under the attempt's own key |
| `DerivedStore.LaneStore.RecoverDerivedRuns` | internal/state/compiler.go:429-449 | a crashed publish releases its pin and its gate |
| `LinkGraph.Graph.CountLinks` | internal/compiler/compiler.go:371-393 | the pass over the links leaves on every note exactly its counts and neighbour sets |
| `LinkGraph.EdgesAreConserved` | internal/compiler/compiler.go:371-411 | outgoing counts add up to the links, unresolved plus ambiguous to the broken records, incoming to the links that reach a note |
| `LinkGraph.CountIsNumberOfLinks` | internal/compiler/compiler.go:371-393 | each counter of a note is the number of links it is about: carried, reaching it, unresolved, ambiguous, to itself |
| `LinkGraph.NotePairsAreConserved` | internal/compiler/compiler.go:480-491 | both note counts add up to the number of distinct linked pairs of different notes |
| `LinkGraph.OrphanReport` | internal/compiler/compiler.go:394-404 | hard and outbound-only split the reported notes; a note is reported if and only if it links to no other note |
| `LinkGraph.ListOrphans` | internal/compiler/compiler.go:394-404 | the loop over the note names gives the report |
| `LinkGraph.CountOrphans` | internal/compiler/artifacts.go:172-188 | the aggregate counts are the sizes of the sets of hard, reported and outbound-only notes |
| `LinkGraph.ReportedAre` | internal/compiler/compiler.go:394-404 | the reported notes are exactly those that link to no other note, the hard ones those that are also linked from none |
| `LinkGraph.OrphanTotals` | internal/compiler/artifacts.go:172-188 | hard and outbound-only orphans add up to the reported ones, and these with the notes that link out to all notes |
| `LinkGraph.ReportIsBacklinksIff` | internal/compiler/compiler.go:388-389 | the report names wrongly exactly the notes linked to that link nowhere and leaves out exactly those that link out unlinked; it is the set of notes without backlinks if and only if the notes that link out are the notes linked to |
| `LinkGraph.LinkedNoteIsReported` | internal/compiler/compiler.go:480-491 | every linked note without links of its own is reported as having no backlink, and the note linking to it is not |
| `LinkResolve.ResolveTarget` | internal/compiler/compiler.go:422-478 | whatever order the map is walked in, the outcome is the one its candidate set determines |
| `LinkResolve.ResolutionIsDetermined` | internal/compiler/compiler.go:469-477 | a candidate set has one outcome, list order included |
| `LinkResolve.ResolvedTargetExists` | internal/compiler/compiler.go:422-478 | a link never resolves to a path outside the corpus |
| `LinkResolve.StemOfName` | internal/compiler/compiler.go:439-443 | the stem of a path is its last component without the last dot and what follows it |
| `LinkResolve.BareWikilink` | internal/compiler/compiler.go:435-443 | a bare wikilink may mean exactly the notes whose last component is its text, without or with one extension; a leading ./ does not matter |
| `LinkResolve.PathTarget` | internal/compiler/compiler.go:444-468 | any other target means the path itself, or the note of that name when it has no extension; a markdown link that leaves the corpus means nothing |
| `LinkResolve.DedupStrings` | internal/compiler/compiler.go:521-532 | keeps the elements, drops adjacent repetitions, changes nothing in a list of distinct ones |
| `FastBatch.StoppedBatchIsSafe` | internal/cli/fastupsert.go:127-214 | wherever the batch stops and whatever arrives meanwhile, an uploaded path is in the ledger, or its event is queued at its version or later, or a full reconciliation owes it |
| `FastBatch.StoppedBatch` | internal/cli/fastupsert.go:127-214 | where a batch stopped: which files are on the remote, which rows are written and which versions are still queued |
| `FastBatch.NewerEventSurvives` | internal/cli/fastupsert.go:202-211 | an event newer than the captured version survives the whole batch, queued or owed |
| `FastBatch.RerunAgrees` | internal/cli/fastupsert.go:127-214 | running the batch again after any stop, also inside an upload that moved some of the files, ends exactly where the uninterrupted batch ends |
| `FastBatch.WholeBatch` | internal/cli/fastupsert.go:127-214 | a complete batch empties the captured queue, owns every eligible file still there and uploads exactly the eligible ones |
| `FastWorker.EvaluateDue` | internal/cli/fastupsert.go:98-121 | due if and only if every event has settled or some event has waited too long, by the configured seconds |
| `FastWorker.Worker.Partition` | internal/cli/fastupsert.go:123-150 | the loop lists exactly the eligible paths |
| `FastWorker.Worker.PromoteToFullReconcile` | internal/state/syncstate.go:180-206 | with the source generation read in the same step, the fast lane does exactly the promotion step of the control plane, whatever the other rows hold |
| `FastWorker.Worker.RunFastUpsertBatch` | internal/cli/fastupsert.go:65-217 | skipped exactly for full debt, a running attempt, an empty list, or a queue without destructive rows that is not due; promoted exactly for a destructive row, or a due queue with an unsafe kind; otherwise the disk ends where a prefix of the plan leads, with every call succeeding at its end, and then a batch over the whole queue empties it, uploads exactly the eligible files and records those still there |

## Left out

- SQL, schema migrations, row scanning and NULL handling: each table is a map or record and each transaction one step.
- rclone, launchd, fswatch, sockets, fsync and PID locks: foreign calls appear only through how they can end, given as arguments; a lock is taken to exclude what it guards.
- Reading and promoting the source generation are two transactions in the code and one step in the model; PromotionRace says what the gap would cost.
- SyncSteps.Created: a profile starts with generation one already owed; the other profile columns and the multi-profile tables are not modelled.
- SyncSteps.ClaimRun: reads the reconcile deadline in the code without using it, so no deadline bound is claimed.
- SyncSteps.CommitRunSuccess: the worker's knowledge that the attempt is the current one is a precondition, because the transaction itself does not check it.
- Run phases, heartbeats, progress statistics, last-success timestamps and error texts: display data.
- PruneSafety.CompletedPruneIsClean: stated for a request whose policy was not replaced since the preview; for the other requests SettledStaysGoneIff gives the condition.
- PruneSteps.Guard: authorization is allowed only from previewed or approval-required, as its comment says; the code checks no state, and ReauthorizationIsExactIff says what that costs.
- PruneSteps.Claim: which queued request is claimed first (oldest by creation time) is left open.
- PruneSteps.Request: the candidate digest is the frozen set itself; SHA-256 is not modelled. The policy hash stands for its content.
- Remote objects changed by anyone other than this profile's own steps are not modelled.
- The unused single-target MarkPruneTargetResult, SetPruneFailed and MarkPolicyRefreshError are not modelled.
- PruneDirs.PruneTargetAncestorDirs: paths are split into components; path.Clean on raw text is expressed as a condition on components. The name order that breaks ties is a parameter.
- Gitignore.Glob: character classes and backslashes inside brackets are not modelled, and two stars in the middle of an extension are read as two ordinary stars.
- LegacyScan.Scan: symbolic links, unreadable entries, size limits and the reserved derived namespace are not modelled; a name is any non-empty text without a slash.
- LegacyExact.PreservedExactly: stated for values without a line break inside; a value with one becomes several unrelated lines of the pattern file, which for an extension can negate each other.
- LegacyScan.ScanEquivalence: stated for values without a line break inside, for the same reason.
- Text.GoodLowering: of unicode.ToLower only what the proofs use is stated, as a condition on a parameter; the Unicode tables are not modelled.
- LiveHub.Next: frames carry an identity and a number; sampling time, socket writes and the connection set are not modelled.
- DerivedLane.Next: the compiler itself and artifact contents are not modelled; a generation verifies when its directory is there.
- DerivedLane.TargetKey: generations are non-empty and free of NUL, as UUIDs are.
- LinkResolve.Candidates: URL unescaping and path.Join are inputs; byte order of strings is a strict total order given as a parameter. External targets are taken to be filtered out.
- LinkGraph.CountsOf: tags, frontmatter, file records and the order of the output lists are not modelled.
- FastBatch.Plan: waiting for the queue to settle is decided in FastWorker.EvaluateDue; unreadable timestamps are not modelled.
- Integer widths: generations, counts and times are unbounded integers; overflow of 64-bit values is not modelled.
- internal/sched, remote leases, config merging, checkpoint spacing, command wiring and rendering are not modelled.
