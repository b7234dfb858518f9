/** The promises of the prune protocol over every history: exact accounting,
    what may leave the ledger, what may leave the remote, and where they end. */
module PruneSafety {
  import opened Rows
  import opened Ledger
  import opened LedgerRefresh
  import opened PruneSteps
  import opened PruneRuns
  import opened PruneHistory
  import opened Lists

  // ----- accounting -----

  /** Whatever failed, was cut short or was claimed again before: while a request
      executes, its counters are the numbers of its settled targets and never
      exceed the authorized limit; once complete they add up to its candidates. */
  lemma PruneAccounting(h: History, ex: Excludes, k: nat, id: RequestId)
    requires h.Valid(ex) && k <= |h.steps| && id in h.worlds[k].requests
    requires h.worlds[k].requests[id].state.Executing() || h.worlds[k].requests[id].state.Completed?
    ensures var r := h.worlds[k].requests[id];
            && r.candidates == |r.frozen| && r.limit.Some? && r.candidates <= r.limit.value
            && (r.state.Executing() ==> && r.deleted == |DeletedTargets(r)| && r.missing == |MissingTargets(r)|
                                        && r.deleted + r.missing + |OpenTargets(r)| == r.candidates)
            && (r.state.Completed? ==> r.deleted + r.missing == r.candidates)
  {
    InvAlways(h, ex, k);
    var r := h.worlds[k].requests[id];
    assert RequestOK(h.worlds[k], ex, r);
    Partition(r);
  }

  /** Under one committed policy, a completed prune leaves none of its frozen
      paths on the remote, and none of them suppressed in the ledger. */
  lemma CompletedPruneIsClean(h: History, ex: Excludes, k: nat, id: RequestId, p: Path)
    requires h.Valid(ex) && k <= |h.steps| && id in h.worlds[k].requests
    requires var r := h.worlds[k].requests[id];
             r.state.Completed? && r.epoch == h.worlds[k].epoch && p in r.frozen
    ensures p !in h.worlds[k].remote
    ensures !IsActive(h.worlds[k].ledger, p) && !IsSuppressed(h.worlds[k].ledger, p)
  {
    InvAlways(h, ex, k);
    var w := h.worlds[k];
    assert RequestOK(w, ex, w.requests[id]);
    assert Settles(w.requests[id], p) && Releases(w.requests[id], p);
  }

  // ----- marked only when absent -----

  ghost predicate MarkedAt(h: History, ex: Excludes, k: nat, id: RequestId, p: Path)
    requires h.Valid(ex)
  {
    && k < |h.steps|
    && ((h.steps[k].DoMarkMissing? && h.steps[k].id == id && p in h.steps[k].paths)
        || (h.steps[k].DoMarkDeleted? && h.steps[k].id == id && p in h.steps[k].paths))
    && Owned(h.worlds[k], id) && p in OpenTargets(h.worlds[k].requests[id])
  }

  ghost predicate TargetSettled(w: World, id: RequestId, p: Path) {
    id in w.requests && p in w.requests[id].targets && !w.requests[id].targets[p].Open?
  }

  /** A target that is settled now was open and absent from the remote when some
      earlier step of its own execution marked it. */
  lemma {:induction false} MarkedWhenAbsent(h: History, ex: Excludes, j: nat, id: RequestId, p: Path) returns (k: nat)
    requires h.Valid(ex) && j <= |h.steps| && h.worlds[0].requests == map[]
    requires TargetSettled(h.worlds[j], id, p)
    ensures k < j && MarkedAt(h, ex, k, id, p) && p !in h.worlds[k].remote
    decreases j
  {
    k := j - 1;
    InvAlways(h, ex, k);
    assert h.StepOK(ex, k);
    if TargetSettled(h.worlds[k], id, p) {
      k := MarkedWhenAbsent(h, ex, k, id, p);
    } else {
      SettledBy(h.worlds[k], ex, h.steps[k], id, p);
    }
  }

  /** Only the two marking steps settle a target. */
  lemma SettledBy(w: World, ex: Excludes, step: Step, id: RequestId, p: Path)
    requires Guard(w, ex, step)
    requires !TargetSettled(w, id, p) && TargetSettled(Next(w, ex, step), id, p)
    ensures (step.DoMarkMissing? || step.DoMarkDeleted?) && step.id == id && p in step.paths
    ensures Owned(w, id) && p in OpenTargets(w.requests[id]) && p !in w.remote
  {
    if !step.DoMarkMissing? && !step.DoMarkDeleted? && !step.DoComplete? {
      StepQuiet(w, ex, step);
    }
  }

  /** No target becomes settled and no request completed. */
  ghost predicate Quiet(rs: Requests, after: Requests) {
    && (forall id, p | id in after && p in after[id].targets && !after[id].targets[p].Open? ::
          id in rs && p in rs[id].targets && !rs[id].targets[p].Open?)
    && (forall id | id in after && after[id].state.Completed? :: id in rs && rs[id].state.Completed?)
  }

  lemma CommitQuiet(w: World, hash: Hash)
    ensures Quiet(w.requests, CommitPolicy(w, hash).requests)
  {
  }

  lemma PreviewQuiet(w: World, id: RequestId, paths: set<Path>)
    ensures Quiet(w.requests, Supersede(w.requests)[id := Frozen(w, paths)])
  {
  }

  lemma WriteQuiet(rs: Requests, id: RequestId, r: Request)
    requires id in rs && (r.state.Completed? ==> rs[id].state.Completed?)
    requires forall p | p in r.targets && !r.targets[p].Open? :: p in rs[id].targets && !rs[id].targets[p].Open?
    ensures Quiet(rs, rs[id := r])
  {
  }

  lemma StepQuiet(w: World, ex: Excludes, step: Step)
    requires Guard(w, ex, step) && !step.DoMarkMissing? && !step.DoMarkDeleted? && !step.DoComplete?
    ensures Quiet(w.requests, Next(w, ex, step).requests)
  {
    match step
    case DoCommit(hash) => CommitQuiet(w, hash);
    case DoPreview(id) => PreviewQuiet(w, id, SuppressedNow(w));
    case DoDiscover(id, candidates) => PreviewQuiet(w, id, candidates - w.ledger.Keys);
    case DoAuthorize(id, allow) => WriteQuiet(w.requests, id, Authorize(w, id, allow).requests[id]);
    case DoClaim(id) => WriteQuiet(w.requests, id, Claim(w, id).requests[id]);
    case DoReclaim(id) => WriteQuiet(w.requests, id, w.requests[id].(state := RequestState.Running));
    case DoRetry(id) => WriteQuiet(w.requests, id, w.requests[id].(state := Retrying));
    case DoReconcile(_) =>
    case DoFastUpload(_) =>
    case DoFastUpsert(_) =>
    case DoConfigure(_) =>
    case DoDeleteBatch(_, _, _) =>
  }

  // ----- what leaves the ledger -----

  ghost predicate ReleasedAt(h: History, ex: Excludes, k: nat, p: Path)
    requires h.Valid(ex) && k < |h.steps|
  {
    match h.steps[k]
    case DoMarkMissing(id, paths) => MarkedAt(h, ex, k, id, p) && p !in h.worlds[k].remote
    case DoComplete(id) => id in h.worlds[k].requests && p in DeletedTargets(h.worlds[k].requests[id])
    case _ => false
  }

  ghost predicate ReactivatedAt(h: History, ex: Excludes, k: nat, p: Path)
    requires h.Valid(ex) && k < |h.steps|
  {
    && h.steps[k].DoReconcile? && p in PathsOf(h.steps[k].attempt.scanned)
    && IsSuppressed(h.worlds[k].ledger, p) && p !in ex(h.worlds[k].hash)
    && h.worlds[k].refreshed != Some(h.worlds[k].hash)
  }

  lemma SuppressionStep(h: History, ex: Excludes, k: nat, p: Path)
    requires h.Valid(ex) && k < |h.steps|
    requires IsSuppressed(h.worlds[k].ledger, p) && !IsSuppressed(h.worlds[k + 1].ledger, p)
    ensures ReleasedAt(h, ex, k, p) || ReactivatedAt(h, ex, k, p)
  {
    var w, step := h.worlds[k], h.steps[k];
    assert h.StepOK(ex, k);
    match step
    case DoReconcile(a) => AttemptOnRow(w, ex, a, p);
    case _ =>
  }

  lemma AttemptOnRow(w: World, ex: Excludes, a: Attempt, p: Path)
    requires Guard(w, ex, DoReconcile(a)) && IsSuppressed(w.ledger, p) && !IsSuppressed(LedgerAfter(w, ex, a), p)
    ensures w.refreshed != Some(w.hash) && p in PathsOf(a.scanned) && p !in ex(w.hash)
  {
    var active, proven := PathsOf(a.scanned), ProvenDeletes(w, ex, a);
    var refreshed := Refreshed(w.ledger, active, proven, w.hash, a.generation);
    RefreshedRows(w.ledger, active, proven, w.hash, a.generation, p);
    AppliedRows(w.ledger, a.rescanned, p);
    AppliedRows(refreshed, a.rescanned, p);
  }

  /** A suppressed row stops being one only by a refresh that sees the file under
      a policy that allows it, or through a prune target of an authorized
      request that was marked while absent from the remote. */
  lemma {:induction false} SuppressedRowIsProtected(h: History, ex: Excludes, i: nat, j: nat, p: Path) returns (k: nat)
    requires h.Valid(ex) && i <= j <= |h.steps|
    requires IsSuppressed(h.worlds[i].ledger, p) && !IsSuppressed(h.worlds[j].ledger, p)
    ensures i <= k < j && (ReleasedAt(h, ex, k, p) || ReactivatedAt(h, ex, k, p))
    decreases j
  {
    k := j - 1;
    if IsSuppressed(h.worlds[k].ledger, p) {
      SuppressionStep(h, ex, k, p);
    } else {
      k := SuppressedRowIsProtected(h, ex, i, k, p);
    }
  }

  // ----- what leaves the remote -----

  /** A remote file goes away only in two ways: a reconciliation within its limit
      deletes an active row that the scan misses and the policy allows, or an
      authorized prune deletes an open frozen target that the committed policy
      ignores and no active row claims. */
  lemma RemoteLoss(h: History, ex: Excludes, k: nat, p: Path)
    requires h.Valid(ex) && k < |h.steps|
    requires p in h.worlds[k].remote && p !in h.worlds[k + 1].remote
    ensures LostToReconcile(h.worlds[k], ex, h.steps[k], p) || LostToPrune(h.worlds[k], ex, h.steps[k], p)
  {
    var w, step := h.worlds[k], h.steps[k];
    InvAlways(h, ex, k);
    assert h.StepOK(ex, k);
    match step
    case DoDeleteBatch(id, batch, gone) => BatchLoss(w, ex, id, batch, p);
    case DoReconcile(a) =>
    case _ =>
  }

  ghost predicate LostToReconcile(w: World, ex: Excludes, step: Step, p: Path) {
    && step.DoReconcile? && IsActive(w.ledger, p)
    && p !in PathsOf(step.attempt.scanned) && p !in ex(w.hash)
    && |ProvenDeletes(w, ex, step.attempt)| <= EffectiveDeleteLimit(w.maxDelete, step.attempt.allowDeletes)
  }

  ghost predicate LostToPrune(w: World, ex: Excludes, step: Step, p: Path) {
    && step.DoDeleteBatch? && Owned(w, step.id)
    && var r := w.requests[step.id];
       && p in OpenTargets(r) && p in r.frozen && p in ex(w.hash) && !IsActive(w.ledger, p)
       && r.limit.Some? && r.candidates <= r.limit.value
  }

  lemma BatchLoss(w: World, ex: Excludes, id: RequestId, batch: set<Path>, p: Path)
    requires Inv(w, ex) && Owned(w, id) && batch <= OpenTargets(w.requests[id]) && p in batch
    ensures LostToPrune(w, ex, DoDeleteBatch(id, batch, batch), p)
  {
    assert RequestOK(w, ex, w.requests[id]);
    assert p in w.requests[id].targets.Keys;
  }

  /** A reconciliation deletes at most its limit, and when more is proven it
      deletes and uploads nothing and leaves the ledger alone. */
  lemma ReconcileWithinLimit(w: World, ex: Excludes, a: Attempt)
    requires Guard(w, ex, DoReconcile(a))
    ensures var t := Reconcile(w, ex, a);
            var limit := if a.allowDeletes > 0 then a.allowDeletes else w.maxDelete;
            if |ProvenDeletes(w, ex, a)| <= limit then |w.remote - t.remote| <= limit
            else t.remote == w.remote && t.ledger == w.ledger
  {
    LossIsProven(w, ex, a);
    if |ProvenDeletes(w, ex, a)| <= EffectiveDeleteLimit(w.maxDelete, a.allowDeletes) {
      SubsetSize(w.remote - RemoteAfter(w, ex, a), ProvenDeletes(w, ex, a));
    }
  }

  lemma LossIsProven(w: World, ex: Excludes, a: Attempt)
    ensures w.remote - RemoteAfter(w, ex, a) <= ProvenDeletes(w, ex, a)
  {
  }

  /** Everything one request's executions ever removed from the remote. */
  ghost function PrunedBy(h: History, ex: Excludes, k: nat, id: RequestId): set<Path>
    requires h.Valid(ex) && k <= |h.steps|
  {
    if k == 0 then {}
    else PrunedBy(h, ex, k - 1, id) +
         if h.steps[k - 1].DoDeleteBatch? && h.steps[k - 1].id == id then h.worlds[k - 1].remote - h.worlds[k].remote else {}
  }

  lemma {:induction false} PrunedIsFrozen(h: History, ex: Excludes, k: nat, id: RequestId)
    requires h.Valid(ex) && k <= |h.steps|
    ensures PrunedBy(h, ex, k, id) != {} ==> id in h.worlds[k].requests
    ensures id in h.worlds[k].requests ==> PrunedBy(h, ex, k, id) <= h.worlds[k].requests[id].frozen
  {
    if k > 0 {
      PrunedIsFrozen(h, ex, k - 1, id);
      InvAlways(h, ex, k - 1);
      assert h.StepOK(ex, k - 1);
      StepImmutable(h.worlds[k - 1], ex, h.steps[k - 1]);
      if h.steps[k - 1].DoDeleteBatch? {
        BatchIsFrozen(h.worlds[k - 1], ex, h.steps[k - 1]);
      }
    }
  }

  lemma BatchIsFrozen(w: World, ex: Excludes, step: Step)
    requires Inv(w, ex) && Guard(w, ex, step) && step.DoDeleteBatch?
    ensures step.id in w.requests && w.remote - Next(w, ex, step).remote <= w.requests[step.id].frozen
  {
    assert RequestOK(w, ex, w.requests[step.id]);
    assert forall p | p in step.gone :: p in w.requests[step.id].targets.Keys;
  }

  /** Over all its claims, failures and retries together, a request removes only
      frozen paths, and no more of them than its authorized limit. */
  lemma PrunedWithinLimit(h: History, ex: Excludes, k: nat, id: RequestId)
    requires h.Valid(ex) && k <= |h.steps| && id in h.worlds[k].requests
    requires h.worlds[k].requests[id].state.Executing() || h.worlds[k].requests[id].state.Completed?
    ensures var r := h.worlds[k].requests[id];
            PrunedBy(h, ex, k, id) <= r.frozen && r.limit.Some? && |PrunedBy(h, ex, k, id)| <= r.limit.value
  {
    var r := h.worlds[k].requests[id];
    PrunedIsFrozen(h, ex, k, id);
    PruneAccounting(h, ex, k, id);
    SubsetSize(PrunedBy(h, ex, k, id), r.frozen);
  }

  // ----- where the promises end -----

  /** A claim, a remote prune delete or a completion. */
  predicate PruneProgress(step: Step) { step.DoClaim? || step.DoDeleteBatch? || step.DoComplete? }

  ghost predicate ExecutingUnder(w: World, id: RequestId, hash: Hash) {
    id in w.requests && w.requests[id].state.Executing() && w.requests[id].hash == hash
  }

  /** An interrupted prune whose policy has been replaced is reclaimed on every
      pass and never finishes: until its policy is committed again it stays the
      one executing request, no other is claimed and no prune deletes anything. */
  lemma {:induction false} InterruptedPruneBlocksQueue(h: History, ex: Excludes, i: nat, j: nat, id: RequestId, hash: Hash)
    requires h.Valid(ex) && i <= j <= |h.steps|
    requires ExecutingUnder(h.worlds[i], id, hash)
    requires forall k: nat | i <= k < j :: h.worlds[k].hash != hash
    ensures ExecutingUnder(h.worlds[j], id, hash)
    ensures forall k: nat | i <= k < j :: !PruneProgress(h.steps[k])
    decreases j
  {
    if i < j {
      InterruptedPruneBlocksQueue(h, ex, i, j - 1, id, hash);
      StillExecutingAt(h, ex, j - 1, id, hash);
    }
  }

  lemma StillExecutingAt(h: History, ex: Excludes, k: nat, id: RequestId, hash: Hash)
    requires h.Valid(ex) && k < |h.steps| && ExecutingUnder(h.worlds[k], id, hash) && h.worlds[k].hash != hash
    ensures !PruneProgress(h.steps[k])
    ensures ExecutingUnder(h.worlds[k + 1], id, hash)
  {
    InvAlways(h, ex, k);
    assert h.StepOK(ex, k);
    NothingOwned(h.worlds[k], ex, h.steps[k], id, hash);
    StillExecuting(h.worlds[k], ex, h.steps[k], id, hash);
  }

  lemma NothingOwned(w: World, ex: Excludes, step: Step, id: RequestId, hash: Hash)
    requires Inv(w, ex) && Guard(w, ex, step) && ExecutingUnder(w, id, hash) && w.hash != hash
    ensures !PruneProgress(step) && !step.DoMarkMissing? && !step.DoMarkDeleted?
  {
    assert forall other | other in w.requests && w.requests[other].state.Executing() :: other == id;
  }

  lemma StillExecuting(w: World, ex: Excludes, step: Step, id: RequestId, hash: Hash)
    requires Guard(w, ex, step) && ExecutingUnder(w, id, hash)
    requires !PruneProgress(step) && !step.DoMarkMissing? && !step.DoMarkDeleted?
    ensures ExecutingUnder(Next(w, ex, step), id, hash)
  {
    StepImmutable(w, ex, step);
    StepQuiet(w, ex, step);
  }

  /** The authorization looks at no state. Re-authorizing an unfinished request
      and claiming it keeps the counters exact if and only if no target of it had
      been counted missing: the claim reopens those without uncounting them. */
  lemma ReauthorizationIsExactIff(w: World, ex: Excludes, id: RequestId, allowDeletes: int)
    requires Inv(w, ex) && id in w.requests && w.Ready()
    requires var r := w.requests[id];
             r.hash == w.hash && !r.state.Completed? && r.candidates <= Allowance(r, allowDeletes)
    ensures Accounting(Claim(Authorize(w, id, allowDeletes), id).requests[id]) <==> MissingTargets(w.requests[id]) == {}
  {
    var r := w.requests[id];
    assert RequestOK(w, ex, r);
    var s := Claim(Authorize(w, id, allowDeletes), id).requests[id];
    assert MissingTargets(s) == {};
    assert DeletedTargets(s) == DeletedTargets(r);
    assert s.targets.Keys == r.targets.Keys;
  }

  /** The count is then off for good: completing with every reopened target found
      missing again reports exactly the formerly missing ones twice. */
  lemma ReauthorizedTotal(w: World, ex: Excludes, id: RequestId, allowDeletes: int)
    requires Inv(w, ex) && id in w.requests && w.Ready()
    requires var r := w.requests[id];
             r.hash == w.hash && !r.state.Completed? && r.candidates <= Allowance(r, allowDeletes)
    ensures var claimed := Claim(Authorize(w, id, allowDeletes), id);
            var done := Complete(MarkBatch(claimed, id, OpenTargets(claimed.requests[id]), Missing), id).requests[id];
            done.deleted + done.missing == done.candidates + |MissingTargets(w.requests[id])|
  {
    var r := w.requests[id];
    assert RequestOK(w, ex, r);
    Partition(r);
    var s := Claim(Authorize(w, id, allowDeletes), id).requests[id];
    assert OpenTargets(s) == OpenTargets(r) + MissingTargets(r);
    assert OpenTargets(s) * OpenTargets(s) == OpenTargets(s);
  }
}
