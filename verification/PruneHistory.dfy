/** Whole histories of the prune protocol: exact accounting, what may leave the
    ledger and the remote, and where the protocol's promises end. */
module PruneHistory {
  import opened Rows
  import opened Ledger
  import opened LedgerRefresh
  import opened PruneSteps
  import opened PruneRuns

  /** worlds[k] is the world before steps[k]. */
  datatype History = History(worlds: seq<World>, steps: seq<Step>) {
    ghost predicate StepOK(ex: Excludes, k: nat)
      requires k < |steps| < |worlds|
    {
      Guard(worlds[k], ex, steps[k]) && worlds[k + 1] == Next(worlds[k], ex, steps[k])
    }

    ghost predicate Valid(ex: Excludes) {
      && |worlds| == |steps| + 1
      && Inv(worlds[0], ex)
      && forall k: nat | k < |steps| :: StepOK(ex, k)
    }

    function Last(): World
      requires |worlds| > 0
    {
      worlds[|worlds| - 1]
    }

    ghost function Then(ex: Excludes, step: Step): (h: History)
      requires Valid(ex) && Guard(Last(), ex, step)
      ensures h.Valid(ex) && h.worlds[0] == worlds[0] && h.Last() == Next(Last(), ex, step)
    {
      var h := History(worlds + [Next(Last(), ex, step)], steps + [step]);
      assert forall k: nat | k < |steps| :: StepOK(ex, k) ==> h.StepOK(ex, k);
      h
    }
  }

  ghost function Start(ex: Excludes, w: World): (h: History)
    requires Inv(w, ex)
    ensures h.Valid(ex) && h.worlds[0] == w && h.Last() == w
  {
    History([w], [])
  }

  lemma {:induction false} InvAlways(h: History, ex: Excludes, k: nat)
    requires h.Valid(ex) && k <= |h.steps|
    ensures Inv(h.worlds[k], ex)
  {
    if k > 0 {
      InvAlways(h, ex, k - 1);
      assert h.StepOK(ex, k - 1);
      InvKept(h.worlds[k - 1], ex, h.steps[k - 1]);
    }
  }

  // ----- the frozen request -----

  /** What nothing changes about a request once it was previewed: its policy, its
      frozen set and count, and, once it executes, its limit; completion is final. */
  ghost predicate Immutable(r: Request, s: Request) {
    && s.hash == r.hash && s.frozen == r.frozen && s.candidates == r.candidates && s.epoch == r.epoch
    && (r.state.Executing() ==> s.limit == r.limit && (s.state.Executing() || s.state.Completed?))
    && (r.state.Completed? ==> s == r)
  }

  ghost predicate TableImmutable(rs: Requests, after: Requests) {
    forall id | id in rs :: id in after && Immutable(rs[id], after[id])
  }

  lemma CommitImmutable(w: World, hash: Hash)
    ensures TableImmutable(w.requests, CommitPolicy(w, hash).requests)
  {
  }

  lemma PreviewImmutable(w: World, id: RequestId, paths: set<Path>)
    requires id !in w.requests
    ensures TableImmutable(w.requests, Supersede(w.requests)[id := Frozen(w, paths)])
  {
  }

  lemma MarkImmutable(w: World, id: RequestId, paths: set<Path>, result: TargetState)
    requires id in w.requests && w.requests[id].state.Executing()
    ensures TableImmutable(w.requests, MarkBatch(w, id, paths, result).requests)
  {
  }

  lemma WriteImmutable(rs: Requests, id: RequestId, r: Request)
    requires id in rs && Immutable(rs[id], r)
    ensures TableImmutable(rs, rs[id := r])
  {
  }

  lemma StepImmutable(w: World, ex: Excludes, step: Step)
    requires Guard(w, ex, step)
    ensures TableImmutable(w.requests, Next(w, ex, step).requests)
  {
    match step
    case DoCommit(hash) => CommitImmutable(w, hash);
    case DoPreview(id) => PreviewImmutable(w, id, SuppressedNow(w));
    case DoDiscover(id, candidates) => PreviewImmutable(w, id, candidates - w.ledger.Keys);
    case DoMarkMissing(id, paths) => MarkImmutable(w, id, paths, Missing);
    case DoMarkDeleted(id, paths) => MarkImmutable(w, id, paths, Deleted);
    case DoAuthorize(id, allow) => WriteImmutable(w.requests, id, Authorize(w, id, allow).requests[id]);
    case DoClaim(id) => WriteImmutable(w.requests, id, Claim(w, id).requests[id]);
    case DoComplete(id) => WriteImmutable(w.requests, id, Complete(w, id).requests[id]);
    case _ =>
  }

  lemma {:induction false} RequestImmutable(h: History, ex: Excludes, i: nat, j: nat, id: RequestId)
    requires h.Valid(ex) && i <= j <= |h.steps| && id in h.worlds[i].requests
    ensures id in h.worlds[j].requests && Immutable(h.worlds[i].requests[id], h.worlds[j].requests[id])
    decreases j
  {
    if i < j {
      RequestImmutable(h, ex, i, j - 1, id);
      assert h.StepOK(ex, j - 1);
      StepImmutable(h.worlds[j - 1], ex, h.steps[j - 1]);
    }
  }
}
