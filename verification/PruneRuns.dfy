/** What every step of the prune protocol keeps, and what that means over whole
    histories with failed batches, crashes, re-claims and policy changes. */
module PruneRuns {
  import opened Rows
  import opened Ledger
  import opened LedgerRefresh
  import opened PruneSteps

  // ----- the invariant -----

  /** Counters, limits and target rows of one request. */
  ghost predicate Accounting(r: Request) {
    && r.candidates == |r.frozen|
    && (r.state.Completed? ==> r.targets == map[] && r.deleted + r.missing == r.candidates)
    && (!r.state.Completed? ==> r.targets.Keys == r.frozen && r.deleted == |DeletedTargets(r)| && r.missing == |MissingTargets(r)|)
    && (r.state.Unexecuted() ==> forall p :: p in r.targets ==> r.targets[p].Open?)
    && (r.state.Authorized() ==> r.limit.Some? && r.candidates <= r.limit.value)
  }

  ghost predicate Settles(r: Request, p: Path) {
    p in r.frozen && (r.state.Completed? || (p in r.targets && !r.targets[p].Open?))
  }

  ghost predicate Releases(r: Request, p: Path) {
    p in r.frozen && (r.state.Completed? || (p in r.targets && r.targets[p].Missing?))
  }

  /** While the policy a request was previewed under has not changed since, its
      settled targets are gone from the remote and released rows from the ledger. */
  ghost predicate SameEpoch(w: World, r: Request) {
    && r.epoch <= w.epoch
    && (r.epoch == w.epoch ==>
          && r.hash == w.hash && w.refreshed == Some(w.hash)
          && (forall p :: Settles(r, p) ==> p !in w.remote)
          && (forall p :: Releases(r, p) ==> !IsSuppressed(w.ledger, p)))
  }

  ghost predicate RequestOK(w: World, ex: Excludes, r: Request) {
    && Accounting(r)
    && (forall p :: p in r.frozen ==> p in ex(r.hash))
    && SameEpoch(w, r)
  }

  ghost predicate RequestsInv(w: World, ex: Excludes) {
    && (forall id :: id in w.requests ==> RequestOK(w, ex, w.requests[id]))
    && (forall id, other | id in w.requests && other in w.requests ::
          w.requests[id].state.Executing() && w.requests[other].state.Executing() ==> id == other)
  }

  ghost predicate RowsOK(m: Ledger, ex: Excludes) {
    forall p :: IsSuppressed(m, p) ==> m[p].suppressedHash.Some? && p in ex(m[p].suppressedHash.value)
  }

  ghost predicate ActiveAllowed(m: Ledger, ignored: iset<Path>) { forall p :: IsActive(m, p) ==> p !in ignored }

  /** A ready refresh means no active row is ignored by the committed policy, and
      a suppressed row is ignored by the policy that suppressed it. */
  ghost predicate LedgerInv(w: World, ex: Excludes) {
    && (w.refresh.RefreshReady? <==> w.refreshed.Some?)
    && (w.refreshed.Some? ==> w.refreshed.value == w.hash && ActiveAllowed(w.ledger, ex(w.hash)))
    && RowsOK(w.ledger, ex)
  }

  ghost predicate Inv(w: World, ex: Excludes) { RequestsInv(w, ex) && LedgerInv(w, ex) }

  // ----- counting -----

  lemma Partition(r: Request)
    ensures |DeletedTargets(r)| + |MissingTargets(r)| + |OpenTargets(r)| == |r.targets.Keys|
  {
    assert r.targets.Keys == DeletedTargets(r) + MissingTargets(r) + OpenTargets(r);
  }

  lemma MarkedWith(targets: map<Path, TargetState>, changed: set<Path>, result: TargetState, other: TargetState)
    requires changed <= With(targets, Open) && !result.Open? && !other.Open? && other != result
    ensures Marked(targets, changed, result).Keys == targets.Keys
    ensures |With(Marked(targets, changed, result), result)| == |With(targets, result)| + |changed|
    ensures With(Marked(targets, changed, result), other) == With(targets, other)
  {
    assert With(Marked(targets, changed, result), result) == With(targets, result) + changed;
  }

  /** Marking a batch moves exactly the open ones, so the counters stay exact. */
  lemma MarkCounts(r: Request, paths: set<Path>, result: TargetState)
    requires Accounting(r) && r.state.Executing() && (result.Deleted? || result.Missing?)
    ensures Accounting(MarkRequest(r, paths, result))
  {
    MarkedWith(r.targets, paths * OpenTargets(r), result, if result.Deleted? then Missing else Deleted);
  }

  // ----- what each step keeps -----

  lemma MarkKept(w: World, ex: Excludes, id: RequestId, paths: set<Path>, result: TargetState)
    requires Inv(w, ex) && Owned(w, id) && paths !! w.remote && (result.Deleted? || result.Missing?)
    ensures Inv(MarkBatch(w, id, paths, result), ex)
  {
    assert RequestOK(w, ex, w.requests[id]);
    MarkCounts(w.requests[id], paths, result);
    var t := MarkBatch(w, id, paths, result);
    forall other | other in t.requests
      ensures RequestOK(t, ex, t.requests[other])
    {
      assert RequestOK(w, ex, w.requests[other]);
      forall p | t.requests[other].epoch == t.epoch && Settles(t.requests[other], p)
        ensures p !in t.remote
      {
        assert Settles(w.requests[other], p) || p in paths;
      }
      forall p | t.requests[other].epoch == t.epoch && Releases(t.requests[other], p)
        ensures !IsSuppressed(t.ledger, p)
      {
        assert Releases(w.requests[other], p) || (result.Missing? && p in paths * OpenTargets(w.requests[id]));
      }
    }
  }

  lemma CompleteKept(w: World, ex: Excludes, id: RequestId)
    requires Inv(w, ex) && Owned(w, id) && OpenTargets(w.requests[id]) == {}
    ensures Inv(Complete(w, id), ex)
  {
    Partition(w.requests[id]);
    var t := Complete(w, id);
    forall other | other in t.requests
      ensures RequestOK(t, ex, t.requests[other])
    {
      assert RequestOK(w, ex, w.requests[other]);
      forall p | t.requests[other].epoch == t.epoch && Settles(t.requests[other], p)
        ensures p !in t.remote
      {
        assert p in w.requests[id].targets ==> p !in OpenTargets(w.requests[id]);
        assert Settles(w.requests[other], p);
      }
      forall p | t.requests[other].epoch == t.epoch && Releases(t.requests[other], p)
        ensures !IsSuppressed(t.ledger, p)
      {
        assert p in w.requests[id].targets ==> p !in OpenTargets(w.requests[id]);
        assert Releases(w.requests[other], p) || p in DeletedTargets(w.requests[id]);
      }
    }
  }

  lemma RefreshOK(m: Ledger, ex: Excludes, active: set<Path>, proven: set<Path>, hash: Hash, generation: int)
    requires RowsOK(m, ex) && active !! proven
    requires forall p :: p in active + proven ==> p !in ex(hash)
    requires forall p :: IsActive(m, p) && p !in active + proven ==> p in ex(hash)
    ensures RowsOK(Refreshed(m, active, proven, hash, generation), ex)
    ensures ActiveAllowed(Refreshed(m, active, proven, hash, generation), ex(hash))
  {
    forall p | p in m
      ensures p in Refreshed(m, active, proven, hash, generation)
    {
      RefreshedRows(m, active, proven, hash, generation, p);
    }
  }

  lemma ApplyOK(m: Ledger, ex: Excludes, entries: seq<Entry>, hash: Hash)
    requires RowsOK(m, ex)
    requires forall p :: p in PathsOf(entries) ==> p !in ex(hash)
    ensures RowsOK(Applied(m, entries), ex)
    ensures ActiveAllowed(Applied(m, entries), ex(hash))
  {
    forall p
      ensures IsActive(Applied(m, entries), p) ==> p in PathsOf(entries)
      ensures IsSuppressed(Applied(m, entries), p) ==>
                IsSuppressed(m, p) && Applied(m, entries)[p].suppressedHash == m[p].suppressedHash
    {
      AppliedRows(m, entries, p);
    }
  }

  lemma LedgerAfterOK(w: World, ex: Excludes, a: Attempt)
    requires Inv(w, ex) && Guard(w, ex, DoReconcile(a))
    ensures RowsOK(LedgerAfter(w, ex, a), ex)
    ensures w.refreshed.Some? || a.cut.MarkedReady? || a.cut.Finished? ==> ActiveAllowed(LedgerAfter(w, ex, a), ex(w.hash))
  {
    var active, proven := PathsOf(a.scanned), ProvenDeletes(w, ex, a);
    if w.refreshed == Some(w.hash) {
      ApplyOK(w.ledger, ex, a.rescanned, w.hash);
    } else {
      var refreshed := Refreshed(w.ledger, active, proven, w.hash, a.generation);
      assert forall p :: p in proven ==> p !in active;
      RefreshOK(w.ledger, ex, active, proven, w.hash, a.generation);
      ApplyOK(refreshed, ex, a.rescanned, w.hash);
    }
  }

  lemma ReconcileLedgerKept(w: World, ex: Excludes, a: Attempt)
    requires Inv(w, ex) && Guard(w, ex, DoReconcile(a))
    ensures LedgerInv(Reconcile(w, ex, a), ex)
  {
    LedgerAfterOK(w, ex, a);
    assert LedgerInv(w, ex);
  }

  lemma ReconcileKept(w: World, ex: Excludes, a: Attempt)
    requires Inv(w, ex) && Guard(w, ex, DoReconcile(a))
    ensures Inv(Reconcile(w, ex, a), ex)
  {
    ReconcileLedgerKept(w, ex, a);
    var t := Reconcile(w, ex, a);
    forall id | id in t.requests
      ensures RequestOK(t, ex, t.requests[id])
    {
      var r := w.requests[id];
      assert RequestOK(w, ex, r);
      if r.epoch == w.epoch {
        forall p | p in r.frozen
          ensures p in t.remote ==> p in w.remote
          ensures IsSuppressed(t.ledger, p) ==> IsSuppressed(w.ledger, p)
        {
          AppliedRows(w.ledger, a.rescanned, p);
        }
      }
    }
  }

  lemma FastKept(w: World, ex: Excludes, step: Step)
    requires Inv(w, ex) && Guard(w, ex, step) && (step.DoFastUpload? || step.DoFastUpsert?)
    ensures Inv(Next(w, ex, step), ex)
  {
    var t := Next(w, ex, step);
    forall id | id in t.requests
      ensures RequestOK(t, ex, t.requests[id])
    {
      assert RequestOK(w, ex, w.requests[id]);
    }
    forall p | IsActive(t.ledger, p)
      ensures w.refreshed.Some? ==> p !in ex(w.hash)
    {
      assert step.DoFastUpsert? ==> p == step.entry.path || IsActive(w.ledger, p);
      assert step.DoFastUpsert? ==> step.entry.path in {step.entry.path};
    }
  }

  /** Writing one request keeps the others: what is asked of a request depends
      on nothing else in the table. */
  lemma WriteKept(w: World, ex: Excludes, id: RequestId, r: Request)
    requires Inv(w, ex) && RequestOK(w, ex, r)
    requires r.state.Executing() ==> NoneExecuting(w) || (id in w.requests && w.requests[id].state.Executing())
    ensures Inv(w.(requests := w.requests[id := r]), ex)
  {
    var t := w.(requests := w.requests[id := r]);
    forall other | other in t.requests
      ensures RequestOK(t, ex, t.requests[other])
    {
      assert RequestOK(w, ex, t.requests[other]);
    }
  }

  /** Only the label and the limit change: the targets and what is claimed about
      them stay. */
  lemma RelabelledOK(w: World, ex: Excludes, r: Request, state: RequestState, limit: Option<int>)
    requires RequestOK(w, ex, r) && !r.state.Completed? && !state.Completed?
    requires state.Unexecuted() ==> r.state.Unexecuted()
    requires state.Authorized() ==> limit.Some? && r.candidates <= limit.value
    ensures RequestOK(w, ex, r.(state := state, limit := limit))
  {
    var s := r.(state := state, limit := limit);
    assert DeletedTargets(s) == DeletedTargets(r) && MissingTargets(s) == MissingTargets(r);
    assert forall p :: Settles(s, p) == Settles(r, p) && Releases(s, p) == Releases(r, p);
  }

  lemma FrozenOK(w: World, ex: Excludes, paths: set<Path>)
    requires w.Ready() && forall p :: p in paths ==> p in ex(w.hash)
    ensures RequestOK(w, ex, Frozen(w, paths))
  {
    var r := Frozen(w, paths);
    assert DeletedTargets(r) == {} && MissingTargets(r) == {};
    assert r.targets.Keys == r.frozen;
  }

  lemma LabelOnlyOK(w: World, ex: Excludes, r: Request, s: Request)
    requires RequestOK(w, ex, r) && (s == r || (s == r.(state := s.state) && r.state.Unexecuted()))
    requires s == r || s.state.Stale? || s.state.Superseded?
    ensures RequestOK(w, ex, s)
  {
    if s != r {
      RelabelledOK(w, ex, r, s.state, r.limit);
    }
  }

  lemma SupersedeKept(w: World, ex: Excludes)
    requires Inv(w, ex)
    ensures Inv(w.(requests := Supersede(w.requests)), ex)
  {
    var t := w.(requests := Supersede(w.requests));
    forall id | id in t.requests
      ensures RequestOK(t, ex, t.requests[id])
      ensures t.requests[id].state.Executing() ==> w.requests[id].state.Executing()
    {
      LabelOnlyOK(w, ex, w.requests[id], t.requests[id]);
      SameTablesOK(w, ex, t, t.requests[id]);
    }
  }

  /** What is asked of a request depends on the world only through these fields. */
  lemma SameTablesOK(w: World, ex: Excludes, t: World, r: Request)
    requires RequestOK(w, ex, r)
    requires t.hash == w.hash && t.refreshed == w.refreshed && t.epoch == w.epoch
    requires t.remote == w.remote && t.ledger == w.ledger
    ensures RequestOK(t, ex, r)
  {
  }

  lemma PreviewKept(w: World, ex: Excludes, id: RequestId, paths: set<Path>)
    requires Inv(w, ex) && w.Ready() && forall p :: p in paths ==> p in ex(w.hash)
    ensures Inv(w.(requests := Supersede(w.requests)[id := Frozen(w, paths)]), ex)
  {
    var t := w.(requests := Supersede(w.requests));
    SupersedeKept(w, ex);
    FrozenOK(w, ex, paths);
    assert Frozen(w, paths) == Frozen(t, paths);
    FrozenOK(t, ex, paths);
    WriteKept(t, ex, id, Frozen(t, paths));
  }

  lemma ClaimKept(w: World, ex: Excludes, id: RequestId)
    requires Inv(w, ex) && Guard(w, ex, DoClaim(id))
    ensures Inv(Claim(w, id), ex)
  {
    var r := w.requests[id];
    var state := if r.hash == w.hash && w.Ready() then RequestState.Running else Stale;
    assert RequestOK(w, ex, r);
    assert ReopenMissing(r.targets) == r.targets;
    RelabelledOK(w, ex, r, state, r.limit);
    WriteKept(w, ex, id, r.(state := state, limit := r.limit));
  }

  lemma AuthorizeKept(w: World, ex: Excludes, id: RequestId, allowDeletes: int)
    requires Inv(w, ex) && Guard(w, ex, DoAuthorize(id, allowDeletes))
    ensures Inv(Authorize(w, id, allowDeletes), ex)
  {
    var r := w.requests[id];
    var limit := Some(Allowance(r, allowDeletes));
    assert RequestOK(w, ex, r);
    if r.candidates <= limit.value {
      RelabelledOK(w, ex, r, RequestState.Pending, limit);
      WriteKept(w, ex, id, r.(state := RequestState.Pending, limit := limit));
    }
  }

  lemma OwnershipKept(w: World, ex: Excludes, id: RequestId, state: RequestState)
    requires Inv(w, ex) && id in w.requests && w.requests[id].state.Executing() && state.Executing()
    ensures Inv(SetState(w, id, state), ex)
  {
    var r := w.requests[id];
    assert RequestOK(w, ex, r);
    RelabelledOK(w, ex, r, state, r.limit);
    WriteKept(w, ex, id, r.(state := state, limit := r.limit));
  }

  lemma OldEpochOK(w: World, ex: Excludes, t: World, r: Request)
    requires RequestOK(w, ex, r) && w.epoch < t.epoch
    ensures RequestOK(t, ex, r)
  {
  }

  lemma CommitKept(w: World, ex: Excludes, hash: Hash)
    requires Inv(w, ex)
    ensures Inv(CommitPolicy(w, hash), ex)
  {
    var t := CommitPolicy(w, hash);
    if hash != w.hash {
      forall id | id in t.requests
        ensures RequestOK(t, ex, t.requests[id])
        ensures t.requests[id].state.Executing() ==> w.requests[id].state.Executing()
      {
        LabelOnlyOK(w, ex, w.requests[id], t.requests[id]);
        OldEpochOK(w, ex, t, t.requests[id]);
      }
    }
  }

  lemma InvKept(w: World, ex: Excludes, step: Step)
    requires Inv(w, ex) && Guard(w, ex, step)
    ensures Inv(Next(w, ex, step), ex)
  {
    match step
    case DoCommit(hash) => CommitKept(w, ex, hash);
    case DoReconcile(a) => ReconcileKept(w, ex, a);
    case DoFastUpload(_) => FastKept(w, ex, step);
    case DoFastUpsert(_) => FastKept(w, ex, step);
    case DoConfigure(maxDelete) => RemoteShrinks(w, ex, w.(maxDelete := maxDelete));
    case DoPreview(id) =>
      assert forall p | p in SuppressedNow(w) :: IsSuppressed(w.ledger, p);
      PreviewKept(w, ex, id, SuppressedNow(w));
    case DoDiscover(id, candidates) => PreviewKept(w, ex, id, candidates - w.ledger.Keys);
    case DoMarkMissing(id, paths) => MarkKept(w, ex, id, paths, Missing);
    case DoMarkDeleted(id, paths) => MarkKept(w, ex, id, paths, Deleted);
    case DoDeleteBatch(_, _, gone) => RemoteShrinks(w, ex, w.(remote := w.remote - gone));
    case DoComplete(id) => CompleteKept(w, ex, id);
    case DoAuthorize(id, allow) => AuthorizeKept(w, ex, id, allow);
    case DoClaim(id) => ClaimKept(w, ex, id);
    case DoReclaim(id) => OwnershipKept(w, ex, id, RequestState.Running);
    case DoRetry(id) => OwnershipKept(w, ex, id, Retrying);
  }

  lemma RemoteShrinks(w: World, ex: Excludes, t: World)
    requires Inv(w, ex) && t == w.(remote := t.remote, maxDelete := t.maxDelete) && t.remote <= w.remote
    ensures Inv(t, ex)
  {
    forall id | id in t.requests
      ensures RequestOK(t, ex, t.requests[id])
    {
      assert RequestOK(w, ex, w.requests[id]);
    }
  }
}
