/** The prune tables and the worker that drives them, updated in place. Every
    method does to the tables what its step function says, and one execution of
    an authorized prune, however its remote calls end, is a history of steps. */
module PruneStore {
  import opened Rows
  import opened Ledger
  import opened PruneSteps
  import opened PruneRuns
  import opened PruneHistory
  import opened Lists

  const DELETE_BATCH := 512

  lemma MarkNothing(w: World, id: RequestId, result: TargetState)
    requires id in w.requests
    ensures MarkBatch(w, id, SetOf([]), result) == w
  {
    var r := w.requests[id];
    assert SetOf([]) * OpenTargets(r) == {};
    assert Marked(r.targets, {}, result) == r.targets;
    assert Release(w.ledger, {}) == w.ledger;
    assert w.requests[id := r] == w.requests;
  }

  /** How the foreign calls of one execution end: whether the frozen paths are
      well formed, whether the listing and the directory cleanup succeed, and for
      each delete batch `None` on success or what a failed batch still deleted. */
  datatype Outcomes = Outcomes(wellFormed: bool, listed: bool, batches: nat -> Option<set<Path>>, cleaned: bool)

  /** Every foreign call of one execution ends well. */
  ghost predicate AllWell(calls: Outcomes) {
    calls.wellFormed && calls.listed && calls.cleaned && forall k :: calls.batches(k).None?
  }

  /** What one pass over the queue takes up: the executing request if there is
      one, and otherwise a queued one. */
  ghost predicate TakenUp(w: World, id: RequestId) {
    && id in w.requests
    && (w.requests[id].state.Executing() || (w.requests[id].state.Pending? && NoneExecuting(w)))
  }

  ghost predicate NothingQueued(w: World) {
    NoneExecuting(w) && forall id | id in w.requests :: !w.requests[id].state.Pending?
  }

  /** The policy the request was previewed under is committed and ready. */
  predicate InForce(w: World, id: RequestId)
    requires id in w.requests
  {
    w.requests[id].hash == w.hash && w.Ready()
  }

  datatype PruneResult = Idle | WentStale(id: RequestId) | Mismatch(id: RequestId)
                       | Interrupted(id: RequestId) | Done(id: RequestId)

  /** The outcome row of one target: it is marked only while it is open, and when
      it turns out missing its suppressed ledger row goes with it. */
  method MarkRow(targets: map<Path, TargetState>, rows: Ledger, p: Path, result: TargetState)
    returns (targets': map<Path, TargetState>, rows': Ledger, affected: int)
    ensures affected == if p in With(targets, Open) then 1 else 0
    ensures targets' == Marked(targets, {p} * With(targets, Open), result)
    ensures rows' == if result.Missing? then Release(rows, {p} * With(targets, Open)) else rows
  {
    targets', rows', affected := targets, rows, 0;
    if p in targets && targets[p] == Open {
      targets' := targets[p := result];
      affected := 1;
      if result == Missing && p in rows && rows[p].state.Suppressed? {
        rows' := rows - {p};
      }
    }
  }

  /** Marking a prefix and then one more path is marking the longer prefix. */
  lemma MarkThen(was: map<Path, TargetState>, done: set<Path>, p: Path, result: TargetState)
    requires !result.Open?
    ensures var open := With(was, Open);
            var mid := Marked(was, done * open, result);
            && With(mid, Open) == open - done
            && Marked(mid, {p} * (open - done), result) == Marked(was, (done + {p}) * open, result)
  {
  }

  lemma CountThen(open: set<Path>, done: set<Path>, p: Path)
    ensures |(done + {p}) * open| == |done * open| + if p in open - done then 1 else 0
  {
    if p in open - done {
      assert (done + {p}) * open == done * open + {p};
    } else {
      assert (done + {p}) * open == done * open;
    }
  }

  lemma ReleaseThen(m: Ledger, done: set<Path>, p: Path, open: set<Path>)
    ensures Release(Release(m, done * open), {p} * (open - done)) == Release(m, (done + {p}) * open)
  {
  }

  ghost predicate BatchDone(was: map<Path, TargetState>, m: Ledger, done: set<Path>, result: TargetState,
                            targets: map<Path, TargetState>, rows: Ledger, changed: int)
  {
    && targets == Marked(was, done * With(was, Open), result)
    && rows == (if result.Missing? then Release(m, done * With(was, Open)) else m)
    && changed == |done * With(was, Open)|
  }

  lemma BatchStart(was: map<Path, TargetState>, m: Ledger, result: TargetState)
    ensures BatchDone(was, m, {}, result, was, m, 0)
  {
    assert {} * With(was, Open) == {};
    assert Marked(was, {}, result) == was && Release(m, {}) == m;
  }

  lemma BatchStep(was: map<Path, TargetState>, m: Ledger, done: set<Path>, result: TargetState,
                  targets: map<Path, TargetState>, rows: Ledger, changed: int,
                  p: Path, targets': map<Path, TargetState>, rows': Ledger, affected: int)
    requires !result.Open? && BatchDone(was, m, done, result, targets, rows, changed)
    requires affected == if p in With(targets, Open) then 1 else 0
    requires targets' == Marked(targets, {p} * With(targets, Open), result)
    requires rows' == if result.Missing? then Release(rows, {p} * With(targets, Open)) else rows
    ensures BatchDone(was, m, done + {p}, result, targets', rows', changed + affected)
  {
    MarkThen(was, done, p, result);
    CountThen(With(was, Open), done, p);
    ReleaseThen(m, done, p, With(was, Open));
  }

  /** The rows of one result batch, one target after the other; a path listed
      twice counts once. */
  method MarkRows(was: map<Path, TargetState>, m: Ledger, relPaths: seq<Path>, result: TargetState)
    returns (targets: map<Path, TargetState>, rows: Ledger, changed: int)
    requires !result.Open?
    ensures targets == Marked(was, SetOf(relPaths) * With(was, Open), result)
    ensures rows == if result.Missing? then Release(m, SetOf(relPaths) * With(was, Open)) else m
    ensures changed == |SetOf(relPaths) * With(was, Open)|
  {
    targets, rows, changed := was, m, 0;
    ghost var done: set<Path> := {};
    BatchStart(was, m, result);
    for k := 0 to |relPaths|
      invariant done == SetOf(relPaths[..k])
      invariant BatchDone(was, m, done, result, targets, rows, changed)
    {
      var p := relPaths[k];
      SetOfPrefix(relPaths, k);
      var targets', rows', affected := MarkRow(targets, rows, p, result);
      BatchStep(was, m, done, result, targets, rows, changed, p, targets', rows', affected);
      done := done + {p};
      targets, rows, changed := targets', rows', changed + affected;
    }
    assert relPaths[..|relPaths|] == relPaths;
  }

  lemma MarkOpen(w: World, id: RequestId, paths: set<Path>, result: TargetState)
    requires id in w.requests && !result.Open?
    ensures var after := MarkBatch(w, id, paths, result).requests[id];
            OpenTargets(after) == OpenTargets(w.requests[id]) - paths
            && after.state == w.requests[id].state && after.hash == w.requests[id].hash
  {
  }

  class PruneStore {
    var hash: Hash
    var refresh: RefreshState
    var refreshed: Option<Hash>
    var maxDelete: int
    var ledger: Ledger
    var requests: Requests
    var remote: set<Path>
    /** History: the number of policy commits so far; no table stores it. */
    var epoch: nat

    constructor (hash: Hash, maxDelete: int)
      ensures View() == World(hash, RefreshPending, None, 0, maxDelete, map[], map[], {})
    {
      this.hash, this.refresh, this.refreshed, this.maxDelete := hash, RefreshPending, None, maxDelete;
      this.ledger, this.requests, this.remote, this.epoch := map[], map[], {}, 0;
    }

    ghost function View(): World
      reads this
    {
      World(hash, refresh, refreshed, epoch, maxDelete, ledger, requests, remote)
    }

    // ----- previews and authorization -----

    method SupersedePreviews()
      modifies this`requests
      ensures requests == Supersede(old(requests))
    {
      var rest := requests.Keys;
      while rest != {}
        invariant rest <= old(requests).Keys == requests.Keys
        invariant forall id | id in requests :: requests[id] == if id in rest then old(requests)[id] else Supersede(old(requests))[id]
        decreases rest
      {
        var id :| id in rest;
        rest := rest - {id};
        if requests[id].state.Previewed? || requests[id].state.ApprovalRequired? {
          requests := requests[id := requests[id].(state := Superseded)];
        }
      }
    }

    method InsertPreview(id: RequestId, paths: set<Path>)
      modifies this`requests
      ensures requests == Supersede(old(requests))[id := Frozen(old(View()), paths)]
    {
      SupersedePreviews();
      var targets: map<Path, TargetState> := map[];
      var rest := paths;
      while rest != {}
        invariant rest <= paths && targets == map p | p in paths - rest :: Open
        decreases rest
      {
        var p :| p in rest;
        rest := rest - {p};
        targets := targets[p := Open];
      }
      assert paths - rest == paths;
      requests := requests[id := Request(hash, Previewed, paths, targets, |paths|, maxDelete, None, 0, 0, epoch)];
    }

    /** Freezes the rows suppressed by the committed policy, once its refresh is ready. */
    method CreatePrunePreview(id: RequestId) returns (ok: bool)
      requires id !in requests
      modifies this
      ensures ok == old(View()).Ready()
      ensures View() == if ok then Preview(old(View()), id) else old(View())
    {
      ok := refresh == RefreshReady && refreshed == Some(hash);
      if !ok {
        return;
      }
      var paths: set<Path> := {};
      var rest := ledger.Keys;
      while rest != {}
        invariant rest <= ledger.Keys && unchanged(this)
        invariant paths == SuppressedNow(View()) - rest
        decreases rest
      {
        var p :| p in rest;
        rest := rest - {p};
        if ledger[p].state.Suppressed? && ledger[p].suppressedHash == Some(hash) {
          paths := paths + {p};
        }
      }
      assert paths == SuppressedNow(View());
      InsertPreview(id, paths);
    }

    /** Freezes discovered orphans, dropping any that became managed meanwhile. */
    method CreatePrunePreviewFromUnmanagedPaths(id: RequestId, expected: Hash, candidates: seq<Path>) returns (ok: bool)
      requires id !in requests
      modifies this
      ensures ok == (old(View()).Ready() && old(hash) == expected)
      ensures View() == if ok then Discover(old(View()), id, SetOf(candidates)) else old(View())
    {
      ok := refresh == RefreshReady && refreshed == Some(hash) && hash == expected;
      if !ok {
        return;
      }
      var paths: set<Path> := {};
      for k := 0 to |candidates|
        invariant unchanged(this)
        invariant paths == SetOf(candidates[..k]) - ledger.Keys
      {
        SetOfPrefix(candidates, k);
        if candidates[k] !in ledger {
          paths := paths + {candidates[k]};
        }
      }
      assert candidates[..|candidates|] == candidates;
      InsertPreview(id, paths);
    }

    method AuthorizePrune(id: RequestId, allowDeletes: int) returns (ok: bool)
      requires id in requests
      modifies this
      ensures var limit := if allowDeletes > 0 then allowDeletes else old(requests)[id].defaultMax;
              && (ok <==> old(requests)[id].candidates <= limit)
              && (ok ==> requests == old(requests)[id := old(requests)[id].(limit := Some(limit), state := Pending)])
      ensures !ok ==> View() == old(View())
      ensures View() == Authorize(old(View()), id, allowDeletes)
    {
      var r := requests[id];
      var effective := allowDeletes;
      if effective <= 0 {
        effective := r.defaultMax;
      }
      if r.candidates > effective {
        return false;
      }
      requests := requests[id := r.(limit := Some(effective), state := Pending)];
      return true;
    }

    // ----- claiming -----

    method ClaimPrune() returns (claimed: Option<RequestId>)
      modifies this`requests
      ensures claimed.None? ==> View() == old(View()) && forall id | id in requests :: !requests[id].state.Pending?
      ensures claimed.Some? ==> claimed.value in old(requests) && old(requests)[claimed.value].state.Pending?
                                && View() == Claim(old(View()), claimed.value)
    {
      var queued := set id | id in requests && requests[id].state.Pending?;
      if queued == {} {
        assert forall id | id in requests && requests[id].state.Pending? :: id in queued;
        return None;
      }
      var id :| id in queued;
      var r := requests[id];
      if hash != r.hash || refresh != RefreshReady || refreshed != Some(hash) {
        requests := requests[id := r.(state := Stale)];
        return Some(id);
      }
      requests := requests[id := r.(state := RequestState.Running, targets := ReopenMissing(r.targets))];
      return Some(id);
    }

    method ClaimRetryingPrune() returns (claimed: Option<RequestId>)
      modifies this`requests
      ensures claimed.None? ==> View() == old(View()) && NoneExecuting(View())
      ensures claimed.Some? ==> claimed.value in old(requests) && old(requests)[claimed.value].state.Executing()
                                && View() == SetState(old(View()), claimed.value, RequestState.Running)
    {
      var left := set id | id in requests && requests[id].state.Executing();
      if left == {} {
        assert forall id | id in requests && requests[id].state.Executing() :: id in left;
        return None;
      }
      var id :| id in left;
      requests := requests[id := requests[id].(state := RequestState.Running)];
      return Some(id);
    }

    // ----- target results -----

    /** Records one batch of outcomes; a repeated call changes nothing more. */
    method MarkPruneTargetsResultBatch(id: RequestId, relPaths: seq<Path>, result: TargetState) returns (ok: bool)
      requires id in requests
      modifies this`requests, this`ledger
      ensures ok == (relPaths == [] || !result.Open?)
      ensures View() == if ok then MarkBatch(old(View()), id, SetOf(relPaths), result) else old(View())
    {
      if relPaths == [] {
        MarkNothing(View(), id, result);
        return true;
      }
      if result.Open? {
        return false;
      }
      var targets, rows, changed := MarkRows(requests[id].targets, ledger, relPaths, result);
      var r := requests[id].(targets := targets);
      if result == Deleted {
        r := r.(deleted := r.deleted + changed);
      } else {
        r := r.(missing := r.missing + changed);
      }
      requests, ledger := requests[id := r], rows;
      return true;
    }

    method CommitPruneComplete(id: RequestId)
      requires id in requests
      modifies this`requests, this`ledger
      ensures View() == Complete(old(View()), id)
    {
      var targets := requests[id].targets;
      var rest := targets.Keys;
      while rest != {}
        invariant rest <= targets.Keys
        invariant ledger == Release(old(ledger), DeletedTargets(old(requests)[id]) - rest)
        invariant View() == old(View()).(ledger := ledger)
        decreases rest
      {
        var p :| p in rest;
        rest := rest - {p};
        if targets[p] == Deleted && p in ledger && ledger[p].state.Suppressed? {
          ledger := ledger - {p};
        }
      }
      assert DeletedTargets(old(requests)[id]) - rest == DeletedTargets(old(requests)[id]);
      requests := requests[id := requests[id].(state := Completed, targets := map[])];
    }

    // ----- the remote -----

    /** One existence listing splits the paths, keeping their order. */
    method ClassifyPruneRemotePaths(paths: seq<Path>) returns (existing: seq<Path>, missing: seq<Path>)
      requires Distinct(paths)
      ensures SetOf(existing) == SetOf(paths) * remote && SetOf(missing) == SetOf(paths) - remote
      ensures Distinct(existing)
    {
      existing, missing := [], [];
      for k := 0 to |paths|
        invariant SetOf(existing) == SetOf(paths[..k]) * remote && SetOf(missing) == SetOf(paths[..k]) - remote
        invariant Distinct(existing)
      {
        SetOfPrefix(paths, k);
        SetOfAppend(existing, paths[k]);
        SetOfAppend(missing, paths[k]);
        if paths[k] in remote {
          existing := existing + [paths[k]];
        } else {
          missing := missing + [paths[k]];
        }
      }
      assert paths[..|paths|] == paths;
    }

    method DeletePruneBatch(batch: seq<Path>, outcome: Option<set<Path>>) returns (ok: bool)
      modifies this`remote
      ensures ok == outcome.None?
      ensures remote == old(remote) - if ok then SetOf(batch) else SetOf(batch) * outcome.value
    {
      ok := outcome == None;
      if ok {
        remote := remote - SetOf(batch);
      } else {
        remote := remote - (SetOf(batch) * outcome.value);
      }
    }

    /** The targets of a request that are not yet settled, each once. */
    method UnsettledTargets(id: RequestId) returns (pending: seq<Path>)
      requires id in requests
      ensures SetOf(pending) == OpenTargets(requests[id]) && Distinct(pending)
    {
      pending := [];
      var targets := requests[id].targets;
      var rest := targets.Keys;
      while rest != {}
        invariant rest <= targets.Keys
        invariant SetOf(pending) == OpenTargets(requests[id]) - rest && Distinct(pending)
        decreases rest
      {
        var p :| p in rest;
        rest := rest - {p};
        if targets[p] == Deleted || targets[p] == Missing {
          continue;
        }
        SetOfAppend(pending, p);
        pending := pending + [p];
      }
    }

    method SetPruneRetrying(id: RequestId)
      requires id in requests
      modifies this`requests
      ensures View() == SetState(old(View()), id, Retrying)
    {
      requests := requests[id := requests[id].(state := Retrying)];
    }

    // ----- one execution -----

    /** Claims an interrupted request before a queued one. */
    method ClaimNext(ghost ex: Excludes) returns (claimed: Option<RequestId>, ghost h: History)
      requires Inv(View(), ex)
      modifies this`requests
      ensures h.Valid(ex) && h.worlds[0] == old(View()) && h.Last() == View()
      ensures claimed.None? ==> View() == old(View()) && NothingQueued(View())
      ensures claimed.Some? ==> TakenUp(old(View()), claimed.value) && claimed.value in requests
      ensures claimed.Some? ==> requests[claimed.value].hash == old(requests)[claimed.value].hash
      ensures claimed.Some? ==>
                var stale := old(requests)[claimed.value].state.Pending? && !InForce(old(View()), claimed.value);
                requests[claimed.value].state == if stale then Stale else RequestState.Running
    {
      h := Start(ex, View());
      claimed := ClaimRetryingPrune();
      if claimed.Some? {
        h := h.Then(ex, DoReclaim(claimed.value));
        return;
      }
      claimed := ClaimPrune();
      if claimed.Some? {
        h := h.Then(ex, DoClaim(claimed.value));
      }
    }

    /** Deletes the listed targets batch by batch, with a durable checkpoint after
        each batch that succeeded and none after a failed one. */
    method DeleteInBatches(ghost ex: Excludes, id: RequestId, existing: seq<Path>,
                           batches: nat -> Option<set<Path>>, ghost before: History)
      returns (ok: bool, ghost h: History)
      requires before.Valid(ex) && before.Last() == View() && Owned(View(), id)
      requires Distinct(existing) && SetOf(existing) == OpenTargets(requests[id])
      modifies this`requests, this`ledger, this`remote
      ensures h.Valid(ex) && h.worlds[0] == before.worlds[0] && h.Last() == View() && Owned(View(), id)
      ensures ok ==> OpenTargets(requests[id]) == {}
      ensures (forall k :: batches(k).None?) ==> ok
    {
      h := before;
      var start, round := 0, 0;
      while start < |existing|
        invariant start <= |existing|
        invariant h.Valid(ex) && h.worlds[0] == before.worlds[0] && h.Last() == View() && Owned(View(), id)
        invariant SetOf(existing[start..]) == OpenTargets(requests[id])
      {
        var end := if start + DELETE_BATCH > |existing| then |existing| else start + DELETE_BATCH;
        var batch := existing[start..end];
        SplitSet(existing, start, end);
        ok := DeletePruneBatch(batch, batches(round));
        ghost var gone := if ok then SetOf(batch) else SetOf(batch) * batches(round).value;
        h := h.Then(ex, DoDeleteBatch(id, SetOf(batch), gone));
        if !ok {
          return;
        }
        MarkOpen(View(), id, SetOf(batch), Deleted);
        var _ := MarkPruneTargetsResultBatch(id, batch, Deleted);
        h := h.Then(ex, DoMarkDeleted(id, SetOf(batch)));
        start, round := end, round + 1;
      }
      assert existing[start..] == [];
      ok := true;
    }

    /** The existence listing of a claimed request: missing targets are recorded
        at once, the existing ones are returned. */
    method RecordMissing(ghost ex: Excludes, id: RequestId, ghost before: History)
      returns (existing: seq<Path>, ghost h: History)
      requires before.Valid(ex) && before.Last() == View() && Owned(View(), id)
      modifies this`requests, this`ledger
      ensures h.Valid(ex) && h.worlds[0] == before.worlds[0] && h.Last() == View() && Owned(View(), id)
      ensures Distinct(existing) && SetOf(existing) == OpenTargets(requests[id]) <= remote
    {
      h := before;
      var pending := UnsettledTargets(id);
      var missing;
      existing, missing := ClassifyPruneRemotePaths(pending);
      assert SetOf(existing) == OpenTargets(requests[id]) - SetOf(missing);
      if |missing| > 0 {
        MarkOpen(View(), id, SetOf(missing), Missing);
        var _ := MarkPruneTargetsResultBatch(id, missing, Missing);
        h := h.Then(ex, DoMarkMissing(id, SetOf(missing)));
      }
    }

    /** The execution of a claimed request whose policy is in force. */
    method ExecuteClaimed(ghost ex: Excludes, id: RequestId, calls: Outcomes, ghost before: History)
      returns (done: bool, ghost h: History)
      requires before.Valid(ex) && before.Last() == View() && Owned(View(), id)
      modifies this`requests, this`ledger, this`remote
      ensures h.Valid(ex) && h.worlds[0] == before.worlds[0] && h.Last() == View()
      ensures done ==> id in requests && requests[id].state.Completed?
      ensures AllWell(calls) ==> done
    {
      h := before;
      if !calls.wellFormed {
        return false, h;
      }
      done := calls.listed;
      if done {
        var existing;
        existing, h := RecordMissing(ex, id, h);
        done, h := DeleteInBatches(ex, id, existing, calls.batches, h);
      }
      if !done || !calls.cleaned {
        SetPruneRetrying(id);
        h := h.Then(ex, DoRetry(id));
        return false, h;
      }
      CommitPruneComplete(id);
      h := h.Then(ex, DoComplete(id));
    }

    /** One pass over the prune queue under the profile lock. The history says
        that nothing happened but legal steps, in order; when the result is
        `Done` every target was settled and the request completed. */
    method RunAuthorizedPrune(ghost ex: Excludes, calls: Outcomes) returns (result: PruneResult, ghost h: History)
      requires Inv(View(), ex)
      modifies this`requests, this`ledger, this`remote
      ensures h.Valid(ex) && h.worlds[0] == old(View()) && h.Last() == View()
      ensures result.Idle? <==> NothingQueued(old(View()))
      ensures result.Idle? ==> View() == old(View())
      ensures !result.Idle? ==> TakenUp(old(View()), result.id)
      ensures !result.Idle? ==>
                && (result.Mismatch? <==> old(requests)[result.id].state.Executing() && !InForce(old(View()), result.id))
                && (result.WentStale? <==> old(requests)[result.id].state.Pending? && !InForce(old(View()), result.id))
                && (AllWell(calls) ==> (result.Done? <==> InForce(old(View()), result.id)))
      ensures result.Done? ==> result.id in requests && requests[result.id].state.Completed?
      ensures result.WentStale? || result.Mismatch? ==> remote == old(remote) && ledger == old(ledger)
    {
      var claimed;
      claimed, h := ClaimNext(ex);
      if claimed == None {
        return Idle, h;
      }
      var id := claimed.value;
      if requests[id].state == Stale {
        return WentStale(id), h;
      }
      if hash != requests[id].hash || refresh != RefreshReady {
        return Mismatch(id), h;
      }
      var done;
      done, h := ExecuteClaimed(ex, id, calls, h);
      result := if done then Done(id) else Interrupted(id);
    }
  }
}
