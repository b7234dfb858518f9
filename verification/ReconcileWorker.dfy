/** One full reconciliation attempt, in the order the worker takes its effects:
    classify, check the budget, upload, delete, refresh, mark ready, apply. */
module ReconcileWorker {
  import opened Rows
  import opened Ledger
  import opened PruneSteps
  import opened Lists
  import PruneLaws
  import SyncSteps

  /** How the foreign calls and later transactions of one attempt end. `upload` is
      `None` on success or what a failed upload still moved; a delete pass stops at
      its first failing path. */
  datatype Calls = Calls(stable: bool, upload: Option<set<Path>>, deleteFailsAt: Option<nat>, refreshed: bool, marked: bool, applied: bool)

  /** The attempt enforces the limit recorded by its claim, passed as a
      per-attempt allowance over the profile that was loaded before the claim.
      The two agree exactly when the recorded limit is positive or the profile
      did not change in between: a recorded limit of zero reads as no allowance. */
  lemma ClaimedLimitIsEnforced(s: SyncSteps.State, loadedMaxDelete: int)
    ensures var asked := if SyncSteps.Consumes(s.sync) then s.sync.manual.value.allowDeletes else 0;
            var recorded := if asked == 0 then s.profile.maxDelete else asked;
            && SyncSteps.ClaimedRun(s).effectiveMaxDelete == recorded
            && (EffectiveDeleteLimit(loadedMaxDelete, SyncSteps.ClaimedRun(s).effectiveMaxDelete) == recorded
                <==> recorded > 0 || loadedMaxDelete == recorded)
  {
  }

  /** Every foreign call and later transaction of an attempt succeeds. */
  predicate AllWell(calls: Calls) {
    calls.stable && calls.upload.None? && calls.deleteFailsAt.None? && calls.refreshed && calls.marked && calls.applied
  }

  /** The laws of an attempt, for the step that the method performs. */
  lemma AttemptMeans(w: World, ex: Excludes, a: Attempt, ok: bool)
    requires ok ==> a.cut.Finished? && |ProvenDeletes(w, ex, a)| <= EffectiveDeleteLimit(w.maxDelete, a.allowDeletes)
    ensures var t, missed := Reconcile(w, ex, a), PruneLaws.Missed(w.ledger, a.scanned, a.pending, w.hash, ex(w.hash));
            && missed == ProvenDeletes(w, ex, a) && w.remote - missed <= t.remote <= w.remote + a.uploads
            && (ok ==>
                  && t.remote == (w.remote + a.uploads) - missed
                  && (forall p | p in a.uploads && !(IsActive(w.ledger, p) && !PruneLaws.Scanned(a.scanned, p)) :: p in t.remote)
                  && t.refreshed == Some(w.hash)
                  && (w.refreshed != Some(w.hash) || w.refresh.RefreshReady? ==> t.refresh.RefreshReady?)
                  && PruneLaws.RowsFollow(w.ledger, t.ledger, a.scanned, a.rescanned, missed, w.refreshed != Some(w.hash)))
  {
    PruneLaws.MissedAreProven(w, ex, a);
    PruneLaws.AttemptIsBounded(w, ex, a);
    if ok {
      PruneLaws.FinishedAttempt(w, ex, a);
    }
  }

  class Worker {
    const ledger: LedgerStore
    var hash: Hash
    var refresh: RefreshState
    var refreshed: Option<Hash>
    var maxDelete: int
    var remote: set<Path>

    constructor (ledger: LedgerStore, hash: Hash, maxDelete: int)
      ensures this.ledger == ledger
      ensures View() == World(hash, RefreshPending, None, 0, maxDelete, ledger.manifest, map[], {})
    {
      this.ledger, this.hash, this.refresh, this.refreshed := ledger, hash, RefreshPending, None;
      this.maxDelete, this.remote := maxDelete, {};
    }

    ghost function View(): World
      reads this, ledger
    {
      World(hash, refresh, refreshed, 0, maxDelete, ledger.manifest, map[], remote)
    }

    /** Deletes in order and stops at the first failure. */
    method DeleteRemotePaths(paths: seq<Path>, failsAt: Option<nat>) returns (ok: bool, ghost gone: set<Path>)
      modifies this`remote
      ensures remote == old(remote) - gone && gone <= SetOf(paths)
      ensures ok <==> failsAt.None? || failsAt.value >= |paths|
      ensures ok ==> gone == SetOf(paths)
      ensures !ok ==> gone == SetOf(paths[..failsAt.value])
    {
      gone := {};
      for k := 0 to |paths|
        invariant remote == old(remote) - gone && gone == SetOf(paths[..k])
        invariant failsAt.None? || failsAt.value >= k
      {
        if failsAt == Some(k) {
          return false, gone;
        }
        SetOfPrefix(paths, k);
        remote := remote - {paths[k]};
        gone := gone + {paths[k]};
      }
      assert paths[..|paths|] == paths;
      ok := true;
    }

    /** The remote part: nothing happens beyond the budget or an unstable source. */
    method ReconcileProtected(uploads: set<Path>, proven: seq<Path>, allowDeletes: int, calls: Calls)
      returns (ok: bool, ghost cut: Cut)
      modifies this`remote
      ensures ok ==> |proven| <= EffectiveDeleteLimit(maxDelete, allowDeletes) && cut == RemoteDone
      ensures !ok ==> cut.Planned? || cut.Uploading? || cut.Deleting?
      ensures |proven| > EffectiveDeleteLimit(maxDelete, allowDeletes) ==> cut.Planned?
      ensures remote == match cut
                        case Planned => old(remote)
                        case Uploading(moved) => old(remote) + moved * uploads
                        case Deleting(gone) => (old(remote) + uploads) - (gone * SetOf(proven))
                        case _ => (old(remote) + uploads) - SetOf(proven)
      ensures ok <== calls.stable && calls.upload.None? && calls.deleteFailsAt.None? && |proven| <= EffectiveDeleteLimit(maxDelete, allowDeletes)
    {
      var effective := maxDelete;
      if allowDeletes > 0 {
        effective := allowDeletes;
      }
      if !calls.stable || |proven| > effective {
        return false, Planned;
      }
      if calls.upload.Some? {
        remote := remote + calls.upload.value * uploads;
        return false, Uploading(calls.upload.value);
      }
      remote := remote + uploads;
      if |proven| > 0 {
        ghost var gone;
        ok, gone := DeleteRemotePaths(proven, calls.deleteFailsAt);
        if !ok {
          assert gone * SetOf(proven) == gone;
          return false, Deleting(gone);
        }
      } else {
        assert SetOf(proven) == {};
      }
      return true, RemoteDone;
    }

    method ActiveSet(scanned: seq<Entry>) returns (active: set<Path>)
      ensures active == PathsOf(scanned)
    {
      active := {};
      for k := 0 to |scanned|
        invariant active == PathsOf(scanned[..k])
      {
        assert forall i | 0 <= i < k :: scanned[..k + 1][i] == scanned[..k][i];
        active := active + {scanned[k].path};
      }
      assert scanned[..|scanned|] == scanned;
    }

    /** The ledger part, after the remote part succeeded. */
    method UpdateLedger(active: set<Path>, deletes: set<Path>, rescanned: seq<Entry>, generation: int, calls: Calls)
      returns (ok: bool, ghost cut: Cut)
      modifies this`refresh, this`refreshed, ledger
      ensures ok <==> cut.Finished?
      ensures calls.refreshed && calls.marked && calls.applied ==> ok
      ensures cut.RemoteDone? || cut.LedgerRefreshed? || cut.MarkedReady? || cut.Finished?
      ensures var was, debt := old(ledger.manifest), old(refreshed) != Some(hash);
              var reclassified := if debt then Refreshed(was, active, deletes, hash, generation) else was;
              var ready := debt && (cut.MarkedReady? || cut.Finished?);
              && ledger.manifest == (match cut
                                     case LedgerRefreshed => reclassified
                                     case MarkedReady => reclassified
                                     case Finished => Applied(reclassified, rescanned)
                                     case _ => was)
              && refresh == (if ready then RefreshReady else old(refresh))
              && refreshed == (if ready then Some(hash) else old(refreshed))
    {
      cut := RemoteDone;
      if refreshed != Some(hash) {
        if !calls.refreshed {
          return false, cut;
        }
        ledger.ApplyManagedRefresh(hash, generation, active, deletes);
        if !calls.marked {
          return false, LedgerRefreshed;
        }
        refresh, refreshed := RefreshReady, Some(hash);
        cut := MarkedReady;
      }
      if !calls.applied {
        return false, cut;
      }
      ledger.ManifestApply(rescanned);
      return true, Finished;
    }

    /** The effects of an attempt, in order. */
    method TakeEffects(scanned: seq<Entry>, uploads: set<Path>, rescanned: seq<Entry>,
                       pending: map<Path, PendingRow>, excluded: Path -> bool, ghost ex: Excludes,
                       allowDeletes: int, generation: int, calls: Calls)
      returns (ok: bool, ghost attempt: Attempt)
      requires forall p :: p in ex(hash) <==> excluded(p)
      modifies this, ledger
      ensures attempt == Attempt(scanned, uploads, rescanned, pending, allowDeletes, generation, attempt.cut)
      ensures View() == Reconcile(old(View()), ex, attempt)
      ensures ok ==> attempt.cut.Finished?
      ensures var deletes := |ProvenDeletes(old(View()), ex, attempt)|;
              && (ok ==> deletes <= EffectiveDeleteLimit(maxDelete, allowDeletes))
              && (AllWell(calls) && deletes <= EffectiveDeleteLimit(maxDelete, allowDeletes) ==> ok)
    {
      var active := ActiveSet(scanned);
      if refreshed != Some(hash) {
        refresh := RefreshRunning;
      }
      var deletes := ledger.ClassifyDisappearances(pending, hash, active, excluded, ex(hash));
      var proven := ListSet(deletes);
      ghost var cut;
      ok, cut := ReconcileProtected(uploads, proven, allowDeletes, calls);
      if ok {
        ok, cut := UpdateLedger(active, deletes, rescanned, generation, calls);
      }
      attempt := Attempt(scanned, uploads, rescanned, pending, allowDeletes, generation, cut);
    }

    /** The whole attempt. Its effect is that of the step function at the point
        it was cut, and it succeeds only when nothing was cut. */
    method ExecuteReconcileAttempt(scanned: seq<Entry>, uploads: set<Path>, rescanned: seq<Entry>,
                                   pending: map<Path, PendingRow>, excluded: Path -> bool, ghost ex: Excludes,
                                   allowDeletes: int, generation: int, calls: Calls)
      returns (ok: bool, ghost attempt: Attempt)
      requires forall p :: p in ex(hash) <==> excluded(p)
      modifies this, ledger
      ensures attempt == Attempt(scanned, uploads, rescanned, pending, allowDeletes, generation, attempt.cut)
      ensures View() == Reconcile(old(View()), ex, attempt)
      ensures ok ==> attempt.cut.Finished?
      ensures var missed := PruneLaws.Missed(old(ledger.manifest), scanned, pending, hash, ex(hash));
              var limit := if allowDeletes > 0 then allowDeletes else maxDelete;
              && (|missed| > limit ==> !ok && remote == old(remote) && ledger.manifest == old(ledger.manifest))
              && (AllWell(calls) && |missed| <= limit ==> ok)
              && old(remote) - missed <= remote <= old(remote) + uploads
              && (ok ==>
                    && remote == (old(remote) + uploads) - missed
                    && (forall p | p in uploads && !(IsActive(old(ledger.manifest), p) && !PruneLaws.Scanned(scanned, p)) :: p in remote)
                    && refreshed == Some(hash)
                    && (old(refreshed) != Some(hash) || old(refresh).RefreshReady? ==> refresh.RefreshReady?)
                    && PruneLaws.RowsFollow(old(ledger.manifest), ledger.manifest, scanned, rescanned, missed, old(refreshed) != Some(hash)))
    {
      ok, attempt := TakeEffects(scanned, uploads, rescanned, pending, excluded, ex, allowDeletes, generation, calls);
      AttemptMeans(old(View()), ex, attempt, ok);
    }
  }
}
