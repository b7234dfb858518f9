/** One profile's durable rows and the transactions that update them, statement
    by statement. Each method is proved to have exactly the effect of the
    matching function in SyncSteps. */
module SyncStore {
  import opened Rows
  import opened RetryPolicy
  import Steps = SyncSteps
  import Laws = SyncLaws

  datatype PendingEvent = PendingEvent(path: Path, gen: int)

  /** The versions named by a list of captured events, the newest per path. */
  function Versions(events: seq<PendingEvent>): map<Path, int> {
    if events == [] then map[]
    else
      var rest, e := Versions(events[..|events| - 1]), events[|events| - 1];
      rest[e.path := if e.path in rest then Max(rest[e.path], e.gen) else e.gen]
  }

  class Store {
    var profile: ProfileRow
    var runtime: RuntimeRow
    var sync: SyncRow
    var policy: Option<PolicyRow>
    var pending: map<Path, PendingRow>
    var runs: map<RunId, RunRow>

    ghost function View(): Steps.State
      reads this
    {
      Steps.State(profile, runtime, sync, policy, pending, runs)
    }

    constructor (profile: ProfileRow, hash: Hash)
      ensures View() == Steps.Created(profile, hash)
    {
      this.profile := profile;
      this.runtime := RuntimeRow(1, false);
      this.sync := SyncRow(1, None, false, None, Initializing, None, 0, 0, None, None, None, None);
      this.policy := Some(PolicyRow(Gitignore, hash, 1, RefreshPending, None));
      this.pending := map[];
      this.runs := map[];
    }

    method BumpGeneration() returns (generation: int)
      modifies this`runtime
      ensures View() == Steps.BumpSource(old(View()))
      ensures generation == runtime.source
    {
      runtime := runtime.(source := runtime.source + 1);
      generation := runtime.source;
    }

    method RequestReconcile()
      modifies this`sync, this`runtime
      ensures View() == Steps.RequestReconcile(old(View()))
    {
      sync := sync.(desired := Max(Max(sync.desired, runtime.source), sync.LastOrZero() + 1));
      runtime := runtime.(requested := true);
      if !sync.state.Error? && sync.desired > sync.LastOrZero() {
        sync := sync.(state := if sync.last.None? then Initializing else Syncing);
      }
    }

    method EnsureReconcileGeneration(generation: int)
      modifies this`sync
      ensures View() == Steps.EnsureGeneration(old(View()), generation)
    {
      var g := generation;
      if g < 1 {
        g := 1;
      }
      sync := sync.(desired := Max(sync.desired, g), state := Steps.IntentLabel(sync));
    }

    method ScheduleDestructiveReconcile(generation: int, now: Time)
      modifies this`sync
      ensures View() == Steps.StartWindow(Steps.EnsureGeneration(old(View()), generation), now)
    {
      EnsureReconcileGeneration(generation);
      StartWindow(now);
    }

    method StartWindow(now: Time)
      modifies this`sync
      ensures View() == Steps.StartWindow(old(View()), now)
    {
      var notBefore, deadline := now + Steps.DEBOUNCE, now + Steps.DEADLINE;
      if sync.notBefore.None? || sync.notBefore.value < notBefore {
        sync := sync.(notBefore := Some(notBefore));
      }
      if sync.deadline.None? {
        sync := sync.(deadline := Some(deadline));
      }
    }

    method PromoteToFullReconcile(generation: int, now: Time)
      modifies this`sync, this`runtime, this`pending
      ensures View() == Steps.PromoteAt(old(View()), generation, now)
    {
      EnsureReconcileGeneration(generation);
      StartWindow(now);
      runtime := runtime.(requested := true);
      pending := map[];
    }

    method SubmitManualReconcile(allowDeletes: int, bypassDebounce: bool) returns (submitted: int)
      modifies this`sync, this`runtime
      ensures View() == Steps.SubmitManual(old(View()), allowDeletes, bypassDebounce)
      ensures submitted == sync.desired > old(sync.desired)
    {
      sync := sync.(retry := None, nextRetry := None, limited := 0, notBefore := None, deadline := None);
      sync := sync.(desired := Max(Max(sync.desired + 1, runtime.source), sync.LastOrZero() + 1));
      submitted := sync.desired;
      sync := sync.(manual := Some(Manual(submitted, allowDeletes, bypassDebounce)), state := Steps.IntentLabel(sync));
      runtime := runtime.(requested := true);
    }

    method SubmitScheduledReconcile() returns (submitted: int)
      modifies this`sync
      ensures View() == Steps.SubmitScheduled(old(View()))
      ensures submitted == sync.desired > old(sync.desired)
    {
      sync := sync.(desired := Max(Max(sync.desired + 1, runtime.source), sync.LastOrZero() + 1));
      submitted := sync.desired;
      sync := sync.(state := Steps.IntentLabel(sync));
    }

    method ReopenSyncGate()
      modifies this`sync
      ensures View() == Steps.ReopenGate(old(View()))
    {
      sync := sync.(retry := None, nextRetry := None, limited := 0, notBefore := None, deadline := None,
                    state := if sync.desired > sync.LastOrZero()
                             then (if sync.last.None? then Initializing else Syncing)
                             else Ready);
    }

    method RecordEvent(path: Path, kind: EventKind, full: bool, policyHash: Hash, now: Time) returns (generation: int)
      modifies this`sync, this`runtime, this`pending
      ensures View() == Steps.RecordEvent(old(View()), path, kind, full, policyHash, now)
      ensures generation == runtime.source == old(runtime.source) + 1
    {
      runtime := runtime.(source := runtime.source + 1);
      generation := runtime.source;
      var observed := None;
      if policy.Some? {
        observed := Some(if policyHash == "" then policy.value.hash else policyHash);
      }
      var bootstrapNeedsFull := sync.last.None? && sync.desired == 0 && sync.current.None?;
      if full || !kind.SafeFast() || bootstrapNeedsFull {
        sync := sync.(desired := Max(sync.desired, generation), state := Steps.IntentLabel(sync));
        StartWindow(now);
        runtime := runtime.(requested := true);
        pending := map[];
      } else if path in pending {
        var row := pending[path];
        pending := pending[path := row.(kind := kind, lastSeen := now, gen := Max(row.gen, generation), observed := observed)];
      } else {
        pending := pending[path := PendingRow(kind, generation, now, now, observed)];
      }
    }

    method HasDestructivePending() returns (found: bool)
      ensures found <==> exists p | p in pending :: pending[p].kind.Destructive()
    {
      var count := set p | p in pending && pending[p].kind.Destructive();
      found := count != {};
      assert forall p :: p in count <==> p in pending && pending[p].kind.Destructive();
      if found {
        ghost var p :| p in count;
        assert p in pending && pending[p].kind.Destructive();
      }
    }

    method ClearPendingEvents(events: seq<PendingEvent>)
      modifies this`pending
      ensures View() == Steps.ClearEvents(old(View()), Versions(events))
    {
      var k := 0;
      while k < |events|
        invariant 0 <= k <= |events|
        invariant pending == Steps.Cleared(old(pending), Versions(events[..k]))
      {
        var e := events[k];
        assert events[..k + 1][..k] == events[..k];
        if e.path in pending && pending[e.path].gen <= e.gen {
          pending := pending - {e.path};
        }
        k := k + 1;
      }
      assert events[..k] == events;
    }

    method CommitIgnoreSnapshot(hash: Hash, acceptLegacyDrop: bool) returns (outcome: Steps.CommitOutcome)
      modifies this`sync, this`runtime, this`policy
      ensures View() == Steps.CommitPolicy(old(View()), hash, acceptLegacyDrop)
      ensures outcome == Steps.CommitOutcomeOf(old(View()), hash, acceptLegacyDrop)
    {
      if profile.tombstoned {
        return Steps.CommitTombstoned;
      }
      if policy.Some? && policy.value.hash == hash {
        return Steps.CommitUnchanged;
      }
      if policy.Some? && policy.value.source.LegacyMigrated? && !acceptLegacyDrop {
        return Steps.CommitRefused;
      }
      var base := if policy.Some? then policy.value.generation else 0;
      if runtime.source > base {
        base := runtime.source;
      }
      if sync.desired > base {
        base := sync.desired;
      }
      if sync.LastOrZero() > base {
        base := sync.LastOrZero();
      }
      var g := base + 1;
      runtime := runtime.(source := g);
      policy := Some(PolicyRow(Gitignore, hash, g, RefreshPending, None));
      sync := sync.(desired := Max(sync.desired, g),
                    manual := if sync.manual.None? then None else Some(sync.manual.value.(generation := g)),
                    state := Steps.IntentLabel(sync));
      outcome := Steps.CommitChanged(g);
    }

    method ClaimRun(run: RunId, now: Time) returns (result: Steps.ClaimResult)
      modifies this`sync, this`runs
      ensures View() == Steps.ClaimRun(old(View()), run, now)
      ensures result == Steps.ClaimOutcome(old(View()), run, now)
      ensures result.ClaimOK? <==>
                && run !in old(runs) && old(sync).current.None?
                && profile.enabled && !profile.tombstoned && !profile.deletionRequested
                && old(sync).desired > 0 && (old(sync).last.Some? ==> old(sync).last.value < old(sync).desired)
                && Laws.RetryOpen(old(sync), now) && Laws.WindowOpen(old(sync), now)
      ensures result.ClaimOK? <==> run !in old(runs) && run in runs
    {
      if profile.tombstoned {
        return Steps.ClaimProfileInactive;
      }
      if sync.current.Some? {
        return Steps.ClaimActiveRun;
      }
      if profile.deletionRequested || !profile.enabled {
        return Steps.ClaimProfileInactive;
      }
      if !sync.HasDebt() {
        return Steps.ClaimNoDebt;
      }
      if sync.state.Error? {
        if sync.retry == Some(Terminal) {
          return Steps.ClaimGateBlocked;
        }
        if (sync.retry == Some(Retryable) || sync.retry == Some(RetryableLimited)) &&
           sync.nextRetry.Some? && now < sync.nextRetry.value {
          return Steps.ClaimGateBlocked;
        }
      }
      assert sync.retry.Some? ==> sync.retry.value.Terminal? || sync.retry.value.Retryable? || sync.retry.value.RetryableLimited?;
      assert !Steps.GateClosed(sync, now);
      var effective, manualOverride, bypass := 0, None, false;
      var consuming := sync.manual.Some? && sync.manual.value.generation == sync.desired;
      if consuming {
        effective := sync.manual.value.allowDeletes;
        if effective > 0 {
          manualOverride := Some(effective);
        }
        bypass := sync.manual.value.bypassDebounce;
      }
      if !bypass && sync.notBefore.Some? && now < sync.notBefore.value {
        return Steps.ClaimDeferred;
      }
      assert consuming == Steps.Consumes(sync);
      if effective == 0 {
        effective := profile.maxDelete;
      }
      if run in runs {
        return Steps.ClaimIdTaken;
      }
      var kind := if sync.last.None? then InitialRun else FullRun;
      assert RunRow(kind, sync.desired, Running, effective, manualOverride) == Steps.ClaimedRun(View());
      runs := runs[run := RunRow(kind, sync.desired, Running, effective, manualOverride)];
      if consuming {
        sync := sync.(manual := None);
      }
      sync := sync.(current := Some(run), state := if sync.last.None? then Initializing else Syncing,
                    notBefore := None, deadline := None);
      result := Steps.ClaimOK;
    }

    method FinishRun(run: RunId, status: RunStatus)
      modifies this`runs
      ensures runs == Steps.FinishRun(old(runs), run, status)
    {
      if run in runs && runs[run].status.Running? {
        runs := runs[run := runs[run].(status := status)];
      }
    }

    method CommitRunSuccess(run: RunId, target: int)
      requires sync.current == Some(run) && run in runs && runs[run].target == target
      modifies this`sync, this`runs, this`pending, this`runtime
      ensures View() == Steps.CommitRunSuccess(old(View()))
    {
      FinishRun(run, Succeeded);
      var reached := Max(sync.LastOrZero(), target);
      sync := sync.(last := Some(reached), initialized := true, current := None,
                    retry := None, nextRetry := None, consecutive := 0, limited := 0,
                    state := if sync.desired <= reached then Ready else Syncing);
      pending := map p | p in pending && pending[p].gen > target :: pending[p];
      runtime := runtime.(requested := sync.desired > target);
    }

    method CommitRunFailure(run: RunId, failure: Steps.Failure, now: Time, jitter: int)
      requires sync.current == Some(run) && run in runs
      modifies this`sync, this`runs
      ensures View() == Steps.CommitRunFailure(old(View()), failure, now, jitter)
    {
      var nextRetry, stored, interrupted := None, failure.retry, failure.interrupted;
      if failure.retry.Retryable? && !interrupted {
        nextRetry := Some(now + RetryBackoff(sync.consecutive + 1, jitter));
        sync := sync.(consecutive := sync.consecutive + 1, nextRetry := nextRetry);
      }
      if failure.retry.RetryableLimited? {
        if sync.limited + 1 > 3 {
          stored, interrupted := Terminal, false;
        } else {
          nextRetry := Some(now + LimitedRetryBackoff(sync.limited + 1));
          sync := sync.(limited := sync.limited + 1, nextRetry := nextRetry);
        }
      }
      FinishRun(run, Failed);
      if interrupted {
        nextRetry := Some(now);
      }
      sync := sync.(current := None, state := Error, retry := Some(stored), nextRetry := nextRetry);
    }

    method OrphanCurrentRun()
      modifies this`sync, this`runs
      ensures View() == Steps.OrphanCurrentRun(old(View()))
    {
      runs := map r | r in runs :: if runs[r].status.Running? then runs[r].(status := Failed) else runs[r];
      sync := sync.(current := None,
                    state := if sync.desired > sync.LastOrZero()
                             then (if sync.last.None? then Initializing else Syncing)
                             else Ready);
    }
  }
}
