/** One-shot manual overrides, retry gates and progress of the claim step over
    whole runs. */
module SyncGates {
  import opened Rows
  import opened RetryPolicy
  import opened SyncSteps
  import opened SyncRuns

  // ----- one-shot manual override -----

  /** The claim at k took the pending manual metadata with it. */
  ghost predicate ConsumedAt(run: Run, k: nat)
    requires run.Valid()
  {
    k < |run.steps| && run.steps[k].DoClaim? && ClaimedAt(run, k, run.steps[k].run) && Consumes(run.states[k].sync)
  }

  ghost predicate NoManualBetween(run: Run, i: nat, j: nat)
    requires run.Valid()
  {
    forall k: nat | i <= k < j && k < |run.steps| :: !run.steps[k].DoManual?
  }

  lemma {:induction false} NoManualPersists(run: Run, i: nat, j: nat)
    requires run.Valid() && i <= j <= |run.steps|
    requires run.states[i].sync.manual.None? && NoManualBetween(run, i, j)
    ensures run.states[j].sync.manual.None?
    decreases j
  {
    if i < j {
      NoManualPersists(run, i, j - 1);
      assert run.StepOK(j - 1);
    }
  }

  /** Each submission is consumed at most once: between two consuming claims there
      is a new manual submission, whatever policy commits carry it forward. */
  lemma ConsumedOnce(run: Run, k1: nat, k2: nat)
    requires run.Valid() && ConsumedAt(run, k1) && ConsumedAt(run, k2) && k1 < k2
    ensures !NoManualBetween(run, k1 + 1, k2)
  {
    assert run.StepOK(k1);
    if NoManualBetween(run, k1 + 1, k2) {
      NoManualPersists(run, k1 + 1, k2);
    }
  }

  /** The submission whose metadata is pending at k. */
  ghost predicate Origin(run: Run, i: nat, k: nat)
    requires run.Valid()
  {
    && i < k <= |run.steps| && run.steps[i].DoManual? && NoManualBetween(run, i + 1, k)
    && run.states[k].sync.manual.Some?
    && run.states[k].sync.manual.value.allowDeletes == run.steps[i].allowDeletes
    && run.states[k].sync.manual.value.bypassDebounce == run.steps[i].bypass
  }

  lemma {:induction false} OriginOf(run: Run, k: nat) returns (i: nat)
    requires run.Valid() && k <= |run.steps|
    requires run.states[0].sync.manual.None? && run.states[k].sync.manual.Some?
    ensures Origin(run, i, k)
  {
    assert run.StepOK(k - 1);
    if run.steps[k - 1].DoManual? {
      i := k - 1;
    } else {
      i := OriginOf(run, k - 1);
    }
  }

  /** A consuming claim takes the values of the latest submission, and the attempt
      carries an override exactly when that submission allowed deletions. */
  lemma ConsumingClaim(run: Run, k: nat) returns (i: nat)
    requires run.Valid() && ConsumedAt(run, k) && run.states[0].sync.manual.None?
    ensures Origin(run, i, k)
    ensures forall k' | i < k' < k :: !ConsumedAt(run, k')
    ensures var allow := run.steps[i].allowDeletes;
            var r := run.steps[k].run;
            r in run.states[k + 1].runs &&
            var row := run.states[k + 1].runs[r];
            && (row.manualOverride.Some? <==> allow > 0)
            && (allow > 0 ==> row.manualOverride == Some(allow) && row.effectiveMaxDelete == allow)
            && (allow == 0 ==> row.effectiveMaxDelete == run.states[k].profile.maxDelete)
  {
    i := OriginOf(run, k);
    assert run.StepOK(k);
    forall k' | i < k' < k ensures !ConsumedAt(run, k') {
      if ConsumedAt(run, k') {
        ConsumedOnce(run, k', k);
      }
    }
  }

  /** After a consumed submission, a claim without a new submission runs on the
      profile's own budget. */
  lemma RetryUsesProfileBudget(run: Run, k1: nat, k2: nat, r: RunId)
    requires run.Valid() && ConsumedAt(run, k1) && k1 < k2 && ClaimedAt(run, k2, r)
    requires NoManualBetween(run, k1 + 1, k2)
    ensures !ConsumedAt(run, k2)
    ensures r in run.states[k2 + 1].runs && run.states[k2 + 1].runs[r].manualOverride.None?
    ensures run.states[k2 + 1].runs[r].effectiveMaxDelete == run.states[k2].profile.maxDelete
  {
    assert run.StepOK(k1) && run.StepOK(k2);
    NoManualPersists(run, k1 + 1, k2);
  }

  ghost predicate NoRebinding(run: Run, i: nat, j: nat)
    requires run.Valid()
  {
    forall k: nat | i <= k < j && k < |run.steps| :: !run.steps[k].DoManual? && !run.steps[k].DoPolicy?
  }

  lemma StrandedStep(s: State, step: Step)
    requires Guard(s, step) && !step.DoManual? && !step.DoPolicy? && s.sync.manual.Some? && !Consumes(s.sync)
    ensures Next(s, step).sync.manual == s.sync.manual
  {
  }

  /** Once any other intent has moved past it, a pending override is stranded: no
      claim consumes it until a new submission or a policy commit rebinds it. */
  lemma {:induction false} StrandedOverride(run: Run, i: nat, j: nat)
    requires run.Valid() && i <= j <= |run.steps| && NoRebinding(run, i, j)
    requires run.states[i].sync.manual.Some? && run.states[i].sync.manual.value.generation < run.states[i].sync.desired
    ensures run.states[j].sync.manual == run.states[i].sync.manual
    ensures !Consumes(run.states[j].sync)
    decreases j
  {
    GrowsAlways(run, i, j);
    if i < j {
      StrandedOverride(run, i, j - 1);
      assert run.StepOK(j - 1);
      StrandedStep(run.states[j - 1], run.steps[j - 1]);
    }
  }

  /** A freshly bound override is honoured by a later claim exactly when no other
      intent has raised the desired generation in the meantime. */
  lemma {:induction false} HonouredExactly(run: Run, i: nat, j: nat)
    requires run.Valid() && i <= j <= |run.steps| && NoRebinding(run, i, j)
    requires Consumes(run.states[i].sync) && forall k | i <= k < j :: !ConsumedAt(run, k)
    ensures run.states[j].sync.manual == run.states[i].sync.manual
    ensures Consumes(run.states[j].sync) <==> run.states[j].sync.desired == run.states[i].sync.desired
    decreases j
  {
    if i < j {
      HonouredExactly(run, i, j - 1);
      assert run.StepOK(j - 1);
      GrowsAlways(run, i, j - 1);
      if run.states[j - 1].sync.desired > run.states[i].sync.desired {
        InvAlways(run, j - 1);
        StepGrows(run.states[j - 1], run.steps[j - 1]);
      } else {
        assert !ConsumedAt(run, j - 1);
      }
    }
  }

  /** A policy commit that changes anything binds the pending override to the
      generation it raises intent to. */
  lemma CommitRebinds(s: State, hash: Hash, accept: bool)
    requires s.sync.manual.Some?
    ensures CommitOutcomeOf(s, hash, accept).CommitChanged? ==> Consumes(CommitPolicy(s, hash, accept).sync)
    ensures !CommitOutcomeOf(s, hash, accept).CommitChanged? ==> CommitPolicy(s, hash, accept) == s
  {
  }

  /** A scheduled request right after a manual one therefore takes its override
      away; a policy commit, early or late, binds it again. */
  lemma ScheduledIntentStrandsOverride(s: State, allow: int, bypass: bool, hash: Hash, accept: bool)
    requires Inv(s)
    ensures var m := SubmitManual(s, allow, bypass);
            && Consumes(m.sync)
            && Consumes(CommitPolicy(m, hash, accept).sync)
            && !Consumes(SubmitScheduled(m).sync)
            && ClaimedRun(SubmitScheduled(m)).manualOverride.None?
            && (CommitOutcomeOf(SubmitScheduled(m), hash, accept).CommitChanged?
                ==> Consumes(CommitPolicy(SubmitScheduled(m), hash, accept).sync))
  {
    var m := SubmitManual(s, allow, bypass);
    CommitRebinds(m, hash, accept);
    CommitRebinds(SubmitScheduled(m), hash, accept);
  }

  // ----- retry gates -----

  ghost predicate TerminalGate(s: State) { s.sync.state.Error? && s.sync.retry == Some(Terminal) }

  predicate Reopens(step: Step) { step.DoManual? || step.DoReopen? || step.DoOrphan? }

  /** Exactly three kinds of step open a terminal gate; orphan recovery is one of
      them because it recomputes the state from debt alone. */
  lemma WhoReopens(s: State, step: Step)
    requires Inv(s) && Guard(s, step) && TerminalGate(s)
    ensures TerminalGate(Next(s, step)) <==> !Reopens(step)
  {
  }

  /** After a terminal failure no other sequence of steps makes a claim succeed. */
  lemma {:induction false} TerminalGateHolds(run: Run, i: nat, j: nat, r: RunId, now: Time)
    requires run.Valid() && i <= j <= |run.steps| && TerminalGate(run.states[i])
    requires forall k | i <= k < j :: !Reopens(run.steps[k])
    ensures TerminalGate(run.states[j]) && ClaimOutcome(run.states[j], r, now) != ClaimOK
    ensures run.states[j].sync.last == run.states[i].sync.last
    decreases j
  {
    InvAlways(run, j);
    if i < j {
      TerminalGateHolds(run, i, j - 1, r, now);
      InvAlways(run, j - 1);
      assert run.StepOK(j - 1);
      WhoReopens(run.states[j - 1], run.steps[j - 1]);
    }
  }

  predicate ResetsLimited(step: Step) { step.DoManual? || step.DoReopen? || step.DoSuccess? }

  /** Failures stored as retryable_limited in steps i..j. */
  ghost function LimitedStored(run: Run, i: nat, j: nat): nat
    requires run.Valid() && i <= j <= |run.steps|
    decreases j
  {
    if i == j then 0
    else LimitedStored(run, i, j - 1) +
         if run.steps[j - 1].DoFailure? && StoredClass(run.states[j - 1].sync, run.steps[j - 1].failure).RetryableLimited?
         then 1 else 0
  }

  lemma LimitedStep(s: State, step: Step)
    requires Guard(s, step) && !ResetsLimited(step)
    ensures Next(s, step).sync.limited ==
            s.sync.limited + if step.DoFailure? && StoredClass(s.sync, step.failure).RetryableLimited? then 1 else 0
  {
  }

  lemma {:induction false} LimitedCounter(run: Run, i: nat, j: nat)
    requires run.Valid() && i <= j <= |run.steps|
    requires forall k | i <= k < j :: !ResetsLimited(run.steps[k])
    ensures run.states[j].sync.limited == run.states[i].sync.limited + LimitedStored(run, i, j)
    decreases j
  {
    if i < j {
      LimitedCounter(run, i, j - 1);
      assert run.StepOK(j - 1);
      LimitedStep(run.states[j - 1], run.steps[j - 1]);
    }
  }

  lemma ResetLeavesZero(run: Run, i: nat)
    requires run.Valid() && i < |run.steps| && ResetsLimited(run.steps[i])
    ensures run.states[i + 1].sync.limited == 0
  {
    assert run.StepOK(i);
  }

  ghost predicate LimitedFailureAt(run: Run, j: nat)
    requires run.Valid()
  {
    j < |run.steps| && run.steps[j].DoFailure? && run.steps[j].failure.retry.RetryableLimited?
  }

  lemma FourthIsTerminal(run: Run, j: nat)
    requires run.Valid() && LimitedFailureAt(run, j)
    ensures 0 <= run.states[j].sync.limited <= 3
    ensures TerminalGate(run.states[j + 1]) <==> run.states[j].sync.limited == 3
  {
    InvAlways(run, j);
    assert run.StepOK(j);
  }

  /** Between resets at most three failures are stored as limited, and once three
      have been, the next limited failure closes the gate for good. */
  lemma AtMostThreeLimited(run: Run, i: nat, j: nat)
    requires run.Valid() && i < j <= |run.steps| && ResetsLimited(run.steps[i])
    requires forall k | i < k < j :: !ResetsLimited(run.steps[k])
    ensures LimitedStored(run, i + 1, j) <= 3
    ensures LimitedFailureAt(run, j) ==> (LimitedStored(run, i + 1, j) == 3 <==> TerminalGate(run.states[j + 1]))
  {
    ResetLeavesZero(run, i);
    LimitedCounter(run, i + 1, j);
    assert 0 <= run.states[j].sync.limited <= 3 by { InvAlways(run, j); }
    if LimitedFailureAt(run, j) {
      FourthIsTerminal(run, j);
    }
  }

  /** Success strictly advances the mark, and the profile is ready and clear
      exactly when no intent arrived while the attempt ran. */
  lemma SuccessSettles(run: Run, c: nat, m: nat, r: RunId)
    requires run.Valid() && c < m && ClaimedAt(run, c, r) && SucceededAt(run, m, r)
    ensures run.states[m + 1].sync.last == Some(run.states[c].sync.desired)
    ensures run.states[m].sync.LastOrZero() < run.states[c].sync.desired
    ensures var t := run.states[m + 1];
            && (t.sync.HasDebt() <==> run.states[m].sync.desired > run.states[c].sync.desired)
            && t.sync.state == (if t.sync.HasDebt() then Syncing else Ready)
            && t.runtime.requested == t.sync.HasDebt()
  {
    assert run.StepOK(c) && run.StepOK(m);
    InvAlways(run, m);
    GrowsAlways(run, c + 1, m);
  }

  // ----- debt is always claimable in the end -----

  /** Neither the retry delay nor the debounce window is still open. */
  predicate Waited(s: SyncRow, now: Time) {
    (s.nextRetry.Some? ==> now >= s.nextRetry.value) && (s.notBefore.Some? ==> now >= s.notBefore.value)
  }

  /** Unless an attempt runs, the profile is inactive or the gate is terminal, owed
      work becomes claimable by waiting alone. */
  lemma DebtIsClaimable(s: State, r: RunId, now: Time)
    requires Inv(s) && s.sync.HasDebt() && r !in s.runs && Waited(s.sync, now)
    ensures ClaimOutcome(s, r, now) == ClaimOK <==>
              && s.sync.current.None? && s.profile.enabled && !s.profile.tombstoned
              && !s.profile.deletionRequested && !TerminalGate(s)
  {
  }

  predicate Active(p: ProfileRow) { p.enabled && !p.tombstoned && !p.deletionRequested }

  /** No state is a dead end: from any state of any history whose profile is
      active, a claim after its waiting time and one success leave no debt. Before
      them a running attempt has to be orphaned, or a terminal gate reopened, and
      nothing else is ever needed. */
  lemma DebtCanBeSettled(run: Run, r: RunId, now: Time) returns (more: Run)
    requires run.Valid() && Active(run.Last().profile) && run.Last().sync.HasDebt()
    requires r !in run.Last().runs && Waited(run.Last().sync, now)
    ensures more.Valid() && run.states <= more.states
    ensures var s := run.Last();
            more.steps == run.steps + (if s.sync.current.Some? then [DoOrphan] else if TerminalGate(s) then [DoReopen] else [])
                          + [DoClaim(r, now), DoSuccess]
    ensures !more.Last().sync.HasDebt() && more.Last().sync.state.Ready?
    ensures r in more.Last().runs && more.Last().runs[r].status.Succeeded?
  {
    more := run;
    InvAlways(run, |run.steps|);
    StepsThatOpen(run.Last(), r, now);
    if run.Last().sync.current.Some? {
      more := run.Then(DoOrphan);
    } else if TerminalGate(run.Last()) {
      more := run.Then(DoReopen);
    }
    more := ClaimAndSucceed(more, r, now);
  }

  lemma StepsThatOpen(s: State, r: RunId, now: Time)
    requires Inv(s) && Active(s.profile) && s.sync.HasDebt() && r !in s.runs && Waited(s.sync, now)
    ensures s.sync.current.Some? ==> ClaimOutcome(OrphanCurrentRun(s), r, now) == ClaimOK
    ensures s.sync.current.None? && TerminalGate(s) ==> ClaimOutcome(ReopenGate(s), r, now) == ClaimOK
    ensures s.sync.current.None? && !TerminalGate(s) ==> ClaimOutcome(s, r, now) == ClaimOK
  {
    DebtIsClaimable(s, r, now);
  }

  lemma ClaimAndSucceed(run: Run, r: RunId, now: Time) returns (more: Run)
    requires run.Valid() && ClaimOutcome(run.Last(), r, now) == ClaimOK
    ensures more.Valid() && run.states <= more.states && more.steps == run.steps + [DoClaim(r, now), DoSuccess]
    ensures !more.Last().sync.HasDebt() && more.Last().sync.state.Ready?
    ensures r in more.Last().runs && more.Last().runs[r].status.Succeeded?
  {
    more := run.Then(DoClaim(r, now));
    more := more.Then(DoSuccess);
  }
}
