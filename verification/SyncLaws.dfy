/** What the transactions of the control plane promise, in terms of the rows and
    of the histories around them: when a claim succeeds, how long a failure and a
    debounce window keep it waiting, and what every writer of intent leaves behind. */
module SyncLaws {
  import opened Rows
  import opened RetryPolicy
  import opened SyncSteps
  import opened SyncRuns
  import opened SyncGates

  // ----- when a claim succeeds -----

  /** The claim brings the attempt into being. */
  predicate Creates(s: State, r: RunId, now: Time) { r !in s.runs && r in Next(s, DoClaim(r, now)).runs }

  /** The retry time of a failed profile has come, and its failure was not terminal. */
  predicate RetryOpen(s: SyncRow, now: Time) {
    s.state.Error? && s.retry.Some? ==> !s.retry.value.Terminal? && (s.nextRetry.Some? ==> s.nextRetry.value <= now)
  }

  /** The debounce window is over, or the pending manual submission asked to skip
      it and nothing has raised intent past that submission. */
  predicate WindowOpen(s: SyncRow, now: Time) {
    s.notBefore.Some? && now < s.notBefore.value ==>
      s.manual.Some? && s.manual.value.bypassDebounce && s.manual.value.generation == s.desired
  }

  /** A claim succeeds exactly for an unknown attempt of an active profile that
      owes work, runs nothing, and has neither its retry time nor its debounce
      window ahead. It then starts the attempt at the desired generation, and a
      refused claim changes nothing. */
  lemma ClaimSucceedsIff(s: State, r: RunId, now: Time)
    ensures Creates(s, r, now) <==>
              && r !in s.runs && s.sync.current.None?
              && s.profile.enabled && !s.profile.tombstoned && !s.profile.deletionRequested
              && s.sync.desired > 0 && (s.sync.last.Some? ==> s.sync.last.value < s.sync.desired)
              && RetryOpen(s.sync, now) && WindowOpen(s.sync, now)
    ensures Creates(s, r, now) <==> ClaimOutcome(s, r, now) == ClaimOK
    ensures !Creates(s, r, now) ==> Next(s, DoClaim(r, now)) == s
    ensures var t := Next(s, DoClaim(r, now));
            Creates(s, r, now) ==>
              && t.sync.current == Some(r) && t.runs.Keys == s.runs.Keys + {r} && t.runs[r].status.Running?
              && t.runs[r].target == s.sync.desired == t.sync.desired
              && (t.runs[r].kind.InitialRun? <==> s.sync.last.None?)
              && (t.sync.state == if s.sync.last.None? then Initializing else Syncing)
  {
  }

  /** Every reason a refused claim reports is true. */
  lemma RefusalIsTrue(s: State, r: RunId, now: Time)
    ensures match ClaimOutcome(s, r, now)
            case ClaimProfileInactive => s.profile.tombstoned || s.profile.deletionRequested || !s.profile.enabled
            case ClaimActiveRun => s.sync.current.Some?
            case ClaimNoDebt => s.sync.desired <= 0 || (s.sync.last.Some? && s.sync.desired <= s.sync.last.value)
            case ClaimGateBlocked => !RetryOpen(s.sync, now)
            case ClaimDeferred => !WindowOpen(s.sync, now)
            case ClaimIdTaken => r in s.runs
            case ClaimOK => Creates(s, r, now)
  {
  }

  // ----- how long a failure keeps claims waiting -----

  /** Between the two steps nothing reopened the gate and no claim succeeded. */
  ghost predicate Undisturbed(run: Run, f: nat, k: nat)
    requires run.Valid()
  {
    forall c: nat | f < c < k && c < |run.steps| ::
      !Reopens(run.steps[c]) && (run.steps[c].DoClaim? ==> !ClaimedAt(run, c, run.steps[c].run))
  }

  ghost predicate FailedAt(run: Run, f: nat)
    requires run.Valid()
  {
    f < |run.steps| && run.steps[f].DoFailure?
  }

  ghost predicate SameGate(s: SyncRow, t: SyncRow) {
    && t.current.None? && s.current.None? && t.state.Error? && s.state.Error?
    && t.retry == s.retry && t.nextRetry == s.nextRetry
  }

  lemma GateStep(s: State, step: Step)
    requires Guard(s, step) && !Reopens(step) && s.sync.current.None? && s.sync.state.Error?
    requires step.DoClaim? ==> ClaimOutcome(s, step.run, step.now) != ClaimOK
    ensures SameGate(s.sync, Next(s, step).sync)
  {
  }

  lemma {:induction false} GateStays(run: Run, f: nat, k: nat)
    requires run.Valid() && FailedAt(run, f) && f < k <= |run.steps| && Undisturbed(run, f, k)
    ensures SameGate(run.states[f + 1].sync, run.states[k].sync)
    decreases k
  {
    assert run.StepOK(k - 1);
    if f + 1 < k {
      GateStays(run, f, k - 1);
      assert !Reopens(run.steps[k - 1]);
      GateStep(run.states[k - 1], run.steps[k - 1]);
    }
  }

  /** Failures that lengthen the backoff. */
  predicate Counted(step: Step) { step.DoFailure? && step.failure.retry.Retryable? && !step.failure.interrupted }

  ghost function CountedIn(run: Run, i: nat, j: nat): nat
    requires run.Valid() && i <= j <= |run.steps|
    decreases j
  {
    if i == j then 0 else CountedIn(run, i, j - 1) + if Counted(run.steps[j - 1]) then 1 else 0
  }

  /** The failures in a row are those since the last success, whatever else
      happened. */
  lemma {:induction false} ConsecutiveCounter(run: Run, i: nat, j: nat)
    requires run.Valid() && i <= j <= |run.steps|
    requires forall k: nat | i <= k < j :: !run.steps[k].DoSuccess?
    ensures run.states[j].sync.consecutive == run.states[i].sync.consecutive + CountedIn(run, i, j)
    decreases j
  {
    if i < j {
      ConsecutiveCounter(run, i, j - 1);
      assert run.StepOK(j - 1);
      ConsecutiveStep(run.states[j - 1], run.steps[j - 1]);
    }
  }

  lemma ConsecutiveStep(s: State, step: Step)
    requires Guard(s, step)
    ensures Next(s, step).sync.consecutive ==
            if step.DoSuccess? then 0 else s.sync.consecutive + if Counted(step) then 1 else 0
  {
  }

  /** The delay before the retry, exponential in the counted failures before this
      one, without and with the largest jitter. */
  function Doubling(before: nat): int { SECOND * Pow2(if before > 10 then 10 else before) }

  lemma BackoffBounds(before: nat, jitter: int)
    requires ValidJitter(before + 1, jitter)
    ensures Doubling(before) <= RetryBackoff(before + 1, jitter)
    ensures 5 * RetryBackoff(before + 1, jitter) < 6 * Doubling(before)
  {
    BackoffRange(before + 1, jitter);
  }

  /** Minutes to wait after an unclassified failure, by how many there were before. */
  function Minutes(before: int): int { if before == 0 then 1 else if before == 1 then 5 else 15 }

  lemma StoredRetryTime(s: State, step: Step)
    requires Guard(s, step) && step.DoFailure? && 0 <= s.sync.consecutive && 0 <= s.sync.limited <= 3
    ensures var t := Next(s, step).sync;
            && t.current.None? && t.state.Error?
            && (Counted(step) ==>
                  && t.retry == Some(Retryable) && t.nextRetry.Some?
                  && step.now + Doubling(s.sync.consecutive) <= t.nextRetry.value
                  && 5 * (t.nextRetry.value - step.now) < 6 * Doubling(s.sync.consecutive))
            && (step.failure.retry.Retryable? && step.failure.interrupted ==>
                  t.retry == Some(Retryable) && t.nextRetry == Some(step.now))
            && (step.failure.retry.RetryableLimited? && !step.failure.interrupted && s.sync.limited < 3 ==>
                  && t.retry == Some(RetryableLimited)
                  && t.nextRetry == Some(step.now + Minutes(s.sync.limited) * MINUTE))
            && (step.failure.retry.Terminal? || (step.failure.retry.RetryableLimited? && s.sync.limited == 3) ==>
                  t.retry == Some(Terminal))
  {
    if Counted(step) {
      BackoffBounds(s.sync.consecutive, step.jitter);
    }
  }

  /** The counted failures before f since the last success, or since the creation
      of the profile when there was none. */
  ghost predicate SinceSuccess(run: Run, i: nat, f: nat, n: nat)
    requires run.Valid()
  {
    && i <= f <= |run.steps| && n == CountedIn(run, i, f)
    && (if i == 0 then run.states[0].sync.consecutive == 0 else run.steps[i - 1].DoSuccess?)
    && forall k: nat | i <= k < f :: !run.steps[k].DoSuccess?
  }

  /** After a retryable failure with n counted ones before it since the last
      success, the next claim to succeed comes no earlier than 2^n seconds after
      it (2^10 at most), unless something reopened the gate first. */
  lemma RetryWaits(run: Run, i: nat, f: nat, k: nat, r: RunId, n: nat)
    requires run.Valid() && FailedAt(run, f) && Counted(run.steps[f]) && SinceSuccess(run, i, f, n)
    requires f < k && ClaimedAt(run, k, r) && Undisturbed(run, f, k)
    ensures run.steps[k].now >= run.steps[f].now + Doubling(n)
  {
    InvAlways(run, f);
    assert run.StepOK(f);
    SuccessResets(run, i);
    ConsecutiveCounter(run, i, f);
    StoredRetryTime(run.states[f], run.steps[f]);
    GateStays(run, f, k);
    ClaimSucceedsIff(run.states[k], r, run.steps[k].now);
  }

  lemma SuccessResets(run: Run, i: nat)
    requires run.Valid() && i <= |run.steps|
    requires if i == 0 then run.states[0].sync.consecutive == 0 else run.steps[i - 1].DoSuccess?
    ensures run.states[i].sync.consecutive == 0
  {
    if i > 0 {
      assert run.StepOK(i - 1);
    }
  }

  /** The first, second and third unclassified failure since the last reset keep
      claims waiting for one, five and fifteen minutes; a fourth, or a terminal
      one, for good. */
  lemma LimitedWaits(run: Run, i: nat, f: nat, k: nat, r: RunId)
    requires run.Valid() && FailedAt(run, f) && run.steps[f].failure.retry.RetryableLimited? && !run.steps[f].failure.interrupted
    requires i < f && ResetsLimited(run.steps[i]) && forall c | i < c < f :: !ResetsLimited(run.steps[c])
    requires f < k && ClaimedAt(run, k, r) && Undisturbed(run, f, k)
    ensures LimitedStored(run, i + 1, f) < 3
    ensures run.steps[k].now >= run.steps[f].now + Minutes(LimitedStored(run, i + 1, f)) * MINUTE
  {
    LimitedBefore(run, i, f);
    GateStays(run, f, k);
    ClaimSucceedsIff(run.states[k], r, run.steps[k].now);
  }

  lemma LimitedBefore(run: Run, i: nat, f: nat)
    requires run.Valid() && FailedAt(run, f) && run.steps[f].failure.retry.RetryableLimited? && !run.steps[f].failure.interrupted
    requires i < f && ResetsLimited(run.steps[i]) && forall c | i < c < f :: !ResetsLimited(run.steps[c])
    ensures var n, t := LimitedStored(run, i + 1, f), run.states[f + 1].sync;
            && n <= 3 && t.retry.Some? && (n == 3 <==> t.retry.value.Terminal?)
            && (n < 3 ==> t.nextRetry == Some(run.steps[f].now + Minutes(n) * MINUTE))
  {
    InvAlways(run, f);
    assert run.StepOK(f);
    ResetLeavesZero(run, i);
    LimitedCounter(run, i + 1, f);
    StoredRetryTime(run.states[f], run.steps[f]);
  }

  /** The wait is no longer than that: once 1.2 times the doubled delay has
      passed, and at once after an interruption, the retry gate is open. */
  lemma RetryOpensAgain(run: Run, f: nat, k: nat, now: Time)
    requires run.Valid() && FailedAt(run, f) && run.steps[f].failure.retry.Retryable?
    requires f < k <= |run.steps| && Undisturbed(run, f, k)
    requires run.steps[f].failure.interrupted ==> now >= run.steps[f].now
    requires !run.steps[f].failure.interrupted ==>
               5 * (now - run.steps[f].now) >= 6 * Doubling(Max(run.states[f].sync.consecutive, 0))
    ensures RetryOpen(run.states[k].sync, now)
  {
    InvAlways(run, f);
    assert run.StepOK(f);
    StoredRetryTime(run.states[f], run.steps[f]);
    GateStays(run, f, k);
  }

  /** A failed attempt leaves its debt, its record and the success mark. */
  lemma FailureKeepsDebt(run: Run, f: nat, r: RunId)
    requires run.Valid() && FailedAt(run, f) && run.states[f].sync.current == Some(r)
    ensures var s, t := run.states[f], run.states[f + 1];
            && r in s.runs && r in t.runs && t.runs[r] == s.runs[r].(status := Failed) && t.sync.current.None? && t.sync.state.Error?
            && t.sync.last == s.sync.last && t.sync.desired == s.sync.desired && t.sync.HasDebt()
            && t.pending == s.pending && t.runtime == s.runtime
  {
    InvAlways(run, f);
    assert run.StepOK(f);
  }

  /** Recovery fails every attempt that was running and leaves work that is owed
      claimable at once as far as the gate is concerned. */
  lemma OrphansAreFailed(run: Run, k: nat)
    requires run.Valid() && k < |run.steps| && run.steps[k].DoOrphan?
    ensures var s, t := run.states[k], run.states[k + 1];
            && t.sync.current.None? && t.runs.Keys == s.runs.Keys
            && (forall r | r in s.runs :: t.runs[r] == if s.runs[r].status.Running? then s.runs[r].(status := Failed) else s.runs[r])
            && t.sync.desired == s.sync.desired && t.sync.last == s.sync.last
            && (forall now :: RetryOpen(t.sync, now))
            && (t.sync.state.Ready? <==> !t.sync.HasDebt())
  {
    InvAlways(run, k);
    assert run.StepOK(k);
  }

  /** A manual submission, and a reopened gate with debt, can be claimed at any
      time by an active profile that runs nothing. */
  lemma OpensAtOnce(s: State, step: Step, r: RunId, now: Time)
    requires Inv(s) && Guard(s, step) && s.sync.current.None? && Active(s.profile) && r !in s.runs
    requires step.DoManual? || (step.DoReopen? && s.sync.HasDebt())
    ensures Creates(Next(s, step), r, now)
  {
    ClaimSucceedsIff(Next(s, step), r, now);
  }

  /** Which steps let go of what held claims back. A submission and a reopening
      clear the gate, its failure count and the window; a claim clears the window;
      a success clears the gate. A reopened profile is labelled by its debt alone. */
  lemma HoldsAreCleared(s: State, step: Step)
    requires Guard(s, step)
    ensures var t := Next(s, step).sync;
            && (step.DoManual? || step.DoReopen? || step.DoSuccess? ==> t.retry.None? && t.nextRetry.None? && t.limited == 0)
            && (step.DoManual? || step.DoReopen? || (step.DoClaim? && ClaimOutcome(s, step.run, step.now) == ClaimOK) ==>
                  t.notBefore.None? && t.deadline.None?)
            && (step.DoReopen? ==> && t.desired == s.sync.desired && t.last == s.sync.last && t.manual == s.sync.manual
                                   && (t.state.Ready? <==> s.sync.desired <= s.sync.LastOrZero()) && !t.state.Error?)
  {
  }

  /** What the queue loses: a fast batch takes exactly the rows it names at that
      version or an older one, a discard takes all, and neither touches anything
      else; configuration replaces the profile's own columns only. */
  lemma QueueIsCleared(s: State, step: Step)
    requires Guard(s, step)
    ensures var t := Next(s, step);
            && (step.DoFastClear? || step.DoDiscard? ==> t == s.(pending := t.pending))
            && (step.DoFastClear? ==>
                  forall p :: p in t.pending <==> p in s.pending && (p in step.batch ==> step.batch[p] < s.pending[p].gen))
            && (step.DoFastClear? ==> forall p | p in t.pending :: t.pending[p] == s.pending[p])
            && (step.DoDiscard? ==> t.pending == map[])
            && (step.DoConfigure? ==> t == s.(profile := step.profile))
  {
  }

  // ----- debounce windows -----

  /** The time of a step that opens or extends the debounce window. */
  function WindowAt(s: State, step: Step): Option<Time> {
    match step
    case DoWindow(now) => Some(now)
    case DoPromote(now) => Some(now)
    case DoEvent(_, kind, full, _, now) => if full || !(kind.Create? || kind.Modify?) then Some(now) else None
    case _ => None
  }

  /** Nothing cleared the window in between: no manual submission, no reopening
      and no claim that succeeded. */
  ghost predicate WindowUncleared(run: Run, i: nat, k: nat)
    requires run.Valid()
  {
    forall c: nat | i < c < k && c < |run.steps| ::
      && !run.steps[c].DoManual? && !run.steps[c].DoReopen?
      && (run.steps[c].DoClaim? ==> !ClaimedAt(run, c, run.steps[c].run))
  }

  lemma WindowStep(s: State, step: Step)
    requires Guard(s, step)
    ensures WindowAt(s, step).Some? ==>
              && Next(s, step).sync.notBefore.Some? && Next(s, step).sync.deadline.Some?
              && Next(s, step).sync.notBefore.value >= WindowAt(s, step).value + 10 * SECOND
              && Next(s, step).sync.deadline.value ==
                   (if s.sync.deadline.Some? then s.sync.deadline.value else WindowAt(s, step).value + 60 * SECOND)
    ensures !step.DoManual? && !step.DoReopen? && (step.DoClaim? ==> ClaimOutcome(s, step.run, step.now) != ClaimOK) ==>
              && (s.sync.notBefore.Some? ==> Next(s, step).sync.notBefore.Some? && Next(s, step).sync.notBefore.value >= s.sync.notBefore.value)
              && (s.sync.deadline.Some? ==> Next(s, step).sync.deadline == s.sync.deadline)
  {
  }

  lemma {:induction false} WindowStays(run: Run, i: nat, k: nat)
    requires run.Valid() && i < k <= |run.steps| && WindowUncleared(run, i, k)
    requires WindowAt(run.states[i], run.steps[i]).Some?
    ensures var s := run.states[k].sync;
            && s.notBefore.Some? && s.notBefore.value >= WindowAt(run.states[i], run.steps[i]).value + 10 * SECOND
            && s.deadline.Some? && s.deadline == run.states[i + 1].sync.deadline
    decreases k
  {
    assert run.StepOK(k - 1);
    WindowStep(run.states[k - 1], run.steps[k - 1]);
    if i + 1 < k {
      WindowStays(run, i, k - 1);
      assert !run.steps[k - 1].DoManual?;
    }
  }

  /** After a promotion, a destructive or full event, or a window opened by itself,
      the next claim to succeed comes at least ten seconds later, unless it belongs
      to a manual submission that asked not to wait. */
  lemma WindowWaits(run: Run, i: nat, k: nat, r: RunId)
    requires run.Valid() && i < k && ClaimedAt(run, k, r) && WindowUncleared(run, i, k)
    requires WindowAt(run.states[i], run.steps[i]).Some?
    ensures var s := run.states[k].sync;
            || run.steps[k].now >= WindowAt(run.states[i], run.steps[i]).value + 10 * SECOND
            || (s.manual.Some? && s.manual.value.bypassDebounce && s.manual.value.generation == s.desired)
  {
    WindowStays(run, i, k);
    ClaimSucceedsIff(run.states[k], r, run.steps[k].now);
  }

  // ----- what raises intent -----

  /** The least generation above these bounds, where the first is strict. */
  predicate LeastAbove(g: int, strictly: int, atLeast: int) { g == if strictly + 1 >= atLeast then strictly + 1 else atLeast }

  /** Each writer of intent raises it to the least generation that it must reach,
      never lowers it and never masks an error. */
  lemma IntentIsRaised(s: State, step: Step)
    requires Inv(s) && Guard(s, step)
    ensures var t := Next(s, step);
            match step
            case DoEnsure(g) => t.sync.desired == Max(s.sync.desired, g)
            case DoPromote(_) =>
              t.sync.desired == Max(s.sync.desired, s.runtime.source) && t.runtime.requested && t.pending == map[]
            case DoRequest =>
              && t.sync.desired == Max(s.sync.desired, Max(s.runtime.source, s.sync.LastOrZero() + 1))
              && t.runtime.requested && t.sync.HasDebt() && t.pending == s.pending
            case DoManual(allow, bypass) =>
              && LeastAbove(t.sync.desired, Max(s.sync.desired, s.sync.LastOrZero()), s.runtime.source) && t.sync.HasDebt()
              && t.sync.manual == Some(Manual(t.sync.desired, allow, bypass)) && t.runtime.requested
            case DoScheduled =>
              && LeastAbove(t.sync.desired, Max(s.sync.desired, s.sync.LastOrZero()), s.runtime.source) && t.sync.HasDebt()
              && t.sync.manual == s.sync.manual
            case DoEvent(_, kind, full, _, _) =>
              (full || !(kind.Create? || kind.Modify?)) ==>
                && t.sync.desired == Max(s.sync.desired, s.runtime.source + 1) && t.runtime.requested && t.pending == map[]
            case _ => true
    ensures s.sync.state.Error? && (step.DoEnsure? || step.DoPromote? || step.DoRequest? || step.DoManual? ||
                                    step.DoScheduled? || step.DoEvent? || step.DoPolicy?) ==>
              Next(s, step).sync.state.Error?
  {
  }

  // ----- policy commits -----

  /** A commit is refused for a deleted profile and for an unaccepted drop of
      migrated rules, and does nothing for the policy already in force. Any other
      puts its policy in force with its refresh pending, under a generation above
      everything before it, which is then owed; nothing else changes. */
  lemma PolicyCommit(s: State, hash: Hash, accept: bool)
    ensures var t, outcome := Next(s, DoPolicy(hash, accept)), CommitOutcomeOf(s, hash, accept);
            && (t == s <==> !outcome.CommitChanged?)
            && (outcome.CommitTombstoned? <==> s.profile.tombstoned)
            && (outcome.CommitUnchanged? <==> !s.profile.tombstoned && s.policy.Some? && s.policy.value.hash == hash)
            && (outcome.CommitRefused? <==> !s.profile.tombstoned && s.policy.Some? && s.policy.value.hash != hash
                                            && s.policy.value.source.LegacyMigrated? && !accept)
            && (outcome.CommitChanged? ==>
                  && t.policy.Some? && t.policy.value.hash == hash && t.policy.value.source.Gitignore?
                  && t.policy.value.refresh.RefreshPending? && t.policy.value.refreshed.None?
                  && t.policy.value.generation == t.runtime.source == t.sync.desired == outcome.generation
                  && t.sync.desired > Max(Max(s.sync.desired, s.sync.LastOrZero()), s.runtime.source)
                  && (s.policy.Some? ==> t.policy.value.generation > s.policy.value.generation)
                  && (t.sync.desired > 0 ==> t.sync.HasDebt())
                  && t == s.(policy := t.policy, runtime := s.runtime.(source := t.runtime.source), sync := t.sync)
                  && t.sync == s.sync.(desired := t.sync.desired, state := t.sync.state, manual := t.sync.manual)
                  && (s.sync.manual.Some? <==> t.sync.manual.Some?)
                  && (s.sync.manual.Some? ==> t.sync.manual.value == s.sync.manual.value.(generation := t.sync.desired)))
  {
  }

  ghost predicate PolicyChangedAt(run: Run, i: nat)
    requires run.Valid()
  {
    i < |run.steps| && run.steps[i].DoPolicy? && run.states[i + 1] != run.states[i]
  }

  /** A changed policy is only ever reconciled by an attempt claimed after its
      commit: whenever the success mark has reached its generation, such an
      attempt was claimed and succeeded since. */
  lemma PolicyIsReconciled(run: Run, i: nat, j: nat) returns (k: nat, m: nat, r: RunId)
    requires run.Valid() && PolicyChangedAt(run, i) && i < j <= |run.steps|
    requires run.states[i + 1].policy.Some? && run.states[j].sync.LastOrZero() >= run.states[i + 1].policy.value.generation
    ensures i < k < m < j && ClaimedAt(run, k, r) && SucceededAt(run, m, r)
    ensures run.states[m].runs[r].target >= run.states[i + 1].policy.value.generation
  {
    var g := run.states[i + 1].policy.value.generation;
    InvAlways(run, i);
    assert run.StepOK(i);
    PolicyCommit(run.states[i], run.steps[i].hash, run.steps[i].acceptLegacyDrop);
    m, r := ReachedBetween(run, i + 1, j, g);
    GrowsAlways(run, i + 1, m);
    assert r !in run.states[i + 1].runs;
    k := BornBetween(run, i + 1, m, r);
  }

  // ----- what a queued row says -----

  ghost predicate EventAt(run: Run, i: nat, path: Path)
    requires run.Valid()
  {
    i < |run.steps| && run.steps[i].DoEvent? && run.steps[i].path == path
  }

  /** The row of a path tells the kind, the version, the time and the policy of its
      latest event, and the time of its earliest one since it was last unqueued. */
  ghost predicate RowTells(run: Run, first: nat, last: nat, j: nat, path: Path)
    requires run.Valid() && j < |run.states| && path in run.states[j].pending
  {
    var row := run.states[j].pending[path];
    && first <= last < j && EventAt(run, first, path) && EventAt(run, last, path)
    && path !in run.states[first].pending && (forall c: nat | first < c <= j :: path in run.states[c].pending)
    && (forall c: nat | last < c < j :: !EventAt(run, c, path))
    && row.kind == run.steps[last].kind && row.lastSeen == run.steps[last].now && row.firstSeen == run.steps[first].now
    && row.gen == run.states[last + 1].runtime.source
    && (run.states[last].policy.Some? ==>
          row.observed == Some(if run.steps[last].policyHash == "" then run.states[last].policy.value.hash
                               else run.steps[last].policyHash))
    && (run.states[last].policy.None? ==> row.observed.None?)
  }

  lemma {:induction false} QueuedRowTells(run: Run, j: nat, path: Path) returns (first: nat, last: nat)
    requires run.Valid() && j <= |run.steps| && run.states[0].pending == map[] && path in run.states[j].pending
    ensures RowTells(run, first, last, j, path)
  {
    var k := j - 1;
    InvAlways(run, k);
    assert run.StepOK(k);
    var s, step := run.states[k], run.steps[k];
    if step.DoEvent? && step.path == path {
      first, last := k, k;
      if path in s.pending {
        var before;
        first, before := QueuedRowTells(run, k, path);
      }
    } else {
      RowUntouched(s, step, path);
      first, last := QueuedRowTells(run, k, path);
    }
  }

  lemma RowUntouched(s: State, step: Step, path: Path)
    requires Guard(s, step) && !(step.DoEvent? && step.path == path) && path in Next(s, step).pending
    ensures path in s.pending && Next(s, step).pending[path] == s.pending[path]
  {
  }

  /** A success leaves queued exactly the rows newer than the generation it
      reached. */
  lemma SuccessUnqueues(run: Run, m: nat, r: RunId)
    requires run.Valid() && SucceededAt(run, m, r)
    ensures var s, t := run.states[m], run.states[m + 1];
            && r in t.runs && t.runs[r] == s.runs[r].(status := Succeeded) && t.sync.initialized
            && forall p :: p in t.pending <==> p in s.pending && s.pending[p].gen > s.runs[r].target
  {
    InvAlways(run, m);
    assert run.StepOK(m);
  }
}
