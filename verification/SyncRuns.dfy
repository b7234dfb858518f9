/** Whole runs of the reconciliation control plane: any interleaving of watcher,
    CLI, worker and recovery steps, starting from any consistent state. */
module SyncRuns {
  import opened Rows
  import opened RetryPolicy
  import opened SyncSteps

  // ----- the state invariant -----

  ghost predicate GenerationsInv(s: SyncRow) {
    && 1 <= s.desired
    && (s.last.Some? ==> 1 <= s.last.value <= s.desired)
    && (s.state.Ready? ==> !s.HasDebt())
    && (s.last.None? ==> s.state.Initializing? || s.state.Error?)
    && (s.last.Some? ==> !s.state.Initializing?)
    && (s.manual.Some? ==> s.manual.value.generation <= s.desired)
    && 0 <= s.limited <= 3
    && 0 <= s.consecutive
  }

  /** The current attempt is the one and only running row, and it is owed. */
  ghost predicate AttemptsInv(s: SyncRow, runs: map<RunId, RunRow>) {
    && (forall r | r in runs :: runs[r].status.Running? <==> s.current == Some(r))
    && (forall r | r in runs :: runs[r].target <= s.desired)
    && (s.current.Some? ==> s.current.value in runs && runs[s.current.value].target > s.LastOrZero())
    && (s.current.Some? ==> s.state.Initializing? || s.state.Syncing?)
  }

  ghost predicate PendingInv(pending: map<Path, PendingRow>, source: int) {
    forall p | p in pending :: pending[p].gen <= source
  }

  ghost predicate Inv(s: State) {
    GenerationsInv(s.sync) && AttemptsInv(s.sync, s.runs) && PendingInv(s.pending, s.runtime.source)
  }

  lemma CreatedIsConsistent(profile: ProfileRow, hash: Hash)
    ensures Inv(Created(profile, hash)) && Created(profile, hash).sync.HasDebt()
  {
  }

  lemma GenerationsKept(s: State, step: Step)
    requires Inv(s) && Guard(s, step)
    ensures GenerationsInv(Next(s, step).sync)
  {
  }

  lemma AttemptsKept(s: State, step: Step)
    requires Inv(s) && Guard(s, step)
    ensures AttemptsInv(Next(s, step).sync, Next(s, step).runs)
  {
  }

  lemma PendingKept(s: State, step: Step)
    requires Inv(s) && Guard(s, step)
    ensures PendingInv(Next(s, step).pending, Next(s, step).runtime.source)
  {
  }

  lemma InvKept(s: State, step: Step)
    requires Inv(s) && Guard(s, step)
    ensures Inv(Next(s, step))
  {
    GenerationsKept(s, step);
    AttemptsKept(s, step);
    PendingKept(s, step);
  }

  /** What no step undoes: generations, and the identity and fate of attempts. */
  ghost predicate Grows(s: State, t: State) {
    && s.runtime.source <= t.runtime.source
    && s.sync.desired <= t.sync.desired
    && s.sync.LastOrZero() <= t.sync.LastOrZero()
    && (s.sync.last.Some? ==> t.sync.last.Some?)
    && forall r | r in s.runs ::
         && r in t.runs
         && t.runs[r].target == s.runs[r].target
         && t.runs[r].manualOverride == s.runs[r].manualOverride
         && (!s.runs[r].status.Running? ==> t.runs[r] == s.runs[r])
  }

  lemma StepGrows(s: State, step: Step)
    requires Inv(s) && Guard(s, step)
    ensures Grows(s, Next(s, step))
  {
  }

  // ----- runs -----

  /** A history: states[k] is the state before steps[k]. */
  datatype Run = Run(states: seq<State>, steps: seq<Step>) {
    /** The versions a fast batch clears are the ones it read from an earlier state. */
    ghost predicate Captured(k: nat)
      requires k < |steps| < |states|
    {
      steps[k].DoFastClear? ==>
        && steps[k].capturedAt <= k
        && forall p | p in steps[k].batch ::
             var queue := states[steps[k].capturedAt].pending;
             p in queue && queue[p].gen == steps[k].batch[p]
    }

    ghost predicate StepOK(k: nat)
      requires k < |steps| < |states|
    {
      Guard(states[k], steps[k]) && states[k + 1] == Next(states[k], steps[k]) && Captured(k)
    }

    ghost predicate Valid() {
      && |states| == |steps| + 1
      && Inv(states[0])
      && forall k: nat | k < |steps| :: StepOK(k)
    }

    function Last(): State
      requires |states| > 0
    {
      states[|states| - 1]
    }

    ghost function Then(step: Step): (run: Run)
      requires Valid() && Guard(Last(), step) && !step.DoFastClear?
      ensures run.Valid() && run.steps == steps + [step] && run.states == states + [Next(Last(), step)]
    {
      var run := Run(states + [Next(Last(), step)], steps + [step]);
      forall k: nat | k < |run.steps|
        ensures run.StepOK(k)
      {
        assert k < |steps| ==> StepOK(k);
      }
      run
    }
  }

  lemma {:induction false} InvAlways(run: Run, k: nat)
    requires run.Valid() && k <= |run.steps|
    ensures Inv(run.states[k])
  {
    if k > 0 {
      InvAlways(run, k - 1);
      assert run.StepOK(k - 1);
      InvKept(run.states[k - 1], run.steps[k - 1]);
    }
  }

  lemma {:induction false} GrowsAlways(run: Run, i: nat, j: nat)
    requires run.Valid() && i <= j <= |run.steps|
    ensures Grows(run.states[i], run.states[j])
    decreases j
  {
    if i < j {
      GrowsAlways(run, i, j - 1);
      InvAlways(run, j - 1);
      assert run.StepOK(j - 1);
      StepGrows(run.states[j - 1], run.steps[j - 1]);
    }
  }

  /** At most one attempt runs, it is the recorded one, and it targets something
      owed: the three generations only grow and success never overtakes intent. */
  lemma AttemptRecord(run: Run, k: nat)
    requires run.Valid() && k <= |run.steps|
    ensures var s := run.states[k];
            && (forall r, q | r in s.runs && q in s.runs && s.runs[r].status.Running? && s.runs[q].status.Running? :: r == q)
            && (s.sync.current.Some? <==> exists r | r in s.runs :: s.runs[r].status.Running?)
            && (forall r | r in s.runs && s.runs[r].status.Running? ::
                  s.sync.current == Some(r) && s.sync.LastOrZero() < s.runs[r].target <= s.sync.desired)
            && (s.sync.state.Ready? ==> !s.sync.HasDebt())
            && Grows(run.states[0], s)
  {
    InvAlways(run, k);
    GrowsAlways(run, 0, k);
  }

  /** The histories of a new profile are among them, and until an attempt of it
      has succeeded it is owed its initial run and never reports ready. */
  lemma InitialRunIsOwed(run: Run, k: nat, profile: ProfileRow, hash: Hash)
    requires |run.states| == |run.steps| + 1 && run.states[0] == Created(profile, hash) && k <= |run.steps|
    requires forall i: nat | i < |run.steps| :: run.StepOK(i)
    ensures run.Valid()
    ensures var s := run.states[k].sync;
            s.last.None? ==> s.HasDebt() && !s.initialized && !s.state.Ready?
  {
    CreatedIsConsistent(profile, hash);
    InvAlways(run, k);
    InitializedBySuccess(run, k);
  }

  lemma {:induction false} InitializedBySuccess(run: Run, k: nat)
    requires run.Valid() && k <= |run.steps| && !run.states[0].sync.initialized
    ensures run.states[k].sync.initialized ==> run.states[k].sync.last.Some?
  {
    if k > 0 {
      InitializedBySuccess(run, k - 1);
      assert run.StepOK(k - 1);
      InitializedStep(run.states[k - 1], run.steps[k - 1]);
    }
  }

  lemma InitializedStep(s: State, step: Step)
    requires Guard(s, step)
    ensures Next(s, step).sync.initialized && !s.sync.initialized ==> Next(s, step).sync.last.Some?
    ensures s.sync.last.Some? ==> Next(s, step).sync.last.Some?
  {
  }

  // ----- events in a history -----

  ghost predicate SubmittedAt(run: Run, i: nat)
    requires run.Valid()
  {
    i < |run.steps| && (run.steps[i].DoManual? || run.steps[i].DoScheduled?)
  }

  ghost predicate ClaimedAt(run: Run, k: nat, r: RunId)
    requires run.Valid()
  {
    && k < |run.steps| && run.steps[k].DoClaim? && run.steps[k].run == r
    && ClaimOutcome(run.states[k], r, run.steps[k].now) == ClaimOK
  }

  ghost predicate SucceededAt(run: Run, m: nat, r: RunId)
    requires run.Valid()
  {
    m < |run.steps| && run.steps[m].DoSuccess? && run.states[m].sync.current == Some(r) && r in run.states[m].runs
  }

  ghost predicate RecordedAt(run: Run, i: nat, path: Path, g: int)
    requires run.Valid()
  {
    i < |run.steps| && run.steps[i].DoEvent? && run.steps[i].path == path && run.states[i + 1].runtime.source == g
  }

  // ----- freshness -----

  /** An attempt unknown at i and known at m was claimed in between. */
  lemma {:induction false} BornBetween(run: Run, i: nat, m: nat, r: RunId) returns (k: nat)
    requires run.Valid() && i <= m <= |run.steps|
    requires r !in run.states[i].runs && r in run.states[m].runs
    ensures i <= k < m && ClaimedAt(run, k, r)
    decreases m
  {
    assert run.StepOK(m - 1);
    if r in run.states[m - 1].runs {
      k := BornBetween(run, i, m - 1, r);
    } else {
      k := m - 1;
    }
  }

  /** Only a success moves the success mark, to the target of the current attempt. */
  lemma OnlySuccessAdvances(s: State, step: Step)
    requires Guard(s, step) && Next(s, step).sync.LastOrZero() != s.sync.LastOrZero()
    ensures step.DoSuccess? && OwnsCurrent(s)
    ensures Next(s, step).sync.LastOrZero() == Max(s.sync.LastOrZero(), s.runs[s.sync.current.value].target)
  {
  }

  /** If the success mark reaches g only after i, some success between carried it there. */
  lemma {:induction false} ReachedBetween(run: Run, i: nat, j: nat, g: int) returns (m: nat, r: RunId)
    requires run.Valid() && i <= j <= |run.steps|
    requires run.states[i].sync.LastOrZero() < g <= run.states[j].sync.LastOrZero()
    ensures i <= m < j && SucceededAt(run, m, r) && run.states[m].runs[r].target >= g
    decreases j
  {
    assert run.StepOK(j - 1);
    if g <= run.states[j - 1].sync.LastOrZero() {
      m, r := ReachedBetween(run, i, j - 1, g);
    } else {
      OnlySuccessAdvances(run.states[j - 1], run.steps[j - 1]);
      m, r := j - 1, run.states[j - 1].sync.current.value;
    }
  }

  /** A manual or scheduled submission is satisfied only by an attempt claimed
      after it: whenever the success mark has reached the submitted generation,
      such an attempt was claimed and then succeeded since. */
  lemma Freshness(run: Run, i: nat, j: nat) returns (k: nat, m: nat, r: RunId)
    requires run.Valid() && SubmittedAt(run, i) && i < j <= |run.steps|
    requires run.states[j].sync.LastOrZero() >= run.states[i + 1].sync.desired
    ensures i < k < m < j
    ensures ClaimedAt(run, k, r) && SucceededAt(run, m, r)
    ensures run.states[m].runs[r].target >= run.states[i + 1].sync.desired
  {
    var g := run.states[i + 1].sync.desired;
    InvAlways(run, i);
    assert run.StepOK(i);
    assert run.states[i + 1].runs == run.states[i].runs;
    m, r := ReachedBetween(run, i + 1, j, g);
    GrowsAlways(run, i + 1, m);
    assert r !in run.states[i + 1].runs;
    k := BornBetween(run, i + 1, m, r);
  }

  /** The other half: the success of an attempt that already existed when the
      generation was submitted never brings the mark up to it. */
  lemma OldAttemptCannotSatisfy(run: Run, i: nat, m: nat, r: RunId)
    requires run.Valid() && SubmittedAt(run, i) && i < m && SucceededAt(run, m, r)
    requires r in run.states[i].runs
    requires run.states[m].sync.LastOrZero() < run.states[i + 1].sync.desired
    ensures run.states[m + 1].sync.LastOrZero() < run.states[i + 1].sync.desired
    ensures run.states[m + 1].sync.HasDebt()
  {
    InvAlways(run, i);
    assert run.StepOK(i);
    assert run.states[i + 1].runs == run.states[i].runs;
    GrowsAlways(run, i + 1, m);
    assert run.StepOK(m);
  }
}
