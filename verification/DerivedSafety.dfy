/** The derived lane over whole histories. */
module DerivedSafety {
  import opened Rows
  import opened RetryPolicy
  import opened DerivedLane
  import opened DerivedRuns

  type NameOrder = (GenId, GenId) -> bool

  datatype History = History(states: seq<State>, steps: seq<Step>) {
    ghost predicate StepOK(nameLess: NameOrder, k: nat)
      requires k < |steps| < |states|
    {
      Guard(states[k], steps[k], nameLess) && states[k + 1] == Next(states[k], steps[k], nameLess)
    }

    ghost predicate Valid(nameLess: NameOrder) {
      && |states| == |steps| + 1
      && states[0] == State(Created(), map[], None, None, {})
      && forall k: nat | k < |steps| :: StepOK(nameLess, k)
    }

    function Last(): State
      requires |states| > 0
    {
      states[|states| - 1]
    }

    ghost function Then(nameLess: NameOrder, step: Step, next: State): (h: History)
      requires Valid(nameLess) && Guard(Last(), step, nameLess) && next == Next(Last(), step, nameLess)
      ensures h.Valid(nameLess) && h.Last() == next
    {
      var h := History(states + [next], steps + [step]);
      assert forall k: nat | k < |steps| :: StepOK(nameLess, k) ==> h.StepOK(nameLess, k);
      h
    }
  }

  lemma {:induction false} InvAlways(h: History, nameLess: NameOrder, k: nat)
    requires h.Valid(nameLess) && k <= |h.steps|
    ensures Inv(h.states[k])
  {
    if k > 0 {
      InvAlways(h, nameLess, k - 1);
      assert h.StepOK(nameLess, k - 1);
      InvKept(h.states[k - 1], h.steps[k - 1], nameLess);
    }
  }

  // ----- current means published -----

  /** Whenever the lane reports `current`, the recorded remote mode, generation
      and binding are the present desire, so a claim under that binding has
      nothing to do. */
  lemma CurrentMeansPublished(h: History, nameLess: NameOrder, k: nat, now: Time)
    requires h.Valid(nameLess) && k <= |h.steps| && h.states[k].row.derived.DerivedCurrent?
    ensures var r := h.states[k].row;
            && r.remoteBinding.Some?
            && (r.mode.WantAbsent? ==> r.remote.RemoteAbsent?)
            && (r.mode.WantGeneration? ==> r.remote.RemoteGeneration? && r.desired.Some? && r.published == r.desired)
            && AlreadyCurrent(r, r.remoteBinding.value) && !Claimable(r, r.remoteBinding.value, now)
  {
    InvAlways(h, nameLess, k);
  }

  // ----- revisions -----

  predicate ChangesDesire(step: Step) { (step.DoCompile? && step.cut.Recorded?) || step.DoClean? }

  /** Every new desire has a strictly larger revision, and nothing else touches
      the desire or its revision. */
  lemma {:induction false} RevisionNamesDesire(h: History, nameLess: NameOrder, i: nat, j: nat)
    requires h.Valid(nameLess) && i <= j <= |h.steps|
    ensures h.states[i].row.revision <= h.states[j].row.revision
    ensures h.states[i].row.revision == h.states[j].row.revision ==>
              h.states[i].row.mode == h.states[j].row.mode && h.states[i].row.desired == h.states[j].row.desired
    ensures h.states[i].row.revision == h.states[j].row.revision <==> forall k: nat | i <= k < j :: !ChangesDesire(h.steps[k])
    decreases j
  {
    if i < j {
      RevisionNamesDesire(h, nameLess, i, j - 1);
      assert h.StepOK(nameLess, j - 1);
      RowSteps(h.states[j - 1], h.steps[j - 1], nameLess);
    }
  }

  lemma RowSteps(s: State, step: Step, nameLess: NameOrder)
    requires Guard(s, step, nameLess)
    ensures var r := Next(s, step, nameLess).row;
            if ChangesDesire(step) then r.revision == s.row.revision + 1
            else r.revision == s.row.revision && r.mode == s.row.mode && r.desired == s.row.desired
  {
  }

  // ----- gates -----

  /** The desire just written by a compile or a clean is never gated, whatever
      failed before and however. */
  lemma NewDesireIsNotGated(h: History, nameLess: NameOrder, k: nat, binding: Binding, now: Time)
    requires h.Valid(nameLess) && k < |h.steps| && ChangesDesire(h.steps[k])
    ensures !Gated(h.states[k + 1].row, binding, now)
  {
    InvAlways(h, nameLess, k);
    InvAlways(h, nameLess, k + 1);
    assert h.StepOK(nameLess, k);
    var s, r := h.states[k], h.states[k + 1].row;
    assert r.retryKey == s.row.retryKey;
    if r.retryKey.Some? {
      var t :| GateOf(s.row, t);
      if r.retryKey == Some(TargetKey(Desire(r, binding))) {
        TargetKeyIsInjective(t, Desire(r, binding));
      }
    }
  }

  /** The attempt failed at step k: by its own report, or by the verification
      that follows its claim. */
  ghost predicate FailedAt(h: History, nameLess: NameOrder, k: nat, t: Target)
    requires h.Valid(nameLess)
  {
    && k < |h.steps|
    && match h.steps[k]
       case DoFailure(_, _, _) => h.states[k].worker == Some(t)
       case DoClaim(binding, _) => t == Desire(h.states[k].row, binding) && h.states[k + 1].worker.None?
       case _ => false
  }

  /** What a closed gate records: the failure it came from. */
  ghost predicate GateExplained(h: History, nameLess: NameOrder, j: nat, t: Target)
    requires h.Valid(nameLess) && j < |h.states|
  {
    h.states[j].row.retryKey == Some(TargetKey(t)) && exists k | 0 <= k < j :: FailedAt(h, nameLess, k, t)
  }

  lemma {:induction false} GateHasFailure(h: History, nameLess: NameOrder, j: nat) returns (t: Target)
    requires h.Valid(nameLess) && j <= |h.steps|
    requires h.states[j].row.retryClass.Some? || h.states[j].row.nextRetry.Some?
    ensures GateExplained(h, nameLess, j, t) && NulFree(t)
    decreases j
  {
    var k := j - 1;
    InvAlways(h, nameLess, k);
    assert h.StepOK(nameLess, k);
    var s := h.states[k];
    if h.steps[k].DoFailure? {
      t := s.worker.value;
      assert FailedAt(h, nameLess, k, t);
    } else if h.steps[k].DoClaim? && h.states[j].worker.None? {
      t := Desire(s.row, h.steps[k].binding);
      assert FailedAt(h, nameLess, k, t);
    } else {
      t := GateHasFailure(h, nameLess, k);
    }
  }

  /** A gate blocks only the desire it failed on: if the present desire is gated,
      an earlier attempt of exactly this mode, generation, revision and binding
      failed. */
  lemma GateBlocksOnlyItsDesire(h: History, nameLess: NameOrder, j: nat, binding: Binding, now: Time) returns (k: nat)
    requires h.Valid(nameLess) && j <= |h.steps| && Gated(h.states[j].row, binding, now)
    ensures k < j && FailedAt(h, nameLess, k, Desire(h.states[j].row, binding))
  {
    InvAlways(h, nameLess, j);
    var t := GateHasFailure(h, nameLess, j);
    TargetKeyIsInjective(t, Desire(h.states[j].row, binding));
    k :| 0 <= k < j && FailedAt(h, nameLess, k, t);
  }

  // ----- one success settles a desire -----

  /** After an attempt for the present desire succeeded, and until a compile or a
      clean writes a new one, claims under its binding find nothing to do. */
  lemma {:induction false} SuccessSettlesDesire(h: History, nameLess: NameOrder, i: nat, j: nat, t: Target, now: Time)
    requires h.Valid(nameLess) && i < j <= |h.steps|
    requires h.steps[i].DoSuccess? && h.states[i].worker == Some(t) && t.revision == h.states[i].row.revision
    requires forall k: nat | i < k < j :: !ChangesDesire(h.steps[k])
    requires forall k: nat | i < k < j ::
               h.steps[k].DoClaim? || h.steps[k].DoClaimInterrupted? ==> h.steps[k].binding == t.binding
    ensures AlreadyCurrent(h.states[j].row, t.binding) && !Claimable(h.states[j].row, t.binding, now)
    ensures h.states[j].worker.None?
    decreases j
  {
    InvAlways(h, nameLess, j - 1);
    assert h.StepOK(nameLess, j - 1);
    if i + 1 < j {
      SuccessSettlesDesire(h, nameLess, i, j - 1, t, now);
      assert !Claimable(h.states[j - 1].row, t.binding, if h.steps[j - 1].DoClaim? || h.steps[j - 1].DoClaimInterrupted? then h.steps[j - 1].now else now);
    }
  }

  // ----- pins -----

  predicate EndsAttempt(step: Step) { step.DoSuccess? || step.DoFailure? || step.DoRecover? }

  /** From the claim that verified a generation until the attempt finishes or is
      recovered, also while its worker is dead, no compile, garbage collection,
      clean or finalization removes that generation or its pin. */
  lemma {:induction false} PinnedGenerationStays(h: History, nameLess: NameOrder, i: nat, j: nat, g: GenId)
    requires h.Valid(nameLess) && i < j <= |h.steps| && h.steps[i].DoClaim?
    requires h.states[i + 1].worker.Some? && h.states[i + 1].worker.value.generation == Some(g)
    requires forall k: nat | i < k < j :: !EndsAttempt(h.steps[k])
    ensures g in h.states[j].dirs && h.states[j].row.active == Some(g)
    decreases j
  {
    if i + 1 == j {
      InvAlways(h, nameLess, j);
    } else {
      PinnedGenerationStays(h, nameLess, i, j - 1, g);
      assert h.StepOK(nameLess, j - 1);
      PinKept(h.states[j - 1], h.steps[j - 1], nameLess, g);
    }
  }

  lemma PinKept(s: State, step: Step, nameLess: NameOrder, g: GenId)
    requires Guard(s, step, nameLess) && !EndsAttempt(step) && g in s.dirs && s.row.active == Some(g)
    ensures g in Next(s, step, nameLess).dirs && Next(s, step, nameLess).row.active == Some(g)
  {
    if step.DoCompile? {
      assert g !in Others(s.dirs[step.generation := step.modified], step.generation, s.row.active);
    }
  }

  // ----- a desire that nothing backs -----

  /** The desired generation is present locally. */
  predicate LocallyBacked(s: State) { s.row.desired.Some? ==> s.row.desired.value in s.dirs }

  /** Every claim of an unbacked desire fails terminally, so the wiped compile is
      never published until something new is desired. */
  lemma WipedDesireFailsForGood(s: State, binding: Binding, now: Time, later: Time)
    requires Inv(s) && s.worker.None? && Claimable(s.row, binding, now) && !LocallyBacked(s)
    ensures var t := ClaimVerified(s, binding, now);
            t.worker.None? && t.row.terminal && Gated(t.row, binding, later) && !LocallyBacked(t)
  {
  }

  /** Compile, claim its publication, and clean while it is pinned. */
  lemma CleanWhilePinned(nameLess: NameOrder, g: GenId, binding: Binding) returns (h: History)
    requires g != "" && NUL !in g
    ensures h.Valid(nameLess)
    ensures h.Last() == State(MarkCompilerClean(Claim(FinishCompilerRun(Created(), g), binding)), map[g := 1], None,
                              Some(Target(WantGeneration, Some(g), 1, binding)), {g})
  {
    var dirs: Dirs := map[g := 1];
    var compiled := FinishCompilerRun(Created(), g);
    h := History([State(Created(), map[], None, None, {})], []);
    assert map[][g := 1] == dirs && Others(dirs, g, None) == {};
    h := h.Then(nameLess, DoCompile(g, 1, dirs, Recorded), State(compiled, dirs, Some(g), None, {g}));
    var t := Desire(compiled, binding);
    h := h.Then(nameLess, DoClaim(binding, 0), State(Claim(compiled, binding), dirs, Some(g), Some(t), {g}));
    assert dirs.Keys == {g} == Pinned(h.Last().row) && Restrict(dirs, {g}) == dirs;
    h := h.Then(nameLess, DoClean({g}, true), State(MarkCompilerClean(Claim(compiled, binding)), dirs, None, Some(t), {g}));
  }

  /** Such a history: a clean while a publish is pinned, a compile, the end of
      the publish, and the finalization of the clean. */
  lemma CompileAfterPinnedCleanIsWiped(nameLess: NameOrder, first: GenId, second: GenId, binding: Binding)
    returns (h: History)
    requires first != "" && second != "" && NUL !in first && NUL !in second && first != second
    ensures h.Valid(nameLess)
    ensures var s := h.Last();
            && s.row.mode.WantGeneration? && s.row.desired == Some(second) && s.pointer.None? && s.dirs == map[]
            && Claimable(s.row, binding, 0)
  {
    h := CleanWhilePinned(nameLess, first, binding);
    var cleaned, worker := h.Last().row, h.Last().worker;
    var dirs: Dirs := map[first := 1, second := 2];
    var compiled := FinishCompilerRun(cleaned, second);
    assert map[first := 1][second := 2] == dirs && Others(dirs, second, Some(first)) == {};
    h := h.Then(nameLess, DoCompile(second, 2, dirs, Recorded), State(compiled, dirs, Some(second), worker, {first, second}));
    var published := FinishSuccess(compiled, worker.value);
    h := h.Then(nameLess, DoSuccess, State(published, dirs, Some(second), None, {first, second}));
    h := h.Then(nameLess, DoFinalize, State(FinishCompilerClean(published), map[], None, None, {first, second}));
  }

  // ----- what a failure reports -----

  /** The attempt claimed at step c is the one that fails at step f. */
  ghost predicate AttemptFails(h: History, nameLess: NameOrder, c: nat, f: nat, t: Target)
    requires h.Valid(nameLess)
  {
    && c < f < |h.steps| && h.steps[c].DoClaim? && h.steps[f].DoFailure?
    && forall k: nat | c < k <= f :: h.states[k].worker == Some(t)
  }

  /** A terminal failure always marks the lane failed for good, but it is the
      failure of the present desire, and stops claims of it, exactly when no
      compile or clean recorded a new desire since the attempt was claimed, and
      then under its own binding only. Otherwise a waiter that reads the lane's
      error reads one that is not its own while the present desire can be claimed. */
  lemma FailureIsOwnIff(h: History, nameLess: NameOrder, c: nat, f: nat, t: Target, binding: Binding, later: Time)
    requires h.Valid(nameLess) && AttemptFails(h, nameLess, c, f, t) && h.steps[f].retry.Terminal?
    ensures var r := h.states[f + 1].row;
            && r.derived.DerivedFailed? && r.terminal && r.active.None?
            && (Gated(r, binding, later) <==> binding == t.binding && forall k: nat | c < k < f :: !ChangesDesire(h.steps[k]))
            && (!Gated(r, binding, later) && !AlreadyCurrent(r, binding) ==> Claimable(r, binding, later))
  {
    InvAlways(h, nameLess, c);
    InvAlways(h, nameLess, f);
    assert h.StepOK(nameLess, c) && h.StepOK(nameLess, f);
    RevisionNamesDesire(h, nameLess, c + 1, f);
    RevisionPositive(h, nameLess, c, f);
    var present := Desire(h.states[f + 1].row, binding);
    if TargetKey(t) == TargetKey(present) {
      TargetKeyIsInjective(t, present);
    }
  }

  lemma RevisionPositive(h: History, nameLess: NameOrder, c: nat, f: nat)
    requires h.Valid(nameLess) && c < f < |h.steps| && h.steps[c].DoClaim?
    ensures h.states[f].row.revision > 0
  {
    assert h.StepOK(nameLess, c);
    RevisionNamesDesire(h, nameLess, c, f);
  }
}
