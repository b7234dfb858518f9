/** What the derived lane promises over histories about progress: a success makes
    the lane current, a failure keeps its own desire waiting for exactly its delay,
    and a crashed attempt can be claimed again at once. */
module DerivedLaws {
  import opened Rows
  import opened RetryPolicy
  import opened DerivedLane
  import opened DerivedRuns
  import opened DerivedSafety

  /** The attempt of this target works from its claim at c up to step m. */
  ghost predicate Works(h: History, nameLess: NameOrder, c: nat, m: nat, t: Target)
    requires h.Valid(nameLess)
  {
    && c < m < |h.steps| && h.steps[c].DoClaim? && t.binding == h.steps[c].binding
    && forall k: nat | c < k <= m :: h.states[k].worker == Some(t)
  }

  /** A claim takes the present desire under its binding, and pins the generation
      to publish. */
  lemma ClaimTakesDesire(h: History, nameLess: NameOrder, c: nat, m: nat, t: Target)
    requires h.Valid(nameLess) && Works(h, nameLess, c, m, t)
    ensures var r, s := h.states[c].row, h.states[c + 1].row;
            && t.mode == r.mode && t.generation == r.desired && t.revision == r.revision
            && !s.terminal && s.retryClass.None? && s.nextRetry.None?
            && s.derived.DerivedSyncing? && s.active == t.generation && r.active.None?
            && s.mode == r.mode && s.desired == r.desired && s.revision == r.revision
            && s.published == r.published && s.remote == r.remote && s.consecutive == r.consecutive
  {
    InvAlways(h, nameLess, c);
    assert h.StepOK(nameLess, c);
  }

  /** Only these two steps write a desire, and each writes its own. */
  lemma DesireWritten(h: History, nameLess: NameOrder, k: nat)
    requires h.Valid(nameLess) && k < |h.steps| && ChangesDesire(h.steps[k])
    ensures var r := h.states[k + 1].row;
            && r.derived.DerivedPending? && r.revision == h.states[k].row.revision + 1
            && r.active == h.states[k].row.active && r.published == h.states[k].row.published
            && (h.steps[k].DoCompile? ==> r.mode.WantGeneration? && r.desired == Some(h.steps[k].generation))
            && (h.steps[k].DoClean? ==> r.mode.WantAbsent? && r.desired.None?)
  {
    assert h.StepOK(nameLess, k);
  }

  /** A success records what was published or purged under its binding, unpins it
      and makes the lane current exactly when its target is what is desired then;
      so always when nothing was recorded since the claim. */
  lemma SuccessReachesCurrent(h: History, nameLess: NameOrder, c: nat, m: nat, t: Target)
    requires h.Valid(nameLess) && Works(h, nameLess, c, m, t) && h.steps[m].DoSuccess?
    ensures var r, s := h.states[m].row, h.states[m + 1].row;
            && s.published == t.generation && s.publishedBinding == Some(t.binding) && s.remoteBinding == Some(t.binding)
            && (s.remote.RemoteAbsent? <==> t.mode.WantAbsent?) && !s.remote.RemoteUnknown?
            && s.active.None? && s.consecutive == s.limited == 0 && !s.terminal
            && (forall binding, now :: !Gated(s, binding, now))
            && (s.derived.DerivedCurrent? <==> r.mode == t.mode && r.desired == t.generation)
            && ((forall k: nat | c < k < m :: !ChangesDesire(h.steps[k])) ==> s.derived.DerivedCurrent?)
  {
    InvAlways(h, nameLess, c);
    InvAlways(h, nameLess, m);
    assert h.StepOK(nameLess, c) && h.StepOK(nameLess, m);
    ClaimTakesDesire(h, nameLess, c, m, t);
    RevisionNamesDesire(h, nameLess, c + 1, m);
  }

  /** What the other steps leave behind: a compile that moved the pointer, its own
      generation under it; a clean, no pointer and only directories it kept, and
      when it went through none but a pinned one; a claim whose worker died before
      the verification, a pin without a worker; a crash, the row as it was. */
  lemma LaneSteps(s: State, step: Step, nameLess: NameOrder)
    requires Guard(s, step, nameLess)
    ensures var t := Next(s, step, nameLess);
            && (step.DoCompile? ==> t.pointer == if step.cut.DirectoryOnly? then s.pointer else Some(step.generation))
            && (step.DoCompile? && step.generation != "" ==> step.generation in t.dirs && t.dirs[step.generation] == step.modified)
            && (step.DoCompile? && !step.cut.Recorded? ==> t.row == s.row)
            && (step.DoClean? ==> t.pointer.None? && (forall g :: g in t.dirs <==> g in s.dirs && g in step.kept)
                                  && (step.complete ==> forall g | g in t.dirs :: s.row.active == Some(g)))
            && (step.DoFinalize? ==> t.dirs == map[] && t.pointer.None? && t.row.desired == s.row.desired)
            && (step.DoClaimInterrupted? ==>
                  t.worker.None? && t.row.derived.DerivedSyncing? && t.row.desired == s.row.desired && t.dirs == s.dirs
                  && (s.row.mode.WantGeneration? ==> t.row.active == s.row.desired))
            && (step.DoCrash? ==> t.worker.None? && t.row == s.row && t.dirs == s.dirs)
  {
    if step.DoCompile? {
      assert step.generation !in Others(s.dirs[step.generation := step.modified], step.generation, s.row.active);
    }
  }

  // ----- a clean that is still to be finalized -----

  /** A clean that could not remove everything, for a pinned publish or an error. */
  ghost predicate LeavesWork(h: History, i: nat)
    requires i < |h.steps| && |h.states| > i
  {
    h.steps[i].DoClean? && !(h.steps[i].complete && h.states[i].row.active.None?)
  }

  ghost predicate EndsCleaning(h: History, i: nat)
    requires i < |h.steps| && |h.states| > i
  {
    h.steps[i].DoFinalize? || (h.steps[i].DoClean? && !LeavesWork(h, i))
  }

  ghost predicate NoneEnds(h: History, i: nat, j: nat)
    requires j <= |h.steps| < |h.states|
  {
    forall k: nat | i < k < j :: !EndsCleaning(h, k)
  }

  /** A finalization is due exactly after a clean that left work behind and that
      neither a finalization nor a complete clean followed. */
  lemma {:induction false} CleaningPendingIff(h: History, nameLess: NameOrder, j: nat)
    requires h.Valid(nameLess) && j <= |h.steps|
    ensures h.states[j].row.cleaning <==>
              exists i: nat | i < j :: LeavesWork(h, i) && NoneEnds(h, i, j)
  {
    if j > 0 {
      var last: nat := j - 1;
      CleaningPendingIff(h, nameLess, last);
      assert h.StepOK(nameLess, last);
      CleaningStep(h.states[last], h.steps[last], nameLess);
      if h.states[last].row.cleaning && !EndsCleaning(h, last) && !LeavesWork(h, last) {
        var i: nat :| i < last && LeavesWork(h, i) && NoneEnds(h, i, last);
        assert NoneEnds(h, i, j);
      }
      if LeavesWork(h, last) {
        assert NoneEnds(h, last, j);
      }
    }
  }

  lemma CleaningStep(s: State, step: Step, nameLess: NameOrder)
    requires Guard(s, step, nameLess)
    ensures Next(s, step, nameLess).row.cleaning <==>
              if step.DoClean? then !(step.complete && s.row.active.None?) else !step.DoFinalize? && s.row.cleaning
  {
  }

  // ----- how long a failure keeps its desire waiting -----

  predicate ClaimStep(step: Step) { step.DoClaim? || step.DoClaimInterrupted? }

  /** The least delay after a failure with this many before it since the last
      success, of any kind and of the unclassified kind. */
  function LeastDelay(retry: RetryClass, before: nat, limitedBefore: nat): int {
    if retry.RetryableLimited? then MINUTE * (if limitedBefore == 0 then 1 else if limitedBefore == 1 then 5 else 15)
    else SECOND * Pow2(if before > 10 then 10 else before)
  }

  lemma FailureStoresTime(s: State, step: Step, nameLess: NameOrder)
    requires Inv(s) && Guard(s, step, nameLess) && step.DoFailure? && !step.retry.Terminal?
    ensures var r, t := s.row, Next(s, step, nameLess).row;
            && t.retryKey == Some(TargetKey(s.worker.value)) && t.derived.DerivedFailed? && t.active.None? && !t.terminal
            && t.nextRetry.Some? && t.nextRetry.value >= step.now + LeastDelay(step.retry, r.consecutive, r.limited)
            && 5 * (t.nextRetry.value - step.now) <= 6 * LeastDelay(step.retry, r.consecutive, r.limited)
            && t.consecutive == r.consecutive + 1 && t.limited == r.limited + (if step.retry.RetryableLimited? then 1 else 0)
  {
    BackoffRange(s.row.consecutive + 1, step.jitter);
  }

  lemma {:induction false} TimeStays(h: History, nameLess: NameOrder, f: nat, k: nat)
    requires h.Valid(nameLess) && f < k <= |h.steps| && h.states[f + 1].row.active.None? && h.states[f + 1].worker.None?
    requires forall c: nat | f < c < k :: !ClaimStep(h.steps[c])
    ensures var r, s := h.states[f + 1].row, h.states[k].row;
            && s.retryKey == r.retryKey && s.nextRetry == r.nextRetry && s.retryClass == r.retryClass
            && s.active.None? && h.states[k].worker.None?
    decreases k
  {
    if f + 1 < k {
      TimeStays(h, nameLess, f, k - 1);
      assert h.StepOK(nameLess, k - 1) && !ClaimStep(h.steps[k - 1]);
    }
  }

  /** After an attempt failed at some time, the next claim of the same desire under
      the same binding comes no earlier than the delay after it. */
  lemma RetryWaits(h: History, nameLess: NameOrder, c: nat, f: nat, k: nat, t: Target)
    requires h.Valid(nameLess) && Works(h, nameLess, c, f, t) && h.steps[f].DoFailure? && !h.steps[f].retry.Terminal?
    requires f < k < |h.steps| && ClaimStep(h.steps[k]) && h.steps[k].binding == t.binding
    requires forall d: nat | f < d < k :: !ClaimStep(h.steps[d])
    requires forall d: nat | c < d < k :: !ChangesDesire(h.steps[d])
    ensures h.steps[k].now >= h.steps[f].now + LeastDelay(h.steps[f].retry, h.states[f].row.consecutive, h.states[f].row.limited)
  {
    InvAlways(h, nameLess, f);
    assert h.StepOK(nameLess, f) && h.StepOK(nameLess, k);
    FailureStoresTime(h.states[f], h.steps[f], nameLess);
    TimeStays(h, nameLess, f, k);
    ClaimTakesDesire(h, nameLess, c, f, t);
    RevisionNamesDesire(h, nameLess, c + 1, k);
    SameRevision(h, nameLess, c, k);
  }

  lemma SameRevision(h: History, nameLess: NameOrder, c: nat, k: nat)
    requires h.Valid(nameLess) && c < k <= |h.steps| && h.steps[c].DoClaim?
    requires forall d: nat | c < d < k :: !ChangesDesire(h.steps[d])
    ensures h.states[k].row.revision == h.states[c].row.revision
    ensures h.states[k].row.mode == h.states[c].row.mode && h.states[k].row.desired == h.states[c].row.desired
  {
    RevisionNamesDesire(h, nameLess, c, k);
  }

  /** A claim that is not waited for is possible: with nothing pinned, a desire that
      is neither gated nor what the remote already holds is claimable, and what
      holds it back otherwise is one of these. */
  lemma ClaimableIff(r: LaneRow, binding: Binding, now: Time)
    ensures Claimable(r, binding, now) <==>
              && r.revision > 0 && r.active.None?
              && !(r.remoteBinding == Some(binding) &&
                   (if r.mode.WantAbsent? then r.remote.RemoteAbsent?
                    else r.remote.RemoteGeneration? && r.desired.Some? && r.published == r.desired && r.publishedBinding == Some(binding)))
              && (r.retryKey == Some(TargetKey(Target(r.mode, r.desired, r.revision, binding))) ==>
                    r.retryClass != Some(Terminal) && (r.nextRetry.Some? ==> r.nextRetry.value <= now))
  {
  }

  // ----- after a crash -----

  lemma {:induction false} CrashKeepsAttempt(h: History, nameLess: NameOrder, c: nat, k: nat, g: GenId)
    requires h.Valid(nameLess) && c < k <= |h.steps| && h.steps[c].DoClaim?
    requires h.states[c + 1].worker.Some? && h.states[c + 1].worker.value.generation == Some(g)
    requires forall d: nat | c < d < k :: !EndsAttempt(h.steps[d])
    ensures h.states[k].row.remote == h.states[c].row.remote && h.states[k].row.remoteBinding == h.states[c].row.remoteBinding
    ensures h.states[k].row.published == h.states[c].row.published
    ensures h.states[k].row.publishedBinding == h.states[c].row.publishedBinding
    ensures h.states[k].row.derived.DerivedSyncing? || h.states[k].row.derived.DerivedPending?
    decreases k
  {
    assert h.StepOK(nameLess, k - 1);
    if c + 1 < k {
      PinnedGenerationStays(h, nameLess, c, k - 1, g);
      CrashKeepsAttempt(h, nameLess, c, k - 1, g);
      assert !EndsAttempt(h.steps[k - 1]);
    }
  }

  /** A publish whose worker died is free to be claimed again, at any time, as soon
      as recovery ran, unless its desire was replaced meanwhile. */
  lemma RecoveredIsClaimable(h: History, nameLess: NameOrder, c: nat, k: nat, g: GenId, now: Time)
    requires h.Valid(nameLess) && c < k < |h.steps| && h.steps[c].DoClaim? && h.steps[k].DoRecover?
    requires h.states[c + 1].worker.Some? && h.states[c + 1].worker.value.generation == Some(g)
    requires forall d: nat | c < d < k :: !EndsAttempt(h.steps[d]) && !ChangesDesire(h.steps[d])
    ensures Claimable(h.states[k + 1].row, h.steps[c].binding, now) && h.states[k + 1].row.active.None?
    ensures h.states[k + 1].row.desired == Some(g) && h.states[k + 1].row.derived.DerivedPending?
  {
    InvAlways(h, nameLess, c);
    assert h.StepOK(nameLess, c) && h.StepOK(nameLess, k);
    PinnedGenerationStays(h, nameLess, c, k, g);
    CrashKeepsAttempt(h, nameLess, c, k, g);
    SameRevision(h, nameLess, c, k);
  }
}
