/** What happens to a recorded filesystem event over a whole run: it is never
    lost, and when an attempt may and may not swallow an event recorded while
    it was working. */
module SyncEvents {
  import opened Rows
  import opened RetryPolicy
  import opened SyncSteps
  import opened SyncRuns

  // ----- no event lost -----

  ghost predicate Owed(s: State, g: int) { g <= s.sync.desired }

  ghost predicate Queued(s: State, path: Path, g: int) { path in s.pending && s.pending[path].gen >= g }

  /** Consumed by a fast batch that had read this event or a later one of the path. */
  ghost predicate FastConsumed(run: Run, i: nat, j: nat, path: Path, g: int)
    requires run.Valid()
  {
    exists k: nat | i < k < j && k < |run.steps| ::
      && run.steps[k].DoFastClear?
      && path in run.steps[k].batch && run.steps[k].batch[path] >= g
      && i < run.steps[k].capturedAt
  }

  ghost predicate Discarded(run: Run, i: nat, j: nat)
    requires run.Valid()
  {
    exists k: nat | i < k < j && k < |run.steps| :: run.steps[k].DoDiscard?
  }

  ghost predicate Accounted(run: Run, i: nat, j: nat, path: Path, g: int)
    requires run.Valid() && j < |run.states|
  {
    Owed(run.states[j], g) || Queued(run.states[j], path, g) || FastConsumed(run, i, j, path, g) || Discarded(run, i, j)
  }

  lemma {:induction false} NoEventLost(run: Run, i: nat, j: nat, path: Path, g: int)
    requires run.Valid() && RecordedAt(run, i, path, g) && i < j <= |run.steps|
    ensures Accounted(run, i, j, path, g)
    decreases j
  {
    var k := j - 1;
    assert run.StepOK(k);
    InvAlways(run, k);
    if k > i {
      NoEventLost(run, i, k, path, g);
      GrowsAlways(run, i + 1, k);
      var step := run.steps[k];
      if Owed(run.states[k], g) {
        StepGrows(run.states[k], step);
      } else if Queued(run.states[k], path, g) {
        if step.DoFastClear? && !Queued(run.states[j], path, g) {
          CapturedAfter(run, i, k, path, g);
        }
      }
    }
  }

  /** A batch that holds a version >= g of the path was read after g was recorded. */
  lemma CapturedAfter(run: Run, i: nat, k: nat, path: Path, g: int)
    requires run.Valid() && RecordedAt(run, i, path, g) && k < |run.steps| && run.steps[k].DoFastClear?
    requires path in run.steps[k].batch && run.steps[k].batch[path] >= g
    ensures i < run.steps[k].capturedAt
  {
    assert run.StepOK(k) && run.Captured(k);
    var a := run.steps[k].capturedAt;
    InvAlways(run, a);
    assert run.StepOK(i);
    InvAlways(run, i);
    assert run.states[i].runtime.source < g;
    if a <= i {
      GrowsAlways(run, a, i);
    }
  }

  /** Promotion is safe because it reads the source counter in the same step. If
      an event slips in between the read and the promotion, it stays accounted
      for exactly when the intent already covered it. */
  lemma PromotionRace(s: State, path: Path, kind: EventKind, t0: Time, t1: Time)
    requires Inv(s) && kind.SafeFast() && s.runtime.source >= 1
    ensures var g := s.runtime.source + 1;
            var after := PromoteAt(RecordEvent(s, path, kind, false, "", t0), s.runtime.source, t1);
            (Owed(after, g) || Queued(after, path, g)) <==> g <= s.sync.desired
  {
    assert !NeedsFull(s, kind, false);
  }

  // ----- the fence around a running attempt -----

  /** While attempt r is the current one at both ends, it is current throughout. */
  lemma {:induction false} CurrentThroughout(run: Run, c: nat, x: nat, m: nat, r: RunId)
    requires run.Valid() && ClaimedAt(run, c, r) && c < x <= m && SucceededAt(run, m, r)
    ensures run.states[x].sync.current == Some(r)
    ensures r in run.states[x].runs && run.states[x].runs[r].target == run.states[c].sync.desired
  {
    assert run.StepOK(c);
    InvAlways(run, x);
    InvAlways(run, m);
    GrowsAlways(run, c + 1, x);
    GrowsAlways(run, x, m);
  }

  /** An event recorded during the attempt is still there after it commits: queued,
      or covered by debt that keeps the profile syncing. */
  ghost predicate Fenced(s: State, path: Path, g: int) {
    Queued(s, path, g) || (Owed(s, g) && s.sync.HasDebt() && s.sync.state.Syncing?)
  }

  lemma {:induction false} QueuedOrOwed(run: Run, c: nat, i: nat, x: nat, m: nat, r: RunId, path: Path, g: int)
    requires run.Valid() && ClaimedAt(run, c, r) && SucceededAt(run, m, r)
    requires c < i < x <= m && RecordedAt(run, i, path, g)
    ensures Owed(run.states[x], g) || Queued(run.states[x], path, g)
    decreases x
  {
    var k := x - 1;
    assert run.StepOK(k);
    InvAlways(run, k);
    if k > i {
      QueuedOrOwed(run, c, i, k, m, r, path, g);
      CurrentThroughout(run, c, k, m, r);
      CurrentThroughout(run, c, x, m, r);
      GrowsAlways(run, i + 1, k);
      StepGrows(run.states[k], run.steps[k]);
    }
  }

  lemma FenceHolds(run: Run, c: nat, i: nat, m: nat, r: RunId, path: Path, g: int)
    requires run.Valid() && ClaimedAt(run, c, r) && SucceededAt(run, m, r)
    requires c < i < m && RecordedAt(run, i, path, g)
    requires run.states[c].sync.desired <= run.states[c].runtime.source
    ensures Fenced(run.states[m + 1], path, g)
  {
    QueuedOrOwed(run, c, i, m, m, r, path, g);
    CurrentThroughout(run, c, m, m, r);
    InvAlways(run, m);
    InvAlways(run, i);
    GrowsAlways(run, c, i);
    assert run.StepOK(i) && run.StepOK(m);
  }

  /** All continuations of a claim respect the fence. */
  ghost predicate FenceSound(s: State, r: RunId, now: Time) {
    forall run: Run, i: nat, m: nat, path: Path, g: int ::
      (&& run.Valid() && |run.steps| > 0 && run.states[0] == s && run.steps[0] == DoClaim(r, now)
       && 0 < i < m && RecordedAt(run, i, path, g) && SucceededAt(run, m, r))
      ==> Fenced(run.states[m + 1], path, g)
  }

  /** The shortest run that defeats the fence: one ordinary edit after the claim. */
  lemma SwallowedEdit(s: State, r: RunId, now: Time) returns (run: Run)
    requires Inv(s) && ClaimOutcome(s, r, now) == ClaimOK && s.sync.desired > s.runtime.source
    ensures run.Valid() && run.steps == [DoClaim(r, now), DoEvent("a", Modify, false, "", now), DoSuccess]
    ensures run.states[0] == s && SucceededAt(run, 2, r)
    ensures RecordedAt(run, 1, "a", s.runtime.source + 1)
    ensures "a" !in run.states[3].pending && !run.states[3].sync.HasDebt() && run.states[3].sync.state.Ready?
  {
    var edit := DoEvent("a", Modify, false, "", now);
    run := Run([s], []).Then(DoClaim(r, now));
    var claimed := run.Last();
    assert claimed.sync.current == Some(r) && claimed.runs[r].target == s.sync.desired;
    assert !NeedsFull(claimed, Modify, false);
    run := run.Then(edit);
    assert run.Last().sync == claimed.sync && run.Last().runs == claimed.runs;
    assert run.Last().pending["a"].gen == s.runtime.source + 1;
    run := run.Then(DoSuccess);
  }

  /** The fence holds on every continuation exactly when the intent being claimed
      does not run ahead of the source counter. */
  lemma FenceExact(s: State, r: RunId, now: Time)
    requires Inv(s) && ClaimOutcome(s, r, now) == ClaimOK
    ensures FenceSound(s, r, now) <==> s.sync.desired <= s.runtime.source
  {
    if s.sync.desired <= s.runtime.source {
      forall run: Run, i: nat, m: nat, path: Path, g: int |
        && run.Valid() && |run.steps| > 0 && run.states[0] == s && run.steps[0] == DoClaim(r, now)
        && 0 < i < m && RecordedAt(run, i, path, g) && SucceededAt(run, m, r)
        ensures Fenced(run.states[m + 1], path, g)
      {
        assert ClaimedAt(run, 0, r);
        FenceHolds(run, 0, i, m, r, path, g);
      }
    } else {
      var run := SwallowedEdit(s, r, now);
      assert !Fenced(run.states[3], "a", s.runtime.source + 1);
    }
  }

  /** A changed policy commit establishes the condition; a manual submission on a
      quiet profile breaks it. */
  lemma WhoEstablishesTheFence(s: State, hash: Hash, accept: bool, allow: int, bypass: bool)
    requires Inv(s)
    ensures CommitOutcomeOf(s, hash, accept).CommitChanged? ==>
              var t := CommitPolicy(s, hash, accept); t.sync.desired == t.runtime.source
    ensures s.sync.desired >= s.runtime.source ==>
              var t := SubmitManual(s, allow, bypass); t.sync.desired > t.runtime.source
  {
  }

  // ----- destructive rows -----

  /** Destructive events collapse into full intent, so no destructive row is ever
      queued: the classifier's event evidence is never available in practice. */
  ghost predicate OnlySafePending(s: State) {
    forall p | p in s.pending :: s.pending[p].kind.SafeFast()
  }

  lemma {:induction false} DestructiveNeverQueued(run: Run, k: nat)
    requires run.Valid() && OnlySafePending(run.states[0]) && k <= |run.steps|
    ensures OnlySafePending(run.states[k])
  {
    if k > 0 {
      DestructiveNeverQueued(run, k - 1);
      assert run.StepOK(k - 1);
    }
  }
}
