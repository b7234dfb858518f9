/** Whether the desired generation is still among the local directories: exactly
    which steps lose it, and how many interrupted compiles it survives. */
module DerivedLocal {
  import opened Rows
  import opened DerivedLane
  import opened DerivedRuns
  import opened DerivedSafety

  /** A compile that died before it recorded its generation. */
  predicate Interrupted(step: Step) { step.DoCompile? && !step.cut.Recorded? }

  predicate Collects(step: Step) { step.DoCompile? && step.cut.PointerMoved? }

  /** The compile at step i recorded g, and nothing else was desired until j. */
  ghost predicate DesiredBetween(h: History, nameLess: NameOrder, i: nat, j: nat, g: GenId)
    requires h.Valid(nameLess)
  {
    && i < j <= |h.steps| && h.steps[i].DoCompile? && h.steps[i].cut.Recorded? && h.steps[i].generation == g
    && forall k: nat | i < k < j :: !ChangesDesire(h.steps[k])
  }

  ghost predicate DropsAt(h: History, k: nat, g: GenId)
    requires k < |h.steps|
  {
    h.steps[k].DoFinalize? || (Collects(h.steps[k]) && g !in h.steps[k].left)
  }

  lemma RecordedIsLocal(h: History, nameLess: NameOrder, i: nat, g: GenId)
    requires h.Valid(nameLess) && DesiredBetween(h, nameLess, i, i + 1, g)
    ensures g in h.states[i + 1].dirs && h.states[i + 1].row.desired == Some(g) && g in h.states[i + 1].used
    ensures h.states[i + 1].dirs[g] == h.steps[i].modified
  {
    assert h.StepOK(nameLess, i);
    var dirs := h.states[i].dirs[g := h.steps[i].modified];
    assert g in dirs && g !in Others(dirs, g, h.states[i].row.active);
  }

  /** From the moment it was recorded, the desired generation stays local exactly
      as long as no finalization runs and no collection of a later compile that
      dies unrecorded drops it; nothing brings it back. */
  lemma {:induction false} DesiredStaysLocalIff(h: History, nameLess: NameOrder, i: nat, j: nat, g: GenId)
    requires h.Valid(nameLess) && DesiredBetween(h, nameLess, i, j, g)
    ensures h.states[j].row.desired == Some(g) && g in h.states[j].used
    ensures LocallyBacked(h.states[j]) <==> forall k: nat | i < k < j :: !DropsAt(h, k, g)
    decreases j
  {
    if i + 1 == j {
      RecordedIsLocal(h, nameLess, i, g);
    } else {
      var last: nat := j - 1;
      DesiredStaysLocalIff(h, nameLess, i, last, g);
      assert h.StepOK(nameLess, last) && !ChangesDesire(h.steps[last]);
      LocalStep(h.states[last], h.steps[last], nameLess, g);
      assert LocallyBacked(h.states[j]) <==> LocallyBacked(h.states[last]) && !DropsAt(h, last, g);
    }
  }

  lemma LocalStep(s: State, step: Step, nameLess: NameOrder, g: GenId)
    requires Guard(s, step, nameLess) && !ChangesDesire(step) && s.row.desired == Some(g) && g in s.used
    ensures var t := Next(s, step, nameLess);
            && t.row.desired == Some(g) && g in t.used
            && (g in t.dirs <==> g in s.dirs && !step.DoFinalize? && (Collects(step) ==> g in step.left))
  {
  }

  // ----- how many interrupted compiles it survives -----

  /** A compile's directory is newer than everything that is there. */
  predicate Clocked(s: State, step: Step) {
    step.DoCompile? ==> forall x | x in s.dirs :: s.dirs[x] < step.modified
  }

  /** A collection that removes everything it may. */
  ghost function Collected(dirs: Dirs, current: GenId, protected: Option<GenId>, nameLess: NameOrder): Dirs {
    var others := Others(dirs, current, protected);
    map x | x in dirs && (x !in others || Newest(dirs, others, x, nameLess)) :: dirs[x]
  }

  ghost predicate Complete(s: State, step: Step, nameLess: NameOrder) {
    Collects(step) ==> step.left == Collected(s.dirs[step.generation := step.modified], step.generation, s.row.active, nameLess)
  }

  /** The generation g of modification time m is local, and the newest one until a
      compile is interrupted; then a newer one that nothing pins is there too. */
  ghost predicate Standing(s: State, g: GenId, m: int, interrupted: bool) {
    && s.row.desired == Some(g) && g in s.dirs && s.dirs[g] == m
    && (!interrupted ==> forall x | x in s.dirs :: x == g || s.dirs[x] < m)
    && (interrupted ==> exists n | n in s.dirs :: n != g && s.dirs[n] > m && s.row.active != Some(n))
  }

  /** A finalization, or a collection while an earlier compile's directory is
      newer and nothing pins the desired one. */
  predicate Loses(s: State, step: Step, g: GenId, interrupted: bool) {
    step.DoFinalize? || (Collects(step) && interrupted && s.row.active != Some(g))
  }

  lemma CompileStands(s: State, step: Step, nameLess: NameOrder, g: GenId, m: int, interrupted: bool)
    requires Inv(s) && Guard(s, step, nameLess) && Interrupted(step) && Clocked(s, step)
    requires Standing(s, g, m, interrupted) && !Loses(s, step, g, interrupted)
    ensures Standing(Next(s, step, nameLess), g, m, true)
  {
    var c, dirs := step.generation, s.dirs[step.generation := step.modified];
    var t := Next(s, step, nameLess);
    var others := Others(dirs, c, s.row.active);
    if Collects(step) {
      if s.row.active != Some(g) {
        assert Newest(dirs, others, g, nameLess);
      } else {
        assert g !in others;
      }
      assert c in dirs && c !in others;
    }
    assert c in t.dirs && c != g && t.dirs[c] > m && t.row.active != Some(c);
  }

  lemma OtherStands(s: State, step: Step, nameLess: NameOrder, g: GenId, m: int, interrupted: bool)
    requires Guard(s, step, nameLess) && !step.DoCompile? && !step.DoClean? && !step.DoFinalize?
    requires Standing(s, g, m, interrupted)
    ensures Standing(Next(s, step, nameLess), g, m, interrupted)
  {
    var t := Next(s, step, nameLess);
    assert t.dirs == s.dirs && t.row.desired == s.row.desired;
    assert t.row.active == s.row.active || t.row.active == Some(g) || t.row.active.None?;
    if interrupted {
      var n :| n in s.dirs && n != g && s.dirs[n] > m && s.row.active != Some(n);
      assert n in t.dirs && n != g && t.dirs[n] > m && t.row.active != Some(n);
    }
  }

  lemma LossIsLoss(s: State, step: Step, nameLess: NameOrder, g: GenId, m: int, interrupted: bool)
    requires Inv(s) && Guard(s, step, nameLess) && Complete(s, step, nameLess)
    requires Standing(s, g, m, interrupted) && Loses(s, step, g, interrupted)
    ensures g !in Next(s, step, nameLess).dirs
  {
    if Collects(step) {
      var dirs := s.dirs[step.generation := step.modified];
      var n :| n in s.dirs && n != g && s.dirs[n] > m && s.row.active != Some(n);
      assert n in dirs && n in Others(dirs, step.generation, s.row.active);
      assert !Newer(dirs, g, n, nameLess);
    }
  }

  predicate InterruptedBetween(h: History, i: nat, k: nat)
    requires k <= |h.steps|
  {
    exists a: nat | i < a < k :: Interrupted(h.steps[a])
  }

  ghost predicate LosesAt(h: History, i: nat, k: nat, g: GenId)
    requires k < |h.steps| && |h.states| > k
  {
    Loses(h.states[k], h.steps[k], g, InterruptedBetween(h, i, k))
  }

  lemma OneMore(h: History, i: nat, k: nat)
    requires i < k < |h.steps|
    ensures InterruptedBetween(h, i, k + 1) <==> InterruptedBetween(h, i, k) || Interrupted(h.steps[k])
  {
  }

  /** While nothing loses it, the generation stands. */
  lemma {:induction false} StandsUntilLost(h: History, nameLess: NameOrder, i: nat, j: nat, g: GenId)
    requires h.Valid(nameLess) && DesiredBetween(h, nameLess, i, j, g)
    requires forall k: nat | i <= k < j :: Clocked(h.states[k], h.steps[k])
    requires forall k: nat | i < k < j :: !LosesAt(h, i, k, g)
    ensures Standing(h.states[j], g, h.steps[i].modified, InterruptedBetween(h, i, j))
    decreases j
  {
    if i + 1 == j {
      RecordedIsLocal(h, nameLess, i, g);
      assert h.StepOK(nameLess, i);
    } else {
      StandsUntilLost(h, nameLess, i, j - 1, g);
      InvAlways(h, nameLess, j - 1);
      assert h.StepOK(nameLess, j - 1);
      assert !ChangesDesire(h.steps[j - 1]) && !LosesAt(h, i, j - 1, g);
      OneMore(h, i, j - 1);
      var m, before := h.steps[i].modified, InterruptedBetween(h, i, j - 1);
      if h.steps[j - 1].DoCompile? {
        CompileStands(h.states[j - 1], h.steps[j - 1], nameLess, g, m, before);
      } else {
        OtherStands(h.states[j - 1], h.steps[j - 1], nameLess, g, m, before);
      }
    }
  }

  /** With directories that get newer from compile to compile, the desired
      generation survives whatever happens short of a finalization as long as at
      most one compile was interrupted since it was recorded. */
  lemma OneInterruptionIsSafe(h: History, nameLess: NameOrder, i: nat, j: nat, g: GenId)
    requires h.Valid(nameLess) && DesiredBetween(h, nameLess, i, j, g)
    requires forall k: nat | i <= k < j :: Clocked(h.states[k], h.steps[k])
    requires forall k: nat | i < k < j :: !h.steps[k].DoFinalize?
    requires forall a: nat, b: nat | i < a < b < j :: !(Interrupted(h.steps[a]) && Interrupted(h.steps[b]))
    ensures LocallyBacked(h.states[j])
  {
    StandsUntilLost(h, nameLess, i, j, g);
  }

  /** And when collections remove all they may, it is lost exactly by a
      finalization, or by a compile that dies after collecting, when an earlier
      compile had died since and no publish pins the desired generation. */
  lemma {:induction false} DesiredSurvivesIff(h: History, nameLess: NameOrder, i: nat, j: nat, g: GenId)
    requires h.Valid(nameLess) && DesiredBetween(h, nameLess, i, j, g)
    requires forall k: nat | i <= k < j :: Clocked(h.states[k], h.steps[k])
    requires forall k: nat | i < k < j :: Complete(h.states[k], h.steps[k], nameLess)
    ensures LocallyBacked(h.states[j]) <==> forall k: nat | i < k < j :: !LosesAt(h, i, k, g)
    decreases j
  {
    DesiredStaysLocalIff(h, nameLess, i, j, g);
    if forall k: nat | i < k < j :: !LosesAt(h, i, k, g) {
      StandsUntilLost(h, nameLess, i, j, g);
    } else {
      var k := FirstLoss(h, i, j, g);
      StandsUntilLost(h, nameLess, i, k, g);
      InvAlways(h, nameLess, k);
      assert h.StepOK(nameLess, k);
      LossIsLoss(h.states[k], h.steps[k], nameLess, g, h.steps[i].modified, InterruptedBetween(h, i, k));
      assert DropsAt(h, k, g);
    }
  }

  lemma {:induction false} FirstLoss(h: History, i: nat, j: nat, g: GenId) returns (k: nat)
    requires j <= |h.steps| < |h.states| && exists a: nat :: i < a < j && LosesAt(h, i, a, g)
    ensures i < k < j && LosesAt(h, i, k, g) && forall a: nat | i < a < k :: !LosesAt(h, i, a, g)
    decreases j
  {
    var a: nat :| i < a < j && LosesAt(h, i, a, g);
    if exists b: nat :: i < b < a && LosesAt(h, i, b, g) {
      k := FirstLoss(h, i, a, g);
    } else {
      k := a;
    }
  }

  /** A compile that dies before it is recorded, after a collection that removes
      all it may if it gets that far. */
  ghost function Dying(s: State, c: GenId, m: int, cut: CompileCut, nameLess: NameOrder): Step {
    DoCompile(c, m, Collected(s.dirs[c := m], c, s.row.active, nameLess), cut)
  }

  lemma DyingLeaves(s: State, c: GenId, m: int, cut: CompileCut, nameLess: NameOrder)
    requires c !in s.used && c != "" && NUL !in c && !cut.Recorded?
    ensures Guard(s, Dying(s, c, m, cut, nameLess), nameLess)
    ensures var t := Next(s, Dying(s, c, m, cut, nameLess), nameLess);
            && t.row == s.row && t.used == s.used + {c} && c in t.dirs && t.dirs[c] == m
            && (forall x | x in t.dirs && x != c :: x in s.dirs && t.dirs[x] == s.dirs[x])
            && (cut.PointerMoved? ==> t.dirs == Collected(s.dirs[c := m], c, s.row.active, nameLess))
  {
  }

  lemma CollectionDrops(dirs: Dirs, c: GenId, protected: Option<GenId>, nameLess: NameOrder, g: GenId, n: GenId)
    requires n in Others(dirs, c, protected) && g != c && Some(g) != protected && (g in dirs ==> dirs[g] < dirs[n])
    ensures g !in Collected(dirs, c, protected, nameLess)
  {
    assert g in dirs ==> !Newer(dirs, g, n, nameLess) && g != n;
  }

  /** From any state whose desired generation is not pinned: two more compiles
      that die before they are recorded, the second after its collection, and it
      is gone while it is still desired. */
  lemma TwoInterruptionsLose(h: History, nameLess: NameOrder, g: GenId, first: GenId, second: GenId, m: int, cut: CompileCut)
    returns (l: History)
    requires h.Valid(nameLess) && h.Last().row.desired == Some(g) && h.Last().row.active != Some(g)
    requires first !in h.Last().used && second !in h.Last().used && first != second
    requires first != "" && second != "" && NUL !in first && NUL !in second
    requires !cut.Recorded? && forall x | x in h.Last().dirs :: h.Last().dirs[x] < m
    ensures l.Valid(nameLess) && l.Last().row == h.Last().row && !LocallyBacked(l.Last())
  {
    InvAlways(h, nameLess, |h.steps|);
    var s := h.Last();
    DyingLeaves(s, first, m, cut, nameLess);
    l := h.Then(nameLess, Dying(s, first, m, cut, nameLess), Next(s, Dying(s, first, m, cut, nameLess), nameLess));
    var t := l.Last();
    var last := Dying(t, second, m + 1, PointerMoved, nameLess);
    DyingLeaves(t, second, m + 1, PointerMoved, nameLess);
    CollectionDrops(t.dirs[second := m + 1], second, t.row.active, nameLess, g, first);
    l := l.Then(nameLess, last, Next(t, last, nameLess));
  }
}
