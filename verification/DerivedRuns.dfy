/** What every step of the derived lane keeps: the meaning of `current`, desires
    that are told apart by their revision, gates that only stop the desire they
    failed on, and pins that local clean-up respects. */
module DerivedRuns {
  import opened Rows
  import opened RetryPolicy
  import opened DerivedLane

  // ----- the target key -----

  lemma {:induction false} DecimalChars(n: nat)
    ensures NUL !in Decimal(n) && |Decimal(n)| >= 1
    ensures |Decimal(n)| == 1 <==> n < 10
  {
    if n >= 10 {
      DecimalChars(n / 10);
    }
  }

  lemma {:induction false} DecimalInjective(a: nat, b: nat)
    requires Decimal(a) == Decimal(b)
    ensures a == b
  {
    DecimalChars(a);
    DecimalChars(b);
    if a >= 10 && b >= 10 {
      var x, y := Decimal(a / 10), Decimal(b / 10);
      assert x + [Digit(a % 10)] == y + [Digit(b % 10)];
      assert (x + [Digit(a % 10)])[..|x|] == x && (y + [Digit(b % 10)])[..|y|] == y;
      assert (x + [Digit(a % 10)])[|x|] == (y + [Digit(b % 10)])[|y|];
      DecimalInjective(a / 10, b / 10);
    }
  }

  /** A NUL-free field is recovered from the front of a joined text. */
  lemma FirstField(a: string, rest: string, b: string, other: string)
    requires NUL !in a && NUL !in b && a + [NUL] + rest == b + [NUL] + other
    ensures a == b && rest == other
  {
    var s, t := a + [NUL] + rest, b + [NUL] + other;
    assert forall k | 0 <= k < |a| :: s[k] == a[k] && s[k] in a;
    assert forall k | 0 <= k < |b| :: t[k] == b[k] && t[k] in b;
    assert s[|a|] == NUL && t[|b|] == NUL;
    assert |a| == |b|;
    assert s[..|a|] == a && t[..|b|] == b;
    assert s[|a| + 1..] == rest && t[|b| + 1..] == other;
  }

  predicate NulFree(t: Target) { t.generation.Some? ==> t.generation.value != "" && NUL !in t.generation.value }

  /** Two desires share a target key only if they are the same desire. */
  lemma TargetKeyIsInjective(t: Target, u: Target)
    requires NulFree(t) && NulFree(u) && TargetKey(t) == TargetKey(u)
    ensures t == u
  {
    var g, h := t.generation.GetOr(""), u.generation.GetOr("");
    var t3, u3 := Decimal(t.revision) + [NUL] + t.binding, Decimal(u.revision) + [NUL] + u.binding;
    var t2, u2 := g + [NUL] + t3, h + [NUL] + u3;
    var t1, u1 := ModeText(t.mode) + [NUL] + t2, ModeText(u.mode) + [NUL] + u2;
    assert TargetKey(t) == "derived-v1" + [NUL] + t1 && TargetKey(u) == "derived-v1" + [NUL] + u1;
    FirstField("derived-v1", t1, "derived-v1", u1);
    FirstField(ModeText(t.mode), t2, ModeText(u.mode), u2);
    assert ModeText(WantGeneration)[0] != ModeText(WantAbsent)[0];
    FirstField(g, t3, h, u3);
    DecimalChars(t.revision);
    DecimalChars(u.revision);
    FirstField(Decimal(t.revision), t.binding, Decimal(u.revision), u.binding);
    DecimalInjective(t.revision, u.revision);
  }

  /** A separator inside a generation would let any two revisions share a key:
      each generation and binding has a partner that is another desire. */
  lemma SeparatorNeeded(g: GenId, a: nat, b: nat, binding: Binding)
    ensures var t := Target(WantGeneration, Some(g), a, Decimal(b) + [NUL] + binding);
            var u := Target(WantGeneration, Some(g + [NUL] + Decimal(a)), b, binding);
            t != u && TargetKey(t) == TargetKey(u)
  {
    var tail := Decimal(b) + [NUL] + binding;
    assert g + [NUL] + (Decimal(a) + [NUL] + tail) == (g + [NUL] + Decimal(a)) + [NUL] + tail;
    assert |g + [NUL] + Decimal(a)| > |g|;
  }

  // ----- the invariant -----

  ghost predicate DesireOK(s: State) {
    && (s.row.mode.WantGeneration? <==> s.row.desired.Some?)
    && (s.row.desired.Some? ==> s.row.desired.value in s.used)
    && (s.row.active.Some? ==> s.row.active.value in s.used)
    && (forall g | g in s.used :: NUL !in g && g != "")
    && s.dirs.Keys <= s.used
  }

  /** `current` means the remote is what is desired now. */
  ghost predicate CurrentOK(r: LaneRow) {
    && (r.remote.RemoteGeneration? ==> r.publishedBinding == r.remoteBinding)
    && (r.derived.DerivedCurrent? ==>
          && r.remoteBinding.Some?
          && (if r.mode.WantAbsent? then r.remote.RemoteAbsent? else r.remote.RemoteGeneration? && r.published == r.desired))
  }

  ghost predicate GateOf(r: LaneRow, t: Target) {
    r.retryKey == Some(TargetKey(t)) && t.revision <= r.revision && NulFree(t)
  }

  /** The gate belongs to a desire of this or an earlier revision. */
  ghost predicate GateOK(r: LaneRow) { r.retryKey.Some? ==> exists t :: GateOf(r, t) }

  /** An attempt in progress pins a generation that is there. */
  ghost predicate WorkerOK(s: State) {
    s.worker.Some? ==>
      var t := s.worker.value;
      && t.revision <= s.row.revision && s.row.retryKey == Some(TargetKey(t))
      && (t.mode.WantGeneration? <==> t.generation.Some?)
      && s.row.active == t.generation
      && (t.generation.Some? ==> t.generation.value in s.dirs)
      && (t.revision == s.row.revision ==> t.mode == s.row.mode && t.generation == s.row.desired)
  }

  ghost predicate Inv(s: State) { DesireOK(s) && CurrentOK(s.row) && GateOK(s.row) && WorkerOK(s) }

  lemma ClaimKept(s: State, binding: Binding, now: Time)
    requires Inv(s) && s.worker.None? && Claimable(s.row, binding, now)
    ensures Inv(ClaimVerified(s, binding, now)) && Inv(s.(row := Claim(s.row, binding)))
  {
    var t := Desire(s.row, binding);
    assert GateOf(Claim(s.row, binding), t);
    assert GateOf(ClaimVerified(s, binding, now).row, t);
  }

  lemma FailureKept(s: State, retry: RetryClass, now: Time, jitter: int)
    requires Inv(s) && s.worker.Some?
    ensures Inv(s.(row := FinishFailure(s.row, s.worker.value, retry, now, jitter), worker := None))
  {
    var t :| GateOf(s.row, t);
    assert GateOf(FinishFailure(s.row, s.worker.value, retry, now, jitter), t);
  }

  lemma GateKept(s: State, r: LaneRow)
    requires Inv(s) && (r.retryKey.None? || r.retryKey == s.row.retryKey) && r.revision >= s.row.revision
    ensures GateOK(r)
  {
    if r.retryKey.Some? {
      var t :| GateOf(s.row, t);
      assert GateOf(r, t);
    }
  }

  lemma CompileKept(s: State, g: GenId, modified: int, left: Dirs, cut: CompileCut, nameLess: (GenId, GenId) -> bool)
    requires Inv(s) && Guard(s, DoCompile(g, modified, left, cut), nameLess)
    ensures Inv(Next(s, DoCompile(g, modified, left, cut), nameLess))
  {
    GateKept(s, FinishCompilerRun(s.row, g));
    var dirs := s.dirs[g := modified];
    assert s.row.active.Some? && s.row.active.value in dirs ==> s.row.active.value !in Others(dirs, g, s.row.active);
  }

  lemma CleanKept(s: State, kept: set<GenId>, complete: bool, nameLess: (GenId, GenId) -> bool)
    requires Inv(s) && Guard(s, DoClean(kept, complete), nameLess)
    ensures Inv(Next(s, DoClean(kept, complete), nameLess))
  {
    GateKept(s, MarkCompilerClean(s.row));
    GateKept(s, FinishCompilerClean(MarkCompilerClean(s.row)));
  }

  lemma SuccessKept(s: State)
    requires Inv(s) && s.worker.Some?
    ensures Inv(s.(row := FinishSuccess(s.row, s.worker.value), worker := None))
  {
  }

  lemma RecoverKept(s: State)
    requires Inv(s) && s.worker.None?
    ensures Inv(s.(row := Recover(s.row)))
  {
  }

  lemma FinalizeKept(s: State)
    requires Inv(s) && s.worker.None?
    ensures Inv(s.(row := FinishCompilerClean(s.row), dirs := map[], pointer := None))
  {
    GateKept(s, FinishCompilerClean(s.row));
  }

  lemma InvKept(s: State, step: Step, nameLess: (GenId, GenId) -> bool)
    requires Inv(s) && Guard(s, step, nameLess)
    ensures Inv(Next(s, step, nameLess))
  {
    match step
    case DoCompile(g, modified, left, cut) => CompileKept(s, g, modified, left, cut, nameLess);
    case DoClean(kept, complete) => CleanKept(s, kept, complete, nameLess);
    case DoClaim(binding, now) => ClaimKept(s, binding, now);
    case DoClaimInterrupted(binding, now) => ClaimKept(s, binding, now);
    case DoFailure(retry, now, jitter) => FailureKept(s, retry, now, jitter);
    case DoSuccess => SuccessKept(s);
    case DoFinalize => FinalizeKept(s);
    case DoRecover => RecoverKept(s);
    case DoCrash =>
  }
}
