/** The level-triggered derived lane of one profile: a desired generation (or
    its absence), what the remote holds, the retry gate of the last attempt, and
    the local generation directories that attempts and compiles share. */
module DerivedLane {
  import opened Rows
  import opened RetryPolicy

  type GenId = string
  type Binding = string

  datatype Mode = WantGeneration | WantAbsent
  datatype RemoteState = RemoteUnknown | RemoteGeneration | RemoteAbsent
  datatype DerivedState = DerivedPending | DerivedSyncing | DerivedCurrent | DerivedFailed

  datatype LaneRow = LaneRow(
    mode: Mode, desired: Option<GenId>, revision: nat,
    published: Option<GenId>, publishedBinding: Option<Binding>,
    remote: RemoteState, remoteBinding: Option<Binding>,
    active: Option<GenId>, derived: DerivedState,
    retryKey: Option<string>, retryClass: Option<RetryClass>, consecutive: nat, limited: nat,
    nextRetry: Option<Time>, terminal: bool, cleaning: bool)

  /** The desire an attempt was claimed for. */
  datatype Target = Target(mode: Mode, generation: Option<GenId>, revision: nat, binding: Binding)

  // ----- the target key -----

  const NUL: char := '\0'

  function ModeText(m: Mode): string { if m.WantGeneration? then "generation" else "absent" }

  function Digit(d: nat): char
    requires d < 10
  {
    "0123456789"[d]
  }

  function Decimal(n: nat): string { if n < 10 then [Digit(n)] else Decimal(n / 10) + [Digit(n % 10)] }

  function TargetKey(t: Target): string {
    "derived-v1" + [NUL] + (ModeText(t.mode) + [NUL] + (t.generation.GetOr("") + [NUL] + (Decimal(t.revision) + [NUL] + t.binding)))
  }

  // ----- the desire -----

  function Created(): LaneRow {
    LaneRow(WantAbsent, None, 0, None, None, RemoteUnknown, None, None, DerivedPending, None, None, 0, 0, None, false, false)
  }

  function Desire(r: LaneRow, binding: Binding): Target { Target(r.mode, r.desired, r.revision, binding) }

  function FinishCompilerRun(r: LaneRow, generation: GenId): LaneRow {
    r.(mode := WantGeneration, desired := Some(generation), revision := r.revision + 1, derived := DerivedPending)
  }

  function MarkCompilerClean(r: LaneRow): LaneRow {
    r.(mode := WantAbsent, desired := None, revision := r.revision + 1, derived := DerivedPending, cleaning := true)
  }

  function FinishCompilerClean(r: LaneRow): LaneRow { r.(cleaning := false) }

  // ----- attempts -----

  /** The remote already is what is desired, under this binding. */
  predicate AlreadyCurrent(r: LaneRow, binding: Binding) {
    || (r.mode.WantAbsent? && r.remote.RemoteAbsent? && r.remoteBinding == Some(binding))
    || (&& r.mode.WantGeneration? && r.desired.Some? && r.published == r.desired && r.publishedBinding == Some(binding)
        && r.remote.RemoteGeneration? && r.remoteBinding == Some(binding))
  }

  predicate Gated(r: LaneRow, binding: Binding, now: Time) {
    && r.retryKey == Some(TargetKey(Desire(r, binding)))
    && (r.retryClass == Some(Terminal) || (r.nextRetry.Some? && now < r.nextRetry.value))
  }

  predicate Claimable(r: LaneRow, binding: Binding, now: Time) {
    r.revision > 0 && r.active.None? && !AlreadyCurrent(r, binding) && !Gated(r, binding, now)
  }

  /** A purge pins nothing. */
  function Claim(r: LaneRow, binding: Binding): LaneRow {
    r.(derived := DerivedSyncing, active := if r.mode.WantGeneration? then r.desired else None,
       retryKey := Some(TargetKey(Desire(r, binding))), retryClass := None, nextRetry := None, terminal := false)
  }

  /** The success of an attempt says `current` only if its desire still stands. */
  predicate StillDesired(r: LaneRow, t: Target) {
    if t.mode.WantAbsent? then r.mode.WantAbsent?
    else r.mode.WantGeneration? && t.generation.Some? && r.desired == t.generation
  }

  function FinishSuccess(r: LaneRow, t: Target): LaneRow {
    r.(published := t.generation, publishedBinding := Some(t.binding),
       remote := if t.mode.WantAbsent? then RemoteAbsent else RemoteGeneration, remoteBinding := Some(t.binding),
       derived := if StillDesired(r, t) then DerivedCurrent else DerivedPending,
       active := None, retryKey := None, retryClass := None, consecutive := 0, limited := 0,
       nextRetry := None, terminal := false)
  }

  /** The gate is written under the attempt's own key. */
  function FinishFailure(r: LaneRow, t: Target, retry: RetryClass, now: Time, jitter: int): LaneRow {
    var released := r.(active := None);
    if r.retryKey.Some? && r.retryKey.value != TargetKey(t) then released
    else
      var limited := if retry.RetryableLimited? then r.limited + 1 else r.limited;
      released.(derived := DerivedFailed, retryClass := Some(retry), consecutive := r.consecutive + 1, limited := limited,
                nextRetry := match retry
                             case Terminal => None
                             case RetryableLimited => Some(now + LimitedRetryBackoff(limited))
                             case Retryable => Some(now + RetryBackoff(r.consecutive + 1, jitter)),
                terminal := retry.Terminal?, retryKey := Some(TargetKey(t)))
  }

  function Recover(r: LaneRow): LaneRow {
    if r.active.None? then r
    else r.(active := None, derived := if r.derived.DerivedSyncing? then DerivedPending else r.derived,
            retryKey := None, retryClass := None, nextRetry := None)
  }

  // ----- local generations -----

  /** Modification times of the generation directories. */
  type Dirs = map<GenId, int>

  /** Which of two directories garbage collection prefers to keep. */
  predicate Newer(dirs: Dirs, a: GenId, b: GenId, nameLess: (GenId, GenId) -> bool)
    requires a in dirs && b in dirs
  {
    dirs[a] > dirs[b] || (dirs[a] == dirs[b] && nameLess(b, a))
  }

  function Others(dirs: Dirs, current: GenId, protected: Option<GenId>): set<GenId> {
    set g | g in dirs && g != current && Some(g) != protected
  }

  predicate Newest(dirs: Dirs, others: set<GenId>, g: GenId, nameLess: (GenId, GenId) -> bool)
    requires others <= dirs.Keys
  {
    g in others && forall x | x in others :: x == g || Newer(dirs, g, x, nameLess)
  }

  /** What a collection may leave: the current and the protected directory, the
      newest of the others, and any it failed to remove. */
  ghost predicate CollectedTo(dirs: Dirs, after: Dirs, current: GenId, protected: Option<GenId>,
                              nameLess: (GenId, GenId) -> bool)
  {
    && after.Keys <= dirs.Keys && (forall g | g in after :: after[g] == dirs[g])
    && (forall g | g in dirs && g !in Others(dirs, current, protected) :: g in after)
    && (forall g | Newest(dirs, Others(dirs, current, protected), g, nameLess) :: g in after)
  }

  datatype State = State(row: LaneRow, dirs: Dirs, pointer: Option<GenId>, worker: Option<Target>, used: set<GenId>)

  /** How far a compile or a clean got under the compiler lock. */
  datatype CompileCut = DirectoryOnly | PointerMoved | Recorded

  datatype Step =
    | DoCompile(generation: GenId, modified: int, left: Dirs, cut: CompileCut)
    | DoClean(kept: set<GenId>, complete: bool)
    | DoClaim(binding: Binding, now: Time)
    | DoClaimInterrupted(binding: Binding, now: Time)
    | DoSuccess
    | DoFailure(retry: RetryClass, now: Time, jitter: int)
    | DoFinalize
    | DoCrash
    | DoRecover

  /** Only the pinned directory is spared by a clean. */
  function Pinned(r: LaneRow): set<GenId> { if r.active.Some? then {r.active.value} else {} }

  ghost predicate Guard(s: State, step: Step, nameLess: (GenId, GenId) -> bool) {
    match step
    case DoCompile(g, modified, left, cut) =>
      g !in s.used && g != "" && NUL !in g && CollectedTo(s.dirs[g := modified], left, g, s.row.active, nameLess)
    case DoClean(kept, complete) =>
      s.dirs.Keys * Pinned(s.row) <= kept <= s.dirs.Keys && (complete ==> kept <= Pinned(s.row))
    case DoClaim(binding, now) => s.worker.None? && Claimable(s.row, binding, now)
    case DoClaimInterrupted(binding, now) => s.worker.None? && Claimable(s.row, binding, now)
    case DoSuccess => s.worker.Some?
    case DoFailure(_, _, jitter) => s.worker.Some? && ValidJitter(s.row.consecutive + 1, jitter)
    case DoFinalize => s.worker.None? && s.row.cleaning && s.row.active.None?
    case DoRecover => s.worker.None?
    case DoCrash => true
  }

  /** A publish is verified under the same lock that claimed it; a generation
      that is not there fails the attempt for good. */
  function ClaimVerified(s: State, binding: Binding, now: Time): State {
    var t := Desire(s.row, binding);
    if t.mode.WantGeneration? && t.generation.Some? && t.generation.value !in s.dirs
    then s.(row := FinishFailure(Claim(s.row, binding), t, Terminal, now, 0))
    else s.(row := Claim(s.row, binding), worker := Some(t))
  }

  function Restrict(dirs: Dirs, kept: set<GenId>): Dirs { map g | g in dirs && g in kept :: dirs[g] }

  ghost function Next(s: State, step: Step, nameLess: (GenId, GenId) -> bool): State
    requires Guard(s, step, nameLess)
  {
    match step
    case DoCompile(g, modified, left, cut) =>
      var written := s.(used := s.used + {g});
      (match cut
       case DirectoryOnly => written.(dirs := s.dirs[g := modified])
       case PointerMoved => written.(dirs := left, pointer := Some(g))
       case Recorded => written.(dirs := left, pointer := Some(g), row := FinishCompilerRun(s.row, g)))
    case DoClean(kept, complete) =>
      s.(row := if complete && s.row.active.None? then FinishCompilerClean(MarkCompilerClean(s.row)) else MarkCompilerClean(s.row),
         dirs := Restrict(s.dirs, kept), pointer := None)
    case DoClaim(binding, now) => ClaimVerified(s, binding, now)
    case DoClaimInterrupted(binding, now) => s.(row := Claim(s.row, binding))
    case DoSuccess => s.(row := FinishSuccess(s.row, s.worker.value), worker := None)
    case DoFailure(retry, now, jitter) =>
      s.(row := FinishFailure(s.row, s.worker.value, retry, now, jitter), worker := None)
    case DoFinalize => s.(row := FinishCompilerClean(s.row), dirs := map[], pointer := None)
    case DoCrash => s.(worker := None)
    case DoRecover => s.(row := Recover(s.row))
  }
}
