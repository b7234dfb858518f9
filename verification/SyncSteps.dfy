/** The reconciliation control plane of one profile as a value, and the effect
    of each transaction on it. */
module SyncSteps {
  import opened Rows
  import opened RetryPolicy

  datatype State = State(
    profile: ProfileRow,
    runtime: RuntimeRow,
    sync: SyncRow,
    policy: Option<PolicyRow>,
    pending: map<Path, PendingRow>,
    runs: map<RunId, RunRow>)

  const DEBOUNCE := 10 * SECOND
  const DEADLINE := 60 * SECOND

  /** The rows written when a profile is created: generation one is the initial
      epoch and is already owed. */
  function Created(profile: ProfileRow, hash: Hash): State {
    State(profile,
          RuntimeRow(1, false),
          SyncRow(1, None, false, None, Initializing, None, 0, 0, None, None, None, None),
          Some(PolicyRow(Gitignore, hash, 1, RefreshPending, None)),
          map[], map[])
  }

  // ----- intent -----

  /** The label written whenever intent advances: an error is never masked. */
  function IntentLabel(s: SyncRow): Label {
    if s.state.Error? then Error else if s.last.None? then Initializing else Syncing
  }

  /** The label recomputed from debt alone, which also drops an error. */
  function DebtLabel(s: SyncRow): Label {
    if s.desired > s.LastOrZero() then (if s.last.None? then Initializing else Syncing) else Ready
  }

  function Raise(s: SyncRow, generation: int): SyncRow {
    s.(desired := Max(s.desired, generation), state := IntentLabel(s))
  }

  function OpenDebounce(s: SyncRow, now: Time): SyncRow {
    s.(notBefore := if s.notBefore.None? || s.notBefore.value < now + DEBOUNCE then Some(now + DEBOUNCE) else s.notBefore,
       deadline := if s.deadline.None? then Some(now + DEADLINE) else s.deadline)
  }

  function AtLeastOne(generation: int): int { if generation < 1 then 1 else generation }

  /** A generation strictly above every current opportunity. */
  function NextOpportunity(s: State): int {
    Max(Max(s.sync.desired + 1, s.runtime.source), s.sync.LastOrZero() + 1)
  }

  function BumpSource(s: State): State { s.(runtime := s.runtime.(source := s.runtime.source + 1)) }

  function EnsureGeneration(s: State, generation: int): State {
    s.(sync := Raise(s.sync, AtLeastOne(generation)))
  }

  function StartWindow(s: State, now: Time): State { s.(sync := OpenDebounce(s.sync, now)) }

  /** Collapses all pending detail into one full-reconcile intent. */
  function PromoteAt(s: State, generation: int, now: Time): State {
    s.(sync := OpenDebounce(Raise(s.sync, AtLeastOne(generation)), now),
       runtime := s.runtime.(requested := true),
       pending := map[])
  }

  function RequestReconcile(s: State): State {
    var sync' := s.sync.(desired := Max(Max(s.sync.desired, s.runtime.source), s.sync.LastOrZero() + 1));
    s.(sync := sync'.(state := if sync'.state.Error? then Error
                              else if sync'.desired > sync'.LastOrZero() then IntentLabel(sync')
                              else sync'.state),
       runtime := s.runtime.(requested := true))
  }

  function SubmitManual(s: State, allowDeletes: int, bypass: bool): State {
    var g := NextOpportunity(s);
    s.(sync := s.sync.(desired := g, retry := None, nextRetry := None, limited := 0,
                       notBefore := None, deadline := None,
                       manual := Some(Manual(g, allowDeletes, bypass)),
                       state := IntentLabel(s.sync)),
       runtime := s.runtime.(requested := true))
  }

  function SubmitScheduled(s: State): State {
    s.(sync := s.sync.(desired := NextOpportunity(s), state := IntentLabel(s.sync)))
  }

  function ReopenGate(s: State): State {
    s.(sync := s.sync.(retry := None, nextRetry := None, limited := 0,
                       notBefore := None, deadline := None, state := DebtLabel(s.sync)))
  }

  // ----- events -----

  function ObservedHash(s: State, policyHash: Hash): Option<Hash> {
    if s.policy.None? then None
    else if policyHash == "" then Some(s.policy.value.hash)
    else Some(policyHash)
  }

  predicate NeedsFull(s: State, kind: EventKind, full: bool) {
    full || !kind.SafeFast() || (s.sync.last.None? && s.sync.desired == 0 && s.sync.current.None?)
  }

  function MergePending(pending: map<Path, PendingRow>, path: Path, row: PendingRow): map<Path, PendingRow> {
    pending[path := if path in pending
                    then row.(gen := Max(pending[path].gen, row.gen), firstSeen := pending[path].firstSeen)
                    else row]
  }

  function RecordEvent(s: State, path: Path, kind: EventKind, full: bool, policyHash: Hash, now: Time): State {
    var bumped := BumpSource(s);
    var g := bumped.runtime.source;
    if NeedsFull(s, kind, full) then
      bumped.(sync := OpenDebounce(Raise(s.sync, g), now),
              runtime := bumped.runtime.(requested := true),
              pending := map[])
    else bumped.(pending := MergePending(s.pending, path, PendingRow(kind, g, now, now, ObservedHash(s, policyHash))))
  }

  /** Removes exactly the captured versions; a newer row for the same path stays. */
  function Cleared(pending: map<Path, PendingRow>, batch: map<Path, int>): map<Path, PendingRow> {
    map p | p in pending && !(p in batch && pending[p].gen <= batch[p]) :: pending[p]
  }

  function ClearEvents(s: State, batch: map<Path, int>): State { s.(pending := Cleared(s.pending, batch)) }

  function DiscardPending(s: State): State { s.(pending := map[]) }

  // ----- policy -----

  datatype CommitOutcome = CommitUnchanged | CommitRefused | CommitTombstoned | CommitChanged(generation: int)

  function CommitOutcomeOf(s: State, hash: Hash, acceptLegacyDrop: bool): CommitOutcome {
    if s.profile.tombstoned then CommitTombstoned
    else if s.policy.Some? && s.policy.value.hash == hash then CommitUnchanged
    else if s.policy.Some? && s.policy.value.source.LegacyMigrated? && !acceptLegacyDrop then CommitRefused
    else CommitChanged(1 + Max(Max(if s.policy.Some? then s.policy.value.generation else 0, s.runtime.source),
                               Max(s.sync.desired, s.sync.LastOrZero())))
  }

  function CommitPolicy(s: State, hash: Hash, acceptLegacyDrop: bool): State {
    match CommitOutcomeOf(s, hash, acceptLegacyDrop)
    case CommitChanged(g) =>
      s.(runtime := s.runtime.(source := g),
         policy := Some(PolicyRow(Gitignore, hash, g, RefreshPending, None)),
         sync := Raise(s.sync, g).(manual := if s.sync.manual.None? then None
                                             else Some(s.sync.manual.value.(generation := g))))
    case _ => s
  }

  // ----- attempts -----

  datatype ClaimResult = ClaimOK | ClaimActiveRun | ClaimNoDebt | ClaimGateBlocked
                       | ClaimProfileInactive | ClaimDeferred | ClaimIdTaken

  predicate GateClosed(s: SyncRow, now: Time) {
    s.state.Error? && s.retry.Some? &&
    (s.retry.value.Terminal? || (s.nextRetry.Some? && now < s.nextRetry.value))
  }

  /** The manual metadata a claim would consume: only an exact generation match. */
  predicate Consumes(s: SyncRow) { s.manual.Some? && s.manual.value.generation == s.desired }

  function ClaimOutcome(s: State, run: RunId, now: Time): ClaimResult {
    if s.profile.tombstoned then ClaimProfileInactive
    else if s.sync.current.Some? then ClaimActiveRun
    else if s.profile.deletionRequested || !s.profile.enabled then ClaimProfileInactive
    else if !s.sync.HasDebt() then ClaimNoDebt
    else if GateClosed(s.sync, now) then ClaimGateBlocked
    else if !(Consumes(s.sync) && s.sync.manual.value.bypassDebounce) &&
            s.sync.notBefore.Some? && now < s.sync.notBefore.value then ClaimDeferred
    else if run in s.runs then ClaimIdTaken
    else ClaimOK
  }

  function ClaimedRun(s: State): RunRow {
    var allow := if Consumes(s.sync) then s.sync.manual.value.allowDeletes else 0;
    RunRow(if s.sync.last.None? then InitialRun else FullRun,
           s.sync.desired, Running,
           if allow == 0 then s.profile.maxDelete else allow,
           if allow > 0 then Some(allow) else None)
  }

  function ClaimRun(s: State, run: RunId, now: Time): State {
    if ClaimOutcome(s, run, now) != ClaimOK then s
    else
      s.(runs := s.runs[run := ClaimedRun(s)],
         sync := s.sync.(current := Some(run),
                         state := if s.sync.last.None? then Initializing else Syncing,
                         notBefore := None, deadline := None,
                         manual := if Consumes(s.sync) then None else s.sync.manual))
  }

  /** What the worker guarantees when it finishes an attempt: the attempt is the
      current one. */
  predicate OwnsCurrent(s: State) { s.sync.current.Some? && s.sync.current.value in s.runs }

  function FinishRun(runs: map<RunId, RunRow>, run: RunId, status: RunStatus): map<RunId, RunRow>
  {
    if run in runs && runs[run].status.Running? then runs[run := runs[run].(status := status)] else runs
  }

  function CommitRunSuccess(s: State): State
    requires OwnsCurrent(s)
  {
    var run := s.sync.current.value;
    var target := s.runs[run].target;
    var reached := Max(s.sync.LastOrZero(), target);
    s.(runs := FinishRun(s.runs, run, Succeeded),
       sync := s.sync.(last := Some(reached), initialized := true, current := None,
                       retry := None, nextRetry := None, consecutive := 0, limited := 0,
                       state := if s.sync.desired <= reached then Ready else Syncing),
       pending := (map p | p in s.pending && s.pending[p].gen > target :: s.pending[p]),
       runtime := s.runtime.(requested := s.sync.desired > target))
  }

  datatype Failure = Failure(retry: RetryClass, interrupted: bool)

  /** The classification stored for a failure: the fourth limited one is terminal. */
  function StoredClass(s: SyncRow, f: Failure): RetryClass {
    if f.retry.RetryableLimited? && s.limited + 1 > 3 then Terminal else f.retry
  }

  function CommitRunFailure(s: State, f: Failure, now: Time, jitter: int): State
    requires OwnsCurrent(s)
  {
    var counted := f.retry.Retryable? && !f.interrupted;
    var limitedHit := f.retry.RetryableLimited? && s.sync.limited + 1 <= 3;
    s.(runs := FinishRun(s.runs, s.sync.current.value, Failed),
       sync := s.sync.(current := None, state := Error,
                       retry := Some(StoredClass(s.sync, f)),
                       consecutive := if counted then s.sync.consecutive + 1 else s.sync.consecutive,
                       limited := if limitedHit then s.sync.limited + 1 else s.sync.limited,
                       nextRetry :=
                         if f.retry.RetryableLimited? && !limitedHit then None
                         else if f.interrupted then Some(now)
                         else if counted then Some(now + RetryBackoff(s.sync.consecutive + 1, jitter))
                         else if limitedHit then Some(now + LimitedRetryBackoff(s.sync.limited + 1))
                         else None))
  }

  function OrphanCurrentRun(s: State): State {
    s.(runs := (map r | r in s.runs :: if s.runs[r].status.Running? then s.runs[r].(status := Failed) else s.runs[r]),
       sync := s.sync.(current := None, state := DebtLabel(s.sync)))
  }

  // ----- one step of any writer -----

  datatype Step =
    | DoBumpSource
    | DoEnsure(generation: int)
    | DoWindow(now: Time)
    | DoPromote(now: Time)
    | DoRequest
    | DoManual(allowDeletes: int, bypass: bool)
    | DoScheduled
    | DoReopen
    | DoEvent(path: Path, kind: EventKind, full: bool, policyHash: Hash, now: Time)
    | DoFastClear(batch: map<Path, int>, capturedAt: nat)
    | DoDiscard
    | DoPolicy(hash: Hash, acceptLegacyDrop: bool)
    | DoClaim(run: RunId, now: Time)
    | DoSuccess
    | DoFailure(failure: Failure, now: Time, jitter: int)
    | DoOrphan
    | DoConfigure(profile: ProfileRow)

  /** The guards each writer establishes before its transaction. */
  predicate Guard(s: State, step: Step) {
    match step
    case DoSuccess => OwnsCurrent(s)
    case DoFailure(_, _, jitter) => OwnsCurrent(s) && ValidJitter(s.sync.consecutive + 1, jitter)
    case DoFastClear(_, _) => s.sync.current.None?
    case DoDiscard => s.profile.deletionRequested && s.sync.current.None?
    case _ => true
  }

  function Next(s: State, step: Step): State
    requires Guard(s, step)
  {
    match step
    case DoBumpSource => BumpSource(s)
    case DoEnsure(g) => EnsureGeneration(s, g)
    case DoWindow(now) => StartWindow(s, now)
    case DoPromote(now) => PromoteAt(s, s.runtime.source, now)
    case DoRequest => RequestReconcile(s)
    case DoManual(allow, bypass) => SubmitManual(s, allow, bypass)
    case DoScheduled => SubmitScheduled(s)
    case DoReopen => ReopenGate(s)
    case DoEvent(path, kind, full, policyHash, now) => RecordEvent(s, path, kind, full, policyHash, now)
    case DoFastClear(batch, _) => ClearEvents(s, batch)
    case DoDiscard => DiscardPending(s)
    case DoPolicy(hash, accept) => CommitPolicy(s, hash, accept)
    case DoClaim(run, now) => ClaimRun(s, run, now)
    case DoSuccess => CommitRunSuccess(s)
    case DoFailure(f, now, jitter) => CommitRunFailure(s, f, now, jitter)
    case DoOrphan => OrphanCurrentRun(s)
    case DoConfigure(profile) => s.(profile := profile)
  }
}
