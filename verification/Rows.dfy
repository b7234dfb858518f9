/** The durable rows that several tables share: one profile's configuration,
    runtime counters, reconciliation intent, attempts, pending events and
    committed ignore policy. Timestamps are integers in nanoseconds. */
module Rows {

  datatype Option<+T> = None | Some(value: T) {
    function GetOr(default: T): T {
      match this
      case Some(v) => v
      case None => default
    }
  }

  type Path = string
  type Hash = string
  type RunId = string
  type Time = int

  function Max(a: int, b: int): int { if a >= b then a else b }

  datatype EventKind = Create | Modify | Delete | Rename | Other | Unknown {
    /** Create and modify may use the fast lane; everything else fails closed. */
    predicate SafeFast() { Create? || Modify? }

    /** The kinds counted by the destructive-pending query. */
    predicate Destructive() { Delete? || Rename? || Other? }
  }

  /** One queued change; `observed` is the policy hash in force when it was
      recorded, when that context was known. */
  datatype PendingRow = PendingRow(kind: EventKind, gen: int, firstSeen: Time, lastSeen: Time, observed: Option<Hash>)

  datatype RefreshState = RefreshPending | RefreshRunning | RefreshReady | RefreshError
  datatype PolicySource = Gitignore | LegacyMigrated

  datatype PolicyRow = PolicyRow(source: PolicySource, hash: Hash, generation: int,
                                 refresh: RefreshState, refreshed: Option<Hash>)

  datatype ProfileRow = ProfileRow(tombstoned: bool, enabled: bool, deletionRequested: bool, maxDelete: int)

  datatype RuntimeRow = RuntimeRow(source: int, requested: bool)

  datatype Label = Initializing | Syncing | Ready | Error
  datatype RetryClass = Retryable | RetryableLimited | Terminal

  /** One-attempt manual metadata bound to a submitted generation. */
  datatype Manual = Manual(generation: int, allowDeletes: int, bypassDebounce: bool)

  datatype SyncRow = SyncRow(
    desired: int,
    last: Option<int>,
    initialized: bool,
    current: Option<RunId>,
    state: Label,
    retry: Option<RetryClass>,
    consecutive: int,
    limited: int,
    nextRetry: Option<Time>,
    notBefore: Option<Time>,
    deadline: Option<Time>,
    manual: Option<Manual>)
  {
    /** The generation through which success is recorded, 0 when there is none. */
    function LastOrZero(): int { last.GetOr(0) }

    predicate HasDebt() { desired > 0 && (last.None? || desired > last.value) }
  }

  datatype RunStatus = Running | Succeeded | Failed
  datatype RunKind = InitialRun | FullRun

  datatype RunRow = RunRow(kind: RunKind, target: int, status: RunStatus,
                           effectiveMaxDelete: int, manualOverride: Option<int>)
}
