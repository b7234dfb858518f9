/** The policy, ledger, prune requests and remote files of one profile as a
    value, and each transaction or remote effect on it as a step. */
module PruneSteps {
  import opened Rows
  import opened Ledger

  type RequestId = string

  /** What a policy ignores, by its content hash. */
  type Excludes = Hash -> iset<Path>

  datatype RequestState = Previewed | ApprovalRequired | Pending | Running | Retrying | Completed | Stale | Superseded {
    predicate Unexecuted() { Previewed? || ApprovalRequired? || Pending? || Stale? || Superseded? }

    predicate Executing() { Running? || Retrying? }

    predicate Authorized() { Pending? || Running? || Retrying? || Completed? }
  }

  datatype TargetState = Open | Deleted | Missing

  /** A durable request. `frozen` is the set its candidate digest commits to;
      the target rows go away when the request completes. `epoch` is history:
      how many policy commits had happened when it was previewed. */
  datatype Request = Request(hash: Hash, state: RequestState, frozen: set<Path>, targets: map<Path, TargetState>,
                             candidates: int, defaultMax: int, limit: Option<int>, deleted: int, missing: int,
                             epoch: nat)

  type Requests = map<RequestId, Request>

  datatype World = World(hash: Hash, refresh: RefreshState, refreshed: Option<Hash>, epoch: nat, maxDelete: int,
                         ledger: Ledger, requests: Requests, remote: set<Path>)
  {
    /** A refresh of the committed policy has been established. */
    predicate Ready() { refresh.RefreshReady? && refreshed == Some(hash) }
  }

  // ----- policy -----

  function StaleOnCommit(rs: Requests, hash: Hash): Requests {
    map id | id in rs :: if rs[id].hash != hash && (rs[id].state.Previewed? || rs[id].state.ApprovalRequired? || rs[id].state.Pending?)
                         then rs[id].(state := Stale) else rs[id]
  }

  function CommitPolicy(w: World, hash: Hash): World {
    if hash == w.hash then w
    else w.(hash := hash, refresh := RefreshPending, refreshed := None, epoch := w.epoch + 1,
            requests := StaleOnCommit(w.requests, hash))
  }

  // ----- a full reconciliation -----

  /** How far an attempt got before it failed or its worker died; a failed upload
      or delete pass may have done part of its work. */
  datatype Cut = Planned | Uploading(moved: set<Path>) | Deleting(gone: set<Path>) | RemoteDone | LedgerRefreshed | MarkedReady | Finished

  /** `scanned` decides the deletes, `uploads` is what the upload moved and
      `rescanned` is the later scan the ledger is rebuilt from. */
  datatype Attempt = Attempt(scanned: seq<Entry>, uploads: set<Path>, rescanned: seq<Entry>,
                             pending: map<Path, PendingRow>, allowDeletes: int, generation: int, cut: Cut)

  function EffectiveDeleteLimit(maxDelete: int, allowDeletes: int): int {
    if allowDeletes > 0 then allowDeletes else maxDelete
  }

  ghost function ProvenDeletes(w: World, ex: Excludes, a: Attempt): set<Path> {
    Classified(w.ledger, a.pending, w.hash, PathsOf(a.scanned), ex(w.hash))
  }

  ghost function RemoteAfter(w: World, ex: Excludes, a: Attempt): set<Path> {
    match a.cut
    case Planned => w.remote
    case Uploading(moved) => w.remote + moved * a.uploads
    case Deleting(gone) => (w.remote + a.uploads) - (gone * ProvenDeletes(w, ex, a))
    case _ => (w.remote + a.uploads) - ProvenDeletes(w, ex, a)
  }

  ghost function LedgerAfter(w: World, ex: Excludes, a: Attempt): Ledger {
    var refreshed := if w.refreshed == Some(w.hash) then w.ledger
                     else Refreshed(w.ledger, PathsOf(a.scanned), ProvenDeletes(w, ex, a), w.hash, a.generation);
    match a.cut
    case LedgerRefreshed => refreshed
    case MarkedReady => refreshed
    case Finished => Applied(refreshed, a.rescanned)
    case _ => w.ledger
  }

  ghost function Reconcile(w: World, ex: Excludes, a: Attempt): World {
    var debt := w.refreshed != Some(w.hash);
    var started := if debt then w.(refresh := RefreshRunning) else w;
    if |ProvenDeletes(w, ex, a)| > EffectiveDeleteLimit(w.maxDelete, a.allowDeletes) then started
    else
      var done := started.(remote := RemoteAfter(w, ex, a), ledger := LedgerAfter(w, ex, a));
      if debt && (a.cut.MarkedReady? || a.cut.Finished?)
      then done.(refresh := RefreshReady, refreshed := Some(w.hash)) else done
  }

  // ----- previews and authorization -----

  function Supersede(rs: Requests): Requests {
    map id | id in rs :: if rs[id].state.Previewed? || rs[id].state.ApprovalRequired? then rs[id].(state := Superseded) else rs[id]
  }

  function Frozen(w: World, paths: set<Path>): Request {
    Request(w.hash, Previewed, paths, map p | p in paths :: Open, |paths|, w.maxDelete, None, 0, 0, w.epoch)
  }

  /** Rows suppressed by exactly the committed policy. */
  function SuppressedNow(w: World): set<Path> {
    set p | p in w.ledger && w.ledger[p].state.Suppressed? && w.ledger[p].suppressedHash == Some(w.hash)
  }

  function Preview(w: World, id: RequestId): World {
    w.(requests := Supersede(w.requests)[id := Frozen(w, SuppressedNow(w))])
  }

  function Discover(w: World, id: RequestId, candidates: set<Path>): World {
    w.(requests := Supersede(w.requests)[id := Frozen(w, candidates - w.ledger.Keys)])
  }

  function Allowance(r: Request, allowDeletes: int): int { if allowDeletes <= 0 then r.defaultMax else allowDeletes }

  /** The authorization as written: it looks at the count, never at the state. */
  function Authorize(w: World, id: RequestId, allowDeletes: int): World
    requires id in w.requests
  {
    var r := w.requests[id];
    if r.candidates > Allowance(r, allowDeletes) then w
    else w.(requests := w.requests[id := r.(limit := Some(Allowance(r, allowDeletes)), state := Pending)])
  }

  // ----- execution -----

  function ReopenMissing(targets: map<Path, TargetState>): map<Path, TargetState> {
    map p | p in targets :: if targets[p].Missing? then Open else targets[p]
  }

  function Claim(w: World, id: RequestId): World
    requires id in w.requests
  {
    var r := w.requests[id];
    w.(requests := w.requests[id := if r.hash == w.hash && w.Ready()
                                    then r.(state := RequestState.Running, targets := ReopenMissing(r.targets))
                                    else r.(state := Stale)])
  }

  function SetState(w: World, id: RequestId, state: RequestState): World
    requires id in w.requests
  {
    w.(requests := w.requests[id := w.requests[id].(state := state)])
  }

  function With(targets: map<Path, TargetState>, state: TargetState): set<Path> { set p | p in targets && targets[p] == state }

  function OpenTargets(r: Request): set<Path> { With(r.targets, Open) }

  function DeletedTargets(r: Request): set<Path> { With(r.targets, Deleted) }

  function MissingTargets(r: Request): set<Path> { With(r.targets, Missing) }

  function Marked(targets: map<Path, TargetState>, changed: set<Path>, result: TargetState): map<Path, TargetState> {
    map p | p in targets :: if p in changed then result else targets[p]
  }

  /** Marks the given targets that are still open, and counts exactly those. */
  function MarkRequest(r: Request, paths: set<Path>, result: TargetState): Request {
    var changed := paths * OpenTargets(r);
    r.(targets := Marked(r.targets, changed, result),
       deleted := if result.Deleted? then r.deleted + |changed| else r.deleted,
       missing := if result.Missing? then r.missing + |changed| else r.missing)
  }

  /** One result transaction; a missing target also lets go of its suppressed row. */
  function MarkBatch(w: World, id: RequestId, paths: set<Path>, result: TargetState): World
    requires id in w.requests
  {
    w.(requests := w.requests[id := MarkRequest(w.requests[id], paths, result)],
       ledger := if result.Missing? then Release(w.ledger, paths * OpenTargets(w.requests[id])) else w.ledger)
  }

  /** Drops suppressed rows only, so an unexpected active row is never removed. */
  function Release(m: Ledger, paths: set<Path>): Ledger {
    map p | p in m && !(p in paths && m[p].state.Suppressed?) :: m[p]
  }

  function Complete(w: World, id: RequestId): World
    requires id in w.requests
  {
    var r := w.requests[id];
    w.(requests := w.requests[id := r.(state := Completed, targets := map[])],
       ledger := Release(w.ledger, DeletedTargets(r)))
  }

  // ----- one step of any writer -----

  datatype Step =
    | DoCommit(hash: Hash)
    | DoReconcile(attempt: Attempt)
    | DoFastUpload(paths: set<Path>)
    | DoFastUpsert(entry: Entry)
    | DoConfigure(maxDelete: int)
    | DoPreview(id: RequestId)
    | DoDiscover(id: RequestId, candidates: set<Path>)
    | DoAuthorize(id: RequestId, allowDeletes: int)
    | DoClaim(id: RequestId)
    | DoReclaim(id: RequestId)
    | DoMarkMissing(id: RequestId, paths: set<Path>)
    | DoDeleteBatch(id: RequestId, batch: set<Path>, gone: set<Path>)
    | DoMarkDeleted(id: RequestId, paths: set<Path>)
    | DoRetry(id: RequestId)
    | DoComplete(id: RequestId)

  ghost predicate Allowed(ex: Excludes, w: World, paths: set<Path>) {
    forall p :: p in paths ==> p !in ex(w.hash)
  }

  /** The worker owns a claimed request whose policy is still in force. */
  predicate Owned(w: World, id: RequestId) {
    && id in w.requests && w.requests[id].state.Running?
    && w.requests[id].hash == w.hash && w.refresh.RefreshReady?
  }

  predicate NoneExecuting(w: World) { forall id :: id in w.requests ==> !w.requests[id].state.Executing() }

  /** What each writer establishes before its step. Scans, uploads and ledger
      rows only name paths the policy allows; discovered orphans only ignored
      ones; targets are marked only when they are absent from the remote. */
  ghost predicate Guard(w: World, ex: Excludes, step: Step) {
    match step
    case DoReconcile(a) =>
      && Allowed(ex, w, PathsOf(a.scanned)) && Allowed(ex, w, a.uploads) && Allowed(ex, w, PathsOf(a.rescanned))
      && (forall p :: p in a.pending ==> !a.pending[p].kind.Destructive())
    case DoFastUpload(paths) => Allowed(ex, w, paths)
    case DoFastUpsert(e) => Allowed(ex, w, {e.path})
    case DoPreview(id) => id !in w.requests && w.Ready()
    case DoDiscover(id, candidates) => id !in w.requests && w.Ready() && (forall p :: p in candidates ==> p in ex(w.hash))
    case DoAuthorize(id, _) => id in w.requests && (w.requests[id].state.Previewed? || w.requests[id].state.ApprovalRequired?)
    case DoClaim(id) => id in w.requests && w.requests[id].state.Pending? && NoneExecuting(w)
    case DoReclaim(id) => id in w.requests && w.requests[id].state.Executing()
    case DoMarkMissing(id, paths) => Owned(w, id) && paths !! w.remote
    case DoDeleteBatch(id, batch, gone) => Owned(w, id) && batch <= OpenTargets(w.requests[id]) && gone <= batch
    case DoMarkDeleted(id, paths) => Owned(w, id) && paths !! w.remote
    case DoRetry(id) => id in w.requests && w.requests[id].state.Running?
    case DoComplete(id) => Owned(w, id) && OpenTargets(w.requests[id]) == {}
    case _ => true
  }

  ghost function Next(w: World, ex: Excludes, step: Step): World
    requires Guard(w, ex, step)
  {
    match step
    case DoCommit(hash) => CommitPolicy(w, hash)
    case DoReconcile(a) => Reconcile(w, ex, a)
    case DoFastUpload(paths) => w.(remote := w.remote + paths)
    case DoFastUpsert(e) => w.(ledger := Upsert(w.ledger, e))
    case DoConfigure(maxDelete) => w.(maxDelete := maxDelete)
    case DoPreview(id) => Preview(w, id)
    case DoDiscover(id, candidates) => Discover(w, id, candidates)
    case DoAuthorize(id, allow) => Authorize(w, id, allow)
    case DoClaim(id) => Claim(w, id)
    case DoReclaim(id) => SetState(w, id, RequestState.Running)
    case DoMarkMissing(id, paths) => MarkBatch(w, id, paths, Missing)
    case DoDeleteBatch(id, _, gone) => w.(remote := w.remote - gone)
    case DoMarkDeleted(id, paths) => MarkBatch(w, id, paths, Deleted)
    case DoRetry(id) => SetState(w, id, Retrying)
    case DoComplete(id) => Complete(w, id)
  }
}
