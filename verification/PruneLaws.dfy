/** What the prune protocol and the attempts around it promise, in terms of the
    rows and the remote alone: what must arrive and what may go, what a preview
    freezes, and what had to be authorized. */
module PruneLaws {
  import opened Rows
  import opened Ledger
  import opened LedgerRefresh
  import opened PruneSteps
  import opened PruneRuns
  import opened PruneHistory
  import opened PruneSafety
  import opened Lists

  // ----- what an attempt does -----

  /** The active rows that the scan misses and that the policy allows, or that
      went away by a destructive event recorded under another policy. */
  ghost function Missed(m: Ledger, scanned: seq<Entry>, pending: map<Path, PendingRow>, hash: Hash, ignored: iset<Path>): set<Path> {
    set p | p in m && m[p].state.Active? && (forall e | e in scanned :: e.path != p) &&
            (p !in ignored ||
             (&& p in pending && (pending[p].kind.Delete? || pending[p].kind.Rename? || pending[p].kind.Other?)
              && pending[p].observed.Some? && pending[p].observed.value != hash))
  }

  predicate Within(count: nat, allowDeletes: int, maxDelete: int) { count <= if allowDeletes > 0 then allowDeletes else maxDelete }

  predicate Scanned(entries: seq<Entry>, p: Path) { exists e :: e in entries && e.path == p }

  lemma MissedAreProven(w: World, ex: Excludes, a: Attempt)
    ensures Missed(w.ledger, a.scanned, a.pending, w.hash, ex(w.hash)) == ProvenDeletes(w, ex, a)
    ensures forall p :: p in PathsOf(a.scanned) <==> Scanned(a.scanned, p)
  {
    forall p
      ensures p in PathsOf(a.scanned) <==> Scanned(a.scanned, p)
    {
      if Scanned(a.scanned, p) {
        var e :| e in a.scanned && e.path == p;
      }
    }
  }

  lemma ScannedPaths(entries: seq<Entry>)
    ensures forall p :: p in PathsOf(entries) <==> Scanned(entries, p)
  {
    forall p | Scanned(entries, p)
      ensures p in PathsOf(entries)
    {
      var e :| e in entries && e.path == p;
    }
  }

  /** An attempt that would delete more than its limit does nothing. Otherwise it
      loses nothing but missed rows and gains nothing but uploads, however it is
      cut, and the ledger changes only once the remote is done. */
  lemma AttemptIsBounded(w: World, ex: Excludes, a: Attempt)
    ensures var t, missed := Reconcile(w, ex, a), Missed(w.ledger, a.scanned, a.pending, w.hash, ex(w.hash));
            && (!Within(|missed|, a.allowDeletes, w.maxDelete) ==> t.remote == w.remote && t.ledger == w.ledger)
            && w.remote - missed <= t.remote <= w.remote + a.uploads
            && (a.cut.Planned? || a.cut.Uploading? || a.cut.Deleting? || a.cut.RemoteDone? ==> t.ledger == w.ledger)
            && (t.ledger != w.ledger ==> t.remote == (w.remote + a.uploads) - missed)
            && t == w.(remote := t.remote, ledger := t.ledger, refresh := t.refresh, refreshed := t.refreshed)
            && (w.refreshed == Some(w.hash) ==> t.refresh == w.refresh && t.refreshed == w.refreshed)
            && (w.refreshed != Some(w.hash) ==>
                  if Within(|missed|, a.allowDeletes, w.maxDelete) && (a.cut.MarkedReady? || a.cut.Finished?)
                  then t.refresh.RefreshReady? && t.refreshed == Some(w.hash)
                  else t.refresh.RefreshRunning? && t.refreshed == w.refreshed)
  {
    MissedAreProven(w, ex, a);
  }

  /** What holds of the rows after an attempt that was not cut. */
  ghost predicate RowsFollow(m: Ledger, after: Ledger, scanned: seq<Entry>, rescanned: seq<Entry>, missed: set<Path>, debt: bool) {
    && (forall p :: IsSuppressed(after, p) <==>
          if debt then !Scanned(scanned, p) && (IsSuppressed(m, p) || (IsActive(m, p) && p !in missed)) else IsSuppressed(m, p))
    && (forall p :: IsActive(after, p) <==> Scanned(rescanned, p) && !IsSuppressed(after, p))
    && (forall p :: p in m && m[p].state.Protected? && !Scanned(rescanned, p) ==> p in after && after[p] == m[p])
  }

  lemma RowsAfterAttempt(w: World, ex: Excludes, a: Attempt)
    requires a.cut.Finished?
    ensures RowsFollow(w.ledger, LedgerAfter(w, ex, a), a.scanned, a.rescanned,
                       Missed(w.ledger, a.scanned, a.pending, w.hash, ex(w.hash)), w.refreshed != Some(w.hash))
  {
    var active, proven := PathsOf(a.scanned), ProvenDeletes(w, ex, a);
    var refreshed := Refreshed(w.ledger, active, proven, w.hash, a.generation);
    MissedAreProven(w, ex, a);
    ScannedPaths(a.rescanned);
    forall p
      ensures var after := LedgerAfter(w, ex, a);
              && (IsSuppressed(after, p) <==>
                    if w.refreshed != Some(w.hash) then p !in active && (IsSuppressed(w.ledger, p) || (IsActive(w.ledger, p) && p !in proven))
                    else IsSuppressed(w.ledger, p))
              && (IsActive(after, p) <==> p in PathsOf(a.rescanned) && !IsSuppressed(after, p))
              && (p in w.ledger && w.ledger[p].state.Protected? && p !in PathsOf(a.rescanned) ==> p in after && after[p] == w.ledger[p])
    {
      RefreshedRows(w.ledger, active, proven, w.hash, a.generation, p);
      AppliedRows(w.ledger, a.rescanned, p);
      AppliedRows(refreshed, a.rescanned, p);
    }
  }

  /** An attempt within its limit that was not cut leaves on the remote exactly
      what was there and what it uploaded, without the missed rows; the policy is
      ready, and the rows follow the two scans. When the uploads cover what the
      remote lacked, every scanned path is on the remote. */
  lemma FinishedAttempt(w: World, ex: Excludes, a: Attempt)
    requires a.cut.Finished?
    requires Within(|Missed(w.ledger, a.scanned, a.pending, w.hash, ex(w.hash))|, a.allowDeletes, w.maxDelete)
    ensures var t, missed := Reconcile(w, ex, a), Missed(w.ledger, a.scanned, a.pending, w.hash, ex(w.hash));
            && t.remote == (w.remote + a.uploads) - missed
            && (forall p | p in a.uploads && !(IsActive(w.ledger, p) && !Scanned(a.scanned, p)) :: p in t.remote)
            && ((forall p | Scanned(a.scanned, p) :: p in w.remote || p in a.uploads) ==>
                  forall p | Scanned(a.scanned, p) :: p in t.remote)
            && t.refreshed == Some(w.hash) && t.hash == w.hash
            && (w.refreshed != Some(w.hash) || w.refresh.RefreshReady? ==> t.refresh.RefreshReady?)
            && RowsFollow(w.ledger, t.ledger, a.scanned, a.rescanned, missed, w.refreshed != Some(w.hash))
  {
    MissedAreProven(w, ex, a);
    RowsAfterAttempt(w, ex, a);
  }

  ghost predicate FinishedAt(h: History, ex: Excludes, k: nat)
    requires h.Valid(ex)
  {
    && k < |h.steps| && h.steps[k].DoReconcile? && h.steps[k].attempt.cut.Finished?
    && var w, a := h.worlds[k], h.steps[k].attempt;
       Within(|Missed(w.ledger, a.scanned, a.pending, w.hash, ex(w.hash))|, a.allowDeletes, w.maxDelete)
  }

  /** What leaves the remote between two points of a history that are joined by
      steps that remove nothing but prune targets and missed rows. */
  ghost predicate TakenAway(h: History, ex: Excludes, k: nat, p: Path)
    requires h.Valid(ex)
  {
    k < |h.steps| && (LostToReconcile(h.worlds[k], ex, h.steps[k], p) || LostToPrune(h.worlds[k], ex, h.steps[k], p))
  }

  /** Everything the attempt at step k scanned was on the remote or uploaded. */
  ghost predicate UploadsCover(h: History, ex: Excludes, k: nat)
    requires h.Valid(ex) && FinishedAt(h, ex, k)
  {
    forall p | Scanned(h.steps[k].attempt.scanned, p) :: p in h.worlds[k].remote || p in h.steps[k].attempt.uploads
  }

  lemma ScannedArrives(h: History, ex: Excludes, k: nat, p: Path)
    requires h.Valid(ex) && FinishedAt(h, ex, k) && UploadsCover(h, ex, k) && Scanned(h.steps[k].attempt.scanned, p)
    ensures p in h.worlds[k + 1].remote
  {
    assert h.StepOK(ex, k);
    FinishedAttempt(h.worlds[k], ex, h.steps[k].attempt);
  }

  /** Over every history: after an attempt whose uploads covered what the remote
      lacked of its scan, every scanned path is on the remote, and stays there
      until a later reconciliation or prune takes it away. */
  lemma {:induction false} ScannedStaysOnRemote(h: History, ex: Excludes, k: nat, j: nat, p: Path)
    requires h.Valid(ex) && FinishedAt(h, ex, k) && UploadsCover(h, ex, k) && Scanned(h.steps[k].attempt.scanned, p)
    requires k < j <= |h.steps| && forall c: nat | k < c < j :: !TakenAway(h, ex, c, p)
    ensures p in h.worlds[j].remote
    decreases j
  {
    if k + 1 == j {
      ScannedArrives(h, ex, k, p);
    } else {
      ScannedStaysOnRemote(h, ex, k, j - 1, p);
      NotTaken(h, ex, j - 1, p);
    }
  }

  lemma NotTaken(h: History, ex: Excludes, k: nat, p: Path)
    requires h.Valid(ex) && k < |h.steps| && !TakenAway(h, ex, k, p) && p in h.worlds[k].remote
    ensures p in h.worlds[k + 1].remote
  {
    if p !in h.worlds[k + 1].remote {
      RemoteLoss(h, ex, k, p);
    }
  }

  // ----- what leaves the ledger -----

  /** A row leaves the ledger only as an active row that an uncut attempt's later
      scan misses, or as the suppressed row of a prune target. */
  lemma RowLoss(h: History, ex: Excludes, k: nat, p: Path)
    requires h.Valid(ex) && k < |h.steps| && p in h.worlds[k].ledger && p !in h.worlds[k + 1].ledger
    ensures !h.worlds[k].ledger[p].state.Protected?
    ensures || (h.steps[k].DoReconcile? && h.steps[k].attempt.cut.Finished? && !Scanned(h.steps[k].attempt.rescanned, p))
            || (IsSuppressed(h.worlds[k].ledger, p) && ReleasedAt(h, ex, k, p))
  {
    var w, step := h.worlds[k], h.steps[k];
    assert h.StepOK(ex, k);
    if IsSuppressed(w.ledger, p) {
      SuppressionStep(h, ex, k, p);
    }
    match step
    case DoReconcile(a) =>
      ScannedPaths(a.rescanned);
      RefreshKeys(w, ex, a, p);
    case _ =>
  }

  lemma RefreshKeys(w: World, ex: Excludes, a: Attempt, p: Path)
    requires p in w.ledger && p !in LedgerAfter(w, ex, a)
    ensures a.cut.Finished? && p !in PathsOf(a.rescanned) && !w.ledger[p].state.Protected?
  {
    var active, proven := PathsOf(a.scanned), ProvenDeletes(w, ex, a);
    var refreshed := Refreshed(w.ledger, active, proven, w.hash, a.generation);
    RefreshedRows(w.ledger, active, proven, w.hash, a.generation, p);
    AppliedRows(w.ledger, a.rescanned, p);
    AppliedRows(refreshed, a.rescanned, p);
    ApplyEntriesRows(w.ledger, a.rescanned, p);
    ApplyEntriesRows(refreshed, a.rescanned, p);
  }

  // ----- what a preview freezes -----

  /** A fresh request over these paths, under the policy and budget in force. */
  ghost predicate FreshRequest(w: World, r: Request, paths: iset<Path>) {
    && (forall p :: p in r.frozen <==> p in paths) && r.targets.Keys == r.frozen
    && (forall p | p in r.targets :: r.targets[p].Open?)
    && r.state.Previewed? && r.hash == w.hash && r.candidates == |r.frozen| && r.defaultMax == w.maxDelete
    && r.limit.None? && r.deleted == r.missing == 0
  }

  /** Older previews give way to the new one; every other request stays as it was. */
  ghost predicate OthersGiveWay(rs: Requests, after: Requests, id: RequestId) {
    && after.Keys == rs.Keys + {id}
    && forall other | other in rs && other != id ::
         if rs[other].state.Previewed? || rs[other].state.ApprovalRequired?
         then after[other] == rs[other].(state := Superseded) else after[other] == rs[other]
  }

  lemma FrozenIsFresh(w: World, paths: set<Path>)
    ensures FreshRequest(w, Frozen(w, paths), iset p | p in paths)
  {
    assert Frozen(w, paths).targets.Keys == paths;
  }

  lemma SupersededGiveWay(rs: Requests, id: RequestId, r: Request)
    ensures OthersGiveWay(rs, Supersede(rs)[id := r], id)
  {
  }

  /** A ledger preview freezes exactly the rows suppressed under the committed
      policy, a discovery exactly the candidates the ledger does not know. */
  lemma PreviewFreezes(w: World, ex: Excludes, step: Step)
    requires Guard(w, ex, step) && (step.DoPreview? || step.DoDiscover?)
    ensures var t := Next(w, ex, step);
            var wanted := iset p | if step.DoPreview? then p in w.ledger && w.ledger[p].state.Suppressed? && w.ledger[p].suppressedHash == Some(w.hash)
                                   else p in step.candidates && p !in w.ledger;
            && t == w.(requests := t.requests) && OthersGiveWay(w.requests, t.requests, step.id)
            && FreshRequest(w, t.requests[step.id], wanted)
  {
    var paths := if step.DoPreview? then SuppressedNow(w) else step.candidates - w.ledger.Keys;
    FrozenIsFresh(w, paths);
    SupersededGiveWay(w.requests, step.id, Frozen(w, paths));
  }

  /** The rows the committed policy suppresses once its refresh has been applied. */
  lemma SuppressedByRefresh(w: World, ex: Excludes, a: Attempt, p: Path)
    requires a.cut.Finished? && w.refreshed != Some(w.hash)
    ensures var after := LedgerAfter(w, ex, a);
            p in after && after[p].state.Suppressed? && after[p].suppressedHash == Some(w.hash) <==>
              && p !in PathsOf(a.scanned)
              && ((IsActive(w.ledger, p) && p !in ProvenDeletes(w, ex, a))
                  || (IsSuppressed(w.ledger, p) && w.ledger[p].suppressedHash == Some(w.hash)))
  {
    var active, proven := PathsOf(a.scanned), ProvenDeletes(w, ex, a);
    var refreshed := Refreshed(w.ledger, active, proven, w.hash, a.generation);
    RefreshedRows(w.ledger, active, proven, w.hash, a.generation, p);
    AppliedRows(refreshed, a.rescanned, p);
  }

  /** Right after the refresh of a new policy, a preview freezes exactly what that
      refresh suppressed: the active rows it neither saw nor deleted, and the rows
      this very policy had suppressed before. */
  lemma PreviewAfterRefresh(w: World, ex: Excludes, a: Attempt, id: RequestId, p: Path)
    requires Guard(w, ex, DoReconcile(a)) && a.cut.Finished? && w.refreshed != Some(w.hash) && id !in w.requests
    requires Within(|Missed(w.ledger, a.scanned, a.pending, w.hash, ex(w.hash))|, a.allowDeletes, w.maxDelete)
    ensures var t, missed := Reconcile(w, ex, a), Missed(w.ledger, a.scanned, a.pending, w.hash, ex(w.hash));
            && Guard(t, ex, DoPreview(id)) && id in Preview(t, id).requests
            && (p in Preview(t, id).requests[id].frozen <==>
                 !Scanned(a.scanned, p) &&
                 ((IsActive(w.ledger, p) && p !in missed) || (IsSuppressed(w.ledger, p) && w.ledger[p].suppressedHash == Some(w.hash))))
  {
    MissedAreProven(w, ex, a);
    SuppressedByRefresh(w, ex, a, p);
  }

  // ----- one preview at a time, and none that was replaced executes -----

  predicate Awaiting(r: Request) { r.state.Previewed? || r.state.ApprovalRequired? }

  /** At most one request awaits approval, and whatever awaits or is queued was
      previewed under the committed policy. */
  ghost predicate QueueInv(w: World) {
    && (forall id, other | id in w.requests && other in w.requests && Awaiting(w.requests[id]) && Awaiting(w.requests[other]) :: id == other)
    && (forall id | id in w.requests && (Awaiting(w.requests[id]) || w.requests[id].state.Pending?) :: w.requests[id].hash == w.hash)
  }

  ghost predicate Dead(w: World, id: RequestId) {
    id in w.requests && (w.requests[id].state.Stale? || w.requests[id].state.Superseded?)
  }

  /** Requests that were neither awaiting nor queued do not become so. */
  ghost predicate NoRevival(rs: Requests, after: Requests) {
    && after.Keys == rs.Keys
    && (forall id | id in rs :: NotRevived(rs[id], after[id]))
  }

  ghost predicate NotRevived(r: Request, s: Request) {
    && s.hash == r.hash
    && (Awaiting(s) ==> Awaiting(r))
    && (s.state.Pending? ==> Awaiting(r) || r.state.Pending?)
    && (r.state.Stale? || r.state.Superseded? ==> s.state == r.state)
  }

  lemma WriteNoRevival(rs: Requests, id: RequestId, r: Request)
    requires id in rs && NotRevived(rs[id], r)
    ensures NoRevival(rs, rs[id := r])
  {
  }

  lemma CommitQueue(w: World, hash: Hash)
    requires QueueInv(w)
    ensures QueueInv(CommitPolicy(w, hash)) && forall id | Dead(w, id) :: Dead(CommitPolicy(w, hash), id)
  {
  }

  lemma PreviewQueue(w: World, id: RequestId, paths: set<Path>)
    requires QueueInv(w) && id !in w.requests
    ensures QueueInv(w.(requests := Supersede(w.requests)[id := Frozen(w, paths)]))
    ensures forall other | Dead(w, other) :: Dead(w.(requests := Supersede(w.requests)[id := Frozen(w, paths)]), other)
  {
  }

  lemma StepNoRevival(w: World, ex: Excludes, step: Step)
    requires Guard(w, ex, step) && !step.DoPreview? && !step.DoDiscover? && !step.DoCommit?
    ensures NoRevival(w.requests, Next(w, ex, step).requests) && Next(w, ex, step).hash == w.hash
  {
    match step
    case DoAuthorize(id, allow) => WriteNoRevival(w.requests, id, Authorize(w, id, allow).requests[id]);
    case DoClaim(id) => WriteNoRevival(w.requests, id, Claim(w, id).requests[id]);
    case DoReclaim(id) => WriteNoRevival(w.requests, id, w.requests[id].(state := RequestState.Running));
    case DoRetry(id) => WriteNoRevival(w.requests, id, w.requests[id].(state := Retrying));
    case DoComplete(id) => WriteNoRevival(w.requests, id, Complete(w, id).requests[id]);
    case DoMarkMissing(id, paths) => WriteNoRevival(w.requests, id, MarkRequest(w.requests[id], paths, Missing));
    case DoMarkDeleted(id, paths) => WriteNoRevival(w.requests, id, MarkRequest(w.requests[id], paths, Deleted));
    case DoReconcile(_) =>
    case DoFastUpload(_) =>
    case DoFastUpsert(_) =>
    case DoConfigure(_) =>
    case DoDeleteBatch(_, _, _) =>
  }

  lemma NoRevivalKeeps(w: World, t: World)
    requires QueueInv(w) && NoRevival(w.requests, t.requests) && t.hash == w.hash
    ensures QueueInv(t) && forall id | Dead(w, id) :: Dead(t, id)
  {
  }

  lemma OtherQueue(w: World, ex: Excludes, step: Step)
    requires QueueInv(w) && Guard(w, ex, step) && !step.DoPreview? && !step.DoDiscover? && !step.DoCommit?
    ensures QueueInv(Next(w, ex, step))
    ensures forall id | Dead(w, id) :: Dead(Next(w, ex, step), id)
  {
    StepNoRevival(w, ex, step);
    NoRevivalKeeps(w, Next(w, ex, step));
  }

  lemma QueueStep(w: World, ex: Excludes, step: Step)
    requires QueueInv(w) && Guard(w, ex, step)
    ensures QueueInv(Next(w, ex, step))
    ensures forall id | Dead(w, id) :: Dead(Next(w, ex, step), id)
  {
    match step
    case DoCommit(hash) => CommitQueue(w, hash);
    case DoPreview(id) => PreviewQueue(w, id, SuppressedNow(w));
    case DoDiscover(id, candidates) => PreviewQueue(w, id, candidates - w.ledger.Keys);
    case _ => OtherQueue(w, ex, step);
  }

  lemma {:induction false} OnePreviewAwaits(h: History, ex: Excludes, k: nat)
    requires h.Valid(ex) && h.worlds[0].requests == map[] && k <= |h.steps|
    ensures QueueInv(h.worlds[k])
  {
    if k > 0 {
      OnePreviewAwaits(h, ex, k - 1);
      assert h.StepOK(ex, k - 1);
      QueueStep(h.worlds[k - 1], ex, h.steps[k - 1]);
    }
  }

  lemma DeadStaysDead(h: History, ex: Excludes, k: nat, id: RequestId)
    requires h.Valid(ex) && h.worlds[0].requests == map[] && k < |h.steps| && Dead(h.worlds[k], id)
    ensures Dead(h.worlds[k + 1], id)
  {
    OnePreviewAwaits(h, ex, k);
    assert h.StepOK(ex, k);
    QueueStep(h.worlds[k], ex, h.steps[k]);
  }

  /** A request whose policy was not in force at some time after its preview and
      before it was claimed never executes, even when its policy comes back. */
  lemma {:induction false} ReplacedNeverExecutes(h: History, ex: Excludes, i: nat, j: nat, id: RequestId)
    requires h.Valid(ex) && h.worlds[0].requests == map[] && i <= j <= |h.steps|
    requires id in h.worlds[i].requests && h.worlds[i].requests[id].hash != h.worlds[i].hash
    requires !h.worlds[i].requests[id].state.Executing() && !h.worlds[i].requests[id].state.Completed?
    ensures Dead(h.worlds[j], id)
    decreases j
  {
    if i == j {
      OnePreviewAwaits(h, ex, i);
    } else {
      ReplacedNeverExecutes(h, ex, i, j - 1, id);
      DeadStaysDead(h, ex, j - 1, id);
    }
  }

  /** A claim takes a queued request up exactly when its policy is committed and
      ready, with the targets once found missing open again; otherwise the request
      is stale. Nothing else changes. */
  lemma ClaimDecides(w: World, ex: Excludes, id: RequestId)
    requires Guard(w, ex, DoClaim(id))
    ensures var t, r := Next(w, ex, DoClaim(id)), w.requests[id];
            && t == w.(requests := t.requests) && t.requests == w.requests[id := t.requests[id]]
            && (if r.hash == w.hash && w.refresh.RefreshReady? && w.refreshed == Some(w.hash)
                then t.requests[id] == r.(state := RequestState.Running, targets := t.requests[id].targets)
                     && t.requests[id].targets.Keys == r.targets.Keys
                     && (forall p | p in r.targets :: t.requests[id].targets[p] == if r.targets[p].Missing? then Open else r.targets[p])
                else t.requests[id] == r.(state := Stale))
  {
  }

  /** The steps around the prune do what they say and no more. */
  lemma OtherSteps(w: World, ex: Excludes, step: Step)
    requires Guard(w, ex, step)
    ensures var t := Next(w, ex, step);
            && (step.DoFastUpload? ==> t == w.(remote := w.remote + step.paths))
            && (step.DoConfigure? ==> t == w.(maxDelete := step.maxDelete))
            && (step.DoDeleteBatch? ==> t == w.(remote := w.remote - step.gone))
            && (step.DoCommit? ==> if step.hash == w.hash then t == w
                                   else t.hash == step.hash && t.refresh.RefreshPending? && t.refreshed.None? && t.epoch > w.epoch
                                        && t.remote == w.remote && t.ledger == w.ledger && t.maxDelete == w.maxDelete)
  {
  }

  // ----- what had to be authorized -----

  predicate Approved(r: Request) { r.state.Pending? || r.state.Executing() || r.state.Completed? }

  ghost predicate PreviewedAt(h: History, ex: Excludes, v: nat, k: nat, id: RequestId)
    requires h.Valid(ex)
  {
    && v < k <= |h.steps| && id in h.worlds[k].requests && (h.steps[v].DoPreview? || h.steps[v].DoDiscover?) && h.steps[v].id == id
    && h.worlds[k].requests[id].defaultMax == h.worlds[v].maxDelete
  }

  /** The request's own data are as old as itself. */
  ghost predicate SameTerms(r: Request, s: Request) { s.defaultMax == r.defaultMax && s.candidates == r.candidates }

  ghost predicate TermsKept(rs: Requests, after: Requests) { forall id | id in rs :: id in after && SameTerms(rs[id], after[id]) }

  lemma CommitTerms(w: World, hash: Hash)
    ensures TermsKept(w.requests, CommitPolicy(w, hash).requests)
  {
  }

  lemma PreviewTerms(w: World, id: RequestId, paths: set<Path>)
    requires id !in w.requests
    ensures TermsKept(w.requests, Supersede(w.requests)[id := Frozen(w, paths)])
  {
  }

  lemma WriteTerms(rs: Requests, id: RequestId, r: Request)
    requires id in rs && SameTerms(rs[id], r)
    ensures TermsKept(rs, rs[id := r])
  {
  }

  lemma StepTerms(w: World, ex: Excludes, step: Step)
    requires Guard(w, ex, step)
    ensures TermsKept(w.requests, Next(w, ex, step).requests)
  {
    match step
    case DoCommit(hash) => CommitTerms(w, hash);
    case DoPreview(id) => PreviewTerms(w, id, SuppressedNow(w));
    case DoDiscover(id, candidates) => PreviewTerms(w, id, candidates - w.ledger.Keys);
    case DoAuthorize(id, allow) => WriteTerms(w.requests, id, Authorize(w, id, allow).requests[id]);
    case DoClaim(id) => WriteTerms(w.requests, id, Claim(w, id).requests[id]);
    case DoReclaim(id) => WriteTerms(w.requests, id, w.requests[id].(state := RequestState.Running));
    case DoRetry(id) => WriteTerms(w.requests, id, w.requests[id].(state := Retrying));
    case DoComplete(id) => WriteTerms(w.requests, id, Complete(w, id).requests[id]);
    case DoMarkMissing(id, paths) => WriteTerms(w.requests, id, MarkRequest(w.requests[id], paths, Missing));
    case DoMarkDeleted(id, paths) => WriteTerms(w.requests, id, MarkRequest(w.requests[id], paths, Deleted));
    case DoReconcile(_) =>
    case DoFastUpload(_) =>
    case DoFastUpsert(_) =>
    case DoConfigure(_) =>
    case DoDeleteBatch(_, _, _) =>
  }

  /** Every request was previewed, under the budget it carries. */
  lemma {:induction false} WasPreviewed(h: History, ex: Excludes, k: nat, id: RequestId) returns (v: nat)
    requires h.Valid(ex) && h.worlds[0].requests == map[] && k <= |h.steps| && id in h.worlds[k].requests
    ensures PreviewedAt(h, ex, v, k, id)
  {
    v := k - 1;
    assert h.StepOK(ex, v);
    if id in h.worlds[v].requests {
      v := WasPreviewed(h, ex, k - 1, id);
      StepTerms(h.worlds[k - 1], ex, h.steps[k - 1]);
    } else {
      NewRequest(h.worlds[v], ex, h.steps[v], id);
    }
  }

  lemma NewRequest(w: World, ex: Excludes, step: Step, id: RequestId)
    requires Guard(w, ex, step) && id !in w.requests && id in Next(w, ex, step).requests
    ensures (step.DoPreview? || step.DoDiscover?) && step.id == id
    ensures Next(w, ex, step).requests[id].state.Previewed? && Next(w, ex, step).requests[id].defaultMax == w.maxDelete
  {
    if step.DoPreview? || step.DoDiscover? {
      PreviewFreezes(w, ex, step);
    } else if !step.DoCommit? {
      StepNoRevival(w, ex, step);
    }
  }

  /** An authorization succeeds exactly when the frozen paths are no more than the
      positive allowance given, or than the budget of the preview when none is; it
      then fixes that number, and a refused one changes nothing. */
  lemma AuthorizationIff(w: World, id: RequestId, allow: int)
    requires id in w.requests
    ensures var t, r := Authorize(w, id, allow), w.requests[id];
            var limit := if allow > 0 then allow else r.defaultMax;
            && t == w.(requests := t.requests)
            && t.requests == if r.candidates <= limit then w.requests[id := r.(limit := Some(limit), state := Pending)] else w.requests
  {
  }

  /** Nothing becomes approved, and what is approved keeps its limit. */
  ghost predicate NoApproval(rs: Requests, after: Requests) {
    forall id | id in rs && id in after && Approved(after[id]) :: Approved(rs[id]) && after[id].limit == rs[id].limit
  }

  lemma CommitApproval(w: World, hash: Hash)
    ensures NoApproval(w.requests, CommitPolicy(w, hash).requests)
  {
  }

  lemma PreviewApproval(w: World, id: RequestId, paths: set<Path>)
    requires id !in w.requests
    ensures NoApproval(w.requests, Supersede(w.requests)[id := Frozen(w, paths)])
  {
  }

  lemma WriteApproval(rs: Requests, id: RequestId, r: Request)
    requires id in rs && (Approved(r) ==> Approved(rs[id]) && r.limit == rs[id].limit)
    ensures NoApproval(rs, rs[id := r])
  {
  }

  lemma StepApproval(w: World, ex: Excludes, step: Step)
    requires Guard(w, ex, step) && !step.DoAuthorize?
    ensures NoApproval(w.requests, Next(w, ex, step).requests)
  {
    match step
    case DoCommit(hash) => CommitApproval(w, hash);
    case DoPreview(id) => PreviewApproval(w, id, SuppressedNow(w));
    case DoDiscover(id, candidates) => PreviewApproval(w, id, candidates - w.ledger.Keys);
    case DoClaim(id) => WriteApproval(w.requests, id, Claim(w, id).requests[id]);
    case DoReclaim(id) => WriteApproval(w.requests, id, w.requests[id].(state := RequestState.Running));
    case DoRetry(id) => WriteApproval(w.requests, id, w.requests[id].(state := Retrying));
    case DoComplete(id) => WriteApproval(w.requests, id, Complete(w, id).requests[id]);
    case DoMarkMissing(id, paths) => WriteApproval(w.requests, id, MarkRequest(w.requests[id], paths, Missing));
    case DoMarkDeleted(id, paths) => WriteApproval(w.requests, id, MarkRequest(w.requests[id], paths, Deleted));
    case DoReconcile(_) =>
    case DoFastUpload(_) =>
    case DoFastUpsert(_) =>
    case DoConfigure(_) =>
    case DoDeleteBatch(_, _, _) =>
  }

  /** Where the approval of a request comes from: an earlier one, or this step. */
  lemma ApprovedBy(w: World, ex: Excludes, step: Step, id: RequestId)
    requires Guard(w, ex, step) && id in w.requests && id in Next(w, ex, step).requests
    requires Approved(Next(w, ex, step).requests[id])
    ensures var r, s := w.requests[id], Next(w, ex, step).requests[id];
            if step.DoAuthorize? && step.id == id && !Approved(r)
            then s.limit == Some(if step.allowDeletes > 0 then step.allowDeletes else r.defaultMax) && r.candidates <= s.limit.value
            else Approved(r) && s.limit == r.limit
  {
    if step.DoAuthorize? {
      AuthorizationIff(w, step.id, step.allowDeletes);
    } else {
      StepApproval(w, ex, step);
    }
  }

  /** A request that is ever queued or executed was previewed under some budget
      and then approved, with a positive allowance of at least its count, or with
      none because its count was within that budget; its limit is that number. */
  lemma {:induction false} ApprovalWasGiven(h: History, ex: Excludes, k: nat, id: RequestId) returns (a: nat)
    requires h.Valid(ex) && h.worlds[0].requests == map[] && k <= |h.steps|
    requires id in h.worlds[k].requests && Approved(h.worlds[k].requests[id])
    ensures a < k && h.steps[a].DoAuthorize? && h.steps[a].id == id
    ensures var r, allow := h.worlds[k].requests[id], h.steps[a].allowDeletes;
            r.limit == Some(if allow > 0 then allow else r.defaultMax) && r.candidates <= r.limit.value
  {
    a := k - 1;
    assert h.StepOK(ex, a);
    if id !in h.worlds[a].requests {
      NewRequest(h.worlds[a], ex, h.steps[a], id);
      assert false;
    }
    StepTerms(h.worlds[a], ex, h.steps[a]);
    ApprovedBy(h.worlds[a], ex, h.steps[a], id);
    if Approved(h.worlds[a].requests[id]) {
      a := ApprovalWasGiven(h, ex, a, id);
    }
  }

  /** What one request removes from the remote, over all its claims together, is
      no more than the allowance somebody gave it, or than the budget in force when
      it was previewed. */
  lemma PrunedWithinApproval(h: History, ex: Excludes, k: nat, id: RequestId) returns (v: nat, a: nat)
    requires h.Valid(ex) && h.worlds[0].requests == map[] && k <= |h.steps| && id in h.worlds[k].requests
    requires h.worlds[k].requests[id].state.Executing() || h.worlds[k].requests[id].state.Completed?
    ensures v < k && (h.steps[v].DoPreview? || h.steps[v].DoDiscover?) && h.steps[v].id == id
    ensures a < k && h.steps[a].DoAuthorize? && h.steps[a].id == id
    ensures var limit := if h.steps[a].allowDeletes > 0 then h.steps[a].allowDeletes else h.worlds[v].maxDelete;
            h.worlds[k].requests[id].candidates <= limit && |PrunedBy(h, ex, k, id)| <= limit
  {
    v := WasPreviewed(h, ex, k, id);
    a := ApprovalWasGiven(h, ex, k, id);
    PrunedWithinLimit(h, ex, k, id);
  }
}
