/** A prune whose policy is replaced and committed again before it completes:
    it can always be finished then, and what it had settled before is still gone
    exactly when every policy in between ignored it. */
module PruneResume {
  import opened Rows
  import opened Ledger
  import opened LedgerRefresh
  import opened PruneSteps
  import opened PruneRuns
  import opened PruneHistory
  import opened PruneSafety

  /** The policies that came into force during a history, in order. */
  function Policies(worlds: seq<World>): seq<Hash> {
    if |worlds| <= 1 then []
    else
      var n := |worlds| - 1;
      Policies(worlds[..n]) + if worlds[n].hash != worlds[n - 1].hash then [worlds[n].hash] else []
  }

  lemma {:induction false} HashAmong(worlds: seq<World>, k: nat)
    requires k < |worlds|
    ensures worlds[k].hash == worlds[0].hash || worlds[k].hash in Policies(worlds)
  {
    var n := |worlds| - 1;
    if k < n {
      HashAmong(worlds[..n], k);
    } else if k > 0 {
      HashAmong(worlds[..n], n - 1);
    }
  }

  /** Each policy replaces a different one. */
  predicate Chain(hash: Hash, hs: seq<Hash>)
    decreases |hs|
  {
    hs != [] ==> hs[0] != hash && Chain(hs[0], hs[1..])
  }

  function LastHash(hash: Hash, hs: seq<Hash>): Hash { if hs == [] then hash else hs[|hs| - 1] }

  // ----- what was settled stays gone while it is ignored -----

  ghost predicate Gone(w: World, p: Path) { p !in w.remote && !IsActive(w.ledger, p) && !IsSuppressed(w.ledger, p) }

  /** A settled target of an executing request that is gone from the remote; the
      suppressed row of a deleted one stays until the completion. */
  ghost predicate SettledGone(w: World, id: RequestId, p: Path) {
    && TargetSettled(w, id, p) && w.requests[id].state.Executing()
    && p !in w.remote && !IsActive(w.ledger, p)
    && (IsSuppressed(w.ledger, p) ==> w.requests[id].targets[p].Deleted?)
  }

  /** Marking a target leaves it settled and gone. */
  lemma MarkedIsGone(h: History, ex: Excludes, k: nat, id: RequestId, p: Path)
    requires h.Valid(ex) && MarkedAt(h, ex, k, id, p)
    ensures Owned(h.worlds[k + 1], id) && SettledGone(h.worlds[k + 1], id, p)
  {
    var w := h.worlds[k];
    InvAlways(h, ex, k);
    assert h.StepOK(ex, k);
    assert RequestOK(w, ex, w.requests[id]);
    assert p in w.requests[id].targets.Keys;
  }

  /** The request goes on executing and the target keeps its state. */
  ghost predicate TargetKept(rs: Requests, after: Requests, id: RequestId, p: Path) {
    && id in rs && id in after && after[id].state.Executing()
    && p in rs[id].targets && p in after[id].targets && after[id].targets[p] == rs[id].targets[p]
  }

  lemma CommitKeepsTarget(w: World, hash: Hash, id: RequestId, p: Path)
    requires id in w.requests && w.requests[id].state.Executing() && p in w.requests[id].targets
    ensures TargetKept(w.requests, CommitPolicy(w, hash).requests, id, p)
  {
  }

  lemma PreviewKeepsTarget(w: World, other: RequestId, paths: set<Path>, id: RequestId, p: Path)
    requires id in w.requests && w.requests[id].state.Executing() && p in w.requests[id].targets && other !in w.requests
    ensures TargetKept(w.requests, Supersede(w.requests)[other := Frozen(w, paths)], id, p)
  {
  }

  lemma MarkKeepsTarget(w: World, other: RequestId, paths: set<Path>, result: TargetState, id: RequestId, p: Path)
    requires TargetSettled(w, id, p) && w.requests[id].state.Executing() && other in w.requests
    ensures TargetKept(w.requests, MarkBatch(w, other, paths, result).requests, id, p)
  {
  }

  lemma WriteKeepsTarget(rs: Requests, other: RequestId, r: Request, id: RequestId, p: Path)
    requires id in rs && rs[id].state.Executing() && p in rs[id].targets
    requires other == id ==> r.state.Executing() && r.targets == rs[id].targets
    ensures TargetKept(rs, rs[other := r], id, p)
  {
  }

  lemma StepKeepsTarget(w: World, ex: Excludes, step: Step, id: RequestId, p: Path)
    requires Guard(w, ex, step) && SettledGone(w, id, p) && step != DoComplete(id)
    ensures TargetKept(w.requests, Next(w, ex, step).requests, id, p)
  {
    match step
    case DoCommit(hash) => CommitKeepsTarget(w, hash, id, p);
    case DoPreview(other) => PreviewKeepsTarget(w, other, SuppressedNow(w), id, p);
    case DoDiscover(other, candidates) => PreviewKeepsTarget(w, other, candidates - w.ledger.Keys, id, p);
    case DoMarkMissing(other, paths) => MarkKeepsTarget(w, other, paths, Missing, id, p);
    case DoMarkDeleted(other, paths) => MarkKeepsTarget(w, other, paths, Deleted, id, p);
    case DoAuthorize(other, allow) => WriteKeepsTarget(w.requests, other, Authorize(w, other, allow).requests[other], id, p);
    case DoClaim(_) =>
    case DoReclaim(other) => WriteKeepsTarget(w.requests, other, w.requests[other].(state := RequestState.Running), id, p);
    case DoRetry(other) => WriteKeepsTarget(w.requests, other, w.requests[other].(state := Retrying), id, p);
    case DoComplete(other) => WriteKeepsTarget(w.requests, other, Complete(w, other).requests[other], id, p);
    case DoReconcile(_) =>
    case DoFastUpload(_) =>
    case DoFastUpsert(_) =>
    case DoConfigure(_) =>
    case DoDeleteBatch(_, _, _) =>
  }

  lemma AttemptKeepsRows(w: World, ex: Excludes, a: Attempt, p: Path)
    requires Guard(w, ex, DoReconcile(a)) && p in ex(w.hash) && !IsActive(w.ledger, p)
    ensures !IsActive(LedgerAfter(w, ex, a), p)
    ensures IsSuppressed(LedgerAfter(w, ex, a), p) ==> IsSuppressed(w.ledger, p)
  {
    var active, proven := PathsOf(a.scanned), ProvenDeletes(w, ex, a);
    var refreshed := Refreshed(w.ledger, active, proven, w.hash, a.generation);
    RefreshedRows(w.ledger, active, proven, w.hash, a.generation, p);
    AppliedRows(w.ledger, a.rescanned, p);
    AppliedRows(refreshed, a.rescanned, p);
  }

  lemma AttemptKeepsGone(w: World, ex: Excludes, a: Attempt, p: Path)
    requires Guard(w, ex, DoReconcile(a)) && p in ex(w.hash) && p !in w.remote && !IsActive(w.ledger, p)
    ensures p !in Reconcile(w, ex, a).remote && !IsActive(Reconcile(w, ex, a).ledger, p)
    ensures IsSuppressed(Reconcile(w, ex, a).ledger, p) ==> IsSuppressed(w.ledger, p)
  {
    AttemptKeepsRows(w, ex, a, p);
  }

  lemma StepKeepsGone(w: World, ex: Excludes, step: Step, id: RequestId, p: Path)
    requires Guard(w, ex, step) && SettledGone(w, id, p) && p in ex(w.hash) && step != DoComplete(id)
    ensures SettledGone(Next(w, ex, step), id, p)
  {
    StepKeepsTarget(w, ex, step, id, p);
    match step
    case DoReconcile(a) => AttemptKeepsGone(w, ex, a, p);
    case DoFastUpsert(e) => assert e.path in {e.path};
    case _ =>
  }

  /** From the settling of a target to the completion of its request: when every
      policy in force meanwhile ignores the path, it ends gone from the remote
      and from the managed rows, whatever else happens in between. */
  lemma {:induction false} IgnoredStaysGone(h: History, ex: Excludes, i: nat, j: nat, id: RequestId, p: Path)
    requires h.Valid(ex) && i <= j <= |h.steps| && SettledGone(h.worlds[i], id, p)
    requires forall k: nat | i <= k < j :: p in ex(h.worlds[k].hash)
    requires forall k: nat | i <= k < j :: h.steps[k] != DoComplete(id)
    ensures SettledGone(h.worlds[j], id, p)
    ensures j < |h.steps| && h.steps[j] == DoComplete(id) ==> Gone(h.worlds[j + 1], p)
    decreases j
  {
    if i < j {
      IgnoredStaysGone(h, ex, i, j - 1, id, p);
      assert h.StepOK(ex, j - 1);
      StepKeepsGone(h.worlds[j - 1], ex, h.steps[j - 1], id, p);
    }
    if j < |h.steps| && h.steps[j] == DoComplete(id) {
      assert h.StepOK(ex, j);
    }
  }

  // ----- once the policy is back, the prune can be finished -----

  lemma {:induction false} EntriesFor(paths: set<Path>) returns (entries: seq<Entry>)
    ensures PathsOf(entries) == paths
  {
    entries := [];
    if paths != {} {
      var p :| p in paths;
      var rest := EntriesFor(paths - {p});
      entries := rest + [Entry(p, 0, 0)];
      assert PathsOf(entries) == PathsOf(rest) + {p} by {
        assert forall i | 0 <= i < |rest| :: entries[i] == rest[i];
        assert entries[|rest|].path == p;
      }
    }
  }

  /** An attempt that scans every active row the policy allows deletes nothing. */
  lemma QuietAttempt(w: World, ex: Excludes) returns (a: Attempt)
    ensures Guard(w, ex, DoReconcile(a)) && a.cut.MarkedReady? && a.uploads == {} && a.allowDeletes == 1
    ensures ProvenDeletes(w, ex, a) == {}
    ensures forall p :: p in PathsOf(a.scanned) ==> p !in ex(w.hash)
  {
    var entries := EntriesFor(set p | p in w.ledger && w.ledger[p].state.Active? && p !in ex(w.hash));
    a := Attempt(entries, {}, [], map[], 1, 0, MarkedReady);
    assert PathsOf([]) == {};
  }

  /** The refresh that makes the committed policy ready again. */
  lemma MakeReady(h: History, ex: Excludes, id: RequestId) returns (g: History)
    requires h.Valid(ex) && id in h.Last().requests
    ensures g.Valid(ex) && g.worlds[0] == h.worlds[0] && Policies(g.worlds) == Policies(h.worlds)
    ensures |g.steps| > |h.steps|
    ensures g.Last().Ready() && g.Last().hash == h.Last().hash
    ensures g.Last().requests == h.Last().requests && g.Last().remote == h.Last().remote
    ensures forall p :: IsActive(h.Last().ledger, p) && p in ex(h.Last().hash) ==> IsSuppressed(g.Last().ledger, p)
  {
    var w := h.Last();
    InvAlways(h, ex, |h.steps|);
    var a := QuietAttempt(w, ex);
    g := h.Then(ex, DoReconcile(a));
    assert g.worlds[..|h.worlds|] == h.worlds;
    assert |ProvenDeletes(w, ex, a)| == 0;
    forall p | IsActive(w.ledger, p) && p in ex(w.hash)
      ensures IsSuppressed(g.Last().ledger, p)
    {
      RefreshedRows(w.ledger, PathsOf(a.scanned), {}, w.hash, a.generation, p);
    }
  }

  lemma NoneOpen(r: Request)
    ensures OpenTargets(MarkRequest(r, OpenTargets(r), Deleted)) == {}
  {
  }

  /** Deleting and marking everything open, then completing. */
  lemma FinishedWorld(w: World, id: RequestId)
    requires Owned(w, id)
    ensures var open := OpenTargets(w.requests[id]);
            var emptied := w.(remote := w.remote - open);
            var marked := MarkBatch(emptied, id, open, Deleted);
            && Owned(emptied, id) && Owned(marked, id) && OpenTargets(marked.requests[id]) == {}
            && marked.ledger == w.ledger && marked.remote == w.remote - open
            && (forall p | p in w.requests[id].targets && w.requests[id].targets[p].Missing? ::
                  p !in DeletedTargets(marked.requests[id]))
            && open <= DeletedTargets(marked.requests[id])
  {
    NoneOpen(w.requests[id]);
  }

  lemma FinishOwned(h: History, ex: Excludes, id: RequestId) returns (g: History)
    requires h.Valid(ex) && Owned(h.Last(), id)
    ensures g.Valid(ex) && g.worlds[0] == h.worlds[0] && Policies(g.worlds) == Policies(h.worlds)
    ensures |g.steps| > |h.steps| && g.steps[|g.steps| - 1] == DoComplete(id)
    ensures id in g.Last().requests && g.Last().requests[id].state.Completed?
    ensures g.Last().remote == h.Last().remote - OpenTargets(h.Last().requests[id])
    ensures forall p | p in h.Last().requests[id].targets && h.Last().requests[id].targets[p].Missing? ::
              IsSuppressed(h.Last().ledger, p) ==> IsSuppressed(g.Last().ledger, p)
    ensures forall p | p in OpenTargets(h.Last().requests[id]) :: !IsSuppressed(g.Last().ledger, p)
  {
    var w := h.Last();
    var open := OpenTargets(w.requests[id]);
    FinishedWorld(w, id);
    g := ThenSame(h, ex, DoDeleteBatch(id, open, open));
    g := ThenSame(g, ex, DoMarkDeleted(id, open));
    g := ThenSame(g, ex, DoComplete(id));
  }

  /** Any executing request whose policy is in force, also an interrupted one
      whose policy has just come back, can be brought to completion, whatever it
      had settled before; what it had settled is not looked at again. */
  lemma ResumedPruneCanComplete(h: History, ex: Excludes, id: RequestId) returns (g: History)
    requires h.Valid(ex) && ExecutingUnder(h.Last(), id, h.Last().hash)
    ensures g.Valid(ex) && g.worlds[0] == h.worlds[0] && Policies(g.worlds) == Policies(h.worlds)
    ensures |g.steps| > |h.steps| && g.steps[|g.steps| - 1] == DoComplete(id)
    ensures id in g.Last().requests && g.Last().requests[id].state.Completed?
    ensures g.Last().remote == h.Last().remote - OpenTargets(h.Last().requests[id])
    ensures forall p | p in h.Last().requests[id].targets && h.Last().requests[id].targets[p].Missing? ::
              IsActive(h.Last().ledger, p) && p in ex(h.Last().hash) ==> IsSuppressed(g.Last().ledger, p)
  {
    g := MakeReady(h, ex, id);
    g := ThenSame(g, ex, DoReclaim(id));
    assert OpenTargets(g.Last().requests[id]) == OpenTargets(h.Last().requests[id]);
    g := FinishOwned(g, ex, id);
  }

  lemma ThenSame(h: History, ex: Excludes, step: Step) returns (g: History)
    requires h.Valid(ex) && Guard(h.Last(), ex, step) && Next(h.Last(), ex, step).hash == h.Last().hash
    ensures g == h.Then(ex, step) && g.Valid(ex) && g.worlds[0] == h.worlds[0]
    ensures g.Last() == Next(h.Last(), ex, step) && Policies(g.worlds) == Policies(h.worlds)
    ensures g.steps == h.steps + [step]
  {
    g := h.Then(ex, step);
    assert g.worlds[..|h.worlds|] == h.worlds;
  }

  /** The request is claimed and its policy is in force. */
  lemma ClaimFresh(h: History, ex: Excludes, id: RequestId, allow: int) returns (g: History)
    requires h.Valid(ex) && h.Last().Ready() && id !in h.Last().requests && NoneExecuting(h.Last())
    requires allow > 0 && |SuppressedNow(h.Last())| <= allow
    ensures g.Valid(ex) && g.worlds[0] == h.worlds[0] && Policies(g.worlds) == Policies(h.worlds)
    ensures Owned(g.Last(), id) && g.Last().requests[id].frozen == OpenTargets(g.Last().requests[id]) == SuppressedNow(h.Last())
    ensures g.Last().remote == h.Last().remote && g.Last().ledger == h.Last().ledger
  {
    ApprovedWorld(h.Last(), ex, id, allow);
    g := ThenSame(h, ex, DoPreview(id));
    g := ThenSame(g, ex, DoAuthorize(id, allow));
    g := ThenSame(g, ex, DoClaim(id));
  }

  /** The world once a fresh preview is approved. */
  lemma ApprovedWorld(w: World, ex: Excludes, id: RequestId, allow: int)
    requires w.Ready() && id !in w.requests && NoneExecuting(w) && allow > 0 && |SuppressedNow(w)| <= allow
    ensures var previewed := Preview(w, id);
            var approved := Authorize(previewed, id, allow);
            && Guard(previewed, ex, DoAuthorize(id, allow)) && Guard(approved, ex, DoClaim(id))
            && approved == w.(requests := approved.requests) && approved.requests[id].hash == w.hash
            && approved.requests[id].frozen == SuppressedNow(w)
            && Owned(Claim(approved, id), id) && OpenTargets(Claim(approved, id).requests[id]) == SuppressedNow(w)
  {
    var previewed := Preview(w, id);
    SupersedeIdle(w);
    assert previewed.requests[id] == Frozen(w, SuppressedNow(w));
    assert forall p | p in SuppressedNow(w) :: previewed.requests[id].targets[p] == Open;
  }

  lemma SupersedeIdle(w: World)
    requires NoneExecuting(w)
    ensures forall id | id in Supersede(w.requests) :: !Supersede(w.requests)[id].state.Executing()
  {
  }

  /** From every history whose policy is ready and in which no prune executes, a
      preview of the suppressed rows can be approved, claimed and completed, and
      then none of them is on the remote or suppressed any more; nothing else on
      the remote is touched. */
  lemma PruneCanComplete(h: History, ex: Excludes, id: RequestId, allow: int) returns (g: History)
    requires h.Valid(ex) && h.Last().Ready() && id !in h.Last().requests && NoneExecuting(h.Last())
    requires allow > 0 && |SuppressedNow(h.Last())| <= allow
    ensures g.Valid(ex) && g.worlds[0] == h.worlds[0] && Policies(g.worlds) == Policies(h.worlds)
    ensures id in g.Last().requests && g.Last().requests[id].state.Completed?
    ensures g.Last().remote == h.Last().remote - SuppressedNow(h.Last())
    ensures forall p | p in SuppressedNow(h.Last()) :: !IsSuppressed(g.Last().ledger, p)
  {
    g := ClaimFresh(h, ex, id, allow);
    g := FinishOwned(g, ex, id);
  }

  // ----- a policy in between that allows the path -----

  /** Only policies change: the remote, the rows and the executing request stay. */
  ghost predicate OnlyPolicy(w: World, t: World, id: RequestId) {
    && t.remote == w.remote && t.ledger == w.ledger
    && id in w.requests && id in t.requests && t.requests[id] == w.requests[id]
  }

  lemma CommitOne(h: History, ex: Excludes, id: RequestId, hash: Hash) returns (g: History)
    requires h.Valid(ex) && id in h.Last().requests && h.Last().requests[id].state.Executing()
    requires hash != h.Last().hash
    ensures g.Valid(ex) && g.worlds[0] == h.worlds[0] && Policies(g.worlds) == Policies(h.worlds) + [hash]
    ensures g.Last().hash == hash && OnlyPolicy(h.Last(), g.Last(), id)
  {
    g := h.Then(ex, DoCommit(hash));
    assert g.worlds[..|h.worlds|] == h.worlds;
  }

  lemma {:induction false} CommitAll(h: History, ex: Excludes, id: RequestId, hs: seq<Hash>) returns (g: History)
    requires h.Valid(ex) && id in h.Last().requests && h.Last().requests[id].state.Executing()
    requires Chain(h.Last().hash, hs)
    ensures g.Valid(ex) && g.worlds[0] == h.worlds[0] && Policies(g.worlds) == Policies(h.worlds) + hs
    ensures g.Last().hash == LastHash(h.Last().hash, hs) && OnlyPolicy(h.Last(), g.Last(), id)
    decreases |hs|
  {
    if hs == [] {
      g := h;
    } else {
      var next := CommitOne(h, ex, id, hs[0]);
      g := CommitAll(next, ex, id, hs[1..]);
      assert Policies(h.worlds) + [hs[0]] + hs[1..] == Policies(h.worlds) + hs;
    }
  }

  lemma UploadOne(h: History, ex: Excludes, id: RequestId, p: Path) returns (g: History)
    requires h.Valid(ex) && id in h.Last().requests && p !in ex(h.Last().hash)
    ensures g.Valid(ex) && g.worlds[0] == h.worlds[0] && Policies(g.worlds) == Policies(h.worlds)
    ensures g.Last().hash == h.Last().hash && p in g.Last().remote
    ensures id in g.Last().requests && g.Last().requests[id] == h.Last().requests[id]
    ensures p !in h.Last().ledger ==> IsActive(g.Last().ledger, p)
  {
    g := ThenSame(h, ex, DoFastUpload({p}));
    g := ThenSame(g, ex, DoFastUpsert(Entry(p, 0, 0)));
  }

  lemma {:induction false} ChainSplit(hash: Hash, hs: seq<Hash>, i: nat)
    requires Chain(hash, hs) && i <= |hs|
    ensures Chain(hash, hs[..i]) && Chain(LastHash(hash, hs[..i]), hs[i..])
    ensures LastHash(LastHash(hash, hs[..i]), hs[i..]) == LastHash(hash, hs)
    decreases i
  {
    if i > 0 {
      ChainSplit(hs[0], hs[1..], i - 1);
      assert hs[1..][..i - 1] == hs[..i][1..] && hs[1..][i - 1..] == hs[i..];
    }
  }

  /** A history from w in which exactly these policies come into force and which
      ends with the completion of the request. */
  ghost predicate Continuation(h: History, ex: Excludes, w: World, id: RequestId, hs: seq<Hash>) {
    && h.Valid(ex) && h.worlds[0] == w && Policies(h.worlds) == hs
    && |h.steps| > 0 && h.steps[|h.steps| - 1] == DoComplete(id)
  }

  /** While one of the policies allows the path, the fast lane uploads it again;
      the resumed prune completes and leaves it on the remote, and its row, which
      the returning policy suppresses, is not released. */
  lemma UploadedAgain(w: World, ex: Excludes, id: RequestId, p: Path, hs: seq<Hash>, i: nat) returns (h: History)
    requires Inv(w, ex) && Owned(w, id) && SettledGone(w, id, p) && i < |hs| && p !in ex(hs[i])
    requires Chain(w.hash, hs) && LastHash(w.hash, hs) == w.hash
    ensures Continuation(h, ex, w, id, hs) && p in h.Last().remote
    ensures w.requests[id].targets[p].Missing? && p !in w.ledger ==> IsSuppressed(h.Last().ledger, p)
  {
    TargetIgnored(w, ex, id, p);
    ChainSplit(w.hash, hs, i + 1);
    assert hs[..i + 1] + hs[i + 1..] == hs;
    assert [] + hs[..i + 1] == hs[..i + 1];
    h := Start(ex, w);
    h := UploadBetween(h, ex, id, p, hs[..i + 1], hs[i + 1..]);
    h := ResumedPruneCanComplete(h, ex, id);
  }

  lemma TargetIgnored(w: World, ex: Excludes, id: RequestId, p: Path)
    requires Inv(w, ex) && Owned(w, id) && TargetSettled(w, id, p)
    ensures p in ex(w.hash)
  {
    assert RequestOK(w, ex, w.requests[id]);
    assert p in w.requests[id].targets.Keys;
  }

  lemma UploadBetween(h: History, ex: Excludes, id: RequestId, p: Path, before: seq<Hash>, after: seq<Hash>)
    returns (g: History)
    requires h.Valid(ex) && id in h.Last().requests && h.Last().requests[id].state.Executing()
    requires Chain(h.Last().hash, before) && Chain(LastHash(h.Last().hash, before), after)
    requires p !in ex(LastHash(h.Last().hash, before))
    ensures g.Valid(ex) && g.worlds[0] == h.worlds[0] && Policies(g.worlds) == Policies(h.worlds) + before + after
    ensures g.Last().hash == LastHash(LastHash(h.Last().hash, before), after) && p in g.Last().remote
    ensures id in g.Last().requests && g.Last().requests[id] == h.Last().requests[id]
    ensures p !in h.Last().ledger ==> IsActive(g.Last().ledger, p)
  {
    var committed := CommitAll(h, ex, id, before);
    var uploaded := UploadOne(committed, ex, id, p);
    g := CommitAll(uploaded, ex, id, after);
  }

  /** For an owned request with a settled target, and any policies that replace
      each other and end where they began: every continuation completes with the
      target gone from the remote and the managed rows exactly when every one of
      those policies ignores it. */
  lemma SettledStaysGoneIff(w: World, ex: Excludes, id: RequestId, p: Path, hs: seq<Hash>)
    requires Inv(w, ex) && Owned(w, id) && SettledGone(w, id, p)
    requires Chain(w.hash, hs) && LastHash(w.hash, hs) == w.hash
    ensures (forall h | Continuation(h, ex, w, id, hs) :: Gone(h.Last(), p)) <==> forall q | q in hs :: p in ex(q)
  {
    if forall q | q in hs :: p in ex(q) {
      forall h | Continuation(h, ex, w, id, hs)
        ensures Gone(h.Last(), p)
      {
        AllIgnored(h, ex, w, id, p, hs);
      }
    } else {
      var q :| q in hs && p !in ex(q);
      var i :| 0 <= i < |hs| && hs[i] == q;
      var h := UploadedAgain(w, ex, id, p, hs, i);
    }
  }

  lemma AllIgnored(h: History, ex: Excludes, w: World, id: RequestId, p: Path, hs: seq<Hash>)
    requires Inv(w, ex) && Owned(w, id) && SettledGone(w, id, p)
    requires Continuation(h, ex, w, id, hs) && forall q | q in hs :: p in ex(q)
    ensures Gone(h.Last(), p)
  {
    TargetIgnored(w, ex, id, p);
    IgnoredThroughout(h, ex, p);
    var last := FirstComplete(h, ex, id);
    IgnoredStaysGone(h, ex, 0, last, id, p);
  }

  lemma IgnoredThroughout(h: History, ex: Excludes, p: Path)
    requires h.Valid(ex) && p in ex(h.worlds[0].hash) && forall q | q in Policies(h.worlds) :: p in ex(q)
    ensures forall k: nat | k < |h.steps| :: p in ex(h.worlds[k].hash)
  {
    forall k: nat | k < |h.steps|
      ensures p in ex(h.worlds[k].hash)
    {
      HashAmong(h.worlds, k);
    }
  }

  /** A request completes once. */
  lemma FirstComplete(h: History, ex: Excludes, id: RequestId) returns (j: nat)
    requires h.Valid(ex) && |h.steps| > 0 && h.steps[|h.steps| - 1] == DoComplete(id)
    ensures j == |h.steps| - 1
    ensures forall k: nat | k < j :: h.steps[k] != DoComplete(id)
  {
    j := |h.steps| - 1;
    forall k: nat | k < j
      ensures h.steps[k] != DoComplete(id)
    {
      if h.steps[k] == DoComplete(id) {
        assert h.StepOK(ex, k) && h.StepOK(ex, j);
        RequestImmutable(h, ex, k + 1, j, id);
      }
    }
  }
}
