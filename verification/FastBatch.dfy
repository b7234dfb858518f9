/** The fast upsert batch: partition the captured queue, upload, record ledger
    ownership, then clear exactly the captured versions. It may stop after any
    of these, and events keep arriving meanwhile. */
module FastBatch {
  import opened Rows
  import opened Ledger
  import opened SyncSteps

  /** What survives a crash. `owed` is the desired generation. */
  datatype Disk = Disk(pending: map<Path, PendingRow>, owed: int, ledger: Ledger, remote: set<Path>)

  /** The source as the batch sees it: at the eligibility check, and again at the
      ledger barrier, where a file may have vanished. */
  datatype Source = Source(present: Path -> bool, excluded: Path -> bool, entry: Path -> Option<Entry>)

  ghost predicate NamesItsPath(src: Source) { forall p :: src.entry(p).Some? ==> src.entry(p).value.path == p }

  type Queue = map<Path, PendingRow>

  function Eligible(captured: Queue, src: Source): set<Path> {
    set p | p in captured && src.present(p) && !src.excluded(p)
  }

  function Discardable(captured: Queue, src: Source): set<Path> {
    set p | p in captured && !(src.present(p) && !src.excluded(p))
  }

  function CapturedVersions(captured: Queue, paths: set<Path>): map<Path, int> {
    map p | p in captured && p in paths :: captured[p].gen
  }

  datatype Op = Upload(paths: set<Path>) | Record(entry: Entry) | ClearExact(batch: map<Path, int>)

  function Apply(d: Disk, op: Op): Disk {
    match op
    case Upload(paths) => d.(remote := d.remote + paths)
    case Record(e) => d.(ledger := Upsert(d.ledger, e))
    case ClearExact(batch) => d.(pending := Cleared(d.pending, batch))
  }

  function ApplyAll(d: Disk, ops: seq<Op>): Disk {
    if ops == [] then d else Apply(ApplyAll(d, ops[..|ops| - 1]), ops[|ops| - 1])
  }

  /** The ledger writes, in queue order; a vanished file is skipped. */
  function Records(order: seq<Path>, src: Source): seq<Op> {
    if order == [] then []
    else
      var init, p := order[..|order| - 1], order[|order| - 1];
      Records(init, src) + if src.entry(p).Some? then [Record(src.entry(p).value)] else []
  }

  ghost predicate Enumerates(order: seq<Path>, paths: set<Path>) { forall p :: p in order <==> p in paths }

  function Plan(captured: Queue, order: seq<Path>, src: Source): seq<Op> {
    [Upload(Eligible(captured, src))] + Records(order, src) +
    [ClearExact(CapturedVersions(captured, Eligible(captured, src))), ClearExact(CapturedVersions(captured, Discardable(captured, src)))]
  }

  // ----- the world moves on meanwhile -----

  /** `PartUpload` is what an upload that goes on to fail has moved so far. */
  datatype Move = Own | PartUpload(paths: set<Path>) | Event(path: Path, row: PendingRow) | Promote(generation: int)

  datatype Progress = Progress(disk: Disk, done: nat)

  /** A full promotion drops the queue into one generation at least as new. */
  ghost predicate Possible(d: Disk, move: Move) {
    move.Promote? ==> forall p | p in d.pending :: d.pending[p].gen <= move.generation
  }

  function After(plan: seq<Op>, at: Progress, move: Move): Progress {
    match move
    case Own => if at.done < |plan| then Progress(Apply(at.disk, plan[at.done]), at.done + 1) else at
    case PartUpload(paths) =>
      if at.done < |plan| && plan[at.done].Upload?
      then at.(disk := at.disk.(remote := at.disk.remote + paths * plan[at.done].paths)) else at
    case Event(path, row) => at.(disk := at.disk.(pending := MergePending(at.disk.pending, path, row)))
    case Promote(g) => at.(disk := at.disk.(pending := map[], owed := Max(at.disk.owed, g)))
  }

  function Play(plan: seq<Op>, d: Disk, moves: seq<Move>): Progress {
    if moves == [] then Progress(d, 0) else After(plan, Play(plan, d, moves[..|moves| - 1]), moves[|moves| - 1])
  }

  ghost predicate PlayOK(plan: seq<Op>, d: Disk, moves: seq<Move>) {
    forall k: nat | k < |moves| :: Possible(Play(plan, d, moves[..k]).disk, moves[k])
  }

  /** Still queued at this version or later, or part of the full debt. */
  predicate Covered(d: Disk, p: Path, version: int) {
    (p in d.pending && d.pending[p].gen >= version) || version <= d.owed
  }

  // ----- where the batch is -----

  lemma {:induction false} RecordsContain(order: seq<Path>, src: Source, p: Path)
    requires p in order && src.entry(p).Some?
    ensures Record(src.entry(p).value) in Records(order, src)
  {
    var init, last := order[..|order| - 1], order[|order| - 1];
    if p != last {
      assert order == init + [last];
      RecordsContain(init, src, p);
    }
  }

  lemma {:induction false} RecordsOnly(order: seq<Path>, src: Source)
    ensures forall k | 0 <= k < |Records(order, src)| :: Records(order, src)[k].Record?
  {
    if order != [] {
      RecordsOnly(order[..|order| - 1], src);
    }
  }

  predicate Recorded(plan: seq<Op>, done: nat, p: Path)
    requires done <= |plan|
  {
    exists k :: 0 <= k < done && plan[k].Record? && plan[k].entry.path == p
  }

  /** What holds at every point of a batch, interrupted or not. */
  ghost predicate SafeAt(captured: Queue, order: seq<Path>, src: Source, at: Progress) {
    var plan := Plan(captured, order, src);
    && at.done <= |plan|
    && (forall p | Recorded(plan, at.done, p) :: p in at.disk.ledger)
    && (at.done < |plan| - 1 ==> forall p | p in Eligible(captured, src) :: Covered(at.disk, p, captured[p].gen))
    && (at.done < |plan| ==> forall p | p in Discardable(captured, src) :: Covered(at.disk, p, captured[p].gen))
  }

  lemma OwnStepSafe(captured: Queue, order: seq<Path>, src: Source, at: Progress)
    requires SafeAt(captured, order, src, at) && at.done < |Plan(captured, order, src)|
    ensures SafeAt(captured, order, src, After(Plan(captured, order, src), at, Own))
  {
    var plan := Plan(captured, order, src);
    RecordsOnly(order, src);
    var op := plan[at.done];
    var next := After(plan, at, Own);
    assert at.done < |plan| - 2 ==> !op.ClearExact?;
    forall p | Recorded(plan, at.done + 1, p)
      ensures p in next.disk.ledger
    {
      assert Recorded(plan, at.done, p) || (op.Record? && op.entry.path == p);
    }
  }

  lemma {:induction false} SafeAlways(captured: Queue, order: seq<Path>, src: Source, d: Disk, moves: seq<Move>)
    requires captured == d.pending && PlayOK(Plan(captured, order, src), d, moves)
    ensures SafeAt(captured, order, src, Play(Plan(captured, order, src), d, moves))
  {
    var plan := Plan(captured, order, src);
    if moves != [] {
      var init, last := moves[..|moves| - 1], moves[|moves| - 1];
      PlayInit(plan, d, moves);
      SafeAlways(captured, order, src, d, init);
      var at := Play(plan, d, init);
      if last.Own? && at.done < |plan| {
        OwnStepSafe(captured, order, src, at);
      }
    }
  }

  /** By the time the eligible versions are cleared, every file still there has
      been recorded. */
  lemma RecordedByThen(captured: Queue, order: seq<Path>, src: Source, p: Path, done: nat)
    requires NamesItsPath(src) && p in order && src.entry(p).Some?
    requires |Plan(captured, order, src)| - 1 <= done <= |Plan(captured, order, src)|
    ensures Recorded(Plan(captured, order, src), done, p)
  {
    var r, rec := Records(order, src), Record(src.entry(p).value);
    RecordsContain(order, src, p);
    var k :| 0 <= k < |r| && r[k] == rec;
    assert Plan(captured, order, src)[k + 1] == rec;
  }

  /** Wherever the batch stops, whatever arrived meanwhile: every path it uploads
      is in the ledger, or its event is still queued at the captured version or
      later, or a full reconciliation owes it, unless the file had vanished by
      the time the ledger was written; and so is every path it discards until
      the last write. */
  lemma StoppedBatchIsSafe(captured: Queue, order: seq<Path>, src: Source, d: Disk, moves: seq<Move>, p: Path)
    requires captured == d.pending && NamesItsPath(src) && Enumerates(order, Eligible(captured, src))
    requires PlayOK(Plan(captured, order, src), d, moves)
    requires p in Eligible(captured, src) && src.entry(p).Some?
    ensures var at := Play(Plan(captured, order, src), d, moves);
            p in at.disk.ledger || Covered(at.disk, p, captured[p].gen)
  {
    var plan := Plan(captured, order, src);
    var at := Play(plan, d, moves);
    SafeAlways(captured, order, src, d, moves);
    if at.done >= |plan| - 1 {
      RecordedByThen(captured, order, src, p, at.done);
    }
  }

  // ----- newer events survive -----

  /** No clear of this batch names a version of the path at or above this one. */
  ghost predicate Unnamed(plan: seq<Op>, p: Path, version: int) {
    forall k | 0 <= k < |plan| && plan[k].ClearExact? && p in plan[k].batch :: plan[k].batch[p] < version
  }

  lemma PlanNamesCaptured(captured: Queue, order: seq<Path>, src: Source, p: Path, version: int)
    requires p in captured ==> captured[p].gen < version
    ensures Unnamed(Plan(captured, order, src), p, version)
  {
    RecordsOnly(order, src);
  }

  lemma MoveKeepsCovered(plan: seq<Op>, at: Progress, move: Move, p: Path, version: int)
    requires Unnamed(plan, p, version) && Possible(at.disk, move)
    requires Covered(at.disk, p, version) || (move.Event? && move.path == p && move.row.gen == version)
    ensures Covered(After(plan, at, move).disk, p, version)
  {
    match move
    case Own => assert at.done < |plan| && plan[at.done].ClearExact? && p in plan[at.done].batch ==> plan[at.done].batch[p] < version;
    case PartUpload(_) =>
    case Event(_, _) =>
    case Promote(_) =>
  }

  lemma PlayInit(plan: seq<Op>, d: Disk, moves: seq<Move>)
    requires PlayOK(plan, d, moves) && moves != []
    ensures var init := moves[..|moves| - 1];
            && PlayOK(plan, d, init) && Possible(Play(plan, d, init).disk, moves[|moves| - 1])
            && Play(plan, d, moves) == After(plan, Play(plan, d, init), moves[|moves| - 1])
  {
    var init := moves[..|moves| - 1];
    assert forall k: nat | k < |init| :: init[..k] == moves[..k];
  }

  /** An event recorded after the queue was captured is not consumed by the
      batch, however far it gets, as long as it is newer than what was captured. */
  lemma NewerEventSurvives(captured: Queue, order: seq<Path>, src: Source, d: Disk,
                           moves: seq<Move>, i: nat, p: Path)
    requires PlayOK(Plan(captured, order, src), d, moves)
    requires i < |moves| && moves[i].Event? && moves[i].path == p
    requires p in captured ==> captured[p].gen < moves[i].row.gen
    ensures Covered(Play(Plan(captured, order, src), d, moves).disk, p, moves[i].row.gen)
  {
    PlanNamesCaptured(captured, order, src, p, moves[i].row.gen);
    EventStaysCovered(Plan(captured, order, src), d, moves, i, p);
  }

  lemma {:induction false} EventStaysCovered(plan: seq<Op>, d: Disk, moves: seq<Move>, i: nat, p: Path)
    requires PlayOK(plan, d, moves) && i < |moves| && moves[i].Event? && moves[i].path == p
    requires Unnamed(plan, p, moves[i].row.gen)
    ensures Covered(Play(plan, d, moves).disk, p, moves[i].row.gen)
    decreases |moves|
  {
    var init, last := moves[..|moves| - 1], moves[|moves| - 1];
    PlayInit(plan, d, moves);
    if i < |init| {
      EventStaysCovered(plan, d, init, i, p);
    }
    MoveKeepsCovered(plan, Play(plan, d, init), last, p, moves[i].row.gen);
  }

  // ----- rerunning an interrupted batch -----

  lemma RecordsStep(d: Disk, order: seq<Path>, src: Source)
    requires order != []
    ensures var before := ApplyAll(d, Records(order[..|order| - 1], src));
            var entry := src.entry(order[|order| - 1]);
            ApplyAll(d, Records(order, src)) == if entry.Some? then before.(ledger := Upsert(before.ledger, entry.value)) else before
  {
    var ops, entry := Records(order[..|order| - 1], src), src.entry(order[|order| - 1]);
    if entry.Some? {
      assert (ops + [Record(entry.value)])[..|ops|] == ops;
    } else {
      assert ops + [] == ops;
    }
  }

  /** The row of a path once some of the files are recorded: its own upsert when
      it is among them and still there, and untouched otherwise. */
  predicate RowAfter(m: Ledger, order: seq<Path>, src: Source, after: Ledger, p: Path) {
    if p in order && src.entry(p).Some?
    then p in after && p in Upsert(m, src.entry(p).value) && after[p] == Upsert(m, src.entry(p).value)[p]
    else (p in after <==> p in m) && (p in m ==> after[p] == m[p])
  }

  lemma RowStep(m: Ledger, init: seq<Path>, last: Path, src: Source, before: Ledger, p: Path)
    requires NamesItsPath(src) && RowAfter(m, init, src, before, p)
    ensures RowAfter(m, init + [last], src, if src.entry(last).Some? then Upsert(before, src.entry(last).value) else before, p)
  {
  }

  lemma {:induction false} UpsertedRow(m: Ledger, order: seq<Path>, src: Source, d: Disk, p: Path)
    requires NamesItsPath(src) && d.ledger == m
    ensures var after := ApplyAll(d, Records(order, src));
            after == d.(ledger := after.ledger) && RowAfter(m, order, src, after.ledger, p)
  {
    if order != [] {
      var init, last := order[..|order| - 1], order[|order| - 1];
      assert order == init + [last];
      UpsertedRow(m, init, src, d, p);
      RecordsStep(d, order, src);
      RowStep(m, init, last, src, ApplyAll(d, Records(init, src)).ledger, p);
    }
  }

  lemma {:induction false} ApplyAppend(d: Disk, a: seq<Op>, b: seq<Op>)
    ensures ApplyAll(d, a + b) == ApplyAll(ApplyAll(d, a), b)
  {
    if b == [] {
      assert a + b == a;
    } else {
      assert (a + b)[..|a + b| - 1] == a + b[..|b| - 1];
      ApplyAppend(d, a, b[..|b| - 1]);
    }
  }

  lemma ApplyTwo(d: Disk, a: Op, b: Op)
    ensures ApplyAll(d, [a]) == Apply(d, a)
    ensures ApplyAll(d, [a, b]) == Apply(Apply(d, a), b)
  {
    assert [a][..0] == [];
    assert [a, b][..1] == [a];
  }

  /** The ledger once every still existing path of the set has been recorded. */
  function Owning(m: Ledger, paths: set<Path>, src: Source): Ledger {
    map p | p in m.Keys + paths && (p in m || src.entry(p).Some?) ::
      if p in paths && src.entry(p).Some? then Upsert(m, src.entry(p).value)[src.entry(p).value.path] else m[p]
  }

  lemma RowOwned(m: Ledger, order: seq<Path>, src: Source, paths: set<Path>, after: Ledger, p: Path)
    requires NamesItsPath(src) && Enumerates(order, paths) && RowAfter(m, order, src, after, p)
    ensures p in after <==> p in Owning(m, paths, src)
    ensures p in after ==> after[p] == Owning(m, paths, src)[p]
  {
  }

  lemma RecordsOwn(d: Disk, order: seq<Path>, src: Source, paths: set<Path>)
    requires NamesItsPath(src) && Enumerates(order, paths)
    ensures ApplyAll(d, Records(order, src)) == d.(ledger := Owning(d.ledger, paths, src))
  {
    var after := ApplyAll(d, Records(order, src));
    forall p
      ensures p in after.ledger <==> p in Owning(d.ledger, paths, src)
      ensures p in after.ledger ==> after.ledger[p] == Owning(d.ledger, paths, src)[p]
    {
      UpsertedRow(d.ledger, order, src, d, p);
      RowOwned(d.ledger, order, src, paths, after.ledger, p);
    }
    UpsertedRow(d.ledger, order, src, d, "");
    assert after.ledger == Owning(d.ledger, paths, src);
  }

  /** Recording a set after part of it was recorded is recording it once. */
  lemma OwningAgain(m: Ledger, part: set<Path>, paths: set<Path>, src: Source)
    requires NamesItsPath(src) && part <= paths
    ensures Owning(Owning(m, part, src), paths, src) == Owning(m, paths, src)
  {
  }

  /** A whole batch, as one effect. */
  lemma WholeBatch(d: Disk, order: seq<Path>, src: Source)
    requires NamesItsPath(src) && Enumerates(order, Eligible(d.pending, src))
    ensures var e := Eligible(d.pending, src);
            ApplyAll(d, Plan(d.pending, order, src)) == Disk(map[], d.owed, Owning(d.ledger, e, src), d.remote + e)
  {
    var e, r := Eligible(d.pending, src), Records(order, src);
    var first, second := ClearExact(CapturedVersions(d.pending, e)), ClearExact(CapturedVersions(d.pending, Discardable(d.pending, src)));
    var uploaded := d.(remote := d.remote + e);
    assert [Upload(e)][..0] == [];
    assert ApplyAll(d, [Upload(e)]) == uploaded;
    ApplyAppend(d, [Upload(e)], r);
    RecordsOwn(uploaded, order, src, e);
    var recorded := uploaded.(ledger := Owning(d.ledger, e, src));
    ApplyAppend(d, [Upload(e)] + r, [first, second]);
    ApplyTwo(recorded, first, second);
    assert Cleared(Cleared(d.pending, first.batch), second.batch) == map[];
  }

  /** Where a batch that stopped after k of its writes leaves the disk; an upload
      that failed may have moved any of the files. */
  function StoppedAt(d: Disk, captured: Queue, order: seq<Path>, src: Source, k: nat, moved: set<Path>): Disk
    requires k <= |Plan(captured, order, src)|
  {
    var at := ApplyAll(d, Plan(captured, order, src)[..k]);
    if k == 0 then at.(remote := at.remote + moved * Eligible(captured, src)) else at
  }

  /** What each move of the world does to the disk. */
  lemma MovesAct(plan: seq<Op>, at: Progress, move: Move)
    ensures var after := After(plan, at, move);
            && (move.PartUpload? && at.done < |plan| && plan[at.done].Upload? ==>
                  && after.disk.remote == at.disk.remote + move.paths * plan[at.done].paths
                  && after == at.(disk := at.disk.(remote := after.disk.remote)))
            && (move.Event? ==>
                  && move.path in after.disk.pending && after.disk.pending[move.path].gen >= move.row.gen
                  && after.disk.pending[move.path].kind == move.row.kind && after.done == at.done
                  && forall p | p != move.path :: (p in after.disk.pending <==> p in at.disk.pending)
                                                 && (p in at.disk.pending ==> after.disk.pending[p] == at.disk.pending[p]))
            && (move.Promote? ==> after.disk.pending == map[] && after.disk.owed >= move.generation && after.done == at.done)
            && (move.Own? && at.done < |plan| ==> after.done == at.done + 1)
  {
  }

  /** What such a batch left behind. */
  lemma StoppedBatch(d: Disk, order: seq<Path>, src: Source, k: nat, moved: set<Path>) returns (part: set<Path>)
    requires NamesItsPath(src) && Enumerates(order, Eligible(d.pending, src)) && k <= |Plan(d.pending, order, src)|
    ensures part <= Eligible(d.pending, src)
    ensures var at := StoppedAt(d, d.pending, order, src, k, moved);
            var e := Eligible(d.pending, src);
            && at.owed == d.owed && at.ledger == Owning(d.ledger, part, src)
            && at.remote == d.remote + (if k == 0 then moved * e else e)
            && at.remote + e == d.remote + e
            && (at.pending == d.pending
                || (at.pending == Cleared(d.pending, CapturedVersions(d.pending, e)) && part == e && at.remote == d.remote + e)
                || (at.pending == map[] && part == e && at.remote == d.remote + e))
  {
    var plan, e, r := Plan(d.pending, order, src), Eligible(d.pending, src), Records(order, src);
    var uploaded := d.(remote := d.remote + e);
    var recorded := uploaded.(ledger := Owning(d.ledger, e, src));
    if k == 0 {
      part := {};
      assert plan[..0] == [] && Owning(d.ledger, {}, src) == d.ledger;
    } else if k <= 1 + |r| {
      var i := RecordsPrefix(order, src, k - 1);
      part := set p | p in order[..i];
      assert plan[..k] == [Upload(e)] + r[..k - 1];
      assert ApplyAll(d, [Upload(e)]) == uploaded by {
        assert [Upload(e)][..0] == [];
      }
      ApplyAppend(d, [Upload(e)], r[..k - 1]);
      RecordsOwn(uploaded, order[..i], src, part);
    } else if k == 2 + |r| {
      part := e;
      StoppedAfterRecords(d, order, src, recorded);
      var first := ClearExact(CapturedVersions(d.pending, e));
      assert plan[..k] == ([Upload(e)] + r) + [first];
      ApplyAppend(d, [Upload(e)] + r, [first]);
      assert [first][..0] == [];
      assert ApplyAll(recorded, [first]) == Apply(recorded, first);
    } else {
      part := e;
      assert plan[..k] == plan;
      WholeBatch(d, order, src);
    }
  }

  lemma StoppedAfterRecords(d: Disk, order: seq<Path>, src: Source, recorded: Disk)
    requires NamesItsPath(src) && Enumerates(order, Eligible(d.pending, src))
    requires var e := Eligible(d.pending, src);
             recorded == d.(remote := d.remote + e, ledger := Owning(d.ledger, e, src))
    ensures ApplyAll(d, [Upload(Eligible(d.pending, src))] + Records(order, src)) == recorded
  {
    var e := Eligible(d.pending, src);
    assert [Upload(e)][..0] == [];
    assert ApplyAll(d, [Upload(e)]) == d.(remote := d.remote + e);
    ApplyAppend(d, [Upload(e)], Records(order, src));
    RecordsOwn(d.(remote := d.remote + e), order, src, e);
  }

  lemma {:induction false} RecordsPrefix(order: seq<Path>, src: Source, j: nat) returns (i: nat)
    requires j <= |Records(order, src)|
    ensures i <= |order| && Records(order[..i], src) == Records(order, src)[..j]
    ensures forall p | p in order[..i] :: p in order
  {
    if j == |Records(order, src)| {
      i := |order|;
      assert order[..i] == order && Records(order, src)[..j] == Records(order, src);
    } else {
      var init := order[..|order| - 1];
      i := RecordsPrefix(init, src, j);
      assert init[..i] == order[..i];
    }
  }

  /** Running the batch again after it stopped anywhere, also inside its upload,
      with nothing new queued and the same files, ends exactly where the
      uninterrupted batch ends. */
  lemma RerunAgrees(d: Disk, order: seq<Path>, src: Source, k: nat, moved: set<Path>, again: seq<Path>)
    requires NamesItsPath(src) && Enumerates(order, Eligible(d.pending, src)) && k <= |Plan(d.pending, order, src)|
    requires Enumerates(again, Eligible(StoppedAt(d, d.pending, order, src, k, moved).pending, src))
    ensures var stopped := StoppedAt(d, d.pending, order, src, k, moved);
            ApplyAll(stopped, Plan(stopped.pending, again, src)) == ApplyAll(d, Plan(d.pending, order, src))
  {
    var stopped := StoppedAt(d, d.pending, order, src, k, moved);
    var e := Eligible(d.pending, src);
    var part := StoppedBatch(d, order, src, k, moved);
    WholeBatch(d, order, src);
    WholeBatch(stopped, again, src);
    if stopped.pending == d.pending {
      OwningAgain(d.ledger, part, e, src);
    } else {
      assert Eligible(stopped.pending, src) == {};
      OwningNothing(stopped.ledger, src);
    }
  }

  lemma OwningNothing(m: Ledger, src: Source)
    ensures Owning(m, {}, src) == m
  {
  }
}
