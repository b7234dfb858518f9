/** The worker's evaluation of the fast queue: when a batch is due, what it
    promotes instead, and the writes it makes, in order. */
module FastWorker {
  import opened Rows
  import opened RetryPolicy
  import opened Ledger
  import opened Lists
  import opened SyncSteps
  import opened FastBatch

  datatype Settings = Settings(settleSeconds: int, maxDelaySeconds: int)

  /** A batch is due once the queue has settled or has waited too long. */
  predicate Due(events: seq<PendingRow>, now: Time, settings: Settings) {
    || (forall e | e in events :: now - e.lastSeen >= settings.settleSeconds * SECOND)
    || (exists e :: e in events && now - e.firstSeen >= settings.maxDelaySeconds * SECOND)
  }

  method EvaluateDue(events: seq<PendingRow>, now: Time, settings: Settings) returns (due: bool)
    requires events != []
    ensures due <==> Due(events, now, settings)
  {
    var first, last := events[0].firstSeen, events[0].lastSeen;
    for k := 1 to |events|
      invariant forall e | e in events[..k] :: first <= e.firstSeen && e.lastSeen <= last
      invariant exists e :: e in events[..k] && e.firstSeen == first
      invariant exists e :: e in events[..k] && e.lastSeen == last
    {
      assert events[..k + 1] == events[..k] + [events[k]];
      if events[k].firstSeen < first {
        first := events[k].firstSeen;
      }
      if events[k].lastSeen > last {
        last := events[k].lastSeen;
      }
    }
    assert events[..|events|] == events;
    due := now - last >= settings.settleSeconds * SECOND || now - first >= settings.maxDelaySeconds * SECOND;
  }

  /** How the foreign calls of one evaluation end. `upload` is `None` on success
      or what a failed upload still moved. */
  datatype Calls = Calls(upload: Option<set<Path>>, recordFailsAt: Option<Path>, clearedEligible: bool, clearedDiscardable: bool)

  datatype Outcome = Skipped | Promoted | Consumed | Stopped | Done

  /** Every foreign call and write of an evaluation succeeds. */
  predicate AllWell(calls: Calls) {
    calls.upload.None? && calls.recordFailsAt.None? && calls.clearedEligible && calls.clearedDiscardable
  }

  /** The same of the captured queue itself. */
  predicate QueueDue(captured: Queue, now: Time, settings: Settings) {
    || (forall p | p in captured :: now - captured[p].lastSeen >= settings.settleSeconds * SECOND)
    || (exists p :: p in captured && now - captured[p].firstSeen >= settings.maxDelaySeconds * SECOND)
  }

  lemma DueIsQueueDue(captured: Queue, order: seq<Path>, now: Time, settings: Settings)
    requires Enumerates(order, captured.Keys)
    ensures var events := seq(|order|, i requires 0 <= i < |order| => assert order[i] in order; captured[order[i]]);
            Due(events, now, settings) <==> QueueDue(captured, now, settings)
  {
    var events := seq(|order|, i requires 0 <= i < |order| => assert order[i] in order; captured[order[i]]);
    forall p | p in captured
      ensures captured[p] in events
    {
      var i :| 0 <= i < |order| && order[i] == p;
      assert events[i] == captured[p];
    }
    assert forall e | e in events :: exists i :: 0 <= i < |order| && e == captured[order[i]] && order[i] in captured;
  }

  /** Nothing is evaluated: full debt, a running attempt, or an empty list. */
  predicate Blocked(sync: SyncRow, order: seq<Path>) {
    || (sync.desired > 0 && (sync.last.None? || sync.last.value < sync.desired))
    || sync.current.Some? || order == []
  }

  predicate DestructiveQueued(pending: Queue) {
    exists p :: p in pending && (pending[p].kind.Delete? || pending[p].kind.Rename? || pending[p].kind.Other?)
  }

  predicate AllSafe(captured: Queue) { forall p | p in captured :: captured[p].kind.Create? || captured[p].kind.Modify? }

  /** The disk after a batch over the whole queue: nothing queued, every eligible
      file on the remote, and a row for each that is still there. */
  ghost predicate WholeQueueDone(d: Disk, after: Disk, src: Source) {
    && after.pending == map[] && after.owed == d.owed
    && (forall p :: p in after.remote <==> p in d.remote || (p in d.pending && src.present(p) && !src.excluded(p)))
    && (forall p | p in d.pending && src.present(p) && !src.excluded(p) && src.entry(p).Some? ::
          p in after.ledger && after.ledger[p].size == src.entry(p).value.size && after.ledger[p].modTime == src.entry(p).value.modTime
          && after.ledger[p].state == if p in d.ledger then d.ledger[p].state else Active)
    && (forall p | !(p in d.pending && src.present(p) && !src.excluded(p) && src.entry(p).Some?) ::
          (p in after.ledger <==> p in d.ledger) && (p in d.ledger ==> after.ledger[p] == d.ledger[p]))
  }

  lemma WholePlan(d: Disk, order: seq<Path>, src: Source)
    requires NamesItsPath(src) && Enumerates(order, Eligible(d.pending, src))
    ensures WholeQueueDone(d, ApplyAll(d, Plan(d.pending, order, src)), src)
  {
    WholeBatch(d, order, src);
  }

  class Worker {
    const ledger: LedgerStore
    var pending: Queue
    var sync: SyncRow
    var runtime: RuntimeRow
    var remote: set<Path>

    constructor (ledger: LedgerStore, sync: SyncRow, runtime: RuntimeRow)
      ensures this.ledger == ledger && this.sync == sync && this.runtime == runtime && pending == map[] && remote == {}
    {
      this.ledger, this.sync, this.runtime, this.pending, this.remote := ledger, sync, runtime, map[], {};
    }

    ghost function View(): Disk
      reads this, ledger
    {
      Disk(pending, sync.desired, ledger.manifest, remote)
    }

    method ClearPendingEvents(batch: map<Path, int>)
      modifies this`pending
      ensures pending == Cleared(old(pending), batch)
    {
      var rest := batch.Keys;
      while rest != {}
        invariant rest <= batch.Keys
        invariant pending == Cleared(old(pending), batch - rest)
        decreases rest
      {
        var p :| p in rest;
        rest := rest - {p};
        if p in pending && pending[p].gen <= batch[p] {
          pending := pending - {p};
        }
      }
      assert batch - rest == batch;
    }

    /** The rows this worker writes, among the rest of the control plane. */
    ghost function In(rest: State): State
      reads this
    {
      rest.(sync := sync, runtime := runtime, pending := pending)
    }

    /** The control plane's promotion step, whatever its other rows hold. */
    method PromoteToFullReconcile(now: Time, ghost rest: State)
      modifies this`pending, this`sync, this`runtime
      ensures In(rest) == Next(old(In(rest)), DoPromote(now))
    {
      var generation := if runtime.source < 1 then 1 else runtime.source;
      sync := OpenDebounce(Raise(sync, generation), now);
      runtime := runtime.(requested := true);
      pending := map[];
    }

    method Partition(captured: Queue, order: seq<Path>, src: Source) returns (eligible: seq<Path>)
      requires Enumerates(order, captured.Keys)
      ensures Enumerates(eligible, Eligible(captured, src))
    {
      eligible := [];
      for k := 0 to |order|
        invariant forall p :: p in eligible <==> p in order[..k] && p in Eligible(captured, src)
      {
        assert order[..k + 1] == order[..k] + [order[k]];
        if src.present(order[k]) && !src.excluded(order[k]) {
          eligible := eligible + [order[k]];
        }
      }
      assert order[..|order|] == order;
    }

    /** The ledger barrier: one upsert per file that is still there. */
    method RecordOwnership(order: seq<Path>, src: Source, failsAt: Option<Path>) returns (ok: bool, ghost written: nat)
      modifies ledger
      ensures written <= |order|
      ensures View() == ApplyAll(old(View()), Records(order[..written], src))
      ensures ok ==> written == |order|
      ensures failsAt.None? ==> ok
    {
      written := 0;
      ghost var start := View();
      assert order[..0] == [];
      for k := 0 to |order|
        invariant written == k
        invariant View() == ApplyAll(start, Records(order[..k], src))
      {
        assert order[..k + 1][..k] == order[..k] && order[..k + 1][k] == order[k];
        RecordsStep(start, order[..k + 1], src);
        var stat := src.entry(order[k]);
        if stat.Some? {
          if failsAt == Some(order[k]) {
            return false, k;
          }
          ledger.ManifestUpsert(stat.value);
        }
        written := k + 1;
      }
      assert order[..|order|] == order;
      ok := true;
    }

    /** One evaluation of the captured queue. Full debt and a running attempt win
        over it; an uncertain event promotes; otherwise the disk ends where some
        prefix of the plan leads, and where all of it leads on success. */
    method RunFastUpsertBatch(captured: Queue, order: seq<Path>, now: Time, src: Source, settings: Settings, calls: Calls,
                              ghost rest: State)
      returns (outcome: Outcome, ghost eligible: seq<Path>, ghost k: nat)
      requires Enumerates(order, captured.Keys) && NamesItsPath(src)
      modifies this, ledger
      ensures outcome.Skipped? <==>
                Blocked(old(sync), order) || (!DestructiveQueued(old(pending)) && !QueueDue(captured, now, settings))
      ensures outcome.Promoted? <==>
                !Blocked(old(sync), order) && (DestructiveQueued(old(pending)) || (QueueDue(captured, now, settings) && !AllSafe(captured)))
      ensures outcome.Stopped? ==> !AllWell(calls)
      ensures outcome.Skipped? ==> View() == old(View())
      ensures (outcome.Done? || outcome.Consumed?) && captured == old(pending) ==> WholeQueueDone(old(View()), View(), src)
      ensures outcome.Promoted? ==> In(rest) == Next(old(In(rest)), DoPromote(now)) && ledger.manifest == old(ledger.manifest) && remote == old(remote)
      ensures !outcome.Promoted? ==> sync == old(sync) && runtime == old(runtime)
      ensures !outcome.Skipped? && !outcome.Promoted? ==>
                && Enumerates(eligible, Eligible(captured, src))
                && k <= |Plan(captured, eligible, src)|
                && View() == StoppedAt(old(View()), captured, eligible, src, k, calls.upload.GetOr({}))
                && (forall p | p in captured :: captured[p].kind.SafeFast())
      ensures outcome.Done? || outcome.Consumed? ==> k == |Plan(captured, eligible, src)|
    {
      eligible, k := [], 0;
      if sync.HasDebt() || sync.current.Some? || |order| == 0 {
        return Skipped, eligible, k;
      }
      assert order[0] in order && order[0] in captured;
      var destructive := exists p :: p in pending && pending[p].kind.Destructive();
      if destructive {
        PromoteToFullReconcile(now, rest);
        return Promoted, eligible, k;
      }
      var events := seq(|order|, i requires 0 <= i < |order| => assert order[i] in order; captured[order[i]]);
      var due := EvaluateDue(events, now, settings);
      DueIsQueueDue(captured, order, now, settings);
      if !due {
        return Skipped, eligible, k;
      }
      var uncertain := exists p :: p in captured && !captured[p].kind.SafeFast();
      if uncertain {
        PromoteToFullReconcile(now, rest);
        return Promoted, eligible, k;
      }
      var paths := Partition(captured, order, src);
      eligible := paths;
      if |paths| == 0 {
        NothingEligible(View(), captured, src);
        ClearPendingEvents(CapturedVersions(captured, Discardable(captured, src)));
        k := |Plan(captured, [], src)|;
        assert Plan(captured, [], src)[..k] == Plan(captured, [], src);
        BatchMeans(old(View()), captured, [], src, View());
        return Consumed, eligible, k;
      }
      outcome, k := WriteBatch(captured, paths, src, calls);
      if outcome.Done? {
        assert Plan(captured, paths, src)[..k] == Plan(captured, paths, src);
        BatchMeans(old(View()), captured, paths, src, View());
      }
    }

    /** The writes of a due batch. */
    method WriteBatch(captured: Queue, eligible: seq<Path>, src: Source, calls: Calls)
      returns (outcome: Outcome, ghost k: nat)
      requires Enumerates(eligible, Eligible(captured, src)) && NamesItsPath(src)
      modifies this`pending, this`remote, ledger
      ensures outcome.Stopped? || outcome.Done?
      ensures k <= |Plan(captured, eligible, src)|
      ensures View() == StoppedAt(old(View()), captured, eligible, src, k, calls.upload.GetOr({}))
      ensures outcome.Done? <==> k == |Plan(captured, eligible, src)|
      ensures AllWell(calls) ==> outcome.Done?
    {
      ghost var start := View();
      if calls.upload.Some? {
        assert Plan(captured, eligible, src)[..0] == [];
        remote := remote + calls.upload.value * Eligible(captured, src);
        return Stopped, 0;
      }
      remote := remote + Eligible(captured, src);
      outcome, k := RecordAndClear(captured, eligible, src, calls, start);
    }

    /** The writes that follow a successful upload. */
    method RecordAndClear(captured: Queue, eligible: seq<Path>, src: Source, calls: Calls, ghost start: Disk)
      returns (outcome: Outcome, ghost k: nat)
      requires Enumerates(eligible, Eligible(captured, src)) && NamesItsPath(src)
      requires View() == Apply(start, Upload(Eligible(captured, src)))
      modifies this`pending, ledger
      ensures outcome.Stopped? || outcome.Done?
      ensures 0 < k <= |Plan(captured, eligible, src)|
      ensures View() == ApplyAll(start, Plan(captured, eligible, src)[..k])
      ensures outcome.Done? <==> k == |Plan(captured, eligible, src)|
      ensures calls.recordFailsAt.None? && calls.clearedEligible && calls.clearedDiscardable ==> outcome.Done?
    {
      ghost var plan := Plan(captured, eligible, src);
      ApplyTwo(start, Upload(Eligible(captured, src)), ClearExact(map[]));
      ghost var written;
      var ok;
      ok, written := RecordOwnership(eligible, src, calls.recordFailsAt);
      RecordsLength(eligible, src, written);
      k := 1 + |Records(eligible[..written], src)|;
      assert plan[..k] == [Upload(Eligible(captured, src))] + Records(eligible[..written], src);
      ApplyAppend(start, [Upload(Eligible(captured, src))], Records(eligible[..written], src));
      if !ok {
        return Stopped, k;
      }
      assert eligible[..written] == eligible;
      if !calls.clearedEligible {
        return Stopped, k;
      }
      ClearPendingEvents(CapturedVersions(captured, Eligible(captured, src)));
      assert plan[..k + 1][..k] == plan[..k];
      k := k + 1;
      if !calls.clearedDiscardable {
        return Stopped, k;
      }
      ClearPendingEvents(CapturedVersions(captured, Discardable(captured, src)));
      assert plan[..k + 1][..k] == plan[..k];
      k := k + 1;
      assert plan[..k] == plan;
      outcome := Done;
    }
  }

  lemma BatchMeans(d: Disk, captured: Queue, order: seq<Path>, src: Source, after: Disk)
    requires NamesItsPath(src) && Enumerates(order, Eligible(captured, src)) && after == ApplyAll(d, Plan(captured, order, src))
    ensures captured == d.pending ==> WholeQueueDone(d, after, src)
  {
    if captured == d.pending {
      WholePlan(d, order, src);
    }
  }

  /** When nothing is eligible, the plan comes down to its last write. */
  lemma NothingEligible(d: Disk, captured: Queue, src: Source)
    requires Enumerates([], Eligible(captured, src))
    ensures ApplyAll(d, Plan(captured, [], src)) ==
            d.(pending := Cleared(d.pending, CapturedVersions(captured, Discardable(captured, src))))
  {
    var first, last := ClearExact(CapturedVersions(captured, {})), ClearExact(CapturedVersions(captured, Discardable(captured, src)));
    assert Eligible(captured, src) == {};
    assert Plan(captured, [], src) == [Upload({})] + [first, last];
    ApplyAppend(d, [Upload({})], [first, last]);
    ApplyTwo(d, Upload({}), first);
    ApplyTwo(d, first, last);
    assert Cleared(d.pending, first.batch) == d.pending;
    assert d.remote + {} == d.remote;
  }

  /** The records of a prefix of the queue are a prefix of the records. */
  lemma {:induction false} RecordsLength(order: seq<Path>, src: Source, i: nat)
    requires i <= |order|
    ensures |Records(order[..i], src)| <= |Records(order, src)|
    ensures Records(order, src)[..|Records(order[..i], src)|] == Records(order[..i], src)
    decreases |order| - i
  {
    if i == |order| {
      assert order[..i] == order;
    } else {
      RecordsLength(order, src, i + 1);
      assert order[..i + 1][..i] == order[..i];
    }
  }
}
