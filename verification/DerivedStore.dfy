/** The compiler state row and the generation directories, updated in place. */
module DerivedStore {
  import opened Rows
  import opened RetryPolicy
  import opened DerivedLane
  import opened Lists
  import opened Sorting

  type NameOrder = (GenId, GenId) -> bool

  /** Newest first; names break ties, so the order is total. */
  function NewestFirst(dirs: Dirs, nameLess: NameOrder): (GenId, GenId) -> bool {
    (a, b) => a in dirs && b in dirs && Newer(dirs, a, b, nameLess)
  }

  lemma NewestFirstIsOrder(dirs: Dirs, nameLess: NameOrder)
    requires StrictOrder(dirs.Keys, nameLess)
    ensures StrictOrder(dirs.Keys, NewestFirst(dirs, nameLess))
  {
  }

  class Store {
    var dirs: Dirs
    var pointer: Option<GenId>

    constructor ()
      ensures dirs == map[] && pointer == None
    {
      dirs, pointer := map[], None;
    }

    method ListOthers(current: GenId, protected: Option<GenId>) returns (listed: seq<GenId>)
      ensures Distinct(listed) && SetOf(listed) == Others(dirs, current, protected)
    {
      listed := [];
      var rest := dirs.Keys;
      while rest != {}
        invariant rest <= dirs.Keys && Distinct(listed)
        invariant SetOf(listed) == Others(dirs, current, protected) - rest
        decreases rest
      {
        var g :| g in rest;
        rest := rest - {g};
        SetOfAppend(listed, g);
        if g != current && Some(g) != protected {
          listed := listed + [g];
        }
      }
    }

    /** Removes the listed directories in order until one removal fails. */
    method RemoveAll(names: seq<GenId>, fails: GenId -> bool) returns (ok: bool, ghost gone: set<GenId>)
      modifies this`dirs
      ensures dirs == old(dirs) - gone && gone <= SetOf(names)
      ensures ok ==> gone == SetOf(names)
      ensures (forall g :: !fails(g)) ==> ok
    {
      gone := {};
      for k := 0 to |names|
        invariant dirs == old(dirs) - gone && gone == SetOf(names[..k])
      {
        if fails(names[k]) {
          return false, gone;
        }
        SetOfPrefix(names, k);
        dirs := dirs - {names[k]};
        gone := gone + {names[k]};
      }
      assert names[..|names|] == names;
      ok := true;
    }

    /** Removes all but the current, the protected and the newest other
        directory; `fails` says which removal fails, which ends the pass. */
    method BestEffortGC(current: GenId, protected: Option<GenId>, nameLess: NameOrder, fails: GenId -> bool)
      returns (ok: bool)
      requires StrictOrder(dirs.Keys, nameLess)
      modifies this`dirs
      ensures CollectedTo(old(dirs), dirs, current, protected, nameLess)
      ensures ok ==> forall g, x | g in Others(dirs, current, protected) && x in Others(dirs, current, protected) :: g == x
      ensures (forall g :: !fails(g)) ==> ok
    {
      var listed := ListOthers(current, protected);
      var order := Sort(listed, NewestFirst(dirs, nameLess));
      SortedOthers(dirs, nameLess, listed, Others(dirs, current, protected));
      ok := true;
      ghost var gone: set<GenId> := {};
      if |order| > 1 {
        ok, gone := RemoveAll(order[1..], fails);
      }
      RestCollected(old(dirs), dirs, current, protected, nameLess, order, gone);
      if ok {
        RestGone(old(dirs), dirs, current, protected, order, gone);
      }
    }
  }

  lemma SortedOthers(dirs: Dirs, nameLess: NameOrder, listed: seq<GenId>, others: set<GenId>)
    requires StrictOrder(dirs.Keys, nameLess) && others <= dirs.Keys && Distinct(listed) && SetOf(listed) == others
    ensures var order := Sort(listed, NewestFirst(dirs, nameLess));
            Sorted(order, NewestFirst(dirs, nameLess)) && SetOf(order) == others
  {
    NewestFirstIsOrder(dirs, nameLess);
    assert forall g | g in listed :: g in SetOf(listed);
    SortKeeps(listed, NewestFirst(dirs, nameLess), dirs.Keys);
  }

  /** Removing some of the rest of the newest-first order is a collection. */
  lemma RestCollected(dirs: Dirs, after: Dirs, current: GenId, protected: Option<GenId>, nameLess: NameOrder,
                      order: seq<GenId>, gone: set<GenId>)
    requires StrictOrder(dirs.Keys, nameLess)
    requires Sorted(order, NewestFirst(dirs, nameLess)) && SetOf(order) == Others(dirs, current, protected)
    requires after == dirs - gone && gone <= if |order| > 1 then SetOf(order[1..]) else {}
    ensures CollectedTo(dirs, after, current, protected, nameLess)
    ensures order != [] ==> SetOf(order[1..]) == Others(dirs, current, protected) - {order[0]}
  {
    NewestFirstIsOrder(dirs, nameLess);
    if order != [] {
      NewestIsFirst(dirs, nameLess, order, Others(dirs, current, protected));
    }
  }

  /** Removing all of it leaves at most one other directory. */
  lemma RestGone(dirs: Dirs, after: Dirs, current: GenId, protected: Option<GenId>, order: seq<GenId>, gone: set<GenId>)
    requires SetOf(order) == Others(dirs, current, protected) && after == dirs - gone
    requires order != [] ==> SetOf(order[1..]) == Others(dirs, current, protected) - {order[0]}
    requires gone == if |order| > 1 then SetOf(order[1..]) else {}
    ensures Others(after, current, protected) <= if order == [] then {} else {order[0]}
  {
    assert order == [] ==> SetOf(order) == {};
    assert |order| == 1 ==> order[1..] == [] && SetOf(order[1..]) == {};
    assert Others(after, current, protected) == Others(dirs, current, protected) - gone;
  }

  /** In newest-first order the head is the one directory no other is newer than,
      and it is not among the rest. */
  lemma NewestIsFirst(dirs: Dirs, nameLess: NameOrder, order: seq<GenId>, others: set<GenId>)
    requires others <= dirs.Keys && StrictOrder(dirs.Keys, NewestFirst(dirs, nameLess))
    requires Sorted(order, NewestFirst(dirs, nameLess)) && order != [] && SetOf(order) == others
    ensures SetOf(order[1..]) == others - {order[0]}
    ensures forall g | Newest(dirs, others, g, nameLess) :: g == order[0]
  {
    var less := NewestFirst(dirs, nameLess);
    assert order == [order[0]] + order[1..];
    assert order[0] in SetOf(order);
    assert forall g | g in others :: g in order;
    assert forall i | 0 < i < |order| :: less(order[0], order[i]);
    assert forall g | g in order[1..] :: less(order[0], g) && g != order[0];
  }

  class LaneStore {
    var row: LaneRow
    var runnable: bool

    constructor ()
      ensures row == Created() && runnable
    {
      row, runnable := Created(), true;
    }

    method FinishCompilerRun(generation: GenId)
      modifies this
      ensures row == DerivedLane.FinishCompilerRun(old(row), generation) && runnable == old(runnable)
    {
      row := row.(mode := WantGeneration, desired := Some(generation));
      row := row.(revision := row.revision + 1, derived := DerivedPending);
    }

    method MarkCompilerClean()
      modifies this
      ensures row == DerivedLane.MarkCompilerClean(old(row)) && runnable == old(runnable)
    {
      row := row.(mode := WantAbsent, desired := None, revision := row.revision + 1);
      row := row.(cleaning := true, derived := DerivedPending);
    }

    method ClaimDerivedRun(binding: Binding, now: Time) returns (target: Option<Target>)
      requires row.desired.Some? ==> row.desired.value != ""
      modifies this
      ensures target.Some? <==> runnable && Claimable(old(row), binding, now)
      ensures target.Some? ==> target.value == Desire(old(row), binding) && row == Claim(old(row), binding)
      ensures target.None? ==> row == old(row)
      ensures runnable == old(runnable)
    {
      if !runnable || row.revision == 0 || row.active.Some? {
        return None;
      }
      var current := false;
      if row.mode.WantAbsent? {
        current := row.remote.RemoteAbsent? && row.remoteBinding == Some(binding);
      } else {
        current := row.desired.Some? && row.published == row.desired && row.publishedBinding == Some(binding)
                   && row.remote.RemoteGeneration? && row.remoteBinding == Some(binding);
      }
      if current {
        return None;
      }
      var t := Target(row.mode, row.desired, row.revision, binding);
      var key := TargetKey(t);
      if row.retryKey == Some(key) {
        if row.retryClass == Some(Terminal) || (row.nextRetry.Some? && now < row.nextRetry.value) {
          return None;
        }
      }
      var pin: Option<GenId> := None;
      if !row.mode.WantAbsent? {
        pin := row.desired;
      }
      row := row.(derived := DerivedSyncing, active := pin, retryKey := Some(key), retryClass := None,
                  nextRetry := None, terminal := false);
      return Some(t);
    }

    method FinishDerivedRunSuccess(t: Target)
      modifies this
      ensures row == FinishSuccess(old(row), t) && runnable == old(runnable)
    {
      var remote := RemoteGeneration;
      if t.mode.WantAbsent? {
        remote := RemoteAbsent;
      }
      var derived := DerivedPending;
      if (t.mode.WantAbsent? && row.mode.WantAbsent?)
         || (t.mode.WantGeneration? && row.mode.WantGeneration? && t.generation.Some? && row.desired == t.generation) {
        derived := DerivedCurrent;
      }
      row := row.(published := t.generation, publishedBinding := Some(t.binding), remote := remote,
                  remoteBinding := Some(t.binding), derived := derived);
      row := row.(active := None, retryKey := None, retryClass := None, consecutive := 0, limited := 0,
                  nextRetry := None, terminal := false);
    }

    method FinishDerivedRunFailure(t: Target, retry: RetryClass, now: Time, jitter: int)
      modifies this
      ensures row == FinishFailure(old(row), t, retry, now, jitter) && runnable == old(runnable)
    {
      row := row.(active := None);
      var failures, limited := row.consecutive + 1, row.limited;
      if retry.RetryableLimited? {
        limited := limited + 1;
      }
      var next := Some(now + RetryBackoff(failures, jitter));
      if retry.RetryableLimited? {
        next := Some(now + LimitedRetryBackoff(limited));
      }
      if retry.Terminal? {
        next := None;
      }
      var key := TargetKey(t);
      if row.retryKey == Some(key) || row.retryKey == None {
        row := row.(derived := DerivedFailed, retryClass := Some(retry), consecutive := failures, limited := limited,
                    nextRetry := next, terminal := retry.Terminal?, retryKey := Some(key));
      }
    }

    method RecoverDerivedRuns()
      modifies this
      ensures row == Recover(old(row)) && runnable == old(runnable)
    {
      if row.active.Some? {
        if row.derived.DerivedSyncing? {
          row := row.(derived := DerivedPending);
        }
        row := row.(active := None, retryKey := None, retryClass := None, nextRetry := None);
      }
    }
  }
}
