/** What a policy refresh followed by the ledger apply establishes, and exactly
    when the apply alone is enough. */
module LedgerRefresh {
  import opened Rows
  import opened Ledger

  /** The ledger agrees with the policy in force: nothing active is ignored, and
      what is suppressed is still ignored. */
  ghost predicate Settled(m: Ledger, ignored: iset<Path>) {
    forall p :: p in m ==> (m[p].state.Active? ==> p !in ignored) && (m[p].state.Suppressed? ==> p in ignored)
  }

  ghost predicate OnlySafe(pending: map<Path, PendingRow>) {
    forall p :: p in pending ==> !pending[p].kind.Destructive()
  }

  predicate Disappeared(before: Ledger, after: Ledger, p: Path) { p in before && p !in after }

  // ----- the apply, row by row -----

  lemma {:induction false} ApplyEntriesRows(m: Ledger, entries: seq<Entry>, p: Path)
    ensures p in ApplyEntries(m, entries) <==> p in m || p in PathsOf(entries)
    ensures p !in PathsOf(entries) && p in m ==> ApplyEntries(m, entries)[p] == m[p]
    ensures p in PathsOf(entries) ==>
              && (IsSuppressed(ApplyEntries(m, entries), p) <==> IsSuppressed(m, p))
              && (IsActive(ApplyEntries(m, entries), p) <==> !IsSuppressed(m, p))
              && (IsSuppressed(m, p) ==>
                    ApplyEntries(m, entries)[p].suppressedHash == m[p].suppressedHash)
  {
    if entries == [] {
    } else {
      var init, last := entries[..|entries| - 1], entries[|entries| - 1];
      ApplyEntriesRows(m, init, p);
      assert PathsOf(entries) == PathsOf(init) + {last.path} by {
        assert entries == init + [last];
      }
    }
  }

  /** The scan owns every active row afterwards, except the paths whose row is
      suppressed; a suppressed or protected row is never dropped. */
  lemma AppliedRows(m: Ledger, entries: seq<Entry>, p: Path)
    ensures IsActive(Applied(m, entries), p) <==> p in PathsOf(entries) && !IsSuppressed(m, p)
    ensures IsSuppressed(Applied(m, entries), p) <==> IsSuppressed(m, p)
    ensures IsSuppressed(m, p) ==> Applied(m, entries)[p].suppressedHash == m[p].suppressedHash
    ensures p in m && m[p].state.Protected? && p !in PathsOf(entries) ==>
              p in Applied(m, entries) && Applied(m, entries)[p] == m[p]
    ensures Disappeared(m, Applied(m, entries), p) <==> IsActive(m, p) && p !in PathsOf(entries)
  {
    ApplyEntriesRows(m, entries, p);
  }

  lemma RefreshedRows(m: Ledger, active: set<Path>, proven: set<Path>, hash: Hash, generation: int, p: Path)
    requires active !! proven
    ensures p in Refreshed(m, active, proven, hash, generation) <==> p in m
    ensures IsActive(Refreshed(m, active, proven, hash, generation), p) <==>
              (IsActive(m, p) && p in active + proven) || (IsSuppressed(m, p) && p in active)
    ensures IsSuppressed(Refreshed(m, active, proven, hash, generation), p) <==>
              p !in active && (IsSuppressed(m, p) || (IsActive(m, p) && p !in proven))
    ensures p in m && m[p].state.Protected? ==> Refreshed(m, active, proven, hash, generation)[p] == m[p]
  {
  }

  // ----- what a row records -----

  ghost predicate Records(m: Ledger, p: Path, size: int, modTime: int) { p in m && m[p].size == size && m[p].modTime == modTime }

  /** The fast lane's write records size and time, keeps the state of a known row,
      makes an unknown one active, and touches no other row. */
  lemma UpsertedRow(m: Ledger, e: Entry, p: Path)
    ensures Records(Upsert(m, e), e.path, e.size, e.modTime)
    ensures Upsert(m, e)[e.path].state == if e.path in m then m[e.path].state else Active
    ensures IsSuppressed(m, e.path) ==> Upsert(m, e)[e.path].suppressedHash == m[e.path].suppressedHash
    ensures p != e.path ==> (p in Upsert(m, e) <==> p in m) && (p in m ==> Upsert(m, e)[p] == m[p])
  {
  }

  lemma {:induction false} ApplyEntriesRecord(m: Ledger, entries: seq<Entry>, i: nat)
    requires i < |entries| && forall j | i < j < |entries| :: entries[j].path != entries[i].path
    ensures Records(ApplyEntries(m, entries), entries[i].path, entries[i].size, entries[i].modTime)
  {
    var init := entries[..|entries| - 1];
    if i < |init| {
      ApplyEntriesRecord(m, init, i);
    }
  }

  /** After an apply every scanned path records the size and time of its last
      entry, active or suppressed. */
  lemma AppliedRowsRecord(m: Ledger, entries: seq<Entry>, i: nat)
    requires i < |entries| && forall j | i < j < |entries| :: entries[j].path != entries[i].path
    ensures Records(Applied(m, entries), entries[i].path, entries[i].size, entries[i].modTime)
  {
    ApplyEntriesRecord(m, entries, i);
    assert entries[i].path in PathsOf(entries);
  }

  /** A refresh changes no size or time; what it suppresses carries its policy and
      generation, and what it reactivates carries none. */
  lemma RefreshedRowsRecord(m: Ledger, active: set<Path>, proven: set<Path>, hash: Hash, generation: int, p: Path)
    requires active !! proven && p in m
    ensures Records(Refreshed(m, active, proven, hash, generation), p, m[p].size, m[p].modTime)
    ensures var row := Refreshed(m, active, proven, hash, generation)[p];
            && (m[p].state.Active? && row.state.Suppressed? ==>
                  row.suppressedHash == Some(hash) && row.suppressedGeneration == Some(generation))
            && (m[p].state.Suppressed? && row.state.Active? ==> row.suppressedHash.None? && row.suppressedGeneration.None?)
            && (row.state == m[p].state ==> row == m[p])
  {
  }

  // ----- a policy refresh and the apply on one stable scan -----

  /** With refresh debt, one stable scan decides everything: the active set
      becomes the scan, everything else the profile owned is suppressed unless
      it was a proven delete, and a row goes away exactly when this attempt
      deleted its remote object. Rows suppressed now carry the policy that
      suppressed them; older suppressions keep theirs. */
  lemma RefreshThenApply(m: Ledger, entries: seq<Entry>, pending: map<Path, PendingRow>, hash: Hash,
                         generation: int, ignored: iset<Path>)
    ensures var active := PathsOf(entries);
            var deleted := Classified(m, pending, hash, active, ignored);
            var after := Applied(Refreshed(m, active, deleted, hash, generation), entries);
            && ActivePaths(after) == active
            && (forall p :: IsSuppressed(after, p) <==>
                              (IsSuppressed(m, p) || IsActive(m, p)) && p !in active + deleted)
            && (forall p :: Disappeared(m, after, p) <==> p in deleted)
            && (forall p :: IsActive(m, p) && IsSuppressed(after, p) ==>
                              p in ignored && after[p].suppressedHash == Some(hash))
            && (forall p :: IsSuppressed(m, p) && IsSuppressed(after, p) ==>
                              after[p].suppressedHash == m[p].suppressedHash)
            && (forall p :: p in m && m[p].state.Protected? && p !in active ==> p in after && after[p] == m[p])
  {
    var active := PathsOf(entries);
    var deleted := Classified(m, pending, hash, active, ignored);
    var refreshed := Refreshed(m, active, deleted, hash, generation);
    forall p
      ensures IsActive(Applied(refreshed, entries), p) <==> p in active
      ensures IsSuppressed(Applied(refreshed, entries), p) <==>
                (IsSuppressed(m, p) || IsActive(m, p)) && p !in active + deleted
      ensures Disappeared(m, Applied(refreshed, entries), p) <==> p in deleted
      ensures IsSuppressed(refreshed, p) ==>
                Applied(refreshed, entries)[p].suppressedHash == refreshed[p].suppressedHash
      ensures p in m && m[p].state.Protected? && p !in active ==>
                p in Applied(refreshed, entries) && Applied(refreshed, entries)[p] == m[p]
    {
      RefreshedRows(m, active, deleted, hash, generation, p);
      AppliedRows(refreshed, entries, p);
    }
    var after := Applied(refreshed, entries);
    assert forall p :: p in ActivePaths(after) <==> IsActive(after, p);
  }

  /** A refresh leaves no active row under the policy, and when no destructive
      event is queued its deletes are exactly the unignored disappearances. */
  lemma RefreshSettlesActive(m: Ledger, entries: seq<Entry>, pending: map<Path, PendingRow>, hash: Hash,
                             generation: int, ignored: iset<Path>)
    requires forall p :: p in PathsOf(entries) ==> p !in ignored
    requires OnlySafe(pending)
    ensures var active := PathsOf(entries);
            var deleted := Classified(m, pending, hash, active, ignored);
            && (forall p :: p in deleted <==> IsActive(m, p) && p !in active && p !in ignored)
            && (forall p :: IsActive(Refreshed(m, active, deleted, hash, generation), p) ==> p !in ignored)
  {
    var active := PathsOf(entries);
    var deleted := Classified(m, pending, hash, active, ignored);
    forall p | IsActive(Refreshed(m, active, deleted, hash, generation), p)
      ensures p !in ignored
    {
      RefreshedRows(m, active, deleted, hash, generation, p);
    }
  }

  // ----- the apply alone, when no refresh is owed -----

  /** Without refresh debt the same result needs exactly two facts: no scanned
      path still carries a suppressed row, and every active row missing from the
      scan was a proven delete. */
  lemma ApplyWithoutRefresh(m: Ledger, entries: seq<Entry>, pending: map<Path, PendingRow>, hash: Hash,
                            ignored: iset<Path>)
    ensures var active := PathsOf(entries);
            var deleted := Classified(m, pending, hash, active, ignored);
            var after := Applied(m, entries);
            && (ActivePaths(after) == active <==> forall p :: p in active ==> !IsSuppressed(m, p))
            && ((forall p :: Disappeared(m, after, p) <==> p in deleted) <==>
                  forall p :: IsActive(m, p) && p !in active ==> p in deleted)
            && (forall p :: IsSuppressed(after, p) <==> IsSuppressed(m, p))
  {
    var active := PathsOf(entries);
    var after := Applied(m, entries);
    forall p
      ensures IsActive(after, p) <==> p in active && !IsSuppressed(m, p)
      ensures IsSuppressed(after, p) <==> IsSuppressed(m, p)
      ensures Disappeared(m, after, p) <==> IsActive(m, p) && p !in active
    {
      AppliedRows(m, entries, p);
    }
    assert forall p :: p in ActivePaths(after) <==> IsActive(after, p);
  }

  /** A settled ledger has both facts for every scan the policy allows. */
  lemma SettledNeedsNoRefresh(m: Ledger, entries: seq<Entry>, pending: map<Path, PendingRow>, hash: Hash,
                              ignored: iset<Path>)
    requires Settled(m, ignored)
    requires forall p :: p in PathsOf(entries) ==> p !in ignored
    ensures var deleted := Classified(m, pending, hash, PathsOf(entries), ignored);
            && ActivePaths(Applied(m, entries)) == PathsOf(entries)
            && (forall p :: Disappeared(m, Applied(m, entries), p) <==> p in deleted)
            && Settled(Applied(m, entries), ignored)
  {
    ApplyWithoutRefresh(m, entries, pending, hash, ignored);
    forall p | p in Applied(m, entries)
      ensures Applied(m, entries)[p].state.Active? ==> p !in ignored
      ensures Applied(m, entries)[p].state.Suppressed? ==> p in ignored
    {
      AppliedRows(m, entries, p);
    }
  }

  /** A refresh settles a ledger exactly when no older suppression names a path
      that the new policy allows but the scan did not see. */
  lemma WhatSettles(m: Ledger, entries: seq<Entry>, pending: map<Path, PendingRow>, hash: Hash,
                    generation: int, ignored: iset<Path>)
    requires forall p :: p in PathsOf(entries) ==> p !in ignored
    ensures var active := PathsOf(entries);
            var deleted := Classified(m, pending, hash, active, ignored);
            Settled(Applied(Refreshed(m, active, deleted, hash, generation), entries), ignored) <==>
            forall p :: IsSuppressed(m, p) && p !in active ==> p in ignored
  {
    var active := PathsOf(entries);
    var deleted := Classified(m, pending, hash, active, ignored);
    var after := Applied(Refreshed(m, active, deleted, hash, generation), entries);
    RefreshThenApply(m, entries, pending, hash, generation, ignored);
    assert forall p :: p in ActivePaths(after) <==> IsActive(after, p);
    if Settled(after, ignored) {
      forall p | IsSuppressed(m, p) && p !in active
        ensures p in ignored
      {
        assert IsSuppressed(after, p);
      }
    }
    if forall p :: IsSuppressed(m, p) && p !in active ==> p in ignored {
      forall p | p in after
        ensures after[p].state.Active? ==> p !in ignored
        ensures after[p].state.Suppressed? ==> p in ignored
      {
        assert after[p].state.Active? ==> p in ActivePaths(after);
        assert after[p].state.Suppressed? ==> IsSuppressed(after, p);
      }
    }
  }

  /** The failing family: a path suppressed under an earlier policy, absent when
      a policy that allows it is refreshed, and scanned again later. Its row
      stays suppressed although the file is eligible and uploaded, so its later
      local deletion is never proven. */
  lemma RevivedFileStaysSuppressed(m: Ledger, first: seq<Entry>, second: seq<Entry>, third: seq<Entry>,
                                   pending: map<Path, PendingRow>, hash: Hash, generation: int,
                                   ignored: iset<Path>, p: Path)
    requires IsSuppressed(m, p) && p !in ignored
    requires p !in PathsOf(first) && p in PathsOf(second) && p !in PathsOf(third)
    ensures var refreshed := Refreshed(m, PathsOf(first), Classified(m, pending, hash, PathsOf(first), ignored), hash, generation);
            var after := Applied(Applied(refreshed, first), second);
            && IsSuppressed(after, p)
            && ActivePaths(after) != PathsOf(second)
            && p !in Classified(after, pending, hash, PathsOf(third), ignored)
  {
    var deleted := Classified(m, pending, hash, PathsOf(first), ignored);
    var refreshed := Refreshed(m, PathsOf(first), deleted, hash, generation);
    RefreshedRows(m, PathsOf(first), deleted, hash, generation, p);
    AppliedRows(refreshed, first, p);
    AppliedRows(Applied(refreshed, first), second, p);
    var after := Applied(Applied(refreshed, first), second);
    assert p !in ActivePaths(after);
  }

  // ----- the ledger is applied from a later scan -----

  /** The ledger is rebuilt from a scan of its own. A row then goes away exactly
      when its remote object was deleted if and only if every owned path the
      first scan saw is seen again and no deleted path has come back. */
  lemma RescanDecides(m: Ledger, scanned: seq<Entry>, rescanned: seq<Entry>, pending: map<Path, PendingRow>,
                      hash: Hash, generation: int, ignored: iset<Path>)
    ensures var active := PathsOf(scanned);
            var deleted := Classified(m, pending, hash, active, ignored);
            var after := Applied(Refreshed(m, active, deleted, hash, generation), rescanned);
            (forall p :: Disappeared(m, after, p) <==> p in deleted) <==>
            && (forall p :: p in active && (IsActive(m, p) || IsSuppressed(m, p)) ==> p in PathsOf(rescanned))
            && deleted !! PathsOf(rescanned)
  {
    var active := PathsOf(scanned);
    var deleted := Classified(m, pending, hash, active, ignored);
    var refreshed := Refreshed(m, active, deleted, hash, generation);
    var after := Applied(refreshed, rescanned);
    forall p
      ensures Disappeared(m, after, p) <==>
                && p !in PathsOf(rescanned)
                && ((IsActive(m, p) && p in active + deleted) || (IsSuppressed(m, p) && p in active))
    {
      RefreshedRows(m, active, deleted, hash, generation, p);
      AppliedRows(refreshed, rescanned, p);
    }
  }
}
