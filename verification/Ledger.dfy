/** The managed ledger: what the profile believes it owns on the remote, how a
    scan is applied to it, and how a policy refresh reclassifies it. */
module Ledger {
  import opened Rows

  datatype RowState = Active | Suppressed | Protected

  datatype LedgerRow = LedgerRow(size: int, modTime: int, state: RowState,
                                 suppressedHash: Option<Hash>, suppressedGeneration: Option<int>)

  type Ledger = map<Path, LedgerRow>

  /** One eligible file of a scan. */
  datatype Entry = Entry(path: Path, size: int, modTime: int)

  function PathsOf(entries: seq<Entry>): set<Path> { set i | 0 <= i < |entries| :: entries[i].path }

  ghost predicate IsActive(m: Ledger, p: Path) { p in m && m[p].state.Active? }

  ghost predicate IsSuppressed(m: Ledger, p: Path) { p in m && m[p].state.Suppressed? }

  function ActivePaths(m: Ledger): set<Path> { set p | p in m && m[p].state.Active? }

  // ----- single-row writes -----

  /** The fast lane's write: the managed state of an existing row is preserved. */
  function Upsert(m: Ledger, e: Entry): Ledger {
    m[e.path := if e.path in m then
                  (if m[e.path].state.Suppressed? then m[e.path].(size := e.size, modTime := e.modTime)
                   else LedgerRow(e.size, e.modTime, m[e.path].state, None, None))
                else LedgerRow(e.size, e.modTime, Active, None, None)]
  }

  /** The full scan's write: everything but a suppressed row becomes active. */
  function ApplyEntry(m: Ledger, e: Entry): Ledger {
    m[e.path := if e.path in m && m[e.path].state.Suppressed?
                then m[e.path].(size := e.size, modTime := e.modTime)
                else LedgerRow(e.size, e.modTime, Active, None, None)]
  }

  function ApplyEntries(m: Ledger, entries: seq<Entry>): Ledger {
    if entries == [] then m else ApplyEntry(ApplyEntries(m, entries[..|entries| - 1]), entries[|entries| - 1])
  }

  /** Active rows outside the desired set are stale; every other row survives. */
  function DropStale(m: Ledger, desired: set<Path>): Ledger {
    map p | p in m && (!m[p].state.Active? || p in desired) :: m[p]
  }

  function Applied(m: Ledger, entries: seq<Entry>): Ledger { DropStale(ApplyEntries(m, entries), PathsOf(entries)) }

  // ----- policy refresh -----

  function Suppress(m: Ledger, keep: set<Path>, hash: Hash, generation: int): Ledger {
    map p | p in m :: if m[p].state.Active? && p !in keep
                      then m[p].(state := Suppressed, suppressedHash := Some(hash), suppressedGeneration := Some(generation))
                      else m[p]
  }

  function Reactivate(m: Ledger, paths: set<Path>): Ledger {
    map p | p in m :: if m[p].state.Suppressed? && p in paths
                      then m[p].(state := Active, suppressedHash := None, suppressedGeneration := None)
                      else m[p]
  }

  function Refreshed(m: Ledger, active: set<Path>, proven: set<Path>, hash: Hash, generation: int): Ledger {
    Reactivate(Suppress(m, active + proven, hash, generation), active)
  }

  // ----- classification of disappearances -----

  /** Durable destructive evidence that the path went away under an earlier policy. */
  predicate PriorPolicyDelete(pending: map<Path, PendingRow>, hash: Hash, p: Path) {
    p in pending && pending[p].kind.Destructive() && pending[p].observed.Some? && pending[p].observed.value != hash
  }

  /** Active paths absent from the scan that are proven ordinary deletions. */
  ghost function Classified(m: Ledger, pending: map<Path, PendingRow>, hash: Hash, active: set<Path>,
                            ignored: iset<Path>): set<Path> {
    set p | p in m && m[p].state.Active? && p !in active && (p !in ignored || PriorPolicyDelete(pending, hash, p))
  }

  class LedgerStore {
    var manifest: Ledger

    constructor ()
      ensures manifest == map[]
    {
      manifest := map[];
    }

    method ManifestUpsert(e: Entry)
      modifies this
      ensures manifest == Upsert(old(manifest), e)
    {
      if e.path !in manifest {
        manifest := manifest[e.path := LedgerRow(e.size, e.modTime, Active, None, None)];
      } else {
        var row := manifest[e.path];
        row := row.(size := e.size, modTime := e.modTime);
        if !row.state.Suppressed? {
          row := row.(suppressedHash := None, suppressedGeneration := None);
        }
        manifest := manifest[e.path := row];
      }
    }

    method ManifestApply(entries: seq<Entry>)
      modifies this
      ensures manifest == Applied(old(manifest), entries)
    {
      var seen: set<Path> := {};
      for k := 0 to |entries|
        invariant manifest == ApplyEntries(old(manifest), entries[..k])
        invariant seen == PathsOf(entries[..k])
      {
        var e := entries[k];
        assert entries[..k + 1][..k] == entries[..k];
        seen := seen + {e.path};
        if e.path in manifest && manifest[e.path].state.Suppressed? {
          manifest := manifest[e.path := manifest[e.path].(size := e.size, modTime := e.modTime)];
        } else {
          manifest := manifest[e.path := LedgerRow(e.size, e.modTime, Active, None, None)];
        }
      }
      assert entries[..|entries|] == entries;
      manifest := map p | p in manifest && (!manifest[p].state.Active? || p in seen) :: manifest[p];
    }

    method ApplyManagedRefresh(hash: Hash, generation: int, active: set<Path>, proven: set<Path>)
      modifies this
      ensures manifest == Refreshed(old(manifest), active, proven, hash, generation)
    {
      manifest := Suppress(manifest, active + proven, hash, generation);
      ghost var suppressed := manifest;
      var rest := active;
      while rest != {}
        invariant rest <= active
        invariant manifest == Reactivate(suppressed, active - rest)
        decreases rest
      {
        var p :| p in rest;
        rest := rest - {p};
        if p in manifest && manifest[p].state.Suppressed? {
          manifest := manifest[p := manifest[p].(state := Active, suppressedHash := None, suppressedGeneration := None)];
        }
      }
      assert active - rest == active;
    }

    /** `excluded` is the matcher's answer, asked one path at a time. */
    method ClassifyDisappearances(pending: map<Path, PendingRow>, hash: Hash, active: set<Path>,
                                  excluded: Path -> bool, ghost ignored: iset<Path>) returns (deletes: set<Path>)
      requires forall p :: p in ignored <==> excluded(p)
      ensures deletes == Classified(manifest, pending, hash, active, ignored)
      ensures forall p :: p in deletes <==>
                && p in manifest && manifest[p].state.Active? && p !in active
                && (!excluded(p) || (&& p in pending && (pending[p].kind.Delete? || pending[p].kind.Rename? || pending[p].kind.Other?)
                                     && pending[p].observed.Some? && pending[p].observed.value != hash))
    {
      deletes := {};
      var disappeared := set p | p in manifest && manifest[p].state.Active? && p !in active;
      if disappeared == {} {
        assert forall p | p in Classified(manifest, pending, hash, active, ignored) :: p in disappeared;
        return;
      }
      var events := pending.Keys;
      while events != {}
        invariant events <= pending.Keys
        invariant forall p :: p in deletes <==>
                    && p in pending.Keys - events && p in disappeared && pending[p].kind.Destructive()
                    && pending[p].observed.Some? && (pending[p].observed.value != hash || !excluded(p))
        decreases events
      {
        var p :| p in events;
        events := events - {p};
        var e := pending[p];
        if e.kind.Destructive() && p in disappeared && e.observed.Some? {
          if e.observed.value != hash {
            deletes := deletes + {p};
          } else if !excluded(p) {
            deletes := deletes + {p};
          }
        }
      }
      ghost var proven := deletes;
      var rest := disappeared;
      while rest != {}
        invariant rest <= disappeared
        invariant forall p :: p in deletes <==> p in proven || (p in disappeared - rest && !excluded(p))
        decreases rest
      {
        var p :| p in rest;
        rest := rest - {p};
        if !excluded(p) {
          deletes := deletes + {p};
        }
      }
    }
  }
}
