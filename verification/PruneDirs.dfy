/** Removing the directories a prune emptied: which ancestors are tried, in what
    order, and which of them go. A directory is the list of its components. */
module PruneDirs {
  import opened Text
  import opened Lists
  import opened Sorting

  type Components = seq<string>

  /** The accepted frozen targets: relative, clean, and free of line breaks. */
  predicate ValidTarget(rel: string) {
    && (forall c | c in rel :: c != '\r' && c != '\n' && c != '\0')
    && ValidComponents(Split(rel, '/'))
  }

  predicate ValidComponents(cs: Components) {
    cs != [] && forall c | c in cs :: c != "" && c != "." && c != ".."
  }

  /** Strictly beneath. */
  predicate Beneath(x: Components, dir: Components) { |dir| < |x| && x[..|dir|] == dir }

  predicate IsAncestor(dir: Components, target: string) { dir != [] && Beneath(Split(target, '/'), dir) }

  /** A proper ancestor of one of the targets, the root excluded. */
  predicate TargetAncestor(targets: set<string>, dir: Components) {
    exists t :: t in targets && IsAncestor(dir, t)
  }

  function TargetFiles(targets: set<string>): set<Components> { set t | t in targets :: Split(t, '/') }

  /** Deepest first, names breaking ties. */
  function DeepestFirst(nameLess: (Components, Components) -> bool): (Components, Components) -> bool {
    (a, b) => |a| > |b| || (|a| == |b| && nameLess(a, b))
  }

  lemma DeepestFirstIsOrder(all: set<Components>, nameLess: (Components, Components) -> bool)
    requires StrictOrder(all, nameLess)
    ensures StrictOrder(all, DeepestFirst(nameLess))
  {
  }

  method AddAncestors(cs: Components, seen: set<Components>) returns (all: set<Components>)
    ensures forall dir :: dir in all <==> dir in seen || (dir != [] && Beneath(cs, dir))
  {
    all := seen;
    if cs == [] {
      return;
    }
    var dir := cs[..|cs| - 1];
    while dir != []
      invariant |dir| < |cs| && dir == cs[..|dir|]
      invariant forall d :: d in all <==> d in seen || (|d| > |dir| && Beneath(cs, d))
    {
      all := all + {dir};
      assert dir[..|dir| - 1] == cs[..|dir| - 1];
      dir := dir[..|dir| - 1];
    }
  }

  /** Every proper ancestor of a target is listed once, every directory before
      the directories above it, and the root never. */
  method PruneTargetAncestorDirs(targets: seq<string>, nameLess: (Components, Components) -> bool)
    returns (ok: bool, dirs: seq<Components>)
    requires forall all: set<Components> :: StrictOrder(all, nameLess)
    ensures ok <==> forall t | t in targets :: ValidTarget(t)
    ensures ok ==> forall dir :: dir in dirs <==> TargetAncestor(SetOf(targets), dir)
    ensures ok ==> Distinct(dirs) && [] !in dirs && forall i, j | 0 <= i < j < |dirs| :: !Beneath(dirs[j], dirs[i])
  {
    var seen: set<Components> := {};
    for k := 0 to |targets|
      invariant forall t | t in targets[..k] :: ValidTarget(t)
      invariant forall dir :: dir in seen <==> TargetAncestor(SetOf(targets[..k]), dir)
    {
      if !ValidTarget(targets[k]) {
        return false, [];
      }
      SetOfPrefix(targets, k);
      seen := AddAncestors(Split(targets[k], '/'), seen);
    }
    assert targets[..|targets|] == targets;
    var listed := ListSet(seen);
    assert forall d | d in listed :: d in SetOf(listed);
    DeepestFirstIsOrder(seen, nameLess);
    SortKeeps(listed, DeepestFirst(nameLess), seen);
    dirs := Sort(listed, DeepestFirst(nameLess));
    assert forall i | 0 <= i < |dirs| :: dirs[i] in dirs;
    ok := true;
  }

  // ----- the directory pass -----

  /** The remote below the profile root. */
  datatype Tree = Tree(files: set<Components>, dirs: set<Components>)

  predicate Empty(t: Tree, dir: Components) {
    (forall f | f in t.files :: !Beneath(f, dir)) && forall d | d in t.dirs :: !Beneath(d, dir)
  }

  /** A directory goes when the pass tries it and it holds no file at all and no
      directory that the pass does not try as well. */
  predicate Emptied(t: Tree, tried: set<Components>, dir: Components) {
    && dir in tried && dir in t.dirs
    && (forall f | f in t.files :: !Beneath(f, dir))
    && (forall d | d in t.dirs && Beneath(d, dir) :: d in tried)
  }

  function Cleaned(t: Tree, tried: set<Components>): Tree {
    t.(dirs := set d | d in t.dirs && !Emptied(t, tried, d))
  }

  /** How one rmdir call can end besides removing an empty directory. */
  datatype Outcome = Proceeds | HardError

  /** Deepest directories first. */
  ghost predicate DescendantsFirst(dirs: seq<Components>) {
    forall i, j | 0 <= i < j < |dirs| :: !Beneath(dirs[j], dirs[i])
  }

  lemma BeneathTransitive(x: Components, d: Components, dir: Components)
    requires Beneath(x, d) && Beneath(d, dir)
    ensures Beneath(x, dir)
  {
    assert x[..|dir|] == x[..|d|][..|dir|];
  }

  /** Whether the next directory is empty once the earlier emptied ones are gone. */
  lemma EmptyWhenReached(t: Tree, dirs: seq<Components>, k: nat, now: Tree)
    requires k < |dirs| && DescendantsFirst(dirs) && Distinct(dirs)
    requires now.files == t.files
    requires now.dirs == set d | d in t.dirs && !(d in SetOf(dirs[..k]) && Emptied(t, SetOf(dirs), d))
    ensures dirs[k] in now.dirs <==> dirs[k] in t.dirs
    ensures dirs[k] in t.dirs ==> (Empty(now, dirs[k]) <==> Emptied(t, SetOf(dirs), dirs[k]))
  {
    var dir := dirs[k];
    SetOfPrefix(dirs, k);
    if dir in t.dirs && Emptied(t, SetOf(dirs), dir) {
      forall d | d in t.dirs && Beneath(d, dir)
        ensures d !in now.dirs
      {
        assert d in dirs;
        var i :| 0 <= i < |dirs| && dirs[i] == d;
        assert i < k;
        assert d in SetOf(dirs[..k]) by {
          assert dirs[..k][i] == d;
        }
        forall x | x in t.files && Beneath(x, d)
          ensures Beneath(x, dir)
        {
          BeneathTransitive(x, d, dir);
        }
        forall x | x in t.dirs && Beneath(x, d)
          ensures x in SetOf(dirs)
        {
          BeneathTransitive(x, d, dir);
        }
      }
    }
    if dir in t.dirs && Empty(now, dir) {
      forall d | d in t.dirs && Beneath(d, dir)
        ensures d in SetOf(dirs)
      {
        assert d !in now.dirs;
      }
    }
  }

  /** Tries the directories in order. Without a hard error the tree is cleaned
      completely; after one, only emptied directories are gone. */
  method CleanupPruneEmptyDirs(t: Tree, dirs: seq<Components>, outcome: Components -> Outcome)
    returns (ok: bool, now: Tree)
    requires DescendantsFirst(dirs) && Distinct(dirs)
    ensures ok ==> now == Cleaned(t, SetOf(dirs))
    ensures now.files == t.files && Cleaned(t, SetOf(dirs)).dirs <= now.dirs <= t.dirs
    ensures (forall d :: outcome(d).Proceeds?) ==> ok
  {
    now := t;
    for k := 0 to |dirs|
      invariant now.files == t.files
      invariant now.dirs == set d | d in t.dirs && !(d in SetOf(dirs[..k]) && Emptied(t, SetOf(dirs), d))
    {
      EmptyWhenReached(t, dirs, k, now);
      SetOfPrefix(dirs, k);
      if outcome(dirs[k]).HardError? {
        return false, now;
      }
      if dirs[k] in now.dirs && Empty(now, dirs[k]) {
        now := now.(dirs := now.dirs - {dirs[k]});
      }
    }
    assert dirs[..|dirs|] == dirs;
    ok := true;
  }

  /** Read from inside: after the pass a tried directory is still there exactly
      when a file, or a directory that is still there, lies beneath it. */
  lemma SurvivesIffSomethingRemains(t: Tree, tried: set<Components>, dir: Components)
    requires dir in tried && dir in t.dirs
    ensures dir in Cleaned(t, tried).dirs <==> !Empty(Cleaned(t, tried), dir)
  {
    var after := Cleaned(t, tried);
    if dir !in after.dirs {
      forall d | d in t.dirs && Beneath(d, dir)
        ensures d !in after.dirs
      {
        forall x | (x in t.files || x in t.dirs) && Beneath(x, d)
          ensures Beneath(x, dir)
        {
          BeneathTransitive(x, d, dir);
        }
      }
    } else if Empty(after, dir) {
      forall d | d in t.dirs && Beneath(d, dir)
        ensures d in tried
      {
        assert d !in after.dirs;
      }
    }
  }

  /** Read from the request: with all targets gone from `before`, an ancestor
      survives exactly when a file that is no target, or a directory that is no
      target ancestor, lies beneath it. */
  lemma AncestorSurvivesIff(before: Tree, targets: set<string>, tried: set<Components>, dir: Components)
    requires forall d :: d in tried <==> TargetAncestor(targets, d)
    requires dir in tried && dir in before.dirs
    ensures var gone := TargetFiles(targets);
            dir in Cleaned(before.(files := before.files - gone), tried).dirs <==>
            || (exists f :: f in before.files && f !in gone && Beneath(f, dir))
            || (exists d :: d in before.dirs && !TargetAncestor(targets, d) && Beneath(d, dir))
  {
    var gone := TargetFiles(targets);
    var after := before.(files := before.files - gone);
    assert dir in Cleaned(after, tried).dirs <==> !Emptied(after, tried, dir);
    assert forall f :: f in after.files <==> f in before.files && f !in gone;
  }

  /** A pass cut short by an error can be repeated over the same list: it ends
      where the uninterrupted pass would have ended. */
  lemma RepeatedPassAgrees(t: Tree, tried: set<Components>, partial: Tree)
    requires partial.files == t.files && Cleaned(t, tried).dirs <= partial.dirs <= t.dirs
    ensures Cleaned(partial, tried) == Cleaned(t, tried)
  {
    forall d | d in partial.dirs
      ensures Emptied(partial, tried, d) <==> Emptied(t, tried, d)
    {
      if Emptied(partial, tried, d) {
        forall x | x in t.dirs && Beneath(x, d)
          ensures x in tried
        {
          assert x in partial.dirs || Emptied(t, tried, x);
        }
      }
    }
  }
}
