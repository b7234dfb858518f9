/** Resolving one link against the compiled paths. The candidates come out of a
    map in no particular order; the outcome does not depend on it. */
module LinkResolve {
  import opened Rows
  import opened Text
  import opened Lists
  import opened Sorting
  import opened LinkGraph

  type Order = (Path, Path) -> bool

  /** A link with its fragment removed. `decoded` is the unescaped target, absent
      when unescaping fails; `canonical` is that target joined to the directory
      of the linking note. */
  datatype Fact = Fact(wikilink: bool, decoded: Option<string>, canonical: string)

  /** The extension of the last path element, dot included. */
  function Ext(s: string): string {
    if s == "" || Last(s) == '/' then ""
    else if Last(s) == '.' then "."
    else
      var e := Ext(s[..|s| - 1]);
      if e == "" then "" else e + [Last(s)]
  }

  function TrimSuffix(s: string, suffix: string): string {
    if |suffix| <= |s| && s[|s| - |suffix|..] == suffix then s[..|s| - |suffix|] else s
  }

  /** What a bare wikilink names. */
  function Stem(path: Path): string { TrimSuffix(Base(path), Ext(path)) }

  function Exact(target: string, all: set<Path>, notes: set<Path>): set<Path> {
    (if target in all then {target} else {}) + (if Ext(target) == "" && target + ".md" in notes then {target + ".md"} else {})
  }

  /** The paths a link may mean. */
  function Candidates(f: Fact, all: set<Path>, notes: set<Path>): set<Path> {
    if f.decoded.None? || f.decoded.value == "" then {}
    else if f.wikilink then
      var target := TrimPrefix(f.decoded.value, "./");
      if '/' !in target && Ext(target) == "" then set c | c in notes && Stem(c) == target else Exact(target, all, notes)
    else if HasPrefix(f.decoded.value, "/") || f.canonical == "." || f.canonical == ".." || HasPrefix(f.canonical, "../") then {}
    else Exact(f.canonical, all, notes)
  }

  // ----- what the candidates are -----

  lemma {:induction false} ExtOf(front: string, e: string)
    requires '.' !in e && '/' !in e
    ensures Ext(front + "." + e) == "." + e
    decreases |e|
  {
    var s := front + "." + e;
    if e == "" {
      assert Last(s) == '.';
    } else {
      var init := e[..|e| - 1];
      assert Last(s) == Last(e) && Last(e) in e && s[..|s| - 1] == front + "." + init;
      ExtOf(front, init);
      assert init + [Last(e)] == e;
    }
  }

  lemma {:induction false} NoExt(front: string, name: string)
    requires '.' !in name && '/' !in name && (front == "" || Last(front) == '/')
    ensures Ext(front + name) == ""
    decreases |name|
  {
    var s := front + name;
    if name == "" {
      assert s == front;
    } else {
      var init := name[..|name| - 1];
      assert Last(s) == Last(name) && Last(name) in name && s[..|s| - 1] == front + init;
      NoExt(front, init);
    }
  }

  /** The path is a name in some directory, or at the top. */
  function InDir(dir: string, name: string): Path { if dir == "" then name else dir + "/" + name }

  lemma BaseInDir(dir: string, name: string)
    requires '/' !in name
    ensures Base(InDir(dir, name)) == name
  {
    if dir != "" {
      SplitAppend(dir, '/', name);
      assert dir + ['/'] + name == dir + "/" + name;
    }
  }

  /** The stem of a path is its last component without the last dot and what
      follows it, or all of it when there is no dot. */
  lemma StemOfName(dir: string, front: string, e: string)
    requires '/' !in front && '/' !in e && '.' !in e
    ensures Stem(InDir(dir, front + "." + e)) == front
    ensures '.' !in front ==> Stem(InDir(dir, front)) == front
  {
    StemWithDot(dir, front, e);
    if '.' !in front {
      StemWithoutDot(dir, front);
    }
  }

  lemma StemWithDot(dir: string, front: string, e: string)
    requires '/' !in front && '/' !in e && '.' !in e
    ensures Stem(InDir(dir, front + "." + e)) == front
  {
    var name := front + "." + e;
    var before := if dir == "" then "" else dir + "/";
    BaseInDir(dir, name);
    assert InDir(dir, name) == (before + front) + "." + e;
    ExtOf(before + front, e);
    assert name == front + ("." + e) && name[|name| - |"." + e|..] == "." + e;
  }

  lemma StemWithoutDot(dir: string, front: string)
    requires '/' !in front && '.' !in front
    ensures Stem(InDir(dir, front)) == front
  {
    var before := if dir == "" then "" else dir + "/";
    BaseInDir(dir, front);
    assert InDir(dir, front) == before + front;
    NoExt(before, front);
    assert front[|front|..] == "";
  }

  /** The text of a wikilink without one leading `./`. */
  function FromTop(v: string): string { if |v| >= 2 && v[0] == '.' && v[1] == '/' then v[2..] else v }

  lemma FromTopIsTrimmed(v: string)
    ensures TrimPrefix(v, "./") == FromTop(v)
  {
    if |v| >= 2 {
      assert v[..2] == [v[0], v[1]];
    }
  }

  /** A bare wikilink may mean exactly the notes whose last component is its text,
      without or with one extension. */
  lemma BareWikilink(f: Fact, dir: string, name: string, all: set<Path>, notes: set<Path>)
    requires f.wikilink && f.decoded.Some? && f.decoded.value != "" && '/' !in name
    requires var target := FromTop(f.decoded.value); '/' !in target && '.' !in target
    ensures InDir(dir, name) in Candidates(f, all, notes) <==>
              && InDir(dir, name) in notes
              && (name == FromTop(f.decoded.value) || WithExtension(name, FromTop(f.decoded.value)))
  {
    var target := FromTop(f.decoded.value);
    FromTopIsTrimmed(f.decoded.value);
    NoExt("", target);
    assert "" + target == target;
    StemIff(target, dir, name);
  }

  ghost predicate WithExtension(name: string, target: string) { exists e: string | '.' !in e :: name == target + "." + e }

  lemma StemIff(target: string, dir: string, name: string)
    requires '/' !in target && '.' !in target && '/' !in name
    ensures Stem(InDir(dir, name)) == target <==> name == target || WithExtension(name, target)
  {
    if '.' in name {
      var front, e := LastDot(name);
      StemOfName(dir, front, e);
      if WithExtension(name, target) {
        var x: string :| '.' !in x && name == target + "." + x;
        SameDot(name, target, x, front, e);
      }
    } else {
      StemOfName(dir, name, "");
      NoExtension(name, target);
    }
  }

  lemma SameDot(name: string, a: string, x: string, b: string, y: string)
    requires name == a + "." + x && '.' !in x && name == b + "." + y && '.' !in y
    ensures a == b && x == y
  {
    assert forall k | |a| < k < |name| :: name[k] == x[k - |a| - 1] && name[k] in x;
    assert forall k | |b| < k < |name| :: name[k] == y[k - |b| - 1] && name[k] in y;
    assert name[|a|] == '.' && name[|b|] == '.';
    assert |a| == |b|;
    assert name[..|a|] == a && name[..|b|] == b && name[|a| + 1..] == x && name[|b| + 1..] == y;
  }

  lemma NoExtension(name: string, target: string)
    ensures WithExtension(name, target) ==> '.' in name
  {
    if WithExtension(name, target) {
      var x: string :| '.' !in x && name == target + "." + x;
      assert name[|target|] == '.';
    }
  }

  lemma {:induction false} LastDot(name: string) returns (front: string, e: string)
    requires '.' in name
    ensures name == front + "." + e && '.' !in e
    ensures '/' !in name ==> '/' !in front && '/' !in e
  {
    if Last(name) == '.' {
      front, e := name[..|name| - 1], "";
    } else {
      var init := name[..|name| - 1];
      assert name == init + [Last(name)];
      front, e := LastDot(init);
      e := e + [Last(name)];
      assert name == front + "." + e;
    }
  }

  /** Every other target means the path itself, and the note of that name when it
      has no extension. A wikilink is read from the top of the corpus, a markdown
      link from the directory of its note, and one that leaves the corpus means
      nothing. */
  lemma PathTarget(f: Fact, all: set<Path>, notes: set<Path>, c: Path)
    requires f.decoded.Some? && f.decoded.value != ""
    ensures f.wikilink && ('/' in FromTop(f.decoded.value) || Ext(FromTop(f.decoded.value)) != "") ==>
              (c in Candidates(f, all, notes) <==> Means(FromTop(f.decoded.value), all, notes, c))
    ensures !f.wikilink && f.decoded.value[0] != '/' && Inside(f.canonical) ==>
              (c in Candidates(f, all, notes) <==> Means(f.canonical, all, notes, c))
    ensures !f.wikilink && (f.decoded.value[0] == '/' || !Inside(f.canonical)) ==> Candidates(f, all, notes) == {}
  {
    FromTopIsTrimmed(f.decoded.value);
    assert f.decoded.value[..1][0] == f.decoded.value[0];
    OutsideIff(f.canonical);
  }

  /** Joined to the directory of the note, the target stays in the corpus. */
  predicate Inside(canonical: string) {
    canonical != "." && canonical != ".." && !(|canonical| >= 3 && canonical[0] == '.' && canonical[1] == '.' && canonical[2] == '/')
  }

  lemma OutsideIff(canonical: string)
    ensures Inside(canonical) <==> !(canonical == "." || canonical == ".." || HasPrefix(canonical, "../"))
  {
    if |canonical| >= 3 {
      assert canonical[..3] == [canonical[0], canonical[1], canonical[2]];
    }
  }

  predicate Means(target: string, all: set<Path>, notes: set<Path>, c: Path) {
    (c == target && c in all) || (Ext(target) == "" && c == target + ".md" && c in notes)
  }

  /** One candidate resolves, several are listed in order, none is unresolved. */
  ghost predicate Resolves(r: Resolution, candidates: set<Path>, less: Order) {
    match r
    case Resolved(target) => candidates == {target}
    case Ambiguous(list) => |list| > 1 && Sorted(list, less) && SetOf(list) == candidates
    case Unresolved => candidates == {}
  }

  lemma {:induction false} SortedIsUnique(a: seq<Path>, b: seq<Path>, less: Order, all: set<Path>)
    requires StrictOrder(all, less) && SetOf(a) == SetOf(b) <= all
    requires Sorted(a, less) && Sorted(b, less)
    ensures a == b
  {
    assert forall i | 0 <= i < |a| :: a[i] in SetOf(a);
    assert forall i | 0 <= i < |b| :: b[i] in SetOf(b);
    if a == [] || b == [] {
    } else {
      assert a[0] in SetOf(a) && b[0] in SetOf(b);
      assert forall i | 0 < i < |a| :: less(a[0], a[i]);
      assert forall i | 0 < i < |b| :: less(b[0], b[i]);
      assert a == [a[0]] + a[1..] && b == [b[0]] + b[1..];
      assert a[0] == b[0];
      assert SetOf(a[1..]) == SetOf(a) - {a[0]};
      assert SetOf(b[1..]) == SetOf(b) - {b[0]};
      SortedIsUnique(a[1..], b[1..], less, all);
    }
  }

  lemma AmbiguousHasTwo(list: seq<Path>, candidates: set<Path>, less: Order)
    requires StrictOrder(candidates, less) && Resolves(Ambiguous(list), candidates, less)
    ensures candidates != {} && forall x :: candidates != {x}
  {
    assert list[0] in SetOf(list) && list[1] in SetOf(list) && less(list[0], list[1]);
  }

  /** The candidates determine the outcome, list order included, so two runs over
      the same corpus agree however their maps are iterated. */
  lemma ResolutionIsDetermined(r: Resolution, q: Resolution, candidates: set<Path>, less: Order)
    requires StrictOrder(candidates, less) && Resolves(r, candidates, less) && Resolves(q, candidates, less)
    ensures r == q
  {
    if r.Ambiguous? {
      AmbiguousHasTwo(r.candidates, candidates, less);
    }
    if q.Ambiguous? {
      AmbiguousHasTwo(q.candidates, candidates, less);
    }
    if r.Ambiguous? && q.Ambiguous? {
      SortedIsUnique(r.candidates, q.candidates, less, candidates);
    }
    if r.Resolved? && q.Resolved? {
      assert r.target in {q.target};
    }
  }

  /** A link never resolves to a path outside the corpus. */
  lemma ResolvedTargetExists(f: Fact, all: set<Path>, notes: set<Path>, less: Order, r: Resolution)
    requires notes <= all && Resolves(r, Candidates(f, all, notes), less)
    ensures r.Resolved? ==> r.target in all
    ensures r.Ambiguous? ==> forall c | c in r.candidates :: c in all
  {
    assert r.Resolved? ==> r.target in Candidates(f, all, notes);
    assert r.Ambiguous? ==> forall c | c in r.candidates :: c in SetOf(r.candidates);
  }

  /** Drops adjacent repetitions, which a list of distinct elements has none of. */
  method DedupStrings(values: seq<string>) returns (out: seq<string>)
    ensures SetOf(out) == SetOf(values)
    ensures forall i | 0 < i < |out| :: out[i - 1] != out[i]
    ensures Distinct(values) ==> out == values
  {
    if |values| < 2 {
      return values;
    }
    out := values[..1];
    for k := 1 to |values|
      invariant out != [] && out[|out| - 1] == values[k - 1]
      invariant SetOf(out) == SetOf(values[..k])
      invariant forall i | 0 < i < |out| :: out[i - 1] != out[i]
      invariant Distinct(values) ==> out == values[..k]
    {
      SetOfPrefix(values, k);
      SetOfAppend(out, values[k]);
      if values[k] != out[|out| - 1] {
        out := out + [values[k]];
      }
    }
    assert values[..|values|] == values;
  }

  /** The bare names that match, in the order the map hands them out. */
  method MatchStems(target: string, iteration: seq<Path>) returns (matches: seq<Path>)
    requires Distinct(iteration)
    ensures Distinct(matches) && SetOf(matches) == set c | c in SetOf(iteration) && Stem(c) == target
  {
    matches := [];
    for k := 0 to |iteration|
      invariant Distinct(matches) && SetOf(matches) == set c | c in SetOf(iteration[..k]) && Stem(c) == target
    {
      SetOfPrefix(iteration, k);
      SetOfAppend(matches, iteration[k]);
      if Stem(iteration[k]) == target {
        matches := matches + [iteration[k]];
      }
    }
    assert iteration[..|iteration|] == iteration;
  }

  method MatchExact(target: string, all: set<Path>, notes: set<Path>) returns (matches: seq<Path>)
    ensures Distinct(matches) && SetOf(matches) == Exact(target, all, notes)
  {
    matches := [];
    if target in all {
      matches := matches + [target];
    }
    if Ext(target) == "" && target + ".md" in notes {
      matches := matches + [target + ".md"];
    }
  }

  /** `iteration` is the order in which the map of notes is walked. */
  method ResolveTarget(f: Fact, all: set<Path>, notes: set<Path>, iteration: seq<Path>, less: Order)
    returns (r: Resolution)
    requires Distinct(iteration) && SetOf(iteration) == notes
    requires StrictOrder(Candidates(f, all, notes), less)
    ensures Resolves(r, Candidates(f, all, notes), less)
  {
    if f.decoded.None? || f.decoded.value == "" {
      return Unresolved;
    }
    var candidates: seq<Path>;
    if f.wikilink {
      var target := TrimPrefix(f.decoded.value, "./");
      if '/' !in target && Ext(target) == "" {
        candidates := MatchStems(target, iteration);
      } else {
        candidates := MatchExact(target, all, notes);
      }
    } else {
      if HasPrefix(f.decoded.value, "/") || f.canonical == "." || HasPrefix(f.canonical, "../") || f.canonical == ".." {
        return Unresolved;
      }
      candidates := MatchExact(f.canonical, all, notes);
    }
    assert forall c | c in candidates :: c in SetOf(candidates);
    SortKeeps(candidates, less, Candidates(f, all, notes));
    var sorted := Sort(candidates, less);
    assert forall i | 0 <= i < |sorted| :: sorted[i] in sorted;
    assert Distinct(sorted);
    sorted := DedupStrings(sorted);
    if |sorted| == 1 {
      assert SetOf(sorted) == {sorted[0]};
      return Resolved(sorted[0]);
    }
    if |sorted| > 1 {
      return Ambiguous(sorted);
    }
    assert SetOf(sorted) == {};
    return Unresolved;
  }
}
