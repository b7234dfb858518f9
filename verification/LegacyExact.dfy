/** Exactly which rules keep their meaning: a rule that is not preserved has a
    tree on which the two scans differ. */
module LegacyExact {
  import opened Rows
  import opened Text
  import opened Gitignore
  import opened LegacyPolicy
  import opened LegacyPatterns
  import opened LegacyScan

  // ----- trees with one file -----

  function LastSlash(q: string): (i: nat)
    requires '/' in q
    ensures i < |q| && q[i] == '/' && '/' !in q[i + 1..]
  {
    if '/' in q[1..] then
      assert q[1..][LastSlash(q[1..]) + 1..] == q[LastSlash(q[1..]) + 2..];
      1 + LastSlash(q[1..])
    else 0
  }

  function Parent(q: string): string
    requires '/' in q
  {
    q[..LastSlash(q)]
  }

  function NameOf(q: string): string
    requires '/' in q
  {
    q[LastSlash(q) + 1..]
  }

  lemma ParentParts(q: string)
    requires GoodPath(q) && '/' in q
    ensures GoodPath(Parent(q)) && GoodName(NameOf(q)) && Child(Parent(q), NameOf(q)) == q
  {
    assert q == Parent(q) + ['/'] + NameOf(q);
    SplitAppend(Parent(q), '/', NameOf(q));
    assert Split(q, '/') == Split(Parent(q), '/') + [NameOf(q)];
    assert forall c | c in Split(Parent(q), '/') :: c in Split(q, '/');
    assert Last(Split(q, '/')) == NameOf(q) && NameOf(q) in Split(q, '/');
    assert "" in Split("", '/');
  }

  /** The tree that holds nothing but the directory q with these children. */
  function Wrap(q: string, children: seq<Node>): seq<Node>
    decreases |q|
  {
    if '/' !in q then [Dir(q, children)] else Wrap(Parent(q), [Dir(NameOf(q), children)])
  }

  /** The walk does not get into the directory q. */
  predicate Blocked(engine: Engine, q: string)
    decreases |q|
  {
    engine.Excluded(q, true) || ('/' in q && Blocked(engine, Parent(q)))
  }

  lemma OneNode(engine: Engine, node: Node, prefix: string)
    ensures var rel := Child(prefix, node.name);
            Scan(engine, [node], prefix) ==
            if engine.Excluded(rel, node.Dir?) then []
            else if node.Dir? then Scan(engine, node.children, rel)
            else [rel]
    ensures GoodName(node.name) && (node.Dir? ==> GoodTree(node.children)) ==> GoodTree([node])
  {
    assert [node][1..] == [];
    assert Scan(engine, [], prefix) == [];
    assert GoodTree([]);
  }

  lemma {:induction false} WrapScan(engine: Engine, q: string, children: seq<Node>)
    requires GoodPath(q) && GoodTree(children)
    ensures GoodTree(Wrap(q, children))
    ensures Scan(engine, Wrap(q, children), "") == if Blocked(engine, q) then [] else Scan(engine, children, q)
    decreases |q|
  {
    if '/' !in q {
      OneNode(engine, Dir(q, children), "");
    } else {
      ParentParts(q);
      OneNode(engine, Dir(NameOf(q), children), Parent(q));
      WrapScan(engine, Parent(q), [Dir(NameOf(q), children)]);
    }
  }

  function FileAt(q: string): seq<Node> { if '/' in q then Wrap(Parent(q), [File(NameOf(q))]) else [File(q)] }

  lemma FileScan(engine: Engine, q: string)
    requires GoodPath(q)
    ensures GoodTree(FileAt(q))
    ensures Scan(engine, FileAt(q), "") ==
            if engine.Excluded(q, false) || ('/' in q && Blocked(engine, Parent(q))) then [] else [q]
  {
    if '/' in q {
      ParentParts(q);
      OneNode(engine, File(NameOf(q)), Parent(q));
      WrapScan(engine, Parent(q), [File(NameOf(q))]);
    } else {
      assert Split(q, '/') == [q];
      OneNode(engine, File(q), "");
    }
  }

  /** An engine that excludes no path blocks none. */
  lemma {:induction false} NeverBlocked(engine: Engine, q: string)
    requires GoodPath(q) && forall rel | GoodPath(rel) :: !engine.Excluded(rel, true)
    ensures !Blocked(engine, q)
    decreases |q|
  {
    if '/' in q {
      ParentParts(q);
      NeverBlocked(engine, Parent(q));
    }
  }

  // ----- one rule on its own -----

  function Before(r: Rule, lower: Lowering): Engine { Structured([r], lower) }

  function After(r: Rule): Engine { Committed(Render(ConvertLines([r]))) }

  lemma SingleRule(r: Rule, lower: Lowering)
    requires OneLine(r)
    ensures forall rel, isDir :: Before(r, lower).Excluded(rel, isDir) <==> LegacyRuleExcludes(r, rel, lower)
    ensures forall rel, isDir :: After(r).Excluded(rel, isDir) <==> LineMatches(ConvertRule(r), rel, isDir)
  {
    forall rel, isDir
      ensures After(r).Excluded(rel, isDir) <==> LineMatches(ConvertRule(r), rel, isDir)
    {
      ConvertedVerdict([r], rel, isDir);
      assert r in [r];
    }
    assert forall x | x in [r] :: x == r;
    assert r in [r];
  }

  ghost predicate SameScan(r: Rule, lower: Lowering, tree: seq<Node>) {
    Scan(Before(r, lower), tree, "") == Scan(After(r), tree, "")
  }

  ghost predicate NeverExcludes(r: Rule, lower: Lowering) {
    forall rel | GoodPath(rel) :: !LegacyRuleExcludes(r, rel, lower)
  }

  /** A rule without effect whose line matches some path. */
  lemma NewlyHidden(r: Rule, lower: Lowering, q: string, isDir: bool) returns (tree: seq<Node>)
    requires OneLine(r) && NeverExcludes(r, lower) && GoodPath(q) && LineMatches(ConvertRule(r), q, isDir)
    ensures GoodTree(tree) && !SameScan(r, lower, tree)
  {
    SingleRule(r, lower);
    if isDir {
      tree := Wrap(q, [File("f")]);
      NeverBlocked(Before(r, lower), q);
      OneNode(Before(r, lower), File("f"), q);
      WrapScan(Before(r, lower), q, [File("f")]);
      WrapScan(After(r), q, [File("f")]);
      ChildParts(q, "f");
    } else {
      tree := FileAt(q);
      FileScan(Before(r, lower), q);
      FileScan(After(r), q);
      if '/' in q {
        ParentParts(q);
        NeverBlocked(Before(r, lower), Parent(q));
      }
    }
  }

  lemma TwoSlashes(rel: string, p: string)
    requires EndsWithSlash(p) && HasPrefix(rel, p + "/")
    ensures |p| < |rel| && rel[|p| - 1] == '/' && rel[|p|] == '/'
  {
    var start := rel[..|p| + 1];
    assert start == p + "/";
    assert rel[|p| - 1] == start[|p| - 1] && rel[|p|] == start[|p|];
  }

  lemma PathPrefixDiffers(r: Rule, lower: Lowering) returns (tree: seq<Node>)
    requires OneLine(r) && !Preserved(r, lower) && r.PathPrefix?
    ensures GoodTree(tree) && !SameScan(r, lower, tree)
  {
    var p := Anchor(r.value);
    forall rel | GoodPath(rel)
      ensures !LegacyRuleExcludes(r, rel, lower)
    {
      PathShape(rel);
      if HasPrefix(rel, p + "/") {
        TwoSlashes(rel, p);
      }
    }
    PathPrefixLine(p, DropSlash(p), true);
    tree := NewlyHidden(r, lower, DropSlash(p), true);
  }

  lemma FileNameDiffers(r: Rule, lower: Lowering) returns (tree: seq<Node>)
    requires OneLine(r) && !Preserved(r, lower) && r.FileName?
    ensures GoodTree(tree) && !SameScan(r, lower, tree)
  {
    var v := TrimSpace(r.value);
    var q, isDir := TrimPrefix(DropSlash(v), "/"), EndsWithSlash(v);
    forall rel | GoodPath(rel)
      ensures !LegacyRuleExcludes(r, rel, lower)
    {
      BaseHasNoSlash(rel);
    }
    SlashedNameLine(v, q, isDir);
    assert '/' !in q ==> Base(q) == q;
    DroppedSlashes(v);
    tree := NewlyHidden(r, lower, q, isDir);
  }

  lemma DroppedSlashes(v: string)
    ensures '/' !in DropSlash(v) ==> '/' !in TrimPrefix(DropSlash(v), "/")
  {
  }

  // ----- extensions that match more, or less, than before -----

  /** A text that matches a reachable pattern and can be part of a path. */
  lemma {:induction false} Reached(atoms: seq<Atom>) returns (s: string)
    requires Reachable(atoms)
    ensures MatchAtoms(atoms, s) && |s| == |atoms|
    ensures forall i | 0 <= i < |s| :: s[i] == '/' ==> atoms[i] == One('/')
  {
    s := "";
    if atoms != [] {
      assert atoms == [atoms[0]] + atoms[1..];
      var rest := atoms[1..];
      assert forall i | 0 < i < |rest| :: rest[i - 1] == atoms[i] && rest[i] == atoms[i + 1];
      assert rest != [] ==> Last(rest) == Last(atoms);
      var tail := Reached(rest);
      var c := Member(atoms[0]);
      s := [c] + tail;
      assert s[1..] == tail;
      assert atoms[0].Star? ==> MatchAtoms(atoms, tail);
    }
  }

  lemma Member(a: Atom) returns (c: char)
    requires !Dead(a)
    ensures a.Star? || Fits(a, c)
    ensures c == '/' ==> a == One('/')
  {
    match a
    case Star => c := 'x';
    case Any => c := 'x';
    case One(x) => c := x;
    case Class(body) => c :| c != '/' && InBracket(body, c);
  }

  lemma {:induction false} ShapeGivesPath(path: string)
    requires path != "" && path[0] != '/' && Last(path) != '/'
    requires forall i | 0 < i < |path| :: path[i - 1] == '/' ==> path[i] != '/'
    ensures "" !in Split(path, '/')
  {
    var rest := path[1..];
    assert forall i | 0 < i < |rest| :: rest[i - 1] == path[i] && rest[i] == path[i + 1];
    if rest == "" {
    } else if rest[0] == '/' {
      var more := rest[1..];
      assert forall i | 0 < i < |more| :: more[i - 1] == rest[i] && more[i] == rest[i + 1];
      assert more != "";
      assert rest[0] == path[1] && more[0] == path[2];
      ShapeGivesPath(more);
      assert Split(rest, '/') == [""] + Split(more, '/');
      assert Split(rest, '/')[1..] == Split(more, '/') && [path[0]] + "" == [path[0]];
    } else {
      ShapeGivesPath(rest);
      var parts := Split(rest, '/');
      assert forall c | c in parts[1..] :: c in parts;
    }
  }

  lemma {:induction false} SlashAtoms(pat: string)
    ensures One('/') in Atoms(pat) ==> '/' in pat
    decreases |pat|
  {
    if pat != "" {
      assert forall k, c | 0 <= k <= |pat| && c in pat[k..] :: c in pat;
      if pat[0] == '\\' {
        if |pat| >= 2 {
          SlashAtoms(pat[2..]);
        }
      } else if pat[0] !in {'*', '?'} && OpensBracket(pat) {
        SlashAtoms(pat[CloseIndex(pat, EarliestClose(pat)) + 1..]);
      } else {
        SlashAtoms(pat[1..]);
      }
    }
  }

  /** A path on which the line of such an extension acts. */
  lemma SignedExtensionPath(e: string) returns (q: string)
    requires e != "" && Last(e) != ' ' && Reachable(Atoms(Fold(DropSlash(e))))
    ensures GoodPath(q) && LineMatches("*." + Fold(e), q, EndsWithSlash(e))
  {
    var pat := Fold(DropSlash(e));
    var s := Reached(Atoms(pat));
    q := "x." + s;
    ReachedPath(Atoms(pat), s);
    if '/' !in DropSlash(e) {
      FoldShape(DropSlash(e));
      SlashAtoms(pat);
      assert '/' !in s;
      assert Base(q) == q;
    }
    ExtensionLine(e, q, EndsWithSlash(e));
    assert q[1] == '.' && q[2..] == s && q[..1] == "x";
  }

  lemma SignedExtensionDiffers(r: Rule, lower: Lowering) returns (tree: seq<Node>)
    requires GoodLowering(lower) && OneLine(r) && !Preserved(r, lower) && r.Extension?
    requires Suffix(r) != "" && ('.' in Suffix(r) || '/' in Suffix(r))
    ensures GoodTree(tree) && !SameScan(r, lower, tree)
  {
    var e := Suffix(r);
    forall rel | GoodPath(rel)
      ensures !LegacyRuleExcludes(r, rel, lower)
    {
      BaseHasNoSlash(rel);
      LegacyExtension(Base(rel), e, lower);
    }
    var q := SignedExtensionPath(e);
    tree := NewlyHidden(r, lower, q, EndsWithSlash(e));
  }

  lemma ReachedPath(atoms: seq<Atom>, s: string)
    requires Reachable(atoms) && |s| == |atoms|
    requires forall i | 0 <= i < |s| :: s[i] == '/' ==> atoms[i] == One('/')
    ensures GoodPath("x." + s)
  {
    var q := "x." + s;
    assert forall i | 0 <= i < |s| :: q[i + 2] == s[i];
    forall i | 0 < i < |q| && q[i - 1] == '/'
      ensures q[i] != '/'
    {
      assert q[i - 1] == s[i - 3] && q[i] == s[i - 2];
    }
    ShapeGivesPath(q);
  }

  lemma OneFile(r: Rule, lower: Lowering, name: string)
    requires OneLine(r) && GoodName(name)
    ensures GoodTree([File(name)])
    ensures SameScan(r, lower, [File(name)]) <==>
              (LegacyRuleExcludes(r, name, lower) <==> LineMatches(ConvertRule(r), name, false))
    ensures Split(name, '/') == [name]
  {
    SingleRule(r, lower);
    OneNode(Before(r, lower), File(name), "");
    OneNode(After(r), File(name), "");
  }

  /** The extension of a file whose only dot stands before s. */
  lemma OneDotMeans(e: string, lower: Lowering, s: string)
    requires GoodLowering(lower) && '.' !in s && '/' !in s && e != "" && Last(e) != ' ' && '.' !in e && '/' !in e
    ensures HasExtension("x." + s, e, lower) <==> Variant(s, e, lower)
    ensures LineMatches("*." + Fold(e), "x." + s, false) <==> Glob(Fold(e), s)
  {
    var name := "x." + s;
    assert Split(name, '/') == [name];
    assert name[1] == '.' && name[2..] == s && name[..1] == "x";
    assert forall k | 1 < k < |name| :: name[k] == s[k - 2];
    ExtensionLine(e, name, false);
    assert DropSlash(e) == e;
  }

  /** Both engines on such a file. */
  lemma OneDot(r: Rule, lower: Lowering, s: string)
    requires GoodLowering(lower) && OneLine(r) && r.Extension? && '.' !in s && '/' !in s
    requires Suffix(r) != "" && '.' !in Suffix(r) && '/' !in Suffix(r)
    ensures GoodTree([File("x." + s)])
    ensures SameScan(r, lower, [File("x." + s)]) <==> (Variant(s, Suffix(r), lower) <==> Glob(Fold(Suffix(r)), s))
  {
    OneFile(r, lower, "x." + s);
    LegacyExtension("x." + s, Suffix(r), lower);
    OneDotMeans(Suffix(r), lower, s);
  }

  lemma SpecialExtensionDiffers(r: Rule, lower: Lowering) returns (tree: seq<Node>)
    requires GoodLowering(lower) && OneLine(r) && !Preserved(r, lower) && r.Extension?
    requires Suffix(r) != "" && '.' !in Suffix(r) && '/' !in Suffix(r)
    ensures GoodTree(tree) && !SameScan(r, lower, tree)
  {
    var s;
    if Inert(Suffix(r)) {
      s := OtherCase(Suffix(r), lower);
    } else {
      s := OtherText(Suffix(r), lower);
    }
    OneDot(r, lower, s);
    tree := [File("x." + s)];
  }

  ghost predicate Tells(e: string, s: string, lower: Lowering) {
    '.' !in s && '/' !in s && !(Variant(s, e, lower) <==> Glob(Fold(e), s))
  }

  /** A character that is lowered like one of the extension but is not its other
      ASCII case. */
  lemma OtherCase(e: string, lower: Lowering) returns (s: string)
    requires GoodLowering(lower) && '.' !in e && '/' !in e && Inert(e) && exists c | c in e :: !CaseClosed(c, lower)
    ensures Tells(e, s, lower)
  {
    var c :| c in e && !CaseClosed(c, lower);
    var i :| 0 <= i < |e| && e[i] == c;
    var d :| lower(d) == lower(c) && LowerChar(d) != LowerChar(c);
    s := e[i := d];
    assert Variant(s, e, lower);
    VariantSigns(s, e, lower);
    InertMatches(e, s);
    assert LowerChar(s[i]) != LowerChar(e[i]);
  }

  /** Text with something special in it does not match itself, or matches
      something else, or misses its other letter case. */
  lemma OtherText(e: string, lower: Lowering) returns (s: string)
    requires GoodLowering(lower) && '.' !in e && '/' !in e && !Inert(e)
    ensures Tells(e, s, lower)
  {
    var atoms := Atoms(Fold(e));
    assert Variant(e, e, lower);
    if !MatchAtoms(atoms, e) {
      s := e;
    } else if !Starless(atoms) {
      s := StarStretches(atoms, e);
    } else {
      StarlessMatch(atoms, e);
      if Silent(atoms) {
        SilentSize(e);
        assert false;
      }
      var a :| a in atoms && Telling(a);
      var i :| 0 <= i < |atoms| && atoms[i] == a;
      assert Fits(atoms[i], e[i]);
      s := Replaced(e, atoms, i, lower);
    }
  }

  lemma Replaced(e: string, atoms: seq<Atom>, i: nat, lower: Lowering) returns (s: string)
    requires GoodLowering(lower) && '.' !in e && '/' !in e && atoms == Atoms(Fold(e)) && Starless(atoms)
    requires MatchAtoms(atoms, e) && |atoms| == |e| && i < |e| && (atoms[i].Any? || BareLetter(atoms[i]))
    ensures Tells(e, s, lower)
  {
    var c := e[i];
    var d: char;
    StarlessMatch(atoms, e);
    assert Fits(atoms[i], e[i]);
    if atoms[i].Any? {
      d := if lower(c) == 'x' then 'y' else 'x';
      assert lower('x') == 'x' && lower('y') == 'y';
    } else {
      d := if 'a' <= c <= 'z' then c - 'a' + 'A' else c - 'A' + 'a';
      assert lower(d) == lower(c) && d != c;
    }
    s := e[i := d];
    StarlessMatch(atoms, s);
    assert Fits(atoms[i], s[i]) <==> atoms[i].Any?;
    assert Variant(s, e, lower) <==> lower(d) == lower(c);
    assert forall x | x in s :: x == d || x in e;
  }

  lemma EmptyExtensionDiffers(r: Rule, lower: Lowering) returns (tree: seq<Node>)
    requires GoodLowering(lower) && OneLine(r) && r.Extension? && Suffix(r) == ""
    ensures GoodTree(tree) && !SameScan(r, lower, tree)
  {
    tree := [File("x")];
    OneFile(r, lower, "x");
    LegacyExtension("x", "", lower);
  }

  lemma Differs(r: Rule, lower: Lowering) returns (tree: seq<Node>)
    requires GoodLowering(lower) && OneLine(r) && !Preserved(r, lower)
    ensures GoodTree(tree) && !SameScan(r, lower, tree)
  {
    match r
    case PathPrefix(_) => tree := PathPrefixDiffers(r, lower);
    case DirName(_) =>
      assert false;
    case FileName(_) => tree := FileNameDiffers(r, lower);
    case Extension(_) =>
      if Suffix(r) == "" {
        tree := EmptyExtensionDiffers(r, lower);
      } else if '.' in Suffix(r) || '/' in Suffix(r) {
        tree := SignedExtensionDiffers(r, lower);
      } else {
        tree := SpecialExtensionDiffers(r, lower);
      }
  }

  /** A rule hides the same files of every tree before and after the migration
      exactly when it is preserved. */
  lemma PreservedExactly(r: Rule, lower: Lowering)
    requires GoodLowering(lower) && OneLine(r)
    ensures (forall tree | GoodTree(tree) :: SameScan(r, lower, tree)) <==> Preserved(r, lower)
  {
    if Preserved(r, lower) {
      forall tree | GoodTree(tree)
        ensures SameScan(r, lower, tree)
      {
        ScanEquivalence([r], lower, tree);
      }
    } else {
      var tree := Differs(r, lower);
    }
  }
}
