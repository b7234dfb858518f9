/** The directory walk under either engine, and the equality of the two scans. */
module LegacyScan {
  import opened Rows
  import opened Text
  import opened Gitignore
  import opened LegacyPolicy
  import opened LegacyPatterns

  // ----- what one converted line means on one tree node -----

  predicate GoodName(name: string) { name != "" && '/' !in name }

  function Child(prefix: string, name: string): string { if prefix == "" then name else prefix + "/" + name }

  /** The tree root, or a path whose components are all non-empty. */
  predicate GoodPrefix(prefix: string) { prefix != "" ==> GoodPath(prefix) }

  lemma ChildParts(prefix: string, name: string)
    requires GoodName(name) && GoodPrefix(prefix)
    ensures Split(Child(prefix, name), '/') == (if prefix == "" then [] else Split(prefix, '/')) + [name]
    ensures Base(Child(prefix, name)) == name
    ensures GoodPrefix(Child(prefix, name)) && Child(prefix, name) != ""
  {
    if prefix != "" {
      SplitAppend(prefix, '/', name);
      assert prefix + ['/'] + name == prefix + "/" + name;
    }
  }

  /** What a line means that is no comment, not negated and has no trailing space. */
  lemma PlainLine(line: string, c: string, dirOnly: bool)
    requires line != "" && Last(line) != ' ' && line[0] != '#' && line[0] != '!'
    requires line == c + (if dirOnly then "/" else "") && (!dirOnly ==> !EndsWithSlash(c))
    ensures Parse(line) == Some(Pattern(false, dirOnly, '/' in c, TrimPrefix(c, "/")))
  {
    assert StripTrailingSpaces(line) == line;
    assert if dirOnly then line[..|line| - 1] == c else line == c;
  }

  lemma SlashedLine(e: string, dirOnly: bool)
    requires e != "" && e[0] != '*' && (dirOnly || (Last(e) != '/' && Last(e) != ' '))
    ensures Parse("/" + e + (if dirOnly then "/" else "")) == Some(Pattern(false, dirOnly, true, e))
    ensures !HasPrefix(e, "**/")
  {
    var c := "/" + e;
    PlainLine(c + (if dirOnly then "/" else ""), c, dirOnly);
    assert c[0] == '/' && c[..1] == "/" && c[1..] == e;
    assert |e| >= 3 ==> e[..3][0] == e[0];
  }

  /** A line of the form /literal or /literal/ matches exactly that path. */
  lemma AnchoredLine(p: string, dirOnly: bool, rel: string, isDir: bool)
    requires p != "" && (dirOnly || (!EndsWithSlash(p) && Last(p) != ' '))
    ensures var line := "/" + Escape(p) + (if dirOnly then "/" else "");
            && (LineMatches(line, rel, isDir) <==> (dirOnly ==> isDir) && rel == p)
            && Parse(line).Some? && !Parse(line).value.negated
  {
    EscapeShape(p);
    SlashedLine(Escape(p), dirOnly);
    EscapeIsLiteral(p, rel);
  }

  /** The components of a path hold no slash, so no two slashes meet in it. */
  lemma {:induction false} PathShape(path: string)
    requires "" !in Split(path, '/')
    ensures path != "" ==> path[0] != '/' && Last(path) != '/'
    ensures forall i | 0 < i < |path| :: path[i - 1] == '/' ==> path[i] != '/'
  {
    if |path| >= 1 {
      var rest := path[1..];
      var parts := Split(rest, '/');
      assert Split(path, '/')[0] in Split(path, '/');
      assert path[0] != '/';
      assert Split(path, '/') == [[path[0]] + parts[0]] + parts[1..];
      assert forall c | c in parts[1..] :: c in Split(path, '/');
      if rest != "" && rest[0] == '/' {
        assert parts == [""] + Split(rest[1..], '/');
        assert parts[1..] == Split(rest[1..], '/');
        PathShape(rest[1..]);
        assert rest[1..] != "" by {
          assert Split("", '/') == [""];
        }
      } else if rest != "" {
        assert parts[0] != "" && forall c | c in parts :: c == parts[0] || c in parts[1..];
        PathShape(rest);
      }
    }
  }

  /** A suffix that starts a component and holds no slash is the base name. */
  lemma SuffixIsBase(prefix: string, name: string, v: string)
    requires GoodName(name) && GoodPrefix(prefix) && GoodName(v)
    ensures var rel := Child(prefix, name);
            (exists i | 0 <= i < |rel| && (i == 0 || rel[i - 1] == '/') :: rel[i..] == v) <==> name == v
  {
    var rel := Child(prefix, name);
    var start := |rel| - |name|;
    assert rel[start..] == name;
    assert start == 0 || rel[start - 1] == '/';
    assert forall i | 0 <= i < start :: rel[i..][start - 1 - i] == '/';
    assert forall m | start <= m < |rel| :: rel[m] == name[m - start];
    assert forall i | 0 <= i < |rel| && (i == 0 || rel[i - 1] == '/') && rel[i..] == v :: i == start;
  }

  lemma DirNameParse(v: string)
    requires GoodName(v)
    ensures Parse("**/" + Escape(v) + "/") == Some(Pattern(false, true, true, "**/" + Escape(v)))
    ensures HasPrefix("**/" + Escape(v), "**/") && ("**/" + Escape(v))[3..] == Escape(v)
  {
    var c := "**/" + Escape(v);
    PlainLine(c + "/", c, true);
    assert c[2] == '/' && c[..1] == "*";
  }

  lemma DirNameLine(v: string, prefix: string, name: string, isDir: bool)
    requires GoodName(v) && GoodName(name) && GoodPrefix(prefix)
    ensures LineMatches("**/" + Escape(v) + "/", Child(prefix, name), isDir) <==> isDir && name == v
  {
    DirNameParse(v);
    SuffixIsBase(prefix, name, v);
    var rel := Child(prefix, name);
    forall i | 0 <= i < |rel|
      ensures Glob(Escape(v), rel[i..]) <==> rel[i..] == v
    {
      EscapeIsLiteral(v, rel[i..]);
    }
  }

  lemma FileNameParse(v: string)
    requires GoodName(v) && Last(v) != ' '
    ensures Parse(Escape(v)) == Some(Pattern(false, false, false, Escape(v)))
  {
    EscapeShape(v);
    PlainLine(Escape(v), Escape(v), false);
    assert |Escape(v)| >= 1 ==> Escape(v)[..1][0] == Escape(v)[0];
  }

  lemma FileNameLine(v: string, prefix: string, name: string, isDir: bool)
    requires GoodName(v) && Last(v) != ' ' && GoodName(name) && GoodPrefix(prefix)
    ensures LineMatches(Escape(v), Child(prefix, name), isDir) <==> name == v
  {
    FileNameParse(v);
    EscapeIsLiteral(v, name);
    ChildParts(prefix, name);
  }

  lemma EscapeDropped(v: string)
    ensures Escape(v) == Escape(DropSlash(v)) + (if EndsWithSlash(v) then "/" else "")
  {
    var w := DropSlash(v);
    if EndsWithSlash(v) {
      assert v == w + "/";
      EscapeAppend(w, "/");
      assert Escape("/") == EscapeChar('/') + Escape("");
    } else {
      assert Escape(w) + "" == Escape(v);
    }
  }

  lemma EscapeSlash(w: string)
    ensures '/' in Escape(w) <==> '/' in w
    ensures !HasPrefix(Escape(w), "**/")
  {
    EscapeShape(w);
    assert |Escape(w)| >= 3 ==> Escape(w)[..3][0] == Escape(w)[0];
  }

  lemma SlashedNameText(v: string)
    requires '/' in v && Last(v) != ' '
    ensures var line, c := Escape(v), Escape(DropSlash(v));
            && line != "" && Last(line) != ' ' && line[0] != '#' && line[0] != '!'
            && line == c + (if EndsWithSlash(v) then "/" else "") && (!EndsWithSlash(v) ==> !EndsWithSlash(c))
            && ('/' in c <==> '/' in DropSlash(v)) && TrimPrefix(c, "/") == Escape(TrimPrefix(DropSlash(v), "/"))
  {
    EscapeShape(v);
    EscapeSlash(DropSlash(v));
    EscapedTrim(DropSlash(v));
    EscapeDropped(v);
  }

  lemma SlashedNameParse(v: string)
    requires '/' in v && Last(v) != ' '
    ensures Parse(Escape(v)) ==
            Some(Pattern(false, EndsWithSlash(v), '/' in DropSlash(v), Escape(TrimPrefix(DropSlash(v), "/"))))
  {
    SlashedNameText(v);
    PlainLine(Escape(v), Escape(DropSlash(v)), EndsWithSlash(v));
  }

  /** A file name rule written as a path: its line matches that path only, which
      a trailing slash restricts to directories. */
  lemma SlashedNameLine(v: string, rel: string, isDir: bool)
    requires '/' in v && Last(v) != ' ' && GoodPath(rel)
    ensures var q := TrimPrefix(DropSlash(v), "/");
            && (LineMatches(Escape(v), rel, isDir) <==>
                  (EndsWithSlash(v) ==> isDir) && q != "" && if '/' in DropSlash(v) then rel == q else Base(rel) == q)
            && Parse(Escape(v)).Some? && !Parse(Escape(v)).value.negated
  {
    SlashedNameParse(v);
    var q := TrimPrefix(DropSlash(v), "/");
    EscapeSlash(q);
    EscapeIsLiteral(q, rel);
    EscapeIsLiteral(q, Base(rel));
    BaseNotEmpty(rel);
  }

  lemma EscapedTrim(w: string)
    ensures TrimPrefix(Escape(w), "/") == Escape(TrimPrefix(w, "/"))
  {
    EscapeShape(w);
    if w != "" {
      assert Escape(w) == EscapeChar(w[0]) + Escape(w[1..]);
      assert w[..1] == [w[0]] && Escape(w)[..1] == [Escape(w)[0]];
    }
  }

  lemma BaseNotEmpty(rel: string)
    requires GoodPath(rel)
    ensures Base(rel) != ""
  {
    assert Last(Split(rel, '/')) in Split(rel, '/');
  }

  // ----- extensions -----

  /** What strings of the same case-insensitive text have in common. */
  predicate Variant(s: string, e: string, lower: Lowering) {
    |s| == |e| && forall i | 0 <= i < |s| :: lower(s[i]) == lower(e[i])
  }

  lemma LoweredVariant(s: string, e: string, lower: Lowering)
    ensures Lowered(s, lower) == Lowered(e, lower) <==> Variant(s, e, lower)
  {
    var a, b := Lowered(s, lower), Lowered(e, lower);
    if a == b {
      assert forall i | 0 <= i < |s| :: a[i] == lower(s[i]) && b[i] == lower(e[i]);
    }
    if Variant(s, e, lower) {
      assert a == b;
    }
  }

  predicate HasExtension(name: string, e: string, lower: Lowering) {
    exists k | 0 <= k < |name| :: name[k] == '.' && Variant(name[k + 1..], e, lower)
  }

  /** The extension of a name starts at its last dot. */
  lemma {:induction false} ExtIsLast(name: string) returns (k: nat)
    ensures '.' !in name ==> Ext(name) == ""
    ensures '.' in name ==> k < |name| && name[k] == '.' && '.' !in name[k + 1..] && Ext(name) == name[k..]
  {
    k := 0;
    if name != "" {
      var t := name[1..];
      assert name == [name[0]] + t;
      var j := ExtIsLast(t);
      if '.' in t {
        k := j + 1;
        assert name[k..] == t[j..] && name[k + 1..] == t[j + 1..];
      }
    }
  }

  lemma LaterHolds(s: string, i: nat, j: nat)
    requires i < j < |s|
    ensures s[j] in s[i + 1..]
  {
    assert s[i + 1..][j - i - 1] == s[j];
  }

  lemma LastDotIsOne(name: string, i: nat, k: nat)
    requires i < |name| && name[i] == '.' && '.' !in name[i + 1..]
    requires k < |name| && name[k] == '.' && '.' !in name[k + 1..]
    ensures i == k
  {
    if i < k {
      LaterHolds(name, i, k);
    } else if k < i {
      LaterHolds(name, k, i);
    }
  }

  /** What the legacy engine compares an extension with: the text after the last
      dot, empty when there is none. */
  lemma LegacyExtension(name: string, e: string, lower: Lowering)
    requires GoodLowering(lower)
    ensures var same := TrimPrefix(Lowered(Ext(name), lower), ".") == Lowered(e, lower);
            && (e != "" && '.' !in e ==> (same <==> HasExtension(name, e, lower)))
            && ('.' in e ==> !same)
            && (e == "" && '.' !in name ==> same)
            && ('/' !in name && '/' in e ==> !same)
  {
    var k := ExtIsLast(name);
    if '.' in name {
      var tail := name[k + 1..];
      assert Ext(name) == ['.'] + tail;
      assert Lowered(Ext(name), lower) == ['.'] + Lowered(tail, lower);
      assert (['.'] + Lowered(tail, lower))[..1] == "." && (['.'] + Lowered(tail, lower))[1..] == Lowered(tail, lower);
      LoweredVariant(tail, e, lower);
      VariantSigns(tail, e, lower);
      if e != "" && '.' !in e && HasExtension(name, e, lower) {
        var i :| 0 <= i < |name| && name[i] == '.' && Variant(name[i + 1..], e, lower);
        VariantSigns(name[i + 1..], e, lower);
        LastDotIsOne(name, i, k);
      }
      assert '/' !in name ==> '/' !in tail;
    } else {
      assert Lowered("", lower) == "";
      LoweredVariant("", e, lower);
    }
  }

  /** Lower-casing neither makes nor hides a dot or a slash. */
  lemma VariantSigns(s: string, e: string, lower: Lowering)
    ensures GoodLowering(lower) && Variant(s, e, lower) ==> ('.' in s <==> '.' in e) && ('/' in s <==> '/' in e)
  {
    if GoodLowering(lower) && Variant(s, e, lower) {
      assert lower('.') == '.' && lower('/') == '/';
      forall c | c == '.' || c == '/'
        ensures c in s <==> c in e
      {
        if c in s {
          var i :| 0 <= i < |s| && s[i] == c;
          assert lower(e[i]) == c && e[i] == c;
        }
        if c in e {
          var i :| 0 <= i < |e| && e[i] == c;
          assert lower(s[i]) == c && s[i] == c;
        }
      }
    }
  }

  lemma {:induction false} FoldShape(v: string)
    ensures '/' in Fold(v) <==> '/' in v
    ensures '\n' in Fold(v) <==> '\n' in v
    ensures v != "" ==> Fold(v) != "" && (Last(Fold(v)) == Last(v) || (IsLetter(Last(v)) && Last(Fold(v)) == ']'))
  {
    if v != "" {
      FoldStep(v);
      FoldShape(v[1..]);
      assert v == [v[0]] + v[1..];
      assert v[1..] == "" ==> Fold(v[1..]) == "";
    }
  }

  lemma {:induction false} FoldAppend(a: string, b: string)
    ensures Fold(a + b) == Fold(a) + Fold(b)
  {
    if a == "" {
      assert a + b == b;
    } else {
      FoldAppend(a[1..], b);
      assert (a + b)[0] == a[0] && (a + b)[1..] == a[1..] + b;
      Consumed(FoldChar(a[0]) + Fold(a[1..]), FoldChar(a[0]), Fold(a[1..]), Fold(b));
    }
  }

  lemma FoldDropped(e: string)
    ensures Fold(e) == Fold(DropSlash(e)) + (if EndsWithSlash(e) then "/" else "")
  {
    var w := DropSlash(e);
    if EndsWithSlash(e) {
      assert e == w + "/";
      FoldAppend(w, "/");
      FoldStep("/");
      assert Fold("/") == "/";
    } else {
      assert Fold(w) + "" == Fold(w);
    }
  }

  lemma ExtensionText(e: string)
    requires e != "" && Last(e) != ' '
    ensures var line, c := "*." + Fold(e), "*." + Fold(DropSlash(e));
            && line == c + (if EndsWithSlash(e) then "/" else "")
            && Last(line) != ' ' && c[0] == '*' && !HasPrefix(c, "/")
            && ('/' in c <==> '/' in DropSlash(e)) && (!EndsWithSlash(e) ==> !EndsWithSlash(c))
  {
    FoldDropped(e);
    FoldShape(e);
    FoldShape(DropSlash(e));
    var c := "*." + Fold(DropSlash(e));
    assert '/' in c <==> '/' in Fold(DropSlash(e));
    assert c[..1] == "*";
  }

  /** How the line of an extension is read. */
  lemma ExtensionParse(e: string)
    requires e != "" && Last(e) != ' '
    ensures Parse("*." + Fold(e)) ==
            Some(Pattern(false, EndsWithSlash(e), '/' in DropSlash(e), "*." + Fold(DropSlash(e))))
  {
    ExtensionText(e);
    PlainLine("*." + Fold(e), "*." + Fold(DropSlash(e)), EndsWithSlash(e));
  }

  /** An extension line matches a name, or a path when it holds a slash, that is
      some text, a dot and a match of the folded extension. */
  lemma ExtensionLine(e: string, rel: string, isDir: bool)
    requires e != "" && Last(e) != ' '
    ensures var subject := if '/' in DropSlash(e) then rel else Base(rel);
            LineMatches("*." + Fold(e), rel, isDir) <==>
            (EndsWithSlash(e) ==> isDir) &&
            exists k | 0 <= k < |subject| && '/' !in subject[..k] :: subject[k] == '.' && Glob(Fold(DropSlash(e)), subject[k + 1..])
    ensures Parse("*." + Fold(e)).Some? && !Parse("*." + Fold(e)).value.negated
  {
    ExtensionParse(e);
    DotStar(Fold(DropSlash(e)), if '/' in DropSlash(e) then rel else Base(rel));
  }

  lemma DotStar(pat: string, subject: string)
    ensures Glob("*." + pat, subject) <==>
            exists k | 0 <= k < |subject| && '/' !in subject[..k] :: subject[k] == '.' && Glob(pat, subject[k + 1..])
    ensures !HasPrefix("*." + pat, "**/")
  {
    var q := [One('.')] + Atoms(pat);
    assert ("*." + pat)[1..] == "." + pat && ("." + pat)[1..] == pat;
    assert Atoms("." + pat) == q && Atoms("*." + pat) == [Star] + q;
    assert ("*." + pat)[1] == '.';
    StarMatches(q, subject);
    forall k | 0 <= k <= |subject|
      ensures MatchAtoms(q, subject[k..]) <==> k < |subject| && subject[k] == '.' && Glob(pat, subject[k + 1..])
    {
      assert q[1..] == Atoms(pat);
      assert k < |subject| ==> subject[k..][1..] == subject[k + 1..];
    }
  }

  /** An inert extension with its two ASCII cases matches the names of that
      extension, whatever else is lowered. */
  lemma PlainExtensionLine(e: string, rel: string, isDir: bool, lower: Lowering)
    requires GoodPath(rel) && GoodLowering(lower) && e != "" && Last(e) != ' '
    requires '/' !in e && Inert(e) && forall c | c in e :: CaseClosed(c, lower)
    ensures LineMatches("*." + Fold(e), rel, isDir) <==> HasExtension(Base(rel), e, lower)
  {
    ExtensionLine(e, rel, isDir);
    assert DropSlash(e) == e;
    BaseHasNoSlash(rel);
    InertGlob(e, lower);
    assert forall k | 0 <= k < |Base(rel)| :: '/' !in Base(rel)[..k];
  }

  lemma InertGlob(e: string, lower: Lowering)
    requires GoodLowering(lower) && Inert(e) && forall c | c in e :: CaseClosed(c, lower)
    ensures forall s: string :: Glob(Fold(e), s) <==> Variant(s, e, lower)
  {
    forall s: string
      ensures Glob(Fold(e), s) <==> Variant(s, e, lower)
    {
      InertMatches(e, s);
      VariantLetters(s, e, lower);
    }
  }

  lemma VariantLetters(s: string, e: string, lower: Lowering)
    requires GoodLowering(lower)
    ensures SameLetters(s, e) ==> Variant(s, e, lower)
    ensures (forall c | c in e :: CaseClosed(c, lower)) && Variant(s, e, lower) ==> SameLetters(s, e)
  {
    if SameLetters(s, e) {
      forall i | 0 <= i < |s|
        ensures lower(s[i]) == lower(e[i])
      {
        assert s[i] == e[i] || (s[i] < '\U{0080}' && e[i] < '\U{0080}');
      }
    }
    if (forall c | c in e :: CaseClosed(c, lower)) && Variant(s, e, lower) {
      forall i | 0 <= i < |s|
        ensures LowerChar(s[i]) == LowerChar(e[i])
      {
        assert e[i] in e && CaseClosed(e[i], lower) && lower(s[i]) == lower(e[i]);
      }
    }
  }

  lemma {:induction false} PartsHaveNoSlash(s: string)
    ensures forall c | c in Split(s, '/') :: '/' !in c
  {
    if s != "" {
      PartsHaveNoSlash(s[1..]);
      var rest := Split(s[1..], '/');
      assert rest[0] in rest;
      assert forall c | c in rest[1..] :: c in rest;
    }
  }

  lemma BaseHasNoSlash(rel: string)
    ensures '/' !in Base(rel)
  {
    PartsHaveNoSlash(rel);
    assert Last(Split(rel, '/')) in Split(rel, '/');
  }

  /** A pattern that reaches no path matches none. */
  lemma UnreachableNeverMatches(atoms: seq<Atom>, s: string)
    requires !Reachable(atoms) && MatchAtoms(atoms, s)
    ensures (s != "" && Last(s) == '/') || exists i | 0 < i < |s| :: s[i - 1] == '/' && s[i] == '/'
    decreases |atoms| + |s|
  {
    assert atoms == [atoms[0]] + atoms[1..];
    if atoms[0].Star? {
      if MatchAtoms(atoms[1..], s) {
        TailUnreachable(atoms);
        UnreachableNeverMatches(atoms[1..], s);
      } else {
        UnreachableNeverMatches(atoms, s[1..]);
        SlashesStay(s);
      }
    } else if |atoms| == 1 {
    } else if !Reachable(atoms[1..]) {
      UnreachableNeverMatches(atoms[1..], s[1..]);
      SlashesStay(s);
    } else {
      MeetingSlashes(atoms);
      assert s[1..][0] == s[1];
    }
  }

  lemma TailUnreachable(atoms: seq<Atom>)
    requires atoms != [] && !Reachable(atoms) && (atoms[0].Star? || !Reachable(atoms[1..]))
    ensures !Reachable(atoms[1..])
  {
    assert forall a | a in atoms :: a == atoms[0] || a in atoms[1..];
    var rest := atoms[1..];
    assert forall i | 0 < i < |rest| :: rest[i - 1] == atoms[i] && rest[i] == atoms[i + 1];
    assert |atoms| > 1 ==> Last(atoms) == Last(atoms[1..]);
  }

  /** If only the head makes a pattern unreachable, it is dead or starts a pair of slashes. */
  lemma MeetingSlashes(atoms: seq<Atom>)
    requires |atoms| > 1 && !Reachable(atoms) && Reachable(atoms[1..])
    ensures Dead(atoms[0]) || (atoms[0] == One('/') && atoms[1] == One('/'))
  {
    assert forall a | a in atoms :: a == atoms[0] || a in atoms[1..];
    var rest := atoms[1..];
    assert forall i | 0 < i < |rest| :: rest[i - 1] == atoms[i] && rest[i] == atoms[i + 1];
    assert Last(atoms) == Last(atoms[1..]);
  }

  lemma SlashesStay(s: string)
    requires s != ""
    ensures s[1..] != "" && Last(s[1..]) == '/' ==> Last(s) == '/'
    ensures (exists i | 0 < i < |s[1..]| :: s[1..][i - 1] == '/' && s[1..][i] == '/')
            ==> exists i | 0 < i < |s| :: s[i - 1] == '/' && s[i] == '/'
  {
    if exists i | 0 < i < |s[1..]| :: s[1..][i - 1] == '/' && s[1..][i] == '/' {
      var i :| 0 < i < |s[1..]| && s[1..][i - 1] == '/' && s[1..][i] == '/';
      assert s[i] == '/' && s[i + 1] == '/';
    }
  }

  // ----- one rule on one tree node -----

  /** The directory itself, or something above it, is what the rule excludes. */
  predicate Inside(r: Rule, prefix: string) {
    match r
    case PathPrefix(_) => Anchor(r.value) != "" && (prefix == Anchor(r.value) || HasPrefix(prefix, Anchor(r.value) + "/"))
    case DirName(_) =>
      if '/' in TrimSpace(r.value)
      then Anchor(r.value) != "" && (prefix == Anchor(r.value) || HasPrefix(prefix, Anchor(r.value) + "/"))
      else TrimSpace(r.value) != "" && TrimSpace(r.value) in Split(prefix, '/')
    case FileName(_) => false
    case Extension(_) => false
  }

  /** Both engines on a node outside the excluded part of the tree: they agree on
      files; a directory is skipped by the pattern file whenever it is skipped by
      the legacy engine, and otherwise it is the root of an excluded subtree. */
  ghost predicate Agree(r: Rule, rel: string, lower: Lowering) {
    var line := ConvertRule(r);
    && (LineMatches(line, rel, false) <==> LegacyRuleExcludes(r, rel, lower))
    && (LegacyRuleExcludes(r, rel, lower) ==> LineMatches(line, rel, true))
    && (LineMatches(line, rel, true) ==> LegacyRuleExcludes(r, rel, lower) || Inside(r, rel))
    && (Inside(r, rel) ==> LineMatches(line, rel, true))
  }

  /** No line of a translated rule is a negation. */
  predicate Positive(line: string) { Parse(line).Some? ==> !Parse(line).value.negated }

  lemma HasPrefixOfChild(prefix: string, name: string, p: string)
    requires GoodName(name) && GoodPrefix(prefix)
    ensures HasPrefix(Child(prefix, name), p + "/") <==> prefix != "" && (prefix == p || HasPrefix(prefix, p + "/"))
  {
    if prefix == "" {
      NoSlashNoPrefix(name, p);
    } else {
      PrefixOfChild(prefix, name, p);
    }
  }

  lemma NotSlashed(prefix: string)
    requires GoodPrefix(prefix)
    ensures !HasPrefix(prefix, "/")
  {
    if prefix != "" {
      assert prefix[..1][0] == prefix[0];
      assert prefix[0] != '/' by {
        assert Split(prefix, '/')[0] in Split(prefix, '/');
      }
    }
  }

  lemma PathPrefixLine(p: string, rel: string, isDir: bool)
    requires p != "" && Last(p) != ' ' && GoodPath(rel)
    ensures LineMatches("/" + Escape(p), rel, isDir) <==> (EndsWithSlash(p) ==> isDir) && rel == DropSlash(p)
    ensures Positive("/" + Escape(p))
  {
    var v := "/" + p;
    assert v[0] == '/' && v[1..] == p;
    assert Escape(v) == "/" + Escape(p);
    assert DropSlash(v) == "/" + DropSlash(p);
    assert TrimPrefix(DropSlash(v), "/") == DropSlash(p);
    SlashedNameLine(v, rel, isDir);
  }

  /** What the two engines say of a path outside what the prefix covers. */
  lemma PathPrefixOn(r: Rule, rel: string, lower: Lowering)
    requires Preserved(r, lower) && r.PathPrefix? && GoodPath(rel) && !HasPrefix(rel, Anchor(r.value) + "/")
    ensures Agree(r, rel, lower)
  {
    var p := Anchor(r.value);
    PathShape(rel);
    if p != "" {
      PathPrefixLine(p, rel, false);
      PathPrefixLine(p, rel, true);
    }
  }

  lemma PathPrefixAgrees(r: Rule, prefix: string, name: string, lower: Lowering)
    requires Preserved(r, lower) && GoodName(name) && GoodPrefix(prefix) && !Inside(r, prefix) && r.PathPrefix?
    ensures Agree(r, Child(prefix, name), lower)
  {
    ChildParts(prefix, name);
    HasPrefixOfChild(prefix, name, Anchor(r.value));
    if Anchor(r.value) == "" {
      NotSlashed(prefix);
      assert Anchor(r.value) + "/" == "/";
    }
    PathPrefixOn(r, Child(prefix, name), lower);
  }

  lemma SlashedDirAgrees(r: Rule, prefix: string, name: string, lower: Lowering)
    requires GoodName(name) && GoodPrefix(prefix) && !Inside(r, prefix)
    requires r.DirName? && '/' in TrimSpace(r.value)
    ensures Agree(r, Child(prefix, name), lower)
  {
    var p, rel := Anchor(r.value), Child(prefix, name);
    ChildParts(prefix, name);
    HasPrefixOfChild(prefix, name, p);
    if p == "" {
      NotSlashed(prefix);
      assert p + "/" == "/";
    } else {
      AnchoredLine(p, true, rel, false);
      AnchoredLine(p, true, rel, true);
    }
  }

  lemma DirNameAgrees(r: Rule, prefix: string, name: string, lower: Lowering)
    requires GoodName(name) && GoodPrefix(prefix) && !Inside(r, prefix)
    requires r.DirName? && '/' !in TrimSpace(r.value)
    ensures Agree(r, Child(prefix, name), lower)
  {
    var v, rel := TrimSpace(r.value), Child(prefix, name);
    ChildParts(prefix, name);
    var parts := Split(rel, '/');
    assert parts[..|parts| - 1] == if prefix == "" then [] else Split(prefix, '/');
    assert v in parts <==> v in parts[..|parts| - 1] || v == name;
    if v != "" {
      DirNameLine(v, prefix, name, false);
      DirNameLine(v, prefix, name, true);
    }
  }

  lemma FileNameAgrees(r: Rule, prefix: string, name: string, lower: Lowering)
    requires Preserved(r, lower) && GoodName(name) && GoodPrefix(prefix) && r.FileName?
    ensures Agree(r, Child(prefix, name), lower)
  {
    var v, rel := TrimSpace(r.value), Child(prefix, name);
    ChildParts(prefix, name);
    if '/' in v {
      SlashedNameLine(v, rel, false);
      SlashedNameLine(v, rel, true);
      BaseHasNoSlash(rel);
      SinglePart(TrimPrefix(DropSlash(v), "/"));
    } else if v != "" {
      FileNameLine(v, prefix, name, false);
      FileNameLine(v, prefix, name, true);
    }
  }

  lemma SinglePart(q: string)
    ensures q != "" && '/' !in q ==> GoodPath(q)
  {
    assert '/' !in q ==> Split(q, '/') == [q];
  }

  lemma ExtensionAgrees(r: Rule, prefix: string, name: string, lower: Lowering)
    requires GoodLowering(lower) && Preserved(r, lower) && GoodName(name) && GoodPrefix(prefix) && r.Extension?
    ensures Agree(r, Child(prefix, name), lower)
  {
    var e, rel := Suffix(r), Child(prefix, name);
    ChildParts(prefix, name);
    LegacyExtension(name, e, lower);
    if '.' in e || '/' in e {
      UnreachableExtension(e, rel, false);
      UnreachableExtension(e, rel, true);
    } else {
      PlainExtensionLine(e, rel, false, lower);
      PlainExtensionLine(e, rel, true, lower);
    }
  }

  lemma UnreachableExtension(e: string, rel: string, isDir: bool)
    requires e != "" && Last(e) != ' ' && GoodPath(rel) && !Reachable(Atoms(Fold(DropSlash(e))))
    ensures !LineMatches("*." + Fold(e), rel, isDir)
  {
    var subject := if '/' in DropSlash(e) then rel else Base(rel);
    ExtensionLine(e, rel, isDir);
    BaseHasNoSlash(rel);
    PathShape(rel);
    if LineMatches("*." + Fold(e), rel, isDir) {
      var k :| 0 <= k < |subject| && '/' !in subject[..k] && subject[k] == '.' && Glob(Fold(DropSlash(e)), subject[k + 1..]);
      UnreachableNeverMatches(Atoms(Fold(DropSlash(e))), subject[k + 1..]);
      NoSlashTail(subject, k + 1);
    }
  }

  lemma NoSlashTail(s: string, k: nat)
    requires k <= |s| && (s != "" ==> Last(s) != '/')
    requires forall i | 0 < i < |s| :: s[i - 1] == '/' ==> s[i] != '/'
    ensures s[k..] != "" ==> Last(s[k..]) != '/'
    ensures !exists i | 0 < i < |s[k..]| :: s[k..][i - 1] == '/' && s[k..][i] == '/'
  {
    var t := s[k..];
    forall i | 0 < i < |t|
      ensures !(t[i - 1] == '/' && t[i] == '/')
    {
      assert t[i - 1] == s[k + i - 1] && t[i] == s[k + i];
    }
  }

  lemma RuleAgrees(r: Rule, prefix: string, name: string, lower: Lowering)
    requires GoodLowering(lower) && Preserved(r, lower) && GoodName(name) && GoodPrefix(prefix) && !Inside(r, prefix)
    ensures Agree(r, Child(prefix, name), lower)
  {
    match r
    case PathPrefix(_) => PathPrefixAgrees(r, prefix, name, lower);
    case DirName(_) =>
      if '/' in TrimSpace(r.value) {
        SlashedDirAgrees(r, prefix, name, lower);
      } else {
        DirNameAgrees(r, prefix, name, lower);
      }
    case FileName(_) => FileNameAgrees(r, prefix, name, lower);
    case Extension(_) => ExtensionAgrees(r, prefix, name, lower);
  }

  lemma LinesArePositive(r: Rule)
    ensures Positive(ConvertRule(r))
  {
    var v, a := TrimSpace(r.value), Anchor(r.value);
    assert Positive("");
    match r
    case PathPrefix(_) => if a != "" { PathPrefixLine(a, "x", false); }
    case DirName(_) =>
      if '/' in v {
        if a != "" { AnchoredLine(a, true, "x", false); }
      } else if v != "" {
        DirNameParse(v);
      }
    case FileName(_) =>
      if '/' in v {
        SlashedNameLine(v, "x", false);
      } else if v != "" {
        FileNameParse(v);
      }
    case Extension(_) => if Suffix(r) != "" { ExtensionParse(Suffix(r)); }
  }

  /** Everything below an excluded directory is excluded, one node at a time. */
  lemma InsideExcludesChild(r: Rule, prefix: string, name: string, lower: Lowering)
    requires GoodName(name) && GoodPrefix(prefix) && prefix != "" && Inside(r, prefix)
    ensures LegacyRuleExcludes(r, Child(prefix, name), lower)
  {
    ChildParts(prefix, name);
    HasPrefixOfChild(prefix, name, Anchor(r.value));
    var parts := Split(Child(prefix, name), '/');
    assert parts[..|parts| - 1] == Split(prefix, '/');
  }

  // ----- the whole pattern file -----

  lemma {:induction false} RenderSplits(lines: seq<string>) returns (body: string)
    requires lines != [] && forall l | l in lines :: '\n' !in l
    ensures Render(lines) == body + "\n" && Split(body, '\n') == lines
  {
    var init, last := lines[..|lines| - 1], Last(lines);
    assert lines == init + [last];
    if init == [] {
      body := last;
    } else {
      var before := RenderSplits(init);
      body := before + ['\n'] + last;
      SplitAppend(before, '\n', last);
    }
  }

  lemma NoNewline(r: Rule)
    requires OneLine(r)
    ensures '\n' !in ConvertRule(r)
  {
    EscapeShape(Anchor(r.value));
    EscapeShape(TrimSpace(r.value));
    FoldShape(Suffix(r));
  }

  /** Reading the rendered file back gives its lines and one empty rest. */
  lemma RenderedLines(lines: seq<string>)
    requires forall l | l in lines :: '\n' !in l
    ensures Split(Render(lines), '\n') == lines + [""]
  {
    if lines != [] {
      var body := RenderSplits(lines);
      SplitAppend(body, '\n', "");
      assert body + ['\n'] + "" == body + "\n";
    }
  }

  lemma BlankLine(path: string, isDir: bool)
    ensures Parse("").None? && !LineMatches("", path, isDir)
  {
  }

  /** Appending a blank line changes no verdict of a file without negation. */
  lemma LinesDecide(lines: seq<string>, path: string, isDir: bool)
    requires forall l | l in lines && Parse(l).Some? :: !Parse(l).value.negated
    ensures Decide(lines + [""], path, isDir) <==> exists i | 0 <= i < |lines| :: LineMatches(lines[i], path, isDir)
  {
    BlankLine(path, isDir);
    assert (lines + [""])[..|lines|] == lines && Last(lines + [""]) == "";
    DecideWithoutNegation(lines, path, isDir);
  }

  ghost predicate AllOneLine(rules: seq<Rule>) { forall r | r in rules :: OneLine(r) }

  ghost predicate AllPreserved(rules: seq<Rule>, lower: Lowering) { forall r | r in rules :: Preserved(r, lower) }

  /** The verdict of the converted file is the disjunction over its rules. */
  lemma ConvertedVerdict(rules: seq<Rule>, path: string, isDir: bool)
    requires AllOneLine(rules)
    ensures Ignored(Render(ConvertLines(rules)), path, isDir) <==>
              exists r | r in rules :: LineMatches(ConvertRule(r), path, isDir)
  {
    var lines := ConvertLines(rules);
    forall i | 0 <= i < |lines|
      ensures '\n' !in lines[i] && Positive(lines[i]) && lines[i] == ConvertRule(rules[i]) && rules[i] in rules
    {
      NoNewline(rules[i]);
      LinesArePositive(rules[i]);
    }
    RenderedLines(lines);
    LinesDecide(lines, path, isDir);
    assert forall r | r in rules :: exists i :: 0 <= i < |rules| && rules[i] == r;
  }

  // ----- the scan -----

  /** A source tree: ordinary files and directories. */
  datatype Node = File(name: string) | Dir(name: string, children: seq<Node>)

  /** An engine built from structured rules, or from a committed pattern file. */
  datatype Engine = Structured(rules: seq<Rule>, lower: Lowering) | Committed(content: string) {
    predicate Excluded(rel: string, isDir: bool) {
      match this
      case Structured(rules, lower) => LegacyExcludes(rules, rel, lower)
      case Committed(content) => Ignored(content, rel, isDir)
    }
  }

  /** The files a walk admits, in visiting order; excluded directories are not entered. */
  function Scan(engine: Engine, nodes: seq<Node>, prefix: string): seq<string>
    decreases nodes
  {
    if nodes == [] then []
    else
      var rel := Child(prefix, nodes[0].name);
      (match nodes[0]
       case File(_) => if engine.Excluded(rel, false) then [] else [rel]
       case Dir(_, children) => if engine.Excluded(rel, true) then [] else Scan(engine, children, rel))
      + Scan(engine, nodes[1..], prefix)
  }

  predicate GoodTree(nodes: seq<Node>)
    decreases nodes
  {
    nodes == [] ||
    (GoodName(nodes[0].name) && (nodes[0].Dir? ==> GoodTree(nodes[0].children)) && GoodTree(nodes[1..]))
  }

  ghost predicate InsideAny(rules: seq<Rule>, prefix: string) { exists r | r in rules :: Inside(r, prefix) }

  /** The legacy walk finds nothing below an excluded directory. */
  lemma {:induction false} NothingInside(rules: seq<Rule>, lower: Lowering, nodes: seq<Node>, prefix: string)
    requires GoodTree(nodes) && GoodPrefix(prefix) && prefix != "" && InsideAny(rules, prefix)
    ensures Scan(Structured(rules, lower), nodes, prefix) == []
  {
    if nodes != [] {
      var r :| r in rules && Inside(r, prefix);
      InsideExcludesChild(r, prefix, nodes[0].name, lower);
      NothingInside(rules, lower, nodes[1..], prefix);
    }
  }

  /** Both engines on one node of a list of children. */
  lemma NodeAgrees(rules: seq<Rule>, lower: Lowering, prefix: string, name: string)
    requires GoodLowering(lower) && AllOneLine(rules) && AllPreserved(rules, lower)
    requires GoodName(name) && GoodPrefix(prefix) && !InsideAny(rules, prefix)
    ensures var rel, legacy, committed := Child(prefix, name), Structured(rules, lower), Committed(Render(ConvertLines(rules)));
            && (legacy.Excluded(rel, false) <==> committed.Excluded(rel, false))
            && (committed.Excluded(rel, true) <==> legacy.Excluded(rel, true) || InsideAny(rules, rel))
  {
    var rel := Child(prefix, name);
    forall r | r in rules
      ensures Agree(r, rel, lower)
    {
      RuleAgrees(r, prefix, name, lower);
    }
    ConvertedVerdict(rules, rel, false);
    ConvertedVerdict(rules, rel, true);
  }

  lemma {:induction false} SameBelow(rules: seq<Rule>, lower: Lowering, nodes: seq<Node>, prefix: string)
    requires GoodLowering(lower) && AllOneLine(rules) && AllPreserved(rules, lower)
    requires GoodTree(nodes) && GoodPrefix(prefix) && !InsideAny(rules, prefix)
    ensures Scan(Structured(rules, lower), nodes, prefix) == Scan(Committed(Render(ConvertLines(rules))), nodes, prefix)
  {
    if nodes != [] {
      var rel := Child(prefix, nodes[0].name);
      NodeAgrees(rules, lower, prefix, nodes[0].name);
      SameBelow(rules, lower, nodes[1..], prefix);
      if nodes[0].Dir? {
        ChildParts(prefix, nodes[0].name);
        if InsideAny(rules, rel) {
          NothingInside(rules, lower, nodes[0].children, rel);
        } else {
          SameBelow(rules, lower, nodes[0].children, rel);
        }
      }
    }
  }

  /** For every list of preserved rules and every tree, the scan before the
      migration and the scan after it admit the same files in the same order. */
  lemma ScanEquivalence(rules: seq<Rule>, lower: Lowering, tree: seq<Node>)
    requires GoodLowering(lower) && AllOneLine(rules) && AllPreserved(rules, lower) && GoodTree(tree)
    ensures Scan(Structured(rules, lower), tree, "") == Scan(Committed(Render(ConvertLines(rules))), tree, "")
  {
    assert Split("", '/') == [""];
    assert !InsideAny(rules, "");
    SameBelow(rules, lower, tree, "");
  }
}
