/** What a rule means on both sides of the migration, read off the value as it was
    typed: which line it becomes and which paths it hides. */
module LegacyMeaning {
  import opened Rows
  import opened Text
  import opened Gitignore
  import opened LegacyPolicy
  import opened LegacyPatterns
  import opened LegacyScan

  // ----- surrounding blanks -----

  predicate Blank(s: string) { forall c | c in s :: IsSpace(c) }

  /** No blank at either end. */
  predicate Bare(v: string) { v != "" ==> !IsSpace(v[0]) && !IsSpace(Last(v)) }

  lemma {:induction false} TrimLeftBlank(a: string, v: string)
    requires Blank(a) && (v != "" ==> !IsSpace(v[0]))
    ensures TrimLeft(a + v) == v
  {
    if a == "" {
      assert a + v == v;
    } else {
      assert (a + v)[0] == a[0] && (a + v)[1..] == a[1..] + v && a[0] in a;
      TrimLeftBlank(a[1..], v);
    }
  }

  lemma {:induction false} TrimRightBlank(v: string, b: string)
    requires Blank(b) && (v != "" ==> !IsSpace(Last(v)))
    ensures TrimRight(v + b) == v
    decreases |b|
  {
    if b == "" {
      assert v + b == v;
    } else {
      var init := b[..|b| - 1];
      assert (v + b)[|v + b| - 1] == Last(b) && Last(b) in b && (v + b)[..|v + b| - 1] == v + init;
      TrimRightBlank(v, init);
    }
  }

  lemma {:induction false} AllBlankTrims(s: string)
    requires Blank(s)
    ensures TrimLeft(s) == ""
  {
    if s != "" {
      assert s[0] in s;
      AllBlankTrims(s[1..]);
    }
  }

  /** Trimming takes away exactly the blanks around a value. */
  lemma Trimmed(a: string, v: string, b: string)
    requires Blank(a) && Blank(b) && Bare(v)
    ensures TrimSpace(a + v + b) == v
  {
    if v == "" {
      assert Blank(a + v + b);
      AllBlankTrims(a + v + b);
    } else {
      assert a + v + b == a + (v + b) && (v + b)[0] == v[0];
      TrimLeftBlank(a, v + b);
      TrimRightBlank(v, b);
    }
  }

  lemma BareIsTrimmed(v: string)
    requires Bare(v)
    ensures TrimSpace(v) == v
  {
    Trimmed("", v, "");
    assert "" + v + "" == v;
  }

  /** Two rules that are one: the same line, and the same paths hidden before. */
  ghost predicate SameRule(r: Rule, s: Rule, lower: Lowering) {
    && ConvertRule(r) == ConvertRule(s)
    && forall norm :: LegacyRuleExcludes(r, norm, lower) <==> LegacyRuleExcludes(s, norm, lower)
  }

  /** The value of a rule is only ever read trimmed. */
  lemma SameTrimmed(r: Rule, v: string, lower: Lowering)
    requires TrimSpace(v) == TrimSpace(r.value)
    ensures SameRule(r.(value := v), r, lower)
  {
    var s := r.(value := v);
    assert Anchor(v) == Anchor(r.value) && Suffix(s) == Suffix(r);
    match r
    case PathPrefix(_) => assert s == PathPrefix(v);
    case DirName(_) => assert s == DirName(v);
    case FileName(_) => assert s == FileName(v);
    case Extension(_) => assert s == Extension(v);
  }

  /** Blanks around the value of any rule change nothing. */
  lemma BlanksDoNotMatter(r: Rule, a: string, b: string, lower: Lowering)
    requires Blank(a) && Blank(b) && Bare(r.value)
    ensures SameRule(r.(value := a + r.value + b), r, lower)
  {
    Trimmed(a, r.value, b);
    BareIsTrimmed(r.value);
    SameTrimmed(r, a + r.value + b, lower);
  }

  // ----- extensions -----

  lemma AfterSign(sign: char, v: string)
    ensures TrimPrefix([sign] + v, [sign]) == v
    ensures v == "" || v[0] != sign ==> TrimPrefix(v, [sign]) == v
  {
    assert ([sign] + v)[..1] == [sign] && ([sign] + v)[1..] == v;
    assert v != "" ==> v[..1][0] == v[0];
  }

  /** One leading dot of an extension does not matter. */
  lemma LeadingDotDoesNotMatter(e: string, lower: Lowering)
    requires Bare(e) && (e == "" || e[0] != '.')
    ensures SameRule(Extension("." + e), Extension(e), lower)
  {
    BareIsTrimmed(e);
    BareIsTrimmed("." + e);
    AfterSign('.', e);
    assert "." + e == ['.'] + e;
  }

  /** Only one dot is taken off: an extension that holds another one, or a slash,
      hid nothing before the migration. */
  lemma InnerDotHidesNothing(v: string, prefix: string, name: string, lower: Lowering)
    requires GoodLowering(lower) && Bare(v) && v != "" && ('.' in v[1..] || '/' in v) && GoodName(name) && GoodPrefix(prefix)
    ensures !LegacyRuleExcludes(Extension(v), Child(prefix, name), lower)
  {
    BareIsTrimmed(v);
    ChildParts(prefix, name);
    LegacyExtension(name, Suffix(Extension(v)), lower);
    assert v == [v[0]] + v[1..];
    if v[0] == '.' {
      AfterSign('.', v[1..]);
      assert '/' in v ==> '/' in v[1..];
    } else {
      AfterSign('.', v);
    }
  }

  predicate AlphaNumeric(e: string) { forall c | c in e :: IsLetter(c) || '0' <= c <= '9' }

  /** The text after the last dot of the name fits the extension. */
  ghost predicate NamedWith(name: string, fits: string -> bool) {
    exists stem, x: string :: name == stem + "." + x && '.' !in x && fits(x)
  }

  lemma {:induction false} PlainIsInert(e: string)
    requires AlphaNumeric(e)
    ensures Inert(e)
  {
    if e != "" {
      assert e[0] in e;
      assert forall c | c in e[1..] :: c in e;
      PlainIsInert(e[1..]);
    }
  }

  lemma PlainIsBare(e: string)
    requires AlphaNumeric(e)
    ensures Bare(e) && '.' !in e && '/' !in e && (e != "" ==> Last(e) != ' ')
  {
    if e != "" {
      assert e[0] in e && Last(e) in e;
    }
  }

  lemma DotSplits(name: string, k: nat)
    requires k < |name| && name[k] == '.'
    ensures name == name[..k] + "." + name[k + 1..]
  {
  }

  lemma VariantIsNamed(name: string, e: string, lower: Lowering, k: nat)
    requires GoodLowering(lower) && '.' !in e && k < |name| && name[k] == '.' && Variant(name[k + 1..], e, lower)
    ensures NamedWith(name, x => Variant(x, e, lower))
  {
    VariantSigns(name[k + 1..], e, lower);
    DotSplits(name, k);
  }

  lemma NamedIsVariant(name: string, e: string, lower: Lowering, stem: string, x: string)
    requires name == stem + "." + x && Variant(x, e, lower)
    ensures HasExtension(name, e, lower)
  {
    assert name[|stem|] == '.' && name[|stem| + 1..] == x;
  }

  lemma HasExtensionMeans(name: string, e: string, lower: Lowering)
    requires GoodLowering(lower) && '.' !in e
    ensures HasExtension(name, e, lower) <==> NamedWith(name, x => Variant(x, e, lower))
  {
    if HasExtension(name, e, lower) {
      var k :| 0 <= k < |name| && name[k] == '.' && Variant(name[k + 1..], e, lower);
      VariantIsNamed(name, e, lower, k);
    }
    if NamedWith(name, x => Variant(x, e, lower)) {
      var stem, x: string :| name == stem + "." + x && '.' !in x && Variant(x, e, lower);
      NamedIsVariant(name, e, lower, stem, x);
    }
  }

  /** Some dot of the name is followed by a match of the folded extension. */
  ghost predicate DotMatch(name: string, e: string) {
    exists k | 0 <= k < |name| :: name[k] == '.' && Glob(Fold(e), name[k + 1..])
  }

  lemma DotMatchMeans(name: string, e: string)
    requires Inert(e) && '.' !in e
    ensures DotMatch(name, e) ==> NamedWith(name, x => SameLetters(x, e))
  {
    if DotMatch(name, e) {
      var k :| 0 <= k < |name| && name[k] == '.' && Glob(Fold(e), name[k + 1..]);
      InertMatches(e, name[k + 1..]);
      SplitIsNamed(name, e, k);
    }
  }

  lemma SplitIsNamed(name: string, e: string, k: nat)
    requires k < |name| && name[k] == '.' && SameLetters(name[k + 1..], e) && '.' !in e
    ensures NamedWith(name, x => SameLetters(x, e))
  {
    NoDotIn(name[k + 1..], e);
    DotSplits(name, k);
  }

  lemma MeansDotMatch(name: string, e: string)
    requires Inert(e) && '.' !in e
    ensures NamedWith(name, x => SameLetters(x, e)) ==> DotMatch(name, e)
  {
    if NamedWith(name, x => SameLetters(x, e)) {
      var stem, x: string :| name == stem + "." + x && '.' !in x && SameLetters(x, e);
      InertMatches(e, x);
      var k := |stem|;
      assert name[k] == '.' && name[k + 1..] == x;
    }
  }

  lemma NoDotIn(s: string, e: string)
    requires SameLetters(s, e) && '.' !in e
    ensures '.' !in s
  {
    assert forall i | 0 <= i < |s| :: s[i] == '.' ==> e[i] == '.' && e[i] in e;
  }

  lemma PlainValue(e: string)
    requires e != "" && AlphaNumeric(e)
    ensures Bare(e) && '.' !in e && '/' !in e && Last(e) != ' ' && Inert(e)
    ensures Suffix(Extension(e)) == e && DropSlash(e) == e && ConvertRule(Extension(e)) == "*." + Fold(e)
  {
    PlainIsBare(e);
    PlainIsInert(e);
    BareIsTrimmed(e);
    AfterSign('.', e);
    assert e[0] in e && Last(e) in e;
  }

  lemma PlainLineMeans(e: string, prefix: string, name: string, isDir: bool)
    requires e != "" && AlphaNumeric(e) && GoodName(name) && GoodPrefix(prefix)
    ensures LineMatches(ConvertRule(Extension(e)), Child(prefix, name), isDir) <==> NamedWith(name, x => SameLetters(x, e))
  {
    PlainValue(e);
    ChildParts(prefix, name);
    ExtensionLine(e, Child(prefix, name), isDir);
    assert forall k | 0 <= k < |name| :: '/' !in name[..k];
    DotMatchMeans(name, e);
    MeansDotMatch(name, e);
  }

  lemma PlainLegacyMeans(e: string, prefix: string, name: string, lower: Lowering)
    requires GoodLowering(lower) && e != "" && AlphaNumeric(e) && GoodName(name) && GoodPrefix(prefix)
    ensures LegacyRuleExcludes(Extension(e), Child(prefix, name), lower) <==> NamedWith(name, x => Variant(x, e, lower))
  {
    PlainValue(e);
    ChildParts(prefix, name);
    LegacyExtension(name, e, lower);
    HasExtensionMeans(name, e, lower);
  }

  /** A plain extension hides, before the migration, the files whose text after the
      last dot equals it once both are lower-cased, and after it those whose text
      equals it up to ASCII case, at any depth. */
  lemma PlainExtensionMeans(e: string, prefix: string, name: string, isDir: bool, lower: Lowering)
    requires GoodLowering(lower) && e != "" && AlphaNumeric(e) && GoodName(name) && GoodPrefix(prefix)
    ensures LegacyRuleExcludes(Extension(e), Child(prefix, name), lower) <==> NamedWith(name, x => Variant(x, e, lower))
    ensures LineMatches(ConvertRule(Extension(e)), Child(prefix, name), isDir) <==> NamedWith(name, x => SameLetters(x, e))
  {
    PlainLegacyMeans(e, prefix, name, lower);
    PlainLineMeans(e, prefix, name, isDir);
  }

  /** When only its two ASCII cases are lowered to a letter, the two are the same
      names: those equal to the extension up to ASCII case. */
  lemma PlainExtensionsAgree(e: string, name: string, lower: Lowering)
    requires GoodLowering(lower) && (forall c | c in e :: CaseClosed(c, lower))
    ensures NamedWith(name, x => Variant(x, e, lower)) <==> NamedWith(name, x => SameLetters(x, e))
  {
    forall x: string
      ensures Variant(x, e, lower) <==> SameLetters(x, e)
    {
      VariantLetters(x, e, lower);
    }
    if NamedWith(name, x => Variant(x, e, lower)) {
      var stem, x: string :| name == stem + "." + x && '.' !in x && Variant(x, e, lower);
      assert SameLetters(x, e);
    }
    if NamedWith(name, x => SameLetters(x, e)) {
      var stem, x: string :| name == stem + "." + x && '.' !in x && SameLetters(x, e);
      assert Variant(x, e, lower);
    }
  }

  // ----- paths -----

  /** The path itself, or something below it. */
  ghost predicate AtOrBelow(norm: string, p: string) { norm == p || Below(norm, p) }

  ghost predicate Below(norm: string, p: string) { exists rest: string :: norm == p + "/" + rest }

  lemma BelowIsPrefix(norm: string, p: string)
    ensures Below(norm, p) <==> HasPrefix(norm, p + "/")
  {
    if HasPrefix(norm, p + "/") {
      assert norm == p + "/" + norm[|p| + 1..];
    }
  }

  /** One leading slash of a path prefix does not matter. */
  lemma LeadingSlashDoesNotMatter(p: string, lower: Lowering)
    requires Bare(p) && (p == "" || p[0] != '/')
    ensures SameRule(PathPrefix("/" + p), PathPrefix(p), lower)
    ensures '/' in p ==> SameRule(DirName("/" + p), DirName(p), lower)
  {
    BareIsTrimmed(p);
    BareIsTrimmed("/" + p);
    AfterSign('/', p);
    assert "/" + p == ['/'] + p;
  }

  /** A path prefix hides the path and everything below it; its line matches the
      path itself, file or directory, so that nothing below is visited. */
  lemma PathPrefixMeans(p: string, norm: string, isDir: bool, lower: Lowering)
    requires Bare(p) && GoodPath(p) && GoodPath(norm)
    ensures LegacyRuleExcludes(PathPrefix(p), norm, lower) <==> AtOrBelow(norm, p)
    ensures LineMatches(ConvertRule(PathPrefix(p)), norm, isDir) <==> norm == p
  {
    BareIsTrimmed(p);
    PathShape(p);
    AfterSign('/', p);
    BelowIsPrefix(norm, p);
    PathPrefixLine(p, norm, isDir);
  }

  /** Only one slash is taken off: a path prefix with another one hid nothing. */
  lemma SecondSlashHidesNothing(p: string, norm: string, lower: Lowering)
    requires Bare(p) && p != "" && GoodPath(norm)
    ensures !LegacyRuleExcludes(PathPrefix("//" + p), norm, lower)
  {
    var v := "//" + p;
    BareIsTrimmed(v);
    AfterSign('/', "/" + p);
    assert v == ['/'] + ("/" + p);
    PathShape(norm);
  }

  /** A directory written as a path hides everything below it, and its line matches
      that directory only. */
  lemma DirPathMeans(p: string, norm: string, isDir: bool, lower: Lowering)
    requires Bare(p) && GoodPath(p) && '/' in p && GoodPath(norm)
    ensures LegacyRuleExcludes(DirName(p), norm, lower) <==> Below(norm, p)
    ensures LineMatches(ConvertRule(DirName(p)), norm, isDir) <==> isDir && norm == p
  {
    BareIsTrimmed(p);
    PathShape(p);
    AfterSign('/', p);
    BelowIsPrefix(norm, p);
    AnchoredLine(p, true, norm, isDir);
  }

  // ----- names at any depth -----

  /** The component d stands before something in the path. */
  ghost predicate Passes(norm: string, d: string) {
    exists before, after: string :: norm == before + d + "/" + after && (before == "" || Last(before) == '/')
  }

  lemma {:induction false} PassesIsComponent(norm: string, d: string)
    requires '/' !in d
    ensures var parts := Split(norm, '/');
            Passes(norm, d) <==> d in parts[..|parts| - 1]
    decreases |norm|
  {
    var parts := Split(norm, '/');
    if '/' !in norm {
      assert parts == [norm];
      PassesSlash(norm, d);
    } else {
      var head, tail := FirstPart(norm);
      var rest := Split(tail, '/');
      assert parts == [head] + rest;
      PassesIsComponent(tail, d);
      assert parts[..|parts| - 1] == [head] + rest[..|rest| - 1];
      PassesTail(norm, head, tail, d);
    }
  }

  lemma PassesSlash(norm: string, d: string)
    ensures Passes(norm, d) ==> '/' in norm
  {
    if Passes(norm, d) {
      var before, after: string :| norm == before + d + "/" + after && (before == "" || Last(before) == '/');
      assert norm[|before| + |d|] == '/';
    }
  }

  lemma {:induction false} FirstPart(s: string) returns (head: string, tail: string)
    requires '/' in s
    ensures s == head + "/" + tail && '/' !in head && Split(s, '/') == [head] + Split(tail, '/')
  {
    SplitStep(s, '/');
    assert s == [s[0]] + s[1..];
    if s[0] == '/' {
      head, tail := "", s[1..];
      assert s == "" + "/" + tail;
    } else {
      var rest;
      rest, tail := FirstPart(s[1..]);
      head := [s[0]] + rest;
      assert s == head + "/" + tail;
      assert [rest] + Split(tail, '/') == Split(s[1..], '/');
      assert Split(s[1..], '/')[0] == rest && Split(s[1..], '/')[1..] == Split(tail, '/');
    }
  }

  lemma PassesTail(norm: string, head: string, tail: string, d: string)
    requires norm == head + "/" + tail && '/' !in head && '/' !in d
    ensures Passes(norm, d) <==> d == head || Passes(tail, d)
  {
    if d == head {
      assert norm == "" + d + "/" + tail;
    }
    if Passes(tail, d) {
      var before, after: string :| tail == before + d + "/" + after && (before == "" || Last(before) == '/');
      var longer := head + "/" + before;
      assert norm == longer + d + "/" + after;
      assert before != "" ==> Last(longer) == Last(before);
      assert before == "" ==> Last(longer) == '/';
    }
    if Passes(norm, d) {
      var before, after: string :| norm == before + d + "/" + after && (before == "" || Last(before) == '/');
      PassesFrom(norm, head, tail, d, before, after);
    }
  }

  lemma PassesFrom(norm: string, head: string, tail: string, d: string, before: string, after: string)
    requires norm == head + "/" + tail && '/' !in head && '/' !in d
    requires norm == before + d + "/" + after && (before == "" || Last(before) == '/')
    ensures d == head || Passes(tail, d)
  {
    assert norm[|head|] == '/' && norm[|before| + |d|] == '/';
    assert forall i | 0 <= i < |head| :: norm[i] == head[i] && norm[i] in head;
    assert forall i | 0 <= i < |d| :: norm[|before| + i] == d[i] && d[i] in d;
    if before == "" {
      assert |d| == |head|;
      assert norm[..|d|] == d && norm[..|head|] == head;
    } else {
      assert norm[|before| - 1] == '/';
      assert |before| > |head|;
      var cut := before[|head| + 1..];
      assert norm[|head| + 1..] == tail;
      assert tail == cut + d + "/" + after;
      assert cut == "" || Last(cut) == '/';
    }
  }

  /** A directory name hides everything below a directory of that name, at any
      depth, and its line matches the directories of that name. */
  lemma DirNameMeans(d: string, prefix: string, name: string, isDir: bool, lower: Lowering)
    requires Bare(d) && GoodName(d) && GoodName(name) && GoodPrefix(prefix)
    ensures LegacyRuleExcludes(DirName(d), Child(prefix, name), lower) <==> Passes(Child(prefix, name), d)
    ensures LineMatches(ConvertRule(DirName(d)), Child(prefix, name), isDir) <==> isDir && name == d
  {
    BareIsTrimmed(d);
    PassesIsComponent(Child(prefix, name), d);
    DirNameLine(d, prefix, name, isDir);
  }

  /** A file name hides what has that name at any depth, on both sides. */
  lemma FileNameMeans(n: string, prefix: string, name: string, isDir: bool, lower: Lowering)
    requires Bare(n) && GoodName(n) && GoodName(name) && GoodPrefix(prefix)
    ensures LegacyRuleExcludes(FileName(n), Child(prefix, name), lower) <==> name == n
    ensures LineMatches(ConvertRule(FileName(n)), Child(prefix, name), isDir) <==> name == n
  {
    BareIsTrimmed(n);
    ChildParts(prefix, name);
    FileNameLine(n, prefix, name, isDir);
  }

  /** A rule without a value is no line at all, and hides nothing but, as an
      extension, the names that end in no extension. */
  lemma EmptyMeans(r: Rule, prefix: string, name: string, lower: Lowering)
    requires GoodLowering(lower) && Blank(r.value) && GoodName(name) && GoodPrefix(prefix)
    ensures ConvertRule(r) == ""
    ensures LegacyRuleExcludes(r, Child(prefix, name), lower) <==> r.Extension? && ('.' !in name || Last(name) == '.')
  {
    var rel := Child(prefix, name);
    Trimmed(r.value, "", "");
    assert r.value + "" + "" == r.value;
    ChildParts(prefix, name);
    NotSlashed(rel);
    assert "" + "/" == "/";
    EmptyParts(prefix, name);
    if r.Extension? {
      EmptyExtension(name, lower);
    }
  }

  lemma EmptyParts(prefix: string, name: string)
    requires GoodName(name) && GoodPrefix(prefix)
    ensures "" !in Split(Child(prefix, name), '/') && Child(prefix, name) != ""
  {
    ChildParts(prefix, name);
  }

  /** The text the legacy engine compares with an empty extension. */
  lemma EmptyExtension(name: string, lower: Lowering)
    requires GoodLowering(lower) && name != ""
    ensures TrimPrefix(Lowered(Ext(name), lower), ".") == Lowered("", lower) <==> '.' !in name || Last(name) == '.'
  {
    var k := ExtIsLast(name);
    if '.' in name {
      ComparedText(name[k + 1..], lower);
      assert name[k..] == ['.'] + name[k + 1..];
      assert name[k + 1..] != "" ==> Last(name[k + 1..]) == Last(name) && Last(name) in name[k + 1..];
    }
  }

  lemma ComparedText(tail: string, lower: Lowering)
    requires GoodLowering(lower)
    ensures TrimPrefix(Lowered(['.'] + tail, lower), ".") == Lowered(tail, lower)
  {
    assert (['.'] + tail)[1..] == tail;
    assert Lowered(['.'] + tail, lower) == ['.'] + Lowered(tail, lower);
    AfterSign('.', Lowered(tail, lower));
  }
}
