/** The migration of structured exclude rules to a committed pattern file, and
    which rules survive it. */
module LegacyPolicy {
  import opened Rows
  import opened Text
  import opened Gitignore

  datatype Rule =
    | PathPrefix(value: string)
    | DirName(value: string)
    | FileName(value: string)
    | Extension(value: string)

  // ----- the legacy engine -----

  /** filepath.Ext: the suffix from the last dot, or nothing. */
  function Ext(name: string): string {
    if name == "" then ""
    else
      var rest := Ext(name[1..]);
      if rest != "" then rest else if name[0] == '.' then name else ""
  }

  function Anchor(value: string): string { TrimPrefix(TrimSpace(value), "/") }

  /** The value of an extension rule without its leading dot. */
  function Suffix(r: Rule): string { TrimPrefix(TrimSpace(r.value), ".") }

  /** `lower` is the lower-casing that both sides of an extension go through. */
  predicate LegacyRuleExcludes(r: Rule, norm: string, lower: Lowering) {
    var parts := Split(norm, '/');
    var fileName := Last(parts);
    match r
    case PathPrefix(_) => norm == Anchor(r.value) || HasPrefix(norm, Anchor(r.value) + "/")
    case DirName(_) =>
      var v := TrimSpace(r.value);
      if '/' in v then HasPrefix(norm, Anchor(r.value) + "/")
      else v in parts[..|parts| - 1]
    case FileName(_) => fileName == TrimSpace(r.value)
    case Extension(_) => TrimPrefix(Lowered(Ext(fileName), lower), ".") == Lowered(Suffix(r), lower)
  }

  predicate LegacyExcludes(rules: seq<Rule>, norm: string, lower: Lowering) {
    exists r | r in rules :: LegacyRuleExcludes(r, norm, lower)
  }

  method LegacyExcluded(rules: seq<Rule>, norm: string, lower: Lowering) returns (excluded: bool)
    ensures excluded <==> LegacyExcludes(rules, norm, lower)
  {
    var k := 0;
    while k < |rules|
      invariant 0 <= k <= |rules|
      invariant forall j | 0 <= j < k :: !LegacyRuleExcludes(rules[j], norm, lower)
    {
      if LegacyRuleExcludes(rules[k], norm, lower) {
        return true;
      }
      k := k + 1;
    }
    return false;
  }

  // ----- the translation -----

  predicate Meta(c: char) { c in {'*', '?', '[', ']', '!', '#', '\\'} }

  function EscapeChar(c: char): string { if Meta(c) then ['\\', c] else [c] }

  function Escape(v: string): string { if v == "" then "" else EscapeChar(v[0]) + Escape(v[1..]) }

  function FoldChar(c: char): string {
    if 'a' <= c <= 'z' then ['[', c, c - 'a' + 'A', ']']
    else if 'A' <= c <= 'Z' then ['[', c - 'A' + 'a', c, ']']
    else [c]
  }

  function Fold(ext: string): string { if ext == "" then "" else FoldChar(ext[0]) + Fold(ext[1..]) }

  function ConvertRule(r: Rule): string {
    match r
    case PathPrefix(value) => if Anchor(value) == "" then "" else "/" + Escape(Anchor(value))
    case DirName(value) =>
      var v := TrimSpace(value);
      if '/' in v then (if Anchor(value) == "" then "" else "/" + Escape(Anchor(value)) + "/")
      else if v == "" then "" else "**/" + Escape(v) + "/"
    case FileName(value) => Escape(TrimSpace(value))
    case Extension(_) =>
      if Suffix(r) == "" then "" else "*." + Fold(Suffix(r))
  }

  function ConvertLines(rules: seq<Rule>): seq<string> {
    seq(|rules|, i requires 0 <= i < |rules| => ConvertRule(rules[i]))
  }

  /** Each line followed by a newline; no rules give no content. */
  function Render(lines: seq<string>): string {
    if lines == [] then "" else Render(lines[..|lines| - 1]) + Last(lines) + "\n"
  }

  lemma Consumed(out: string, before: string, piece: string, rest: string)
    requires out == before + piece
    ensures out + rest == before + (piece + rest)
  {
  }

  method EscapeGlob(v: string) returns (out: string)
    ensures out == Escape(v)
  {
    out := "";
    var k := 0;
    while k < |v|
      invariant 0 <= k <= |v|
      invariant out + Escape(v[k..]) == Escape(v)
    {
      ghost var before := out;
      if Meta(v[k]) {
        out := out + "\\";
      }
      out := out + [v[k]];
      Consumed(out, before, EscapeChar(v[k]), Escape(v[k + 1..]));
      assert v[k..][1..] == v[k + 1..];
      k := k + 1;
    }
  }

  method CaseFoldExt(ext: string) returns (out: string)
    ensures out == Fold(ext)
  {
    out := "";
    var k := 0;
    while k < |ext|
      invariant 0 <= k <= |ext|
      invariant out + Fold(ext[k..]) == Fold(ext)
    {
      ghost var before := out;
      var c := ext[k];
      if 'a' <= c <= 'z' {
        out := out + ['[', c, c - 'a' + 'A', ']'];
      } else if 'A' <= c <= 'Z' {
        out := out + ['[', c - 'A' + 'a', c, ']'];
      } else {
        out := out + [c];
      }
      Consumed(out, before, FoldChar(c), Fold(ext[k + 1..]));
      assert ext[k..][1..] == ext[k + 1..];
      k := k + 1;
    }
  }

  lemma OneMoreLine(rules: seq<Rule>, k: nat)
    requires k < |rules|
    ensures ConvertLines(rules[..k + 1]) == ConvertLines(rules[..k]) + [ConvertRule(rules[k])]
  {
  }

  method ConvertLegacyRules(rules: seq<Rule>) returns (content: string)
    ensures content == Render(ConvertLines(rules))
  {
    var lines: seq<string> := [];
    content := "";
    for k := 0 to |rules|
      invariant lines == ConvertLines(rules[..k]) && content == Render(lines)
    {
      var line := ConvertRule(rules[k]);
      OneMoreLine(rules, k);
      assert (lines + [line])[..|lines|] == lines;
      lines := lines + [line];
      content := content + line + "\n";
    }
    assert rules[..|rules|] == rules;
  }

  // ----- which rules survive the translation -----

  predicate EndsWithSlash(s: string) { s != "" && Last(s) == '/' }

  function DropSlash(s: string): string { if EndsWithSlash(s) then s[..|s| - 1] else s }

  /** A path of a tree: no component is empty. */
  predicate GoodPath(path: string) { path != "" && "" !in Split(path, '/') }

  /** A bracket opened at the start of the text is closed further on: by a closing
      bracket, or by the one that ends the pair of cases of a letter. */
  predicate Closes(e: string) {
    exists j | 1 <= j < |e| :: IsLetter(e[j]) || (e[j] == ']' && j >= EarliestClose(e))
  }

  /** No character of the text is special to the pattern language. */
  predicate Inert(e: string) {
    e == "" || (e[0] !in {'*', '?', '\\'} && (e[0] == '[' ==> !Closes(e)) && Inert(e[1..]))
  }

  /** Only the two ASCII cases of a character are lowered to what it is lowered to. */
  ghost predicate CaseClosed(c: char, lower: Lowering) {
    forall d | lower(d) == lower(c) :: LowerChar(d) == LowerChar(c)
  }

  /** No character at all can stand for this part of a pattern. */
  ghost predicate Dead(a: Atom) {
    match a
    case Class(body) => forall c | c != '/' :: !InBracket(body, c)
    case Never => true
    case _ => false
  }

  /** Some path of a tree can match: nothing in it is dead, it does not end in a
      slash and no two slashes meet. */
  ghost predicate Reachable(atoms: seq<Atom>) {
    && (forall a | a in atoms :: !Dead(a))
    && (atoms != [] ==> Last(atoms) != One('/'))
    && (forall i | 0 < i < |atoms| :: atoms[i - 1] == One('/') ==> atoms[i] != One('/'))
  }

  /** Read off the text of a rule: whether it hides the same files after the
      translation as before. A path prefix must not end in a slash, unless what
      precedes it is no path. A directory name always survives. A file name must
      not be a path with a slash. An extension must not be empty; one that holds
      a dot or a slash never matched anything before, so its pattern must not
      match either; any other must hold nothing special, and letters that have
      only their two ASCII cases. */
  ghost predicate Preserved(r: Rule, lower: Lowering) {
    match r
    case PathPrefix(_) => EndsWithSlash(Anchor(r.value)) ==> !GoodPath(DropSlash(Anchor(r.value)))
    case DirName(_) => true
    case FileName(_) =>
      var v := TrimSpace(r.value);
      '/' in v ==> !GoodPath(TrimPrefix(DropSlash(v), "/"))
    case Extension(_) =>
      var e := Suffix(r);
      && e != ""
      && if '.' in e || '/' in e then !Reachable(Atoms(Fold(DropSlash(e))))
         else Inert(e) && forall c | c in e :: CaseClosed(c, lower)
  }

  /** A rule that is one line of the pattern file. */
  predicate OneLine(r: Rule) { '\n' !in TrimSpace(r.value) }
}
