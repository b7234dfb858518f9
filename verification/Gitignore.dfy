/** Pattern matching as the PATTERN FORMAT section of gitignore(5) describes it,
    for pattern files at the root of the tree. Bracket expressions cover plain
    members, ranges and leading negation; character classes are not modelled. As
    fnmatch(3) has it, a bracket that is never closed stands for itself, a
    closing bracket in first place is a member, and a pattern that ends in a
    lone backslash matches nothing. */
module Gitignore {
  import opened Rows
  import opened Text

  predicate InItems(items: string, c: char) {
    items != "" &&
    if |items| >= 3 && items[1] == '-' then items[0] <= c <= items[2] || InItems(items[3..], c)
    else items[0] == c || InItems(items[1..], c)
  }

  predicate InBracket(body: string, c: char) {
    if body != "" && body[0] in {'!', '^'} then !InItems(body[1..], c) else InItems(body, c)
  }

  /** Index of the first closing bracket at or after `from`, or |pat|. */
  function CloseIndex(pat: string, from: nat): (i: nat)
    requires from <= |pat|
    ensures from <= i <= |pat|
    ensures i < |pat| ==> pat[i] == ']'
    decreases |pat| - from
  {
    if from == |pat| || pat[from] == ']' then from else CloseIndex(pat, from + 1)
  }

  /** Where the closing bracket of a bracket expression may stand at the earliest. */
  function EarliestClose(pat: string): nat { if |pat| >= 2 && pat[1] in {'!', '^'} then 3 else 2 }

  predicate OpensBracket(pat: string) {
    pat != "" && pat[0] == '[' && EarliestClose(pat) <= |pat| && CloseIndex(pat, EarliestClose(pat)) < |pat|
  }

  // ----- patterns as sequences of atoms -----

  datatype Atom = Star | Any | One(c: char) | Class(body: string) | Never

  function Atoms(pat: string): seq<Atom>
    decreases |pat|
  {
    if pat == "" then []
    else if pat[0] == '*' then [Star] + Atoms(pat[1..])
    else if pat[0] == '?' then [Any] + Atoms(pat[1..])
    else if pat[0] == '\\' then (if |pat| >= 2 then [One(pat[1])] + Atoms(pat[2..]) else [Never])
    else if OpensBracket(pat) then
      var close := CloseIndex(pat, EarliestClose(pat));
      [Class(pat[1..close])] + Atoms(pat[close + 1..])
    else [One(pat[0])] + Atoms(pat[1..])
  }

  /** Slashes are matched by slashes only. */
  predicate Fits(a: Atom, c: char) {
    match a
    case Any => c != '/'
    case One(x) => c == x
    case Class(body) => c != '/' && InBracket(body, c)
    case Never => false
    case Star => false
  }

  predicate MatchAtoms(atoms: seq<Atom>, s: string)
    decreases |atoms| + |s|
  {
    if atoms == [] then s == ""
    else if atoms[0].Star? then MatchAtoms(atoms[1..], s) || (s != "" && s[0] != '/' && MatchAtoms(atoms, s[1..]))
    else s != "" && Fits(atoms[0], s[0]) && MatchAtoms(atoms[1..], s[1..])
  }

  predicate Glob(pat: string, s: string) { MatchAtoms(Atoms(pat), s) }

  // ----- pattern lines -----

  datatype Pattern = Pattern(negated: bool, dirOnly: bool, anchored: bool, body: string)

  /** Trailing spaces are ignored unless quoted with a backslash. */
  function StripTrailingSpaces(line: string): string {
    if line != "" && Last(line) == ' ' && !(|line| >= 2 && line[|line| - 2] == '\\')
    then StripTrailingSpaces(line[..|line| - 1])
    else line
  }

  /** Blank lines and comments carry no pattern. */
  function Parse(line: string): Option<Pattern> {
    var l := StripTrailingSpaces(line);
    if l == "" || l[0] == '#' then None
    else
      var negated := l[0] == '!';
      var b := if negated then l[1..] else l;
      var dirOnly := b != "" && Last(b) == '/';
      var c := if dirOnly then b[..|b| - 1] else b;
      Some(Pattern(negated, dirOnly, '/' in c, TrimPrefix(c, "/")))
  }

  predicate Matches(p: Pattern, path: string, isDir: bool) {
    && (p.dirOnly ==> isDir)
    && if !p.anchored then Glob(p.body, Base(path))
       else if HasPrefix(p.body, "**/") then
         exists i | 0 <= i < |path| && (i == 0 || path[i - 1] == '/') :: Glob(p.body[3..], path[i..])
       else Glob(p.body, path)
  }

  predicate LineMatches(line: string, path: string, isDir: bool) {
    Parse(line).Some? && Matches(Parse(line).value, path, isDir)
  }

  /** The last matching line decides. */
  predicate Decide(lines: seq<string>, path: string, isDir: bool) {
    lines != [] &&
    if LineMatches(Last(lines), path, isDir) then !Parse(Last(lines)).value.negated
    else Decide(lines[..|lines| - 1], path, isDir)
  }

  /** The verdict of a committed pattern file on one tree node. */
  predicate Ignored(content: string, path: string, isDir: bool) { Decide(Split(content, '\n'), path, isDir) }

  // ----- facts about matching -----

  predicate Starless(atoms: seq<Atom>) { forall a | a in atoms :: !a.Star? }

  /** Without a star, matching is character by character. */
  lemma {:induction false} StarlessMatch(atoms: seq<Atom>, s: string)
    requires Starless(atoms)
    ensures MatchAtoms(atoms, s) <==> |s| == |atoms| && forall i | 0 <= i < |s| :: Fits(atoms[i], s[i])
  {
    if atoms != [] {
      assert atoms == [atoms[0]] + atoms[1..] && atoms[0] in atoms;
      if s != "" {
        StarlessMatch(atoms[1..], s[1..]);
        assert forall i | 0 < i < |s| :: s[i] == s[1..][i - 1];
      }
    }
  }

  /** A star lets one more character in. */
  lemma {:induction false} StarStretches(atoms: seq<Atom>, s: string) returns (longer: string)
    requires MatchAtoms(atoms, s) && !Starless(atoms)
    ensures MatchAtoms(atoms, longer) && |longer| == |s| + 1
    ensures forall c | c in longer :: c in s || c == 'x'
  {
    if atoms[0].Star? {
      longer := "x" + s;
      assert longer[1..] == s;
    } else {
      assert atoms == [atoms[0]] + atoms[1..];
      var tail := StarStretches(atoms[1..], s[1..]);
      longer := [s[0]] + tail;
      assert longer[1..] == tail;
    }
  }

  lemma {:induction false} StarMatches(q: seq<Atom>, s: string)
    ensures MatchAtoms([Star] + q, s) <==> exists k | 0 <= k <= |s| && '/' !in s[..k] :: MatchAtoms(q, s[k..])
  {
    assert ([Star] + q)[1..] == q;
    assert s[0..] == s;
    if s != "" {
      StarMatches(q, s[1..]);
      var t := s[1..];
      if exists k | 0 <= k <= |t| && '/' !in t[..k] :: MatchAtoms(q, t[k..]) {
        var k :| 0 <= k <= |t| && '/' !in t[..k] && MatchAtoms(q, t[k..]);
        if s[0] != '/' {
          assert s[..k + 1] == [s[0]] + t[..k] && s[k + 1..] == t[k..];
        }
      }
      if exists k | 0 <= k <= |s| && '/' !in s[..k] :: MatchAtoms(q, s[k..]) {
        var k :| 0 <= k <= |s| && '/' !in s[..k] && MatchAtoms(q, s[k..]);
        if k > 0 {
          assert s[0] == s[..k][0] && s[1..][..k - 1] == s[..k][1..] && s[1..][k - 1..] == s[k..];
          assert '/' !in s[1..][..k - 1];
        }
      }
    }
  }

  /** When no matching line is negated, order does not matter. */
  lemma {:induction false} DecideWithoutNegation(lines: seq<string>, path: string, isDir: bool)
    requires forall l | l in lines && Parse(l).Some? :: !Parse(l).value.negated
    ensures Decide(lines, path, isDir) <==> exists i | 0 <= i < |lines| :: LineMatches(lines[i], path, isDir)
  {
    if lines != [] {
      var rest := lines[..|lines| - 1];
      DecideWithoutNegation(rest, path, isDir);
      assert Last(lines) in lines;
      if exists i | 0 <= i < |rest| :: LineMatches(rest[i], path, isDir) {
        var i :| 0 <= i < |rest| && LineMatches(rest[i], path, isDir);
        assert LineMatches(lines[i], path, isDir);
      }
    }
  }
}
