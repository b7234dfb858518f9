/** The string operations the path code uses, with the facts proofs need. */
module Text {

  predicate HasPrefix(s: string, p: string) { |p| <= |s| && s[..|p|] == p }

  function TrimPrefix(s: string, p: string): string { if HasPrefix(s, p) then s[|p|..] else s }

  /** unicode.IsSpace. */
  predicate IsSpace(c: char) {
    || c in {' ', '\t', '\n', '\r', '\U{000B}', '\U{000C}', '\U{0085}', '\U{00A0}', '\U{1680}', '\U{2028}', '\U{2029}',
             '\U{202F}', '\U{205F}', '\U{3000}'}
    || '\U{2000}' <= c <= '\U{200A}'
  }

  function TrimLeft(s: string): string { if s != "" && IsSpace(s[0]) then TrimLeft(s[1..]) else s }

  function TrimRight(s: string): (r: string)
    ensures r != "" ==> !IsSpace(r[|r| - 1])
  {
    if s != "" && IsSpace(s[|s| - 1]) then TrimRight(s[..|s| - 1]) else s
  }

  function TrimSpace(s: string): (r: string)
    ensures r != "" ==> !IsSpace(r[|r| - 1])
  {
    TrimRight(TrimLeft(s))
  }

  /** Lower-casing of the ASCII letters. */
  function LowerChar(c: char): char { if 'A' <= c <= 'Z' then c - 'A' + 'a' else c }

  predicate IsLetter(c: char) { 'a' <= c <= 'z' || 'A' <= c <= 'Z' }

  /** A rune-by-rune lower-casing, as strings.ToLower applies unicode.ToLower. */
  type Lowering = char -> char

  /** What the proofs use of unicode.ToLower: it is the ASCII one on ASCII, and
      nothing but the dot and the slash is lowered to a dot or a slash. */
  ghost predicate GoodLowering(lower: Lowering) {
    && (forall c | c < '\U{0080}' :: lower(c) == LowerChar(c))
    && (forall c | lower(c) == '.' || lower(c) == '/' :: c == lower(c))
  }

  function Lowered(s: string, lower: Lowering): (r: string)
    ensures |r| == |s| && forall i | 0 <= i < |s| :: r[i] == lower(s[i])
  {
    if s == "" then "" else [lower(s[0])] + Lowered(s[1..], lower)
  }

  /** strings.Split for a one-character separator. */
  function Split(s: string, sep: char): (parts: seq<string>)
    ensures |parts| >= 1
    ensures sep !in s ==> parts == [s]
  {
    if s == "" then [""]
    else
      var rest := Split(s[1..], sep);
      assert sep !in s ==> [s[0]] + s[1..] == s;
      if s[0] == sep then [""] + rest else [[s[0]] + rest[0]] + rest[1..]
  }

  function Last<T>(s: seq<T>): T
    requires |s| > 0
  {
    s[|s| - 1]
  }

  /** The last path component. */
  function Base(path: string): string { Last(Split(path, '/')) }

  lemma SplitStep(s: string, sep: char)
    requires s != ""
    ensures var rest := Split(s[1..], sep);
            Split(s, sep) == if s[0] == sep then [""] + rest else [[s[0]] + rest[0]] + rest[1..]
  {
  }

  lemma {:induction false} SplitAppend(s: string, sep: char, name: string)
    requires sep !in name
    ensures Split(s + [sep] + name, sep) == Split(s, sep) + [name]
  {
    var whole := s + [sep] + name;
    SplitStep(whole, sep);
    if s == "" {
      assert whole[1..] == name;
    } else {
      assert whole[0] == s[0] && whole[1..] == s[1..] + [sep] + name;
      SplitAppend(s[1..], sep, name);
      SplitStep(s, sep);
      var rest := Split(s[1..], sep);
      assert (rest + [name])[0] == rest[0] && (rest + [name])[1..] == rest[1..] + [name];
    }
  }

  /** A slash inside `prefix/name` belongs to the prefix or separates the two. */
  lemma PrefixOfChild(prefix: string, name: string, p: string)
    requires '/' !in name
    ensures HasPrefix(prefix + "/" + name, p + "/") <==> prefix == p || HasPrefix(prefix, p + "/")
  {
    var rel := prefix + "/" + name;
    assert forall k | |prefix| < k < |rel| :: rel[k] == name[k - |prefix| - 1];
    if HasPrefix(rel, p + "/") {
      assert rel[|p|] == rel[..|p| + 1][|p|] == '/';
      assert |p| <= |prefix|;
      assert rel[..|p|] == prefix[..|p|] == rel[..|p| + 1][..|p|] == p;
      if |p| < |prefix| {
        assert prefix[..|p| + 1] == rel[..|p| + 1];
      }
    }
    if prefix == p || HasPrefix(prefix, p + "/") {
      assert rel[..|p| + 1] == p + "/";
    }
  }

  lemma NoSlashNoPrefix(name: string, p: string)
    requires '/' !in name
    ensures !HasPrefix(name, p + "/")
  {
    assert (p + "/")[|p|] == '/';
    if |p| < |name| {
      assert name[|p|] == name[..|p| + 1][|p|];
    }
  }
}
