/** What the translated texts mean as patterns: an escaped value is literal, and
    a folded extension is its own text in either ASCII case exactly when nothing
    in it is special. */
module LegacyPatterns {
  import opened Rows
  import opened Text
  import opened Gitignore
  import opened LegacyPolicy

  // ----- escaping keeps values literal -----

  function Ones(v: string): (atoms: seq<Atom>)
    ensures |atoms| == |v| && forall i | 0 <= i < |v| :: atoms[i] == One(v[i])
  {
    if v == "" then [] else [One(v[0])] + Ones(v[1..])
  }

  lemma {:induction false} AtomsOfEscape(v: string)
    ensures Atoms(Escape(v)) == Ones(v)
  {
    if v != "" {
      var tail := Escape(v[1..]);
      AtomsOfEscape(v[1..]);
      assert Escape(v) == EscapeChar(v[0]) + tail;
      if Meta(v[0]) {
        assert Escape(v)[2..] == tail;
      } else {
        assert Escape(v)[1..] == tail;
      }
    }
  }

  lemma EscapeIsLiteral(v: string, s: string)
    ensures Glob(Escape(v), s) <==> s == v
  {
    AtomsOfEscape(v);
    StarlessMatch(Ones(v), s);
  }

  lemma {:induction false} EscapeShape(v: string)
    ensures forall c :: c in Escape(v) ==> c in v || c == '\\'
    ensures forall c | c in v :: c in Escape(v)
    ensures v != "" ==> |Escape(v)| >= 1 && Last(Escape(v)) == Last(v) && !(Escape(v)[0] in {'*', '#', '!'})
    ensures v != "" ==> (Escape(v)[0] == '/' <==> v[0] == '/')
  {
    if v != "" {
      EscapeShape(v[1..]);
      assert v == [v[0]] + v[1..];
    }
  }

  lemma {:induction false} EscapeAppend(a: string, b: string)
    ensures Escape(a + b) == Escape(a) + Escape(b)
  {
    if a == "" {
      assert a + b == b;
    } else {
      EscapeAppend(a[1..], b);
      assert (a + b)[0] == a[0] && (a + b)[1..] == a[1..] + b;
      Consumed(EscapeChar(a[0]) + Escape(a[1..]), EscapeChar(a[0]), Escape(a[1..]), Escape(b));
    }
  }

  // ----- brackets in folded text -----

  predicate ClosesHere(c: char) { IsLetter(c) || c == ']' }

  /** Position of the first character that closes a bracket, or |t|. */
  function FirstClosing(t: string): (m: nat)
    ensures m <= |t|
    ensures m < |t| ==> ClosesHere(t[m])
    ensures forall j | 0 <= j < m :: !ClosesHere(t[j])
  {
    if t == "" || ClosesHere(t[0]) then 0 else 1 + FirstClosing(t[1..])
  }

  lemma FoldStep(t: string)
    requires t != ""
    ensures Fold(t) == FoldChar(t[0]) + Fold(t[1..])
    ensures IsLetter(t[0]) ==> |FoldChar(t[0])| == 4 && FoldChar(t[0])[0] == '[' && FoldChar(t[0])[3] == ']'
                               && IsLetter(FoldChar(t[0])[1]) && IsLetter(FoldChar(t[0])[2])
    ensures !IsLetter(t[0]) ==> FoldChar(t[0]) == [t[0]]
  {
  }

  /** Starting one position into the fold of a letter, the search for a closing
      bracket stops at the end of that fold. */
  lemma CloseInsideFold(pre: string, t: string)
    requires t != "" && IsLetter(t[0])
    ensures var pat := pre + Fold(t);
            && CloseIndex(pat, |pre| + 1) == |pre| + 3
            && pat[|pre| + 4..] == Fold(t[1..])
  {
    FoldStep(t);
    var pat := pre + Fold(t);
    assert pat == pre + FoldChar(t[0]) + Fold(t[1..]);
    assert pat[|pre| + 1] == FoldChar(t[0])[1] && pat[|pre| + 2] == FoldChar(t[0])[2] && pat[|pre| + 3] == ']';
    assert CloseIndex(pat, |pre| + 3) == |pre| + 3;
    assert CloseIndex(pat, |pre| + 2) == |pre| + 3;
  }

  /** Searching in folded text finds the end of the fold of the first closing
      character. */
  lemma {:induction false} CloseInFold(pre: string, t: string)
    ensures var m, pat := FirstClosing(t), pre + Fold(t);
            var close := CloseIndex(pat, |pre|);
            if m == |t| then close == |pat|
            else close < |pat| && pat[close + 1..] == Fold(t[m + 1..])
    decreases |t|
  {
    if t != "" {
      FoldStep(t);
      if IsLetter(t[0]) {
        CloseInsideFold(pre, t);
        assert (pre + Fold(t))[|pre|] == '[';
      } else if t[0] == ']' {
        assert (pre + Fold(t))[|pre|] == ']' && (pre + Fold(t))[|pre| + 1..] == Fold(t[1..]);
      } else {
        CloseFurther(pre, t);
      }
    }
  }

  lemma {:induction false} CloseFurther(pre: string, t: string)
    requires t != "" && !ClosesHere(t[0])
    ensures var m, pat := FirstClosing(t), pre + Fold(t);
            var close := CloseIndex(pat, |pre|);
            if m == |t| then close == |pat|
            else close < |pat| && pat[close + 1..] == Fold(t[m + 1..])
    decreases |t|, 0
  {
    FoldStep(t);
    var pat, next := pre + Fold(t), pre + [t[0]];
    assert pat == next + Fold(t[1..]) && pat[|pre|] == t[0];
    CloseInFold(next, t[1..]);
    var m := FirstClosing(t[1..]);
    assert FirstClosing(t) == m + 1;
    assert m < |t[1..]| ==> t[1..][m + 1..] == t[m + 2..];
  }

  /** How far the opening bracket of the text reaches: up to its position m. */
  ghost predicate Reaches(e: string, m: nat) {
    var pat := Fold(e);
    && (OpensBracket(pat) <==> Closes(e))
    && (OpensBracket(pat) ==> 1 <= m < |e| && pat[CloseIndex(pat, EarliestClose(pat)) + 1..] == Fold(e[m + 1..]))
  }

  /** The k characters before the search begins close nothing. */
  lemma ReachBeyond(e: string, pre: string, k: nat) returns (m: nat)
    requires 2 <= k <= |e| && |pre| == k && Fold(e) == pre + Fold(e[k..]) && pre[0] == '['
    requires EarliestClose(Fold(e)) == k == EarliestClose(e) && forall j | 1 <= j < k :: !IsLetter(e[j])
    ensures Reaches(e, m)
  {
    var t := e[k..];
    CloseInFold(pre, t);
    m := k + FirstClosing(t);
    assert forall j | k <= j < |e| :: e[j] == t[j - k];
    assert m < |e| ==> ClosesHere(e[m]) && t[FirstClosing(t) + 1..] == e[m + 1..];
  }

  /** The search begins inside the fold of a letter. */
  lemma ReachLetter(e: string, pre: string, k: nat)
    requires 1 <= k < |e| && |pre| == k && Fold(e) == pre + Fold(e[k..]) && pre[0] == '[' && IsLetter(e[k])
    requires EarliestClose(Fold(e)) == k + 1
    ensures Reaches(e, k)
  {
    CloseInsideFold(pre, e[k..]);
    FoldStep(e[k..]);
    assert e[k..][1..] == e[k + 1..];
    assert Closes(e);
  }

  lemma BracketReaches(e: string) returns (m: nat)
    requires e != "" && e[0] == '['
    ensures Reaches(e, m)
  {
    FoldStep(e);
    assert Fold(e) == "[" + Fold(e[1..]);
    if |e| == 1 {
      assert Fold(e) == "[";
      m := 0;
    } else {
      FoldStep(e[1..]);
      assert e[1..][0] == e[1] && e[1..][1..] == e[2..];
      if IsLetter(e[1]) {
        assert Fold(e)[1] == '[';
        ReachLetter(e, "[", 1);
        m := 1;
      } else {
        var two := "[" + [e[1]];
        assert Fold(e) == two + Fold(e[2..]) && Fold(e)[1] == e[1];
        if e[1] !in {'!', '^'} {
          m := ReachBeyond(e, two, 2);
        } else if |e| == 2 {
          assert |Fold(e)| == 2;
          m := 0;
        } else {
          m := NegatedReaches(e, two);
        }
      }
    }
  }

  lemma NegatedReaches(e: string, two: string) returns (m: nat)
    requires |e| >= 3 && e[0] == '[' && e[1] in {'!', '^'} && two == "[" + [e[1]] && Fold(e) == two + Fold(e[2..])
    ensures Reaches(e, m)
  {
    FoldStep(e[2..]);
    assert e[2..][0] == e[2] && e[2..][1..] == e[3..];
    assert Fold(e)[1] == e[1];
    if IsLetter(e[2]) {
      ReachLetter(e, two, 2);
      m := 2;
    } else {
      m := ReachBeyond(e, two + [e[2]], 3);
    }
  }

  /** A bracket that is closed is one atom for at least two characters. */
  lemma BracketInFold(e: string) returns (m: nat)
    requires e != "" && e[0] == '['
    ensures OpensBracket(Fold(e)) <==> Closes(e)
    ensures Closes(e) ==> 1 <= m < |e| && Atoms(Fold(e))[1..] == Atoms(Fold(e[m + 1..])) && |Atoms(Fold(e))| == 1 + |Atoms(Fold(e[m + 1..]))|
  {
    m := BracketReaches(e);
    FoldStep(e);
    assert Fold(e)[0] == '[';
  }

  // ----- inert text -----

  function CharAtom(c: char): Atom { if IsLetter(c) then Class(FoldChar(c)[1..3]) else One(c) }

  /** The atoms of a text that is read character by character. */
  function Plain(e: string): (atoms: seq<Atom>)
    ensures |atoms| == |e| && forall i | 0 <= i < |e| :: atoms[i] == CharAtom(e[i])
  {
    if e == "" then [] else [CharAtom(e[0])] + Plain(e[1..])
  }

  lemma LetterAtom(e: string)
    requires e != "" && IsLetter(e[0])
    ensures Atoms(Fold(e)) == [CharAtom(e[0])] + Atoms(Fold(e[1..]))
  {
    FoldStep(e);
    CloseInsideFold("", e);
    var pat := Fold(e);
    assert "" + pat == pat;
    assert pat[1] == FoldChar(e[0])[1] && pat[2] == FoldChar(e[0])[2];
    assert pat[1] != ']' && pat[2] != ']' && CloseIndex(pat, 2) == CloseIndex(pat, 1) == 3;
    assert EarliestClose(pat) == 2 && OpensBracket(pat) && pat[0] == '[';
    assert pat[4..] == Fold(e[1..]);
    assert pat[1..3] == FoldChar(e[0])[1..3];
    assert Atoms(pat) == [Class(pat[1..3])] + Atoms(pat[4..]);
  }

  lemma OtherAtom(e: string)
    requires e != "" && !IsLetter(e[0]) && e[0] !in {'*', '?', '\\'} && (e[0] == '[' ==> !Closes(e))
    ensures Atoms(Fold(e)) == [CharAtom(e[0])] + Atoms(Fold(e[1..]))
  {
    FoldStep(e);
    assert Fold(e)[1..] == Fold(e[1..]);
    if e[0] == '[' {
      var _ := BracketInFold(e);
    }
  }

  lemma {:induction false} InertAtoms(e: string)
    requires Inert(e)
    ensures Atoms(Fold(e)) == Plain(e)
  {
    if e != "" {
      InertAtoms(e[1..]);
      if IsLetter(e[0]) {
        LetterAtom(e);
      } else {
        OtherAtom(e);
      }
    }
  }

  lemma CharAtomFits(c: char, d: char)
    ensures Fits(CharAtom(c), d) <==> LowerChar(d) == LowerChar(c)
  {
    if IsLetter(c) {
      var body := FoldChar(c)[1..3];
      assert body == [FoldChar(c)[1], FoldChar(c)[2]];
      assert body[1..] == [body[1]] && body[1..][1..] == "";
      assert InItems(body[1..], d) <==> d == body[1];
    }
  }

  /** Equal up to ASCII case. */
  predicate SameLetters(s: string, e: string) { |s| == |e| && forall i | 0 <= i < |s| :: LowerChar(s[i]) == LowerChar(e[i]) }

  lemma InertMatches(e: string, s: string)
    requires Inert(e)
    ensures Glob(Fold(e), s) <==> SameLetters(s, e)
  {
    InertAtoms(e);
    StarlessMatch(Plain(e), s);
    forall i | 0 <= i < |s| && |s| == |e|
      ensures Fits(Plain(e)[i], s[i]) <==> LowerChar(s[i]) == LowerChar(e[i])
    {
      CharAtomFits(e[i], s[i]);
    }
  }

  // ----- text that is not inert -----

  predicate BareLetter(a: Atom) { a.One? && IsLetter(a.c) }

  /** An atom that can only be a sign of special text. */
  predicate Telling(a: Atom) { a.Star? || a.Any? || a.Never? || BareLetter(a) }

  predicate Silent(atoms: seq<Atom>) { forall a | a in atoms :: !Telling(a) }

  /** An escaped letter leaves the rest of its pair of cases behind as bare letters. */
  lemma EscapedLetter(e: string)
    requires |e| >= 2 && e[0] == '\\' && IsLetter(e[1])
    ensures !Silent(Atoms(Fold(e)))
  {
    FoldStep(e);
    FoldStep(e[1..]);
    assert e[1..][0] == e[1];
    var pat, f := Fold(e), FoldChar(e[1]);
    assert pat[1] == '[' && pat[2] == f[1];
    assert pat[2..][0] == f[1] && IsLetter(f[1]);
    assert Atoms(pat) == [One('[')] + Atoms(pat[2..]);
    assert Atoms(pat[2..])[0] == One(f[1]);
    assert Atoms(pat)[1] in Atoms(pat);
  }

  lemma LoneEscape(e: string)
    requires |e| == 1 && e[0] == '\\'
    ensures !Silent(Atoms(Fold(e)))
  {
    FoldStep(e);
    assert Fold(e) == [e[0]];
    assert Atoms(Fold(e))[0] == Never && Atoms(Fold(e))[0] in Atoms(Fold(e));
  }

  /** Text that gives no such sign is read as at most as many atoms as it has
      characters, and as fewer unless it is inert. */
  lemma {:induction false} SilentSize(e: string)
    requires Silent(Atoms(Fold(e)))
    ensures |Atoms(Fold(e))| <= |e|
    ensures |Atoms(Fold(e))| == |e| ==> Inert(e)
    decreases |e|
  {
    var atoms := Atoms(Fold(e));
    if e != "" {
      FoldStep(e);
      assert !IsLetter(e[0]) ==> Fold(e)[0] == e[0] && Fold(e)[1..] == Fold(e[1..]);
      if atoms != [] {
        assert atoms == [atoms[0]] + atoms[1..] && atoms[0] in atoms;
      }
      if IsLetter(e[0]) {
        LetterAtom(e);
        SilentSize(e[1..]);
      } else if e[0] == '\\' {
        EscapeSize(e);
      } else if e[0] == '[' && Closes(e) {
        var m := BracketInFold(e);
        SilentSize(e[m + 1..]);
      } else if e[0] == '*' || e[0] == '?' {
      } else {
        OtherAtom(e);
        SilentSize(e[1..]);
      }
    }
  }

  lemma {:induction false} EscapeSize(e: string)
    requires Silent(Atoms(Fold(e))) && e != "" && e[0] == '\\'
    ensures |Atoms(Fold(e))| < |e|
    decreases |e|, 0
  {
    FoldStep(e);
    var atoms := Atoms(Fold(e));
    if |e| == 1 {
      LoneEscape(e);
    } else if IsLetter(e[1]) {
      EscapedLetter(e);
    } else {
      FoldStep(e[1..]);
      assert e[1..][1..] == e[2..];
      assert Fold(e)[2..] == Fold(e[2..]) && |Fold(e)| >= 2;
      assert atoms == [One(Fold(e)[1])] + Atoms(Fold(e[2..]));
      assert forall a | a in Atoms(Fold(e[2..])) :: a in atoms;
      SilentSize(e[2..]);
    }
  }
}
