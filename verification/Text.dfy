/**
 Characters and strings as the French text code uses them: case, accents and ligatures for the
 Latin-1 letters, Œ and Ÿ, whitespace, prefixes and suffixes.
 */
module Text {

  // ----- Characters -----

  function Lower(c: char): char {
    if 'A' <= c <= 'Z' || ('À' <= c <= 'Þ' && c != '×') then (c as int + 32) as char
    else if c == 'Œ' then 'œ'
    else if c == 'Ÿ' then 'ÿ'
    else if c == '\U{1e9e}' then 'ß'
    else if c == '\U{39c}' then '\U{3bc}'
    else c
  }

  /** Upper-casing one letter: the sharp s has no capital of its own, and that of the micro sign is Greek. */
  function Upper(c: char): string {
    if 'a' <= c <= 'z' || ('à' <= c <= 'þ' && c != '÷') then [(c as int - 32) as char]
    else if c == 'œ' then "Œ"
    else if c == 'ÿ' then "Ÿ"
    else if c == 'ß' then "SS"
    else if c == 'µ' then "\U{39c}"
    else [c]
  }

  predicate IsUpper(c: char) { Lower(c) != c }

  predicate IsMark(c: char) { '\U{300}' <= c <= '\U{36f}' }

  /** The letter under an accent. */
  function Base(c: char): char {
    if 'à' <= c <= 'å' then 'a'
    else if c == 'ç' then 'c'
    else if 'è' <= c <= 'ë' then 'e'
    else if 'ì' <= c <= 'ï' then 'i'
    else if c == 'ñ' then 'n'
    else if 'ò' <= c <= 'ö' then 'o'
    else if 'ù' <= c <= 'ü' then 'u'
    else if c == 'ý' || c == 'ÿ' then 'y'
    else c
  }

  /** How many combining marks the letter decomposes into, a bare mark counting itself. */
  function Accents(c: char): nat {
    if IsMark(c) || Base(Lower(c)) != Lower(c) then 1 else 0
  }

  predicate IsSpace(c: char) {
    || c == ' ' || '\t' <= c <= '\r' || '\U{1c}' <= c <= '\U{1f}' || c == '\U{85}' || c == '\U{a0}'
    || c == '\U{1680}' || '\U{2000}' <= c <= '\U{200a}' || '\U{2028}' <= c <= '\U{2029}' || c == '\U{202f}'
    || c == '\U{205f}' || c == '\U{3000}'
  }

  /** Word characters of the Latin script: letters, digits and the underscore. */
  predicate IsWord(c: char) {
    || 'a' <= c <= 'z' || 'A' <= c <= 'Z' || '0' <= c <= '9' || c == '_'
    || c == 'ª' || c == 'µ' || c == 'º' || '²' <= c <= '³' || c == '¹' || '¼' <= c <= '¾'
    || ('À' <= c <= '\U{24f}' && c != '×' && c != '÷') || c == '\U{1e9e}'
  }

  // ----- Strings -----

  function LowerAll(s: string): (r: string)
    ensures |r| == |s| && forall i :: 0 <= i < |s| ==> r[i] == Lower(s[i])
  {
    seq(|s|, i requires 0 <= i < |s| => Lower(s[i]))
  }

  function TrimLeft(s: string): (r: string)
    ensures |r| <= |s| && r == s[|s| - |r|..]
    ensures r != [] ==> !IsSpace(r[0])
    ensures s != [] && !IsSpace(s[0]) ==> r == s
  {
    if s != [] && IsSpace(s[0]) then TrimLeft(s[1..]) else s
  }

  function TrimRight(s: string): (r: string)
    ensures |r| <= |s| && r == s[..|r|]
    ensures r != [] ==> !IsSpace(r[|r| - 1])
    ensures s != [] && !IsSpace(s[|s| - 1]) ==> r == s
  {
    if s != [] && IsSpace(s[|s| - 1]) then TrimRight(s[..|s| - 1]) else s
  }

  function Strip(s: string): string {
    TrimRight(TrimLeft(s))
  }

  ghost predicate Trimmed(s: string) {
    s == [] || (!IsSpace(s[0]) && !IsSpace(s[|s| - 1]))
  }

  lemma StripIsTrimmed(s: string)
    ensures Trimmed(Strip(s))
    ensures |Strip(s)| <= |s|
    ensures Trimmed(s) ==> Strip(s) == s
  {
    var l := TrimLeft(s);
    if TrimRight(l) != [] {
      assert TrimRight(l)[0] == l[0];
    }
  }

  predicate Spaces(s: string) {
    forall i :: 0 <= i < |s| ==> IsSpace(s[i])
  }

  lemma {:induction false} TrimLeftDropsSpaces(s: string)
    ensures Spaces(s[..|s| - |TrimLeft(s)|])
  {
    if s != [] && IsSpace(s[0]) {
      TrimLeftDropsSpaces(s[1..]);
      var n := |s| - |TrimLeft(s)|;
      assert s[..n] == [s[0]] + s[1..][..n - 1];
    }
  }

  lemma {:induction false} TrimRightDropsSpaces(s: string)
    ensures Spaces(s[|TrimRight(s)|..])
  {
    if s != [] && IsSpace(s[|s| - 1]) {
      TrimRightDropsSpaces(s[..|s| - 1]);
      var n := |TrimRight(s)|;
      assert s[n..] == s[..|s| - 1][n..] + [s[|s| - 1]];
    }
  }

  /** What stripping drops at either end. */
  lemma StripDropsSpaces(s: string) returns (before: string, after: string)
    ensures Spaces(before) && Spaces(after)
    ensures s == before + Strip(s) + after
    ensures TrimLeft(s) == Strip(s) + after
  {
    hide TrimLeft, TrimRight, IsSpace;
    var l := TrimLeft(s);
    var r := TrimRight(l);
    TrimLeftDropsSpaces(s);
    TrimRightDropsSpaces(l);
    before, after := s[..|s| - |l|], l[|r|..];
    assert l == r + after;
    assert s == before + l;
    assert before + (r + after) == before + r + after;
  }

  predicate StartsWith(s: string, p: string) {
    |p| <= |s| && s[..|p|] == p
  }

  predicate EndsWith(s: string, p: string) {
    |p| <= |s| && s[|s| - |p|..] == p
  }

  predicate Contains(s: string, p: string) {
    StartsWith(s, p) || (s != [] && Contains(s[1..], p))
  }

  lemma {:induction false} ContainsAt(a: string, p: string, b: string)
    ensures Contains(a + p + b, p)
  {
    if a == [] {
      assert (a + p + b)[..|p|] == p;
    } else {
      ContainsAt(a[1..], p, b);
      assert (a + p + b)[1..] == a[1..] + p + b;
    }
  }

  lemma {:induction false} ContainsWhere(s: string, p: string) returns (i: nat)
    requires Contains(s, p)
    ensures i + |p| <= |s| && s[i..i + |p|] == p
  {
    if StartsWith(s, p) {
      i := 0;
    } else {
      var j := ContainsWhere(s[1..], p);
      i := j + 1;
      assert s[i..i + |p|] == s[1..][j..j + |p|];
    }
  }

  function Replace(s: string, from: char, to: char): (r: string)
    ensures |r| == |s| && forall i :: 0 <= i < |s| ==> r[i] == if s[i] == from then to else s[i]
  {
    seq(|s|, i requires 0 <= i < |s| => if s[i] == from then to else s[i])
  }

  /** What comes before the first occurrence of `c`, and whether there is one. */
  function Head(s: string, c: char): (h: string)
    ensures |h| <= |s| && h == s[..|h|] && c !in h
    ensures |h| < |s| ==> s[|h|] == c
  {
    if s == [] || s[0] == c then [] else [s[0]] + Head(s[1..], c)
  }

  /** What comes after the first occurrence of `c`; empty without one. */
  function Rest(s: string, c: char): string {
    var h := Head(s, c);
    if |h| == |s| then [] else s[|h| + 1..]
  }

  lemma {:induction false} HeadAndRest(h: string, r: string)
    requires ' ' !in h
    ensures Head(h + " " + r, ' ') == h && Rest(h + " " + r, ' ') == r
  {
    var s := h + " " + r;
    if h != [] {
      HeadAndRest(h[1..], r);
      assert s[1..] == h[1..] + " " + r && s[0] == h[0];
    }
  }

  // ----- Folding -----

  /** Accent-free, ligature-free and lower-case, one character at a time. */
  function FoldChar(c: char): string {
    var l := Lower(c);
    if l == 'œ' then "oe" else if l == 'æ' then "ae" else if IsMark(l) then "" else [Base(l)]
  }

  function Fold(s: string): string {
    if s == [] then [] else FoldChar(s[0]) + Fold(s[1..])
  }

  function AccentCount(s: string): nat {
    if s == [] then 0 else Accents(s[0]) + AccentCount(s[1..])
  }

  lemma {:induction false} FoldConcat(a: string, b: string)
    ensures Fold(a + b) == Fold(a) + Fold(b)
  {
    hide FoldChar;
    if a == [] {
      assert a + b == b;
    } else {
      FoldConcat(a[1..], b);
      assert (a + b)[1..] == a[1..] + b && (a + b)[0] == a[0];
      var c, x, y := FoldChar(a[0]), Fold(a[1..]), Fold(b);
      assert c + (x + y) == (c + x) + y;
    }
  }

  lemma LowerKeepsFold(c: char)
    ensures Lower(Lower(c)) == Lower(c)
    ensures FoldChar(Lower(c)) == FoldChar(c)
  {
  }

  lemma LowerKeepsKind(c: char)
    ensures IsWord(Lower(c)) == IsWord(c) && IsSpace(Lower(c)) == IsSpace(c)
  {
  }

  lemma {:induction false} LowerAllKeepsFold(s: string)
    ensures Fold(LowerAll(s)) == Fold(s)
  {
    if s != [] {
      hide FoldChar, Lower;
      LowerKeepsFold(s[0]);
      LowerAllKeepsFold(s[1..]);
      assert LowerAll(s)[1..] == LowerAll(s[1..]);
    }
  }

  /** The letters whose capital is another letter, or two. */
  predicate OddCapital(c: char) { c == 'ß' || c == 'µ' }

  /** A capital folds as its letter does, but for those two; its fold is never shorter. */
  lemma UpperKeepsFoldIff(c: char)
    ensures Fold(Upper(c)) == FoldChar(c) <==> !OddCapital(c)
    ensures |Fold(Upper(c))| >= |FoldChar(c)|
  {
    if c == 'ß' {
      assert "SS"[1..] == "S" && "S"[1..] == "";
      assert Fold("SS") == FoldChar('S') + Fold("S");
      assert Fold("SS")[0] == 's';
    } else {
      assert Upper(c)[1..] == [];
      assert Fold(Upper(c)) == FoldChar(Upper(c)[0]);
      assert c == 'µ' ==> Fold(Upper(c))[0] == '\U{3bc}';
    }
  }
}
