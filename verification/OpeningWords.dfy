/**
 Whether a text opens with an article, read off its first words: so what respelling does to the
 lookup slug can be told from the words before they are put together again.
 */
module OpeningWords {
  import opened Options
  import opened Text
  import opened Lexicon
  import opened Articles
  import opened Lookup
  import opened RespelledKeys

  /** Lower-case with straight apostrophes, as articles are compared. */
  function Plainly(s: string): (r: string)
    ensures |r| == |s|
  {
    LowerAll(Straight(s))
  }

  lemma PlainlyAt(s: string, i: nat)
    requires i < |s|
    ensures Plainly(s)[i] == Lower(if s[i] == '’' || s[i] == '‘' then '\'' else s[i])
  {
    StraightAt(s);
  }

  lemma PlainlyConcat(a: string, b: string)
    ensures Plainly(a + b) == Plainly(a) + Plainly(b)
  {
    StraightConcat(a, b);
    hide Lower, Straight;
  }

  lemma PlainlySlice(s: string, n: nat)
    requires n <= |s|
    ensures Plainly(s[..n]) == Plainly(s)[..n] && Plainly(s[n..]) == Plainly(s)[n..]
  {
    hide Plainly;
    PlainlyConcat(s[..n], s[n..]);
    assert s[..n] + s[n..] == s;
  }

  /** Which characters turn into a space, an apostrophe or a plain letter. */
  lemma PlainlyKind(c: char)
    ensures var p := Plainly([c])[0];
            && (p == ' ' <==> c == ' ')
            && (p == '\'' <==> c == '\'' || c == '’' || c == '‘')
            && ('a' <= p <= 'z' ==> !IsSeparator(c) && !IsSpace(c))
            && (p == '\'' || 'a' <= p <= 'z' ==> !IsSpace(c))
  {
    PlainlyAt([c], 0);
  }

  // ----- Articles at the very start -----

  /** The text starts with the article, and if that ends in a space more than spaces follows. */
  predicate StartsWithArticle(x: string, a: string)
    requires a != []
  {
    StartsWith(Plainly(x), a) && (a[|a| - 1] == '\'' || !Spaces(x[|a|..]))
  }

  lemma {:induction false} TrimRightReaches(s: string, k: nat)
    requires k < |s| && !IsSpace(s[k])
    ensures |TrimRight(s)| > k
  {
    if IsSpace(s[|s| - 1]) { TrimRightReaches(s[..|s| - 1], k); }
  }

  lemma {:induction false} TrimRightStops(s: string, k: nat)
    requires k <= |s| && Spaces(s[k..])
    ensures |TrimRight(s)| <= k
  {
    if |s| > k {
      assert s[k..][|s| - 1 - k] == s[|s| - 1];
      assert s[..|s| - 1][k..] == s[k..][..|s| - 1 - k];
      TrimRightStops(s[..|s| - 1], k);
    }
  }

  lemma SpaceAt(s: string, k: nat)
    requires k < |s| && IsSpace(s[k]) && Spaces(s[k + 1..])
    ensures Spaces(s[k..])
  {
    forall i | 0 <= i < |s[k..]| ensures IsSpace(s[k..][i]) {
      if i > 0 { assert s[k..][i] == s[k + 1..][i - 1]; }
    }
  }

  /** Stripping leaves an article in front alone exactly in that case. */
  lemma StripKeepsArticle(x: string, a: string)
    requires a != [] && (a[|a| - 1] == '\'' || a[|a| - 1] == ' ') && StartsWith(Plainly(x), a)
    ensures |TrimRight(x)| >= |a| <==> a[|a| - 1] == '\'' || !Spaces(x[|a|..])
  {
    var k := |a| - 1;
    hide IsSpace, Plainly, TrimRight;
    assert Plainly(x)[k] == a[k];
    PlainlyChar(x, k);
    if a[k] == '\'' {
      TrimRightReaches(x, k);
    } else {
      assert IsSpace(' ') by { SpaceIsSpace(); }
      if Spaces(x[|a|..]) {
        SpaceAt(x, k);
        TrimRightStops(x, k);
      } else {
        var i :| 0 <= i < |x[|a|..]| && !IsSpace(x[|a|..][i]);
        TrimRightReaches(x, |a| + i);
      }
    }
  }

  lemma SpaceIsSpace()
    ensures IsSpace(' ')
  {
  }

  lemma PlainlyChar(x: string, k: nat)
    requires k < |x|
    ensures Plainly(x)[k] == Plainly([x[k]])[0]
    ensures Plainly(x)[k] == ' ' <==> x[k] == ' '
    ensures Plainly(x)[k] == '\'' || 'a' <= Plainly(x)[k] <= 'z' ==> !IsSpace(x[k])
  {
    PlainlyAt(x, k);
    PlainlyAt([x[k]], 0);
    PlainlyKind(x[k]);
  }

  lemma ArticleEnds(i: nat)
    requires i < |ARTICLES|
    ensures var a := ARTICLES[i]; a != [] && (a[|a| - 1] == '\'' || a[|a| - 1] == ' ')
  {
  }

  /** Some article is at the start of the text. */
  ghost predicate ArticleAhead(x: string) {
    exists i :: 0 <= i < |ARTICLES| && ARTICLES[i] != [] && StartsWithArticle(x, ARTICLES[i])
  }

  lemma CleanIs(s: string)
    ensures var w := TrimRight(TrimLeft(s));
            LowerAll(Clean(s)) == Plainly(w) == Plainly(TrimLeft(s))[..|w|]
  {
    StripByArticle(s);
    var x := TrimLeft(s);
    PlainlySlice(x, |TrimRight(x)|);
  }

  lemma ArticleSurvives(x: string, i: nat)
    requires i < |ARTICLES|
    ensures ARTICLES[i] != []
    ensures StartsWith(Plainly(x)[..|TrimRight(x)|], ARTICLES[i]) <==> StartsWithArticle(x, ARTICLES[i])
  {
    ArticleEnds(i);
    hide Plainly, TrimRight, Spaces;
    PrefixOfPrefix(Plainly(x), |TrimRight(x)|, ARTICLES[i]);
    if StartsWith(Plainly(x), ARTICLES[i]) { StripKeepsArticle(x, ARTICLES[i]); }
  }

  lemma ArticlesNonempty()
    ensures forall i :: 0 <= i < |ARTICLES| ==> ARTICLES[i] != []
  {
  }

  lemma PrefixIffArticle(w: string, x: string, list: seq<string>)
    requires forall i :: 0 <= i < |list| ==> list[i] != []
    requires forall i :: 0 <= i < |list| && list[i] != [] ==>
               (StartsWith(w, list[i]) <==> StartsWithArticle(x, list[i]))
    ensures FirstPrefix(w, list) > 0
       <==> exists i :: 0 <= i < |list| && list[i] != [] && StartsWithArticle(x, list[i])
  {
    hide FirstPrefix, StartsWith, StartsWithArticle;
    if FirstPrefix(w, list) > 0 {
      var i := FirstPrefixIs(w, list);
      assert StartsWithArticle(x, list[i]);
    }
    if i :| 0 <= i < |list| && list[i] != [] && StartsWithArticle(x, list[i]) { FirstPrefixFinds(w, list, i); }
  }

  /** The text from its first character on that is no space. */
  function FromFirst(s: string): string { TrimLeft(s) }

  /** An article in a text is one at the start of it once the spaces in front are gone. */
  lemma HasArticleIff(s: string)
    ensures HasArticle(s) <==> ArticleAhead(FromFirst(s))
  {
    var x := TrimLeft(s);
    var w := Plainly(x)[..|TrimRight(x)|];
    CleanIs(s);
    assert HasArticle(s) <==> FirstPrefix(w, ARTICLES) > 0;
    hide *;
    PrefixOfClean(x, w);
  }

  lemma PrefixOfClean(x: string, w: string)
    requires |TrimRight(x)| <= |Plainly(x)| && w == Plainly(x)[..|TrimRight(x)|]
    ensures FirstPrefix(w, ARTICLES) > 0 <==> ArticleAhead(x)
  {
    hide FirstPrefix, StartsWith, StartsWithArticle, Plainly, TrimRight;
    ArticlesNonempty();
    forall i | 0 <= i < |ARTICLES|
      ensures StartsWith(w, ARTICLES[i]) <==> StartsWithArticle(x, ARTICLES[i])
    {
      ArticleSurvives(x, i);
    }
    PrefixIffArticle(w, x, ARTICLES);
  }

  lemma PrefixOfPrefix(p: string, n: nat, a: string)
    requires n <= |p|
    ensures StartsWith(p[..n], a) <==> StartsWith(p, a) && |a| <= n
  {
    if |a| <= n { assert p[..n][..|a|] == p[..|a|]; }
  }

  // ----- Ligatures are no articles -----

  ghost predicate NoO(a: string) {
    forall i :: 0 <= i < |a| ==> a[i] != 'o' && a[i] != 'œ'
  }

  lemma OLetter(c: char)
    requires Lower(c) == 'o' || Lower(c) == 'œ'
    ensures Plainly([c])[0] == Lower(c) && !IsSpace(c)
  {
    PlainlyAt([c], 0);
    LowerKeepsKind(c);
  }

  lemma LigatureShows(s: string)
    requires OeHere(s)
    ensures var t := WriteLigatures(s);
            && |s| >= 2 && t != []
            && Plainly(s)[0] == 'o' && Plainly(t)[0] == 'œ' && t[1..] == WriteLigatures(s[2..])
            && !IsSpace(s[0]) && !IsSpace(t[0])
  {
    var t := WriteLigatures(s);
    assert Lower('œ') == 'œ' == Lower('Œ');
    OLetter(s[0]);
    OLetter(t[0]);
    hide Lower, IsSpace, Plainly;
    PlainlyStep(s);
    PlainlyStep(t);
  }

  lemma {:induction false} LigaturesKeepPrefix(s: string, a: string)
    requires NoO(a)
    ensures StartsWith(Plainly(WriteLigatures(s)), a) <==> StartsWith(Plainly(s), a)
    ensures StartsWith(Plainly(s), a) ==>
              |a| <= |s| && |a| <= |WriteLigatures(s)| && WriteLigatures(s)[|a|..] == WriteLigatures(s[|a|..])
    decreases |s|
  {
    if s != [] && a != [] {
      var t := WriteLigatures(s);
      NoOStep(a);
      if OeHere(s) {
        hide *;
        LigatureShows(s);
        FirstOf(Plainly(s), a);
        FirstOf(Plainly(t), a);
      } else {
        assert t[1..] == WriteLigatures(s[1..]) && t[0] == s[0] && t != [];
        hide *;
        LigaturesKeepPrefix(s[1..], a[1..]);
        PlainlyStep(s);
        PlainlyStep(t);
        FirstOf(Plainly(s), a);
        FirstOf(Plainly(t), a);
        if StartsWith(Plainly(s), a) { SliceStep(s, t, |a|); }
      }
    } else {
      NothingToStart(s, a);
    }
  }

  lemma NoOStep(a: string)
    requires NoO(a) && a != []
    ensures NoO(a[1..]) && a[0] != 'o' && a[0] != 'œ'
  {
  }

  lemma NothingToStart(s: string, a: string)
    requires s == [] || a == []
    ensures StartsWith(Plainly(WriteLigatures(s)), a) <==> StartsWith(Plainly(s), a)
    ensures StartsWith(Plainly(s), a) ==>
              |a| <= |s| && |a| <= |WriteLigatures(s)| && WriteLigatures(s)[|a|..] == WriteLigatures(s[|a|..])
  {
    hide Plainly, OeHere;
    if a == [] {
      assert s[0..] == s && WriteLigatures(s)[0..] == WriteLigatures(s);
    }
  }

  lemma SliceStep(s: string, t: string, n: nat)
    requires 0 < n && s != [] && t != []
    ensures n <= |s| ==> s[n..] == s[1..][n - 1..]
    ensures n <= |t| ==> t[n..] == t[1..][n - 1..]
  {
  }

  lemma PlainlyStep(s: string)
    requires s != []
    ensures Plainly(s)[0] == Plainly([s[0]])[0] && Plainly(s)[1..] == Plainly(s[1..])
  {
    PlainlyAt(s, 0);
    PlainlyAt([s[0]], 0);
    PlainlySlice(s, 1);
  }

  lemma FirstOf(s: string, a: string)
    requires a != []
    ensures StartsWith(s, a) <==> s != [] && s[0] == a[0] && StartsWith(s[1..], a[1..])
  {
    if |a| <= |s| {
      assert s[..|a|][0] == s[0];
      assert s[..|a|] == [s[0]] + s[1..][..|a| - 1];
      assert a == [a[0]] + a[1..];
    }
  }

  lemma {:induction false} LigaturesKeepSpaces(s: string)
    ensures Spaces(WriteLigatures(s)) <==> Spaces(s)
    decreases |s|
  {
    if s != [] {
      hide OeHere, IsSpace;
      var t := WriteLigatures(s);
      if OeHere(s) {
        LigatureShows(s);
      } else {
        LigaturesKeepSpaces(s[1..]);
        assert t[1..] == WriteLigatures(s[1..]) && t[0] == s[0];
        SpacesStep(s);
        SpacesStep(t);
      }
    }
  }

  lemma SpacesStep(s: string)
    requires s != []
    ensures Spaces(s) <==> IsSpace(s[0]) && Spaces(s[1..])
  {
    hide IsSpace;
    if IsSpace(s[0]) && Spaces(s[1..]) {
      forall i | 0 <= i < |s| ensures IsSpace(s[i]) { if i > 0 { assert s[i] == s[1..][i - 1]; } }
    }
  }

  lemma {:induction false} LigaturesKeepTrim(s: string)
    ensures FromFirst(WriteLigatures(s)) == WriteLigatures(FromFirst(s))
    decreases |s|
  {
    if s != [] {
      var t := WriteLigatures(s);
      hide IsSpace, TrimLeft, OeHere;
      TrimLeftStep(s);
      TrimLeftStep(t);
      if OeHere(s) {
        LigatureShows(s);
      } else {
        assert t[1..] == WriteLigatures(s[1..]) && t[0] == s[0];
        if IsSpace(s[0]) { LigaturesKeepTrim(s[1..]); }
      }
    }
  }

  lemma NoArticleHasO(i: nat)
    requires i < |ARTICLES|
    ensures NoO(ARTICLES[i])
  {
  }

  /** Writing ligatures makes and breaks no article. */
  lemma LigaturesKeepArticle(s: string)
    ensures HasArticle(WriteLigatures(s)) <==> HasArticle(s)
  {
    LigaturesKeepTrim(s);
    hide *;
    HasArticleIff(s);
    HasArticleIff(WriteLigatures(s));
    LigaturesKeepAhead(FromFirst(s));
  }

  lemma LigaturesKeepAhead(x: string)
    ensures ArticleAhead(WriteLigatures(x)) == ArticleAhead(x)
  {
    ArticlesNonempty();
    hide WriteLigatures, StartsWithArticle;
    forall i | 0 <= i < |ARTICLES|
      ensures StartsWithArticle(x, ARTICLES[i]) <==> StartsWithArticle(WriteLigatures(x), ARTICLES[i])
    {
      LigaturesKeepOne(x, i);
    }
  }

  lemma LigaturesKeepOne(x: string, i: nat)
    requires i < |ARTICLES| && ARTICLES[i] != []
    ensures StartsWithArticle(x, ARTICLES[i]) <==> StartsWithArticle(WriteLigatures(x), ARTICLES[i])
  {
    NoArticleHasO(i);
    var a := ARTICLES[i];
    hide Plainly, WriteLigatures, Spaces;
    LigaturesKeepPrefix(x, a);
    if StartsWith(Plainly(x), a) { LigaturesKeepSpaces(x[|a|..]); }
  }

  // ----- Words and gaps -----

  /** Words at the even places, none but the first and last empty, with separators between them. */
  ghost predicate WordsAndGaps(q: seq<string>) {
    && |q| % 2 == 1
    && (forall i :: 0 <= i < |q| && i % 2 == 0 ==> IsWordPart(q[i]))
    && (forall i :: 0 <= i < |q| && i % 2 == 1 ==> IsGap(q[i]))
    && (forall i :: 0 < i < |q| - 1 && i % 2 == 0 ==> q[i] != [])
  }

  ghost predicate IsWordPart(s: string) { forall i :: 0 <= i < |s| ==> !IsSeparator(s[i]) }
  ghost predicate IsGap(s: string) { s != [] && forall i :: 0 <= i < |s| ==> IsSeparator(s[i]) }

  /** Something besides spaces follows the first character of the first gap. */
  predicate More(q: seq<string>)
    requires |q| >= 3 && q[1] != []
  {
    !Spaces(q[1][1..]) || q[2] != []
  }

  /** The first word is `w` before an apostrophe, which may also be inside it. */
  predicate Elided(q: seq<string>, w: string)
    requires |q| >= 1 && (|q| >= 3 ==> q[1] != [])
  {
    StartsWith(Plainly(q[0]), w + "'") || (|q| >= 3 && Plainly(q[0]) == w && Plainly(q[1])[0] == '\'')
  }

  /** The first word is `w` before a space and more. */
  predicate Full(q: seq<string>, w: string)
    requires |q| >= 1 && (|q| >= 3 ==> q[1] != [])
  {
    |q| >= 3 && Plainly(q[0]) == w && q[1][0] == ' ' && More(q)
  }

  /** The words open with an article: one word, or "de" and a second one. */
  ghost predicate FirstWordsAreArticle(q: seq<string>)
    requires WordsAndGaps(q)
  {
    || Elided(q, "l") || Elided(q, "d")
    || Full(q, "le") || Full(q, "la") || Full(q, "les") || Full(q, "un") || Full(q, "une") || Full(q, "des")
    || SecondIsArticle(q)
  }

  ghost predicate SecondIsArticle(q: seq<string>)
    requires WordsAndGaps(q)
  {
    |q| >= 3 && Plainly(q[0]) == "de" && q[1] == " " && (Elided(q[2..], "l") || Full(q[2..], "la"))
  }

  /** So does a text, after spaces in front of its first word. */
  ghost predicate OpensWithArticle(q: seq<string>)
    requires WordsAndGaps(q)
  {
    if q[0] == [] && |q| >= 3 then Spaces(q[1]) && FirstWordsAreArticle(q[2..]) else FirstWordsAreArticle(q)
  }

  lemma SeparatorKind(c: char)
    requires IsSeparator(c)
    ensures var p := Plainly([c])[0]; !('a' <= p <= 'z')
  {
    PlainlyKind(c);
  }

  ghost predicate Letters(w: string) { forall i :: 0 <= i < |w| ==> 'a' <= w[i] <= 'z' }

  /** A word and a space in front: the first part is that word, and the gap begins with the space. */
  lemma WordAndSpace(a: string, r: string, w: string, z: string)
    requires IsWordPart(a) && (r == [] || IsSeparator(r[0])) && Letters(w) && z != [] && z[0] == ' '
    ensures StartsWith(Plainly(a + r), w + z) <==> Plainly(a) == w && StartsWith(Plainly(r), z)
  {
    hide Plainly, IsSeparator;
    PlainlyConcat(a, r);
    var p, q := Plainly(a), Plainly(r);
    PrefixAfter(w, q, z);
    if |a| < |w| {
      ShorterWord(a, r, w, z);
    } else if |w| < |a| {
      PlainlyChar(a, |w|);
      WordHasNoSpace(a, |w|);
      assert (p + q)[|w|] == p[|w|] && (w + z)[|w|] == z[0];
      DiffersAt(p + q, w + z, |w|);
    } else if StartsWith(p + q, w + z) {
      Aligned(p + q, w, z);
      assert (p + q)[..|w|] == p && (p + q)[|w|..] == q;
    }
  }

  lemma PrefixAfter(w: string, q: string, z: string)
    ensures StartsWith(q, z) ==> StartsWith(w + q, w + z)
  {
    if StartsWith(q, z) {
      assert (w + q)[..|w + z|] == w + q[..|z|];
    }
  }

  lemma PrefixStays(p: string, q: string, x: string)
    ensures StartsWith(p, x) ==> StartsWith(p + q, x)
  {
    if StartsWith(p, x) {
      assert (p + q)[..|x|] == p[..|x|];
    }
  }

  lemma DiffersAt(s: string, p: string, i: nat)
    requires i < |p| && i < |s| && s[i] != p[i]
    ensures !StartsWith(s, p)
  {
    if |p| <= |s| { assert s[..|p|][i] == s[i]; }
  }

  lemma ShorterWord(a: string, r: string, w: string, z: string)
    requires (r == [] || IsSeparator(r[0])) && Letters(w) && |a| < |w|
    ensures !StartsWith(Plainly(a + r), w + z)
  {
    hide Plainly, IsSeparator;
    PlainlyConcat(a, r);
    if r != [] {
      PlainlyChar(r, 0);
      SeparatorKind(r[0]);
      assert Plainly(a + r)[|a|] == Plainly(r)[0];
      assert (w + z)[|a|] == w[|a|];
      DiffersAt(Plainly(a + r), w + z, |a|);
    }
  }

  lemma Aligned(s: string, w: string, z: string)
    requires StartsWith(s, w + z)
    ensures |w| <= |s| && s[..|w|] == w && StartsWith(s[|w|..], z)
    ensures forall i :: 0 <= i < |w| ==> s[i] == w[i]
    ensures z != [] ==> s[|w|] == z[0]
  {
    var n := |w| + |z|;
    assert s[..n] == w + z;
    assert forall i :: 0 <= i < n ==> s[i] == s[..n][i];
    assert s[..|w|] == s[..n][..|w|];
    assert s[|w|..][..|z|] == s[..n][|w|..];
  }

  lemma WordHasNoSpace(a: string, i: nat)
    requires IsWordPart(a) && i < |a|
    ensures a[i] != ' '
  {
    assert IsSeparator(' ');
    hide IsSeparator;
  }

  /** A word and an apostrophe in front: the apostrophe ends the word or begins the gap. */
  lemma WordAndApostrophe(a: string, r: string, w: string)
    requires IsWordPart(a) && (r == [] || IsSeparator(r[0])) && Letters(w)
    ensures StartsWith(Plainly(a + r), w + "'")
       <==> StartsWith(Plainly(a), w + "'") || (Plainly(a) == w && r != [] && Plainly(r)[0] == '\'')
  {
    hide Plainly, IsSeparator;
    PlainlyConcat(a, r);
    var p, q := Plainly(a), Plainly(r);
    PrefixAfter(w, q, "'");
    PrefixStays(p, q, w + "'");
    assert q != [] && q[0] == '\'' ==> StartsWith(q, "'") by { if q != [] { assert q[..1] == [q[0]]; } }
    if |a| < |w| {
      ShorterWord(a, r, w, "'");
    } else if StartsWith(p + q, w + "'") {
      Aligned(p + q, w, "'");
      if |w| < |a| {
        assert p[..|w| + 1] == (p + q)[..|w| + 1];
      } else {
        assert (p + q)[..|w|] == p && (p + q)[|w|..] == q;
      }
    }
  }

  // ----- Reading the article off the words -----

  lemma Later(q: seq<string>)
    requires WordsAndGaps(q) && |q| >= 3
    ensures WordsAndGaps(q[2..])
  {
    hide IsWordPart, IsGap;
    assert forall i :: 0 <= i < |q[2..]| ==> q[2..][i] == q[i + 2];
  }

  /** What comes after the first word: nothing, or a gap and the other words. */
  function Behind(q: seq<string>): string
    requires q != []
  {
    Join(q[1..])
  }

  lemma BehindIsGap(q: seq<string>)
    requires WordsAndGaps(q)
    ensures |q| == 1 || |q| >= 3
    ensures Join(q) == q[0] + Behind(q) && IsWordPart(q[0])
    ensures |q| == 1 ==> Behind(q) == []
    ensures |q| >= 3 ==> Behind(q) == q[1] + Join(q[2..]) && IsGap(q[1]) && Behind(q) != [] && Behind(q)[0] == q[1][0]
    ensures Behind(q) == [] || IsSeparator(Behind(q)[0])
  {
    FirstParts(q);
    BehindIs(q);
    hide *;
    if |q| >= 3 { GapStart(q[1], Join(q[2..])); }
  }

  lemma FirstParts(q: seq<string>)
    requires WordsAndGaps(q)
    ensures (|q| == 1 || |q| >= 3) && IsWordPart(q[0]) && (|q| >= 3 ==> IsGap(q[1]))
  {
    hide IsWordPart, IsGap;
  }

  lemma BehindIs(q: seq<string>)
    requires q != []
    ensures Join(q) == q[0] + Behind(q)
    ensures |q| == 1 ==> Behind(q) == []
    ensures |q| >= 2 ==> Behind(q) == q[1] + Join(q[2..])
  {
    if |q| >= 2 { assert q[1..][1..] == q[2..]; }
  }

  lemma GapStart(g: string, rest: string)
    requires IsGap(g)
    ensures g != [] && (g + rest)[0] == g[0] && IsSeparator(g[0])
  {
    hide IsSeparator;
  }

  lemma JoinEmpty(q: seq<string>)
    requires WordsAndGaps(q) && q[0] == []
    ensures |q| == 1 ==> Join(q) == []
    ensures |q| >= 3 ==> Join(q) == Behind(q)
  {
    BehindIsGap(q);
  }

  /** The first word and the rest of a joined text begin with no space. */
  lemma WordStart(q: seq<string>)
    requires WordsAndGaps(q) && q[0] != []
    ensures Join(q) != [] && !IsSeparator(Join(q)[0])
  {
    BehindIsGap(q);
  }

  /** After the first character of the gap come more than spaces: in the gap, or with the next word. */
  lemma MoreIff(q: seq<string>)
    requires WordsAndGaps(q) && |q| >= 3
    ensures More(q) <==> !Spaces(Behind(q)[1..])
  {
    BehindIsGap(q);
    var g, rest := q[1][1..], Join(q[2..]);
    assert Behind(q)[1..] == g + rest;
    Later(q);
    hide IsSpace;
    if q[2] != [] {
      WordStart(q[2..]);
      assert (g + rest)[|g|] == rest[0];
      SeparatorSpace(rest[0]);
    } else {
      assert |q| == 3;
      JoinEmpty(q[2..]);
      assert g + rest == g;
    }
  }

  lemma SeparatorSpace(c: char)
    ensures IsSpace(c) ==> IsSeparator(c)
  {
  }

  lemma ElidedArticle(x: string, w: string)
    ensures StartsWithArticle(x, w + "'") <==> StartsWith(Plainly(x), w + "'")
  {
    hide Plainly, Spaces;
  }

  lemma FullArticle(x: string, w: string)
    ensures StartsWithArticle(x, w + " ") <==> StartsWith(Plainly(x), w + " ") && !Spaces(x[|w| + 1..])
  {
    hide Plainly, Spaces;
  }

  lemma ElidedInText(a: string, b: string, w: string)
    requires IsWordPart(a) && (b == [] || IsSeparator(b[0])) && Letters(w)
    ensures StartsWithArticle(a + b, w + "'")
       <==> StartsWith(Plainly(a), w + "'") || (b != [] && Plainly(a) == w && Plainly(b)[0] == '\'')
  {
    hide *;
    ElidedArticle(a + b, w);
    WordAndApostrophe(a, b, w);
  }

  lemma OneElided(q: seq<string>, w: string)
    requires WordsAndGaps(q) && Letters(w)
    ensures StartsWithArticle(Join(q), w + "'") <==> Elided(q, w)
  {
    BehindIsGap(q);
    assert Elided(q, w) <==>
      StartsWith(Plainly(q[0]), w + "'") || (|q| >= 3 && Plainly(q[0]) == w && Plainly(q[1])[0] == '\'');
    hide *;
    ElidedInText(q[0], Behind(q), w);
    if |q| >= 3 {
      PlainlyChar(Behind(q), 0);
      PlainlyChar(q[1], 0);
    }
  }

  lemma SpaceAhead(s: string)
    requires s != []
    ensures StartsWith(Plainly(s), " ") <==> s[0] == ' '
  {
    PlainlyChar(s, 0);
    hide Plainly;
    assert Plainly(s)[..1] == [Plainly(s)[0]];
  }

  lemma FullInText(a: string, b: string, w: string)
    requires IsWordPart(a) && (b == [] || IsSeparator(b[0])) && Letters(w)
    ensures StartsWithArticle(a + b, w + " ") <==> b != [] && Plainly(a) == w && b[0] == ' ' && !Spaces(b[1..])
  {
    FullArticle(a + b, w);
    WordAndSpace(a, b, w, " ");
    hide *;
    if b != [] {
      SpaceAhead(b);
      if Plainly(a) == w { AfterFirst(a, b, |w|); }
    } else {
      NothingAhead();
    }
  }

  lemma NothingAhead()
    ensures !StartsWith(Plainly([]), " ")
  {
  }

  lemma OneFull(q: seq<string>, w: string)
    requires WordsAndGaps(q) && Letters(w)
    ensures StartsWithArticle(Join(q), w + " ") <==> Full(q, w)
  {
    BehindIsGap(q);
    if |q| >= 3 { MoreIff(q); }
    assert Full(q, w) <==> |q| >= 3 && Plainly(q[0]) == w && q[1][0] == ' ' && More(q);
    hide *;
    FullInText(q[0], Behind(q), w);
  }

  lemma AfterFirst(a: string, b: string, n: nat)
    requires |a| == n && b != []
    ensures (a + b)[n + 1..] == b[1..]
  {
  }

  lemma GapThenWord(g: string, r: string, z: string)
    requires IsGap(g) && z != [] && 'a' <= z[0] <= 'z'
    ensures StartsWith(Plainly(g + r), " " + z) <==> g == " " && StartsWith(Plainly(r), z)
  {
    hide Plainly, IsSeparator;
    PlainlyConcat(g, r);
    var p, q := Plainly(g), Plainly(r);
    PlainlyChar(g, 0);
    if |g| > 1 {
      PlainlyChar(g, 1);
      SeparatorKind(g[1]);
      assert (p + q)[1] == p[1] && (" " + z)[1] == z[0];
      DiffersAt(p + q, " " + z, 1);
    } else {
      assert p + q == [p[0]] + q && (p + q)[1..] == q && (" " + z)[1..] == z;
      FirstOf(p + q, " " + z);
    }
  }

  lemma DeInText(a: string, b: string, z: string)
    requires IsWordPart(a) && (b == [] || IsSeparator(b[0])) && z != []
    ensures StartsWith(Plainly(a + b), "de " + z) <==> Plainly(a) == "de" && StartsWith(Plainly(b), " " + z)
  {
    hide Plainly, IsSeparator;
    assert "de " + z == "de" + (" " + z);
    WordAndSpace(a, b, "de", " " + z);
  }

  /** "de" and a second word in front. */
  lemma TwoWords(q: seq<string>, z: string)
    requires WordsAndGaps(q) && z != [] && 'a' <= z[0] <= 'z'
    ensures StartsWithArticle(Join(q), "de " + z)
       <==> |q| >= 3 && Plainly(q[0]) == "de" && q[1] == " " && StartsWithArticle(Join(q[2..]), z)
  {
    BehindIsGap(q);
    hide *;
    var b := Behind(q);
    DeInText(q[0], b, z);
    DeArticle(Join(q), z);
    if |q| >= 3 {
      var r := Join(q[2..]);
      GapThenWord(q[1], r, z);
      PlainArticle(r, z);
      if Plainly(q[0]) == "de" && q[1] == " " && |z| <= |r| { AfterDe(q[0], r, z); }
    } else {
      NothingBehind(z);
    }
  }

  lemma NothingBehind(z: string)
    ensures !StartsWith(Plainly([]), " " + z)
  {
  }

  lemma AfterDe(a: string, r: string, z: string)
    requires |Plainly(a)| == 2 && |z| <= |r|
    ensures (a + (" " + r))[3 + |z|..] == r[|z|..]
  {
    assert a + (" " + r) == a + " " + r && |a + " "| == 3;
  }

  lemma DeArticle(x: string, z: string)
    requires z != []
    ensures StartsWithArticle(x, "de " + z)
       <==> StartsWith(Plainly(x), "de " + z) && (z[|z| - 1] == '\'' || !Spaces(x[3 + |z|..]))
  {
    hide Plainly, Spaces;
    var a := "de " + z;
    assert a[|a| - 1] == z[|z| - 1] && |a| == 3 + |z|;
  }

  lemma PlainArticle(x: string, z: string)
    requires z != []
    ensures StartsWithArticle(x, z)
       <==> StartsWith(Plainly(x), z) && (z[|z| - 1] == '\'' || !Spaces(x[|z|..]))
    ensures StartsWith(Plainly(x), z) ==> |z| <= |x|
  {
    hide Plainly, Spaces;
  }

  lemma ArticleList(x: string)
    ensures ArticleAhead(x) <==>
      || StartsWithArticle(x, "de la ") || StartsWithArticle(x, "de l'")
      || StartsWithArticle(x, "l'") || StartsWithArticle(x, "d'")
      || StartsWithArticle(x, "le ") || StartsWithArticle(x, "la ") || StartsWithArticle(x, "les ")
      || StartsWithArticle(x, "un ") || StartsWithArticle(x, "une ") || StartsWithArticle(x, "des ")
  {
    hide StartsWithArticle;
    assert ARTICLES[0] == "de la " && ARTICLES[1] == "de l'" && ARTICLES[2] == "l'" && ARTICLES[3] == "d'"
        && ARTICLES[4] == "le ";
    assert ARTICLES[5] == "la " && ARTICLES[6] == "les " && ARTICLES[7] == "un " && ARTICLES[8] == "une "
        && ARTICLES[9] == "des ";
  }

  lemma FirstWords(q: seq<string>)
    requires WordsAndGaps(q)
    ensures FirstWordsAreArticle(q) <==> ArticleAhead(Join(q))
  {
    hide *;
    Spellings();
    ArticleList(Join(q));
    OneElided(q, "l");
    OneElided(q, "d");
    OneFull(q, "le");
    OneFull(q, "la");
    OneFull(q, "les");
    OneFull(q, "un");
    OneFull(q, "une");
    OneFull(q, "des");
    SecondWord(q);
    FirstWordsAre(q);
  }

  lemma FirstWordsAre(q: seq<string>)
    requires WordsAndGaps(q)
    ensures FirstWordsAreArticle(q) <==>
      || Elided(q, "l") || Elided(q, "d")
      || Full(q, "le") || Full(q, "la") || Full(q, "les") || Full(q, "un") || Full(q, "une") || Full(q, "des")
      || SecondIsArticle(q)
  {
  }

  lemma Spellings()
    ensures "l" + "'" == "l'" && "d" + "'" == "d'" && "le" + " " == "le " && "la" + " " == "la "
            && "les" + " " == "les "
    ensures "un" + " " == "un " && "une" + " " == "une " && "des" + " " == "des "
    ensures "de " + "la " == "de la " && "de " + "l'" == "de l'"
    ensures Letters("l") && Letters("d") && Letters("le") && Letters("la") && Letters("les")
    ensures Letters("un") && Letters("une") && Letters("des")
  {
  }

  lemma SecondWord(q: seq<string>)
    requires WordsAndGaps(q)
    ensures StartsWithArticle(Join(q), "de la ") || StartsWithArticle(Join(q), "de l'") <==> SecondIsArticle(q)
  {
    SecondIs(q);
    if |q| >= 3 { Later(q); }
    hide *;
    Spellings();
    TwoWords(q, "la ");
    TwoWords(q, "l'");
    if |q| >= 3 {
      OneElided(q[2..], "l");
      OneFull(q[2..], "la");
    }
  }

  lemma SecondIs(q: seq<string>)
    requires WordsAndGaps(q)
    ensures |q| >= 3 ==> WordsAndGaps(q[2..])
    ensures SecondIsArticle(q) <==>
      |q| >= 3 && Plainly(q[0]) == "de" && q[1] == " " && (Elided(q[2..], "l") || Full(q[2..], "la"))
  {
    if |q| >= 3 { Later(q); }
  }

  lemma GapAhead(q: seq<string>)
    requires WordsAndGaps(q) && q[0] == [] && |q| >= 3
    ensures Spaces(q[1]) ==> FromFirst(Join(q)) == Join(q[2..])
    ensures !Spaces(q[1]) ==> FromFirst(Join(q)) != [] && IsSeparator(FromFirst(Join(q))[0])
  {
    BehindIsGap(q);
    JoinEmpty(q);
    var r := Join(q[2..]);
    Later(q);
    if q[2] != [] {
      WordStart(q[2..]);
      SeparatorSpace(r[0]);
    } else {
      JoinEmpty(q[2..]);
    }
    hide IsSeparator, WordsAndGaps, Join;
    TrimLeftConcat(q[1], r);
    var g := TrimLeft(q[1]);
    assert g == q[1][|q[1]| - |g|..];
  }

  lemma TrimLeftStep(s: string)
    requires s != []
    ensures TrimLeft(s) == if IsSpace(s[0]) then TrimLeft(s[1..]) else s
  {
  }

  lemma {:induction false} TrimLeftConcat(g: string, r: string)
    ensures Spaces(g) ==> TrimLeft(g + r) == TrimLeft(r)
    ensures !Spaces(g) ==> TrimLeft(g + r) == TrimLeft(g) + r && TrimLeft(g) != []
  {
    if g == [] {
      assert g + r == r;
    } else {
      var h, s := g[1..], g + r;
      assert s[1..] == h + r && s[0] == g[0] && s != [];
      hide *;
      SpacesStep(g);
      TrimLeftStep(g);
      TrimLeftStep(s);
      if IsSpace(g[0]) { TrimLeftConcat(h, r); }
    }
  }

  lemma SeparatorAhead(x: string)
    requires x != [] && IsSeparator(x[0])
    ensures !ArticleAhead(x)
  {
    hide IsSeparator, Spaces, Plainly;
    PlainlyChar(x, 0);
    SeparatorKind(x[0]);
    forall i | 0 <= i < |ARTICLES| && ARTICLES[i] != [] ensures !StartsWithArticle(x, ARTICLES[i]) {
      ArticlesArePlain(i);
      DiffersAt(Plainly(x), ARTICLES[i], 0);
    }
  }

  lemma TrimOfWord(s: string)
    ensures s == [] || !IsSpace(s[0]) ==> TrimLeft(s) == s
  {
  }

  lemma AheadAfterGap(q: seq<string>)
    requires WordsAndGaps(q) && q[0] == [] && |q| >= 3
    ensures WordsAndGaps(q[2..])
    ensures ArticleAhead(FromFirst(Join(q))) <==> Spaces(q[1]) && FirstWordsAreArticle(q[2..])
  {
    GapAhead(q);
    hide *;
    Later(q);
    FirstWords(q[2..]);
    if !Spaces(q[1]) { SeparatorAhead(FromFirst(Join(q))); }
  }

  lemma NotTrimmed(q: seq<string>)
    requires WordsAndGaps(q) && (q[0] != [] || |q| == 1)
    ensures FromFirst(Join(q)) == Join(q)
  {
    hide IsSpace, IsSeparator;
    if q[0] != [] {
      WordStart(q);
      SeparatorSpace(Join(q)[0]);
    } else {
      JoinEmpty(q);
    }
    TrimOfWord(Join(q));
  }

  /** A joined text has an article exactly when its first words are one. */
  lemma ArticleByWords(q: seq<string>)
    requires WordsAndGaps(q)
    ensures HasArticle(Join(q)) <==> OpensWithArticle(q)
  {
    OpensIs(q);
    BehindIsGap(q);
    hide *;
    HasArticleIff(Join(q));
    if q[0] == [] && |q| >= 3 {
      AheadAfterGap(q);
    } else {
      NotTrimmed(q);
      FirstWords(q);
    }
  }

  lemma OpensIs(q: seq<string>)
    requires WordsAndGaps(q)
    ensures |q| >= 3 ==> WordsAndGaps(q[2..])
    ensures OpensWithArticle(q) <==>
      if q[0] == [] && |q| >= 3 then Spaces(q[1]) && FirstWordsAreArticle(q[2..]) else FirstWordsAreArticle(q)
  {
    if |q| >= 3 { Later(q); }
  }

  // ----- The words of a text, typed and respelled -----

  lemma {:induction false} SplitIsWords(s: string)
    ensures WordsAndGaps(Split(s))
    ensures s == [] ==> Split(s) == [[]]
    ensures s != [] && !IsSeparator(s[0]) ==> Split(s)[0] != []
    decreases |s|
  {
    var w := RunLength(s, false);
    if w < |s| {
      var gap := s[w..];
      var p := RunLength(gap, true);
      var rest := s[w + p..];
      SplitIsWords(rest);
      hide RunLength, IsSeparator;
      assert p < |gap| ==> rest != [] && rest[0] == gap[p];
      SplitStep(s, w, p);
      PutInFront(s[..w], s[w..w + p], Split(rest));
    }
  }

  lemma SplitUnfold(s: string, w: nat, p: nat)
    requires w == RunLength(s, false) < |s| && p == RunLength(s[w..], true)
    ensures Split(s) == [s[..w], s[w..w + p]] + Split(s[w + p..])
  {
    hide RunLength;
  }

  lemma RunsMeet(s: string, w: nat, p: nat)
    requires w == RunLength(s, false) < |s| && p == RunLength(s[w..], true)
    ensures p > 0 && (!IsSeparator(s[0]) ==> w > 0)
  {
    hide RunLength, IsSeparator;
    assert s[w..][0] == s[w];
  }

  lemma SplitStep(s: string, w: nat, p: nat)
    requires w == RunLength(s, false) < |s| && p == RunLength(s[w..], true)
    ensures w + p <= |s| && Split(s) == [s[..w], s[w..w + p]] + Split(s[w + p..])
    ensures IsWordPart(s[..w]) && IsGap(s[w..w + p])
    ensures !IsSeparator(s[0]) ==> w > 0
  {
    hide *;
    SplitUnfold(s, w, p);
    RunsMeet(s, w, p);
    RunIsPart(s);
    RunIsPart(s[w..]);
    assert s[w..][..p] == s[w..w + p];
  }

  lemma RunIsPart(s: string)
    ensures IsWordPart(s[..RunLength(s, false)])
    ensures RunLength(s, true) > 0 ==> IsGap(s[..RunLength(s, true)])
  {
    hide RunLength, IsSeparator;
  }

  lemma PutInFront(a: string, g: string, q: seq<string>)
    requires IsWordPart(a) && IsGap(g) && WordsAndGaps(q) && (|q| == 1 || q[0] != [])
    ensures WordsAndGaps([a, g] + q)
  {
    hide IsWordPart, IsGap;
    var r := [a, g] + q;
    assert forall i :: 2 <= i < |r| ==> r[i] == q[i - 2];
  }

  lemma {:induction false} FoldKeepsWords(s: string)
    ensures IsWordPart(Fold(s)) <==> IsWordPart(s)
  {
    if s != [] {
      FoldCharKeepsWords(s[0]);
      hide FoldChar, IsSeparator;
      FoldKeepsWords(s[1..]);
      WordConcat([s[0]], s[1..]);
      assert s == [s[0]] + s[1..];
      WordConcat(FoldChar(s[0]), Fold(s[1..]));
    }
  }

  lemma FoldCharKeepsWords(c: char)
    ensures IsWordPart(FoldChar(c)) <==> IsWordPart([c])
    ensures IsWordPart(Upper(c)) <==> IsWordPart([c])
    ensures Upper(c) != []
  {
    assert [c][0] == c;
    if IsSeparator(c) { SeparatorStays(c); } else { LetterStays(c); }
    hide IsSeparator, FoldChar, Upper;
  }

  lemma SeparatorStays(c: char)
    requires IsSeparator(c)
    ensures FoldChar(c) == [c] && Upper(c) == [c]
  {
  }

  lemma LetterStays(c: char)
    requires !IsSeparator(c)
    ensures IsWordPart(FoldChar(c)) && IsWordPart(Upper(c)) && Upper(c) != []
  {
    var l := Lower(c);
    assert !IsSeparator(l);
    assert !IsSeparator(Base(l));
  }

  lemma WordConcat(a: string, b: string)
    ensures IsWordPart(a + b) <==> IsWordPart(a) && IsWordPart(b)
  {
    hide IsSeparator;
    if IsWordPart(a + b) {
      assert forall i :: 0 <= i < |a| ==> (a + b)[i] == a[i];
      assert forall i :: 0 <= i < |b| ==> (a + b)[|a| + i] == b[i];
    }
  }

  /** A word gives way to a word. */
  lemma RespelledIsWord(t: Table, word: string)
    requires forall k :: k in t.best ==> t.best[k] in t.forms
    requires Keyed(t) && IsWordPart(word)
    ensures IsWordPart(RespellWord(t, word)) && (word != [] ==> RespellWord(t, word) != [])
  {
    LowerAllKeepsFold(word);
    FoldKeepsWords(word);
    hide Fold, IsWordPart;
    if Replacement(t, word).Some? {
      var top := Replacement(t, word).value;
      FoldKeepsWords(top);
      FoldCharKeepsWords(top[0]);
      assert top == [top[0]] + top[1..];
      WordConcat([top[0]], top[1..]);
      WordConcat(Upper(top[0]), top[1..]);
    }
  }

  lemma {:induction false} RespelledPartAt(t: Table, parts: seq<string>, i: nat, k: nat)
    requires forall k :: k in t.best ==> t.best[k] in t.forms
    requires k < |parts|
    ensures RespellParts(t, parts, i)[k] == if (i + k) % 2 == 1 then parts[k] else RespellWord(t, parts[k])
    decreases k
  {
    hide RespellWord;
    if k > 0 { RespelledPartAt(t, parts[1..], i + 1, k - 1); }
  }

  /** The words of a text, each giving way to its table form. */
  function RespelledWords(t: Table, text: string): seq<string>
    requires forall k :: k in t.best ==> t.best[k] in t.forms
  {
    RespellParts(t, Split(text), 0)
  }

  lemma RespelledAreWords(t: Table, text: string)
    requires forall k :: k in t.best ==> t.best[k] in t.forms
    requires Keyed(t)
    ensures WordsAndGaps(RespelledWords(t, text))
  {
    var parts, q := Split(text), RespelledWords(t, text);
    SplitIsWords(text);
    assert forall k :: 0 <= k < |parts| && k % 2 == 0 ==> IsWordPart(parts[k]) by { hide IsWordPart, IsGap; }
    hide *;
    RespelledSize(t, text);
    forall k | 0 <= k < |q|
      ensures k % 2 == 1 ==> q[k] == parts[k]
      ensures k % 2 == 0 ==> IsWordPart(q[k]) && (parts[k] != [] ==> q[k] != [])
    {
      RespelledWordAt(t, text, k);
      if k % 2 == 0 { RespelledIsWord(t, parts[k]); }
    }
    SameShape(parts, q);
  }

  lemma RespelledSize(t: Table, text: string)
    requires forall k :: k in t.best ==> t.best[k] in t.forms
    ensures |RespelledWords(t, text)| == |Split(text)|
  {
  }

  lemma RespelledWordAt(t: Table, text: string, k: nat)
    requires forall k :: k in t.best ==> t.best[k] in t.forms
    requires k < |Split(text)|
    ensures |RespelledWords(t, text)| == |Split(text)|
    ensures RespelledWords(t, text)[k]
         == if k % 2 == 1 then Split(text)[k] else RespellWord(t, Split(text)[k])
  {
    hide RespellWord, Split, RespellParts;
    RespelledPartAt(t, Split(text), 0, k);
  }

  lemma SameShape(parts: seq<string>, q: seq<string>)
    requires WordsAndGaps(parts) && |q| == |parts|
    requires forall k :: 0 <= k < |q| && k % 2 == 1 ==> q[k] == parts[k]
    requires forall k :: 0 <= k < |q| && k % 2 == 0 ==> IsWordPart(q[k]) && (parts[k] != [] ==> q[k] != [])
    ensures WordsAndGaps(q)
  {
    hide IsWordPart, IsGap;
  }

  /** A text has an article as its first words say, typed or respelled. */
  lemma ArticlesOfText(t: Table, text: string)
    requires forall k :: k in t.best ==> t.best[k] in t.forms
    requires Keyed(t)
    ensures WordsAndGaps(Split(text)) && WordsAndGaps(RespelledWords(t, text))
    ensures HasArticle(text) <==> OpensWithArticle(Split(text))
    ensures HasArticle(Respell(t, text)) <==> OpensWithArticle(RespelledWords(t, text))
  {
    SplitIsWords(text);
    SplitJoins(text);
    RespelledAreWords(t, text);
    assert Respell(t, text) == WriteLigatures(Join(RespelledWords(t, text)));
    hide *;
    ArticleByWords(Split(text));
    ArticleByWords(RespelledWords(t, text));
    LigaturesKeepArticle(Join(RespelledWords(t, text)));
  }

  // ----- The lookup slug of a respelled text -----

  /** Respelling makes or breaks an article in front. */
  ghost predicate MovesArticle(t: Table, text: string)
    requires forall k :: k in t.best ==> t.best[k] in t.forms
    requires WordsAndGaps(Split(text)) && WordsAndGaps(RespelledWords(t, text))
  {
    OpensWithArticle(Split(text)) != OpensWithArticle(RespelledWords(t, text))
  }

  /**
   Respelling a text leaves the slug it is looked up by alone exactly when it makes or breaks no
   article, which the first words decide: for every text whose accent-free key respelling keeps.
   */
  lemma RespellKeepsSlugIff(lines: seq<Line>, text: string)
    requires !SomeCapitalChanges(Loaded(lines), Split(text), 0)
    ensures WordsAndGaps(Split(text)) && WordsAndGaps(RespelledWords(Loaded(lines), text))
    ensures FullSlug(Respell(Loaded(lines), text)) == FullSlug(text) <==> !MovesArticle(Loaded(lines), text)
  {
    var t := Loaded(lines);
    RespellKeepsKeyIff(lines, text);
    LoadedIsKeyed(lines);
    ArticlesOfText(t, text);
    SameSlugIff(text, Respell(t, text));
    assert MovesArticle(t, text) <==> OpensWithArticle(Split(text)) != OpensWithArticle(RespelledWords(t, text));
    hide *;
  }

  /** A text with no key at all keeps it, or gets one, only by what is left without an article. */
  predicate HasKey(text: string) { Slugify(StripLeadingArticle(Strip(text))) != [] }

  lemma LookupSlugIff(s: string, digest: string -> string)
    ensures LookupSlug(s, digest) == if HasKey(s) then Some(ClampSlug(FullSlug(s), 64, digest)) else None
    ensures HasKey(s) ==> |FullSlug(s)| <= |SlugOf(Fold(s))|
  {
    if HasKey(s) { LookupSlugIs(s, digest); }
    hide Slugify, StripLeadingArticle, Strip, FullSlug, KeyOf;
  }

  /**
   The key itself: cut to 64 characters, so that for a longer slug two keys may also agree by chance
   of the hash. A key is lost, too, when only ligatures are left of the word.
   */
  lemma RespellKeepsLookupSlugIff(lines: seq<Line>, text: string, digest: string -> string)
    requires !SomeCapitalChanges(Loaded(lines), Split(text), 0) && HasKey(text)
    ensures WordsAndGaps(Split(text)) && WordsAndGaps(RespelledWords(Loaded(lines), text))
    ensures var r := Respell(Loaded(lines), text);
            var same := !MovesArticle(Loaded(lines), text) && HasKey(r);
            && (same ==> LookupSlug(r, digest) == LookupSlug(text, digest))
            && (|SlugOf(Fold(text))| <= 64 ==> (LookupSlug(r, digest) == LookupSlug(text, digest) <==> same))
  {
    var r := Respell(Loaded(lines), text);
    RespellKeepsKeyIff(lines, text);
    RespellKeepsSlugIff(lines, text);
    LookupSlugIff(text, digest);
    LookupSlugIff(r, digest);
    var a, b := FullSlug(text), FullSlug(r);
    ClampShort(a, digest);
    ClampShort(b, digest);
    hide *;
  }

  lemma ClampShort(slug: string, digest: string -> string)
    ensures |slug| <= 64 ==> ClampSlug(slug, 64, digest) == slug
  {
  }
}
