/**
 What respelling does to the lookup key, articles included: two texts that fold alike share a key
 exactly when both or neither of them opens with an article.
 */
module RespelledKeys {
  import opened Options
  import opened Text
  import opened Lexicon
  import opened Articles
  import opened Lookup

  // ----- Slugs -----

  lemma TrimStartOfCollapse(x: string)
    ensures TrimStart(Collapse(x, true)) == TrimStart(Collapse(x, false))
  {
    if x != [] && !InSlug(x[0]) {
      var y := Collapse(x[1..], true);
      assert Collapse(x, true) == y && Collapse(x, false) == "_" + y;
      assert ("_" + y)[1..] == y;
    }
  }

  lemma {:induction false} TrimEndGrows(c: char, y: string)
    requires c != '_'
    ensures TrimEnd([c] + y) == [c] + TrimEnd(y)
  {
    if y == [] || y[|y| - 1] != '_' {
      assert ([c] + y)[|y|] == if y == [] then c else y[|y| - 1];
    } else {
      TrimEndGrows(c, y[..|y| - 1]);
      assert ([c] + y)[..|y|] == [c] + y[..|y| - 1];
    }
  }

  lemma {:induction false} TrimEndOfPrefix(x: string, y: string)
    ensures |TrimEnd(y)| <= |TrimEnd(x + y)|
  {
    if y != [] && y[|y| - 1] == '_' {
      TrimEndOfPrefix(x, y[..|y| - 1]);
      assert (x + y)[..|x + y| - 1] == x + y[..|y| - 1];
    }
  }

  lemma {:induction false} TrimEndShorter(y: string)
    ensures |TrimEnd(y)| <= |y|
  {
    if y != [] { TrimEndShorter(y[..|y| - 1]); }
  }

  lemma {:induction false} TrimStartSuffix(y: string)
    ensures TrimStart(y) == y[|y| - |TrimStart(y)|..]
  {
    if y != [] && y[0] == '_' {
      TrimStartSuffix(y[1..]);
    }
  }

  /** A character in front adds a letter to the slug, or leaves it alone if it belongs to none. */
  lemma SlugOfPrepend(c: char, x: string)
    ensures InSlug(c) ==> |SlugOf([c] + x)| > |SlugOf(x)|
    ensures !InSlug(c) ==> SlugOf([c] + x) == SlugOf(x)
  {
    assert ([c] + x)[1..] == x;
    if InSlug(c) {
      var y := Collapse(x, false);
      TrimEndGrows(c, y);
      TrimStartSuffix(y);
      var n := |y| - |TrimStart(y)|;
      TrimEndOfPrefix(y[..n], y[n..]);
      assert y[..n] + y[n..] == y;
    } else {
      TrimStartOfCollapse(x);
      assert ("_" + Collapse(x, true))[1..] == Collapse(x, true);
    }
  }

  lemma {:induction false} CollapseAppend(x: string, c: char, inRun: bool)
    requires !InSlug(c)
    ensures Collapse(x + [c], inRun) == Collapse(x, inRun) || Collapse(x + [c], inRun) == Collapse(x, inRun) + "_"
  {
    if x == [] {
      assert x + [c] == [c] && [c][1..] == [];
    } else {
      CollapseAppend(x[1..], c, !InSlug(x[0]));
      assert (x + [c])[1..] == x[1..] + [c];
    }
  }

  lemma {:induction false} TrimsAppend(y: string)
    ensures TrimEnd(TrimStart(y + "_")) == TrimEnd(TrimStart(y))
  {
    if y == [] {
      assert TrimStart("_") == [] by { assert "_"[1..] == []; }
      assert y + "_" == "_";
    } else if y[0] == '_' {
      TrimsAppend(y[1..]);
      assert (y + "_")[1..] == y[1..] + "_";
    } else {
      assert (y + "_")[..|y|] == y;
    }
  }

  lemma SlugOfAppend(x: string, c: char)
    requires !InSlug(c)
    ensures SlugOf(x + [c]) == SlugOf(x)
  {
    CollapseAppend(x, c, false);
    TrimsAppend(Collapse(x, false));
  }

  ghost predicate NoSlug(s: string) {
    forall i :: 0 <= i < |s| ==> !InSlug(s[i])
  }

  lemma {:induction false} SlugOfPadded(before: string, x: string, after: string)
    requires NoSlug(before) && NoSlug(after)
    ensures SlugOf(before + x + after) == SlugOf(x)
  {
    hide SlugOf;
    if before != [] {
      SlugOfPrepend(before[0], before[1..] + x + after);
      assert before + x + after == [before[0]] + (before[1..] + x + after);
      SlugOfPadded(before[1..], x, after);
    } else if after != [] {
      var n := |after| - 1;
      SlugOfAppend(x + after[..n], after[n]);
      assert before + x + after == x + after[..n] + [after[n]];
      SlugOfPadded([], x, after[..n]);
      assert [] + x + after[..n] == x + after[..n];
    } else {
      assert before + x + after == x;
    }
  }

  /** Letters and digits in runs, one underscore between two runs and none at the ends. */
  ghost predicate IsSlug(s: string) {
    && (forall i :: 0 <= i < |s| ==> 'a' <= s[i] <= 'z' || '0' <= s[i] <= '9' || s[i] == '_')
    && (s != [] ==> s[0] != '_' && s[|s| - 1] != '_')
    && (forall i :: 0 <= i < |s| - 1 ==> !(s[i] == '_' && s[i + 1] == '_'))
  }

  ghost predicate Runs(s: string) {
    && (forall i :: 0 <= i < |s| ==> InSlug(s[i]) || s[i] == '_')
    && (forall i :: 0 <= i < |s| - 1 ==> !(s[i] == '_' && s[i + 1] == '_'))
  }

  lemma {:induction false} CollapseIsRuns(s: string, inRun: bool)
    ensures Runs(Collapse(s, inRun))
    ensures inRun && Collapse(s, inRun) != [] ==> Collapse(s, inRun)[0] != '_'
  {
    if s != [] { CollapseIsRuns(s[1..], !InSlug(s[0])); }
  }

  lemma {:induction false} TrimEndIsPrefix(s: string)
    ensures |TrimEnd(s)| <= |s| && TrimEnd(s) == s[..|TrimEnd(s)|]
    ensures TrimEnd(s) != [] ==> TrimEnd(s)[|TrimEnd(s)| - 1] != '_'
  {
    if s != [] && s[|s| - 1] == '_' { TrimEndIsPrefix(s[..|s| - 1]); }
  }

  lemma {:induction false} TrimStartStart(s: string)
    ensures TrimStart(s) != [] ==> TrimStart(s)[0] != '_'
  {
    if s != [] && s[0] == '_' { TrimStartStart(s[1..]); }
  }

  /** Every slug has that shape. */
  lemma SlugIsSlug(x: string)
    ensures IsSlug(SlugOf(x))
  {
    hide Collapse, TrimStart, TrimEnd;
    var c := Collapse(x, false);
    var t := TrimStart(c);
    CollapseIsRuns(x, false);
    TrimStartSuffix(c);
    TrimStartStart(c);
    TrimEndIsPrefix(t);
    var k := |c| - |t|;
    assert forall i :: 0 <= i < |t| ==> t[i] == c[i + k];
  }

  lemma {:induction false} CollapseOfRuns(s: string, inRun: bool)
    requires Runs(s) && (inRun && s != [] ==> s[0] != '_')
    ensures Collapse(s, inRun) == s
  {
    if s != [] { CollapseOfRuns(s[1..], !InSlug(s[0])); }
  }

  /** And a text of that shape is its own slug. */
  lemma SlugOfSlug(s: string)
    requires IsSlug(s)
    ensures SlugOf(s) == s
  {
    CollapseOfRuns(s, false);
  }

  /** Keys fit the column, and two long slugs share a key only if they share a start and a digest. */
  lemma KeysFitAndDiffer(a: string, b: string, digest: string -> string)
    requires |digest(a)| == 8 && |digest(b)| == 8
    ensures |ClampSlug(a, 64, digest)| <= 64
    ensures |a| > 64 && |b| > 64 ==>
              (ClampSlug(a, 64, digest) == ClampSlug(b, 64, digest) <==> a[..55] == b[..55] && digest(a) == digest(b))
  {
    if |a| > 64 && |b| > 64 {
      var k, l := ClampSlug(a, 64, digest), ClampSlug(b, 64, digest);
      assert k[56..] == digest(a) && l[56..] == digest(b);
      assert k[..55] == a[..55] && l[..55] == b[..55];
    }
  }

  lemma {:induction false} SlugOfLonger(a: string, x: string)
    ensures |SlugOf(x)| <= |SlugOf(a + x)|
    ensures a != [] && InSlug(a[0]) ==> |SlugOf(x)| < |SlugOf(a + x)|
  {
    hide SlugOf;
    if a == [] {
      assert a + x == x;
    } else {
      SlugOfLonger(a[1..], x);
      SlugOfPrepend(a[0], a[1..] + x);
      assert a + x == [a[0]] + (a[1..] + x);
    }
  }

  // ----- Apostrophes -----

  function Straight(s: string): string { Replace(Replace(s, '’', '\''), '‘', '\'') }

  lemma StraightAt(s: string)
    ensures |Straight(s)| == |s|
    ensures forall i :: 0 <= i < |s| ==> Straight(s)[i] == if s[i] == '’' || s[i] == '‘' then '\'' else s[i]
  {
  }

  lemma StraightConcat(a: string, b: string)
    ensures Straight(a + b) == Straight(a) + Straight(b)
  {
  }

  lemma {:induction false} SlugOfStraight(s: string)
    ensures SlugOf(Straight(s)) == SlugOf(s)
  {
    CollapseStraight(s, false);
  }

  lemma {:induction false} CollapseStraight(s: string, inRun: bool)
    ensures Collapse(Straight(s), inRun) == Collapse(s, inRun)
  {
    StraightAt(s);
    if s != [] {
      CollapseStraight(s[1..], !InSlug(s[0]));
      assert Straight(s)[1..] == Straight(s[1..]);
    }
  }

  lemma {:induction false} FoldStraight(s: string)
    ensures Fold(Straight(s)) == Straight(Fold(s))
  {
    if s != [] {
      var c, rest := s[0], s[1..];
      assert s == [c] + rest;
      StraightChar(c);
      hide FoldChar, Fold, Straight;
      FoldStraight(rest);
      StraightConcat([c], rest);
      var d := Straight([c])[0];
      FoldPrepend(d, Straight(rest));
      FoldPrepend(c, rest);
      StraightConcat(FoldChar(c), Fold(rest));
    }
  }

  lemma StraightChar(c: char)
    ensures Straight([c]) == [if c == '’' || c == '‘' then '\'' else c]
    ensures FoldChar(Straight([c])[0]) == Straight(FoldChar(c))
  {
    StraightAt([c]);
    StraightAt(FoldChar(c));
  }

  // ----- Spaces -----

  lemma {:induction false} FoldSpaces(s: string)
    requires Spaces(s)
    ensures Fold(s) == s
    ensures NoSlug(s)
  {
    if s != [] {
      FoldSpaces(s[1..]);
      assert FoldChar(s[0]) == [s[0]];
    }
  }

  /** Slugs do not see the spaces around a text. */
  lemma SlugOfStripped(s: string)
    ensures SlugOf(Fold(Strip(s))) == SlugOf(Fold(s))
  {
    hide SlugOf, Strip, Fold;
    var before, after := StripDropsSpaces(s);
    FoldSpaces(before);
    FoldSpaces(after);
    FoldConcat(before + Strip(s), after);
    FoldConcat(before, Strip(s));
    SlugOfPadded(before, Fold(Strip(s)), after);
  }

  // ----- Articles -----

  /** The text without the spaces around it, with straight apostrophes. */
  function Clean(s: string): string { Straight(Strip(Strip(s))) }

  /** The length of the article the text opens with. */
  function Article(s: string): nat { FirstPrefix(LowerAll(Clean(s)), ARTICLES) }

  predicate HasArticle(s: string) { Article(s) > 0 }

  lemma StripByArticle(s: string)
    ensures Clean(s) == Straight(Strip(s))
    ensures |Clean(s)| == |LowerAll(Clean(s))|
    ensures StripLeadingArticle(Strip(s)) == if HasArticle(s) then Strip(Clean(s)[Article(s)..]) else Clean(s)
  {
    hide Strip, FirstPrefix;
    StripIsTrimmed(s);
    StripIsTrimmed(Strip(s));
  }

  ghost predicate Plain(s: string) {
    forall i :: 0 <= i < |s| ==> 'a' <= s[i] <= 'z' || s[i] == ' ' || s[i] == '\''
  }

  lemma {:induction false} FoldPlain(s: string)
    requires Plain(s)
    ensures Fold(s) == s
  {
    if s != [] {
      FoldPlain(s[1..]);
      assert FoldChar(s[0]) == [s[0]];
    }
  }

  lemma ArticlesArePlain(i: nat)
    requires i < |ARTICLES|
    ensures Plain(ARTICLES[i]) && |ARTICLES[i]| >= 2 && 'a' <= ARTICLES[i][0] <= 'z'
  {
  }

  /** No article is the start of another. */
  lemma ArticlesDiffer(i: nat, j: nat, s: string)
    requires i < |ARTICLES| && j < |ARTICLES|
    requires StartsWith(s, ARTICLES[i]) && StartsWith(s, ARTICLES[j])
    ensures i == j
  {
    var a, b := ARTICLES[i], ARTICLES[j];
    assert forall k :: 0 <= k < |a| ==> s[..|a|][k] == s[k];
    assert forall k :: 0 <= k < |b| ==> s[..|b|][k] == s[k];
    assert forall k :: 0 <= k < |a| && k < |b| ==> a[k] == b[k];
    assert a[0] == b[0] && a[1] == b[1];
    assert |a| > 2 && |b| > 2 ==> a[2] == b[2];
    assert |a| > 4 && |b| > 4 ==> a[4] == b[4];
  }

  /** The folded text, from its first letter on. */
  function Folded(s: string): string { Straight(Fold(TrimLeft(s))) }

  /** The slug of the text without its article, before it is cut to size; empty for no key at all. */
  function FullSlug(s: string): string { SlugOf(Fold(StripLeadingArticle(Strip(s)))) }

  /** A text with an article folds to the article and what is left. */
  lemma ArticleInFold(s: string) returns (i: nat, rest: string, after: string)
    requires HasArticle(s)
    ensures i < |ARTICLES| && NoSlug(after)
    ensures StripLeadingArticle(Strip(s)) == Strip(rest)
    ensures Folded(s) == ARTICLES[i] + Fold(rest) + after
  {
    hide Strip, StripLeadingArticle, FirstPrefix, Fold, TrimLeft, IsSpace;
    StripByArticle(s);
    var w := Clean(s);
    i := FirstPrefixIs(LowerAll(w), ARTICLES);
    ArticlesArePlain(i);
    var n := |ARTICLES[i]|;
    rest := w[n..];
    var before, spaces := StripDropsSpaces(s);
    after := Straight(spaces);
    assert LowerAll(w[..n]) == LowerAll(w)[..n] == ARTICLES[i];
    LowerAllKeepsFold(w[..n]);
    FoldPlain(ARTICLES[i]);
    FoldConcat(w[..n], rest);
    assert w[..n] + rest == w;
    FoldedIs(s, spaces);
    StraightAt(spaces);
    FoldSpaces(spaces);
  }

  lemma FoldedIs(s: string, spaces: string)
    requires TrimLeft(s) == Strip(s) + spaces && Spaces(spaces)
    ensures Folded(s) == Fold(Clean(s)) + Straight(spaces)
  {
    hide Strip, Fold, TrimLeft, IsSpace;
    StripByArticle(s);
    FoldSpaces(spaces);
    FoldConcat(Strip(s), spaces);
    FoldStraight(Strip(s));
    StraightConcat(Fold(Strip(s)), spaces);
  }

  /** So the slug of what is left can be read off the folded text. */
  lemma SlugAfterArticle(s: string) returns (i: nat)
    requires HasArticle(s)
    ensures i < |ARTICLES| && StartsWith(Folded(s), ARTICLES[i])
    ensures FullSlug(s) == SlugOf(Folded(s)[|ARTICLES[i]|..])
  {
    hide SlugOf, Strip, StripLeadingArticle, FirstPrefix, Fold, HasArticle, Folded;
    var rest, after;
    i, rest, after := ArticleInFold(s);
    assert Folded(s) == ARTICLES[i] + (Fold(rest) + after);
    SlugOfStripped(rest);
    SlugOfPadded([], Fold(rest), after);
    assert [] + Fold(rest) + after == Fold(rest) + after;
  }

  lemma FoldPadding(s: string) returns (before: string)
    ensures Spaces(before) && Fold(s) == before + Fold(TrimLeft(s))
  {
    hide TrimLeft, Fold, IsSpace;
    TrimLeftDropsSpaces(s);
    before := s[..|s| - |TrimLeft(s)|];
    assert s == before + TrimLeft(s);
    FoldConcat(before, TrimLeft(s));
    FoldSpaces(before);
  }

  /** Folded after the spaces in front are gone, or before: no difference if an article follows. */
  lemma TrimThenFold(s: string)
    requires HasArticle(s)
    ensures TrimLeft(Fold(s)) == Fold(TrimLeft(s))
  {
    hide TrimLeft, Fold, HasArticle, IsSpace;
    ArticleLetter(s);
    var before := FoldPadding(s);
    TrimLeftOfPadded(before, Fold(TrimLeft(s)));
  }

  lemma ArticleLetter(s: string)
    requires HasArticle(s)
    ensures var f := Fold(TrimLeft(s)); f != [] && !IsSpace(f[0])
  {
    hide SlugOf, TrimLeft, Fold, HasArticle, FullSlug, Straight, IsSpace;
    var i := SlugAfterArticle(s);
    ArticlesArePlain(i);
    var f, a := Fold(TrimLeft(s)), ARTICLES[i];
    StraightAt(f);
    FirstLetter(Straight(f), a);
    LetterIsNoSpace(a[0]);
  }

  lemma FirstLetter(s: string, p: string)
    requires p != [] && StartsWith(s, p)
    ensures s != [] && s[0] == p[0]
  {
    assert s[..|p|][0] == s[0];
  }

  lemma LetterIsNoSpace(c: char)
    requires 'a' <= c <= 'z'
    ensures !IsSpace(c)
  {
  }

  lemma {:induction false} TrimLeftOfPadded(before: string, f: string)
    requires Spaces(before) && f != [] && !IsSpace(f[0])
    ensures TrimLeft(before + f) == f
  {
    if before != [] {
      TrimLeftOfPadded(before[1..], f);
      assert (before + f)[1..] == before[1..] + f;
    } else {
      assert before + f == f;
    }
  }

  /** Without an article the whole text is keyed. */
  lemma NoArticleKey(s: string)
    requires !HasArticle(s)
    ensures FullSlug(s) == SlugOf(Fold(s))
  {
    hide SlugOf, Strip, StripLeadingArticle, Fold, FirstPrefix;
    StripByArticle(s);
    FoldStraight(Strip(s));
    SlugOfStraight(Fold(Strip(s)));
    SlugOfStripped(s);
  }

  lemma ArticleKey(s: string)
    requires HasArticle(s)
    ensures |FullSlug(s)| < |SlugOf(Fold(s))|
  {
    hide SlugOf, Fold, TrimLeft, IsSpace, HasArticle, FullSlug;
    var i := SlugAfterArticle(s);
    ArticlesArePlain(i);
    var a, f := ARTICLES[i], Folded(s);
    assert a + f[|a|..] == f;
    SlugOfLonger(a, f[|a|..]);
    SlugOfStraight(Fold(TrimLeft(s)));
    var before := FoldPadding(s);
    FoldSpaces(before);
    SlugOfPadded(before, Fold(TrimLeft(s)), []);
    assert before + Fold(TrimLeft(s)) + [] == Fold(s);
  }

  lemma SameArticleSameSlug(a: string, b: string)
    requires Fold(a) == Fold(b) && HasArticle(a) == HasArticle(b)
    ensures FullSlug(a) == FullSlug(b)
  {
    hide SlugOf, Fold, TrimLeft, HasArticle, FullSlug;
    if HasArticle(a) {
      var i := SlugAfterArticle(a);
      var j := SlugAfterArticle(b);
      TrimThenFold(a);
      TrimThenFold(b);
      assert Folded(a) == Folded(b);
      ArticlesDiffer(i, j, Folded(a));
    } else {
      NoArticleKey(a);
      NoArticleKey(b);
    }
  }

  /** Of two texts that fold alike, the one with an article has the shorter slug. */
  lemma SameSlugIff(a: string, b: string)
    requires Fold(a) == Fold(b)
    ensures FullSlug(a) == FullSlug(b) <==> HasArticle(a) == HasArticle(b)
  {
    hide SlugOf, Fold, HasArticle, FullSlug;
    if HasArticle(a) == HasArticle(b) {
      SameArticleSameSlug(a, b);
    } else if HasArticle(a) {
      ArticleKey(a);
      NoArticleKey(b);
    } else {
      ArticleKey(b);
      NoArticleKey(a);
    }
  }

  lemma LookupSlugIs(s: string, digest: string -> string)
    requires NormalizeLemma(s).Some?
    ensures LookupSlug(s, digest) == Some(ClampSlug(FullSlug(s), 64, digest))
    ensures |FullSlug(s)| <= |SlugOf(Fold(s))|
  {
    hide SlugOf, Strip, StripLeadingArticle, Fold, HasArticle, ClampSlug;
    AsciiIsFold(StripLeadingArticle(Strip(s)));
    if HasArticle(s) { ArticleKey(s); } else { NoArticleKey(s); }
  }

  // ----- A word that turns into an article -----

  const LE := [Line("le", "pronoun", 1.0, "")]

  lemma SplitTwo(a: string, b: string)
    requires a != [] && b != [] && forall c :: c in a + b ==> !IsSeparator(c)
    ensures Split(a + " " + b) == [a, " ", b]
  {
    var s := a + " " + b;
    RunOf(a, " " + b, false);
    assert s == a + (" " + b);
    assert s[|a|..] == " " + b;
    RunOf(" ", b, true);
    RunOf(b, [], false);
    assert b + [] == b;
    assert s[|a| + 1..] == b;
    assert s[|a|..|a| + 1] == " ";
    assert Split(b) == [b];
  }

  lemma {:induction false} RunOf(a: string, b: string, separators: bool)
    requires forall c :: c in a ==> IsSeparator(c) == separators
    requires b != [] ==> IsSeparator(b[0]) != separators
    ensures RunLength(a + b, separators) == |a|
  {
    if a != [] {
      RunOf(a[1..], b, separators);
      assert (a + b)[1..] == a[1..] + b && (a + b)[0] == a[0];
    } else {
      assert a + b == b;
    }
  }

  lemma RespelledWords()
    ensures RespellWord(Loaded(LE), "lé") == "le" && RespellWord(Loaded(LE), "a") == "a"
    ensures Fold("lé") == Fold("le")
  {
    LoadedOne(LE[0]);
    FoldTwo('l', 'e');
    FoldTwo('l', 'é');
    assert Fold("a") == "a" by { FoldPrepend('a', []); }
    assert LowerAll("lé") == "lé" && "lé"[1] != "le"[1] && LowerAll("a") == "a";
    assert SpellOut("lé") == "lé" by { assert "lé"[1..] == "é" && "é"[1..] == ""; }
    hide Fold, SpellOut, Loaded;
  }

  lemma RespelledIntoArticle()
    ensures Respell(Loaded(LE), "lé a") == "le a"
  {
    hide Fold, RespellWord, Loaded, WriteLigatures, Split;
    var t := Loaded(LE);
    RespelledWords();
    SplitTwo("lé", "a");
    assert "lé a" == "lé" + " " + "a";
    RespelledParts(t, "lé", " ", "a");
    JoinTwo("le", " ", ["a"]);
    JoinOne("a");
    assert ["le", " "] + ["a"] == ["le", " ", "a"];
    assert "le a" == "le" + " " + "a";
    NoLigature();
  }

  lemma RespelledParts(t: Table, a: string, b: string, c: string)
    requires forall k :: k in t.best ==> t.best[k] in t.forms
    ensures RespellParts(t, [a, b, c], 0) == [RespellWord(t, a), b, RespellWord(t, c)]
  {
    hide RespellWord;
    assert [a, b, c][1..] == [b, c] && [b, c][1..] == [c] && [c][1..] == [];
    assert RespellParts(t, [c], 2) == [RespellWord(t, c)] + RespellParts(t, [], 3);
    assert RespellParts(t, [b, c], 1) == [b] + RespellParts(t, [c], 2);
  }

  lemma NoLigature()
    ensures WriteLigatures("le a") == "le a"
  {
    assert "le a"[1..] == "e a" && "e a"[1..] == " a" && " a"[1..] == "a" && "a"[1..] == "";
    assert WriteLigatures("a") == "a";
    assert WriteLigatures(" a") == " a";
    assert WriteLigatures("e a") == "e a";
  }

  lemma CleanWord(s: string)
    requires s != [] && forall i :: 0 <= i < |s| ==> Lower(s[i]) == s[i] && s[i] != '’' && s[i] != '‘'
    requires !IsSpace(s[0]) && !IsSpace(s[|s| - 1])
    ensures LowerAll(Clean(s)) == s && Clean(s) == s
  {
    hide Strip, IsSpace, Lower;
    StripIsTrimmed(s);
    StraightAt(s);
    assert Straight(s) == s;
    assert LowerAll(s) == s;
  }

  lemma AccentInFront(s: string, i: nat)
    requires |s| > 1 && s[1] == 'é' && i < |ARTICLES|
    ensures !StartsWith(s, ARTICLES[i])
  {
    ArticlesArePlain(i);
    var a := ARTICLES[i];
    assert a[1] != s[1];
    assert |a| <= |s| ==> s[..|a|][1] == s[1];
  }

  /** The respelled text opens with an article, the typed one does not: its key loses a word. */
  lemma RespellMovesLookupSlug()
    ensures HasArticle(Respell(Loaded(LE), "lé a")) && !HasArticle("lé a")
    ensures FullSlug(Respell(Loaded(LE), "lé a")) != FullSlug("lé a")
  {
    hide FullSlug, Respell, Loaded, Fold, Clean, FirstPrefix;
    RespelledIntoArticle();
    CleanWord("le a");
    CleanWord("lé a");
    assert "le a"[..3] == "le " == ARTICLES[4];
    FirstPrefixFinds("le a", ARTICLES, 4);
    if HasArticle("lé a") {
      var i := FirstPrefixIs("lé a", ARTICLES);
      AccentInFront("lé a", i);
    }
    SameFold();
    SameSlugIff("le a", "lé a");
  }

  lemma SameFold()
    ensures Fold("le a") == Fold("lé a")
  {
    hide Fold;
    RespelledWords();
    FoldConcat("le", " a");
    FoldConcat("lé", " a");
    assert "le" + " a" == "le a" && "lé" + " a" == "lé a";
  }
}
