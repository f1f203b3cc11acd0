/**
 Whether a stored headword leads back to its own row: exactly when neither the word typed nor the
 spelling taken for it has a second article.
 */
module LookupRows {
  import opened Options
  import opened Text
  import opened Lexicon
  import opened Articles
  import opened Lookup
  import opened RespelledKeys

  // ----- Lemmas with an article left -----

  lemma {:induction false} SlicesStayStraight(s: string, n: nat)
    requires n <= |s| && Straight(s) == s
    ensures Straight(s[n..]) == s[n..] && Straight(s[..n]) == s[..n]
  {
    StraightAt(s);
    StraightAt(s[n..]);
    StraightAt(s[..n]);
    hide Straight;
    forall i | 0 <= i < |s| ensures s[i] != '’' && s[i] != '‘' { assert Straight(s)[i] == s[i]; }
    assert Straight(s[n..]) == s[n..];
    assert Straight(s[..n]) == s[..n];
  }

  lemma StripStaysStraight(s: string)
    requires Straight(s) == s
    ensures Straight(Strip(s)) == Strip(s)
  {
    var before, after := StripDropsSpaces(s);
    hide Strip, Straight;
    SlicesStayStraight(s, |before|);
    assert s[|before|..] == Strip(s) + after;
    SlicesStayStraight(s[|before|..], |Strip(s)|);
    assert s[|before|..][..|Strip(s)|] == Strip(s);
  }

  lemma CleanIsStraight(s: string)
    ensures Straight(Clean(s)) == Clean(s) && Trimmed(Clean(s))
  {
    var b := Strip(Strip(s));
    StripIsTrimmed(Strip(s));
    StraightAt(b);
    StraightAt(Straight(b));
    hide Strip, IsSpace;
    assert Straight(Straight(b)) == Straight(b);
    if b != [] {
      CommasAreNoSpaces();
    }
  }

  lemma CommasAreNoSpaces()
    ensures !IsSpace('\'') && !IsSpace('’') && !IsSpace('‘')
  {
  }

  /** What is left of a word is trimmed, with straight apostrophes. */
  lemma BareIsClean(word: string)
    ensures var v := StripLeadingArticle(Strip(word)); Trimmed(v) && Straight(v) == v && Clean(v) == v
  {
    StripByArticle(word);
    CleanIsStraight(word);
    var v := StripLeadingArticle(Strip(word));
    if HasArticle(word) {
      var rest := Clean(word)[Article(word)..];
      StripIsTrimmed(rest);
      SlicesStayStraight(Clean(word), Article(word));
      StripStaysStraight(rest);
    }
    CleanOfTrimmed(v);
  }

  lemma CleanOfTrimmed(v: string)
    requires Trimmed(v) && Straight(v) == v
    ensures Clean(v) == v
  {
    StripIsTrimmed(v);
    hide Strip, Straight;
  }

  /** Stripping a lemma again changes it exactly if it opens with an article. */
  lemma StripAgainIff(word: string)
    requires NormalizeLemma(word).Some?
    ensures var v := NormalizeLemma(word).value; NormalizeLemma(v) == Some(v) <==> !HasArticle(v)
  {
    var v := NormalizeLemma(word).value;
    BareIsClean(word);
    StripByArticle(v);
    if HasArticle(v) {
      StripIsTrimmed(v[Article(v)..]);
      assert |StripLeadingArticle(Strip(v))| < |v|;
    }
    hide *;
    NormalizeIs(v);
    NormalizeIs(word);
  }

  lemma NormalizeIs(w: string)
    ensures var v := StripLeadingArticle(Strip(w)); NormalizeLemma(w) == if Slugify(v) == [] then None else Some(v)
  {
  }

  lemma OneArticleIff(word: string)
    requires NormalizeLemma(word).Some?
    ensures OneArticle(word) <==> !HasArticle(NormalizeLemma(word).value)
  {
    StripAgainIff(word);
    hide NormalizeLemma, HasArticle;
  }

  // ----- Keys of lemmas -----

  /** The slug of a lemma as it is. */
  function OwnSlug(bare: string): string { SlugOf(Fold(bare)) }

  lemma KeyIsOwn(bare: string, digest: string -> string)
    ensures KeyOf(bare, digest) == ClampSlug(OwnSlug(bare), 64, digest)
    ensures |OwnSlug(bare)| <= 64 ==> KeyOf(bare, digest) == OwnSlug(bare)
  {
    AsciiIsFold(bare);
    hide Ascii, Fold, SlugOf, Translate;
  }

  lemma FullSlugOfLemma(bare: string)
    ensures !HasArticle(bare) ==> FullSlug(bare) == OwnSlug(bare)
    ensures HasArticle(bare) ==> |FullSlug(bare)| < |OwnSlug(bare)|
    ensures |FullSlug(bare)| <= |OwnSlug(bare)|
  {
    if HasArticle(bare) { ArticleKey(bare); } else { NoArticleKey(bare); }
    hide HasArticle, FullSlug, SlugOf, Fold;
  }

  /** The key a lemma is looked up by, if that is its own slug. */
  lemma SlugOfLemma(bare: string, digest: string -> string)
    requires NormalizeLemma(bare).Some? && |OwnSlug(bare)| <= 64
    ensures LookupSlug(bare, digest) == Some(FullSlug(bare)) && |FullSlug(bare)| <= 64
  {
    LookupSlugIs(bare, digest);
    ClampShort(FullSlug(bare), digest);
    FullSlugOfLemma(bare);
    hide *;
  }

  lemma ClampShort(slug: string, digest: string -> string)
    requires |slug| <= 64
    ensures ClampSlug(slug, 64, digest) == slug
  {
  }

  // ----- A fresh row -----

  /** The row a lookup of `q` writes. */
  function FreshRow(t: Table, q: Query, digest: string -> string): string
    requires forall k :: k in t.best ==> t.best[k] in t.forms
    requires NormalizeLemma(q.word).Some?
  {
    Headword(t, NormalizeLemma(q.word).value, q.proposed, digest)
  }

  /** The proposal is taken for the word. */
  predicate Taken(t: Table, q: Query, digest: string -> string)
    requires forall k :: k in t.best ==> t.best[k] in t.forms
    requires NormalizeLemma(q.word).Some?
  {
    var typed := NormalizeLemma(q.word).value;
    Accepted(typed, Candidate(t, typed, q.proposed), digest)
  }

  function CandidateOf(t: Table, q: Query): string
    requires forall k :: k in t.best ==> t.best[k] in t.forms
    requires NormalizeLemma(q.word).Some?
  {
    Candidate(t, NormalizeLemma(q.word).value, q.proposed)
  }

  /** What can be told before the lookup: no second article in the word, nor in a spelling taken for it. */
  predicate OneArticleEach(t: Table, q: Query, digest: string -> string)
    requires forall k :: k in t.best ==> t.best[k] in t.forms
  {
    NormalizeLemma(q.word).Some? ==> OneArticle(q.word) && (Taken(t, q, digest) ==> OneArticle(CandidateOf(t, q)))
  }

  /**
   A fresh row is filed under its headword's key exactly when the proposal is refused or the lemma
   typed keeps its key without a further article.
   */
  lemma FreshRowIsFiledIff(t: Table, q: Query, digest: string -> string)
    requires forall k :: k in t.best ==> t.best[k] in t.forms
    requires NormalizeLemma(q.word).Some?
    ensures var typed := NormalizeLemma(q.word).value;
            KeyOf(FreshRow(t, q, digest), digest) == KeyOf(typed, digest) <==>
              || !Taken(t, q, digest)
              || LookupSlug(typed, digest) == Some(KeyOf(typed, digest))
  {
    hide NormalizeLemma, KeyOf, Candidate, AccentCount;
  }

  lemma FreshRowIs(t: Table, q: Query, digest: string -> string)
    requires forall k :: k in t.best ==> t.best[k] in t.forms
    requires NormalizeLemma(q.word).Some?
    ensures var typed, fr := NormalizeLemma(q.word).value, FreshRow(t, q, digest);
            && (!Taken(t, q, digest) ==> fr == typed)
            && (Taken(t, q, digest) ==>
                  var c := CandidateOf(t, q);
                  && NormalizeLemma(c) == Some(fr) && NormalizeLemma(typed).Some?
                  && LookupSlug(c, digest) == LookupSlug(typed, digest))
  {
    hide NormalizeLemma, KeyOf, Candidate, AccentCount;
  }

  /** With one article each, a fresh row is found again under its own key, however long. */
  lemma FreshRowFindsItself(t: Table, q: Query, digest: string -> string)
    requires forall k :: k in t.best ==> t.best[k] in t.forms
    requires NormalizeLemma(q.word).Some? && OneArticleEach(t, q, digest)
    ensures LookupSlug(FreshRow(t, q, digest), digest) == LookupSlug(q.word, digest)
  {
    FreshRowIs(t, q, digest);
    var typed := NormalizeLemma(q.word).value;
    assert OneArticle(q.word) && (Taken(t, q, digest) ==> OneArticle(CandidateOf(t, q)));
    hide *;
    SameSlugAsLemma(q.word, digest);
    if Taken(t, q, digest) { SameSlugAsLemma(CandidateOf(t, q), digest); }
  }

  lemma SameSlugAsLemma(word: string, digest: string -> string)
    requires NormalizeLemma(word).Some? && OneArticle(word)
    ensures LookupSlug(NormalizeLemma(word).value, digest) == LookupSlug(word, digest)
  {
    hide NormalizeLemma, KeyOf;
  }

  /** The lemma's slug needs no cut. */
  predicate Fits(bare: Option<string>) { bare.Some? ==> |OwnSlug(bare.value)| <= 64 }

  /** When no key needs a cut, that is exactly when. */
  lemma FreshRowFindsItselfIff(t: Table, q: Query, digest: string -> string)
    requires forall k :: k in t.best ==> t.best[k] in t.forms
    requires NormalizeLemma(q.word).Some?
    requires Fits(NormalizeLemma(q.word)) && Fits(NormalizeLemma(CandidateOf(t, q)))
    ensures LookupSlug(FreshRow(t, q, digest), digest) == LookupSlug(q.word, digest) <==> OneArticleEach(t, q, digest)
  {
    var typed, fr := NormalizeLemma(q.word).value, FreshRow(t, q, digest);
    if OneArticleEach(t, q, digest) {
      FreshRowFindsItself(t, q, digest);
    } else {
      FreshRowIs(t, q, digest);
      assert |OwnSlug(typed)| <= 64 && |OwnSlug(fr)| <= 64 by { hide OwnSlug, FreshRow, NormalizeLemma, Taken; }
      SlugOfWord(q.word, digest);
      FullSlugOfLemma(typed);
      FullSlugOfLemma(fr);
      OneArticleIff(q.word);
      if Taken(t, q, digest) {
        var c := CandidateOf(t, q);
        OneArticleIff(c);
        SlugOfWord(c, digest);
        SlugOfLemma(typed, digest);
      }
      hide *;
      if NormalizeLemma(fr).Some? { SlugOfLemma(fr, digest); } else { NoSlug(fr, digest); }
    }
  }

  lemma SlugOfWord(word: string, digest: string -> string)
    requires NormalizeLemma(word).Some? && |OwnSlug(NormalizeLemma(word).value)| <= 64
    ensures LookupSlug(word, digest) == Some(OwnSlug(NormalizeLemma(word).value))
  {
    KeyIsOwn(NormalizeLemma(word).value, digest);
    hide NormalizeLemma, KeyOf, OwnSlug;
  }

  lemma NoSlug(word: string, digest: string -> string)
    ensures NormalizeLemma(word).None? ==> LookupSlug(word, digest).None?
  {
  }

  // ----- Every row of every run -----

  ghost predicate FindThemselves(rows: Rows, digest: string -> string) {
    forall slug :: slug in rows ==> LookupSlug(rows[slug], digest) == Some(slug)
  }

  lemma ServeKeepsFinding(t: Table, rows: Rows, q: Query, digest: string -> string)
    requires forall k :: k in t.best ==> t.best[k] in t.forms
    requires FindThemselves(rows, digest) && OneArticleEach(t, q, digest)
    ensures FindThemselves(Serve(t, rows, q, digest).0, digest)
  {
    hide NormalizeLemma, LookupSlug, AccentCount, Headword, OneArticleEach;
    if NormalizeLemma(q.word).Some? {
      FreshRowFindsItself(t, q, digest);
      WordHasSlug(q.word, digest);
    }
  }

  lemma WordHasSlug(word: string, digest: string -> string)
    requires NormalizeLemma(word).Some?
    ensures LookupSlug(word, digest).Some?
  {
    hide NormalizeLemma, KeyOf;
  }

  /**
   In every run of lookups with one article each, every stored headword is looked up by the slug of
   its own row.
   */
  lemma {:induction false} RowsFindThemselves(t: Table, queries: seq<Query>, digest: string -> string)
    requires forall k :: k in t.best ==> t.best[k] in t.forms
    requires forall q :: q in queries ==> OneArticleEach(t, q, digest)
    ensures FindThemselves(ServeAll(t, map[], queries, digest), digest)
  {
    if queries != [] {
      var before, q := queries[..|queries| - 1], queries[|queries| - 1];
      assert OneArticleEach(t, q, digest);
      hide Serve, OneArticleEach, FindThemselves;
      RowsFindThemselves(t, before, digest);
      ServeKeepsFinding(t, ServeAll(t, map[], before, digest), q, digest);
    } else {
      assert ServeAll(t, map[], queries, digest) == map[];
    }
  }

  // ----- A word with two articles -----

  /** Lower-case text that starts and ends with a letter. */
  ghost predicate Tidy(s: string) {
    && s != [] && (forall i :: 0 <= i < |s| ==> Lower(s[i]) == s[i] && s[i] != '’' && s[i] != '‘')
    && !IsSpace(s[0]) && !IsSpace(s[|s| - 1]) && !IsMark(s[0]) && InSlug(Base(s[0]))
  }

  lemma TidyHasKey(s: string)
    requires Tidy(s)
    ensures Slugify(s) != [] && Strip(s) == s && Straight(s) == s
  {
    StripIsTrimmed(s);
    StraightAt(s);
    assert Ascii(s) == [Base(s[0])] + Ascii(s[1..]);
    SlugOfPrepend(Base(s[0]), Ascii(s[1..]));
  }

  lemma NormalizedWithout(s: string, i: nat, rest: string)
    requires i < |ARTICLES| && s == ARTICLES[i] + rest && Tidy(s) && Tidy(rest)
    ensures NormalizeLemma(s) == Some(rest)
  {
    hide Strip, Slugify, IsSpace, Lower, InSlug, Base;
    TidyHasKey(s);
    TidyHasKey(rest);
    CleanWord(s);
    hide FirstPrefix, Clean, Straight, IsMark, StripLeadingArticle;
    StripByArticle(s);
    ArticleIs(s, i);
    assert s[|ARTICLES[i]|..] == rest;
  }

  lemma ArticleIs(s: string, i: nat)
    requires i < |ARTICLES| && StartsWith(s, ARTICLES[i])
    ensures FirstPrefix(s, ARTICLES) == |ARTICLES[i]| > 0
  {
    hide FirstPrefix;
    FirstPrefixFinds(s, ARTICLES, i);
    var j := FirstPrefixIs(s, ARTICLES);
    ArticlesDiffer(i, j, s);
  }

  lemma NormalizedAsIs(s: string)
    requires Tidy(s) && FirstPrefix(s, ARTICLES) == 0
    ensures NormalizeLemma(s) == Some(s)
  {
    hide Strip, FirstPrefix, Slugify, IsSpace, Lower, InSlug, Base;
    StripByArticle(s);
    TidyHasKey(s);
    CleanWord(s);
  }

  /**
   The second article of "le la é" stays in the key but not in the headword kept for it, so the row
   is filed under another word's key.
   */
  lemma TwoArticlesMisfile(t: Table, digest: string -> string)
    requires forall k :: k in t.best ==> t.best[k] in t.forms
    ensures !OneArticle("le la é")
    ensures !Filed(ServeAll(t, map[], [Query("le la é", "é", true)], digest), digest)
  {
    hide NormalizeLemma, KeyOf, FreshLookup, AccentCount;
    NormalizedTwice();
    KeysDiffer(digest);
    var q := Query("le la é", "é", true);
    assert [q][..0] == [];
    assert ServeAll(t, map[], [q][..0], digest) == map[];
    var rows := ServeAll(t, map[], [q], digest);
    Accented();
    KeptHeadword(t, "le la é", "la é", "é", digest);
    assert rows == map[KeyOf("la é", digest) := "é"];
    assert KeyOf("la é", digest) in rows;
  }

  lemma NormalizedTwice()
    ensures NormalizeLemma("le la é") == Some("la é")
    ensures NormalizeLemma("la é") == Some("é")
    ensures NormalizeLemma("é") == Some("é")
  {
    hide NormalizeLemma, FirstPrefix;
    assert "le la é" == ARTICLES[4] + "la é" && "la é" == ARTICLES[5] + "é";
    NormalizedWithout("le la é", 4, "la é");
    NormalizedWithout("la é", 5, "é");
    NoArticleInLetter("é");
    NormalizedAsIs("é");
  }

  lemma NoArticleInLetter(s: string)
    requires |s| == 1
    ensures FirstPrefix(s, ARTICLES) == 0
  {
    if FirstPrefix(s, ARTICLES) > 0 {
      var i := FirstPrefixIs(s, ARTICLES);
      ArticlesArePlain(i);
    }
  }

  lemma KeptHeadword(t: Table, word: string, typed: string, kept: string, digest: string -> string)
    requires forall k :: k in t.best ==> t.best[k] in t.forms
    requires NormalizeLemma(word) == Some(typed)
    requires NormalizeLemma(typed) == NormalizeLemma(kept) == Some(kept)
    requires 0 < AccentCount(typed) <= AccentCount(kept) && 0 < |kept| <= 128
    ensures FreshLookup(t, map[], Query(word, kept, true), digest) == (map[KeyOf(typed, digest) := kept], Some(kept))
  {
    hide NormalizeLemma, KeyOf, AccentCount, Respell;
    assert Headword(t, typed, kept, digest) == kept;
  }

  lemma Accented()
    ensures AccentCount("la é") == 1 == AccentCount("é")
  {
    assert "la é"[1..] == "a é" && "a é"[1..] == " é" && " é"[1..] == "é" && "é"[1..] == "";
    assert AccentCount("é") == 1;
    assert AccentCount(" é") == 1;
    assert AccentCount("a é") == 1;
  }

  lemma KeysDiffer(digest: string -> string)
    ensures KeyOf("la é", digest) != KeyOf("é", digest)
  {
    hide Fold, SlugOf;
    AsciiIsFold("la é");
    AsciiIsFold("é");
    FoldConcat("la ", "é");
    assert "la " + "é" == "la é";
    FoldPlain("la ");
    SlugOfLonger("la ", Fold("é"));
    FoldLength("é");
    SlugOfShort(Fold("la é"));
    SlugOfShort(Fold("é"));
    FoldLength("la é");
  }

  lemma {:induction false} FoldLength(s: string)
    ensures |Fold(s)| <= 2 * |s|
  {
    if s != [] { FoldLength(s[1..]); }
  }

  lemma {:induction false} CollapseShorter(s: string, inRun: bool)
    ensures |Collapse(s, inRun)| <= |s|
  {
    if s != [] { CollapseShorter(s[1..], !InSlug(s[0])); }
  }

  lemma SlugOfShort(s: string)
    ensures |SlugOf(s)| <= |s|
  {
    CollapseShorter(s, false);
    TrimEndShorter(TrimStart(Collapse(s, false)));
  }

  // ----- A proposal with two articles -----

  lemma {:induction false} SameRuns(a: string, b: string, inRun: bool)
    requires |a| == |b|
    requires forall i :: 0 <= i < |a| ==> a[i] == b[i] || (!InSlug(a[i]) && !InSlug(b[i]))
    ensures Collapse(a, inRun) == Collapse(b, inRun)
  {
    if a != [] { SameRuns(a[1..], b[1..], !InSlug(a[0])); }
  }

  lemma DashOrSpace()
    ensures OwnSlug("le-é") == OwnSlug("le é") && |OwnSlug("le é")| <= 64
  {
    FoldTwo('l', 'e');
    FoldPrepend('é', []);
    FoldPrepend('-', "é");
    FoldPrepend(' ', "é");
    FoldConcat("le", "-é");
    FoldConcat("le", " é");
    assert "le" + "-é" == "le-é" && "le" + " é" == "le é" && ['-'] + "é" == "-é" && [' '] + "é" == " é"
        && ['é'] + [] == "é";
    assert Fold("le-é") == "le-e" && Fold("le é") == "le e" by { hide Fold; }
    SameRuns("le-e", "le e", false);
    SlugOfShort("le e");
    hide Fold, Collapse;
  }

  lemma NoArticleDash()
    ensures FirstPrefix("le-é", ARTICLES) == 0
  {
    hide FirstPrefix;
    if FirstPrefix("le-é", ARTICLES) > 0 {
      var i := FirstPrefixIs("le-é", ARTICLES);
      DashAfter(i);
    }
  }

  lemma DashAfter(i: nat)
    requires i < |ARTICLES|
    ensures !StartsWith("le-é", ARTICLES[i])
  {
    var s, a := "le-é", ARTICLES[i];
    assert a[0] != s[0] || a[1] != s[1] || a[2] != s[2];
    assert |a| <= |s| ==> forall k :: 0 <= k < |a| ==> s[..|a|][k] == s[k];
  }

  lemma DashWords()
    ensures NormalizeLemma("le-é") == Some("le-é")
    ensures NormalizeLemma("la le é") == Some("le é")
    ensures NormalizeLemma("le é") == Some("é")
  {
    hide NormalizeLemma, FirstPrefix;
    NoArticleDash();
    NormalizedAsIs("le-é");
    assert "la le é" == ARTICLES[5] + "le é" && "le é" == ARTICLES[4] + "é";
    NormalizedWithout("la le é", 5, "le é");
    NormalizedWithout("le é", 4, "é");
  }

  lemma DashAccents()
    ensures AccentCount("le-é") == 1 == AccentCount("le é")
  {
    assert "le-é"[1..] == "e-é" && "e-é"[1..] == "-é" && "-é"[1..] == "é" && "é"[1..] == "";
    assert "le é"[1..] == "e é" && "e é"[1..] == " é" && " é"[1..] == "é";
    assert AccentCount("é") == 1;
    assert AccentCount("-é") == 1 && AccentCount(" é") == 1;
    assert AccentCount("e-é") == 1 && AccentCount("e é") == 1;
  }

  lemma ProposalTaken(t: Table, q: Query, kept: string, digest: string -> string)
    requires forall k :: k in t.best ==> t.best[k] in t.forms
    requires NormalizeLemma(q.word) == Some(q.word) && NormalizeLemma(q.proposed) == Some(kept)
    requires 0 < AccentCount(q.word) <= AccentCount(kept) && 0 < |q.proposed| <= 128
    requires KeyOf(q.word, digest) == KeyOf(kept, digest)
    ensures CandidateOf(t, q) == q.proposed && Taken(t, q, digest) && FreshRow(t, q, digest) == kept
  {
    hide NormalizeLemma, KeyOf, AccentCount, Respell;
  }

  /**
   One article in the word is not enough: for "le-é" the proposal "la le é" is taken, and the
   headword "le é" kept for it leads to the key of "é".
   */
  lemma SecondArticleMisfiles(t: Table, digest: string -> string)
    requires forall k :: k in t.best ==> t.best[k] in t.forms
    ensures var q := Query("le-é", "la le é", true);
            && OneArticle(q.word) && !OneArticleEach(t, q, digest)
            && NormalizeLemma(q.word).Some? && FreshRow(t, q, digest) == "le é"
            && LookupSlug(FreshRow(t, q, digest), digest) != LookupSlug(q.word, digest)
  {
    var q := Query("le-é", "la le é", true);
    hide *;
    DashWords();
    DashAccents();
    DashOrSpace();
    KeyIsOwn("le-é", digest);
    KeyIsOwn("le é", digest);
    ProposalTaken(t, q, "le é", digest);
    OneEach(t, q, digest);
    FreshRowFindsItselfIff(t, q, digest);
  }

  lemma OneEach(t: Table, q: Query, digest: string -> string)
    requires forall k :: k in t.best ==> t.best[k] in t.forms
    requires NormalizeLemma(q.word) == Some(q.word) && Taken(t, q, digest)
    requires NormalizeLemma(CandidateOf(t, q)).Some?
             && NormalizeLemma(NormalizeLemma(CandidateOf(t, q)).value) != NormalizeLemma(CandidateOf(t, q))
    requires |OwnSlug(q.word)| <= 64 && |OwnSlug(NormalizeLemma(CandidateOf(t, q)).value)| <= 64
    ensures OneArticle(q.word) && !OneArticleEach(t, q, digest)
    ensures Fits(NormalizeLemma(q.word)) && Fits(NormalizeLemma(CandidateOf(t, q)))
  {
    hide NormalizeLemma, Taken, CandidateOf, OwnSlug;
  }
}
