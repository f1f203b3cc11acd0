/** What a tidied card holds, entry by entry, and what it makes of nouns and adjectives. */
module CardRules {
  import opened Text
  import opened Articles
  import opened Elision
  import opened Forms
  import opened VerbsSettle
  import opened FormsSettle
  import opened VerbRules

  // ----- One entry at a time -----

  lemma {:induction false} ReadableConcat(a: seq<Entry>, b: seq<Entry>)
    ensures Readable(a + b) == Readable(a) + Readable(b)
  {
    hide *;
    if a == [] {
      assert a + b == b;
      NoneRead();
    } else {
      ReadableConcat(a[1..], b);
      assert a + b == [a[0]] + (a[1..] + b) && a == [a[0]] + a[1..];
      ReadableStep(a[0], a[1..] + b);
      ReadableStep(a[0], a[1..]);
    }
  }

  lemma NoneRead()
    ensures Readable([]) == []
  {
  }

  lemma ReadableStep(e: Entry, rest: seq<Entry>)
    ensures Readable([e] + rest) == Readable([e]) + Readable(rest)
  {
    hide Latin, Replace;
    assert ([e] + rest)[1..] == rest && [e][1..] == [];
    assert Readable([]) == [];
  }

  lemma {:induction false} EachConcat(a: seq<Entry>, b: seq<Entry>, bare: string, pos: string)
    ensures TidyEach(a + b, bare, pos) == TidyEach(a, bare, pos) + TidyEach(b, bare, pos)
  {
    hide *;
    if a == [] {
      assert a + b == b;
      NoEach(bare, pos);
    } else {
      EachConcat(a[1..], b, bare, pos);
      assert a + b == [a[0]] + (a[1..] + b) && a == [a[0]] + a[1..];
      EachStep(a[0], a[1..] + b, bare, pos);
      EachStep(a[0], a[1..], bare, pos);
    }
  }

  lemma NoEach(bare: string, pos: string)
    ensures TidyEach([], bare, pos) == []
  {
  }

  lemma EachStep(e: Entry, rest: seq<Entry>, bare: string, pos: string)
    ensures TidyEach([e] + rest, bare, pos) == [TidyOne(e, bare, pos)] + TidyEach(rest, bare, pos)
  {
    hide TidyOne;
    assert ([e] + rest)[1..] == rest;
  }

  /** The forms of every word but an adjective are tidied each on its own, in their order. */
  lemma TidyConcat(a: seq<Entry>, b: seq<Entry>, fr: string, pos: string)
    requires pos != "adjective"
    ensures TidyForms(a + b, fr, pos) == TidyForms(a, fr, pos) + TidyForms(b, fr, pos)
  {
    hide TidyEach, Readable, StripLeadingArticle;
    ReadableConcat(a, b);
    EachConcat(Readable(a), Readable(b), StripLeadingArticle(fr), pos);
  }

  /** One form is kept under its name, with straight apostrophes, unless it leaves the Latin script. */
  lemma TidyOneForm(e: Entry, fr: string, pos: string)
    requires pos != "adjective"
    ensures var bare, words := StripLeadingArticle(fr), Replace(e.fr, '’', '\'');
            TidyForms([e], fr, pos)
            == if exists i :: 0 <= i < |words| && words[i] >= '\U{250}' then []
               else [Entry(e.name, if pos == "verb" then VerbForm(words, bare, e.name) else NounForm(words))]
  {
    var bare, words := StripLeadingArticle(fr), Replace(e.fr, '’', '\'');
    OneRead(e);
    NotLatinIff(words);
    NoEach(bare, pos);
    hide StripLeadingArticle, VerbForm, NounForm, Replace, TidyEach, Readable, Latin;
    var one := Entry(e.name, words);
    EachStep(one, [], bare, pos);
    assert [one] + [] == [one];
  }

  lemma OneRead(e: Entry)
    ensures var words := Replace(e.fr, '’', '\'');
            Readable([e]) == if Latin(words) then [Entry(e.name, words)] else []
  {
    hide Latin, Replace;
    assert [e][1..] == [];
  }

  lemma NotLatinIff(words: string)
    ensures (exists i :: 0 <= i < |words| && words[i] >= '\U{250}') <==> !Latin(words)
  {
  }

  /**
   On the card of a reflexive verb the passé composé is told with être, in the person of the subject
   written, and with the participle written.
   */
  lemma ReflexivePerfectOnCard(e: Entry, fr: string)
    requires var bare := StripLeadingArticle(fr);
             (StartsWith(bare, "se ") || StartsWith(bare, "s'")) && !IsImpersonal(bare)
    requires LowerAll(e.name) == "passé composé" && Latin(e.fr)
    ensures Subject(e.fr) in STARTS
    ensures TidyForms([e], fr, "verb")
         == [Entry(e.name, STARTS[Subject(e.fr)] + Elide(Elide(Participle(e.fr), false), true))]
  {
    LatinStays(e.fr);
    hide StripLeadingArticle, VerbForm, Replace, Subject, Participle, Elide, TidyForms, IsImpersonal, LowerAll;
    TidyOneForm(e, fr, "verb");
    ReflexivePerfectForm(e.fr, StripLeadingArticle(fr), e.name);
  }

  lemma LatinStays(s: string)
    requires Latin(s)
    ensures Replace(s, '’', '\'') == s
  {
  }

  // ----- Nouns -----

  /** A noun's words stay as they are, up to elision, if they open with no indefinite article. */
  lemma OtherNounStays(fr: string)
    requires LowerAll(Head(fr, ' ')) !in {"un", "une", "des"} || Rest(fr, ' ') == []
    ensures NounForm(fr) == Elide(fr, false)
  {
    hide Elide, Head, Rest;
  }

  /** Behind an indefinite article they stay as well. */
  lemma IndefiniteNoun(article: string, noun: string)
    requires noun != [] && LowerAll(article) in {"un", "une", "des"}
    ensures var a := LowerAll(article);
            NounForm(article + " " + noun)
            == Elide((if a == "un" then "le " else if a == "une" then "la " else "les ") + noun, false)
  {
    NoSpaceInArticle(article);
    HeadAndRest(article, noun);
    assert "le" + " " == "le " && "la" + " " == "la " && "les" + " " == "les ";
    hide Elide, Head, Rest, LowerAll;
  }

  lemma NoSpaceInArticle(article: string)
    requires LowerAll(article) in {"un", "une", "des"}
    ensures ' ' !in article
  {
    LowerApostrophe(' ');
    hide Lower;
    forall i | 0 <= i < |article| ensures article[i] != ' ' {
      assert LowerAll(article)[i] == Lower(article[i]);
    }
  }

  // ----- Adjectives -----

  /** Any of the eleven determiners is dropped, in any case, with the spaces around the rest. */
  lemma DeterminerIsDropped(d: string, w: string)
    requires LowerAll(d) in {"le ", "la ", "les ", "l'", "un ", "une ", "des ", "ce ", "cet ", "cette ", "ces "}
    ensures Bare(d + w) == Strip(w)
  {
    var s := LowerAll(d + w);
    assert s[..|d|] == LowerAll(d) by { hide Lower; }
    assert (d + w)[|d|..] == w;
    DeterminerIs(LowerAll(d));
    hide LowerAll, Strip;
    forall v | v in DETERMINERS && StartsWith(s, v) ensures v == LowerAll(d) {
      DeterminerIs(v);
      OneDeterminer(s, v, LowerAll(d));
    }
    OnlyPrefix(s, DETERMINERS, LowerAll(d));
  }

  ghost predicate DeterminerShape(d: string) {
    d != [] && d[|d| - 1] in " '" && forall k :: 0 <= k < |d| - 1 ==> d[k] !in " '"
  }

  lemma DeterminerIs(d: string)
    requires d in DETERMINERS
    ensures DeterminerShape(d)
  {
    var i :| 0 <= i < |DETERMINERS| && DETERMINERS[i] == d;
  }

  lemma OneDeterminer(s: string, v: string, w: string)
    requires StartsWith(s, v) && StartsWith(s, w) && DeterminerShape(v) && DeterminerShape(w)
    ensures v == w
  {
    assert forall k :: 0 <= k < |v| ==> s[..|v|][k] == s[k] == v[k];
    assert forall k :: 0 <= k < |w| ==> s[..|w|][k] == s[k] == w[k];
    assert |v| == |w|;
  }

  lemma {:induction false} OnlyPrefix(s: string, words: seq<string>, w: string)
    requires w in words && StartsWith(s, w) && forall v :: v in words && StartsWith(s, v) ==> v == w
    ensures FirstPrefix(s, words) == |w|
  {
    hide StartsWith;
    assert words == [words[0]] + words[1..];
    assert words[0] in words;
    if !StartsWith(s, words[0]) { OnlyPrefix(s, words[1..], w); }
  }

  lemma OtherwiseBareStays(w: string)
    requires forall d :: d in {"le ", "la ", "les ", "l'", "un ", "une ", "des ", "ce ", "cet ", "cette ", "ces "} ==>
               !StartsWith(LowerAll(w), d)
    ensures Bare(w) == w
  {
    hide StartsWith, LowerAll, Strip;
    FirstPrefixIff(LowerAll(w), DETERMINERS);
  }

  /** The plural of an adjective, by its ending and gender. */
  lemma PluralByEnding(stem: string)
    ensures AdjectivePlural(stem + "s", false) == stem + "s" == AdjectivePlural(stem + "s", true)
    ensures AdjectivePlural(stem + "x", false) == stem + "x" == AdjectivePlural(stem + "x", true)
    ensures AdjectivePlural(stem + "eau", false) == stem + "eaux"
    ensures AdjectivePlural(stem + "eau", true) == stem + "eaus"
    ensures AdjectivePlural(stem + "al", true) == stem + "als"
    ensures AdjectivePlural(stem + "al", false)
         == if LowerAll(stem + "al") in {"banal", "bancal", "fatal", "final", "natal", "naval", "glacial", "idéal"}
            then stem + "als" else stem + "aux"
  {
    hide AdjectivePlural, LowerAll;
    PluralStays(stem, "s", false);
    PluralStays(stem, "s", true);
    PluralStays(stem, "x", false);
    PluralStays(stem, "x", true);
    PluralOfEau(stem);
    PluralOfAl(stem);
  }

  lemma Ending(stem: string, e: string, f: string)
    requires |f| <= |e|
    ensures EndsWith(stem + e, f) == EndsWith(e, f)
  {
    assert (stem + e)[|stem + e| - |f|..] == e[|e| - |f|..];
  }

  lemma PluralStays(stem: string, e: string, feminine: bool)
    requires e == "s" || e == "x"
    ensures AdjectivePlural(stem + e, feminine) == stem + e
  {
    Ending(stem, e, e);
    hide LowerAll;
  }

  lemma PluralOfEau(stem: string)
    ensures AdjectivePlural(stem + "eau", false) == stem + "eaux"
    ensures AdjectivePlural(stem + "eau", true) == stem + "eaus"
  {
    var e := "eau";
    Ending(stem, e, "s");
    Ending(stem, e, "x");
    Ending(stem, e, e);
    assert !EndsWith(e, "s") && !EndsWith(e, "x") && EndsWith(e, e);
    hide LowerAll, EndsWith;
    assert stem + e + "x" == stem + "eaux" && stem + e + "s" == stem + "eaus";
  }

  lemma PluralOfAl(stem: string)
    ensures AdjectivePlural(stem + "al", true) == stem + "als"
    ensures AdjectivePlural(stem + "al", false)
         == if LowerAll(stem + "al") in {"banal", "bancal", "fatal", "final", "natal", "naval", "glacial", "idéal"}
            then stem + "als" else stem + "aux"
  {
    var e := "al";
    Ending(stem, e, "s");
    Ending(stem, e, "x");
    Ending(stem, e, e);
    assert !EndsWith(e, "s") && !EndsWith(e, "x") && EndsWith(e, e);
    assert (stem + e)[|stem + e| - 1] == 'l';
    hide LowerAll, EndsWith;
    assert stem + e + "s" == stem + "als";
    assert (stem + e)[..|stem + e| - 2] == stem;
  }

  lemma OtherPlural(w: string, feminine: bool)
    requires !EndsWith(w, "s") && !EndsWith(w, "x") && !EndsWith(w, "eau") && !EndsWith(w, "al")
    ensures AdjectivePlural(w, feminine) == w + "s"
  {
  }

  /** The last entry of that name is number `i`. */
  ghost predicate LastNamed(forms: seq<Entry>, wanted: string, i: nat) {
    && i < |forms| && LowerAll(forms[i].name) == wanted
    && forall k :: i < k < |forms| ==> LowerAll(forms[k].name) != wanted
  }

  lemma {:induction false} LabelledIs(forms: seq<Entry>, wanted: string, i: nat)
    requires LastNamed(forms, wanted, i)
    ensures Labelled(forms, wanted) == Bare(forms[i].fr)
  {
    hide Bare, LowerAll;
    if i < |forms| - 1 { LabelledIs(forms[..|forms| - 1], wanted, i); }
  }

  lemma {:induction false} NotLabelled(forms: seq<Entry>, wanted: string)
    requires forall k :: 0 <= k < |forms| ==> LowerAll(forms[k].name) != wanted
    ensures Labelled(forms, wanted) == []
  {
    hide Bare, LowerAll;
    if forms != [] { NotLabelled(forms[..|forms| - 1], wanted); }
  }

  /** What the entries say under that name, without its determiner; empty if there is none. */
  ghost predicate Says(forms: seq<Entry>, wanted: string, w: string) {
    || (exists i: nat :: LastNamed(forms, wanted, i) && w == Bare(forms[i].fr))
    || (w == [] && forall k :: 0 <= k < |forms| ==> LowerAll(forms[k].name) != wanted)
  }

  lemma SaysIs(forms: seq<Entry>, wanted: string, w: string)
    requires Says(forms, wanted, w)
    ensures Labelled(forms, wanted) == w
  {
    hide Bare, LowerAll;
    if exists i: nat :: LastNamed(forms, wanted, i) && w == Bare(forms[i].fr) {
      var i: nat :| LastNamed(forms, wanted, i) && w == Bare(forms[i].fr);
      LabelledIs(forms, wanted, i);
    } else {
      NotLabelled(forms, wanted);
    }
  }

  /**
   An adjective's card: the feminine entry if there is one; the headword as the masculine, unless it
   is itself the feminine and a masculine is given; and the plural of either.
   */
  lemma AdjectiveOnCard(forms: seq<Entry>, fr: string, m: string, f: string)
    requires Readable(forms) != [] && Says(Readable(forms), "masculine", m) && Says(Readable(forms), "feminine", f)
    requires LowerAll(StripLeadingArticle(fr))
          !in {"marron", "chic", "sympa", "super", "orange", "kaki", "turquoise"}
    ensures var bare, card := StripLeadingArticle(fr), TidyForms(forms, fr, "adjective");
            var feminine := if f != [] then f else bare;
            var masculine := if m != [] && (f == [] || f == bare) then m else bare;
            card == [Entry("masculine", masculine), Entry("feminine", feminine),
                     Entry("masculine plural", AdjectivePlural(masculine, false)),
                     Entry("feminine plural", AdjectivePlural(feminine, true))]
  {
    hide *;
    var bare, r := StripLeadingArticle(fr), Readable(forms);
    SaysIs(r, "masculine", m);
    SaysIs(r, "feminine", f);
    TidyAdjective(forms, fr);
    VariableForms(r, bare);
  }

  lemma TidyAdjective(forms: seq<Entry>, fr: string)
    ensures TidyForms(forms, fr, "adjective")
         == if Readable(forms) == [] then [] else AdjectiveForms(Readable(forms), StripLeadingArticle(fr))
  {
    hide StripLeadingArticle, Readable, AdjectiveForms, TidyEach;
  }

  lemma VariableForms(forms: seq<Entry>, bare: string)
    requires LowerAll(bare) !in {"marron", "chic", "sympa", "super", "orange", "kaki", "turquoise"}
    ensures var m, f := Labelled(forms, "masculine"), Labelled(forms, "feminine");
            var feminine := if f != [] then f else bare;
            var masculine := if m != [] && (f == [] || f == bare) then m else bare;
            AdjectiveForms(forms, bare)
            == [Entry("masculine", masculine), Entry("feminine", feminine),
                Entry("masculine plural", AdjectivePlural(masculine, false)),
                Entry("feminine plural", AdjectivePlural(feminine, true))]
  {
    hide AdjectivePlural, Labelled, LowerAll;
    assert LowerAll(bare) !in INVARIABLE;
  }

  /** Seven adjectives have one form for all four, whatever the entries say. */
  lemma InvariableOnCard(forms: seq<Entry>, fr: string)
    requires LowerAll(StripLeadingArticle(fr)) in {"marron", "chic", "sympa", "super", "orange", "kaki", "turquoise"}
    ensures var card := TidyForms(forms, fr, "adjective");
            if Readable(forms) == [] then card == []
            else |card| == 4 && forall k :: 0 <= k < 4 ==> card[k].fr == StripLeadingArticle(fr)
  {
    hide StripLeadingArticle, Readable, LowerAll, Masculine, Feminine, TidyForms;
    TidyAdjective(forms, fr);
    assert LowerAll(StripLeadingArticle(fr)) in INVARIABLE;
  }
}
