/** Correcting a card's forms a second time changes nothing. */
module FormsSettle {
  import opened Options
  import opened Text
  import opened Articles
  import opened Elision
  import opened Forms
  import opened VerbsSettle
  import opened ComplementsSettle
  import opened ComplementsBreak

  // ----- Nouns -----

  /** Eliding keeps the first word, or leaves an apostrophe in it. */
  lemma {:induction false} ScanHead(pass: Pass, s: string, inWord: bool)
    ensures var t := Scan(pass, s, inWord);
            || '\'' in Head(t, ' ')
            || (Head(t, ' ') == Head(s, ' ') && (Rest(t, ' ') == [] <==> Rest(s, ' ') == []))
    decreases |s|
  {
    hide IsWord, Elides, Scan, Head, Rest;
    if s != [] {
      if !inWord && Elides(pass, s) {
        LongEnough(pass, s);
        var u := Scan(pass, s[3..], false);
        StepPast(pass, s, s[3..]);
        HeadStep('\'', u);
        HeadStep(s[0], ['\''] + u);
        assert [s[0], '\''] + u == [s[0]] + (['\''] + u);
        assert '\'' in Head(['\''] + u, ' ');
      } else {
        var u := Scan(pass, s[1..], IsWord(s[0]));
        ScanHead(pass, s[1..], IsWord(s[0]));
        StepOver(pass, s, inWord, s[1..]);
        ScanStart(pass, s[1..], IsWord(s[0]));
        HeadStep(s[0], u);
        HeadStep(s[0], s[1..]);
        assert s == [s[0]] + s[1..];
      }
    } else {
      ScanStart(pass, s, inWord);
    }
  }

  lemma HeadStep(c: char, r: string)
    ensures Head([c] + r, ' ') == if c == ' ' then [] else [c] + Head(r, ' ')
    ensures Rest([c] + r, ' ') == if c == ' ' then r else Rest(r, ' ')
  {
    assert ([c] + r)[1..] == r;
  }

  lemma NotDefinite(h: string)
    requires '\'' in h
    ensures Definite(h).None?
  {
    var i :| 0 <= i < |h| && h[i] == '\'';
    assert LowerAll(h)[i] == '\'';
  }

  predicate NothingToDetermine(s: string) {
    Definite(Head(s, ' ')).None? || Rest(s, ' ') == []
  }

  lemma DefiniteOnce(h: string)
    requires Definite(h).Some?
    ensures var d := Definite(h).value; ' ' !in d && Definite(d).None?
  {
    var d := Definite(h).value;
    LowerPlain(d);
    hide LowerAll;
    assert d[0] == 'l';
    assert "un"[0] == 'u' && "une"[0] == 'u' && "des"[0] == 'd';
  }

  lemma DeterminedOnce(fr: string)
    ensures NothingToDetermine(Determined(fr))
  {
    hide Head, Rest, Definite;
    var d, rest := Definite(Head(fr, ' ')), Rest(fr, ' ');
    if d.Some? && rest != [] {
      DefiniteOnce(Head(fr, ' '));
      HeadAndRest(d.value, rest);
    }
  }

  /** Articles and elision of a noun settle at once. */
  lemma NounSettles(fr: string)
    ensures NounForm(NounForm(fr)) == NounForm(fr)
  {
    hide Head, Rest, Scan, Elided, Definite;
    var x := Determined(fr);
    var y := NounForm(fr);
    DeterminedOnce(fr);
    ScanHead(Vowels, x, false);
    if '\'' in Head(y, ' ') { NotDefinite(Head(y, ' ')); }
    assert NothingToDetermine(y);
    ElideIsIdempotent(x, false);
  }

  lemma DefiniteArticle(d: string, rest: string)
    requires d in {"le", "la", "les"}
    ensures var t := Elide(d + " " + rest, false); StartsWith(t, d + " ") || (d != "les" && StartsWith(t, "l'"))
  {
    var s := d + " " + rest;
    assert AllWord(s[..|d|]) && s[..|d|] == d && s[|d|] == ' ';
    assert s[..|d| + 1] == d + " ";
    if d == "les" { NoElision(Vowels, d, rest); }
    hide Scan, IsWord, Elides;
    KeepsWord(Vowels, s, |d|);
    var t := Scan(Vowels, s, false);
    if Elides(Vowels, s) { assert t[..2] == "l'"; }
  }

  /** An indefinite article gives way to the definite one of its gender and number, elided or not. */
  lemma NounIsDefinite(fr: string)
    requires Rest(fr, ' ') != []
    ensures var h, t := LowerAll(Head(fr, ' ')), NounForm(fr);
            && (h == "un" ==> StartsWith(t, "le ") || StartsWith(t, "l'"))
            && (h == "une" ==> StartsWith(t, "la ") || StartsWith(t, "l'"))
            && (h == "des" ==> StartsWith(t, "les "))
  {
    hide Elide, Head, Rest, LowerAll;
    var rest := Rest(fr, ' ');
    DefiniteArticle("le", rest);
    DefiniteArticle("la", rest);
    DefiniteArticle("les", rest);
    assert "le" + " " == "le " && "la" + " " == "la " && "les" + " " == "les ";
  }

  // ----- Adjectives -----

  /** A form that its own determiner rule leaves alone, or empties into the headword. */
  predicate Determinerless(w: string, bare: string) {
    Bare(w) == w || (Bare(w) == [] && w == bare)
  }

  /** A plural ends in s or x, keeps the stem, and has no plural of its own. */
  lemma PluralIsPlural(w: string, feminine: bool)
    ensures var p := AdjectivePlural(w, feminine);
            && (EndsWith(p, "s") || EndsWith(p, "x"))
            && AdjectivePlural(p, feminine) == p
            && |w| <= |p| <= |w| + 1 && (|w| >= 2 ==> p[..|w| - 2] == w[..|w| - 2])
            && (feminine && p != w ==> p == w + "s")
  {
    hide LowerAll;
    var p := AdjectivePlural(w, feminine);
    if p != w {
      assert p[|p| - 1..] == [p[|p| - 1]];
      assert EndsWith(w, "al") ==> |w| >= 2;
    }
  }

  /** The masculine is the headword, but for a headword that is itself the feminine given. */
  lemma HeadwordIsMasculine(forms: seq<Entry>, bare: string)
    ensures var four := AdjectiveForms(forms, bare);
            && |four| == 4
            && (four[0].fr == bare || four[1].fr == bare)
            && four[0].name == "masculine" && four[1].name == "feminine"
  {
  }

  lemma LabelledFour(m: string, f: string, ms: string, fs: string)
    ensures Labelled(FourForms(m, f, ms, fs), "feminine") == Bare(f)
    ensures Labelled(FourForms(m, f, ms, fs), "masculine") == Bare(m)
  {
    hide Bare;
    var four := FourForms(m, f, ms, fs);
    var three, two, one := four[..3], four[..2], four[..1];
    assert four[..3][..2] == two && two[..1] == one;
    assert forall i :: 0 <= i < 4 ==> LowerAll(four[i].name) == four[i].name;
    assert four[2].name[9] == ' ' && four[3].name[8] == ' ';
    assert |four[3].name| == 15 && |four[2].name| == 16;
    assert |"feminine"| == 8 && |"masculine"| == 9;
    assert Labelled(four, "feminine") == Labelled(three, "feminine") == Labelled(two, "feminine");
    assert Labelled(four, "masculine") == Labelled(three, "masculine") == Labelled(two, "masculine")
        == Labelled(one, "masculine");
  }

  /**
   An adjective's forms settle exactly when the feminine taken, and the masculine taken for a
   headword in the feminine, have no determiner left.
   */
  lemma AdjectiveSettlesIff(forms: seq<Entry>, bare: string)
    ensures var once := AdjectiveForms(forms, bare);
            var m, f := Masculine(forms, bare), Feminine(forms, bare);
            AdjectiveForms(once, bare) == once <==>
              || LowerAll(bare) in INVARIABLE
              || (Determinerless(f, bare) && (f == bare ==> Determinerless(m, bare)))
  {
    hide Bare, AdjectivePlural, Labelled;
    var m, f := Masculine(forms, bare), Feminine(forms, bare);
    LabelledFour(m, f, AdjectivePlural(m, false), AdjectivePlural(f, true));
    if LowerAll(bare) !in INVARIABLE {
      var once := AdjectiveForms(forms, bare);
      var twice := AdjectiveForms(once, bare);
      assert once[0].fr == m && once[1].fr == f;
      assert twice[0].fr == Masculine(once, bare) && twice[1].fr == Feminine(once, bare);
    }
  }

  /** So they do for every headword and entries with at most one determiner each. */
  lemma AdjectiveSettles(forms: seq<Entry>, bare: string)
    requires Bare(bare) == bare
    requires forall e :: e in forms ==> Bare(Bare(e.fr)) == Bare(e.fr)
    ensures AdjectiveForms(AdjectiveForms(forms, bare), bare) == AdjectiveForms(forms, bare)
  {
    hide Bare, AdjectivePlural, AdjectiveForms;
    AdjectiveSettlesIff(forms, bare);
    LabelledIsBare(forms, "feminine");
    LabelledIsBare(forms, "masculine");
  }

  lemma {:induction false} LabelledIsBare(forms: seq<Entry>, wanted: string)
    requires forall e :: e in forms ==> Bare(Bare(e.fr)) == Bare(e.fr)
    ensures var w := Labelled(forms, wanted); w == [] || Bare(w) == w
  {
    if forms != [] {
      hide Bare;
      assert forms[|forms| - 1] in forms;
      LabelledIsBare(forms[..|forms| - 1], wanted);
    }
  }

  // ----- The Latin script -----

  lemma LatinConcat(a: string, b: string)
    requires Latin(a) && Latin(b)
    ensures Latin(a + b)
  {
  }

  lemma BareIsLatin(s: string)
    requires Latin(s)
    ensures Latin(Bare(s)) && Latin(Strip(s))
  {
    hide FirstPrefix;
    StripIsSlice(s);
    var n := FirstPrefix(LowerAll(s), DETERMINERS);
    StripIsSlice(s[n..]);
  }

  lemma StripIsSlice(s: string)
    ensures Latin(s) ==> Latin(Strip(s)) && Latin(TrimLeft(s))
  {
  }

  lemma NounIsLatin(s: string)
    requires Latin(s)
    ensures Latin(NounForm(s))
  {
    hide Elide, Head;
    ElideEnds(Determined(s), false);
  }

  lemma AfterWordIsLatin(s: string, words: seq<string>)
    requires Latin(s)
    ensures Latin(AfterWord(s, words))
  {
    hide OpeningWord;
    StripIsSlice(s[OpeningWord(s, words)..]);
  }

  lemma PerfectWordsAreLatin(p: string)
    requires IsPronoun(p)
    ensures Latin(p) && Latin(Clitic(p)) && Latin(Etre(p))
  {
  }

  lemma WithEtreIsLatin(p: string, q: string)
    requires IsPronoun(p) && Latin(q)
    ensures Latin(WithEtre(p, q))
  {
    PerfectWordsAreLatin(p);
    hide Clitic, Etre, IsPronoun;
    LatinConcat(p, " ");
    LatinConcat(p + " ", Clitic(p));
    LatinConcat(p + " " + Clitic(p), " ");
    LatinConcat(p + " " + Clitic(p) + " ", Etre(p));
    LatinConcat(p + " " + Clitic(p) + " " + Etre(p), " ");
    LatinConcat(p + " " + Clitic(p) + " " + Etre(p) + " ", q);
  }

  lemma ParticipleIsLatin(s: string)
    requires Latin(s)
    ensures Latin(Participle(s))
  {
    hide AfterWord, Strip, Latin;
    AfterWordIsLatin(s, PRONOUNS);
    var a := AfterWord(s, PRONOUNS);
    AfterWordIsLatin(a, CLITICS);
    AfterWordIsLatin(AfterWord(a, CLITICS), AUXILIARIES);
    StripIsSlice(AfterWord(AfterWord(a, CLITICS), AUXILIARIES));
  }

  lemma PerfectIsLatin(s: string)
    requires Latin(s)
    ensures Latin(ReflexivePerfect(s))
  {
    hide Subject, Participle, WithEtre, Elide, Latin, IsPronoun;
    SubjectIsPronoun(s);
    ParticipleIsLatin(s);
    WithEtreIsLatin(Subject(s), Participle(s));
    ElideEnds(WithEtre(Subject(s), Participle(s)), false);
  }

  lemma RestoredIsLatin(x: string, bare: string)
    requires Latin(x) && Latin(bare)
    ensures Latin(RestoreComplement(x, bare))
  {
    var c := Complement(bare);
    assert Latin(c) by { hide Head, LowerAll; }
    hide Complement, HasComplement;
    LatinConcat(x, " ");
    LatinConcat(x + " ", c);
  }

  lemma SubjectIsLatin(s: string, bare: string, name: string)
    requires Latin(s)
    ensures Latin(WithSubject(s, bare, name))
  {
    hide Latin, ReflexivePerfect, HasSubject, IsReflexive, IsImpersonal, LowerAll;
    PerfectIsLatin(s);
    JeIsLatin(s);
  }

  lemma JeIsLatin(s: string)
    requires Latin(s)
    ensures Latin("je " + s)
  {
    LatinConcat("je ", s);
  }

  lemma VerbIsLatin(s: string, bare: string, name: string)
    requires Latin(s) && Latin(bare)
    ensures Latin(VerbForm(s, bare, name))
  {
    hide Latin, WithSubject, RestoreComplement, Elide, ElidesH;
    var x := WithSubject(s, bare, name);
    SubjectIsLatin(s, bare, name);
    RestoredIsLatin(x, bare);
    ElideEnds(RestoreComplement(x, bare), ElidesH(bare));
  }

  ghost predicate AllLatin(forms: seq<Entry>) {
    forall i :: 0 <= i < |forms| ==> Latin(forms[i].fr)
  }

  lemma {:induction false} ReadableIsLatin(forms: seq<Entry>)
    ensures AllLatin(Readable(forms))
  {
    if forms != [] { ReadableIsLatin(forms[1..]); }
  }

  lemma {:induction false} LatinIsReadable(forms: seq<Entry>)
    requires AllLatin(forms)
    ensures Readable(forms) == forms
  {
    if forms != [] {
      assert Latin(forms[0].fr);
      LatinIsReadable(forms[1..]);
      var r := Replace(forms[0].fr, '’', '\'');
      assert r == forms[0].fr;
    }
  }

  lemma LabelledIsLatin(forms: seq<Entry>, wanted: string)
    requires AllLatin(forms)
    ensures Latin(Labelled(forms, wanted))
  {
    hide Bare;
    if forms != [] {
      BareIsLatin(forms[|forms| - 1].fr);
      LabelledIsLatin(forms[..|forms| - 1], wanted);
    }
  }

  lemma AdjectivesAreLatin(forms: seq<Entry>, bare: string)
    requires AllLatin(forms) && Latin(bare)
    ensures AllLatin(AdjectiveForms(forms, bare))
  {
    hide Labelled, Latin, AdjectivePlural;
    LabelledIsLatin(forms, "feminine");
    LabelledIsLatin(forms, "masculine");
    PluralIsLatin(Masculine(forms, bare), false);
    PluralIsLatin(Feminine(forms, bare), true);
  }

  lemma PluralIsLatin(w: string, feminine: bool)
    requires Latin(w)
    ensures Latin(AdjectivePlural(w, feminine))
  {
    EndingsAreLatin();
    if |w| >= 2 { PrefixIsLatin(w, |w| - 2); }
    EndsAl(w);
    hide LowerAll, EndsWith, Latin;
    LatinConcat(w, "s");
    LatinConcat(w, "x");
    if |w| >= 2 { LatinConcat(w[..|w| - 2], "aux"); }
  }

  lemma EndsAl(w: string)
    ensures EndsWith(w, "al") ==> |w| >= 2
  {
  }

  lemma EndingsAreLatin()
    ensures Latin("s") && Latin("x") && Latin("aux")
  {
  }

  lemma PrefixIsLatin(w: string, n: nat)
    requires Latin(w) && n <= |w|
    ensures Latin(w[..n])
  {
  }

  lemma OneIsLatin(form: Entry, bare: string, pos: string)
    requires Latin(form.fr) && Latin(bare)
    ensures Latin(TidyOne(form, bare, pos).fr)
  {
    hide Latin, VerbForm, NounForm;
    VerbIsLatin(form.fr, bare, form.name);
    NounIsLatin(form.fr);
  }

  lemma LatinInFront(form: Entry, rest: seq<Entry>)
    ensures AllLatin([form] + rest) <==> Latin(form.fr) && AllLatin(rest)
  {
    hide Latin;
    var forms := [form] + rest;
    if AllLatin(forms) {
      assert Latin(forms[0].fr);
      forall i | 0 <= i < |rest| ensures Latin(rest[i].fr) { assert Latin(forms[i + 1].fr); }
    }
  }

  lemma {:induction false} EachIsLatin(forms: seq<Entry>, bare: string, pos: string)
    requires AllLatin(forms) && Latin(bare)
    ensures AllLatin(TidyEach(forms, bare, pos))
  {
    if forms != [] {
      hide Latin, TidyOne, AllLatin;
      var form, rest := forms[0], forms[1..];
      assert forms == [form] + rest;
      LatinInFront(form, rest);
      OneIsLatin(form, bare, pos);
      EachIsLatin(rest, bare, pos);
      LatinInFront(TidyOne(form, bare, pos), TidyEach(rest, bare, pos));
    }
  }

  // ----- A whole card -----

  predicate AdjectiveStays(forms: seq<Entry>, bare: string) {
    var m, f := Masculine(forms, bare), Feminine(forms, bare);
    || LowerAll(bare) in INVARIABLE
    || (Determinerless(f, bare) && (f == bare ==> Determinerless(m, bare)))
  }

  predicate FormStays(form: Entry, bare: string, pos: string) {
    pos == "verb" && Complement(bare) != [] ==> HasComplement(VerbForm(form.fr, bare, form.name), Complement(bare))
  }

  lemma {:induction false} EachSettlesIff(forms: seq<Entry>, bare: string, pos: string)
    ensures var once := TidyEach(forms, bare, pos);
            TidyEach(once, bare, pos) == once <==> forall f :: f in forms ==> FormStays(f, bare, pos)
  {
    if forms != [] {
      var f, rest := forms[0], TidyEach(forms[1..], bare, pos);
      OneSettlesIff(f, bare, pos);
      hide TidyOne, FormStays, TidyEach;
      EachSettlesIff(forms[1..], bare, pos);
      var one := TidyOne(f, bare, pos);
      EachStep(f, forms[1..], bare, pos);
      EachStep(one, rest, bare, pos);
      HeadAndTail(TidyOne(one, bare, pos), one, TidyEach(rest, bare, pos), rest);
      assert forms == [f] + forms[1..];
    }
  }

  lemma EachStep(f: Entry, rest: seq<Entry>, bare: string, pos: string)
    ensures TidyEach([f] + rest, bare, pos) == [TidyOne(f, bare, pos)] + TidyEach(rest, bare, pos)
  {
    assert ([f] + rest)[1..] == rest;
  }

  lemma OneSettlesIff(form: Entry, bare: string, pos: string)
    ensures var once := TidyOne(form, bare, pos); TidyOne(once, bare, pos) == once <==> FormStays(form, bare, pos)
  {
    hide VerbForm, NounForm, Complement, HasComplement;
    VerbSettlesIff(form.fr, bare, form.name);
    NounSettles(form.fr);
  }

  lemma HeadAndTail(a: Entry, b: Entry, r: seq<Entry>, s: seq<Entry>)
    ensures [a] + r == [b] + s <==> a == b && r == s
  {
    if [a] + r == [b] + s {
      assert ([a] + r)[0] == a && ([b] + s)[0] == b;
      assert ([a] + r)[1..] == r && ([b] + s)[1..] == s;
    }
  }

  /**
   The forms of a card read back as they were stored exactly when the adjective's entries taken have
   no determiner left, or every verb form still shows its complement; nouns and all other words
   always do.
   */
  lemma TidySettlesIff(forms: seq<Entry>, fr: string, pos: string)
    requires Latin(StripLeadingArticle(fr))
    ensures var bare, readable, once := StripLeadingArticle(fr), Readable(forms), TidyForms(forms, fr, pos);
            TidyForms(once, fr, pos) == once <==>
              if pos == "adjective" then readable == [] || AdjectiveStays(readable, bare)
              else forall f :: f in readable ==> FormStays(f, bare, pos)
  {
    var bare, readable := StripLeadingArticle(fr), Readable(forms);
    var once := TidyForms(forms, fr, pos);
    hide StripLeadingArticle, Latin, FormStays, TidyEach, Masculine, Feminine, Determinerless;
    ReadableIsLatin(forms);
    if pos == "adjective" {
      AdjectivesAreLatin(readable, bare);
      LatinIsReadable(once);
      AdjectiveSettlesIff(readable, bare);
    } else {
      EachIsLatin(readable, bare, pos);
      LatinIsReadable(once);
      EachSettlesIff(readable, bare, pos);
    }
  }

  /** A headword without its article has no spaces around it. */
  lemma BareIsTrimmed(word: string)
    ensures Trimmed(StripLeadingArticle(word))
  {
    var s := Strip(word);
    var w := Replace(Replace(s, '’', '\''), '‘', '\'');
    hide Strip, IsSpace, FirstPrefix, Trimmed, LowerAll;
    StripIsTrimmed(word);
    ReplaceKeepsTrimmed(s, '’');
    ReplaceKeepsTrimmed(Replace(s, '’', '\''), '‘');
    StripIsTrimmed(w[FirstPrefix(LowerAll(w), ARTICLES)..]);
  }

  lemma ReplaceKeepsTrimmed(s: string, c: char)
    requires Trimmed(s)
    ensures Trimmed(Replace(s, c, '\''))
  {
    ApostropheIsNoSpace();
    hide IsSpace;
  }

  lemma ApostropheIsNoSpace()
    ensures !IsSpace('\'')
  {
  }

  ghost predicate AlwaysSettles(fr: string, pos: string) {
    forall forms :: TidyForms(TidyForms(forms, fr, pos), fr, pos) == TidyForms(forms, fr, pos)
  }

  lemma LowerIsLatin(s: string)
    requires Latin(s)
    ensures Latin(LowerAll(s))
  {
  }

  /** The form that breaks a complement is in its script. */
  lemma BreakingFormIsLatin(c: string) returns (fr: string)
    requires c != [] && !IsSpace(c[|c| - 1]) && !Survives(c) && Latin(c)
    ensures Latin(fr) && HasSubject(fr) && HasComplement(fr, c) && !HasComplement(Elide(fr, true), c)
  {
    hide Survives, IsSpace, HasSubject, HasComplement, Elide, LowerAll;
    fr := BrokenForm(c);
    var pre, v :| pre in {"tu ", "tu l", "tu m"} && v in "uio" && fr == pre + LowerAll(c) + " " + [v];
    LowerIsLatin(c);
    LatinConcat(pre, LowerAll(c));
    LatinConcat(pre + LowerAll(c), " ");
    LatinConcat(pre + LowerAll(c) + " ", [v]);
  }

  /**
   A verb's card reads back as it was stored, whatever forms were stored, exactly when the headword
   has no complement or one that survives; a card of any other part of speech but the adjective
   always does.
   */
  lemma CardAlwaysSettlesIff(fr: string, pos: string)
    requires Latin(StripLeadingArticle(fr)) && pos != "adjective"
    ensures var c := Complement(StripLeadingArticle(fr));
            AlwaysSettles(fr, pos) <==> pos != "verb" || c == [] || Survives(c)
  {
    var bare := StripLeadingArticle(fr);
    var c := Complement(bare);
    BareIsTrimmed(fr);
    if pos != "verb" || c == [] || Survives(c) {
      forall forms ensures TidyForms(TidyForms(forms, fr, pos), fr, pos) == TidyForms(forms, fr, pos) {
        hide StripLeadingArticle, TidyForms, Complement, Survives, Latin;
        TidySettles(forms, fr, pos);
      }
    } else {
      ComplementEnds(bare);
      assert Latin(c) by { hide Head, LowerAll; }
      hide StripLeadingArticle, Complement, HasSubject, HasComplement, Elide, IsSpace, Latin, Survives;
      var form := BreakingFormIsLatin(c);
      LostComplementShows(form, fr);
    }
  }

  lemma LostComplementShows(form: string, fr: string)
    requires Latin(form) && Latin(StripLeadingArticle(fr)) && HasSubject(form)
    requires var c := Complement(StripLeadingArticle(fr));
             c != [] && HasComplement(form, c) && !HasComplement(Elide(form, true), c)
    ensures !AlwaysSettles(fr, "verb")
  {
    var bare := StripLeadingArticle(fr);
    var forms := [Entry("", form)];
    ComplementHeadword(bare);
    OneReadable(form);
    hide StripLeadingArticle, Complement, HasSubject, HasComplement, Elide, IsReflexive, IsImpersonal, ElidesH, Latin;
    assert VerbForm(form, bare, "") == Elide(form, true);
    assert !FormStays(forms[0], bare, "verb");
    hide VerbForm, TidyForms, FormStays;
    TidySettlesIff(forms, fr, "verb");
  }

  lemma OneReadable(form: string)
    requires Latin(form)
    ensures Readable([Entry("", form)]) == [Entry("", form)]
  {
    LatinIsReadable([Entry("", form)]);
  }

  /** What can be asked of a headword and the model's entries beforehand. */
  ghost predicate Regular(forms: seq<Entry>, bare: string, pos: string) {
    && Latin(bare)
    && (pos == "adjective" ==>
          Bare(bare) == bare && forall e :: e in Readable(forms) ==> Bare(Bare(e.fr)) == Bare(e.fr))
    && (pos == "verb" && Complement(bare) != [] ==> Survives(Complement(bare)))
  }

  /** Then tidying twice is tidying once. */
  lemma TidySettles(forms: seq<Entry>, fr: string, pos: string)
    requires Regular(forms, StripLeadingArticle(fr), pos)
    ensures TidyForms(TidyForms(forms, fr, pos), fr, pos) == TidyForms(forms, fr, pos)
  {
    var bare, readable := StripLeadingArticle(fr), Readable(forms);
    TidySettlesIff(forms, fr, pos);
    if pos == "adjective" {
      AdjectiveSettlesIff(readable, bare);
      AdjectiveSettles(readable, bare);
    } else {
      forall f | f in readable ensures FormStays(f, bare, pos) {
        if pos == "verb" {
          BareIsTrimmed(fr);
          VerbSettles(f.fr, bare, f.name);
          VerbSettlesIff(f.fr, bare, f.name);
        }
      }
    }
  }

  /** So forms stored for the bare headword are read back unchanged for the word as typed. */
  lemma StoredFormsReadBack(forms: seq<Entry>, fr: string, pos: string)
    requires Regular(forms, StripLeadingArticle(fr), pos)
    requires StripLeadingArticle(StripLeadingArticle(fr)) == StripLeadingArticle(fr)
    ensures var stored := TidyForms(forms, StripLeadingArticle(fr), pos); TidyForms(stored, fr, pos) == stored
  {
    hide StripLeadingArticle;
    TidySettles(forms, fr, pos);
  }
}
