/** What a tidied verb form says, read off the words it was made from. */
module VerbRules {
  import opened Text
  import opened Articles
  import opened Elision
  import opened ElisionInContext
  import opened Forms
  import opened VerbsSettle
  import opened ComplementsSettle

  // ----- Which words elide -----

  /** A vowel, accented or not, in either case. */
  predicate VowelLetter(c: char) {
    c in "aeiouyàâäéèêëîïôöûüœ" || c in "AEIOUYÀÂÄÉÈÊËÎÏÔÖÛÜŒ"
  }

  lemma VowelIff(c: char)
    ensures Follows(Vowels, c) <==> VowelLetter(c)
    ensures Follows(Aitch, c) <==> c == 'h' || c == 'H'
  {
    CapitalVowels(c);
  }

  const SMALL := "aeiouyàâäéèêëîïôöûüœ"
  const CAPITAL := "AEIOUYÀÂÄÉÈÊËÎÏÔÖÛÜŒ"

  lemma VowelPair(i: nat)
    requires i < |SMALL|
    ensures |CAPITAL| == |SMALL| && Lower(CAPITAL[i]) == SMALL[i] == Lower(SMALL[i]) && CAPITAL[i] != SMALL[i]
  {
  }

  lemma OneCapital(c: char, d: char)
    requires Lower(c) == Lower(d) && Lower(c) != c && Lower(d) != d
    ensures c == d
  {
  }

  lemma CapitalVowels(c: char)
    ensures IsVowel(c) <==> VowelLetter(c)
  {
    hide Lower;
    if IsVowel(c) {
      var i :| 0 <= i < |SMALL| && SMALL[i] == Lower(c);
      VowelPair(i);
      if Lower(c) != c { OneCapital(c, CAPITAL[i]); }
    }
    if VowelLetter(c) {
      var i :| 0 <= i < |SMALL| && (SMALL[i] == c || CAPITAL[i] == c);
      VowelPair(i);
    }
  }

  lemma ParticleWord(pass: Pass, w: string)
    requires |w| == 2
    ensures IsParticle(pass, w[0], w[1]) <==>
              LowerAll(w) in {"je", "me", "te", "se"} || (pass == Vowels && LowerAll(w) in {"le", "la"})
  {
    var l := LowerAll(w);
    assert l == [Lower(w[0]), Lower(w[1])];
    hide Lower;
  }

  /**
   A first word gives up its last letter exactly if it is one of six before a vowel or, in the pass
   for verbs, one of four before an h; and then the next word goes on as if on its own.
   */
  lemma FirstWordElidesIff(pass: Pass, w: string, rest: string)
    requires w != [] && AllWord(w)
    ensures var elides := rest != [] &&
              if pass == Vowels then LowerAll(w) in {"je", "me", "te", "se", "le", "la"} && VowelLetter(rest[0])
              else LowerAll(w) in {"je", "me", "te", "se"} && rest[0] in "hH";
            Scan(pass, w + " " + rest, false)
            == (if elides then [w[0], '\''] else w + " ") + Scan(pass, rest, false)
  {
    if rest != [] { VowelIff(rest[0]); }
    if |w| == 2 { ParticleWord(pass, w); }
    assert |LowerAll(w)| == |w|;
    hide IsWord, Scan, Follows, IsParticle, LowerAll, VowelLetter;
    var s := w + " " + rest;
    if |w| == 2 && IsParticle(pass, w[0], w[1]) && rest != [] && Follows(pass, rest[0]) {
      assert s[0] == w[0] && s[1] == w[1] && s[2] == ' ' && s[3] == rest[0];
      StepPast(pass, s, rest);
    } else {
      NoElision(pass, w, rest);
      hide Elides;
      ScanAfterWord(pass, w, rest);
    }
  }

  /** It stays in front of anything but a space, such as an apostrophe, which stays as well. */
  lemma FirstWordStays(pass: Pass, w: string, c: char, rest: string)
    requires w != [] && AllWord(w) && !IsWord(c) && c != ' '
    ensures Scan(pass, w + [c] + rest, false) == w + [c] + Scan(pass, rest, false)
  {
    hide *;
    var s, v, z := w + [c] + rest, w[1..], [c] + rest;
    WordNotElided(pass, w, c, rest);
    WordShape(w, c, rest);
    WordStart(w);
    StepOver(pass, s, false, v + z);
    ScanThroughWord(pass, v, z);
    StepOver(pass, z, true, rest);
    WordShape(w, c, Scan(pass, rest, false));
  }

  lemma WordShape(w: string, c: char, rest: string)
    requires w != []
    ensures var s, z := w + [c] + rest, [c] + rest;
            s == [w[0]] + (w[1..] + z) && s[0] == w[0] && s[1..] == w[1..] + z && z[0] == c && z[1..] == rest
  {
  }

  lemma WordStart(w: string)
    requires w != [] && AllWord(w)
    ensures IsWord(w[0]) && AllWord(w[1..])
  {
  }

  lemma WordNotElided(pass: Pass, w: string, c: char, rest: string)
    requires w != [] && AllWord(w) && !IsWord(c) && c != ' '
    ensures !Elides(pass, w + [c] + rest)
  {
    Marks();
    var s := w + [c] + rest;
    hide IsWord, Follows;
    if Elides(pass, s) {
      assert s[|w|] == c && s[2] == ' ' && s[0] == w[0];
      if |w| == 1 { SecondIsWord(pass, s[0], s[1]); }
    }
  }

  lemma SecondIsWord(pass: Pass, a: char, b: char)
    requires IsParticle(pass, a, b)
    ensures IsWord(b)
  {
    LowerKeepsKind(b);
    assert IsWord('a') && IsWord('e');
    hide IsWord;
  }

  /** So does anything in front that is no word. */
  lemma MarkStays(pass: Pass, c: char, rest: string)
    requires !IsWord(c)
    ensures Scan(pass, [c] + rest, false) == [c] + Scan(pass, rest, false)
  {
    var s := [c] + rest;
    if Elides(pass, s) { ParticleIsWord(pass, s[0], s[1]); }
    assert s[1..] == rest;
    hide IsWord, Elides;
  }

  // ----- The word a form opens with -----

  /** The text starts with that word, in any case, and the word ends there. */
  ghost predicate OpensWith(fr: string, word: string) {
    && word != [] && |word| <= |fr| && LowerAll(fr[..|word|]) == word
    && Boundary(fr, |word|)
  }

  lemma OpensWithIs(fr: string, word: string)
    ensures OpensWith(fr, word) <==> word != [] && StartsWith(LowerAll(fr), word) && Boundary(fr, |word|)
  {
    if |word| <= |fr| { SamePrefix(fr, fr, |word|); }
    hide LowerAll, Boundary;
  }

  lemma {:induction false} NothingOpens(fr: string, words: seq<string>)
    requires forall w :: w in words ==> !OpensWith(fr, w)
    ensures OpeningWord(fr, words) == 0
  {
    hide OpensWith, Boundary, LowerAll, StartsWith;
    if words != [] {
      OpensWithIs(fr, words[0]);
      assert words[0] in words;
      NothingOpens(fr, words[1..]);
    }
  }

  lemma OpensHere(fr: string, words: seq<string>, w: string)
    requires w in words && Openings(words) && OpensWith(fr, w)
    ensures OpeningWord(fr, words) == |w|
  {
    OpensWithIs(fr, w);
    hide OpensWith, Boundary, LowerAll, Openings, StartsWith;
    OpeningIs(fr, words, w);
  }

  lemma OpenedBy(fr: string, words: seq<string>) returns (w: string)
    requires OpeningWord(fr, words) > 0 && Openings(words)
    ensures w in words && OpensWith(fr, w) && OpeningWord(fr, words) == |w|
  {
    hide OpensWith, Boundary, LowerAll, Openings;
    if forall v :: v in words ==> !OpensWith(fr, v) { NothingOpens(fr, words); }
    w :| w in words && OpensWith(fr, w);
    OpensHere(fr, words, w);
  }

  // ----- The subject -----

  /** The subject is the pronoun that the form opens with, "je" if there is none or it is "j'". */
  lemma SubjectIff(fr: string, p: string)
    requires p in {"tu", "il", "elle", "on", "nous", "vous", "ils", "elles"}
    ensures Subject(fr) == p <==> OpensWith(fr, p)
  {
    PronounsAreOpenings();
    hide Opening, Boundary, LowerAll, Openings, OpeningWord;
    if OpensWith(fr, p) {
      OpensHere(fr, PRONOUNS, p);
    } else if OpeningWord(fr, PRONOUNS) > 0 {
      var w := OpenedBy(fr, PRONOUNS);
    }
  }

  lemma SubjectIsJe(fr: string)
    requires forall p :: p in {"tu", "il", "elle", "on", "nous", "vous", "ils", "elles"} ==> !OpensWith(fr, p)
    ensures Subject(fr) == "je"
  {
    SubjectIsPronoun(fr);
    hide Subject, OpensWith;
    if Subject(fr) != "je" { SubjectIff(fr, Subject(fr)); }
  }

  // ----- The participle -----

  /** That word, in any case, and the spaces behind it. */
  ghost predicate FrontWord(front: string, w: string, rest: string) {
    && 0 < |w| <= |front| && LowerAll(front[..|w|]) == w && Spaces(front[|w|..])
    && (rest == [] || !IsSpace(rest[0])) && Boundary(front + rest, |w|)
  }

  /** The form goes on with one of the words, in any case, or with none of them. */
  ghost predicate Front(front: string, words: seq<string>, rest: string) {
    if front == [] then (rest == [] || !IsSpace(rest[0])) && forall w :: w in words ==> !OpensWith(rest, w)
    else exists w :: w in words && FrontWord(front, w, rest)
  }

  lemma TrimLeftOfSpaces(gap: string, rest: string)
    requires Spaces(gap) && (rest == [] || !IsSpace(rest[0]))
    ensures TrimLeft(gap + rest) == rest
  {
    hide IsSpace;
    TrimLeftDropsSpaces(gap + rest);
    var t := TrimLeft(gap + rest);
    hide TrimLeft;
    var n := |gap + rest| - |t|;
    assert forall i :: 0 <= i < n ==> IsSpace((gap + rest)[..n][i]) && (gap + rest)[..n][i] == (gap + rest)[i];
    assert rest != [] ==> (gap + rest)[|gap|] == rest[0];
  }

  lemma AfterFront(front: string, words: seq<string>, rest: string)
    requires Front(front, words, rest) && Openings(words)
    ensures AfterWord(front + rest, words) == rest
  {
    hide Opening, OpensWith, Boundary, LowerAll, OpeningWord, TrimLeft, IsSpace, Spaces;
    if front == [] {
      NothingOpens(rest, words);
      assert front + rest == rest;
    } else {
      var w :| w in words && FrontWord(front, w, rest);
      var gap := front[|w|..];
      AfterAnyCase(front + rest, words, w, gap + rest);
      TrimLeftOfSpaces(gap, rest);
    }
  }

  lemma AfterAnyCase(s: string, words: seq<string>, w: string, rest: string)
    requires w in words && Openings(words) && |w| <= |s| && LowerAll(s[..|w|]) == w && Boundary(s, |w|)
    requires s[|w|..] == rest
    ensures AfterWord(s, words) == TrimLeft(rest)
  {
    assert w != [] by { assert Opening(w); }
    assert OpensWith(s, w);
    hide Opening, Boundary, OpensWith, LowerAll, TrimLeft;
    OpensHere(s, words, w);
  }

  /** The participle is what comes after the subject, the clitic and the auxiliary, each of which may be missing. */
  lemma ParticipleIs(subject: string, clitic: string, auxiliary: string, participle: string)
    requires Trimmed(participle)
    requires Front(subject, PRONOUNS, clitic + auxiliary + participle)
    requires Front(clitic, CLITICS, auxiliary + participle)
    requires Front(auxiliary, AUXILIARIES, participle)
    ensures Participle(subject + clitic + auxiliary + participle) == participle
  {
    PronounsAreOpenings();
    CliticsAreOpenings();
    AuxiliariesAreOpenings();
    hide Front, Opening, Openings, AfterWord, Trimmed, Strip;
    assert subject + clitic + auxiliary + participle == subject + (clitic + auxiliary + participle);
    assert clitic + auxiliary + participle == clitic + (auxiliary + participle);
    AfterFront(subject, PRONOUNS, clitic + auxiliary + participle);
    AfterFront(clitic, CLITICS, auxiliary + participle);
    AfterFront(auxiliary, AUXILIARIES, participle);
    StripIsTrimmed(participle);
  }

  lemma OneWordStays(w: string, beforeH: bool)
    requires ' ' !in w
    ensures Elide(w, beforeH) == w
  {
    hide Scan;
    assert w == w + [];
    ScanNothing(Vowels, w, w, [], false);
    ScanNothing(Aitch, w, w, [], false);
  }

  // ----- Verbs with a pronoun of their own -----

  /** How a reflexive perfect starts in each person. */
  const STARTS := map["je" := "je me suis ", "tu" := "tu t'es ", "il" := "il s'est ", "elle" := "elle s'est ",
                      "on" := "on s'est ", "nous" := "nous nous sommes ", "vous" := "vous vous êtes ",
                      "ils" := "ils se sont ", "elles" := "elles se sont "]

  lemma StartIs(p: string)
    requires IsPronoun(p)
    ensures p in STARTS && STARTS[p] == PerfectStart(p)
  {
    PronounStartsAgree();
    hide PerfectStart;
  }

  /** Headwords in "avoir" are the only ones with a complement. */
  lemma NoComplement(bare: string)
    requires IsReflexive(bare) || IsImpersonal(bare)
    ensures Complement(bare) == []
  {
    hide IsReflexive, IsImpersonal, Complement;
    if Complement(bare) != [] { ComplementHeadword(bare); }
  }

  lemma {:induction false} FirstPrefixIff(s: string, words: seq<string>)
    requires [] !in words
    ensures FirstPrefix(s, words) > 0 <==> exists w :: w in words && StartsWith(s, w)
  {
    hide StartsWith;
    if words != [] {
      assert words == [words[0]] + words[1..];
      assert words[0] in words;
      FirstPrefixIff(s, words[1..]);
    }
  }

  /** Seven verbs are impersonal. */
  lemma ImpersonalIff(bare: string)
    ensures IsImpersonal(bare) <==>
              exists v :: v in {"pleuvoir", "neiger", "falloir", "geler", "s'agir", "grêler", "tonner"}
                          && StartsWith(LowerAll(bare), v)
  {
    hide StartsWith, LowerAll;
    FirstPrefixIff(LowerAll(bare), IMPERSONAL);
  }

  /** Seven verbs have an aspirate h: those that say so in their first letters. */
  lemma ElidesHIff(bare: string)
    ensures ElidesH(bare) <==>
              forall v :: v in {"haïr", "hacher", "hanter", "harceler", "hâter", "hausser", "heurter"} ==>
                !StartsWith(LowerAll(bare), v)
  {
    hide StartsWith, LowerAll;
    FirstPrefixIff(LowerAll(bare), H_ASPIRE);
  }

  lemma OtherLetterElidesH(bare: string)
    requires bare != [] && Lower(bare[0]) != 'h'
    ensures ElidesH(bare)
  {
    ElidesHIff(bare);
    hide Lower, ElidesH;
    if !ElidesH(bare) {
      var v :| v in {"haïr", "hacher", "hanter", "harceler", "hâter", "hausser", "heurter"}
               && StartsWith(LowerAll(bare), v);
      assert LowerAll(bare)[0] != 'h';
      FirstOfPrefix(LowerAll(bare), v);
    }
  }

  lemma ReflexiveElidesH(bare: string)
    requires IsReflexive(bare)
    ensures ElidesH(bare)
  {
    FirstOfPrefix(bare, if StartsWith(bare, "se ") then "se " else "s'");
    OtherLetterElidesH(bare);
  }

  lemma ImpersonalElidesH(bare: string)
    requires IsImpersonal(bare)
    ensures ElidesH(bare)
  {
    ImpersonalIff(bare);
    hide Lower, ElidesH, IsImpersonal;
    var v :| v in {"pleuvoir", "neiger", "falloir", "geler", "s'agir", "grêler", "tonner"}
             && StartsWith(LowerAll(bare), v);
    FirstOfPrefix(LowerAll(bare), v);
    assert LowerAll(bare)[0] == Lower(bare[0]);
    OtherLetterElidesH(bare);
  }

  /**
   The passé composé of a reflexive verb is told with être, the clitic and the verb agreeing with the
   subject that the form opens with, before the form's own participle.
   */
  lemma ReflexivePerfectForm(fr: string, bare: string, name: string)
    requires StartsWith(bare, "se ") || StartsWith(bare, "s'")
    requires !IsImpersonal(bare) && LowerAll(name) == "passé composé"
    ensures Subject(fr) in STARTS
    ensures VerbForm(fr, bare, name) == STARTS[Subject(fr)] + Elide(Elide(Participle(fr), false), true)
  {
    ReflexiveElidesH(bare);
    NoComplement(bare);
    SubjectIsPronoun(fr);
    StartIs(Subject(fr));
    hide Subject, Participle, PerfectStart, Elide, Complement, IsPronoun, ElidesH, IsImpersonal;
    PerfectIs(fr, true);
  }

  /** In any other tense its words stay as they are, up to elision; so do all those of an impersonal verb. */
  lemma OwnWordsStay(fr: string, bare: string, name: string)
    requires StartsWith(bare, "se ") || StartsWith(bare, "s'") || IsImpersonal(bare)
    requires IsImpersonal(bare) || LowerAll(name) != "passé composé"
    ensures VerbForm(fr, bare, name) == Elide(fr, true)
  {
    if IsReflexive(bare) { ReflexiveElidesH(bare); } else { ImpersonalElidesH(bare); }
    NoComplement(bare);
    hide Elide, Complement, ElidesH, IsImpersonal, HasSubject, ReflexivePerfect;
  }

  // ----- Verbs with a subject put in front -----

  lemma HasSubjectIff(fr: string)
    ensures HasSubject(fr) <==>
              exists p :: p in {"je ", "j'", "tu ", "il ", "elle ", "on ", "nous ", "vous ", "ils ", "elles "}
                          && StartsWith(LowerAll(fr), p)
  {
    hide StartsWith, LowerAll;
    FirstPrefixIff(LowerAll(fr), SUBJECTS);
  }

  /** A form of any other verb keeps its subject and gets "je" if it has none. */
  lemma PlainVerbForm(fr: string, bare: string, name: string)
    requires !StartsWith(bare, "se ") && !StartsWith(bare, "s'") && !IsImpersonal(bare) && Complement(bare) == []
    ensures HasSubject(fr) ==> VerbForm(fr, bare, name) == Elide(fr, ElidesH(bare))
    ensures !HasSubject(fr) ==> VerbForm(fr, bare, name) == Elide("je " + fr, ElidesH(bare))
  {
    hide Elide, Complement, ElidesH, IsImpersonal, HasSubject, ReflexivePerfect;
  }

  // ----- Verbs with a complement -----

  ghost predicate Parts(x: string, u: string, m: string, v: string) { x == u + m + v }

  /** The complement shows somewhere in the form, in any case. */
  ghost predicate Shows(x: string, c: string) {
    exists u, m, v :: Parts(x, u, m, v) && LowerAll(m) == LowerAll(c)
  }

  /** The form ends with that word, in any case, but for spaces. */
  ghost predicate EndsIn(x: string, f: string) {
    exists u, m, v :: Parts(x, u, m, v) && LowerAll(m) == f && Spaces(v) && (m != [] ==> !IsSpace(m[|m| - 1]))
  }

  /** A form has its complement exactly when it shows, or its first word comes last. */
  lemma HasComplementIff(x: string, c: string)
    requires c != [] && !IsSpace(c[|c| - 1])
    ensures HasComplement(x, c) <==> Shows(x, c) || EndsIn(x, Head(LowerAll(c), ' '))
  {
    var f := Head(LowerAll(c), ' ');
    hide Lower, LowerAll, IsSpace, TrimRight, Contains, Head, HasComplement;
    if HasComplement(x, c) { ComplementIsSeen(x, c); }
    if Shows(x, c) {
      var u, m, v :| Parts(x, u, m, v) && LowerAll(m) == LowerAll(c);
      SameEnd(m, c);
      PieceIsComplement(u, m, v, c);
    }
    if EndsIn(x, f) {
      var u, m, v :| Parts(x, u, m, v) && LowerAll(m) == f && Spaces(v) && (m != [] ==> !IsSpace(m[|m| - 1]));
      if m == [] { EmptyIsComplement(x, c); } else { LastIsComplement(u, m, v, c); }
    }
  }

  lemma EmptyIsComplement(x: string, c: string)
    requires Head(LowerAll(c), ' ') == []
    ensures HasComplement(x, c)
  {
    hide LowerAll, TrimRight, Contains, Head;
  }

  lemma SameEnd(m: string, c: string)
    requires LowerAll(m) == LowerAll(c) && c != [] && !IsSpace(c[|c| - 1])
    ensures m != [] && !IsSpace(m[|m| - 1])
  {
    assert |m| == |c| by { assert |LowerAll(m)| == |LowerAll(c)|; }
    assert Lower(m[|m| - 1]) == LowerAll(m)[|m| - 1] == LowerAll(c)[|c| - 1] == Lower(c[|c| - 1]);
    LowerKeepsKind(m[|m| - 1]);
    LowerKeepsKind(c[|c| - 1]);
    hide Lower, IsSpace, IsWord;
  }

  lemma ComplementIsSeen(x: string, c: string)
    requires HasComplement(x, c)
    ensures Shows(x, c) || EndsIn(x, Head(LowerAll(c), ' '))
  {
    hide Lower, IsSpace, TrimRight, Contains, Head;
    var low, lc := TrimRight(LowerAll(x)), LowerAll(c);
    var f := Head(lc, ' ');
    if EndsWith(low, f) {
      if f == [] {
        assert Parts(x, x, [], []) && LowerAll([]) == f;
      } else {
        var u, m, v := WhereLast(x, f);
        assert Parts(x, u, m, v);
      }
    } else {
      if EndsWith(low, lc) { EndIsContained(low, lc); }
      var u, m, v := WhereWhole(x, c);
      assert Parts(x, u, m, v);
    }
  }

  /** The complement of "avoir faim" goes behind every form that lacks it, and behind no other. */
  lemma ComplementForm(fr: string, avoir: string, c: string, name: string)
    requires LowerAll(avoir) == "avoir" && c != [] && !IsSpace(c[|c| - 1]) && HasSubject(fr)
    ensures var form := VerbForm(fr, avoir + " " + c, name);
            if Shows(fr, c) || EndsIn(fr, Head(LowerAll(c), ' ')) then form == Elide(fr, true)
            else form == Elide(fr + " " + c, true)
  {
    var bare := avoir + " " + c;
    ComplementOf(avoir, c);
    ComplementHeadword(bare);
    HasComplementIff(fr, c);
    hide Elide, Complement, ElidesH, IsImpersonal, IsReflexive, HasSubject, HasComplement, ReflexivePerfect, Shows,
         EndsIn, LowerAll;
  }

  lemma ComplementOf(avoir: string, c: string)
    requires LowerAll(avoir) == "avoir"
    ensures Complement(avoir + " " + c) == c
  {
    NoSpace(avoir, "avoir");
    HeadAndRest(avoir, c);
    hide LowerAll, Head, Rest;
  }

  // ----- The aspirate h -----

  lemma AitchFollows(c: char)
    requires Lower(c) == 'h'
    ensures Follows(Aitch, c) && !Follows(Vowels, c)
  {
  }

  lemma AllLetters(w: string)
    requires w in {"je", "me"}
    ensures AllWord(w) && w != []
  {
  }

  lemma ElidesHere(w: string, rest: string)
    requires w in {"je", "me"} && rest != [] && Follows(Aitch, rest[0])
    ensures Elides(Aitch, w + " " + rest)
  {
    hide Follows;
    var s := w + " " + rest;
    assert s[0] == w[0] && s[1] == w[1] && s[2] == ' ' && s[3] == rest[0];
    assert IsParticle(Aitch, w[0], w[1]);
  }

  /** No particle gives up its letter before an h in the first pass, all of them do in the second. */
  lemma BeforeAitch(w: string, rest: string)
    requires w in {"je", "me"} && rest != [] && Lower(rest[0]) == 'h'
    ensures Scan(Vowels, w + " " + rest, false) == w + " " + Scan(Vowels, rest, false)
    ensures Scan(Aitch, w + " " + rest, false) == [w[0], '\''] + Scan(Aitch, rest, false)
  {
    hide *;
    AllLetters(w);
    AitchFollows(rest[0]);
    NoElision(Vowels, w, rest);
    ScanAfterWord(Vowels, w, rest);
    ElidesHere(w, rest);
    StepPast(Aitch, w + " " + rest, rest);
  }

  lemma ElideBeforeAitch(w: string, rest: string)
    requires w in {"je", "me"} && rest != [] && Lower(rest[0]) == 'h'
    ensures Elide(w + " " + rest, false) == w + " " + Elide(rest, false)
    ensures Elide(w + " " + rest, true) == [w[0], '\''] + Elide(rest, true)
  {
    hide Lower, Scan;
    var t := Scan(Vowels, rest, false);
    ScanStart(Vowels, rest, false);
    BeforeAitch(w, rest);
    BeforeAitch(w, t);
  }

  lemma ElideMeBeforeAitch(rest: string)
    requires rest != [] && Lower(rest[0]) == 'h'
    ensures Elide("je me " + rest, false) == "je me " + Elide(rest, false)
    ensures Elide("je me " + rest, true) == "je m'" + Elide(rest, true)
  {
    hide Lower, Scan;
    var t := Scan(Vowels, rest, false);
    var z, y := "me " + rest, "me " + t;
    ScanStart(Vowels, rest, false);
    BeforeAitch("me", rest);
    BeforeAitch("me", t);
    JeBeforeMe(Vowels, z);
    JeBeforeMe(Aitch, y);
    Sentence(rest);
    Sentence(t);
    Shortened(Scan(Aitch, t, false));
  }

  lemma Sentence(x: string)
    ensures "je me " + x == "je " + ("me " + x) && "me" + " " + x == "me " + x
  {
  }

  lemma Shortened(x: string)
    ensures "je " + (['m', '\''] + x) == "je m'" + x
  {
  }

  lemma JeBeforeMe(pass: Pass, rest: string)
    requires rest != [] && rest[0] == 'm'
    ensures Scan(pass, "je " + rest, false) == "je " + Scan(pass, rest, false)
  {
    assert AllWord("je");
    hide Scan, IsWord;
    ScanWord(pass, "je", rest);
    assert "je" + " " == "je ";
  }

  /** The headword of a verb with an aspirate h. */
  ghost predicate Aspirate(bare: string) {
    exists v :: v in {"haïr", "hacher", "hanter", "harceler", "hâter", "hausser", "heurter"}
                && StartsWith(LowerAll(bare), v)
  }

  lemma AspirateIsPlain(bare: string)
    requires Aspirate(bare)
    ensures !ElidesH(bare) && !IsReflexive(bare) && !IsImpersonal(bare) && Complement(bare) == []
  {
    AspirateIff(bare);
    hide Aspirate, ElidesH, IsReflexive, IsImpersonal, Complement;
    if IsReflexive(bare) { ReflexiveElidesH(bare); }
    if IsImpersonal(bare) { ImpersonalElidesH(bare); }
    if Complement(bare) != [] { ComplementHeadword(bare); }
  }

  /** "je" keeps its letter before the h of an aspirate verb, and no other plain verb's. */
  lemma JeBeforeH(rest: string, bare: string, name: string)
    requires rest != [] && Lower(rest[0]) == 'h' && Complement(bare) == []
    requires !StartsWith(bare, "se ") && !StartsWith(bare, "s'") && !IsImpersonal(bare)
    ensures VerbForm("je " + rest, bare, name)
         == if Aspirate(bare) then "je " + Elide(rest, false) else "j'" + Elide(rest, true)
  {
    AspirateIff(bare);
    JeIsSubject(rest);
    hide *;
    JeInFront(rest);
    ElideBeforeAitch("je", rest);
    PlainVerbForm("je " + rest, bare, name);
  }

  lemma AspirateIff(bare: string)
    ensures Aspirate(bare) <==> !ElidesH(bare)
  {
    hide ElidesH, StartsWith, LowerAll;
    ElidesHIff(bare);
  }

  lemma JeInFront(rest: string)
    ensures "je" + " " + rest == "je " + rest && ["je"[0], '\''] + rest == "j'" + rest
    ensures "je" in {"je", "me"}
  {
  }

  /**
   A clitic should keep its letter before an aspirate h too. It does exactly when the headword is the
   bare verb: the reflexive headword starts with "se" and is taken for one with a mute h.
   */
  lemma CliticBeforeAspirateIff(rest: string, bare: string, name: string)
    requires rest != [] && Lower(rest[0]) == 'h' && LowerAll(name) != "passé composé"
    requires Aspirate(bare) || (StartsWith(bare, "se ") && Aspirate(bare[3..]))
    ensures VerbForm("je me " + rest, bare, name)
         == if StartsWith(bare, "se ") then "je m'" + Elide(rest, true) else "je me " + Elide(rest, false)
  {
    hide *;
    ElideMeBeforeAitch(rest);
    if StartsWith(bare, "se ") {
      OwnWordsStay("je me " + rest, bare, name);
    } else {
      BareAspirateForm(rest, bare, name);
    }
  }

  lemma BareAspirateForm(rest: string, bare: string, name: string)
    requires Aspirate(bare)
    ensures VerbForm("je me " + rest, bare, name) == Elide("je me " + rest, false)
  {
    hide *;
    AspirateIsPlain(bare);
    NotReflexive(bare);
    JeIsSubject("me " + rest);
    Sentence(rest);
    PlainVerbForm("je me " + rest, bare, name);
  }

  lemma NotReflexive(bare: string)
    ensures IsReflexive(bare) == (StartsWith(bare, "se ") || StartsWith(bare, "s'"))
  {
  }

  /** So "je me hâte" becomes "je m'hâte" on the card of "se hâter". */
  lemma ReflexiveAspirateElides()
    ensures VerbForm("je me hâte", "se hâter", "présent") == "je m'hâte"
  {
    LowerLetters();
    hide *;
    OneWordStays("hâte", true);
    CliticBeforeAspirateIff("hâte", "se hâter", "présent");
    Words();
  }

  lemma Words()
    ensures "je me " + "hâte" == "je me hâte" && "je m'" + "hâte" == "je m'hâte" && ' ' !in "hâte"
  {
  }

  lemma LowerLetters()
    ensures Aspirate("se hâter"[3..]) && StartsWith("se hâter", "se ") && Lower("hâte"[0]) == 'h'
    ensures LowerAll("présent") != "passé composé"
  {
    assert "se hâter"[3..] == "hâter";
    assert LowerAll("hâter") == "hâter";
    assert StartsWith(LowerAll("hâter"), "hâter");
    assert |LowerAll("présent")| == 7 && |"passé composé"| == 13;
  }

  // ----- A form in the wrong auxiliary -----

  lemma OpensElsewhere(fr: string, w: string)
    requires fr != [] && w != [] && Lower(fr[0]) != w[0]
    ensures !OpensWith(fr, w)
  {
    hide Lower;
    if |w| <= |fr| { assert LowerAll(fr[..|w|])[0] == Lower(fr[0]); }
  }

  lemma NoOtherPronoun(fr: string)
    requires fr != [] && Lower(fr[0]) == 'j'
    ensures Subject(fr) == "je"
  {
    hide Lower, Subject, OpensWith;
    forall p | p in {"tu", "il", "elle", "on", "nous", "vous", "ils", "elles"} ensures !OpensWith(fr, p) {
      OpensElsewhere(fr, p);
    }
    SubjectIsJe(fr);
  }

  lemma NoCliticIn(fr: string)
    requires fr != [] && Lower(fr[0]) == 'a'
    ensures Front([], CLITICS, fr)
  {
    hide OpensWith;
    assert !IsSpace(fr[0]) by { if IsSpace(fr[0]) { SpaceIsNoLetter(fr[0]); } }
    hide IsSpace, Lower;
    forall w | w in CLITICS ensures !OpensWith(fr, w) { OpensElsewhere(fr, w); }
  }

  /** "j'ai" before a participle is the mistake that the rule is for. */
  lemma JaiIsReplaced(participle: string, bare: string, name: string)
    requires participle != [] && Trimmed(participle) && ' ' !in participle
    requires StartsWith(bare, "se ") || StartsWith(bare, "s'")
    requires !IsImpersonal(bare) && LowerAll(name) == "passé composé"
    ensures VerbForm("j'ai " + participle, bare, name) == "je me suis " + participle
  {
    var fr := "j'ai " + participle;
    JaiLetters(participle);
    hide *;
    NoOtherPronoun(fr);
    NoCliticIn("ai " + participle);
    JaiFronts(participle);
    ParticipleIs("j'", [], "ai ", participle);
    ReflexivePerfectForm(fr, bare, name);
    OneWordStays(participle, false);
    OneWordStays(participle, true);
    JeStarts();
  }

  lemma JeStarts()
    ensures STARTS["je"] == "je me suis "
  {
  }

  lemma JaiLetters(x: string)
    ensures "j'ai " + x == "j'" + [] + "ai " + x && [] + "ai " + x == "ai " + x
    ensures Lower(("j'ai " + x)[0]) == 'j' && Lower(("ai " + x)[0]) == 'a'
  {
  }

  lemma JaiFronts(x: string)
    requires x != [] && Trimmed(x)
    ensures Front("j'", PRONOUNS, [] + "ai " + x)
    ensures Front("ai ", AUXILIARIES, x)
  {
    var w, v := "j'", "ai";
    assert PRONOUNS[1] == w && AUXILIARIES[0] == v;
    assert ("j'" + ([] + "ai " + x))[2] == 'a';
    assert w[..2] == w && LowerAll(w) == w;
    assert FrontWord("j'", w, [] + "ai " + x);
    assert ("ai " + x)[1] == 'i' && ("ai " + x)[2] == ' ';
    assert "ai "[..2] == v && LowerAll(v) == v;
    assert FrontWord("ai ", v, x);
  }
}
