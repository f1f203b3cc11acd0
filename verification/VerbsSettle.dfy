/** Correcting a verb's forms a second time: subjects, reflexive perfects and complements. */
module VerbsSettle {
  import opened Text
  import opened Articles
  import opened Elision
  import opened ElisionInContext
  import opened Forms

  // ----- Subjects -----

  lemma PlainWord(s: string, w: string)
    requires LowerAll(s) == w && forall i :: 0 <= i < |w| ==> 'a' <= w[i] <= 'z'
    ensures AllWord(s)
  {
  }

  /** Either subject "j'", or a word and a space. */
  lemma SubjectShape(i: nat)
    requires i < |SUBJECTS|
    ensures var p := SUBJECTS[i];
            && |p| >= 2
            && (p == "j'" || (p[|p| - 1] == ' ' && forall k :: 0 <= k < |p| - 1 ==> 'a' <= p[k] <= 'z'))
            && (|p| == 3 && Lower(p[0]) in "jmtsl" && (Lower(p[1]) == 'e' || Lower(p[1]) == 'a') ==> p == "je ")
  {
  }

  lemma SubjectFound(s: string, i: nat)
    requires i < |SUBJECTS| && StartsWith(LowerAll(s), SUBJECTS[i])
    ensures HasSubject(s)
  {
    hide Lower;
    FirstPrefixFinds(LowerAll(s), SUBJECTS, i);
  }

  lemma LowerApostrophe(c: char)
    ensures Lower(c) == '\'' <==> c == '\''
    ensures Lower(c) == ' ' <==> c == ' '
  {
  }

  lemma OnlyJe(pass: Pass, s: string, i: nat)
    requires i < |SUBJECTS| && StartsWith(LowerAll(s), SUBJECTS[i]) && Elides(pass, s)
    ensures Lower(s[0]) == 'j'
  {
    var p := SUBJECTS[i];
    SubjectShape(i);
    ParticleLetters(pass, s[0], s[1]);
    hide Lower;
    assert LowerAll(s)[..|p|] == p;
    assert Lower(s[0]) == p[0] && Lower(s[1]) == p[1];
    assert |p| > 2 ==> Lower(s[2]) == p[2];
    LowerApostrophe(s[1]);
    LowerApostrophe(s[2]);
  }

  lemma KeepsApostrophe(pass: Pass, s: string)
    requires |s| >= 2 && s[1] == '\''
    ensures var t := Scan(pass, s, false); |t| >= 2 && t[0] == s[0] && t[1] == '\''
  {
    hide IsWord, Elides, Scan;
    if Elides(pass, s) { NotAtApostrophe(pass, s); }
    StepOver(pass, s, false, s[1..]);
    ScanStart(pass, s[1..], IsWord(s[0]));
  }

  lemma NotAtApostrophe(pass: Pass, s: string)
    requires Elides(pass, s)
    ensures s[1] != '\''
  {
    ParticleLetters(pass, s[0], s[1]);
  }

  /** The word in front keeps its letters, unless it is a particle and gives up the last one. */
  lemma KeepsWord(pass: Pass, s: string, n: nat)
    requires 0 < n < |s| && AllWord(s[..n]) && s[n] == ' '
    ensures var t := Scan(pass, s, false);
            if Elides(pass, s) then |t| >= 2 && t[0] == s[0] && t[1] == '\'' else n < |t| && t[..n + 1] == s[..n + 1]
  {
    hide IsWord, Elides, Scan;
    if Elides(pass, s) {
      LongEnough(pass, s);
      StepPast(pass, s, s[3..]);
    } else {
      var w, rest := s[..n], s[n + 1..];
      assert s == w + " " + rest;
      ScanAfterWord(pass, w, rest);
    }
  }

  lemma SamePrefix(s: string, t: string, n: nat)
    requires n <= |s| && n <= |t| && s[..n] == t[..n]
    ensures LowerAll(s)[..n] == LowerAll(t)[..n] == LowerAll(s[..n])
  {
    hide Lower;
    assert forall k :: 0 <= k < n ==> s[k] == s[..n][k] && t[k] == t[..n][k];
  }

  lemma SubjectWord(s: string, i: nat) returns (n: nat)
    requires i < |SUBJECTS| && i != 1 && StartsWith(LowerAll(s), SUBJECTS[i])
    ensures 0 < n < |s| && n == |SUBJECTS[i]| - 1 && AllWord(s[..n]) && s[n] == ' '
  {
    var p := SUBJECTS[i];
    n := |p| - 1;
    SubjectShape(i);
    hide Lower, IsWord;
    assert LowerAll(s)[..n + 1] == p;
    assert LowerAll(s)[n] == p[n];
    assert LowerAll(s)[..n] == p[..n];
    SamePrefix(s, s, n);
    PlainWord(s[..n], p[..n]);
    LowerApostrophe(s[n]);
  }

  lemma ElidedJe(s: string)
    requires |s| >= 2 && Lower(s[0]) == 'j' && s[1] == '\''
    ensures HasSubject(s)
  {
    LowerApostrophe('\'');
    hide Lower;
    assert LowerAll(s)[..2] == "j'";
    SubjectFound(s, 1);
  }

  lemma ScanKeepsJe(pass: Pass, s: string)
    requires StartsWith(LowerAll(s), SUBJECTS[1])
    ensures HasSubject(Scan(pass, s, false))
  {
    hide Lower, Scan, HasSubject;
    assert LowerAll(s)[..2] == "j'";
    assert Lower(s[0]) == "j'"[0] && Lower(s[1]) == "j'"[1];
    LowerApostrophe(s[1]);
    KeepsApostrophe(pass, s);
    ElidedJe(Scan(pass, s, false));
  }

  lemma ScanKeepsWordSubject(pass: Pass, s: string, i: nat)
    requires i < |SUBJECTS| && i != 1 && StartsWith(LowerAll(s), SUBJECTS[i])
    ensures HasSubject(Scan(pass, s, false))
  {
    hide Lower, IsWord, Scan, Elides, HasSubject, LowerAll;
    var t := Scan(pass, s, false);
    var n := SubjectWord(s, i);
    KeepsWord(pass, s, n);
    if Elides(pass, s) {
      OnlyJe(pass, s, i);
      ElidedJe(t);
    } else {
      SamePrefix(s, t, n + 1);
      SubjectFound(t, i);
    }
  }

  /** A form with a subject still has one after elision. */
  lemma ScanKeepsSubject(pass: Pass, s: string)
    requires HasSubject(s)
    ensures HasSubject(Scan(pass, s, false))
  {
    hide Scan;
    var i := FirstPrefixIs(LowerAll(s), SUBJECTS);
    hide HasSubject, LowerAll;
    if i == 1 { ScanKeepsJe(pass, s); } else { ScanKeepsWordSubject(pass, s, i); }
  }

  lemma ElideKeepsSubject(s: string, beforeH: bool)
    requires HasSubject(s)
    ensures HasSubject(Elide(s, beforeH))
  {
    hide HasSubject, Scan;
    ScanKeepsSubject(Vowels, s);
    if beforeH { ScanKeepsSubject(Aitch, Scan(Vowels, s, false)); }
  }

  lemma JeIsSubject(fr: string)
    ensures HasSubject("je " + fr)
  {
    hide Lower;
    var s := "je " + fr;
    assert s[..3] == "je ";
    assert LowerAll("je ") == "je " by { LowerPlain("je "); }
    SamePrefix(s, "je ", 3);
    assert "je "[..3] == "je ";
    SubjectFound(s, 0);
  }

  lemma LowerPlain(w: string)
    requires forall i :: 0 <= i < |w| ==> 'a' <= w[i] <= 'z' || w[i] == ' ' || w[i] == 'ê' || w[i] == '\''
    ensures LowerAll(w) == w
  {
    assert forall i :: 0 <= i < |w| ==> Lower(w[i]) == w[i];
  }

  // ----- Reflexive perfects -----

  /** Pronouns before a clitic, and whether the clitic elides before the verb to be. */
  predicate IsPronoun(p: string) {
    p in {"je", "tu", "il", "elle", "on", "nous", "vous", "ils", "elles"}
  }

  predicate CliticElides(p: string) { p in {"tu", "il", "elle", "on"} }

  lemma {:induction false} OpeningWordIs(s: string, words: seq<string>) returns (i: nat)
    requires OpeningWord(s, words) > 0
    ensures i < |words| && OpeningWord(s, words) == |words[i]| && StartsWith(LowerAll(s), words[i])
  {
    if words[0] != [] && StartsWith(LowerAll(s), words[0]) && Boundary(s, |words[0]|) {
      i := 0;
    } else {
      var j := OpeningWordIs(s, words[1..]);
      i := j + 1;
    }
  }

  lemma SubjectIsPronoun(fr: string)
    ensures IsPronoun(Subject(fr))
  {
    var n := OpeningWord(fr, PRONOUNS);
    if n > 0 {
      var i := OpeningWordIs(fr, PRONOUNS);
      SamePrefix(fr, fr, n);
      assert LowerAll(fr[..n]) == PRONOUNS[i];
    }
  }

  /** The words a form may open with: whole words, or a letter and an apostrophe. */
  ghost predicate Opening(w: string) {
    w != [] && LowerAll(w) == w && (AllWord(w) || (|w| == 2 && IsWord(w[0]) && w[1] == '\''))
  }

  ghost predicate Openings(words: seq<string>) {
    && (forall v :: v in words ==> Opening(v))
    && ((forall v :: v in words ==> |v| >= 2) || (forall v :: v in words ==> AllWord(v)))
  }

  /** Only one such word can open a text up to a word boundary. */
  lemma OneOpening(s: string, w: string, v: string)
    requires Opening(w) && Opening(v) && |w| <= |v| && (|w| >= 2 || AllWord(v))
    requires StartsWith(LowerAll(s), w) && StartsWith(LowerAll(s), v)
    requires Boundary(s, |w|) && Boundary(s, |v|)
    ensures w == v
  {
    hide Lower, IsWord;
    Marks();
    var l := LowerAll(s);
    assert forall k :: 0 <= k < |w| ==> l[..|w|][k] == l[k] == w[k];
    assert forall k :: 0 <= k < |v| ==> l[..|v|][k] == l[k] == v[k];
    forall k | 0 <= k < |s| ensures IsWord(s[k]) == IsWord(l[k]) { LowerKeepsKind(s[k]); }
    assert |w| == |v| ==> w == v;
  }

  lemma {:induction false} OpeningIs(s: string, words: seq<string>, w: string)
    requires w in words && Openings(words)
    requires w != [] && StartsWith(LowerAll(s), w) && Boundary(s, |w|)
    ensures OpeningWord(s, words) == |w|
  {
    hide Opening, Boundary, LowerAll;
    var v := words[0];
    OpeningLength(v);
    OpeningLength(w);
    if StartsWith(LowerAll(s), v) && Boundary(s, |v|) {
      if |w| <= |v| { OneOpening(s, w, v); } else { OneOpening(s, v, w); }
    } else {
      OpeningIs(s, words[1..], w);
    }
  }

  lemma OpeningLength(w: string)
    requires Opening(w)
    ensures |w| >= 1
  {
  }

  /** How a tidied perfect starts. */
  function PerfectStart(p: string): string {
    p + " " + (if CliticElides(p) then [Clitic(p)[0], '\''] else Clitic(p) + " ") + Etre(p) + " "
  }

  /** Subject, clitic and verb agree in all nine persons. */
  lemma PerfectAgrees(fr: string)
    ensures PerfectStart(Subject(fr)) in {"je me suis ", "tu t'es ", "il s'est ", "elle s'est ", "on s'est ",
                                          "nous nous sommes ", "vous vous êtes ", "ils se sont ", "elles se sont "}
  {
    SubjectIsPronoun(fr);
    PronounStartsAgree();
    hide Subject, PerfectStart;
  }

  lemma PronounStartsAgree()
    ensures PerfectStart("je") == "je me suis " && PerfectStart("tu") == "tu t'es " && PerfectStart("il") == "il s'est "
    ensures PerfectStart("elle") == "elle s'est " && PerfectStart("on") == "on s'est "
    ensures PerfectStart("nous") == "nous nous sommes " && PerfectStart("vous") == "vous vous êtes "
    ensures PerfectStart("ils") == "ils se sont " && PerfectStart("elles") == "elles se sont "
  {
    hide PerfectStart;
    SingularStartsAgree();
    ThirdPersonStartsAgree();
    PluralStartsAgree();
  }

  lemma SingularStartsAgree()
    ensures PerfectStart("je") == "je me suis " && PerfectStart("tu") == "tu t'es "
  {
  }

  lemma ThirdPersonStartsAgree()
    ensures PerfectStart("il") == "il s'est " && PerfectStart("elle") == "elle s'est "
            && PerfectStart("on") == "on s'est "
  {
  }

  lemma PluralStartsAgree()
    ensures PerfectStart("nous") == "nous nous sommes " && PerfectStart("vous") == "vous vous êtes "
    ensures PerfectStart("ils") == "ils se sont " && PerfectStart("elles") == "elles se sont "
  {
  }

  lemma PronounWords(p: string)
    requires IsPronoun(p)
    ensures |p| >= 2 && AllWord(p) && AllWord(Clitic(p)) && AllWord(Etre(p)) && |Etre(p)| >= 2
    ensures p in PRONOUNS && Clitic(p) in CLITICS && Etre(p) in AUXILIARIES
    ensures Clitic(p)[0] in "mtsnv"
    ensures if CliticElides(p) then Clitic(p) == [Clitic(p)[0], 'e'] && Clitic(p)[0] in "ts" && Etre(p)[0] == 'e'
            else |Clitic(p)| > 2 || Etre(p)[0] == 's'
    ensures |Etre(p)| == 2 ==> Etre(p)[1] == 's'
    ensures CliticElides(p) ==> [Clitic(p)[0], '\''] in CLITICS
  {
  }

  lemma NoElision(pass: Pass, w: string, rest: string)
    requires w != [] && AllWord(w)
    requires |w| == 2 && IsParticle(pass, w[0], w[1]) ==> rest == [] || !Follows(pass, rest[0])
    ensures !Elides(pass, w + " " + rest)
  {
    var s := w + " " + rest;
    Marks();
    hide IsWord, IsParticle, Follows;
    assert forall k :: 0 <= k < |w| ==> s[k] == w[k];
    assert s[|w|] == ' ';
    assert |rest| > 0 ==> s[|w| + 1] == rest[0];
  }

  lemma ConsonantsFollowNot(pass: Pass, c: char)
    requires c in "mtsnv"
    ensures !Follows(pass, c)
  {
    assert Lower(c) == c;
    hide Lower;
  }

  /** A word passes through in front of a consonant. */
  lemma ScanWord(pass: Pass, w: string, rest: string)
    requires w != [] && AllWord(w)
    requires rest == [] || rest[0] in "mtsnv" || |w| != 2 || w[1] == 's'
    ensures Scan(pass, w + " " + rest, false) == w + " " + Scan(pass, rest, false)
  {
    hide IsWord, Scan, Follows;
    if rest != [] && rest[0] in "mtsnv" { ConsonantsFollowNot(pass, rest[0]); }
    if |w| == 2 && IsParticle(pass, w[0], w[1]) {
      ParticleLetters(pass, w[0], w[1]);
      assert w[1] != 's';
    }
    hide IsParticle, Elides;
    NoElision(pass, w, rest);
    ScanAfterWord(pass, w, rest);
  }

  lemma ScanApostrophe(pass: Pass, c: char, rest: string)
    requires IsWord(c)
    ensures Scan(pass, [c, '\''] + rest, false) == [c, '\''] + Scan(pass, rest, false)
  {
    hide IsWord, Scan, Elides;
    var s, z := [c, '\''] + rest, ['\''] + rest;
    Marks();
    if Elides(pass, s) { NotAtApostrophe(pass, s); }
    StepOver(pass, s, false, z);
    StepOver(pass, z, true, rest);
  }

  lemma JoinPlain(p: string, c: string, e: string, q: string)
    ensures p + " " + (c + " ") + e + " " + q == p + " " + (c + " " + (e + " " + q)) == p + " " + c + " " + e + " " + q
  {
  }

  lemma JoinElided(p: string, c: char, e: string, q: string)
    ensures p + " " + [c, '\''] + e + " " + q == p + " " + ([c, '\''] + (e + " " + q))
  {
  }

  /** A tidied start passes through, whatever comes after it. */
  lemma ScanPerfect(pass: Pass, p: string, q: string)
    requires IsPronoun(p)
    ensures Scan(pass, PerfectStart(p) + q, false) == PerfectStart(p) + Scan(pass, q, false)
  {
    var c, e, r := Clitic(p), Etre(p), Scan(pass, q, false);
    PronounWords(p);
    hide Scan, IsWord, Clitic, Etre, IsPronoun, CliticElides;
    ScanWord(pass, e, q);
    if CliticElides(p) {
      ScanApostrophe(pass, c[0], e + " " + q);
      ScanWord(pass, p, [c[0], '\''] + (e + " " + q));
      JoinElided(p, c[0], e, q);
      JoinElided(p, c[0], e, r);
    } else {
      ScanWord(pass, c, e + " " + q);
      ScanWord(pass, p, c + " " + (e + " " + q));
      JoinPlain(p, c, e, q);
      JoinPlain(p, c, e, r);
    }
  }

  /** And it is what elision makes of the words. */
  lemma ScanWithEtre(p: string, q: string)
    requires IsPronoun(p)
    ensures Scan(Vowels, WithEtre(p, q), false) == PerfectStart(p) + Scan(Vowels, q, false)
  {
    var c, e, r := Clitic(p), Etre(p), Scan(Vowels, q, false);
    PronounWords(p);
    JoinPlain(p, c, e, q);
    if CliticElides(p) {
      var z := e + " " + q;
      var s := c + " " + z;
      assert IsVowel('e');
      assert Elides(Vowels, s);
      assert s[3..] == z;
      hide Scan, IsWord, Clitic, Etre, IsPronoun, CliticElides;
      StepPast(Vowels, s, z);
      ScanWord(Vowels, e, q);
      ScanWord(Vowels, p, s);
      JoinElided(p, c[0], e, r);
    } else {
      hide Scan, IsWord, Clitic, Etre, IsPronoun, CliticElides;
      ScanPerfect(Vowels, p, q);
    }
  }

  lemma ElideWithEtre(p: string, q: string)
    requires IsPronoun(p)
    ensures Elide(WithEtre(p, q), false) == PerfectStart(p) + Elide(q, false)
  {
    hide Scan, WithEtre, PerfectStart;
    ScanWithEtre(p, q);
  }

  lemma ElidePerfect(p: string, q: string, beforeH: bool)
    requires IsPronoun(p)
    ensures Elide(PerfectStart(p) + q, beforeH) == PerfectStart(p) + Elide(q, beforeH)
  {
    hide Scan, PerfectStart;
    ScanPerfect(Vowels, p, q);
    ScanPerfect(Aitch, p, Scan(Vowels, q, false));
  }

  // ----- Reading a tidied perfect back -----

  lemma OpeningPlain(w: string)
    requires w != [] && ('a' <= w[0] <= 'z' || w[0] == 'ê')
    requires (|w| == 2 && w[1] == '\'') || forall i :: 1 <= i < |w| ==> 'a' <= w[i] <= 'z'
    ensures Opening(w)
  {
    LowerPlain(w);
    hide Lower, LowerAll;
  }

  lemma PronounsOpen(i: nat)
    requires i < |PRONOUNS|
    ensures Opening(PRONOUNS[i]) && |PRONOUNS[i]| >= 2
  {
    hide Opening;
    OpeningPlain(PRONOUNS[i]);
  }

  lemma CliticsOpen(i: nat)
    requires i < |CLITICS|
    ensures Opening(CLITICS[i]) && |CLITICS[i]| >= 2
  {
    hide Opening;
    OpeningPlain(CLITICS[i]);
  }

  lemma AuxiliariesOpen(i: nat)
    requires i < |AUXILIARIES|
    ensures Opening(AUXILIARIES[i]) && AllWord(AUXILIARIES[i])
  {
    hide Opening;
    OpeningPlain(AUXILIARIES[i]);
  }

  lemma PronounsAreOpenings()
    ensures Openings(PRONOUNS)
  {
    hide Opening, IsWord;
    forall v | v in PRONOUNS ensures Opening(v) && |v| >= 2 {
      var i :| 0 <= i < |PRONOUNS| && PRONOUNS[i] == v;
      PronounsOpen(i);
    }
  }

  lemma CliticsAreOpenings()
    ensures Openings(CLITICS)
  {
    hide Opening, IsWord;
    forall v | v in CLITICS ensures Opening(v) && |v| >= 2 {
      var i :| 0 <= i < |CLITICS| && CLITICS[i] == v;
      CliticsOpen(i);
    }
  }

  lemma AuxiliariesAreOpenings()
    ensures Openings(AUXILIARIES)
  {
    hide Opening, IsWord;
    forall v | v in AUXILIARIES ensures Opening(v) && AllWord(v) {
      var i :| 0 <= i < |AUXILIARIES| && AUXILIARIES[i] == v;
      AuxiliariesOpen(i);
    }
  }

  lemma AfterOpening(s: string, words: seq<string>, w: string, rest: string)
    requires w in words && w != [] && Openings(words)
    requires s == w + rest && Boundary(s, |w|)
    ensures OpeningWord(s, words) == |w| && s[..|w|] == w && LowerAll(s[..|w|]) == w
    ensures AfterWord(s, words) == TrimLeft(rest)
  {
    hide LowerAll, Boundary;
    assert LowerAll(w) == w by { assert Opening(w); }
    assert s[..|w|] == w && s[|w|..] == rest;
    SamePrefix(s, w, |w|);
    assert w[..|w|] == w;
    hide Opening;
    OpeningIs(s, words, w);
  }

  lemma BeforeSpace(w: string, rest: string)
    requires w != [] && AllWord(w)
    ensures Boundary(w + (" " + rest), |w|)
  {
    Marks();
    hide IsWord;
  }

  lemma TrimLeftOfSpace(q: string)
    requires q == [] || !IsSpace(q[0])
    ensures TrimLeft(" " + q) == q
  {
    assert (" " + q)[1..] == q;
    assert TrimLeft(" " + q) == TrimLeft(q);
  }

  lemma AfterSpacedWord(s: string, words: seq<string>, w: string, rest: string)
    requires w in words && w != [] && AllWord(w) && Openings(words)
    requires s == w + " " + rest && (rest == [] || !IsSpace(rest[0]))
    ensures OpeningWord(s, words) == |w| && s[..|w|] == w && LowerAll(s[..|w|]) == w
    ensures AfterWord(s, words) == rest
  {
    hide IsWord, Opening, LowerAll, OpeningWord, TrimLeft;
    assert s == w + (" " + rest);
    BeforeSpace(w, rest);
    AfterOpening(s, words, w, " " + rest);
    TrimLeftOfSpace(rest);
  }

  lemma PronounStarts(p: string)
    requires IsPronoun(p)
    ensures !IsSpace(p[0]) && !IsSpace(Clitic(p)[0]) && !IsSpace(Etre(p)[0])
  {
  }

  lemma PronounShape(p: string)
    requires IsPronoun(p)
    ensures p in PRONOUNS && p != [] && AllWord(p) && p != "j'"
  {
  }

  lemma SubjectOfPerfect(p: string, rest: string)
    requires IsPronoun(p) && rest != [] && !IsSpace(rest[0])
    ensures Subject(p + " " + rest) == p && AfterWord(p + " " + rest, PRONOUNS) == rest
  {
    PronounShape(p);
    PronounsAreOpenings();
    hide IsWord, Opening, OpeningWord, AfterWord, IsSpace, LowerAll, IsPronoun;
    AfterSpacedWord(p + " " + rest, PRONOUNS, p, rest);
  }

  /** The words put in front are recognized again, and the participle is found behind them. */
  lemma PerfectReadsBack(p: string, q: string)
    requires IsPronoun(p) && Trimmed(q)
    ensures Subject(PerfectStart(p) + q) == p && Participle(PerfectStart(p) + q) == q
  {
    PronounWords(p);
    PronounStarts(p);
    CliticsAreOpenings();
    AuxiliariesAreOpenings();
    hide IsWord, Opening, OpeningWord, AfterWord, IsSpace, LowerAll, IsPronoun, Clitic, Etre, CliticElides, Subject;
    var c, e := Clitic(p), Etre(p);
    var z := e + " " + q;
    assert z[0] == e[0];
    AfterSpacedWord(z, AUXILIARIES, e, q);
    var y := if CliticElides(p) then [c[0], '\''] + z else c + " " + z;
    if CliticElides(p) {
      JoinElided(p, c[0], e, q);
      ElidedClitic(c[0], z);
      assert AfterWord(y, CLITICS) == z;
    } else {
      JoinPlain(p, c, e, q);
      AfterSpacedWord(y, CLITICS, c, z);
    }
    assert PerfectStart(p) + q == p + " " + y;
    assert y[0] == c[0];
    SubjectOfPerfect(p, y);
    StripIsTrimmed(q);
  }

  lemma ElidedClitic(c: char, z: string)
    requires [c, '\''] in CLITICS && z != [] && IsWord(z[0]) && !IsSpace(z[0])
    ensures AfterWord([c, '\''] + z, CLITICS) == z
  {
    CliticsAreOpenings();
    hide Opening, IsSpace;
    Marks();
    hide IsWord, AfterWord;
    var s := [c, '\''] + z;
    assert s[1] == '\'' && s[2] == z[0];
    AfterOpening(s, CLITICS, [c, '\''], z);
  }

  lemma ParticipleIsTrimmed(fr: string)
    ensures Trimmed(Participle(fr))
  {
    hide Strip, AfterWord, Trimmed;
    StripIsTrimmed(AfterWord(AfterWord(AfterWord(fr, PRONOUNS), CLITICS), AUXILIARIES));
  }

  lemma ElideKeepsTrimmed(q: string, beforeH: bool)
    requires Trimmed(q)
    ensures Trimmed(Elide(q, beforeH))
  {
    hide Elide, IsSpace;
    ElideEnds(q, beforeH);
  }

  /** A reflexive perfect settles at once, whichever subject the model wrote. */
  lemma PerfectSettles(fr: string, beforeH: bool)
    ensures var once := Elide(ReflexivePerfect(fr), beforeH);
            Elide(ReflexivePerfect(once), beforeH) == once
  {
    var p, q := Subject(fr), Participle(fr);
    SubjectIsPronoun(fr);
    ParticipleIsTrimmed(fr);
    hide Elide, PerfectStart, Subject, Participle, IsPronoun, Trimmed, WithEtre;
    ElideWithEtre(p, q);
    var r := Elide(q, false);
    ElidePerfect(p, r, beforeH);
    var u := Elide(r, beforeH);
    ElideKeepsTrimmed(q, false);
    ElideKeepsTrimmed(r, beforeH);
    PerfectReadsBack(p, u);
    ElideWithEtre(p, u);
    ElideSettles(r, beforeH);
    ElideStaysPlain(q, beforeH);
    ElidePerfect(p, u, beforeH);
    ElideIsIdempotent(r, beforeH);
  }

  /** What both passes leave alone the first one does too. */
  lemma ElideStaysPlain(q: string, beforeH: bool)
    ensures Elide(Elide(Elide(q, false), beforeH), false) == Elide(Elide(q, false), beforeH)
  {
    hide Scan, Elided;
    ElideSettles(Elide(q, false), beforeH);
    SettledStays(Elide(Elide(q, false), beforeH), false);
  }

  /** A reflexive perfect is an agreeing start and the elided participle. */
  lemma PerfectIs(fr: string, beforeH: bool)
    ensures Elide(ReflexivePerfect(fr), beforeH)
         == PerfectStart(Subject(fr)) + Elide(Elide(Participle(fr), false), beforeH)
  {
    hide Elide, PerfectStart, Subject, Participle, WithEtre, IsPronoun;
    SubjectIsPronoun(fr);
    ElideWithEtre(Subject(fr), Participle(fr));
    ElidePerfect(Subject(fr), Elide(Participle(fr), false), beforeH);
  }
}
