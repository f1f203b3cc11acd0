/** French elision: a particle gives up its vowel before a vowel or, for verbs, a mute h. */
module Elision {
  import opened Text

  /** What follows the particle: a vowel or, in a second pass, an h. */
  datatype Pass = Vowels | Aitch

  predicate IsVowel(c: char) { Lower(c) in "aeiouyàâäéèêëîïôöûüœ" }

  predicate IsParticle(pass: Pass, a: char, b: char) {
    || (Lower(a) in "jmts" && Lower(b) == 'e')
    || (pass == Vowels && Lower(a) == 'l' && (Lower(b) == 'e' || Lower(b) == 'a'))
  }

  predicate Follows(pass: Pass, c: char) {
    if pass == Vowels then IsVowel(c) else Lower(c) == 'h'
  }

  /** A particle, a space and a letter it elides before. */
  predicate Elides(pass: Pass, s: string) {
    |s| >= 4 && IsParticle(pass, s[0], s[1]) && s[2] == ' ' && Follows(pass, s[3])
  }

  /** One pass over the text; `inWord` says that a word character comes right before it. */
  function Scan(pass: Pass, s: string, inWord: bool): string {
    if s == [] then []
    else if !inWord && Elides(pass, s) then [s[0], '\''] + Scan(pass, s[3..], false)
    else [s[0]] + Scan(pass, s[1..], IsWord(s[0]))
  }

  function Elide(s: string, beforeH: bool): string {
    var t := Scan(Vowels, s, false);
    if beforeH then Scan(Aitch, t, false) else t
  }

  lemma StepOver(pass: Pass, s: string, inWord: bool, rest: string)
    requires s != [] && s[1..] == rest && (inWord || !Elides(pass, s))
    ensures Scan(pass, s, inWord) == [s[0]] + Scan(pass, rest, IsWord(s[0]))
  {
  }

  lemma StepPast(pass: Pass, s: string, rest: string)
    requires Elides(pass, s) && s[3..] == rest
    ensures Scan(pass, s, false) == [s[0], '\''] + Scan(pass, rest, false)
  {
  }

  // ----- Nothing left to elide -----

  predicate Elided(pass: Pass, s: string, inWord: bool) {
    s == [] || (!(!inWord && Elides(pass, s)) && Elided(pass, s[1..], IsWord(s[0])))
  }

  lemma {:induction false} ScanOfElided(pass: Pass, s: string, inWord: bool)
    requires Elided(pass, s, inWord)
    ensures Scan(pass, s, inWord) == s
  {
    if s != [] {
      ScanOfElided(pass, s[1..], IsWord(s[0]));
    }
  }

  lemma ScanStart(pass: Pass, s: string, inWord: bool)
    ensures Scan(pass, s, inWord) == [] <==> s == []
    ensures s != [] ==> Scan(pass, s, inWord)[0] == s[0]
  {
  }

  lemma Marks()
    ensures !IsWord('\'') && !IsWord(' ')
    ensures forall pass, c :: !IsParticle(pass, '\'', c) && !IsParticle(pass, ' ', c)
    ensures forall pass, c :: !IsParticle(pass, c, '\'') && !IsParticle(pass, c, ' ')
  {
  }

  /** A character kept in front of an elided rest starts no particle that it did not start before. */
  lemma NoNewParticle(pass: Pass, other: Pass, s: string)
    requires s != [] && Elides(other, [s[0]] + Scan(pass, s[1..], IsWord(s[0])))
    ensures Elides(other, s)
  {
    hide IsWord, IsParticle, Follows;
    Marks();
    var t := Scan(pass, s[1..], IsWord(s[0]));
    ScanStart(pass, s[1..], IsWord(s[0]));
    assert t[1] == ' ';
    assert t == [s[1]] + Scan(pass, s[2..], IsWord(s[1]));
    ScanStart(pass, s[2..], IsWord(s[1]));
    assert s[2] == ' ';
    assert t[1..] == [' '] + Scan(pass, s[3..], false);
    ScanStart(pass, s[3..], false);
    assert t[2] == s[3];
  }

  lemma ApostropheElided(pass: Pass, c: char, s: string, inWord: bool)
    requires Elided(pass, s, false)
    ensures Elided(pass, [c, '\''] + s, inWord)
  {
    hide IsWord, IsParticle, Follows;
    Marks();
    assert ([c, '\''] + s)[1..] == ['\''] + s && (['\''] + s)[1..] == s;
  }

  lemma ElidedAfterParticle(pass: Pass, other: Pass, s: string, inWord: bool)
    requires Elides(pass, s) && Elided(other, s, inWord)
    ensures Elided(other, s[3..], false)
  {
    hide IsWord, IsParticle, Follows;
    Marks();
    assert Elided(other, s[1..], IsWord(s[0]));
    assert Elided(other, s[1..][1..], IsWord(s[1]));
    assert Elided(other, s[1..][1..][1..], IsWord(s[2]));
    assert s[1..][1..][1..] == s[3..];
  }

  /** A pass leaves nothing to elide for a second one. */
  lemma {:induction false} ScanElides(pass: Pass, s: string, inWord: bool)
    ensures Elided(pass, Scan(pass, s, inWord), inWord)
    decreases |s|
  {
    if s != [] {
      hide IsWord, IsParticle, Follows, Elides;
      if !inWord && Elides(pass, s) {
        ScanElides(pass, s[3..], false);
        ApostropheElided(pass, s[0], Scan(pass, s[3..], false), inWord);
      } else {
        var t := Scan(pass, s[1..], IsWord(s[0]));
        ScanElides(pass, s[1..], IsWord(s[0]));
        if Elides(pass, [s[0]] + t) { NoNewParticle(pass, pass, s); }
        assert ([s[0]] + t)[1..] == t;
      }
    }
  }

  /** Nor does it make a new place to elide for the other pass. */
  lemma {:induction false} ScanKeepsElided(pass: Pass, other: Pass, s: string, inWord: bool)
    requires Elided(other, s, inWord)
    ensures Elided(other, Scan(pass, s, inWord), inWord)
    decreases |s|
  {
    if s != [] {
      hide IsWord, IsParticle, Follows, Elides;
      if !inWord && Elides(pass, s) {
        ElidedAfterParticle(pass, other, s, inWord);
        ScanKeepsElided(pass, other, s[3..], false);
        ApostropheElided(other, s[0], Scan(pass, s[3..], false), inWord);
      } else {
        var t := Scan(pass, s[1..], IsWord(s[0]));
        ScanKeepsElided(pass, other, s[1..], IsWord(s[0]));
        if Elides(other, [s[0]] + t) { NoNewParticle(pass, other, s); }
        assert ([s[0]] + t)[1..] == t;
      }
    }
  }

  /** Text that no pass would change any more. */
  predicate Settled(s: string, beforeH: bool) {
    Elided(Vowels, s, false) && (beforeH ==> Elided(Aitch, s, false))
  }

  lemma ElideSettles(s: string, beforeH: bool)
    ensures Settled(Elide(s, beforeH), beforeH)
  {
    hide Elided, Scan;
    var t := Scan(Vowels, s, false);
    ScanElides(Vowels, s, false);
    ScanElides(Aitch, t, false);
    ScanKeepsElided(Aitch, Vowels, t, false);
  }

  lemma SettledStays(s: string, beforeH: bool)
    requires Settled(s, beforeH)
    ensures Elide(s, beforeH) == s
  {
    ScanOfElided(Vowels, s, false);
    if beforeH { ScanOfElided(Aitch, s, false); }
  }

  /** Eliding twice is eliding once. */
  lemma ElideIsIdempotent(s: string, beforeH: bool)
    ensures Elide(Elide(s, beforeH), beforeH) == Elide(s, beforeH)
  {
    ElideSettles(s, beforeH);
    SettledStays(Elide(s, beforeH), beforeH);
  }

  // ----- What a pass may do -----

  /** `t` is `s` with some of its particles elided, each before a letter it elides before. */
  ghost predicate PartlyElided(pass: Pass, s: string, inWord: bool, t: string)
    decreases |s|
  {
    if s == [] then t == []
    else
      || (t != [] && t[0] == s[0] && PartlyElided(pass, s[1..], IsWord(s[0]), t[1..]))
      || (!inWord && Elides(pass, s) && |t| >= 2 && t[..2] == [s[0], '\''] && PartlyElided(pass, s[3..], false, t[2..]))
  }

  lemma {:induction false} ScanOnlyElides(pass: Pass, s: string, inWord: bool)
    ensures PartlyElided(pass, s, inWord, Scan(pass, s, inWord))
    decreases |s|
  {
    if s != [] {
      hide IsWord, Elides;
      var t := Scan(pass, s, inWord);
      if !inWord && Elides(pass, s) {
        LongEnough(pass, s);
        ScanOnlyElides(pass, s[3..], false);
        assert t[2..] == Scan(pass, s[3..], false) && t[..2] == [s[0], '\''];
      } else {
        ScanOnlyElides(pass, s[1..], IsWord(s[0]));
        assert t[1..] == Scan(pass, s[1..], IsWord(s[0]));
      }
    }
  }

  /** Away from a particle the text is kept as it is. */
  lemma PartlyStep(pass: Pass, s: string, inWord: bool, t: string)
    requires s != [] && PartlyElided(pass, s, inWord, t) && (inWord || !Elides(pass, s))
    ensures t != [] && t[0] == s[0] && PartlyElided(pass, s[1..], IsWord(s[0]), t[1..])
  {
  }

  lemma PartlyStart(pass: Pass, s: string, inWord: bool, t: string)
    requires s != [] && PartlyElided(pass, s, inWord, t)
    ensures t != [] && t[0] == s[0]
  {
    assert |t| >= 2 ==> t[..2][0] == t[0];
  }

  /** A particle left unelided can still be seen in the result. */
  lemma LeftParticleShows(pass: Pass, s: string, t: string)
    requires Elides(pass, s) && t != [] && t[0] == s[0] && PartlyElided(pass, s[1..], IsWord(s[0]), t[1..])
    ensures Elides(pass, t)
  {
    ParticleIsWord(pass, s[0], s[1]);
    var s1, t1 := s[1..], t[1..];
    NoParticleAtVowel(pass, s1);
    PartlyStep(pass, s1, IsWord(s[0]), t1);
    var s2, t2 := s1[1..], t1[1..];
    assert s2[0] == ' ';
    Marks();
    hide IsWord, IsParticle, Follows;
    PartlyStep(pass, s2, IsWord(s1[0]), t2);
    var s3, t3 := s2[1..], t2[1..];
    PartlyStart(pass, s3, IsWord(s2[0]), t3);
    assert t[1] == s[1] && t[2] == s[2] && t[3] == s[3];
  }

  lemma ParticleIsWord(pass: Pass, a: char, b: char)
    requires IsParticle(pass, a, b)
    ensures IsWord(a) && Lower(b) !in "jmtsl"
  {
  }

  lemma NoParticleAtVowel(pass: Pass, s: string)
    requires s != [] && Lower(s[0]) !in "jmtsl"
    ensures !Elides(pass, s)
  {
    hide Lower;
  }

  /**
   A pass is the one way to elide that leaves nothing to elide: it changes particles only, where
   the rule allows, and all of them.
   */
  lemma {:induction false} ScanIsCompleteElision(pass: Pass, s: string, inWord: bool, t: string)
    ensures t == Scan(pass, s, inWord) <==> PartlyElided(pass, s, inWord, t) && Elided(pass, t, inWord)
    decreases |s|
  {
    ScanOnlyElides(pass, s, inWord);
    ScanElides(pass, s, inWord);
    if s != [] && PartlyElided(pass, s, inWord, t) && Elided(pass, t, inWord) {
      hide IsWord, Elides;
      PartlyStart(pass, s, inWord, t);
      if !inWord && Elides(pass, s) {
        if PartlyElided(pass, s[1..], IsWord(s[0]), t[1..]) { LeftParticleShows(pass, s, t); }
        LongEnough(pass, s);
        assert |t| >= 2 && t[..2] == [s[0], '\''] && PartlyElided(pass, s[3..], false, t[2..]);
        RestElided(pass, t, inWord);
        ScanIsCompleteElision(pass, s[3..], false, t[2..]);
        assert t == t[..2] + t[2..];
      } else {
        ScanIsCompleteElision(pass, s[1..], IsWord(s[0]), t[1..]);
        assert t == [t[0]] + t[1..];
      }
    }
  }

  lemma RestElided(pass: Pass, t: string, inWord: bool)
    requires |t| >= 2 && t[1] == '\'' && Elided(pass, t, inWord)
    ensures Elided(pass, t[2..], false)
  {
    Marks();
    hide IsWord, Elides;
    assert t[1..][1..] == t[2..];
  }

  // ----- Characters -----

  predicate Latin(s: string) {
    forall i :: 0 <= i < |s| ==> s[i] < '\U{250}'
  }

  lemma {:induction false} ScanKeepsLatin(pass: Pass, s: string, inWord: bool)
    requires Latin(s)
    ensures Latin(Scan(pass, s, inWord))
    decreases |s|
  {
    if s != [] {
      hide IsWord, Elides;
      if !inWord && Elides(pass, s) {
        assert |s| >= 3 by { LongEnough(pass, s); }
        ScanKeepsLatin(pass, s[3..], false);
      } else {
        ScanKeepsLatin(pass, s[1..], IsWord(s[0]));
      }
    }
  }

  lemma LongEnough(pass: Pass, s: string)
    requires Elides(pass, s)
    ensures |s| >= 4 && s[2] == ' ' && !IsSpace(s[0]) && !IsSpace(s[3])
  {
    hide IsVowel, Lower, IsSpace;
    if IsSpace(s[0]) { SpaceIsNoLetter(s[0]); }
    if IsSpace(s[3]) { SpaceIsNoLetter(s[3]); }
  }

  lemma SpaceIsNoLetter(c: char)
    requires IsSpace(c)
    ensures Lower(c) !in "jmtsl" && Lower(c) !in "jmts" && Lower(c) != 'h' && !IsVowel(c)
  {
    assert Lower(c) == c;
    hide Lower;
  }

  /** Eliding neither adds spaces at the ends nor takes any away. */
  lemma {:induction false} ScanEnd(pass: Pass, s: string, inWord: bool)
    requires s != []
    ensures var t := Scan(pass, s, inWord); t != [] && t[|t| - 1] == s[|s| - 1]
    decreases |s|
  {
    hide IsWord, Elides;
    if !inWord && Elides(pass, s) {
      LongEnough(pass, s);
      ScanEnd(pass, s[3..], false);
    } else if |s| > 1 {
      ScanEnd(pass, s[1..], IsWord(s[0]));
    }
  }

  lemma ElideEnds(s: string, beforeH: bool)
    ensures Elide(s, beforeH) == [] <==> s == []
    ensures var t := Elide(s, beforeH); s != [] ==> t[0] == s[0] && t[|t| - 1] == s[|s| - 1]
    ensures Latin(s) ==> Latin(Elide(s, beforeH))
  {
    hide Scan;
    var t := Scan(Vowels, s, false);
    ScanStart(Vowels, s, false);
    ScanStart(Aitch, t, false);
    if s != [] {
      ScanEnd(Vowels, s, false);
      ScanEnd(Aitch, t, false);
    }
    if Latin(s) {
      ScanKeepsLatin(Vowels, s, false);
      ScanKeepsLatin(Aitch, t, false);
    }
  }

  // ----- Whole words in front -----

  ghost predicate AllWord(s: string) {
    forall i :: 0 <= i < |s| ==> IsWord(s[i])
  }

  lemma PrependWord(m: string, t: string)
    requires m != []
    ensures [m[0]] + (m[1..] + t) == m + t
  {
  }

  lemma {:induction false} ScanThroughWord(pass: Pass, w: string, rest: string)
    requires AllWord(w)
    ensures Scan(pass, w + rest, true) == w + Scan(pass, rest, true)
  {
    if w == [] {
      assert w + rest == rest;
    } else {
      hide Elides, IsWord, Scan;
      ScanThroughWord(pass, w[1..], rest);
      StepOver(pass, w + rest, true, w[1..] + rest);
      PrependWord(w, Scan(pass, rest, true));
    }
  }

  /** A word that is not elided passes through, with the space after it. */
  lemma ScanAfterWord(pass: Pass, w: string, rest: string)
    requires w != [] && AllWord(w) && !Elides(pass, w + " " + rest)
    ensures Scan(pass, w + " " + rest, false) == w + " " + Scan(pass, rest, false)
  {
    hide IsWord, IsParticle, Follows, Elides, Scan;
    Marks();
    var s, z, v := w + " " + rest, " " + rest, w[1..];
    assert s[1..] == v + z && s[0] == w[0];
    StepOver(pass, s, false, v + z);
    ScanThroughWord(pass, v, z);
    StepOver(pass, z, true, rest);
    var t := Scan(pass, rest, false);
    assert [w[0]] + (v + (" " + t)) == w + " " + t;
  }
}
