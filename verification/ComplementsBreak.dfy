/**
 Which complements some form loses: every one that an elision can touch. So a headword's forms all
 settle exactly when its complement survives, which can be told from the headword.
 */
module ComplementsBreak {
  import opened Text
  import opened Articles
  import opened Elision
  import opened ElisionInContext
  import opened Forms
  import opened VerbsSettle
  import opened ComplementsSettle

  // ----- The first elision in a text -----

  predicate IsWeak(c: char) { Lower(c) == 'e' || Lower(c) == 'a' }

  /** The result keeps the text up to `f`, and has an apostrophe for the weak vowel after it. */
  ghost predicate BreaksAt(s: string, t: string, f: nat) {
    && f + 1 < |s| && f + 1 < |t| && |t| < |s|
    && t[..f + 1] == s[..f + 1] && t[f + 1] == '\'' && IsWeak(s[f + 1])
  }

  lemma {:induction false} ScanShrinks(pass: Pass, s: string, inWord: bool)
    ensures |Scan(pass, s, inWord)| <= |s|
    decreases |s|
  {
    if s != [] {
      hide Scan;
      var n, h := ScanOneStep(pass, s, inWord);
      ScanShrinks(pass, s[n..], n == 1 && IsWord(s[0]));
    }
  }

  lemma StepWrites(pass: Pass, s: string, inWord: bool) returns (n: nat, h: string)
    requires s != []
    ensures n == (if !inWord && Elides(pass, s) then 3 else 1) && n <= |s|
    ensures h == if n == 3 then [s[0], '\''] else [s[0]]
    ensures Scan(pass, s, inWord) == h + Scan(pass, s[n..], n == 1 && IsWord(s[0]))
  {
    hide IsWord;
    n := if !inWord && Elides(pass, s) then 3 else 1;
    h := if n == 3 then [s[0], '\''] else [s[0]];
  }

  lemma {:induction false} FirstElision(pass: Pass, s: string, inWord: bool) returns (f: nat)
    requires !Elided(pass, s, inWord)
    ensures BreaksAt(s, Scan(pass, s, inWord), f)
    decreases |s|
  {
    hide IsWord, Elides, Scan, IsWeak;
    var t := Scan(pass, s, inWord);
    var n, h := StepWrites(pass, s, inWord);
    var rest := Scan(pass, s[n..], n == 1 && IsWord(s[0]));
    if n == 3 {
      f := 0;
      ScanShrinks(pass, s[3..], false);
      ParticleIsWeak(pass, s);
      assert t[..1] == s[..1] && t[1] == '\'';
    } else {
      var g := FirstElision(pass, s[1..], IsWord(s[0]));
      f := g + 1;
      assert t[..f + 1] == [s[0]] + rest[..g + 1];
      assert s[..f + 1] == [s[0]] + s[1..][..g + 1];
    }
  }

  lemma ParticleIsWeak(pass: Pass, s: string)
    requires Elides(pass, s)
    ensures |s| >= 4 && IsWeak(s[1])
  {
    ParticleLetters(pass, s[0], s[1]);
  }

  lemma BreaksTwice(s: string, t: string, y: string, f: nat, g: nat) returns (k: nat)
    requires BreaksAt(s, t, f) && BreaksAt(t, y, g)
    ensures BreaksAt(s, y, k)
  {
    hide Lower;
    ApostropheIsStrong();
    assert forall i :: 0 <= i < f + 1 ==> t[i] == t[..f + 1][i] && s[i] == s[..f + 1][i];
    assert g != f;
    if g < f {
      k := g;
      assert s[..g + 1] == s[..f + 1][..g + 1] && t[..g + 1] == t[..f + 1][..g + 1];
    } else {
      k := f;
      assert y[..f + 1] == y[..g + 1][..f + 1] && t[..f + 1] == t[..g + 1][..f + 1];
      assert y[f + 1] == y[..g + 1][f + 1] && t[f + 1] == t[..g + 1][f + 1];
    }
  }

  lemma ApostropheIsStrong()
    ensures !IsWeak('\'')
  {
  }

  lemma ElideBreaks(s: string) returns (f: nat)
    requires !Settled(s, true)
    ensures BreaksAt(s, Elide(s, true), f)
  {
    hide Scan, Elided, BreaksAt;
    var t := Scan(Vowels, s, false);
    if Elided(Vowels, s, false) {
      ScanOfElided(Vowels, s, false);
      f := FirstElision(Aitch, s, false);
    } else {
      f := FirstElision(Vowels, s, false);
      if Elided(Aitch, t, false) {
        ScanOfElided(Aitch, t, false);
      } else {
        var g := FirstElision(Aitch, t, false);
        f := BreaksTwice(s, t, Elide(s, true), f, g);
      }
    }
  }

  // ----- A broken piece is gone -----

  ghost predicate Strong(s: string) { forall i :: 0 <= i < |s| ==> !IsWeak(s[i]) }

  /** The piece in the middle is broken at `j`, and the end is as it was. */
  ghost predicate Broken(pre: string, m: string, y: string, j: nat) {
    && j < |m| && |pre| + j < |y|
    && y[..|pre| + j] == pre + m[..j] && y[|pre| + j] == '\'' && IsWeak(m[j])
  }

  lemma WeakInside(pre: string, m: string, suf: string, k: nat)
    requires Strong(pre) && Strong(suf) && k < |pre + m + suf| && IsWeak((pre + m + suf)[k])
    ensures |pre| <= k < |pre| + |m|
  {
    hide IsWeak;
    var s := pre + m + suf;
    assert forall i :: 0 <= i < |pre| ==> s[i] == pre[i];
    assert forall i :: |pre| + |m| <= i < |s| ==> s[i] == suf[i - |pre| - |m|];
  }

  lemma BreaksInside(pre: string, m: string, suf: string, y: string, f: nat) returns (j: nat)
    requires Strong(pre) && Strong(suf) && BreaksAt(pre + m + suf, y, f)
    ensures Broken(pre, m, y, j)
  {
    hide IsWeak;
    var s := pre + m + suf;
    var k := f + 1;
    WeakInside(pre, m, suf, k);
    j := k - |pre|;
    assert s[k] == m[j];
    assert s[..k] == pre + m[..j];
  }

  /** An occurrence that began before the piece would repeat what is in front up to the break. */
  lemma {:induction false} Repeats(pre: string, m: string, y: string, j: nat, i: nat, k: nat)
    requires Broken(pre, m, y, j) && Strong(pre) && i < |pre| && k <= j
    requires i + |m| <= |y| && y[i..i + |m|] == m
    ensures !IsWeak(m[k])
    decreases k
  {
    hide IsWeak;
    assert m[k] == y[i..i + |m|][k] == y[i + k];
    assert i + k < |pre| + j ==> y[i + k] == y[..|pre| + j][i + k] == (pre + m[..j])[i + k];
    if i + k < |pre| {
      assert (pre + m[..j])[i + k] == pre[i + k];
    } else {
      var l := i + k - |pre|;
      Repeats(pre, m, y, j, i, l);
      assert (pre + m[..j])[i + k] == m[l];
    }
  }

  lemma NoOccurrence(pre: string, m: string, y: string, j: nat, i: nat)
    requires Broken(pre, m, y, j) && Strong(pre) && |y| <= |pre| + |m| + 1 && y[|y| - 1] != m[|m| - 1]
    requires i + |m| <= |y|
    ensures y[i..i + |m|] != m
  {
    hide IsWeak;
    ApostropheIsStrong();
    var z := y[i..i + |m|];
    assert z[j] == y[i + j] && z[|m| - 1] == y[i + |m| - 1];
    if z == m && i < |pre| {
      Repeats(pre, m, y, j, i, j);
    }
  }

  // ----- A form that breaks the complement -----

  ghost predicate IsLow(s: string) { forall i :: 0 <= i < |s| ==> Lower(s[i]) == s[i] }

  lemma LowOfLow(s: string)
    ensures IsLow(LowerAll(s)) && (IsLow(s) ==> LowerAll(s) == s)
  {
    forall i | 0 <= i < |s| ensures Lower(LowerAll(s)[i]) == LowerAll(s)[i] { LowerKeepsFold(s[i]); }
    hide Lower;
  }

  lemma {:induction false} ScanKeepsLow(pass: Pass, s: string, inWord: bool)
    requires IsLow(s)
    ensures IsLow(Scan(pass, s, inWord))
    decreases |s|
  {
    if s != [] {
      LowerApostrophe('\'');
      hide Scan, Lower, IsWord, Elides;
      var n, h := StepWrites(pass, s, inWord);
      ScanKeepsLow(pass, s[n..], n == 1 && IsWord(s[0]));
    }
  }

  lemma ElideKeepsLow(s: string)
    requires IsLow(s)
    ensures IsLow(Elide(s, true))
  {
    hide Scan, IsLow;
    ScanKeepsLow(Vowels, s, false);
    ScanKeepsLow(Aitch, Scan(Vowels, s, false), false);
  }

  /** A vowel for the end of the form, unlike the last letters of the complement and its first word. */
  function EndVowel(a: char, b: char): (v: char)
    ensures v != a && v != b && v in "uio"
  {
    if a != 'u' && b != 'u' then 'u' else if a != 'i' && b != 'i' then 'i' else 'o'
  }

  lemma EndVowelIs(v: char)
    requires v in "uio"
    ensures IsVowel(v) && Lower(v) == v && !IsSpace(v) && !IsWeak(v) && !IsWeak(' ')
  {
  }

  /** After the break the complement is nowhere, nor its first word at the end. */
  lemma BrokenIsMissing(pre: string, c: string, y: string, j: nat)
    requires c != [] && c[0] != ' ' && IsLow(y) && y != [] && !IsSpace(y[|y| - 1])
    requires var lc := LowerAll(c);
             && Broken(pre, lc, y, j) && Strong(pre) && |y| <= |pre| + |lc| + 1
             && y[|y| - 1] != lc[|lc| - 1]
             && (Head(lc, ' ') != [] ==> y[|y| - 1] != Head(lc, ' ')[|Head(lc, ' ')| - 1])
    ensures !HasComplement(y, c)
  {
    var lc := LowerAll(c);
    var f := Head(lc, ' ');
    LowOfLow(y);
    LowerApostrophe(c[0]);
    assert f != [];
    assert TrimRight(y) == y;
    hide LowerAll, TrimRight, IsSpace, Lower, Head, Contains, Broken, Strong;
    if EndsWith(y, lc) { EndIsContained(y, lc); }
    if Contains(y, lc) {
      var i := ContainsWhere(y, lc);
      NoOccurrence(pre, lc, y, j, i);
    }
    LastOfEnd(y, f);
  }

  lemma LastOfEnd(y: string, f: string)
    requires f != []
    ensures EndsWith(y, f) ==> y != [] && y[|y| - 1] == f[|f| - 1]
  {
    if EndsWith(y, f) { assert y[|y| - |f|..][|f| - 1] == y[|y| - 1]; }
  }

  // ----- Weak spots -----

  lemma {:induction false} ElidedNowhere(pass: Pass, s: string, inWord: bool, k: nat)
    requires k < |s| && Elides(pass, s[k..]) && (if k == 0 then !inWord else !IsWord(s[k - 1]))
    ensures !Elided(pass, s, inWord)
  {
    hide *;
    ElidedUnfold(pass, s, inWord);
    if k == 0 {
      assert s[0..] == s;
    } else {
      assert s[1..][k - 1..] == s[k..];
      assert k > 1 ==> s[1..][k - 2] == s[k - 1];
      ElidedNowhere(pass, s[1..], IsWord(s[0]), k - 1);
    }
  }

  lemma ElidedUnfold(pass: Pass, s: string, inWord: bool)
    requires s != []
    ensures Elided(pass, s, inWord) <==> !(!inWord && Elides(pass, s)) && Elided(pass, s[1..], IsWord(s[0]))
  {
  }

  lemma {:induction false} WeakSpot(m: string, inWord: bool) returns (k: nat)
    requires !Firm(m, inWord)
    ensures k < |m| && MayElide(m[k..]) && (if k == 0 then !inWord else !IsWord(m[k - 1]))
  {
    hide MayElide, IsWord;
    if !inWord && MayElide(m) {
      k := 0;
      assert m[0..] == m;
    } else {
      var j := WeakSpot(m[1..], IsWord(m[0]));
      k := j + 1;
      assert m[1..][j..] == m[k..];
    }
  }

  /** Where a weak piece elides, once a vowel follows it: in the middle of it, or at its end. */
  lemma MayIsDoes(m: string, v: char) returns (pass: Pass)
    requires MayElide(m) && m[|m| - 1] != ' ' && IsVowel(v)
    ensures Elides(pass, m + " " + [v])
  {
    var s := m + " " + [v];
    assert forall i :: 0 <= i < |m| ==> s[i] == m[i];
    assert s[|m|] == ' ' && s[|m| + 1] == v;
    pass := if |m| == 2 || IsVowel(m[3]) then Vowels else Aitch;
    assert Lower(m[0]) != 'l' ==> IsParticle(Aitch, m[0], m[1]);
    hide Lower, IsVowel, IsParticle;
  }

  /** The particle that takes the start of the piece. */
  function Opener(m: string): string
    requires m != []
  {
    if m[0] == 'e' then "tu m" else "tu l"
  }

  lemma StartIsLost(m: string, v: char) returns (pass: Pass)
    requires MayLoseStart(m) && IsLow(m) && m[|m| - 1] != ' ' && IsVowel(v)
    ensures Elides(pass, [Opener(m)[3]] + m + " " + [v])
  {
    assert Lower(m[0]) == m[0];
    var p := Opener(m)[3];
    OpenerIsParticle(m, p);
    pass := if |m| == 1 || IsVowel(m[2]) then Vowels else Aitch;
    var next := if |m| == 1 then v else m[2];
    assert IsParticle(pass, p, m[0]) && Follows(pass, next);
    hide *;
    var s := [p] + m + " " + [v];
    assert s[0] == p && s[1] == m[0] && s[2] == (if |m| == 1 then ' ' else m[1]) && s[3] == next;
    ParticleElides(pass, s);
  }

  lemma OpenerIsParticle(m: string, p: char)
    requires m != [] && (m[0] == 'e' || m[0] == 'a') && p == (if m[0] == 'e' then 'm' else 'l')
    ensures IsParticle(Vowels, p, m[0]) && (m[0] == 'e' ==> IsParticle(Aitch, p, m[0]))
  {
    assert Lower('m') == 'm' && Lower('l') == 'l' && Lower(m[0]) == m[0];
  }

  lemma ParticleElides(pass: Pass, s: string)
    requires |s| >= 4 && IsParticle(pass, s[0], s[1]) && s[2] == ' ' && Follows(pass, s[3])
    ensures Elides(pass, s)
  {
  }

  /** A form whose elision breaks the piece: in front of it "tu", and a particle if its start is weak. */
  lemma BreakingForm(m: string, v: char) returns (pre: string)
    requires m != [] && m[0] != ' ' && !Sturdy(m) && IsLow(m) && m[|m| - 1] != ' ' && IsVowel(v)
    ensures pre in {"tu ", "tu l", "tu m"} && !Settled(pre + m + " " + [v], true)
  {
    if MayLoseStart(m) {
      pre := BreaksStart(m, v);
    } else {
      var k := WeakSpot(m, false);
      pre := "tu ";
      BreaksMiddle(m, v, k);
    }
  }

  lemma BreaksStart(m: string, v: char) returns (pre: string)
    requires MayLoseStart(m) && IsLow(m) && m[|m| - 1] != ' ' && IsVowel(v)
    ensures pre in {"tu ", "tu l", "tu m"} && !Settled(pre + m + " " + [v], true)
  {
    pre := Opener(m);
    var pass := StartIsLost(m, v);
    assert pre == "tu " + [pre[3]];
    hide *;
    var s := pre + m + " " + [v];
    assert s[3..] == [pre[3]] + m + " " + [v] && s[2] == ' ';
    NotSettledAt(pass, s, 3);
  }

  lemma BreaksMiddle(m: string, v: char, k: nat)
    requires k < |m| && MayElide(m[k..]) && (k == 0 || !IsWord(m[k - 1])) && m[|m| - 1] != ' ' && IsVowel(v)
    ensures !Settled("tu " + m + " " + [v], true)
  {
    hide *;
    var pass := MayIsDoes(m[k..], v);
    var s := "tu " + m + " " + [v];
    assert s[3 + k..] == m[k..] + " " + [v];
    assert s[2 + k] == if k == 0 then ' ' else m[k - 1];
    NotSettledAt(pass, s, 3 + k);
  }

  lemma NotSettledAt(pass: Pass, s: string, k: nat)
    requires 0 < k < |s| && Elides(pass, s[k..]) && (s[k - 1] == ' ' || !IsWord(s[k - 1]))
    ensures !Settled(s, true)
  {
    Marks();
    hide Elides, IsWord;
    ElidedNowhere(pass, s, false, k);
  }

  // ----- The forms that break a complement -----

  lemma OpenersAre(pre: string)
    requires pre in {"tu ", "tu l", "tu m"}
    ensures Strong(pre) && IsLow(pre) && |pre| >= 3 && pre[..3] == "tu "
  {
    LowerPlain("tu ");
    LowerPlain("tu l");
    LowerPlain("tu m");
  }

  lemma LowConcat(a: string, b: string)
    requires IsLow(a) && IsLow(b)
    ensures IsLow(a + b)
  {
    hide Lower;
  }

  lemma TuIsSubject(s: string)
    requires |s| >= 3 && s[..3] == "tu "
    ensures HasSubject(s)
  {
    LowerPlain("tu ");
    assert "tu "[..3] == "tu ";
    SamePrefix(s, "tu ", 3);
    hide Lower, LowerAll;
    assert SUBJECTS[2] == "tu ";
    SubjectFound(s, 2);
  }

  lemma SturdyOfLower(c: string)
    ensures Sturdy(LowerAll(c)) <==> Sturdy(c)
    ensures |LowerAll(c)| == |c|
    ensures c != [] ==> LowerAll(c) != []
    ensures c != [] ==> (LowerAll(c)[0] == ' ' <==> c[0] == ' ')
    ensures c != [] ==> IsSpace(LowerAll(c)[|c| - 1]) == IsSpace(c[|c| - 1])
  {
    LowOfLow(c);
    LowOfLow(LowerAll(c));
    if Sturdy(c) { SturdyLower(c, LowerAll(c)); }
    if Sturdy(LowerAll(c)) { SturdyLower(LowerAll(c), c); }
    if c != [] {
      LowerApostrophe(c[0]);
      LowerKeepsKind(c[|c| - 1]);
    }
    hide Lower, Sturdy, IsSpace;
  }

  /** The elided text lacks the complement. */
  lemma BrokenForm(c: string) returns (fr: string)
    requires c != [] && !IsSpace(c[|c| - 1]) && !Survives(c)
    ensures HasSubject(fr) && HasComplement(fr, c) && !HasComplement(Elide(fr, true), c)
    ensures exists pre, v :: pre in {"tu ", "tu l", "tu m"} && v in "uio" && fr == pre + LowerAll(c) + " " + [v]
  {
    hide Lower, LowerAll, Sturdy, IsSpace, IsLow, Strong, Head, Elide, Settled, HasComplement, HasSubject, Broken,
        BreaksAt, IsWeak;
    var lc := LowerAll(c);
    SturdyOfLower(c);
    LowOfLow(c);
    LowOfLow(lc);
    NoSpaceAtEnd(lc);
    var f := Head(lc, ' ');
    var v := EndVowel(lc[|lc| - 1], if f == [] then 'e' else f[|f| - 1]);
    EndVowelIs(v);
    var pre := BreakingForm(lc, v);
    OpenersAre(pre);
    fr := pre + lc + " " + [v];
    assert fr == pre + lc + (" " + [v]) && fr[..3] == pre[..3];
    TuIsSubject(fr);
    PieceIsComplement(pre, lc, " " + [v], c);
    BrokenLacks(pre, c, v);
  }

  lemma NoSpaceAtEnd(s: string)
    requires s != [] && !IsSpace(s[|s| - 1])
    ensures s[|s| - 1] != ' '
  {
  }

  lemma TailIs(v: char)
    requires v in "uio"
    ensures Strong(" " + [v]) && IsLow(" " + [v])
  {
    EndVowelIs(v);
    LowerApostrophe(' ');
  }

  lemma BrokenLacks(pre: string, c: string, v: char)
    requires c != [] && c[0] != ' ' && pre in {"tu ", "tu l", "tu m"} && v in "uio"
    requires var lc := LowerAll(c);
             && !Settled(pre + lc + " " + [v], true) && v != lc[|lc| - 1]
             && (Head(lc, ' ') != [] ==> v != Head(lc, ' ')[|Head(lc, ' ')| - 1])
    ensures !HasComplement(Elide(pre + LowerAll(c) + " " + [v], true), c)
  {
    hide *;
    var lc := LowerAll(c);
    var s := pre + lc + " " + [v];
    var y := Elide(s, true);
    LowOfLow(c);
    BreakingIsLow(pre, lc, v);
    EndVowelIs(v);
    var f := ElideBreaks(s);
    var j := BreakIsInside(pre, lc, v, y, f);
    OpenersAre(pre);
    LengthIs(s, y, f);
    ElideEnds(s, true);
    EndIs(pre, lc, v);
    BrokenIsMissing(pre, c, y, j);
  }

  lemma EndIs(pre: string, m: string, v: char)
    ensures var s := pre + m + " " + [v]; |s| == |pre| + |m| + 2 && s[|s| - 1] == v
  {
  }

  lemma BreakingIsLow(pre: string, m: string, v: char)
    requires pre in {"tu ", "tu l", "tu m"} && v in "uio" && IsLow(m)
    ensures IsLow(Elide(pre + m + " " + [v], true))
  {
    OpenersAre(pre);
    TailIs(v);
    assert pre + m + (" " + [v]) == pre + m + " " + [v];
    hide *;
    LowConcat(pre, m);
    LowConcat(pre + m, " " + [v]);
    ElideKeepsLow(pre + m + " " + [v]);
  }

  lemma BreakIsInside(pre: string, m: string, v: char, y: string, f: nat) returns (j: nat)
    requires pre in {"tu ", "tu l", "tu m"} && v in "uio" && BreaksAt(pre + m + " " + [v], y, f)
    ensures Broken(pre, m, y, j)
  {
    OpenersAre(pre);
    TailIs(v);
    assert pre + m + (" " + [v]) == pre + m + " " + [v];
    hide *;
    j := BreaksInside(pre, m, " " + [v], y, f);
  }

  lemma LengthIs(s: string, y: string, f: nat)
    requires BreaksAt(s, y, f)
    ensures |y| < |s|
  {
  }

  /** Written for the headword, that form is tidied once more on reading. */
  lemma BrokenDoesNotSettle(fr: string, bare: string, name: string)
    requires Complement(bare) != [] && HasSubject(fr)
    requires HasComplement(fr, Complement(bare)) && !HasComplement(Elide(fr, true), Complement(bare))
    ensures VerbForm(VerbForm(fr, bare, name), bare, name) != VerbForm(fr, bare, name)
  {
    ComplementHeadword(bare);
    hide HasSubject, HasComplement, Complement, Elide, IsReflexive, IsImpersonal, ElidesH;
    assert VerbForm(fr, bare, name) == Elide(fr, true);
    VerbSettlesIff(fr, bare, name);
  }

  ghost predicate AllFormsSettle(bare: string) {
    forall fr, name :: VerbForm(VerbForm(fr, bare, name), bare, name) == VerbForm(fr, bare, name)
  }

  lemma ComplementEnds(bare: string)
    requires Complement(bare) != []
    ensures bare != [] && Complement(bare)[|Complement(bare)| - 1] == bare[|bare| - 1]
  {
  }

  /**
   All forms the model may ever write for a headword settle in one pass exactly when the headword has
   no complement or one that survives, which can be told before any form is written.
   */
  lemma AllFormsSettleIff(bare: string)
    requires bare == [] || !IsSpace(bare[|bare| - 1])
    ensures AllFormsSettle(bare) <==> Complement(bare) == [] || Survives(Complement(bare))
  {
    var c := Complement(bare);
    if c == [] || Survives(c) {
      forall fr, name ensures VerbForm(VerbForm(fr, bare, name), bare, name) == VerbForm(fr, bare, name) {
        if c != [] { ComplementEnds(bare); }
        hide Complement, Survives, VerbForm;
        VerbSettles(fr, bare, name);
      }
    } else {
      ComplementEnds(bare);
      hide Complement, VerbForm, HasSubject, HasComplement, Elide;
      var fr := BrokenForm(c);
      BrokenDoesNotSettle(fr, bare, "");
    }
  }

  /** An article before an h elides in no pass: "avoir la haine" is one of the headwords that settle. */
  lemma ArticleBeforeH()
    ensures Survives("la haine")
  {
    var c := "la haine";
    assert !IsVowel('h') && Lower('h') == 'h' && Lower('l') == 'l' && !IsWeak('l');
    assert !IsParticle(Vowels, 'h', 'a') && !IsWord(' ');
    assert IsWord('l') && IsWord('h') && IsWord('a') && IsWord('i') && IsWord('n');
    hide IsVowel, Lower, IsWord, IsParticle;
    Marks();
    assert c[1..] == "a haine" && c[1..][1..] == " haine" && c[1..][1..][1..] == "haine";
    assert "haine"[1..] == "aine" && "aine"[1..] == "ine" && "ine"[1..] == "ne" && "ne"[1..] == "e" && "e"[1..] == "";
    assert Firm("aine", true) by { assert Firm("e", true) && Firm("ne", true) && Firm("ine", true); }
    assert Firm("haine", false);
    assert Firm(" haine", true) && Firm("a haine", true);
  }
}
