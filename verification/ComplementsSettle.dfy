/** Correcting a verb's forms a second time, for headwords such as "avoir faim". */
module ComplementsSettle {
  import opened Text
  import opened Articles
  import opened Elision
  import opened ElisionInContext
  import opened Forms
  import opened VerbsSettle

  // ----- Headwords with a complement -----

  lemma FirstLetters(i: nat, j: nat)
    requires i < |IMPERSONAL| && j < |H_ASPIRE|
    ensures IMPERSONAL[i] != [] && IMPERSONAL[i][0] != 'a' && H_ASPIRE[j] != [] && H_ASPIRE[j][0] != 'a'
  {
  }

  lemma FirstOfPrefix(s: string, p: string)
    requires p != [] && StartsWith(s, p)
    ensures s != [] && s[0] == p[0]
  {
    assert s[..|p|][0] == s[0];
  }

  lemma StartsElsewhere(s: string, words: seq<string>)
    requires s != [] && forall i :: 0 <= i < |words| ==> words[i] != [] && words[i][0] != s[0]
    ensures FirstPrefix(s, words) == 0
  {
    if FirstPrefix(s, words) > 0 {
      var i := FirstPrefixIs(s, words);
      FirstOfPrefix(s, words[i]);
    }
  }

  /** They are neither impersonal nor reflexive, and elide before h. */
  lemma ComplementHeadword(bare: string)
    requires Complement(bare) != []
    ensures !IsImpersonal(bare) && !IsReflexive(bare) && ElidesH(bare)
  {
    var h := Head(bare, ' ');
    hide Lower;
    assert LowerAll(h)[0] == Lower(h[0]);
    assert bare[0] == h[0] && Lower(h[0]) == 'a';
    var low := LowerAll(bare);
    forall i | 0 <= i < |IMPERSONAL| ensures IMPERSONAL[i] != [] && IMPERSONAL[i][0] != low[0] { FirstLetters(i, 0); }
    forall j | 0 <= j < |H_ASPIRE| ensures H_ASPIRE[j] != [] && H_ASPIRE[j][0] != low[0] { FirstLetters(0, j); }
    StartsElsewhere(low, IMPERSONAL);
    StartsElsewhere(low, H_ASPIRE);
    assert bare[0] != 's' by { LowerOfS(); }
    if StartsWith(bare, "se ") { FirstOfPrefix(bare, "se "); }
    if StartsWith(bare, "s'") { FirstOfPrefix(bare, "s'"); }
  }

  lemma LowerOfS()
    ensures Lower('s') == 's'
  {
  }

  // ----- When a second correction adds the complement again -----

  lemma WithSubjectOnce(fr: string, bare: string, name: string)
    requires IsImpersonal(bare) || !IsReflexive(bare) || LowerAll(name) != "passé composé"
    ensures var x := WithSubject(fr, bare, name);
            forall y :: (HasSubject(x) ==> HasSubject(y)) ==> WithSubject(y, bare, name) == y
  {
    hide HasSubject, IsReflexive, IsImpersonal;
    if !HasSubject(fr) { JeIsSubject(fr); }
  }

  /** Every headword but those with a complement: settled at once. */
  lemma PlainVerbSettles(fr: string, bare: string, name: string)
    requires Complement(bare) == []
    ensures VerbForm(VerbForm(fr, bare, name), bare, name) == VerbForm(fr, bare, name)
  {
    hide Complement, IsImpersonal, IsReflexive, HasSubject, ReflexivePerfect, Elide;
    var x := WithSubject(fr, bare, name);
    var h := ElidesH(bare);
    if !IsImpersonal(bare) && IsReflexive(bare) && LowerAll(name) == "passé composé" {
      PerfectSettles(fr, h);
    } else {
      WithSubjectOnce(fr, bare, name);
      if HasSubject(x) { ElideKeepsSubject(x, h); }
      ElideIsIdempotent(x, h);
    }
  }

  /** A form settles exactly when elision has left its complement recognizable. */
  lemma VerbSettlesIff(fr: string, bare: string, name: string)
    ensures var once := VerbForm(fr, bare, name);
            VerbForm(once, bare, name) == once <==> Complement(bare) == [] || HasComplement(once, Complement(bare))
  {
    hide Complement, IsImpersonal, IsReflexive, HasSubject, ReflexivePerfect, Elide, ElidesH, HasComplement;
    var c := Complement(bare);
    if c == [] {
      PlainVerbSettles(fr, bare, name);
    } else {
      ComplementHeadword(bare);
      var x := WithSubject(fr, bare, name);
      var z := RestoreComplement(x, bare);
      var once := VerbForm(fr, bare, name);
      WithSubjectOnce(fr, bare, name);
      if HasSubject(x) { RestoreKeepsSubject(x, bare); ElideKeepsSubject(z, true); }
      assert WithSubject(once, bare, name) == once;
      ElideIsIdempotent(z, true);
      ElideSettles(z, true);
      AppendLengthens(once, c);
    }
  }

  lemma RestoreKeepsSubject(x: string, bare: string)
    requires HasSubject(x)
    ensures HasSubject(RestoreComplement(x, bare))
  {
    hide Complement, HasComplement;
    var z := RestoreComplement(x, bare);
    var i := FirstPrefixIs(LowerAll(x), SUBJECTS);
    var n := |SUBJECTS[i]|;
    hide HasSubject, LowerAll;
    assert z[..n] == x[..n];
    SamePrefix(x, z, n);
    SubjectFound(z, i);
  }

  // ----- Complements that survive elision -----

  /** The complement starts with a space, or no elision in any sentence around it touches it. */
  predicate Survives(c: string) { c != [] && (c[0] == ' ' || Sturdy(c)) }

  lemma {:induction false} FirmLower(s: string, t: string, inWord: bool)
    requires LowerAll(s) == LowerAll(t)
    ensures Firm(s, inWord) == Firm(t, inWord)
  {
    if s != [] {
      hide IsVowel;
      SameLetter(s, t, 0);
      LowerRest(s, t);
      MayElideLower(s, t);
      hide Lower, LowerAll, IsWord, MayElide, IsParticle;
      FirmLower(s[1..], t[1..], IsWord(s[0]));
    }
  }

  lemma SameLetter(s: string, t: string, i: nat)
    requires LowerAll(s) == LowerAll(t) && i < |s|
    ensures |s| == |t| && Lower(s[i]) == Lower(t[i]) && IsWord(s[i]) == IsWord(t[i]) && IsVowel(s[i]) == IsVowel(t[i])
    ensures s[i] == ' ' <==> t[i] == ' '
  {
    assert Lower(s[i]) == LowerAll(s)[i] == LowerAll(t)[i] == Lower(t[i]);
    LowerKeepsKind(s[i]);
    LowerKeepsKind(t[i]);
    LowerApostrophe(s[i]);
    LowerApostrophe(t[i]);
    hide Lower, IsWord;
  }

  lemma LowerRest(s: string, t: string)
    requires LowerAll(s) == LowerAll(t) && s != []
    ensures |s| == |t| && LowerAll(s[1..]) == LowerAll(t[1..])
  {
    hide Lower;
    assert LowerAll(s)[1..] == LowerAll(s[1..]) && LowerAll(t)[1..] == LowerAll(t[1..]);
  }

  lemma MayElideLower(s: string, t: string)
    requires LowerAll(s) == LowerAll(t)
    ensures MayElide(s) == MayElide(t)
  {
    hide Lower, IsWord, IsVowel;
    assert |LowerAll(s)| == |LowerAll(t)|;
    forall i | 0 <= i < |s|
      ensures Lower(s[i]) == Lower(t[i]) && IsVowel(s[i]) == IsVowel(t[i]) && (s[i] == ' ' <==> t[i] == ' ')
    {
      SameLetter(s, t, i);
    }
  }

  lemma SturdyLower(s: string, t: string)
    requires LowerAll(s) == LowerAll(t) && Sturdy(s)
    ensures Sturdy(t)
  {
    FirmLower(s, t, false);
    hide Lower, IsWord, IsVowel, Firm;
    assert |LowerAll(s)| == |LowerAll(t)|;
    forall i | 0 <= i < |s|
      ensures Lower(s[i]) == Lower(t[i]) && IsVowel(s[i]) == IsVowel(t[i]) && (s[i] == ' ' <==> t[i] == ' ')
    {
      SameLetter(s, t, i);
    }
  }

  lemma {:induction false} TrimRightKeeps(a: string, b: string) returns (d: string)
    requires a != [] && !IsSpace(a[|a| - 1])
    ensures TrimRight(a + b) == a + d
  {
    if b == [] || !IsSpace(b[|b| - 1]) {
      assert (a + b)[|a + b| - 1] == if b == [] then a[|a| - 1] else b[|b| - 1];
      d := b;
    } else {
      d := TrimRightKeeps(a, b[..|b| - 1]);
      assert (a + b)[..|a + b| - 1] == a + b[..|b| - 1];
    }
  }

  lemma LowerThree(u: string, m: string, v: string)
    ensures LowerAll(u + m + v) == LowerAll(u) + LowerAll(m) + LowerAll(v)
  {
    hide Lower;
  }

  /** A form has its complement if it shows, in any case, anywhere in it. */
  lemma PieceIsComplement(u: string, m: string, v: string, c: string)
    requires m != [] && LowerAll(m) == LowerAll(c) && !IsSpace(m[|m| - 1])
    ensures HasComplement(u + m + v, c)
  {
    hide Lower, Contains, IsSpace, TrimRight;
    LowerThree(u, m, v);
    var a, b := LowerAll(u) + LowerAll(m), LowerAll(v);
    assert a[|a| - 1] == Lower(m[|m| - 1]);
    LowerKeepsKind(m[|m| - 1]);
    var d := TrimRightKeeps(a, b);
    ContainsAt(LowerAll(u), LowerAll(c), d);
  }

  /** So does one that ends with its first word. */
  lemma LastIsComplement(u: string, m: string, b: string, c: string)
    requires m != [] && LowerAll(m) == Head(LowerAll(c), ' ') && !IsSpace(m[|m| - 1]) && Spaces(b)
    ensures HasComplement(u + m + b, c)
  {
    hide Lower, Contains, IsSpace, TrimRight, Head;
    LowerThree(u, m, b);
    var a := LowerAll(u) + LowerAll(m);
    assert a[|a| - 1] == Lower(m[|m| - 1]);
    LowerKeepsKind(m[|m| - 1]);
    forall i | 0 <= i < |b| ensures IsSpace(LowerAll(b)[i]) { LowerKeepsKind(b[i]); }
    TrimRightToWord(a, LowerAll(b));
    assert a[|u|..] == LowerAll(m);
  }

  lemma {:induction false} TrimRightToWord(a: string, b: string)
    requires a != [] && !IsSpace(a[|a| - 1]) && Spaces(b)
    ensures TrimRight(a + b) == a
  {
    if b == [] {
      assert a + b == a;
    } else {
      TrimRightToWord(a, b[..|b| - 1]);
      assert (a + b)[..|a + b| - 1] == a + b[..|b| - 1];
    }
  }

  lemma LowerSlice(x: string, i: nat, j: nat)
    requires i <= j <= |x|
    ensures LowerAll(x[i..j]) == LowerAll(x)[i..j]
  {
    hide Lower;
  }

  /** The form without the spaces at its end, and those spaces. */
  lemma TrimmedForm(x: string) returns (y: string, v: string)
    ensures x == y + v && Spaces(v)
    ensures LowerAll(y) == TrimRight(LowerAll(x))
    ensures y != [] ==> !IsSpace(y[|y| - 1])
  {
    hide Lower, IsSpace, TrimRight;
    var l := LowerAll(x);
    var n := |TrimRight(l)|;
    TrimRightDropsSpaces(l);
    y, v := x[..n], x[n..];
    LowerCut(x, n);
    hide LowerAll;
    LowerSpaces(v);
    if n > 0 { LowerLast(y); }
  }

  lemma LowerCut(x: string, n: nat)
    requires n <= |x|
    ensures LowerAll(x[..n]) == LowerAll(x)[..n] && LowerAll(x[n..]) == LowerAll(x)[n..]
  {
    hide Lower;
  }

  lemma LowerLast(y: string)
    requires y != []
    ensures IsSpace(y[|y| - 1]) == IsSpace(LowerAll(y)[|y| - 1])
  {
    LowerKeepsKind(y[|y| - 1]);
    hide Lower, IsSpace;
  }

  lemma WhereLast(x: string, f: string) returns (u: string, m: string, v: string)
    requires f != [] && EndsWith(TrimRight(LowerAll(x)), f)
    ensures x == u + m + v && m != [] && LowerAll(m) == f && Spaces(v) && !IsSpace(m[|m| - 1])
  {
    var y;
    y, v := TrimmedForm(x);
    hide *;
    u, m := SplitEnd(y, f);
  }

  lemma SplitEnd(y: string, f: string) returns (u: string, m: string)
    requires f != [] && EndsWith(LowerAll(y), f) && (y != [] ==> !IsSpace(y[|y| - 1]))
    ensures y == u + m && m != [] && LowerAll(m) == f && !IsSpace(m[|m| - 1])
  {
    hide Lower, IsSpace;
    var i := |y| - |f|;
    u, m := y[..i], y[i..];
    LowerSlice(y, i, |y|);
    assert y[i..|y|] == m && LowerAll(y)[i..|y|] == f;
  }

  lemma LowerSpaces(v: string)
    requires Spaces(LowerAll(v))
    ensures Spaces(v)
  {
    hide Lower, IsSpace;
    forall k | 0 <= k < |v| ensures IsSpace(v[k]) { LowerKeepsKind(v[k]); assert LowerAll(v)[k] == Lower(v[k]); }
  }

  lemma WhereWhole(x: string, c: string) returns (u: string, m: string, v: string)
    requires Contains(TrimRight(LowerAll(x)), LowerAll(c))
    ensures x == u + m + v && LowerAll(m) == LowerAll(c)
  {
    hide Lower, IsSpace, TrimRight, Contains;
    var l := LowerAll(x);
    var i := ContainsWhere(TrimRight(l), LowerAll(c));
    var j := i + |c|;
    u, m, v := x[..i], x[i..j], x[j..];
    LowerSlice(x, i, j);
    SliceOfPrefix(l, |TrimRight(l)|, i, j);
    hide LowerAll;
    ThreeParts(x, i, j);
  }

  lemma SliceOfPrefix(l: string, k: nat, i: nat, j: nat)
    requires i <= j <= k <= |l|
    ensures l[..k][i..j] == l[i..j]
  {
  }

  lemma ThreeParts(x: string, i: nat, j: nat)
    requires i <= j <= |x|
    ensures x == x[..i] + x[i..j] + x[j..]
  {
  }

  lemma EndIsContained(low: string, c: string)
    requires EndsWith(low, c)
    ensures Contains(low, c)
  {
    hide Contains;
    ContainsAt(low[..|low| - |c|], c, []);
    assert low == low[..|low| - |c|] + c + [];
  }

  /** Elision takes a sturdy complement, or its first word at the end, from no form. */
  lemma ElideKeepsComplement(x: string, c: string)
    requires Sturdy(c) && !IsSpace(c[|c| - 1]) && HasComplement(x, c)
    ensures HasComplement(Elide(x, true), c)
  {
    hide Lower, IsSpace, TrimRight, Contains, Elide, Sturdy;
    SturdyStart(c);
    var low, lc := TrimRight(LowerAll(x)), LowerAll(c);
    var f := Head(lc, ' ');
    if EndsWith(low, f) {
      LowerApostrophe(c[0]);
      assert f != [];
      var u, m, v := WhereLast(x, f);
      NoSpace(m, f);
      var y := ElideKeepsLast(u, m, v, true);
      LastIsComplement(y, m, v, c);
    } else {
      if EndsWith(low, lc) { EndIsContained(low, lc); }
      var u, m, v := WhereWhole(x, c);
      assert Lower(m[|m| - 1]) == LowerAll(m)[|m| - 1] == LowerAll(c)[|c| - 1] == Lower(c[|c| - 1]);
      LowerKeepsKind(m[|m| - 1]);
      LowerKeepsKind(c[|c| - 1]);
      SturdyLower(c, m);
      var y, z := ElideKeepsPiece(u, m, v, true);
      PieceIsComplement(y, m, z, c);
    }
  }

  lemma NoSpace(m: string, f: string)
    requires LowerAll(m) == f && ' ' !in f
    ensures ' ' !in m
  {
    LowerApostrophe(' ');
    hide Lower;
    forall i | 0 <= i < |m| ensures m[i] != ' ' {
      assert f[i] == Lower(m[i]);
    }
  }

  lemma RestoredHasComplement(x: string, bare: string)
    requires Complement(bare) != [] && !IsSpace(bare[|bare| - 1])
    ensures HasComplement(RestoreComplement(x, bare), Complement(bare))
    ensures var c := Complement(bare); !IsSpace(c[|c| - 1])
  {
    var c := Complement(bare);
    assert c[|c| - 1] == bare[|bare| - 1];
    hide IsSpace, HasComplement, Complement, Lower;
    if !HasComplement(x, c) {
      PieceIsComplement(x + " ", c, [], c);
      assert x + " " + c + [] == x + " " + c;
    }
  }

  /**
   So a verb settles for every form the model may write, when its complement is no part of an
   elision anywhere.
   */
  lemma VerbSettles(fr: string, bare: string, name: string)
    requires Complement(bare) == [] || (Survives(Complement(bare)) && !IsSpace(bare[|bare| - 1]))
    ensures VerbForm(VerbForm(fr, bare, name), bare, name) == VerbForm(fr, bare, name)
  {
    VerbSettlesIff(fr, bare, name);
    var c := Complement(bare);
    if c != [] {
      hide Complement, HasComplement, Elide, Sturdy, WithSubject, ElidesH, IsSpace, Lower;
      ComplementHeadword(bare);
      if c[0] == ' ' {
        AnyHasSpaced(VerbForm(fr, bare, name), c);
      } else {
        RestoredHasComplement(WithSubject(fr, bare, name), bare);
        ElideKeepsComplement(RestoreComplement(WithSubject(fr, bare, name), bare), c);
      }
    }
  }

  /** What a tidied verb form is for: it has its subject, and its complement if that is sturdy. */
  lemma VerbIsWhole(fr: string, bare: string, name: string)
    ensures !IsReflexive(bare) && !IsImpersonal(bare) ==> HasSubject(VerbForm(fr, bare, name))
    ensures Complement(bare) != [] && Survives(Complement(bare)) && !IsSpace(bare[|bare| - 1]) ==>
              HasComplement(VerbForm(fr, bare, name), Complement(bare))
  {
    if Complement(bare) != [] && Survives(Complement(bare)) && !IsSpace(bare[|bare| - 1]) {
      VerbSettles(fr, bare, name);
      VerbSettlesIff(fr, bare, name);
    }
    if !IsReflexive(bare) && !IsImpersonal(bare) {
      hide HasSubject, IsReflexive, IsImpersonal, Complement, HasComplement, Elide, ElidesH;
      if !HasSubject(fr) { JeIsSubject(fr); }
      var x := WithSubject(fr, bare, name);
      RestoreKeepsSubject(x, bare);
      ElideKeepsSubject(RestoreComplement(x, bare), ElidesH(bare));
    }
  }

  lemma AnyHasSpaced(x: string, c: string)
    requires c != [] && c[0] == ' '
    ensures HasComplement(x, c)
  {
    LowerApostrophe(' ');
    hide Lower;
    assert Head(LowerAll(c), ' ') == [];
    var low := TrimRight(LowerAll(x));
    assert low[|low|..] == [];
  }

  // ----- One that does not -----

  const FORM := "j'ai le ami"
  const TIDIED := "j'ai l'ami"

  lemma ScanLastWord(pass: Pass)
    ensures Scan(pass, "ami", false) == "ami"
  {
    hide IsWord, IsParticle, Follows;
    assert "ami"[1..] == "mi" && "mi"[1..] == "i" && "i"[1..] == "";
    assert !Elides(pass, "ami") && !Elides(pass, "mi") && !Elides(pass, "i");
    assert Scan(pass, "i", IsWord('m')) == "i";
    assert Scan(pass, "mi", IsWord('a')) == "mi";
  }

  lemma ScanAi(pass: Pass, rest: string)
    ensures Scan(pass, "j'ai " + rest, false) == "j'ai " + Scan(pass, rest, false)
  {
    hide Scan, Elides, Follows;
    assert IsWord('j') && AllWord("ai") && !IsParticle(pass, 'a', 'i');
    hide IsWord, IsParticle;
    var s := "ai" + " " + rest;
    NoElision(pass, "ai", rest);
    ScanAfterWord(pass, "ai", rest);
    ScanApostrophe(pass, 'j', s);
    assert "j'ai " + rest == "j'" + s;
    var t := Scan(pass, rest, false);
    assert "j'ai " + t == "j'" + ("ai" + " " + t);
  }

  lemma ScanLe()
    ensures Scan(Vowels, "le ami", false) == "l'ami"
  {
    assert Elides(Vowels, "le ami") by { assert IsVowel('a'); }
    hide Scan, Elides;
    assert "le ami"[3..] == "ami" && "l'" + "ami" == "l'ami";
    StepPast(Vowels, "le ami", "ami");
    ScanLastWord(Vowels);
  }

  lemma ScanL()
    ensures Scan(Aitch, "l'ami", false) == "l'ami"
  {
    assert IsWord('l');
    hide Scan, IsWord;
    assert "l'" + "ami" == "l'ami" && ['l', '\''] == "l'";
    ScanApostrophe(Aitch, 'l', "ami");
    ScanLastWord(Aitch);
  }

  lemma ElideForm()
    ensures Elide(FORM, true) == TIDIED
  {
    hide Scan;
    assert FORM == "j'ai " + "le ami" && TIDIED == "j'ai " + "l'ami";
    ScanAi(Vowels, "le ami");
    ScanLe();
    ScanAi(Aitch, "l'ami");
    ScanL();
  }

  lemma AvoirLe()
    ensures Complement("avoir le") == "le"
  {
    assert "avoir" + " " + "le" == "avoir le";
    HeadAndRest("avoir", "le");
    LowerPlain("avoir");
    hide Head, Rest, LowerAll;
  }

  lemma NoLeAnywhere()
    ensures !Contains(TIDIED, "le")
  {
    hide Contains;
    if Contains(TIDIED, "le") {
      var i := ContainsWhere(TIDIED, "le");
      LeWhere(i);
    }
  }

  lemma LeWhere(i: nat)
    requires i + 2 <= |TIDIED|
    ensures TIDIED[i..i + 2] != "le"
  {
    var m := TIDIED[i..i + 2];
    assert m[0] == TIDIED[i] && m[1] == TIDIED[i + 1];
    assert "le"[0] == 'l' && "le"[1] == 'e';
  }

  lemma NoLe()
    ensures !HasComplement(TIDIED, "le")
  {
    LowerPlain(TIDIED);
    LowerPlain("le");
    assert TrimRight(TIDIED) == TIDIED by { assert !IsSpace('i'); }
    assert Head("le", ' ') == "le" by { assert "le"[1..] == "e" && "e"[1..] == ""; }
    NoLeAnywhere();
    LeWhere(8);
    hide Lower, LowerAll, IsSpace, Contains, TrimRight, Head;
    assert TIDIED[|TIDIED| - 2..] == TIDIED[8..10];
  }

  lemma FormHasBoth()
    ensures HasSubject(FORM) && HasComplement(FORM, "le") && !Survives("le")
  {
    LowerPlain(FORM);
    assert LowerAll(FORM)[..2] == "j'";
    assert MayElide("le") by { assert Lower('l') == 'l' && Lower('e') == 'e'; }
    hide LowerAll, HasSubject, HasComplement, Lower, MayElide;
    SubjectFound(FORM, 1);
    assert FORM == "j'ai " + "le" + " ami";
    assert !IsSpace('e');
    PieceIsComplement("j'ai ", "le", " ami", "le");
  }

  /** The article that makes up "avoir le" is elided away, and then missed and added again. */
  lemma ArticleComesBack()
    ensures Complement("avoir le") == "le" && !Survives("le")
    ensures VerbForm(FORM, "avoir le", "") == TIDIED
    ensures VerbForm(TIDIED, "avoir le", "") != TIDIED
  {
    hide HasComplement, Complement, Elide, HasSubject, IsReflexive, IsImpersonal, ElidesH, LowerAll, Survives;
    AvoirLe();
    NoLe();
    ElideForm();
    FormHasBoth();
    ComplementHeadword("avoir le");
    assert WithSubject(FORM, "avoir le", "") == FORM;
    VerbSettlesIff(FORM, "avoir le", "");
  }
}
