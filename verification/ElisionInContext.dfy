/** How elision acts on a piece of a longer text. */
module ElisionInContext {
  import opened Text
  import opened Elision

  lemma ParticleLetters(pass: Pass, a: char, b: char)
    requires IsParticle(pass, a, b)
    ensures Lower(a) in "jmtsl" && (Lower(b) == 'e' || Lower(b) == 'a')
    ensures a != ' ' && a != '\'' && b != ' ' && b != '\''
    ensures IsParticle(Vowels, a, b)
  {
    Marks();
    hide IsWord;
  }

  lemma NoFollower(pass: Pass, c: char)
    requires IsSpace(c) || c == '\''
    ensures !Follows(pass, c)
  {
    if IsSpace(c) { SpaceIsNoLetter(c); }
    hide IsSpace;
  }

  /** Whether a text elides at its start shows in its first four characters. */
  lemma ElidesPrefix(pass: Pass, a: string, b: string)
    requires |a| >= 4
    ensures Elides(pass, a + b) == Elides(pass, a)
  {
    hide IsParticle, Follows;
  }

  // ----- A text that ends with a space or an apostrophe -----

  predicate Ends(s: string) { s != [] && (s[|s| - 1] == ' ' || s[|s| - 1] == '\'') }

  lemma EndsNoParticle(pass: Pass, a: string, b: string)
    requires Ends(a) && Elides(pass, a + b)
    ensures |a| >= 3
  {
    hide Lower;
    ParticleLetters(pass, (a + b)[0], (a + b)[1]);
  }

  /** What follows it is elided on its own. */
  lemma {:induction false} ScanTail(pass: Pass, a: string, c: string, inWord: bool) returns (x: string)
    requires Ends(a)
    ensures Ends(x) && Scan(pass, a + c, inWord) == x + Scan(pass, c, false)
    decreases |a|
  {
    hide IsWord, Elides;
    var s := a + c;
    Marks();
    if !inWord && Elides(pass, s) {
      EndsNoParticle(pass, a, c);
      if |a| == 3 {
        x := [s[0], '\''];
        assert s[3..] == c;
      } else {
        var y := ScanTail(pass, a[3..], c, false);
        x := [s[0], '\''] + y;
        assert s[3..] == a[3..] + c;
      }
    } else if |a| == 1 {
      x := a;
      assert s[1..] == c;
    } else {
      var y := ScanTail(pass, a[1..], c, IsWord(a[0]));
      x := [s[0]] + y;
      assert s[1..] == a[1..] + c;
    }
  }

  // ----- A piece that stays whole -----

  /** Some text that starts with this piece elides at its start, and the piece loses a letter by it. */
  predicate MayElide(s: string) {
    && |s| >= 2 && IsParticle(Vowels, s[0], s[1])
    && (|s| >= 3 ==> s[2] == ' ')
    && (|s| >= 4 ==> IsVowel(s[3]) || (Lower(s[3]) == 'h' && Lower(s[0]) != 'l'))
  }

  /** No letter of the piece can be elided by what starts in it, whatever follows. */
  predicate Firm(s: string, inWord: bool) {
    s == [] || (!(!inWord && MayElide(s)) && Firm(s[1..], IsWord(s[0])))
  }

  /** The piece may lose its first letters to a particle that starts before it. */
  predicate MayLoseStart(s: string) {
    && s != [] && (Lower(s[0]) == 'e' || Lower(s[0]) == 'a')
    && (|s| >= 2 ==> s[1] == ' ')
    && (|s| >= 3 ==> IsVowel(s[2]) || (Lower(s[2]) == 'h' && Lower(s[0]) == 'e'))
  }

  /** A piece that no elision in any text around it touches. */
  predicate Sturdy(s: string) {
    s != [] && s[0] != ' ' && Firm(s, false) && !MayLoseStart(s)
  }

  lemma FollowerOf(pass: Pass, a: char, b: char, c: char)
    requires IsParticle(pass, a, b) && Follows(pass, c)
    ensures IsVowel(c) || (Lower(c) == 'h' && Lower(a) != 'l' && Lower(b) == 'e')
  {
    hide Lower, IsVowel;
    assert 'l' !in "jmts";
  }

  lemma ElidesMay(pass: Pass, m: string, b: string)
    requires |m| >= 2 && Elides(pass, m + b)
    ensures MayElide(m)
  {
    var s := m + b;
    assert IsParticle(pass, s[0], s[1]) && Follows(pass, s[3]);
    ParticleLetters(pass, s[0], s[1]);
    FollowerOf(pass, s[0], s[1], s[3]);
    hide Lower, IsVowel, IsParticle, Follows;
    assert forall i :: 0 <= i < |m| ==> m[i] == s[i];
  }

  lemma {:induction false} ScanThrough(pass: Pass, m: string, b: string, inWord: bool, firm: bool) returns (y: string)
    requires Firm(m, firm) && (firm ==> inWord)
    ensures Scan(pass, m + b, inWord) == m + y
    decreases |m|
  {
    hide IsWord, Elides, MayElide, Scan, Firm;
    if m == [] {
      y := Scan(pass, b, inWord);
      assert m + b == b && m + y == y;
    } else if |m| == 1 {
      y := OneLetterStays(pass, m[0], b, inWord);
      assert m == [m[0]];
    } else {
      FirmStep(m, firm);
      if !inWord && Elides(pass, m + b) { ElidesMay(pass, m, b); }
      y := ScanThrough(pass, m[1..], b, IsWord(m[0]), IsWord(m[0]));
      StepOver(pass, m + b, inWord, m[1..] + b);
      PrependWord(m, y);
    }
  }

  /** The first letter stays even if it begins a particle. */
  lemma OneLetterStays(pass: Pass, c: char, b: string, inWord: bool) returns (y: string)
    ensures Scan(pass, [c] + b, inWord) == [c] + y
  {
    hide Scan;
    ScanStart(pass, [c] + b, inWord);
    var t := Scan(pass, [c] + b, inWord);
    y := t[1..];
  }

  lemma FirmStep(m: string, inWord: bool)
    requires m != [] && Firm(m, inWord)
    ensures Firm(m[1..], IsWord(m[0])) && (inWord || !MayElide(m))
  {
  }

  lemma LosesStart(pass: Pass, a: string, m: string, b: string)
    requires a != [] && m != [] && m[0] != ' ' && Elides(pass, a + m + b)
    requires |a| < 3
    ensures MayLoseStart(m)
  {
    var s := a + m + b;
    assert IsParticle(pass, s[0], s[1]) && Follows(pass, s[3]) && s[2] == ' ';
    ParticleLetters(pass, s[0], s[1]);
    FollowerOf(pass, s[0], s[1], s[3]);
    hide Lower, IsVowel, IsParticle, Follows;
    assert s[|a|] == m[0];
    assert |a| == 1;
    assert forall i :: 0 <= i < |m| ==> m[i] == s[i + 1];
  }

  /** A sturdy piece survives a pass over any text around it. */
  lemma {:induction false} ScanKeepsPiece(pass: Pass, a: string, m: string, b: string, inWord: bool)
      returns (x: string, y: string)
    requires Sturdy(m)
    ensures Scan(pass, a + m + b, inWord) == x + m + y
    decreases |a|
  {
    hide Sturdy, Scan, Elides, IsWord;
    var s := a + m + b;
    if a == [] {
      y := KeepsPieceHere(pass, m, b, inWord);
      x := [];
      assert s == m + b && x + m + y == m + y;
    } else {
      var n, h := ScanOneStep(pass, s, inWord);
      if |a| < n { SturdyStart(m); LosesStart(pass, a, m, b); }
      var u;
      u, y := ScanKeepsPiece(pass, a[n..], m, b, n == 1 && IsWord(s[0]));
      DropFront(a, m, b, n);
      x := h + u;
      Regroup(h, u, m, y);
    }
  }

  lemma KeepsPieceHere(pass: Pass, m: string, b: string, inWord: bool) returns (y: string)
    requires Sturdy(m)
    ensures Scan(pass, m + b, inWord) == m + y
  {
    y := ScanThrough(pass, m, b, inWord, false);
  }

  lemma DropFront(a: string, m: string, b: string, n: nat)
    requires n <= |a|
    ensures (a + m + b)[n..] == a[n..] + m + b
  {
  }

  /** One step of a pass: how much of the text it consumes, and what it writes. */
  lemma ScanOneStep(pass: Pass, s: string, inWord: bool) returns (n: nat, h: string)
    requires s != []
    ensures n == (if !inWord && Elides(pass, s) then 3 else 1) && n <= |s|
    ensures Scan(pass, s, inWord) == h + Scan(pass, s[n..], n == 1 && IsWord(s[0]))
  {
    hide IsWord;
    if !inWord && Elides(pass, s) {
      n, h := 3, [s[0], '\''];
    } else {
      n, h := 1, [s[0]];
    }
  }

  lemma Regroup(h: string, u: string, m: string, y: string)
    ensures h + (u + m + y) == h + u + m + y
  {
  }

  lemma SturdyStart(m: string)
    requires Sturdy(m)
    ensures m != [] && m[0] != ' ' && !MayLoseStart(m)
  {
  }

  lemma ElideKeepsPiece(a: string, m: string, b: string, beforeH: bool) returns (x: string, y: string)
    requires Sturdy(m)
    ensures Elide(a + m + b, beforeH) == x + m + y
  {
    hide Scan, Sturdy;
    x, y := ScanKeepsPiece(Vowels, a, m, b, false);
    if beforeH {
      x, y := ScanKeepsPiece(Aitch, x, m, y, false);
    }
  }

  // ----- The last word -----

  lemma ElidesNotLast(pass: Pass, a: string, m: string, b: string)
    requires Elides(pass, a + m + b) && ' ' !in m && Spaces(b)
    ensures |a| >= 3
  {
    var s := a + m + b;
    hide IsParticle, IsSpace, Follows;
    assert s[2] == ' ' && Follows(pass, s[3]);
    assert forall k :: |a| <= k < |a| + |m| ==> s[k] == m[k - |a|];
    assert forall k :: |a| + |m| <= k < |s| ==> s[k] == b[k - |a| - |m|];
    if IsSpace(s[3]) { NoFollower(pass, s[3]); }
  }

  lemma {:induction false} ScanKeepsLast(pass: Pass, a: string, m: string, b: string, inWord: bool) returns (x: string)
    requires ' ' !in m && Spaces(b)
    ensures Scan(pass, a + m + b, inWord) == x + m + b
    decreases |a|
  {
    hide IsWord, Elides, IsSpace, Scan;
    var s := a + m + b;
    if a == [] {
      ScanNothing(pass, s, m, b, inWord);
      x := [];
    } else {
      var n, h := ScanOneStep(pass, s, inWord);
      if n == 3 { ElidesNotLast(pass, a, m, b); }
      var u := ScanKeepsLast(pass, a[n..], m, b, n == 1 && IsWord(s[0]));
      DropFront(a, m, b, n);
      x := h + u;
      Regroup(h, u, m, b);
    }
  }

  lemma {:induction false} ScanNothing(pass: Pass, s: string, m: string, b: string, inWord: bool)
    requires s == m + b && ' ' !in m && Spaces(b)
    ensures Scan(pass, s, inWord) == s
    decreases |s|
  {
    hide IsWord, Elides, IsSpace;
    if s != [] {
      assert [] + m + b == s;
      if Elides(pass, s) { ElidesNotLast(pass, [], m, b); }
      if m != [] {
        assert s[1..] == m[1..] + b;
        ScanNothing(pass, s[1..], m[1..], b, IsWord(s[0]));
      } else {
        assert s[1..] == m + b[1..];
        ScanNothing(pass, s[1..], m, b[1..], IsWord(s[0]));
      }
    }
  }

  /** So does its last word, with the spaces behind it. */
  lemma ElideKeepsLast(a: string, m: string, b: string, beforeH: bool) returns (x: string)
    requires ' ' !in m && Spaces(b)
    ensures Elide(a + m + b, beforeH) == x + m + b
  {
    hide Scan, IsSpace;
    x := ScanKeepsLast(Vowels, a, m, b, false);
    if beforeH {
      x := ScanKeepsLast(Aitch, x, m, b, false);
    }
  }

  // ----- A longer text stays longer -----

  lemma ElidesBefore(pass: Pass, a: string, c: char, rest: string)
    requires c == ' ' || c == '\''
    requires Elides(pass, a + [c] + rest) && !(|a| >= 4 && Elides(pass, a))
    ensures |a| == 2 && c == ' '
  {
    hide *;
    var s := a + [c] + rest;
    assert s == a + ([c] + rest) && s[|a|] == c;
    if |a| >= 4 { ElidesPrefix(pass, a, [c] + rest); }
    ElidesLetters(pass, s);
  }

  lemma ElidesLetters(pass: Pass, s: string)
    requires Elides(pass, s)
    ensures |s| >= 4 && s[2] == ' '
    ensures s[0] != ' ' && s[1] != ' ' && s[3] != ' ' && s[0] != '\'' && s[1] != '\'' && s[3] != '\''
  {
    ParticleLetters(pass, s[0], s[1]);
    SpacesFollowNot(pass);
    hide IsParticle, Follows, Lower;
  }

  lemma SpacesFollowNot(pass: Pass)
    ensures !Follows(pass, ' ') && !Follows(pass, '\'')
  {
    assert IsSpace(' ');
    NoFollower(pass, ' ');
    NoFollower(pass, '\'');
  }

  /** Settled text, a space and more: only the last particle can be elided. */
  lemma {:induction false} ScanJoin(pass: Pass, a: string, c: string, inWord: bool)
    requires Elided(pass, a, inWord)
    ensures var t, d := Scan(pass, a + " " + c, inWord), Scan(pass, c, false);
            t == a + " " + d || (|a| >= 2 && t == a[..|a| - 1] + "'" + d)
    decreases |a|
  {
    hide IsWord, Elides, Scan, Elided;
    Marks();
    var s, d := a + " " + c, Scan(pass, c, false);
    if !inWord && Elides(pass, s) {
      ElidedNow(pass, a, inWord);
      ElidesBefore(pass, a, ' ', c);
      StepPast(pass, s, c);
      assert a[..1] == [s[0]];
    } else if a == [] {
      StepOver(pass, s, inWord, c);
      assert s == " " + c && a + " " + d == " " + d;
    } else {
      var b := a[1..];
      ElidedNow(pass, a, inWord);
      ScanJoin(pass, b, c, IsWord(a[0]));
      StepOver(pass, s, inWord, b + " " + c);
      PutBack(a, " ", d);
      if |a| >= 3 { PutBackShort(a, "'", d); }
    }
  }

  lemma ElidedNow(pass: Pass, a: string, inWord: bool)
    requires Elided(pass, a, inWord)
    ensures a != [] ==> Elided(pass, a[1..], IsWord(a[0])) && (inWord || !Elides(pass, a))
    ensures a == [] ==> !Elides(pass, a)
  {
  }

  lemma PutBack(a: string, m: string, d: string)
    requires a != []
    ensures [a[0]] + (a[1..] + m + d) == a + m + d
  {
  }

  lemma PutBackShort(a: string, m: string, d: string)
    requires |a| >= 3
    ensures [a[0]] + (a[1..][..|a[1..]| - 1] + m + d) == a[..|a| - 1] + m + d
  {
    assert [a[0]] + a[1..][..|a[1..]| - 1] == a[..|a| - 1];
  }

  lemma {:induction false} ScanPastApostrophe(pass: Pass, a: string, c: string, inWord: bool)
    requires a != [] && Elided(pass, a, inWord)
    ensures Scan(pass, a[..|a| - 1] + "'" + c, inWord) == a[..|a| - 1] + "'" + Scan(pass, c, false)
    decreases |a|
  {
    hide IsWord, Elides;
    Marks();
    var b := a[..|a| - 1];
    var s := b + "'" + c;
    if !inWord && Elides(pass, s) {
      if |b| >= 4 { assert a == b + [a[|b|]]; ElidesTwice(pass, b, a, s); }
      ElidesBefore(pass, b, '\'', c);
    }
    if b == [] {
      assert s[1..] == c && s == "'" + c;
    } else {
      ScanPastApostrophe(pass, a[1..], c, IsWord(a[0]));
      assert a[1..][..|a| - 2] == b[1..];
      assert s[1..] == b[1..] + "'" + c;
      assert [b[0]] + (b[1..] + "'" + Scan(pass, c, false)) == b + "'" + Scan(pass, c, false);
    }
  }

  lemma ElidesTwice(pass: Pass, b: string, a: string, s: string)
    requires |b| >= 4 && |a| >= |b| && |s| >= |b| && a[..|b|] == b && s[..|b|] == b
    ensures Elides(pass, a) == Elides(pass, b) == Elides(pass, s)
  {
    assert a == b + a[|b|..] && s == b + s[|b|..];
    ElidesPrefix(pass, b, a[|b|..]);
    ElidesPrefix(pass, b, s[|b|..]);
  }

  /** Appending to settled text changes it for good. */
  lemma AppendLengthens(a: string, c: string)
    requires Settled(a, true) && c != []
    ensures |Elide(a + " " + c, true)| > |a|
  {
    hide Scan, Elided;
    var t, d := Scan(Vowels, a + " " + c, false), Scan(Vowels, c, false);
    ScanStart(Vowels, c, false);
    ScanStart(Aitch, d, false);
    ScanJoin(Vowels, a, c, false);
    if t == a + " " + d {
      ScanJoin(Aitch, a, d, false);
    } else {
      ScanPastApostrophe(Aitch, a, d, false);
    }
  }
}
