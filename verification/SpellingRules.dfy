/** What respelling and the shared lookup do to a word, case by case and in the numbers of the source. */
module SpellingRules {
  import opened Options
  import opened Text
  import opened Lexicon
  import opened Lookup
  import opened RespelledKeys

  // ----- What the table holds -----

  lemma LoadedStep(lines: seq<Line>)
    requires lines != []
    ensures Loaded(lines) == AddLine(Loaded(lines[..|lines| - 1]), lines[|lines| - 1])
  {
  }

  /** A form is filed with what its last line says. */
  lemma {:induction false} LoadedAsWritten(lines: seq<Line>, i: nat)
    requires i < |lines| && forall j :: i < j < |lines| ==> lines[j].form != lines[i].form
    ensures var forms, line := Loaded(lines).forms, lines[i];
            line.form in forms && forms[line.form] == Form(line.pos, line.freq, line.note)
  {
    LoadedStep(lines);
    hide Loaded, Fold;
    if i < |lines| - 1 { LoadedAsWritten(lines[..|lines| - 1], i); }
  }

  lemma {:induction false} KeyIsFiled(lines: seq<Line>, i: nat)
    requires i < |lines|
    ensures Fold(lines[i].form) in Loaded(lines).best
  {
    LoadedStep(lines);
    hide Loaded, Fold;
    if i < |lines| - 1 { KeyIsFiled(lines[..|lines| - 1], i); }
  }

  lemma {:induction false} FiledIsWritten(lines: seq<Line>, k: string) returns (i: nat)
    requires k in Loaded(lines).best
    ensures i < |lines| && lines[i].form == Loaded(lines).best[k] && Fold(lines[i].form) == k
  {
    if lines != [] {
      LoadedStep(lines);
      var n := |lines| - 1;
      hide Loaded, Fold;
      if Loaded(lines).best[k] == lines[n].form && Fold(lines[n].form) == k {
        i := n;
      } else {
        i := FiledIsWritten(lines[..n], k);
      }
    }
  }

  /** What the last line does to the form filed under a key: it takes its place, or stays behind it. */
  lemma LastLineFiled(lines: seq<Line>, k: string)
    requires DistinctForms(lines) && lines != [] && k in Loaded(lines).best
    ensures var t, last, now := Loaded(lines[..|lines| - 1]), lines[|lines| - 1], Loaded(lines).best[k];
            if now == last.form then k in t.best ==> t.forms[t.best[k]].freq < last.freq
            else k in t.best && t.best[k] == now && (Fold(last.form) == k ==> last.freq <= t.forms[now].freq)
  {
    var before, last := lines[..|lines| - 1], lines[|lines| - 1];
    LoadedStep(lines);
    LoadedForms(before);
    hide Loaded, Fold;
    assert last.form !in Loaded(before).forms;
  }

  ghost predicate IsFiled(lines: seq<Line>, i: nat) {
    i < |lines| && Fold(lines[i].form) in Loaded(lines).best && Loaded(lines).best[Fold(lines[i].form)] == lines[i].form
  }

  ghost predicate SameKey(a: Line, b: Line) { Fold(a.form) == Fold(b.form) }

  lemma DistinctFront(lines: seq<Line>)
    requires DistinctForms(lines) && lines != []
    ensures DistinctForms(lines[..|lines| - 1])
  {
  }

  lemma NotAgain(lines: seq<Line>, i: nat)
    requires DistinctForms(lines) && i < |lines| - 1
    ensures lines[i].form != lines[|lines| - 1].form
  {
  }

  lemma FiledAsWritten(lines: seq<Line>, i: nat)
    requires DistinctForms(lines) && i < |lines|
    ensures lines[i].form in Loaded(lines).forms && Loaded(lines).forms[lines[i].form].freq == lines[i].freq
  {
    LoadedAsWritten(lines, i);
    hide Loaded;
  }

  lemma InFront(lines: seq<Line>, i: nat)
    requires i < |lines| - 1
    ensures lines[..|lines| - 1][i] == lines[i]
  {
  }

  lemma FiledBefore(lines: seq<Line>, i: nat)
    requires DistinctForms(lines) && i < |lines| - 1 && IsFiled(lines, i)
    ensures var before, last := lines[..|lines| - 1], lines[|lines| - 1];
            IsFiled(before, i) && (SameKey(last, lines[i]) ==> last.freq <= lines[i].freq)
  {
    var before := lines[..|lines| - 1];
    LastLineFiled(lines, Fold(lines[i].form));
    DistinctFront(lines);
    NotAgain(lines, i);
    InFront(lines, i);
    hide Loaded, Fold, DistinctForms;
    FiledAsWritten(before, i);
  }

  lemma FiledLast(lines: seq<Line>, j: nat) returns (b: nat)
    requires DistinctForms(lines) && j < |lines| - 1
    requires IsFiled(lines, |lines| - 1) && SameKey(lines[j], lines[|lines| - 1])
    ensures var before, last := lines[..|lines| - 1], lines[|lines| - 1];
            IsFiled(before, b) && b < |before| && SameKey(lines[j], before[b]) && before[b].freq < last.freq
  {
    var n := |lines| - 1;
    var before, k := lines[..n], Fold(lines[n].form);
    LastLineFiled(lines, k);
    DistinctFront(lines);
    InFront(lines, j);
    hide Loaded, Fold, DistinctForms;
    KeyIsFiled(before, j);
    b := FiledIsWritten(before, k);
    FiledAsWritten(before, b);
  }

  /** Line `i` is as frequent as line `j`, and strictly more so if `j` comes first. */
  ghost predicate Leads(lines: seq<Line>, i: nat, j: nat)
    requires i < |lines| && j < |lines|
  {
    lines[j].freq <= lines[i].freq && (j < i ==> lines[j].freq < lines[i].freq)
  }

  /** The form filed under a key is the first of the most frequent ones with that key. */
  lemma {:induction false} FiledIsFirstMostFrequent(lines: seq<Line>, i: nat, j: nat)
    requires DistinctForms(lines) && i < |lines| && j < |lines| && IsFiled(lines, i) && SameKey(lines[j], lines[i])
    ensures Leads(lines, i, j)
    decreases |lines|
  {
    hide Loaded, Fold, DistinctForms, IsFiled, SameKey;
    var n := |lines| - 1;
    DistinctFront(lines);
    if i < n {
      FiledBefore(lines, i);
      InFront(lines, i);
      if j < n {
        InFront(lines, j);
        FiledIsFirstMostFrequent(lines[..n], i, j);
      }
    } else if j < n {
      var b := FiledLast(lines, j);
      InFront(lines, j);
      FiledIsFirstMostFrequent(lines[..n], b, j);
    }
  }

  // ----- Which words give way -----

  ghost predicate IsTable(t: Table) { forall k :: k in t.best ==> t.best[k] in t.forms }

  /** The form that shares the word's key and is the most frequent of those that do. */
  ghost predicate UsualForm(t: Table, word: string, top: string)
    requires IsTable(t)
  {
    Fold(LowerAll(word)) in t.best && t.best[Fold(LowerAll(word))] == top && top != []
  }

  /** A form in the case of the word: with a capital if the word has one. */
  function InCaseOf(top: string, word: string): string
    requires top != []
  {
    if word != [] && IsUpper(word[0]) then Upper(top[0]) + top[1..] else top
  }

  /**
   A word stays if no form shares its key, and "du" and "des" always do. Otherwise it gives way to the
   usual form, unless it is that form with its ligatures spelled out, or a form of its own that is more
   than a twentieth as frequent.
   */
  lemma WordGivesWayIff(t: Table, word: string, top: string)
    requires IsTable(t) && UsualForm(t, word, top)
    ensures var low := LowerAll(word);
            var kept := low == "du" || low == "des" || top == SpellOut(low)
                        || (low in t.forms && 20.0 * t.forms[low].freq > t.forms[top].freq);
            RespellWord(t, word) == if kept then word else InCaseOf(top, word)
  {
    hide Fold, SpellOut;
  }

  lemma UnknownWordStays(t: Table, word: string)
    requires IsTable(t)
    requires forall top :: !UsualForm(t, word, top)
    ensures RespellWord(t, word) == word
  {
    hide Fold;
    if Fold(LowerAll(word)) in t.best {
      assert !UsualForm(t, word, t.best[Fold(LowerAll(word))]);
    }
  }

  /** Spelling out replaces each ligature by its two letters, and nothing else. */
  lemma {:induction false} SpellOutConcat(a: string, b: string)
    ensures SpellOut(a + b) == SpellOut(a) + SpellOut(b)
    ensures SpellOut("œ") == "oe" && SpellOut("æ") == "ae"
    ensures 'œ' !in a && 'æ' !in a ==> SpellOut(a) == a
  {
    hide *;
    SpellOutOne();
    if a == [] {
      assert a + b == b;
    } else {
      SpellOutConcat(a[1..], b);
      assert a + b == [a[0]] + (a[1..] + b) && a == [a[0]] + a[1..];
      SpellOutStep(a[0], a[1..] + b);
      SpellOutStep(a[0], a[1..]);
      assert a[0] in a;
    }
  }

  lemma SpellOutOne()
    ensures SpellOut([]) == [] && SpellOut("œ") == "oe" && SpellOut("æ") == "ae"
  {
    assert "œ"[1..] == [] && "æ"[1..] == [];
  }

  lemma SpellOutStep(c: char, rest: string)
    ensures SpellOut([c] + rest) == SpellOut([c]) + SpellOut(rest)
    ensures c != 'œ' && c != 'æ' ==> SpellOut([c]) == [c]
  {
    assert ([c] + rest)[1..] == rest && [c][1..] == [];
    assert SpellOut([]) == [];
  }

  // ----- Where the ligature is written -----

  /** An o and an e before u or il, in any case. */
  ghost predicate OeAt(s: string, i: nat) {
    && i + 2 < |s| && Lower(s[i]) == 'o' && Lower(s[i + 1]) == 'e'
    && (Lower(s[i + 2]) == 'u' || (i + 3 < |s| && Lower(s[i + 2]) == 'i' && Lower(s[i + 3]) == 'l'))
  }

  lemma OeShift(s: string, i: nat)
    requires s != []
    ensures OeAt(s[1..], i) <==> OeAt(s, i + 1)
    ensures OeHere(s) <==> OeAt(s, 0)
  {
    hide Lower;
  }

  /** Text with no such place is left alone; otherwise the first of them becomes a ligature in its case. */
  lemma {:induction false} FirstLigature(s: string, i: nat)
    requires i <= |s| && forall k: nat :: k < i ==> !OeAt(s, k)
    ensures OeAt(s, i) ==>
              WriteLigatures(s) == s[..i] + [if s[i] == 'O' then 'Œ' else 'œ'] + WriteLigatures(s[i + 2..])
    ensures i == |s| ==> WriteLigatures(s) == s
  {
    if s != [] {
      OeShift(s, 0);
      if i > 0 {
        assert !OeAt(s, 0);
        forall k: nat | k < i - 1 ensures !OeAt(s[1..], k) { OeShift(s, k); }
        OeShift(s, i - 1);
        hide OeHere, Lower;
        FirstLigature(s[1..], i - 1);
        assert s[..i] == [s[0]] + s[1..][..i - 1];
        if OeAt(s, i) { assert s[1..][i - 1 + 2..] == s[i + 2..]; }
      } else {
        assert s[..0] == [];
      }
    }
  }

  /** And none is left. */
  lemma {:induction false} NoPlaceIsLeft(s: string, i: nat)
    ensures !OeAt(WriteLigatures(s), i)
    decreases |s|
  {
    if s != [] {
      var t := WriteLigatures(s);
      OeShift(s, 0);
      if t != [] { OeShift(t, if i > 0 then i - 1 else 0); }
      if OeHere(s) {
        assert t[1..] == WriteLigatures(s[2..]) && Lower(t[0]) == 'œ';
        if i > 0 { NoPlaceIsLeft(s[2..], i - 1); }
      } else {
        assert t[1..] == WriteLigatures(s[1..]) && t[0] == s[0];
        if i > 0 { NoPlaceIsLeft(s[1..], i - 1); } else { NoNewPlace(s); }
      }
    }
  }

  lemma LigatureStart(s: string)
    ensures s == [] <==> WriteLigatures(s) == []
    ensures s != [] ==> WriteLigatures(s)[0] == s[0] || Lower(WriteLigatures(s)[0]) == 'œ'
    ensures s != [] && Lower(s[0]) != 'o' ==>
              WriteLigatures(s)[0] == s[0] && WriteLigatures(s)[1..] == WriteLigatures(s[1..])
  {
  }

  lemma PlaceWasThere(s: string)
    requires s != [] && OeAt([s[0]] + WriteLigatures(s[1..]), 0)
    ensures OeAt(s, 0)
  {
    var t := [s[0]] + WriteLigatures(s[1..]);
    assert t[1..] == WriteLigatures(s[1..]);
    LigatureStart(s[1..]);
    assert Lower(t[1]) == 'e';
    assert t[1] == s[1] && s[1..][1..] == s[2..];
    assert t[2..] == WriteLigatures(s[2..]);
    LigatureStart(s[2..]);
    assert t[2] == s[2] && s[2..][1..] == s[3..];
    assert t[3..] == WriteLigatures(s[3..]);
    LigatureStart(s[3..]);
  }

  lemma NoNewPlace(s: string)
    requires s != [] && !OeHere(s)
    ensures !OeAt([s[0]] + WriteLigatures(s[1..]), 0)
  {
    OeShift(s, 0);
    hide OeAt, OeHere, WriteLigatures;
    if OeAt([s[0]] + WriteLigatures(s[1..]), 0) { PlaceWasThere(s); }
  }

  // ----- A text, word by word -----

  ghost predicate NoSeparator(w: string) { forall c :: c in w ==> !IsSeparator(c) }

  ghost predicate OnlySeparators(w: string) { forall c :: c in w ==> IsSeparator(c) }

  lemma SplitFirst(w: string, sep: string, rest: string)
    requires NoSeparator(w) && sep != [] && OnlySeparators(sep) && (rest != [] ==> !IsSeparator(rest[0]))
    ensures Split(w + sep + rest) == [w, sep] + Split(rest)
  {
    hide IsSeparator;
    var s, z := w + sep + rest, sep + rest;
    assert s == w + z && z[0] == sep[0] && sep[0] in sep;
    RunOf(w, z, false);
    assert s[..|w|] == w && s[|w|..] == z && s[|w|..|w| + |sep|] == sep && s[|w| + |sep|..] == rest;
    RunOf(sep, rest, true);
  }

  lemma SplitOnly(w: string)
    requires NoSeparator(w)
    ensures Split(w) == [w]
  {
    hide IsSeparator;
    RunOf(w, [], false);
    assert w + [] == w;
  }

  lemma {:induction false} PartsEvenly(t: Table, parts: seq<string>, i: nat)
    requires IsTable(t)
    ensures RespellParts(t, parts, i + 2) == RespellParts(t, parts, i)
    decreases |parts|
  {
    hide RespellWord;
    if parts != [] { PartsEvenly(t, parts[1..], i + 1); }
  }

  lemma FirstTwoParts(t: Table, w: string, sep: string, parts: seq<string>)
    requires IsTable(t)
    ensures RespellParts(t, [w, sep] + parts, 0) == [RespellWord(t, w), sep] + RespellParts(t, parts, 0)
  {
    hide RespellWord;
    PartsEvenly(t, parts, 0);
    var z := [sep] + parts;
    assert ([w, sep] + parts)[1..] == z && z[1..] == parts;
    assert RespellParts(t, z, 1) == [sep] + RespellParts(t, parts, 2);
  }

  lemma SeparatorLetters(c: char)
    requires IsSeparator(c)
    ensures Lower(c) !in "oeuil"
  {
    LowerKeepsKind(c);
    if IsSpace(c) { assert Lower(c) == c; } else { assert Lower(c) == c; }
    hide Lower;
  }

  lemma NoOeAcross(a: string, c: char, b: string)
    requires IsSeparator(c) && a != []
    ensures OeHere(a + [c] + b) == OeHere(a)
  {
    var s := a + [c] + b;
    SeparatorLetters(c);
    assert s[|a|] == c && forall k :: 0 <= k < |a| ==> s[k] == a[k];
    hide Lower, IsSeparator;
  }

  lemma {:induction false} LigaturesApart(a: string, c: char, b: string)
    requires IsSeparator(c)
    ensures WriteLigatures(a + [c] + b) == WriteLigatures(a) + [c] + WriteLigatures(b)
    decreases |a|
  {
    hide *;
    var s := a + [c] + b;
    if a == [] {
      NoOeAt(c, b);
      assert s == [c] + b;
      LigatureStep(s);
      assert s[1..] == b;
      NoLigatures();
      assert [] + [c] + WriteLigatures(b) == [c] + WriteLigatures(b);
    } else {
      NoOeAcross(a, c, b);
      LigatureStep(a);
      LigatureStep(s);
      var n := if OeHere(a) then 2 else 1;
      assert s[n..] == a[n..] + [c] + b && s[0] == a[0];
      LigaturesApart(a[n..], c, b);
    }
  }

  lemma NoOeAt(c: char, b: string)
    requires IsSeparator(c)
    ensures !OeHere([c] + b)
  {
    SeparatorLetters(c);
    hide Lower, IsSeparator;
  }

  lemma LigatureStep(s: string)
    requires s != []
    ensures OeHere(s) ==> |s| >= 3
    ensures WriteLigatures(s) == if OeHere(s) then [if s[0] == 'O' then 'Œ' else 'œ'] + WriteLigatures(s[2..])
                                 else [s[0]] + WriteLigatures(s[1..])
  {
  }

  lemma {:induction false} SeparatorsStay(sep: string, b: string)
    requires OnlySeparators(sep)
    ensures WriteLigatures(sep + b) == sep + WriteLigatures(b)
  {
    hide *;
    if sep == [] {
      assert sep + b == b;
      assert sep + WriteLigatures(b) == WriteLigatures(b);
    } else {
      FirstSeparator(sep);
      SeparatorsStay(sep[1..], b);
      LigaturesApart([], sep[0], sep[1..] + b);
      NoLigatures();
      PutInFront(sep, b);
      PutInFront(sep, WriteLigatures(b));
    }
  }

  lemma FirstSeparator(sep: string)
    requires OnlySeparators(sep) && sep != []
    ensures IsSeparator(sep[0]) && OnlySeparators(sep[1..])
  {
    hide IsSeparator;
  }

  lemma PutInFront(sep: string, b: string)
    requires sep != []
    ensures [] + [sep[0]] + (sep[1..] + b) == sep + b
  {
  }

  lemma NoLigatures()
    ensures WriteLigatures([]) == []
  {
  }

  lemma LigaturesByWord(a: string, sep: string, b: string)
    requires sep != [] && OnlySeparators(sep)
    ensures WriteLigatures(a + sep + b) == WriteLigatures(a) + sep + WriteLigatures(b)
  {
    hide WriteLigatures, IsSeparator;
    assert sep[0] in sep;
    var z := sep[1..] + b;
    LigaturesApart(a, sep[0], z);
    SeparatorsStay(sep[1..], b);
    assert a + [sep[0]] + z == a + sep + b;
    assert WriteLigatures(a) + [sep[0]] + (sep[1..] + WriteLigatures(b)) == WriteLigatures(a) + sep + WriteLigatures(b);
  }

  /**
   A text is respelled word by word: each word gives way or not on its own and then gets its
   ligatures, and what stands between the words stays.
   */
  lemma TextIsRespelledByWord(t: Table, w: string, sep: string, rest: string)
    requires IsTable(t) && NoSeparator(w)
    requires sep != [] && OnlySeparators(sep) && (rest != [] ==> !IsSeparator(rest[0]))
    ensures Respell(t, w) == WriteLigatures(RespellWord(t, w))
    ensures Respell(t, w + sep + rest) == Respell(t, w) + sep + Respell(t, rest)
  {
    hide IsSeparator, RespellWord, WriteLigatures, Split, RespellParts, Join, NoSeparator, OnlySeparators;
    SplitFirst(w, sep, rest);
    SplitOnly(w);
    var parts := RespellParts(t, Split(rest), 0);
    OnePart(t, w);
    FirstTwoParts(t, w, sep, Split(rest));
    JoinTwo(RespellWord(t, w), sep, parts);
    JoinOne(RespellWord(t, w));
    LigaturesByWord(RespellWord(t, w), sep, Join(parts));
  }

  lemma OnePart(t: Table, w: string)
    requires IsTable(t)
    ensures RespellParts(t, [w], 0) == [RespellWord(t, w)]
  {
    hide RespellWord;
    assert [w][1..] == [];
  }

  // ----- Characters -----

  /** What ends a word and what does not. */
  lemma WordsEndAt(c: char)
    ensures c in " \t\n\r" || c == '\U{a0}' || c == '\U{202f}' ==> IsSpace(c)
    ensures IsSpace(c) || c in "'’-" <==> IsSeparator(c)
    ensures 'a' <= c <= 'z' || 'A' <= c <= 'Z' || '0' <= c <= '9' ==> IsWord(c)
    ensures c in "àâäæçéèêëîïôöœùûüÿ" || c in "ÀÂÄÆÇÉÈÊËÎÏÔÖŒÙÛÜŸ" ==> IsWord(c)
    ensures IsWord(c) ==> !IsSeparator(c)
  {
  }

  // ----- Folding -----

  /** The accents and ligatures of French, in either case, fold to the letters under them; plain text stays. */
  lemma FrenchLettersFold(c: char)
    ensures c in "àâÀÂ" ==> FoldChar(c) == "a" && Accents(c) == 1
    ensures c in "çÇ" ==> FoldChar(c) == "c" && Accents(c) == 1
    ensures c in "éèêëÉÈÊË" ==> FoldChar(c) == "e" && Accents(c) == 1
    ensures c in "îïÎÏ" ==> FoldChar(c) == "i" && Accents(c) == 1
    ensures c in "ôöÔÖ" ==> FoldChar(c) == "o" && Accents(c) == 1
    ensures c in "ùûüÙÛÜ" ==> FoldChar(c) == "u" && Accents(c) == 1
    ensures c in "ÿŸ" ==> FoldChar(c) == "y" && Accents(c) == 1
    ensures c in "œŒ" ==> FoldChar(c) == "oe" && Accents(c) == 0
    ensures c in "æÆ" ==> FoldChar(c) == "ae" && Accents(c) == 0
    ensures 'a' <= c <= 'z' || '0' <= c <= '9' || c in " '-" ==> FoldChar(c) == [c] && Accents(c) == 0
    ensures 'A' <= c <= 'Z' ==> FoldChar(c) == [(c as int + 32) as char] && Accents(c) == 0
  {
    SmallLettersFold(c);
    SmallLettersFold(Lower(c));
    LowerKeepsFold(c);
    CapitalsLower(c);
    hide *;
  }

  lemma SmallLettersFold(c: char)
    ensures c in "àâ" ==> FoldChar(c) == "a" && Accents(c) == 1
    ensures c == 'ç' ==> FoldChar(c) == "c" && Accents(c) == 1
    ensures c in "éèêë" ==> FoldChar(c) == "e" && Accents(c) == 1
    ensures c in "îï" ==> FoldChar(c) == "i" && Accents(c) == 1
    ensures c in "ôö" ==> FoldChar(c) == "o" && Accents(c) == 1
    ensures c in "ùûü" ==> FoldChar(c) == "u" && Accents(c) == 1
    ensures c == 'ÿ' ==> FoldChar(c) == "y" && Accents(c) == 1
    ensures c == 'œ' ==> FoldChar(c) == "oe" && Accents(c) == 0
    ensures c == 'æ' ==> FoldChar(c) == "ae" && Accents(c) == 0
    ensures 'a' <= c <= 'z' || '0' <= c <= '9' || c in " '-" ==> FoldChar(c) == [c] && Accents(c) == 0
  {
  }

  lemma CapitalsLower(c: char)
    ensures c in "ÀÂ" ==> Lower(c) in "àâ"
    ensures c == 'Ç' ==> Lower(c) == 'ç'
    ensures c in "ÉÈÊË" ==> Lower(c) in "éèêë"
    ensures c in "ÎÏ" ==> Lower(c) in "îï"
    ensures c in "ÔÖ" ==> Lower(c) in "ôö"
    ensures c in "ÙÛÜ" ==> Lower(c) in "ùûü"
    ensures c == 'Ÿ' ==> Lower(c) == 'ÿ'
    ensures c == 'Œ' ==> Lower(c) == 'œ'
    ensures c == 'Æ' ==> Lower(c) == 'æ'
    ensures 'A' <= c <= 'Z' ==> Lower(c) == (c as int + 32) as char
    ensures Accents(Lower(c)) == Accents(c)
  {
  }

  // ----- The headword of a lookup -----

  /** A word typed with accents is never put through the table; without a proposal it stays as typed. */
  lemma AccentsAreKept(t: Table, other: Table, typed: string, proposed: string, digest: string -> string)
    requires IsTable(t) && IsTable(other) && AccentCount(typed) > 0
    ensures Headword(t, typed, proposed, digest) == Headword(other, typed, proposed, digest)
    ensures proposed == [] ==> Headword(t, typed, proposed, digest) == typed
  {
    hide LookupSlug, NormalizeLemma, Respell;
  }

  /**
   Without accents the proposal, or else the word itself, is taken as French usually writes it, if
   that is the same word.
   */
  lemma UsualSpellingIsTaken(t: Table, typed: string, proposed: string, digest: string -> string)
    requires IsTable(t) && AccentCount(typed) == 0
    ensures var usual := Respell(t, if proposed == [] then typed else proposed);
            var key := LookupSlug(usual, digest);
            0 < |usual| <= 128 && key.Some? && key == LookupSlug(typed, digest) ==>
              NormalizeLemma(usual) == Some(Headword(t, typed, proposed, digest))
  {
    hide Slugify, KeyOf, Respell, AccentCount;
  }

  /** A proposal that is the same word with no accent lost is taken for a word typed with accents. */
  lemma BetterSpellingIsTaken(t: Table, typed: string, proposed: string, digest: string -> string)
    requires IsTable(t) && AccentCount(typed) > 0 && 0 < |proposed| <= 128
    requires LookupSlug(proposed, digest).Some? && LookupSlug(proposed, digest) == LookupSlug(typed, digest)
    requires NormalizeLemma(proposed).Some? && AccentCount(NormalizeLemma(proposed).value) >= AccentCount(typed)
    ensures Headword(t, typed, proposed, digest) == NormalizeLemma(proposed).value
  {
    hide Slugify, KeyOf, Respell, AccentCount;
  }

  /** Any other spelling gives way to the word typed: none, one too long, another word, or accents lost. */
  lemma OtherSpellingIsRefused(t: Table, typed: string, proposed: string, digest: string -> string)
    requires IsTable(t)
    ensures var spelling := if AccentCount(typed) > 0 then proposed
                            else Respell(t, if proposed == [] then typed else proposed);
            var bare := NormalizeLemma(spelling);
            || spelling == [] || |spelling| > 128
            || bare.None? || LookupSlug(spelling, digest) != LookupSlug(typed, digest)
            || AccentCount(bare.value) < AccentCount(typed) ==>
              Headword(t, typed, proposed, digest) == typed
  {
    KeyIffBare(Candidate(t, typed, proposed), digest);
    hide LookupSlug, NormalizeLemma, Respell, AccentCount;
  }

  lemma KeyIffBare(word: string, digest: string -> string)
    ensures LookupSlug(word, digest).Some? <==> NormalizeLemma(word).Some?
  {
    hide NormalizeLemma, KeyOf;
  }

  /** No lookup answers with a spelling that has fewer accents than the word typed. */
  lemma AnswersKeepAccents(t: Table, rows: Rows, q: Query, digest: string -> string)
    requires IsTable(t)
    ensures var answer := Serve(t, rows, q, digest).1;
            answer.Some? ==>
              NormalizeLemma(q.word).Some? && AccentCount(answer.value) >= AccentCount(NormalizeLemma(q.word).value)
  {
    hide NormalizeLemma, KeyOf, AccentCount, Headword;
    if NormalizeLemma(q.word).Some? { HeadwordKeepsAccents(t, NormalizeLemma(q.word).value, q.proposed, digest); }
  }

  /** A lookup that finds no meaning, and one of a word that has no key, changes no row. */
  lemma NothingFoundNothingKept(t: Table, rows: Rows, q: Query, digest: string -> string)
    requires IsTable(t)
    requires !q.found || NormalizeLemma(q.word).None?
    ensures Serve(t, rows, q, digest).0 == rows
  {
    hide NormalizeLemma, KeyOf, AccentCount;
  }
}
