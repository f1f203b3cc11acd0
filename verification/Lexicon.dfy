/**
 Respelling by a table of French forms: each word gives way to the most frequent form that shares
 its accent-free key, unless it is common enough itself, and "oe" is written as a ligature where
 French does.
 */
module Lexicon {
  import opened Options
  import opened Text

  datatype Line = Line(form: string, pos: string, freq: real, note: string)

  datatype Form = Form(pos: string, freq: real, note: string)

  /** The forms, and for each key the form respelling goes to. */
  datatype Table = Table(forms: map<string, Form>, best: map<string, string>)

  const RARER := 20.0

  // ----- Loading -----

  function AddLine(t: Table, line: Line): (r: Table)
    requires forall k :: k in t.best ==> t.best[k] in t.forms
  {
    var forms := t.forms[line.form := Form(line.pos, line.freq, line.note)];
    var k := Fold(line.form);
    if k !in t.best || forms[t.best[k]].freq < forms[line.form].freq then Table(forms, t.best[k := line.form])
    else Table(forms, t.best)
  }

  function Loaded(lines: seq<Line>): (t: Table)
    ensures forall k :: k in t.best ==> t.best[k] in t.forms
  {
    if lines == [] then Table(map[], map[]) else AddLine(Loaded(lines[..|lines| - 1]), lines[|lines| - 1])
  }

  method Load(lines: seq<Line>) returns (t: Table)
    ensures t == Loaded(lines)
  {
    var forms: map<string, Form>, best: map<string, string> := map[], map[];
    assert lines[..0] == [];
    for i := 0 to |lines|
      invariant Table(forms, best) == Loaded(lines[..i])
    {
      assert lines[..i + 1][..i] == lines[..i];
      var line := lines[i];
      forms := forms[line.form := Form(line.pos, line.freq, line.note)];
      var k := Fold(line.form);
      if k !in best || forms[best[k]].freq < forms[line.form].freq {
        best := best[k := line.form];
      }
    }
    assert lines[..|lines|] == lines;
    t := Table(forms, best);
  }

  ghost predicate Keyed(t: Table) {
    forall k :: k in t.best ==> Fold(t.best[k]) == k
  }

  /** The form filed under a key has that key, whatever the lines are. */
  lemma {:induction false} LoadedIsKeyed(lines: seq<Line>)
    ensures Keyed(Loaded(lines))
  {
    if lines != [] {
      LoadedIsKeyed(lines[..|lines| - 1]);
    }
  }

  ghost predicate DistinctForms(lines: seq<Line>) {
    forall i, j :: 0 <= i < j < |lines| ==> lines[i].form != lines[j].form
  }

  lemma {:induction false} LoadedForms(lines: seq<Line>)
    ensures forall f :: f in Loaded(lines).forms ==> exists i :: 0 <= i < |lines| && lines[i].form == f
  {
    if lines != [] {
      LoadedForms(lines[..|lines| - 1]);
    }
  }

  /** If no form is listed twice, it is the most frequent form with that key. */
  lemma {:induction false} BestIsMostFrequent(lines: seq<Line>, f: string)
    requires DistinctForms(lines) && f in Loaded(lines).forms
    ensures var t := Loaded(lines); Fold(f) in t.best && t.forms[f].freq <= t.forms[t.best[Fold(f)]].freq
  {
    hide Fold;
    var before, last := lines[..|lines| - 1], lines[|lines| - 1];
    LoadedForms(before);
    assert last.form !in Loaded(before).forms;
    LoadedIsKeyed(before);
    if f != last.form {
      BestIsMostFrequent(before, f);
    }
  }

  // ----- One word -----

  /** The ligatures spelled out, on lower-case text. */
  function SpellOut(s: string): string {
    if s == [] then []
    else (if s[0] == 'œ' then "oe" else if s[0] == 'æ' then "ae" else [s[0]]) + SpellOut(s[1..])
  }

  function Capitalized(s: string): string
    requires s != []
  {
    Upper(s[0]) + s[1..]
  }

  /** The form the word gives way to, if it does. */
  function Replacement(t: Table, word: string): (r: Option<string>)
    requires forall k :: k in t.best ==> t.best[k] in t.forms
    ensures r.Some? ==> r.value != [] && Fold(LowerAll(word)) in t.best && r.value == t.best[Fold(LowerAll(word))]
  {
    var low := LowerAll(word);
    if low == "du" || low == "des" then None
    else if Fold(low) !in t.best then None
    else
      var top := t.best[Fold(low)];
      if top == [] || top == SpellOut(low) then None
      else if low in t.forms && t.forms[low].freq * RARER > t.forms[top].freq then None
      else Some(top)
  }

  function RespellWord(t: Table, word: string): string
    requires forall k :: k in t.best ==> t.best[k] in t.forms
  {
    match Replacement(t, word)
    case None => word
    case Some(top) => if word != [] && IsUpper(word[0]) then Capitalized(top) else top
  }

  /** A capitalized word that gives way to a form in ß or µ, whose capital is not a letter of the same key. */
  predicate CapitalChanges(t: Table, word: string)
    requires forall k :: k in t.best ==> t.best[k] in t.forms
  {
    word != [] && IsUpper(word[0]) && Replacement(t, word).Some? && OddCapital(Replacement(t, word).value[0])
  }

  /** Of two pairs, neither part of one shorter than that of the other, the pairs agree only part by part. */
  lemma PartsAgree(a: string, b: string, c: string, d: string)
    requires |a| <= |c| && |b| <= |d|
    ensures a + b == c + d <==> a == c && b == d
  {
    if a + b == c + d {
      assert |a| == |c|;
      assert (a + b)[..|a|] == a && (c + d)[..|c|] == c;
      assert (a + b)[|a|..] == b && (c + d)[|c|..] == d;
    }
  }

  lemma CapitalizedFold(s: string)
    requires s != []
    ensures Fold(Capitalized(s)) == Fold(s) <==> !OddCapital(s[0])
    ensures |Fold(Capitalized(s))| >= |Fold(s)|
  {
    hide FoldChar, Upper, OddCapital;
    UpperKeepsFoldIff(s[0]);
    FoldConcat(Upper(s[0]), s[1..]);
    assert Fold(s) == FoldChar(s[0]) + Fold(s[1..]);
    PartsAgree(FoldChar(s[0]), Fold(s[1..]), Fold(Upper(s[0])), Fold(s[1..]));
  }

  /** A word keeps its key exactly unless its capital changes, and never gets a shorter one. */
  lemma RespellWordKeepsKeyIff(t: Table, word: string)
    requires forall k :: k in t.best ==> t.best[k] in t.forms
    requires Keyed(t)
    ensures Fold(RespellWord(t, word)) == Fold(word) <==> !CapitalChanges(t, word)
    ensures |Fold(RespellWord(t, word))| >= |Fold(word)|
  {
    hide Fold, OddCapital, Capitalized;
    LowerAllKeepsFold(word);
    if Replacement(t, word).Some? {
      CapitalizedFold(Replacement(t, word).value);
    }
  }

  // ----- A whole text -----

  predicate IsSeparator(c: char) {
    IsSpace(c) || c == '\'' || c == '’' || c == '-'
  }

  /** The length of the longest start without a separator, or of separators only. */
  function RunLength(s: string, separators: bool): (n: nat)
    ensures n <= |s|
    ensures forall i :: 0 <= i < n ==> IsSeparator(s[i]) == separators
    ensures n < |s| ==> IsSeparator(s[n]) != separators
  {
    if s == [] || IsSeparator(s[0]) != separators then 0 else 1 + RunLength(s[1..], separators)
  }

  /** Words at the even places, the separators between them at the odd ones. */
  function Split(s: string): (parts: seq<string>)
    ensures |parts| % 2 == 1
    decreases |s|
  {
    var w := RunLength(s, false);
    if w == |s| then [s]
    else
      var p := RunLength(s[w..], true);
      [s[..w], s[w..w + p]] + Split(s[w + p..])
  }

  function Join(parts: seq<string>): string {
    if parts == [] then [] else parts[0] + Join(parts[1..])
  }

  /** `part if i % 2 else respell(part)`, from the part at index `i` on. */
  function RespellParts(t: Table, parts: seq<string>, i: nat): (r: seq<string>)
    requires forall k :: k in t.best ==> t.best[k] in t.forms
    ensures |r| == |parts|
    decreases |parts|
  {
    if parts == [] then []
    else [if i % 2 == 1 then parts[0] else RespellWord(t, parts[0])] + RespellParts(t, parts[1..], i + 1)
  }

  predicate OeHere(s: string) {
    && |s| >= 3 && Lower(s[0]) == 'o' && Lower(s[1]) == 'e'
    && (Lower(s[2]) == 'u' || (|s| >= 4 && Lower(s[2]) == 'i' && Lower(s[3]) == 'l'))
  }

  /** French writes the ligature before u and il. */
  function WriteLigatures(s: string): string
    decreases |s|
  {
    if s == [] then []
    else if OeHere(s) then [if s[0] == 'O' then 'Œ' else 'œ'] + WriteLigatures(s[2..])
    else [s[0]] + WriteLigatures(s[1..])
  }

  function Respell(t: Table, text: string): string
    requires forall k :: k in t.best ==> t.best[k] in t.forms
  {
    WriteLigatures(Join(RespellParts(t, Split(text), 0)))
  }

  lemma JoinTwo(a: string, b: string, rest: seq<string>)
    ensures Join([a, b] + rest) == a + b + Join(rest)
  {
    assert ([a, b] + rest)[1..] == [b] + rest && ([b] + rest)[1..] == rest;
    assert a + (b + Join(rest)) == a + b + Join(rest);
  }

  lemma ThreeSlices(s: string, i: nat, j: nat)
    requires i <= j <= |s|
    ensures s[..i] + s[i..j] + s[j..] == s
  {
  }

  lemma JoinOne(a: string)
    ensures Join([a]) == a
  {
  }

  lemma {:induction false} SplitJoins(s: string)
    ensures Join(Split(s)) == s
    decreases |s|
  {
    hide RunLength, Join;
    var w := RunLength(s, false);
    if w == |s| {
      JoinOne(s);
    } else {
      var p := RunLength(s[w..], true);
      SplitJoins(s[w + p..]);
      JoinTwo(s[..w], s[w..w + p], Split(s[w + p..]));
      ThreeSlices(s, w, w + p);
    }
  }

  /** Whether the capital of some word changes; words are at the even places, counted from index `i`. */
  predicate SomeCapitalChanges(t: Table, parts: seq<string>, i: nat)
    requires forall k :: k in t.best ==> t.best[k] in t.forms
    decreases |parts|
  {
    parts != [] && ((i % 2 == 0 && CapitalChanges(t, parts[0])) || SomeCapitalChanges(t, parts[1..], i + 1))
  }

  lemma {:induction false} RespellPartsKeepKeyIff(t: Table, parts: seq<string>, i: nat)
    requires forall k :: k in t.best ==> t.best[k] in t.forms
    requires Keyed(t)
    ensures var before, after := Fold(Join(parts)), Fold(Join(RespellParts(t, parts, i)));
            |after| >= |before| && (after == before <==> !SomeCapitalChanges(t, parts, i))
    decreases |parts|
  {
    if parts != [] {
      hide RespellWord, CapitalChanges, Fold;
      var r := RespellParts(t, parts, i);
      var x, y := Join(parts[1..]), Join(r[1..]);
      assert r[1..] == RespellParts(t, parts[1..], i + 1);
      RespellPartsKeepKeyIff(t, parts[1..], i + 1);
      RespellWordKeepsKeyIff(t, parts[0]);
      FoldConcat(parts[0], x);
      FoldConcat(r[0], y);
      PartsAgree(Fold(parts[0]), Fold(x), Fold(r[0]), Fold(y));
    }
  }

  lemma FoldOe(o: char, e: char)
    requires Lower(o) == 'o' && Lower(e) == 'e'
    ensures FoldChar(o) + FoldChar(e) == "oe" == FoldChar(if o == 'O' then 'Œ' else 'œ')
  {
    LowerKeepsFold(o);
    LowerKeepsFold(e);
  }

  lemma FoldPrepend(c: char, s: string)
    ensures Fold([c] + s) == FoldChar(c) + Fold(s)
  {
    hide FoldChar;
    assert ([c] + s)[1..] == s;
  }

  lemma OeIsOe(s: string)
    requires OeHere(s)
    ensures |s| >= 3 && Lower(s[0]) == 'o' && Lower(s[1]) == 'e'
  {
  }

  lemma OneLigature(o: char, e: char, rest: string, written: string)
    requires Lower(o) == 'o' && Lower(e) == 'e' && Fold(written) == Fold(rest)
    ensures Fold([if o == 'O' then 'Œ' else 'œ'] + written) == Fold([o, e] + rest)
  {
    hide FoldChar, Fold, Lower;
    FoldOe(o, e);
    FoldPrepend(if o == 'O' then 'Œ' else 'œ', written);
    FoldTwo(o, e);
    FoldConcat([o, e], rest);
  }

  lemma {:induction false} LigaturesKeepKey(s: string)
    ensures Fold(WriteLigatures(s)) == Fold(s)
    decreases |s|
  {
    if s != [] {
      hide FoldChar, Fold, OeHere;
      if OeHere(s) {
        OeIsOe(s);
        LigaturesKeepKey(s[2..]);
        OneLigature(s[0], s[1], s[2..], WriteLigatures(s[2..]));
        assert s == [s[0], s[1]] + s[2..];
      } else {
        LigaturesKeepKey(s[1..]);
        FoldPrepend(s[0], s[1..]);
        FoldPrepend(s[0], WriteLigatures(s[1..]));
        assert s == [s[0]] + s[1..];
      }
    }
  }

  /**
   Respelling keeps a text's key exactly when the capital of none of its words changes, for every
   text and every table the loading loop can build.
   */
  lemma RespellKeepsKeyIff(lines: seq<Line>, text: string)
    ensures Fold(Respell(Loaded(lines), text)) == Fold(text) <==> !SomeCapitalChanges(Loaded(lines), Split(text), 0)
  {
    var t := Loaded(lines);
    hide Fold, SomeCapitalChanges, Loaded;
    LoadedIsKeyed(lines);
    SplitJoins(text);
    RespellPartsKeepKeyIff(t, Split(text), 0);
    LigaturesKeepKey(Join(RespellParts(t, Split(text), 0)));
  }

  /** No form that other forms give way to starts with ß or µ, as in French. */
  ghost predicate PlainCapitals(t: Table) {
    forall k :: k in t.best && t.best[k] != [] ==> !OddCapital(t.best[k][0])
  }

  lemma {:induction false} NoCapitalChanges(t: Table, parts: seq<string>, i: nat)
    requires forall k :: k in t.best ==> t.best[k] in t.forms
    requires PlainCapitals(t)
    ensures !SomeCapitalChanges(t, parts, i)
    decreases |parts|
  {
    if parts != [] {
      NoCapitalChanges(t, parts[1..], i + 1);
    }
  }

  /** Then respelling never changes any text's key. */
  lemma RespellKeepsKey(lines: seq<Line>, text: string)
    requires PlainCapitals(Loaded(lines))
    ensures Fold(Respell(Loaded(lines), text)) == Fold(text)
  {
    RespellKeepsKeyIff(lines, text);
    NoCapitalChanges(Loaded(lines), Split(text), 0);
  }

  lemma FoldTwo(a: char, b: char)
    ensures Fold([a, b]) == FoldChar(a) + FoldChar(b)
  {
    assert [a, b] == [a] + [b] && [b] == [b] + [];
    FoldPrepend(a, [b]);
    FoldPrepend(b, []);
  }

  lemma LoadedOne(line: Line)
    ensures Loaded([line]) == Table(map[line.form := Form(line.pos, line.freq, line.note)],
                                    map[Fold(line.form) := line.form])
  {
    hide Fold;
    assert [line][..0] == [];
    assert Loaded([]) == Table(map[], map[]);
  }

  /** A form that starts with a sharp s breaks the promise: its capital is two letters. */
  lemma SharpSBreaksKey()
    ensures Fold(RespellWord(Loaded([Line("ßà", "", 1.0, "")]), "\U{1e9e}a")) != Fold("\U{1e9e}a")
  {
    var word := "\U{1e9e}a";
    LoadedOne(Line("ßà", "", 1.0, ""));
    FoldTwo('ß', 'à');
    FoldTwo('ß', 'a');
    FoldTwo('\U{1e9e}', 'a');
    hide Fold, Loaded;
    var low := LowerAll(word);
    assert low == "ßa" && "ßa"[1] != "ßà"[1];
    assert SpellOut("ßa"[1..]) == "a" by { assert "ßa"[1..] == "a" && "a"[1..] == ""; }
    assert SpellOut(low) == "ßa";
    assert low != "du" && low != "des" by { assert low[0] == 'ß'; }
    assert Fold(low) == Fold("ßà");
    var out := RespellWord(Loaded([Line("ßà", "", 1.0, "")]), word);
    assert out == "SS" + "à" == ['S'] + "Sà";
    FoldPrepend('S', "Sà");
    assert Fold(out)[0] == 's';
  }
}
