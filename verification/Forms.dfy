/**
 The forms shown on a vocabulary card, corrected by rule when they are stored and again whenever
 they are read.
 */
module Forms {
  import opened Options
  import opened Text
  import opened Articles
  import opened Elision

  datatype Entry = Entry(name: string, fr: string)

  // ----- Nouns -----

  function Definite(head: string): Option<string> {
    var h := LowerAll(head);
    if h == "un" then Some("le") else if h == "une" then Some("la") else if h == "des" then Some("les") else None
  }

  function Determined(fr: string): string {
    var d, rest := Definite(Head(fr, ' ')), Rest(fr, ' ');
    if d.Some? && rest != [] then d.value + " " + rest else fr
  }

  /** The definite article, elided where French does. */
  function NounForm(fr: string): string { Elide(Determined(fr), false) }

  // ----- Adjectives -----

  const DETERMINERS := ["le ", "la ", "les ", "l'", "un ", "une ", "des ", "ce ", "cet ", "cette ", "ces "]
  const AL_PLURAL_S := ["banal", "bancal", "fatal", "final", "natal", "naval", "glacial", "idéal"]
  const INVARIABLE := ["marron", "chic", "sympa", "super", "orange", "kaki", "turquoise"]

  function Bare(fr: string): string {
    var n := FirstPrefix(LowerAll(fr), DETERMINERS);
    if n > 0 then Strip(fr[n..]) else fr
  }

  function AdjectivePlural(w: string, feminine: bool): string {
    if EndsWith(w, "s") || EndsWith(w, "x") then w
    else if !feminine && EndsWith(w, "eau") then w + "x"
    else if !feminine && EndsWith(w, "al") && LowerAll(w) !in AL_PLURAL_S then w[..|w| - 2] + "aux"
    else w + "s"
  }

  /** The last entry of that name, without its determiner; empty if there is none. */
  function Labelled(forms: seq<Entry>, wanted: string): string {
    if forms == [] then []
    else
      var last := forms[|forms| - 1];
      if LowerAll(last.name) == wanted then Bare(last.fr) else Labelled(forms[..|forms| - 1], wanted)
  }

  function Feminine(forms: seq<Entry>, bare: string): string {
    var f := Labelled(forms, "feminine");
    if f != [] then f else bare
  }

  /** The headword, unless it was given in the feminine. */
  function Masculine(forms: seq<Entry>, bare: string): string {
    var m := Labelled(forms, "masculine");
    if Feminine(forms, bare) == bare && m != [] then m else bare
  }

  function FourForms(masculine: string, feminine: string, masculines: string, feminines: string): seq<Entry> {
    [Entry("masculine", masculine), Entry("feminine", feminine),
     Entry("masculine plural", masculines), Entry("feminine plural", feminines)]
  }

  function AdjectiveForms(forms: seq<Entry>, bare: string): seq<Entry> {
    if LowerAll(bare) in INVARIABLE then FourForms(bare, bare, bare, bare)
    else
      var m, f := Masculine(forms, bare), Feminine(forms, bare);
      FourForms(m, f, AdjectivePlural(m, false), AdjectivePlural(f, true))
  }

  // ----- Verbs -----

  const H_ASPIRE := ["haïr", "hacher", "hanter", "harceler", "hâter", "hausser", "heurter"]
  const IMPERSONAL := ["pleuvoir", "neiger", "falloir", "geler", "s'agir", "grêler", "tonner"]
  const SUBJECTS := ["je ", "j'", "tu ", "il ", "elle ", "on ", "nous ", "vous ", "ils ", "elles "]

  const PRONOUNS := ["je", "j'", "tu", "il", "elle", "on", "nous", "vous", "ils", "elles"]
  const CLITICS := ["me", "m'", "te", "t'", "se", "s'", "nous", "vous"]
  const AUXILIARIES := ["ai", "as", "a", "avons", "avez", "ont", "suis", "es", "est", "sommes", "êtes", "sont"]

  /** Exactly one of the characters around position `i` is a word character. */
  predicate Boundary(s: string, i: nat)
    requires 0 < i <= |s|
  {
    IsWord(s[i - 1]) != (i < |s| && IsWord(s[i]))
  }

  /** The length of the first of the words that the text opens with, in any case; zero if none. */
  function OpeningWord(s: string, words: seq<string>): (n: nat)
    ensures n <= |s|
  {
    if words == [] then 0
    else if words[0] != [] && StartsWith(LowerAll(s), words[0]) && Boundary(s, |words[0]|) then |words[0]|
    else OpeningWord(s, words[1..])
  }

  /** The text after the opening word and the spaces behind it. */
  function AfterWord(s: string, words: seq<string>): string {
    var n := OpeningWord(s, words);
    if n > 0 then TrimLeft(s[n..]) else s
  }

  /** The subject as it is written before a clitic. */
  function Subject(fr: string): string {
    var n := OpeningWord(fr, PRONOUNS);
    var p := if n > 0 then LowerAll(fr[..n]) else "je";
    if p == "j'" then "je" else p
  }

  function Clitic(subject: string): string {
    if subject == "je" then "me" else if subject == "tu" then "te"
    else if subject == "nous" then "nous" else if subject == "vous" then "vous" else "se"
  }

  function Etre(subject: string): string {
    if subject == "je" then "suis" else if subject == "tu" then "es"
    else if subject == "nous" then "sommes" else if subject == "vous" then "êtes"
    else if subject == "ils" || subject == "elles" then "sont" else "est"
  }

  function Participle(fr: string): string {
    Strip(AfterWord(AfterWord(AfterWord(fr, PRONOUNS), CLITICS), AUXILIARIES))
  }

  /** The subject, its clitic, the verb to be and the participle. */
  function WithEtre(subject: string, participle: string): string {
    subject + " " + Clitic(subject) + " " + Etre(subject) + " " + participle
  }

  function ReflexivePerfect(fr: string): string { Elide(WithEtre(Subject(fr), Participle(fr)), false) }

  predicate IsImpersonal(bare: string) { FirstPrefix(LowerAll(bare), IMPERSONAL) > 0 }
  predicate IsReflexive(bare: string) { StartsWith(bare, "se ") || StartsWith(bare, "s'") }
  predicate HasSubject(fr: string) { FirstPrefix(LowerAll(fr), SUBJECTS) > 0 }
  predicate ElidesH(bare: string) { FirstPrefix(LowerAll(bare), H_ASPIRE) == 0 }

  /** What follows "avoir" in a headword of several words; empty for any other headword. */
  function Complement(bare: string): string {
    if LowerAll(Head(bare, ' ')) == "avoir" then Rest(bare, ' ') else []
  }

  /** The form has the complement, or ends with its first word. */
  predicate HasComplement(fr: string, complement: string) {
    var low, c := TrimRight(LowerAll(fr)), LowerAll(complement);
    EndsWith(low, c) || Contains(low, c) || EndsWith(low, Head(c, ' '))
  }

  function RestoreComplement(fr: string, bare: string): string {
    var c := Complement(bare);
    if c == [] || HasComplement(fr, c) then fr else fr + " " + c
  }

  function WithSubject(fr: string, bare: string, name: string): string {
    if !IsImpersonal(bare) && IsReflexive(bare) && LowerAll(name) == "passé composé" then ReflexivePerfect(fr)
    else if !HasSubject(fr) && !IsReflexive(bare) && !IsImpersonal(bare) then "je " + fr
    else fr
  }

  function VerbForm(fr: string, bare: string, name: string): string {
    Elide(RestoreComplement(WithSubject(fr, bare, name), bare), ElidesH(bare))
  }

  // ----- All of them -----

  /** Straight apostrophes, and only the forms that stay in the Latin script. */
  function Readable(forms: seq<Entry>): seq<Entry> {
    if forms == [] then []
    else
      var fr := Replace(forms[0].fr, '’', '\'');
      (if Latin(fr) then [Entry(forms[0].name, fr)] else []) + Readable(forms[1..])
  }

  function TidyOne(form: Entry, bare: string, pos: string): Entry {
    Entry(form.name, if pos == "verb" then VerbForm(form.fr, bare, form.name) else NounForm(form.fr))
  }

  function TidyEach(forms: seq<Entry>, bare: string, pos: string): seq<Entry> {
    if forms == [] then [] else [TidyOne(forms[0], bare, pos)] + TidyEach(forms[1..], bare, pos)
  }

  function TidyForms(forms: seq<Entry>, fr: string, pos: string): seq<Entry> {
    var bare := StripLeadingArticle(fr);
    var readable := Readable(forms);
    if pos == "adjective" then (if readable == [] then [] else AdjectiveForms(readable, bare))
    else TidyEach(readable, bare, pos)
  }
}
