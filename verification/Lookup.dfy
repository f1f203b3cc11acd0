/**
 The shared word lookups: rows keyed by an accent-free slug, whose spelling may only get better.
 The eight hash digits that end a long key are given by a function of the whole slug.
 */
module Lookup {
  import opened Options
  import opened Text
  import opened Lexicon
  import opened Articles

  // ----- Keys -----

  predicate InSlug(c: char) { 'a' <= c <= 'z' || '0' <= c <= '9' }

  /** Marks dropped, then lower case; ligatures are no accents and stay. */
  function AsciiChar(c: char): string {
    if IsMark(c) then "" else [Base(Lower(c))]
  }

  function Ascii(s: string): string {
    if s == [] then [] else AsciiChar(s[0]) + Ascii(s[1..])
  }

  /** Every run of other characters becomes one underscore. */
  function Collapse(s: string, inRun: bool): string {
    if s == [] then []
    else if InSlug(s[0]) then [s[0]] + Collapse(s[1..], false)
    else (if inRun then [] else "_") + Collapse(s[1..], true)
  }

  function TrimStart(s: string): (r: string)
    ensures |r| <= |s|
  {
    if s != [] && s[0] == '_' then TrimStart(s[1..]) else s
  }

  function TrimEnd(s: string): string {
    if s != [] && s[|s| - 1] == '_' then TrimEnd(s[..|s| - 1]) else s
  }

  /** The slug of text that is already plain. */
  function SlugOf(plain: string): string {
    TrimEnd(TrimStart(Collapse(plain, false)))
  }

  function Slugify(fr: string): string { SlugOf(Ascii(fr)) }

  function ClampSlug(slug: string, size: nat, digest: string -> string): string
    requires size >= 9
  {
    if |slug| <= size then slug else slug[..size - 9] + "_" + digest(slug)
  }

  /** The trimmed lemma without its article; none if nothing is left to make a key from. */
  function NormalizeLemma(fr: string): Option<string> {
    var w := StripLeadingArticle(Strip(fr));
    if Slugify(w) == [] then None else Some(w)
  }

  /** Ligatures of either case, spelled out. */
  function Translate(s: string): string {
    if s == [] then []
    else
      (if s[0] == 'œ' || s[0] == 'Œ' then "oe" else if s[0] == 'æ' || s[0] == 'Æ' then "ae" else [s[0]])
      + Translate(s[1..])
  }

  /** The key of a lemma whose article is already gone. */
  function KeyOf(bare: string, digest: string -> string): string {
    ClampSlug(Slugify(Translate(bare)), 64, digest)
  }

  function LookupSlug(word: string, digest: string -> string): Option<string> {
    match NormalizeLemma(word)
    case None => None
    case Some(bare) => Some(KeyOf(bare, digest))
  }

  lemma {:induction false} AsciiConcat(a: string, b: string)
    ensures Ascii(a + b) == Ascii(a) + Ascii(b)
  {
    hide AsciiChar;
    if a == [] {
      assert a + b == b;
    } else {
      AsciiConcat(a[1..], b);
      assert (a + b)[1..] == a[1..] + b && (a + b)[0] == a[0];
      var c, x, y := AsciiChar(a[0]), Ascii(a[1..]), Ascii(b);
      assert c + (x + y) == (c + x) + y;
    }
  }

  lemma AsciiPair(x: char, y: char)
    ensures Ascii([x, y]) == AsciiChar(x) + AsciiChar(y)
  {
    hide AsciiChar;
    assert [x, y][1..] == [y] && [y][1..] == [];
    assert Ascii([y]) == AsciiChar(y) + Ascii([]);
  }

  lemma AsciiOne(c: char)
    ensures Ascii([c]) == AsciiChar(c)
  {
    assert [c][1..] == [];
  }

  lemma AsciiTranslateChar(c: char)
    ensures Ascii(Translate([c])) == FoldChar(c)
  {
    assert [c][1..] == [] && Translate([]) == [];
    AsciiPair('o', 'e');
    AsciiPair('a', 'e');
    AsciiOne(c);
  }

  lemma TranslateSplits(s: string)
    requires s != []
    ensures Translate(s) == Translate([s[0]]) + Translate(s[1..])
  {
    assert [s[0]][1..] == [];
    assert Translate([]) == [];
  }

  /** Spelling ligatures out and dropping accents is folding: two texts that fold alike share a key. */
  lemma {:induction false} AsciiIsFold(s: string)
    ensures Ascii(Translate(s)) == Fold(s)
  {
    if s != [] {
      TranslateSplits(s);
      hide Ascii, FoldChar, Translate;
      AsciiIsFold(s[1..]);
      AsciiTranslateChar(s[0]);
      AsciiConcat(Translate([s[0]]), Translate(s[1..]));
    }
  }

  lemma SameFoldSameKey(a: string, b: string, digest: string -> string)
    requires Fold(a) == Fold(b)
    ensures KeyOf(a, digest) == KeyOf(b, digest)
  {
    AsciiIsFold(a);
    AsciiIsFold(b);
  }

  // ----- Lookups -----

  /** The spelling to check: the proposal, put through the table if the learner typed no accents. */
  function Candidate(t: Table, typed: string, proposed: string): string
    requires forall k :: k in t.best ==> t.best[k] in t.forms
  {
    if AccentCount(typed) == 0 then Respell(t, if proposed == [] then typed else proposed) else proposed
  }

  /** It is not too long, and the same word with no accent lost. */
  predicate Accepted(typed: string, candidate: string, digest: string -> string) {
    && 0 < |candidate| <= 128
    && LookupSlug(candidate, digest).Some? && LookupSlug(candidate, digest) == LookupSlug(typed, digest)
    && AccentCount(NormalizeLemma(candidate).value) >= AccentCount(typed)
  }

  function Headword(t: Table, typed: string, proposed: string, digest: string -> string): string
    requires forall k :: k in t.best ==> t.best[k] in t.forms
  {
    var candidate := Candidate(t, typed, proposed);
    if Accepted(typed, candidate, digest) then NormalizeLemma(candidate).value else typed
  }

  /** One lookup: the word, the spelling the model or the dictionary settles on, and whether a meaning was found. */
  datatype Query = Query(word: string, proposed: string, found: bool)

  /** The rows: for each slug, the headword stored. */
  type Rows = map<string, string>

  function CachedLookup(rows: Rows, word: string, digest: string -> string): Option<string>
    requires NormalizeLemma(word).Some?
  {
    var slug := LookupSlug(word, digest).value;
    if slug !in rows || AccentCount(NormalizeLemma(word).value) > AccentCount(rows[slug]) then None
    else Some(rows[slug])
  }

  function FreshLookup(t: Table, rows: Rows, q: Query, digest: string -> string): (Rows, Option<string>)
    requires forall k :: k in t.best ==> t.best[k] in t.forms
    requires NormalizeLemma(q.word).Some?
  {
    if !q.found then (rows, None)
    else
      var fr := Headword(t, NormalizeLemma(q.word).value, q.proposed, digest);
      (rows[LookupSlug(q.word, digest).value := fr], Some(fr))
  }

  function Serve(t: Table, rows: Rows, q: Query, digest: string -> string): (Rows, Option<string>)
    requires forall k :: k in t.best ==> t.best[k] in t.forms
  {
    if NormalizeLemma(q.word).None? then (rows, None)
    else
      var hit := CachedLookup(rows, q.word, digest);
      if hit.Some? then (rows, hit) else FreshLookup(t, rows, q, digest)
  }

  function ServeAll(t: Table, rows: Rows, queries: seq<Query>, digest: string -> string): Rows
    requires forall k :: k in t.best ==> t.best[k] in t.forms
  {
    if queries == [] then rows
    else Serve(t, ServeAll(t, rows, queries[..|queries| - 1], digest), queries[|queries| - 1], digest).0
  }

  class LookupTable {
    const table: Table
    var rows: Rows

    constructor (table: Table)
      ensures this.table == table && rows == map[]
    {
      this.table := table;
      rows := map[];
    }

    method Lookup(q: Query, digest: string -> string) returns (fr: Option<string>)
      requires forall k :: k in table.best ==> table.best[k] in table.forms
      modifies this
      ensures (rows, fr) == Serve(table, old(rows), q, digest)
    {
      hide Headword, NormalizeLemma, KeyOf, AccentCount;
      if NormalizeLemma(q.word).None? {
        return None;
      }
      var bare := NormalizeLemma(q.word).value;
      var slug := LookupSlug(q.word, digest).value;
      if slug in rows && AccentCount(bare) <= AccentCount(rows[slug]) {
        return Some(rows[slug]);
      }
      if !q.found {
        return None;
      }
      var headword := Headword(table, bare, q.proposed, digest);
      rows := rows[slug := headword];
      return Some(headword);
    }
  }

  // ----- Rows only get better -----

  lemma HeadwordKeepsAccents(t: Table, typed: string, proposed: string, digest: string -> string)
    requires forall k :: k in t.best ==> t.best[k] in t.forms
    ensures AccentCount(Headword(t, typed, proposed, digest)) >= AccentCount(typed)
  {
  }

  ghost predicate Improves(before: Rows, after: Rows) {
    forall slug :: slug in before ==>
      slug in after && (after[slug] == before[slug] || AccentCount(after[slug]) > AccentCount(before[slug]))
  }

  lemma ServeImproves(t: Table, rows: Rows, q: Query, digest: string -> string)
    requires forall k :: k in t.best ==> t.best[k] in t.forms
    ensures Improves(rows, Serve(t, rows, q, digest).0)
  {
    hide Headword, LookupSlug, NormalizeLemma, AccentCount;
    if NormalizeLemma(q.word).Some? {
      HeadwordKeepsAccents(t, NormalizeLemma(q.word).value, q.proposed, digest);
    }
  }

  lemma ImprovesTwice(a: Rows, b: Rows, c: Rows)
    requires Improves(a, b) && Improves(b, c)
    ensures Improves(a, c)
  {
    hide AccentCount;
  }

  /** Over any run of lookups a stored headword only ever gives way to one with strictly more accents. */
  lemma {:induction false} RowsOnlyImprove(t: Table, rows: Rows, queries: seq<Query>, digest: string -> string)
    requires forall k :: k in t.best ==> t.best[k] in t.forms
    ensures Improves(rows, ServeAll(t, rows, queries, digest))
  {
    if queries != [] {
      var before := queries[..|queries| - 1];
      hide Serve, AccentCount;
      RowsOnlyImprove(t, rows, before, digest);
      ServeImproves(t, ServeAll(t, rows, before, digest), queries[|queries| - 1], digest);
      ImprovesTwice(rows, ServeAll(t, rows, before, digest), ServeAll(t, rows, queries, digest));
    }
  }

  /** A word just looked up is a hit the next time, whatever would be proposed then. */
  lemma NextLookupHits(t: Table, rows: Rows, q: Query, again: Query, digest: string -> string)
    requires forall k :: k in t.best ==> t.best[k] in t.forms
    requires again.word == q.word && Serve(t, rows, q, digest).1.Some?
    ensures var (after, fr) := Serve(t, rows, q, digest);
            CachedLookup(after, q.word, digest) == fr && Serve(t, after, again, digest) == (after, fr)
  {
    hide Headword, NormalizeLemma, AccentCount, KeyOf;
    HeadwordKeepsAccents(t, NormalizeLemma(q.word).value, q.proposed, digest);
  }

  // ----- Rows stay under their key -----

  /** Nothing more to strip from the lemma of a word. */
  predicate OneArticle(word: string) {
    var bare := NormalizeLemma(word);
    bare.Some? ==> NormalizeLemma(bare.value) == bare
  }

  lemma HeadwordKeepsKey(t: Table, typed: string, proposed: string, digest: string -> string)
    requires forall k :: k in t.best ==> t.best[k] in t.forms
    requires NormalizeLemma(typed) == Some(typed)
    ensures KeyOf(Headword(t, typed, proposed, digest), digest) == KeyOf(typed, digest)
    ensures Slugify(Headword(t, typed, proposed, digest)) != []
  {
    hide KeyOf, AccentCount, Respell, StripLeadingArticle, Strip, Slugify;
  }

  ghost predicate Filed(rows: Rows, digest: string -> string) {
    forall slug :: slug in rows ==> KeyOf(rows[slug], digest) == slug && Slugify(rows[slug]) != []
  }

  lemma ServeStaysFiled(t: Table, rows: Rows, q: Query, digest: string -> string)
    requires forall k :: k in t.best ==> t.best[k] in t.forms
    requires Filed(rows, digest) && OneArticle(q.word)
    ensures Filed(Serve(t, rows, q, digest).0, digest)
  {
    hide Headword, NormalizeLemma, KeyOf, Slugify, AccentCount;
    if NormalizeLemma(q.word).Some? {
      HeadwordKeepsKey(t, NormalizeLemma(q.word).value, q.proposed, digest);
    }
  }

  /** Words with one article at most file every headword under its own key. */
  lemma {:induction false} RowsAreFiled(t: Table, queries: seq<Query>, digest: string -> string)
    requires forall k :: k in t.best ==> t.best[k] in t.forms
    requires forall q :: q in queries ==> OneArticle(q.word)
    ensures Filed(ServeAll(t, map[], queries, digest), digest)
  {
    if queries != [] {
      var q := queries[|queries| - 1];
      assert OneArticle(q.word);
      hide Serve;
      RowsAreFiled(t, queries[..|queries| - 1], digest);
      ServeStaysFiled(t, ServeAll(t, map[], queries[..|queries| - 1], digest), q, digest);
    }
  }
}
