/** The articles a typed or proposed word may start with. */
module Articles {
  import opened Text

  const ARTICLES := ["de la ", "de l'", "l'", "d'", "le ", "la ", "les ", "un ", "une ", "des "]

  /** The length of the first prefix of the list that `s` starts with; zero if none. */
  function FirstPrefix(s: string, prefixes: seq<string>): (n: nat)
    ensures n <= |s|
  {
    if prefixes == [] then 0
    else if StartsWith(s, prefixes[0]) then |prefixes[0]|
    else FirstPrefix(s, prefixes[1..])
  }

  function StripLeadingArticle(word: string): string {
    var w := Replace(Replace(Strip(word), '’', '\''), '‘', '\'');
    var n := FirstPrefix(LowerAll(w), ARTICLES);
    if n > 0 then Strip(w[n..]) else w
  }

  lemma {:induction false} FirstPrefixIs(s: string, prefixes: seq<string>) returns (i: nat)
    requires FirstPrefix(s, prefixes) > 0
    ensures i < |prefixes| && StartsWith(s, prefixes[i]) && FirstPrefix(s, prefixes) == |prefixes[i]|
  {
    if StartsWith(s, prefixes[0]) {
      i := 0;
    } else {
      var j := FirstPrefixIs(s, prefixes[1..]);
      i := j + 1;
    }
  }

  lemma {:induction false} FirstPrefixFinds(s: string, prefixes: seq<string>, i: nat)
    requires i < |prefixes| && StartsWith(s, prefixes[i])
    requires forall k :: 0 <= k < |prefixes| ==> prefixes[k] != []
    ensures FirstPrefix(s, prefixes) > 0
  {
    if !StartsWith(s, prefixes[0]) {
      FirstPrefixFinds(s, prefixes[1..], i - 1);
    }
  }
}
