/**
 Word-bank exercises: the validator that accepts an authored exercise, the tile board a learner
 builds a sentence on, and what shuffling the presentation leaves alone.
 */
module WordBank {
  import opened Shuffle

  // ----- The validator -----

  /** `bank.remove(token)`: the first occurrence goes. */
  function RemoveFirst(bank: seq<string>, token: string): (r: seq<string>)
    requires token in bank
    ensures |r| == |bank| - 1
  {
    if bank[0] == token then bank[1..] else [bank[0]] + RemoveFirst(bank[1..], token)
  }

  lemma {:induction false} RemoveFirstElements(bank: seq<string>, token: string)
    requires token in bank
    ensures multiset(RemoveFirst(bank, token)) + multiset{token} == multiset(bank)
  {
    if bank[0] == token {
      assert bank == [token] + bank[1..];
    } else {
      assert bank == [bank[0]] + bank[1..];
      RemoveFirstElements(bank[1..], token);
    }
  }

  /** Whether the authored exercise is accepted: the answer must be a sub-multiset of the tiles. */
  method AnswerDrawnFromTokens(tokens: seq<string>, answer: seq<string>) returns (accepted: bool)
    ensures accepted <==> multiset(answer) <= multiset(tokens)
  {
    var bank := tokens;
    assert answer[..0] == [];
    for k := 0 to |answer|
      invariant multiset(bank) + multiset(answer[..k]) == multiset(tokens)
    {
      assert answer[..k + 1] == answer[..k] + [answer[k]];
      assert multiset(answer[..k + 1]) <= multiset(answer) by {
        assert answer == answer[..k + 1] + answer[k + 1..];
      }
      if answer[k] in bank {
        RemoveFirstElements(bank, answer[k]);
        bank := RemoveFirst(bank, answer[k]);
      } else {
        assert answer[k] !in multiset(bank);
        assert multiset(answer[..k + 1])[answer[k]] > multiset(tokens)[answer[k]];
        return false;
      }
    }
    assert answer[..|answer|] == answer;
    return true;
  }

  // ----- The board -----

  datatype Tap = Take(tile: nat) | PutBack(at: nat)

  /** A tap on a free tile adds it to the line; a tap on the line puts that tile back. */
  function AfterTap(build: seq<nat>, tiles: nat, tap: Tap): seq<nat> {
    match tap
    case Take(tile) => if tile < tiles && tile !in build then build + [tile] else build
    case PutBack(at) => if at < |build| then build[..at] + build[at + 1..] else build
  }

  function AfterTaps(tiles: nat, taps: seq<Tap>): seq<nat> {
    if taps == [] then [] else AfterTap(AfterTaps(tiles, taps[..|taps| - 1]), tiles, taps[|taps| - 1])
  }

  ghost predicate DistinctTiles(build: seq<nat>, tiles: nat) {
    && (forall i :: 0 <= i < |build| ==> build[i] < tiles)
    && (forall i, j :: 0 <= i < j < |build| ==> build[i] != build[j])
  }

  lemma {:induction false} TapsKeepTilesDistinct(tiles: nat, taps: seq<Tap>)
    ensures DistinctTiles(AfterTaps(tiles, taps), tiles)
  {
    if taps != [] {
      TapsKeepTilesDistinct(tiles, taps[..|taps| - 1]);
    }
  }

  lemma {:induction false} DistinctTilesAreReached(build: seq<nat>, tiles: nat) returns (taps: seq<Tap>)
    requires DistinctTiles(build, tiles)
    ensures AfterTaps(tiles, taps) == build
  {
    if build == [] {
      taps := [];
    } else {
      var last := |build| - 1;
      taps := DistinctTilesAreReached(build[..last], tiles);
      var more := taps + [Take(build[last])];
      assert more[..|more| - 1] == taps;
      assert build == build[..last] + [build[last]];
      taps := more;
    }
  }

  lemma OneMoreTap(tiles: nat, taps: seq<Tap>, tap: Tap)
    ensures AfterTaps(tiles, taps + [tap]) == AfterTap(AfterTaps(tiles, taps), tiles, tap)
  {
    assert (taps + [tap])[..|taps|] == taps;
  }

  /** Whatever was tapped, the line can be emptied tile by tile. */
  lemma {:induction false} LineCanBeCleared(tiles: nat, taps: seq<Tap>) returns (more: seq<Tap>)
    ensures AfterTaps(tiles, taps + more) == []
    ensures forall i :: 0 <= i < |more| ==> more[i].PutBack?
    decreases |AfterTaps(tiles, taps)|
  {
    hide AfterTaps;
    if AfterTaps(tiles, taps) == [] {
      more := [];
      assert taps + more == taps;
    } else {
      OneMoreTap(tiles, taps, PutBack(0));
      var rest := LineCanBeCleared(tiles, taps + [PutBack(0)]);
      more := [PutBack(0)] + rest;
      assert taps + [PutBack(0)] + rest == taps + more;
    }
  }

  /** So no tap is final: from any line every list of distinct tiles can still be tapped together. */
  lemma {:induction false} EveryLineStaysReachable(build: seq<nat>, tiles: nat, taps: seq<Tap>) returns (more: seq<Tap>)
    requires DistinctTiles(build, tiles)
    ensures AfterTaps(tiles, taps + more) == build
  {
    hide AfterTaps;
    if build == [] {
      more := LineCanBeCleared(tiles, taps);
    } else {
      var last := |build| - 1;
      var first := EveryLineStaysReachable(build[..last], tiles, taps);
      OneMoreTap(tiles, taps + first, Take(build[last]));
      more := first + [Take(build[last])];
      assert taps + first + [Take(build[last])] == taps + more;
      assert build == build[..last] + [build[last]];
    }
  }

  function Spelled(tokens: seq<string>, build: seq<nat>): (words: seq<string>)
    requires forall i :: 0 <= i < |build| ==> build[i] < |tokens|
    ensures |words| == |build|
    ensures forall i :: 0 <= i < |build| ==> words[i] == tokens[build[i]]
  {
    seq(|build|, i requires 0 <= i < |build| => tokens[build[i]])
  }

  /** Some taps lead to a line that reads `words`. */
  ghost predicate Buildable(tokens: seq<string>, words: seq<string>) {
    exists build :: DistinctTiles(build, |tokens|) && Spelled(tokens, build) == words
  }

  /** The Check button is off while the line is empty, and accepts the answer only. */
  ghost predicate Accepted(tokens: seq<string>, answer: seq<string>, build: seq<nat>) {
    DistinctTiles(build, |tokens|) && build != [] && Spelled(tokens, build) == answer
  }

  // ----- Which word sequences can be built -----

  function Without(tokens: seq<string>, p: nat): (r: seq<string>)
    requires p < |tokens|
    ensures |r| == |tokens| - 1
  {
    tokens[..p] + tokens[p + 1..]
  }

  lemma WithoutElements(tokens: seq<string>, p: nat)
    requires p < |tokens|
    ensures multiset(Without(tokens, p)) + multiset{tokens[p]} == multiset(tokens)
  {
    assert tokens == tokens[..p] + [tokens[p]] + tokens[p + 1..];
  }

  /** A line on the board without tile `p`, seen on the whole board. */
  function Widen(build: seq<nat>, p: nat): (r: seq<nat>)
    ensures |r| == |build|
    ensures forall i :: 0 <= i < |build| ==> r[i] == if build[i] < p then build[i] else build[i] + 1
  {
    seq(|build|, i requires 0 <= i < |build| => if build[i] < p then build[i] else build[i] + 1)
  }

  /** A line that does not use tile `p`, seen on the board without it. */
  function Narrow(build: seq<nat>, p: nat): (r: seq<nat>)
    requires p !in build
    ensures |r| == |build|
    ensures forall i :: 0 <= i < |build| ==> r[i] == if build[i] < p then build[i] else build[i] - 1
  {
    seq(|build|, i requires 0 <= i < |build| => if build[i] < p then build[i] else build[i] - 1)
  }

  lemma CancelOneBelow(a: multiset<string>, b: multiset<string>, x: string)
    requires a + multiset{x} <= b + multiset{x}
    ensures a <= b
  {
    forall y ensures a[y] <= b[y] {
      assert (a + multiset{x})[y] <= (b + multiset{x})[y];
    }
  }

  lemma FirstWordIsDrawn(tokens: seq<string>, words: seq<string>) returns (p: nat)
    requires words != [] && multiset(words) <= multiset(tokens)
    ensures p < |tokens| && tokens[p] == words[0]
    ensures multiset(words[1..]) <= multiset(Without(tokens, p))
  {
    assert words == [words[0]] + words[1..];
    assert words[0] in multiset(words);
    assert words[0] in multiset(tokens);
    p :| 0 <= p < |tokens| && tokens[p] == words[0];
    WithoutElements(tokens, p);
    CancelOneBelow(multiset(words[1..]), multiset(Without(tokens, p)), words[0]);
  }

  lemma WidenSpells(tokens: seq<string>, p: nat, rest: seq<nat>)
    requires p < |tokens| && DistinctTiles(rest, |tokens| - 1)
    ensures DistinctTiles([p] + Widen(rest, p), |tokens|)
    ensures Spelled(tokens, [p] + Widen(rest, p)) == [tokens[p]] + Spelled(Without(tokens, p), rest)
  {
    var wide := Widen(rest, p);
    forall i | 0 <= i < |rest| ensures tokens[wide[i]] == Without(tokens, p)[rest[i]] {
    }
  }

  lemma {:induction false} SubMultisetIsBuilt(tokens: seq<string>, words: seq<string>) returns (build: seq<nat>)
    requires multiset(words) <= multiset(tokens)
    ensures DistinctTiles(build, |tokens|) && Spelled(tokens, build) == words
    decreases |words|
  {
    if words == [] {
      build := [];
    } else {
      var p := FirstWordIsDrawn(tokens, words);
      var rest := SubMultisetIsBuilt(Without(tokens, p), words[1..]);
      WidenSpells(tokens, p, rest);
      build := [p] + Widen(rest, p);
    }
  }

  lemma {:induction false} BuiltIsSubMultiset(tokens: seq<string>, build: seq<nat>)
    requires DistinctTiles(build, |tokens|)
    ensures multiset(Spelled(tokens, build)) <= multiset(tokens)
    decreases |build|
  {
    if build != [] {
      var p, words := build[0], Spelled(tokens, build);
      assert p !in build[1..];
      var narrow := Narrow(build[1..], p);
      forall i | 0 <= i < |narrow|
        ensures narrow[i] < |tokens| - 1 && Without(tokens, p)[narrow[i]] == tokens[build[i + 1]]
      {
        assert build[1..][i] == build[i + 1];
      }
      BuiltIsSubMultiset(Without(tokens, p), narrow);
      WithoutElements(tokens, p);
      assert words == [tokens[p]] + Spelled(Without(tokens, p), narrow);
    }
  }

  lemma BuildableIffDrawn(tokens: seq<string>, words: seq<string>)
    ensures Buildable(tokens, words) <==> multiset(words) <= multiset(tokens)
  {
    if multiset(words) <= multiset(tokens) {
      var build := SubMultisetIsBuilt(tokens, words);
    }
    forall build | DistinctTiles(build, |tokens|) && Spelled(tokens, build) == words
      ensures multiset(words) <= multiset(tokens)
    {
      BuiltIsSubMultiset(tokens, build);
    }
  }

  // ----- Shuffled presentations -----

  /**
   However the tiles are shuffled, the exercise can be solved exactly when the validator accepts
   it and its answer has a word at all: with an empty answer the Check button never comes on.
   */
  lemma SolvableAfterAnyShuffle(tokens: seq<string>, answer: seq<string>, js: seq<nat>)
    requires ValidChoices(|tokens|, js)
    ensures (exists taps :: Accepted(Shuffled(tokens, js), answer, AfterTaps(|tokens|, taps)))
       <==> multiset(answer) <= multiset(tokens) && answer != []
  {
    var tiles := Shuffled(tokens, js);
    ShuffleKeepsElements(tokens, js);
    if multiset(answer) <= multiset(tokens) && answer != [] {
      var build := SubMultisetIsBuilt(tiles, answer);
      var taps := DistinctTilesAreReached(build, |tokens|);
      assert Accepted(tiles, answer, AfterTaps(|tokens|, taps));
    }
    forall taps | Accepted(tiles, answer, AfterTaps(|tokens|, taps))
      ensures multiset(answer) <= multiset(tokens) && answer != []
    {
      BuiltIsSubMultiset(tiles, AfterTaps(|tokens|, taps));
    }
  }

  /** Shuffling changes neither which sentences can be built nor which of them is accepted. */
  lemma ShuffleKeepsSentences(tokens: seq<string>, answer: seq<string>, js: seq<nat>, words: seq<string>)
    requires ValidChoices(|tokens|, js)
    ensures Buildable(tokens, words) <==> Buildable(Shuffled(tokens, js), words)
    ensures (exists build :: Accepted(tokens, answer, build) && Spelled(tokens, build) == words)
       <==> (exists build ::
               Accepted(Shuffled(tokens, js), answer, build) && Spelled(Shuffled(tokens, js), build) == words)
  {
    var tiles := Shuffled(tokens, js);
    ShuffleKeepsElements(tokens, js);
    BuildableIffDrawn(tokens, words);
    BuildableIffDrawn(tiles, words);
    AcceptedIffBuildable(tokens, answer, words);
    AcceptedIffBuildable(tiles, answer, words);
  }

  lemma AcceptedIffBuildable(tokens: seq<string>, answer: seq<string>, words: seq<string>)
    ensures (exists build :: Accepted(tokens, answer, build) && Spelled(tokens, build) == words)
       <==> Buildable(tokens, words) && words == answer && answer != []
  {
    if Buildable(tokens, words) && words == answer && answer != [] {
      var build :| DistinctTiles(build, |tokens|) && Spelled(tokens, build) == words;
      assert Accepted(tokens, answer, build);
    }
  }
}
