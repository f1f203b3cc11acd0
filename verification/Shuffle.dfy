/**
 The Fisher–Yates shuffle that varies a lesson's presentation. The random source is the list of
 numbers in [0, 1) it hands out, and what it decides is the list of positions swapped with.
 */
module Shuffle {

  /** What the random source hands out. */
  type Fraction = r: real | 0.0 <= r < 1.0

  /** `Math.floor(rnd() * (i + 1))`. */
  function Pick(r: Fraction, i: nat): (j: nat)
    ensures j <= i
  {
    PickBound(r, i);
    (r * (i + 1) as real).Floor
  }

  lemma PickBound(r: Fraction, i: nat)
    ensures 0 <= (r * (i + 1) as real).Floor <= i
  {
    var n := (i + 1) as real;
    assert 0.0 <= r * n < n by {
      ScaleFraction(r, n);
    }
    assert (r * n).Floor as real <= r * n;
  }

  lemma ScaleFraction(r: Fraction, n: real)
    requires n > 0.0
    ensures 0.0 <= r * n < n
  {
  }

  /** Every index is picked by an interval of random numbers of the same length, 1 / (i + 1). */
  lemma PickIsUniform(r: Fraction, i: nat, j: nat)
    requires j <= i
    ensures var n := (i + 1) as real;
            Pick(r, i) == j <==> j as real / n <= r < (j + 1) as real / n
  {
    var n := (i + 1) as real;
    OverOrder(j as real, r, n);
    OverOrder((j + 1) as real, r, n);
    assert Pick(r, i) == j <==> j as real <= r * n < (j + 1) as real;
  }

  lemma OverOrder(x: real, r: real, n: real)
    requires n > 0.0
    ensures x / n <= r <==> x <= r * n
  {
    var q := x / n;
    assert q * n == x;
    assert q <= r <==> q * n <= r * n;
  }

  /** So every position can be drawn. */
  lemma PickReaches(i: nat, j: nat)
    requires j <= i
    ensures exists r: Fraction :: Pick(r, i) == j
  {
    var r := j as real / (i + 1) as real;
    assert r * (i + 1) as real == j as real;
    assert 0.0 <= r < 1.0;
    assert Pick(r, i) == j;
  }

  function Swap<T>(s: seq<T>, i: nat, j: nat): (t: seq<T>)
    requires i < |s| && j < |s|
    ensures |t| == |s|
  {
    s[i := s[j]][j := s[i]]
  }

  lemma SwapKeepsElements<T>(s: seq<T>, i: nat, j: nat)
    requires i < |s| && j < |s|
    ensures multiset(Swap(s, i, j)) == multiset(s)
  {
  }

  /** The choices of one shuffle of `n` elements, in the order drawn: the first is for the last index. */
  predicate ValidChoices(n: nat, js: seq<nat>) {
    |js| == (if n == 0 then 0 else n - 1) && forall k :: 0 <= k < |js| ==> js[k] <= n - 1 - k
  }

  function Shuffled<T>(s: seq<T>, js: seq<nat>): (t: seq<T>)
    requires ValidChoices(|s|, js)
    ensures |t| == |s|
    decreases |s|
  {
    if |s| <= 1 then s
    else
      var i := |s| - 1;
      var swapped := Swap(s, i, js[0]);
      Shuffled(swapped[..i], js[1..]) + [swapped[i]]
  }

  function ChoicesOf(n: nat, rnd: seq<Fraction>): (js: seq<nat>)
    requires |rnd| >= (if n == 0 then 0 else n - 1)
    ensures ValidChoices(n, js)
  {
    if n <= 1 then [] else [Pick(rnd[0], n - 1)] + ChoicesOf(n - 1, rnd[1..])
  }

  /** One turn of the loop: the last element is settled, the rest is shuffled with what is left of the draws. */
  lemma ShuffleTurn<T>(s: seq<T>, rnd: seq<Fraction>)
    requires |s| > 1 && |rnd| >= |s| - 1
    ensures var i := |s| - 1;
            var swapped := Swap(s, i, Pick(rnd[0], i));
            Shuffled(s, ChoicesOf(|s|, rnd)) == Shuffled(swapped[..i], ChoicesOf(i, rnd[1..])) + [swapped[i]]
  {
    assert ChoicesOf(|s|, rnd)[1..] == ChoicesOf(|s| - 1, rnd[1..]);
  }

  method SwapInPlace<T>(a: array<T>, i: nat, j: nat)
    requires i < a.Length && j < a.Length
    modifies a
    ensures a[..] == Swap(old(a[..]), i, j)
  {
    a[i], a[j] := a[j], a[i];
  }

  lemma SwapInFront<T>(front: seq<T>, back: seq<T>, i: nat, j: nat)
    requires i < |front| && j < |front|
    ensures Swap(front + back, i, j) == Swap(front, i, j) + back
  {
  }

  /** What the loop still owes: the open part shuffled with the draws not yet used, then the settled part. */
  ghost predicate Owed<T>(open: seq<T>, settled: seq<T>, left: seq<Fraction>, result: seq<T>) {
    |left| >= (if |open| == 0 then 0 else |open| - 1) && Shuffled(open, ChoicesOf(|open|, left)) + settled == result
  }

  lemma OwedTurn<T>(open: seq<T>, settled: seq<T>, left: seq<Fraction>, result: seq<T>)
    requires |open| > 1 && Owed(open, settled, left, result)
    ensures var i := |open| - 1;
            var swapped := Swap(open, i, Pick(left[0], i));
            && Owed(swapped[..i], [swapped[i]] + settled, left[1..], result)
            && swapped[..i] + ([swapped[i]] + settled) == swapped + settled
  {
    var i := |open| - 1;
    var swapped := Swap(open, i, Pick(left[0], i));
    ShuffleTurn(open, left);
    assert Shuffled(swapped[..i], ChoicesOf(i, left[1..])) + [swapped[i]] + settled
        == Shuffled(swapped[..i], ChoicesOf(i, left[1..])) + ([swapped[i]] + settled);
  }

  method Shuffle<T>(arr: seq<T>, rnd: seq<Fraction>) returns (a: array<T>)
    requires |rnd| >= (if |arr| == 0 then 0 else |arr| - 1)
    ensures fresh(a)
    ensures a[..] == Shuffled(arr, ChoicesOf(|arr|, rnd))
  {
    a := new T[|arr|](k requires 0 <= k < |arr| => arr[k]);
    assert a[..] == arr;
    ghost var result := Shuffled(arr, ChoicesOf(|arr|, rnd));
    ghost var open, settled := arr, [];
    var left := rnd;
    var i := a.Length - 1;
    while i > 0
      invariant i == |open| - 1 && a[..] == open + settled && a.Length == |arr|
      invariant Owed(open, settled, left, result)
    {
      var j := Pick(left[0], i);
      OwedTurn(open, settled, left, result);
      SwapInFront(open, settled, i, j);
      SwapInPlace(a, i, j);
      ghost var swapped := Swap(open, i, j);
      open, settled, left := swapped[..i], [swapped[i]] + settled, left[1..];
      i := i - 1;
    }
  }

  lemma {:induction false} ShuffleKeepsElements<T>(s: seq<T>, js: seq<nat>)
    requires ValidChoices(|s|, js)
    ensures multiset(Shuffled(s, js)) == multiset(s)
    decreases |s|
  {
    if |s| > 1 {
      var i := |s| - 1;
      var swapped := Swap(s, i, js[0]);
      ShuffleKeepsElements(swapped[..i], js[1..]);
      SwapKeepsElements(s, i, js[0]);
      SplitLast(swapped);
    }
  }

  lemma SplitLast<T>(s: seq<T>)
    requires s != []
    ensures multiset(s) == multiset(s[..|s| - 1]) + multiset{s[|s| - 1]}
  {
    assert s == s[..|s| - 1] + [s[|s| - 1]];
  }

  // ----- The shuffle is a bijection -----

  function IndexOf<T(==)>(s: seq<T>, x: T): (k: nat)
    requires x in s
    ensures k < |s| && s[k] == x
  {
    if s[0] == x then 0 else 1 + IndexOf(s[1..], x)
  }

  lemma CancelOne<T>(a: multiset<T>, b: multiset<T>, x: T)
    requires a + multiset{x} == b + multiset{x}
    ensures a == b
  {
    assert a == a + multiset{x} - multiset{x};
    assert b == b + multiset{x} - multiset{x};
  }

  /** Putting the wanted last element in its place leaves the wanted elements for the rest. */
  lemma PlaceLast<T>(s: seq<T>, p: seq<T>, j: nat)
    requires multiset(p) == multiset(s) && |s| > 0 && j < |s| && |p| == |s| && s[j] == p[|s| - 1]
    ensures multiset(p[..|s| - 1]) == multiset(Swap(s, |s| - 1, j)[..|s| - 1])
  {
    var i := |s| - 1;
    var swapped := Swap(s, i, j);
    SwapKeepsElements(s, i, j);
    SplitLast(p);
    SplitLast(swapped);
    CancelOne(multiset(p[..i]), multiset(swapped[..i]), p[i]);
  }

  lemma SameSize<T>(s: seq<T>, p: seq<T>)
    requires multiset(p) == multiset(s)
    ensures |p| == |s|
    ensures p != [] ==> p[|p| - 1] in s
  {
    assert |multiset(p)| == |p| && |multiset(s)| == |s|;
    if p != [] {
      assert p[|p| - 1] in multiset(p);
    }
  }

  /** The choices that turn `s` into its permutation `p`. */
  function ChoicesFor<T(==)>(s: seq<T>, p: seq<T>): (js: seq<nat>)
    requires multiset(p) == multiset(s)
    ensures ValidChoices(|s|, js)
    decreases |s|
  {
    SameSize(s, p);
    if |s| <= 1 then []
    else
      var i := |s| - 1;
      var j := IndexOf(s, p[i]);
      PlaceLast(s, p, j);
      [j] + ChoicesFor(Swap(s, i, j)[..i], p[..i])
  }

  lemma ShuffledUnfold<T>(s: seq<T>, j: nat, js: seq<nat>)
    requires |s| > 1 && j < |s| && ValidChoices(|s| - 1, js)
    ensures ValidChoices(|s|, [j] + js)
    ensures Shuffled(s, [j] + js) == Shuffled(Swap(s, |s| - 1, j)[..|s| - 1], js) + [s[j]]
  {
    assert ([j] + js)[1..] == js;
  }

  /** Every permutation is produced. */
  lemma {:induction false} EveryPermutationIsReached<T>(s: seq<T>, p: seq<T>)
    requires multiset(p) == multiset(s)
    ensures Shuffled(s, ChoicesFor(s, p)) == p
    decreases |s|
  {
    SameSize(s, p);
    if |s| == 1 {
      assert p[0] in s;
    } else if |s| > 1 {
      var i := |s| - 1;
      var j := IndexOf(s, p[i]);
      PlaceLast(s, p, j);
      var rest := ChoicesFor(Swap(s, i, j)[..i], p[..i]);
      EveryPermutationIsReached(Swap(s, i, j)[..i], p[..i]);
      ShuffledUnfold(s, j, rest);
      assert p == p[..i] + [p[i]];
    }
  }

  ghost predicate AllDistinct<T>(s: seq<T>) {
    forall i, j :: 0 <= i < j < |s| ==> s[i] != s[j]
  }

  lemma IndexOfDistinct<T>(s: seq<T>, k: nat)
    requires AllDistinct(s) && k < |s|
    ensures IndexOf(s, s[k]) == k
  {
    var i := IndexOf(s, s[k]);
    assert s[i] == s[k];
  }

  lemma SwappedDistinct<T>(s: seq<T>, i: nat, j: nat)
    requires AllDistinct(s) && i < |s| && j < |s|
    ensures AllDistinct(Swap(s, i, j)[..i])
  {
  }

  /** Distinct elements: each permutation comes from one choice sequence only. */
  lemma {:induction false} ChoicesAreRecovered<T>(s: seq<T>, js: seq<nat>)
    requires AllDistinct(s) && ValidChoices(|s|, js)
    ensures multiset(Shuffled(s, js)) == multiset(s)
    ensures ChoicesFor(s, Shuffled(s, js)) == js
    decreases |s|
  {
    ShuffleKeepsElements(s, js);
    if |s| > 1 {
      var i, j, rest := |s| - 1, js[0], js[1..];
      var p, front := Shuffled(s, js), Swap(s, i, j)[..i];
      ShuffledUnfold(s, j, rest);
      assert js == [j] + rest;
      hide Shuffled, Swap, AllDistinct, IndexOf;
      var q := Shuffled(front, rest);
      assert p == q + [s[j]];
      SameSize(s, p);
      SwappedDistinct(s, i, j);
      ChoicesAreRecovered(front, rest);
      SameSize(front, q);
      assert p[..i] == q && p[i] == s[j];
      IndexOfDistinct(s, j);
    }
  }

  /**
   The shuffle is a bijection between the choice sequences and the permutations of distinct
   elements: no permutation is missed and none is more likely than another.
   */
  lemma ShuffleIsABijection<T>(s: seq<T>)
    requires AllDistinct(s)
    ensures forall js, js' | ValidChoices(|s|, js) && ValidChoices(|s|, js') ::
              Shuffled(s, js) == Shuffled(s, js') ==> js == js'
    ensures forall p: seq<T> | multiset(p) == multiset(s) ::
              ValidChoices(|s|, ChoicesFor(s, p)) && Shuffled(s, ChoicesFor(s, p)) == p
  {
    forall js, js' | ValidChoices(|s|, js) && ValidChoices(|s|, js') && Shuffled(s, js) == Shuffled(s, js')
      ensures js == js'
    {
      ChoicesAreRecovered(s, js);
      ChoicesAreRecovered(s, js');
    }
    forall p: seq<T> | multiset(p) == multiset(s)
      ensures Shuffled(s, ChoicesFor(s, p)) == p
    {
      EveryPermutationIsReached(s, p);
    }
  }
}
