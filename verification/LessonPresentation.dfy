/** A lesson as it is opened: its exercises in a new order, each with its choices or tiles in a new order. */
module LessonPresentation {
  import opened Shuffle
  import opened WordBank

  datatype Exercise =
    | ChooseOne(prompt: string, options: seq<string>, answer: string)
    | BuildSentence(prompt: string, tokens: seq<string>, words: seq<string>)
    | Other(content: string)

  /** How many choices presenting the exercise draws. */
  function Width(ex: Exercise): nat {
    match ex
    case ChooseOne(_, options, _) => |options|
    case BuildSentence(_, tokens, _) => |tokens|
    case Other(_) => 0
  }

  function ShuffleExercise(ex: Exercise, js: seq<nat>): Exercise
    requires ValidChoices(Width(ex), js)
  {
    match ex
    case ChooseOne(_, options, _) => ex.(options := Shuffled(options, js))
    case BuildSentence(_, tokens, _) => ex.(tokens := Shuffled(tokens, js))
    case Other(_) => ex
  }

  /** The draws for a whole lesson: the order first, then for each exercise in that order. */
  ghost predicate ValidDraws(exercises: seq<Exercise>, order: seq<nat>, draws: seq<seq<nat>>) {
    && ValidChoices(|exercises|, order) && |draws| == |exercises|
    && forall i :: 0 <= i < |exercises| ==> ValidChoices(Width(Shuffled(exercises, order)[i]), draws[i])
  }

  ghost predicate DrawsFit(exercises: seq<Exercise>, draws: seq<seq<nat>>) {
    |draws| == |exercises| && forall i :: 0 <= i < |exercises| ==> ValidChoices(Width(exercises[i]), draws[i])
  }

  function ShuffleEach(exercises: seq<Exercise>, draws: seq<seq<nat>>): (r: seq<Exercise>)
    requires DrawsFit(exercises, draws)
    ensures |r| == |exercises|
  {
    if exercises == [] then []
    else [ShuffleExercise(exercises[0], draws[0])] + ShuffleEach(exercises[1..], draws[1..])
  }

  function ShuffleLesson(exercises: seq<Exercise>, order: seq<nat>, draws: seq<seq<nat>>): (r: seq<Exercise>)
    requires ValidDraws(exercises, order, draws)
    ensures |r| == |exercises|
  {
    ShuffleEach(Shuffled(exercises, order), draws)
  }

  // ----- What grading can see -----

  /** An exercise but for the order its parts are shown in. */
  datatype Core =
    | Options(prompt: string, options: multiset<string>, answer: string)
    | Tiles(prompt: string, tokens: multiset<string>, words: seq<string>)
    | Fixed(content: string)

  function CoreOf(ex: Exercise): Core {
    match ex
    case ChooseOne(prompt, options, answer) => Options(prompt, multiset(options), answer)
    case BuildSentence(prompt, tokens, words) => Tiles(prompt, multiset(tokens), words)
    case Other(content) => Fixed(content)
  }

  function Cores(exercises: seq<Exercise>): (r: seq<Core>)
    ensures |r| == |exercises| && forall i :: 0 <= i < |exercises| ==> r[i] == CoreOf(exercises[i])
  {
    seq(|exercises|, i requires 0 <= i < |exercises| => CoreOf(exercises[i]))
  }

  lemma ShuffleKeepsCore(ex: Exercise, js: seq<nat>)
    requires ValidChoices(Width(ex), js)
    ensures CoreOf(ShuffleExercise(ex, js)) == CoreOf(ex)
  {
    match ex
    case ChooseOne(_, options, _) => ShuffleKeepsElements(options, js);
    case BuildSentence(_, tokens, _) => ShuffleKeepsElements(tokens, js);
    case Other(_) =>
  }

  lemma {:induction false} ShuffleEachKeepsCores(exercises: seq<Exercise>, draws: seq<seq<nat>>)
    requires DrawsFit(exercises, draws)
    ensures Cores(ShuffleEach(exercises, draws)) == Cores(exercises)
  {
    if exercises != [] {
      hide CoreOf, ShuffleExercise, ValidChoices, Cores;
      var ex, rest := exercises[0], exercises[1..];
      ShuffleKeepsCore(ex, draws[0]);
      ShuffleEachKeepsCores(rest, draws[1..]);
      CoresStep(ex, rest);
      CoresStep(ShuffleExercise(ex, draws[0]), ShuffleEach(rest, draws[1..]));
      assert exercises == [ex] + rest;
    }
  }

  lemma CoresStep(ex: Exercise, rest: seq<Exercise>)
    ensures Cores([ex] + rest) == [CoreOf(ex)] + Cores(rest)
  {
    hide CoreOf;
  }

  lemma CoresOfSwap(exercises: seq<Exercise>, i: nat, j: nat)
    requires i < |exercises| && j < |exercises|
    ensures Cores(Swap(exercises, i, j)) == Swap(Cores(exercises), i, j)
  {
    hide CoreOf;
  }

  lemma CoresOfFront(exercises: seq<Exercise>, n: nat)
    requires n <= |exercises|
    ensures Cores(exercises[..n]) == Cores(exercises)[..n]
  {
    hide CoreOf;
  }

  lemma CoresAppend(front: seq<Exercise>, last: Exercise)
    ensures Cores(front + [last]) == Cores(front) + [CoreOf(last)]
  {
    hide CoreOf;
  }

  lemma {:induction false} CoresFollowSwaps(exercises: seq<Exercise>, order: seq<nat>)
    requires ValidChoices(|exercises|, order)
    ensures Cores(Shuffled(exercises, order)) == Shuffled(Cores(exercises), order)
    decreases |exercises|
  {
    if |exercises| > 1 {
      var i, j, rest := |exercises| - 1, order[0], order[1..];
      var front := Swap(exercises, i, j)[..i];
      assert order == [j] + rest;
      ShuffledUnfold(exercises, j, rest);
      ShuffledUnfold(Cores(exercises), j, rest);
      hide CoreOf, Cores, Swap, Shuffled;
      CoresFollowSwaps(front, rest);
      CoresOfSwap(exercises, i, j);
      CoresOfFront(Swap(exercises, i, j), i);
      CoresAppend(Shuffled(front, rest), exercises[j]);
    }
  }

  /** An opened lesson has exactly the authored exercises: none lost, doubled or with another answer. */
  lemma LessonKeepsExercises(exercises: seq<Exercise>, order: seq<nat>, draws: seq<seq<nat>>)
    requires ValidDraws(exercises, order, draws)
    ensures multiset(Cores(ShuffleLesson(exercises, order, draws))) == multiset(Cores(exercises))
  {
    ShuffleEachKeepsCores(Shuffled(exercises, order), draws);
    CoresFollowSwaps(exercises, order);
    ShuffleKeepsElements(Cores(exercises), order);
  }

  // ----- Every way of showing a lesson -----

  lemma ExerciseIsReached(ex: Exercise, shown: Exercise) returns (js: seq<nat>)
    requires CoreOf(shown) == CoreOf(ex)
    ensures ValidChoices(Width(ex), js) && ShuffleExercise(ex, js) == shown
  {
    match ex
    case ChooseOne(_, options, _) =>
      js := ChoicesFor(options, shown.options);
      EveryPermutationIsReached(options, shown.options);
    case BuildSentence(_, tokens, _) =>
      js := ChoicesFor(tokens, shown.tokens);
      EveryPermutationIsReached(tokens, shown.tokens);
    case Other(_) =>
      js := [];
  }

  lemma {:induction false} EachIsReached(exercises: seq<Exercise>, shown: seq<Exercise>) returns (draws: seq<seq<nat>>)
    requires Cores(shown) == Cores(exercises)
    ensures DrawsFit(exercises, draws) && ShuffleEach(exercises, draws) == shown
  {
    hide CoreOf, ShuffleExercise, ValidChoices, Width, Cores;
    assert |shown| == |exercises| by { SameCores(exercises, shown); }
    if exercises == [] {
      draws := [];
    } else {
      var rest, others := exercises[1..], shown[1..];
      SameCores(exercises, shown);
      var js := ExerciseIsReached(exercises[0], shown[0]);
      var more := EachIsReached(rest, others);
      draws := [js] + more;
      assert exercises == [exercises[0]] + rest && shown == [shown[0]] + others && draws[1..] == more;
    }
  }

  lemma SameCores(exercises: seq<Exercise>, shown: seq<Exercise>)
    requires Cores(shown) == Cores(exercises)
    ensures |shown| == |exercises|
    ensures exercises != [] ==> CoreOf(shown[0]) == CoreOf(exercises[0]) && Cores(shown[1..]) == Cores(exercises[1..])
  {
    hide CoreOf;
    assert |Cores(shown)| == |Cores(exercises)|;
    if exercises != [] {
      assert Cores(shown)[0] == Cores(exercises)[0];
      assert Cores(shown)[1..] == Cores(shown[1..]) && Cores(exercises)[1..] == Cores(exercises[1..]);
    }
  }

  /**
   A lesson can be shown in exactly the ways that keep its exercises: in every order, with every order
   of the choices and tiles in each.
   */
  lemma LessonIsShownIff(exercises: seq<Exercise>, shown: seq<Exercise>)
    ensures (exists order, draws :: ValidDraws(exercises, order, draws)
                                    && ShuffleLesson(exercises, order, draws) == shown)
       <==> multiset(Cores(shown)) == multiset(Cores(exercises))
  {
    if multiset(Cores(shown)) == multiset(Cores(exercises)) {
      var order, draws := LessonIsReached(exercises, shown);
    }
    hide ShuffleLesson, ValidDraws, Cores;
    forall order, draws | ValidDraws(exercises, order, draws) && ShuffleLesson(exercises, order, draws) == shown
      ensures multiset(Cores(shown)) == multiset(Cores(exercises))
    {
      LessonKeepsExercises(exercises, order, draws);
    }
  }

  lemma LessonIsReached(exercises: seq<Exercise>, shown: seq<Exercise>) returns (order: seq<nat>, draws: seq<seq<nat>>)
    requires multiset(Cores(shown)) == multiset(Cores(exercises))
    ensures ValidDraws(exercises, order, draws) && ShuffleLesson(exercises, order, draws) == shown
  {
    hide CoreOf, Cores, ShuffleExercise, ValidChoices, Width, Shuffled;
    order := ChoicesFor(Cores(exercises), Cores(shown));
    EveryPermutationIsReached(Cores(exercises), Cores(shown));
    assert |Cores(exercises)| == |exercises|;
    CoresFollowSwaps(exercises, order);
    draws := EachIsReached(Shuffled(exercises, order), shown);
  }

  // ----- Whether a learner can answer -----

  /** Some choice or some line of tiles is graded as correct. */
  ghost predicate Answerable(ex: Exercise) {
    match ex
    case ChooseOne(_, options, answer) => exists i :: 0 <= i < |options| && options[i] == answer
    case BuildSentence(_, tokens, words) => exists build :: Accepted(tokens, words, build)
    case Other(_) => true
  }

  predicate CoreAnswerable(core: Core) {
    match core
    case Options(_, options, answer) => answer in options
    case Tiles(_, tokens, words) => multiset(words) <= tokens && words != []
    case Fixed(_) => true
  }

  /** That depends on no order: grading goes by value. */
  lemma AnswerableByCore(ex: Exercise)
    ensures Answerable(ex) <==> CoreAnswerable(CoreOf(ex))
  {
    if ex.BuildSentence? {
      BuildableIffDrawn(ex.tokens, ex.words);
      if multiset(ex.words) <= multiset(ex.tokens) && ex.words != [] {
        var build :| DistinctTiles(build, |ex.tokens|) && Spelled(ex.tokens, build) == ex.words;
        assert Accepted(ex.tokens, ex.words, build);
      }
    }
  }

  /** So an opened lesson can be completed exactly when the authored one can. */
  lemma LessonStaysAnswerable(exercises: seq<Exercise>, order: seq<nat>, draws: seq<seq<nat>>)
    requires ValidDraws(exercises, order, draws)
    ensures (forall i :: 0 <= i < |exercises| ==> Answerable(ShuffleLesson(exercises, order, draws)[i]))
       <==> (forall i :: 0 <= i < |exercises| ==> Answerable(exercises[i]))
  {
    hide Answerable, CoreOf, CoreAnswerable, ShuffleLesson;
    var shown := ShuffleLesson(exercises, order, draws);
    LessonKeepsExercises(exercises, order, draws);
    AllAnswerableByCores(exercises);
    AllAnswerableByCores(shown);
  }

  lemma AllAnswerableByCores(exercises: seq<Exercise>)
    ensures (forall i :: 0 <= i < |exercises| ==> Answerable(exercises[i]))
       <==> (forall c :: c in multiset(Cores(exercises)) ==> CoreAnswerable(c))
  {
    hide Answerable, CoreOf, CoreAnswerable;
    var cores := Cores(exercises);
    forall i | 0 <= i < |exercises| ensures Answerable(exercises[i]) <==> CoreAnswerable(cores[i]) {
      AnswerableByCore(exercises[i]);
    }
    if forall c :: c in multiset(cores) ==> CoreAnswerable(c) {
      forall i | 0 <= i < |exercises| ensures Answerable(exercises[i]) {
        assert cores[i] in multiset(cores);
      }
    }
  }
}
