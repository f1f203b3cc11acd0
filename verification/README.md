# French study app: its protocols and rules, proved

The app teaches French for language exams: lessons, comprehension sets, mock exams, spaced
reviews and tutor drills, with language models behind a router and a cache. This project models
the parts of it that carry real logic and proves what they are for. The model follows the code:
objects that update their fields are classes (`MemoryCache`, `AIRouter`, `ProgressStore`,
`LookupTable`), loops are methods with invariants proved against functions, and what is promised
is proved about those functions for all inputs and all runs.

| part | modules |
|---|---|
| TTL and LRU cache, router with fallback chain | `Options`, `Sets`, `MemoryCaches`, `CacheRuns`, `LruInclusion`, `Router`, `RouterThreads` |
| Lesson presentation: shuffles, word banks | `Shuffle`, `WordBank`, `LessonPresentation` |
| Learner progress: XP, streak, lessons, gating, exams, as interleaved requests | `Gating`, `Streak`, `ProgressTables`, `ProgressProtocol`, `ProgressHistory`, `ProgressLedger`, `ProgressLessons`, `ProgressStreak`, `MidnightRace`, `PathCompletion`, `ExamAttempts`, `RequestEffects` |
| Model evaluation: pairwise judging, win rates, weights | `Evaluation`, `EvaluationLaws`, `Tradeoff`, `Judge` |
| The examiner's conversation window | `ConversationHistory` |
| French text: respelling, lookup keys, shared lookups | `Text`, `Lexicon`, `Articles`, `Lookup`, `RespelledKeys`, `OpeningWords`, `LookupRows`, `SpellingRules` |
| French text: word forms tidied on write and on read | `Elision`, `ElisionInContext`, `Forms`, `VerbsSettle`, `ComplementsSettle`, `ComplementsBreak`, `FormsSettle`, `VerbRules`, `CardRules` |

## How the concurrent part is modelled

A request is a flight: it reads rows at any time, possibly before other requests commit, and then
commits all its writes at once. Insert-or-ignore, guarded updates and increments act on the tables
as they are at the commit; plain assignments to a row read earlier are computed from that stale
row, and, as the ORM does, a column is written only if its new value differs from the one read. A
run is any sequence of arrivals, reads, commits and midnights. The theorems on XP, lessons and
gating hold in every state of every run from empty tables.

The model lets any request read early. In the code a request that has written something reads the
progress row afterwards (app/progress/api.py:116-157, app/comprehension/api.py:167-181,
app/exam/api.py:261-269), so its runs are among those of the model. The race across midnight is
shown with requests that change nothing before that read: waiving a waived lesson again.

## Where the code does less than it says

Each of these is a lemma with a concrete input, or a lemma for a whole family of inputs, beside a
theorem that says when the promise does hold.

- A streak can come out short when a request that read the progress row before midnight commits
  after another one (`MidnightRace.MidnightRaceHappens`); `Streak.StreakSurvivesIff` says exactly
  when a stale write keeps it. The comment in app/progress/service.py:121-122 is right for requests
  of one day.
- Two exam starts that overlap leave two open attempts, and then starting that exam fails while both
  are open (`ExamAttempts.StartRace`). `ExamAttempts.AlwaysOneOpenIff` says which runs avoid it.
- The validator accepts a word bank with an empty answer, which no learner can submit
  (`WordBank.SolvableAfterAnyShuffle`).
- Respelling is said never to change the lookup slug (app/content/lexicon.py:77-78). It changes it
  exactly when the first words gain or lose an article (`OpeningWords.RespellKeepsSlugIff`), as for
  "lé a" (`RespelledKeys.RespellMovesLookupSlug`); and the accent-free key itself changes exactly when
  a capitalized word gives way to a form in ß or µ (`Lexicon.RespellKeepsKeyIff`).
- A stored headword leads back to its own row exactly when neither the word nor a spelling taken for
  it has a second article (`LookupRows.FreshRowFindsItselfIff`); "le la é" and "le-é" are words that
  fail (`LookupRows.TwoArticlesMisfile`, `LookupRows.SecondArticleMisfiles`).
- Forms of a headword such as "avoir le" are not settled by tidying: each read adds the complement
  that elision took away (`ComplementsSettle.ArticleComesBack`). All forms of a headword settle
  exactly when no elision can touch its complement (`ComplementsBreak.AllFormsSettleIff`). Adjective
  entries with two determiners lose one per pass (`FormsSettle.AdjectiveSettlesIff`).
- "je me hâte" is given as a form that does not elide (app/content/forms.py:115), but under the headword
  "se hâter" it becomes "je m'hâte" (`VerbRules.ReflexiveAspirateElides`): the letter in front of an
  aspirate h is kept exactly if the headword is the bare verb (`VerbRules.CliticBeforeAspirateIff`).

## Model

| member | source | states |
|---|---|---|
| MemoryCaches.MemoryCache.Get | app/cache/memory.py:28-38 | a live entry is returned and becomes the most recent; an expired one is dropped; anything else leaves the store alone |
| MemoryCaches.MemoryCache.Set | app/cache/memory.py:40-47 | the entry goes last with its deadline, then the oldest go until the bound holds; size never exceeds the bound |
| MemoryCaches.MemoryCache.Delete | app/cache/memory.py:49-51 | exactly that key is gone |
| MemoryCaches.MemoryCache.Clear | app/cache/memory.py:53-55 | nothing is left |
| MemoryCaches.GetKeepsStore | app/cache/memory.py:28-38 | a get keeps keys distinct and never grows the store |
| MemoryCaches.SetKeepsStore | app/cache/memory.py:40-47 | a set keeps keys distinct and ends within the bound |
| CacheRuns.RunKeepsStore | app/cache/memory.py:15-55 | over any run of calls keys stay distinct and the size stays within the bound |
| CacheRuns.AlwaysAccounted | app/cache/memory.py:25-48 | a key is gone from the store only if the unbounded map has dropped it too, or at least `max_entries` other keys were set or hit since its last use |
| CacheRuns.CacheAgreesWithTimedMap | app/cache/memory.py:25-55 | a hit returns what an unbounded timed map holds; a miss where that map has an answer happens only after `max_entries` other keys were used |
| CacheRuns.ReadsRespectLifetimes | app/cache/memory.py:25-47 | over any run: a value set with a lifetime of t > 0 seconds misses from t seconds on; before, and always for t <= 0, it is returned unless `max_entries` other keys were used since |
| CacheRuns.UnsetKeysMiss | app/cache/memory.py:28-55 | a key never set, or deleted or cleared away since, is never found |
| LruInclusion.OneMoreSlot | app/cache/memory.py:40-47 | on the same calls, a cache with one more slot holds the same entries in the same order plus at most one, the oldest |
| LruInclusion.SmallerCacheIsIncluded | app/cache/memory.py:40-47 | the smaller of two caches is always a recency-ordered subsequence of the bigger |
| LruInclusion.BiggerCacheNeverMissesMore | app/cache/memory.py:28-47 | a bigger cache never misses where a smaller one hits |
| Router.Order | app/ai/policy.py:34-44 | the loop appends the static targets a learned order lacks; the result is the policy order |
| Router.PolicyKeepsStaticTargets | app/ai/policy.py:21-44 | every static target stays in the policy order, a learned order comes first unchanged, nothing else comes in, and without one the order is the static one |
| Router.AIRouter.Run | app/ai/router.py:87-137 | one request on the mutable cache does what the walk over the policy order does: same outcome, same store |
| Router.FirstServingTargetAnswers | app/ai/router.py:103-137 | the answer comes from the first target in order that hits or succeeds, and the run fails exactly when no target does |
| Router.RunIsFaithful | app/ai/router.py:117-136 | over any run, everything in the cache is a copy of a provider's answer to that very key |
| Router.AnswersAreFaithful | app/ai/router.py:117-171 | an answer is the provider's own, or a zero-cost copy of an earlier provider answer to the same profile, request and one of its targets |
| Router.CostIsConserved | app/ai/router.py:155-171 | over any run the costs returned add up to what the providers charged |
| Router.RepeatIsFree | app/ai/router.py:117-136 | a request just answered by its first target is free to repeat for the profile's or the default number of seconds, forever if that is zero or less, and asked and paid again from then on |
| Router.TargetsOfProfile | app/ai/router.py:99-102 | with the static policy a profile's targets are its primary, then its fallback if it names one |
| Router.FallbackAnswers | app/ai/router.py:103-137 | with nothing cached the primary's reply is the answer, else the fallback's, else the failure with the last error |
| Router.UncachedIsAlwaysAsked | app/ai/router.py:99-136 | without a cache, or for a profile that asks for none, nothing is kept and every answer was asked for |
| RouterThreads.InterleavedAnswersAreFaithful | app/ai/router.py:103-137 | however requests interleave on the shared cache, it holds copies of provider answers under their keys, and every answer is a provider's own or a free copy of one to the same request |
| RouterThreads.InterleavedCostIsConserved | app/ai/router.py:123-136 | however requests interleave, what they report adds up to what the providers charged |
| Shuffle.Shuffle | web/src/shuffle.ts:11-18 | the in-place loop yields the permutation its draws choose, on a fresh array |
| Shuffle.PickReaches | web/src/shuffle.ts:14 | every index up to i is drawn for some random number |
| Shuffle.PickIsUniform | web/src/shuffle.ts:14 | each index is picked by exactly the random numbers of one interval of length 1 / (i + 1) |
| Shuffle.ShuffleKeepsElements | web/src/shuffle.ts:11-18 | a shuffle is a permutation |
| Shuffle.EveryPermutationIsReached | web/src/shuffle.ts:11-18 | each permutation is produced by the choices computed from it, repeated elements included |
| Shuffle.ChoicesAreRecovered | web/src/shuffle.ts:11-18 | for distinct elements the result gives the choices back |
| Shuffle.ShuffleIsABijection | web/src/shuffle.ts:11-18 | for distinct elements choice sequences and permutations correspond one to one |
| WordBank.AnswerDrawnFromTokens | app/content/models.py:53-61 | the greedy removal accepts exactly the answers that are sub-multisets of the tiles |
| WordBank.TapsKeepTilesDistinct | web/src/screens/Lesson.tsx:176-197 | no sequence of taps uses a tile twice |
| WordBank.DistinctTilesAreReached | web/src/screens/Lesson.tsx:176-197 | every list of distinct tiles can be tapped together |
| WordBank.EveryLineStaysReachable | web/src/screens/Lesson.tsx:176-197 | whatever has been tapped, every list of distinct tiles can still be tapped together |
| WordBank.BuildableIffDrawn | web/src/screens/Lesson.tsx:178-180 | a sentence can be built from the tiles exactly when it is a sub-multiset of them |
| WordBank.SolvableAfterAnyShuffle | app/content/models.py:53-61 | after any shuffle some taps are graded correct exactly when the validator accepts the exercise and the answer is not empty |
| WordBank.ShuffleKeepsSentences | web/src/shuffle.ts:29-34 | a shuffle changes neither the sentences that can be built nor the one accepted |
| LessonPresentation.LessonKeepsExercises | web/src/shuffle.ts:29-42 | an opened lesson has exactly the authored exercises, as a multiset, up to the order of options and tiles |
| LessonPresentation.LessonIsShownIff | web/src/shuffle.ts:29-42 | a lesson can be shown in exactly the ways that have its exercises up to order: any order of them, with any order of each one's options or tiles |
| LessonPresentation.AnswerableByCore | web/src/shuffle.ts:5-6 | whether an exercise can be answered depends on values only, never on positions |
| LessonPresentation.LessonStaysAnswerable | web/src/shuffle.ts:39-42 | every exercise of the opened lesson can be answered exactly when every authored one can |
| Gating.ComputeUnitStatus | app/content/api.py:56-70 | the loop gives each unit its status: complete when finished, locked by an unmet requirement, otherwise available |
| Gating.LockedIff | app/content/api.py:49-70 | a unit is complete exactly when it has lessons and all are completed; otherwise it is locked exactly when its type is not "none" and some requirement is neither a completed lesson nor the id of a finished unit |
| Gating.IsLessonUnlocked | app/content/api.py:73-88 | open exactly when no unit of the level owns the lesson or its first owner is not locked |
| Gating.LessonClosedIff | app/content/api.py:73-88 | a lesson is closed exactly while the first unit of its level that owns it is unfinished and requires something unmet |
| Gating.StatusOnlyAdvances | app/content/api.py:49-70 | more completed lessons never move a unit back |
| Gating.UnlockedStaysUnlocked | app/content/api.py:73-88 | an open lesson stays open as the completed set grows |
| Gating.FirstOpenUnitIsUnlocked | app/content/api.py:49-70 | on a path whose prerequisites point back, the first unfinished unit is open and has an open unfinished lesson |
| Streak.StreakIsExact | app/progress/models.py:86-95 | the update turns the length of the run of days ending at the last active day into that of the run ending today |
| Streak.SameDayConverges | app/progress/service.py:121-129 | requests of one day, however stale their reads, leave the exact streak |
| Streak.StreakSurvivesIff | app/progress/service.py:128-129 | for any stale read and any dates, a write keeps the streak exact if and only if the row read was of the same day, or no later day is active and the run it continues is still the whole run, or it rightly starts one, or rightly writes nothing |
| Streak.SameRun | app/progress/models.py:86-95 | a run of days seen earlier is still the whole run exactly if the day before it is not active |
| MidnightRace.RaceLosesTheStreak | app/progress/service.py:120-129 | from any exact state two requests that straddle midnight leave a streak of k + 2 days at two or one |
| MidnightRace.MidnightRaceHappens | app/progress/service.py:120-129 | a run from empty tables with three active days in a row and a streak of two |
| ProgressTables.ProgressStore.InsertDailyXp | app/progress/service.py:77-82 | insert or ignore: the row count is one for the first claim only |
| ProgressTables.ProgressStore.UpsertDailyXp | app/progress/service.py:83-91 | the row is created or increased by the award |
| ProgressTables.ProgressStore.ClaimDaily | app/progress/service.py:69-91 | a once-a-day source is granted once, others accumulate, and the grant returned is what the ledger gained |
| ProgressTables.ProgressStore.GetOrCreateProgress | app/progress/service.py:53-66 | an existing row is kept, a missing one starts at zero |
| ProgressTables.ProgressStore.RecordActivity | app/progress/service.py:105-134 | the whole effect on ledger and progress row, from a possibly stale row |
| ProgressTables.ProgressStore.SubmitFailedResult | app/progress/api.py:68-109 | attempts go up by one, nothing is passed, and the reply says whether a waive is open |
| ProgressTables.ProgressStore.SubmitPassedResult | app/progress/api.py:111-162 | insert-or-ignore then guarded flip: passed, with XP for the first pass only |
| ProgressTables.ProgressStore.Waive | app/progress/api.py:182-200 | accepted for an unpassed lesson waived before or failed twice; sets the flag and pays nothing |
| ProgressTables.ProgressStore.SubmitPassedSet | app/comprehension/api.py:166-182 | the set is claimed and paid once |
| ProgressTables.ProgressStore.FinishExam | app/exam/api.py:259-271 | only the request that flips the status is paid |
| ProgressTables.ProgressStore.RecordSection | app/exam/api.py:188-203 | one section's key is patched, the others stay |
| ProgressTables.LevelOnlyRises | app/progress/service.py:123-127 | one request at a time, the level becomes the higher of the two |
| RequestEffects.ResultPassesIff | app/progress/api.py:66-162 | a result passes exactly from the threshold on; the first pass pays 10 and nothing else does |
| RequestEffects.ResultIsRecorded | app/progress/api.py:68-130 | the row keeps the latest score, except that a later pass changes nothing; attempts rise by one for a failing result only; other rows stay |
| RequestEffects.UnknownLessonIsNotFound | app/progress/api.py:54-56 | a lesson that is not published is not found and nothing changes |
| RequestEffects.FailingReplyOffersIff | app/progress/api.py:95-109 | in every state of every run a failing reply counts the failing results and offers a waive exactly from the second on, while neither passed nor waived |
| RequestEffects.WaiveIsAcceptedIff | app/progress/api.py:165-208 | in every state of every run a waive is accepted exactly with two failing results in the history and no pass; otherwise it is refused and changes nothing |
| RequestEffects.SetPaysIff | app/comprehension/api.py:163-182 | a set pays 15 exactly for the first submission that passes in time |
| RequestEffects.ReviewPaysIff | app/srs/api.py:134-142 | a review of a known card pays 10 the first time on a day and counts as activity each time |
| RequestEffects.DrillPaysIff | app/tutor/api.py:65-76 | so does a delivered drill; one over the budget changes nothing |
| RequestEffects.FinishPaysIff | app/exam/api.py:259-271 | finishing pays 25 exactly to the request that finishes the attempt |
| RequestEffects.StartOpensIff | app/exam/api.py:97-130 | starting opens an empty attempt exactly when none is under way, and fails exactly when two are |
| RequestEffects.ActivityRaisesLevel | app/progress/service.py:123-127 | alone, every activity takes its learner to the higher of their level and that of the lesson, set, exam or drill, and touches no other learner |
| RequestEffects.LevelsRank | app/progress/service.py:19 | a1 to c2 in order, anything else below them |
| ProgressProtocol.CommitGrows | app/progress/api.py:66-208 | no committed request ever takes back a pass, a waive, an attempt, a claim, a ledger row or a finish |
| ProgressProtocol.BehindStays | app/progress/service.py:26-35 | what a request has read stays behind the tables as others commit |
| ProgressProtocol.Run | app/progress/api.py:66-208 | every run keeps all flights coherent with the tables, and the tables, history and clock only grow |
| ProgressLedger.TotalAfterWrite | app/progress/service.py:94-102 | writing one ledger row changes a learner's total by that row's change only |
| ProgressLedger.StepKeepsBooks | app/progress/service.py:105-134 | every step of the protocol keeps total, ledger and history in balance |
| ProgressLedger.XpIsConserved | app/progress/service.py:69-134 | in every interleaving total XP is the sum of the ledger and is 10 per lesson passed, 15 per set, 25 per exam, 10 per review day and 10 per drill day |
| ProgressLessons.LessonBooksAreKept | app/progress/api.py:68-200 | attempts count the failing results, a lesson is passed or waived exactly when such a request committed, a waive took two failures, and exactly one passing submission is first |
| ProgressLessons.LessonsNeverRevert | app/progress/api.py:68-200 | passed and waived never go back and attempts never fall |
| ProgressLessons.GatingIsSound | app/progress/api.py:58-62 | in every interleaving, gated on stale reads, each passed or waived lesson is in no unit or in one that is not locked |
| ProgressLessons.LockedOutWhileClosed | app/progress/api.py:58-62 | in every coherent state, while a requirement of the owning unit is unmet in the tables, results and waives are refused as locked and change nothing, whatever was read before |
| ProgressLessons.RequirementsAreMet | app/progress/api.py:58-62 | in every interleaving a lesson of a gated unit is passed or waived only if every requirement of that unit is met |
| ProgressLessons.OfferedWaiveIsAccepted | app/progress/api.py:101-108 | a failing reply that offers a waive keeps its word, whatever commits meanwhile, unless the lesson has been passed |
| ProgressStreak.StreakIsAlwaysExact | app/progress/service.py:121-129 | in every run in which no request straddles midnight the streak is the number of consecutive active days ending at the last one |
| PathCompletion.FailTwiceThenWaive | app/progress/api.py:165-208 | two failing results and a waive, and nothing else, complete any open lesson and pass none |
| PathCompletion.CompleteLesson | app/progress/api.py:42-208 | from any reachable state an open lesson can be completed |
| PathCompletion.PathNeverDeadEnds | app/content/api.py:49-70 | from any reachable state of a well-founded path some requests finish every unit |
| PathCompletion.PathFinishesByWaiving | app/progress/api.py:165-208 | failing results and waives alone finish every unit of a well-founded path, passing nothing |
| ExamAttempts.StartKeepsOneOpenIff | app/exam/api.py:102-130 | whatever a start has read, it keeps one open attempt each exactly if it misses none |
| ExamAttempts.AlwaysOneOpenIff | app/exam/api.py:102-130 | in every interleaving, one open attempt each all along the run exactly if no start commits on a read that missed an open one |
| ExamAttempts.OneOpenAttemptEach | app/exam/api.py:100-130 | one request at a time, a learner never has two open attempts at an exam and no next request fails on them |
| ExamAttempts.StartRace | app/exam/api.py:102-117 | two overlapping starts leave two open attempts, and starting fails in every state in which both are open |
| ExamAttempts.FinishedSectionsAreFinal | app/exam/api.py:164-166 | one request at a time, a finished attempt never changes |
| ExamAttempts.FinishedExamsAreComplete | app/exam/api.py:245-265 | in every interleaving a finished attempt has a result for every skill its exam requires |
| ExamAttempts.FinishIsRefusedIff | app/exam/api.py:245-271 | finishing an open attempt of one's own is refused exactly when a required skill is missing, and otherwise finishes it |
| ExamAttempts.OnlyOwnAttempts | app/exam/api.py:164 | attempts of others, or none, are not found and change nothing |
| ExamAttempts.SectionIsRefusedIff | app/exam/api.py:164-203 | a section is recorded under its skill exactly while the attempt is open |
| ExamAttempts.SetSectionsCommute | app/exam/api.py:188-203 | section writes to different places commute and lose nothing |
| ExamAttempts.SectionsCommute | app/exam/api.py:188-203 | sections recorded at the same time for different skills both stay |
| Evaluation.PairwiseWinRates | app/ai/evaluation.py:46-66 | each model that played gets its points over its games, a win 1 and a tie one half; others are absent |
| Evaluation.PointsAreConserved | app/ai/evaluation.py:57-66 | every comparison hands out exactly one point |
| EvaluationLaws.AdvantagesSumToZero | app/ai/evaluation.py:69-74 | advantages sum to zero |
| EvaluationLaws.WeightIsPositive | app/ai/evaluation.py:97-100 | every weight is positive |
| EvaluationLaws.WeightsSumToOne | app/ai/evaluation.py:97-100 | the weights sum to one |
| EvaluationLaws.WeightOrder | app/ai/evaluation.py:97-100 | weights are ordered as utilities, strictly, for a positive temperature |
| EvaluationLaws.BetterAndCheaperWins | app/ai/evaluation.py:85-100 | no worse and no dearer never gets a smaller weight |
| EvaluationLaws.WeightsIgnoreShiftAndScale | app/ai/evaluation.py:69-100 | shifting all qualities and scaling all costs leaves every weight as it was |
| EvaluationLaws.SortIsBestFirst | app/ai/evaluation.py:102-106 | the ranking is a permutation of the entries, best weight first |
| EvaluationLaws.PrimaryHasBestUtility | app/ai/evaluation.py:102-115 | the suggested primary has the best utility of all |
| Tradeoff.UtilityDifference | app/ai/evaluation.py:77-95 | two utilities differ by the difference in quality less `lam` times that in cost over the highest cost; by quality alone if nothing costs |
| Tradeoff.WeightTradesQualityForCost | app/ai/evaluation.py:85-106 | of two ranked entries one weighs more exactly when it gains more in quality than it loses in cost at that rate |
| Tradeoff.StrictlyBetterWeighsMore | app/ai/evaluation.py:85-106 | as good and cheaper, or as cheap and better, weighs strictly more |
| Tradeoff.WeightsAreSoftmax | app/ai/evaluation.py:97-100 | two weights stand to each other as the exponentials of `eta` times the utilities |
| Judge.PositionNeverDecides | app/ai/judge.py:59-66 | swapping the outputs swaps the verdict, and a judge that only goes by position always yields a tie |
| Judge.Generate | app/ai/judge.py:84-90 | each candidate's cost is the sum over the items |
| Judge.Play | app/ai/judge.py:92-98 | the nested loops play every pair on every item in order |
| Judge.RoundingKeepsOrder | app/ai/judge.py:103 | a cost rounded to six places is nearest and keeps its order |
| Judge.RunPairwiseEval | app/ai/judge.py:69-107 | the whole evaluation is the ranking of the round robin's win rates and rounded costs |
| Judge.EveryonePlaysEveryone | app/ai/judge.py:95 | each candidate is in as many pairs as there are others |
| Judge.GamesEach | app/ai/judge.py:92-98 | each candidate plays every other once per item |
| Judge.EachItemIsJudged | app/ai/judge.py:93-98 | item by item every pair is judged on that very item |
| Judge.PointsEqualComparisons | app/ai/judge.py:92-98 | whatever the judge says, total points equal the number of comparisons |
| Judge.WinRatesSumToHalf | app/ai/judge.py:92-107 | the win rates add up to half the number of candidates |
| Judge.AdvantageIsRateLessHalf | app/ai/judge.py:100-107 | each advantage of the ranking is the win rate less one half |
| Judge.ScoreIsWinOrHalf | app/ai/judge.py:96-98 | a verdict is worth 1, one half or 0 to each side, if no candidate is called "tie" |
| ConversationHistory.RecentHistory | app/speech/api.py:63-83 | the loop builds the messages of the turns after the cut, blank utterances left out |
| ConversationHistory.CutIsWithin | app/speech/api.py:72-73 | all turns up to 16, then always the latest 9 to 16 |
| ConversationHistory.WindowTellsTheLatestTurns | app/speech/api.py:63-83 | from the prompt the latest turns can be read back in order: every reply, and every utterance that is not blank |
| ConversationHistory.CutMovesIff | app/speech/api.py:72-73 | the cut moves with turns 17, 25, 33 and so on and no others |
| ConversationHistory.PromptIsAppendOnly | app/speech/api.py:53-83 | except at those turns the prompt for n turns is a prefix of that for n + 1 |
| ConversationHistory.MovedCutBreaksPrompt | app/speech/api.py:53-83 | at those turns it is not, when replies differ |
| ConversationHistory.OneBreakInEight | app/speech/api.py:53-57 | at most one of any eight consecutive turns breaks the prefix |
| Text.FoldConcat | app/content/lexicon.py:37-40 | folding is a homomorphism |
| Text.UpperKeepsFoldIff | app/content/lexicon.py:37-40 | a capital folds as its letter does, but for ß and µ |
| Lexicon.Load | app/content/lexicon.py:43-57 | the loop builds the two tables line by line |
| Lexicon.LoadedIsKeyed | app/content/lexicon.py:49-56 | the form filed under a key has that key, for any lines |
| Lexicon.BestIsMostFrequent | app/content/lexicon.py:54-56 | if no form is listed twice it is the most frequent one |
| SpellingRules.LoadedAsWritten | app/content/lexicon.py:49-53 | a form is filed with what its last line says |
| SpellingRules.FiledIsFirstMostFrequent | app/content/lexicon.py:54-56 | with distinct forms the one filed under a key is the first of the most frequent ones |
| Lexicon.RespellWordKeepsKeyIff | app/content/lexicon.py:60-71 | a word's key stays exactly unless a capitalized word gives way to a form in ß or µ, and never gets shorter |
| Lexicon.SplitJoins | app/content/lexicon.py:79-81 | the pieces and separators put together are the text |
| Lexicon.LigaturesKeepKey | app/content/lexicon.py:82 | writing the ligature keeps the key |
| Lexicon.RespellKeepsKeyIff | app/content/lexicon.py:74-82 | for every text and every loaded table the key stays exactly when the capital of no word changes |
| Lexicon.RespellKeepsKey | app/content/lexicon.py:74-82 | so it always stays if no form starts with ß or µ |
| Lexicon.SharpSBreaksKey | app/content/lexicon.py:71 | a table and a word for which the key changes |
| SpellingRules.WordGivesWayIff | app/content/lexicon.py:60-71 | a word gives way to the usual form of its key, in its own case, unless it is "du" or "des", that form with ligatures spelled out, or a form more than a twentieth as frequent |
| SpellingRules.UnknownWordStays | app/content/lexicon.py:65-67 | a word whose key no form has stays |
| SpellingRules.FirstLigature | app/content/lexicon.py:82 | the first o and e before u or il becomes one letter in its case, and text without one stays |
| SpellingRules.NoPlaceIsLeft | app/content/lexicon.py:82 | and no such place is left |
| SpellingRules.TextIsRespelledByWord | app/content/lexicon.py:74-82 | each word of a text is respelled on its own and what separates them stays |
| SpellingRules.FrenchLettersFold | app/content/lexicon.py:37-40 | which letters fold to which, and which carry an accent |
| Lookup.AsciiIsFold | app/content/lookup.py:38-41 | the slug's plain letters are the folded text |
| Lookup.SameFoldSameKey | app/content/lookup.py:38-41 | lemmas that fold alike share a key |
| Lookup.LookupTable.Lookup | app/content/lookup.py:48-112 | one lookup on the mutable table: hit, miss or a worse-accented row replaced |
| Lookup.HeadwordKeepsAccents | app/content/lookup.py:57-70 | the headword kept never has fewer accents than the word typed |
| Lookup.HeadwordKeepsKey | app/content/lookup.py:57-70 | and has the same key, for a lemma with no article left |
| Lookup.RowsOnlyImprove | app/content/lookup.py:48-112 | over any run a stored headword only gives way to one with strictly more accents |
| Lookup.NextLookupHits | app/content/lookup.py:48-112 | a word just looked up is a hit the next time, with the same row |
| Lookup.RowsAreFiled | app/content/lookup.py:93-111 | words with one article at most are filed under the key of the headword as it is |
| SpellingRules.AccentsAreKept | app/content/lookup.py:57-62 | a word typed with accents is never put through the table |
| SpellingRules.UsualSpellingIsTaken | app/content/lookup.py:57-70 | without accents the proposal, or the word, is taken as respelled if it fits and is the same word |
| SpellingRules.BetterSpellingIsTaken | app/content/lookup.py:63-70 | with accents a proposal of the same word that loses none is taken |
| SpellingRules.OtherSpellingIsRefused | app/content/lookup.py:63-70 | an empty or too long spelling, another word, or one with accents lost gives way to the word typed |
| SpellingRules.AnswersKeepAccents | app/content/lookup.py:48-54 | no lookup answers with fewer accents than were typed |
| SpellingRules.NothingFoundNothingKept | app/content/lookup.py:84-92 | without a meaning, or a key, no row changes |
| LookupRows.StripAgainIff | app/content/personal.py:34-41 | stripping a lemma again changes it exactly if it opens with an article |
| LookupRows.FreshRowIsFiledIff | app/content/lookup.py:57-111 | a fresh row is filed under its headword's key exactly when the proposal is refused or the lemma typed keeps its key |
| LookupRows.FreshRowFindsItself | app/content/lookup.py:57-111 | with no second article in the word, nor in a spelling taken for it, lookup_slug of the fresh headword is its slug |
| LookupRows.FreshRowFindsItselfIff | app/content/lookup.py:57-111 | and only then, when no key needs a cut |
| LookupRows.RowsFindThemselves | app/content/lookup.py:38-112 | in every run of such lookups, lookup_slug of every stored headword is the slug of its row |
| LookupRows.SecondArticleMisfiles | app/content/lookup.py:57-111 | "le-é" with the proposal "la le é": one article typed, and a headword that leads elsewhere |
| LookupRows.TwoArticlesMisfile | app/content/lookup.py:57-111 | a word with two articles whose row is filed under another key |
| RespelledKeys.SlugOfPadded | app/content/personal.py:44-49 | a slug does not see what surrounds its letters |
| RespelledKeys.SlugIsSlug | app/content/personal.py:44-49 | a slug is runs of letters and digits joined by single underscores |
| RespelledKeys.SlugOfSlug | app/content/personal.py:44-49 | a text of that shape is its own slug |
| RespelledKeys.KeysFitAndDiffer | app/content/personal.py:52-57 | keys fit in 64 characters, and two longer slugs share one exactly when they share their first 55 characters and their digest |
| RespelledKeys.SameSlugIff | app/content/personal.py:34-49 | texts that fold alike share a slug exactly when both or neither open with an article |
| OpeningWords.ArticleByWords | app/content/enrich.py:75-82 | a text opens with an article exactly when its first word, or "de" and its second, are one, with the separators it needs and more behind |
| OpeningWords.ArticlesOfText | app/content/enrich.py:75-82 | so for a typed text, and for a respelled one by the table forms of its words |
| OpeningWords.RespellKeepsSlugIff | app/content/lexicon.py:74-82 | respelling keeps a text's slug exactly when its first words make or break no article, whenever it keeps the accent-free key |
| OpeningWords.RespellKeepsLookupSlugIff | app/content/lexicon.py:74-82 | the key of a word that has one stays, for keys that need no cut, exactly when besides something but ligatures is left to make a key from |
| RespelledKeys.RespellMovesLookupSlug | app/content/lexicon.py:77-78 | "lé a" is respelled to "le a" and loses a word of its key |
| Elision.ScanElides | app/content/forms.py:113-114 | one pass leaves nothing to elide |
| Elision.ScanKeepsElided | app/content/forms.py:113-114 | nor makes a new place to elide for the other pass |
| Elision.ElideIsIdempotent | app/content/forms.py:137-141 | eliding twice is eliding once |
| Elision.ScanIsCompleteElision | app/content/forms.py:113-114 | a pass is the one rewriting that elides particles only, where the rule allows, and leaves none |
| ElisionInContext.ElideKeepsPiece | app/content/forms.py:137-141 | a piece in which no elision can start or end survives in any sentence |
| ElisionInContext.ElideKeepsLast | app/content/forms.py:137-141 | the last word survives in any sentence |
| ElisionInContext.AppendLengthens | app/content/forms.py:137-141 | more text after a settled one always changes it |
| VerbsSettle.ElideKeepsSubject | app/content/forms.py:181-188 | a form with a subject still has one after elision |
| VerbsSettle.ElideWithEtre | app/content/forms.py:163-178 | what elision makes of subject, clitic and verb to be, for every pronoun |
| VerbsSettle.PerfectAgrees | app/content/forms.py:123-134 | the rewritten perfect starts with one of nine agreeing subject, clitic and verb phrases |
| VerbsSettle.PerfectIs | app/content/forms.py:148-178 | the rewritten perfect is that start and the elided participle |
| VerbsSettle.PerfectReadsBack | app/content/forms.py:153-162 | the rewritten perfect is read back as the same subject and participle |
| VerbsSettle.PerfectSettles | app/content/forms.py:148-178 | a reflexive perfect settles in one pass, whatever the model wrote |
| VerbRules.FirstWordElidesIff | app/content/forms.py:113-114 | a first word elides exactly if it is one of six before a vowel, or one of four before h in the pass for verbs; the rest goes on as if on its own |
| VerbRules.FirstWordStays | app/content/forms.py:113-114 | before anything but a space it stays |
| VerbRules.MarkStays | app/content/forms.py:113-114 | so does whatever in front is no word |
| VerbRules.SubjectIff | app/content/forms.py:153-154 | the subject is the pronoun the form opens with, in any case and as a whole word |
| VerbRules.SubjectIsJe | app/content/forms.py:153-154 | and "je" without one |
| VerbRules.ParticipleIs | app/content/forms.py:155-162 | the participle is what follows subject, clitic and auxiliary, each of which may be missing |
| VerbRules.ReflexivePerfectForm | app/content/forms.py:181-188 | a reflexive verb's passé composé, whatever the model wrote, is the agreeing start of its subject and its own participle |
| VerbRules.JaiIsReplaced | app/content/forms.py:148-152 | "j'ai" and a participle become "je me suis" and that participle |
| VerbRules.OwnWordsStay | app/content/forms.py:181-188 | every other form of a reflexive verb, and all of an impersonal one, keep their words up to elision |
| VerbRules.PlainVerbForm | app/content/forms.py:185-188 | a form of any other verb without complement keeps its subject, or gets "je" |
| VerbRules.HasSubjectIff | app/content/forms.py:118 | ten openings count as a subject, in any case |
| VerbRules.HasComplementIff | app/content/forms.py:202-211 | a form has its complement exactly when it shows, or its first word comes last |
| VerbRules.ComplementForm | app/content/forms.py:191-212 | the complement goes behind exactly the forms that lack it |
| VerbRules.JeBeforeH | app/content/forms.py:115-117 | "je" keeps its letter before the h of seven verbs and gives it up before any other |
| VerbRules.CliticBeforeAspirateIff | app/content/forms.py:115-117 | "me" keeps its letter before an aspirate h exactly if the headword is the bare verb |
| VerbRules.ReflexiveAspirateElides | app/content/forms.py:115-117 | "je me hâte" of "se hâter" becomes "je m'hâte" |
| VerbRules.ImpersonalIff | app/content/forms.py:120 | seven verbs are impersonal |
| ComplementsSettle.PlainVerbSettles | app/content/forms.py:181-188 | every verb without a complement settles in one pass |
| ComplementsSettle.ElideKeepsComplement | app/content/forms.py:191-212 | elision takes a sturdy complement from no form |
| ComplementsSettle.VerbSettlesIff | app/content/forms.py:181-212 | a verb form settles exactly when elision has left its complement recognizable |
| ComplementsSettle.VerbSettles | app/content/forms.py:181-212 | so it does for every form, if the complement survives |
| ComplementsBreak.AllFormsSettleIff | app/content/forms.py:181-212 | all forms that can be written for a headword settle exactly when it has no complement or one that no elision can touch |
| ComplementsBreak.ArticleBeforeH | app/content/forms.py:113-114 | "la haine" is a complement that survives |
| ComplementsSettle.VerbIsWhole | app/content/forms.py:181-212 | a tidied form has a subject, unless impersonal or reflexive, and a sturdy complement always shows; `VerbRules` says which words it has |
| ComplementsSettle.ArticleComesBack | app/content/forms.py:191-212 | "avoir le": elided away, then added again |
| FormsSettle.NounSettles | app/content/forms.py:215-218 | articles and elision of a noun settle in one pass |
| FormsSettle.NounIsDefinite | app/content/forms.py:215-218 | un, une and des become le, la or their elision, and les |
| FormsSettle.AdjectiveSettlesIff | app/content/forms.py:91-110 | the four forms settle exactly when the entries taken have no determiner left |
| FormsSettle.AdjectiveSettles | app/content/forms.py:72-110 | so they do for entries with one determiner at most |
| FormsSettle.PluralIsPlural | app/content/forms.py:81-88 | a plural ends in s or x on the same stem and is its own plural; a new feminine plural adds s |
| FormsSettle.HeadwordIsMasculine | app/content/forms.py:91-110 | the masculine is the headword unless the feminine is |
| CardRules.TidyConcat | app/content/forms.py:221-232 | the forms of every word but an adjective are tidied each on its own, in order |
| CardRules.TidyOneForm | app/content/forms.py:224-232 | one form is kept under its name with straight apostrophes, and dropped exactly if a character is not Latin |
| CardRules.ReflexivePerfectOnCard | app/content/forms.py:221-232 | on a reflexive verb's card the passé composé has être, the person written and the participle written |
| CardRules.IndefiniteNoun | app/content/forms.py:215-218 | un, une and des give way to le, la and les before the same noun, then elision |
| CardRules.OtherNounStays | app/content/forms.py:215-218 | any other noun form keeps its words up to elision |
| CardRules.DeterminerIsDropped | app/content/forms.py:72-78 | any of eleven determiners is dropped, in any case |
| CardRules.PluralByEnding | app/content/forms.py:81-88 | the plurals of words in s, x, eau and al, masculine and feminine, with the eight exceptions |
| CardRules.OtherPlural | app/content/forms.py:81-88 | every other word adds s |
| CardRules.AdjectiveOnCard | app/content/forms.py:91-110 | the last feminine entry is the feminine, the headword the masculine unless it is that feminine and a masculine is given; then their plurals |
| CardRules.InvariableOnCard | app/content/forms.py:93-99 | seven adjectives have one form for all four |
| FormsSettle.TidySettlesIff | app/content/forms.py:221-232 | a given card reads back as it was stored exactly when the adjective entries taken have no determiner left, or every tidied verb form still shows the complement |
| FormsSettle.CardAlwaysSettlesIff | app/content/forms.py:221-232 | for every card but an adjective: all lists of forms read back as stored exactly when it is no verb, or one without a complement or with one that survives |
| FormsSettle.TidySettles | app/content/forms.py:221-232 | tidying twice is tidying once for regular headwords |
| FormsSettle.StoredFormsReadBack | app/content/forms.py:254-278 | forms stored for the bare headword are read back unchanged for the word as typed |

## Left out

- HTTP, sessions, authentication, invites and the ORM: only the effect of each statement is kept; a flush that fails or a rollback is not modelled.
- Two requests that read the same absent progress row and both insert it are one insert and one ignored, as in the code; SQLite's own locking is not modelled, so the model has more runs than the database allows.
- Level promotion under races: a stale read can put an older level back (app/progress/service.py:124-127); it is stated one request at a time.
- Completion times, card seeding, token budgets and the replies' XP and streak numbers carry no property.
- Comprehension grading and weak spots (app/progress/service.py:137-174): a passed and in-time submission is an input of the protocol.
- Exam reports, CLB and DELF scales and the readiness series (app/exam/clb.py): arithmetic of single bodies. Section results are opaque numbers.
- The cache bound is a natural number: a negative `max_entries` makes the code's eviction loop raise on an empty store.
- `time.monotonic` is a real number given to each call; it never goes back. The lock makes each method one step.
- JSON encoding, SHA digests and provider clients: cache keys are the full request, cached results a round-tripping record, provider replies arbitrary values. The registry lookup is part of a provider's reply.
- Floating point: reals, with `exp` any positive strictly increasing function. The rounding of saved weights is not modelled.
- Model outputs as texts, prompts and `parse_winner`: the judge is any function from an item and two outputs, by candidate, to a preference.
- Letter case and accents outside Latin-1, Œ, Ÿ and the capitals of ß and µ, and characters that only compatibility folding relates: `Text` leaves them alone. Combining marks are U+0300 to U+036F.
- FormsSettle.TidySettlesIff: needs a headword in the Latin script, because a form that takes other letters from it is dropped when read. For verbs its condition is on the tidied forms; `FormsSettle.CardAlwaysSettlesIff` gives the one that the headword decides.
- OpeningWords.RespellKeepsLookupSlugIff: for keys over 64 characters only one direction, because two cut keys may agree by chance of the hash; that only ligatures are left of a respelled word is not read off its words.
- LookupRows.FreshRowFindsItselfIff: for keys that need no cut, for the same reason; `LookupRows.FreshRowFindsItself` has no such limit.
- ProgressStreak.StreakIsAlwaysExact: assumes no request straddles midnight, because the promise fails otherwise; `Streak.StreakSurvivesIff` says exactly when.
- The order in which one thread's cache call takes its time stamp and its lock: a call is one step of `RouterThreads`.
- The lookup's meaning, gender, IPA and audio, the healing of old rows and the parsing of model replies: plumbing around the headword.
- Lookups run one after another: a concurrent lookup of the same word merges the same kind of row.
- Example sentences, review scheduling, speech, storage, migrations and content sync.
