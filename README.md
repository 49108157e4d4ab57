# HSK vocabulary trainer: a verified model of its session logic

This project models the core of an HSK (Chinese proficiency) learning app in Dafny:

- the vocabulary provider and the exercise generator (`data/hskData.ts`);
- the multiple-choice quiz session (`contexts/ExerciseContext.tsx`);
- the flashcard review session (`contexts/FlashcardContext.tsx`);
- the translation helper `t` and its dot-path lookup (`contexts/LanguageContext.tsx`).

It also models the parts of the application store (`contexts/AppContext.tsx`) that the sessions write to.

The model has these modules:

- `Types`: the entities of `types.ts`.
- `Strings`: decimal rendering of numbers, `Math.min`, and single-character `replace`.
- `Permutations`: distinct keys and single occurrences survive a permutation.
- `HskData`:
  - level filters for words and phrases;
  - flashcard decks;
  - `shuffleArray`, as an in-place swap loop on an array;
  - `generateVocabularyExercises`, as a loop that pushes exercises and skips a position that lacks three distractors.
- `Language`: `getNestedValue` as a fold of `acc && acc[part]` over `key.split('.')`, and `t` as a loop that replaces the placeholders of one parameter after another.
- `Progress`: the progress record, updated by a field-wise merge of a partial record, and the toast log, which is only ever appended to.
- `ExerciseSession`: a class holding `ExerciseState`, with one guarded method per handler.
- `FlashcardSession`: a class holding `FlashcardSessionState`, with one guarded method per handler. It also defines the queue splices (`RemoveAt`, `InsertAt`, `Requeue`) and the circular skip.

Randomness comes in as data.

- Each `Math.floor(Math.random() * n)` is a draw from a stream `rand: seq<nat>`: its head modulo `n`, or 0 once the stream is empty. Every draw the source can make is produced by some stream.
- The question kind (`Math.random() < 0.5`) is a draw below 2.
- The flashcard deck is sorted with a random comparator, which can return any order. It is modelled by a parameter `order`, required to be a permutation of the deck.

Each `setTimeout` becomes two steps:

1. `StartOrResumeSession` / `StartOrResumeFlashcardSession` return the pending generation, or `None` for a resume.
2. `CompleteSession` / `CompleteFlashcardSession` are the timer's callback and replace the state.

A handler reads `userProgress` once, when it starts. Every update it makes is computed from that snapshot. So when a flashcard session ends, the deck bonus overwrites the points the last card earned.

The restart handlers call the start function captured with the state from before the restart. A session still running with exercises or cards is therefore resumed, not regenerated: it ends up marked over and not loading. The pages then start a new session from their own effects, which are not part of this model.

## Model

| member | source | states |
|---|---|---|
| HskData.Filter | data/hskData.ts:66 | a filter is never longer than its input |
| HskData.FilterCount | data/hskData.ts:65-67 | filtering keeps each element that satisfies the predicate exactly as often as it occurs, and no other element |
| HskData.FilterConcat | data/hskData.ts:65-67 | filtering distributes over concatenation, so the kept elements stay in their original order |
| HskData.FilterNone | data/hskData.ts:77 | when no element passes, the filter is empty |
| HskData.FilterAll | data/hskData.ts:77 | when every element passes, the filter returns its input |
| HskData.FilterInjective | data/hskData.ts:114 | filtering a sequence with distinct ids keeps the ids distinct |
| HskData.WordsByLevel | data/hskData.ts:65-67 | `getWordsByLevel`: a word is in the result iff it is in the table at that level, and it occurs there exactly as often as in the table |
| HskData.WordsByLevelOrder | data/hskData.ts:65-67 | the result keeps the table's order: the words of `a + b` are those of `a`, then those of `b` |
| HskData.PhrasesByLevel | data/hskData.ts:69-71 | `getPhrasesByLevel`: exactly the phrases of that level, with their multiplicities |
| HskData.CardsFromWords | data/hskData.ts:80-90 | one card per word, in order. Card k has id `prefix + word id`, word k's id, its character as front, back `pinyin + "\n" + translation` plus the example line, word k's level, and interval 1 |
| HskData.StoredCardsOfLevel | data/hskData.ts:49-62 | the stored cards of a level are all the stored cards for HSK 1 and none for any other level |
| HskData.FlashcardsByLevelSpec | data/hskData.ts:73-91 | `getFlashcardsByLevel(l, n)` returns `min(n, #words of l)` cards; card k has word k's id, its character as front, and back `pinyin + "\n" + translation`, plus `"\nEx: sentence (translation)"` when the example is non-empty |
| HskData.DefaultFlashcardCount | data/hskData.ts:73 | called without a count (default 10), `getFlashcardsByLevel` returns `min(10, #words of l)` cards |
| HskData.FlashcardsOfLevel | data/hskData.ts:73-91 | at most `n` cards, all at level `l` |
| HskData.Draw | data/hskData.ts:97 | a random index is below the bound and consumes the stream |
| HskData.Shuffle | data/hskData.ts:94-101 | `shuffleArray` returns a permutation of its input: same length, same multiset; the input is left as it was |
| HskData.DistractorsSpec | data/hskData.ts:114 | the candidate wrong answers are exactly the pool's words with another id, with their multiplicities |
| HskData.DistractorCount | data/hskData.ts:114-115 | with distinct ids, every word but the correct one is a candidate |
| HskData.OptionsOneCorrect | data/hskData.ts:126-136 | any shuffle of the four listed options has exactly one option whose id is the correct word's |
| HskData.OptionsFromPool | data/hskData.ts:123-137 | every option is made from a pool word in the question's direction, and the correct word's option is among them |
| HskData.OptionsDistinct | data/hskData.ts:126-136 | with distinct distractor ids, the four options have distinct ids |
| HskData.BuiltExerciseWellFormed | data/hskData.ts:123-147 | an exercise built this way has 4 options, exactly one with `correctAnswerId`, and the level; the prompt is the correct word's character (translations as options) or its translation (characters as options) |
| HskData.FirstDistractors | data/hskData.ts:114 | the first three of a shuffled candidate list are pool words other than the correct one, with distinct ids when the pool's ids are distinct |
| HskData.AskQuestion | data/hskData.ts:117-147 | the exercise for a word and three distractors is well formed, its id is `ex_<word id>_<i>`, its correct answer is the word's id, and its options are distinct when the distractors are |
| HskData.BuildExercise | data/hskData.ts:111-147 | a position is skipped iff fewer than three candidates exist; otherwise the exercise is well formed for that word |
| HskData.PickedDistinct | data/hskData.ts:108-111 | exercises built from increasing positions of a shuffle with distinct ids have distinct correct answers |
| HskData.PickAt | data/hskData.ts:110-147 | one pass of the loop; with distinct ids in the pool, no position is skipped |
| HskData.PickedBatch | data/hskData.ts:107-148 | every exercise the loop pushed is well formed and numbered below the bound |
| HskData.BuildBatch | data/hskData.ts:107-148 | the loop pushes at most `n` exercises, exactly `n` with distinct ids; all are well formed, with distinct correct answers and distinct options |
| HskData.ShuffledBatch | data/hskData.ts:149 | the final shuffle keeps the exercises, their number and their distinct correct answers |
| HskData.GenerateVocabularyExercises | data/hskData.ts:103-150 | `count` defaults to 5. `[]` for fewer than 4 words; at most `min(count, #words)` exercises, exactly that many with distinct ids; each well formed over the level's words with an index below `count`; distinct correct answers and distinct option ids |
| HskData.GeneratedWithin | data/hskData.ts:110 | positions below `n` are positions below any larger bound |
| Permutations.InjectivePermutation | data/hskData.ts:108 | a permutation of a sequence with distinct keys has distinct keys |
| Permutations.ExactlyOnePermutation | data/hskData.ts:126-136 | a permutation keeps a key that occurs once occurring once |
| Strings.NatToString | data/hskData.ts:141 | the index in an exercise id is written as decimal digits with no leading zero |
| Strings.ParseNatToString | data/hskData.ts:141 | reading the decimal rendering back gives the number |
| Strings.NatToStringInjective | data/hskData.ts:141 | distinct indices give distinct renderings |
| Strings.IndexOf | data/hskData.ts:81 | the position a one-character `replace` matches: it holds the character, and no earlier position does |
| Strings.RemoveFirst | data/hskData.ts:81 | `replace(' ', '')` removes the first space and keeps everything before and after it in order; a string without a space is unchanged |
| Language.Split | contexts/LanguageContext.tsx:16 | `split('.')` gives at least one piece, and no piece contains the separator |
| Language.JoinSplit | contexts/LanguageContext.tsx:16 | joining the pieces of a split gives the key back |
| Language.SplitJoin | contexts/LanguageContext.tsx:16 | splitting a join of separator-free segments gives the segments back |
| Language.SplitPiece | contexts/LanguageContext.tsx:16 | a separator-free prefix merges into the first piece of what follows it |
| Language.DescendThroughText | contexts/LanguageContext.tsx:16 | `acc && acc[part]` on a string: a non-empty string met before the last segment makes the lookup `undefined`, and an empty (falsy) one is passed on to the end |
| Language.DescendAbsent | contexts/LanguageContext.tsx:16 | once the lookup is `undefined`, it stays `undefined` |
| Language.MissingSegment | contexts/LanguageContext.tsx:15-17 | looked up from the table it is missing in, a missing segment makes the rest of the walk `undefined` |
| Language.DescendConcat | contexts/LanguageContext.tsx:16 | the reduce over a path `a + b` is the reduce over `b` started from where the reduce over `a` ended |
| Language.MissingSegmentAt | contexts/LanguageContext.tsx:15-17 | a segment missing from the table the segments before it lead to, at any depth, makes `getNestedValue` of the whole dotted key `undefined`, so `t` returns the key |
| Language.NestedLookup | contexts/LanguageContext.tsx:15-17 | looking up a dotted key walks the table one segment at a time |
| Language.ThreeSegments | contexts/LanguageContext.tsx:15-17 | `"a.b.c"` yields `translations["a"]["b"]["c"]` |
| Language.ReplaceSkip | contexts/LanguageContext.tsx:73-74 | text in which no match starts is copied unchanged |
| Language.ReplaceAbsent | contexts/LanguageContext.tsx:73-74 | a string without the placeholder is not changed |
| Language.PlaceholderAfter | contexts/LanguageContext.tsx:73-74 | a placeholder that follows placeholder-free text is the first match |
| Language.ReplaceJoin | contexts/LanguageContext.tsx:73-74 | every occurrence of the placeholder is replaced by the value |
| Language.PlaceholderOfName | contexts/LanguageContext.tsx:73 | `{name}` with a brace-free name is a placeholder whose opening brace occurs only at its start |
| Language.SubstituteAbsent | contexts/LanguageContext.tsx:71-76 | text with no placeholder of any parameter is returned unchanged |
| Language.Translate | contexts/LanguageContext.tsx:60-78 | `t`: the key while loading, with no table, or when the lookup finds no string; otherwise the string with the parameters substituted in key order, and the string itself when there are no parameters |
| Language.OneParam | contexts/LanguageContext.tsx:71-76 | with one parameter, every `{name}` between placeholder-free pieces becomes the value's string form |
| Progress.Merge | contexts/AppContext.tsx:50-52 | `{ ...prev, ...patch }`: a field set in the patch takes the patch's value; every other field keeps its value |
| Progress.MergeTwice | contexts/AppContext.tsx:50-52 | two updates in a row are one update with the later fields winning |
| Progress.MergeIdempotent | contexts/AppContext.tsx:50-52 | repeating an update changes nothing |
| Progress.AppStore.constructor | contexts/AppContext.tsx:21-31 | a store starts with the given progress and no toasts |
| Progress.AppStore.UpdateProgress | contexts/AppContext.tsx:50-52 | the progress becomes the merge; the toasts are kept |
| Progress.AppStore.ShowToast | contexts/AppContext.tsx:54-60 | the toast is appended; the progress is kept |
| ExerciseSession.ExerciseController.constructor | contexts/ExerciseContext.tsx:7-16 | the default state: no level, no exercises, index and score 0, nothing selected |
| ExerciseSession.ExerciseController.StartOrResumeSession | contexts/ExerciseContext.tsx:31-37 | `count` defaults to 5, as the pages call it. The same level with a running, non-empty session is a resume, which clears only `isLoading`; otherwise the state is loading at the level and a generation is pending |
| ExerciseSession.ExerciseController.CompleteSession | contexts/ExerciseContext.tsx:39-54 | a fresh session on the generated exercises: index 0, score 0, no selection, not answered; over iff none were generated, with a "not enough exercises" toast naming the level. The exercises carry the generator's guarantees: none for fewer than 4 words; at most `min(count, #words)`, exactly that many with distinct ids; each well formed; distinct correct answers and distinct option ids |
| ExerciseSession.ExerciseController.StartExercises | contexts/ExerciseContext.tsx:41-53 | the state the timer writes, and the toast for an empty list |
| ExerciseSession.ExerciseController.SelectOption | contexts/ExerciseContext.tsx:58-61 | a no-op once answered; otherwise only the selection changes |
| ExerciseSession.ExerciseController.SubmitAnswer | contexts/ExerciseContext.tsx:63-79 | a no-op with no (or an empty) selection, once answered, or with no exercises. Otherwise the question is answered; the score rises by 1 iff the selection is the correct id; the points are the snapshot plus 10 or 2; a success or error toast is shown. The invariant `score <= currentIndex + answered <= #exercises` is kept |
| ExerciseSession.ExerciseController.NextExercise | contexts/ExerciseContext.tsx:81-94 | before the last question: index +1, selection cleared, not answered, score kept. On the last one: the session is over, the points are the snapshot plus `score * 5` (again on every repeat), and a toast reports score and total |
| ExerciseSession.ExerciseController.RestartCurrentSession | contexts/ExerciseContext.tsx:96-103 | with a level, the session is marked over; a session still running with exercises is only resumed, otherwise a generation of `#exercises` (or 5) is pending; without a level, only a toast is shown |
| FlashcardSession.RemoveAt | contexts/FlashcardContext.tsx:69 | `splice(i, 1)`: one shorter; the cards before `i` stay in place and the ones after move up by one |
| FlashcardSession.InsertAt | contexts/FlashcardContext.tsx:78 | `splice(p, 0, x)`: `x` at `p`; the cards before `p` stay, the rest move down by one |
| FlashcardSession.RemoveAtMultiset | contexts/FlashcardContext.tsx:69 | removing takes exactly the `i`-th card out of the multiset |
| FlashcardSession.InsertAtMultiset | contexts/FlashcardContext.tsx:78 | inserting adds exactly the inserted card |
| FlashcardSession.RemoveInserted | contexts/FlashcardContext.tsx:76-78 | removing the card just inserted gives the queue back |
| FlashcardSession.RequeueSpec | contexts/FlashcardContext.tsx:76-78 | "did not know": same length and multiset; the card lands at `min(len-1, i+3)`; the other cards keep their order |
| FlashcardSession.RequeueFirstOfThree | contexts/FlashcardContext.tsx:76-78 | `[A, B, C]` with the first card unknown becomes `[B, C, A]` |
| FlashcardSession.RequeueNearEnd | contexts/FlashcardContext.tsx:77-78 | an unknown card within four places of the end goes last |
| FlashcardSession.NextIndex | contexts/FlashcardContext.tsx:109 | the next position is inside the queue |
| FlashcardSession.NextIndexStep | contexts/FlashcardContext.tsx:109 | a skip moves one place on, and from the last place back to the first |
| FlashcardSession.SkipsWalk | contexts/FlashcardContext.tsx:107-115 | up to `len` skips walk forward and wrap round once |
| FlashcardSession.SkipsCycle | contexts/FlashcardContext.tsx:107-115 | `len` skips return to the starting card |
| FlashcardSession.SkipsReachAll | contexts/FlashcardContext.tsx:107-115 | every place in the queue is reached in fewer than `len` skips |
| FlashcardSession.AnsweredQueue | contexts/FlashcardContext.tsx:65-85 | knew it: one card fewer, exactly the current card removed from the multiset; did not know: same length and multiset |
| FlashcardSession.ShuffledPrefix | contexts/FlashcardContext.tsx:39 | the first `count` cards of a shuffled deck number `min(count, #deck)` and are drawn from the deck |
| FlashcardSession.AnsweredIndex | contexts/FlashcardContext.tsx:87-91 | in a non-empty queue, the position stays where it was if still in range and goes back to 0 otherwise, so it is inside the queue; an emptied queue leaves the position as it was |
| FlashcardSession.AnsweredProgress | contexts/FlashcardContext.tsx:70-94 | one more card studied; the snapshot's points +5 (knew it) or +1; when the queue empties, the snapshot's points plus `2 * #deck` instead; level and badges kept |
| FlashcardSession.AnswerToasts | contexts/FlashcardContext.tsx:74-93 | first, "flashcard correct" (success) or "flashcard review" (info), naming the card's front; when the queue empties, second, "session complete" (success) naming the level, or `''` without one |
| FlashcardSession.FlashcardController.constructor | contexts/FlashcardContext.tsx:7-15 | the default state: no level, empty deck and queue |
| FlashcardSession.FlashcardController.StartOrResumeFlashcardSession | contexts/FlashcardContext.tsx:29-35 | `count` defaults to 10, as the pages call it, so the deck asked for has 20 cards and the queue 10. The same level with a running, non-empty queue is a resume, which clears only `isLoading`; otherwise the state is loading at the level and a deck is pending |
| FlashcardSession.FlashcardController.CompleteFlashcardSession | contexts/FlashcardContext.tsx:37-53 | the deck is `getFlashcardsByLevel(level, 2*count)`: at most `2*count` cards, all of the level. The queue is the first `min(count, #deck)` cards of a permutation of the deck. Index 0, not revealed; over iff the queue is empty, with a toast |
| FlashcardSession.FlashcardController.StartDeck | contexts/FlashcardContext.tsx:41-52 | the state the timer writes, and the toast for an empty queue; the queue stays within the deck |
| FlashcardSession.FlashcardController.RevealCurrentCard | contexts/FlashcardContext.tsx:56-59 | a no-op with an empty queue or a card already shown; otherwise only `revealed` changes |
| FlashcardSession.FlashcardController.RecordAnswer | contexts/FlashcardContext.tsx:70-94 | the store ends with `AnsweredProgress` of the snapshot and with the toasts of `AnswerToasts` appended |
| FlashcardSession.FlashcardController.AnswerCurrentCard | contexts/FlashcardContext.tsx:61-105 | a no-op unless the card is shown and the queue is non-empty. Otherwise the queue is `AnsweredQueue`, the position is `AnsweredIndex`, the card is hidden, the session is over iff the queue emptied, and the progress and toasts are those of `AnsweredProgress` and `AnswerToasts`. The queue stays within the deck and the position inside the queue |
| FlashcardSession.FlashcardController.SetQueue | contexts/FlashcardContext.tsx:97-103 | the new queue and position, the card hidden, over iff the queue is empty |
| FlashcardSession.FlashcardController.SkipToNextCardInQueue | contexts/FlashcardContext.tsx:107-115 | a no-op for at most one card; otherwise the position becomes `(i+1) mod len` and the card is hidden, with the queue unchanged |
| FlashcardSession.FlashcardController.RestartFlashcardSession | contexts/FlashcardContext.tsx:117-124 | with a level, the session is marked over; a session still running with cards is only resumed, otherwise a session with a queue of `min(10, #deck)` (or 10) cards is pending; its deck asks for twice that; without a level, only a toast is shown |

## Left out

- The word and phrase tables (`mockWords`, `mockPhrases`) are parameters, not the constants of `data/hskData.ts`. `mockFlashcards` is derived from the word parameter as the source derives it.
- Flashcards carry no `lastReviewed`, `nextReview` (dates) or `easeFactor` (a float). No logic here reads them.
- Timers are not modelled: the 50 ms delay before generation, toast auto-dismiss after three seconds, and the race between a pending generation and later handlers. A toast is kept as its translation key and parameters, not as the translated text.
- Words and phrases carry no `audioSrc`: no logic of the core reads it.
- The `console.warn` that `t` logs for a missing key is output only; `t` still returns the key, which the model does.
- All rendering and routing, the page effects that start sessions, `fetch` and `localStorage` (translation loading, language choice, saved progress), authentication, the chat service and the service worker.
- Translate: parameter names are plain text. A name with regular-expression metacharacters, and `$` patterns in a replacement value, are not modelled.
- Translate: a number parameter is a whole number rendered in decimal. Fractions and exponents are not modelled.
- Translate: a lookup that ends at a nested table returns the key. In the source, without parameters `t` returns the table object itself; with parameters, it calls `replace` on that object and throws a `TypeError`.
- Translate: indexing a non-empty string with a segment gives `undefined`; the source gives a character for a numeric segment or `length`.
- Translate: a translation table holds only strings and nested tables. Other JSON values (numbers, booleans, arrays, `null`) and inherited `Object.prototype` keys are not modelled.
- Translate: parameters are applied in the order given. The source applies them in `Object.keys` order, which puts integer-like keys first.
- CompleteFlashcardSession: the random-comparator sort is modelled as an arbitrary permutation of the deck (`order`), not as the orders a particular sort algorithm can produce.
