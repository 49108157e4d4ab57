/**
 * The vocabulary provider and the exercise generator (data/hskData.ts).
 *
 * The static word and phrase tables are parameters (`words`, `phrases`).
 * `Math.random()` is an oracle: a stream `rand` of naturals, where a draw
 * below `n` is the head of the stream modulo `n` (0 once the stream is
 * exhausted). Every draw `Math.floor(Math.random() * n)` can produce is
 * produced by some stream, so every behaviour of the source is covered.
 */
module HskData {
  import opened Types
  import opened Strings
  import opened Permutations

  // ---------------------------------------------------------------------------
  // Filtering (Array.prototype.filter)

  /** The elements of `s` that satisfy `p`, in their original order. */
  function Filter<T(!new)>(s: seq<T>, p: T -> bool): (r: seq<T>)
    ensures |r| <= |s|
  {
    if s == [] then [] else (if p(s[0]) then [s[0]] else []) + Filter(s[1..], p)
  }

  /** Filtering keeps every element that satisfies `p` as often as it occurs, and no other. */
  lemma {:induction false} FilterCount<T(!new)>(s: seq<T>, p: T -> bool)
    ensures forall x :: multiset(Filter(s, p))[x] == if p(x) then multiset(s)[x] else 0
    ensures forall x :: x in Filter(s, p) <==> x in s && p(x)
  {
    if s != [] {
      FilterCount(s[1..], p);
      assert s == [s[0]] + s[1..];
      assert multiset(s) == multiset{s[0]} + multiset(s[1..]);
    }
  }

  lemma ConcatAssoc<T>(x: seq<T>, y: seq<T>, z: seq<T>)
    ensures x + (y + z) == (x + y) + z
  {
  }

  /** Filtering distributes over concatenation: the order of kept elements is kept. */
  lemma {:induction false} FilterConcat<T(!new)>(a: seq<T>, b: seq<T>, p: T -> bool)
    ensures Filter(a + b, p) == Filter(a, p) + Filter(b, p)
  {
    if a == [] {
      assert a + b == b;
    } else {
      var head := if p(a[0]) then [a[0]] else [];
      assert Filter(a, p) == head + Filter(a[1..], p);
      assert (a + b)[0] == a[0] && (a + b)[1..] == a[1..] + b;
      assert Filter(a + b, p) == head + Filter(a[1..] + b, p);
      FilterConcat(a[1..], b, p);
      ConcatAssoc(head, Filter(a[1..], p), Filter(b, p));
    }
  }

  lemma {:induction false} FilterNone<T(!new)>(s: seq<T>, p: T -> bool)
    requires forall k :: 0 <= k < |s| ==> !p(s[k])
    ensures Filter(s, p) == []
  {
    if s != [] {
      FilterNone(s[1..], p);
    }
  }

  lemma {:induction false} FilterAll<T(!new)>(s: seq<T>, p: T -> bool)
    requires forall k :: 0 <= k < |s| ==> p(s[k])
    ensures Filter(s, p) == s
  {
    if s != [] {
      FilterAll(s[1..], p);
      assert s == [s[0]] + s[1..];
    }
  }

  /** A filtered sequence of distinct keys has distinct keys. */
  lemma {:induction false} FilterInjective<T(!new), K>(s: seq<T>, p: T -> bool, key: T -> K)
    requires Injective(s, key)
    ensures Injective(Filter(s, p), key)
  {
    if s != [] {
      var tail := s[1..];
      assert Injective(tail, key) by {
        forall i, j | 0 <= i < j < |tail| ensures key(tail[i]) != key(tail[j]) {
          assert tail[i] == s[i + 1] && tail[j] == s[j + 1];
        }
      }
      FilterInjective(tail, p, key);
      var rest := Filter(tail, p);
      FilterCount(tail, p);
      forall x | x in rest ensures key(x) != key(s[0]) {
        var i :| 0 <= i < |tail| && tail[i] == x;
        assert x == s[i + 1];
      }
      var r := Filter(s, p);
      if p(s[0]) {
        assert r == [s[0]] + rest;
        forall i, j | 0 <= i < j < |r| ensures key(r[i]) != key(r[j]) {
          if i == 0 {
            assert r[j] == rest[j - 1] && r[j] in rest;
          } else {
            assert r[i] == rest[i - 1] && r[j] == rest[j - 1];
          }
        }
      }
    }
  }

  // ---------------------------------------------------------------------------
  // Words, phrases and flashcards of a level

  function AtLevel(level: HskLevel): Word -> bool
  {
    (w: Word) => w.hskLevel == level
  }

  function PhraseAtLevel(level: HskLevel): Phrase -> bool
  {
    (p: Phrase) => p.hskLevel == level
  }

  function CardAtLevel(level: HskLevel): Flashcard -> bool
  {
    (c: Flashcard) => c.hskLevel == level
  }

  function WordId(w: Word): string { w.id }

  /** `getWordsByLevel`: the words whose level is `level`, each as often as in `words`. */
  function WordsByLevel(words: seq<Word>, level: HskLevel): (r: seq<Word>)
    ensures |r| <= |words|
    ensures forall w :: w in r <==> w in words && w.hskLevel == level
    ensures forall w :: multiset(r)[w] == if w.hskLevel == level then multiset(words)[w] else 0
  {
    FilterCount(words, AtLevel(level));
    Filter(words, AtLevel(level))
  }

  /** `getWordsByLevel` keeps the original order: it maps `a + b` to the kept words of `a`, then of `b`. */
  lemma WordsByLevelOrder(a: seq<Word>, b: seq<Word>, w: Word, level: HskLevel)
    ensures WordsByLevel(a + b, level) == WordsByLevel(a, level) + WordsByLevel(b, level)
    ensures WordsByLevel([w], level) == if w.hskLevel == level then [w] else []
  {
    FilterConcat(a, b, AtLevel(level));
    assert [w][1..] == [];
  }

  /** `getPhrasesByLevel`: the phrases whose level is `level`, each as often as in `phrases`. */
  function PhrasesByLevel(phrases: seq<Phrase>, level: HskLevel): (r: seq<Phrase>)
    ensures |r| <= |phrases|
    ensures forall p :: p in r <==> p in phrases && p.hskLevel == level
    ensures forall p :: multiset(r)[p] == if p.hskLevel == level then multiset(phrases)[p] else 0
  {
    FilterCount(phrases, PhraseAtLevel(level));
    Filter(phrases, PhraseAtLevel(level))
  }

  /** How a template literal renders an optional field: the text, or "undefined". */
  function Shown(o: Option<string>): string
  {
    match o
    case Some(s) => s
    case None => "undefined"
  }

  /** The example line of a card's back; an absent or empty sentence is falsy and adds nothing. */
  function ExampleLine(w: Word): string
  {
    match w.exampleSentence
    case Some(s) => if s != "" then "\nEx: " + s + " (" + Shown(w.exampleTranslation) + ")" else ""
    case None => ""
  }

  function CardBack(w: Word): string
  {
    w.pinyin + "\n" + w.translation + ExampleLine(w)
  }

  function CardFromWord(id: string, w: Word): Flashcard
  {
    Flashcard(id, w.id, w.character, CardBack(w), 1, w.hskLevel)
  }

  /** One card per word, in order, with ids `prefix + word id`. */
  function CardsFromWords(prefix: string, ws: seq<Word>): (r: seq<Flashcard>)
    ensures |r| == |ws|
    ensures forall k :: 0 <= k < |r| ==> IsCardFor(r[k], ws[k]) && r[k].id == prefix + ws[k].id
  {
    seq(|ws|, k requires 0 <= k < |ws| => CardFromWord(prefix + ws[k].id, ws[k]))
  }

  /** `level.replace(' ', '')`: "HSK 1" becomes "HSK1". */
  function LevelTag(level: HskLevel): string
  {
    RemoveFirst(level.Name(), ' ')
  }

  /** The id prefix of a card made on demand: "fc_new_HSK1_" for HSK 1. */
  function NewCardPrefix(level: HskLevel): string
  {
    "fc_new_" + LevelTag(level) + "_"
  }

  /** `mockFlashcards`: cards for the first ten HSK 1 words. */
  function MockFlashcards(words: seq<Word>): seq<Flashcard>
  {
    var hsk1 := WordsByLevel(words, HSK1);
    CardsFromWords("fc_", hsk1[..Min(10, |hsk1|)])
  }

  /** A card made from `w`: same word, front is the character, back is pinyin, translation and example. */
  ghost predicate IsCardFor(c: Flashcard, w: Word)
  {
    && c.wordId == w.id
    && c.frontText == w.character
    && c.backText == w.pinyin + "\n" + w.translation + ExampleLine(w)
    && c.hskLevel == w.hskLevel
    && c.intervalDays == 1
  }

  /** The stored cards of a level: all of them for HSK 1, none for any other level. */
  lemma StoredCardsOfLevel(words: seq<Word>, level: HskLevel)
    ensures Filter(MockFlashcards(words), CardAtLevel(level)) == if level == HSK1 then MockFlashcards(words) else []
  {
    var stored := MockFlashcards(words);
    var hsk1 := WordsByLevel(words, HSK1);
    var firsts := hsk1[..Min(10, |hsk1|)];
    forall k | 0 <= k < |stored| ensures stored[k].hskLevel == HSK1 {
      assert firsts[k] in hsk1;
    }
    if level == HSK1 {
      FilterAll(stored, CardAtLevel(level));
    } else {
      FilterNone(stored, CardAtLevel(level));
    }
  }

  /**
   * `getFlashcardsByLevel`: the stored cards of the level when there are at
   * least `count` of them, otherwise new cards for the level's first `count`
   * words.
   */
  function FlashcardsByLevel(words: seq<Word>, level: HskLevel, count: nat := 10): seq<Flashcard>
  {
    var levelWords := WordsByLevel(words, level);
    var existing := Filter(MockFlashcards(words), CardAtLevel(level));
    if |existing| >= count then existing[..count]
    else CardsFromWords(NewCardPrefix(level), levelWords[..Min(count, |levelWords|)])
  }

  /**
   * Whichever branch `getFlashcardsByLevel` takes, it returns `min(count, n)`
   * cards for a level of `n` words, and its k-th card is made from the
   * level's k-th word: all cards are of that level.
   */
  lemma FlashcardsByLevelSpec(words: seq<Word>, level: HskLevel, count: nat)
    ensures |FlashcardsByLevel(words, level, count)| == Min(count, |WordsByLevel(words, level)|)
    ensures forall k :: 0 <= k < |FlashcardsByLevel(words, level, count)| ==>
              IsCardFor(FlashcardsByLevel(words, level, count)[k], WordsByLevel(words, level)[k])
  {
    var levelWords := WordsByLevel(words, level);
    var existing := Filter(MockFlashcards(words), CardAtLevel(level));
    var r := FlashcardsByLevel(words, level, count);
    StoredCardsOfLevel(words, level);
    if |existing| >= count {
      assert r == existing[..count];
      if level == HSK1 {
        var firsts := levelWords[..Min(10, |levelWords|)];
        assert existing == CardsFromWords("fc_", firsts);
        forall k | 0 <= k < count ensures IsCardFor(r[k], levelWords[k]) {
          assert r[k] == CardFromWord("fc_" + firsts[k].id, firsts[k]);
        }
      }
    } else {
      var firsts := levelWords[..Min(count, |levelWords|)];
      assert r == CardsFromWords(NewCardPrefix(level), firsts);
      forall k | 0 <= k < |r| ensures IsCardFor(r[k], levelWords[k]) {
        assert r[k] == CardFromWord(NewCardPrefix(level) + firsts[k].id, firsts[k]);
      }
    }
  }

  /** Called without a count, `getFlashcardsByLevel` returns ten cards, or all of a smaller level. */
  lemma DefaultFlashcardCount(words: seq<Word>, level: HskLevel)
    ensures |FlashcardsByLevel(words, level)| == Min(10, |WordsByLevel(words, level)|)
  {
    FlashcardsByLevelSpec(words, level, 10);
  }

  /** Every card `getFlashcardsByLevel` returns is of the requested level. */
  lemma FlashcardsOfLevel(words: seq<Word>, level: HskLevel, count: nat)
    ensures |FlashcardsByLevel(words, level, count)| <= count
    ensures forall c :: c in FlashcardsByLevel(words, level, count) ==> c.hskLevel == level
  {
    var r := FlashcardsByLevel(words, level, count);
    var levelWords := WordsByLevel(words, level);
    FlashcardsByLevelSpec(words, level, count);
    forall c | c in r ensures c.hskLevel == level {
      var k :| 0 <= k < |r| && r[k] == c;
      assert IsCardFor(r[k], levelWords[k]);
      assert levelWords[k] in levelWords;
    }
  }

  // ---------------------------------------------------------------------------
  // Random draws and the shuffle

  /** `rest` is what remains of the stream `rand` after some draws. */
  ghost predicate SuffixOf(rest: seq<nat>, rand: seq<nat>)
  {
    |rest| <= |rand| && rest == rand[|rand| - |rest|..]
  }

  lemma SuffixTrans(c: seq<nat>, b: seq<nat>, a: seq<nat>)
    requires SuffixOf(c, b) && SuffixOf(b, a)
    ensures SuffixOf(c, a)
  {
    assert a[|a| - |c|..] == a[|a| - |b|..][|b| - |c|..];
  }

  /** `Math.floor(Math.random() * n)`: a draw below `n`, and the rest of the stream. */
  function Draw(rand: seq<nat>, n: nat): (r: (nat, seq<nat>))
    requires n > 0
    ensures r.0 < n
    ensures SuffixOf(r.1, rand) && (rand != [] ==> |r.1| == |rand| - 1)
  {
    if rand == [] then (0, []) else (rand[0] % n, rand[1..])
  }

  /**
   * `shuffleArray`: copies its input and swaps from the last position down,
   * each position with a drawn position at or below it. The result is a
   * permutation of the input; the input, a value, is left as it was.
   */
  method Shuffle<T>(s: seq<T>, rand: seq<nat>) returns (r: seq<T>, rest: seq<nat>)
    ensures |r| == |s|
    ensures multiset(r) == multiset(s)
    ensures SuffixOf(rest, rand)
  {
    var a := new T[|s|](k requires 0 <= k < |s| => s[k]);
    assert a[..] == s;
    rest := rand;
    var i := a.Length - 1;
    while i > 0
      invariant -1 <= i < a.Length
      invariant multiset(a[..]) == multiset(s)
      invariant SuffixOf(rest, rand)
    {
      var d := Draw(rest, i + 1);
      var j := d.0;
      SuffixTrans(d.1, rest, rand);
      rest := d.1;
      var t := a[i];
      a[i] := a[j];
      a[j] := t;
      i := i - 1;
    }
    r := a[..];
  }

  // ---------------------------------------------------------------------------
  // Exercise generation

  function OptionId(o: ExerciseOption): string { o.id }

  function CorrectId(e: VocabularyExercise): string { e.correctAnswerId }

  function OtherThan(id: string): Word -> bool
  {
    (w: Word) => w.id != id
  }

  /** The words a distractor is drawn from: every word of the pool with another id. */
  function Distractors(pool: seq<Word>, id: string): seq<Word>
  {
    Filter(pool, OtherThan(id))
  }

  /** The distractors are the pool's words with another id, each as often as in the pool. */
  lemma DistractorsSpec(pool: seq<Word>, id: string)
    ensures forall w :: w in Distractors(pool, id) <==> w in pool && w.id != id
    ensures forall w :: multiset(Distractors(pool, id))[w] == if w.id != id then multiset(pool)[w] else 0
  {
    FilterCount(pool, OtherThan(id));
  }

  /** The question a word poses: its character, or for the reverse kind its translation. */
  function PromptFor(w: Word, qt: QuestionType): string
  {
    if qt == CharToTranslation then w.character else w.translation
  }

  /** The option a word offers: its translation, or for the reverse kind its character. */
  function OptionFor(w: Word, qt: QuestionType): ExerciseOption
  {
    ExerciseOption(w.id, if qt == CharToTranslation then w.translation else w.character)
  }

  function ExerciseId(wordId: string, i: nat): string
  {
    "ex_" + wordId + "_" + NatToString(i)
  }

  /**
   * What every generated exercise satisfies: four options, each made from a
   * word of the pool in the question's direction, exactly one of them with
   * the correct id, and the prompt made from the word with that id.
   */
  ghost predicate WellFormed(e: VocabularyExercise, pool: seq<Word>, level: HskLevel)
  {
    && |e.options| == 4
    && e.hskLevel == level
    && e.questionType != CharToPinyin
    && ExactlyOne(e.options, OptionId, e.correctAnswerId)
    && (forall o :: o in e.options ==> exists w :: w in pool && o == OptionFor(w, e.questionType))
    && (exists w :: w in pool && w.id == e.correctAnswerId
          && e.questionPrompt == PromptFor(w, e.questionType)
          && OptionFor(w, e.questionType) in e.options)
  }

  /** With distinct ids, removing one word's id removes exactly that word. */
  lemma DistractorCount(pool: seq<Word>, c: Word)
    requires Injective(pool, WordId)
    requires c in pool
    ensures |Distractors(pool, c.id)| == |pool| - 1
  {
    var d := Distractors(pool, c.id);
    DistractorsSpec(pool, c.id);
    var k :| 0 <= k < |pool| && pool[k] == c;
    if multiset(pool)[c] >= 2 {
      var q := OtherPosition(pool, k);
    }
    forall w | w in pool && w.id == c.id ensures w == c {
      var i :| 0 <= i < |pool| && pool[i] == w;
    }
    assert multiset(pool) == multiset(d) + multiset{c} by {
      forall w ensures multiset(pool)[w] == (multiset(d) + multiset{c})[w] {
        if w.id == c.id && w != c {
          assert w !in pool;
        } else if w == c {
          assert multiset(pool)[c] == 1;
        }
      }
    }
    assert |multiset(pool)| == |multiset(d)| + 1;
  }

  /** The options before their shuffle: the correct word's first, then the three distractors'. */
  function ListedOptions(correct: Word, incorrect: seq<Word>, qt: QuestionType): seq<ExerciseOption>
    requires |incorrect| == 3
  {
    [OptionFor(correct, qt), OptionFor(incorrect[0], qt), OptionFor(incorrect[1], qt), OptionFor(incorrect[2], qt)]
  }

  /** Any order of the listed options has exactly one option with the correct word's id. */
  lemma OptionsOneCorrect(correct: Word, incorrect: seq<Word>, qt: QuestionType, options: seq<ExerciseOption>)
    requires |incorrect| == 3
    requires forall k :: 0 <= k < 3 ==> incorrect[k].id != correct.id
    requires multiset(options) == multiset(ListedOptions(correct, incorrect, qt))
    ensures ExactlyOne(options, OptionId, correct.id)
  {
    var listed := ListedOptions(correct, incorrect, qt);
    assert OnlyAt(listed, OptionId, correct.id, 0);
    ExactlyOnePermutation(listed, options, OptionId, correct.id);
  }

  /** Any order of the listed options holds only options made from words of the pool, the correct one among them. */
  lemma OptionsFromPool(pool: seq<Word>, correct: Word, incorrect: seq<Word>, qt: QuestionType, options: seq<ExerciseOption>)
    requires correct in pool
    requires |incorrect| == 3
    requires forall k :: 0 <= k < 3 ==> incorrect[k] in pool
    requires multiset(options) == multiset(ListedOptions(correct, incorrect, qt))
    ensures forall o :: o in options ==> exists w :: w in pool && o == OptionFor(w, qt)
    ensures OptionFor(correct, qt) in options
  {
    var listed := ListedOptions(correct, incorrect, qt);
    forall o | o in options ensures exists w :: w in pool && o == OptionFor(w, qt) {
      assert o in multiset(listed);
      if o == listed[0] {
        assert o == OptionFor(correct, qt);
      } else if o == listed[1] {
        assert o == OptionFor(incorrect[0], qt);
      } else if o == listed[2] {
        assert o == OptionFor(incorrect[1], qt);
      } else {
        assert o == OptionFor(incorrect[2], qt);
      }
    }
    assert OptionFor(correct, qt) in multiset(options);
  }

  /** With distinct distractor ids, any order of the listed options has distinct ids. */
  lemma OptionsDistinct(correct: Word, incorrect: seq<Word>, qt: QuestionType, options: seq<ExerciseOption>)
    requires |incorrect| == 3
    requires forall k :: 0 <= k < 3 ==> incorrect[k].id != correct.id
    requires Injective(incorrect, WordId)
    requires multiset(options) == multiset(ListedOptions(correct, incorrect, qt))
    ensures Injective(options, OptionId)
  {
    var listed := ListedOptions(correct, incorrect, qt);
    forall a, b | 0 <= a < b < 4 ensures OptionId(listed[a]) != OptionId(listed[b]) {
      if a > 0 {
        assert WordId(incorrect[a - 1]) != WordId(incorrect[b - 1]);
      }
    }
    InjectivePermutation(listed, options, OptionId);
  }

  /** An exercise built from a shuffle of the listed options is well formed. */
  lemma BuiltExerciseWellFormed(pool: seq<Word>, correct: Word, incorrect: seq<Word>, qt: QuestionType,
                                options: seq<ExerciseOption>, id: string, level: HskLevel)
    requires correct in pool && qt != CharToPinyin
    requires |incorrect| == 3
    requires forall k :: 0 <= k < 3 ==> incorrect[k] in pool && incorrect[k].id != correct.id
    requires multiset(options) == multiset(ListedOptions(correct, incorrect, qt))
    ensures WellFormed(VocabularyExercise(id, qt, PromptFor(correct, qt), options, correct.id, level), pool, level)
    ensures Injective(incorrect, WordId) ==> Injective(options, OptionId)
  {
    assert |options| == 4 by {
      assert |options| == |multiset(options)| == |ListedOptions(correct, incorrect, qt)|;
    }
    OptionsOneCorrect(correct, incorrect, qt, options);
    OptionsFromPool(pool, correct, incorrect, qt, options);
    if Injective(incorrect, WordId) {
      OptionsDistinct(correct, incorrect, qt, options);
    }
    var e := VocabularyExercise(id, qt, PromptFor(correct, qt), options, correct.id, level);
    assert correct in pool && correct.id == e.correctAnswerId
      && e.questionPrompt == PromptFor(correct, e.questionType)
      && OptionFor(correct, e.questionType) in e.options;
  }

  /** The first three of a shuffled distractor list are distractors, with distinct ids when the pool's are. */
  lemma FirstDistractors(pool: seq<Word>, correct: Word, others: seq<Word>)
    requires |others| >= 3
    requires multiset(others) == multiset(Distractors(pool, correct.id))
    ensures forall k :: 0 <= k < 3 ==> others[k] in pool && others[k].id != correct.id
    ensures Injective(pool, WordId) ==> Injective(others[..3], WordId)
  {
    DistractorsSpec(pool, correct.id);
    forall k | 0 <= k < 3 ensures others[k] in pool && others[k].id != correct.id {
      assert others[k] in multiset(others);
    }
    if Injective(pool, WordId) {
      FilterInjective(pool, OtherThan(correct.id), WordId);
      InjectivePermutation(Distractors(pool, correct.id), others, WordId);
    }
  }

  /**
   * The question for `correct` with three distractors: a coin picks the
   * direction (character to translation below one half, translation to
   * character otherwise) and the four options are shuffled.
   */
  method AskQuestion(pool: seq<Word>, correct: Word, incorrect: seq<Word>, i: nat, level: HskLevel, rand: seq<nat>)
    returns (e: VocabularyExercise, rest: seq<nat>)
    requires correct in pool
    requires |incorrect| == 3
    requires forall k :: 0 <= k < 3 ==> incorrect[k] in pool && incorrect[k].id != correct.id
    ensures WellFormed(e, pool, level)
    ensures e.correctAnswerId == correct.id && e.id == ExerciseId(correct.id, i)
    ensures Injective(incorrect, WordId) ==> Injective(e.options, OptionId)
    ensures SuffixOf(rest, rand)
  {
    var coin := Draw(rand, 2);
    var qt := if coin.0 == 0 then CharToTranslation else TranslationToChar;
    var options;
    options, rest := Shuffle(ListedOptions(correct, incorrect, qt), coin.1);
    SuffixTrans(rest, coin.1, rand);
    BuiltExerciseWellFormed(pool, correct, incorrect, qt, options, ExerciseId(correct.id, i), level);
    e := VocabularyExercise(ExerciseId(correct.id, i), qt, PromptFor(correct, qt), options, correct.id, level);
  }

  /**
   * The body of the generator's loop for one position: draws three
   * distractors and builds the question, or skips the position when fewer
   * than three distractors exist.
   */
  method BuildExercise(pool: seq<Word>, correct: Word, i: nat, level: HskLevel, rand: seq<nat>)
    returns (e: Option<VocabularyExercise>, rest: seq<nat>)
    requires correct in pool
    ensures e.None? <==> |Distractors(pool, correct.id)| < 3
    ensures e.Some? ==> WellFormed(e.value, pool, level)
    ensures e.Some? ==> e.value.correctAnswerId == correct.id && e.value.id == ExerciseId(correct.id, i)
    ensures e.Some? && Injective(pool, WordId) ==> Injective(e.value.options, OptionId)
    ensures SuffixOf(rest, rand)
  {
    var others, rest1 := Shuffle(Distractors(pool, correct.id), rand);
    var incorrect := others[..Min(3, |others|)];
    if |incorrect| < 3 {
      return None, rest1;
    }
    FirstDistractors(pool, correct, others);
    var question, rest2 := AskQuestion(pool, correct, incorrect, i, level, rest1);
    SuffixTrans(rest2, rest1, rand);
    e, rest := Some(question), rest2;
  }

  /** What every generated exercise satisfies: well formed over the pool, numbered by a position below `count`. */
  ghost predicate Generated(e: VocabularyExercise, pool: seq<Word>, level: HskLevel, count: nat)
  {
    WellFormed(e, pool, level) && exists i: nat :: i < count && e.id == ExerciseId(e.correctAnswerId, i)
  }

  /** Correct answers taken from increasing positions of a sequence with distinct ids are distinct. */
  lemma PickedDistinct(shuffled: seq<Word>, exercises: seq<VocabularyExercise>, picked: seq<int>,
                       pool: seq<Word>, level: HskLevel, distinct: bool)
    requires Injective(shuffled, WordId)
    requires |exercises| == |picked|
    requires forall k :: 0 <= k < |picked| ==> Picked(exercises[k], picked[k], shuffled, pool, level, distinct)
    requires forall k, m :: 0 <= k < m < |picked| ==> picked[k] < picked[m]
    ensures Injective(exercises, CorrectId)
  {
    forall k, m | 0 <= k < m < |exercises| ensures CorrectId(exercises[k]) != CorrectId(exercises[m]) {
      assert Picked(exercises[k], picked[k], shuffled, pool, level, distinct);
      assert Picked(exercises[m], picked[m], shuffled, pool, level, distinct);
      assert WordId(shuffled[picked[k]]) != WordId(shuffled[picked[m]]);
    }
  }

  /** The exercise the loop built for position `p` of `shuffled`. */
  ghost predicate Picked(e: VocabularyExercise, p: int, shuffled: seq<Word>, pool: seq<Word>, level: HskLevel, distinct: bool)
  {
    && 0 <= p < |shuffled|
    && e.correctAnswerId == shuffled[p].id
    && e.id == ExerciseId(e.correctAnswerId, p)
    && WellFormed(e, pool, level)
    && (distinct ==> Injective(e.options, OptionId))
  }

  /** One pass of the generator's loop: the exercise for position `i`, if it has three distractors. */
  method PickAt(pool: seq<Word>, shuffled: seq<Word>, i: nat, level: HskLevel, rand: seq<nat>)
    returns (e: Option<VocabularyExercise>, rest: seq<nat>)
    requires multiset(shuffled) == multiset(pool) && |pool| >= 4 && i < |shuffled|
    ensures e.Some? ==> Picked(e.value, i, shuffled, pool, level, Injective(pool, WordId))
    ensures Injective(pool, WordId) ==> e.Some?
    ensures SuffixOf(rest, rand)
  {
    var correct := shuffled[i];
    assert correct in multiset(pool);
    if Injective(pool, WordId) {
      DistractorCount(pool, correct);
    }
    e, rest := BuildExercise(pool, correct, i, level, rand);
  }

  /** Exercises built for positions below `n` are generated exercises, with distinct options when the pool's ids are distinct. */
  lemma PickedBatch(exercises: seq<VocabularyExercise>, picked: seq<int>, n: nat,
                    shuffled: seq<Word>, pool: seq<Word>, level: HskLevel, distinct: bool)
    requires |exercises| == |picked|
    requires forall k :: 0 <= k < |picked| ==> picked[k] < n
    requires forall k :: 0 <= k < |picked| ==> Picked(exercises[k], picked[k], shuffled, pool, level, distinct)
    ensures forall e :: e in exercises ==> Generated(e, pool, level, n)
    ensures distinct ==> forall e :: e in exercises ==> Injective(e.options, OptionId)
  {
    forall e | e in exercises ensures Generated(e, pool, level, n) && (distinct ==> Injective(e.options, OptionId)) {
      var k :| 0 <= k < |exercises| && exercises[k] == e;
      assert Picked(exercises[k], picked[k], shuffled, pool, level, distinct);
      assert picked[k] < n;
    }
  }

  /**
   * The generator's loop: one exercise per position `i < n` of `shuffled`,
   * skipping a position without three distractors.
   */
  method BuildBatch(pool: seq<Word>, shuffled: seq<Word>, n: nat, level: HskLevel, rand: seq<nat>)
    returns (exercises: seq<VocabularyExercise>, rest: seq<nat>)
    requires multiset(shuffled) == multiset(pool) && |pool| >= 4 && n <= |shuffled|
    ensures |exercises| <= n
    ensures Injective(pool, WordId) ==> |exercises| == n
    ensures forall e :: e in exercises ==> Generated(e, pool, level, n)
    ensures Injective(pool, WordId) ==> Injective(exercises, CorrectId)
    ensures Injective(pool, WordId) ==> forall e :: e in exercises ==> Injective(e.options, OptionId)
    ensures SuffixOf(rest, rand)
  {
    ghost var distinct := Injective(pool, WordId);
    exercises, rest := [], rand;
    ghost var picked: seq<int> := [];
    for i := 0 to n
      invariant |exercises| == |picked| <= i
      invariant distinct ==> |exercises| == i
      invariant forall k :: 0 <= k < |picked| ==> picked[k] < i
      invariant forall k :: 0 <= k < |picked| ==> Picked(exercises[k], picked[k], shuffled, pool, level, distinct)
      invariant forall k, m :: 0 <= k < m < |picked| ==> picked[k] < picked[m]
      invariant SuffixOf(rest, rand)
    {
      var e, rest1 := PickAt(pool, shuffled, i, level, rest);
      SuffixTrans(rest1, rest, rand);
      rest := rest1;
      if e.Some? {
        exercises := exercises + [e.value];
        picked := picked + [i];
      }
    }
    PickedBatch(exercises, picked, n, shuffled, pool, level, distinct);
    if distinct {
      InjectivePermutation(pool, shuffled, WordId);
      PickedDistinct(shuffled, exercises, picked, pool, level, distinct);
    }
  }

  /** Reordering a batch keeps every exercise it holds and keeps correct answers distinct. */
  lemma ShuffledBatch(exercises: seq<VocabularyExercise>, r: seq<VocabularyExercise>, pool: seq<Word>, level: HskLevel, n: nat)
    requires multiset(r) == multiset(exercises)
    requires forall e :: e in exercises ==> Generated(e, pool, level, n)
    requires Injective(pool, WordId) ==> Injective(exercises, CorrectId)
    requires Injective(pool, WordId) ==> forall e :: e in exercises ==> Injective(e.options, OptionId)
    ensures |r| == |exercises|
    ensures forall e :: e in r ==> Generated(e, pool, level, n)
    ensures Injective(pool, WordId) ==> Injective(r, CorrectId)
    ensures Injective(pool, WordId) ==> forall e :: e in r ==> Injective(e.options, OptionId)
  {
    assert |r| == |multiset(r)|;
    forall e | e in r ensures e in exercises {
      assert e in multiset(exercises);
    }
    if Injective(pool, WordId) {
      InjectivePermutation(exercises, r, CorrectId);
    }
  }

  /**
   * `generateVocabularyExercises`: nothing for a level of fewer than four
   * words; otherwise one exercise per position of a shuffled copy of the
   * level's words, for `min(count, words)` positions, skipping a position
   * without three distractors; the batch is shuffled before it is returned.
   */
  method GenerateVocabularyExercises(words: seq<Word>, level: HskLevel, rand: seq<nat>, count: nat := 5)
    returns (r: seq<VocabularyExercise>)
    ensures |WordsByLevel(words, level)| < 4 ==> r == []
    ensures |r| <= Min(count, |WordsByLevel(words, level)|)
    ensures Injective(WordsByLevel(words, level), WordId) && |WordsByLevel(words, level)| >= 4
            ==> |r| == Min(count, |WordsByLevel(words, level)|)
    ensures forall e :: e in r ==> Generated(e, WordsByLevel(words, level), level, count)
    ensures Injective(WordsByLevel(words, level), WordId) ==> Injective(r, CorrectId)
    ensures Injective(WordsByLevel(words, level), WordId) ==> forall e :: e in r ==> Injective(e.options, OptionId)
  {
    var pool := WordsByLevel(words, level);
    if |pool| < 4 {
      return [];
    }
    var shuffled, rest := Shuffle(pool, rand);
    var n := Min(count, |shuffled|);
    var exercises, rest1 := BuildBatch(pool, shuffled, n, level, rest);
    var rest2;
    r, rest2 := Shuffle(exercises, rest1);
    ShuffledBatch(exercises, r, pool, level, n);
    GeneratedWithin(r, pool, level, n, count);
  }

  /** A batch numbered below `n` is numbered below any `count >= n`. */
  lemma GeneratedWithin(r: seq<VocabularyExercise>, pool: seq<Word>, level: HskLevel, n: nat, count: nat)
    requires n <= count
    requires forall e :: e in r ==> Generated(e, pool, level, n)
    ensures forall e :: e in r ==> Generated(e, pool, level, count)
  {
    forall e | e in r ensures Generated(e, pool, level, count) {
      var i: nat :| i < n && e.id == ExerciseId(e.correctAnswerId, i);
      assert i < count;
    }
  }
}
