/**
 * The application's data model: proficiency levels, vocabulary entries,
 * flashcards and multiple-choice exercises (types.ts).
 */
module Types {

  datatype Option<+T> = None | Some(value: T)

  /** A proficiency tier, "HSK 1" to "HSK 6". */
  datatype HskLevel = HSK1 | HSK2 | HSK3 | HSK4 | HSK5 | HSK6
  {
    /** The enum's string value, with its space. */
    function Name(): string
    {
      match this
      case HSK1 => "HSK 1"
      case HSK2 => "HSK 2"
      case HSK3 => "HSK 3"
      case HSK4 => "HSK 4"
      case HSK5 => "HSK 5"
      case HSK6 => "HSK 6"
    }
  }

  /** A vocabulary entry; the optional audio reference is not used by any logic. */
  datatype Word = Word(
    id: string,
    character: string,
    pinyin: string,
    translation: string,
    hskLevel: HskLevel,
    exampleSentence: Option<string>,
    exampleTranslation: Option<string>)

  datatype Phrase = Phrase(
    id: string,
    chinese: string,
    pinyin: string,
    translation: string,
    hskLevel: HskLevel)

  /**
   * A flashcard derived from a word. The review timestamps and the ease
   * factor are left out; `intervalDays` is always 1 where cards are made.
   */
  datatype Flashcard = Flashcard(
    id: string,
    wordId: string,
    frontText: string,
    backText: string,
    intervalDays: int,
    hskLevel: HskLevel)

  datatype ExerciseOption = ExerciseOption(id: string, text: string)

  datatype QuestionType = CharToTranslation | TranslationToChar | CharToPinyin

  datatype VocabularyExercise = VocabularyExercise(
    id: string,
    questionType: QuestionType,
    questionPrompt: string,
    options: seq<ExerciseOption>,
    correctAnswerId: string,
    hskLevel: HskLevel)

  /** A value substituted into a translated message: a string or a whole number. */
  datatype ParamValue = PStr(s: string) | PNum(n: int)

  /** One named parameter of a translated message, in key order. */
  datatype Param = Param(name: string, value: ParamValue)
}
