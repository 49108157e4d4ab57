/**
 * The multiple-choice quiz session (ExerciseContext.tsx): a state record
 * (types.ts, `ExerciseState`) changed by guarded operations, each of which
 * does nothing when it does not apply.
 *
 * Starting a session defers the generation by a timer; here that is
 * `StartOrResumeSession`, which marks the session as loading and hands
 * back what is to be generated, followed by `CompleteSession`, the timer's
 * callback, which replaces the state. The
 * progress record a handler reads (`userProgress`) is the store's progress
 * when the handler starts; every update it makes is computed from that
 * snapshot.
 */
module ExerciseSession {
  import opened Types
  import opened Strings
  import opened Permutations
  import opened HskData
  import opened Progress

  /** A generation the timer will run: the level and the number of exercises asked for. */
  datatype PendingExercises = PendingExercises(level: HskLevel, count: nat)

  /** JavaScript truthiness of the selected option id: set and non-empty. */
  predicate Selected(id: Option<string>)
  {
    id.Some? && id.value != ""
  }

  class ExerciseController {
    var activeLevel: Option<HskLevel>
    var exercises: seq<VocabularyExercise>
    var currentIndex: nat
    var score: nat
    var selectedOptionId: Option<string>
    var isAnswered: bool
    var isSessionOver: bool
    var isLoading: bool
    const store: AppStore

    /**
     * The position is on a question whenever there are questions, and the
     * score never exceeds the questions answered so far.
     */
    ghost predicate Valid()
      reads this
    {
      && (|exercises| > 0 ==> currentIndex < |exercises|)
      && score <= currentIndex + (if isAnswered then 1 else 0) <= |exercises|
    }

    /** The default state: no level, no exercises. */
    constructor (store: AppStore)
      ensures Valid()
      ensures this.store == store
      ensures activeLevel == None && exercises == [] && currentIndex == 0 && score == 0
      ensures selectedOptionId == None && !isAnswered && !isSessionOver && !isLoading
    {
      this.store := store;
      activeLevel := None;
      exercises := [];
      currentIndex := 0;
      score := 0;
      selectedOptionId := None;
      isAnswered := false;
      isSessionOver := false;
      isLoading := false;
    }

    /**
     * `startOrResumeSession(level, count)`: the same level with a running,
     * non-empty session is resumed (only `isLoading` is cleared); otherwise
     * the session is marked loading at `level` and a generation is pending.
     */
    method StartOrResumeSession(level: HskLevel, count: nat := 5) returns (pending: Option<PendingExercises>)
      requires Valid()
      modifies this
      ensures Valid()
      ensures old(activeLevel) == Some(level) && !old(isSessionOver) && |old(exercises)| > 0 ==>
        && pending == None
        && !isLoading
        && activeLevel == old(activeLevel) && exercises == old(exercises) && currentIndex == old(currentIndex)
        && score == old(score) && selectedOptionId == old(selectedOptionId)
        && isAnswered == old(isAnswered) && isSessionOver == old(isSessionOver)
      ensures !(old(activeLevel) == Some(level) && !old(isSessionOver) && |old(exercises)| > 0) ==>
        && pending == Some(PendingExercises(level, count))
        && isLoading && activeLevel == Some(level)
        && exercises == old(exercises) && currentIndex == old(currentIndex)
        && score == old(score) && selectedOptionId == old(selectedOptionId)
        && isAnswered == old(isAnswered) && isSessionOver == old(isSessionOver)
    {
      if activeLevel == Some(level) && !isSessionOver && |exercises| > 0 {
        isLoading := false;
        return None;
      }
      isLoading := true;
      activeLevel := Some(level);
      pending := Some(PendingExercises(level, count));
    }

    /**
     * The timer's callback: generates the exercises and starts a fresh
     * session on them, over at once (with a notice) when none could be
     * generated.
     */
    method CompleteSession(pending: PendingExercises, words: seq<Word>, rand: seq<nat>)
      modifies this, store
      ensures Valid()
      ensures activeLevel == Some(pending.level)
      ensures currentIndex == 0 && score == 0 && selectedOptionId == None && !isAnswered && !isLoading
      ensures isSessionOver <==> exercises == []
      ensures |WordsByLevel(words, pending.level)| < 4 ==> exercises == []
      ensures |exercises| <= Min(pending.count, |WordsByLevel(words, pending.level)|)
      ensures Injective(WordsByLevel(words, pending.level), WordId) && |WordsByLevel(words, pending.level)| >= 4
              ==> |exercises| == Min(pending.count, |WordsByLevel(words, pending.level)|)
      ensures forall e :: e in exercises ==> Generated(e, WordsByLevel(words, pending.level), pending.level, pending.count)
      ensures Injective(WordsByLevel(words, pending.level), WordId) ==> Injective(exercises, CorrectId)
      ensures Injective(WordsByLevel(words, pending.level), WordId) ==>
                forall e :: e in exercises ==> Injective(e.options, OptionId)
      ensures store.progress == old(store.progress)
      ensures exercises == [] ==>
        store.toasts == old(store.toasts) + [Toast("common.toastNotEnoughExercises", [Param("level", PStr(pending.level.Name()))], Info)]
      ensures exercises != [] ==> store.toasts == old(store.toasts)
    {
      var generated := GenerateVocabularyExercises(words, pending.level, rand, pending.count);
      StartExercises(pending.level, generated);
    }

    /** A fresh session on `generated`; over at once, with a notice, when there is nothing to ask. */
    method StartExercises(level: HskLevel, generated: seq<VocabularyExercise>)
      modifies this, store
      ensures Valid()
      ensures activeLevel == Some(level) && exercises == generated
      ensures currentIndex == 0 && score == 0 && selectedOptionId == None && !isAnswered && !isLoading
      ensures isSessionOver <==> generated == []
      ensures store.progress == old(store.progress)
      ensures generated == [] ==>
        store.toasts == old(store.toasts) + [Toast("common.toastNotEnoughExercises", [Param("level", PStr(level.Name()))], Info)]
      ensures generated != [] ==> store.toasts == old(store.toasts)
    {
      if |generated| == 0 {
        store.ShowToast(Toast("common.toastNotEnoughExercises", [Param("level", PStr(level.Name()))], Info));
      }
      activeLevel := Some(level);
      exercises := generated;
      currentIndex := 0;
      score := 0;
      selectedOptionId := None;
      isAnswered := false;
      isSessionOver := |generated| == 0;
      isLoading := false;
    }

    /** `selectOption(id)`: ignored once the question is answered; otherwise only the selection changes. */
    method SelectOption(optionId: string)
      requires Valid()
      modifies this
      ensures Valid()
      ensures old(isAnswered) ==> selectedOptionId == old(selectedOptionId)
      ensures !old(isAnswered) ==> selectedOptionId == Some(optionId)
      ensures activeLevel == old(activeLevel) && exercises == old(exercises) && currentIndex == old(currentIndex)
      ensures score == old(score) && isAnswered == old(isAnswered)
      ensures isSessionOver == old(isSessionOver) && isLoading == old(isLoading)
    {
      if isAnswered {
        return;
      }
      selectedOptionId := Some(optionId);
    }

    /**
     * `submitAnswer()`: ignored without a selection, once answered, or
     * without exercises. Otherwise the question is answered, the score rises
     * by one exactly when the selection is the correct answer, and the
     * points rise by 10 for a correct answer and by 2 for a wrong one.
     */
    method SubmitAnswer()
      requires Valid()
      modifies this, store
      ensures Valid()
      ensures !Selected(old(selectedOptionId)) || old(isAnswered) || old(exercises) == [] ==>
        && isAnswered == old(isAnswered) && score == old(score)
        && store.progress == old(store.progress) && store.toasts == old(store.toasts)
      ensures Selected(old(selectedOptionId)) && !old(isAnswered) && old(exercises) != [] ==>
        var correct := old(selectedOptionId).value == old(exercises)[old(currentIndex)].correctAnswerId;
        && isAnswered
        && score == old(score) + (if correct then 1 else 0)
        && store.progress == old(store.progress).(points := old(store.progress.points) + (if correct then 10 else 2))
        && store.toasts == old(store.toasts) +
             [if correct then Toast("common.toastCorrectAnswer", [], Success)
              else Toast("common.toastIncorrectAnswer", [], Error)]
      ensures activeLevel == old(activeLevel) && exercises == old(exercises) && currentIndex == old(currentIndex)
      ensures selectedOptionId == old(selectedOptionId) && isSessionOver == old(isSessionOver) && isLoading == old(isLoading)
    {
      if !Selected(selectedOptionId) || isAnswered || |exercises| == 0 {
        return;
      }
      var snapshot := store.progress;
      var current := exercises[currentIndex];
      var isCorrect := selectedOptionId.value == current.correctAnswerId;
      var newScore := score;
      if isCorrect {
        newScore := newScore + 1;
        store.UpdateProgress(SetPoints(snapshot.points + 10));
        store.ShowToast(Toast("common.toastCorrectAnswer", [], Success));
      } else {
        store.UpdateProgress(SetPoints(snapshot.points + 2));
        store.ShowToast(Toast("common.toastIncorrectAnswer", [], Error));
      }
      isAnswered := true;
      score := newScore;
    }

    /**
     * `nextExercise()`: before the last question, moves on and clears the
     * selection; on the last one (or with no questions), ends the session
     * and sets the points to the snapshot plus five per correct answer.
     * Nothing stops a second call from granting the bonus again.
     */
    method NextExercise()
      requires Valid()
      modifies this, store
      ensures Valid()
      ensures old(currentIndex) < |old(exercises)| - 1 ==>
        && currentIndex == old(currentIndex) + 1 && selectedOptionId == None && !isAnswered
        && isSessionOver == old(isSessionOver)
        && store.progress == old(store.progress) && store.toasts == old(store.toasts)
      ensures old(currentIndex) >= |old(exercises)| - 1 ==>
        && isSessionOver
        && currentIndex == old(currentIndex) && selectedOptionId == old(selectedOptionId) && isAnswered == old(isAnswered)
        && store.progress == old(store.progress).(points := old(store.progress.points) + old(score) * 5)
        && store.toasts == old(store.toasts) +
             [Toast("common.toastExerciseSessionComplete",
                    [Param("score", PNum(old(score))), Param("total", PNum(|old(exercises)|))], Info)]
      ensures activeLevel == old(activeLevel) && exercises == old(exercises) && score == old(score)
      ensures isLoading == old(isLoading)
    {
      if currentIndex < |exercises| - 1 {
        currentIndex := currentIndex + 1;
        selectedOptionId := None;
        isAnswered := false;
      } else {
        var snapshot := store.progress;
        isSessionOver := true;
        store.ShowToast(Toast("common.toastExerciseSessionComplete",
                              [Param("score", PNum(score)), Param("total", PNum(|exercises|))], Info));
        store.UpdateProgress(SetPoints(snapshot.points + score * 5));
      }
    }

    /**
     * `restartCurrentSession()`: without a level, only shows a notice. With
     * one, marks the session over and asks `startOrResumeSession` for as
     * many exercises as before (five if there were none). That call decides
     * from the state the handler was created with, before the session was
     * marked over, so a session still running with exercises is resumed
     * rather than regenerated: it ends up over and not loading, with
     * nothing pending.
     */
    method RestartCurrentSession() returns (pending: Option<PendingExercises>)
      requires Valid()
      modifies this, store
      ensures Valid()
      ensures old(activeLevel).Some? && !old(isSessionOver) && |old(exercises)| > 0 ==>
        && pending == None && isSessionOver && !isLoading
        && store.toasts == old(store.toasts)
      ensures old(activeLevel).Some? && (old(isSessionOver) || |old(exercises)| == 0) ==>
        && pending == Some(PendingExercises(old(activeLevel).value, if |old(exercises)| > 0 then |old(exercises)| else 5))
        && isSessionOver && isLoading
        && store.toasts == old(store.toasts)
      ensures old(activeLevel).None? ==>
        && pending == None && isSessionOver == old(isSessionOver) && isLoading == old(isLoading)
        && store.toasts == old(store.toasts) + [Toast("common.toastNotEnoughExercises", [Param("level", PStr(""))], Info)]
      ensures activeLevel == old(activeLevel) && exercises == old(exercises) && currentIndex == old(currentIndex)
      ensures score == old(score) && selectedOptionId == old(selectedOptionId) && isAnswered == old(isAnswered)
      ensures store.progress == old(store.progress)
    {
      if activeLevel.Some? {
        var count := if |exercises| > 0 then |exercises| else 5;
        // The guard sees the state before this restart's own update.
        pending := StartOrResumeSession(activeLevel.value, count);
        isSessionOver := true;
      } else {
        store.ShowToast(Toast("common.toastNotEnoughExercises", [Param("level", PStr(""))], Info));
        pending := None;
      }
    }
  }
}
