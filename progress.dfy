/**
 * The application store the session controllers write to (AppContext.tsx):
 * the learner's progress record, updated by merging a partial record over
 * the previous one, and the log of toast notifications.
 *
 * A toast is kept as the translation key and parameters of its message;
 * the text shown is `t(key, params)` (see the Language module). Toasts are
 * never removed here: the three-second auto-dismiss timer is not modelled.
 */
module Progress {
  import opened Types

  datatype UserProgress = UserProgress(
    points: int,
    currentHskLevel: HskLevel,
    flashcardsStudiedToday: int,
    badges: seq<string>)

  /** A `Partial<UserProgress>`: the fields an update sets. */
  datatype ProgressPatch = ProgressPatch(
    points: Option<int>,
    currentHskLevel: Option<HskLevel>,
    flashcardsStudiedToday: Option<int>,
    badges: Option<seq<string>>)

  const NoChange := ProgressPatch(None, None, None, None)

  /** A patch that sets the points only. */
  function SetPoints(p: int): ProgressPatch
  {
    NoChange.(points := Some(p))
  }

  /** A patch that sets the points and the count of cards studied today. */
  function SetPointsAndStudied(p: int, studied: int): ProgressPatch
  {
    NoChange.(points := Some(p), flashcardsStudiedToday := Some(studied))
  }

  /** The value a patch gives a field: the patch's when it has one, the old one otherwise. */
  function Pick<T>(patch: Option<T>, prev: T): T
  {
    if patch.Some? then patch.value else prev
  }

  /** `{ ...prev, ...patch }`. */
  function Merge(prev: UserProgress, patch: ProgressPatch): (r: UserProgress)
    ensures patch.points.None? ==> r.points == prev.points
    ensures patch.points.Some? ==> r.points == patch.points.value
    ensures patch.currentHskLevel.None? ==> r.currentHskLevel == prev.currentHskLevel
    ensures patch.currentHskLevel.Some? ==> r.currentHskLevel == patch.currentHskLevel.value
    ensures patch.flashcardsStudiedToday.None? ==> r.flashcardsStudiedToday == prev.flashcardsStudiedToday
    ensures patch.flashcardsStudiedToday.Some? ==> r.flashcardsStudiedToday == patch.flashcardsStudiedToday.value
    ensures patch.badges.None? ==> r.badges == prev.badges
    ensures patch.badges.Some? ==> r.badges == patch.badges.value
  {
    UserProgress(
      Pick(patch.points, prev.points),
      Pick(patch.currentHskLevel, prev.currentHskLevel),
      Pick(patch.flashcardsStudiedToday, prev.flashcardsStudiedToday),
      Pick(patch.badges, prev.badges))
  }

  /** Two patches in a row: the later one's fields win. */
  function Then(first: ProgressPatch, second: ProgressPatch): ProgressPatch
  {
    ProgressPatch(
      if second.points.Some? then second.points else first.points,
      if second.currentHskLevel.Some? then second.currentHskLevel else first.currentHskLevel,
      if second.flashcardsStudiedToday.Some? then second.flashcardsStudiedToday else first.flashcardsStudiedToday,
      if second.badges.Some? then second.badges else first.badges)
  }

  /** Merging two patches one after the other is merging their combination: last write wins. */
  lemma MergeTwice(prev: UserProgress, first: ProgressPatch, second: ProgressPatch)
    ensures Merge(Merge(prev, first), second) == Merge(prev, Then(first, second))
  {
  }

  /** Merging the same patch again changes nothing. */
  lemma MergeIdempotent(prev: UserProgress, patch: ProgressPatch)
    ensures Merge(Merge(prev, patch), patch) == Merge(prev, patch)
  {
  }

  datatype Severity = Success | Error | Info

  /** A notification: the message's translation key and parameters, and its kind. */
  datatype Toast = Toast(key: string, params: seq<Param>, severity: Severity)

  /** The store: the progress record and the notifications shown so far. */
  class AppStore {
    var progress: UserProgress
    var toasts: seq<Toast>

    /** A fresh store: the saved progress (or the default one) and no toasts. */
    constructor (initial: UserProgress)
      ensures progress == initial && toasts == []
    {
      progress := initial;
      toasts := [];
    }

    /** `updateUserProgress(patch)`. */
    method UpdateProgress(patch: ProgressPatch)
      modifies this
      ensures progress == Merge(old(progress), patch)
      ensures toasts == old(toasts)
    {
      progress := Merge(progress, patch);
    }

    /** `showToast(message, type)`: appends to the log. */
    method ShowToast(t: Toast)
      modifies this
      ensures toasts == old(toasts) + [t]
      ensures progress == old(progress)
    {
      toasts := toasts + [t];
    }
  }
}
