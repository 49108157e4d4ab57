/**
 * The flashcard review session (FlashcardContext.tsx): a deck for a level,
 * a study queue drawn from it, and a position in the queue, changed by
 * guarded operations.
 *
 * Answering a card splices a copy of the queue: a known card is removed, an
 * unknown one is moved about three places later. Those splices are the
 * functions `RemoveAt`, `InsertAt` and `Requeue` below. As in the quiz
 * session, starting is split into `StartOrResumeFlashcardSession` and the
 * timer's callback `CompleteFlashcardSession`, and every progress update
 * of a handler is computed from the progress it read when it started.
 */
module FlashcardSession {
  import opened Types
  import opened Strings
  import opened HskData
  import opened Progress

  // ---------------------------------------------------------------------------
  // Queue surgery

  /** `q.splice(i, 1)` on a copy: the queue without its `i`-th element. */
  function RemoveAt<T>(q: seq<T>, i: nat): (r: seq<T>)
    requires i < |q|
    ensures |r| == |q| - 1
    ensures forall k :: 0 <= k < i ==> r[k] == q[k]
    ensures forall k :: i <= k < |r| ==> r[k] == q[k + 1]
  {
    q[..i] + q[i + 1..]
  }

  /** `q.splice(p, 0, x)` on a copy: `x` inserted before position `p`. */
  function InsertAt<T>(q: seq<T>, p: nat, x: T): (r: seq<T>)
    requires p <= |q|
    ensures |r| == |q| + 1
    ensures r[p] == x
    ensures forall k :: 0 <= k < p ==> r[k] == q[k]
    ensures forall k :: p < k < |r| ==> r[k] == q[k - 1]
  {
    q[..p] + [x] + q[p..]
  }

  /** Removing an element leaves the others, each as often as before. */
  lemma RemoveAtMultiset<T>(q: seq<T>, i: nat)
    requires i < |q|
    ensures multiset(RemoveAt(q, i)) == multiset(q) - multiset{q[i]}
    ensures multiset(RemoveAt(q, i)) <= multiset(q)
  {
    assert q == q[..i] + [q[i]] + q[i + 1..];
    assert multiset(q) == multiset(q[..i]) + multiset{q[i]} + multiset(q[i + 1..]);
  }

  /** Inserting adds exactly the inserted element. */
  lemma InsertAtMultiset<T>(q: seq<T>, p: nat, x: T)
    requires p <= |q|
    ensures multiset(InsertAt(q, p, x)) == multiset(q) + multiset{x}
  {
    assert q == q[..p] + q[p..];
  }

  /** Removing what was just inserted gives the queue back. */
  lemma RemoveInserted<T>(q: seq<T>, p: nat, x: T)
    requires p <= |q|
    ensures RemoveAt(InsertAt(q, p, x), p) == q
  {
  }

  /** Where an unknown card goes back in: three places on, or last. */
  function ReinsertPosition(len: nat, i: nat): nat
    requires len >= 1
  {
    Min(len - 1, i + 3)
  }

  /** The "did not know" splice: take the `i`-th card out and put it back `min(len - 1, i + 3)`. */
  function Requeue<T>(q: seq<T>, i: nat): seq<T>
    requires i < |q|
  {
    InsertAt(RemoveAt(q, i), ReinsertPosition(|q|, i), q[i])
  }

  /**
   * Requeueing keeps the queue's length and contents, puts the card at
   * `min(len - 1, i + 3)`, and keeps the other cards in their order.
   */
  lemma RequeueSpec<T>(q: seq<T>, i: nat)
    requires i < |q|
    ensures |Requeue(q, i)| == |q|
    ensures multiset(Requeue(q, i)) == multiset(q)
    ensures Requeue(q, i)[ReinsertPosition(|q|, i)] == q[i]
    ensures RemoveAt(Requeue(q, i), ReinsertPosition(|q|, i)) == RemoveAt(q, i)
  {
    var rest := RemoveAt(q, i);
    RemoveAtMultiset(q, i);
    InsertAtMultiset(rest, ReinsertPosition(|q|, i), q[i]);
    RemoveInserted(rest, ReinsertPosition(|q|, i), q[i]);
  }

  /** `[A, B, C]` with the first card not known becomes `[B, C, A]`. */
  lemma RequeueFirstOfThree<T>(a: T, b: T, c: T)
    ensures Requeue([a, b, c], 0) == [b, c, a]
  {
    assert RemoveAt([a, b, c], 0) == [b, c];
    assert InsertAt([b, c], 2, a) == [b, c, a];
  }

  /** A card answered "did not know" near the end goes last. */
  lemma RequeueNearEnd<T>(q: seq<T>, i: nat)
    requires i < |q| <= i + 4
    ensures Requeue(q, i)[|q| - 1] == q[i]
  {
    RequeueSpec(q, i);
  }

  // ---------------------------------------------------------------------------
  // Skipping round the queue

  /** `(i + 1) % len`. */
  function NextIndex(i: nat, len: nat): (r: nat)
    requires len > 0
    ensures r < len
  {
    (i + 1) % len
  }

  /** Within the queue, a skip moves one place on, and from the last place to the first. */
  lemma NextIndexStep(i: nat, len: nat)
    requires i < len
    ensures NextIndex(i, len) == if i + 1 == len then 0 else i + 1
  {
  }

  /** The position after `n` skips from `i`. */
  function Skips(i: nat, len: nat, n: nat): nat
    requires len > 0
  {
    if n == 0 then i else NextIndex(Skips(i, len, n - 1), len)
  }

  /** Up to `len` skips from `i` walk forward and wrap round once. */
  lemma {:induction false} SkipsWalk(i: nat, len: nat, n: nat)
    requires i < len && n <= len
    ensures Skips(i, len, n) == if i + n < len then i + n else i + n - len
  {
    if n > 0 {
      SkipsWalk(i, len, n - 1);
      var p := Skips(i, len, n - 1);
      NextIndexStep(p, len);
    }
  }

  /** `len` skips come back to the card they started from. */
  lemma SkipsCycle(i: nat, len: nat)
    requires i < len
    ensures Skips(i, len, len) == i
  {
    SkipsWalk(i, len, len);
  }

  /** Every place in the queue is reached by fewer than `len` skips. */
  lemma SkipsReachAll(i: nat, len: nat, j: nat)
    requires i < len && j < len
    ensures exists n: nat :: n < len && Skips(i, len, n) == j
  {
    var n: nat := if i <= j then j - i else j + len - i;
    SkipsWalk(i, len, n);
    assert Skips(i, len, n) == j;
  }

  // ---------------------------------------------------------------------------
  // The session

  /** A deck the timer will draw: the level and the queue length asked for. */
  datatype PendingDeck = PendingDeck(level: HskLevel, count: nat)

  /** The queue length a restart asks for: at most ten, or ten for an empty deck. */
  function RestartCount(deckSize: nat): nat
  {
    if deckSize > 0 then Min(10, deckSize) else 10
  }

  class FlashcardController {
    var activeLevel: Option<HskLevel>
    var deck: seq<Flashcard>
    var studyQueue: seq<Flashcard>
    var currentCardIndexInQueue: nat
    var revealed: bool
    var isSessionOver: bool
    var isLoading: bool
    const store: AppStore

    /** The position is on a card whenever there are cards, and the queue holds only cards of the deck. */
    ghost predicate Valid()
      reads this
    {
      && (|studyQueue| > 0 ==> currentCardIndexInQueue < |studyQueue|)
      && multiset(studyQueue) <= multiset(deck)
    }

    /** The default state: no level, no deck. */
    constructor (store: AppStore)
      ensures Valid()
      ensures this.store == store
      ensures activeLevel == None && deck == [] && studyQueue == [] && currentCardIndexInQueue == 0
      ensures !revealed && !isSessionOver && !isLoading
    {
      this.store := store;
      activeLevel := None;
      deck := [];
      studyQueue := [];
      currentCardIndexInQueue := 0;
      revealed := false;
      isSessionOver := false;
      isLoading := false;
    }

    /**
     * `startOrResumeFlashcardSession(level, count)`: the same level with a
     * running, non-empty queue is resumed (only `isLoading` is cleared);
     * otherwise the session is marked loading at `level` and a deck is pending.
     */
    method StartOrResumeFlashcardSession(level: HskLevel, count: nat := 10) returns (pending: Option<PendingDeck>)
      requires Valid()
      modifies this
      ensures Valid()
      ensures old(activeLevel) == Some(level) && !old(isSessionOver) && |old(studyQueue)| > 0 ==>
        && pending == None && !isLoading && activeLevel == old(activeLevel)
      ensures !(old(activeLevel) == Some(level) && !old(isSessionOver) && |old(studyQueue)| > 0) ==>
        && pending == Some(PendingDeck(level, count)) && isLoading && activeLevel == Some(level)
      ensures deck == old(deck) && studyQueue == old(studyQueue) && currentCardIndexInQueue == old(currentCardIndexInQueue)
      ensures revealed == old(revealed) && isSessionOver == old(isSessionOver)
    {
      if activeLevel == Some(level) && !isSessionOver && |studyQueue| > 0 {
        isLoading := false;
        return None;
      }
      isLoading := true;
      activeLevel := Some(level);
      pending := Some(PendingDeck(level, count));
    }

    /**
     * The timer's callback: the deck is at most `2 * count` cards of the level, the
     * queue its first `count` cards in `order`, a shuffled copy of the deck
     * (the source sorts with a random comparator, so any order may come
     * out). An empty queue ends the session at once, with a notice.
     */
    method CompleteFlashcardSession(pending: PendingDeck, words: seq<Word>, order: seq<Flashcard>)
      requires multiset(order) == multiset(FlashcardsByLevel(words, pending.level, 2 * pending.count))
      modifies this, store
      ensures Valid()
      ensures activeLevel == Some(pending.level)
      ensures deck == FlashcardsByLevel(words, pending.level, 2 * pending.count)
      ensures |deck| <= 2 * pending.count
      ensures forall c :: c in deck ==> c.hskLevel == pending.level
      ensures studyQueue == order[..Min(pending.count, |order|)]
      ensures |studyQueue| == Min(pending.count, |deck|)
      ensures multiset(studyQueue) <= multiset(deck)
      ensures currentCardIndexInQueue == 0 && !revealed && !isLoading
      ensures isSessionOver <==> studyQueue == []
      ensures store.progress == old(store.progress)
      ensures studyQueue == [] ==>
        store.toasts == old(store.toasts) + [Toast("common.toastNotEnoughFlashcards", [Param("level", PStr(pending.level.Name()))], Info)]
      ensures studyQueue != [] ==> store.toasts == old(store.toasts)
    {
      var newDeck := FlashcardsByLevel(words, pending.level, 2 * pending.count);
      FlashcardsOfLevel(words, pending.level, 2 * pending.count);
      ShuffledPrefix(order, newDeck, pending.count);
      var newQueue := order[..Min(pending.count, |order|)];
      StartDeck(pending.level, newDeck, newQueue);
    }

    /** A fresh session on `newDeck` studying `newQueue`; over at once, with a notice, when the queue is empty. */
    method StartDeck(level: HskLevel, newDeck: seq<Flashcard>, newQueue: seq<Flashcard>)
      requires multiset(newQueue) <= multiset(newDeck)
      modifies this, store
      ensures Valid()
      ensures activeLevel == Some(level) && deck == newDeck && studyQueue == newQueue
      ensures currentCardIndexInQueue == 0 && !revealed && !isLoading
      ensures isSessionOver <==> newQueue == []
      ensures store.progress == old(store.progress)
      ensures newQueue == [] ==>
        store.toasts == old(store.toasts) + [Toast("common.toastNotEnoughFlashcards", [Param("level", PStr(level.Name()))], Info)]
      ensures newQueue != [] ==> store.toasts == old(store.toasts)
    {
      if |newQueue| == 0 {
        store.ShowToast(Toast("common.toastNotEnoughFlashcards", [Param("level", PStr(level.Name()))], Info));
      }
      activeLevel := Some(level);
      deck := newDeck;
      studyQueue := newQueue;
      currentCardIndexInQueue := 0;
      revealed := false;
      isSessionOver := |newQueue| == 0;
      isLoading := false;
    }

    /** `revealCurrentCard()`: ignored with an empty queue or a card already shown; otherwise shows it. */
    method RevealCurrentCard()
      requires Valid()
      modifies this
      ensures Valid()
      ensures |old(studyQueue)| == 0 || old(revealed) ==> revealed == old(revealed)
      ensures !(|old(studyQueue)| == 0 || old(revealed)) ==> revealed
      ensures activeLevel == old(activeLevel) && deck == old(deck) && studyQueue == old(studyQueue)
      ensures currentCardIndexInQueue == old(currentCardIndexInQueue)
      ensures isSessionOver == old(isSessionOver) && isLoading == old(isLoading)
    {
      if |studyQueue| == 0 || revealed {
        return;
      }
      revealed := true;
    }

    /**
     * The store effects of an answer, computed from the progress the handler
     * read: the card's points and count, its notice, and, when the queue ran
     * out, the completion notice and the deck bonus over the same snapshot.
     */
    method RecordAnswer(knewIt: bool, card: Flashcard, emptied: bool)
      modifies store
      ensures store.progress == AnsweredProgress(old(store.progress), knewIt, emptied, |deck|)
      ensures store.toasts == old(store.toasts) + AnswerToasts(knewIt, card, emptied, activeLevel)
    {
      var snapshot := store.progress;
      store.UpdateProgress(CardPatch(snapshot, knewIt));
      store.ShowToast(CardToast(knewIt, card));
      if emptied {
        store.ShowToast(CompleteToast(activeLevel));
        store.UpdateProgress(SetPoints(snapshot.points + |deck| * 2));
      }
    }

    /**
     * `answerCurrentCard(knewIt)`: ignored unless the card is shown and the
     * queue is non-empty. Otherwise the queue is spliced (`AnsweredQueue`),
     * a position past the end goes back to 0, the card is hidden, the
     * session is over exactly when the queue is empty, and the progress and
     * notices are those of `AnsweredProgress` and `AnswerToasts`.
     */
    method AnswerCurrentCard(knewIt: bool)
      requires Valid()
      modifies this, store
      ensures Valid()
      ensures !old(revealed) || |old(studyQueue)| == 0 ==>
        && studyQueue == old(studyQueue) && currentCardIndexInQueue == old(currentCardIndexInQueue)
        && revealed == old(revealed) && isSessionOver == old(isSessionOver)
        && store.progress == old(store.progress) && store.toasts == old(store.toasts)
      ensures old(revealed) && |old(studyQueue)| > 0 ==>
        && studyQueue == AnsweredQueue(old(studyQueue), old(currentCardIndexInQueue), knewIt)
        && currentCardIndexInQueue == AnsweredIndex(|studyQueue|, old(currentCardIndexInQueue))
        && !revealed
        && (isSessionOver <==> studyQueue == [])
        && store.progress == AnsweredProgress(old(store.progress), knewIt, studyQueue == [], |old(deck)|)
        && store.toasts == old(store.toasts) +
             AnswerToasts(knewIt, old(studyQueue)[old(currentCardIndexInQueue)], studyQueue == [], old(activeLevel))
      ensures activeLevel == old(activeLevel) && deck == old(deck) && isLoading == old(isLoading)
    {
      if !revealed || |studyQueue| == 0 {
        return;
      }
      var i := currentCardIndexInQueue;
      var newQueue := AnsweredQueue(studyQueue, i, knewIt);
      RecordAnswer(knewIt, studyQueue[i], |newQueue| == 0);
      var newIndex := AnsweredIndex(|newQueue|, i);
      SubMultisetTrans(multiset(newQueue), multiset(studyQueue), multiset(deck));
      SetQueue(newQueue, newIndex);
    }

    /** The queue and position after an answer, with the card hidden; the session is over when the queue is empty. */
    method SetQueue(newQueue: seq<Flashcard>, newIndex: nat)
      requires multiset(newQueue) <= multiset(deck)
      requires |newQueue| > 0 ==> newIndex < |newQueue|
      modifies this
      ensures Valid()
      ensures studyQueue == newQueue && currentCardIndexInQueue == newIndex && !revealed
      ensures isSessionOver <==> newQueue == []
      ensures activeLevel == old(activeLevel) && deck == old(deck) && isLoading == old(isLoading)
    {
      studyQueue := newQueue;
      currentCardIndexInQueue := newIndex;
      revealed := false;
      isSessionOver := |newQueue| == 0;
    }

    /**
     * `skipToNextCardInQueue()`: ignored for a queue of at most one card;
     * otherwise moves one place round the queue and hides the card.
     */
    method SkipToNextCardInQueue()
      requires Valid()
      modifies this
      ensures Valid()
      ensures |old(studyQueue)| <= 1 ==> currentCardIndexInQueue == old(currentCardIndexInQueue) && revealed == old(revealed)
      ensures |old(studyQueue)| > 1 ==>
        currentCardIndexInQueue == NextIndex(old(currentCardIndexInQueue), |old(studyQueue)|) && !revealed
      ensures activeLevel == old(activeLevel) && deck == old(deck) && studyQueue == old(studyQueue)
      ensures isSessionOver == old(isSessionOver) && isLoading == old(isLoading)
    {
      if |studyQueue| <= 1 {
        return;
      }
      currentCardIndexInQueue := NextIndex(currentCardIndexInQueue, |studyQueue|);
      revealed := false;
    }

    /**
     * `restartFlashcardSession()`: without a level, only shows a notice.
     * With one, marks the session over and asks
     * `startOrResumeFlashcardSession` for at most ten cards (ten for an
     * empty deck). That call decides from the state the handler was created
     * with, so a session still running with a non-empty queue is resumed
     * rather than redrawn: it ends up over and not loading, nothing pending.
     */
    method RestartFlashcardSession() returns (pending: Option<PendingDeck>)
      requires Valid()
      modifies this, store
      ensures Valid()
      ensures old(activeLevel).Some? && !old(isSessionOver) && |old(studyQueue)| > 0 ==>
        && pending == None && isSessionOver && !isLoading
        && store.toasts == old(store.toasts)
      ensures old(activeLevel).Some? && (old(isSessionOver) || |old(studyQueue)| == 0) ==>
        && pending == Some(PendingDeck(old(activeLevel).value, RestartCount(|old(deck)|)))
        && isSessionOver && isLoading
        && store.toasts == old(store.toasts)
      ensures old(activeLevel).None? ==>
        && pending == None && isSessionOver == old(isSessionOver) && isLoading == old(isLoading)
        && store.toasts == old(store.toasts) + [Toast("common.toastNotEnoughFlashcards", [Param("level", PStr(""))], Info)]
      ensures activeLevel == old(activeLevel) && deck == old(deck) && studyQueue == old(studyQueue)
      ensures currentCardIndexInQueue == old(currentCardIndexInQueue) && revealed == old(revealed)
      ensures store.progress == old(store.progress)
    {
      if activeLevel.Some? {
        // The guard sees the state before this restart's own update.
        pending := StartOrResumeFlashcardSession(activeLevel.value, RestartCount(|deck|));
        isSessionOver := true;
      } else {
        store.ShowToast(Toast("common.toastNotEnoughFlashcards", [Param("level", PStr(""))], Info));
        pending := None;
      }
    }
  }

  /** The queue after an answer: the card removed if known, requeued otherwise. */
  function AnsweredQueue<T>(q: seq<T>, i: nat, knewIt: bool): (r: seq<T>)
    requires i < |q|
    ensures knewIt ==> |r| == |q| - 1 && multiset(r) == multiset(q) - multiset{q[i]}
    ensures !knewIt ==> |r| == |q| && multiset(r) == multiset(q)
    ensures multiset(r) <= multiset(q)
  {
    if knewIt then
      RemoveAtMultiset(q, i);
      RemoveAt(q, i)
    else
      RequeueSpec(q, i);
      Requeue(q, i)
  }

  lemma SubMultisetTrans<T>(a: multiset<T>, b: multiset<T>, c: multiset<T>)
    requires a <= b && b <= c
    ensures a <= c
  {
  }

  /**
   * The first `n` cards of a shuffled deck: as many as the deck allows, and
   * each taken from the deck no more often than it occurs there.
   */
  lemma ShuffledPrefix<T>(order: seq<T>, deck: seq<T>, n: nat)
    requires multiset(order) == multiset(deck)
    ensures |order| == |deck|
    ensures |order[..Min(n, |order|)]| == Min(n, |deck|)
    ensures multiset(order[..Min(n, |order|)]) <= multiset(deck)
  {
    assert |multiset(order)| == |multiset(deck)|;
    var m := Min(n, |order|);
    assert order == order[..m] + order[m..];
    assert multiset(order) == multiset(order[..m]) + multiset(order[m..]);
  }

  /** The position after an answer: kept, unless it is now past the end of a non-empty queue. */
  function AnsweredIndex(len: nat, i: nat): (r: nat)
    ensures len > 0 ==> r < len
    ensures len > 0 && i < len ==> r == i
    ensures len > 0 && i >= len ==> r == 0
    ensures len == 0 ==> r == i
  {
    if len > 0 && i >= len then 0 else i
  }

  /** The update an answer makes first: 5 more points for a known card, 1 for an unknown one, one more card studied. */
  function CardPatch(snapshot: UserProgress, knewIt: bool): ProgressPatch
  {
    SetPointsAndStudied(snapshot.points + (if knewIt then 5 else 1), snapshot.flashcardsStudiedToday + 1)
  }

  /**
   * The progress after an answer, from the snapshot the handler read: one
   * more card studied; 5 more points for a known card, 1 for an unknown
   * one, except that emptying the queue sets the points to the snapshot
   * plus two per deck card, so the card's own points are lost.
   */
  function AnsweredProgress(snapshot: UserProgress, knewIt: bool, emptied: bool, deckSize: nat): (r: UserProgress)
    ensures r.flashcardsStudiedToday == snapshot.flashcardsStudiedToday + 1
    ensures emptied ==> r.points == snapshot.points + 2 * deckSize
    ensures !emptied ==> r.points == snapshot.points + (if knewIt then 5 else 1)
    ensures r.currentHskLevel == snapshot.currentHskLevel && r.badges == snapshot.badges
  {
    var first := Merge(snapshot, CardPatch(snapshot, knewIt));
    if emptied then Merge(first, SetPoints(snapshot.points + deckSize * 2)) else first
  }

  /** `state.activeLevel || ''`. */
  function LevelName(level: Option<HskLevel>): string
  {
    if level.Some? then level.value.Name() else ""
  }

  /** The notice for the card answered. */
  function CardToast(knewIt: bool, card: Flashcard): Toast
  {
    if knewIt then Toast("common.toastFlashcardCorrect", [Param("item", PStr(card.frontText))], Success)
    else Toast("common.toastFlashcardReview", [Param("item", PStr(card.frontText))], Info)
  }

  /** The notice for a finished session. */
  function CompleteToast(level: Option<HskLevel>): Toast
  {
    Toast("common.toastFlashcardSessionComplete", [Param("level", PStr(LevelName(level)))], Success)
  }

  /** The notices an answer shows: one for the card, and one more when the queue runs out. */
  function AnswerToasts(knewIt: bool, card: Flashcard, emptied: bool, level: Option<HskLevel>): (r: seq<Toast>)
    ensures |r| == if emptied then 2 else 1
    ensures r[0].key == (if knewIt then "common.toastFlashcardCorrect" else "common.toastFlashcardReview")
    ensures r[0].params == [Param("item", PStr(card.frontText))]
    ensures r[0].severity == (if knewIt then Success else Info)
    ensures emptied ==> r[1] == Toast("common.toastFlashcardSessionComplete", [Param("level", PStr(LevelName(level)))], Success)
  {
    [CardToast(knewIt, card)] + (if emptied then [CompleteToast(level)] else [])
  }
}
