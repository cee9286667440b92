/**
 * The page counter of the viewer as pure transitions, and the mapping from
 * raw input (keys, swipes) to the action the viewer takes. The counter
 * lives in [1, totalPages]; every transition keeps it there.
 */
module Navigation {

  /** Swipes shorter than this many pixels are ignored. */
  const SwipeThreshold: int := 50

  /** nextPage: one page forward, nothing at the last page. */
  function NextOf(totalPages: nat, page: int): (r: int)
    requires 1 <= page <= totalPages
    ensures 1 <= r <= totalPages
    ensures r == page <==> page == totalPages
    ensures r != page ==> r == page + 1
  {
    if page < totalPages then page + 1 else page
  }

  /** previousPage: one page back, nothing at the first page. */
  function PreviousOf(totalPages: nat, page: int): (r: int)
    requires 1 <= page <= totalPages
    ensures 1 <= r <= totalPages
    ensures r == page <==> page == 1
    ensures r != page ==> r == page - 1
  {
    if page > 1 then page - 1 else page
  }

  /** goToPage: any page in range is taken, any other request is dropped. */
  function GoToOf(totalPages: nat, page: int, target: int): (r: int)
    requires 1 <= page <= totalPages
    ensures 1 <= r <= totalPages
    ensures r == target <==> 1 <= target <= totalPages
    ensures !(1 <= target <= totalPages) ==> r == page
  {
    if 1 <= target <= totalPages then target else page
  }

  function Min(a: int, b: int): int { if a <= b then a else b }
  function Max(a: int, b: int): int { if a >= b then a else b }

  /** `count` presses of the next button. */
  function NextTimes(totalPages: nat, page: int, count: nat): (r: int)
    requires 1 <= page <= totalPages
    ensures 1 <= r <= totalPages
    decreases count
  {
    if count == 0 then page else NextTimes(totalPages, NextOf(totalPages, page), count - 1)
  }

  /** `count` presses of the previous button. */
  function PreviousTimes(totalPages: nat, page: int, count: nat): (r: int)
    requires 1 <= page <= totalPages
    ensures 1 <= r <= totalPages
    decreases count
  {
    if count == 0 then page else PreviousTimes(totalPages, PreviousOf(totalPages, page), count - 1)
  }

  /** Going forward `count` pages stops at the last page and stays there. */
  lemma {:induction false} NextTimesSaturates(totalPages: nat, page: int, count: nat)
    requires 1 <= page <= totalPages
    ensures NextTimes(totalPages, page, count) == Min(page + count, totalPages)
    decreases count
  {
    if count > 0 {
      NextTimesSaturates(totalPages, NextOf(totalPages, page), count - 1);
    }
  }

  /** Going back `count` pages stops at the first page and stays there. */
  lemma {:induction false} PreviousTimesSaturates(totalPages: nat, page: int, count: nat)
    requires 1 <= page <= totalPages
    ensures PreviousTimes(totalPages, page, count) == Max(page - count, 1)
    decreases count
  {
    if count > 0 {
      PreviousTimesSaturates(totalPages, PreviousOf(totalPages, page), count - 1);
    }
  }

  /** Away from the bounds, next and previous undo each other. */
  lemma NextPreviousInverse(totalPages: nat, page: int)
    requires 1 <= page <= totalPages
    ensures page < totalPages ==> PreviousOf(totalPages, NextOf(totalPages, page)) == page
    ensures page > 1 ==> NextOf(totalPages, PreviousOf(totalPages, page)) == page
  {
  }

  // ---------------------------------------------------------------------
  // Input dispatch
  // ---------------------------------------------------------------------

  /** What an input event asks the viewer to do. */
  datatype Action = Idle | Previous | Next | Close

  /** The keydown listener: arrows turn pages, Escape closes the modal, any other key is ignored. */
  function KeyAction(key: string): Action {
    if key == "ArrowLeft" then Previous
    else if key == "ArrowRight" then Next
    else if key == "Escape" then Close
    else Idle
  }

  function Abs(x: int): nat { if x < 0 then -x else x }

  /**
   * handleSwipe, given diff = touchStartX - touchEndX: a leftward swipe of
   * more than the threshold goes forward, a rightward one goes back.
   */
  function SwipeAction(diff: int): Action {
    if Abs(diff) > SwipeThreshold then
      if diff > 0 then Next else Previous
    else Idle
  }

  /** The same action in the opposite direction. */
  function Mirror(a: Action): Action {
    match a
    case Next => Previous
    case Previous => Next
    case other => other
  }

  /** The keys that do something are exactly the three the listener names. */
  lemma KeyActionCases(key: string)
    ensures KeyAction(key) == Next <==> key == "ArrowRight"
    ensures KeyAction(key) == Previous <==> key == "ArrowLeft"
    ensures KeyAction(key) == Close <==> key == "Escape"
    ensures KeyAction(key) == Idle <==> key !in {"ArrowLeft", "ArrowRight", "Escape"}
  {
  }

  /** A swipe never closes the modal, and it acts exactly when it is longer than the threshold. */
  lemma SwipeActionCases(diff: int)
    ensures SwipeAction(diff) != Close
    ensures SwipeAction(diff) == Next <==> diff > SwipeThreshold
    ensures SwipeAction(diff) == Previous <==> diff < -SwipeThreshold
    ensures SwipeAction(diff) == Idle <==> -SwipeThreshold <= diff <= SwipeThreshold
  {
  }

  /** Swiping the other way by the same distance does the opposite. */
  lemma SwipeMirror(diff: int)
    ensures SwipeAction(-diff) == Mirror(SwipeAction(diff))
  {
  }

  /** A long leftward swipe acts like ArrowRight, a long rightward one like ArrowLeft. */
  lemma SwipeAgreesWithKeys(diff: int)
    ensures diff > SwipeThreshold ==> SwipeAction(diff) == KeyAction("ArrowRight")
    ensures diff < -SwipeThreshold ==> SwipeAction(diff) == KeyAction("ArrowLeft")
  {
  }
}
