/**
 * The swipeable card (src/components/JobCard.tsx): a finished horizontal drag
 * becomes at most one swipe, and the two buttons swipe unconditionally.
 * The animation state of the card only drives its appearance and is not modelled.
 */
module JobCard {
  import opened Wrappers

  /** The direction handed to `onSwipe`: `Right` applies to the offer, `Left` passes it. */
  datatype Direction = Left | Right

  /** The drag distance, in pixels, that a card must exceed to count as swiped. */
  const Threshold: real := 100.0

  /** What the user can do to a card: let go of a drag, or press one of the two buttons. */
  datatype CardEvent =
    | DragEnded(offsetX: real)   // `info.offset.x` when the pointer is released
    | PasserClicked              // the "Passer" button
    | PostulerClicked            // the "Postuler" button

  /** `handleDragEnd`: strict comparisons against the threshold, so exactly +-100 is no swipe. */
  function DragEnd(offsetX: real): (r: Option<Direction>)
    ensures r == Some(Right) <==> offsetX > Threshold
    ensures r == Some(Left) <==> offsetX < -Threshold
    ensures r == None <==> -Threshold <= offsetX <= Threshold
  {
    if offsetX > Threshold then Some(Right)
    else if offsetX < -Threshold then Some(Left)
    else None
  }

  /** The swipe, if any, that the card reports to its parent for one event. */
  function Emit(e: CardEvent): (r: Option<Direction>)
    ensures e == PasserClicked ==> r == Some(Left)
    ensures e == PostulerClicked ==> r == Some(Right)
    ensures e.DragEnded? ==> r == DragEnd(e.offsetX)
  {
    match e
    case DragEnded(x) => DragEnd(x)
    case PasserClicked => Some(Left)
    case PostulerClicked => Some(Right)
  }

  /** The opposite direction: what the same drag mirrored about the card's centre gives. */
  function Opposite(d: Direction): (r: Direction)
    ensures r != d
  {
    match d
    case Left => Right
    case Right => Left
  }

  /** A drag reported as `right` stays `right` when it goes further right. */
  lemma DragRightMonotone(x: real, y: real)
    requires DragEnd(x) == Some(Right) && x <= y
    ensures DragEnd(y) == Some(Right)
  {
  }

  /** A drag reported as `left` stays `left` when it goes further left. */
  lemma DragLeftMonotone(x: real, y: real)
    requires DragEnd(x) == Some(Left) && y <= x
    ensures DragEnd(y) == Some(Left)
  {
  }

  /** Mirroring a drag mirrors its swipe, and a cancelled drag stays cancelled. */
  lemma DragEndSymmetric(x: real)
    ensures DragEnd(-x) == match DragEnd(x) { case None => None case Some(d) => Some(Opposite(d)) }
  {
  }

  /** Both buttons give decisions that a long enough drag also gives, whatever the drag was before. */
  lemma ButtonsMatchFarDrags(x: real)
    requires x > Threshold
    ensures Emit(PostulerClicked) == Emit(DragEnded(x))
    ensures Emit(PasserClicked) == Emit(DragEnded(-x))
  {
  }
}
