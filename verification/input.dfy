/** What keys and swipes ask the carousel to do. */
module Input {
  import opened Common

  datatype Command = Previous | Next | TogglePlay

  /** minSwipeDistance (scripts.js:278), in screen pixels. */
  const MinSwipeDistance := 50

  /**
   * The touchend handler (scripts.js:276-291): a swipe counts when it is
   * more horizontal than vertical and longer than MinSwipeDistance; to
   * the right means previous, to the left next. It never toggles
   * auto-play.
   */
  function SwipeCommand(dx: int, dy: int): (c: Option<Command>)
    ensures c.Some? <==> Abs(dx) > Abs(dy) && Abs(dx) > MinSwipeDistance
    ensures c != Some(TogglePlay)
    ensures c == Some(Previous) ==> dx > MinSwipeDistance
    ensures c == Some(Next) ==> dx < -MinSwipeDistance
  {
    if Abs(dx) > Abs(dy) && Abs(dx) > MinSwipeDistance then
      if dx > 0 then Some(Previous) else Some(Next)
    else None
  }

  /**
   * handleKeyPress (scripts.js:304-315): the action table binds exactly
   * three keys, left arrow, right arrow and space; the default is
   * prevented exactly when a command is found.
   */
  function KeyCommand(key: string): (c: Option<Command>)
    ensures c.Some? <==> key in {"ArrowLeft", "ArrowRight", " "}
    ensures c == Some(Previous) <==> key == "ArrowLeft"
    ensures c == Some(Next) <==> key == "ArrowRight"
    ensures c == Some(TogglePlay) <==> key == " "
  {
    if key == "ArrowLeft" then Some(Previous)
    else if key == "ArrowRight" then Some(Next)
    else if key == " " then Some(TogglePlay)
    else None
  }

  /** Mirroring a swipe left to right swaps previous and next; flipping it vertically changes nothing. */
  lemma SwipeMirror(dx: int, dy: int)
    ensures SwipeCommand(dx, dy) == Some(Previous) <==> SwipeCommand(-dx, dy) == Some(Next)
    ensures SwipeCommand(dx, dy) == SwipeCommand(dx, -dy)
  {
  }
}
