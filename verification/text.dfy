/**
 * The two text containers (primary and secondary) that take turns
 * showing the active slide's title and synopsis.
 */
module TextSlots {
  import opened Common

  datatype TextSlot = Primary | Secondary

  /** One container: whether it has the 'active' class, its z-index, and which slide's text it was last filled with. */
  datatype TextBox = TextBox(active: bool, z: int, shows: Option<nat>)

  /** Both containers and usePrimaryInfo, the flag naming the current one. */
  datatype TextPair = TextPair(primary: TextBox, secondary: TextBox, usePrimary: bool)

  function Other(s: TextSlot): TextSlot
  {
    if s == Primary then Secondary else Primary
  }

  /** The container usePrimaryInfo names. */
  function Current(t: TextPair): TextSlot
  {
    if t.usePrimary then Primary else Secondary
  }

  function Box(t: TextPair, s: TextSlot): TextBox
  {
    if s == Primary then t.primary else t.secondary
  }

  function WithBox(t: TextPair, s: TextSlot, b: TextBox): (r: TextPair)
    ensures Box(r, s) == b && Box(r, Other(s)) == Box(t, Other(s)) && r.usePrimary == t.usePrimary
  {
    if s == Primary then t.(primary := b) else t.(secondary := b)
  }

  /** The state right after initializeFirstSlide (scripts.js:326-328): primary active at z 25 with slide 0; the secondary as the page declares it. */
  function InitialText(): (t: TextPair)
    ensures Current(t) == Primary && Box(t, Primary) == TextBox(true, 25, Some(0))
    ensures !Box(t, Secondary).active
  {
    TextPair(TextBox(true, 25, Some(0)), TextBox(false, 0, None), true)
  }

  /** hideTextContainer (scripts.js:472-476): inactive at z 1; the text it holds stays. */
  function HideText(b: TextBox): (r: TextBox)
    ensures !r.active && r.z == 1 && r.shows == b.shows
  {
    b.(active := false, z := 1)
  }

  /** The text half of cleanupOldElements (scripts.js:417-423) on one container. */
  function SweepText(b: TextBox): TextBox
  {
    if b.active then b else HideText(b)
  }

  function SweepTexts(t: TextPair): TextPair
  {
    t.(primary := SweepText(t.primary), secondary := SweepText(t.secondary))
  }

  /** hideTextContainer on one of the two containers. */
  function HideSlot(t: TextPair, s: TextSlot): TextPair
  {
    WithBox(t, s, HideText(Box(t, s)))
  }

  /** setupTextTransition (scripts.js:441-442): the current container moves to the old-text layer; nothing else changes. */
  function LowerCurrent(t: TextPair, oldTextZ: int): (r: TextPair)
    ensures Current(r) == Current(t)
    ensures Box(r, Current(t)) == Box(t, Current(t)).(z := oldTextZ)
    ensures Box(r, Other(Current(t))) == Box(t, Other(Current(t)))
  {
    WithBox(t, Current(t), Box(t, Current(t)).(z := oldTextZ))
  }

  /**
   * The first half of switchText (scripts.js:445-452): it flips which
   * container is current, and shows the target slide's text, active, at
   * the new-text layer in that container; the old container is untouched
   * until it is hidden.
   */
  function ShowNext(t: TextPair, target: nat, newTextZ: int): (r: TextPair)
    ensures Current(r) == Other(Current(t))
    ensures Box(r, Current(r)) == TextBox(true, newTextZ, Some(target))
    ensures Box(r, Current(t)) == Box(t, Current(t))
  {
    var flipped := t.(usePrimary := !t.usePrimary);
    WithBox(flipped, Current(flipped), TextBox(true, newTextZ, Some(target)))
  }

  /**
   * switchText() without a delay (scripts.js:457): the old container is
   * hidden at once, so exactly one container is active, the current one,
   * showing the target; the other sits inactive at z 1 with the text it
   * showed before.
   */
  function SwitchNow(t: TextPair, target: nat, newTextZ: int): (r: TextPair)
    ensures Current(r) == Other(Current(t))
    ensures Box(r, Current(r)) == TextBox(true, newTextZ, Some(target))
    ensures !Box(r, Other(Current(r))).active && Box(r, Other(Current(r))).z == 1
    ensures Box(r, Other(Current(r))).shows == Box(t, Current(t)).shows
  {
    HideSlot(ShowNext(t, target, newTextZ), Current(t))
  }

  /**
   * cleanupOldElements leaves an active container as it is and puts an
   * inactive one at z 1; doing it twice is doing it once.
   */
  lemma SweepSparesActive(t: TextPair)
    ensures var r := SweepTexts(t);
      && (forall s :: Box(t, s).active ==> Box(r, s) == Box(t, s))
      && (forall s :: !Box(t, s).active ==> !Box(r, s).active && Box(r, s).z == 1 && Box(r, s).shows == Box(t, s).shows)
      && SweepTexts(r) == r && Current(r) == Current(t)
  {
    forall s ensures Box(SweepTexts(t), s) == SweepText(Box(t, s)) {}
  }

  /**
   * The delayed hide is never cancelled. Starting with one active
   * container, a growth's deferred switchText (hide of the old container
   * still pending), then a switch without delay before that hide fires,
   * then the stale hide: both containers end inactive, so no slide text
   * is shown.
   */
  lemma StaleHideBlanksText(t: TextPair, a: nat, b: nat, z1: int, z2: int)
    requires Box(t, Current(t)).active
    ensures var pendingSlot := Current(t);
      var afterGrow := ShowNext(t, a, z1);
      var afterSecond := SwitchNow(afterGrow, b, z2);
      var afterStale := HideSlot(afterSecond, pendingSlot);
      && Box(afterSecond, Current(afterSecond)).active
      && !Box(afterStale, Primary).active && !Box(afterStale, Secondary).active
  {
  }
}
