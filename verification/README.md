# Slide carousel controller, modelled in Dafny

`SlideCarousel` (scripts.js) drives a full-screen slide carousel. One slide is
shown full size (the *active* slide). The next few slides wait as a row of
thumbnails in the lower right. All other slides are hidden. The controller
keeps a ring of slide indices (`sequenceArray`) whose front is the active
slide:

- **Navigation.** `nextSlide` and `previousSlide` rotate the ring and call
  `displaySlide`. A thumbnail click calls `navigateToSlide`, which also
  rotates the ring until the target is in front.
- **Layers.** Every display draws three stacked z-index layers from a cycle
  counter: old text, growing image, new text. Every
  `Z_INDEX_CYCLE_LENGTH` displays, the counter also sweeps stale slides and
  text containers back down.
- **Slide updates.** Each slide is then given its role. A former thumbnail
  that becomes active grows in place. Thumbnails move to, or slide in to,
  their slot positions. Other slides are parked off-screen and made
  transparent.
- **Text.** Two text containers take turns showing the active slide's text.
  After a growth, the switch to the other container happens in a delayed
  callback, and so does the hiding of the old container.
- **Auto-play.** An interval timer calls `nextSlide`. It is started,
  restarted and stopped through `startAutoPlayTimer`, `stopAutoPlayTimer`
  and `toggleAutoPlay`.
- **Layout and input.** A responsive layout picks the thumbnail geometry
  from the viewport width. Arrow keys, space and horizontal swipes are the
  input.

The model has these modules:

- `Config`: the configuration knobs, with the values config.js ships.
- `SequenceRing`: the ring and its rotations.
- `Roles`: which slide is active, a thumbnail in which slot, or hidden.
- `Layout`: `calculateLayout`.
- `ZBand`: the z-index band and the cleanup period.
- `TextSlots`: the two text containers.
- `Posters`: the state of one slide element, kept as explicit fields in
  place of the class list and style strings the source writes and reads
  back, and the per-slide steps.
- `Input`: the key map and the swipe rule.
- `Carousel`: the controller as a class, `Carousel.SlideCarousel`, whose
  methods update its fields in place.

Each class method is specified by a pure step function over a `Stage`, a
snapshot of the fields a navigation changes (`DisplayStep`, `NextStep`,
`PreviousStep`, `FireTimer`). Lemmas about those functions state what a
step achieves.

Browser timing is replaced by two explicit parts:

- **Timeout callbacks.** A `setTimeout` callback becomes an entry in the
  `pending` queue. `RunPending(i)` lets any pending callback fire next.
- **The interval.** It is a set of live interval handles. `IntervalTick`
  may only run for a live handle.

The class runs the code as written, including the two defects listed
under "## Findings": `PosterAfter` uses `HandleActivePosterAsWritten`, and
`RefreshThumbnailPositions` ranks thumbnails in document order. The
corrected definitions are kept beside them, with their own lemmas.

Where the documented behaviour and the code differ, the model follows the
code:

- **Out-of-range target.** `displaySlide` with an index that has no slide
  data throws on its first line (scripts.js:384), before any state changes.
  It is not a silent no-op. `DisplaySlide` returns `ok == false` and leaves
  the state unchanged.
- **Growing image.** With the shipped settings, the growing image stays at
  z-index 40 or below (`ZBand.ShippedBandBelowThumbnails`). That is below
  every thumbnail (50 + slot), so it never passes over them.
- **Slide sweep.** The slide half of `cleanupOldElements` never finds a
  slide to lower on a reachable state (`Carousel.SlideSweepNeverFires`).
  Every slide without a class is at z-index 1, except slide 0 at 10 before
  the first display.

## Model

| member | source | states |
|---|---|---|
| Config.InitiallyAutoActive | scripts.js:23 | auto-play starts enabled unless AUTO_PLAY_ENABLED is explicitly false |
| Config.OrDefault | scripts.js:89-103 | `setting \|\| fallback` gives the setting when it is set and non-zero, and the fallback otherwise |
| SequenceRing.Iota | scripts.js:22 | the first ring has n entries and holds index i at position i |
| SequenceRing.IndexOf | scripts.js:487 | `indexOf` finds a position holding the value, and no earlier position holds it |
| SequenceRing.IotaIsRotation | scripts.js:143 | the first ring is the rotation of 0..n-1 starting at 0 |
| SequenceRing.RotationIsPermutation | scripts.js:22 | every rotation of 0..n-1 is a permutation of the slide indices and contains each of them |
| SequenceRing.IndexOfRotation | scripts.js:434-438 | the ring position of a slide in a rotation is its arithmetic distance from the front |
| SequenceRing.RotateLeftRotation | scripts.js:717-720 | `push(shift())` on a rotation gives the rotation that starts at the successor of the front |
| SequenceRing.RotateRightRotation | scripts.js:722-725 | `unshift(pop())` on a rotation gives the rotation that starts at the predecessor of the front |
| SequenceRing.RotateByRotation | scripts.js:434-438 | rotating a rotation k places gives the rotation that starts at its k-th entry |
| SequenceRing.RotateLeftStep | scripts.js:435-436 | one more `push(shift())` after k of them equals k+1 of them, and brings entry k to the front |
| SequenceRing.RotateInverse | scripts.js:717-725 | the next rotation and the previous rotation undo each other, in both orders |
| SequenceRing.RotationsKeepPermutation | scripts.js:717-725 | both rotations keep any permutation of 0..n-1 a permutation |
| SequenceRing.IndexOfDistinct | scripts.js:486-487 | in a ring without repeats, `indexOf` of the entry at position p is p |
| Roles.StripLength | scripts.js:488 | the thumbnail count is below n and bounded by MAX_VISIBLE_THUMBS and by maxThumbs |
| Roles.RoleAt | scripts.js:484-495 | a slide is active iff it is the ring's front; a thumbnail in slot s sits at ring position s+1, with s below MAX_VISIBLE_THUMBS and maxThumbs |
| Roles.RolesFollowPositions | scripts.js:481-495 | the slide at ring position p has the role of position p (front active, slot p-1 or hidden) |
| Roles.ThumbnailStrip | scripts.js:481-495 | exactly one slide is active (the front); the thumbnails are exactly positions 1..StripLength, in slot p-1; all others are hidden |
| Roles.RolesAreExclusive | scripts.js:481-495 | two different slides never share the active role or a thumbnail slot |
| Roles.FourSlidesTwoThumbs | scripts.js:579-582 | with 4 slides and 2 thumbnails allowed, slides 1 and 2 take slots 0 and 1 and slide 3 is hidden |
| Layout.CalculateLayout | scripts.js:81-129 | the thumbnail-area origin is never closer to the left or top edge than MIN_AREA_OFFSET |
| Layout.LayoutBreakpoints | scripts.js:89-124 | mobile iff vw <= MOBILE_MAX, tablet iff MOBILE_MAX < vw <= TABLET_MAX, desktop otherwise; each breakpoint's sizes and count; entryX = vw + 200; textOffsetY = thumbHeight - 100 |
| Layout.ThumbAreaClamped | scripts.js:106-116 | the area origin is clamped to MIN_AREA_OFFSET, is the configured inset on desktop, and lies within 50/200px (mobile) or 200/300px (tablet) of the edges |
| Layout.ZeroMeansDefault | scripts.js:89-103 | a setting of 0 gives the same layout as a missing setting |
| Layout.NarrowViewportIsMobile | config.js:146-163 | with the shipped breakpoints, a 500px viewport is mobile, with 3 thumbnails of width 120 |
| ZBand.CyclePos | scripts.js:400 | the cycle position is below the magnitude of the cycle length |
| ZBand.Band | scripts.js:399-407 | the three layers are consecutive, old text lowest, and never below Z_INDEX_BASE when the spacing is not negative |
| ZBand.CleanupDue | scripts.js:409-411 | cleanup can only be due when the cycle length has magnitude above 1 |
| ZBand.BandOrderedAndBounded | scripts.js:398-407 | old text < growing image < new text, all within Z_INDEX_BASE and Z_INDEX_BASE + (length - 1) * spacing + 2 |
| ZBand.BandPeriodic | scripts.js:400-411 | the band and the cleanup decision repeat with period abs(Z_INDEX_CYCLE_LENGTH) |
| ZBand.ShippedBandBelowThumbnails | config.js:100-102 | with the shipped values every layer is in 10..40, below the thumbnails' 50 |
| TextSlots.InitialText | scripts.js:326-328 | the primary container starts current and active at z 25 with slide 0; the secondary is inactive |
| TextSlots.HideText | scripts.js:472-476 | a hidden container is inactive at z 1 and keeps its text |
| TextSlots.LowerCurrent | scripts.js:441-442 | the current container moves to the old-text layer; which container is current, and the other container, do not change |
| TextSlots.ShowNext | scripts.js:445-452 | switchText flips the current container and shows the target, active, at the new-text layer there; the old container is untouched |
| TextSlots.SwitchNow | scripts.js:444-457 | switching without delay leaves exactly the current container active, showing the target; the other is inactive at z 1 and keeps its old text |
| TextSlots.SweepSparesActive | scripts.js:417-423 | cleanup keeps an active container as it is, puts an inactive one at z 1, and is idempotent |
| TextSlots.StaleHideBlanksText | scripts.js:454-455 | a delayed hide that fires after a second, immediate switch leaves no container active |
| Input.SwipeCommand | scripts.js:276-291 | a swipe navigates iff abs(dx) > abs(dy) and abs(dx) > 50; right means previous, left means next; it never toggles play |
| Input.SwipeMirror | scripts.js:283-290 | mirroring a swipe horizontally swaps previous and next; mirroring it vertically changes nothing |
| Input.KeyCommand | scripts.js:304-315 | exactly ArrowLeft, ArrowRight and Space have actions: previous, next and toggle play |
| Posters.HasExistingPosition | scripts.js:594-597 | a slide has a usable position iff its transform is a translate with neither coordinate at -1000px, or the settling transform of a growth |
| Posters.HideElement | scripts.js:656-669 | a hidden slide is transparent at z 1 with no usable position, and keeps its classes and width |
| Posters.SetAsMainSlideAsWritten | scripts.js:552-565 | the slide becomes visible and full size at the given layer, and keeps its transform |
| Posters.AnimateFromThumbnailAsWritten | scripts.js:517-550 | the slide becomes full size at the growing layer and grows from a position it has; its opacity is not touched |
| Posters.HandleActivePosterAsWritten | scripts.js:499-515 | the slide gets the active class, full size at the growing layer; it is visible iff it was visible or had no thumbnail width; a thumbnail grows, any other slide keeps its transform |
| Posters.SetAsMainSlide | scripts.js:552-565 | (corrected) the slide becomes visible and full size at the given layer, at the origin |
| Posters.AnimateFromThumbnail | scripts.js:517-550 | (corrected) the slide becomes visible and full size at the growing layer and grows from a position it has |
| Posters.HandleActivePoster | scripts.js:499-515 | (corrected) the active slide is visible, full size, at the growing layer; it grows from a thumbnail or is placed at the origin |
| Posters.FinishGrow | scripts.js:545-549 | the growth's completion clears the slide's position and keeps its class, layer, opacity and width |
| Posters.HandleThumbnailPoster | scripts.js:567-592 | the slide gets the thumbnail class; in a slot below maxThumbs it is visible, thumbnail-sized, at the slot's x, z and delay, and animates from where it is iff it still carried the active class or has a position; otherwise it is hidden |
| Posters.PosterAfter | scripts.js:481-495 | one slide's classes after the update follow its place on the ring, it is active iff it is the front, and a slide left without a class is hidden at z 1 |
| Posters.InitialPoster | scripts.js:199-208 | slides start without classes; slide 0 visible and full size at z 10, every other slide parked off-screen and transparent at z 1 |
| Posters.SweepPoster | scripts.js:425-431 | cleanup only lowers, to 1, the z-index of a slide with neither class above 40; nothing else changes |
| Posters.CountThumbMarked | scripts.js:696 | the number of thumbnail-class slides is at most the number of slides |
| Posters.RefreshPoster | scripts.js:699-713 | a thumbnail of rank below maxThumbs is visible, thumbnail-sized, at that rank's slot position, keeping its layer; any other is hidden; classes stay |
| Posters.RefreshedAsWritten | scripts.js:695-715 | the refresh keeps every slide's classes and leaves a slide without the thumbnail class as it is |
| Posters.Refreshed | scripts.js:695-715 | (corrected) the slot-ranked refresh keeps every slide's classes and leaves a slide without the thumbnail class as it is |
| Posters.RefreshAllAsWritten | scripts.js:695-715 | the refresh keeps the slide count and refreshes each slide by its document-order rank |
| Posters.SweepAll | scripts.js:425-431 | cleanup keeps the slide count and treats each slide on its own |
| Posters.UpdateAll | scripts.js:478-497 | updatePosterStates keeps the slide count and updates each slide, in document order, from its own index and the ring |
| Posters.RefreshAll | scripts.js:695-715 | the (corrected) refresh keeps the slide count and refreshes each slide on its own |
| Posters.UpdateAllMarkers | scripts.js:481-495 | after updatePosterStates every slide carries the classes its place on the ring gives it, and only the ring's front is active |
| Posters.PosterFollowsRole | scripts.js:481-497 | the active slide is full size at the growing layer, visible iff it was visible or had no thumbnail width, growing from a thumbnail or keeping its transform; the slot-s thumbnail is visible at thumbAreaX + s*(width+spacing), z 50+s, delay s*stagger; a hidden slide is transparent at z 1 with no position |
| Posters.ThumbnailEntry | scripts.js:567-589 | a new thumbnail animates from where it is iff it has a position, otherwise slides in from entryX; its previous class makes no difference (`wasActive` is always false) |
| Posters.HiddenReentersFromRight | scripts.js:594-597 | a slide parked at -1000px that becomes a thumbnail always slides in from entryX |
| Posters.HiddenSlideReactivatedAsWritten | scripts.js:499-565 | as written, a parked slide made active either grows while still transparent or is shown full size still off-screen |
| Posters.PreviousSlideShowsParkedSlidesAsWritten | scripts.js:722-725 | with 7 slides and 4 thumbnails, one previousSlide makes slide 6 active but off-screen; slide 4, a thumbnail pushed to slot 4, is made active transparent by the third previousSlide |
| Posters.HiddenThumbnailKeepsClass | scripts.js:567-582 | a slide in a slot that maxThumbs cuts off is hidden but keeps the thumbnail class |
| Posters.SlotsIncrease | scripts.js:571-576 | x, z and delay all strictly increase with the slot; slot 0 sits at the area origin |
| Posters.RankMonotone | scripts.js:696-697 | the document-order rank never goes down, and a thumbnail's rank is below that of every later slide |
| Posters.RanksCover | scripts.js:696-697 | every rank below the thumbnail count belongs to some thumbnail-class slide |
| Posters.RefreshAsWrittenRanksByDocumentOrder | scripts.js:695-715 | the refresh leaves slides without the class alone; thumbnails get distinct ranks, in document order, below their count; a rank of maxThumbs or more is hidden |
| Posters.RefreshAsWrittenFillsSlot | scripts.js:697-704 | every slot below both the thumbnail count and maxThumbs is filled, visible, by the thumbnail of that document-order rank |
| Posters.SlideSweepIdle | scripts.js:199-208 | the slides as created and after updatePosterStates have no slide without a class above z 10, and on such slides the sweep changes nothing |
| Posters.ResizeUsesDomOrder | scripts.js:695-715 | as written, with 3 slides after one nextSlide, a refresh at the same layout swaps the two thumbnails; the corrected refresh moves nothing |
| Posters.RefreshAfterUpdateMovesNothing | scripts.js:695-715 | (corrected) a refresh at the layout the update used leaves every slide as it is |
| Posters.RefreshPlacesBySlot | scripts.js:699-713 | (corrected) a refresh puts the slot-s thumbnail at the new layout's slot position, or hides it when s >= maxThumbs |
| Carousel.Advance | scripts.js:398-414 | the counter rises by 1, the ring, active index and queue stay, and slides none of which sits above z 10 without a class are not changed |
| Carousel.Activate | scripts.js:388-395 | the ring becomes the rotation starting at the target, which is active; nothing pending is lost; no slide without a class stays above z 1 |
| Carousel.DisplayStep | scripts.js:383-396 | displaySlide leaves the target in front and active, with the counter one higher |
| Carousel.NextStep | scripts.js:717-720 | nextSlide leaves the ring starting at the successor of the front, which is active |
| Carousel.PreviousStep | scripts.js:722-725 | previousSlide leaves the ring starting at the predecessor of the front, which is active |
| Carousel.FireTimer | scripts.js:541-549 | a callback other than a delayed displaySlide keeps the ring, the active index and the counter |
| Carousel.DisplayStepOutcome | scripts.js:383-396 | after displaySlide the ring is the rotation starting at the target, which is active; the counter rose by 1; nothing pending is lost |
| Carousel.DisplayStepPosters | scripts.js:386-395 | after displaySlide the classes follow the ring and only the target is active, full size at the growing layer; it is visible iff it was visible or had no thumbnail width; it grows from a thumbnail or keeps its transform |
| Carousel.DisplayStepText | scripts.js:440-459 | after displaySlide: for a non-growing target the current container shows it at the new-text layer, and only that one is active; for a growing target the current container sinks to the old-text layer, and a text switch and the growth's completion are pending |
| Carousel.FireSwitchShowsTarget | scripts.js:541-543 | the delayed switch flips the container, shows its target there, and schedules the old container's hide |
| Carousel.FireTimerKeepsStage | scripts.js:537-549 | every callback keeps the stage well-formed; only a delayed displaySlide moves the ring, the active index or the counter |
| Carousel.NextThenPrevious | scripts.js:717-725 | nextSlide activates the successor of the front, and previousSlide afterwards restores the ring and the active slide |
| Carousel.SlideSweepNeverFires | scripts.js:409-431 | no slide without a class sits above z 10 at the start, after any display or after any callback, so the slide sweep changes nothing |
| Carousel.SlideCarousel.constructor | scripts.js:18-33 | initial ring 0..n-1, slide 0 active, layout computed, text on slide 0, the two delayed displaySlide(0) calls and the auto-play start pending, no interval |
| Carousel.SlideCarousel.RotateSequenceToFront | scripts.js:434-438 | the loop ends, with the target in front and the ring the rotation starting at it |
| Carousel.SlideCarousel.CleanupOldElements | scripts.js:416-432 | every slide and both text containers are swept |
| Carousel.SlideCarousel.CalculateZIndices | scripts.js:398-414 | the counter moves on, the sweep runs when it is due, and the returned band is the counter's band |
| Carousel.SlideCarousel.UpdatePosterStates | scripts.js:478-497 | every slide is updated, in document order, for its place on the ring, with the active slide handled as written |
| Carousel.SlideCarousel.SwitchText | scripts.js:444-459 | the text switch, with the old container hidden at once or by a pending callback |
| Carousel.SlideCarousel.DisplaySlide | scripts.js:383-396 | an existing target is displayed (the step above), becomes the active index and the ring's front, and the invariants hold; a missing target changes nothing |
| Carousel.SlideCarousel.DisplayExistingSlide | scripts.js:386-395 | the in-place updates together make exactly the display step |
| Carousel.SlideCarousel.ActivateText | scripts.js:503-508 | a growing slide schedules the switch and the completion; any other slide switches the text at once |
| Carousel.SlideCarousel.NextSlide | scripts.js:717-720 | nextSlide is the next step, keeps the invariants, and leaves the ring starting at the successor |
| Carousel.SlideCarousel.PreviousSlide | scripts.js:722-725 | previousSlide is the previous step, keeps the invariants, and leaves the ring starting at the predecessor |
| Carousel.SlideCarousel.StopAutoPlayTimer | scripts.js:750-756 | afterwards there is no timer handle and no live interval |
| Carousel.SlideCarousel.StartAutoPlayTimer | scripts.js:733-748 | the old interval is cleared; one fresh interval is live iff auto-play is on, otherwise none |
| Carousel.SlideCarousel.ToggleAutoPlay | scripts.js:804-822 | the flag always flips; the timer restarts or stops only when the play button exists; at most one interval stays live |
| Carousel.SlideCarousel.NavigateToSlide | scripts.js:727-731 | the active slide or a missing one changes nothing; another slide is displayed, and the timer restarts iff auto-play is on |
| Carousel.SlideCarousel.IntervalTick | scripts.js:743-747 | a live interval's tick is a nextSlide |
| Carousel.SlideCarousel.HandleKeyPress | scripts.js:304-315 | the default is prevented iff the key is bound; the arrows navigate; Space flips auto-play and, with the play button, restarts or stops the timer, and without it leaves the timer alone; every other key changes nothing |
| Carousel.SlideCarousel.HandleSwipe | scripts.js:270-294 | a qualifying swipe prevents the default and navigates in its direction; any other touch changes nothing |
| Carousel.SlideCarousel.RefreshThumbnailPositions | scripts.js:695-715 | every slide is refreshed as written: the k-th slide by the number of thumbnail-class slides before it in document order |
| Carousel.SlideCarousel.Resize | scripts.js:233-249 | the layout is recomputed for the new viewport, and the thumbnails are refreshed against it in document order |
| Carousel.SlideCarousel.RunPending | scripts.js:537-549 | a pending callback fires as the callback step says, the invariants hold, and only init's delayed start touches the interval |
| Carousel.SlideCarousel.FireCallback | scripts.js:541-549 | the in-place effect of one callback on the slides, the text and the queue is exactly the callback step |

## Left out

- DOM plumbing is not modelled. This covers element lookup and creation, `innerHTML`, the background images, and the poster-content overlays. The model keeps per-slide and per-container fields instead.
- The order in which timeout callbacks fire is not modelled. Any pending callback may fire next. Real delays, transitions, easing and forced reflows are not modelled either.
- `setInterval` and `clearInterval` are modelled only as a set of live handles. Real timing is not modelled.
- The grow animation's starting transform is not modelled. It is a scale computed from `parseFloat` of style strings and `window.innerWidth`, and the model only records that the slide is settling towards the origin.
- `STAGGER_DELAY` is given in seconds in the source. The model uses integer milliseconds for it, so the shipped 0.1 becomes 100.
- `updateTextContent` writes four strings. The model records only which slide's text a container shows.
- The secondary text container's initial state is not modelled. It comes from the page markup, and the model assumes it starts inactive.
- Presentation-only code is not modelled: the progress bar, the slide counter and its animations, control positioning, icons, aria labels and console logging.
- Event wiring is not modelled: listener binding, the resize debounce and the `isTouch` guard. Only the key and swipe decisions, and the effect of a resize, are modelled.
- `KEYBOARD_ENABLED` is kept only as the field `keyboardEnabled` of `Config.CarouselConfig`, which no member reads: the controller never reads it, and the key handler is always bound.
- Carousels with no slides (n = 0) are not modelled. So is a failed initialisation, where the carousel element is missing or an exception is caught in `init`. The constructor requires at least one slide.
- The nav-button clicks call `nextSlide` and `previousSlide` directly. The model covers them through `NextSlide` and `PreviousSlide`.
- The setters and presets in config.js are not modelled. Only its values are, as `Config.ShippedConfig` and `Config.ShippedResponsive`.
- Config.ValidConfig: a `Z_INDEX_CYCLE_LENGTH` of 0 is excluded. The source accepts it, but then every z-index is NaN and cleanup never runs; Dafny's integers have no NaN.
- Missing CAROUSEL_CONFIG keys are not modelled. Every key other than MIN_AREA_OFFSET and AUTO_PLAY_ENABLED is taken to be present and numeric. In the source a missing MAX_VISIBLE_THUMBS hides every non-active slide (`thumbPos < undefined` is false), and a missing AUTO_PLAY_INTERVAL gives `setInterval(fn, undefined)`.
- Swipe distances are integers in the model. `Touch.screenX` is fractional in the browser, so a swipe of, say, 50.5 pixels is not representable.
- Carousel.SlideCarousel.RotateSequenceToFront: the ensures does not state the source's bound of fewer than n rotations. The loop's `decreases` clause carries that bound (the target's index in the ring, which is below n).

## Findings

| source | as written | input that shows it | evidently intended | confidence | as-written member | corrected member |
|---|---|---|---|---|---|---|
| scripts.js:499-565 | `handleActivePoster` does not undo what `hideElement` did. `setAsMainSlide` leaves the `translate(-1000px, -1000px)` transform in place, and `animateFromThumbnail` leaves opacity at 0 | the 7 shipped slides and MAX_VISIBLE_THUMBS 4, on a layout with room for four thumbnails. One previousSlide from the start makes slide 6 active, but it stays translated off-screen. Slide 4, the slot-3 thumbnail, is pushed to slot 4 by that call and made active by the third previousSlide, and then grows while transparent | the active slide is always visible at the origin, or grows towards it | medium, not executed | Posters.HiddenSlideReactivatedAsWritten | Posters.HandleActivePoster |
| scripts.js:695-715 | `refreshThumbnailPositions` ranks thumbnails by document order | 3 slides, one nextSlide (ring [1, 2, 0]), then a resize that keeps the layout: slides 2 and 0 swap places | each thumbnail stays in its ring slot, as `updatePosterStates` placed it | medium, not executed | Posters.ResizeUsesDomOrder | Posters.RefreshAfterUpdateMovesNothing |
