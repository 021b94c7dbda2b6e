/**
 * The state of one slide element, kept as explicit fields instead of the
 * class list and style strings the source writes and later reads back,
 * and the per-slide steps of the choreography.
 */
module Posters {
  import opened Config
  import opened SequenceRing
  import opened Roles
  import opened Layout

  /** Which of the classes 'active' and 'thumbnail' the element carries (the code never leaves both on). */
  datatype Marker = Plain | ActiveMark | ThumbMark

  /** style.width: never set, '100%', or the thumbnail width in px. */
  datatype Width = WidthUnset | FullWidth | ThumbWidth(px: int)

  /** style.transform: '', `translate(xpx, ypx)`, or the `translate(0, 0) scale(1)` a growing slide animates to. */
  datatype Transform = NoTransform | Translate(x: real, y: real) | Settling

  /** The transform animation the last write started, with its transition delay. */
  datatype Motion = Placed | ToSlot(delayMs: int) | SlideIn(fromX: real, delayMs: int) | Grow

  datatype Poster = Poster(marker: Marker, width: Width, transform: Transform, visible: bool, z: int, motion: Motion)

  /** `translate(-1000px, -1000px)`, where hidden slides are parked. */
  const Offscreen := Translate(-1000.0, -1000.0)

  /**
   * hasExistingPosition (scripts.js:594-597): the transform mentions
   * `translate` and not `-1000px`; a coordinate prints as `-1000px`
   * exactly when it equals -1000. A parked slide has no position.
   */
  predicate HasExistingPosition(p: Poster)
    ensures HasExistingPosition(p) ==> p.transform != NoTransform && p.transform != Offscreen
    ensures p.transform == Settling ==> HasExistingPosition(p)
    ensures p.transform.Translate? && p.transform.x != -1000.0 && p.transform.y != -1000.0 ==> HasExistingPosition(p)
  {
    match p.transform
    case NoTransform => false
    case Translate(x, y) => x != -1000.0 && y != -1000.0
    case Settling => true
  }

  /** hideElement (scripts.js:656-668): transparent, at z 1, parked off-screen with no position; classes and width stay. */
  function HideElement(p: Poster): (q: Poster)
    ensures !q.visible && q.z == 1 && !HasExistingPosition(q) && q.motion == Placed
    ensures q.marker == p.marker && q.width == p.width
  {
    p.(visible := false, z := 1, transform := Offscreen, motion := Placed)
  }

  /** setAsMainSlide (scripts.js:552-565) as written: full size and visible at layer z; the transform is not touched. */
  function SetAsMainSlideAsWritten(p: Poster, z: int): (q: Poster)
    ensures q.visible && q.width == FullWidth && q.z == z && q.motion == Placed
    ensures q.transform == p.transform && q.marker == p.marker
  {
    p.(width := FullWidth, visible := true, z := z, motion := Placed)
  }

  /**
   * animateFromThumbnail (scripts.js:517-540) as written, its synchronous
   * part: full size at the growing-image layer, animating towards
   * `translate(0, 0) scale(1)`; the opacity is not touched.
   */
  function AnimateFromThumbnailAsWritten(p: Poster, z: int): (q: Poster)
    ensures q.width == FullWidth && q.z == z && q.motion == Grow && HasExistingPosition(q)
    ensures q.visible == p.visible && q.marker == p.marker
  {
    p.(width := FullWidth, z := z, transform := Settling, motion := Grow)
  }

  /**
   * handleActivePoster (scripts.js:499-509), the handler the carousel
   * runs: the slide gets the active class, full size, at the growing-image
   * layer. A slide with a thumbnail width grows towards the origin and
   * keeps its opacity; any other slide is made visible where its transform
   * leaves it.
   */
  function HandleActivePosterAsWritten(p: Poster, z: int): (q: Poster)
    ensures q.marker == ActiveMark && q.width == FullWidth && q.z == z
    ensures q.visible <==> p.visible || !p.width.ThumbWidth?
    ensures p.width.ThumbWidth? ==> q.transform == Settling && q.motion == Grow
    ensures !p.width.ThumbWidth? ==> q.transform == p.transform && q.motion == Placed
  {
    var q := p.(marker := ActiveMark);
    if p.width.ThumbWidth? then AnimateFromThumbnailAsWritten(q, z) else SetAsMainSlideAsWritten(q, z)
  }

  /** setAsMainSlide, corrected: it also clears the transform a hidden slide was parked with. */
  function SetAsMainSlide(p: Poster, z: int): (q: Poster)
    ensures q.visible && q.width == FullWidth && q.z == z && q.transform == NoTransform && q.marker == p.marker
  {
    SetAsMainSlideAsWritten(p, z).(transform := NoTransform)
  }

  /** animateFromThumbnail, corrected: it also makes a slide that was hidden visible. */
  function AnimateFromThumbnail(p: Poster, z: int): (q: Poster)
    ensures q.visible && q.width == FullWidth && q.z == z && q.motion == Grow && HasExistingPosition(q)
    ensures q.marker == p.marker
  {
    AnimateFromThumbnailAsWritten(p, z).(visible := true)
  }

  /**
   * The growth's completion callback (scripts.js:545-549): no transition,
   * transform cleared, so whatever the slide has become meanwhile (a
   * thumbnail included) loses its position; class, layer, size and opacity
   * stay.
   */
  function FinishGrow(p: Poster): (q: Poster)
    ensures !HasExistingPosition(q) && q.motion == Placed
    ensures q.marker == p.marker && q.z == p.z && q.visible == p.visible && q.width == p.width
  {
    p.(transform := NoTransform, motion := Placed)
  }

  /**
   * handleActivePoster with the two corrections above: the active slide is
   * always visible, full size, at the growing-image layer; a former
   * thumbnail grows towards the origin, any other slide is placed at it.
   */
  function HandleActivePoster(p: Poster, z: int): (q: Poster)
    ensures q.marker == ActiveMark && q.visible && q.width == FullWidth && q.z == z
    ensures p.width.ThumbWidth? ==> q.transform == Settling && q.motion == Grow
    ensures !p.width.ThumbWidth? ==> q.transform == NoTransform && q.motion == Placed
  {
    var q := p.(marker := ActiveMark);
    if p.width.ThumbWidth? then AnimateFromThumbnail(q, z) else SetAsMainSlide(q, z)
  }

  /** finalX of a slot (scripts.js:571). */
  function ThumbX(g: Geometry, cfg: CarouselConfig, slot: nat): real
  {
    g.thumbAreaX + slot as real * (g.thumbWidth + cfg.thumbSpacing) as real
  }

  /** The z-index of a slot (scripts.js:576). */
  function ThumbZ(slot: nat): int
  {
    50 + slot
  }

  /** The transition delay of a slot (scripts.js:575), in milliseconds. */
  function StaggerDelay(cfg: CarouselConfig, slot: nat): int
  {
    slot * cfg.staggerDelayMs
  }

  /** The transition delay of a motion, 0 when none. */
  function MotionDelay(m: Motion): int
  {
    match m
    case ToSlot(d) => d
    case SlideIn(_, d) => d
    case _ => 0
  }

  /** animateToThumbnail (scripts.js:599-609): from wherever it is to the slot. */
  function AnimateToThumbnail(p: Poster, x: real, delay: int, z: int, g: Geometry): Poster
  {
    p.(transform := Translate(x, g.thumbAreaY), width := ThumbWidth(g.thumbWidth), z := z, visible := true,
       motion := ToSlot(delay))
  }

  /** slideInThumbnail (scripts.js:611-629): put at entryX without a transition, then animated to the slot. */
  function SlideInThumbnail(p: Poster, x: real, delay: int, z: int, g: Geometry): Poster
  {
    p.(transform := Translate(x, g.thumbAreaY), width := ThumbWidth(g.thumbWidth), z := z, visible := true,
       motion := SlideIn(g.entryX as real, delay))
  }

  /**
   * handleThumbnailPoster (scripts.js:567-589). The thumbnail class is
   * added before the maxThumbs check. A slide that was active or has a
   * usable position animates to its slot; any other slides in. (Adding
   * the thumbnail class does not remove 'active'; updatePosterStates has
   * removed it already, which PosterAfter models.)
   */
  function HandleThumbnailPoster(p: Poster, slot: nat, g: Geometry, cfg: CarouselConfig): (q: Poster)
    ensures q.marker == ThumbMark
    ensures slot < g.maxThumbs ==>
      && q.visible && q.width == ThumbWidth(g.thumbWidth)
      && q.transform == Translate(ThumbX(g, cfg, slot), g.thumbAreaY)
      && q.z == ThumbZ(slot) && MotionDelay(q.motion) == StaggerDelay(cfg, slot)
      && (q.motion == ToSlot(StaggerDelay(cfg, slot)) <==> p.marker == ActiveMark || HasExistingPosition(p))
    ensures g.maxThumbs <= slot ==> !q.visible && q.z == 1 && !HasExistingPosition(q) && q.width == p.width
  {
    var wasActive := p.marker == ActiveMark;
    var q := p.(marker := ThumbMark);
    var x := ThumbX(g, cfg, slot);
    var hasPosition := HasExistingPosition(q);
    var delay := StaggerDelay(cfg, slot);
    var z := ThumbZ(slot);
    if slot >= g.maxThumbs then HideElement(q)
    else if wasActive || hasPosition then AnimateToThumbnail(q, x, delay, z, g)
    else SlideInThumbnail(q, x, delay, z, g)
  }

  /**
   * One iteration of updatePosterStates (scripts.js:481-496) for the slide
   * at DOM index k: it ends with the classes MarkerFor names, so it is
   * active exactly when it is the ring's front, and a slide left with
   * neither class is hidden at z 1.
   */
  function PosterAfter(p: Poster, k: nat, ring: seq<nat>, g: Geometry, cfg: CarouselConfig, growZ: int): (q: Poster)
    requires |ring| > 0
    ensures q.marker == MarkerFor(ring, k, cfg.maxVisibleThumbs)
    ensures q.marker == ActiveMark <==> k == ring[0]
    ensures q.marker == Plain ==> !q.visible && q.z == 1 && !HasExistingPosition(q)
  {
    var cleared := p.(marker := Plain);
    if k == ring[0] then HandleActivePosterAsWritten(cleared, growZ)
    else if k in ring[1..] then
      var slot := IndexOf(ring[1..], k);
      if slot < cfg.maxVisibleThumbs then HandleThumbnailPoster(cleared, slot, g, cfg) else HideElement(cleared)
    else HideElement(cleared)
  }

  /** The classes updatePosterStates leaves on slide k: only MAX_VISIBLE_THUMBS matters, not the layout's maxThumbs. */
  function MarkerFor(ring: seq<nat>, k: nat, maxVisible: int): Marker
    requires |ring| > 0
  {
    if k == ring[0] then ActiveMark
    else if k in ring[1..] && IndexOf(ring[1..], k) < maxVisible then ThumbMark
    else Plain
  }

  /** Every slide carries the classes its place on the ring gives it. */
  predicate MarkersFollowRing(ps: seq<Poster>, ring: seq<nat>, maxVisible: int)
    requires |ring| > 0
  {
    |ps| == |ring| && forall k :: 0 <= k < |ps| ==> ps[k].marker == MarkerFor(ring, k, maxVisible)
  }

  /**
   * createSlideElement (scripts.js:199-208): no classes; slide 0 visible
   * and full size at z 10, every other slide parked by hideElement with no
   * width set.
   */
  function InitialPoster(k: nat): (p: Poster)
    ensures p.marker == Plain && p.z <= 10
    ensures p.visible <==> k == 0
    ensures k == 0 ==> p.width == FullWidth && p.z == 10 && !HasExistingPosition(p)
    ensures k != 0 ==> p.transform == Offscreen && p.width == WidthUnset && p.z == 1
  {
    if k == 0 then Poster(Plain, FullWidth, NoTransform, true, 10, Placed)
    else HideElement(Poster(Plain, WidthUnset, NoTransform, false, 0, Placed))
  }

  /**
   * The slide half of cleanupOldElements (scripts.js:425-431): it only
   * lowers, and only to 1, the z-index of a slide with neither class whose
   * z-index is above 40; nothing else changes.
   */
  function SweepPoster(p: Poster): (q: Poster)
    ensures q.(z := p.z) == p && q.z <= p.z
    ensures q.z != p.z <==> p.marker == Plain && p.z > 40
    ensures q.z != p.z ==> q.z == 1
  {
    if p.marker == Plain && p.z > 40 then p.(z := 1) else p
  }

  /** cleanupOldElements over all slides. */
  function SweepAll(ps: seq<Poster>): (r: seq<Poster>)
    ensures |r| == |ps|
    ensures forall k :: 0 <= k < |ps| ==> r[k] == SweepPoster(ps[k])
  {
    seq(|ps|, k requires 0 <= k < |ps| => SweepPoster(ps[k]))
  }

  /** How many of `ps` carry the thumbnail class: the length of the list `querySelectorAll('.slide-poster.thumbnail')` returns. */
  function CountThumbMarked(ps: seq<Poster>): (c: nat)
    ensures c <= |ps|
  {
    if ps == [] then 0
    else CountThumbMarked(ps[..|ps| - 1]) + (if ps[|ps| - 1].marker == ThumbMark then 1 else 0)
  }

  /**
   * refreshThumbnailPositions (scripts.js:699-713) for the thumbnail at
   * position `rank` of that list: placed at the rank's slot position,
   * visible and thumbnail-sized, when the rank is below maxThumbs, hidden
   * otherwise; it keeps its classes.
   */
  function RefreshPoster(p: Poster, rank: nat, g: Geometry, cfg: CarouselConfig): (q: Poster)
    ensures q.marker == p.marker
    ensures rank < g.maxThumbs ==>
      q.visible && q.width == ThumbWidth(g.thumbWidth) && q.transform == Translate(ThumbX(g, cfg, rank), g.thumbAreaY) && q.z == p.z
    ensures g.maxThumbs <= rank ==> !q.visible && q.z == 1 && !HasExistingPosition(q)
  {
    if rank < g.maxThumbs then
      p.(transform := Translate(ThumbX(g, cfg, rank), g.thumbAreaY), width := ThumbWidth(g.thumbWidth), visible := true)
    else HideElement(p)
  }

  /**
   * Slide k after refreshThumbnailPositions, the refresh the carousel
   * runs: a thumbnail is ranked by how many thumbnails precede it in
   * document order; a slide without the class is left alone.
   */
  function RefreshedAsWritten(ps: seq<Poster>, k: nat, g: Geometry, cfg: CarouselConfig): (q: Poster)
    requires k < |ps|
    ensures q.marker == ps[k].marker
    ensures ps[k].marker != ThumbMark ==> q == ps[k]
  {
    if ps[k].marker == ThumbMark then RefreshPoster(ps[k], CountThumbMarked(ps[..k]), g, cfg) else ps[k]
  }

  /**
   * Slide k after refreshThumbnailPositions, corrected: a thumbnail is
   * ranked by its slot on the ring, as updatePosterStates places it.
   */
  function Refreshed(ps: seq<Poster>, k: nat, ring: seq<nat>, g: Geometry, cfg: CarouselConfig): (q: Poster)
    requires k < |ps| && |ring| > 0
    ensures q.marker == ps[k].marker
    ensures ps[k].marker != ThumbMark ==> q == ps[k]
  {
    if ps[k].marker == ThumbMark && k in ring[1..] then RefreshPoster(ps[k], IndexOf(ring[1..], k), g, cfg) else ps[k]
  }

  /** updatePosterStates (scripts.js:478-497) over all slides, in document order. */
  function UpdateAll(ps: seq<Poster>, ring: seq<nat>, g: Geometry, cfg: CarouselConfig, growZ: int): (r: seq<Poster>)
    requires |ring| > 0
    ensures |r| == |ps|
    ensures forall k :: 0 <= k < |ps| ==> r[k] == PosterAfter(ps[k], k, ring, g, cfg, growZ)
  {
    seq(|ps|, k requires 0 <= k < |ps| => PosterAfter(ps[k], k, ring, g, cfg, growZ))
  }

  /** refreshThumbnailPositions (scripts.js:695-715) over all slides. */
  function RefreshAllAsWritten(ps: seq<Poster>, g: Geometry, cfg: CarouselConfig): (r: seq<Poster>)
    ensures |r| == |ps|
    ensures forall k :: 0 <= k < |ps| ==> r[k] == RefreshedAsWritten(ps, k, g, cfg)
  {
    seq(|ps|, k requires 0 <= k < |ps| => RefreshedAsWritten(ps, k, g, cfg))
  }

  /** refreshThumbnailPositions, corrected, over all slides. */
  function RefreshAll(ps: seq<Poster>, ring: seq<nat>, g: Geometry, cfg: CarouselConfig): (r: seq<Poster>)
    requires |ring| > 0
    ensures |r| == |ps|
    ensures forall k :: 0 <= k < |ps| ==> r[k] == Refreshed(ps, k, ring, g, cfg)
  {
    seq(|ps|, k requires 0 <= k < |ps| => Refreshed(ps, k, ring, g, cfg))
  }

  /**
   * updatePosterStates gives every slide the classes MarkerFor names, so
   * the ring's front, and only it, carries the active class.
   */
  lemma UpdateAllMarkers(ps: seq<Poster>, ring: seq<nat>, g: Geometry, cfg: CarouselConfig, growZ: int)
    requires |ring| == |ps| > 0
    ensures var r := UpdateAll(ps, ring, g, cfg, growZ);
      && MarkersFollowRing(r, ring, cfg.maxVisibleThumbs)
      && forall k :: 0 <= k < |ps| ==> (r[k].marker == ActiveMark <==> k == ring[0])
  {
  }

  /**
   * What updatePosterStates leaves on the slide at ring position pos. The
   * active slide has the active class, full size, at the growing-image
   * layer; a former thumbnail grows and keeps its opacity, any other slide
   * is made visible and keeps its transform. A thumbnail in slot s is
   * visible, thumbnail-sized, at x = thumbAreaX + s * (thumbWidth +
   * THUMB_SPACING), z = 50 + s, delayed s * STAGGER_DELAY. A hidden slide
   * is transparent at z 1 with no usable position and keeps its width.
   * The classes follow MarkerFor.
   */
  lemma PosterFollowsRole(p: Poster, ring: seq<nat>, n: nat, pos: nat, g: Geometry, cfg: CarouselConfig, growZ: int)
    requires IsPermutation(ring, n) && pos < n
    ensures var q := PosterAfter(p, ring[pos], ring, g, cfg, growZ);
      var r := RoleOfPosition(pos, cfg.maxVisibleThumbs, g.maxThumbs);
      && q.marker == MarkerFor(ring, ring[pos], cfg.maxVisibleThumbs)
      && (r == Active ==>
            && q.marker == ActiveMark && q.width == FullWidth && q.z == growZ
            && (q.visible <==> p.visible || !p.width.ThumbWidth?)
            && (p.width.ThumbWidth? ==> q.transform == Settling && q.motion == Grow)
            && (!p.width.ThumbWidth? ==> q.transform == p.transform && q.motion == Placed))
      && (r.Thumbnail? ==>
            && q.marker == ThumbMark && q.visible && q.width == ThumbWidth(g.thumbWidth)
            && q.transform == Translate(ThumbX(g, cfg, r.slot), g.thumbAreaY)
            && q.z == ThumbZ(r.slot) && MotionDelay(q.motion) == StaggerDelay(cfg, r.slot))
      && (r == Hidden ==>
            && !q.visible && q.z == 1 && q.transform == Offscreen && !HasExistingPosition(q)
            && q.motion == Placed && q.width == p.width)
  {
    RolesFollowPositions(ring, n, cfg.maxVisibleThumbs, g.maxThumbs, pos);
    if pos > 0 {
      IndexOfDistinct(ring[1..], pos - 1);
    }
  }

  /**
   * A new thumbnail animates from where it is exactly when it had a
   * position; otherwise it slides in from entryX. The class it carried
   * before makes no difference: updatePosterStates removes 'active'
   * before handleThumbnailPoster reads it as `wasActive`.
   */
  lemma ThumbnailEntry(p: Poster, ring: seq<nat>, n: nat, pos: nat, g: Geometry, cfg: CarouselConfig, growZ: int, m: Marker)
    requires IsPermutation(ring, n) && pos < n
    requires RoleOfPosition(pos, cfg.maxVisibleThumbs, g.maxThumbs).Thumbnail?
    ensures var q := PosterAfter(p, ring[pos], ring, g, cfg, growZ);
      var delay := StaggerDelay(cfg, pos - 1);
      && (q.motion == ToSlot(delay) <==> HasExistingPosition(p))
      && (!HasExistingPosition(p) <==> q.motion == SlideIn(g.entryX as real, delay))
      && q == PosterAfter(p.(marker := m), ring[pos], ring, g, cfg, growZ)
  {
    RolesFollowPositions(ring, n, cfg.maxVisibleThumbs, g.maxThumbs, pos);
    IndexOfDistinct(ring[1..], pos - 1);
  }

  /** A hidden slide (parked at -1000px) that becomes a thumbnail always slides in from the right. */
  lemma HiddenReentersFromRight(p: Poster, ring: seq<nat>, n: nat, pos: nat, g: Geometry, cfg: CarouselConfig, growZ: int)
    requires IsPermutation(ring, n) && pos < n
    requires p.transform == Offscreen
    requires RoleOfPosition(pos, cfg.maxVisibleThumbs, g.maxThumbs).Thumbnail?
    ensures PosterAfter(p, ring[pos], ring, g, cfg, growZ).motion == SlideIn(g.entryX as real, StaggerDelay(cfg, pos - 1))
  {
    ThumbnailEntry(p, ring, n, pos, g, cfg, growZ, p.marker);
  }

  /**
   * As written, a slide that hideElement parked becomes the active slide
   * without being un-parked: with a thumbnail width it grows but stays
   * transparent; with any other width it is shown full size but still
   * translated by (-1000px, -1000px).
   */
  lemma HiddenSlideReactivatedAsWritten(p: Poster, z: int)
    ensures var q := HandleActivePosterAsWritten(HideElement(p), z);
      && (p.width.ThumbWidth? ==> !q.visible && q.motion == Grow)
      && (!p.width.ThumbWidth? ==> q.visible && q.width == FullWidth && q.transform == Offscreen)
  {
  }

  /**
   * Both cases happen with seven slides (as config.js ships) and
   * MAX_VISIBLE_THUMBS 4 on a layout with room for four thumbnails.
   * Starting from the first ring, displaySlide(0) parks slide 6 (slot 5)
   * and makes slide 4 the thumbnail in slot 3. The first previousSlide
   * makes slide 6 the active slide: visible, but still off-screen. It also
   * pushes slide 4 to slot 4, where it is hidden with its thumbnail width;
   * the second leaves it hidden; the third makes it the active slide, which
   * grows while transparent. (The sweeps in between only change z-indices,
   * and no growth completion touches these two slides.)
   */
  lemma PreviousSlideShowsParkedSlidesAsWritten(g: Geometry, cfg: CarouselConfig, z0: int, z1: int, z2: int, z3: int)
    requires cfg.maxVisibleThumbs == 4 && 4 <= g.maxThumbs
    ensures Iota(7) == Rotation(7, 0)
    ensures RotateRight(Rotation(7, 0)) == Rotation(7, 6)
    ensures RotateRight(Rotation(7, 6)) == Rotation(7, 5)
    ensures RotateRight(Rotation(7, 5)) == Rotation(7, 4)
    ensures var h := PosterAfter(InitialPoster(6), 6, Rotation(7, 0), g, cfg, z0);
      var a := PosterAfter(h, 6, Rotation(7, 6), g, cfg, z1);
      && !h.visible && a.marker == ActiveMark && a.visible && a.transform == Offscreen
    ensures var t0 := PosterAfter(InitialPoster(4), 4, Rotation(7, 0), g, cfg, z0);
      var t1 := PosterAfter(t0, 4, Rotation(7, 6), g, cfg, z1);
      var t2 := PosterAfter(t1, 4, Rotation(7, 5), g, cfg, z2);
      var t3 := PosterAfter(t2, 4, Rotation(7, 4), g, cfg, z3);
      && t0.marker == ThumbMark && t0.visible && t0.width == ThumbWidth(g.thumbWidth)
      && !t1.visible && !t2.visible && t2.width == ThumbWidth(g.thumbWidth)
      && t3.marker == ActiveMark && !t3.visible && t3.motion == Grow
  {
    IotaIsRotation(7);
    RotateRightRotation(7, 0);
    RotateRightRotation(7, 6);
    RotateRightRotation(7, 5);
    RotationIsPermutation(7, 0);
    RotationIsPermutation(7, 6);
    RotationIsPermutation(7, 5);
    RotationIsPermutation(7, 4);
    var h := PosterAfter(InitialPoster(6), 6, Rotation(7, 0), g, cfg, z0);
    assert Rotation(7, 0)[6] == 6;
    PosterFollowsRole(InitialPoster(6), Rotation(7, 0), 7, 6, g, cfg, z0);
    PosterFollowsRole(h, Rotation(7, 6), 7, 0, g, cfg, z1);
    var t0 := PosterAfter(InitialPoster(4), 4, Rotation(7, 0), g, cfg, z0);
    var t1 := PosterAfter(t0, 4, Rotation(7, 6), g, cfg, z1);
    var t2 := PosterAfter(t1, 4, Rotation(7, 5), g, cfg, z2);
    assert Rotation(7, 0)[4] == 4 && Rotation(7, 6)[5] == 4 && Rotation(7, 5)[6] == 4;
    PosterFollowsRole(InitialPoster(4), Rotation(7, 0), 7, 4, g, cfg, z0);
    PosterFollowsRole(t0, Rotation(7, 6), 7, 5, g, cfg, z1);
    PosterFollowsRole(t1, Rotation(7, 5), 7, 6, g, cfg, z2);
    PosterFollowsRole(t2, Rotation(7, 4), 7, 0, g, cfg, z3);
  }

  /**
   * A slide in a slot the layout's maxThumbs cuts off is hidden but keeps
   * the thumbnail class, because the class is added before the check.
   */
  lemma HiddenThumbnailKeepsClass(p: Poster, ring: seq<nat>, n: nat, pos: nat, g: Geometry, cfg: CarouselConfig, growZ: int)
    requires IsPermutation(ring, n) && 1 <= pos < n
    requires g.maxThumbs <= pos - 1 < cfg.maxVisibleThumbs
    ensures var q := PosterAfter(p, ring[pos], ring, g, cfg, growZ);
      q.marker == ThumbMark && !q.visible && q.transform == Offscreen
  {
    PosterFollowsRole(p, ring, n, pos, g, cfg, growZ);
  }

  /**
   * Slot placement is strictly increasing in the slot: further right,
   * higher in the stack and later, when slots are wider than zero and the
   * stagger is positive; slot 0 sits at the area's origin.
   */
  lemma {:induction false} SlotsIncrease(g: Geometry, cfg: CarouselConfig, s1: nat, s2: nat)
    requires s1 < s2
    requires 0 < g.thumbWidth + cfg.thumbSpacing && 0 < cfg.staggerDelayMs
    ensures ThumbX(g, cfg, 0) == g.thumbAreaX
    ensures ThumbX(g, cfg, s1) < ThumbX(g, cfg, s2)
    ensures ThumbZ(s1) < ThumbZ(s2)
    ensures StaggerDelay(cfg, s1) < StaggerDelay(cfg, s2)
  {
    var w := (g.thumbWidth + cfg.thumbSpacing) as real;
    assert (s2 as real - s1 as real) * w > 0.0;
    assert s2 as real * w - s1 as real * w == (s2 as real - s1 as real) * w;
    assert (s2 - s1) * cfg.staggerDelayMs > 0;
    assert s2 * cfg.staggerDelayMs - s1 * cfg.staggerDelayMs == (s2 - s1) * cfg.staggerDelayMs;
  }

  /** No slide without a class sits above z 10. */
  predicate PlainSlidesLow(ps: seq<Poster>)
  {
    forall k :: 0 <= k < |ps| && ps[k].marker == Plain ==> ps[k].z <= 10
  }

  /**
   * The slide half of cleanupOldElements never finds a slide to lower:
   * the slides as created have no slide without a class above z 10,
   * updatePosterStates leaves every such slide at z 1, and on slides like
   * that the sweep changes nothing.
   */
  lemma SlideSweepIdle(ps: seq<Poster>, n: nat, ring: seq<nat>, g: Geometry, cfg: CarouselConfig, growZ: int)
    requires |ring| > 0
    ensures PlainSlidesLow(seq(n, k requires 0 <= k < n => InitialPoster(k)))
    ensures PlainSlidesLow(UpdateAll(ps, ring, g, cfg, growZ))
    ensures PlainSlidesLow(ps) ==> SweepAll(ps) == ps
  {
  }

  /** The thumbnail count of a prefix grows by one exactly at a thumbnail-class slide. */
  lemma CountThumbMarkedStep(ps: seq<Poster>, k: nat)
    requires k < |ps|
    ensures CountThumbMarked(ps[..k + 1]) == CountThumbMarked(ps[..k]) + (if ps[k].marker == ThumbMark then 1 else 0)
  {
    assert ps[..k + 1][..k] == ps[..k];
  }

  /**
   * Document-order ranks never go down, and a thumbnail-class slide's rank
   * is below the rank of every later slide.
   */
  lemma {:induction false} RankMonotone(ps: seq<Poster>, i: nat, j: nat)
    requires i < j <= |ps|
    ensures CountThumbMarked(ps[..i]) + (if ps[i].marker == ThumbMark then 1 else 0) <= CountThumbMarked(ps[..j])
    decreases j
  {
    CountThumbMarkedStep(ps, j - 1);
    if i < j - 1 {
      RankMonotone(ps, i, j - 1);
    }
  }

  /** Every rank below the thumbnail count is the rank of some thumbnail-class slide. */
  lemma {:induction false} RanksCover(ps: seq<Poster>, j: nat)
    requires j < CountThumbMarked(ps)
    ensures exists k :: 0 <= k < |ps| && ps[k].marker == ThumbMark && CountThumbMarked(ps[..k]) == j
    decreases |ps|
  {
    var m := |ps| - 1;
    var init := ps[..m];
    if j < CountThumbMarked(init) {
      RanksCover(init, j);
      var k :| 0 <= k < |init| && init[k].marker == ThumbMark && CountThumbMarked(init[..k]) == j;
      assert init[..k] == ps[..k];
    } else {
      assert ps[m].marker == ThumbMark && CountThumbMarked(ps[..m]) == j;
    }
  }

  /**
   * refreshThumbnailPositions as the carousel runs it. Slides without the
   * thumbnail class are untouched. The thumbnail-class slides are ranked in
   * document order: an earlier slide gets a smaller rank, so no two share
   * one, and every rank is below their count; a slide whose rank is
   * maxThumbs or more is hidden.
   */
  lemma RefreshAsWrittenRanksByDocumentOrder(ps: seq<Poster>, g: Geometry, cfg: CarouselConfig)
    ensures forall k :: 0 <= k < |ps| && ps[k].marker != ThumbMark ==> RefreshAllAsWritten(ps, g, cfg)[k] == ps[k]
    ensures forall k1, k2 :: 0 <= k1 < k2 < |ps| && ps[k1].marker == ThumbMark ==>
      CountThumbMarked(ps[..k1]) < CountThumbMarked(ps[..k2])
    ensures forall k :: 0 <= k < |ps| && ps[k].marker == ThumbMark ==> CountThumbMarked(ps[..k]) < CountThumbMarked(ps)
    ensures forall k :: 0 <= k < |ps| && ps[k].marker == ThumbMark && g.maxThumbs <= CountThumbMarked(ps[..k]) ==>
      !RefreshAllAsWritten(ps, g, cfg)[k].visible && !HasExistingPosition(RefreshAllAsWritten(ps, g, cfg)[k])
  {
    forall k1, k2 | 0 <= k1 < k2 < |ps| && ps[k1].marker == ThumbMark
      ensures CountThumbMarked(ps[..k1]) < CountThumbMarked(ps[..k2])
    {
      RankMonotone(ps, k1, k2);
    }
    forall k | 0 <= k < |ps| && ps[k].marker == ThumbMark
      ensures CountThumbMarked(ps[..k]) < CountThumbMarked(ps)
    {
      RankMonotone(ps, k, |ps|);
      assert ps[..|ps|] == ps;
    }
  }

  /**
   * Every slot below both the thumbnail count and maxThumbs is filled by
   * the refresh: the thumbnail-class slide of that document-order rank is
   * placed there, visible.
   */
  lemma RefreshAsWrittenFillsSlot(ps: seq<Poster>, j: nat, g: Geometry, cfg: CarouselConfig)
    requires j < CountThumbMarked(ps) && j < g.maxThumbs
    ensures exists k :: 0 <= k < |ps| && ps[k].marker == ThumbMark && CountThumbMarked(ps[..k]) == j
                        && RefreshAllAsWritten(ps, g, cfg)[k].visible
                        && RefreshAllAsWritten(ps, g, cfg)[k].transform == Translate(ThumbX(g, cfg, j), g.thumbAreaY)
  {
    RanksCover(ps, j);
    var k :| 0 <= k < |ps| && ps[k].marker == ThumbMark && CountThumbMarked(ps[..k]) == j;
    assert RefreshAllAsWritten(ps, g, cfg)[k] == RefreshPoster(ps[k], j, g, cfg);
  }

  /**
   * refreshThumbnailPositions as written ranks thumbnails by document
   * order, not by slot. With three slides, after one nextSlide (ring
   * [1, 2, 0]) slide 2 is in slot 0 and slide 0 in slot 1; a refresh at
   * the very same layout moves slide 2 to the second position and slide 0
   * to the first, while the corrected refresh leaves slide 2 where it is.
   */
  lemma ResizeUsesDomOrder(p0: seq<Poster>, g: Geometry, cfg: CarouselConfig, growZ: int)
    requires |p0| == 3 && 2 <= cfg.maxVisibleThumbs && 2 <= g.maxThumbs && 0 < g.thumbWidth + cfg.thumbSpacing
    ensures RotateLeft(Iota(3)) == [1, 2, 0]
    ensures RoleAt([1, 2, 0], 2, cfg.maxVisibleThumbs, g.maxThumbs) == Thumbnail(0)
    ensures RoleAt([1, 2, 0], 0, cfg.maxVisibleThumbs, g.maxThumbs) == Thumbnail(1)
    ensures var ps := UpdateAll(p0, [1, 2, 0], g, cfg, growZ);
      && ps[2].transform == Translate(ThumbX(g, cfg, 0), g.thumbAreaY)
      && ps[0].transform == Translate(ThumbX(g, cfg, 1), g.thumbAreaY)
      && RefreshedAsWritten(ps, 2, g, cfg).transform == Translate(ThumbX(g, cfg, 1), g.thumbAreaY)
      && RefreshedAsWritten(ps, 0, g, cfg).transform == Translate(ThumbX(g, cfg, 0), g.thumbAreaY)
      && RefreshedAsWritten(ps, 2, g, cfg) != ps[2]
      && Refreshed(ps, 2, [1, 2, 0], g, cfg) == ps[2]
  {
    var ring: seq<nat> := [1, 2, 0];
    assert RotateLeft(Iota(3)) == ring;
    assert ring[1..] == [2, 0];
    assert ring[1..][0] == 2 && ring[1..][1] == 0;
    var ps := UpdateAll(p0, ring, g, cfg, growZ);
    assert ps[0].marker == ThumbMark && ps[1].marker == ActiveMark && ps[2].marker == ThumbMark;
    CountThumbMarkedStep(ps, 0);
    CountThumbMarkedStep(ps, 1);
    assert ps[..0] == [];
    assert ThumbX(g, cfg, 1) - ThumbX(g, cfg, 0) == (g.thumbWidth + cfg.thumbSpacing) as real;
  }

  /**
   * The corrected refresh at the layout updatePosterStates used moves
   * nothing: every slide is already where the refresh would put it.
   */
  lemma RefreshAfterUpdateMovesNothing(p: Poster, ps: seq<Poster>, ring: seq<nat>, k: nat, g: Geometry, cfg: CarouselConfig, growZ: int)
    requires |ring| > 0 && k < |ps|
    requires ps[k] == PosterAfter(p, k, ring, g, cfg, growZ)
    ensures Refreshed(ps, k, ring, g, cfg) == ps[k]
  {
  }

  /**
   * The corrected refresh at a new layout puts the thumbnail in slot s at
   * that layout's slot position, visible and thumbnail-sized, when s is
   * below its maxThumbs, and hides it otherwise.
   */
  lemma RefreshPlacesBySlot(ps: seq<Poster>, ring: seq<nat>, n: nat, pos: nat, g: Geometry, cfg: CarouselConfig)
    requires IsPermutation(ring, n) && 1 <= pos < n && |ps| == n
    requires ps[ring[pos]].marker == ThumbMark
    ensures var q := Refreshed(ps, ring[pos], ring, g, cfg);
      && (pos - 1 < g.maxThumbs ==>
            q.transform == Translate(ThumbX(g, cfg, pos - 1), g.thumbAreaY) && q.visible && q.width == ThumbWidth(g.thumbWidth))
      && (g.maxThumbs <= pos - 1 ==> q == HideElement(ps[ring[pos]]))
  {
    IndexOfDistinct(ring[1..], pos - 1);
  }
}
