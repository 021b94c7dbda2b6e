/**
 * The SlideCarousel controller: the ring of slide indices, the per-slide
 * state, the two text containers, the z-index cycle counter, the pending
 * timeout callbacks and the auto-play interval.
 */
module Carousel {
  import opened Common
  import opened Config
  import opened SequenceRing
  import opened Roles
  import opened Layout
  import opened ZBand
  import opened Posters
  import opened TextSlots
  import opened Input

  /** The work a pending setTimeout callback will do when it fires. */
  datatype Action =
    | SwitchTextLater(target: nat, newTextZ: int)  // switchText(true) after TEXT_SWITCH_DELAY (scripts.js:541-543)
    | HideTextLater(slot: TextSlot)                 // hideTextContainer after TEXT_HIDE_DELAY (scripts.js:455)
    | FinishGrowLater(slide: nat)                   // the growth's completion after ANIMATION_DURATION (scripts.js:545-549)
    | DisplaySlideLater(target: nat)                // the displaySlide(0) calls of initializeFirstSlide (scripts.js:336-345)
    | StartAutoPlayLater                            // init's startAutoPlayTimer after 3 s (scripts.js:152)

  datatype Timer = Timer(delayMs: int, action: Action)

  /** The fields a navigation or a timeout callback changes. */
  datatype Stage = Stage(ring: seq<nat>, activeIndex: nat, cycleCounter: nat, text: TextPair, posters: seq<Poster>, pending: seq<Timer>)

  /** A pending growth completion names one of the n slides. */
  predicate TimerFits(t: Timer, n: nat)
  {
    t.action.FinishGrowLater? ==> t.action.slide < n
  }

  /**
   * The ring is a rotation of 0..n-1 (so a permutation of the slide
   * indices), there is one slide state per slide, and every pending
   * callback names an existing slide.
   */
  predicate StageOk(s: Stage, n: nat)
  {
    && 0 < n && |s.ring| == n && s.ring[0] < n && s.ring == Rotation(n, s.ring[0])
    && |s.posters| == n
    && forall i :: 0 <= i < |s.pending| ==> TimerFits(s.pending[i], n)
  }

  /** The callbacks handleActivePoster schedules when the new active slide grows (scripts.js:541-549). */
  function GrowTimers(grew: bool, target: nat, z: ZIndices, cfg: CarouselConfig): seq<Timer>
  {
    if grew then [Timer(cfg.textSwitchDelay, SwitchTextLater(target, z.newText)), Timer(cfg.animationDuration, FinishGrowLater(target))]
    else []
  }

  /**
   * The text side of handleActivePoster (scripts.js:503-508): a growing
   * slide leaves the switch to a callback, any other switches at once.
   */
  function TextAfterDisplay(t: TextPair, grew: bool, target: nat, z: ZIndices): TextPair
  {
    if grew then t else SwitchNow(t, target, z.newText)
  }

  /**
   * calculateZIndices (scripts.js:398-414): the counter moves on, and when
   * its cycle position is 1 cleanupOldElements sweeps every slide and
   * both text containers. Nothing else changes, and on slides none of
   * which sits above z 10 without a class the sweep changes no slide.
   */
  function Advance(s: Stage, cfg: CarouselConfig): (r: Stage)
    requires ValidConfig(cfg)
    ensures r.cycleCounter == s.cycleCounter + 1
    ensures r.ring == s.ring && r.activeIndex == s.activeIndex && r.pending == s.pending
    ensures |r.posters| == |s.posters|
    ensures PlainSlidesLow(s.posters) ==> r.posters == s.posters
  {
    var counter := s.cycleCounter + 1;
    if CleanupDue(counter, cfg) then s.(cycleCounter := counter, posters := SweepAll(s.posters), text := SweepTexts(s.text))
    else s.(cycleCounter := counter)
  }

  /**
   * The rest of displaySlide(target) (scripts.js:388-395) once the layers
   * are chosen: the ring is rotated until the target is in front (on a
   * ring that is a rotation of 0..n-1, that is the rotation starting at the
   * target; RotateSequenceToFront proves it), the current text sinks,
   * every slide is updated, then the text switches at once or a growth is
   * scheduled. Afterwards no slide without a class sits above z 1.
   */
  function Activate(s: Stage, target: nat, n: nat, g: Geometry, cfg: CarouselConfig): (r: Stage)
    requires StageOk(s, n) && ValidConfig(cfg) && target < n
    ensures r.ring == Rotation(n, target) && r.activeIndex == target
    ensures r.cycleCounter == s.cycleCounter && s.pending <= r.pending
    ensures |r.posters| == n && PlainSlidesLow(r.posters)
  {
    var z := Band(s.cycleCounter, cfg);
    var ring := Rotation(n, target);
    var grew := s.posters[target].width.ThumbWidth?;
    Stage(ring, target, s.cycleCounter,
          TextAfterDisplay(LowerCurrent(s.text, z.oldText), grew, target, z),
          UpdateAll(s.posters, ring, g, cfg, z.growingImage),
          s.pending + GrowTimers(grew, target, z, cfg))
  }

  /** displaySlide(target) (scripts.js:383-396) for a target that exists: the target is in front and active, and the counter moved on by one. */
  function DisplayStep(s: Stage, target: nat, n: nat, g: Geometry, cfg: CarouselConfig): (r: Stage)
    requires StageOk(s, n) && ValidConfig(cfg) && target < n
    ensures r.ring == Rotation(n, target) && r.activeIndex == target
    ensures r.cycleCounter == s.cycleCounter + 1
  {
    Activate(Advance(s, cfg), target, n, g, cfg)
  }

  /** nextSlide (scripts.js:717-720): rotate left, then display the new front, the slide after the old one. */
  function NextStep(s: Stage, n: nat, g: Geometry, cfg: CarouselConfig): (r: Stage)
    requires StageOk(s, n) && ValidConfig(cfg)
    ensures r.ring == Rotation(n, Succ(n, s.ring[0])) && r.activeIndex == Succ(n, s.ring[0])
  {
    RotateLeftRotation(n, s.ring[0]);
    var s' := s.(ring := RotateLeft(s.ring));
    DisplayStep(s', s'.ring[0], n, g, cfg)
  }

  /** previousSlide (scripts.js:722-725): rotate right, then display the new front, the slide before the old one. */
  function PreviousStep(s: Stage, n: nat, g: Geometry, cfg: CarouselConfig): (r: Stage)
    requires StageOk(s, n) && ValidConfig(cfg)
    ensures r.ring == Rotation(n, Pred(n, s.ring[0])) && r.activeIndex == Pred(n, s.ring[0])
  {
    RotateRightRotation(n, s.ring[0]);
    var s' := s.(ring := RotateRight(s.ring));
    DisplayStep(s', s'.ring[0], n, g, cfg)
  }

  function Without(ts: seq<Timer>, i: nat): seq<Timer>
    requires i < |ts|
  {
    ts[..i] + ts[i + 1..]
  }

  /**
   * Pending callback i fires and leaves the queue. The order in which the
   * browser runs them (by delay and by scheduling time) is not modelled:
   * any pending callback may fire next. Only a delayed displaySlide moves
   * the ring, the active index or the counter.
   */
  function FireTimer(s: Stage, i: nat, n: nat, g: Geometry, cfg: CarouselConfig): (r: Stage)
    requires StageOk(s, n) && ValidConfig(cfg) && i < |s.pending|
    ensures !s.pending[i].action.DisplaySlideLater? ==>
      r.ring == s.ring && r.activeIndex == s.activeIndex && r.cycleCounter == s.cycleCounter
  {
    var rest := s.(pending := Without(s.pending, i));
    assert TimerFits(s.pending[i], n);
    assert StageOk(rest, n) by { WithoutKeepsFit(s.pending, i, n); }
    match s.pending[i].action
    case SwitchTextLater(target, z) =>
      rest.(text := ShowNext(s.text, target, z),
            pending := rest.pending + [Timer(cfg.textHideDelay, HideTextLater(Current(s.text)))])
    case HideTextLater(slot) => rest.(text := HideSlot(s.text, slot))
    case FinishGrowLater(k) => rest.(posters := s.posters[k := FinishGrow(s.posters[k])])
    case DisplaySlideLater(k) => if k < n then DisplayStep(rest, k, n, g, cfg) else rest
    case StartAutoPlayLater => rest
  }

  lemma WithoutKeepsFit(ts: seq<Timer>, i: nat, n: nat)
    requires i < |ts| && forall j :: 0 <= j < |ts| ==> TimerFits(ts[j], n)
    ensures |Without(ts, i)| == |ts| - 1
    ensures forall j :: 0 <= j < |Without(ts, i)| ==> TimerFits(Without(ts, i)[j], n)
  {
    forall j | 0 <= j < |Without(ts, i)| ensures TimerFits(Without(ts, i)[j], n) {
      if j < i {
        assert Without(ts, i)[j] == ts[j];
      } else {
        assert Without(ts, i)[j] == ts[j + 1];
      }
    }
  }

  /**
   * After displaySlide(target): the ring is the rotation of 0..n-1 that
   * starts at the target, which is the active index; the counter moved on
   * by one; callbacks already pending stay pending, and the stage stays
   * well-formed.
   */
  lemma DisplayStepOutcome(s: Stage, target: nat, n: nat, g: Geometry, cfg: CarouselConfig)
    requires StageOk(s, n) && ValidConfig(cfg) && target < n
    ensures var r := DisplayStep(s, target, n, g, cfg);
      && StageOk(r, n)
      && r.ring == Rotation(n, target) && r.ring[0] == target && r.activeIndex == target
      && IsPermutation(r.ring, n)
      && r.cycleCounter == s.cycleCounter + 1
      && s.pending <= r.pending
  {
    var a := Advance(s, cfg);
    var r := Activate(a, target, n, g, cfg);
    RotationIsPermutation(n, target);
    var tail := GrowTimers(a.posters[target].width.ThumbWidth?, target, Band(a.cycleCounter, cfg), cfg);
    assert r.pending == s.pending + tail;
    forall i | 0 <= i < |r.pending| ensures TimerFits(r.pending[i], n) {
      if i >= |s.pending| {
        assert r.pending[i] == tail[i - |s.pending|];
      }
    }
  }

  /**
   * The slides after displaySlide(target): their classes follow the new
   * ring, and the target is the only slide with the active class, full
   * size at the growing-image layer. As written, a target that was a
   * thumbnail grows and keeps the visibility it had; any other target is
   * made visible but keeps its transform.
   */
  lemma DisplayStepPosters(s: Stage, target: nat, n: nat, g: Geometry, cfg: CarouselConfig)
    requires StageOk(s, n) && ValidConfig(cfg) && target < n
    ensures var r := DisplayStep(s, target, n, g, cfg);
      var p := s.posters[target];
      var q := r.posters[target];
      var grew := p.width.ThumbWidth?;
      && MarkersFollowRing(r.posters, r.ring, cfg.maxVisibleThumbs)
      && (forall k :: 0 <= k < n ==> (r.posters[k].marker == ActiveMark <==> k == target))
      && q.width == FullWidth && q.z == Band(r.cycleCounter, cfg).growingImage
      && (q.visible <==> p.visible || !grew)
      && (grew ==> q.transform == Settling && q.motion == Grow)
      && (!grew ==> q.transform == p.transform && q.motion == Placed)
  {
    var a := Advance(s, cfg);
    var z := Band(a.cycleCounter, cfg).growingImage;
    UpdateAllMarkers(a.posters, Rotation(n, target), g, cfg, z);
    assert a.posters[target].(z := s.posters[target].z) == s.posters[target];
  }

  /**
   * The text side of displaySlide. When the target does not grow, the
   * container now current shows it, active, at the new-text layer, and
   * the other container is inactive. When it grows, the current container
   * is unchanged except for sinking to the old-text layer, and a switch
   * to the target plus the growth's completion are pending, in that order.
   */
  lemma DisplayStepText(s: Stage, target: nat, n: nat, g: Geometry, cfg: CarouselConfig)
    requires StageOk(s, n) && ValidConfig(cfg) && target < n
    ensures var r := DisplayStep(s, target, n, g, cfg);
      var z := Band(r.cycleCounter, cfg);
      var grew := s.posters[target].width.ThumbWidth?;
      && (!grew ==>
            && Box(r.text, Current(r.text)) == TextBox(true, z.newText, Some(target))
            && !Box(r.text, Other(Current(r.text))).active
            && r.pending == s.pending)
      && (grew ==>
            && Current(r.text) == Current(s.text)
            && Box(r.text, Current(r.text)).z == z.oldText
            && Box(r.text, Current(r.text)).shows == Box(s.text, Current(s.text)).shows
            && r.pending == s.pending + [Timer(cfg.textSwitchDelay, SwitchTextLater(target, z.newText)),
                                         Timer(cfg.animationDuration, FinishGrowLater(target))])
  {
    var a := Advance(s, cfg);
    var z := Band(a.cycleCounter, cfg);
    SweepSparesActive(s.text);
  }

  /** A pending text switch, when it fires, shows its target in the container that becomes current. */
  lemma FireSwitchShowsTarget(s: Stage, i: nat, n: nat, g: Geometry, cfg: CarouselConfig)
    requires StageOk(s, n) && ValidConfig(cfg) && i < |s.pending|
    requires s.pending[i].action.SwitchTextLater?
    ensures var r := FireTimer(s, i, n, g, cfg);
      var a := s.pending[i].action;
      && Current(r.text) == Other(Current(s.text))
      && Box(r.text, Current(r.text)) == TextBox(true, a.newTextZ, Some(a.target))
      && r.pending[|r.pending| - 1] == Timer(cfg.textHideDelay, HideTextLater(Current(s.text)))
  {
  }

  /**
   * Every callback keeps the stage well-formed; only a delayed
   * displaySlide moves the ring, the active index or the counter.
   */
  lemma FireTimerKeepsStage(s: Stage, i: nat, n: nat, g: Geometry, cfg: CarouselConfig)
    requires StageOk(s, n) && ValidConfig(cfg) && i < |s.pending|
    ensures StageOk(FireTimer(s, i, n, g, cfg), n)
    ensures !s.pending[i].action.DisplaySlideLater? ==>
      var r := FireTimer(s, i, n, g, cfg);
      r.ring == s.ring && r.activeIndex == s.activeIndex && r.cycleCounter == s.cycleCounter
  {
    WithoutKeepsFit(s.pending, i, n);
    var rest := s.(pending := Without(s.pending, i));
    match s.pending[i].action
    case SwitchTextLater(target, z) =>
      var r := FireTimer(s, i, n, g, cfg);
      forall j | 0 <= j < |r.pending| ensures TimerFits(r.pending[j], n) {
        if j < |rest.pending| {
          assert r.pending[j] == rest.pending[j];
        }
      }
    case HideTextLater(_) =>
    case FinishGrowLater(_) =>
    case DisplaySlideLater(k) =>
      if k < n {
        DisplayStepOutcome(rest, k, n, g, cfg);
      }
    case StartAutoPlayLater =>
  }

  /** nextSlide makes the ring's second slide active; previousSlide then brings the old one back. */
  lemma NextThenPrevious(s: Stage, n: nat, g: Geometry, cfg: CarouselConfig)
    requires StageOk(s, n) && ValidConfig(cfg)
    ensures var r := NextStep(s, n, g, cfg);
      && r.ring == Rotation(n, Succ(n, s.ring[0])) && r.activeIndex == Succ(n, s.ring[0])
      && StageOk(r, n)
      && PreviousStep(r, n, g, cfg).ring == s.ring
      && PreviousStep(r, n, g, cfg).activeIndex == s.ring[0]
  {
    var o := s.ring[0];
    RotateLeftRotation(n, o);
    var s' := s.(ring := RotateLeft(s.ring));
    DisplayStepOutcome(s', s'.ring[0], n, g, cfg);
    var r := NextStep(s, n, g, cfg);
    RotateRightRotation(n, r.ring[0]);
    var r' := r.(ring := RotateRight(r.ring));
    RotateInverse(s.ring);
    DisplayStepOutcome(r', r'.ring[0], n, g, cfg);
  }

  /**
   * The slide half of cleanupOldElements never lowers a slide. No slide
   * without a class sits above z 10 at the start, every displaySlide
   * leaves none above z 1, and no callback raises one; so when a sweep
   * comes due it finds nothing to do.
   */
  lemma SlideSweepNeverFires(s: Stage, i: nat, target: nat, n: nat, g: Geometry, cfg: CarouselConfig)
    requires StageOk(s, n) && ValidConfig(cfg) && PlainSlidesLow(s.posters)
    ensures PlainSlidesLow(seq(n, k requires 0 <= k < n => InitialPoster(k)))
    ensures Advance(s, cfg).posters == s.posters
    ensures target < n ==> PlainSlidesLow(DisplayStep(s, target, n, g, cfg).posters)
    ensures i < |s.pending| ==> PlainSlidesLow(FireTimer(s, i, n, g, cfg).posters)
  {
    SlideSweepIdle(s.posters, n, s.ring, g, cfg, 0);
    if i < |s.pending| {
      var r := FireTimer(s, i, n, g, cfg);
      match s.pending[i].action
      case FinishGrowLater(k) =>
        forall j | 0 <= j < |r.posters| && r.posters[j].marker == Plain ensures r.posters[j].z <= 10 {
          assert j != k ==> r.posters[j] == s.posters[j];
        }
      case DisplaySlideLater(k) =>
      case SwitchTextLater(_, _) =>
      case HideTextLater(_) =>
      case StartAutoPlayLater =>
    }
  }

  class SlideCarousel {
    /** totalSlides: the number of entries in the slide data. */
    const n: nat
    const cfg: CarouselConfig
    const responsive: ResponsiveConfig
    /** Whether the play/pause button and its icon exist; toggleAutoPlay starts or stops the timer only then. */
    const hasPlayButton: bool

    /** layoutCache */
    var layout: Geometry
    /** sequenceArray */
    var ring: seq<nat>
    var activeIndex: nat
    var cycleCounter: nat
    /** slideInfoPrimary, slideInfoSecondary and usePrimaryInfo */
    var text: TextPair
    /** The slide elements, in document order. */
    var posters: seq<Poster>
    /** Scheduled setTimeout callbacks that have not fired. */
    var pending: seq<Timer>
    var isAutoActive: bool
    /** The handle setInterval returned, or none (the source's null). */
    var autoTimer: Option<nat>
    /** The intervals the browser keeps running for this carousel. */
    var liveIntervals: set<nat>
    /** The last interval handle handed out; handles start at 1, so a live handle is truthy. */
    var lastHandle: nat

    function Snap(): Stage
      reads this`ring, this`activeIndex, this`cycleCounter, this`text, this`posters, this`pending
    {
      Stage(ring, activeIndex, cycleCounter, text, posters, pending)
    }

    /**
     * The stage is well-formed, and at most one interval runs: exactly the
     * one autoTimer names. With the play button, a running interval means
     * auto-play is on.
     */
    predicate Consistent()
      reads this
    {
      && ValidConfig(cfg)
      && StageOk(Snap(), n)
      && IntervalsTracked()
      && (hasPlayButton && autoTimer.Some? ==> isAutoActive)
    }

    /** The live intervals are exactly the one autoTimer names, and handles are positive and already handed out. */
    predicate IntervalsTracked()
      reads this`liveIntervals, this`autoTimer, this`lastHandle
    {
      && liveIntervals == (if autoTimer.Some? then {autoTimer.value} else {})
      && (autoTimer.Some? ==> 0 < autoTimer.value <= lastHandle)
    }

    /** Between navigations the active index is the ring's front. */
    predicate Valid()
      reads this
    {
      Consistent() && activeIndex == ring[0]
    }

    /**
     * What startAutoPlayTimer leaves, given the last handle before it: a
     * fresh interval as the only live one when auto-play is on, none
     * otherwise.
     */
    predicate AutoPlayRestarted(prevHandle: nat)
      reads this`isAutoActive, this`liveIntervals, this`autoTimer, this`lastHandle
    {
      && (isAutoActive ==> lastHandle == prevHandle + 1 && autoTimer == Some(lastHandle) && liveIntervals == {lastHandle})
      && (!isAutoActive ==> lastHandle == prevHandle && autoTimer == None && liveIntervals == {})
    }

    /**
     * The constructor and init (scripts.js:18-33, 131-157) with the slide
     * elements of createSlideElement (scripts.js:199-208) and the text of
     * initializeFirstSlide (scripts.js:326-345); the two delayed
     * displaySlide(0) calls and the delayed auto-play start are pending.
     */
    constructor (n: nat, cfg: CarouselConfig, responsive: ResponsiveConfig, vw: int, vh: int, hasPlayButton: bool)
      requires 0 < n && ValidConfig(cfg)
      ensures Valid()
      ensures this.n == n && this.cfg == cfg && this.responsive == responsive && this.hasPlayButton == hasPlayButton
      ensures ring == Iota(n) && activeIndex == 0 && cycleCounter == 0
      ensures layout == CalculateLayout(vw, vh, cfg, responsive)
      ensures text == InitialText()
      ensures |posters| == n && forall k :: 0 <= k < n ==> posters[k] == InitialPoster(k)
      ensures pending == [Timer(100, DisplaySlideLater(0)), Timer(500, DisplaySlideLater(0)), Timer(3000, StartAutoPlayLater)]
      ensures isAutoActive == InitiallyAutoActive(cfg) && autoTimer == None && liveIntervals == {}
    {
      this.n := n;
      this.cfg := cfg;
      this.responsive := responsive;
      this.hasPlayButton := hasPlayButton;
      layout := CalculateLayout(vw, vh, cfg, responsive);
      ring := Iota(n);
      activeIndex := 0;
      cycleCounter := 0;
      text := InitialText();
      posters := seq(n, k requires 0 <= k < n => InitialPoster(k));
      pending := [Timer(100, DisplaySlideLater(0)), Timer(500, DisplaySlideLater(0)), Timer(3000, StartAutoPlayLater)];
      isAutoActive := InitiallyAutoActive(cfg);
      autoTimer := None;
      liveIntervals := {};
      lastHandle := 0;
      IotaIsRotation(n);
    }

    /** rotateSequenceToFront (scripts.js:434-438): move the front to the back until the target is in front. */
    method RotateSequenceToFront(target: nat)
      requires 0 < n && |ring| == n && ring[0] < n && ring == Rotation(n, ring[0]) && target < n
      modifies this`ring
      ensures ring == Rotation(n, target)
    {
      ghost var s0 := ring;
      RotationIsPermutation(n, s0[0]);
      IndexOfRotation(n, s0[0], target);
      RotateByRotation(n, s0[0], PositionIn(n, s0[0], target));
      ghost var i: nat := 0;
      RotateLeftStep(s0, 0);
      while ring[0] != target
        invariant i <= IndexOf(s0, target)
        invariant ring == RotateBy(s0, i) && ring[0] == s0[i]
        decreases IndexOf(s0, target) - i
      {
        RotateLeftStep(s0, i);
        ring := RotateLeft(ring);
        i := i + 1;
        RotateLeftStep(s0, i);
      }
      assert i == IndexOf(s0, target) by { IndexOfDistinct(s0, i); }
    }

    /** cleanupOldElements (scripts.js:416-432). */
    method CleanupOldElements()
      modifies this`posters, this`text
      ensures posters == SweepAll(old(posters))
      ensures text == SweepTexts(old(text))
    {
      text := SweepTexts(text);
      ghost var p0 := posters;
      var k := 0;
      while k < |posters|
        invariant k <= |posters| == |p0|
        invariant text == SweepTexts(old(text))
        invariant forall j :: 0 <= j < k ==> posters[j] == SweepPoster(p0[j])
        invariant forall j :: k <= j < |posters| ==> posters[j] == p0[j]
      {
        posters := posters[k := SweepPoster(posters[k])];
        k := k + 1;
      }
    }

    /** calculateZIndices (scripts.js:398-414). */
    method CalculateZIndices() returns (z: ZIndices)
      requires ValidConfig(cfg)
      modifies this`cycleCounter, this`posters, this`text
      ensures Snap() == Advance(old(Snap()), cfg)
      ensures z == Band(cycleCounter, cfg)
    {
      cycleCounter := cycleCounter + 1;
      z := Band(cycleCounter, cfg);
      if CyclePos(cycleCounter, cfg) == 1 {
        CleanupOldElements();
      }
    }

    /** updatePosterStates (scripts.js:478-497), the slide side. */
    method UpdatePosterStates(growZ: int)
      requires |ring| > 0
      modifies this`posters
      ensures posters == UpdateAll(old(posters), ring, layout, cfg, growZ)
    {
      ghost var p0 := posters;
      var k := 0;
      while k < |posters|
        invariant k <= |posters| == |p0|
        invariant forall j :: 0 <= j < k ==> posters[j] == PosterAfter(p0[j], j, ring, layout, cfg, growZ)
        invariant forall j :: k <= j < |posters| ==> posters[j] == p0[j]
      {
        posters := posters[k := PosterAfter(posters[k], k, ring, layout, cfg, growZ)];
        k := k + 1;
      }
    }

    /** The switchText closure of setupTextTransition (scripts.js:444-459). */
    method SwitchText(target: nat, newTextZ: int, delayOldTextHide: bool)
      modifies this`text, this`pending
      ensures text == (if delayOldTextHide then ShowNext(old(text), target, newTextZ) else SwitchNow(old(text), target, newTextZ))
      ensures pending == old(pending) + (if delayOldTextHide then [Timer(cfg.textHideDelay, HideTextLater(Current(old(text))))] else [])
    {
      var oldSlot := Current(text);
      text := ShowNext(text, target, newTextZ);
      if delayOldTextHide {
        pending := pending + [Timer(cfg.textHideDelay, HideTextLater(oldSlot))];
      } else {
        text := HideSlot(text, oldSlot);
      }
    }

    /**
     * displaySlide (scripts.js:383-396). A target with no slide data makes
     * the log line throw before anything changes; that is `ok == false`.
     */
    method DisplaySlide(target: nat) returns (ok: bool)
      requires Consistent()
      modifies this`ring, this`activeIndex, this`cycleCounter, this`text, this`posters, this`pending
      ensures Consistent()
      ensures ok <==> target < n
      ensures ok ==> Snap() == DisplayStep(old(Snap()), target, n, layout, cfg) && activeIndex == ring[0] == target
      ensures !ok ==> Snap() == old(Snap())
    {
      if target >= n {
        return false;
      }
      DisplayStepOutcome(Snap(), target, n, layout, cfg);
      DisplayExistingSlide(target);
      ok := true;
    }

    /** The body of displaySlide (scripts.js:386-395) once the target is known to exist. */
    method DisplayExistingSlide(target: nat)
      requires ValidConfig(cfg) && StageOk(Snap(), n) && target < n
      modifies this`ring, this`activeIndex, this`cycleCounter, this`text, this`posters, this`pending
      ensures Snap() == DisplayStep(old(Snap()), target, n, layout, cfg)
    {
      var z := CalculateZIndices();
      ghost var s1 := Snap();
      assert StageOk(s1, n);
      activeIndex := target;
      RotateSequenceToFront(target);
      text := LowerCurrent(text, z.oldText);
      var grew := posters[target].width.ThumbWidth?;
      UpdatePosterStates(z.growingImage);
      ActivateText(target, z, grew);
      assert ring == Rotation(n, target);
      assert posters == UpdateAll(s1.posters, ring, layout, cfg, Band(s1.cycleCounter, cfg).growingImage);
      assert text == Activate(s1, target, n, layout, cfg).text;
      assert pending == Activate(s1, target, n, layout, cfg).pending;
      assert Snap() == Activate(s1, target, n, layout, cfg);
    }

    /**
     * The end of handleActivePoster (scripts.js:503-508) for the text and
     * the callbacks: a growing slide schedules the text switch and the
     * growth's completion, any other slide switches the text at once.
     */
    method ActivateText(target: nat, z: ZIndices, grew: bool)
      modifies this`text, this`pending
      ensures text == TextAfterDisplay(old(text), grew, target, z)
      ensures pending == old(pending) + GrowTimers(grew, target, z, cfg)
    {
      if grew {
        pending := pending + GrowTimers(true, target, z, cfg);
      } else {
        SwitchText(target, z.newText, false);
      }
    }

    /** nextSlide (scripts.js:717-720). */
    method NextSlide()
      requires Consistent()
      modifies this`ring, this`activeIndex, this`cycleCounter, this`text, this`posters, this`pending
      ensures Valid()
      ensures Snap() == NextStep(old(Snap()), n, layout, cfg)
      ensures ring == Rotation(n, Succ(n, old(ring[0])))
    {
      RotateLeftRotation(n, ring[0]);
      ring := RotateLeft(ring);
      var ok := DisplaySlide(ring[0]);
    }

    /** previousSlide (scripts.js:722-725). */
    method PreviousSlide()
      requires Consistent()
      modifies this`ring, this`activeIndex, this`cycleCounter, this`text, this`posters, this`pending
      ensures Valid()
      ensures Snap() == PreviousStep(old(Snap()), n, layout, cfg)
      ensures ring == Rotation(n, Pred(n, old(ring[0])))
    {
      RotateRightRotation(n, ring[0]);
      ring := RotateRight(ring);
      var ok := DisplaySlide(ring[0]);
    }

    /** stopAutoPlayTimer (scripts.js:750-756): clear the interval if there is one. */
    method StopAutoPlayTimer()
      requires IntervalsTracked()
      modifies this`autoTimer, this`liveIntervals
      ensures IntervalsTracked()
      ensures autoTimer == None && liveIntervals == {}
    {
      if autoTimer.Some? {
        liveIntervals := liveIntervals - {autoTimer.value};
        autoTimer := None;
      }
    }

    /** startAutoPlayTimer (scripts.js:733-748): always clear before creating; create only while auto-play is on. */
    method StartAutoPlayTimer()
      requires IntervalsTracked()
      modifies this`autoTimer, this`liveIntervals, this`lastHandle
      ensures IntervalsTracked()
      ensures AutoPlayRestarted(old(lastHandle))
      ensures old(autoTimer).Some? ==> old(autoTimer.value) !in liveIntervals
    {
      StopAutoPlayTimer();
      if !isAutoActive {
        return;
      }
      lastHandle := lastHandle + 1;
      autoTimer := Some(lastHandle);
      liveIntervals := liveIntervals + {lastHandle};
    }

    /**
     * toggleAutoPlay (scripts.js:804-822): the flag always flips, but the
     * timer is started or stopped only when the button and its icon exist.
     */
    method ToggleAutoPlay()
      requires Consistent()
      modifies this`isAutoActive, this`autoTimer, this`liveIntervals, this`lastHandle
      ensures Consistent()
      ensures isAutoActive == !old(isAutoActive)
      ensures hasPlayButton ==> AutoPlayRestarted(old(lastHandle))
      ensures !hasPlayButton ==> autoTimer == old(autoTimer) && liveIntervals == old(liveIntervals) && lastHandle == old(lastHandle)
    {
      isAutoActive := !isAutoActive;
      if hasPlayButton {
        if isAutoActive {
          StartAutoPlayTimer();
        } else {
          StopAutoPlayTimer();
        }
      }
    }

    /** navigateToSlide (scripts.js:727-731): the thumbnail click. */
    method NavigateToSlide(index: nat)
      requires Valid()
      modifies this`ring, this`activeIndex, this`cycleCounter, this`text, this`posters, this`pending
      modifies this`autoTimer, this`liveIntervals, this`lastHandle
      ensures Valid()
      ensures index == old(activeIndex) || n <= index ==>
        Snap() == old(Snap()) && autoTimer == old(autoTimer) && lastHandle == old(lastHandle) && liveIntervals == old(liveIntervals)
      ensures index != old(activeIndex) && index < n ==>
        && Snap() == DisplayStep(old(Snap()), index, n, layout, cfg)
        && (isAutoActive ==> AutoPlayRestarted(old(lastHandle)))
        && (!isAutoActive ==> autoTimer == old(autoTimer) && lastHandle == old(lastHandle) && liveIntervals == old(liveIntervals))
    {
      if index == activeIndex {
        return;
      }
      var ok := DisplaySlide(index);
      if ok && isAutoActive {
        StartAutoPlayTimer();
      }
    }

    /** The interval callback (scripts.js:743-747): the browser runs only a live interval. */
    method IntervalTick(handle: nat)
      requires Consistent() && handle in liveIntervals
      modifies this`ring, this`activeIndex, this`cycleCounter, this`text, this`posters, this`pending
      ensures Valid()
      ensures Snap() == NextStep(old(Snap()), n, layout, cfg)
    {
      NextSlide();
    }

    /** handleKeyPress (scripts.js:304-315); the result says whether the default action was prevented. */
    method HandleKeyPress(key: string) returns (prevented: bool)
      requires Valid()
      modifies this`ring, this`activeIndex, this`cycleCounter, this`text, this`posters, this`pending
      modifies this`isAutoActive, this`autoTimer, this`liveIntervals, this`lastHandle
      ensures Valid()
      ensures prevented <==> KeyCommand(key).Some?
      ensures KeyCommand(key) == Some(Previous) ==> Snap() == PreviousStep(old(Snap()), n, layout, cfg)
      ensures KeyCommand(key) == Some(Next) ==> Snap() == NextStep(old(Snap()), n, layout, cfg)
      ensures KeyCommand(key) == Some(TogglePlay) ==> Snap() == old(Snap()) && isAutoActive == !old(isAutoActive)
      ensures KeyCommand(key) == Some(TogglePlay) && hasPlayButton ==> AutoPlayRestarted(old(lastHandle))
      ensures KeyCommand(key) == Some(TogglePlay) && !hasPlayButton ==>
        autoTimer == old(autoTimer) && liveIntervals == old(liveIntervals) && lastHandle == old(lastHandle)
      ensures KeyCommand(key) == None ==> Snap() == old(Snap()) && isAutoActive == old(isAutoActive) && autoTimer == old(autoTimer)
      ensures KeyCommand(key) != Some(TogglePlay) ==>
        isAutoActive == old(isAutoActive) && autoTimer == old(autoTimer) && liveIntervals == old(liveIntervals) && lastHandle == old(lastHandle)
    {
      var command := KeyCommand(key);
      prevented := command.Some?;
      match command {
        case Some(Previous) => PreviousSlide();
        case Some(Next) => NextSlide();
        case Some(TogglePlay) => ToggleAutoPlay();
        case None =>
      }
    }

    /** The touchend handler (scripts.js:270-294) for a touch that moved by (dx, dy); the result says whether the default was prevented. */
    method HandleSwipe(dx: int, dy: int) returns (prevented: bool)
      requires Valid()
      modifies this`ring, this`activeIndex, this`cycleCounter, this`text, this`posters, this`pending
      ensures Valid()
      ensures prevented <==> SwipeCommand(dx, dy).Some?
      ensures SwipeCommand(dx, dy) == Some(Previous) ==> Snap() == PreviousStep(old(Snap()), n, layout, cfg)
      ensures SwipeCommand(dx, dy) == Some(Next) ==> Snap() == NextStep(old(Snap()), n, layout, cfg)
      ensures SwipeCommand(dx, dy) == None ==> Snap() == old(Snap())
    {
      var command := SwipeCommand(dx, dy);
      prevented := command.Some?;
      match command {
        case Some(Previous) => PreviousSlide();
        case Some(Next) => NextSlide();
        case _ =>
      }
    }

    /**
     * refreshThumbnailPositions (scripts.js:695-715): the thumbnail-class
     * slides are placed in document order, the j-th of them at slot j.
     */
    method RefreshThumbnailPositions()
      modifies this`posters
      ensures posters == RefreshAllAsWritten(old(posters), layout, cfg)
    {
      ghost var p0 := posters;
      var rank := 0;
      var k := 0;
      while k < |posters|
        invariant k <= |posters| == |p0|
        invariant rank == CountThumbMarked(p0[..k])
        invariant forall j :: 0 <= j < k ==> posters[j] == RefreshedAsWritten(p0, j, layout, cfg)
        invariant forall j :: k <= j < |posters| ==> posters[j] == p0[j]
      {
        CountThumbMarkedStep(p0, k);
        if posters[k].marker == ThumbMark {
          posters := posters[k := RefreshPoster(posters[k], rank, layout, cfg)];
          rank := rank + 1;
        }
        k := k + 1;
      }
    }

    /** The resize and orientationchange handlers (scripts.js:233-249), once their delay has passed. */
    method Resize(vw: int, vh: int)
      requires Valid()
      modifies this`layout, this`posters
      ensures Valid()
      ensures layout == CalculateLayout(vw, vh, cfg, responsive)
      ensures posters == RefreshAllAsWritten(old(posters), layout, cfg)
    {
      layout := CalculateLayout(vw, vh, cfg, responsive);
      RefreshThumbnailPositions();
    }

    /** Pending callback i fires (the browser picks which one comes due). */
    method RunPending(i: nat)
      requires Valid() && i < |pending|
      modifies this`ring, this`activeIndex, this`cycleCounter, this`text, this`posters, this`pending
      modifies this`autoTimer, this`liveIntervals, this`lastHandle
      ensures Valid()
      ensures Snap() == FireTimer(old(Snap()), i, n, layout, cfg)
      ensures old(pending[i].action) == StartAutoPlayLater ==> AutoPlayRestarted(old(lastHandle))
      ensures old(pending[i].action) != StartAutoPlayLater ==>
        autoTimer == old(autoTimer) && liveIntervals == old(liveIntervals) && lastHandle == old(lastHandle)
    {
      var action := pending[i].action;
      FireTimerKeepsStage(Snap(), i, n, layout, cfg);
      FireCallback(i);
      if action == StartAutoPlayLater {
        StartAutoPlayTimer();
      }
    }

    /**
     * What pending callback i does to the slides, the text and the queue;
     * init's delayed startAutoPlayTimer only leaves the queue here.
     */
    method FireCallback(i: nat)
      requires ValidConfig(cfg) && StageOk(Snap(), n) && i < |pending|
      modifies this`ring, this`activeIndex, this`cycleCounter, this`text, this`posters, this`pending
      ensures Snap() == FireTimer(old(Snap()), i, n, layout, cfg)
    {
      var t := pending[i];
      assert TimerFits(t, n);
      WithoutKeepsFit(pending, i, n);
      pending := Without(pending, i);
      match t.action {
        case SwitchTextLater(target, z) =>
          SwitchText(target, z, true);
        case HideTextLater(slot) =>
          text := HideSlot(text, slot);
        case FinishGrowLater(k) =>
          posters := posters[k := FinishGrow(posters[k])];
        case DisplaySlideLater(k) =>
          if k < n {
            DisplayExistingSlide(k);
          }
        case StartAutoPlayLater =>
      }
    }
  }
}
