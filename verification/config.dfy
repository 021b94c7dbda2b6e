/**
 * The knobs the carousel reads from its configuration globals
 * (CAROUSEL_CONFIG and RESPONSIVE_CONFIG), with the values the
 * repository ships in config.js.
 */
module Config {
  import opened Common

  /** A setting the code reads as `setting || fallback`. */
  datatype Knob = Unset | Set(value: int)

  /**
   * `setting || fallback`: JavaScript treats a missing setting and a
   * configured 0 alike, so both give the fallback.
   */
  function OrDefault(k: Knob, fallback: int): (v: int)
    ensures k.Set? && k.value != 0 ==> v == k.value
    ensures !(k.Set? && k.value != 0) ==> v == fallback
  {
    if k.Set? && k.value != 0 then k.value else fallback
  }

  /** CAROUSEL_CONFIG. Times are integer milliseconds. */
  datatype CarouselConfig = CarouselConfig(
    thumbWidth: int,                // THUMB_WIDTH (desktop size)
    thumbHeight: int,               // THUMB_HEIGHT (desktop size)
    thumbSpacing: int,              // THUMB_SPACING
    maxVisibleThumbs: int,          // MAX_VISIBLE_THUMBS
    thumbAreaRight: int,            // THUMB_AREA_RIGHT (desktop)
    thumbAreaBottom: int,           // THUMB_AREA_BOTTOM (desktop)
    minAreaOffset: Knob,            // MIN_AREA_OFFSET, read with `|| 100`
    animationDuration: int,         // ANIMATION_DURATION
    staggerDelayMs: int,            // STAGGER_DELAY, which the source states in seconds
    textSwitchDelay: int,           // TEXT_SWITCH_DELAY
    textHideDelay: int,             // TEXT_HIDE_DELAY
    autoPlayInterval: int,          // AUTO_PLAY_INTERVAL
    autoPlayEnabled: Option<bool>,  // AUTO_PLAY_ENABLED; only an explicit false disables
    zCycleLength: int,              // Z_INDEX_CYCLE_LENGTH
    zBase: int,                     // Z_INDEX_BASE
    zSpacing: int,                  // Z_INDEX_SPACING
    keyboardEnabled: bool           // KEYBOARD_ENABLED, which the controller never reads
  )

  /** The z-index cycle is taken modulo its length, so the length must not be 0 (the source would compute NaN). */
  predicate ValidConfig(cfg: CarouselConfig)
  {
    cfg.zCycleLength != 0
  }

  /** RESPONSIVE_CONFIG: every entry is read with a `||` fallback. */
  datatype ResponsiveConfig = ResponsiveConfig(
    mobileMax: Knob,          // MOBILE_MAX, fallback 768
    tabletMax: Knob,          // TABLET_MAX, fallback 1024
    mobileThumbWidth: Knob,   // fallback 120
    mobileThumbHeight: Knob,  // fallback 180
    mobileMaxThumbs: Knob,    // fallback 2
    tabletThumbWidth: Knob,   // fallback 160
    tabletThumbHeight: Knob,  // fallback 240
    tabletMaxThumbs: Knob     // fallback 3
  )

  /** The CAROUSEL_CONFIG values in config.js. */
  const ShippedConfig := CarouselConfig(
    200, 300, 40, 4, 900, 500, Set(300), 600, 100, 320, 200, 5000, Some(true), 8, 10, 4, true)

  /** The RESPONSIVE_CONFIG values in config.js. */
  const ShippedResponsive := ResponsiveConfig(
    Set(768), Set(1024), Set(120), Set(180), Set(3), Set(160), Set(240), Set(3))

  /** `AUTO_PLAY_ENABLED !== false`: autoplay starts enabled unless explicitly switched off. */
  function InitiallyAutoActive(cfg: CarouselConfig): (on: bool)
    ensures on <==> cfg.autoPlayEnabled != Some(false)
  {
    !(cfg.autoPlayEnabled.Some? && !cfg.autoPlayEnabled.value)
  }
}
