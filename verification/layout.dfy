/**
 * The responsive layout: calculateLayout picks a breakpoint from the
 * viewport width and derives the thumbnail geometry from it.
 */
module Layout {
  import opened Config

  datatype Breakpoint = Mobile | Tablet | Desktop

  /** layoutCache. The thumbnail-area origin is a real because the source scales the viewport by fractions. */
  datatype Geometry = Geometry(
    thumbAreaX: real,
    thumbAreaY: real,
    entryX: int,
    textOffsetY: int,
    thumbWidth: int,
    thumbHeight: int,
    maxThumbs: int,
    breakpoint: Breakpoint)

  function MinReal(a: real, b: real): real
  {
    if a <= b then a else b
  }

  function MaxReal(a: real, b: real): real
  {
    if a >= b then a else b
  }

  /** `RESPONSIVE_CONFIG.MOBILE_MAX || 768`. */
  function MobileMax(rc: ResponsiveConfig): int
  {
    OrDefault(rc.mobileMax, 768)
  }

  /** `RESPONSIVE_CONFIG.TABLET_MAX || 1024`. */
  function TabletMax(rc: ResponsiveConfig): int
  {
    OrDefault(rc.tabletMax, 1024)
  }

  /** `CAROUSEL_CONFIG.MIN_AREA_OFFSET || 100`. */
  function MinAreaOffset(cfg: CarouselConfig): int
  {
    OrDefault(cfg.minAreaOffset, 100)
  }

  /** calculateLayout (scripts.js:81-129) for a viewport of vw by vh pixels. */
  function CalculateLayout(vw: int, vh: int, cfg: CarouselConfig, rc: ResponsiveConfig): (g: Geometry)
    ensures g.thumbAreaX >= MinAreaOffset(cfg) as real
    ensures g.thumbAreaY >= MinAreaOffset(cfg) as real
  {
    var isMobile := vw <= MobileMax(rc);
    var isTablet := vw > MobileMax(rc) && vw <= TabletMax(rc);
    var thumbWidth :=
      if isMobile then OrDefault(rc.mobileThumbWidth, 120)
      else if isTablet then OrDefault(rc.tabletThumbWidth, 160)
      else cfg.thumbWidth;
    var thumbHeight :=
      if isMobile then OrDefault(rc.mobileThumbHeight, 180)
      else if isTablet then OrDefault(rc.tabletThumbHeight, 240)
      else cfg.thumbHeight;
    var maxThumbs :=
      if isMobile then OrDefault(rc.mobileMaxThumbs, 2)
      else if isTablet then OrDefault(rc.tabletMaxThumbs, 3)
      else cfg.maxVisibleThumbs;
    var thumbAreaRight :=
      if isMobile then MinReal(vw as real * 0.1, 50.0)
      else if isTablet then MinReal(vw as real * 0.15, 200.0)
      else cfg.thumbAreaRight as real;
    var thumbAreaBottom :=
      if isMobile then MinReal(vh as real * 0.25, 200.0)
      else if isTablet then MinReal(vh as real * 0.3, 300.0)
      else cfg.thumbAreaBottom as real;
    Geometry(
      MaxReal(MinAreaOffset(cfg) as real, vw as real - thumbAreaRight),
      MaxReal(MinAreaOffset(cfg) as real, vh as real - thumbAreaBottom),
      vw + 200,
      thumbHeight - 100,
      thumbWidth,
      thumbHeight,
      maxThumbs,
      if isMobile then Mobile else if isTablet then Tablet else Desktop)
  }

  /**
   * Mobile exactly when vw <= MOBILE_MAX, tablet exactly when
   * MOBILE_MAX < vw <= TABLET_MAX, desktop otherwise; each breakpoint takes
   * its own thumbnail size and count; the entry point lies 200px right of
   * the viewport and the caption sits 100px above the thumbnail's bottom.
   */
  lemma LayoutBreakpoints(vw: int, vh: int, cfg: CarouselConfig, rc: ResponsiveConfig)
    ensures var g := CalculateLayout(vw, vh, cfg, rc);
      && (g.breakpoint == Mobile <==> vw <= MobileMax(rc))
      && (g.breakpoint == Tablet <==> MobileMax(rc) < vw <= TabletMax(rc))
      && (g.breakpoint == Desktop <==> MobileMax(rc) < vw && TabletMax(rc) < vw)
      && (g.breakpoint == Mobile ==>
            g.thumbWidth == OrDefault(rc.mobileThumbWidth, 120) && g.thumbHeight == OrDefault(rc.mobileThumbHeight, 180)
            && g.maxThumbs == OrDefault(rc.mobileMaxThumbs, 2))
      && (g.breakpoint == Tablet ==>
            g.thumbWidth == OrDefault(rc.tabletThumbWidth, 160) && g.thumbHeight == OrDefault(rc.tabletThumbHeight, 240)
            && g.maxThumbs == OrDefault(rc.tabletMaxThumbs, 3))
      && (g.breakpoint == Desktop ==>
            g.thumbWidth == cfg.thumbWidth && g.thumbHeight == cfg.thumbHeight && g.maxThumbs == cfg.maxVisibleThumbs)
      && g.entryX == vw + 200 && g.entryX > vw
      && g.textOffsetY == g.thumbHeight - 100
  {
  }

  /**
   * The thumbnail-area origin is the configured distance from the right
   * and bottom edges, pushed in to MIN_AREA_OFFSET when that would put it
   * closer to the left or top edge; on mobile it is at most 50px from the
   * right edge and 200px from the bottom, on tablets 200px and 300px.
   */
  lemma ThumbAreaClamped(vw: int, vh: int, cfg: CarouselConfig, rc: ResponsiveConfig)
    ensures var g := CalculateLayout(vw, vh, cfg, rc);
      && g.thumbAreaX >= MinAreaOffset(cfg) as real
      && g.thumbAreaY >= MinAreaOffset(cfg) as real
      && (g.breakpoint == Desktop ==>
            g.thumbAreaX == MaxReal(MinAreaOffset(cfg) as real, (vw - cfg.thumbAreaRight) as real))
      && (g.breakpoint == Mobile ==> g.thumbAreaX >= vw as real - 50.0 && g.thumbAreaY >= vh as real - 200.0)
      && (g.breakpoint == Tablet ==> g.thumbAreaX >= vw as real - 200.0 && g.thumbAreaY >= vh as real - 300.0)
  {
  }

  /** A setting of 0 behaves exactly like a missing one (the `||` defaults). */
  lemma ZeroMeansDefault(vw: int, vh: int, cfg: CarouselConfig, rc: ResponsiveConfig)
    ensures CalculateLayout(vw, vh, cfg.(minAreaOffset := Set(0)), rc) == CalculateLayout(vw, vh, cfg.(minAreaOffset := Unset), rc)
    ensures CalculateLayout(vw, vh, cfg, rc.(mobileMax := Set(0))) == CalculateLayout(vw, vh, cfg, rc.(mobileMax := Unset))
    ensures CalculateLayout(vw, vh, cfg, rc.(tabletMax := Set(0))) == CalculateLayout(vw, vh, cfg, rc.(tabletMax := Unset))
    ensures CalculateLayout(vw, vh, cfg, rc.(mobileMaxThumbs := Set(0))) == CalculateLayout(vw, vh, cfg, rc.(mobileMaxThumbs := Unset))
    ensures CalculateLayout(vw, vh, cfg, rc.(tabletMaxThumbs := Set(0))) == CalculateLayout(vw, vh, cfg, rc.(tabletMaxThumbs := Unset))
  {
  }

  /** A 500px-wide viewport with the shipped settings is mobile and shows the mobile thumbnail count (3), not the desktop one (4). */
  lemma NarrowViewportIsMobile(vh: int)
    ensures CalculateLayout(500, vh, ShippedConfig, ShippedResponsive).breakpoint == Mobile
    ensures CalculateLayout(500, vh, ShippedConfig, ShippedResponsive).maxThumbs == 3
    ensures CalculateLayout(500, vh, ShippedConfig, ShippedResponsive).thumbWidth == 120
  {
  }
}
