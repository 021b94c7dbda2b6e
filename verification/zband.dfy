/**
 * The z-index band generator: every displaySlide takes the next value of
 * the cycle counter and derives three stacked layers from it.
 */
module ZBand {
  import opened Common
  import opened Config

  /** The three layers of one transition. */
  datatype ZIndices = ZIndices(oldText: int, growingImage: int, newText: int)

  /** `cycleCounter % Z_INDEX_CYCLE_LENGTH`; the counter is never negative, so JavaScript's `%` and Dafny's agree. */
  function CyclePos(counter: nat, cfg: CarouselConfig): (p: nat)
    requires ValidConfig(cfg)
    ensures p < Abs(cfg.zCycleLength)
  {
    counter % cfg.zCycleLength
  }

  /**
   * The layers calculateZIndices hands out for a counter value
   * (scripts.js:399-407): three consecutive values, old text lowest, and
   * never below Z_INDEX_BASE when the spacing is not negative.
   */
  function Band(counter: nat, cfg: CarouselConfig): (z: ZIndices)
    requires ValidConfig(cfg)
    ensures z.oldText < z.growingImage < z.newText == z.oldText + 2
    ensures 0 <= cfg.zSpacing ==> cfg.zBase <= z.oldText
  {
    var base := cfg.zBase + CyclePos(counter, cfg) * cfg.zSpacing;
    ZIndices(base, base + 1, base + 2)
  }

  /** calculateZIndices runs cleanupOldElements exactly when the cycle position is 1 (scripts.js:409-411). */
  predicate CleanupDue(counter: nat, cfg: CarouselConfig)
    requires ValidConfig(cfg)
    ensures CleanupDue(counter, cfg) ==> 1 < Abs(cfg.zCycleLength)
  {
    CyclePos(counter, cfg) == 1
  }

  lemma MulLeft(a: int, b: int, c: int)
    requires 0 <= a <= b && 0 <= c
    ensures a * c <= b * c
  {
  }

  /**
   * The three layers are strictly ordered (old text under the growing
   * image under the new text) and stay inside
   * [Z_INDEX_BASE, Z_INDEX_BASE + (|Z_INDEX_CYCLE_LENGTH| - 1) * Z_INDEX_SPACING + 2].
   */
  lemma BandOrderedAndBounded(counter: nat, cfg: CarouselConfig)
    requires ValidConfig(cfg) && 0 <= cfg.zSpacing
    ensures var z := Band(counter, cfg);
      && z.oldText < z.growingImage < z.newText
      && cfg.zBase <= z.oldText
      && z.newText <= cfg.zBase + (Abs(cfg.zCycleLength) - 1) * cfg.zSpacing + 2
  {
    MulLeft(CyclePos(counter, cfg), Abs(cfg.zCycleLength) - 1, cfg.zSpacing);
  }

  /** Euclidean remainders are unique. */
  lemma {:induction false} ModUnique(x: int, m: int, q: int, r: int)
    requires 0 < m && 0 <= r < m && x == q * m + r
    ensures x % m == r
  {
    var q', r' := x / m, x % m;
    assert x == q' * m + r';
    assert (q - q') * m == r' - r;
    if q > q' {
      MulLeft(1, q - q', m);
    } else if q < q' {
      MulLeft(1, q' - q, m);
    }
  }

  /**
   * The band repeats with period |Z_INDEX_CYCLE_LENGTH|, so cleanup runs
   * once in every |Z_INDEX_CYCLE_LENGTH| displays.
   */
  lemma {:induction false} BandPeriodic(counter: nat, cfg: CarouselConfig)
    requires ValidConfig(cfg)
    ensures Band(counter + Abs(cfg.zCycleLength), cfg) == Band(counter, cfg)
    ensures CleanupDue(counter + Abs(cfg.zCycleLength), cfg) == CleanupDue(counter, cfg)
  {
    var L := cfg.zCycleLength;
    var m := Abs(L);
    var q, r := counter / L, counter % L;
    assert counter == q * L + r;
    var q' := if L > 0 then q + 1 else q - 1;
    assert counter + m == q' * L + r;
    if L > 0 {
      ModUnique(counter + m, L, q', r);
    } else {
      assert counter + m == (-q') * m + r;
      ModUnique(counter + m, m, -q', r);
      ModUnique(counter, m, -q, r);
      assert (counter + m) % L == (counter + m) % m by { ModNegDivisor(counter + m, L); }
    }
  }

  /** Dafny's remainder by a negative divisor equals the remainder by its magnitude. */
  lemma {:induction false} ModNegDivisor(x: int, L: int)
    requires L < 0
    ensures x % L == x % (-L)
  {
    var r := x % L;
    var q := x / L;
    assert x == q * L + r && 0 <= r < -L;
    assert x == (-q) * (-L) + r;
    ModUnique(x, -L, -q, r);
  }

  /**
   * With the shipped settings every layer lies in 10..40: below the
   * thumbnails' 50 + slot and no higher than the cleanup threshold of 40.
   */
  lemma ShippedBandBelowThumbnails(counter: nat)
    ensures var z := Band(counter, ShippedConfig);
      && 10 <= z.oldText && z.newText <= 40 && z.growingImage < 50
  {
    BandOrderedAndBounded(counter, ShippedConfig);
  }
}
