/**
 The dynamic core-clock offset of the advanced GPU control: three components
 read off the current frequency, temperature and power, summed and snapped to
 the smart-rounding grid.
 */
module DynamicOffset {
  import opened Rounding

  datatype AdvancedSettings = AdvancedSettings(
    temperatureMin: i32, temperatureMax: i32,
    plimitMin: i32, plimitMax: i32,
    frequencyMin: i32, frequencyMax: i32,
    freqOffsetMax: i32, freqOffsetMin: i32,
    lowFreqMin: i32, lowFreqMax: i32,
    drainOffsetLMin: i32, drainOffsetLMax: i32,
    highFreqMin: i32, highFreqMax: i32,
    drainOffsetHMin: i32, drainOffsetHMax: i32,
    criticalTempMin: i32, criticalTempMax: i32,
    powerOffsetMax: i32, powerOffsetMin: i32,
    drainOffsetControl: bool,
    powerOffsetControl: bool,
    criticalTempRangeControl: bool,
    smartRoundingThreshold: i32)

  function Clamp01(x: real): real {
    if x < 0.0 then 0.0 else if x > 1.0 then 1.0 else x
  }

  /** Go a fraction `ratio` of the way down from `start` by `drop`. */
  function Slide(start: real, drop: real, ratio: real): real {
    start - ratio * drop
  }

  /** Slow clock: the largest offset. Fast clock: the smallest. Linear in between. */
  function FreqOffset(a: AdvancedSettings, freq: real): real {
    if freq <= a.frequencyMin as real then a.freqOffsetMax as real
    else if freq >= a.frequencyMax as real then a.freqOffsetMin as real
    else
      var ratio := (freq - a.frequencyMin as real) / (Sub32(a.frequencyMax, a.frequencyMin) as real);
      Slide(a.freqOffsetMax as real, Sub32(a.freqOffsetMax, a.freqOffsetMin) as real, ratio)
  }

  /** How far the temperature is into its window, clamped to the window. */
  function TempRatio(a: AdvancedSettings, temp: real): (r: real)
    ensures 0.0 <= r <= 1.0
  {
    var range := Sub32(a.temperatureMax, a.temperatureMin) as real;
    if range > 0.0 then Clamp01((temp - a.temperatureMin as real) / range) else 0.0
  }

  /** The temperature-driven component, keyed by the frequency band. */
  function DrainOffset(a: AdvancedSettings, freq: real, temp: real): real {
    if !a.drainOffsetControl then 0.0 else
    var isHigh := a.highFreqMin as real <= freq <= a.highFreqMax as real;
    var isLow := a.lowFreqMin as real <= freq <= a.lowFreqMax as real;
    if a.criticalTempRangeControl && a.criticalTempMin as real <= temp <= a.criticalTempMax as real then
      if isLow then a.drainOffsetLMin as real
      else if isHigh then a.drainOffsetHMin as real
      else 0.0
    else if temp > a.temperatureMax as real then
      if isLow then a.drainOffsetLMax as real
      else if isHigh then a.drainOffsetHMin as real
      else 0.0
    else if isHigh then
      Slide(a.drainOffsetHMax as real, Sub32(a.drainOffsetHMax, a.drainOffsetHMin) as real, TempRatio(a, temp))
    else
      Slide(a.drainOffsetLMin as real, -(Sub32(a.drainOffsetLMax, a.drainOffsetLMin) as real), TempRatio(a, temp))
  }

  /** Low power draw: the largest offset. High power draw: the smallest. */
  function PowerOffset(a: AdvancedSettings, power: real): real {
    if !a.powerOffsetControl then 0.0
    else if power <= a.plimitMin as real then a.powerOffsetMax as real
    else if power >= a.plimitMax as real then a.powerOffsetMin as real
    else
      var range := Sub32(a.plimitMax, a.plimitMin) as real;
      var ratio := if range > 0.0 then (power - a.plimitMin as real) / range else 0.0;
      Slide(a.powerOffsetMax as real, Sub32(a.powerOffsetMax, a.powerOffsetMin) as real, ratio)
  }

  function TotalOffset(a: AdvancedSettings, freq: real, temp: real, power: real): real {
    FreqOffset(a, freq) + DrainOffset(a, freq, temp) + PowerOffset(a, power)
  }

  /** Snap to the grid: up only from two thirds of a step, down otherwise. */
  function SmartRound(total: real, threshold: i32): real {
    if threshold > 0 then
      var step := threshold as real;
      var multiples := (total / step).Floor as real;
      var remainder := total - multiples * step;
      if remainder >= (2.0 / 3.0) * step then (multiples + 1.0) * step else multiples * step
    else
      total
  }

  /** The offset in MHz the tick wants on the card. */
  function Target(a: AdvancedSettings, freq: real, temp: real, power: real): i32 {
    ToI32(SmartRound(TotalOffset(a, freq, temp, power), a.smartRoundingThreshold))
  }

  // ----- the grid -----

  /** The grid point `k` steps from zero. */
  function GridPoint(k: int, threshold: i32): real {
    k as real * threshold as real
  }

  predicate OnGrid(x: real, threshold: i32)
    requires threshold > 0
  {
    x == GridPoint((x / threshold as real).Floor, threshold)
  }

  lemma GridPointIsOnGrid(k: int, threshold: i32)
    requires threshold > 0
    ensures OnGrid(GridPoint(k, threshold), threshold)
  {
    assert GridPoint(k, threshold) / threshold as real == k as real;
  }

  lemma GridPointsInOrder(i: int, j: int, threshold: i32)
    requires threshold > 0 && i < j
    ensures GridPoint(i, threshold) + threshold as real <= GridPoint(j, threshold)
  {
    ScaleIsMonotone(1.0, (j - i) as real, threshold as real);
    assert (j - i) as real * threshold as real == GridPoint(j, threshold) - GridPoint(i, threshold);
  }

  /** Two grid points closer than a step are the same point. */
  lemma GridPointsAreAStepApart(x: real, y: real, threshold: i32)
    requires threshold > 0 && OnGrid(x, threshold) && OnGrid(y, threshold)
    requires -(threshold as real) < x - y < threshold as real
    ensures x == y
  {
    var i, j := (x / threshold as real).Floor, (y / threshold as real).Floor;
    if i < j {
      GridPointsInOrder(i, j, threshold);
    } else if j < i {
      GridPointsInOrder(j, i, threshold);
    }
  }

  /** The grid cell that holds `total`. */
  lemma GridCell(total: real, threshold: i32)
    requires threshold > 0
    ensures var n := (total / threshold as real).Floor;
            GridPoint(n, threshold) <= total < GridPoint(n + 1, threshold)
  {
    var n := (total / threshold as real).Floor;
    QuotientAtLeast(total, threshold as real, n as real);
    QuotientBelow(total, threshold as real, (n + 1) as real);
  }

  lemma NextGridPoint(k: int, threshold: i32)
    ensures GridPoint(k + 1, threshold) == GridPoint(k, threshold) + threshold as real
  {
    assert (k as real + 1.0) * threshold as real == k as real * threshold as real + threshold as real;
  }

  /** `SmartRound` lands on the grid, in its window around the total. */
  lemma SmartRoundInWindow(total: real, threshold: i32)
    requires threshold > 0
    ensures OnGrid(SmartRound(total, threshold), threshold)
    ensures InWindow(SmartRound(total, threshold), total, threshold)
  {
    var n := (total / threshold as real).Floor;
    GridCell(total, threshold);
    GridPointIsOnGrid(n, threshold);
    GridPointIsOnGrid(n + 1, threshold);
    NextGridPoint(n, threshold);
  }

  /** Above `total - 2T/3`, at most at `total + T/3`. */
  predicate InWindow(m: real, total: real, threshold: i32) {
    total - 2.0 * threshold as real / 3.0 < m <= total + threshold as real / 3.0
  }

  /** The rounded value is the only grid point in the window. */
  lemma SmartRoundIsTheGridPoint(total: real, threshold: i32, m: real)
    requires threshold > 0
    ensures m == SmartRound(total, threshold) <==> OnGrid(m, threshold) && InWindow(m, total, threshold)
  {
    SmartRoundInWindow(total, threshold);
    if OnGrid(m, threshold) && InWindow(m, total, threshold) {
      GridPointsAreAStepApart(m, SmartRound(total, threshold), threshold);
    }
  }

  lemma SmartRoundIsMonotone(t: real, u: real, threshold: i32)
    requires t <= u
    ensures SmartRound(t, threshold) <= SmartRound(u, threshold)
  {
    if threshold > 0 {
      var a, b := SmartRound(t, threshold), SmartRound(u, threshold);
      SmartRoundInWindow(t, threshold);
      SmartRoundInWindow(u, threshold);
      if b < a {
        GridPointsAreAStepApart(a, b, threshold);
      }
    }
  }

  lemma SmartRoundIsIdempotent(total: real, threshold: i32)
    ensures SmartRound(SmartRound(total, threshold), threshold) == SmartRound(total, threshold)
  {
    if threshold > 0 {
      var r := SmartRound(total, threshold);
      SmartRoundInWindow(total, threshold);
      SmartRoundIsTheGridPoint(r, threshold, r);
    }
  }
}
