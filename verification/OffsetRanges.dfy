/**
 Where the components of the dynamic offset can go: each stays between its configured
 extremes, and falls with load, exactly when its 32-bit differences allow it. Clocks
 and temperatures are read as whole numbers, the power draw in milliwatts.
 */
module OffsetRanges {
  import opened Rounding
  import opened DynamicOffset

  predicate Between(x: real, p: i32, q: i32) {
    || p as real <= x <= q as real
    || q as real <= x <= p as real
  }

  lemma SlideDown(start: real, drop: real, ratio: real)
    requires 0.0 <= ratio <= 1.0 && 0.0 <= drop
    ensures start - drop <= Slide(start, drop, ratio) <= start
  {
    FractionOfGain(ratio, drop);
  }

  lemma SlideUp(start: real, drop: real, ratio: real)
    requires 0.0 <= ratio <= 1.0 && drop <= 0.0
    ensures start <= Slide(start, drop, ratio) <= start - drop
  {
    FractionOfLoss(ratio, drop);
  }

  lemma SlideBetween(start: i32, end: i32, ratio: real)
    requires 0.0 <= ratio <= 1.0
    ensures Between(Slide(start as real, (start - end) as real, ratio), start, end)
  {
    if start >= end {
      SlideDown(start as real, (start - end) as real, ratio);
    } else {
      SlideUp(start as real, (start - end) as real, ratio);
    }
  }

  // ----- the frequency component -----

  /**
   When the frequency component can be trusted: its window is empty, its extremes
   coincide, no difference wraps, or both wrap and the offsets span at least as much.
   */
  predicate FreqOffsetStays(a: AdvancedSettings) {
    || a.frequencyMin >= a.frequencyMax
    || a.freqOffsetMin == a.freqOffsetMax
    || (SpanFits(a.frequencyMax, a.frequencyMin) && SpanFits(a.freqOffsetMax, a.freqOffsetMin))
    || (!SpanFits(a.frequencyMax, a.frequencyMin) && !SpanFits(a.freqOffsetMax, a.freqOffsetMin)
        && a.frequencyMax - a.frequencyMin <= Distance(a.freqOffsetMax, a.freqOffsetMin))
  }

  function Distance(a: int, b: int): nat {
    if a >= b then a - b else b - a
  }

  lemma FreqStaysAtAllClocks(a: AdvancedSettings, freq: real)
    requires FreqOffsetStays(a)
    ensures Between(FreqOffset(a, freq), a.freqOffsetMin, a.freqOffsetMax)
  {
    if a.frequencyMin as real < freq < a.frequencyMax as real {
      var x := freq - a.frequencyMin as real;
      if SpanFits(a.frequencyMax, a.frequencyMin) {
        FittingWindowStays(a, x);
      } else if a.freqOffsetMin != a.freqOffsetMax {
        var moved := WrappedMove(a, x);
      } else {
        assert FreqOffset(a, freq) == a.freqOffsetMax as real;
      }
    }
  }

  lemma FittingWindowStays(a: AdvancedSettings, x: real)
    requires SpanFits(a.frequencyMax, a.frequencyMin) && 0.0 < x < (a.frequencyMax - a.frequencyMin) as real
    requires SpanFits(a.freqOffsetMax, a.freqOffsetMin)
    ensures Between(FreqOffset(a, a.frequencyMin as real + x), a.freqOffsetMin, a.freqOffsetMax)
  {
    var span := (a.frequencyMax - a.frequencyMin) as real;
    RatioInUnit(x, span);
    SlideBetween(a.freqOffsetMax, a.freqOffsetMin, x / span);
  }

  const TWO32 := 4294967296.0

  /**
   Both spans wrap: the two reversed signs cancel, and the component moves towards
   its other extreme, by `x * room / span`.
   */
  lemma WrappedSlide(a: AdvancedSettings, x: real) returns (moved: real, span: real, room: real)
    requires !SpanFits(a.frequencyMax, a.frequencyMin) && 0.0 < x < (a.frequencyMax - a.frequencyMin) as real
    requires !SpanFits(a.freqOffsetMax, a.freqOffsetMin)
    ensures span == TWO32 - (a.frequencyMax - a.frequencyMin) as real
    ensures room == TWO32 - Distance(a.freqOffsetMax, a.freqOffsetMin) as real
    ensures moved * span == x * room
    ensures FreqOffset(a, a.frequencyMin as real + x) ==
              if a.freqOffsetMax >= a.freqOffsetMin
              then a.freqOffsetMax as real - moved else a.freqOffsetMax as real + moved
  {
    var window, drop := Sub32(a.frequencyMax, a.frequencyMin) as real, Sub32(a.freqOffsetMax, a.freqOffsetMin) as real;
    var ratio := x / window;
    span := -window;
    DivideThenMultiply(x, window);
    ReversedSigns(ratio, window, drop, x);
    if a.freqOffsetMax >= a.freqOffsetMin {
      room, moved := -drop, ratio * drop;
    } else {
      room, moved := drop, -(ratio * drop);
    }
  }

  lemma ReversedSigns(ratio: real, window: real, drop: real, x: real)
    requires ratio * window == x
    ensures ratio * drop * -window == x * -drop && -(ratio * drop) * -window == x * drop
  {
    assert ratio * drop * window == ratio * window * drop;
  }

  /** Where it gets to: inside when the offsets span at least the window, past the end at the top of a wider window. */
  lemma WrappedRange(x: real, d: real, wide: real, moved: real, span: real, room: real)
    requires 0.0 < x < d < TWO32 && 0.0 < wide < TWO32 && span == TWO32 - d && room == TWO32 - wide
    requires moved * span == x * room
    ensures d <= wide ==> 0.0 <= moved <= wide
    ensures d >= wide + 1.0 && x == d - 1.0 ==> moved > wide
  {
    CrossProducts(d, wide, span, room);
    if d <= wide {
      WithinProducts(moved, wide, span, x, d, room);
    } else if d >= wide + 1.0 && x == d - 1.0 {
      AboveProduct(moved, wide, span, d - 1.0, room);
    }
  }

  lemma CrossProducts(d: real, wide: real, span: real, room: real)
    requires span == TWO32 - d && room == TWO32 - wide && 0.0 < wide < TWO32
    ensures d <= wide ==> d * room <= wide * span
    ensures d >= wide + 1.0 ==> (d - 1.0) * room > wide * span
  {
    assert wide * span == wide * TWO32 - wide * d;
    assert d * room == d * TWO32 - d * wide;
  }

  lemma WithinProducts(moved: real, wide: real, span: real, x: real, d: real, room: real)
    requires 0.0 < span && 0.0 < x < d && 0.0 <= room && moved * span == x * room && d * room <= wide * span
    ensures 0.0 <= moved <= wide
  {
    NonNegativeProduct(x, room);
    ScaleIsMonotone(x, d, room);
    if moved < 0.0 {
      MixedProduct(moved, span);
    }
    if moved > wide {
      ScaleIsStrict(wide, moved, span);
    }
  }

  lemma AboveProduct(moved: real, wide: real, span: real, x: real, room: real)
    requires 0.0 < span && moved * span == x * room && x * room > wide * span
    ensures moved > wide
  {
    if moved <= wide {
      ScaleIsMonotone(moved, wide, span);
    }
  }

  lemma SharesInOrder(m: real, n: real, x: real, y: real, span: real, room: real)
    requires 0.0 < span && 0.0 <= room && x <= y && m * span == x * room && n * span == y * room
    ensures m <= n
  {
    ScaleIsMonotone(x, y, room);
    if m > n {
      ScaleIsStrict(n, m, span);
    }
  }

  lemma WrappedMove(a: AdvancedSettings, x: real) returns (moved: real)
    requires !SpanFits(a.frequencyMax, a.frequencyMin) && 0.0 < x < (a.frequencyMax - a.frequencyMin) as real
    requires !SpanFits(a.freqOffsetMax, a.freqOffsetMin)
    ensures FreqOffset(a, a.frequencyMin as real + x) ==
              if a.freqOffsetMax >= a.freqOffsetMin
              then a.freqOffsetMax as real - moved else a.freqOffsetMax as real + moved
    ensures var d, wide := a.frequencyMax - a.frequencyMin, Distance(a.freqOffsetMax, a.freqOffsetMin);
            && (d <= wide ==> 0.0 <= moved <= wide as real)
            && (d > wide && x == d as real - 1.0 ==> moved > wide as real)
  {
    var d, wide := (a.frequencyMax - a.frequencyMin) as real, Distance(a.freqOffsetMax, a.freqOffsetMin) as real;
    var m, span, room := WrappedSlide(a, x);
    WrappedRange(x, d, wide, m, span, room);
    moved := m;
  }

  lemma WrappedOffsetsEscape(a: AdvancedSettings, freq: real)
    requires a.frequencyMin as real < freq < a.frequencyMax as real
    requires SpanFits(a.frequencyMax, a.frequencyMin) && !SpanFits(a.freqOffsetMax, a.freqOffsetMin)
    ensures !Between(FreqOffset(a, freq), a.freqOffsetMin, a.freqOffsetMax)
  {
    var d := (a.frequencyMax - a.frequencyMin) as real;
    var ratio := (freq - a.frequencyMin as real) / d;
    ProperFraction(freq - a.frequencyMin as real, d);
    WrappedDropEscapes(a.freqOffsetMax, a.freqOffsetMin, ratio);
    assert FreqOffset(a, freq)
        == Slide(a.freqOffsetMax as real, Sub32(a.freqOffsetMax, a.freqOffsetMin) as real, ratio);
  }

  lemma WrappedWindowEscapes(a: AdvancedSettings, freq: real)
    requires a.frequencyMin as real < freq < a.frequencyMax as real && a.freqOffsetMin != a.freqOffsetMax
    requires !SpanFits(a.frequencyMax, a.frequencyMin) && SpanFits(a.freqOffsetMax, a.freqOffsetMin)
    ensures !Between(FreqOffset(a, freq), a.freqOffsetMin, a.freqOffsetMax)
  {
    var span := Sub32(a.frequencyMax, a.frequencyMin) as real;
    var ratio := (freq - a.frequencyMin as real) / span;
    NegativeRatio(freq - a.frequencyMin as real, -span);
    BackwardSlideEscapes(a.freqOffsetMax, a.freqOffsetMin, ratio);
    assert FreqOffset(a, freq)
        == Slide(a.freqOffsetMax as real, Sub32(a.freqOffsetMax, a.freqOffsetMin) as real, ratio);
  }

  lemma WrappedTwiceEscapes(a: AdvancedSettings)
    requires !SpanFits(a.frequencyMax, a.frequencyMin) && !SpanFits(a.freqOffsetMax, a.freqOffsetMin)
    requires a.frequencyMax - a.frequencyMin > Distance(a.freqOffsetMax, a.freqOffsetMin)
    ensures !Between(FreqOffset(a, (a.frequencyMax - 1) as real), a.freqOffsetMin, a.freqOffsetMax)
  {
    var x := (a.frequencyMax - a.frequencyMin) as real - 1.0;
    assert a.frequencyMin as real + x == (a.frequencyMax - 1) as real;
    var moved := WrappedMove(a, x);
  }

  lemma NegativeRatio(x: real, p: real)
    requires 0.0 < x && 0.0 < p
    ensures x / -p < 0.0
  {
    assert x / -p == -(x / p);
  }

  lemma ProperFraction(x: real, span: real)
    requires 0.0 < x < span
    ensures 0.0 < x / span <= 1.0
  {
    RatioInUnit(x, span);
    if x / span == 0.0 {
      DivideThenMultiply(x, span);
    }
  }

  /** How far a slide moves, by the signs of its ratio and its drop. */
  lemma SlideMoves(start: real, drop: real, ratio: real) returns (moved: real)
    ensures Slide(start, drop, ratio) == start - moved
    ensures (ratio < 0.0 && drop < 0.0) || (ratio > 0.0 && drop > 0.0) ==> moved > 0.0
    ensures (ratio < 0.0 && drop > 0.0) || (ratio > 0.0 && drop < 0.0) ==> moved < 0.0
  {
    moved := ratio * drop;
    if ratio < 0.0 && drop < 0.0 {
      NegativeProduct(ratio, drop);
    } else if ratio > 0.0 && drop > 0.0 {
      PositiveProduct(ratio, drop);
    } else if ratio < 0.0 && drop > 0.0 {
      MixedProduct(ratio, drop);
    } else if ratio > 0.0 && drop < 0.0 {
      MixedProduct(drop, ratio);
    }
  }

  /** A drop that wrapped has the wrong sign: the slide leaves at the start. */
  lemma WrappedDropEscapes(start: i32, end: i32, ratio: real)
    requires !SpanFits(start, end) && 0.0 < ratio <= 1.0
    ensures !Between(Slide(start as real, Sub32(start, end) as real, ratio), start, end)
  {
    var moved := SlideMoves(start as real, Sub32(start, end) as real, ratio);
  }

  /** So does a slide by a negative ratio. */
  lemma BackwardSlideEscapes(start: i32, end: i32, ratio: real)
    requires SpanFits(start, end) && start != end && ratio < 0.0
    ensures !Between(Slide(start as real, Sub32(start, end) as real, ratio), start, end)
  {
    var moved := SlideMoves(start as real, Sub32(start, end) as real, ratio);
  }

  /** The last whole clock inside the window leaves the range. */
  lemma TopClockEscapes(a: AdvancedSettings)
    requires !FreqOffsetStays(a) && a.frequencyMin + 1 < a.frequencyMax
    ensures !Between(FreqOffset(a, (a.frequencyMax - 1) as real), a.freqOffsetMin, a.freqOffsetMax)
  {
    if SpanFits(a.frequencyMax, a.frequencyMin) {
      WrappedOffsetsEscape(a, (a.frequencyMax - 1) as real);
    } else if SpanFits(a.freqOffsetMax, a.freqOffsetMin) {
      WrappedWindowEscapes(a, (a.frequencyMax - 1) as real);
    } else {
      WrappedTwiceEscapes(a);
    }
  }

  /** Or the window holds no clock that can be read. */
  predicate FreqReadingsStay(a: AdvancedSettings) {
    FreqOffsetStays(a) || a.frequencyMax <= a.frequencyMin + 1 || a.frequencyMax <= 0
  }

  predicate FreqInRange(a: AdvancedSettings, mhz: nat) {
    Between(FreqOffset(a, mhz as real), a.freqOffsetMin, a.freqOffsetMax)
  }

  /** Outside the window the component is one of its extremes. */
  lemma EndOfWindow(a: AdvancedSettings, mhz: int)
    requires mhz <= a.frequencyMin || mhz >= a.frequencyMax
    ensures FreqOffset(a, mhz as real) == (if mhz <= a.frequencyMin then a.freqOffsetMax else a.freqOffsetMin) as real
  {}

  lemma FreqOffsetInRange(a: AdvancedSettings, mhz: nat)
    requires FreqReadingsStay(a)
    ensures FreqInRange(a, mhz)
  {
    if FreqOffsetStays(a) {
      FreqStaysAtAllClocks(a, mhz as real);
    } else {
      EndOfWindow(a, mhz);
    }
  }

  /** The exact condition, for every configuration: the component stays between its extremes at every clock read. */
  lemma FreqOffsetInRangeIff(a: AdvancedSettings)
    ensures (forall mhz: nat :: FreqInRange(a, mhz)) <==> FreqReadingsStay(a)
  {
    if FreqReadingsStay(a) {
      forall mhz: nat
        ensures FreqInRange(a, mhz)
      {
        FreqOffsetInRange(a, mhz);
      }
    } else {
      TopClockEscapes(a);
      assert !FreqInRange(a, a.frequencyMax - 1);
    }
  }

  // ----- the power component -----

  /** A draw of so many milliwatts, in watts. */
  function Watts(milliwatts: nat): real {
    milliwatts as real / 1000.0
  }

  /** A power window that is empty or wraps leaves only end values; otherwise the offset span must fit. */
  predicate PowerOffsetStays(a: AdvancedSettings) {
    || a.plimitMin >= a.plimitMax
    || !SpanFits(a.plimitMax, a.plimitMin)
    || SpanFits(a.powerOffsetMax, a.powerOffsetMin)
  }

  lemma PowerStaysAtAllDraws(a: AdvancedSettings, power: real)
    requires a.powerOffsetControl && PowerOffsetStays(a)
    ensures Between(PowerOffset(a, power), a.powerOffsetMin, a.powerOffsetMax)
  {
    if a.plimitMin as real < power < a.plimitMax as real && SpanFits(a.plimitMax, a.plimitMin) {
      var span := (a.plimitMax - a.plimitMin) as real;
      RatioInUnit(power - a.plimitMin as real, span);
      SlideBetween(a.powerOffsetMax, a.powerOffsetMin, (power - a.plimitMin as real) / span);
    }
  }

  lemma WrappedDrawEscapes(a: AdvancedSettings, power: real)
    requires a.powerOffsetControl && !PowerOffsetStays(a) && a.plimitMin as real < power < a.plimitMax as real
    ensures !Between(PowerOffset(a, power), a.powerOffsetMin, a.powerOffsetMax)
  {
    var span := (a.plimitMax - a.plimitMin) as real;
    var ratio := (power - a.plimitMin as real) / span;
    ProperFraction(power - a.plimitMin as real, span);
    WrappedDropEscapes(a.powerOffsetMax, a.powerOffsetMin, ratio);
  }

  /** Or the window ends before the first draw that can be read. */
  predicate PowerReadingsStay(a: AdvancedSettings) {
    PowerOffsetStays(a) || a.plimitMax <= 0
  }

  lemma PowerOffsetInRange(a: AdvancedSettings, milliwatts: nat)
    requires a.powerOffsetControl && PowerReadingsStay(a)
    ensures Between(PowerOffset(a, Watts(milliwatts)), a.powerOffsetMin, a.powerOffsetMax)
  {
    if PowerOffsetStays(a) {
      PowerStaysAtAllDraws(a, Watts(milliwatts));
    }
  }

  /** The exact condition for the power component. */
  lemma PowerOffsetInRangeIff(a: AdvancedSettings)
    requires a.powerOffsetControl
    ensures (forall milliwatts: nat ::
               Between(PowerOffset(a, Watts(milliwatts)), a.powerOffsetMin, a.powerOffsetMax))
            <==> PowerReadingsStay(a)
  {
    if PowerReadingsStay(a) {
      forall milliwatts: nat
        ensures Between(PowerOffset(a, Watts(milliwatts)), a.powerOffsetMin, a.powerOffsetMax)
      {
        PowerOffsetInRange(a, milliwatts);
      }
    } else {
      var top: nat := 1000 * a.plimitMax - 500;
      assert Watts(top) == a.plimitMax as real - 0.5;
      WrappedDrawEscapes(a, Watts(top));
      assert !Between(PowerOffset(a, Watts(top)), a.powerOffsetMin, a.powerOffsetMax);
    }
  }

  // ----- the drain component -----

  /** The exact condition for one slide between two extremes, as the drain component takes it. */
  lemma SlideBetweenIff(start: i32, end: i32)
    ensures (forall ratio: real :: SlideStays(start, end, ratio)) <==> SpanFits(start, end)
  {
    if SpanFits(start, end) {
      forall ratio: real
        ensures SlideStays(start, end, ratio)
      {
        if 0.0 <= ratio <= 1.0 {
          SlideBetween(start, end, ratio);
        }
      }
    } else {
      WrappedDropEscapes(start, end, 0.5);
      assert !SlideStays(start, end, 0.5);
    }
  }

  predicate SlideStays(start: i32, end: i32, ratio: real) {
    0.0 <= ratio <= 1.0 ==> Between(Slide(start as real, Sub32(start, end) as real, ratio), start, end)
  }

  predicate InHighBand(a: AdvancedSettings, freq: real) {
    a.highFreqMin as real <= freq <= a.highFreqMax as real
  }

  predicate InLowBand(a: AdvancedSettings, freq: real) {
    a.lowFreqMin as real <= freq <= a.lowFreqMax as real
  }

  predicate IsCritical(a: AdvancedSettings, temp: real) {
    a.criticalTempRangeControl && a.criticalTempMin as real <= temp <= a.criticalTempMax as real
  }

  /** The temperature neither is in an active critical range nor above the window. */
  predicate Slides(a: AdvancedSettings, temp: real) {
    !IsCritical(a, temp) && temp <= a.temperatureMax as real
  }

  predicate BetweenHigh(a: AdvancedSettings, x: real) {
    Between(x, a.drainOffsetHMin, a.drainOffsetHMax)
  }

  predicate BetweenLow(a: AdvancedSettings, x: real) {
    Between(x, a.drainOffsetLMin, a.drainOffsetLMax)
  }

  /** The component stays between the extremes of the band that governs it, or is zero when none does. */
  predicate DrainInOwnBand(a: AdvancedSettings, mhz: nat, celsius: nat) {
    var freq, temp := mhz as real, celsius as real;
    var d := DrainOffset(a, freq, temp);
    if !a.drainOffsetControl then d == 0.0
    else if Slides(a, temp) then if InHighBand(a, freq) then BetweenHigh(a, d) else BetweenLow(a, d)
    else if InLowBand(a, freq) then BetweenLow(a, d)
    else if InHighBand(a, freq) then BetweenHigh(a, d)
    else d == 0.0
  }

  /** It is zero or between the extremes of either band. */
  predicate DrainInSomeBand(a: AdvancedSettings, mhz: nat, celsius: nat) {
    var d := DrainOffset(a, mhz as real, celsius as real);
    d == 0.0 || BetweenHigh(a, d) || BetweenLow(a, d)
  }

  /** An active critical range covers the top of the temperature window. */
  predicate TopIsMasked(a: AdvancedSettings) {
    a.criticalTempRangeControl && a.criticalTempMin <= a.temperatureMax <= a.criticalTempMax
  }

  /** The hottest whole temperature that slides. */
  function TopSlideTemp(a: AdvancedSettings): int {
    if TopIsMasked(a) then a.criticalTempMin - 1 else a.temperatureMax
  }

  /** Some temperature that can be read slides by more than nothing. */
  predicate TemperatureMoves(a: AdvancedSettings) {
    SpanFits(a.temperatureMax, a.temperatureMin) && a.temperatureMin < TopSlideTemp(a) && 0 <= TopSlideTemp(a)
  }

  predicate HighBandReadable(a: AdvancedSettings) {
    a.highFreqMin <= a.highFreqMax && 0 <= a.highFreqMax
  }

  /** Off, or never moved by the temperature, or no governing difference wraps. */
  predicate DrainStays(a: AdvancedSettings) {
    || !a.drainOffsetControl
    || !TemperatureMoves(a)
    || (SpanFits(a.drainOffsetLMax, a.drainOffsetLMin)
        && (HighBandReadable(a) ==> SpanFits(a.drainOffsetHMax, a.drainOffsetHMin)))
  }

  /** Without such a temperature the slide stays where it starts. */
  lemma StillTemperature(a: AdvancedSettings, celsius: nat)
    requires !TemperatureMoves(a) && Slides(a, celsius as real)
    ensures TempRatio(a, celsius as real) == 0.0
  {
    assert celsius <= TopSlideTemp(a);
    var range, rise := Sub32(a.temperatureMax, a.temperatureMin) as real, celsius as real - a.temperatureMin as real;
    if range > 0.0 {
      assert rise <= 0.0;
      NotPositiveRatio(rise, range);
    }
  }

  lemma NotPositiveRatio(x: real, span: real)
    requires x <= 0.0 < span
    ensures x / span <= 0.0
  {}

  lemma WholeRatio(x: real, span: real)
    requires x == span && span != 0.0
    ensures x / span == 1.0
  {}

  lemma MovingTemperature(a: AdvancedSettings)
    requires TemperatureMoves(a)
    ensures Slides(a, TopSlideTemp(a) as real)
    ensures 0.0 < TempRatio(a, TopSlideTemp(a) as real)
    ensures !TopIsMasked(a) ==> TempRatio(a, TopSlideTemp(a) as real) == 1.0
  {
    var span, rise := (a.temperatureMax - a.temperatureMin) as real, TopSlideTemp(a) as real - a.temperatureMin as real;
    if rise == span {
      WholeRatio(rise, span);
    } else {
      ProperFraction(rise, span);
    }
  }

  /** A zero ratio leaves the slide at its start. */
  lemma SlideFromStart(start: real, drop: real)
    ensures Slide(start, drop, 0.0) == start
  {}

  lemma DrainStaysInOwnBand(a: AdvancedSettings, mhz: nat, celsius: nat)
    requires DrainStays(a)
    ensures DrainInOwnBand(a, mhz, celsius)
  {
    if a.drainOffsetControl && Slides(a, celsius as real) {
      var ratio := TempRatio(a, celsius as real);
      if !TemperatureMoves(a) {
        StillTemperature(a, celsius);
        SlideFromStart(a.drainOffsetHMax as real, Sub32(a.drainOffsetHMax, a.drainOffsetHMin) as real);
        SlideFromStart(a.drainOffsetLMin as real, -(Sub32(a.drainOffsetLMax, a.drainOffsetLMin) as real));
      } else if InHighBand(a, mhz as real) {
        SlideBetween(a.drainOffsetHMax, a.drainOffsetHMin, ratio);
      } else {
        SlideBetween(a.drainOffsetLMin, a.drainOffsetLMax, ratio);
      }
    }
  }

  /** A clock that can be read in the high band, when there is one. */
  function HighClock(a: AdvancedSettings): (mhz: nat)
    requires HighBandReadable(a)
    ensures InHighBand(a, mhz as real)
  {
    if a.highFreqMin >= 0 then a.highFreqMin else 0
  }

  /** There is always one outside it. */
  function OtherClock(a: AdvancedSettings): (mhz: nat)
    ensures !InHighBand(a, mhz as real)
  {
    if a.highFreqMax >= 0 then a.highFreqMax + 1 else 0
  }

  /** The clock at which a wrapping difference shows. */
  function EscapingClock(a: AdvancedSettings): nat {
    if SpanFits(a.drainOffsetLMax, a.drainOffsetLMin) && HighBandReadable(a) then HighClock(a) else OtherClock(a)
  }

  lemma HighSlideEscapes(a: AdvancedSettings, ratio: real)
    requires !SpanFits(a.drainOffsetHMax, a.drainOffsetHMin) && 0.0 < ratio <= 1.0
    ensures var d := Slide(a.drainOffsetHMax as real, Sub32(a.drainOffsetHMax, a.drainOffsetHMin) as real, ratio);
            !BetweenHigh(a, d) && (ratio == 1.0 ==> !(-0x8000_0000 as real <= d < 0x8000_0000 as real))
  {
    WrappedDropEscapes(a.drainOffsetHMax, a.drainOffsetHMin, ratio);
  }

  lemma LowSlideEscapes(a: AdvancedSettings, ratio: real)
    requires !SpanFits(a.drainOffsetLMax, a.drainOffsetLMin) && 0.0 < ratio <= 1.0
    ensures var d := Slide(a.drainOffsetLMin as real, -(Sub32(a.drainOffsetLMax, a.drainOffsetLMin) as real), ratio);
            !BetweenLow(a, d) && (ratio == 1.0 ==> !(-0x8000_0000 as real <= d < 0x8000_0000 as real))
  {
    var moved := SlideMoves(a.drainOffsetLMin as real, -(Sub32(a.drainOffsetLMax, a.drainOffsetLMin) as real), ratio);
  }

  lemma DrainEscapes(a: AdvancedSettings)
    requires !DrainStays(a)
    ensures var mhz, celsius := EscapingClock(a), TopSlideTemp(a);
            !DrainInOwnBand(a, mhz, celsius) && (!TopIsMasked(a) ==> !DrainInSomeBand(a, mhz, celsius))
  {
    MovingTemperature(a);
    var ratio := TempRatio(a, TopSlideTemp(a) as real);
    if SpanFits(a.drainOffsetLMax, a.drainOffsetLMin) {
      HighSlideEscapes(a, ratio);
    } else {
      LowSlideEscapes(a, ratio);
    }
  }

  /** The exact condition, for every configuration: the component stays in its own band at every reading. */
  lemma DrainInOwnBandIff(a: AdvancedSettings)
    ensures (forall mhz: nat, celsius: nat :: DrainInOwnBand(a, mhz, celsius)) <==> DrainStays(a)
  {
    if DrainStays(a) {
      forall mhz: nat, celsius: nat
        ensures DrainInOwnBand(a, mhz, celsius)
      {
        DrainStaysInOwnBand(a, mhz, celsius);
      }
    } else {
      DrainEscapes(a);
      var mhz: nat, celsius: nat := EscapingClock(a), TopSlideTemp(a);
      assert !DrainInOwnBand(a, mhz, celsius);
    }
  }

  lemma DrainOffsetInRange(a: AdvancedSettings, mhz: nat, celsius: nat)
    requires DrainStays(a)
    ensures DrainInSomeBand(a, mhz, celsius)
  {
    DrainStaysInOwnBand(a, mhz, celsius);
  }

  /** The same condition is exact for either band, unless a critical range hides the top of the temperature window. */
  lemma DrainOffsetInRangeIff(a: AdvancedSettings)
    requires !TopIsMasked(a)
    ensures (forall mhz: nat, celsius: nat :: DrainInSomeBand(a, mhz, celsius)) <==> DrainStays(a)
  {
    if DrainStays(a) {
      forall mhz: nat, celsius: nat
        ensures DrainInSomeBand(a, mhz, celsius)
      {
        DrainOffsetInRange(a, mhz, celsius);
      }
    } else {
      DrainEscapes(a);
      var mhz: nat, celsius: nat := EscapingClock(a), TopSlideTemp(a);
      assert !DrainInSomeBand(a, mhz, celsius);
    }
  }

  // ----- what the components are -----

  /** Linear between `start` at one end and `end` at the other. */
  function Mean(start: i32, end: i32, x: real, span: real): real
    requires span != 0.0
  {
    (start as real * (span - x) + end as real * x) / span
  }

  lemma SlideTimesSpan(start: real, drop: real, x: real, span: real)
    requires span != 0.0
    ensures Slide(start, drop, x / span) * span == start * span - x * drop
  {
    DivideThenMultiply(x, span);
    assert (start - x / span * drop) * span == start * span - x / span * span * drop;
  }

  lemma MeanSum(start: real, end: real, x: real, span: real)
    ensures start * (span - x) + end * x == start * span - x * (start - end)
  {}

  lemma QuotientOf(x: real, span: real, product: real)
    requires span != 0.0 && x * span == product
    ensures product / span == x
  {}

  lemma SlideIsMean(start: i32, end: i32, x: real, span: real)
    requires span != 0.0
    ensures Slide(start as real, (start - end) as real, x / span) == Mean(start, end, x, span)
  {
    SlideTimesSpan(start as real, (start - end) as real, x, span);
    MeanSum(start as real, end as real, x, span);
    QuotientOf(Slide(start as real, (start - end) as real, x / span), span,
               start as real * (span - x) + end as real * x);
  }

  /** The largest offset up to the window, the smallest from its end on, and linear in between. */
  lemma FreqOffsetIs(a: AdvancedSettings, freq: real)
    requires SpanFits(a.frequencyMax, a.frequencyMin) && SpanFits(a.freqOffsetMax, a.freqOffsetMin)
    ensures FreqOffset(a, freq) ==
              if freq <= a.frequencyMin as real then a.freqOffsetMax as real
              else if freq >= a.frequencyMax as real then a.freqOffsetMin as real
              else Mean(a.freqOffsetMax, a.freqOffsetMin,
                        freq - a.frequencyMin as real, (a.frequencyMax - a.frequencyMin) as real)
  {
    if a.frequencyMin as real < freq < a.frequencyMax as real {
      SlideIsMean(a.freqOffsetMax, a.freqOffsetMin,
                  freq - a.frequencyMin as real, (a.frequencyMax - a.frequencyMin) as real);
    }
  }

  lemma PowerOffsetIs(a: AdvancedSettings, power: real)
    requires a.powerOffsetControl
    requires SpanFits(a.plimitMax, a.plimitMin) && SpanFits(a.powerOffsetMax, a.powerOffsetMin)
    ensures PowerOffset(a, power) ==
              if power <= a.plimitMin as real then a.powerOffsetMax as real
              else if power >= a.plimitMax as real then a.powerOffsetMin as real
              else Mean(a.powerOffsetMax, a.powerOffsetMin,
                        power - a.plimitMin as real, (a.plimitMax - a.plimitMin) as real)
  {
    if a.plimitMin as real < power < a.plimitMax as real {
      SlideIsMean(a.powerOffsetMax, a.powerOffsetMin,
                  power - a.plimitMin as real, (a.plimitMax - a.plimitMin) as real);
    }
  }

  /**
   In the critical range the low band takes its minimum, above the window its maximum,
   and the high band its minimum in both; a clock in neither band takes nothing.
   */
  lemma DrainAtTheEdges(a: AdvancedSettings, freq: real, temp: real)
    requires a.drainOffsetControl && !Slides(a, temp)
    ensures DrainOffset(a, freq, temp) ==
              if InLowBand(a, freq) then (if IsCritical(a, temp) then a.drainOffsetLMin else a.drainOffsetLMax) as real
              else if InHighBand(a, freq) then a.drainOffsetHMin as real
              else 0.0
  {}

  /** Otherwise the high band falls from its maximum to its minimum over the window, and any other clock rises. */
  lemma DrainInTheWindow(a: AdvancedSettings, freq: real, temp: real)
    requires a.drainOffsetControl && Slides(a, temp) && SpanFits(a.temperatureMax, a.temperatureMin)
    requires SpanFits(a.drainOffsetHMax, a.drainOffsetHMin) && SpanFits(a.drainOffsetLMax, a.drainOffsetLMin)
    ensures var x, span := temp - a.temperatureMin as real, (a.temperatureMax - a.temperatureMin) as real;
            DrainOffset(a, freq, temp) ==
              if InHighBand(a, freq) then
                if x <= 0.0 then a.drainOffsetHMax as real else Mean(a.drainOffsetHMax, a.drainOffsetHMin, x, span)
              else
                if x <= 0.0 then a.drainOffsetLMin as real else Mean(a.drainOffsetLMin, a.drainOffsetLMax, x, span)
  {
    var x, span := temp - a.temperatureMin as real, (a.temperatureMax - a.temperatureMin) as real;
    var ratio := TempRatio(a, temp);
    if x <= 0.0 {
      if span > 0.0 {
        NotPositiveRatio(x, span);
      }
      assert ratio == 0.0;
      SlideFromStart(a.drainOffsetHMax as real, Sub32(a.drainOffsetHMax, a.drainOffsetHMin) as real);
      SlideFromStart(a.drainOffsetLMin as real, -(Sub32(a.drainOffsetLMax, a.drainOffsetLMin) as real));
    } else {
      RatioInUnit(x, span);
      assert ratio == x / span;
      SlideIsMean(a.drainOffsetHMax, a.drainOffsetHMin, x, span);
      SlideIsMean(a.drainOffsetLMin, a.drainOffsetLMax, x, span);
    }
  }

  /** The components add up: with both switches off the total is the frequency component, and each adds its own. */
  lemma ComponentsAddUp(a: AdvancedSettings, freq: real, temp: real, power: real)
    ensures var bare := a.(drainOffsetControl := false, powerOffsetControl := false);
            TotalOffset(bare, freq, temp, power) == FreqOffset(a, freq)
    ensures TotalOffset(a, freq, temp, power) - TotalOffset(a.(drainOffsetControl := false), freq, temp, power)
         == DrainOffset(a, freq, temp)
    ensures TotalOffset(a, freq, temp, power) - TotalOffset(a.(powerOffsetControl := false), freq, temp, power)
         == PowerOffset(a, power)
    ensures !a.drainOffsetControl ==> DrainOffset(a, freq, temp) == 0.0
    ensures !a.powerOffsetControl ==> PowerOffset(a, power) == 0.0
  {}

  lemma GridPointIsWhole(k: int, threshold: i32)
    ensures GridPoint(k, threshold) == (k * threshold) as real
  {}

  lemma WholeFits(k: int)
    requires -0x8000_0000 <= k < 0x8000_0000
    ensures ToI32(k as real) == k
  {}

  /** A rounded total that fits 32 bits is written as it is. */
  lemma RoundedTotalFits(total: real, step: i32)
    requires step > 0 && -2147483648.0 <= SmartRound(total, step) <= 2147483647.0
    ensures ToI32(SmartRound(total, step)) as real == SmartRound(total, step)
  {
    var rounded := SmartRound(total, step);
    var k := (rounded / step as real).Floor;
    assert rounded == GridPoint(k, step) by {
      SmartRoundInWindow(total, step);
    }
    GridPointIsWhole(k, step);
    WholeFits(k * step);
  }

  /** The written offset is the grid point itself whenever that fits 32 bits, and the integer part without a grid. */
  lemma TargetIsTheRoundedTotal(a: AdvancedSettings, freq: real, temp: real, power: real)
    ensures var total, step := TotalOffset(a, freq, temp, power), a.smartRoundingThreshold;
            var rounded, target := SmartRound(total, step), Target(a, freq, temp, power);
            && (step > 0 && -2147483648.0 <= rounded <= 2147483647.0 ==> target as real == rounded)
            && (step <= 0 && 0.0 <= total < 2147483648.0 ==> target as real <= total < target as real + 1.0)
            && (step <= 0 && -2147483648.0 < total <= 0.0 ==> target as real - 1.0 < total <= target as real)
  {
    var total, step := TotalOffset(a, freq, temp, power), a.smartRoundingThreshold;
    if step > 0 {
      if -2147483648.0 <= SmartRound(total, step) <= 2147483647.0 {
        RoundedTotalFits(total, step);
      }
    } else {
      ToI32IsTheIntegerPart(total, ToI32(total));
    }
  }

  // ----- more load never raises the offset -----

  lemma SlideAntitone(start: real, drop: real, x: real, y: real, span: real)
    requires 0.0 <= drop && x <= y && 0.0 < span
    ensures Slide(start, drop, y / span) <= Slide(start, drop, x / span)
  {
    RatioIsMonotone(x, y, span);
    ScaleIsMonotone(x / span, y / span, drop);
  }

  /** Inside a window that wraps together with its offsets, the component still only falls. */
  lemma WrappedTwiceFalls(a: AdvancedSettings, x: real, y: real)
    requires !SpanFits(a.frequencyMax, a.frequencyMin) && !SpanFits(a.freqOffsetMax, a.freqOffsetMin)
    requires a.freqOffsetMin <= a.freqOffsetMax && 0.0 < x <= y < (a.frequencyMax - a.frequencyMin) as real
    ensures FreqOffset(a, a.frequencyMin as real + y) <= FreqOffset(a, a.frequencyMin as real + x)
  {
    var m, span, room := WrappedSlide(a, x);
    var n, span', room' := WrappedSlide(a, y);
    SharesInOrder(m, n, x, y, span, room);
  }

  lemma FreqFallsAtAllClocks(a: AdvancedSettings, f: real, g: real)
    requires FreqOffsetStays(a) && a.freqOffsetMin <= a.freqOffsetMax && f <= g
    ensures FreqOffset(a, g) <= FreqOffset(a, f)
  {
    FreqStaysAtAllClocks(a, f);
    FreqStaysAtAllClocks(a, g);
    if a.frequencyMin as real < f && g < a.frequencyMax as real && a.freqOffsetMin < a.freqOffsetMax {
      var x, y := f - a.frequencyMin as real, g - a.frequencyMin as real;
      if SpanFits(a.frequencyMax, a.frequencyMin) {
        SlideAntitone(a.freqOffsetMax as real, (a.freqOffsetMax - a.freqOffsetMin) as real,
                      x, y, (a.frequencyMax - a.frequencyMin) as real);
      } else {
        WrappedTwiceFalls(a, x, y);
      }
    }
  }

  /** With one sign reversed the slide rises. */
  lemma ReversedSlideRises(start: real, drop: real, x: real, y: real, span: real)
    requires x < y && ((span > 0.0 && drop < 0.0) || (span < 0.0 && drop > 0.0))
    ensures Slide(start, drop, x / span) < Slide(start, drop, y / span)
  {
    StrictRatio(x, y, span);
    if span > 0.0 {
      StrictLoss(x / span, y / span, drop);
    } else {
      ScaleIsStrict(y / span, x / span, drop);
    }
  }

  lemma StrictRatio(x: real, y: real, span: real)
    requires x < y && span != 0.0
    ensures span > 0.0 ==> x / span < y / span
    ensures span < 0.0 ==> y / span < x / span
  {
    DivideThenMultiply(x, span);
    DivideThenMultiply(y, span);
    OrderOfFactors(x / span, y / span, span);
  }

  lemma OrderOfFactors(r: real, t: real, k: real)
    requires r * k < t * k
    ensures (k > 0.0 ==> r < t) && (k < 0.0 ==> t < r)
  {
    if k > 0.0 && r >= t {
      ScaleIsMonotone(t, r, k);
    } else if k < 0.0 && t >= r {
      StrictLossOrEqual(r, t, k);
    }
  }

  lemma StrictLoss(r: real, t: real, k: real)
    requires r < t && k < 0.0
    ensures r * k > t * k
  {
    MixedProduct(k, t - r);
    assert (t - r) * k == t * k - r * k;
  }

  lemma StrictLossOrEqual(r: real, t: real, k: real)
    requires r <= t && k < 0.0
    ensures r * k >= t * k
  {
    if r < t {
      StrictLoss(r, t, k);
    }
  }

  /** With one difference wrapped the component rises through its window. */
  lemma WrappedOnceRises(a: AdvancedSettings, f: real, g: real)
    requires a.frequencyMin as real < f < g < a.frequencyMax as real && a.freqOffsetMin < a.freqOffsetMax
    requires SpanFits(a.frequencyMax, a.frequencyMin) != SpanFits(a.freqOffsetMax, a.freqOffsetMin)
    ensures FreqOffset(a, f) < FreqOffset(a, g)
  {
    ReversedSlideRises(a.freqOffsetMax as real, Sub32(a.freqOffsetMax, a.freqOffsetMin) as real,
                       f - a.frequencyMin as real, g - a.frequencyMin as real,
                       Sub32(a.frequencyMax, a.frequencyMin) as real);
  }

  /**
   When a faster clock never raises the component: it stays in range, or clock 0 is
   the only one that can be read inside the window and lies above the range.
   */
  predicate FreqReadingsFall(a: AdvancedSettings) {
    || FreqReadingsStay(a)
    || (a.frequencyMin < 0 && a.frequencyMax == 1
        && (SpanFits(a.frequencyMax, a.frequencyMin) || SpanFits(a.freqOffsetMax, a.freqOffsetMin)))
  }

  lemma FreqOffsetAntitone(a: AdvancedSettings, f: nat, g: nat)
    requires FreqReadingsFall(a) && a.freqOffsetMin <= a.freqOffsetMax && f <= g
    ensures FreqOffset(a, g as real) <= FreqOffset(a, f as real)
  {
    if FreqOffsetStays(a) {
      FreqFallsAtAllClocks(a, f as real, g as real);
    } else if FreqReadingsStay(a) {
      EndOfWindow(a, f);
      EndOfWindow(a, g);
    } else if g > 0 {
      EndOfWindow(a, g);
      if f > 0 {
        EndOfWindow(a, f);
      } else {
        OneWrapLeavesAbove(a, f as real);
      }
    }
  }

  lemma OneWrapLeavesAbove(a: AdvancedSettings, freq: real)
    requires a.frequencyMin as real < freq < a.frequencyMax as real && a.freqOffsetMin < a.freqOffsetMax
    requires SpanFits(a.frequencyMax, a.frequencyMin) != SpanFits(a.freqOffsetMax, a.freqOffsetMin)
    ensures FreqOffset(a, freq) > a.freqOffsetMax as real
  {
    var span, drop := Sub32(a.frequencyMax, a.frequencyMin) as real, Sub32(a.freqOffsetMax, a.freqOffsetMin) as real;
    ReversedSlideRises(a.freqOffsetMax as real, drop, 0.0, freq - a.frequencyMin as real, span);
    assert 0.0 / span == 0.0;
    SlideFromStart(a.freqOffsetMax as real, drop);
  }

  predicate FallsBetween(a: AdvancedSettings, f: nat, g: nat) {
    f <= g ==> FreqOffset(a, g as real) <= FreqOffset(a, f as real)
  }

  /** The exact condition over the clocks that can be read. */
  lemma FreqOffsetAntitoneIff(a: AdvancedSettings)
    requires a.freqOffsetMin <= a.freqOffsetMax
    ensures (forall f: nat, g: nat :: FallsBetween(a, f, g)) <==> FreqReadingsFall(a)
  {
    if FreqReadingsFall(a) {
      forall f: nat, g: nat
        ensures FallsBetween(a, f, g)
      {
        if f <= g {
          FreqOffsetAntitone(a, f, g);
        }
      }
    } else {
      var f, g := RisingClocks(a);
      assert !FallsBetween(a, f, g);
    }
  }

  lemma RisingClocks(a: AdvancedSettings) returns (f: nat, g: nat)
    requires a.freqOffsetMin <= a.freqOffsetMax && !FreqReadingsFall(a)
    ensures f <= g && FreqOffset(a, g as real) > FreqOffset(a, f as real)
  {
    if !SpanFits(a.frequencyMax, a.frequencyMin) && !SpanFits(a.freqOffsetMax, a.freqOffsetMin) {
      f, g := a.frequencyMax - 1, a.frequencyMax;
      var x := (a.frequencyMax - a.frequencyMin) as real - 1.0;
      assert a.frequencyMin as real + x == (a.frequencyMax - 1) as real;
      var moved := WrappedMove(a, x);
    } else if a.frequencyMin >= 0 {
      f, g := a.frequencyMin, a.frequencyMax - 1;
      OneWrapLeavesAbove(a, g as real);
    } else {
      f, g := a.frequencyMax - 2, a.frequencyMax - 1;
      WrappedOnceRises(a, f as real, g as real);
    }
  }

  lemma PowerFallsAtAllDraws(a: AdvancedSettings, p: real, q: real)
    requires PowerOffsetStays(a) && a.powerOffsetMin <= a.powerOffsetMax && p <= q
    ensures PowerOffset(a, q) <= PowerOffset(a, p)
  {
    if a.powerOffsetControl {
      PowerStaysAtAllDraws(a, p);
      PowerStaysAtAllDraws(a, q);
      if a.plimitMin as real < p && q < a.plimitMax as real && SpanFits(a.plimitMax, a.plimitMin) {
        SlideAntitone(a.powerOffsetMax as real, (a.powerOffsetMax - a.powerOffsetMin) as real,
                      p - a.plimitMin as real, q - a.plimitMin as real,
                      (a.plimitMax - a.plimitMin) as real);
      }
    }
  }

  lemma PowerOffsetAntitone(a: AdvancedSettings, p: nat, q: nat)
    requires (a.powerOffsetControl ==> PowerReadingsStay(a) && a.powerOffsetMin <= a.powerOffsetMax) && p <= q
    ensures PowerOffset(a, Watts(q)) <= PowerOffset(a, Watts(p))
  {
    if a.powerOffsetControl && PowerOffsetStays(a) {
      PowerFallsAtAllDraws(a, Watts(p), Watts(q));
    }
  }

  predicate DrawFallsBetween(a: AdvancedSettings, p: nat, q: nat) {
    p <= q ==> PowerOffset(a, Watts(q)) <= PowerOffset(a, Watts(p))
  }

  /** The exact condition over the draws that can be read. */
  lemma PowerOffsetAntitoneIff(a: AdvancedSettings)
    requires a.powerOffsetControl && a.powerOffsetMin <= a.powerOffsetMax
    ensures (forall p: nat, q: nat :: DrawFallsBetween(a, p, q)) <==> PowerReadingsStay(a)
  {
    if PowerReadingsStay(a) {
      forall p: nat, q: nat
        ensures DrawFallsBetween(a, p, q)
      {
        if p <= q {
          PowerOffsetAntitone(a, p, q);
        }
      }
    } else {
      var p: nat, q: nat := 1000 * a.plimitMax - 750, 1000 * a.plimitMax - 500;
      assert Watts(p) == a.plimitMax as real - 0.75 && Watts(q) == a.plimitMax as real - 0.5;
      ReversedSlideRises(a.powerOffsetMax as real, Sub32(a.powerOffsetMax, a.powerOffsetMin) as real,
                         Watts(p) - a.plimitMin as real, Watts(q) - a.plimitMin as real,
                         (a.plimitMax - a.plimitMin) as real);
      assert !DrawFallsBetween(a, p, q);
    }
  }

  predicate TotalFallsBetween(a: AdvancedSettings, f: nat, g: nat, p: nat, q: nat) {
    f <= g && p <= q ==>
      TotalOffset(a, g as real, 0.0, Watts(q)) <= TotalOffset(a, f as real, 0.0, Watts(p))
  }

  /** The exact condition for the total, with the drain component off. */
  lemma TotalOffsetAntitoneIff(a: AdvancedSettings)
    requires !a.drainOffsetControl && a.freqOffsetMin <= a.freqOffsetMax
    requires a.powerOffsetControl ==> a.powerOffsetMin <= a.powerOffsetMax
    ensures (forall f: nat, g: nat, p: nat, q: nat :: TotalFallsBetween(a, f, g, p, q))
            <==> FreqReadingsFall(a) && (a.powerOffsetControl ==> PowerReadingsStay(a))
  {
    if FreqReadingsFall(a) && (a.powerOffsetControl ==> PowerReadingsStay(a)) {
      forall f: nat, g: nat, p: nat, q: nat
        ensures TotalFallsBetween(a, f, g, p, q)
      {
        if f <= g && p <= q {
          FreqOffsetAntitone(a, f, g);
          PowerOffsetAntitone(a, p, q);
        }
      }
    } else if !FreqReadingsFall(a) {
      var f, g := RisingClocks(a);
      assert !TotalFallsBetween(a, f, g, 0, 0);
    } else {
      PowerOffsetAntitoneIff(a);
      var p: nat, q: nat :| !DrawFallsBetween(a, p, q);
      assert !TotalFallsBetween(a, 0, 0, p, q);
    }
  }

  /** With the drain component off, a faster clock or a higher draw never raises the written offset. */
  lemma TargetAntitone(a: AdvancedSettings, f: nat, g: nat, s: real, t: real, p: nat, q: nat)
    requires !a.drainOffsetControl && FreqReadingsFall(a) && a.freqOffsetMin <= a.freqOffsetMax
    requires a.powerOffsetControl ==> PowerReadingsStay(a) && a.powerOffsetMin <= a.powerOffsetMax
    requires f <= g && p <= q
    ensures Target(a, g as real, t, Watts(q)) <= Target(a, f as real, s, Watts(p))
  {
    FreqOffsetAntitone(a, f, g);
    PowerOffsetAntitone(a, p, q);
    var u, v := TotalOffset(a, g as real, t, Watts(q)), TotalOffset(a, f as real, s, Watts(p));
    SmartRoundIsMonotone(u, v, a.smartRoundingThreshold);
    ToI32IsMonotone(SmartRound(u, a.smartRoundingThreshold), SmartRound(v, a.smartRoundingThreshold));
  }

  // ----- concrete escapes -----

  /** A frequency window of 2^32 - 1 MHz wraps to a span of -1. */
  lemma WrappedSpanEscapes(a: AdvancedSettings)
    requires a.frequencyMin == -0x8000_0000 && a.frequencyMax == 0x7fff_ffff
    requires a.freqOffsetMin == 0 && a.freqOffsetMax == 1
    ensures !FreqReadingsStay(a)
    ensures FreqOffset(a, 0.0) == 1.0 + 2147483648.0
  {}

  /** Drain extremes 2^32 - 1 MHz apart: at the top of the temperature window the component is 2^31. */
  lemma WrappedDrainEscapes(a: AdvancedSettings)
    requires a.drainOffsetControl && !a.criticalTempRangeControl
    requires a.temperatureMin == 0 && a.temperatureMax == 100 && a.highFreqMin == 0 && a.highFreqMax == 3000
    requires a.drainOffsetHMin == -0x8000_0000 && a.drainOffsetHMax == 0x7fff_ffff
    ensures !DrainStays(a)
    ensures DrainOffset(a, 1000.0, 100.0) == 2147483648.0
  {
    assert TempRatio(a, 100.0) == 1.0;
  }
}
