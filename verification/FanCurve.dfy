/** The fan curve: piecewise-linear interpolation of speed over temperature. */
module FanCurve {
  import opened Rounding
  import opened Common

  datatype Point = Point(temp: byte, speed: byte)

  const FALLBACK: byte := 50

  /** The first segment whose right end the temperature does not pass. */
  function Segment(points: seq<Point>, temp: real, i: nat): (r: nat)
    requires i + 1 < |points|
    requires points[i].temp as real < temp < points[|points| - 1].temp as real
    ensures i <= r && r + 1 < |points|
    ensures points[r].temp as real < temp <= points[r + 1].temp as real
    ensures forall k :: i <= k <= r ==> points[k].temp as real < temp
    decreases |points| - i
  {
    if temp <= points[i + 1].temp as real then i else Segment(points, temp, i + 1)
  }

  /** The value at `x` on the line that starts at `a` and gains `gain` over `span`. */
  function Line(a: real, gain: real, x: real, span: real): real
    requires span != 0.0
  {
    a + x / span * gain
  }

  lemma LineRises(a: real, gain: real, x: real, span: real)
    requires 0.0 <= x <= span && 0.0 < span && 0.0 <= gain
    ensures a <= Line(a, gain, x, span) <= a + gain
  {
    RatioInUnit(x, span);
    FractionOfGain(x / span, gain);
  }

  lemma LineFalls(a: real, gain: real, x: real, span: real)
    requires 0.0 <= x <= span && 0.0 < span && gain <= 0.0
    ensures a + gain <= Line(a, gain, x, span) <= a
  {
    RatioInUnit(x, span);
    FractionOfLoss(x / span, gain);
  }

  lemma LineIsMonotone(a: real, gain: real, x: real, y: real, span: real)
    requires x <= y && 0.0 < span && 0.0 <= gain
    ensures Line(a, gain, x, span) <= Line(a, gain, y, span)
  {
    RatioIsMonotone(x, y, span);
    ScaleIsMonotone(x / span, y / span, gain);
  }

  /** The speed on a rising segment, before rounding. */
  function Interpolate(p: Point, q: Point, temp: real): real
    requires p.temp < q.temp
  {
    Line(p.speed as real, (q.speed - p.speed) as real, temp - p.temp as real, (q.temp - p.temp) as real)
  }

  lemma InterpolateBetween(p: Point, q: Point, temp: real)
    requires p.temp as real < temp <= q.temp as real
    ensures p.speed <= q.speed ==> p.speed as real <= Interpolate(p, q, temp) <= q.speed as real
    ensures q.speed <= p.speed ==> q.speed as real <= Interpolate(p, q, temp) <= p.speed as real
    ensures 0 <= Round(Interpolate(p, q, temp)) < 256
  {
    var gain, x, span := (q.speed - p.speed) as real, temp - p.temp as real, (q.temp - p.temp) as real;
    if p.speed <= q.speed {
      LineRises(p.speed as real, gain, x, span);
    } else {
      LineFalls(p.speed as real, gain, x, span);
    }
  }

  /** The speed at a temperature strictly inside the curve. */
  function InnerSpeed(points: seq<Point>, temp: real): (speed: byte)
    requires |points| >= 2 && points[0].temp as real < temp < points[|points| - 1].temp as real
  {
    var i := Segment(points, temp, 0);
    InterpolateBetween(points[i], points[i + 1], temp);
    Round(Interpolate(points[i], points[i + 1], temp))
  }

  function CurveAt(points: seq<Point>, temp: real): byte {
    if points == [] then FALLBACK
    else if |points| == 1 then points[0].speed
    else if temp <= points[0].temp as real then points[0].speed
    else if temp >= points[|points| - 1].temp as real then points[|points| - 1].speed
    else InnerSpeed(points, temp)
  }

  /** The search loop. It always finds its segment, and the segment it finds rises in temperature. */
  method CalculateFanSpeed(points: seq<Point>, temp: real) returns (speed: byte)
    ensures speed == CurveAt(points, temp)
  {
    if |points| == 0 {
      return FALLBACK;
    }
    if |points| == 1 || temp <= points[0].temp as real {
      return points[0].speed;
    }
    if temp >= points[|points| - 1].temp as real {
      return points[|points| - 1].speed;
    }
    speed := FALLBACK;
    var i := 0;
    while i + 1 < |points|
      invariant i < |points| && points[i].temp as real < temp
      invariant i + 1 < |points| ==> Segment(points, temp, i) == Segment(points, temp, 0)
    {
      var p, q := points[i], points[i + 1];
      if p.temp as real <= temp <= q.temp as real {
        InterpolateBetween(p, q, temp);
        return Round(Interpolate(p, q, temp));
      }
      i := i + 1;
    }
    assert false;  // the last point is hotter than `temp`, so some segment held it
  }

  // ----- properties, for any list of points -----

  /** Strictly inside the curve the fallback is never taken: the result lies between the speeds of two neighbours. */
  lemma SpeedBetweenNeighbours(points: seq<Point>, temp: real)
    requires |points| >= 2 && points[0].temp as real < temp < points[|points| - 1].temp as real
    ensures exists i :: 0 <= i && i + 1 < |points| && Brackets(points[i], points[i + 1], temp, CurveAt(points, temp))
  {
    var i := Segment(points, temp, 0);
    var p, q := points[i], points[i + 1];
    InterpolateBetween(p, q, temp);
    var (lo, hi) := if p.speed <= q.speed then (p.speed, q.speed) else (q.speed, p.speed);
    RoundOfInteger(p.speed);
    RoundOfInteger(q.speed);
    RoundIsMonotone(lo as real, Interpolate(p, q, temp));
    RoundIsMonotone(Interpolate(p, q, temp), hi as real);
    assert Brackets(p, q, temp, CurveAt(points, temp));
  }

  predicate Brackets(p: Point, q: Point, temp: real, speed: byte) {
    && p.temp as real < temp <= q.temp as real
    && (p.speed <= speed <= q.speed || q.speed <= speed <= p.speed)
  }

  /** The curve passes through a point that lies right of everything before it. */
  lemma CurveThroughPoints(points: seq<Point>, k: nat)
    requires k < |points| && |points| >= 2
    requires forall j :: 0 <= j < k ==> points[j].temp < points[k].temp
    requires k + 1 == |points| || points[k].temp < points[|points| - 1].temp
    ensures CurveAt(points, points[k].temp as real) == points[k].speed
  {
    var temp := points[k].temp as real;
    if 0 < k && k + 1 < |points| {
      var i := Segment(points, temp, 0);
      assert i + 1 == k;
      var p, q := points[i], points[k];
      assert (temp - p.temp as real) / (q.temp - p.temp) as real == 1.0;
      assert Interpolate(p, q, temp) == q.speed as real;
      RoundOfInteger(q.speed);
    }
  }

  predicate SpeedsNeverFall(points: seq<Point>) {
    forall i, j :: 0 <= i < j < |points| ==> points[i].speed <= points[j].speed
  }

  lemma InnerSpeedIsMonotone(points: seq<Point>, t: real, u: real)
    requires |points| >= 2 && SpeedsNeverFall(points) && t <= u
    requires points[0].temp as real < t && u < points[|points| - 1].temp as real
    ensures InnerSpeed(points, t) <= InnerSpeed(points, u)
  {
    var i, j := Segment(points, t, 0), Segment(points, u, 0);
    var x, y := Interpolate(points[i], points[i + 1], t), Interpolate(points[j], points[j + 1], u);
    InterpolateBetween(points[i], points[i + 1], t);
    InterpolateBetween(points[j], points[j + 1], u);
    if i == j {
      var p, q := points[i], points[i + 1];
      LineIsMonotone(p.speed as real, (q.speed - p.speed) as real,
                     t - p.temp as real, u - p.temp as real, (q.temp - p.temp) as real);
    } else {
      assert i < j;
      assert i + 1 == j || points[i + 1].speed <= points[j].speed;
    }
    RoundIsMonotone(x, y);
  }

  /** With speeds that never fall along the list, a hotter reading never slows the fan. */
  lemma HotterIsNeverSlower(points: seq<Point>, t: real, u: real)
    requires SpeedsNeverFall(points) && t <= u
    ensures CurveAt(points, t) <= CurveAt(points, u)
  {
    if |points| >= 2 {
      var first, last := points[0], points[|points| - 1];
      if first.temp as real < t && u < last.temp as real {
        InnerSpeedIsMonotone(points, t, u);
      } else if t <= first.temp as real && first.temp as real < u < last.temp as real {
        InnerInRange(points, u);
      } else if first.temp as real < t < last.temp as real {
        InnerInRange(points, t);
      }
    }
  }

  lemma InnerInRange(points: seq<Point>, temp: real)
    requires |points| >= 2 && SpeedsNeverFall(points)
    requires points[0].temp as real < temp < points[|points| - 1].temp as real
    ensures points[0].speed <= InnerSpeed(points, temp) <= points[|points| - 1].speed
  {
    SpeedBetweenNeighbours(points, temp);
    var i :| 0 <= i && i + 1 < |points| && Brackets(points[i], points[i + 1], temp, CurveAt(points, temp));
    assert points[i].speed <= points[i + 1].speed;
    assert i == 0 || points[0].speed <= points[i].speed;
    assert i + 1 == |points| - 1 || points[i + 1].speed <= points[|points| - 1].speed;
  }

  // ----- the interpolation itself -----

  /** The points `k` and `k + 1` enclose the temperature. */
  predicate Encloses(points: seq<Point>, k: nat, temp: real)
    requires k + 1 < |points|
  {
    points[k].temp as real <= temp <= points[k + 1].temp as real
  }

  predicate FirstEnclosing(points: seq<Point>, i: nat, temp: real) {
    && i + 1 < |points| && Encloses(points, i, temp)
    && forall k :: 0 <= k < i ==> !Encloses(points, k, temp)
  }

  /** The mean of the two speeds, each weighted by the distance of the temperature from the other point. */
  function WeightedMean(p: Point, q: Point, temp: real): real
    requires p.temp < q.temp
  {
    (p.speed as real * (q.temp as real - temp) + q.speed as real * (temp - p.temp as real)) / (q.temp - p.temp) as real
  }

  /** The speed is that mean, rounded to the nearest whole speed with a tie going up. */
  predicate IsRoundedMean(speed: int, p: Point, q: Point, temp: real) {
    p.temp < q.temp && WeightedMean(p, q, temp) - 0.5 < speed as real <= WeightedMean(p, q, temp) + 0.5
  }

  lemma LineTimesSpan(a: real, gain: real, x: real, span: real)
    requires span != 0.0
    ensures Line(a, gain, x, span) * span == a * span + x * gain
  {
    DivideThenMultiply(x, span);
    assert (a + x / span * gain) * span == a * span + x / span * span * gain;
  }

  lemma WeightedSum(ps: real, qs: real, pt: real, qt: real, temp: real)
    ensures ps * (qt - temp) + qs * (temp - pt) == ps * (qt - pt) + (temp - pt) * (qs - ps)
  {}

  lemma QuotientOf(x: real, span: real, product: real)
    requires span != 0.0 && x * span == product
    ensures product / span == x
  {}

  lemma InterpolationIsMean(p: Point, q: Point, temp: real)
    requires p.temp < q.temp
    ensures Interpolate(p, q, temp) == WeightedMean(p, q, temp)
  {
    var ps, qs, pt, qt := p.speed as real, q.speed as real, p.temp as real, q.temp as real;
    LineTimesSpan(ps, qs - ps, temp - pt, qt - pt);
    WeightedSum(ps, qs, pt, qt, temp);
    QuotientOf(Line(ps, qs - ps, temp - pt, qt - pt), qt - pt, ps * (qt - temp) + qs * (temp - pt));
  }

  lemma RoundedMean(p: Point, q: Point, temp: real)
    requires p.temp as real < temp <= q.temp as real
    ensures IsRoundedMean(Round(Interpolate(p, q, temp)), p, q, temp)
  {
    InterpolationIsMean(p, q, temp);
    assert Interpolate(p, q, temp) >= 0.0 by {
      InterpolateBetween(p, q, temp);
    }
    RoundIsNearest(WeightedMean(p, q, temp), Round(WeightedMean(p, q, temp)));
  }

  /** Strictly inside the curve, the first pair of points that encloses the temperature decides. */
  lemma CurveIsLinear(points: seq<Point>, temp: real)
    requires |points| >= 2 && points[0].temp as real < temp < points[|points| - 1].temp as real
    ensures exists i: nat :: FirstEnclosing(points, i, temp)
                        && IsRoundedMean(CurveAt(points, temp), points[i], points[i + 1], temp)
  {
    var i := Segment(points, temp, 0);
    SegmentIsFirst(points, temp, 0);
    assert FirstEnclosing(points, i, temp);
    RoundedMean(points[i], points[i + 1], temp);
  }

  lemma {:induction false} SegmentIsFirst(points: seq<Point>, temp: real, i: nat)
    requires i + 1 < |points| && points[i].temp as real < temp < points[|points| - 1].temp as real
    ensures forall k :: i <= k < Segment(points, temp, i) ==> !Encloses(points, k, temp)
    decreases |points| - i
  {
    if temp > points[i + 1].temp as real {
      SegmentIsFirst(points, temp, i + 1);
    }
  }

  /** Elsewhere: no points, 50 percent; one point, its speed; off the ends, the speed of the end. */
  lemma CurveOutside(points: seq<Point>, temp: real)
    ensures points == [] ==> CurveAt(points, temp) == 50
    ensures points != [] && (|points| == 1 || temp <= points[0].temp as real) ==>
              CurveAt(points, temp) == points[0].speed
    ensures |points| >= 2 && points[0].temp as real < temp && points[|points| - 1].temp as real <= temp ==>
              CurveAt(points, temp) == points[|points| - 1].speed
  {}
}
