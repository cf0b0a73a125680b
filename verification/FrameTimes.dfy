/** Nearest-rank percentiles and the "low percent" frame rate of the frame-time tool. */
module FrameTimes {
  import opened Rounding

  function Ceil(x: real): int {
    -((-x).Floor)
  }

  predicate Sorted(values: seq<real>) {
    forall i, j :: 0 <= i < j < |values| ==> values[i] <= values[j]
  }

  /** `max(1, ceil(p / 100 * n))`. */
  function Rank(p: real, n: nat): nat {
    var k := Ceil(p / 100.0 * n as real);
    if k < 1 then 1 else k
  }

  datatype Measure = NotANumber | Infinite | Finite(value: real)

  function Percentile(sorted: seq<real>, p: real): Measure {
    if sorted == [] then NotANumber else
    var k, n := Rank(p, |sorted|), |sorted|;
    Finite(sorted[(if k < n then k else n) - 1])
  }

  function Sum(values: seq<real>): real {
    if values == [] then 0.0 else values[0] + Sum(values[1..])
  }

  /** The slowest frames; a share over 100 percent takes them all. */
  function Worst(sorted: seq<real>, pct: real): (w: seq<real>)
    requires sorted != []
    ensures w != [] && |w| <= |sorted| && w == sorted[|sorted| - |w|..]
  {
    var k, n := Rank(pct, |sorted|), |sorted|;
    sorted[n - (if k < n then k else n)..]
  }

  /** Frames per second over the slowest frames, in milliseconds each. */
  function LowPercent(sorted: seq<real>, pct: real): Measure {
    if sorted == [] then NotANumber else
    var w := Worst(sorted, pct);
    var mean := Sum(w) / |w| as real;
    if mean > 0.0 then Finite(1000.0 / mean) else Infinite
  }

  lemma CountAtMost(values: seq<real>, x: real)
    ensures CountUpTo(values, x) <= |values|
  {}

  function CountUpTo(values: seq<real>, x: real): nat {
    if values == [] then 0 else CountUpTo(values[..|values| - 1], x) + if values[|values| - 1] <= x then 1 else 0
  }

  lemma {:induction false} CountOfPrefix(values: seq<real>, x: real, k: nat)
    requires k <= |values| && forall i :: 0 <= i < k ==> values[i] <= x
    ensures CountUpTo(values, x) >= k
  {
    if |values| > k {
      CountOfPrefix(values[..|values| - 1], x, k);
    } else if k > 0 {
      CountOfPrefix(values[..k - 1], x, k - 1);
    }
  }

  lemma {:induction false} CountBelow(values: seq<real>, x: real, k: nat)
    requires k <= |values| && forall i :: k <= i < |values| ==> values[i] > x
    ensures CountUpTo(values, x) <= k
  {
    if |values| > k {
      CountBelow(values[..|values| - 1], x, k);
    } else {
      CountAtMost(values, x);
    }
  }

  /** Nearest rank: at least `p` percent of the frames are no slower than it, and any faster value covers fewer. */
  lemma PercentileIsNearestRank(sorted: seq<real>, p: real, x: real)
    requires sorted != [] && Sorted(sorted) && 0.0 < p <= 100.0
    ensures Percentile(sorted, p).Finite?
    ensures CountUpTo(sorted, Percentile(sorted, p).value) as real >= p / 100.0 * |sorted| as real
    ensures x < Percentile(sorted, p).value ==> (CountUpTo(sorted, x) as real) < p / 100.0 * |sorted| as real
  {
    var n := |sorted|;
    RankInRange(p, n);
    var k := Rank(p, n);
    CountOfPrefix(sorted, sorted[k - 1], k);
    if x < sorted[k - 1] {
      CountBelow(sorted, x, k - 1);
    }
  }

  lemma RankInRange(p: real, n: nat)
    requires 0.0 < p <= 100.0 && n > 0
    ensures 1 <= Rank(p, n) <= n
    ensures (Rank(p, n) - 1) as real < p / 100.0 * n as real <= Rank(p, n) as real
  {
    var share := p / 100.0 * n as real;
    assert p / 100.0 <= 1.0;
    ScaleIsMonotone(p / 100.0, 1.0, n as real);
    assert share > 0.0;
  }

  lemma {:induction false} SumAtLeast(values: seq<real>, x: real)
    requires forall v <- values :: v >= x
    ensures Sum(values) >= |values| as real * x
  {
    if values != [] {
      assert values[0] in values && forall v <- values[1..] :: v in values;
      SumAtLeast(values[1..], x);
      assert |values| as real * x == |values[1..]| as real * x + x;
    }
  }

  /** A share of zero or less is the fastest frame, one over 100 percent the slowest; no frames have no percentile. */
  lemma PercentileOutside(sorted: seq<real>, p: real)
    ensures sorted == [] ==> Percentile(sorted, p) == NotANumber && LowPercent(sorted, p) == NotANumber
    ensures sorted != [] && p <= 0.0 ==> Percentile(sorted, p) == Finite(sorted[0])
    ensures sorted != [] && p >= 100.0 ==> Percentile(sorted, p) == Finite(sorted[|sorted| - 1])
  {
    if sorted != [] && p <= 0.0 {
      NonPositiveProduct(|sorted| as real, p / 100.0);
    } else if sorted != [] && p >= 100.0 {
      ScaleIsMonotone(1.0, p / 100.0, |sorted| as real);
    }
  }

  /** The slowest frames are the smallest number that makes up the share, at least one and at most all. */
  lemma WorstIsTheShare(sorted: seq<real>, pct: real)
    requires sorted != []
    ensures var w, share := Worst(sorted, pct), pct / 100.0 * |sorted| as real;
            && 1 <= |w| <= |sorted| && w == sorted[|sorted| - |w|..]
            && (|w| < |sorted| ==> |w| as real >= share)
            && (|w| > 1 ==> (|w| - 1) as real < share)
  {}

  lemma {:induction false} SumAppends(a: seq<real>, b: seq<real>)
    ensures Sum(a + b) == Sum(a) + Sum(b)
  {
    if a == [] {
      assert a + b == b;
    } else {
      assert (a + b)[1..] == a[1..] + b;
      SumAppends(a[1..], b);
    }
  }

  /** The low-percent rate is a thousand over the mean of those frames, and unbounded when that mean is not positive. */
  lemma LowPercentIsTheMeanRate(sorted: seq<real>, pct: real)
    requires sorted != []
    ensures var w, fps := Worst(sorted, pct), LowPercent(sorted, pct);
            if Sum(w) > 0.0 then fps.Finite? && IsRate(fps.value, Sum(w), |w|) else fps == Infinite
  {
    var w := Worst(sorted, pct);
    if Sum(w) > 0.0 {
      PositiveMean(Sum(w), |w| as real);
      MeanRate(Sum(w), |w|);
    } else {
      NotPositiveMean(Sum(w), |w| as real);
    }
  }

  /** So many frames a second are `n` frames in `total` milliseconds. */
  predicate IsRate(fps: real, total: real, n: nat) {
    fps * total == 1000.0 * n as real
  }

  lemma SumOfOne(x: real)
    ensures Sum([x]) == x
  {}

  lemma PositiveMean(sum: real, n: real)
    requires sum > 0.0 && n > 0.0
    ensures sum / n > 0.0
  {
    DivideThenMultiply(sum, n);
    PositiveFactor(sum / n, n);
  }

  lemma PositiveFactor(x: real, n: real)
    requires n > 0.0 && x * n > 0.0
    ensures x > 0.0
  {
    if x <= 0.0 {
      NonPositiveProduct(n, x);
    }
  }

  lemma MeanRate(sum: real, n: nat)
    requires n > 0 && sum / n as real > 0.0
    ensures IsRate(1000.0 / (sum / n as real), sum, n)
  {
    var mean := sum / n as real;
    DivideThenMultiply(sum, n as real);
    DivideThenMultiply(1000.0, mean);
    RateTimesTotal(1000.0 / mean, mean, n as real, sum);
  }

  lemma RateTimesTotal(rate: real, mean: real, n: real, sum: real)
    requires rate * mean == 1000.0 && mean * n == sum
    ensures rate * sum == 1000.0 * n
  {
    assert rate * (mean * n) == rate * mean * n;
  }

  lemma NotPositiveMean(sum: real, n: real)
    requires sum <= 0.0 < n
    ensures sum / n <= 0.0
  {}

  /** The slowest `q` percent start no earlier than the `(100 - q)`-th percentile frame. */
  lemma RanksMeet(q: real, n: nat)
    requires 0.0 < q < 100.0 && n > 0
    ensures Rank(100.0 - q, n) - 1 <= n - Rank(q, n)
  {
    RankInRange(q, n);
    RankInRange(100.0 - q, n);
    Complement(q, n as real);
  }

  lemma Complement(q: real, n: real)
    ensures (100.0 - q) / 100.0 * n == n - q / 100.0 * n
  {
    assert (100.0 - q) / 100.0 == 1.0 - q / 100.0;
  }

  lemma WorstAreAtLeast(sorted: seq<real>, q: real)
    requires sorted != [] && Sorted(sorted) && 0.0 < q < 100.0
    ensures var x := Percentile(sorted, 100.0 - q);
            x.Finite? && x.value in sorted && forall v <- Worst(sorted, q) :: v >= x.value
  {
    var n := |sorted|;
    RanksMeet(q, n);
    RankInRange(q, n);
    RankInRange(100.0 - q, n);
    var from, at := n - Rank(q, n), Rank(100.0 - q, n) - 1;
    assert Worst(sorted, q) == sorted[from..];
    assert Percentile(sorted, 100.0 - q).value == sorted[at];
    forall v | v in sorted[from..]
      ensures v >= sorted[at]
    {
      var i :| from <= i < n && sorted[i] == v;
    }
  }

  /** The frame rate over the worst `q` percent never exceeds the one the `(100 - q)`-th percentile frame gives. */
  lemma LowPercentIsBelowPercentile(sorted: seq<real>, q: real)
    requires sorted != [] && Sorted(sorted) && 0.0 < q < 100.0
    requires forall v <- sorted :: v > 0.0
    ensures var x, fps := Percentile(sorted, 100.0 - q), LowPercent(sorted, q);
            x.Finite? && x.value > 0.0 && fps.Finite? && fps.value <= 1000.0 / x.value
  {
    WorstAreAtLeast(sorted, q);
    SlowMeanRate(Worst(sorted, q), Percentile(sorted, 100.0 - q).value);
  }

  /** Frames no faster than `x` on average run at no more than the rate `x` gives. */
  lemma SlowMeanRate(w: seq<real>, x: real)
    requires w != [] && x > 0.0 && forall v <- w :: v >= x
    ensures Sum(w) / |w| as real > 0.0 && 1000.0 / (Sum(w) / |w| as real) <= 1000.0 / x
  {
    SumAtLeast(w, x);
    MeanAtLeast(Sum(w), |w|, x);
  }

  lemma MeanAtLeast(sum: real, n: nat, x: real)
    requires n > 0 && x > 0.0 && sum >= n as real * x
    ensures sum / n as real > 0.0 && 1000.0 / (sum / n as real) <= 1000.0 / x
  {
    assert n as real * x >= x by {
      ScaleIsMonotone(1.0, n as real, x);
    }
    var mean := sum / n as real;
    assert mean >= x by {
      RatioIsMonotone(n as real * x, sum, n as real);
      assert n as real * x / n as real == x;
    }
    Reciprocal(x, mean);
  }

  lemma Reciprocal(x: real, y: real)
    requires 0.0 < x <= y
    ensures 1000.0 / y <= 1000.0 / x
  {
    RatioIsMonotone(x, y, y);
    assert 1000.0 / x * (x / y) == 1000.0 / y;
    ScaleIsMonotone(x / y, 1.0, 1000.0 / x);
  }
}
