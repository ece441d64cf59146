/** Seasonal patterns: the best period by autocorrelation, and removing a season. */
module Seasonality {
  import opened Base
  import opened Statistics
  import opened Anomaly
  import opened Trend

  // ---- Autocorrelation ------------------------------------------------------

  /** The sum over `i < n` of `d[i] * d[i + p]`. */
  function Cross(d: seq<real>, p: nat, n: nat): real
    requires n + p <= |d|
  {
    if n == 0 then 0.0 else Cross(d, p, n - 1) + d[n - 1] * d[n - 1 + p]
  }

  lemma CrossNext(d: seq<real>, p: nat, n: nat, x: real, y: real)
    requires n + 1 + p <= |d| && d[n] == x && d[n + p] == y
    ensures Cross(d, p, n + 1) == Cross(d, p, n) + x * y
  {}

  /** The autocorrelation at a period, over the whole series. */
  function Correlation(values: seq<real>, p: nat): real
    requires values != [] && p <= |values| && SumSquares(Deviations(values, Mean(values))) > 0.0
  {
    var d := Deviations(values, Mean(values));
    Cross(d, p, |values| - p) / SumSquares(d)
  }

  /** Whether the search runs at all. */
  predicate Searchable(values: seq<real>, maxPeriod: nat) {
    && |values| >= maxPeriod * 2 && values != []
    && SumSquares(Deviations(values, Mean(values))) >= EPSILON
  }

  /** The first period, from `minPeriod` up to and excluding `end`, with the largest
      correlation among those that reach `floor`. */
  ghost predicate BestBelow(values: seq<real>, minPeriod: nat, end: nat, floor: real, best: Option<(nat, real)>)
    requires Searchable(values, 0) && end <= |values| + 1
  {
    match best
    case None => forall p :: minPeriod <= p < end ==> Correlation(values, p) < floor
    case Some((q, c)) =>
      && minPeriod <= q < end && c == Correlation(values, q) && c >= floor
      && (forall p :: minPeriod <= p < end ==> Correlation(values, p) <= c)
      && (forall p :: minPeriod <= p < q ==> Correlation(values, p) < c)
  }

  method DetectSeasonality(values: seq<real>, minPeriod: nat, maxPeriod: nat, floor: real)
    returns (best: Option<(nat, real)>)
    ensures !Searchable(values, maxPeriod) ==> best.None?
    ensures Searchable(values, maxPeriod) ==> BestBelow(values, minPeriod, maxPeriod + 1, floor, best)
  {
    best := None;
    if |values| < maxPeriod * 2 || values == [] {
      return;
    }
    var mean := Sum(values) / |values| as real;
    var variance := SumSquares(Deviations(values, mean));
    if Abs(variance) < EPSILON {
      return;
    }
    var period := minPeriod;
    while period <= maxPeriod
      invariant minPeriod <= period && (period <= maxPeriod + 1 || period == minPeriod)
      invariant BestBelow(values, minPeriod, Min(period, maxPeriod + 1), floor, best)
    {
      var corr := CorrelationAt(values, mean, variance, period);
      ghost var before := best;
      if corr >= floor {
        match best {
          case None => best := Some((period, corr));
          case Some((_, bc)) =>
            if corr > bc {
              best := Some((period, corr));
            }
        }
      }
      BestStep(values, minPeriod, period, floor, before, best);
      period := period + 1;
    }
  }

  /** The inner loop: the correlation at one period. */
  method CorrelationAt(values: seq<real>, mean: real, variance: real, period: nat) returns (corr: real)
    requires values != [] && period <= |values|
    requires mean == Mean(values) && variance == SumSquares(Deviations(values, mean)) && variance > 0.0
    ensures corr == Correlation(values, period)
  {
    var products := CrossSum(values, mean, period);
    corr := products / variance;
  }

  method CrossSum(values: seq<real>, mean: real, period: nat) returns (products: real)
    requires period <= |values|
    ensures products == Cross(Deviations(values, mean), period, |values| - period)
  {
    ghost var d := Deviations(values, mean);
    products := 0.0;
    for i := 0 to |values| - period
      invariant products == Cross(d, period, i)
    {
      var x, y := values[i] - mean, values[i + period] - mean;
      CrossNext(d, period, i, x, y);
      products := products + x * y;
    }
  }

  /** What the search keeps after looking at one more period. */
  ghost function Better(period: nat, corr: real, floor: real, best: Option<(nat, real)>): Option<(nat, real)> {
    if corr >= floor && (best.None? || corr > best.value.1) then Some((period, corr)) else best
  }

  lemma BestStep(values: seq<real>, minPeriod: nat, period: nat, floor: real, before: Option<(nat, real)>,
                 best: Option<(nat, real)>)
    requires Searchable(values, 0) && minPeriod <= period <= |values|
    requires BestBelow(values, minPeriod, period, floor, before)
    requires best == Better(period, Correlation(values, period), floor, before)
    ensures BestBelow(values, minPeriod, period + 1, floor, best)
  {}

  /** Twice a product is at most the sum of the squares, in absolute value. */
  lemma ProductBound(x: real, y: real, xy: real, xx: real, yy: real)
    requires xy == x * y && xx == x * x && yy == y * y
    ensures 2.0 * xy <= xx + yy && -2.0 * xy <= xx + yy
  {
    var e, f := x - y, x + y;
    assert e * e >= 0.0 && f * f >= 0.0;
    assert e * e == x * x - 2.0 * (x * y) + y * y;
    assert f * f == x * x + 2.0 * (x * y) + y * y;
  }

  lemma RunSquares(d: seq<real>, from: nat, n: nat, last: real, square: real)
    requires n > 0 && from + n <= |d| && last == d[from + n - 1] && square == last * last
    ensures SumSquares(d[from..from + n]) == SumSquares(d[from..from + n - 1]) + square
  {
    assert d[from..from + n][..n - 1] == d[from..from + n - 1];
  }

  lemma RunProducts(d: seq<real>, p: nat, n: nat, x: real, y: real, product: real)
    requires n > 0 && n + p <= |d| && x == d[n - 1] && y == d[p + n - 1] && product == x * y
    ensures Cross(d, p, n) == Cross(d, p, n - 1) + product
  {
    CrossNext(d, p, n - 1, x, y);
  }

  /** What one more pair adds to the products and to the squares. */
  lemma CrossStep(d: seq<real>, p: nat, n: nat) returns (xy: real, xx: real, yy: real)
    requires n > 0 && n + p <= |d|
    ensures Cross(d, p, n) == Cross(d, p, n - 1) + xy
    ensures SumSquares(d[0..n]) == SumSquares(d[0..n - 1]) + xx
    ensures SumSquares(d[p..p + n]) == SumSquares(d[p..p + n - 1]) + yy
    ensures 2.0 * xy <= xx + yy && -2.0 * xy <= xx + yy
  {
    var x, y := d[n - 1], d[p + n - 1];
    xy, xx, yy := x * y, x * x, y * y;
    ProductBound(x, y, xy, xx, yy);
    RunProducts(d, p, n, x, y, xy);
    RunSquares(d, 0, n, x, xx);
    RunSquares(d, p, n, y, yy);
  }

  lemma {:induction false} CrossBound(d: seq<real>, p: nat, n: nat)
    requires n + p <= |d|
    ensures Bounded(Cross(d, p, n), SumSquares(d[0..n]), SumSquares(d[p..p + n]))
  {
    if n > 0 {
      CrossBound(d, p, n - 1);
      var xy, xx, yy := CrossStep(d, p, n);
    }
  }

  predicate Bounded(c: real, a: real, b: real) { 2.0 * c <= a + b && -2.0 * c <= a + b }

  lemma RatioBound(c: real, q: real)
    requires q > 0.0 && -q <= c <= q
    ensures -1.0 <= c / q <= 1.0
  {
    assert c == (c / q) * q;
    DivideOut(q, c / q, 1.0);
    DivideOut(q, -1.0, c / q);
  }

  /** Autocorrelation lies between -1 and 1, and is 1 at period 0. */
  lemma CorrelationBound(values: seq<real>, p: nat)
    requires values != [] && p <= |values| && SumSquares(Deviations(values, Mean(values))) > 0.0
    ensures -1.0 <= Correlation(values, p) <= 1.0
    ensures p == 0 ==> Correlation(values, p) == 1.0
  {
    var d := Deviations(values, Mean(values));
    var n := |values| - p;
    CrossBound(d, p, n);
    SquaresSlice(d, 0, n);
    SquaresSlice(d, p, p + n);
    RatioBound(Cross(d, p, n), SumSquares(d));
    if p == 0 {
      CrossSelf(d, |d|);
      assert d[..|d|] == d;
    }
  }

  lemma {:induction false} CrossSelf(d: seq<real>, n: nat)
    requires n <= |d|
    ensures Cross(d, 0, n) == SumSquares(d[..n])
  {
    if n > 0 {
      CrossSelf(d, n - 1);
      assert d[..n][..n - 1] == d[..n - 1];
    }
  }

  /** A search that starts at period 0 finds nothing else: 0 correlates perfectly. */
  lemma PeriodZeroWins(values: seq<real>, maxPeriod: nat, floor: real, best: Option<(nat, real)>)
    requires Searchable(values, maxPeriod) && floor <= 1.0
    requires BestBelow(values, 0, maxPeriod + 1, floor, best)
    ensures best == Some((0, 1.0))
  {
    CorrelationBound(values, 0);
    if best.Some? {
      CorrelationBound(values, best.value.0);
    }
  }

  /** And a floor above 1 is never reached. */
  lemma FloorOutOfReach(values: seq<real>, minPeriod: nat, maxPeriod: nat, floor: real, best: Option<(nat, real)>)
    requires Searchable(values, maxPeriod) && floor > 1.0
    requires BestBelow(values, minPeriod, maxPeriod + 1, floor, best)
    ensures best.None?
  {
    if best.Some? {
      CorrelationBound(values, best.value.0);
    }
  }

  // ---- Removing a season ----------------------------------------------------

  /** The sum and the number of the first `n` values at phase `r`. */
  function PhaseSum(values: seq<real>, period: nat, r: nat): real
    requires period > 0
  {
    if values == [] then 0.0
    else
      var n := |values| - 1;
      PhaseSum(values[..n], period, r) + if n % period == r then values[n] else 0.0
  }

  function PhaseCount(n: nat, period: nat, r: nat): nat
    requires period > 0
  {
    if n == 0 then 0 else PhaseCount(n - 1, period, r) + if (n - 1) % period == r then 1 else 0
  }

  function PhaseMean(values: seq<real>, period: nat, r: nat): real
    requires period > 0
  {
    var c := PhaseCount(|values|, period, r);
    if c > 0 then PhaseSum(values, period, r) / c as real else 0.0
  }

  function Deseasonalized(values: seq<real>, period: nat): (out: seq<real>)
    ensures |out| == |values|
  {
    if period == 0 then values
    else seq(|values|, i requires 0 <= i < |values| => values[i] - PhaseMean(values, period, i % period))
  }

  method Deseasonalize(values: seq<real>, period: nat) returns (out: seq<real>)
    ensures out == Deseasonalized(values, period)
  {
    if period == 0 {
      return values;
    }
    var sums, counts := PhaseTotals(values, period);
    var seasonal := new real[period](_ => 0.0);
    for r := 0 to period
      invariant forall k :: 0 <= k < period ==> sums[k] == PhaseSum(values, period, k)
      invariant forall k :: 0 <= k < period ==> counts[k] == PhaseCount(|values|, period, k)
      invariant forall k :: 0 <= k < r ==> seasonal[k] == PhaseMean(values, period, k)
    {
      seasonal[r] := if counts[r] > 0 then sums[r] / counts[r] as real else 0.0;
    }
    out := SubtractSeason(values, period, seasonal);
  }

  /** Totals and counts per position within the period. */
  method PhaseTotals(values: seq<real>, period: nat) returns (sums: array<real>, counts: array<nat>)
    requires period > 0
    ensures fresh(sums) && fresh(counts) && sums.Length == period && counts.Length == period
    ensures forall r :: 0 <= r < period ==> sums[r] == PhaseSum(values, period, r)
    ensures forall r :: 0 <= r < period ==> counts[r] == PhaseCount(|values|, period, r)
  {
    sums := new real[period](_ => 0.0);
    counts := new nat[period](_ => 0);
    for i := 0 to |values|
      invariant forall r :: 0 <= r < period ==> sums[r] == PhaseSum(values[..i], period, r)
      invariant forall r :: 0 <= r < period ==> counts[r] == PhaseCount(i, period, r)
    {
      assert values[..i + 1][..i] == values[..i];
      var phase := i % period;
      assert 0 <= phase < period;
      sums[phase] := sums[phase] + values[i];
      counts[phase] := counts[phase] + 1;
    }
    assert values[..|values|] == values;
  }

  method SubtractSeason(values: seq<real>, period: nat, seasonal: array<real>) returns (out: seq<real>)
    requires period > 0 && seasonal.Length == period
    requires forall k :: 0 <= k < period ==> seasonal[k] == PhaseMean(values, period, k)
    ensures out == Deseasonalized(values, period)
  {
    out := [];
    for i := 0 to |values|
      invariant |out| == i
      invariant forall k :: 0 <= k < i ==> out[k] == Deseasonalized(values, period)[k]
    {
      var phase := i % period;
      assert 0 <= phase < period;
      out := out + [values[i] - seasonal[phase]];
    }
  }

  /** `m` added `c` times. */
  function Repeated(c: nat, m: real): real { if c == 0 then 0.0 else Repeated(c - 1, m) + m }

  lemma {:induction false} RepeatedIsProduct(c: nat, m: real)
    ensures Repeated(c, m) == c as real * m
  {
    if c > 0 {
      RepeatedIsProduct(c - 1, m);
      assert c as real * m == (c - 1) as real * m + m;
    }
  }

  /** Subtracting a constant per phase takes it off once per value of the phase. */
  lemma {:induction false} PhaseShift(values: seq<real>, out: seq<real>, period: nat, r: nat, m: real)
    requires period > 0 && |out| == |values|
    requires forall i :: 0 <= i < |values| && i % period == r ==> out[i] == values[i] - m
    ensures PhaseSum(out, period, r) == PhaseSum(values, period, r) - Repeated(PhaseCount(|values|, period, r), m)
  {
    if values != [] {
      PhaseShift(values[..|values| - 1], out[..|values| - 1], period, r, m);
    }
  }

  lemma {:induction false} EmptyPhase(values: seq<real>, period: nat, r: nat)
    requires period > 0 && PhaseCount(|values|, period, r) == 0
    ensures PhaseSum(values, period, r) == 0.0
  {
    if values != [] { EmptyPhase(values[..|values| - 1], period, r); }
  }

  lemma Cancels(sum: real, count: real)
    requires count > 0.0
    ensures sum - count * (sum / count) == 0.0
  {}

  /** Every phase of the deseasonalized series sums to zero. */
  lemma PhasesCancel(values: seq<real>, period: nat, r: nat)
    requires 0 <= r < period
    ensures PhaseSum(Deseasonalized(values, period), period, r) == 0.0
  {
    var m, c := PhaseMean(values, period, r), PhaseCount(|values|, period, r);
    PhaseShift(values, Deseasonalized(values, period), period, r, m);
    MeanRepeated(values, period, r);
  }

  /** The mean of a phase, added once per value, is its sum. */
  lemma MeanRepeated(values: seq<real>, period: nat, r: nat)
    requires period > 0
    ensures Repeated(PhaseCount(|values|, period, r), PhaseMean(values, period, r)) == PhaseSum(values, period, r)
  {
    var m, c := PhaseMean(values, period, r), PhaseCount(|values|, period, r);
    RepeatedIsProduct(c, m);
    if c > 0 {
      Cancels(PhaseSum(values, period, r), c as real);
    } else {
      EmptyPhase(values, period, r);
    }
  }

  lemma ZeroOver(c: real)
    requires c > 0.0
    ensures 0.0 / c == 0.0
  {}

  /** Removing the season once removes it for good. */
  lemma DeseasonalizeIdempotent(values: seq<real>, period: nat)
    ensures Deseasonalized(Deseasonalized(values, period), period) == Deseasonalized(values, period)
  {
    if period > 0 {
      var out := Deseasonalized(values, period);
      forall i | 0 <= i < |values| ensures PhaseMean(out, period, i % period) == 0.0 {
        PhasesCancel(values, period, i % period);
        var c := PhaseCount(|out|, period, i % period);
        if c > 0 { ZeroOver(c as real); }
      }
    }
  }
}
