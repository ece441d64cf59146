/** Window statistics over a series: moving mean, standard deviation, z-scores and the
    anomalies they flag.  Floating point is modelled by the reals. */
module Anomaly {
  import opened Base
  import opened Statistics

  /** The `w` values up to and including position `i`. */
  function Window(values: seq<real>, w: nat, i: nat): seq<real>
    requires i < |values| && 1 <= w <= i + 1
  {
    values[i + 1 - w..i + 1]
  }

  function MovingAverage(values: seq<real>, w: nat): (r: seq<Option<real>>)
    ensures |r| == |values|
  {
    seq(|values|, i requires 0 <= i < |values| =>
      if w == 0 || i + 1 < w then None else Some(Mean(Window(values, w, i))))
  }

  /** The sample variance: squared deviations over `w - 1`. */
  function Variance(win: seq<real>): real
    requires |win| >= 2
  {
    SumSquares(Deviations(win, Mean(win))) / (|win| - 1) as real
  }

  function MovingStddev(values: seq<real>, w: nat, sqrt: real -> real): (r: seq<Option<real>>)
    ensures |r| == |values|
  {
    seq(|values|, i requires 0 <= i < |values| =>
      if w < 2 || i + 1 < w then None else Some(sqrt(Variance(Window(values, w, i)))))
  }

  function ZScores(values: seq<real>, w: nat, sqrt: real -> real): (r: seq<Option<real>>)
    ensures |r| == |values|
  {
    var avgs, stds := MovingAverage(values, w), MovingStddev(values, w, sqrt);
    seq(|values|, i requires 0 <= i < |values| && |avgs| == |values| && |stds| == |values| =>
      if avgs[i].Some? && stds[i].Some? && stds[i].value > 0.0 then Some((values[i] - avgs[i].value) / stds[i].value)
      else None)
  }

  function Abs(x: real): real { if x < 0.0 then -x else x }

  predicate Flagged(z: Option<real>, threshold: real) { z.Some? && Abs(z.value) > threshold }

  /** The positions whose z-score is beyond the threshold, in order. */
  function FlaggedUpTo(zs: seq<Option<real>>, threshold: real, n: nat): seq<nat>
    requires n <= |zs|
  {
    if n == 0 then []
    else
      var rest := FlaggedUpTo(zs, threshold, n - 1);
      if Flagged(zs[n - 1], threshold) then rest + [n - 1] else rest
  }

  function DetectAnomalies(values: seq<real>, w: nat, threshold: real, sqrt: real -> real): seq<nat> {
    var zs := ZScores(values, w, sqrt);
    FlaggedUpTo(zs, threshold, |zs|)
  }

  /** A non-negative number whose square is the argument. */
  ghost predicate IsSqrt(sqrt: real -> real) {
    forall x: real :: x >= 0.0 ==> sqrt(x) >= 0.0 && sqrt(x) * sqrt(x) == x
  }

  lemma {:induction false} FlaggedMember(zs: seq<Option<real>>, threshold: real, n: nat)
    requires n <= |zs|
    ensures forall i :: i in FlaggedUpTo(zs, threshold, n) <==> 0 <= i < n && Flagged(zs[i], threshold)
  {
    if n > 0 { FlaggedMember(zs, threshold, n - 1); }
  }

  // ---- The bound on z-scores ------------------------------------------------

  /** With `w d^2 <= (w - 1) q` and `s^2 = q / (w - 1)`, the score `d / s` obeys the bound. */
  lemma ScoreBound(w: real, d: real, q: real, s: real)
    requires w >= 2.0 && s > 0.0 && s * s == q / (w - 1.0)
    requires w * (d * d) <= (w - 1.0) * q
    ensures w * ((d / s) * (d / s)) <= (w - 1.0) * (w - 1.0)
  {
    var z, n := d / s, w - 1.0;
    assert z * s == d;
    assert n * (s * s) == q;
    assert d * d == (z * z) * (s * s) by { assert d * d == (z * s) * (z * s); }
    var v := s * s;
    ProductPositive(s, s, v);
    assert w * ((z * z) * v) <= n * (n * v);
    assert v * (w * (z * z)) <= v * (n * n);
    DivideOut(v, w * (z * z), n * n);
  }

  /** Every z-score of a window of `w` values obeys `w z^2 <= (w - 1)^2`. */
  lemma ZScoreBound(values: seq<real>, w: nat, sqrt: real -> real, i: nat)
    requires IsSqrt(sqrt) && i < |values| && ZScores(values, w, sqrt)[i].Some?
    ensures w >= 2
    ensures var z := ZScores(values, w, sqrt)[i].value;
      w as real * (z * z) <= (w - 1) as real * (w - 1) as real
  {
    var win := Window(values, w, i);
    WindowScore(win, sqrt);
    assert win[w - 1] == values[i];
  }

  /** The same of a window by itself, for its last value. */
  lemma WindowScore(win: seq<real>, sqrt: real -> real)
    requires IsSqrt(sqrt) && |win| >= 2 && sqrt(Variance(win)) > 0.0
    ensures var n, z := |win|, (win[|win| - 1] - Mean(win)) / sqrt(Variance(win));
      n as real * (z * z) <= (n - 1) as real * (n - 1) as real
  {
    var n, d, s := |win|, Deviations(win, Mean(win)), sqrt(Variance(win));
    DeviationsCancel(win);
    LastShare(d);
    VarianceNonNegative(win);
    ScoreBound(n as real, win[n - 1] - Mean(win), SumSquares(d), s);
  }

  lemma VarianceNonNegative(win: seq<real>)
    requires |win| >= 2
    ensures Variance(win) >= 0.0
  {
    var q, n := SumSquares(Deviations(win, Mean(win))), (|win| - 1) as real;
    assert Variance(win) == q / n && q >= 0.0 && n > 0.0;
  }

  /** The most extreme window: all zeros, then one. */
  function Spike(w: nat): (s: seq<real>)
    requires w >= 2
    ensures |s| == w && s[w - 1] == 1.0
  {
    Copies(0.0, w - 1) + [1.0]
  }

  lemma SpikeMean(w: nat)
    requires w >= 2
    ensures Mean(Spike(w)) == 1.0 / w as real
  {
    CopiesSums(0.0, w - 1);
    assert Spike(w)[..w - 1] == Copies(0.0, w - 1);
  }

  /** Its variance is `1 / w`. */
  lemma SpikeVariance(w: nat)
    requires w >= 2
    ensures Variance(Spike(w)) == 1.0 / w as real
  {
    var m, n := 1.0 / w as real, w as real;
    SpikeMean(w);
    var d := Deviations(Spike(w), m);
    assert d == Copies(-m, w - 1) + [1.0 - m];
    assert d[..w - 1] == Copies(-m, w - 1);
    CopiesSums(-m, w - 1);
    SpikeAlgebra(n, m, SumSquares(d));
  }

  lemma SpikeAlgebra(n: real, m: real, q: real)
    requires n >= 2.0 && m == 1.0 / n && q == (n - 1.0) * ((-m) * (-m)) + (1.0 - m) * (1.0 - m)
    ensures q / (n - 1.0) == m
  {
    assert n * m == 1.0;
    assert q == n * (m * m) - 2.0 * m + 1.0;
    assert n * (m * m) == (n * m) * m;
    assert q == 1.0 - m;
    assert m * (n - 1.0) == 1.0 - m;
  }

  /** Its last value has the largest score there is: `w z^2 = (w - 1)^2`. */
  lemma SpikeScore(w: nat, sqrt: real -> real)
    requires w >= 2 && IsSqrt(sqrt)
    ensures ZScores(Spike(w), w, sqrt)[w - 1].Some?
    ensures var z := ZScores(Spike(w), w, sqrt)[w - 1].value;
      w as real * (z * z) == (w - 1) as real * (w - 1) as real
  {
    var v, n := Spike(w), w as real;
    assert Window(v, w, w - 1) == v;
    SpikeMean(w);
    SpikeVariance(w);
    var m, s := 1.0 / n, sqrt(1.0 / n);
    assert s * s == m;
    RootPositive(s, m);
    assert ZScores(v, w, sqrt)[w - 1] == Some((1.0 - m) / s);
    SpikeScoreAlgebra(n, m, s);
  }

  lemma RootPositive(s: real, m: real)
    requires s >= 0.0 && s * s == m && m > 0.0
    ensures s > 0.0
  {
    assert s == 0.0 ==> s * s == 0.0;
  }

  lemma SpikeScoreAlgebra(n: real, m: real, s: real)
    requires n >= 2.0 && m == 1.0 / n && s > 0.0 && s * s == m
    ensures n * (((1.0 - m) / s) * ((1.0 - m) / s)) == (n - 1.0) * (n - 1.0)
  {
    var z := (1.0 - m) / s;
    assert z * s == 1.0 - m;
    assert (z * z) * m == (1.0 - m) * (1.0 - m) by { assert (z * z) * (s * s) == (z * s) * (z * s); }
    assert n * m == 1.0;
    assert n * n * ((z * z) * m) == n * (z * z) * (n * m);
    assert n * (1.0 - m) == n - 1.0;
    assert n * n * ((1.0 - m) * (1.0 - m)) == (n * (1.0 - m)) * (n * (1.0 - m));
  }

  // ---- When a threshold can flag anything at all ----------------------------

  /** No series whatever is flagged. */
  ghost predicate NeverFlags(w: nat, threshold: real, sqrt: real -> real) {
    forall values :: DetectAnomalies(values, w, threshold, sqrt) == []
  }

  /** The threshold is out of reach of every window of this size. */
  predicate OutOfReach(w: nat, threshold: real) {
    w < 2 || (threshold >= 0.0 && w as real * (threshold * threshold) >= (w - 1) as real * (w - 1) as real)
  }

  lemma AbsSquare(z: real)
    ensures Abs(z) >= 0.0 && Abs(z) * Abs(z) == z * z
  {}

  lemma SquareLess(a: real, b: real)
    requires 0.0 <= a && a < b
    ensures a * a < b * b
  {
    assert b * b - a * a == (b - a) * (b + a);
    ProductPositive(b - a, b + a, (b - a) * (b + a));
  }

  lemma ScaleLess(w: real, a: real, b: real)
    requires w > 0.0 && a < b
    ensures w * a < w * b
  {
    ProductPositive(w, b - a, w * (b - a));
  }

  /** A score beyond a non-negative threshold has the larger scaled square, and conversely. */
  lemma BeyondThreshold(w: real, threshold: real, z: real)
    requires w > 0.0 && threshold >= 0.0
    ensures Abs(z) > threshold <==> w * (z * z) > w * (threshold * threshold)
  {
    AbsSquare(z);
    if Abs(z) > threshold {
      SquareLess(threshold, Abs(z));
      ScaleLess(w, threshold * threshold, z * z);
    } else if Abs(z) < threshold {
      SquareLess(Abs(z), threshold);
      ScaleLess(w, z * z, threshold * threshold);
    }
  }

  lemma NotFlagged(values: seq<real>, w: nat, threshold: real, sqrt: real -> real, i: nat)
    requires IsSqrt(sqrt) && OutOfReach(w, threshold) && i < |values|
    ensures !Flagged(ZScores(values, w, sqrt)[i], threshold)
  {
    var score := ZScores(values, w, sqrt)[i];
    if score.Some? {
      ZScoreBound(values, w, sqrt, i);
      BeyondThreshold(w as real, threshold, score.value);
    }
  }

  lemma QuietBelowBound(values: seq<real>, w: nat, threshold: real, sqrt: real -> real)
    requires IsSqrt(sqrt) && OutOfReach(w, threshold)
    ensures DetectAnomalies(values, w, threshold, sqrt) == []
  {
    forall i | 0 <= i < |values| ensures !Flagged(ZScores(values, w, sqrt)[i], threshold) {
      NotFlagged(values, w, threshold, sqrt, i);
    }
    NoneFlagged(ZScores(values, w, sqrt), threshold, |values|);
  }

  lemma {:induction false} NoneFlagged(zs: seq<Option<real>>, threshold: real, n: nat)
    requires n <= |zs| && forall i :: 0 <= i < |zs| ==> !Flagged(zs[i], threshold)
    ensures FlaggedUpTo(zs, threshold, n) == []
  {
    if n > 0 { NoneFlagged(zs, threshold, n - 1); }
  }

  lemma SpikeFlagged(w: nat, threshold: real, sqrt: real -> real)
    requires IsSqrt(sqrt) && !OutOfReach(w, threshold)
    ensures w - 1 in DetectAnomalies(Spike(w), w, threshold, sqrt)
  {
    var zs := ZScores(Spike(w), w, sqrt);
    SpikeScore(w, sqrt);
    var z := zs[w - 1].value;
    if threshold >= 0.0 { BeyondThreshold(w as real, threshold, z); }
    FlaggedMember(zs, threshold, |zs|);
  }

  /** `detect_anomalies` is silent on every series exactly when `w t^2 >= (w - 1)^2` for a
      threshold `t >= 0` (or the window is below two); otherwise a spike is flagged. */
  lemma NeverFlagsIff(w: nat, threshold: real, sqrt: real -> real)
    requires IsSqrt(sqrt)
    ensures NeverFlags(w, threshold, sqrt) <==> OutOfReach(w, threshold)
  {
    if OutOfReach(w, threshold) {
      forall values ensures DetectAnomalies(values, w, threshold, sqrt) == [] {
        QuietBelowBound(values, w, threshold, sqrt);
      }
    } else {
      SpikeFlagged(w, threshold, sqrt);
    }
  }
}
