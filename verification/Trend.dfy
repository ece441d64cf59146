/** The linear-regression slope over a sliding window. */
module Trend {
  import opened Base
  import opened Statistics
  import opened Anomaly

  /** `f64::EPSILON` */
  const EPSILON: real := 1.0 / 4503599627370496.0

  function Half(w: nat): real { (w as real - 1.0) / 2.0 }

  /** The sum over positions `j < n` of `(j - c)`, of its square, and of its product with the
      value's deviation from `m`. */
  function SumX(n: nat, c: real): real {
    if n == 0 then 0.0 else SumX(n - 1, c) + ((n - 1) as real - c)
  }

  function SumXX(n: nat, c: real): real {
    if n == 0 then 0.0 else SumXX(n - 1, c) + ((n - 1) as real - c) * ((n - 1) as real - c)
  }

  function SumXY(win: seq<real>, c: real, m: real): real {
    if win == [] then 0.0
    else
      var j := |win| - 1;
      SumXY(win[..j], c, m) + (j as real - c) * (win[j] - m)
  }

  /** The least-squares slope. */
  function Slope(win: seq<real>): real
    requires |win| >= 2
  {
    DenominatorPositive(|win|);
    SumXY(win, Half(|win|), Mean(win)) / SumXX(|win|, Half(|win|))
  }

  method SlopeOf(win: seq<real>) returns (slope: real)
    requires |win| >= 2
    ensures slope == Slope(win)
  {
    var n := |win| as real;
    var xMean := (n - 1.0) / 2.0;
    var yMean := Sum(win) / n;
    var num, den := 0.0, 0.0;
    for j := 0 to |win|
      invariant num == SumXY(win[..j], xMean, yMean) && den == SumXX(j, xMean)
    {
      var xd := j as real - xMean;
      assert win[..j + 1][..j] == win[..j];
      num := num + xd * (win[j] - yMean);
      den := den + xd * xd;
    }
    assert win[..|win|] == win;
    DenominatorPositive(|win|);
    if Abs(den) < EPSILON {
      slope := 0.0;
    } else {
      slope := num / den;
    }
  }

  method TrendSlope(values: seq<real>, w: nat) returns (r: seq<Option<real>>)
    ensures |r| == |values|
    ensures forall i :: 0 <= i < |values| ==>
      r[i] == if w < 2 || i + 1 < w then None else Some(Slope(Window(values, w, i)))
  {
    r := [];
    for i := 0 to |values|
      invariant |r| == i
      invariant forall k :: 0 <= k < i ==>
        r[k] == if w < 2 || k + 1 < w then None else Some(Slope(Window(values, w, k)))
    {
      if w < 2 || i + 1 < w {
        r := r + [None];
      } else {
        var slope := SlopeOf(Window(values, w, i));
        r := r + [Some(slope)];
      }
    }
  }

  // ---- The denominator ------------------------------------------------------

  lemma {:induction false} SumXClosed(n: nat, c: real)
    ensures SumX(n, c) == n as real * (n as real - 1.0) / 2.0 - n as real * c
  {
    if n > 0 {
      SumXClosed(n - 1, c);
      var k := (n - 1) as real;
      assert n as real == k + 1.0;
      assert (k + 1.0) * k / 2.0 - (k + 1.0) * c == k * (k - 1.0) / 2.0 - k * c + (k - c);
    }
  }

  /** A polynomial in the number of positions. */
  function Closed(n: real, c: real): real {
    n * (c * c) - n * (n - 1.0) * c + n * (n - 1.0) * (2.0 * n - 1.0) / 6.0
  }

  lemma ClosedStep(k: real, c: real)
    ensures Closed(k + 1.0, c) == Closed(k, c) + (k - c) * (k - c)
  {
    assert (k + 1.0) * k * (2.0 * k + 1.0) == k * (k - 1.0) * (2.0 * k - 1.0) + 6.0 * (k * k);
    assert (k + 1.0) * k * c == k * (k - 1.0) * c + 2.0 * (k * c);
  }

  lemma {:induction false} SumXXClosed(n: nat, c: real)
    ensures SumXX(n, c) == Closed(n as real, c)
  {
    if n > 0 {
      SumXXClosed(n - 1, c);
      ClosedStep((n - 1) as real, c);
      assert n as real == (n - 1) as real + 1.0;
    }
  }

  lemma CubicAtHalf(n: real, c: real)
    requires c == (n - 1.0) / 2.0
    ensures Closed(n, c) == n * (n * n - 1.0) / 12.0
  {
    var p := n * (n - 1.0);
    assert n - 1.0 == 2.0 * c;
    assert n * (c * c) == p * c / 2.0;
    assert Closed(n, c) == p * c / 2.0 - p * c + p * (2.0 * n - 1.0) / 6.0;
    assert p * c == p * (n - 1.0) / 2.0;
    assert Closed(n, c) == p * (n + 1.0) / 12.0;
    assert p * (n + 1.0) == n * (n * n - 1.0);
  }

  /** The denominator is `w (w^2 - 1) / 12`. */
  lemma DenominatorClosed(w: nat)
    ensures SumXX(w, Half(w)) == w as real * (w as real * w as real - 1.0) / 12.0
  {
    SumXXClosed(w, Half(w));
    CubicAtHalf(w as real, Half(w));
  }

  /** So the branch for a vanishing denominator is never taken. */
  lemma DenominatorPositive(w: nat)
    requires w >= 2
    ensures SumXX(w, Half(w)) >= 0.5
  {
    DenominatorClosed(w);
    var n := w as real;
    assert n * n >= 2.0 * n;
    assert n * n - 1.0 >= 3.0;
    assert n * (n * n - 1.0) >= 2.0 * (n * n - 1.0) by { assert (n - 2.0) * (n * n - 1.0) >= 0.0; }
  }

  // ---- The slope of a line --------------------------------------------------

  lemma {:induction false} SumXYLinear(win: seq<real>, a: real, b: real, c: real)
    requires forall j :: 0 <= j < |win| ==> win[j] == a + b * j as real
    ensures SumXY(win, c, a + b * c) == b * SumXX(|win|, c)
  {
    if win != [] {
      var j := |win| - 1;
      SumXYLinear(win[..j], a, b, c);
      var u := j as real - c;
      assert win[j] - (a + b * c) == b * u;
      assert u * (b * u) == b * (u * u);
      assert b * (SumXX(j, c) + u * u) == b * SumXX(j, c) + b * (u * u);
    }
  }

  lemma {:induction false} SumLinear(win: seq<real>, a: real, b: real, c: real)
    requires forall j :: 0 <= j < |win| ==> win[j] == a + b * j as real
    ensures Sum(win) == |win| as real * (a + b * c) + b * SumX(|win|, c)
  {
    if win != [] {
      var j := |win| - 1;
      SumLinear(win[..j], a, b, c);
      var t := a + b * c;
      assert |win| as real * t == j as real * t + t;
      assert b * (SumX(j, c) + (j as real - c)) == b * SumX(j, c) + b * (j as real - c);
      assert b * (j as real - c) == b * j as real - b * c;
    }
  }

  /** On a line `a + b j` the slope is `b`. */
  lemma SlopeOfLine(win: seq<real>, a: real, b: real)
    requires |win| >= 2 && forall j :: 0 <= j < |win| ==> win[j] == a + b * j as real
    ensures Slope(win) == b
  {
    var n, c := |win|, Half(|win|);
    SumLinear(win, a, b, c);
    CenteredX(n);
    assert Mean(win) == a + b * c by { MeanIs(Sum(win), n as real, a + b * c); }
    SumXYLinear(win, a, b, c);
    DenominatorPositive(n);
    QuotientIs(b, SumXX(n, c));
  }

  lemma MeanIs(sum: real, n: real, m: real)
    requires n > 0.0 && sum == n * m
    ensures sum / n == m
  {}

  lemma QuotientIs(b: real, d: real)
    requires d > 0.0
    ensures b * d / d == b
  {}

  lemma CenteredX(n: nat)
    ensures SumX(n, Half(n)) == 0.0
  {
    SumXClosed(n, Half(n));
    var k := n as real;
    assert k * ((k - 1.0) / 2.0) == k * (k - 1.0) / 2.0;
  }

  // ---- Least squares --------------------------------------------------------

  /** The squared error of the line `a + b j`. */
  function Residual(win: seq<real>, a: real, b: real): real {
    if win == [] then 0.0
    else
      var j := |win| - 1;
      var e := win[j] - a - b * j as real;
      Residual(win[..j], a, b) + e * e
  }

  lemma Square3(y: real, u: real, b: real, k: real)
    ensures (y - b * u - k) * (y - b * u - k) ==
            y * y - 2.0 * b * (u * y) + b * b * (u * u) - 2.0 * k * y + 2.0 * b * k * u + k * k
  {
    var p := b * u;
    assert (y - p - k) * (y - p - k) == y * y - 2.0 * (p * y) + p * p - 2.0 * (k * y) + 2.0 * (p * k) + k * k;
    assert p * y == b * (u * y) && p * p == (b * b) * (u * u) && p * k == (b * k) * u;
  }

  /** The sums a squared error is made of: count, and sums of squares, products and terms. */
  datatype Sums = Sums(n: real, yy: real, xy: real, xx: real, y: real, x: real)

  function Expansion(s: Sums, b: real, k: real): real {
    s.yy - 2.0 * b * s.xy + b * b * s.xx - 2.0 * k * s.y + 2.0 * b * k * s.x + s.n * (k * k)
  }

  function OneMore(s: Sums, y: real, u: real): Sums {
    Sums(s.n + 1.0, s.yy + y * y, s.xy + u * y, s.xx + u * u, s.y + y, s.x + u)
  }

  lemma ExpansionStep(s: Sums, b: real, k: real, y: real, u: real, square: real)
    requires square == (y - b * u - k) * (y - b * u - k)
    ensures Expansion(s, b, k) + square == Expansion(OneMore(s, y, u), b, k)
  {
    Square3(y, u, b, k);
    assert 2.0 * b * (s.xy + u * y) == 2.0 * b * s.xy + 2.0 * b * (u * y);
    assert b * b * (s.xx + u * u) == b * b * s.xx + b * b * (u * u);
    assert 2.0 * k * (s.y + y) == 2.0 * k * s.y + 2.0 * k * y;
    assert 2.0 * b * k * (s.x + u) == 2.0 * b * k * s.x + 2.0 * b * k * u;
    assert (s.n + 1.0) * (k * k) == s.n * (k * k) + k * k;
  }

  function SumsOf(win: seq<real>, c: real, m: real): Sums {
    Sums(|win| as real, SumSquares(Deviations(win, m)), SumXY(win, c, m), SumXX(|win|, c),
         Sum(Deviations(win, m)), SumX(|win|, c))
  }

  lemma SumsOneMore(win: seq<real>, c: real, m: real)
    requires win != []
    ensures var j := |win| - 1;
      SumsOf(win, c, m) == OneMore(SumsOf(win[..j], c, m), win[j] - m, j as real - c)
  {
    DeviationsInit(win, m);
  }

  lemma ErrorTerm(v: real, j: real, c: real, m: real, b: real, k: real)
    ensures v - (m - b * c + k) - b * j == (v - m) - b * (j - c) - k
  {
    assert b * (j - c) == b * j - b * c;
  }

  ghost predicate Expands(win: seq<real>, c: real, m: real, b: real, k: real) {
    Residual(win, m - b * c + k, b) == Expansion(SumsOf(win, c, m), b, k)
  }

  /** The last term of the error, in centred coordinates. */
  lemma LastError(win: seq<real>, c: real, m: real, b: real, k: real) returns (square: real)
    requires win != []
    ensures var j := |win| - 1;
      && square == ((win[j] - m) - b * (j as real - c) - k) * ((win[j] - m) - b * (j as real - c) - k)
      && Residual(win, m - b * c + k, b) == Residual(win[..j], m - b * c + k, b) + square
  {
    var j := |win| - 1;
    ErrorTerm(win[j], j as real, c, m, b, k);
    var e := (win[j] - m) - b * (j as real - c) - k;
    square := e * e;
  }

  /** One more value adds the same to the error and to its expansion. */
  lemma BothGrow(win: seq<real>, c: real, m: real, b: real, k: real, s: Sums) returns (square: real)
    requires win != []
    ensures var j := |win| - 1;
      && Residual(win, m - b * c + k, b) == Residual(win[..j], m - b * c + k, b) + square
      && Expansion(s, b, k) + square == Expansion(OneMore(s, win[j] - m, j as real - c), b, k)
  {
    var j := |win| - 1;
    square := LastError(win, c, m, b, k);
    ExpansionStep(s, b, k, win[j] - m, j as real - c, square);
  }

  lemma ExpandsMore(win: seq<real>, c: real, m: real, b: real, k: real)
    requires win != [] && Expands(win[..|win| - 1], c, m, b, k)
    ensures Expands(win, c, m, b, k)
  {
    var s := SumsOf(win[..|win| - 1], c, m);
    var square := BothGrow(win, c, m, b, k, s);
    SumsOneMore(win, c, m);
  }

  /** The error of a line, by the centred sums. */
  lemma {:induction false} ResidualExpands(win: seq<real>, c: real, m: real, b: real, k: real)
    ensures Expands(win, c, m, b, k)
  {
    if win != [] {
      ResidualExpands(win[..|win| - 1], c, m, b, k);
      ExpandsMore(win, c, m, b, k);
    }
  }

  /** With centred sums the error is least at `b = xy / xx` and `k = 0`. */
  lemma LeastAt(s: Sums, best: real, b: real, k: real)
    requires s.n >= 0.0 && s.xx > 0.0 && s.x == 0.0 && s.y == 0.0 && best == s.xy / s.xx
    ensures Expansion(s, best, 0.0) <= Expansion(s, b, k)
  {
    assert s.xy == best * s.xx;
    var d := b - best;
    assert s.xx * (d * d) == b * b * s.xx - 2.0 * b * (best * s.xx) + best * best * s.xx;
    assert 2.0 * best * s.xy == 2.0 * (best * best * s.xx);
    assert d * d >= 0.0 && k * k >= 0.0;
    NonNegative(s.xx, d * d);
    NonNegative(s.n, k * k);
  }

  lemma NonNegative(a: real, b: real)
    requires a >= 0.0 && b >= 0.0
    ensures a * b >= 0.0
  {}

  lemma SameLine(m: real, b: real, c: real, a: real)
    ensures m - b * c + (a + b * c - m) == a && m - b * c + 0.0 == m - b * c
  {}

  /** No line has a smaller squared error than the one with this slope through the means. */
  lemma SlopeIsLeastSquares(win: seq<real>, a: real, b: real)
    requires |win| >= 2
    ensures Residual(win, Mean(win) - Slope(win) * Half(|win|), Slope(win)) <= Residual(win, a, b)
  {
    var c, m, best := Half(|win|), Mean(win), Slope(win);
    ResidualExpands(win, c, m, b, a + b * c - m);
    ResidualExpands(win, c, m, best, 0.0);
    SameLine(m, b, c, a);
    SameLine(m, best, c, a);
    CenteredSums(win);
    LeastAt(SumsOf(win, c, m), best, b, a + b * c - m);
  }

  lemma CenteredSums(win: seq<real>)
    requires |win| >= 2
    ensures var s := SumsOf(win, Half(|win|), Mean(win));
      s.n >= 0.0 && s.xx > 0.0 && s.x == 0.0 && s.y == 0.0 && Slope(win) == s.xy / s.xx
  {
    CenteredX(|win|);
    DeviationsCancel(win);
    DenominatorPositive(|win|);
  }
}
