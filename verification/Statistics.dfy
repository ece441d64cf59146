/** Sums over real sequences and the inequalities the window statistics rest on. */
module Statistics {
  import opened Base


  function Sum(s: seq<real>): real {
    if s == [] then 0.0 else Sum(s[..|s| - 1]) + s[|s| - 1]
  }

  function SumSquares(s: seq<real>): (q: real)
    ensures q >= 0.0
  {
    if s == [] then 0.0 else SumSquares(s[..|s| - 1]) + s[|s| - 1] * s[|s| - 1]
  }

  /** Each value's distance from `m`. */
  function Deviations(s: seq<real>, m: real): (d: seq<real>)
    ensures |d| == |s| && forall i :: 0 <= i < |s| ==> d[i] == s[i] - m
  {
    seq(|s|, i requires 0 <= i < |s| => s[i] - m)
  }

  function Mean(s: seq<real>): real
    requires s != []
  {
    Sum(s) / |s| as real
  }

  lemma DeviationsInit(s: seq<real>, m: real)
    requires s != []
    ensures Deviations(s, m)[..|s| - 1] == Deviations(s[..|s| - 1], m)
  {}

  lemma {:induction false} SumDeviations(s: seq<real>, m: real)
    ensures Sum(Deviations(s, m)) == Sum(s) - |s| as real * m
  {
    if s != [] {
      DeviationsInit(s, m);
      SumDeviations(s[..|s| - 1], m);
      assert (|s| as real) * m == (|s| - 1) as real * m + m;
    }
  }

  /** Around their mean the deviations cancel. */
  lemma DeviationsCancel(s: seq<real>)
    requires s != []
    ensures Sum(Deviations(s, Mean(s))) == 0.0
  {
    var m, n := Mean(s), |s| as real;
    TimesQuotient(Sum(s), n, m);
    SumDeviations(s, m);
  }

  lemma TimesQuotient(a: real, n: real, q: real)
    requires n != 0.0 && q == a / n
    ensures n * q == a
  {}

  // ---- Cauchy-Schwarz -------------------------------------------------------

  /** One step of the induction: from n terms to n + 1. */
  lemma CauchyStep(n: real, sum: real, squares: real, x: real)
    requires n > 0.0 && squares >= 0.0 && sum * sum <= n * squares
    ensures (sum + x) * (sum + x) <= (n + 1.0) * (squares + x * x)
  {
    var e := sum - n * x;
    assert e * e >= 0.0;
    assert e * e == sum * sum - 2.0 * n * (sum * x) + n * n * (x * x);
    assert 2.0 * n * (sum * x) <= n * squares + n * n * (x * x);
    assert n * (2.0 * (sum * x)) <= n * (squares + n * (x * x));
    DivideOut(n, 2.0 * (sum * x), squares + n * (x * x));
    assert (sum + x) * (sum + x) == sum * sum + 2.0 * (sum * x) + x * x;
    assert (n + 1.0) * (squares + x * x) == n * squares + n * (x * x) + squares + x * x;
  }

  lemma ProductPositive(a: real, b: real, product: real)
    requires a > 0.0 && b > 0.0 && product == a * b
    ensures product > 0.0
  {}

  lemma DivideOut(n: real, a: real, b: real)
    requires n > 0.0 && n * a <= n * b
    ensures a <= b
  {
    if a > b { ProductPositive(n, a - b, n * (a - b)); }
  }

  /** `sum * sum <= n * squares`, kept under a name while sums are taken apart. */
  predicate Bounds(n: real, sum: real, squares: real) { sum * sum <= n * squares }

  lemma OneValue(s: seq<real>, x: real, square: real)
    requires |s| == 1 && x == s[0] && square == x * x
    ensures Sum(s) == x && SumSquares(s) == square
  {
    var none := s[..|s| - 1];
    assert none == [];
    assert Sum(none) == 0.0 && SumSquares(none) == 0.0;
  }

  lemma OneBounds(x: real, square: real)
    requires square == x * x
    ensures Bounds(1.0, x, square)
  {}

  lemma {:induction false} CauchyBounds(s: seq<real>, n: real)
    requires n == |s| as real
    ensures Bounds(n, Sum(s), SumSquares(s))
  {
    if |s| == 1 {
      OneValue(s, s[0], s[0] * s[0]);
      OneBounds(s[0], s[0] * s[0]);
    } else if s != [] {
      var front := s[..|s| - 1];
      CauchyBounds(front, n - 1.0);
      Extend(n - 1.0, Sum(front), SumSquares(front), s[|s| - 1], n, Sum(s), SumSquares(s));
    }
  }

  lemma Extend(n: real, sum: real, squares: real, x: real, n': real, sum': real, squares': real)
    requires n > 0.0 && squares >= 0.0 && Bounds(n, sum, squares)
    requires n' == n + 1.0 && sum' == sum + x && squares' == squares + x * x
    ensures Bounds(n', sum', squares')
  {
    CauchyStep(n, sum, squares, x);
  }

  /** The square of a sum is at most the count times the sum of the squares. */
  lemma Cauchy(s: seq<real>)
    ensures Sum(s) * Sum(s) <= |s| as real * SumSquares(s)
  {
    CauchyBounds(s, |s| as real);
  }

  /** When values cancel, the square of the last is bounded by a share of all squares. */
  lemma LastShare(d: seq<real>)
    requires d != [] && Sum(d) == 0.0
    ensures |d| as real * (d[|d| - 1] * d[|d| - 1]) <= (|d| - 1) as real * SumSquares(d)
  {
    var front, x, n := d[..|d| - 1], d[|d| - 1], (|d| - 1) as real;
    Cauchy(front);
    assert Sum(front) == -x;
    assert x * x <= n * SumSquares(front);
    assert SumSquares(d) == SumSquares(front) + x * x;
    assert n * SumSquares(d) == n * SumSquares(front) + n * (x * x);
    assert |d| as real * (x * x) == n * (x * x) + x * x;
  }

  // ---- Parts of a sum of squares --------------------------------------------

  lemma {:induction false} SquaresAppend(a: seq<real>, b: seq<real>)
    ensures SumSquares(a + b) == SumSquares(a) + SumSquares(b)
  {
    if b == [] {
      assert a + b == a;
    } else {
      SquaresAppend(a, b[..|b| - 1]);
      assert (a + b)[..|a + b| - 1] == a + b[..|b| - 1];
    }
  }

  lemma SquaresSlice(d: seq<real>, from: nat, to: nat)
    requires from <= to <= |d|
    ensures SumSquares(d[from..to]) <= SumSquares(d)
  {
    assert d == d[..from] + d[from..to] + d[to..];
    SquaresAppend(d[..from], d[from..to]);
    SquaresAppend(d[..from] + d[from..to], d[to..]);
  }

  lemma {:induction false} CopiesSums(x: real, n: nat)
    ensures Sum(Copies(x, n)) == n as real * x && SumSquares(Copies(x, n)) == n as real * (x * x)
  {
    if n > 0 {
      CopiesSums(x, n - 1);
      assert Copies(x, n)[..n - 1] == Copies(x, n - 1);
      assert n as real * x == (n - 1) as real * x + x;
      assert n as real * (x * x) == (n - 1) as real * (x * x) + x * x;
    }
  }
}
