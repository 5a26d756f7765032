/** Mean and spread of a series, in exact arithmetic. */
module Moments {

  function Total(xs: seq<real>): real {
    if xs == [] then 0.0 else xs[0] + Total(xs[1..])
  }

  function Square(d: real): real {
    d * d
  }

  function SquareTotal(xs: seq<real>, mu: real): real {
    if xs == [] then 0.0 else Square(xs[0] - mu) + SquareTotal(xs[1..], mu)
  }

  lemma ProductNonNegative(a: real, b: real)
    requires a >= 0.0 && b >= 0.0
    ensures a * b >= 0.0
  {
  }

  function Parabola(mu: real): real -> real {
    x => Square(x - mu)
  }

  function Chord(w: real, c: real): real -> real {
    x => x * w + c
  }

  lemma Factored(x: real, mu: real, lo: real, hi: real)
    ensures x * (hi + lo - 2.0 * mu) + (mu * mu - hi * lo) - (x - mu) * (x - mu) == (hi - x) * (x - lo)
  {
  }

  /** Between lo and hi the line through the squares there lies above. */
  lemma UnderChord(x: real, mu: real, lo: real, hi: real, w: real, c: real)
    requires lo <= x <= hi && w == hi + lo - 2.0 * mu && c == mu * mu - hi * lo
    ensures Square(x - mu) <= x * w + c
  {
    ProductNonNegative(hi - x, x - lo);
    Factored(x, mu, lo, hi);
  }

  lemma ChordAt(mu: real, lo: real, hi: real, w: real, c: real)
    requires w == hi + lo - 2.0 * mu && c == mu * mu - hi * lo
    ensures mu * w + c == (hi - mu) * (mu - lo)
  {
    Factored(mu, mu, lo, hi);
  }

  function SumOf(f: real -> real, xs: seq<real>): real {
    if xs == [] then 0.0 else f(xs[0]) + SumOf(f, xs[1..])
  }

  lemma {:induction false} SumMonotone(f: real -> real, g: real -> real, xs: seq<real>)
    requires forall i | 0 <= i < |xs| :: f(xs[i]) <= g(xs[i])
    ensures SumOf(f, xs) <= SumOf(g, xs)
  {
    if xs != [] { SumMonotone(f, g, xs[1..]); }
  }

  lemma {:induction false} SquareTotalIsSum(f: real -> real, xs: seq<real>, mu: real)
    requires forall x: real :: f(x) == Square(x - mu)
    ensures SquareTotal(xs, mu) == SumOf(f, xs)
  {
    if xs != [] { SquareTotalIsSum(f, xs[1..], mu); }
  }

  lemma OneMore(x: real, sum: real, w: real, c: real, n: real)
    ensures (x * w + c) + (sum * w + (n - 1.0) * c) == (x + sum) * w + n * c
  {
    assert (x + sum) * w == x * w + sum * w && (n - 1.0) * c == n * c - c;
  }

  lemma {:induction false} SumOfLine(f: real -> real, xs: seq<real>, w: real, c: real, n: real)
    requires (forall x: real :: f(x) == x * w + c) && n == |xs| as real
    ensures SumOf(f, xs) == Total(xs) * w + n * c
  {
    if xs != [] {
      SumOfLine(f, xs[1..], w, c, n - 1.0);
      OneMore(xs[0], Total(xs[1..]), w, c, n);
    }
  }

  lemma SquaresUnderChord(xs: seq<real>, mu: real, lo: real, hi: real, w: real, c: real)
    requires forall i | 0 <= i < |xs| :: lo <= xs[i] <= hi
    requires w == hi + lo - 2.0 * mu && c == mu * mu - hi * lo
    ensures SumOf(Parabola(mu), xs) <= SumOf(Chord(w, c), xs)
  {
    forall i | 0 <= i < |xs| ensures Parabola(mu)(xs[i]) <= Chord(w, c)(xs[i]) {
      UnderChord(xs[i], mu, lo, hi, w, c);
    }
    SumMonotone(Parabola(mu), Chord(w, c), xs);
  }

  lemma Below(xs: seq<real>, mu: real, w: real, c: real, n: real)
    requires SumOf(Parabola(mu), xs) <= SumOf(Chord(w, c), xs) && n == |xs| as real
    ensures SquareTotal(xs, mu) <= Total(xs) * w + n * c
  {
    SquareTotalIsSum(Parabola(mu), xs, mu);
    SumOfLine(Chord(w, c), xs, w, c, n);
  }

  lemma CancelFactor(n: real, q: real, b: real)
    requires n > 0.0 && n * q <= n * b
    ensures q <= b
  {
    if q > b {
      StrictProduct(n, b, q);
    }
  }

  lemma StrictProduct(n: real, b: real, q: real)
    requires n > 0.0 && q > b
    ensures n * q > n * b
  {
    assert n * (q - b) > 0.0;
  }

  lemma Combine(n: real, mu: real, w: real, c: real, q: real, sum: real, dev: real, bound: real)
    requires n > 0.0 && sum == n * mu && dev == n * q && bound == mu * w + c
    requires dev <= sum * w + n * c
    ensures q <= bound
  {
    assert (n * mu) * w + n * c == n * (mu * w + c);
    CancelFactor(n, q, mu * w + c);
  }

  lemma SpreadOf(xs: seq<real>, n: real, mu: real, q: real, w: real, c: real)
    requires xs != [] && n == |xs| as real && SumOf(Parabola(mu), xs) <= SumOf(Chord(w, c), xs)
    requires Total(xs) == n * mu && SquareTotal(xs, mu) == n * q
    ensures q <= mu * w + c
  {
    Below(xs, mu, w, c, n);
    Combine(n, mu, w, c, q, Total(xs), SquareTotal(xs, mu), mu * w + c);
  }

  // ---------------------------------------------------------------- of integer samples

  function Reals(xs: seq<int>): seq<real> {
    seq(|xs|, i requires 0 <= i < |xs| => xs[i] as real)
  }

  function Mean(xs: seq<int>): real
    requires xs != []
  {
    Total(Reals(xs)) / |xs| as real
  }

  /** The square of statistics.pstdev. */
  function Variance(xs: seq<int>): real
    requires xs != []
  {
    if |xs| > 1 then SquareTotal(Reals(xs), Mean(xs)) / |xs| as real else 0.0
  }

  lemma QuotientTimes(a: real, n: real)
    requires n > 0.0
    ensures n * (a / n) == a
  {
  }

  lemma MeanTimesCount(xs: seq<int>, mu: real)
    requires xs != [] && mu == Mean(xs)
    ensures Total(Reals(xs)) == |xs| as real * mu
    ensures |xs| == 1 ==> mu == xs[0] as real
  {
    QuotientTimes(Total(Reals(xs)), |xs| as real);
    if |xs| == 1 {
      assert Reals(xs) == [xs[0] as real];
    }
  }

  lemma VarianceTimesCount(xs: seq<int>, mu: real, q: real)
    requires |xs| > 1 && mu == Mean(xs) && q == Variance(xs)
    ensures SquareTotal(Reals(xs), mu) == |xs| as real * q
  {
    QuotientTimes(SquareTotal(Reals(xs), mu), |xs| as real);
  }

  function Squared(): real -> real {
    x => x * x
  }

  lemma {:induction false} SumOfBoth(f: real -> real, g: real -> real, h: real -> real, xs: seq<real>)
    requires forall x: real :: h(x) == f(x) + g(x)
    ensures SumOf(h, xs) == SumOf(f, xs) + SumOf(g, xs)
  {
    if xs != [] { SumOfBoth(f, g, h, xs[1..]); }
  }

  lemma SquareInParts(x: real, mu: real, w: real, c: real)
    requires w == 2.0 * mu && c == -(mu * mu)
    ensures x * x == Square(x - mu) + (x * w + c)
  {
  }

  lemma SquaresInParts(xs: seq<real>, mu: real, w: real, c: real)
    requires w == 2.0 * mu && c == -(mu * mu)
    ensures SumOf(Squared(), xs) == SumOf(Parabola(mu), xs) + SumOf(Chord(w, c), xs)
  {
    forall x: real ensures Squared()(x) == Parabola(mu)(x) + Chord(w, c)(x) {
      SquareInParts(x, mu, w, c);
    }
    SumOfBoth(Parabola(mu), Chord(w, c), Squared(), xs);
  }

  lemma SumOfSquares(xs: seq<real>, mu: real, w: real, c: real, n: real)
    requires SumOf(Squared(), xs) == SumOf(Parabola(mu), xs) + SumOf(Chord(w, c), xs) && n == |xs| as real
    ensures SumOf(Squared(), xs) == SquareTotal(xs, mu) + (Total(xs) * w + n * c)
  {
    SquareTotalIsSum(Parabola(mu), xs, mu);
    SumOfLine(Chord(w, c), xs, w, c, n);
  }

  lemma Gathered(n: real, mu: real, w: real, c: real, q: real, dev: real, sum: real, squares: real)
    requires w == 2.0 * mu && c == -(mu * mu) && sum == n * mu && dev == n * q && squares == dev + (sum * w + n * c)
    ensures n * (q + mu * mu) == squares
  {
    var m := n * (mu * mu);
    assert sum * w == 2.0 * m && n * c == -m;
    assert n * (q + mu * mu) == n * q + m;
  }

  lemma OneSquare(x: real)
    ensures SumOf(Squared(), [x]) == x * x
  {
    assert SumOf(Squared(), [x][1..]) == 0.0;
  }

  lemma VarianceOfMany(xs: seq<int>, mu: real, q: real, w: real, c: real)
    requires |xs| > 1 && mu == Mean(xs) && q == Variance(xs) && w == 2.0 * mu && c == -(mu * mu)
    ensures |xs| as real * (q + mu * mu) == SumOf(Squared(), Reals(xs))
  {
    var rs, n := Reals(xs), |xs| as real;
    MeanTimesCount(xs, mu);
    VarianceTimesCount(xs, mu, q);
    SquaresInParts(rs, mu, w, c);
    SumOfSquares(rs, mu, w, c, n);
    Gathered(n, mu, w, c, q, SquareTotal(rs, mu), Total(rs), SumOf(Squared(), rs));
  }

  /** The variance and the square of the mean make up the mean of the squares. */
  lemma VarianceAndMean(xs: seq<int>, mu: real, q: real)
    requires xs != [] && mu == Mean(xs) && q == Variance(xs)
    ensures |xs| as real * (q + mu * mu) == SumOf(Squared(), Reals(xs))
  {
    if |xs| > 1 {
      VarianceOfMany(xs, mu, q, 2.0 * mu, -(mu * mu));
    } else {
      MeanTimesCount(xs, mu);
      OneSquare(mu);
      assert Reals(xs) == [mu];
    }
  }

  lemma SpreadOfMany(xs: seq<int>, mu: real, q: real, lo: real, hi: real)
    requires |xs| > 1 && mu == Mean(xs) && q == Variance(xs)
    requires forall i | 0 <= i < |xs| :: lo <= xs[i] as real <= hi
    ensures q <= (hi - mu) * (mu - lo)
  {
    MeanTimesCount(xs, mu);
    VarianceTimesCount(xs, mu, q);
    var rs := Reals(xs);
    forall i | 0 <= i < |rs| ensures lo <= rs[i] <= hi {
      assert rs[i] == xs[i] as real;
    }
    var w, c := hi + lo - 2.0 * mu, mu * mu - hi * lo;
    SquaresUnderChord(rs, mu, lo, hi, w, c);
    SpreadOf(rs, |xs| as real, mu, q, w, c);
    ChordAt(mu, lo, hi, w, c);
  }

  /** stdev squared <= (max - mean)(mean - min), where lo and hi are the extremes. */
  lemma SpreadBound(xs: seq<int>, mu: real, q: real, lo: real, hi: real)
    requires xs != [] && mu == Mean(xs) && q == Variance(xs)
    requires forall i | 0 <= i < |xs| :: lo <= xs[i] as real <= hi
    ensures q <= (hi - mu) * (mu - lo)
  {
    if |xs| > 1 {
      SpreadOfMany(xs, mu, q, lo, hi);
    } else {
      MeanTimesCount(xs, mu);
      ProductNonNegative(hi - mu, mu - lo);
    }
  }
}
