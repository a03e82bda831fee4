/** Mean and population variance as the services compute them, over the reals. */
module Statistics {

  function Sum(xs: seq<real>): real {
    if xs == [] then 0.0 else xs[0] + Sum(xs[1..])
  }

  function Square(x: real): real { x * x }

  /** Sum of squared distances from `m`. */
  function SqDev(xs: seq<real>, m: real): real {
    if xs == [] then 0.0 else Square(xs[0] - m) + SqDev(xs[1..], m)
  }

  function Max(xs: seq<real>): (m: real)
    requires xs != []
    ensures exists i :: 0 <= i < |xs| && xs[i] == m
    ensures forall i :: 0 <= i < |xs| ==> xs[i] <= m
  {
    if |xs| == 1 then xs[0]
    else
      var m := Max(xs[1..]);
      assert forall i :: 0 < i < |xs| ==> xs[i] == xs[1..][i - 1];
      if xs[0] >= m then xs[0] else m
  }

  function Mean(xs: seq<real>): real
    requires xs != []
  {
    Sum(xs) / |xs| as real
  }

  /** `sum((x - mean) ** 2 for x in xs) / n`. */
  function Variance(xs: seq<real>): real
    requires xs != []
  {
    SqDev(xs, Mean(xs)) / |xs| as real
  }

  predicate NonNegative(xs: seq<real>) { forall i :: 0 <= i < |xs| ==> xs[i] >= 0.0 }

  // ---------------------------------------------------------------- arithmetic steps
  //
  // The inductions below state their polynomial facts through these predicates, so that
  // each arithmetic step is proved once, on plain reals.

  /** Cauchy-Schwarz for `n` numbers adding up to `s` whose squares add up to `q`. */
  predicate CauchySchwarz(n: real, s: real, q: real) { q >= 0.0 && Square(s) <= n * q }

  /** How a sum of squared distances moves with its centre: `q` about 0, `t` about `m`. */
  predicate Shifted(n: real, m: real, s: real, q: real, t: real) {
    t == q - 2.0 * (m * s) + n * Square(m)
  }

  /** `m` and `v` are the mean and the variance of `n` numbers. */
  predicate Moments(n: real, m: real, v: real, s: real, t: real) { s == n * m && t == n * v }

  lemma SameSign(x: real, y: real, product: real)
    requires (x > 0.0 && y > 0.0) || (x < 0.0 && y < 0.0)
    requires product == x * y
    ensures product > 0.0
  {}

  lemma SquareNonNeg(x: real)
    ensures Square(x) >= 0.0
  {}

  lemma SquarePositive(x: real)
    requires x != 0.0
    ensures Square(x) > 0.0
  {
    SameSign(x, x, Square(x));
  }

  lemma CancelLeft(n: real, x: real, y: real)
    requires n > 0.0 && n * x <= n * y
    ensures x <= y
  {}

  lemma CrossTerm(n: real, s: real, q: real, x: real, cross: real)
    requires n > 0.0 && Square(s) <= n * q && cross == s * x
    ensures 2.0 * cross <= q + n * Square(x)
  {
    var y := n * x;
    SquareNonNeg(s - y);
    assert Square(s - y) == Square(s) - 2.0 * (s * y) + Square(y);
    assert s * y == n * cross;
    assert Square(y) == n * (n * Square(x));
    assert n * (q + n * Square(x)) == n * q + n * (n * Square(x));
    CancelLeft(n, 2.0 * cross, q + n * Square(x));
  }

  lemma CauchyStep(n: real, s: real, q: real, x: real, n1: real, s1: real, q1: real)
    requires n1 == n + 1.0 && s1 == s + x && q1 == Square(x) + q
    requires n >= 0.0 && (n == 0.0 ==> s == 0.0 && q == 0.0) && CauchySchwarz(n, s, q)
    ensures CauchySchwarz(n1, s1, q1)
  {
    SquareNonNeg(x);
    if n > 0.0 {
      CrossTerm(n, s, q, x, s * x);
      assert Square(s1) == Square(s) + 2.0 * (s * x) + Square(x);
      assert n1 * q1 == n * q + q + n * Square(x) + Square(x);
    }
  }

  lemma ShiftedNext(n: real, m: real, a: real, s: real, q: real, t: real, n1: real, s1: real, q1: real, t1: real)
    requires n1 == n + 1.0 && s1 == a + s && q1 == Square(a - 0.0) + q && t1 == Square(a - m) + t
    requires Shifted(n, m, s, q, t)
    ensures Shifted(n1, m, s1, q1, t1)
  {
    assert Square(a - m) == Square(a) - 2.0 * (m * a) + Square(m);
    assert m * s1 == m * a + m * s;
    assert n1 * Square(m) == n * Square(m) + Square(m);
  }

  lemma SamuelsonStep(n: real, m: real, v: real, x: real, s: real, q: real)
    requires n >= 1.0 && Moments(n, m, v, s, q)
    requires CauchySchwarz(n - 1.0, (s - x) - (n - 1.0) * m, q - Square(x - m))
    ensures Square(x - m) <= (n - 1.0) * v
  {
    var d := Square(x - m);
    assert Square((s - x) - (n - 1.0) * m) == d by { assert (s - x) - (n - 1.0) * m == -(x - m); }
    assert d <= (n - 1.0) * (n * v - d);
    assert (n - 1.0) * (n * v - d) == n * ((n - 1.0) * v) - n * d + d;
    CancelLeft(n, d, (n - 1.0) * v);
  }

  lemma MeanAtMost(n: real, m: real, s: real, bound: real)
    requires n > 0.0 && s == n * m && s <= n * bound
    ensures m <= bound
  {}

  lemma VarianceStep(n: real, m: real, v: real, s: real, q: real, t: real)
    requires n > 0.0 && Moments(n, m, v, s, t) && Shifted(n, m, s, q, t) && q <= Square(s)
    ensures v <= (n - 1.0) * Square(m)
  {
    assert m * s == n * Square(m);
    assert Square(s) == n * (n * Square(m));
    assert n * ((n - 1.0) * Square(m)) == n * (n * Square(m)) - n * Square(m);
    CancelLeft(n, v, (n - 1.0) * Square(m));
  }

  // ---------------------------------------------------------------- inductions over the samples

  lemma {:induction false} Cauchy(xs: seq<real>, n: real, m: real)
    requires n == |xs| as real
    ensures CauchySchwarz(n, Sum(xs) - n * m, SqDev(xs, m))
  {
    if xs != [] {
      var r := xs[1..];
      Cauchy(r, n - 1.0, m);
      assert n * m == (n - 1.0) * m + m;
      CauchyStep(n - 1.0, Sum(r) - (n - 1.0) * m, SqDev(r, m), xs[0] - m, n, Sum(xs) - n * m, SqDev(xs, m));
    }
  }

  lemma {:induction false} Shift(xs: seq<real>, n: real, m: real)
    requires n == |xs| as real
    ensures Shifted(n, m, Sum(xs), SqDev(xs, 0.0), SqDev(xs, m))
  {
    if xs != [] {
      var r := xs[1..];
      Shift(r, n - 1.0, m);
      ShiftedNext(n - 1.0, m, xs[0], Sum(r), SqDev(r, 0.0), SqDev(r, m), n, Sum(xs), SqDev(xs, 0.0), SqDev(xs, m));
    }
  }

  lemma {:induction false} Remove(xs: seq<real>, j: nat, m: real)
    requires j < |xs|
    ensures var rest := xs[..j] + xs[j + 1..];
      Sum(xs) == xs[j] + Sum(rest) && SqDev(xs, m) == Square(xs[j] - m) + SqDev(rest, m)
  {
    var rest := xs[..j] + xs[j + 1..];
    if j == 0 {
      assert rest == xs[1..];
    } else {
      Remove(xs[1..], j - 1, m);
      assert rest[1..] == xs[1..][..j - 1] + xs[1..][j..];
    }
  }

  lemma {:induction false} ConstantSums(xs: seq<real>, n: real, c: real, m: real)
    requires n == |xs| as real && forall i :: 0 <= i < |xs| ==> xs[i] == c
    ensures Sum(xs) == n * c && SqDev(xs, m) == n * Square(c - m)
  {
    if xs != [] {
      ConstantSums(xs[1..], n - 1.0, c, m);
    }
  }

  lemma {:induction false} SumBounds(xs: seq<real>)
    requires NonNegative(xs)
    ensures Sum(xs) >= 0.0
    ensures forall i :: 0 <= i < |xs| ==> xs[i] <= Sum(xs)
    ensures SqDev(xs, 0.0) <= Square(Sum(xs))
  {
    if xs != [] {
      SumBounds(xs[1..]);
      var a, s := xs[0], Sum(xs[1..]);
      assert a * s >= 0.0;
      assert Square(a + s) == Square(a) + 2.0 * (a * s) + Square(s);
      assert forall i :: 0 < i < |xs| ==> xs[i] == xs[1..][i - 1];
    }
  }

  lemma {:induction false} SumAtMost(xs: seq<real>, n: real, bound: real)
    requires n == |xs| as real && forall i :: 0 <= i < |xs| ==> xs[i] <= bound
    ensures Sum(xs) <= n * bound
  {
    if xs != [] {
      SumAtMost(xs[1..], n - 1.0, bound);
      assert (n - 1.0) * bound == n * bound - bound;
    }
  }

  // ---------------------------------------------------------------- bounds

  lemma MeanVariance(xs: seq<real>, n: real)
    requires xs != [] && n == |xs| as real
    ensures Moments(n, Mean(xs), Variance(xs), Sum(xs), SqDev(xs, Mean(xs)))
    ensures Variance(xs) >= 0.0
  {
    Cauchy(xs, n, Mean(xs));
    MomentsOf(n, Sum(xs), SqDev(xs, Mean(xs)), Mean(xs), Variance(xs));
  }

  lemma SumIsMeans(xs: seq<real>, n: real)
    requires xs != [] && n == |xs| as real
    ensures Sum(xs) == n * Mean(xs)
  {
    Quotient(Sum(xs), n);
  }

  lemma MomentsOf(n: real, s: real, t: real, m: real, v: real)
    requires n > 0.0 && m == s / n && v == t / n && t >= 0.0
    ensures Moments(n, m, v, s, t) && v >= 0.0
  {
    Quotient(s, n);
    Quotient(t, n);
    CancelLeft(n, 0.0, v);
  }

  lemma Quotient(x: real, n: real)
    requires n > 0.0
    ensures x == n * (x / n)
  {}

  lemma CauchyWithout(xs: seq<real>, j: nat, k: real, m: real)
    requires j < |xs| && k == |xs| as real - 1.0
    ensures CauchySchwarz(k, (Sum(xs) - xs[j]) - k * m, SqDev(xs, m) - Square(xs[j] - m))
  {
    Remove(xs, j, m);
    Cauchy(xs[..j] + xs[j + 1..], k, m);
  }

  /** Samuelson's inequality: no sample is further than sqrt(n-1) deviations from the mean. */
  lemma Samuelson(xs: seq<real>, j: nat, n: real)
    requires j < |xs| && n == |xs| as real
    ensures Square(xs[j] - Mean(xs)) <= (n - 1.0) * Variance(xs)
  {
    MeanVariance(xs, n);
    CauchyWithout(xs, j, n - 1.0, Mean(xs));
    SamuelsonStep(n, Mean(xs), Variance(xs), xs[j], Sum(xs), SqDev(xs, Mean(xs)));
  }

  predicate Flat(xs: seq<real>) { forall i, j :: 0 <= i < |xs| && 0 <= j < |xs| ==> xs[i] == xs[j] }

  /** The two-pass variance is zero on exactly the flat sample lists. */
  lemma ZeroVariance(xs: seq<real>)
    requires xs != []
    ensures Variance(xs) == 0.0 <==> Flat(xs)
  {
    var m, n := Mean(xs), |xs| as real;
    if Variance(xs) == 0.0 {
      forall i | 0 <= i < |xs|
        ensures xs[i] == m
      {
        Samuelson(xs, i, n);
        if xs[i] != m { SquarePositive(xs[i] - m); }
      }
    }
    if Flat(xs) {
      ConstantSums(xs, n, xs[0], m);
      MeanVariance(xs, n);
      assert m == xs[0];
    }
  }

  /** `top` is a largest sample. */
  predicate IsMax(xs: seq<real>, top: real) { top in xs && forall i :: 0 <= i < |xs| ==> xs[i] <= top }

  /** Non-negative samples: the mean is at least max/n. */
  lemma MeanBounds(xs: seq<real>, n: real, top: real)
    requires IsMax(xs, top) && NonNegative(xs) && n == |xs| as real
    ensures Mean(xs) <= top <= n * Mean(xs)
  {
    SumIsMeans(xs, n);
    MeanIsBounded(xs, n, Mean(xs), top);
  }

  lemma MeanIsBounded(xs: seq<real>, n: real, m: real, top: real)
    requires IsMax(xs, top) && NonNegative(xs) && n == |xs| as real && Sum(xs) == n * m
    ensures m <= top <= n * m
  {
    SumBounds(xs);
    SumAtMost(xs, n, top);
    MeanAtMost(n, m, Sum(xs), top);
  }

  /** Non-negative samples: the variance is at most (n-1) squared means. */
  lemma VarianceBound(xs: seq<real>, n: real)
    requires xs != [] && NonNegative(xs) && n == |xs| as real
    ensures Variance(xs) <= (n - 1.0) * Square(Mean(xs))
  {
    var m := Mean(xs);
    MeanVariance(xs, n);
    SumBounds(xs);
    Shift(xs, n, m);
    VarianceStep(n, m, Variance(xs), Sum(xs), SqDev(xs, 0.0), SqDev(xs, m));
  }

  // ---------------------------------------------------------------- one sample apart from the rest

  /** One sample at `a`, the other `n - 1` at `b`. */
  function OneApart(n: nat, a: real, b: real): (xs: seq<real>)
    requires n >= 1
    ensures |xs| == n && xs[0] == a && forall i :: 1 <= i < n ==> xs[i] == b
  {
    [a] + seq(n - 1, i => b)
  }

  predicate ApartMoments(n: real, a: real, b: real, m: real, v: real) {
    n * m == a + (n - 1.0) * b && n * (a - m) == (n - 1.0) * (a - b)
    && v * Square(n) == (n - 1.0) * Square(a - b)
  }

  lemma OneApartSums(size: nat, n: real, a: real, b: real, m: real)
    requires size >= 1 && n == size as real
    ensures Sum(OneApart(size, a, b)) == a + (n - 1.0) * b
    ensures SqDev(OneApart(size, a, b), m) == Square(a - m) + (n - 1.0) * Square(b - m)
  {
    var xs := OneApart(size, a, b);
    ConstantSums(xs[1..], n - 1.0, b, m);
  }

  /** Samuelson's bound is tight: the sample that stands apart reaches it. */
  lemma OneApartMoments(size: nat, n: real, a: real, b: real)
    requires size >= 1 && n == size as real
    ensures ApartMoments(n, a, b, Mean(OneApart(size, a, b)), Variance(OneApart(size, a, b)))
  {
    var xs := OneApart(size, a, b);
    MeanVariance(xs, n);
    OneApartSums(size, n, a, b, Mean(xs));
    OneApartStep(n, Mean(xs), Variance(xs), a, b);
  }

  lemma OneApartStep(n: real, m: real, v: real, a: real, b: real)
    requires n >= 1.0 && Moments(n, m, v, a + (n - 1.0) * b, Square(a - m) + (n - 1.0) * Square(b - m))
    ensures ApartMoments(n, a, b, m, v)
  {
    var k, d, x, y := n - 1.0, a - b, a - m, b - m;
    assert n * x == k * d by { assert n * (a - m) == n * a - n * m; assert k * (a - b) == n * a - a - k * b; }
    assert n * y == -d by { assert n * (b - m) == n * b - n * m; assert n * b == k * b + b; }
    assert Square(n * x) == Square(n) * Square(x) && Square(n * y) == Square(n) * Square(y);
    assert Square(k * d) == k * (k * Square(d)) && Square(-d) == Square(d);
    assert Square(n) * (Square(x) + k * Square(y)) == Square(n) * Square(x) + k * (Square(n) * Square(y));
    assert k * (k * Square(d)) + k * Square(d) == n * (k * Square(d));
    assert Square(n) * (n * v) == n * (v * Square(n));
    CancelLeft(n, v * Square(n), k * Square(d));
    CancelLeft(n, k * Square(d), v * Square(n));
  }

  // ---------------------------------------------------------------- decimal rounding

  /** Python's `round` to an integer: ties go to the even neighbour. */
  function RoundHalfEven(x: real): int {
    var f := x.Floor;
    var rest := x - f as real;
    if rest < 0.5 then f
    else if rest > 0.5 then f + 1
    else if f % 2 == 0 then f else f + 1
  }

  /** Where a rounded value reaches an integer: at the half below it, tie included only onto even. */
  lemma RoundReaches(x: real, k: int)
    ensures RoundHalfEven(x) >= k <==> x > k as real - 0.5 || (x == k as real - 0.5 && k % 2 == 0)
  {
    var f := x.Floor;
    assert f as real <= x < f as real + 1.0;
    if x == k as real - 0.5 { assert f == k - 1; }
  }
}
