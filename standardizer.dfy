/** The standard-score utility: z-scores with the sample variance and a
    fallback spread of 1, rescaled to mean 50 and spread 10. */
module Standardizer {

  function Sum(xs: seq<real>): real
  {
    if |xs| == 0 then 0.0 else xs[0] + Sum(xs[1..])
  }

  /** Arithmetic mean; 0 for the empty list. */
  function Mean(xs: seq<real>): real
  {
    if |xs| == 0 then 0.0 else Sum(xs) / (|xs| as real)
  }

  /** Sum of the squared deviations of xs from c. */
  function SumSq(xs: seq<real>, c: real): (r: real)
    ensures r >= 0.0
  {
    if |xs| == 0 then 0.0
    else
      SquareSign(xs[0] - c, (xs[0] - c) * (xs[0] - c));
      (xs[0] - c) * (xs[0] - c) + SumSq(xs[1..], c)
  }

  /** Sample variance (denominator n - 1); 0 for fewer than two values. */
  function Variance(xs: seq<real>): (v: real)
    ensures v >= 0.0
  {
    if |xs| > 1 then SumSq(xs, Mean(xs)) / ((|xs| - 1) as real) else 0.0
  }

  /** What the model assumes of the square root it is handed. */
  ghost predicate PositiveOnPositive(sqrt: real -> real)
  {
    forall v :: v > 0.0 ==> sqrt(v) > 0.0
  }

  /** A square root in the exact sense, for the unit-spread lemma only. */
  ghost predicate IsSquareRoot(sqrt: real -> real)
  {
    forall v :: v > 0.0 ==> sqrt(v) > 0.0 && sqrt(v) * sqrt(v) == v
  }

  /** Standard deviation, falling back to 1 when the variance is not positive. */
  function Spread(xs: seq<real>, sqrt: real -> real): (s: real)
    requires PositiveOnPositive(sqrt)
    ensures s > 0.0
  {
    var v := Variance(xs);
    if v > 0.0 then sqrt(v) else 1.0
  }

  /** z-scores, in input order. */
  function Z(xs: seq<real>, sqrt: real -> real): (z: seq<real>)
    requires PositiveOnPositive(sqrt)
    ensures |z| == |xs|
  {
    var m := Mean(xs);
    var s := Spread(xs, sqrt);
    seq(|xs|, i requires 0 <= i < |xs| => (xs[i] - m) / s)
  }

  /** 50 + 10 z for each z, in order. */
  function Rescale(zs: seq<real>): (h: seq<real>)
    ensures |h| == |zs|
  {
    if |zs| == 0 then [] else [50.0 + 10.0 * zs[0]] + Rescale(zs[1..])
  }

  /** Standard scores 50 + 10 z, in input order. */
  function Hensachi(xs: seq<real>, sqrt: real -> real): (h: seq<real>)
    requires PositiveOnPositive(sqrt)
    ensures |h| == |xs|
  {
    Rescale(Z(xs, sqrt))
  }

  lemma {:induction false} RescaleAt(zs: seq<real>, i: int)
    requires 0 <= i < |zs|
    ensures Rescale(zs)[i] == 10.0 * zs[i] + 50.0
  {
    if i > 0 {
      RescaleAt(zs[1..], i - 1);
    }
  }

  /** Standard score i is 50 + 10 times z-score i. */
  lemma HensachiAt(xs: seq<real>, sqrt: real -> real, i: int)
    requires PositiveOnPositive(sqrt)
    requires 0 <= i < |xs|
    ensures Hensachi(xs, sqrt)[i] == 10.0 * Z(xs, sqrt)[i] + 50.0
  {
    RescaleAt(Z(xs, sqrt), i);
  }

  lemma HensachiAffine(xs: seq<real>, sqrt: real -> real)
    requires PositiveOnPositive(sqrt)
    ensures forall i :: 0 <= i < |xs| ==> Hensachi(xs, sqrt)[i] == 10.0 * Z(xs, sqrt)[i] + 50.0
  {
    forall i | 0 <= i < |xs| ensures Hensachi(xs, sqrt)[i] == 10.0 * Z(xs, sqrt)[i] + 50.0 {
      HensachiAt(xs, sqrt, i);
    }
  }

  // ---------------------------------------------------------------------
  // Real-arithmetic facts, each kept apart from the sequence reasoning.
  // Products and quotients that cross a lemma boundary are written with
  // Times and Ratio, so that a caller matches them by their arguments.

  function Times(a: real, b: real): real
  {
    a * b
  }

  function Ratio(a: real, b: real): real
    requires b != 0.0
  {
    a / b
  }

  lemma ScaleSquare(a: real, e: real)
    ensures (a * e) * (a * e) == a * a * (e * e)
  {
  }

  lemma DivAsAffine(x: real, m: real, s: real)
    requires s > 0.0
    ensures (x - m) / s == Times(1.0 / s, x) + (-m / s)
  {
  }

  lemma CancelMean(total: real, n: real, s: real, m: real, a: real, b: real)
    requires n > 0.0 && s > 0.0
    requires m == total / n && a == 1.0 / s && b == -m / s
    ensures Times(a, total) + Times(n, b) == 0.0
  {
    assert n * b == -(total / s);
    assert a * total == total / s;
  }

  lemma CentreToZero(m: real, s: real, a: real, b: real)
    requires s > 0.0 && a == 1.0 / s && b == -m / s
    ensures Times(a, m) + b == 0.0
  {
  }

  lemma UnitRatio(q: real, k: real, s: real, v: real, a: real)
    requires k > 0.0 && s > 0.0 && Times(s, s) == v && v == q / k && a == 1.0 / s
    ensures Times(Times(a, a), q) / k == 1.0
  {
    assert a * a == 1.0 / v;
    assert a * a * q / k == (1.0 / v) * (q / k);
  }

  lemma HundredFold(q: real, k: real)
    requires k > 0.0 && q / k == 1.0
    ensures Times(Times(10.0, 10.0), q) / k == 100.0
  {
  }

  lemma PositiveReciprocal(s: real)
    requires s > 0.0
    ensures 1.0 / s > 0.0
  {
  }

  lemma MeanOfConstant(total: real, n: real, c: real)
    requires n > 0.0 && total == Times(n, c)
    ensures total / n == c
  {
  }

  lemma AffineOrder(a: real, b: real, x: real, y: real)
    requires a > 0.0
    ensures x <= y <==> a * x + b <= a * y + b
    ensures x == y <==> a * x + b == a * y + b
  {
    if x < y {
      assert a * (y - x) > 0.0;
    } else if y < x {
      assert a * (x - y) > 0.0;
    }
  }

  // ---------------------------------------------------------------------
  // Sums of affine images

  /** One step of SumAffine: y = a x + b joins a tail of nt values with
      sum sx whose images sum to st. */
  lemma AffineStep(a: real, b: real, x: real, y: real, s: real, sx: real, st: real, n: real, nt: real)
    requires y == Times(a, x) + b && s == x + sx && n == nt + 1.0
    requires st == Times(a, sx) + Times(nt, b)
    ensures y + st == Times(a, s) + Times(n, b)
  {
    assert a * s == a * x + a * sx;
    assert n * b == nt * b + b;
  }

  lemma {:induction false} SumAffine(xs: seq<real>, ys: seq<real>, a: real, b: real)
    requires |ys| == |xs|
    requires forall i :: 0 <= i < |xs| ==> ys[i] == Times(a, xs[i]) + b
    ensures Sum(ys) == Times(a, Sum(xs)) + Times(|xs| as real, b)
  {
    if |xs| > 0 {
      SumAffine(xs[1..], ys[1..], a, b);
      AffineStep(a, b, xs[0], ys[0], Sum(xs), Sum(xs[1..]), Sum(ys[1..]), |xs| as real, |xs[1..]| as real);
    }
  }

  /** One step of SumSqAffine: y = a x + b and d = a c + b. */
  lemma AffineSquareStep(a: real, b: real, x: real, y: real, c: real, d: real, rx: real, ry: real)
    requires y == Times(a, x) + b && d == Times(a, c) + b
    requires ry == Times(Times(a, a), rx)
    ensures Times(y - d, y - d) + ry == Times(Times(a, a), Times(x - c, x - c) + rx)
  {
    assert y - d == a * (x - c);
    ScaleSquare(a, x - c);
  }

  lemma {:induction false} SumSqAffine(xs: seq<real>, ys: seq<real>, a: real, b: real, c: real, d: real)
    requires |ys| == |xs|
    requires forall i :: 0 <= i < |xs| ==> ys[i] == Times(a, xs[i]) + b
    requires d == Times(a, c) + b
    ensures SumSq(ys, d) == Times(Times(a, a), SumSq(xs, c))
  {
    if |xs| > 0 {
      SumSqAffine(xs[1..], ys[1..], a, b, c, d);
      AffineSquareStep(a, b, xs[0], ys[0], c, d, SumSq(xs[1..], c), SumSq(ys[1..], d));
      assert SumSq(xs, c) == Times(xs[0] - c, xs[0] - c) + SumSq(xs[1..], c);
      assert SumSq(ys, d) == Times(ys[0] - d, ys[0] - d) + SumSq(ys[1..], d);
    }
  }

  lemma ZAt(xs: seq<real>, sqrt: real -> real, i: int)
    requires PositiveOnPositive(sqrt)
    requires 0 <= i < |xs|
    ensures Z(xs, sqrt)[i] == (xs[i] - Mean(xs)) / Spread(xs, sqrt)
  {
  }

  /** Each z-score is an affine image of its own input value, with slope
      1/s and offset -m/s for the mean m and spread s of the whole list. */
  lemma ZAffine(xs: seq<real>, sqrt: real -> real, a: real, b: real)
    requires PositiveOnPositive(sqrt)
    requires a == 1.0 / Spread(xs, sqrt) && b == -Mean(xs) / Spread(xs, sqrt)
    ensures forall i :: 0 <= i < |xs| ==> Z(xs, sqrt)[i] == Times(a, xs[i]) + b
  {
    var s := Spread(xs, sqrt);
    var m := Mean(xs);
    var z := Z(xs, sqrt);
    forall i | 0 <= i < |xs|
      ensures z[i] == Times(a, xs[i]) + b
    {
      ZAt(xs, sqrt, i);
      DivAsAffine(xs[i], m, s);
    }
  }

  // ---------------------------------------------------------------------
  // Properties of the standard scores

  /** z-scores of a non-empty list sum to zero, so their mean is 0. */
  lemma ZMeanZero(xs: seq<real>, sqrt: real -> real)
    requires PositiveOnPositive(sqrt)
    ensures Sum(Z(xs, sqrt)) == 0.0 && Mean(Z(xs, sqrt)) == 0.0
  {
    if |xs| > 0 {
      var s, m := Spread(xs, sqrt), Mean(xs);
      var a, b := 1.0 / s, -m / s;
      ZAffine(xs, sqrt, a, b);
      AffineSumZero(xs, Z(xs, sqrt), s, m, a, b);
    }
  }

  /** The centring step of ZMeanZero, on plain values. */
  lemma AffineSumZero(xs: seq<real>, z: seq<real>, s: real, m: real, a: real, b: real)
    requires |z| == |xs| > 0 && s > 0.0
    requires m == Sum(xs) / (|xs| as real) && a == 1.0 / s && b == -m / s
    requires forall i :: 0 <= i < |xs| ==> z[i] == Times(a, xs[i]) + b
    ensures Sum(z) == 0.0
  {
    SumAffine(xs, z, a, b);
    CancelMean(Sum(xs), |xs| as real, s, m, a, b);
  }

  /** Standard scores of a non-empty list have mean exactly 50. */
  lemma HensachiMean(xs: seq<real>, sqrt: real -> real)
    requires PositiveOnPositive(sqrt)
    requires |xs| > 0
    ensures Mean(Hensachi(xs, sqrt)) == 50.0
  {
    var z := Z(xs, sqrt);
    var h := Hensachi(xs, sqrt);
    ZMeanZero(xs, sqrt);
    HensachiAffine(xs, sqrt);
    SumAffine(z, h, 10.0, 50.0);
    MeanOfConstant(Sum(h), |h| as real, 50.0);
  }

  /** With a true square root and a non-degenerate input, the z-scores have
      sample variance 1 and the standard scores sample variance 100
      (spread 10). */
  lemma HensachiUnitSpread(xs: seq<real>, sqrt: real -> real)
    requires IsSquareRoot(sqrt)
    requires Variance(xs) > 0.0
    ensures PositiveOnPositive(sqrt)
    ensures Variance(Z(xs, sqrt)) == 1.0
    ensures Variance(Hensachi(xs, sqrt)) == 100.0
  {
    var v, s, m := Variance(xs), Spread(xs, sqrt), Mean(xs);
    var k := (|xs| - 1) as real;
    var z := Z(xs, sqrt);
    var h := Hensachi(xs, sqrt);
    var q := SumSq(xs, m);
    assert s == sqrt(v) && Times(s, s) == v;
    assert v == q / k;
    var a, b := 1.0 / s, -m / s;
    ZAffine(xs, sqrt, a, b);
    ZMeanZero(xs, sqrt);
    CentreToZero(m, s, a, b);
    SumSqAffine(xs, z, a, b, m, 0.0);
    assert Variance(z) == SumSq(z, 0.0) / k;
    UnitRatio(q, k, s, v, a);
    HensachiMean(xs, sqrt);
    HensachiAffine(xs, sqrt);
    SumSqAffine(z, h, 10.0, 50.0, 0.0, 50.0);
    var qz := SumSq(z, 0.0);
    assert qz / k == 1.0;
    HundredFold(qz, k);
    assert Variance(h) == SumSq(h, 50.0) / k;
  }

  /** A list of at most one value, or of equal values, has variance 0,
      spread 1, and standard score exactly 50 everywhere. */
  lemma HensachiFlat(xs: seq<real>, sqrt: real -> real)
    requires PositiveOnPositive(sqrt)
    requires forall i, j :: 0 <= i < |xs| && 0 <= j < |xs| ==> xs[i] == xs[j]
    ensures Variance(xs) == 0.0
    ensures Spread(xs, sqrt) == 1.0
    ensures forall i :: 0 <= i < |xs| ==> Hensachi(xs, sqrt)[i] == 50.0
  {
    if |xs| > 0 {
      var c := xs[0];
      var n := |xs| as real;
      SumAffine(xs, xs, 0.0, c);
      MeanOfConstant(Sum(xs), n, c);
      assert Mean(xs) == c;
      SumSqAffine(xs, xs, 0.0, c, c, c);
      assert SumSq(xs, c) == 0.0;
      assert Variance(xs) == 0.0;
      forall i | 0 <= i < |xs| ensures Hensachi(xs, sqrt)[i] == 50.0 {
        ZAt(xs, sqrt, i);
        HensachiAt(xs, sqrt, i);
        assert Z(xs, sqrt)[i] == (xs[i] - c) / 1.0;
      }
    }
  }

  /** z-scores compare as their inputs do. */
  lemma ZOrder(xs: seq<real>, sqrt: real -> real, i: int, j: int)
    requires PositiveOnPositive(sqrt)
    requires 0 <= i < |xs| && 0 <= j < |xs|
    ensures xs[i] <= xs[j] <==> Z(xs, sqrt)[i] <= Z(xs, sqrt)[j]
    ensures xs[i] == xs[j] <==> Z(xs, sqrt)[i] == Z(xs, sqrt)[j]
  {
    var s, m := Spread(xs, sqrt), Mean(xs);
    PositiveReciprocal(s);
    ZAt(xs, sqrt, i);
    ZAt(xs, sqrt, j);
    DivAsAffine(xs[i], m, s);
    DivAsAffine(xs[j], m, s);
    AffineOrder(1.0 / s, -m / s, xs[i], xs[j]);
  }

  /** Standardising preserves the order of the values: position i of the
      output compares with position j exactly as input i with input j. */
  lemma HensachiOrder(xs: seq<real>, sqrt: real -> real, i: int, j: int)
    requires PositiveOnPositive(sqrt)
    requires 0 <= i < |xs| && 0 <= j < |xs|
    ensures xs[i] <= xs[j] <==> Hensachi(xs, sqrt)[i] <= Hensachi(xs, sqrt)[j]
    ensures xs[i] == xs[j] <==> Hensachi(xs, sqrt)[i] == Hensachi(xs, sqrt)[j]
  {
    ZOrder(xs, sqrt, i, j);
    HensachiAt(xs, sqrt, i);
    HensachiAt(xs, sqrt, j);
    AffineOrder(10.0, 50.0, Z(xs, sqrt)[i], Z(xs, sqrt)[j]);
  }

  // ---------------------------------------------------------------------
  // Raising one value while the others stay fixed.
  //
  lemma {:induction false} SumUpdate(xs: seq<real>, i: int, x: real)
    requires 0 <= i < |xs|
    ensures Sum(xs[i := x]) == Sum(xs) - xs[i] + x
  {
    if i == 0 {
      assert xs[i := x][1..] == xs[1..];
    } else {
      SumUpdate(xs[1..], i - 1, x);
      assert xs[i := x][1..] == xs[1..][i - 1 := x];
    }
  }

  lemma {:induction false} SumSqUpdate(xs: seq<real>, i: int, x: real, c: real)
    requires 0 <= i < |xs|
    ensures SumSq(xs[i := x], c) == SumSq(xs, c) - Times(xs[i] - c, xs[i] - c) + Times(x - c, x - c)
  {
    if i == 0 {
      assert xs[i := x][1..] == xs[1..];
    } else {
      SumSqUpdate(xs[1..], i - 1, x, c);
      assert xs[i := x][1..] == xs[1..][i - 1 := x];
    }
  }

  /** One step of SumSqShift: the head x joins a tail of nt values with
      sum rs, squares r0 and squared deviations r from c. */
  lemma ShiftStep(x: real, c: real, n: real, nt: real, s: real, rs: real, r0: real, r: real)
    requires n == nt + 1.0 && s == x + rs
    requires r == r0 - 2.0 * Times(c, rs) + Times(nt, Times(c, c))
    ensures Times(x - c, x - c) + r
            == (Times(x - 0.0, x - 0.0) + r0) - 2.0 * Times(c, s) + Times(n, Times(c, c))
  {
    assert (x - c) * (x - c) == (x - 0.0) * (x - 0.0) - 2.0 * (c * x) + c * c;
    assert c * s == c * x + c * rs;
    assert n * (c * c) == nt * (c * c) + c * c;
  }

  /** Squared deviations from c, from the plain squares and the sum. */
  lemma {:induction false} SumSqShift(xs: seq<real>, c: real)
    ensures SumSq(xs, c) == SumSq(xs, 0.0) - 2.0 * Times(c, Sum(xs)) + Times(|xs| as real, Times(c, c))
  {
    if |xs| > 0 {
      var tl := xs[1..];
      SumSqShift(tl, c);
      ShiftStep(xs[0], c, |xs| as real, |tl| as real, Sum(xs), Sum(tl), SumSq(tl, 0.0), SumSq(tl, c));
      assert SumSq(xs, c) == Times(xs[0] - c, xs[0] - c) + SumSq(tl, c);
      assert SumSq(xs, 0.0) == Times(xs[0] - 0.0, xs[0] - 0.0) + SumSq(tl, 0.0);
    }
  }

  lemma ZeroSlot(v: real, c: real, n: real, k: real)
    requires v == 0.0 && k == n - 1.0
    ensures Times(v - c, v - c) == Times(c, c)
    ensures Times(n, Times(c, c)) - Times(c, c) == Times(k, Times(c, c))
  {
    assert n * (c * c) - c * c == k * (c * c);
  }

  /** The sum and squared deviations of a list, split into the share of
      value i and that of the others (the list with value i set to 0). */
  lemma SplitOff(xs: seq<real>, i: int, c: real)
    requires 0 <= i < |xs|
    ensures Sum(xs) == Sum(xs[i := 0.0]) + xs[i]
    ensures SumSq(xs, c) == SumSq(xs[i := 0.0], 0.0) - 2.0 * Times(c, Sum(xs[i := 0.0]))
                            + Times((|xs| - 1) as real, Times(c, c)) + Times(xs[i] - c, xs[i] - c)
  {
    var ys := xs[i := 0.0];
    assert ys[i := xs[i]] == xs;
    SumUpdate(ys, i, xs[i]);
    SumSqUpdate(ys, i, xs[i], c);
    SumSqShift(ys, c);
    ZeroSlot(ys[i], c, |ys| as real, (|xs| - 1) as real);
  }

  /** The algebra of one value x against the k others: T and P are their
      sum and sum of squares, t their mean, m the mean of all n = k + 1
      values, q the squared deviations of all n from m, u = x - t. */
  lemma CentredForm(P: real, T: real, x: real, k: real, n: real, t: real, m: real, u: real, q: real)
    requires k > 0.0 && n == k + 1.0
    requires Times(k, t) == T && Times(n, m) == T + x && u == x - t
    requires q == P - 2.0 * Times(m, T) + Times(k, Times(m, m)) + Times(x - m, x - m)
    ensures Times(n, x - m) == Times(k, u)
    ensures Times(n, q) == Times(n, P - Times(T, t)) + Times(k, Times(u, u))
  {
    MeanGap(x, k, n, t, m, u, T);
    CentredSquares(P, T, x, k, n, m, q);
    ScaleSquares(P, T, x, n, m, q);
    SquareGap(x, k, t, u, T);
    Recombine(n, k, P, T, t, x, q, u);
  }

  lemma MeanGap(x: real, k: real, n: real, t: real, m: real, u: real, T: real)
    requires n == k + 1.0 && Times(k, t) == T && Times(n, m) == T + x && u == x - t
    ensures Times(n, x - m) == Times(k, u)
  {
    assert n * x == k * x + x;
    assert k * u == k * x - k * t;
  }

  lemma CentredSquares(P: real, T: real, x: real, k: real, n: real, m: real, q: real)
    requires n == k + 1.0 && Times(n, m) == T + x
    requires q == P - 2.0 * Times(m, T) + Times(k, Times(m, m)) + Times(x - m, x - m)
    ensures q == P + x * x - m * (T + x)
  {
    assert k * (m * m) + m * m == m * (n * m);
  }

  lemma ScaleSquares(P: real, T: real, x: real, n: real, m: real, q: real)
    requires q == P + x * x - m * (T + x) && Times(n, m) == T + x
    ensures n * q == n * P + n * (x * x) - (T + x) * (T + x)
  {
    assert n * (m * (T + x)) == (n * m) * (T + x);
  }

  lemma SquareGap(x: real, k: real, t: real, u: real, T: real)
    requires u == x - t && Times(k, t) == T
    ensures k * (u * u) == k * (x * x) - 2.0 * x * T + T * t
  {
    assert u * u == x * x - 2.0 * x * t + t * t;
    assert k * (x * t) == x * T;
    assert k * (t * t) == T * t;
  }

  lemma Recombine(n: real, k: real, P: real, T: real, t: real, x: real, q: real, u: real)
    requires n == k + 1.0 && Times(k, t) == T
    requires n * q == n * P + n * (x * x) - (T + x) * (T + x)
    requires k * (u * u) == k * (x * x) - 2.0 * x * T + T * t
    ensures Times(n, q) == Times(n, P - Times(T, t)) + Times(k, Times(u, u))
  {
    assert n * (x * x) == k * (x * x) + x * x;
    assert n * (T * t) == k * (T * t) + T * t;
    assert k * (T * t) == T * T;
    assert (T + x) * (T + x) == T * T + 2.0 * T * x + x * x;
    assert n * (P - T * t) == n * P - n * (T * t);
  }

  /** CentredForm divided through by k: n V = n A + u^2 for V = q / k. */
  lemma VarianceForm(q: real, k: real, n: real, R: real, u: real, V: real, A: real)
    requires k > 0.0 && V == q / k && A == R / k
    requires Times(n, q) == Times(n, R) + Times(k, Times(u, u))
    ensures Times(n, V) == Times(n, A) + Times(u, u)
  {
    assert n * V == (n * q) / k;
    assert (n * R + k * (u * u)) / k == n * (R / k) + u * u;
  }

  lemma TimesQuotient(s: real, n: real, m: real)
    requires n > 0.0 && m == s / n
    ensures Times(n, m) == s
  {
  }

  /** The others' own share of the variance: (P - T^2 / k) / k for the sum
      T and sum of squares P of the k other values. */
  function Spare(ys: seq<real>, k: real): real
    requires k > 0.0
  {
    (SumSq(ys, 0.0) - Times(Sum(ys), Sum(ys) / k)) / k
  }

  /** The variance of a list of n >= 2, seen from value i: with u the
      distance of value i from the mean of the others, n times the variance
      is n A + u^2 for an A fixed by the others alone. */
  lemma CentredVariance(xs: seq<real>, i: int)
    requires 2 <= |xs| && 0 <= i < |xs|
    ensures Times(|xs| as real, xs[i] - Mean(xs))
            == Times((|xs| - 1) as real, xs[i] - Sum(xs[i := 0.0]) / ((|xs| - 1) as real))
    ensures Times(|xs| as real, Variance(xs))
            == Times(|xs| as real, Spare(xs[i := 0.0], (|xs| - 1) as real))
               + Times(xs[i] - Sum(xs[i := 0.0]) / ((|xs| - 1) as real),
                       xs[i] - Sum(xs[i := 0.0]) / ((|xs| - 1) as real))
  {
    var ys := xs[i := 0.0];
    var k := (|xs| - 1) as real;
    SplitOff(xs, i, Mean(xs));
    TimesQuotient(Sum(xs), |xs| as real, Mean(xs));
    TimesQuotient(Sum(ys), k, Sum(ys) / k);
    CentredForm(SumSq(ys, 0.0), Sum(ys), xs[i], k, |xs| as real, Sum(ys) / k, Mean(xs),
                xs[i] - Sum(ys) / k, SumSq(xs, Mean(xs)));
    VarianceForm(SumSq(xs, Mean(xs)), k, |xs| as real, SumSq(ys, 0.0) - Times(Sum(ys), Sum(ys) / k),
                 xs[i] - Sum(ys) / k, Variance(xs), Spare(ys, k));
  }

  // ---------------------------------------------------------------------
  // Order of u / s when n V = n A + u^2, A >= 0 and s is a square root of
  // V (or any positive fallback when V is 0), on plain values.

  /** A square is never negative, and positive for a non-zero base. */
  lemma SquareSign(u: real, q: real)
    requires q == u * u
    ensures q >= 0.0
    ensures u != 0.0 ==> q > 0.0
  {
    if u > 0.0 {
      ProductSign(u, u, q);
    } else if u < 0.0 {
      var w := -u;
      assert q == w * w;
      ProductSign(w, w, q);
    }
  }

  lemma SquareGrows(a: real, b: real, qa: real, qb: real)
    requires 0.0 <= a <= b && qa == a * a && qb == b * b
    ensures qa <= qb
  {
    var ab := a * b;
    assert qa <= ab;
    assert ab <= qb;
  }

  lemma SquareOrder(a: real, b: real, qa: real, qb: real)
    requires a >= 0.0 && b >= 0.0 && qa == a * a && qb == b * b && qa <= qb
    ensures a <= b
  {
    if a > b {
      SquareStrict(b, a, qb, qa);
    }
  }

  lemma SquareStrict(a: real, b: real, qa: real, qb: real)
    requires 0.0 <= a < b && qa == a * a && qb == b * b
    ensures qa < qb
  {
    var ab := a * b;
    assert qa <= ab;
    assert ab < qb;
  }

  lemma ProductSign(a: real, b: real, p: real)
    requires p == a * b
    ensures a >= 0.0 && b >= 0.0 ==> p >= 0.0
    ensures a <= 0.0 && b >= 0.0 ==> p <= 0.0
    ensures a > 0.0 && b > 0.0 ==> p > 0.0
  {
  }

  lemma ScaleBack(n: real, a: real, b: real)
    requires n > 0.0 && n * a <= n * b
    ensures a <= b
  {
  }

  lemma ScaleOrder(c: real, a: real, b: real)
    requires c >= 0.0 && a <= b
    ensures c * a <= c * b
  {
  }

  lemma CrossVariance(n: real, A: real, q1: real, q2: real, V1: real, V2: real)
    requires n > 0.0 && A >= 0.0 && 0.0 <= q1 <= q2
    requires n * V1 == n * A + q1 && n * V2 == n * A + q2
    ensures q1 * V2 <= q2 * V1
  {
    var nA := n * A;
    assert nA >= 0.0;
    ScaleOrder(nA, q1, q2);
    assert n * (q1 * V2) == q1 * (n * V2);
    assert n * (q2 * V1) == q2 * (n * V1);
    assert q1 * (n * V2) == q1 * nA + q1 * q2;
    assert q2 * (n * V1) == q2 * nA + q2 * q1;
    ScaleBack(n, q1 * V2, q2 * V1);
  }

  lemma PositiveVariance(n: real, A: real, q: real, V: real)
    requires n > 0.0 && A >= 0.0 && q > 0.0 && n * V == n * A + q
    ensures V > 0.0
  {
    ProductSign(n, A, n * A);
    if V <= 0.0 {
      ProductSign(V, n, n * V);
    }
  }

  lemma SquareOfProduct(u: real, s: real, q: real, V: real, p: real, pp: real)
    requires q == u * u && V == s * s && p == u * s && pp == p * p
    ensures pp == q * V
  {
  }

  /** RatioOrder for a positive u1. */
  lemma PositiveOrder(n: real, A: real, u1: real, u2: real, q1: real, q2: real,
                      V1: real, V2: real, s1: real, s2: real)
    requires n > 0.0 && A >= 0.0 && 0.0 < u1 <= u2
    requires q1 == u1 * u1 && q2 == u2 * u2
    requires n * V1 == n * A + q1 && n * V2 == n * A + q2
    requires s1 > 0.0 && s2 > 0.0
    requires V1 > 0.0 ==> s1 * s1 == V1
    requires V2 > 0.0 ==> s2 * s2 == V2
    ensures u1 * s2 <= u2 * s1
  {
    SquareSign(u1, q1);
    SquareSign(u2, q2);
    SquareGrows(u1, u2, q1, q2);
    PositiveVariance(n, A, q1, V1);
    PositiveVariance(n, A, q2, V2);
    CrossVariance(n, A, q1, q2, V1, V2);
    var p1, p2 := u1 * s2, u2 * s1;
    var pp1, pp2 := p1 * p1, p2 * p2;
    SquareOfProduct(u1, s2, q1, V2, p1, pp1);
    SquareOfProduct(u2, s1, q2, V1, p2, pp2);
    ProductSign(u1, s2, p1);
    ProductSign(u2, s1, p2);
    SquareOrder(p1, p2, pp1, pp2);
  }

  /** u1 / s1 <= u2 / s2 in multiplied form: as u grows, so does n V =
      n A + u^2, yet u / s never decreases. */
  lemma RatioOrder(n: real, A: real, u1: real, u2: real, q1: real, q2: real,
                   V1: real, V2: real, s1: real, s2: real)
    requires n > 0.0 && A >= 0.0 && u1 <= u2
    requires q1 == u1 * u1 && q2 == u2 * u2
    requires n * V1 == n * A + q1 && n * V2 == n * A + q2
    requires s1 > 0.0 && s2 > 0.0
    requires V1 > 0.0 ==> s1 * s1 == V1
    requires V2 > 0.0 ==> s2 * s2 == V2
    ensures u1 * s2 <= u2 * s1
  {
    if 0.0 < u1 {
      PositiveOrder(n, A, u1, u2, q1, q2, V1, V2, s1, s2);
    } else if u2 < 0.0 {
      NegativeOrder(n, A, u1, u2, q1, q2, V1, V2, s1, s2);
    } else {
      ProductSign(u1, s2, u1 * s2);
      ProductSign(u2, s1, u2 * s1);
    }
  }

  lemma Flip(u: real, q: real, s: real)
    requires q == u * u
    ensures q == (-u) * (-u)
    ensures (-u) * s == -(u * s)
  {
  }

  /** RatioOrder for a negative u2, by reflecting both values. */
  lemma NegativeOrder(n: real, A: real, u1: real, u2: real, q1: real, q2: real,
                      V1: real, V2: real, s1: real, s2: real)
    requires n > 0.0 && A >= 0.0 && u1 <= u2 < 0.0
    requires q1 == u1 * u1 && q2 == u2 * u2
    requires n * V1 == n * A + q1 && n * V2 == n * A + q2
    requires s1 > 0.0 && s2 > 0.0
    requires V1 > 0.0 ==> s1 * s1 == V1
    requires V2 > 0.0 ==> s2 * s2 == V2
    ensures u1 * s2 <= u2 * s1
  {
    Flip(u1, q1, s2);
    Flip(u2, q2, s1);
    PositiveOrder(n, A, -u2, -u1, q2, q1, V2, V1, s2, s1);
  }

  /** RatioOrder with its products named, for callers that reach them
      through other functions. */
  lemma RatioOrderNamed(n: real, A: real, u1: real, u2: real, V1: real, V2: real, s1: real, s2: real)
    requires n > 0.0 && A >= 0.0 && u1 <= u2
    requires Times(n, V1) == Times(n, A) + Times(u1, u1)
    requires Times(n, V2) == Times(n, A) + Times(u2, u2)
    requires s1 > 0.0 && s2 > 0.0
    requires V1 > 0.0 ==> Times(s1, s1) == V1
    requires V2 > 0.0 ==> Times(s2, s2) == V2
    ensures Times(u1, s2) <= Times(u2, s1)
  {
    RatioOrder(n, A, u1, u2, u1 * u1, u2 * u2, V1, V2, s1, s2);
  }

  /** a / s <= b / t from a t <= b s, for positive s and t. */
  lemma CrossDivide(a: real, s: real, b: real, t: real)
    requires s > 0.0 && t > 0.0 && Times(a, t) <= Times(b, s)
    ensures Ratio(a, s) <= Ratio(b, t)
  {
    var x, y := a / s, b / t;
    assert x * s == a;
    assert y * t == b;
    var st := s * t;
    ProductSign(s, t, st);
    assert x * st == a * t;
    assert y * st == b * s;
  }

  /** d1 s2 <= d2 s1 for d = (k / n) u, from u1 s2 <= u2 s1. */
  lemma ScaledCross(n: real, k: real, d1: real, d2: real, u1: real, u2: real, s1: real, s2: real)
    requires n > 0.0 && k >= 0.0 && Times(n, d1) == Times(k, u1) && Times(n, d2) == Times(k, u2)
    requires Times(u1, s2) <= Times(u2, s1)
    ensures Times(d1, s2) <= Times(d2, s1)
  {
    assert n * (d1 * s2) == k * (u1 * s2);
    assert n * (d2 * s1) == k * (u2 * s1);
    ScaleOrder(k, u1 * s2, u2 * s1);
    ScaleBack(n, d1 * s2, d2 * s1);
  }

  lemma SameScale(n: real, V: real, A: real, u: real)
    requires n > 0.0 && u == 0.0 && Times(n, V) == Times(n, A) + Times(u, u)
    ensures V == A
  {
    assert u * u == 0.0;
    ScaleBack(n, V, A);
    ScaleBack(n, A, V);
  }

  /** The spread is a square root of the variance whenever the variance is
      positive. */
  lemma SpreadSquares(xs: seq<real>, sqrt: real -> real)
    requires IsSquareRoot(sqrt)
    ensures PositiveOnPositive(sqrt)
    ensures Variance(xs) > 0.0 ==> Times(Spread(xs, sqrt), Spread(xs, sqrt)) == Variance(xs)
  {
  }

  /** The others' share A of the variance is never negative: it is the
      variance when value i sits at the others' mean. */
  lemma SpareNonNegative(xs: seq<real>, i: int)
    requires 2 <= |xs| && 0 <= i < |xs|
    ensures Spare(xs[i := 0.0], (|xs| - 1) as real) >= 0.0
  {
    var ys := xs[i := 0.0];
    var k := (|xs| - 1) as real;
    var xs0 := xs[i := Sum(ys) / k];
    assert xs0[i := 0.0] == ys;
    CentredVariance(xs0, i);
    SameScale(|xs| as real, Variance(xs0), Spare(ys, k), xs0[i] - Sum(ys) / k);
  }

  lemma ZAtRatio(xs: seq<real>, sqrt: real -> real, i: int)
    requires PositiveOnPositive(sqrt)
    requires 0 <= i < |xs|
    ensures Z(xs, sqrt)[i] == Ratio(xs[i] - Mean(xs), Spread(xs, sqrt))
  {
  }

  /** ZRaiseOne for two or more values. */
  lemma ZRaiseOneOfMany(xs: seq<real>, sqrt: real -> real, i: int, x: real)
    requires IsSquareRoot(sqrt)
    requires 2 <= |xs| && 0 <= i < |xs| && xs[i] <= x
    ensures PositiveOnPositive(sqrt)
    ensures Z(xs, sqrt)[i] <= Z(xs[i := x], sqrt)[i]
  {
    var xs2 := xs[i := x];
    var k := (|xs| - 1) as real;
    var ys := xs[i := 0.0];
    assert xs2[i := 0.0] == ys;
    assert xs2[i] == x;
    CentredVariance(xs, i);
    CentredVariance(xs2, i);
    SpareNonNegative(xs, i);
    SpreadSquares(xs, sqrt);
    SpreadSquares(xs2, sqrt);
    RatioOrderNamed(|xs| as real, Spare(ys, k), xs[i] - Sum(ys) / k, x - Sum(ys) / k,
                    Variance(xs), Variance(xs2), Spread(xs, sqrt), Spread(xs2, sqrt));
    ScaledCross(|xs| as real, k, xs[i] - Mean(xs), x - Mean(xs2), xs[i] - Sum(ys) / k, x - Sum(ys) / k,
                Spread(xs, sqrt), Spread(xs2, sqrt));
    CrossDivide(xs[i] - Mean(xs), Spread(xs, sqrt), x - Mean(xs2), Spread(xs2, sqrt));
    ZAtRatio(xs, sqrt, i);
    ZAtRatio(xs2, sqrt, i);
  }

  /** A single value sits at its own mean. */
  lemma SingleZero(xs: seq<real>, sqrt: real -> real)
    requires PositiveOnPositive(sqrt)
    requires |xs| == 1
    ensures Z(xs, sqrt)[0] == 0.0
  {
    assert Sum(xs[1..]) == 0.0;
    assert Mean(xs) == xs[0];
    ZAt(xs, sqrt, 0);
  }

  /** Raising value i, with every other value of the list fixed, never
      lowers its z-score, although the mean and the spread move with it. */
  lemma ZRaiseOne(xs: seq<real>, sqrt: real -> real, i: int, x: real)
    requires IsSquareRoot(sqrt)
    requires 0 <= i < |xs| && xs[i] <= x
    ensures PositiveOnPositive(sqrt)
    ensures Z(xs, sqrt)[i] <= Z(xs[i := x], sqrt)[i]
  {
    if |xs| == 1 {
      SingleZero(xs, sqrt);
      SingleZero(xs[i := x], sqrt);
    } else {
      ZRaiseOneOfMany(xs, sqrt, i, x);
    }
  }

  /** Raising value i, with every other value fixed, never lowers its
      standard score. */
  lemma HensachiRaiseOne(xs: seq<real>, sqrt: real -> real, i: int, x: real)
    requires IsSquareRoot(sqrt)
    requires 0 <= i < |xs| && xs[i] <= x
    ensures PositiveOnPositive(sqrt)
    ensures Hensachi(xs, sqrt)[i] <= Hensachi(xs[i := x], sqrt)[i]
  {
    ZRaiseOne(xs, sqrt, i, x);
    HensachiAt(xs, sqrt, i);
    HensachiAt(xs[i := x], sqrt, i);
  }
}
