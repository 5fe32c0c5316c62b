/**
 * Pearson correlation without square roots: a coefficient is kept as its numerator and the number
 * whose square root divides it.
 */
module Pearson {
  import opened Prelude
  import opened Lexical

  /** Stands for numerator / sqrt(radicand). */
  datatype Coefficient = Coefficient(numerator: real, radicand: real)

  const ZERO := Coefficient(0.0, 1.0)
  const ONE := Coefficient(1.0, 1.0)

  function Mean(xs: seq<real>): real
    requires xs != []
  {
    Sum(xs) / |xs| as real
  }

  /** Each element multiplied by the scale, then shifted. */
  function Affine(scale: real, shift: real, xs: seq<real>): (r: seq<real>)
    ensures |r| == |xs|
  {
    if xs == [] then []
    else
      var n := |xs| - 1;
      Affine(scale, shift, xs[..n]) + [Times(scale, xs[n]) + shift]
  }

  function Deviations(xs: seq<real>): (r: seq<real>)
    requires xs != []
    ensures |r| == |xs|
  {
    Affine(1.0, -Mean(xs), xs)
  }

  /** Sum of the products of corresponding elements. */
  function Dot(a: seq<real>, b: seq<real>): real
    requires |a| == |b|
  {
    if a == [] then 0.0
    else
      var n := |a| - 1;
      Dot(a[..n], b[..n]) + Times(a[n], b[n])
  }

  function PearsonOf(xs: seq<real>, ys: seq<real>): Coefficient {
    var n := if |xs| < |ys| then |xs| else |ys|;
    if n < 2 then ZERO
    else
      var dx, dy := Deviations(xs[..n]), Deviations(ys[..n]);
      var cov, vx, vy := Dot(dx, dy), Dot(dx, dx), Dot(dy, dy);
      if vx == 0.0 || vy == 0.0 then ZERO else Coefficient(cov, Times(vx, vy))
  }

  // ---------------------------------------------------------------------------------------
  // The inner product
  // ---------------------------------------------------------------------------------------

  lemma {:induction false} DotIsSymmetric(a: seq<real>, b: seq<real>)
    requires |a| == |b|
    ensures Dot(a, b) == Dot(b, a)
  {
    if a != [] {
      DotIsSymmetric(a[..|a| - 1], b[..|b| - 1]);
    }
  }

  /** The sequence p * a + q * b. */
  function Combine(p: real, a: seq<real>, q: real, b: seq<real>): (r: seq<real>)
    requires |a| == |b|
    ensures |r| == |a|
  {
    if a == [] then []
    else
      var n := |a| - 1;
      Combine(p, a[..n], q, b[..n]) + [Times(p, a[n]) + Times(q, b[n])]
  }

  lemma {:induction false} CombineAt(p: real, a: seq<real>, q: real, b: seq<real>, i: nat)
    requires |a| == |b| && i < |a|
    ensures Combine(p, a, q, b)[i] == Times(p, a[i]) + Times(q, b[i])
  {
    hide Times;
    var n := |a| - 1;
    if i < n {
      CombineAt(p, a[..n], q, b[..n], i);
      assert a[..n][i] == a[i] && b[..n][i] == b[i];
    }
  }

  lemma {:induction false} DotIsLinear(p: real, a: seq<real>, q: real, b: seq<real>, z: seq<real>)
    requires |a| == |b| == |z|
    ensures Dot(Combine(p, a, q, b), z) == Times(p, Dot(a, z)) + Times(q, Dot(b, z))
  {
    if a == [] {
      assert Dot([], []) == 0.0;
    } else {
      var n := |a| - 1;
      DotIsLinear(p, a[..n], q, b[..n], z[..n]);
      hide Times;
      var r := Combine(p, a, q, b);
      assert r[..n] == Combine(p, a[..n], q, b[..n]);
      Distribute(p, q, Dot(a[..n], z[..n]), Dot(b[..n], z[..n]), a[n], b[n], z[n]);
    }
  }

  lemma Distribute(p: real, q: real, u: real, v: real, a: real, b: real, z: real)
    ensures Times(p, u) + Times(q, v) + Times(Times(p, a) + Times(q, b), z)
         == Times(p, u + Times(a, z)) + Times(q, v + Times(b, z))
  {
  }

  lemma SquareSign(x: real)
    ensures 0.0 <= Times(x, x)
    ensures Times(x, x) == 0.0 <==> x == 0.0
  {
    var y := if x < 0.0 then -x else x;
    PositiveSquare(y);
    assert Times(y, y) == Times(x, x);
    hide Times;
  }

  lemma PositiveSquare(x: real)
    requires 0.0 <= x
    ensures 0.0 <= Times(x, x) && (0.0 < x ==> 0.0 < Times(x, x)) && (x == 0.0 ==> Times(x, x) == 0.0)
  {
    TimesZero(x);
    PositiveTimes(x, x);
    hide Times;
  }

  lemma {:induction false} SquaresAddUp(a: seq<real>)
    ensures 0.0 <= Dot(a, a)
    ensures Dot(a, a) == 0.0 <==> forall i :: 0 <= i < |a| ==> a[i] == 0.0
  {
    if a != [] {
      var n := |a| - 1;
      SquaresAddUp(a[..n]);
      SquareSign(a[n]);
      assert (forall i :: 0 <= i < n ==> a[i] == 0.0) <==> (forall i :: 0 <= i < n ==> a[..n][i] == 0.0);
    }
  }

  /** What is left of b after removing its part along a, scaled by the length of a squared. */
  function Residual(a: seq<real>, b: seq<real>): (r: seq<real>)
    requires |a| == |b|
    ensures |r| == |a|
  {
    Combine(Dot(a, a), b, -Dot(a, b), a)
  }

  /** The identity behind Cauchy-Schwarz. */
  lemma {:induction false} ResidualSquared(a: seq<real>, b: seq<real>)
    requires |a| == |b|
    ensures var r, u, v, c := Residual(a, b), Dot(a, a), Dot(b, b), Dot(a, b);
      Dot(r, r) == Times(u, Times(u, v) - Times(c, c))
  {
    hide Dot, Combine, Times;
    var r, u, v, c := Residual(a, b), Dot(a, a), Dot(b, b), Dot(a, b);
    DotIsLinear(u, b, -c, a, r);
    DotIsSymmetric(b, r);
    DotIsSymmetric(a, r);
    DotIsLinear(u, b, -c, a, b);
    DotIsLinear(u, b, -c, a, a);
    DotIsSymmetric(b, a);
    ResidualAlgebra(u, v, c);
  }

  lemma ResidualAlgebra(u: real, v: real, c: real)
    ensures Times(u, Times(u, v) + Times(-c, c)) + Times(-c, Times(u, c) + Times(-c, u))
         == Times(u, Times(u, v) - Times(c, c))
  {
    assert u * c + -c * u == 0.0;
  }

  lemma {:induction false} ResidualIsZero(a: seq<real>, b: seq<real>)
    requires |a| == |b|
    ensures (forall i :: 0 <= i < |a| ==> Residual(a, b)[i] == 0.0) <==>
            (forall i :: 0 <= i < |a| ==> Times(Dot(a, a), b[i]) == Times(Dot(a, b), a[i]))
  {
    hide Dot, Combine, Times;
    var r, u, c := Residual(a, b), Dot(a, a), Dot(a, b);
    forall i | 0 <= i < |a|
      ensures r[i] == 0.0 <==> Times(u, b[i]) == Times(c, a[i])
    {
      CombineAt(u, b, -c, a, i);
      TimesNegates(c, a[i]);
    }
  }

  /**
   * Cauchy-Schwarz for the sums that the correlation is made of, with the case of equality: the
   * square of the covariance sum reaches its bound exactly when one sequence is a multiple of
   * the other.
   */
  lemma {:induction false} CauchySchwarz(a: seq<real>, b: seq<real>)
    requires |a| == |b|
    ensures var u, v, c := Dot(a, a), Dot(b, b), Dot(a, b);
      && Times(c, c) <= Times(u, v)
      && (Times(c, c) == Times(u, v) <==> forall i :: 0 <= i < |a| ==> Times(u, b[i]) == Times(c, a[i]))
  {
    hide Dot, Residual, Times;
    var r, u, v, c := Residual(a, b), Dot(a, a), Dot(b, b), Dot(a, b);
    SquaresAddUp(a);
    SquaresAddUp(r);
    ResidualSquared(a, b);
    ResidualIsZero(a, b);
    if u == 0.0 {
      ZeroDot(a, b);
      TimesZero(0.0);
      TimesZero(v);
      forall i | 0 <= i < |a|
        ensures Times(u, b[i]) == Times(c, a[i])
      {
        TimesZero(b[i]);
        TimesZero(a[i]);
      }
    } else {
      SignOfResidual(u, v, c, Dot(r, r));
    }
  }

  lemma SignOfResidual(u: real, v: real, c: real, rr: real)
    requires 0.0 < u && 0.0 <= rr == Times(u, Times(u, v) - Times(c, c))
    ensures Times(c, c) <= Times(u, v)
    ensures rr == 0.0 <==> Times(c, c) == Times(u, v)
  {
    ProductSign(u, Times(u, v) - Times(c, c), rr);
  }

  lemma ProductSign(x: real, y: real, product: real)
    requires 0.0 < x && 0.0 <= product == x * y
    ensures 0.0 <= y && (y == 0.0 <==> product == 0.0)
  {
  }

  lemma {:induction false} ZeroDot(a: seq<real>, b: seq<real>)
    requires |a| == |b| && forall i :: 0 <= i < |a| ==> a[i] == 0.0
    ensures Dot(a, b) == 0.0
  {
    if a != [] {
      ZeroDot(a[..|a| - 1], b[..|b| - 1]);
    }
  }

  // ---------------------------------------------------------------------------------------
  // The coefficient
  // ---------------------------------------------------------------------------------------

  /** The coefficient lies between -1 and 1, and dividing by its root is always possible. */
  predicate Bounded(c: Coefficient) {
    0.0 < c.radicand && Times(c.numerator, c.numerator) <= c.radicand
  }

  lemma PearsonIsBounded(xs: seq<real>, ys: seq<real>)
    ensures Bounded(PearsonOf(xs, ys))
    ensures var c := PearsonOf(xs, ys); 0.0 < c.radicand && Times(c.numerator, c.numerator) <= c.radicand
  {
    var n := if |xs| < |ys| then |xs| else |ys|;
    if 2 <= n {
      var dx, dy := Deviations(xs[..n]), Deviations(ys[..n]);
      CauchySchwarz(dx, dy);
      SquaresAddUp(dx);
      SquaresAddUp(dy);
      PositiveTimes(Dot(dx, dx), Dot(dy, dy));
      hide Dot, Times, Deviations;
    }
  }

  /**
   * The coefficient is as large as it can be exactly when the deviations of one series are a
   * multiple of those of the other.
   */
  lemma PerfectCorrelation(xs: seq<real>, ys: seq<real>)
    requires 2 <= |xs| == |ys|
    ensures var dx, dy, r := Deviations(xs), Deviations(ys), PearsonOf(xs, ys);
      r != ZERO ==>
        (Times(r.numerator, r.numerator) == r.radicand <==>
         forall i :: 0 <= i < |xs| ==> Times(Dot(dx, dx), dy[i]) == Times(Dot(dx, dy), dx[i]))
  {
    assert xs[..|xs|] == xs && ys[..|ys|] == ys;
    CauchySchwarz(Deviations(xs), Deviations(ys));
    hide Dot, Times, Deviations;
  }

  lemma PearsonIsSymmetric(xs: seq<real>, ys: seq<real>)
    ensures PearsonOf(xs, ys) == PearsonOf(ys, xs)
  {
    var n := if |xs| < |ys| then |xs| else |ys|;
    if 2 <= n {
      var dx, dy := Deviations(xs[..n]), Deviations(ys[..n]);
      DotIsSymmetric(dx, dy);
      PositiveTimes(Dot(dx, dx), Dot(dy, dy));
      hide Dot, Times, Deviations;
    }
  }

  ghost predicate Constant(xs: seq<real>) {
    forall i, j :: 0 <= i < |xs| && 0 <= j < |xs| ==> xs[i] == xs[j]
  }

  lemma {:induction false} AffineAt(scale: real, shift: real, xs: seq<real>, i: nat)
    requires i < |xs|
    ensures Affine(scale, shift, xs)[i] == Times(scale, xs[i]) + shift
  {
    var n := |xs| - 1;
    if i < n {
      AffineAt(scale, shift, xs[..n], i);
    }
  }

  lemma {:induction false} SumOfConstant(xs: seq<real>)
    requires xs != [] && Constant(xs)
    ensures Sum(xs) == Times(|xs| as real, xs[0])
  {
    var n := |xs| - 1;
    if 0 < n {
      SumOfConstant(xs[..n]);
      assert xs[n] == xs[0];
    }
  }

  /** The deviations have no squares to add up exactly when the series never changes. */
  lemma ConstantExactly(xs: seq<real>)
    requires xs != []
    ensures 0.0 <= Dot(Deviations(xs), Deviations(xs))
    ensures Dot(Deviations(xs), Deviations(xs)) == 0.0 <==> Constant(xs)
  {
    var dx := Deviations(xs);
    SquaresAddUp(dx);
    forall i | 0 <= i < |xs|
      ensures dx[i] == xs[i] - Mean(xs)
    {
      AffineAt(1.0, -Mean(xs), xs, i);
    }
    hide Dot, Deviations;
    if Constant(xs) {
      SumOfConstant(xs);
      hide Times, Sum;
      MeanOfConstant(xs);
    } else {
      hide Mean;
      var i, j :| 0 <= i < |xs| && 0 <= j < |xs| && xs[i] != xs[j];
      assert dx[i] != dx[j];
    }
  }

  lemma {:induction false} MeanOfConstant(xs: seq<real>)
    requires xs != [] && Sum(xs) == Times(|xs| as real, xs[0])
    ensures Mean(xs) == xs[0]
  {
  }

  lemma {:induction false} DotShifted(shift: real, a: seq<real>, b: seq<real>)
    requires |a| == |b|
    ensures Dot(Affine(1.0, shift, a), b) == Dot(a, b) + Times(shift, Sum(b))
  {
    if a != [] {
      var n := |a| - 1;
      DotShifted(shift, a[..n], b[..n]);
      assert Affine(1.0, shift, a)[..n] == Affine(1.0, shift, a[..n]);
      ShiftedStep(shift, a[n], b[n], Sum(b[..n]));
      hide Times;
    } else {
      assert Sum(b) == 0.0;
    }
  }

  lemma ShiftedStep(shift: real, x: real, y: real, total: real)
    ensures Times(Times(1.0, x) + shift, y) + Times(shift, total) == Times(x, y) + Times(shift, total + y)
  {
  }

  /** Deviations multiply to the raw products less the product of the sums, n-fold. */
  lemma {:induction false} DeviationsMultiply(xs: seq<real>, ys: seq<real>)
    requires |xs| == |ys| && xs != []
    ensures Times(|xs| as real, Dot(Deviations(xs), Deviations(ys)))
         == Times(|xs| as real, Dot(xs, ys)) - Times(Sum(xs), Sum(ys))
  {
    hide Dot, Sum, Times, Affine;
    var n, dy := |xs| as real, Deviations(ys);
    DotShifted(-Mean(xs), xs, dy);
    SumOfAffine(1.0, -Mean(ys), ys);
    DotIsSymmetric(xs, dy);
    DotShifted(-Mean(ys), ys, xs);
    DotIsSymmetric(xs, ys);
    CentredProduct(n, Sum(xs), Sum(ys), Mean(xs), Mean(ys), Dot(xs, ys));
  }

  lemma CentredProduct(n: real, sx: real, sy: real, mx: real, my: real, dot: real)
    requires 0.0 < n && mx == sx / n && my == sy / n
    ensures Times(1.0, sy) + Times(n, -my) == 0.0
    ensures Times(-mx, 0.0) == 0.0
    ensures Times(n, dot + Times(-my, sx)) == Times(n, dot) - Times(sx, sy)
  {
    assert n * my == sy;
    assert n * (my * sx) == (n * my) * sx;
  }

  /** The series are compared over the length they share. */
  function Shared(xs: seq<real>, ys: seq<real>): nat {
    MinInt(|xs|, |ys|)
  }

  /** n times the sum of the products, less the product of the sums. */
  function CoSum(xs: seq<real>, ys: seq<real>): real
    requires |xs| == |ys|
  {
    Times(|xs| as real, Dot(xs, ys)) - Times(Sum(xs), Sum(ys))
  }

  /**
   * The coefficient in its computational form, over sums of the series themselves: zero when they share
   * less than two elements or either is constant there, and the co-sum over the root of both own co-sums
   * otherwise, numerator and root n-fold.
   */
  lemma PearsonSpelledOut(xs: seq<real>, ys: seq<real>)
    ensures var n, c := Shared(xs, ys), PearsonOf(xs, ys);
      if n < 2 || Constant(xs[..n]) || Constant(ys[..n]) then c == Coefficient(0.0, 1.0)
      else
        && Times(n as real, c.numerator) == CoSum(xs[..n], ys[..n])
        && Times(Times(n as real, n as real), c.radicand) == Times(CoSum(xs[..n], xs[..n]), CoSum(ys[..n], ys[..n]))
        && 0.0 < c.radicand
  {
    var n := Shared(xs, ys);
    PearsonIsBounded(xs, ys);
    if 2 <= n {
      var x, y := xs[..n], ys[..n];
      ConstantExactly(x);
      ConstantExactly(y);
      DeviationsMultiply(x, y);
      DeviationsMultiply(x, x);
      DeviationsMultiply(y, y);
      FourFactors(n as real, Dot(Deviations(x), Deviations(x)), Dot(Deviations(y), Deviations(y)));
      hide Dot, Deviations, Times, Constant, Sum;
    }
  }

  lemma FourFactors(n: real, x: real, y: real)
    ensures Times(Times(n, n), Times(x, y)) == Times(Times(n, x), Times(n, y))
  {
    assert (n * n) * (x * y) == (n * x) * (n * y);
  }

  /** A series is perfectly correlated with itself exactly when it varies. */
  lemma SelfCorrelation(xs: seq<real>)
    ensures var c := PearsonOf(xs, xs);
      if |xs| < 2 || Constant(xs) then c == Coefficient(0.0, 1.0)
      else 0.0 < c.numerator && Times(c.numerator, c.numerator) == c.radicand
  {
    if 2 <= |xs| {
      assert xs[..|xs|] == xs;
      SquaresAddUp(Deviations(xs));
      ConstantExactly(xs);
    }
  }

  lemma {:induction false} SumOfAffine(scale: real, shift: real, xs: seq<real>)
    ensures Sum(Affine(scale, shift, xs)) == Times(scale, Sum(xs)) + Times(|xs| as real, shift)
  {
    if xs != [] {
      var n := |xs| - 1;
      SumOfAffine(scale, shift, xs[..n]);
      SumSnoc(Affine(scale, shift, xs[..n]), Times(scale, xs[n]) + shift);
      SumOfAffineStep(scale, shift, Sum(xs[..n]), xs[n], n as real);
      hide Times;
    }
  }

  lemma SumOfAffineStep(scale: real, shift: real, s: real, x: real, n: real)
    ensures Times(scale, s) + Times(n, shift) + (Times(scale, x) + shift) == Times(scale, s + x) + Times(n + 1.0, shift)
  {
  }

  lemma {:induction false} CentredAffine(scale: real, shift: real, mean: real, xs: seq<real>)
    ensures Affine(1.0, -(Times(scale, mean) + shift), Affine(scale, shift, xs))
         == Combine(scale, Affine(1.0, -mean, xs), 0.0, Affine(1.0, -mean, xs))
  {
    if xs != [] {
      var n := |xs| - 1;
      CentredAffine(scale, shift, mean, xs[..n]);
      CentredElement(scale, shift, mean, xs[n]);
      hide Times;
      var scaled, centred := Affine(scale, shift, xs), Affine(1.0, -mean, xs);
      assert scaled[..n] == Affine(scale, shift, xs[..n]) && centred[..n] == Affine(1.0, -mean, xs[..n]);
    }
  }

  lemma CentredElement(scale: real, shift: real, mean: real, x: real)
    ensures Times(1.0, Times(scale, x) + shift) + -(Times(scale, mean) + shift)
         == Times(scale, Times(1.0, x) + -mean) + Times(0.0, Times(1.0, x) + -mean)
  {
  }

  lemma {:induction false} DeviationsOfAffine(scale: real, shift: real, xs: seq<real>)
    requires xs != []
    ensures Deviations(Affine(scale, shift, xs)) == Combine(scale, Deviations(xs), 0.0, Deviations(xs))
  {
    SumOfAffine(scale, shift, xs);
    MeanOfAffine(scale, shift, Sum(xs), |xs| as real);
    CentredAffine(scale, shift, Mean(xs), xs);
    hide Times;
  }

  lemma MeanOfAffine(scale: real, shift: real, total: real, n: real)
    requires 0.0 < n
    ensures (Times(scale, total) + Times(n, shift)) / n == Times(scale, total / n) + shift
  {
    var mean := total / n;
    assert scale * (mean * n) + n * shift == (scale * mean + shift) * n;
  }

  lemma {:induction false} AffinePrefix(scale: real, shift: real, xs: seq<real>, k: nat)
    requires k <= |xs|
    ensures Affine(scale, shift, xs)[..k] == Affine(scale, shift, xs[..k])
  {
    if k < |xs| {
      var n := |xs| - 1;
      AffinePrefix(scale, shift, xs[..n], k);
      assert xs[..n][..k] == xs[..k];
      assert Affine(scale, shift, xs)[..k] == Affine(scale, shift, xs[..n])[..k];
    } else {
      assert xs[..k] == xs;
    }
  }

  /** Both coefficients stand for the same number. */
  predicate SameValue(c: Coefficient, d: Coefficient) {
    && Times(Times(c.numerator, c.numerator), d.radicand) == Times(Times(d.numerator, d.numerator), c.radicand)
    && (0.0 < c.numerator <==> 0.0 < d.numerator)
    && (c.numerator < 0.0 <==> d.numerator < 0.0)
  }

  /** Shifting a series, or scaling it by a positive factor, does not change its correlation. */
  lemma {:induction false} PearsonIsInvariant(scale: real, shift: real, xs: seq<real>, ys: seq<real>)
    requires 0.0 < scale
    ensures SameValue(PearsonOf(Affine(scale, shift, xs), ys), PearsonOf(xs, ys))
  {
    var n := if |xs| < |ys| then |xs| else |ys|;
    if 2 <= n {
      AffinePrefix(scale, shift, xs, n);
      DeviationsOfAffine(scale, shift, xs[..n]);
      var dx, dy := Deviations(xs[..n]), Deviations(ys[..n]);
      var scaled := Combine(scale, dx, 0.0, dx);
      DotIsLinear(scale, dx, 0.0, dx, dy);
      DotIsLinear(scale, dx, 0.0, dx, scaled);
      DotIsSymmetric(dx, scaled);
      DotIsLinear(scale, dx, 0.0, dx, dx);
      var cov, vx, vy := Dot(dx, dy), Dot(dx, dx), Dot(dy, dy);
      ScaledValue(scale, cov, vx, vy);
      TimesZero(cov);
      TimesZero(vx);
      TimesZero(Dot(dx, scaled));
      hide Dot, Combine, Deviations, Times, SameValue;
      assert Dot(scaled, dy) == Times(scale, cov) && Dot(scaled, scaled) == Times(scale, Times(scale, vx));
      SameValueReflexive(ZERO);
    }
  }

  lemma SameValueReflexive(c: Coefficient)
    ensures SameValue(c, c)
  {
  }

  lemma ScaledValue(scale: real, cov: real, vx: real, vy: real)
    requires 0.0 < scale
    ensures Times(scale, Times(scale, vx)) == 0.0 <==> vx == 0.0
    ensures SameValue(Coefficient(Times(scale, cov), Times(Times(scale, Times(scale, vx)), vy)),
                      Coefficient(cov, Times(vx, vy)))
  {
    ProductIsZero(scale, vx);
    ProductIsZero(scale, scale * vx);
    ProductSigns(scale, cov);
    var k := scale * scale;
    assert (scale * cov) * (scale * cov) == k * (cov * cov);
    assert (scale * (scale * vx)) * vy == k * (vx * vy);
    Rearrange(k, cov * cov, vx * vy);
  }

  lemma ProductIsZero(scale: real, x: real)
    requires 0.0 < scale
    ensures scale * x == 0.0 <==> x == 0.0
  {
  }

  lemma ProductSigns(scale: real, x: real)
    requires 0.0 < scale
    ensures (0.0 < scale * x <==> 0.0 < x) && (scale * x < 0.0 <==> x < 0.0)
  {
  }

  lemma Rearrange(k: real, x: real, y: real)
    ensures (k * x) * y == x * (k * y)
  {
  }

  // ---------------------------------------------------------------------------------------
  // The correlation matrix of a portfolio
  // ---------------------------------------------------------------------------------------

  function Column(xs: map<string, real>, dates: seq<string>): seq<real>
    requires forall d :: d in dates ==> d in xs
  {
    seq(|dates|, i requires 0 <= i < |dates| => xs[dates[i]])
  }

  function DateAligned(xs: map<string, real>, ys: map<string, real>): Coefficient {
    var common := Sorted(xs.Keys * ys.Keys);
    if |common| < 2 then ZERO else PearsonOf(Column(xs, common), Column(ys, common))
  }

  /** Square, symmetric, ones on the diagonal, every entry between -1 and 1. */
  ghost predicate IsCorrelationMatrix(m: seq<seq<Coefficient>>) {
    && (forall i :: 0 <= i < |m| ==> |m[i]| == |m|)
    && (forall i, j :: 0 <= i < |m| && 0 <= j < |m| ==> EntryOk(m, i, j))
  }

  ghost predicate EntryOk(m: seq<seq<Coefficient>>, i: nat, j: nat)
    requires i < |m| && j < |m| && |m[i]| == |m| == |m[j]|
  {
    m[i][j] == m[j][i] && Bounded(m[i][j]) && (i == j ==> m[i][j] == Coefficient(1.0, 1.0))
  }

  method CorrelationMatrix(series: seq<map<string, real>>) returns (matrix: seq<seq<Coefficient>>)
    ensures IsCorrelationMatrix(matrix)
    ensures |matrix| == if |series| < 2 then 1 else |series|
    ensures 2 <= |series| ==> forall i, j :: 0 <= i < |series| && 0 <= j < |series| && i != j ==>
              matrix[i][j] == DateAligned(series[i], series[j])
  {
    hide DateAligned;
    var n := |series|;
    if n < 2 {
      TrivialMatrix();
      return [[ONE]];
    }
    matrix := [];
    for i := 0 to n
      invariant |matrix| == i
      invariant forall k :: 0 <= k < i ==> |matrix[k]| == n && IsRow(series, k, matrix[k])
    {
      var row: seq<Coefficient> := [];
      for j := 0 to n
        invariant |row| == j && IsRow(series, i, row)
      {
        if i == j {
          row := row + [ONE];
        } else {
          row := row + [DateAligned(series[i], series[j])];
        }
      }
      matrix := matrix + [row];
    }
    RowsMakeMatrix(series, matrix);
  }

  lemma RowsMakeMatrix(series: seq<map<string, real>>, matrix: seq<seq<Coefficient>>)
    requires |matrix| == |series|
    requires forall i :: 0 <= i < |matrix| ==> |matrix[i]| == |matrix| && IsRow(series, i, matrix[i])
    ensures IsCorrelationMatrix(matrix)
  {
    hide DateAligned, Times, Bounded;
    TrivialMatrix();
    forall i, j | 0 <= i < |matrix| && 0 <= j < |matrix|
      ensures EntryOk(matrix, i, j)
    {
      assert IsRow(series, i, matrix[i]) && IsRow(series, j, matrix[j]);
      DateAlignedIsSymmetric(series[i], series[j]);
    }
  }

  lemma TrivialMatrix()
    ensures IsCorrelationMatrix([[ONE]]) && Bounded(ONE)
  {
    assert Bounded(ONE);
    hide Times, Bounded;
    forall i, j | 0 <= i < 1 && 0 <= j < 1
      ensures EntryOk([[ONE]], i, j)
    {
    }
  }

  ghost predicate IsRow(series: seq<map<string, real>>, i: nat, row: seq<Coefficient>)
    requires i < |series| && |row| <= |series|
  {
    forall j :: 0 <= j < |row| ==> row[j] == if i == j then ONE else DateAligned(series[i], series[j])
  }

  /** The columns hold the values of both series over an ascending list of exactly the dates they share. */
  ghost predicate Aligns(dates: seq<string>, xs: map<string, real>, ys: map<string, real>, x: seq<real>, y: seq<real>) {
    && Ascending(dates) && (forall d :: d in dates <==> d in xs && d in ys)
    && |x| == |y| == |dates|
    && forall i :: 0 <= i < |dates| ==> x[i] == xs[dates[i]] && y[i] == ys[dates[i]]
  }

  /** Two series are correlated over the dates they share, in order, and not at all with fewer than two. */
  lemma DateAlignedExactly(xs: map<string, real>, ys: map<string, real>, dates: seq<string>, x: seq<real>, y: seq<real>)
    requires Aligns(dates, xs, ys, x, y)
    ensures DateAligned(xs, ys) == if |dates| < 2 then Coefficient(0.0, 1.0) else PearsonOf(x, y)
  {
    hide Ascending, Sorted, PearsonOf;
    var common := Sorted(xs.Keys * ys.Keys);
    SortedIsUnique(dates, common);
    assert x == Column(xs, common) && y == Column(ys, common);
  }

  /** Series that agree wherever both have a value, and vary there, are perfectly correlated. */
  lemma AgreeingSeries(xs: map<string, real>, ys: map<string, real>, d: string, e: string)
    requires forall date :: date in xs && date in ys ==> xs[date] == ys[date]
    requires d in xs && d in ys && e in xs && e in ys && xs[d] != xs[e]
    ensures var c := DateAligned(xs, ys);
      0.0 < c.numerator && Times(c.numerator, c.numerator) == c.radicand
  {
    hide Sorted, PearsonOf, Times;
    var common := Sorted(xs.Keys * ys.Keys);
    assert forall date :: date in common <==> date in xs && date in ys;
    var x := Column(xs, common);
    assert x == Column(ys, common);
    assert d in common && e in common;
    var i :| 0 <= i < |common| && common[i] == d;
    var j :| 0 <= j < |common| && common[j] == e;
    assert x[i] != x[j];
    SelfCorrelation(x);
  }

  lemma DateAlignedIsSymmetric(xs: map<string, real>, ys: map<string, real>)
    ensures DateAligned(xs, ys) == DateAligned(ys, xs) && Bounded(DateAligned(xs, ys))
  {
    var common := Sorted(xs.Keys * ys.Keys);
    assert xs.Keys * ys.Keys == ys.Keys * xs.Keys;
    if 2 <= |common| {
      PearsonIsSymmetric(Column(xs, common), Column(ys, common));
      PearsonIsBounded(Column(xs, common), Column(ys, common));
    }
  }
}
