/** Correlation: the detector's raw-sum form, the dashboard's centred form, and
    autocorrelation. Numbers are reals; the square root in the denominator is
    any root the caller supplies, pinned down by IsSqrt. */
module Pearson {
  import opened Arithmetic
  import opened Collections

  /** The smallest denominator a detector divides by: 2 to the power -52. */
  const EPSILON: real := 1.0 / 4503599627370496.0

  /** Detectors are silent below this many points. */
  const MIN_SAMPLES: nat := 4

  type Pairs = seq<(real, real)>

  // ---- sums ----

  function SumX(p: Pairs): real {
    if p == [] then 0.0 else SumX(p[1..]) + p[0].0
  }

  function SumY(p: Pairs): real {
    if p == [] then 0.0 else SumY(p[1..]) + p[0].1
  }

  /** A product, named so that proofs about sums need not look inside it. */
  function Times(x: real, y: real): real {
    x * y
  }

  function SumXY(p: Pairs): real {
    if p == [] then 0.0 else SumXY(p[1..]) + Times(p[0].0, p[0].1)
  }

  function SumXX(p: Pairs): real {
    if p == [] then 0.0 else SumXX(p[1..]) + Times(p[0].0, p[0].0)
  }

  function SumYY(p: Pairs): real {
    if p == [] then 0.0 else SumYY(p[1..]) + Times(p[0].1, p[0].1)
  }

  function N(p: Pairs): real {
    |p| as real
  }

  /** n times a sum of products, less the product of the sums. */
  function Moment(n: real, s: real, t: real, st: real): real {
    n * st - s * t
  }

  /** The covariance and the variances, scaled by n squared, from raw sums. */
  function Cov(p: Pairs): real {
    Moment(N(p), SumX(p), SumY(p), SumXY(p))
  }

  function VarX(p: Pairs): real {
    Moment(N(p), SumX(p), SumX(p), SumXX(p))
  }

  function VarY(p: Pairs): real {
    Moment(N(p), SumY(p), SumY(p), SumYY(p))
  }

  // ---- variances are nonnegative ----

  /** The product of the distances of x and y from given centres. */
  function Off(x: real, y: real, a: real, b: real): real {
    (x - a) * (y - b)
  }

  /** Sums of such products over a list. */
  function CentredXY(p: Pairs, a: real, b: real): real {
    if p == [] then 0.0 else CentredXY(p[1..], a, b) + Off(p[0].0, p[0].1, a, b)
  }

  function CentredXX(p: Pairs, a: real): real {
    if p == [] then 0.0 else CentredXX(p[1..], a) + Off(p[0].0, p[0].0, a, a)
  }

  function CentredYY(p: Pairs, b: real): real {
    if p == [] then 0.0 else CentredYY(p[1..], b) + Off(p[0].1, p[0].1, b, b)
  }

  /** Such a sum in terms of raw sums. */
  function Centred(n: real, s: real, t: real, st: real, a: real, b: real): real {
    st - a * t - b * s + n * (a * b)
  }

  lemma CentredGrows(n: real, s: real, t: real, st: real, x: real, y: real, a: real, b: real)
    ensures Centred(n + 1.0, s + x, t + y, st + Times(x, y), a, b) == Centred(n, s, t, st, a, b) + Off(x, y, a, b)
  {
    assert (x - a) * (y - b) == x * y - a * y - b * x + a * b;
    assert a * (t + y) == a * t + a * y && b * (s + x) == b * s + b * x;
    assert (n + 1.0) * (a * b) == n * (a * b) + a * b;
  }

  lemma NothingToCentre(a: real, b: real)
    ensures Centred(0.0, 0.0, 0.0, 0.0, a, b) == 0.0
    ensures Moment(0.0, 0.0, 0.0, 0.0) == 0.0
  {
  }

  lemma {:induction false} CentredXYExpands(p: Pairs, a: real, b: real)
    ensures CentredXY(p, a, b) == Centred(N(p), SumX(p), SumY(p), SumXY(p), a, b)
  {
    hide Centred, Off, Times;
    if p == [] {
      NothingToCentre(a, b);
    } else {
      var q, x, y := p[1..], p[0].0, p[0].1;
      CentredXYExpands(q, a, b);
      CentredGrows(N(q), SumX(q), SumY(q), SumXY(q), x, y, a, b);
      assert N(p) == N(q) + 1.0 && SumX(p) == SumX(q) + x && SumY(p) == SumY(q) + y;
      assert SumXY(p) == SumXY(q) + Times(x, y);
    }
  }

  lemma {:induction false} CentredXXExpands(p: Pairs, a: real)
    ensures CentredXX(p, a) == Centred(N(p), SumX(p), SumX(p), SumXX(p), a, a)
  {
    hide Centred, Off, Times;
    if p == [] {
      NothingToCentre(a, a);
    } else {
      var q, x, y := p[1..], p[0].0, p[0].0;
      CentredXXExpands(q, a);
      CentredGrows(N(q), SumX(q), SumX(q), SumXX(q), x, y, a, a);
      assert N(p) == N(q) + 1.0 && SumX(p) == SumX(q) + x && SumX(p) == SumX(q) + y;
      assert SumXX(p) == SumXX(q) + Times(x, y);
    }
  }

  lemma {:induction false} CentredYYExpands(p: Pairs, b: real)
    ensures CentredYY(p, b) == Centred(N(p), SumY(p), SumY(p), SumYY(p), b, b)
  {
    hide Centred, Off, Times;
    if p == [] {
      NothingToCentre(b, b);
    } else {
      var q, x, y := p[1..], p[0].1, p[0].1;
      CentredYYExpands(q, b);
      CentredGrows(N(q), SumY(q), SumY(q), SumYY(q), x, y, b, b);
      assert N(p) == N(q) + 1.0 && SumY(p) == SumY(q) + x && SumY(p) == SumY(q) + y;
      assert SumYY(p) == SumYY(q) + Times(x, y);
    }
  }

  lemma {:induction false} CentredNonneg(p: Pairs, a: real, b: real)
    ensures CentredXX(p, a) >= 0.0 && CentredYY(p, b) >= 0.0
  {
    if p != [] {
      CentredNonneg(p[1..], a, b);
      SquareNonneg(p[0].0 - a);
      SquareNonneg(p[0].1 - b);
    }
  }

  /** Centring at the means and scaling by n gives the raw-sum form. */
  lemma CentredAtMeans(n: real, s: real, t: real, st: real)
    requires n > 0.0
    ensures n * Centred(n, s, t, st, s / n, t / n) == Moment(n, s, t, st)
  {
    var a, b := s / n, t / n;
    assert a * n == s && b * n == t;
    assert n * (st - a * t - b * s + n * (a * b)) == n * st - (a * n) * t - (b * n) * s + (a * n) * (b * n);
  }

  function MeanX(p: Pairs): real
    requires p != []
  {
    SumX(p) / N(p)
  }

  function MeanY(p: Pairs): real
    requires p != []
  {
    SumY(p) / N(p)
  }

  /** The centred sums of the dashboard are the raw-sum moments divided by n. */
  lemma CentredIsRaw(p: Pairs)
    requires p != []
    ensures N(p) * CentredXY(p, MeanX(p), MeanY(p)) == Cov(p)
    ensures N(p) * CentredXX(p, MeanX(p)) == VarX(p)
    ensures N(p) * CentredYY(p, MeanY(p)) == VarY(p)
  {
    hide Centred, Moment, CentredXY, CentredXX, CentredYY, SumX, SumY, SumXX, SumXY, SumYY;
    CentredXYExpands(p, MeanX(p), MeanY(p));
    CentredXXExpands(p, MeanX(p));
    CentredYYExpands(p, MeanY(p));
    CentredAtMeans(N(p), SumX(p), SumY(p), SumXY(p));
    CentredAtMeans(N(p), SumX(p), SumX(p), SumXX(p));
    CentredAtMeans(N(p), SumY(p), SumY(p), SumYY(p));
  }

  lemma VariancesNonneg(p: Pairs)
    ensures VarX(p) >= 0.0 && VarY(p) >= 0.0
  {
    hide Moment, Centred, MeanX, MeanY, CentredXX, CentredYY;
    if p == [] {
      NothingToCentre(0.0, 0.0);
    } else {
      CentredIsRaw(p);
      CentredNonneg(p, MeanX(p), MeanY(p));
      ProductNonneg(N(p), CentredXX(p, MeanX(p)));
      ProductNonneg(N(p), CentredYY(p, MeanY(p)));
    }
  }

  // ---- Cauchy-Schwarz ----

  function Linear(x: real, y: real, t: real, u: real): real {
    t * x + u * y
  }

  function Form(a: real, b: real, c: real, t: real, u: real): real {
    t * t * a + 2.0 * (t * u) * b + u * u * c
  }

  /** The list of t·x + u·y, as first components. */
  function Mix(p: Pairs, t: real, u: real): Pairs {
    if p == [] then [] else [(Linear(p[0].0, p[0].1, t, u), 0.0)] + Mix(p[1..], t, u)
  }

  lemma NothingToMix(t: real, u: real)
    ensures Linear(0.0, 0.0, t, u) == 0.0 && Form(0.0, 0.0, 0.0, t, u) == 0.0
  {
  }

  lemma SumsHead(p: Pairs)
    requires p != []
    ensures SumX(p) == SumX(p[1..]) + p[0].0 && SumY(p) == SumY(p[1..]) + p[0].1
    ensures SumXX(p) == SumXX(p[1..]) + Times(p[0].0, p[0].0) && SumYY(p) == SumYY(p[1..]) + Times(p[0].1, p[0].1)
    ensures SumXY(p) == SumXY(p[1..]) + Times(p[0].0, p[0].1)
  {
    hide Times;
  }

  lemma MixHead(p: Pairs, t: real, u: real)
    requires p != []
    ensures var m := Mix(p, t, u);
            m != [] && m[0] == (Linear(p[0].0, p[0].1, t, u), 0.0) && m[1..] == Mix(p[1..], t, u)
  {
  }

  lemma {:induction false} MixSums(p: Pairs, t: real, u: real)
    ensures |Mix(p, t, u)| == |p|
    ensures SumX(Mix(p, t, u)) == Linear(SumX(p), SumY(p), t, u)
    ensures SumXX(Mix(p, t, u)) == Form(SumXX(p), SumXY(p), SumYY(p), t, u)
  {
    if p == [] {
      hide Linear, Form;
      NothingToMix(t, u);
    } else {
      hide Linear, Form, Times, SumX, SumY, SumXX, SumXY, SumYY, Mix;
      var q := p[1..];
      MixSums(q, t, u);
      MixHead(p, t, u);
      SumsHead(p);
      SumsHead(Mix(p, t, u));
      MixStep(SumX(q), SumY(q), SumXX(q), SumXY(q), SumYY(q), p[0].0, p[0].1, t, u);
    }
  }

  lemma MixStep(
    sx: real, sy: real, sxx: real, sxy: real, syy: real, x: real, y: real, t: real, u: real)
    ensures Linear(sx + x, sy + y, t, u) == Linear(sx, sy, t, u) + Linear(x, y, t, u)
    ensures Form(sxx + Times(x, x), sxy + Times(x, y), syy + Times(y, y), t, u)
            == Form(sxx, sxy, syy, t, u) + Times(Linear(x, y, t, u), Linear(x, y, t, u))
  {
    SquareOfSum(t, x, u, y);
    assert t * t * (sxx + x * x) == t * t * sxx + t * t * (x * x);
    assert 2.0 * (t * u) * (sxy + x * y) == 2.0 * (t * u) * sxy + 2.0 * (t * u) * (x * y);
    assert u * u * (syy + y * y) == u * u * syy + u * u * (y * y);
  }

  lemma SquareOfSum(t: real, x: real, u: real, y: real)
    ensures (t * x + u * y) * (t * x + u * y) == t * t * (x * x) + 2.0 * (t * u) * (x * y) + u * u * (y * y)
  {
    assert (t * x) * (t * x) == t * t * (x * x);
    assert (u * y) * (u * y) == u * u * (y * y);
    assert (t * x) * (u * y) == (t * u) * (x * y);
  }

  lemma MixVariance(p: Pairs, t: real, u: real)
    ensures Form(VarX(p), Cov(p), VarY(p), t, u) >= 0.0
  {
    hide Form, Linear, Moment, SumX, SumXX, SumY, SumXY, SumYY, Mix;
    var m := Mix(p, t, u);
    MixSums(p, t, u);
    VariancesNonneg(m);
    assert N(m) == N(p);
    QuadraticForm(N(p), SumX(p), SumY(p), SumXX(p), SumXY(p), SumYY(p), t, u, SumX(m), SumXX(m));
  }

  lemma QuadraticForm(
    n: real, sx: real, sy: real, sxx: real, sxy: real, syy: real, t: real, u: real, s: real, ss: real)
    requires s == Linear(sx, sy, t, u) && ss == Form(sxx, sxy, syy, t, u)
    ensures Moment(n, s, s, ss) == Form(Moment(n, sx, sx, sxx), Moment(n, sx, sy, sxy), Moment(n, sy, sy, syy), t, u)
  {
    SquareOfSum(t, sx, u, sy);
    assert n * (t * t * sxx) == t * t * (n * sxx);
    assert n * (2.0 * (t * u) * sxy) == 2.0 * (t * u) * (n * sxy);
    assert n * (u * u * syy) == u * u * (n * syy);
  }

  /** A quadratic form that is nonnegative at these points has a nonpositive
      discriminant. */
  lemma DiscriminantPositive(a: real, b: real, c: real)
    requires c > 0.0 && Form(a, b, c, c, -b) >= 0.0
    ensures b * b <= a * c
  {
    assert c * c * a == c * (a * c);
    assert (c * -b) * b == -(c * (b * b));
    assert -b * -b * c == c * (b * b);
    assert c * (a * c - b * b) == c * (a * c) - c * (b * b);
    PositiveFactor(c, a * c - b * b);
  }

  lemma NegativePoint(a: real, b: real, c: real) returns (k: real)
    requires b != 0.0 && c == 0.0
    ensures Form(a, b, c, 1.0, -k) == -1.0
  {
    k := (a + 1.0) / (2.0 * b);
    assert k * (2.0 * b) == a + 1.0;
    assert 2.0 * (1.0 * -k) * b == -(k * (2.0 * b));
  }

  lemma DiscriminantZero(p: Pairs)
    requires VarY(p) == 0.0
    ensures Cov(p) == 0.0
  {
    if Cov(p) != 0.0 {
      var k := NegativePoint(VarX(p), Cov(p), VarY(p));
      MixVariance(p, 1.0, -k);
    }
  }

  /** For every list of pairs: both variances are nonnegative and the squared
      covariance is at most their product. */
  lemma CauchySchwarz(p: Pairs)
    ensures VarX(p) >= 0.0 && VarY(p) >= 0.0
    ensures Cov(p) * Cov(p) <= VarX(p) * VarY(p)
  {
    hide *;
    VariancesNonneg(p);
    if VarY(p) > 0.0 {
      MixVariance(p, VarY(p), -Cov(p));
      DiscriminantPositive(VarX(p), Cov(p), VarY(p));
    } else {
      DiscriminantZero(p);
    }
  }

  // ---- the coefficient ----

  /** root is the nonnegative square root of x. */
  predicate IsSqrt(root: real, x: real) {
    root >= 0.0 && root * root == x
  }

  /** The detector's coefficient, given the root of the product of variances;
      too few pairs or a vanishing root report 0. */
  function R(p: Pairs, root: real): real {
    if |p| < 2 then 0.0
    else if root < EPSILON then 0.0
    else Cov(p) / root
  }

  /** n·Σab − Σa·Σb for two series of n values. */
  function RawMoment(a: seq<real>, b: seq<real>): real
    requires |a| == |b|
  {
    (|a| as real) * Sum(Products(a, b)) - Sum(a) * Sum(b)
  }

  function Products(a: seq<real>, b: seq<real>): seq<real>
    requires |a| == |b|
  {
    seq(|a|, i requires 0 <= i < |a| => Times(a[i], b[i]))
  }

  /** p pairs a with b, value by value. */
  ghost predicate Pairing(p: Pairs, a: seq<real>, b: seq<real>) {
    |a| == |b| == |p| && forall i | 0 <= i < |p| :: p[i] == (a[i], b[i])
  }

  lemma {:induction false} SumsInFull(p: Pairs, a: seq<real>, b: seq<real>)
    requires Pairing(p, a, b)
    ensures SumX(p) == Sum(a) && SumY(p) == Sum(b)
    ensures SumXY(p) == Sum(Products(a, b)) && SumXX(p) == Sum(Products(a, a)) && SumYY(p) == Sum(Products(b, b))
  {
    hide Times;
    if p != [] {
      SumsInFull(p[1..], a[1..], b[1..]);
      assert Products(a, b)[1..] == Products(a[1..], b[1..]);
      assert Products(a, a)[1..] == Products(a[1..], a[1..]);
      assert Products(b, b)[1..] == Products(b[1..], b[1..]);
    }
  }

  lemma MomentsInFull(p: Pairs, a: seq<real>, b: seq<real>)
    requires Pairing(p, a, b)
    ensures Cov(p) == RawMoment(a, b) && VarX(p) == RawMoment(a, a) && VarY(p) == RawMoment(b, b)
  {
    SumsInFull(p, a, b);
    hide SumX, SumY, SumXX, SumXY, SumYY, Sum, Products, Moment, RawMoment;
    RawMomentIs(a, b);
    RawMomentIs(a, a);
    RawMomentIs(b, b);
  }

  lemma RawMomentIs(a: seq<real>, b: seq<real>)
    requires |a| == |b|
    ensures RawMoment(a, b) == Moment(|a| as real, Sum(a), Sum(b), Sum(Products(a, b)))
  {
    hide Sum, Products;
  }

  /** The coefficient of two series of at least two values, past the cut-off of 2 to
      the power -52, times the root of the product of their variances is their
      covariance, all three from raw sums; otherwise it is 0. */
  lemma CoefficientInFull(p: Pairs, a: seq<real>, b: seq<real>, root: real)
    requires Pairing(p, a, b)
    ensures VarX(p) == RawMoment(a, a) && VarY(p) == RawMoment(b, b)
    ensures if |p| < 2 || root < 1.0 / 4503599627370496.0 then R(p, root) == 0.0
            else Product(R(p, root), root, RawMoment(a, b))
  {
    MomentsInFull(p, a, b);
    hide Cov, VarX, VarY, RawMoment, Pairing, Product;
    if |p| >= 2 && root >= EPSILON {
      OverTimes(Cov(p), root);
    }
  }

  /** The coefficient never leaves [-1, 1]. */
  lemma CoefficientBounded(p: Pairs, root: real)
    requires IsSqrt(root, VarX(p) * VarY(p))
    ensures -1.0 <= R(p, root) <= 1.0
  {
    CauchySchwarz(p);
    SquareOrder(Cov(p), root);
    if root >= EPSILON {
      QuotientBounded(Cov(p), root);
    }
  }

  /** The root, hence the coefficient, is determined. */
  lemma RootUnique(a: real, b: real, x: real)
    requires IsSqrt(a, x) && IsSqrt(b, x)
    ensures a == b
  {
    SquareOrder(a, b);
    SquareOrder(b, a);
  }

  // ---- scaling and shifting ----

  /** The first series scaled by s and shifted by c. */
  function Affine(p: Pairs, s: real, c: real): Pairs {
    if p == [] then [] else [(Linear(p[0].0, 1.0, s, c), p[0].1)] + Affine(p[1..], s, c)
  }

  lemma AffineStep(sxy: real, sy: real, x: real, y: real, s: real, c: real)
    ensures Linear(sxy + Times(x, y), sy + y, s, c) == Linear(sxy, sy, s, c) + Times(Linear(x, 1.0, s, c), y)
  {
    assert (s * x + c) * y == s * (x * y) + c * y;
  }

  lemma AffineHead(p: Pairs, s: real, c: real)
    requires p != []
    ensures var a := Affine(p, s, c);
            a != [] && a[0] == (Linear(p[0].0, 1.0, s, c), p[0].1) && a[1..] == Affine(p[1..], s, c)
  {
  }

  lemma {:induction false} AffineSums(p: Pairs, s: real, c: real)
    ensures |Affine(p, s, c)| == |p|
    ensures SumY(Affine(p, s, c)) == SumY(p) && SumYY(Affine(p, s, c)) == SumYY(p)
    ensures SumX(Affine(p, s, c)) == Linear(SumX(p), N(p), s, c)
    ensures SumXY(Affine(p, s, c)) == Linear(SumXY(p), SumY(p), s, c)
    ensures SumXX(Affine(p, s, c)) == Form(SumXX(p), SumX(p), N(p), s, c)
  {
    if p == [] {
      hide Linear, Form;
      NothingToMix(s, c);
    } else {
      hide Linear, Form, Times, SumX, SumY, SumXX, SumXY, SumYY, Affine;
      var q, x, y := p[1..], p[0].0, p[0].1;
      AffineSums(q, s, c);
      AffineHead(p, s, c);
      SumsHead(p);
      SumsHead(Affine(p, s, c));
      MixStep(SumX(q), N(q), SumXX(q), SumX(q), N(q), x, 1.0, s, c);
      AffineStep(SumXY(q), SumY(q), x, y, s, c);
      UnitSquare(x);
      assert N(p) == N(q) + 1.0;
    }
  }

  lemma UnitSquare(x: real)
    ensures Times(x, 1.0) == x && Times(1.0, 1.0) == 1.0
  {
  }

  lemma AffineMoments(n: real, sx: real, sy: real, sxx: real, sxy: real, s: real, c: real)
    ensures Moment(n, Linear(sx, n, s, c), sy, Linear(sxy, sy, s, c)) == s * Moment(n, sx, sy, sxy)
    ensures Moment(n, Linear(sx, n, s, c), Linear(sx, n, s, c), Form(sxx, sx, n, s, c))
            == (s * s) * Moment(n, sx, sx, sxx)
  {
    assert (s * sx + c * n) * sy == s * (sx * sy) + c * (n * sy);
    assert (s * sx + c * n) * (s * sx + c * n) == s * s * (sx * sx) + 2.0 * (s * c) * (n * sx) + c * c * (n * n);
  }

  /** Scaling a series multiplies covariance by s and its variance by s squared;
      shifting changes neither, and the other series' variance stays. */
  lemma AffineCovariance(p: Pairs, s: real, c: real)
    ensures |Affine(p, s, c)| == |p|
    ensures Cov(Affine(p, s, c)) == s * Cov(p)
    ensures VarX(Affine(p, s, c)) == (s * s) * VarX(p)
    ensures VarY(Affine(p, s, c)) == VarY(p)
  {
    hide Moment, Linear, Form, SumX, SumY, SumXX, SumXY, SumYY, Affine;
    AffineSums(p, s, c);
    assert N(Affine(p, s, c)) == N(p);
    AffineMoments(N(p), SumX(p), SumY(p), SumXX(p), SumXY(p), s, c);
  }

  lemma ScaledRoot(
    root: real, root': real, s: real, vx: real, vy: real, vx': real, vy': real, d: real, d': real)
    requires d == vx * vy && d' == vx' * vy' && vx' == (s * s) * vx && vy' == vy
    requires IsSqrt(root, d) && IsSqrt(root', d')
    ensures root' == (if s < 0.0 then -s else s) * root
  {
    var m := if s < 0.0 then -s else s;
    ProductNonneg(m, root);
    assert (m * root) * (m * root) == (s * s) * (root * root);
    assert ((s * s) * vx) * vy == (s * s) * (vx * vy);
    RootUnique(root', m * root, d');
  }

  lemma SignedQuotient(c: real, root: real, s: real)
    requires root > 0.0 && s != 0.0
    ensures (if s < 0.0 then -s else s) * root != 0.0
    ensures (s * c) / ((if s < 0.0 then -s else s) * root) == if s < 0.0 then -(c / root) else c / root
  {
    var m := if s < 0.0 then -s else s;
    var q := c / root;
    assert q * root == c;
    ProductPositive(m, root);
    var d := m * root;
    var e := if s < 0.0 then -q else q;
    assert s * c == e * d by {
      assert s * (q * root) == (s * q) * root;
      assert e * (m * root) == (e * m) * root;
    }
    assert (s * c) / d == e;
  }

  lemma ZeroQuotient(c: real, d: real)
    requires d > 0.0
    ensures c / d == 0.0 <==> c == 0.0
  {
    var q := c / d;
    assert q * d == c;
  }

  lemma ZeroProduct(s: real, c: real)
    requires s != 0.0
    ensures s * c == 0.0 <==> c == 0.0
  {
    assert (s * c) / s == c;
  }

  /** Scaling by a nonzero constant and shifting leave the coefficient alone up
      to the sign of the scale, except when exactly one of the two versions is
      cut off and there was a covariance to lose. */
  lemma CoefficientInvariant(p: Pairs, a: Pairs, s: real, c: real, root: real, root': real)
    requires s != 0.0 && a == Affine(p, s, c)
    requires IsSqrt(root, VarX(p) * VarY(p))
    requires IsSqrt(root', VarX(a) * VarY(a))
    ensures R(a, root') == (if s < 0.0 then -R(p, root) else R(p, root))
            <==> |p| < 2 || Cov(p) == 0.0 || (root >= EPSILON <==> root' >= EPSILON)
  {
    hide Cov, VarX, VarY;
    AffineCovariance(p, s, c);
    ScaledRoot(root, root', s, VarX(p), VarY(p), VarX(a), VarY(a), VarX(p) * VarY(p), VarX(a) * VarY(a));
    ZeroProduct(s, Cov(p));
    if root >= EPSILON {
      SignedQuotient(Cov(p), root, s);
      ZeroQuotient(Cov(p), root);
    }
    if root' >= EPSILON {
      ZeroQuotient(Cov(a), root');
    }
  }

  // ---- exchanging the series ----

  function Swap(p: Pairs): Pairs {
    if p == [] then [] else [(p[0].1, p[0].0)] + Swap(p[1..])
  }

  lemma {:induction false} SwapSums(p: Pairs)
    ensures |Swap(p)| == |p|
    ensures SumX(Swap(p)) == SumY(p) && SumY(Swap(p)) == SumX(p)
    ensures SumXX(Swap(p)) == SumYY(p) && SumYY(Swap(p)) == SumXX(p) && SumXY(Swap(p)) == SumXY(p)
  {
    if p != [] {
      SwapSums(p[1..]);
      assert Swap(p)[1..] == Swap(p[1..]);
    }
  }

  lemma MomentSymmetric(n: real, s: real, t: real, st: real)
    ensures Moment(n, s, t, st) == Moment(n, t, s, st)
  {
  }

  lemma SwapMoments(p: Pairs)
    ensures Cov(Swap(p)) == Cov(p) && VarX(Swap(p)) == VarY(p) && VarY(Swap(p)) == VarX(p)
  {
    hide Moment, SumX, SumY, SumXX, SumXY, SumYY;
    SwapSums(p);
    assert N(Swap(p)) == N(p);
    MomentSymmetric(N(p), SumX(p), SumY(p), SumXY(p));
  }

  /** Exchanging the series does not change the coefficient. */
  lemma SwapKeepsCoefficient(p: Pairs, root: real)
    ensures R(Swap(p), root) == R(p, root)
  {
    hide Cov, VarX, VarY;
    SwapMoments(p);
    SwapSums(p);
  }

  /** The second series scaled by s and shifted by c. */
  function AffineSecond(p: Pairs, s: real, c: real): Pairs {
    if p == [] then [] else [(p[0].0, Linear(p[0].1, 1.0, s, c))] + AffineSecond(p[1..], s, c)
  }

  lemma {:induction false} AffineSecondIsSwapped(p: Pairs, s: real, c: real)
    ensures Swap(AffineSecond(p, s, c)) == Affine(Swap(p), s, c)
  {
    if p != [] {
      AffineSecondIsSwapped(p[1..], s, c);
      assert Swap(p)[1..] == Swap(p[1..]);
    }
  }

  /** Scaling and shifting the second series does what it does for the first. */
  lemma CoefficientInvariantSecond(p: Pairs, a: Pairs, s: real, c: real, root: real, root': real)
    requires s != 0.0 && a == AffineSecond(p, s, c)
    requires IsSqrt(root, VarX(p) * VarY(p))
    requires IsSqrt(root', VarX(a) * VarY(a))
    ensures R(a, root') == (if s < 0.0 then -R(p, root) else R(p, root))
            <==> |p| < 2 || Cov(p) == 0.0 || (root >= EPSILON <==> root' >= EPSILON)
  {
    hide Cov, VarX, VarY, R;
    AffineSecondIsSwapped(p, s, c);
    SwapMoments(p);
    SwapMoments(a);
    SwapSums(p);
    SwapKeepsCoefficient(p, root);
    SwapKeepsCoefficient(a, root');
    assert VarX(p) * VarY(p) == VarY(p) * VarX(p) && VarX(a) * VarY(a) == VarY(a) * VarX(a);
    CoefficientInvariant(Swap(p), Swap(a), s, c, root, root');
  }
}
