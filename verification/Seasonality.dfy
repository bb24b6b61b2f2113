/** Seasonality by autocorrelation at lags 12 and 4. */
module Seasonality {
  import opened Arithmetic
  import opened Collections
  import opened Pearson

  const DEFAULT_SEASONALITY_R: real := 0.6

  /** The series against itself shifted by lag. */
  function LagPairs(values: seq<real>, lag: nat): Pairs {
    if |values| <= lag then []
    else seq(|values| - lag, i requires 0 <= i < |values| - lag => (values[i], values[i + lag]))
  }

  function Autocorrelation(values: seq<real>, lag: nat, root: real): real {
    if lag == 0 || |values| <= lag then 0.0 else R(LagPairs(values, lag), root)
  }

  // ---- what the coefficient is ----

  /** The series without its last lag values, and without its first. */
  function Lead(values: seq<real>, lag: nat): seq<real> {
    values[..Max(|values| - lag, 0)]
  }

  function Tail(values: seq<real>, lag: nat): seq<real> {
    values[Min(lag, |values|)..]
  }

  /** The product of the variances of the two, scaled, whose root divides. */
  function Spread(values: seq<real>, lag: nat): real {
    RawMoment(Lead(values, lag), Lead(values, lag)) * RawMoment(Tail(values, lag), Tail(values, lag))
  }

  lemma LagPairsPair(values: seq<real>, lag: nat)
    ensures Pairing(LagPairs(values, lag), Lead(values, lag), Tail(values, lag))
  {
  }

  lemma LaggedProducts(values: seq<real>, lag: nat, products: seq<real>)
    requires lag <= |values| == |products| + lag
    requires forall i | 0 <= i < |products| :: products[i] == Times(values[i], values[i + lag])
    ensures products == Products(values[..|values| - lag], values[lag..])
  {
    hide Times;
  }

  /** d is n times the sum of the products, less the product of the sums. */
  predicate IsMoment(d: real, n: real, products: real, s: real, t: real) {
    d == n * products - s * t
  }

  /** Past the cut-off, the coefficient times the root is m·Σ v[i]·v[i + lag] less
      Σ v[..m]·Σ v[lag..], where m = n - lag. */
  lemma AutocorrelationInFull(values: seq<real>, lag: nat, products: seq<real>, root: real) returns (moment: real)
    requires 0 < lag <= |values| == |products| + lag
    requires forall i | 0 <= i < |products| :: products[i] == values[i] * values[i + lag]
    ensures IsMoment(moment, |products| as real, Sum(products), Sum(values[..|products|]), Sum(values[lag..]))
    ensures if |products| < 2 || root < 1.0 / 4503599627370496.0 then Autocorrelation(values, lag, root) == 0.0
            else Product(Autocorrelation(values, lag, root), root, moment)
  {
    hide Sum, Products, R, Pairing, RawMoment, VarX, VarY, LagPairs, Product, IsMoment;
    var a, b := values[..|products|], values[lag..];
    LagPairsPair(values, lag);
    assert Pairing(LagPairs(values, lag), a, b);
    LaggedProducts(values, lag, products);
    RawMomentOf(a, b, products);
    moment := RawMoment(a, b);
    LagPairsLength(values, lag);
    CoefficientInFull(LagPairs(values, lag), a, b, root);
  }

  lemma RawMomentOf(a: seq<real>, b: seq<real>, products: seq<real>)
    requires |a| == |b| == |products| && products == Products(a, b)
    ensures IsMoment(RawMoment(a, b), |products| as real, Sum(products), Sum(a), Sum(b))
  {
    hide Sum, Products, RawMoment, Moment, IsMoment;
    RawMomentIs(a, b);
    MomentIs(|products| as real, Sum(a), Sum(b), Sum(products));
  }

  lemma MomentIs(n: real, s: real, t: real, st: real)
    ensures IsMoment(Moment(n, s, t, st), n, st, s, t)
  {
  }

  lemma LagPairsLength(values: seq<real>, lag: nat)
    ensures |LagPairs(values, lag)| == Max(|values| - lag, 0)
  {
  }

  lemma SpreadIsProduct(values: seq<real>, lag: nat)
    ensures VarX(LagPairs(values, lag)) == RawMoment(Lead(values, lag), Lead(values, lag))
    ensures VarY(LagPairs(values, lag)) == RawMoment(Tail(values, lag), Tail(values, lag))
    ensures Spread(values, lag) == VarX(LagPairs(values, lag)) * VarY(LagPairs(values, lag))
  {
    hide VarX, VarY, RawMoment, Lead, Tail, LagPairs, Pairing;
    LagPairsPair(values, lag);
    MomentsInFull(LagPairs(values, lag), Lead(values, lag), Tail(values, lag));
  }

  // ---- a series that repeats has autocorrelation 1, one that mirrors itself -1 ----

  lemma {:induction false} EqualSeriesMoments(p: Pairs)
    requires forall i | 0 <= i < |p| :: p[i].0 == p[i].1
    ensures SumX(p) == SumY(p) && SumXX(p) == SumXY(p) == SumYY(p)
    ensures Cov(p) == VarX(p) == VarY(p)
  {
    if p != [] {
      EqualSeriesMoments(p[1..]);
    }
  }

  /** A series that repeats exactly after lag has autocorrelation 1, unless its
      variance is below the cut-off, where the code reports 0. */
  lemma PeriodicSeries(values: seq<real>, lag: nat, root: real)
    requires 0 < lag && lag + 2 <= |values|
    requires forall i | 0 <= i < |values| - lag :: values[i + lag] == values[i]
    requires IsSqrt(root, Spread(values, lag))
    ensures Autocorrelation(values, lag, root)
            == if RawMoment(Lead(values, lag), Lead(values, lag)) >= EPSILON then 1.0 else 0.0
  {
    hide Cov, VarX, VarY, Spread, RawMoment;
    var p := LagPairs(values, lag);
    SpreadIsProduct(values, lag);
    EqualSeriesMoments(p);
    CauchySchwarz(p);
    RootOfSquare(root, VarX(p), VarY(p), VarX(p) * VarY(p));
  }

  lemma RootOfSquare(root: real, v: real, w: real, d: real)
    requires v >= 0.0 && v == w && d == v * w && IsSqrt(root, d)
    ensures root == v
  {
    SquareOrder(root, v);
    SquareOrder(v, root);
  }

  /** The pairs (c - y, y) are the second series with itself, mapped by -1 and c. */
  lemma {:induction false} MirroredPairs(p: Pairs, q: Pairs, c: real)
    requires |p| == |q| && forall i | 0 <= i < |p| :: p[i].1 == c - p[i].0 && q[i] == (p[i].1, p[i].1)
    ensures p == Affine(q, -1.0, c)
  {
    if p != [] {
      MirroredPairs(p[1..], q[1..], c);
      assert p == [p[0]] + p[1..];
    }
  }

  lemma MirroredMoments(p: Pairs, c: real)
    requires forall i | 0 <= i < |p| :: p[i].1 == c - p[i].0
    ensures VarX(p) == VarY(p) == -Cov(p)
  {
    var q := seq(|p|, i requires 0 <= i < |p| => (p[i].1, p[i].1));
    MirroredPairs(p, q, c);
    AffineCovariance(q, -1.0, c);
    EqualSeriesMoments(q);
  }

  /** A series that after lag comes back mirrored has autocorrelation -1, with the
      same exception. */
  lemma MirroredSeries(values: seq<real>, lag: nat, c: real, root: real)
    requires 0 < lag && lag + 2 <= |values|
    requires forall i | 0 <= i < |values| - lag :: values[i + lag] == c - values[i]
    requires IsSqrt(root, Spread(values, lag))
    ensures Autocorrelation(values, lag, root)
            == if RawMoment(Lead(values, lag), Lead(values, lag)) >= EPSILON then -1.0 else 0.0
  {
    hide Cov, VarX, VarY, Spread, RawMoment;
    var p := LagPairs(values, lag);
    SpreadIsProduct(values, lag);
    MirroredMoments(p, c);
    CauchySchwarz(p);
    RootOfSquare(root, VarX(p), VarY(p), VarX(p) * VarY(p));
  }

  // ---- the detector ----

  function Clamp(x: real, lo: real, hi: real): real {
    if x < lo then lo else if x > hi then hi else x
  }

  /** Confidence before the clamp: [minR, 1] mapped linearly onto [0.5, 1]. */
  function RawConfidence(r: real, minR: real): real {
    var span := if 1.0 - minR > EPSILON then 1.0 - minR else EPSILON;
    0.5 + (Abs(r) - minR) / span * 0.5
  }

  /** The clamp never acts: a coefficient that clears the threshold already maps
      into the band, linearly, and the ends are reached. */
  lemma ConfidenceInBand(r: real, minR: real)
    requires -1.0 <= r <= 1.0 && Abs(r) >= minR
    ensures 0.5 <= RawConfidence(r, minR) <= 1.0
    ensures Abs(r) == minR ==> RawConfidence(r, minR) == 0.5
    ensures Abs(r) == 1.0 && minR <= 1.0 - EPSILON ==> RawConfidence(r, minR) == 1.0
    ensures minR < 1.0 - EPSILON ==> (RawConfidence(r, minR) - 0.5) * 2.0 * (1.0 - minR) == Abs(r) - minR
  {
    var span := if 1.0 - minR > EPSILON then 1.0 - minR else EPSILON;
    var x := Abs(r) - minR;
    UnitQuotient(x, span);
    QuotientOrder(x, x, span);
  }

  lemma UnitQuotient(x: real, span: real)
    requires span > 0.0 && 0.0 <= x <= span
    ensures 0.0 <= x / span <= 1.0
    ensures x == 0.0 ==> x / span == 0.0
    ensures x == span ==> x / span == 1.0
  {
    QuotientRange(x, span, 1.0);
    if x == span {
      assert x / span == 1.0;
    }
  }

  datatype Finding = Finding(lag: nat, r: real, confidence: real)

  function EffectiveMinR(minR: real): real {
    if minR > 0.0 then minR else DEFAULT_SEASONALITY_R
  }

  /** What the detector reports for one lag: the series is long enough for the lag to
      repeat at least twice, and the coefficient clears the threshold. */
  function Report(values: seq<real>, lag: nat, minR: real, root: real): seq<Finding> {
    var r, floor := Autocorrelation(values, lag, root), EffectiveMinR(minR);
    if |values| >= MIN_SAMPLES && |values| >= 3 * lag && Abs(r) >= floor
    then [Finding(lag, r, RawConfidence(r, floor))] else []
  }

  /** At most one finding per lag, 12 before 4, exactly when three periods are there
      and the coefficient reaches the threshold, 0.6 by default; with the unclamped
      confidence, which lies in [0.5, 1]. */
  method DetectSeasonality(values: seq<real>, minR: real, root12: real, root4: real) returns (fs: seq<Finding>)
    requires IsSqrt(root12, Spread(values, 12)) && IsSqrt(root4, Spread(values, 4))
    ensures fs == Report(values, 12, minR, root12) + Report(values, 4, minR, root4)
    ensures var floor := if minR > 0.0 then minR else 0.6;
            && ((exists f :: f in fs && f.lag == 12)
                <==> |values| >= 36 && Abs(Autocorrelation(values, 12, root12)) >= floor)
            && ((exists f :: f in fs && f.lag == 4)
                <==> |values| >= 12 && Abs(Autocorrelation(values, 4, root4)) >= floor)
            && (forall f | f in fs ::
                  && (f.lag == 12 || f.lag == 4)
                  && f.r == Autocorrelation(values, f.lag, if f.lag == 12 then root12 else root4)
                  && f.confidence == RawConfidence(f.r, floor)
                  && 0.5 <= f.confidence <= 1.0 && floor <= Abs(f.r) <= 1.0)
    ensures |fs| <= 2 && (|fs| == 2 ==> fs[0].lag == 12 && fs[1].lag == 4)
  {
    hide Cov, VarX, VarY, LagPairs, Spread, Autocorrelation, RawConfidence;
    fs := [];
    assert |values| < 36 ==> Report(values, 12, minR, root12) == [];
    assert |values| < 12 ==> Report(values, 4, minR, root4) == [];
    if |values| < MIN_SAMPLES {
      return;
    }
    var threshold := if minR > 0.0 then minR else DEFAULT_SEASONALITY_R;
    var lags: seq<nat> := [12, 4];
    for k := 0 to |lags|
      invariant fs == (if k >= 1 then Report(values, 12, minR, root12) else [])
                      + (if k >= 2 then Report(values, 4, minR, root4) else [])
      invariant forall f | f in fs :: 0.5 <= f.confidence <= 1.0 && threshold <= Abs(f.r) <= 1.0
    {
      var lag := lags[k];
      var root := if lag == 12 then root12 else root4;
      var overlap := if |values| >= lag then |values| - lag else 0;
      if overlap < 2 * lag {
        continue;
      }
      var r := Autocorrelation(values, lag, root);
      if Abs(r) >= threshold {
        AutocorrelationBounded(values, lag, root);
        ConfidenceInBand(r, threshold);
        fs := fs + [Finding(lag, r, Clamp(RawConfidence(r, threshold), 0.5, 1.0))];
      }
    }
  }

  lemma AutocorrelationBounded(values: seq<real>, lag: nat, root: real)
    requires IsSqrt(root, Spread(values, lag))
    ensures -1.0 <= Autocorrelation(values, lag, root) <= 1.0
  {
    hide Cov, VarX, VarY, Spread;
    SpreadIsProduct(values, lag);
    CoefficientBounded(LagPairs(values, lag), root);
  }
}
