/** How unusual a value is against its history: percentile rank, normal band and
    return period. */
module Rarity {
  import opened Arithmetic
  import opened Collections
  import opened Pearson
  import opened Robust

  const MIN_HISTORY_POINTS: nat := 12
  const DEFAULT_BAND_K: real := 3.5

  // ---- percentile rank ----

  predicate Near(x: real, value: real) {
    Abs(x - value) < EPSILON
  }

  function TiedWith(value: real): real -> bool {
    (v: real) => Near(v, value)
  }

  /** Mid-rank of value within the history, counting near-equal values as ties. */
  function Rank(history: seq<real>, value: real): real {
    Count(history, Below(value)) as real + (Count(history, TiedWith(value)) as real - 1.0) / 2.0 + 1.0
  }

  function PercentileRank(history: seq<real>, value: real): Option<real> {
    if history == [] then None else Some(Over(Rank(history, value), |history| as real) * 100.0)
  }

  /** No history point is near value without being equal to it. */
  ghost predicate Separated(history: seq<real>, value: real) {
    forall v | v in history :: v == value || !Near(v, value)
  }

  function EqualTo(value: real): real -> bool {
    (v: real) => v == value
  }

  function AtMost(value: real): real -> bool {
    (v: real) => v <= value
  }

  /** Twice the rank is the number below plus the number at most, plus one. */
  lemma RankCounts(history: seq<real>, value: real)
    requires Separated(history, value)
    ensures 2.0 * Rank(history, value)
            == (Count(history, Below(value)) + Count(history, AtMost(value))) as real + 1.0
    ensures Count(history, Below(value)) <= Count(history, AtMost(value))
  {
    forall v | v in history
      ensures TiedWith(value)(v) == EqualTo(value)(v)
    {
      assert Abs(v - value) == 0.0 <==> v == value;
    }
    CountAgree(history, TiedWith(value), EqualTo(value));
    CountDisjoint(history, Below(value), EqualTo(value), AtMost(value));
  }

  lemma PercentOrder(a: real, b: real, n: real)
    requires n > 0.0
    ensures a / n * 100.0 <= b / n * 100.0 <==> a <= b
  {
    QuotientOrder(a, b, n);
  }

  /** Dividing by n and scaling keeps order, with 0 and n at the ends. */
  lemma PercentEnds(a: real, n: real)
    requires n > 0.0
    ensures a / n * 100.0 > 0.0 <==> a > 0.0
    ensures a / n * 100.0 <= 100.0 <==> a <= n
    ensures a == n + 0.5 ==> a / n * 100.0 == 100.0 * (1.0 + 1.0 / (2.0 * n))
  {
    PercentOrder(a, n, n);
    PercentOrder(a, 0.0, n);
    assert n / n == 1.0 && 0.0 / n == 0.0;
    if a == n + 0.5 {
      HalfMore(n);
    }
  }

  lemma HalfMore(n: real)
    requires n > 0.0
    ensures (n + 0.5) / n == 1.0 + 1.0 / (2.0 * n)
  {
    var q := 1.0 / (2.0 * n);
    assert q * (2.0 * n) == 1.0;
    assert (1.0 + q) * n == n + 0.5;
  }

  /** The percentile is positive and stays at most 100 unless the value exceeds
      all of history, where it is exactly 100·(1 + 1/(2n)). */
  lemma PercentileRange(history: seq<real>, value: real)
    requires history != [] && Separated(history, value)
    ensures var p := PercentileRank(history, value).value;
            && p > 0.0
            && (p > 100.0 <==> forall v | v in history :: v < value)
            && (p > 100.0 ==> p == 100.0 * (1.0 + 1.0 / (2.0 * (|history| as real))))
  {
    hide Rank;
    RankCounts(history, value);
    PercentEnds(Rank(history, value), |history| as real);
    if forall v | v in history :: v < value {
      CountAll(history, Below(value));
      CountAll(history, AtMost(value));
    } else {
      var v :| v in history && v >= value;
      NotAllBelow(history, value, v);
    }
  }

  lemma {:induction false} NotAllBelow(history: seq<real>, value: real, v: real)
    requires v in history && v >= value
    ensures Count(history, Below(value)) < |history|
  {
    if history[0] != v {
      NotAllBelow(history[1..], value, v);
    }
  }

  /** A larger value never ranks lower, and ranks strictly higher exactly when
      some history point lies between the two, ends included. */
  lemma PercentileMonotone(history: seq<real>, v: real, w: real)
    requires history != [] && Separated(history, v) && Separated(history, w) && v < w
    ensures PercentileRank(history, v).value <= PercentileRank(history, w).value
    ensures PercentileRank(history, v).value < PercentileRank(history, w).value
            <==> exists x :: x in history && v <= x <= w
  {
    hide Rank;
    RankCounts(history, v);
    RankCounts(history, w);
    PercentOrder(Rank(history, v), Rank(history, w), |history| as real);
    PercentOrder(Rank(history, w), Rank(history, v), |history| as real);
    Between(history, v, w);
  }

  function From(v: real, w: real): real -> bool {
    (x: real) => v <= x < w
  }

  function UpTo(v: real, w: real): real -> bool {
    (x: real) => v < x <= w
  }

  lemma Between(history: seq<real>, v: real, w: real)
    requires v < w
    ensures Count(history, Below(v)) <= Count(history, Below(w))
    ensures Count(history, AtMost(v)) <= Count(history, AtMost(w))
    ensures Count(history, Below(v)) < Count(history, Below(w)) || Count(history, AtMost(v)) < Count(history, AtMost(w))
            <==> exists x :: x in history && v <= x <= w
  {
    CountDisjoint(history, Below(v), From(v, w), Below(w));
    CountDisjoint(history, AtMost(v), UpTo(v, w), AtMost(w));
    if x :| x in history && v <= x <= w {
      if x < w {
        CountSome(history, From(v, w), x);
      } else {
        CountSome(history, UpTo(v, w), x);
      }
    } else {
      CountNone(history, From(v, w));
      CountNone(history, UpTo(v, w));
    }
  }

  /** a is p percent of n. */
  predicate HundredTimes(p: real, n: real, a: real) {
    p * n == 100.0 * a
  }

  lemma PercentTimes(a: real, n: real)
    requires n > 0.0
    ensures HundredTimes(Over(a, n) * 100.0, n, a)
  {
    var q := a / n;
    assert q * n == a;
    assert q * 100.0 * n == 100.0 * (q * n);
  }

  lemma RankTimes(history: seq<real>, value: real)
    requires history != []
    ensures HundredTimes(PercentileRank(history, value).value, |history| as real, Rank(history, value))
  {
    hide Rank, HundredTimes, Over;
    PercentTimes(Rank(history, value), |history| as real);
  }

  /** The percentile is that of the mid-rank r in n: the points below, and half of one
      more than the points within 2 to the power -52. */
  lemma PercentileInFull(history: seq<real>, value: real, below: real -> bool, tied: real -> bool, r: real)
    requires history != []
    requires forall v :: below(v) <==> v < value
    requires forall v :: tied(v) <==> -1.0 / 4503599627370496.0 < v - value < 1.0 / 4503599627370496.0
    requires 2.0 * r == (2 * Count(history, below) + Count(history, tied) + 1) as real
    ensures PercentileRank(history, value).Some?
    ensures HundredTimes(PercentileRank(history, value).value, |history| as real, r)
  {
    hide Rank, HundredTimes, Over;
    CountAgree(history, Below(value), below);
    CountAgree(history, TiedWith(value), tied);
    RankOfSum(history, value);
    RankTimes(history, value);
    hide PercentileRank;
    assert r == Rank(history, value);
  }

  // ---- what the tie tolerance does when points are closer than it ----

  function NearBelow(value: real): real -> bool {
    (v: real) => v < value && Near(v, value)
  }

  function TiedAtLeast(value: real): real -> bool {
    (v: real) => v >= value && Near(v, value)
  }

  function ClearlyAbove(value: real): real -> bool {
    (v: real) => v >= value && !Near(v, value)
  }

  function AtLeast(value: real): real -> bool {
    (v: real) => v >= value
  }

  function Anything(): real -> bool {
    (v: real) => true
  }

  /** Over every history, the percentile is positive, and it passes 100 exactly
      when the ties strictly below the value are at least as many as the ties not
      below it plus twice the points clearly above it. */
  lemma HundredPassedExactly(history: seq<real>, value: real)
    requires history != []
    ensures var p := PercentileRank(history, value).value;
            && p > 0.0
            && (p > 100.0 <==> Count(history, NearBelow(value))
                               >= Count(history, TiedAtLeast(value)) + 2 * Count(history, ClearlyAbove(value)))
  {
    CountDisjoint(history, NearBelow(value), TiedAtLeast(value), TiedWith(value));
    CountDisjoint(history, TiedAtLeast(value), ClearlyAbove(value), AtLeast(value));
    CountDisjoint(history, Below(value), AtLeast(value), Anything());
    CountAll(history, Anything());
    PercentEnds(Rank(history, value), |history| as real);
  }

  /** History points by what moving the value from v up to w does to twice its
      rank: one less for a tie below that is lost, one more for a tie that becomes
      a point below or a point that becomes a tie, two for a plain point passed,
      three for a point passed that becomes a tie as well. */
  function Lost(v: real, w: real): real -> bool {
    (x: real) => x < v && Near(x, v) && !Near(x, w)
  }

  function Once(v: real, w: real): real -> bool {
    (x: real) => if x < w then v <= x && Near(x, v) && !Near(x, w) else Near(x, w) && !Near(x, v)
  }

  function Twice(v: real, w: real): real -> bool {
    (x: real) => v <= x < w && Near(x, v) == Near(x, w)
  }

  function Thrice(v: real, w: real): real -> bool {
    (x: real) => v <= x < w && !Near(x, v) && Near(x, w)
  }

  /** Twice the rank, less one. */
  function RankSum(history: seq<real>, value: real): int {
    2 * Count(history, Below(value)) + Count(history, TiedWith(value))
  }

  /** The effect of one point. */
  lemma PointMoves(x: real, v: real, w: real)
    requires v < w
    ensures 2 * One(Below(w)(x)) + One(TiedWith(w)(x)) - 2 * One(Below(v)(x)) - One(TiedWith(v)(x))
            == One(Once(v, w)(x)) + 2 * One(Twice(v, w)(x)) + 3 * One(Thrice(v, w)(x)) - One(Lost(v, w)(x))
  {
    assert TiedWith(v)(x) == Near(x, v) && TiedWith(w)(x) == Near(x, w);
    if x < v {
      assert Near(x, w) ==> Near(x, v);
    } else if x >= w {
      assert Near(x, v) ==> Near(x, w);
    }
  }

  lemma {:induction false} RankSumMoves(history: seq<real>, v: real, w: real)
    requires v < w
    ensures RankSum(history, w) - RankSum(history, v)
            == Count(history, Once(v, w)) + 2 * Count(history, Twice(v, w)) + 3 * Count(history, Thrice(v, w))
               - Count(history, Lost(v, w))
  {
    if history != [] {
      PointMoves(history[0], v, w);
      RankSumMoves(history[1..], v, w);
      hide Below, TiedWith, Once, Twice, Thrice, Lost;
    }
  }

  /** Over every history: moving the value up never lowers its percentile exactly
      when the ties below that are lost are no more than what the other points
      gain, and raises it exactly when they are fewer. */
  lemma PercentileOrderExactly(history: seq<real>, v: real, w: real)
    requires history != [] && v < w
    ensures var lost := Count(history, Lost(v, w));
            var gained := Count(history, Once(v, w)) + 2 * Count(history, Twice(v, w))
                          + 3 * Count(history, Thrice(v, w));
            var p, q := PercentileRank(history, v).value, PercentileRank(history, w).value;
            (p <= q <==> lost <= gained) && (p < q <==> lost < gained)
  {
    RankSumMoves(history, v, w);
    RankOfSum(history, v);
    RankOfSum(history, w);
    hide Rank;
    PercentOrder(Rank(history, v), Rank(history, w), |history| as real);
    PercentOrder(Rank(history, w), Rank(history, v), |history| as real);
  }

  lemma RankOfSum(history: seq<real>, value: real)
    ensures 2.0 * Rank(history, value) == RankSum(history, value) as real + 1.0
  {
  }

  /** So points closer than the tolerance break both the bound and the order: with
      0 as the only history point half a tolerance below a value, that value gets
      200 and the much larger 1 gets 150; and a value that does not exceed its
      history can still get 125. */
  lemma NearTiesBreakBoundAndOrder()
    ensures PercentileRank([0.0, EPSILON / 2.0], EPSILON / 2.0) == Some(125.0)
    ensures PercentileRank([0.0], EPSILON / 2.0) == Some(200.0)
    ensures PercentileRank([0.0], 1.0) == Some(150.0)
  {
    var history, v := [0.0, EPSILON / 2.0], EPSILON / 2.0;
    assert Abs(0.0 - v) < EPSILON && Abs(v - v) < EPSILON;
    assert history[1..] == [v] && history[1..][1..] == [] && [0.0][1..] == [];
    assert Count(history, Below(v)) == 1;
    assert Count(history, TiedWith(v)) == 2;
    assert Count([0.0], Below(v)) == Count([0.0], TiedWith(v)) == 1;
    assert Count([0.0], Below(1.0)) == 1 && Count([0.0], TiedWith(1.0)) == 0;
  }

  // ---- the normal band against the outlier test ----

  datatype NormalRange = NormalRange(low: real, median: real, high: real)

  function Band(history: seq<real>, k: real): Option<NormalRange> {
    if history == [] then None
    else
      var med, mad := Median(history), Mad(history);
      if mad < EPSILON then None else Some(NormalRange(med - k * mad, med, med + k * mad))
  }

  predicate Outside(b: NormalRange, v: real) {
    v < b.low || v > b.high
  }

  /** With the band multiplier equal to the outlier threshold, a value is outside
      the band when its distance exceeds k MADs, and an outlier already from
      0.6745·k MADs on: outside implies outlier, and the shell between the two
      is flagged yet inside. */
  lemma BandAndOutliers(history: seq<real>, v: real, k: real)
    requires k > 0.0 && history != [] && MAD_TO_SIGMA * Mad(history) >= EPSILON
    ensures var b := Band(history, k);
            var d, mad := Abs(v - Median(history)), Mad(history);
            var flagged := IsOutlier(v, Median(history), MAD_TO_SIGMA * mad, k);
            && b.Some?
            && (Outside(b.value, v) <==> d > k * mad)
            && (flagged <==> d >= MAD_TO_SIGMA * (k * mad))
            && (Outside(b.value, v) ==> flagged)
            && (flagged && !Outside(b.value, v) <==> MAD_TO_SIGMA * (k * mad) <= d <= k * mad)
  {
    hide Median, Mad;
    var mad := Mad(history);
    OutlierDistance(v, Median(history), MAD_TO_SIGMA * mad, k);
    assert k * (MAD_TO_SIGMA * mad) == MAD_TO_SIGMA * (k * mad);
    ProductPositive(k, mad);
  }

  /** The upper edge of the band is flagged and inside. */
  lemma EdgeIsFlaggedInside(history: seq<real>, k: real)
    requires k > 0.0 && history != [] && MAD_TO_SIGMA * Mad(history) >= EPSILON
    ensures var v := Median(history) + k * Mad(history);
            && IsOutlier(v, Median(history), MAD_TO_SIGMA * Mad(history), k)
            && !Outside(Band(history, k).value, v)
  {
    hide Median, Mad;
    ProductPositive(k, Mad(history));
    BandAndOutliers(history, Median(history) + k * Mad(history), k);
  }

  /** The detector run on a series against the band of its values, at the same
      multiplier. A value outside the band is flagged exactly when the detector
      opines at all (it also needs four points and 0.6745 MADs above the cut-off),
      and what is flagged inside the band is exactly the shell. */
  lemma BandAndDetector(series: Series, v: real, k: real)
    requires k > 0.0 && Band(Values(series), k).Some?
    ensures var b := Band(Values(series), k).value;
            var d, mad := Abs(v - Median(Values(series))), Mad(Values(series));
            && (Outside(b, v) <==> d > k * mad)
            && (Outside(b, v) ==> (Flags(series, k, v) <==> Scale(series).Some?))
            && (Flags(series, k, v) && !Outside(b, v)
                <==> Scale(series).Some? && MAD_TO_SIGMA * (k * mad) <= d <= k * mad)
  {
    hide Median, Mad, Values;
    if Scale(series).Some? {
      BandAndOutliers(Values(series), v, k);
    }
  }

  /** A band is there exactly when the MAD is at least 2 to the power -52; it lies
      around the median and reaches k MADs to either side. */
  lemma BandInFull(history: seq<real>, k: real)
    ensures Band(history, k).Some? <==> history != [] && Mad(history) >= 1.0 / 4503599627370496.0
    ensures Band(history, k).Some? ==>
              var b := Band(history, k).value;
              b.median == Median(history) && b.high - b.median == b.median - b.low == k * Mad(history)
  {
    hide Median, Mad;
  }

  /** The two views are meant to agree by construction. They never do: for every
      series whose values have a band, either the detector is silent and values
      outside the band go unflagged, or the band's own edge is flagged. */
  lemma ViewsNeverAgree(series: Series, k: real) returns (v: real)
    requires k > 0.0 && Band(Values(series), k).Some?
    ensures var b := Band(Values(series), k).value;
            && (Flags(series, k, v) <==> !Outside(b, v))
            && (Flags(series, k, v) <==> Scale(series).Some?)
  {
    hide Median, Mad, Values;
    var h := Values(series);
    var edge := Median(h) + k * Mad(h);
    ProductPositive(k, Mad(h));
    if Scale(series).Some? {
      v := edge;
      EdgeIsFlaggedInside(h, k);
    } else {
      v := edge + 1.0;
    }
  }

  // ---- return period ----

  function AtLeastAsFar(m: real, d: real): real -> bool {
    (v: real) => Abs(v - m) >= d
  }

  /** Rounding half away from zero, for nonnegative numbers. */
  function Round(x: real): int {
    (x + 0.5).Floor
  }

  function OneInN(history: seq<real>, value: real): Option<int> {
    if history == [] then None
    else
      var med := Median(history);
      var c := Count(history, AtLeastAsFar(med, Abs(value - med)));
      if c == 0 then Some(|history| + 1)
      else
        var rate := Over(c as real, |history| as real);
        var n := if rate == 0.0 then 0 else Round(Over(1.0, rate));
        Some(if n == 0 then 1 else n)
  }

  lemma ReciprocalRate(c: real, n: real)
    requires 1.0 <= c <= n
    ensures c / n > 0.0
    ensures 1.0 <= 1.0 / (c / n) <= n
  {
    var rate := c / n;
    assert rate * n == c;
    QuotientOrder(c, n, n);
    QuotientOrder(0.0, c, n);
    assert n / n == 1.0;
    if rate <= 0.0 {
      ProductNonneg(-rate, n);
    }
    var inv := 1.0 / rate;
    assert inv * rate == 1.0;
    assert inv * c == n by {
      assert inv * (rate * n) == (inv * rate) * n;
    }
    if inv < 1.0 {
      ProductPositive(1.0 - inv, c);
    }
    if inv > n {
      ProductPositive(inv - n, c);
      ProductNonneg(n, c - 1.0);
    }
  }

  lemma ReciprocalOrder(c: real, d: real, n: real)
    requires 1.0 <= c <= d <= n
    ensures c / n > 0.0 && d / n > 0.0
    ensures 1.0 / (d / n) <= 1.0 / (c / n)
  {
    ReciprocalRate(c, n);
    ReciprocalRate(d, n);
    var p, q := 1.0 / (c / n), 1.0 / (d / n);
    assert (c / n) * n == c && (d / n) * n == d;
    assert p * (c / n) == 1.0 && q * (d / n) == 1.0;
    QuotientOrder(c, d, n);
    if q > p {
      ProductPositive(q - p, d / n);
      ScaleMonotone(c / n, d / n, p);
    }
  }

  /** r is n over c rounded to the nearest whole number, up from halves. */
  predicate Nearest(r: real, n: real, c: real) {
    r * c <= n + c / 2.0 < r * c + c
  }

  lemma RoundingBounds(inv: real, c: real, n: real, x: real)
    requires c > 0.0 && inv * c == n && x <= inv + 0.5 < x + 1.0
    ensures Nearest(x, n, c)
  {
    var y := inv + 0.5;
    var d := x + 1.0 - y;
    ScaleMonotone(x, y, c);
    ProductPositive(d, c);
    assert y * c == n + c / 2.0;
    assert d * c == x * c + c - y * c;
  }

  lemma InverseTimes(n: real, c: real)
    requires 1.0 <= c <= n
    ensures Over(c, n) > 0.0 && Over(1.0, Over(c, n)) * c == n && Over(1.0, Over(c, n)) >= 1.0
  {
    ReciprocalRate(c, n);
    var rate := c / n;
    var inv := 1.0 / rate;
    assert rate * n == c && inv * rate == 1.0;
    assert inv * (rate * n) == (inv * rate) * n;
  }

  lemma RoundedInverse(n: real, c: real)
    requires 1.0 <= c <= n
    ensures Over(c, n) > 0.0
    ensures Nearest(Round(Over(1.0, Over(c, n))) as real, n, c) && Round(Over(1.0, Over(c, n))) >= 1
  {
    InverseTimes(n, c);
    hide Over;
    var inv := Over(1.0, Over(c, n));
    RoundingBounds(inv, c, n, Round(inv) as real);
  }

  /** The return period is n over the number of points at least as far from the median
      as the value, rounded to the nearest whole number and up from halves; it is n + 1
      when there is no such point. */
  lemma OneInNInFull(history: seq<real>, value: real, far: real -> bool)
    requires forall v :: far(v) <==> Abs(v - Median(history)) >= Abs(value - Median(history))
    ensures OneInN(history, value).Some? <==> history != []
    ensures history != [] ==>
              var n, c, r := |history|, Count(history, far), OneInN(history, value).value;
              if c == 0 then r == n + 1
              else Nearest(r as real, n as real, c as real)
  {
    hide Median;
    OneInNTimes(history, value);
    hide OneInN, Nearest;
    CountAgree(history, AtLeastAsFar(Median(history), Abs(value - Median(history))), far);
  }

  lemma OneInNTimes(history: seq<real>, value: real)
    ensures OneInN(history, value).Some? <==> history != []
    ensures history != [] ==>
              var n, r := |history|, OneInN(history, value).value;
              var c := Count(history, AtLeastAsFar(Median(history), Abs(value - Median(history))));
              if c == 0 then r == n + 1
              else Nearest(r as real, n as real, c as real)
  {
    hide Median, AtLeastAsFar, Nearest, Over, Round;
    var c := Count(history, AtLeastAsFar(Median(history), Abs(value - Median(history))));
    if history != [] && c > 0 {
      var n, d := |history| as real, c as real;
      RoundedInverse(n, d);
    }
  }

  /** The return period lies between 1 and n + 1. */
  lemma OneInNRange(history: seq<real>, value: real)
    requires history != []
    ensures 1 <= OneInN(history, value).value <= |history| + 1
  {
    var med := Median(history);
    var c := Count(history, AtLeastAsFar(med, Abs(value - med)));
    if c > 0 {
      ReciprocalRate(c as real, |history| as real);
    }
  }

  /** Moving farther from the median, on either side, never shortens the return
      period. */
  lemma OneInNMonotone(history: seq<real>, v: real, w: real)
    requires history != []
    requires Abs(v - Median(history)) <= Abs(w - Median(history))
    ensures OneInN(history, v).value <= OneInN(history, w).value
  {
    var med := Median(history);
    var near, far := AtLeastAsFar(med, Abs(v - med)), AtLeastAsFar(med, Abs(w - med));
    CountMonotone(history, far, near);
    OneInNRange(history, v);
    if Count(history, far) > 0 {
      ReciprocalOrder(Count(history, far) as real, Count(history, near) as real, |history| as real);
    }
  }

  // ---- the full read ----

  datatype Unprecedentedness = Unprecedentedness(
    value: real, percentile: Option<real>, band: Option<NormalRange>, oneInN: Option<int>, n: nat)

  function Score(value: real, history: seq<real>, k: real): Unprecedentedness {
    if |history| >= MIN_HISTORY_POINTS then
      Unprecedentedness(value, PercentileRank(history, value), Band(history, if k > 0.0 then k else DEFAULT_BAND_K),
                        OneInN(history, value), |history|)
    else
      Unprecedentedness(value, None, None, None, |history|)
  }

  predicate IsUnprecedented(u: Unprecedentedness) {
    u.band.Some? && Outside(u.band.value, u.value)
  }

  /** From twelve points on the score gives all three readings, the band only of a series
      whose MAD clears the cut-off, at 3.5 MADs unless told otherwise; and it calls a
      value unprecedented exactly when it lies farther out than that. */
  lemma UnprecedentedExactly(value: real, history: seq<real>, k: real)
    ensures var u, reach := Score(value, history, k), (if k > 0.0 then k else 3.5) * Mad(history);
            && u.value == value && u.n == |history|
            && (u.percentile.Some? <==> |history| >= 12) && (u.oneInN.Some? <==> |history| >= 12)
            && (|history| >= 12 ==>
                  u.percentile == PercentileRank(history, value) && u.oneInN == OneInN(history, value))
            && (u.band.Some? <==> |history| >= 12 && Mad(history) >= 1.0 / 4503599627370496.0)
            && (u.band.Some? ==>
                  u.band.value == NormalRange(Median(history) - reach, Median(history), Median(history) + reach))
            && (IsUnprecedented(u) <==> u.band.Some? && Abs(value - Median(history)) > reach)
  {
    hide Median, Mad, Rank, OneInN;
    if |history| >= 12 {
      BandInFull(history, if k > 0.0 then k else 3.5);
      if Mad(history) >= EPSILON {
        ProductPositive(if k > 0.0 then k else 3.5, Mad(history));
      }
      OneInNSome(history, value);
    }
  }

  lemma OneInNSome(history: seq<real>, value: real)
    requires history != []
    ensures OneInN(history, value).Some?
  {
  }

  /** Whatever the score of a value against a series calls unprecedented is flagged
      by the outlier detector on that series at the same multiplier, exactly unless
      0.6745 MADs fall below the cut-off. */
  lemma UnprecedentedIsOutlier(value: real, series: Series, k: real)
    ensures IsUnprecedented(Score(value, Values(series), k)) ==>
              && |series| >= MIN_HISTORY_POINTS
              && (Flags(series, k, value) <==> MAD_TO_SIGMA * Mad(Values(series)) >= EPSILON)
  {
    ValuesAt(series);
    hide Median, Mad, Values;
    if IsUnprecedented(Score(value, Values(series), k)) {
      BandAndDetector(series, value, EffectiveZ(k));
    }
  }
}
