/** Medians, the median absolute deviation, and the outlier detector built on
    them. */
module Robust {
  import opened Arithmetic
  import opened Collections
  import opened Pearson
  import opened Sorting

  predicate Le(a: real, b: real) {
    a <= b
  }

  lemma LeIsTotal()
    ensures TotalOrder(Le)
  {
  }

  // ---- the median splits a series in half ----

  /** The middle element, or the mean of the two in the middle. */
  function Middle(t: seq<real>): real
    requires t != []
  {
    var mid := |t| / 2;
    if |t| % 2 == 0 then (t[mid - 1] + t[mid]) / 2.0 else t[mid]
  }

  /** The middle of the sorted series; 0 for an empty one. */
  function Median(s: seq<real>): real {
    if s == [] then 0.0 else Middle(Sort(s, Le))
  }

  function Below(m: real): real -> bool {
    (v: real) => v < m
  }

  function Above(m: real): real -> bool {
    (v: real) => v > m
  }

  /** If p fails from position k on, at most k elements satisfy it; if it fails
      before k, at most the others do. */
  lemma CountBounded<T>(s: seq<T>, p: T -> bool, k: nat)
    requires k <= |s|
    ensures (forall i | k <= i < |s| :: !p(s[i])) ==> Count(s, p) <= k
    ensures (forall i | 0 <= i < k :: !p(s[i])) ==> Count(s, p) <= |s| - k
  {
    assert s == s[..k] + s[k..];
    CountConcat(s[..k], s[k..], p);
    if forall i | k <= i < |s| :: !p(s[i]) {
      CountNone(s[k..], p);
    }
    if forall i | 0 <= i < k :: !p(s[i]) {
      CountNone(s[..k], p);
    }
  }

  /** At most half of a series lies strictly below its median, and at most half
      strictly above. */
  lemma MedianHalves(s: seq<real>)
    requires s != []
    ensures 2 * Count(s, Below(Median(s))) <= |s|
    ensures 2 * Count(s, Above(Median(s))) <= |s|
  {
    var t, m := Sort(s, Le), Median(s);
    LeIsTotal();
    SortCorrect(s, Le);
    hide Median, Sort, Count, Middle;
    CountPermutation(s, t, Below(m));
    CountPermutation(s, t, Above(m));
    SortedHalves(t, m);
  }

  lemma SortedHalves(t: seq<real>, m: real)
    requires t != [] && Sorted(t, Le) && m == Middle(t)
    ensures 2 * Count(t, Below(m)) <= |t| && 2 * Count(t, Above(m)) <= |t|
  {
    hide Count;
    MiddlePosition(t, m);
    CountBounded(t, Below(m), |t| / 2);
    CountBounded(t, Above(m), |t| - |t| / 2);
  }

  lemma MiddlePosition(t: seq<real>, m: real)
    requires t != [] && Sorted(t, Le) && m == Middle(t)
    ensures forall i | |t| / 2 <= i < |t| :: t[i] >= m
    ensures forall i | 0 <= i < |t| - |t| / 2 :: t[i] <= m
  {
    var mid := |t| / 2;
    if |t| % 2 == 0 {
      assert Le(t[mid - 1], t[mid]);
    }
    forall i | mid <= i < |t|
      ensures t[i] >= t[mid]
    {
      assert i == mid || Le(t[mid], t[i]);
    }
    var low := |t| - mid - 1;
    forall i | 0 <= i <= low
      ensures t[i] <= t[low]
    {
      assert i == low || Le(t[i], t[low]);
    }
  }

  lemma SortedMedian(s: seq<real>)
    requires s != [] && Sorted(s, Le)
    ensures Median(s) == Middle(s)
  {
    LeIsTotal();
    SortCorrect(s, Le);
    SortedUnique(Sort(s, Le), s, Le);
  }

  /** Twice the median is the sum of the two elements in the middle of the series in
      ascending order, which are one when their number is odd. */
  lemma MedianIsMiddle(s: seq<real>, t: seq<real>)
    requires s != [] && multiset(t) == multiset(s)
    requires forall i, j | 0 <= i < j < |t| :: t[i] <= t[j]
    ensures |t| == |s| && 2.0 * Median(s) == t[(|t| - 1) / 2] + t[|t| / 2]
  {
    LeIsTotal();
    SortPermutation(s, t, Le);
    SameLength(s, t);
    SortedMedian(t);
    assert Median(s) == Median(t);
  }

  // ---- deviations ----

  function Deviations(s: seq<real>, m: real): seq<real> {
    if s == [] then [] else [Abs(s[0] - m)] + Deviations(s[1..], m)
  }

  function Mad(s: seq<real>): real {
    Median(Deviations(s, Median(s)))
  }

  function FartherThan(m: real, d: real): real -> bool {
    (v: real) => Abs(v - m) > d
  }

  lemma {:induction false} DeviationsCount(s: seq<real>, m: real, d: real)
    ensures |Deviations(s, m)| == |s|
    ensures Count(Deviations(s, m), Above(d)) == Count(s, FartherThan(m, d))
  {
    if s != [] {
      DeviationsCount(s[1..], m, d);
      assert Deviations(s, m)[1..] == Deviations(s[1..], m);
    }
  }

  lemma {:induction false} DeviationsAt(s: seq<real>, m: real)
    ensures |Deviations(s, m)| == |s|
    ensures forall i | 0 <= i < |s| :: Deviations(s, m)[i] == Abs(s[i] - m)
  {
    if s != [] {
      DeviationsAt(s[1..], m);
    }
  }

  /** The MAD is the median of the distances from the median. */
  lemma MadIsMedian(s: seq<real>, d: seq<real>)
    requires |d| == |s| && forall i | 0 <= i < |s| :: d[i] == Abs(s[i] - Median(s))
    ensures Mad(s) == Median(d)
  {
    DeviationsAt(s, Median(s));
    assert d == Deviations(s, Median(s));
  }

  /** At most half of a series is farther from the median than the MAD. */
  lemma MadHalves(s: seq<real>)
    requires s != []
    ensures 2 * Count(s, FartherThan(Median(s), Mad(s))) <= |s|
  {
    var d := Deviations(s, Median(s));
    DeviationsCount(s, Median(s), Mad(s));
    MedianHalves(d);
  }

  // ---- the detector ----

  const DEFAULT_OUTLIER_Z: real := 3.5
  const MAD_TO_SIGMA: real := 0.6745

  /** Ratio over cap, kept within [0.5, 1]. */
  function SafeConfidence(ratio: real, cap: real): real {
    if cap <= 0.0 then 0.5
    else
      var x := (if ratio < cap then ratio else cap) / cap;
      if x < 0.5 then 0.5 else if x > 1.0 then 1.0 else x
  }

  datatype Finding = Finding(id: string, value: real, z: real, critical: bool, confidence: real)

  function EffectiveZ(z: real): real {
    if z > 0.0 then z else DEFAULT_OUTLIER_Z
  }

  /** The test applied to each point: robust z at least the threshold. */
  predicate IsOutlier(v: real, med: real, scale: real, z: real)
    requires scale > 0.0
  {
    Abs((v - med) / scale) >= z
  }

  function MakeFinding(id: string, v: real, med: real, scale: real, z: real): Finding
    requires scale > 0.0 && z > 0.0
  {
    var score := (v - med) / scale;
    Finding(id, v, score, Abs(score) >= z * 2.0, SafeConfidence(Abs(score) / z, 4.0))
  }

  type Series = seq<(string, real)>

  function Values(series: Series): seq<real> {
    if series == [] then [] else [series[0].1] + Values(series[1..])
  }

  lemma {:induction false} ValuesAt(series: Series)
    ensures |Values(series)| == |series|
    ensures forall i | 0 <= i < |series| :: Values(series)[i] == series[i].1
  {
    if series != [] {
      ValuesAt(series[1..]);
    }
  }

  function Report(series: Series, med: real, scale: real, z: real): seq<Finding>
    requires scale > 0.0 && z > 0.0
  {
    if series == [] then []
    else (if IsOutlier(series[0].1, med, scale, z) then [MakeFinding(series[0].0, series[0].1, med, scale, z)] else [])
         + Report(series[1..], med, scale, z)
  }

  /** The scale by which the detector measures, when it opines at all. */
  function Scale(series: Series): Option<real> {
    var scale := MAD_TO_SIGMA * Mad(Values(series));
    if |series| < MIN_SAMPLES || scale < EPSILON then None else Some(scale)
  }

  lemma ReportStep(series: Series, i: nat, med: real, scale: real, z: real)
    requires i < |series| && scale > 0.0 && z > 0.0
    ensures var rest := Report(series[i + 1..], med, scale, z);
            Report(series[i..], med, scale, z)
            == if IsOutlier(series[i].1, med, scale, z)
               then [MakeFinding(series[i].0, series[i].1, med, scale, z)] + rest else rest
  {
    assert series[i..][1..] == series[i + 1..];
  }

  lemma ReportDone(series: Series, med: real, scale: real, z: real)
    requires scale > 0.0 && z > 0.0
    ensures Report(series[|series|..], med, scale, z) == []
  {
  }

  function Detected(series: Series, zThreshold: real): seq<Finding> {
    if Scale(series).None? then []
    else Report(series, Median(Values(series)), Scale(series).value, EffectiveZ(zThreshold))
  }

  /** One finding per point that passes the test, in series order; none when
      there are too few points or the MAD vanishes. */
  method DetectOutliers(series: Series, zThreshold: real) returns (fs: seq<Finding>)
    ensures fs == Detected(series, zThreshold)
  {
    hide Median, Values, Deviations, IsOutlier, MakeFinding, Report;
    fs := [];
    if |series| < MIN_SAMPLES {
      return;
    }
    var z := if zThreshold > 0.0 then zThreshold else DEFAULT_OUTLIER_Z;
    var values := Values(series);
    var med := Median(values);
    var scale := MAD_TO_SIGMA * Median(Deviations(values, med));
    if scale < EPSILON {
      return;
    }
    ghost var whole := Report(series, med, scale, z);
    assert series[0..] == series;
    for i := 0 to |series|
      invariant fs + Report(series[i..], med, scale, z) == whole
    {
      ReportStep(series, i, med, scale, z);
      var (id, v) := series[i];
      if IsOutlier(v, med, scale, z) {
        Regroup(fs, [MakeFinding(id, v, med, scale, z)], Report(series[i + 1..], med, scale, z));
        fs := fs + [MakeFinding(id, v, med, scale, z)];
      }
    }
    ReportDone(series, med, scale, z);
  }

  function Outlying(med: real, scale: real, z: real): real -> bool
    requires scale > 0.0
  {
    (v: real) => IsOutlier(v, med, scale, z)
  }

  lemma {:induction false} ReportCounts(series: Series, med: real, scale: real, z: real)
    requires scale > 0.0 && z > 0.0
    ensures |Values(series)| == |series|
    ensures |Report(series, med, scale, z)| == Count(Values(series), Outlying(med, scale, z))
    ensures forall f | f in Report(series, med, scale, z) ::
              (f.id, f.value) in series && 0.5 <= f.confidence <= 1.0 && Abs(f.z) >= z
  {
    if series != [] {
      ReportCounts(series[1..], med, scale, z);
      assert Values(series)[1..] == Values(series[1..]);
    }
  }

  /** The detector opines on this series and a point at v would be reported. */
  predicate Flags(series: Series, zThreshold: real, v: real) {
    Scale(series).Some? && IsOutlier(v, Median(Values(series)), Scale(series).value, EffectiveZ(zThreshold))
  }

  lemma {:induction false} ReportMember(series: Series, med: real, scale: real, z: real, id: string, v: real)
    requires scale > 0.0 && z > 0.0
    ensures (exists f :: f in Report(series, med, scale, z) && f.id == id && f.value == v)
            <==> (id, v) in series && IsOutlier(v, med, scale, z)
  {
    if series != [] {
      var rest := Report(series[1..], med, scale, z);
      ReportMember(series[1..], med, scale, z, id, v);
      if series[0] == (id, v) && IsOutlier(v, med, scale, z) {
        assert Report(series, med, scale, z)[0] == MakeFinding(id, v, med, scale, z);
      }
      forall f | f in rest
        ensures f in Report(series, med, scale, z)
      {
      }
    }
  }

  /** Below four points, or when 0.6745 MADs fall short of 2 to the power -52, nothing
      is reported; otherwise exactly the points whose distance from the median is at
      least the threshold, 3.5 by default, times 0.6745 MADs, in series order. */
  lemma DetectedInFull(
    series: Series, zThreshold: real, z: real, distance: real, beyond: ((string, real)) -> bool)
    requires z == if zThreshold > 0.0 then zThreshold else 3.5
    requires distance == z * (0.6745 * Mad(Values(series)))
    requires forall p :: beyond(p) <==> Abs(p.1 - Median(Values(series))) >= distance
    ensures Points(Detected(series, zThreshold))
            == if |series| < 4 || 0.6745 * Mad(Values(series)) < 1.0 / 4503599627370496.0 then []
               else Filter(series, beyond)
  {
    hide Median, Mad, Values, Report, Points, Filter, Abs, Scale, Detected, EffectiveZ;
    ScaleInFull(series);
    DetectedIs(series, zThreshold, z);
    if Scale(series).Some? {
      ReportFilters(series, Median(Values(series)), Scale(series).value, z, distance, beyond);
    } else {
      NoPoints();
    }
  }

  lemma DetectedIs(series: Series, zThreshold: real, z: real)
    requires z == if zThreshold > 0.0 then zThreshold else 3.5
    ensures Scale(series).Some? ==> Scale(series).value > 0.0
    ensures Detected(series, zThreshold)
            == if Scale(series).None? then [] else Report(series, Median(Values(series)), Scale(series).value, z)
  {
    hide Median, Mad, Values, Report;
  }

  lemma ScaleInFull(series: Series)
    ensures Scale(series) == if |series| < 4 || 0.6745 * Mad(Values(series)) < 1.0 / 4503599627370496.0 then None
                             else Some(0.6745 * Mad(Values(series)))
    ensures Scale(series).Some? ==> Scale(series).value > 0.0
  {
    hide Median, Mad, Values;
  }

  function Points(fs: seq<Finding>): Series {
    if fs == [] then [] else [(fs[0].id, fs[0].value)] + Points(fs[1..])
  }

  lemma NoPoints()
    ensures Points([]) == []
  {
  }

  lemma {:induction false} ReportFilters(
    series: Series, med: real, scale: real, z: real, d: real, beyond: ((string, real)) -> bool)
    requires scale > 0.0 && z > 0.0 && d == z * scale
    requires forall p :: beyond(p) <==> Abs(p.1 - med) >= d
    ensures Points(Report(series, med, scale, z)) == Filter(series, beyond)
  {
    if series != [] {
      ReportFilters(series[1..], med, scale, z, d, beyond);
      OutlierDistance(series[0].1, med, scale, z);
      var f := MakeFinding(series[0].0, series[0].1, med, scale, z);
      MadeFor(series[0].0, series[0].1, med, scale, z);
      hide IsOutlier, MakeFinding, Points, Abs;
      var rest := Report(series[1..], med, scale, z);
      PointsCons(f, rest);
      assert series[0] == (f.id, f.value);
      if beyond(series[0]) {
        assert Report(series, med, scale, z) == [f] + rest;
      } else {
        assert Report(series, med, scale, z) == rest;
      }
    } else {
      NoPoints();
    }
  }

  lemma PointsCons(f: Finding, rest: seq<Finding>)
    ensures Points([f] + rest) == [(f.id, f.value)] + Points(rest)
  {
    assert ([f] + rest)[1..] == rest;
  }

  /** What a finding says: its signed score times 0.6745 MADs is the point's distance
      above the median, it is critical from twice the threshold on, and its confidence
      grows in proportion to the score between twice and four times the threshold. */
  lemma FindingSays(series: Series, zThreshold: real, f: Finding)
    requires f in Detected(series, zThreshold)
    ensures var z := if zThreshold > 0.0 then zThreshold else 3.5;
            && f.z * (0.6745 * Mad(Values(series))) == f.value - Median(Values(series))
            && (f.critical <==> Abs(f.z) >= 2.0 * z)
            && Proportional(f.confidence, Abs(f.z), z, 4.0)
  {
    hide Median, Mad, Values, Report, Scale, Detected, MakeFinding, SafeConfidence, Abs, Proportional;
    var z := if zThreshold > 0.0 then zThreshold else 3.5;
    DetectedIs(series, zThreshold, z);
    ScaleInFull(series);
    var med, scale := Median(Values(series)), Scale(series).value;
    ReportMade(series, med, scale, z, f);
    MadeFor(f.id, f.value, med, scale, z);
    QuotientOrder(f.value - med, f.value - med, scale);
    ConfidenceInFull(Abs(f.z), z, 4.0);
  }

  lemma {:induction false} ReportMade(series: Series, med: real, scale: real, z: real, f: Finding)
    requires scale > 0.0 && z > 0.0 && f in Report(series, med, scale, z)
    ensures f == MakeFinding(f.id, f.value, med, scale, z)
  {
    hide MakeFinding, IsOutlier;
    if f in Report(series[1..], med, scale, z) {
      ReportMade(series[1..], med, scale, z, f);
    } else {
      assert f == MakeFinding(series[0].0, series[0].1, med, scale, z);
      MadeFor(series[0].0, series[0].1, med, scale, z);
    }
  }

  lemma MadeFor(id: string, v: real, med: real, scale: real, z: real)
    requires scale > 0.0 && z > 0.0
    ensures var f := MakeFinding(id, v, med, scale, z);
            && f.id == id && f.value == v && f.z == (v - med) / scale
            && (f.critical <==> Abs(f.z) >= 2.0 * z) && f.confidence == SafeConfidence(Abs(f.z) / z, 4.0)
  {
    hide SafeConfidence;
  }

  /** c is a half while x is at most half of cap times z, then in proportion to x, and
      1 from there on. */
  predicate Proportional(c: real, x: real, z: real, cap: real) {
    && (2.0 * x <= cap * z ==> c == 0.5)
    && (cap * z <= 2.0 * x && x <= cap * z ==> c * (cap * z) == x)
    && (x >= cap * z ==> c == 1.0)
  }

  lemma ConfidenceInFull(x: real, z: real, cap: real)
    requires z > 0.0 && cap > 0.0
    ensures Proportional(SafeConfidence(x / z, cap), x, z, cap)
  {
    var q := x / z;
    QuotientOrder(x, cap * z, z);
    QuotientOrder(x, cap / 2.0 * z, z);
    QuotientOrder(cap / 2.0 * z, x, z);
    QuotientOrder(cap * z, x, z);
    ProductOrder(q, cap, z);
    ProductOrder(cap, q, z);
    ProductOrder(q, cap / 2.0, z);
    ProductOrder(cap / 2.0, q, z);
    CappedRatio(q, cap);
    if cap * z <= 2.0 * x && x <= cap * z {
      var c := SafeConfidence(q, cap);
      assert c * cap == q;
      assert c * (cap * z) == (c * cap) * z;
    }
  }

  lemma CappedRatio(q: real, cap: real)
    requires cap > 0.0
    ensures var c := SafeConfidence(q, cap);
            && (q <= cap / 2.0 ==> c == 0.5)
            && (cap / 2.0 <= q <= cap ==> c * cap == q)
            && (q >= cap ==> c == 1.0)
  {
    QuotientOrder(q, cap, cap);
    QuotientOrder(q, cap / 2.0, cap);
    QuotientOrder(cap / 2.0, q, cap);
    SelfQuotient(cap);
    assert (cap / 2.0) / cap == 0.5 by {
      assert 0.5 * cap == cap / 2.0;
    }
  }

  /** A point is reported exactly when it is in the series and flagged. */
  lemma ReportedIffFlagged(series: Series, zThreshold: real, id: string, v: real)
    ensures (exists f :: f in Detected(series, zThreshold) && f.id == id && f.value == v)
            <==> (id, v) in series && Flags(series, zThreshold, v)
  {
    hide Median, Mad, Values;
    if Scale(series).Some? {
      ReportMember(series, Median(Values(series)), Scale(series).value, EffectiveZ(zThreshold), id, v);
    }
  }

  /** The test compares the distance from the median with z scales. */
  lemma OutlierDistance(v: real, med: real, scale: real, z: real)
    requires scale > 0.0
    ensures IsOutlier(v, med, scale, z) <==> Abs(v - med) >= z * scale
  {
    var q := (v - med) / scale;
    assert q * scale == v - med;
    assert Abs(q) * scale == Abs(v - med) by {
      if q >= 0.0 {
        ProductNonneg(q, scale);
      } else {
        ProductPositive(-q, scale);
      }
    }
    if Abs(q) >= z {
      ScaleMonotone(z, Abs(q), scale);
    } else {
      ProductPositive(z - Abs(q), scale);
      assert (z - Abs(q)) * scale == z * scale - Abs(q) * scale;
    }
  }

  /** However wild the data, a threshold above 1/0.6745 flags at most half of
      the series. */
  lemma FlagsAtMostHalf(series: Series, z: real)
    requires z > 0.0 && z * MAD_TO_SIGMA > 1.0 && Scale(series).Some?
    ensures 2 * |Report(series, Median(Values(series)), Scale(series).value, z)| <= |series|
  {
    var s := Values(series);
    var med, mad, scale := Median(s), Mad(s), Scale(series).value;
    ReportCounts(series, med, scale, z);
    MadHalves(s);
    forall v | v in s
      ensures Outlying(med, scale, z)(v) ==> FartherThan(med, mad)(v)
    {
      OutlierDistance(v, med, scale, z);
      ThresholdBeyondMad(z, mad, scale);
    }
    CountMonotone(s, Outlying(med, scale, z), FartherThan(med, mad));
  }

  lemma ThresholdBeyondMad(z: real, mad: real, scale: real)
    requires z * MAD_TO_SIGMA > 1.0 && scale == MAD_TO_SIGMA * mad && scale > 0.0
    ensures z * scale > mad
  {
    ProductPositive(z * MAD_TO_SIGMA - 1.0, mad);
    assert (z * MAD_TO_SIGMA - 1.0) * mad == z * (MAD_TO_SIGMA * mad) - mad;
  }

  const TWO_CAMPS: Series := [("a", -1.0)] + ([("b", -1.0)] + ([("c", 1.0)] + ([("d", 1.0)] + [])))

  lemma ValuesCons(e: (string, real), rest: Series)
    ensures Values([e] + rest) == [e.1] + Values(rest)
  {
    assert ([e] + rest)[1..] == rest;
  }

  lemma DeviationsCons(v: real, rest: seq<real>, m: real)
    ensures Deviations([v] + rest, m) == [Abs(v - m)] + Deviations(rest, m)
  {
    assert ([v] + rest)[1..] == rest;
  }

  lemma TwoCampsBaseline()
    ensures Values(TWO_CAMPS) == [-1.0, -1.0, 1.0, 1.0]
    ensures Median(Values(TWO_CAMPS)) == 0.0 && Mad(Values(TWO_CAMPS)) == 1.0
  {
    ValuesCons(("d", 1.0), []);
    ValuesCons(("c", 1.0), [("d", 1.0)] + []);
    ValuesCons(("b", -1.0), [("c", 1.0)] + ([("d", 1.0)] + []));
    ValuesCons(("a", -1.0), [("b", -1.0)] + ([("c", 1.0)] + ([("d", 1.0)] + [])));
    var s := Values(TWO_CAMPS);
    assert s == [-1.0] + ([-1.0] + ([1.0] + ([1.0] + [])));
    SortedMedian(s);
    DeviationsCons(1.0, [], 0.0);
    DeviationsCons(1.0, [1.0] + [], 0.0);
    DeviationsCons(-1.0, [1.0] + ([1.0] + []), 0.0);
    DeviationsCons(-1.0, [-1.0] + ([1.0] + ([1.0] + [])), 0.0);
    assert Deviations(s, 0.0) == [1.0, 1.0, 1.0, 1.0];
    SortedMedian(Deviations(s, 0.0));
  }

  /** At or below 1/0.6745 the bound fails: two values, each taken by half of the
      points, are all flagged. */
  lemma LowThresholdFlagsAll(z: real)
    requires 0.0 < z && z * MAD_TO_SIGMA <= 1.0
    ensures |TWO_CAMPS| == 4 && Scale(TWO_CAMPS).Some?
    ensures |Report(TWO_CAMPS, Median(Values(TWO_CAMPS)), Scale(TWO_CAMPS).value, z)| == 4
  {
    hide Median, Deviations, Values;
    TwoCampsBaseline();
    var s, scale := Values(TWO_CAMPS), Scale(TWO_CAMPS).value;
    ReportCounts(TWO_CAMPS, 0.0, scale, z);
    OutlierDistance(1.0, 0.0, scale, z);
    OutlierDistance(-1.0, 0.0, scale, z);
    forall v | v in s
      ensures Outlying(0.0, scale, z)(v)
    {
      assert v == 1.0 || v == -1.0;
    }
    CountAll(s, Outlying(0.0, scale, z));
  }
}
