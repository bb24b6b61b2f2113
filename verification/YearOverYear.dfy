/** Year-over-year comparison by period key. Keys are ASCII strings. */
module YearOverYear {
  import opened Arithmetic
  import opened Collections
  import opened Numerals
  import opened Pearson
  import Robust

  const MIN_YOY_SAMPLES: nat := 4
  const DEFAULT_PCT_THRESHOLD: real := 15.0

  // ---- the key one calendar year earlier ----

  /** Everything before the first '|'. */
  function SplitPeriodSuffix(id: string): string {
    if id == [] || id[0] == '|' then [] else [id[0]] + SplitPeriodSuffix(id[1..])
  }

  /** The three accepted shapes are told apart by length only: a day key (10 or
      more), a month or quarter key (7), a year key (4). */
  function PriorYearPeriod(period: string): Option<string> {
    var p := SplitPeriodSuffix(period);
    var year := if |p| >= 4 then ParseUnsigned(p[..4]) else None;
    if year.None? || year.value == 0 then None
    else if |p| >= 10 || |p| == 7 then Some(Decimal(year.value - 1) + "-" + p[5..])
    else if |p| == 4 then Some(Decimal(year.value - 1))
    else None
  }

  /** One of the three shapes: a four-digit year, a dash where one is due, no
      dimension suffix. */
  predicate Shaped(p: string) {
    && (|p| == 4 || |p| == 7 || |p| >= 10)
    && AllDigits(p[..4])
    && (|p| > 4 ==> p[4] == '-')
    && '|' !in p
  }

  /** ... and a year whose predecessor still has four digits. */
  predicate WellFormed(p: string) {
    Shaped(p) && NumberOf(p[..4]) >= 1001
  }

  /** q is the key of the same period one calendar year before p. */
  predicate OneYearBefore(q: string, p: string) {
    && |q| == |p| && |p| >= 4
    && AllDigits(q[..4]) && AllDigits(p[..4])
    && NumberOf(q[..4]) + 1 == NumberOf(p[..4])
    && q[4..] == p[4..]
  }

  lemma {:induction false} NoSuffix(p: string)
    requires '|' !in p
    ensures SplitPeriodSuffix(p) == p
  {
    if p != [] {
      NoSuffix(p[1..]);
    }
  }

  /** The looked-up key of a shaped key is the decimal of the year before,
      followed by the rest of the key. */
  lemma PriorYearSplits(p: string)
    requires Shaped(p) && NumberOf(p[..4]) >= 1
    ensures PriorYearPeriod(p) == Some(Decimal(NumberOf(p[..4]) - 1) + p[4..])
  {
    NoSuffix(p);
    assert p[..4][0] != '+';
    if |p| > 4 {
      assert p[4..] == "-" + p[5..];
    }
    var prior := Decimal(NumberOf(p[..4]) - 1);
    assert |p| == 4 ==> prior + p[4..] == prior;
    assert |p| > 4 ==> prior + p[4..] == prior + "-" + p[5..];
  }

  /** For well-formed keys the looked-up key is exactly the one a calendar year
      earlier. */
  lemma PriorYearIsCalendar(p: string, q: string)
    requires WellFormed(p)
    ensures PriorYearPeriod(p).Some?
    ensures q == PriorYearPeriod(p).value <==> OneYearBefore(q, p)
  {
    hide Decimal, Pow10, PriorYearPeriod, NumberOf;
    var n := NumberOf(p[..4]) - 1;
    PriorYearSplits(p);
    PowersOfTen();
    NumberBounds(p[..4]);
    DecimalLength(n, 4);
    var r := PriorYearPeriod(p).value;
    assert r[..4] == Decimal(n) && r[4..] == p[4..];
    if OneYearBefore(q, p) {
      SameNumber(q[..4], Decimal(n));
      assert q == q[..4] + q[4..] && r == r[..4] + r[4..];
    }
  }

  /** The bound on the year is exact: up to year 1000 the looked-up key has lost
      a leading zero and is not the calendar key. */
  lemma EarlyYearsMiss(p: string)
    requires Shaped(p) && 1 <= NumberOf(p[..4]) <= 1000
    ensures PriorYearPeriod(p).Some? && |PriorYearPeriod(p).value| < |p|
    ensures !OneYearBefore(PriorYearPeriod(p).value, p)
  {
    PriorYearSplits(p);
    PowersOfTen();
    DecimalLength(NumberOf(p[..4]) - 1, 3);
  }

  lemma {:induction false} SuffixCut(a: string, rest: string)
    requires '|' !in a
    ensures SplitPeriodSuffix(a + "|" + rest) == a
  {
    if a == [] {
      assert (a + "|" + rest)[0] == '|';
    } else {
      SuffixCut(a[1..], rest);
      assert (a + "|" + rest)[1..] == a[1..] + "|" + rest;
    }
  }

  /** a is the id, or its part before the first '|'. */
  predicate BareKey(a: string, p: string) {
    '|' !in a && a <= p && (|p| == |a| || p[|a|] == '|')
  }

  lemma BareKeyIsSplit(a: string, p: string)
    requires BareKey(a, p)
    ensures SplitPeriodSuffix(p) == a
  {
    if |p| == |a| {
      NoSuffix(p);
    } else {
      SuffixCut(a, p[|a| + 1..]);
      assert p == a + "|" + p[|a| + 1..];
    }
  }

  /** For every id whose bare key begins with a numeral of y in four characters: the
      key one year earlier is y - 1 in decimal and whatever follows the fifth character,
      if y is positive and the key is as long as one of the shapes, and none otherwise. */
  lemma PriorYearExactly(p: string, a: string, y: nat)
    requires BareKey(a, p) && |a| >= 4 && Numeral(a[..4], y)
    ensures PriorYearPeriod(p)
            == if y == 0 || !(|a| == 4 || |a| == 7 || |a| >= 10) then None
               else Some(Decimal(y - 1) + if |a| == 4 then "" else "-" + a[5..])
  {
    BareKeyIsSplit(a, p);
    ParseUnsignedExactly(a[..4], y);
    hide SplitPeriodSuffix, ParseUnsigned, Numeral, Decimal;
    if y > 0 {
      var d := Decimal(y - 1);
      assert d + "" == d;
      if |a| > 4 {
        Regroup(d, "-", a[5..]);
      }
    }
  }

  /** For every other id there is none. */
  lemma NoPriorYear(p: string, a: string)
    requires BareKey(a, p) && (|a| < 4 || forall y: nat :: !Numeral(a[..4], y))
    ensures PriorYearPeriod(p) == None
  {
    BareKeyIsSplit(a, p);
    if |a| >= 4 {
      forall y: nat
        ensures ParseUnsigned(a[..4]) != Some(y)
      {
        ParseUnsignedExactly(a[..4], y);
      }
    }
    hide SplitPeriodSuffix, ParseUnsigned, Numeral, Decimal;
  }

  // ---- the detector ----

  type Series = seq<(string, real)>

  datatype Finding = Finding(prevKey: string, key: string, pct: real, critical: bool, confidence: real)

  /** Percent move from a nonzero baseline. */
  function Pct(prev: real, curr: real): real {
    if prev == 0.0 then 0.0 else ((curr - prev) / Abs(prev)) * 100.0
  }

  function EffectiveThreshold(pct: real): real {
    if pct > 0.0 then pct else DEFAULT_PCT_THRESHOLD
  }

  function MakeFinding(prev: (string, real), curr: (string, real), threshold: real): (f: Finding)
    requires threshold > 0.0
    ensures f.prevKey == prev.0 && f.key == curr.0 && f.pct == Pct(prev.1, curr.1)
  {
    var pct := Pct(prev.1, curr.1);
    Finding(prev.0, curr.0, pct, Abs(pct) >= threshold * 3.0, Robust.SafeConfidence(Abs(pct) / threshold, 5.0))
  }

  /** The baseline is usable and the move from it meets the threshold. */
  predicate Moves(prev: real, curr: real, threshold: real) {
    Abs(prev) >= EPSILON && Abs(Pct(prev, curr)) >= threshold
  }

  /** Percent times the magnitude of the baseline is a hundred times the move. */
  lemma PctInFull(prev: real, curr: real)
    requires prev != 0.0
    ensures Product(Pct(prev, curr), Abs(prev), 100.0 * (curr - prev))
  {
    var q := (curr - prev) / Abs(prev);
    assert q * Abs(prev) == curr - prev;
    assert Pct(prev, curr) * Abs(prev) == 100.0 * (q * Abs(prev));
  }

  /** The baseline is at least 2 to the power -52 and the move from it at least
      threshold percent of its magnitude. */
  predicate MovesBy(prev: real, curr: real, threshold: real) {
    Abs(prev) >= 1.0 / 4503599627370496.0 && 100.0 * Abs(curr - prev) >= threshold * Abs(prev)
  }

  lemma MovesInFull(prev: real, curr: real, threshold: real)
    ensures Moves(prev, curr, threshold) <==> MovesBy(prev, curr, threshold)
  {
    if Abs(prev) >= EPSILON {
      PctInFull(prev, curr);
      AbsOfProduct(Pct(prev, curr), Abs(prev));
      ProductOrder(threshold, Abs(Pct(prev, curr)), Abs(prev));
    }
  }

  lemma AbsOfProduct(x: real, y: real)
    requires y > 0.0
    ensures Abs(x * y) == Abs(x) * y
  {
    if x >= 0.0 {
      ProductNonneg(x, y);
    } else {
      ProductPositive(-x, y);
    }
  }

  function At(m: map<string, real>, curr: (string, real), threshold: real): Option<Finding>
    requires threshold > 0.0
  {
    var prior := PriorYearPeriod(curr.0);
    if prior.None? || prior.value !in m || !Moves(m[prior.value], curr.1, threshold) then None
    else Some(MakeFinding((prior.value, m[prior.value]), curr, threshold))
  }

  function Report(m: map<string, real>, series: Series, threshold: real): seq<Finding>
    requires threshold > 0.0
  {
    if series == [] then []
    else
      var f := At(m, series[0], threshold);
      (if f.Some? then [f.value] else []) + Report(m, series[1..], threshold)
  }

  function ByPeriod(series: Series): map<string, real> {
    InsertAll(map[], series)
  }

  lemma ReportStep(m: map<string, real>, series: Series, i: nat, threshold: real)
    requires i < |series| && threshold > 0.0
    ensures var f := At(m, series[i], threshold);
            Report(m, series[i..], threshold)
            == (if f.Some? then [f.value] else []) + Report(m, series[i + 1..], threshold)
  {
    assert series[i..][1..] == series[i + 1..];
  }

  predicate EnoughHistory(series: Series, periodsPerYear: nat) {
    |series| >= periodsPerYear + MIN_YOY_SAMPLES
  }

  /** Record j is the last one under its key. */
  ghost predicate LastOfKey(series: Series, j: nat) {
    j < |series| && forall k | j < k < |series| :: series[k].0 != series[j].0
  }

  /** The index holds the value of the last record under each key, and no other keys. */
  lemma {:induction false} IndexKeepsLast(series: Series, j: nat)
    requires LastOfKey(series, j)
    ensures series[j].0 in ByPeriod(series) && ByPeriod(series)[series[j].0] == series[j].1
    ensures forall k | k in ByPeriod(series) :: exists i :: 0 <= i < |series| && series[i].0 == k
    decreases |series|
  {
    var last := |series| - 1;
    var front := series[..last];
    assert series == front + [series[last]];
    InsertAllSnoc(map[], front, series[last]);
    if j < last {
      assert LastOfKey(front, j);
      IndexKeepsLast(front, j);
    }
    forall k | k in ByPeriod(series)
      ensures exists i :: 0 <= i < |series| && series[i].0 == k
    {
      KeysComeFrom(map[], series, k);
    }
  }

  /** Records indexed by key, the last one winning. */
  method IndexByPeriod(series: Series) returns (byPeriod: map<string, real>)
    ensures byPeriod == ByPeriod(series)
  {
    byPeriod := map[];
    for i := 0 to |series|
      invariant byPeriod == InsertAll(map[], series[..i])
    {
      InsertAllSnoc(map[], series[..i], series[i]);
      assert series[..i + 1] == series[..i] + [series[i]];
      byPeriod := byPeriod[series[i].0 := series[i].1];
    }
    assert series[..|series|] == series;
  }

  function Detected(series: Series, pctThreshold: real, periodsPerYear: nat): seq<Finding> {
    if EnoughHistory(series, periodsPerYear)
    then Report(ByPeriod(series), series, EffectiveThreshold(pctThreshold)) else []
  }

  /** Every record compared, by key, with the record one year before it. */
  method DetectYearOverYear(series: Series, pctThreshold: real, periodsPerYear: nat) returns (fs: seq<Finding>)
    ensures fs == Detected(series, pctThreshold, periodsPerYear)
  {
    hide PriorYearPeriod, MakeFinding, Pct, ByPeriod, Report, Abs;
    fs := [];
    if |series| < periodsPerYear + MIN_YOY_SAMPLES {
      return;
    }
    var threshold := if pctThreshold > 0.0 then pctThreshold else DEFAULT_PCT_THRESHOLD;
    var byPeriod := IndexByPeriod(series);
    assert series[0..] == series;
    for i := 0 to |series|
      invariant fs + Report(byPeriod, series[i..], threshold) == Report(byPeriod, series, threshold)
    {
      ReportStep(byPeriod, series, i, threshold);
      var (id, curr) := series[i];
      var prior := PriorYearPeriod(id);
      if prior.None? {
        continue;
      }
      if prior.value !in byPeriod {
        continue;
      }
      var prev := byPeriod[prior.value];
      if Abs(prev) < EPSILON {
        continue;
      }
      if Abs(Pct(prev, curr)) >= threshold {
        Regroup(fs, [MakeFinding((prior.value, prev), (id, curr), threshold)],
                Report(byPeriod, series[i + 1..], threshold));
        fs := fs + [MakeFinding((prior.value, prev), (id, curr), threshold)];
      }
    }
    assert series[|series|..] == [];
    NothingToReport(byPeriod, threshold);
  }

  lemma NothingToReport(m: map<string, real>, threshold: real)
    requires threshold > 0.0
    ensures Report(m, [], threshold) == []
  {
  }

  // ---- what the findings are ----

  ghost predicate DistinctKeys(series: Series) {
    forall i, j | 0 <= i < j < |series| :: series[i].0 != series[j].0
  }

  lemma {:induction false} DistinctKeysList(series: Series)
    requires DistinctKeys(series)
    ensures Lists(series, ByPeriod(series))
  {
    if series != [] {
      var last := |series| - 1;
      DistinctKeysList(series[..last]);
      assert series == series[..last] + [series[last]];
      InsertAllSnoc(map[], series[..last], series[last]);
      forall k | k in ByPeriod(series)
        ensures (k, ByPeriod(series)[k]) in series
      {
        if k != series[last].0 {
          assert (k, ByPeriod(series[..last])[k]) in series[..last];
        }
      }
    }
  }

  lemma {:induction false} ReportMember(m: map<string, real>, series: Series, threshold: real, f: Finding)
    requires threshold > 0.0
    ensures f in Report(m, series, threshold)
            <==> exists i :: 0 <= i < |series| && At(m, series[i], threshold) == Some(f)
  {
    if series != [] {
      ReportMember(m, series[1..], threshold, f);
      if f in Report(m, series[1..], threshold) {
        var i :| 0 <= i < |series[1..]| && At(m, series[1..][i], threshold) == Some(f);
        assert At(m, series[i + 1], threshold) == Some(f);
      }
      if i :| 0 <= i < |series| && At(m, series[i], threshold) == Some(f) {
        assert i > 0 ==> At(m, series[1..][i - 1], threshold) == Some(f);
      }
    }
  }

  /** Record j is the usable baseline of record i, and the move meets the
      threshold. */
  ghost predicate Baseline(series: Series, i: nat, j: nat, threshold: real) {
    && i < |series| && j < |series|
    && PriorYearPeriod(series[i].0) == Some(series[j].0)
    && Moves(series[j].1, series[i].1, threshold)
  }

  lemma FindingHasBaseline(series: Series, i: nat, threshold: real, f: Finding) returns (j: nat)
    requires DistinctKeys(series) && i < |series| && threshold > 0.0
    requires f in Report(ByPeriod(series), series, threshold) && f.key == series[i].0
    ensures Baseline(series, i, j, threshold) && f == MakeFinding(series[j], series[i], threshold)
  {
    hide Moves, MakeFinding, PriorYearPeriod, ByPeriod;
    var m := ByPeriod(series);
    DistinctKeysList(series);
    ReportMember(m, series, threshold, f);
    var a :| 0 <= a < |series| && At(m, series[a], threshold) == Some(f);
    assert a == i;
    var q := PriorYearPeriod(series[i].0).value;
    assert (q, m[q]) in series;
    j :| 0 <= j < |series| && series[j] == (q, m[q]);
  }

  lemma BaselineGivesFinding(series: Series, i: nat, j: nat, threshold: real)
    requires DistinctKeys(series) && threshold > 0.0 && Baseline(series, i, j, threshold)
    ensures MakeFinding(series[j], series[i], threshold) in Report(ByPeriod(series), series, threshold)
  {
    hide Moves, MakeFinding, PriorYearPeriod, ByPeriod;
    var m := ByPeriod(series);
    DistinctKeysList(series);
    var f := MakeFinding(series[j], series[i], threshold);
    assert series[j].0 in m && m[series[j].0] == series[j].1;
    assert At(m, series[i], threshold) == Some(f);
    ReportMember(m, series, threshold, f);
  }

  /** For distinct, well-formed keys: a finding at p exists exactly when the key
      one calendar year earlier is present with a usable baseline and the move
      meets the threshold. Gaps elsewhere in the series play no part. */
  lemma FindingIffCalendarBaseline(series: Series, i: nat, threshold: real)
    requires DistinctKeys(series) && i < |series| && threshold > 0.0 && WellFormed(series[i].0)
    ensures (exists f :: f in Report(ByPeriod(series), series, threshold) && f.key == series[i].0)
            <==> exists j :: 0 <= j < |series| && OneYearBefore(series[j].0, series[i].0)
                             && Moves(series[j].1, series[i].1, threshold)
  {
    hide Moves, MakeFinding, PriorYearPeriod, ByPeriod, OneYearBefore, WellFormed, Report;
    forall j: nat | j < |series|
      ensures Baseline(series, i, j, threshold)
              <==> OneYearBefore(series[j].0, series[i].0) && Moves(series[j].1, series[i].1, threshold)
    {
      PriorYearIsCalendar(series[i].0, series[j].0);
    }
    if f :| f in Report(ByPeriod(series), series, threshold) && f.key == series[i].0 {
      var j := FindingHasBaseline(series, i, threshold, f);
    }
    if j: nat :| j < |series| && Baseline(series, i, j, threshold) {
      BaselineGivesFinding(series, i, j, threshold);
    }
  }

  /** Deleting any record but p's own and its baseline changes nothing at p. */
  lemma DeletionElsewhere(series: Series, i: nat, d: nat, threshold: real, f: Finding)
    requires DistinctKeys(series) && i < |series| && d < |series| && i != d && threshold > 0.0
    requires PriorYearPeriod(series[i].0) != Some(series[d].0)
    requires f.key == series[i].0
    ensures f in Report(ByPeriod(series), series, threshold)
            <==> f in Report(ByPeriod(Without(series, d)), Without(series, d), threshold)
  {
    hide Moves, MakeFinding, PriorYearPeriod, ByPeriod, Report;
    var rest := Without(series, d);
    var i' := if i < d then i else i - 1;
    assert rest[i'] == series[i];
    WithoutDistinct(series, d);
    if f in Report(ByPeriod(series), series, threshold) {
      var j := FindingHasBaseline(series, i, threshold, f);
      var j' := if j < d then j else j - 1;
      assert rest[j'] == series[j];
      BaselineGivesFinding(rest, i', j', threshold);
    }
    if f in Report(ByPeriod(rest), rest, threshold) {
      var j' := FindingHasBaseline(rest, i', threshold, f);
      var j := if j' < d then j' else j' + 1;
      assert rest[j'] == series[j];
      BaselineGivesFinding(series, i, j, threshold);
    }
  }

  lemma WithoutDistinct(series: Series, d: nat)
    requires DistinctKeys(series) && d < |series|
    ensures DistinctKeys(Without(series, d))
  {
    var rest := Without(series, d);
    forall i, j | 0 <= i < j < |rest|
      ensures rest[i].0 != rest[j].0
    {
      assert rest[i] == series[if i < d then i else i + 1];
      assert rest[j] == series[if j < d then j else j + 1];
    }
  }

  /** Raising the threshold only removes findings. */
  lemma HigherThresholdRemoves(m: map<string, real>, series: Series, low: real, high: real, f: Finding)
    returns (g: Finding)
    requires 0.0 < low <= high && f in Report(m, series, high)
    ensures g in Report(m, series, low) && (g.prevKey, g.key, g.pct) == (f.prevKey, f.key, f.pct)
  {
    ReportMember(m, series, high, f);
    var i :| 0 <= i < |series| && At(m, series[i], high) == Some(f);
    g := At(m, series[i], low).value;
    ReportMember(m, series, low, g);
  }

  // ---- the same for the detector, whose gate counts the records ----

  /** What the detector reports at a well-formed key, among distinct ones: there are
      four records more than a year's, one of them is under the key one calendar year
      earlier, and the move from it is at least the threshold, 15 percent by default. */
  lemma DetectedIffCalendarBaseline(series: Series, i: nat, pctThreshold: real, periodsPerYear: nat)
    requires DistinctKeys(series) && i < |series| && WellFormed(series[i].0)
    ensures (exists f :: f in Detected(series, pctThreshold, periodsPerYear) && f.key == series[i].0)
            <==> && |series| >= periodsPerYear + 4
                 && exists j :: 0 <= j < |series| && OneYearBefore(series[j].0, series[i].0)
                                && MovesBy(series[j].1, series[i].1, if pctThreshold > 0.0 then pctThreshold else 15.0)
  {
    hide Moves, MovesBy, PriorYearPeriod, ByPeriod, OneYearBefore, WellFormed, Report;
    FindingIffCalendarBaseline(series, i, EffectiveThreshold(pctThreshold));
    forall j | 0 <= j < |series|
      ensures Moves(series[j].1, series[i].1, EffectiveThreshold(pctThreshold))
              <==> MovesBy(series[j].1, series[i].1, if pctThreshold > 0.0 then pctThreshold else 15.0)
    {
      MovesInFull(series[j].1, series[i].1, EffectiveThreshold(pctThreshold));
    }
  }

  lemma FindingSource(series: Series, pctThreshold: real, periodsPerYear: nat, f: Finding) returns (i: nat, j: nat)
    requires DistinctKeys(series) && f in Detected(series, pctThreshold, periodsPerYear)
    ensures Baseline(series, i, j, EffectiveThreshold(pctThreshold))
    ensures f == MakeFinding(series[j], series[i], EffectiveThreshold(pctThreshold))
  {
    hide PriorYearPeriod, ByPeriod, Report, MakeFinding, Moves;
    var t, m := EffectiveThreshold(pctThreshold), ByPeriod(series);
    ReportMember(m, series, t, f);
    i :| 0 <= i < |series| && At(m, series[i], t) == Some(f);
    var prior := PriorYearPeriod(series[i].0).value;
    FindingMade((prior, m[prior]), series[i], t);
    j := FindingHasBaseline(series, i, t, f);
  }

  /** What a finding says, among distinct keys: which two records it compares and the
      signed percent move between them. */
  lemma FindingCompares(series: Series, pctThreshold: real, periodsPerYear: nat, f: Finding) returns (i: nat, j: nat)
    requires DistinctKeys(series) && f in Detected(series, pctThreshold, periodsPerYear)
    ensures i < |series| && j < |series| && f.key == series[i].0 && f.prevKey == series[j].0
    ensures PriorYearPeriod(f.key) == Some(f.prevKey)
    ensures Product(f.pct, Abs(series[j].1), 100.0 * (series[i].1 - series[j].1))
  {
    hide PriorYearPeriod, Detected, Pct, MakeFinding, Moves, Abs, EffectiveThreshold, Product, DistinctKeys;
    i, j := FindingSource(series, pctThreshold, periodsPerYear, f);
    ThresholdPositive(pctThreshold);
    MovedEnough(series[j].1, series[i].1, EffectiveThreshold(pctThreshold));
    FindingMade(series[j], series[i], EffectiveThreshold(pctThreshold));
    PctInFull(series[j].1, series[i].1);
  }

  lemma ThresholdPositive(pctThreshold: real)
    ensures EffectiveThreshold(pctThreshold) > 0.0
  {
  }

  /** How a finding is graded: critical from three times the threshold on, with a
      confidence that grows in proportion to the move between two and a half and five
      times the threshold. */
  lemma FindingGrades(series: Series, pctThreshold: real, periodsPerYear: nat, f: Finding, t: real)
    requires DistinctKeys(series) && f in Detected(series, pctThreshold, periodsPerYear)
    requires t == if pctThreshold > 0.0 then pctThreshold else 15.0
    ensures Abs(f.pct) >= t && (f.critical <==> Abs(f.pct) >= 3.0 * t)
    ensures Robust.Proportional(f.confidence, Abs(f.pct), t, 5.0)
  {
    hide PriorYearPeriod, Detected, Pct, MakeFinding, Moves, Abs, Robust.Proportional;
    var i, j := FindingSource(series, pctThreshold, periodsPerYear, f);
    MovedEnough(series[j].1, series[i].1, t);
    FindingMade(series[j], series[i], t);
  }

  lemma FindingMade(prev: (string, real), curr: (string, real), t: real)
    requires t > 0.0
    ensures var f := MakeFinding(prev, curr, t);
            && f.prevKey == prev.0 && f.key == curr.0 && f.pct == Pct(prev.1, curr.1)
            && (f.critical <==> Abs(f.pct) >= 3.0 * t) && Robust.Proportional(f.confidence, Abs(f.pct), t, 5.0)
  {
    hide Pct, Abs, Robust.SafeConfidence, Robust.Proportional;
    Robust.ConfidenceInFull(Abs(Pct(prev.1, curr.1)), t, 5.0);
  }

  lemma MovedEnough(prev: real, curr: real, t: real)
    requires Moves(prev, curr, t)
    ensures prev != 0.0 && Abs(Pct(prev, curr)) >= t
  {
    hide Pct;
  }

  function Keys(fs: seq<Finding>): seq<string> {
    if fs == [] then [] else [fs[0].key] + Keys(fs[1..])
  }

  function Names(series: Series): seq<string> {
    if series == [] then [] else [series[0].0] + Names(series[1..])
  }

  /** Among distinct well-formed keys the findings come in series order, one for each
      record with such a baseline. */
  lemma DetectedInOrder(
    series: Series, pctThreshold: real, periodsPerYear: nat, moved: ((string, real)) -> bool)
    requires DistinctKeys(series) && forall i | 0 <= i < |series| :: WellFormed(series[i].0)
    requires forall i | 0 <= i < |series| ::
               moved(series[i]) <==>
                 exists j :: 0 <= j < |series| && OneYearBefore(series[j].0, series[i].0)
                             && MovesBy(series[j].1, series[i].1, if pctThreshold > 0.0 then pctThreshold else 15.0)
    ensures Keys(Detected(series, pctThreshold, periodsPerYear))
            == if |series| >= periodsPerYear + 4 then Names(Filter(series, moved)) else []
  {
    hide PriorYearPeriod, ByPeriod, Report, Moves, MovesBy, OneYearBefore, WellFormed, Filter, Keys, Names, MakeFinding;
    var t, m := EffectiveThreshold(pctThreshold), ByPeriod(series);
    forall i | 0 <= i < |series|
      ensures At(m, series[i], t).Some? <==> moved(series[i])
    {
      BaselineWhereReported(series, i, pctThreshold);
    }
    if EnoughHistory(series, periodsPerYear) {
      ReportFilters(m, series, t, moved);
    } else {
      NoKeys();
    }
  }

  lemma BaselineWhereReported(series: Series, i: nat, pctThreshold: real)
    requires DistinctKeys(series) && i < |series| && WellFormed(series[i].0)
    ensures At(ByPeriod(series), series[i], EffectiveThreshold(pctThreshold)).Some?
            <==> exists j :: 0 <= j < |series| && OneYearBefore(series[j].0, series[i].0)
                             && MovesBy(series[j].1, series[i].1, if pctThreshold > 0.0 then pctThreshold else 15.0)
  {
    hide PriorYearPeriod, ByPeriod, Report, Moves, MovesBy, OneYearBefore, WellFormed, MakeFinding;
    var t, m := EffectiveThreshold(pctThreshold), ByPeriod(series);
    DistinctKeysList(series);
    forall j | 0 <= j < |series|
      ensures PriorYearPeriod(series[i].0) == Some(series[j].0) <==> OneYearBefore(series[j].0, series[i].0)
      ensures Moves(series[j].1, series[i].1, t) <==> MovesBy(series[j].1, series[i].1, t)
    {
      PriorYearIsCalendar(series[i].0, series[j].0);
      MovesInFull(series[j].1, series[i].1, t);
    }
    PriorYearIsCalendar(series[i].0, series[i].0);
    var q := PriorYearPeriod(series[i].0).value;
    if q in m {
      assert (q, m[q]) in series;
      var j :| 0 <= j < |series| && series[j] == (q, m[q]);
    }
  }

  lemma NoKeys()
    ensures Keys([]) == []
  {
  }

  lemma KeysCons(f: Finding, rest: seq<Finding>)
    ensures Keys([f] + rest) == [f.key] + Keys(rest)
  {
    assert ([f] + rest)[1..] == rest;
  }

  lemma NamesCons(x: (string, real), rest: Series)
    ensures Names([x] + rest) == [x.0] + Names(rest)
  {
    assert ([x] + rest)[1..] == rest;
  }

  lemma {:induction false} ReportFilters(
    m: map<string, real>, series: Series, threshold: real, moved: ((string, real)) -> bool)
    requires threshold > 0.0
    requires forall i | 0 <= i < |series| :: At(m, series[i], threshold).Some? <==> moved(series[i])
    ensures Keys(Report(m, series, threshold)) == Names(Filter(series, moved))
  {
    hide Keys, Names, PriorYearPeriod, Moves;
    if series == [] {
      NoKeys();
      NoNames();
    } else {
      var rest, kept := Report(m, series[1..], threshold), Filter(series[1..], moved);
      ReportFilters(m, series[1..], threshold, moved);
      if moved(series[0]) {
        var f := At(m, series[0], threshold).value;
        KeysCons(f, rest);
        NamesCons(series[0], kept);
      } else {
        assert Report(m, series, threshold) == rest && Filter(series, moved) == kept;
      }
    }
  }

  lemma NoNames()
    ensures Names([]) == []
  {
  }

  /** Deleting a record other than p's own and its baseline changes nothing at p,
      except that it silences a finding when the history falls below the gate. */
  lemma DetectedAfterDeletion(
    series: Series, i: nat, d: nat, pctThreshold: real, periodsPerYear: nat, f: Finding)
    requires DistinctKeys(series) && i < |series| && d < |series| && i != d
    requires PriorYearPeriod(series[i].0) != Some(series[d].0)
    requires f.key == series[i].0
    ensures var before := f in Detected(series, pctThreshold, periodsPerYear);
            var after := f in Detected(Without(series, d), pctThreshold, periodsPerYear);
            (before <==> after) <==> !before || EnoughHistory(Without(series, d), periodsPerYear)
  {
    hide Moves, PriorYearPeriod, ByPeriod, Report;
    DeletionElsewhere(series, i, d, EffectiveThreshold(pctThreshold), f);
  }

  /** Raising the threshold only removes findings. */
  lemma DetectedAtHigherThreshold(series: Series, low: real, high: real, periodsPerYear: nat, f: Finding)
    returns (g: Finding)
    requires 0.0 < low <= high && f in Detected(series, high, periodsPerYear)
    ensures g in Detected(series, low, periodsPerYear) && (g.prevKey, g.key, g.pct) == (f.prevKey, f.key, f.pct)
  {
    g := HigherThresholdRemoves(ByPeriod(series), series, low, high, f);
  }

  // ---- dimension suffixes ----

  lemma {:induction false} SuffixStripped(id: string)
    ensures '|' !in SplitPeriodSuffix(id)
  {
    if id != [] && id[0] != '|' {
      SuffixStripped(id[1..]);
    }
  }

  lemma PriorHasNoSuffix(id: string)
    ensures PriorYearPeriod(id).Some? ==> '|' !in PriorYearPeriod(id).value
  {
    SuffixStripped(id);
    hide SplitPeriodSuffix;
  }

  /** The baseline is looked up without its suffix among ids that keep theirs, so
      a series whose ids all carry one never gets a finding. */
  lemma SuffixedSeriesIsSilent(series: Series, threshold: real)
    requires threshold > 0.0
    requires forall i | 0 <= i < |series| :: '|' in series[i].0
    ensures Report(ByPeriod(series), series, threshold) == []
  {
    hide Moves, MakeFinding, PriorYearPeriod, Report;
    var fs := Report(ByPeriod(series), series, threshold);
    if fs != [] {
      ReportMember(ByPeriod(series), series, threshold, fs[0]);
      var i :| 0 <= i < |series| && At(ByPeriod(series), series[i], threshold) == Some(fs[0]);
      PriorHasNoSuffix(series[i].0);
      KeysComeFrom(map[], series, PriorYearPeriod(series[i].0).value);
    }
  }

  lemma {:induction false} KeysComeFrom(m: map<string, real>, series: Series, k: string)
    requires k in InsertAll(m, series)
    ensures k in m || exists i :: 0 <= i < |series| && series[i].0 == k
    decreases |series|
  {
    if series != [] {
      KeysComeFrom(m[series[0].0 := series[0].1], series[1..], k);
      if i :| 0 <= i < |series[1..]| && series[1..][i].0 == k {
        assert series[i + 1].0 == k;
      }
    }
  }
}
