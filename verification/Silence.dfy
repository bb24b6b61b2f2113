/** The silence index: opacity events of one source and period, weighted, summed
    and squashed onto 0 to 100. */
module Silence {
  import opened Arithmetic
  import opened Collections
  import opened Insights
  import opened Numerals

  const HALF_SATURATION: real := 40.0
  const I32_MAX: int := 0x7fff_ffff

  datatype SignalKind = PressOnlyGap | DataOnlyGap | UnattributedJump | MissingDataDay

  function Weight(k: SignalKind): real {
    match k
    case PressOnlyGap => 3.0
    case DataOnlyGap => 1.0
    case UnattributedJump => 5.0
    case MissingDataDay => 2.0
  }

  datatype Signal = Signal(kind: SignalKind, count: nat, weight: real, contribution: real, evidenceIds: seq<string>)

  datatype Index = Index(
    source: string, period: string, score: real, rawScore: real, signals: seq<Signal>, totalEvents: nat)

  // ---- strings ----

  function Contains(s: string, sub: string): bool {
    sub <= s || (s != [] && Contains(s[1..], sub))
  }

  function ContextOf(e: EvidenceRef): string {
    if e.context.None? then "" else e.context.value
  }

  /** Two date-ish keys cover the same period when one is a prefix of the other. */
  predicate SamePeriod(a: string, b: string) {
    a <= b || b <= a
  }

  // ---- periods ----

  function FirstDash(s: string): (k: nat)
    ensures k <= |s|
  {
    if s == [] || s[0] == '-' then 0 else 1 + FirstDash(s[1..])
  }

  function ParseYear(s: string): Option<int> {
    var n := ParseSigned(s);
    if n.Some? && -I32_MAX - 1 <= n.value <= I32_MAX then n else None
  }

  function ParseSmall(s: string): Option<nat> {
    var n := ParseUnsigned(s);
    if n.Some? && n.value < 256 then n else None
  }

  /** "YYYY-Qn" as year and quarter. */
  function ParseQuarter(s: string): Option<(int, nat)> {
    var k := FirstDash(s);
    if k == |s| then None
    else
      var y := ParseYear(s[..k]);
      var q := s[k + 1..];
      if y.None? || q == [] || q[0] != 'Q' then None
      else
        var n := ParseSmall(q[1..]);
        if n.Some? && 1 <= n.value <= 4 then Some((y.value, n.value)) else None
  }

  predicate DateInQuarter(recordId: string, year: int, q: nat)
    requires 1 <= q <= 4
  {
    var start := (q - 1) * 3 + 1;
    && |recordId| >= 7
    && (var y := ParseYear(recordId[..4]);
        var m := ParseSmall(recordId[5..7]);
        y.Some? && m.Some? && y.value == year && start <= m.value < start + 3)
  }

  predicate InsightInPeriod(i: Insight, period: string) {
    || period == ""
    || (match ParseQuarter(period)
        case Some((year, q)) => exists e :: e in i.evidence && DateInQuarter(e.recordId, year, q)
        case None => exists e :: e in i.evidence && period <= e.recordId)
  }

  // ---- what a period selects ----

  lemma {:induction false} DashFound(s: string, k: nat)
    requires k <= |s| && '-' !in s[..k] && (k == |s| || s[k] == '-')
    ensures FirstDash(s) == k
  {
    if k > 0 {
      assert s[0] in s[..k];
      assert s[1..][..k - 1] == s[..k][1..];
      DashFound(s[1..], k - 1);
    }
  }

  lemma {:induction false} NoEarlierDash(s: string)
    ensures '-' !in s[..FirstDash(s)] && (FirstDash(s) < |s| ==> s[FirstDash(s)] == '-')
  {
    if s != [] && s[0] != '-' {
      NoEarlierDash(s[1..]);
      var k := FirstDash(s);
      assert s[..k] == [s[0]] + s[1..][..k - 1];
    }
  }

  lemma NumeralHasNoDash(s: string, n: nat)
    requires Numeral(s, n)
    ensures '-' !in s && s != []
  {
    hide NumberOf;
    var digits: string :| digits != [] && AllDigits(digits) && (s == digits || s == "+" + digits)
                          && NumberOf(digits) == n;
    forall i | 0 <= i < |s|
      ensures s[i] != '-'
    {
      assert s == digits ==> IsDigit(digits[i]);
      assert s == "+" + digits && i > 0 ==> s[i] == digits[i - 1] && IsDigit(digits[i - 1]);
    }
  }

  /** The period at k spells quarter q of year y: a numeral, "-Q", and a numeral from 1
      to 4. */
  ghost predicate QuarterAt(period: string, k: nat, y: nat, q: nat) {
    && k + 2 <= |period| && period[k..k + 2] == "-Q"
    && Numeral(period[..k], y) && y <= 0x7fff_ffff
    && Numeral(period[k + 2..], q) && 1 <= q <= 4
  }

  /** A record id is dated in quarter q of year y: a numeral of the year in four
      characters, and two characters later one of a month of that quarter in two. */
  ghost predicate DatedIn(recordId: string, y: int, q: nat) {
    && |recordId| >= 7
    && SignedNumeral(recordId[..4], y)
    && exists m: nat :: 3 * q - 2 <= m <= 3 * q && Numeral(recordId[5..7], m)
  }

  lemma QuarterParsed(period: string, k: nat, y: nat, q: nat)
    requires QuarterAt(period, k, y, q)
    ensures ParseQuarter(period) == Some((y, q))
  {
    NumeralHasNoDash(period[..k], y);
    assert period[k] == period[k..k + 2][0] && period[k + 1] == period[k..k + 2][1];
    DashFound(period, k);
    hide Numeral, FirstDash;
    assert SignedNumeral(period[..k], y);
    ParseSignedExactly(period[..k], y);
    assert period[k + 1..][1..] == period[k + 2..];
    ParseUnsignedExactly(period[k + 2..], q);
    hide ParseSigned, ParseUnsigned;
  }

  lemma NoMinus(s: string, n: int)
    requires SignedNumeral(s, n) && '-' !in s
    ensures n >= 0 && Numeral(s, n)
  {
    forall digits: string | digits != []
      ensures s != "-" + digits
    {
      assert ("-" + digits)[0] == '-';
    }
  }

  lemma ParsedParts(period: string)
    requires ParseQuarter(period).Some?
    ensures var k := FirstDash(period);
            && k + 2 <= |period| && period[k + 1] == 'Q'
            && ParseSigned(period[..k]) == Some(ParseQuarter(period).value.0)
            && ParseQuarter(period).value.0 <= 0x7fff_ffff
            && ParseUnsigned(period[k + 2..]) == Some(ParseQuarter(period).value.1)
            && 1 <= ParseQuarter(period).value.1 <= 4
  {
    hide FirstDash, ParseSigned, ParseUnsigned;
    var k := FirstDash(period);
    assert period[k + 1..][1..] == period[k + 2..];
  }

  lemma ParsedQuarter(period: string) returns (k: nat, y: nat, q: nat)
    requires ParseQuarter(period).Some?
    ensures QuarterAt(period, k, y, q)
  {
    k := FirstDash(period);
    NoEarlierDash(period);
    ParsedParts(period);
    var parsed := ParseQuarter(period).value;
    hide FirstDash, Numeral, SignedNumeral, ParseQuarter, ParseSigned, ParseUnsigned, QuarterAt;
    ParseSignedExactly(period[..k], parsed.0);
    NoMinus(period[..k], parsed.0);
    y, q := parsed.0, parsed.1;
    ParseUnsignedExactly(period[k + 2..], q);
    Spelled(period, k, y, q);
  }

  lemma Spelled(period: string, k: nat, y: nat, q: nat)
    requires k + 2 <= |period| && period[k] == '-' && period[k + 1] == 'Q'
    requires Numeral(period[..k], y) && y <= 0x7fff_ffff && Numeral(period[k + 2..], q) && 1 <= q <= 4
    ensures QuarterAt(period, k, y, q)
  {
    assert period[k..k + 2] == [period[k], period[k + 1]];
  }

  lemma DateRead(recordId: string, y: int, q: nat)
    requires 1 <= q <= 4 && -I32_MAX - 1 <= y <= I32_MAX
    ensures DateInQuarter(recordId, y, q) <==> DatedIn(recordId, y, q)
  {
    hide SignedNumeral, Numeral, ParseSigned, ParseUnsigned;
    if |recordId| >= 7 {
      ParseSignedExactly(recordId[..4], y);
      forall m: nat
        ensures ParseUnsigned(recordId[5..7]) == Some(m) <==> Numeral(recordId[5..7], m)
      {
        ParseUnsignedExactly(recordId[5..7], m);
      }
    }
  }

  /** A period that spells a quarter selects exactly the insights with a record id dated
      in that quarter. */
  lemma QuarterSelects(i: Insight, period: string, k: nat, y: nat, q: nat)
    requires QuarterAt(period, k, y, q)
    ensures InsightInPeriod(i, period) <==> exists e :: e in i.evidence && DatedIn(e.recordId, y, q)
  {
    QuarterParsed(period, k, y, q);
    hide QuarterAt, ParseQuarter, DatedIn, DateInQuarter;
    forall e | e in i.evidence
      ensures DateInQuarter(e.recordId, y, q) <==> DatedIn(e.recordId, y, q)
    {
      DateRead(e.recordId, y, q);
    }
  }

  /** Any other period but the empty one selects exactly the insights with a record id
      that it begins, and the empty one selects all. */
  lemma PrefixSelects(i: Insight, period: string)
    requires forall k: nat, y: nat, q: nat :: !QuarterAt(period, k, y, q)
    ensures InsightInPeriod(i, period) <==> period == "" || exists e :: e in i.evidence && period <= e.recordId
  {
    if ParseQuarter(period).Some? {
      var k, y, q := ParsedQuarter(period);
    }
  }

  /** In the usual spelling: four digits, "-Q" and a digit from 1 to 4. */
  lemma QuarterOfYear(i: Insight, y: string, q: char)
    requires |y| == 4 && AllDigits(y) && '1' <= q <= '4'
    ensures InsightInPeriod(i, y + "-Q" + [q])
            <==> exists e :: e in i.evidence && DatedIn(e.recordId, NumberOf(y), DigitValue(q))
  {
    var period, d := y + "-Q" + [q], [q];
    NumberBounds(y);
    PowersOfTen();
    assert period[..4] == y && period[4..6] == "-Q" && period[6..] == d;
    assert d[..0] == [] && NumberOf(d) == DigitValue(q);
    assert Numeral(y, NumberOf(y)) && Numeral(d, DigitValue(q));
    hide Numeral, NumberOf;
    assert QuarterAt(period, 4, NumberOf(y), DigitValue(q));
    QuarterSelects(i, period, 4, NumberOf(y), DigitValue(q));
  }

  lemma NoNumeral(s: string, n: nat)
    requires s != [] && s[0] == 'Q'
    ensures !Numeral(s, n)
  {
    ParseUnsignedExactly(s, n);
  }

  /** So a record whose id is itself a quarter's key is in no quarter, its own
      included. */
  lemma QuarterKeysMiss(recordId: string, y: int, q: nat)
    requires |recordId| >= 6 && recordId[5] == 'Q'
    ensures !DatedIn(recordId, y, q)
  {
    if |recordId| >= 7 {
      forall m: nat
        ensures !Numeral(recordId[5..7], m)
      {
        NoNumeral(recordId[5..7], m);
      }
    }
  }

  /** The quarters partition the dated records: a date with a month from 1 to 12
      falls in exactly one quarter, of its own year; no other date in any. */
  lemma QuartersPartition(recordId: string, year: int, q: nat)
    requires 1 <= q <= 4 && |recordId| >= 7
    ensures DateInQuarter(recordId, year, q)
            <==> ParseYear(recordId[..4]) == Some(year) && ParseSmall(recordId[5..7]).Some?
                 && (var m := ParseSmall(recordId[5..7]).value; 1 <= m <= 12 && q == (m + 2) / 3)
  {
  }

  // ---- classification ----

  /** Containment is to occur at some position. */
  lemma {:induction false} ContainsExactly(s: string, sub: string)
    ensures Contains(s, sub) <==> exists k :: 0 <= k <= |s| && sub <= s[k..]
  {
    if k :| 0 <= k <= |s| && sub <= s[k..] {
      ContainsAt(s, sub, k);
    }
    if Contains(s, sub) {
      if sub <= s {
        assert sub <= s[0..];
      } else {
        ContainsExactly(s[1..], sub);
        var k :| 0 <= k <= |s[1..]| && sub <= s[1..][k..];
        assert s[1..][k..] == s[k + 1..];
      }
    }
  }

  /** How a gap's evidence is told press-only from data-only. */
  type Classifier = seq<EvidenceRef> -> bool

  predicate EvidenceSaysPressOnly(evidence: seq<EvidenceRef>) {
    exists e :: e in evidence && Contains(ContextOf(e), "press")
  }

  /** What the gap detector writes as context for the two kinds of gap. */
  const PRESS_ONLY_CONTEXT := "press release date without matching data"
  const DATA_ONLY_CONTEXT := "data date without matching press release"

  lemma {:induction false} ContainsAt(s: string, sub: string, k: nat)
    requires k <= |s| && sub <= s[k..]
    ensures Contains(s, sub)
  {
    if k > 0 {
      assert s[1..][k - 1..] == s[k..];
      ContainsAt(s[1..], sub, k - 1);
    }
  }

  /** The data-only context mentions a press release too, so the detector's
      data-only gaps are all classified press-only. */
  lemma DetectorGapsReadAsPressOnly(e: EvidenceRef)
    requires e.context == Some(DATA_ONLY_CONTEXT) || e.context == Some(PRESS_ONLY_CONTEXT)
    ensures EvidenceSaysPressOnly([e])
  {
    ContainsAt(PRESS_ONLY_CONTEXT, "press", 0);
    assert DATA_ONLY_CONTEXT[27..] == "press release";
    ContainsAt(DATA_ONLY_CONTEXT, "press", 27);
    assert e in [e];
  }

  // ---- attribution ----

  predicate IsCurrent(e: EvidenceRef) {
    Contains(ContextOf(e), "current")
  }

  /** Some gap of any source has evidence dated like the jump's current point. */
  predicate Explains(other: Insight, jump: Insight) {
    && other.kind == "cross_source_gap"
    && exists e :: e in other.evidence
                   && exists d :: d in jump.evidence && IsCurrent(d) && SamePeriod(d.recordId, e.recordId)
  }

  predicate HasSamePeriodPress(jump: Insight, all: seq<Insight>) {
    exists other :: other in all && Explains(other, jump)
  }

  /** The evidence of a jump's current point. */
  ghost predicate CurrentPoint(d: EvidenceRef) {
    d.context.Some? && Mentions(d.context.value, "current")
  }

  /** A gap, whatever its source, explains a jump exactly when one of its record ids
      begins, or is begun by, the id of the jump's current point. */
  lemma ExplainsExactly(other: Insight, jump: Insight)
    ensures Explains(other, jump) <==>
              && other.kind == "cross_source_gap"
              && exists e, d :: e in other.evidence && d in jump.evidence && CurrentPoint(d)
                                && (e.recordId <= d.recordId || d.recordId <= e.recordId)
  {
    forall d | d in jump.evidence
      ensures IsCurrent(d) <==> CurrentPoint(d)
    {
      CurrentRead(d);
    }
    hide IsCurrent, CurrentPoint;
  }

  lemma CurrentRead(d: EvidenceRef)
    ensures IsCurrent(d) <==> CurrentPoint(d)
  {
    ContainsExactly(ContextOf(d), "current");
    hide Contains;
    if d.context.None? {
      assert forall k | 0 <= k <= |""| :: !("current" <= ""[k..]);
    }
  }

  lemma AttributedExactly(jump: Insight, all: seq<Insight>)
    ensures HasSamePeriodPress(jump, all) <==>
              exists other, e, d ::
                && other in all && other.kind == "cross_source_gap" && e in other.evidence
                && d in jump.evidence && CurrentPoint(d)
                && (e.recordId <= d.recordId || d.recordId <= e.recordId)
  {
    hide CurrentPoint, Explains;
    forall other | other in all
      ensures Explains(other, jump) <==>
                && other.kind == "cross_source_gap"
                && exists e, d :: e in other.evidence && d in jump.evidence && CurrentPoint(d)
                                  && (e.recordId <= d.recordId || d.recordId <= e.recordId)
    {
      ExplainsExactly(other, jump);
    }
  }

  /** sub occurs in s. */
  ghost predicate Mentions(s: string, sub: string) {
    exists k :: 0 <= k <= |s| && sub <= s[k..]
  }

  /** Evidence reads as press-only exactly when some context has "press" in it. */
  lemma PressOnlyExactly(evidence: seq<EvidenceRef>)
    ensures EvidenceSaysPressOnly(evidence)
            <==> exists e :: e in evidence && e.context.Some? && Mentions(e.context.value, "press")
  {
    forall e | e in evidence
      ensures Contains(ContextOf(e), "press") <==> e.context.Some? && Mentions(e.context.value, "press")
    {
      PressRead(e);
    }
    hide Contains, Mentions, ContextOf;
  }

  lemma PressRead(e: EvidenceRef)
    ensures Contains(ContextOf(e), "press") <==> e.context.Some? && Mentions(e.context.value, "press")
  {
    ContainsExactly(ContextOf(e), "press");
    hide Contains;
    if e.context.None? {
      assert forall k | 0 <= k <= |""| :: !("press" <= ""[k..]);
    }
  }

  // ---- selecting ----

  predicate InScope(i: Insight, source: string, period: string) {
    i.source == source && InsightInPeriod(i, period)
  }

  function OfKind(source: string, period: string, kind: string): Insight -> bool {
    (i: Insight) => InScope(i, source, period) && i.kind == kind
  }

  function PressGaps(source: string, period: string, press: Classifier): Insight -> bool {
    (i: Insight) => InScope(i, source, period) && i.kind == "cross_source_gap" && press(i.evidence)
  }

  function DataGaps(source: string, period: string, press: Classifier): Insight -> bool {
    (i: Insight) => InScope(i, source, period) && i.kind == "cross_source_gap" && !press(i.evidence)
  }

  function Jumps(source: string, period: string, all: seq<Insight>): Insight -> bool {
    (i: Insight) => InScope(i, source, period) && i.kind == "series_jump" && !HasSamePeriodPress(i, all)
  }

  function NonEmptyIds(backing: seq<Insight>): seq<string> {
    if backing == [] then []
    else (if backing[0].id == "" then [] else [backing[0].id]) + NonEmptyIds(backing[1..])
  }

  function MakeSignal(kind: SignalKind, count: nat, backing: seq<Insight>): Signal {
    Signal(kind, count, Weight(kind), (count as real) * Weight(kind), NonEmptyIds(backing))
  }

  function SumContributions(ss: seq<Signal>): real {
    if ss == [] then 0.0 else ss[0].contribution + SumContributions(ss[1..])
  }

  function SumCounts(ss: seq<Signal>): nat {
    if ss == [] then 0 else ss[0].count + SumCounts(ss[1..])
  }

  function IndexOf(source: string, period: string, signals: seq<Signal>): Index {
    var raw := SumContributions(signals);
    Index(source, period, Squash(raw), raw, signals, SumCounts(signals))
  }

  function V1Signals(insights: seq<Insight>, source: string, period: string, press: Classifier): seq<Signal> {
    var p := Filter(insights, PressGaps(source, period, press));
    var d := Filter(insights, DataGaps(source, period, press));
    var j := Filter(insights, Jumps(source, period, insights));
    [MakeSignal(PressOnlyGap, |p|, p), MakeSignal(DataOnlyGap, |d|, d),
     MakeSignal(UnattributedJump, |j|, j), MakeSignal(MissingDataDay, |d|, [])]
  }

  function V1Index(insights: seq<Insight>, source: string, period: string, press: Classifier): Index {
    IndexOf(source, period, V1Signals(insights, source, period, press))
  }

  /** The first builder: one pass pushing into three vectors. */
  method BuildIndexFromInsights(insights: seq<Insight>, source: string, period: string, press: Classifier)
    returns (idx: Index)
    ensures idx == V1Index(insights, source, period, press)
  {
    var pressOnly: seq<Insight>, dataOnly: seq<Insight>, jumps: seq<Insight> := [], [], [];
    for k := 0 to |insights|
      invariant pressOnly == Filter(insights[..k], PressGaps(source, period, press))
      invariant dataOnly == Filter(insights[..k], DataGaps(source, period, press))
      invariant jumps == Filter(insights[..k], Jumps(source, period, insights))
    {
      var i := insights[k];
      assert insights[..k + 1] == insights[..k] + [i];
      FilterSnoc(insights[..k], i, PressGaps(source, period, press));
      FilterSnoc(insights[..k], i, DataGaps(source, period, press));
      FilterSnoc(insights[..k], i, Jumps(source, period, insights));
      if i.source != source {
        continue;
      }
      if !InsightInPeriod(i, period) {
        continue;
      }
      if i.kind == "cross_source_gap" {
        if press(i.evidence) {
          pressOnly := pressOnly + [i];
        } else {
          dataOnly := dataOnly + [i];
        }
      } else if i.kind == "series_jump" && !HasSamePeriodPress(i, insights) {
        jumps := jumps + [i];
      }
    }
    assert insights[..|insights|] == insights;
    var missingDays := |dataOnly|;
    var signals := [
      MakeSignal(PressOnlyGap, |pressOnly|, pressOnly),
      MakeSignal(DataOnlyGap, |dataOnly|, dataOnly),
      MakeSignal(UnattributedJump, |jumps|, jumps),
      MakeSignal(MissingDataDay, missingDays, [])];
    idx := IndexOf(source, period, signals);
  }

  // ---- the squash ----

  function Squash(raw: real): real {
    if raw <= 0.0 then 0.0
    else
      var s := 100.0 * (1.0 - 1.0 / (1.0 + raw / HALF_SATURATION));
      if s < 0.0 then 0.0 else if s > 100.0 then 100.0 else s
  }

  /** The clamp never acts: the squash is 100·raw/(raw + 40). */
  lemma SquashClosedForm(raw: real)
    requires raw >= 0.0
    ensures Squash(raw) * (raw + 40.0) == 100.0 * raw
    ensures 0.0 <= Squash(raw) < 100.0
  {
    if raw > 0.0 {
      var u := 1.0 + raw / HALF_SATURATION;
      assert u * 40.0 == raw + 40.0;
      var v := 1.0 / u;
      assert v * u == 1.0;
      QuotientRange(1.0, u, 1.0);
      var s := 100.0 * (1.0 - v);
      assert s * (raw + 40.0) == 4000.0 * (u - v * u);
    }
  }

  /** Strictly increasing. */
  lemma SquashIncreases(a: real, b: real)
    requires 0.0 <= a < b
    ensures Squash(a) < Squash(b)
  {
    hide Squash;
    SquashClosedForm(a);
    SquashClosedForm(b);
    var s, t := Squash(a), Squash(b);
    if t <= s {
      ScaleMonotone(t, s, b + 40.0);
      assert s * (b + 40.0) == s * (a + 40.0) + s * (b - a);
      ProductPositive(100.0 - s, b - a);
    }
  }

  /** Splitting a raw sum never lowers the total of the parts' scores. */
  lemma SquashSubadditive(a: real, b: real)
    requires a >= 0.0 && b >= 0.0
    ensures Squash(a + b) <= Squash(a) + Squash(b)
  {
    hide Squash;
    SquashClosedForm(a);
    SquashClosedForm(b);
    SquashClosedForm(a + b);
    PartBounded(Squash(a), a, b);
    PartBounded(Squash(b), b, a);
    var n := a + b + 40.0;
    assert (Squash(a) + Squash(b)) * n == Squash(a) * n + Squash(b) * n;
    assert Squash(a + b) * n == 100.0 * a + 100.0 * b;
    if Squash(a + b) > Squash(a) + Squash(b) {
      ProductPositive(Squash(a + b) - (Squash(a) + Squash(b)), n);
    }
  }

  lemma PartBounded(s: real, a: real, b: real)
    requires s >= 0.0 && b >= 0.0 && s * (a + 40.0) == 100.0 * a
    ensures s * (a + b + 40.0) >= 100.0 * a
  {
    ProductNonneg(s, b);
    assert s * (a + b + 40.0) == s * (a + 40.0) + s * b;
  }

  // ---- what the raw score counts ----

  /** An index adds up the contributions and the counts of all its rows. */
  lemma {:induction false} IndexAddsUp(
    source: string, period: string, rows: seq<Signal>, parts: seq<real>, counts: seq<real>)
    requires |parts| == |counts| == |rows|
    requires forall k | 0 <= k < |rows| :: parts[k] == rows[k].contribution && counts[k] == rows[k].count as real
    ensures var idx := IndexOf(source, period, rows);
            && idx.rawScore == Sum(parts) && idx.totalEvents as real == Sum(counts) && idx.signals == rows
            && idx.source == source && idx.period == period
  {
    if rows != [] {
      hide Squash;
      IndexAddsUp(source, period, rows[1..], parts[1..], counts[1..]);
    }
  }

  function Gaps(source: string, period: string): Insight -> bool {
    OfKind(source, period, "cross_source_gap")
  }

  lemma SumOfFour(a: Signal, b: Signal, c: Signal, d: Signal)
    ensures SumContributions([a, b, c, d]) == a.contribution + b.contribution + c.contribution + d.contribution
    ensures SumCounts([a, b, c, d]) == a.count + b.count + c.count + d.count
  {
    SumOfTwo(c, d);
    assert [a, b, c, d][1..] == [b, c, d] && [b, c, d][1..] == [c, d];
    assert SumContributions([b, c, d]) == b.contribution + SumContributions([c, d]);
    assert SumCounts([b, c, d]) == b.count + SumCounts([c, d]);
  }

  lemma SumOfTwo(c: Signal, d: Signal)
    ensures SumContributions([c, d]) == c.contribution + d.contribution
    ensures SumCounts([c, d]) == c.count + d.count
  {
    assert [c, d][1..] == [d] && [d][1..] == [];
    assert SumContributions([d]) == d.contribution && SumCounts([d]) == d.count;
  }

  /** Whichever way gaps are classified, each adds 3 (press-only 3, data-only 1
      plus 2 for the missing day) and each unattributed jump 5. */
  lemma RawScoreCounts(insights: seq<Insight>, source: string, period: string, press: Classifier)
    ensures V1Index(insights, source, period, press).rawScore
            == 3.0 * (Count(insights, Gaps(source, period)) as real)
               + 5.0 * (Count(insights, Jumps(source, period, insights)) as real)
  {
    hide Count, Jumps, PressGaps, DataGaps, Gaps, MakeSignal, SumContributions, Squash, SumCounts;
    GapsSplit(insights, source, period, press);
    V1Contributions(insights, source, period, press);
    var s := V1Signals(insights, source, period, press);
    assert s == [s[0], s[1], s[2], s[3]];
    SumOfFour(s[0], s[1], s[2], s[3]);
  }

  /** p, d and j pick from the insights of the source and period the press-only gaps,
      the data-only gaps, and the jumps that no gap explains. */
  ghost predicate Picks(
    insights: seq<Insight>, source: string, period: string, press: Classifier,
    p: Insight -> bool, d: Insight -> bool, j: Insight -> bool)
  {
    forall i | i in insights ::
      && (p(i) <==> Here(i, source, period) && i.kind == "cross_source_gap" && press(i.evidence))
      && (d(i) <==> Here(i, source, period) && i.kind == "cross_source_gap" && !press(i.evidence))
      && (j(i) <==> Here(i, source, period) && i.kind == "series_jump" && !HasSamePeriodPress(i, insights))
  }

  ghost predicate Here(i: Insight, source: string, period: string) {
    i.source == source && InsightInPeriod(i, period)
  }

  /** Four rows with their weights and backing ids; data-only gaps are counted once more
      as missing days. */
  function FourRows(insights: seq<Insight>, p: Insight -> bool, d: Insight -> bool, j: Insight -> bool)
    : (rows: seq<Signal>)
    ensures |rows| == 4
  {
    var a, b, c := Count(insights, p), Count(insights, d), Count(insights, j);
    [Signal(PressOnlyGap, a, 3.0, a as real * 3.0, BackingIds(insights, p)),
     Signal(DataOnlyGap, b, 1.0, b as real * 1.0, BackingIds(insights, d)),
     Signal(UnattributedJump, c, 5.0, c as real * 5.0, BackingIds(insights, j)),
     Signal(MissingDataDay, b, 2.0, b as real * 2.0, [])]
  }

  lemma PicksAgree(
    insights: seq<Insight>, source: string, period: string, press: Classifier,
    p: Insight -> bool, d: Insight -> bool, j: Insight -> bool, i: Insight)
    requires Picks(insights, source, period, press, p, d, j) && i in insights
    ensures p(i) == PressGaps(source, period, press)(i) && d(i) == DataGaps(source, period, press)(i)
    ensures j(i) == Jumps(source, period, insights)(i)
  {
    hide InsightInPeriod, HasSamePeriodPress, Here;
    HereIsInScope(i, source, period);
  }

  lemma HereIsInScope(i: Insight, source: string, period: string)
    ensures Here(i, source, period) == InScope(i, source, period)
  {
  }

  /** The whole index: those rows, their weighted sum, and its place between 0 and 100. */
  lemma IndexInFull(
    insights: seq<Insight>, source: string, period: string, press: Classifier,
    p: Insight -> bool, d: Insight -> bool, j: Insight -> bool)
    requires Picks(insights, source, period, press, p, d, j)
    ensures var idx := V1Index(insights, source, period, press);
            && idx.source == source && idx.period == period
            && idx.signals == FourRows(insights, p, d, j)
            && idx.totalEvents == Count(insights, p) + 2 * Count(insights, d) + Count(insights, j)
            && idx.rawScore
               == 3.0 * (Count(insights, p) + Count(insights, d)) as real + 5.0 * Count(insights, j) as real
            && idx.score * (idx.rawScore + 40.0) == 100.0 * idx.rawScore
  {
    hide Picks, V1Signals, Squash, Count, BackingIds, SumContributions, SumCounts;
    SignalsInFull(insights, source, period, press, p, d, j);
    FourRowsSum(insights, p, d, j);
    hide FourRows;
    SquashClosedForm(SumContributions(FourRows(insights, p, d, j)));
  }

  lemma FourRowsSum(insights: seq<Insight>, p: Insight -> bool, d: Insight -> bool, j: Insight -> bool)
    ensures var s := FourRows(insights, p, d, j);
            && SumCounts(s) == Count(insights, p) + 2 * Count(insights, d) + Count(insights, j)
            && SumContributions(s)
               == 3.0 * (Count(insights, p) + Count(insights, d)) as real + 5.0 * Count(insights, j) as real
  {
    hide Count, BackingIds, SumContributions, SumCounts;
    var s := FourRows(insights, p, d, j);
    SumOfFour(s[0], s[1], s[2], s[3]);
    assert s == [s[0], s[1], s[2], s[3]];
  }

  lemma SignalsInFull(
    insights: seq<Insight>, source: string, period: string, press: Classifier,
    p: Insight -> bool, d: Insight -> bool, j: Insight -> bool)
    requires Picks(insights, source, period, press, p, d, j)
    ensures V1Signals(insights, source, period, press) == FourRows(insights, p, d, j)
  {
    forall i | i in insights
      ensures p(i) == PressGaps(source, period, press)(i) && d(i) == DataGaps(source, period, press)(i)
      ensures j(i) == Jumps(source, period, insights)(i)
    {
      PicksAgree(insights, source, period, press, p, d, j, i);
    }
    FourRowsAre(insights, p, d, j);
    hide PressGaps, DataGaps, Jumps, Filter, NonEmptyIds, Picks, Count, BackingIds, MakeSignal, RowOf, FourRows;
    RowInFull(insights, PressOnlyGap, PressGaps(source, period, press), p);
    RowInFull(insights, DataOnlyGap, DataGaps(source, period, press), d);
    RowInFull(insights, UnattributedJump, Jumps(source, period, insights), j);
    MissingRow(|Filter(insights, DataGaps(source, period, press))|);
  }

  lemma MissingRow(n: nat)
    ensures MakeSignal(MissingDataDay, n, []) == RowOf(MissingDataDay, n, [])
  {
  }

  lemma FourRowsAre(insights: seq<Insight>, p: Insight -> bool, d: Insight -> bool, j: Insight -> bool)
    ensures FourRows(insights, p, d, j)
            == [RowOf(PressOnlyGap, Count(insights, p), BackingIds(insights, p)),
                RowOf(DataOnlyGap, Count(insights, d), BackingIds(insights, d)),
                RowOf(UnattributedJump, Count(insights, j), BackingIds(insights, j)),
                RowOf(MissingDataDay, Count(insights, d), [])]
  {
    hide Count, BackingIds;
  }

  lemma RowInFull(insights: seq<Insight>, kind: SignalKind, q: Insight -> bool, p: Insight -> bool)
    requires forall i | i in insights :: p(i) == q(i)
    ensures var backing, n := Filter(insights, q), Count(insights, p);
            && |backing| == n
            && MakeSignal(kind, |backing|, backing) == RowOf(kind, n, BackingIds(insights, p))
  {
    FilterAgree(insights, q, p);
    FilterLength(insights, p);
    IdsAreBacking(insights, p);
  }

  /** n events of a kind: their weight, and their number times that weight. */
  function RowOf(kind: SignalKind, n: nat, ids: seq<string>): Signal {
    Signal(kind, n, Weight(kind), n as real * Weight(kind), ids)
  }

  /** The ids of the chosen insights, in order, but for empty ones. */
  function BackingIds(insights: seq<Insight>, p: Insight -> bool): seq<string> {
    if insights == [] then []
    else (if p(insights[0]) && insights[0].id != "" then [insights[0].id] else []) + BackingIds(insights[1..], p)
  }

  lemma {:induction false} IdsAreBacking(insights: seq<Insight>, p: Insight -> bool)
    ensures NonEmptyIds(Filter(insights, p)) == BackingIds(insights, p)
  {
    if insights != [] {
      IdsAreBacking(insights[1..], p);
      var rest := Filter(insights[1..], p);
      if p(insights[0]) {
        assert Filter(insights, p) == [insights[0]] + rest;
        assert ([insights[0]] + rest)[1..] == rest;
      } else {
        assert Filter(insights, p) == rest;
      }
    }
  }

  lemma GapsSplit(insights: seq<Insight>, source: string, period: string, press: Classifier)
    ensures Count(insights, PressGaps(source, period, press)) + Count(insights, DataGaps(source, period, press))
            == Count(insights, Gaps(source, period))
  {
    hide InScope;
    CountDisjoint(insights, PressGaps(source, period, press), DataGaps(source, period, press), Gaps(source, period));
  }

  lemma V1Contributions(insights: seq<Insight>, source: string, period: string, press: Classifier)
    ensures var s := V1Signals(insights, source, period, press);
            var d := Count(insights, DataGaps(source, period, press)) as real;
            && s[0].contribution == 3.0 * (Count(insights, PressGaps(source, period, press)) as real)
            && s[1].contribution == d && s[3].contribution == 2.0 * d
            && s[2].contribution == 5.0 * (Count(insights, Jumps(source, period, insights)) as real)
  {
    hide Count, Filter, NonEmptyIds, Jumps, PressGaps, DataGaps;
    FilterLength(insights, PressGaps(source, period, press));
    FilterLength(insights, DataGaps(source, period, press));
    FilterLength(insights, Jumps(source, period, insights));
  }

  /** The order of the insights does not matter. */
  lemma RawScoreIgnoresOrder(a: seq<Insight>, b: seq<Insight>, source: string, period: string, press: Classifier)
    requires multiset(a) == multiset(b)
    ensures V1Index(a, source, period, press).rawScore == V1Index(b, source, period, press).rawScore
    ensures V1Index(a, source, period, press).score == V1Index(b, source, period, press).score
  {
    RawScoreCounts(a, source, period, press);
    RawScoreCounts(b, source, period, press);
    CountPermutation(a, b, Gaps(source, period));
    CountPermutation(a, b, Jumps(source, period, a));
    SameMembersSameJumps(a, b, source, period);
    CountAgree(b, Jumps(source, period, a), Jumps(source, period, b));
  }

  lemma SameMembersSameJumps(a: seq<Insight>, b: seq<Insight>, source: string, period: string)
    requires multiset(a) == multiset(b)
    ensures forall i | i in b :: Jumps(source, period, a)(i) == Jumps(source, period, b)(i)
  {
    forall i | i in b
      ensures HasSamePeriodPress(i, a) <==> HasSamePeriodPress(i, b)
    {
      if other :| other in a && Explains(other, i) {
        assert other in multiset(b);
      }
      if other :| other in b && Explains(other, i) {
        assert other in multiset(a);
      }
    }
  }

  // ---- adding one insight ----

  /** Jumps that were unattributed until i arrived. */
  function Newly(source: string, period: string, all: seq<Insight>, i: Insight): Insight -> bool {
    (x: Insight) => Jumps(source, period, all)(x) && Explains(i, x)
  }

  lemma JumpsAfter(all: seq<Insight>, i: Insight, source: string, period: string)
    ensures Count(all, Jumps(source, period, all + [i]))
            == Count(all, Jumps(source, period, all)) - Count(all, Newly(source, period, all, i))
  {
    forall x | x in all
      ensures HasSamePeriodPress(x, all + [i]) <==> HasSamePeriodPress(x, all) || Explains(i, x)
    {
      if other :| other in all + [i] && Explains(other, x) {
        assert other in all || other == i;
      }
      if HasSamePeriodPress(x, all) {
        var other :| other in all && Explains(other, x);
        assert other in all + [i];
      }
      if Explains(i, x) {
        assert i in all + [i];
      }
    }
    CountDisjoint(all, Jumps(source, period, all + [i]), Newly(source, period, all, i), Jumps(source, period, all));
  }

  /** The exact effect of one more insight: +3 if it is a gap in scope, +5 if it
      is an unattributed jump in scope, -5 for every jump it explains. */
  lemma RawScoreAfter(all: seq<Insight>, i: Insight, source: string, period: string, press: Classifier)
    ensures V1Index(all + [i], source, period, press).rawScore
            == V1Index(all, source, period, press).rawScore
               + 3.0 * (One(Gaps(source, period)(i)) as real)
               + 5.0 * (One(Jumps(source, period, all + [i])(i)) as real)
               - 5.0 * (Count(all, Newly(source, period, all, i)) as real)
  {
    hide V1Index;
    var gaps, jumps := Gaps(source, period), Jumps(source, period, all + [i]);
    RawScoreCounts(all, source, period, press);
    RawScoreCounts(all + [i], source, period, press);
    CountConcat(all, [i], gaps);
    CountConcat(all, [i], jumps);
    JumpsAfter(all, i, source, period);
    CountSingle(i, gaps);
    CountSingle(i, jumps);
  }

  lemma CountSingle<T>(x: T, p: T -> bool)
    ensures Count([x], p) == One(p(x))
  {
  }

  /** Adding a jump, or anything that is not a gap, never lowers the score. */
  lemma JumpNeverLowers(all: seq<Insight>, i: Insight, source: string, period: string, press: Classifier)
    requires i.kind != "cross_source_gap"
    ensures V1Index(all + [i], source, period, press).rawScore >= V1Index(all, source, period, press).rawScore
    ensures V1Index(all + [i], source, period, press).score >= V1Index(all, source, period, press).score
  {
    RawScoreAfter(all, i, source, period, press);
    CountNone(all, Newly(source, period, all, i));
    RawNonneg(all, source, period, press);
    ScoreOrder(V1Index(all, source, period, press), V1Index(all + [i], source, period, press));
  }

  lemma RawNonneg(all: seq<Insight>, source: string, period: string, press: Classifier)
    ensures V1Index(all, source, period, press).rawScore >= 0.0
  {
    RawScoreCounts(all, source, period, press);
  }

  lemma ScoreOrder(a: Index, b: Index)
    requires a.score == Squash(a.rawScore) && b.score == Squash(b.rawScore)
    requires 0.0 <= a.rawScore <= b.rawScore
    ensures a.score <= b.score
  {
    if a.rawScore < b.rawScore {
      SquashIncreases(a.rawScore, b.rawScore);
    }
  }

  /** Adding a gap can: it adds 3 and takes away 5 for the jump it explains. */
  lemma GapCanLower(jump: Insight, gap: Insight, source: string, press: Classifier)
    requires jump.kind == "series_jump" && gap.kind == "cross_source_gap"
    requires jump.source == source && gap.source == source && Explains(gap, jump)
    ensures V1Index([jump], source, "", press).rawScore == 5.0
    ensures V1Index([jump] + [gap], source, "", press).rawScore == 3.0
    ensures V1Index([jump] + [gap], source, "", press).score < V1Index([jump], source, "", press).score
  {
    RawScoreCounts([jump], source, "", press);
    CountSingle(jump, Gaps(source, ""));
    CountSingle(jump, Jumps(source, "", [jump]));
    RawScoreAfter([jump], gap, source, "", press);
    CountSingle(jump, Newly(source, "", [jump], gap));
    SquashIncreases(3.0, 5.0);
  }
}
