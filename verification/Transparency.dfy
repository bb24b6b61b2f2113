/** The generalized index: a registry of signals in place of the hard-wired ones,
    and a composite over several sources. */
module Transparency {
  import opened Arithmetic
  import opened Collections
  import opened Insights
  import opened Silence
  import opened Sorting

  /** One pluggable signal. The builder asks for its kind, the row it makes and whether
      it includes an insight; the weight it declares is not consulted. */
  datatype TransparencySignal = TransparencySignal(
    detectorKind: string,
    weight: real,
    rowKind: SignalKind,
    includes: (Insight, seq<Insight>) -> bool)

  predicate StringLe(a: string, b: string) {
    a == "" || (b != "" && (a[0] < b[0] || (a[0] == b[0] && StringLe(a[1..], b[1..]))))
  }

  predicate KindLe(x: TransparencySignal, y: TransparencySignal) {
    StringLe(x.detectorKind, y.detectorKind)
  }

  function Replace(entries: seq<TransparencySignal>, s: TransparencySignal): seq<TransparencySignal> {
    if entries == [] then [s]
    else if entries[0].detectorKind == s.detectorKind then [s] + entries[1..]
    else [entries[0]] + Replace(entries[1..], s)
  }

  lemma ReplaceStep(entries: seq<TransparencySignal>, k: nat, s: TransparencySignal)
    requires k <= |entries|
    ensures k == |entries| ==> entries[..k] + Replace(entries[k..], s) == entries + [s]
    ensures k < |entries| && entries[k].detectorKind == s.detectorKind ==>
              entries[..k] + Replace(entries[k..], s) == entries[..k] + [s] + entries[k + 1..]
    ensures k < |entries| && entries[k].detectorKind != s.detectorKind ==>
              entries[..k] + Replace(entries[k..], s) == entries[..k + 1] + Replace(entries[k + 1..], s)
  {
    if k < |entries| {
      assert entries[k..][1..] == entries[k + 1..];
      assert entries[..k + 1] == entries[..k] + [entries[k]];
      Regroup(entries[..k], [entries[k]], Replace(entries[k + 1..], s));
      Regroup(entries[..k], [s], entries[k + 1..]);
    } else {
      assert entries[..k] == entries;
    }
  }

  /** One entry per detector kind, as in a map. */
  ghost predicate OneEach(entries: seq<TransparencySignal>) {
    forall i, j | 0 <= i < j < |entries| :: entries[i].detectorKind != entries[j].detectorKind
  }

  /** A registration is there afterwards, in place of any other of its kind, and all of
      other kinds stay. */
  lemma {:induction false} ReplaceExactly(entries: seq<TransparencySignal>, s: TransparencySignal)
    requires OneEach(entries)
    ensures OneEach(Replace(entries, s))
    ensures forall t :: t in Replace(entries, s) <==> t == s || (t in entries && t.detectorKind != s.detectorKind)
  {
    if entries != [] {
      var rest := entries[1..];
      if entries[0].detectorKind == s.detectorKind {
        assert forall t | t in rest :: t.detectorKind != s.detectorKind;
      } else {
        ReplaceExactly(rest, s);
        forall t | t in Replace(rest, s)
          ensures t.detectorKind != entries[0].detectorKind
        {
        }
      }
    }
  }

  /** a comes first: it begins b, or has the lesser character where they first differ. */
  ghost predicate Precedes(a: string, b: string) {
    a <= b || exists k :: 0 <= k < |a| && k < |b| && a[..k] == b[..k] && a[k] < b[k]
  }

  lemma {:induction false} StringLeExactly(a: string, b: string)
    ensures StringLe(a, b) <==> Precedes(a, b)
  {
    if a != "" && b != "" {
      StringLeExactly(a[1..], b[1..]);
      if a[0] == b[0] && Precedes(a[1..], b[1..]) {
        if !(a[1..] <= b[1..]) {
          var k :| 0 <= k < |a[1..]| && k < |b[1..]| && a[1..][..k] == b[1..][..k] && a[1..][k] < b[1..][k];
          assert a[..k + 1] == [a[0]] + a[1..][..k] && b[..k + 1] == [b[0]] + b[1..][..k];
        }
      }
      if a[0] < b[0] {
        assert a[..0] == b[..0];
      }
      if !(a <= b) && Precedes(a, b) {
        var k :| 0 <= k < |a| && k < |b| && a[..k] == b[..k] && a[k] < b[k];
        if k > 0 {
          assert a[0] == a[..k][0] && b[0] == b[..k][0];
          assert a[1..][..k - 1] == a[..k][1..] && b[1..][..k - 1] == b[..k][1..];
        }
      }
    }
  }

  lemma {:induction false} StringLeTotal(a: string, b: string)
    ensures StringLe(a, b) || StringLe(b, a)
  {
    if a != "" && b != "" {
      StringLeTotal(a[1..], b[1..]);
    }
  }

  lemma {:induction false} StringLeTransitive(a: string, b: string, c: string)
    requires StringLe(a, b) && StringLe(b, c)
    ensures StringLe(a, c)
  {
    if a != "" && a[0] == b[0] == c[0] {
      StringLeTransitive(a[1..], b[1..], c[1..]);
    }
  }

  lemma KindsOrdered()
    ensures Preorder(KindLe)
  {
    forall x, y
      ensures KindLe(x, y) || KindLe(y, x)
    {
      StringLeTotal(x.detectorKind, y.detectorKind);
    }
    forall x, y, z | KindLe(x, y) && KindLe(y, z)
      ensures KindLe(x, z)
    {
      StringLeTransitive(x.detectorKind, y.detectorKind, z.detectorKind);
    }
  }

  /** All signals come out once each, in the order of their kinds. */
  lemma AllInKindOrder(entries: seq<TransparencySignal>)
    ensures var all := Sort(entries, KindLe);
            && multiset(all) == multiset(entries)
            && forall i, j | 0 <= i < j < |all| :: Precedes(all[i].detectorKind, all[j].detectorKind)
  {
    KindsOrdered();
    SortCorrect(entries, KindLe);
    var all := Sort(entries, KindLe);
    forall i, j | 0 <= i < j < |all|
      ensures Precedes(all[i].detectorKind, all[j].detectorKind)
    {
      assert KindLe(all[i], all[j]);
      StringLeExactly(all[i].detectorKind, all[j].detectorKind);
    }
  }

  /** Signals by detector kind: the entries of the hash map, one per kind. */
  class TransparencySignalRegistry {
    var entries: seq<TransparencySignal>

    constructor ()
      ensures entries == []
    {
      entries := [];
    }

    /** A later registration for a kind replaces the earlier one. */
    method Register(s: TransparencySignal)
      modifies this
      ensures entries == Replace(old(entries), s)
    {
      hide Replace;
      ghost var was := entries;
      var k := 0;
      while k < |entries| && entries[k].detectorKind != s.detectorKind
        invariant entries == was && 0 <= k <= |was|
        invariant Replace(was, s) == was[..k] + Replace(was[k..], s)
      {
        ReplaceStep(was, k, s);
        k := k + 1;
      }
      ReplaceStep(was, k, s);
      if k < |entries| {
        entries := entries[..k] + [s] + entries[k + 1..];
      } else {
        entries := entries + [s];
      }
    }

    function All(): seq<TransparencySignal>
      reads this
    {
      Sort(entries, KindLe)
    }
  }

  function PressOnlyGapSignal(): TransparencySignal {
    TransparencySignal("cross_source_gap", 3.0, PressOnlyGap,
                       (i: Insight, all: seq<Insight>) => EvidenceSaysPressOnly(i.evidence))
  }

  function DataOnlyGapSignal(): TransparencySignal {
    TransparencySignal("cross_source_gap", 1.0, DataOnlyGap,
                       (i: Insight, all: seq<Insight>) => !EvidenceSaysPressOnly(i.evidence))
  }

  function UnattributedJumpSignal(): TransparencySignal {
    TransparencySignal("series_jump", 5.0, UnattributedJump,
                       (i: Insight, all: seq<Insight>) => !HasSamePeriodPress(i, all))
  }

  /** Three registrations leave two signals: the data-only one has replaced the
      press-only one, and they come out sorted by kind. */
  method DefaultRegistry() returns (reg: TransparencySignalRegistry)
    ensures fresh(reg)
    ensures reg.entries == [DataOnlyGapSignal(), UnattributedJumpSignal()]
    ensures reg.All() == [DataOnlyGapSignal(), UnattributedJumpSignal()]
  {
    reg := new TransparencySignalRegistry();
    reg.Register(PressOnlyGapSignal());
    reg.Register(DataOnlyGapSignal());
    reg.Register(UnattributedJumpSignal());
    var d, j := DataOnlyGapSignal(), UnattributedJumpSignal();
    assert [d, j][1..] == [j] && Sort([j], KindLe) == [j];
    assert StringLe("cross_source_gap", "series_jump");
  }

  // ---- the generalized builder ----

  function Included(s: TransparencySignal, all: seq<Insight>): Insight -> bool {
    (i: Insight) => s.includes(i, all)
  }

  /** The row of one registered signal; gaps and missing days have theirs from
      elsewhere. */
  function RowFor(insights: seq<Insight>, source: string, period: string, s: TransparencySignal): seq<Signal> {
    var included := Filter(Filter(insights, OfKind(source, period, s.detectorKind)), Included(s, insights));
    if s.detectorKind == "cross_source_gap" || s.rowKind == MissingDataDay then []
    else [MakeSignal(s.rowKind, |included|, included)]
  }

  function OtherSignals(
    insights: seq<Insight>, source: string, period: string, registered: seq<TransparencySignal>): seq<Signal>
  {
    if registered == [] then []
    else RowFor(insights, source, period, registered[0]) + OtherSignals(insights, source, period, registered[1..])
  }

  function Classified(press: Classifier, wanted: bool): Insight -> bool {
    (i: Insight) => press(i.evidence) == wanted
  }

  function RegistrySignals(
    insights: seq<Insight>, source: string, period: string, press: Classifier, registered: seq<TransparencySignal>)
    : seq<Signal>
  {
    var gaps := Filter(insights, OfKind(source, period, "cross_source_gap"));
    var p, d := Filter(gaps, Classified(press, true)), Filter(gaps, Classified(press, false));
    [MakeSignal(PressOnlyGap, |p|, p), MakeSignal(DataOnlyGap, |d|, d), MakeSignal(MissingDataDay, |d|, [])]
    + OtherSignals(insights, source, period, registered)
  }

  function RegistryIndex(
    insights: seq<Insight>, source: string, period: string, press: Classifier, registered: seq<TransparencySignal>)
    : Index
  {
    IndexOf(source, period, RegistrySignals(insights, source, period, press, registered))
  }

  function Bucket(byKind: map<string, seq<Insight>>, kind: string): seq<Insight> {
    if kind in byKind then byKind[kind] else []
  }

  /** In-period insights of the source, grouped by kind. */
  method GroupByKind(insights: seq<Insight>, source: string, period: string) returns (byKind: map<string, seq<Insight>>)
    ensures forall kind :: Bucket(byKind, kind) == Filter(insights, OfKind(source, period, kind))
  {
    byKind := map[];
    for k := 0 to |insights|
      invariant forall kind :: Bucket(byKind, kind) == Filter(insights[..k], OfKind(source, period, kind))
    {
      var i := insights[k];
      GroupStep(insights, k, source, period);
      if i.source == source && InsightInPeriod(i, period) {
        byKind := byKind[i.kind := Bucket(byKind, i.kind) + [i]];
      }
    }
    assert insights[..|insights|] == insights;
  }

  lemma GroupStep(insights: seq<Insight>, k: nat, source: string, period: string)
    requires k < |insights|
    ensures forall kind :: Filter(insights[..k + 1], OfKind(source, period, kind))
                           == Filter(insights[..k], OfKind(source, period, kind))
                              + (if OfKind(source, period, kind)(insights[k]) then [insights[k]] else [])
  {
    assert insights[..k + 1] == insights[..k] + [insights[k]];
    forall kind
      ensures Filter(insights[..k + 1], OfKind(source, period, kind))
              == Filter(insights[..k], OfKind(source, period, kind))
                 + (if InScope(insights[k], source, period) && insights[k].kind == kind then [insights[k]] else [])
    {
      FilterSnoc(insights[..k], insights[k], OfKind(source, period, kind));
    }
  }

  method FilterLoop(xs: seq<Insight>, p: Insight -> bool) returns (r: seq<Insight>)
    ensures r == Filter(xs, p)
  {
    r := [];
    for k := 0 to |xs|
      invariant r == Filter(xs[..k], p)
    {
      assert xs[..k + 1] == xs[..k] + [xs[k]];
      FilterSnoc(xs[..k], xs[k], p);
      if p(xs[k]) {
        r := r + [xs[k]];
      }
    }
    assert xs[..|xs|] == xs;
  }

  /** The body of the loop over the registered signals. */
  method BuildRow(
    insights: seq<Insight>, source: string, period: string, bucket: seq<Insight>, s: TransparencySignal)
    returns (row: seq<Signal>)
    requires bucket == Filter(insights, OfKind(source, period, s.detectorKind))
    ensures row == RowFor(insights, source, period, s)
  {
    if s.detectorKind == "cross_source_gap" {
      return [];
    }
    var included := FilterLoop(bucket, Included(s, insights));
    if s.rowKind == MissingDataDay {
      return [];
    }
    row := [MakeSignal(s.rowKind, |included|, included)];
  }

  method OtherRows(
    insights: seq<Insight>, source: string, period: string,
    byKind: map<string, seq<Insight>>, all: seq<TransparencySignal>)
    returns (rows: seq<Signal>)
    requires forall kind :: Bucket(byKind, kind) == Filter(insights, OfKind(source, period, kind))
    ensures rows == OtherSignals(insights, source, period, all)
  {
    hide RowFor;
    rows := [];
    assert all[0..] == all;
    for k := 0 to |all|
      invariant rows + OtherSignals(insights, source, period, all[k..]) == OtherSignals(insights, source, period, all)
    {
      assert all[k..][1..] == all[k + 1..];
      var row := BuildRow(insights, source, period, Bucket(byKind, all[k].detectorKind), all[k]);
      rows := rows + row;
    }
    assert all[|all|..] == [];
  }

  method BuildIndexFromRegistry(
    insights: seq<Insight>, source: string, period: string, press: Classifier, registry: TransparencySignalRegistry)
    returns (idx: Index)
    ensures idx == RegistryIndex(insights, source, period, press, registry.All())
  {
    hide MakeSignal, IndexOf, OtherSignals;
    var byKind := GroupByKind(insights, source, period);
    var gaps := Bucket(byKind, "cross_source_gap");
    var pressOnly := FilterLoop(gaps, Classified(press, true));
    var dataOnly := FilterLoop(gaps, Classified(press, false));
    var signals := [
      MakeSignal(PressOnlyGap, |pressOnly|, pressOnly),
      MakeSignal(DataOnlyGap, |dataOnly|, dataOnly),
      MakeSignal(MissingDataDay, |dataOnly|, [])];
    var others := OtherRows(insights, source, period, byKind, registry.All());
    idx := IndexOf(source, period, signals + others);
  }

  // ---- the two builders agree ----

  lemma {:induction false} FilterTwice(xs: seq<Insight>, p: Insight -> bool, q: Insight -> bool, both: Insight -> bool)
    requires forall x | x in xs :: both(x) <==> p(x) && q(x)
    ensures Filter(Filter(xs, p), q) == Filter(xs, both)
  {
    if xs != [] {
      FilterTwice(xs[1..], p, q, both);
      if p(xs[0]) {
        assert Filter(xs, p)[1..] == Filter(xs[1..], p);
      } else {
        assert Filter(xs, p) == Filter(xs[1..], p);
      }
    }
  }

  lemma RowsAgree(insights: seq<Insight>, source: string, period: string, press: Classifier)
    ensures var s := V1Signals(insights, source, period, press);
            RegistrySignals(insights, source, period, press, [DataOnlyGapSignal(), UnattributedJumpSignal()])
            == [s[0], s[1], s[3]] + [s[2]]
  {
    hide MakeSignal, OtherSignals;
    var gap := OfKind(source, period, "cross_source_gap");
    var jump := OfKind(source, period, "series_jump");
    FilterTwice(insights, gap, Classified(press, true), PressGaps(source, period, press));
    FilterTwice(insights, gap, Classified(press, false), DataGaps(source, period, press));
    FilterTwice(insights, jump, Included(UnattributedJumpSignal(), insights), Jumps(source, period, insights));
    OnlyTheJumpRow(insights, source, period);
  }

  /** The default registry reproduces the first builder for every list of
      insights, source, period and classifier: the same four rows (the last two
      exchanged), hence the same raw score, score and event total. */
  lemma BuildersAgree(insights: seq<Insight>, source: string, period: string, press: Classifier)
    ensures var v1 := V1Index(insights, source, period, press);
            var v2 := RegistryIndex(insights, source, period, press, [DataOnlyGapSignal(), UnattributedJumpSignal()]);
            && v2.signals == [v1.signals[0], v1.signals[1], v1.signals[3], v1.signals[2]]
            && multiset(v2.signals) == multiset(v1.signals)
            && v2.rawScore == v1.rawScore && v2.score == v1.score && v2.totalEvents == v1.totalEvents
  {
    RowsAgree(insights, source, period, press);
    hide RegistrySignals, MakeSignal, Squash, SumContributions, SumCounts;
    var s := V1Signals(insights, source, period, press);
    assert s == [s[0], s[1], s[2], s[3]];
    assert [s[0], s[1], s[3]] + [s[2]] == [s[0], s[1], s[3], s[2]];
    SumOfFour(s[0], s[1], s[2], s[3]);
    SumOfFour(s[0], s[1], s[3], s[2]);
  }

  lemma OnlyTheJumpRow(insights: seq<Insight>, source: string, period: string)
    ensures var j := UnattributedJumpSignal();
            var included := Filter(Filter(insights, OfKind(source, period, "series_jump")), Included(j, insights));
            OtherSignals(insights, source, period, [DataOnlyGapSignal(), j])
            == [MakeSignal(UnattributedJump, |included|, included)]
  {
    var d, j := DataOnlyGapSignal(), UnattributedJumpSignal();
    assert [d, j][1..] == [j] && [j][1..] == [];
    assert RowFor(insights, source, period, d) == [];
    assert OtherSignals(insights, source, period, [j]) == RowFor(insights, source, period, j) + [];
    assert OtherSignals(insights, source, period, [d, j]) == [] + OtherSignals(insights, source, period, [j]);
  }

  /** A signal that gets a row of its own: not one for gaps, nor for missing days. */
  function Ordinary(): TransparencySignal -> bool {
    (s: TransparencySignal) => s.detectorKind != "cross_source_gap" && s.rowKind != MissingDataDay
  }

  /** For every registry: the two gap rows and the row of missing days as in the first
      builder, then one row per ordinary registered signal, in their order. */
  lemma RegistryInFull(
    insights: seq<Insight>, source: string, period: string, press: Classifier, registered: seq<TransparencySignal>,
    p: Insight -> bool, d: Insight -> bool, j: Insight -> bool)
    requires Picks(insights, source, period, press, p, d, j)
    ensures var four := FourRows(insights, p, d, j);
            var own := Filter(registered, Ordinary());
            && RegistrySignals(insights, source, period, press, registered)
               == [four[0], four[1], four[3]] + OtherSignals(insights, source, period, own)
            && |OtherSignals(insights, source, period, own)| == |own|
            && (forall k | 0 <= k < |own| ::
                  [OtherSignals(insights, source, period, own)[k]] == RowFor(insights, source, period, own[k]))
  {
    hide FourRows, V1Signals, Picks, RowFor, MakeSignal, OtherSignals, Ordinary;
    SignalsInFull(insights, source, period, press, p, d, j);
    RowsAgree(insights, source, period, press);
    OtherInFull(insights, source, period, registered);
    var default := [DataOnlyGapSignal(), UnattributedJumpSignal()];
    var v := RegistrySignals(insights, source, period, press, default);
    assert v[0] == FourRows(insights, p, d, j)[0] && v[1] == FourRows(insights, p, d, j)[1];
    assert v[2] == FourRows(insights, p, d, j)[3];
  }

  lemma {:induction false} OtherInFull(
    insights: seq<Insight>, source: string, period: string, registered: seq<TransparencySignal>)
    ensures var own := Filter(registered, Ordinary());
            var rows := OtherSignals(insights, source, period, own);
            && OtherSignals(insights, source, period, registered) == rows
            && |rows| == |own|
            && forall k | 0 <= k < |own| :: [rows[k]] == RowFor(insights, source, period, own[k])
  {
    if registered != [] {
      OtherInFull(insights, source, period, registered[1..]);
      var s, rest := registered[0], Filter(registered[1..], Ordinary());
      RowOrNone(insights, source, period, s);
      hide RowFor;
      if Ordinary()(s) {
        assert Filter(registered, Ordinary()) == [s] + rest;
        assert ([s] + rest)[1..] == rest;
        var r := RowFor(insights, source, period, s)[0];
        assert OtherSignals(insights, source, period, [s] + rest) == [r] + OtherSignals(insights, source, period, rest);
      } else {
        assert Filter(registered, Ordinary()) == rest;
      }
    }
  }

  lemma RowOrNone(insights: seq<Insight>, source: string, period: string, s: TransparencySignal)
    ensures |RowFor(insights, source, period, s)| == if Ordinary()(s) then 1 else 0
  {
  }

  /** The row of an ordinary signal counts the insights of the source and period that
      are of its kind and that it includes, under the weight of its row. */
  lemma RowInFullFor(
    insights: seq<Insight>, source: string, period: string, s: TransparencySignal, chosen: Insight -> bool)
    requires Ordinary()(s)
    requires forall i | i in insights ::
               chosen(i) <==> Here(i, source, period) && i.kind == s.detectorKind && s.includes(i, insights)
    ensures var n := Count(insights, chosen);
            RowFor(insights, source, period, s)
            == [RowOf(s.rowKind, n, BackingIds(insights, chosen))]
  {
    var kind, included := OfKind(source, period, s.detectorKind), Included(s, insights);
    forall i | i in insights
      ensures chosen(i) <==> kind(i) && included(i)
    {
      ChosenIsBoth(i, insights, source, period, s);
    }
    RowForIs(insights, source, period, s);
    hide OfKind, Included, Here, MakeSignal, Filter, RowFor, Ordinary, RowOf;
    FilterTwice(insights, kind, included, chosen);
    RowInFull(insights, s.rowKind, chosen, chosen);
  }

  lemma RowForIs(insights: seq<Insight>, source: string, period: string, s: TransparencySignal)
    requires Ordinary()(s)
    ensures var included := Filter(Filter(insights, OfKind(source, period, s.detectorKind)), Included(s, insights));
            RowFor(insights, source, period, s) == [MakeSignal(s.rowKind, |included|, included)]
  {
  }

  lemma ChosenIsBoth(i: Insight, insights: seq<Insight>, source: string, period: string, s: TransparencySignal)
    ensures OfKind(source, period, s.detectorKind)(i) && Included(s, insights)(i)
            <==> Here(i, source, period) && i.kind == s.detectorKind && s.includes(i, insights)
  {
    HereIsInScope(i, source, period);
    hide Here, InScope;
  }

  /** The weight a registered signal declares never reaches the score. */
  lemma {:induction false} DeclaredWeightsIgnored(
    insights: seq<Insight>, source: string, period: string,
    a: seq<TransparencySignal>, b: seq<TransparencySignal>)
    requires |a| == |b|
    requires forall k | 0 <= k < |a| :: a[k] == b[k].(weight := a[k].weight)
    ensures OtherSignals(insights, source, period, a) == OtherSignals(insights, source, period, b)
  {
    if a != [] {
      DeclaredWeightsIgnored(insights, source, period, a[1..], b[1..]);
      assert a[0].includes == b[0].includes;
      SameIncludes(insights, source, period, a[0], b[0]);
    }
  }

  lemma SameIncludes(
    insights: seq<Insight>, source: string, period: string, s: TransparencySignal, t: TransparencySignal)
    requires s.includes == t.includes && s.detectorKind == t.detectorKind
    ensures Filter(Filter(insights, OfKind(source, period, s.detectorKind)), Included(s, insights))
            == Filter(Filter(insights, OfKind(source, period, t.detectorKind)), Included(t, insights))
  {
    FilterAgree(Filter(insights, OfKind(source, period, s.detectorKind)), Included(s, insights), Included(t, insights));
  }

  // ---- the composite over several sources ----

  datatype SourceBreakdown = SourceBreakdown(source: string, score: real, totalEvents: nat, weight: real)

  datatype Composite = Composite(score: real, sources: seq<SourceBreakdown>)

  function TotalEvents(bs: seq<SourceBreakdown>): nat {
    if bs == [] then 0 else bs[0].totalEvents + TotalEvents(bs[1..])
  }

  function WeightedSum(bs: seq<SourceBreakdown>): real {
    if bs == [] then 0.0 else bs[0].score * (bs[0].totalEvents as real) + WeightedSum(bs[1..])
  }

  function SumWeights(bs: seq<SourceBreakdown>): real {
    if bs == [] then 0.0 else bs[0].weight + SumWeights(bs[1..])
  }

  /** The events-weighted average of the scores, 0 when nothing happened. */
  function CompositeScore(bs: seq<SourceBreakdown>): real {
    if TotalEvents(bs) == 0 then 0.0 else Over(WeightedSum(bs), TotalEvents(bs) as real)
  }

  function Share(b: SourceBreakdown, total: nat): real {
    if total == 0 then 0.0 else Over(b.totalEvents as real, total as real)
  }

  function Shares(bs: seq<SourceBreakdown>, total: nat): seq<SourceBreakdown> {
    if bs == [] then [] else [bs[0].(weight := Share(bs[0], total))] + Shares(bs[1..], total)
  }

  function Breakdowns(
    insights: seq<Insight>, sources: seq<string>, period: string, press: Classifier, reg: seq<TransparencySignal>)
    : seq<SourceBreakdown>
  {
    if sources == [] then []
    else
      var idx := RegistryIndex(insights, sources[0], period, press, reg);
      [SourceBreakdown(sources[0], idx.score, idx.totalEvents, 0.0)]
      + Breakdowns(insights, sources[1..], period, press, reg)
  }

  lemma BreakdownStep(
    insights: seq<Insight>, sources: seq<string>, k: nat, period: string, press: Classifier,
    reg: seq<TransparencySignal>)
    requires k < |sources|
    ensures var idx := RegistryIndex(insights, sources[k], period, press, reg);
            Breakdowns(insights, sources[k..], period, press, reg)
            == [SourceBreakdown(sources[k], idx.score, idx.totalEvents, 0.0)]
               + Breakdowns(insights, sources[k + 1..], period, press, reg)
  {
    hide RegistryIndex;
    assert sources[k..][1..] == sources[k + 1..];
  }

  /** Each source scored on its own. */
  method ScoreSources(
    insights: seq<Insight>, sources: seq<string>, period: string, press: Classifier,
    registry: TransparencySignalRegistry)
    returns (bs: seq<SourceBreakdown>)
    ensures bs == Breakdowns(insights, sources, period, press, registry.All())
  {
    hide RegistryIndex, Breakdowns;
    ghost var reg := registry.All();
    ghost var whole := Breakdowns(insights, sources, period, press, reg);
    bs := [];
    assert sources[0..] == sources;
    for k := 0 to |sources|
      invariant bs + Breakdowns(insights, sources[k..], period, press, reg) == whole
    {
      BreakdownStep(insights, sources, k, period, press, reg);
      var idx := BuildIndexFromRegistry(insights, sources[k], period, press, registry);
      var row := SourceBreakdown(sources[k], idx.score, idx.totalEvents, 0.0);
      Regroup(bs, [row], Breakdowns(insights, sources[k + 1..], period, press, reg));
      bs := bs + [row];
    }
    NoBreakdowns(insights, period, press, reg);
    assert sources[|sources|..] == [];
  }

  lemma NoBreakdowns(insights: seq<Insight>, period: string, press: Classifier, reg: seq<TransparencySignal>)
    ensures Breakdowns(insights, [], period, press, reg) == []
  {
  }

  /** The loop that fills in each source's share. */
  method FillShares(bs: seq<SourceBreakdown>, total: nat) returns (shared: seq<SourceBreakdown>)
    ensures shared == Shares(bs, total)
  {
    hide Share;
    shared := [];
    assert bs[0..] == bs;
    for k := 0 to |bs|
      invariant shared + Shares(bs[k..], total) == Shares(bs, total)
    {
      assert bs[k..][1..] == bs[k + 1..];
      Regroup(shared, [bs[k].(weight := Share(bs[k], total))], Shares(bs[k + 1..], total));
      shared := shared + [bs[k].(weight := Share(bs[k], total))];
    }
    assert bs[|bs|..] == [];
  }

  /** Each source scored on its own, then averaged; the shares are filled in by
      a second loop. */
  method BuildCompositeIndex(insights: seq<Insight>, sources: seq<string>, period: string, press: Classifier)
    returns (c: Composite)
    ensures var bs := Breakdowns(insights, sources, period, press, [DataOnlyGapSignal(), UnattributedJumpSignal()]);
            c == Composite(CompositeScore(bs), Shares(bs, TotalEvents(bs)))
  {
    hide Breakdowns, CompositeScore, Shares, TotalEvents, DataOnlyGapSignal, UnattributedJumpSignal;
    var registry := DefaultRegistry();
    var bs := ScoreSources(insights, sources, period, press, registry);
    var shared := FillShares(bs, TotalEvents(bs));
    c := Composite(CompositeScore(bs), shared);
  }

  lemma {:induction false} BreakdownAt(
    insights: seq<Insight>, sources: seq<string>, period: string, press: Classifier, reg: seq<TransparencySignal>)
    ensures var bs := Breakdowns(insights, sources, period, press, reg);
            && |bs| == |sources|
            && forall k | 0 <= k < |sources| ::
                 && bs[k].source == sources[k]
                 && bs[k].score == RegistryIndex(insights, sources[k], period, press, reg).score
                 && bs[k].totalEvents == RegistryIndex(insights, sources[k], period, press, reg).totalEvents
  {
    hide RegistryIndex;
    if sources != [] {
      BreakdownAt(insights, sources[1..], period, press, reg);
    }
  }

  /** The composite times the sum of the events is the sum of the scores times the
      events, source by source; without events it is 0. */
  lemma CompositeInFull(bs: seq<SourceBreakdown>, events: seq<real>, products: seq<real>)
    requires Weighs(bs, events, products)
    ensures if Sum(events) == 0.0 then CompositeScore(bs) == 0.0
            else Product(CompositeScore(bs), Sum(events), Sum(products))
  {
    EventSums(bs, events, products);
    hide WeightedSum, TotalEvents, Sum, Weighs, Over, Product;
    if TotalEvents(bs) > 0 {
      OverTimes(WeightedSum(bs), TotalEvents(bs) as real);
    }
  }

  /** The events of every source, and its score times its events. */
  ghost predicate Weighs(bs: seq<SourceBreakdown>, events: seq<real>, products: seq<real>) {
    && |events| == |products| == |bs|
    && (forall k | 0 <= k < |bs| :: events[k] == bs[k].totalEvents as real)
    && (forall k | 0 <= k < |bs| :: products[k] == bs[k].score * events[k])
  }

  /** Each share times the sum of the events is the source's own events, 0 without any,
      and the rest of the row stays. */
  lemma ShareInFull(bs: seq<SourceBreakdown>, events: seq<real>, k: nat)
    requires |events| == |bs| && k < |bs|
    requires forall i | 0 <= i < |bs| :: events[i] == bs[i].totalEvents as real
    ensures var shared := Shares(bs, TotalEvents(bs));
            && |shared| == |bs| && shared[k] == bs[k].(weight := shared[k].weight)
            && if Sum(events) == 0.0 then shared[k].weight == 0.0 else Product(shared[k].weight, Sum(events), events[k])
  {
    EventsSum(bs, events);
    SharesAt(bs, TotalEvents(bs));
    hide TotalEvents, Sum, Shares, Over, Product;
    if TotalEvents(bs) > 0 {
      OverTimes(events[k], TotalEvents(bs) as real);
    }
  }

  lemma {:induction false} EventsSum(bs: seq<SourceBreakdown>, events: seq<real>)
    requires |events| == |bs|
    requires forall k | 0 <= k < |bs| :: events[k] == bs[k].totalEvents as real
    ensures Sum(events) == TotalEvents(bs) as real
  {
    if bs != [] {
      EventsSum(bs[1..], events[1..]);
    }
  }

  lemma {:induction false} EventSums(bs: seq<SourceBreakdown>, events: seq<real>, products: seq<real>)
    requires Weighs(bs, events, products)
    ensures Sum(events) == TotalEvents(bs) as real && Sum(products) == WeightedSum(bs)
  {
    if bs != [] {
      EventSums(bs[1..], events[1..], products[1..]);
    }
  }

  lemma {:induction false} SharesAt(bs: seq<SourceBreakdown>, total: nat)
    ensures |Shares(bs, total)| == |bs|
    ensures forall k | 0 <= k < |bs| :: Shares(bs, total)[k] == bs[k].(weight := Share(bs[k], total))
  {
    hide Share;
    if bs != [] {
      SharesAt(bs[1..], total);
    }
  }

  /** The shares add up to 1 as soon as any event exists, and to 0 otherwise. */
  lemma SharesSumToOne(bs: seq<SourceBreakdown>)
    ensures SumWeights(Shares(bs, TotalEvents(bs))) == if TotalEvents(bs) > 0 then 1.0 else 0.0
  {
    SharesAreParts(bs, TotalEvents(bs));
    if TotalEvents(bs) > 0 {
      SelfQuotient(TotalEvents(bs) as real);
    }
  }

  lemma {:induction false} SharesAreParts(bs: seq<SourceBreakdown>, total: nat)
    ensures SumWeights(Shares(bs, total)) == if total == 0 then 0.0 else (TotalEvents(bs) as real) / (total as real)
  {
    if bs != [] {
      SharesAreParts(bs[1..], total);
      assert Shares(bs, total)[1..] == Shares(bs[1..], total);
      if total > 0 {
        AddQuotients(bs[0].totalEvents as real, TotalEvents(bs[1..]) as real, total as real);
      }
    }
  }

  lemma AddQuotients(a: real, b: real, d: real)
    requires d > 0.0
    ensures a / d + b / d == (a + b) / d
  {
  }

  /** The scores weighted by the shares shown beside them. */
  function Blend(bs: seq<SourceBreakdown>): real {
    if bs == [] then 0.0 else bs[0].score * bs[0].weight + Blend(bs[1..])
  }

  /** The composite is what a reader gets by weighting each row's score with the
      share printed in that row. */
  lemma CompositeIsBlend(bs: seq<SourceBreakdown>)
    ensures Blend(Shares(bs, TotalEvents(bs))) == CompositeScore(bs)
  {
    BlendOfShares(bs, TotalEvents(bs));
  }

  lemma {:induction false} BlendOfShares(bs: seq<SourceBreakdown>, total: nat)
    ensures Blend(Shares(bs, total)) == if total == 0 then 0.0 else WeightedSum(bs) / (total as real)
  {
    if bs != [] {
      BlendOfShares(bs[1..], total);
      assert Shares(bs, total)[1..] == Shares(bs[1..], total);
      if total > 0 {
        var t, n, w, s := total as real, bs[0].totalEvents as real, WeightedSum(bs[1..]), bs[0].score;
        ScaledQuotient(s, n, t);
        AddQuotients(s * n, w, t);
      }
    }
  }

  lemma ScaledQuotient(s: real, n: real, t: real)
    requires t > 0.0
    ensures s * (n / t) == (s * n) / t
  {
    var q := n / t;
    assert q * t == n;
    assert (s * q) * t == s * n;
    assert (s * n) / t == s * q;
  }

  /** If the scores of the sources with events lie between lo and hi, so does the
      composite. */
  lemma CompositeBetween(bs: seq<SourceBreakdown>, lo: real, hi: real)
    requires TotalEvents(bs) > 0
    requires forall b | b in bs && b.totalEvents > 0 :: lo <= b.score <= hi
    ensures lo <= CompositeScore(bs) <= hi
  {
    SumBetween(bs, lo, hi);
    var s, t := WeightedSum(bs), TotalEvents(bs) as real;
    hide WeightedSum, TotalEvents;
    AverageBetween(s, t, lo, hi);
  }

  lemma {:induction false} SumBetween(bs: seq<SourceBreakdown>, lo: real, hi: real)
    requires forall b | b in bs && b.totalEvents > 0 :: lo <= b.score <= hi
    ensures lo * (TotalEvents(bs) as real) <= WeightedSum(bs) <= hi * (TotalEvents(bs) as real)
  {
    if bs != [] {
      SumBetween(bs[1..], lo, hi);
      SumStep(lo, hi, bs[0].score, bs[0].totalEvents, TotalEvents(bs[1..]), WeightedSum(bs[1..]));
    }
  }

  lemma SumStep(lo: real, hi: real, score: real, n: nat, rest: nat, w: real)
    requires lo * (rest as real) <= w <= hi * (rest as real)
    requires n > 0 ==> lo <= score <= hi
    ensures lo * ((n + rest) as real) <= score * (n as real) + w <= hi * ((n + rest) as real)
  {
    var x, y := n as real, rest as real;
    assert (n + rest) as real == x + y;
    if n > 0 {
      ScaleMonotone(lo, score, x);
      ScaleMonotone(score, hi, x);
    }
    assert lo * (x + y) == lo * x + lo * y && hi * (x + y) == hi * x + hi * y;
  }

  lemma AverageBetween(s: real, t: real, lo: real, hi: real)
    requires t > 0.0 && lo * t <= s <= hi * t
    ensures lo <= s / t <= hi
  {
    var q := s / t;
    assert q * t == s;
    ProductOrder(lo, q, t);
    ProductOrder(q, hi, t);
  }

  /** Sources without events change nothing, wherever they are added. */
  lemma {:induction false} QuietSourcesChangeNothing(
    a: seq<SourceBreakdown>, quiet: SourceBreakdown, b: seq<SourceBreakdown>)
    requires quiet.totalEvents == 0
    ensures TotalEvents(a + [quiet] + b) == TotalEvents(a + b)
    ensures WeightedSum(a + [quiet] + b) == WeightedSum(a + b)
    ensures CompositeScore(a + [quiet] + b) == CompositeScore(a + b)
  {
    if a == [] {
      assert a + [quiet] + b == [quiet] + b && a + b == b;
      assert ([quiet] + b)[1..] == b;
      assert quiet.score * 0.0 == 0.0;
    } else {
      QuietSourcesChangeNothing(a[1..], quiet, b);
      assert (a + [quiet] + b)[1..] == a[1..] + [quiet] + b;
      assert (a + b)[1..] == a[1..] + b;
    }
  }
}
