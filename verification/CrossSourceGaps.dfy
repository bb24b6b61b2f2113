/** The gap detector: dates on which a press release and a data row do not meet,
    and how the silence index reads what it reports. */
module CrossSourceGaps {
  import opened Collections
  import opened Insights
  import opened Silence

  const MAX_EVIDENCE: nat := 10

  /** count is the number of unmatched dates, of which the evidence shows some. */
  datatype Finding = Finding(count: nat, confidence: real, evidence: seq<EvidenceRef>)

  /** f reports the unmatched dates and shows ten different ones of them, or all
      when there are fewer, each under the given context. Which ten is left open:
      the program takes the first ten of a hash set. */
  ghost predicate Reports(f: Finding, unmatched: set<string>, context: string, json: string -> Bytes) {
    && f.count == |unmatched|
    && |f.evidence| == Min(MAX_EVIDENCE, |unmatched|)
    && (forall i, j | 0 <= i < j < |f.evidence| :: f.evidence[i].recordId != f.evidence[j].recordId)
    && (forall e | e in f.evidence ::
          e.recordId in unmatched && e == EvidenceRef(e.recordId, "date", json(e.recordId), Some(context)))
  }

  /** What a report shows: as many of the unmatched dates as there are, but at most ten,
      each once, as its record id and its value. */
  lemma ShownDates(f: Finding, unmatched: set<string>, context: string, json: string -> Bytes)
    requires Reports(f, unmatched, context, json)
    ensures f.count == |unmatched| && |f.evidence| == (if |unmatched| < 10 then |unmatched| else 10)
    ensures forall i | 0 <= i < |f.evidence| ::
              var e := f.evidence[i];
              && e.recordId in unmatched
              && e.field == "date" && e.value == json(e.recordId) && e.context == Some(context)
              && forall j | 0 <= j < i :: f.evidence[j].recordId != e.recordId
    ensures |unmatched| <= 10 ==> (set e | e in f.evidence :: e.recordId) == unmatched
  {
    forall i | 0 <= i < |f.evidence|
      ensures f.evidence[i] in f.evidence
    {
    }
    var ids := seq(|f.evidence|, i requires 0 <= i < |f.evidence| => f.evidence[i].recordId);
    DistinctFill(ids, unmatched);
    assert (set e | e in f.evidence :: e.recordId) == (set d | d in ids) by {
      forall d | d in ids
        ensures exists e :: e in f.evidence && e.recordId == d
      {
        var i :| 0 <= i < |ids| && ids[i] == d;
        assert f.evidence[i] in f.evidence;
      }
      forall e | e in f.evidence
        ensures e.recordId in ids
      {
        var i :| 0 <= i < |f.evidence| && f.evidence[i] == e;
        assert ids[i] == e.recordId;
      }
    }
  }

  /** As many different members as a set has are all of it. */
  lemma {:induction false} DistinctFill(ids: seq<string>, whole: set<string>)
    requires NoDuplicates(ids) && forall d | d in ids :: d in whole
    ensures |ids| <= |whole|
    ensures |ids| == |whole| ==> (set d | d in ids) == whole
  {
    if ids == [] {
      assert |whole| == 0 ==> whole == {};
    } else {
      var d := ids[0];
      assert forall x | x in ids[1..] :: x != d;
      DistinctFill(ids[1..], whole - {d});
      assert (set x | x in ids) == (set x | x in ids[1..]) + {d};
    }
  }

  method PickEvidence(unmatched: set<string>, context: string, json: string -> Bytes) returns (ev: seq<EvidenceRef>)
    ensures |ev| == Min(MAX_EVIDENCE, |unmatched|)
    ensures forall i, j | 0 <= i < j < |ev| :: ev[i].recordId != ev[j].recordId
    ensures forall e | e in ev ::
              e.recordId in unmatched && e == EvidenceRef(e.recordId, "date", json(e.recordId), Some(context))
  {
    ev := [];
    var rest := unmatched;
    while rest != {} && |ev| < MAX_EVIDENCE
      invariant rest <= unmatched && |rest| + |ev| == |unmatched| && |ev| <= MAX_EVIDENCE
      invariant forall e | e in ev :: e.recordId !in rest
      invariant forall i, j | 0 <= i < j < |ev| :: ev[i].recordId != ev[j].recordId
      invariant forall e | e in ev ::
                  e.recordId in unmatched && e == EvidenceRef(e.recordId, "date", json(e.recordId), Some(context))
      decreases |rest|
    {
      var d :| d in rest;
      rest := rest - {d};
      assert forall i | 0 <= i < |ev| :: ev[i] in ev;
      ev := ev + [EvidenceRef(d, "date", json(d), Some(context))];
    }
  }

  /** One finding for each direction in which some date is unmatched, press
      releases first: dates of the one kind that are not among those of the other. */
  method DetectCrossSourceGaps(pressDates: seq<string>, dataDates: seq<string>, json: string -> Bytes)
    returns (fs: seq<Finding>)
    ensures var p := set d | d in pressDates && d !in dataDates;
            var q := set d | d in dataDates && d !in pressDates;
            && |fs| == One(p != {}) + One(q != {})
            && (p != {} ==>
                  Reports(fs[0], p, "press release date without matching data", json) && fs[0].confidence == 0.6)
            && (q != {} ==>
                  && Reports(fs[|fs| - 1], q, "data date without matching press release", json)
                  && fs[|fs| - 1].confidence == 0.5)
  {
    fs := [];
    var pressOnly := set d | d in pressDates && d !in dataDates;
    if pressOnly != {} {
      var ev := PickEvidence(pressOnly, PRESS_ONLY_CONTEXT, json);
      fs := fs + [Finding(|pressOnly|, 0.6, ev)];
    }
    var dataOnly := set d | d in dataDates && d !in pressDates;
    if dataOnly != {} {
      var ev := PickEvidence(dataOnly, DATA_ONLY_CONTEXT, json);
      fs := fs + [Finding(|dataOnly|, 0.5, ev)];
    }
  }

  // ---- what the index makes of it ----

  /** i carries a finding of this detector, in one direction or the other. */
  ghost predicate FromDetector(i: Insight, json: string -> Bytes) {
    exists f, unmatched, context ::
      && Reports(f, unmatched, context, json) && unmatched != {}
      && (context == PRESS_ONLY_CONTEXT || context == DATA_ONLY_CONTEXT)
      && i.evidence == f.evidence
  }

  lemma ReadAsPressOnly(i: Insight, json: string -> Bytes)
    requires FromDetector(i, json)
    ensures EvidenceSaysPressOnly(i.evidence)
  {
    var f, unmatched, context :|
      && Reports(f, unmatched, context, json) && unmatched != {}
      && (context == PRESS_ONLY_CONTEXT || context == DATA_ONLY_CONTEXT)
      && i.evidence == f.evidence;
    var e := f.evidence[0];
    assert e in f.evidence;
    DetectorGapsReadAsPressOnly(e);
    assert [e][0] == e;
  }

  /** When every gap comes from this detector, data without a press release
      included, the index counts all of them as press-only: no data-only gap and
      no missing day is ever counted, for any source and period. */
  lemma DataOnlyNeverCounted(insights: seq<Insight>, source: string, period: string, json: string -> Bytes)
    requires forall i | i in insights && i.kind == "cross_source_gap" :: FromDetector(i, json)
    ensures var s := V1Signals(insights, source, period, EvidenceSaysPressOnly);
            && s[0].count == Count(insights, Gaps(source, period))
            && s[1].count == 0 && s[3].count == 0
  {
    var press := PressGaps(source, period, EvidenceSaysPressOnly);
    var data := DataGaps(source, period, EvidenceSaysPressOnly);
    forall i | i in insights
      ensures press(i) == Gaps(source, period)(i) && !data(i)
    {
      if i.kind == "cross_source_gap" {
        ReadAsPressOnly(i, json);
      }
    }
    FilterLength(insights, press);
    FilterLength(insights, data);
    CountAgree(insights, press, Gaps(source, period));
    CountNone(insights, data);
  }
}
