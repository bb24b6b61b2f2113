/** Proactive alerting: a bounded window of recently dispatched ids that keeps a
    set and a queue in step, a bounded dispatch log, and the dispatcher that
    decides which insights go out. */
module Alerts {
  import opened Collections
  import opened Insights

  const MAX_DISPATCHED_IDS: nat := 4096

  function SeverityRank(s: Severity): nat {
    match s
    case Info => 0
    case Warning => 1
    case Critical => 2
  }

  // ---- the dedup window ----

  datatype Window = Window(ids: set<string>, order: seq<string>)

  const EMPTY_WINDOW := Window({}, [])

  /** Mark id as dispatched; false means it had not been (recently) before. */
  function Mark(w: Window, id: string, cap: nat): (Window, bool) {
    if id in w.ids then (w, true)
    else
      var v := if |w.ids| >= cap && |w.order| > 0
               then Window(w.ids - {w.order[0]}, w.order[1..]) else w;
      (Window(v.ids + {id}, v.order + [id]), false)
  }

  /** The window after a run of marks and the ids the run lets through, in order. */
  function Marks(w: Window, ids: seq<string>, cap: nat): (Window, seq<string>) {
    if ids == [] then (w, [])
    else
      var last := |ids| - 1;
      var (v, passed) := Marks(w, ids[..last], cap);
      var (final, already) := Mark(v, ids[last], cap);
      (final, if already then passed else passed + [ids[last]])
  }

  ghost function Elements(s: seq<string>): set<string> {
    set x | x in s
  }

  /** The window is the tail of everything let through so far. */
  ghost predicate Tracks(w: Window, passed: seq<string>, cap: nat) {
    && w.order == Last(passed, cap)
    && w.ids == Elements(w.order)
    && NoDuplicates(w.order)
  }

  lemma {:induction false} DistinctCount(s: seq<string>)
    requires NoDuplicates(s)
    ensures |Elements(s)| == |s|
  {
    if s != [] {
      DistinctCount(s[1..]);
      assert Elements(s) == Elements(s[1..]) + {s[0]};
    }
  }

  lemma LastSnoc<T>(s: seq<T>, x: T, n: nat)
    requires n >= 1
    ensures Last(s + [x], n) == (if |Last(s, n)| >= n then Last(s, n)[1..] else Last(s, n)) + [x]
  {
  }

  lemma EvictOldest(order: seq<string>)
    requires NoDuplicates(order) && order != []
    ensures Elements(order[1..]) == Elements(order) - {order[0]} && NoDuplicates(order[1..])
  {
    assert order == [order[0]] + order[1..];
  }

  lemma AppendNew(order: seq<string>, id: string)
    requires NoDuplicates(order) && id !in order
    ensures Elements(order + [id]) == Elements(order) + {id} && NoDuplicates(order + [id])
  {
  }

  lemma ElementsMember(order: seq<string>, id: string)
    ensures id in Elements(order) <==> id in order
  {
  }

  lemma MarkKeepsTracking(w: Window, passed: seq<string>, id: string, cap: nat)
    requires Tracks(w, passed, cap) && cap >= 1
    ensures var (v, already) := Mark(w, id, cap);
            && (already <==> id in Last(passed, cap))
            && Tracks(v, if already then passed else passed + [id], cap)
  {
    ElementsMember(w.order, id);
    if id !in w.ids {
      DistinctCount(w.order);
      LastSnoc(passed, id, cap);
      if |w.ids| >= cap {
        EvictOldest(w.order);
        ElementsMember(w.order[1..], id);
        AppendNew(w.order[1..], id);
      } else {
        AppendNew(w.order, id);
      }
    }
    hide Elements, NoDuplicates, Last;
  }

  /** Any cap + 1 consecutive ids let through are pairwise different. */
  ghost predicate Spaced(passed: seq<string>, cap: nat) {
    forall i, j | 0 <= i < j < |passed| && j - i <= cap :: passed[i] != passed[j]
  }

  lemma SpacedSnoc(passed: seq<string>, id: string, cap: nat)
    requires Spaced(passed, cap) && id !in Last(passed, cap)
    ensures Spaced(passed + [id], cap)
  {
    forall i | 0 <= i < |passed| && |passed| - i <= cap
      ensures passed[i] != id
    {
      assert passed[i] == Last(passed, cap)[i - (|passed| - |Last(passed, cap)|)];
    }
  }

  lemma {:induction false} MarksKeepTracking(ids: seq<string>, cap: nat)
    requires cap >= 1
    ensures var (w, passed) := Marks(EMPTY_WINDOW, ids, cap);
            Tracks(w, passed, cap) && Spaced(passed, cap)
  {
    if ids != [] {
      var last := |ids| - 1;
      var (v, passed) := Marks(EMPTY_WINDOW, ids[..last], cap);
      MarksKeepTracking(ids[..last], cap);
      MarkKeepsTracking(v, passed, ids[last], cap);
      if ids[last] !in Last(passed, cap) {
        SpacedSnoc(passed, ids[last], cap);
      }
    }
  }

  lemma MarksSnoc(w: Window, ids: seq<string>, id: string, cap: nat)
    ensures var (v, passed) := Marks(w, ids, cap);
            var (final, already) := Mark(v, id, cap);
            Marks(w, ids + [id], cap) == (final, if already then passed else passed + [id])
  {
    assert (ids + [id])[..|ids|] == ids;
  }

  /** Over a whole run of marks the set always equals the queue's contents, the
      queue is duplicate-free and is the last min(n, cap) ids let through, and
      an id is let through again only after cap others. */
  lemma WindowOverRuns(ids: seq<string>, cap: nat)
    requires cap >= 1
    ensures var (w, passed) := Marks(EMPTY_WINDOW, ids, cap);
            && w.ids == Elements(w.order)
            && NoDuplicates(w.order)
            && w.order == Last(passed, cap)
            && |w.order| == Min(|passed|, cap)
            && Spaced(passed, cap)
  {
    MarksKeepTracking(ids, cap);
  }

  /** The next id of a run is let through exactly when it is not among the last
      cap that were. */
  lemma PassesIffNotRecent(ids: seq<string>, id: string, cap: nat)
    requires cap >= 1
    ensures var passed := Marks(EMPTY_WINDOW, ids, cap).1;
            Marks(EMPTY_WINDOW, ids + [id], cap).1 == if id in Last(passed, cap) then passed else passed + [id]
  {
    var (w, passed) := Marks(EMPTY_WINDOW, ids, cap);
    MarksKeepTracking(ids, cap);
    MarkKeepsTracking(w, passed, id, cap);
    MarksSnoc(EMPTY_WINDOW, ids, id, cap);
  }

  class DispatchedWindow {
    var ids: set<string>
    var order: seq<string>

    constructor ()
      ensures Value() == EMPTY_WINDOW
    {
      ids, order := {}, [];
    }

    function Value(): Window
      reads this
    {
      Window(ids, order)
    }

    method MarkId(id: string) returns (already: bool)
      modifies this
      ensures (Value(), already) == Mark(old(Value()), id, MAX_DISPATCHED_IDS)
    {
      if id in ids {
        return true;
      }
      if |ids| >= MAX_DISPATCHED_IDS {
        if |order| > 0 {
          var oldest := order[0];
          order := order[1..];
          ids := ids - {oldest};
        }
      }
      ids := ids + {id};
      order := order + [id];
      already := false;
    }
  }

  // ---- the dispatch log ----

  datatype LogEntry = LogEntry(insightId: string, insightKind: string, severity: Severity, sink: string, status: string)

  class AlertLog {
    var entries: seq<LogEntry>
    const cap: nat

    constructor (cap: nat)
      ensures entries == [] && this.cap == Max(cap, 1)
    {
      entries, this.cap := [], Max(cap, 1);
    }

    method Record(entry: LogEntry)
      requires cap >= 1
      modifies this
      ensures |old(entries)| <= cap ==> entries == Last(old(entries) + [entry], cap)
    {
      if |entries| >= cap {
        entries := entries[1..];
      }
      entries := entries + [entry];
    }

    method Recent(limit: nat) returns (r: seq<LogEntry>)
      ensures r == Last(entries, limit)
    {
      var start := if |entries| >= limit then |entries| - limit else 0;
      r := entries[start..];
    }
  }

  // ---- the dispatcher ----

  /** What a sink answers when it is handed an insight; outside the model. */
  type Delivery = (string, Insight) -> string

  function EntriesFor(i: Insight, sinks: seq<string>, deliver: Delivery): seq<LogEntry> {
    seq(|sinks|, k requires 0 <= k < |sinks| =>
      LogEntry(i.id, i.kind, i.severity, sinks[k], deliver(sinks[k], i)))
  }

  predicate Severe(i: Insight, min: Severity) {
    SeverityRank(i.severity) >= SeverityRank(min)
  }

  /** Whether one insight goes out: severe enough and let through by the window. */
  function Consider(w: Window, i: Insight, min: Severity, cap: nat): (Window, bool) {
    if !Severe(i, min) then (w, false)
    else
      var (v, already) := Mark(w, i.id, cap);
      (v, !already)
  }

  /** The insights of a batch that go out. */
  function Dispatched(w: Window, batch: seq<Insight>, min: Severity, cap: nat): (Window, seq<Insight>) {
    if batch == [] then (w, [])
    else
      var last := |batch| - 1;
      var (v, sent) := Dispatched(w, batch[..last], min, cap);
      var (final, goes) := Consider(v, batch[last], min, cap);
      (final, if goes then sent + [batch[last]] else sent)
  }

  /** From an empty window: an insight goes out exactly when it is at least as severe as
      asked, info below warning below critical, and its id is not among the last cap
      that went out. */
  lemma GoesOutExactly(batch: seq<Insight>, i: Insight, min: Severity, cap: nat)
    requires cap >= 1
    ensures var sent := Dispatched(EMPTY_WINDOW, batch, min, cap).1;
            Dispatched(EMPTY_WINDOW, batch + [i], min, cap).1
            == if (min == Info || i.severity == min || i.severity == Critical) && i.id !in Last(Ids(sent), cap)
               then sent + [i] else sent
    ensures Dispatched(EMPTY_WINDOW, [], min, cap).1 == []
  {
    var (v, sent) := Dispatched(EMPTY_WINDOW, batch, min, cap);
    DispatchedAreMarks(EMPTY_WINDOW, batch, min, cap);
    MarksKeepTracking(SevereIds(batch, min), cap);
    MarkKeepsTracking(v, Ids(sent), i.id, cap);
    SevereExactly(i, min);
    hide Marks, Mark, Ids, Last, Tracks, SevereIds, Severe, Spaced;
    DispatchedSnoc(batch, i, min, cap);
    NothingGoesOut(min, cap);
  }

  lemma SevereExactly(i: Insight, min: Severity)
    ensures Severe(i, min) <==> min == Info || i.severity == min || i.severity == Critical
  {
  }

  lemma DispatchedSnoc(batch: seq<Insight>, i: Insight, min: Severity, cap: nat)
    ensures var (v, sent) := Dispatched(EMPTY_WINDOW, batch, min, cap);
            Dispatched(EMPTY_WINDOW, batch + [i], min, cap).1
            == if Consider(v, i, min, cap).1 then sent + [i] else sent
  {
    hide Consider;
    assert (batch + [i])[..|batch|] == batch;
  }

  lemma NothingGoesOut(min: Severity, cap: nat)
    ensures Dispatched(EMPTY_WINDOW, [], min, cap).1 == []
  {
  }

  function LogOf(sent: seq<Insight>, sinks: seq<string>, deliver: Delivery): seq<LogEntry> {
    if sent == [] then [] else LogOf(sent[..|sent| - 1], sinks, deliver) + EntriesFor(sent[|sent| - 1], sinks, deliver)
  }

  function Ids(batch: seq<Insight>): seq<string> {
    seq(|batch|, k requires 0 <= k < |batch| => batch[k].id)
  }

  lemma IdsSnoc(batch: seq<Insight>, i: Insight)
    ensures Ids(batch + [i]) == Ids(batch) + [i.id]
  {
  }

  function SevereIds(batch: seq<Insight>, min: Severity): seq<string> {
    if batch == [] then []
    else SevereIds(batch[..|batch| - 1], min)
         + (if Severe(batch[|batch| - 1], min) then [batch[|batch| - 1].id] else [])
  }

  lemma {:induction false} DispatchedSevere(w: Window, batch: seq<Insight>, min: Severity, cap: nat)
    ensures forall i | i in Dispatched(w, batch, min, cap).1 :: i in batch && Severe(i, min)
  {
    if batch != [] {
      hide Mark, Severe;
      DispatchedSevere(w, batch[..|batch| - 1], min, cap);
    }
  }

  /** One more insight is one more mark, if it is severe. */
  lemma ConsiderIsMark(
    w: Window, sent: seq<Insight>, ids: seq<string>, v: Window, i: Insight, min: Severity, cap: nat)
    requires Marks(w, ids, cap) == (v, Ids(sent))
    ensures var (final, goes) := Consider(v, i, min, cap);
            Marks(w, if Severe(i, min) then ids + [i.id] else ids, cap)
            == (final, Ids(if goes then sent + [i] else sent))
  {
    MarksSnoc(w, ids, i.id, cap);
    IdsSnoc(sent, i);
    hide Mark, Marks, Ids, Severe;
  }

  /** Dispatching is marking the ids of the severe insights, in batch order. */
  lemma {:induction false} DispatchedAreMarks(w: Window, batch: seq<Insight>, min: Severity, cap: nat)
    ensures var (v, sent) := Dispatched(w, batch, min, cap);
            (v, Ids(sent)) == Marks(w, SevereIds(batch, min), cap)
    ensures forall i | i in Dispatched(w, batch, min, cap).1 :: i in batch && Severe(i, min)
  {
    DispatchedSevere(w, batch, min, cap);
    if batch == [] {
      assert Ids([]) == [];
    } else {
      hide Consider, Ids, Severe;
      var front, i := batch[..|batch| - 1], batch[|batch| - 1];
      var (v, sent) := Dispatched(w, front, min, cap);
      var ids := SevereIds(front, min);
      DispatchedAreMarks(w, front, min, cap);
      ConsiderIsMark(w, sent, ids, v, i, min, cap);
      assert SevereIds(batch, min) == if Severe(i, min) then ids + [i.id] else ids;
      hide Marks, SevereIds;
    }
  }

  lemma {:induction false} LogLength(sent: seq<Insight>, sinks: seq<string>, deliver: Delivery)
    ensures |LogOf(sent, sinks, deliver)| == |sent| * |sinks|
  {
    if sent != [] {
      LogLength(sent[..|sent| - 1], sinks, deliver);
      assert (|sent| - 1) * |sinks| + |sinks| == |sent| * |sinks|;
    }
  }

  /** Every dispatch leaves one entry per sink. */
  lemma {:induction false} OneEntryPerSink(sent: seq<Insight>, sinks: seq<string>, deliver: Delivery, k: nat, j: nat)
    requires k < |sent| && j < |sinks|
    ensures |LogOf(sent, sinks, deliver)| == |sent| * |sinks|
    ensures 0 <= k * |sinks| + j < |LogOf(sent, sinks, deliver)|
    ensures var e := LogOf(sent, sinks, deliver)[k * |sinks| + j];
            e == LogEntry(sent[k].id, sent[k].kind, sent[k].severity, sinks[j], deliver(sinks[j], sent[k]))
  {
    var last := |sent| - 1;
    LogLength(sent, sinks, deliver);
    LogLength(sent[..last], sinks, deliver);
    if k < last {
      OneEntryPerSink(sent[..last], sinks, deliver, k, j);
    }
  }

  lemma LogOfSnoc(sent: seq<Insight>, i: Insight, sinks: seq<string>, deliver: Delivery)
    ensures LogOf(sent + [i], sinks, deliver) == LogOf(sent, sinks, deliver) + EntriesFor(i, sinks, deliver)
  {
    assert (sent + [i])[..|sent|] == sent;
  }

  lemma DispatchedStep(w: Window, batch: seq<Insight>, k: nat, min: Severity, cap: nat)
    requires k < |batch|
    ensures var (v, sent) := Dispatched(w, batch[..k], min, cap);
            var (final, goes) := Consider(v, batch[k], min, cap);
            Dispatched(w, batch[..k + 1], min, cap) == (final, if goes then sent + [batch[k]] else sent)
  {
    assert batch[..k + 1][..k] == batch[..k];
  }

  lemma NothingDispatched(w: Window, sinks: seq<string>, min: Severity, deliver: Delivery)
    ensures Dispatched(w, [], min, MAX_DISPATCHED_IDS) == (w, [])
    ensures LogOf([], sinks, deliver) == []
  {
  }

  class AlertDispatcher {
    const sinks: seq<string>
    const minSeverity: Severity
    const dispatched: DispatchedWindow
    const log: AlertLog
    ghost var marked: seq<string>    // every id ever put to the window
    ghost var sent: seq<Insight>     // everything dispatched over the whole run
    ghost var logged: seq<LogEntry>  // every entry ever recorded

    ghost predicate Valid()
      reads this, dispatched, log
    {
      && log.cap == 200
      && (dispatched.Value(), Ids(sent)) == Marks(EMPTY_WINDOW, marked, MAX_DISPATCHED_IDS)
      && log.entries == Last(logged, log.cap)
    }

    constructor (sinks: seq<string>, minSeverity: Severity)
      ensures Valid() && marked == [] && sent == [] && logged == []
      ensures this.sinks == sinks && this.minSeverity == minSeverity
      ensures fresh(dispatched) && fresh(log)
    {
      this.sinks, this.minSeverity := sinks, minSeverity;
      dispatched := new DispatchedWindow();
      log := new AlertLog(200);
      marked, sent, logged := [], [], [];
      new;
      assert Ids([]) == [];
    }

    method Record(i: Insight, sink: string, status: string)
      requires Valid()
      modifies this, log
      ensures Valid() && sent == old(sent) && marked == old(marked)
      ensures logged == old(logged) + [LogEntry(i.id, i.kind, i.severity, sink, status)]
    {
      var entry := LogEntry(i.id, i.kind, i.severity, sink, status);
      log.Record(entry);
      LastOfLast(logged, [entry], log.cap);
      logged := logged + [entry];
    }

    /** Hand one insight to every sink. */
    method FanOut(i: Insight, deliver: Delivery)
      requires Valid()
      modifies this, log
      ensures Valid() && sent == old(sent) && marked == old(marked)
      ensures logged == old(logged) + EntriesFor(i, sinks, deliver)
    {
      for j := 0 to |sinks|
        invariant Valid() && sent == old(sent) && marked == old(marked)
        invariant logged == old(logged) + EntriesFor(i, sinks, deliver)[..j]
      {
        var status := deliver(sinks[j], i);
        Record(i, sinks[j], status);
      }
    }

    /** Dedup and mark one insight if it is severe enough, and send it out unless
        it was recent. */
    method EvaluateOne(i: Insight, deliver: Delivery) returns (goes: bool)
      requires Valid()
      modifies this, dispatched, log
      ensures Valid()
      ensures (dispatched.Value(), goes) == Consider(old(dispatched.Value()), i, minSeverity, MAX_DISPATCHED_IDS)
      ensures goes <==> (minSeverity == Info || i.severity == minSeverity || i.severity == Critical)
                        && i.id !in Last(Ids(old(sent)), 4096)
      ensures sent == if goes then old(sent) + [i] else old(sent)
      ensures logged == if goes then old(logged) + EntriesFor(i, sinks, deliver) else old(logged)
    {
      if SeverityRank(i.severity) < SeverityRank(minSeverity) {
        return false;
      }
      MarksSnoc(EMPTY_WINDOW, marked, i.id, MAX_DISPATCHED_IDS);
      PassesIffNotRecent(marked, i.id, MAX_DISPATCHED_IDS);
      IdsSnoc(sent, i);
      marked := marked + [i.id];
      var already := dispatched.MarkId(i.id);
      if already {
        return false;
      }
      sent := sent + [i];
      FanOut(i, deliver);
      goes := true;
    }

    /** One pass: what goes out is what Dispatched says, each with one entry per
        sink, and the log keeps the last 200 of all entries ever made (Valid). */
    method Evaluate(batch: seq<Insight>, deliver: Delivery)
      requires Valid()
      modifies this, dispatched, log
      ensures Valid()
      ensures var (w, out) := Dispatched(old(dispatched.Value()), batch, minSeverity, MAX_DISPATCHED_IDS);
              && dispatched.Value() == w
              && sent == old(sent) + out
              && logged == old(logged) + LogOf(out, sinks, deliver)
    {
      hide Valid, Dispatched, LogOf, EntriesFor, Consider, Marks, Ids, Last, Severe;
      ghost var w0, sent0, logged0 := dispatched.Value(), sent, logged;
      ghost var out: seq<Insight> := [];
      NothingDispatched(w0, sinks, minSeverity, deliver);
      for k := 0 to |batch|
        invariant Valid()
        invariant (dispatched.Value(), out) == Dispatched(w0, batch[..k], minSeverity, MAX_DISPATCHED_IDS)
        invariant sent == sent0 + out
        invariant logged == logged0 + LogOf(out, sinks, deliver)
      {
        ghost var i := batch[k];
        DispatchedStep(w0, batch, k, minSeverity, MAX_DISPATCHED_IDS);
        var goes := EvaluateOne(batch[k], deliver);
        if goes {
          LogOfSnoc(out, i, sinks, deliver);
          Regroup(sent0, out, [i]);
          Regroup(logged0, LogOf(out, sinks, deliver), EntriesFor(i, sinks, deliver));
          out := out + [i];
        }
      }
      assert batch[..|batch|] == batch;
    }
  }
}
