/** The evolution-aware insight store: versioned upsert, bounded history of the
    versions replaced, and snapshots. */
module InsightStore {
  import opened Collections
  import opened Insights

  const MAX_HISTORY_PER_INSIGHT: nat := 20
  const CONFIDENCE_TOLERANCE: real := 0.01

  // ---- the field-level diff ----

  function When(changed: bool, c: FieldChange): seq<FieldChange> {
    if changed then [c] else []
  }

  function ScoreDiff(prior: Insight, next: Insight): seq<FieldChange> {
    When(prior.severity != next.severity, SeverityChange(prior.severity, next.severity))
    + When(Abs(prior.confidence - next.confidence) > CONFIDENCE_TOLERANCE,
           ConfidenceChange(prior.confidence, next.confidence))
  }

  function TextDiff(prior: Insight, next: Insight): seq<FieldChange> {
    When(prior.title != next.title, TitleChange(prior.title, next.title))
    + When(prior.summary != next.summary, SummaryChange(prior.summary, next.summary))
  }

  function OriginDiff(prior: Insight, next: Insight): seq<FieldChange> {
    When(prior.experimental != next.experimental, ExperimentalChange(prior.experimental, next.experimental))
    + When(prior.producer != next.producer, ProducerChange(prior.producer, next.producer))
  }

  function DiffInsights(prior: Insight, next: Insight): seq<FieldChange> {
    ScoreDiff(prior, next) + TextDiff(prior, next) + OriginDiff(prior, next)
  }

  /** The two agree on everything a diff looks at, up to the tolerance. */
  predicate SameContent(a: Insight, b: Insight) {
    && a.severity == b.severity
    && Abs(a.confidence - b.confidence) <= CONFIDENCE_TOLERANCE
    && a.title == b.title
    && a.summary == b.summary
    && a.experimental == b.experimental
    && a.producer == b.producer
  }

  function ApplyChange(i: Insight, c: FieldChange): Insight {
    match c
    case SeverityChange(_, to) => i.(severity := to)
    case ConfidenceChange(_, to) => i.(confidence := to)
    case TitleChange(_, to) => i.(title := to)
    case SummaryChange(_, to) => i.(summary := to)
    case ExperimentalChange(_, to) => i.(experimental := to)
    case ProducerChange(_, to) => i.(producer := to)
  }

  function Replay(i: Insight, cs: seq<FieldChange>): Insight
    decreases |cs|
  {
    if cs == [] then i else Replay(ApplyChange(i, cs[0]), cs[1..])
  }

  lemma {:induction false} ReplayConcat(i: Insight, a: seq<FieldChange>, b: seq<FieldChange>)
    ensures Replay(i, a + b) == Replay(Replay(i, a), b)
    decreases |a|
  {
    if a == [] {
      assert a + b == b;
    } else {
      assert (a + b)[1..] == a[1..] + b;
      ReplayConcat(ApplyChange(i, a[0]), a[1..], b);
    }
  }

  /** Replaying a diff on the old version rebuilds the new one's content, and
      changes nothing a diff does not look at. */
  lemma ReplayRebuilds(prior: Insight, next: Insight)
    ensures var r := Replay(prior, DiffInsights(prior, next));
            && r == prior.(severity := next.severity, confidence := r.confidence, title := next.title,
                           summary := next.summary, experimental := next.experimental, producer := next.producer)
            && SameContent(r, next)
  {
    hide ScoreDiff, TextDiff, OriginDiff, Replay;
    var r := Replay(prior, ScoreDiff(prior, next));
    ReplayScore(prior, next);
    ReplayText(r, prior, next);
    ReplayOrigin(Replay(r, TextDiff(prior, next)), prior, next);
    ReplayConcat(prior, ScoreDiff(prior, next) + TextDiff(prior, next), OriginDiff(prior, next));
    ReplayConcat(prior, ScoreDiff(prior, next), TextDiff(prior, next));
  }

  lemma ReplayScore(prior: Insight, next: Insight)
    ensures var r := Replay(prior, ScoreDiff(prior, next));
            && r == prior.(severity := next.severity, confidence := r.confidence)
            && Abs(r.confidence - next.confidence) <= CONFIDENCE_TOLERANCE
  {
    var moved := Abs(prior.confidence - next.confidence) > CONFIDENCE_TOLERANCE;
    ReplayConcat(prior, When(prior.severity != next.severity, SeverityChange(prior.severity, next.severity)),
                 When(moved, ConfidenceChange(prior.confidence, next.confidence)));
  }

  lemma ReplayText(i: Insight, prior: Insight, next: Insight)
    requires i.title == prior.title && i.summary == prior.summary
    ensures Replay(i, TextDiff(prior, next)) == i.(title := next.title, summary := next.summary)
  {
    ReplayConcat(i, When(prior.title != next.title, TitleChange(prior.title, next.title)),
                 When(prior.summary != next.summary, SummaryChange(prior.summary, next.summary)));
  }

  lemma ReplayOrigin(i: Insight, prior: Insight, next: Insight)
    requires i.experimental == prior.experimental && i.producer == prior.producer
    ensures Replay(i, OriginDiff(prior, next)) == i.(experimental := next.experimental, producer := next.producer)
  {
    ReplayConcat(i, When(prior.experimental != next.experimental,
                         ExperimentalChange(prior.experimental, next.experimental)),
                 When(prior.producer != next.producer, ProducerChange(prior.producer, next.producer)));
  }

  lemma DiffEmptyIffSameContent(prior: Insight, next: Insight)
    ensures DiffInsights(prior, next) == [] <==> SameContent(prior, next)
  {
  }

  /** c names a field that differs, with the value on either side; confidence differs
      from more than 0.01 on. */
  predicate Tells(prior: Insight, next: Insight, c: FieldChange) {
    match c
    case SeverityChange(a, b) => a == prior.severity && b == next.severity && a != b
    case ConfidenceChange(a, b) => a == prior.confidence && b == next.confidence && (b > a + 0.01 || a > b + 0.01)
    case TitleChange(a, b) => a == prior.title && b == next.title && a != b
    case SummaryChange(a, b) => a == prior.summary && b == next.summary && a != b
    case ExperimentalChange(a, b) => a == prior.experimental && b == next.experimental && a != b
    case ProducerChange(a, b) => a == prior.producer && b == next.producer && a != b
  }

  lemma PartsListExactly(prior: Insight, next: Insight, c: FieldChange)
    ensures c in ScoreDiff(prior, next) <==> (c.SeverityChange? || c.ConfidenceChange?) && Tells(prior, next, c)
    ensures c in TextDiff(prior, next) <==> (c.TitleChange? || c.SummaryChange?) && Tells(prior, next, c)
    ensures c in OriginDiff(prior, next) <==> (c.ExperimentalChange? || c.ProducerChange?) && Tells(prior, next, c)
  {
    WhenHas(c);
  }

  lemma WhenHas(c: FieldChange)
    ensures forall changed, d :: c in When(changed, d) <==> changed && c == d
    ensures forall a: seq<FieldChange>, b: seq<FieldChange> :: c in a + b <==> c in a || c in b
  {
  }

  lemma PartsListOnce(prior: Insight, next: Insight)
    ensures NoDuplicates(ScoreDiff(prior, next))
    ensures NoDuplicates(TextDiff(prior, next))
    ensures NoDuplicates(OriginDiff(prior, next))
  {
  }

  lemma NoDuplicatesJoined<T>(a: seq<T>, b: seq<T>)
    requires NoDuplicates(a) && NoDuplicates(b) && forall x | x in a :: x !in b
    ensures NoDuplicates(a + b)
  {
    forall i, j | 0 <= i < j < |a + b|
      ensures (a + b)[i] != (a + b)[j]
    {
      if i < |a| <= j {
        assert (a + b)[i] in a && (a + b)[j] in b;
      }
    }
  }

  /** A diff lists exactly the fields that differ, once each. */
  lemma DiffListsExactly(prior: Insight, next: Insight, c: FieldChange)
    ensures c in DiffInsights(prior, next) <==> Tells(prior, next, c)
    ensures NoDuplicates(DiffInsights(prior, next))
  {
    hide ScoreDiff, TextDiff, OriginDiff, Tells, NoDuplicates;
    var a, b, d := ScoreDiff(prior, next), TextDiff(prior, next), OriginDiff(prior, next);
    forall x: FieldChange
      ensures x in a <==> (x.SeverityChange? || x.ConfidenceChange?) && Tells(prior, next, x)
      ensures x in b <==> (x.TitleChange? || x.SummaryChange?) && Tells(prior, next, x)
      ensures x in d <==> (x.ExperimentalChange? || x.ProducerChange?) && Tells(prior, next, x)
    {
      PartsListExactly(prior, next, x);
    }
    PartsListOnce(prior, next);
    NoDuplicatesJoined(a, b);
    NoDuplicatesJoined(a + b, d);
  }

  // ---- upsert as a function of the store ----

  datatype Store = Store(inner: map<string, Insight>, history: map<string, seq<Revision>>)

  const EMPTY := Store(map[], map[])

  function HistoryOf(s: Store, id: string): seq<Revision> {
    if id in s.history then s.history[id] else []
  }

  function Fresh(i: Insight): Insight {
    i.(firstSeen := if i.firstSeen.None? then Some(i.generatedAt) else i.firstSeen,
       version := 1, evolution := None)
  }

  function Evolved(prior: Insight, i: Insight): Insight {
    i.(firstSeen := if prior.firstSeen.Some? then prior.firstSeen else Some(prior.generatedAt),
       version := prior.version + 1,
       evolution := Some(EvolutionDiff(i.id, prior.version, prior.version + 1, prior.generatedAt, i.generatedAt,
                                       DiffInsights(prior, i))))
  }

  function Archive(prior: Insight): Revision {
    Revision(prior.version, prior.generatedAt, prior, None)
  }

  function Upsert(s: Store, i: Insight): Store {
    if i.id !in s.inner then s.(inner := s.inner[i.id := Fresh(i)])
    else if DiffInsights(s.inner[i.id], i) == [] then s
    else
      var prior := s.inner[i.id];
      Store(s.inner[i.id := Evolved(prior, i)],
            s.history[i.id := Last(HistoryOf(s, i.id) + [Archive(prior)], MAX_HISTORY_PER_INSIGHT)])
  }

  function Run(s: Store, batch: seq<Insight>): Store
    decreases |batch|
  {
    if batch == [] then s else Run(Upsert(s, batch[0]), batch[1..])
  }

  /** Nothing happens to other ids, nor to an id whose stored content is the same. */
  lemma UpsertTouchesOne(s: Store, i: Insight, id: string)
    requires id != i.id || (id in s.inner && SameContent(s.inner[id], i))
    ensures (id in Upsert(s, i).inner <==> id in s.inner)
    ensures (id in s.inner ==> Upsert(s, i).inner[id] == s.inner[id])
    ensures HistoryOf(Upsert(s, i), id) == HistoryOf(s, id)
  {
    if id == i.id {
      DiffEmptyIffSameContent(s.inner[id], i);
    }
  }

  /** A new insight is stored as it came, as version 1, with no evolution and nothing
      archived; it is first seen when it says so or else when it was generated. */
  lemma UpsertStoresNew(s: Store, i: Insight)
    requires i.id !in s.inner
    ensures var r := Upsert(s, i);
            && i.id in r.inner
            && r.inner[i.id] == i.(firstSeen := r.inner[i.id].firstSeen, version := 1, evolution := None)
            && r.inner[i.id].firstSeen == (if i.firstSeen.Some? then i.firstSeen else Some(i.generatedAt))
            && r.history == s.history
  {
  }

  /** A changed insight is stored as it came too, as the next version, first seen when
      the one before was, with the diff from that one between their two times; and that
      one, as it was stored, is the newest entry of at most twenty kept. */
  lemma UpsertStoresChanged(s: Store, i: Insight)
    requires i.id in s.inner && !SameContent(s.inner[i.id], i)
    ensures var r, prior := Upsert(s, i), s.inner[i.id];
            && i.id in r.inner
            && var stored := r.inner[i.id];
               && stored == i.(firstSeen := stored.firstSeen, version := prior.version + 1,
                               evolution := stored.evolution)
               && stored.firstSeen == (if prior.firstSeen.Some? then prior.firstSeen else Some(prior.generatedAt))
               && stored.evolution.Some?
               && stored.evolution.value == EvolutionDiff(i.id, prior.version, prior.version + 1,
                                                          prior.generatedAt, i.generatedAt, DiffInsights(prior, i))
    ensures var h, before := HistoryOf(Upsert(s, i), i.id), HistoryOf(s, i.id);
            && |h| == Min(|before| + 1, 20)
            && h[|h| - 1] == Revision(s.inner[i.id].version, s.inner[i.id].generatedAt, s.inner[i.id], None)
            && h[..|h| - 1] == before[|before| + 1 - |h|..]
  {
    DiffEmptyIffSameContent(s.inner[i.id], i);
  }

  // ---- what every reachable store satisfies ----

  /** next is the version made from prior. */
  ghost predicate Succeeds(prior: Insight, next: Insight) {
    && next.id == prior.id
    && next.version == prior.version + 1
    && next.firstSeen == prior.firstSeen
    && next.evolution == Some(EvolutionDiff(next.id, prior.version, next.version, prior.generatedAt, next.generatedAt,
                                            DiffInsights(prior, next)))
    && !SameContent(prior, next)
  }

  /** The versions in h are exactly the ones just before the current one, as
      many as the cap allows. */
  ghost predicate Numbered(h: seq<Revision>, current: Insight) {
    && current.version >= 1
    && |h| == Min(current.version - 1, MAX_HISTORY_PER_INSIGHT)
    && (forall j | 0 <= j < |h| ::
          && h[j].version == h[j].snapshot.version == current.version - |h| + j
          && h[j].generatedAt == h[j].snapshot.generatedAt
          && h[j].diffFromPrevious == None)
  }

  /** The version that follows entry j of h. */
  function Following(h: seq<Revision>, current: Insight, j: nat): Insight
    requires j < |h|
  {
    if j + 1 < |h| then h[j + 1].snapshot else current
  }

  /** Version 1 carries no evolution; every other version carries the nonempty one
      that led to it from the version before, under its own id and time. */
  ghost predicate Carries(i: Insight) {
    && i.version >= 1
    && if i.version == 1 then i.evolution == None
       else
         && i.evolution.Some?
         && var e := i.evolution.value;
            && e.insightId == i.id
            && e.fromVersion + 1 == e.toVersion == i.version
            && e.toGeneratedAt == i.generatedAt
            && e.changes != []
  }

  /** Every version kept carries its evolution, and where its predecessor is kept
      too that is the diff between the two. */
  ghost predicate Linked(h: seq<Revision>, current: Insight) {
    && current.firstSeen.Some?
    && Carries(current)
    && (forall j | 0 <= j < |h| :: Carries(h[j].snapshot) && Succeeds(h[j].snapshot, Following(h, current, j)))
  }

  ghost predicate Inv(s: Store) {
    && s.history.Keys <= s.inner.Keys
    && (forall id | id in s.inner ::
          && s.inner[id].id == id
          && Numbered(HistoryOf(s, id), s.inner[id])
          && Linked(HistoryOf(s, id), s.inner[id]))
  }

  lemma EvolveKeepsNumbers(h: seq<Revision>, prior: Insight, i: Insight)
    requires Numbered(h, prior)
    ensures Numbered(Last(h + [Archive(prior)], MAX_HISTORY_PER_INSIGHT), Evolved(prior, i))
  {
  }

  lemma EvolvedSucceeds(prior: Insight, i: Insight)
    requires i.id == prior.id && prior.firstSeen.Some? && DiffInsights(prior, i) != []
    ensures Succeeds(prior, Evolved(prior, i))
    ensures prior.version >= 1 ==> Carries(Evolved(prior, i)) && Evolved(prior, i).firstSeen.Some?
  {
    assert DiffInsights(prior, Evolved(prior, i)) == DiffInsights(prior, i);
    DiffEmptyIffSameContent(prior, Evolved(prior, i));
  }

  lemma EvolveKeepsLink(h: seq<Revision>, prior: Insight, i: Insight, kept: seq<Revision>, j: nat)
    requires Linked(h, prior) && i.id == prior.id && DiffInsights(prior, i) != []
    requires |kept| <= |h| + 1 && kept == (h + [Archive(prior)])[|h| + 1 - |kept|..]
    requires j < |kept|
    ensures Carries(kept[j].snapshot)
    ensures Succeeds(kept[j].snapshot, Following(kept, Evolved(prior, i), j))
  {
    var k := |h| + 1 - |kept| + j;
    if j + 1 < |kept| {
      assert kept[j] == h[k];
      assert Following(kept, Evolved(prior, i), j) == Following(h, prior, k);
    } else {
      assert kept[j] == Archive(prior);
      EvolvedSucceeds(prior, i);
    }
  }

  lemma EvolveKeepsLinks(h: seq<Revision>, prior: Insight, i: Insight, cap: nat)
    requires Linked(h, prior) && i.id == prior.id && DiffInsights(prior, i) != []
    requires 1 <= cap && prior.version >= 1
    ensures Linked(Last(h + [Archive(prior)], cap), Evolved(prior, i))
  {
    hide Succeeds, Carries, DiffInsights;
    var kept := Last(h + [Archive(prior)], cap);
    EvolvedSucceeds(prior, i);
    forall j | 0 <= j < |kept|
      ensures Carries(kept[j].snapshot) && Succeeds(kept[j].snapshot, Following(kept, Evolved(prior, i), j))
    {
      EvolveKeepsLink(h, prior, i, kept, j);
    }
  }

  lemma FreshKeepsInv(i: Insight)
    ensures Numbered([], Fresh(i)) && Linked([], Fresh(i))
  {
  }

  lemma UpsertKeepsInv(s: Store, i: Insight)
    requires Inv(s)
    ensures Inv(Upsert(s, i))
  {
    hide DiffInsights, Numbered, Linked, Last;
    var s' := Upsert(s, i);
    if i.id !in s.inner {
      FreshKeepsInv(i);
    } else if DiffInsights(s.inner[i.id], i) != [] {
      EvolveKeepsNumbers(HistoryOf(s, i.id), s.inner[i.id], i);
      NumberedVersion(HistoryOf(s, i.id), s.inner[i.id]);
      EvolveKeepsLinks(HistoryOf(s, i.id), s.inner[i.id], i, MAX_HISTORY_PER_INSIGHT);
    }
    forall id | id in s'.inner && id != i.id
      ensures HistoryOf(s', id) == HistoryOf(s, id)
    {
    }
  }

  lemma NumberedVersion(h: seq<Revision>, current: Insight)
    requires Numbered(h, current)
    ensures current.version >= 1
  {
  }

  lemma {:induction false} RunKeepsInv(s: Store, batch: seq<Insight>)
    requires Inv(s)
    ensures Inv(Run(s, batch))
    decreases |batch|
  {
    if batch != [] {
      UpsertKeepsInv(s, batch[0]);
      RunKeepsInv(Upsert(s, batch[0]), batch[1..]);
    }
  }

  /** After any sequence of upserts, an id at version v has exactly the last
      min(v - 1, 20) versions before v in its history, oldest first. Each, like the
      current one, has its own number and the evolution that led to it, the oldest
      kept included, and the diff between neighbours is that evolution. */
  lemma HistoryIsContiguous(batch: seq<Insight>, id: string)
    requires id in Run(EMPTY, batch).inner
    ensures var s := Run(EMPTY, batch);
            var h := HistoryOf(s, id);
            var v := s.inner[id].version;
            && v >= 1
            && |h| == Min(v - 1, 20)
            && (forall j | 0 <= j < |h| :: h[j].version == h[j].snapshot.version == v - |h| + j)
            && Carries(s.inner[id]) && (forall j | 0 <= j < |h| :: Carries(h[j].snapshot))
            && (forall j | 0 <= j < |h| :: Succeeds(h[j].snapshot, Following(h, s.inner[id], j)))
  {
    RunKeepsInv(EMPTY, batch);
  }

  // ---- the bounded history against one that never forgets ----

  function UpsertUncapped(s: Store, i: Insight): Store {
    if i.id !in s.inner then s.(inner := s.inner[i.id := Fresh(i)])
    else if DiffInsights(s.inner[i.id], i) == [] then s
    else
      var prior := s.inner[i.id];
      Store(s.inner[i.id := Evolved(prior, i)],
            s.history[i.id := HistoryOf(s, i.id) + [Archive(prior)]])
  }

  function RunUncapped(s: Store, batch: seq<Insight>): Store
    decreases |batch|
  {
    if batch == [] then s else RunUncapped(UpsertUncapped(s, batch[0]), batch[1..])
  }

  /** All versions before the current one are in h, linked. */
  ghost predicate Complete(h: seq<Revision>, current: Insight) {
    && current.version == |h| + 1
    && (forall j | 0 <= j < |h| :: h[j].version == h[j].snapshot.version == j + 1)
    && Linked(h, current)
  }

  ghost predicate AllComplete(u: Store) {
    && u.history.Keys <= u.inner.Keys
    && forall id | id in u.inner :: u.inner[id].id == id && Complete(HistoryOf(u, id), u.inner[id])
  }

  /** s keeps of u's histories the last 20 entries. */
  ghost predicate Truncates(s: Store, u: Store) {
    && s.inner == u.inner
    && forall id :: HistoryOf(s, id) == Last(HistoryOf(u, id), MAX_HISTORY_PER_INSIGHT)
  }

  lemma UpsertTruncates(s: Store, u: Store, i: Insight)
    requires Truncates(s, u)
    ensures Truncates(Upsert(s, i), UpsertUncapped(u, i))
  {
    hide DiffInsights, Fresh, Evolved, Last;
    var s', u' := Upsert(s, i), UpsertUncapped(u, i);
    forall id
      ensures HistoryOf(s', id) == Last(HistoryOf(u', id), MAX_HISTORY_PER_INSIGHT)
    {
      assert HistoryOf(s, id) == Last(HistoryOf(u, id), MAX_HISTORY_PER_INSIGHT);
      if id == i.id && i.id in s.inner && DiffInsights(s.inner[i.id], i) != [] {
        LastOfLast(HistoryOf(u, i.id), [Archive(s.inner[i.id])], MAX_HISTORY_PER_INSIGHT);
      } else {
        assert HistoryOf(s', id) == HistoryOf(s, id) && HistoryOf(u', id) == HistoryOf(u, id);
      }
    }
  }

  lemma CompleteGrows(h: seq<Revision>, prior: Insight, i: Insight)
    requires Complete(h, prior) && i.id == prior.id && DiffInsights(prior, i) != []
    ensures Complete(h + [Archive(prior)], Evolved(prior, i))
  {
    var all := h + [Archive(prior)];
    EvolveKeepsLinks(h, prior, i, |all|);
    assert Last(all, |all|) == all;
    hide DiffInsights, Linked;
  }

  lemma FreshIsComplete(i: Insight)
    ensures Complete([], Fresh(i))
  {
  }

  lemma UpsertKeepsComplete(u: Store, i: Insight)
    requires AllComplete(u)
    ensures AllComplete(UpsertUncapped(u, i))
  {
    hide DiffInsights, Complete;
    var u' := UpsertUncapped(u, i);
    if i.id !in u.inner {
      FreshIsComplete(i);
    } else if DiffInsights(u.inner[i.id], i) != [] {
      CompleteGrows(HistoryOf(u, i.id), u.inner[i.id], i);
    }
    forall id | id != i.id
      ensures HistoryOf(u', id) == HistoryOf(u, id)
    {
    }
  }

  lemma {:induction false} RunTruncates(s: Store, u: Store, batch: seq<Insight>)
    requires Truncates(s, u) && AllComplete(u)
    ensures Truncates(Run(s, batch), RunUncapped(u, batch)) && AllComplete(RunUncapped(u, batch))
    decreases |batch|
  {
    hide Upsert, UpsertUncapped, Truncates, AllComplete;
    if batch != [] {
      UpsertTruncates(s, u, batch[0]);
      UpsertKeepsComplete(u, batch[0]);
      RunTruncates(Upsert(s, batch[0]), UpsertUncapped(u, batch[0]), batch[1..]);
    }
  }

  /** Bounding the history loses old entries and nothing else: the store is the one
      that never forgets with each history cut to its last 20 entries, and there
      every version from 1 on is linked to the one before, so the evolution that
      the oldest kept entry carries is the diff from the last one dropped. */
  lemma HistoryIsTail(batch: seq<Insight>, id: string)
    requires id in Run(EMPTY, batch).inner
    ensures var s, u := Run(EMPTY, batch), RunUncapped(EMPTY, batch);
            var all := HistoryOf(u, id);
            && s.inner == u.inner
            && HistoryOf(s, id) == Last(all, 20)
            && |all| == s.inner[id].version - 1
            && (forall j | 0 <= j < |all| :: all[j].version == all[j].snapshot.version == j + 1)
            && (forall j | 0 <= j < |all| :: Succeeds(all[j].snapshot, Following(all, s.inner[id], j)))
  {
    RunTruncates(EMPTY, EMPTY, batch);
    hide Run, RunUncapped, Succeeds, Carries, Last;
  }

  /** Each archived version, replayed with the diff attached to its successor,
      gives the successor's content. */
  lemma EvolutionsReplay(batch: seq<Insight>, id: string, j: nat)
    requires id in Run(EMPTY, batch).inner
    requires j < |HistoryOf(Run(EMPTY, batch), id)|
    ensures var s := Run(EMPTY, batch);
            var h := HistoryOf(s, id);
            var next := Following(h, s.inner[id], j);
            next.evolution.Some? && SameContent(Replay(h[j].snapshot, next.evolution.value.changes), next)
  {
    HistoryIsContiguous(batch, id);
    var s := Run(EMPTY, batch);
    var h := HistoryOf(s, id);
    assert Succeeds(h[j].snapshot, Following(h, s.inner[id], j));
    ReplayRebuilds(h[j].snapshot, Following(h, s.inner[id], j));
  }

  // ---- first_seen is set once ----

  lemma UpsertKeepsFirstSeen(s: Store, i: Insight, id: string)
    requires Inv(s) && id in s.inner
    ensures id in Upsert(s, i).inner
    ensures Upsert(s, i).inner[id].firstSeen == s.inner[id].firstSeen
    ensures Upsert(s, i).inner[id].version >= s.inner[id].version
  {
    hide DiffInsights, Numbered, Last, Archive;
  }

  lemma {:induction false} FirstSeenKept(s: Store, batch: seq<Insight>, id: string)
    requires Inv(s) && id in s.inner
    ensures id in Run(s, batch).inner
    ensures Run(s, batch).inner[id].firstSeen == s.inner[id].firstSeen
    ensures Run(s, batch).inner[id].version >= s.inner[id].version
    decreases |batch|
  {
    hide Inv, Upsert;
    if batch != [] {
      UpsertKeepsInv(s, batch[0]);
      UpsertKeepsFirstSeen(s, batch[0], id);
      FirstSeenKept(Upsert(s, batch[0]), batch[1..], id);
    }
  }

  // ---- the store tracks the latest upsert ----

  lemma UpsertTracks(s: Store, i: Insight)
    requires Inv(s)
    ensures i.id in Upsert(s, i).inner && SameContent(Upsert(s, i).inner[i.id], i)
  {
    hide DiffInsights, Inv, Last, Archive;
    if i.id in s.inner {
      DiffEmptyIffSameContent(s.inner[i.id], i);
    }
  }

  lemma {:induction false} OthersLeaveAlone(s: Store, batch: seq<Insight>, id: string)
    requires id in s.inner
    requires forall k | 0 <= k < |batch| :: batch[k].id != id
    ensures id in Run(s, batch).inner && Run(s, batch).inner[id] == s.inner[id]
    decreases |batch|
  {
    if batch != [] {
      OthersLeaveAlone(Upsert(s, batch[0]), batch[1..], id);
    }
  }

  lemma {:induction false} RunConcat(s: Store, a: seq<Insight>, b: seq<Insight>)
    ensures Run(s, a + b) == Run(Run(s, a), b)
    decreases |a|
  {
    if a == [] {
      assert a + b == b;
    } else {
      assert (a + b)[1..] == a[1..] + b;
      RunConcat(Upsert(s, a[0]), a[1..], b);
    }
  }

  /** Once an id is stored, no later upsert moves its first_seen. */
  lemma FirstSeenNeverChanges(a: seq<Insight>, b: seq<Insight>, id: string)
    requires id in Run(EMPTY, a).inner
    ensures id in Run(EMPTY, a + b).inner
    ensures Run(EMPTY, a + b).inner[id].firstSeen == Run(EMPTY, a).inner[id].firstSeen
    ensures Run(EMPTY, a).inner[id].firstSeen.Some?
  {
    RunKeepsInv(EMPTY, a);
    RunConcat(EMPTY, a, b);
    FirstSeenKept(Run(EMPTY, a), b, id);
  }

  /** Take the last upsert of an id in any run: what is stored has its severity,
      title, summary, flag and producer, and its confidence within 0.01, however
      many smaller drifts came before. */
  lemma TracksLatest(batch: seq<Insight>, k: nat)
    requires k < |batch|
    requires forall m | k < m < |batch| :: batch[m].id != batch[k].id
    ensures var s := Run(EMPTY, batch);
            batch[k].id in s.inner && SameContent(s.inner[batch[k].id], batch[k])
  {
    var before := Run(EMPTY, batch[..k]);
    RunKeepsInv(EMPTY, batch[..k]);
    UpsertTracks(before, batch[k]);
    OthersLeaveAlone(Upsert(before, batch[k]), batch[k + 1..], batch[k].id);
    RunSplit(EMPTY, batch, k);
  }

  lemma RunSplit(s: Store, batch: seq<Insight>, k: nat)
    requires k < |batch|
    ensures Run(s, batch) == Run(Upsert(Run(s, batch[..k]), batch[k]), batch[k + 1..])
  {
    assert batch == batch[..k] + batch[k..];
    RunConcat(s, batch[..k], batch[k..]);
    assert batch[k..][1..] == batch[k + 1..];
  }

  // ---- the store as the program keeps it ----

  datatype Snapshot = Snapshot(insights: seq<Insight>, history: seq<(string, seq<Revision>)>)

  function Keyed(insights: seq<Insight>): seq<(string, Insight)> {
    seq(|insights|, i requires 0 <= i < |insights| => (insights[i].id, insights[i]))
  }

  class InsightStore {
    var inner: map<string, Insight>
    var history: map<string, seq<Revision>>

    constructor ()
      ensures Value() == EMPTY
    {
      inner, history := map[], map[];
    }

    function Value(): Store
      reads this
    {
      Store(inner, history)
    }

    method UpsertOne(insight: Insight) returns (version: nat)
      modifies this
      ensures Value() == Upsert(old(Value()), insight)
      ensures insight.id in inner && version == inner[insight.id].version
    {
      var id := insight.id;
      if id in inner {
        var prior := inner[id];
        var changes := DiffInsights(prior, insight);
        if |changes| == 0 {
          return prior.version;
        }
        var toVersion := prior.version + 1;
        var evolved := insight;
        evolved := evolved.(firstSeen := if prior.firstSeen.Some? then prior.firstSeen else Some(prior.generatedAt));
        evolved := evolved.(version := toVersion);
        evolved := evolved.(evolution := Some(EvolutionDiff(
          id, prior.version, toVersion, prior.generatedAt, insight.generatedAt, changes)));
        var entry := if id in history then history[id] else [];
        entry := entry + [Revision(prior.version, prior.generatedAt, prior, None)];
        if |entry| > MAX_HISTORY_PER_INSIGHT {
          var excess := |entry| - MAX_HISTORY_PER_INSIGHT;
          entry := entry[excess..];
        }
        history := history[id := entry];
        inner := inner[id := evolved];
        version := toVersion;
      } else {
        var fresher := insight;
        if fresher.firstSeen.None? {
          fresher := fresher.(firstSeen := Some(insight.generatedAt));
        }
        fresher := fresher.(version := 1, evolution := None);
        inner := inner[id := fresher];
        version := 1;
      }
    }

    method UpsertMany(insights: seq<Insight>)
      modifies this
      ensures Value() == Run(old(Value()), insights)
    {
      for k := 0 to |insights|
        invariant Value() == Run(old(Value()), insights[..k])
      {
        var _ := UpsertOne(insights[k]);
        assert insights[..k + 1] == insights[..k] + [insights[k]];
        RunConcat(old(Value()), insights[..k], [insights[k]]);
      }
      assert insights[..|insights|] == insights;
    }

    /** Newest first, at most limit of them. */
    method History(id: string, limit: nat) returns (r: seq<Revision>)
      ensures var h := HistoryOf(Value(), id);
              && |r| == Min(|h|, limit)
              && forall j | 0 <= j < |r| :: r[j] == h[|h| - 1 - j]
    {
      r := [];
      var h := if id in history then history[id] else [];
      var k := |h|;
      while k > 0 && |r| < limit
        invariant 0 <= k && k + |r| == |h| && |r| <= limit
        invariant forall j | 0 <= j < |r| :: r[j] == h[|h| - 1 - j]
      {
        k := k - 1;
        r := r + [h[k]];
      }
    }

    method TakeSnapshot() returns (snap: Snapshot)
      ensures Inv(Value()) ==> Lists(Keyed(snap.insights), inner) && NoDuplicates(Keyed(snap.insights))
      ensures Lists(snap.history, history) && NoDuplicates(snap.history)
    {
      var batch := ListMap(inner);
      var hs := ListMap(history);
      snap := Snapshot(seq(|batch|, i requires 0 <= i < |batch| => batch[i].1), hs);
      assert Inv(Value()) ==> Keyed(snap.insights) == batch;
    }

    method Restore(snap: Snapshot)
      modifies this
      ensures inner == InsertAll(old(inner), Keyed(snap.insights))
      ensures history == InsertAll(old(history), snap.history)
    {
      for k := 0 to |snap.insights|
        invariant inner == InsertAll(old(inner), Keyed(snap.insights[..k])) && history == old(history)
      {
        var i := snap.insights[k];
        InsertAllSnoc(old(inner), Keyed(snap.insights[..k]), (i.id, i));
        assert Keyed(snap.insights[..k + 1]) == Keyed(snap.insights[..k]) + [(i.id, i)];
        inner := inner[i.id := i];
      }
      assert snap.insights[..|snap.insights|] == snap.insights;
      for k := 0 to |snap.history|
        invariant inner == InsertAll(old(inner), Keyed(snap.insights))
        invariant history == InsertAll(old(history), snap.history[..k])
      {
        var entry := snap.history[k];
        InsertAllSnoc(old(history), snap.history[..k], entry);
        assert snap.history[..k + 1] == snap.history[..k] + [entry];
        history := history[entry.0 := entry.1];
      }
      assert snap.history[..|snap.history|] == snap.history;
    }

    /** A snapshot of a reachable store, restored into an empty one, is the same
        store. */
    method Reboot() returns (next: InsightStore)
      requires Inv(Value())
      ensures fresh(next) && next.Value() == Value()
    {
      var snap := TakeSnapshot();
      next := new InsightStore();
      next.Restore(snap);
      ListingRebuilds(Keyed(snap.insights), inner);
      ListingRebuilds(snap.history, history);
    }
  }
}
