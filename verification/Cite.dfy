/** The byte streams fed to the content hashes of a citation. The hash itself is
    a parameter; what is proved is about the streams. */
module Cite {
  import opened Collections
  import opened Quoting
  import opened Sorting

  // ---- the order of byte strings and of rows ----

  /** The named values of one record, as printed. */
  type Fields = seq<(Bytes, Bytes)>

  /** Lexicographic order, a prefix first: the order of strings by their bytes. */
  predicate LexLe(a: Bytes, b: Bytes) {
    a == [] || (b != [] && (a[0] < b[0] || (a[0] == b[0] && LexLe(a[1..], b[1..]))))
  }

  lemma {:induction false} LexTotal(a: Bytes, b: Bytes)
    ensures LexLe(a, b) || LexLe(b, a)
    ensures LexLe(a, b) && LexLe(b, a) ==> a == b
  {
    if a != [] && b != [] {
      LexTotal(a[1..], b[1..]);
      assert a == [a[0]] + a[1..] && b == [b[0]] + b[1..];
    }
  }

  lemma {:induction false} LexTransitive(a: Bytes, b: Bytes, c: Bytes)
    requires LexLe(a, b) && LexLe(b, c)
    ensures LexLe(a, c)
  {
    if a != [] && a[0] == b[0] == c[0] {
      LexTransitive(a[1..], b[1..], c[1..]);
    }
  }

  /** a comes first: it begins b, or has the lesser byte where they first differ. */
  ghost predicate Precedes(a: Bytes, b: Bytes) {
    a <= b || exists k :: 0 <= k < |a| && k < |b| && a[..k] == b[..k] && a[k] < b[k]
  }

  lemma {:induction false} LexLeExactly(a: Bytes, b: Bytes)
    ensures LexLe(a, b) <==> Precedes(a, b)
  {
    if a != [] && b != [] {
      LexLeExactly(a[1..], b[1..]);
      if a[0] == b[0] && Precedes(a[1..], b[1..]) {
        if !(a[1..] <= b[1..]) {
          var k :| 0 <= k < |a[1..]| && k < |b[1..]| && a[1..][..k] == b[1..][..k] && a[1..][k] < b[1..][k];
          assert a[..k + 1] == [a[0]] + a[1..][..k] && b[..k + 1] == [b[0]] + b[1..][..k];
        }
      }
      if a[0] < b[0] {
        assert a[..0] == b[..0];
      }
      if !(a <= b) && Precedes(a, b) {
        var k :| 0 <= k < |a| && k < |b| && a[..k] == b[..k] && a[k] < b[k];
        if k > 0 {
          assert a[0] == a[..k][0] && b[0] == b[..k][0];
          assert a[1..][..k - 1] == a[..k][1..] && b[1..][..k - 1] == b[..k][1..];
        }
      }
    }
  }

  /** A claimed value: record, field, and the value in canonical JSON. */
  datatype Evidence = Evidence(recordId: Bytes, field: Bytes, value: Bytes)

  /** A backing record with its values in canonical form. */
  datatype Record = Record(recordId: Bytes, values: Bytes)

  predicate EvidenceLe(x: Evidence, y: Evidence) {
    if x.recordId != y.recordId then LexLe(x.recordId, y.recordId)
    else if x.field != y.field then LexLe(x.field, y.field)
    else LexLe(x.value, y.value)
  }

  /** Pairs of byte strings, first component first. */
  predicate PairLe(x: (Bytes, Bytes), y: (Bytes, Bytes)) {
    if x.0 != y.0 then LexLe(x.0, y.0) else LexLe(x.1, y.1)
  }

  predicate RecordLe(x: Record, y: Record) {
    PairLe((x.recordId, x.values), (y.recordId, y.values))
  }

  lemma EvidenceLeTransitive(x: Evidence, y: Evidence, z: Evidence)
    requires EvidenceLe(x, y) && EvidenceLe(y, z)
    ensures EvidenceLe(x, z)
  {
    hide LexLe;
    if x.recordId != y.recordId || y.recordId != z.recordId {
      LexTotal(x.recordId, y.recordId);
      if x.recordId != y.recordId && y.recordId != z.recordId {
        LexTransitive(x.recordId, y.recordId, z.recordId);
      }
    } else if x.field != y.field || y.field != z.field {
      LexTotal(x.field, y.field);
      if x.field != y.field && y.field != z.field {
        LexTransitive(x.field, y.field, z.field);
      }
    } else {
      LexTransitive(x.value, y.value, z.value);
    }
  }

  lemma EvidenceLeTotal(x: Evidence, y: Evidence)
    ensures EvidenceLe(x, y) || EvidenceLe(y, x)
    ensures EvidenceLe(x, y) && EvidenceLe(y, x) ==> x == y
  {
    LexTotal(x.recordId, y.recordId);
    LexTotal(x.field, y.field);
    LexTotal(x.value, y.value);
  }

  lemma EvidenceOrdered()
    ensures TotalOrder(EvidenceLe)
  {
    forall x, y
      ensures EvidenceLe(x, y) || EvidenceLe(y, x)
      ensures EvidenceLe(x, y) && EvidenceLe(y, x) ==> x == y
    {
      EvidenceLeTotal(x, y);
    }
    forall x, y, z | EvidenceLe(x, y) && EvidenceLe(y, z)
      ensures EvidenceLe(x, z)
    {
      EvidenceLeTransitive(x, y, z);
    }
  }

  lemma PairLeTransitive(x: (Bytes, Bytes), y: (Bytes, Bytes), z: (Bytes, Bytes))
    requires PairLe(x, y) && PairLe(y, z)
    ensures PairLe(x, z)
  {
    EvidenceLeTransitive(Evidence(x.0, [], x.1), Evidence(y.0, [], y.1), Evidence(z.0, [], z.1));
  }

  lemma PairsOrdered()
    ensures TotalOrder(PairLe)
  {
    forall x, y
      ensures PairLe(x, y) || PairLe(y, x)
      ensures PairLe(x, y) && PairLe(y, x) ==> x == y
    {
      LexTotal(x.0, y.0);
      LexTotal(x.1, y.1);
    }
    forall x, y, z | PairLe(x, y) && PairLe(y, z)
      ensures PairLe(x, z)
    {
      PairLeTransitive(x, y, z);
    }
  }

  lemma RecordsOrdered()
    ensures TotalOrder(RecordLe)
  {
    PairsOrdered();
    forall x, y
      ensures RecordLe(x, y) || RecordLe(y, x)
      ensures RecordLe(x, y) && RecordLe(y, x) ==> x == y
    {
      assert PairLe((x.recordId, x.values), (y.recordId, y.values))
             || PairLe((y.recordId, y.values), (x.recordId, x.values));
    }
    forall x, y, z | RecordLe(x, y) && RecordLe(y, z)
      ensures RecordLe(x, z)
    {
      PairLeTransitive((x.recordId, x.values), (y.recordId, y.values), (z.recordId, z.values));
    }
  }

  // ---- the streams ----

  function EvidenceRow(e: Evidence): Bytes {
    e.recordId + [0] + e.field + [0] + e.value + [0]
  }

  function RecordRow(r: Record): Bytes {
    r.recordId + [1] + r.values + [1]
  }

  function EvidenceStream(es: seq<Evidence>): Bytes {
    if es == [] then [] else EvidenceRow(es[0]) + EvidenceStream(es[1..])
  }

  function RecordStream(rs: seq<Record>): Bytes {
    if rs == [] then [] else RecordRow(rs[0]) + RecordStream(rs[1..])
  }

  function ReproducibilityPreImage(evidence: seq<Evidence>): Bytes {
    EvidenceStream(Sort(evidence, EvidenceLe))
  }

  function EvidencePreImage(evidence: seq<Evidence>, records: seq<Record>): Bytes {
    EvidenceStream(Sort(evidence, EvidenceLe)) + RecordStream(Sort(records, RecordLe))
  }

  // ---- the hashers as the program runs them ----

  class Hasher {
    var fed: Bytes

    constructor ()
      ensures fed == []
    {
      fed := [];
    }

    method Update(bytes: Bytes)
      modifies this
      ensures fed == old(fed) + bytes
    {
      fed := fed + bytes;
    }
  }

  method FeedEvidence(h: Hasher, evidence: seq<Evidence>)
    modifies h
    ensures h.fed == old(h.fed) + EvidenceStream(Sort(evidence, EvidenceLe))
  {
    var canonical := Sort(evidence, EvidenceLe);
    assert canonical[0..] == canonical;
    for i := 0 to |canonical|
      invariant h.fed + EvidenceStream(canonical[i..]) == old(h.fed) + EvidenceStream(canonical)
    {
      assert canonical[i..][1..] == canonical[i + 1..];
      Regroup(h.fed, EvidenceRow(canonical[i]), EvidenceStream(canonical[i + 1..]));
      FeedEvidenceRow(h, canonical[i]);
    }
  }

  method FeedEvidenceRow(h: Hasher, e: Evidence)
    modifies h
    ensures h.fed == old(h.fed) + EvidenceRow(e)
  {
    h.Update(e.recordId);
    h.Update([0]);
    h.Update(e.field);
    h.Update([0]);
    h.Update(e.value);
    h.Update([0]);
  }

  method FeedRecordRow(h: Hasher, r: Record)
    modifies h
    ensures h.fed == old(h.fed) + RecordRow(r)
  {
    h.Update(r.recordId);
    h.Update([1]);
    h.Update(r.values);
    h.Update([1]);
  }

  method ReproducibilityHash(evidence: seq<Evidence>, sha: Bytes -> string) returns (digest: string)
    ensures digest == sha(ReproducibilityPreImage(evidence))
  {
    var h := new Hasher();
    FeedEvidence(h, evidence);
    assert h.fed == ReproducibilityPreImage(evidence);
    digest := sha(h.fed);
  }

  method EvidenceHash(evidence: seq<Evidence>, records: seq<Record>, sha: Bytes -> string) returns (digest: string)
    ensures digest == sha(EvidencePreImage(evidence, records))
  {
    var h := new Hasher();
    FeedEvidence(h, evidence);
    var canonical := Sort(records, RecordLe);
    ghost var head := h.fed;
    assert head == EvidenceStream(Sort(evidence, EvidenceLe));
    assert canonical[0..] == canonical;
    for i := 0 to |canonical|
      invariant h.fed + RecordStream(canonical[i..]) == head + RecordStream(canonical)
    {
      assert canonical[i..][1..] == canonical[i + 1..];
      Regroup(h.fed, RecordRow(canonical[i]), RecordStream(canonical[i + 1..]));
      FeedRecordRow(h, canonical[i]);
    }
    assert canonical[|canonical|..] == [];
    assert h.fed == EvidencePreImage(evidence, records);
    digest := sha(h.fed);
  }

  // ---- the streams are canonical ----

  /** Zero bytes end the parts of an evidence row, so its parts must hold none. */
  ghost predicate FreeEvidence(es: seq<Evidence>) {
    forall e | e in es :: 0 !in e.recordId && 0 !in e.field && 0 !in e.value
  }

  /** Record rows end their parts with byte one, and follow the last zero byte. */
  predicate Free(b: Bytes) {
    0 !in b && 1 !in b
  }

  ghost predicate FreeRecords(rs: seq<Record>) {
    forall r | r in rs :: Free(r.recordId) && Free(r.values)
  }

  /** The first separator ends the first part. */
  lemma FirstPart(a: Bytes, x: Bytes, b: Bytes, y: Bytes, s: byte)
    requires s !in a && s !in b
    requires a + ([s] + x) == b + ([s] + y)
    ensures a == b && x == y
  {
    FirstSeparator(a, [s] + x, b, [s] + y, s);
    assert x == ([s] + x)[1..] && y == ([s] + y)[1..];
  }

  lemma EvidenceRowNests(e: Evidence, rest: Bytes)
    ensures EvidenceRow(e) + rest == e.recordId + ([0] + (e.field + ([0] + (e.value + ([0] + rest)))))
  {
  }

  lemma RecordRowNests(r: Record, rest: Bytes)
    ensures RecordRow(r) + rest == r.recordId + ([1] + (r.values + ([1] + rest)))
  {
  }

  lemma {:induction false} RecordsDecode(r: seq<Record>, s: seq<Record>)
    requires FreeRecords(r) && FreeRecords(s) && RecordStream(r) == RecordStream(s)
    ensures r == s
  {
    if r != [] && s != [] {
      hide RecordRow;
      var x, y := RecordStream(r[1..]), RecordStream(s[1..]);
      RecordRowNests(r[0], x);
      RecordRowNests(s[0], y);
      FirstPart(r[0].recordId, r[0].values + ([1] + x), s[0].recordId, s[0].values + ([1] + y), 1);
      FirstPart(r[0].values, x, s[0].values, y, 1);
      RecordsDecode(r[1..], s[1..]);
      assert r == [r[0]] + r[1..] && s == [s[0]] + s[1..];
    }
  }

  lemma {:induction false} NoZeroInRecords(r: seq<Record>)
    requires FreeRecords(r)
    ensures 0 !in RecordStream(r)
  {
    if r != [] {
      NoZeroInRecords(r[1..]);
    }
  }

  function Combined(e: seq<Evidence>, r: seq<Record>): Bytes {
    EvidenceStream(e) + RecordStream(r)
  }

  lemma CombinedHead(e: seq<Evidence>, r: seq<Record>)
    requires e != []
    ensures Combined(e, r)
            == e[0].recordId + ([0] + (e[0].field + ([0] + (e[0].value + ([0] + Combined(e[1..], r))))))
  {
    hide EvidenceRow, RecordStream;
    Regroup(EvidenceRow(e[0]), EvidenceStream(e[1..]), RecordStream(r));
    EvidenceRowNests(e[0], Combined(e[1..], r));
  }

  lemma EvidenceNeverLooksLikeRecords(e: seq<Evidence>, r: seq<Record>, s: seq<Record>)
    requires e != [] && FreeRecords(s)
    ensures Combined(e, r) != RecordStream(s)
  {
    CombinedHead(e, r);
    NoZeroInRecords(s);
    assert Combined(e, r)[|e[0].recordId|] == 0;
  }

  /** A stream of such parts determines its rows. */
  lemma {:induction false} CombinedDecodes(e: seq<Evidence>, r: seq<Record>, f: seq<Evidence>, s: seq<Record>)
    requires FreeEvidence(e) && FreeEvidence(f) && FreeRecords(r) && FreeRecords(s)
    requires Combined(e, r) == Combined(f, s)
    ensures e == f && r == s
  {
    if e == [] && f == [] {
      assert Combined(e, r) == RecordStream(r) && Combined(f, s) == RecordStream(s);
      RecordsDecode(r, s);
    } else if f == [] {
      assert Combined(f, s) == RecordStream(s);
      EvidenceNeverLooksLikeRecords(e, r, s);
    } else if e == [] {
      assert Combined(e, r) == RecordStream(r);
      EvidenceNeverLooksLikeRecords(f, s, r);
    } else {
      CombinedHead(e, r);
      CombinedHead(f, s);
      hide Combined;
      var x, y := Combined(e[1..], r), Combined(f[1..], s);
      FirstPart(e[0].recordId, e[0].field + ([0] + (e[0].value + ([0] + x))),
                f[0].recordId, f[0].field + ([0] + (f[0].value + ([0] + y))), 0);
      FirstPart(e[0].field, e[0].value + ([0] + x), f[0].field, f[0].value + ([0] + y), 0);
      FirstPart(e[0].value, x, f[0].value, y, 0);
      CombinedDecodes(e[1..], r, f[1..], s);
      assert e == [e[0]] + e[1..] && f == [f[0]] + f[1..];
    }
  }

  // ---- the rows come in the order of their bytes ----

  /** A part that ends before the least byte compares like the part alone, and what
      follows decides between equal parts. */
  lemma {:induction false} EndedPart(a: Bytes, x: Bytes, b: Bytes, y: Bytes, s: byte)
    requires (forall i | 0 <= i < |a| :: a[i] > s) && (forall i | 0 <= i < |b| :: b[i] > s)
    ensures LexLe(a + ([s] + x), b + ([s] + y)) <==> if a == b then LexLe(x, y) else LexLe(a, b)
  {
    var p, q := a + ([s] + x), b + ([s] + y);
    if a == [] && b == [] {
      assert p == [s] + x && q == [s] + y && p[1..] == x && q[1..] == y;
    } else if a == [] {
      assert q[0] == b[0] && p == [s] + x;
    } else if b == [] {
      assert p[0] == a[0] && q == [s] + y;
    } else {
      assert p[0] == a[0] && q[0] == b[0];
      assert p[1..] == a[1..] + ([s] + x) && q[1..] == b[1..] + ([s] + y);
      EndedPart(a[1..], x, b[1..], y, s);
      if a[0] == b[0] && a[1..] == b[1..] {
        assert a == [a[0]] + a[1..] && b == [b[0]] + b[1..];
      }
    }
  }

  /** Rows of evidence without zero bytes are sorted as their bytes are. */
  lemma EvidenceByBytes(e: Evidence, f: Evidence)
    requires FreeEvidence([e]) && FreeEvidence([f])
    ensures EvidenceLe(e, f) <==> Precedes(EvidenceRow(e), EvidenceRow(f))
  {
    assert e in [e] && f in [f];
    NoZeros(e.recordId, f.recordId);
    NoZeros(e.field, f.field);
    NoZeros(e.value, f.value);
    EvidenceRowNests(e, []);
    EvidenceRowNests(f, []);
    assert EvidenceRow(e) + [] == EvidenceRow(e) && EvidenceRow(f) + [] == EvidenceRow(f);
    LexLeExactly(EvidenceRow(e), EvidenceRow(f));
    hide EvidenceRow, LexLe, Precedes, FreeEvidence;
    var v, w := e.value + ([0] + []), f.value + ([0] + []);
    EndedPart(e.recordId, e.field + ([0] + v), f.recordId, f.field + ([0] + w), 0);
    EndedPart(e.field, v, f.field, w, 0);
    EndedPart(e.value, [], f.value, [], 0);
    LexTotal([], []);
    LexTotal(e.value, f.value);
  }

  lemma NoZeros(a: Bytes, b: Bytes)
    requires 0 !in a && 0 !in b
    ensures (forall i | 0 <= i < |a| :: a[i] > 0) && (forall i | 0 <= i < |b| :: b[i] > 0)
  {
  }

  /** Rows of records without bytes zero and one are too. */
  lemma RecordsByBytes(r: Record, t: Record)
    requires FreeRecords([r]) && FreeRecords([t])
    ensures RecordLe(r, t) <==> Precedes(RecordRow(r), RecordRow(t))
  {
    assert r in [r] && t in [t];
    RecordRowNests(r, []);
    RecordRowNests(t, []);
    assert RecordRow(r) + [] == RecordRow(r) && RecordRow(t) + [] == RecordRow(t);
    LexLeExactly(RecordRow(r), RecordRow(t));
    hide RecordRow, LexLe, Precedes;
    EndedPart(r.recordId, r.values + ([1] + []), t.recordId, t.values + ([1] + []), 1);
    EndedPart(r.values, [], t.values, [], 1);
    LexTotal([], []);
    LexTotal(r.values, t.values);
  }

  function Flatten(rows: seq<Bytes>): Bytes {
    if rows == [] then [] else rows[0] + Flatten(rows[1..])
  }

  /** rows are in the order of their bytes. */
  ghost predicate Ascending(rows: seq<Bytes>) {
    forall i, j | 0 <= i < j < |rows| :: Precedes(rows[i], rows[j])
  }

  /** The stream in full, for evidence without zero bytes and records without zeros and
      ones: the rows of the evidence in the order of their bytes, each its three parts
      ended by zero bytes, then the rows of the records likewise, of two parts ended by
      byte one. */
  lemma PreImageInFull(e: seq<Evidence>, r: seq<Record>)
    returns (f: seq<Evidence>, a: seq<Bytes>, s: seq<Record>, b: seq<Bytes>)
    requires FreeEvidence(e) && FreeRecords(r)
    ensures multiset(f) == multiset(e) && |a| == |f| && Ascending(a)
    ensures forall i | 0 <= i < |f| ::
              a[i] == f[i].recordId + ([0] + (f[i].field + ([0] + (f[i].value + ([0] + [])))))
    ensures multiset(s) == multiset(r) && |b| == |s| && Ascending(b)
    ensures forall i | 0 <= i < |s| :: b[i] == s[i].recordId + ([1] + (s[i].values + ([1] + [])))
    ensures EvidencePreImage(e, r) == Flatten(a) + Flatten(b)
  {
    hide Flatten, Ascending, EvidenceStream, RecordStream, FreeEvidence, FreeRecords;
    EvidenceOrdered();
    RecordsOrdered();
    SortCorrect(e, EvidenceLe);
    SortCorrect(r, RecordLe);
    SortKeepsFree(e, r);
    f, s := Sort(e, EvidenceLe), Sort(r, RecordLe);
    hide Sort, EvidenceLe, RecordLe;
    a := EvidenceRows(f);
    b := RecordRows(s);
  }

  lemma EvidenceRows(f: seq<Evidence>) returns (rows: seq<Bytes>)
    requires FreeEvidence(f) && Sorted(f, EvidenceLe)
    ensures |rows| == |f| && Ascending(rows) && Flatten(rows) == EvidenceStream(f)
    ensures forall i | 0 <= i < |f| ::
              rows[i] == f[i].recordId + ([0] + (f[i].field + ([0] + (f[i].value + ([0] + [])))))
  {
    rows := seq(|f|, i requires 0 <= i < |f| => EvidenceRow(f[i]));
    EvidenceFlattens(f, rows);
    forall i | 0 <= i < |f|
      ensures rows[i] == f[i].recordId + ([0] + (f[i].field + ([0] + (f[i].value + ([0] + [])))))
    {
      EvidenceRowNests(f[i], []);
      assert EvidenceRow(f[i]) + [] == EvidenceRow(f[i]);
    }
    hide EvidenceRow, EvidenceLe, Precedes;
    forall i, j | 0 <= i < j < |rows|
      ensures Precedes(rows[i], rows[j])
    {
      assert f[i] in f && f[j] in f && EvidenceLe(f[i], f[j]);
      EvidenceByBytes(f[i], f[j]);
    }
  }

  lemma {:induction false} EvidenceFlattens(f: seq<Evidence>, rows: seq<Bytes>)
    requires |rows| == |f| && forall i | 0 <= i < |f| :: rows[i] == EvidenceRow(f[i])
    ensures Flatten(rows) == EvidenceStream(f)
  {
    hide EvidenceRow;
    if f != [] {
      EvidenceFlattens(f[1..], rows[1..]);
    }
  }

  lemma RecordRows(s: seq<Record>) returns (rows: seq<Bytes>)
    requires FreeRecords(s) && Sorted(s, RecordLe)
    ensures |rows| == |s| && Ascending(rows) && Flatten(rows) == RecordStream(s)
    ensures forall i | 0 <= i < |s| :: rows[i] == s[i].recordId + ([1] + (s[i].values + ([1] + [])))
  {
    rows := seq(|s|, i requires 0 <= i < |s| => RecordRow(s[i]));
    RecordsFlatten(s, rows);
    forall i | 0 <= i < |s|
      ensures rows[i] == s[i].recordId + ([1] + (s[i].values + ([1] + [])))
    {
      RecordRowNests(s[i], []);
      assert RecordRow(s[i]) + [] == RecordRow(s[i]);
    }
    hide RecordRow, RecordLe, Precedes;
    forall i, j | 0 <= i < j < |rows|
      ensures Precedes(rows[i], rows[j])
    {
      assert s[i] in s && s[j] in s && RecordLe(s[i], s[j]);
      RecordsByBytes(s[i], s[j]);
    }
  }

  lemma {:induction false} RecordsFlatten(s: seq<Record>, rows: seq<Bytes>)
    requires |rows| == |s| && forall i | 0 <= i < |s| :: rows[i] == RecordRow(s[i])
    ensures Flatten(rows) == RecordStream(s)
  {
    hide RecordRow;
    if s != [] {
      RecordsFlatten(s[1..], rows[1..]);
    }
  }

  /** Permuting evidence or records never changes the stream. */
  lemma PreImageIgnoresOrder(e: seq<Evidence>, r: seq<Record>, f: seq<Evidence>, s: seq<Record>)
    requires multiset(e) == multiset(f) && multiset(r) == multiset(s)
    ensures EvidencePreImage(e, r) == EvidencePreImage(f, s)
    ensures ReproducibilityPreImage(e) == ReproducibilityPreImage(f)
  {
    EvidenceOrdered();
    RecordsOrdered();
    SortPermutation(e, f, EvidenceLe);
    SortPermutation(r, s, RecordLe);
  }

  lemma SortKeepsFree(e: seq<Evidence>, r: seq<Record>)
    requires FreeEvidence(e) && FreeRecords(r)
    ensures FreeEvidence(Sort(e, EvidenceLe)) && FreeRecords(Sort(r, RecordLe))
  {
    EvidenceOrdered();
    RecordsOrdered();
    SortCorrect(e, EvidenceLe);
    SortCorrect(r, RecordLe);
    forall x | x in Sort(e, EvidenceLe)
      ensures x in e
    {
      assert x in multiset(Sort(e, EvidenceLe));
    }
    forall x | x in Sort(r, RecordLe)
      ensures x in r
    {
      assert x in multiset(Sort(r, RecordLe));
    }
  }

  /** Without zero bytes in the evidence, and without bytes zero and one in the
      records, the stream is the same exactly when the evidence and the records are,
      up to order. */
  lemma PreImageDetermines(e: seq<Evidence>, r: seq<Record>, f: seq<Evidence>, s: seq<Record>)
    requires FreeEvidence(e) && FreeEvidence(f) && FreeRecords(r) && FreeRecords(s)
    ensures EvidencePreImage(e, r) == EvidencePreImage(f, s)
            <==> multiset(e) == multiset(f) && multiset(r) == multiset(s)
  {
    EvidenceOrdered();
    RecordsOrdered();
    SortPermutation(e, f, EvidenceLe);
    SortPermutation(r, s, RecordLe);
    SortKeepsFree(e, r);
    SortKeepsFree(f, s);
    if EvidencePreImage(e, r) == EvidencePreImage(f, s) {
      CombinedDecodes(Sort(e, EvidenceLe), Sort(r, RecordLe), Sort(f, EvidenceLe), Sort(s, RecordLe));
    }
  }

  /** The evidence-only stream is a prefix of the evidence-and-records one, and
      all of it when there are no records. */
  lemma ReproducibilityIsPrefix(e: seq<Evidence>, r: seq<Record>)
    ensures ReproducibilityPreImage(e) <= EvidencePreImage(e, r)
    ensures r == [] ==> EvidencePreImage(e, r) == ReproducibilityPreImage(e)
  {
  }

  lemma ReproducibilityDetermines(e: seq<Evidence>, f: seq<Evidence>)
    requires FreeEvidence(e) && FreeEvidence(f)
    ensures ReproducibilityPreImage(e) == ReproducibilityPreImage(f) <==> multiset(e) == multiset(f)
  {
    ReproducibilityIsPrefix(e, []);
    ReproducibilityIsPrefix(f, []);
    PreImageDetermines(e, [], f, []);
  }

  /** With a zero byte in an identifier different evidence can collide. */
  lemma ZeroByteCollides(a: Bytes, b: Bytes, c: Bytes, d: Bytes)
    ensures var e, f := Evidence(a + [0] + b, c, d), Evidence(a, b + [0] + c, d);
            e != f && ReproducibilityPreImage([e]) == ReproducibilityPreImage([f])
  {
    var e, f := Evidence(a + [0] + b, c, d), Evidence(a, b + [0] + c, d);
    assert |e.recordId| > |f.recordId|;
    assert EvidenceRow(e) == EvidenceRow(f);
    SingleRow(e);
    SingleRow(f);
  }

  lemma SingleRow(e: Evidence)
    ensures ReproducibilityPreImage([e]) == EvidenceRow(e)
  {
    assert Sort([e], EvidenceLe) == [e];
    assert EvidenceStream([e]) == EvidenceRow(e) + [];
  }

  /** With byte one in a record id different records can collide. */
  lemma OneByteCollides(a: Bytes, b: Bytes, c: Bytes)
    ensures var r, s := Record(a + [1] + b, c), Record(a, b + [1] + c);
            r != s && EvidencePreImage([], [r]) == EvidencePreImage([], [s])
  {
    var r, s := Record(a + [1] + b, c), Record(a, b + [1] + c);
    assert |r.recordId| > |s.recordId|;
    assert RecordRow(r) == RecordRow(s);
    SingleRecord(r);
    SingleRecord(s);
  }

  lemma ThreeParts(a: Bytes, b: Bytes, c: Bytes, d: Bytes, rest: Bytes)
    ensures (a + ([0] + (b + ([0] + (c + ([0] + d)))))) + rest == a + ([0] + (b + ([0] + (c + ([0] + (d + rest))))))
  {
    Regroup([0], d, rest);
    Regroup(c, [0] + d, rest);
    Regroup([0], c + ([0] + d), rest);
    Regroup(b, [0] + (c + ([0] + d)), rest);
    Regroup([0], b + ([0] + (c + ([0] + d))), rest);
    Regroup(a, [0] + (b + ([0] + (c + ([0] + d)))), rest);
  }

  /** With zero bytes in a record id a record can read like evidence and a record. */
  lemma ZeroInRecordCollides(a: Bytes, b: Bytes, c: Bytes, d: Bytes, v: Bytes)
    ensures EvidencePreImage([], [Record(a + ([0] + (b + ([0] + (c + ([0] + d))))), v)])
            == EvidencePreImage([Evidence(a, b, c)], [Record(d, v)])
  {
    var whole, e, r := Record(a + ([0] + (b + ([0] + (c + ([0] + d))))), v), Evidence(a, b, c), Record(d, v);
    SingleRecord(whole);
    SingleRecord(r);
    SingleRow(e);
    assert EvidencePreImage([e], [r]) == ReproducibilityPreImage([e]) + RecordStream(Sort([r], RecordLe));
    EvidenceRowNests(e, RecordRow(r));
    RecordRowIs(whole);
    RecordRowIs(r);
    hide EvidencePreImage, EvidenceRow, RecordRow;
    ThreeParts(a, b, c, d, [1] + (v + [1]));
  }

  lemma RecordRowIs(r: Record)
    ensures RecordRow(r) == r.recordId + ([1] + (r.values + [1]))
  {
  }

  lemma SingleRecord(r: Record)
    ensures EvidencePreImage([], [r]) == RecordRow(r)
    ensures RecordStream(Sort([r], RecordLe)) == RecordRow(r)
  {
    assert Sort([r], RecordLe) == [r];
    assert RecordStream([r]) == RecordRow(r) + [];
  }
}
