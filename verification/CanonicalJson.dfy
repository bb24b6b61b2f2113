/** The key-sorted form of a JSON value that is written into the hash streams. */
module CanonicalJson {
  import opened Cite
  import opened Collections
  import opened Sorting

  datatype Entry = Entry(key: Bytes, value: Json)

  datatype Json =
    | Null
    | Bool(b: bool)
    | Int(i: int)
    | Float(x: real)
    | Str(s: Bytes)
    | Arr(items: seq<Json>)
    | Obj(entries: seq<Entry>)

  /** What a value says: objects are maps, the order of their entries is nothing. */
  datatype Meaning =
    | MNull
    | MBool(b: bool)
    | MInt(i: int)
    | MFloat(x: real)
    | MStr(s: Bytes)
    | MArr(items: seq<Meaning>)
    | MObj(entries: map<Bytes, Meaning>)

  function Mean(v: Json): Meaning
    decreases v, 1
  {
    match v
    case Null => MNull
    case Bool(b) => MBool(b)
    case Int(i) => MInt(i)
    case Float(x) => MFloat(x)
    case Str(s) => MStr(s)
    case Arr(items) => MArr(MeanAll(items))
    case Obj(entries) => MObj(MeanEntries(entries))
  }

  function MeanAll(vs: seq<Json>): seq<Meaning>
    decreases vs, 0
  {
    if vs == [] then [] else [Mean(vs[0])] + MeanAll(vs[1..])
  }

  function MeanEntries(es: seq<Entry>): map<Bytes, Meaning>
    decreases es, 0
  {
    if es == [] then map[] else MeanEntries(es[1..])[es[0].key := Mean(es[0].value)]
  }

  /** Keys are distinct in every object, as in any parsed map. */
  ghost predicate DistinctKeys(es: seq<Entry>) {
    forall i, j | 0 <= i < j < |es| :: es[i].key != es[j].key
  }

  ghost predicate WellFormed(v: Json)
    decreases v, 1
  {
    match v
    case Arr(items) => AllWellFormed(items)
    case Obj(entries) => DistinctKeys(entries) && EntriesWellFormed(entries)
    case _ => true
  }

  ghost predicate AllWellFormed(vs: seq<Json>)
    decreases vs, 0
  {
    vs == [] || (WellFormed(vs[0]) && AllWellFormed(vs[1..]))
  }

  ghost predicate EntriesWellFormed(es: seq<Entry>)
    decreases es, 0
  {
    es == [] || (WellFormed(es[0].value) && EntriesWellFormed(es[1..]))
  }

  predicate KeyLe(x: Entry, y: Entry) {
    LexLe(x.key, y.key)
  }

  /** Sort the keys of every object, at every depth. */
  function Canonicalize(v: Json): Json
    decreases v, 1
  {
    match v
    case Arr(items) => Arr(CanonicalizeAll(items))
    case Obj(entries) => Obj(Sort(CanonicalizeEntries(entries), KeyLe))
    case _ => v
  }

  function CanonicalizeAll(vs: seq<Json>): seq<Json>
    decreases vs, 0
  {
    if vs == [] then [] else [Canonicalize(vs[0])] + CanonicalizeAll(vs[1..])
  }

  function CanonicalizeEntries(es: seq<Entry>): seq<Entry>
    decreases es, 0
  {
    if es == [] then [] else [Entry(es[0].key, Canonicalize(es[0].value))] + CanonicalizeEntries(es[1..])
  }

  // ---- entry lists ----

  lemma KeysOrdered()
    ensures Preorder(KeyLe)
    ensures forall x, y :: KeyLe(x, y) && KeyLe(y, x) ==> x.key == y.key
  {
    forall x, y
      ensures KeyLe(x, y) || KeyLe(y, x)
      ensures KeyLe(x, y) && KeyLe(y, x) ==> x.key == y.key
    {
      LexTotal(x.key, y.key);
    }
    forall x, y, z | KeyLe(x, y) && KeyLe(y, z)
      ensures KeyLe(x, z)
    {
      LexTransitive(x.key, y.key, z.key);
    }
  }

  lemma {:induction false} EntriesAt(es: seq<Entry>)
    ensures |CanonicalizeEntries(es)| == |es|
    ensures forall i | 0 <= i < |es| :: CanonicalizeEntries(es)[i] == Entry(es[i].key, Canonicalize(es[i].value))
    ensures EntriesWellFormed(es) ==> forall i | 0 <= i < |es| :: WellFormed(es[i].value)
  {
    if es != [] {
      EntriesAt(es[1..]);
    }
  }

  lemma {:induction false} MeaningAt(es: seq<Entry>)
    requires DistinctKeys(es)
    ensures forall k :: k in MeanEntries(es) <==> exists i :: 0 <= i < |es| && es[i].key == k
    ensures forall i | 0 <= i < |es| :: es[i].key in MeanEntries(es) && MeanEntries(es)[es[i].key] == Mean(es[i].value)
  {
    if es != [] {
      var rest := es[1..];
      MeaningAt(rest);
      forall k
        ensures k in MeanEntries(es) <==> exists i :: 0 <= i < |es| && es[i].key == k
      {
        if k in MeanEntries(rest) {
          var i :| 0 <= i < |rest| && rest[i].key == k;
          assert es[i + 1].key == k;
        }
        if i :| 0 <= i < |es| && es[i].key == k {
          assert i > 0 ==> rest[i - 1].key == k;
        }
      }
      forall i | 0 <= i < |es|
        ensures es[i].key in MeanEntries(es) && MeanEntries(es)[es[i].key] == Mean(es[i].value)
      {
        if i > 0 {
          assert rest[i - 1] == es[i];
        }
      }
    }
  }

  /** Entries with distinct keys that hold the same elements, sorted, are equal
      and mean the same. */
  lemma SortedEntries(a: seq<Entry>, b: seq<Entry>)
    requires DistinctKeys(a) && DistinctKeys(b)
    requires forall e :: e in a <==> e in b
    ensures Sort(a, KeyLe) == Sort(b, KeyLe)
  {
    KeysOrdered();
    SortCorrect(a, KeyLe);
    SortCorrect(b, KeyLe);
    SameElements(a, b);
    forall x, y | x in Sort(a, KeyLe) && y in Sort(a, KeyLe) && KeyLe(x, y) && KeyLe(y, x)
      ensures x == y
    {
      assert x in multiset(Sort(a, KeyLe)) && y in multiset(Sort(a, KeyLe));
      var i :| 0 <= i < |a| && a[i] == x;
      var j :| 0 <= j < |a| && a[j] == y;
    }
    SortedUnique(Sort(a, KeyLe), Sort(b, KeyLe), KeyLe);
  }

  lemma SortedKeepsEntries(a: seq<Entry>)
    requires DistinctKeys(a)
    ensures DistinctKeys(Sort(a, KeyLe))
    ensures forall e :: e in Sort(a, KeyLe) <==> e in a
  {
    KeysOrdered();
    SortCorrect(a, KeyLe);
    var s := Sort(a, KeyLe);
    forall e
      ensures e in s <==> e in a
    {
      assert e in multiset(s) <==> e in multiset(a);
    }
    forall i, j | 0 <= i < j < |s|
      ensures s[i].key != s[j].key
    {
      if s[i].key == s[j].key {
        SameKeyTwice(a, s, i, j);
      }
    }
  }

  lemma SameKeyTwice(a: seq<Entry>, s: seq<Entry>, i: nat, j: nat)
    requires DistinctKeys(a) && multiset(s) == multiset(a)
    requires i < j < |s|
    ensures s[i].key != s[j].key
  {
    assert s[i] in multiset(a) && s[j] in multiset(a);
    var p :| 0 <= p < |a| && a[p] == s[i];
    var q :| 0 <= q < |a| && a[q] == s[j];
    if p == q {
      NoDuplicatesCount(a, s[i]);
      TwiceCounts(s, i, j);
    }
  }

  lemma TwiceCounts<T>(s: seq<T>, i: nat, j: nat)
    requires i < j < |s| && s[i] == s[j]
    ensures multiset(s)[s[i]] >= 2
  {
    assert s == s[..j] + [s[j]] + s[j + 1..];
    assert s[i] in s[..j];
  }

  /** Distinct-key lists with the same elements have the same meaning. */
  lemma SameEntriesSameMeaning(a: seq<Entry>, b: seq<Entry>)
    requires DistinctKeys(a) && DistinctKeys(b)
    requires forall e :: e in a <==> e in b
    ensures MeanEntries(a) == MeanEntries(b)
  {
    MeaningIncluded(a, b);
    MeaningIncluded(b, a);
    hide MeanEntries;
    assert MeanEntries(a).Keys == MeanEntries(b).Keys;
  }

  lemma MeaningIncluded(a: seq<Entry>, b: seq<Entry>)
    requires DistinctKeys(a) && DistinctKeys(b)
    requires forall e | e in a :: e in b
    ensures forall k | k in MeanEntries(a) :: k in MeanEntries(b) && MeanEntries(b)[k] == MeanEntries(a)[k]
  {
    MeaningAt(a);
    MeaningAt(b);
    hide MeanEntries, Mean;
    forall k | k in MeanEntries(a)
      ensures k in MeanEntries(b) && MeanEntries(b)[k] == MeanEntries(a)[k]
    {
      var i :| 0 <= i < |a| && a[i].key == k;
      assert a[i] in b;
    }
  }

  // ---- canonicalizing keeps the meaning ----

  lemma {:induction false} CanonicalizeKeepsMeaning(v: Json)
    requires WellFormed(v)
    ensures Mean(Canonicalize(v)) == Mean(v)
    decreases v, 1
  {
    match v
    case Arr(items) => AllKeepMeaning(items);
    case Obj(entries) =>
      EntriesKeepMeaning(entries);
      EntriesAt(entries);
      SortedKeepsEntries(CanonicalizeEntries(entries));
      SameEntriesSameMeaning(Sort(CanonicalizeEntries(entries), KeyLe), CanonicalizeEntries(entries));
    case _ =>
  }

  lemma {:induction false} AllKeepMeaning(vs: seq<Json>)
    requires AllWellFormed(vs)
    ensures MeanAll(CanonicalizeAll(vs)) == MeanAll(vs)
    decreases vs, 0
  {
    if vs != [] {
      CanonicalizeKeepsMeaning(vs[0]);
      AllKeepMeaning(vs[1..]);
      assert CanonicalizeAll(vs)[1..] == CanonicalizeAll(vs[1..]);
    }
  }

  lemma {:induction false} EntriesKeepMeaning(es: seq<Entry>)
    requires EntriesWellFormed(es)
    ensures MeanEntries(CanonicalizeEntries(es)) == MeanEntries(es)
    decreases es, 0
  {
    if es != [] {
      CanonicalizeKeepsMeaning(es[0].value);
      EntriesKeepMeaning(es[1..]);
      assert CanonicalizeEntries(es)[1..] == CanonicalizeEntries(es[1..]);
    }
  }

  // ---- the keys come in the order of their bytes ----

  /** At every depth, the keys of an object are in the order of their bytes. */
  ghost predicate KeysAscend(v: Json)
    decreases v, 1
  {
    match v
    case Arr(items) => AllAscend(items)
    case Obj(entries) =>
      && (forall i, j | 0 <= i < j < |entries| :: Precedes(entries[i].key, entries[j].key))
      && EntriesAscend(entries)
    case _ => true
  }

  ghost predicate AllAscend(vs: seq<Json>)
    decreases vs, 0
  {
    vs == [] || (KeysAscend(vs[0]) && AllAscend(vs[1..]))
  }

  ghost predicate EntriesAscend(es: seq<Entry>)
    decreases es, 0
  {
    es == [] || (KeysAscend(es[0].value) && EntriesAscend(es[1..]))
  }

  lemma {:induction false} EntriesAscendAll(es: seq<Entry>)
    ensures EntriesAscend(es) <==> forall e | e in es :: KeysAscend(e.value)
  {
    if es != [] {
      EntriesAscendAll(es[1..]);
      assert forall e :: e in es <==> e == es[0] || e in es[1..];
    }
  }

  lemma SortedEntriesAscend(es: seq<Entry>)
    requires EntriesAscend(es)
    ensures KeysAscend(Obj(Sort(es, KeyLe)))
  {
    KeysOrdered();
    SortCorrect(es, KeyLe);
    var s := Sort(es, KeyLe);
    EntriesAscendAll(es);
    forall e | e in s
      ensures KeysAscend(e.value)
    {
      assert e in multiset(s);
    }
    EntriesAscendAll(s);
    forall i, j | 0 <= i < j < |s|
      ensures Precedes(s[i].key, s[j].key)
    {
      assert KeyLe(s[i], s[j]);
      LexLeExactly(s[i].key, s[j].key);
    }
  }

  /** So are those of every canonical form. */
  lemma {:induction false} CanonicalIsSorted(v: Json)
    ensures KeysAscend(Canonicalize(v))
    decreases v, 1
  {
    match v
    case Arr(items) => AllCanonicalSorted(items);
    case Obj(entries) =>
      EntriesCanonicalSorted(entries);
      SortedEntriesAscend(CanonicalizeEntries(entries));
    case _ =>
  }

  lemma {:induction false} AllCanonicalSorted(vs: seq<Json>)
    ensures AllAscend(CanonicalizeAll(vs))
    decreases vs, 0
  {
    if vs != [] {
      CanonicalIsSorted(vs[0]);
      AllCanonicalSorted(vs[1..]);
      assert CanonicalizeAll(vs)[1..] == CanonicalizeAll(vs[1..]);
    }
  }

  lemma {:induction false} EntriesCanonicalSorted(es: seq<Entry>)
    ensures EntriesAscend(CanonicalizeEntries(es))
    decreases es, 0
  {
    if es != [] {
      CanonicalIsSorted(es[0].value);
      EntriesCanonicalSorted(es[1..]);
      assert CanonicalizeEntries(es)[1..] == CanonicalizeEntries(es[1..]);
    }
  }

  // ---- and forgets everything else ----

  /** Equal keys carry equal meanings, and equal meanings equal forms, so every
      canonical entry of the one object is one of the other. */
  lemma FormsIncluded(es: seq<Entry>, fs: seq<Entry>)
    requires DistinctKeys(es) && DistinctKeys(fs) && MeanEntries(es) == MeanEntries(fs)
    requires forall i, j | 0 <= i < |es| && 0 <= j < |fs| && Mean(es[i].value) == Mean(fs[j].value) ::
               Canonicalize(es[i].value) == Canonicalize(fs[j].value)
    ensures forall e | e in CanonicalizeEntries(es) :: e in CanonicalizeEntries(fs)
  {
    EntriesAt(es);
    EntriesAt(fs);
    MeaningAt(es);
    MeaningAt(fs);
    forall e | e in CanonicalizeEntries(es)
      ensures e in CanonicalizeEntries(fs)
    {
      var i :| 0 <= i < |es| && CanonicalizeEntries(es)[i] == e;
      assert es[i].key in MeanEntries(fs);
      var j :| 0 <= j < |fs| && fs[j].key == es[i].key;
      assert CanonicalizeEntries(fs)[j] == e;
    }
  }

  lemma {:induction false} MeaningFixesForm(v: Json, w: Json)
    requires WellFormed(v) && WellFormed(w) && Mean(v) == Mean(w)
    ensures Canonicalize(v) == Canonicalize(w)
    decreases v, 1
  {
    match v
    case Arr(items) => MeaningFixesAll(items, w.items);
    case Obj(entries) =>
      EntriesAt(entries);
      EntriesAt(w.entries);
      MeaningFixesEntries(entries, w.entries);
      FormsIncluded(entries, w.entries);
      FormsIncluded(w.entries, entries);
      SortedEntries(CanonicalizeEntries(entries), CanonicalizeEntries(w.entries));
    case _ =>
  }

  lemma {:induction false} MeaningFixesAll(vs: seq<Json>, ws: seq<Json>)
    requires AllWellFormed(vs) && AllWellFormed(ws) && MeanAll(vs) == MeanAll(ws)
    ensures CanonicalizeAll(vs) == CanonicalizeAll(ws)
    decreases vs, 0
  {
    if vs != [] {
      assert MeanAll(vs)[0] == Mean(vs[0]) && MeanAll(vs)[1..] == MeanAll(vs[1..]);
      assert MeanAll(ws)[0] == Mean(ws[0]) && MeanAll(ws)[1..] == MeanAll(ws[1..]);
      MeaningFixesForm(vs[0], ws[0]);
      MeaningFixesAll(vs[1..], ws[1..]);
    }
  }

  /** Entries of the two lists with equal keys and meanings have equal forms. */
  lemma {:induction false} MeaningFixesEntries(es: seq<Entry>, fs: seq<Entry>)
    requires EntriesWellFormed(es) && EntriesWellFormed(fs)
    ensures forall i, j | 0 <= i < |es| && 0 <= j < |fs| && Mean(es[i].value) == Mean(fs[j].value) ::
              Canonicalize(es[i].value) == Canonicalize(fs[j].value)
    decreases es, 0
  {
    if es != [] {
      EntriesAt(fs);
      forall j | 0 <= j < |fs| && Mean(es[0].value) == Mean(fs[j].value)
        ensures Canonicalize(es[0].value) == Canonicalize(fs[j].value)
      {
        MeaningFixesForm(es[0].value, fs[j].value);
      }
      MeaningFixesEntries(es[1..], fs);
    }
  }

  /** Two values get the same canonical form exactly when they say the same:
      reordering keys at any depth changes nothing, everything else does. */
  lemma CanonicalIffSameMeaning(v: Json, w: Json)
    requires WellFormed(v) && WellFormed(w)
    ensures Canonicalize(v) == Canonicalize(w) <==> Mean(v) == Mean(w)
  {
    CanonicalizeKeepsMeaning(v);
    CanonicalizeKeepsMeaning(w);
    if Mean(v) == Mean(w) {
      MeaningFixesForm(v, w);
    }
  }
}
