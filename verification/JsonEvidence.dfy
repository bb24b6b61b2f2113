/** A citation as the program holds it, evidence with JSON values and records with
    cells, against the hash stream it is printed into. */
module JsonEvidence {
  import opened CanonicalJson
  import opened Cite
  import opened Collections
  import opened Quoting
  import opened RecordValues
  import opened Sorting

  // ---- claims ----

  datatype Claim = Claim(recordId: Bytes, field: Bytes, value: Json)

  /** Writes a key-sorted value; outside the model but for what Distinguishes says. */
  type Printer = Json -> Bytes

  function Written(c: Claim, write: Printer): Bytes {
    write(Canonicalize(c.value))
  }

  /** Among these claims, different key-sorted values are written differently. */
  ghost predicate Distinguishes(write: Printer, cs: seq<Claim>, ds: seq<Claim>) {
    forall c, e | c in cs && e in ds && Written(c, write) == Written(e, write) ::
      Canonicalize(c.value) == Canonicalize(e.value)
  }

  function Row(c: Claim, write: Printer): Evidence {
    Evidence(c.recordId, c.field, Written(c, write))
  }

  function Rows(cs: seq<Claim>, write: Printer): seq<Evidence> {
    seq(|cs|, i requires 0 <= i < |cs| => Row(cs[i], write))
  }

  /** What is claimed: the key order inside a value does not matter. */
  function Content(c: Claim): (Bytes, Bytes, Meaning) {
    (c.recordId, c.field, Mean(c.value))
  }

  function Contents(cs: seq<Claim>): seq<(Bytes, Bytes, Meaning)> {
    seq(|cs|, i requires 0 <= i < |cs| => Content(cs[i]))
  }

  /** No zero byte in an identifier or a written value. */
  ghost predicate Proper(cs: seq<Claim>, write: Printer) {
    forall c | c in cs :: 0 !in c.recordId && 0 !in c.field && 0 !in Written(c, write) && WellFormed(c.value)
  }

  lemma RowsAreFree(cs: seq<Claim>, write: Printer)
    requires Proper(cs, write)
    ensures FreeEvidence(Rows(cs, write))
  {
    forall i | 0 <= i < |cs|
      ensures var e := Rows(cs, write)[i]; 0 !in e.recordId && 0 !in e.field && 0 !in e.value
    {
      assert cs[i] in cs;
    }
  }

  /** Two claims print the same row exactly when they claim the same. */
  lemma SameRowSameContent(c: Claim, e: Claim, write: Printer)
    requires WellFormed(c.value) && WellFormed(e.value)
    requires Written(c, write) == Written(e, write) ==> Canonicalize(c.value) == Canonicalize(e.value)
    ensures Row(c, write) == Row(e, write) <==> Content(c) == Content(e)
  {
    CanonicalIffSameMeaning(c.value, e.value);
  }

  lemma SameRowsSameContents(cs: seq<Claim>, ds: seq<Claim>, write: Printer)
    requires Proper(cs, write) && Proper(ds, write) && Distinguishes(write, cs, ds)
    ensures multiset(Rows(cs, write)) == multiset(Rows(ds, write)) <==> multiset(Contents(cs)) == multiset(Contents(ds))
  {
    forall i, j | 0 <= i < |cs| && 0 <= j < |ds|
      ensures Rows(cs, write)[i] == Rows(ds, write)[j] <==> Contents(cs)[i] == Contents(ds)[j]
    {
      assert cs[i] in cs && ds[j] in ds;
      SameRowSameContent(cs[i], ds[j], write);
    }
    hide Row, Content, Proper, Distinguishes;
    if multiset(Contents(cs)) == multiset(Contents(ds)) {
      CoarserView(Contents(cs), Rows(cs, write), Contents(ds), Rows(ds, write));
    }
    if multiset(Rows(cs, write)) == multiset(Rows(ds, write)) {
      CoarserView(Rows(cs, write), Contents(cs), Rows(ds, write), Contents(ds));
    }
  }

  // ---- backing records ----

  datatype Backing = Backing(recordId: Bytes, cells: Cells)

  function Print(b: Backing): Record {
    Record(b.recordId, CanonicalRecordValues(PrintCells(b.cells)))
  }

  function PrintAll(bs: seq<Backing>): seq<Record> {
    seq(|bs|, i requires 0 <= i < |bs| => Print(bs[i]))
  }

  /** What a record says: the order of its fields does not matter. */
  function Fact(b: Backing): (Bytes, multiset<(Bytes, Cell)>) {
    (b.recordId, multiset(b.cells))
  }

  function Facts(bs: seq<Backing>): seq<(Bytes, multiset<(Bytes, Cell)>)> {
    seq(|bs|, i requires 0 <= i < |bs| => Fact(bs[i]))
  }

  /** No byte zero or one in an id, a name, or a printed value other than a text. */
  ghost predicate ProperBacking(bs: seq<Backing>) {
    forall b | b in bs :: Free(b.recordId) && Printable(b.cells) && FreeCells(b.cells)
  }

  ghost predicate FreeCells(cs: Cells) {
    forall c | c in cs :: Free(c.0) && (c.1.Plain? ==> Free(c.1.printed))
  }

  /** A record of the one citation and one of the other are told apart by name. */
  ghost predicate NamesTellApart(bs: seq<Backing>, ds: seq<Backing>) {
    forall b, d | b in bs && d in ds :: SafeNames(b.cells, d.cells)
  }

  lemma {:induction false} JoinIsFree(ps: Fields)
    requires forall p | p in ps :: Free(p.0) && Free(p.1)
    ensures Free(JoinFields(ps))
  {
    if ps != [] {
      assert ps[0] in ps;
      JoinIsFree(ps[1..]);
    }
  }

  /** No separator of the stream reaches the printed values, whatever texts hold. */
  lemma ValuesAreFree(cs: Cells)
    requires FreeCells(cs)
    ensures Free(CanonicalRecordValues(PrintCells(cs)))
  {
    var ps := PrintCells(cs);
    forall p | p in ps
      ensures Free(p.0) && Free(p.1)
    {
      var i :| 0 <= i < |cs| && ps[i] == p;
      assert cs[i] in cs;
      if cs[i].1.Text? {
        PrintedTextHasNoControls(cs[i].1.text);
      }
    }
    SortKeepsFields(ps);
    JoinIsFree(Sort(ps, PairLe));
  }

  lemma RecordsAreFree(bs: seq<Backing>)
    requires ProperBacking(bs)
    ensures FreeRecords(PrintAll(bs))
  {
    forall i | 0 <= i < |bs|
      ensures Free(PrintAll(bs)[i].recordId) && Free(PrintAll(bs)[i].values)
    {
      assert bs[i] in bs;
      ValuesAreFree(bs[i].cells);
    }
  }

  lemma SameRecordsSameFacts(bs: seq<Backing>, ds: seq<Backing>)
    requires ProperBacking(bs) && ProperBacking(ds) && NamesTellApart(bs, ds)
    ensures multiset(PrintAll(bs)) == multiset(PrintAll(ds)) <==> multiset(Facts(bs)) == multiset(Facts(ds))
  {
    forall i, j | 0 <= i < |bs| && 0 <= j < |ds|
      ensures PrintAll(bs)[i] == PrintAll(ds)[j] <==> Facts(bs)[i] == Facts(ds)[j]
    {
      assert bs[i] in bs && ds[j] in ds;
      RecordCellsDetermine(bs[i].cells, ds[j].cells);
    }
    hide Print, Fact, ProperBacking, NamesTellApart;
    if multiset(Facts(bs)) == multiset(Facts(ds)) {
      CoarserView(Facts(bs), PrintAll(bs), Facts(ds), PrintAll(ds));
    }
    if multiset(PrintAll(bs)) == multiset(PrintAll(ds)) {
      CoarserView(PrintAll(bs), Facts(bs), PrintAll(ds), Facts(ds));
    }
  }

  // ---- a citation ----

  /** Two citations feed the same stream if and only if they claim the same values of
      the same fields, up to order and up to the order of keys inside the values, over
      records with the same ids and cells, up to the order of records and of fields. */
  lemma StreamIffSameCitation(cs: seq<Claim>, bs: seq<Backing>, ds: seq<Claim>, es: seq<Backing>, write: Printer)
    requires Proper(cs, write) && Proper(ds, write) && Distinguishes(write, cs, ds)
    requires ProperBacking(bs) && ProperBacking(es) && NamesTellApart(bs, es)
    ensures EvidencePreImage(Rows(cs, write), PrintAll(bs)) == EvidencePreImage(Rows(ds, write), PrintAll(es))
            <==> multiset(Contents(cs)) == multiset(Contents(ds)) && multiset(Facts(bs)) == multiset(Facts(es))
  {
    RowsAreFree(cs, write);
    RowsAreFree(ds, write);
    RecordsAreFree(bs);
    RecordsAreFree(es);
    SameRowsSameContents(cs, ds, write);
    SameRecordsSameFacts(bs, es);
    hide EvidencePreImage, Proper, Distinguishes, ProperBacking, NamesTellApart;
    PreImageDetermines(Rows(cs, write), PrintAll(bs), Rows(ds, write), PrintAll(es));
  }
}
