/** A record's values as one string: name=value for every field, sorted by name and
    joined by semicolons, with nothing escaped but what is inside quoted texts. */
module RecordValues {
  import opened Cite
  import opened Collections
  import opened Quoting
  import opened Sorting

  const EQUALS: byte := 61
  const SEMICOLON: byte := 59

  function JoinFields(ps: Fields): Bytes {
    if ps == [] then []
    else ps[0].0 + ([EQUALS] + (ps[0].1 + (if |ps| == 1 then [] else [SEMICOLON] + JoinFields(ps[1..]))))
  }

  function CanonicalRecordValues(fields: Fields): Bytes {
    JoinFields(Sort(fields, PairLe))
  }

  /** How values are printed: a text in quotes, or a number, truth value or null,
      which hold no quote, semicolon or equals sign. */
  predicate Printed(v: Bytes) {
    Quoted(v) || PlainValue(v)
  }

  predicate PlainValue(v: Bytes) {
    SEMICOLON !in v && EQUALS !in v && QUOTE !in v
  }

  ghost predicate AllPrinted(ps: Fields) {
    forall p | p in ps :: Printed(p.1)
  }

  /** After an '=' in the name comes no ';' and, at once, no quote: so what follows
      that '=' is not read as a value, and the name not cut short from the left. */
  predicate LeftSafe(name: Bytes) {
    forall i | 0 <= i < |name| && name[i] == EQUALS ::
      SEMICOLON !in name[i + 1..] && (i + 1 < |name| ==> name[i + 1] != QUOTE)
  }

  /** Before a ';' in the name comes no '=' and, at once, no quote: so what precedes
      that ';' is not read as a value, and the name not cut short from the right. */
  predicate RightSafe(name: Bytes) {
    forall i | 0 <= i < |name| && name[i] == SEMICOLON ::
      EQUALS !in name[..i] && (i > 0 ==> name[i - 1] != QUOTE)
  }

  ghost predicate AllNames<T>(safe: Bytes -> bool, ps: seq<(Bytes, T)>) {
    forall p | p in ps :: safe(p.0)
  }

  // ---- decoding from the left ----

  /** A printed value ends itself before a separator or the end of the string, even
      when it is a text with semicolons inside. */
  lemma ValueEnds(v: Bytes, x: Bytes, w: Bytes, y: Bytes)
    requires Printed(v) && Printed(w)
    requires (x == [] || x[0] == SEMICOLON) && (y == [] || y[0] == SEMICOLON)
    requires v + x == w + y
    ensures v == w && x == y
  {
    hide QuotedTail;
    if v != [] {
      assert (v + x)[0] == v[0];
    }
    if w != [] {
      assert (w + y)[0] == w[0];
    }
    if Quoted(v) {
      QuotedEnds(v, x, w, y);
    } else {
      FirstSeparator(v, x, w, y, SEMICOLON);
    }
  }

  function JoinTail(ps: Fields): Bytes
    requires ps != []
  {
    if |ps| == 1 then [] else [SEMICOLON] + JoinFields(ps[1..])
  }

  lemma NoLongerFirstName(n: Bytes, v: Bytes, x: Bytes, m: Bytes, w: Bytes, y: Bytes)
    requires Printed(v) && LeftSafe(m) && |n| < |m|
    requires x == [] || x[0] == SEMICOLON
    ensures n + ([EQUALS] + (v + x)) != m + ([EQUALS] + (w + y))
  {
    hide QuotedTail;
    var s, t := n + ([EQUALS] + (v + x)), m + ([EQUALS] + (w + y));
    if s == t {
      var rest := m[|n| + 1..];
      assert s[|n|] == EQUALS && m[|n|] == t[|n|];
      assert v + x == s[|n| + 1..] && rest + ([EQUALS] + (w + y)) == t[|n| + 1..];
      NoValueSpans(v, x, rest, w + y);
    }
  }

  /** A printed value and its end are not the rest of a safe name and an '='. */
  lemma NoValueSpans(v: Bytes, x: Bytes, rest: Bytes, y: Bytes)
    requires Printed(v) && (x == [] || x[0] == SEMICOLON)
    requires SEMICOLON !in rest && (rest != [] ==> rest[0] != QUOTE)
    ensures v + x != rest + ([EQUALS] + y)
  {
    hide QuotedTail;
    var s, t, k := v + x, rest + ([EQUALS] + y), |rest|;
    assert t[k] == EQUALS;
    if Quoted(v) {
      assert s[0] == QUOTE;
      assert k > 0 ==> t[0] == rest[0];
    } else if k < |v| {
      assert s[k] == v[k];
    } else if x != [] {
      assert s[|v|] == SEMICOLON;
      assert |v| < k ==> t[|v|] == rest[|v|];
    }
  }

  lemma SameFirstName(n: Bytes, v: Bytes, x: Bytes, m: Bytes, w: Bytes, y: Bytes)
    requires Printed(v) && LeftSafe(n) && Printed(w) && LeftSafe(m)
    requires (x == [] || x[0] == SEMICOLON) && (y == [] || y[0] == SEMICOLON)
    requires n + ([EQUALS] + (v + x)) == m + ([EQUALS] + (w + y))
    ensures n == m && v + x == w + y
  {
    var s := n + ([EQUALS] + (v + x));
    assert |n| == |m| by {
      if |n| < |m| {
        NoLongerFirstName(n, v, x, m, w, y);
      } else if |m| < |n| {
        NoLongerFirstName(m, w, y, n, v, x);
      }
    }
    assert n == s[..|n|] && m == s[..|m|] && v + x == s[|n| + 1..] && w + y == s[|m| + 1..];
  }

  /** Nonempty joins that agree have the same first field and the same tail. */
  lemma JoinHeads(ps: Fields, qs: Fields)
    requires AllPrinted(ps) && AllPrinted(qs) && AllNames(LeftSafe, ps) && AllNames(LeftSafe, qs)
    requires ps != [] && qs != [] && JoinFields(ps) == JoinFields(qs)
    ensures ps[0] == qs[0] && JoinTail(ps) == JoinTail(qs)
  {
    hide Printed;
    var p, q := JoinTail(ps), JoinTail(qs);
    SameFirstName(ps[0].0, ps[0].1, p, qs[0].0, qs[0].1, q);
    ValueEnds(ps[0].1, p, qs[0].1, q);
  }

  lemma {:induction false} JoinDecodes(ps: Fields, qs: Fields)
    requires AllPrinted(ps) && AllPrinted(qs) && AllNames(LeftSafe, ps) && AllNames(LeftSafe, qs)
    requires JoinFields(ps) == JoinFields(qs)
    ensures ps == qs
  {
    if ps != [] && qs != [] {
      JoinHeads(ps, qs);
      hide JoinFields;
      if |ps| > 1 && |qs| > 1 {
        assert JoinFields(ps[1..]) == JoinTail(ps)[1..] && JoinFields(qs[1..]) == JoinTail(qs)[1..];
        JoinDecodes(ps[1..], qs[1..]);
      }
      assert ps == [ps[0]] + ps[1..] && qs == [qs[0]] + qs[1..];
    }
  }

  // ---- decoding from the right ----

  /** A printed value starts right after the last '=' that can open it: plain values
      hold none, and a quote inside a text follows a backslash and not '='. */
  lemma ValueStarts(p: Bytes, v: Bytes, q: Bytes, w: Bytes)
    requires Printed(v) && Printed(w) && p + ([EQUALS] + v) == q + ([EQUALS] + w)
    ensures p == q && v == w
  {
    var s := p + ([EQUALS] + v);
    assert |v| == |w| by {
      if Quoted(v) && Quoted(w) {
        if |v| < |w| {
          NoEarlierStart(p, v, q, w);
        } else if |w| < |v| {
          NoEarlierStart(q, w, p, v);
        }
      } else if Quoted(v) {
        TextNotPlain(p, v, q, w);
      } else if Quoted(w) {
        TextNotPlain(q, w, p, v);
      } else {
        PlainStarts(p, v, q, w);
      }
    }
    assert p == s[..|p|] && q == s[..|q|] && v == s[|p| + 1..] && w == s[|q| + 1..];
  }

  lemma PlainStarts(p: Bytes, v: Bytes, q: Bytes, w: Bytes)
    requires EQUALS !in v && EQUALS !in w && p + ([EQUALS] + v) == q + ([EQUALS] + w)
    ensures v == w
  {
    Regroup(p, [EQUALS], v);
    Regroup(q, [EQUALS], w);
    LastSeparator(p + [EQUALS], v, q + [EQUALS], w, EQUALS);
  }

  lemma NoEarlierStart(p: Bytes, v: Bytes, q: Bytes, w: Bytes)
    requires Quoted(v) && Quoted(w) && |v| < |w|
    ensures p + ([EQUALS] + v) != q + ([EQUALS] + w)
  {
    QuotedShape(v);
    QuotedShape(w);
    hide QuotedTail;
    var s, t, i := p + ([EQUALS] + v), q + ([EQUALS] + w), |w| - |v|;
    if |s| == |t| {
      assert s[|p|] == EQUALS && s[|p| + 1] == v[0];
      assert t[|p|] == w[i - 1] && t[|p| + 1] == w[i];
    }
  }

  lemma TextNotPlain(p: Bytes, v: Bytes, q: Bytes, w: Bytes)
    requires Quoted(v) && PlainValue(w)
    ensures p + ([EQUALS] + v) != q + ([EQUALS] + w)
  {
    QuotedShape(v);
    hide QuotedTail;
    var s, t := p + ([EQUALS] + v), q + ([EQUALS] + w);
    assert s[|s| - 1] == QUOTE;
    assert t[|t| - 1] != QUOTE by {
      if w == [] {
        assert t[|t| - 1] == EQUALS;
      } else {
        assert t[|t| - 1] == w[|w| - 1];
      }
    }
  }

  /** Everything before the last field, its separator included. */
  function JoinFront(ps: Fields): Bytes
    requires ps != []
  {
    if |ps| == 1 then [] else JoinFields(ps[..|ps| - 1]) + [SEMICOLON]
  }

  lemma {:induction false} JoinSnoc(ps: Fields)
    requires ps != []
    ensures JoinFields(ps) == JoinFront(ps) + (ps[|ps| - 1].0 + ([EQUALS] + ps[|ps| - 1].1))
    decreases |ps|
  {
    var n := |ps| - 1;
    if n == 0 {
      assert ps[0].1 + [] == ps[0].1;
    } else {
      var rest, head := ps[1..], ps[0].0 + ([EQUALS] + (ps[0].1 + [SEMICOLON]));
      var end := ps[n].0 + ([EQUALS] + ps[n].1);
      JoinSnoc(rest);
      assert rest[..n - 1] == ps[1..n] && ps[..n][1..] == ps[1..n] && rest[n - 1] == ps[n];
      JoinCons(ps);
      if n > 1 {
        JoinCons(ps[..n]);
      } else {
        assert ps[..n] == [ps[0]];
        assert JoinFields([ps[0]]) + [SEMICOLON] == head;
      }
      assert JoinFront(ps) == head + JoinFront(rest);
      Regroup(head, JoinFront(rest), end);
    }
  }

  lemma JoinCons(ps: Fields)
    requires |ps| > 1
    ensures JoinFields(ps) == (ps[0].0 + ([EQUALS] + (ps[0].1 + [SEMICOLON]))) + JoinFields(ps[1..])
  {
  }

  /** Nothing, or something that ends in a printed value and a ';'. */
  ghost predicate Front(x: Bytes, b: Bytes, v: Bytes) {
    x == [] || (x == (b + ([EQUALS] + v)) + [SEMICOLON] && Printed(v))
  }

  /** What precedes the last field ends in the value of the field before it. */
  lemma FrontEndsInValue(ps: Fields) returns (b: Bytes, v: Bytes)
    requires ps != [] && AllPrinted(ps)
    ensures Front(JoinFront(ps), b, v)
  {
    hide Printed;
    b, v := [], [];
    var n := |ps| - 1;
    if n > 0 {
      JoinSnoc(ps[..n]);
      assert ps[..n][n - 1] == ps[n - 1] && ps[n - 1] in ps;
      b, v := JoinFront(ps[..n]) + ps[n - 1].0, ps[n - 1].1;
      Regroup(JoinFront(ps[..n]), ps[n - 1].0, [EQUALS] + v);
    }
  }

  /** A printed value does not end where the start of a safe name does. */
  lemma NoValueBefore(b: Bytes, v: Bytes, y: Bytes, start: Bytes)
    requires Printed(v) && (y == [] || y[|y| - 1] == SEMICOLON)
    requires EQUALS !in start && (start != [] ==> start[|start| - 1] != QUOTE)
    ensures b + ([EQUALS] + v) != y + start
  {
    hide QuotedTail;
    var s, t := b + ([EQUALS] + v), y + start;
    if Quoted(v) {
      QuotedShape(v);
      assert s[|s| - 1] == v[|v| - 1];
      if start != [] {
        assert t[|t| - 1] == start[|start| - 1];
      }
    } else if |b| < |y| {
      assert t[|y| - 1] == SEMICOLON;
      assert |y| - 1 > |b| && |y| - 1 < |s| ==> s[|y| - 1] == v[|y| - 2 - |b|];
      assert s[|b|] == EQUALS;
    } else {
      assert |b| < |t| ==> t[|b|] == start[|b| - |y|];
    }
  }

  lemma NoLongerLastName(x: Bytes, b: Bytes, v: Bytes, n: Bytes, y: Bytes, m: Bytes)
    requires Front(x, b, v) && RightSafe(m) && |n| < |m|
    requires y == [] || y[|y| - 1] == SEMICOLON
    ensures x + n != y + m
  {
    hide QuotedTail;
    var s, t := x + n, y + m;
    if s == t {
      assert |x| > |y|;
      var k := |x| - 1 - |y|;
      assert m[k] == t[|x| - 1] == s[|x| - 1] == SEMICOLON;
      assert x[..|x| - 1] == s[..|x| - 1] == t[..|x| - 1] == y + m[..k];
      assert x[..|x| - 1] == b + ([EQUALS] + v);
      NoValueBefore(b, v, y, m[..k]);
    }
  }

  lemma SameLastName(x: Bytes, b: Bytes, v: Bytes, n: Bytes, y: Bytes, c: Bytes, w: Bytes, m: Bytes)
    requires Front(x, b, v) && RightSafe(n) && Front(y, c, w) && RightSafe(m) && x + n == y + m
    ensures x == y && n == m
  {
    var s := x + n;
    assert |n| == |m| by {
      if |n| < |m| {
        NoLongerLastName(x, b, v, n, y, m);
      } else if |m| < |n| {
        NoLongerLastName(y, c, w, m, x, n);
      }
    }
    assert x == s[..|x|] && y == s[..|y|] && n == s[|x|..] && m == s[|y|..];
  }

  /** Nonempty joins that agree have the same last field and the same front. */
  lemma JoinLasts(ps: Fields, qs: Fields)
    requires AllPrinted(ps) && AllPrinted(qs) && AllNames(RightSafe, ps) && AllNames(RightSafe, qs)
    requires ps != [] && qs != [] && JoinFields(ps) == JoinFields(qs)
    ensures ps[|ps| - 1] == qs[|qs| - 1] && JoinFront(ps) == JoinFront(qs)
  {
    hide Printed;
    JoinSnoc(ps);
    JoinSnoc(qs);
    hide JoinFields;
    var p, q := ps[|ps| - 1], qs[|qs| - 1];
    var x, y := JoinFront(ps), JoinFront(qs);
    Regroup(x, p.0, [EQUALS] + p.1);
    Regroup(y, q.0, [EQUALS] + q.1);
    ValueStarts(x + p.0, p.1, y + q.0, q.1);
    var b, v := FrontEndsInValue(ps);
    var c, w := FrontEndsInValue(qs);
    SameLastName(x, b, v, p.0, y, c, w, q.0);
  }

  lemma {:induction false} JoinDecodesBack(ps: Fields, qs: Fields)
    requires AllPrinted(ps) && AllPrinted(qs) && AllNames(RightSafe, ps) && AllNames(RightSafe, qs)
    requires JoinFields(ps) == JoinFields(qs)
    ensures ps == qs
    decreases |ps|
  {
    if ps != [] && qs != [] {
      JoinLasts(ps, qs);
      var m, n := |ps| - 1, |qs| - 1;
      hide JoinFields;
      if m > 0 && n > 0 {
        assert JoinFields(ps[..m]) == JoinFront(ps)[..|JoinFront(ps)| - 1];
        assert JoinFields(qs[..n]) == JoinFront(qs)[..|JoinFront(qs)| - 1];
        JoinDecodesBack(ps[..m], qs[..n]);
      }
      assert ps == ps[..m] + [ps[m]] && qs == qs[..n] + [qs[n]];
    }
  }

  // ---- what the string is ----

  /** Pieces with a semicolon between neighbours. */
  function Joined(pieces: seq<Bytes>): Bytes {
    if pieces == [] then []
    else if |pieces| == 1 then pieces[0]
    else pieces[0] + [59] + Joined(pieces[1..])
  }

  /** The string in full: name=value for every field, joined by semicolons, the names
      in the order of their bytes. */
  lemma ValuesInFull(fields: Fields) returns (ps: Fields, pieces: seq<Bytes>)
    ensures multiset(ps) == multiset(fields) && |pieces| == |ps|
    ensures forall i, j | 0 <= i < j < |ps| && ps[i].0 != ps[j].0 :: Precedes(ps[i].0, ps[j].0)
    ensures forall i | 0 <= i < |ps| :: pieces[i] == ps[i].0 + [61] + ps[i].1
    ensures CanonicalRecordValues(fields) == Joined(pieces)
  {
    PairsOrdered();
    SortCorrect(fields, PairLe);
    ps := Sort(fields, PairLe);
    hide Sort;
    pieces := seq(|ps|, i requires 0 <= i < |ps| => ps[i].0 + [61] + ps[i].1);
    forall i, j | 0 <= i < j < |ps| && ps[i].0 != ps[j].0
      ensures Precedes(ps[i].0, ps[j].0)
    {
      assert PairLe(ps[i], ps[j]);
      LexLeExactly(ps[i].0, ps[j].0);
    }
    hide PairLe, Precedes;
    FieldsJoin(ps, pieces);
  }

  lemma {:induction false} FieldsJoin(ps: Fields, pieces: seq<Bytes>)
    requires |pieces| == |ps| && forall i | 0 <= i < |ps| :: pieces[i] == ps[i].0 + [61] + ps[i].1
    ensures JoinFields(ps) == Joined(pieces)
  {
    if |ps| == 1 {
      assert ps[0].1 + [] == ps[0].1;
      Regroup(ps[0].0, [61], ps[0].1);
    } else if |ps| > 1 {
      FieldsJoin(ps[1..], pieces[1..]);
      var n, v, rest := ps[0].0, ps[0].1, Joined(pieces[1..]);
      assert pieces[0] + [59] + rest == n + ([61] + (v + ([59] + rest)));
    }
  }

  // ---- what the string determines ----

  lemma SortKeepsFields(ps: Fields)
    ensures forall p :: p in Sort(ps, PairLe) <==> p in ps
  {
    PairsOrdered();
    SortCorrect(ps, PairLe);
    forall p
      ensures p in Sort(ps, PairLe) <==> p in ps
    {
      assert p in Sort(ps, PairLe) <==> p in multiset(Sort(ps, PairLe));
      assert p in ps <==> p in multiset(ps);
    }
  }

  /** While all names of the two records are safe from the left, or all from the
      right, the string tells their fields apart, whatever their texts contain, and
      ignores order. */
  lemma RecordValuesDetermine(ps: Fields, qs: Fields)
    requires AllPrinted(ps) && AllPrinted(qs)
    requires || (AllNames(LeftSafe, ps) && AllNames(LeftSafe, qs))
             || (AllNames(RightSafe, ps) && AllNames(RightSafe, qs))
    ensures CanonicalRecordValues(ps) == CanonicalRecordValues(qs) <==> multiset(ps) == multiset(qs)
  {
    PairsOrdered();
    SortPermutation(ps, qs, PairLe);
    SortKeepsFields(ps);
    SortKeepsFields(qs);
    hide Sort, JoinFields, Printed;
    if CanonicalRecordValues(ps) == CanonicalRecordValues(qs) {
      if AllNames(LeftSafe, ps) && AllNames(LeftSafe, qs) {
        JoinDecodes(Sort(ps, PairLe), Sort(qs, PairLe));
      } else {
        JoinDecodesBack(Sort(ps, PairLe), Sort(qs, PairLe));
      }
    }
  }

  // ---- cells ----

  /** A cell: a text, or a value of another kind as it is printed. */
  datatype Cell = Text(text: Bytes) | Plain(printed: Bytes)

  function PrintCell(c: Cell): Bytes {
    match c
    case Text(s) => PrintText(s)
    case Plain(b) => b
  }

  type Cells = seq<(Bytes, Cell)>

  function PrintCells(cs: Cells): Fields {
    seq(|cs|, i requires 0 <= i < |cs| => (cs[i].0, PrintCell(cs[i].1)))
  }

  /** The printed form of everything but texts holds no quote or separator. */
  ghost predicate Printable(cs: Cells) {
    forall c | c in cs && c.1.Plain? :: PlainValue(c.1.printed)
  }

  /** The names under which two records are told apart. */
  ghost predicate SafeNames(cs: Cells, es: Cells) {
    || (AllNames(LeftSafe, cs) && AllNames(LeftSafe, es))
    || (AllNames(RightSafe, cs) && AllNames(RightSafe, es))
  }

  lemma PrintedCells(cs: Cells)
    requires Printable(cs)
    ensures AllPrinted(PrintCells(cs))
    ensures AllNames(LeftSafe, cs) ==> AllNames(LeftSafe, PrintCells(cs))
    ensures AllNames(RightSafe, cs) ==> AllNames(RightSafe, PrintCells(cs))
  {
    forall i | 0 <= i < |cs|
      ensures Printed(PrintCells(cs)[i].1) && PrintCells(cs)[i].0 == cs[i].0 && cs[i] in cs
    {
      assert cs[i] in cs;
      if cs[i].1.Text? {
        PrintedTextIsQuoted(cs[i].1.text);
      }
    }
  }

  lemma CellsToldApart(c: Cell, e: Cell)
    requires PrintCell(c) == PrintCell(e)
    requires (c.Plain? ==> PlainValue(c.printed)) && (e.Plain? ==> PlainValue(e.printed))
    ensures c == e
  {
    if c.Text? && e.Text? {
      PrintTextTellsApart(c.text, e.text);
    }
  }

  /** In terms of cells, with arbitrary texts: two records of such names give the same
      string if and only if they have the same fields. */
  lemma RecordCellsDetermine(cs: Cells, es: Cells)
    requires Printable(cs) && Printable(es) && SafeNames(cs, es)
    ensures CanonicalRecordValues(PrintCells(cs)) == CanonicalRecordValues(PrintCells(es))
            <==> multiset(cs) == multiset(es)
  {
    PrintedCells(cs);
    PrintedCells(es);
    RecordValuesDetermine(PrintCells(cs), PrintCells(es));
    forall i, j | 0 <= i < |cs| && 0 <= j < |es| && PrintCells(cs)[i] == PrintCells(es)[j]
      ensures cs[i] == es[j]
    {
      assert cs[i] in cs && es[j] in es;
      CellsToldApart(cs[i].1, es[j].1);
    }
    hide CanonicalRecordValues, PrintCell;
    if multiset(cs) == multiset(es) {
      CoarserView(cs, PrintCells(cs), es, PrintCells(es));
    }
    if multiset(PrintCells(cs)) == multiset(PrintCells(es)) {
      CoarserView(PrintCells(cs), cs, PrintCells(es), es);
    }
  }

  // ---- what unsafe names can do ----

  /** In one name: a ';' after an '=' makes one field look like two. */
  lemma RecordValuesCollide(a: Bytes, v: Bytes, b: Bytes, w: Bytes)
    requires PairLe((a, v), (b, w))
    ensures CanonicalRecordValues([(a + [EQUALS] + v + [SEMICOLON] + b, w)]) == CanonicalRecordValues([(a, v), (b, w)])
  {
    var one, two := [(a + [EQUALS] + v + [SEMICOLON] + b, w)], [(a, v), (b, w)];
    assert Sort(one, PairLe) == one;
    assert two[1..] == [(b, w)] && Sort([(b, w)], PairLe) == [(b, w)];
    assert Sort(two, PairLe) == two;
    assert JoinFields([(b, w)]) == b + ([EQUALS] + w);
  }

  lemma TwoFields(p: (Bytes, Bytes), q: (Bytes, Bytes))
    requires p.0 != [] && q.0 != [] && p.0[0] < q.0[0]
    ensures CanonicalRecordValues([p, q]) == p.0 + ([EQUALS] + (p.1 + ([SEMICOLON] + (q.0 + ([EQUALS] + q.1)))))
  {
    var ps := [p, q];
    assert ps[1..] == [q] && [q][1..] == [];
    assert Sort([q], PairLe) == [q];
    assert Sort(ps, PairLe) == ps;
    assert JoinFields([q]) == q.0 + ([EQUALS] + (q.1 + []));
  }

  /** The string of two cells whose names are in order. */
  lemma TwoCells(a: Bytes, c: Cell, b: Bytes, e: Cell)
    requires a != [] && b != [] && a[0] < b[0]
    ensures CanonicalRecordValues(PrintCells([(a, c), (b, e)]))
            == a + ([EQUALS] + (PrintCell(c) + ([SEMICOLON] + (b + ([EQUALS] + PrintCell(e))))))
  {
    assert PrintCells([(a, c), (b, e)]) == [(a, PrintCell(c)), (b, PrintCell(e))];
    hide PrintCell, CanonicalRecordValues;
    TwoFields((a, PrintCell(c)), (b, PrintCell(e)));
  }

  lemma PrintableTwo(a: Bytes, c: Cell, b: Bytes, e: Cell)
    requires (c.Plain? ==> PlainValue(c.printed)) && (e.Plain? ==> PlainValue(e.printed))
    ensures Printable([(a, c), (b, e)])
  {
  }

  const SPREAD_CELLS: Cells := [([97, 61, 34, 112], Plain([49])), ([115, 34, 59, 116], Plain([50]))]
  const TEXT_CELLS: Cells := [([97], Text([112, 61, 49, 59, 115])), ([116], Plain([50]))]

  /** In two names of one record, the one unsafe from the left and the other from the
      right: `a="p` and `s";t` with values 1 and 2 read like `a`
      with the text `p=1;s` and `t` with 2. */
  lemma TextSpreadOverNames()
    ensures Printable(SPREAD_CELLS) && Printable(TEXT_CELLS) && multiset(SPREAD_CELLS) != multiset(TEXT_CELLS)
    ensures CanonicalRecordValues(PrintCells(SPREAD_CELLS)) == CanonicalRecordValues(PrintCells(TEXT_CELLS))
  {
    PrintFive(112, 61, 49, 59, 115);
    hide CanonicalRecordValues, PrintText, PrintCells, Printable;
    PrintableTwo([97, 61, 34, 112], Plain([49]), [115, 34, 59, 116], Plain([50]));
    PrintableTwo([97], Text([112, 61, 49, 59, 115]), [116], Plain([50]));
    TwoCells([97, 61, 34, 112], Plain([49]), [115, 34, 59, 116], Plain([50]));
    TwoCells([97], Text([112, 61, 49, 59, 115]), [116], Plain([50]));
    SpreadStrings();
    DifferentCells([97, 61, 34, 112], Plain([49]), [115, 34, 59, 116], Plain([50]),
                   [97], Text([112, 61, 49, 59, 115]), [116], Plain([50]));
  }

  lemma DifferentCells(a: Bytes, c: Cell, b: Bytes, e: Cell, a': Bytes, c': Cell, b': Bytes, e': Cell)
    requires |a'| == 1 && |a| > 1 && b != [] && b[0] != a'[0]
    ensures multiset([(a, c), (b, e)]) != multiset([(a', c'), (b', e')])
  {
    assert (a', c') in multiset([(a', c'), (b', e')]);
    assert (a', c') !in multiset([(a, c), (b, e)]);
  }

  lemma SpreadStrings()
    ensures [97, 61, 34, 112] + ([EQUALS] + ([49] + ([SEMICOLON] + ([115, 34, 59, 116] + ([EQUALS] + [50])))))
            == [97] + ([EQUALS] + ([QUOTE, 112, 61, 49, 59, 115, QUOTE] + ([SEMICOLON] + ([116] + ([EQUALS] + [50])))))
  {
  }

  lemma PrintFive(a: byte, b: byte, c: byte, d: byte, e: byte)
    requires |Escape(a)| == |Escape(b)| == |Escape(c)| == |Escape(d)| == |Escape(e)| == 1
    ensures PrintText([a, b, c, d, e]) == [QUOTE, a, b, c, d, e, QUOTE]
  {
    PrintTwo(d, e);
    var s: Bytes := [a, b, c, d, e];
    assert s[1..] == [b, c, d, e] && s[1..][1..] == [c, d, e] && s[1..][1..][1..] == [d, e];
    assert EscapeAll([c, d, e]) == [c] + EscapeAll([d, e]);
    assert EscapeAll([b, c, d, e]) == [b] + EscapeAll([c, d, e]);
    assert EscapeAll(s) == [a] + EscapeAll([b, c, d, e]);
  }

  lemma PrintTwo(a: byte, b: byte)
    requires |Escape(a)| == |Escape(b)| == 1
    ensures EscapeAll([a, b]) == [a, b] && PrintText([a, b]) == [QUOTE, a, b, QUOTE]
  {
    var s: Bytes := [a, b];
    assert s[1..] == [b] && s[1..][1..] == [];
    assert EscapeAll(s[1..]) == [b];
  }

  const LEFT_CELLS: Cells := [([97], Text([120, 61])), ([122, 34, 59, 109], Plain([49]))]
  const RIGHT_CELLS: Cells := [([97, 61, 34, 120], Text([59, 122])), ([109], Plain([49]))]

  /** Across two records: one safe from the left, `a` with the text `x=` and `z";m`
      with 1, reads like one safe from the right, `a="x` with the text `;z` and `m`
      with 1. So both have to be safe from the same side. */
  lemma MixedNamesCollide()
    ensures Printable(LEFT_CELLS) && Printable(RIGHT_CELLS) && multiset(LEFT_CELLS) != multiset(RIGHT_CELLS)
    ensures AllNames(LeftSafe, LEFT_CELLS) && AllNames(RightSafe, RIGHT_CELLS)
    ensures CanonicalRecordValues(PrintCells(LEFT_CELLS)) == CanonicalRecordValues(PrintCells(RIGHT_CELLS))
  {
    PrintTwo(120, 61);
    PrintTwo(59, 122);
    hide CanonicalRecordValues, PrintText, PrintCells, Printable, AllNames, LeftSafe, RightSafe;
    PrintableTwo([97], Text([120, 61]), [122, 34, 59, 109], Plain([49]));
    PrintableTwo([97, 61, 34, 120], Text([59, 122]), [109], Plain([49]));
    MixedNamesSafe();
    TwoNames(LeftSafe, [97], Text([120, 61]), [122, 34, 59, 109], Plain([49]));
    TwoNames(RightSafe, [97, 61, 34, 120], Text([59, 122]), [109], Plain([49]));
    TwoCells([97], Text([120, 61]), [122, 34, 59, 109], Plain([49]));
    TwoCells([97, 61, 34, 120], Text([59, 122]), [109], Plain([49]));
    MixedStrings();
    DifferentCells([97, 61, 34, 120], Text([59, 122]), [109], Plain([49]),
                   [97], Text([120, 61]), [122, 34, 59, 109], Plain([49]));
  }

  lemma MixedNamesSafe()
    ensures LeftSafe([97]) && LeftSafe([122, 34, 59, 109])
    ensures RightSafe([97, 61, 34, 120]) && RightSafe([109])
  {
  }

  lemma TwoNames(safe: Bytes -> bool, a: Bytes, c: Cell, b: Bytes, e: Cell)
    requires safe(a) && safe(b)
    ensures AllNames(safe, [(a, c), (b, e)])
  {
  }

  lemma MixedStrings()
    ensures [97] + ([EQUALS] + ([QUOTE, 120, 61, QUOTE] + ([SEMICOLON] + ([122, 34, 59, 109] + ([EQUALS] + [49])))))
            == [97, 61, 34, 120] + ([EQUALS] + ([QUOTE, 59, 122, QUOTE] + ([SEMICOLON] + ([109] + ([EQUALS] + [49])))))
  {
  }
}
