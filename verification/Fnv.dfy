/** Synthetic record ids: 64-bit FNV-1a over a record's fields in key order. */
module Fnv {
  import opened Cite
  import opened Collections
  import opened Quoting
  import opened Sorting

  const TWO64: nat := 0x1_0000_0000_0000_0000
  const FNV_OFFSET: nat := 0xcbf29ce484222325
  const FNV_PRIME: nat := 0x100000001b3

  /** The inverse of the prime modulo 2 to the 64; it exists because the prime
      is odd. */
  const FNV_INVERSE: nat := 0xce965057aff6957b

  type u64 = x: nat | x < TWO64

  // ---- exclusive or ----

  /** Bitwise exclusive or. */
  function Xor(a: nat, b: nat): nat
    decreases a + b
  {
    if a == 0 && b == 0 then 0 else (a % 2 + b % 2) % 2 + 2 * Xor(a / 2, b / 2)
  }

  lemma XorParts(a: nat, b: nat)
    ensures Xor(a, b) % 2 == (a % 2 + b % 2) % 2
    ensures Xor(a, b) / 2 == Xor(a / 2, b / 2)
  {
  }

  lemma BitCancels(p: nat, q: nat)
    requires p < 2 && q < 2
    ensures ((p + q) % 2 + q) % 2 == p
  {
  }

  lemma {:induction false} XorInvolutive(a: nat, b: nat)
    ensures Xor(Xor(a, b), b) == a
    decreases a + b
  {
    hide Xor;
    if a == 0 && b == 0 {
      XorZero();
    } else {
      XorParts(a, b);
      XorParts(Xor(a, b), b);
      BitCancels(a % 2, b % 2);
      XorInvolutive(a / 2, b / 2);
    }
  }

  lemma XorZero()
    ensures Xor(0, 0) == 0
  {
  }

  lemma {:induction false} XorBounded(a: nat, b: nat, bound: nat, k: nat)
    requires bound == Power2(k) && a < bound && b < bound
    ensures Xor(a, b) < bound
    decreases k
  {
    if k > 0 {
      XorBounded(a / 2, b / 2, Power2(k - 1), k - 1);
    }
  }

  function Power2(k: nat): nat {
    if k == 0 then 1 else 2 * Power2(k - 1)
  }

  lemma SixteenTimes(k: nat)
    requires k > 0
    ensures Power2(4 * k) == 16 * Power2(4 * (k - 1))
  {
    assert Power2(4 * k) == 2 * Power2(4 * k - 1);
    assert Power2(4 * k - 1) == 2 * Power2(4 * k - 2);
    assert Power2(4 * k - 2) == 2 * Power2(4 * k - 3);
    assert Power2(4 * k - 3) == 2 * Power2(4 * (k - 1));
  }

  lemma {:induction false} HexPower(k: nat)
    ensures Power2(4 * k) == SixteenPower(k)
  {
    if k > 0 {
      SixteenTimes(k);
      HexPower(k - 1);
    }
  }

  function SixteenPower(k: nat): nat {
    if k == 0 then 1 else 16 * SixteenPower(k - 1)
  }

  lemma Power64()
    ensures Power2(64) == TWO64
  {
    HexPower(16);
    assert SixteenPower(4) == 0x1_0000;
    assert SixteenPower(8) == 0x1_0000_0000;
    assert SixteenPower(12) == 0x1_0000_0000_0000;
  }

  lemma XorFits(h: u64, b: byte)
    ensures Xor(h, b) < TWO64
  {
    hide Xor, Power2;
    Power64();
    XorBounded(h, b, TWO64, 64);
  }

  /** Bit k of a, from the low end. */
  function Bit(a: nat, k: nat): nat {
    if k == 0 then a % 2 else Bit(a / 2, k - 1)
  }

  /** A bit of the exclusive or is set exactly when it is set in one of the two only. */
  lemma {:induction false} XorBits(a: nat, b: nat, k: nat)
    ensures Bit(Xor(a, b), k) == if Bit(a, k) == Bit(b, k) then 0 else 1
    decreases k
  {
    XorParts(a, b);
    hide Xor;
    if k > 0 {
      XorBits(a / 2, b / 2, k - 1);
    }
  }

  // ---- one step ----

  /** hash ^= byte, then a wrapping multiplication by the prime. */
  function Step(h: u64, b: byte): u64 {
    (Xor(h, b) * FNV_PRIME) % TWO64
  }

  /** Undoing a step: multiply by the inverse, then the same exclusive or. */
  function Unstep(h: u64, b: byte): nat {
    Xor((h * FNV_INVERSE) % TWO64, b)
  }

  lemma PrimeHasInverse()
    ensures FNV_PRIME * FNV_INVERSE % TWO64 == 1
  {
  }

  /** Multiplying by k and then by its inverse, each modulo m, gives x back. */
  lemma MultiplyBack(x: nat, k: nat, inv: nat, m: nat)
    requires m > 1 && x < m && k * inv % m == 1
    ensures ((x * k) % m) * inv % m == x
  {
    var q, r := x * k / m, (x * k) % m;
    var t := k * inv / m;
    assert x * k == q * m + r;
    assert k * inv == t * m + 1;
    assert r * inv == x * (k * inv) - (q * inv) * m by {
      assert (x * k) * inv == x * (k * inv);
      assert (q * m + r) * inv == (q * inv) * m + r * inv;
    }
    assert x * (t * m + 1) == (x * t) * m + x;
    ModularUnique(r * inv, x * t - q * inv, x, m);
  }

  lemma ModularUnique(y: nat, q: int, x: nat, m: nat)
    requires m > 0 && x < m && y == q * m + x
    ensures y % m == x
  {
    var q' := y / m;
    assert y == q' * m + y % m;
    var d := q - q';
    assert d * m == y % m - x;
  }

  /** Each step is a bijection on 64-bit states. */
  lemma StepBijective(h: u64, b: byte)
    ensures Step(h, b) < TWO64 && Unstep(Step(h, b), b) == h
    ensures Unstep(h, b) < TWO64 && Step(Unstep(h, b), b) == h
  {
    hide Xor;
    PrimeHasInverse();
    XorFits(h, b);
    MultiplyBack(Xor(h, b), FNV_PRIME, FNV_INVERSE, TWO64);
    XorInvolutive(h, b);
    var g := (h * FNV_INVERSE) % TWO64;
    XorFits(g, b);
    XorInvolutive(g, b);
    MultiplyBack(h, FNV_INVERSE, FNV_PRIME, TWO64);
  }

  /** From the same state different bytes lead to different states. */
  lemma StepSeparatesBytes(h: u64, b: byte, c: byte)
    requires b != c
    ensures Step(h, b) != Step(h, c)
  {
    hide Xor;
    PrimeHasInverse();
    XorFits(h, b);
    XorFits(h, c);
    MultiplyBack(Xor(h, b), FNV_PRIME, FNV_INVERSE, TWO64);
    MultiplyBack(Xor(h, c), FNV_PRIME, FNV_INVERSE, TWO64);
    XorSeparates(h, b, c);
  }

  lemma {:induction false} XorSeparates(h: nat, b: nat, c: nat)
    requires b != c
    ensures Xor(h, b) != Xor(h, c)
    decreases h + b + c
  {
    hide Xor;
    XorParts(h, b);
    XorParts(h, c);
    if b / 2 != c / 2 {
      XorSeparates(h / 2, b / 2, c / 2);
    }
  }

  // ---- whole streams ----

  function Fold(h: u64, data: Bytes): u64
    decreases |data|
  {
    hide Step;
    if data == [] then h else Fold(Step(h, data[0]), data[1..])
  }

  method Fnv1a64With(init: u64, data: Bytes) returns (hash: u64)
    ensures hash == Fold(init, data)
  {
    hide Xor;
    hash := init;
    for i := 0 to |data|
      invariant Fold(hash, data[i..]) == Fold(init, data)
    {
      assert data[i..][1..] == data[i + 1..];
      var x := Xor(hash, data[i]);
      hash := (x * FNV_PRIME) % TWO64;
    }
  }

  lemma {:induction false} FoldConcat(h: u64, a: Bytes, b: Bytes)
    ensures Fold(h, a + b) == Fold(Fold(h, a), b)
    decreases |a|
  {
    if a == [] {
      assert a + b == b;
    } else {
      assert (a + b)[1..] == a[1..] + b;
      FoldConcat(Step(h, a[0]), a[1..], b);
    }
  }

  /** Reading the same bytes never merges two states. */
  lemma {:induction false} FoldInjective(h: u64, g: u64, data: Bytes)
    requires h != g
    ensures Fold(h, data) != Fold(g, data)
    decreases |data|
  {
    hide Step, Unstep;
    if data != [] {
      StepBijective(h, data[0]);
      StepBijective(g, data[0]);
      FoldInjective(Step(h, data[0]), Step(g, data[0]), data[1..]);
    }
  }

  /** Two streams of equal length that differ in exactly one byte always hash
      differently. */
  lemma OneByteChangesHash(h: u64, a: Bytes, k: nat, b: byte)
    requires k < |a| && a[k] != b
    ensures Fold(h, a) != Fold(h, a[k := b])
  {
    hide Step;
    assert a == a[..k] + ([a[k]] + a[k + 1..]);
    assert a[k := b] == a[..k] + ([b] + a[k + 1..]);
    FoldConcat(h, a[..k], [a[k]] + a[k + 1..]);
    FoldConcat(h, a[..k], [b] + a[k + 1..]);
    var g := Fold(h, a[..k]);
    StepSeparatesBytes(g, a[k], b);
    FoldInjective(Step(g, a[k]), Step(g, b), a[k + 1..]);
  }

  // ---- record ids ----

  /** The bytes of all names and values, in order, nothing in between. */
  function FieldBytes(fields: Fields): Bytes {
    if fields == [] then [] else fields[0].0 + fields[0].1 + FieldBytes(fields[1..])
  }

  function HexDigit(d: nat): char
    requires d < 16
  {
    "0123456789abcdef"[d]
  }

  /** The last k hexadecimal digits of h. */
  function Hex(h: nat, k: nat): string {
    if k == 0 then "" else Hex(h / 16, k - 1) + [HexDigit(h % 16)]
  }

  function IdOf(h: u64): string {
    "id-" + Hex(h, 16)
  }

  lemma {:induction false} HexLength(h: nat, k: nat)
    ensures |Hex(h, k)| == k
  {
    if k > 0 {
      HexLength(h / 16, k - 1);
    }
  }

  lemma HexParts(h: nat, k: nat)
    requires k > 0
    ensures |Hex(h, k)| == k && Hex(h, k)[k - 1] == HexDigit(h % 16) && Hex(h, k)[..k - 1] == Hex(h / 16, k - 1)
  {
    HexLength(h / 16, k - 1);
  }

  lemma DigitsDiffer(a: nat, b: nat)
    requires a < 16 && b < 16 && a != b
    ensures HexDigit(a) != HexDigit(b)
  {
  }

  lemma {:induction false} HexInjective(g: nat, h: nat, k: nat)
    requires g < Power2(4 * k) && h < Power2(4 * k) && g != h
    ensures Hex(g, k) != Hex(h, k)
    decreases k
  {
    if k > 0 {
      hide Power2, Hex, HexDigit;
      SixteenTimes(k);
      HexParts(g, k);
      HexParts(h, k);
      if g / 16 != h / 16 {
        HexInjective(g / 16, h / 16, k - 1);
      } else {
        DigitsDiffer(g % 16, h % 16);
      }
    }
  }

  lemma IdsDiffer(g: u64, h: u64)
    requires g != h
    ensures IdOf(g) != IdOf(h)
  {
    Power64();
    HexInjective(g, h, 16);
    assert IdOf(g)[3..] == Hex(g, 16) && IdOf(h)[3..] == Hex(h, 16);
  }

  /** The fields in the order the program iterates over them: sorted by name
      (names are distinct, so the values never decide). */
  function InOrder(fields: Fields): Fields {
    Sort(fields, PairLe)
  }

  function SyntheticId(fields: Fields): string {
    IdOf(Fold(FNV_OFFSET, FieldBytes(InOrder(fields))))
  }

  method SyntheticRecordId(fields: Fields) returns (id: string)
    ensures id == SyntheticId(fields)
  {
    var ordered := InOrder(fields);
    var hash := Fnv1a64With(FNV_OFFSET, []);
    assert ordered[0..] == ordered;
    for i := 0 to |ordered|
      invariant Fold(hash, FieldBytes(ordered[i..])) == Fold(FNV_OFFSET, FieldBytes(ordered))
    {
      assert ordered[i..][1..] == ordered[i + 1..];
      var (name, repr) := ordered[i];
      FoldConcat(hash, name + repr, FieldBytes(ordered[i + 1..]));
      FoldConcat(hash, name, repr);
      hash := Fnv1a64With(hash, name);
      hash := Fnv1a64With(hash, repr);
    }
    id := IdOf(hash);
  }

  lemma HexNext(h: nat, k: nat, front: string, d: char)
    requires k > 0 && Hex(h / 16, k - 1) == front && HexDigit(h % 16) == d
    ensures Hex(h, k) == front + [d]
  {
  }

  lemma FirstDigits()
    ensures Hex(0xcbf29ce4, 8) == "cbf29ce4"
  {
    hide Hex;
    NoHex();
    HexNext(0xc, 1, "", 'c');
    HexNext(0xcb, 2, "c", 'b');
    HexNext(0xcbf, 3, "cb", 'f');
    HexNext(0xcbf2, 4, "cbf", '2');
    HexNext(0xcbf29, 5, "cbf2", '9');
    HexNext(0xcbf29c, 6, "cbf29", 'c');
    HexNext(0xcbf29ce, 7, "cbf29c", 'e');
    HexNext(0xcbf29ce4, 8, "cbf29ce", '4');
  }

  lemma LastDigits()
    ensures Hex(0xcbf29ce484222325, 16) == "cbf29ce484222325"
  {
    FirstDigits();
    hide Hex;
    HexNext(0xcbf29ce48, 9, "cbf29ce4", '8');
    HexNext(0xcbf29ce484, 10, "cbf29ce48", '4');
    HexNext(0xcbf29ce4842, 11, "cbf29ce484", '2');
    HexNext(0xcbf29ce48422, 12, "cbf29ce4842", '2');
    HexNext(0xcbf29ce484222, 13, "cbf29ce48422", '2');
    HexNext(0xcbf29ce4842223, 14, "cbf29ce484222", '3');
    HexNext(0xcbf29ce48422232, 15, "cbf29ce4842223", '2');
    HexNext(0xcbf29ce484222325, 16, "cbf29ce48422232", '5');
  }

  lemma NoHex()
    ensures Hex(0, 0) == ""
  {
  }

  /** The id of a record without fields is the offset of the algorithm in sixteen
      hexadecimal digits. */
  lemma EmptyRecordId()
    ensures SyntheticId([]) == "id-cbf29ce484222325"
  {
    LastDigits();
    hide Hex;
    assert Fold(FNV_OFFSET, []) == 0xcbf29ce484222325;
  }

  /** Two published values of the algorithm: for no bytes and for "a". */
  lemma KnownHashes()
    ensures Fold(FNV_OFFSET, []) == 0xcbf29ce484222325
    ensures Fold(FNV_OFFSET, [97]) == 0xaf63dc4c8601ec8c
  {
    XorOfTheLetter();
    hide Xor;
    assert Step(0xcbf29ce484222325, 97) == 0xaf63dc4c8601ec8c;
    var a: Bytes := [97];
    assert a[1..] == [];
  }

  lemma XorOfTheLetter()
    ensures Xor(0xcbf29ce484222325, 97) == 0xcbf29ce484222344
  {
    hide Xor;
    XorParts(0xcbf29ce484222325, 97);
    XorParts(0x65f94e7242111192, 48);
    XorParts(0x32fca739210888c9, 24);
    XorParts(0x197e539c90844464, 12);
    XorParts(0xcbf29ce48422232, 6);
    XorParts(0x65f94e724211119, 3);
    XorParts(0x32fca739210888c, 1);
    XorWithZero(0x197e539c9084446);
  }

  lemma {:induction false} XorWithZero(a: nat)
    ensures Xor(a, 0) == a
  {
    if a > 0 {
      XorWithZero(a / 2);
    }
  }

  /** Insertion order does not matter. */
  lemma IdIgnoresInsertionOrder(a: Fields, b: Fields)
    requires multiset(a) == multiset(b)
    ensures SyntheticId(a) == SyntheticId(b)
  {
    PairsOrdered();
    SortPermutation(a, b, PairLe);
  }

  /** Records whose ordered bytes have equal length and differ in exactly one
      byte always get different ids. */
  lemma OneByteChangesId(a: Fields, b: Fields, k: nat)
    requires |FieldBytes(InOrder(a))| == |FieldBytes(InOrder(b))|
    requires k < |FieldBytes(InOrder(a))| && FieldBytes(InOrder(a))[k] != FieldBytes(InOrder(b))[k]
    requires forall i | 0 <= i < |FieldBytes(InOrder(a))| && i != k ::
               FieldBytes(InOrder(a))[i] == FieldBytes(InOrder(b))[i]
    ensures SyntheticId(a) != SyntheticId(b)
  {
    hide FieldBytes, InOrder, Hex;
    var x, y := FieldBytes(InOrder(a)), FieldBytes(InOrder(b));
    OneByteChangesHash(FNV_OFFSET, x, k, y[k]);
    assert y == x[k := y[k]];
    IdsDiffer(Fold(FNV_OFFSET, x), Fold(FNV_OFFSET, y));
  }

  // ---- when the bytes tell records apart ----

  const OPEN: byte := 40
  const CLOSE: byte := 41
  const NULL: Bytes := [78, 117, 108, 108]

  /** A value as the debug printer shows it; body is what stands in parentheses. */
  datatype Shown =
    | NullShown
    | BoolShown(body: Bytes)
    | IntShown(body: Bytes)
    | FloatShown(body: Bytes)
    | StrShown(body: Bytes)

  /** "Null", "Bool", "Int", "Float" and "Str". */
  function Tag(v: Shown): Bytes {
    match v
    case NullShown => NULL
    case BoolShown(_) => [66, 111, 111, 108]
    case IntShown(_) => [73, 110, 116]
    case FloatShown(_) => [70, 108, 111, 97, 116]
    case StrShown(_) => [83, 116, 114]
  }

  function Show(v: Shown): Bytes {
    if v.NullShown? then Tag(v) else Tag(v) + ([OPEN] + (v.body + [CLOSE]))
  }

  /** Texts are quoted and escaped; the other bodies hold no closing parenthesis. */
  predicate Showable(v: Shown) {
    match v
    case NullShown => true
    case StrShown(body) => Quoted(body)
    case _ => CLOSE !in v.body
  }

  lemma BodyEnds(v: Shown, x: Bytes, w: Shown, y: Bytes)
    requires Showable(v) && Showable(w) && Tag(v) == Tag(w) && !v.NullShown?
    requires v.body + ([CLOSE] + x) == w.body + ([CLOSE] + y)
    ensures v == w && x == y
  {
    hide QuotedTail;
    var p, q := [CLOSE] + x, [CLOSE] + y;
    if v.StrShown? {
      QuotedEnds(v.body, p, w.body, q);
    } else {
      FirstSeparator(v.body, p, w.body, q, CLOSE);
    }
    assert x == p[1..] && y == q[1..];
  }

  lemma ShowNests(v: Shown, x: Bytes)
    requires !v.NullShown?
    ensures Show(v) + x == Tag(v) + ([OPEN] + (v.body + ([CLOSE] + x)))
  {
  }

  lemma SamePrefix(n: Bytes, x: Bytes, y: Bytes)
    requires n + x == n + y
    ensures x == y
  {
    assert x == (n + x)[|n|..] && y == (n + y)[|n|..];
  }

  lemma AfterTag(v: Shown, x: Bytes, w: Shown, y: Bytes)
    requires Showable(v) && Showable(w) && Tag(v) == Tag(w) && v.NullShown? == w.NullShown?
    requires Show(v) + x == Show(w) + y
    ensures v == w && x == y
  {
    if v.NullShown? {
      SamePrefix(Tag(v), x, y);
    } else {
      ShowNests(v, x);
      ShowNests(w, y);
      hide Show, Tag, Showable;
      var p, q := v.body + ([CLOSE] + x), w.body + ([CLOSE] + y);
      SamePrefix(Tag(v), [OPEN] + p, [OPEN] + q);
      SamePrefix([OPEN], p, q);
      BodyEnds(v, x, w, y);
    }
  }

  /** No shown value is the beginning of another: it ends itself. */
  lemma ShowEnds(v: Shown, x: Bytes, w: Shown, y: Bytes)
    requires Showable(v) && Showable(w) && Show(v) + x == Show(w) + y
    ensures v == w && x == y
  {
    assert Tag(v)[0] == (Show(v) + x)[0] && Tag(w)[0] == (Show(w) + y)[0];
    AfterTag(v, x, w, y);
  }

  /** A name with its value as shown. */
  type Row = (Bytes, Shown)

  function ShowRows(rows: seq<Row>): Fields {
    if rows == [] then [] else [(rows[0].0, Show(rows[0].1))] + ShowRows(rows[1..])
  }

  ghost predicate AllShowable(rows: seq<Row>) {
    forall r | r in rows :: Showable(r.1)
  }

  lemma RowBytes(rows: seq<Row>)
    requires rows != []
    ensures FieldBytes(ShowRows(rows)) == rows[0].0 + (Show(rows[0].1) + FieldBytes(ShowRows(rows[1..])))
  {
    assert ShowRows(rows)[1..] == ShowRows(rows[1..]);
  }

  /** Under the same names in the same order, the bytes determine the values. */
  lemma {:induction false} SameNamesDecode(a: seq<Row>, b: seq<Row>)
    requires AllShowable(a) && AllShowable(b) && |a| == |b| && forall i | 0 <= i < |a| :: a[i].0 == b[i].0
    requires FieldBytes(ShowRows(a)) == FieldBytes(ShowRows(b))
    ensures a == b
  {
    if a != [] {
      RowBytes(a);
      RowBytes(b);
      hide FieldBytes, ShowRows, Show, Showable;
      var x, y := Show(a[0].1) + FieldBytes(ShowRows(a[1..])), Show(b[0].1) + FieldBytes(ShowRows(b[1..]));
      SamePrefix(a[0].0, x, y);
      ShowEnds(a[0].1, FieldBytes(ShowRows(a[1..])), b[0].1, FieldBytes(ShowRows(b[1..])));
      SameNamesDecode(a[1..], b[1..]);
      assert a == [a[0]] + a[1..] && b == [b[0]] + b[1..];
    }
  }

  /** What every value of a kind starts with: "Null", "Bool(", "Int(", "Float(" or
      "Str(". */
  function Token(v: Shown): Bytes {
    if v.NullShown? then NULL else Tag(v) + [OPEN]
  }

  /** s in bytes, for characters below 256. */
  function Ascii(s: string): Bytes {
    seq(|s|, i requires 0 <= i < |s| => s[i] as int % 256)
  }

  lemma TokensSpelled(body: Bytes)
    ensures Token(NullShown) == Ascii("Null")
    ensures Token(BoolShown(body)) == Ascii("Bool(") && Token(IntShown(body)) == Ascii("Int(")
    ensures Token(FloatShown(body)) == Ascii("Float(") && Token(StrShown(body)) == Ascii("Str(")
  {
  }

  /** t stands at position i of s. */
  predicate At(s: Bytes, i: nat, t: Bytes) {
    i + |t| <= |s| && s[i..i + |t|] == t
  }

  /** A name in which none of the five tokens occurs. */
  ghost predicate Delimits(name: Bytes) {
    forall v: Shown, i: nat :: !At(name, i, Token(v))
  }

  ghost predicate Delimited(rows: seq<Row>) {
    forall r | r in rows :: Delimits(r.0)
  }

  /** No token starts with a letter from the middle of one. */
  lemma TokenLetters(v: Shown, w: Shown, k: nat)
    requires 0 < k < |Token(v)|
    ensures Token(v)[k] != Token(w)[0]
  {
  }

  lemma TokenThere(n: Bytes, v: Shown, x: Bytes)
    ensures Token(v) <= Show(v) && At(n + (Show(v) + x), |n|, Token(v))
  {
    assert Token(v) <= Show(v);
    var s, t := n + (Show(v) + x), Token(v);
    assert s[|n|..|n| + |t|] == Show(v)[..|t|];
  }

  /** No token starts inside a name: it would have to run over the end of the name,
      where another one starts. */
  lemma NotInside(m: Bytes, w: Shown, y: Bytes, v: Shown, k: nat)
    requires Delimits(m) && k < |m|
    ensures !At(m + (Show(w) + y), k, Token(v))
  {
    var s, t := m + (Show(w) + y), Token(v);
    TokenThere(m, w, y);
    hide Token, Show;
    if k + |t| <= |m| {
      assert s[k..k + |t|] == m[k..k + |t|];
      assert !At(m, k, Token(v));
    } else if k + |t| <= |s| {
      TokenLetters(v, w, |m| - k);
      FirstByte(w);
      assert s[|m|] == Show(w)[0];
      assert s[k..k + |t|][|m| - k] == s[|m|];
    }
  }

  lemma FirstByte(w: Shown)
    ensures Show(w) != [] && Token(w) != [] && Show(w)[0] == Token(w)[0]
  {
  }

  /** So the first token ends the name. */
  lemma HeadDecodes(r: Row, x: Bytes, q: Row, y: Bytes)
    requires Showable(r.1) && Showable(q.1) && Delimits(r.0) && Delimits(q.0)
    requires r.0 + (Show(r.1) + x) == q.0 + (Show(q.1) + y)
    ensures r == q && x == y
  {
    hide Show, Token, Delimits, At, Showable;
    var s := r.0 + (Show(r.1) + x);
    assert |r.0| == |q.0| by {
      TokenThere(r.0, r.1, x);
      TokenThere(q.0, q.1, y);
      if |r.0| < |q.0| {
        NotInside(q.0, q.1, y, r.1, |r.0|);
      } else if |q.0| < |r.0| {
        NotInside(r.0, r.1, x, q.1, |q.0|);
      }
    }
    assert r.0 == s[..|r.0|] && q.0 == s[..|q.0|];
    SamePrefix(r.0, Show(r.1) + x, Show(q.1) + y);
    ShowEnds(r.1, x, q.1, y);
  }

  /** Without the five tokens in names, the bytes determine the whole record, however
      many names it has and whatever its values. */
  lemma {:induction false} DelimitedDecode(a: seq<Row>, b: seq<Row>)
    requires AllShowable(a) && AllShowable(b) && Delimited(a) && Delimited(b)
    requires FieldBytes(ShowRows(a)) == FieldBytes(ShowRows(b))
    ensures a == b
  {
    if a != [] {
      RowBytes(a);
    }
    if b != [] {
      RowBytes(b);
    }
    if a != [] && b != [] {
      hide FieldBytes, ShowRows, Showable;
      HeadDecodes(a[0], FieldBytes(ShowRows(a[1..])), b[0], FieldBytes(ShowRows(b[1..])));
      DelimitedDecode(a[1..], b[1..]);
      assert a == [a[0]] + a[1..] && b == [b[0]] + b[1..];
    }
  }

  /** Two records, each listed in name order, feed the hash the same bytes exactly
      when they are the same record, provided they have the same names, or no name
      holds "Null", "Bool(", "Int(", "Float(" or "Str(". Values are arbitrary. */
  lemma BytesTellRecordsApart(a: seq<Row>, b: seq<Row>)
    requires AllShowable(a) && AllShowable(b)
    requires || (Delimited(a) && Delimited(b))
             || (|a| == |b| && forall i | 0 <= i < |a| :: a[i].0 == b[i].0)
    ensures FieldBytes(ShowRows(a)) == FieldBytes(ShowRows(b)) <==> a == b
  {
    if FieldBytes(ShowRows(a)) == FieldBytes(ShowRows(b)) {
      if Delimited(a) && Delimited(b) {
        DelimitedDecode(a, b);
      } else {
        SameNamesDecode(a, b);
      }
    }
  }

  /** That list is what the id is made of. */
  lemma IdOfListed(rows: seq<Row>)
    requires Sorted(ShowRows(rows), PairLe)
    ensures SyntheticId(ShowRows(rows)) == IdOf(Fold(FNV_OFFSET, FieldBytes(ShowRows(rows))))
  {
    var fields := ShowRows(rows);
    PairsOrdered();
    SortCorrect(fields, PairLe);
    SortedUnique(InOrder(fields), fields, PairLe);
  }

  /** Names and values are not delimited, so a record with two fields has the id
      of one whose single name swallows the first value and the second name. */
  lemma UndelimitedFieldsCollide(a: Bytes, v: Bytes, b: Bytes, w: Bytes)
    requires PairLe((a, v), (b, w))
    ensures SyntheticId([(a, v), (b, w)]) == SyntheticId([(a + v + b, w)])
  {
    var one, two := [(a + v + b, w)], [(a, v), (b, w)];
    assert Sort(one, PairLe) == one;
    assert two[1..] == [(b, w)] && Sort([(b, w)], PairLe) == [(b, w)];
    assert Sort(two, PairLe) == two;
    assert FieldBytes([(b, w)]) == b + w + [];
    assert FieldBytes(two) == a + v + (b + w);
    assert FieldBytes(one) == a + v + b + w + [];
    assert a + v + (b + w) == a + v + b + w + [];
  }

  /** The names `aStr("p` and `s")t`, and the names `a` and `t`. */
  const SPREAD_ROWS: seq<Row> :=
    [([97, 83, 116, 114, 40, 34, 112], NullShown), ([115, 34, 41, 116], NullShown)]
  const TEXT_ROWS: seq<Row> :=
    [([97], StrShown([34, 112, 78, 117, 108, 108, 115, 34])), ([116], NullShown)]

  /** Nor need a name hold a whole value: one token is enough, with a quote in another
      name. A record with two nulls under names that open and close a text has the id
      of one whose first value is that text. */
  lemma TextSpreadOverNames()
    ensures AllShowable(SPREAD_ROWS) && AllShowable(TEXT_ROWS) && SPREAD_ROWS != TEXT_ROWS
    ensures FieldBytes(ShowRows(SPREAD_ROWS)) == FieldBytes(ShowRows(TEXT_ROWS))
    ensures SyntheticId(ShowRows(SPREAD_ROWS)) == SyntheticId(ShowRows(TEXT_ROWS))
  {
    SpreadRows();
    TwoRows(SPREAD_ROWS);
    TwoRows(TEXT_ROWS);
    TwoSorted(SPREAD_ROWS);
    TwoSorted(TEXT_ROWS);
    hide FieldBytes, ShowRows, Show, SyntheticId, Fold, Showable;
    IdOfListed(SPREAD_ROWS);
    IdOfListed(TEXT_ROWS);
  }

  lemma SpreadRows()
    ensures AllShowable(SPREAD_ROWS) && AllShowable(TEXT_ROWS) && SPREAD_ROWS != TEXT_ROWS
    ensures SPREAD_ROWS[0].0 + (Show(SPREAD_ROWS[0].1) + (SPREAD_ROWS[1].0 + Show(SPREAD_ROWS[1].1)))
            == TEXT_ROWS[0].0 + (Show(TEXT_ROWS[0].1) + (TEXT_ROWS[1].0 + Show(TEXT_ROWS[1].1)))
  {
    TextIsQuoted();
    hide QuotedTail;
    assert |SPREAD_ROWS[0].0| != |TEXT_ROWS[0].0|;
  }

  lemma TwoRows(rows: seq<Row>)
    requires |rows| == 2
    ensures FieldBytes(ShowRows(rows)) == rows[0].0 + (Show(rows[0].1) + (rows[1].0 + Show(rows[1].1)))
  {
    var rest := rows[1..];
    assert rest[0] == rows[1] && rest[1..] == [];
    RowBytes(rows);
    RowBytes(rest);
    assert FieldBytes(ShowRows(rest[1..])) == [];
    hide FieldBytes, ShowRows, Show;
    assert Show(rest[0].1) + [] == Show(rest[0].1);
  }

  lemma TwoSorted(rows: seq<Row>)
    requires |rows| == 2 && rows[0].0 != [] && rows[1].0 != [] && rows[0].0[0] < rows[1].0[0]
    ensures Sorted(ShowRows(rows), PairLe)
  {
    hide Show;
    var rest := rows[1..];
    assert rest[0] == rows[1] && rest[1..] == [];
    assert ShowRows(rest) == [(rest[0].0, Show(rest[0].1))] + ShowRows(rest[1..]);
    assert ShowRows(rows) == [(rows[0].0, Show(rows[0].1))] + ShowRows(rest);
  }

  lemma TextIsQuoted()
    ensures Quoted([34, 112, 78, 117, 108, 108, 115, 34])
  {
    var t: Bytes := [112, 78, 117, 108, 108, 115, 34];
    assert QuotedTail(t[6..]);
    assert t[5..][1..] == t[6..] && QuotedTail(t[5..]);
    assert t[4..][1..] == t[5..] && QuotedTail(t[4..]);
    assert t[3..][1..] == t[4..] && QuotedTail(t[3..]);
    assert t[2..][1..] == t[3..] && QuotedTail(t[2..]);
    assert t[1..][1..] == t[2..] && QuotedTail(t[1..]);
    assert [34, 112, 78, 117, 108, 108, 115, 34][1..] == t;
  }
}
