/** Quoted text as the printers write it: the value text of JSON, and what the
    quotes and escapes guarantee about where it ends. */
module Quoting {
  import opened Collections

  // ---- separators ----

  /** Equal concatenations agree on what precedes the first separator. */
  lemma FirstSeparator(a: Bytes, x: Bytes, b: Bytes, y: Bytes, s: byte)
    requires s !in a && s !in b
    requires (x == [] || x[0] == s) && (y == [] || y[0] == s)
    requires a + x == b + y
    ensures a == b && x == y
  {
    var whole := a + x;
    assert a == whole[..|a|] && b == whole[..|b|];
    assert x != [] ==> whole[|a|] == s;
    assert y != [] ==> whole[|b|] == s;
    assert |a| == |b|;
    assert x == whole[|a|..] && y == whole[|b|..];
  }

  /** ... and on what follows the last one. */
  lemma LastSeparator(x: Bytes, a: Bytes, y: Bytes, b: Bytes, s: byte)
    requires s !in a && s !in b
    requires (x == [] || x[|x| - 1] == s) && (y == [] || y[|y| - 1] == s)
    requires x + a == y + b
    ensures x == y && a == b
  {
    var whole := x + a;
    assert a == whole[|x|..] && b == whole[|y|..];
    assert x != [] ==> whole[|x| - 1] == s;
    assert y != [] ==> whole[|y| - 1] == s;
    assert |x| == |y|;
    assert x == whole[..|x|] && y == whole[..|y|];
  }

  // ---- quoted text ----

  const QUOTE: byte := 34
  const BACKSLASH: byte := 92

  /** The rest of a quoted text after its opening quote: the first quote that no
      backslash precedes is the last byte. */
  predicate QuotedTail(s: Bytes) {
    if s == [] then false
    else if s[0] == QUOTE then |s| == 1
    else if s[0] == BACKSLASH then |s| >= 2 && QuotedTail(s[2..])
    else QuotedTail(s[1..])
  }

  predicate Quoted(s: Bytes) {
    s != [] && s[0] == QUOTE && QuotedTail(s[1..])
  }

  /** A quoted text ends itself, whatever follows. */
  lemma {:induction false} QuotedTailEnds(a: Bytes, x: Bytes, b: Bytes, y: Bytes)
    requires QuotedTail(a) && QuotedTail(b) && a + x == b + y
    ensures a == b && x == y
  {
    assert a[0] == (a + x)[0] && b[0] == (b + y)[0];
    if a[0] == QUOTE {
      assert a == b == [QUOTE];
      assert x == (a + x)[1..] && y == (b + y)[1..];
    } else {
      var k := if a[0] == BACKSLASH then 2 else 1;
      assert a[k..] + x == (a + x)[k..] && b[k..] + y == (b + y)[k..];
      QuotedTailEnds(a[k..], x, b[k..], y);
      assert a[..k] == (a + x)[..k] && b[..k] == (b + y)[..k];
      assert a == a[..k] + a[k..] && b == b[..k] + b[k..];
    }
  }

  lemma QuotedEnds(a: Bytes, x: Bytes, b: Bytes, y: Bytes)
    requires Quoted(a) && Quoted(b) && a + x == b + y
    ensures a == b && x == y
  {
    assert a[1..] + x == (a + x)[1..] && b[1..] + y == (b + y)[1..];
    QuotedTailEnds(a[1..], x, b[1..], y);
    assert a == [QUOTE] + a[1..] && b == [QUOTE] + b[1..];
  }

  /** A quote before the last byte follows a backslash. */
  ghost predicate QuotesEscaped(s: Bytes) {
    s != [] && s[|s| - 1] == QUOTE
    && forall i | 0 <= i < |s| - 1 && s[i] == QUOTE :: i > 0 && s[i - 1] == BACKSLASH
  }

  lemma {:induction false} TailQuotesEscaped(s: Bytes)
    requires QuotedTail(s)
    ensures QuotesEscaped(s)
  {
    if s[0] != QUOTE {
      var k := if s[0] == BACKSLASH then 2 else 1;
      var rest := s[k..];
      TailQuotesEscaped(rest);
      assert s[|s| - 1] == rest[|rest| - 1];
      forall i | 0 <= i < |s| - 1 && s[i] == QUOTE
        ensures i > 0 && s[i - 1] == BACKSLASH
      {
        if i >= k {
          assert rest[i - k] == QUOTE;
        }
      }
    }
  }

  /** A quoted text starts and ends with a quote, and every quote between follows a
      backslash. */
  lemma QuotedShape(s: Bytes)
    requires Quoted(s)
    ensures |s| >= 2 && s[0] == QUOTE && s[|s| - 1] == QUOTE
    ensures forall i | 0 < i < |s| - 1 && s[i] == QUOTE :: s[i - 1] == BACKSLASH
  {
    var tail := s[1..];
    TailQuotesEscaped(tail);
    forall i | 0 < i < |s| - 1 && s[i] == QUOTE
      ensures s[i - 1] == BACKSLASH
    {
      assert tail[i - 1] == QUOTE;
    }
  }

  // ---- how JSON writes a text ----

  function HexByte(d: nat): byte
    requires d < 16
  {
    if d < 10 then 48 + d else 87 + d
  }

  /** Quotes and backslashes get a backslash, control characters a short escape or
      four hexadecimal digits, and everything else stays. */
  function Escape(b: byte): Bytes {
    if b == QUOTE || b == BACKSLASH then [BACKSLASH, b]
    else if b == 8 then [BACKSLASH, 98]
    else if b == 9 then [BACKSLASH, 116]
    else if b == 10 then [BACKSLASH, 110]
    else if b == 12 then [BACKSLASH, 102]
    else if b == 13 then [BACKSLASH, 114]
    else if b < 32 then [BACKSLASH, 117, 48, 48, 48 + b / 16, HexByte(b % 16)]
    else [b]
  }

  function EscapeAll(s: Bytes): Bytes {
    if s == [] then [] else Escape(s[0]) + EscapeAll(s[1..])
  }

  function PrintText(s: Bytes): Bytes {
    [QUOTE] + EscapeAll(s) + [QUOTE]
  }

  lemma EscapePassedOver(b: byte, rest: Bytes)
    requires QuotedTail(rest)
    ensures QuotedTail(Escape(b) + rest)
  {
    var e := Escape(b);
    if |e| == 1 {
      assert (e + rest)[1..] == rest;
    } else if |e| == 2 {
      assert (e + rest)[2..] == rest;
    } else {
      var t := e + rest;
      PlainPassedOver(t[5], rest);
      PlainPassedOver(t[4], [t[5]] + rest);
      PlainPassedOver(t[3], [t[4]] + ([t[5]] + rest));
      PlainPassedOver(t[2], [t[3]] + ([t[4]] + ([t[5]] + rest)));
      hide Escape;
      assert t[2..] == [t[2]] + ([t[3]] + ([t[4]] + ([t[5]] + rest)));
    }
  }

  lemma PlainPassedOver(b: byte, rest: Bytes)
    requires b != QUOTE && b != BACKSLASH && QuotedTail(rest)
    ensures QuotedTail([b] + rest)
  {
    assert ([b] + rest)[1..] == rest;
  }

  lemma {:induction false} EscapesCloseTail(s: Bytes)
    ensures QuotedTail(EscapeAll(s) + [QUOTE])
  {
    if s == [] {
      assert EscapeAll(s) + [QUOTE] == [QUOTE];
    } else {
      EscapesCloseTail(s[1..]);
      EscapePassedOver(s[0], EscapeAll(s[1..]) + [QUOTE]);
      assert EscapeAll(s) + [QUOTE] == Escape(s[0]) + (EscapeAll(s[1..]) + [QUOTE]);
    }
  }

  /** Whatever characters a text holds, its printed form ends itself. */
  lemma PrintedTextIsQuoted(s: Bytes)
    ensures Quoted(PrintText(s))
  {
    EscapesCloseTail(s);
    assert PrintText(s)[1..] == EscapeAll(s) + [QUOTE];
  }

  lemma EscapeTellsApart(b: byte, x: Bytes, c: byte, y: Bytes)
    requires Escape(b) + x == Escape(c) + y
    ensures b == c && x == y
  {
    var s := Escape(b) + x;
    assert s[0] == Escape(b)[0] && s[0] == Escape(c)[0];
    if |Escape(b)| > 1 {
      assert s[1] == Escape(b)[1] && s[1] == Escape(c)[1];
      if |Escape(b)| == 6 {
        assert s[4] == Escape(b)[4] && s[4] == Escape(c)[4];
        assert s[5] == Escape(b)[5] && s[5] == Escape(c)[5];
      }
    }
    assert b == c;
    assert x == s[|Escape(b)|..] && y == s[|Escape(c)|..];
  }

  lemma {:induction false} EscapeAllTellsApart(s: Bytes, t: Bytes)
    requires EscapeAll(s) == EscapeAll(t)
    ensures s == t
  {
    if s != [] && t != [] {
      EscapeTellsApart(s[0], EscapeAll(s[1..]), t[0], EscapeAll(t[1..]));
      EscapeAllTellsApart(s[1..], t[1..]);
      assert s == [s[0]] + s[1..] && t == [t[0]] + t[1..];
    }
  }

  /** Different texts print differently. */
  lemma PrintTextTellsApart(s: Bytes, t: Bytes)
    requires PrintText(s) == PrintText(t)
    ensures s == t
  {
    assert PrintText(s)[1..|PrintText(s)| - 1] == EscapeAll(s);
    assert PrintText(t)[1..|PrintText(t)| - 1] == EscapeAll(t);
    EscapeAllTellsApart(s, t);
  }

  /** No control character survives printing, so no separator of the hash streams. */
  lemma {:induction false} PrintedTextHasNoControls(s: Bytes)
    ensures forall b | b in EscapeAll(s) :: b >= 32
    ensures forall b | b in PrintText(s) :: b >= 32
  {
    if s != [] {
      PrintedTextHasNoControls(s[1..]);
    }
  }

  // ---- how a reader takes it (section 7 of RFC 8259) ----

  function HexValue(b: byte): Option<nat> {
    if 48 <= b <= 57 then Some(b - 48)
    else if 97 <= b <= 102 then Some(b - 87)
    else if 65 <= b <= 70 then Some(b - 55)
    else None
  }

  /** The byte that a backslash and this letter stand for. */
  function Named(b: byte): Option<byte> {
    if b == 34 || b == 92 || b == 47 then Some(b)
    else if b == 98 then Some(8)
    else if b == 102 then Some(12)
    else if b == 110 then Some(10)
    else if b == 114 then Some(13)
    else if b == 116 then Some(9)
    else None
  }

  /** "uXXXX" as a single byte, if it is one. */
  function Numbered(s: Bytes): Option<byte>
    requires |s| >= 5
  {
    var a, b, c, d := HexValue(s[1]), HexValue(s[2]), HexValue(s[3]), HexValue(s[4]);
    if s[0] == 117 && a == Some(0) && b == Some(0) && c.Some? && d.Some? && c.value < 8
    then Some(16 * c.value + d.value) else None
  }

  /** What stands between the quotes, read: escapes resolved, all else as it is. */
  function Read(s: Bytes): Option<Bytes> {
    if s == [] then Some([])
    else if s[0] == 34 || s[0] < 32 then None
    else if s[0] != 92 then Prefixed(s[0], Read(s[1..]))
    else if |s| >= 2 && Named(s[1]).Some? then Prefixed(Named(s[1]).value, Read(s[2..]))
    else if |s| >= 6 && Numbered(s[1..]).Some? then Prefixed(Numbered(s[1..]).value, Read(s[6..]))
    else None
  }

  function Prefixed(b: byte, rest: Option<Bytes>): Option<Bytes> {
    if rest.None? then None else Some([b] + rest.value)
  }

  lemma ReadsOne(b: byte, rest: Bytes)
    ensures Read(Escape(b) + rest) == Prefixed(b, Read(rest))
  {
    var e := Escape(b);
    assert (e + rest)[|e|..] == rest;
    if |e| == 6 {
      assert (e + rest)[1..][..5] == e[1..];
      NumberedBack(b, (e + rest)[1..]);
    }
  }

  lemma NumberedBack(b: byte, s: Bytes)
    requires |Escape(b)| == 6 && |s| >= 5 && s[..5] == Escape(b)[1..]
    ensures Numbered(s) == Some(b) && Named(s[0]) == None
  {
    assert s[0] == Escape(b)[1] && s[1] == Escape(b)[2] && s[2] == Escape(b)[3];
    assert s[3] == Escape(b)[4] && s[4] == Escape(b)[5];
  }

  /** A printed text, read, is the text. */
  lemma {:induction false} ReadsBack(s: Bytes)
    ensures PrintText(s) == [34] + EscapeAll(s) + [34]
    ensures Read(EscapeAll(s)) == Some(s)
  {
    if s != [] {
      ReadsBack(s[1..]);
      ReadsOne(s[0], EscapeAll(s[1..]));
      assert s == [s[0]] + s[1..];
    }
  }
}
