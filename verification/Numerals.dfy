/** Decimal numerals as the keys carry them. */
module Numerals {
  import opened Collections

  predicate IsDigit(c: char) {
    '0' <= c <= '9'
  }

  function DigitValue(c: char): nat
    requires IsDigit(c)
  {
    c as int - '0' as int
  }

  predicate AllDigits(s: string) {
    forall i | 0 <= i < |s| :: IsDigit(s[i])
  }

  function NumberOf(s: string): nat
    requires AllDigits(s)
  {
    if s == [] then 0 else 10 * NumberOf(s[..|s| - 1]) + DigitValue(s[|s| - 1])
  }

  /** Unsigned parsing as the standard library does it: digits, optionally after
      one plus sign. Range checks are left to the caller. */
  function ParseUnsigned(s: string): Option<nat> {
    var digits := if |s| > 0 && s[0] == '+' then s[1..] else s;
    if digits == [] || !AllDigits(digits) then None else Some(NumberOf(digits))
  }

  /** Signed parsing: the same, or digits after a minus sign. */
  function ParseSigned(s: string): Option<int> {
    if |s| > 1 && s[0] == '-' && AllDigits(s[1..]) then
      var n: int := NumberOf(s[1..]);
      Some(-n)
    else
      match ParseUnsigned(s)
      case None => None
      case Some(n) => Some(n)
  }

  /** s is a decimal numeral of n, leading zeros and one plus sign allowed. */
  ghost predicate Numeral(s: string, n: nat) {
    exists digits: string ::
      digits != [] && AllDigits(digits) && (s == digits || s == "+" + digits) && NumberOf(digits) == n
  }

  lemma ParseUnsignedExactly(s: string, n: nat)
    ensures ParseUnsigned(s) == Some(n) <==> Numeral(s, n)
  {
    hide NumberOf;
    if ParseUnsigned(s) == Some(n) {
      var digits := if |s| > 0 && s[0] == '+' then s[1..] else s;
      assert s == digits || s == "+" + digits;
    }
    if Numeral(s, n) {
      var digits: string :| digits != [] && AllDigits(digits) && (s == digits || s == "+" + digits)
                            && NumberOf(digits) == n;
      assert IsDigit(digits[0]) && digits[0] != '+';
      assert s == "+" + digits ==> s[1..] == digits;
    }
  }

  /** The same, or digits after a minus sign. */
  ghost predicate SignedNumeral(s: string, n: int) {
    || (n >= 0 && Numeral(s, n))
    || (exists digits: string :: digits != [] && AllDigits(digits) && s == "-" + digits && NumberOf(digits) == -n)
  }

  lemma ParseSignedExactly(s: string, n: int)
    ensures ParseSigned(s) == Some(n) <==> SignedNumeral(s, n)
  {
    hide NumberOf;
    if n >= 0 {
      ParseUnsignedExactly(s, n);
    }
    if |s| > 1 && s[0] == '-' && AllDigits(s[1..]) {
      assert s == "-" + s[1..];
      assert !AllDigits(s) by {
        assert !IsDigit(s[0]);
      }
    }
    if digits: string :| digits != [] && AllDigits(digits) && s == "-" + digits && NumberOf(digits) == -n {
      assert s[1..] == digits;
    }
  }

  function DigitChar(d: nat): (c: char)
    requires d < 10
    ensures IsDigit(c) && DigitValue(c) == d
  {
    '0' + d as char
  }

  /** Decimal digits without leading zeros. */
  function Decimal(n: nat): (s: string)
    ensures s != [] && AllDigits(s) && NumberOf(s) == n
  {
    if n < 10 then
      assert [DigitChar(n)][..0] == [];
      [DigitChar(n)]
    else
      var s := Decimal(n / 10) + [DigitChar(n % 10)];
      assert s[..|s| - 1] == Decimal(n / 10);
      s
  }

  lemma {:induction false} NumberBounds(s: string)
    requires AllDigits(s)
    ensures NumberOf(s) < Pow10(|s|)
  {
    if s != [] {
      NumberBounds(s[..|s| - 1]);
    }
  }

  function Pow10(k: nat): (r: nat)
    ensures r >= 1
  {
    if k == 0 then 1 else 10 * Pow10(k - 1)
  }

  lemma {:induction false} DecimalLength(n: nat, k: nat)
    requires k >= 1 && n < Pow10(k)
    ensures |Decimal(n)| <= k
    ensures n >= Pow10(k - 1) ==> |Decimal(n)| == k
  {
    if k > 1 && n >= 10 {
      DecimalLength(n / 10, k - 1);
    }
  }

  lemma {:induction false} SameNumber(s: string, t: string)
    requires AllDigits(s) && AllDigits(t) && |s| == |t| && NumberOf(s) == NumberOf(t)
    ensures s == t
  {
    if s != [] {
      var n := |s| - 1;
      LastDigit(NumberOf(s[..n]), DigitValue(s[n]), NumberOf(t[..n]), DigitValue(t[n]));
      hide NumberOf;
      SameNumber(s[..n], t[..n]);
      assert s == s[..n] + [s[n]] && t == t[..n] + [t[n]];
    }
  }

  lemma LastDigit(a: nat, d: nat, b: nat, e: nat)
    requires 10 * a + d == 10 * b + e && d < 10 && e < 10
    ensures a == b && d == e
  {
  }

  lemma PowersOfTen()
    ensures Pow10(3) == 1000 && Pow10(4) == 10000
  {
    assert Pow10(1) == 10 && Pow10(2) == 100;
  }
}
