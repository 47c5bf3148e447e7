/**
 Decimal digit strings as Python's `str.isdigit` and `int(...)` treat them,
 restricted to the ASCII digits '0'..'9'. `ShowNat`, the canonical decimal
 rendering of a natural number, is the inverse of `DecimalValue`; the two
 round-trip lemmas below prove it in both directions.
 */
module Decimal {

  predicate IsAsciiDigit(c: char) {
    '0' <= c <= '9'
  }

  /** Every character is an ASCII digit (true of the empty string). */
  predicate AllDigits(s: string) {
    forall i :: 0 <= i < |s| ==> IsAsciiDigit(s[i])
  }

  /** `s.isdigit()`: non-empty and made of digits only, so `"".isdigit()` is false. */
  predicate IsDigits(s: string): (r: bool)
    ensures r <==> s != "" && forall c :: c in s ==> '0' <= c <= '9'
  {
    assert AllDigits(s) <==> forall c :: c in s ==> '0' <= c <= '9' by {
      if AllDigits(s) {
        forall c | c in s ensures '0' <= c <= '9' {
          var i :| 0 <= i < |s| && s[i] == c;
        }
      } else {
        var i :| 0 <= i < |s| && !IsAsciiDigit(s[i]);
        assert s[i] in s;
      }
    }
    |s| > 0 && AllDigits(s)
  }

  function Pow10(k: nat): (p: nat)
    ensures p >= 1
  {
    if k == 0 then 1 else 10 * Pow10(k - 1)
  }

  function DigitValue(c: char): (d: nat)
    requires IsAsciiDigit(c)
    ensures d < 10
  {
    c as int - '0' as int
  }

  function DigitChar(d: nat): (c: char)
    requires d < 10
    ensures IsAsciiDigit(c) && DigitValue(c) == d
  {
    ('0' as int + d) as char
  }

  /** `int(s)` for a string of ASCII digits, read most significant digit first. */
  function DecimalValue(s: string): (n: nat)
    requires AllDigits(s)
    ensures n < Pow10(|s|)
  {
    if s == [] then 0
    else
      var high := DecimalValue(s[..|s| - 1]);
      assert high <= Pow10(|s| - 1) - 1;
      10 * high + DigitValue(s[|s| - 1])
  }

  /** The canonical decimal rendering of `n`: digits only, no leading zero. */
  function ShowNat(n: nat): (s: string)
    ensures IsDigits(s)
    ensures s[0] == '0' ==> s == "0"
  {
    if n < 10 then [DigitChar(n)] else ShowNat(n / 10) + [DigitChar(n % 10)]
  }

  /** Reading back the rendering of `n` gives `n`. */
  lemma {:induction false} DecimalValueOfShowNat(n: nat)
    ensures DecimalValue(ShowNat(n)) == n
  {
    if n >= 10 {
      var s := ShowNat(n);
      assert s[..|s| - 1] == ShowNat(n / 10);
      DecimalValueOfShowNat(n / 10);
    }
  }

  /** A digit string whose first digit is not '0' has a positive value. */
  lemma {:induction false} LeadingNonZeroIsPositive(s: string)
    requires IsDigits(s) && s[0] != '0'
    ensures DecimalValue(s) > 0
  {
    if |s| > 1 {
      var high := s[..|s| - 1];
      assert high[0] == s[0];
      LeadingNonZeroIsPositive(high);
    }
  }

  /** Rendering the value of a canonical digit string gives the string back. */
  lemma {:induction false} ShowNatOfDecimalValue(s: string)
    requires IsDigits(s) && (s[0] == '0' ==> s == "0")
    ensures ShowNat(DecimalValue(s)) == s
  {
    var n := DecimalValue(s);
    if |s| == 1 {
      assert DigitChar(DigitValue(s[0])) == s[0];
    } else {
      var high := s[..|s| - 1];
      var d := DigitValue(s[|s| - 1]);
      assert high[0] == s[0];
      LeadingNonZeroIsPositive(high);
      assert n == 10 * DecimalValue(high) + d;
      assert n / 10 == DecimalValue(high) && n % 10 == d;
      ShowNatOfDecimalValue(high);
      assert DigitChar(d) == s[|s| - 1];
      assert s == high + [s[|s| - 1]];
    }
  }

  /** Like `int("0" + s) == int(s)`: leading zeros do not change the value. */
  lemma {:induction false} LeadingZeroIgnored(s: string)
    requires AllDigits(s)
    ensures DecimalValue(['0'] + s) == DecimalValue(s)
  {
    if s != [] {
      var t := ['0'] + s;
      assert t[..|t| - 1] == ['0'] + s[..|s| - 1];
      assert t[|t| - 1] == s[|s| - 1];
      LeadingZeroIgnored(s[..|s| - 1]);
    }
  }
}
