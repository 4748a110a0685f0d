/**
 * Character-level helpers: the length Java reports for a string, and the
 * decimal rendering of the long values that the sequence hands out.
 */
module Text {
  import opened Wrappers

  /** True for characters that fit in one UTF-16 code unit (the Basic Multilingual Plane). */
  predicate IsBmp(c: char) {
    c as int < 0x1_0000
  }

  /** Number of UTF-16 code units that encode `c`. */
  function CodeUnits(c: char): nat {
    if IsBmp(c) then 1 else 2
  }

  /**
   * The value of Java's `String.length()` for `s`: it counts UTF-16 code
   * units, so a character outside the Basic Multilingual Plane counts twice.
   */
  function Utf16Length(s: string): (n: nat)
    ensures |s| <= n <= 2 * |s|
    ensures n == |s| <==> forall i :: 0 <= i < |s| ==> IsBmp(s[i])
  {
    if s == [] then 0
    else
      assert forall i :: 1 <= i < |s| ==> s[1..][i - 1] == s[i];
      CodeUnits(s[0]) + Utf16Length(s[1..])
  }

  predicate IsDigit(c: char) {
    '0' <= c <= '9'
  }

  predicate AllDigits(s: string) {
    forall i :: 0 <= i < |s| ==> IsDigit(s[i])
  }

  function DigitChar(d: nat): (c: char)
    requires d < 10
    ensures IsDigit(c)
  {
    (48 + d) as char
  }

  function DigitValue(c: char): (d: nat)
    requires IsDigit(c)
    ensures d < 10
  {
    c as int - 48
  }

  /**
   * Decimal text of a non-negative long, as Java's string concatenation
   * renders it: at least one digit and no leading zero.
   */
  function NatToDecimal(n: nat): (s: string)
    ensures |s| >= 1 && AllDigits(s)
    ensures s[0] == '0' ==> n == 0 && |s| == 1
    decreases n
  {
    if n < 10 then [DigitChar(n)]
    else NatToDecimal(n / 10) + [DigitChar(n % 10)]
  }

  /** Value of a string of decimal digits, most significant first. */
  function DecimalValue(s: string): nat
    requires AllDigits(s)
  {
    if s == [] then 0
    else DecimalValue(s[..|s| - 1]) * 10 + DigitValue(s[|s| - 1])
  }

  /** Reads a non-empty string of decimal digits; anything else is rejected. */
  function ParseDecimal(s: string): (r: Option<nat>)
    ensures r.Some? <==> |s| >= 1 && AllDigits(s)
  {
    if |s| >= 1 && AllDigits(s) then Some(DecimalValue(s)) else None
  }

  /** Reading back the decimal rendering of `n` gives `n`. */
  lemma {:induction false} DecimalRoundTrip(n: nat)
    ensures ParseDecimal(NatToDecimal(n)) == Some(n)
    decreases n
  {
    var s := NatToDecimal(n);
    if n < 10 {
      assert s[..|s| - 1] == [];
      assert DigitValue(s[0]) == n;
      assert DecimalValue(s) == DecimalValue([]) * 10 + n;
    } else {
      DecimalRoundTrip(n / 10);
      var prefix := NatToDecimal(n / 10);
      assert s[..|s| - 1] == prefix;
      assert DigitValue(s[|s| - 1]) == n % 10;
    }
  }

  /** Distinct values have distinct decimal renderings. */
  lemma DecimalInjective(a: nat, b: nat)
    ensures NatToDecimal(a) == NatToDecimal(b) ==> a == b
  {
    DecimalRoundTrip(a);
    DecimalRoundTrip(b);
  }
}
