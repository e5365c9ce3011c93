/**
 * The decimal rendering of an unsigned integer, as Rust's `format!("{}", n)`
 * produces it: the shortest digit string, with no sign and no leading zero.
 * `FromDecimal` is its inverse and exists so that the rendering can be shown
 * to lose no information.
 */
module Decimal {

  predicate IsDigit(c: char) {
    '0' <= c <= '9'
  }

  predicate AllDigits(s: string) {
    forall i :: 0 <= i < |s| ==> IsDigit(s[i])
  }

  function DigitChar(d: nat): (c: char)
    requires d < 10
    ensures IsDigit(c)
    ensures c as int - '0' as int == d
  {
    ('0' as int + d) as char
  }

  function DigitValue(c: char): (d: nat)
    requires IsDigit(c)
    ensures d < 10
  {
    c as int - '0' as int
  }

  /** `n` written in base ten, most significant digit first. */
  function ToDecimal(n: nat): (r: string)
    ensures |r| > 0
    ensures AllDigits(r)
    ensures r[0] == '0' <==> n == 0
    ensures |r| > 1 ==> r[0] != '0'
    ensures n == 0 ==> r == "0"
    decreases n
  {
    if n < 10 then [DigitChar(n)] else ToDecimal(n / 10) + [DigitChar(n % 10)]
  }

  /** The value of a string of decimal digits, read most significant digit first. */
  function FromDecimal(s: string): (n: nat)
    requires AllDigits(s)
    decreases |s|
  {
    if s == [] then 0 else FromDecimal(s[..|s| - 1]) * 10 + DigitValue(s[|s| - 1])
  }

  /** Reading back the decimal rendering gives the number that was rendered. */
  lemma {:induction false} FromToDecimal(n: nat)
    ensures FromDecimal(ToDecimal(n)) == n
    decreases n
  {
    var r := ToDecimal(n);
    if n < 10 {
      assert r[..|r| - 1] == [];
    } else {
      var prefix := ToDecimal(n / 10);
      assert r[..|r| - 1] == prefix;
      FromToDecimal(n / 10);
    }
  }

  /** Distinct numbers have distinct decimal renderings. */
  lemma ToDecimalInjective(m: nat, n: nat)
    requires m != n
    ensures ToDecimal(m) != ToDecimal(n)
  {
    FromToDecimal(m);
    FromToDecimal(n);
  }
}
