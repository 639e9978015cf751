/** Decimal renderings of natural numbers, as `str(n)` writes them. */
module Decimals {

  predicate IsDigit(c: char) {
    '0' <= c <= '9'
  }

  predicate AllDigits(s: string) {
    forall i :: 0 <= i < |s| ==> IsDigit(s[i])
  }

  function DigitOf(d: nat): (c: char)
    requires d < 10
    ensures IsDigit(c)
  {
    ('0' as int + d) as char
  }

  function ToString(n: nat): (s: string)
    ensures |s| > 0 && AllDigits(s) && (s[0] == '0' ==> s == "0")
    ensures n > 0 ==> s[0] != '0'
  {
    if n < 10 then [DigitOf(n)] else ToString(n / 10) + [DigitOf(n % 10)]
  }

  function ValueOf(s: string): nat
    requires AllDigits(s)
  {
    if s == [] then 0 else 10 * ValueOf(s[..|s| - 1]) + (s[|s| - 1] as int - '0' as int)
  }

  lemma {:induction false} ToStringRoundTrips(n: nat)
    ensures ValueOf(ToString(n)) == n
  {
    var s := ToString(n);
    if n < 10 {
      assert s[..|s| - 1] == [];
    } else {
      assert s[..|s| - 1] == ToString(n / 10);
      ToStringRoundTrips(n / 10);
    }
  }

  lemma ToStringInjective(m: nat, n: nat)
    requires ToString(m) == ToString(n)
    ensures m == n
  {
    ToStringRoundTrips(m);
    ToStringRoundTrips(n);
  }

  /** The base is ten: one more digit is ten times the value and the digit. */
  lemma DigitsAreDecimal(n: nat, d: nat)
    requires d < 10 && n > 0
    ensures ToString(10 * n + d) == ToString(n) + ["0123456789"[d]] && ToString(d) == ["0123456789"[d]]
  {
    assert (10 * n + d) / 10 == n && (10 * n + d) % 10 == d;
  }
}
