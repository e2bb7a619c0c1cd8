/** Decimal numerals. */
module Decimal {
  predicate IsDigit(c: char) { '0' <= c <= '9' }

  function Digit(c: char): nat
    requires IsDigit(c)
  {
    c as int - '0' as int
  }

  predicate AllDigits(s: string) { forall i | 0 <= i < |s| :: IsDigit(s[i]) }

  function ParseNat(s: string): nat
    requires AllDigits(s)
  {
    if s == [] then 0 else 10 * ParseNat(s[..|s| - 1]) + Digit(s[|s| - 1])
  }

  function PrintNat(n: nat): string {
    if n < 10 then [('0' as int + n) as char] else PrintNat(n / 10) + [('0' as int + n % 10) as char]
  }

  lemma {:induction false} PrintNatParses(n: nat)
    ensures PrintNat(n) != [] && AllDigits(PrintNat(n)) && ParseNat(PrintNat(n)) == n
  {
    var s := PrintNat(n);
    assert n < 10 ==> s[..0] == [] && Digit(s[0]) == n;
    if n >= 10 {
      PrintNatParses(n / 10);
      assert s[..|s| - 1] == PrintNat(n / 10) && Digit(s[|s| - 1]) == n % 10;
    }
  }
}
