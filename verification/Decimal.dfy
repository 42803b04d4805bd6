/** Decimal numerals. */
module Decimal {

  function Digit(n: nat): char
    requires n < 10
  {
    '0' + n as char
  }

  /** `{n}` for a number that is not negative. */
  function Show(n: nat): string {
    if n < 10 then [Digit(n)] else Show(n / 10) + [Digit(n % 10)]
  }

  predicate IsDigit(c: char) { '0' <= c <= '9' }

  function Parse(s: string): nat
    requires forall i | 0 <= i < |s| :: IsDigit(s[i])
  {
    if s == "" then 0
    else
      assert IsDigit(s[|s| - 1]);
      10 * Parse(s[..|s| - 1]) + (s[|s| - 1] as int - '0' as int)
  }

  lemma {:induction false} ParseOfShow(n: nat)
    ensures forall i | 0 <= i < |Show(n)| :: IsDigit(Show(n)[i])
    ensures Show(n) != "" && Parse(Show(n)) == n
  {
    if n >= 10 {
      ParseOfShow(n / 10);
      assert Show(n)[..|Show(n)| - 1] == Show(n / 10);
    }
  }
}
