/** Decimal numerals: what `%d` and Python's `str` of an int print, and reading them back. */
module Decimal {

  predicate IsDigit(c: char) { '0' <= c <= '9' }

  predicate Digits(s: string) {
    s != "" && forall i :: 0 <= i < |s| ==> IsDigit(s[i])
  }

  function Dec(n: nat): (s: string)
    ensures Digits(s)
  {
    if n < 10 then [(48 + n) as char] else Dec(n / 10) + [(48 + n % 10) as char]
  }

  function DigitValue(c: char): nat
    requires IsDigit(c)
  {
    c as int - '0' as int
  }

  function NatOf(s: string): nat
    requires forall i :: 0 <= i < |s| ==> IsDigit(s[i])
  {
    if s == "" then 0 else 10 * NatOf(s[..|s| - 1]) + DigitValue(s[|s| - 1])
  }

  lemma {:induction false} NatOfDec(n: nat)
    ensures NatOf(Dec(n)) == n
  {
    if n < 10 {
      var s := Dec(n);
      assert s[..|s| - 1] == "";
    } else {
      NatOfDec(n / 10);
      assert Dec(n)[..|Dec(n)| - 1] == Dec(n / 10);
    }
  }

  /** The least value that rounds to infinity as a double: 2^1024 - 2^970. */
  const OVERFLOW: nat := 0xFFFF_FFFF_FFFF_FC00_0000_0000_0000_0000_0000_0000_0000_0000_0000_0000_0000_0000_0000_0000_0000_0000_0000_0000_0000_0000_0000_0000_0000_0000_0000_0000_0000_0000_0000_0000_0000_0000_0000_0000_0000_0000_0000_0000_0000_0000_0000_0000_0000_0000_0000_0000_0000_0000_0000_0000_0000_0000_0000_0000_0000_0000_0000_0000_0000_0000

  /** `%d` of a signed integer. */
  function DecInt(i: int): string {
    if i < 0 then "-" + Dec(-i) else Dec(i)
  }
}
