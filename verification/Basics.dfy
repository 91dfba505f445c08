/** What several parts share: optional values and decimal numerals. */
module Basics {

  datatype Option<+T> = None | Some(value: T)

  const DIGITS := "0123456789"

  /** The decimal numeral of `n`, without leading zeros. */
  function Decimal(n: nat): (s: string)
    ensures |s| > 0 && forall i :: 0 <= i < |s| ==> '0' <= s[i] <= '9'
  {
    if n < 10 then [DIGITS[n]] else Decimal(n / 10) + [DIGITS[n % 10]]
  }
}
