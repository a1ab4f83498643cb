/** Small facts about sequences and numerals that several models share. */
module Sequences {

  predicate Distinct<T(==)>(s: seq<T>) { forall i, j | 0 <= i < j < |s| :: s[i] != s[j] }

  function DigitOf(n: nat): char
    requires n < 10
  {
    "0123456789"[n]
  }

  /** A number as it is printed. */
  function Decimal(n: nat): string {
    if n < 10 then [DigitOf(n)] else Decimal(n / 10) + [DigitOf(n % 10)]
  }
}
