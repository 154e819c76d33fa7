/** Numbers as decimal text. */
module Numerals {
  function Decimal(n: nat): (s: string) {
    if n < 10 then [('0' as int + n) as char] else Decimal(n / 10) + Decimal(n % 10)
  }

  lemma {:induction false} DecimalIsDigits(n: nat)
    ensures Decimal(n) != "" && forall i | 0 <= i < |Decimal(n)| :: '0' <= Decimal(n)[i] <= '9'
  {
    if n >= 10 {
      DecimalIsDigits(n / 10);
      DecimalIsDigits(n % 10);
    }
  }

  /** The number a decimal text stands for. */
  function ValueOf(s: string): int {
    if s == "" then 0 else 10 * ValueOf(s[..|s| - 1]) + (s[|s| - 1] as int - '0' as int)
  }

  /** The decimal text of a number stands for it, and has no leading zero but in "0". */
  lemma {:induction false} DecimalIsValue(n: nat)
    ensures ValueOf(Decimal(n)) == n && Decimal(n) != "" && (Decimal(n)[0] == '0' ==> Decimal(n) == "0")
  {
    if n >= 10 {
      DecimalIsValue(n / 10);
      var high, low := Decimal(n / 10), Decimal(n % 10);
      assert |low| == 1 && Decimal(n) == high + low;
      assert (high + low)[..|high + low| - 1] == high;
      assert Decimal(n)[0] == high[0];
    } else {
      assert Decimal(n)[..0] == "";
    }
  }
}
