/** Decimal numbers as text. */
module Decimals {
  import opened Common

  predicate IsDigit(c: int) {
    48 <= c <= 57
  }

  /** `isdigit()`. */
  predicate AllDigits(s: seq<int>) {
    s != [] && forall i :: 0 <= i < |s| ==> IsDigit(s[i])
  }

  /** `int()` of a string of digits. */
  function DecimalValue(s: seq<int>): (n: nat)
    requires forall i :: 0 <= i < |s| ==> IsDigit(s[i])
  {
    if s == [] then 0 else assert IsDigit(s[|s| - 1]); 10 * DecimalValue(s[..|s| - 1]) + (s[|s| - 1] - 48)
  }

  /** `str()` of a natural number. */
  function Decimal(n: nat): (s: seq<byte>)
    ensures AllDigits(s)
  {
    if n < 10 then [48 + n] else Decimal(n / 10) + [48 + n % 10]
  }

  lemma {:induction false} DecimalRoundTrip(n: nat)
    ensures DecimalValue(Decimal(n)) == n
  {
    var s := Decimal(n);
    if n < 10 {
      assert s[..0] == [];
    } else {
      DecimalRoundTrip(n / 10);
      assert s[..|s| - 1] == Decimal(n / 10);
    }
  }
}
