/** Decimal numerals as bytes, and their conversion to 64-bit unsigned integers. */
module Decimal {
  import opened Collections
  import opened Wrappers
  import opened Utf8

  const ZERO: byte := 48

  predicate IsDigit(b: byte) {
    48 <= b <= 57
  }

  predicate AllDigits(s: seq<byte>) {
    forall k | 0 <= k < |s| :: IsDigit(s[k])
  }

  function Val(digits: seq<byte>): int {
    if digits == [] then 0
    else Val(digits[..|digits| - 1]) * 10 + (digits[|digits| - 1] as int - 48)
  }

  function Pow10(n: nat): (p: nat)
    ensures p > 0
  {
    if n == 0 then 1 else 10 * Pow10(n - 1)
  }

  lemma {:induction false} ValBounds(digits: seq<byte>)
    requires AllDigits(digits)
    ensures 0 <= Val(digits) < Pow10(|digits|)
  {
    if digits != [] {
      ValBounds(digits[..|digits| - 1]);
      assert IsDigit(digits[|digits| - 1]);
    }
  }

  lemma {:induction false} ValFirst(digits: seq<byte>)
    requires digits != []
    ensures Val(digits) == (digits[0] as int - 48) * Pow10(|digits| - 1) + Val(digits[1..])
  {
    var n := |digits| - 1;
    if n > 0 {
      var init := digits[..n];
      ValFirst(init);
      assert init[1..] == digits[1..][..n - 1];
      assert digits[1..][n - 1] == digits[n];
      TenTimes(digits[0] as int - 48, Pow10(n - 1));
    } else {
      assert digits[..0] == [];
    }
  }

  lemma TenTimes(d: int, p: int)
    ensures d * (10 * p) == 10 * (d * p)
  {
  }

  /** Decimal text to u64; the empty text stands for zero here. */
  function ParseU64(digits: seq<byte>): (r: Option<nat>)
    requires AllDigits(digits)
  {
    ValBounds(digits);
    if Val(digits) < U64 then Some(Val(digits)) else None
  }

  /** The usual numeral of a number: no sign, no leading zero. */
  function ToDecimal(n: nat): (digits: seq<byte>)
    ensures AllDigits(digits) && digits != []
  {
    var last := [(48 + n % 10) as byte];
    if n < 10 then last else ToDecimal(n / 10) + last
  }

  /** Reading a numeral gives the number it was written for. */
  lemma {:induction false} ValOfDecimal(n: nat)
    ensures Val(ToDecimal(n)) == n
  {
    var digits := ToDecimal(n);
    if n < 10 {
      assert digits[..0] == [];
    } else {
      ValOfDecimal(n / 10);
      assert digits[..|digits| - 1] == ToDecimal(n / 10);
    }
  }
}
