/** Decimal text of machine integers: `i64::to_string` and `str::parse::<i64>`. */
module Decimal {
  import opened Wrappers
  import opened Utf8

  const MINUS: Byte := 0x2D
  const PLUS: Byte := 0x2B
  const I64_MIN := -0x8000_0000_0000_0000
  const I64_MAX := 0x7FFF_FFFF_FFFF_FFFF

  predicate IsI64(i: int) {
    I64_MIN <= i <= I64_MAX
  }

  predicate IsDigit(b: Byte) {
    0x30 <= b <= 0x39
  }

  predicate AllDigits(text: seq<Byte>) {
    forall k :: 0 <= k < |text| ==> IsDigit(text[k])
  }

  function DigitsValue(digits: seq<Byte>): nat
    requires AllDigits(digits)
  {
    if digits == [] then 0
    else 10 * DigitsValue(digits[..|digits| - 1]) + (digits[|digits| - 1] as int - 0x30)
  }

  function ShowNat(n: nat): (text: seq<Byte>)
    ensures |text| > 0 && AllDigits(text)
  {
    var last: Byte := 0x30 + n % 10;
    if n < 10 then [last] else ShowNat(n / 10) + [last]
  }

  function ShowInt(i: int): (text: seq<Byte>) {
    if i < 0 then [MINUS] + ShowNat(-i) else ShowNat(i)
  }

  /** An optional sign, at least one digit, nothing else, and no overflow. */
  function ParseI64(text: seq<Byte>): Option<int> {
    var signed := text != [] && (text[0] == MINUS || text[0] == PLUS);
    var digits := if signed then text[1..] else text;
    if digits == [] || !AllDigits(digits) then
      None
    else
      var magnitude: int := DigitsValue(digits);
      var i := if signed && text[0] == MINUS then -magnitude else magnitude;
      if IsI64(i) then Some(i) else None
  }

  lemma {:induction false} ShowNatValue(n: nat)
    ensures DigitsValue(ShowNat(n)) == n
  {
    var text := ShowNat(n);
    if n >= 10 {
      ShowNatValue(n / 10);
      assert text[..|text| - 1] == ShowNat(n / 10);
    } else {
      assert text[..0] == [];
      assert DigitsValue(text[..0]) == 0;
    }
  }

  /** Printing then parsing is exact on the 64-bit range and refused outside it. */
  lemma ParseShow(i: int)
    ensures ParseI64(ShowInt(i)) == if IsI64(i) then Some(i) else None
  {
    if i < 0 {
      ShowNatValue(-i);
      assert ShowInt(i)[1..] == ShowNat(-i);
    } else {
      ShowNatValue(i);
      assert IsDigit(ShowNat(i)[0]);
    }
  }
}
