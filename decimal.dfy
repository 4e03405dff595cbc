/**
 * Decimal text of Java `int` values: `"" + i` and `Integer.parseInt`, restricted to ASCII digits.
 */
module Decimal {
  import opened Wrappers

  const MinInt: int := -0x8000_0000
  const MaxInt: int := 0x7fff_ffff

  /** Java's 32-bit `int`. */
  newtype int32 = x: int | -0x8000_0000 <= x < 0x8000_0000

  /** The `int` a Java addition yields: the exact sum, wrapped into 32 bits. */
  function Wrap(x: int): (r: int32)
    ensures MinInt <= x <= MaxInt ==> r as int == x
    ensures (x - r as int) % 0x1_0000_0000 == 0
  {
    ((x + 0x8000_0000) % 0x1_0000_0000 - 0x8000_0000) as int32
  }

  predicate IsDigit(c: char) { '0' <= c <= '9' }

  function DigitChar(d: nat): (c: char)
    requires d < 10
    ensures IsDigit(c) && (c as int) - ('0' as int) == d
  {
    ['0', '1', '2', '3', '4', '5', '6', '7', '8', '9'][d]
  }

  function DigitValue(c: char): (d: nat)
    requires IsDigit(c)
    ensures d < 10
  {
    (c as int) - ('0' as int)
  }

  /** The shortest decimal digit string of `n`. */
  function NatToString(n: nat): (s: string)
    ensures |s| > 0 && forall c | c in s :: IsDigit(c)
    decreases n
  {
    if n < 10 then [DigitChar(n)] else NatToString(n / 10) + [DigitChar(n % 10)]
  }

  /** `"" + i` for a Java int: a minus sign for negative values. */
  function IntToString(i: int): (s: string)
    ensures |s| > 0
    ensures forall c | c in s :: IsDigit(c) || c == '-'
  {
    if i < 0 then "-" + NatToString(-i) else NatToString(i)
  }

  /** The value of a string of decimal digits. */
  function DigitsValue(s: string): nat
    requires forall c | c in s :: IsDigit(c)
  {
    if |s| == 0 then 0
    else
      assert s[|s| - 1] in s;
      DigitsValue(s[..|s| - 1]) * 10 + DigitValue(s[|s| - 1])
  }

  /**
   * `Integer.parseInt(s)`: an optional sign then at least one digit, whose value fits an int.
   * Anything else is a NumberFormatException.
   */
  function ParseInt(s: string): (r: Result<int32>)
    ensures r.Ok? ==> |s| > 0
  {
    var neg := |s| > 0 && s[0] == '-';
    var signed := |s| > 0 && (s[0] == '-' || s[0] == '+');
    var digits := if signed then s[1..] else s;
    if |digits| == 0 || exists c | c in digits :: !IsDigit(c) then Err(NumberFormat)
    else
      var v := if neg then -(DigitsValue(digits) as int) else DigitsValue(digits) as int;
      if MinInt <= v <= MaxInt then Ok(v as int32) else Err(NumberFormat)
  }

  lemma {:induction false} DigitsOfNat(n: nat)
    ensures DigitsValue(NatToString(n)) == n
    decreases n
  {
    if n >= 10 {
      var s := NatToString(n);
      assert s[..|s| - 1] == NatToString(n / 10);
      DigitsOfNat(n / 10);
    }
  }

  /** `Integer.parseInt("" + i) == i` for every Java int. */
  lemma ParsePrintedInt(i: int32)
    ensures ParseInt(IntToString(i as int)) == Ok(i)
  {
    var s := IntToString(i as int);
    if i < 0 {
      var digits := NatToString(-(i as int));
      assert s[1..] == digits;
      DigitsOfNat(-(i as int));
      assert !(exists c | c in digits :: !IsDigit(c));
    } else {
      var digits := NatToString(i as int);
      assert IsDigit(s[0]) by { assert s[0] in digits; }
      DigitsOfNat(i as int);
      assert !(exists c | c in digits :: !IsDigit(c));
    }
  }
}
