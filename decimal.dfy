/** ASCII decimal digits: reading a digit string as a number and writing a number zero-padded. */
module Decimal {

  predicate IsDigit(c: char) {
    '0' <= c <= '9'
  }

  predicate AllDigits(s: string) {
    forall i :: 0 <= i < |s| ==> IsDigit(s[i])
  }

  function Pow10(k: nat): (r: nat)
    ensures r >= 1
  {
    if k == 0 then 1 else 10 * Pow10(k - 1)
  }

  /** Python's int() of a string of ASCII digits (leading zeros allowed). */
  function Value(s: string): nat
    requires AllDigits(s)
  {
    if s == [] then 0
    else 10 * Value(s[..|s| - 1]) + (s[|s| - 1] as int - '0' as int)
  }

  /** The last `width` decimal digits of n, with leading zeros (Python's %0<width>d when n fits). */
  function Pad(n: nat, width: nat): (s: string)
    ensures |s| == width && AllDigits(s)
  {
    if width == 0 then ""
    else Pad(n / 10, width - 1) + [('0' as int + n % 10) as char]
  }

  /** Pad writes the last digit after the padding of the rest. */
  lemma PadSplit(n: nat, width: nat)
    requires width > 0
    ensures var s := Pad(n, width);
      s[..width - 1] == Pad(n / 10, width - 1) && s[width - 1] as int - '0' as int == n % 10
  {
  }

  /** Dropping the last digit of a number that fits in `width` digits leaves one that fits in `width - 1`. */
  lemma FitsAfterDivision(n: nat, width: nat)
    requires width > 0 && n < Pow10(width)
    ensures n / 10 < Pow10(width - 1)
  {
    assert Pow10(width) == 10 * Pow10(width - 1);
  }

  /** A number that fits in `width` digits is read back from its padded form. */
  lemma {:induction false} ValueOfPad(n: nat, width: nat)
    requires n < Pow10(width)
    ensures Value(Pad(n, width)) == n
  {
    if width > 0 {
      PadSplit(n, width);
      FitsAfterDivision(n, width);
      ValueOfPad(n / 10, width - 1);
      assert n == 10 * (n / 10) + n % 10;
    }
  }
}
