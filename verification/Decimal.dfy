/**
  Decimal text of natural numbers, as the generator's `"%d"` conversion
  produces it for the offset tables and for the array lengths in the
  declarations, together with the parser that reads it back.
 */
module Decimal {

  predicate IsDigit(c: char) {
    '0' <= c <= '9'
  }

  predicate AllDigits(s: string) {
    forall i :: 0 <= i < |s| ==> IsDigit(s[i])
  }

  function DigitChar(d: nat): (c: char)
    requires d < 10
    ensures IsDigit(c)
  {
    ('0' as int + d) as char
  }

  function DigitValue(c: char): (d: nat)
    requires IsDigit(c)
    ensures d < 10
  {
    c as int - '0' as int
  }

  /** The shortest decimal numeral of `x`, most significant digit first. */
  function NatToString(x: nat): (s: string)
    ensures 1 <= |s|
    ensures AllDigits(s)
    ensures |s| > 1 ==> s[0] != '0'
    decreases x
  {
    if x < 10 then [DigitChar(x)] else NatToString(x / 10) + [DigitChar(x % 10)]
  }

  /** Reads a string of decimal digits as a natural number. */
  function ParseDecimal(s: string): nat
    requires AllDigits(s)
  {
    if s == [] then 0 else 10 * ParseDecimal(s[..|s| - 1]) + DigitValue(s[|s| - 1])
  }

  /** Reading back the rendering of `x` gives `x`. */
  lemma {:induction false} ParseRender(x: nat)
    ensures ParseDecimal(NatToString(x)) == x
  {
    if x >= 10 {
      var s := NatToString(x);
      assert s[..|s| - 1] == NatToString(x / 10);
      ParseRender(x / 10);
    }
  }

  /** Distinct numbers have distinct renderings. */
  lemma RenderInjective(x: nat, y: nat)
    requires NatToString(x) == NatToString(y)
    ensures x == y
  {
    ParseRender(x);
    ParseRender(y);
  }
}
