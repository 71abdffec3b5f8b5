/**
 * `painless::printer::to_string` and plain `operator<<`: the text a value is
 * written as.  `Render*` is `to_string`, which writes `bool` with
 * `std::boolalpha`; `ShowBool` is plain `operator<<` without it.
 */
module Printer {
  import opened Text

  /** The decimal digits of `n`, most significant first, without leading zeros. */
  function DigitsOf(n: nat): string
  {
    if n < 10 then [DigitChar(n)] else DigitsOf(n / 10) + [DigitChar(n % 10)]
  }

  /** The decimal form of a number is a non-empty run of digits, led by `0` only for zero. */
  lemma {:induction false} DigitsOfSpec(n: nat)
    ensures var r := DigitsOf(n);
      |r| > 0 && (forall i :: 0 <= i < |r| ==> IsDigit(r[i])) && (r[0] == '0' ==> n == 0)
  {
    if n >= 10 {
      DigitsOfSpec(n / 10);
    }
  }

  function RenderInt(n: int32): string
  {
    if n < 0 then "-" + DigitsOf(-(n as int)) else DigitsOf(n as int)
  }

  /** A rendered `int` is a sign and digits: it never spans more than one line. */
  lemma RenderIntOneLine(n: int32)
    ensures '\n' !in RenderInt(n)
  {
    var m := if n < 0 then -(n as int) else n as int;
    DigitsOfSpec(m);
    var r := RenderInt(n);
    forall i | 0 <= i < |r|
      ensures r[i] != '\n'
    {
      if n < 0 && i > 0 {
        assert r[i] == DigitsOf(m)[i - 1];
      }
    }
  }

  function RenderBool(b: bool): string
  {
    if b then "true" else "false"
  }

  /** `operator<<` on a `bool` without `std::boolalpha` writes a numeral. */
  function ShowBool(b: bool): string
  {
    if b then "1" else "0"
  }

  function RenderChar(c: char): string
  {
    [c]
  }

  function RenderString(s: string): string
  {
    s
  }
}
