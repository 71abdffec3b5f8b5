/**
 * The parse/render pair a parameter's type must have (the specialisations of
 * `from_string` and `to_string`), and the round trips between them.
 */
module Codecs {
  import opened Wrappers
  import opened Text
  import opened Parser
  import opened Printer

  /**
   * How a value type is read from and written to text: `parse` is
   * `parser::from_string`, `render` is `printer::to_string`, and `show` is the
   * plain `operator<<` the constructor uses for the "# Default value" comment.
   */
  datatype Codec<!T> = Codec(parse: string -> Option<T>, render: T -> string, show: T -> string)

  function IntCodec(): Codec<int32> { Codec(ParseInt, RenderInt, RenderInt) }

  function BoolCodec(): Codec<bool> { Codec(ParseBool, RenderBool, ShowBool) }

  function CharCodec(): Codec<char> { Codec(ParseChar, RenderChar, RenderChar) }

  function StringCodec(): Codec<string> { Codec(ParseString, RenderString, RenderString) }

  lemma {:induction false} DecimalValueOfDigits(n: nat)
    ensures DecimalValue(DigitsOf(n)) == n
  {
    if n >= 10 {
      var ds := DigitsOf(n);
      assert ds[..|ds| - 1] == DigitsOf(n / 10);
      DecimalValueOfDigits(n / 10);
    }
  }

  /**
   * Rendering an `int` and parsing it back gives the same `int`, whatever
   * non-digit text follows the number (the extraction stops at it).
   */
  lemma IntRoundTrip(n: int32, rest: string)
    requires rest == [] || !IsDigit(rest[0])
    ensures ParseInt(RenderInt(n) + rest) == Some(n)
  {
    var m := if n < 0 then -(n as int) else n as int;
    var ds := DigitsOf(m);
    var sign := if n < 0 then "-" else "";
    DigitsOfSpec(m);
    DecimalValueOfDigits(m);
    assert RenderInt(n) == sign + ds;
    assert [] + sign == sign;
    assert AllSpace([]);
    assert IsSign(sign);
    ParseIntOfSplit(RenderInt(n) + rest, [], sign, ds, rest);
  }

  /** `true` and `false` render to the words that parse back to them. */
  lemma BoolRoundTrip(b: bool, rest: string)
    ensures ParseBool(RenderBool(b) + rest) == Some(b)
  {
    var s := RenderBool(b) + rest;
    assert SkipWhitespace(s) == s;
    assert RenderBool(b) <= s;
  }

  /** A `bool` is read exactly when the line, past its whitespace, begins with that value's word. */
  lemma BoolParsesOnlyWords(s: string, b: bool)
    ensures ParseBool(s) == Some(b) <==> RenderBool(b) <= SkipWhitespace(s)
  {
  }

  /** The comment-line form of a `bool` (`1`/`0`) does not parse as a `bool`. */
  lemma ShownBoolDoesNotParse(b: bool)
    ensures ParseBool(ShowBool(b)) == None
  {
    NumeralsAreNotBools(ShowBool(b));
  }

  /**
   * A rendered `char` parses back to itself exactly when it is not whitespace;
   * a whitespace `char` is skipped and nothing is read.
   */
  lemma CharRoundTrip(c: char)
    ensures ParseChar(RenderChar(c)) == if IsSpace(c) then None else Some(c)
  {
    SkipOneChar(c);
  }

  lemma StringRoundTrip(s: string)
    ensures ParseString(RenderString(s)) == Some(s)
  {
  }
}
