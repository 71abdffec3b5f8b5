/**
 * `painless::parser::from_string`: reading a value out of one line of text
 * with `std::istringstream`.  Each `Parse*` returns `None` exactly when the
 * stream extraction fails (the stream's failbit is set), and `Some(v)` with the
 * extracted value otherwise.
 */
module Parser {
  import opened Wrappers
  import opened Text

  /** What formatted extraction skips before reading (`std::ws`): the longest whitespace prefix. */
  function SkipWhitespace(s: string): string
  {
    if s != [] && IsSpace(s[0]) then SkipWhitespace(s[1..]) else s
  }

  /** The longest prefix of `s` made of decimal digits. */
  function LeadingDigits(s: string): string
  {
    if s != [] && IsDigit(s[0]) then [s[0]] + LeadingDigits(s[1..]) else []
  }

  predicate AllDigits(s: string) {
    forall i :: 0 <= i < |s| ==> IsDigit(s[i])
  }

  /** The number a run of decimal digits denotes, most significant digit first. */
  function DecimalValue(ds: string): int
  {
    if ds == [] then 0 else DecimalValue(ds[..|ds| - 1]) * 10 + (ds[|ds| - 1] as int - '0' as int)
  }

  /** `SkipWhitespace` removes a prefix of whitespace and stops at the first other character. */
  lemma {:induction false} SkipWhitespaceSpec(s: string)
    ensures var r := SkipWhitespace(s);
      && |r| <= |s| && r == s[|s| - |r|..]
      && (forall i :: 0 <= i < |s| - |r| ==> IsSpace(s[i]))
      && (r == [] || !IsSpace(r[0]))
  {
    if s != [] && IsSpace(s[0]) {
      var tail := s[1..];
      var r := SkipWhitespace(tail);
      assert SkipWhitespace(s) == r;
      SkipWhitespaceSpec(tail);
      assert tail[|tail| - |r|..] == s[|s| - |r|..];
      forall i | 0 <= i < |s| - |r|
        ensures IsSpace(s[i])
      {
        if i > 0 {
          assert s[i] == tail[i - 1];
        }
      }
    }
  }

  /** `LeadingDigits` is a prefix of digits that no further digit could extend. */
  lemma {:induction false} LeadingDigitsSpec(s: string)
    ensures var r := LeadingDigits(s);
      && r <= s && AllDigits(r)
      && (|r| == |s| || !IsDigit(s[|r|]))
  {
    if s != [] && IsDigit(s[0]) {
      LeadingDigitsSpec(s[1..]);
    }
  }

  /**
   * `ss >> value` for an `int`: whitespace is skipped, an optional `+` or `-`
   * is taken, then every following digit.  Without a digit, or when the number
   * does not fit in 32 bits, the extraction fails.  Whatever follows the digits
   * is left in the stream and ignored.
   */
  function ParseInt(s: string): Option<int32>
  {
    var t := SkipWhitespace(s);
    var digits := LeadingDigits(Unsigned(t));
    if digits == [] then None
    else FitInt32(if IsNegative(t) then -DecimalValue(digits) else DecimalValue(digits))
  }

  /** A number extracted into an `int` fails the extraction when it does not fit. */
  function FitInt32(v: int): Option<int32>
  {
    if -0x8000_0000 <= v < 0x8000_0000 then Some(v as int32) else None
  }

  predicate IsNegative(t: string) {
    t != [] && t[0] == '-'
  }

  /** The text after an optional leading sign. */
  function Unsigned(t: string): string {
    if t != [] && (t[0] == '-' || t[0] == '+') then t[1..] else t
  }

  /**
   * `ss >> std::boolalpha >> value`: after whitespace, the input must begin
   * with the word `true` or `false`; numerals such as `1` and `0` fail.
   * Characters after the word are not consumed.
   */
  function ParseBool(s: string): Option<bool>
  {
    var t := SkipWhitespace(s);
    if "true" <= t then Some(true)
    else if "false" <= t then Some(false)
    else None
  }

  /** `ss >> value` for a `char`: the first character that is not whitespace. */
  function ParseChar(s: string): Option<char>
  {
    var t := SkipWhitespace(s);
    if t == [] then None else Some(t[0])
  }

  /** The `std::string` specialisation: the line itself, untrimmed; it never fails. */
  function ParseString(s: string): Option<string>
  {
    Some(s)
  }

  predicate AllSpace(s: string) {
    forall i :: 0 <= i < |s| ==> IsSpace(s[i])
  }

  /** What may stand before the digits of an integer: nothing, `+` or `-`. */
  predicate IsSign(sign: string) {
    sign == "" || sign == "+" || sign == "-"
  }

  /**
   * `s` is whitespace `ws`, then a sign, then the digit run `ds`, then text
   * `rest` that does not continue the run.
   */
  predicate IsIntSplit(s: string, ws: string, sign: string, ds: string, rest: string) {
    && s == ws + sign + ds + rest
    && AllSpace(ws) && IsSign(sign)
    && ds != [] && AllDigits(ds)
    && (rest == [] || !IsDigit(rest[0]))
  }

  /** The integer `sign` and `ds` denote, before it is fitted into 32 bits. */
  function SignedValue(sign: string, ds: string): int {
    if sign == "-" then -DecimalValue(ds) else DecimalValue(ds)
  }

  /** Whitespace in front of text that does not begin with whitespace is skipped, and nothing more. */
  lemma {:induction false} SkipWhitespaceOver(ws: string, t: string)
    requires AllSpace(ws)
    requires t == [] || !IsSpace(t[0])
    ensures SkipWhitespace(ws + t) == t
  {
    if ws != [] {
      assert (ws + t)[0] == ws[0];
      assert (ws + t)[1..] == ws[1..] + t;
      SkipWhitespaceOver(ws[1..], t);
    }
  }

  lemma {:induction false} LeadingDigitsOfRun(ds: string, rest: string)
    requires AllDigits(ds)
    requires rest == [] || !IsDigit(rest[0])
    ensures LeadingDigits(ds + rest) == ds
  {
    if ds != [] {
      assert (ds + rest)[1..] == ds[1..] + rest;
      LeadingDigitsOfRun(ds[1..], rest);
    }
  }

  /**
   * A line made of whitespace, an optional sign, a digit run and text that
   * does not continue the run is read as the run's value with that sign, and
   * fails when the value does not fit in an `int`.
   */
  lemma ParseIntOfSplit(s: string, ws: string, sign: string, ds: string, rest: string)
    requires IsIntSplit(s, ws, sign, ds, rest)
    ensures ParseInt(s) == FitInt32(SignedValue(sign, ds))
  {
    var t := sign + (ds + rest);
    Regroup(ws, sign, ds, rest);
    assert t[|sign|] == ds[0];
    SkipWhitespaceOver(ws, t);
    assert Unsigned(t) == ds + rest by {
      if sign != "" {
        assert t[1..] == ds + rest;
      }
    }
    LeadingDigitsOfRun(ds, rest);
  }

  /** Without a digit after the whitespace and the sign there is no integer. */
  lemma ParseIntNeedsDigit(s: string)
    requires var t := SkipWhitespace(s);
      t == [] || !(IsDigit(t[0]) || ((t[0] == '-' || t[0] == '+') && |t| > 1 && IsDigit(t[1])))
    ensures ParseInt(s) == None
  {
  }

  /** The sign `Unsigned` strips from the front of `t`. */
  lemma SignOf(t: string) returns (sign: string)
    ensures IsSign(sign) && t == sign + Unsigned(t)
    ensures sign == "-" <==> IsNegative(t)
  {
    if t != [] && (t[0] == '-' || t[0] == '+') {
      sign := [t[0]];
      assert t == [t[0]] + t[1..];
    } else {
      sign := [];
    }
  }

  /** A line is its whitespace prefix followed by what `SkipWhitespace` leaves. */
  lemma WhitespaceSplit(s: string) returns (ws: string)
    ensures AllSpace(ws) && s == ws + SkipWhitespace(s)
  {
    var t := SkipWhitespace(s);
    SkipWhitespaceSpec(s);
    var k := |s| - |t|;
    ws := s[..k];
    forall i | 0 <= i < |ws|
      ensures IsSpace(ws[i])
    {
      assert ws[i] == s[i];
    }
    assert s == s[..k] + s[k..];
  }

  /** Text is its leading digit run followed by text that does not continue the run. */
  lemma DigitSplit(u: string) returns (rest: string)
    ensures u == LeadingDigits(u) + rest && AllDigits(LeadingDigits(u))
    ensures rest == [] || !IsDigit(rest[0])
  {
    LeadingDigitsSpec(u);
    rest := u[|LeadingDigits(u)|..];
  }

  /** A line with a digit after its whitespace and optional sign splits around that digit run. */
  lemma IntSplitOf(s: string) returns (ws: string, sign: string, ds: string, rest: string)
    requires LeadingDigits(Unsigned(SkipWhitespace(s))) != []
    ensures IsIntSplit(s, ws, sign, ds, rest)
  {
    ws := WhitespaceSplit(s);
    var t := SkipWhitespace(s);
    sign := SignOf(t);
    var u := Unsigned(t);
    ds := LeadingDigits(u);
    rest := DigitSplit(u);
    assert t == sign + (ds + rest);
    Regroup(ws, sign, ds, rest);
  }

  lemma Regroup(a: string, b: string, c: string, d: string)
    ensures a + (b + (c + d)) == a + b + c + d
  {
  }

  /**
   * A successful integer parse comes from a split of the line into
   * whitespace, a sign, a maximal digit run and the rest, and is the run's
   * value with that sign.
   */
  lemma ParseIntSound(s: string, v: int32)
    requires ParseInt(s) == Some(v)
    ensures exists ws, sign, ds, rest :: IsIntSplit(s, ws, sign, ds, rest) && v as int == SignedValue(sign, ds)
  {
    var ws, sign, ds, rest := IntSplitOf(s);
    ParseIntOfSplit(s, ws, sign, ds, rest);
    assert FitInt32(SignedValue(sign, ds)) == Some(v);
  }

  /** A one-character line is skipped entirely exactly when the character is whitespace. */
  lemma SkipOneChar(c: char)
    ensures SkipWhitespace([c]) == if IsSpace(c) then [] else [c]
  {
    if IsSpace(c) {
      assert [c][1..] == [];
    }
  }

  /** A line whose first non-blank character cannot begin `true` or `false` is not a `bool`. */
  lemma ParseBoolNeedsWord(s: string)
    requires SkipWhitespace(s) == [] || SkipWhitespace(s)[0] !in "tf"
    ensures ParseBool(s) == None
  {
  }

  /** The numerals `1` and `0` and the empty line are not booleans. */
  lemma NumeralsAreNotBools(s: string)
    requires s == "1" || s == "0" || s == ""
    ensures ParseBool(s) == None
  {
    if s != [] {
      assert !IsSpace(s[0]);
    }
    ParseBoolNeedsWord(s);
  }

  /** A `char` parse yields the first character of the line that is not whitespace. */
  lemma ParseCharSound(s: string, c: char)
    requires ParseChar(s) == Some(c)
    ensures exists i :: 0 <= i < |s| && s[i] == c && !IsSpace(c) && AllSpace(s[..i])
  {
    SkipWhitespaceSpec(s);
    var i := |s| - |SkipWhitespace(s)|;
    assert s[i] == c;
    assert AllSpace(s[..i]);
  }

  /** A `char` parse fails exactly when the line is all whitespace. */
  lemma ParseCharFails(s: string)
    ensures ParseChar(s) == None <==> AllSpace(s)
  {
    SkipWhitespaceSpec(s);
    if SkipWhitespace(s) != [] {
      assert !IsSpace(s[|s| - |SkipWhitespace(s)|]);
    }
  }

  /** A `std::string` parse succeeds on every line, and keeps it whole. */
  lemma ParseStringVerbatim(s: string)
    ensures ParseString(s) == Some(s)
  {
  }
}
