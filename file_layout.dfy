/**
 * The backing file of a parameter: where it lives, what the constructor
 * writes into it, and how the watcher turns its content back into a value
 * (`getFilename`, the constructor's write, `readCurrentValue`).
 */
module FileLayout {
  import opened Wrappers
  import opened Text
  import opened Parser
  import opened Printer
  import opened Codecs

  /** The directory every backing file lives in. */
  const BASE_PATH: string := "/tmp/painless/"

  /** `getFilename`: the parameter's name appended to the base directory. */
  function FileName(name: string): (path: string)
    ensures BASE_PATH <= path && path[|BASE_PATH|..] == name
  {
    BASE_PATH + name
  }

  /** `std::getline`: the text before the first newline, or all of it when there is none. */
  function FirstLine(content: string): string
  {
    if content == [] || content[0] == '\n' then [] else [content[0]] + FirstLine(content[1..])
  }

  /** The first line is a prefix without a newline, ended by the end of the text or by a newline. */
  lemma {:induction false} FirstLineSpec(content: string)
    ensures var line := FirstLine(content);
      && line <= content && '\n' !in line
      && (|line| == |content| || content[|line|] == '\n')
  {
    if content != [] && content[0] != '\n' {
      FirstLineSpec(content[1..]);
    }
  }

  /** The lines of a file, as successive `std::getline` calls would read them. */
  function Lines(content: string): seq<string>
    decreases |content|
  {
    if content == [] then []
    else
      var line := FirstLine(content);
      FirstLineSpec(content);
      if |line| == |content| then [line] else [line] + Lines(content[|line| + 1..])
  }

  /**
   * What the constructor writes: the rendered default on the first line, then
   * two comment lines naming the parameter and showing the default with plain
   * `operator<<`.
   */
  function InitialFile<T>(codec: Codec<T>, name: string, defaultValue: T): string
  {
    codec.render(defaultValue) + "\n"
    + "# Parameter '" + name + "'\n"
    + "# Default value: '" + codec.show(defaultValue) + "'\n"
  }

  /**
   * `readCurrentValue`: the first line of the file, parsed; the declared default
   * when the file cannot be opened (`None`) or the line does not parse.  The
   * value the parameter held before plays no part.
   */
  function ReadCurrentValue<T>(codec: Codec<T>, defaultValue: T, file: Option<string>): (v: T)
    ensures v == defaultValue || (file.Some? && codec.parse(FirstLine(file.value)) == Some(v))
  {
    match file
    case None => defaultValue
    case Some(content) =>
      match codec.parse(FirstLine(content))
      case Some(parsed) => parsed
      case None => defaultValue
  }

  /** Different names never share a backing file. */
  lemma FileNameInjective(a: string, b: string)
    ensures FileName(a) == FileName(b) <==> a == b
  {
    if FileName(a) == FileName(b) {
      assert a == FileName(a)[|BASE_PATH|..];
    }
  }

  /** A line followed by a newline is read back whole, whatever comes after it. */
  lemma FirstLineOf(line: string, rest: string)
    requires '\n' !in line
    ensures FirstLine(line + "\n" + rest) == line
    ensures FirstLine(line) == line
  {
    var c := line + "\n" + rest;
    var l := FirstLine(c);
    FirstLineSpec(c);
    FirstLineSpec(line);
    assert c[|line|] == '\n';
    assert l == c[..|l|];
    assert line == c[..|line|];
  }

  /** Only the text before the first newline affects the value read. */
  lemma OnlyFirstLineMatters<T>(codec: Codec<T>, defaultValue: T, line: string, rest: string)
    requires '\n' !in line
    ensures ReadCurrentValue(codec, defaultValue, Some(line + "\n" + rest))
         == ReadCurrentValue(codec, defaultValue, Some(line))
  {
    FirstLineOf(line, rest);
  }

  /** The file the constructor writes has three lines: the rendered default and two `#` comments. */
  lemma InitialFileLines<T>(codec: Codec<T>, name: string, defaultValue: T)
    requires '\n' !in codec.render(defaultValue) && '\n' !in name && '\n' !in codec.show(defaultValue)
    ensures var lines := Lines(InitialFile(codec, name, defaultValue));
      && |lines| == 3
      && lines[0] == codec.render(defaultValue)
      && lines[1] == "# Parameter '" + name + "'"
      && lines[2] == "# Default value: '" + codec.show(defaultValue) + "'"
      && lines[1][0] == '#' && lines[2][0] == '#'
  {
    var l0 := codec.render(defaultValue);
    var l1 := "# Parameter '" + name + "'";
    var l2 := "# Default value: '" + codec.show(defaultValue) + "'";
    var c := InitialFile(codec, name, defaultValue);
    assert '\n' !in l1 && '\n' !in l2;
    var c1 := l1 + "\n" + l2 + "\n";
    var c2 := l2 + "\n";
    assert c == l0 + "\n" + c1;
    FirstLineOf(l0, c1);
    assert c[|l0| + 1..] == c1;
    assert c1 == l1 + "\n" + c2;
    FirstLineOf(l1, c2);
    assert c1[|l1| + 1..] == c2;
    FirstLineOf(l2, []);
    assert c2 == l2 + "\n" + [];
    assert c2[|l2| + 1..] == [];
    assert Lines(c2) == [l2];
    assert Lines(c1) == [l1] + Lines(c2);
    assert Lines(c) == [l0] + Lines(c1);
  }

  /**
   * Reading the file the constructor just wrote yields the default, for any
   * type whose rendered default is one line and either parses back to the
   * default or does not parse at all.
   */
  lemma FreshFileReadsDefault<T>(codec: Codec<T>, name: string, defaultValue: T)
    requires '\n' !in codec.render(defaultValue)
    requires codec.parse(codec.render(defaultValue)) in {None, Some(defaultValue)}
    ensures ReadCurrentValue(codec, defaultValue, Some(InitialFile(codec, name, defaultValue))) == defaultValue
  {
    var l0 := codec.render(defaultValue);
    var rest := "# Parameter '" + name + "'\n" + "# Default value: '" + codec.show(defaultValue) + "'\n";
    assert InitialFile(codec, name, defaultValue) == l0 + "\n" + rest;
    FirstLineOf(l0, rest);
  }

  /** An `int` written on the first line is read back, whatever follows it. */
  lemma IntFileReadsBack(defaultValue: int32, n: int32, rest: string)
    ensures ReadCurrentValue(IntCodec(), defaultValue, Some(RenderInt(n) + "\n" + rest)) == n
  {
    RenderIntOneLine(n);
    FirstLineOf(RenderInt(n), rest);
    IntRoundTrip(n, []);
    assert RenderInt(n) + [] == RenderInt(n);
  }

  /**
   * A first line that does not start with a number (such as `dummy`, `-`,
   * `+x`, or nothing) resets an `int` to its default.
   */
  lemma IntGarbageReadsDefault(defaultValue: int32, content: string)
    requires var t := SkipWhitespace(FirstLine(content));
      t == [] || !(IsDigit(t[0]) || ((t[0] == '-' || t[0] == '+') && |t| > 1 && IsDigit(t[1])))
    ensures ReadCurrentValue(IntCodec(), defaultValue, Some(content)) == defaultValue
  {
    ParseIntNeedsDigit(FirstLine(content));
  }

  /** `true` or `false` on the first line is read back. */
  lemma BoolFileReadsBack(defaultValue: bool, b: bool, rest: string)
    ensures ReadCurrentValue(BoolCodec(), defaultValue, Some(RenderBool(b) + "\n" + rest)) == b
  {
    FirstLineOf(RenderBool(b), rest);
    BoolRoundTrip(b, []);
    assert RenderBool(b) + [] == RenderBool(b);
  }

  /** `1`, `0` or an empty first line leaves a `bool` at its default. */
  lemma BoolNumeralReadsDefault(defaultValue: bool, content: string)
    requires FirstLine(content) == "1" || FirstLine(content) == "0" || FirstLine(content) == ""
    ensures ReadCurrentValue(BoolCodec(), defaultValue, Some(content)) == defaultValue
  {
    NumeralsAreNotBools(FirstLine(content));
  }

  /** A `char` that is not whitespace, written on the first line, is read back. */
  lemma CharFileReadsBack(defaultValue: char, c: char, rest: string)
    requires !IsSpace(c)
    ensures ReadCurrentValue(CharCodec(), defaultValue, Some(RenderChar(c) + "\n" + rest)) == c
  {
    FirstLineOf(RenderChar(c), rest);
    CharRoundTrip(c);
  }

  /**
   * A `std::string` parameter takes the whole first line, even an empty one;
   * only a file that cannot be opened gives the default.
   */
  lemma StringFileReadsFirstLine(defaultValue: string, file: Option<string>)
    ensures ReadCurrentValue(StringCodec(), defaultValue, file)
         == if file.Some? then FirstLine(file.value) else defaultValue
  {
  }

  /** A freshly written `int` parameter file reads back as its default. */
  lemma FreshIntFileReadsDefault(name: string, d: int32)
    ensures ReadCurrentValue(IntCodec(), d, Some(InitialFile(IntCodec(), name, d))) == d
  {
    RenderIntOneLine(d);
    IntRoundTrip(d, []);
    assert RenderInt(d) + [] == RenderInt(d);
    FreshFileReadsDefault(IntCodec(), name, d);
  }

  /** A freshly written `bool` parameter file reads back as its default. */
  lemma FreshBoolFileReadsDefault(name: string, d: bool)
    ensures ReadCurrentValue(BoolCodec(), d, Some(InitialFile(BoolCodec(), name, d))) == d
  {
    BoolRoundTrip(d, []);
    assert RenderBool(d) + [] == RenderBool(d);
    FreshFileReadsDefault(BoolCodec(), name, d);
  }

  /**
   * A freshly written `char` parameter file reads back as its default, also
   * for whitespace: that line does not parse and the default is taken anyway.
   */
  lemma FreshCharFileReadsDefault(name: string, d: char)
    ensures ReadCurrentValue(CharCodec(), d, Some(InitialFile(CharCodec(), name, d))) == d
  {
    CharRoundTrip(d);
    if d == '\n' {
      assert InitialFile(CharCodec(), name, d)[0] == '\n';
    } else {
      FreshFileReadsDefault(CharCodec(), name, d);
    }
  }

  /** A freshly written `std::string` parameter file reads back as its default when that is one line. */
  lemma FreshStringFileReadsDefault(name: string, d: string)
    requires '\n' !in d
    ensures ReadCurrentValue(StringCodec(), d, Some(InitialFile(StringCodec(), name, d))) == d
  {
    FreshFileReadsDefault(StringCodec(), name, d);
  }
}
