# painless parameters in Dafny

A model of `painless::Parameter<T>` from `include/painless/parameter.h`. A
parameter is a named value backed by a file under `/tmp/painless/`. A watcher
thread updates the value whenever the file is modified.

The model has these parts:

- **Text codec** (`parser.dfy`, `printer.dfy`, `codecs.dfy`). This is
  `parser::from_string` and `printer::to_string` for `int`, `bool`, `char` and
  `std::string`. Each parse gives `None` exactly when the stream extraction
  would set the failbit. A `Codec<T>` bundles three things:
  - the parse function;
  - `to_string`;
  - plain `operator<<`, which the constructor uses for its
    `# Default value` comment.
- **Backing file** (`file_layout.dfy`). This part holds:
  - `getFilename`;
  - the three lines the constructor writes;
  - `std::getline`;
  - `readCurrentValue`, as a function of the file content, which is `None`
    when the file cannot be opened.
- **inotify buffer** (`inotify.dfy`). These are the records that `read`
  returns, each `EVENT_SIZE + len` bytes long. It also proves that stepping
  by that size from offset 0 visits every record once, in order.
- **Watcher** (`watcher.dfy`). The event loop is specified as functions:
  - `HandleEvent` handles one record;
  - `HandleBatch` handles one buffer;
  - `Run` is the `while (running)` loop over a finite sequence of reads.
- **Parameter** (`parameter.dfy`). A class with these fields:
  - `current`, `state`, `running` and `ended`, which change;
  - the name, the codec, the default value and what was written at
    construction, which are constants.

  The watcher thread is modelled as two methods:
  - `ArmWatch` is its setup. It runs inside the constructor, because the
    constructor waits on the condition variable until the setup is done.
  - `WatchLoop` is its event loop, `while (running)`. It is proved equal to
    `Run`. The inner `while (i < length)` walk over one buffer is the method
    `HandleBuffer`, proved equal to `HandleBatch`.

Each inotify record comes with the content the watcher finds in the file when
it handles that record (`Delivery.disk`). This content stands for the file
I/O.

What the header does, where a reader might expect otherwise:

- The header has no registry of names. Every construction writes the
  default to the file again and starts from the default.
  `tests/parameter.cpp:129-160` expects a second parameter with the same name
  to keep the first one's value; this header does not do that.
- `WatcherState` is `NotInitialized`, `Watching` or `Error`. After the loop
  ends, the state stays `Watching`; the field `ended` records that the loop
  has returned.
- A `std::string` parameter never fails to parse. An empty first line
  therefore gives the empty string, not the default. Only a file that cannot
  be opened gives the default (`FileLayout.StringFileReadsFirstLine`).
- Extracting a `bool` with `std::boolalpha` reads only as far as needed to
  match `true` or `false`. A line such as `trueish` therefore reads as
  `true`. Numerals and the empty line fail.
- The comment line `# Default value: '…'` uses plain `operator<<`, so a
  `bool` default shows as `1` or `0` there. That line is never parsed back
  (`Codecs.ShownBoolDoesNotParse`, `FileLayout.OnlyFirstLineMatters`).

## Model

| member | source | states |
|---|---|---|
| `Parser.ParseInt` | include/painless/parameter.h:26-30 | `ss >> value` into an `int`: whitespace, an optional sign, at least one digit, the rest ignored; its properties are `ParseIntOfSplit`, `ParseIntSound` and `ParseIntNeedsDigit` |
| `Parser.ParseBool` | include/painless/parameter.h:32-36 | `ss >> std::boolalpha >> value`: the line after its whitespace must begin with `true` or `false`; its properties are `BoolParsesOnlyWords` and `ParseBoolNeedsWord` |
| `Parser.ParseChar` | include/painless/parameter.h:26-30 | `ss >> value` into a `char`: the first non-whitespace character; its properties are `ParseCharSound` and `ParseCharFails` |
| `Parser.ParseString` | include/painless/parameter.h:38-42 | the `std::string` specialisation: the whole line, never failing (`ParseStringVerbatim`) |
| `Printer.RenderInt` | include/painless/parameter.h:48-53 | `ss << value` for an `int`: an optional `-` and the decimal digits (`DigitsOfSpec`, `RenderIntOneLine`, `IntRoundTrip`) |
| `Printer.RenderChar` | include/painless/parameter.h:48-53 | `ss << value` for a `char`: the character itself (`CharRoundTrip`) |
| `Printer.RenderString` | include/painless/parameter.h:48-53 | `ss << value` for a `std::string`: the string itself (`StringRoundTrip`) |
| `Printer.RenderBool` | include/painless/parameter.h:55-60 | `ss << std::boolalpha << value`: `true` or `false` (`BoolRoundTrip`) |
| `Printer.ShowBool` | include/painless/parameter.h:93 | plain `operator<<` on a `bool`: `1` or `0` (`ShownBoolDoesNotParse`) |
| `FileLayout.FirstLine` | include/painless/parameter.h:213-214 | `std::getline`: the text up to the first newline (`FirstLineSpec`) |
| `FileLayout.InitialFile` | include/painless/parameter.h:91-93 | the rendered default, then the name and the default as comment lines (`InitialFileLines`) |
| `Watcher.HandleEvent` | include/painless/parameter.h:193-201 | one record: a modification re-reads the file, otherwise a delete-self stops the loop (`ModifyIgnoresPrevious`, `RunningAfterBatch`) |
| `Watcher.HandleBatch` | include/painless/parameter.h:189-203 | the records of one buffer, in order (`LastModifyWins`, `NoModifyKeepsValue`, `RunningAfterBatch`) |
| `Inotify.BufferLength` | include/painless/parameter.h:182 | the number of bytes `read` returns: each record's `EVENT_SIZE + len`, summed (`BufferLengthAppend`, `ThroughBuffer`) |
| `Parser.SkipWhitespaceSpec` | include/painless/parameter.h:26-30 | extraction first skips exactly the longest prefix of C-locale whitespace |
| `Parser.LeadingDigitsSpec` | include/painless/parameter.h:26-30 | integer extraction takes the maximal run of digits; the next character, if any, is not a digit |
| `Parser.ParseIntOfSplit` | include/painless/parameter.h:26-30 | a line made of whitespace, an optional `+` or `-`, a digit run and text that does not continue the run is read as the run's value with that sign, and fails when that value does not fit in a 32-bit `int` |
| `Parser.ParseIntNeedsDigit` | include/painless/parameter.h:26-30 | without a digit after the whitespace and the optional sign (empty line, `dummy`, a bare sign) the `int` extraction fails |
| `Parser.ParseIntSound` | include/painless/parameter.h:26-30 | every successful `int` parse comes from such a split of the line, and its value is the digit run's value, negated exactly when the sign is `-` |
| `Parser.ParseBoolNeedsWord` | include/painless/parameter.h:32-36 | with `std::boolalpha`, a line whose first non-blank character cannot start `true`/`false` does not parse |
| `Parser.NumeralsAreNotBools` | include/painless/parameter.h:32-36 | `1`, `0` and the empty line are not booleans |
| `Parser.ParseCharSound` | include/painless/parameter.h:26-30 | a parsed `char` is the first character of the line that is not whitespace |
| `Parser.ParseCharFails` | include/painless/parameter.h:26-30 | a `char` parse fails exactly when the line is all whitespace |
| `Parser.ParseStringVerbatim` | include/painless/parameter.h:38-42 | a `std::string` parse always succeeds and yields the line unchanged, untrimmed |
| `Printer.DigitsOfSpec` | include/painless/parameter.h:48-53 | the decimal form of a number is a non-empty run of digits with no leading zero |
| `Printer.RenderIntOneLine` | include/painless/parameter.h:48-53 | a rendered `int` contains no newline, so it fits on the first line of the file |
| `Codecs.IntRoundTrip` | include/painless/parameter.h:26-53 | parsing a rendered `int` gives it back, also when non-digit text follows |
| `Codecs.BoolRoundTrip` | include/painless/parameter.h:32-60 | parsing a rendered `bool` (`true`/`false`) gives it back, whatever follows |
| `Codecs.BoolParsesOnlyWords` | include/painless/parameter.h:32-36 | a line parses as the `bool` `b` if and only if, past its whitespace, it begins with `b`'s word |
| `Codecs.ShownBoolDoesNotParse` | include/painless/parameter.h:93 | the `1`/`0` form the comment line uses for a `bool` does not parse as a `bool` |
| `Codecs.CharRoundTrip` | include/painless/parameter.h:26-53 | a rendered `char` parses back to itself if and only if it is not whitespace; otherwise nothing is read |
| `Codecs.StringRoundTrip` | include/painless/parameter.h:38-53 | rendering then parsing a `std::string` gives it back |
| `FileLayout.FileName` | include/painless/parameter.h:143-147 | the file path is the base directory followed by the name |
| `FileLayout.FileNameInjective` | include/painless/parameter.h:143-147 | two names share a backing file if and only if they are equal |
| `FileLayout.FirstLineSpec` | include/painless/parameter.h:213-214 | `getline` yields the prefix before the first newline, or all the text when there is none |
| `FileLayout.FirstLineOf` | include/painless/parameter.h:213-214 | a line followed by a newline is read back whole, whatever follows it |
| `FileLayout.ReadCurrentValue` | include/painless/parameter.h:210-223 | the value read is the default or the parse of the first line, and never anything else (such as the previous value) |
| `FileLayout.OnlyFirstLineMatters` | include/painless/parameter.h:210-223 | text after the first newline, such as the `#` comment lines, never changes the value read |
| `FileLayout.InitialFileLines` | include/painless/parameter.h:86-96 | the constructor's file is exactly three lines: the rendered default, then `# Parameter '<name>'` and `# Default value: '<default>'` |
| `FileLayout.FreshFileReadsDefault` | include/painless/parameter.h:86-96 | when the rendered default parses back to the default or does not parse, reading the file just written gives the default |
| `FileLayout.IntFileReadsBack` | include/painless/parameter.h:210-223 | a rendered `int` on the first line is what the parameter reads |
| `FileLayout.IntGarbageReadsDefault` | include/painless/parameter.h:210-223 | a first line with no digit after its whitespace and optional sign (empty, `dummy`, `-`, `+x`) resets an `int` parameter to its default |
| `FileLayout.BoolFileReadsBack` | include/painless/parameter.h:210-223 | `true`/`false` on the first line is read back |
| `FileLayout.BoolNumeralReadsDefault` | include/painless/parameter.h:210-223 | `1`, `0` or an empty first line leaves a `bool` parameter at its default |
| `FileLayout.CharFileReadsBack` | include/painless/parameter.h:210-223 | a non-whitespace `char` on the first line is read back |
| `FileLayout.StringFileReadsFirstLine` | include/painless/parameter.h:210-223 | a `std::string` parameter reads the whole first line, even an empty one, and gets the default only when the file cannot be opened |
| `FileLayout.FreshIntFileReadsDefault` | include/painless/parameter.h:86-96 | the file written for an `int` parameter reads back as its default |
| `FileLayout.FreshBoolFileReadsDefault` | include/painless/parameter.h:86-96 | the file written for a `bool` parameter reads back as its default |
| `FileLayout.FreshCharFileReadsDefault` | include/painless/parameter.h:86-96 | the file written for a `char` parameter reads back as its default, whitespace included |
| `FileLayout.FreshStringFileReadsDefault` | include/painless/parameter.h:86-96 | the file written for a one-line `std::string` parameter reads back as its default |
| `Inotify.RecordAt` | include/painless/parameter.h:189-191 | the header read at a buffer offset is one of the records in the buffer |
| `Inotify.BufferLengthAppend` | include/painless/parameter.h:202 | each record takes `EVENT_SIZE + len` bytes of the buffer |
| `Inotify.RecordBoundary` | include/painless/parameter.h:188-203 | the k-th record starts at the sum of the earlier records' sizes, inside the buffer, and that is where its header is read |
| `Inotify.ThroughBuffer` | include/painless/parameter.h:188-203 | `i < length` holds exactly while records remain, so the walk visits every record and stops |
| `Watcher.Run` | include/painless/parameter.h:179-204 | the loop uses no more reads than given; it stops as `Deleted` exactly when `running` is false, on a failed read as `ReadError`, and otherwise only when the reads run out |
| `Watcher.RunningAfterBatch` | include/painless/parameter.h:193-201 | after a buffer, `running` holds if and only if it held before and no record deleted the file without also modifying it |
| `Watcher.LastModifyWins` | include/painless/parameter.h:193-198 | after a buffer, the value is what the file held when the last modification in it was handled |
| `Watcher.NoModifyKeepsValue` | include/painless/parameter.h:193-201 | a buffer without a modification leaves the value unchanged |
| `Watcher.ModifyIgnoresPrevious` | include/painless/parameter.h:193-198 | a modification sets the value from the file, whatever the value was before |
| `Watcher.DeleteEndsRun` | include/painless/parameter.h:179-204 | a buffer with a delete-self record ends the loop after that read; later reads are never made |
| `Watcher.ReadErrorEndsRun` | include/painless/parameter.h:182-186 | a negative read length ends the loop with the value unchanged |
| `Watcher.LastWriteWins` | include/painless/parameter.h:179-204 | over any reads without a failure or deletion, the value is what the file held at the last modification, and the loop keeps waiting |
| `Parameters.Parameter.constructor` | include/painless/parameter.h:77-117 | after construction, `current` is the default, and the file holds the rendered default and two comments if it could be opened; the state is `Watching` or `Error` by the result of `add_watch`, and is never `NotInitialized` once a watcher was started |
| `Parameters.Parameter.ArmWatch` | include/painless/parameter.h:161-177 | only a parameter whose file was opened has a watcher; its state leaves `NotInitialized` once, to `Error` when the watch descriptor is negative and to `Watching` otherwise |
| `Parameters.Parameter.Value` | include/painless/parameter.h:119-122 | `value()` returns the cached value and changes nothing |
| `Parameters.Parameter.HandleBuffer` | include/painless/parameter.h:188-203 | walking a buffer from offset 0 by `EVENT_SIZE + len` leaves the value and `running` exactly as `HandleBatch` gives them |
| `Parameters.Parameter.WatchLoop` | include/painless/parameter.h:179-207 | the nested loops compute `Run`; in the `Error` state the loop is never entered and nothing changes; the loop has returned (`ended`) exactly after a deletion or a failed read, and is never run again after that |
| `Parameters.ReproducesDefault` | tests/parameter.cpp:5-23 | a newly constructed parameter of any type holds its default |
| `Parameters.DegradedParameterKeepsDefault` | include/painless/parameter.h:165-177 | when the watch cannot be added, the parameter keeps its default whatever happens to the file |
| `Parameters.ReadsUpdatedInt` | tests/parameter.cpp:77-79 | writing a number to an `int` parameter's file makes it the parameter's value |
| `Parameters.ParseErrorRestoresDefault` | tests/parameter.cpp:121-128 | after a good value, a line that does not parse resets the value to the default, not to the good value |
| `Parameters.RepeatedIntWritesLastWins` | tests/parameter.cpp:98-110 | however many writes are grouped into reads, the value ends as the last number written |

## Left out

- Threads, mutexes and the condition variable are not modelled. The
  constructor's wait is modelled as the watcher's setup (`ArmWatch`) running
  before the constructor returns. Concurrent readers of `value()` are not
  modelled.
- The destructor is not modelled: `unlink`, then `join` or `detach`. It is
  about thread lifetime and file removal, which are not modelled.
- `mkdir(BASE_PATH)` is not modelled. Its result is ignored by the source
  and does not affect any value.
- A failed `inotify_init` is folded into the `add_watch` result (`wd`). An
  invalid descriptor makes `add_watch` fail, which gives `Error`.
  `inotify_rm_watch` and `close` are not modelled.
- Diagnostics written to `std::cerr` (`error()`) are not modelled.
- Parameters.Parameter.WatchLoop: the blocking `read` is not modelled. The
  reads are a finite sequence given as input, and running out of them means
  the watcher is waiting for more (`Blocked`).
- Inotify.BufferLength: the buffer is a sequence of decoded records, not raw
  bytes. Only `mask` and `len` of each header are kept, `len` is unbounded,
  and the 32 KiB `BUFFER_LENGTH` bound is not modelled.
- Parser.ParseChar: file text and `char` values are Unicode characters, not
  bytes. A C++ `char` is one byte and `ss >> c` reads one byte, so the two
  agree only on ASCII text; `Codecs.CharRoundTrip` and
  `FileLayout.CharFileReadsBack` are stated for every Dafny `char`.
- `float` parameters are not modelled, because the model has no floating
  point.
- `int8_t` parameters are not modelled. The streams treat `int8_t` as a
  character type.
- Other integer widths and unsigned types are not modelled. `int` is the
  32-bit `int32`.
- `operator*`, `operator T`, `operator<<`, the `PAINLESS_PARAMETER` macro
  and `value_type_to_parameter_type` are not modelled. They are compile-time
  type plumbing.
- The name registry, "reuse" of a name and `painless::get_base_path()` are
  not modelled, because they do not exist in this header.
  `tests/parameter.cpp` relies on them at lines 49 and 130-160.
- `editor/main.py`, `tests/example.cpp` and `tests/interactive.cpp` are not
  modelled. They only use the parameter type.
