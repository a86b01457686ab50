# cat, modelled in Dafny

This project models the `cat` command of OmegaOS CropBox (`cropbox/cat.py`,
class `Main`). It covers three parts of the command:

- **The argument scan** (`Main.__init__`). It takes the arguments left to right:
  - `-` reads standard input. A session ends at the next line that is exactly the character U+0004. If the input ends first, `input()` raises `EOFError`, which nothing catches, and the run ends with status 1.
  - The exact tokens `-n`, `-b`, `-E`, `-T`, `-v`, `-A` and `-u` switch flags on. Nothing switches them off.
  - Any other token is a path. It is printed at once, with the flags set so far.
  - A path that does not exist writes `cat: <path>: No such file or directory` to standard error and ends the run with status 1.
  - With no arguments at all, standard input is read once, with the same two endings.
- **The visibility transform** (`Main.make_visible`):
  - With `-T`, a tab becomes `^I`.
  - With `-v`, a character outside Python's `string.printable` becomes `^` followed by `chr(ord(c) ^ 0x40)`.
- **The per-file formatter** (`Main.cat_file`):
  - With `-n` or `-b`, each line gets a counter written as decimal digits and two spaces. The counter starts at 0 in every file.
  - With `-b`, a blank line is written as a bare newline and is not counted.
  - With `-E`, a `$` goes before each newline.

The project has five modules:

- `Text` (text.dfy): character classes (`string.printable`, `str.isspace`), the caret rewrite, decimal rendering, and concatenation of pieces.
- `Visibility` (visible.dfy): the transform as a pure function, with its properties.
- `Listing` (listing.dfy): the formatter as a pure function over a file's lines, with its properties.
- `ArgScan` (scan.dfy): the scan as a pure function over the arguments and an environment. The environment holds a file system and a count. The file system maps a path to a file's lines (newline removed) or to a directory. The count is the number of U+0004 lines on standard input, which decides how many sessions end normally.
- `Cat` (cat.dfy): class `Main`. It holds the six flag fields, standard output and standard error as text fields, and an exit status. Its methods and loops follow the source and are proved against the pure functions above.

## Model

| member | source | states |
|---|---|---|
| Cat.Main.constructor | cropbox/cat.py:34-69 | Constructing `Main(args)` runs the whole command. The flags, outputs and status it leaves are exactly `Run(args, env)`. With no arguments that is one standard-input session; otherwise it is the left-to-right scan, stopped at the first status 1. |
| Cat.Main.ScanArgument | cropbox/cat.py:45-69 | One turn of the argument loop, from a running state. The new state is `ScanArg` of the old one: `-` runs a stdin session, a flag token sets its flags, an existing path is printed, a missing path appends the message and sets status 1. |
| Cat.Main.SetOption | cropbox/cat.py:48-64 | The assignments for a flag token. `-b` sets counting and skip-empty; `-A` sets `-E`, `-T` and `-v`; `-u` sets the flush flag. No other flag changes. |
| Cat.Main.MakeVisible | cropbox/cat.py:71-80 | The accumulator loop of `make_visible` returns exactly `Visible(text, showTabs, showNonprint)`. |
| Cat.Main.CatFile | cropbox/cat.py:82-99 | For a file, appends the file's listing under the current flags and leaves the status alone. A directory writes nothing and sets status 1. |
| Cat.Main.WriteLines | cropbox/cat.py:84-99 | The line loop, with `cnt` starting at 0, appends `Format(lines, flags).text` to standard output. |
| Cat.Main.WriteLine | cropbox/cat.py:86-97 | One turn of the line loop. It appends the line's `Piece` for the counter before it and returns the counter advanced exactly when the line is counted. |
| Cat.Main.WriteShown | cropbox/cat.py:93-97 | For a line that is not skipped, appends the transformed line, then `$` with `-E`, then the newline. |
| Cat.Main.CatStdin | cropbox/cat.py:101-108 | A standard-input session records the output offset at which it ran. If no U+0004 line is left for it, the `EOFError` of `input()` sets status 1; otherwise the status is unchanged. It writes nothing in the model. |
| Text.Caret | cropbox/cat.py:77 | `chr(ord(c) ^ 0x40)` is a different character, and its code is `ord(c)` with bit 6 flipped. |
| Text.PrintableIsPythonConstant | cropbox/cat.py:76 | `IsPrintable` holds exactly for the characters of `string.printable`. That constant is written out as Python builds it: digits, lowercase, uppercase, punctuation, then whitespace. |
| Text.SpaceIsPythonSpace | cropbox/cat.py:88 | `IsSpace` holds exactly for the 29 characters for which `str.isspace()` is true, listed one by one. These are the characters `strip()` removes. |
| Text.FlipBit6Bits | cropbox/cat.py:77 | XOR with 0x40 keeps the bits above and below bit 6 and changes bit 6. |
| Text.CaretSameBlock | cropbox/cat.py:77 | The rewrite stays in the 128-code-point block of `c`, so it is always a valid character. |
| Text.CaretInvolutive | cropbox/cat.py:77 | The caret rewrite undoes itself. |
| Text.CaretOfControl | cropbox/cat.py:76-77 | An ASCII control character or DEL is rewritten to a printable character in `@`..`_` or to `?`. It is never a tab or a newline. |
| Text.Decimal | cropbox/cat.py:92 | `f'{cnt}'` is a non-empty string of digits with no leading zero for positive counters. It is one digit exactly when the counter is below 10. |
| Text.DecimalRoundTrip | cropbox/cat.py:92 | Reading the rendered counter back as decimal digits gives the counter. |
| Text.DecimalInjective | cropbox/cat.py:92 | Distinct counters are rendered differently. |
| Visibility.VisibleChar | cropbox/cat.py:74-79 | One character gives two characters starting with `^` when it is rewritten (a tab under `-T`, a non-printable character under `-v`). Otherwise it gives the character itself. |
| Visibility.Visible | cropbox/cat.py:72-80 | `make_visible`: the output is at least `len(text)` and at most `2*len(text)` long. |
| Visibility.VisibleAppend | cropbox/cat.py:72-80 | The transform distributes over concatenation, because it works character by character. |
| Visibility.VisibleIsCharOutputs | cropbox/cat.py:73-79 | The output is the per-character outputs in input order. Piece `i` depends on character `i` alone: `^I` for a tab with `-T`, `^` plus the caret rewrite for a non-printable character with `-v`, the character otherwise. |
| Visibility.VisibleIdentity | cropbox/cat.py:71-80 | With `-T` and `-v` both off, the text comes out unchanged. |
| Visibility.VisibleLength | cropbox/cat.py:72-80 | The output is exactly `len(text)` long if and only if no character was rewritten. |
| Visibility.VisibleUnchanged | cropbox/cat.py:78-79 | Text in which no character is rewritten is copied unchanged. |
| Visibility.NonprintOnlyUnchangedIff | cropbox/cat.py:76-79 | With `-v` alone, the text is unchanged if and only if every character is in `string.printable`. So a tab, `\r`, `\x0b` and `\x0c` pass through. |
| Visibility.NoTabWithShowTabs | cropbox/cat.py:74-75 | With `-T`, no tab is left in the output. |
| Visibility.NoNewlineIntroduced | cropbox/cat.py:74-79 | The transform never produces a newline from text that has none. |
| Visibility.ShowAllAsciiPrintable | cropbox/cat.py:59-62 | With `-A` (both `-T` and `-v`), ASCII text comes out as `string.printable` characters with no tab. |
| Visibility.NonAsciiStaysNonPrintable | cropbox/cat.py:76-77 | Above ASCII there is no `M-` notation. With `-v`, a character from U+0080 up becomes `^` and its caret rewrite, and that rewrite is again at least U+0080, so it is still outside `string.printable`. |
| Visibility.AccentedExample | cropbox/cat.py:76-77 | For example, `é` (U+00E9) becomes `^©` (U+00A9). |
| Listing.BlankIffStripEmpty | cropbox/cat.py:88 | `IsBlank(line)` is `not line.strip()`: stripping the leading and trailing whitespace leaves nothing exactly when the line is blank. |
| Listing.BlankIffAllSpace | cropbox/cat.py:88 | A line is blank exactly when every character of it is whitespace; the empty line is blank. |
| Listing.Piece | cropbox/cat.py:87-97 | The output for one line is never empty and ends in a newline. |
| Listing.Format | cropbox/cat.py:84-99 | `cat_file`'s loop over a file: the counter ends at most at the number of lines, and at least one character is written per line. |
| Listing.PieceEndSign | cropbox/cat.py:95-97 | For one line, `-E` only inserts `$` before the final newline. A line skipped by `-b` stays a bare newline. |
| Listing.PieceShape | cropbox/cat.py:86-97 | For a line with no newline, the output holds exactly one newline, the final one. A line that is not skipped ends in `$\n` with `-E` and in `\n` without. |
| Listing.FormatIsPieces | cropbox/cat.py:84-97 | The formatter's loop writes each line's output in order, numbered from the lines counted before it. The final counter is the number of counted lines. |
| Listing.FormatFirst | cropbox/cat.py:84 | The first line is written with the counter at 0. |
| Listing.AllCounted | cropbox/cat.py:87-91 | With `-n` and without `-b`, every line is counted. |
| Listing.NumberedLine | cropbox/cat.py:84-94 | With `-n` and without `-b`, line `k` (from 0) is written as `k + 1` in decimal, two spaces, the transformed line and its end. |
| Listing.NumberedLines | cropbox/cat.py:84-97 | With `-n` and without `-b`, a file's whole output is its lines numbered 1, 2, … in order. The counter ends at the number of lines. |
| Listing.SkipBlank | cropbox/cat.py:88-90 | With `-b`, a blank or whitespace-only line is written as exactly `"\n"` and does not advance the counter. |
| Listing.SkipBlankCountsNonBlank | cropbox/cat.py:87-91 | With `-b`, exactly the non-blank lines are counted. |
| Listing.OneNewlinePerLine | cropbox/cat.py:86-97 | For lines with no newline, the output holds exactly one newline per input line. |
| Listing.EndSignInsertsDollar | cropbox/cat.py:95-97 | Within a file, under any other flags, `-E` changes each non-skipped line's output only by a `$` before its newline. |
| Listing.CountedLinesSameWithoutEnd | cropbox/cat.py:87-91 | The counter does not depend on `-E`. |
| Listing.PlainIsIdentity | cropbox/cat.py:85-97 | With no `-n`, `-b`, `-E`, `-T` or `-v`, the output is the file's lines, each ended by one newline. |
| ArgScan.NotFound | cropbox/cat.py:68 | `print(f"cat: {i}: No such file or directory", file=sys.stderr)`: the message is 33 characters longer than the path and holds the path after `cat: `. |
| ArgScan.NotFoundInjective | cropbox/cat.py:68 | Distinct paths get distinct messages. |
| ArgScan.SetFlag | cropbox/cat.py:48-64 | After a flag token, each flag is set exactly when it was set before or the token sets it. `-n` and `-b` set counting, `-b` sets skip-empty, `-E`/`-T`/`-v` and `-A` set theirs, `-u` sets flushing. |
| ArgScan.ScanArg | cropbox/cat.py:45-69 | One turn of the loop leaves a stopped run alone. It never clears a flag or lowers the status. It only appends to standard output, to the stdin sessions and to standard error. |
| ArgScan.ScanArgs | cropbox/cat.py:44-69 | The status is 0 or 1. While the run goes on there has been one stdin session per `-`, each of which found a U+0004 line, and nothing has gone to standard error. |
| ArgScan.Run | cropbox/cat.py:42-47 | With no arguments, one stdin session at offset 0, no output and no flags. It ends with status 0 exactly when standard input holds a U+0004 line. |
| ArgScan.ScanArgGoesOn | cropbox/cat.py:45-66 | A turn that leaves the scan running adds only the file's listing to standard output. It adds a stdin session only for `-`, and that session found a U+0004 line. It leaves standard error alone. |
| ArgScan.StoppedStaysStopped | cropbox/cat.py:67-69 | After `sys.exit(1)` no later argument changes anything. |
| ArgScan.FlagsNeverCleared | cropbox/cat.py:45-64 | Every flag set at one point of the scan is still set at any later point. |
| ArgScan.OptionsOfSnoc | cropbox/cat.py:48-64 | One more token adds its flags to those of the tokens seen so far, if it is a flag token. |
| ArgScan.FlagsFromTokens | cropbox/cat.py:48-64 | While the scan runs, each flag is set exactly when a token that sets it has been seen. Counting is set by `-n` or `-b`; `-E`, `-T` and `-v` are each also set by `-A`. |
| ArgScan.OutputIsListings | cropbox/cat.py:45-66 | A run that does not stop writes, for each file argument in order, its listing under the flags of the arguments before it. It runs one stdin session per `-` and writes nothing to standard error. |
| ArgScan.MissingStops | cropbox/cat.py:67-69 | A missing path on a running scan stops it with status 1, the flags so far and exactly one message on standard error. |
| ArgScan.EndOfInputStops | cropbox/cat.py:46-47 | Suppose the `-` at position `i` follows only `-`, flags and files, and the U+0004 lines of standard input ran out before it. Then its session raises `EOFError` (cropbox/cat.py:103): status 1, the flags so far, nothing on standard error in the model, and nothing after it processed. |
| ArgScan.InputEnds | cropbox/cat.py:101-103 | A `-` met when every U+0004 line has been used stops a running scan with status 1. |
| ArgScan.FirstMissingStops | cropbox/cat.py:45-69 | Suppose an argument is neither `-`, a flag nor an existing path. Suppose also that it follows only `-`, flags and files, and that each earlier `-` found a U+0004 line. Then it ends the run: status 1, the message `cat: <arg>: No such file or directory`, the flags of the arguments before it, and nothing after it processed. |
| ArgScan.GoesOn | cropbox/cat.py:45-66 | A prefix made of `-`, flags and existing files leaves the scan running, as long as standard input holds a U+0004 line for each of its `-`. |
| ArgScan.FlagsOnlyWriteNothing | cropbox/cat.py:45-64 | A non-empty argument list of flags only writes nothing, reads nothing, and leaves just the flags set. |
| ArgScan.FlagAfterFilesHasNoEffectOnThem | cropbox/cat.py:45-66 | A flag given after the files does not change what was written or the status. |
| ArgScan.NumberingRestartsPerFile | cropbox/cat.py:84 | `cat -n p q` writes `p`'s listing and then `q`'s. `q`'s listing starts again at `1  `. |
| ArgScan.FirstLineNumbered | cropbox/cat.py:84-92 | With `-n` and without `-b`, a non-empty file's output starts with `1  `. |

## Left out

- What `cat_stdin` (cropbox/cat.py:101-116) reads and writes is not modelled. It depends on interactive `input()` and on Python's `repr` of UTF-8 bytes. The model keeps only how a session ends and where in the output it ran. A session ends normally at a line that is exactly U+0004; when no such line is left, the `EOFError` of `input()` ends the run with status 1. Standard input is given by its number of U+0004 lines. The traceback on standard error is not modelled.
- Cat.Main.CatStdin: states only where a session ran and how it ended, not what it wrote, for the reason above.
- Opening files is abstracted:
  - A file is given as its lines with the trailing `\n` removed. `os.path.exists` is membership in the file-system map.
  - Decoding with `errors='replace'` and universal-newline translation (a lone `\r` also ends a line in Python's text mode) are library behaviour and are not modelled.
- Opening a directory raises `IsADirectoryError`, and nothing catches it. The model stops the run with status 1, as Python does for an uncaught exception. Only the traceback text on standard error is not modelled.
- `-u` is kept as a flag. `sys.stdout.flush()` (cropbox/cat.py:98-99) changes buffering only, so it has no counterpart in the output.
- The module-level driver (cropbox/cat.py:120-126) is not part of this model: it pops `sys.argv[0]` and swallows `KeyboardInterrupt`. cropbox/commandBase.py, cropbox/clear.py and main.py are not part of this model either.
- The per-line work of the loops is split into methods of its own: `ScanArgument` and `SetOption` for a turn of the argument loop, and `WriteLine` and `WriteShown` for a turn of the line loop. The source writes these inline.
- The caret rewrite is computed on unbounded integers by setting aside whole blocks of 128. This equals XOR with 0x40 for every code point (see `Text.FlipBit6Bits`).
- Python's `str.isspace` is given by its list of whitespace code points (the ASCII ones and the Unicode spaces), as of current Unicode versions. Unicode database updates are not followed.
- The header comment of cropbox/cat.py lists `-s`, and the usage text suggests GNU-style behaviour. The code follows neither, and the model follows the code:
  - There is no `-s`.
  - Options cannot be bundled (`-nE` is a path).
  - The counter is not right-justified to six places and is not followed by a tab; it is followed by two spaces.
  - Counting does not continue across files.
  - Non-ASCII characters get no `M-` notation.
  - A directory gets no "Is a directory" message.
