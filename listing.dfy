/**
 * The per-file line formatter of `cat` (`Main.cat_file`). A file is given
 * as its lines with the trailing newline removed. For each line: with `-b`
 * a blank line is written as a bare newline and not counted; otherwise,
 * with `-n` or `-b`, the counter is incremented and written in decimal
 * followed by two spaces; then the visibility transform of the line, a `$`
 * with `-E`, and a newline. The counter starts at 0 in every file.
 */
module Listing {
  import opened Text
  import opened Visibility

  /** The six flags of `Main`, as the argument scan leaves them. */
  datatype Options = Options(
    countLine: bool,
    countLineSkipEmpty: bool,
    endSign: bool,
    showTabs: bool,
    showNonprint: bool,
    flushImmediately: bool)

  /** Every flag off, as at the start of the argument scan. */
  const Defaults := Options(false, false, false, false, false, false)

  /** `not line.strip()`: the line is empty or made of whitespace only. */
  predicate IsBlank(line: seq<char>) {
    line == [] || (IsSpace(line[0]) && IsBlank(line[1..]))
  }

  /** `str.lstrip()`: the leading whitespace removed. */
  function StripLeft(s: seq<char>): (r: seq<char>)
    ensures |r| <= |s|
    ensures r != [] ==> !IsSpace(r[0])
  {
    if s != [] && IsSpace(s[0]) then StripLeft(s[1..]) else s
  }

  /** `str.rstrip()`: the trailing whitespace removed. */
  function StripRight(s: seq<char>): (r: seq<char>)
    ensures |r| <= |s|
    ensures r != [] ==> !IsSpace(r[|r| - 1])
  {
    if s != [] && IsSpace(s[|s| - 1]) then StripRight(s[..|s| - 1]) else s
  }

  /** `str.strip()`. */
  function Strip(s: seq<char>): seq<char> {
    StripRight(StripLeft(s))
  }

  /** A blank line is one made of whitespace only. */
  lemma {:induction false} BlankIffAllSpace(line: seq<char>)
    ensures IsBlank(line) <==> forall i :: 0 <= i < |line| ==> IsSpace(line[i])
  {
    if line != [] {
      BlankIffAllSpace(line[1..]);
      assert forall i :: 1 <= i < |line| ==> line[i] == line[1..][i - 1];
    }
  }

  /** `IsBlank` is `not line.strip()`: stripping a line leaves nothing exactly when it is blank. */
  lemma {:induction false} BlankIffStripEmpty(line: seq<char>)
    ensures IsBlank(line) <==> Strip(line) == []
  {
    BlankIffStripLeftEmpty(line);
    var r := StripLeft(line);
    if r != [] {
      StripRightKeepsFirst(r);
    }
  }

  lemma {:induction false} BlankIffStripLeftEmpty(line: seq<char>)
    ensures IsBlank(line) <==> StripLeft(line) == []
  {
    if line != [] {
      BlankIffStripLeftEmpty(line[1..]);
    }
  }

  /** Stripping the end of a text that starts with a non-space leaves that character. */
  lemma {:induction false} StripRightKeepsFirst(s: seq<char>)
    requires s != [] && !IsSpace(s[0])
    ensures StripRight(s) != []
  {
    if IsSpace(s[|s| - 1]) {
      var init := s[..|s| - 1];
      assert init != [] && init[0] == s[0];
      StripRightKeepsFirst(init);
    }
  }

  /** A line that `-b` writes as a bare newline, without a number. */
  predicate Skipped(line: seq<char>, o: Options) {
    o.countLine && o.countLineSkipEmpty && IsBlank(line)
  }

  /** A line that advances the counter and gets a number. */
  predicate Counted(line: seq<char>, o: Options) {
    o.countLine && !Skipped(line, o)
  }

  /** The end of a line that is not skipped: `$` with `-E`, then the newline. */
  function LineEnd(o: Options): seq<char> {
    if o.endSign then "$\n" else "\n"
  }

  /** A line that is not skipped, after its optional number. */
  function Shown(line: seq<char>, o: Options): seq<char> {
    Visible(line, o.showTabs, o.showNonprint) + LineEnd(o)
  }

  /** `f'{cnt}  '`: the counter in decimal and two spaces. */
  function NumberPrefix(n: nat): seq<char> {
    Decimal(n) + "  "
  }

  /** What `cat_file` has written, and the value of its counter `cnt`. */
  datatype Written = Written(text: seq<char>, count: nat)

  /** The number written before a line that is not skipped, the counter being `cnt` before it. */
  function Numbering(cnt: nat, o: Options): seq<char> {
    if o.countLine then NumberPrefix(cnt + 1) else []
  }

  /** What one line adds to the output, given the counter before it. */
  function Piece(cnt: nat, line: seq<char>, o: Options): (p: seq<char>)
    ensures |p| >= 1 && p[|p| - 1] == '\n'
  {
    if Skipped(line, o) then "\n" else Numbering(cnt, o) + Shown(line, o)
  }

  /** A counted line is written as its number, two spaces, and the line shown (proof helper). */
  lemma {:induction false} PieceCounted(cnt: nat, line: seq<char>, o: Options)
    requires Counted(line, o)
    ensures Piece(cnt, line, o) == NumberPrefix(cnt + 1) + Shown(line, o)
  {
  }

  /** A line that is not skipped is written as its number and the line shown (proof helper). */
  lemma {:induction false} PieceNotSkipped(cnt: nat, line: seq<char>, o: Options)
    requires !Skipped(line, o)
    ensures Piece(cnt, line, o) == Numbering(cnt, o) + Shown(line, o)
  {
  }

  /** A line that is not skipped: its number, the line transformed, its end. */
  lemma {:induction false} PieceShown(cnt: nat, line: seq<char>, o: Options)
    requires !Skipped(line, o)
    ensures Piece(cnt, line, o) == (Numbering(cnt, o) + Visible(line, o.showTabs, o.showNonprint)) + LineEnd(o)
  {
  }

  /** `-E` changes the output for one line only by the `$` before its newline. */
  lemma {:induction false} PieceEndSign(cnt: nat, line: seq<char>, o: Options)
    ensures var plain := Piece(cnt, line, o.(endSign := false));
      var marked := Piece(cnt, line, o.(endSign := true));
      if Skipped(line, o) then marked == plain == "\n"
      else |plain| >= 1 && marked == plain[..|plain| - 1] + "$\n"
  {
    var off, on := o.(endSign := false), o.(endSign := true);
    if !Skipped(line, o) {
      PieceShown(cnt, line, off);
      PieceShown(cnt, line, on);
      var body := Numbering(cnt, o) + Visible(line, o.showTabs, o.showNonprint);
      assert (body + "\n")[..|body|] == body;
    }
  }

  /** One turn of `cat_file`'s loop. */
  function Step(prev: Written, line: seq<char>, o: Options): Written {
    Written(prev.text + Piece(prev.count, line, o),
            if Counted(line, o) then prev.count + 1 else prev.count)
  }

  /** `cat_file` on `lines`, one line at a time, as its loop runs. */
  function Format(lines: seq<seq<char>>, o: Options): (r: Written)
    ensures r.count <= |lines| <= |r.text|
  {
    if lines == [] then Written([], 0)
    else Step(Format(lines[..|lines| - 1], o), lines[|lines| - 1], o)
  }

  lemma {:induction false} FormatSnoc(lines: seq<seq<char>>, line: seq<char>, o: Options)
    ensures Format(lines + [line], o) == Step(Format(lines, o), line, o)
  {
    assert (lines + [line])[..|lines|] == lines;
  }

  /** One more line of a file: the formatter takes one more step. */
  lemma {:induction false} FormatPrefix(lines: seq<seq<char>>, i: nat, o: Options)
    requires i < |lines|
    ensures Format(lines[..i + 1], o) == Step(Format(lines[..i], o), lines[i], o)
  {
    assert lines[..i + 1] == lines[..i] + [lines[i]];
    FormatSnoc(lines[..i], lines[i], o);
  }

  /**
   * One more line of a file: when `out` is `base` followed by the listing of
   * the first `i` lines and `cnt` its counter, writing the output for line
   * `i` gives `base` followed by the listing of the first `i + 1` lines.
   */
  lemma {:induction false} FormatExtends(lines: seq<seq<char>>, i: nat, o: Options, base: seq<char>, out: seq<char>, cnt: nat)
    requires i < |lines|
    requires out == base + Format(lines[..i], o).text && cnt == Format(lines[..i], o).count
    ensures out + Piece(cnt, lines[i], o) == base + Format(lines[..i + 1], o).text
  {
    FormatPrefix(lines, i, o);
    AppendAssoc(base, Format(lines[..i], o).text, Piece(cnt, lines[i], o));
  }

  /** One more line of a file: the counter advances when that line is counted. */
  lemma {:induction false} CountExtends(lines: seq<seq<char>>, i: nat, o: Options, cnt: nat)
    requires i < |lines|
    requires cnt == Format(lines[..i], o).count
    ensures (if Counted(lines[i], o) then cnt + 1 else cnt) == Format(lines[..i + 1], o).count
  {
    FormatPrefix(lines, i, o);
  }

  // A reference reading of the formatter: the output for each line on its
  // own, with its number read off the lines before it.

  /** How many of `lines` get a number. */
  function CountedLines(lines: seq<seq<char>>, o: Options): nat
  {
    if lines == [] then 0
    else (if Counted(lines[0], o) then 1 else 0) + CountedLines(lines[1..], o)
  }

  /** The output for line `k`. */
  function LineOut(lines: seq<seq<char>>, k: nat, o: Options): seq<char>
    requires k < |lines|
  {
    Piece(CountedLines(lines[..k], o), lines[k], o)
  }

  function Pieces(lines: seq<seq<char>>, o: Options): (ps: seq<seq<char>>)
    ensures |ps| == |lines|
    ensures forall k :: 0 <= k < |lines| ==> ps[k] == LineOut(lines, k, o)
  {
    seq(|lines|, k requires 0 <= k < |lines| => LineOut(lines, k, o))
  }

  lemma {:induction false} CountedLinesAppend(a: seq<seq<char>>, line: seq<char>, o: Options)
    ensures CountedLines(a + [line], o) == CountedLines(a, o) + (if Counted(line, o) then 1 else 0)
  {
    if a != [] {
      assert (a + [line])[1..] == a[1..] + [line];
      CountedLinesAppend(a[1..], line, o);
    }
  }

  /**
   * The formatter writes the lines' outputs one after the other, and its
   * counter ends at the number of counted lines.
   */
  lemma {:induction false} FormatIsPieces(lines: seq<seq<char>>, o: Options)
    ensures Format(lines, o) == Written(Concat(Pieces(lines, o)), CountedLines(lines, o))
  {
    if lines != [] {
      var n := |lines| - 1;
      var init := lines[..n];
      FormatIsPieces(init, o);
      CountedLinesSnoc(lines, o);
      PiecesSnoc(lines, o);
      var ps := Pieces(lines, o);
      assert Concat(ps) == Concat(ps[..n]) + ps[n];
      assert Format(lines, o) == Step(Format(init, o), lines[n], o);
    }
  }

  lemma {:induction false} CountedLinesSnoc(lines: seq<seq<char>>, o: Options)
    requires lines != []
    ensures var n := |lines| - 1;
      CountedLines(lines, o) == CountedLines(lines[..n], o) + (if Counted(lines[n], o) then 1 else 0)
  {
    var n := |lines| - 1;
    assert lines[..n] + [lines[n]] == lines;
    CountedLinesAppend(lines[..n], lines[n], o);
  }

  /** The outputs of all lines but the last, then the last line's output. */
  lemma {:induction false} PiecesSnoc(lines: seq<seq<char>>, o: Options)
    requires lines != []
    ensures var n := |lines| - 1;
      Pieces(lines, o)[..n] == Pieces(lines[..n], o)
      && Pieces(lines, o)[n] == Piece(CountedLines(lines[..n], o), lines[n], o)
  {
    var n := |lines| - 1;
    var init := lines[..n];
    forall k | 0 <= k < n ensures LineOut(lines, k, o) == LineOut(init, k, o) {
      assert lines[..k] == init[..k];
    }
  }


  /** The output for the first line, at counter 0, comes first. */
  lemma {:induction false} FormatFirst(lines: seq<seq<char>>, o: Options)
    requires |lines| > 0
    ensures Format(lines, o).text == Piece(0, lines[0], o) + Concat(Pieces(lines, o)[1..])
  {
    FormatIsPieces(lines, o);
    ConcatFront(Pieces(lines, o));
    assert lines[..0] == [];
  }

  /** With `-n` and without `-b` every line is counted. */
  lemma {:induction false} AllCounted(lines: seq<seq<char>>, o: Options)
    requires o.countLine && !o.countLineSkipEmpty
    ensures CountedLines(lines, o) == |lines|
  {
    if lines != [] {
      AllCounted(lines[1..], o);
    }
  }

  /** With `-n` and without `-b`, line `k` (counting from 0) carries the number `k + 1`. */
  lemma {:induction false} NumberedLine(lines: seq<seq<char>>, k: nat, o: Options)
    requires o.countLine && !o.countLineSkipEmpty && k < |lines|
    ensures LineOut(lines, k, o) == NumberPrefix(k + 1) + Shown(lines[k], o)
  {
    AllCounted(lines[..k], o);
    PieceCounted(k, lines[k], o);
  }

  /**
   * With `-n` and without `-b`, the k-th line of a file (counting from 1)
   * is written as k in decimal, two spaces, the transformed line and its end.
   */
  lemma {:induction false} NumberedLines(lines: seq<seq<char>>, o: Options)
    requires o.countLine && !o.countLineSkipEmpty
    ensures Format(lines, o).count == |lines|
    ensures Format(lines, o).text == Concat(NumberedPieces(lines, o))
  {
    FormatIsPieces(lines, o);
    AllCounted(lines, o);
    NumberedPiecesAgree(lines, o);
  }

  lemma {:induction false} NumberedPiecesAgree(lines: seq<seq<char>>, o: Options)
    requires o.countLine && !o.countLineSkipEmpty
    ensures Pieces(lines, o) == NumberedPieces(lines, o)
  {
    forall k | 0 <= k < |lines|
      ensures Pieces(lines, o)[k] == NumberedPieces(lines, o)[k]
    {
      NumberedLine(lines, k, o);
    }
  }

  /** Each line shown after its number `k + 1`: the expected output of `-n`. */
  function NumberedPieces(lines: seq<seq<char>>, o: Options): (ps: seq<seq<char>>)
    ensures |ps| == |lines|
    ensures forall k :: 0 <= k < |lines| ==> ps[k] == NumberPrefix(k + 1) + Shown(lines[k], o)
  {
    seq(|lines|, k requires 0 <= k < |lines| => NumberPrefix(k + 1) + Shown(lines[k], o))
  }

  /**
   * With `-b`, a blank line is written as exactly one newline; it does not
   * advance the counter, so the next counted line carries the number one
   * above the counted line before the blank one.
   */
  lemma {:induction false} SkipBlank(lines: seq<seq<char>>, k: nat, o: Options)
    requires o.countLine && o.countLineSkipEmpty
    requires k < |lines| && IsBlank(lines[k])
    ensures LineOut(lines, k, o) == "\n"
    ensures CountedLines(lines[..k + 1], o) == CountedLines(lines[..k], o)
  {
    assert lines[..k + 1] == lines[..k] + [lines[k]];
    CountedLinesAppend(lines[..k], lines[k], o);
  }

  /**
   * With `-b`, exactly the non-blank lines are counted: a line gets
   * number m + 1 where m is the number of non-blank lines before it.
   */
  lemma {:induction false} SkipBlankCountsNonBlank(lines: seq<seq<char>>, o: Options)
    requires o.countLine && o.countLineSkipEmpty
    ensures CountedLines(lines, o) == |NonBlank(lines)|
  {
    if lines != [] {
      SkipBlankCountsNonBlank(lines[1..], o);
    }
  }

  /** The non-blank lines, in order. */
  function NonBlank(lines: seq<seq<char>>): (r: seq<seq<char>>)
    ensures |r| <= |lines|
    ensures forall i :: 0 <= i < |r| ==> !IsBlank(r[i])
  {
    if lines == [] then []
    else (if IsBlank(lines[0]) then [] else [lines[0]]) + NonBlank(lines[1..])
  }

  /**
   * The output for a line holds exactly one newline, the one that `Piece`
   * puts at its end (when the line itself has none); a line that is not
   * skipped ends in `$\n` with `-E` and in `\n` without.
   */
  lemma {:induction false} PieceShape(cnt: nat, line: seq<char>, o: Options)
    requires '\n' !in line
    ensures Occurrences('\n', Piece(cnt, line, o)) == 1
    ensures !Skipped(line, o) ==> var p := Piece(cnt, line, o);
      |p| >= |LineEnd(o)| && p[|p| - |LineEnd(o)|..] == LineEnd(o)
  {
    if Skipped(line, o) {
      assert Piece(cnt, line, o) == "\n";
      assert "\n"[..0] == [];
    } else {
      var d, v, e := Numbering(cnt, o), Visible(line, o.showTabs, o.showNonprint), LineEnd(o);
      NoNewlineIntroduced(line, o.showTabs, o.showNonprint);
      NumberingHasNoNewline(cnt, o);
      LineEndNewlines(o);
      PieceNotSkipped(cnt, line, o);
      assert Shown(line, o) == v + e;
      OneNewlineAtEnd(d, v, e);
      assert Piece(cnt, line, o) == d + (v + e);
    }
  }

  /** Text without a newline, then an end holding one newline: one newline in all, and the end last. */
  lemma {:induction false} OneNewlineAtEnd(d: seq<char>, v: seq<char>, e: seq<char>)
    requires '\n' !in d && '\n' !in v && Occurrences('\n', e) == 1
    ensures Occurrences('\n', d + (v + e)) == 1
    ensures (d + (v + e))[|d + (v + e)| - |e|..] == e
  {
    OccurrencesAbsent('\n', v);
    OccurrencesAbsent('\n', d);
    OccurrencesAppend('\n', v, e);
    OccurrencesAppend('\n', d, v + e);
  }

  /** A line number is digits and spaces. */
  lemma {:induction false} NumberingHasNoNewline(cnt: nat, o: Options)
    ensures '\n' !in Numbering(cnt, o)
  {
    if o.countLine {
      var digits := Decimal(cnt + 1);
      forall i | 0 <= i < |digits| ensures digits[i] != '\n' {
        assert IsDigit(digits[i]);
      }
      assert '\n' !in "  ";
    }
  }

  /** Each line end holds one newline, at its end. */
  lemma {:induction false} LineEndNewlines(o: Options)
    ensures |LineEnd(o)| >= 1 && LineEnd(o)[|LineEnd(o)| - 1] == '\n'
    ensures Occurrences('\n', LineEnd(o)) == 1
  {
    assert "$\n"[..1] == "$" && "$"[..0] == [] && "\n"[..0] == [];
  }

  lemma {:induction false} NewlinesOfPieces(lines: seq<seq<char>>, n: nat, o: Options)
    requires n <= |lines|
    requires forall k :: 0 <= k < |lines| ==> '\n' !in lines[k]
    ensures Occurrences('\n', Concat(Pieces(lines, o)[..n])) == n
  {
    if n > 0 {
      NewlinesOfPieces(lines, n - 1, o);
      var ps := Pieces(lines, o);
      assert ps[..n][..n - 1] == ps[..n - 1];
      OccurrencesAppend('\n', Concat(ps[..n - 1]), ps[n - 1]);
      PieceShape(CountedLines(lines[..n - 1], o), lines[n - 1], o);
    }
  }

  /** A file whose lines hold no newline yields exactly one newline per line. */
  lemma {:induction false} OneNewlinePerLine(lines: seq<seq<char>>, o: Options)
    requires forall k :: 0 <= k < |lines| ==> '\n' !in lines[k]
    ensures Occurrences('\n', Format(lines, o).text) == |lines|
  {
    FormatIsPieces(lines, o);
    NewlinesOfPieces(lines, |lines|, o);
    assert Pieces(lines, o)[..|lines|] == Pieces(lines, o);
  }

  /**
   * `-E` only inserts `$` before the newline of each line that is not
   * skipped, whatever the other flags are.
   */
  lemma {:induction false} EndSignInsertsDollar(lines: seq<seq<char>>, k: nat, o: Options)
    requires k < |lines|
    ensures var plain := LineOut(lines, k, o.(endSign := false));
      var marked := LineOut(lines, k, o.(endSign := true));
      if Skipped(lines[k], o) then marked == plain == "\n"
      else |plain| >= 1 && marked == plain[..|plain| - 1] + "$\n"
  {
    var off, on := o.(endSign := false), o.(endSign := true);
    CountedLinesSameWithoutEnd(lines[..k], o);
    var c := CountedLines(lines[..k], off);
    PieceEndSign(c, lines[k], o);
    assert LineOut(lines, k, off) == Piece(c, lines[k], off);
    assert LineOut(lines, k, on) == Piece(c, lines[k], on);
  }

  /** The counter does not depend on `-E`. */
  lemma {:induction false} CountedLinesSameWithoutEnd(lines: seq<seq<char>>, o: Options)
    ensures CountedLines(lines, o.(endSign := false)) == CountedLines(lines, o.(endSign := true))
  {
    if lines != [] {
      CountedLinesSameWithoutEnd(lines[1..], o);
    }
  }

  /** Each line followed by a newline: a file's text with its line ends restored. */
  function Unlines(lines: seq<seq<char>>): seq<char>
  {
    Concat(Terminated(lines))
  }

  /** Each line with its newline. */
  function Terminated(lines: seq<seq<char>>): (ps: seq<seq<char>>)
    ensures |ps| == |lines|
    ensures forall k :: 0 <= k < |lines| ==> ps[k] == lines[k] + "\n"
  {
    seq(|lines|, k requires 0 <= k < |lines| => lines[k] + "\n")
  }

  /**
   * Without `-n`, `-b`, `-E`, `-T`, `-v` (and with or without `-u`) the
   * output is the file itself, each line ended by one newline.
   */
  lemma {:induction false} PlainIsIdentity(lines: seq<seq<char>>, o: Options)
    requires !o.countLine && !o.endSign && !o.showTabs && !o.showNonprint
    ensures Format(lines, o).text == Unlines(lines)
    ensures Format(lines, o).count == 0
  {
    FormatIsPieces(lines, o);
    forall k | 0 <= k < |lines| ensures Pieces(lines, o)[k] == lines[k] + "\n" {
      VisibleIdentity(lines[k]);
    }
    assert Pieces(lines, o) == Terminated(lines);
    NoneCounted(lines, o);
  }

  lemma {:induction false} NoneCounted(lines: seq<seq<char>>, o: Options)
    requires !o.countLine
    ensures CountedLines(lines, o) == 0
  {
    if lines != [] {
      NoneCounted(lines[1..], o);
    }
  }
}
