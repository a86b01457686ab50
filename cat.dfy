/**
 * The `cat` command object (`cropbox/cat.py`, class `Main`). Constructing
 * it runs the command: its six flags start off and the arguments are
 * scanned left to right, printing each file as it is met. Standard output
 * and standard error are text fields the methods append to; `sys.exit(1)`
 * becomes the `status` field and the end of the scan.
 */
module Cat {
  import opened Text
  import opened Visibility
  import opened Listing
  import opened ArgScan

  /**
   * Writing `$` (with `-E`) and then the newline appends the line end
   * (proof helper: sequence associativity, stated once for speed).
   */
  lemma {:induction false} AppendLineEnd(out: seq<char>, shown: seq<char>, endSign: bool)
    ensures (if endSign then out + shown + "$" else out + shown) + "\n"
         == out + (shown + if endSign then "$\n" else "\n")
  {
  }

  class Main {
    var countLine: bool
    var countLineSkipEmpty: bool
    var endSign: bool
    var showTabs: bool
    var showNonprint: bool
    var flushImmediately: bool

    /** The file system the paths are looked up in, and how far standard input reaches. */
    const env: Env

    var stdout: seq<char>
    var stderr: seq<char>
    /** The offsets of `stdout` at which a session on standard input ran. */
    var stdinReads: seq<nat>
    var status: nat

    function Opts(): Options
      reads this
    {
      Options(countLine, countLineSkipEmpty, endSign, showTabs, showNonprint, flushImmediately)
    }

    function State(): Outcome
      reads this
    {
      Outcome(Opts(), stdout, stdinReads, stderr, status)
    }

    /** `Main(args)`: the whole run of the command. */
    constructor (args: seq<string>, env: Env)
      ensures this.env == env
      ensures State() == Run(args, env)
    {
      countLine, countLineSkipEmpty, endSign := false, false, false;
      showTabs, showNonprint, flushImmediately := false, false, false;
      this.env := env;
      stdout, stderr, stdinReads, status := [], [], [], 0;
      new;
      if |args| == 0 {
        ScanArgDash(State(), env);
        CatStdin();
      } else {
        var i := 0;
        while i < |args| && status == 0
          invariant 0 <= i <= |args|
          invariant State() == ScanArgs(args[..i], env)
        {
          ScanArgsPrefix(args, i, env);
          ScanArgument(args[i]);
          i := i + 1;
        }
        ScanEnds(args, i, env);
      }
    }

    /**
     * One turn of the argument loop of `Main(args)`: `-` reads standard
     * input, an exact flag token sets its flags, an existing path is
     * printed, anything else ends the run with status 1 and a message.
     */
    method ScanArgument(a: string)
      requires status == 0
      modifies this
      ensures State() == ScanArg(old(State()), a, env)
    {
      ghost var st := State();
      if a == "-" {
        ScanArgDash(st, env);
        CatStdin();
      } else if IsFlag(a) {
        ScanArgFlag(st, a, env);
        SetOption(a);
      } else if a in env.files {
        ScanArgPath(st, a, env);
        CatFile(a);
      } else {
        ScanArgPath(st, a, env);
        stderr := stderr + NotFound(a);
        status := 1;
      }
    }

    /** The flag assignments of the argument loop for the flag token `a`. */
    method SetOption(a: string)
      requires IsFlag(a)
      modifies this`countLine, this`countLineSkipEmpty, this`endSign
      modifies this`showTabs, this`showNonprint, this`flushImmediately
      ensures Opts() == SetFlag(old(Opts()), a)
    {
      ghost var o := Opts();
      if a == "-n" {
        countLine := true;
      } else if a == "-b" {
        countLine := true;
        countLineSkipEmpty := true;
      } else if a == "-E" {
        endSign := true;
      } else if a == "-T" {
        showTabs := true;
      } else if a == "-v" {
        showNonprint := true;
      } else if a == "-A" {
        endSign := true;
        showTabs := true;
        showNonprint := true;
      } else {
        flushImmediately := true;
      }
    }

    /** `make_visible`: the visibility transform under the current `-T` and `-v` flags. */
    method MakeVisible(text: seq<char>) returns (res: seq<char>)
      ensures res == Visible(text, showTabs, showNonprint)
    {
      res := [];
      for i := 0 to |text|
        invariant res == Visible(text[..i], showTabs, showNonprint)
      {
        var c := text[i];
        assert text[..i + 1] == text[..i] + [c];
        if c == '\t' && showTabs {
          res := res + "^I";
        } else if !IsPrintable(c) && showNonprint {
          res := res + ['^', Caret(c)];
        } else {
          res := res + [c];
        }
      }
      assert text[..|text|] == text;
    }

    /**
     * `cat_file`: writes the listing of the file at `path` under the
     * current flags, with a counter that starts at 0. A directory cannot be
     * opened: the run stops with status 1 and nothing is written.
     */
    method CatFile(path: string)
      requires path in env.files
      modifies this`stdout, this`status
      ensures env.files[path].File? ==> stdout == old(stdout) + Format(env.files[path].lines, Opts()).text
      ensures env.files[path].File? ==> status == old(status)
      ensures env.files[path].Directory? ==> stdout == old(stdout) && status == 1
    {
      match env.files[path]
      case Directory =>
        status := 1;
      case File(lines) =>
        WriteLines(lines);
    }

    /** The loop of `cat_file` over the lines of an opened file, its counter starting at 0. */
    method WriteLines(lines: seq<seq<char>>)
      modifies this`stdout
      ensures stdout == old(stdout) + Format(lines, Opts()).text
    {
      ghost var o := Opts();
      var cnt: nat := 0;
      for i := 0 to |lines|
        invariant stdout == old(stdout) + Format(lines[..i], o).text
        invariant cnt == Format(lines[..i], o).count
        invariant Opts() == o
      {
        FormatExtends(lines, i, o, old(stdout), stdout, cnt);
        CountExtends(lines, i, o, cnt);
        cnt := WriteLine(lines[i], cnt);
      }
      assert lines[..|lines|] == lines;
    }

    /**
     * One turn of `cat_file`'s loop: writes `line` under the current flags
     * with the counter at `cnt`, and returns the new counter.
     */
    method WriteLine(line: seq<char>, cnt: nat) returns (next: nat)
      modifies this`stdout
      ensures stdout == old(stdout) + Piece(cnt, line, Opts())
      ensures next == if Counted(line, Opts()) then cnt + 1 else cnt
    {
      ghost var o := Opts();
      next := cnt;
      if countLine {
        if countLineSkipEmpty && IsBlank(line) {
          stdout := stdout + "\n";
          return;
        }
        next := next + 1;
        stdout := stdout + NumberPrefix(next);
      }
      assert stdout == old(stdout) + Numbering(cnt, o);
      WriteShown(line);
      PieceNotSkipped(cnt, line, o);
      AppendAssoc(old(stdout), Numbering(cnt, o), Shown(line, o));
    }

    /** The rest of a line that is not skipped: the line made visible, `$` with `-E`, the newline. */
    method WriteShown(line: seq<char>)
      modifies this`stdout
      ensures stdout == old(stdout) + Shown(line, Opts())
    {
      var shown := MakeVisible(line);
      ghost var before := stdout;
      stdout := stdout + shown;
      if endSign {
        stdout := stdout + "$";
      }
      stdout := stdout + "\n";
      // With -u the source flushes here; flushing changes nothing written.
      AppendLineEnd(before, shown, endSign);
    }

    /**
     * `cat_stdin`: a session on standard input. What it writes is not
     * modelled; the offset of `stdout` at which it runs is recorded. It
     * ends at the next U+0004 line; when none is left, `input()` raises
     * `EOFError`, which nothing catches: the status becomes 1.
     */
    method CatStdin()
      modifies this`stdinReads, this`status
      ensures stdinReads == old(stdinReads) + [|stdout|]
      ensures status == if |old(stdinReads)| < env.stdinMarks then old(status) else 1
    {
      var reachesMark := |stdinReads| < env.stdinMarks;
      stdinReads := stdinReads + [|stdout|];
      if !reachesMark {
        status := 1;
      }
    }
  }
}
