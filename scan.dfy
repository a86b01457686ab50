/**
 * The argument scan of `cat` (`Main.__init__`), as a function of the
 * arguments and of the file system. Arguments are taken left to right and
 * acted on at once: `-` reads standard input; the exact tokens `-n`, `-b`,
 * `-E`, `-T`, `-v`, `-A`, `-u` switch flags on for good; any other token is
 * a path, printed with the flags set so far; a path that does not exist
 * ends the run with status 1. With no arguments at all standard input is
 * read once.
 *
 * The environment holds the file system, which maps a path to a file (its
 * lines, newline removed) or to a directory, and the number of lines of
 * standard input that are exactly the character U+0004. A session on
 * standard input ends at the next such line; when none is left, `input()`
 * raises an `EOFError` that nothing catches and the run ends with status 1.
 * What a session writes is not modelled: the run records the output offset
 * at which each session starts.
 */
module ArgScan {
  import opened Text
  import opened Listing

  datatype Node = File(lines: seq<seq<char>>) | Directory

  type FileSystem = map<string, Node>

  /** What a run sees: the files, and how many sessions on standard input end at a U+0004 line. */
  datatype Env = Env(files: FileSystem, stdinMarks: nat)

  /**
   * Where a run stands: the flags, standard output, the output offsets at
   * which standard input was read, standard error, and the exit status
   * (0 while the run goes on; 1 once it has stopped).
   */
  datatype Outcome = Outcome(
    opts: Options,
    stdout: seq<char>,
    stdinReads: seq<nat>,
    stderr: seq<char>,
    status: nat)

  const Start := Outcome(Defaults, [], [], [], 0)

  /** The exact tokens that set flags. */
  predicate IsFlag(a: string) {
    a == "-n" || a == "-b" || a == "-E" || a == "-T" || a == "-v" || a == "-A" || a == "-u"
  }

  /** The flags after the flag token `a`; `-b` also sets `-n`, `-A` sets `-E`, `-T` and `-v`. */
  function SetFlag(o: Options, a: string): (r: Options)
    requires IsFlag(a)
    ensures r.countLine == (o.countLine || a == "-n" || a == "-b")
    ensures r.countLineSkipEmpty == (o.countLineSkipEmpty || a == "-b")
    ensures r.endSign == (o.endSign || a == "-E" || a == "-A")
    ensures r.showTabs == (o.showTabs || a == "-T" || a == "-A")
    ensures r.showNonprint == (o.showNonprint || a == "-v" || a == "-A")
    ensures r.flushImmediately == (o.flushImmediately || a == "-u")
  {
    if a == "-n" then o.(countLine := true)
    else if a == "-b" then o.(countLine := true, countLineSkipEmpty := true)
    else if a == "-E" then o.(endSign := true)
    else if a == "-T" then o.(showTabs := true)
    else if a == "-v" then o.(showNonprint := true)
    else if a == "-A" then o.(endSign := true, showTabs := true, showNonprint := true)
    else o.(flushImmediately := true)
  }

  /** The diagnostic for a path that does not exist (`print` adds the newline). */
  function NotFound(a: string): (m: string)
    ensures |m| == |a| + 33 && m[5..|a| + 5] == a
  {
    "cat: " + a + ": No such file or directory\n"
  }

  /** Distinct paths get distinct messages: the path can be read back from the message. */
  lemma {:induction false} NotFoundInjective(a: string, b: string)
    requires NotFound(a) == NotFound(b)
    ensures a == b
  {
    var m := NotFound(a);
    assert |a| == |b|;
    assert a == m[5..|a| + 5] == b;
  }

  /** A token that names an existing file to print. */
  predicate IsFileArg(a: string, env: Env) {
    a != "-" && !IsFlag(a) && a in env.files && env.files[a].File?
  }

  /**
   * One turn of the scan. A session on standard input that finds no U+0004
   * line left, and opening a directory, raise errors nothing catches: status 1.
   */
  function ScanArg(st: Outcome, a: string, env: Env): (r: Outcome)
    ensures st.status != 0 ==> r == st
    ensures FlagsWithin(st.opts, r.opts) && st.status <= r.status
    ensures st.stdout <= r.stdout && st.stdinReads <= r.stdinReads && st.stderr <= r.stderr
  {
    if st.status != 0 then st
    else if a == "-" then
      var started := st.stdinReads + [|st.stdout|];
      if |st.stdinReads| < env.stdinMarks then st.(stdinReads := started)
      else st.(stdinReads := started, status := 1)
    else if IsFlag(a) then st.(opts := SetFlag(st.opts, a))
    else if a in env.files then
      match env.files[a]
      case File(lines) => st.(stdout := st.stdout + Format(lines, st.opts).text)
      case Directory => st.(status := 1)
    else st.(stderr := st.stderr + NotFound(a), status := 1)
  }

  /** The number of `-` arguments: the standard-input sessions. */
  function Dashes(args: seq<string>): nat {
    if args == [] then 0 else Dashes(args[..|args| - 1]) + (if args[|args| - 1] == "-" then 1 else 0)
  }

  /** The scan over `args`, from the start state. */
  function ScanArgs(args: seq<string>, env: Env): (r: Outcome)
    ensures r.status <= 1
    ensures r.status == 0 ==> |r.stdinReads| == Dashes(args) <= env.stdinMarks && r.stderr == []
  {
    if args == [] then Start
    else ScanArg(ScanArgs(args[..|args| - 1], env), args[|args| - 1], env)
  }

  /** A whole run of `cat` with arguments `args`: with none, one session on standard input. */
  function Run(args: seq<string>, env: Env): (r: Outcome)
    ensures args == [] ==> r.stdout == [] && r.stdinReads == [0] && r.opts == Defaults
    ensures args == [] ==> (r.status == 0 <==> env.stdinMarks > 0)
  {
    if args == [] then ScanArg(Start, "-", env) else ScanArgs(args, env)
  }

  /** The flags that the tokens of `args` switch on. */
  function OptionsOf(args: seq<string>): Options {
    Options(
      "-n" in args || "-b" in args,
      "-b" in args,
      "-E" in args || "-A" in args,
      "-T" in args || "-A" in args,
      "-v" in args || "-A" in args,
      "-u" in args)
  }

  /** Every flag set in `o` is set in `p`. */
  predicate FlagsWithin(o: Options, p: Options) {
    (o.countLine ==> p.countLine) && (o.countLineSkipEmpty ==> p.countLineSkipEmpty)
    && (o.endSign ==> p.endSign) && (o.showTabs ==> p.showTabs)
    && (o.showNonprint ==> p.showNonprint) && (o.flushImmediately ==> p.flushImmediately)
  }

  lemma {:induction false} ScanArgsSnoc(args: seq<string>, a: string, env: Env)
    ensures ScanArgs(args + [a], env) == ScanArg(ScanArgs(args, env), a, env)
  {
    assert (args + [a])[..|args|] == args;
  }

  /** The scan of the first `i + 1` arguments takes one turn more than that of the first `i`. */
  lemma {:induction false} ScanArgsPrefix(args: seq<string>, i: nat, env: Env)
    requires i < |args|
    ensures ScanArgs(args[..i + 1], env) == ScanArg(ScanArgs(args[..i], env), args[i], env)
  {
    assert args[..i] + [args[i]] == args[..i + 1];
    ScanArgsSnoc(args[..i], args[i], env);
  }

  /** A scan that has taken every argument, or has stopped, is the whole run. */
  lemma {:induction false} ScanEnds(args: seq<string>, i: nat, env: Env)
    requires 0 < |args| && i <= |args|
    requires i == |args| || ScanArgs(args[..i], env).status != 0
    ensures Run(args, env) == ScanArgs(args[..i], env)
  {
    if i < |args| {
      StoppedStaysStopped(args[..i], args[i..], env);
      assert args[..i] + args[i..] == args;
    } else {
      assert args[..i] == args;
    }
  }

  /** What one turn does to the flags. */
  lemma {:induction false} ScanArgOpts(st: Outcome, a: string, env: Env)
    ensures ScanArg(st, a, env).opts == if st.status == 0 && IsFlag(a) then SetFlag(st.opts, a) else st.opts
  {
  }

  /** What one turn that leaves the run going does to the output. */
  lemma {:induction false} ScanArgGoesOn(st: Outcome, a: string, env: Env)
    requires st.status == 0 && ScanArg(st, a, env).status == 0
    ensures ScanArg(st, a, env).stdout
         == st.stdout + (if IsFileArg(a, env) then Format(env.files[a].lines, st.opts).text else [])
    ensures ScanArg(st, a, env).stdinReads == st.stdinReads + (if a == "-" then [|st.stdout|] else [])
    ensures ScanArg(st, a, env).stderr == st.stderr
    ensures a == "-" ==> |st.stdinReads| < env.stdinMarks
  {
  }

  /**
   * A turn on `-` while the run goes on: standard input is read at the
   * current offset, and the run stops when no U+0004 line is left (proof
   * helper: one branch of `ScanArg`).
   */
  lemma {:induction false} ScanArgDash(st: Outcome, env: Env)
    requires st.status == 0
    ensures ScanArg(st, "-", env) == st.(stdinReads := st.stdinReads + [|st.stdout|],
      status := if |st.stdinReads| < env.stdinMarks then 0 else 1)
  {
  }

  /** A turn on a flag while the run goes on: only the flags change (proof helper: one branch of `ScanArg`). */
  lemma {:induction false} ScanArgFlag(st: Outcome, a: string, env: Env)
    requires st.status == 0 && IsFlag(a)
    ensures ScanArg(st, a, env) == st.(opts := SetFlag(st.opts, a))
  {
  }

  /** A turn on a path while the run goes on (proof helper: the path branches of `ScanArg`). */
  lemma {:induction false} ScanArgPath(st: Outcome, a: string, env: Env)
    requires st.status == 0 && a != "-" && !IsFlag(a)
    ensures a in env.files && env.files[a].File? ==> ScanArg(st, a, env) == st.(stdout := st.stdout + Format(env.files[a].lines, st.opts).text)
    ensures a in env.files && env.files[a].Directory? ==> ScanArg(st, a, env) == st.(status := 1)
    ensures a !in env.files ==> ScanArg(st, a, env) == st.(stderr := st.stderr + NotFound(a), status := 1)
  {
  }

  lemma {:induction false} OptionsOfSnoc(args: seq<string>, a: string)
    ensures OptionsOf(args + [a]) == if IsFlag(a) then SetFlag(OptionsOf(args), a) else OptionsOf(args)
  {
    assert forall x :: x in args + [a] <==> x in args || x == a;
    if !IsFlag(a) {
      assert a != "-n" && a != "-b" && a != "-E" && a != "-T" && a != "-v" && a != "-A" && a != "-u";
    }
  }

  /** Once the run has stopped, no later argument is looked at. */
  lemma {:induction false} StoppedStaysStopped(pre: seq<string>, rest: seq<string>, env: Env)
    requires ScanArgs(pre, env).status != 0
    ensures ScanArgs(pre + rest, env) == ScanArgs(pre, env)
  {
    if rest == [] {
      assert pre + rest == pre;
    } else {
      var all, n := pre + rest, |rest| - 1;
      assert all[..|all| - 1] == pre + rest[..n];
      StoppedStaysStopped(pre, rest[..n], env);
    }
  }

  /** Flags are only ever switched on: a later point of the scan has every flag an earlier one has. */
  lemma {:induction false} FlagsNeverCleared(pre: seq<string>, rest: seq<string>, env: Env)
    ensures FlagsWithin(ScanArgs(pre, env).opts, ScanArgs(pre + rest, env).opts)
  {
    if rest != [] {
      var n := |rest| - 1;
      var mid := ScanArgs(pre + rest[..n], env);
      FlagsNeverCleared(pre, rest[..n], env);
      assert pre + rest == (pre + rest[..n]) + [rest[n]];
      ScanArgsSnoc(pre + rest[..n], rest[n], env);
    } else {
      assert pre + rest == pre;
    }
  }

  /**
   * While the run goes on, a flag is set exactly when one of the tokens
   * that set it has been seen (`-n` or `-b` for numbering, `-A` for each of
   * `-E`, `-T`, `-v`).
   */
  lemma {:induction false} FlagsFromTokens(args: seq<string>, env: Env)
    requires ScanArgs(args, env).status == 0
    ensures ScanArgs(args, env).opts == OptionsOf(args)
  {
    if args != [] {
      var n := |args| - 1;
      var init := args[..n];
      assert args == init + [args[n]];
      ScanArgsSnoc(init, args[n], env);
      assert ScanArgs(init, env).status == 0;
      FlagsFromTokens(init, env);
      ScanArgOpts(ScanArgs(init, env), args[n], env);
      OptionsOfSnoc(init, args[n]);
    }
  }

  /** The output of the file argument at `i`, with the flags of the arguments before it. */
  function Printed(args: seq<string>, i: nat, env: Env): seq<char>
    requires i < |args|
  {
    if IsFileArg(args[i], env) then Format(env.files[args[i]].lines, OptionsOf(args[..i])).text else []
  }

  /** The outputs of the file arguments, in order. */
  function AllPrinted(args: seq<string>, env: Env): (ps: seq<seq<char>>)
    ensures |ps| == |args|
    ensures forall i :: 0 <= i < |args| ==> ps[i] == Printed(args, i, env)
  {
    seq(|args|, i requires 0 <= i < |args| => Printed(args, i, env))
  }

  lemma {:induction false} AllPrintedSnoc(init: seq<string>, a: string, env: Env)
    ensures Concat(AllPrinted(init + [a], env))
         == Concat(AllPrinted(init, env)) + Printed(init + [a], |init|, env)
  {
    var args := init + [a];
    var ps := AllPrinted(args, env);
    AllPrintedPrefix(init, a, env);
    assert Concat(ps) == Concat(ps[..|init|]) + ps[|init|];
  }

  /** The outputs of the arguments before the last do not depend on the last. */
  lemma {:induction false} AllPrintedPrefix(init: seq<string>, a: string, env: Env)
    ensures AllPrinted(init + [a], env)[..|init|] == AllPrinted(init, env)
  {
    var args := init + [a];
    forall i | 0 <= i < |init| ensures AllPrinted(args, env)[i] == AllPrinted(init, env)[i] {
      assert args[..i] == init[..i];
    }
  }

  /**
   * A run that does not stop writes, for each file argument in order, the
   * listing of that file under the flags of the arguments before it (so a
   * flag never affects a file named before it, and the counter restarts
   * in each file); it reads standard input once per `-` and writes nothing
   * to standard error.
   */
  lemma {:induction false} OutputIsListings(args: seq<string>, env: Env)
    requires ScanArgs(args, env).status == 0
    ensures ScanArgs(args, env).stdout == Concat(AllPrinted(args, env))
    ensures |ScanArgs(args, env).stdinReads| == Dashes(args)
    ensures ScanArgs(args, env).stderr == []
  {
    if args != [] {
      var n := |args| - 1;
      var init, a := args[..n], args[n];
      var mid := ScanArgs(init, env);
      assert args == init + [a];
      ScanArgsSnoc(init, a, env);
      assert mid.status == 0;
      OutputIsListings(init, env);
      FlagsFromTokens(init, env);
      ScanArgGoesOn(mid, a, env);
      AllPrintedSnoc(init, a, env);
    }
  }

  /**
   * The first argument that is neither `-`, a flag nor an existing path
   * ends the run: status 1, the message `cat: <arg>: No such file or
   * directory` on standard error, the flags of the arguments before it,
   * and nothing after it is processed.
   */
  lemma {:induction false} FirstMissingStops(args: seq<string>, i: nat, env: Env)
    requires i < |args|
    requires forall j :: 0 <= j < i ==> args[j] == "-" || IsFlag(args[j]) || IsFileArg(args[j], env)
    requires Dashes(args[..i]) <= env.stdinMarks
    requires args[i] != "-" && !IsFlag(args[i]) && args[i] !in env.files
    ensures Run(args, env) == Run(args[..i + 1], env)
    ensures Run(args, env).status == 1
    ensures Run(args, env).opts == OptionsOf(args[..i])
    ensures Run(args, env).stderr == NotFound(args[i])
  {
    var pre, stop := args[..i], args[..i + 1];
    GoesOn(args, i, env);
    MissingStops(pre, args[i], env);
    assert pre + [args[i]] == stop;
    ScanEnds(args, i + 1, env);
  }

  /** A missing path after a going run stops it with its one message. */
  lemma {:induction false} MissingStops(pre: seq<string>, a: string, env: Env)
    requires ScanArgs(pre, env).status == 0
    requires a != "-" && !IsFlag(a) && a !in env.files
    ensures ScanArgs(pre + [a], env).status == 1
    ensures ScanArgs(pre + [a], env).opts == OptionsOf(pre)
    ensures ScanArgs(pre + [a], env).stderr == NotFound(a)
  {
    var st := ScanArgs(pre, env);
    FlagsFromTokens(pre, env);
    OutputIsListings(pre, env);
    ScanArgPath(st, a, env);
    ScanArgsSnoc(pre, a, env);
  }

  /**
   * A prefix made of `-`, flags and files leaves the run going, provided
   * every one of its sessions on standard input ends at a U+0004 line.
   */
  lemma {:induction false} GoesOn(args: seq<string>, i: nat, env: Env)
    requires i <= |args|
    requires forall j :: 0 <= j < i ==> args[j] == "-" || IsFlag(args[j]) || IsFileArg(args[j], env)
    requires Dashes(args[..i]) <= env.stdinMarks
    ensures ScanArgs(args[..i], env).status == 0
  {
    if i > 0 {
      var pre := args[..i - 1];
      assert args[..i][..i - 1] == pre;
      assert pre + [args[i - 1]] == args[..i];
      GoesOn(args, i - 1, env);
      ScanArgsSnoc(pre, args[i - 1], env);
    }
  }

  /**
   * The first `-` whose session finds no U+0004 line left in standard input
   * ends the run: `input()` raises `EOFError`, nothing catches it, the
   * status is 1 and nothing after that argument is processed.
   */
  lemma {:induction false} EndOfInputStops(args: seq<string>, i: nat, env: Env)
    requires i < |args| && args[i] == "-"
    requires forall j :: 0 <= j < i ==> args[j] == "-" || IsFlag(args[j]) || IsFileArg(args[j], env)
    requires Dashes(args[..i]) == env.stdinMarks
    ensures Run(args, env) == Run(args[..i + 1], env)
    ensures Run(args, env).status == 1
    ensures Run(args, env).opts == OptionsOf(args[..i])
    ensures |Run(args, env).stdinReads| == env.stdinMarks + 1
    ensures Run(args, env).stderr == []
  {
    var pre, stop := args[..i], args[..i + 1];
    GoesOn(args, i, env);
    InputEnds(pre, env);
    assert pre + [args[i]] == stop;
    ScanEnds(args, i + 1, env);
  }

  /** A `-` after as many sessions as there are U+0004 lines stops a going run. */
  lemma {:induction false} InputEnds(pre: seq<string>, env: Env)
    requires ScanArgs(pre, env).status == 0 && Dashes(pre) == env.stdinMarks
    ensures ScanArgs(pre + ["-"], env).status == 1
    ensures ScanArgs(pre + ["-"], env).opts == OptionsOf(pre)
    ensures |ScanArgs(pre + ["-"], env).stdinReads| == env.stdinMarks + 1
    ensures ScanArgs(pre + ["-"], env).stderr == []
  {
    FlagsFromTokens(pre, env);
    ScanArgsSnoc(pre, "-", env);
    ScanArgDash(ScanArgs(pre, env), env);
  }

  /** A non-empty argument list of flags only writes nothing and reads nothing. */
  lemma {:induction false} FlagsOnlyWriteNothing(args: seq<string>, env: Env)
    requires |args| > 0
    requires forall j :: 0 <= j < |args| ==> IsFlag(args[j])
    ensures Run(args, env) == Start.(opts := OptionsOf(args))
  {
    assert args[..|args|] == args;
    NoDashes(args);
    GoesOn(args, |args|, env);
    FlagsFromTokens(args, env);
    OutputIsListings(args, env);
    NoOutput(AllPrinted(args, env));
  }

  lemma {:induction false} NoOutput(ss: seq<seq<char>>)
    requires forall i :: 0 <= i < |ss| ==> ss[i] == []
    ensures Concat(ss) == []
  {
    if ss != [] {
      NoOutput(ss[..|ss| - 1]);
    }
  }

  lemma {:induction false} NoDashes(args: seq<string>)
    requires forall j :: 0 <= j < |args| ==> args[j] != "-"
    ensures Dashes(args) == 0
  {
    if args != [] {
      NoDashes(args[..|args| - 1]);
    }
  }

  /**
   * A flag given after the files changes nothing that was written: flags
   * and files are handled in the order given, not parsed first.
   */
  lemma {:induction false} FlagAfterFilesHasNoEffectOnThem(args: seq<string>, a: string, env: Env)
    requires |args| > 0 && IsFlag(a)
    ensures Run(args + [a], env).stdout == Run(args, env).stdout
    ensures Run(args + [a], env).status == Run(args, env).status
  {
    ScanArgsSnoc(args, a, env);
  }

  /**
   * `cat -n p q` numbers each file from 1: the output is the listing of
   * `p` followed by the listing of `q`, each with its own counter.
   */
  lemma {:induction false} NumberingRestartsPerFile(p: string, q: string, env: Env)
    requires IsFileArg(p, env) && IsFileArg(q, env) && |env.files[q].lines| > 0
    ensures var o := Defaults.(countLine := true);
      Run(["-n", p, q], env).stdout == Format(env.files[p].lines, o).text + Format(env.files[q].lines, o).text
      && Format(env.files[q].lines, o).text[..3] == "1  "
  {
    var o := Defaults.(countLine := true);
    var args := ["-n", p, q];
    assert args[..1] == ["-n"] && args[..2] == ["-n", p];
    assert ScanArgs(["-n"], env) == Start.(opts := o);
    assert ScanArgs(["-n", p], env) == Start.(opts := o, stdout := Format(env.files[p].lines, o).text);
    NumberedLines(env.files[q].lines, o);
    FirstLineNumbered(env.files[q].lines, o);
  }

  lemma {:induction false} FirstLineNumbered(lines: seq<seq<char>>, o: Options)
    requires o.countLine && !o.countLineSkipEmpty && |lines| > 0
    ensures |Format(lines, o).text| >= 3 && Format(lines, o).text[..3] == "1  "
  {
    FormatFirst(lines, o);
    PieceCounted(0, lines[0], o);
    var first := NumberPrefix(1) + Shown(lines[0], o);
    assert Decimal(1) == "1";
    assert first[..3] == "1  ";
    assert Format(lines, o).text == first + Concat(Pieces(lines, o)[1..]);
  }
}
