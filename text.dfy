/**
 * Character classes and small text utilities used by the `cat` command:
 * Python's `string.printable` and `str.isspace`, the caret rewrite
 * `chr(ord(c) ^ 0x40)`, the decimal rendering of a line counter (`f'{cnt}'`),
 * and the concatenation of a sequence of text pieces.
 */
module Text {

  /** Membership in Python's `string.printable`: 0x20..0x7E and the whitespace 0x09..0x0D. */
  predicate IsPrintable(c: char) {
    (' ' <= c <= '~') || ('\t' <= c <= '\r')
  }

  /** Python's `str.isspace`, the characters `str.strip()` removes. */
  predicate IsSpace(c: char) {
    var n := c as int;
    (0x09 <= n <= 0x0D) || (0x1C <= n <= 0x20) || n == 0x85 || n == 0xA0
    || n == 0x1680 || (0x2000 <= n <= 0x200A) || n == 0x2028 || n == 0x2029
    || n == 0x202F || n == 0x205F || n == 0x3000
  }

  // Python's own constants, written out as the `string` module and
  // `str.isspace` define them, and the proof that the predicates above
  // accept exactly their characters.

  /** `string.digits`, `string.ascii_lowercase`, `string.ascii_uppercase`, `string.punctuation`, `string.whitespace`. */
  const Digits := "0123456789"
  const AsciiLowercase := "abcdefghijklmnopqrstuvwxyz"
  const AsciiUppercase := "ABCDEFGHIJKLMNOPQRSTUVWXYZ"
  const Punctuation := "!\"#$%&'()*+,-./:;<=>?@[\\]^_`{|}~"
  const Whitespace := " \t\n\r\U{B}\U{C}"

  /** `string.printable`: digits, letters, punctuation and whitespace, in that order. */
  const PythonPrintable := Digits + AsciiLowercase + AsciiUppercase + Punctuation + Whitespace

  /** The characters for which `str.isspace()` is true. */
  const PythonSpaces :=
    "\t\n\U{B}\U{C}\r\U{1C}\U{1D}\U{1E}\U{1F} \U{85}\U{A0}\U{1680}"
    + "\U{2000}\U{2001}\U{2002}\U{2003}\U{2004}\U{2005}\U{2006}\U{2007}\U{2008}\U{2009}\U{200A}"
    + "\U{2028}\U{2029}\U{202F}\U{205F}\U{3000}"

  /** The characters from `lo` to `hi`, in order. */
  function CharRun(lo: char, hi: char): (s: string)
    requires lo <= hi && hi as int < 0xD800
    ensures |s| == hi as int - lo as int + 1
    ensures forall i :: 0 <= i < |s| ==> s[i] as int == lo as int + i
  {
    seq(hi as int - lo as int + 1, i requires 0 <= i < hi as int - lo as int + 1 => (lo as int + i) as char)
  }

  lemma {:induction false} InCharRun(c: char, lo: char, hi: char)
    requires lo <= hi && hi as int < 0xD800
    ensures c in CharRun(lo, hi) <==> lo <= c <= hi
  {
    if lo <= c <= hi {
      assert CharRun(lo, hi)[c as int - lo as int] == c;
    }
  }

  // Each of Python's alphabets is a run of consecutive code points (proof helpers).
  lemma {:induction false} DigitsRun() ensures Digits == CharRun('0', '9') {}
  lemma {:induction false} LowercaseRun() ensures AsciiLowercase == CharRun('a', 'z') {}
  lemma {:induction false} UppercaseRun() ensures AsciiUppercase == CharRun('A', 'Z') {}
  lemma {:induction false} PunctuationRuns()
    ensures Punctuation == CharRun('!', '/') + CharRun(':', '@') + CharRun('[', '`') + CharRun('{', '~')
  {}

  /** `IsPrintable` accepts exactly the characters of `string.printable`. */
  lemma {:induction false} PrintableIsPythonConstant(c: char)
    ensures IsPrintable(c) <==> c in PythonPrintable
  {
    DigitsRun();
    LowercaseRun();
    UppercaseRun();
    PunctuationRuns();
    InCharRun(c, '0', '9');
    InCharRun(c, 'a', 'z');
    InCharRun(c, 'A', 'Z');
    InCharRun(c, '!', '/');
    InCharRun(c, ':', '@');
    InCharRun(c, '[', '`');
    InCharRun(c, '{', '~');
  }

  /** `IsSpace` accepts exactly the characters for which `str.isspace()` is true. */
  lemma {:induction false} SpaceIsPythonSpace(c: char)
    ensures IsSpace(c) <==> c in PythonSpaces
  {
    var wide := "\U{2000}\U{2001}\U{2002}\U{2003}\U{2004}\U{2005}\U{2006}\U{2007}\U{2008}\U{2009}\U{200A}";
    assert wide == CharRun('\U{2000}', '\U{200A}');
    InCharRun(c, '\U{2000}', '\U{200A}');
  }

  /**
   * `n ^ 0x40` for a non-negative `n`: bit 6 flipped. Whole blocks of 128
   * are set aside first, since they leave bit 6 alone; within a block, 64 is
   * added to the lower half and taken from the upper half.
   */
  function FlipBit6(n: nat): (r: nat)
    ensures r == n + 64 || r == n - 64
  {
    if n >= 128 then FlipBit6(n - 128) + 128
    else if n < 64 then n + 64
    else n - 64
  }

  /** Flipping bit 6 keeps the bits above it and the bits below it, and changes bit 6. */
  lemma {:induction false} FlipBit6Bits(n: nat)
    ensures FlipBit6(n) / 128 == n / 128 && FlipBit6(n) % 64 == n % 64
    ensures (FlipBit6(n) / 64) % 2 != (n / 64) % 2
  {
    if n >= 128 {
      FlipBit6Bits(n - 128);
      var r := FlipBit6(n - 128);
      assert FlipBit6(n) == r + 128;
      assert (r + 128) / 128 == r / 128 + 1 && (r + 128) % 64 == r % 64;
      assert (r + 128) / 64 == r / 64 + 2;
      assert n / 128 == (n - 128) / 128 + 1 && n % 64 == (n - 128) % 64;
      assert n / 64 == (n - 128) / 64 + 2;
    }
  }

  /** Flipping bit 6 twice gives the number back. */
  lemma {:induction false} FlipBit6Involutive(n: nat)
    ensures FlipBit6(FlipBit6(n)) == n
  {
    if n >= 128 {
      FlipBit6Involutive(n - 128);
      var r := FlipBit6(n - 128);
      assert FlipBit6(n) == r + 128;
      assert FlipBit6(r + 128) == FlipBit6(r) + 128;
    }
  }

  /**
   * `chr(ord(c) ^ 0x40)`. Flipping bit 6 keeps a code point inside its
   * 128-aligned block, so a Unicode scalar value stays one (the surrogate
   * range 0xD800..0xDFFF and the limit 0x110000 are block boundaries).
   */
  function Caret(c: char): (r: char)
    ensures r != c
    ensures r as int == FlipBit6(c as int)
  {
    var n := c as int;
    FlipBit6Bits(n);
    var r := FlipBit6(n);
    assert n < 0xD800 ==> r < 0xD800 by {
      if n < 0xD800 { assert n / 128 < 0x1B0; }
    }
    assert 0xE000 <= n ==> 0xE000 <= r by {
      if 0xE000 <= n { assert n / 128 >= 0x1C0; }
    }
    assert n < 0x11_0000 ==> r < 0x11_0000 by {
      if n < 0x11_0000 { assert n / 128 < 0x2200; }
    }
    r as char
  }

  /** The rewrite stays in the 128-character block of `c`. */
  lemma {:induction false} CaretSameBlock(c: char)
    ensures (Caret(c) as int) / 128 == (c as int) / 128
  {
    FlipBit6Bits(c as int);
  }

  /** The caret rewrite undoes itself. */
  lemma {:induction false} CaretInvolutive(c: char)
    ensures Caret(Caret(c)) == c
  {
    FlipBit6Involutive(c as int);
  }

  /**
   * The rewrite of an ASCII control character (and of DEL) is printable
   * and is neither a tab nor a newline: 0x00..0x1F go to '@'..'_', 0x7F to '?'.
   */
  lemma {:induction false} CaretOfControl(c: char)
    requires c < ' ' || c == '\U{7F}'
    ensures '@' <= Caret(c) <= '_' || Caret(c) == '?'
    ensures IsPrintable(Caret(c)) && Caret(c) != '\t' && Caret(c) != '\n'
  {
    var n := c as int;
    if n < 32 {
      assert n / 64 == 0;
    } else {
      assert n / 64 == 1;
    }
  }

  predicate IsDigit(c: char) {
    '0' <= c <= '9'
  }

  function DigitChar(d: nat): (c: char)
    requires d < 10
    ensures IsDigit(c) && c as int - '0' as int == d
  {
    ('0' as int + d) as char
  }

  /** Python's `str(n)` for a natural number: decimal digits, most significant first. */
  function Decimal(n: nat): (s: seq<char>)
    ensures |s| > 0
    ensures forall i :: 0 <= i < |s| ==> IsDigit(s[i])
    ensures n > 0 ==> s[0] != '0'
    ensures n < 10 <==> |s| == 1
  {
    if n < 10 then [DigitChar(n)] else Decimal(n / 10) + [DigitChar(n % 10)]
  }

  /** The value of a string of decimal digits (a reference reading of `Decimal`). */
  function DigitsValue(s: seq<char>): nat
    requires forall i :: 0 <= i < |s| ==> IsDigit(s[i])
  {
    if s == [] then 0
    else
      var d := s[|s| - 1] as int - '0' as int;
      assert IsDigit(s[|s| - 1]);
      DigitsValue(s[..|s| - 1]) * 10 + d
  }

  /** Reading back the rendered counter gives the counter. */
  lemma {:induction false} DecimalRoundTrip(n: nat)
    ensures DigitsValue(Decimal(n)) == n
  {
    if n >= 10 {
      DecimalRoundTrip(n / 10);
      var s := Decimal(n);
      assert s[..|s| - 1] == Decimal(n / 10);
    }
  }

  /** Distinct counters render differently. */
  lemma {:induction false} DecimalInjective(m: nat, n: nat)
    requires Decimal(m) == Decimal(n)
    ensures m == n
  {
    DecimalRoundTrip(m);
    DecimalRoundTrip(n);
  }

  /** Appending is associative (proof helper: stating it where needed keeps proofs fast). */
  lemma {:induction false} AppendAssoc(x: seq<char>, y: seq<char>, z: seq<char>)
    ensures (x + y) + z == x + (y + z)
  {
  }

  /** The concatenation of a sequence of pieces, in order. */
  function Concat(ss: seq<seq<char>>): seq<char>
  {
    if ss == [] then [] else Concat(ss[..|ss| - 1]) + ss[|ss| - 1]
  }

  lemma {:induction false} ConcatAppend(a: seq<seq<char>>, b: seq<seq<char>>)
    ensures Concat(a + b) == Concat(a) + Concat(b)
  {
    if b != [] {
      ConcatAppend(a, b[..|b| - 1]);
      assert (a + b)[..|a + b| - 1] == a + b[..|b| - 1];
    } else {
      assert a + b == a;
    }
  }

  /** A concatenation starts with its first piece. */
  lemma {:induction false} ConcatFront(ss: seq<seq<char>>)
    requires |ss| > 0
    ensures Concat(ss) == ss[0] + Concat(ss[1..])
  {
    var n := |ss|;
    if n == 1 {
      assert ss[..0] == [] && ss[1..] == [];
    } else {
      var init, rest := ss[..n - 1], ss[1..];
      ConcatFront(init);
      assert init[1..] == rest[..|rest| - 1];
      assert rest[|rest| - 1] == ss[n - 1];
    }
  }

  /** The number of occurrences of `x` in `s`. */
  function Occurrences(x: char, s: seq<char>): nat
  {
    if s == [] then 0
    else Occurrences(x, s[..|s| - 1]) + (if s[|s| - 1] == x then 1 else 0)
  }

  lemma {:induction false} OccurrencesAppend(x: char, a: seq<char>, b: seq<char>)
    ensures Occurrences(x, a + b) == Occurrences(x, a) + Occurrences(x, b)
  {
    if b != [] {
      OccurrencesAppend(x, a, b[..|b| - 1]);
      assert (a + b)[..|a + b| - 1] == a + b[..|b| - 1];
    } else {
      assert a + b == a;
    }
  }

  lemma {:induction false} OccurrencesAbsent(x: char, s: seq<char>)
    ensures Occurrences(x, s) == 0 <==> x !in s
  {
    if s != [] {
      OccurrencesAbsent(x, s[..|s| - 1]);
      assert s == s[..|s| - 1] + [s[|s| - 1]];
    }
  }
}
