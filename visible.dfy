/**
 * The visibility transform of `cat` (`Main.make_visible`): with `-T` a tab
 * is written as `^I`; with `-v` every character outside Python's
 * `string.printable` is written as `^` followed by its caret rewrite
 * `chr(ord(c) ^ 0x40)`. There is no `M-` notation: code points from 0x80 up
 * are rewritten by the same XOR.
 */
module Visibility {
  import opened Text

  /** Whether the transform rewrites `c` into two characters. */
  predicate Rewritten(c: char, showTabs: bool, showNonprint: bool) {
    (c == '\t' && showTabs) || (!IsPrintable(c) && showNonprint)
  }

  /** The output for one character; the tab test comes first, as in the source. */
  function VisibleChar(c: char, showTabs: bool, showNonprint: bool): (r: seq<char>)
    ensures |r| == if Rewritten(c, showTabs, showNonprint) then 2 else 1
    ensures Rewritten(c, showTabs, showNonprint) ==> r[0] == '^'
    ensures !Rewritten(c, showTabs, showNonprint) ==> r == [c]
  {
    if c == '\t' && showTabs then "^I"
    else if !IsPrintable(c) && showNonprint then ['^', Caret(c)]
    else [c]
  }

  /** The whole transform: each character's output, in input order. */
  function Visible(text: seq<char>, showTabs: bool, showNonprint: bool): (r: seq<char>)
    ensures |text| <= |r| <= 2 * |text|
  {
    if text == [] then []
    else Visible(text[..|text| - 1], showTabs, showNonprint)
         + VisibleChar(text[|text| - 1], showTabs, showNonprint)
  }

  /** Appending a character appends its output. */
  lemma {:induction false} VisibleSnoc(text: seq<char>, c: char, showTabs: bool, showNonprint: bool)
    ensures Visible(text + [c], showTabs, showNonprint)
         == Visible(text, showTabs, showNonprint) + VisibleChar(c, showTabs, showNonprint)
  {
    assert (text + [c])[..|text|] == text;
  }

  /** The transform works character by character, so it distributes over concatenation. */
  lemma {:induction false} VisibleAppend(a: seq<char>, b: seq<char>, showTabs: bool, showNonprint: bool)
    ensures Visible(a + b, showTabs, showNonprint)
         == Visible(a, showTabs, showNonprint) + Visible(b, showTabs, showNonprint)
  {
    if b == [] {
      assert a + b == a;
    } else {
      var init, c := b[..|b| - 1], b[|b| - 1];
      assert b == init + [c];
      VisibleAppend(a, init, showTabs, showNonprint);
      VisibleAppendStep(a, init, c, showTabs, showNonprint);
    }
  }

  /** The inductive step of `VisibleAppend`: one more character at the end of the second part. */
  lemma {:induction false} VisibleAppendStep(a: seq<char>, init: seq<char>, c: char, showTabs: bool, showNonprint: bool)
    requires Visible(a + init, showTabs, showNonprint)
          == Visible(a, showTabs, showNonprint) + Visible(init, showTabs, showNonprint)
    ensures Visible(a + (init + [c]), showTabs, showNonprint)
         == Visible(a, showTabs, showNonprint) + Visible(init + [c], showTabs, showNonprint)
  {
    assert a + (init + [c]) == (a + init) + [c];
    VisibleSnoc(a + init, c, showTabs, showNonprint);
    VisibleSnoc(init, c, showTabs, showNonprint);
    AppendAssoc(Visible(a, showTabs, showNonprint), Visible(init, showTabs, showNonprint),
      VisibleChar(c, showTabs, showNonprint));
  }

  /** The output of each character of `text`, position by position. */
  function CharOutputs(text: seq<char>, showTabs: bool, showNonprint: bool): (ps: seq<seq<char>>)
    ensures |ps| == |text|
    ensures forall i :: 0 <= i < |text| ==> ps[i] == VisibleChar(text[i], showTabs, showNonprint)
  {
    seq(|text|, i requires 0 <= i < |text| => VisibleChar(text[i], showTabs, showNonprint))
  }

  /**
   * The output is the outputs of the input characters, in input order:
   * character `i` alone decides piece `i`.
   */
  lemma {:induction false} VisibleIsCharOutputs(text: seq<char>, showTabs: bool, showNonprint: bool)
    ensures Visible(text, showTabs, showNonprint) == Concat(CharOutputs(text, showTabs, showNonprint))
  {
    if text != [] {
      var n := |text| - 1;
      var init := text[..n];
      VisibleIsCharOutputs(init, showTabs, showNonprint);
      var ps := CharOutputs(text, showTabs, showNonprint);
      assert ps[..n] == CharOutputs(init, showTabs, showNonprint);
    }
  }

  /** Without `-T` and `-v` the transform is the identity. */
  lemma {:induction false} VisibleIdentity(text: seq<char>)
    ensures Visible(text, false, false) == text
  {
    if text != [] {
      VisibleIdentity(text[..|text| - 1]);
      assert text == text[..|text| - 1] + [text[|text| - 1]];
    }
  }

  /**
   * Each character becomes one or two characters (the bounds are the
   * contract of `Visible`), so the output is exactly as long as the input
   * precisely when no character was rewritten.
   */
  lemma {:induction false} VisibleLength(text: seq<char>, showTabs: bool, showNonprint: bool)
    ensures |Visible(text, showTabs, showNonprint)| == |text|
        <==> forall i :: 0 <= i < |text| ==> !Rewritten(text[i], showTabs, showNonprint)
  {
    if text != [] {
      var init := text[..|text| - 1];
      VisibleLength(init, showTabs, showNonprint);
      if |Visible(text, showTabs, showNonprint)| == |text| {
        assert !Rewritten(text[|text| - 1], showTabs, showNonprint);
        forall i | 0 <= i < |text| ensures !Rewritten(text[i], showTabs, showNonprint) {
          if i < |text| - 1 { assert text[i] == init[i]; }
        }
      } else {
        assert exists i :: 0 <= i < |text| && Rewritten(text[i], showTabs, showNonprint) by {
          if !Rewritten(text[|text| - 1], showTabs, showNonprint) {
            var j :| 0 <= j < |init| && Rewritten(init[j], showTabs, showNonprint);
            assert text[j] == init[j];
          }
        }
      }
    }
  }

  /** Text made only of unrewritten characters comes out unchanged. */
  lemma {:induction false} VisibleUnchanged(text: seq<char>, showTabs: bool, showNonprint: bool)
    requires forall i :: 0 <= i < |text| ==> !Rewritten(text[i], showTabs, showNonprint)
    ensures Visible(text, showTabs, showNonprint) == text
  {
    if text != [] {
      VisibleUnchanged(text[..|text| - 1], showTabs, showNonprint);
      assert text == text[..|text| - 1] + [text[|text| - 1]];
    }
  }

  /**
   * With `-v` alone the text comes out unchanged exactly when every
   * character is in `string.printable`; in particular tab, `\r`, `\x0b`
   * and `\x0c` pass through, since they are printable.
   */
  lemma {:induction false} NonprintOnlyUnchangedIff(text: seq<char>)
    ensures Visible(text, false, true) == text
        <==> forall i :: 0 <= i < |text| ==> IsPrintable(text[i])
  {
    VisibleLength(text, false, true);
    if forall i :: 0 <= i < |text| ==> IsPrintable(text[i]) {
      VisibleUnchanged(text, false, true);
    }
  }

  /** With `-T` no tab is left in the output. */
  lemma {:induction false} NoTabWithShowTabs(text: seq<char>, showNonprint: bool)
    ensures '\t' !in Visible(text, true, showNonprint)
  {
    if text != [] {
      NoTabWithShowTabs(text[..|text| - 1], showNonprint);
      var c := text[|text| - 1];
      if !IsPrintable(c) && c != '\t' && showNonprint {
        CaretInvolutive(c);
        assert Caret('\t') == 'I';
      }
    }
  }

  /**
   * The transform never introduces a newline: a newline in the output
   * comes from a newline in the input (the only character whose caret
   * rewrite is a newline is 'J', which is printable).
   */
  lemma {:induction false} NoNewlineIntroduced(text: seq<char>, showTabs: bool, showNonprint: bool)
    requires '\n' !in text
    ensures '\n' !in Visible(text, showTabs, showNonprint)
  {
    if text != [] {
      var init, c := text[..|text| - 1], text[|text| - 1];
      assert forall j :: 0 <= j < |init| ==> init[j] == text[j];
      NoNewlineIntroduced(init, showTabs, showNonprint);
      if !IsPrintable(c) && showNonprint {
        CaretInvolutive(c);
        assert Caret('\n') == 'J';
      }
    }
  }

  /**
   * On ASCII text, `-A` (both `-T` and `-v`) produces only characters of
   * `string.printable` and no tab.
   */
  lemma {:induction false} ShowAllAsciiPrintable(text: seq<char>)
    requires forall i :: 0 <= i < |text| ==> text[i] < '\U{80}'
    ensures forall i :: 0 <= i < |Visible(text, true, true)| ==>
      IsPrintable(Visible(text, true, true)[i]) && Visible(text, true, true)[i] != '\t'
  {
    if text != [] {
      ShowAllAsciiPrintable(text[..|text| - 1]);
      var c := text[|text| - 1];
      if !IsPrintable(c) && c != '\t' {
        CaretOfControl(c);
      }
    }
  }

  /**
   * Beyond ASCII there is no `M-` notation: with `-v` a character from
   * U+0080 up is written as `^` followed by its caret rewrite, which is
   * again at least U+0080 and so still outside `string.printable`.
   */
  lemma {:induction false} NonAsciiStaysNonPrintable(c: char, showTabs: bool)
    requires c >= '\U{80}'
    ensures VisibleChar(c, showTabs, true) == ['^', Caret(c)]
    ensures Caret(c) >= '\U{80}' && !IsPrintable(Caret(c))
  {
    CaretSameBlock(c);
  }

  /** For example 'é' (U+00E9) becomes '^' followed by '©' (U+00A9). */
  lemma {:induction false} AccentedExample()
    ensures Visible("\U{E9}", false, true) == "^\U{A9}"
    ensures !IsPrintable('\U{A9}')
  {
    assert FlipBit6(0xE9) == 0xA9 by {
      assert 0xE9 / 64 == 3;
    }
    assert "\U{E9}"[..0] == [];
  }
}
