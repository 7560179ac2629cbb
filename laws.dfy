/**
 * Properties of the display transitions that relate several presses, or
 * that restate a transition against the meaning of `/(\d+\.?\d*)$/`.
 */
module TransitionLaws {
  import opened Wrappers
  import opened Numerals
  import opened Transitions

  /** A string ending in a dot right after a digit has a run, and the run holds that dot. */
  lemma DotAfterDigitIsDottedRun(t: string)
    requires |t| >= 2 && t[|t| - 1] == '.' && IsDigit(t[|t| - 2])
    ensures RunHasDot(t)
  {
    assert TrailingDigits(t) == 0;
    assert t[..|t| - 1][|t| - 2] == t[|t| - 2];
    var j := RunStart(t).value;
    assert t[j..][|t| - 1 - j] == '.';
  }

  /** After a decimal point press, the number at the end of the display has its point. */
  lemma {:induction false} AppendDotLeavesDottedRun(s: string)
    ensures RunHasDot(AppendDot(s))
  {
    match RunStart(s)
    case None =>
      var t := s + "0.";
      assert t[|t| - 2] == '0';
      DotAfterDigitIsDottedRun(t);
    case Some(i) =>
      if !RunHasDot(s) {
        var t := s + ".";
        assert t[|t| - 2] == s[|s| - 1];
        DotAfterDigitIsDottedRun(t);
      }
  }

  /** Pressing the decimal point twice gives the same display as pressing it once. */
  lemma AppendDotIdempotent(s: string)
    ensures AppendDot(AppendDot(s)) == AppendDot(s)
  {
    AppendDotLeavesDottedRun(s);
  }

  /** The decimal point cases, stated against the leftmost numeral suffix the expression matches. */
  lemma AppendDotByMatch(s: string, i: nat)
    requires IsLeftmostNumeral(s, i)
    ensures '.' in s[i..] ==> AppendDot(s) == s
    ensures '.' !in s[i..] ==> AppendDot(s) == s + "."
  {
    LeftmostNumeralIsRunStart(s, i);
  }

  /** With no numeral at the end, a decimal point press starts the number `"0."`. */
  lemma AppendDotWithoutMatch(s: string)
    requires NoNumeralSuffix(s)
    ensures AppendDot(s) == s + "0."
  {
    RunStartIsLeftmostMatch(s);
  }

  /** Percent splices the converted leftmost numeral suffix after the untouched prefix. */
  lemma PercentByMatch(s: string, i: nat, percentText: string -> string)
    requires IsLeftmostNumeral(s, i)
    ensures Percent(s, percentText) == s[..i] + percentText(s[i..])
  {
    LeftmostNumeralIsRunStart(s, i);
  }

  /** With no numeral at the end, percent changes nothing. */
  lemma PercentWithoutMatch(s: string, percentText: string -> string)
    requires NoNumeralSuffix(s)
    ensures Percent(s, percentText) == s
  {
    RunStartIsLeftmostMatch(s);
  }

  /** Two operator presses on a non-empty display leave only the second operator. */
  lemma OperatorCollapses(s: string, first: string, second: string)
    requires s != "" && IsOperator(first) && IsOperator(second)
    ensures AppendOperator(AppendOperator(s, first), second) == AppendOperator(s, second)
  {
    var t := AppendOperator(s, first);
    assert EndsWithOperator(t);
    if EndsWithOperator(s) {
      assert t[..|t| - 1] == s[..|s| - 1];
    } else {
      assert t[..|t| - 1] == s;
    }
  }

  /** Delete undoes a digit press, except the one that replaced a lone `"0"`. */
  lemma DeleteUndoesDigit(s: string, d: char)
    requires IsDigit(d) && s != "0"
    ensures DeleteLast(AppendDigit(s, [d])) == s
  {
    assert (s + [d])[..|s|] == s;
  }

  /** Delete undoes an operator press that appended. */
  lemma DeleteUndoesOperator(s: string, op: string)
    requires IsOperator(op) && s != "" && !EndsWithOperator(s)
    ensures DeleteLast(AppendOperator(s, op)) == s
  {
    assert (s + op)[..|s|] == s;
  }

  /** Operator presses: collapsing, and the unary minus on the empty display. */
  lemma OperatorExamples()
    ensures AppendOperator("12+", "-") == "12-"
    ensures AppendOperator("", "-") == "-"
    ensures AppendOperator("", "X") == ""
  {
    assert "12+"[..2] + "-" == "12-";
  }

  /**
   * Only the unary minus is kept on the empty display, but a second operator
   * then replaces it, so the display can start with any operator.
   */
  lemma OperatorAfterLeadingMinus(op: string)
    requires IsOperator(op)
    ensures AppendOperator(AppendOperator("", "-"), op) == op
    ensures AppendOperator(AppendOperator("", "-"), "X") == "X"
  {
    assert "-"[..0] + op == op;
  }

  /** Percent on `"200+50"` converts only the `"50"`. */
  lemma PercentExample(percentText: string -> string)
    ensures Percent("200+50", percentText) == "200+" + percentText("50")
  {
    var s := "200+50";
    assert s[..5][..4] == "200+";
    assert TrailingDigits(s[..4]) == 0;
    assert TrailingDigits(s[..5]) == 1;
    assert TrailingDigits(s) == 2;
    assert RunStart(s) == Some(4);
    assert s[..4] == "200+" && s[4..] == "50";
  }

  /** Answer's preparation: glyphs normalised and a dangling operator dropped. */
  lemma PrepareExamples()
    ensures PrepareExpression("2+3X4") == Some("2+3*4")
    ensures PrepareExpression("3+") == Some("3")
  {
    var s := "2+3X4";
    var n := Normalize(s);
    assert n[0] == '2' && n[1] == '+' && n[2] == '3' && n[3] == '*' && n[4] == '4';
    assert n == "2+3*4";
    assert !EndsWithOperator(s);
    var t := "3+";
    var m := Normalize(t);
    assert m[0] == '3' && m[1] == '+';
    assert EndsWithOperator(t);
    assert m[..1] == "3";
  }

  /** Delete drops the last character and leaves the empty display alone. */
  lemma DeleteExamples()
    ensures DeleteLast("12+3") == "12+"
    ensures DeleteLast("") == ""
  {
  }

  /** A point after digits, no second point, and `"0."` after an operator. */
  lemma DotExamples()
    ensures AppendDot("12") == "12."
    ensures AppendDot("1.5") == "1.5"
    ensures AppendDot("7-") == "7-0."
  {
    assert RunStart("12") == Some(0);
    var d := "1.5";
    assert d[..2][..1] == "1" && TrailingDigits(d[..2]) == 0 && TrailingDigits(d) == 1;
    assert RunStart(d) == Some(0) && d[0..][1] == '.';
    assert TrailingDigits("7-") == 0;
    assert RunStart("7-") == None;
  }
}
