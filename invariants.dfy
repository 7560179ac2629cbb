/**
 * Invariants of the display string: never two operator glyphs side by side,
 * and at most one decimal point in each number, which always follows a digit.
 */
module DisplayInvariants {
  import opened Wrappers
  import opened Numerals
  import opened Transitions

  predicate NoAdjacentOperators(s: string) {
    forall x :: 0 <= x < |s| - 1 ==> !(IsOperatorChar(s[x]) && IsOperatorChar(s[x + 1]))
  }

  /**
   * A point may follow `t` when `t` ends in a non-empty digit block that is
   * not itself preceded by a point.
   */
  predicate DotMayFollow(t: string) {
    var k := TrailingDigits(t);
    k > 0 && (k == |t| || t[|t| - k - 1] != '.')
  }

  /** Every point in `s` is placed as `DotMayFollow` allows. */
  predicate OneDotPerNumber(s: string) {
    forall x :: 0 <= x < |s| && s[x] == '.' ==> DotMayFollow(s[..x])
  }

  predicate WellFormed(s: string) {
    NoAdjacentOperators(s) && OneDotPerNumber(s)
  }

  /** Text that may be spliced after an operator: well formed and not starting with an operator. */
  predicate IsNumberText(t: string) {
    WellFormed(t) && !(|t| > 0 && IsOperatorChar(t[0]))
  }

  /** What `OneDotPerNumber` means: two points always have a non-digit between them. */
  lemma PointsAreSeparated(s: string, q1: nat, q2: nat)
    requires OneDotPerNumber(s)
    requires q1 < q2 < |s| && s[q1] == '.' && s[q2] == '.'
    ensures exists x :: q1 < x < q2 && !IsDigit(s[x])
  {
    var t := s[..q2];
    var k := TrailingDigits(t);
    assert DotMayFollow(t);
    assert t[q1] == '.' && !IsDigit(t[q1]);
    var w := |t| - k - 1;
    assert q1 <= w && t[w] != '.';
    assert !IsDigit(s[w]) && q1 < w;
  }

  lemma PointFollowsDigit(s: string, q: nat)
    requires OneDotPerNumber(s)
    requires q < |s| && s[q] == '.'
    ensures q > 0 && IsDigit(s[q - 1])
  {
    assert DotMayFollow(s[..q]);
    assert s[..q][q - 1] == s[q - 1];
  }

  // ---- building blocks ----

  lemma NoAdjacentOperatorsPrefix(s: string, n: nat)
    requires NoAdjacentOperators(s) && n <= |s|
    ensures NoAdjacentOperators(s[..n])
  {
    assert forall x :: 0 <= x < n ==> s[..n][x] == s[x];
  }

  lemma OneDotPerNumberPrefix(s: string, n: nat)
    requires OneDotPerNumber(s) && n <= |s|
    ensures OneDotPerNumber(s[..n])
  {
    forall x | 0 <= x < n && s[..n][x] == '.' ensures DotMayFollow(s[..n][..x]) {
      assert s[..n][..x] == s[..x];
    }
  }

  lemma WellFormedPrefix(s: string, n: nat)
    requires WellFormed(s) && n <= |s|
    ensures WellFormed(s[..n])
  {
    NoAdjacentOperatorsPrefix(s, n);
    OneDotPerNumberPrefix(s, n);
  }

  lemma NoAdjacentOperatorsConcat(a: string, u: string)
    requires NoAdjacentOperators(a) && NoAdjacentOperators(u)
    requires !(EndsWithOperator(a) && |u| > 0 && IsOperatorChar(u[0]))
    ensures NoAdjacentOperators(a + u)
  {
    var s := a + u;
    forall x | 0 <= x < |s| - 1 ensures !(IsOperatorChar(s[x]) && IsOperatorChar(s[x + 1])) {
      if x + 1 < |a| {
        assert s[x] == a[x] && s[x + 1] == a[x + 1];
      } else if x >= |a| {
        assert s[x] == u[x - |a|] && s[x + 1] == u[x - |a| + 1];
      }
    }
  }

  /** Appending text without points keeps every existing point placed as it was. */
  lemma OneDotPerNumberAppend(s: string, u: string)
    requires OneDotPerNumber(s) && '.' !in u
    ensures OneDotPerNumber(s + u)
  {
    var t := s + u;
    forall x | 0 <= x < |t| && t[x] == '.' ensures DotMayFollow(t[..x]) {
      assert t[..x] == s[..x];
    }
  }

  /** After a non-digit, the digit block at the end does not reach back into `a`. */
  lemma {:induction false} TrailingDigitsAfterSeparator(a: string, u: string)
    requires a == "" || !IsDigit(a[|a| - 1])
    ensures TrailingDigits(a + u) == TrailingDigits(u)
  {
    if u == [] {
      assert a + u == a;
    } else {
      var u' := u[..|u| - 1];
      assert (a + u)[|a + u| - 1] == u[|u| - 1];
      assert (a + u)[..|a + u| - 1] == a + u';
      TrailingDigitsAfterSeparator(a, u');
    }
  }

  /** A point of `u` keeps its place once `u` follows a separator. */
  lemma PointAfterSeparator(a: string, u: string, y: nat)
    requires a == "" || (!IsDigit(a[|a| - 1]) && a[|a| - 1] != '.')
    requires y < |u| && DotMayFollow(u[..y])
    ensures DotMayFollow(a + u[..y])
  {
    var v := u[..y];
    TrailingDigitsAfterSeparator(a, v);
    var k := TrailingDigits(v);
    if k < y {
      assert (a + v)[|a + v| - k - 1] == v[y - k - 1];
    }
  }

  /** Joining two texts at a character that is neither a digit nor a point keeps all points placed. */
  lemma OneDotPerNumberConcat(a: string, u: string)
    requires OneDotPerNumber(a) && OneDotPerNumber(u)
    requires a == "" || (!IsDigit(a[|a| - 1]) && a[|a| - 1] != '.')
    ensures OneDotPerNumber(a + u)
  {
    var t := a + u;
    forall x | 0 <= x < |t| && t[x] == '.' ensures DotMayFollow(t[..x]) {
      if x < |a| {
        assert t[..x] == a[..x];
      } else {
        var y := x - |a|;
        assert t[x] == u[y];
        assert t[..x] == a + u[..y];
        PointAfterSeparator(a, u, y);
      }
    }
  }

  /** The number the expression matches starts the display or follows a separator. */
  lemma RunFollowsSeparator(s: string)
    requires OneDotPerNumber(s)
    requires RunStart(s).Some? && RunStart(s).value > 0
    ensures var i := RunStart(s).value; !IsDigit(s[i - 1]) && s[i - 1] != '.'
  {
    var i := RunStart(s).value;
    var p := |s| - TrailingDigits(s);
    if p > 0 && s[p - 1] == '.' && TrailingDigits(s[..p - 1]) > 0 {
      var t := s[..p - 1];
      assert DotMayFollow(t);
      assert t[i - 1] == s[i - 1];
    }
  }

  // ---- preservation by each transition ----

  lemma AppendDigitKeepsWellFormed(prev: string, d: char)
    requires WellFormed(prev) && IsDigit(d)
    ensures WellFormed(AppendDigit(prev, [d]))
  {
    assert ContainsDigit([d]) by { assert [d][0] == d; }
    if prev != "0" {
      NoAdjacentOperatorsConcat(prev, [d]);
      OneDotPerNumberAppend(prev, [d]);
    }
  }

  /** When the dot before the trailing digits closes a digit block, the run contains it. */
  lemma DottedRunHasDot(s: string)
    ensures var p := |s| - TrailingDigits(s);
      p > 0 && s[p - 1] == '.' && TrailingDigits(s[..p - 1]) > 0 ==> RunHasDot(s)
  {
    var p := |s| - TrailingDigits(s);
    if p > 0 && s[p - 1] == '.' && TrailingDigits(s[..p - 1]) > 0 {
      var i := p - 1 - TrailingDigits(s[..p - 1]);
      assert RunStart(s) == Some(i);
      assert s[i..][p - 1 - i] == '.';
      assert '.' in s[i..];
    }
  }

  /** A run without a point is the trailing digit block, and a point may follow it. */
  lemma OpenRunAcceptsDot(s: string)
    requires OneDotPerNumber(s)
    requires RunStart(s).Some? && !RunHasDot(s)
    ensures DotMayFollow(s)
  {
    var i := RunStart(s).value;
    RunStartIsLeftmostMatch(s);
    assert s[i..][|s| - 1 - i] == s[|s| - 1];
    DottedRunHasDot(s);
  }

  /** With no number at the end, the `"0."` a point press appends starts a well-formed number. */
  lemma StartNumberKeepsOneDot(s: string)
    requires OneDotPerNumber(s) && RunStart(s).None?
    ensures OneDotPerNumber(s + "0.")
  {
    OneDotPerNumberAppend(s, "0");
    var t := s + "0";
    assert s + "0." == t + ".";
    assert t[..|t| - 1] == s;
    assert TrailingDigits(t) == 1;
    assert |s| > 0 ==> t[|s| - 1] == s[|s| - 1];
    DottedRunHasDot(s);
    assert DotMayFollow(t);
    DotAppendKeepsOneDot(t);
  }

  lemma AppendDotKeepsWellFormed(s: string)
    requires WellFormed(s)
    ensures WellFormed(AppendDot(s))
  {
    var r := AppendDot(s);
    assert r == s + r[|s|..];
    NoAdjacentOperatorsConcat(s, r[|s|..]);
    if RunStart(s).None? {
      StartNumberKeepsOneDot(s);
    } else if !RunHasDot(s) {
      OpenRunAcceptsDot(s);
      DotAppendKeepsOneDot(s);
    }
  }

  lemma DotAppendKeepsOneDot(t: string)
    requires OneDotPerNumber(t) && DotMayFollow(t)
    ensures OneDotPerNumber(t + ".")
  {
    var r := t + ".";
    forall x | 0 <= x < |r| && r[x] == '.' ensures DotMayFollow(r[..x]) {
      if x < |t| {
        assert r[..x] == t[..x];
      } else {
        assert r[..x] == t;
      }
    }
  }

  lemma AppendOperatorKeepsWellFormed(prev: string, op: string)
    requires WellFormed(prev) && IsOperator(op)
    ensures WellFormed(AppendOperator(prev, op))
  {
    assert op == [op[0]];
    if prev != "" {
      if EndsWithOperator(prev) {
        var n := |prev| - 1;
        WellFormedPrefix(prev, n);
        assert n > 0 ==> !IsOperatorChar(prev[..n][n - 1]);
        NoAdjacentOperatorsConcat(prev[..n], op);
        OneDotPerNumberAppend(prev[..n], op);
      } else {
        NoAdjacentOperatorsConcat(prev, op);
        OneDotPerNumberAppend(prev, op);
      }
    }
  }

  lemma DeleteLastKeepsWellFormed(prev: string)
    requires WellFormed(prev)
    ensures WellFormed(DeleteLast(prev))
  {
    if prev != "" {
      WellFormedPrefix(prev, |prev| - 1);
    }
  }

  lemma PercentKeepsWellFormed(prev: string, percentText: string -> string)
    requires WellFormed(prev)
    requires RunStart(prev).Some? ==> IsNumberText(percentText(RunText(prev)))
    ensures WellFormed(Percent(prev, percentText))
  {
    if RunStart(prev).Some? {
      var i := RunStart(prev).value;
      var u := percentText(prev[i..]);
      WellFormedPrefix(prev, i);
      if i > 0 {
        RunFollowsSeparator(prev);
        assert prev[..i][i - 1] == prev[i - 1];
      }
      NoAdjacentOperatorsConcat(prev[..i], u);
      OneDotPerNumberConcat(prev[..i], u);
    }
  }

  /** With no adjacent operators, the prepared expression never ends in an operator. */
  lemma PreparedEndsInOperand(display: string)
    requires NoAdjacentOperators(display) && display != ""
    ensures !EndsWithOperator(PrepareExpression(display).value)
  {
    var e := PrepareExpression(display).value;
    var n := |display|;
    if EndsWithOperator(display) && n > 1 {
      assert e[n - 2] == CanonicalGlyph(display[n - 2]);
    }
  }
}
