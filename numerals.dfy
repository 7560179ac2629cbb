/**
 * Digit blocks and the trailing numeric run of a display string.
 *
 * The calculator finds "the number being typed" with the regular expression
 * `/(\d+\.?\d*)$/`. `RunStart` computes the index where that expression
 * matches; `IsNumeral` and `IsLeftmostNumeral` say, independently, what the
 * expression means (the first index whose suffix is a numeral), and
 * `RunStartIsLeftmostMatch` proves the two agree.
 */
module Numerals {
  import opened Wrappers

  predicate IsDigit(c: char) { '0' <= c <= '9' }

  /** `/[0-9]/.test(v)`, scanning `v` from the left: it holds exactly when some character is an ASCII digit. */
  predicate ContainsDigit(v: string)
    ensures ContainsDigit(v) <==> exists i :: 0 <= i < |v| && IsDigit(v[i])
  {
    v != [] && (IsDigit(v[0]) || ContainsDigit(v[1..]))
  }

  /** Length of the maximal block of ASCII digits at the end of `s`. */
  function TrailingDigits(s: string): (k: nat)
    ensures k <= |s|
    ensures forall x :: |s| - k <= x < |s| ==> IsDigit(s[x])
    ensures k < |s| ==> !IsDigit(s[|s| - k - 1])
  {
    if s == [] || !IsDigit(s[|s| - 1]) then 0
    else TrailingDigits(s[..|s| - 1]) + 1
  }

  /** The language of `\d+\.?\d*`: a digit first, then digits and at most one dot. */
  predicate IsNumeral(t: string) {
    && |t| > 0
    && IsDigit(t[0])
    && (forall x :: 0 <= x < |t| ==> IsDigit(t[x]) || t[x] == '.')
    && (forall x, y :: 0 <= x < y < |t| && t[x] == '.' ==> t[y] != '.')
  }

  /** `i` is where `/(\d+\.?\d*)$/` matches `s`: the least index whose suffix is a numeral. */
  ghost predicate IsLeftmostNumeral(s: string, i: nat) {
    && i <= |s|
    && IsNumeral(s[i..])
    && forall j :: 0 <= j < i ==> !IsNumeral(s[j..])
  }

  /** No suffix of `s` is a numeral: the expression does not match. */
  ghost predicate NoNumeralSuffix(s: string) {
    forall j :: 0 <= j <= |s| ==> !IsNumeral(s[j..])
  }

  /**
   * Match index of `/(\d+\.?\d*)$/` on `s`. With `d2` the trailing digit block:
   * when `d2` is preceded by a dot that is itself preceded by a non-empty digit
   * block `d1`, the run is `d1 "." d2`; otherwise it is `d2` when `d2` is
   * non-empty; otherwise there is no run.
   */
  function RunStart(s: string): (m: Option<nat>)
    ensures m.Some? ==> m.value < |s| && IsDigit(s[m.value])
  {
    var p := |s| - TrailingDigits(s);
    if p > 0 && s[p - 1] == '.' && TrailingDigits(s[..p - 1]) > 0 then
      Some(p - 1 - TrailingDigits(s[..p - 1]))
    else if p < |s| then
      Some(p)
    else
      None
  }

  /** The matched text `m[0]`, or `""` when there is no match. */
  function RunText(s: string): (t: string)
    ensures RunStart(s).Some? ==> s == s[..RunStart(s).value] + t && |t| > 0
    ensures RunStart(s).None? ==> t == ""
  {
    match RunStart(s)
    case Some(i) => s[i..]
    case None => ""
  }

  // ---- why a suffix is not a numeral ----

  lemma NotNumeralOverBadChar(s: string, j: nat, q: nat)
    requires j <= q < |s|
    requires !IsDigit(s[q]) && s[q] != '.'
    ensures !IsNumeral(s[j..])
  {
    assert s[j..][q - j] == s[q];
  }

  lemma NotNumeralOverTwoDots(s: string, j: nat, q1: nat, q2: nat)
    requires j <= q1 < q2 < |s|
    requires s[q1] == '.' && s[q2] == '.'
    ensures !IsNumeral(s[j..])
  {
    assert s[j..][q1 - j] == s[q1];
    assert s[j..][q2 - j] == s[q2];
  }

  lemma NotNumeralAtDot(s: string, j: nat)
    requires j < |s| && s[j] == '.'
    ensures !IsNumeral(s[j..])
  {
    assert s[j..][0] == s[j];
  }

  /** A suffix made of digits with at most the one dot at `q` (none when `q == |s|`) is a numeral. */
  lemma DigitsAroundDot(s: string, i: nat, q: nat)
    requires i < q <= |s|
    requires forall x :: i <= x < |s| && x != q ==> IsDigit(s[x])
    requires q < |s| ==> s[q] == '.'
    ensures IsNumeral(s[i..])
  {
    var t := s[i..];
    assert forall x :: 0 <= x < |t| ==> t[x] == s[i + x];
    assert forall x :: 0 <= x < |t| && t[x] == '.' ==> x == q - i;
  }

  /** `RunStart` is exactly the match of `/(\d+\.?\d*)$/`: the leftmost numeral suffix. */
  lemma RunStartIsLeftmostMatch(s: string)
    ensures RunStart(s).Some? ==> IsLeftmostNumeral(s, RunStart(s).value)
    ensures RunStart(s).None? ==> NoNumeralSuffix(s)
  {
    var k := TrailingDigits(s);
    var p := |s| - k;
    if p > 0 && s[p - 1] == '.' && TrailingDigits(s[..p - 1]) > 0 {
      var k1 := TrailingDigits(s[..p - 1]);
      var i := p - 1 - k1;
      assert forall x :: i <= x < p - 1 ==> s[..p - 1][x] == s[x];
      DigitsAroundDot(s, i, p - 1);
      forall j | 0 <= j < i ensures !IsNumeral(s[j..]) {
        assert !IsDigit(s[..p - 1][i - 1]);
        if s[i - 1] == '.' {
          NotNumeralOverTwoDots(s, j, i - 1, p - 1);
        } else {
          NotNumeralOverBadChar(s, j, i - 1);
        }
      }
    } else if p < |s| {
      DigitsAroundDot(s, p, |s|);
      forall j | 0 <= j < p ensures !IsNumeral(s[j..]) {
        NotNumeralBeforeBlock(s, j, p);
      }
    } else {
      forall j | 0 <= j <= |s| ensures !IsNumeral(s[j..]) {
        if j < |s| {
          NotNumeralBeforeBlock(s, j, p);
        }
      }
    }
  }

  /**
   * A suffix starting before `p` is no numeral when the character before `p`
   * is not a digit and is not a dot closing a non-empty digit block.
   */
  lemma NotNumeralBeforeBlock(s: string, j: nat, p: nat)
    requires j < p <= |s|
    requires !IsDigit(s[p - 1])
    requires !(s[p - 1] == '.' && TrailingDigits(s[..p - 1]) > 0)
    ensures !IsNumeral(s[j..])
  {
    if s[p - 1] != '.' {
      NotNumeralOverBadChar(s, j, p - 1);
    } else if j == p - 1 {
      NotNumeralAtDot(s, j);
    } else {
      assert !IsDigit(s[..p - 1][p - 2]);
      if s[p - 2] == '.' {
        NotNumeralOverTwoDots(s, j, p - 2, p - 1);
      } else {
        NotNumeralOverBadChar(s, j, p - 2);
      }
    }
  }

  /** The leftmost match is unique, so `RunStart` is the only index it can be. */
  lemma LeftmostNumeralIsRunStart(s: string, i: nat)
    requires IsLeftmostNumeral(s, i)
    ensures RunStart(s) == Some(i)
  {
    RunStartIsLeftmostMatch(s);
    if RunStart(s).Some? {
      var m := RunStart(s).value;
      assert !(m < i) && !(i < m);
    }
  }
}
