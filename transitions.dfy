/**
 * The display transitions of the calculator screen: each button press maps
 * the previous display string to the next one.
 */
module Transitions {
  import opened Wrappers
  import opened Numerals

  /** One of the six operator glyphs `/ - X ÷ + *` (`X` and `÷` are the keypad's multiply and divide). */
  predicate IsOperatorChar(c: char)
    ensures IsOperatorChar(c) <==> [c] in ["/", "-", "X", "÷", "+", "*"]
  {
    c == '/' || c == '-' || c == 'X' || c == '÷' || c == '+' || c == '*'
  }

  /** A key in the operator list of the router: a single operator glyph. */
  predicate IsOperator(key: string) {
    |key| == 1 && IsOperatorChar(key[0])
  }

  /** `IsOperator` is membership in the router's list of six operator labels. */
  lemma OperatorLabels(key: string)
    ensures IsOperator(key) <==> key in ["/", "-", "X", "÷", "+", "*"]
  {
    if |key| == 1 {
      assert key == [key[0]];
    }
  }

  /** `isOperatorChar(prev.slice(-1))`: the display's last character is an operator glyph. */
  predicate EndsWithOperator(s: string)
    ensures EndsWithOperator(s) <==> |s| > 0 && IsOperatorChar(s[|s| - 1])
  {
    |s| > 0 && IsOperator(s[|s| - 1..])
  }

  // ---- digits ----

  /** A digit key replaces a lone `"0"`; any other key is appended. */
  function AppendDigit(prev: string, val: string): (r: string)
    ensures |val| <= |r| && r[|r| - |val|..] == val
    ensures prev == "0" && ContainsDigit(val) ==> r == val
    ensures !(prev == "0" && ContainsDigit(val)) ==> r == prev + val
  {
    if prev == "0" && ContainsDigit(val) then val else prev + val
  }

  // ---- decimal point ----

  /** The trailing numeric run exists and already has its decimal point. */
  predicate RunHasDot(s: string) {
    RunStart(s).Some? && '.' in s[RunStart(s).value..]
  }

  /**
   * A second point in the current number is refused; with no number at the
   * end, `"0."` starts one; otherwise `"."` is appended.
   */
  function AppendDot(s: string): (r: string)
    ensures RunHasDot(s) ==> r == s
    ensures !RunHasDot(s) && RunStart(s).Some? ==> r == s + "."
    ensures RunStart(s).None? ==> r == s + "0."
    ensures s == "" ==> r == "0."
  {
    match RunStart(s)
    case Some(i) => if '.' in s[i..] then s else s + "."
    case None => if s == "" then "0." else s + "0."
  }

  // ---- operators ----

  /**
   * An operator on the empty display is kept only when it is the unary
   * minus; after an operator it replaces that operator; otherwise it is
   * appended.
   */
  function AppendOperator(prev: string, key: string): (r: string)
    requires IsOperator(key)
    ensures prev == "" ==> r == (if key == "-" then "-" else "")
    ensures EndsWithOperator(prev) ==> |r| == |prev| && r[..|r| - 1] == prev[..|prev| - 1]
    ensures prev != "" && !EndsWithOperator(prev) ==> r == prev + key
    ensures r != "" ==> r[|r| - 1] == key[0]
  {
    if prev == "" && key == "-" then "-"
    else if prev == "" then prev
    else if EndsWithOperator(prev) then prev[..|prev| - 1] + key
    else prev + key
  }

  // ---- percent ----

  /**
   * The trailing numeric run is replaced by `percentText` of it (the text of
   * that number divided by a hundred); the part before the run is kept.
   */
  function Percent(prev: string, percentText: string -> string): (r: string)
    ensures RunStart(prev).None? ==> r == prev
    ensures RunStart(prev).Some? ==>
      r == prev[..RunStart(prev).value] + percentText(prev[RunStart(prev).value..])
  {
    match RunStart(prev)
    case None => prev
    case Some(i) => prev[..i] + percentText(prev[i..])
  }

  // ---- delete ----

  /** Drops the last character; the empty display stays empty. */
  function DeleteLast(prev: string): (r: string)
    ensures prev == "" ==> r == ""
    ensures prev != "" ==> r + [prev[|prev| - 1]] == prev
  {
    if |prev| > 0 then prev[..|prev| - 1] else ""
  }

  // ---- preparing the expression for evaluation ----

  /** The glyph the evaluator sees: `X` becomes `*` and `÷` becomes `/`. */
  function CanonicalGlyph(c: char): (r: char)
    ensures c == 'X' ==> r == '*'
    ensures c == '÷' ==> r == '/'
    ensures r != 'X' && r != '÷'
    ensures IsOperatorChar(r) <==> IsOperatorChar(c)
    ensures c != 'X' && c != '÷' ==> r == c
  {
    if c == 'X' then '*' else if c == '÷' then '/' else c
  }

  /** `replace(/X/g, "*").replace(/÷/g, "/")`. */
  function Normalize(s: string): (r: string)
    ensures |r| == |s|
    ensures forall x :: 0 <= x < |s| ==> r[x] == CanonicalGlyph(s[x])
  {
    if s == [] then [] else Normalize(s[..|s| - 1]) + [CanonicalGlyph(s[|s| - 1])]
  }

  /**
   * The expression handed to the evaluator, or `None` when Answer does
   * nothing (empty display): glyphs normalised and one trailing operator dropped.
   */
  function PrepareExpression(display: string): (r: Option<string>)
    ensures r.None? <==> display == ""
    ensures r.Some? ==> 'X' !in r.value && '÷' !in r.value
    ensures r.Some? ==> |r.value| <= |display| && r.value == Normalize(display)[..|r.value|]
    ensures r.Some? ==> (|r.value| == |display| - 1 <==> EndsWithOperator(display))
    ensures r.Some? ==> (|r.value| == |display| <==> !EndsWithOperator(display))
  {
    if display == "" then None
    else
      var e := Normalize(display);
      if EndsWithOperator(e) then Some(e[..|e| - 1]) else Some(e)
  }

  // ---- rendering ----

  /** `display || "0"`: what the screen shows. */
  function Rendered(display: string): (r: string)
    ensures r != ""
    ensures display != "" ==> r == display
    ensures display == "" ==> r == "0"
  {
    if display == "" then "0" else display
  }
}
