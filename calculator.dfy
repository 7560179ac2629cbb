/**
 * The calculator screen: a router that picks a transition by button label,
 * and the component whose one piece of state is the display string.
 *
 * Evaluating the prepared expression and turning a number into its percent
 * text are done by the JavaScript runtime; here they are the functions
 * `evaluate` (None when evaluation throws) and `percentText`, fixed when the
 * screen is created.
 */
module CalculatorScreen {
  import opened Wrappers
  import opened Numerals
  import opened Transitions
  import opened DisplayInvariants

  datatype Action = DeleteKey | AnswerKey | DotKey | PercentKey | OperatorKey | DigitKey

  /** The router's label tests, in their order; every other label is taken as a digit. */
  function Route(key: string): (a: Action)
    ensures a == DeleteKey <==> key == "Delete"
    ensures a == AnswerKey <==> key == "Answer"
    ensures a == DotKey <==> key == "."
    ensures a == PercentKey <==> key == "%"
    ensures a == OperatorKey <==> IsOperator(key)
    ensures a == DigitKey <==>
      key != "Delete" && key != "Answer" && key != "." && key != "%" && !IsOperator(key)
  {
    if key == "Delete" then DeleteKey
    else if key == "Answer" then AnswerKey
    else if key == "." then DotKey
    else if key == "%" then PercentKey
    else if IsOperator(key) then OperatorKey
    else DigitKey
  }

  predicate IsDigitKey(key: string) {
    |key| == 1 && IsDigit(key[0])
  }

  /** The labels the router distinguishes: the keypad's buttons and the six operator glyphs. */
  predicate IsKey(key: string) {
    IsDigitKey(key) || IsOperator(key) || key == "." || key == "%" || key == "Delete" || key == "Answer"
  }

  /**
   * Answer: nothing on the empty display; otherwise the evaluator's text for
   * the prepared expression, or `"Error"` when evaluation throws.
   */
  function AnswerDisplay(display: string, evaluate: string -> Option<string>): (r: string)
    ensures display == "" ==> r == ""
    ensures display != "" && evaluate(PrepareExpression(display).value).None? ==> r == "Error"
    ensures display != "" && evaluate(PrepareExpression(display).value).Some? ==>
      r == evaluate(PrepareExpression(display).value).value
  {
    match PrepareExpression(display)
    case None => display
    case Some(e) =>
      match evaluate(e)
      case None => "Error"
      case Some(v) => v
  }

  /** The display after one button press. */
  function Next(display: string, key: string, evaluate: string -> Option<string>,
                percentText: string -> string): (r: string)
    ensures Route(key) == DeleteKey ==> r == DeleteLast(display)
    ensures Route(key) == AnswerKey ==> r == AnswerDisplay(display, evaluate)
    ensures Route(key) == DotKey ==> r == AppendDot(display)
    ensures Route(key) == PercentKey ==> r == Percent(display, percentText)
    ensures Route(key) == OperatorKey ==> r == AppendOperator(display, key)
    ensures Route(key) == DigitKey ==> r == AppendDigit(display, key)
  {
    match Route(key)
    case DeleteKey => DeleteLast(display)
    case AnswerKey => AnswerDisplay(display, evaluate)
    case DotKey => AppendDot(display)
    case PercentKey => Percent(display, percentText)
    case OperatorKey => AppendOperator(display, key)
    case DigitKey => AppendDigit(display, key)
  }

  /** The display after a sequence of presses, one after the other. */
  function PressAll(display: string, keys: seq<string>, evaluate: string -> Option<string>,
                    percentText: string -> string): (r: string)
    ensures keys == [] ==> r == display
    ensures |keys| == 1 ==> r == Next(display, keys[0], evaluate, percentText)
    decreases |keys|
  {
    if keys == [] then display
    else PressAll(Next(display, keys[0], evaluate, percentText), keys[1..], evaluate, percentText)
  }

  /** The last key of a sequence acts on the display that the earlier keys left. */
  lemma {:induction false} PressAllLastKey(display: string, keys: seq<string>,
                                           evaluate: string -> Option<string>,
                                           percentText: string -> string)
    requires keys != []
    ensures PressAll(display, keys, evaluate, percentText)
         == Next(PressAll(display, keys[..|keys| - 1], evaluate, percentText), keys[|keys| - 1],
                 evaluate, percentText)
    decreases |keys|
  {
    if |keys| > 1 {
      var next := Next(display, keys[0], evaluate, percentText);
      PressAllLastKey(next, keys[1..], evaluate, percentText);
      assert keys[1..][..|keys| - 2] == keys[..|keys| - 1][1..];
      assert keys[1..][|keys| - 2] == keys[|keys| - 1];
    }
  }

  /**
   * The runtime's results are displays the invariants allow: every text the
   * evaluator returns is well formed, and the percent text of a numeral is
   * well formed and never starts with an operator.
   */
  ghost predicate WellBehavedRuntime(evaluate: string -> Option<string>, percentText: string -> string) {
    && (forall e :: evaluate(e).Some? ==> WellFormed(evaluate(e).value))
    && (forall t :: IsNumeral(t) ==> IsNumberText(percentText(t)))
  }

  lemma ErrorIsWellFormed()
    ensures WellFormed("Error")
  {
    var s := "Error";
    forall x | 0 <= x < |s| ensures s[x] != '.' && !IsOperatorChar(s[x]) {
      assert s[x] in ['E', 'r', 'o'];
    }
  }

  /**
   * A press of a key the router knows keeps the display free of adjacent
   * operators and of a second point in a number, given a well-behaved runtime.
   */
  lemma NextKeepsWellFormed(display: string, key: string, evaluate: string -> Option<string>,
                            percentText: string -> string)
    requires WellBehavedRuntime(evaluate, percentText)
    requires IsKey(key) && WellFormed(display)
    ensures WellFormed(Next(display, key, evaluate, percentText))
  {
    match Route(key)
    case DeleteKey => DeleteLastKeepsWellFormed(display);
    case AnswerKey => ErrorIsWellFormed();
    case DotKey => AppendDotKeepsWellFormed(display);
    case PercentKey =>
      RunStartIsLeftmostMatch(display);
      PercentKeepsWellFormed(display, percentText);
    case OperatorKey => AppendOperatorKeepsWellFormed(display, key);
    case DigitKey =>
      assert key == [key[0]];
      AppendDigitKeepsWellFormed(display, key[0]);
  }

  /**
   * From any well-formed display (such as the initial `""`), a sequence of
   * routed keys keeps the invariants, given a well-behaved runtime.
   */
  lemma {:induction false} PressAllKeepsWellFormed(display: string, keys: seq<string>,
                                                   evaluate: string -> Option<string>,
                                                   percentText: string -> string)
    requires WellBehavedRuntime(evaluate, percentText)
    requires WellFormed(display)
    requires forall x :: 0 <= x < |keys| ==> IsKey(keys[x])
    ensures WellFormed(PressAll(display, keys, evaluate, percentText))
    decreases |keys|
  {
    if keys != [] {
      NextKeepsWellFormed(display, keys[0], evaluate, percentText);
      PressAllKeepsWellFormed(Next(display, keys[0], evaluate, percentText), keys[1..],
                              evaluate, percentText);
    }
  }

  /** The digit buttons for the digits of `ds`, in order. */
  function DigitKeys(ds: string): (keys: seq<string>)
    ensures |keys| == |ds|
    ensures forall x :: 0 <= x < |ds| ==> keys[x] == [ds[x]]
  {
    seq(|ds|, x requires 0 <= x < |ds| => [ds[x]])
  }

  predicate AllDigitChars(ds: string) {
    forall x :: 0 <= x < |ds| ==> IsDigit(ds[x])
  }

  /** A press of the digit button `d`, and the presses of the digits that follow it. */
  lemma DigitPressStep(s: string, ds: string, evaluate: string -> Option<string>,
                       percentText: string -> string)
    requires ds != [] && AllDigitChars(ds)
    ensures PressAll(s, DigitKeys(ds), evaluate, percentText)
         == PressAll(AppendDigit(s, [ds[0]]), DigitKeys(ds[1..]), evaluate, percentText)
  {
    var keys := DigitKeys(ds);
    assert keys[0] == [ds[0]];
    assert Route(keys[0]) == DigitKey;
    assert keys[1..] == DigitKeys(ds[1..]);
  }

  /** The display after typing the digits of `ds` one after the other. */
  function TypeDigits(s: string, ds: string): string
    decreases |ds|
  {
    if ds == [] then s else TypeDigits(AppendDigit(s, [ds[0]]), ds[1..])
  }

  /** Pressing the digit buttons through the router is typing those digits. */
  lemma {:induction false} PressDigitsIsTyping(s: string, ds: string,
                                               evaluate: string -> Option<string>,
                                               percentText: string -> string)
    requires AllDigitChars(ds)
    ensures PressAll(s, DigitKeys(ds), evaluate, percentText) == TypeDigits(s, ds)
    decreases |ds|
  {
    if ds != [] {
      DigitPressStep(s, ds, evaluate, percentText);
      PressDigitsIsTyping(AppendDigit(s, [ds[0]]), ds[1..], evaluate, percentText);
    }
  }

  /** Digits typed after a number other than a lone zero are just written. */
  lemma {:induction false} TypingConcatenates(s: string, ds: string)
    requires s != "" && s != "0"
    ensures TypeDigits(s, ds) == s + ds
    decreases |ds|
  {
    if ds != [] {
      var t := s + [ds[0]];
      assert AppendDigit(s, [ds[0]]) == t;
      assert |t| >= 2;
      TypingConcatenates(t, ds[1..]);
      assert t + ds[1..] == s + ds;
    }
  }

  /** Digit presses after a number other than a lone zero just write the digits. */
  lemma DigitPressesConcatenate(s: string, ds: string, evaluate: string -> Option<string>,
                                percentText: string -> string)
    requires s != "" && s != "0"
    requires AllDigitChars(ds)
    ensures PressAll(s, DigitKeys(ds), evaluate, percentText) == s + ds
  {
    PressDigitsIsTyping(s, ds, evaluate, percentText);
    TypingConcatenates(s, ds);
  }

  /** The number `ds` with its leading zeros removed, keeping at least one digit. */
  function StripLeadingZeros(ds: string): (r: string)
    decreases |ds|
  {
    if |ds| > 1 && ds[0] == '0' then StripLeadingZeros(ds[1..]) else ds
  }

  /** The first digit typed on `"0"` or `""` is all the display then holds. */
  lemma FirstDigitReplaces(z: string, d: char)
    requires z == "0" || z == ""
    requires IsDigit(d)
    ensures AppendDigit(z, [d]) == [d]
  {
    assert ContainsDigit([d]) by { assert [d][0] == d; }
  }

  /** After a first digit that is not zero, the rest is written as typed. */
  lemma TypingAfterNonZero(ds: string)
    requires ds != [] && ds[0] != '0'
    ensures TypeDigits([ds[0]], ds[1..]) == ds
  {
    assert [ds[0]] != "0" by { assert [ds[0]][0] != "0"[0]; }
    TypingConcatenates([ds[0]], ds[1..]);
    assert [ds[0]] + ds[1..] == ds;
  }

  /** A leading zero in front of more digits is not shown. */
  lemma StripDropsLeadingZero(ds: string)
    requires ds != []
    ensures StripLeadingZeros("0" + ds) == StripLeadingZeros(ds)
  {
    assert ("0" + ds)[1..] == ds;
  }

  /** Typing digits on `"0"`: the zero is not kept in front of a following digit. */
  lemma {:induction false} TypingAfterZero(ds: string)
    requires AllDigitChars(ds)
    ensures TypeDigits("0", ds) == StripLeadingZeros("0" + ds)
    decreases |ds|
  {
    if ds != [] {
      FirstDigitReplaces("0", ds[0]);
      StripDropsLeadingZero(ds);
      if ds[0] == '0' {
        TypingAfterZero(ds[1..]);
        assert ds == "0" + ds[1..];
      } else {
        TypingAfterNonZero(ds);
      }
    }
  }

  /** Typing a number on the empty display shows it without leading zeros. */
  lemma TypingFromEmpty(ds: string)
    requires AllDigitChars(ds)
    ensures TypeDigits("", ds) == StripLeadingZeros(ds)
  {
    if ds != [] {
      FirstDigitReplaces("", ds[0]);
      if ds[0] == '0' {
        TypingAfterZero(ds[1..]);
        assert ds == "0" + ds[1..];
      } else {
        TypingAfterNonZero(ds);
      }
    }
  }

  /** Pressing digit buttons on `"0"` or `""` shows the number without leading zeros. */
  lemma DigitPressesStripZeros(ds: string, evaluate: string -> Option<string>,
                               percentText: string -> string)
    requires AllDigitChars(ds)
    ensures PressAll("0", DigitKeys(ds), evaluate, percentText) == StripLeadingZeros("0" + ds)
    ensures PressAll("", DigitKeys(ds), evaluate, percentText) == StripLeadingZeros(ds)
  {
    PressDigitsIsTyping("0", ds, evaluate, percentText);
    PressDigitsIsTyping("", ds, evaluate, percentText);
    TypingAfterZero(ds);
    TypingFromEmpty(ds);
  }

  /** Answer on `"5+"` evaluates `"5"`, and a throwing evaluation shows `"Error"`. */
  lemma AnswerExamples(evaluate: string -> Option<string>)
    ensures AnswerDisplay("", evaluate) == ""
    ensures evaluate("5").None? ==> AnswerDisplay("5+", evaluate) == "Error"
    ensures evaluate("5").Some? ==> AnswerDisplay("5+", evaluate) == evaluate("5").value
  {
    assert Normalize("5+") == "5+" && "5+"[..1] == "5";
  }

  /** The display that `"Error"` becomes after `+0.5+0.5` meets both invariants. */
  lemma ErrorSumIsWellFormed()
    ensures WellFormed("Error+0.5+0.5")
  {
    var s := "Error+0.5+0.5";
    forall x | 0 <= x < |s| - 1 ensures !(IsOperatorChar(s[x]) && IsOperatorChar(s[x + 1])) {
      assert s[x] in ['E', 'r', 'o', '+', '0', '.', '5'];
      assert s[x] == '+' ==> x == 5 || x == 9;
    }
    forall x | 0 <= x < |s| && s[x] == '.' ensures DotMayFollow(s[..x]) {
      assert s[x] in ['E', 'r', 'o', '+', '0', '.', '5'];
      assert x == 7 || x == 11;
      var t := s[..x];
      assert t[x - 1] == '0' && t[x - 2] == '+';
      assert TrailingDigits(t[..x - 1]) == 0;
    }
  }

  /** A number text with two points, such as `0.50.5`, is not well formed. */
  lemma TwoPointsNotWellFormed()
    ensures !WellFormed("0.50.5")
  {
    var t := "0.50.5"[..4];
    assert t == "0.50" && t[..3] == "0.5" && t[..3][..2] == "0.";
    assert TrailingDigits("0.") == 0;
    assert TrailingDigits(t) == 2;
    assert !DotMayFollow(t);
  }

  /**
   * Why `WellBehavedRuntime` asks for well-formed results: `"Error"` stays on
   * the display and further presses extend it, and JavaScript evaluates
   * `Error+0.5+0.5` to the `Error` constructor's text followed by `0.50.5`.
   * An evaluator with such a result breaks the one-point invariant on a
   * well-formed display.
   */
  lemma AnswerCanBreakOneDot(evaluate: string -> Option<string>, percentText: string -> string)
    requires forall e :: evaluate(e) == Some("0.50.5")
    ensures WellFormed("Error+0.5+0.5")
    ensures !WellFormed(Next("Error+0.5+0.5", "Answer", evaluate, percentText))
  {
    ErrorSumIsWellFormed();
    TwoPointsNotWellFormed();
    assert Next("Error+0.5+0.5", "Answer", evaluate, percentText) == "0.50.5";
  }

  /** The screen component; `display` is its one piece of state. */
  class Calculator {
    var display: string
    const evaluate: string -> Option<string>
    const percentText: string -> string

    constructor (evaluate: string -> Option<string>, percentText: string -> string)
      ensures display == ""
      ensures this.evaluate == evaluate && this.percentText == percentText
    {
      display := "";
      this.evaluate := evaluate;
      this.percentText := percentText;
    }

    /** What the display shows: `"0"` in place of the empty display. */
    function Shown(): (r: string)
      reads this
      ensures r != ""
      ensures display == "" ==> r == "0"
      ensures display != "" ==> r == display
    {
      Rendered(display)
    }

    method HandleNumber(key: string)
      modifies this
      ensures display == AppendDigit(old(display), key)
    {
      display := AppendDigit(display, key);
    }

    method HandleDot()
      modifies this
      ensures display == AppendDot(old(display))
    {
      display := AppendDot(display);
    }

    method HandleOperator(key: string)
      requires IsOperator(key)
      modifies this
      ensures display == AppendOperator(old(display), key)
    {
      display := AppendOperator(display, key);
    }

    method HandlePercent()
      modifies this
      ensures display == Percent(old(display), percentText)
    {
      display := Percent(display, percentText);
    }

    method HandleDelete()
      modifies this
      ensures display == DeleteLast(old(display))
    {
      display := DeleteLast(display);
    }

    method HandleAnswer()
      modifies this
      ensures display == AnswerDisplay(old(display), evaluate)
    {
      if display != "" {
        var expr := PrepareExpression(display).value;
        match evaluate(expr)
        case Some(v) => display := v;
        case None => display := "Error";
      }
    }

    /** One button press, routed by its label; well-formed displays stay well formed. */
    method Press(key: string)
      modifies this
      ensures display == Next(old(display), key, evaluate, percentText)
      ensures WellBehavedRuntime(evaluate, percentText) && IsKey(key) && WellFormed(old(display))
        ==> WellFormed(display)
    {
      ghost var before := display;
      if key == "Delete" {
        HandleDelete();
      } else if key == "Answer" {
        HandleAnswer();
      } else if key == "." {
        HandleDot();
      } else if key == "%" {
        HandlePercent();
      } else if IsOperator(key) {
        HandleOperator(key);
      } else {
        HandleNumber(key);
      }
      if WellBehavedRuntime(evaluate, percentText) && IsKey(key) && WellFormed(before) {
        NextKeepsWellFormed(before, key, evaluate, percentText);
      }
    }
  }
}
