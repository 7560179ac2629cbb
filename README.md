# Calculator display state machine

A model of the calculator screen in `components/Calculator.jsx`. The
screen's one piece of state is the display string. Every button press
rewrites it through one of a few string transitions: append a digit,
append a decimal point, append or replace an operator, apply percent,
delete the last character, or evaluate ("Answer"). A router picks the
transition from the button label. An empty display is shown as `"0"`.

Modules:

- `Wrappers` (wrappers.dfy): the `Option` type.
- `Numerals` (numerals.dfy): the regular expression `/(\d+\.?\d*)$/`,
  which finds the number being typed. `RunStart` computes the match
  index. `IsNumeral` and `IsLeftmostNumeral` say what the expression
  means: the first index whose suffix is a digit, then digits with at
  most one point. `RunStartIsLeftmostMatch` proves the two agree.
- `Transitions` (transitions.dfy): each handler's `prev => next` update
  as a pure function, plus the expression preparation done before evaluation.
- `TransitionLaws` (laws.dfy): laws that span several presses (a second
  point press does nothing, operator presses collapse, delete undoes a
  press) and the point and percent cases stated against the meaning of
  the expression.
- `DisplayInvariants` (invariants.dfy): two display invariants. No two
  operator glyphs are ever adjacent. Every decimal point follows a digit
  block that does not itself follow a point, so a number never holds two
  points. Digit, point, operator and delete presses are proved to preserve
  both for every display. Percent preserves them when the runtime's percent
  text of the matched numeral is itself well formed and does not start with
  an operator. Answer preserves them only when the evaluator's result is
  well formed, which the program's own evaluator does not guarantee (see
  the end of this file).
- `CalculatorScreen` (calculator.dfy): the router `Route`, the one-press
  function `Next` and its fold `PressAll`, and the class `Calculator`.
  The class has the `display` field and one method per handler.
  `Press` dispatches in the source's order.

The JavaScript runtime is not modelled. Two of its jobs become parameters
that are fixed when a `Calculator` is constructed:
- `evaluate` evaluates the prepared expression and formats the result. It
  yields `None` when evaluation throws.
- `percentText` turns the matched number into the text of that number
  divided by a hundred.

## Model

| member | source | states |
|---|---|---|
| `Numerals.TrailingDigits` | components/Calculator.jsx:26 | the length of the maximal block of ASCII digits at the end of the string: all of it is digits, and the character before it is not a digit |
| `Numerals.ContainsDigit` | components/Calculator.jsx:18 | `/[0-9]/.test(val)`: a left-to-right scan that holds exactly when some character of the label is an ASCII digit |
| `Numerals.RunStart` | components/Calculator.jsx:26 | a match index is inside the string and points at a digit |
| `Numerals.RunText` | components/Calculator.jsx:43-45 | the matched text `m[0]`: the display is the prefix before the match followed by that text, which is non-empty; empty when there is no match |
| `Numerals.RunStartIsLeftmostMatch` | components/Calculator.jsx:26 | `RunStart` is the least index whose suffix is a numeral (a digit, then digits with at most one point); when it finds nothing, no suffix is a numeral |
| `Numerals.LeftmostNumeralIsRunStart` | components/Calculator.jsx:43 | any leftmost numeral suffix is the one `RunStart` returns, so the match is unique |
| `Transitions.IsOperatorChar` | components/Calculator.jsx:14 | a character is an operator glyph exactly when, as a one-character string, it is in the list `/ - X ÷ + *` |
| `Transitions.OperatorLabels` | components/Calculator.jsx:76 | a label is routed to the operator handler exactly when it is one of `/ - X ÷ + *` |
| `Transitions.EndsWithOperator` | components/Calculator.jsx:36 | `isOperatorChar(prev.slice(-1))`, on the last one-character slice, holds exactly when the display is non-empty and its last character is an operator glyph (false on `""`, whose slice is empty) |
| `Transitions.CanonicalGlyph` | components/Calculator.jsx:56 | `X` becomes `*` and `÷` becomes `/`, so the result is never `X` or `÷`; an operator glyph stays an operator glyph and any other character stays a non-operator; characters other than `X` and `÷` are unchanged |
| `Transitions.AppendDigit` | components/Calculator.jsx:16-21 | a label with a digit in it replaces a display of exactly `"0"`; in every other case the label is appended; the label always ends the result |
| `Transitions.AppendDot` | components/Calculator.jsx:25-30 | no change when the trailing numeric run already has a point (`RunHasDot`, the `match && match[0].includes(".")` test of line 27); `"0."` appended when there is no run (so `""` becomes `"0."`); otherwise `"."` appended |
| `Transitions.AppendOperator` | components/Calculator.jsx:32-39 | on `""` only `"-"` is kept and any other operator leaves `""`; after an operator the last character is replaced, keeping the prefix and the length; otherwise the operator is appended; every non-empty result ends with the operator |
| `Transitions.Percent` | components/Calculator.jsx:41-49 | no change without a trailing run; otherwise the prefix before the run's start followed by the converted run |
| `Transitions.DeleteLast` | components/Calculator.jsx:51-52 | `""` stays `""`; otherwise the result plus the dropped last character is the old display |
| `Transitions.Normalize` | components/Calculator.jsx:56 | same length, and every character is replaced by its canonical glyph (`X` to `*`, `÷` to `/`) |
| `Transitions.PrepareExpression` | components/Calculator.jsx:54-57 | nothing on `""`; the expression has no `X` or `÷`; it is a prefix of the normalised display that is one character shorter exactly when the display ends in an operator, and unchanged otherwise |
| `Transitions.Rendered` | components/Calculator.jsx:89 | never empty; the display itself when it is non-empty, `"0"` otherwise |
| `TransitionLaws.DotAfterDigitIsDottedRun` | components/Calculator.jsx:26-27 | a display ending in a digit and then a point has a trailing run that contains that point |
| `TransitionLaws.AppendDotLeavesDottedRun` | components/Calculator.jsx:25-30 | after a point press the trailing run exists and contains a point |
| `TransitionLaws.AppendDotIdempotent` | components/Calculator.jsx:25-30 | pressing the point twice gives the same display as pressing it once |
| `TransitionLaws.AppendDotByMatch` | components/Calculator.jsx:26-29 | with the leftmost numeral suffix at `i`: no change if it contains a point, else `"."` appended |
| `TransitionLaws.AppendDotWithoutMatch` | components/Calculator.jsx:26-28 | with no numeral suffix, `"0."` is appended |
| `TransitionLaws.PercentByMatch` | components/Calculator.jsx:43-47 | percent keeps the prefix before the leftmost numeral suffix and puts the converted suffix after it |
| `TransitionLaws.PercentWithoutMatch` | components/Calculator.jsx:43-44 | with no numeral suffix, percent changes nothing |
| `TransitionLaws.OperatorCollapses` | components/Calculator.jsx:34-37 | on a non-empty display, two operator presses give the same display as pressing only the second |
| `TransitionLaws.DeleteUndoesDigit` | components/Calculator.jsx:51-52 | delete after a digit press restores the display, unless that press replaced a lone `"0"` |
| `TransitionLaws.DeleteUndoesOperator` | components/Calculator.jsx:51-52 | delete after an operator that was appended restores the display |
| `TransitionLaws.OperatorExamples` | components/Calculator.jsx:34-37 | `"12+"` then `"-"` is `"12-"`; `""` then `"-"` is `"-"`; `""` then `"X"` is `""` |
| `TransitionLaws.OperatorAfterLeadingMinus` | components/Calculator.jsx:34-36 | on `""`, `"-"` and then any operator leave just that operator (e.g. `"X"`), so a display can start with an operator other than the minus |
| `TransitionLaws.PercentExample` | components/Calculator.jsx:41-49 | percent on `"200+50"` converts only `"50"` and keeps `"200+"` |
| `TransitionLaws.PrepareExamples` | components/Calculator.jsx:55-57 | `"2+3X4"` is prepared as `"2+3*4"`, and `"3+"` as `"3"` |
| `TransitionLaws.DeleteExamples` | components/Calculator.jsx:51-52 | delete on `"12+3"` gives `"12+"`, and on `""` gives `""` |
| `TransitionLaws.DotExamples` | components/Calculator.jsx:25-30 | `"12"` becomes `"12."`, `"1.5"` is unchanged, `"7-"` becomes `"7-0."` |
| `DisplayInvariants.PointsAreSeparated` | components/Calculator.jsx:26-27 | under the point invariant, any two points have a non-digit between them |
| `DisplayInvariants.PointFollowsDigit` | components/Calculator.jsx:28 | under the point invariant, every point comes right after a digit |
| `DisplayInvariants.RunFollowsSeparator` | components/Calculator.jsx:43-47 | under the point invariant, the character before the matched run is neither a digit nor a point |
| `DisplayInvariants.DottedRunHasDot` | components/Calculator.jsx:26-27 | when the trailing digits follow a point that closes a digit block, the matched run contains that point |
| `DisplayInvariants.OpenRunAcceptsDot` | components/Calculator.jsx:29 | a trailing run without a point is the trailing digit block, and a point may follow it |
| `DisplayInvariants.AppendDigitKeepsWellFormed` | components/Calculator.jsx:16-21 | a digit press keeps both display invariants |
| `DisplayInvariants.AppendDotKeepsWellFormed` | components/Calculator.jsx:25-30 | a point press keeps both display invariants |
| `DisplayInvariants.StartNumberKeepsOneDot` | components/Calculator.jsx:28 | with no number at the end, the appended `"0."` keeps every point well placed |
| `DisplayInvariants.AppendOperatorKeepsWellFormed` | components/Calculator.jsx:32-39 | an operator press keeps both display invariants |
| `DisplayInvariants.DeleteLastKeepsWellFormed` | components/Calculator.jsx:51-52 | delete keeps both display invariants |
| `DisplayInvariants.PercentKeepsWellFormed` | components/Calculator.jsx:41-49 | percent keeps both display invariants when, if there is a match, the converted text of the matched run is well formed and does not start with an operator |
| `DisplayInvariants.PreparedEndsInOperand` | components/Calculator.jsx:57 | with no adjacent operators, the prepared expression does not end in an operator |
| `CalculatorScreen.Route` | components/Calculator.jsx:71-79 | `"Delete"`, `"Answer"`, `"."` and `"%"` go to their handlers, the six operator glyphs to the operator handler, and every other label to the digit handler |
| `CalculatorScreen.AnswerDisplay` | components/Calculator.jsx:54-68 | `""` stays `""`; otherwise the evaluator's text for the prepared expression, or `"Error"` when evaluation throws |
| `CalculatorScreen.Next` | components/Calculator.jsx:71-79 | one press: the transition that `Route` picks for the label, applied to the display |
| `CalculatorScreen.PressAll` | components/Calculator.jsx:12-79 | a sequence of presses on the display; no keys leave it unchanged and a single key is one `Next` |
| `CalculatorScreen.PressAllLastKey` | components/Calculator.jsx:12-79 | presses are sequential: the last key acts on the display that the earlier keys left |
| `CalculatorScreen.ErrorIsWellFormed` | components/Calculator.jsx:66 | the `"Error"` display satisfies both display invariants |
| `CalculatorScreen.NextKeepsWellFormed` | components/Calculator.jsx:71-79 | every press of a key the router knows (`IsKey`) keeps both display invariants, given a runtime whose results are well formed (`WellBehavedRuntime`) |
| `CalculatorScreen.PressAllKeepsWellFormed` | components/Calculator.jsx:12-79 | given a well-behaved runtime (`WellBehavedRuntime`) and keys the router knows (`IsKey` of every key), any sequence of presses from a well-formed display (such as the initial `""`) keeps both invariants |
| `CalculatorScreen.DigitKeys` | components/Calculator.jsx:4-9 | one digit button per digit, in order |
| `CalculatorScreen.DigitPressStep` | components/Calculator.jsx:71-79 | the first of a sequence of digit buttons goes through the digit append |
| `CalculatorScreen.DigitPressesConcatenate` | components/Calculator.jsx:16-21 | typing digits on a display other than `""` or `"0"` appends them exactly |
| `CalculatorScreen.PressDigitsIsTyping` | components/Calculator.jsx:71-79 | pressing digit buttons through the router is the same as applying the digit append once per digit |
| `CalculatorScreen.TypingConcatenates` | components/Calculator.jsx:18-19 | digits typed on a display other than `""` or `"0"` are appended exactly |
| `CalculatorScreen.FirstDigitReplaces` | components/Calculator.jsx:18-19 | the first digit typed on `"0"` or on `""` is the whole display |
| `CalculatorScreen.TypingAfterNonZero` | components/Calculator.jsx:18-19 | after a first digit other than zero, every further digit is appended |
| `CalculatorScreen.TypingAfterZero` | components/Calculator.jsx:18 | digits typed on `"0"` show with the leading zeros stripped, keeping at least one digit |
| `CalculatorScreen.TypingFromEmpty` | components/Calculator.jsx:18-19 | a number typed on `""` shows without leading zeros |
| `CalculatorScreen.DigitPressesStripZeros` | components/Calculator.jsx:16-23 | pressing digit buttons on `"0"` or `""` shows the number without leading zeros |
| `CalculatorScreen.AnswerExamples` | components/Calculator.jsx:54-68 | Answer on `""` does nothing; on `"5+"` the evaluator gets `"5"`, and the display shows `"Error"` when it throws |
| `CalculatorScreen.ErrorSumIsWellFormed` | components/Calculator.jsx:64 | `"Error"` extended by `+0.5+0.5`, which the handlers allow, meets both invariants |
| `CalculatorScreen.TwoPointsNotWellFormed` | components/Calculator.jsx:58-62 | the `0.50.5` tail that `String(result)` gives for `Error+0.5+0.5` breaks the one-point invariant |
| `CalculatorScreen.AnswerCanBreakOneDot` | components/Calculator.jsx:53-66 | an evaluator that returns a two-point text makes Answer leave a display that is not well formed, starting from the well-formed `"Error+0.5+0.5"`, so the evaluate clause of `WellBehavedRuntime` is needed |
| `CalculatorScreen.Calculator.constructor` | components/Calculator.jsx:12 | the display starts empty |
| `CalculatorScreen.Calculator.Shown` | components/Calculator.jsx:89 | the shown text is `"0"` for the empty display and the display itself otherwise, so it is never empty |
| `CalculatorScreen.Calculator.HandleNumber` | components/Calculator.jsx:16-23 | the display becomes the digit append of the old display |
| `CalculatorScreen.Calculator.HandleDot` | components/Calculator.jsx:25-30 | the display becomes the point append of the old display |
| `CalculatorScreen.Calculator.HandleOperator` | components/Calculator.jsx:32-39 | the display becomes the operator append of the old display |
| `CalculatorScreen.Calculator.HandlePercent` | components/Calculator.jsx:41-49 | the display becomes the percent splice of the old display |
| `CalculatorScreen.Calculator.HandleDelete` | components/Calculator.jsx:51-52 | the display loses its last character |
| `CalculatorScreen.Calculator.HandleAnswer` | components/Calculator.jsx:54-68 | the display becomes the evaluated result, or `"Error"` on a throw; nothing happens on `""` |
| `CalculatorScreen.Calculator.Press` | components/Calculator.jsx:71-79 | the display becomes `Next` of the old display; for a key the router knows (`IsKey`) from a well-formed display, and given `WellBehavedRuntime`, it stays well formed |

## Left out

- Expression evaluation and result formatting (components/Calculator.jsx:59-63) are not modelled. That code is JavaScript dynamic evaluation (`Function("return " + expr)()`) plus IEEE floating point and `toFixed`/`String` formatting. It is the `evaluate` parameter. Division by zero does not throw in JavaScript: it yields `Infinity`, which is displayed. Only a throw leads to `"Error"`.
- Percent arithmetic (components/Calculator.jsx:45-46) is not modelled. That is `parseFloat`, division by 100 and JavaScript's number-to-string rules. It is the `percentText` parameter, applied to the matched run.
- The error-clear timer (components/Calculator.jsx:67) is left out. It is an asynchronous callback that resets the display 900 ms later and is never cancelled. Because of that, it can clear input typed in the meantime. Timing and concurrency are outside this model.
- React hook semantics are left out: updater batching, and the fact that `handleDot` and `handleAnswer` read the rendered `display` rather than the updater's `prev`. Presses are modelled as strictly sequential, so the two readings agree.
- Layout and styling (components/Calculator.jsx:4-9, 81-211) are left out, apart from the `"0"` fallback.
- CalculatorScreen.Calculator.Press: invariant preservation assumes more than the source states. It holds only for keys the router knows (`IsKey`: the keypad buttons, plus `"+"` and `"*"`). It also needs a runtime whose results are well-formed displays (`WellBehavedRuntime`): every evaluator result, and the percent text of every numeral. Evaluation and number-to-text are not modelled. For other labels, only the transition itself is stated.
- CalculatorScreen.WellBehavedRuntime: the program's own evaluator does not satisfy its evaluate clause. So `Press`'s second ensures, `NextKeepsWellFormed` and `PressAllKeepsWellFormed` do not cover the real runtime for Answer; see the last point at the end of this file. The percent clause asks only about numerals, which is all that percent ever converts, and `(parseFloat(t) / 100).toString()` of a numeral meets it.
- CalculatorScreen.NextKeepsWellFormed: it carries the same two assumptions as `Press`.
- CalculatorScreen.PressAllKeepsWellFormed: it carries the same two assumptions, for every key of the sequence. It needs `WellBehavedRuntime` and `IsKey` of each key.
- DisplayInvariants.PercentKeepsWellFormed: it assumes the percent text is well formed and does not start with an operator, because the number-to-text conversion is not modelled.
- Characters are Unicode scalar values rather than JavaScript's UTF-16 code units. Every glyph the screen uses is a single code unit, so the two agree.

Where the code differs from the screen's intended design, the model follows the code. That affects three points:
- A non-finite result is displayed (for example `"Infinity"`) rather than turned into `"Error"`. Nothing throws for it.
- Only the unary minus is accepted on the empty display, but a leading operator can still appear. Pressing `"-"` and then another operator on `""` replaces the minus, so that sequence leaves just `"X"` (`TransitionLaws.OperatorAfterLeadingMinus`).
- The "Error" text is a display like any other, so further presses extend it. Answer then evaluates it as JavaScript, where `Error` names the built-in constructor. Reading lines 59-63, from `""` the presses `-`, `X`, `5` and Answer give `"Error"` (evaluating `*5` throws). Then `+`, `0`, `.`, `5`, `+`, `0`, `.`, `5` give the well-formed `"Error+0.5+0.5"`. Answer then yields the constructor's source text followed by `0.50.5`, a number with two points. The program's Answer can therefore break the one-point invariant. The error-clear timer only narrows the window in which this can happen, and the model has no timer. The preservation lemmas for Answer hold only for an evaluator that returns well-formed text (`CalculatorScreen.WellBehavedRuntime`). `CalculatorScreen.AnswerCanBreakOneDot` proves the last step with an evaluator that returns just the `0.50.5` tail.
