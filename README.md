# Calculator core in Dafny

This project models the logic of a browser calculator. The calculator has a
one-line display. Buttons and keys feed it input: digits, `.`, the operators
`+`, `-`, `x` and `÷`, and the commands `(-)`, `CLEAR`, `BACK` and `ENTER`.
On `ENTER`:

1. The display text is split into characters.
2. `combineNumbers` merges runs of digits and dots into number tokens.
   `checkNegative` decides whether a minus is a sign to attach to the number
   after it.
3. `evaluateExpression` folds the tokens strictly from left to right with
   `operate`.

Errors show as the sentinels `#INVALID` and `#DIV BY 0`. A sentinel on the
display is cleared before the next input passed to `updateDisplay` is handled.

The model has three modules, one per concern of `resources/js/calculator.js`:

- `Tokenizer` (`tokenizer.dfy`) holds `combineNumbers` and `checkNegative`.
  - The method `CombineNumbers` keeps the source's two nested loops over a
    token array.
  - It is proved equal to the recursive function `CombineFrom`.
  - The lemmas about `CombineFrom`:
    - the tokens spell the input;
    - every token has the right shape;
    - the sign rule holds in both directions;
    - merging is maximal;
    - an input is rejected exactly when a stretch of digits and dots holds
      two dots after its first character.
- `Evaluator` (`evaluator.dfy`) holds `parseFloat`, `operate` and
  `evaluateExpression`.
  - Numbers are exact reals, and a JavaScript NaN is the constructor `NaN`.
  - The method `EvaluateExpression` keeps the source's shrinking-array loop.
  - It is proved equal to the function `Reduce`.
  - The lemmas about `Reduce`:
    - it is a left fold (`SnocStep`);
    - on numbers it computes the left-grouped value, with no operator
      precedence;
    - sentinels and throws become the documented answers.
- `Calculator` (`calculator.dfy`) holds the display.
  - The class `Display` has a `text` field.
  - Its methods `Clear`, `Back` and `UpdateDisplay` are proved against the
    functions `AfterBack` and `AfterInput`.
  - Lemmas give the display's rules: the length limit, the error auto-clear,
    delete-last and the possible `ENTER` outcomes.

A division by zero does not make the whole expression `#DIV BY 0`:

- the `#DIV BY 0` text becomes the next step's left operand, and
  `parseFloat` reads it as NaN;
- so a following `+`, `-` or `x` gives `#INVALID`, and `5÷0+1` shows
  `#INVALID`;
- a following `÷` whose divisor is zero gives `#DIV BY 0` again.

The lemmas `SentinelPropagates`, `ErrorsAreSticky` and `DivideByZeroThenAdd`
state this behaviour.

`back` does not clear every sentinel:

- the `BACK` button goes through `updateDisplay`, which clears the sentinel
  before `back` runs, so it always shows an empty display;
- the Backspace key calls `back` directly, which wipes only `#INVALID`: it
  turns `#DIV BY 0` into `#DIV BY ` (`BackOnSentinels`).

## Model

| member | source | states |
|---|---|---|
| Tokenizer.SplitSpells | resources/js/calculator.js:71 | Concatenating the one-character strings the display text is split into gives back the text |
| Tokenizer.MinusAfter | resources/js/calculator.js:111-156 | For characters p and d, the tokens of `p-d` are p and the signed number `-d` exactly when d is a digit and p is `+`, `x`, `÷` or `-`; otherwise the three characters stay separate tokens |
| Tokenizer.MinusFirst | resources/js/calculator.js:111-156 | A minus that starts the text becomes the sign of the next character exactly when that character is a digit; otherwise both stay separate tokens |
| Tokenizer.CombineNumbers | resources/js/calculator.js:105-145 | The two nested loops give the result of `CombineFrom(expr, 0)`: either `#INVALID` or the token array produced by step-by-step sign attachment and run merging |
| Tokenizer.TokensSpellInput | resources/js/calculator.js:105-145 | Concatenating the tokens gives back the display text: no character is lost, added or reordered |
| Tokenizer.TokensWellFormed | resources/js/calculator.js:105-156 | Every token is one input character or a number token. A number token is a digit or dot, or a sign and a digit, followed by digits and dots, with at most one dot after its first character. A signed token always has a digit after the sign and stands at the start or after an operator-like token. A lone `-` followed by a digit-led token never stands there. A token holding a digit or a dot is never followed by a token that starts with one |
| Tokenizer.OperatorsStayAlone | resources/js/calculator.js:125-141 | A token holding `+`, `x` or `÷` is exactly that one character: operators are never merged into numbers |
| Tokenizer.InvalidExactlyOnDoubleDot | resources/js/calculator.js:107-141 | The tokenizer answers `#INVALID` if and only if some stretch of consecutive digits and dots holds two dots after its first character; `hasDecimal` starts afresh for each number, so dots in different numbers do not add up |
| Tokenizer.NumeralTextIsOneToken | resources/js/calculator.js:125-141 | Accepted text made only of digits and dots becomes a single token, with at most one dot after its first character |
| Tokenizer.NoNumeralsUntouched | resources/js/calculator.js:107-142 | An array of one-character strings with no digit and no dot comes back unchanged: nothing is merged and no minus becomes a sign |
| Tokenizer.MinusAfterDigit | resources/js/calculator.js:153-156 | In `5-3` the minus follows a digit, so it is subtraction: tokens `5`, `-`, `3` |
| Tokenizer.MinusAfterOperator | resources/js/calculator.js:111-122 | In `5+-3` the minus follows an operator, so it is a sign: tokens `5`, `+`, `-3` |
| Tokenizer.MinusAtStart | resources/js/calculator.js:111-122 | A minus at the start before a digit is a sign: `-5` is one token |
| Tokenizer.SecondDotRejected | resources/js/calculator.js:125-141 | `1.2.3` is rejected as `#INVALID` |
| Tokenizer.LeadingDotNotCounted | resources/js/calculator.js:125-141 | A dot that starts a run is not counted, so `.5.` is accepted as one token |
| Evaluator.ParseFloat | resources/js/calculator.js:167 | A token parses to a number exactly when, after an optional minus, it starts with a digit or with a dot and a digit |
| Evaluator.ParseWhole | resources/js/calculator.js:167 | A digit string parses to its decimal value, and with a minus in front to the negated value |
| Evaluator.SentinelsParseToNaN | resources/js/calculator.js:167 | Both sentinels parse to NaN |
| Evaluator.Operate | resources/js/calculator.js:189-209 | An operator outside `+ - x ÷` throws. `÷` with a zero divisor answers `#DIV BY 0`, even when the dividend is NaN. Otherwise a known operator answers `#INVALID` when either operand is NaN, and `#INVALID` or a number when both are numbers; the exact number is stated by `OperateApplies` |
| Evaluator.OperateApplies | resources/js/calculator.js:189-209 | A known operator on two numbers, with no zero divisor, answers the exact result `Apply(op, x, y)` of that operator |
| Evaluator.Evaluate | resources/js/calculator.js:163-180 | A rejected tokenization answers `#INVALID`. A single token is answered as the token itself, unparsed |
| Evaluator.EvaluateExpression | resources/js/calculator.js:163-180 | The shrinking-array loop answers `Evaluate(c)`, the left-to-right reduction with throws caught as `#INVALID` |
| Evaluator.SnocStep | resources/js/calculator.js:166-171 | Reducing an odd-length array followed by an operator and an operand is `operate` applied to the reduction of the prefix: the loop is a left fold |
| Evaluator.ReduceEven | resources/js/calculator.js:166-174 | An array of even length, including the empty one, always ends in a throw |
| Evaluator.EvenCountInvalid | resources/js/calculator.js:172-178 | An even number of tokens evaluates to `#INVALID` |
| Evaluator.EvaluationResults | resources/js/calculator.js:166-178 | With three or more tokens the answer is a number or one of the two sentinels |
| Evaluator.NoThrow | resources/js/calculator.js:191-207 | With an odd number of tokens and one of the four operators in every odd slot, no step throws |
| Evaluator.UnknownThrows | resources/js/calculator.js:166-171 | With an odd number of tokens, an odd slot holding anything but `+ - x ÷` makes the loop throw through the `default` case of `operate` (lines 205-206), whatever precedes or follows it |
| Evaluator.UnknownInvalid | resources/js/calculator.js:163-180 | Such tokens evaluate to `#INVALID`: the throw is caught |
| Evaluator.DivisionByZeroLast | resources/js/calculator.js:201-202 | For a prefix of odd length whose operator slots all hold one of the four operators, appending `÷` and a token parsing to zero gives `#DIV BY 0`, whatever value the prefix had |
| Evaluator.SentinelPropagates | resources/js/calculator.js:166-171 | For a prefix of odd length whose operator slots all hold one of the four operators and whose answer is a sentinel, the next `+`, `-` or `x` gives `#INVALID`. The next `÷` gives `#DIV BY 0` if its divisor is zero and `#INVALID` otherwise |
| Evaluator.ReduceNaN | resources/js/calculator.js:166-208 | With an odd number of at least three tokens and no operand parsing to a number, the loop throws or ends with `#INVALID`: a NaN divisor is never zero |
| Evaluator.NoOperandsInvalid | resources/js/calculator.js:163-180 | Two or more tokens, none of whose operands parses to a number, evaluate to `#INVALID` |
| Evaluator.ErrorsAreSticky | resources/js/calculator.js:166-178 | Once the answer for a prefix is a sentinel, no continuation with more operator-operand pairs turns it back into a number |
| Evaluator.LeftToRight | resources/js/calculator.js:166-171 | Numbers joined by operators, with no zero divisor, evaluate to the left-grouped value `LeftValue`: each operator applies to the result so far and the next number |
| Evaluator.NoPrecedence | resources/js/calculator.js:166-171 | `2+3x4` evaluates to 20, that is (2+3)x4 |
| Evaluator.AddNegative | resources/js/calculator.js:105-180 | `5+-3` tokenizes with a signed `-3` and evaluates to 2 |
| Evaluator.DivideByZero | resources/js/calculator.js:201-202 | `5÷0` evaluates to `#DIV BY 0` |
| Evaluator.DivideByZeroThenAdd | resources/js/calculator.js:166-171 | `5÷0+1` evaluates to `#INVALID`, because the sentinel is not a number |
| Calculator.AfterBack | resources/js/calculator.js:93-97 | `#INVALID` becomes empty, the empty text stays empty, and any other text loses exactly its last character |
| Calculator.AfterInput | resources/js/calculator.js:55-80 | `CLEAR` empties the display. `(-)` appends a minus to the display, or to the empty display if it showed an error |
| Calculator.Display.Clear | resources/js/calculator.js:85-88 | The display becomes empty |
| Calculator.Display.Back | resources/js/calculator.js:93-97 | The display becomes `AfterBack` of its old text |
| Calculator.Display.UpdateDisplay | resources/js/calculator.js:55-80 | The display becomes `AfterInput` of its old text and the input. The `ENTER` branch runs `Split`, `CombineNumbers` and `EvaluateExpression` |
| Calculator.ErrorAutoClear | resources/js/calculator.js:57-59 | On a display starting with `#`, any input acts as on the empty display |
| Calculator.BoundedAppend | resources/js/calculator.js:75-78 | Input that is not a command is appended while the display holds fewer than 10 characters, and is ignored from 10 on |
| Calculator.AppendKeepsLimit | resources/js/calculator.js:75-78 | Appending input of at most one character never takes a display of at most 10 characters past 10 |
| Calculator.NegateIgnoresLimit | resources/js/calculator.js:61-63 | `(-)` ignores the limit: a full 10-character display grows to 11 |
| Calculator.DigitAfterError | resources/js/calculator.js:57-78 | A digit typed over an error shows just that digit |
| Calculator.BackDeletesLast | resources/js/calculator.js:67-69 | `BACK` on non-empty ordinary text removes exactly its last character |
| Calculator.BackOnSentinels | resources/js/calculator.js:93-97 | `BACK` through `updateDisplay` empties a `#DIV BY 0` display. `back` alone wipes `#INVALID` but turns `#DIV BY 0` into `#DIV BY ` |
| Calculator.EnterOnEmpty | resources/js/calculator.js:70-73 | `ENTER` on the empty display shows `#INVALID` |
| Calculator.EnterOnError | resources/js/calculator.js:57-73 | `ENTER` on an error shows `#INVALID` |
| Calculator.EnterKeepsSingleToken | resources/js/calculator.js:70-73 | `ENTER` on text that tokenizes to one token leaves the display unchanged |
| Calculator.EnterOutcomes | resources/js/calculator.js:57-73 | After `ENTER` on any display, it holds one of: its old text, `#INVALID`, `#DIV BY 0`, or a rendered number |
| Calculator.EnterWithoutOperands | resources/js/calculator.js:70-73 | `ENTER` on a display of two or more characters, none a digit or a dot, shows `#INVALID` |
| Calculator.AddNegativeOnDisplay | resources/js/calculator.js:70-73 | Typing `5+-3` and pressing `ENTER` shows the rendering of 2 |

## Left out

- `enableCalculator` (resources/js/calculator.js:9-48) is left out. It attaches the click and key listeners and enlarges short button labels, which is user-interface wiring. The keys it maps go through `Display.UpdateDisplay`, except two: Backspace calls `Display.Back` and Escape calls `Display.Clear`.
- The page lookups of the display element are left out. The model keeps the display as the `text` field of one `Display` object.
- The display's initial text comes from the page and is not part of this model. The constructor starts it empty.
- The `console.log` of a caught error is left out, because it is output only.
- The arithmetic primitives of `resources/js/math.js` are exact operations on reals. IEEE-754 rounding is left out, and so are overflow to `Infinity` and signed zero.
- Evaluator.Divide: a zero divisor gives NaN instead of the `#DIV BY 0` text. `operate` never lets a zero divisor reach it, and its NaN test would treat the text the same way.
- Evaluator.Divide: the rounding of long quotients to fit 9 characters (`roundFloat`, `MAX_NUM_LEN`) is left out, because it depends on floating-point formatting. So is its failure: for a quotient whose integer part is written with 10 or more characters (such as 1000000000 or -123456789), `toFixed` receives a negative digit count (resources/js/math.js:53) and throws, which `evaluateExpression` answers with `#INVALID`; the model gives the exact quotient. The 10-character display limit keeps such quotients out of reach of the keys.
- Evaluator.ParseFloat covers only the strings the tokenizer can produce. A leading `+`, leading whitespace, exponents and `Infinity` are not handled, and no token can spell them.
- Turning a numeric result into display text is the parameter `render` of `Calculator.AfterInput` and `Calculator.Display.UpdateDisplay`. JavaScript's number-to-string conversion is not modelled.
- Lengths count Dafny characters, not UTF-16 code units. Every character a button or key can produce here is a single code unit.
