/** The calculator display (`updateDisplay`, `clear` and `back`): a line of
    text that button presses and keys edit. Ordinary input is appended up to a
    length limit, `(-)` appends a minus, `CLEAR` empties the line, `BACK`
    removes its last character and `ENTER` replaces it by the value of the
    expression it holds. A line starting with `#` shows an error and is
    emptied before the next input passed to `updateDisplay` is handled. */
module Calculator {
  import opened Tokenizer
  import opened Evaluator

  const MAX_LEN: nat := 10

  /** The display shows one of the error sentinels (any text starting with `#`). */
  predicate ShowsError(d: string) {
    |d| > 0 && d[0] == '#'
  }

  /** The four button labels that are commands rather than text to append. */
  predicate IsCommand(input: string) {
    input == "(-)" || input == "CLEAR" || input == "BACK" || input == "ENTER"
  }

  /** `back`: the invalid sentinel is wiped whole; any other text loses its
      last character, and the empty text stays empty. */
  function AfterBack(d: string): (r: string)
    ensures d == INVALID ==> r == ""
    ensures d != INVALID && d != "" ==> r + [d[|d| - 1]] == d
    ensures d == "" ==> r == ""
  {
    if d == INVALID then "" else if d == "" then "" else d[..|d| - 1]
  }

  /** The text shown for the evaluator's answer; how a number is written out
      is a parameter of the model. */
  function Render(v: JsValue, render: real -> string): string {
    match v
    case Str(s) => s
    case Number(x) => render(x)
  }

  /** The text after `updateDisplay(input)` on display text d. */
  function AfterInput(d: string, input: string, render: real -> string): (r: string)
    ensures input == "CLEAR" ==> r == ""
    ensures input == "(-)" ==> r == (if ShowsError(d) then "" else d) + "-"
  {
    var d0 := if ShowsError(d) then "" else d;
    if input == "(-)" then d0 + "-"
    else if input == "CLEAR" then ""
    else if input == "BACK" then AfterBack(d0)
    else if input == "ENTER" then Render(Evaluate(Combine(d0)), render)
    else if |d0| < MAX_LEN then d0 + input
    else d0
  }

  /** The calculator's display element. */
  class Display {
    var text: string

    constructor ()
      ensures text == ""
    {
      text := "";
    }

    /** `clear`. */
    method Clear()
      modifies this
      ensures text == ""
    {
      text := "";
    }

    /** `back`, also bound to the Backspace key. */
    method Back()
      modifies this
      ensures text == AfterBack(old(text))
    {
      if text == INVALID {
        text := "";
      } else if text == "" {
        text := "";
      } else {
        text := text[..|text| - 1];
      }
    }

    /** `updateDisplay`: a button press or a key. */
    method UpdateDisplay(input: string, render: real -> string)
      modifies this
      ensures text == AfterInput(old(text), input, render)
    {
      if |text| > 0 && text[0] == '#' {
        Clear();
      }
      if input == "(-)" {
        text := text + "-";
      } else if input == "CLEAR" {
        Clear();
      } else if input == "BACK" {
        Back();
      } else if input == "ENTER" {
        var parts := Split(text);
        var expr := CombineNumbers(parts);
        var value := EvaluateExpression(expr);
        text := Render(value, render);
      } else if |text| < MAX_LEN {
        text := text + input;
      }
    }
  }

  // ----- Lemmas -----

  /** Whatever the input, an error on the display is cleared first: the
      result is what the same input does on an empty display. */
  lemma ErrorAutoClear(d: string, input: string, render: real -> string)
    requires ShowsError(d)
    ensures AfterInput(d, input, render) == AfterInput("", input, render)
  {
  }

  /** Ordinary input is appended while the display holds fewer than ten
      characters and ignored once it holds ten or more. */
  lemma BoundedAppend(d: string, input: string, render: real -> string)
    requires !IsCommand(input) && !ShowsError(d)
    ensures |d| < MAX_LEN ==> AfterInput(d, input, render) == d + input
    ensures |d| >= MAX_LEN ==> AfterInput(d, input, render) == d
  {
  }

  /** Appending one character at a time never takes the display past ten
      characters; `(-)`, `BACK`, `CLEAR` and `ENTER` are not counted here. */
  lemma AppendKeepsLimit(d: string, input: string, render: real -> string)
    requires !IsCommand(input) && |input| <= 1 && |d| <= MAX_LEN
    ensures |AfterInput(d, input, render)| <= MAX_LEN
  {
  }

  /** `(-)` appends without looking at the limit: a full display grows to
      eleven characters. */
  lemma NegateIgnoresLimit(render: real -> string)
    ensures |AfterInput("1234567890", "(-)", render)| == MAX_LEN + 1
  {
  }

  /** A digit typed over an error starts a fresh expression. */
  lemma DigitAfterError(d: string, c: char, render: real -> string)
    requires ShowsError(d) && IsDigit(c)
    ensures AfterInput(d, [c], render) == [c]
  {
  }

  /** `BACK` removes exactly the last character of ordinary text. */
  lemma BackDeletesLast(d: string, render: real -> string)
    requires !ShowsError(d) && d != ""
    ensures AfterInput(d, "BACK", render) + [d[|d| - 1]] == d
  {
  }

  /** Through `updateDisplay`, `BACK` on any error shows an empty display;
      the Backspace key calls `back` directly, which wipes only `#INVALID`
      and merely shortens `#DIV BY 0`. */
  lemma BackOnSentinels(render: real -> string)
    ensures AfterInput(DIV_BY_ZERO, "BACK", render) == ""
    ensures AfterBack(INVALID) == ""
    ensures AfterBack(DIV_BY_ZERO) == "#DIV BY "
  {
  }

  /** An empty expression is invalid. */
  lemma EnterOnEmpty(render: real -> string)
    ensures AfterInput("", "ENTER", render) == INVALID
  {
    assert Split("") == [];
    EvenCountInvalid([]);
  }

  /** `ENTER` on an error shows `#INVALID`: the error is cleared first. */
  lemma EnterOnError(d: string, render: real -> string)
    requires ShowsError(d)
    ensures AfterInput(d, "ENTER", render) == INVALID
  {
    EnterOnEmpty(render);
  }

  /** A display that tokenizes to a single token is shown again unchanged
      by `ENTER`: the token is returned without being parsed. */
  lemma EnterKeepsSingleToken(d: string, render: real -> string)
    requires !ShowsError(d) && Combine(d).Tokens? && |Combine(d).tokens| == 1
    ensures AfterInput(d, "ENTER", render) == d
  {
    var t := Combine(d).tokens[0];
    TokensSpellInput(d);
    assert Combine(d).tokens[1..] == [];
    assert Concat(Combine(d).tokens) == t + Concat([]);
  }

  /** What `ENTER` can show: the display itself (a single token), one of the
      two sentinels, or a rendered number. */
  lemma EnterOutcomes(d: string, render: real -> string)
    ensures var r := AfterInput(d, "ENTER", render);
      || r == d
      || r == INVALID
      || r == DIV_BY_ZERO
      || exists x :: r == render(x)
  {
    var c := Combine(d);
    if ShowsError(d) {
      EnterOnError(d, render);
    } else if c.Tokens? {
      var ts := c.tokens;
      if |ts| == 1 {
        EnterKeepsSingleToken(d, render);
      } else if |ts| % 2 == 0 {
        EvenCountInvalid(ts);
      } else {
        EvaluationResults(ts);
        var v := Evaluate(c);
        if v.Number? {
          assert AfterInput(d, "ENTER", render) == render(v.x);
        }
      }
    }
  }

  /** A display of two or more characters with no digit and no dot has no
      operand: `ENTER` shows `#INVALID`. */
  lemma EnterWithoutOperands(d: string, render: real -> string)
    requires |d| >= 2 && forall k :: 0 <= k < |d| ==> !IsNumeral(d[k])
    ensures AfterInput(d, "ENTER", render) == INVALID
  {
    if ShowsError(d) {
      EnterOnError(d, render);
    } else {
      var e := Split(d);
      NoNumeralsUntouched(e, 0);
      forall k | 0 <= k < |e| ensures ParseFloat(e[k]) == NaN {
        assert e[k] == [d[k]];
        assert e[k][0] == '-' ==> e[k][1..] == [];
      }
      NoOperandsInvalid(e);
    }
  }

  /** Typing `5+-3` and `ENTER` shows 2. */
  lemma AddNegativeOnDisplay(render: real -> string)
    ensures AfterInput("5+-3", "ENTER", render) == render(2.0)
  {
    assert !ShowsError("5+-3");
    assert AfterInput("5+-3", "ENTER", render) == Render(Evaluate(Combine("5+-3")), render);
    AddNegative();
  }
}
