/** The evaluator of the calculator (`evaluateExpression` and `operate`).
    Tokens are reduced strictly left to right: the first three are replaced by
    the result of applying the operator in the middle to the numbers around
    it, until one value is left. Numbers are exact reals here; a JavaScript
    NaN is the constructor NaN of Num. */
module Evaluator {
  import opened Tokenizer

  const INVALID: string := "#INVALID"
  const DIV_BY_ZERO: string := "#DIV BY 0"

  /** A JavaScript number as the evaluator sees it after parsing. */
  datatype Num = NaN | Real(r: real)

  /** A slot of the evaluator's array: a token string, an error sentinel
      string, or a number computed by an earlier step. */
  datatype JsValue = Str(s: string) | Number(x: real)

  /** A call that returns a value or throws (the evaluator catches it). */
  datatype Outcome = Returned(value: JsValue) | Threw

  // ----- Parsing numbers -----

  /** Length of the run of digits at the start of s. */
  function DigitRun(s: string): (n: nat)
    ensures n <= |s|
  {
    if |s| > 0 && IsDigit(s[0]) then 1 + DigitRun(s[1..]) else 0
  }

  predicate AllDigits(s: string) { forall k :: 0 <= k < |s| ==> IsDigit(s[k]) }

  /** The value of a digit character. */
  function DigitValue(c: char): int {
    c as int - '0' as int
  }

  /** The value of a run of digits read as a whole number. */
  function WholeValue(ds: string): int {
    if ds == [] then 0 else WholeValue(ds[..|ds| - 1]) * 10 + DigitValue(ds[|ds| - 1])
  }

  /** The value of a run of digits read after a decimal point. */
  function FractionValue(ds: string): real {
    if ds == [] then 0.0 else (DigitValue(ds[0]) as real + FractionValue(ds[1..])) / 10.0
  }

  /** The text after an optional leading minus starts a number: a digit, or a
      dot followed by a digit. */
  predicate StartsNumber(body: string) {
    (|body| > 0 && IsDigit(body[0])) || (|body| > 1 && body[0] == '.' && IsDigit(body[1]))
  }

  /** `parseFloat` on the strings the tokenizer can produce: an optional minus,
      then the longest prefix of the form digits, dot, digits; NaN when that
      prefix holds no digit. */
  function ParseFloat(s: string): (n: Num)
    ensures n.Real? <==> StartsNumber(if |s| > 0 && s[0] == '-' then s[1..] else s)
  {
    var negative := |s| > 0 && s[0] == '-';
    var body := if negative then s[1..] else s;
    var whole := DigitRun(body);
    var rest := body[whole..];
    var frac := if |rest| > 0 && rest[0] == '.' then DigitRun(rest[1..]) else 0;
    if whole + frac == 0 then NaN
    else
      var magnitude := WholeValue(body[..whole]) as real
        + (if frac == 0 then 0.0 else FractionValue(rest[1..][..frac]));
      Real(if negative then -magnitude else magnitude)
  }

  /** `parseFloat` on a slot: a number computed earlier parses to itself. */
  function ParseValue(v: JsValue): Num {
    match v
    case Str(s) => ParseFloat(s)
    case Number(x) => Real(x)
  }

  // ----- The arithmetic primitives, exact on reals -----

  function Add(x: Num, y: Num): Num {
    if x.Real? && y.Real? then Real(x.r + y.r) else NaN
  }

  function Subtract(x: Num, y: Num): Num {
    if x.Real? && y.Real? then Real(x.r - y.r) else NaN
  }

  function Multiply(x: Num, y: Num): Num {
    if x.Real? && y.Real? then Real(x.r * y.r) else NaN
  }

  /** A zero divisor gives NaN here; the primitive itself answers with the
      division-by-zero text, which the caller's not-a-number test would treat
      the same way, and the caller never lets a zero divisor reach it. */
  function Divide(x: Num, y: Num): Num {
    if x.Real? && y.Real? && y.r != 0.0 then Real(x.r / y.r) else NaN
  }

  // ----- Operator dispatch -----

  const OPERATORS: set<string> := {"+", "-", "x", "÷"}

  predicate IsOperator(op: JsValue) { op.Str? && op.s in OPERATORS }

  /** The four operators on exact reals: the reference the evaluator is held to. */
  function Apply(op: string, a: real, b: real): real
    requires op in OPERATORS && (op == "÷" ==> b != 0.0)
  {
    if op == "+" then a + b
    else if op == "-" then a - b
    else if op == "x" then a * b
    else a / b
  }

  /** A NaN result becomes the invalid sentinel. */
  function Finish(n: Num): Outcome {
    if n.NaN? then Returned(Str(INVALID)) else Returned(Number(n.r))
  }

  /** `operate`: dispatch on the operator; a zero divisor is caught before
      dividing; an unknown operator throws; NaN becomes `#INVALID`. */
  function Operate(num1: Num, op: JsValue, num2: Num): (r: Outcome)
    ensures r.Threw? <==> !IsOperator(op)
    ensures op == Str("÷") && num2 == Real(0.0) ==> r == Returned(Str(DIV_BY_ZERO))
    ensures IsOperator(op) && !(op == Str("÷") && num2 == Real(0.0)) ==>
      r == Returned(Str(INVALID)) || (num1.Real? && num2.Real? && r.Returned? && r.value.Number?)
    ensures IsOperator(op) && (num1.NaN? || num2.NaN?) && !(op == Str("÷") && num2 == Real(0.0)) ==>
      r == Returned(Str(INVALID))
  {
    if op == Str("+") then Finish(Add(num1, num2))
    else if op == Str("-") then
      assert op.s[0] != '+';
      Finish(Subtract(num1, num2))
    else if op == Str("x") then
      assert op.s[0] != '+' && op.s[0] != '-';
      Finish(Multiply(num1, num2))
    else if op == Str("÷") then
      assert op.s[0] != '+' && op.s[0] != '-' && op.s[0] != 'x';
      if num2 == Real(0.0) then Returned(Str(DIV_BY_ZERO)) else Finish(Divide(num1, num2))
    else Threw
  }

  // ----- The left-to-right reduction -----

  /** The reduction loop from the given array on: while three or more slots
      remain, the first three become one; then exactly one must remain. */
  function Reduce(expr: seq<JsValue>): Outcome
    decreases |expr|
  {
    if |expr| >= 3 then
      match Operate(ParseValue(expr[0]), expr[1], ParseValue(expr[2]))
      case Threw => Threw
      case Returned(res) => Reduce([res] + expr[3..])
    else if |expr| == 1 then Returned(expr[0])
    else Threw
  }

  /** The tokens as slots of the evaluator's array. */
  function Strs(ts: seq<string>): seq<JsValue> {
    seq(|ts|, k requires 0 <= k < |ts| => Str(ts[k]))
  }

  /** What `evaluateExpression` answers for the tokenizer's result. */
  function Evaluate(c: Combined): (v: JsValue)
    ensures c.Invalid? ==> v == Str(INVALID)
    ensures c.Tokens? && |c.tokens| == 1 ==> v == Str(c.tokens[0])
  {
    match c
    case Invalid => Str(INVALID)
    case Tokens(ts) =>
      match Reduce(Strs(ts))
      case Threw => Str(INVALID)
      case Returned(v) => v
  }

  /** `evaluateExpression`. */
  method EvaluateExpression(c: Combined) returns (v: JsValue)
    ensures v == Evaluate(c)
  {
    if c.Invalid? {
      return Str(INVALID);
    }
    var expr := Strs(c.tokens);
    while |expr| >= 3
      invariant Reduce(expr) == Reduce(Strs(c.tokens))
      decreases |expr|
    {
      var res := Operate(ParseValue(expr[0]), expr[1], ParseValue(expr[2]));
      if res.Threw? {
        return Str(INVALID);
      }
      ghost var next := [res.value] + expr[3..];
      expr := expr[2 := res.value];
      expr := expr[1..];
      expr := expr[1..];
      assert expr == next;
    }
    if |expr| != 1 {
      return Str(INVALID);
    }
    v := expr[0];
  }

  // ----- Lemmas -----

  /** The two error sentinels are not numbers. */
  lemma SentinelsParseToNaN()
    ensures ParseFloat(INVALID) == NaN && ParseFloat(DIV_BY_ZERO) == NaN
  {
  }

  /** A run of digits, with or without a minus before it, parses to its value. */
  lemma ParseWhole(ds: string)
    requires |ds| > 0 && AllDigits(ds)
    ensures ParseFloat(ds) == Real(WholeValue(ds) as real)
    ensures ParseFloat("-" + ds) == Real(-(WholeValue(ds) as real))
  {
    assert ("-" + ds)[1..] == ds;
    DigitRunAll(ds);
    assert ds[..|ds|] == ds;
  }

  /** A single digit parses to its value. */
  lemma ParseDigit(c: char)
    requires IsDigit(c)
    ensures ParseFloat([c]) == Real(DigitValue(c) as real)
  {
    ParseWhole([c]);
    assert [c][..0] == [];
  }

  lemma {:induction false} DigitRunAll(ds: string)
    requires AllDigits(ds)
    ensures DigitRun(ds) == |ds|
  {
    if ds != [] {
      DigitRunAll(ds[1..]);
    }
  }

  /** What is left after one more step of the loop. */
  function Then(o: Outcome, op: JsValue, b: JsValue): Outcome {
    match o
    case Threw => Threw
    case Returned(v) => Operate(ParseValue(v), op, ParseValue(b))
  }

  /** The reduction is a left fold: evaluating e followed by one more operator
      and operand applies that operator to the value of e. */
  lemma {:induction false} SnocStep(e: seq<JsValue>, op: JsValue, b: JsValue)
    requires |e| % 2 == 1
    ensures Reduce(e + [op, b]) == Then(Reduce(e), op, b)
    decreases |e|
  {
    var e' := e + [op, b];
    if |e| == 1 {
      match Operate(ParseValue(e[0]), op, ParseValue(b))
      case Threw =>
      case Returned(res) =>
        assert [res] + e'[3..] == [res];
    } else {
      assert e'[0] == e[0] && e'[1] == e[1] && e'[2] == e[2];
      match Operate(ParseValue(e[0]), e[1], ParseValue(e[2]))
      case Threw =>
      case Returned(res) =>
        assert [res] + e'[3..] == ([res] + e[3..]) + [op, b];
        SnocStep([res] + e[3..], op, b);
    }
  }

  /** An even number of tokens, none included, never evaluates. */
  lemma {:induction false} ReduceEven(e: seq<JsValue>)
    requires |e| % 2 == 0
    ensures Reduce(e) == Threw
    decreases |e|
  {
    if |e| >= 3 {
      match Operate(ParseValue(e[0]), e[1], ParseValue(e[2]))
      case Threw =>
      case Returned(res) => ReduceEven([res] + e[3..]);
    }
  }

  lemma EvenCountInvalid(ts: seq<string>)
    requires |ts| % 2 == 0
    ensures Evaluate(Tokens(ts)) == Str(INVALID)
  {
    ReduceEven(Strs(ts));
  }

  /** The results a step can leave in the first slot. */
  predicate IsResult(v: JsValue) {
    v.Number? || v == Str(INVALID) || v == Str(DIV_BY_ZERO)
  }

  predicate IsSentinel(v: JsValue) {
    v == Str(INVALID) || v == Str(DIV_BY_ZERO)
  }

  lemma {:induction false} ReduceResults(e: seq<JsValue>)
    requires |e| >= 3
    ensures Reduce(e).Returned? ==> IsResult(Reduce(e).value)
    decreases |e|
  {
    match Operate(ParseValue(e[0]), e[1], ParseValue(e[2]))
    case Threw =>
    case Returned(res) =>
      if |e| >= 5 {
        ReduceResults([res] + e[3..]);
      }
  }

  /** Once at least one operation is done, the answer is a number or one of
      the two sentinels; a lone token is passed back as it is. */
  lemma EvaluationResults(ts: seq<string>)
    requires |ts| >= 3
    ensures IsResult(Evaluate(Tokens(ts)))
  {
    ReduceResults(Strs(ts));
  }

  /** Every odd slot holds one of the four operators. */
  predicate KnownOperators(ts: seq<string>) {
    forall k :: 0 <= k < |ts| && k % 2 == 1 ==> ts[k] in OPERATORS
  }

  /** Tokens of odd count with known operators never make the evaluator throw. */
  lemma {:induction false} NoThrow(ts: seq<string>)
    requires |ts| % 2 == 1 && KnownOperators(ts)
    ensures Reduce(Strs(ts)).Returned?
    decreases |ts|
  {
    if |ts| >= 3 {
      var p := ts[..|ts| - 2];
      assert KnownOperators(p) by {
        forall k | 0 <= k < |p| && k % 2 == 1 ensures p[k] in OPERATORS {
          assert p[k] == ts[k];
        }
      }
      NoThrow(p);
      ReduceLast(ts);
    }
  }

  /** An odd slot holding anything but the four operators makes the loop
      throw when it reaches that slot, and nothing after it is evaluated. */
  lemma {:induction false} UnknownThrows(ts: seq<string>, k: nat)
    requires |ts| % 2 == 1 && k < |ts| && k % 2 == 1 && ts[k] !in OPERATORS
    ensures Reduce(Strs(ts)) == Threw
    decreases |ts|
  {
    var p := ts[..|ts| - 2];
    ReduceLast(ts);
    if k < |ts| - 2 {
      assert p[k] == ts[k];
      UnknownThrows(p, k);
    }
  }

  /** The thrown error is caught: the answer is `#INVALID`. */
  lemma UnknownInvalid(ts: seq<string>, k: nat)
    requires |ts| % 2 == 1 && k < |ts| && k % 2 == 1 && ts[k] !in OPERATORS
    ensures Evaluate(Tokens(ts)) == Str(INVALID)
  {
    UnknownThrows(ts, k);
  }

  /** The loop over tokens of odd count followed by one more operator and operand. */
  lemma ReduceSnoc(p: seq<string>, op: string, b: string)
    requires |p| % 2 == 1
    ensures Reduce(Strs(p + [op, b])) == Then(Reduce(Strs(p)), Str(op), Str(b))
  {
    assert Strs(p + [op, b]) == Strs(p) + [Str(op), Str(b)];
    SnocStep(Strs(p), Str(op), Str(b));
  }

  /** ReduceSnoc, stated on the last two tokens. */
  lemma ReduceLast(ts: seq<string>)
    requires |ts| >= 3 && |ts| % 2 == 1
    ensures Reduce(Strs(ts)) == Then(Reduce(Strs(ts[..|ts| - 2])), Str(ts[|ts| - 2]), Str(ts[|ts| - 1]))
  {
    assert ts == ts[..|ts| - 2] + [ts[|ts| - 2], ts[|ts| - 1]];
    ReduceSnoc(ts[..|ts| - 2], ts[|ts| - 2], ts[|ts| - 1]);
  }

  /** A division whose right operand parses to zero makes the result
      `#DIV BY 0` when it is the last operation. */
  lemma DivisionByZeroLast(p: seq<string>, z: string)
    requires |p| % 2 == 1 && KnownOperators(p) && ParseFloat(z) == Real(0.0)
    ensures Evaluate(Tokens(p + ["÷", z])) == Str(DIV_BY_ZERO)
  {
    NoThrow(p);
    ReduceSnoc(p, "÷", z);
  }

  /** A sentinel in the first slot parses to NaN: the next operation gives
      `#INVALID`, except a division by zero, which gives `#DIV BY 0` again. */
  lemma SentinelPropagates(p: seq<string>, op: string, b: string)
    requires |p| % 2 == 1 && KnownOperators(p) && IsSentinel(Evaluate(Tokens(p)))
    requires op in OPERATORS
    ensures Evaluate(Tokens(p + [op, b])) ==
      if op == "÷" && ParseFloat(b) == Real(0.0) then Str(DIV_BY_ZERO) else Str(INVALID)
  {
    NoThrow(p);
    ReduceSnoc(p, op, b);
    SentinelsParseToNaN();
  }

  /** Every operand slot (even position) parses to NaN. */
  predicate OperandsNaN(ts: seq<string>) {
    forall k :: 0 <= k < |ts| && k % 2 == 0 ==> ParseFloat(ts[k]) == NaN
  }

  /** With no operand a number, each step is `operate(NaN, op, NaN)`: the
      divisor is never zero, so every step throws or gives `#INVALID`. */
  lemma {:induction false} ReduceNaN(ts: seq<string>)
    requires |ts| >= 3 && |ts| % 2 == 1 && OperandsNaN(ts)
    ensures Reduce(Strs(ts)) == Threw || Reduce(Strs(ts)) == Returned(Str(INVALID))
    decreases |ts|
  {
    var p := ts[..|ts| - 2];
    assert OperandsNaN(p) by {
      forall k | 0 <= k < |p| && k % 2 == 0 ensures ParseFloat(p[k]) == NaN {
        assert p[k] == ts[k];
      }
    }
    if |p| >= 3 {
      ReduceNaN(p);
      SentinelsParseToNaN();
    }
    ReduceLast(ts);
  }

  /** Two or more tokens none of whose operands is a number evaluate to `#INVALID`. */
  lemma NoOperandsInvalid(ts: seq<string>)
    requires |ts| >= 2 && OperandsNaN(ts)
    ensures Evaluate(Tokens(ts)) == Str(INVALID)
  {
    if |ts| % 2 == 0 {
      EvenCountInvalid(ts);
    } else {
      ReduceNaN(ts);
    }
  }

  /** An outcome that ends in one of the sentinels. */
  predicate Stuck(o: Outcome) {
    o.Threw? || IsSentinel(o.value)
  }

  lemma StuckStep(o: Outcome, op: JsValue, b: JsValue)
    requires Stuck(o)
    ensures Stuck(Then(o, op, b))
  {
    SentinelsParseToNaN();
  }

  lemma {:induction false} StuckReduce(ts: seq<string>, n: nat)
    requires n <= |ts| && n % 2 == 1 && |ts| % 2 == 1 && Stuck(Reduce(Strs(ts[..n])))
    ensures Stuck(Reduce(Strs(ts)))
    decreases |ts|
  {
    if |ts| == n {
      assert ts[..n] == ts;
    } else {
      var p := ts[..|ts| - 2];
      assert p[..n] == ts[..n];
      StuckReduce(p, n);
      ReduceLast(ts);
      StuckStep(Reduce(Strs(p)), Str(ts[|ts| - 2]), Str(ts[|ts| - 1]));
    }
  }

  /** Once a sentinel appears, no later operation turns it back into a number:
      whatever operators and operands follow, the answer stays a sentinel. */
  lemma ErrorsAreSticky(p: seq<string>, rest: seq<string>)
    requires |rest| % 2 == 0 && IsSentinel(Evaluate(Tokens(p)))
    ensures IsSentinel(Evaluate(Tokens(p + rest)))
  {
    assert (p + rest)[..|p|] == p;
    StickyAfter(p + rest, |p|);
  }

  lemma StickyAfter(ts: seq<string>, n: nat)
    requires n <= |ts| && (|ts| - n) % 2 == 0 && IsSentinel(Evaluate(Tokens(ts[..n])))
    ensures IsSentinel(Evaluate(Tokens(ts)))
  {
    if n % 2 == 0 {
      EvenCountInvalid(ts);
    } else {
      StickyOdd(ts, n);
    }
  }

  lemma StickyOdd(ts: seq<string>, n: nat)
    requires n <= |ts| && n % 2 == 1 && (|ts| - n) % 2 == 0 && IsSentinel(Evaluate(Tokens(ts[..n])))
    ensures IsSentinel(Evaluate(Tokens(ts)))
  {
      SentinelIsStuck(ts[..n]);
      StuckReduce(ts, n);
      SentinelIsStuck(ts);
  }

  /** The answer is a sentinel exactly when the loop ends stuck. */
  lemma SentinelIsStuck(ts: seq<string>)
    ensures IsSentinel(Evaluate(Tokens(ts))) <==> Stuck(Reduce(Strs(ts)))
  {
  }

  /** Tokens that are numbers separated by known operators, with no zero divisor. */
  predicate IsArithmetic(ts: seq<string>): (b: bool)
    ensures b ==> |ts| % 2 == 1
    decreases |ts|
  {
    if |ts| == 1 then ParseFloat(ts[0]).Real?
    else
      && |ts| >= 3
      && IsArithmetic(ts[..|ts| - 2])
      && ts[|ts| - 2] in OPERATORS
      && ParseFloat(ts[|ts| - 1]).Real?
      && (ts[|ts| - 2] == "÷" ==> ParseFloat(ts[|ts| - 1]).r != 0.0)
  }

  /** The value of such tokens read with every operator grouping to the left:
      `a op b op c` is `(a op b) op c`, with no precedence among operators. */
  function LeftValue(ts: seq<string>): real
    requires IsArithmetic(ts)
    decreases |ts|
  {
    if |ts| == 1 then ParseFloat(ts[0]).r
    else Apply(ts[|ts| - 2], LeftValue(ts[..|ts| - 2]), ParseFloat(ts[|ts| - 1]).r)
  }

  /** One step of the left-grouped value. */
  lemma LeftStep(ts: seq<string>)
    requires IsArithmetic(ts) && |ts| >= 3
    ensures IsArithmetic(ts[..|ts| - 2])
    ensures Operate(Real(LeftValue(ts[..|ts| - 2])), Str(ts[|ts| - 2]), ParseFloat(ts[|ts| - 1]))
      == Returned(Number(LeftValue(ts)))
  {
    var x, op, y := LeftValue(ts[..|ts| - 2]), ts[|ts| - 2], ParseFloat(ts[|ts| - 1]);
    assert LeftValue(ts) == Apply(op, x, y.r);
    OperateApplies(x, op, y);
  }

  /** A known operator on two numbers, no zero divisor, gives the exact result. */
  lemma OperateApplies(x: real, op: string, y: Num)
    requires op in OPERATORS && y.Real? && (op == "÷" ==> y.r != 0.0)
    ensures Operate(Real(x), Str(op), y) == Returned(Number(Apply(op, x, y.r)))
  {
    if op == "+" {
      assert Operate(Real(x), Str(op), y) == Returned(Number(x + y.r));
    } else if op == "-" {
      assert Operate(Real(x), Str(op), y) == Returned(Number(x - y.r));
    } else if op == "x" {
      assert Operate(Real(x), Str(op), y) == Returned(Number(x * y.r));
    } else {
      assert Operate(Real(x), Str(op), y) == Returned(Number(x / y.r));
    }
  }

  /** The next step from a slot that parses to x. */
  lemma ThenFrom(o: Outcome, x: real, op: string, b: string)
    requires o.Returned? && ParseValue(o.value) == Real(x)
    ensures Then(o, Str(op), Str(b)) == Operate(Real(x), Str(op), ParseFloat(b))
  {
  }

  lemma {:induction false} ReduceLeft(ts: seq<string>)
    requires IsArithmetic(ts)
    ensures Reduce(Strs(ts)).Returned?
    ensures ParseValue(Reduce(Strs(ts)).value) == Real(LeftValue(ts))
    ensures |ts| >= 3 ==> Reduce(Strs(ts)).value == Number(LeftValue(ts))
    decreases |ts|
  {
    if |ts| > 1 {
      var p := ts[..|ts| - 2];
      LeftStep(ts);
      ReduceLeft(p);
      ThenFrom(Reduce(Strs(p)), LeftValue(p), ts[|ts| - 2], ts[|ts| - 1]);
      ReduceLast(ts);
    }
  }

  /** On arithmetic tokens the evaluator computes the left-grouped value. */
  lemma LeftToRight(ts: seq<string>)
    requires IsArithmetic(ts) && |ts| >= 3
    ensures Evaluate(Tokens(ts)) == Number(LeftValue(ts))
  {
    ReduceLeft(ts);
  }

  // ----- Worked examples -----

  /** `2+3x4` is `(2+3)x4`: no operator binds tighter than another. */
  lemma NoPrecedence()
    ensures Evaluate(Tokens(["2", "+", "3", "x", "4"])) == Number(20.0)
  {
    var ts := ["2", "+", "3", "x", "4"];
    var p := ts[..3];
    ParseDigit('2');
    ParseDigit('3');
    ParseDigit('4');
    assert p[..1] == ["2"];
    assert IsArithmetic(p) && LeftValue(p) == 5.0;
    assert ts[..3] == p;
    assert IsArithmetic(ts);
    LeftToRight(ts);
  }

  /** `5+-3`: the minus after an operator is a sign, and the sum is 2. */
  lemma AddNegative()
    ensures Evaluate(Combine("5+-3")) == Number(2.0)
  {
    MinusAfterOperator();
    var ts := ["5", "+", "-3"];
    ParseWhole("5");
    ParseWhole("3");
    assert "-" + "3" == "-3";
    assert ts[..1] == ["5"];
    assert IsArithmetic(ts);
    LeftToRight(ts);
  }

  /** `5÷0` shows the division-by-zero sentinel. */
  lemma DivideByZero()
    ensures Evaluate(Tokens(["5", "÷", "0"])) == Str(DIV_BY_ZERO)
  {
    ParseWhole("0");
    assert ["5", "÷", "0"] == ["5"] + ["÷", "0"];
    assert KnownOperators(["5"]);
    DivisionByZeroLast(["5"], "0");
  }

  /** `5÷0+1`: the sentinel is not a number, so the sum is invalid. */
  lemma DivideByZeroThenAdd()
    ensures Evaluate(Tokens(["5", "÷", "0", "+", "1"])) == Str(INVALID)
  {
    DivideByZero();
    var p := ["5", "÷", "0"];
    assert KnownOperators(p);
    assert ["5", "÷", "0", "+", "1"] == p + ["+", "1"];
    SentinelPropagates(p, "+", "1");
  }
}
