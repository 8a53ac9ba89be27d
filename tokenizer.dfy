/** The tokenizer of the calculator (`combineNumbers` and `checkNegative`).
    The display text arrives split into one-character strings; the tokenizer
    merges runs of digits and dots into number tokens, attaches a minus sign to
    the number after it when the minus cannot be a subtraction, and gives up
    with the invalid-expression sentinel when a number would take a second
    decimal point. Every other character stays a token of its own. */
module Tokenizer {

  datatype Option<T> = None | Some(value: T)

  /** The tokenizer's answer: the token array, or the `#INVALID` text. */
  datatype Combined = Tokens(tokens: seq<string>) | Invalid

  // ----- Character classes (the regular expressions of the source) -----

  predicate IsDigit(c: char) { '0' <= c <= '9' }

  predicate IsNumeral(c: char) { IsDigit(c) || c == '.' }

  /** The string holds a decimal digit somewhere. */
  predicate HasDigit(s: string) { exists k :: 0 <= k < |s| && IsDigit(s[k]) }

  /** The string holds a digit or a dot somewhere. The two patterns the merge
      loop tests (one with an optional leading minus) accept exactly these. */
  predicate HasNumeral(s: string) { exists k :: 0 <= k < |s| && IsNumeral(s[k]) }

  /** The pattern for "the token before a minus is an operator": it holds a
      plus, an `x` or a division sign, or it ends in a minus. */
  predicate IsOperatorLike(s: string) {
    '+' in s || 'x' in s || '÷' in s || (|s| > 0 && s[|s| - 1] == '-')
  }

  /** `checkNegative` over its three-slot slice: the token before the minus
      (absent at the start of the expression), the minus, the token after it. */
  function CheckNegative(prev: Option<string>, minus: string, next: string): bool {
    HasDigit(next) && minus == "-" && (prev.None? || IsOperatorLike(prev.value))
  }

  // ----- The token array -----

  /** Splitting the display text into one-character strings. */
  function Split(s: string): seq<string> {
    seq(|s|, k requires 0 <= k < |s| => [s[k]])
  }

  /** The text spelled by a token array. */
  function Concat(ts: seq<string>): string {
    if ts == [] then "" else ts[0] + Concat(ts[1..])
  }

  /** Slot i takes slot i + 1 appended to it, and slot i + 1 disappears
      (the source writes the slot, nulls the other and filters the nulls out). */
  function Merge(e: seq<string>, i: nat): seq<string>
    requires i + 1 < |e|
  {
    e[..i] + [e[i] + e[i + 1]] + e[i + 2..]
  }

  /** The sign step at position i: a minus classified as a sign is merged into
      the token after it. */
  function AttachSign(e: seq<string>, i: nat): seq<string>
    requires i + 1 < |e|
  {
    var prev := if i == 0 then None else Some(e[i - 1]);
    if e[i] == "-" && CheckNegative(prev, e[i], e[i + 1]) then Merge(e, i) else e
  }

  /** The inner loop at position i: while the token at i holds a digit or a dot
      and the next token does too, merge; a second merged dot is fatal. */
  function MergeRun(e: seq<string>, i: nat, hasDecimal: bool): (r: Combined)
    requires i < |e|
    ensures r.Tokens? ==> i < |r.tokens| <= |e|
    decreases |e|
  {
    if HasNumeral(e[i]) && i + 1 < |e| && HasNumeral(e[i + 1]) then
      if e[i + 1] == "." && hasDecimal then Invalid
      else MergeRun(Merge(e, i), i, hasDecimal || e[i + 1] == ".")
    else Tokens(e)
  }

  /** The outer loop from position i on; the bound is re-measured after every
      step, and the last slot is never a starting position. */
  function CombineFrom(e: seq<string>, i: nat): Combined
    decreases |e| - i
  {
    if i + 1 < |e| then
      match MergeRun(AttachSign(e, i), i, false)
      case Invalid => Invalid
      case Tokens(e') => CombineFrom(e', i + 1)
    else Tokens(e)
  }

  /** Tokenizing the display text. */
  function Combine(s: string): Combined {
    CombineFrom(Split(s), 0)
  }

  /** `combineNumbers`, run on the split display text. */
  method CombineNumbers(expr: seq<string>) returns (r: Combined)
    ensures r == CombineFrom(expr, 0)
  {
    var newExpr := expr;
    var i := 0;
    while i + 1 < |newExpr|
      invariant CombineFrom(newExpr, i) == CombineFrom(expr, 0)
      decreases |newExpr| - i
    {
      ghost var before := newExpr;
      var j := i + 1;
      var hasDecimal, isNegative := false, false;
      if newExpr[i] == "-" {
        isNegative := if i == 0 then CheckNegative(None, newExpr[0], newExpr[1])
                      else CheckNegative(Some(newExpr[i - 1]), newExpr[i], newExpr[i + 1]);
        if isNegative {
          newExpr := newExpr[..i] + [newExpr[i] + newExpr[i + 1]] + newExpr[i + 2..];
        }
      }
      ghost var attached := newExpr;
      assert attached == AttachSign(before, i);
      while HasNumeral(newExpr[i]) && j < |newExpr| && HasNumeral(newExpr[j])
        invariant j == i + 1 && i < |newExpr|
        invariant MergeRun(newExpr, i, hasDecimal) == MergeRun(attached, i, false)
        decreases |newExpr|
      {
        ghost var e0, hd0 := newExpr, hasDecimal;
        if newExpr[j] == "." {
          if hasDecimal {
            return Invalid;
          }
          hasDecimal := true;
        }
        newExpr := newExpr[..i] + [newExpr[i] + newExpr[j]] + newExpr[j + 1..];
        assert MergeRun(e0, i, hd0) == MergeRun(newExpr, i, hasDecimal);
      }
      assert MergeRun(newExpr, i, hasDecimal) == Tokens(newExpr);
      assert CombineFrom(before, i) == CombineFrom(newExpr, i + 1);
      i := i + 1;
    }
    r := Tokens(newExpr);
  }

  // ----- What a tokenization looks like -----

  /** A merged number: a digit or a dot, or a minus and a digit, followed by
      digits and dots, with at most one dot after the first character. */
  predicate IsNumberToken(t: string) {
    && |t| >= 2
    && (IsNumeral(t[0]) || (t[0] == '-' && IsDigit(t[1])))
    && (forall k :: 1 <= k < |t| ==> IsNumeral(t[k]))
    && multiset(t[1..])['.'] <= 1
  }

  /** Every token is one input character or a merged number. */
  predicate IsWellShaped(t: string) { |t| == 1 || IsNumberToken(t) }

  predicate IsSigned(t: string) { |t| >= 2 && t[0] == '-' }

  /** A minus followed by a digit becomes a sign exactly when it starts the
      expression or follows an operator-like token. */
  predicate SignRule(ts: seq<string>, k: nat)
    requires k < |ts|
  {
    var afterOperator := k == 0 || IsOperatorLike(ts[k - 1]);
    && (IsSigned(ts[k]) ==> IsDigit(ts[k][1]) && afterOperator)
    && (ts[k] == "-" && k + 1 < |ts| && |ts[k + 1]| > 0 && IsDigit(ts[k + 1][0]) ==> !afterOperator)
  }

  /** Merging is maximal: a token holding a digit or a dot is never followed
      by a token that starts with a digit or a dot. */
  predicate MunchOk(t: string, next: string) {
    HasNumeral(t) ==> |next| > 0 && !IsNumeral(next[0])
  }

  predicate WellTokenized(ts: seq<string>) {
    && (forall k :: 0 <= k < |ts| ==> IsWellShaped(ts[k]))
    && (forall k :: 0 <= k < |ts| ==> SignRule(ts, k))
    && (forall k :: 0 <= k < |ts| - 1 ==> MunchOk(ts[k], ts[k + 1]))
  }

  /** s[lo..hi] is a stretch of consecutive digits and dots. */
  predicate IsRun(s: string, lo: nat, hi: nat) {
    lo < hi <= |s| && forall k :: lo <= k < hi ==> IsNumeral(s[k])
  }

  /** Some stretch of digits and dots holds two dots after its first
      character: the number it lies in would take a second decimal point. */
  predicate HasDoubleDotRun(s: string) {
    exists lo: nat, hi: nat :: lo < hi <= |s| && IsRun(s, lo, hi) && multiset(s[lo + 1..hi])['.'] >= 2
  }

  // ----- Proof state of the loops -----

  /** Slots from `from` on still hold single input characters. */
  predicate Unscanned(e: seq<string>, from: nat) {
    forall k :: from <= k < |e| ==> |e[k]| == 1
  }

  /** The token being built by the inner loop: one character not yet extended,
      or a number whose dot after the first character is what hasDecimal records. */
  predicate Building(t: string, hasDecimal: bool) {
    || (|t| == 1 && !hasDecimal)
    || (IsNumberToken(t) && (hasDecimal <==> '.' in t[1..]))
  }

  /** The outer loop's invariant at starting position i. */
  predicate Processed(e: seq<string>, i: nat) {
    && i <= |e|
    && (forall k :: 0 <= k < i ==> IsWellShaped(e[k]))
    && Unscanned(e, i)
    && (forall k :: 0 <= k < i ==> SignRule(e, k))
    && (forall k :: 0 <= k < i && k + 1 < |e| ==> MunchOk(e[k], e[k + 1]))
  }

  // ----- Lemmas -----

  lemma {:induction false} ConcatSplit(e: seq<string>, i: nat)
    requires i <= |e|
    ensures Concat(e) == Concat(e[..i]) + Concat(e[i..])
  {
    if i == 0 {
      assert e[..0] == [] && e[0..] == e;
    } else {
      ConcatSplit(e[1..], i - 1);
      assert e[1..][..i - 1] == e[..i][1..];
      assert e[1..][i - 1..] == e[i..];
    }
  }

  lemma ConcatAt(e: seq<string>, i: nat)
    requires i < |e|
    ensures Concat(e[i..]) == e[i] + Concat(e[i + 1..])
  {
    assert e[i..][1..] == e[i + 1..];
  }

  lemma ConcatAroundPair(e: seq<string>, i: nat)
    requires i + 1 < |e|
    ensures Concat(e) == Concat(e[..i]) + (e[i] + e[i + 1]) + Concat(e[i + 2..])
  {
    ConcatSplit(e, i);
    ConcatAt(e, i);
    ConcatAt(e, i + 1);
  }

  lemma ConcatAroundMerge(e: seq<string>, i: nat)
    requires i + 1 < |e|
    ensures Concat(Merge(e, i)) == Concat(e[..i]) + (e[i] + e[i + 1]) + Concat(e[i + 2..])
  {
    var m := Merge(e, i);
    ConcatSplit(m, i);
    ConcatAt(m, i);
    assert m[..i] == e[..i];
    assert m[i + 1..] == e[i + 2..];
  }

  /** Merging two slots leaves the spelled text as it was. */
  lemma ConcatAround(e: seq<string>, i: nat)
    requires i + 1 < |e|
    ensures Concat(e) == Concat(e[..i]) + (e[i] + e[i + 1]) + Concat(e[i + 2..])
    ensures Concat(Merge(e, i)) == Concat(e)
  {
    ConcatAroundPair(e, i);
    ConcatAroundMerge(e, i);
  }

  lemma {:induction false} SplitSpells(s: string)
    ensures Concat(Split(s)) == s
  {
    if s != [] {
      assert Split(s)[1..] == Split(s[1..]);
      SplitSpells(s[1..]);
      assert s == [s[0]] + s[1..];
    }
  }

  lemma SingleNumeral(s: string)
    requires |s| == 1
    ensures HasNumeral(s) <==> IsNumeral(s[0])
    ensures HasDigit(s) <==> IsDigit(s[0])
  {
  }

  /** The inner loop leaves the spelled text as it was. */
  lemma {:induction false} MergeRunText(e: seq<string>, i: nat, hasDecimal: bool)
    requires i < |e|
    ensures MergeRun(e, i, hasDecimal).Tokens? ==> Concat(MergeRun(e, i, hasDecimal).tokens) == Concat(e)
    decreases |e|
  {
    if HasNumeral(e[i]) && i + 1 < |e| && HasNumeral(e[i + 1]) && !(e[i + 1] == "." && hasDecimal) {
      ConcatAround(e, i);
      MergeRunText(Merge(e, i), i, hasDecimal || e[i + 1] == ".");
    }
  }

  /** A number holding a dot after its first character, followed by one more
      dot, is a stretch of digits and dots with two dots after its first
      character (after the sign, when it has one). */
  lemma DoubleDotWitness(a: string, t: string, b: string)
    requires IsNumberToken(t) && '.' in t[1..]
    ensures HasDoubleDotRun(a + (t + ".") + b)
  {
    var s := a + (t + ".") + b;
    var u := t + ".";
    var first := if t[0] == '-' then 1 else 0;
    var lo, hi := |a| + first, |a| + |u|;
    forall k | lo <= k < hi ensures IsNumeral(s[k]) {
      assert s[k] == u[k - |a|];
    }
    assert s[lo + 1..hi] == t[first + 1..] + ".";
    var j :| 0 <= j < |t[1..]| && t[1..][j] == '.';
    assert first == 1 ==> t[1..][0] != '.';
    assert t[first + 1..][j - first] == '.';
    assert multiset(t[first + 1..] + ".") == multiset(t[first + 1..]) + multiset{'.'};
    assert IsRun(s, lo, hi);
  }

  /** The inner loop gives up only on a second dot inside one stretch of
      digits and dots. */
  lemma {:induction false} MergeRunInvalid(e: seq<string>, i: nat, hasDecimal: bool)
    requires i < |e| && Building(e[i], hasDecimal) && Unscanned(e, i + 1)
    ensures MergeRun(e, i, hasDecimal).Invalid? ==> HasDoubleDotRun(Concat(e))
    decreases |e|
  {
    if HasNumeral(e[i]) && i + 1 < |e| && HasNumeral(e[i + 1]) {
      ConcatAround(e, i);
      if e[i + 1] == "." && hasDecimal {
        DoubleDotWitness(Concat(e[..i]), e[i], Concat(e[i + 2..]));
      } else {
        var hd' := hasDecimal || e[i + 1] == ".";
        MergeStepBuilding(e, i, hasDecimal);
        MergeRunInvalid(Merge(e, i), i, hd');
      }
    }
  }

  /** One merge of the inner loop keeps the token under construction well built. */
  lemma MergeStepBuilding(e: seq<string>, i: nat, hasDecimal: bool)
    requires i < |e| && Building(e[i], hasDecimal) && Unscanned(e, i + 1)
    requires HasNumeral(e[i]) && i + 1 < |e| && HasNumeral(e[i + 1])
    requires !(e[i + 1] == "." && hasDecimal)
    ensures Building(Merge(e, i)[i], hasDecimal || e[i + 1] == ".")
    ensures Unscanned(Merge(e, i), i + 1)
    ensures Merge(e, i)[..i] == e[..i]
    ensures e[i] <= Merge(e, i)[i]
  {
    SingleNumeral(e[i + 1]);
    var c := e[i + 1][0];
    var e' := Merge(e, i);
    var t := e[i] + e[i + 1];
    assert e'[i] == t;
    assert e[i + 1] == [c];
    if |e[i]| == 1 {
      SingleNumeral(e[i]);
      assert t[1..] == [c];
      assert IsNumberToken(t);
    } else {
      assert t[1..] == e[i][1..] + [c];
      assert multiset(t[1..]) == multiset(e[i][1..]) + multiset([c]);
      assert IsNumberToken(t);
    }
    forall k | i + 1 <= k < |e'| ensures |e'[k]| == 1 {
      assert e'[k] == e[k + 1];
    }
    assert e'[..i] == e[..i];
  }

  /** What one run of the inner loop does to the array. */
  lemma {:induction false} MergeRunShape(e: seq<string>, i: nat, hasDecimal: bool)
    requires i < |e| && Building(e[i], hasDecimal) && Unscanned(e, i + 1)
    ensures MergeRun(e, i, hasDecimal).Tokens? ==>
      var r := MergeRun(e, i, hasDecimal).tokens;
      && r[..i] == e[..i]
      && e[i] <= r[i]
      && IsWellShaped(r[i])
      && (!HasNumeral(e[i]) ==> r == e)
      && Unscanned(r, i + 1)
      && !(HasNumeral(r[i]) && i + 1 < |r| && HasNumeral(r[i + 1]))
    decreases |e|
  {
    if HasNumeral(e[i]) && i + 1 < |e| && HasNumeral(e[i + 1]) {
      if !(e[i + 1] == "." && hasDecimal) {
        var e' := Merge(e, i);
        MergeStepBuilding(e, i, hasDecimal);
        MergeRunShape(e', i, hasDecimal || e[i + 1] == ".");
      }
    } else if HasNumeral(e[i]) && |e[i]| == 1 {
      SingleNumeral(e[i]);
    }
  }

  /** The sign step at i: what it builds and what it leaves alone. */
  lemma AttachSignFacts(e: seq<string>, i: nat)
    requires Processed(e, i) && i + 1 < |e|
    ensures var e1 := AttachSign(e, i);
      && Building(e1[i], false)
      && Unscanned(e1, i + 1)
      && e1[..i] == e[..i]
      && e[i] <= e1[i]
      && (e1 != e ==> e1[i] == "-" + e[i + 1] && IsDigit(e[i + 1][0]) && (i == 0 || IsOperatorLike(e[i - 1])))
      && (e1 == e && e[i] == "-" ==> !(IsDigit(e[i + 1][0]) && (i == 0 || IsOperatorLike(e[i - 1]))))
  {
    var e1 := AttachSign(e, i);
    SingleNumeral(e[i + 1]);
    if e1 != e {
      assert e1[i] == e[i] + e[i + 1] == "-" + e[i + 1];
      assert e1[i][1..] == e[i + 1];
      assert IsNumberToken(e1[i]);
      forall k | i + 1 <= k < |e1| ensures |e1[k]| == 1 {
        assert e1[k] == e[k + 1];
      }
    }
  }

  /** One pass of the outer loop keeps the spelled text, and gives up only on
      a stretch of digits and dots with two dots after its first character. */
  lemma CombineStepText(e: seq<string>, i: nat)
    requires Processed(e, i) && i + 1 < |e|
    ensures match MergeRun(AttachSign(e, i), i, false)
      case Invalid => HasDoubleDotRun(Concat(e))
      case Tokens(r) => Concat(r) == Concat(e)
  {
    var e1 := AttachSign(e, i);
    AttachSignFacts(e, i);
    if e1 != e {
      ConcatAround(e, i);
    }
    MergeRunText(e1, i, false);
    MergeRunInvalid(e1, i, false);
  }

  /** One pass of the outer loop keeps its invariant. */
  lemma CombineStepShape(e: seq<string>, i: nat)
    requires Processed(e, i) && i + 1 < |e|
    ensures MergeRun(AttachSign(e, i), i, false).Tokens? ==>
      Processed(MergeRun(AttachSign(e, i), i, false).tokens, i + 1)
  {
    var e1 := AttachSign(e, i);
    AttachSignFacts(e, i);
    MergeRunShape(e1, i, false);
    if MergeRun(e1, i, false).Tokens? {
      var r := MergeRun(e1, i, false).tokens;
      assert r[..i] == e[..i];
      assert r[i][0] == e[i][0];
      StepShaped(e, r, i);
      StepSigns(e, e1, r, i);
      StepMunch(e, r, i);
    }
  }

  lemma StepShaped(e: seq<string>, r: seq<string>, i: nat)
    requires Processed(e, i) && i < |r| && r[..i] == e[..i] && IsWellShaped(r[i])
    ensures forall k :: 0 <= k < i + 1 ==> IsWellShaped(r[k])
  {
    forall k | 0 <= k < i + 1 ensures IsWellShaped(r[k]) {
      if k < i { assert r[k] == e[k]; }
    }
  }

  lemma StepSigns(e: seq<string>, e1: seq<string>, r: seq<string>, i: nat)
    requires Processed(e, i) && i + 1 < |e| && e1 == AttachSign(e, i)
    requires i < |r| && r[..i] == e[..i] && e1[i] <= r[i] && |e[i]| == 1 && r[i][0] == e[i][0]
    requires Unscanned(r, i + 1)
    requires e1 != e ==> e1[i] == "-" + e[i + 1] && IsDigit(e[i + 1][0]) && (i == 0 || IsOperatorLike(e[i - 1]))
    requires e1 == e && e[i] == "-" ==> !(IsDigit(e[i + 1][0]) && (i == 0 || IsOperatorLike(e[i - 1]))) && r == e
    ensures forall k :: 0 <= k < i + 1 ==> SignRule(r, k)
  {
    forall k | 0 <= k < i + 1
      ensures SignRule(r, k)
    {
      if k + 1 < i {
        assert r[k] == e[k] && r[k + 1] == e[k + 1];
        if k > 0 { assert r[k - 1] == e[k - 1]; }
        assert SignRule(e, k);
      } else if k + 1 == i {
        assert r[k] == e[k];
        if k > 0 { assert r[k - 1] == e[k - 1]; }
        assert SignRule(e, k);
      } else {
        if i > 0 { assert r[i - 1] == e[i - 1]; }
        if e1 != e {
          assert IsSigned(r[i]) && r[i][1] == e1[i][1];
        } else if e[i] == "-" {
          assert r == e;
        } else {
          assert r[i][0] != '-';
        }
      }
    }
  }

  lemma StepMunch(e: seq<string>, r: seq<string>, i: nat)
    requires Processed(e, i) && i + 1 < |e|
    requires i < |r| && r[..i] == e[..i] && |r[i]| > 0 && r[i][0] == e[i][0]
    requires Unscanned(r, i + 1)
    requires !(HasNumeral(r[i]) && i + 1 < |r| && HasNumeral(r[i + 1]))
    ensures forall k :: 0 <= k < i + 1 && k + 1 < |r| ==> MunchOk(r[k], r[k + 1])
  {
    forall k | 0 <= k < i + 1 && k + 1 < |r|
      ensures MunchOk(r[k], r[k + 1])
    {
      if k + 1 < i {
        assert r[k] == e[k] && r[k + 1] == e[k + 1];
      } else if k + 1 == i {
        assert r[k] == e[k];
        assert MunchOk(e[k], e[k + 1]);
      } else {
        SingleNumeral(r[i + 1]);
      }
    }
  }

  lemma {:induction false} CombineFromFacts(e: seq<string>, i: nat)
    requires Processed(e, i)
    ensures match CombineFrom(e, i)
      case Invalid => HasDoubleDotRun(Concat(e))
      case Tokens(r) => WellTokenized(r) && Concat(r) == Concat(e)
    decreases |e| - i
  {
    if i + 1 < |e| {
      CombineStepText(e, i);
      CombineStepShape(e, i);
      match MergeRun(AttachSign(e, i), i, false)
      case Invalid =>
      case Tokens(e') => CombineFromFacts(e', i + 1);
    } else {
      forall k | 0 <= k < |e| ensures IsWellShaped(e[k]) && SignRule(e, k) {
        if k >= i { assert |e[k]| == 1; }
      }
    }
  }

  lemma InputProcessed(s: string)
    ensures Processed(Split(s), 0)
  {
  }

  /** Concatenating the tokens gives back the display text, character for character. */
  lemma TokensSpellInput(s: string)
    ensures Combine(s).Tokens? ==> Concat(Combine(s).tokens) == s
  {
    InputProcessed(s);
    CombineFromFacts(Split(s), 0);
    SplitSpells(s);
  }

  /** Every token is one character or a number with at most one dot after its
      first character; signs obey the minus rule in both directions; merging of
      digit and dot runs is maximal. */
  lemma TokensWellFormed(s: string)
    ensures Combine(s).Tokens? ==> WellTokenized(Combine(s).tokens)
  {
    InputProcessed(s);
    CombineFromFacts(Split(s), 0);
  }

  /** An operator character never becomes part of a longer token. */
  lemma OperatorsStayAlone(s: string, k: nat, c: char)
    requires Combine(s).Tokens? && k < |Combine(s).tokens|
    requires c in Combine(s).tokens[k] && (c == '+' || c == 'x' || c == '÷')
    ensures Combine(s).tokens[k] == [c]
  {
    TokensWellFormed(s);
    var t := Combine(s).tokens[k];
    assert IsWellShaped(t);
    assert !IsNumberToken(t) by {
      var i :| 0 <= i < |t| && t[i] == c;
      assert !IsNumeral(t[i]) && t[i] != '-';
    }
  }

  /** In a spelling of numeral-only text by tokens of at least one
      character, a token holding a numeral is followed by another numeral. */
  lemma NumeralsFollow(ts: seq<string>, s: string)
    requires Concat(ts) == s && forall k :: 0 <= k < |s| ==> IsNumeral(s[k])
    requires forall k :: 0 <= k < |ts| ==> IsWellShaped(ts[k])
    ensures |ts| >= 2 ==> !MunchOk(ts[0], ts[1])
  {
    if |ts| >= 2 {
      var rest := ts[1..];
      assert Concat(ts) == ts[0] + Concat(rest);
      assert Concat(rest) == rest[0] + Concat(rest[1..]);
      assert IsWellShaped(ts[0]) && IsWellShaped(ts[1]);
      assert ts[0][0] == s[0];
      assert ts[1][0] == s[|ts[0]|];
    }
  }

  /** Text made only of digits and dots is one token when it is accepted,
      and then holds at most one dot after its first character. */
  lemma NumeralTextIsOneToken(s: string)
    requires |s| > 0 && forall k :: 0 <= k < |s| ==> IsNumeral(s[k])
    requires Combine(s).Tokens?
    ensures Combine(s).tokens == [s]
    ensures multiset(s[1..])['.'] <= 1
  {
    var ts := Combine(s).tokens;
    TokensSpellInput(s);
    TokensWellFormed(s);
    assert Concat([]) == "";
    NumeralsFollow(ts, s);
    assert |ts| == 1;
    assert Concat(ts) == ts[0] + Concat(ts[1..]);
    assert ts[1..] == [];
    assert ts[0] == s;
    assert ts == [ts[0]];
    assert IsWellShaped(ts[0]);
    assert |s| == 1 ==> s[1..] == [];
  }

  /** Dots in a slice of a number's tail are dots of that tail. */
  lemma DotsInSlice(t: string, lo: nat, hi: nat)
    requires 1 <= lo <= hi <= |t|
    ensures multiset(t[lo..hi])['.'] <= multiset(t[1..])['.']
  {
    assert t[1..] == t[1..lo] + t[lo..hi] + t[hi..];
    assert multiset(t[1..]) == multiset(t[1..lo]) + multiset(t[lo..hi]) + multiset(t[hi..]);
  }

  /** In text spelled by well-shaped tokens with maximal merging, a stretch
      of digits and dots lies inside one token, so it holds at most one dot
      after its first character. */
  lemma {:induction false} RunDots(ts: seq<string>, s: string, lo: nat, hi: nat)
    requires Concat(ts) == s && IsRun(s, lo, hi)
    requires forall k :: 0 <= k < |ts| ==> IsWellShaped(ts[k])
    requires forall k :: 0 <= k < |ts| - 1 ==> MunchOk(ts[k], ts[k + 1])
    ensures multiset(s[lo + 1..hi])['.'] <= 1
    decreases |ts|
  {
    assert ts != [];
    var t, rest := ts[0], ts[1..];
    assert s == t + Concat(rest);
    assert IsWellShaped(t);
    if lo >= |t| {
      var s' := Concat(rest);
      forall k | lo - |t| <= k < hi - |t| ensures IsNumeral(s'[k]) {
        assert s'[k] == s[k + |t|];
      }
      assert s'[lo - |t| + 1..hi - |t|] == s[lo + 1..hi];
      forall k | 0 <= k < |rest| - 1 ensures MunchOk(rest[k], rest[k + 1]) {
        assert rest[k] == ts[k + 1] && rest[k + 1] == ts[k + 2];
      }
      RunDots(rest, s', lo - |t|, hi - |t|);
    } else {
      assert HasNumeral(t) by {
        assert t[lo] == s[lo];
      }
      if |ts| >= 2 {
        assert Concat(rest) == rest[0] + Concat(rest[1..]);
        assert IsWellShaped(ts[1]);
        assert s[|t|] == ts[1][0];
        assert MunchOk(ts[0], ts[1]);
      }
      assert hi <= |t|;
      assert s[lo + 1..hi] == t[lo + 1..hi];
      if |t| > 1 {
        DotsInSlice(t, lo + 1, hi);
      }
    }
  }

  /** The tokenizer answers `#INVALID` exactly when some stretch of digits and
      dots holds two dots after its first character; dots in different
      numbers, or a dot that starts a number, do not count together. */
  lemma InvalidExactlyOnDoubleDot(s: string)
    ensures Combine(s).Invalid? <==> HasDoubleDotRun(s)
  {
    InputProcessed(s);
    CombineFromFacts(Split(s), 0);
    SplitSpells(s);
    if Combine(s).Tokens? {
      var ts := Combine(s).tokens;
      forall lo: nat, hi: nat | IsRun(s, lo, hi)
        ensures multiset(s[lo + 1..hi])['.'] <= 1
      {
        RunDots(ts, s, lo, hi);
      }
    }
  }

  /** Text with no digit and no dot is left as one token per character. */
  lemma {:induction false} NoNumeralsUntouched(e: seq<string>, i: nat)
    requires forall k :: 0 <= k < |e| ==> |e[k]| == 1 && !IsNumeral(e[k][0])
    ensures CombineFrom(e, i) == Tokens(e)
    decreases |e| - i
  {
    if i + 1 < |e| {
      SingleNumeral(e[i]);
      SingleNumeral(e[i + 1]);
      assert !HasDigit(e[i + 1]);
      assert AttachSign(e, i) == e;
      NoNumeralsUntouched(e, i + 1);
    }
  }

  /** The sign rule on the smallest texts: after a character p, a minus and
      a character d become p and the signed d exactly when d is a digit and
      p is an operator or a minus; otherwise every character stays alone. */
  lemma MinusAfter(p: char, d: char)
    ensures Combine([p, '-', d]) ==
      if IsDigit(d) && (p == '+' || p == 'x' || p == '÷' || p == '-')
      then Tokens([[p], ['-', d]])
      else Tokens([[p], "-", [d]])
  {
    var e0 := [[p], "-", [d]];
    assert Split([p, '-', d]) == e0;
    SingleNumeral([p]);
    SingleNumeral([d]);
    SingleNumeral("-");
    assert AttachSign(e0, 0) == e0;
    assert MergeRun(e0, 0, false) == Tokens(e0);
    assert IsOperatorLike([p]) <==> (p == '+' || p == 'x' || p == '÷' || p == '-');
    assert CombineFrom(e0, 0) == CombineFrom(e0, 1);
    if IsDigit(d) && IsOperatorLike([p]) {
      var e1 := [[p], ['-', d]];
      assert "-" + [d] == ['-', d];
      assert Merge(e0, 1) == e0[..1] + ["-" + [d]] + e0[3..] == e1;
      assert AttachSign(e0, 1) == e1;
      assert MergeRun(e1, 1, false) == Tokens(e1);
      assert CombineFrom(e0, 1) == CombineFrom(e1, 2) == Tokens(e1);
    } else {
      assert AttachSign(e0, 1) == e0;
      assert MergeRun(e0, 1, false) == Tokens(e0);
      assert CombineFrom(e0, 1) == CombineFrom(e0, 2) == Tokens(e0);
    }
  }

  /** A minus that starts the text becomes the sign of the next character
      exactly when that character is a digit. */
  lemma MinusFirst(d: char)
    ensures Combine(['-', d]) ==
      if IsDigit(d) then Tokens([['-', d]]) else Tokens(["-", [d]])
  {
    var e0 := ["-", [d]];
    assert Split(['-', d]) == e0;
    SingleNumeral([d]);
    SingleNumeral("-");
    if IsDigit(d) {
      var e1 := [['-', d]];
      assert "-" + [d] == ['-', d];
      assert Merge(e0, 0) == e0[..0] + ["-" + [d]] + e0[2..] == e1;
      assert AttachSign(e0, 0) == e1;
      assert MergeRun(e1, 0, false) == Tokens(e1);
      assert CombineFrom(e0, 0) == CombineFrom(e1, 1) == Tokens(e1);
    } else {
      assert AttachSign(e0, 0) == e0;
      assert MergeRun(e0, 0, false) == Tokens(e0);
      assert CombineFrom(e0, 0) == CombineFrom(e0, 1) == Tokens(e0);
    }
  }

  // ----- Worked examples -----

  /** A minus right after a digit is a subtraction. */
  lemma MinusAfterDigit()
    ensures Combine("5-3") == Tokens(["5", "-", "3"])
  {
    var e := ["5", "-", "3"];
    assert Split("5-3") == e;
    assert HasNumeral("5") by { assert IsNumeral("5"[0]); }
    assert !IsOperatorLike("5");
  }

  /** A minus after an operator and before a digit is a sign. */
  lemma MinusAfterOperator()
    ensures Combine("5+-3") == Tokens(["5", "+", "-3"])
  {
    var e0 := ["5", "+", "-", "3"];
    var e1 := ["5", "+", "-3"];
    assert Split("5+-3") == e0;
    assert HasNumeral("5") by { assert IsNumeral("5"[0]); }
    assert !HasNumeral("+") && !HasNumeral("-");
    assert AttachSign(e0, 0) == e0 && AttachSign(e0, 1) == e0;
    assert CombineFrom(e0, 0) == CombineFrom(e0, 1) == CombineFrom(e0, 2);
    assert HasDigit("3") by { assert IsDigit("3"[0]); }
    assert IsOperatorLike("+") by { assert "+"[0] == '+'; }
    assert "-" + "3" == "-3";
    assert Merge(e0, 2) == e0[..2] + ["-" + "3"] + e0[4..] == e1;
    assert AttachSign(e0, 2) == e1;
    assert MergeRun(e1, 2, false) == Tokens(e1);
  }

  /** A minus that starts the expression and precedes a digit is a sign. */
  lemma MinusAtStart()
    ensures Combine("-5") == Tokens(["-5"])
  {
    var e0 := ["-", "5"];
    assert Split("-5") == e0;
    assert HasDigit("5") by { assert IsDigit("5"[0]); }
    assert "-" + "5" == "-5";
    assert Merge(e0, 0) == e0[..0] + ["-" + "5"] + e0[2..] == ["-5"];
    assert AttachSign(e0, 0) == ["-5"];
  }

  /** A second dot merged into the same number rejects the expression. */
  lemma SecondDotRejected()
    ensures Combine("1.2.3") == Invalid
  {
    var e0 := ["1", ".", "2", ".", "3"];
    var e1 := ["1.", "2", ".", "3"];
    var e2 := ["1.2", ".", "3"];
    assert Split("1.2.3") == e0;
    assert HasNumeral("1") by { assert IsNumeral("1"[0]); }
    assert HasNumeral(".") by { assert IsNumeral("."[0]); }
    assert HasNumeral("2") by { assert IsNumeral("2"[0]); }
    assert HasNumeral("1.") by { assert IsNumeral("1."[0]); }
    assert HasNumeral("1.2") by { assert IsNumeral("1.2"[0]); }
    assert "1" + "." == "1." && "1." + "2" == "1.2";
    assert Merge(e0, 0) == e0[..0] + ["1" + "."] + e0[2..] == e1;
    assert Merge(e1, 0) == e1[..0] + ["1." + "2"] + e1[2..] == e2;
    assert MergeRun(e2, 0, true) == Invalid;
    assert MergeRun(e0, 0, false) == MergeRun(e1, 0, true) == MergeRun(e2, 0, true);
  }

  /** A dot that is a token's first character is not counted, so this passes. */
  lemma LeadingDotNotCounted()
    ensures Combine(".5.") == Tokens([".5."])
  {
    var e0 := [".", "5", "."];
    var e1 := [".5", "."];
    var e2 := [".5."];
    assert Split(".5.") == e0;
    assert HasNumeral(".") by { assert IsNumeral("."[0]); }
    assert HasNumeral("5") by { assert IsNumeral("5"[0]); }
    assert HasNumeral(".5") by { assert IsNumeral(".5"[0]); }
    assert "." + "5" == ".5" && ".5" + "." == ".5.";
    assert Merge(e0, 0) == e0[..0] + ["." + "5"] + e0[2..] == e1;
    assert Merge(e1, 0) == e1[..0] + [".5" + "."] + e1[2..] == e2;
    assert MergeRun(e2, 0, true) == Tokens(e2);
    assert MergeRun(e0, 0, false) == MergeRun(e1, 0, false) == MergeRun(e2, 0, true);
  }
}
