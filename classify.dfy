/**
  The token classifiers of ExpressionManager and the precedence rank.
  Each classifier asks `std::string::find` whether the token occurs inside one of
  three fixed strings, so it tests substring membership, not equality: "({" is
  an opening bracket and "+-" an operator, just as "(" and "+" are.
 */
module Classify {
  import opened Numerals

  const OPEN: string := "({["
  const CLOSE: string := ")}]"
  const OPERATION: string := "+-*/%"

  /** The sentinel every operation returns in place of a malformed result. */
  const INVALID: string := "invalid"

  /** `std::string::npos`. */
  const NPOS: int := -1

  predicate OccursAt(text: string, pat: string, j: nat) {
    j + |pat| <= |text| && text[j..j + |pat|] == pat
  }

  /** `text.find(pat)`: the first position where `pat` occurs in `text`, or NPOS. */
  function Find(text: string, pat: string): int
  {
    if |text| < |pat| then NPOS
    else if text[..|pat|] == pat then 0
    else
      var r := Find(text[1..], pat);
      if r == NPOS then NPOS else r + 1
  }

  lemma OccursShift(text: string, pat: string, j: nat)
    requires |text| > 0
    ensures OccursAt(text, pat, j + 1) <==> OccursAt(text[1..], pat, j)
  {
    if j + 1 + |pat| <= |text| {
      assert text[1..][j..j + |pat|] == text[j + 1..j + 1 + |pat|];
    }
  }

  /** `find` gives the first position where `pat` occurs, and NPOS when there is none. */
  lemma {:induction false} FindFirst(text: string, pat: string)
    ensures var r := Find(text, pat);
            r == NPOS || (0 <= r && OccursAt(text, pat, r))
    ensures var r := Find(text, pat);
            forall j: nat :: (r == NPOS || j < r) ==> !OccursAt(text, pat, j)
    decreases |text|
  {
    if |text| >= |pat| && text[..|pat|] != pat {
      FindFirst(text[1..], pat);
      var r := Find(text[1..], pat);
      if r != NPOS {
        OccursShift(text, pat, r);
      }
      forall j: nat | (Find(text, pat) == NPOS || j < Find(text, pat))
        ensures !OccursAt(text, pat, j)
      {
        if j > 0 {
          OccursShift(text, pat, j - 1);
        }
      }
    }
  }

  /** ExpressionManager::isOpen. */
  predicate IsOpen(t: string) {
    Find(OPEN, t) != NPOS
  }

  /** ExpressionManager::isClose. */
  predicate IsClose(t: string) {
    Find(CLOSE, t) != NPOS
  }

  /** ExpressionManager::isPair: both tokens sit at the same position of OPEN and CLOSE (or in neither). */
  predicate IsPair(a: string, b: string) {
    Find(OPEN, a) == Find(CLOSE, b)
  }

  /** ExpressionManager::isOperator. */
  predicate IsOperator(t: string) {
    Find(OPERATION, t) != NPOS
  }

  /** The five operators spelled as single characters. */
  predicate IsArithmetic(t: string) {
    t == "+" || t == "-" || t == "*" || t == "/" || t == "%"
  }

  /**
    ExpressionManager::Precedence leaves its result uninitialised for an operator
    that is none of the five single-character ones (such as "+-"), and for a
    token that is no bracket or operator at all.
   */
  predicate PrecedenceDefined(t: string) {
    IsClose(t) || (if IsOperator(t) then IsArithmetic(t) else IsOpen(t))
  }

  /** ExpressionManager::Precedence: closers 3, `* / %` 2, `+ -` 1, openers 0. */
  function Precedence(t: string): (p: int)
    requires PrecedenceDefined(t)
    ensures 0 <= p <= 3
  {
    if IsClose(t) then 3
    else if IsOperator(t) then (if t == "*" || t == "/" || t == "%" then 2 else 1)
    else 0
  }

  /** A token both converters treat as an operand: it passes `isNumber` and holds no '.'. */
  predicate IsNumeral(t: string) {
    IsNumber(t) && '.' !in t
  }

  /** `isOperator(string(1, s[0]))`; on an empty string C++ reads the terminating '\0', no operator. */
  predicate StartsWithOperator(s: string) {
    |s| > 0 && IsOperator([s[0]])
  }

  /** On a single character, `find` gives the first index of that character. */
  lemma FindChar(text: string, c: char, k: int)
    requires (0 <= k < |text| && text[k] == c && forall j :: 0 <= j < k ==> text[j] != c)
             || (k == NPOS && c !in text)
    ensures Find(text, [c]) == k
  {
    var r := Find(text, [c]);
    FindFirst(text, [c]);
    forall j: nat | j < |text|
      ensures OccursAt(text, [c], j) <==> text[j] == c
    {
      assert text[j..j + 1] == [text[j]];
    }
    if r != NPOS {
      assert text[r..r + 1] == [text[r]];
    }
    if k != NPOS {
      assert OccursAt(text, [c], k);
    }
  }

  /** The position of a character in OPEN. */
  function OpenIndex(c: char): int {
    if c == '(' then 0 else if c == '{' then 1 else if c == '[' then 2 else NPOS
  }

  /** The position of a character in CLOSE. */
  function CloseIndex(c: char): int {
    if c == ')' then 0 else if c == '}' then 1 else if c == ']' then 2 else NPOS
  }

  /** The position of a character in OPERATION. */
  function OperationIndex(c: char): int {
    if c == '+' then 0 else if c == '-' then 1 else if c == '*' then 2
    else if c == '/' then 3 else if c == '%' then 4 else NPOS
  }

  lemma FindOpenChar(c: char)
    ensures Find(OPEN, [c]) == OpenIndex(c)
  {
    FindChar(OPEN, c, OpenIndex(c));
  }

  lemma FindCloseChar(c: char)
    ensures Find(CLOSE, [c]) == CloseIndex(c)
  {
    FindChar(CLOSE, c, CloseIndex(c));
  }

  lemma FindOperationChar(c: char)
    ensures Find(OPERATION, [c]) == OperationIndex(c)
  {
    FindChar(OPERATION, c, OperationIndex(c));
  }

  /**
    On one-character tokens the classifiers are exact: each recognises its own
    three (or five) characters and nothing else, and a bracket pair is formed
    exactly by an opener and the closer of the same kind.
   */
  lemma ClassifyChar(c: char, d: char)
    ensures IsOpen([c]) <==> c == '(' || c == '{' || c == '['
    ensures IsClose([c]) <==> c == ')' || c == '}' || c == ']'
    ensures IsOperator([c]) <==> c == '+' || c == '-' || c == '*' || c == '/' || c == '%'
    ensures IsOpen([c]) && IsClose([d]) ==>
              (IsPair([c], [d]) <==> (c == '(' && d == ')') || (c == '{' && d == '}') || (c == '[' && d == ']'))
  {
    FindOpenChar(c);
    FindCloseChar(c);
    FindOperationChar(c);
    FindCloseChar(d);
  }

  /** Precedence ranks of the single-character brackets and operators. */
  lemma PrecedenceOfChar(c: char)
    ensures PrecedenceDefined([c]) <==> OpenIndex(c) != NPOS || CloseIndex(c) != NPOS || OperationIndex(c) != NPOS
    ensures CloseIndex(c) != NPOS ==> Precedence([c]) == 3
    ensures c == '*' || c == '/' || c == '%' ==> Precedence([c]) == 2
    ensures c == '+' || c == '-' ==> Precedence([c]) == 1
    ensures OpenIndex(c) != NPOS ==> Precedence([c]) == 0
  {
    ClassifyChar(c, c);
  }

  /** No character is both a bracket and an operator, or both an opener and a closer. */
  lemma SymbolClassesDisjoint(t: string)
    requires |t| > 0
    ensures !(IsOpen(t) && IsClose(t))
    ensures !(IsOpen(t) && IsOperator(t))
    ensures !(IsClose(t) && IsOperator(t))
  {
    if IsOpen(t) {
      FoundFirstChar(OPEN, t);
    }
    if IsClose(t) {
      FoundFirstChar(CLOSE, t);
    }
    if IsOperator(t) {
      FoundFirstChar(OPERATION, t);
    }
  }

  /** A token that `find` locates in `text` starts with a character of `text`. */
  lemma FoundFirstChar(text: string, t: string)
    requires |t| > 0 && Find(text, t) != NPOS
    ensures t[0] in text
  {
    FindFirst(text, t);
    var j := Find(text, t);
    assert text[j..j + |t|][0] == t[0];
  }

  /** No digit occurs in `text`. */
  predicate DigitFree(text: string) {
    forall i :: 0 <= i < |text| ==> !IsDigit(text[i])
  }

  lemma NumberNotInDigitFree(text: string, t: string)
    requires DigitFree(text) && IsNumber(t)
    ensures Find(text, t) == NPOS
  {
    var k := SignLength(t);
    FindFirst(text, t);
    DigitRunMaximal(t, k);
    assert IsDigit(t[k]);
    forall j: nat
      ensures !OccursAt(text, t, j)
    {
      if j + |t| <= |text| {
        assert text[j..j + |t|][k] == text[j + k];
      }
    }
  }

  /** A token that passes `isNumber` holds a digit, so it is never taken for a bracket or operator. */
  lemma NumberIsNoSymbol(t: string)
    requires IsNumber(t)
    ensures !IsOpen(t) && !IsClose(t) && !IsOperator(t)
  {
    NumberNotInDigitFree(OPEN, t);
    NumberNotInDigitFree(CLOSE, t);
    NumberNotInDigitFree(OPERATION, t);
  }

  /** A bracket or operator token never passes `isNumber`. */
  lemma SymbolIsNoNumber(t: string)
    ensures IsOpen(t) || IsClose(t) || IsOperator(t) ==> !IsNumber(t)
  {
    if IsNumber(t) {
      NumberIsNoSymbol(t);
    }
  }

  /** The substring quirk: "+-" counts as an operator, yet its precedence is left uninitialised. */
  lemma MultiCharOperator()
    ensures IsOperator("+-") && !IsArithmetic("+-") && !PrecedenceDefined("+-")
  {
    assert OccursAt(OPERATION, "+-", 0);
    SymbolClassesDisjoint("+-");
  }

  /** The five single-character operators are operators with a defined precedence, never numerals. */
  lemma ArithmeticClass(t: string)
    requires IsArithmetic(t)
    ensures IsOperator(t) && PrecedenceDefined(t) && !IsNumeral(t)
    ensures !IsOpen(t) && !IsClose(t)
    ensures Precedence(t) == (if t == "*" || t == "/" || t == "%" then 2 else 1)
  {
    assert t == [t[0]];
    ClassifyChar(t[0], t[0]);
    PrecedenceOfChar(t[0]);
  }
}
