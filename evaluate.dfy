/**
  ExpressionManager::postfixEvaluate: reduces postfix tokens to one integer with
  a stack of decimal strings. Numbers are pushed as written; an operator with two
  operands below it replaces them by the text of its result. The scan stops at
  the first token it cannot use and at a division whose divisor is written "0";
  the answer is whatever is then on top of the stack, or "invalid" when it is
  empty. Arity is not checked beyond that: "1 2" evaluates to "2".
 */
module Evaluate {
  import opened Maybe
  import opened Numerals
  import opened Tokens
  import opened Classify
  import opened Trees
  import Slices
  import opened Lexing

  /** Which branch of the loop a token takes. */
  datatype Kind = Number | Operator | Unusable

  type Token = Lexing.Token<Kind>

  /** The loop's tests in their order: `isNumber` (a '.' is no obstacle here), then `isOperator`. */
  function KindOf(t: string): Kind {
    if IsNumber(t) then Number
    else if IsOperator(t) then Operator
    else Unusable
  }

  /**
    What one token does to the stack (top last): the scan goes on, or it stops
    (`break`), or C++ leaves the outcome undefined.
   */
  datatype Move = Continue(stack: seq<string>) | Halt(stack: seq<string>) | Undefined

  /**
    One token. An operator pops two operands; "/" over a divisor written "0"
    stops the scan with both popped; the five operators push the text of their
    result, where `Apply` gives None for signed overflow, a zero divisor and
    `INT_MIN / -1`; an operator outside the five (such as "+-") pushes nothing.
    `stoi` on a stack entry that is no number would throw; only numbers are ever
    pushed (RunNumbers), so that branch is never taken.
   */
  function Step(st: seq<string>, tok: Token): Move
  {
    match tok.kind
    case Number => Continue(st + [tok.text])
    case Operator =>
      if |st| >= 2 then
        var two := st[|st| - 1];
        var one := st[|st| - 2];
        var rest := st[..|st| - 2];
        if tok.text == "/" && two == "0" then Halt(rest)
        else if !IsArithmetic(tok.text) then Continue(rest)
        else if IsNumber(one) && IsNumber(two) then
          match Apply(tok.text, Stoi(one), Stoi(two))
          case Some(v) => Continue(rest + [IntToString(v)])
          case None => Undefined
        else Undefined
      else Halt(st)
    case Unusable => Halt(st)
  }

  /** The scan of `ts` from position `i` on: the final stack, or None if C++ leaves it undefined. */
  function Run(st: seq<string>, ts: seq<Token>, i: nat): Option<seq<string>>
    decreases |ts| - i
  {
    if i >= |ts| then Some(st)
    else match Step(st, ts[i])
      case Continue(next) => Run(next, ts, i + 1)
      case Halt(last) => Some(last)
      case Undefined => None
  }

  /** The answer read off the final stack. */
  function Top(st: seq<string>): string
  {
    if st != [] then st[|st| - 1] else INVALID
  }

  /** What postfixEvaluate returns for `s`, or None where its behaviour is undefined. */
  function Evaluation(s: string): Option<string>
  {
    match Run([], Lex(Tokenize(s), KindOf), 0)
    case Some(st) => Some(Top(st))
    case None => None
  }

  predicate AllNumbers(st: seq<string>) {
    forall k :: 0 <= k < |st| ==> IsNumber(st[k])
  }

  /**
    ExpressionManager::postfixEvaluate, for inputs on which C++ defines its
    behaviour (no signed overflow, no zero divisor other than a "0" under "/",
    no `INT_MIN / -1`).
   */
  method PostfixEvaluate(postfixExpression: string) returns (r: string)
    requires Evaluation(postfixExpression).Some?
    ensures Evaluation(postfixExpression) == Some(r)
  {
    var tokens := Tokenize(postfixExpression);
    ghost var ts := Lex(tokens, KindOf);
    var ss: seq<string> := [];
    var i := 0;
    while i < |tokens|
      invariant 0 <= i <= |tokens| && AllNumbers(ss)
      invariant Run([], ts, 0) == Run(ss, ts, i) && Run(ss, ts, i).Some?
    {
      LexAt(tokens, i, KindOf);
      Defined(ss, ts, i);
      ghost var before := ss;
      var stop;
      ss, stop := EvaluateToken(ss, tokens[i]);
      if stop {
        RunHalt(before, ts, i, ss);
        break;
      }
      RunOne(before, ts, i, ss);
      i := i + 1;
    }
    assert Run([], ts, 0) == Some(ss);
    if ss != [] {
      r := ss[|ss| - 1];
    } else {
      r := INVALID;
    }
  }

  /**
    The body of postfixEvaluate's loop, for one token: the stack after it, and
    whether the loop breaks there.
   */
  method EvaluateToken(ss: seq<string>, token: string) returns (next: seq<string>, stop: bool)
    requires AllNumbers(ss) && !Step(ss, Token(token, KindOf(token))).Undefined?
    ensures Step(ss, Token(token, KindOf(token))) == if stop then Halt(next) else Continue(next)
    ensures AllNumbers(next)
  {
    ghost var tok := Token(token, KindOf(token));
    next, stop := ss, false;
    if IsNumber(token) {
      next := next + [token];
    } else if IsOperator(token) && |next| >= 2 {
      var valueTwo := next[|next| - 1];
      next := next[..|next| - 1];
      var valueOne := next[|next| - 1];
      next := next[..|next| - 1];
      NumberAt(ss, |ss| - 2);
      NumberAt(ss, |ss| - 1);
      OperatorStep(ss, tok, valueOne, valueTwo, next);
      var result: int;
      if token == "+" {
        result := Stoi(valueOne) + Stoi(valueTwo);
        next := next + [IntToString(result)];
      } else if token == "-" {
        result := Stoi(valueOne) - Stoi(valueTwo);
        next := next + [IntToString(result)];
      } else if token == "*" {
        result := Stoi(valueOne) * Stoi(valueTwo);
        next := next + [IntToString(result)];
      } else if token == "/" {
        if valueTwo != "0" {
          result := TruncDiv(Stoi(valueOne), Stoi(valueTwo));
          next := next + [IntToString(result)];
        } else {
          stop := true;
        }
      } else if token == "%" {
        result := TruncMod(Stoi(valueOne), Stoi(valueTwo));
        next := next + [IntToString(result)];
      }
    } else {
      stop := true;
    }
    StepNumbers(ss, tok);
  }

  lemma NumberAt(st: seq<string>, k: nat)
    requires AllNumbers(st) && k < |st|
    ensures IsNumber(st[k])
  {
  }

  /** An operator with two numbers below it, with the popped stack `rest` named. */
  lemma OperatorStep(st: seq<string>, tok: Token, one: string, two: string, rest: seq<string>)
    requires tok.kind == Operator && |st| >= 2
    requires one == st[|st| - 2] && two == st[|st| - 1] && rest == st[..|st| - 2]
    requires IsNumber(one) && IsNumber(two)
    ensures st == rest + [one, two]
    ensures Step(st, tok)
         == if tok.text == "/" && two == "0" then Halt(rest)
            else if !IsArithmetic(tok.text) then Continue(rest)
            else match Apply(tok.text, Stoi(one), Stoi(two))
              case Some(v) => Continue(rest + [IntToString(v)])
              case None => Undefined
  {
  }

  /** A scan that is defined from position `i` on does not take an undefined step there. */
  lemma Defined(st: seq<string>, ts: seq<Token>, i: nat)
    requires i < |ts| && Run(st, ts, i).Some?
    ensures !Step(st, ts[i]).Undefined?
  {
  }

  /** A scan that reads one token into stack `n` and goes on. */
  lemma RunOne(st: seq<string>, ts: seq<Token>, i: nat, n: seq<string>)
    requires i < |ts| && Step(st, ts[i]) == Continue(n)
    ensures Run(st, ts, i) == Run(n, ts, i + 1)
  {
  }

  /** A scan that stops at token `i` with stack `n`. */
  lemma RunHalt(st: seq<string>, ts: seq<Token>, i: nat, n: seq<string>)
    requires i < |ts| && Step(st, ts[i]) == Halt(n)
    ensures Run(st, ts, i) == Some(n)
  {
  }

  /** A token as the lexer makes it: one classified as a number passes `isNumber`. */
  predicate Lexed(tok: Token) {
    tok.kind == Number ==> IsNumber(tok.text)
  }

  /** A defined step keeps a stack of numbers one: `to_string` of an int reads back as a number. */
  lemma StepNumbers(st: seq<string>, tok: Token)
    requires AllNumbers(st) && Lexed(tok) && !Step(st, tok).Undefined?
    ensures AllNumbers(Step(st, tok).stack)
  {
    if tok.kind == Operator && |st| >= 2 {
      var one, two := st[|st| - 2], st[|st| - 1];
      if IsArithmetic(tok.text) && !(tok.text == "/" && two == "0") {
        var v := Apply(tok.text, Stoi(one), Stoi(two));
        IntToStringRoundTrip(v.value);
      }
    }
  }

  /** Every stack the scan ends with holds numbers only. */
  lemma {:induction false} RunNumbers(st: seq<string>, ts: seq<Token>, i: nat)
    requires AllNumbers(st) && forall k :: 0 <= k < |ts| ==> Lexed(ts[k])
    requires Run(st, ts, i).Some?
    ensures AllNumbers(Run(st, ts, i).value)
    decreases |ts| - i
  {
    if i < |ts| {
      StepNumbers(st, ts[i]);
      if Step(st, ts[i]).Continue? {
        RunNumbers(Step(st, ts[i]).stack, ts, i + 1);
      }
    }
  }

  lemma LexLexed(toks: seq<string>)
    ensures forall k :: 0 <= k < |Lex(toks, KindOf)| ==> Lexed(Lex(toks, KindOf)[k])
  {
    forall k | 0 <= k < |toks|
      ensures Lexed(Lex(toks, KindOf)[k])
    {
      LexAt(toks, k, KindOf);
    }
  }

  lemma InvalidIsNoNumber()
    ensures !IsNumber(INVALID)
  {
    assert SignLength(INVALID) == 0 && DigitRun(INVALID, 0) == 0;
  }

  /**
    Every defined answer is either "invalid" or a number: one that `isNumber`
    accepts, so `stoi` reads it as a 32-bit value. The two cases exclude each other.
   */
  lemma EvaluationIsNumber(s: string)
    requires Evaluation(s).Some?
    ensures Evaluation(s).value == INVALID <==> !IsNumber(Evaluation(s).value)
  {
    var ts := Lex(Tokenize(s), KindOf);
    LexLexed(Tokenize(s));
    RunNumbers([], ts, 0);
    InvalidIsNoNumber();
  }

  /**
    The tokens at which the scan stops, ignoring everything after them: an
    unusable token, an operator with fewer than two operands below it, and "/"
    over a divisor written "0", which also discards both operands.
   */
  lemma HaltingTokens(st: seq<string>, ts: seq<Token>, i: nat)
    requires i < |ts|
    ensures ts[i].kind == Unusable ==> Run(st, ts, i) == Some(st)
    ensures ts[i].kind == Operator && |st| < 2 ==> Run(st, ts, i) == Some(st)
    ensures (ts[i] == Token("/", Operator) && |st| >= 2 && st[|st| - 1] == "0")
              ==> Run(st, ts, i) == Some(st[..|st| - 2])
  {
  }

  /** The evaluator's tokens of a well-formed tree: operands are numbers, nodes operators. */
  function EvalTokens(e: Expr): seq<Token>
  {
    match e
    case Leaf(t) => [Token(t, Number)]
    case Node(op, l, r) => EvalTokens(l) + EvalTokens(r) + [Token(op, Operator)]
  }

  lemma {:induction false} LexPostfix(e: Expr)
    requires WellFormed(e)
    ensures Lex(Postfix(e), KindOf) == EvalTokens(e)
  {
    match e
    case Leaf(t) =>
      LexAt([t], 0, KindOf);
    case Node(op, l, r) =>
      LexPostfix(l);
      LexPostfix(r);
      LexAppend(Postfix(l) + Postfix(r), [op], KindOf);
      LexAppend(Postfix(l), Postfix(r), KindOf);
      LexAt([op], 0, KindOf);
      ArithmeticClass(op);
      SymbolIsNoNumber(op);
  }

  lemma {:induction false} EvalTokensLength(e: Expr)
    ensures |EvalTokens(e)| == |Postfix(e)|
  {
    match e
    case Leaf(_) =>
    case Node(_, l, r) =>
      EvalTokensLength(l);
      EvalTokensLength(r);
  }

  /** The text a tree leaves on the stack: a leaf's own token, a node's result written by `to_string`. */
  function Pushed(e: Expr): string
    requires WellFormed(e) && Value(e).Some?
  {
    match e
    case Leaf(t) => t
    case Node(_, _, _) => IntToString(Value(e).value)
  }

  /** The text a tree leaves on the stack reads back as the tree's value. */
  lemma PushedValue(e: Expr)
    requires WellFormed(e) && Value(e).Some?
    ensures IsNumber(Pushed(e)) && Stoi(Pushed(e)) == Value(e).value
  {
    if e.Node? {
      IntToStringRoundTrip(Value(e).value);
    }
  }

  /**
    Reading the tokens of a tree whose value is defined pushes one text on the
    stack, which reads back as that value.
   */
  lemma {:induction false} RunTreeAt(st: seq<string>, e: Expr, ts: seq<Token>, i: nat) returns (n: seq<string>, m: nat)
    requires WellFormed(e) && Value(e).Some?
    requires i + |EvalTokens(e)| <= |ts| && ts[i..i + |EvalTokens(e)|] == EvalTokens(e)
    ensures n == st + [Pushed(e)] && m == i + |EvalTokens(e)|
    ensures Run(st, ts, i) == Run(n, ts, m)
    decreases e
  {
    match e
    case Leaf(t) =>
      assert ts[i] == ts[i..i + 1][0];
      n, m := st + [t], i + 1;
      RunOne(st, ts, i, n);
    case Node(op, l, r) =>
      var j, k := SplitNode(ts, i, op, l, r);
      var s1, j1 := RunTreeAt(st, l, ts, i);
      assert j1 == j && Run(st, ts, i) == Run(s1, ts, j);
      var s2, k1 := RunTreeAt(s1, r, ts, j);
      assert k1 == k && Run(s1, ts, j) == Run(s2, ts, k);
      n, m := st + [Pushed(e)], k + 1;
      RunOperands(st, s1, s2, e, ts, k);
  }

  /** The last step of a node: the operator over both operands' texts leaves the node's text. */
  lemma RunOperands(st: seq<string>, s1: seq<string>, s2: seq<string>, e: Expr, ts: seq<Token>, k: nat)
    requires e.Node? && WellFormed(e) && Value(e).Some?
    requires s1 == st + [Pushed(e.left)] && s2 == s1 + [Pushed(e.right)]
    requires k < |ts| && ts[k] == Token(e.op, Operator)
    ensures Run(s2, ts, k) == Run(st + [Pushed(e)], ts, k + 1)
  {
    RunNode(st, e, ts, k);
    RunOne(s2, ts, k, st + [Pushed(e)]);
  }

  /** The tokens of a node split into its operands' and its operator. */
  lemma SplitNode(ts: seq<Token>, i: nat, op: string, l: Expr, r: Expr) returns (j: nat, k: nat)
    requires i + |EvalTokens(Node(op, l, r))| <= |ts|
    requires ts[i..i + |EvalTokens(Node(op, l, r))|] == EvalTokens(Node(op, l, r))
    ensures j == i + |EvalTokens(l)| && k == j + |EvalTokens(r)| && i + |EvalTokens(Node(op, l, r))| == k + 1
    ensures ts[i..j] == EvalTokens(l) && ts[j..k] == EvalTokens(r) && ts[k] == Token(op, Operator)
  {
    j, k := i + |EvalTokens(l)|, i + |EvalTokens(l)| + |EvalTokens(r)|;
    assert EvalTokens(Node(op, l, r)) == EvalTokens(l) + EvalTokens(r) + [Token(op, Operator)];
    Slices.PostfixParts(ts, i, j, k, i + |EvalTokens(Node(op, l, r))|, EvalTokens(l), EvalTokens(r), Token(op, Operator));
  }

  /**
    The node case of RunTreeAt: with both operands' texts on the stack, the
    operator replaces them by the text of the node's value. A defined value
    has a non-zero divisor, so a "/" never meets a divisor written "0".
   */
  lemma RunNode(st: seq<string>, e: Expr, ts: seq<Token>, k: nat)
    requires e.Node? && WellFormed(e) && Value(e).Some?
    requires k < |ts| && ts[k] == Token(e.op, Operator)
    ensures Value(e.left).Some? && Value(e.right).Some?
    ensures Step(st + [Pushed(e.left)] + [Pushed(e.right)], ts[k]) == Continue(st + [Pushed(e)])
  {
    var l, r := e.left, e.right;
    PushedValue(l);
    PushedValue(r);
    ArithmeticClass(e.op);
    var below := st + [Pushed(l)] + [Pushed(r)];
    assert below[..|below| - 2] == st;
    ZeroText();
  }

  lemma ZeroText()
    ensures IsNumber("0") && Stoi("0") == 0
  {
    assert PrefixValue("0") == Some(0);
  }

  /**
    Completeness: the postfix form of a tree whose value C++ defines evaluates
    to a number that reads back as that value.
   */
  lemma EvaluateTree(s: string, e: Expr)
    requires WellFormed(e) && Value(e).Some?
    requires Tokenize(s) == Postfix(e)
    ensures Evaluation(s) == Some(Pushed(e))
    ensures IsNumber(Pushed(e)) && Stoi(Pushed(e)) == Value(e).value
  {
    var ts := Lex(Tokenize(s), KindOf);
    LexPostfix(e);
    EvalTokensLength(e);
    PushedValue(e);
    assert ts[0..|ts|] == ts;
    var n, m := RunTreeAt([], e, ts, 0);
    assert Run(n, ts, m) == Some(n);
  }

  /** "3 4 +" evaluates to "7". */
  lemma SumExample(s: string)
    requires s == "3 4 +"
    ensures Evaluation(s) == Some("7")
  {
    var e := Node("+", Leaf("3"), Leaf("4"));
    SumTree(e);
    SumTokens(s);
    EvaluateTree(s, e);
    SevenText();
  }

  lemma SumTokens(s: string)
    requires s == "3 4 +"
    ensures Tokenize(s) == ["3", "4", "+"]
  {
    TokenizeJoin(["3", "4", "+"]);
    assert Join(["3", "4", "+"]) == s;
  }

  lemma SevenText()
    ensures IntToString(7) == "7"
  {
  }

  lemma SumTree(e: Expr)
    requires e == Node("+", Leaf("3"), Leaf("4"))
    ensures WellFormed(e) && Value(e) == Some(7) && Postfix(e) == ["3", "4", "+"]
  {
    DigitNumeral('3');
    DigitNumeral('4');
  }

  /** "10 0 /": the division halts the scan with both operands popped, so the answer is "invalid". */
  lemma ZeroDivisorExample()
    ensures Evaluation("10 0 /") == Some(INVALID)
  {
    var toks := ["10", "0", "/"];
    WordsTokenize(toks, "10 0 /");
    DivisionKinds(toks);
    ZeroDivisorRun(Lex(toks, KindOf));
  }

  lemma DivisionKinds(toks: seq<string>)
    requires toks == ["10", "0", "/"]
    ensures |Lex(toks, KindOf)| == 3
    ensures Lex(toks, KindOf)[0] == Token("10", Number) && Lex(toks, KindOf)[1] == Token("0", Number)
    ensures Lex(toks, KindOf)[2] == Token("/", Operator)
  {
    TenNumeral();
    ZeroText();
    ArithmeticClass("/");
    SymbolIsNoNumber("/");
    LexAt(toks, 0, KindOf);
    LexAt(toks, 1, KindOf);
    LexAt(toks, 2, KindOf);
  }

  lemma TenNumeral()
    ensures IsNumber("10")
  {
    IntToStringRoundTrip(10);
    assert IntToString(10) == "10";
  }

  lemma ZeroDivisorRun(ts: seq<Token>)
    requires |ts| == 3 && ts[0] == Token("10", Number) && ts[1] == Token("0", Number)
    requires ts[2] == Token("/", Operator)
    ensures Run([], ts, 0) == Some([])
  {
    assert [] + ["10"] == ["10"];
    RunOne([], ts, 0, ["10"]);
    assert ["10"] + ["0"] == ["10", "0"];
    RunOne(["10"], ts, 1, ["10", "0"]);
    HaltingTokens(["10", "0"], ts, 2);
  }

  /** "1 2": no arity check, so two operands and no operator evaluate to the top one. */
  lemma UnderValidationExample()
    ensures Evaluation("1 2") == Some("2")
  {
    var toks := ["1", "2"];
    WordsTokenize(toks, "1 2");
    DigitNumeral('1');
    DigitNumeral('2');
    LexAt(toks, 0, KindOf);
    LexAt(toks, 1, KindOf);
    var ts := Lex(toks, KindOf);
    assert [] + ["1"] == ["1"];
    RunOne([], ts, 0, ["1"]);
    assert ["1"] + ["2"] == ["1", "2"];
    RunOne(["1"], ts, 1, ["1", "2"]);
    assert Run(["1", "2"], ts, 2) == Some(["1", "2"]);
    assert Lex(Tokenize("1 2"), KindOf) == ts;
  }
}
