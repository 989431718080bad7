/**
  ExpressionManager::infixToPostfix: the shunting-yard conversion. Numerals go
  straight to the output; operators wait on a stack of operators and opening
  brackets until one of no higher precedence arrives, a closing bracket pops
  back to its opener, and the operators left at the end are flushed. The input
  must pass isBalanced, hold only numerals, operators and brackets, and have one
  numeral more than operators; the output must not start with an operator.

  The closing-bracket loop appends each popped operator with no space after it
  (`sep` is "" as written); `sep` = " " is the evidently intended behaviour
  (see ClosingGlue and CorrectedTokens).
 */
module ToPostfix {
  import opened Maybe
  import opened Numerals
  import opened Tokens
  import opened Classify
  import opened Trees
  import Balance
  import Slices
  import opened Lexing

  /** Which branch of the loop a token takes. */
  datatype Kind = Numeral | Operator | Opener | Closer | Unusable

  type Token = Lexing.Token<Kind>

  /** The loop's tests in their order: a numeral without '.', an operator, an opener, a closer. */
  function KindOf(t: string): Kind {
    if IsNumeral(t) then Numeral
    else if IsOperator(t) then Operator
    else if IsOpen(t) then Opener
    else if IsClose(t) then Closer
    else Unusable
  }

  /** The operator stack (top last) and the output so far. */
  datatype Ops = Ops(os: seq<string>, postfix: string)

  /** The state of the loop: operator stack, output, and the two counters. */
  datatype Conv = Conv(os: seq<string>, postfix: string, numCount: int, opCount: int)

  const START: Conv := Conv([], "", 0, 0)

  /**
    A numeral goes to the output with a space after it, and one before it when
    the output ends in something other than a space. (The source reads
    `postfix[postfix.size() - 1]` before testing for an empty output; on an empty
    output the test as a whole is false, which is the outcome modelled here.)
   */
  function AppendNumeral(pf: string, t: string): string
  {
    if |pf| > 0 && pf[|pf| - 1] != ' ' then pf + (" " + t + " ") else pf + (t + " ")
  }

  /**
    The operator loop: pops operators of precedence at least `p` to the output,
    each followed by a space. None where a popped candidate's precedence is
    undefined (an operator such as "+-").
   */
  function PopAtLeast(os: seq<string>, pf: string, p: int): Option<Ops>
    decreases |os|
  {
    if os == [] then Some(Ops(os, pf))
    else
      var top := os[|os| - 1];
      if !PrecedenceDefined(top) then None
      else if Precedence(top) >= p then PopAtLeast(os[..|os| - 1], pf + (top + " "), p)
      else Some(Ops(os, pf))
  }

  /** The closing-bracket loop: pops to the output, each entry followed by `sep`, until a pair of `close` is on top. */
  function PopToOpener(os: seq<string>, pf: string, close: string, sep: string): Ops
    decreases |os|
  {
    if os == [] || IsPair(os[|os| - 1], close) then Ops(os, pf)
    else PopToOpener(os[..|os| - 1], pf + os[|os| - 1] + sep, close, sep)
  }

  /** The final loop: pops operators to the output, each followed by a space except the bottom one. */
  function Flush(os: seq<string>, pf: string): string
    decreases |os|
  {
    if os == [] || !IsOperator(os[|os| - 1]) then pf
    else Flush(os[..|os| - 1], pf + os[|os| - 1] + (if |os| > 1 then " " else ""))
  }

  /** What one token does: the loop goes on, breaks on an unusable token, or C++ leaves it undefined. */
  datatype Move = Continue(c: Conv) | Stop | Undefined

  /** The push at the end of the operator branch. */
  function PushOperator(c: Conv, os: seq<string>, pf: string, t: string): Conv
  {
    Conv(os + [t], pf, c.numCount, c.opCount + 1)
  }

  /**
    One token. An operator is pushed at once onto an empty stack or over one of
    lower precedence; otherwise, when the top is an operator, operators of at
    least its precedence are popped first. A closer pops back to its pair, then
    pops the pair itself (undefined when the stack has run empty) and adds a
    space to the output while the stack is not empty.
   */
  function Step(c: Conv, tok: Token, sep: string): Move
  {
    var t := tok.text;
    match tok.kind
    case Numeral => Continue(Conv(c.os, AppendNumeral(c.postfix, t), c.numCount + 1, c.opCount))
    case Operator =>
      if c.os == [] then Continue(PushOperator(c, c.os, c.postfix, t))
      else
        var top := c.os[|c.os| - 1];
        if !PrecedenceDefined(top) || !PrecedenceDefined(t) then Undefined
        else if Precedence(top) < Precedence(t) || !IsOperator(top) then Continue(PushOperator(c, c.os, c.postfix, t))
        else (match PopAtLeast(c.os, c.postfix, Precedence(t))
          case None => Undefined
          case Some(o) => Continue(PushOperator(c, o.os, o.postfix, t)))
    case Opener => Continue(Conv(c.os + [t], c.postfix, c.numCount, c.opCount))
    case Closer =>
      var o := PopToOpener(c.os, c.postfix, t, sep);
      if o.os == [] then Undefined
      else
        var os := o.os[..|o.os| - 1];
        Continue(Conv(os, if |os| > 0 then o.postfix + " " else o.postfix, c.numCount, c.opCount))
    case Unusable => Stop
  }

  /** The loop's outcome: the final state and whether it broke on an unusable token. */
  datatype Scanned = Scanned(c: Conv, invalid: bool)

  function Run(c: Conv, ts: seq<Token>, i: nat, sep: string): Option<Scanned>
    decreases |ts| - i
  {
    if i >= |ts| then Some(Scanned(c, false))
    else match Step(c, ts[i], sep)
      case Continue(next) => Run(next, ts, i + 1, sep)
      case Stop => Some(Scanned(c, true))
      case Undefined => None
  }

  /** The flush and the final test. */
  function Verdict(sc: Scanned): string
  {
    var pf := Flush(sc.c.os, sc.c.postfix);
    if !sc.invalid && !StartsWithOperator(pf) && sc.c.numCount == sc.c.opCount + 1 then pf else INVALID
  }

  /**
    What infixToPostfix returns for `s` when the closing-bracket loop appends
    `sep` after each operator it pops ("" as written); None where the behaviour
    is undefined. Unbalanced input skips the loop, so the flush finds an empty stack.
   */
  function Conversion(s: string, sep: string): Option<string>
  {
    if !Balance.Balanced(s) then Some(Verdict(Scanned(START, true)))
    else match Run(START, Lex(Tokenize(s), KindOf), 0, sep)
      case None => None
      case Some(sc) => Some(Verdict(sc))
  }

  /** ExpressionManager::infixToPostfix, for inputs on which C++ defines its behaviour. */
  method InfixToPostfix(infixExpression: string) returns (r: string)
    requires Conversion(infixExpression, "").Some?
    ensures Conversion(infixExpression, "") == Some(r)
  {
    var os: seq<string> := [];
    var postfix := "";
    var numCount, opCount := 0, 0;
    var invalid := false;
    var balanced := Balance.IsBalanced(infixExpression);
    ghost var sc := Scanned(START, true);
    if balanced {
      var tokens := Tokenize(infixExpression);
      ghost var ts := Lex(tokens, KindOf);
      var i := 0;
      while i < |tokens|
        invariant 0 <= i <= |tokens|
        invariant Run(START, ts, 0, "") == Run(Conv(os, postfix, numCount, opCount), ts, i, "")
        invariant Run(START, ts, 0, "").Some?
      {
        LexAt(tokens, i, KindOf);
        ghost var before := Conv(os, postfix, numCount, opCount);
        Defined(before, ts, i);
        var stop;
        os, postfix, numCount, opCount, stop := ConvertToken(os, postfix, numCount, opCount, tokens[i]);
        if stop {
          RunStop(before, ts, i);
          invalid := true;
          break;
        }
        RunOne(before, ts, i, Conv(os, postfix, numCount, opCount), "");
        i := i + 1;
      }
      sc := Scanned(Conv(os, postfix, numCount, opCount), invalid);
      assert Run(START, ts, 0, "") == Some(sc);
    } else {
      invalid := true;
    }
    ghost var os0, pf0 := os, postfix;
    while os != [] && IsOperator(os[|os| - 1])
      invariant Flush(os, postfix) == Flush(os0, pf0)
    {
      if |os| > 1 {
        postfix := postfix + os[|os| - 1] + " ";
      } else {
        postfix := postfix + os[|os| - 1];
      }
      os := os[..|os| - 1];
    }
    if !invalid && !StartsWithOperator(postfix) && numCount == opCount + 1 {
      r := postfix;
    } else {
      r := INVALID;
    }
  }

  /**
    The body of infixToPostfix's loop, for one token: the new state, and
    whether the loop breaks there (leaving the state as it was).
   */
  method ConvertToken(os0: seq<string>, pf0: string, numCount0: int, opCount0: int, token: string)
    returns (os: seq<string>, postfix: string, numCount: int, opCount: int, stop: bool)
    requires !Step(Conv(os0, pf0, numCount0, opCount0), Token(token, KindOf(token)), "").Undefined?
    ensures Step(Conv(os0, pf0, numCount0, opCount0), Token(token, KindOf(token)), "")
         == if stop then Stop else Continue(Conv(os, postfix, numCount, opCount))
    ensures stop ==> os == os0 && postfix == pf0 && numCount == numCount0 && opCount == opCount0
  {
    os, postfix, numCount, opCount, stop := os0, pf0, numCount0, opCount0, false;
    if IsNumber(token) && '.' !in token {
      if |postfix| != 0 && postfix[|postfix| - 1] != ' ' {
        postfix := postfix + (" " + token + " ");
        numCount := numCount + 1;
      } else {
        postfix := postfix + (token + " ");
        numCount := numCount + 1;
      }
    } else if IsOperator(token) {
      if os == [] || Precedence(os[|os| - 1]) < Precedence(token) {
        os := os + [token];
      } else {
        if os != [] && IsOperator(os[|os| - 1]) {
          os, postfix := PopOperators(os, postfix, token);
        }
        os := os + [token];
      }
      opCount := opCount + 1;
    } else if IsOpen(token) {
      os := os + [token];
    } else if IsClose(token) {
      os, postfix := PopToPair(os, postfix, token);
      os := os[..|os| - 1];
      if |os| > 0 {
        postfix := postfix + " ";
      }
    } else {
      stop := true;
    }
  }

  /** The operator branch's inner loop. */
  method PopOperators(os0: seq<string>, pf0: string, token: string) returns (os: seq<string>, postfix: string)
    requires PrecedenceDefined(token) && PopAtLeast(os0, pf0, Precedence(token)).Some?
    ensures PopAtLeast(os0, pf0, Precedence(token)) == Some(Ops(os, postfix))
  {
    os, postfix := os0, pf0;
    while os != [] && Precedence(os[|os| - 1]) >= Precedence(token)
      invariant PopAtLeast(os, postfix, Precedence(token)) == PopAtLeast(os0, pf0, Precedence(token))
    {
      postfix := postfix + (os[|os| - 1] + " ");
      os := os[..|os| - 1];
    }
  }

  /** The closing-bracket branch's loop, as written: each popped entry is appended with nothing after it. */
  method PopToPair(os0: seq<string>, pf0: string, token: string) returns (os: seq<string>, postfix: string)
    ensures PopToOpener(os0, pf0, token, "") == Ops(os, postfix)
  {
    os, postfix := os0, pf0;
    while os != [] && !IsPair(os[|os| - 1], token)
      invariant PopToOpener(os, postfix, token, "") == PopToOpener(os0, pf0, token, "")
    {
      assert postfix + os[|os| - 1] + "" == postfix + os[|os| - 1];
      postfix := postfix + os[|os| - 1];
      os := os[..|os| - 1];
    }
  }

  /** A scan that is defined from position `i` on does not take an undefined step there. */
  lemma Defined(c: Conv, ts: seq<Token>, i: nat)
    requires i < |ts| && Run(c, ts, i, "").Some?
    ensures !Step(c, ts[i], "").Undefined?
  {
  }

  lemma RunStop(c: Conv, ts: seq<Token>, i: nat)
    requires i < |ts| && Step(c, ts[i], "") == Stop
    ensures Run(c, ts, i, "") == Some(Scanned(c, true))
  {
  }

  lemma RunOne(c: Conv, ts: seq<Token>, i: nat, n: Conv, sep: string)
    requires i < |ts| && Step(c, ts[i], sep) == Continue(n)
    ensures Run(c, ts, i, sep) == Run(n, ts, i + 1, sep)
  {
  }

  // ----- What a valid result says about the input -----

  /** How many of the tokens from position `i` on have kind `k`. */
  function CountKind(ts: seq<Token>, i: nat, k: Kind): nat
    decreases |ts| - i
  {
    if i >= |ts| then 0 else (if ts[i].kind == k then 1 else 0) + CountKind(ts, i + 1, k)
  }

  /** A step that goes on never shortens the output and counts what it reads. */
  lemma StepGrows(c: Conv, tok: Token, sep: string)
    requires Step(c, tok, sep).Continue?
    ensures var n := Step(c, tok, sep).c;
            |n.postfix| >= |c.postfix| && (tok.kind == Numeral ==> |n.postfix| > 0)
    ensures var n := Step(c, tok, sep).c;
            n.numCount == c.numCount + (if tok.kind == Numeral then 1 else 0) &&
            n.opCount == c.opCount + (if tok.kind == Operator then 1 else 0)
    ensures tok.kind != Unusable
  {
    if tok.kind == Operator && c.os != [] && PrecedenceDefined(c.os[|c.os| - 1]) && PrecedenceDefined(tok.text)
       && PopAtLeast(c.os, c.postfix, Precedence(tok.text)).Some? {
      PopAtLeastGrows(c.os, c.postfix, Precedence(tok.text));
    } else if tok.kind == Closer {
      PopToOpenerGrows(c.os, c.postfix, tok.text, sep);
    }
  }

  lemma {:induction false} PopAtLeastGrows(os: seq<string>, pf: string, p: int)
    requires PopAtLeast(os, pf, p).Some?
    ensures |PopAtLeast(os, pf, p).value.postfix| >= |pf|
    decreases |os|
  {
    if os != [] && Precedence(os[|os| - 1]) >= p {
      PopAtLeastGrows(os[..|os| - 1], pf + (os[|os| - 1] + " "), p);
    }
  }

  lemma {:induction false} PopToOpenerGrows(os: seq<string>, pf: string, close: string, sep: string)
    ensures |PopToOpener(os, pf, close, sep).postfix| >= |pf|
    decreases |os|
  {
    if os != [] && !IsPair(os[|os| - 1], close) {
      PopToOpenerGrows(os[..|os| - 1], pf + os[|os| - 1] + sep, close, sep);
    }
  }

  /**
    A scan that runs to the end without breaking read no unusable token, counted
    every numeral and operator, and, once it has read a numeral, has output.
   */
  lemma {:induction false} RunCounts(c: Conv, ts: seq<Token>, i: nat, sep: string)
    requires Run(c, ts, i, sep).Some? && !Run(c, ts, i, sep).value.invalid
    ensures var f := Run(c, ts, i, sep).value.c;
            f.numCount == c.numCount + CountKind(ts, i, Numeral) &&
            f.opCount == c.opCount + CountKind(ts, i, Operator)
    ensures var f := Run(c, ts, i, sep).value.c;
            |f.postfix| >= |c.postfix| && (f.numCount > c.numCount ==> |f.postfix| > 0)
    ensures forall k :: i <= k < |ts| ==> ts[k].kind != Unusable
    decreases |ts| - i
  {
    if i < |ts| {
      StepGrows(c, ts[i], sep);
      RunCounts(Step(c, ts[i], sep).c, ts, i + 1, sep);
    }
  }

  /** The flush only appends to the output. */
  lemma {:induction false} FlushGrows(os: seq<string>, pf: string)
    ensures |Flush(os, pf)| >= |pf|
    decreases |os|
  {
    if os != [] && IsOperator(os[|os| - 1]) {
      FlushGrows(os[..|os| - 1], pf + os[|os| - 1] + (if |os| > 1 then " " else ""));
    }
  }

  /**
    A result other than "invalid" comes from balanced input made only of
    numerals, operators and brackets, with exactly one numeral more than
    operators; it is not empty and does not start with an operator character.
   */
  lemma ValidResult(s: string, sep: string)
    requires Conversion(s, sep).Some? && Conversion(s, sep).value != INVALID
    ensures Balance.Balanced(s)
    ensures var ts := Lex(Tokenize(s), KindOf);
            (forall k :: 0 <= k < |ts| ==> ts[k].kind != Unusable) &&
            CountKind(ts, 0, Numeral) == CountKind(ts, 0, Operator) + 1
    ensures var r := Conversion(s, sep).value;
            |r| > 0 && !StartsWithOperator(r)
  {
    var ts := Lex(Tokenize(s), KindOf);
    RunCounts(START, ts, 0, sep);
    var sc := Run(START, ts, 0, sep).value;
    FlushGrows(sc.c.os, sc.c.postfix);
  }

  /**
    An unbalanced input, and a defined scan over an input holding a token that
    is no numeral, operator or bracket, both give "invalid".
   */
  lemma InvalidInputs(s: string, sep: string)
    ensures !Balance.Balanced(s) ==> Conversion(s, sep) == Some(INVALID)
    ensures ((exists k :: 0 <= k < |Tokenize(s)| && KindOf(Tokenize(s)[k]) == Unusable) && Conversion(s, sep).Some?)
              ==> Conversion(s, sep) == Some(INVALID)
  {
    if Balance.Balanced(s) && Conversion(s, sep).Some? && Conversion(s, sep).value != INVALID {
      ValidResult(s, sep);
      forall k | 0 <= k < |Tokenize(s)|
        ensures KindOf(Tokenize(s)[k]) != Unusable
      {
        LexAt(Tokenize(s), k, KindOf);
      }
    }
  }

  // ----- The operator stack -----

  /** `a` ranks strictly below `b`. */
  predicate Below(a: string, b: string) {
    PrecedenceDefined(a) && PrecedenceDefined(b) && Precedence(a) < Precedence(b)
  }

  /**
    The stack holds operators and opening brackets only, and every operator
    outranks the entry just below it (an opener ranks 0), so precedence rises
    strictly from each opener to the top.
   */
  predicate Stacked(os: seq<string>) {
    forall k :: 0 <= k < |os| ==>
      |os[k]| > 0 && (IsOpen(os[k]) || IsOperator(os[k])) && (0 < k && IsOperator(os[k]) ==> Below(os[k - 1], os[k]))
  }

  /** A token as the lexer makes it from a whitespace-free word. */
  predicate Lexed(tok: Token) {
    IsWord(tok.text) &&
    (tok.kind == Operator ==> IsOperator(tok.text)) &&
    (tok.kind == Opener ==> IsOpen(tok.text) && !IsOperator(tok.text))
  }

  lemma StackedPrefix(os: seq<string>, n: nat)
    requires Stacked(os) && n <= |os|
    ensures Stacked(os[..n])
  {
  }

  lemma {:induction false} PopAtLeastPrefix(os: seq<string>, pf: string, p: int)
    requires PopAtLeast(os, pf, p).Some?
    ensures var o := PopAtLeast(os, pf, p).value;
            |o.os| <= |os| && o.os == os[..|o.os|]
    ensures var o := PopAtLeast(os, pf, p).value;
            o.os != [] ==> PrecedenceDefined(o.os[|o.os| - 1]) && Precedence(o.os[|o.os| - 1]) < p
    decreases |os|
  {
    if os != [] && Precedence(os[|os| - 1]) >= p {
      PopAtLeastPrefix(os[..|os| - 1], pf + (os[|os| - 1] + " "), p);
    }
  }

  lemma {:induction false} PopToOpenerPrefix(os: seq<string>, pf: string, close: string, sep: string)
    ensures var o := PopToOpener(os, pf, close, sep);
            |o.os| <= |os| && o.os == os[..|o.os|]
    decreases |os|
  {
    if os != [] && !IsPair(os[|os| - 1], close) {
      PopToOpenerPrefix(os[..|os| - 1], pf + os[|os| - 1] + sep, close, sep);
    }
  }

  /** An operator whose precedence is defined ranks above every opener. */
  lemma OpenerBelow(top: string, t: string)
    requires |top| > 0 && |t| > 0 && IsOpen(top) && IsOperator(t) && PrecedenceDefined(t)
    ensures Below(top, t)
  {
    SymbolClassesDisjoint(top);
    SymbolClassesDisjoint(t);
  }

  /** Pushing an operator onto a stack whose top it outranks keeps the stack ordered. */
  lemma PushAbove(os: seq<string>, t: string)
    requires Stacked(os) && |t| > 0 && IsOperator(t)
    requires os != [] ==> Below(os[|os| - 1], t)
    ensures Stacked(os + [t])
  {
  }

  /** Every step keeps the operator stack ordered. */
  lemma StepStacked(c: Conv, tok: Token, sep: string)
    requires Stacked(c.os) && Lexed(tok) && Step(c, tok, sep).Continue?
    ensures Stacked(Step(c, tok, sep).c.os)
  {
    var t := tok.text;
    match tok.kind
    case Numeral =>
    case Operator =>
      if c.os != [] {
        var top := c.os[|c.os| - 1];
        if !IsOperator(top) {
          OpenerBelow(top, t);
          PushAbove(c.os, t);
        } else if Precedence(top) < Precedence(t) {
          PushAbove(c.os, t);
        } else {
          var o := PopAtLeast(c.os, c.postfix, Precedence(t)).value;
          PopAtLeastPrefix(c.os, c.postfix, Precedence(t));
          StackedPrefix(c.os, |o.os|);
          PushAbove(o.os, t);
        }
      } else {
        PushAbove(c.os, t);
      }
    case Opener =>
    case Closer =>
      var o := PopToOpener(c.os, c.postfix, t, sep);
      PopToOpenerPrefix(c.os, c.postfix, t, sep);
      StackedPrefix(c.os, |o.os| - 1);
      assert o.os[..|o.os| - 1] == c.os[..|o.os| - 1];
    case Unusable =>
  }

  lemma {:induction false} RunStacked(c: Conv, ts: seq<Token>, i: nat, sep: string)
    requires Stacked(c.os) && forall k :: 0 <= k < |ts| ==> Lexed(ts[k])
    requires Run(c, ts, i, sep).Some?
    ensures Stacked(Run(c, ts, i, sep).value.c.os)
    decreases |ts| - i
  {
    if i < |ts| && Step(c, ts[i], sep).Continue? {
      StepStacked(c, ts[i], sep);
      RunStacked(Step(c, ts[i], sep).c, ts, i + 1, sep);
    }
  }

  lemma LexLexed(toks: seq<string>)
    requires forall k :: 0 <= k < |toks| ==> IsWord(toks[k])
    ensures forall k :: 0 <= k < |Lex(toks, KindOf)| ==> Lexed(Lex(toks, KindOf)[k]) && Lex(toks, KindOf)[k].text == toks[k]
  {
    forall k | 0 <= k < |toks|
      ensures Lexed(Lex(toks, KindOf)[k]) && Lex(toks, KindOf)[k].text == toks[k]
    {
      LexAt(toks, k, KindOf);
    }
  }

  /** The scan of any input keeps the operator stack ordered up to its end. */
  lemma StackInvariant(s: string, sep: string)
    requires Run(START, Lex(Tokenize(s), KindOf), 0, sep).Some?
    ensures Stacked(Run(START, Lex(Tokenize(s), KindOf), 0, sep).value.c.os)
  {
    LexLexed(Tokenize(s));
    RunStacked(START, Lex(Tokenize(s), KindOf), 0, sep);
  }

  /** On an ordered stack two operators are adjacent only as `+` or `-` below `*`, `/` or `%`. */
  lemma AdjacentOperators(os: seq<string>, k: nat)
    requires Stacked(os) && 0 < k < |os| && IsOperator(os[k - 1]) && IsOperator(os[k])
    ensures os[k - 1] == "+" || os[k - 1] == "-"
    ensures os[k] == "*" || os[k] == "/" || os[k] == "%"
  {
    var a, b := os[k - 1], os[k];
    SymbolClassesDisjoint(a);
    SymbolClassesDisjoint(b);
    ArithmeticPrecedence(a);
    ArithmeticPrecedence(b);
  }

  /** An operator with a defined precedence is one of the five, ranked 1 for `+ -` and 2 for `* / %`. */
  lemma ArithmeticPrecedence(t: string)
    requires |t| > 0 && IsOperator(t) && PrecedenceDefined(t)
    ensures IsArithmetic(t)
    ensures Precedence(t) == 1 <==> t == "+" || t == "-"
  {
    SymbolClassesDisjoint(t);
    ArithmeticClass(t);
  }

  // ----- Fully parenthesised input -----

  /** The lexed infix tokens of a well-formed tree. */
  function InfixKinds(e: Expr): seq<Token>
  {
    match e
    case Leaf(t) => [Token(t, Numeral)]
    case Node(op, l, r) =>
      [Token("(", Opener)] + InfixKinds(l) + [Token(op, Operator)] + InfixKinds(r) + [Token(")", Closer)]
  }

  lemma BracketKinds()
    ensures KindOf("(") == Opener && KindOf(")") == Closer
  {
    ClassifyChar('(', ')');
    ClassifyChar(')', '(');
    SymbolIsNoNumber("(");
    SymbolIsNoNumber(")");
  }

  lemma {:induction false} LexInfix(e: Expr)
    requires WellFormed(e)
    ensures Lex(InfixTokens(e), KindOf) == InfixKinds(e)
  {
    match e
    case Leaf(t) =>
      LexAt([t], 0, KindOf);
    case Node(op, l, r) =>
      LexInfix(l);
      LexInfix(r);
      BracketKinds();
      ArithmeticClass(op);
      LexNode("(", InfixTokens(l), op, InfixTokens(r), ")");
  }

  /** Lexing a bracketed node's tokens, with the three symbols' kinds given. */
  lemma LexNode(open: string, a: seq<string>, op: string, b: seq<string>, close: string)
    requires KindOf(open) == Opener && KindOf(op) == Operator && KindOf(close) == Closer
    ensures Lex([open] + a + [op] + b + [close], KindOf)
         == [Token(open, Opener)] + Lex(a, KindOf) + [Token(op, Operator)] + Lex(b, KindOf) + [Token(close, Closer)]
  {
    var x := [open] + a;
    var y := x + [op];
    var z := y + b;
    LexSingle(open);
    LexSingle(op);
    LexSingle(close);
    LexAppend([open], a, KindOf);
    assert Lex(x, KindOf) == [Token(open, Opener)] + Lex(a, KindOf);
    LexAppend(x, [op], KindOf);
    assert Lex(y, KindOf) == [Token(open, Opener)] + Lex(a, KindOf) + [Token(op, Operator)];
    LexAppend(y, b, KindOf);
    assert Lex(z, KindOf) == [Token(open, Opener)] + Lex(a, KindOf) + [Token(op, Operator)] + Lex(b, KindOf);
    LexAppend(z, [close], KindOf);
  }

  lemma LexSingle(t: string)
    ensures Lex([t], KindOf) == [Token(t, KindOf(t))]
  {
    assert [t][..0] == [];
  }

  lemma {:induction false} InfixKindsLength(e: Expr)
    ensures |InfixKinds(e)| == |InfixTokens(e)|
  {
    match e
    case Leaf(_) =>
    case Node(_, l, r) =>
      InfixKindsLength(l);
      InfixKindsLength(r);
  }

  /**
    The output for a tree's fully parenthesised tokens: each numeral followed by
    a space, and each operator, when its closing bracket pops it, followed by
    `sep` and, inside enclosing brackets, by one more space.
   */
  function Out(e: Expr, sep: string, nested: bool): string
  {
    match e
    case Leaf(t) => t + " "
    case Node(op, l, r) => Out(l, sep, true) + Out(r, sep, true) + (op + sep + (if nested then " " else ""))
  }

  predicate Spaced(pf: string) {
    pf == [] || pf[|pf| - 1] == ' '
  }

  /**
    Reading a tree's fully parenthesised tokens leaves the stack as it was,
    appends Out(e) to the output and counts the tree's leaves and operators.
   */
  lemma {:induction false} RunTreeAt(c: Conv, e: Expr, ts: seq<Token>, i: nat, sep: string) returns (n: Conv, m: nat)
    requires Arithmetic(e) && Spaced(c.postfix)
    requires i + |InfixKinds(e)| <= |ts| && ts[i..i + |InfixKinds(e)|] == InfixKinds(e)
    ensures n == Conv(c.os, c.postfix + Out(e, sep, c.os != []), c.numCount + Leaves(e), c.opCount + Operators(e))
    ensures m == i + |InfixKinds(e)|
    ensures Run(c, ts, i, sep) == Run(n, ts, m, sep)
    decreases e, 3
  {
    match e
    case Leaf(t) =>
      assert ts[i] == ts[i..i + 1][0];
      n, m := Conv(c.os, c.postfix + (t + " "), c.numCount + 1, c.opCount), i + 1;
      RunOne(c, ts, i, n, sep);
    case Node(_, _, _) =>
      var c3, j := RunLeftAt(c, e, ts, i, sep);
      n, m := RunRightAt(c, c3, e, ts, i, j, sep);
  }

  /** "(", the left operand and the operator of a node. */
  lemma {:induction false} RunLeftAt(c: Conv, e: Expr, ts: seq<Token>, i: nat, sep: string) returns (c3: Conv, j: nat)
    requires e.Node? && Arithmetic(e) && Spaced(c.postfix)
    requires i + |InfixKinds(e)| <= |ts| && ts[i..i + |InfixKinds(e)|] == InfixKinds(e)
    ensures j == i + 1 + |InfixKinds(e.left)|
    ensures c3 == Conv(c.os + ["(", e.op], c.postfix + Out(e.left, sep, true),
                       c.numCount + Leaves(e.left), c.opCount + Operators(e.left) + 1)
    ensures Run(c, ts, i, sep) == Run(c3, ts, j + 1, sep)
    decreases e, 1
  {
    var k;
    j, k := SplitInfix(ts, i, e.op, e.left, e.right);
    var c1 := StepOpen(c, ts, i, "(", sep);
    var c2, j1 := RunTreeAt(c1, e.left, ts, i + 1, sep);
    assert j1 == j;
    c3 := StepOperator(c2, e.op, c.os, ts, j, sep);
  }

  /** The right operand and ")" of a node. */
  lemma {:induction false} RunRightAt(c: Conv, c3: Conv, e: Expr, ts: seq<Token>, i: nat, j: nat, sep: string)
    returns (n: Conv, m: nat)
    requires e.Node? && Arithmetic(e)
    requires i + |InfixKinds(e)| <= |ts| && ts[i..i + |InfixKinds(e)|] == InfixKinds(e)
    requires j == i + 1 + |InfixKinds(e.left)|
    requires c3 == Conv(c.os + ["(", e.op], c.postfix + Out(e.left, sep, true),
                        c.numCount + Leaves(e.left), c.opCount + Operators(e.left) + 1)
    ensures n == Conv(c.os, c.postfix + Out(e, sep, c.os != []), c.numCount + Leaves(e), c.opCount + Operators(e))
    ensures m == i + |InfixKinds(e)|
    ensures Run(c3, ts, j + 1, sep) == Run(n, ts, m, sep)
    decreases e, 2
  {
    var j0, k := SplitInfix(ts, i, e.op, e.left, e.right);
    n := RightThenClose(c, c3, e, ts, j, k, sep);
    m := k + 1;
  }

  /** RunRightAt once the tokens are split: the right operand, then ")". */
  lemma RightThenClose(c: Conv, c3: Conv, e: Expr, ts: seq<Token>, j: nat, k: nat, sep: string) returns (n: Conv)
    requires e.Node? && Arithmetic(e)
    requires k == j + 1 + |InfixKinds(e.right)| && k < |ts| && ts[j + 1..k] == InfixKinds(e.right)
    requires ts[k] == Token(")", Closer)
    requires c3 == Conv(c.os + ["(", e.op], c.postfix + Out(e.left, sep, true),
                        c.numCount + Leaves(e.left), c.opCount + Operators(e.left) + 1)
    ensures n == Conv(c.os, c.postfix + Out(e, sep, c.os != []), c.numCount + Leaves(e), c.opCount + Operators(e))
    ensures Run(c3, ts, j + 1, sep) == Run(n, ts, k + 1, sep)
    decreases e, 1
  {
    var c4 := RunRightOperand(c, c3, e, ts, j, k, sep);
    n := CloseNode(c, c4, e, ts, k, sep);
  }

  /** The right operand of a node, read above the node's "(" and operator. */
  lemma RunRightOperand(c: Conv, c3: Conv, e: Expr, ts: seq<Token>, j: nat, k: nat, sep: string)
    returns (c4: Conv)
    requires e.Node? && Arithmetic(e.right)
    requires k == j + 1 + |InfixKinds(e.right)| && k <= |ts| && ts[j + 1..k] == InfixKinds(e.right)
    requires c3 == Conv(c.os + ["(", e.op], c.postfix + Out(e.left, sep, true),
                        c.numCount + Leaves(e.left), c.opCount + Operators(e.left) + 1)
    ensures c4 == Conv(c.os + ["(", e.op], c.postfix + Out(e.left, sep, true) + Out(e.right, sep, true),
                       c.numCount + Leaves(e.left) + Leaves(e.right), c.opCount + Operators(e.left) + 1 + Operators(e.right))
    ensures Run(c3, ts, j + 1, sep) == Run(c4, ts, k, sep)
    decreases e, 0
  {
    SpacedAfter(c.postfix, e.left, sep);
    assert c3.os != [];
    var k1;
    c4, k1 := RunTreeAt(c3, e.right, ts, j + 1, sep);
    assert k1 == k;
    assert c4.postfix == c3.postfix + Out(e.right, sep, true);
  }

  /** An opening bracket is pushed. */
  lemma StepOpen(c: Conv, ts: seq<Token>, i: nat, open: string, sep: string) returns (c1: Conv)
    requires i < |ts| && ts[i] == Token(open, Opener)
    ensures c1 == Conv(c.os + [open], c.postfix, c.numCount, c.opCount)
    ensures Run(c, ts, i, sep) == Run(c1, ts, i + 1, sep)
  {
    c1 := Conv(c.os + [open], c.postfix, c.numCount, c.opCount);
    RunOne(c, ts, i, c1, sep);
  }

  lemma SpacedAfter(pf: string, e: Expr, sep: string)
    ensures Spaced(pf + Out(e, sep, true))
  {
    OutSpaced(e, sep);
  }

  /** The node case of RunTreeAt once both operands have been read. */
  lemma CloseNode(c: Conv, c4: Conv, e: Expr, ts: seq<Token>, k: nat, sep: string) returns (n: Conv)
    requires e.Node? && IsArithmetic(e.op)
    requires c4 == Conv(c.os + ["(", e.op], c.postfix + Out(e.left, sep, true) + Out(e.right, sep, true),
                        c.numCount + Leaves(e.left) + Leaves(e.right), c.opCount + Operators(e.left) + 1 + Operators(e.right))
    requires k < |ts| && ts[k] == Token(")", Closer)
    ensures n == Conv(c.os, c.postfix + Out(e, sep, c.os != []), c.numCount + Leaves(e), c.opCount + Operators(e))
    ensures Run(c4, ts, k, sep) == Run(n, ts, k + 1, sep)
  {
    BracketPair(e.op);
    n := StepClose(c, c4, "(", e.op, Out(e.left, sep, true), Out(e.right, sep, true), ts, k, ")", sep);
  }

  /** The positions of a node's brackets, operands and operator among its tokens. */
  lemma SplitInfix(ts: seq<Token>, i: nat, op: string, l: Expr, r: Expr) returns (j: nat, k: nat)
    requires i + |InfixKinds(Node(op, l, r))| <= |ts|
    requires ts[i..i + |InfixKinds(Node(op, l, r))|] == InfixKinds(Node(op, l, r))
    ensures j == i + 1 + |InfixKinds(l)| && k == j + 1 + |InfixKinds(r)|
    ensures i + |InfixKinds(Node(op, l, r))| == k + 1
    ensures ts[i] == Token("(", Opener) && ts[j] == Token(op, Operator) && ts[k] == Token(")", Closer)
    ensures ts[i + 1..j] == InfixKinds(l) && ts[j + 1..k] == InfixKinds(r)
  {
    j := i + 1 + |InfixKinds(l)|;
    k := j + 1 + |InfixKinds(r)|;
    assert InfixKinds(Node(op, l, r))
        == [Token("(", Opener)] + InfixKinds(l) + [Token(op, Operator)] + InfixKinds(r) + [Token(")", Closer)];
    Slices.InfixParts(ts, i, j, k, i + |InfixKinds(Node(op, l, r))|,
                      Token("(", Opener), InfixKinds(l), Token(op, Operator), InfixKinds(r), Token(")", Closer));
  }

  /** Inside brackets, Out(e) ends with a space. */
  lemma OutSpaced(e: Expr, sep: string)
    ensures |Out(e, sep, true)| > 0 && Out(e, sep, true)[|Out(e, sep, true)| - 1] == ' '
  {
  }

  /** An operator that finds its node's opening bracket on top is pushed over it. */
  lemma StepOperator(c2: Conv, op: string, below: seq<string>, ts: seq<Token>, j: nat, sep: string) returns (c3: Conv)
    requires IsArithmetic(op) && c2.os == below + ["("]
    requires j < |ts| && ts[j] == Token(op, Operator)
    ensures c3 == Conv(below + ["(", op], c2.postfix, c2.numCount, c2.opCount + 1)
    ensures Run(c2, ts, j, sep) == Run(c3, ts, j + 1, sep)
  {
    c3 := Conv(below + ["(", op], c2.postfix, c2.numCount, c2.opCount + 1);
    ArithmeticClass(op);
    PrecedenceOfChar('(');
    ClassifyChar('(', '(');
    assert c2.os + [op] == below + ["(", op];
    RunOne(c2, ts, j, c3, sep);
  }

  /** The closing bracket of a node pops its operator and its opening bracket. */
  lemma StepClose(c: Conv, c4: Conv, open: string, op: string, ol: string, or: string, ts: seq<Token>, k: nat, close: string, sep: string)
    returns (n: Conv)
    requires IsPair(open, close) && !IsPair(op, close) && c4.os == c.os + [open, op]
    requires k < |ts| && ts[k] == Token(close, Closer)
    requires c4.postfix == c.postfix + ol + or
    ensures n == Conv(c.os, c.postfix + (ol + or + (op + sep + (if c.os != [] then " " else ""))), c4.numCount, c4.opCount)
    ensures Run(c4, ts, k, sep) == Run(n, ts, k + 1, sep)
  {
    var pf := c4.postfix + op + sep;
    var tail := if c.os != [] then " " else "";
    n := Conv(c.os, c.postfix + (ol + or + (op + sep + tail)), c4.numCount, c4.opCount);
    assert c4.os[..|c4.os| - 1] == c.os + [open];
    assert (c.os + [open])[..|c.os|] == c.os;
    assert PopToOpener(c4.os, c4.postfix, close, sep) == Ops(c.os + [open], pf);
    assert pf + tail == n.postfix;
    RunOne(c4, ts, k, n, sep);
  }

  /** The brackets pair up, and no operator pairs with a closing bracket. */
  lemma BracketPair(op: string)
    requires IsArithmetic(op)
    ensures IsPair("(", ")") && !IsPair(op, ")")
  {
    ArithmeticClass(op);
    FindCloseChar(')');
    FindOpenChar('(');
    SymbolClassesDisjoint(op);
  }

  /** Writing Out(e) adds one space-separated token per postfix token. */
  lemma {:induction false} OutTokens(e: Expr, sep: string, nested: bool)
    requires WellFormed(e) && (sep == "" || sep == " ")
    ensures Tokenize(Out(e, sep, nested)) == Postfix(e)
  {
    match e
    case Leaf(t) =>
      TokenizeAppend(t, " ");
      TokenizeWord(t);
      assert Tokenize(" ") == [];
    case Node(op, l, r) =>
      OutTokens(l, sep, true);
      OutTokens(r, sep, true);
      OutSpaced(l, sep);
      OutSpaced(r, sep);
      ArithmeticIsWord(op);
      TokenizeNode(Out(l, sep, true), Out(r, sep, true), op, sep, if nested then " " else "");
  }

  /** The tokens of two space-terminated operand outputs followed by an operator and spaces. */
  lemma TokenizeNode(a: string, b: string, op: string, sep: string, tail: string)
    requires |a| > 0 && a[|a| - 1] == ' ' && |b| > 0 && b[|b| - 1] == ' '
    requires IsWord(op) && (sep == "" || sep == " ") && (tail == "" || tail == " ")
    ensures Tokenize(a + b + (op + sep + tail)) == Tokenize(a) + Tokenize(b) + [op]
  {
    var x := op + sep + tail;
    assert x == op + (sep + tail);
    OperatorTail(op, sep + tail);
    TokenizeThree(a, b, x);
  }

  lemma TokenizeThree(a: string, b: string, x: string)
    requires |a| > 0 && a[|a| - 1] == ' ' && |b| > 0 && b[|b| - 1] == ' '
    ensures Tokenize(a + b + x) == Tokenize(a) + Tokenize(b) + Tokenize(x)
  {
    var ab := a + b;
    assert ab[|ab| - 1] == ' ';
    TokenizeAppend(a, b);
    TokenizeAppend(ab, x);
  }

  lemma OperatorTail(op: string, w: string)
    requires IsWord(op) && (w == "" || w == " " || w == "  ")
    ensures Tokenize(op + w) == [op]
  {
    TokenizeWord(op);
    if w != "" {
      TokenizeAppend(op, w);
      assert Tokenize(w) == [];
    } else {
      assert op + w == op;
    }
  }

  lemma {:induction false} OutStart(e: Expr, sep: string, nested: bool)
    requires WellFormed(e)
    ensures |Out(e, sep, nested)| > 0 && |Leftmost(e)| > 0 && Out(e, sep, nested)[0] == Leftmost(e)[0]
  {
    match e
    case Leaf(_) =>
    case Node(_, l, r) =>
      OutStart(l, sep, true);
  }

  /**
    Completeness on fully parenthesised input: the text of a tree whose leaves
    hold no brackets and whose first numeral carries no sign converts, whichever
    `sep` the closing-bracket loop uses, to an output whose tokens are exactly
    the tree's postfix tokens.
   */
  lemma ConvertTree(e: Expr, sep: string)
    requires WellFormed(e) && Plain(e) && !StartsWithOperator(Leftmost(e))
    requires sep == "" || sep == " "
    ensures Conversion(Text(e), sep) == Some(Out(e, sep, false))
    ensures Tokenize(Out(e, sep, false)) == Postfix(e)
  {
    TextBalanced(e);
    TextTokens(e);
    LexInfix(e);
    var o := Out(e, sep, false);
    assert Lex(Tokenize(Text(e)), KindOf) == InfixKinds(e);
    var pf := RunTree(e, sep);
    OutStart(e, sep, false);
    assert Verdict(Scanned(Conv([], o, Leaves(e), Operators(e)), false)) == o;
    assert Conversion(Text(e), sep) == Some(Verdict(Scanned(Conv([], o, Leaves(e), Operators(e)), false)));
    OutTokens(e, sep, false);
  }

  /**
    The other side of ConvertTree's restriction: when the tree's first numeral
    carries a sign ("-5"), the output starts with that sign, and infixToPostfix
    reports the text invalid.
   */
  lemma ConvertSigned(e: Expr, sep: string)
    requires WellFormed(e) && Plain(e) && StartsWithOperator(Leftmost(e))
    requires sep == "" || sep == " "
    ensures Conversion(Text(e), sep) == Some(INVALID)
  {
    TextBalanced(e);
    TextTokens(e);
    LexInfix(e);
    var o := Out(e, sep, false);
    assert Lex(Tokenize(Text(e)), KindOf) == InfixKinds(e);
    var pf := RunTree(e, sep);
    OutStart(e, sep, false);
    assert StartsWithOperator(o);
    assert Verdict(Scanned(Conv([], o, Leaves(e), Operators(e)), false)) == INVALID;
  }

  /** The whole scan of a tree's lexed infix tokens from the start state. */
  lemma RunTree(e: Expr, sep: string) returns (o: string)
    requires WellFormed(e)
    ensures o == Out(e, sep, false)
    ensures Run(START, InfixKinds(e), 0, sep) == Some(Scanned(Conv([], o, Leaves(e), Operators(e)), false))
    ensures Leaves(e) == Operators(e) + 1
  {
    var ts := InfixKinds(e);
    WellFormedArithmetic(e);
    LeavesOperators(e);
    assert ts[0..|ts|] == ts;
    var n, m := RunTreeAt(START, e, ts, 0, sep);
    assert [] + Out(e, sep, false) == Out(e, sep, false);
    o := Out(e, sep, false);
    assert Run(n, ts, m, sep) == Some(Scanned(n, false));
  }

  // ----- Worked examples -----

  /** A numeral read after an output that ends in a space. */
  lemma StepNumeral(c: Conv, ts: seq<Token>, i: nat, x: string, sep: string) returns (n: Conv)
    requires Spaced(c.postfix) && i < |ts| && ts[i] == Token(x, Numeral)
    ensures n == Conv(c.os, c.postfix + (x + " "), c.numCount + 1, c.opCount)
    ensures Spaced(n.postfix)
    ensures Run(c, ts, i, sep) == Run(n, ts, i + 1, sep)
  {
    n := Conv(c.os, c.postfix + (x + " "), c.numCount + 1, c.opCount);
    RunOne(c, ts, i, n, sep);
  }

  /** An operator pushed at once: onto an empty stack or over an entry of lower precedence. */
  lemma StepPush(c: Conv, ts: seq<Token>, i: nat, p: string, sep: string) returns (n: Conv)
    requires PrecedenceDefined(p) && i < |ts| && ts[i] == Token(p, Operator)
    requires c.os == [] || (PrecedenceDefined(c.os[|c.os| - 1]) && Precedence(c.os[|c.os| - 1]) < Precedence(p))
    ensures n == Conv(c.os + [p], c.postfix, c.numCount, c.opCount + 1)
    ensures Run(c, ts, i, sep) == Run(n, ts, i + 1, sep)
  {
    n := Conv(c.os + [p], c.postfix, c.numCount, c.opCount + 1);
    RunOne(c, ts, i, n, sep);
  }

  /** `x p y q z` with `p` ranked below `q`: both operators wait on the stack. */
  lemma RunLowHigh(c: Conv, ts: seq<Token>, i: nat, x: string, p: string, y: string, q: string, z: string, sep: string)
    returns (n: Conv)
    requires Spaced(c.postfix) && i + 5 <= |ts|
    requires ts[i] == Token(x, Numeral) && ts[i + 1] == Token(p, Operator) && ts[i + 2] == Token(y, Numeral)
    requires ts[i + 3] == Token(q, Operator) && ts[i + 4] == Token(z, Numeral)
    requires PrecedenceDefined(p) && PrecedenceDefined(q) && Precedence(p) < Precedence(q)
    requires c.os == [] || (PrecedenceDefined(c.os[|c.os| - 1]) && Precedence(c.os[|c.os| - 1]) < Precedence(p))
    ensures n == Conv(c.os + [p, q], c.postfix + (x + " ") + (y + " ") + (z + " "), c.numCount + 3, c.opCount + 2)
    ensures Run(c, ts, i, sep) == Run(n, ts, i + 5, sep)
  {
    var c1 := StepNumeral(c, ts, i, x, sep);
    var c2 := StepPush(c1, ts, i + 1, p, sep);
    var c3 := StepNumeral(c2, ts, i + 2, y, sep);
    var c4 := StepPush(c3, ts, i + 3, q, sep);
    n := StepNumeral(c4, ts, i + 4, z, sep);
    assert c.os + [p] + [q] == c.os + [p, q];
  }

  /** Flushing two operators: the top one with a space after it, the bottom one without. */
  lemma FlushTwo(p: string, q: string, pf: string)
    requires IsOperator(p) && IsOperator(q)
    ensures Flush([p, q], pf) == pf + q + " " + p
  {
    assert [p, q][..1] == [p];
    assert [p][..0] == [];
    assert pf + q + " " + p + "" == pf + q + " " + p;
    assert Flush([p], pf + q + " ") == pf + q + " " + p + "";
  }

  /** A closer over `open p q`: both operators go to the output, each followed by `sep`. */
  lemma CloseTwo(c: Conv, ts: seq<Token>, k: nat, open: string, p: string, q: string, close: string, sep: string)
    returns (n: Conv)
    requires c.os == [open, p, q] && IsPair(open, close) && !IsPair(p, close) && !IsPair(q, close)
    requires k < |ts| && ts[k] == Token(close, Closer)
    ensures n == Conv([], c.postfix + q + sep + p + sep, c.numCount, c.opCount)
    ensures Run(c, ts, k, sep) == Run(n, ts, k + 1, sep)
  {
    assert [open, p, q][..2] == [open, p];
    assert [open, p][..1] == [open];
    assert PopToOpener([open], c.postfix + q + sep + p + sep, close, sep) == Ops([open], c.postfix + q + sep + p + sep);
    assert PopToOpener([open, p], c.postfix + q + sep, close, sep) == Ops([open], c.postfix + q + sep + p + sep);
    assert PopToOpener(c.os, c.postfix, close, sep) == Ops([open], c.postfix + q + sep + p + sep);
    assert [open][..0] == [];
    n := Conv([], c.postfix + q + sep + p + sep, c.numCount, c.opCount);
    RunOne(c, ts, k, n, sep);
  }

  /** The scan of `open x p y q z close`, with `p` ranked above the opener and below `q`. */
  lemma BracketRun(ts: seq<Token>, open: string, x: string, p: string, y: string, q: string, z: string,
                   close: string, sep: string)
    requires ts == [Token(open, Opener), Token(x, Numeral), Token(p, Operator), Token(y, Numeral),
                    Token(q, Operator), Token(z, Numeral), Token(close, Closer)]
    requires PrecedenceDefined(open) && PrecedenceDefined(p) && PrecedenceDefined(q)
    requires Precedence(open) < Precedence(p) < Precedence(q)
    requires IsPair(open, close) && !IsPair(p, close) && !IsPair(q, close)
    ensures Run(START, ts, 0, sep)
         == Some(Scanned(Conv([], (x + " ") + (y + " ") + (z + " ") + q + sep + p + sep, 3, 2), false))
  {
    BracketRunAt(ts, open, x, p, y, q, z, close, sep);
  }

  /** BracketRun, with the tokens given one position at a time. */
  lemma BracketRunAt(ts: seq<Token>, open: string, x: string, p: string, y: string, q: string, z: string,
                     close: string, sep: string)
    requires |ts| == 7 && ts[0] == Token(open, Opener) && ts[1] == Token(x, Numeral) && ts[2] == Token(p, Operator)
    requires ts[3] == Token(y, Numeral) && ts[4] == Token(q, Operator) && ts[5] == Token(z, Numeral)
    requires ts[6] == Token(close, Closer)
    requires PrecedenceDefined(open) && PrecedenceDefined(p) && PrecedenceDefined(q)
    requires Precedence(open) < Precedence(p) < Precedence(q)
    requires IsPair(open, close) && !IsPair(p, close) && !IsPair(q, close)
    ensures Run(START, ts, 0, sep)
         == Some(Scanned(Conv([], (x + " ") + (y + " ") + (z + " ") + q + sep + p + sep, 3, 2), false))
  {
    var c1 := StepOpen(START, ts, 0, open, sep);
    assert c1 == Conv([open], "", 0, 0);
    var c6 := RunLowHigh(c1, ts, 1, x, p, y, q, z, sep);
    assert [open] + [p, q] == [open, p, q];
    assert [] + (x + " ") == x + " ";
    assert c6 == Conv([open, p, q], (x + " ") + (y + " ") + (z + " "), 3, 2);
    assert Run(START, ts, 0, sep) == Run(c6, ts, 6, sep);
    var n := CloseTwo(c6, ts, 6, open, p, q, close, sep);
    assert Run(n, ts, 7, sep) == Some(Scanned(n, false));
  }

  /** The scan of `x p y q z`, with `p` ranked below `q`. */
  lemma PlainRun(ts: seq<Token>, x: string, p: string, y: string, q: string, z: string, sep: string)
    requires ts == [Token(x, Numeral), Token(p, Operator), Token(y, Numeral), Token(q, Operator), Token(z, Numeral)]
    requires PrecedenceDefined(p) && PrecedenceDefined(q) && Precedence(p) < Precedence(q)
    ensures Run(START, ts, 0, sep) == Some(Scanned(Conv([p, q], (x + " ") + (y + " ") + (z + " "), 3, 2), false))
  {
    var n := RunLowHigh(START, ts, 0, x, p, y, q, z, sep);
    assert [] + (x + " ") == x + " ";
    assert [] + [p, q] == [p, q];
  }

  /** The kinds and ranks of the bracket and operator tokens of the examples. */
  lemma SymbolFacts()
    ensures KindOf("(") == Opener && KindOf(")") == Closer && KindOf("+") == Operator && KindOf("*") == Operator
    ensures IsOperator("+") && IsOperator("*")
    ensures PrecedenceDefined("(") && PrecedenceDefined("+") && PrecedenceDefined("*")
    ensures Precedence("(") == 0 && Precedence("+") == 1 && Precedence("*") == 2
    ensures IsPair("(", ")") && !IsPair("+", ")") && !IsPair("*", ")")
  {
    BracketKinds();
    ArithmeticClass("+");
    ArithmeticClass("*");
    PrecedenceOfChar('(');
    BracketPair("+");
    BracketPair("*");
  }

  /** A digit on its own is a numeral token. */
  lemma DigitKind(d: char)
    requires IsDigit(d)
    ensures KindOf([d]) == Numeral && IsWord([d]) && !IsOperator([d])
  {
    DigitNumeral(d);
    ClassifyChar(d, d);
  }

  lemma JoinFive(ts: seq<string>)
    requires |ts| == 5
    ensures Join(ts) == ts[0] + " " + ts[1] + " " + ts[2] + " " + ts[3] + " " + ts[4]
  {
    assert ts[3..][1..] == ts[4..];
    assert Join(ts[3..]) == ts[3] + " " + ts[4];
    assert ts[2..][1..] == ts[3..];
    assert Join(ts[2..]) == ts[2] + " " + Join(ts[3..]);
    assert ts[1..][1..] == ts[2..];
    assert Join(ts[1..]) == ts[1] + " " + Join(ts[2..]);
    SpacedRight(ts[0], ts[1], ts[2], ts[3], ts[4]);
  }

  /** Five words joined by spaces, nested to the right as Join nests them, read from the left. */
  lemma SpacedRight(a: string, b: string, c: string, d: string, e: string)
    ensures a + " " + (b + " " + (c + " " + (d + " " + e))) == a + " " + b + " " + c + " " + d + " " + e
  {
    Slices.Assoc(c + " ", d + " ", e);
    Slices.Assoc(b + " ", c + " ", (d + " ") + e);
    Slices.Assoc(b + " " + (c + " "), d + " ", e);
    Slices.Assoc(a + " ", b + " ", (c + " ") + ((d + " ") + e));
    Slices.Assoc(a + " ", (b + " ") + (c + " "), (d + " ") + e);
    Slices.Assoc(a + " " + (b + " ") + (c + " "), d + " ", e);
    Slices.Assoc(a + " ", b + " ", c + " ");
    Slices.Assoc(a + " ", b, " ");
    Slices.Assoc(a + " " + b, " ", c);
    Slices.Assoc(a + " " + b + " " + c, " ", d);
    Slices.Assoc(a + " " + b + " " + c + " " + d, " ", e);
    Slices.Assoc(b, " ", c + " ");
  }

  /** "a + b * c" is its five tokens joined by single spaces. */
  lemma PlainText(a: char, b: char, c: char)
    ensures Join([[a], "+", [b], "*", [c]]) == [a, ' ', '+', ' ', b, ' ', '*', ' ', c]
  {
    JoinFive([[a], "+", [b], "*", [c]]);
  }

  /** "( a + b * c )" is its seven tokens joined by single spaces. */
  lemma BracketText(a: char, b: char, c: char)
    ensures Join(["(", [a], "+", [b], "*", [c], ")"]) == ['(', ' ', a, ' ', '+', ' ', b, ' ', '*', ' ', c, ' ', ')']
  {
    var mid := [[a], "+", [b], "*", [c]];
    PlainText(a, b, c);
    JoinAppend(["("], mid);
    JoinAppend(["("] + mid, [")"]);
    assert ["("] + mid + [")"] == ["(", [a], "+", [b], "*", [c], ")"];
    assert Join(["("]) == "(" && Join([")"]) == ")";
  }

  /** Lexing five tokens one by one. */
  lemma LexFive(toks: seq<string>)
    requires |toks| == 5
    ensures Lex(toks, KindOf) == [Token(toks[0], KindOf(toks[0])), Token(toks[1], KindOf(toks[1])), Token(toks[2], KindOf(toks[2])),
                          Token(toks[3], KindOf(toks[3])), Token(toks[4], KindOf(toks[4]))]
  {
    LexAt(toks, 0, KindOf);
    LexAt(toks, 1, KindOf);
    LexAt(toks, 2, KindOf);
    LexAt(toks, 3, KindOf);
    LexAt(toks, 4, KindOf);
  }

  /** Lexing a run of tokens with one token before it and one after. */
  lemma LexWrap(first: string, mid: seq<string>, last: string)
    ensures Lex([first] + mid + [last], KindOf) == [Token(first, KindOf(first))] + Lex(mid, KindOf) + [Token(last, KindOf(last))]
  {
    LexAppend([first] + mid, [last], KindOf);
    LexAppend([first], mid, KindOf);
    LexSingle(first);
    LexSingle(last);
  }

  lemma WrapFive<T>(first: T, mid: seq<T>, last: T)
    requires |mid| == 5
    ensures [first] + mid + [last] == [first, mid[0], mid[1], mid[2], mid[3], mid[4], last]
  {
  }

  /** The five tokens of "a + b * c" lexed. */
  lemma PlainLex(a: char, b: char, c: char)
    requires IsDigit(a) && IsDigit(b) && IsDigit(c)
    ensures Lex([[a], "+", [b], "*", [c]], KindOf)
         == [Token([a], Numeral), Token("+", Operator), Token([b], Numeral), Token("*", Operator), Token([c], Numeral)]
  {
    DigitKind(a);
    DigitKind(b);
    DigitKind(c);
    SymbolFacts();
    LexFive([[a], "+", [b], "*", [c]]);
  }

  /** "a + b * c" holds no bracket and reads as its five tokens. */
  lemma PlainWords(a: char, b: char, c: char)
    requires IsDigit(a) && IsDigit(b) && IsDigit(c)
    ensures Balance.Balanced([a, ' ', '+', ' ', b, ' ', '*', ' ', c])
    ensures Tokenize([a, ' ', '+', ' ', b, ' ', '*', ' ', c]) == [[a], "+", [b], "*", [c]]
  {
    Balance.BalancedWithoutBrackets([], [a, ' ', '+', ' ', b, ' ', '*', ' ', c]);
    PlainText(a, b, c);
    TokenizeJoin([[a], "+", [b], "*", [c]]);
  }

  /** The lexed tokens of "a + b * c" for digits a, b, c. */
  lemma PlainTokens(a: char, b: char, c: char) returns (ts: seq<Token>)
    requires IsDigit(a) && IsDigit(b) && IsDigit(c)
    ensures var s := [a, ' ', '+', ' ', b, ' ', '*', ' ', c];
            Balance.Balanced(s) && Tokenize(s) == [[a], "+", [b], "*", [c]] && Lex(Tokenize(s), KindOf) == ts
    ensures ts == [Token([a], Numeral), Token("+", Operator), Token([b], Numeral), Token("*", Operator), Token([c], Numeral)]
  {
    PlainWords(a, b, c);
    PlainLex(a, b, c);
    ts := Lex([[a], "+", [b], "*", [c]], KindOf);
  }

  /** The seven tokens of "( a + b * c )" lexed. */
  lemma BracketLex(a: char, b: char, c: char)
    requires IsDigit(a) && IsDigit(b) && IsDigit(c)
    ensures Lex(["(", [a], "+", [b], "*", [c], ")"], KindOf)
         == [Token("(", Opener), Token([a], Numeral), Token("+", Operator), Token([b], Numeral),
             Token("*", Operator), Token([c], Numeral), Token(")", Closer)]
  {
    var mid := [[a], "+", [b], "*", [c]];
    WrapFive("(", mid, ")");
    LexWrap("(", mid, ")");
    BracketKinds();
    PlainLex(a, b, c);
    WrapFive(Token("(", Opener), Lex(mid, KindOf), Token(")", Closer));
  }

  /** "( a + b * c )" is balanced. */
  lemma BracketBalanced(a: char, b: char, c: char)
    requires IsDigit(a) && IsDigit(b) && IsDigit(c)
    ensures Balance.Balanced(['(', ' ', a, ' ', '+', ' ', b, ' ', '*', ' ', c, ' ', ')'])
  {
    var inner := [' ', a, ' ', '+', ' ', b, ' ', '*', ' ', c, ' '];
    Balance.BalancedWithoutBrackets([], inner);
    Balance.BalancedWrap('(', inner, ')');
    assert ['('] + inner + [')'] == ['(', ' ', a, ' ', '+', ' ', b, ' ', '*', ' ', c, ' ', ')'];
  }

  /** "( a + b * c )" reads as its seven tokens. */
  lemma BracketWords(a: char, b: char, c: char)
    requires IsDigit(a) && IsDigit(b) && IsDigit(c)
    ensures Tokenize(['(', ' ', a, ' ', '+', ' ', b, ' ', '*', ' ', c, ' ', ')']) == ["(", [a], "+", [b], "*", [c], ")"]
  {
    BracketText(a, b, c);
    TokenizeJoin(["(", [a], "+", [b], "*", [c], ")"]);
  }

  /** The tokens of "( a + b * c )" for digits a, b, c. */
  lemma BracketTokens(a: char, b: char, c: char) returns (ts: seq<Token>)
    requires IsDigit(a) && IsDigit(b) && IsDigit(c)
    ensures var s := ['(', ' ', a, ' ', '+', ' ', b, ' ', '*', ' ', c, ' ', ')'];
            Balance.Balanced(s) && Tokenize(s) == ["(", [a], "+", [b], "*", [c], ")"] && Lex(Tokenize(s), KindOf) == ts
    ensures ts == [Token("(", Opener), Token([a], Numeral), Token("+", Operator), Token([b], Numeral),
                   Token("*", Operator), Token([c], Numeral), Token(")", Closer)]
  {
    BracketBalanced(a, b, c);
    BracketWords(a, b, c);
    BracketLex(a, b, c);
    ts := Lex(["(", [a], "+", [b], "*", [c], ")"], KindOf);
  }

  /** Any input that lexes as `open x p y q z close`, with the ranks of BracketRun, converts to `x y z q p`. */
  lemma BracketConversion(s: string, open: string, x: string, p: string, y: string, q: string, z: string,
                          close: string, sep: string)
    requires Balance.Balanced(s)
    requires Lex(Tokenize(s), KindOf) == [Token(open, Opener), Token(x, Numeral), Token(p, Operator), Token(y, Numeral),
                                  Token(q, Operator), Token(z, Numeral), Token(close, Closer)]
    requires PrecedenceDefined(open) && PrecedenceDefined(p) && PrecedenceDefined(q)
    requires Precedence(open) < Precedence(p) < Precedence(q)
    requires IsPair(open, close) && !IsPair(p, close) && !IsPair(q, close)
    requires |x| > 0 && !IsOperator([x[0]])
    ensures Conversion(s, sep) == Some((x + " ") + (y + " ") + (z + " ") + q + sep + p + sep)
  {
    BracketRun(Lex(Tokenize(s), KindOf), open, x, p, y, q, z, close, sep);
    var pf := (x + " ") + (y + " ") + (z + " ") + q + sep + p + sep;
    assert pf[0] == x[0];
  }

  /** Any input that lexes as `x p y q z`, with `p` ranked below `q`, converts to `x y z q p`. */
  lemma PlainConversion(s: string, x: string, p: string, y: string, q: string, z: string, sep: string)
    requires Balance.Balanced(s)
    requires Lex(Tokenize(s), KindOf) == [Token(x, Numeral), Token(p, Operator), Token(y, Numeral), Token(q, Operator), Token(z, Numeral)]
    requires IsOperator(p) && IsOperator(q) && PrecedenceDefined(p) && PrecedenceDefined(q) && Precedence(p) < Precedence(q)
    requires |x| > 0 && !IsOperator([x[0]])
    ensures Conversion(s, sep) == Some((x + " ") + (y + " ") + (z + " ") + q + " " + p)
  {
    PlainRun(Lex(Tokenize(s), KindOf), x, p, y, q, z, sep);
    var pf := (x + " ") + (y + " ") + (z + " ");
    FlushTwo(p, q, pf);
    assert (pf + q + " " + p)[0] == x[0];
  }

  /**
    As written, the closing-bracket loop glues the operators it pops together:
    "( a + b * c )" converts to "a b c *+", whose last token "*+" is no token of
    the input, and no operator postfixEvaluate knows.
   */
  lemma ClosingGlue(a: char, b: char, c: char)
    requires IsDigit(a) && IsDigit(b) && IsDigit(c)
    ensures Conversion(['(', ' ', a, ' ', '+', ' ', b, ' ', '*', ' ', c, ' ', ')'], "") == Some([a, ' ', b, ' ', c, ' ', '*', '+'])
    ensures Tokenize([a, ' ', b, ' ', c, ' ', '*', '+']) == [[a], [b], [c], "*+"]
    ensures "*+" !in Tokenize(['(', ' ', a, ' ', '+', ' ', b, ' ', '*', ' ', c, ' ', ')'])
  {
    var s := ['(', ' ', a, ' ', '+', ' ', b, ' ', '*', ' ', c, ' ', ')'];
    var ts := BracketTokens(a, b, c);
    SymbolFacts();
    DigitKind(a);
    BracketConversion(s, "(", [a], "+", [b], "*", [c], ")", "");
    GlueText(a, b, c);
    GlueAbsent(a, b, c);
  }

  lemma GlueAbsent(a: char, b: char, c: char)
    ensures "*+" !in ["(", [a], "+", [b], "*", [c], ")"]
  {
  }

  /** The glued output reads as four tokens. */
  lemma GlueText(a: char, b: char, c: char)
    requires IsDigit(a) && IsDigit(b) && IsDigit(c)
    ensures ([a] + " ") + ([b] + " ") + ([c] + " ") + "*" + "" + "+" + "" == [a, ' ', b, ' ', c, ' ', '*', '+']
    ensures Tokenize([a, ' ', b, ' ', c, ' ', '*', '+']) == [[a], [b], [c], "*+"]
  {
    var spaced := ([a] + " ") + ([b] + " ") + ([c] + " ");
    assert spaced == [a, ' ', b, ' ', c, ' '];
    assert spaced + "*" + "" == [a, ' ', b, ' ', c, ' ', '*'];
    var toks := [[a], [b], [c], "*+"];
    assert Join(toks[3..]) == "*+";
    assert toks[2..][1..] == toks[3..];
    assert Join(toks[2..]) == [c] + " " + "*+";
    assert toks[1..][1..] == toks[2..];
    assert Join(toks[1..]) == [b] + " " + Join(toks[2..]);
    assert Join(toks) == [a, ' ', b, ' ', c, ' ', '*', '+'];
    TokenizeJoin(toks);
  }

  /** With a space after each popped operator, "( a + b * c )" converts to "a b c * + ". */
  lemma ClosingSpaced(a: char, b: char, c: char)
    requires IsDigit(a) && IsDigit(b) && IsDigit(c)
    ensures Conversion(['(', ' ', a, ' ', '+', ' ', b, ' ', '*', ' ', c, ' ', ')'], " ")
         == Some([a, ' ', b, ' ', c, ' ', '*', ' ', '+', ' '])
  {
    var s := ['(', ' ', a, ' ', '+', ' ', b, ' ', '*', ' ', c, ' ', ')'];
    var ts := BracketTokens(a, b, c);
    SymbolFacts();
    DigitKind(a);
    BracketConversion(s, "(", [a], "+", [b], "*", [c], ")", " ");
    SpacedOutput(a, b, c);
  }

  lemma SpacedOutput(a: char, b: char, c: char)
    ensures ([a] + " ") + ([b] + " ") + ([c] + " ") + "*" + " " + "+" + " " == [a, ' ', b, ' ', c, ' ', '*', ' ', '+', ' ']
  {
  }

  /** Precedence without brackets: "a + b * c" converts to "a b c * +". */
  lemma PrecedenceExample(a: char, b: char, c: char)
    requires IsDigit(a) && IsDigit(b) && IsDigit(c)
    ensures Conversion([a, ' ', '+', ' ', b, ' ', '*', ' ', c], "") == Some([a, ' ', b, ' ', c, ' ', '*', ' ', '+'])
  {
    var ts := PlainTokens(a, b, c);
    SymbolFacts();
    DigitKind(a);
    PlainConversion([a, ' ', '+', ' ', b, ' ', '*', ' ', c], [a], "+", [b], "*", [c], "");
    PlainOutput(a, b, c);
  }

  lemma PlainOutput(a: char, b: char, c: char)
    ensures ([a] + " ") + ([b] + " ") + ([c] + " ") + "*" + " " + "+" == [a, ' ', b, ' ', c, ' ', '*', ' ', '+']
  {
  }

  // The corrected closing-bracket loop copies tokens: every token of its output is an input token.

  /** The output so far ends in a space (or is empty) and reads only as words of `src`. */
  predicate TokensIn(pf: string, src: seq<string>) {
    Spaced(pf) && forall t :: t in Tokenize(pf) ==> t in src
  }

  /** Every stack entry is a word of `src`. */
  predicate WordsIn(os: seq<string>, src: seq<string>) {
    forall k :: 0 <= k < |os| ==> os[k] in src && IsWord(os[k])
  }

  /** Appending a word to a spaced output adds exactly that token, with or without a space after it. */
  lemma AppendWord(pf: string, w: string)
    requires Spaced(pf) && IsWord(w)
    ensures Tokenize(pf + w) == Tokenize(pf) + [w]
    ensures Tokenize(pf + w + " ") == Tokenize(pf) + [w] && Spaced(pf + w + " ")
  {
    TokenizeAppend(pf, w);
    TokenizeWord(w);
    TokenizeAppend(pf + w, " ");
    assert Tokenize(" ") == [];
  }

  lemma AppendSpace(pf: string)
    requires Spaced(pf)
    ensures Tokenize(pf + " ") == Tokenize(pf) && Spaced(pf + " ")
  {
    TokenizeAppend(pf, " ");
    assert Tokenize(" ") == [];
  }

  lemma {:induction false} PopAtLeastTokens(os: seq<string>, pf: string, p: int, src: seq<string>)
    requires WordsIn(os, src) && TokensIn(pf, src) && PopAtLeast(os, pf, p).Some?
    ensures WordsIn(PopAtLeast(os, pf, p).value.os, src) && TokensIn(PopAtLeast(os, pf, p).value.postfix, src)
    decreases |os|
  {
    if os != [] && Precedence(os[|os| - 1]) >= p {
      var top := os[|os| - 1];
      AppendWord(pf, top);
      assert pf + (top + " ") == pf + top + " ";
      PopAtLeastTokens(os[..|os| - 1], pf + (top + " "), p, src);
    }
  }

  lemma {:induction false} PopToOpenerTokens(os: seq<string>, pf: string, close: string, src: seq<string>)
    requires WordsIn(os, src) && TokensIn(pf, src)
    ensures WordsIn(PopToOpener(os, pf, close, " ").os, src) && TokensIn(PopToOpener(os, pf, close, " ").postfix, src)
    decreases |os|
  {
    if os != [] && !IsPair(os[|os| - 1], close) {
      AppendWord(pf, os[|os| - 1]);
      PopToOpenerTokens(os[..|os| - 1], pf + os[|os| - 1] + " ", close, src);
    }
  }

  /** The flush adds only stacked entries to the output. */
  lemma {:induction false} FlushTokens(os: seq<string>, pf: string, src: seq<string>)
    requires WordsIn(os, src) && TokensIn(pf, src)
    ensures forall t :: t in Tokenize(Flush(os, pf)) ==> t in src
    decreases |os|
  {
    if os != [] && IsOperator(os[|os| - 1]) {
      var top := os[|os| - 1];
      AppendWord(pf, top);
      if |os| > 1 {
        FlushTokens(os[..|os| - 1], pf + top + " ", src);
      } else {
        assert Flush(os, pf) == pf + top + "";
        assert pf + top + "" == pf + top;
      }
    }
  }

  /** With `sep` = " " each step keeps the output and the stack made of input tokens. */
  lemma StepTokens(c: Conv, tok: Token, src: seq<string>)
    requires WordsIn(c.os, src) && TokensIn(c.postfix, src)
    requires tok.text in src && IsWord(tok.text) && Step(c, tok, " ").Continue?
    ensures WordsIn(Step(c, tok, " ").c.os, src) && TokensIn(Step(c, tok, " ").c.postfix, src)
  {
    var t := tok.text;
    match tok.kind
    case Numeral =>
      AppendWord(c.postfix, t);
      assert c.postfix + (t + " ") == c.postfix + t + " ";
    case Operator =>
      if c.os != [] && PrecedenceDefined(c.os[|c.os| - 1]) && PrecedenceDefined(t)
         && Precedence(c.os[|c.os| - 1]) >= Precedence(t) && IsOperator(c.os[|c.os| - 1]) {
        PopAtLeastTokens(c.os, c.postfix, Precedence(t), src);
      }
    case Opener =>
    case Closer =>
      PopToOpenerTokens(c.os, c.postfix, t, src);
      var o := PopToOpener(c.os, c.postfix, t, " ");
      if |o.os| > 1 {
        AppendSpace(o.postfix);
      }
    case Unusable =>
  }

  lemma {:induction false} RunTokens(c: Conv, ts: seq<Token>, i: nat, src: seq<string>)
    requires WordsIn(c.os, src) && TokensIn(c.postfix, src)
    requires forall k :: i <= k < |ts| ==> ts[k].text in src && IsWord(ts[k].text)
    requires Run(c, ts, i, " ").Some?
    ensures WordsIn(Run(c, ts, i, " ").value.c.os, src) && TokensIn(Run(c, ts, i, " ").value.c.postfix, src)
    decreases |ts| - i
  {
    if i < |ts| && Step(c, ts[i], " ").Continue? {
      StepTokens(c, ts[i], src);
      RunTokens(Step(c, ts[i], " ").c, ts, i + 1, src);
    }
  }

  /**
    With a space after each operator the closing-bracket loop pops, every token
    of a valid result is a token of the input: the conversion only reorders.
   */
  lemma CorrectedTokens(s: string)
    requires Conversion(s, " ").Some?
    ensures var r := Conversion(s, " ").value;
            r != INVALID ==> forall t :: t in Tokenize(r) ==> t in Tokenize(s)
  {
    var src := Tokenize(s);
    if Balance.Balanced(s) {
      var ts := Lex(src, KindOf);
      LexLexed(src);
      assert Tokenize("") == [];
      RunTokens(START, ts, 0, src);
      var sc := Run(START, ts, 0, " ").value;
      FlushTokens(sc.c.os, sc.c.postfix, src);
    }
  }

  // ----- Minimally bracketed input: the precedence loop at work -----

  function Wrap(b: bool, ts: seq<Token>): seq<Token> {
    if b then [Token("(", Opener)] + ts + [Token(")", Closer)] else ts
  }

  /** The lexed minimal tokens of a well-formed tree. */
  function MinKinds(e: Expr): seq<Token>
  {
    match e
    case Leaf(t) => [Token(t, Numeral)]
    case Node(op, l, r) =>
      Wrap(LeftBracketed(op, l), MinKinds(l)) + [Token(op, Operator)] + Wrap(RightBracketed(op, r), MinKinds(r))
  }

  lemma {:induction false} LexMin(e: Expr)
    requires WellFormed(e)
    ensures Lex(MinTokens(e), KindOf) == MinKinds(e)
  {
    match e
    case Leaf(t) =>
      LexAt([t], 0, KindOf);
    case Node(op, l, r) =>
      LexMin(l);
      LexMin(r);
      LexWrapped(LeftBracketed(op, l), MinTokens(l));
      LexWrapped(RightBracketed(op, r), MinTokens(r));
      ArithmeticClass(op);
      LexAround(Bracketed(LeftBracketed(op, l), MinTokens(l)), op, Bracketed(RightBracketed(op, r), MinTokens(r)));
  }

  lemma LexWrapped(b: bool, toks: seq<string>)
    ensures Lex(Bracketed(b, toks), KindOf) == Wrap(b, Lex(toks, KindOf))
  {
    if b {
      LexWrap("(", toks, ")");
      BracketKinds();
    }
  }

  lemma LexAround(a: seq<string>, op: string, b: seq<string>)
    requires KindOf(op) == Operator
    ensures Lex(a + [op] + b, KindOf) == Lex(a, KindOf) + [Token(op, Operator)] + Lex(b, KindOf)
  {
    LexAppend(a + [op], b, KindOf);
    LexAppend(a, [op], KindOf);
    LexSingle(op);
  }

  /** A sequence back to front: the order in which entries leave the top of a stack. */
  function Reversed(s: seq<string>): seq<string>
    decreases |s|
  {
    if s == [] then [] else [s[|s| - 1]] + Reversed(s[..|s| - 1])
  }

  lemma {:induction false} ReversedFront(x: string, s: seq<string>)
    ensures Reversed([x] + s) == Reversed(s) + [x]
    decreases |s|
  {
    var xs := [x] + s;
    if s == [] {
      assert xs[..0] == [];
    } else {
      assert xs[|xs| - 1] == s[|s| - 1];
      assert xs[..|xs| - 1] == [x] + s[..|s| - 1];
      ReversedFront(x, s[..|s| - 1]);
    }
  }

  /**
    The operators a scan of MinKinds(e) leaves on the stack: the root's and, down
    the right spine, those of the operands read without brackets.
   */
  function Pending(e: Expr): seq<string>
  {
    match e
    case Leaf(_) => []
    case Node(op, _, r) => [op] + (if RightBracketed(op, r) then [] else Pending(r))
  }

  /** The postfix tokens a scan of MinKinds(e) has written by then. */
  function Emitted(e: Expr): seq<string>
  {
    match e
    case Leaf(t) => [t]
    case Node(op, l, r) => Postfix(l) + (if RightBracketed(op, r) then Postfix(r) else Emitted(r))
  }

  /** What has been written, followed by the pending operators popped top first, is the postfix form. */
  lemma {:induction false} EmittedPending(e: Expr)
    ensures Emitted(e) + Reversed(Pending(e)) == Postfix(e)
  {
    match e
    case Leaf(_) =>
    case Node(op, l, r) =>
      var rb := RightBracketed(op, r);
      var q := if rb then [] else Pending(r);
      var x := if rb then Postfix(r) else Emitted(r);
      ReversedFront(op, q);
      if !rb {
        EmittedPending(r);
      }
      assert x + Reversed(q) == Postfix(r);
      assert Emitted(e) + Reversed(Pending(e)) == Postfix(l) + (x + Reversed(q)) + [op];
  }

  /** Arithmetic operators ranked at least `p`. */
  predicate Ranked(ops: seq<string>, p: int) {
    forall k :: 0 <= k < |ops| ==> IsArithmetic(ops[k]) && Rank(ops[k]) >= p
  }

  /** The pending operators rank at least as high as the root's. */
  lemma {:induction false} PendingRanked(e: Expr)
    requires Spelled(e) && e.Node?
    ensures Ranked(Pending(e), Rank(e.op))
  {
    var op, r := e.op, e.right;
    if !RightBracketed(op, r) && r.Node? {
      PendingRanked(r);
      RankedFront(op, Pending(r), Rank(op));
    }
  }

  lemma RankedFront(op: string, ops: seq<string>, p: int)
    requires IsArithmetic(op) && Rank(op) >= p && Ranked(ops, p)
    ensures Ranked([op] + ops, p)
  {
  }

  /** Inner nodes carry one of the five operators, leaves are words: what the scan needs of a well-formed tree. */
  predicate Spelled(e: Expr) {
    match e
    case Leaf(t) => IsWord(t)
    case Node(op, l, r) => IsArithmetic(op) && Spelled(l) && Spelled(r)
  }

  lemma {:induction false} WellFormedSpelled(e: Expr)
    requires WellFormed(e)
    ensures Spelled(e)
  {
    match e
    case Leaf(_) =>
    case Node(_, l, r) =>
      WellFormedSpelled(l);
      WellFormedSpelled(r);
  }

  /** The top of the stack is no operator that one of rank `p` would pop: nothing, "(" or an operator ranked below. */
  predicate Beneath(os: seq<string>, p: int) {
    os == [] || os[|os| - 1] == "(" || (IsArithmetic(os[|os| - 1]) && Rank(os[|os| - 1]) < p)
  }

  /** A tree's minimal tokens may be read over a stack whose top none of the tree's operators pops. */
  predicate Admits(os: seq<string>, e: Expr) {
    e.Leaf? || Beneath(os, Rank(e.op))
  }

  /** A piece of output that ends in a space, starts with `first` and reads as `toks`. */
  predicate Written(w: string, toks: seq<string>, first: string) {
    |w| > 0 && w[|w| - 1] == ' ' && first <= w && Tokenize(w) == toks
  }

  lemma WrittenThen(w1: string, t1: seq<string>, first: string, w2: string)
    requires Written(w1, t1, first) && Spaced(w2)
    ensures Written(w1 + w2, t1 + Tokenize(w2), first)
  {
    TokenizeAppend(w1, w2);
    Slices.PrefixAppend(first, w1, w2);
  }

  /** A word and a space in front of a spaced piece of output. */
  lemma WordThen(t: string, w: string)
    requires IsWord(t) && Spaced(w)
    ensures Tokenize((t + " ") + w) == [t] + Tokenize(w) && Spaced((t + " ") + w)
  {
    OperatorTail(t, " ");
    TokenizeAppend(t + " ", w);
  }

  /** The top of a ranked run, and the rest. */
  lemma RankedTop(ops: seq<string>, p: int)
    requires Ranked(ops, p) && ops != []
    ensures var top := ops[|ops| - 1];
            IsWord(top) && IsOperator(top) && PrecedenceDefined(top) && Precedence(top) == Rank(top) && Rank(top) >= p
    ensures !IsPair(ops[|ops| - 1], ")")
    ensures Ranked(ops[..|ops| - 1], p) && Reversed(ops) == [ops[|ops| - 1]] + Reversed(ops[..|ops| - 1])
  {
    var top := ops[|ops| - 1];
    assert IsArithmetic(top) && Rank(top) >= p;
    TopFacts(top);
    RankedRest(ops, p);
  }

  lemma TopFacts(top: string)
    requires IsArithmetic(top)
    ensures IsWord(top) && IsOperator(top) && PrecedenceDefined(top) && Precedence(top) == Rank(top)
    ensures !IsPair(top, ")")
  {
    ArithmeticClass(top);
    ArithmeticIsWord(top);
    BracketPair(top);
  }

  lemma RankedRest(ops: seq<string>, p: int)
    requires Ranked(ops, p) && ops != []
    ensures Ranked(ops[..|ops| - 1], p) && Reversed(ops) == [ops[|ops| - 1]] + Reversed(ops[..|ops| - 1])
  {
    var rest := ops[..|ops| - 1];
    forall k | 0 <= k < |rest|
      ensures IsArithmetic(rest[k]) && Rank(rest[k]) >= p
    {
      assert rest[k] == ops[k];
    }
  }

  /** The operator loop stops at once on a stack whose top is beneath rank `p`. */
  lemma PopNone(below: seq<string>, pf: string, p: int)
    requires Beneath(below, p) && p >= 1
    ensures PopAtLeast(below, pf, p) == Some(Ops(below, pf))
  {
    if below != [] {
      var top := below[|below| - 1];
      if top == "(" {
        SymbolFacts();
      } else {
        ArithmeticClass(top);
      }
    }
  }

  lemma PopAtLeastOne(os: seq<string>, pf: string, p: int, rest: seq<string>)
    requires os != [] && rest == os[..|os| - 1] && PrecedenceDefined(os[|os| - 1]) && Precedence(os[|os| - 1]) >= p
    ensures PopAtLeast(os, pf, p) == PopAtLeast(rest, pf + (os[|os| - 1] + " "), p)
  {
  }

  /** The operator loop pops the ranked operators above `below` and stops there, writing each with a space after it. */
  lemma {:induction false} PopPending(below: seq<string>, ops: seq<string>, pf: string, p: int) returns (w: string)
    requires Ranked(ops, p) && Beneath(below, p) && p >= 1
    ensures PopAtLeast(below + ops, pf, p) == Some(Ops(below, pf + w))
    ensures Tokenize(w) == Reversed(ops) && Spaced(w)
    decreases |ops|
  {
    if ops == [] {
      assert below + ops == below;
      PopNone(below, pf, p);
      w := "";
      assert pf + w == pf;
    } else {
      var top, rest := ops[|ops| - 1], ops[..|ops| - 1];
      RankedTop(ops, p);
      var os := below + ops;
      assert os[..|os| - 1] == below + rest;
      PopAtLeastOne(os, pf, p, below + rest);
      var w1 := PopPending(below, rest, pf + (top + " "), p);
      w := (top + " ") + w1;
      Slices.Assoc(pf, top + " ", w1);
      WordThen(top, w1);
    }
  }

  lemma PopToOpenerOne(os: seq<string>, pf: string, rest: seq<string>)
    requires os != [] && rest == os[..|os| - 1] && !IsPair(os[|os| - 1], ")")
    ensures PopToOpener(os, pf, ")", " ") == PopToOpener(rest, pf + os[|os| - 1] + " ", ")", " ")
  {
  }

  /** The closing-bracket loop, with a space after each entry, pops the operators above an opening bracket. */
  lemma {:induction false} PopToBracket(below: seq<string>, ops: seq<string>, pf: string, p: int) returns (w: string)
    requires Ranked(ops, p)
    ensures PopToOpener(below + ["("] + ops, pf, ")", " ") == Ops(below + ["("], pf + w)
    ensures Tokenize(w) == Reversed(ops) && Spaced(w)
    decreases |ops|
  {
    if ops == [] {
      assert below + ["("] + ops == below + ["("];
      SymbolFacts();
      w := "";
      assert pf + w == pf;
    } else {
      var top, rest := ops[|ops| - 1], ops[..|ops| - 1];
      RankedTop(ops, p);
      var os := below + ["("] + ops;
      assert os[..|os| - 1] == below + ["("] + rest;
      PopToOpenerOne(os, pf, below + ["("] + rest);
      Slices.Assoc(pf, top, " ");
      var w1 := PopToBracket(below, rest, pf + (top + " "), p);
      w := (top + " ") + w1;
      Slices.Assoc(pf, top + " ", w1);
      WordThen(top, w1);
    }
  }

  /** The final loop pops every operator, each followed by a space except the bottom one. */
  lemma {:induction false} FlushPending(ops: seq<string>, pf: string, p: int) returns (w: string)
    requires Ranked(ops, p)
    ensures Flush(ops, pf) == pf + w && Tokenize(w) == Reversed(ops)
    decreases |ops|
  {
    if ops == [] {
      w := "";
      assert pf + w == pf;
    } else {
      var top, rest := ops[|ops| - 1], ops[..|ops| - 1];
      RankedTop(ops, p);
      var tail := if |ops| > 1 then " " else "";
      var w1 := FlushPending(rest, pf + top + tail, p);
      w := top + tail + w1;
      assert pf + top + tail + w1 == pf + w;
      OperatorTail(top, tail);
      if |ops| > 1 {
        TokenizeAppend(top + tail, w1);
      } else {
        assert rest == [] && w1 == [];
        assert w == top + tail;
      }
    }
  }

  /** An operator over a stack it does not pop is pushed at once. */
  lemma StepPushBeneath(c: Conv, op: string, sep: string)
    requires IsArithmetic(op) && Beneath(c.os, Rank(op))
    ensures Step(c, Token(op, Operator), sep) == Continue(PushOperator(c, c.os, c.postfix, op))
  {
    ArithmeticClass(op);
    if c.os != [] {
      var top := c.os[|c.os| - 1];
      if top == "(" {
        SymbolFacts();
      } else {
        ArithmeticClass(top);
      }
    }
  }

  /** An operator under an operator of equal or higher precedence runs the popping loop first. */
  lemma StepPopFirst(c: Conv, op: string, o: Ops, sep: string)
    requires IsArithmetic(op) && c.os != []
    requires IsArithmetic(c.os[|c.os| - 1]) && Rank(c.os[|c.os| - 1]) >= Rank(op)
    requires PopAtLeast(c.os, c.postfix, Rank(op)) == Some(o)
    ensures Step(c, Token(op, Operator), sep) == Continue(PushOperator(c, o.os, o.postfix, op))
  {
    ArithmeticClass(op);
    ArithmeticClass(c.os[|c.os| - 1]);
  }

  /**
    An operator after an operand: the operand's pending operators, all ranked at
    least as high, are popped and the operator is pushed over `below`.
   */
  lemma StepMinOperator(c1: Conv, below: seq<string>, ops: seq<string>, op: string, ts: seq<Token>, j: nat, sep: string)
    returns (c2: Conv, w: string)
    requires IsArithmetic(op) && c1.os == below + ops && Ranked(ops, Rank(op)) && Beneath(below, Rank(op))
    requires j < |ts| && ts[j] == Token(op, Operator)
    ensures c2 == Conv(below + [op], c1.postfix + w, c1.numCount, c1.opCount + 1)
    ensures Tokenize(w) == Reversed(ops) && Spaced(w)
    ensures Run(c1, ts, j, sep) == Run(c2, ts, j + 1, sep)
  {
    if ops == [] {
      assert below + ops == below;
      w := "";
      assert c1.postfix + w == c1.postfix;
      StepPushBeneath(c1, op, sep);
    } else {
      assert c1.os[|c1.os| - 1] == ops[|ops| - 1];
      assert IsArithmetic(ops[|ops| - 1]) && Rank(ops[|ops| - 1]) >= Rank(op);
      w := PopPending(below, ops, c1.postfix, Rank(op));
      StepPopFirst(c1, op, Ops(below, c1.postfix + w), sep);
    }
    c2 := Conv(below + [op], c1.postfix + w, c1.numCount, c1.opCount + 1);
    RunOne(c1, ts, j, c2, sep);
  }

  /** Three stretches of the scan, one after the other. */
  lemma RunChain(c0: Conv, c1: Conv, c2: Conv, c3: Conv, ts: seq<Token>, i0: nat, i1: nat, i2: nat, i3: nat, sep: string)
    requires Run(c0, ts, i0, sep) == Run(c1, ts, i1, sep)
    requires Run(c1, ts, i1, sep) == Run(c2, ts, i2, sep)
    requires Run(c2, ts, i2, sep) == Run(c3, ts, i3, sep)
    ensures Run(c0, ts, i0, sep) == Run(c3, ts, i3, sep)
  {
  }

  /** A closer over the ranked operators of a bracketed operand pops them, then its opener. */
  lemma StepMinClose(c: Conv, c2: Conv, ops: seq<string>, p: int, ts: seq<Token>, k: nat, sep: string)
    returns (n: Conv, w: string)
    requires sep == " " && c2.os == c.os + ["("] + ops && Ranked(ops, p)
    requires k < |ts| && ts[k] == Token(")", Closer)
    ensures n == Conv(c.os, c2.postfix + w, c2.numCount, c2.opCount)
    ensures Tokenize(w) == Reversed(ops) && Spaced(w)
    ensures Run(c2, ts, k, sep) == Run(n, ts, k + 1, sep)
  {
    var wp := PopToBracket(c.os, ops, c2.postfix, p);
    var tail := if c.os != [] then " " else "";
    w := wp + tail;
    n := Conv(c.os, c2.postfix + w, c2.numCount, c2.opCount);
    assert (c.os + ["("])[..|c.os|] == c.os;
    Slices.Assoc(c2.postfix, wp, tail);
    TokenizeAppend(wp, tail);
    assert Tokenize(tail) == [];
    RunOne(c2, ts, k, n, sep);
  }

  /** The operators a node's right operand leaves on the stack: none when it is read in brackets. */
  function RightPending(e: Expr): seq<string>
    requires e.Node?
  {
    if RightBracketed(e.op, e.right) then [] else Pending(e.right)
  }

  /** The postfix tokens a node's right operand has written once it is read. */
  function RightEmitted(e: Expr): seq<string>
    requires e.Node?
  {
    if RightBracketed(e.op, e.right) then Postfix(e.right) else Emitted(e.right)
  }

  /** Where a node's left operand, its operator and its right operand lie among its minimal tokens. */
  lemma SplitMin(ts: seq<Token>, i: nat, m: nat, e: Expr) returns (j: nat)
    requires e.Node? && m == i + |MinKinds(e)| && m <= |ts| && ts[i..m] == MinKinds(e)
    ensures j == i + |Wrap(LeftBracketed(e.op, e.left), MinKinds(e.left))| && j < m
    ensures ts[i..j] == Wrap(LeftBracketed(e.op, e.left), MinKinds(e.left)) && ts[j] == Token(e.op, Operator)
    ensures m == j + 1 + |Wrap(RightBracketed(e.op, e.right), MinKinds(e.right))|
    ensures ts[j + 1..m] == Wrap(RightBracketed(e.op, e.right), MinKinds(e.right))
  {
    var a := Wrap(LeftBracketed(e.op, e.left), MinKinds(e.left));
    var b := Wrap(RightBracketed(e.op, e.right), MinKinds(e.right));
    j := i + |a|;
    assert MinKinds(e) == a + [Token(e.op, Operator)] + b;
    Slices.Around(ts, i, j, m, a, Token(e.op, Operator), b);
  }

  /** Output a tree's operand has written, followed by its pending operators popped top first, reads as its postfix tokens. */
  lemma PendingWritten(w1: string, w2: string, x: Expr)
    requires Written(w1, Emitted(x), Leftmost(x)) && Tokenize(w2) == Reversed(Pending(x)) && Spaced(w2)
    ensures Written(w1 + w2, Postfix(x), Leftmost(x))
  {
    WrittenThen(w1, Emitted(x), Leftmost(x), w2);
    EmittedPending(x);
  }

  lemma RankedWeaker(ops: seq<string>, p: int, q: int)
    requires Ranked(ops, p) && q <= p
    ensures Ranked(ops, q)
  {
  }

  /** A left operand read without brackets may be read where its parent may, and its pending operators rank at least as high. */
  lemma LeftAdmits(os: seq<string>, e: Expr)
    requires e.Node? && !LeftBracketed(e.op, e.left) && Spelled(e) && Beneath(os, Rank(e.op))
    ensures Admits(os, e.left) && Ranked(Pending(e.left), Rank(e.op))
  {
    if e.left.Node? {
      PendingRanked(e.left);
      RankedWeaker(Pending(e.left), Rank(e.left.op), Rank(e.op));
    }
  }

  /** A right operand read without brackets outranks its parent's operator, which is on top of the stack. */
  lemma RightAdmits(os: seq<string>, e: Expr)
    requires e.Node? && !RightBracketed(e.op, e.right) && IsArithmetic(e.op)
    requires os != [] && os[|os| - 1] == e.op
    ensures Admits(os, e.right)
  {
  }

  /**
    Reading a tree's minimal tokens over a stack it admits pushes its pending
    operators, writes its emitted tokens and counts its leaves and operators.
    With `sep` = "" this holds while no brackets are read.
   */
  lemma {:induction false} RunMinAt(c: Conv, e: Expr, ts: seq<Token>, i: nat, m: nat, sep: string) returns (n: Conv, w: string)
    requires Spelled(e) && Admits(c.os, e) && Spaced(c.postfix) && (sep == " " || Unbracketed(e))
    requires m == i + |MinKinds(e)| && m <= |ts| && ts[i..m] == MinKinds(e)
    ensures n == Conv(c.os + Pending(e), c.postfix + w, c.numCount + Leaves(e), c.opCount + Operators(e))
    ensures Written(w, Emitted(e), Leftmost(e))
    ensures Run(c, ts, i, sep) == Run(n, ts, m, sep)
    decreases e, 3
  {
    if e.Leaf? {
      var t := e.token;
      assert ts[i] == ts[i..m][0];
      w := t + " ";
      n := Conv(c.os, c.postfix + w, c.numCount + 1, c.opCount);
      assert c.os + [] == c.os;
      RunOne(c, ts, i, n, sep);
      OperatorTail(t, " ");
    } else {
      n, w := RunMinNode(c, e, ts, i, m, sep);
    }
  }

  /** RunMinAt for an inner node: its left operand and operator, then its right operand. */
  lemma {:induction false} RunMinNode(c: Conv, e: Expr, ts: seq<Token>, i: nat, m: nat, sep: string) returns (n: Conv, w: string)
    requires e.Node? && Spelled(e) && Admits(c.os, e) && Spaced(c.postfix) && (sep == " " || Unbracketed(e))
    requires m == i + |MinKinds(e)| && m <= |ts| && ts[i..m] == MinKinds(e)
    ensures n == Conv(c.os + Pending(e), c.postfix + w, c.numCount + Leaves(e), c.opCount + Operators(e))
    ensures Written(w, Emitted(e), Leftmost(e))
    ensures Run(c, ts, i, sep) == Run(n, ts, m, sep)
    decreases e, 2
  {
    var j := SplitMin(ts, i, m, e);
    var c2, w1 := MinLeftAt(c, e, ts, i, j, sep);
    var w3;
    n, w3 := MinRightAt(c2, e, ts, j, m, sep);
    w := w1 + w3;
    NodeOutput(c, c2, n, e, w1, w3);
  }

  /** The state after a node, from the states after its left and its right operand. */
  lemma NodeOutput(c: Conv, c2: Conv, n: Conv, e: Expr, w1: string, w3: string)
    requires e.Node?
    requires c2 == Conv(c.os + [e.op], c.postfix + w1, c.numCount + Leaves(e.left), c.opCount + Operators(e.left) + 1)
    requires n == Conv(c2.os + RightPending(e), c2.postfix + w3, c2.numCount + Leaves(e.right), c2.opCount + Operators(e.right))
    requires Written(w1, Postfix(e.left), Leftmost(e.left)) && Written(w3, RightEmitted(e), Leftmost(e.right))
    ensures n == Conv(c.os + Pending(e), c.postfix + (w1 + w3), c.numCount + Leaves(e), c.opCount + Operators(e))
    ensures Written(w1 + w3, Emitted(e), Leftmost(e))
  {
    WrittenThen(w1, Postfix(e.left), Leftmost(e.left), w3);
    Slices.Assoc(c.os, [e.op], RightPending(e));
    Slices.Assoc(c.postfix, w1, w3);
  }

  /** The left operand of a node, in brackets or not, and the node's operator. */
  lemma {:induction false} MinLeftAt(c: Conv, e: Expr, ts: seq<Token>, i: nat, j: nat, sep: string) returns (c2: Conv, w: string)
    requires e.Node? && Spelled(e) && Admits(c.os, e) && Spaced(c.postfix) && (sep == " " || Unbracketed(e))
    requires j == i + |Wrap(LeftBracketed(e.op, e.left), MinKinds(e.left))| && j < |ts|
    requires ts[i..j] == Wrap(LeftBracketed(e.op, e.left), MinKinds(e.left)) && ts[j] == Token(e.op, Operator)
    ensures c2 == Conv(c.os + [e.op], c.postfix + w, c.numCount + Leaves(e.left), c.opCount + Operators(e.left) + 1)
    ensures Written(w, Postfix(e.left), Leftmost(e.left))
    ensures Run(c, ts, i, sep) == Run(c2, ts, j + 1, sep)
    decreases e, 1
  {
    if LeftBracketed(e.op, e.left) {
      c2, w := MinLeftBracketed(c, e, ts, i, j, sep);
    } else {
      c2, w := MinLeftPlain(c, e, ts, i, j, sep);
    }
  }

  /** A left operand read without brackets: the operator pops the operand's pending operators, then is pushed. */
  lemma {:induction false} MinLeftPlain(c: Conv, e: Expr, ts: seq<Token>, i: nat, j: nat, sep: string) returns (c2: Conv, w: string)
    requires e.Node? && !LeftBracketed(e.op, e.left) && Spelled(e) && Beneath(c.os, Rank(e.op)) && Spaced(c.postfix)
    requires sep == " " || Unbracketed(e.left)
    requires j == i + |MinKinds(e.left)| && j < |ts| && ts[i..j] == MinKinds(e.left) && ts[j] == Token(e.op, Operator)
    ensures c2 == Conv(c.os + [e.op], c.postfix + w, c.numCount + Leaves(e.left), c.opCount + Operators(e.left) + 1)
    ensures Written(w, Postfix(e.left), Leftmost(e.left))
    ensures Run(c, ts, i, sep) == Run(c2, ts, j + 1, sep)
    decreases e, 0
  {
    LeftAdmits(c.os, e);
    var c1, wl := RunMinAt(c, e.left, ts, i, j, sep);
    var wp;
    c2, wp := StepMinOperator(c1, c.os, Pending(e.left), e.op, ts, j, sep);
    w := wl + wp;
    PendingWritten(wl, wp, e.left);
    Slices.Assoc(c.postfix, wl, wp);
  }

  /** A left operand read in brackets: the operator finds the stack as the node found it. */
  lemma {:induction false} MinLeftBracketed(c: Conv, e: Expr, ts: seq<Token>, i: nat, j: nat, sep: string) returns (c2: Conv, w: string)
    requires e.Node? && LeftBracketed(e.op, e.left) && Spelled(e) && Beneath(c.os, Rank(e.op)) && Spaced(c.postfix) && sep == " "
    requires j == i + |Wrap(true, MinKinds(e.left))| && j < |ts| && ts[i..j] == Wrap(true, MinKinds(e.left))
    requires ts[j] == Token(e.op, Operator)
    ensures c2 == Conv(c.os + [e.op], c.postfix + w, c.numCount + Leaves(e.left), c.opCount + Operators(e.left) + 1)
    ensures Written(w, Postfix(e.left), Leftmost(e.left))
    ensures Run(c, ts, i, sep) == Run(c2, ts, j + 1, sep)
    decreases e, 0
  {
    Slices.Wrapped(ts, i, j, Token("(", Opener), MinKinds(e.left), Token(")", Closer));
    var c1, wl := RunBracketedAt(c, e.left, ts, i, j, sep);
    assert c1.os == c.os + [];
    var wp;
    c2, wp := StepMinOperator(c1, c.os, [], e.op, ts, j, sep);
    w := wl + wp;
    WrittenThen(wl, Postfix(e.left), Leftmost(e.left), wp);
    assert Postfix(e.left) + Tokenize(wp) == Postfix(e.left);
    Slices.Assoc(c.postfix, wl, wp);
  }

  /** The right operand of a node, in brackets or not, read over the node's operator. */
  lemma {:induction false} MinRightAt(c2: Conv, e: Expr, ts: seq<Token>, j: nat, m: nat, sep: string) returns (n: Conv, w: string)
    requires e.Node? && Spelled(e) && Spaced(c2.postfix) && (sep == " " || Unbracketed(e))
    requires c2.os != [] && c2.os[|c2.os| - 1] == e.op
    requires m == j + 1 + |Wrap(RightBracketed(e.op, e.right), MinKinds(e.right))| && m <= |ts|
    requires ts[j + 1..m] == Wrap(RightBracketed(e.op, e.right), MinKinds(e.right))
    ensures n == Conv(c2.os + RightPending(e), c2.postfix + w, c2.numCount + Leaves(e.right), c2.opCount + Operators(e.right))
    ensures Written(w, RightEmitted(e), Leftmost(e.right))
    ensures Run(c2, ts, j + 1, sep) == Run(n, ts, m, sep)
    decreases e, 1
  {
    if RightBracketed(e.op, e.right) {
      Slices.Wrapped(ts, j + 1, m, Token("(", Opener), MinKinds(e.right), Token(")", Closer));
      n, w := RunBracketedAt(c2, e.right, ts, j + 1, m, sep);
      assert c2.os + [] == c2.os;
    } else {
      RightAdmits(c2.os, e);
      n, w := RunMinAt(c2, e.right, ts, j + 1, m, sep);
    }
  }

  /** An operand in brackets: "(" is pushed, the operand read over it, and ")" pops its pending operators and the "(". */
  lemma {:induction false} RunBracketedAt(c: Conv, x: Expr, ts: seq<Token>, i: nat, m: nat, sep: string) returns (n: Conv, w: string)
    requires x.Node? && Spelled(x) && Spaced(c.postfix) && sep == " "
    requires m == i + 2 + |MinKinds(x)| && m <= |ts|
    requires ts[i] == Token("(", Opener) && ts[i + 1..m - 1] == MinKinds(x) && ts[m - 1] == Token(")", Closer)
    ensures n == Conv(c.os, c.postfix + w, c.numCount + Leaves(x), c.opCount + Operators(x))
    ensures Written(w, Postfix(x), Leftmost(x))
    ensures Run(c, ts, i, sep) == Run(n, ts, m, sep)
    decreases x, 5
  {
    var c2, ops, em, w1 := OpenThenRun(c, x, ts, i, m - 1, sep);
    n, w := CloseAfter(c, c2, ops, em, w1, x, ts, m - 1, sep);
  }

  /** The ")" after a bracketed operand pops the operand's pending operators and the "(". */
  lemma CloseAfter(c: Conv, c2: Conv, ops: seq<string>, em: seq<string>, w1: string, x: Expr, ts: seq<Token>, k: nat, sep: string)
    returns (n: Conv, w: string)
    requires sep == " " && Ranked(ops, 1) && Written(w1, em, Leftmost(x)) && em + Reversed(ops) == Postfix(x)
    requires c2 == Conv(c.os + ["("] + ops, c.postfix + w1, c.numCount + Leaves(x), c.opCount + Operators(x))
    requires k < |ts| && ts[k] == Token(")", Closer)
    ensures n == Conv(c.os, c.postfix + w, c.numCount + Leaves(x), c.opCount + Operators(x))
    ensures Written(w, Postfix(x), Leftmost(x))
    ensures Run(c2, ts, k, sep) == Run(n, ts, k + 1, sep)
  {
    var n2, w2 := StepMinClose(c, c2, ops, 1, ts, k, sep);
    w := w1 + w2;
    n := CloseState(c, c2, n2, ops, w1, w2, Leaves(x), Operators(x));
    BracketWritten(w1, w2, em, ops, x);
  }

  /** The state after a bracketed operand, from the state before its ")". */
  lemma CloseState(c: Conv, c2: Conv, n2: Conv, ops: seq<string>, w1: string, w2: string, a: int, b: int) returns (n: Conv)
    requires c2 == Conv(c.os + ["("] + ops, c.postfix + w1, c.numCount + a, c.opCount + b)
    requires n2 == Conv(c.os, c2.postfix + w2, c2.numCount, c2.opCount)
    ensures n == n2 && n == Conv(c.os, c.postfix + (w1 + w2), c.numCount + a, c.opCount + b)
  {
    n := n2;
    Slices.Assoc(c.postfix, w1, w2);
  }

  /** The output of a bracketed operand reads as its postfix tokens once ")" has popped its pending operators. */
  lemma BracketWritten(w1: string, w2: string, em: seq<string>, ops: seq<string>, x: Expr)
    requires Written(w1, em, Leftmost(x)) && em + Reversed(ops) == Postfix(x) && Tokenize(w2) == Reversed(ops) && Spaced(w2)
    ensures Written(w1 + w2, Postfix(x), Leftmost(x))
  {
    WrittenThen(w1, em, Leftmost(x), w2);
  }

  /**
    An opening bracket, then a tree's minimal tokens read over it: the tree's
    pending operators `ops` are left above the bracket, and the tokens written
    so far, `em`, followed by `ops` popped top first, are the tree's postfix tokens.
   */
  lemma {:induction false} OpenThenRun(c: Conv, x: Expr, ts: seq<Token>, i: nat, k: nat, sep: string)
    returns (c2: Conv, ops: seq<string>, em: seq<string>, w: string)
    requires x.Node? && Spelled(x) && Spaced(c.postfix) && sep == " "
    requires i < |ts| && ts[i] == Token("(", Opener)
    requires k == i + 1 + |MinKinds(x)| && k <= |ts| && ts[i + 1..k] == MinKinds(x)
    ensures c2 == Conv(c.os + ["("] + ops, c.postfix + w, c.numCount + Leaves(x), c.opCount + Operators(x))
    ensures Ranked(ops, 1) && Written(w, em, Leftmost(x)) && em + Reversed(ops) == Postfix(x)
    ensures Run(c, ts, i, sep) == Run(c2, ts, k, sep)
    decreases x, 4
  {
    var c1 := StepOpen(c, ts, i, "(", sep);
    assert c1.os[|c1.os| - 1] == "(";
    c2, w := RunMinAt(c1, x, ts, i + 1, k, sep);
    ops, em := Pending(x), Emitted(x);
    PendingRanked(x);
    RankedWeaker(ops, Rank(x.op), 1);
    EmittedPending(x);
  }

  /** The scan of a tree's minimal tokens from the start state. */
  lemma ScanMin(e: Expr, sep: string) returns (w: string)
    requires WellFormed(e) && (sep == " " || Unbracketed(e))
    ensures Run(START, MinKinds(e), 0, sep) == Some(Scanned(Conv(Pending(e), w, Leaves(e), Operators(e)), false))
    ensures Written(w, Emitted(e), Leftmost(e))
  {
    var ts := MinKinds(e);
    var n;
    n, w := ScanMinAt(START, e, ts, sep);
    FromStart(n, Pending(e), w, Leaves(e), Operators(e));
    RunEnd(n, ts, |ts|, sep);
  }

  /** A state reached from the start state by pushing `os`, writing `w` and counting `a` and `b`. */
  lemma FromStart(n: Conv, os: seq<string>, w: string, a: int, b: int)
    requires n == Conv(START.os + os, START.postfix + w, START.numCount + a, START.opCount + b)
    ensures n == Conv(os, w, a, b)
  {
    assert [] + os == os && "" + w == w;
  }

  /** A scan past the last token ends there. */
  lemma RunEnd(c: Conv, ts: seq<Token>, i: nat, sep: string)
    requires i >= |ts|
    ensures Run(c, ts, i, sep) == Some(Scanned(c, false))
  {
  }

  /** ScanMin from any state equal to the start state. */
  lemma ScanMinAt(c: Conv, e: Expr, ts: seq<Token>, sep: string) returns (n: Conv, w: string)
    requires c.os == [] && Spaced(c.postfix)
    requires WellFormed(e) && (sep == " " || Unbracketed(e)) && ts == MinKinds(e)
    ensures n == Conv(c.os + Pending(e), c.postfix + w, c.numCount + Leaves(e), c.opCount + Operators(e))
    ensures Written(w, Emitted(e), Leftmost(e))
    ensures Run(c, ts, 0, sep) == Run(n, ts, |ts|, sep)
  {
    assert Spelled(e) && ts[0..|ts|] == ts by {
      WellFormedSpelled(e);
    }
    n, w := RunMinAt(c, e, ts, 0, |ts|, sep);
  }

  /** The flush after such a scan pops the pending operators, and the final test passes. */
  lemma FinishMin(e: Expr, w: string) returns (r: string)
    requires WellFormed(e) && Written(w, Emitted(e), Leftmost(e)) && !StartsWithOperator(Leftmost(e))
    ensures Verdict(Scanned(Conv(Pending(e), w, Leaves(e), Operators(e)), false)) == r
    ensures Tokenize(r) == Postfix(e)
  {
    WellFormedSpelled(e);
    if e.Node? {
      PendingRanked(e);
      RankedWeaker(Pending(e), Rank(e.op), 1);
    }
    var wf := FlushPending(Pending(e), w, 1);
    r := w + wf;
    EmittedPending(e);
    TokenizeAppend(w, wf);
    LeavesOperators(e);
    OutStart(e, " ", false);
    assert r[0] == Leftmost(e)[0];
  }

  /**
    Completeness on minimally bracketed input: the text of a tree with brackets
    only where precedence or left-to-right grouping needs them converts to an
    output whose tokens are the tree's postfix tokens. Operators of equal or
    higher rank are popped by the operator loop, the rest by the closing brackets
    and the final flush. As written (`sep` = ""), this holds for text without
    brackets; for bracketed text it needs the corrected closing-bracket loop.
   */
  lemma ConvertMinimal(e: Expr, sep: string)
    requires WellFormed(e) && Plain(e) && !StartsWithOperator(Leftmost(e))
    requires sep == " " || Unbracketed(e)
    ensures Conversion(MinText(e), sep).Some?
    ensures Tokenize(Conversion(MinText(e), sep).value) == Postfix(e)
  {
    MinBalanced(e);
    MinTextTokens(e);
    LexMin(e);
    assert Lex(Tokenize(MinText(e)), KindOf) == MinKinds(e);
    var w := ScanMin(e, sep);
    var r := FinishMin(e, w);
    assert Conversion(MinText(e), sep) == Some(r);
  }

  /** A digit leaf is a well-formed operand that starts with no operator. */
  lemma DigitLeaf(d: char)
    requires IsDigit(d)
    ensures WellFormed(Leaf([d])) && Plain(Leaf([d])) && !StartsWithOperator([d]) && Unbracketed(Leaf([d]))
    ensures Postfix(Leaf([d])) == [[d]] && MinTokens(Leaf([d])) == [[d]] && Leftmost(Leaf([d])) == [d]
  {
    DigitKind(d);
    DigitNumeral(d);
    ClassifyChar(d, d);
    assert !Balance.IsBracketChar(d);
  }

  /**
    The tree of "a p b q c" grouped from the left, where `q` ranks no higher than `p`:
    its minimal text has no brackets.
   */
  lemma LeftNested(a: char, b: char, c: char, p: char, q: char) returns (e: Expr)
    requires IsDigit(a) && IsDigit(b) && IsDigit(c) && IsArithmetic([p]) && IsArithmetic([q]) && Rank([q]) <= Rank([p])
    ensures e == Node([q], Node([p], Leaf([a]), Leaf([b])), Leaf([c]))
    ensures WellFormed(e) && Plain(e) && !StartsWithOperator(Leftmost(e)) && Unbracketed(e)
    ensures MinText(e) == [a, ' ', p, ' ', b, ' ', q, ' ', c]
    ensures Postfix(e) == [[a], [b], [p], [c], [q]]
  {
    DigitLeaf(a);
    DigitLeaf(b);
    DigitLeaf(c);
    var l := Node([p], Leaf([a]), Leaf([b]));
    e := Node([q], l, Leaf([c]));
    assert Leftmost(l) == [a] && WellFormed(l) && Plain(l);
    assert Unbracketed(l) && Postfix(l) == [[a], [b], [p]] && MinTokens(l) == [[a], [p], [b]];
    assert !LeftBracketed([q], l) && !RightBracketed([q], Leaf([c]));
    assert Postfix(e) == Postfix(l) + [[c]] + [[q]];
    var ts := [[a], [p], [b], [q], [c]];
    assert MinTokens(e) == ts;
    JoinFive(ts);
    SpacedFive(a, p, b, q, c);
  }

  lemma SpacedFive(a: char, p: char, b: char, q: char, c: char)
    ensures [a] + " " + [p] + " " + [b] + " " + [q] + " " + [c] == [a, ' ', p, ' ', b, ' ', q, ' ', c]
  {
  }

  /** "a * b + c": the "+" pops the "*" before it, giving the tokens "a b * c +". */
  lemma PopHigherExample(a: char, b: char, c: char, sep: string)
    requires IsDigit(a) && IsDigit(b) && IsDigit(c) && (sep == "" || sep == " ")
    ensures Conversion([a, ' ', '*', ' ', b, ' ', '+', ' ', c], sep).Some?
    ensures Tokenize(Conversion([a, ' ', '*', ' ', b, ' ', '+', ' ', c], sep).value) == [[a], [b], "*", [c], "+"]
  {
    var e := LeftNested(a, b, c, '*', '+');
    ConvertMinimal(e, sep);
  }

  /** "a - b - c": the second "-" pops the first, since both rank alike, giving the tokens "a b - c -". */
  lemma PopEqualExample(a: char, b: char, c: char, sep: string)
    requires IsDigit(a) && IsDigit(b) && IsDigit(c) && (sep == "" || sep == " ")
    ensures Conversion([a, ' ', '-', ' ', b, ' ', '-', ' ', c], sep).Some?
    ensures Tokenize(Conversion([a, ' ', '-', ' ', b, ' ', '-', ' ', c], sep).value) == [[a], [b], "-", [c], "-"]
  {
    var e := LeftNested(a, b, c, '-', '-');
    ConvertMinimal(e, sep);
  }
}
