/**
  ExpressionManager::postfixToInfix: rebuilds a fully parenthesised infix string
  from postfix tokens with a stack of partial terms. Operands that are exactly
  "0" are popped by their operator but never combined (a quirk of the source).
 */
module ToInfix {
  import opened Maybe
  import opened Numerals
  import opened Tokens
  import opened Classify
  import opened Trees
  import Slices
  import opened Lexing

  /** Which branch of the loop a token takes. */
  datatype Kind = Operand | Operator | Unusable

  type Token = Lexing.Token<Kind>

  /** The loop's tests in their order: a numeral without '.', then an operator. */
  function KindOf(t: string): Kind {
    if IsNumeral(t) then Operand
    else if IsOperator(t) then Operator
    else Unusable
  }

  /** The state of the scan: the term stack (top last) and the two counters. */
  datatype Builder = Builder(terms: seq<string>, numCount: int, opCount: int)

  /** The scan's result: its final state and whether it stopped at an unusable token. */
  datatype Scanned = Scanned(b: Builder, invalid: bool)

  const START: Builder := Builder([], 0, 0)

  /** The term pushed for `one OP two`; an operator outside the five pushes nothing. */
  function Combine(one: string, op: string, two: string): seq<string>
  {
    if op == "+" then ["( " + one + " + " + two + " )"]
    else if op == "-" then ["( " + one + " - " + two + " )"]
    else if op == "*" then ["( " + one + " * " + two + " )"]
    else if op == "/" then ["( " + one + " / " + two + " )"]
    else if op == "%" then ["( " + one + " % " + two + " )"]
    else []
  }

  /** One token; None when the token is neither a numeral nor an operator with two terms to use. */
  function Step(b: Builder, tok: Token): Option<Builder>
  {
    match tok.kind
    case Operand => Some(Builder(b.terms + [tok.text], b.numCount + 1, b.opCount))
    case Operator =>
      if |b.terms| >= 2 then
        var two := b.terms[|b.terms| - 1];
        var one := b.terms[|b.terms| - 2];
        var rest := b.terms[..|b.terms| - 2];
        if one != "0" && two != "0" then Some(Builder(rest + Combine(one, tok.text, two), b.numCount, b.opCount + 1))
        else Some(Builder(rest, b.numCount, b.opCount))
      else None
    case Unusable => None
  }

  /** The scan of `ts` from position `i` on, starting in state `b`. */
  function Run(b: Builder, ts: seq<Token>, i: nat): Scanned
    decreases |ts| - i
  {
    if i >= |ts| then Scanned(b, false)
    else match Step(b, ts[i])
      case None => Scanned(b, true)
      case Some(next) => Run(next, ts, i + 1)
  }

  /** The final test: a top term that opens with no operator and one more operand than operators. */
  function Verdict(sc: Scanned): string
  {
    var terms := sc.b.terms;
    if terms != [] then
      var top := terms[|terms| - 1];
      if !sc.invalid && !StartsWithOperator(top) && sc.b.numCount == sc.b.opCount + 1 then top
      else INVALID
    else INVALID
  }

  /** What postfixToInfix returns for `s`. */
  function Infix(s: string): string
  {
    Verdict(Run(START, Lex(Tokenize(s), KindOf), 0))
  }

  /** ExpressionManager::postfixToInfix. */
  method PostfixToInfix(postfixExpression: string) returns (r: string)
    ensures r == Infix(postfixExpression)
  {
    var tokens := Tokenize(postfixExpression);
    ghost var ts := Lex(tokens, KindOf);
    var ss: seq<string> := [];
    var numCount, opCount := 0, 0;
    var invalid := false;
    var i := 0;
    while i < |tokens|
      invariant 0 <= i <= |tokens| && !invalid
      invariant Run(START, ts, 0) == Run(Builder(ss, numCount, opCount), ts, i)
    {
      var stop;
      ss, numCount, opCount, stop := ScanToken(ss, numCount, opCount, tokens, i);
      if stop {
        invalid := true;
        break;
      }
      i := i + 1;
    }
    assert Run(START, ts, 0) == Scanned(Builder(ss, numCount, opCount), invalid);
    if ss != [] {
      if !invalid && !StartsWithOperator(ss[|ss| - 1]) && numCount == opCount + 1 {
        r := ss[|ss| - 1];
      } else {
        r := INVALID;
      }
    } else {
      r := INVALID;
    }
  }

  /** One pass of postfixToInfix's loop over `tokens[i]`: one step of Run, or the stop at an unusable token. */
  method ScanToken(ss: seq<string>, numCount: int, opCount: int, tokens: seq<string>, i: nat)
    returns (ss': seq<string>, numCount': int, opCount': int, stop: bool)
    requires i < |tokens|
    ensures !stop ==> Run(Builder(ss, numCount, opCount), Lex(tokens, KindOf), i)
                      == Run(Builder(ss', numCount', opCount'), Lex(tokens, KindOf), i + 1)
    ensures stop ==> Run(Builder(ss, numCount, opCount), Lex(tokens, KindOf), i) == Scanned(Builder(ss, numCount, opCount), true)
    ensures stop ==> ss' == ss && numCount' == numCount && opCount' == opCount
  {
    var token := tokens[i];
    ghost var ts := Lex(tokens, KindOf);
    ghost var before := Builder(ss, numCount, opCount);
    LexAt(tokens, i, KindOf);
    ss', numCount', opCount', stop := ss, numCount, opCount, false;
    if IsNumber(token) && '.' !in token {
      ss' := ss' + [token];
      numCount' := numCount' + 1;
      OperandRun(before, ts, i);
    } else if IsOperator(token) && |ss'| >= 2 {
      var valueTwo := ss'[|ss'| - 1];
      ss' := ss'[..|ss'| - 1];
      ghost var popped := ss';
      var valueOne := ss'[|ss'| - 1];
      ss' := ss'[..|ss'| - 1];
      ghost var rest := ss';
      if valueOne != "0" && valueTwo != "0" {
        ss' := PushCombined(ss', valueOne, token, valueTwo);
        opCount' := opCount' + 1;
      }
      OperatorRun(before, ts, i, valueOne, valueTwo, popped, rest, ss', opCount');
    } else {
      StopRun(before, ts, i);
      stop := true;
    }
  }

  /** The five-way push of the operator branch: "( one op two )" for the five operators, nothing otherwise. */
  method PushCombined(ss: seq<string>, valueOne: string, token: string, valueTwo: string) returns (ss': seq<string>)
    ensures ss' == ss + Combine(valueOne, token, valueTwo)
  {
    ss' := ss;
    if token == "+" {
      ss' := ss' + ["( " + valueOne + " + " + valueTwo + " )"];
    } else if token == "-" {
      ss' := ss' + ["( " + valueOne + " - " + valueTwo + " )"];
    } else if token == "*" {
      ss' := ss' + ["( " + valueOne + " * " + valueTwo + " )"];
    } else if token == "/" {
      ss' := ss' + ["( " + valueOne + " / " + valueTwo + " )"];
    } else if token == "%" {
      ss' := ss' + ["( " + valueOne + " % " + valueTwo + " )"];
    } else {
      assert ss' == ss + [];
    }
  }

  /** A sequence is its prefix followed by its last two elements. */
  lemma LastTwo(s: seq<string>, popped: seq<string>, rest: seq<string>, one: string, two: string)
    requires |s| >= 2 && two == s[|s| - 1] && popped == s[..|s| - 1]
    requires |popped| >= 1 && one == popped[|popped| - 1] && rest == popped[..|popped| - 1]
    ensures s == rest + [one, two]
  {
    assert rest == s[..|s| - 2];
    assert s == s[..|s| - 2] + [s[|s| - 2], s[|s| - 1]];
  }

  /** An operator with two terms to use pops them and pushes their combination unless one is "0". */
  lemma OperatorStep(b: Builder, tok: Token, one: string, two: string, rest: seq<string>, terms: seq<string>, o: int)
    requires tok.kind == Operator && b.terms == rest + [one, two]
    requires terms == if one != "0" && two != "0" then rest + Combine(one, tok.text, two) else rest
    requires o == if one != "0" && two != "0" then b.opCount + 1 else b.opCount
    ensures Step(b, tok) == Some(Builder(terms, b.numCount, o))
  {
    assert b.terms[..|b.terms| - 2] == rest;
  }

  /** A numeral is pushed as a term of its own and counted. */
  lemma OperandRun(b: Builder, ts: seq<Token>, i: nat)
    requires i < |ts| && ts[i].kind == Operand
    ensures Run(b, ts, i) == Run(Builder(b.terms + [ts[i].text], b.numCount + 1, b.opCount), ts, i + 1)
  {
    RunOne(b, ts, i, Builder(b.terms + [ts[i].text], b.numCount + 1, b.opCount));
  }

  /** The scan stops at an unusable token, and at an operator with fewer than two terms to use. */
  lemma StopRun(b: Builder, ts: seq<Token>, i: nat)
    requires i < |ts| && ts[i].kind != Operand
    requires ts[i].kind == Operator ==> |b.terms| < 2
    ensures Run(b, ts, i) == Scanned(b, true)
  {
  }

  /** The operator case of the scan: popping two terms and pushing their combination is one step of Run. */
  lemma OperatorRun(b: Builder, ts: seq<Token>, i: nat, one: string, two: string,
                    popped: seq<string>, rest: seq<string>, terms: seq<string>, o: int)
    requires i < |ts| && ts[i].kind == Operator
    requires |b.terms| >= 2 && two == b.terms[|b.terms| - 1] && popped == b.terms[..|b.terms| - 1]
    requires |popped| >= 1 && one == popped[|popped| - 1] && rest == popped[..|popped| - 1]
    requires terms == if one != "0" && two != "0" then rest + Combine(one, ts[i].text, two) else rest
    requires o == if one != "0" && two != "0" then b.opCount + 1 else b.opCount
    ensures Run(b, ts, i) == Run(Builder(terms, b.numCount, o), ts, i + 1)
  {
    LastTwo(b.terms, popped, rest, one, two);
    OperatorStep(b, ts[i], one, two, rest, terms, o);
    RunOne(b, ts, i, Builder(terms, b.numCount, o));
  }

  /** For the five operators, the pushed term is the operator written between its operands in brackets. */
  lemma CombineText(one: string, op: string, two: string)
    requires IsArithmetic(op)
    ensures Combine(one, op, two) == ["( " + one + " " + op + " " + two + " )"]
  {
    assert " " + op + " " == [' ', op[0], ' '];
    assert "( " + one + " " + op + " " + two + " )" == "( " + one + (" " + op + " ") + two + " )";
  }

  /** Every operator whose operands are both written "0" is missing from the tree's infix text. */
  predicate NoZeroOperand(e: Expr) {
    match e
    case Leaf(_) => true
    case Node(_, l, r) => Text(l) != "0" && Text(r) != "0" && NoZeroOperand(l) && NoZeroOperand(r)
  }

  /** The lexed postfix tokens of a well-formed tree: operands, then their operator. */
  function PostfixTokens(e: Expr): seq<Token>
  {
    match e
    case Leaf(t) => [Token(t, Operand)]
    case Node(op, l, r) => PostfixTokens(l) + PostfixTokens(r) + [Token(op, Operator)]
  }

  /** Lexing a tree's postfix tokens classifies its leaves as operands and its nodes as operators. */
  lemma {:induction false} LexPostfix(e: Expr)
    requires WellFormed(e)
    ensures Lex(Postfix(e), KindOf) == PostfixTokens(e)
  {
    match e
    case Leaf(t) =>
      LexAt([t], 0, KindOf);
    case Node(op, l, r) =>
      LexPostfix(l);
      LexPostfix(r);
      LexAppend(Postfix(l) + Postfix(r), [op], KindOf);
      LexAppend(Postfix(l), Postfix(r), KindOf);
      LexAt([op], 0, KindOf);
      ArithmeticClass(op);
  }

  lemma {:induction false} PostfixTokensLength(e: Expr)
    ensures |PostfixTokens(e)| == |Postfix(e)|
  {
    match e
    case Leaf(_) =>
    case Node(_, l, r) =>
      PostfixTokensLength(l);
      PostfixTokensLength(r);
  }

  /**
    Reading the postfix tokens of a tree pushes exactly its parenthesised text,
    counting its leaves as operands and its inner nodes as operators.
   */
  lemma RunTree(b: Builder, e: Expr, ts: seq<Token>, i: nat)
    requires Arithmetic(e) && NoZeroOperand(e)
    requires i + |PostfixTokens(e)| <= |ts| && ts[i..i + |PostfixTokens(e)|] == PostfixTokens(e)
    ensures Run(b, ts, i)
         == Run(Builder(b.terms + [Text(e)], b.numCount + Leaves(e), b.opCount + Operators(e)), ts, i + |PostfixTokens(e)|)
  {
    var n, m := RunTreeAt(b, e, ts, i);
  }

  /** RunTree, with the state and position after the tree as results. */
  lemma {:induction false} RunTreeAt(b: Builder, e: Expr, ts: seq<Token>, i: nat) returns (n: Builder, m: nat)
    requires Arithmetic(e) && NoZeroOperand(e)
    requires i + |PostfixTokens(e)| <= |ts| && ts[i..i + |PostfixTokens(e)|] == PostfixTokens(e)
    ensures n == Builder(b.terms + [Text(e)], b.numCount + Leaves(e), b.opCount + Operators(e))
    ensures m == i + |PostfixTokens(e)|
    ensures Run(b, ts, i) == Run(n, ts, m)
    decreases e
  {
    match e
    case Leaf(t) =>
      assert ts[i] == ts[i..i + 1][0];
      n, m := Builder(b.terms + [t], b.numCount + 1, b.opCount), i + 1;
      RunOne(b, ts, i, n);
    case Node(op, l, r) =>
      var j, k := SplitNode(ts, i, op, l, r);
      var b1, j1 := RunTreeAt(b, l, ts, i);
      assert j1 == j && Run(b, ts, i) == Run(b1, ts, j);
      var b2, k1 := RunTreeAt(b1, r, ts, j);
      assert k1 == k && Run(b1, ts, j) == Run(b2, ts, k);
      n := Builder(b.terms + ["( " + Text(l) + " " + op + " " + Text(r) + " )"], b2.numCount, b2.opCount + 1);
      m := k + 1;
      RunNode(b, b2, op, Text(l), Text(r), ts, i, k);
  }

  /** The tokens of a node's postfix form split into its operands' and its operator. */
  lemma SplitNode(ts: seq<Token>, i: nat, op: string, l: Expr, r: Expr) returns (j: nat, k: nat)
    requires i + |PostfixTokens(Node(op, l, r))| <= |ts|
    requires ts[i..i + |PostfixTokens(Node(op, l, r))|] == PostfixTokens(Node(op, l, r))
    ensures j == i + |PostfixTokens(l)| && k == j + |PostfixTokens(r)| && i + |PostfixTokens(Node(op, l, r))| == k + 1
    ensures ts[i..j] == PostfixTokens(l) && ts[j..k] == PostfixTokens(r) && ts[k] == Token(op, Operator)
  {
    j, k := i + |PostfixTokens(l)|, i + |PostfixTokens(l)| + |PostfixTokens(r)|;
    assert PostfixTokens(Node(op, l, r)) == PostfixTokens(l) + PostfixTokens(r) + [Token(op, Operator)];
    Slices.PostfixParts(ts, i, j, k, i + |PostfixTokens(Node(op, l, r))|, PostfixTokens(l), PostfixTokens(r), Token(op, Operator));
  }

  /** A scan that reads one token into state `n`. */
  lemma RunOne(b: Builder, ts: seq<Token>, i: nat, n: Builder)
    requires i < |ts| && Step(b, ts[i]) == Some(n)
    ensures Run(b, ts, i) == Run(n, ts, i + 1)
  {
  }

  /**
    The node case of RunTree: once both operands' terms are on the stack, the
    operator replaces them by the bracketed term.
   */
  lemma RunNode(b: Builder, b2: Builder, op: string, one: string, two: string, ts: seq<Token>, i: nat, k: nat)
    requires IsArithmetic(op) && one != "0" && two != "0"
    requires k < |ts| && ts[k] == Token(op, Operator)
    requires b2.terms == b.terms + [one] + [two] && Run(b, ts, i) == Run(b2, ts, k)
    ensures Run(b, ts, i) == Run(Builder(b.terms + ["( " + one + " " + op + " " + two + " )"], b2.numCount, b2.opCount + 1), ts, k + 1)
  {
    StepCombine(b.terms, one, op, two, b2.numCount, b2.opCount);
    RunOne(b2, ts, k, Builder(b.terms + ["( " + one + " " + op + " " + two + " )"], b2.numCount, b2.opCount + 1));
  }

  lemma StepCombine(below: seq<string>, one: string, op: string, two: string, n: int, o: int)
    requires IsArithmetic(op) && one != "0" && two != "0"
    ensures Step(Builder(below + [one] + [two], n, o), Token(op, Operator))
         == Some(Builder(below + ["( " + one + " " + op + " " + two + " )"], n, o + 1))
  {
    CombineText(one, op, two);
    var terms := below + [one] + [two];
    assert terms[..|terms| - 2] == below;
  }

  /**
    Completeness: the postfix form of a tree none of whose operands is written
    "0", and whose text does not open with a sign, converts to the tree's fully
    parenthesised text.
   */
  lemma InfixOfTree(s: string, e: Expr)
    requires WellFormed(e) && NoZeroOperand(e) && !StartsWithOperator(Text(e))
    requires Tokenize(s) == Postfix(e)
    ensures Infix(s) == Text(e)
  {
    var ts := Lex(Tokenize(s), KindOf);
    LexPostfix(e);
    PostfixTokensLength(e);
    WellFormedArithmetic(e);
    LeavesOperators(e);
    assert ts[0..|ts|] == ts;
    var n, m := RunTreeAt(START, e, ts, 0);
    assert n.terms == [Text(e)];
    assert Run(n, ts, m) == Scanned(n, false);
  }

  /** The term stack's excess of operands over operators and terms; it starts at 0 and never falls. */
  function Slack(b: Builder): int {
    b.numCount - b.opCount - |b.terms|
  }

  /**
    A step never lowers the slack, and keeps it only when it pushes a numeral or
    combines two terms, neither "0", under one of the five operators.
   */
  lemma StepSlack(b: Builder, tok: Token)
    requires Step(b, tok).Some?
    ensures Slack(Step(b, tok).value) >= Slack(b)
    ensures Slack(Step(b, tok).value) == Slack(b) ==>
              tok.kind == Operand ||
              (IsArithmetic(tok.text) && |b.terms| >= 2 && b.terms[|b.terms| - 2] != "0" && b.terms[|b.terms| - 1] != "0")
  {
    if tok.kind == Operator {
      var one, two := b.terms[|b.terms| - 2], b.terms[|b.terms| - 1];
      if IsArithmetic(tok.text) {
        CombineText(one, tok.text, two);
      }
    }
  }

  lemma {:induction false} RunSlack(b: Builder, ts: seq<Token>, i: nat)
    ensures Slack(Run(b, ts, i).b) >= Slack(b)
    decreases |ts| - i
  {
    if i < |ts| && Step(b, ts[i]).Some? {
      StepSlack(b, ts[i]);
      RunSlack(Step(b, ts[i]).value, ts, i + 1);
    }
  }

  /** The texts of a stack of trees. */
  function Texts(es: seq<Expr>): (ts: seq<string>)
    ensures |ts| == |es|
  {
    if es == [] then [] else Texts(es[..|es| - 1]) + [Text(es[|es| - 1])]
  }

  /** The postfix tokens of a stack of trees, bottom first. */
  function Flatten(es: seq<Expr>): seq<string>
  {
    if es == [] then [] else Flatten(es[..|es| - 1]) + Postfix(es[|es| - 1])
  }

  predicate Usable(es: seq<Expr>) {
    forall i :: 0 <= i < |es| ==> WellFormed(es[i]) && NoZeroOperand(es[i])
  }

  /** A token as the lexer makes it from a whitespace-free word. */
  predicate Lexed(tok: Token) {
    IsWord(tok.text) && (tok.kind == Operand ==> IsNumeral(tok.text))
  }

  /** A slack-keeping step on the texts of a stack of trees is a step on the trees themselves. */
  lemma StepSound(es: seq<Expr>, b: Builder, tok: Token) returns (fs: seq<Expr>)
    requires Usable(es) && b.terms == Texts(es) && Lexed(tok)
    requires Step(b, tok).Some? && Slack(Step(b, tok).value) == Slack(b)
    ensures Usable(fs) && Step(b, tok).value.terms == Texts(fs)
    ensures Flatten(fs) == Flatten(es) + [tok.text]
  {
    StepSlack(b, tok);
    var t := tok.text;
    if tok.kind == Operand {
      fs := PushLeaf(es, t);
    } else {
      var n := |es|;
      assert b.terms[n - 2] == Text(es[n - 2]) && b.terms[n - 1] == Text(es[n - 1]);
      fs := PushNode(es, t);
      CombineText(Text(es[n - 2]), t, Text(es[n - 1]));
      assert b.terms[..n - 2] == Texts(es[..n - 2]);
    }
  }

  lemma PushLeaf(es: seq<Expr>, t: string) returns (fs: seq<Expr>)
    requires Usable(es) && IsWord(t) && IsNumeral(t)
    ensures fs == es + [Leaf(t)] && Usable(fs)
    ensures Texts(fs) == Texts(es) + [t]
    ensures Flatten(fs) == Flatten(es) + [t]
  {
    fs := es + [Leaf(t)];
    assert fs[..|fs| - 1] == es;
  }

  lemma PushNode(es: seq<Expr>, t: string) returns (fs: seq<Expr>)
    requires Usable(es) && |es| >= 2 && IsArithmetic(t)
    requires Text(es[|es| - 2]) != "0" && Text(es[|es| - 1]) != "0"
    ensures Usable(fs)
    ensures Texts(es) == Texts(es[..|es| - 2]) + [Text(es[|es| - 2]), Text(es[|es| - 1])]
    ensures Texts(fs) == Texts(es[..|es| - 2]) + [Text(Node(t, es[|es| - 2], es[|es| - 1]))]
    ensures Flatten(fs) == Flatten(es) + [t]
  {
    var n := |es|;
    var x, y := es[n - 2], es[n - 1];
    var below := es[..n - 2];
    var node := Node(t, x, y);
    fs := below + [node];
    PopTwo(es);
    PushOne(below, node);
    assert Postfix(node) == Postfix(x) + Postfix(y) + [t];
    assert Flatten(fs) == Flatten(below) + Postfix(x) + Postfix(y) + [t];
    assert Usable(fs) by {
      assert WellFormed(node) && NoZeroOperand(node);
    }
  }

  /** The two topmost trees of a stack, split off. */
  lemma PopTwo(es: seq<Expr>)
    requires |es| >= 2
    ensures Texts(es) == Texts(es[..|es| - 2]) + [Text(es[|es| - 2]), Text(es[|es| - 1])]
    ensures Flatten(es) == Flatten(es[..|es| - 2]) + Postfix(es[|es| - 2]) + Postfix(es[|es| - 1])
  {
    var n := |es|;
    var a := es[..n - 1];
    assert a[..n - 2] == es[..n - 2] && a[n - 2] == es[n - 2];
    TextsPopTwo(es, a);
    FlattenPopTwo(es, a);
  }

  lemma TextsPopTwo(es: seq<Expr>, a: seq<Expr>)
    requires |es| >= 2 && a == es[..|es| - 1]
    requires a[..|es| - 2] == es[..|es| - 2] && a[|es| - 2] == es[|es| - 2]
    ensures Texts(es) == Texts(es[..|es| - 2]) + [Text(es[|es| - 2]), Text(es[|es| - 1])]
  {
    assert Texts(a) == Texts(es[..|es| - 2]) + [Text(es[|es| - 2])];
    assert Texts(es) == Texts(a) + [Text(es[|es| - 1])];
  }

  lemma FlattenPopTwo(es: seq<Expr>, a: seq<Expr>)
    requires |es| >= 2 && a == es[..|es| - 1]
    requires a[..|es| - 2] == es[..|es| - 2] && a[|es| - 2] == es[|es| - 2]
    ensures Flatten(es) == Flatten(es[..|es| - 2]) + Postfix(es[|es| - 2]) + Postfix(es[|es| - 1])
  {
    assert Flatten(a) == Flatten(es[..|es| - 2]) + Postfix(es[|es| - 2]);
    assert Flatten(es) == Flatten(a) + Postfix(es[|es| - 1]);
  }

  lemma PushOne(below: seq<Expr>, e: Expr)
    ensures Texts(below + [e]) == Texts(below) + [Text(e)]
    ensures Flatten(below + [e]) == Flatten(below) + Postfix(e)
  {
    assert (below + [e])[..|below|] == below;
  }

  /**
    A scan that ends where it started in slack built a stack of trees, one per
    term, whose postfix tokens are the texts of the tokens read.
   */
  lemma {:induction false} RunSound(es: seq<Expr>, b: Builder, ts: seq<Token>, toks: seq<string>, i: nat) returns (fs: seq<Expr>)
    requires i <= |ts| == |toks|
    requires forall k :: 0 <= k < |ts| ==> Lexed(ts[k]) && ts[k].text == toks[k]
    requires Usable(es) && b.terms == Texts(es)
    requires !Run(b, ts, i).invalid && Slack(Run(b, ts, i).b) == Slack(b)
    ensures Usable(fs) && Run(b, ts, i).b.terms == Texts(fs)
    ensures Flatten(fs) == Flatten(es) + toks[i..]
    decreases |ts| - i
  {
    if i == |ts| {
      fs := es;
      assert Flatten(es) + toks[i..] == Flatten(es);
    } else {
      var next, mid := SoundStep(es, b, ts, toks, i);
      fs := RunSound(mid, next, ts, toks, i + 1);
    }
  }

  /** One step of RunSound: the first token read keeps the slack and extends the stack of trees. */
  lemma SoundStep(es: seq<Expr>, b: Builder, ts: seq<Token>, toks: seq<string>, i: nat) returns (next: Builder, mid: seq<Expr>)
    requires i < |ts| == |toks|
    requires Lexed(ts[i]) && ts[i].text == toks[i]
    requires Usable(es) && b.terms == Texts(es)
    requires !Run(b, ts, i).invalid && Slack(Run(b, ts, i).b) == Slack(b)
    ensures Run(b, ts, i) == Run(next, ts, i + 1)
    ensures !Run(next, ts, i + 1).invalid && Slack(Run(next, ts, i + 1).b) == Slack(next)
    ensures Usable(mid) && next.terms == Texts(mid)
    ensures Flatten(mid) + toks[i + 1..] == Flatten(es) + toks[i..]
  {
    assert Step(b, ts[i]).Some?;
    next := Step(b, ts[i]).value;
    assert Run(b, ts, i) == Run(next, ts, i + 1) by {
      RunOne(b, ts, i, next);
    }
    assert Slack(next) == Slack(b) by {
      StepSlack(b, ts[i]);
      RunSlack(next, ts, i + 1);
    }
    mid := StepSound(es, b, ts[i]);
    ShiftOne(Flatten(mid), Flatten(es), toks, i);
  }

  /** Moving the element at `i` from the rest of `s` onto the end of `b`. */
  lemma ShiftOne<T>(a: seq<T>, b: seq<T>, s: seq<T>, i: nat)
    requires i < |s| && a == b + [s[i]]
    ensures a + s[i + 1..] == b + s[i..]
  {
    assert s[i..] == [s[i]] + s[i + 1..];
  }

  /** The lexer's tokens of whitespace-free words are such words, numerals where classified as operands. */
  lemma LexLexed(toks: seq<string>)
    requires forall k :: 0 <= k < |toks| ==> IsWord(toks[k])
    ensures forall k :: 0 <= k < |toks| ==> Lexed(Lex(toks, KindOf)[k]) && Lex(toks, KindOf)[k].text == toks[k]
  {
    forall k | 0 <= k < |toks|
      ensures Lexed(Lex(toks, KindOf)[k]) && Lex(toks, KindOf)[k].text == toks[k]
    {
      LexAt(toks, k, KindOf);
    }
  }

  /**
    Soundness: a result other than "invalid" is the fully parenthesised text of
    a tree whose postfix form is exactly the input's tokens, none of whose
    operands is written "0" and whose text does not open with a sign. With
    InfixOfTree this characterises the inputs the conversion accepts.
   */
  lemma InfixSound(s: string) returns (e: Expr)
    requires Infix(s) != INVALID
    ensures WellFormed(e) && NoZeroOperand(e) && !StartsWithOperator(Text(e))
    ensures Postfix(e) == Tokenize(s) && Infix(s) == Text(e)
  {
    var toks := Tokenize(s);
    var ts := Lex(toks, KindOf);
    LexLexed(toks);
    RunSlack(START, ts, 0);
    assert Texts([]) == [];
    var fs := RunSound([], START, ts, toks, 0);
    assert Flatten([]) + toks[0..] == toks;
    e := fs[0];
    assert fs[..0] == [];
  }

  /** "0 5 +": the operator swallows a "0" operand, so the counts disagree and the result is "invalid". */
  lemma ZeroOperandExample()
    ensures Infix("0 5 +") == INVALID
  {
    var toks := ["0", "5", "+"];
    ExampleTokens();
    ExampleKinds(toks);
    ZeroOperandRun(Lex(toks, KindOf));
  }

  lemma ExampleTokens()
    ensures Tokenize("0 5 +") == ["0", "5", "+"]
  {
    TokenizeJoin(["0", "5", "+"]);
    assert Join(["0", "5", "+"]) == "0 5 +";
  }

  lemma ExampleKinds(toks: seq<string>)
    requires toks == ["0", "5", "+"]
    ensures |Lex(toks, KindOf)| == 3
    ensures Lex(toks, KindOf)[0] == Token("0", Operand) && Lex(toks, KindOf)[1] == Token("5", Operand)
    ensures Lex(toks, KindOf)[2] == Token("+", Operator)
  {
    NumeralKinds();
    ArithmeticClass("+");
    LexAt(toks, 0, KindOf);
    LexAt(toks, 1, KindOf);
    LexAt(toks, 2, KindOf);
  }

  lemma NumeralKinds()
    ensures KindOf("0") == Operand && KindOf("5") == Operand
  {
    assert PrefixValue("0") == Some(0);
    assert PrefixValue("5") == Some(5);
  }

  lemma ZeroOperandRun(ts: seq<Token>)
    requires |ts| == 3 && ts[0] == Token("0", Operand) && ts[1] == Token("5", Operand)
    requires ts[2] == Token("+", Operator)
    ensures Verdict(Run(START, ts, 0)) == INVALID
  {
    var b1 := Builder(["0"], 1, 0);
    var b2 := Builder(["0", "5"], 2, 0);
    var b3 := Builder([], 2, 0);
    assert [] + ["0"] == ["0"];
    RunOne(START, ts, 0, b1);
    assert ["0"] + ["5"] == ["0", "5"];
    RunOne(b1, ts, 1, b2);
    assert b2.terms[..0] == [];
    RunOne(b2, ts, 2, b3);
  }
}
