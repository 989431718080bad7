/**
  Expression trees: the reference against which the three conversions are
  stated. A tree is written out in postfix (operands, then the operator), in
  fully parenthesised infix ("( a + b )"), and has a value under C++ `int`
  arithmetic.
 */
module Trees {
  import opened Maybe
  import opened Numerals
  import opened Tokens
  import opened Classify
  import Balance

  /** A leaf keeps the operand's token as written; an inner node one of the five operators. */
  datatype Expr = Leaf(token: string) | Node(op: string, left: Expr, right: Expr)

  /** Leaves are single tokens that read as numerals, inner nodes carry an arithmetic operator. */
  predicate WellFormed(e: Expr) {
    match e
    case Leaf(t) => IsWord(t) && IsNumeral(t)
    case Node(op, l, r) => IsArithmetic(op) && WellFormed(l) && WellFormed(r)
  }

  /** Every inner node carries one of the five operators. */
  predicate Arithmetic(e: Expr) {
    match e
    case Leaf(_) => true
    case Node(op, l, r) => IsArithmetic(op) && Arithmetic(l) && Arithmetic(r)
  }

  lemma {:induction false} WellFormedArithmetic(e: Expr)
    requires WellFormed(e)
    ensures Arithmetic(e)
  {
    match e
    case Leaf(_) =>
    case Node(_, l, r) =>
      WellFormedArithmetic(l);
      WellFormedArithmetic(r);
  }

  /** No leaf holds a bracket character (a numeral token may, after its digits: "12)"). */
  predicate Plain(e: Expr) {
    match e
    case Leaf(t) => forall i :: 0 <= i < |t| ==> !Balance.IsBracketChar(t[i])
    case Node(_, l, r) => Plain(l) && Plain(r)
  }

  /** The postfix tokens: left operand, right operand, operator. */
  function Postfix(e: Expr): seq<string>
  {
    match e
    case Leaf(t) => [t]
    case Node(op, l, r) => Postfix(l) + Postfix(r) + [op]
  }

  /** The fully parenthesised infix tokens. */
  function InfixTokens(e: Expr): seq<string>
  {
    match e
    case Leaf(t) => [t]
    case Node(op, l, r) => ["("] + InfixTokens(l) + [op] + InfixTokens(r) + [")"]
  }

  /** The fully parenthesised infix text, one space between tokens. */
  function Text(e: Expr): string
  {
    match e
    case Leaf(t) => t
    case Node(op, l, r) => "( " + Text(l) + " " + op + " " + Text(r) + " )"
  }

  /** The first operand token, which opens the postfix form. */
  function Leftmost(e: Expr): string
  {
    match e
    case Leaf(t) => t
    case Node(_, l, _) => Leftmost(l)
  }

  function Leaves(e: Expr): nat
  {
    match e
    case Leaf(_) => 1
    case Node(_, l, r) => Leaves(l) + Leaves(r)
  }

  function Operators(e: Expr): nat
  {
    match e
    case Leaf(_) => 0
    case Node(_, l, r) => Operators(l) + Operators(r) + 1
  }

  /** The value under C++ `int` arithmetic, None where any step is undefined. */
  function Value(e: Expr): (v: Option<int>)
    requires WellFormed(e)
    ensures v.Some? ==> InInt32(v.value)
  {
    match e
    case Leaf(t) => Some(Stoi(t))
    case Node(op, l, r) =>
      match (Value(l), Value(r))
      case (Some(a), Some(b)) => Apply(op, a, b)
      case _ => None
  }

  /** Every binary tree has one more leaf than it has operators. */
  lemma {:induction false} LeavesOperators(e: Expr)
    ensures Leaves(e) == Operators(e) + 1
  {
    match e
    case Leaf(_) =>
    case Node(_, l, r) =>
      LeavesOperators(l);
      LeavesOperators(r);
  }

  lemma ArithmeticIsWord(op: string)
    requires IsArithmetic(op)
    ensures IsWord(op)
  {
  }

  /** All postfix tokens of a well-formed tree are whitespace-free words. */
  lemma {:induction false} PostfixWords(e: Expr)
    requires WellFormed(e)
    ensures forall i :: 0 <= i < |Postfix(e)| ==> IsWord(Postfix(e)[i])
  {
    match e
    case Leaf(_) =>
    case Node(op, l, r) =>
      PostfixWords(l);
      PostfixWords(r);
      ArithmeticIsWord(op);
  }

  /** Writing the postfix tokens out with single spaces and reading them back loses nothing. */
  lemma PostfixRoundTrip(e: Expr)
    requires WellFormed(e)
    ensures Tokenize(Join(Postfix(e))) == Postfix(e)
  {
    PostfixWords(e);
    TokenizeJoin(Postfix(e));
  }

  /** The parenthesised text is its infix tokens joined by single spaces. */
  lemma {:induction false} TextIsJoin(e: Expr)
    ensures Text(e) == Join(InfixTokens(e))
  {
    match e
    case Leaf(_) =>
    case Node(op, l, r) =>
      TextIsJoin(l);
      TextIsJoin(r);
      InfixNonEmpty(l);
      InfixNonEmpty(r);
      JoinNode(op, InfixTokens(l), InfixTokens(r));
  }

  lemma JoinNode(op: string, a: seq<string>, b: seq<string>)
    requires |a| > 0 && |b| > 0
    ensures Join(["("] + a + [op] + b + [")"]) == "( " + Join(a) + " " + op + " " + Join(b) + " )"
  {
    var c := b + [")"];
    var d := [op] + c;
    var f := a + d;
    assert ["("] + a + [op] + b + [")"] == ["("] + f;
    var ja, jb := Join(a), Join(b);
    JoinAppend(b, [")"]);
    var jc := jb + " " + ")";
    assert Join(c) == jc;
    JoinAppend([op], c);
    var jd := op + " " + jc;
    assert Join(d) == jd;
    JoinAppend(a, d);
    var jf := ja + " " + jd;
    assert Join(f) == jf;
    JoinAppend(["("], f);
    assert Join(["("] + f) == "(" + " " + jf;
    SpacedNode(ja, op, jb);
  }

  lemma SpacedNode(ja: string, op: string, jb: string)
    ensures "(" + " " + (ja + " " + (op + " " + (jb + " " + ")"))) == "( " + ja + " " + op + " " + jb + " )"
  {
  }

  /** The infix tokens of a well-formed tree are whitespace-free words. */
  lemma {:induction false} InfixWords(e: Expr)
    requires WellFormed(e)
    ensures forall i :: 0 <= i < |InfixTokens(e)| ==> IsWord(InfixTokens(e)[i])
  {
    match e
    case Leaf(_) =>
    case Node(op, l, r) =>
      InfixWords(l);
      InfixWords(r);
      ArithmeticIsWord(op);
      assert IsWord("(") && IsWord(")");
  }

  lemma InfixNonEmpty(e: Expr)
    ensures |InfixTokens(e)| > 0
  {
  }

  /** Reading the parenthesised text gives back its infix tokens. */
  lemma TextTokens(e: Expr)
    requires WellFormed(e)
    ensures Tokenize(Text(e)) == InfixTokens(e)
  {
    TextIsJoin(e);
    InfixWords(e);
    TokenizeJoin(InfixTokens(e));
  }

  /** The parenthesised text of a tree whose leaves hold no brackets is balanced. */
  lemma {:induction false} TextBalanced(e: Expr)
    requires Plain(e) && WellFormed(e)
    ensures Balance.Balanced(Text(e))
  {
    match e
    case Leaf(t) =>
      Balance.BalancedWithoutBrackets([], t);
    case Node(op, l, r) =>
      TextBalanced(l);
      TextBalanced(r);
      NodeBalanced(Text(l), op, Text(r));
  }

  lemma NodeBalanced(tl: string, op: string, tr: string)
    requires Balance.Balanced(tl) && Balance.Balanced(tr) && IsArithmetic(op)
    ensures Balance.Balanced("( " + tl + " " + op + " " + tr + " )")
  {
    var sep := " " + op + " ";
    Balance.BalancedWithoutBrackets([], " ");
    Balance.BalancedWithoutBrackets([], sep);
    var m1 := " " + tl;
    Balance.BalancedConcat(" ", tl);
    var m2 := m1 + sep;
    Balance.BalancedConcat(m1, sep);
    var m3 := m2 + tr;
    Balance.BalancedConcat(m2, tr);
    var mid := m3 + " ";
    Balance.BalancedConcat(m3, " ");
    Balance.BalancedWrap('(', mid, ')');
    assert "( " + tl == ['('] + m1;
    assert "( " + tl + " " + op + " " == ['('] + m2;
    assert "( " + tl + " " + op + " " + tr == ['('] + m3;
    assert "( " + tl + " " + op + " " + tr + " )" == ['('] + mid + [')'];
  }

  // ----- Minimal brackets -----

  /** How tightly an operator binds: 2 for `* / %`, 1 for `+ -` (ArithmeticClass: its Precedence). */
  function Rank(op: string): int {
    if op == "*" || op == "/" || op == "%" then 2 else 1
  }

  /** A left operand needs brackets when its operator ranks below its parent's. */
  predicate LeftBracketed(op: string, l: Expr) {
    l.Node? && Rank(l.op) < Rank(op)
  }

  /** A right operand needs them when its operator ranks at or below its parent's: equal ranks group to the left. */
  predicate RightBracketed(op: string, r: Expr) {
    r.Node? && Rank(r.op) <= Rank(op)
  }

  function Bracketed(b: bool, toks: seq<string>): seq<string> {
    if b then ["("] + toks + [")"] else toks
  }

  /** The infix tokens with brackets only where precedence and left-to-right grouping call for them. */
  function MinTokens(e: Expr): seq<string>
  {
    match e
    case Leaf(t) => [t]
    case Node(op, l, r) => Bracketed(LeftBracketed(op, l), MinTokens(l)) + [op] + Bracketed(RightBracketed(op, r), MinTokens(r))
  }

  /** The minimally bracketed infix text, one space between tokens: "a * b + c", "a - ( b - c )". */
  function MinText(e: Expr): string {
    Join(MinTokens(e))
  }

  /** No operand anywhere in the tree needs brackets. */
  predicate Unbracketed(e: Expr) {
    match e
    case Leaf(_) => true
    case Node(op, l, r) => !LeftBracketed(op, l) && !RightBracketed(op, r) && Unbracketed(l) && Unbracketed(r)
  }

  lemma {:induction false} MinNonEmpty(e: Expr)
    ensures |MinTokens(e)| > 0
  {
    match e
    case Leaf(_) =>
    case Node(_, l, _) =>
      MinNonEmpty(l);
  }

  /** The minimal tokens of a well-formed tree are whitespace-free words. */
  lemma {:induction false} MinWords(e: Expr)
    requires WellFormed(e)
    ensures forall t :: t in MinTokens(e) ==> IsWord(t)
  {
    match e
    case Leaf(_) =>
    case Node(op, l, r) =>
      MinWords(l);
      MinWords(r);
      ArithmeticIsWord(op);
      assert IsWord("(") && IsWord(")");
  }

  /** Reading the minimal text gives back its tokens. */
  lemma MinTextTokens(e: Expr)
    requires WellFormed(e)
    ensures Tokenize(MinText(e)) == MinTokens(e)
  {
    MinWords(e);
    TokenizeJoin(MinTokens(e));
  }

  /** The minimal text of a tree whose leaves hold no brackets is balanced. */
  lemma {:induction false} MinBalanced(e: Expr)
    requires Plain(e) && WellFormed(e)
    ensures Balance.Balanced(MinText(e))
  {
    match e
    case Leaf(t) =>
      Balance.BalancedWithoutBrackets([], t);
    case Node(op, l, r) =>
      MinBalanced(l);
      MinBalanced(r);
      MinNonEmpty(l);
      MinNonEmpty(r);
      var a := Bracketed(LeftBracketed(op, l), MinTokens(l));
      var b := Bracketed(RightBracketed(op, r), MinTokens(r));
      BracketedBalanced(LeftBracketed(op, l), MinTokens(l));
      BracketedBalanced(RightBracketed(op, r), MinTokens(r));
      JoinAround(a, op, b);
      assert MinTokens(e) == a + [op] + b;
      NodeAround(Join(a), op, Join(b));
  }

  lemma JoinAround(a: seq<string>, op: string, b: seq<string>)
    requires |a| > 0 && |b| > 0
    ensures Join(a + [op] + b) == Join(a) + (" " + op + " ") + Join(b)
  {
    var ob := [op] + b;
    assert a + [op] + b == a + ob;
    JoinAppend([op], b);
    assert Join([op]) == op;
    var jb := op + " " + Join(b);
    assert Join(ob) == jb;
    JoinAppend(a, ob);
    SpacedAround(Join(a), op, Join(b));
  }

  lemma SpacedAround(ja: string, op: string, jb: string)
    ensures ja + " " + (op + " " + jb) == ja + (" " + op + " ") + jb
  {
  }

  lemma NodeAround(ja: string, op: string, jb: string)
    requires Balance.Balanced(ja) && Balance.Balanced(jb) && IsArithmetic(op)
    ensures Balance.Balanced(ja + (" " + op + " ") + jb)
  {
    var mid := " " + op + " ";
    Balance.BalancedWithoutBrackets([], mid);
    Balance.BalancedConcat(ja, mid);
    Balance.BalancedConcat(ja + mid, jb);
  }

  /** Wrapping balanced tokens in a bracket pair keeps their text balanced. */
  lemma BracketedBalanced(b: bool, toks: seq<string>)
    requires |toks| > 0 && Balance.Balanced(Join(toks))
    ensures |Bracketed(b, toks)| > 0 && Balance.Balanced(Join(Bracketed(b, toks)))
  {
    if b {
      var inner := " " + Join(toks) + " ";
      JoinAppend(["("], toks);
      JoinAppend(["("] + toks, [")"]);
      assert Join(["("] + toks + [")"]) == ['('] + inner + [')'];
      Balance.BalancedWithoutBrackets([], " ");
      Balance.BalancedConcat(" ", Join(toks));
      Balance.BalancedConcat(" " + Join(toks), " ");
      ClassifyChar('(', ')');
      Balance.BalancedWrap('(', inner, ')');
    }
  }
}
