/**
  The conversions composed. infixToPostfix turns the fully parenthesised text of
  an expression tree, or its minimally bracketed text, into its postfix form;
  postfixEvaluate then computes the tree's value, and postfixToInfix gives the
  fully parenthesised text.
 */
module RoundTrip {
  import opened Maybe
  import opened Numerals
  import opened Classify
  import opened Trees
  import ToPostfix
  import ToInfix
  import Evaluate

  /** A tree's text opens with '(' or with its leftmost operand. */
  lemma {:induction false} TextStart(e: Expr)
    requires !StartsWithOperator(Leftmost(e))
    ensures !StartsWithOperator(Text(e))
  {
    match e
    case Leaf(_) =>
    case Node(op, l, r) =>
      assert Text(e)[0] == '(';
      ClassifyChar('(', ')');
  }

  /** Converting a tree's text to postfix and evaluating the result computes the tree's value. */
  lemma ConvertThenEvaluate(e: Expr, sep: string)
    requires WellFormed(e) && Plain(e) && !StartsWithOperator(Leftmost(e)) && Value(e).Some?
    requires sep == "" || sep == " "
    ensures ToPostfix.Conversion(Text(e), sep).Some?
    ensures Evaluate.Evaluation(ToPostfix.Conversion(Text(e), sep).value) == Some(Evaluate.Pushed(e))
    ensures IsNumber(Evaluate.Pushed(e)) && Stoi(Evaluate.Pushed(e)) == Value(e).value
  {
    ToPostfix.ConvertTree(e, sep);
    Evaluate.EvaluateTree(ToPostfix.Out(e, sep, false), e);
  }

  /** Converting a tree's text to postfix and back to infix restores the text, when no operand is "0". */
  lemma ConvertThenInfix(e: Expr, sep: string)
    requires WellFormed(e) && Plain(e) && !StartsWithOperator(Leftmost(e)) && ToInfix.NoZeroOperand(e)
    requires sep == "" || sep == " "
    ensures ToPostfix.Conversion(Text(e), sep).Some?
    ensures ToInfix.Infix(ToPostfix.Conversion(Text(e), sep).value) == Text(e)
  {
    ToPostfix.ConvertTree(e, sep);
    TextStart(e);
    ToInfix.InfixOfTree(ToPostfix.Out(e, sep, false), e);
  }

  /**
    Converting a tree's minimally bracketed text to postfix and evaluating the
    result computes the tree's value. With the closing-bracket loop as written
    (`sep == ""`) this holds for trees whose text needs no brackets at all.
   */
  lemma MinimalThenEvaluate(e: Expr, sep: string)
    requires WellFormed(e) && Plain(e) && !StartsWithOperator(Leftmost(e)) && Value(e).Some?
    requires sep == " " || (sep == "" && Unbracketed(e))
    ensures ToPostfix.Conversion(MinText(e), sep).Some?
    ensures Evaluate.Evaluation(ToPostfix.Conversion(MinText(e), sep).value) == Some(Evaluate.Pushed(e))
    ensures IsNumber(Evaluate.Pushed(e)) && Stoi(Evaluate.Pushed(e)) == Value(e).value
  {
    ToPostfix.ConvertMinimal(e, sep);
    Evaluate.EvaluateTree(ToPostfix.Conversion(MinText(e), sep).value, e);
  }

  /**
    Converting a tree's minimally bracketed text to postfix and back to infix
    gives the tree's fully parenthesised text, when no operand is "0".
   */
  lemma MinimalThenInfix(e: Expr, sep: string)
    requires WellFormed(e) && Plain(e) && !StartsWithOperator(Leftmost(e)) && ToInfix.NoZeroOperand(e)
    requires sep == " " || (sep == "" && Unbracketed(e))
    ensures ToPostfix.Conversion(MinText(e), sep).Some?
    ensures ToInfix.Infix(ToPostfix.Conversion(MinText(e), sep).value) == Text(e)
  {
    ToPostfix.ConvertMinimal(e, sep);
    TextStart(e);
    ToInfix.InfixOfTree(ToPostfix.Conversion(MinText(e), sep).value, e);
  }
}
