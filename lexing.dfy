/**
  Splitting a token list into kinds, shared by the three conversions. Each loop
  of ExpressionManager tests a token's kind in its own order; `kindOf` is that
  test, and the token keeps the kind it decided.
 */
module Lexing {
  /** A token together with its kind, decided once. */
  datatype Token<K> = Token(text: string, kind: K)

  /** Every token paired with its kind, in order. */
  function Lex<K>(toks: seq<string>, kindOf: string -> K): (ts: seq<Token<K>>)
    ensures |ts| == |toks|
  {
    if toks == [] then []
    else Lex(toks[..|toks| - 1], kindOf) + [Token(toks[|toks| - 1], kindOf(toks[|toks| - 1]))]
  }

  lemma {:induction false} LexAt<K>(toks: seq<string>, i: nat, kindOf: string -> K)
    requires i < |toks|
    ensures Lex(toks, kindOf)[i] == Token(toks[i], kindOf(toks[i]))
    decreases |toks|
  {
    if i < |toks| - 1 {
      LexAt(toks[..|toks| - 1], i, kindOf);
    }
  }

  lemma {:induction false} LexAppend<K>(a: seq<string>, b: seq<string>, kindOf: string -> K)
    ensures Lex(a + b, kindOf) == Lex(a, kindOf) + Lex(b, kindOf)
    decreases |b|
  {
    if b == [] {
      assert a + b == a;
    } else {
      var c := b[..|b| - 1];
      assert (a + b)[..|a + b| - 1] == a + c;
      LexAppend(a, c, kindOf);
    }
  }
}
