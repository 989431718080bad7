/**
  Splitting an expression into tokens the way `istringstream >> token` does:
  runs of non-whitespace characters, with any amount of whitespace between them.
 */
module Tokens {

  /** The characters `isspace` accepts in the "C" locale. */
  predicate IsSpace(c: char) {
    c == ' ' || c == '\t' || c == '\n' || c == '\r' || c == '\U{B}' || c == '\U{C}'
  }

  /** A token: non-empty and free of whitespace. */
  predicate IsWord(t: string) {
    |t| > 0 && forall i :: 0 <= i < |t| ==> !IsSpace(t[i])
  }

  /** Length of the longest whitespace-free prefix of `s`. */
  function WordLen(s: string): (n: nat)
    ensures n <= |s|
    ensures forall i :: 0 <= i < n ==> !IsSpace(s[i])
    ensures n < |s| ==> IsSpace(s[n])
  {
    if s == [] || IsSpace(s[0]) then 0 else 1 + WordLen(s[1..])
  }

  /** The tokens of `s`, in order. */
  function Tokenize(s: string): (ts: seq<string>)
    ensures forall i :: 0 <= i < |ts| ==> IsWord(ts[i])
    decreases |s|
  {
    if s == [] then []
    else if IsSpace(s[0]) then Tokenize(s[1..])
    else
      var n := WordLen(s);
      [s[..n]] + Tokenize(s[n..])
  }

  /** Tokens written out with one space between each two. */
  function Join(ts: seq<string>): string
  {
    if |ts| == 0 then ""
    else if |ts| == 1 then ts[0]
    else ts[0] + " " + Join(ts[1..])
  }

  lemma {:induction false} WordLenAppend(a: string, b: string)
    ensures WordLen(a + b) == if WordLen(a) < |a| then WordLen(a) else |a| + WordLen(b)
  {
    if a == [] {
      assert a + b == b;
    } else if !IsSpace(a[0]) {
      assert (a + b)[1..] == a[1..] + b;
      WordLenAppend(a[1..], b);
    }
  }

  /**
    Text cut at a whitespace boundary tokenizes piecewise: the tokens of `a + b`
    are the tokens of `a` followed by those of `b`, when no word straddles the cut.
   */
  lemma {:induction false} TokenizeAppend(a: string, b: string)
    requires a == [] || IsSpace(a[|a| - 1]) || b == [] || IsSpace(b[0])
    ensures Tokenize(a + b) == Tokenize(a) + Tokenize(b)
    decreases |a|, 1
  {
    if a == [] {
      assert a + b == b;
    } else if IsSpace(a[0]) {
      AppendAfterSpace(a, b);
    } else {
      AppendAfterWord(a, b);
    }
  }

  lemma {:induction false} AppendAfterSpace(a: string, b: string)
    requires a != [] && IsSpace(a[0])
    requires IsSpace(a[|a| - 1]) || b == [] || IsSpace(b[0])
    ensures Tokenize(a + b) == Tokenize(a) + Tokenize(b)
    decreases |a|, 0
  {
    var ab := a + b;
    assert ab[0] == a[0];
    assert ab[1..] == a[1..] + b;
    TokenizeAppend(a[1..], b);
  }

  lemma {:induction false} AppendAfterWord(a: string, b: string)
    requires a != [] && !IsSpace(a[0])
    requires IsSpace(a[|a| - 1]) || b == [] || IsSpace(b[0])
    ensures Tokenize(a + b) == Tokenize(a) + Tokenize(b)
    decreases |a|, 0
  {
    var ab := a + b;
    var n := WordLen(a);
    WordLenAppend(a, b);
    assert ab[0] == a[0] && WordLen(ab) == n;
    assert ab[..n] == a[..n];
    assert ab[n..] == a[n..] + b;
    TokenizeAppend(a[n..], b);
  }

  /** A single word is a single token. */
  lemma TokenizeWord(t: string)
    requires IsWord(t)
    ensures Tokenize(t) == [t]
  {
    WordLenAppend(t, []);
    assert t + [] == t;
    assert t[..|t|] == t;
  }

  /** Writing tokens out with single spaces and reading them back gives the same tokens. */
  lemma {:induction false} TokenizeJoin(ts: seq<string>)
    requires forall i :: 0 <= i < |ts| ==> IsWord(ts[i])
    ensures Tokenize(Join(ts)) == ts
  {
    if |ts| == 1 {
      TokenizeWord(ts[0]);
    } else if |ts| > 1 {
      var rest := " " + Join(ts[1..]);
      assert Join(ts) == ts[0] + rest;
      TokenizeAppend(ts[0], rest);
      TokenizeWord(ts[0]);
      assert rest[1..] == Join(ts[1..]);
      TokenizeJoin(ts[1..]);
    }
  }

  /** Joining two non-empty runs of tokens puts one space between them. */
  lemma {:induction false} JoinAppend(a: seq<string>, b: seq<string>)
    requires |a| > 0 && |b| > 0
    ensures Join(a + b) == Join(a) + " " + Join(b)
  {
    if |a| == 1 {
      assert (a + b)[1..] == b;
    } else {
      assert (a + b)[1..] == a[1..] + b;
      JoinAppend(a[1..], b);
    }
  }

  /** The words of a text written as their join. */
  lemma WordsTokenize(toks: seq<string>, s: string)
    requires forall i :: 0 <= i < |toks| ==> IsWord(toks[i])
    requires Join(toks) == s
    ensures Tokenize(s) == toks
  {
    TokenizeJoin(toks);
  }
}
