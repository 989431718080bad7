/** Reading the parts of a composite token sequence back out of a longer one. */
module Slices {
  /**
    Operands followed by an operator (the postfix layout of a node), found at
    `ts[i..n]`: the left operand ends at `j`, the right one at `k`.
   */
  lemma PostfixParts<T>(ts: seq<T>, i: nat, j: nat, k: nat, n: nat, l: seq<T>, r: seq<T>, op: T)
    requires j == i + |l| && k == j + |r| && n == k + 1 && n <= |ts|
    requires ts[i..n] == l + r + [op]
    ensures ts[i..j] == l
    ensures ts[j..k] == r
    ensures ts[k] == op
  {
    var w := ts[i..n];
    forall x | 0 <= x < |l|
      ensures ts[i + x] == l[x]
    {
      assert ts[i + x] == w[x];
    }
    forall x | 0 <= x < |r|
      ensures ts[j + x] == r[x]
    {
      assert ts[j + x] == w[|l| + x];
    }
    assert ts[k] == w[|l| + |r|];
  }

  /**
    An operand and an operator between brackets (the infix layout of a node),
    found at `ts[i..n]`: the operator sits at `j` and the closing bracket at `k`.
   */
  lemma InfixParts<T>(ts: seq<T>, i: nat, j: nat, k: nat, n: nat, open: T, l: seq<T>, op: T, r: seq<T>, close: T)
    requires j == i + 1 + |l| && k == j + 1 + |r| && n == k + 1 && n <= |ts|
    requires ts[i..n] == [open] + l + [op] + r + [close]
    ensures ts[i] == open
    ensures ts[i + 1..j] == l
    ensures ts[j] == op
    ensures ts[j + 1..k] == r
    ensures ts[k] == close
  {
    var w := ts[i..n];
    assert ts[i] == w[0];
    forall x | 0 <= x < |l|
      ensures ts[i + 1 + x] == l[x]
    {
      assert ts[i + 1 + x] == w[1 + x];
    }
    assert ts[j] == w[1 + |l|];
    forall x | 0 <= x < |r|
      ensures ts[j + 1 + x] == r[x]
    {
      assert ts[j + 1 + x] == w[2 + |l| + x];
    }
    assert ts[k] == w[2 + |l| + |r|];
  }

  /** A run, one element and another run, found at `ts[i..n]`: the element sits at `j`. */
  lemma Around<T>(ts: seq<T>, i: nat, j: nat, n: nat, a: seq<T>, x: T, b: seq<T>)
    requires j == i + |a| && n == j + 1 + |b| && n <= |ts|
    requires ts[i..n] == a + [x] + b
    ensures ts[i..j] == a
    ensures ts[j] == x
    ensures ts[j + 1..n] == b
  {
    var w := ts[i..n];
    forall y | 0 <= y < |a|
      ensures ts[i + y] == a[y]
    {
      assert ts[i + y] == w[y];
    }
    assert ts[j] == w[|a|];
    forall y | 0 <= y < |b|
      ensures ts[j + 1 + y] == b[y]
    {
      assert ts[j + 1 + y] == w[|a| + 1 + y];
    }
  }

  /** A run between an opening and a closing element, found at `ts[i..n]`. */
  lemma Wrapped<T>(ts: seq<T>, i: nat, n: nat, open: T, a: seq<T>, close: T)
    requires n == i + |a| + 2 && n <= |ts|
    requires ts[i..n] == [open] + a + [close]
    ensures ts[i] == open
    ensures ts[i + 1..n - 1] == a
    ensures ts[n - 1] == close
  {
    var w := ts[i..n];
    assert ts[i] == w[0];
    forall y | 0 <= y < |a|
      ensures ts[i + 1 + y] == a[y]
    {
      assert ts[i + 1 + y] == w[1 + y];
    }
    assert ts[n - 1] == w[|a| + 1];
  }

  /** A prefix of `a` is a prefix of anything `a` starts. */
  lemma PrefixAppend<T>(p: seq<T>, a: seq<T>, b: seq<T>)
    requires p <= a
    ensures p <= a + b
  {
    assert (a + b)[..|p|] == a[..|p|];
  }

  lemma Assoc<T>(a: seq<T>, b: seq<T>, c: seq<T>)
    ensures a + b + c == a + (b + c)
  {
  }
}
