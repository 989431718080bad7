/**
  ExpressionManager::isBalanced: a character-level bracket matcher driven by a
  stack of opening characters. Besides the scan that the method follows, this
  module gives an independent grammar of well-nested brackets and proves that
  the scan accepts exactly the strings whose brackets the grammar derives.
 */
module Balance {
  import opened Maybe
  import opened Classify

  /**
    The scan tests each character `c` with `isOpen(string(1, c))` and `isClose(string(1, c))`
    and pairs characters by their positions in OPEN and CLOSE; ClassifyChar shows these
    tests are the position tests below.
   */
  predicate OpenChar(c: char) {
    OpenIndex(c) != NPOS
  }

  predicate CloseChar(c: char) {
    CloseIndex(c) != NPOS
  }

  predicate IsBracketChar(c: char) {
    OpenChar(c) || CloseChar(c)
  }

  /** The pairing test of the scan: `OPEN.find(top) == CLOSE.find(next)`. */
  predicate PairChars(top: char, next: char) {
    OpenIndex(top) == CloseIndex(next)
  }

  /** One character of the scan: push an opener, pop and match a closer, skip anything else. */
  function Step(stack: seq<char>, c: char): Option<seq<char>>
  {
    if OpenChar(c) then Some(stack + [c])
    else if CloseChar(c) then
      if stack == [] then None
      else if PairChars(stack[|stack| - 1], c) then Some(stack[..|stack| - 1])
      else None
    else Some(stack)
  }

  /** The stack left after scanning `s` from `stack`, or None once a closer fails to match. */
  function Scan(stack: seq<char>, s: string): Option<seq<char>>
    decreases |s|
  {
    if s == [] then Some(stack)
    else match Step(stack, s[0])
      case None => None
      case Some(next) => Scan(next, s[1..])
  }

  /** The scan never fails and leaves no opener behind. */
  predicate Balanced(s: string) {
    Scan([], s) == Some([])
  }

  /** ExpressionManager::isBalanced. */
  method IsBalanced(expression: string) returns (result: bool)
    ensures result == Balanced(expression)
    ensures result <==> Dyck(Brackets(expression))
  {
    var sc: seq<char> := [];
    var balanced := true;
    var i := 0;
    while balanced && i < |expression|
      invariant 0 <= i <= |expression|
      invariant balanced ==> Scan([], expression) == Scan(sc, expression[i..])
      invariant !balanced ==> Scan([], expression) == None
    {
      var next := expression[i];
      assert expression[i..][1..] == expression[i + 1..];
      ClassifyChar(next, next);
      if IsOpen([next]) {
        sc := sc + [next];
      } else if IsClose([next]) {
        if sc == [] {
          balanced := false;
        } else {
          var top := sc[|sc| - 1];
          sc := sc[..|sc| - 1];
          FindOpenChar(top);
          FindCloseChar(next);
          balanced := Find(OPEN, [top]) == Find(CLOSE, [next]);
        }
      }
      i := i + 1;
    }
    result := balanced && sc == [];
    BalancedIffDyck(expression);
  }

  // ----- An independent definition: the grammar of nested brackets -----

  /** `o` opens and `c` closes a bracket pair of the same kind. */
  predicate Matches(o: char, c: char) {
    OpenChar(o) && PairChars(o, c)
  }

  /** The bracket characters of `s`, in order. */
  function Brackets(s: string): (b: string)
    ensures forall i :: 0 <= i < |b| ==> IsBracketChar(b[i])
  {
    if s == [] then []
    else (if IsBracketChar(s[0]) then [s[0]] else []) + Brackets(s[1..])
  }

  /** D ::= empty | open D close D, with the closer of the opener's kind. */
  ghost predicate Dyck(w: string)
    decreases |w|, 1
  {
    w == [] || exists k :: PairAt(w, k)
  }

  /** `w` opens with a bracket closed at position `k`, with Dyck words inside and after the pair. */
  ghost predicate PairAt(w: string, k: int)
    decreases |w|, 0
  {
    0 < k < |w| && Matches(w[0], w[k]) && Dyck(w[1..k]) && Dyck(w[k + 1..])
  }

  /**
    `w` closes the openers of `stack`: it is a Dyck word followed by the closer of
    the topmost opener, then by a word that closes the rest of the stack.
   */
  ghost predicate Closes(stack: seq<char>, w: string)
    decreases |stack|, 1
  {
    if stack == [] then Dyck(w) else exists k :: ClosedAt(stack, w, k)
  }

  /** The topmost opener of `stack` is closed at position `k` of `w`, after a Dyck word. */
  ghost predicate ClosedAt(stack: seq<char>, w: string, k: int)
    decreases |stack|, 0
  {
    stack != [] && 0 <= k < |w| && Matches(stack[|stack| - 1], w[k]) &&
    Dyck(w[..k]) && Closes(stack[..|stack| - 1], w[k + 1..])
  }

  /** Characters that are no brackets leave the scan unchanged. */
  lemma {:induction false} ScanBrackets(stack: seq<char>, s: string)
    ensures Scan(stack, s) == Scan(stack, Brackets(s))
    decreases |s|
  {
    if s != [] {
      if IsBracketChar(s[0]) {
        var b := [s[0]] + Brackets(s[1..]);
        assert b[0] == s[0] && b[1..] == Brackets(s[1..]);
        match Step(stack, s[0])
        case None =>
        case Some(next) => ScanBrackets(next, s[1..]);
      } else {
        assert Step(stack, s[0]) == Some(stack);
        assert Brackets(s) == Brackets(s[1..]);
        ScanBrackets(stack, s[1..]);
      }
    }
  }

  lemma ScanCons(stack: seq<char>, c: char, x: string)
    ensures Scan(stack, [c] + x) == match Step(stack, c) { case None => None case Some(next) => Scan(next, x) }
  {
    assert ([c] + x)[0] == c && ([c] + x)[1..] == x;
  }

  lemma StepOpen(stack: seq<char>, o: char)
    requires OpenChar(o)
    ensures Step(stack, o) == Some(stack + [o])
  {
  }

  lemma StepMatch(stack: seq<char>, o: char, c: char)
    requires Matches(o, c)
    ensures Step(stack + [o], c) == Some(stack)
  {
    assert (stack + [o])[..|stack|] == stack;
  }

  /** One bracket pair around a part that leaves the stack alone leaves the stack alone. */
  lemma ScanPair(stack: seq<char>, o: char, x: string, c: char, after: string)
    requires Matches(o, c)
    requires Scan(stack + [o], x + ([c] + after)) == Scan(stack + [o], [c] + after)
    ensures Scan(stack, [o] + (x + ([c] + after))) == Scan(stack, after)
  {
    ScanCons(stack, o, x + ([c] + after));
    StepOpen(stack, o);
    ScanCons(stack + [o], c, after);
    StepMatch(stack, o, c);
  }

  lemma SplitAround(w: string, k: nat, rest: string)
    requires 0 < k < |w|
    ensures w + rest == [w[0]] + (w[1..k] + ([w[k]] + (w[k + 1..] + rest)))
  {
    assert w == [w[0]] + w[1..k] + [w[k]] + w[k + 1..];
  }

  /** Soundness of the scan against the grammar: a Dyck word leaves the stack as it found it. */
  lemma {:induction false} DyckScan(stack: seq<char>, w: string, rest: string)
    requires Dyck(w)
    ensures Scan(stack, w + rest) == Scan(stack, rest)
    decreases |w|
  {
    if w == [] {
      assert w + rest == rest;
    } else {
      var k :| PairAt(w, k);
      var o, c, x, y := w[0], w[k], w[1..k], w[k + 1..];
      DyckScan(stack + [o], x, [c] + (y + rest));
      ScanPair(stack, o, x, c, y + rest);
      DyckScan(stack, y, rest);
      SplitAround(w, k, rest);
    }
  }

  /** An opener, a Dyck word, its closer and another Dyck word make a Dyck word. */
  lemma DyckOfPair(w: string, j: nat, p: nat)
    requires 0 < j < p <= |w| && Matches(w[0], w[j]) && Dyck(w[1..j]) && Dyck(w[j + 1..p])
    ensures Dyck(w[..p])
  {
    var u := w[..p];
    assert u[0] == w[0] && u[j] == w[j] && u[1..j] == w[1..j] && u[j + 1..] == w[j + 1..p];
    assert PairAt(u, j);
  }

  /** An opener, a Dyck word, its closer, then a word closing `stack`: together they close `stack`. */
  lemma CloseAfterPair(stack: seq<char>, w: string, j: nat)
    requires 0 < j < |w| && Matches(w[0], w[j]) && Dyck(w[1..j])
    requires Closes(stack, w[j + 1..])
    ensures Closes(stack, w)
  {
    if stack == [] {
      assert PairAt(w, j);
    } else {
      var v := w[j + 1..];
      assert Closes(stack, v);
      var m :| ClosedAt(stack, v, m);
      var p := j + 1 + m;
      assert v[..m] == w[j + 1..p];
      DyckOfPair(w, j, p);
      assert v[m] == w[p] && v[m + 1..] == w[p + 1..];
      assert ClosedAt(stack, w, p);
    }
  }

  lemma CloseOpenCase(stack: seq<char>, w: string)
    requires w != [] && OpenChar(w[0])
    requires Closes(stack + [w[0]], w[1..])
    ensures Closes(stack, w)
  {
    var c := w[0];
    var up := stack + [c];
    assert up[|up| - 1] == c && up[..|up| - 1] == stack;
    var k :| ClosedAt(up, w[1..], k);
    assert w[1..][..k] == w[1..k + 1] && w[1..][k + 1..] == w[k + 2..] && w[1..][k] == w[k + 1];
    CloseAfterPair(stack, w, k + 1);
  }

  lemma CloseCloseCase(stack: seq<char>, w: string)
    requires w != [] && stack != [] && Matches(stack[|stack| - 1], w[0])
    requires Closes(stack[..|stack| - 1], w[1..])
    ensures Closes(stack, w)
  {
    assert w[..0] == [] && Dyck([]);
    assert w[0 + 1..] == w[1..];
    assert ClosedAt(stack, w, 0);
  }

  /** Completeness: a bracket word that the scan reduces from `stack` to empty closes `stack`. */
  lemma {:induction false} ScanCloses(stack: seq<char>, w: string)
    requires forall i :: 0 <= i < |w| ==> IsBracketChar(w[i])
    requires Scan(stack, w) == Some([])
    ensures Closes(stack, w)
    decreases |w|
  {
    if w == [] {
      assert Dyck(w);
    } else {
      var c := w[0];
      assert w == [c] + w[1..];
      ScanCons(stack, c, w[1..]);
      if OpenChar(c) {
        StepOpen(stack, c);
        ScanCloses(stack + [c], w[1..]);
        CloseOpenCase(stack, w);
      } else {
        assert stack != [] && PairChars(stack[|stack| - 1], c);
        ScanCloses(stack[..|stack| - 1], w[1..]);
        CloseCloseCase(stack, w);
      }
    }
  }

  /** `isBalanced` accepts a string exactly when its brackets form a Dyck word. */
  lemma BalancedIffDyck(s: string)
    ensures Balanced(s) <==> Dyck(Brackets(s))
  {
    var b := Brackets(s);
    ScanBrackets([], s);
    if Dyck(b) {
      DyckScan([], b, []);
      assert b + [] == b;
    }
    if Balanced(s) {
      ScanCloses([], b);
    }
  }

  /** Openers already on the stack are not touched by a scan that succeeds without them. */
  lemma {:induction false} ScanLift(below: seq<char>, stack: seq<char>, s: string, r: seq<char>)
    requires Scan(stack, s) == Some(r)
    ensures Scan(below + stack, s) == Some(below + r)
    decreases |s|
  {
    if s != [] {
      var c := s[0];
      match Step(stack, c)
      case None =>
      case Some(next) =>
        if OpenChar(c) {
          assert (below + stack) + [c] == below + (stack + [c]);
        } else if CloseChar(c) {
          assert (below + stack)[|below + stack| - 1] == stack[|stack| - 1];
          assert (below + stack)[..|below + stack| - 1] == below + stack[..|stack| - 1];
        }
        assert Step(below + stack, c) == Some(below + next);
        ScanLift(below, next, s[1..], r);
    }
  }

  /** A balanced string wrapped in a matching bracket pair stays balanced. */
  lemma BalancedWrap(o: char, s: string, c: char)
    requires Matches(o, c) && Balanced(s)
    ensures Balanced([o] + s + [c])
  {
    assert [o] + s + [c] == [o] + (s + [c]);
    assert [] + [o] == [o] && [o] + [] == [o];
    ScanCons([], o, s + [c]);
    StepOpen([], o);
    ScanAppend([o], s, [c]);
    ScanLift([o], [], s, []);
    ScanCons([o], c, []);
    StepMatch([], o, c);
  }

  /** Two balanced strings side by side are balanced. */
  lemma BalancedConcat(a: string, b: string)
    requires Balanced(a) && Balanced(b)
    ensures Balanced(a + b)
  {
    ScanAppend([], a, b);
  }

  /** Scanning a concatenation is scanning the first part, then the second from where it left off. */
  lemma {:induction false} ScanAppend(stack: seq<char>, a: string, b: string)
    ensures Scan(stack, a + b) == match Scan(stack, a) { case None => None case Some(mid) => Scan(mid, b) }
    decreases |a|
  {
    if a == [] {
      assert a + b == b;
    } else {
      assert (a + b)[0] == a[0] && (a + b)[1..] == a[1..] + b;
      match Step(stack, a[0])
      case None =>
      case Some(next) => ScanAppend(next, a[1..], b);
    }
  }

  /** Text without bracket characters is balanced, and so is any scan through it. */
  lemma {:induction false} BalancedWithoutBrackets(stack: seq<char>, s: string)
    requires forall i :: 0 <= i < |s| ==> !IsBracketChar(s[i])
    ensures Scan(stack, s) == Some(stack)
    ensures Balanced(s)
    decreases |s|
  {
    if s != [] {
      BalancedWithoutBrackets(stack, s[1..]);
      BalancedWithoutBrackets([], s[1..]);
    }
  }
}
