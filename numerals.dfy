/**
  Decimal integers as the expression engine sees them: the 32-bit `int` range,
  the prefix that stream extraction (`ss >> num`) and `stoi` read, the text that
  `to_string` writes, and C++'s truncating `/` and `%`.
 */
module Numerals {
  import opened Maybe

  const INT_MIN: int := -0x8000_0000
  const INT_MAX: int := 0x7FFF_FFFF

  predicate InInt32(n: int) {
    INT_MIN <= n <= INT_MAX
  }

  predicate IsDigit(c: char) {
    '0' <= c <= '9'
  }

  predicate AllDigits(s: string) {
    forall i :: 0 <= i < |s| ==> IsDigit(s[i])
  }

  /** The value of a decimal digit character (0 for any other character). */
  function DigitValue(c: char): nat
  {
    if IsDigit(c) then c as int - '0' as int else 0
  }

  function DigitChar(d: nat): (c: char)
    requires d < 10
    ensures IsDigit(c) && DigitValue(c) == d
  {
    ('0' as int + d) as char
  }

  /** Length of the run of decimal digits in `s` that starts at position `i`. */
  function DigitRun(s: string, i: nat): (n: nat)
    decreases |s| - i
  {
    if i < |s| && IsDigit(s[i]) then 1 + DigitRun(s, i + 1) else 0
  }

  /** The run is made of digits, stays inside `s` and stops at the first character that is not one. */
  lemma {:induction false} DigitRunMaximal(s: string, i: nat)
    requires i <= |s|
    ensures i + DigitRun(s, i) <= |s|
    ensures forall x :: i <= x < i + DigitRun(s, i) ==> IsDigit(s[x])
    ensures i + DigitRun(s, i) < |s| ==> !IsDigit(s[i + DigitRun(s, i)])
    decreases |s| - i
  {
    if i < |s| && IsDigit(s[i]) {
      DigitRunMaximal(s, i + 1);
    }
  }

  /** A run over characters that are all digits reaches the end of `s`. */
  lemma {:induction false} DigitRunOfDigits(s: string, i: nat)
    requires i <= |s|
    requires forall x :: i <= x < |s| ==> IsDigit(s[x])
    ensures DigitRun(s, i) == |s| - i
    decreases |s| - i
  {
    if i < |s| {
      DigitRunOfDigits(s, i + 1);
    }
  }

  /** The value of the digits `s[i..j]`, most significant digit first. */
  function DigitsValue(s: string, i: nat, j: nat): nat
    requires j <= |s|
    decreases j
  {
    if j <= i then 0 else DigitsValue(s, i, j - 1) * 10 + DigitValue(s[j - 1])
  }

  /** The value of a stretch of digits depends on those digits only. */
  lemma {:induction false} DigitsValueShift(p: string, s: string, q: string, i: nat, j: nat)
    requires i <= j <= |s|
    ensures DigitsValue(p + s + q, |p| + i, |p| + j) == DigitsValue(s, i, j)
    decreases j
  {
    if i < j {
      DigitsValueShift(p, s, q, i, j - 1);
      assert (p + s + q)[|p| + j - 1] == s[j - 1];
    }
  }

  /** 1 when `s` opens with a sign character, else 0. */
  function SignLength(s: string): (k: nat)
    ensures k <= |s|
  {
    if |s| > 0 && (s[0] == '+' || s[0] == '-') then 1 else 0
  }

  /**
    The integer spelled by the longest prefix of `s` of the form [+-]?[0-9]+,
    or None when `s` does not start that way. This is the part of a token that
    `ss >> num` and `stoi` consume; anything after it ("12abc", "3.5") is ignored.
   */
  function PrefixValue(s: string): Option<int>
  {
    var k := SignLength(s);
    var n := DigitRun(s, k);
    if n == 0 || k + n > |s| then None
    else
      var m: int := DigitsValue(s, k, k + n);
      Some(if k == 1 && s[0] == '-' then -m else m)
  }

  /**
    ExpressionManager::isNumber: extracting an `int` from the token succeeds,
    i.e. it starts with a signed digit run whose value fits in 32 bits.
   */
  predicate IsNumber(s: string) {
    var v := PrefixValue(s);
    v.Some? && InInt32(v.value)
  }

  /** `stoi` on a string that starts with an in-range number. */
  function Stoi(s: string): (n: int)
    requires IsNumber(s)
    ensures InInt32(n)
  {
    PrefixValue(s).value
  }

  /** The digits of a natural number, without leading zeros. */
  function NatDigits(n: nat): (s: string)
    ensures |s| > 0 && AllDigits(s)
    ensures |s| > 1 ==> s[0] != '0'
    ensures DigitsValue(s, 0, |s|) == n
  {
    if n < 10 then [DigitChar(n)]
    else
      var p := NatDigits(n / 10);
      var s := p + [DigitChar(n % 10)];
      DigitsValueShift([], p, [DigitChar(n % 10)], 0, |p|);
      assert [] + p + [DigitChar(n % 10)] == s;
      s
  }

  /** `to_string` on an int: an optional minus sign, then digits without leading zeros. */
  function IntToString(n: int): (s: string)
    ensures |s| > 0
    ensures (s[0] == '-') == (n < 0)
    ensures forall x :: SignLength(s) <= x < |s| ==> IsDigit(s[x])
  {
    if n < 0 then "-" + NatDigits(-n) else NatDigits(n)
  }

  /** `stoi(to_string(n)) == n`, and the text `to_string` writes passes `isNumber`. */
  lemma IntToStringRoundTrip(n: int)
    requires InInt32(n)
    ensures IsNumber(IntToString(n))
    ensures Stoi(IntToString(n)) == n
  {
    var s := IntToString(n);
    var ds := NatDigits(Abs(n));
    var k := SignLength(s);
    DigitRunOfDigits(s, k);
    if n < 0 {
      assert s == "-" + ds + [];
      DigitsValueShift("-", ds, [], 0, |ds|);
    } else {
      assert IsDigit(s[0]) && k == 0;
      assert s == [] + ds + [];
      DigitsValueShift([], ds, [], 0, |ds|);
    }
  }

  /** `to_string(n)` is the text "0" exactly when `n` is zero. */
  lemma IntToStringZero(n: int)
    ensures IntToString(n) == "0" <==> n == 0
  {
    if n > 0 && n < 10 {
      assert IntToString(n) == [DigitChar(n)];
      assert DigitValue(DigitChar(n)) != 0;
    } else if n >= 10 {
      assert |NatDigits(n)| > 1;
    }
  }

  function Abs(n: int): nat {
    if n < 0 then -n else n
  }

  /** C++ integer division: the quotient truncated toward zero. */
  function TruncDiv(a: int, b: int): int
    requires b != 0
  {
    var q := Abs(a) / Abs(b);
    if (a < 0) == (b < 0) then q else -q
  }

  /** C++ `%`: the remainder of truncating division, with the sign of the dividend. */
  function TruncMod(a: int, b: int): int
    requires b != 0
  {
    var r := Abs(a) % Abs(b);
    if a < 0 then -r else r
  }

  /**
    The two together satisfy the identity C++ guarantees, `(a / b) * b + a % b == a`,
    with a remainder smaller than the divisor and never of the opposite sign to `a`.
   */
  lemma TruncDivMod(a: int, b: int)
    requires b != 0
    ensures TruncDiv(a, b) * b + TruncMod(a, b) == a
    ensures Abs(TruncMod(a, b)) < Abs(b)
    ensures TruncMod(a, b) == 0 || ((TruncMod(a, b) < 0) == (a < 0))
    ensures Abs(TruncDiv(a, b)) * Abs(b) <= Abs(a)
  {
    TruncIdentity(a, b);
    TruncRemainder(a, b);
  }

  lemma TruncIdentity(a: int, b: int)
    requires b != 0
    ensures TruncDiv(a, b) * b + TruncMod(a, b) == a
    ensures Abs(TruncDiv(a, b)) * Abs(b) <= Abs(a)
  {
    var x: int, y: int := Abs(a), Abs(b);
    var q: int, r: int := x / y, x % y;
    var qy := q * y;
    assert x == qy + r && 0 <= r < y;
    SignedProduct(TruncDiv(a, b), b, q, y, qy, a < 0);
  }

  lemma TruncRemainder(a: int, b: int)
    requires b != 0
    ensures Abs(TruncMod(a, b)) < Abs(b)
    ensures TruncMod(a, b) == 0 || ((TruncMod(a, b) < 0) == (a < 0))
  {
    var r: int := Abs(a) % Abs(b);
    assert 0 <= r < Abs(b);
  }

  /** A quotient `d` of magnitude `q`, signed by the operands, times the divisor `b` of magnitude `y`. */
  lemma SignedProduct(d: int, b: int, q: int, y: int, qy: int, negative: bool)
    requires y > 0 && (b == y || b == -y) && q >= 0 && qy == q * y
    requires d == (if negative == (b < 0) then q else -q)
    ensures d * b == (if negative then -qy else qy)
    ensures Abs(d) == q
  {
    MulSigns(q, y);
  }

  lemma MulSigns(q: int, y: int)
    ensures (-q) * y == -(q * y) && q * (-y) == -(q * y) && (-q) * (-y) == q * y
  {
  }

  /**
    `a op b` on C++ `int`s for the five operators, or None where C++ leaves the
    result undefined: signed overflow, a zero divisor, and `INT_MIN / -1` (which
    also makes `INT_MIN % -1` undefined).
   */
  function Apply(op: string, a: int, b: int): (r: Option<int>)
    requires InInt32(a) && InInt32(b)
    ensures r.Some? ==> InInt32(r.value)
    ensures (op == "/" || op == "%") && b == 0 ==> r == None
    ensures op == "/" && b != 0 ==> r == (if InInt32(TruncDiv(a, b)) then Some(TruncDiv(a, b)) else None)
  {
    if op == "+" then (if InInt32(a + b) then Some(a + b) else None)
    else if op == "-" then (if InInt32(a - b) then Some(a - b) else None)
    else if op == "*" then (if InInt32(a * b) then Some(a * b) else None)
    else if op == "/" then (if b != 0 && InInt32(TruncDiv(a, b)) then Some(TruncDiv(a, b)) else None)
    else if op == "%" then (if b != 0 && InInt32(TruncDiv(a, b)) then TruncDivMod(a, b); Some(TruncMod(a, b)) else None)
    else None
  }

  /** On 32-bit operands only `INT_MIN / -1` leaves the range among the divisions. */
  lemma DivisionOverflow(a: int, b: int)
    requires InInt32(a) && InInt32(b) && b != 0
    ensures !InInt32(TruncDiv(a, b)) <==> a == INT_MIN && b == -1
  {
    if b == -1 {
      assert Abs(b) == 1;
      assert TruncDiv(a, b) == -a;
    } else if b == 1 {
      assert Abs(b) == 1;
      assert TruncDiv(a, b) == a;
    } else {
      TruncDivMod(a, b);
      ScaleUp(Abs(TruncDiv(a, b)), Abs(b));
    }
  }

  lemma ScaleUp(q: nat, d: nat)
    requires d >= 2
    ensures q * 2 <= q * d
  {
  }

  /** A one-digit token is a number whose value is its digit. */
  lemma DigitNumeral(c: char)
    requires IsDigit(c)
    ensures IsNumber([c]) && Stoi([c]) == DigitValue(c)
  {
    assert DigitRun([c], 0) == 1;
  }
}
