# ExpressionManager in Dafny

A model of `ExpressionManager`, a small C++ class that works on arithmetic
expressions written with a space between every token:

- `isBalanced` checks that the brackets `( ) { } [ ]` nest properly;
- `infixToPostfix` converts infix to postfix with a shunting-yard loop;
- `postfixToInfix` rebuilds a fully parenthesised infix string;
- `postfixEvaluate` computes the integer value of a postfix expression;

and the token classifiers they share (`isOpen`, `isClose`, `isPair`,
`isOperator`, `isNumber`, `Precedence`). Each operation returns the string
"invalid" for input it rejects.

Modules, one per part of the source:

| module | what it holds |
|---|---|
| `Maybe` | `Option` |
| `Slices` | reading the parts of a token sequence back out of a longer one |
| `Numerals` | 32-bit `int`, `stoi`, `to_string`, `isNumber` (stream extraction of an `int`), C++ truncating `/` and `%` with their undefined cases |
| `Tokens` | splitting a string into whitespace-separated tokens (`istringstream >> token`) |
| `Lexing` | pairing each token with the kind a loop's tests give it, shared by the three conversions |
| `Classify` | the classifiers over `std::string::find`, and `Precedence` |
| `Balance` | `isBalanced`, as a method with its loop, proved equal to a Dyck-language characterisation |
| `ToInfix` | `postfixToInfix` |
| `Evaluate` | `postfixEvaluate` |
| `ToPostfix` | `infixToPostfix` |
| `Trees` | expression trees as the reference: postfix tokens, fully parenthesised text, value under `int` arithmetic |
| `RoundTrip` | the conversions composed |

Each of the four operations is a `method` with its stacks held in `seq`
variables. The three conversions keep the source's `while (input >> token)`
loop over the tokens. `isBalanced`'s `for` loop over the characters becomes a
`while` loop over an index. In `postfixToInfix` the loop body is the
separate method `ScanToken`, called once per token. Each operation is proved equal to a
specification function: `Balanced`, `Infix`, `Evaluation` and `Conversion`.
These functions are a fold of one-step functions over the lexed tokens, and
the properties the source promises are proved about them as lemmas.

Where C++ leaves the behaviour undefined, the specification function returns
`None` or `Undefined`. The undefined cases are:

- signed overflow;
- `%` by zero;
- `INT_MIN / -1`;
- a division by zero whose divisor is not written "0";
- `Precedence` of a token it does not rank;
- `pop` on an empty stack.

The methods require a defined outcome.

`infixToPostfix` is modelled with a parameter `sep`, the text appended after
each operator that the closing-bracket loop pops:

- `sep` = "" is the code as written, which `InfixToPostfix` implements;
- `sep` = " " is the corrected loop (see Findings).

## Model

| member | source | states |
|---|---|---|
| Classify.FindFirst | ExpressionManager.cpp:6-17 | `find` returns the first position where the token occurs in the class string, or npos when it occurs nowhere |
| Classify.ClassifyChar | ExpressionManager.cpp:2-17 | on one-character tokens, isOpen, isClose and isOperator recognise exactly their own characters; isPair holds exactly for an opener and the closer of the same kind |
| Classify.SymbolClassesDisjoint | ExpressionManager.cpp:2-17 | no token is both an opener and a closer, or both a bracket and an operator |
| Classify.Precedence | ExpressionManager.cpp:29-46 | a defined precedence lies between 0 and 3 |
| Classify.PrecedenceOfChar | ExpressionManager.cpp:29-46 | the ranks: closers 3, `* / %` 2, `+ -` 1, openers 0; any other character is unranked |
| Classify.MultiCharOperator | ExpressionManager.cpp:15-46 | "+-" passes isOperator (a substring of "+-*/%") but has no defined precedence |
| Classify.ArithmeticClass | ExpressionManager.cpp:15-46 | the five operators are operators, never brackets or numerals, and rank 2 (`* / %`) or 1 (`+ -`) |
| Classify.NumberIsNoSymbol | ExpressionManager.cpp:6-28 | a token that passes isNumber is never taken for a bracket or an operator |
| Classify.SymbolIsNoNumber | ExpressionManager.cpp:6-28 | a bracket or operator token never passes isNumber |
| Numerals.DigitNumeral | ExpressionManager.cpp:18-28 | a single digit passes isNumber and reads as its value |
| Numerals.Stoi | ExpressionManager.cpp:176 | `stoi` of a token that passes isNumber yields a 32-bit value |
| Numerals.IntToStringRoundTrip | ExpressionManager.cpp:176-177 | `to_string` of a 32-bit value passes isNumber and reads back as the same value |
| Numerals.IntToStringZero | ExpressionManager.cpp:188 | `to_string(n)` is "0" exactly when n is zero |
| Numerals.TruncDivMod | ExpressionManager.cpp:189-197 | C++ `/` and `%` truncate toward zero: quotient times divisor plus remainder gives the dividend, and the remainder is smaller than the divisor and takes the dividend's sign |
| Numerals.Apply | ExpressionManager.cpp:175-199 | the five operators on `int`: a defined result fits in 32 bits; `/` and `%` by zero are undefined; `/` is the truncating quotient unless that overflows |
| Numerals.DivisionOverflow | ExpressionManager.cpp:189 | a truncating quotient leaves the 32-bit range exactly for `INT_MIN / -1` |
| Tokens.Tokenize | ExpressionManager.cpp:96-102 | stream extraction yields tokens that are non-empty and free of whitespace |
| Tokens.TokenizeJoin | ExpressionManager.cpp:96-102 | tokens joined by single spaces read back as the same tokens |
| Balance.IsBalanced | ExpressionManager.cpp:56-78 | the loop's result equals the bracket-scan specification and holds exactly when the bracket characters form a properly nested (Dyck) word |
| Balance.BalancedIffDyck | ExpressionManager.cpp:56-78 | an expression is balanced if and only if its brackets nest properly, in both directions |
| Balance.ScanBrackets | ExpressionManager.cpp:61-76 | characters other than brackets do not affect the scan |
| Balance.BalancedWithoutBrackets | ExpressionManager.cpp:61-77 | an expression without brackets is balanced |
| Balance.BalancedWrap | ExpressionManager.cpp:56-78 | a balanced expression wrapped in a matching pair is balanced |
| Balance.BalancedConcat | ExpressionManager.cpp:56-78 | two balanced expressions side by side are balanced |
| ToInfix.PostfixToInfix | ExpressionManager.cpp:92-147 | the loop's result equals `Infix`, the fold of the one-token step followed by the final test |
| ToInfix.ScanToken | ExpressionManager.cpp:103-134 | one pass of the loop body is one step of `Run`: a numeral is pushed and counted, an operator with two terms pops them and pushes their combination unless either is "0", and any other token stops the scan with the stack and counters unchanged |
| ToInfix.PushCombined | ExpressionManager.cpp:113-127 | the five-way push adds exactly `Combine(one, op, two)` to the stack: one bracketed term for the five operators, nothing for any other token |
| ToInfix.CombineText | ExpressionManager.cpp:113-127 | each of the five operators pushes "( one op two )" |
| ToInfix.InfixOfTree | ExpressionManager.cpp:92-147 | the postfix form of any tree without a "0" operand converts to the tree's fully parenthesised text, provided that text does not start with an operator character (a lone signed leaf such as "-5" is excluded) |
| ToInfix.InfixSound | ExpressionManager.cpp:136-143 | every result other than "invalid" is the parenthesised text of a tree whose postfix tokens are exactly the input's tokens |
| ToInfix.ZeroOperandExample | ExpressionManager.cpp:112 | "0 5 +" converts to "invalid": the "0" is dropped with its operator and the counts no longer match |
| Evaluate.PostfixEvaluate | ExpressionManager.cpp:158-211 | the loop's result equals `Evaluation`, the fold of the one-token step followed by reading the top of the stack |
| Evaluate.EvaluateToken | ExpressionManager.cpp:166-204 | one token as the loop body handles it: it continues or breaks as the step says, and the stack holds only numbers |
| Evaluate.HaltingTokens | ExpressionManager.cpp:187-203 | an unusable token, an operator with fewer than two operands, and `/` over "0" each end the scan; the last one leaves the stack without both operands |
| Evaluate.RunNumbers | ExpressionManager.cpp:166-204 | every entry on the stack passes isNumber |
| Evaluate.EvaluationIsNumber | ExpressionManager.cpp:205-210 | the result is "invalid" exactly when it is not a number, i.e. when the stack ended empty |
| Evaluate.EvaluateTree | ExpressionManager.cpp:158-211 | the postfix form of any tree with a defined value evaluates to the text of that value |
| Evaluate.SumExample | ExpressionManager.cpp:175-178 | "3 4 +" evaluates to "7" |
| Evaluate.ZeroDivisorExample | ExpressionManager.cpp:187-194 | "10 0 /" evaluates to "invalid" |
| Evaluate.UnderValidationExample | ExpressionManager.cpp:205-207 | "1 2" evaluates to "2": the stack's top is returned without checking that one value is left |
| ToPostfix.InfixToPostfix | ExpressionManager.cpp:224-298 | the loop's result equals `Conversion` with nothing appended after operators popped at a closer |
| ToPostfix.ConvertToken | ExpressionManager.cpp:234-277 | one token as the loop body handles it, equal to the one-token step, state unchanged when it breaks |
| ToPostfix.PopOperators | ExpressionManager.cpp:250-255 | the inner loop pops exactly what `PopAtLeast` pops |
| ToPostfix.PopToPair | ExpressionManager.cpp:264-267 | the inner loop pops back to the pair of the closer |
| ToPostfix.StepGrows | ExpressionManager.cpp:234-277 | a step never shortens the output and counts numerals and operators one each; an unusable token never continues |
| ToPostfix.RunCounts | ExpressionManager.cpp:234-277 | after a full scan the counters hold the numbers of numeral and operator tokens, and no token was unusable |
| ToPostfix.FlushGrows | ExpressionManager.cpp:282-291 | the final flush never shortens the output |
| ToPostfix.InvalidInputs | ExpressionManager.cpp:233-281 | an unbalanced input, or one with a token that is no numeral, operator or bracket, converts to "invalid" |
| ToPostfix.ValidResult | ExpressionManager.cpp:292-297 | a result other than "invalid" comes from a balanced input of usable tokens with one numeral more than operators, and does not start with an operator |
| ToPostfix.StackInvariant | ExpressionManager.cpp:245-258 | the stack holds only operators and openers, and every operator ranks strictly above the entry just below it (an opener ranks 0) |
| ToPostfix.AdjacentOperators | ExpressionManager.cpp:245-258 | on an ordered stack two adjacent operators are `+`/`-` below `*`/`/`/`%` |
| ToPostfix.PrecedenceExample | ExpressionManager.cpp:245-258 | "a + b * c" converts to "a b c * +" for digits a, b, c |
| ToPostfix.ConvertTree | ExpressionManager.cpp:224-298 | the fully parenthesised text of any tree whose first numeral has no sign converts to a string whose tokens are the tree's postfix tokens |
| ToPostfix.ConvertSigned | ExpressionManager.cpp:292-297 | when the tree's first numeral has a sign, its text converts to "invalid", because the output starts with an operator character |
| ToPostfix.ConvertMinimal | ExpressionManager.cpp:224-298 | the text of any tree with brackets only where precedence and left-to-right grouping need them converts to a string whose tokens are the tree's postfix tokens; with nothing appended at a closer this holds when no brackets are needed |
| ToPostfix.PopHigherExample | ExpressionManager.cpp:245-258 | "a * b + c" converts to the tokens "a b * c +": the "+" pops the "*" |
| ToPostfix.PopEqualExample | ExpressionManager.cpp:245-258 | "a - b - c" converts to the tokens "a b - c -": an operator pops one of equal rank |
| ToPostfix.ClosingGlue | ExpressionManager.cpp:264-266 | "( a + b * c )" converts to "a b c *+", whose last token "*+" is not in the input |
| ToPostfix.ClosingSpaced | ExpressionManager.cpp:264-266 | with a space after each popped operator the same input converts to "a b c * + " |
| ToPostfix.CorrectedTokens | ExpressionManager.cpp:224-298 | with a space after each popped operator, every token of a valid result is a token of the input |
| RoundTrip.ConvertThenEvaluate | ExpressionManager.cpp:158-298 | converting a tree's text to postfix and evaluating it yields the tree's value |
| RoundTrip.ConvertThenInfix | ExpressionManager.cpp:92-298 | converting a tree's text to postfix and back to infix gives the same text when no operand is "0" |
| RoundTrip.MinimalThenEvaluate | ExpressionManager.cpp:158-298 | converting a tree's minimally bracketed text to postfix and evaluating it yields the tree's value |
| RoundTrip.MinimalThenInfix | ExpressionManager.cpp:92-298 | converting a tree's minimally bracketed text to postfix and back to infix gives the tree's fully parenthesised text when no operand is "0" |

## Left out

- Evaluate.PostfixEvaluate: requires a defined outcome. Signed overflow, `%` by zero, `INT_MIN / -1` and a zero divisor not written "0" (such as "00") are undefined behaviour in C++, and the specification marks them `None`.
- ToPostfix.InfixToPostfix: requires a defined outcome. C++ leaves two cases undefined: `Precedence` of an operator such as "+-", and `pop` on an empty stack after a closer. The specification marks them `None`.
- ToPostfix.InfixToPostfix: before its emptiness test the numeral branch reads `postfix[size() - 1]`, which is out of range on an empty output. The model takes the outcome of the test as a whole (false).
- Stream state: `isNumber` is modelled as "the token starts with an optionally signed run of digits whose value fits in `int`"; other details of `operator>>` (locale, leading whitespace inside a token, which tokens never hold) are not modelled.
- Whitespace: the tokenizer treats space, tab, newline, vertical tab, form feed and carriage return as separators. Spacing in the output is modelled exactly, but no property is stated about it beyond the tokens it reads as.
- ToPostfix.ConvertTree and RoundTrip: stated for operand tokens without bracket characters, because `isBalanced` scans the raw characters and a token such as "12)" would upset it.
- ToPostfix.ConvertTree and ToPostfix.ConvertMinimal: conversion is proved for two spellings of each tree, the fully parenthesised text and the minimally bracketed text. Other spellings are not covered, such as brackets around only some of the operands, or `{ }` and `[ ]` brackets.
- ToPostfix.ConvertTree, ToPostfix.ConvertMinimal and RoundTrip: the first numeral must have no sign. ConvertSigned proves that the fully parenthesised text then converts to "invalid"; the same is not proved for the minimally bracketed text.
- ToPostfix.ConvertMinimal and RoundTrip.MinimalThenEvaluate, RoundTrip.MinimalThenInfix: with nothing appended after an operator popped at a closer (the code as written), stated only for trees whose minimal text has no brackets, since a closer that pops two operators glues them (see Findings).
- ToPostfix.PrecedenceExample, ClosingGlue and ClosingSpaced: stated for single-digit operands and exact output strings. ConvertTree and ConvertMinimal hold for any numerals, but they describe the output's tokens, not its spacing.
- ToPostfix.PopHigherExample and PopEqualExample: stated for single-digit operands, on the output's tokens rather than its exact text.
- ExpressionManager.h is not part of this model. The class has no state, so its member functions are modelled as free functions.

## Findings

| source | as written | input that shows it | evidently intended | confidence | as-written member | corrected member |
|---|---|---|---|---|---|---|
| ExpressionManager.cpp:264-266 | the closing-bracket loop appends each popped operator with no space after it | "( 1 + 2 * 3 )" converts to "1 2 3 *+" | a space after each popped operator: "1 2 3 * + " | not executed | ToPostfix.ClosingGlue | ToPostfix.CorrectedTokens |

When a closer pops two or more operators, they run together into one token
that is not in the input. `ClosingGlue` exhibits this. With `sep` = " ",
`CorrectedTokens` proves for every input that each token of a valid result is
an input token, and `ClosingSpaced` gives the corrected output for the same
input. A single operator per closer is harmless, because the loop adds a
space after the opener is popped. So `ConvertTree` and the round trips from
the fully parenthesised text hold for both values of `sep`. In minimally
bracketed text a bracketed operand can leave two operators for its closer,
as in "a - ( b - c * d )". So `ConvertMinimal` holds for `sep` = "" only on
text without brackets.
