# dice-roll, modelled in Dafny

dice-roll reads dice expressions such as `2d6 + 3`, `d20 * (1 + 2)` or `1d6, 1d6` and evaluates
them with a seeded random source. This project models its core and proves properties of the model:

- **The grammar** (`src/parse.rs` and its recognisers in `src/parse/`). The input is a list of
  expressions. The list is separated by commas or whitespace and may have leading whitespace.
  There are five precedence levels, loosest first: `+ -`, `* /`, `^`, `d`, then brackets and
  integer literals. At every level the right operand is parsed at the same level, so every
  operator nests to the right. The dice count before `d` may be left out, and it then defaults
  to `1`. Each parser is a function of the input and a position. It either yields the value and
  the position after it, or `None` (module `Parse`, on top of `Op`, `Space` and `Number`).
- **The trees:** `Ast.Expr`, built by the parser, and `LegacyExpr.Expr`, which the tree-walking
  evaluator consumes.
- **The checked i64 arithmetic** of `src/eval/maths.rs` (module `Maths`). Every operation
  returns a `Result`. `divide` has the error `DivideByZero` and `power` has the error
  `NegativePowerNotImplemented`. `roll` sums dice drawn from a random source passed by reference.
- **The evaluator** of `src/eval.rs` (module `Evaluator`). `Eval` is a class that owns a seeded
  random source. `walk` is a recursive method, and `roll` is a loop over `roll_one`. Each method
  is proved against a specification function (`Walked`, `Rolled`, `Dice.OneDie`).
- **The renderings** of the outputs and the errors (modules `EvalOutput` and `EvalError`).

### The main theorems

- **`ParseShow.ParseShow`.** Print a tree fully bracketed. Every node has four slots for
  whitespace: after `(`, before and after its operator, and before `)`. A `ParseShow.Spacing`
  fills each slot of each node independently. The parser reads the text back as exactly that tree.
- **`ParsePrint.ParsePrinted`.** Print a tree with only the brackets the precedence rules need,
  with whitespace chosen per node and per slot by a `Spacing`, as above. A roll of one die may be
  written `dN` without its count. The parser reads it back as exactly
  that tree. This settles precedence, right nesting and the default dice count for every tree.
- **`ParseList.ParseJoined`.** Join any non-empty list of such renderings, each with its own
  `Spacing`, by commas or whitespace, and the parser reads back exactly that list.
- **`ParseList.ParseAccepts`.** An input is accepted as the empty list exactly when it is blank.
  An accepted non-empty input ends with a digit or `)`.
- **`EvalOutput.DisplayRoundTrip`.** Every output text is read back by the literal parser as
  the same value.
- **`Evaluator.Reproducible`.** Two evaluators with the same seed give the same outputs for the
  same trees.
- **`Maths.PowerBreaksExponentLaw`.** `power` breaks the exponent law (see "## Findings").

### Modelling choices

- **Characters, not bytes.** The input is a `string` rather than a byte slice. Every token the
  grammar knows is ASCII, and no recogniser consumes any other character.
- **Integer widths.** Integers are unbounded `int`s restricted to their i64 or i32 range. The
  `as u32` casts are written out as `Integers.AsU32`, which reduces modulo `2^32`. Division
  rounds toward zero (`Integers.TruncDiv`), as Rust's does.
- **The random source** is `Random.Rng`: a `seed` and the number of `draws` taken so far. The
  `index`-th draw of `gen_range(0, n)` is the fixed function `Random.Sample(seed, index, n)`,
  which lies in `[0, n)`.
- **Trailing whitespace.** `src/parse.rs:17` skips whitespace only before the list and puts
  none before `end()`, so `"1 "` is rejected, although one might expect whitespace to be allowed
  around the whole input. The model follows the code: see `ParseExamples.Rejected` and
  `ParseList.ParseAccepts`.
- **Empty input.** `list` in `src/parse.rs:16` also matches nothing, so a blank input parses
  as the empty list rather than failing for want of an expression. The model follows the code: see
  `ParseList.ParseAccepts`.

## Model

| member | source | states |
|---|---|---|
| Ast.ExprOp | src/ast.rs:7-15 | The six operators of the parsed tree. |
| Ast.Expr | src/ast.rs:1-5 | The parsed tree: an i64 literal, or an operator node with two children. |
| LegacyExpr.Expr | src/expr.rs:1-10 | The evaluator's tree: an i32 literal, or one node kind per operator with two children. |
| EvalError.Error | src/eval/error.rs:4-10 | The two errors of the checked arithmetic. |
| EvalOutput.Output | src/eval/output.rs:4-7 | The single output kind, an i64 integer. |
| Evaluator.Output | src/eval.rs:10-21 | The evaluator's output, an i32 total. |
| Integers.AsU32 | src/eval/maths.rs:30 | `as u32` on an i64 lies below `2^32`. It is the identity on `[0, 2^32)` and adds `2^32` on `[-2^32, 0)`. |
| Integers.TruncDiv | src/eval/maths.rs:22 | The quotient is no larger than the dividend in magnitude. It is `0` when the dividend is smaller than the divisor in magnitude, and a non-zero quotient is negative exactly when the operands' signs differ. |
| Integers.IPow | src/eval/maths.rs:30 | A positive base gives a positive power, and the base `0` gives `0` for any positive exponent. |
| Integers.TruncDivIsTruncQuotient | src/eval/maths.rs:22 | `/` is the quotient rounded toward zero. `q * b` lies on the side of zero that `a` does, within one `b` of it, and `abs(q) <= abs(a)`. |
| Integers.TruncQuotientUnique | src/eval/maths.rs:22 | Only one integer is the quotient rounded toward zero. |
| Integers.TruncRemainder | src/eval/maths.rs:22 | The remainder left by `/` has the sign of the dividend and magnitude `abs(a) % abs(b)`. |
| Integers.TruncDivAbs | src/eval/maths.rs:22 | The magnitude of the quotient is `abs(a) / abs(b)`, which is at most `abs(a)`. |
| Integers.TruncDivInI64 | src/eval/maths.rs:17-23 | The i64 quotient fits in i64 except for `i64::MIN / -1`. |
| Integers.TruncDivInI32 | src/eval.rs:49 | The i32 quotient fits in i32 except for `i32::MIN / -1`. |
| Op.SymbolInjective | src/parse/op.rs:12-34 | Different operators have different characters. |
| Op.Sym | src/parse/op.rs:12-34 | A one-character recogniser matches exactly when that character is at the position, and moves one past it. |
| Op.Add | src/parse/op.rs:12-14 | Matches exactly a `+`, giving `Add`. |
| Op.Sub | src/parse/op.rs:16-18 | Matches exactly a `-`, giving `Sub`. |
| Op.Mult | src/parse/op.rs:20-22 | Matches exactly a `*`, giving `Mult`. |
| Op.Div | src/parse/op.rs:24-26 | Matches exactly a `/`, giving `Div`. |
| Op.Power | src/parse/op.rs:28-30 | Matches exactly a `^`, giving `Pow`. |
| Op.Roll | src/parse/op.rs:32-34 | Matches exactly a lower-case `d`, giving `Roll`. |
| Op.AddSub | src/parse/op.rs:8-10 | Matches exactly `+` or `-`, and gives the operator whose character it read. |
| Op.MultDiv | src/parse/op.rs:4-6 | Matches exactly `*` or `/`, and gives the operator whose character it read. |
| Op.SymbolReadBack | src/parse/op.rs:4-34 | Every operator's character is read back as that operator by the recogniser of its precedence level. |
| Op.UpperCaseDIsRejected | src/parse/op.rs:32-34 | `D` is not a roll operator, but `d` is. |
| Space.Optional | src/parse/space.rs:3-5 | Never fails. It stops only at the end of the input or at a character other than space, tab, CR or LF. |
| Space.OptionalIsSpace | src/parse/space.rs:3-5 | Everything `optional` skips is whitespace. |
| Space.OptionalSkips | src/parse/space.rs:3-5 | `optional` skips any whitespace run up to a non-space, and exactly that run. |
| Space.Required | src/parse/space.rs:7-9 | Matches exactly when a whitespace character comes next, and consumes the whole run. |
| Space.Comma | src/parse/space.rs:11-13 | A separator consumes only whitespace and commas. It fails exactly when neither whitespace nor a comma comes next. |
| Space.OtherCharactersAreNotSpace | src/parse/space.rs:3-13 | Form feed and vertical tab are not whitespace, and a letter is not a separator. |
| Number.Number | src/parse/number.rs:6-14 | On success the result is an integer literal that consumes at least one character. |
| Number.NumberIsLongestLiteral | src/parse/number.rs:10-14 | On success it reads the longest literal at the position, and the value is that literal's value. On failure, the longest literal there is missing or does not fit in i64. There is no backtracking to a shorter literal. |
| Number.LongestLiteralUnique | src/parse/number.rs:11-12 | The longest literal at a position is unique. |
| Number.LiteralHead | src/parse/number.rs:11-12 | A literal starts with a digit or `-`. |
| Number.LiteralTail | src/parse/number.rs:11-12 | After its first character, a literal is all digits. |
| Number.LiteralBeforeNonDigit | src/parse/number.rs:11-12 | A literal followed by a non-digit is the longest literal there. |
| Number.ZeroCannotExtend | src/parse/number.rs:11 | `0` or `-0` is the longest literal at its position, so in `007` the literal grammar reads only the first `0`. |
| Number.DigitRun | src/parse/number.rs:11 | The run of digits stays within the input and stops only at the end of the input or at a non-digit. |
| Number.LiteralValue | src/parse/number.rs:12-13 | A negative value comes only from a literal with a leading `-`, and a leading `-` never gives a positive value. |
| Number.DigitRunIsDigits | src/parse/number.rs:11 | `repeat(0..)` of digits consumes digits only, up to the first non-digit. |
| Number.DigitsAtValue | src/parse/number.rs:13 | The in-place decimal value equals the value of the digit text. |
| Number.LiteralValueAt | src/parse/number.rs:12-13 | The in-place value, negated after `-`, is the literal's value. |
| Number.UnsignedAt | src/parse/number.rs:11-12 | The text the unsigned grammar consumes is the longest literal at the position. |
| Number.UnsignedIsDigits | src/parse/number.rs:11 | An unsigned literal is a non-empty run of digits. |
| Number.NumberNeedsDigit | src/parse/number.rs:11-12 | Without a digit after an optional `-`, there is no number: `+5`, a lone `-` and a letter all fail. |
| Number.NoLiteralAt | src/parse/number.rs:11-12 | Without a digit after an optional `-`, no prefix is a literal. |
| Parse.Parse | src/parse.rs:9-13 | `parse` succeeds exactly when the whole-input parser consumes the whole input, and returns its expressions. |
| Parse.Exprs | src/parse.rs:15-18 | Leading whitespace, then a list that must reach the end of the input. |
| Parse.List | src/parse.rs:16 | `list` never fails. It yields no expression exactly when it consumes nothing. |
| Parse.ListTail | src/parse.rs:16 | The pairs of separator and expression. It yields none exactly when it consumes nothing, so a dangling separator is left unconsumed. |
| Parse.Expr0 | src/parse.rs:20-22 | On success at least one character is consumed. |
| Parse.AddSub | src/parse.rs:24-27 | On success the result is an `Add` or `Sub` node and input is consumed. |
| Parse.Expr1 | src/parse.rs:29-31 | On success at least one character is consumed. |
| Parse.MultDiv | src/parse.rs:33-36 | On success the result is a `Mult` or `Div` node and input is consumed. |
| Parse.Expr2 | src/parse.rs:38-40 | On success at least one character is consumed. |
| Parse.Pow | src/parse.rs:42-45 | On success the result is a `Pow` node and input is consumed. |
| Parse.Expr3 | src/parse.rs:47-49 | On success at least one character is consumed. |
| Parse.Roll | src/parse.rs:51-57 | On success the result is a `Roll` node and input is consumed. |
| Parse.Expr4 | src/parse.rs:59-61 | On success at least one character is consumed. |
| Parse.ExprWithBrackets | src/parse.rs:63-65 | On success the text runs from `(` to `)` and holds at least one character between them. |
| ParseSteps.LiftToExpr3 | src/parse.rs:47-49 | An atom not followed directly by `d` is also the roll level's parse. |
| ParseSteps.LiftToExpr2 | src/parse.rs:38-40 | A roll-level parse not followed by `^` is also the power level's parse. |
| ParseSteps.LiftToExpr1 | src/parse.rs:29-31 | A power-level parse not followed by `*` or `/` is also the level above's parse. |
| ParseSteps.LiftToExpr0 | src/parse.rs:20-22 | A term not followed by `+` or `-` is also a whole expression. |
| ParseSteps.AddSubStep | src/parse.rs:24-27 | A term, `+` or `-`, and an expression form one node, with the expression as its right child. |
| ParseSteps.MultDivStep | src/parse.rs:33-36 | A factor, `*` or `/`, and a term form one node, with the term as its right child. |
| ParseSteps.PowStep | src/parse.rs:42-45 | A roll, `^` and a power form one node, with the power as its right child. |
| ParseSteps.RollStep | src/parse.rs:51-57 | An atom directly followed by `d`, then a roll, forms one `Roll` node. |
| ParseSteps.RollDefaultStep | src/parse.rs:51-57 | A `d` with no count before it takes the count `Integer(1)`. |
| ParseSteps.BracketStep | src/parse.rs:63-65 | A bracketed expression is an atom holding the inner tree, with no node for the brackets. |
| ParseSteps.NumberAtom | src/parse.rs:59-61 | The decimal rendering of an i64, followed by a non-digit, is an atom with that value. |
| ParseSteps.ListOfOne | src/parse.rs:15-18 | An expression that ends the input is a one-element list. |
| ParseSteps.ListTailStep | src/parse.rs:16 | A separator followed by an expression extends the list by that expression. |
| ParseSteps.ParseOfList | src/parse.rs:9-18 | After leading whitespace, a list that reaches the end is the result of `parse`. |
| ParseShow.ShowParses | src/parse.rs:20-65 | Every fully bracketed rendering, with any whitespace in each slot of each node, is read back as an atom holding the same tree. |
| ParseShow.ShowNodeParses | src/parse.rs:24-65 | A bracketed node, with its own whitespace after `(`, around the operator and before `)`, is read back as that node, its children being read back with their own whitespace. |
| ParseShow.ParseShow | src/parse.rs:9-65 | Leading whitespace followed by a fully bracketed rendering, with whitespace chosen per node and per slot, is parsed as exactly the one tree it was printed from. |
| ParseShow.NodeParses | src/parse.rs:63-65 | A bracketed node whose operands are read back is read back as that node. |
| ParsePrint.Level | src/parse.rs:20-57 | The precedence levels: `d` alone is the tightest operator. |
| ParsePrint.LiftFrom | src/parse.rs:20-49 | A parse at a tighter level, followed by what a looser level stops at, is also the looser level's parse. |
| ParsePrint.LevelStep | src/parse.rs:24-57 | Every operator forms its node at its own level, with its right operand at the same level. |
| ParsePrint.PrintParses | src/parse.rs:20-65 | Every rendering with minimal brackets and per-node, per-slot whitespace is read back at its level as the same tree. This covers precedence, right nesting and the default dice count. |
| ParsePrint.ParsePrinted | src/parse.rs:9-65 | `parse` returns exactly `[e]` for any tree `e` printed with only the brackets precedence needs, with whitespace chosen per node and per slot, terse or not. |
| ParseList.TailParses | src/parse.rs:16 | A run of separators and renderings is read back by the list tail as exactly those trees, up to the end of the input. |
| ParseList.ParseJoined | src/parse.rs:15-18 | Any non-empty list of renderings, each with its own whitespace, joined by commas or whitespace, parses as exactly that list. Whitespace alone cannot come before a rendering that starts with `-`, which would read as subtraction. |
| ParseList.RollEnds | src/parse.rs:51-57 | A roll-level parse ends just after a digit or `)`. |
| ParseList.PowEnds | src/parse.rs:42-49 | A power-level parse ends just after a digit or `)`. |
| ParseList.MultDivEnds | src/parse.rs:29-36 | A term ends just after a digit or `)`. |
| ParseList.ParsedEnds | src/parse.rs:20-27 | An expression ends just after a digit or `)`. |
| ParseList.ListTailEnds | src/parse.rs:16 | A list tail that consumes anything ends just after a digit or `)`. |
| ParseList.ParseAccepts | src/parse.rs:9-18 | The empty list is returned exactly for blank inputs. Any other accepted input ends with a digit or `)`, so trailing whitespace or a dangling operator or comma is rejected. |
| ParseList.LeadingZeroRejected | src/parse/number.rs:11 | A leading zero followed by more digits (`007`, `-01`) is rejected by `parse`. |
| ParseExamples.Zero | src/parse.rs:72-76 | `"0"` parses as `[Integer(0)]`. |
| ParseExamples.Literal | src/parse.rs:77-84 | `"6594"` parses as that one literal. |
| ParseExamples.AddNoSpaces | src/parse.rs:85-92 | `"1+2"` parses as one `Add` node. |
| ParseExamples.AddSpaced | src/parse.rs:93-100 | `"1 + 2"` parses as the same node. |
| ParseExamples.AddThree | src/parse.rs:101-113 | `"1 + 2 + 3"` nests to the right: `1 + (2 + 3)`. |
| ParseExamples.MultAfterAdd | src/parse.rs:145-167 | `"1 + 2 * 3"` binds the `*` tighter. |
| ParseExamples.MultBeforeAdd | src/parse.rs:145-167 | `"1 * 2 + 3"` binds the `*` tighter. |
| ParseExamples.Brackets | src/parse.rs:193-211 | `"(1 + 2) * 3"`, the first half of the test's input: brackets override precedence and leave no node. |
| ParseExamples.BracketsRight | src/parse.rs:193-211 | `"3 * (4 + 5)"`, the second half of the test's input: a bracketed right operand is an atom. |
| ParseExamples.TwoExpressions | src/parse.rs:212-233 | Two expressions separated by a space parse as a two-element list. |
| ParseExamples.TwoRolls | src/parse.rs:234-249 | `"1d6 1d6"` parses as two rolls. |
| ParseExamples.TwoRollsComma | src/parse.rs:250-265 | `"1d6,1d6"` parses as two rolls. |
| ParseExamples.TwoRollsCommaSpace | src/parse.rs:266-281 | `"1d6, 1d6"`, a comma followed by a space as the test's name says, parses as two rolls. The test's own input is `"1d6 1d6"`, covered by `TwoRolls`. |
| ParseExamples.OmittedCount | src/parse.rs:282-293 | `"d6"` parses as a roll of `Integer(1)` dice. |
| ParseExamples.OmittedCounts | src/parse.rs:294-308 | `"d6 d6"` parses as two such rolls. |
| ParseExamples.MixedSpacing | src/parse.rs:25-64 | `"( 1+2) *3"`, with whitespace in some slots and not in others, parses as `(1 + 2) * 3`. |
| ParseExamples.Rejected | src/parse.rs:9-13 | `"1 "`, `"1+"` and `"007"` are rejected. |
| EvalOutput.DigitChar | src/eval/output.rs:12 | Each digit value maps to the digit character of that value. |
| EvalOutput.Decimal | src/eval/output.rs:12 | The rendering is non-empty and starts with `-` exactly when the integer is negative. |
| EvalOutput.NatDigitsValue | src/eval/output.rs:12 | The digits of a natural number are a numeral for it, with no leading zero except in `0`. |
| EvalOutput.DecimalIsLiteral | src/eval/output.rs:12 | The rendering of an integer is a literal of the grammar with that value. It starts with `-` exactly when the integer is negative. |
| EvalOutput.Display | src/eval/output.rs:9-15 | The output text is a grammar literal whose value is the output. `-` comes first exactly for negatives, all else is digits, and there is no leading zero except `0`. |
| EvalOutput.DecimalParsesBack | src/eval/output.rs:12 | A rendering inside a larger input, followed by a non-digit, is read back by the literal parser as its value. |
| EvalOutput.DisplayRoundTrip | src/eval/output.rs:9-15 | The literal parser reads the whole text of every output back as the same value. |
| EvalError.Display | src/eval/error.rs:12-19 | Each error has its fixed, non-empty message, in both directions. |
| EvalError.DisplayIdentifies | src/eval/error.rs:12-19 | Different errors never have the same message. |
| Random.Word | src/eval.rs:34 | The raw output of a draw is a 64-bit word. |
| Random.Sample | src/eval.rs:73-75 | `gen_range(0, n)` lies in `[0, n)`. |
| Random.Rng.SeedFromU64 | src/eval.rs:34 | A source seeded with `seed` has taken no draws. |
| Random.Rng.GenRange | src/eval/maths.rs:47-49 | A draw yields the next sample of the seed, in `[0, high)`, and advances the draw count by one. |
| Dice.DieValue | src/eval/maths.rs:43-51 | For a draw in `[0, abs(s))`, a die with `s > 0` sides shows a value in `[1, s]` and one with `s < 0` sides a value in `[s, -1]`. With no sides it shows `0`. |
| Dice.DiceTotal | src/eval/maths.rs:33-41 | `n` dice total at least `n` for positive sides and at most `-n` for negative sides. Dice without sides total `0`. |
| Dice.OneDie | src/eval/maths.rs:43-51 | A die with `s > 0` sides shows a value in `[1, s]`, one with `s < 0` sides a value in `[s, -1]`, and one with no sides `0`. |
| Dice.DiceTotalBounds | src/eval/maths.rs:33-41 | `n` dice total `[n, n*s]` for `s > 0` sides and `[n*s, -n]` for `s < 0`, and `0` without sides. |
| Dice.DiceTotalAbs | src/eval/maths.rs:33-41 | The total of `k` dice is at most `k * abs(s)` in magnitude. |
| Dice.SumsWithinByBound | src/eval/maths.rs:36-38 | No running total overflows when `n * abs(s)` fits. |
| Dice.DiceTotalShift | src/eval/maths.rs:36-38 | Rolling `n + m` dice is rolling `n` and then `m` more from the following draws. |
| Maths.Add | src/eval/maths.rs:5-7 | `add` is always `Ok` with the exact sum. |
| Maths.Sub | src/eval/maths.rs:9-11 | `sub` is always `Ok` with the exact difference. |
| Maths.Mult | src/eval/maths.rs:13-15 | `mult` is always `Ok` with the exact product. |
| Maths.Divide | src/eval/maths.rs:17-23 | `divide` errs exactly for a zero divisor, with `DivideByZero`. Otherwise it gives the quotient rounded toward zero. |
| Maths.Power | src/eval/maths.rs:25-31 | `power` errs exactly for a negative exponent, with `NegativePowerNotImplemented`. Otherwise it gives `left` to the exponent's low 32 bits. |
| Maths.SubUndoesAdd | src/eval/maths.rs:5-11 | `sub(add(a, b), b) == Ok(a)`. |
| Maths.DivideUndoesMult | src/eval/maths.rs:13-23 | `divide(mult(a, b), b) == Ok(a)` for non-zero `b`. |
| Maths.PowerOfOneAndZero | src/eval/maths.rs:25-31 | The base `1` gives `1` for every exponent, and the exponent `0` gives `1` for every base. |
| Maths.PowerStep | src/eval/maths.rs:25-31 | Below `2^32`, one more in the exponent is one more factor of the base. |
| Maths.PowerExponentWraps | src/eval/maths.rs:30 | Exponents that differ by `2^32` give the same power. |
| Maths.PowerBreaksExponentLaw | src/eval/maths.rs:30 | `power(0, 2^32)` is `Ok(1)`, while `power(0, 2^31)` squared is `0`. |
| Maths.PowerChecked | src/eval/maths.rs:25-31 | The intended `power`: it errs exactly for negative exponents, and otherwise uses the whole exponent. |
| Maths.PowerCheckedAgrees | src/eval/maths.rs:25-31 | Below `2^32` the intended `power` agrees with the written one. |
| Maths.PowerCheckedExponentLaw | src/eval/maths.rs:25-31 | The intended power keeps `x^(m+n) == x^m * x^n` for all exponents. |
| Maths.IPowAdd | src/eval/maths.rs:30 | The exponent law for the underlying power. |
| Maths.Roll | src/eval/maths.rs:33-41 | `roll` is `Ok` with the loop-order sum of `num_die` dice from the following draws, and takes one draw per die unless the dice have no sides. |
| Maths.RollOne | src/eval/maths.rs:43-51 | `roll_one` is the die of the next draw. It takes one draw, or none for zero sides. |
| Evaluator.Fits | src/eval.rs:46-50 | An i32 operation succeeds exactly when its exact result fits in i32, and then yields that result with the draw count unchanged. |
| Evaluator.Walked | src/eval.rs:43-57 | A walk consumes draws and never gives any back. |
| Evaluator.Apply | src/eval.rs:44-56 | A node's own operation consumes draws only for `Roll`, and never gives any back. |
| Evaluator.Rolled | src/eval.rs:59-67 | A successful roll takes exactly one draw per die, or none without sides. |
| Evaluator.WalkedAll | src/eval.rs:38-41 | Evaluating several trees in turn gives one output per tree. |
| Evaluator.NoRollNoDraws | src/eval.rs:43-57 | A tree without `Roll` takes no draws, and its total does not depend on the seed or the draws before it. |
| Evaluator.RolledBounds | src/eval.rs:59-77 | `n` dice total `[n, n*s]` for `s > 0` and `[n*s, -n]` for `s < 0`. Zero dice, or dice without sides, total `0`. |
| Evaluator.Eval.NewWithSeed | src/eval.rs:32-36 | A new evaluator owns a fresh source with the given seed and no draws taken. |
| Evaluator.Eval.Eval | src/eval.rs:38-41 | The output holds the walked total, and the source advances as the walk says. |
| Evaluator.Eval.Walk | src/eval.rs:43-57 | The post-order walk, left child before right, gives the total and draw count `Walked` specifies. |
| Evaluator.Eval.Roll | src/eval.rs:59-67 | The loop gives the total and draw count `Rolled` specifies. |
| Evaluator.Eval.RollOne | src/eval.rs:69-77 | One die from the next draw, or `0` without a draw for zero sides. |
| Evaluator.EvalAll | src/eval.rs:38-41 | Evaluating trees in turn on one evaluator gives what `WalkedAll` specifies. |
| Evaluator.Reproducible | src/eval.rs:32-41 | Two evaluators made with the same seed give the same outputs for the same trees. |

## Left out

- The HTTP server, the command-line front end, `src/lib.rs`, `src/format.rs` and `src/moorgate.rs` are not part of this model.
- `Eval::new` is left out. It seeds from the operating system's random source, which is I/O.
- The `StdRng` algorithm and the uniform distribution of `gen_range` are not modelled. A draw is the fixed function `Random.Sample` of the seed and the draw index. The proofs use only its range and its determinism.
- The parser library's error values are collapsed into `None`. The position and the reason of a failure are not modelled.
- Input is modelled as characters, not bytes. `str::from_utf8` cannot fail on the ASCII text the literal grammar accepts.
- Three `parse.rs` tests are not instantiated as concrete lemmas, because unfolding long literal strings is too costly for the verifier: the nine-term `+ -` chain (lines 114-144), `1 + 2 * 3 * 4 + 5 * 6 + 7` (lines 168-192) and the whole of `(1 + 2) * 3 * (4 + 5)` (lines 193-211). Each is an instance of `ParsePrint.ParsePrinted`, and the last is covered in two halves by `ParseExamples.Brackets` and `ParseExamples.BracketsRight`.
- Redundant brackets are covered only where a rendering puts them: fully bracketed (`ParseShow`) or only where precedence needs them (`ParsePrint`). A text with extra brackets around some nodes but not others, or with doubled brackets, is not covered by either theorem.
- Turning a parsed `Ast.Expr` into the evaluator's `LegacyExpr.Expr` is not part of this model. The two trees are modelled as the source declares them.
- Maths.Add: does not model the panic (debug) or wrap-around (release) on i64 overflow. It requires that the sum fits.
- Maths.Sub: does not model i64 overflow. It requires that the difference fits.
- Maths.Mult: does not model i64 overflow. It requires that the product fits.
- Maths.Divide: does not model the panic on `i64::MIN / -1`, which it excludes by a precondition.
- Maths.Power: does not model the panic when the power overflows i64. It requires that the power fits.
- Maths.Roll: does not model the panic when a running total or `-num_sides` overflows. It requires that neither happens.
- Maths.RollOne: does not model the panic on `-i64::MIN`, which it excludes by a precondition.
- Evaluator.Eval.Walk: the panics of the i32 walk (overflow, division by zero, `-i32::MIN`) are where `Walked` is `None`. The method requires that the walk does not panic.
- Evaluator.Eval.Eval: requires that the walk does not panic, as `Walk` does.
- Evaluator.Eval.Roll: requires that no running total overflows, as `Rolled` states.
- Evaluator.Eval.RollOne: does not model the panic on `-i32::MIN`, which it excludes by a precondition.
- The `Random.Rng.GenRange`, `Maths.Roll` and `Evaluator.Eval` method contracts mention `old` or `fresh`. They state the whole new state, and the properties are proved about the functions they are tied to.

## Findings

| source | as written | input that shows it | evidently intended | confidence | as-written member | corrected member |
|---|---|---|---|---|---|---|
| src/eval/maths.rs:30 | `left.pow(right as u32)` keeps only the exponent's low 32 bits | `power(0, 4294967296)` gives `Ok(1)`, while `power(0, 2147483648)` squared is `0`; `0^(2^32)` should be `0` | the whole exponent is used, so `x^(m+n) == x^m * x^n` | not executed | Maths.PowerBreaksExponentLaw | Maths.PowerCheckedExponentLaw |
