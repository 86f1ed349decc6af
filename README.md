# math-parser, modelled in Dafny

This project models the core of a small infix math-expression parser and proves properties of the model. The parser has four stages:

1. **Implicit multiplication.** A textual rewrite inserts `*` into `2x`, `x2`, `2(`, `)2` and `)(`.
2. **Tokenizer.** One left-to-right scan of the rewritten text.
   - It keeps a pending literal and emits value, variable, constant, function, operator and parenthesis tokens.
   - It decides between binary and unary minus.
   - It tracks the parenthesis level.
   - It stops at the first structural error.
3. **Shunting-yard conversion** of the token list to reverse Polish notation (RPN).
4. **Stack evaluator.** Each operator or function of arity k replaces the top k values with its application to them, in push order. The answer is the bottom of the stack.

Both versions of the `Expression` class are modelled:

- **Current version** (`src/expression.py`). It compiles in its constructor and refuses to evaluate while any binding is falsy.
- **Older version** (`expression.py`). It is built empty, `parse` fills it and binds every variable to NaN, and it has no check.

Modules, one per file:

| file | module | models |
|---|---|---|
| `results.dfy` | `Results` | `Option`, `Result` |
| `tokens.dfy` | `Tokens` | the registries and the token classes of `src/tokens.py` |
| `implicit_multiplication.dfy` | `ImplicitMultiplication` | `expand_implicit_expression` |
| `tokenizer.dfy` | `Tokenizer` | `Tokenizer.tokenize` and its helpers, as a specification function and the loop proved equal to it |
| `tokenizer_properties.dfy` | `TokenizerProperties` | what the tokenizer guarantees: its error cases, and the structure, literals, variables and balance of its output |
| `rpn.dfy` | `Rpn` | `_convert_to_rpn` and `_has_operator_higher_precedence` (identical in both versions) |
| `rpn_properties.dfy` | `RpnProperties` | the conversion is a permutation without parentheses, and it keeps operand order and variables |
| `postfix.dfy` | `Postfix` | the stack loop of `evaluate` (identical in both versions) and exactly when it succeeds |
| `current_expression.dfy` | `CurrentExpression` | the class in `src/expression.py` |
| `legacy_expression.dfy` | `LegacyExpression` | the class in `expression.py` |
| `worked_examples.dfy` | `WorkedExamples` | concrete conversions and evaluations |

### How the model represents the source

**Numbers are symbolic:**

- `Number(r)` is a float constant or an assigned value.
- `Parsed(text)` is `float(text)` of a literal.
- `NaN` is the older version's default binding.
- `Apply(symbol, args)` is a registered operator or function applied to its operands, in push order.

So every registered operation is an uninterpreted operation on numbers.

**Errors are values.** They are `Result`/`Option` values, not exceptions:

- `TokenizeError` is `UnmatchingOpenParentheses`, `UnmatchingCloseParentheses(position)` or `UnexpectedCharacter(position)`.
- `EvalError` covers:
  - the current version's `UnassignedVariable(names)`;
  - a missing binding (Python's `KeyError`), as `UnknownVariable`;
  - too few operands for an operator (Python's `TypeError`), as `MissingOperands(position)`;
  - `stack[0]` on an empty stack (`IndexError`), as `EmptyStack`.

**Mutation in place.** Where the source updates fields, the model uses classes:

- `Expression.tokens`, `variables` and `rpn` are fields.
- `assign_value`, `reset_variables`, `clear_variables` and `parse` are methods with `modifies this`.

The loops of `tokenize`, `_convert_to_rpn` and `evaluate` are `for`/`while` loops. Each is proved equal to a specification function:

- `ScanPrefix` / `TokenizeSpec` for the tokenizer;
- `ShuntPrefix` / `Drain` / `ToRpnSpec` for the conversion;
- `RunPrefix` / `EvaluateSpec` for evaluation.

The properties are then proved as lemmas about those functions.

### Source behaviours the model keeps

- **Error positions.** They index the text *after* the implicit-multiplication rewrite.
- **Wrap-around at position 0.** The character "before" position 0 is the last character of the text (`expression[position - 1]`). So `.5.` fails with `UnexpectedCharacter(0)`.
- **The end-of-input check.** The unclosed-parenthesis check runs only when the last character is processed. An empty input therefore tokenizes to no tokens, and evaluating it fails with `EmptyStack`.
- **Operators never pop a function.** An incoming operator only pops an `Operator` on top of the stack (`Rpn.PopOperatorsRule`). A function therefore stays on the stack until a `)` or the end of input. So `sin(0)+1` converts to `0 1 + sin`, which applies `sin` to the sum (`WorkedExamples.FunctionEvaluation`).
- **`-` after `(` is binary.** A `-` right after `(` stays binary, so `(-2)` converts to `2 -`, and evaluating it fails for lack of an operand (`WorkedExamples.MinusShortOfOperands`).
- **Zero counts as unassigned.** A binding of `0` is falsy and is reported as unassigned, just like `None` (`CurrentExpression.AssignUnassigned`).

## Model

| member | source | states |
|---|---|---|
| Tokens.MakeOperator | src/tokens.py:51-57 | an `Operator` built from a registered symbol carries that symbol and exactly its table row (precedence, associativity, operand count) |
| Tokens.MakeFunction | src/tokens.py:63-67 | a `Function` built from a registered name carries that name and the table's operand count, which is 1 |
| Tokens.MakeConstant | src/tokens.py:75-78 | a `Constant` carries its symbol and, as its value, the registered number for it |
| Tokens.RegisteredOperatorEquality | src/tokens.py:59-60 | on registered operators, `==` (same symbol and same operand count) holds exactly when the two tokens are identical |
| Tokens.SameToken | src/tokens.py:33-60 | `==` between tokens with a symbol: identical tokens are equal, equal tokens share their symbol, a non-operator compares symbols only, and two operators also need the same operand count |
| Tokens.EqualityExamples | src/tokens.py:33-34 | `==` compares symbols only: `Operator('-')` differs from `Operator('-u')`, a variable named `sin` equals the function `sin`, and `(` equals a variable named `(` |
| ImplicitMultiplication.ExpandImplicit | tokenizer.py:32-38 | the five rewrites, run in the source's order, insert a `*` at every adjacency any of them matches, as one combined pass does |
| ImplicitMultiplication.PassesCompose | tokenizer.py:33-37 | running one rewrite after another equals one pass with both rules, because an inserted `*` never creates a new match |
| ImplicitMultiplication.ExpandOnlyInsertsStars | tokenizer.py:32-38 | deleting the `*`s gives back the input without its `*`s; the length and the number of `*`s grow by exactly the number of adjacencies |
| ImplicitMultiplication.ExpandLeavesNoAdjacency | tokenizer.py:32-38 | the rewritten text has no adjacent pair that a rewrite would match |
| ImplicitMultiplication.ExpandKeepsExplicit | tokenizer.py:32-38 | a text without such adjacencies is left unchanged |
| ImplicitMultiplication.ExpandIdempotent | tokenizer.py:32-38 | rewriting twice is the same as rewriting once |
| Tokenizer.Classify | tokenizer.py:42-51 | a completed literal becomes a constant iff registered as one; else a function iff registered as one; else a variable iff all letters; else a value. The token keeps the literal's text and registry row |
| Tokenizer.ShouldGenerateNewToken | tokenizer.py:54-58 | a literal ends only when one is pending; a digit, `.` or letter never ends it; the end of input, `(`, `)` or an operator character always ends a pending one; any other character, such as a space, never ends it |
| Tokenizer.GenerateNewToken | tokenizer.py:40-52 | flushing never changes the parenthesis level, and does nothing while the literal has not ended |
| Tokenizer.FlushConserves | tokenizer.py:40-52 | a flush moves the pending characters into exactly one new token and clears them, so no literal character is lost or added |
| Tokenizer.GenerateOperator | tokenizer.py:73-77 | the token is the registered operator of the character, and it is `-u` iff the character is `-` and no token, or an operator, precedes it |
| Tokenizer.UnexpectedAt | tokenizer.py:67-71 | a character is unexpected iff it and the character before it are `..` or `()`; before position 0 comes the text's last character |
| Tokenizer.MatchingParentheses | tokenizer.py:60-65 | a negative level is `UnmatchingCloseParentheses` at that position; otherwise a positive level at the last position is `UnmatchingOpenParentheses`; every other case passes |
| Tokenizer.ErrorPersists | tokenizer.py:14-27 | once a character has raised an error, the scan of every longer prefix reports that same error |
| Tokenizer.ScanText | tokenizer.py:10-27 | the loop over the rewritten text computes `ScanPrefix` of the whole text: each iteration runs the unexpected-character check, the flush, the `if/elif` chain on the character and the parenthesis check, and the loop stops at the first error |
| Tokenizer.Tokenize | tokenizer.py:8-29 | `tokenize`: rewrite, scan, final flush; equal to `TokenizeSpec` |
| TokenizerProperties.OperatorCharacters | src/tokens.py:20-26 | the single-character operators are exactly `+ - / * ^ !` |
| TokenizerProperties.StructuralToken | tokenizer.py:17-26 | a `(`, `)` or operator character yields one registered, non-literal token for that character; this is where unary minus is decided |
| TokenizerProperties.ConsumeStructural | tokenizer.py:17-26 | such a character appends exactly that token and moves the level by its parenthesis change |
| TokenizerProperties.FlushText | tokenizer.py:40-52 | a flush keeps the structural tokens, conserves the literal text, and appends exactly `Classify` of the pending literal |
| TokenizerProperties.GenerateKeeps | tokenizer.py:40-52 | a flush keeps the token invariant: the level is the token depth, no prefix closes more than it opened, the variable set is exactly the variable tokens' names, unary minus is placed correctly, and every token is registered |
| TokenizerProperties.StepLevel | tokenizer.py:17-22 | one character moves the level by +1 for `(`, -1 for `)` and 0 otherwise |
| TokenizerProperties.StepKeeps | tokenizer.py:14-27 | each accepted character keeps the scan invariant, which ties the tokens to the text read so far |
| TokenizerProperties.ScanKeeps | tokenizer.py:14-27 | every accepted prefix's state satisfies the scan invariant |
| TokenizerProperties.StepOutcome | tokenizer.py:60-71 | one character fails iff it is unexpected, closes too many, or is the last character with a `(` left open; the error then names that cause and position; otherwise the level is the text's depth |
| TokenizerProperties.ScanClean | tokenizer.py:14-27 | a prefix with no fault scans without error, and the level is its parenthesis depth, provided the prefix is not the whole text with a `(` left open (that case is `ScanUnclosed`) |
| TokenizerProperties.ScanFault | tokenizer.py:67-71 | the first faulty position decides the error of every longer prefix |
| TokenizerProperties.ScanUnclosed | tokenizer.py:60-65 | with no fault, the scan fails iff a `(` is left open, and the error is `UnmatchingOpenParentheses` |
| TokenizerProperties.TokenizeErrors | tokenizer.py:8-29 | error cases of `tokenize`: the first `..`, `()` or premature `)` decides the error and its position; with none, it fails iff a `(` is left open |
| TokenizerProperties.BalancedTextHasNoParenthesisError | tokenizer.py:60-65 | a rewritten text whose parentheses balance can only fail with `UnexpectedCharacter` |
| TokenizerProperties.ScanAccepted | tokenizer.py:60-65 | an accepted text has no fault, a parenthesis depth of 0, and ends at level 0 |
| TokenizerProperties.ScanSpells | tokenizer.py:14-27 | after every accepted prefix, the tokens' spelling followed by the pending literal is exactly the prefix's digits, dots, letters, parentheses and operator characters, the pending literal holds literal characters only, and each literal token is the classification of its own non-empty text |
| TokenizerProperties.FinalSpelling | tokenizer.py:28-29 | after the final flush, the output spells exactly those characters of the rewritten text, and each literal token is the classification of its own text |
| TokenizerProperties.FinalState | tokenizer.py:8-29 | an accepted output's variable set, structure, literal text, spelling, literal classification and separation, balance, minus placement and registration, as the scan invariant gives them once the last literal is flushed |
| TokenizerProperties.TokenizeVariables | tokenizer.py:47-49 | the returned variable set is exactly the set of names of the `Variable` tokens |
| TokenizerProperties.TokenizeKeepsStructure | tokenizer.py:17-26 | the parenthesis and operator tokens match the `(`, `)` and operator characters of the rewritten text one for one, in order |
| TokenizerProperties.TokenizeKeepsLiterals | tokenizer.py:23-24 | the literal tokens' texts, joined, are the rewritten text's digits, dots and letters in order, and no two literal tokens are adjacent; where the literals split is fixed by `TokenizeDetermined` |
| TokenizerProperties.SpellingDetermines | tokenizer.py:14-29 | two well-formed token lists (classified, separated literals; placed minus; registered tokens) with the same spelling are equal |
| TokenizerProperties.TokenizeDetermined | tokenizer.py:8-29 | the output is well formed and spells the rewritten text's kept characters, and it is the only well-formed token list that does |
| TokenizerProperties.TokenizeUnaryMinus | tokenizer.py:73-77 | in the output, a minus is `-u` iff it is first or follows an operator |
| TokenizerProperties.TokenizeBalanced | tokenizer.py:17-22 | the output never closes more parentheses than it opened, ends balanced, and holds only registered tokens |
| Rpn.HasHigherPrecedence | src/expression.py:33-37 | the stack top takes precedence when its precedence is higher, never when it is lower, and on equal precedence exactly when it is left-associative |
| Rpn.PopOperatorsShape | src/expression.py:21-23 | the operator loop pops a top segment of the stack and appends it to the queue in pop order |
| Rpn.PopOperatorsRule | src/expression.py:21-23 | every popped token is an operator that takes precedence over the incoming one (higher precedence, or equal and left-associative); popping stops at an empty stack, a non-operator top, or an operator that does not take precedence |
| Rpn.PopToOpenShape | src/expression.py:25-28 | `)` moves everything above the nearest `(` to the queue in pop order, drops that `(` and keeps what is below it |
| Rpn.PopToOpenNearest | src/expression.py:25-28 | the `(` dropped is the nearest one: none lies above it, and exactly one `(` leaves the stack |
| Rpn.ShuntPrefix | src/expression.py:15-28 | after any prefix of the tokens, the stack holds as many `(` as the prefix leaves open |
| Rpn.DrainReverses | src/expression.py:29-30 | the final loop appends the stack to the queue in reverse, top first |
| Rpn.PushOperator | src/expression.py:20-24 | the operator branch's `while` loop and push compute the specification step |
| Rpn.CloseGroup | src/expression.py:25-28 | the `)` branch's `while` loop and discard compute the specification step |
| Rpn.ToRpn | src/expression.py:12-31 | `_convert_to_rpn` computes `ToRpnSpec` of the tokens |
| RpnProperties.ShuntAccounts | src/expression.py:15-28 | after any prefix, the queue has no parentheses; the stack holds only `(`, functions and operators; together they hold the prefix's non-parenthesis tokens; and the queue lists the prefix's operands in order |
| RpnProperties.DrainAccounts | src/expression.py:29-30 | emptying a stack with no `(` keeps that accounting |
| RpnProperties.ToRpnPermutes | src/expression.py:12-31 | on balanced input, the RPN has no parentheses and is a permutation of the input's other tokens |
| RpnProperties.ToRpnKeepsOperandOrder | src/expression.py:16-17 | values, variables and constants appear in the RPN in their input order |
| RpnProperties.ToRpnKeepsVariables | src/expression.py:12-31 | the RPN mentions exactly the input's variable names |
| Postfix.Evaluate | src/expression.py:41-51 | the stack loop computes `EvaluateSpec`: the bottom of the final stack, the first error, or `EmptyStack` |
| Postfix.RunErrorPersists | src/expression.py:42-50 | an error stops the loop, and longer prefixes report that same error |
| Postfix.RunSucceeds | src/expression.py:42-50 | with every variable bound, the loop gets through a prefix iff every operator and function in it finds at least its arity of values. The stack height is then the count of operands minus what the operations consume. Otherwise the error is `MissingOperands` |
| Postfix.RunNeedsBindings | src/expression.py:49-50 | a prefix the loop gets through has a binding for every variable in it |
| Postfix.EvaluateSucceeds | src/expression.py:41-51 | with every variable bound, evaluation succeeds iff every operation finds its operands and at least one value is left. The error otherwise is `MissingOperands` or `EmptyStack`. When exactly one value is left, the stack is that value alone |
| Postfix.EvaluateNeedsBindings | src/expression.py:49-51 | an evaluation that returns a number had a binding for every variable |
| CurrentExpression.Unassigned | src/expression.py:53-54 | the reported names are bound names whose value is `None` or zero |
| CurrentExpression.Unbound | src/expression.py:61-62 | `dict.fromkeys(names, None)` has exactly those names, each bound to `None` |
| CurrentExpression.UnboundUnassigned | src/expression.py:61-62 | after resetting, every name is reported as unassigned |
| CurrentExpression.AssignUnassigned | src/expression.py:53-59 | assigning a nonzero number removes that name from the unassigned set; assigning 0 leaves it (or puts it) there; no other name changes |
| CurrentExpression.AssignedBindings | src/expression.py:53-56 | once the check passes, every name has a nonzero number, and the evaluator reads exactly that number |
| CurrentExpression.Expression.constructor | src/expression.py:6-10 | the expression keeps the tokens, binds exactly the discovered variables to `None`, and holds their RPN |
| CurrentExpression.Compile | src/expression.py:6-10 | `Expression(s)` either fails with the tokenizer's error, or yields a fresh valid expression whose tokens are the tokenizer's and whose every variable is unassigned |
| CurrentExpression.CompiledUnassigned | src/expression.py:6-10 | right after construction, the unassigned names are exactly the expression's variables |
| CurrentExpression.Expression.Evaluate | src/expression.py:39-51 | with any falsy binding, it fails with `UnassignedVariable` listing all of them. Otherwise it is the stack evaluation over the bindings. It succeeds iff nothing is falsy, every operation finds its operands and a value is left, and it never fails on a missing binding |
| CurrentExpression.Expression.AssignValue | src/expression.py:58-59 | sets or adds one binding; the others, the tokens and the RPN are unchanged |
| CurrentExpression.Expression.ResetVariables | src/expression.py:61-62 | the same names, all unassigned; tokens and RPN unchanged |
| LegacyExpression.NaNBindings | expression.py:13 | `dict.fromkeys(names, float('NaN'))` has exactly those names, each bound to NaN |
| LegacyExpression.Expression.constructor | expression.py:5-9 | a new expression has no tokens, no bindings and no RPN |
| LegacyExpression.Expression.Parse | expression.py:11-14 | on a tokenizer error nothing changes. Otherwise tokens and RPN are replaced, and the bindings become exactly the discovered variables, all NaN |
| LegacyExpression.Expression.Evaluate | expression.py:43-54 | the stack evaluation over the current bindings, with no check. When the state is valid and every variable has a binding, it never fails on a missing binding |
| LegacyExpression.Expression.AssignValue | expression.py:59-60 | sets or adds one binding; the others, the tokens and the RPN are unchanged |
| LegacyExpression.Expression.ClearVariables | expression.py:62-63 | removes every binding; tokens and RPN unchanged |
| LegacyExpression.EmptyEvaluation | expression.py:43-54 | evaluating before any `parse` (empty RPN) fails with `EmptyStack` |
| LegacyExpression.ClearedEvaluation | expression.py:52-54 | after `clear_variables`, an evaluation that returns a number read no variable |
| LegacyExpression.ClearedLookupFails | expression.py:52-53 | after `clear_variables`, evaluation fails at the first variable with its name when every earlier operation had its operands, and with `MissingOperands` otherwise |
| WorkedExamples.PowerGroupsRight | src/expression.py:15-31 | the tokens of `2^3^2` are balanced and convert to `2 3 2 ^ ^`: a right-associative `^` does not pop an equal one |
| WorkedExamples.PowerValue | src/expression.py:41-51 | `2 3 2 ^ ^` evaluates to `^` applied to `2` and to `^` of `3` and `2` |
| WorkedExamples.PowerEvaluation | tests/test_expression.py:121-122 | `2^3^2`, the grouping behind the test of `( 1 - 5 ) ^ 2 ^ 3`, converts and evaluates to `2^(3^2)` |
| WorkedExamples.FunctionWaitsForEnd | src/expression.py:18-24 | the tokens of `sin(0)+1` are balanced and convert to `0 1 + sin`: `+` does not pop the function |
| WorkedExamples.FunctionValue | src/expression.py:41-51 | `0 1 + sin` evaluates to `sin` applied to the sum |
| WorkedExamples.FunctionEvaluation | src/expression.py:12-51 | `sin(0)+1` converts and evaluates to `sin(0+1)` |
| WorkedExamples.OperandsInPushOrder | src/expression.py:43-46 | `1 2 -` evaluates to `-` applied to `1` then `2` |
| WorkedExamples.BottomOfStack | src/expression.py:51 | `2 3 !` leaves two values and returns the bottom one, `2` |
| WorkedExamples.MinusShortOfOperands | src/expression.py:44-46 | `2 -`, the RPN of `(-2)`, fails with `MissingOperands` at the `-` |

## Left out

- **Floating point and the math library.** `math.sin`, `sqrt`, `factorial`, `pow`, `truediv`, the `cbrt` lambda and the rest are not modelled. Numbers are symbolic terms. Runtime failures of these operations are absent from the model, for example division by zero, a math domain error, or the factorial of a non-integer.
- Postfix.Evaluate: `float(text)` is not computed. A literal is kept as `Parsed(text)`, so the model does not fail on a text such as `1.2.3`, which the tokenizer accepts and `float()` rejects.
- **Unicode.** `str.isalpha` and `\d` are modelled over ASCII letters and digits only.
- **Unused constants.** `SPACE`, `HYPHEN` and `MINUS_SIGN` in `src/tokens.py:5-7` are not modelled; the source never reads them.
- **The `UnassignedVariable` payload.** The source formats a list of names in dictionary order as a string. The model uses the set of names.
- **Dictionary order in general** is not modelled, since bindings are maps.
- **`__repr__` and `Value.__eq__`.** `Value.__eq__` compares a value with any other object. Neither is modelled: they play no part in parsing or evaluation.
- **Assigned values are numbers.** `assign_value` accepts any Python object; the model accepts real numbers only.
- Rpn.ToRpn: requires that no prefix of the tokens closes more parentheses than it opened. On such input the source would fail with an `IndexError`. Its only callers pass tokenizer output, which `TokenizerProperties.TokenizeBalanced` proves meets this.
- **The older version's `_ensure_variables_assigned`** (`expression.py:56-57`) does nothing and is not called, so it has no member.
- **The older version's copies.** Its `_convert_to_rpn` and `_has_operator_higher_precedence` are textually the same as the current ones, and are modelled once, in `Rpn`.
- **The `tokenizer` attribute** of both classes is stateless, and is modelled by calling `Tokenizer.Tokenize` directly.
- **Numeric end-to-end results** are not stated, for example the value `3.0001220703125` of `3 + 4 * 2 / ( 1 - 5 ) ^ 2 ^ 3`, because floating point is not modelled. The grouping behind such results is stated generally by `Rpn.PopOperatorsRule`, and for `2^3^2` and `sin(0)+1` by the worked conversions and evaluations in `WorkedExamples`, which start from token lists rather than text.
- Tokens.SameToken: requires that neither side is a `Value` and that an operator is not compared with a same-symbol token that has no operand count. The source raises `AttributeError` in both cases: `Variable('x') == Value('1')` reads the missing `other.symbol`, and `Operator('+') == Variable('+')` reads the missing `other.operands_count`. The tokenizer never compares such pairs.
