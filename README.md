# Monkey interpreter core, in Dafny

A model of the core of a Go tree-walking interpreter for the Monkey
language, with proofs about it:

- **the Pratt parser**, in two forms:
  - `Parsing`: functions from parser state to (node, state);
  - `Parser`: the parser object, with two tokens of lookahead and an
    append-only error list, whose methods advance through the tokens in
    place. Each method is proved to build the node, and leave the state,
    that its `Parsing` function describes.
- **the fully parenthesised `String()` rendering of the AST** (`Ast`, `AstFacts`);
- **the evaluator** for literals, prefix and infix operators, `if`, blocks
  and `return` (`Evaluator`, `EvaluatorFacts`);
- **the six builtins** (`Builtins`);
- **the `Environment`**, a class with a name→object store and an `outer`
  link (`Objects`);
- **hash keys**, including FNV-1a over a string's UTF-8 bytes (`HashKeys`);
- **the `Inspect()` renderings of objects** (`Objects`).

Go's `int64` arithmetic wraps modulo 2^64, and its `/` truncates toward
zero. Both are written out in `GoInt`. `strconv.ParseInt(s, 0, 64)`, with
its base prefixes, `_` separators and range check, is in `Strconv`. `strings.Join`, `%d`,
`%q` and UTF-8 encoding are in `Text`.

Where the language description and the code differ, the model follows the code:

- **Evaluator scope.** The evaluator has no environment and no error
  objects. It handles no calls, `let`, `while` or strings: those nodes
  evaluate to nil.
- **Stopping.** Blocks and programs stop only at a return value.
- **Failed `let`.** A `let` that fails to parse is kept in the program, as a
  typed nil. In Go, that typed nil passes the `stmt != nil` test.

Go's nil Expression is the constructor `Expr.Nil`; the typed nil
`*LetStatement` is `Stmt.NilLet`. The token package is not part of this
model. Its type names are Monkey's conventional ones (`IDENT`, `=`, …).

## Model

| member | source | states |
|---|---|---|
| GoInt.Wrap | evaluator/evaluator.go:106-111 | the result is congruent to the argument modulo 2^64, and equals it when it fits in int64 |
| GoInt.Add | evaluator/evaluator.go:107 | int64 `+`: congruent to the true sum modulo 2^64, and equal to it when it fits |
| GoInt.Sub | evaluator/evaluator.go:109 | int64 `-`: congruent to the true difference modulo 2^64, and equal to it when it fits |
| GoInt.Mul | evaluator/evaluator.go:111 | int64 `*`: congruent to the true product modulo 2^64, and equal to it when it fits |
| GoInt.Neg | evaluator/evaluator.go:127-134 | unary `-` is exact except on MinInt64, which is its own negation |
| GoInt.TruncDiv | evaluator/evaluator.go:113 | the quotient's magnitude is |a| / |b| rounded down, and it is negative only when the signs differ |
| GoInt.Quo | evaluator/evaluator.go:113 | int64 `/`: congruent modulo 2^64 to the truncated quotient |
| GoInt.AddExact | evaluator/evaluator.go:107 | wrapped `+` is exact whenever the true sum fits in int64 |
| GoInt.MaxPlusOneWraps | evaluator/evaluator.go:107 | MaxInt64 + 1 wraps to MinInt64 |
| GoInt.TruncDivRemainder | evaluator/evaluator.go:113 | the truncated quotient leaves a remainder smaller than the divisor, with the dividend's sign |
| GoInt.QuoExact | evaluator/evaluator.go:113 | apart from MinInt64 / -1, Go's `/` is the truncated quotient |
| GoInt.MinDivMinusOneWraps | evaluator/evaluator.go:113 | MinInt64 / -1 wraps to MinInt64 |
| GoInt.QuoExamples | evaluator/evaluator.go:113 | -7/2 = -3, 7/-2 = -3, -7/-2 = 3, 7/2 = 3 |
| GoInt.AsUint64 | object/hashkey.go:31 | `uint64(i)` is the unsigned value congruent to i modulo 2^64 |
| GoInt.AsUint64Injective | object/hashkey.go:30-32 | distinct int64 values have distinct uint64 readings |
| Text.JoinConcat | ast/array.go:29-34 | joining two non-empty runs puts exactly one separator between them, order kept |
| Text.JoinCons | object/array.go:29 | a join of two or more parts is the first part, the separator, then the join of the rest |
| Text.JoinEnds | object/array.go:29 | a join starts with its first part and ends with its last |
| Text.Join | object/array.go:29 | `strings.Join`: the parts with the separator between consecutive ones (the definition; its properties are the Join lemmas) |
| Text.ConcatenationJoin | ast/block.go:24-26 | with no separator, the join of two runs is the join of the first followed by the join of the second, empty runs included |
| Text.NatToString | object/integer.go:13-15 | `%d` of a natural number is a non-empty run of digits with no leading zero |
| Text.Quote | parser/parser.go:456 | `%q` output is the escaped text between double quotes |
| Text.QuotePlain | parser/parser.go:456 | printable ASCII other than `"` and `\` is quoted unchanged |
| Text.QuoteBodyConcat | parser/parser.go:456 | quoting works character by character: the escape of a + b is the escape of a then of b |
| Text.QuoteEscapes | parser/parser.go:456 | `"` becomes `\"`, a newline `\n`, and NUL `\x00` |
| Text.EncodeRune | evaluator/builtins.go:17 | a rune takes 1 to 4 bytes, and exactly 1 when it is ASCII |
| Text.AsciiByteLength | evaluator/builtins.go:17 | an ASCII string's byte length is its character count |
| Text.Utf8Concat | object/hashkey.go:37 | `[]byte(a + b)` is `[]byte(a)` followed by `[]byte(b)` |
| Text.Utf8 | object/hashkey.go:37 | `[]byte(s)`: each character takes 1 to 4 bytes, so the length lies between |s| and 4·|s| |
| Strconv.DigitValue | parser/parser.go:454 | a digit's value is at most 36; 36 marks a non-digit |
| Strconv.ParseDigits | parser/parser.go:454 | a digit string in a base, `_` skipped, as a natural number (the definition) |
| Strconv.ParseDigitsAccepts | parser/parser.go:454 | a digit string reads exactly when every character is `_` or a digit below the base |
| Strconv.Digits | parser/parser.go:454 | digits read exactly when they read as digits and their `_` separators are well placed, and then give the same value |
| Strconv.ParseUnsignedBase0 | parser/parser.go:454 | without a leading `0` the text is decimal; `0` alone is zero |
| Strconv.LeadingSeparator | parser/parser.go:454 | a leading `_` is misplaced unless it follows a base prefix |
| Strconv.Separators | parser/parser.go:454 | `1_000` is 1000, `0x_1f` is 31, `0_7` is 7 |
| Strconv.MisplacedSeparators | parser/parser.go:454-455 | `1__0`, `_1` and `1_` fail to parse |
| Strconv.HexPrefix | parser/parser.go:454 | `0x10` is 16 |
| Strconv.OctalZero | parser/parser.go:454 | `010` is 8 |
| Strconv.BinaryPrefix | parser/parser.go:454 | `0b101` is 5 |
| Strconv.NotDigits | parser/parser.go:454-455 | `09` and `12a` fail to parse |
| Strconv.ParseInt | parser/parser.go:454-458 | `strconv.ParseInt(s, 0, 64)`: the empty literal and a lone sign fail; `_` separators are accepted where Go's literal syntax puts them |
| Strconv.DecimalRoundTrip | parser/parser.go:454 | reading back the decimal digits of n gives n |
| Strconv.FormatThenParse | parser/parser.go:454 | `ParseInt` of `%d` of any int64 gives that int64 back |
| Strconv.UnsignedDecimal | parser/parser.go:454 | base-0 reading of a decimal numeral without prefix is its value |
| Strconv.BasePrefixes | parser/parser.go:454 | `0x10` is 16, `010` is 8, `0b101` is 5; `09` and `12a` fail, so literal and value text can differ |
| Strconv.OutOfRange | parser/parser.go:454-455 | a decimal literal at or above 2^63 fails to parse |
| Ast.CompleteIsRenderable | ast/expression.go:22-26 | a tree with no nil in it can be rendered |
| Ast.BlockCompleteIsRenderable | ast/block.go:24-26 | a block with no nil in it can be rendered |
| Ast.MapOrder | ast/hash.go:29 | hash pairs are rendered in some fixed but unspecified order that lists each pair exactly once; Go's order, which can change from call to call, is not modelled |
| Ast.IdentifierStrings | ast/function.go:30-32 | the parameter strings are the parameters' values, in order |
| Ast.TokenLiteral | ast/identifier.go:12-14 | `TokenLiteral()` of a node: the literal of the token it was built from (the definition) |
| Ast.String | ast/infix.go:24-34 | `String()` of an expression: the fully parenthesised rendering (the definition; its shapes are stated by the AstFacts lemmas) |
| Ast.StmtString | ast/let.go:24-38 | `String()` of a statement (the definition) |
| Ast.BlockString | ast/block.go:21-29 | `BlockStatement.String()`: the statements' strings back to back (the definition) |
| Ast.ProgramString | ast/block.go:21-29 | `Program.String()`, which is written like `BlockStatement.String()` (the definition) |
| AstFacts.InfixShape | ast/infix.go:24-34 | an infix rendering starts with `(`, ends with `)`, holds the left operand first and the right last, and has length of both plus the operator plus 4 |
| AstFacts.SpacedShape | ast/infix.go:27-31 | the infix text is `(`, the left operand, the spaced operator, the right operand and `)`, and its length is their total |
| AstFacts.InfixBalanced | ast/infix.go:27-31 | balanced operands and a parenthesis-free operator give a balanced rendering |
| AstFacts.SpacedBalanced | ast/infix.go:27-31 | the text `(a op b)` is balanced when `a` and `b` are and `op` has no parenthesis |
| AstFacts.PrefixShape | ast/prefix.go:23-32 | a prefix rendering is `(`, the operator, the operand with no space, `)`; its length is \|op\| + \|operand\| + 2 |
| AstFacts.PrefixBalanced | ast/prefix.go:26-29 | a balanced operand gives a balanced prefix rendering |
| AstFacts.IndexShape | ast/index.go:22-32 | an index rendering starts with `(`, ends with `])`, and the indexed operand precedes `[` and the index |
| AstFacts.BracketedShape | ast/index.go:25-29 | the index text is `(`, the indexed operand, `[`, the index and `])`, each at its position |
| AstFacts.IndexBalanced | ast/index.go:25-29 | balanced operands give a balanced index rendering |
| AstFacts.BracketedBalanced | ast/index.go:25-29 | the text `(a[b])` is balanced when `a` and `b` are |
| AstFacts.OperatorTreeBalanced | ast/infix.go:24-34 | every tree of literals, identifiers, prefix, infix and index nodes renders with balanced parentheses |
| AstFacts.ArrayEmptyAndSingle | ast/array.go:28-35 | `[]` for no elements; one element renders with no separator |
| AstFacts.ArrayOrder | ast/array.go:29-31 | elements keep their order: front run, `, `, back run |
| AstFacts.StringsJoinConcat | ast/array.go:29-34 | the comma-joined renderings of two non-empty runs are the first run's, `, `, then the second's |
| AstFacts.HashEmpty | ast/hash.go:25-38 | an empty hash literal renders `{}` |
| AstFacts.HashSingle | ast/hash.go:29-30 | one pair renders `{key:value}`, with no space around `:`, whatever the map order |
| AstFacts.FunctionShape | ast/function.go:25-41 | the rendering opens with the token literal and `(`, and ends with `)` directly followed by the body, which gets no braces; no parameters give `()` |
| AstFacts.FunctionParameterOrder | ast/function.go:30-32 | parameters render in declaration order |
| AstFacts.LetShape | ast/let.go:24-38 | `let name = value;`, always ending in `;`; a nil value leaves `= ;` |
| AstFacts.BlockEmpty | ast/block.go:21-29 | an empty block renders as the empty string |
| AstFacts.BlockConcat | ast/block.go:24-26 | rendering distributes over concatenation of statement lists |
| AstFacts.ExpressionStatementShape | ast/expression.go:21-27 | a program of one expression statement renders exactly its expression, with no `;` added; a nil expression renders as nothing |
| AstFacts.WhileShape | ast/while.go:24-33 | the rendering opens with `while (` and the condition, and ends with ` )` directly followed by the body; nine characters are added in all |
| AstFacts.IntegerLiteralText | ast/integer.go:16-23 | an integer literal renders its token's spelling, not its value: `0_7` denotes 7 and renders `0_7`, not `7` |
| Objects.TypeNameInjective | object/object.go:8-13 | two type tags have the same name exactly when they are the same tag; of the ten names, only BOOLEAN, INTEGER and NULL come from the declarations, and ARRAY from the builtins' messages; the other six are the assumed conventional names |
| Objects.Type | object/array.go:14-16 | Integer, Array and ReturnValue objects, and only they, carry their own tags |
| Objects.Inspect | object/object.go:19 | `Inspect()` of an object (the definition; its shapes are stated by the Inspect lemmas) |
| Objects.ArrayInspectEmptyAndSingle | object/array.go:22-30 | `[]` for no elements; one element with no separator |
| Objects.ArrayInspectOrder | object/array.go:24-26 | elements keep their order in the inspection |
| Objects.InspectionsJoinConcat | object/array.go:24-26 | the comma-joined inspections of two non-empty runs are the first run's, `, `, then the second's |
| Objects.HashInspectEmptyAndSingle | object/hash.go:24-37 | `{}` for no entries; one entry inspects `{key: value}` from the stored key object, whatever the map order |
| Objects.FunctionInspectShape | object/function.go:20-37 | starts with `fn(` and ends with `} {`, a newline, the body and a closing `}` line; no `)` closes the parameters, so a function without parameters inspects as `fn(} {` |
| Objects.ErrorInspectRoundTrip | object/error.go:14-16 | the inspection starts `ERROR: `, and dropping those 7 characters gives the message back |
| Objects.LeafInspections | object/integer.go:13-15 | an integer's inspection reads back as the same integer; a return value inspects as what it wraps; a string inspects without quotes, so `"5"` looks like 5 and `"null"` like null |
| Objects.Environment.constructor | object/environment.go:17-21 | `NewEnvironment`: empty store, no outer |
| Objects.Environment.Enclosed | object/environment.go:9-15 | `NewEnclosedEnvironment(o)`: empty store, outer is o |
| Objects.Environment.Chain | object/environment.go:27-29 | the frames a lookup visits, innermost first: finite, starting at this frame |
| Objects.Environment.Get | object/environment.go:23-32 | returns the innermost binding along the outer chain; a local binding wins; (nil, false) when no frame binds the name |
| Objects.Environment.Set | object/environment.go:34-39 | writes only the local store and returns the value; Get of the name then gives (value, true); all other names, and the outer chain, are unchanged |
| Objects.LookupFirstFrame | object/environment.go:23-32 | a name is found exactly when some frame of the chain binds it, and then the first such frame's value is returned |
| Objects.LookupThroughOuter | object/environment.go:27-29 | on a local miss, the lookup is the outer environment's, so later outer `Set`s are visible |
| Objects.LocalShadows | object/environment.go:24-25 | a local binding shadows every enclosing one |
| HashKeys.Fnv1aStep | object/hashkey.go:35-40 | FNV-1a is a left fold: one more octet is one more xor-then-multiply round |
| HashKeys.Fnv1a | object/hashkey.go:36-37 | `fnv.New64a` fed the bytes: from the offset basis, one xor-then-multiply round per octet (the definition) |
| HashKeys.Fnv1aConcat | object/hashkey.go:36-37 | hashing a + b is hashing a, then further rounds over b |
| HashKeys.BooleanKey | object/hashkey.go:18-27 | tag BOOLEAN, value 1 for true and 0 for false |
| HashKeys.IntegerKey | object/hashkey.go:30-32 | tag INTEGER; value i for i ≥ 0 and i + 2^64 for i < 0 |
| HashKeys.StringKey | object/hashkey.go:35-40 | tag STRING; the value is the 64-bit FNV-1a hash of the string's UTF-8 bytes |
| HashKeys.StringKeyConcat | object/hashkey.go:35-40 | the key of s + t continues the hash of s over the UTF-8 bytes of t |
| HashKeys.IntegerKeyInjective | object/hashkey.go:30-32 | two integers share a key exactly when they are equal |
| HashKeys.KeysSeparateKinds | object/hashkey.go:12-15 | keys of different kinds never compare equal; Integer 1 and Boolean true differ |
| HashKeys.EmptyStringKey | object/hashkey.go:35-40 | `""` hashes to the offset basis 14695981039346656037 |
| HashKeys.HelloAbcdDiffer | object/object_test.go:20-22 | `"Hello"` and `"abcd"` get different keys (their FNV-1a values worked out) |
| Evaluator.NativeBool | evaluator/evaluator.go:175-181 | TRUE exactly for true, FALSE exactly for false |
| Evaluator.Negation | evaluator/evaluator.go:127-134 | an Integer is negated with int64 wrap; any other object gives NULL |
| Evaluator.IsTruthy | evaluator/evaluator.go:162-173 | everything is truthy except NULL and FALSE; nil and the integer 0 are truthy |
| Evaluator.Bang | evaluator/evaluator.go:48-59 | `!x` is the Boolean negation of x's truthiness |
| Evaluator.EvalPrefix | evaluator/evaluator.go:136-145 | `!` negates truthiness; `-` negates an Integer with wrap-around; anything else is NULL |
| Evaluator.EvalIntegerInfix | evaluator/evaluator.go:101-125 | the arithmetic operators give Integers, the comparisons Booleans, any other operator NULL; `!=` is the negation of `==` |
| Evaluator.EvalInfix | evaluator/evaluator.go:87-99 | unless both operands are Integers, only `==` and `!=` give a Boolean and every other operator NULL; an Integer never equals a non-Integer |
| Evaluator.EvalExpr | evaluator/evaluator.go:19-46 | `Eval` of an expression (the definition; its behaviour is stated by the EvaluatorFacts lemmas) |
| Evaluator.EvalStmt | evaluator/evaluator.go:22-23 | `Eval` of a statement: an expression statement evaluates its expression, a return wraps its value (the definition) |
| Evaluator.EvaluateBlockStatement | evaluator/evaluator.go:61-73 | the loop computes `EvalBlock`: see the block lemmas below |
| Evaluator.EvaluateProgram | evaluator/evaluator.go:147-160 | the loop computes `EvalProgram`: see the program lemmas below |
| EvaluatorFacts.LiteralValues | evaluator/evaluator.go:25-28 | an integer literal gives an Integer of the same value; boolean literals give the TRUE/FALSE singletons |
| EvaluatorFacts.OtherNodesAreNil | evaluator/evaluator.go:40-45 | unhandled node kinds, nil and `let` give nil; a return wraps its value in a ReturnValue |
| EvaluatorFacts.Truthiness | evaluator/evaluator.go:162-173 | NULL and FALSE are the only falsy objects; 0 and nil are truthy |
| EvaluatorFacts.BangNegatesTruthiness | evaluator/evaluator.go:48-59 | `!x` is FALSE exactly when x is truthy |
| EvaluatorFacts.BangExamples | evaluator/evaluator_test.go:88-123 | `!true`, `!false`, `!5`, `!!true`, `!!false`, `!!5` |
| EvaluatorFacts.PrefixSemantics | evaluator/evaluator.go:127-145 | `-` negates an Integer with wrap, gives NULL otherwise; unknown prefix operators give NULL |
| EvaluatorFacts.IntegerArithmeticWraps | evaluator/evaluator.go:105-111 | `+ - *` give the true result modulo 2^64, and exactly the true result when it fits |
| EvaluatorFacts.IntegerDivisionTruncates | evaluator/evaluator.go:112-113 | `/` truncates toward zero: the remainder is smaller than the divisor and has the dividend's sign |
| EvaluatorFacts.DivisionExamples | evaluator/evaluator.go:112-113 | -7 / 2 is -3; MinInt64 / -1 is MinInt64 |
| EvaluatorFacts.IntegerComparisons | evaluator/evaluator.go:114-124 | `< > == !=` give the singletons; any other operator on two Integers gives NULL |
| EvaluatorFacts.SumExample | evaluator/evaluator_test.go:468-478 | `-5` and `5 + 5 + 5 + 5 - 10` |
| EvaluatorFacts.GroupingExample | evaluator/evaluator_test.go:484-490 | `(2 + 3) * 3` is 15 and `2 + 3 * 3` is 11 |
| EvaluatorFacts.PowerOfTwoExample | evaluator/evaluator_test.go:480-482 | `2 * 2 * 2 * 2 * 2` is 32 |
| EvaluatorFacts.NonIntegerInfix | evaluator/evaluator.go:87-99 | unless both operands are Integers, `==` holds exactly for the same Boolean or two NULLs, `!=` is its negation, and any other operator gives NULL |
| EvaluatorFacts.IdentityExamples | evaluator/evaluator_test.go:349-372 | `true == true`, `(1 < 2) == true`, `1 == true`; two equal return values are not identical |
| EvaluatorFacts.IfSemantics | evaluator/evaluator.go:75-85 | a truthy condition runs the consequence; otherwise the alternative if present; otherwise NULL |
| EvaluatorFacts.IfExamples | evaluator/evaluator_test.go:409-420 | the `if` tests without `else` on `true`, `false` and `1`: 10, NULL, 10 |
| EvaluatorFacts.IfComparisonExamples | evaluator/evaluator_test.go:421-428 | the `if` tests without `else` on `1 < 2` and `1 > 2`: 10, NULL |
| EvaluatorFacts.IfElseExamples | evaluator/evaluator_test.go:429-436 | the `if`/`else` tests |
| EvaluatorFacts.BlockStopsAtFirstReturn | evaluator/evaluator.go:64-69 | a block's result is its first return value, still wrapped; later statements are not run |
| EvaluatorFacts.BlockWithoutReturn | evaluator/evaluator.go:62-72 | without a return value, a block gives its last statement's result, or nil when empty |
| EvaluatorFacts.ProgramStopsAtFirstReturn | evaluator/evaluator.go:150-156 | a program's result is the value inside its first return value |
| EvaluatorFacts.ProgramWithoutReturn | evaluator/evaluator.go:148-158 | without a return value, a program gives its last statement's result, or nil when empty |
| EvaluatorFacts.ReturnExamples | evaluator/evaluator_test.go:504-512 | `return 10;` and `return 10; 9;` give 10 |
| EvaluatorFacts.ComputedReturnExamples | evaluator/evaluator_test.go:513-520 | `return 2 * 5; 9;` gives 10; `9; return 2 * 9; 9;` gives 18 |
| EvaluatorFacts.NestedReturnExample | evaluator/evaluator_test.go:521-529 | a return in nested `if` blocks leaves every block and is unwrapped once |
| EvaluatorFacts.InnerReturn | evaluator/evaluator_test.go:521-529 | the inner `if` of the nested test evaluates to the wrapped return value 10 |
| Builtins.Len | evaluator/builtins.go:7-22 | wrong arity gives `wrong number of arguments. got=N, want=1`; element count of an Array; UTF-8 byte count of a String; otherwise `argument to `len` not supported, got T` |
| Builtins.First | evaluator/builtins.go:23-40 | arity error, then the ARRAY type error; element 0 of a non-empty array; NULL for an empty one |
| Builtins.Last | evaluator/builtins.go:41-59 | arity error, then the ARRAY type error; element n-1 of a non-empty array; NULL for an empty one |
| Builtins.Rest | evaluator/builtins.go:60-81 | arity error, then the ARRAY type error; an array of n-1 elements whose element i is input element i+1; NULL, not `[]`, for an empty array |
| Builtins.Push | evaluator/builtins.go:82-101 | arity-2 error, then the type error on the first argument; an array of n+1 elements, the old ones first and the pushed value last |
| Builtins.Puts | evaluator/builtins.go:102-110 | NULL for any arguments |
| Builtins.Apply | evaluator/builtins.go:6-111 | a call of the named builtin on the arguments (the dispatch; each builtin's contract is in its own row) |
| Builtins.RestBuiltin | evaluator/builtins.go:70-79 | the allocate-and-copy loop computes `Rest` |
| Builtins.PushBuiltin | evaluator/builtins.go:92-99 | the allocate, copy and write computes `Push` |
| Builtins.ArityBeforeType | evaluator/builtins.go:25-31 | the argument count is checked before the argument type |
| Builtins.LenCountsBytes | evaluator/builtins.go:16-17 | `len` of ASCII text counts its characters; `len("∑")` is 3 |
| Builtins.PushThenLast | evaluator/builtins.go:82-101 | `last(push(a, x))` is x; `push` leaves `first` unchanged; `rest(push([y], x))` is `[x]` |
| Builtins.LenExamples | evaluator/evaluator_test.go:130-132 | `len("")`, `len("four")`, `len([1, 2, 3])` |
| Builtins.LenErrorExamples | evaluator/evaluator_test.go:133-134 | `len(1)` and `len("one", "two")` errors |
| Builtins.ArrayBuiltinExamples | evaluator/evaluator_test.go:136-145 | `first`, `last`, `rest`, `push` on `[1, 2, 3]` |
| Builtins.BuiltinErrorExamples | evaluator/evaluator_test.go:137-147 | the arity and type errors of `first`, `last`, `rest` and `push` |
| Parsing.Start | parser/parser.go:62-98 | `New` leaves the first token current, the second peeked and no errors |
| Parsing.Current | parser/parser.go:142-145 | the current token is EOF exactly at the end of the stream |
| Parsing.Peeked | parser/parser.go:142-145 | the peeked token is EOF exactly when the current one is at most one before the end |
| Parsing.NextToken | parser/parser.go:142-145 | the peeked token becomes current; the index advances by one, and stays put on EOF |
| Parsing.ExpectPeek | parser/parser.go:133-140 | true exactly when the peek has the wanted type, and then advances exactly one token; otherwise stays put and appends `Expected next token to be T, but was P instead` |
| Parsing.StepsCompose | parser/parser.go:142-145 | parser steps compose, and a composed step reports no error exactly when neither part does |
| Parsing.SkipSemicolon | parser/parser.go:414-416 | steps onto a peeked `;` and otherwise changes nothing |
| Parsing.Put | parser/parser.go:301 | a non-nil key adds a new pair, even if an equal key is there; a nil key replaces an earlier nil key's value |
| Parsing.ParseExpression | parser/parser.go:386-408 | state only moves forward; no error means no nil in the tree; nodes agree with their tokens; no prefix handler gives nil and `no prefix parse function for T found`; otherwise it stops before `;` or an operator binding no tighter than the given precedence |
| Parsing.ExpressionLoop | parser/parser.go:396-405 | the loop stops only where the peek is `;` or binds no tighter than the minimum |
| Parsing.PrefixThenLoop | parser/parser.go:387-395 | with a prefix handler for the current token, `parseExpression` is the loop started from what that handler parsed |
| Parsing.ExpressionLoopStep | parser/parser.go:396-405 | one loop turn steps onto the peeked operator and continues from what its infix handler returns |
| Parsing.ParsePrefix | parser/parser.go:71-82 | each registered prefix handler keeps the parse promise |
| Parsing.ParseInfix | parser/parser.go:84-94 | each registered infix handler keeps the parse promise, given its left operand |
| Parsing.ParseIdentifier | parser/parser.go:433-435 | consumes nothing; the identifier's value is the token literal |
| Parsing.ParseIntegerLiteral | parser/parser.go:451-464 | nil with `coundn't parse "lit" as an integer` exactly when `ParseInt` fails |
| Parsing.ParseBoolean | parser/parser.go:183-185 | consumes nothing; true exactly for a `true` token |
| Parsing.ParseStringLiteral | parser/parser.go:504-506 | consumes nothing; the text is the token literal |
| Parsing.ParsePrefixExpression | parser/parser.go:466-477 | keeps the parse promise, with the operator taken from the token |
| Parsing.ParseGroupedExpression | parser/parser.go:421-431 | keeps the parse promise; the parentheses add no node |
| Parsing.ParseIfExpression | parser/parser.go:329-360 | keeps the parse promise; a missing `(` gives nil and `Expected next token to be (`; any other result is an `if` node on the `if` token |
| Parsing.IfCondition | parser/parser.go:336-341 | the condition is parsed at LOWEST after `(`; a missing `)` gives nil with exactly that peek error; otherwise the result is an `if` node with that condition, or nil after a missing `{` |
| Parsing.IfBlocks | parser/parser.go:343-347 | extends the condition into an `if` node with that token and condition; nil exactly after a missing `{` |
| Parsing.ElseBlock | parser/parser.go:349-359 | keeps the token, condition and consequence; nil only after a missing `{` for the `else` block; complete when the condition and both blocks are |
| Parsing.ParseFunctionLiteral | parser/parser.go:240-256 | keeps the parse promise |
| Parsing.FunctionBody | parser/parser.go:249-255 | keeps the parse promise |
| Parsing.ParseArrayLiteral | parser/parser.go:157-163 | keeps the parse promise |
| Parsing.ParseHashLiteral | parser/parser.go:286-313 | keeps the parse promise; any result is a hash literal on the `{` token, or nil whose last error reports a missing `:`, `,` or `}` |
| Parsing.HashPairs | parser/parser.go:290-306 | without an error, the loop yields pairs that agree and contain no nil; it fails only on a missing `:` or `,`, and succeeds with `}` peeked |
| Parsing.HashValue | parser/parser.go:299-305 | one iteration keeps the pairs agreeing, and complete when no error is reported; it fails only on a missing `,`, or a missing `:` further on |
| Parsing.ParseInfixExpression | parser/parser.go:437-449 | an infix node on the operator with the given left operand; the right operand is parsed at the operator's own precedence, so it stops before any operator that binds no tighter |
| Parsing.ParseCallExpression | parser/parser.go:187-192 | extends the callee |
| Parsing.ParseIndexExpression | parser/parser.go:315-327 | nil exactly when `]` does not follow the index, with that peek error; otherwise the index node on `[` with the operand and the index parsed at LOWEST |
| Parsing.ParseExpressionList | parser/parser.go:217-238 | a peeked terminator gives the empty list; a non-empty list ends on the terminator; otherwise an empty list means the terminator was missing and its peek error is the last one reported; every element agrees, and without an error none is nil |
| Parsing.ExpressionListTail | parser/parser.go:226-230 | keeps the elements already read, and stops only where no `,` is peeked |
| Parsing.ParseFunctionParameters | parser/parser.go:258-284 | a peeked `)` gives no parameters; parameter i is the token at offset 1 + 2i after `(`, whatever its type, and a non-empty list ends on `)` with no error; otherwise an empty list means `)` was missing and exactly one peek error was added |
| Parsing.ParameterTail | parser/parser.go:271-277 | reports no error, keeps the parameters already read, takes every second token after each `,` and advances two tokens per parameter, and stops only where no `,` is peeked |
| Parsing.ParseBlockStatement | parser/parser.go:165-181 | keeps the `{` token and ends on `}` or EOF |
| Parsing.BlockStatements | parser/parser.go:171-178 | ends on `}` or EOF; statements agree, and none is nil without an error |
| Parsing.ParseStatement | parser/parser.go:493-502 | keeps the statement promise |
| Parsing.ParseLetStatement | parser/parser.go:362-384 | gives the typed nil exactly when an error is reported before the value |
| Parsing.ParseReturnStatement | parser/parser.go:479-491 | gives a return statement |
| Parsing.ParseExpressionStatement | parser/parser.go:410-419 | gives an expression statement carrying the first token |
| Parsing.ProgramStatements | parser/parser.go:105-111 | reads to the last token, keeping every statement already parsed |
| Parsing.ParseProgram | parser/parser.go:101-114 | reads every token; with no error, the program has no nil in it |
| Parser.Lexer.constructor | parser/parser.go:62 | the token source starts at the first token |
| Parser.Lexer.NextToken | parser/parser.go:142-145 | hands out tokens in order, then EOF again and again |
| Parser.Parser.constructor | parser/parser.go:62-98 | `New` primes both tokens: the state is `Parsing.Start` |
| Parser.Parser.NextToken | parser/parser.go:142-145 | shifts peeked into current and pulls one token: the state is `Parsing.NextToken` of the old one |
| Parser.Parser.NoPrefixParseFnError | parser/parser.go:147-150 | appends the message and changes nothing else |
| Parser.Parser.PeekError | parser/parser.go:152-155 | appends the message and changes nothing else |
| Parser.Parser.ExpectPeek | parser/parser.go:133-140 | computes `Parsing.ExpectPeek` in place |
| Parser.Parser.SkipSemicolon | parser/parser.go:414-416 | computes `Parsing.SkipSemicolon` in place |
| Parser.Parser.ParseProgram | parser/parser.go:101-114 | the loop computes `Parsing.ParseProgram` |
| Parser.Parser.ParseStatement | parser/parser.go:493-502 | computes `Parsing.ParseStatement` |
| Parser.Parser.ParseLetStatement | parser/parser.go:362-384 | computes `Parsing.ParseLetStatement` |
| Parser.Parser.ParseReturnStatement | parser/parser.go:479-491 | computes `Parsing.ParseReturnStatement` |
| Parser.Parser.ParseExpressionStatement | parser/parser.go:410-419 | computes `Parsing.ParseExpressionStatement` |
| Parser.Parser.ParseBlockStatement | parser/parser.go:165-181 | computes `Parsing.ParseBlockStatement` |
| Parser.Parser.BlockStatements | parser/parser.go:171-178 | the loop computes `Parsing.BlockStatements` |
| Parser.Parser.ParseExpression | parser/parser.go:386-408 | computes `Parsing.ParseExpression` |
| Parser.Parser.ExpressionLoop | parser/parser.go:396-405 | the loop computes `Parsing.ExpressionLoop` |
| Parser.Parser.ParsePrefix | parser/parser.go:387-394 | dispatch through the prefix table computes `Parsing.ParsePrefix` |
| Parser.Parser.ParseInfix | parser/parser.go:397-404 | dispatch through the infix table computes `Parsing.ParseInfix` |
| Parser.Parser.ParseIdentifier | parser/parser.go:433-435 | computes `Parsing.ParseIdentifier` |
| Parser.Parser.ParseIntegerLiteral | parser/parser.go:451-464 | computes `Parsing.ParseIntegerLiteral` |
| Parser.Parser.ParseBoolean | parser/parser.go:183-185 | computes `Parsing.ParseBoolean` |
| Parser.Parser.ParseStringLiteral | parser/parser.go:504-506 | computes `Parsing.ParseStringLiteral` |
| Parser.Parser.ParsePrefixExpression | parser/parser.go:466-477 | computes `Parsing.ParsePrefixExpression` |
| Parser.Parser.ParseGroupedExpression | parser/parser.go:421-431 | computes `Parsing.ParseGroupedExpression` |
| Parser.Parser.ParseIfExpression | parser/parser.go:329-341 | computes `Parsing.ParseIfExpression` |
| Parser.Parser.IfBlocks | parser/parser.go:343-347 | computes `Parsing.IfBlocks` |
| Parser.Parser.ElseBlock | parser/parser.go:349-359 | computes `Parsing.ElseBlock` |
| Parser.Parser.ParseFunctionLiteral | parser/parser.go:240-256 | computes `Parsing.ParseFunctionLiteral` |
| Parser.Parser.ParseFunctionParameters | parser/parser.go:258-284 | computes `Parsing.ParseFunctionParameters` |
| Parser.Parser.ParameterTail | parser/parser.go:271-277 | the loop computes `Parsing.ParameterTail` |
| Parser.Parser.ParseArrayLiteral | parser/parser.go:157-163 | computes `Parsing.ParseArrayLiteral` |
| Parser.Parser.ParseExpressionList | parser/parser.go:217-238 | computes `Parsing.ParseExpressionList` |
| Parser.Parser.ExpressionListTail | parser/parser.go:226-230 | the loop computes `Parsing.ExpressionListTail` |
| Parser.Parser.ParseHashLiteral | parser/parser.go:286-313 | computes `Parsing.ParseHashLiteral` |
| Parser.Parser.HashPairs | parser/parser.go:290-306 | the loop computes `Parsing.HashPairs` |
| Parser.Parser.HashValue | parser/parser.go:299-305 | one iteration: on success the rest of the loop is `Parsing.HashPairs` from the new state; on failure nil |
| Parser.Parser.CommaUnlessClosed | parser/parser.go:303 | with `}` peeked nothing moves; otherwise it is `expectPeek(,)` |
| Parser.Parser.ParseInfixExpression | parser/parser.go:437-449 | computes `Parsing.ParseInfixExpression` |
| Parser.Parser.ParseCallExpression | parser/parser.go:187-192 | computes `Parsing.ParseCallExpression` |
| Parser.Parser.ParseIndexExpression | parser/parser.go:315-327 | computes `Parsing.ParseIndexExpression` |
| ParserFacts.PrecedenceTable | parser/parser.go:11-42 | a token's binding power is its table entry, else LOWEST; LOWEST < `==` < `<` < `+` < `*` < prefix < call < index |
| ParserFacts.IdentifierText | ast/identifier.go:12-22 | an identifier as the parser builds it has the same String and TokenLiteral: its token's spelling |
| Parsing.InfixHandlerForEveryBindingToken | parser/parser.go:84-94 | a token binds above LOWEST exactly when it has an infix handler |
| ParserFacts.LoopStops | parser/parser.go:396 | a peeked `;`, or a peek binding no tighter than the minimum, ends the loop with the left expression |
| ParserFacts.LoopFoldsOperator | parser/parser.go:396-405 | a binary operator binding tighter than the minimum is folded: its right operand is parsed at its own precedence |
| ParserFacts.FoldLast | parser/parser.go:396-405 | a last operator is folded and the loop stops |
| ParserFacts.FoldOperand | parser/parser.go:396-405 | with the right operand's parse named, folding one operator continues the loop from the infix node |
| ParserFacts.FoldLeaf | parser/parser.go:396-405 | a one-token right operand that binds no looser is folded into an infix node and the loop continues after it |
| ParserFacts.IdentifierAlone | parser/parser.go:386-408 | an identifier followed by a weaker token is the whole expression |
| ParserFacts.IdentifierOperand | parser/parser.go:433-435 | an identifier starts the loop as its left expression |
| ParserFacts.BooleanOperand | parser/parser.go:183-185 | `true`/`false` start the loop as a boolean literal |
| ParserFacts.BooleanAlone | parser/parser.go:183-185 | a boolean followed by a weaker token is the whole expression |
| ParserFacts.PrefixOperand | parser/parser.go:466-477 | `-x` and `!x` parse their operand at PREFIX precedence, then the loop goes on |
| ParserFacts.GroupedOperand | parser/parser.go:421-431 | a parenthesised expression is the loop's left expression, with no node of its own |
| ParserFacts.IntegerOperand | parser/parser.go:451-464 | an integer literal that parses starts the loop with its value |
| ParserFacts.Leaf | parser/parser.go:433-435 | the node of a one-token operand: an identifier with its literal, or a boolean literal; it agrees with its token and renders |
| ParserFacts.LeafOperand | parser/parser.go:386-395 | a one-token operand is the left expression the loop starts from |
| ParserFacts.LeafAlone | parser/parser.go:386-408 | a one-token operand followed by a weaker token is the whole expression |
| ParserFacts.PrefixWith | parser/parser.go:466-477 | with its operand's parse named, a prefix operator builds its node and the loop continues after the operand |
| ParserFacts.ExpressionStatementStep | parser/parser.go:410-419 | the program keeps an expression statement, skips an optional `;` and goes on |
| ParserFacts.ProgramEnds | parser/parser.go:104 | at EOF the program loop stops |
| ParserFacts.SingleExpressionProgram | parser/parser.go:101-114 | a program of one expression is that expression statement |
| ParserFacts.ExpressionProgramAt | parser/parser.go:101-114 | an expression ending just before an optional `;` and EOF makes a one-statement program ending at EOF |
| ParserFacts.ProgramRendering | parser/parser_test.go:310-311 | statements render back to back |
| ParserFacts.SingleStatementText | parser/parser_test.go:310-311 | a one-statement program renders as that statement |
| ParserFacts.TwoStatementsText | parser/parser_test.go:310-311 | a two-statement program renders as both statements back to back |
| ParserFacts.ExpressionProgramText | parser/parser_test.go:310-311 | a program of one expression statement renders as the expression |
| ParserFacts.AbFolds | parser/parser.go:396-405 | on `a + b - c`, `+` is folded first and the loop continues at `b` with `(a + b)` |
| ParserFacts.AbcFolds | parser/parser.go:444-446 | from the states the tokens of `a + b - c` fix, the parse is `((a + b) - c)`: `-` is folded with `(a + b)` as its left operand |
| ParserFacts.BcFolds | parser/parser.go:396-405 | the loop holding `(a + b)` folds `-` onto it with `c` as the right operand and stops at `;` |
| ParserFacts.AbcText | parser/parser_test.go:290-291 | the folded tree renders `((a + b) - c)` |
| ParserFacts.AbcRendering | parser/parser_test.go:290-291 | a program of the folded tree renders `((a + b) - c)` |
| ParserFacts.LeftAssociative | parser/parser_test.go:290-291 | `a + b - c` parses and renders as `((a + b) - c)` |
| ParserFacts.QuotientFolds | parser/parser.go:444-446 | `b / c` binds inside the right operand of `+` |
| ParserFacts.SumOfQuotientFolds | parser/parser.go:396-405 | `a + b / c` folds `/` inside the right operand of `+` |
| ParserFacts.SumFolds | parser/parser.go:396-405 | the loop holding `a` folds `+` with the whole quotient `b / c` as its right operand and stops at `;` |
| ParserFacts.SumOfQuotientText | parser/parser_test.go:302-303 | the folded tree renders `(a + (b / c))` |
| ParserFacts.SumOfQuotientRendering | parser/parser_test.go:302-303 | a program of the tree renders `(a + (b / c))` |
| ParserFacts.TighterOnTheRight | parser/parser_test.go:302-303 | `a + b / c` parses and renders as `(a + (b / c))` |
| ParserFacts.NegatedFactorFolds | parser/parser.go:466-477 | `-a * b` takes `a` alone as the operand of `-` |
| ParserFacts.FactorFolds | parser/parser.go:396-405 | the loop holding `(-a)` folds `*` with `b` as its right operand and stops at `;` |
| ParserFacts.NegatedFactorText | parser/parser_test.go:278-279 | the folded tree renders `((-a) * b)` |
| ParserFacts.NegatedFactorRendering | parser/parser_test.go:278-279 | a program of the tree renders `((-a) * b)` |
| ParserFacts.PrefixBindsTighter | parser/parser_test.go:278-279 | `-a * b` parses and renders as `((-a) * b)` |
| ParserFacts.NotNegatedFolds | parser/parser.go:466-477 | `!-a` nests the prefix operators |
| ParserFacts.NotNegatedText | parser/parser_test.go:282-283 | the folded tree renders `(!(-a))` |
| ParserFacts.NotNegatedRendering | parser/parser_test.go:282-283 | a program of the tree renders `(!(-a))` |
| ParserFacts.PrefixOperatorsNest | parser/parser_test.go:282-283 | `!-a` parses and renders as `(!(-a))` |
| ParserFacts.InnerEqualityFolds | parser/parser.go:396-405 | inside the parentheses, `true == true` folds |
| ParserFacts.NotGroupedFolds | parser/parser.go:421-431 | `!` takes the whole parenthesised equality as its operand |
| ParserFacts.TrueEqualsTrueText | parser/parser_test.go:342-343 | the inner equality renders `(true == true)` |
| ParserFacts.NotGroupedText | parser/parser_test.go:342-343 | the folded tree renders `(!(true == true))` |
| ParserFacts.NotGroupedRendering | parser/parser_test.go:342-343 | a program of the tree renders `(!(true == true))` |
| ParserFacts.ParenthesesGroup | parser/parser_test.go:342-343 | `!(true == true)` parses and renders as `(!(true == true))` |
| ParserFacts.ElseIsOptional | parser/parser.go:349-357 | without `else` the alternative is nil; after `else {` both blocks are kept |
| ParserFacts.MissingLetName | parser/parser.go:362-367 | a `let` without a name appends the peek error and a typed nil statement that the program keeps |
| ParserFacts.MissingNameMessages | parser/parser.go:147-155 | the exact texts of the peek error and the no-prefix error |

## Left out

- Lexing: the lexer and token packages are not part of this model. The
  parser reads a given sequence of tokens, which ends in EOF.
- `parseCallArguments` (parser/parser.go:194-215) is never called. It is
  `parseExpressionList` with `)` as the terminator, which is modelled.
- Text.Quote: characters outside ASCII are copied unescaped. Go's `%q`
  escapes the non-printable ones as `\u` or `\U`, as decided by the
  `unicode.IsPrint` tables, which are not part of this model. ASCII is
  quoted exactly as Go does.
- The file that defines `ast.Program` is not part of this model.
  `Ast.ProgramString` renders a program the way `BlockStatement.String()`
  renders a block: the statements' strings, back to back.
- The files that define the `if`, call and `return` nodes are not part
  of this model. `Ast.String` renders `IfExpression` and `CallExpression`,
  and `Ast.StmtString` renders `ReturnStatement`, in Monkey's
  conventional forms. These are `if<cond> <block>[else <block>]`,
  `f(a, b)` and `return <value>;`.
- Only `BOOLEAN`, `INTEGER` and `NULL` are declared in
  object/object.go:8-13, and `ARRAY` appears only in the builtins' error
  texts. The other type names are Monkey's conventional ones, assumed
  here: `STRING`, `HASH`, `FUNCTION`, `BUILTIN`, `RETURN_VALUE` and
  `ERROR`. They reach `Builtins.Len`'s unsupported-argument message and
  `Objects.TypeNameInjective`.
- I/O: the REPL, the script runner and `main` are out of scope. The
  printing done by `puts` is not modelled, only its NULL result.
- Go map iteration order in the two hash renderers is left unspecified:
  `Ast.MapOrder` is an arbitrary order, and `Objects.Inspect` holds for
  every enumeration of the keys. Only renderings of zero or one pair are
  stated exactly.
- Runtime panics:
  - division by zero;
  - `Type()` on a nil operand;
  - rendering a nil node where the renderer does not test for nil.

  These are preconditions (`SafeExpr`, `Renderable`), not modelled behaviour.
- `newError` formats its message with Go's `fmt`. The model writes each
  builtin's message out with `%d` and `%s` already applied.
- Evaluator tests written for a later evaluator are not modelled. They
  expect error objects, `let`, closures, strings, arrays, indexing and
  builtin lookup, which the evaluator shown does not have.
- `Parsing.ParseExpressionList` and `Parsing.ParseFunctionParameters`: a
  missing terminator gives Go's nil slice, modelled as the empty sequence.
  Every use of the result treats the two alike.
- Some precedence test inputs are not proved concretely: the longer ones
  (`a + b * c + d / e - f`, `3 + 4 * 5 == 3 * 1 + 4 * 5`) and those with
  integer literals (`(5 + 5) * 2`, `-(5 + 5)`, `3 + 4; -5 * 5`). The
  general lemmas they rest on are proved. These are the fold step,
  `ParserFacts.GroupedOperand`, `ParserFacts.IntegerOperand` and
  `ParserFacts.ProgramRendering`.
- Object identity: `==` on non-integer objects compares Go pointers. The
  model treats it as equal Booleans or two NULLs, because every other
  object the evaluator produces is freshly allocated.
